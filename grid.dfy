/** The generator's spatial index (src/util.rs:17-20, 51-71, 134-139): the 640 x 640 sky is
    cut into a 10 x 10 grid of 64-pixel sections, numbered row by row, and collision checks
    only look at the 3 x 3 block of sections around a candidate. */
module Grid {
  import opened Arith
  import opened Entities

  const SKY_WIDTH_SECTIONS: nat := 10
  const SKY_HEIGHT_SECTIONS: nat := 10
  const SECTION_WIDTH: nat := 64
  const SECTION_HEIGHT: nat := 64
  const SECTION_COUNT: nat := 100
  const SKY_WIDTH: nat := 640
  const SKY_HEIGHT: nat := 640

  /** Whether a point lies inside the sky. */
  predicate IsInBounds(x: int, y: int) {
    && 0 <= x < SKY_WIDTH
    && 0 <= y < SKY_HEIGHT
  }

  /** Column and row of the section holding a point. For the 16-bit coordinates of the
      source, `(x as usize / 64) as i16` is the floor division Dafny's `/` performs. */
  function SectionColumn(x: int): int { x / SECTION_WIDTH }
  function SectionRow(y: int): int { y / SECTION_HEIGHT }

  /** Index of the section holding a point, row-major. */
  function SectionOf(x: int, y: int): int {
    SectionRow(y) * SKY_WIDTH_SECTIONS + SectionColumn(x)
  }

  /** A point is in the sky exactly when its section's column and row are in the grid,
      and then its section index is below SECTION_COUNT and encodes that column and row. */
  lemma SectionOfInBounds(x: int, y: int)
    ensures IsInBounds(x, y) <==>
      0 <= SectionColumn(x) < SKY_WIDTH_SECTIONS && 0 <= SectionRow(y) < SKY_HEIGHT_SECTIONS
    ensures IsInBounds(x, y) ==>
      && 0 <= SectionOf(x, y) < SECTION_COUNT
      && SectionOf(x, y) % SKY_WIDTH_SECTIONS == SectionColumn(x)
      && SectionOf(x, y) / SKY_WIDTH_SECTIONS == SectionRow(y)
  {
  }

  /** Section c lies in the 3 x 3 block around section s, clipped to the grid. */
  predicate IsNeighbour(s: nat, c: int) {
    && 0 <= c < SECTION_COUNT
    && -1 <= c % SKY_WIDTH_SECTIONS - s % SKY_WIDTH_SECTIONS <= 1
    && -1 <= c / SKY_WIDTH_SECTIONS - s / SKY_WIDTH_SECTIONS <= 1
  }

  /** The section at column nx and row ny, or nothing when that cell is off the grid. */
  function Cell(nx: int, ny: int): seq<nat> {
    if 0 <= nx < SKY_WIDTH_SECTIONS && 0 <= ny < SKY_HEIGHT_SECTIONS
    then [ny * SKY_WIDTH_SECTIONS + nx]
    else []
  }

  /** The in-grid sections of row ny whose column is within one of sx, left to right. */
  function Row(sx: int, ny: int): seq<nat> {
    Cell(sx - 1, ny) + Cell(sx, ny) + Cell(sx + 1, ny)
  }

  /** `neighboring_section_indices`: the block of sections around s, row offsets outer and
      column offsets inner, each from -1 to 1, dropping cells off the grid. */
  function NeighboringSectionIndices(s: nat): (r: seq<nat>)
    ensures |r| <= 9
    ensures forall c :: c in r <==> IsNeighbour(s, c)
    ensures forall i, j :: 0 <= i < j < |r| ==> r[i] < r[j]
    ensures s < SECTION_COUNT ==> s in r
  {
    var sx, sy := s % SKY_WIDTH_SECTIONS, s / SKY_WIDTH_SECTIONS;
    NeighbourBlock(s, sx, sy, Row(sx, sy - 1), Row(sx, sy), Row(sx, sy + 1));
    Row(sx, sy - 1) + Row(sx, sy) + Row(sx, sy + 1)
  }

  /** The rows above, at and below section s (at column sx, row sy) together hold exactly
      its neighbours, in increasing order. */
  lemma NeighbourBlock(s: nat, sx: int, sy: int, a: seq<nat>, b: seq<nat>, c: seq<nat>)
    requires sx == s % SKY_WIDTH_SECTIONS && sy == s / SKY_WIDTH_SECTIONS
    requires a == Row(sx, sy - 1) && b == Row(sx, sy) && c == Row(sx, sy + 1)
    ensures |a + b + c| <= 9
    ensures forall n :: n in a + b + c <==> IsNeighbour(s, n)
    ensures forall i, j :: 0 <= i < j < |a + b + c| ==> (a + b + c)[i] < (a + b + c)[j]
    ensures s < SECTION_COUNT ==> s in a + b + c
  {
    RowFacts(sx, sy - 1);
    RowFacts(sx, sy);
    RowFacts(sx, sy + 1);
    forall n ensures n in a + b + c <==> IsNeighbour(s, n) {
      assert n in a + b + c <==> n in a || n in b || n in c;
    }
    SortedConcat(a, b, sy - 1, sy);
    SortedConcat(a + b, c, sy, sy + 1);
  }

  /** Concatenating a sorted list of sections of rows up to ra with a sorted list of
      sections of row rb > ra keeps it sorted. */
  lemma SortedConcat(a: seq<nat>, b: seq<nat>, ra: int, rb: int)
    requires ra < rb
    requires forall i, j :: 0 <= i < j < |a| ==> a[i] < a[j]
    requires forall i, j :: 0 <= i < j < |b| ==> b[i] < b[j]
    requires forall c :: c in a ==> c / SKY_WIDTH_SECTIONS <= ra
    requires forall c :: c in b ==> c / SKY_WIDTH_SECTIONS == rb
    ensures forall i, j :: 0 <= i < j < |a + b| ==> (a + b)[i] < (a + b)[j]
  {
    forall i, j | 0 <= i < j < |a + b| ensures (a + b)[i] < (a + b)[j] {
      if j < |a| {
        assert (a + b)[i] == a[i] && (a + b)[j] == a[j];
      } else if i >= |a| {
        assert (a + b)[i] == b[i - |a|] && (a + b)[j] == b[j - |a|];
      } else {
        assert (a + b)[i] in a && (a + b)[j] in b;
        assert (a + b)[i] / SKY_WIDTH_SECTIONS < (a + b)[j] / SKY_WIDTH_SECTIONS;
      }
    }
  }

  /** Row(sx, ny), for a column sx of the grid, lists in increasing order exactly the
      sections of row ny whose column is within one of sx. */
  lemma RowFacts(sx: int, ny: int)
    requires 0 <= sx < SKY_WIDTH_SECTIONS
    ensures |Row(sx, ny)| <= 3
    ensures forall c :: c in Row(sx, ny) <==>
      0 <= c < SECTION_COUNT && c / SKY_WIDTH_SECTIONS == ny
      && -1 <= c % SKY_WIDTH_SECTIONS - sx <= 1
    ensures forall i, j :: 0 <= i < j < |Row(sx, ny)| ==> Row(sx, ny)[i] < Row(sx, ny)[j]
  {
    CellMembers(sx - 1, ny);
    CellMembers(sx, ny);
    CellMembers(sx + 1, ny);
    var r := Row(sx, ny);
    forall i, j | 0 <= i < j < |r| ensures r[i] < r[j] {
      assert r[i] in r && r[j] in r;
      assert r[i] % SKY_WIDTH_SECTIONS < r[j] % SKY_WIDTH_SECTIONS;
    }
  }

  /** Cell(nx, ny) holds exactly the in-grid section whose column is nx and row is ny. */
  lemma CellMembers(nx: int, ny: int)
    ensures forall c :: c in Cell(nx, ny) <==>
      0 <= c < SECTION_COUNT && c % SKY_WIDTH_SECTIONS == nx && c / SKY_WIDTH_SECTIONS == ny
    ensures |Cell(nx, ny)| <= 1
  {
    forall c | 0 <= c < SECTION_COUNT && c % SKY_WIDTH_SECTIONS == nx && c / SKY_WIDTH_SECTIONS == ny
      ensures c in Cell(nx, ny)
    {
      assert c == ny * SKY_WIDTH_SECTIONS + nx;
    }
    if 0 <= nx < SKY_WIDTH_SECTIONS && 0 <= ny < SKY_HEIGHT_SECTIONS {
      CellCoordinates(nx, ny);
    }
  }

  /** A section index splits back into its column and row. */
  lemma CellCoordinates(nx: int, ny: int)
    requires 0 <= nx < SKY_WIDTH_SECTIONS && 0 <= ny < SKY_HEIGHT_SECTIONS
    ensures (ny * SKY_WIDTH_SECTIONS + nx) % SKY_WIDTH_SECTIONS == nx
    ensures (ny * SKY_WIDTH_SECTIONS + nx) / SKY_WIDTH_SECTIONS == ny
  {
  }

  /** Two points whose section columns differ by two or more are more than a section
      width apart. */
  lemma FarColumns(x1: int, x2: int)
    requires x1 / SECTION_WIDTH >= x2 / SECTION_WIDTH + 2
    ensures x1 - x2 >= SECTION_WIDTH + 1
  {
    assert SECTION_WIDTH * (x1 / SECTION_WIDTH) <= x1;
    assert x2 < SECTION_WIDTH * (x2 / SECTION_WIDTH) + SECTION_WIDTH;
  }

  /** Two points of the sky whose sections are not neighbours differ by at least 65 pixels
      along one axis, so their squared distance is at least 65 * 65. */
  lemma FarApart(x1: int, y1: int, x2: int, y2: int)
    requires IsInBounds(x1, y1) && IsInBounds(x2, y2)
    requires !IsNeighbour(SectionOf(x1, y1), SectionOf(x2, y2))
    ensures Abs(x1 - x2) >= SECTION_WIDTH + 1 || Abs(y1 - y2) >= SECTION_HEIGHT + 1
    ensures DistSq(x1, y1, x2, y2) >= (SECTION_WIDTH + 1) * (SECTION_WIDTH + 1)
  {
    SectionOfInBounds(x1, y1);
    SectionOfInBounds(x2, y2);
    var cx1, cx2, cy1, cy2 := SectionColumn(x1), SectionColumn(x2), SectionRow(y1), SectionRow(y2);
    if cx1 >= cx2 + 2 {
      FarColumns(x1, x2);
    } else if cx2 >= cx1 + 2 {
      FarColumns(x2, x1);
    } else if cy1 >= cy2 + 2 {
      FarColumns(y1, y2);
    } else {
      FarColumns(y2, y1);
    }
    SquareSumAtLeast(x1 - x2, y1 - y2, SECTION_WIDTH + 1);
  }

  /** A sum of two squares is at least k * k when either component has magnitude k or more. */
  lemma SquareSumAtLeast(dx: int, dy: int, k: nat)
    requires Abs(dx) >= k || Abs(dy) >= k
    ensures dx * dx + dy * dy >= k * k
  {
    assert Abs(dx) * Abs(dx) == dx * dx && Abs(dy) * Abs(dy) == dy * dy;
    if Abs(dx) > k { SquareLess(k, Abs(dx)); }
    if Abs(dy) > k { SquareLess(k, Abs(dy)); }
    assert dx * dx >= 0 && dy * dy >= 0;
  }
}
