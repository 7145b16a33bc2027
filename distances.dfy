/** The generator's spacing rule (src/util.rs:22-43, 73-132): a candidate position must keep
    at least STAR_DIST_MIN from every star of the surrounding 3 x 3 block of sections, must
    not fall in the dead zone (35, 47] of any of them, and must lie within linking distance
    of at least one. `check_distances` scans the block and either accepts the position or
    returns the correction that moves it. */
module Distances {
  import opened Arith
  import opened Entities
  import opened Grid

  const STAR_DIST_MIN: nat := 20
  const STAR_DIST_MAX_FOR_PRESET_LINE: nat := 30
  const STAR_DIST_MAX_FOR_LINE: nat := 35
  const STAR_DIST_DEAD_ZONE_END: nat := 47

  /** A star sits in section s: inside the sky, and s is the section of its position. */
  predicate StarInSection(st: Star, s: int) {
    IsInBounds(st.x, st.y) && SectionOf(st.x, st.y) == s
  }

  /** The spatial index is well formed: one bucket per section, each entry naming a star
      node that lies in that bucket's section. */
  predicate IndexesStars(sections: seq<seq<nat>>, nodes: seq<Node>) {
    && |sections| == SECTION_COUNT
    && forall s, k :: 0 <= s < |sections| && 0 <= k < |sections[s]| ==>
         && sections[s][k] < |nodes|
         && nodes[sections[s][k]].StarNode?
         && StarInSection(nodes[sections[s][k]].star, s)
  }

  /** Every entry of es names a star node of the sky. */
  predicate AllStars(nodes: seq<Node>, es: seq<nat>) {
    forall k :: 0 <= k < |es| ==>
      es[k] < |nodes| && nodes[es[k]].StarNode? && IsInBounds(nodes[es[k]].star.x, nodes[es[k]].star.y)
  }

  /** Integer distance (rounded down) from (x, y) to a star. */
  function Dist(x: int, y: int, st: Star): nat {
    Isqrt(DistSq(x, y, st.x, st.y))
  }

  /** The distance between two points does not depend on which one is the star. */
  lemma DistSymmetric(x: int, y: int, st: Star, other: Star)
    requires other.x == x && other.y == y
    ensures Dist(x, y, st) == Dist(st.x, st.y, other)
  {
    DistSqSymmetric(x, y, st.x, st.y);
  }

  /** A distance that disqualifies a candidate: too close, or in the dead zone. */
  predicate Conflicts(d: nat) {
    d < STAR_DIST_MIN || (STAR_DIST_MAX_FOR_LINE < d <= STAR_DIST_DEAD_ZONE_END)
  }

  /** The correction returned for a conflicting star: a fixed step when the positions
      coincide, otherwise the offset away from the star rescaled to length 20 (too close) or
      35 (dead zone), each component rounded toward zero. */
  function Push(x: int, y: int, st: Star): (int, int)
    requires Conflicts(Dist(x, y, st))
  {
    var d := Dist(x, y, st);
    var dx, dy := x - st.x, y - st.y;
    if d == 0 then (10, 10)
    else if d < STAR_DIST_MIN then (TruncDiv(dx * STAR_DIST_MIN, d), TruncDiv(dy * STAR_DIST_MIN, d))
    else (TruncDiv(dx * STAR_DIST_MAX_FOR_LINE, d), TruncDiv(dy * STAR_DIST_MAX_FOR_LINE, d))
  }

  /** The correction toward the closest star (at (cx, cy), distance cd) when every star is
      farther than linking distance: the offset toward it rescaled to length 35. */
  function Pull(x: int, y: int, cx: int, cy: int, cd: nat): (int, int)
    requires cd > 0
  {
    (TruncDiv((cx - x) * STAR_DIST_MAX_FOR_LINE, cd), TruncDiv((cy - y) * STAR_DIST_MAX_FOR_LINE, cd))
  }

  /** The index entries of the sections ns[0], ..., ns[i-1], bucket after bucket. */
  function SectionEntries(sections: seq<seq<nat>>, ns: seq<nat>, i: nat): seq<nat>
    requires i <= |ns|
    requires forall t :: 0 <= t < |ns| ==> ns[t] < |sections|
  {
    if i == 0 then [] else SectionEntries(sections, ns, i - 1) + sections[ns[i - 1]]
  }

  /** The stars named by the index entries es, in order. */
  function StarsOf(nodes: seq<Node>, es: seq<nat>): (cs: seq<Star>)
    requires AllStars(nodes, es)
    ensures |cs| == |es|
    ensures forall k :: 0 <= k < |es| ==> cs[k] == nodes[es[k]].star && IsInBounds(cs[k].x, cs[k].y)
  {
    seq(|es|, k requires 0 <= k < |es| => nodes[es[k]].star)
  }

  /** The stars check_distances compares (x, y) against, in scan order: those indexed by
      the neighbouring sections of (x, y)'s section. */
  function Candidates(sections: seq<seq<nat>>, nodes: seq<Node>, x: int, y: int): (cs: seq<Star>)
    requires IsInBounds(x, y) && IndexesStars(sections, nodes)
    ensures forall k :: 0 <= k < |cs| ==> IsInBounds(cs[k].x, cs[k].y)
  {
    SectionOfInBounds(x, y);
    var ns := NeighboringSectionIndices(SectionOf(x, y));
    NeighboursInGrid(ns, SectionOf(x, y));
    EntriesAreStars(sections, nodes, ns, |ns|);
    StarsOf(nodes, SectionEntries(sections, ns, |ns|))
  }

  /** The neighbouring sections of a section all exist. */
  lemma NeighboursInGrid(ns: seq<nat>, s: nat)
    requires ns == NeighboringSectionIndices(s)
    ensures forall t :: 0 <= t < |ns| ==> ns[t] < SECTION_COUNT
  {
    forall t | 0 <= t < |ns| ensures ns[t] < SECTION_COUNT {
      assert ns[t] in ns;
    }
  }

  lemma {:induction false} EntriesAreStars(sections: seq<seq<nat>>, nodes: seq<Node>, ns: seq<nat>, i: nat)
    requires IndexesStars(sections, nodes)
    requires i <= |ns| && forall t :: 0 <= t < |ns| ==> ns[t] < |sections|
    ensures AllStars(nodes, SectionEntries(sections, ns, i))
  {
    if i > 0 {
      EntriesAreStars(sections, nodes, ns, i - 1);
      var a, b := SectionEntries(sections, ns, i - 1), sections[ns[i - 1]];
      forall k | 0 <= k < |a + b|
        ensures (a + b)[k] < |nodes| && nodes[(a + b)[k]].StarNode?
        ensures IsInBounds(nodes[(a + b)[k]].star.x, nodes[(a + b)[k]].star.y)
      {
        if k >= |a| { assert (a + b)[k] == b[k - |a|]; }
      }
    }
  }

  /** The distances from (x, y) to the stars cs, in order. */
  function Dists(x: int, y: int, cs: seq<Star>): (ds: seq<nat>)
    ensures |ds| == |cs|
  {
    seq(|cs|, k requires 0 <= k < |cs| => Dist(x, y, cs[k]))
  }

  /** No distance of ds disqualifies the candidate. */
  predicate NoConflict(ds: seq<nat>) {
    forall k :: 0 <= k < |ds| ==> !Conflicts(ds[k])
  }

  /** ds[k] is the first distance that disqualifies the candidate. */
  predicate FirstConflict(ds: seq<nat>, k: int) {
    && 0 <= k < |ds|
    && Conflicts(ds[k])
    && forall j :: 0 <= j < k ==> !Conflicts(ds[j])
  }

  /** Some star is within linking distance. */
  predicate HasLinkable(ds: seq<nat>) {
    exists k :: 0 <= k < |ds| && ds[k] <= STAR_DIST_MAX_FOR_LINE
  }

  /** ds[k] is the first of the smallest distances among the first n. */
  predicate FirstMinimum(ds: seq<nat>, n: int, k: int)
    requires n <= |ds|
  {
    && 0 <= k < n
    && (forall j :: 0 <= j < n ==> ds[k] <= ds[j])
    && (forall j :: 0 <= j < k ==> ds[k] < ds[j])
  }

  /** A running minimum over the first n values of ds: cd is i32::MAX before any value,
      and afterwards ds[ck], the first of the smallest. */
  predicate MinState(ds: seq<nat>, n: int, cd: int, ck: int) {
    && 0 <= n <= |ds|
    && (n == 0 ==> cd == I32_MAX)
    && (n > 0 ==> FirstMinimum(ds, n, ck) && cd == ds[ck])
  }

  /** What the scan knows after visiting the first n candidates: none conflicts, and the
      running minimum of their distances. */
  predicate ScanState(ds: seq<nat>, n: int, cd: int, ck: int) {
    && MinState(ds, n, cd, ck)
    && (forall k :: 0 <= k < n ==> !Conflicts(ds[k]))
  }

  /** `check_distances`: None exactly when (x, y) conflicts with no star of the surrounding
      sections and is within linking distance of one of them. Otherwise the correction is
      the push away from the first conflicting star in scan order, or, when nothing
      conflicts but everything is too far, the pull toward the first closest star (with no
      star around, the pull toward the origin over distance i32::MAX). */
  method CheckDistances(sections: seq<seq<nat>>, nodes: seq<Node>, x: int, y: int)
    returns (r: Option<(int, int)>)
    requires IsInBounds(x, y) && IndexesStars(sections, nodes)
    ensures var ds := Dists(x, y, Candidates(sections, nodes, x, y));
      r.None? <==> NoConflict(ds) && HasLinkable(ds)
    ensures var cs := Candidates(sections, nodes, x, y); var ds := Dists(x, y, cs);
      forall k :: FirstConflict(ds, k) ==> r == Some(Push(x, y, cs[k]))
    ensures |Candidates(sections, nodes, x, y)| == 0 ==> r == Some(Pull(x, y, 0, 0, I32_MAX))
    ensures var cs := Candidates(sections, nodes, x, y); var ds := Dists(x, y, cs);
      NoConflict(ds) && !HasLinkable(ds) && |cs| > 0 ==>
        exists k :: FirstMinimum(ds, |ds|, k) && ds[k] > 0 && r == Some(Pull(x, y, cs[k].x, cs[k].y, ds[k]))
  {
    SectionOfInBounds(x, y);
    var section := SectionOf(x, y);
    var ns := NeighboringSectionIndices(section);
    NeighboursInGrid(ns, section);
    EntriesAreStars(sections, nodes, ns, |ns|);
    r := ScanSections(sections, nodes, x, y, ns, Candidates(sections, nodes, x, y));
  }

  /** The two nested loops of check_distances over the buckets ns, whose stars, in scan
      order, are cs. */
  method ScanSections(sections: seq<seq<nat>>, nodes: seq<Node>, x: int, y: int, ns: seq<nat>, ghost cs: seq<Star>)
    returns (r: Option<(int, int)>)
    requires IsInBounds(x, y)
    requires forall t :: 0 <= t < |ns| ==> ns[t] < |sections|
    requires AllStars(nodes, SectionEntries(sections, ns, |ns|))
    requires cs == StarsOf(nodes, SectionEntries(sections, ns, |ns|))
    ensures var ds := Dists(x, y, cs); r.None? <==> NoConflict(ds) && HasLinkable(ds)
    ensures var ds := Dists(x, y, cs); forall k :: FirstConflict(ds, k) ==> r == Some(Push(x, y, cs[k]))
    ensures |cs| == 0 ==> r == Some(Pull(x, y, 0, 0, I32_MAX))
    ensures var ds := Dists(x, y, cs);
      NoConflict(ds) && !HasLinkable(ds) && |cs| > 0 ==>
        exists k :: FirstMinimum(ds, |ds|, k) && ds[k] > 0 && r == Some(Pull(x, y, cs[k].x, cs[k].y, ds[k]))
  {
    ghost var ds := Dists(x, y, cs);
    var closestX, closestY, closestDist := 0, 0, I32_MAX;
    ghost var ck := 0;
    var i := 0;
    while i < |ns|
      invariant 0 <= i <= |ns|
      invariant ScanState(ds, |SectionEntries(sections, ns, i)|, closestDist, ck)
      invariant Closest(cs, |SectionEntries(sections, ns, i)|, ck, closestX, closestY)
    {
      BucketInCandidates(sections, nodes, ns, i, cs);
      var push;
      ghost var stop;
      push, closestX, closestY, closestDist, ck, stop :=
        ScanBucket(nodes, x, y, sections[ns[i]], cs, ds, |SectionEntries(sections, ns, i)|,
                   closestX, closestY, closestDist, ck);
      if push.Some? {
        forall k | FirstConflict(ds, k) ensures k == stop {
          FirstConflictUnique(ds, stop, k);
        }
        return push;
      }
      i := i + 1;
    }
    assert |SectionEntries(sections, ns, i)| == |ds|;
    assert NoConflict(ds);
    assert forall k :: !FirstConflict(ds, k);
    if |cs| > 0 {
      ScanDone(ds, closestDist, ck);
      assert FirstMinimum(ds, |ds|, ck) && ds[ck] == closestDist;
    }
    if closestDist > STAR_DIST_MAX_FOR_LINE {
      // the offset toward the closest star, rescaled to linking distance
      return Some(Pull(x, y, closestX, closestY, closestDist));
    }
    return None;
  }

  /** (cx, cy) is where the closest of the first n candidates, cs[ck], lies, or the origin
      when nothing has been scanned. */
  predicate Closest(cs: seq<Star>, n: int, ck: int, cx: int, cy: int) {
    && (n == 0 ==> cx == 0 && cy == 0)
    && (n > 0 ==> 0 <= ck < |cs| && cx == cs[ck].x && cy == cs[ck].y)
  }

  /** The inner loop of check_distances over one bucket whose stars are the candidates
      cs[base..base + |entries|]: it stops at the first conflicting star with its push, or
      folds every star into the closest-so-far. */
  method ScanBucket(nodes: seq<Node>, x: int, y: int, entries: seq<nat>, ghost cs: seq<Star>,
                    ghost ds: seq<nat>, ghost base: nat, cx0: int, cy0: int, cd0: int, ghost ck0: int)
    returns (push: Option<(int, int)>, cx: int, cy: int, cd: int, ghost ck: int, ghost stop: int)
    requires IsInBounds(x, y) && AllStars(nodes, entries)
    requires ds == Dists(x, y, cs) && base + |entries| <= |cs|
    requires forall j :: 0 <= j < |entries| ==> cs[base + j] == nodes[entries[j]].star
    requires ScanState(ds, base, cd0, ck0) && Closest(cs, base, ck0, cx0, cy0)
    ensures push.Some? ==> FirstConflict(ds, stop) && push == Some(Push(x, y, cs[stop]))
    ensures push.None? ==>
      ScanState(ds, base + |entries|, cd, ck) && Closest(cs, base + |entries|, ck, cx, cy)
  {
    cx, cy, cd, ck, stop := cx0, cy0, cd0, ck0, 0;
    var j := 0;
    while j < |entries|
      invariant 0 <= j <= |entries|
      invariant ScanState(ds, base + j, cd, ck) && Closest(cs, base + j, ck, cx, cy)
    {
      var st := nodes[entries[j]].star;
      var dx, dy := x - st.x, y - st.y;
      var dist := Isqrt(dx * dx + dy * dy);
      assert dist == ds[base + j] by {
        assert DistSq(x, y, st.x, st.y) == dx * dx + dy * dy;
      }
      if Conflicts(dist) {
        // the three early returns: identical position, too close, dead zone
        assert FirstConflict(ds, base + j);
        return Some(Push(x, y, st)), cx, cy, cd, ck, base + j;
      }
      DistBelowMax(x, y, st);
      ScanStep(ds, base + j, cd, ck);
      if dist < cd {
        cd := dist;
        cx := st.x;
        cy := st.y;
        ck := base + j;
      }
      j := j + 1;
    }
    push := None;
  }

  /** The stars of bucket ns[i] are the candidates that follow those of the first i buckets. */
  lemma BucketInCandidates(sections: seq<seq<nat>>, nodes: seq<Node>, ns: seq<nat>, i: nat, cs: seq<Star>)
    requires i < |ns| && forall t :: 0 <= t < |ns| ==> ns[t] < |sections|
    requires AllStars(nodes, SectionEntries(sections, ns, |ns|))
    requires cs == StarsOf(nodes, SectionEntries(sections, ns, |ns|))
    ensures AllStars(nodes, sections[ns[i]])
    ensures |SectionEntries(sections, ns, i)| + |sections[ns[i]]| == |SectionEntries(sections, ns, i + 1)| <= |cs|
    ensures forall j :: 0 <= j < |sections[ns[i]]| ==>
      cs[|SectionEntries(sections, ns, i)| + j] == nodes[sections[ns[i]][j]].star
  {
    BucketEntries(sections, ns, i);
    var b := sections[ns[i]];
    var es := SectionEntries(sections, ns, |ns|);
    forall j | 0 <= j < |b|
      ensures b[j] < |nodes| && nodes[b[j]].StarNode? && IsInBounds(nodes[b[j]].star.x, nodes[b[j]].star.y)
      ensures cs[|SectionEntries(sections, ns, i)| + j] == nodes[b[j]].star
    {
      assert es[|SectionEntries(sections, ns, i)| + j] == b[j];
    }
  }

  /** The entries of bucket ns[i] follow those of the first i buckets in the whole list. */
  lemma BucketEntries(sections: seq<seq<nat>>, ns: seq<nat>, i: nat)
    requires i < |ns| && forall t :: 0 <= t < |ns| ==> ns[t] < |sections|
    ensures |SectionEntries(sections, ns, i)| + |sections[ns[i]]| == |SectionEntries(sections, ns, i + 1)|
    ensures |SectionEntries(sections, ns, i + 1)| <= |SectionEntries(sections, ns, |ns|)|
    ensures forall j :: 0 <= j < |sections[ns[i]]| ==>
      SectionEntries(sections, ns, |ns|)[|SectionEntries(sections, ns, i)| + j] == sections[ns[i]][j]
  {
    EntriesGrow(sections, ns, i + 1, |ns|);
    forall j | 0 <= j < |sections[ns[i]]|
      ensures SectionEntries(sections, ns, |ns|)[|SectionEntries(sections, ns, i)| + j] == sections[ns[i]][j]
    {
      EntriesPrefix(sections, ns, i, j);
    }
  }

  /** Entry j of bucket ns[i] is the candidate that follows the entries of the first i
      buckets and the first j entries of this one. */
  lemma EntriesPrefix(sections: seq<seq<nat>>, ns: seq<nat>, i: nat, j: nat)
    requires i < |ns| && forall t :: 0 <= t < |ns| ==> ns[t] < |sections|
    requires j < |sections[ns[i]]|
    ensures |SectionEntries(sections, ns, i)| + j < |SectionEntries(sections, ns, |ns|)|
    ensures SectionEntries(sections, ns, |ns|)[|SectionEntries(sections, ns, i)| + j] == sections[ns[i]][j]
  {
    var a := SectionEntries(sections, ns, i);
    var whole := SectionEntries(sections, ns, i + 1);
    assert whole == a + sections[ns[i]];
    assert whole[|a| + j] == sections[ns[i]][j];
    EntriesGrow(sections, ns, i + 1, |ns|);
    assert SectionEntries(sections, ns, |ns|)[..|whole|][|a| + j] == whole[|a| + j];
  }

  /** Scanning more buckets only appends entries. */
  lemma {:induction false} EntriesGrow(sections: seq<seq<nat>>, ns: seq<nat>, i: nat, n: nat)
    requires i <= n <= |ns| && forall t :: 0 <= t < |ns| ==> ns[t] < |sections|
    ensures |SectionEntries(sections, ns, i)| <= |SectionEntries(sections, ns, n)|
    ensures SectionEntries(sections, ns, n)[..|SectionEntries(sections, ns, i)|] == SectionEntries(sections, ns, i)
  {
    if n > i {
      EntriesGrow(sections, ns, i, n - 1);
      var a, b := SectionEntries(sections, ns, n - 1), sections[ns[n - 1]];
      assert (a + b)[..|a|] == a;
    }
  }

  /** A list has at most one first conflict. */
  lemma FirstConflictUnique(ds: seq<nat>, n: int, k: int)
    requires FirstConflict(ds, n) && FirstConflict(ds, k)
    ensures n == k
  {
  }

  /** Visiting a candidate that does not conflict extends the scan state: it becomes the
      closest exactly when it is strictly closer than the closest so far. */
  lemma ScanStep(ds: seq<nat>, n: int, cd: int, ck: int)
    requires ScanState(ds, n, cd, ck) && n < |ds|
    requires !Conflicts(ds[n]) && ds[n] < I32_MAX
    ensures ds[n] < cd ==> ScanState(ds, n + 1, ds[n], n)
    ensures ds[n] >= cd ==> ScanState(ds, n + 1, cd, ck)
  {
    MinStep(ds, n, cd, ck);
  }

  /** A strict `<` comparison against the running minimum keeps the first of the smallest. */
  lemma MinStep(ds: seq<nat>, n: int, cd: int, ck: int)
    requires MinState(ds, n, cd, ck) && n < |ds| && ds[n] < I32_MAX
    ensures ds[n] < cd ==> MinState(ds, n + 1, ds[n], n)
    ensures ds[n] >= cd ==> MinState(ds, n + 1, cd, ck)
  {
  }

  /** Two points of the sky are far less than i32::MAX apart. */
  lemma DistBelowMax(x: int, y: int, st: Star)
    requires IsInBounds(x, y) && IsInBounds(st.x, st.y)
    ensures Dist(x, y, st) < I32_MAX
  {
    var d2 := DistSq(x, y, st.x, st.y);
    assert d2 < 1280 * 1280 by {
      var dx, dy := x - st.x, y - st.y;
      assert Abs(dx) < SKY_WIDTH && Abs(dy) < SKY_HEIGHT;
      SquareLess(Abs(dx), SKY_WIDTH);
      SquareLess(Abs(dy), SKY_HEIGHT);
      assert Abs(dx) * Abs(dx) == dx * dx && Abs(dy) * Abs(dy) == dy * dy;
    }
    IsqrtAtLeast(d2, 1280);
  }

  /** At the end of a complete scan the closest distance decides whether some star is
      within linking distance. */
  lemma ScanDone(ds: seq<nat>, cd: int, ck: int)
    requires MinState(ds, |ds|, cd, ck) && |ds| > 0
    ensures HasLinkable(ds) <==> cd <= STAR_DIST_MAX_FOR_LINE
  {
  }

  /** Rescaling one component of an offset by k / |offset| keeps its sign (or zero) and
      makes it at most k in magnitude, because a component never exceeds the length. */
  lemma ScaledComponent(a: int, b: int, k: nat)
    requires Isqrt(a * a + b * b) > 0
    ensures var q := TruncDiv(a * k, Isqrt(a * a + b * b));
      && Abs(q) <= k
      && (a >= 0 ==> q >= 0)
      && (a <= 0 ==> q <= 0)
  {
    IsqrtDominates(a, b);
    ScaleBound(a, Isqrt(a * a + b * b), k);
  }

  /** a * k / d, rounded toward zero, has a's sign and is at most k in magnitude when
      |a| <= d. */
  lemma ScaleBound(a: int, d: nat, k: nat)
    requires 0 < d && Abs(a) <= d
    ensures var q := TruncDiv(a * k, d);
      && Abs(q) <= k
      && (a >= 0 ==> q >= 0)
      && (a <= 0 ==> q <= 0)
  {
    var q := TruncDiv(a * k, d);
    AbsProduct(a, k);
    MulMono(Abs(a), d, k);
    assert d * k == k * d;
    if a >= 0 { assert a * k >= 0; } else { assert a * k <= 0; }
  }

  lemma AbsProduct(a: int, k: nat)
    ensures Abs(a * k) == Abs(a) * k
  {
    if a < 0 { assert a * k == -(Abs(a) * k); }
  }

  lemma MulMono(a: nat, b: nat, k: nat)
    requires a <= b
    ensures a * k <= b * k
  {
  }

  /** The push away from a conflicting star points away from it, one bounded step per
      axis: at most STAR_DIST_MIN when too close and STAR_DIST_MAX_FOR_LINE in the dead
      zone, and the fixed step (10, 10) when the positions coincide. */
  lemma PushPointsAway(x: int, y: int, st: Star)
    requires Conflicts(Dist(x, y, st))
    ensures Dist(x, y, st) == 0 ==> x == st.x && y == st.y && Push(x, y, st) == (10, 10)
    ensures var p := Push(x, y, st);
      && (x > st.x ==> p.0 >= 0) && (x < st.x ==> p.0 <= 0)
      && (y > st.y ==> p.1 >= 0) && (y < st.y ==> p.1 <= 0)
    ensures var p := Push(x, y, st);
      && Abs(p.0) <= STAR_DIST_MAX_FOR_LINE && Abs(p.1) <= STAR_DIST_MAX_FOR_LINE
      && (Dist(x, y, st) < STAR_DIST_MIN ==> Abs(p.0) <= STAR_DIST_MIN && Abs(p.1) <= STAR_DIST_MIN)
  {
    var dx, dy := x - st.x, y - st.y;
    var d := Dist(x, y, st);
    assert DistSq(x, y, st.x, st.y) == dx * dx + dy * dy;
    assert dy * dy + dx * dx == dx * dx + dy * dy;
    if d == 0 {
      IsqrtDominates(dx, dy);
      IsqrtDominates(dy, dx);
    } else if d < STAR_DIST_MIN {
      ScaledComponent(dx, dy, STAR_DIST_MIN);
      ScaledComponent(dy, dx, STAR_DIST_MIN);
    } else {
      ScaledComponent(dx, dy, STAR_DIST_MAX_FOR_LINE);
      ScaledComponent(dy, dx, STAR_DIST_MAX_FOR_LINE);
    }
  }

  /** The pull toward the closest star points toward it and is at most
      STAR_DIST_MAX_FOR_LINE per axis. */
  lemma PullPointsToward(x: int, y: int, st: Star)
    requires Dist(x, y, st) > 0
    ensures var p := Pull(x, y, st.x, st.y, Dist(x, y, st));
      && (st.x > x ==> p.0 >= 0) && (st.x < x ==> p.0 <= 0)
      && (st.y > y ==> p.1 >= 0) && (st.y < y ==> p.1 <= 0)
      && Abs(p.0) <= STAR_DIST_MAX_FOR_LINE && Abs(p.1) <= STAR_DIST_MAX_FOR_LINE
  {
    var d := Dist(x, y, st);
    PullComponent(x, y, st.x, st.y, d);
    assert DistSq(y, x, st.y, st.x) == DistSq(x, y, st.x, st.y);
    PullComponent(y, x, st.y, st.x, d);
  }

  /** One axis of the pull: the offset along it rescaled by STAR_DIST_MAX_FOR_LINE over
      the distance keeps the offset's sign and is at most STAR_DIST_MAX_FOR_LINE. */
  lemma PullComponent(x: int, y: int, cx: int, cy: int, d: nat)
    requires d > 0 && d == Isqrt(DistSq(x, y, cx, cy))
    ensures var q := TruncDiv((cx - x) * STAR_DIST_MAX_FOR_LINE, d);
      && (cx > x ==> q >= 0) && (cx < x ==> q <= 0)
      && Abs(q) <= STAR_DIST_MAX_FOR_LINE
  {
    var a, b := cx - x, cy - y;
    OffsetSquares(x, y, cx, cy);
    ScaledComponent(a, b, STAR_DIST_MAX_FOR_LINE);
  }

  /** The squared distance written in the offsets from the first point to the second. */
  lemma OffsetSquares(x: int, y: int, cx: int, cy: int)
    ensures DistSq(x, y, cx, cy) == (cx - x) * (cx - x) + (cy - y) * (cy - y)
  {
    var a, b := cx - x, cy - y;
    assert (x - cx) * (x - cx) == a * a;
    assert (y - cy) * (y - cy) == b * b;
  }

  /** With no star around, the pull toward the origin over distance i32::MAX rounds to no
      move at all: the position is accepted by nothing and moved by nothing. */
  lemma LonelyPullIsZero(x: int, y: int)
    requires IsInBounds(x, y)
    ensures Pull(x, y, 0, 0, I32_MAX) == (0, 0)
  {
    var qx := TruncDiv((0 - x) * STAR_DIST_MAX_FOR_LINE, I32_MAX);
    var qy := TruncDiv((0 - y) * STAR_DIST_MAX_FOR_LINE, I32_MAX);
    assert Abs((0 - x) * STAR_DIST_MAX_FOR_LINE) < I32_MAX;
    assert Abs((0 - y) * STAR_DIST_MAX_FOR_LINE) < I32_MAX;
  }
}
