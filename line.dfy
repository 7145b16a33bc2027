/** Line shading and rasterisation (src/line.rs): `get_color` picks the 2-bit colour of
    one pixel of a link from its style, its position along the line and the frame
    counter, and `draw_line` samples the segment once per pixel of its longer axis and
    packs the colours into the 2-bits-per-pixel framebuffer. */
module Line {
  import opened Arith
  import opened Prng
  import opened Entities

  /** Colours of the first (and, mirrored, the last) five lit pixels of a dim and of a
      bright link. */
  const LINE_END_DIM: seq<nat> := [1, 0, 1, 1, 0]
  const LINE_END_BRIGHT: seq<nat> := [1, 1, 2, 1, 2]

  /** Width and height of the screen, and the framebuffer size in bytes (4 pixels per byte). */
  const SCREEN_SIZE: nat := 160
  const FRAMEBUFFER_SIZE: nat := 6400

  /** The colour of a pixel `progress` steps into the lit part of a line whose two ends are
      `margin` pixels dark: the end table read from the nearer end for the first and last
      five lit pixels, `middle` in between. */
  function EndShade(table: seq<nat>, middle: nat, margin: nat, steps: nat, progress: nat): nat
    requires |table| == 5 && margin <= progress && progress + margin <= steps
  {
    if progress < margin + 5 then table[progress - margin]
    else if steps - progress < margin + 5 then table[steps - progress - margin]
    else middle
  }

  /** Whether the highlight that sweeps along bright links covers `progress`: it starts at
      twice the low byte of the frame counter, `(timer & 0xff) << 1`, and is six pixels
      long. */
  predicate Shining(progress: nat, timer: u32) {
    (timer % 256) * 2 <= progress < (timer % 256) * 2 + 6
  }

  /** `get_color` for a pixel `progress` steps into a line of `steps` pixels (callers pass
      progress < steps, which keeps every unsigned subtraction and table index in range):
      - dashed: dark for the first four pixels, then lit for three of every five pixels,
        the pattern shifted by the animation phase (timer / 6) % 5;
      - dim: dark within three pixels of either end, otherwise the dim end taper, so at
        most colour 1, and colour 1 in the middle;
      - bright: dark within four pixels of either end, otherwise the bright end taper plus
        one where the highlight is, so colour 1 to 3;
      - any other style: dark. */
  function GetColor(style: nat, steps: nat, progress: nat, timer: u32): (r: nat)
    requires progress < steps
    ensures r <= 3
    ensures style != STYLE_DASHED && style != STYLE_DIM && style != STYLE_BRIGHT ==> r == 0
    ensures style == STYLE_DASHED ==>
      && (progress < 4 ==> r == 0)
      && (progress >= 4 ==> r <= 1 && (r == 1 <==> (progress - timer / 6) % 5 < 3))
    ensures style == STYLE_DIM ==>
      && r <= 1
      && (progress < 3 || steps < progress + 3 ==> r == 0)
      && (3 <= progress && progress + 3 <= steps ==> r == EndShade(LINE_END_DIM, 1, 3, steps, progress))
      && (8 <= progress && progress + 8 <= steps ==> r == 1)
    ensures style == STYLE_BRIGHT ==>
      && (progress < 4 || steps < progress + 4 ==> r == 0)
      && (4 <= progress && progress + 4 <= steps ==>
            && 1 <= r
            && r == EndShade(LINE_END_BRIGHT, 2, 4, steps, progress) + (if Shining(progress, timer) then 1 else 0))
  {
    // Every u32 subtraction of the source is bound to a nat, so each is checked not to
    // underflow; table indices are checked by the indexing itself.
    if style == STYLE_DASHED && progress < 4 then 0
    else if style == STYLE_DIM && (progress < 3 || (var last: nat := steps - 3; progress > last)) then 0
    else if style == STYLE_BRIGHT && (progress < 4 || (var last: nat := steps - 4; progress > last)) then 0
    else if style == STYLE_DASHED then
      var shifted: nat := progress - (timer / 6) % 5;
      PhaseShift(progress, timer / 6);
      if (shifted + 5) % 5 < 3 then 1 else 0
    else if style == STYLE_DIM then
      var rest: nat := steps - progress;
      if progress < 8 then LINE_END_DIM[progress - 3]
      else if rest < 8 then LINE_END_DIM[rest - 3]
      else 1
    else if style == STYLE_BRIGHT then
      var shineProgress := (timer % 256) * 2;   // (timer & 0xff) << 1
      var rest: nat := steps - progress;
      var color :=
        if progress < 9 then LINE_END_BRIGHT[progress - 4]
        else if rest < 9 then LINE_END_BRIGHT[rest - 4]
        else 2;
      if progress >= shineProgress && progress < shineProgress + 6 then color + 1 else color
    else 0
  }

  /** Reducing the phase modulo 5 first and adding 5 to stay non-negative gives the plain
      remainder of progress - phase. */
  lemma PhaseShift(progress: nat, phase: nat)
    requires progress >= 4
    ensures (progress - phase % 5 + 5) % 5 == (progress - phase) % 5
  {
    var q := phase / 5;
    assert phase == 5 * q + phase % 5;
    assert progress - phase % 5 + 5 == (progress - phase) + 5 * (q + 1);
  }

  /** The dash pattern repeats every five pixels. */
  lemma DashPeriodic(steps: nat, progress: nat, timer: u32)
    requires 4 <= progress && progress + 5 < steps
    ensures GetColor(STYLE_DASHED, steps, progress + 5, timer) == GetColor(STYLE_DASHED, steps, progress, timer)
  {
    assert (progress + 5 - timer / 6) % 5 == (progress - timer / 6) % 5 by {
      assert progress + 5 - timer / 6 == (progress - timer / 6) + 5;
    }
  }

  /** The dashes crawl along the line by one pixel every six frames. */
  lemma DashScrolls(steps: nat, progress: nat, timer: u32)
    requires 4 <= progress && progress + 1 < steps && timer + 6 < U32_MODULUS
    ensures GetColor(STYLE_DASHED, steps, progress + 1, timer + 6) == GetColor(STYLE_DASHED, steps, progress, timer)
  {
    assert (timer + 6) / 6 == timer / 6 + 1;
  }

  /** On a line long enough for its two tapers not to overlap, the taper is the same seen
      from either end. */
  lemma EndShadeMirror(table: seq<nat>, middle: nat, margin: nat, steps: nat, progress: nat)
    requires |table| == 5 && margin <= progress && progress + margin <= steps
    requires steps >= 2 * (margin + 5)
    ensures EndShade(table, middle, margin, steps, steps - progress) == EndShade(table, middle, margin, steps, progress)
  {
  }

  /** A link's colour without the highlight is symmetric: dim and bright links look the
      same from both ends once they are long enough. */
  lemma ShadeSymmetric(steps: nat, progress: nat, timer: u32)
    requires 0 < progress < steps && steps >= 2 * (4 + 5)
    ensures GetColor(STYLE_DIM, steps, steps - progress, timer) == GetColor(STYLE_DIM, steps, progress, timer)
    ensures !Shining(progress, timer) && !Shining(steps - progress, timer) ==>
      GetColor(STYLE_BRIGHT, steps, steps - progress, timer) == GetColor(STYLE_BRIGHT, steps, progress, timer)
  {
    if 3 <= progress && progress + 3 <= steps {
      EndShadeMirror(LINE_END_DIM, 1, 3, steps, progress);
    }
    if 4 <= progress && progress + 4 <= steps {
      EndShadeMirror(LINE_END_BRIGHT, 2, 4, steps, progress);
    }
  }

  /** The arguments of one draw_line call: the segment in world coordinates, the link
      style, and the camera focus and frame counter read from the render context. */
  datatype Stroke = Stroke(x1: int, y1: int, x2: int, y2: int, style: nat, focusX: int, focusY: int, timer: u32)

  function Max(a: int, b: int): int {
    if a >= b then a else b
  }

  /** Number of pixels drawn: the length of the longer axis. */
  function Steps(s: Stroke): nat {
    Max(Abs(s.x2 - s.x1), Abs(s.y2 - s.y1))
  }

  /** Offset of sample i along an axis that moves d over the whole line: d scaled by the
      centre (2i+1)/2 of pixel i, divided by steps and rounded toward zero. */
  function SampleOffset(d: int, i: nat, steps: nat): int
    requires steps > 0
  {
    TruncDiv(d * (2 * i + 1), 2 * steps)
  }

  /** Screen position of sample i: its world position minus the focus. */
  function SampleX(s: Stroke, i: nat): int
    requires i < Steps(s)
  {
    s.x1 - s.focusX + SampleOffset(s.x2 - s.x1, i, Steps(s))
  }

  function SampleY(s: Stroke, i: nat): int
    requires i < Steps(s)
  {
    s.y1 - s.focusY + SampleOffset(s.y2 - s.y1, i, Steps(s))
  }

  predicate OnScreen(x: int, y: int) {
    0 <= x < SCREEN_SIZE && 0 <= y < SCREEN_SIZE
  }

  /** Index of an on-screen pixel, row by row. */
  function PixelIndex(x: int, y: int): nat
    requires OnScreen(x, y)
  {
    y * SCREEN_SIZE + x
  }

  /** Byte b with the colour c written into its two bits at `shift`: those bits are
      cleared, then the colour is or-ed in. */
  function WithBits(b: bv8, c: bv8, shift: nat): bv8
    requires shift < 8
  {
    (b & !(3 << shift)) | (c << shift)
  }

  /** Writes a 2-bit colour into pixel px of a 2-bits-per-pixel buffer: pixel px is bits
      (px % 4) * 2 and the next of byte px / 4 (`pixel_idx >> 2`, `pixel_idx & 0b11`). */
  function SetPixel(buf: seq<bv8>, px: nat, color: bv8): seq<bv8>
    requires px / 4 < |buf|
  {
    buf[px / 4 := WithBits(buf[px / 4], color, (px % 4) * 2)]
  }

  /** Sample i of the stroke, drawn onto buf: off-screen samples and dark pixels are
      skipped. */
  function Plot(buf: seq<bv8>, s: Stroke, i: nat): seq<bv8>
    requires |buf| == FRAMEBUFFER_SIZE && i < Steps(s)
  {
    var x, y := SampleX(s, i), SampleY(s, i);
    if !OnScreen(x, y) then buf
    else
      var color := GetColor(s.style, Steps(s), i, s.timer);
      if color == 0 then buf else SetPixel(buf, PixelIndex(x, y), color as bv8)
  }

  /** The buffer after the first n samples of the stroke. */
  function Painted(buf: seq<bv8>, s: Stroke, n: nat): (r: seq<bv8>)
    requires |buf| == FRAMEBUFFER_SIZE && n <= Steps(s)
    ensures |r| == FRAMEBUFFER_SIZE
  {
    if n == 0 then buf else Plot(Painted(buf, s, n - 1), s, n - 1)
  }

  /** Coordinates the source's i16 and i32 arithmetic handles without overflow. */
  predicate Drawable(x: int) {
    -0x1000 <= x <= 0x1000
  }

  /** `draw_line`: one sample per pixel of the longer axis, each on-screen sample with a
      non-zero colour written into its two bits of the framebuffer; no sample at all (and
      no division) when the endpoints coincide. */
  method DrawLine(fb: array<bv8>, x1: int, y1: int, x2: int, y2: int, style: nat,
                  focusX: int, focusY: int, timer: u32)
    requires fb.Length == FRAMEBUFFER_SIZE
    requires Drawable(x1) && Drawable(y1) && Drawable(x2) && Drawable(y2) && Drawable(focusX) && Drawable(focusY)
    modifies fb
    ensures fb[..] == Painted(old(fb[..]), Stroke(x1, y1, x2, y2, style, focusX, focusY, timer),
                              Steps(Stroke(x1, y1, x2, y2, style, focusX, focusY, timer)))
  {
    ghost var s := Stroke(x1, y1, x2, y2, style, focusX, focusY, timer);
    ghost var buf := fb[..];
    var dx, dy := x2 - x1, y2 - y1;
    var steps := Max(Abs(dx), Abs(dy));
    for i := 0 to steps
      invariant fb[..] == Painted(buf, s, i)
    {
      DrawSample(fb, x1, y1, dx, dy, steps, i, style, focusX, focusY, timer, s);
    }
  }

  /** One iteration of draw_line's loop: sample i of the stroke s, whose offsets are dx,
      dy and whose length is steps. */
  method DrawSample(fb: array<bv8>, x1: int, y1: int, dx: int, dy: int, steps: nat, i: nat, style: nat,
                    focusX: int, focusY: int, timer: u32, ghost s: Stroke)
    requires fb.Length == FRAMEBUFFER_SIZE
    requires s == Stroke(x1, y1, x1 + dx, y1 + dy, style, focusX, focusY, timer)
    requires steps == Steps(s) && i < steps
    modifies fb
    ensures fb[..] == Plot(old(fb[..]), s, i)
  {
    var x := x1 - focusX + TruncDiv(dx * (2 * i + 1), 2 * steps);
    var y := y1 - focusY + TruncDiv(dy * (2 * i + 1), 2 * steps);
    if OnScreen(x, y) {
      var color := GetColor(style, steps, i, timer);
      if color != 0 {
        WritePixel(fb, y * SCREEN_SIZE + x, color as bv8);
      }
    }
  }

  /** The two framebuffer writes for one pixel: clear its two bits, then or in the colour. */
  method WritePixel(fb: array<bv8>, pixelIdx: nat, color: bv8)
    requires pixelIdx / 4 < fb.Length
    modifies fb
    ensures fb[..] == SetPixel(old(fb[..]), pixelIdx, color)
  {
    var byte := pixelIdx / 4;
    var shift := (pixelIdx % 4) * 2;
    ghost var before, v := fb[..], fb[byte];
    fb[byte] := fb[byte] & !(3 << shift);
    fb[byte] := fb[byte] | (color << shift);
    assert fb[byte] == WithBits(v, color, shift);
    assert fb[..] == before[byte := fb[byte]];
  }

  /** Writing a 2-bit colour at an even shift leaves that colour in those two bits and
      every other bit of the byte as it was. */
  lemma WithBitsEffect(b: bv8, c: bv8, shift: nat)
    requires shift < 8 && shift % 2 == 0 && c <= 3
    ensures (WithBits(b, c, shift) >> shift) & 3 == c
    ensures WithBits(b, c, shift) & !(3 << shift) == b & !(3 << shift)
  {
    if shift == 0 {
    } else if shift == 2 {
    } else if shift == 4 {
    } else {
    }
  }

  /** SetPixel changes only byte px / 4, and there only the two bits of pixel px, which
      then hold the colour. */
  lemma SetPixelEffect(buf: seq<bv8>, px: nat, color: bv8)
    requires px / 4 < |buf| && color <= 3
    ensures |SetPixel(buf, px, color)| == |buf|
    ensures forall b :: 0 <= b < |buf| && b != px / 4 ==> SetPixel(buf, px, color)[b] == buf[b]
    ensures var shift := (px % 4) * 2;
      && (SetPixel(buf, px, color)[px / 4] >> shift) & 3 == color
      && SetPixel(buf, px, color)[px / 4] & !(3 << shift) == buf[px / 4] & !(3 << shift)
  {
    WithBitsEffect(buf[px / 4], color, (px % 4) * 2);
  }

  /** Sample i of the stroke writes into byte b: it is on screen, has a non-zero colour and
      its pixel lies in that byte. */
  predicate Touches(s: Stroke, i: nat, b: nat)
    requires i < Steps(s)
  {
    && OnScreen(SampleX(s, i), SampleY(s, i))
    && GetColor(s.style, Steps(s), i, s.timer) != 0
    && PixelIndex(SampleX(s, i), SampleY(s, i)) / 4 == b
  }

  /** A byte no sample writes into keeps its value: draw_line touches only the bytes of
      its visible, non-dark pixels. */
  lemma {:induction false} PaintedFrame(buf: seq<bv8>, s: Stroke, n: nat, b: nat)
    requires |buf| == FRAMEBUFFER_SIZE && n <= Steps(s) && b < FRAMEBUFFER_SIZE
    requires forall i :: 0 <= i < n ==> !Touches(s, i, b)
    ensures Painted(buf, s, n)[b] == buf[b]
  {
    if n > 0 {
      PaintedFrame(buf, s, n - 1, b);
      var prev := Painted(buf, s, n - 1);
      var x, y := SampleX(s, n - 1), SampleY(s, n - 1);
      if OnScreen(x, y) && GetColor(s.style, Steps(s), n - 1, s.timer) != 0 {
        assert !Touches(s, n - 1, b);
        SetPixelEffect(prev, PixelIndex(x, y), GetColor(s.style, Steps(s), n - 1, s.timer) as bv8);
      }
    }
  }

  /** Every on-screen pixel lies inside the framebuffer. */
  lemma PixelInFramebuffer(x: int, y: int)
    requires OnScreen(x, y)
    ensures PixelIndex(x, y) / 4 < FRAMEBUFFER_SIZE
  {
  }

  /** A sample offset lies between 0 and the axis offset d, with the sign of d, for every
      sample of a line whose longer axis is steps. */
  lemma SampleOffsetBounds(d: int, i: nat, steps: nat)
    requires Abs(d) <= steps && i < steps
    ensures Abs(SampleOffset(d, i, steps)) <= Abs(d)
    ensures d > 0 ==> SampleOffset(d, i, steps) >= 0
    ensures d < 0 ==> SampleOffset(d, i, steps) <= 0
    ensures d == 0 ==> SampleOffset(d, i, steps) == 0
  {
    var q := SampleOffset(d, i, steps);
    var a := d * (2 * i + 1);
    AbsMul(d, 2 * i + 1);
    MulLe(Abs(d), 2 * i + 1, 2 * steps);
    assert Abs(q) * (2 * steps) <= Abs(a) <= Abs(d) * (2 * steps);
    MulLeCancel(Abs(q), Abs(d), 2 * steps);
  }

  /** Along the longer axis the samples advance by exactly one pixel each. */
  lemma SampleOffsetDominant(i: nat, steps: nat)
    requires i < steps
    ensures SampleOffset(steps, i, steps) == i
    ensures SampleOffset(-(steps as int), i, steps) == -(i as int)
  {
    var a := steps * (2 * i + 1);
    assert a == i * (2 * steps) + steps;
    assert -(steps as int) * (2 * i + 1) == -a;
    TruncDivOf(a, 2 * steps, i);
  }

  /** Truncating division of a natural bracketed by q and q + 1 multiples of k gives q,
      and of its negation -q. */
  lemma TruncDivOf(a: nat, k: nat, q: nat)
    requires k > 0 && q * k <= a < (q + 1) * k
    ensures TruncDiv(a, k) == q && TruncDiv(-(a as int), k) == -(q as int)
  {
    var p: nat := Abs(TruncDiv(a, k));
    MulLeCancel(p, q, k);
    MulLeCancel(q, p, k);
    var m: nat := Abs(TruncDiv(-(a as int), k));
    MulLeCancel(m, q, k);
    MulLeCancel(q, m, k);
  }

  lemma AbsMul(a: int, k: nat)
    ensures Abs(a * k) == Abs(a) * k
  {
  }

  lemma MulLe(a: nat, b: nat, c: nat)
    requires b <= c
    ensures a * b <= a * c
  {
  }

  /** Cancelling a positive factor preserves a non-strict comparison, when the left side
      is at most the right side times the factor plus less than one factor. */
  lemma MulLeCancel(a: nat, b: nat, k: nat)
    requires k > 0 && a * k < (b + 1) * k
    ensures a <= b
  {
    if a > b {
      assert a >= b + 1;
      MulLe(k, b + 1, a);
    }
  }
}
