/** The link-drafting state machine that src/sky.rs and src/interactive_sky.rs both run once
    per tick, stated on values: the bright-star hit test, the hover cursor, the clamp of the
    draft line, committing a link (with the constellation bookkeeping) and the reaction to
    the pointer's press and release edges. The two sky classes are proved against these
    functions. */
module Drafting {
  import opened Arith
  import opened Entities
  import opened Distances

  /** The HUD's light counter is a `u8`; arithmetic on it wraps around. */
  type u8 = x: int | 0 <= x < 256

  /** Light a new sky starts with (`Hud::new(8)`). */
  const INITIAL_LIGHT: u8 := 8

  /** Half-width of the square box around a star that the pointer must be inside. */
  const HIT_RADIUS: nat := 4

  /** The constellation size that the refund is measured from. */
  const REFUND_BASE: nat := 4

  /** An integer truncated to a byte, as `as u8` and wrapping byte arithmetic do. */
  function WrapU8(v: int): u8 {
    v % 256
  }

  /** The pointer as read from the console for one tick: screen position and whether the
      left button is held. */
  datatype Pointer = Pointer(x: int, y: int, down: bool)

  /** The operations the state machine calls but that are not part of this model:
      `get_constellation` (star and link indices of the constellation that the links reach
      from a star), `dim_lonely_stars`, the completion threshold `CONSTELLATION_THRESHOLD`,
      and the floating-point shortening of an over-long draft line, as the offset from the
      start star that it produces for a given (dx, dy). */
  datatype Hooks = Hooks(
    constellation: (seq<Link>, nat) -> (seq<nat>, seq<nat>),
    dimLonely: (seq<seq<nat>>, seq<Star>, seq<Link>) -> (seq<Star>, seq<Link>),
    threshold: nat,
    shorten: (int, int) -> (int, int))

  /** A constellation's star indices name stars and its link indices name links. */
  predicate ConstellationFits(c: (seq<nat>, seq<nat>), starCount: nat, linkCount: nat) {
    && (forall k :: 0 <= k < |c.0| ==> c.0[k] < starCount)
    && (forall k :: 0 <= k < |c.1| ==> c.1[k] < linkCount)
  }

  /** `dim_lonely_stars` may change which stars are bright and the links' styles, nothing
      else. */
  predicate DimsOnly(stars: seq<Star>, links: seq<Link>, r: (seq<Star>, seq<Link>)) {
    && |r.0| == |stars|
    && (forall i :: 0 <= i < |stars| ==> r.0[i].x == stars[i].x && r.0[i].y == stars[i].y)
    && |r.1| == |links|
    && (forall i :: 0 <= i < |links| ==>
          r.1[i].startIdx == links[i].startIdx && r.1[i].endIdx == links[i].endIdx)
  }

  /** What the state machine relies on from the operations it calls, for a sky of
      starCount stars; the threshold is at least 4 so that the refund `len - 4` is a
      natural number. */
  ghost predicate HooksFit(h: Hooks, starCount: nat) {
    && h.threshold >= REFUND_BASE
    && (forall ls: seq<Link>, e: nat :: ConstellationFits(h.constellation(ls, e), starCount, |ls|))
    && (forall sec: seq<seq<nat>>, ss: seq<Star>, ls: seq<Link> ::
          DimsOnly(ss, ls, h.dimLonely(sec, ss, ls)))
  }

  /** The fields of a sky that the state machine reads or writes. */
  datatype SkyState = SkyState(
    prevMouseDown: bool,
    sections: seq<seq<nat>>,
    stars: seq<Star>,
    links: seq<Link>,
    draftLine: DraftLine,
    cursor: Cursor,
    light: u8)

  /** A fresh sky over a generated star field. */
  function InitialState(sections: seq<seq<nat>>, stars: seq<Star>, links: seq<Link>): SkyState {
    SkyState(false, sections, stars, links, INITIAL_DRAFT_LINE, INITIAL_CURSOR, INITIAL_LIGHT)
  }

  /** A visible draft line starts at a star. */
  predicate DraftInRange(s: SkyState) {
    s.draftLine.visible ==> s.draftLine.startIdx < |s.stars|
  }

  /** The state machine's invariant: a visible draft starts at a star, and the draft is only
      visible while the button was held on the previous tick. */
  predicate Consistent(s: SkyState) {
    && DraftInRange(s)
    && (!s.prevMouseDown ==> !s.draftLine.visible)
  }

  lemma InitialConsistent(sections: seq<seq<nat>>, stars: seq<Star>, links: seq<Link>)
    ensures Consistent(InitialState(sections, stars, links))
    ensures !InitialState(sections, stars, links).draftLine.visible
  {
  }

  // ----- hit test (get_bright_star_idx_at) -----

  /** A bright star strictly inside the box of half-width 4 around (x, y). */
  predicate Hit(st: Star, x: int, y: int) {
    st.bright && Abs(st.x - x) < HIT_RADIUS && Abs(st.y - y) < HIT_RADIUS
  }

  /** The first star at index k or later that is hit at (x, y). */
  function FirstHitFrom(stars: seq<Star>, x: int, y: int, k: nat): (r: Option<nat>)
    requires k <= |stars|
    ensures r.Some? ==> k <= r.value < |stars|
    decreases |stars| - k
  {
    if k == |stars| then None
    else if Hit(stars[k], x, y) then Some(k)
    else FirstHitFrom(stars, x, y, k + 1)
  }

  /** The star the pointer is over at (x, y), if any. */
  function FirstHit(stars: seq<Star>, x: int, y: int): (r: Option<nat>)
    ensures r.Some? ==> r.value < |stars|
  {
    FirstHitFrom(stars, x, y, 0)
  }

  lemma {:induction false} FirstHitFromIsLowest(stars: seq<Star>, x: int, y: int, k: nat)
    requires k <= |stars|
    ensures var r := FirstHitFrom(stars, x, y, k);
      && (r.Some? ==> Hit(stars[r.value], x, y)
                      && forall j :: k <= j < r.value ==> !Hit(stars[j], x, y))
      && (r.None? <==> forall j :: k <= j < |stars| ==> !Hit(stars[j], x, y))
    decreases |stars| - k
  {
    if k < |stars| && !Hit(stars[k], x, y) {
      FirstHitFromIsLowest(stars, x, y, k + 1);
    }
  }

  /** The hit test finds the lowest-index star that is hit, and finds nothing exactly when
      no star is hit. */
  lemma FirstHitIsLowest(stars: seq<Star>, x: int, y: int)
    ensures var r := FirstHit(stars, x, y);
      && (r.Some? ==> Hit(stars[r.value], x, y)
                      && forall j :: 0 <= j < r.value ==> !Hit(stars[j], x, y))
      && (r.None? <==> forall j :: 0 <= j < |stars| ==> !Hit(stars[j], x, y))
  {
    FirstHitFromIsLowest(stars, x, y, 0);
  }

  // ----- pointer position and cursor -----

  /** The position the pointer acts at: the draft line's end while it is shown, otherwise
      the pointer moved into world coordinates by the focus. */
  function EffectivePos(line: DraftLine, p: Pointer, focusX: int, focusY: int): (int, int) {
    if line.visible then (line.endX, line.endY) else (p.x + focusX, p.y + focusY)
  }

  /** The hover cursor for the pointer at (x, y). */
  function CursorAt(stars: seq<Star>, x: int, y: int): Cursor {
    match FirstHit(stars, x, y)
    case Some(i) => Cursor(stars[i].x, stars[i].y, true)
    case None => Cursor(0, 0, false)
  }

  /** The cursor is shown exactly when some bright star is hit, and then sits exactly on the
      lowest-index such star; otherwise it is hidden at the origin. */
  lemma CursorShowsHit(stars: seq<Star>, x: int, y: int)
    ensures var c := CursorAt(stars, x, y);
      && (c.visible <==> exists j :: 0 <= j < |stars| && Hit(stars[j], x, y))
      && (c.visible ==> exists j :: 0 <= j < |stars| && Hit(stars[j], x, y)
                          && c.x == stars[j].x && c.y == stars[j].y
                          && forall k :: 0 <= k < j ==> !Hit(stars[k], x, y))
      && (!c.visible ==> c == INITIAL_CURSOR)
  {
    FirstHitIsLowest(stars, x, y);
  }

  // ----- draft_line_limit_len -----

  /** The draft line after its end is pulled back to at most 35 pixels from its start star.
      The source compares the `f32` square root of dx * dx + dy * dy against 35; for integer
      squares that is the integer comparison against 35 * 35 used here. */
  function Limited(stars: seq<Star>, line: DraftLine, shorten: (int, int) -> (int, int)): DraftLine
    requires line.startIdx < |stars|
  {
    var st := stars[line.startIdx];
    var dx, dy := line.endX - st.x, line.endY - st.y;
    if dx * dx + dy * dy > STAR_DIST_MAX_FOR_LINE * STAR_DIST_MAX_FOR_LINE then
      var off := shorten(dx, dy);
      line.(endX := st.x + off.0, endY := st.y + off.1)
    else
      line
  }

  /** Clamping never moves the start or changes visibility; an end within 35 pixels of the
      start star is left where it is, and a farther end is replaced by the shortened offset
      from the start star. */
  lemma LimitKeepsShortDraft(stars: seq<Star>, line: DraftLine, shorten: (int, int) -> (int, int))
    requires line.startIdx < |stars|
    ensures var r := Limited(stars, line, shorten);
      var st := stars[line.startIdx];
      var d := DistSq(line.endX, line.endY, st.x, st.y);
      var off := shorten(line.endX - st.x, line.endY - st.y);
      && r.startIdx == line.startIdx && r.visible == line.visible
      && (d <= STAR_DIST_MAX_FOR_LINE * STAR_DIST_MAX_FOR_LINE ==> r == line)
      && (d > STAR_DIST_MAX_FOR_LINE * STAR_DIST_MAX_FOR_LINE ==>
            r.endX == st.x + off.0 && r.endY == st.y + off.1)
  {
  }

  // ----- add_link -----

  /** The stars after the first k stars listed in idxs, in order, are made not bright; an
      index past the end would make the source panic and is skipped here. */
  function UnbrightenedUpTo(stars: seq<Star>, idxs: seq<nat>, k: nat): (r: seq<Star>)
    requires k <= |idxs|
    ensures |r| == |stars|
  {
    if k == 0 then stars
    else
      var u := UnbrightenedUpTo(stars, idxs, k - 1);
      var i := idxs[k - 1];
      if i < |u| then u[i := u[i].(bright := false)] else u
  }

  /** The stars after every star listed in idxs is made not bright. */
  function Unbrightened(stars: seq<Star>, idxs: seq<nat>): seq<Star> {
    UnbrightenedUpTo(stars, idxs, |idxs|)
  }

  /** The links after the first k links listed in idxs, in order, are given the dim style;
      an index past the end is skipped. */
  function DimmedUpTo(links: seq<Link>, idxs: seq<nat>, k: nat): (r: seq<Link>)
    requires k <= |idxs|
    ensures |r| == |links|
  {
    if k == 0 then links
    else
      var d := DimmedUpTo(links, idxs, k - 1);
      var i := idxs[k - 1];
      if i < |d| then d[i := d[i].(style := STYLE_DIM)] else d
  }

  /** The links after every link listed in idxs is given the dim style. */
  function Dimmed(links: seq<Link>, idxs: seq<nat>): seq<Link> {
    DimmedUpTo(links, idxs, |idxs|)
  }

  lemma {:induction false} UnbrightenedUpToSpec(stars: seq<Star>, idxs: seq<nat>, k: nat)
    requires k <= |idxs|
    ensures var r := UnbrightenedUpTo(stars, idxs, k);
      forall i :: 0 <= i < |stars| ==>
        && r[i].x == stars[i].x && r[i].y == stars[i].y
        && (r[i].bright <==> stars[i].bright && i !in idxs[..k])
  {
    if k > 0 {
      UnbrightenedUpToSpec(stars, idxs, k - 1);
      assert idxs[..k] == idxs[..k - 1] + [idxs[k - 1]];
    }
  }

  lemma {:induction false} DimmedUpToSpec(links: seq<Link>, idxs: seq<nat>, k: nat)
    requires k <= |idxs|
    ensures var r := DimmedUpTo(links, idxs, k);
      forall i :: 0 <= i < |links| ==>
        && r[i].startIdx == links[i].startIdx && r[i].endIdx == links[i].endIdx
        && r[i].style == (if i in idxs[..k] then STYLE_DIM else links[i].style)
  {
    if k > 0 {
      DimmedUpToSpec(links, idxs, k - 1);
      assert idxs[..k] == idxs[..k - 1] + [idxs[k - 1]];
    }
  }

  /** Un-brightening keeps every star's position, turns off exactly the listed stars and
      leaves the brightness of the others alone. */
  lemma UnbrightenedSpec(stars: seq<Star>, idxs: seq<nat>)
    ensures var r := Unbrightened(stars, idxs);
      && |r| == |stars|
      && forall i :: 0 <= i < |stars| ==>
           && r[i].x == stars[i].x && r[i].y == stars[i].y
           && (r[i].bright <==> stars[i].bright && i !in idxs)
  {
    UnbrightenedUpToSpec(stars, idxs, |idxs|);
    assert idxs[..|idxs|] == idxs;
  }

  /** Dimming keeps every link's endpoints, gives exactly the listed links the dim style and
      leaves the other styles alone. */
  lemma DimmedSpec(links: seq<Link>, idxs: seq<nat>)
    ensures var r := Dimmed(links, idxs);
      && |r| == |links|
      && forall i :: 0 <= i < |links| ==>
           && r[i].startIdx == links[i].startIdx && r[i].endIdx == links[i].endIdx
           && r[i].style == (if i in idxs then STYLE_DIM else links[i].style)
  {
    DimmedUpToSpec(links, idxs, |idxs|);
    assert idxs[..|idxs|] == idxs;
  }

  /** The sky after `add_link(start, end)`: the new bright link is appended and one unit of
      light is spent; if the constellation now reached from `end` is large enough, light
      `len - 4` (truncated to a byte) is refunded, its stars stop being bright, its links are
      dimmed, and lonely stars are dimmed. */
  function LinkAdded(s: SkyState, start: nat, end: nat, h: Hooks): (r: SkyState)
  {
    var links := s.links + [Link(start, end, STYLE_BRIGHT)];
    var light := WrapU8(s.light - 1);
    var c := h.constellation(links, end);
    if |c.0| >= h.threshold then
      var d := h.dimLonely(s.sections, Unbrightened(s.stars, c.0), Dimmed(links, c.1));
      s.(stars := d.0, links := d.1, light := WrapU8(light + WrapU8(|c.0| - REFUND_BASE)))
    else
      s.(links := links, light := light)
  }

  /** Adding a link never changes the number of stars. */
  lemma LinkAddedStarCount(s: SkyState, start: nat, end: nat, h: Hooks)
    requires HooksFit(h, |s.stars|)
    ensures |LinkAdded(s, start, end, h).stars| == |s.stars|
  {
    var links := s.links + [Link(start, end, STYLE_BRIGHT)];
    var c := h.constellation(links, end);
    if |c.0| >= h.threshold {
      var u, m := Unbrightened(s.stars, c.0), Dimmed(links, c.1);
      assert DimsOnly(u, m, h.dimLonely(s.sections, u, m));
    }
  }

  /** LinkAdded by cases, for the proofs of the methods that perform it. */
  lemma LinkAddedCases(s: SkyState, start: nat, end: nat, h: Hooks)
    ensures var links := s.links + [Link(start, end, STYLE_BRIGHT)];
      var c := h.constellation(links, end);
      var light := WrapU8(s.light - 1);
      && (|c.0| >= h.threshold ==>
            var d := h.dimLonely(s.sections, Unbrightened(s.stars, c.0), Dimmed(links, c.1));
            LinkAdded(s, start, end, h) ==
              s.(stars := d.0, links := d.1, light := WrapU8(light + WrapU8(|c.0| - REFUND_BASE))))
      && (|c.0| < h.threshold ==> LinkAdded(s, start, end, h) == s.(links := links, light := light))
  {
  }

  /** A state reached by appending the link, spending a unit and then completing the
      constellation is the one LinkAdded describes. */
  lemma CompletionMatches(s0: SkyState, s1: SkyState, start: nat, end: nat, h: Hooks, r: SkyState)
    requires s1 == s0.(links := s0.links + [Link(start, end, STYLE_BRIGHT)], light := WrapU8(s0.light - 1))
    requires |h.constellation(s1.links, end).0| >= h.threshold
    requires var c := h.constellation(s1.links, end);
      var d := h.dimLonely(s1.sections, Unbrightened(s1.stars, c.0), Dimmed(s1.links, c.1));
      r == s1.(stars := d.0, links := d.1, light := WrapU8(s1.light + WrapU8(|c.0| - REFUND_BASE)))
    ensures r == LinkAdded(s0, start, end, h)
  {
    LinkAddedCases(s0, start, end, h);
  }

  /** Below the threshold, adding a link appends exactly that bright link and spends one
      unit of light (wrapping from 0 to 255); nothing else changes. */
  lemma LinkAddedBelowThreshold(s: SkyState, start: nat, end: nat, h: Hooks)
    requires |h.constellation(s.links + [Link(start, end, STYLE_BRIGHT)], end).0| < h.threshold
    ensures LinkAdded(s, start, end, h) ==
      s.(links := s.links + [Link(start, end, STYLE_BRIGHT)], light := (s.light + 255) % 256)
  {
  }

  /** Completing a constellation: the net change of light is `len - 5` modulo 256, the link
      count grows by one and the new last link joins start and end, no star moves and no
      other link changes endpoints, and the draft line, cursor and button state are kept. */
  lemma LinkAddedCompletes(s: SkyState, start: nat, end: nat, h: Hooks)
    requires HooksFit(h, |s.stars|)
    requires |h.constellation(s.links + [Link(start, end, STYLE_BRIGHT)], end).0| >= h.threshold
    ensures var r := LinkAdded(s, start, end, h);
      var n := |h.constellation(s.links + [Link(start, end, STYLE_BRIGHT)], end).0|;
      && r.light == (s.light + n - 5) % 256
      && FrameKept(s, r, start, end)
  {
    var n := |h.constellation(s.links + [Link(start, end, STYLE_BRIGHT)], end).0|;
    assert LinkAdded(s, start, end, h).light == (s.light + n - 5) % 256 by {
      LinkAddedLight(s, start, end, h);
      RefundWraps(s.light, n);
    }
    assert FrameKept(s, LinkAdded(s, start, end, h), start, end) by {
      LinkAddedFrame(s, start, end, h);
    }
  }

  /** r is s with one link from start to end appended, where no star has moved, no earlier
      link has changed its endpoints, and the draft line, cursor, button state and sections
      are as they were; brightness, link styles and light are left free. */
  predicate FrameKept(s: SkyState, r: SkyState, start: nat, end: nat) {
    && |r.links| == |s.links| + 1
    && r.links[|s.links|].startIdx == start && r.links[|s.links|].endIdx == end
    && (forall i :: 0 <= i < |s.links| ==>
          r.links[i].startIdx == s.links[i].startIdx && r.links[i].endIdx == s.links[i].endIdx)
    && |r.stars| == |s.stars|
    && (forall i :: 0 <= i < |s.stars| ==>
          r.stars[i].x == s.stars[i].x && r.stars[i].y == s.stars[i].y)
    && r.draftLine == s.draftLine && r.cursor == s.cursor
    && r.prevMouseDown == s.prevMouseDown && r.sections == s.sections
  }

  /** The frame part of a completion: stars keep their positions and links their endpoints,
      with the new link last. */
  lemma LinkAddedFrame(s: SkyState, start: nat, end: nat, h: Hooks)
    requires HooksFit(h, |s.stars|)
    requires |h.constellation(s.links + [Link(start, end, STYLE_BRIGHT)], end).0| >= h.threshold
    ensures FrameKept(s, LinkAdded(s, start, end, h), start, end)
  {
    var links := s.links + [Link(start, end, STYLE_BRIGHT)];
    var c := h.constellation(links, end);
    var u, m := Unbrightened(s.stars, c.0), Dimmed(links, c.1);
    var d := h.dimLonely(s.sections, u, m);
    assert DimsOnly(u, m, d);
    UnbrightenedSpec(s.stars, c.0);
    DimmedSpec(links, c.1);
    CompletedFrame(s.stars, links, u, m, d);
    assert links[|s.links|] == Link(start, end, STYLE_BRIGHT);
  }

  /** Positions of stars and endpoints of links survive un-brightening and dimming followed
      by `dim_lonely_stars`. */
  lemma CompletedFrame(stars: seq<Star>, links: seq<Link>, u: seq<Star>, m: seq<Link>,
                       d: (seq<Star>, seq<Link>))
    requires |u| == |stars| && |m| == |links|
    requires forall i :: 0 <= i < |stars| ==> u[i].x == stars[i].x && u[i].y == stars[i].y
    requires forall i :: 0 <= i < |links| ==>
      m[i].startIdx == links[i].startIdx && m[i].endIdx == links[i].endIdx
    requires DimsOnly(u, m, d)
    ensures |d.0| == |stars| && |d.1| == |links|
    ensures forall i :: 0 <= i < |stars| ==> d.0[i].x == stars[i].x && d.0[i].y == stars[i].y
    ensures forall i :: 0 <= i < |links| ==>
      d.1[i].startIdx == links[i].startIdx && d.1[i].endIdx == links[i].endIdx
  {
  }

  lemma LinkAddedLight(s: SkyState, start: nat, end: nat, h: Hooks)
    requires |h.constellation(s.links + [Link(start, end, STYLE_BRIGHT)], end).0| >= h.threshold
    ensures LinkAdded(s, start, end, h).light == WrapU8(WrapU8(s.light - 1)
      + WrapU8(|h.constellation(s.links + [Link(start, end, STYLE_BRIGHT)], end).0| - REFUND_BASE))
  {
    LinkAddedCases(s, start, end, h);
  }

  /** Spending one unit and refunding `n - 4`, each with byte wrap-around, nets `n - 5`
      modulo 256. */
  lemma RefundWraps(light: u8, n: nat)
    requires n >= REFUND_BASE
    ensures WrapU8(WrapU8(light - 1) + WrapU8(n - REFUND_BASE)) == (light + n - 5) % 256
  {
    var a, b := WrapU8(light - 1), WrapU8(n - REFUND_BASE);
    assert a == light - 1 + 256 * (if light == 0 then 1 else 0);
    assert n - REFUND_BASE == b + 256 * ((n - REFUND_BASE) / 256);
    ModShift(a + b, light + n - 5, 256 * ((if light == 0 then 1 else 0) - (n - REFUND_BASE) / 256));
  }

  lemma ModShift(a: int, b: int, d: int)
    requires a == b + d && d % 256 == 0
    ensures a % 256 == b % 256
  {
  }

  // ----- update_mouse_state -----

  /** The opening step of a tick: a shown draft line follows the pointer and is clamped. */
  function Tracked(s: SkyState, focusX: int, focusY: int, p: Pointer, h: Hooks): (r: SkyState)
    requires DraftInRange(s)
    ensures r == s.(draftLine := r.draftLine)
    ensures r.draftLine.startIdx == s.draftLine.startIdx && r.draftLine.visible == s.draftLine.visible
  {
    if s.draftLine.visible then
      s.(draftLine := Limited(s.stars, s.draftLine.(endX := p.x + focusX, endY := p.y + focusY), h.shorten))
    else s
  }

  /** Where the pointer acts this tick: the clamped draft end while a draft is shown,
      otherwise the pointer in world coordinates. */
  function Probe(s: SkyState, focusX: int, focusY: int, p: Pointer, h: Hooks): (int, int)
    requires DraftInRange(s)
  {
    EffectivePos(Tracked(s, focusX, focusY, p, h).draftLine, p, focusX, focusY)
  }

  /** The star hit this tick, if any. */
  function ProbeHit(s: SkyState, focusX: int, focusY: int, p: Pointer, h: Hooks): (r: Option<nat>)
    requires DraftInRange(s)
    ensures r.Some? ==> r.value < |s.stars|
  {
    var ep := Probe(s, focusX, focusY, p, h);
    FirstHit(s.stars, ep.0, ep.1)
  }

  /** The edge step: a press over a star anchors a shown draft there, a release over a star
      other than the draft's start adds a link from that start. */
  function Edged(s: SkyState, ep: (int, int), hit: Option<nat>, down: bool, h: Hooks): (r: SkyState)
    requires HooksFit(h, |s.stars|)
    ensures |r.stars| == |s.stars|
  {
    if !s.prevMouseDown && down then
      if hit.Some? then s.(draftLine := DraftLine(hit.value, ep.0, ep.1, true)) else s
    else if s.prevMouseDown && !down then
      if hit.Some? && s.draftLine.startIdx != hit.value
      then LinkAddedStarCount(s, s.draftLine.startIdx, hit.value, h);
        LinkAdded(s, s.draftLine.startIdx, hit.value, h)
      else s
    else s
  }

  /** The closing step: with the button held a shown draft snaps onto the hit star, with the
      button up the draft is hidden; the button state is remembered. */
  function Settled(s: SkyState, hit: Option<nat>, down: bool): SkyState
    requires hit.Some? ==> hit.value < |s.stars|
  {
    var line :=
      if down then
        if s.draftLine.visible && hit.Some?
        then s.draftLine.(endX := s.stars[hit.value].x, endY := s.stars[hit.value].y)
        else s.draftLine
      else s.draftLine.(visible := false);
    s.(draftLine := line, prevMouseDown := down)
  }

  /** The sky after `update_mouse_state` for the focus and the pointer read this tick. */
  function MouseStep(s: SkyState, focusX: int, focusY: int, p: Pointer, h: Hooks): SkyState
    requires DraftInRange(s) && HooksFit(h, |s.stars|)
  {
    var s1 := Tracked(s, focusX, focusY, p, h);
    var ep := EffectivePos(s1.draftLine, p, focusX, focusY);
    var hit := FirstHit(s1.stars, ep.0, ep.1);
    Settled(Edged(s1, ep, hit, p.down, h), hit, p.down)
  }

  /** The sky after a whole tick (`pre_update`): the mouse step, then the cursor update at
      the position the pointer then acts at. */
  function Tick(s: SkyState, focusX: int, focusY: int, p: Pointer, h: Hooks): SkyState
    requires DraftInRange(s) && HooksFit(h, |s.stars|)
  {
    var m := MouseStep(s, focusX, focusY, p, h);
    var ep := EffectivePos(m.draftLine, p, focusX, focusY);
    m.(cursor := CursorAt(m.stars, ep.0, ep.1))
  }

  /** The invariant survives a mouse step, the button state is remembered, and the star
      count never changes. */
  lemma MouseStepKeepsConsistent(s: SkyState, focusX: int, focusY: int, p: Pointer, h: Hooks)
    requires Consistent(s) && HooksFit(h, |s.stars|)
    ensures var r := MouseStep(s, focusX, focusY, p, h);
      Consistent(r) && r.prevMouseDown == p.down && |r.stars| == |s.stars|
      && r.sections == s.sections
  {
    var s1 := Tracked(s, focusX, focusY, p, h);
    var ep := EffectivePos(s1.draftLine, p, focusX, focusY);
    var hit := FirstHit(s1.stars, ep.0, ep.1);
    if s.prevMouseDown && !p.down && hit.Some? && s1.draftLine.startIdx != hit.value {
      LinkAddedSections(s1, s1.draftLine.startIdx, hit.value, h);
    }
  }

  lemma LinkAddedSections(s: SkyState, start: nat, end: nat, h: Hooks)
    ensures LinkAdded(s, start, end, h).sections == s.sections
  {
  }

  /** A press edge over a bright star anchors a shown draft at the lowest-index star hit by
      the pointer, with its end snapped onto that star; links, stars and light are
      untouched. A press that hits no star leaves the draft hidden. */
  lemma PressAnchors(s: SkyState, focusX: int, focusY: int, p: Pointer, h: Hooks)
    requires Consistent(s) && HooksFit(h, |s.stars|)
    requires !s.prevMouseDown && p.down
    ensures var r := MouseStep(s, focusX, focusY, p, h);
      var hit := FirstHit(s.stars, p.x + focusX, p.y + focusY);
      && r.links == s.links && r.stars == s.stars && r.light == s.light
      && r.prevMouseDown
      && (hit.Some? ==>
            r.draftLine == DraftLine(hit.value, s.stars[hit.value].x, s.stars[hit.value].y, true))
      && (hit.None? ==> r.draftLine == s.draftLine && !r.draftLine.visible)
  {
  }

  /** A release edge over a bright star other than the draft's start adds exactly that one
      link (through `add_link`) and hides the draft. Visibility of the draft is not
      consulted: after a press that hit no star the start index is the stale one of an
      earlier draft, and it is linked all the same. */
  lemma ReleaseCommits(s: SkyState, focusX: int, focusY: int, p: Pointer, h: Hooks)
    requires Consistent(s) && HooksFit(h, |s.stars|)
    requires s.prevMouseDown && !p.down
    requires ProbeHit(s, focusX, focusY, p, h).Some?
    requires ProbeHit(s, focusX, focusY, p, h).value != s.draftLine.startIdx
    ensures var r := MouseStep(s, focusX, focusY, p, h);
      var s1 := Tracked(s, focusX, focusY, p, h);
      var e := ProbeHit(s, focusX, focusY, p, h).value;
      && r == LinkAdded(s1, s.draftLine.startIdx, e, h).(
                draftLine := s1.draftLine.(visible := false), prevMouseDown := false)
      && |r.links| == |s.links| + 1
      && r.links[|s.links|].startIdx == s.draftLine.startIdx && r.links[|s.links|].endIdx == e
  {
    var s1 := Tracked(s, focusX, focusY, p, h);
    var e := ProbeHit(s, focusX, focusY, p, h).value;
    var c := h.constellation(s1.links + [Link(s1.draftLine.startIdx, e, STYLE_BRIGHT)], e);
    if |c.0| >= h.threshold {
      LinkAddedCompletes(s1, s1.draftLine.startIdx, e, h);
    } else {
      LinkAddedBelowThreshold(s1, s1.draftLine.startIdx, e, h);
    }
  }

  /** A hidden draft (for instance after a press that hit no star) still links from its old
      start when the button is released over another star. */
  lemma ReleaseLinksStaleStart(s: SkyState, focusX: int, focusY: int, p: Pointer, h: Hooks)
    requires Consistent(s) && HooksFit(h, |s.stars|)
    requires s.prevMouseDown && !s.draftLine.visible && !p.down
    requires FirstHit(s.stars, p.x + focusX, p.y + focusY).Some?
    requires FirstHit(s.stars, p.x + focusX, p.y + focusY).value != s.draftLine.startIdx
    ensures var r := MouseStep(s, focusX, focusY, p, h);
      && |r.links| == |s.links| + 1
      && r.links[|s.links|].startIdx == s.draftLine.startIdx
  {
    ReleaseCommits(s, focusX, focusY, p, h);
  }

  /** No link is added, no star changes and no light is spent except on a release edge
      over a bright star other than the draft's start. */
  lemma NoLinkWithoutRelease(s: SkyState, focusX: int, focusY: int, p: Pointer, h: Hooks)
    requires Consistent(s) && HooksFit(h, |s.stars|)
    requires !(s.prevMouseDown && !p.down)
      || ProbeHit(s, focusX, focusY, p, h).None?
      || ProbeHit(s, focusX, focusY, p, h).value == s.draftLine.startIdx
    ensures var r := MouseStep(s, focusX, focusY, p, h);
      r.links == s.links && r.stars == s.stars && r.light == s.light
  {
  }

  /** At the end of a tick: with the button up the draft is hidden; with the button held, a
      shown draft over a star ends exactly on the lowest-index star hit; the button state is
      remembered for the next tick. */
  lemma SettleFacts(s: SkyState, focusX: int, focusY: int, p: Pointer, h: Hooks)
    requires Consistent(s) && HooksFit(h, |s.stars|)
    ensures var r := MouseStep(s, focusX, focusY, p, h);
      var hit := ProbeHit(s, focusX, focusY, p, h);
      && r.prevMouseDown == p.down
      && (!p.down ==> !r.draftLine.visible)
      && (p.down && r.draftLine.visible && hit.Some? ==>
            r.draftLine.endX == s.stars[hit.value].x && r.draftLine.endY == s.stars[hit.value].y)
  {
  }

  /** After a whole tick the cursor shows exactly whether a bright star is under the
      position the pointer acts at; with the button up that is the pointer itself. */
  lemma TickCursor(s: SkyState, focusX: int, focusY: int, p: Pointer, h: Hooks)
    requires Consistent(s) && HooksFit(h, |s.stars|)
    ensures var t := Tick(s, focusX, focusY, p, h);
      var m := MouseStep(s, focusX, focusY, p, h);
      && t == m.(cursor := t.cursor)
      && (!p.down ==> t.cursor == CursorAt(m.stars, p.x + focusX, p.y + focusY))
  {
    SettleFacts(s, focusX, focusY, p, h);
  }
}
