/** The playable sky of src/sky.rs: the generated star field with the links drawn so far,
    the draft line, the hover cursor and the HUD's light counter, updated in place once per
    tick from the pointer. Each method is proved to leave the sky in the state the value
    model in module Drafting prescribes. */
module SkyNode {
  import opened Arith
  import opened Entities
  import opened Distances
  import opened Drafting

  class Sky {
    var prevMouseDown: bool
    var sections: seq<seq<nat>>
    var stars: seq<Star>
    var links: seq<Link>
    var draftLine: DraftLine
    var cursor: Cursor
    /** `hud.light`. */
    var light: u8

    /** The sky's fields as a value. */
    function State(): SkyState
      reads this
    {
      SkyState(prevMouseDown, sections, stars, links, draftLine, cursor, light)
    }

    /** `Sky::new` over the result of the generator: nothing drafted, cursor hidden, light
        at 8. */
    constructor(sections: seq<seq<nat>>, stars: seq<Star>, links: seq<Link>)
      ensures State() == InitialState(sections, stars, links)
      ensures Consistent(State())
    {
      this.prevMouseDown := false;
      this.sections := sections;
      this.stars := stars;
      this.links := links;
      this.draftLine := INITIAL_DRAFT_LINE;
      this.cursor := INITIAL_CURSOR;
      this.light := INITIAL_LIGHT;
    }

    /** `get_bright_star_idx_at`: the first bright star whose box around (x, y) holds it. */
    method GetBrightStarIdxAt(x: int, y: int) returns (r: Option<nat>)
      ensures r == FirstHit(stars, x, y)
    {
      for idx := 0 to |stars|
        invariant FirstHitFrom(stars, x, y, idx) == FirstHit(stars, x, y)
      {
        var star := stars[idx];
        if !star.bright {
          continue;
        }
        var dx, dy := star.x - x, star.y - y;
        if Abs(dx) < HIT_RADIUS && Abs(dy) < HIT_RADIUS {
          return Some(idx);
        }
      }
      return None;
    }

    /** `get_effective_mouse_pos`: the draft end while a draft is shown, else the pointer in
        world coordinates. */
    method GetEffectiveMousePos(focusX: int, focusY: int, p: Pointer) returns (x: int, y: int)
      ensures (x, y) == EffectivePos(draftLine, p, focusX, focusY)
      ensures draftLine.visible ==> (x, y) == (draftLine.endX, draftLine.endY)
      ensures !draftLine.visible ==> (x, y) == (p.x + focusX, p.y + focusY)
    {
      if draftLine.visible {
        x, y := draftLine.endX, draftLine.endY;
      } else {
        x, y := p.x + focusX, p.y + focusY;
      }
    }

    /** `update_cursor`: the cursor sits on the star under the effective position, or is
        hidden at the origin. */
    method UpdateCursor(focusX: int, focusY: int, p: Pointer)
      modifies this
      ensures var ep := EffectivePos(old(draftLine), p, focusX, focusY);
        State() == old(State()).(cursor := CursorAt(old(stars), ep.0, ep.1))
    {
      var ex, ey := GetEffectiveMousePos(focusX, focusY, p);
      var visible := false;
      var cursorX, cursorY := 0, 0;
      var hit := GetBrightStarIdxAt(ex, ey);
      if hit.Some? {
        var idx := hit.value;
        FirstHitIsLowest(stars, ex, ey);
        if stars[idx].bright {
          cursorX, cursorY := stars[idx].x, stars[idx].y;
          visible := true;
        }
      }
      cursor := Cursor(cursorX, cursorY, visible);
    }

    /** `draft_line_limit_len`: pull the draft end back to 35 pixels from its start star. */
    method DraftLineLimitLen(shorten: (int, int) -> (int, int))
      requires draftLine.startIdx < |stars|
      modifies this
      ensures State() == old(State()).(draftLine := Limited(old(stars), old(draftLine), shorten))
    {
      var startStar := stars[draftLine.startIdx];
      var startX, startY := startStar.x, startStar.y;
      var dx, dy := draftLine.endX - startX, draftLine.endY - startY;
      if dx * dx + dy * dy > STAR_DIST_MAX_FOR_LINE * STAR_DIST_MAX_FOR_LINE {
        var off := shorten(dx, dy);
        draftLine := draftLine.(endX := startX + off.0, endY := startY + off.1);
      }
    }

    /** The loop of `add_link` that turns off the constellation's stars. */
    method UnbrightenStars(idxs: seq<nat>)
      requires forall k :: 0 <= k < |idxs| ==> idxs[k] < |stars|
      modifies this
      ensures State() == old(State()).(stars := Unbrightened(old(stars), idxs))
    {
      var k := 0;
      while k < |idxs|
        invariant 0 <= k <= |idxs|
        invariant State() == old(State()).(stars := UnbrightenedUpTo(old(stars), idxs, k))
      {
        stars := stars[idxs[k] := stars[idxs[k]].(bright := false)];
        k := k + 1;
      }
    }

    /** The loop of `add_link` that dims the constellation's links. */
    method DimLinks(idxs: seq<nat>)
      requires forall k :: 0 <= k < |idxs| ==> idxs[k] < |links|
      modifies this
      ensures State() == old(State()).(links := Dimmed(old(links), idxs))
    {
      var k := 0;
      while k < |idxs|
        invariant 0 <= k <= |idxs|
        invariant State() == old(State()).(links := DimmedUpTo(old(links), idxs, k))
      {
        links := links[idxs[k] := links[idxs[k]].(style := STYLE_DIM)];
        k := k + 1;
      }
    }

    /** The completion branch of `add_link`: refund light, un-brighten the
        constellation's stars, dim its links, then dim lonely stars. */
    method CompleteConstellation(constellation: (seq<nat>, seq<nat>), h: Hooks)
      requires ConstellationFits(constellation, |stars|, |links|)
      modifies this
      ensures var d := old(h.dimLonely(sections, Unbrightened(stars, constellation.0),
                                       Dimmed(links, constellation.1)));
        State() == old(State()).(stars := d.0, links := d.1,
                                 light := WrapU8(old(light) + WrapU8(|constellation.0| - REFUND_BASE)))
    {
      light := WrapU8(light + WrapU8(|constellation.0| - REFUND_BASE));
      UnbrightenStars(constellation.0);
      DimLinks(constellation.1);
      var dimmed := h.dimLonely(sections, stars, links);
      stars, links := dimmed.0, dimmed.1;
    }

    /** `add_link`: append a bright link, spend light, and complete the constellation when
        it has grown large enough. */
    method AddLink(startIdx: nat, endIdx: nat, h: Hooks)
      requires HooksFit(h, |stars|)
      modifies this
      ensures State() == LinkAdded(old(State()), startIdx, endIdx, h)
    {
      ghost var s0 := State();
      links := links + [Link(startIdx, endIdx, STYLE_BRIGHT)];
      light := WrapU8(light - 1);
      var constellation := h.constellation(links, endIdx);
      ghost var s1 := State();
      if |constellation.0| >= h.threshold {
        assert ConstellationFits(constellation, |stars|, |links|);
        CompleteConstellation(constellation, h);
        CompletionMatches(s0, s1, startIdx, endIdx, h, State());
      } else {
        LinkAddedCases(s0, startIdx, endIdx, h);
      }
    }

    /** `update_mouse_state`: follow and clamp a shown draft, react to the press or release
        edge at the effective position, then snap or hide the draft. */
    method UpdateMouseState(focusX: int, focusY: int, p: Pointer, h: Hooks)
      requires DraftInRange(State()) && HooksFit(h, |stars|)
      modifies this
      ensures State() == MouseStep(old(State()), focusX, focusY, p, h)
    {
      if draftLine.visible {
        var mouseX, mouseY := p.x + focusX, p.y + focusY;
        draftLine := draftLine.(endX := mouseX, endY := mouseY);
        DraftLineLimitLen(h.shorten);
      }
      ghost var s1 := State();
      assert s1 == Tracked(old(State()), focusX, focusY, p, h);

      var ex, ey := GetEffectiveMousePos(focusX, focusY, p);
      var mouseDown := p.down;
      var starIdxOpt := GetBrightStarIdxAt(ex, ey);

      if !prevMouseDown && mouseDown {
        if starIdxOpt.Some? {
          draftLine := DraftLine(starIdxOpt.value, ex, ey, true);
        }
      } else if prevMouseDown && !mouseDown {
        if starIdxOpt.Some? {
          var startIdx := draftLine.startIdx;
          if startIdx != starIdxOpt.value {
            AddLink(startIdx, starIdxOpt.value, h);
          }
        }
      }
      assert State() == Edged(s1, (ex, ey), starIdxOpt, mouseDown, h);

      if mouseDown {
        if draftLine.visible {
          if starIdxOpt.Some? {
            var x, y := stars[starIdxOpt.value].x, stars[starIdxOpt.value].y;
            draftLine := draftLine.(endX := x, endY := y);
          }
        }
      } else {
        draftLine := draftLine.(visible := false);
      }
      prevMouseDown := mouseDown;
    }

    /** `pre_update` for the focus `update_focus` produced: the mouse step, then the cursor
        update. */
    method PreUpdate(focusX: int, focusY: int, p: Pointer, h: Hooks)
      requires Consistent(State()) && HooksFit(h, |stars|)
      modifies this
      ensures State() == Tick(old(State()), focusX, focusY, p, h)
      ensures Consistent(State())
    {
      MouseStepKeepsConsistent(State(), focusX, focusY, p, h);
      UpdateMouseState(focusX, focusY, p, h);
      UpdateCursor(focusX, focusY, p);
    }
  }
}
