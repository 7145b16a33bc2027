/** The interactive sky of src/interactive_sky.rs: the same drafting state machine as
    src/sky.rs, but the stars and links live in an embedded sky node (`self.sky.stars`,
    `self.sky.links`) while the draft line, cursor, light counter and button state are the
    interactive sky's own fields. It never scrolls: the focus it reads is the focus it
    writes back. */
module InteractiveSkyNode {
  import opened Arith
  import opened Entities
  import opened Distances
  import opened Drafting
  import opened SkyNode

  class InteractiveSky {
    /** The embedded sky node; only its stars and links are used here. */
    const sky: Sky
    var sections: seq<seq<nat>>
    var prevMouseDown: bool
    var draftLine: DraftLine
    var cursor: Cursor
    /** `hud.light`. */
    var light: u8

    /** The fields the state machine works on, as a value. */
    function State(): SkyState
      reads this, sky
    {
      SkyState(prevMouseDown, sections, sky.stars, sky.links, draftLine, cursor, light)
    }

    /** `InteractiveSky::new` over the result of the generator. */
    constructor(sections: seq<seq<nat>>, stars: seq<Star>, links: seq<Link>)
      ensures State() == InitialState(sections, stars, links)
      ensures Consistent(State())
      ensures fresh(sky)
    {
      this.sky := new Sky(sections, stars, links);
      this.sections := sections;
      this.prevMouseDown := false;
      this.draftLine := INITIAL_DRAFT_LINE;
      this.cursor := INITIAL_CURSOR;
      this.light := INITIAL_LIGHT;
    }

    /** `get_bright_star_idx_at` over the embedded sky's stars. */
    method GetBrightStarIdxAt(x: int, y: int) returns (r: Option<nat>)
      ensures r == FirstHit(sky.stars, x, y)
    {
      for idx := 0 to |sky.stars|
        invariant FirstHitFrom(sky.stars, x, y, idx) == FirstHit(sky.stars, x, y)
      {
        var star := sky.stars[idx];
        if !star.bright {
          continue;
        }
        var dx, dy := star.x - x, star.y - y;
        if Abs(dx) < HIT_RADIUS && Abs(dy) < HIT_RADIUS {
          return Some(idx);
        }
      }
      return None;
    }

    /** `get_effective_mouse_pos`. */
    method GetEffectiveMousePos(focusX: int, focusY: int, p: Pointer) returns (x: int, y: int)
      ensures (x, y) == EffectivePos(draftLine, p, focusX, focusY)
      ensures draftLine.visible ==> (x, y) == (draftLine.endX, draftLine.endY)
      ensures !draftLine.visible ==> (x, y) == (p.x + focusX, p.y + focusY)
    {
      if draftLine.visible {
        x, y := draftLine.endX, draftLine.endY;
      } else {
        x, y := p.x + focusX, p.y + focusY;
      }
    }

    /** `update_cursor`. */
    method UpdateCursor(focusX: int, focusY: int, p: Pointer)
      modifies this
      ensures var ep := EffectivePos(old(draftLine), p, focusX, focusY);
        State() == old(State()).(cursor := CursorAt(sky.stars, ep.0, ep.1))
    {
      var ex, ey := GetEffectiveMousePos(focusX, focusY, p);
      var visible := false;
      var cursorX, cursorY := 0, 0;
      var hit := GetBrightStarIdxAt(ex, ey);
      if hit.Some? {
        var idx := hit.value;
        FirstHitIsLowest(sky.stars, ex, ey);
        if sky.stars[idx].bright {
          cursorX, cursorY := sky.stars[idx].x, sky.stars[idx].y;
          visible := true;
        }
      }
      cursor := Cursor(cursorX, cursorY, visible);
    }

    /** `draft_line_limit_len` against the embedded sky's stars. */
    method DraftLineLimitLen(shorten: (int, int) -> (int, int))
      requires draftLine.startIdx < |sky.stars|
      modifies this
      ensures State() == old(State()).(draftLine := Limited(sky.stars, old(draftLine), shorten))
    {
      var startStar := sky.stars[draftLine.startIdx];
      var startX, startY := startStar.x, startStar.y;
      var dx, dy := draftLine.endX - startX, draftLine.endY - startY;
      if dx * dx + dy * dy > STAR_DIST_MAX_FOR_LINE * STAR_DIST_MAX_FOR_LINE {
        var off := shorten(dx, dy);
        draftLine := draftLine.(endX := startX + off.0, endY := startY + off.1);
      }
    }

    /** The loop of `add_link` that turns off the constellation's stars. */
    method UnbrightenStars(idxs: seq<nat>)
      requires forall k :: 0 <= k < |idxs| ==> idxs[k] < |sky.stars|
      modifies sky`stars
      ensures State() == old(State()).(stars := Unbrightened(old(sky.stars), idxs))
    {
      for k := 0 to |idxs|
        invariant State() == old(State()).(stars := UnbrightenedUpTo(old(sky.stars), idxs, k))
      {
        var starIdx := idxs[k];
        sky.stars := sky.stars[starIdx := sky.stars[starIdx].(bright := false)];
      }
    }

    /** The loop of `add_link` that dims the constellation's links. */
    method DimLinks(idxs: seq<nat>)
      requires forall k :: 0 <= k < |idxs| ==> idxs[k] < |sky.links|
      modifies sky`links
      ensures State() == old(State()).(links := Dimmed(old(sky.links), idxs))
    {
      for k := 0 to |idxs|
        invariant State() == old(State()).(links := DimmedUpTo(old(sky.links), idxs, k))
      {
        var linkIdx := idxs[k];
        sky.links := sky.links[linkIdx := sky.links[linkIdx].(style := STYLE_DIM)];
      }
    }

    /** The completion branch of `add_link`: refund light, un-brighten the
        constellation's stars, dim its links, then dim lonely stars. */
    method CompleteConstellation(constellation: (seq<nat>, seq<nat>), h: Hooks)
      requires ConstellationFits(constellation, |sky.stars|, |sky.links|)
      modifies this, sky`stars, sky`links
      ensures var d := old(h.dimLonely(sections, Unbrightened(sky.stars, constellation.0),
                                       Dimmed(sky.links, constellation.1)));
        State() == old(State()).(stars := d.0, links := d.1,
                                 light := WrapU8(old(light) + WrapU8(|constellation.0| - REFUND_BASE)))
    {
      light := WrapU8(light + WrapU8(|constellation.0| - REFUND_BASE));
      UnbrightenStars(constellation.0);
      DimLinks(constellation.1);
      var dimmed := h.dimLonely(sections, sky.stars, sky.links);
      sky.stars, sky.links := dimmed.0, dimmed.1;
    }

    /** `add_link`: append a bright link, spend light, and complete the constellation when
        it has grown large enough. */
    method AddLink(startIdx: nat, endIdx: nat, h: Hooks)
      requires HooksFit(h, |sky.stars|)
      modifies this, sky`stars, sky`links
      ensures State() == LinkAdded(old(State()), startIdx, endIdx, h)
    {
      ghost var s0 := State();
      sky.links := sky.links + [Link(startIdx, endIdx, STYLE_BRIGHT)];
      light := WrapU8(light - 1);
      var constellation := h.constellation(sky.links, endIdx);
      ghost var s1 := State();
      if |constellation.0| >= h.threshold {
        assert ConstellationFits(constellation, |sky.stars|, |sky.links|);
        CompleteConstellation(constellation, h);
        CompletionMatches(s0, s1, startIdx, endIdx, h, State());
      } else {
        LinkAddedCases(s0, startIdx, endIdx, h);
      }
    }

    /** `update_mouse_state`. */
    method UpdateMouseState(focusX: int, focusY: int, p: Pointer, h: Hooks)
      requires DraftInRange(State()) && HooksFit(h, |sky.stars|)
      modifies this, sky`stars, sky`links
      ensures State() == MouseStep(old(State()), focusX, focusY, p, h)
    {
      if draftLine.visible {
        var mouseX, mouseY := p.x + focusX, p.y + focusY;
        draftLine := draftLine.(endX := mouseX, endY := mouseY);
        DraftLineLimitLen(h.shorten);
      }
      ghost var s1 := State();
      assert s1 == Tracked(old(State()), focusX, focusY, p, h);

      var ex, ey := GetEffectiveMousePos(focusX, focusY, p);
      var mouseDown := p.down;
      var starIdxOpt := GetBrightStarIdxAt(ex, ey);

      if !prevMouseDown && mouseDown {
        if starIdxOpt.Some? {
          draftLine := DraftLine(starIdxOpt.value, ex, ey, true);
        }
      } else if prevMouseDown && !mouseDown {
        if starIdxOpt.Some? {
          var startIdx := draftLine.startIdx;
          if startIdx != starIdxOpt.value {
            AddLink(startIdx, starIdxOpt.value, h);
          }
        }
      }
      assert State() == Edged(s1, (ex, ey), starIdxOpt, mouseDown, h);

      if mouseDown {
        if draftLine.visible {
          if starIdxOpt.Some? {
            var x, y := sky.stars[starIdxOpt.value].x, sky.stars[starIdxOpt.value].y;
            draftLine := draftLine.(endX := x, endY := y);
          }
        }
      } else {
        draftLine := draftLine.(visible := false);
      }
      prevMouseDown := mouseDown;
    }

    /** `pre_update`: one tick at the current focus, handing back exactly the focus it was
        given. */
    method PreUpdate(focusX: int, focusY: int, p: Pointer, h: Hooks)
      returns (newFocusX: int, newFocusY: int)
      requires Consistent(State()) && HooksFit(h, |sky.stars|)
      modifies this, sky`stars, sky`links
      ensures newFocusX == focusX && newFocusY == focusY
      ensures State() == Tick(old(State()), focusX, focusY, p, h)
      ensures Consistent(State())
    {
      MouseStepKeepsConsistent(State(), focusX, focusY, p, h);
      UpdateMouseState(focusX, focusY, p, h);
      UpdateCursor(focusX, focusY, p);
      newFocusX, newFocusY := focusX, focusY;
    }
  }
}
