/** `generate_sky` (src/util.rs:254-311): the first star near the centre, then candidates
    drawn in filled sections, corrected by check_distances up to MAX_ADJUSTMENTS_PER_STAR
    times, committed with add_star and possibly given a preset link. The generated sky
    satisfies the spacing rules of src/util.rs:24-40 for every pair of stars. */
module Generation {
  import opened Arith
  import opened Prng
  import opened Entities
  import opened Grid
  import opened Graph
  import opened Distances
  import opened Generator

  /** Coordinate of the top-left corner of the centre section, where the first star goes. */
  const CENTRE: nat := SKY_WIDTH_SECTIONS / 2 * SECTION_WIDTH

  /** Number of star nodes in the node list. */
  function StarCount(nodes: seq<Node>): nat {
    if |nodes| == 0 then 0
    else StarCount(nodes[..|nodes| - 1]) + (if nodes[|nodes| - 1].StarNode? then 1 else 0)
  }

  /** Appending a node adds one to the star count exactly when it is a star. */
  lemma StarCountAppend(nodes: seq<Node>, n: Node)
    ensures StarCount(nodes + [n]) == StarCount(nodes) + (if n.StarNode? then 1 else 0)
  {
    assert (nodes + [n])[..|nodes|] == nodes;
  }

  /** Every star lies in the sky and is bright. */
  predicate StarsPlaced(nodes: seq<Node>) {
    forall i :: 0 <= i < |nodes| && nodes[i].StarNode? ==>
      IsInBounds(nodes[i].star.x, nodes[i].star.y) && nodes[i].star.bright
  }

  /** The spacing rule: no two stars are closer than STAR_DIST_MIN, and none lies in the
      dead zone (STAR_DIST_MAX_FOR_LINE, STAR_DIST_DEAD_ZONE_END] of another. */
  predicate Spaced(nodes: seq<Node>) {
    forall i, j :: 0 <= i < |nodes| && 0 <= j < |nodes| && i != j && nodes[i].StarNode? && nodes[j].StarNode? ==>
      !Conflicts(Dist(nodes[i].star.x, nodes[i].star.y, nodes[j].star))
  }

  /** Every star but the first is within linking distance of an earlier star, so the
      player can reach every star from the first through linkable pairs. */
  predicate Anchored(nodes: seq<Node>) {
    forall i :: 0 < i < |nodes| && nodes[i].StarNode? ==> LinkableEarlier(nodes, i)
  }

  predicate LinkableEarlier(nodes: seq<Node>, i: nat)
    requires i < |nodes| && nodes[i].StarNode?
  {
    exists j :: 0 <= j < i && nodes[j].StarNode? && Dist(nodes[i].star.x, nodes[i].star.y, nodes[j].star) <= STAR_DIST_MAX_FOR_LINE
  }

  /** Every link is a bright preset link between two stars at most
      STAR_DIST_MAX_FOR_PRESET_LINE apart. */
  predicate LinksShort(nodes: seq<Node>) {
    forall i :: 0 <= i < |nodes| && nodes[i].LinkNode? ==> ShortLink(nodes, nodes[i].link)
  }

  predicate ShortLink(nodes: seq<Node>, l: Link) {
    && l.startIdx < |nodes| && l.endIdx < |nodes|
    && nodes[l.startIdx].StarNode? && nodes[l.endIdx].StarNode?
    && l.style == STYLE_BRIGHT
    && Dist(nodes[l.startIdx].star.x, nodes[l.startIdx].star.y, nodes[l.endIdx].star) <= STAR_DIST_MAX_FOR_PRESET_LINE
  }

  /** The first node is the bright star placed in the centre section. */
  predicate CentredFirst(nodes: seq<Node>) {
    && |nodes| > 0 && nodes[0].StarNode?
    && CENTRE <= nodes[0].star.x < CENTRE + SECTION_WIDTH
    && CENTRE <= nodes[0].star.y < CENTRE + SECTION_HEIGHT
  }

  /** What holds between steps of the generator: consistent bookkeeping, a non-empty
      list of filled sections, and a sky that meets every rule. */
  predicate Generated(sections: seq<seq<nat>>, filled: seq<nat>, nodes: seq<Node>) {
    && SkyIndex(sections, filled, nodes)
    && |filled| > 0
    && CentredFirst(nodes)
    && StarsPlaced(nodes)
    && Spaced(nodes)
    && Anchored(nodes)
    && LinksShort(nodes)
  }

  /** `generate_sky`, with the outer loop bounded by `attempts` candidate positions (the
      source retries until MAX_STARS stars are placed) and the PRESET_LINE_CHANCE
      comparison given as `coin`. The result has at most MAX_STARS stars, the first in
      the centre section, all spaced by the rules, each after the first linkable to an
      earlier one, and only short bright links between stars. */
  method GenerateSky(seed: u32, coin: u32 -> bool, attempts: nat) returns (nodes: seq<Node>)
    ensures CentredFirst(nodes) && StarsPlaced(nodes) && Spaced(nodes) && Anchored(nodes)
    ensures LinksJoinStars(nodes) && LinksShort(nodes)
    ensures StarCount(nodes) <= MAX_STARS
  {
    var sections, filled, rng;
    sections, filled, nodes, rng := PlaceFirstStar(seed);
    var stars := 1;
    var fuel := attempts;
    while stars < MAX_STARS && fuel > 0
      invariant Generated(sections, filled, nodes)
      invariant stars == StarCount(nodes) <= MAX_STARS
    {
      var draw;
      rng, draw := NextRandom(rng).0, NextRandom(rng).1;
      var sectionIdx := draw % |filled|;
      var sectionX, sectionY := filled[sectionIdx] % SKY_WIDTH_SECTIONS, filled[sectionIdx] / SKY_WIDTH_SECTIONS;
      rng, draw := NextRandom(rng).0, NextRandom(rng).1;
      var x := sectionX * SECTION_WIDTH + draw % SECTION_WIDTH;
      rng, draw := NextRandom(rng).0, NextRandom(rng).1;
      var y := sectionY * SECTION_HEIGHT + draw % SECTION_HEIGHT;
      var added;
      sections, filled, nodes, rng, added := PlaceStar(sections, filled, nodes, x, y, rng, coin);
      if added {
        stars := stars + 1;
      }
      fuel := fuel - 1;
    }
  }

  /** The opening of `generate_sky`: the first star, drawn inside the centre section and
      filed in the empty grid. */
  method PlaceFirstStar(seed: u32) returns (sections: seq<seq<nat>>, filled: seq<nat>, nodes: seq<Node>, rng: u32)
    ensures Generated(sections, filled, nodes) && StarCount(nodes) == 1
  {
    rng := seed;
    sections := seq(SECTION_COUNT, _ => []);
    filled := [];
    nodes := [];
    var drawX, drawY;
    rng, drawX := NextRandom(rng).0, NextRandom(rng).1;
    rng, drawY := NextRandom(rng).0, NextRandom(rng).1;
    var first := Star(CENTRE + drawX % SECTION_WIDTH, CENTRE + drawY % SECTION_HEIGHT, true);
    var res;
    res, sections, filled, nodes := AddStar(first, sections, filled, nodes);
    StarCountAppend([], StarNode(first));
  }

  /** The `for _ in 0..MAX_ADJUSTMENTS_PER_STAR` loop for one candidate: stop when the
      candidate leaves the sky, move it by the correction plus jitter while
      check_distances objects, and commit it as soon as it does not. */
  method PlaceStar(sections: seq<seq<nat>>, filled: seq<nat>, nodes: seq<Node>, x0: int, y0: int,
                   rng: u32, coin: u32 -> bool)
    returns (sections': seq<seq<nat>>, filled': seq<nat>, nodes': seq<Node>, rng': u32, added: bool)
    requires Generated(sections, filled, nodes)
    ensures Generated(sections', filled', nodes')
    ensures StarCount(nodes') == StarCount(nodes) + (if added then 1 else 0)
    ensures !added ==> sections' == sections && filled' == filled && nodes' == nodes
    ensures added ==> |nodes'| > |nodes| && nodes'[..|nodes|] == nodes
    ensures added ==> exists x, y :: Accepted(sections, nodes, x, y) && nodes'[|nodes|] == StarNode(Star(x, y, true))
  {
    sections', filled', nodes', rng', added := sections, filled, nodes, rng, false;
    var x, y := x0, y0;
    var k := 0;
    while k < MAX_ADJUSTMENTS_PER_STAR
      invariant sections' == sections && filled' == filled && nodes' == nodes && !added
    {
      if !IsInBounds(x, y) {
        break;
      }
      var correction := CheckDistances(sections, nodes, x, y);
      if correction.Some? {
        var draw;
        rng', draw := NextRandom(rng').0, NextRandom(rng').1;
        x := x + (correction.value.0 + Jitter(draw));
        rng', draw := NextRandom(rng').0, NextRandom(rng').1;
        y := y + (correction.value.1 + Jitter(draw));
      } else {
        sections', filled', nodes', rng' := CommitStar(sections, filled, nodes, x, y, rng', coin);
        added := true;
        return;
      }
      k := k + 1;
    }
  }

  /** add_star on an accepted position (which, being in the sky, always succeeds)
      followed by handle_preset_line for the new star. */
  method CommitStar(sections: seq<seq<nat>>, filled: seq<nat>, nodes: seq<Node>, x: int, y: int,
                    rng: u32, coin: u32 -> bool)
    returns (sections': seq<seq<nat>>, filled': seq<nat>, nodes': seq<Node>, rng': u32)
    requires Generated(sections, filled, nodes) && Accepted(sections, nodes, x, y)
    ensures Generated(sections', filled', nodes')
    ensures StarCount(nodes') == StarCount(nodes) + 1
    ensures |nodes'| > |nodes| && nodes'[..|nodes|] == nodes && nodes'[|nodes|] == StarNode(Star(x, y, true))
    ensures || nodes' == nodes + [StarNode(Star(x, y, true))]
            || (&& |nodes'| == |nodes| + 2
                && nodes'[..|nodes| + 1] == nodes + [StarNode(Star(x, y, true))]
                && nodes'[|nodes| + 1].LinkNode?)
  {
    var res;
    var star := Star(x, y, true);
    res, sections', filled', nodes' := AddStar(star, sections, filled, nodes);
    AddedStarKeeps(sections, filled, nodes, star, sections', filled', nodes');
    StarCountAppend(nodes, StarNode(star));
    var grown := nodes';
    nodes', rng' := HandlePresetLine(grown, sections', res.value.0, res.value.1, rng, coin);
    PresetLinkKeeps(sections', filled', grown, res.value.0, res.value.1, nodes');
    GrownByStar(nodes, StarNode(star), grown, nodes',
                Link(ClosestOther(sections', grown, res.value.0, res.value.1).0, sections'[res.value.0][res.value.1], STYLE_BRIGHT));
  }

  /** A node list grown by one node and then perhaps by one link keeps its old prefix. */
  lemma GrownByStar(nodes: seq<Node>, n: Node, grown: seq<Node>, nodes': seq<Node>, l: Link)
    requires grown == nodes + [n]
    requires nodes' == grown || nodes' == grown + [LinkNode(l)]
    ensures |nodes'| > |nodes| && nodes'[..|nodes|] == nodes && nodes'[|nodes|] == n
    ensures || nodes' == nodes + [n]
            || (|nodes'| == |nodes| + 2 && nodes'[..|nodes| + 1] == nodes + [n] && nodes'[|nodes| + 1].LinkNode?)
  {
    assert grown[..|nodes|] == nodes;
    if nodes' != grown {
      assert nodes'[..|grown|] == grown;
    }
  }

  /** A candidate position check_distances lets through: inside the sky, in conflict with
      no star and within linking distance of one. */
  predicate Accepted(sections: seq<seq<nat>>, nodes: seq<Node>, x: int, y: int)
    requires IndexesStars(sections, nodes)
  {
    && IsInBounds(x, y)
    && var ds := Dists(x, y, Candidates(sections, nodes, x, y));
       NoConflict(ds) && HasLinkable(ds)
  }

  /** Committing an accepted star keeps the generator's invariant. */
  lemma AddedStarKeeps(sections: seq<seq<nat>>, filled: seq<nat>, nodes: seq<Node>, star: Star,
                       sections': seq<seq<nat>>, filled': seq<nat>, nodes': seq<Node>)
    requires Generated(sections, filled, nodes) && IsInBounds(star.x, star.y) && star.bright
    requires var ds := Dists(star.x, star.y, Candidates(sections, nodes, star.x, star.y));
      NoConflict(ds) && HasLinkable(ds)
    requires SkyIndex(sections', filled', nodes') && |filled'| >= |filled|
    requires nodes' == nodes + [StarNode(star)]
    ensures Generated(sections', filled', nodes')
  {
    assert Spaced(nodes') by {
      forall j | 0 <= j < |nodes| && nodes[j].StarNode?
        ensures !Conflicts(Dist(star.x, star.y, nodes[j].star))
        ensures !Conflicts(Dist(nodes[j].star.x, nodes[j].star.y, nodes'[|nodes|].star))
      {
        CandidateOrFar(sections, nodes, star.x, star.y, j);
        DistSymmetric(star.x, star.y, nodes[j].star, star);
      }
      SpacedAfterAdd(nodes, star);
    }
    assert Anchored(nodes') by {
      var j := LinkableCandidate(sections, nodes, star.x, star.y);
      assert nodes'[j] == nodes[j];
      assert LinkableEarlier(nodes', |nodes|);
      AnchoredAfterAdd(nodes, star);
    }
    ShortLinksAfterStar(nodes, star);
  }

  /** Appending a star keeps every existing link short and between stars. */
  lemma ShortLinksAfterStar(nodes: seq<Node>, star: Star)
    requires LinksShort(nodes)
    ensures LinksShort(nodes + [StarNode(star)])
  {
    var nodes' := nodes + [StarNode(star)];
    forall i | 0 <= i < |nodes'| && nodes'[i].LinkNode? ensures ShortLink(nodes', nodes'[i].link) {
      var l := nodes[i].link;
      assert nodes'[i] == nodes[i];
      assert ShortLink(nodes, l);
      assert nodes'[l.startIdx] == nodes[l.startIdx] && nodes'[l.endIdx] == nodes[l.endIdx];
    }
  }

  /** Adding a star that conflicts with no earlier star keeps the sky spaced. */
  lemma SpacedAfterAdd(nodes: seq<Node>, star: Star)
    requires Spaced(nodes)
    requires forall j :: 0 <= j < |nodes| && nodes[j].StarNode? ==>
      && !Conflicts(Dist(star.x, star.y, nodes[j].star))
      && !Conflicts(Dist(nodes[j].star.x, nodes[j].star.y, star))
    ensures Spaced(nodes + [StarNode(star)])
  {
    var nodes' := nodes + [StarNode(star)];
    forall i, j | 0 <= i < |nodes'| && 0 <= j < |nodes'| && i != j && nodes'[i].StarNode? && nodes'[j].StarNode?
      ensures !Conflicts(Dist(nodes'[i].star.x, nodes'[i].star.y, nodes'[j].star))
    {
      if i < |nodes| && j < |nodes| {
        assert nodes'[i] == nodes[i] && nodes'[j] == nodes[j];
      } else if i < |nodes| {
        assert nodes'[i] == nodes[i];
      } else {
        assert nodes'[j] == nodes[j];
      }
    }
  }

  /** Adding a star linkable to an earlier one keeps every star anchored. */
  lemma AnchoredAfterAdd(nodes: seq<Node>, star: Star)
    requires Anchored(nodes)
    requires |nodes| > 0 ==> LinkableEarlier(nodes + [StarNode(star)], |nodes|)
    ensures Anchored(nodes + [StarNode(star)])
  {
    var nodes' := nodes + [StarNode(star)];
    forall i | 0 < i < |nodes'| && nodes'[i].StarNode? ensures LinkableEarlier(nodes', i) {
      if i < |nodes| {
        assert nodes'[i] == nodes[i];
        var j :| 0 <= j < i && nodes[j].StarNode? && Dist(nodes[i].star.x, nodes[i].star.y, nodes[j].star) <= STAR_DIST_MAX_FOR_LINE;
        assert nodes'[j] == nodes[j];
      }
    }
  }

  /** Every indexed star is either one of the candidates check_distances compared (x, y)
      with, or in a section that is not a neighbour and so more than
      STAR_DIST_DEAD_ZONE_END away: an accepted position conflicts with no star. */
  lemma CandidateOrFar(sections: seq<seq<nat>>, nodes: seq<Node>, x: int, y: int, j: nat)
    requires IsInBounds(x, y) && IndexesStars(sections, nodes)
    requires NoConflict(Dists(x, y, Candidates(sections, nodes, x, y)))
    requires j < |nodes| && nodes[j].StarNode? && Indexed(sections, j)
    ensures !Conflicts(Dist(x, y, nodes[j].star))
  {
    var t, k :| 0 <= t < |sections| && 0 <= k < |sections[t]| && sections[t][k] == j;
    SectionOfInBounds(x, y);
    if IsNeighbour(SectionOf(x, y), t) {
      var m := NeighbourIsCandidate(sections, nodes, x, y, t, k);
    } else {
      var st := nodes[j].star;
      assert StarInSection(st, t);
      FarApart(x, y, st.x, st.y);
      IsqrtAtLeast(DistSq(x, y, st.x, st.y), SECTION_WIDTH + 1);
    }
  }

  /** A star filed in a section neighbouring the position's own is among the candidates. */
  lemma NeighbourIsCandidate(sections: seq<seq<nat>>, nodes: seq<Node>, x: int, y: int, t: nat, k: nat)
    returns (m: nat)
    requires IsInBounds(x, y) && IndexesStars(sections, nodes)
    requires t < |sections| && k < |sections[t]|
    requires SectionOf(x, y) < SECTION_COUNT && IsNeighbour(SectionOf(x, y), t)
    ensures sections[t][k] < |nodes| && nodes[sections[t][k]].StarNode?
    ensures var ds := Dists(x, y, Candidates(sections, nodes, x, y));
      m < |ds| && ds[m] == Dist(x, y, nodes[sections[t][k]].star)
  {
    var ns := NeighboringSectionIndices(SectionOf(x, y));
    var i := NeighbourPosition(SectionOf(x, y), t);
    NeighboursInGrid(ns, SectionOf(x, y));
    EntriesAreStars(sections, nodes, ns, |ns|);
    m := BucketEntryInScan(sections, nodes, ns, i, k);
    var cs := StarsOf(nodes, SectionEntries(sections, ns, |ns|));
    assert cs == Candidates(sections, nodes, x, y);
    assert Dists(x, y, cs)[m] == Dist(x, y, cs[m]);
  }

  /** The k-th entry of the i-th scanned bucket has its place among the scanned stars. */
  lemma BucketEntryInScan(sections: seq<seq<nat>>, nodes: seq<Node>, ns: seq<nat>, i: nat, k: nat)
    returns (m: nat)
    requires i < |ns| && forall t :: 0 <= t < |ns| ==> ns[t] < |sections|
    requires k < |sections[ns[i]]|
    requires AllStars(nodes, SectionEntries(sections, ns, |ns|))
    ensures sections[ns[i]][k] < |nodes| && nodes[sections[ns[i]][k]].StarNode?
    ensures var cs := StarsOf(nodes, SectionEntries(sections, ns, |ns|));
      m < |cs| && cs[m] == nodes[sections[ns[i]][k]].star
  {
    var cs := StarsOf(nodes, SectionEntries(sections, ns, |ns|));
    BucketInCandidates(sections, nodes, ns, i, cs);
    m := |SectionEntries(sections, ns, i)| + k;
  }

  /** A neighbouring section has a place in the list of neighbouring sections. */
  lemma NeighbourPosition(s: nat, t: nat) returns (i: nat)
    requires IsNeighbour(s, t)
    ensures var ns := NeighboringSectionIndices(s);
      i < |ns| && ns[i] == t
  {
    var ns := NeighboringSectionIndices(s);
    assert t in ns;
    i :| 0 <= i < |ns| && ns[i] == t;
  }

  /** A position within linking distance of some candidate is within linking distance of
      a star of the node list. */
  lemma LinkableCandidate(sections: seq<seq<nat>>, nodes: seq<Node>, x: int, y: int) returns (j: nat)
    requires IsInBounds(x, y) && IndexesStars(sections, nodes)
    requires HasLinkable(Dists(x, y, Candidates(sections, nodes, x, y)))
    ensures j < |nodes| && nodes[j].StarNode? && Dist(x, y, nodes[j].star) <= STAR_DIST_MAX_FOR_LINE
  {
    var cs := Candidates(sections, nodes, x, y);
    var ds := Dists(x, y, cs);
    var k :| 0 <= k < |ds| && ds[k] <= STAR_DIST_MAX_FOR_LINE;
    SectionOfInBounds(x, y);
    var ns := NeighboringSectionIndices(SectionOf(x, y));
    NeighboursInGrid(ns, SectionOf(x, y));
    EntriesAreStars(sections, nodes, ns, |ns|);
    var es := SectionEntries(sections, ns, |ns|);
    assert cs == StarsOf(nodes, es);
    j := es[k];
  }

  /** A preset link appended by handle_preset_line keeps the generator's invariant. */
  lemma PresetLinkKeeps(sections: seq<seq<nat>>, filled: seq<nat>, nodes: seq<Node>, s: nat, b: nat,
                        nodes': seq<Node>)
    requires Generated(sections, filled, nodes) && s < SECTION_COUNT && b < |sections[s]|
    requires nodes' == nodes || nodes' == nodes + [LinkNode(Link(ClosestOther(sections, nodes, s, b).0, sections[s][b], STYLE_BRIGHT))]
    requires nodes' != nodes ==> ClosestOther(sections, nodes, s, b).1 <= STAR_DIST_MAX_FOR_PRESET_LINE
    ensures Generated(sections, filled, nodes') && StarCount(nodes') == StarCount(nodes)
  {
    if nodes' != nodes {
      var c := ClosestOther(sections, nodes, s, b);
      var l := Link(c.0, sections[s][b], STYLE_BRIGHT);
      StarCountAppend(nodes, LinkNode(l));
      ClosestOtherIsClosest(sections, nodes, s, b);
      LonelyDistIsRoot();
      var os := OtherEntries(sections, nodes, s, b);
      var base := nodes[sections[s][b]].star;
      assert c.0 < |nodes| && nodes[c.0].StarNode?;
      DistSymmetric(base.x, base.y, nodes[c.0].star, base);
      assert ShortLink(nodes, l);
      LinkAppendKeeps(sections, filled, nodes, l);
    }
  }

  /** Appending a short link between two earlier stars keeps the generator's invariant. */
  lemma LinkAppendKeeps(sections: seq<seq<nat>>, filled: seq<nat>, nodes: seq<Node>, l: Link)
    requires Generated(sections, filled, nodes) && ShortLink(nodes, l)
    ensures Generated(sections, filled, nodes + [LinkNode(l)])
  {
    StarsKeptByLink(nodes, l);
    LinksKeptByLink(nodes, l);
    IndexKeptByLink(sections, filled, nodes, l);
  }

  /** The stars, their placement, spacing and anchoring are unaffected by a new link. */
  lemma StarsKeptByLink(nodes: seq<Node>, l: Link)
    requires CentredFirst(nodes) && StarsPlaced(nodes) && Spaced(nodes) && Anchored(nodes)
    ensures var nodes' := nodes + [LinkNode(l)];
      CentredFirst(nodes') && StarsPlaced(nodes') && Spaced(nodes') && Anchored(nodes')
  {
    var nodes' := nodes + [LinkNode(l)];
    forall i | 0 <= i < |nodes| ensures nodes'[i] == nodes[i] { }
    forall i | 0 < i < |nodes'| && nodes'[i].StarNode? ensures LinkableEarlier(nodes', i) {
      var j :| 0 <= j < i && nodes[j].StarNode? && Dist(nodes[i].star.x, nodes[i].star.y, nodes[j].star) <= STAR_DIST_MAX_FOR_LINE;
    }
  }

  /** A short link between earlier stars keeps every link short and joining earlier stars. */
  lemma LinksKeptByLink(nodes: seq<Node>, l: Link)
    requires LinksJoinStars(nodes) && LinksShort(nodes) && ShortLink(nodes, l)
    ensures LinksJoinStars(nodes + [LinkNode(l)]) && LinksShort(nodes + [LinkNode(l)])
  {
    var nodes' := nodes + [LinkNode(l)];
    forall i | 0 <= i < |nodes'| && nodes'[i].LinkNode? ensures ShortLink(nodes', nodes'[i].link) {
      if i < |nodes| {
        assert nodes'[i] == nodes[i];
        assert ShortLink(nodes, nodes[i].link);
      }
    }
    forall i | 0 <= i < |nodes'| && nodes'[i].LinkNode?
      ensures nodes'[i].link.startIdx < i && nodes'[i].link.endIdx < i
      ensures nodes'[nodes'[i].link.startIdx].StarNode? && nodes'[nodes'[i].link.endIdx].StarNode?
    {
      if i < |nodes| {
        assert nodes'[i] == nodes[i];
      }
    }
  }

  /** The spatial index and the filled list still describe the stars after a new link. */
  lemma IndexKeptByLink(sections: seq<seq<nat>>, filled: seq<nat>, nodes: seq<Node>, l: Link)
    requires IndexesStars(sections, nodes) && FilledExactly(sections, filled)
    requires forall i :: 0 <= i < |nodes| && nodes[i].StarNode? ==> Indexed(sections, i)
    ensures var nodes' := nodes + [LinkNode(l)];
      && IndexesStars(sections, nodes') && FilledExactly(sections, filled)
      && forall i :: 0 <= i < |nodes'| && nodes'[i].StarNode? ==> Indexed(sections, i)
  {
    var nodes' := nodes + [LinkNode(l)];
    forall i | 0 <= i < |nodes| ensures nodes'[i] == nodes[i] { }
  }
}
