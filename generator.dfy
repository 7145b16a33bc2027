/** The seeded sky generator (src/util.rs:141-311): stars are committed one at a time into
    a node list and a per-section index, a new star may get a "preset" link to its closest
    neighbour, and the placement loop keeps every pair of stars at least STAR_DIST_MIN apart
    and out of each other's dead zone. */
module Generator {
  import opened Arith
  import opened Prng
  import opened Entities
  import opened Grid
  import opened Graph
  import opened Distances

  const MAX_STARS: nat := 350
  const MAX_ADJUSTMENTS_PER_STAR: nat := 50
  const MAX_PRESET_CONSTELLATION_SIZE: nat := 3

  /** `filled` lists, without repeats, exactly the sections whose bucket is non-empty. */
  predicate FilledExactly(sections: seq<seq<nat>>, filled: seq<nat>) {
    && (forall t :: 0 <= t < |filled| ==> filled[t] < |sections| && |sections[filled[t]]| > 0)
    && (forall s :: 0 <= s < |sections| && |sections[s]| > 0 ==> s in filled)
    && (forall i, j :: 0 <= i < j < |filled| ==> filled[i] != filled[j])
  }

  /** Node i is recorded in some bucket of the index. */
  predicate Indexed(sections: seq<seq<nat>>, i: nat) {
    exists s, k :: 0 <= s < |sections| && 0 <= k < |sections[s]| && sections[s][k] == i
  }

  /** Every link joins two earlier star nodes. */
  predicate LinksJoinStars(nodes: seq<Node>) {
    forall i :: 0 <= i < |nodes| && nodes[i].LinkNode? ==>
      && nodes[i].link.startIdx < i && nodes[i].link.endIdx < i
      && nodes[nodes[i].link.startIdx].StarNode? && nodes[nodes[i].link.endIdx].StarNode?
  }

  /** The generator's bookkeeping is consistent: the index names exactly the star nodes,
      each in the bucket of its own section, `filled` lists the non-empty buckets, and links
      join stars. */
  predicate SkyIndex(sections: seq<seq<nat>>, filled: seq<nat>, nodes: seq<Node>) {
    && IndexesStars(sections, nodes)
    && FilledExactly(sections, filled)
    && (forall i :: 0 <= i < |nodes| && nodes[i].StarNode? ==> Indexed(sections, i))
    && LinksJoinStars(nodes)
  }

  /** `add_star`: a star outside the grid is refused and nothing changes. Otherwise the star
      is appended to the node list, its node index is appended to the bucket of exactly its
      own section, that section is added to `filled` unless already there, and the result
      names the section and the new slot. The bookkeeping invariant is preserved. */
  method AddStar(star: Star, sections: seq<seq<nat>>, filled: seq<nat>, nodes: seq<Node>)
    returns (res: Option<(nat, nat)>, sections': seq<seq<nat>>, filled': seq<nat>, nodes': seq<Node>)
    requires |sections| == SECTION_COUNT
    ensures res.None? <==> !IsInBounds(star.x, star.y)
    ensures res.None? ==> sections' == sections && filled' == filled && nodes' == nodes
    ensures res.Some? ==>
      && res.value.0 == SectionOf(star.x, star.y) < SECTION_COUNT
      && res.value.1 == |sections[res.value.0]|
      && nodes' == nodes + [StarNode(star)]
      && sections' == sections[res.value.0 := sections[res.value.0] + [|nodes|]]
      && filled' == (if res.value.0 in filled then filled else filled + [res.value.0])
    ensures res.Some? && SkyIndex(sections, filled, nodes) ==> SkyIndex(sections', filled', nodes')
  {
    SectionOfInBounds(star.x, star.y);
    var sectionX, sectionY := SectionColumn(star.x), SectionRow(star.y);
    if sectionX < 0 || sectionX >= SKY_WIDTH_SECTIONS || sectionY < 0 || sectionY >= SKY_HEIGHT_SECTIONS {
      return None, sections, filled, nodes;
    }
    var s := sectionY * SKY_WIDTH_SECTIONS + sectionX;
    sections' := sections[s := sections[s] + [|nodes|]];
    nodes' := nodes + [StarNode(star)];
    filled' := if s !in filled then filled + [s] else filled;
    res := Some((s, |sections'[s]| - 1));
    if SkyIndex(sections, filled, nodes) {
      AddStarKeepsIndex(star, sections, filled, nodes, s, sections', filled', nodes');
    }
  }

  lemma AddStarKeepsIndex(star: Star, sections: seq<seq<nat>>, filled: seq<nat>, nodes: seq<Node>,
                          s: nat, sections': seq<seq<nat>>, filled': seq<nat>, nodes': seq<Node>)
    requires SkyIndex(sections, filled, nodes)
    requires IsInBounds(star.x, star.y) && s == SectionOf(star.x, star.y) < SECTION_COUNT
    requires sections' == sections[s := sections[s] + [|nodes|]]
    requires nodes' == nodes + [StarNode(star)]
    requires filled' == (if s in filled then filled else filled + [s])
    ensures SkyIndex(sections', filled', nodes')
  {
    AddStarKeepsBuckets(star, sections, nodes, s, sections', nodes');
    AddStarKeepsIndexed(sections, nodes, s, sections', nodes');
    AddStarKeepsFilled(sections, filled, s, |nodes|, sections', filled');
  }

  /** After add_star every bucket entry still names a star of its own section. */
  lemma AddStarKeepsBuckets(star: Star, sections: seq<seq<nat>>, nodes: seq<Node>,
                            s: nat, sections': seq<seq<nat>>, nodes': seq<Node>)
    requires IndexesStars(sections, nodes)
    requires IsInBounds(star.x, star.y) && s == SectionOf(star.x, star.y) < SECTION_COUNT
    requires sections' == sections[s := sections[s] + [|nodes|]]
    requires nodes' == nodes + [StarNode(star)]
    ensures IndexesStars(sections', nodes')
  {
    forall t, k | 0 <= t < |sections'| && 0 <= k < |sections'[t]|
      ensures sections'[t][k] < |nodes'| && nodes'[sections'[t][k]].StarNode?
      ensures StarInSection(nodes'[sections'[t][k]].star, t)
    {
      if t == s && k == |sections[s]| {
        assert sections'[t][k] == |nodes|;
      } else {
        assert sections'[t][k] == sections[t][k];
      }
    }
  }

  /** After add_star every star node, old or new, is recorded in some bucket. */
  lemma AddStarKeepsIndexed(sections: seq<seq<nat>>, nodes: seq<Node>,
                            s: nat, sections': seq<seq<nat>>, nodes': seq<Node>)
    requires forall i :: 0 <= i < |nodes| && nodes[i].StarNode? ==> Indexed(sections, i)
    requires s < |sections| && sections' == sections[s := sections[s] + [|nodes|]]
    requires |nodes'| == |nodes| + 1 && forall i :: 0 <= i < |nodes| ==> nodes'[i] == nodes[i]
    ensures forall i :: 0 <= i < |nodes'| && nodes'[i].StarNode? ==> Indexed(sections', i)
  {
    forall i | 0 <= i < |nodes'| && nodes'[i].StarNode? ensures Indexed(sections', i) {
      if i == |nodes| {
        assert sections'[s][|sections[s]|] == i;
      } else {
        var t, k :| 0 <= t < |sections| && 0 <= k < |sections[t]| && sections[t][k] == i;
        assert sections'[t][k] == i;
      }
    }
  }

  /** After add_star `filled` still lists exactly the non-empty buckets, once each. */
  lemma AddStarKeepsFilled(sections: seq<seq<nat>>, filled: seq<nat>,
                           s: nat, v: nat, sections': seq<seq<nat>>, filled': seq<nat>)
    requires FilledExactly(sections, filled)
    requires s < |sections| && sections' == sections[s := sections[s] + [v]]
    requires filled' == (if s in filled then filled else filled + [s])
    ensures FilledExactly(sections', filled')
  {
    forall t | 0 <= t < |sections'| && |sections'[t]| > 0 ensures t in filled' {
      if t != s { assert |sections[t]| > 0; }
    }
  }

  /** A bucket with the slot of the base star removed. */
  function Kept(bucket: seq<nat>, b: nat): seq<nat>
    requires b < |bucket|
  {
    bucket[..b] + bucket[b + 1..]
  }

  /** The index with the base star (slot b of section s) left out. */
  function Without(sections: seq<seq<nat>>, s: nat, b: nat): seq<seq<nat>>
    requires s < |sections| && b < |sections[s]|
  {
    sections[s := Kept(sections[s], b)]
  }

  /** The entries get_closest_star_idx compares the base star (slot b of section s) with,
      in scan order: every other entry of the surrounding sections. */
  function OtherEntries(sections: seq<seq<nat>>, nodes: seq<Node>, s: nat, b: nat): (os: seq<nat>)
    requires IndexesStars(sections, nodes) && s < SECTION_COUNT && b < |sections[s]|
    ensures AllStars(nodes, os)
  {
    var ns := NeighboringSectionIndices(s);
    NeighboursInGrid(ns, s);
    WithoutIndexesStars(sections, nodes, s, b);
    EntriesAreStars(Without(sections, s, b), nodes, ns, |ns|);
    SectionEntries(Without(sections, s, b), ns, |ns|)
  }

  lemma WithoutIndexesStars(sections: seq<seq<nat>>, nodes: seq<Node>, s: nat, b: nat)
    requires IndexesStars(sections, nodes) && s < SECTION_COUNT && b < |sections[s]|
    ensures IndexesStars(Without(sections, s, b), nodes)
  {
    var w := Without(sections, s, b);
    forall t, k | 0 <= t < |w| && 0 <= k < |w[t]|
      ensures w[t][k] < |nodes| && nodes[w[t][k]].StarNode? && StarInSection(nodes[w[t][k]].star, t)
    {
      if t == s {
        if k < b { assert w[t][k] == sections[s][k]; } else { assert w[t][k] == sections[s][k + 1]; }
      }
    }
  }

  /** Squared distances from (x, y) to the stars named by es, in order. */
  function SqDists(x: int, y: int, nodes: seq<Node>, es: seq<nat>): (sq: seq<nat>)
    requires AllStars(nodes, es)
    ensures |sq| == |es|
  {
    seq(|es|, k requires 0 <= k < |es| => DistSq(x, y, nodes[es[k]].star.x, nodes[es[k]].star.y))
  }

  /** Position of the first of the smallest among the first n values. */
  function FirstMinIndex(ds: seq<nat>, n: nat): (k: nat)
    requires 0 < n <= |ds|
    ensures FirstMinimum(ds, n, k)
  {
    if n == 1 then 0
    else
      var k := FirstMinIndex(ds, n - 1);
      if ds[n - 1] < ds[k] then n - 1 else k
  }

  /** The first of the smallest is unique. */
  lemma FirstMinimumUnique(ds: seq<nat>, n: nat, k: nat, k': nat)
    requires n <= |ds| && FirstMinimum(ds, n, k) && FirstMinimum(ds, n, k')
    ensures k == k'
  {
    assert ds[k] <= ds[k'] && ds[k'] <= ds[k];
  }

  /** The distance get_closest_star_idx reports when there is no other star: the integer
      square root of i32::MAX (see LonelyDistIsRoot). */
  const LONELY_DIST: nat := 46340

  /** LONELY_DIST is isqrt(i32::MAX), and it is far above the preset-link limit. */
  lemma LonelyDistIsRoot()
    ensures Isqrt(I32_MAX) == LONELY_DIST
    ensures LONELY_DIST > STAR_DIST_MAX_FOR_PRESET_LINE
  {
    IsqrtUnique(I32_MAX, LONELY_DIST);
  }

  /** What get_closest_star_idx computes, as a function of the index: the node index and
      integer distance of the first closest other star of the neighbourhood, or node 0 at
      LONELY_DIST when there is none. */
  function ClosestOther(sections: seq<seq<nat>>, nodes: seq<Node>, s: nat, b: nat): (nat, nat)
    requires IndexesStars(sections, nodes) && s < SECTION_COUNT && b < |sections[s]|
  {
    var base := nodes[sections[s][b]].star;
    var os := OtherEntries(sections, nodes, s, b);
    if |os| == 0 then (0, LONELY_DIST)
    else
      var sq := SqDists(base.x, base.y, nodes, os);
      var k := FirstMinIndex(sq, |sq|);
      (os[k], Isqrt(sq[k]))
  }

  /** The closest other star is one of the neighbourhood's stars, and no other star of the
      neighbourhood is closer; with no other star the distance is LONELY_DIST. */
  lemma ClosestOtherIsClosest(sections: seq<seq<nat>>, nodes: seq<Node>, s: nat, b: nat)
    requires IndexesStars(sections, nodes) && s < SECTION_COUNT && b < |sections[s]|
    ensures var base := nodes[sections[s][b]].star;
      var os := OtherEntries(sections, nodes, s, b);
      var c := ClosestOther(sections, nodes, s, b);
      && (|os| == 0 ==> c == (0, LONELY_DIST))
      && (|os| > 0 ==>
            && c.0 in os
            && c.1 == Dist(base.x, base.y, nodes[c.0].star)
            && forall k :: 0 <= k < |os| ==> c.1 <= Dist(base.x, base.y, nodes[os[k]].star))
  {
    var base := nodes[sections[s][b]].star;
    var os := OtherEntries(sections, nodes, s, b);
    if |os| > 0 {
      var sq := SqDists(base.x, base.y, nodes, os);
      var m := FirstMinIndex(sq, |sq|);
      var c := ClosestOther(sections, nodes, s, b);
      assert c == (os[m], Isqrt(sq[m]));
      forall k | 0 <= k < |os| ensures c.1 <= Dist(base.x, base.y, nodes[os[k]].star) {
        assert sq[k] == DistSq(base.x, base.y, nodes[os[k]].star.x, nodes[os[k]].star.y);
        IsqrtMonotone(sq[m], sq[k]);
      }
    }
  }

  lemma IsqrtMonotone(a: nat, b: nat)
    requires a <= b
    ensures Isqrt(a) <= Isqrt(b)
  {
    IsqrtAtLeast(b, Isqrt(a));
  }

  /** ci names the closest of the first n other entries, os[ck], or is 0 before any. */
  predicate Tracked(os: seq<nat>, n: int, ck: int, ci: nat) {
    && (n == 0 ==> ci == 0)
    && (n > 0 ==> 0 <= ck < |os| && ci == os[ck])
  }

  /** `get_closest_star_idx`: scans the other stars of the base star's neighbourhood for the
      smallest squared distance with a strict `<`, starting from i32::MAX, and returns that
      star's node index and the integer root of the distance. */
  method GetClosestStarIdx(sections: seq<seq<nat>>, nodes: seq<Node>, s: nat, b: nat)
    returns (closestIdx: nat, closestDist: nat)
    requires IndexesStars(sections, nodes) && s < SECTION_COUNT && b < |sections[s]|
    ensures (closestIdx, closestDist) == ClosestOther(sections, nodes, s, b)
  {
    var baseStar := nodes[sections[s][b]].star;
    var ns := NeighboringSectionIndices(s);
    NeighboursInGrid(ns, s);
    ghost var w := Without(sections, s, b);
    WithoutIndexesStars(sections, nodes, s, b);
    EntriesAreStars(w, nodes, ns, |ns|);
    ghost var os := SectionEntries(w, ns, |ns|);
    assert os == OtherEntries(sections, nodes, s, b);
    ghost var sq := SqDists(baseStar.x, baseStar.y, nodes, os);
    var closestSq;
    ghost var ck;
    closestIdx, closestSq, ck := ClosestInSections(nodes, baseStar.x, baseStar.y, sections, s, b, ns, w, os, sq);
    closestDist := Isqrt(closestSq);
    if |os| > 0 {
      FirstMinimumUnique(sq, |sq|, ck, FirstMinIndex(sq, |sq|));
    } else {
      IsqrtUnique(closestSq, LONELY_DIST);
    }
  }

  /** The outer loop of get_closest_star_idx over the sections around the base star, which
      sits in slot b of section s; os lists the other entries and sq their squared
      distances. */
  method ClosestInSections(nodes: seq<Node>, baseX: int, baseY: int, sections: seq<seq<nat>>, s: nat, b: nat,
                           ns: seq<nat>, ghost w: seq<seq<nat>>, ghost os: seq<nat>, ghost sq: seq<nat>)
    returns (ci: nat, cd: int, ghost ck: int)
    requires IsInBounds(baseX, baseY)
    requires s < |sections| && b < |sections[s]| && w == Without(sections, s, b)
    requires forall t :: 0 <= t < |ns| ==> ns[t] < |sections|
    requires os == SectionEntries(w, ns, |ns|)
    requires AllStars(nodes, os) && sq == SqDists(baseX, baseY, nodes, os)
    ensures MinState(sq, |os|, cd, ck) && Tracked(os, |os|, ck, ci)
  {
    cd, ci, ck := I32_MAX, 0, 0;
    var i := 0;
    while i < |ns|
      invariant 0 <= i <= |ns|
      invariant MinState(sq, |SectionEntries(w, ns, i)|, cd, ck)
      invariant Tracked(os, |SectionEntries(w, ns, i)|, ck, ci)
    {
      BucketEntries(w, ns, i);
      var isBase := ns[i] == s;
      ci, cd, ck := ClosestInBucket(nodes, baseX, baseY, sections[ns[i]], isBase, b,
                                    w[ns[i]], os, sq, |SectionEntries(w, ns, i)|, ci, cd, ck);
      i := i + 1;
    }
  }

  /** The inner loop of get_closest_star_idx over one bucket, skipping the base star's own
      slot; `kept` is the bucket without that slot, whose entries are os[base..]. */
  method ClosestInBucket(nodes: seq<Node>, baseX: int, baseY: int, bucket: seq<nat>, isBase: bool, b: nat,
                         ghost kept: seq<nat>, ghost os: seq<nat>, ghost sq: seq<nat>, ghost base: nat,
                         ci0: nat, cd0: int, ghost ck0: int)
    returns (ci: nat, cd: int, ghost ck: int)
    requires IsInBounds(baseX, baseY) && AllStars(nodes, os) && sq == SqDists(baseX, baseY, nodes, os)
    requires kept == (if isBase && b < |bucket| then Kept(bucket, b) else bucket)
    requires base + |kept| <= |os|
    requires forall j :: 0 <= j < |kept| ==> os[base + j] == kept[j]
    requires MinState(sq, base, cd0, ck0) && Tracked(os, base, ck0, ci0)
    ensures MinState(sq, base + |kept|, cd, ck) && Tracked(os, base + |kept|, ck, ci)
  {
    ci, cd, ck := ci0, cd0, ck0;
    var j := 0;
    while j < |bucket|
      invariant 0 <= j <= |bucket|
      invariant var n := base + (if isBase && b < j then j - 1 else j);
        MinState(sq, n, cd, ck) && Tracked(os, n, ck, ci)
    {
      if isBase && j == b {
        // the base star itself
        j := j + 1;
        continue;
      }
      ghost var n := base + (if isBase && b < j then j - 1 else j);
      KeptSlot(bucket, isBase, b, kept, j);
      var starIdx := bucket[j];
      var star := nodes[starIdx].star;
      var dx, dy := star.x - baseX, star.y - baseY;
      var distSq := dx * dx + dy * dy;
      assert distSq == sq[n] by {
        DistSqSymmetric(star.x, star.y, baseX, baseY);
      }
      DistSqBelowMax(baseX, baseY, star);
      MinStep(sq, n, cd, ck);
      if distSq < cd {
        cd := distSq;
        ci := starIdx;
        ck := n;
      }
      j := j + 1;
    }
  }

  /** Slot j of a bucket, when it is not the skipped base slot, is entry j of the kept
      entries, or entry j - 1 past the base slot. */
  lemma KeptSlot(bucket: seq<nat>, isBase: bool, b: nat, kept: seq<nat>, j: nat)
    requires kept == (if isBase && b < |bucket| then Kept(bucket, b) else bucket)
    requires j < |bucket| && !(isBase && j == b)
    ensures var m := if isBase && b < j then j - 1 else j; m < |kept| && kept[m] == bucket[j]
  {
  }

  /** Two points of the sky have a squared distance far below i32::MAX. */
  lemma DistSqBelowMax(x: int, y: int, st: Star)
    requires IsInBounds(x, y) && IsInBounds(st.x, st.y)
    ensures DistSq(x, y, st.x, st.y) < I32_MAX
  {
    var dx, dy := x - st.x, y - st.y;
    SquareLess(Abs(dx), SKY_WIDTH);
    SquareLess(Abs(dy), SKY_HEIGHT);
    assert Abs(dx) * Abs(dx) == dx * dx && Abs(dy) * Abs(dy) == dy * dy;
  }

  /** `handle_preset_line` for the star in slot b of section s: nothing happens when its
      closest other star is farther than STAR_DIST_MAX_FOR_PRESET_LINE (always so when it
      has no other star nearby), nor when the traversal from that star reports
      MAX_PRESET_CONSTELLATION_SIZE entries or more. Otherwise one draw is consumed and,
      when `coin` accepts it, one bright link from the closest star to the new star is
      appended. */
  method HandlePresetLine(nodes: seq<Node>, sections: seq<seq<nat>>, s: nat, b: nat, rng: u32, coin: u32 -> bool)
    returns (nodes': seq<Node>, rng': u32)
    requires IndexesStars(sections, nodes) && s < SECTION_COUNT && b < |sections[s]|
    ensures var c := ClosestOther(sections, nodes, s, b);
      c.1 > STAR_DIST_MAX_FOR_PRESET_LINE ==> nodes' == nodes && rng' == rng
    ensures |OtherEntries(sections, nodes, s, b)| == 0 ==> nodes' == nodes && rng' == rng
    ensures var c := ClosestOther(sections, nodes, s, b);
      c.1 <= STAR_DIST_MAX_FOR_PRESET_LINE ==>
        PresetOutcome(nodes, c.0, sections[s][b], rng, coin, nodes', rng')
    ensures nodes' == nodes || nodes' == nodes + [LinkNode(Link(ClosestOther(sections, nodes, s, b).0, sections[s][b], STYLE_BRIGHT))]
    ensures nodes' != nodes ==> ClosestOther(sections, nodes, s, b).1 <= STAR_DIST_MAX_FOR_PRESET_LINE
  {
    var closestIdx, closestDist := GetClosestStarIdx(sections, nodes, s, b);
    if |OtherEntries(sections, nodes, s, b)| == 0 {
      LonelyDistIsRoot();
    }
    if closestDist > STAR_DIST_MAX_FOR_PRESET_LINE {
      return nodes, rng;
    }
    var reachable := GetReachableStarIndices(nodes, closestIdx);
    nodes', rng' := nodes, rng;
    if |reachable| < MAX_PRESET_CONSTELLATION_SIZE {
      var draw;
      rng', draw := NextRandom(rng).0, NextRandom(rng).1;
      if coin(draw) {
        nodes' := nodes + [LinkNode(Link(closestIdx, sections[s][b], STYLE_BRIGHT))];
      }
    }
  }

  /** What handle_preset_line does once the closest star at index c is near enough: when
      the traversal from c reports MAX_PRESET_CONSTELLATION_SIZE entries or more nothing
      changes; otherwise one draw is consumed and the link from c to the new star n is
      appended exactly when `coin` accepts the draw. */
  predicate PresetOutcome(nodes: seq<Node>, c: nat, n: nat, rng: u32, coin: u32 -> bool,
                          nodes': seq<Node>, rng': u32)
  {
    if |Expansion(nodes, Traversal(nodes, c))| >= MAX_PRESET_CONSTELLATION_SIZE then nodes' == nodes && rng' == rng
    else
      && rng' == NextRandom(rng).0
      && nodes' == (if coin(NextRandom(rng).1) then nodes + [LinkNode(Link(c, n, STYLE_BRIGHT))] else nodes)
  }

  /** A closest star without links reports nothing from the traversal, so a near enough
      star is always offered a preset link. */
  lemma UnlinkedStarIsOffered(nodes: seq<Node>, c: nat, n: nat, rng: u32, coin: u32 -> bool,
                              nodes': seq<Node>, rng': u32)
    requires Neighbours(nodes, c) == []
    requires PresetOutcome(nodes, c, n, rng, coin, nodes', rng')
    ensures rng' == NextRandom(rng).0
    ensures coin(NextRandom(rng).1) <==> nodes' == nodes + [LinkNode(Link(c, n, STYLE_BRIGHT))]
  {
    TraversalIsOrder(nodes, c);
    LonelyStartReachesNothing(nodes, c, Traversal(nodes, c));
  }

  /** A closest star linked only to one star that is linked only back to it reports two
      entries, below MAX_PRESET_CONSTELLATION_SIZE, so it is offered a preset link too. */
  lemma PairedStarIsOffered(nodes: seq<Node>, c: nat, d: nat, n: nat, rng: u32, coin: u32 -> bool,
                            nodes': seq<Node>, rng': u32)
    requires c != d && Neighbours(nodes, c) == [d] && Neighbours(nodes, d) == [c]
    requires PresetOutcome(nodes, c, n, rng, coin, nodes', rng')
    ensures rng' == NextRandom(rng).0
    ensures coin(NextRandom(rng).1) <==> nodes' == nodes + [LinkNode(Link(c, n, STYLE_BRIGHT))]
  {
    PairTraversal(nodes, c, d);
  }
}
