/** The stack-based traversal over links of the sky generator's node list
    (`get_reachable_star_indices`, src/util.rs:200-224). */
module Graph {
  import opened Entities

  /** The index a link leads to from idx, as the traversal picks it: its end when idx is
      its start, otherwise its start when idx is its end, otherwise nothing. */
  function FarEnd(l: Link, idx: nat): Option<nat> {
    if l.startIdx == idx then Some(l.endIdx)
    else if l.endIdx == idx then Some(l.startIdx)
    else None
  }

  /** What one node contributes when the traversal expands idx. */
  function Step(n: Node, idx: nat): seq<nat> {
    if n.LinkNode? && FarEnd(n.link, idx).Some? then [FarEnd(n.link, idx).value] else []
  }

  /** The far ends of the links among the first k nodes that are incident to idx, in node
      order, one entry per link. */
  function NeighboursUpTo(nodes: seq<Node>, k: nat, idx: nat): seq<nat>
    requires k <= |nodes|
  {
    if k == 0 then [] else NeighboursUpTo(nodes, k - 1, idx) + Step(nodes[k - 1], idx)
  }

  /** The far ends of all links incident to idx, in node order, one entry per link. */
  function Neighbours(nodes: seq<Node>, idx: nat): seq<nat> {
    NeighboursUpTo(nodes, |nodes|, idx)
  }

  /** Every index some link among the first k nodes touches. */
  function EndpointsUpTo(nodes: seq<Node>, k: nat): set<nat>
    requires k <= |nodes|
  {
    if k == 0 then {}
    else
      var n := nodes[k - 1];
      EndpointsUpTo(nodes, k - 1) + (if n.LinkNode? then {n.link.startIdx, n.link.endIdx} else {})
  }

  function Endpoints(nodes: seq<Node>): set<nat> {
    EndpointsUpTo(nodes, |nodes|)
  }

  /** The traversal's output for a sequence of expanded indices: the neighbours of each,
      concatenated in expansion order. */
  function Expansion(nodes: seq<Node>, order: seq<nat>): seq<nat> {
    if |order| == 0 then [] else Expansion(nodes, order[..|order| - 1]) + Neighbours(nodes, order[|order| - 1])
  }

  function Elems(s: seq<nat>): set<nat> {
    set x | x in s
  }

  /** A neighbour of any index is an endpoint of some link. */
  lemma {:induction false} NeighboursInEndpoints(nodes: seq<Node>, k: nat, idx: nat, b: nat)
    requires k <= |nodes| && b in NeighboursUpTo(nodes, k, idx)
    ensures b in EndpointsUpTo(nodes, k)
  {
    if k > 0 && b in NeighboursUpTo(nodes, k - 1, idx) {
      NeighboursInEndpoints(nodes, k - 1, idx, b);
    }
  }

  /** Links are undirected: b is a neighbour of a exactly when a is a neighbour of b. */
  lemma {:induction false} NeighboursSymmetric(nodes: seq<Node>, k: nat, a: nat, b: nat)
    requires k <= |nodes|
    ensures b in NeighboursUpTo(nodes, k, a) <==> a in NeighboursUpTo(nodes, k, b)
  {
    if k > 0 {
      NeighboursSymmetric(nodes, k - 1, a, b);
    }
  }

  /** Each neighbour of an expanded index appears in the expansion. */
  lemma {:induction false} ExpansionContains(nodes: seq<Node>, order: seq<nat>, a: nat, b: nat)
    requires a in order && b in Neighbours(nodes, a)
    ensures b in Expansion(nodes, order)
  {
    var init := order[..|order| - 1];
    if order[|order| - 1] != a {
      assert a in init;
      ExpansionContains(nodes, init, a, b);
    }
  }

  /** Every entry of the expansion is a neighbour of some expanded index. */
  lemma {:induction false} ExpansionFrom(nodes: seq<Node>, order: seq<nat>, b: nat)
    requires b in Expansion(nodes, order)
    ensures exists a :: a in order && b in Neighbours(nodes, a)
  {
    var init := order[..|order| - 1];
    if b in Expansion(nodes, init) {
      ExpansionFrom(nodes, init, b);
      var a :| a in init && b in Neighbours(nodes, a);
      assert a in order;
    } else {
      assert order[|order| - 1] in order;
    }
  }

  /** A stack position whose index has been expanded has all its not-yet-expanded
      neighbours above it. */
  predicate StackOrdered(nodes: seq<Node>, queue: seq<nat>, seen: seq<nat>) {
    forall p, b :: 0 <= p < |queue| && queue[p] in seen && b in Neighbours(nodes, queue[p]) && b !in seen
      ==> Above(queue, p, b)
  }

  /** b occurs in the stack above position p. */
  predicate Above(queue: seq<nat>, p: nat, b: nat) {
    exists r :: p < r < |queue| && queue[r] == b
  }

  /** The indices the traversal pops, in pop order, after the already expanded `seen`,
      when it continues from the stack `queue` (top last): pop the top, record it as
      expanded and push its not yet expanded neighbours in link order. The measure is the
      outer loop's own. */
  function PopOrder(nodes: seq<Node>, universe: set<nat>, queue: seq<nat>, seen: seq<nat>): (r: seq<nat>)
    requires Endpoints(nodes) <= universe
    requires InUniverse(universe, queue, seen) && StackOrdered(nodes, queue, seen)
    ensures |r| >= |seen| && r[..|seen|] == seen
    ensures |queue| > 0 ==> |r| > |seen| && r[|seen|] == queue[|queue| - 1]
    decreases universe - Elems(seen), |queue|
  {
    if |queue| == 0 then seen
    else
      var top := queue[|queue| - 1];
      var seen' := seen + [top];
      var queue' := queue[..|queue| - 1] + Unexpanded(Neighbours(nodes, top), seen');
      StepUniverse(nodes, universe, queue, seen, queue', seen');
      StepStack(nodes, queue, seen, queue', seen');
      StepMeasure(nodes, universe, queue, seen, queue', seen');
      var r := PopOrder(nodes, universe, queue', seen');
      assert r[..|seen|] == r[..|seen'|][..|seen|];
      r
  }

  /** The order in which `get_reachable_star_indices` pops (and expands) indices when it
      starts from `start`. */
  function Traversal(nodes: seq<Node>, start: nat): seq<nat> {
    PopOrder(nodes, Endpoints(nodes) + {start}, [start], [])
  }

  /** `get_reachable_star_indices`: pops indices off a stack, records each as expanded and,
      for every link incident to it, appends the far end to the result and pushes it unless
      it was already expanded. The result lists, in pop order, one entry per link incident
      to each popped index, so repeats occur. */
  method GetReachableStarIndices(nodes: seq<Node>, start: nat) returns (reachable: seq<nat>)
    ensures reachable == Expansion(nodes, Traversal(nodes, start))
    ensures Neighbours(nodes, start) == [] ==> reachable == []
    ensures Neighbours(nodes, start) != [] ==> start in reachable
  {
    var queue: seq<nat> := [start];
    var seen: seq<nat> := [];
    reachable := [];
    ghost var universe := Endpoints(nodes) + {start};
    while |queue| > 0
      invariant reachable == Expansion(nodes, seen)
      invariant TraversalInvariant(nodes, start, universe, queue, seen)
      invariant PopOrder(nodes, universe, queue, seen) == Traversal(nodes, start)
      decreases universe - Elems(seen), |queue|
    {
      var idx := queue[|queue| - 1];
      ghost var oldQueue, oldSeen := queue, seen;
      queue := queue[..|queue| - 1];
      seen := seen + [idx];
      reachable, queue := ExpandIndex(nodes, idx, seen, reachable, queue);
      assert seen[..|oldSeen|] == oldSeen;
      TraversalStep(nodes, start, universe, oldQueue, oldSeen, queue, seen);
    }
    ClosedWhenDone(nodes, seen);
    if Neighbours(nodes, start) == [] {
      LonelyStartReachesNothing(nodes, start, seen);
    } else {
      StartReachedBack(nodes, start, seen);
    }
  }

  /** What the traversal's expansion order is known to satisfy: it starts at `start`, every
      index after the first was reached through a link from an earlier one, and every
      neighbour of an expanded index is expanded too. */
  predicate IsTraversalOrder(nodes: seq<Node>, start: nat, order: seq<nat>) {
    && |order| >= 1 && order[0] == start
    && SeenFrom(nodes, order)
    && forall a, b :: a in order && b in Neighbours(nodes, a) ==> b in order
  }

  /** The pop order starts at `start`, reaches every later index through a link from an
      earlier one, and is closed under links: it is the start's whole connected
      component. */
  lemma TraversalIsOrder(nodes: seq<Node>, start: nat)
    ensures IsTraversalOrder(nodes, start, Traversal(nodes, start))
  {
    PopOrderIsOrder(nodes, start, Endpoints(nodes) + {start}, [start], []);
  }

  lemma {:induction false} PopOrderIsOrder(nodes: seq<Node>, start: nat, universe: set<nat>, queue: seq<nat>, seen: seq<nat>)
    requires Endpoints(nodes) <= universe
    requires TraversalInvariant(nodes, start, universe, queue, seen)
    ensures IsTraversalOrder(nodes, start, PopOrder(nodes, universe, queue, seen))
    decreases universe - Elems(seen), |queue|
  {
    if |queue| == 0 {
      ClosedWhenDone(nodes, seen);
    } else {
      var top := queue[|queue| - 1];
      var seen' := seen + [top];
      var queue' := queue[..|queue| - 1] + Unexpanded(Neighbours(nodes, top), seen');
      TraversalStep(nodes, start, universe, queue, seen, queue', seen');
      PopOrderIsOrder(nodes, start, universe, queue', seen');
    }
  }

  /** One round of the traversal, as an equation on the pop order: popping the top and
      pushing its unexpanded neighbours leaves the rest of the pop order unchanged. */
  lemma PopOrderStep(nodes: seq<Node>, universe: set<nat>, queue: seq<nat>, seen: seq<nat>, queue': seq<nat>, seen': seq<nat>)
    requires Endpoints(nodes) <= universe
    requires InUniverse(universe, queue, seen) && StackOrdered(nodes, queue, seen)
    requires Expanded(nodes, queue, seen, queue', seen')
    ensures InUniverse(universe, queue', seen') && StackOrdered(nodes, queue', seen')
    ensures PopOrder(nodes, universe, queue, seen) == PopOrder(nodes, universe, queue', seen')
  {
    StepUniverse(nodes, universe, queue, seen, queue', seen');
    StepStack(nodes, queue, seen, queue', seen');
  }

  /** Two stars linked only to each other: the traversal from one pops it and then the
      other, and reports each once. */
  lemma PairTraversal(nodes: seq<Node>, c: nat, d: nat)
    requires c != d && Neighbours(nodes, c) == [d] && Neighbours(nodes, d) == [c]
    ensures Traversal(nodes, c) == [c, d]
    ensures Expansion(nodes, Traversal(nodes, c)) == [d, c]
  {
    var universe := Endpoints(nodes) + {c};
    NeighboursInEndpoints(nodes, |nodes|, c, d);
    FirstPop(nodes, universe, c, d);
    PairPopLast(nodes, universe, c, d);
    ExpansionOfTwo(nodes, c, d);
  }

  /** Popping the start, whose one neighbour is b, pushes b. */
  lemma FirstPop(nodes: seq<Node>, universe: set<nat>, a: nat, b: nat)
    requires Endpoints(nodes) <= universe && a in universe && b in universe
    requires a != b && Neighbours(nodes, a) == [b]
    ensures PopOrder(nodes, universe, [a], []) == PopOrder(nodes, universe, [b], [a])
  {
    assert InUniverse(universe, [a], []) by { assert Elems([a]) == {a}; }
    assert Unexpanded([b], [a]) == [b] by { assert [b][..0] == []; }
    assert [a][..0] + [b] == [b] && [] + [a] == [a];
    PopOrderStep(nodes, universe, [a], [], [b], [a]);
  }

  /** Popping d, linked back to the expanded c only, pushes nothing, and the traversal
      ends. */
  lemma PairPopLast(nodes: seq<Node>, universe: set<nat>, c: nat, d: nat)
    requires Endpoints(nodes) <= universe && c in universe && d in universe
    requires c != d && Neighbours(nodes, d) == [c]
    ensures PopOrder(nodes, universe, [d], [c]) == [c, d]
  {
    assert InUniverse(universe, [d], [c]) by { assert Elems([d]) == {d} && Elems([c]) == {c}; }
    assert Unexpanded([c], [c, d]) == [] by { assert [c][..0] == []; }
    assert [d][..0] + [] == [] && [c] + [d] == [c, d];
    PopOrderStep(nodes, universe, [d], [c], [], [c, d]);
  }

  lemma ExpansionOfTwo(nodes: seq<Node>, a: nat, b: nat)
    ensures Expansion(nodes, [a, b]) == Neighbours(nodes, a) + Neighbours(nodes, b)
  {
    assert [a, b][..1] == [a] && [a][..0] == [];
    assert Expansion(nodes, [a]) == Neighbours(nodes, a);
  }

  /** A chain a - b - c traversed from the end a: a, then b, then c are popped, and every
      link is reported from both of its ends, so b appears twice. */
  lemma ChainTraversal(nodes: seq<Node>, a: nat, b: nat, c: nat)
    requires a != b && b != c && a != c
    requires Neighbours(nodes, a) == [b] && Neighbours(nodes, b) == [a, c] && Neighbours(nodes, c) == [b]
    ensures Traversal(nodes, a) == [a, b, c]
    ensures Expansion(nodes, Traversal(nodes, a)) == [b, a, c, b]
  {
    var universe := Endpoints(nodes) + {a};
    NeighboursInEndpoints(nodes, |nodes|, a, b);
    NeighboursInEndpoints(nodes, |nodes|, b, c);
    FirstPop(nodes, universe, a, b);
    ChainPopB(nodes, universe, a, b, c);
    ChainPopC(nodes, universe, a, b, c);
    ExpansionOfThree(nodes, a, b, c);
  }

  lemma ExpansionOfThree(nodes: seq<Node>, a: nat, b: nat, c: nat)
    ensures Expansion(nodes, [a, b, c]) == Neighbours(nodes, a) + Neighbours(nodes, b) + Neighbours(nodes, c)
  {
    assert [a, b, c][..2] == [a, b];
    ExpansionOfTwo(nodes, a, b);
  }

  /** Popping the middle b pushes c only, a being expanded already. */
  lemma ChainPopB(nodes: seq<Node>, universe: set<nat>, a: nat, b: nat, c: nat)
    requires Endpoints(nodes) <= universe && a in universe && b in universe && c in universe
    requires a != b && b != c && a != c && Neighbours(nodes, b) == [a, c]
    ensures PopOrder(nodes, universe, [b], [a]) == PopOrder(nodes, universe, [c], [a, b])
  {
    assert InUniverse(universe, [b], [a]) by { assert Elems([b]) == {b} && Elems([a]) == {a}; }
    assert Unexpanded([a, c], [a, b]) == [c] by {
      assert [a, c][..1] == [a] && [a][..0] == [];
      assert Unexpanded([a], [a, b]) == [];
    }
    assert [b][..0] + [c] == [c] && [a] + [b] == [a, b];
    PopOrderStep(nodes, universe, [b], [a], [c], [a, b]);
  }

  /** Popping the other end c pushes nothing, and the traversal ends. */
  lemma ChainPopC(nodes: seq<Node>, universe: set<nat>, a: nat, b: nat, c: nat)
    requires Endpoints(nodes) <= universe && a in universe && b in universe && c in universe
    requires a != b && b != c && a != c && Neighbours(nodes, c) == [b]
    ensures PopOrder(nodes, universe, [c], [a, b]) == [a, b, c]
  {
    assert InUniverse(universe, [c], [a, b]) by { assert Elems([c]) == {c} && Elems([a, b]) == {a, b}; }
    assert Unexpanded([b], [a, b, c]) == [] by { assert [b][..0] == []; }
    assert [c][..0] + [] == [] && [a, b] + [c] == [a, b, c];
    PopOrderStep(nodes, universe, [c], [a, b], [], [a, b, c]);
  }

  /** Three stars with the links A - B and B - C. */
  const Chain: seq<Node> := [StarNode(Star(0, 0, true)), StarNode(Star(20, 0, true)), StarNode(Star(40, 0, true)),
                             LinkNode(Link(0, 1, STYLE_BRIGHT)), LinkNode(Link(1, 2, STYLE_BRIGHT))]

  /** The traversal of the three-star chain from A reports [B, A, C, B]. */
  lemma ChainExample()
    ensures Expansion(Chain, Traversal(Chain, 0)) == [1, 0, 2, 1]
  {
    forall i ensures NeighboursUpTo(Chain, 3, i) == [] {
      assert NeighboursUpTo(Chain, 1, i) == [];
      assert NeighboursUpTo(Chain, 2, i) == [];
    }
    assert NeighboursUpTo(Chain, 4, 0) == [1] && NeighboursUpTo(Chain, 4, 1) == [0] && NeighboursUpTo(Chain, 4, 2) == [];
    ChainTraversal(Chain, 0, 1, 2);
  }

  /** With the stack empty, every neighbour of an expanded index is expanded. */
  lemma ClosedWhenDone(nodes: seq<Node>, order: seq<nat>)
    requires Closed(nodes, [], order)
    ensures forall a, b :: a in order && b in Neighbours(nodes, a) ==> b in order
  {
  }

  /** The `for line in ...` pass over the node list for one popped index: appends the far
      end of every incident link to `reachable`, and pushes it onto `queue` unless it is
      already expanded. */
  method ExpandIndex(nodes: seq<Node>, idx: nat, seen: seq<nat>, reachable0: seq<nat>, queue0: seq<nat>)
    returns (reachable: seq<nat>, queue: seq<nat>)
    ensures reachable == reachable0 + Neighbours(nodes, idx)
    ensures queue == queue0 + Unexpanded(Neighbours(nodes, idx), seen)
  {
    reachable, queue := reachable0, queue0;
    var k := 0;
    while k < |nodes|
      invariant 0 <= k <= |nodes|
      invariant reachable == reachable0 + NeighboursUpTo(nodes, k, idx)
      invariant queue == queue0 + Unexpanded(NeighboursUpTo(nodes, k, idx), seen)
    {
      ghost var r, q := reachable, queue;
      reachable, queue := VisitNode(nodes[k], idx, seen, reachable, queue);
      ExpandOne(nodes, k, idx, seen, reachable0, queue0, r, q, reachable, queue);
      k := k + 1;
    }
  }

  /** The body of the inner loop for one node: a link incident to idx contributes its far
      end, which is also pushed unless it was expanded already. */
  method VisitNode(node: Node, idx: nat, seen: seq<nat>, reachable0: seq<nat>, queue0: seq<nat>)
    returns (reachable: seq<nat>, queue: seq<nat>)
    ensures reachable == reachable0 + Step(node, idx)
    ensures queue == queue0 + (if Step(node, idx) != [] && Step(node, idx)[0] !in seen then Step(node, idx) else [])
  {
    reachable, queue := reachable0, queue0;
    if node.LinkNode? {
      var next := FarEnd(node.link, idx);
      if next.Some? {
        reachable := reachable + [next.value];
        if next.value !in seen {
          queue := queue + [next.value];
        }
      }
    }
  }

  /** When more than one index was expanded, the first one has a link. */
  lemma FirstExpansionReaches(nodes: seq<Node>, order: seq<nat>)
    requires |order| > 1 && SeenFrom(nodes, order)
    ensures Neighbours(nodes, order[0]) != []
  {
    assert ReachedWithin(nodes, order, 1, order[1]);
  }

  /** A traversal from an index without links expands only that index and returns
      nothing. */
  lemma LonelyStartReachesNothing(nodes: seq<Node>, start: nat, order: seq<nat>)
    requires |order| >= 1 && order[0] == start && SeenFrom(nodes, order)
    requires Neighbours(nodes, start) == []
    ensures Expansion(nodes, order) == []
  {
    if |order| > 1 {
      FirstExpansionReaches(nodes, order);
    }
    assert order[..0] == [];
  }

  /** A traversal that is closed under links lists its start among its results as soon as
      the start has a link: each link is followed in both directions. */
  lemma StartReachedBack(nodes: seq<Node>, start: nat, order: seq<nat>)
    requires |order| >= 1 && order[0] == start
    requires forall a, b :: a in order && b in Neighbours(nodes, a) ==> b in order
    requires Neighbours(nodes, start) != []
    ensures start in Expansion(nodes, order)
  {
    var b := Neighbours(nodes, start)[0];
    assert start in order && b in Neighbours(nodes, start);
    NeighboursSymmetric(nodes, |nodes|, start, b);
    ExpansionContains(nodes, order, b, start);
  }

  /** Expanded and stacked indices stay within a fixed finite set. */
  predicate InUniverse(universe: set<nat>, queue: seq<nat>, seen: seq<nat>) {
    Elems(seen) <= universe && Elems(queue) <= universe
  }

  /** The traversal starts from `start`: it is the only stacked index before any expansion,
      and the first one expanded. */
  predicate Rooted(start: nat, queue: seq<nat>, seen: seq<nat>) {
    && (|seen| == 0 ==> queue == [start])
    && (|seen| > 0 ==> seen[0] == start)
  }

  /** Every neighbour of an expanded index is expanded or still on the stack. */
  predicate Closed(nodes: seq<Node>, queue: seq<nat>, seen: seq<nat>) {
    forall a, b :: a in seen && b in Neighbours(nodes, a) ==> b in seen || b in queue
  }

  /** q is a neighbour of one of the first n expanded indices. */
  predicate ReachedWithin(nodes: seq<Node>, seen: seq<nat>, n: nat, q: nat)
    requires n <= |seen|
  {
    exists j :: 0 <= j < n && q in Neighbours(nodes, seen[j])
  }

  /** Every expanded index after the first was reached through a link from an earlier one. */
  predicate SeenFrom(nodes: seq<Node>, seen: seq<nat>) {
    forall i :: 0 < i < |seen| ==> ReachedWithin(nodes, seen, i, seen[i])
  }

  /** Once anything is expanded, every stacked index was reached through a link from an
      expanded one. */
  predicate QueueFrom(nodes: seq<Node>, queue: seq<nat>, seen: seq<nat>) {
    |seen| > 0 ==> forall q :: q in queue ==> ReachedWithin(nodes, seen, |seen|, q)
  }

  /** The traversal's outer-loop invariant. */
  predicate TraversalInvariant(nodes: seq<Node>, start: nat, universe: set<nat>, queue: seq<nat>, seen: seq<nat>) {
    && InUniverse(universe, queue, seen)
    && Rooted(start, queue, seen)
    && StackOrdered(nodes, queue, seen)
    && Closed(nodes, queue, seen)
    && SeenFrom(nodes, seen)
    && QueueFrom(nodes, queue, seen)
  }

  /** The entries of ns not yet expanded, in order: what the traversal pushes. */
  function Unexpanded(ns: seq<nat>, seen: seq<nat>): seq<nat> {
    if |ns| == 0 then []
    else Unexpanded(ns[..|ns| - 1], seen) + (if ns[|ns| - 1] in seen then [] else [ns[|ns| - 1]])
  }

  lemma {:induction false} UnexpandedMembers(ns: seq<nat>, seen: seq<nat>)
    ensures forall q :: q in Unexpanded(ns, seen) <==> q in ns && q !in seen
  {
    if |ns| > 0 {
      var init := ns[..|ns| - 1];
      UnexpandedMembers(init, seen);
      assert ns == init + [ns[|ns| - 1]];
    }
  }

  lemma {:induction false} UnexpandedEmpty(ns: seq<nat>, seen: seq<nat>)
    requires forall q :: q in ns ==> q in seen
    ensures Unexpanded(ns, seen) == []
  {
    if |ns| > 0 {
      var init := ns[..|ns| - 1];
      assert forall q :: q in init ==> q in ns;
      UnexpandedEmpty(init, seen);
      assert ns[|ns| - 1] in ns;
    }
  }

  /** The state after one pop-and-expand round: the top index moved from the stack to the
      expanded list, and its unexpanded neighbours were pushed in link order. */
  predicate Expanded(nodes: seq<Node>, oldQueue: seq<nat>, oldSeen: seq<nat>, queue: seq<nat>, seen: seq<nat>) {
    && |oldQueue| > 0
    && seen == oldSeen + [oldQueue[|oldQueue| - 1]]
    && queue == oldQueue[..|oldQueue| - 1] + Unexpanded(Neighbours(nodes, seen[|oldSeen|]), seen)
  }

  /** The pushed part of the stack holds exactly the unexpanded neighbours of the popped index. */
  lemma ExpandedPushes(nodes: seq<Node>, oldQueue: seq<nat>, oldSeen: seq<nat>, queue: seq<nat>, seen: seq<nat>)
    requires Expanded(nodes, oldQueue, oldSeen, queue, seen)
    ensures var base := oldQueue[..|oldQueue| - 1];
      && |queue| >= |base| && queue[..|base|] == base
      && (forall q :: q in queue[|base|..] ==> q in Neighbours(nodes, seen[|oldSeen|]) && q !in seen)
      && (forall b :: b in Neighbours(nodes, seen[|oldSeen|]) && b !in seen ==> b in queue[|base|..])
  {
    var base := oldQueue[..|oldQueue| - 1];
    UnexpandedMembers(Neighbours(nodes, seen[|oldSeen|]), seen);
    assert queue[|base|..] == Unexpanded(Neighbours(nodes, seen[|oldSeen|]), seen);
  }

  /** One pop-and-expand round keeps the invariant and shrinks the measure: either a new
      index became expanded, or an already expanded index was popped and nothing pushed. */
  lemma TraversalStep(nodes: seq<Node>, start: nat, universe: set<nat>,
                      oldQueue: seq<nat>, oldSeen: seq<nat>, queue: seq<nat>, seen: seq<nat>)
    requires Endpoints(nodes) <= universe
    requires TraversalInvariant(nodes, start, universe, oldQueue, oldSeen)
    requires Expanded(nodes, oldQueue, oldSeen, queue, seen)
    ensures TraversalInvariant(nodes, start, universe, queue, seen)
    ensures universe - Elems(seen) < universe - Elems(oldSeen)
      || (universe - Elems(seen) == universe - Elems(oldSeen) && |queue| < |oldQueue|)
  {
    StepUniverse(nodes, universe, oldQueue, oldSeen, queue, seen);
    StepStack(nodes, oldQueue, oldSeen, queue, seen);
    StepClosure(nodes, oldQueue, oldSeen, queue, seen);
    StepProvenance(nodes, start, oldQueue, oldSeen, queue, seen);
    StepMeasure(nodes, universe, oldQueue, oldSeen, queue, seen);
  }

  lemma StepUniverse(nodes: seq<Node>, universe: set<nat>,
                     oldQueue: seq<nat>, oldSeen: seq<nat>, queue: seq<nat>, seen: seq<nat>)
    requires Endpoints(nodes) <= universe
    requires InUniverse(universe, oldQueue, oldSeen)
    requires Expanded(nodes, oldQueue, oldSeen, queue, seen)
    ensures InUniverse(universe, queue, seen)
  {
    ExpandedPushes(nodes, oldQueue, oldSeen, queue, seen);
    var n := |oldQueue| - 1;
    var idx, base := oldQueue[n], oldQueue[..n];
    assert idx in oldQueue;
    forall q | q in queue ensures q in universe {
      var p :| 0 <= p < |queue| && queue[p] == q;
      if p >= |base| {
        assert queue[p] in queue[|base|..];
        NeighboursInEndpoints(nodes, |nodes|, idx, q);
      } else {
        assert queue[p] == base[p] == oldQueue[p];
      }
    }
  }

  lemma StepStack(nodes: seq<Node>, oldQueue: seq<nat>, oldSeen: seq<nat>, queue: seq<nat>, seen: seq<nat>)
    requires StackOrdered(nodes, oldQueue, oldSeen)
    requires Expanded(nodes, oldQueue, oldSeen, queue, seen)
    ensures StackOrdered(nodes, queue, seen)
  {
    ExpandedPushes(nodes, oldQueue, oldSeen, queue, seen);
    var n := |oldQueue| - 1;
    forall r | n <= r < |queue| ensures queue[r] !in seen {
      assert queue[r] in queue[n..];
    }
    forall p, b | 0 <= p < |queue| && queue[p] in seen && b in Neighbours(nodes, queue[p]) && b !in seen
      ensures Above(queue, p, b)
    {
      assert p < n && queue[p] == oldQueue[p];
      if queue[p] in oldSeen {
        StackKeepsOld(nodes, oldQueue, oldSeen, queue, seen, p, b);
      } else {
        assert queue[p] == seen[|oldSeen|];
        StackPushedAbove(nodes, oldQueue, oldSeen, queue, seen, p, b);
      }
    }
  }

  /** An index that was above an expanded position, and is still unexpanded, was not the
      popped top, so it is still above that position. */
  lemma StackKeepsOld(nodes: seq<Node>, oldQueue: seq<nat>, oldSeen: seq<nat>, queue: seq<nat>, seen: seq<nat>,
                      p: nat, b: nat)
    requires StackOrdered(nodes, oldQueue, oldSeen)
    requires Expanded(nodes, oldQueue, oldSeen, queue, seen)
    requires p < |oldQueue| - 1 && oldQueue[p] in oldSeen && b in Neighbours(nodes, oldQueue[p]) && b !in seen
    ensures Above(queue, p, b)
  {
    var n := |oldQueue| - 1;
    assert Above(oldQueue, p, b);
    var r :| p < r < |oldQueue| && oldQueue[r] == b;
    assert r != n && queue[r] == b;
  }

  /** An unexpanded neighbour of the popped index was pushed, above every remaining
      position. */
  lemma StackPushedAbove(nodes: seq<Node>, oldQueue: seq<nat>, oldSeen: seq<nat>, queue: seq<nat>, seen: seq<nat>,
                         p: nat, b: nat)
    requires Expanded(nodes, oldQueue, oldSeen, queue, seen)
    requires p < |oldQueue| - 1 && b in Neighbours(nodes, seen[|oldSeen|]) && b !in seen
    ensures Above(queue, p, b)
  {
    ExpandedPushes(nodes, oldQueue, oldSeen, queue, seen);
    var n := |oldQueue| - 1;
    assert b in queue[n..];
    var k :| 0 <= k < |queue[n..]| && queue[n..][k] == b;
    assert queue[n + k] == b;
  }

  lemma StepClosure(nodes: seq<Node>, oldQueue: seq<nat>, oldSeen: seq<nat>, queue: seq<nat>, seen: seq<nat>)
    requires Closed(nodes, oldQueue, oldSeen)
    requires Expanded(nodes, oldQueue, oldSeen, queue, seen)
    ensures Closed(nodes, queue, seen)
  {
    forall a, b | a in seen && b in Neighbours(nodes, a) ensures b in seen || b in queue {
      if b !in seen {
        if a == seen[|oldSeen|] {
          ExpandedPushes(nodes, oldQueue, oldSeen, queue, seen);
          assert b in queue[|oldQueue| - 1..];
        } else {
          ClosureKeepsOld(nodes, oldQueue, oldSeen, queue, seen, a, b);
        }
      }
    }
  }

  /** An unexpanded neighbour of an index expanded earlier was on the stack below the
      popped top, so it is still there. */
  lemma ClosureKeepsOld(nodes: seq<Node>, oldQueue: seq<nat>, oldSeen: seq<nat>, queue: seq<nat>, seen: seq<nat>,
                        a: nat, b: nat)
    requires Closed(nodes, oldQueue, oldSeen)
    requires Expanded(nodes, oldQueue, oldSeen, queue, seen)
    requires a in oldSeen && b in Neighbours(nodes, a) && b !in seen
    ensures b in queue
  {
    var n := |oldQueue| - 1;
    assert b in oldQueue && b != oldQueue[n];
    var r :| 0 <= r < |oldQueue| && oldQueue[r] == b;
    assert queue[r] == b;
  }

  lemma StepProvenance(nodes: seq<Node>, start: nat,
                       oldQueue: seq<nat>, oldSeen: seq<nat>, queue: seq<nat>, seen: seq<nat>)
    requires Rooted(start, oldQueue, oldSeen) && SeenFrom(nodes, oldSeen) && QueueFrom(nodes, oldQueue, oldSeen)
    requires Expanded(nodes, oldQueue, oldSeen, queue, seen)
    ensures Rooted(start, queue, seen) && SeenFrom(nodes, seen) && QueueFrom(nodes, queue, seen)
  {
    assert seen[0] == start by {
      if |oldSeen| > 0 { assert seen[0] == oldSeen[0]; }
    }
    StepSeenFrom(nodes, oldQueue, oldSeen, seen);
    StepQueueFrom(nodes, start, oldQueue, oldSeen, queue, seen);
  }

  lemma StepSeenFrom(nodes: seq<Node>, oldQueue: seq<nat>, oldSeen: seq<nat>, seen: seq<nat>)
    requires |oldQueue| > 0 && seen == oldSeen + [oldQueue[|oldQueue| - 1]]
    requires SeenFrom(nodes, oldSeen) && QueueFrom(nodes, oldQueue, oldSeen)
    ensures SeenFrom(nodes, seen)
  {
    var idx := oldQueue[|oldQueue| - 1];
    assert idx in oldQueue;
    forall i | 0 < i < |seen| ensures ReachedWithin(nodes, seen, i, seen[i]) {
      if i < |oldSeen| {
        assert ReachedWithin(nodes, oldSeen, i, oldSeen[i]);
        var j :| 0 <= j < i && oldSeen[i] in Neighbours(nodes, oldSeen[j]);
        assert seen[i] == oldSeen[i] && seen[j] == oldSeen[j];
      } else {
        assert i == |oldSeen| && seen[i] == idx;
        assert ReachedWithin(nodes, oldSeen, |oldSeen|, idx);
        var j :| 0 <= j < |oldSeen| && idx in Neighbours(nodes, oldSeen[j]);
        assert seen[j] == oldSeen[j];
      }
    }
  }

  lemma StepQueueFrom(nodes: seq<Node>, start: nat, oldQueue: seq<nat>, oldSeen: seq<nat>, queue: seq<nat>, seen: seq<nat>)
    requires Rooted(start, oldQueue, oldSeen) && QueueFrom(nodes, oldQueue, oldSeen)
    requires Expanded(nodes, oldQueue, oldSeen, queue, seen)
    ensures QueueFrom(nodes, queue, seen)
  {
    ExpandedPushes(nodes, oldQueue, oldSeen, queue, seen);
    var n := |oldQueue| - 1;
    var base := oldQueue[..n];
    assert |oldSeen| == 0 ==> |base| == 0;
    forall q | q in queue ensures ReachedWithin(nodes, seen, |seen|, q) {
      var p :| 0 <= p < |queue| && queue[p] == q;
      if p < |base| {
        assert q == oldQueue[p] && oldQueue[p] in oldQueue;
        assert ReachedWithin(nodes, oldSeen, |oldSeen|, q);
        var j :| 0 <= j < |oldSeen| && q in Neighbours(nodes, oldSeen[j]);
        assert seen[j] == oldSeen[j];
      } else {
        assert q in queue[|base|..];
        assert q in Neighbours(nodes, seen[|oldSeen|]);
      }
    }
  }

  lemma StepMeasure(nodes: seq<Node>, universe: set<nat>,
                    oldQueue: seq<nat>, oldSeen: seq<nat>, queue: seq<nat>, seen: seq<nat>)
    requires InUniverse(universe, oldQueue, oldSeen) && StackOrdered(nodes, oldQueue, oldSeen)
    requires Expanded(nodes, oldQueue, oldSeen, queue, seen)
    ensures universe - Elems(seen) < universe - Elems(oldSeen)
      || (universe - Elems(seen) == universe - Elems(oldSeen) && |queue| < |oldQueue|)
  {
    var n := |oldQueue| - 1;
    var idx, base := oldQueue[n], oldQueue[..n];
    assert idx in oldQueue;
    ElemsSnoc(oldSeen, idx);
    if idx in oldSeen {
      forall b | b in Neighbours(nodes, idx) ensures b in seen {
        StackTop(nodes, oldQueue, oldSeen, b);
      }
      UnexpandedEmpty(Neighbours(nodes, idx), seen);
    } else {
      assert idx in universe - Elems(oldSeen);
    }
  }

  /** The top of an ordered stack, once expanded, has no unexpanded neighbour. */
  lemma StackTop(nodes: seq<Node>, queue: seq<nat>, seen: seq<nat>, b: nat)
    requires |queue| > 0 && StackOrdered(nodes, queue, seen)
    requires queue[|queue| - 1] in seen && b in Neighbours(nodes, queue[|queue| - 1])
    ensures b in seen
  {
  }

  lemma ElemsSnoc(s: seq<nat>, x: nat)
    ensures Elems(s + [x]) == Elems(s) + {x}
  {
    assert forall y :: y in s + [x] <==> y in s || y == x;
  }

  /** The inner loop's invariant survives one more node. */
  lemma ExpandOne(nodes: seq<Node>, k: nat, idx: nat, seen: seq<nat>,
                  reachable0: seq<nat>, queue0: seq<nat>, r: seq<nat>, q: seq<nat>, r': seq<nat>, q': seq<nat>)
    requires k < |nodes|
    requires r == reachable0 + NeighboursUpTo(nodes, k, idx)
    requires q == queue0 + Unexpanded(NeighboursUpTo(nodes, k, idx), seen)
    requires r' == r + Step(nodes[k], idx)
    requires q' == q + (if Step(nodes[k], idx) != [] && Step(nodes[k], idx)[0] !in seen then Step(nodes[k], idx) else [])
    ensures r' == reachable0 + NeighboursUpTo(nodes, k + 1, idx)
    ensures q' == queue0 + Unexpanded(NeighboursUpTo(nodes, k + 1, idx), seen)
  {
    var ns, st := NeighboursUpTo(nodes, k, idx), Step(nodes[k], idx);
    var pushed := if st != [] && st[0] !in seen then st else [];
    NeighboursSnoc(nodes, k, idx, seen);
    AppendAssoc(reachable0, ns, st);
    AppendAssoc(queue0, Unexpanded(ns, seen), pushed);
  }

  lemma AppendAssoc(a: seq<nat>, b: seq<nat>, c: seq<nat>)
    ensures (a + b) + c == a + (b + c)
  {
  }

  /** Expanding idx over one more node appends that node's contribution, and pushes it
      when it is not yet expanded. */
  lemma NeighboursSnoc(nodes: seq<Node>, k: nat, idx: nat, seen: seq<nat>)
    requires k < |nodes|
    ensures NeighboursUpTo(nodes, k + 1, idx) == NeighboursUpTo(nodes, k, idx) + Step(nodes[k], idx)
    ensures Unexpanded(NeighboursUpTo(nodes, k + 1, idx), seen)
      == Unexpanded(NeighboursUpTo(nodes, k, idx), seen)
         + (if Step(nodes[k], idx) != [] && Step(nodes[k], idx)[0] !in seen then Step(nodes[k], idx) else [])
  {
    var ns, st := NeighboursUpTo(nodes, k, idx), Step(nodes[k], idx);
    if st == [] {
      assert ns + st == ns;
    } else {
      assert ns + st == ns + [st[0]];
      assert (ns + st)[..|ns|] == ns;
    }
  }
}
