/**
  Weighted enumeration of simple paths (graph/src/petgraph/algorithm.rs).

  `Query` is one call of `all_simple_paths_multi`; `PathIterator` is the closure it returns,
  with the closure's three parallel stacks as fields.  A path is identified by the arcs it
  takes, so parallel edges give different paths over the same nodes, as in the source.
 */
module SimplePaths {
  import opened Wrappers
  import opened Distinct

  /** The search is generic over the graph's node type, its edge weights and the cost. */
  type Node(==,!new)
  type Weight(==,!new)
  type Cost(!new)

  /** One outgoing edge as the traversal sees it. */
  datatype Arc = Arc(id: nat, target: Node, weight: Weight)

  /** A path by the arcs it takes, last arc outermost. */
  datatype Path = Source | Step(prev: Path, arc: Arc)
  {
    function Hops(): nat {
      if Source? then 0 else prev.Hops() + 1
    }

    /** The arcs of the path, first one first. */
    function Arcs(): seq<Arc> {
      if Source? then [] else prev.Arcs() + [arc]
    }

    /** `this` is `s` or what is left of `s` without some of its last arcs. */
    ghost predicate IsPrefixOf(s: Path) {
      this == s || (s.Step? && IsPrefixOf(s.prev))
    }

    /** `s` goes on from `this` through one of `edges`. */
    ghost predicate Continues(edges: seq<Arc>, s: Path) {
      exists e :: e in edges && Step(this, e).IsPrefixOf(s)
    }
  }

  /** The arguments of a search.

      `order(p)` is the order in which the shuffle delivers the out-edges of the node `p` leads
      to.  Every path is expanded at most once, so one such function stands for every outcome of
      the random generator.  */
  datatype Query = Query(
    nodes: set<Node>,
    out: Node -> seq<Arc>,
    from: Node,
    to: set<Node>,
    excluded: Option<set<Node>>,
    minIntermediate: nat,
    maxIntermediate: Option<nat>,
    initialCost: Cost,
    minCost: Option<Cost>,
    costFn: (Cost, Weight, nat) -> Cost,
    less: (Cost, Cost) -> bool,
    order: Path -> seq<Arc>)
  {
    /** What petgraph guarantees: edges stay inside the graph, an adjacency list names an edge
        once, and shuffling only permutes. */
    ghost predicate Valid() {
      && from in nodes
      && (forall n, a :: a in out(n) ==> n in nodes && a.target in nodes)
      && (forall n :: NoDuplicates(out(n)))
      && (forall p :: multiset(order(p)) == multiset(out(End(p))))
    }

    /** The node that `p` leads to. */
    function End(p: Path): Node {
      if p.Source? then from else p.arc.target
    }

    /** The nodes of the path, source first. */
    function NodesOf(p: Path): seq<Node> {
      if p.Source? then [from] else NodesOf(p.prev) + [p.arc.target]
    }

    /** Left fold of the cost function over the arcs and their 0-based positions. */
    function CostOf(p: Path): Cost {
      if p.Source? then initialCost else costFn(CostOf(p.prev), p.arc.weight, p.prev.Hops())
    }

    /** The costs of all prefixes of the path, shortest first. */
    function CostsOf(p: Path): seq<Cost> {
      (if p.Source? then [] else CostsOf(p.prev)) + [CostOf(p)]
    }

    predicate Below(c: Cost) {
      minCost.Some? && less(c, minCost.value)
    }

    predicate IsExcluded(n: Node) {
      excluded.Some? && n in excluded.value
    }

    function MaxNodes(): nat {
      if maxIntermediate.Some? then maxIntermediate.value + 2 else |nodes|
    }

    function MinNodes(): nat {
      minIntermediate + 2
    }

    function Item(p: Path): (seq<Node>, Cost) {
      (NodesOf(p), CostOf(p))
    }

    // ----- What the search is for -----

    /** Every arc of `p` is an edge out of the node reached before it. */
    ghost predicate IsWalk(p: Path) {
      p.Source? || (IsWalk(p.prev) && p.arc in out(End(p.prev)))
    }

    /** `p` enters no excluded node; the source does not count. */
    ghost predicate AvoidsExcluded(p: Path) {
      p.Source? || (AvoidsExcluded(p.prev) && !IsExcluded(p.arc.target))
    }

    /** No prefix of `p` with at least one arc costs less than the threshold. */
    ghost predicate StaysAffordable(p: Path) {
      p.Source? || (StaysAffordable(p.prev) && !Below(CostOf(p)))
    }

    ghost predicate IsBranch(p: Path) {
      IsWalk(p) && NoDuplicates(NodesOf(p)) && AvoidsExcluded(p) && StaysAffordable(p)
    }

    /** The paths the documentation promises: branches that end in a target and have the
        requested number of intermediate nodes. */
    ghost predicate IsSolution(p: Path) {
      && p.Step?
      && IsBranch(p)
      && End(p) in to
      && minIntermediate <= p.Hops() - 1
      && (maxIntermediate.Some? ==> p.Hops() - 1 <= maxIntermediate.value)
    }

    /** Following `arcs` from the source visits `nodes`, at the costs `costs` so far. */
    ghost predicate IsTrace(arcs: seq<Arc>, nodes: seq<Node>, costs: seq<Cost>) {
      && |nodes| == |costs| == |arcs| + 1
      && nodes[0] == from && costs[0] == initialCost
      && forall i :: 0 <= i < |arcs| ==>
           && arcs[i] in out(nodes[i]) && nodes[i + 1] == arcs[i].target
           && costs[i + 1] == costFn(costs[i], arcs[i].weight, i)
    }

    /** The same promise about a trace, in the arguments of the search alone: it ends in a target,
        visits no node twice and, after the source, no excluded one, is nowhere below the minimum
        cost after the source, and has between the minimum and the maximum of nodes in between. */
    ghost predicate IsAnswer(arcs: seq<Arc>, nodes: seq<Node>, costs: seq<Cost>) {
      && IsTrace(arcs, nodes, costs)
      && NoDuplicates(nodes) && nodes[|arcs|] in to
      && (excluded.Some? ==> forall i :: 0 < i <= |arcs| ==> nodes[i] !in excluded.value)
      && (minCost.Some? ==> forall i :: 0 < i <= |arcs| ==> !less(costs[i], minCost.value))
      && minIntermediate + 2 <= |nodes|
      && (maxIntermediate.Some? ==> |nodes| <= maxIntermediate.value + 2)
    }

    /** `item` is what a caller gets for the path along `arcs`. */
    ghost predicate Answers(arcs: seq<Arc>, item: (seq<Node>, Cost)) {
      exists costs :: IsAnswer(arcs, item.0, costs) && costs[|arcs|] == item.1
    }

    // ----- What the search does -----

    /** Whether the search refuses to follow `e` from the end of `p`. */
    predicate Pruned(p: Path, e: Arc) {
      e.target in NodesOf(p) || IsExcluded(e.target) || Below(CostOf(Step(p, e)))
    }

    predicate Hits(p: Path, e: Arc) {
      e.target in to && |NodesOf(p)| + 1 >= MinNodes()
    }

    predicate Expands(p: Path, e: Arc) {
      |NodesOf(p)| < MaxNodes() - 1 && exists n :: n in to && n != e.target && n !in NodesOf(p)
    }

    /** The path yielded as soon as `e` is followed, if any. */
    function Found(p: Path, e: Arc): seq<Path> {
      if !Pruned(p, e) && Hits(p, e) then [Step(p, e)] else []
    }

    predicate Enters(p: Path, e: Arc) {
      !Pruned(p, e) && Expands(p, e)
    }

    /** The paths yielded while the search works through `edges` at the end of `p`. */
    function Explore(p: Path, edges: seq<Arc>): seq<Path>
      decreases MaxNodes() - |NodesOf(p)|, |edges|
    {
      if edges == [] then [] else Visit(p, edges[0]) + Explore(p, edges[1..])
    }

    /** The paths yielded on account of following `e` from the end of `p`. */
    function Visit(p: Path, e: Arc): seq<Path>
      decreases MaxNodes() - |NodesOf(p)|, 0
    {
      Found(p, e) + if Enters(p, e) then Explore(Step(p, e), order(Step(p, e))) else []
    }

    /** Everything a search yields, in order. */
    function Results(): seq<Path> {
      Explore(Source, order(Source))
    }

    /** Turns of the loop that `edges` at the end of `p` still cost, the final pop included. */
    function Turns(p: Path, edges: seq<Arc>): nat
      decreases MaxNodes() - |NodesOf(p)|, |edges|
    {
      if edges == [] then 1 else VisitTurns(p, edges[0]) + Turns(p, edges[1..])
    }

    function VisitTurns(p: Path, e: Arc): nat
      decreases MaxNodes() - |NodesOf(p)|, 0
    {
      1 + if Enters(p, e) then Turns(Step(p, e), order(Step(p, e))) else 0
    }

    // ----- The search stack -----

    /** What is still to be yielded when the branch `p` is on the stack and `stack[i]` holds the
        edges not yet followed from its `i`-th node. */
    function Pending(p: Path, stack: seq<seq<Arc>>): seq<Path> {
      if stack == [] then [] else Explore(p, stack[|stack| - 1]) + PendingBelow(p, stack[..|stack| - 1])
    }

    function PendingBelow(p: Path, lower: seq<seq<Arc>>): seq<Path> {
      if p.Source? then [] else Pending(p.prev, lower)
    }

    function PendingTurns(p: Path, stack: seq<seq<Arc>>): nat {
      if stack == [] then 0 else Turns(p, stack[|stack| - 1]) + TurnsBelow(p, stack[..|stack| - 1])
    }

    function TurnsBelow(p: Path, lower: seq<seq<Arc>>): nat {
      if p.Source? then 0 else PendingTurns(p.prev, lower)
    }

    lemma {:induction false} StackHeight(p: Path)
      ensures |NodesOf(p)| == |CostsOf(p)| == p.Hops() + 1
    {
      if p.Step? {
        StackHeight(p.prev);
      }
    }

    lemma SplitTop(p: Path, lower: seq<seq<Arc>>, top: seq<Arc>)
      ensures Pending(p, lower + [top]) == Explore(p, top) + PendingBelow(p, lower)
      ensures PendingTurns(p, lower + [top]) == Turns(p, top) + TurnsBelow(p, lower)
    {
      assert (lower + [top])[..|lower|] == lower;
    }

    /** Following the first edge on top of the stack yields what it finds and leaves the rest. */
    lemma Follow(p: Path, lower: seq<seq<Arc>>, e: Arc, edges: seq<Arc>)
      ensures var before := lower + [[e] + edges];
              var rest := lower + [edges];
              var child := Step(p, e);
              var deeper := rest + [order(child)];
              if Enters(p, e) then
                && Pending(p, before) == Found(p, e) + Pending(child, deeper)
                && PendingTurns(child, deeper) < PendingTurns(p, before)
              else
                && Pending(p, before) == Found(p, e) + Pending(p, rest)
                && PendingTurns(p, rest) < PendingTurns(p, before)
    {
      FollowPending(p, lower, e, edges);
      FollowTurns(p, lower, e, edges);
      if Enters(p, e) {
        Descend(p, lower + [edges], e);
      }
    }

    lemma FollowPending(p: Path, lower: seq<seq<Arc>>, e: Arc, edges: seq<Arc>)
      ensures var rest := Pending(p, lower + [edges]);
              Pending(p, lower + [[e] + edges]) ==
              Found(p, e) + if Enters(p, e) then Explore(Step(p, e), order(Step(p, e))) + rest else rest
    {
      SplitTop(p, lower, [e] + edges);
      SplitTop(p, lower, edges);
      ExploreCons(p, e, edges);
      if Enters(p, e) {
        Regroup(Found(p, e), Explore(Step(p, e), order(Step(p, e))), Explore(p, edges), PendingBelow(p, lower));
      } else {
        VisitWithoutEntering(p, e);
        Associate(Found(p, e), Explore(p, edges), PendingBelow(p, lower));
      }
    }

    lemma VisitWithoutEntering(p: Path, e: Arc)
      requires !Enters(p, e)
      ensures Visit(p, e) == Found(p, e)
    {
    }

    lemma FollowTurns(p: Path, lower: seq<seq<Arc>>, e: Arc, edges: seq<Arc>)
      ensures PendingTurns(p, lower + [[e] + edges]) == VisitTurns(p, e) + PendingTurns(p, lower + [edges])
    {
      SplitTop(p, lower, [e] + edges);
      SplitTop(p, lower, edges);
      ExploreCons(p, e, edges);
    }

    lemma Descend(p: Path, rest: seq<seq<Arc>>, e: Arc)
      ensures var child := Step(p, e);
              && Pending(child, rest + [order(child)]) == Explore(child, order(child)) + Pending(p, rest)
              && PendingTurns(child, rest + [order(child)]) == Turns(child, order(child)) + PendingTurns(p, rest)
    {
      SplitTop(Step(p, e), rest, order(Step(p, e)));
    }

    lemma ExploreCons(p: Path, e: Arc, edges: seq<Arc>)
      ensures Explore(p, [e] + edges) == Visit(p, e) + Explore(p, edges)
      ensures Turns(p, [e] + edges) == VisitTurns(p, e) + Turns(p, edges)
    {
      assert ([e] + edges)[1..] == edges;
    }

    // ----- The search finds exactly the solutions -----

    /** Shuffling neither loses nor repeats an edge. */
    lemma OrderIsOut(p: Path)
      requires Valid()
      ensures NoDuplicates(order(p))
      ensures forall a :: a in order(p) <==> a in out(End(p))
    {
      PermutationKeepsDistinct(out(End(p)), order(p));
      forall a ensures a in order(p) <==> a in out(End(p)) {
        assert a in order(p) <==> a in multiset(order(p));
        assert a in out(End(p)) <==> a in multiset(out(End(p)));
      }
    }

    /** One more edge keeps a branch a branch exactly when the search would not prune it: when its
        target is new and not excluded, and its cost is not below the minimum. */
    lemma BranchStep(p: Path, e: Arc)
      requires IsBranch(p) && e in out(End(p))
      ensures IsBranch(Step(p, e)) <==> !Pruned(p, e)
      ensures Pruned(p, e) <==>
              || e.target in NodesOf(p)
              || (excluded.Some? && e.target in excluded.value)
              || (minCost.Some? && less(costFn(CostOf(p), e.weight, p.Hops()), minCost.value))
    {
      DistinctSnoc(NodesOf(p), e.target);
    }

    lemma {:induction false} BranchPrefix(p: Path, s: Path)
      requires IsBranch(s) && p.IsPrefixOf(s)
      ensures IsBranch(p) && NodesOf(p) <= NodesOf(s)
    {
      if p != s {
        DistinctSnoc(NodesOf(s.prev), s.arc.target);
        BranchPrefix(p, s.prev);
      }
    }

    lemma {:induction false} NodesOfBranch(p: Path)
      requires Valid() && IsWalk(p)
      ensures |NodesOf(p)| == p.Hops() + 1
      ensures forall n :: n in NodesOf(p) ==> n in nodes
      ensures NodesOf(p)[p.Hops()] == End(p)
    {
      if p.Step? {
        NodesOfBranch(p.prev);
      }
    }

    /** The arc by which `s` leaves its proper prefix `p`. */
    lemma {:induction false} NextArc(p: Path, s: Path) returns (e: Arc)
      requires p.IsPrefixOf(s) && p != s && IsWalk(s)
      ensures e in out(End(p)) && Step(p, e).IsPrefixOf(s)
    {
      e := s.arc;
      if p != s.prev {
        e := NextArc(p, s.prev);
      }
    }

    /** Neither the length cut-off nor the "another target is left" cut-off loses a solution. */
    lemma CutOffsAreLossless(p: Path, e: Arc, s: Path)
      requires Valid() && IsSolution(s)
      requires Step(p, e).IsPrefixOf(s) && Step(p, e) != s
      ensures Expands(p, e)
    {
      BranchPrefix(Step(p, e), s);
      NodesOfBranch(s);
      DistinctFits(NodesOf(s), nodes);
      ProperPrefixIsShorter(Step(p, e), s);
      NodesOfBranch(Step(p, e));
      var visited := NodesOf(Step(p, e));
      assert visited[|visited| - 1] == e.target;
      assert forall i :: 0 <= i < |visited| ==> visited[i] == NodesOf(s)[i] != End(s);
      assert forall i :: 0 <= i < |NodesOf(p)| ==> NodesOf(p)[i] == visited[i];
    }

    lemma {:induction false} ExploreIsExact(p: Path, edges: seq<Arc>, s: Path)
      requires Valid() && IsBranch(p)
      requires maxIntermediate.Some? ==> p.Hops() <= maxIntermediate.value
      requires forall e :: e in edges ==> e in out(End(p))
      ensures s in Explore(p, edges) <==> IsSolution(s) && p.Continues(edges, s)
      decreases MaxNodes() - |NodesOf(p)|, |edges|
    {
      if edges != [] {
        VisitIsExact(p, edges[0], s);
        ExploreIsExact(p, edges[1..], s);
        assert forall e :: e in edges <==> e == edges[0] || e in edges[1..];
      }
    }

    lemma {:induction false} VisitIsExact(p: Path, e: Arc, s: Path)
      requires Valid() && IsBranch(p) && e in out(End(p))
      requires maxIntermediate.Some? ==> p.Hops() <= maxIntermediate.value
      ensures s in Visit(p, e) <==> IsSolution(s) && Step(p, e).IsPrefixOf(s)
      decreases MaxNodes() - |NodesOf(p)|, 0
    {
      var branch := Step(p, e);
      BranchStep(p, e);
      NodesOfBranch(p);
      if Enters(p, e) {
        OrderIsOut(branch);
        ExploreIsExact(branch, order(branch), s);
        ContinuesIsPrefix(branch, order(branch), s);
      }
      if IsSolution(s) && branch.IsPrefixOf(s) {
        BranchPrefix(branch, s);
        if s != branch {
          CutOffsAreLossless(p, e, s);
          var next := NextArc(branch, s);
        }
      }
    }

    /** Every path found below `p` continues `p`, so different edges find different paths. */
    lemma {:induction false} ExploreIsDistinct(p: Path, edges: seq<Arc>)
      requires Valid() && NoDuplicates(edges)
      ensures NoDuplicates(Explore(p, edges))
      ensures forall s :: s in Explore(p, edges) ==> p.Continues(edges, s)
      decreases MaxNodes() - |NodesOf(p)|, |edges|
    {
      if edges != [] {
        VisitIsDistinct(p, edges[0]);
        ExploreIsDistinct(p, edges[1..]);
        forall s | s in Explore(p, edges[1..]) ensures p.Continues(edges, s) && s !in Visit(p, edges[0]) {
          var e :| e in edges[1..] && Step(p, e).IsPrefixOf(s);
          if Step(p, edges[0]).IsPrefixOf(s) {
            SiblingsDiffer(p, e, edges[0], s);
          }
        }
        DistinctConcat(Visit(p, edges[0]), Explore(p, edges[1..]));
      }
    }

    lemma {:induction false} VisitIsDistinct(p: Path, e: Arc)
      requires Valid()
      ensures NoDuplicates(Visit(p, e))
      ensures forall s :: s in Visit(p, e) ==> Step(p, e).IsPrefixOf(s)
      decreases MaxNodes() - |NodesOf(p)|, 0
    {
      var branch := Step(p, e);
      if Enters(p, e) {
        OrderIsOut(branch);
        ExploreIsDistinct(branch, order(branch));
        var below := Explore(branch, order(branch));
        forall s | s in below ensures branch.IsPrefixOf(s) && s != branch {
          ContinuesIsPrefix(branch, order(branch), s);
        }
        DistinctConcat(Found(p, e), below);
      }
    }

    // ----- Paths and traces -----

    lemma {:induction false} PathIsTrace(p: Path)
      ensures |NodesOf(p)| == |CostsOf(p)| == |p.Arcs()| + 1 == p.Hops() + 1
      ensures NodesOf(p)[p.Hops()] == End(p) && CostsOf(p)[p.Hops()] == CostOf(p)
      ensures IsWalk(p) <==> IsTrace(p.Arcs(), NodesOf(p), CostsOf(p))
    {
      if p.Step? {
        PathIsTrace(p.prev);
        TraceStep(p.prev.Arcs(), NodesOf(p.prev), CostsOf(p.prev), p.arc);
      }
    }

    /** A trace goes on with an edge out of its last node, and in no other way. */
    lemma TraceStep(arcs: seq<Arc>, nodes: seq<Node>, costs: seq<Cost>, e: Arc)
      requires |nodes| == |costs| == |arcs| + 1
      ensures var cost := costFn(costs[|arcs|], e.weight, |arcs|);
              IsTrace(arcs + [e], nodes + [e.target], costs + [cost]) <==>
              IsTrace(arcs, nodes, costs) && e in out(nodes[|arcs|])
    {
      var cost := costFn(costs[|arcs|], e.weight, |arcs|);
      var longer, ns, cs := arcs + [e], nodes + [e.target], costs + [cost];
      assert forall i :: 0 <= i < |arcs| ==> longer[i] == arcs[i];
      assert forall i :: 0 <= i <= |arcs| ==> ns[i] == nodes[i] && cs[i] == costs[i];
      assert longer[|arcs|] == e && ns[|arcs| + 1] == e.target && cs[|arcs| + 1] == cost;
    }

    lemma {:induction false} TraceIsPath(arcs: seq<Arc>, nodes: seq<Node>, costs: seq<Cost>) returns (p: Path)
      requires IsTrace(arcs, nodes, costs)
      ensures p.Arcs() == arcs && NodesOf(p) == nodes && CostsOf(p) == costs && IsWalk(p)
    {
      if arcs == [] {
        p := Source;
      } else {
        var n := |arcs| - 1;
        assert arcs == arcs[..n] + [arcs[n]];
        assert nodes == nodes[..n + 1] + [arcs[n].target];
        assert costs == costs[..n + 1] + [costFn(costs[n], arcs[n].weight, n)];
        TraceStep(arcs[..n], nodes[..n + 1], costs[..n + 1], arcs[n]);
        var prev := TraceIsPath(arcs[..n], nodes[..n + 1], costs[..n + 1]);
        PathIsTrace(prev);
        p := Step(prev, arcs[n]);
      }
    }

    lemma {:induction false} AvoidsRaw(p: Path)
      ensures AvoidsExcluded(p) <==>
              (excluded.Some? ==> forall i :: 0 < i < |NodesOf(p)| ==> NodesOf(p)[i] !in excluded.value)
    {
      if p.Step? {
        AvoidsRaw(p.prev);
        var before, nodes := NodesOf(p.prev), NodesOf(p);
        assert nodes == before + [p.arc.target] && nodes[|before|] == p.arc.target;
        assert |before| > 0 by { PathIsTrace(p.prev); }
        assert forall i :: 0 <= i < |before| ==> nodes[i] == before[i];
      } else {
        assert NodesOf(p) == [from];
      }
    }

    lemma {:induction false} AffordsRaw(p: Path)
      ensures StaysAffordable(p) <==>
              (minCost.Some? ==> forall i :: 0 < i < |CostsOf(p)| ==> !less(CostsOf(p)[i], minCost.value))
    {
      if p.Step? && minCost.Some? {
        AffordsRaw(p.prev);
        PathIsTrace(p.prev);
        var before, costs := CostsOf(p.prev), CostsOf(p);
        assert costs[|before|] == CostOf(p) && forall i :: 0 <= i < |before| ==> costs[i] == before[i];
        assert Below(CostOf(p)) == less(costs[|before|], minCost.value);
        if StaysAffordable(p) {
          forall i | 0 < i < |costs| ensures !less(costs[i], minCost.value) {
            assert i < |before| ==> !less(before[i], minCost.value);
          }
        }
      } else if p.Step? {
        AffordsRaw(p.prev);
      } else {
        assert CostsOf(p) == [initialCost];
      }
    }

    /** A path is a solution exactly when its trace is an answer. */
    lemma SolutionIsAnswer(p: Path)
      ensures IsSolution(p) <==> IsAnswer(p.Arcs(), NodesOf(p), CostsOf(p))
    {
      PathIsTrace(p);
      AvoidsRaw(p);
      AffordsRaw(p);
    }

    lemma {:induction false} ArcsIdentify(p: Path, s: Path)
      requires p.Arcs() == s.Arcs()
      ensures p == s
    {
      PathIsTrace(p);
      PathIsTrace(s);
      if p.Step? {
        var n := p.Hops() - 1;
        assert p.Arcs()[..n] == p.prev.Arcs() && s.Arcs()[..n] == s.prev.Arcs();
        assert p.Arcs()[n] == p.arc && s.Arcs()[n] == s.arc;
        ArcsIdentify(p.prev, s.prev);
      }
    }

    /** The search yields every solution once and nothing else, however the edges are shuffled:
        what it yields are the answers, and no two of them take the same arcs. */
    lemma SearchIsExact()
      requires Valid()
      ensures forall s :: s in Results() <==> IsSolution(s)
      ensures NoDuplicates(Results())
      ensures forall s :: s in Results() <==> IsAnswer(s.Arcs(), NodesOf(s), CostsOf(s))
      ensures forall arcs, nodes, costs :: IsAnswer(arcs, nodes, costs) ==>
                exists s :: s in Results() && s.Arcs() == arcs && NodesOf(s) == nodes && CostsOf(s) == costs
    {
      YieldsSolutions();
      forall s ensures s in Results() <==> IsAnswer(s.Arcs(), NodesOf(s), CostsOf(s)) {
        SolutionIsAnswer(s);
      }
      forall arcs, nodes, costs | IsAnswer(arcs, nodes, costs)
        ensures exists s :: s in Results() && s.Arcs() == arcs && NodesOf(s) == nodes && CostsOf(s) == costs
      {
        var s := TraceIsPath(arcs, nodes, costs);
        SolutionIsAnswer(s);
      }
    }

    function ItemsOf(paths: seq<Path>): seq<(seq<Node>, Cost)> {
      seq(|paths|, i requires 0 <= i < |paths| => Item(paths[i]))
    }

    lemma TakeItem(items: seq<(seq<Node>, Cost)>, paths: seq<Path>)
      ensures items + ItemsOf(paths) ==
              if paths == [] then items else items + [Item(paths[0])] + ItemsOf(paths[1..])
    {
    }

    /** The arcs of everything the search yields. */
    function Routes(): seq<seq<Arc>> {
      seq(|Results()|, i requires 0 <= i < |Results()| => Results()[i].Arcs())
    }

    lemma RoutesAreDistinct()
      requires Valid()
      ensures NoDuplicates(Routes())
    {
      YieldsSolutions();
      var results, routes := Results(), Routes();
      forall i, j | 0 <= i < j < |routes| ensures routes[i] != routes[j] {
        if routes[i] == routes[j] {
          ArcsIdentify(results[i], results[j]);
        }
      }
    }

    lemma YieldedAnswers(s: Path)
      requires Valid() && s in Results()
      ensures Answers(s.Arcs(), Item(s))
    {
      YieldsSolutions();
      SolutionIsAnswer(s);
      PathIsTrace(s);
      assert IsAnswer(s.Arcs(), NodesOf(s), CostsOf(s));
    }

    lemma AnswerIsYielded(arcs: seq<Arc>, item: (seq<Node>, Cost)) returns (s: Path)
      requires Valid() && Answers(arcs, item)
      ensures s in Results() && s.Arcs() == arcs && Item(s) == item
    {
      var costs :| IsAnswer(arcs, item.0, costs) && costs[|arcs|] == item.1;
      s := TraceIsPath(arcs, item.0, costs);
      YieldsSolutions();
      SolutionIsAnswer(s);
      PathIsTrace(s);
    }

    /** The items are those of the answers, one for each choice of arcs. */
    lemma ItemsAreExact(items: seq<(seq<Node>, Cost)>)
      requires Valid() && items == ItemsOf(Results())
      ensures NoDuplicates(Routes())
      ensures forall i :: 0 <= i < |items| ==> Answers(Routes()[i], items[i])
      ensures forall arcs, item :: Answers(arcs, item) ==>
                exists i :: 0 <= i < |items| && Routes()[i] == arcs && items[i] == item
    {
      RoutesAreDistinct();
      var results, routes := Results(), Routes();
      forall i | 0 <= i < |items| ensures Answers(routes[i], items[i]) {
        YieldedAnswers(results[i]);
      }
      forall arcs, item | Answers(arcs, item)
        ensures exists i :: 0 <= i < |items| && routes[i] == arcs && items[i] == item
      {
        var s := AnswerIsYielded(arcs, item);
        var i :| 0 <= i < |results| && results[i] == s;
        assert routes[i] == arcs && items[i] == item;
      }
    }

    lemma YieldsSolutions()
      requires Valid()
      ensures forall s :: s in Results() <==> IsSolution(s)
      ensures NoDuplicates(Results())
    {
      OrderIsOut(Source);
      ExploreIsDistinct(Source, order(Source));
      forall s ensures s in Results() <==> IsSolution(s) {
        ExploreIsExact(Source, order(Source), s);
        if IsSolution(s) {
          SourceIsPrefix(s);
          var e := NextArc(Source, s);
        }
      }
    }
  }

  lemma Associate<T>(a: seq<T>, b: seq<T>, c: seq<T>)
    ensures a + b + c == a + (b + c)
  {
  }

  lemma Regroup<T>(a: seq<T>, b: seq<T>, c: seq<T>, d: seq<T>)
    ensures a + b + c + d == a + (b + (c + d))
  {
  }

  lemma {:induction false} SourceIsPrefix(s: Path)
    ensures Source.IsPrefixOf(s)
  {
    if s.Step? {
      SourceIsPrefix(s.prev);
    }
  }

  lemma {:induction false} ProperPrefixIsShorter(p: Path, s: Path)
    requires p.IsPrefixOf(s) && p != s
    ensures p.Hops() < s.Hops()
  {
    if p != s.prev {
      ProperPrefixIsShorter(p, s.prev);
    }
  }

  lemma {:induction false} PrefixOfPrefix(p: Path, e: Arc, s: Path)
    requires Step(p, e).IsPrefixOf(s)
    ensures p.IsPrefixOf(s) && p.Hops() < s.Hops()
  {
    if Step(p, e) != s {
      PrefixOfPrefix(p, e, s.prev);
    }
  }

  lemma ContinuesIsPrefix(p: Path, edges: seq<Arc>, s: Path)
    ensures p.Continues(edges, s) ==> p.IsPrefixOf(s) && p != s
  {
    if p.Continues(edges, s) {
      var e :| e in edges && Step(p, e).IsPrefixOf(s);
      PrefixOfPrefix(p, e, s);
    }
  }

  /** A path goes on from each of its prefixes in one way only. */
  lemma {:induction false} SiblingsDiffer(p: Path, d: Arc, e: Arc, s: Path)
    requires Step(p, d).IsPrefixOf(s) && Step(p, e).IsPrefixOf(s)
    ensures d == e
  {
    if Step(p, d) == s {
      if Step(p, e) != s {
        ProperPrefixIsShorter(Step(p, e), s);
      }
    } else if Step(p, e) == s {
      ProperPrefixIsShorter(Step(p, d), s);
    } else {
      SiblingsDiffer(p, d, e, s.prev);
    }
  }

  /** The iterator returned by `all_simple_paths_multi`.  `trail` records which arc led to each
      visited node: it names the shuffle to draw from. */
  class PathIterator {
    const q: Query
    var visited: seq<Node>
    var stack: seq<seq<Arc>>
    var costs: seq<Cost>
    var trail: Path

    ghost predicate Valid()
      reads this
    {
      if stack == [] then visited == [] && costs == []
      else |stack| == |visited| == |costs| && visited == q.NodesOf(trail) && costs == q.CostsOf(trail)
    }

    /** The paths still to be yielded. */
    ghost function Pending(): seq<Path>
      reads this
    {
      q.Pending(trail, stack)
    }

    constructor (q: Query)
      ensures this.q == q && Valid() && Pending() == q.Results()
    {
      this.q := q;
      visited := [q.from];
      stack := [q.order(Source)];
      costs := [q.initialCost];
      trail := Source;
      new;
      assert stack == [] + [q.order(Source)];
      q.SplitTop(trail, [], q.order(Source));
    }

    /** One call of the closure: the next pending path with its cost, or `None` for good. */
    method Next() returns (r: Option<(seq<Node>, Cost)>)
      requires Valid()
      modifies this
      ensures Valid()
      ensures old(Pending()) == [] ==> r.None? && Pending() == []
      ensures old(Pending()) != [] ==>
                r == Some(q.Item(old(Pending())[0])) && Pending() == old(Pending())[1..]
    {
      while stack != []
        invariant Valid() && Pending() == old(Pending())
        decreases q.PendingTurns(trail, stack)
      {
        if stack[|stack| - 1] != [] {
          ghost var p, top := trail, |stack| - 1;
          ghost var lower, e, edges := stack[..top], stack[top][0], stack[top][1..];
          assert stack == lower + [[e] + edges] by { assert stack[top] == [e] + edges; }
          q.Follow(p, lower, e, edges);
          var validPath := Follow();
          assert q.Pending(p, lower + [[e] + edges]) == q.Found(p, e) + Pending();
          if validPath.Some? {
            return validPath;
          }
        } else {
          Backtrack();
        }
      }
      r := None;
    }

    /** The turn of the loop that takes an edge off the top of the stack: drops it, yields the
        path it completes, descends into its target, or both. */
    method Follow() returns (validPath: Option<(seq<Node>, Cost)>)
      requires Valid() && stack != [] && stack[|stack| - 1] != []
      modifies this
      ensures Valid()
      ensures var p, top := old(trail), old(|stack|) - 1;
              var e, rest := old(stack[top][0]), old(stack[..top] + [stack[top][1..]]);
              && (if q.Enters(p, e) then trail == Step(p, e) && stack == rest + [q.order(trail)]
                  else trail == p && stack == rest)
              && (if validPath.None? then q.Found(p, e) == []
                  else q.Found(p, e) == [Step(p, e)] && validPath.value == q.Item(Step(p, e)))
    {
      var top := |stack| - 1;
      var edge := stack[top][0];
      stack := stack[..top] + [stack[top][1..]];
      var child := edge.target;
      if child in visited || (q.excluded.Some? && child in q.excluded.value) {
        return None;
      }
      var currentNodes := |visited|;
      q.StackHeight(trail);
      var newCost := q.costFn(costs[top], edge.weight, currentNodes - 1);
      if q.minCost.Some? && q.less(newCost, q.minCost.value) {
        return None;
      }
      validPath := None;
      if child in q.to && currentNodes + 1 >= q.MinNodes() {
        validPath := Some((visited + [child], newCost));
      }
      if currentNodes < q.MaxNodes() - 1 && exists n :: n in q.to && n != child && n !in visited {
        trail := Step(trail, edge);
        visited := visited + [edge.target];
        stack := stack + [q.order(trail)];
        costs := costs + [newCost];
      }
    }

    /** The turn of the loop that pops an exhausted node. */
    method Backtrack()
      requires Valid() && stack != [] && stack[|stack| - 1] == []
      modifies this
      ensures Valid() && Pending() == old(Pending())
      ensures q.PendingTurns(trail, stack) < old(q.PendingTurns(trail, stack))
    {
      var top := |stack| - 1;
      q.StackHeight(trail);
      q.SplitTop(trail, stack[..top], []);
      assert stack == stack[..top] + [[]];
      stack := stack[..top];
      visited := visited[..top];
      costs := costs[..top];
      if trail.Step? {
        trail := trail.prev;
      }
    }
  }

  /** Draining an iterator. */
  method Drain(paths: PathIterator) returns (items: seq<(seq<Node>, Cost)>)
    requires paths.Valid()
    modifies paths
    ensures items == paths.q.ItemsOf(old(paths.Pending()))
  {
    items := [];
    ghost var all := paths.q.ItemsOf(paths.Pending());
    paths.q.TakeItem([], paths.Pending());
    var next := paths.Next();
    while next.Some?
      invariant paths.Valid()
      invariant all == if next.None? then items else items + [next.value] + paths.q.ItemsOf(paths.Pending())
      invariant next.None? ==> paths.Pending() == []
      decreases if next.None? then 0 else |all| - |items|
    {
      items := items + [next.value];
      paths.q.TakeItem(items, paths.Pending());
      next := paths.Next();
    }
  }

  /** A whole search, as its callers use it. */
  method Collect(q: Query) returns (items: seq<(seq<Node>, Cost)>, ghost routes: seq<seq<Arc>>)
    ensures items == q.ItemsOf(q.Results()) && |routes| == |items|
    ensures q.Valid() ==>
              && NoDuplicates(routes)
              && (forall i :: 0 <= i < |items| ==> q.Answers(routes[i], items[i]))
              && (forall arcs, item :: q.Answers(arcs, item) ==>
                    exists i :: 0 <= i < |items| && routes[i] == arcs && items[i] == item)
  {
    var paths := new PathIterator(q);
    items := Drain(paths);
    routes := q.Routes();
    if q.Valid() {
      q.ItemsAreExact(items);
    }
  }
}
