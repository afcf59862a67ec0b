/** The search of the autograd graph for parameters that will get no gradient. */
module UnusedSearch {
  import opened Basics
  import opened Buckets

  datatype Edge = Null | To(node: nat)

  /** Nodes with their outgoing edges. Nothing is said about cycles or sharing. */
  type Graph = map<nat, seq<Edge>>

  ghost predicate Closed(g: Graph) {
    forall n, j :: n in g && 0 <= j < |g[n]| && g[n][j].To? ==> g[n][j].node in g
  }

  ghost predicate Leads(g: Graph, n: nat, m: nat) { n in g && To(m) in g[n] }

  /** A walk from a seed over at least one edge. */
  ghost predicate Walk(g: Graph, seeds: set<nat>, p: seq<nat>) {
    && |p| >= 2 && p[0] in seeds
    && forall i :: 0 <= i < |p| - 1 ==> Leads(g, p[i], p[i + 1])
  }

  ghost predicate Reachable(g: Graph, seeds: set<nat>, n: nat) {
    exists p :: Walk(g, seeds, p) && p[|p| - 1] == n
  }

  /** A seed, or reached from one. */
  ghost predicate Origin(g: Graph, seeds: set<nat>, n: nat) { n in seeds || Reachable(g, seeds, n) }

  lemma ReachNext(g: Graph, seeds: set<nat>, n: nat, m: nat)
    requires Origin(g, seeds, n) && Leads(g, n, m)
    ensures Reachable(g, seeds, m)
  {
    var p := [n];
    if n !in seeds { p :| Walk(g, seeds, p) && p[|p| - 1] == n; }
    assert Walk(g, seeds, p + [m]);
  }

  /** The successors of a node are all in a set. */
  ghost predicate Expanded(g: Graph, n: nat, seen: set<nat>) { forall m :: Leads(g, n, m) ==> m in seen }

  /** A set into which the seeds and its own members all lead holds everything reachable. */
  lemma {:induction false} ClosedUnderWalks(g: Graph, seeds: set<nat>, seen: set<nat>, p: seq<nat>)
    requires Walk(g, seeds, p) && forall n :: n in seeds || n in seen ==> Expanded(g, n, seen)
    ensures p[|p| - 1] in seen
  {
    if |p| > 2 {
      ClosedUnderWalks(g, seeds, seen, p[..|p| - 1]);
    }
    assert Leads(g, p[|p| - 2], p[|p| - 1]);
    assert Expanded(g, p[|p| - 2], seen);
  }

  /** Everything met so far is accounted for: it waits in the queue, or its successors have been seen. */
  ghost predicate Frontier(g: Graph, seeds: set<nat>, seen: set<nat>, queue: seq<nat>) {
    && (forall n :: n in seen ==> n in g && Reachable(g, seeds, n))
    && (forall n :: n in queue ==> n in g && Origin(g, seeds, n))
    && (forall n :: n in seeds || n in seen ==> n in queue || Expanded(g, n, seen))
  }

  /** The loop over the edges of one node. */
  method Expand(g: Graph, ghost seeds: set<nat>, fn: nat, seen0: set<nat>, queue0: seq<nat>) returns (seen: set<nat>, queue: seq<nat>)
    requires Closed(g) && fn in g && Origin(g, seeds, fn) && Frontier(g, seeds, seen0, queue0 + [fn])
    ensures Frontier(g, seeds, seen, queue)
    ensures seen0 <= seen && (seen == seen0 ==> queue == queue0)
  {
    seen, queue := seen0, queue0;
    for j := 0 to |g[fn]|
      invariant seen0 <= seen && (seen == seen0 ==> queue == queue0)
      invariant Frontier(g, seeds, seen, queue + [fn])
      invariant forall i :: 0 <= i < j && g[fn][i].To? ==> g[fn][i].node in seen
    {
      if g[fn][j].To? {
        var next := g[fn][j].node;
        if next !in seen {
          assert Leads(g, fn, next);
          ReachNext(g, seeds, fn, next);
          FrontierGrows(g, seeds, seen, queue, fn, next);
          seen, queue := seen + {next}, queue + [next];
        }
      }
    }
    FrontierDone(g, seeds, seen, queue, fn);
  }

  lemma FrontierGrows(g: Graph, seeds: set<nat>, seen: set<nat>, queue: seq<nat>, fn: nat, next: nat)
    requires Frontier(g, seeds, seen, queue + [fn]) && next in g && Reachable(g, seeds, next)
    ensures Frontier(g, seeds, seen + {next}, queue + [next] + [fn])
  {
  }

  lemma FrontierDone(g: Graph, seeds: set<nat>, seen: set<nat>, queue: seq<nat>, fn: nat)
    requires Frontier(g, seeds, seen, queue + [fn]) && fn in g
    requires forall i :: 0 <= i < |g[fn]| && g[fn][i].To? ==> g[fn][i].node in seen
    ensures Frontier(g, seeds, seen, queue)
  {
  }

  /** The traversal. It ends on every finite graph, because each turn sees a new node or shortens the queue,
      and sees exactly what a walk of at least one edge reaches; a seed counts only if it is reached again. */
  method Traverse(g: Graph, seeds: seq<nat>, ghost from: set<nat>) returns (seen: set<nat>)
    requires Closed(g) && (forall n :: n in seeds ==> n in g) && forall n :: n in from <==> n in seeds
    ensures forall n :: n in seen <==> Reachable(g, from, n)
  {
    hide Reachable;
    seen := {};
    var queue := seeds;
    while queue != []
      invariant Frontier(g, from, seen, queue)
      decreases |g.Keys - seen|, |queue|
    {
      ghost var before := seen;
      var fn := queue[|queue| - 1];
      assert queue == queue[..|queue| - 1] + [fn];
      seen, queue := Expand(g, from, fn, seen, queue[..|queue| - 1]);
      if seen != before { FewerUnseen(g, before, seen); }
    }
    forall n | Reachable(g, from, n) ensures n in seen { SeesAll(g, from, seen, n); }
  }

  lemma SeesAll(g: Graph, seeds: set<nat>, seen: set<nat>, n: nat)
    requires Frontier(g, seeds, seen, []) && Reachable(g, seeds, n)
    ensures n in seen
  {
    var p :| Walk(g, seeds, p) && p[|p| - 1] == n;
    ClosedUnderWalks(g, seeds, seen, p);
  }

  lemma FewerUnseen(g: Graph, before: set<nat>, after: set<nat>)
    requires before < after && forall n :: n in after ==> n in g
    ensures |g.Keys - after| < |g.Keys - before|
  {
    var n :| n in after && n !in before;
    var a, b := g.Keys - after, g.Keys - before;
    assert a <= b - {n};
    SubsetIsSmaller(a, b - {n});
  }

  // ---------------------------------------------------------------- the unused parameters

  /** The accumulator functions, with the variables each accumulates for. */
  type Accumulators = map<nat, seq<VarIndex>>

  ghost function Gather(accumulators: Accumulators, order: seq<nat>): seq<VarIndex>
    requires forall a :: a in order ==> a in accumulators
  {
    if order == [] then []
    else
      assert forall a :: a in order[..|order| - 1] ==> a in order;
      Gather(accumulators, order[..|order| - 1]) + accumulators[order[|order| - 1]]
  }

  /** The order lists, once each, the accumulators outside a set, as far as they have been visited. */
  ghost predicate Lists(order: seq<nat>, accumulators: Accumulators, left: set<nat>, seen: set<nat>) {
    Distinct(order) && forall a :: a in order <==> a in accumulators && a !in left && a !in seen
  }

  /** The grad functions of the outputs; an output may have none. */
  ghost function Seeds(outputs: seq<Edge>): set<nat> { set e | e in outputs && e.To? :: e.node }

  /** A list of the parameters of the accumulators no walk reaches, each accumulator taken once, in some
      order. */
  ghost predicate IsUnused(g: Graph, seeds: set<nat>, accumulators: Accumulators, unused: seq<VarIndex>) {
    exists order: seq<nat> :: UnreachedOrder(g, seeds, accumulators, order) && unused == Gather(accumulators, order)
  }

  ghost predicate UnreachedOrder(g: Graph, seeds: set<nat>, accumulators: Accumulators, order: seq<nat>) {
    Distinct(order) && forall a :: a in order <==> a in accumulators && !Reachable(g, seeds, a)
  }

  /** The unused parameters are exactly those whose accumulator no walk from an output function reaches. */
  method FindUnused(g: Graph, outputs: seq<Edge>, accumulators: Accumulators) returns (unused: seq<VarIndex>)
    requires Closed(g) && forall i :: 0 <= i < |outputs| && outputs[i].To? ==> outputs[i].node in g
    ensures IsUnused(g, Seeds(outputs), accumulators, unused)
  {
    hide Reachable, Lists, Gather;
    var queue := [];
    for i := 0 to |outputs|
      invariant forall n: nat :: n in queue <==> To(n) in outputs[..i]
    {
      if outputs[i].To? { queue := queue + [outputs[i].node]; }
      assert outputs[..i + 1] == outputs[..i] + [outputs[i]];
    }
    assert outputs[..|outputs|] == outputs;
    var seen := Traverse(g, queue, Seeds(outputs));
    unused := [];
    ghost var order: seq<nat> := [];
    var left := accumulators.Keys;
    NothingListed(accumulators, seen);
    while left != {}
      invariant left <= accumulators.Keys && Lists(order, accumulators, left, seen)
      invariant (forall a :: a in order ==> a in accumulators) && unused == Gather(accumulators, order)
      decreases left
    {
      var acc :| acc in left;
      ListNext(order, accumulators, left, seen, acc);
      if acc !in seen {
        unused, order := unused + accumulators[acc], order + [acc];
      }
      left := left - {acc};
    }
    AllListed(order, accumulators, seen);
    assert UnreachedOrder(g, Seeds(outputs), accumulators, order);
  }

  lemma NothingListed(accumulators: Accumulators, seen: set<nat>)
    ensures Lists([], accumulators, accumulators.Keys, seen) && Gather(accumulators, []) == []
  {
  }

  lemma ListNext(order: seq<nat>, accumulators: Accumulators, left: set<nat>, seen: set<nat>, acc: nat)
    requires Lists(order, accumulators, left, seen) && acc in left && acc in accumulators
    requires forall a :: a in order ==> a in accumulators
    ensures acc in seen ==> Lists(order, accumulators, left - {acc}, seen)
    ensures acc !in seen ==> Lists(order + [acc], accumulators, left - {acc}, seen)
    ensures Gather(accumulators, order + [acc]) == Gather(accumulators, order) + accumulators[acc]
  {
  }

  lemma AllListed(order: seq<nat>, accumulators: Accumulators, seen: set<nat>)
    requires Lists(order, accumulators, {}, seen)
    ensures Distinct(order) && forall a :: a in order <==> a in accumulators && a !in seen
  {
  }

  lemma {:induction false} GatherHas(accumulators: Accumulators, order: seq<nat>, v: VarIndex)
    requires forall a :: a in order ==> a in accumulators
    ensures v in Gather(accumulators, order) <==> exists a :: a in order && v in accumulators[a]
  {
    if order != [] {
      var front := order[..|order| - 1];
      assert order == front + [order[|order| - 1]];
      GatherHas(accumulators, front, v);
    }
  }

  /** A parameter is listed exactly if one of its accumulators is reached by no walk. */
  lemma UnusedIffUnreached(g: Graph, seeds: set<nat>, accumulators: Accumulators, unused: seq<VarIndex>, v: VarIndex)
    requires IsUnused(g, seeds, accumulators, unused)
    ensures v in unused <==> exists a :: a in accumulators && !Reachable(g, seeds, a) && v in accumulators[a]
  {
    hide Reachable, Gather;
    var order: seq<nat> :| UnreachedOrder(g, seeds, accumulators, order) && unused == Gather(accumulators, order);
    GatherHas(accumulators, order, v);
  }
}
