/** The graph search and the pass that relies on it. */
module SearchedPass {
  import opened Basics
  import opened Buckets
  import opened ReducerSteps
  import opened UnusedSearch
  import opened BackwardPass

  /** Each variable is registered with one accumulator, once. */
  ghost predicate Registered(accumulators: Accumulators, replicaCount: nat, n: nat) {
    && (forall a :: a in accumulators ==> Markable(accumulators[a], replicaCount, n))
    && (forall a, b, x :: a in accumulators && b in accumulators && x in accumulators[a] && x in accumulators[b] ==> a == b)
    && (forall r: nat, v: nat :: r < replicaCount && v < n ==> Somewhere(accumulators, VarIndex(r, v)))
  }

  ghost predicate Somewhere(accumulators: Accumulators, x: VarIndex) { exists a :: a in accumulators && x in accumulators[a] }

  /** The variable's accumulator takes part in the backward pass. */
  ghost predicate Reached(g: Graph, seeds: set<nat>, accumulators: Accumulators, x: VarIndex) {
    exists a :: a in accumulators && x in accumulators[a] && Reachable(g, seeds, a)
  }

  /** Nothing is gathered twice. */
  lemma {:induction false} GatherMarkable(accumulators: Accumulators, order: seq<nat>, replicaCount: nat, n: nat)
    requires (forall a :: a in order ==> a in accumulators) && Distinct(order) && Registered(accumulators, replicaCount, n)
    ensures Markable(Gather(accumulators, order), replicaCount, n)
  {
    if order != [] {
      var front, last := order[..|order| - 1], order[|order| - 1];
      GatherMarkable(accumulators, front, replicaCount, n);
      forall x | x in accumulators[last] ensures x !in Gather(accumulators, front) {
        GatherHas(accumulators, front, x);
        assert last !in front;
      }
      MarkableTogether(Gather(accumulators, front), accumulators[last], replicaCount, n);
    }
  }

  lemma MarkableTogether(s: seq<VarIndex>, t: seq<VarIndex>, replicaCount: nat, n: nat)
    requires Markable(s, replicaCount, n) && Markable(t, replicaCount, n) && forall x :: x in t ==> x !in s
    ensures Markable(s + t, replicaCount, n)
  {
    var u := s + t;
    forall i, j | 0 <= i < j < |u| ensures u[i] != u[j] {
      if i < |s| <= j { assert u[j] in t && u[i] in s; }
    }
  }

  /** If hooks come exactly for the variables whose accumulators the graph reaches, the variables the search found
      unused and the hooks make a complete pass. */
  lemma SearchCompletesPass(g: Graph, seeds: set<nat>, accumulators: Accumulators, found: seq<VarIndex>,
                            order: seq<VarIndex>, produced: map<VarIndex, seq<real>>, replicaCount: nat, n: nat)
    requires IsUnused(g, seeds, accumulators, found) && Registered(accumulators, replicaCount, n)
    requires order != [] && Distinct(order) && (forall x :: x in order <==> Reached(g, seeds, accumulators, x)) && produced.Keys == Elements(order)
    ensures Complete(order, produced, found, replicaCount, n)
  {
    hide Reachable, Gather;
    var accs: seq<nat> :| UnreachedOrder(g, seeds, accumulators, accs) && found == Gather(accumulators, accs);
    GatherMarkable(accumulators, accs, replicaCount, n);
    forall x ensures x in found <==> Somewhere(accumulators, x) && !Reached(g, seeds, accumulators, x) {
      UnusedIffUnreached(g, seeds, accumulators, found, x);
    }
    forall i | 0 <= i < |order| ensures order[i].replica < replicaCount && order[i].variable < n {
      assert Reached(g, seeds, accumulators, order[i]);
      var a :| a in accumulators && order[i] in accumulators[a];
      assert Markable(accumulators[a], replicaCount, n);
    }
    forall r: nat, v: nat | r < replicaCount && v < n ensures VarIndex(r, v) in Elements(order) + Elements(found) {
      assert Somewhere(accumulators, VarIndex(r, v));
    }
  }
}
