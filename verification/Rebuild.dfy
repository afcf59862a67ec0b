/** Rebuilding the buckets in the order the gradients arrived in: assign, agree on rank 0's assignment, lay out. */
module Rebuild {
  import opened Basics
  import opened Flat
  import opened Buckets
  import opened ReducerState
  import opened ReducerLayout
  import opened ReducerSteps
  import BA = BucketAssignment
  import BucketSizes
  import opened BucketSync

  const FIRST_BUCKET_BYTES := 1048576      // kDefaultFirstBucketBytes

  /** What a rank has recorded: its parameters in the order their gradients came, with their numbers. */
  datatype Arrivals = Arrivals(tensors: seq<BA.Tensor>, indices: seq<nat>)

  /** All parameters, once each; none of them a sparse tensor; `kinds` tells apart what their keys tell apart. */
  ghost predicate AllArrived(a: Arrivals, kinds: seq<nat>, expectSparse: seq<bool>, kindOf: map<BA.Key, nat>) {
    && |a.tensors| == |a.indices| == |kinds| == |expectSparse| && a.tensors != []
    && Distinct(a.indices) && (forall v: nat :: v in a.indices <==> v < |kinds|)
    && forall i :: 0 <= i < |a.tensors| ==>
         !a.tensors[i].isSparse && a.indices[i] < |kinds| && a.tensors[i].key in kindOf && kinds[a.indices[i]] == kindOf[a.tensors[i].key]
  }

  lemma ArrivalsFit(a: Arrivals, kinds: seq<nat>, expectSparse: seq<bool>, kindOf: map<BA.Key, nat>)
    requires AllArrived(a, kinds, expectSparse, kindOf)
    ensures |kinds| == |expectSparse| && BA.Consistent(a.tensors, expectSparse, a.indices) && !BA.Refused(a.tensors, expectSparse)
    ensures BA.Indices(BA.Items(a.tensors, expectSparse, a.indices)) == a.indices
  {
  }

  lemma {:induction false} FlatLength(groups: seq<seq<BA.Item>>)
    ensures |Flatten(BA.AllIndices(groups))| == |BA.Concat(groups)|
  {
    FlattenIndices(groups);
  }

  /** What a rank has computed before it synchronizes. */
  ghost predicate Computed(a: Arrivals, assignment: Assignment, groups: seq<seq<BA.Item>>, expectSparse: seq<bool>, limits: seq<nat>) {
    && limits != [] && BA.Consistent(a.tensors, expectSparse, a.indices) && !BA.Refused(a.tensors, expectSparse)
    && assignment == BA.AllIndices(groups) && BA.Assigned(groups, BA.Items(a.tensors, expectSparse, a.indices), limits)
  }

  lemma ComputedFacts(a: Arrivals, assignment: Assignment, groups: seq<seq<BA.Item>>, kinds: seq<nat>, expectSparse: seq<bool>,
                      kindOf: map<BA.Key, nat>, limits: seq<nat>)
    requires AllArrived(a, kinds, expectSparse, kindOf) && Computed(a, assignment, groups, expectSparse, limits)
    ensures Partition(assignment, |kinds|) && |Flatten(assignment)| == |kinds| && assignment != []
  {
    hide BA.Assigned, BA.Items, BA.Concat, Flatten, Partition;
    var items := BA.Items(a.tensors, expectSparse, a.indices);
    ArrivalsFit(a, kinds, expectSparse, kindOf);
    AssignmentIsPartition(groups, items, limits, |kinds|);
    BA.AssignedIsPartition(groups, items, limits);
    SameLength(BA.Concat(groups), items);
    FlatLength(groups);
    NotNothing(assignment, |kinds|);
  }

  lemma NotNothing(a: Assignment, n: nat)
    requires Partition(a, n) && n > 0
    ensures a != []
  {
    assert Occurs(a, 0);
  }

  /** Every bucket of a computed assignment is one that `initialize_buckets` accepts. */
  lemma ComputedIsAccepted(a: Arrivals, assignment: Assignment, groups: seq<seq<BA.Item>>, kinds: seq<nat>, expectSparse: seq<bool>,
                           kindOf: map<BA.Key, nat>, limits: seq<nat>, b: nat)
    requires AllArrived(a, kinds, expectSparse, kindOf) && Computed(a, assignment, groups, expectSparse, limits) && b < |assignment|
    ensures Accepted(assignment[b], kinds, expectSparse)
  {
    hide BA.FillAll, BA.Groups, BA.GroupsOf, BA.ItemsOf;
    var items, group := BA.Items(a.tensors, expectSparse, a.indices), groups[b];
    assert BA.Uniform(group);
    forall k | 0 <= k < |group| ensures ItemFits(group[k], kinds, expectSparse, kindOf) {
      BA.AssignedIsPartition(groups, items, limits);
      BA.InConcat(groups, b, group[k]);
      assert group[k] in multiset(items);
    }
    if group[0].sparse { SparseIsAlone(groups, items, limits, b); }
  }

  /** An item as its parameter's tables describe it. */
  ghost predicate ItemFits(x: BA.Item, kinds: seq<nat>, expectSparse: seq<bool>, kindOf: map<BA.Key, nat>) {
    x.index < |kinds| == |expectSparse| && x.sparse == expectSparse[x.index] && x.key in kindOf && kinds[x.index] == kindOf[x.key]
  }

  lemma SparseIsAlone(groups: seq<seq<BA.Item>>, items: seq<BA.Item>, limits: seq<nat>, b: nat)
    requires limits != [] && BA.Assigned(groups, items, limits) && b < |groups| && groups[b] != [] && groups[b][0].sparse
    ensures |groups[b]| == 1
  {
    hide BA.FillAll, BA.Groups, BA.GroupsOf, BA.ItemsOf, BA.Assigned;
    var g := BA.AssignedMeaning(groups, items, limits, groups[b][0].key);
    BA.GroupsOfCount(groups, BA.Sparse, groups[b]);
    assert groups[b] in multiset(groups);
    assert groups[b] in BA.GroupsOf(groups, BA.Sparse);
  }

  /** `rebuild_buckets` on any rank, with what rank 0 broadcasts: the buckets and locators are rank 0's, a partition
      of the parameters, whatever order the gradients came in here. */
  method RebuildBuckets(mine: Arrivals, ghost root: Arrivals, ghost rootAssignment: Assignment, ghost rootGroups: seq<seq<BA.Item>>,
                        first: seq<int>, second: seq<int>, bytesCap: nat, lengths: seq<nat>, kinds: seq<nat>, expectSparse: seq<bool>,
                        ghost kindOf: map<BA.Key, nat>, replicaCount: nat)
    returns (buckets: seq<Bucket>, locators: seq<Locator>)
    requires AllArrived(mine, kinds, expectSparse, kindOf) && AllArrived(root, kinds, expectSparse, kindOf) && |lengths| == |kinds| < INT32_HALF
    requires Computed(root, rootAssignment, rootGroups, expectSparse, [FIRST_BUCKET_BYTES, bytesCap])
    requires first == FirstTensor(rootAssignment) && second == SecondTensor(rootAssignment)
    ensures |locators| == |lengths| && Locates(buckets, locators) && AllWellFormed(buckets, replicaCount, lengths)
    ensures |buckets| == |rootAssignment|
    ensures forall b :: 0 <= b < |buckets| ==> buckets[b].vars == rootAssignment[b] && buckets[b].sparse == SparseBucket(rootAssignment[b], expectSparse)
  {
    hide BA.Assigned, BA.Items, BA.Concat, BA.SortedByMin, BA.AllIndices, BucketSizes.AssignedBySize, BucketSizes.Names, Flatten, Partition, FirstTensor, SecondTensor, CarriedAll, Countable,
         Locates, AllWellFormed, Accepted, AllArrived;
    var limits := [FIRST_BUCKET_BYTES, bytesCap];
    ArrivalsFit(mine, kinds, expectSparse, kindOf);
    ArrivalsFit(root, kinds, expectSparse, kindOf);
    var computed, groups, placed, closed := BucketSizes.ComputeBucketAssignmentBySize(mine.tensors, limits, expectSparse, mine.indices);
    ComputedFacts(mine, computed.value, groups, kinds, expectSparse, kindOf, limits);
    ComputedFacts(root, rootAssignment, rootGroups, kinds, expectSparse, kindOf, limits);
    SmallIsCountable(rootAssignment, |kinds|);
    var synced := SyncBucketIndices(computed.value, rootAssignment, first, second);
    SmallIndicesSurvive(rootAssignment, |kinds|);
    forall b | 0 <= b < |rootAssignment| ensures Accepted(rootAssignment[b], kinds, expectSparse) {
      ComputedIsAccepted(root, rootAssignment, rootGroups, kinds, expectSparse, kindOf, limits, b);
    }
    var ok;
    ok, buckets, locators := InitializeBuckets(synced.value, lengths, kinds, expectSparse, replicaCount);
  }

  predicate SparseBucket(vars: seq<nat>, expectSparse: seq<bool>) { |vars| == 1 && vars[0] < |expectSparse| && expectSparse[vars[0]] }

  lemma SmallIsCountable(a: Assignment, n: nat)
    requires Partition(a, n) && |Flatten(a)| == n < INT32_HALF
    ensures Countable(a)
  {
    hide Flatten;
    BucketsInFlat(a);
    forall b | 0 <= b < |a| ensures |a[b]| < INT32_HALF { FlattenStep(a, b); }
  }

  lemma {:induction false} BucketsInFlat(a: Assignment)
    requires forall b :: 0 <= b < |a| ==> a[b] != []
    ensures |a| <= |Flatten(a)|
  {
    if a != [] { BucketsInFlat(a[..|a| - 1]); }
  }

  lemma SmallIndicesSurvive(root: Assignment, n: nat)
    requires Partition(root, n) && n < INT32_HALF
    ensures CarriedAll(root) == root
  {
    forall b, k | 0 <= b < |root| && 0 <= k < |root[b]| ensures root[b][k] < INT32_HALF {}
    SyncedIsRootsIff(root);
  }

  /** Ranks that hold the same lists lay the buckets out alike, down to the offsets: what the allreduces need. */
  lemma SameListsSameLayout(bs: seq<Bucket>, cs: seq<Bucket>, replicaCount: nat, replicaCount': nat, lengths: seq<nat>)
    requires AllWellFormed(bs, replicaCount, lengths) && AllWellFormed(cs, replicaCount', lengths) && |bs| == |cs|
    requires forall b :: 0 <= b < |bs| ==> bs[b].vars == cs[b].vars && bs[b].sparse == cs[b].sparse
    ensures SameLayout(bs, cs)
  {
    forall b | 0 <= b < |bs| ensures bs[b].lengths == cs[b].lengths && bs[b].offsets == cs[b].offsets {
      assert WellFormed(bs[b], replicaCount) && WellFormed(cs[b], replicaCount') && LengthsAgree(bs[b], lengths) && LengthsAgree(cs[b], lengths);
      assert bs[b].lengths == cs[b].lengths;
    }
  }
}
