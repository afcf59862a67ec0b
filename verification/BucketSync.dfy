/** Agreeing on rank 0's bucket assignment: flatten, two broadcasts, unflatten.

    The lists travel in tensors of `int`, first all indices with the number of buckets, then their sizes. */
module BucketSync {
  import opened Basics
  import BA = BucketAssignment
  import opened ReducerLayout

  const INT32_HALF: nat := 0x8000_0000

  /** Storing a `size_t` in an `int` tensor and reading it back as a `size_t`. */
  function ToInt(x: nat): int { var low := x % INT32; if low < INT32_HALF then low else low - INT32 }
  function ToSize(x: int): nat
    requires 0 <= x + SIZE_T
  {
    if x < 0 then x + SIZE_T else x
  }

  function Flatten(a: Assignment): seq<nat> {
    if a == [] then [] else Flatten(a[..|a| - 1]) + a[|a| - 1]
  }

  /** The numbers of buckets and of their members fit an `int`. */
  ghost predicate Countable(a: Assignment) { |a| < INT32_HALF && forall b :: 0 <= b < |a| ==> |a[b]| < INT32_HALF }

  /** What becomes of an index on the way. */
  function Carried(x: nat): nat { ToSize(ToInt(x)) }

  function CarriedList(s: seq<nat>): (r: seq<nat>)
    ensures |r| == |s| && forall k :: 0 <= k < |s| ==> r[k] == Carried(s[k])
  {
    seq(|s|, k requires 0 <= k < |s| => Carried(s[k]))
  }

  function CarriedAll(a: Assignment): (r: Assignment)
    ensures |r| == |a| && forall b :: 0 <= b < |a| ==> r[b] == CarriedList(a[b])
  {
    seq(|a|, b requires 0 <= b < |a| => CarriedList(a[b]))
  }

  /** An index that an `int` holds, or the image of a negative one. */
  predicate Survives(x: nat) { x < INT32_HALF || SIZE_T - INT32_HALF <= x }

  lemma CarriedIff(x: nat)
    requires x < SIZE_T
    ensures Carried(x) == x <==> Survives(x)
  {
  }

  /** Only its low 32 bits make it there, read as a signed number: there is one such `size_t`. */
  lemma CarriedExactly(x: nat)
    requires x < SIZE_T
    ensures Carried(x) % INT32 == x % INT32 && Carried(x) < SIZE_T && Survives(Carried(x))
  {
  }

  function Ints(s: seq<nat>): (r: seq<int>)
    ensures |r| == |s| && forall i :: 0 <= i < |s| ==> r[i] == ToInt(s[i])
  {
    seq(|s|, i requires 0 <= i < |s| => ToInt(s[i]))
  }

  function Sizes(a: Assignment): (r: seq<nat>)
    ensures |r| == |a| && forall b :: 0 <= b < |a| ==> r[b] == |a[b]|
  {
    seq(|a|, b requires 0 <= b < |a| => |a[b]|)
  }

  /** The two tensors rank 0 sends. */
  ghost function FirstTensor(a: Assignment): seq<int> { Ints(Flatten(a)) + [ToInt(|a|)] }
  ghost function SecondTensor(a: Assignment): seq<int> { Ints(Sizes(a)) }

  lemma {:induction false} FlattenStep(a: Assignment, b: nat)
    requires b < |a|
    ensures Flatten(a[..b + 1]) == Flatten(a[..b]) + a[b]
    ensures |Flatten(a[..b + 1])| <= |Flatten(a)|
    ensures forall k :: 0 <= k < |a[b]| ==> Flatten(a)[|Flatten(a[..b])| + k] == a[b][k]
  {
    assert a[..b + 1][..b] == a[..b];
    if b == |a| - 1 {
      assert a[..b + 1] == a;
    } else {
      var front := a[..|a| - 1];
      FlattenStep(front, b);
      assert front[..b + 1] == a[..b + 1] && front[..b] == a[..b];
    }
  }

  /** The loop that fills the indices tensor, which leaves its cursor on the slot for the count. */
  method PackIndices(a: Assignment) returns (tensor: seq<int>, cursor: nat)
    ensures tensor == FirstTensor(a) && cursor == |Flatten(a)|
  {
    tensor, cursor := [], 0;
    for i := 0 to |a|
      invariant tensor == Ints(Flatten(a[..i])) && cursor == |tensor|
    {
      FlattenStep(a, i);
      for j := 0 to |a[i]|
        invariant tensor == Ints(Flatten(a[..i]) + a[i][..j]) && cursor == |tensor|
      {
        tensor, cursor := tensor + [ToInt(a[i][j])], cursor + 1;
      }
      assert a[i][..|a[i]|] == a[i];
    }
    assert a[..|a|] == a;
    tensor := tensor + [ToInt(|a|)];
  }

  /** The sizes tensor before the broadcast, whose contents matter on rank 0 only; `None` where a rank
      without buckets indexes its empty list. */
  method PackSizes(a: Assignment, numBuckets: nat) returns (tensor: Option<seq<int>>)
    ensures tensor.None? <==> a == [] && numBuckets > 0
    ensures tensor.Some? ==> |tensor.value| == numBuckets && (numBuckets == |a| ==> tensor.value == SecondTensor(a))
  {
    var sizes := Sizes(a);
    if a == [] && numBuckets > 0 { return None; }
    var filled := [];
    for i := 0 to numBuckets
      invariant |filled| == i && forall j :: 0 <= j < i && j < |a| ==> filled[j] == ToInt(sizes[j])
    {
      filled := filled + [ToInt(sizes[if i < |sizes| - 1 then i else |sizes| - 1])];
    }
    return Some(filled);
  }

  lemma NarrowRoundTrip(x: nat)
    requires x < INT32_HALF
    ensures ToInt(x) == x && ToSize(x) == x
  {
  }

  /** The unflattening loop undoes the flattening. */
  method Unpack(ghost a: Assignment, numBuckets: nat, sizes: seq<int>, indices: seq<int>) returns (r: Assignment)
    requires Countable(a) && numBuckets == |a| && sizes == SecondTensor(a) && indices == FirstTensor(a)
    ensures r == CarriedAll(a)
  {
    hide ToSize, ToInt, Flatten, Carried;
    FlattenNone();
    r := [];
    var cursor := 0;
    for i := 0 to numBuckets
      invariant |r| == i && forall b :: 0 <= b < i ==> r[b] == CarriedList(a[b])
      invariant cursor == |Flatten(a[..i])|
    {
      FlattenStep(a, i);
      NarrowRoundTrip(|a[i]|);
      var size := ToSize(sizes[i]);
      var bucket := UnpackBucket(a[i], size, cursor, indices);
      cursor := cursor + size;
      r := r + [bucket];
    }
  }

  lemma FlattenNone()
    ensures Flatten([]) == []
  {
  }

  method UnpackBucket(ghost bucket: seq<nat>, size: nat, from: nat, indices: seq<int>) returns (r: seq<nat>)
    requires size == |bucket| && from + size <= |indices|
    requires forall k :: 0 <= k < size ==> indices[from + k] == ToInt(bucket[k])
    ensures r == CarriedList(bucket)
  {
    r := [];
    var cursor := from;
    for j := 0 to size
      invariant |r| == j && cursor == from + j && forall k :: 0 <= k < j ==> r[k] == Carried(bucket[k])
    {
      assert indices[cursor] == ToInt(bucket[j]);
      r, cursor := r + [ToSize(indices[cursor])], cursor + 1;
    }
  }

  /** `sync_bucket_indices` on any rank: `root` is what rank 0 holds. As long as the totals agree, every rank
      ends with the same nested lists, cut as rank 0 cut them, however it had cut its own. */
  method SyncBucketIndices(local: Assignment, ghost root: Assignment, first: seq<int>, second: seq<int>) returns (r: Option<Assignment>)
    requires |Flatten(local)| == |Flatten(root)| && Countable(root)
    requires first == FirstTensor(root) && second == SecondTensor(root)
    ensures r == if local == [] && root != [] then None else Some(CarriedAll(root))
  {
    hide Flatten, CarriedAll;
    var tensor, cursor := PackIndices(local);
    assert |tensor| == |first|;              // the broadcast is over tensors of one size
    tensor := first;
    NarrowRoundTrip(|root|);
    var numBuckets := ToSize(tensor[cursor]);
    var sizes := PackSizes(local, numBuckets);
    if sizes.None? { return None; }
    assert |sizes.value| == |second|;        // and so is the second
    var synced := Unpack(root, numBuckets, second, tensor);
    return Some(synced);
  }

  ghost predicate AllSurvive(a: Assignment) { forall b, k :: 0 <= b < |a| && 0 <= k < |a[b]| ==> Survives(a[b][k]) }

  /** They are exactly rank 0's lists if and only if every index survives the `int` tensor: so for up to 2^31
      parameters they always are. */
  lemma SyncedIsRootsIff(root: Assignment)
    requires forall b, k :: 0 <= b < |root| && 0 <= k < |root[b]| ==> root[b][k] < SIZE_T
    ensures CarriedAll(root) == root <==> AllSurvive(root)
  {
    hide Carried, Survives;
    forall b, k | 0 <= b < |root| && 0 <= k < |root[b]| ensures Carried(root[b][k]) == root[b][k] <==> Survives(root[b][k]) {
      CarriedIff(root[b][k]);
    }
    if CarriedAll(root) == root {
      forall b, k | 0 <= b < |root| && 0 <= k < |root[b]| ensures Survives(root[b][k]) {
        assert CarriedAll(root)[b] == CarriedList(root[b]);
        assert CarriedList(root[b])[k] == Carried(root[b][k]);
      }
    }
    if AllSurvive(root) {
      forall b | 0 <= b < |root| ensures CarriedAll(root)[b] == root[b] {
        assert forall k :: 0 <= k < |root[b]| ==> CarriedList(root[b])[k] == root[b][k];
      }
    }
  }

  // ---------------------------------------------------------------- a computed assignment is a partition

  /** Where an entry stands in the flat list. */
  ghost function Place(a: Assignment, b: nat, k: nat): nat
    requires b < |a|
  {
    |Flatten(a[..b])| + k
  }

  lemma {:induction false} FlattenGrows(a: Assignment, b: nat, c: nat)
    requires b <= c <= |a|
    ensures |Flatten(a[..b])| <= |Flatten(a[..c])|
  {
    if b < c {
      FlattenGrows(a, b, c - 1);
      FlattenStep(a, c - 1);
    }
  }

  lemma PlacesDiffer(a: Assignment, b: nat, k: nat, c: nat, m: nat)
    requires b < |a| && k < |a[b]| && c < |a| && m < |a[c]| && Place(a, b, k) == Place(a, c, m)
    ensures b == c && k == m
  {
    FlattenStep(a, b);
    FlattenStep(a, c);
    if b < c { FlattenGrows(a, b + 1, c); }
    if c < b { FlattenGrows(a, c + 1, b); }
  }

  lemma {:induction false} FlattenHas(a: Assignment, v: nat)
    requires v in Flatten(a)
    ensures Occurs(a, v)
  {
    var front, last := a[..|a| - 1], a[|a| - 1];
    if v in last {
      var k: nat :| k < |last| && last[k] == v;
      assert OccursAt(a, v, |a| - 1, k);
    } else {
      FlattenHas(front, v);
      var b: nat, k: nat :| OccursAt(front, v, b, k);
      assert OccursAt(a, v, b, k);
    }
  }

  /** Lists without gaps, flat and free of repetition, are a partition. */
  lemma FlatPermutationIsPartition(a: Assignment, n: nat)
    requires forall b :: 0 <= b < |a| ==> a[b] != []
    requires Distinct(Flatten(a)) && forall v: nat :: v in Flatten(a) <==> v < n
    ensures Partition(a, n)
  {
    hide Flatten, Place;
    forall b, k | 0 <= b < |a| && 0 <= k < |a[b]| ensures a[b][k] < n {
      AtPlace(a, b, k);
      assert a[b][k] in Flatten(a);
    }
    FlatDistinctNoRepeats(a);
    forall v | 0 <= v < n ensures Occurs(a, v) { FlattenHas(a, v); }
  }

  lemma AtPlace(a: Assignment, b: nat, k: nat)
    requires b < |a| && k < |a[b]|
    ensures Place(a, b, k) < |Flatten(a)| && Flatten(a)[Place(a, b, k)] == a[b][k]
  {
    FlattenStep(a, b);
  }

  lemma FlatDistinctNoRepeats(a: Assignment)
    requires Distinct(Flatten(a))
    ensures NoRepeats(a)
  {
    hide Flatten, Place;
    forall b, k, c, m | 0 <= b < |a| && 0 <= k < |a[b]| && 0 <= c < |a| && 0 <= m < |a[c]| && a[b][k] == a[c][m]
      ensures b == c && k == m
    {
      AtPlace(a, b, k);
      AtPlace(a, c, m);
      PlacesDiffer(a, b, k, c, m);
    }
  }

  lemma {:induction false} FlattenIndices(groups: seq<seq<BA.Item>>)
    ensures Flatten(BA.AllIndices(groups)) == BA.Indices(BA.Concat(groups))
  {
    if groups != [] {
      var front := groups[..|groups| - 1];
      FlattenIndices(front);
      assert BA.AllIndices(groups)[..|groups| - 1] == BA.AllIndices(front);
    }
  }

  lemma {:induction false} CountedOnce(items: seq<BA.Item>, x: BA.Item)
    requires Distinct(BA.Indices(items))
    ensures multiset(items)[x] <= 1
  {
    if items != [] {
      var front, last := items[..|items| - 1], items[|items| - 1];
      var all := BA.Indices(items);
      assert BA.Indices(front) == all[..|front|];
      CountedOnce(front, x);
      assert items == front + [last];
      forall i | 0 <= i < |front| ensures front[i] != last { assert all[i] != all[|front|]; }
    }
  }

  lemma SameIndexSameItem(items: seq<BA.Item>, x: BA.Item, y: BA.Item)
    requires Distinct(BA.Indices(items)) && x in items && y in items && x.index == y.index
    ensures x == y
  {
    var i :| 0 <= i < |items| && items[i] == x;
    var j :| 0 <= j < |items| && items[j] == y;
    assert BA.Indices(items)[i] == BA.Indices(items)[j];
  }

  lemma OnceOnly(x: seq<BA.Item>, i: nat, j: nat)
    requires i < j < |x| && multiset(x)[x[i]] <= 1
    ensures x[i] != x[j]
  {
    assert x == x[..j] + [x[j]] + x[j + 1..];
    assert x[i] in x[..j];
  }

  lemma PermutedDistinct(x: seq<BA.Item>, items: seq<BA.Item>)
    requires multiset(x) == multiset(items) && Distinct(BA.Indices(items))
    ensures Distinct(BA.Indices(x))
  {
    forall i, j | 0 <= i < j < |x| ensures x[i].index != x[j].index {
      assert x[i] in multiset(items) && x[j] in multiset(items);
      CountedOnce(items, x[i]);
      OnceOnly(x, i, j);
      if x[i].index == x[j].index { SameIndexSameItem(items, x[i], x[j]); }
    }
  }

  /** An assignment computed for parameters numbered 0 to n-1, in whatever order, is a partition of them: what
      the reducer's tables need. */
  lemma AssignmentIsPartition(groups: seq<seq<BA.Item>>, items: seq<BA.Item>, limits: seq<nat>, n: nat)
    requires limits != [] && BA.Assigned(groups, items, limits)
    requires Distinct(BA.Indices(items)) && forall v: nat :: v in BA.Indices(items) <==> v < n
    ensures Partition(BA.AllIndices(groups), n)
  {
    hide BA.Assigned, BA.Concat, Flatten;
    BA.AssignedIsPartition(groups, items, limits);
    BA.AssignedNonEmpty(groups, items, limits);
    var x := BA.Concat(groups);
    PermutedDistinct(x, items);
    FlattenIndices(groups);
    forall v: nat ensures v in BA.Indices(x) <==> v in BA.Indices(items) { SameIndexSet(x, items, v); }
    FlatPermutationIsPartition(BA.AllIndices(groups), n);
  }

  lemma SameIndexSet(x: seq<BA.Item>, y: seq<BA.Item>, v: nat)
    requires multiset(x) == multiset(y)
    ensures v in BA.Indices(x) <==> v in BA.Indices(y)
  {
    if v in BA.Indices(x) { IndexCarriesOver(x, y, v); }
    if v in BA.Indices(y) { IndexCarriesOver(y, x, v); }
  }

  lemma IndexCarriesOver(x: seq<BA.Item>, y: seq<BA.Item>, v: nat)
    requires multiset(x) == multiset(y) && v in BA.Indices(x)
    ensures v in BA.Indices(y)
  {
    var i :| 0 <= i < |x| && BA.Indices(x)[i] == v;
    assert x[i] in multiset(y);
    var j :| 0 <= j < |y| && y[j] == x[i];
    assert BA.Indices(y)[j] == v;
  }
}
