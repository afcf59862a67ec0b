/** What the assignment by size means for the index lists it returns. */
module BucketSizes {
  import opened Basics
  import opened BucketAssignment

  // Sizes, keys and limits are read from the arguments. A bucket is described by the places its tensors have in the
  // list given.

  /** The arguments of one call. */
  datatype Input = Input(tensors: seq<Tensor>, limits: seq<nat>, expectSparse: seq<bool>, tensorIndices: seq<nat>)

  /** The index the tensor at a place goes by. */
  ghost function IndexAt(inp: Input, p: nat): nat {
    if p < |inp.tensorIndices| then inp.tensorIndices[p] else p
  }

  /** The tensor at a place expects a sparse gradient. */
  ghost predicate Flagged(inp: Input, p: nat) { IndexAt(inp, p) < |inp.expectSparse| && inp.expectSparse[IndexAt(inp, p)] }

  ghost function SizeOf(tensors: seq<Tensor>, places: seq<nat>): nat {
    if places == [] then 0
    else
      var last := places[|places| - 1];
      SizeOf(tensors, places[..|places| - 1]) + if last < |tensors| then tensors[last].bytes else 0
  }

  /** A bucket of tensors of this key, without expected sparse gradients. */
  ghost predicate OfKey(inp: Input, bucket: seq<nat>, key: Key) {
    bucket != [] && bucket[0] < |inp.tensors| && !Flagged(inp, bucket[0]) && inp.tensors[bucket[0]].key == key
  }

  /** How many of the first `b` buckets are of this key. */
  ghost function Earlier(inp: Input, placed: seq<seq<nat>>, b: nat, key: Key): nat
    requires b <= |placed|
  {
    if b == 0 then 0 else Earlier(inp, placed, b - 1, key) + if OfKey(inp, placed[b - 1], key) then 1 else 0
  }

  /** The limit that applies to bucket `b`: each key goes through the limits on its own and stays with the last. */
  ghost function LimitFor(inp: Input, placed: seq<seq<nat>>, b: nat): nat
    requires inp.limits != [] && b < |placed| && placed[b] != [] && placed[b][0] < |inp.tensors|
  {
    var k := Earlier(inp, placed, b, inp.tensors[placed[b][0]].key);
    if k < |inp.limits| then inp.limits[k] else inp.limits[|inp.limits| - 1]
  }

  ghost predicate InRange(inp: Input, bucket: seq<nat>) {
    bucket != [] && (forall k :: 0 <= k < |bucket| ==> bucket[k] < |inp.tensors|) && forall i, k :: 0 <= i < k < |bucket| ==> bucket[i] < bucket[k]
  }

  /** One key in a bucket; a tensor with an expected sparse gradient is alone. */
  ghost predicate OneKind(inp: Input, bucket: seq<nat>)
    requires InRange(inp, bucket)
  {
    if Flagged(inp, bucket[0]) then |bucket| == 1
    else forall k :: 0 <= k < |bucket| ==> !Flagged(inp, bucket[k]) && inp.tensors[bucket[k]].key == inp.tensors[bucket[0]].key
  }

  /** A bucket of a key stays below its limit without its last tensor; if it does so with it, it is what was left
      over and no bucket of the key follows. Its tensors come before those of the key's later buckets. */
  ghost predicate FilledBySize(inp: Input, placed: seq<seq<nat>>, b: nat)
    requires inp.limits != [] && b < |placed| && InRange(inp, placed[b])
  {
    var bucket, limit := placed[b], LimitFor(inp, placed, b);
    && (|bucket| > 1 ==> SizeOf(inp.tensors, bucket[..|bucket| - 1]) < limit)
    && forall c :: b < c < |placed| && OfKey(inp, placed[c], inp.tensors[bucket[0]].key) ==>
         SizeOf(inp.tensors, bucket) >= limit && bucket[|bucket| - 1] < placed[c][0]
  }

  ghost predicate BucketOk(inp: Input, placed: seq<seq<nat>>, b: nat)
    requires inp.limits != [] && b < |placed|
  {
    InRange(inp, placed[b]) && OneKind(inp, placed[b]) && (!Flagged(inp, placed[b][0]) ==> FilledBySize(inp, placed, b))
  }

  ghost predicate At(placed: seq<seq<nat>>, b: nat, k: nat, p: nat) { b < |placed| && k < |placed[b]| && placed[b][k] == p }

  ghost predicate InSomeBucket(placed: seq<seq<nat>>, p: nat) { exists b, k :: At(placed, b, k, p) }

  /** Every tensor is in exactly one place of exactly one bucket. */
  ghost predicate EachOnce(placed: seq<seq<nat>>, n: nat) {
    && (forall p: nat :: p < n ==> InSomeBucket(placed, p))
    && (forall b, k, c, l, p :: At(placed, b, k, p) && At(placed, c, l, p) ==> b == c && k == l)
  }

  ghost predicate FirstsRise(placed: seq<seq<nat>>) {
    forall b, c :: 0 <= b < c < |placed| ==> placed[b] != [] && placed[c] != [] && placed[b][0] < placed[c][0]
  }

  ghost predicate LastsRise(placed: seq<seq<nat>>) {
    forall b, c :: 0 <= b < c < |placed| ==> placed[b] != [] && placed[c] != [] && placed[b][|placed[b]| - 1] < placed[c][|placed[c]| - 1]
  }

  /** The bucket was closed while filling: it reaches its limit, or is that of a tensor with an expected sparse gradient. */
  ghost predicate Full(inp: Input, placed: seq<seq<nat>>, b: nat)
    requires inp.limits != [] && b < |placed|
  {
    InRange(inp, placed[b]) && (Flagged(inp, placed[b][0]) || SizeOf(inp.tensors, placed[b]) >= LimitFor(inp, placed, b))
  }

  /** Tensors in their own order: buckets by their first tensor. Given in another order: those closed while filling,
      by their last tensor, then what was left over. */
  ghost predicate BucketOrder(inp: Input, placed: seq<seq<nat>>, closed: nat)
    requires inp.limits != []
  {
    if inp.tensorIndices == [] then FirstsRise(placed)
    else
      closed <= |placed| && LastsRise(placed[..closed]) && forall b :: 0 <= b < |placed| ==> (b < closed <==> Full(inp, placed, b))
  }

  ghost predicate AssignedBySize(inp: Input, placed: seq<seq<nat>>, closed: nat)
    requires inp.limits != []
  {
    && EachOnce(placed, |inp.tensors|)
    && (forall b :: 0 <= b < |placed| ==> BucketOk(inp, placed, b))
    && BucketOrder(inp, placed, closed)
  }

  /** The lists name the tensors at those places by their indices. */
  ghost predicate Names(lists: seq<seq<nat>>, placed: seq<seq<nat>>, inp: Input) {
    && |lists| == |placed|
    && forall b :: 0 <= b < |lists| ==> |lists[b]| == |placed[b]| && forall k :: 0 <= k < |lists[b]| ==> lists[b][k] == IndexAt(inp, placed[b][k])
  }

  // ---------------------------------------------------------------- from items to places

  ghost function Places(group: seq<Item>): (r: seq<nat>)
    ensures |r| == |group| && forall k :: 0 <= k < |r| ==> r[k] == group[k].place
  {
    seq(|group|, k requires 0 <= k < |group| => group[k].place)
  }

  ghost function AllPlaces(groups: seq<seq<Item>>): (r: seq<seq<nat>>)
    ensures |r| == |groups| && forall b :: 0 <= b < |r| ==> r[b] == Places(groups[b])
  {
    seq(|groups|, b requires 0 <= b < |groups| => Places(groups[b]))
  }

  /** The item says of its tensor what the arguments say. */
  ghost predicate Tells(x: Item, inp: Input) {
    && x.place < |inp.tensors| && x.index == IndexAt(inp, x.place) && x.sparse == Flagged(inp, x.place)
    && x.key == inp.tensors[x.place].key && x.bytes == inp.tensors[x.place].bytes
  }

  ghost predicate AllTell(group: seq<Item>, inp: Input) { forall k :: 0 <= k < |group| ==> Tells(group[k], inp) }

  ghost predicate Fits(inp: Input) {
    inp.limits != [] && Consistent(inp.tensors, inp.expectSparse, inp.tensorIndices) && !Refused(inp.tensors, inp.expectSparse)
  }

  ghost function ItemsFor(inp: Input): seq<Item>
    requires Fits(inp)
  {
    Items(inp.tensors, inp.expectSparse, inp.tensorIndices)
  }

  lemma ItemsTell(inp: Input)
    requires Fits(inp)
    ensures Numbered(ItemsFor(inp)) && AllTell(ItemsFor(inp), inp) && |ItemsFor(inp)| == |inp.tensors|
  {
  }

  /** What the proofs below start from. */
  ghost predicate Made(groups: seq<seq<Item>>, inp: Input) { Fits(inp) && Assigned(groups, ItemsFor(inp), inp.limits) }

  lemma GroupTells(groups: seq<seq<Item>>, inp: Input, b: nat)
    requires Made(groups, inp) && b < |groups|
    ensures AllTell(groups[b], inp) && Uniform(groups[b])
    ensures forall k :: 0 <= k < |groups[b]| ==> groups[b][k] == ItemsFor(inp)[groups[b][k].place]
  {
    hide Assigned, Items, Concat, Tells, ClassOf;
    var items := ItemsFor(inp);
    ItemsTell(inp);
    AssignedIsPartition(groups, items, inp.limits);
    IsUniform(groups, items, inp.limits, b);
    forall k | 0 <= k < |groups[b]| ensures Tells(groups[b][k], inp) && groups[b][k].place < |items| && groups[b][k] == items[groups[b][k].place] {
      InConcat(groups, b, groups[b][k]);
      assert groups[b][k] in multiset(items);
      var i :| 0 <= i < |items| && items[i] == groups[b][k];
    }
  }

  lemma IsUniform(groups: seq<seq<Item>>, items: seq<Item>, limits: seq<nat>, b: nat)
    requires limits != [] && Assigned(groups, items, limits) && b < |groups|
    ensures Uniform(groups[b])
  {
  }

  lemma {:induction false} BytesAreSize(group: seq<Item>, inp: Input)
    requires AllTell(group, inp)
    ensures Bytes(group) == SizeOf(inp.tensors, Places(group))
  {
    if group != [] {
      var front := group[..|group| - 1];
      assert Places(group)[..|group| - 1] == Places(front);
      BytesAreSize(front, inp);
    }
  }

  // ---------------------------------------------------------------- a bucket among those of its class

  lemma {:induction false} EarlierCounts(groups: seq<seq<Item>>, inp: Input, b: nat, key: Key)
    requires Made(groups, inp) && b <= |groups|
    ensures Earlier(inp, AllPlaces(groups), b, key) == |GroupsOf(groups[..b], Dense(key))|
  {
    hide Made, Uniform, GroupsOf;
    if b == 0 {
      NoGroups(Dense(key));
      assert groups[..0] == [];
    } else {
      EarlierCounts(groups, inp, b - 1, key);
      NextGroup(groups, b - 1, Dense(key));
      OfKeyMeaning(groups, inp, b - 1, key);
    }
  }

  lemma NoGroups(c: Class)
    ensures GroupsOf([], c) == []
  {
  }

  lemma NextGroup(groups: seq<seq<Item>>, b: nat, c: Class)
    requires b < |groups|
    ensures GroupsOf(groups[..b + 1], c)
         == GroupsOf(groups[..b], c) + if groups[b] != [] && ClassOf(groups[b][0]) == c then [groups[b]] else []
  {
    assert groups[..b + 1][..b] == groups[..b];
  }

  lemma OfKeyMeaning(groups: seq<seq<Item>>, inp: Input, b: nat, key: Key)
    requires Made(groups, inp) && b < |groups|
    ensures groups[b] != [] && (OfKey(inp, AllPlaces(groups)[b], key) <==> ClassOf(groups[b][0]) == Dense(key))
  {
    hide Made;
    GroupTells(groups, inp, b);
    assert Tells(groups[b][0], inp);
  }

  lemma {:induction false} GroupsOfGrows(groups: seq<seq<Item>>, a: nat, b: nat, c: Class)
    requires a <= b <= |groups|
    ensures GroupsOf(groups[..a], c) <= GroupsOf(groups[..b], c)
    decreases b
  {
    hide GroupsOf;
    if a < b {
      GroupsOfGrows(groups, a, b - 1, c);
      NextGroup(groups, b - 1, c);
    }
  }

  /** A bucket stands among those of its class where the count of the earlier ones says. */
  lemma GroupAt(groups: seq<seq<Item>>, b: nat, end: nat, c: Class)
    requires b < end <= |groups| && groups[b] != [] && ClassOf(groups[b][0]) == c
    ensures var k, all := |GroupsOf(groups[..b], c)|, GroupsOf(groups[..end], c); k < |all| && all[k] == groups[b]
  {
    hide GroupsOf;
    NextGroup(groups, b, c);
    GroupsOfGrows(groups, b + 1, end, c);
  }

  // ---------------------------------------------------------------- places go up within a class

  ghost predicate Rising(items: seq<Item>) { forall i, j :: 0 <= i < j < |items| ==> items[i].place < items[j].place }

  ghost predicate PlacedBelow(items: seq<Item>, m: nat) { forall i :: 0 <= i < |items| ==> items[i].place < m }

  lemma {:induction false} ItemsOfPlacedBelow(items: seq<Item>, c: Class, m: nat)
    requires PlacedBelow(items, m)
    ensures PlacedBelow(ItemsOf(items, c), m)
  {
    if items != [] { ItemsOfPlacedBelow(items[..|items| - 1], c, m); }
  }

  lemma {:induction false} ItemsOfRising(items: seq<Item>, c: Class)
    requires Rising(items)
    ensures Rising(ItemsOf(items, c))
  {
    if items != [] {
      var front, last := items[..|items| - 1], items[|items| - 1];
      ItemsOfRising(front, c);
      ItemsOfPlacedBelow(front, c, last.place);
    }
  }

  /** All of `a` before all of `b`. */
  ghost predicate Before(a: seq<Item>, b: seq<Item>) { forall i, k :: 0 <= i < |a| && 0 <= k < |b| ==> a[i].place < b[k].place }

  lemma {:induction false} RisingGroups(groups: seq<seq<Item>>)
    requires Rising(Concat(groups))
    ensures forall b :: 0 <= b < |groups| ==> Rising(groups[b])
    ensures forall b, c :: 0 <= b < c < |groups| ==> Before(groups[b], groups[c])
  {
    hide Concat, Rising, Before;
    if groups != [] {
      var front, last := groups[..|groups| - 1], groups[|groups| - 1];
      assert groups == front + [last];
      ConcatSnoc(front, last);
      RisingParts(Concat(front), last);
      RisingGroups(front);
      forall b | 0 <= b < |front| ensures Before(groups[b], last) { PartBefore(front, b, last); }
    }
  }

  lemma RisingParts(a: seq<Item>, b: seq<Item>)
    requires Rising(a + b)
    ensures Rising(a) && Rising(b) && Before(a, b)
  {
    assert a == (a + b)[..|a|] && b == (a + b)[|a|..];
  }

  lemma PartBefore(groups: seq<seq<Item>>, b: nat, last: seq<Item>)
    requires b < |groups| && Before(Concat(groups), last)
    ensures Before(groups[b], last)
  {
    hide Concat;
    forall i, k | 0 <= i < |groups[b]| && 0 <= k < |last| ensures groups[b][i].place < last[k].place {
      InConcat(groups, b, groups[b][i]);
    }
  }

  lemma ClassRises(groups: seq<seq<Item>>, inp: Input, c: Class)
    requires Made(groups, inp)
    ensures Rising(Concat(GroupsOf(groups, c)))
  {
    hide Items, FillAll, GroupsOf, ItemsOf, Concat, Groups;
    var items := ItemsFor(inp);
    ItemsTell(inp);
    assert ClassDone(groups, items, inp.limits, c);
    FillAllKeeps(ItemsOf(items, c), inp.limits);
    ConcatGroups(FillAll(ItemsOf(items, c), inp.limits));
    ItemsOfRising(items, c);
  }

  lemma GroupRises(groups: seq<seq<Item>>, inp: Input, b: nat)
    requires Made(groups, inp) && b < |groups|
    ensures Rising(groups[b])
  {
    hide Made, GroupsOf, Concat;
    GroupTells(groups, inp, b);
    var c := ClassOf(groups[b][0]);
    GroupAt(groups, b, |groups|, c);
    assert groups[..|groups|] == groups;
    ClassRises(groups, inp, c);
    RisingGroups(GroupsOf(groups, c));
  }

  lemma GroupsRise(groups: seq<seq<Item>>, inp: Input, b: nat, d: nat)
    requires Made(groups, inp) && b < d < |groups| && groups[b] != [] && groups[d] != [] && ClassOf(groups[b][0]) == ClassOf(groups[d][0])
    ensures Before(groups[b], groups[d])
    ensures |GroupsOf(groups[..b], ClassOf(groups[b][0]))| < |GroupsOf(groups[..d], ClassOf(groups[b][0]))|
  {
    hide Made, GroupsOf, Concat;
    var c := ClassOf(groups[b][0]);
    GroupAt(groups, b, d, c);
    GroupAt(groups, b, |groups|, c);
    GroupAt(groups, d, |groups|, c);
    assert groups[..|groups|] == groups;
    ClassRises(groups, inp, c);
    RisingGroups(GroupsOf(groups, c));
  }

  // ---------------------------------------------------------------- the size of a bucket

  /** Below its limit without its last item; and it reaches the limit exactly if its greedy run closed it. */
  lemma GroupSize(groups: seq<seq<Item>>, inp: Input, b: nat, key: Key)
    requires Made(groups, inp) && b < |groups| && groups[b] != [] && ClassOf(groups[b][0]) == Dense(key)
    ensures var k, g := |GroupsOf(groups[..b], Dense(key))|, Run(ItemsFor(inp), inp.limits, Dense(key));
            && (|groups[b]| > 1 ==> Bytes(groups[b][..|groups[b]| - 1]) < LimitAt(inp.limits, k))
            && k < |Groups(g)| && GroupsOf(groups, Dense(key)) == Groups(g)
            && (k < |g.closed| <==> Bytes(groups[b]) >= LimitAt(inp.limits, k))
  {
    hide Items, FillAll, GroupsOf, ItemsOf, Concat, Bytes, LimitAt;
    var items, c := ItemsFor(inp), Dense(key);
    var g, k := Run(items, inp.limits, c), |GroupsOf(groups[..b], c)|;
    assert ClassDone(groups, items, inp.limits, c);
    ItemsOfUniform(items, c);
    FillAllIsGreedyCut(ItemsOf(items, c), inp.limits);
    GroupAt(groups, b, |groups|, c);
    assert groups[..|groups|] == groups;
    if k < |g.closed| {
      assert Reaches(g.closed[k], inp.limits, k);
    } else {
      assert groups[b] == g.open;
      FrontIsSmaller(g.open);
    }
  }

  lemma FrontIsSmaller(group: seq<Item>)
    requires group != []
    ensures Bytes(group[..|group| - 1]) <= Bytes(group)
  {
  }

  lemma LimitAgrees(groups: seq<seq<Item>>, inp: Input, b: nat, key: Key)
    requires Made(groups, inp) && b < |groups| && groups[b] != [] && ClassOf(groups[b][0]) == Dense(key)
    ensures var placed := AllPlaces(groups);
            && placed[b] != [] && placed[b][0] < |inp.tensors| && inp.tensors[placed[b][0]].key == key && !Flagged(inp, placed[b][0])
            && LimitFor(inp, placed, b) == LimitAt(inp.limits, |GroupsOf(groups[..b], Dense(key))|)
  {
    hide GroupsOf, Assigned;
    GroupTells(groups, inp, b);
    assert Tells(groups[b][0], inp);
    EarlierCounts(groups, inp, b, key);
  }

  lemma SizesAgree(groups: seq<seq<Item>>, inp: Input, b: nat)
    requires Made(groups, inp) && b < |groups| && groups[b] != []
    ensures var bucket := AllPlaces(groups)[b];
            && SizeOf(inp.tensors, bucket) == Bytes(groups[b])
            && SizeOf(inp.tensors, bucket[..|bucket| - 1]) == Bytes(groups[b][..|groups[b]| - 1])
  {
    hide Made, SizeOf, Bytes, Tells;
    GroupTells(groups, inp, b);
    var front := groups[b][..|groups[b]| - 1];
    BytesAreSize(groups[b], inp);
    BytesAreSize(front, inp);
    assert Places(front) == AllPlaces(groups)[b][..|front|];
  }

  lemma GroupInRange(groups: seq<seq<Item>>, inp: Input, b: nat)
    requires Made(groups, inp) && b < |groups|
    ensures InRange(inp, AllPlaces(groups)[b])
  {
    hide Made;
    GroupTells(groups, inp, b);
    GroupRises(groups, inp, b);
    forall k | 0 <= k < |groups[b]| ensures groups[b][k].place < |inp.tensors| { assert Tells(groups[b][k], inp); }
  }

  lemma GroupOneKind(groups: seq<seq<Item>>, inp: Input, b: nat)
    requires Made(groups, inp) && b < |groups| && InRange(inp, AllPlaces(groups)[b])
    ensures OneKind(inp, AllPlaces(groups)[b])
    ensures Flagged(inp, AllPlaces(groups)[b][0]) <==> ClassOf(groups[b][0]) == Sparse
  {
    hide Made, GroupsOf, InRange, Flagged;
    GroupTells(groups, inp, b);
    forall k | 0 <= k < |groups[b]| ensures Tells(groups[b][k], inp) && ClassOf(groups[b][k]) == ClassOf(groups[b][0]) {}
    assert Tells(groups[b][0], inp);
    if groups[b][0].sparse { GroupAlone(groups, inp, b); }
  }

  lemma GroupAlone(groups: seq<seq<Item>>, inp: Input, b: nat)
    requires Made(groups, inp) && b < |groups| && groups[b] != [] && groups[b][0].sparse
    ensures |groups[b]| == 1
  {
    hide Items, Assigned, GroupsOf, ItemsOf, GreedyCut;
    var g := AssignedMeaning(groups, ItemsFor(inp), inp.limits, groups[b][0].key);
    GroupAt(groups, b, |groups|, Sparse);
    assert groups[..|groups|] == groups;
  }

  lemma GroupFilled(groups: seq<seq<Item>>, inp: Input, b: nat)
    requires Made(groups, inp) && b < |groups| && groups[b] != [] && ClassOf(groups[b][0]) != Sparse
    requires inp.limits != [] && InRange(inp, AllPlaces(groups)[b])
    ensures FilledBySize(inp, AllPlaces(groups), b)
  {
    hide Made, InRange, SizeOf, Bytes, LimitFor, LimitAt, GroupsOf, Run, Flagged;
    var key, placed := groups[b][0].key, AllPlaces(groups);
    LimitAgrees(groups, inp, b, key);
    SizesAgree(groups, inp, b);
    GroupSize(groups, inp, b, key);
    forall c | b < c < |placed| && OfKey(inp, placed[c], key)
      ensures SizeOf(inp.tensors, placed[b]) >= LimitFor(inp, placed, b) && placed[b][|placed[b]| - 1] < placed[c][0]
    {
      OfKeyMeaning(groups, inp, c, key);
      GroupsRise(groups, inp, b, c);
      GroupSize(groups, inp, c, key);
    }
  }

  lemma EveryBucketOk(groups: seq<seq<Item>>, inp: Input, b: nat)
    requires Made(groups, inp) && b < |groups|
    ensures inp.limits != [] && BucketOk(inp, AllPlaces(groups), b)
  {
    hide Assigned, InRange, OneKind, FilledBySize, Flagged;
    GroupTells(groups, inp, b);
    GroupInRange(groups, inp, b);
    GroupOneKind(groups, inp, b);
    if ClassOf(groups[b][0]) != Sparse { GroupFilled(groups, inp, b); }
  }

  // ---------------------------------------------------------------- each tensor once

  lemma {:induction false} InSomeGroup(groups: seq<seq<Item>>, x: Item) returns (b: nat, k: nat)
    requires x in Concat(groups)
    ensures b < |groups| && k < |groups[b]| && groups[b][k] == x
  {
    var last := groups[|groups| - 1];
    if x in last {
      b := |groups| - 1;
      k :| k < |last| && last[k] == x;
    } else {
      b, k := InSomeGroup(groups[..|groups| - 1], x);
    }
  }

  lemma EveryTensorOnce(groups: seq<seq<Item>>, inp: Input)
    requires Made(groups, inp)
    ensures EachOnce(AllPlaces(groups), |inp.tensors|)
  {
    hide Made, Concat, InSomeBucket;
    var placed := AllPlaces(groups);
    forall p: nat | p < |inp.tensors| ensures InSomeBucket(placed, p) { TensorIsSomewhere(groups, inp, p); }
    forall b, k, c, l, p | At(placed, b, k, p) && At(placed, c, l, p) ensures b == c && k == l {
      if b < c { NotInBoth(groups, inp, b, k, c, l); }
      else if c < b { NotInBoth(groups, inp, c, l, b, k); }
      else { GroupRises(groups, inp, b); }
    }
  }

  lemma TensorIsSomewhere(groups: seq<seq<Item>>, inp: Input, p: nat)
    requires Made(groups, inp) && p < |inp.tensors|
    ensures InSomeBucket(AllPlaces(groups), p)
  {
    hide Items, Assigned, Concat, AllTell;
    var items := ItemsFor(inp);
    ItemsTell(inp);
    AssignedIsPartition(groups, items, inp.limits);
    assert items[p] in multiset(Concat(groups));
    var b, k := InSomeGroup(groups, items[p]);
    assert At(AllPlaces(groups), b, k, p);
  }

  lemma NotInBoth(groups: seq<seq<Item>>, inp: Input, b: nat, k: nat, c: nat, l: nat)
    requires Made(groups, inp) && b < c < |groups| && k < |groups[b]| && l < |groups[c]|
    ensures groups[b][k].place != groups[c][l].place
  {
    hide Made, ClassOf, Tells;
    GroupTells(groups, inp, b);
    GroupTells(groups, inp, c);
    if ClassOf(groups[b][0]) == ClassOf(groups[c][0]) { GroupsRise(groups, inp, b, c); }
    else { assert ClassOf(groups[b][k]) != ClassOf(groups[c][l]); }
  }

  // ---------------------------------------------------------------- the order of the buckets

  lemma SortedOrder(groups: seq<seq<Item>>, inp: Input, closed: nat)
    requires Made(groups, inp) && inp.limits != [] && inp.tensorIndices == [] && NonEmpty(groups) && SortedByMin(groups)
    ensures BucketOrder(inp, AllPlaces(groups), closed)
  {
    hide Made, MinIndex, Tells;
    var placed := AllPlaces(groups);
    forall b, c | 0 <= b < c < |placed| ensures placed[b] != [] && placed[c] != [] && placed[b][0] < placed[c][0] {
      NotInBoth(groups, inp, b, 0, c, 0);
      FirstIsLeast(groups, inp, b);
      FirstIsLeast(groups, inp, c);
    }
  }

  lemma FirstIsLeast(groups: seq<seq<Item>>, inp: Input, b: nat)
    requires Made(groups, inp) && inp.tensorIndices == [] && b < |groups| && groups[b] != []
    ensures MinIndex(groups[b]) == groups[b][0].place
  {
    hide Made, MinIndex;
    GroupTells(groups, inp, b);
    GroupRises(groups, inp, b);
    var m := MinWitness(groups[b]);
    assert Tells(groups[b][0], inp) && Tells(groups[b][m], inp);
  }

  lemma ClosingOrder(groups: seq<seq<Item>>, inp: Input, closed: nat)
    requires Made(groups, inp) && inp.limits != [] && inp.tensorIndices != [] && ClosedFirst(groups, closed, ItemsFor(inp), inp.limits)
    ensures BucketOrder(inp, AllPlaces(groups), closed)
  {
    hide Made, Full, Run, GroupsOf, ItemsFor;
    var placed := AllPlaces(groups);
    ItemsNumbered(groups, inp);
    forall b, c | 0 <= b < c < closed
      ensures placed[b] != [] && placed[c] != [] && placed[b][|placed[b]| - 1] < placed[c][|placed[c]| - 1]
    {
      assert groups[..closed][b] == groups[b] && groups[..closed][c] == groups[c];
    }
    forall b | 0 <= b < |placed| ensures b < closed <==> Full(inp, placed, b) { ClosedIff(groups, inp, closed, b); }
  }

  lemma ItemsNumbered(groups: seq<seq<Item>>, inp: Input)
    requires Made(groups, inp)
    ensures Numbered(ItemsFor(inp))
  {
    ItemsTell(inp);
  }

  lemma ClosedIff(groups: seq<seq<Item>>, inp: Input, closed: nat, b: nat)
    requires Made(groups, inp) && ClosedFirst(groups, closed, ItemsFor(inp), inp.limits) && b < |groups|
    ensures b < closed <==> Full(inp, AllPlaces(groups), b)
  {
    hide InRange, SizeOf, LimitFor, GroupsOf, Bytes, LimitAt, Items, Assigned, InClosingOrder, FillAll, ItemsOf, Flagged;
    GroupTells(groups, inp, b);
    GroupInRange(groups, inp, b);
    GroupOneKind(groups, inp, b);
    var c := ClassOf(groups[b][0]);
    var k, g := |GroupsOf(groups[..b], c)|, Run(ItemsFor(inp), inp.limits, c);
    assert GroupsOf(groups[..closed], c) == g.closed;
    if b < closed { GroupAt(groups, b, closed, c); } else { GroupsOfGrows(groups, closed, b, c); }
    if c.Dense? {
      LimitAgrees(groups, inp, b, c.key);
      SizesAgree(groups, inp, b);
      GroupSize(groups, inp, b, c.key);
    } else {
      AllSparseClosed(groups, inp);
      GroupAt(groups, b, |groups|, c);
      assert groups[..|groups|] == groups;
    }
  }

  lemma AllSparseClosed(groups: seq<seq<Item>>, inp: Input)
    requires Made(groups, inp)
    ensures GroupsOf(groups, Sparse) == Run(ItemsFor(inp), inp.limits, Sparse).closed
  {
    hide Items, GroupsOf, FillAll, ItemsOf;
    OpenIsUniform(ItemsFor(inp), inp.limits, Sparse);
    assert ClassDone(groups, ItemsFor(inp), inp.limits, Sparse);
  }

  /** The whole claim, from the assignment of the items. */
  lemma MadeIsBySize(groups: seq<seq<Item>>, inp: Input, closed: nat)
    requires Made(groups, inp) && inp.limits != []
    requires if inp.tensorIndices == [] then NonEmpty(groups) && SortedByMin(groups) else ClosedFirst(groups, closed, ItemsFor(inp), inp.limits)
    ensures AssignedBySize(inp, AllPlaces(groups), closed)
    ensures Names(AllIndices(groups), AllPlaces(groups), inp)
  {
    hide Made, NonEmpty, SortedByMin, ClosedFirst, BucketOrder, EachOnce, OneKind, FilledBySize, InRange, IndexAt;
    EveryTensorOnce(groups, inp);
    forall b | 0 <= b < |groups| ensures BucketOk(inp, AllPlaces(groups), b) { EveryBucketOk(groups, inp, b); }
    if inp.tensorIndices == [] { SortedOrder(groups, inp, closed); } else { ClosingOrder(groups, inp, closed); }
    forall b | 0 <= b < |groups| ensures AllTell(groups[b], inp) { GroupTells(groups, inp, b); }
  }

  // ---------------------------------------------------------------- the entry point

  /** `compute_bucket_assignment_by_size`. Tensors in their own order have their buckets sorted by least
      index; given in another order, the buckets stay as they were closed. `placed` says where the tensors that
      the returned lists name stand in `tensors`. */
  method ComputeBucketAssignmentBySize(tensors: seq<Tensor>, limits: seq<nat>, expectSparse: seq<bool>, tensorIndices: seq<nat>)
    returns (r: Option<seq<seq<nat>>>, ghost groups: seq<seq<Item>>, ghost placed: seq<seq<nat>>, ghost closed: nat)
    requires limits != [] && Consistent(tensors, expectSparse, tensorIndices)
    ensures r.None? <==> Refused(tensors, expectSparse)
    ensures (r.Some? ==>
              var inp := Input(tensors, limits, expectSparse, tensorIndices);
              AssignedBySize(inp, placed, closed) && Names(r.value, placed, inp))
    ensures (r.Some? ==>
              && r.value == AllIndices(groups)
              && Assigned(groups, Items(tensors, expectSparse, tensorIndices), limits)
              && multiset(Concat(groups)) == multiset(Items(tensors, expectSparse, tensorIndices))
              && (tensorIndices == [] ==> NonEmpty(groups) && SortedByMin(groups)))
  {
    hide Assigned, SortedByMin, Concat, AssignedBySize, Names;
    if Refused(tensors, expectSparse) {
      return None, [], [], 0;
    }
    var items := Items(tensors, expectSparse, tensorIndices);
    var result;
    result, closed := Accumulate(items, limits);
    if tensorIndices == [] {
      AssignedNonEmpty(result, items, limits);
      var sorted := Sort(result);
      SortedStaysAssigned(result, sorted, items, limits);
      result := sorted;
    }
    AssignedIsPartition(result, items, limits);
    ghost var inp := Input(tensors, limits, expectSparse, tensorIndices);
    MadeIsBySize(result, inp, closed);
    return Some(AllIndices(result)), result, AllPlaces(result), closed;
  }
}
