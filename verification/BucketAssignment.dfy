/** Greedy assignment of parameters to buckets by size.

    Tensors with an expected sparse gradient are set apart. The others are filled key by key, each key going
    through the limits on its own. `BucketSizes` says what that means for the lists the entry point returns. */
module BucketAssignment {
  import opened Basics

  datatype Key = Key(dtype: nat, device: nat)

  datatype Tensor = Tensor(key: Key, bytes: nat, isSparse: bool)

  /** A tensor as the assignment sees it: where it stands in the list given, and the index it goes by. */
  datatype Item = Item(place: nat, index: nat, key: Key, bytes: nat, sparse: bool)

  /** Tensors with an expected sparse gradient are apart; the others are told apart by their key. */
  datatype Class = Sparse | Dense(key: Key)

  function ClassOf(x: Item): Class { if x.sparse then Sparse else Dense(x.key) }

  function Bytes(items: seq<Item>): nat {
    if items == [] then 0 else Bytes(items[..|items| - 1]) + items[|items| - 1].bytes
  }

  // ---------------------------------------------------------------- one class by itself

  /** The items of a class, in order. */
  ghost function ItemsOf(items: seq<Item>, c: Class): seq<Item> {
    if items == [] then []
    else ItemsOf(items[..|items| - 1], c) + if ClassOf(items[|items| - 1]) == c then [items[|items| - 1]] else []
  }

  /** Buckets closed so far, and the one being filled. */
  datatype Greedy = Greedy(closed: seq<seq<Item>>, open: seq<Item>)

  function LimitAt(limits: seq<nat>, k: nat): nat
    requires limits != []
  {
    limits[if k < |limits| then k else |limits| - 1]
  }

  ghost function Fill(g: Greedy, x: Item, limits: seq<nat>): Greedy
    requires limits != []
  {
    if x.sparse || Bytes(g.open + [x]) >= LimitAt(limits, |g.closed|)
    then Greedy(g.closed + [g.open + [x]], [])
    else g.(open := g.open + [x])
  }

  ghost function FillAll(items: seq<Item>, limits: seq<nat>): Greedy
    requires limits != []
  {
    if items == [] then Greedy([], []) else Fill(FillAll(items[..|items| - 1], limits), items[|items| - 1], limits)
  }

  ghost function Groups(g: Greedy): seq<seq<Item>> { if g.open == [] then g.closed else g.closed + [g.open] }

  function Concat(groups: seq<seq<Item>>): seq<Item> {
    if groups == [] then [] else Concat(groups[..|groups| - 1]) + groups[|groups| - 1]
  }

  /** Which cuts of a sequence into buckets are greedy ones: the k-th closed bucket reaches the k-th limit
      (or the last there is) with its last item and not before, and what is left over does not reach its own. */
  ghost predicate Reaches(group: seq<Item>, limits: seq<nat>, k: nat)
    requires limits != []
  {
    && group != []
    && Bytes(group) >= LimitAt(limits, k)
    && (|group| > 1 ==> Bytes(group[..|group| - 1]) < LimitAt(limits, k))
  }

  ghost predicate GreedyCut(g: Greedy, items: seq<Item>, limits: seq<nat>)
    requires limits != []
  {
    && Concat(g.closed) + g.open == items
    && (forall k :: 0 <= k < |g.closed| ==> Reaches(g.closed[k], limits, k))
    && (g.open != [] ==> Bytes(g.open) < LimitAt(limits, |g.closed|))
  }

  lemma ConcatSnoc(groups: seq<seq<Item>>, group: seq<Item>)
    ensures Concat(groups + [group]) == Concat(groups) + group
  {
  }

  lemma ConcatNone()
    ensures Concat([]) == []
  {
  }

  lemma FillKeeps(g: Greedy, x: Item, limits: seq<nat>)
    requires limits != []
    ensures var g' := Fill(g, x, limits); Concat(g'.closed) + g'.open == Concat(g.closed) + g.open + [x]
  {
    hide Concat, Bytes;
    ConcatSnoc(g.closed, g.open + [x]);
  }

  lemma FillKeepsCut(g: Greedy, items: seq<Item>, x: Item, limits: seq<nat>)
    requires limits != [] && GreedyCut(g, items, limits) && !x.sparse
    ensures GreedyCut(Fill(g, x, limits), items + [x], limits)
  {
    hide Concat, Bytes, LimitAt;
    FillKeeps(g, x, limits);
    var group := g.open + [x];
    assert group[..|group| - 1] == g.open;
  }

  lemma {:induction false} FillAllIsGreedyCut(items: seq<Item>, limits: seq<nat>)
    requires limits != [] && forall i :: 0 <= i < |items| ==> !items[i].sparse
    ensures GreedyCut(FillAll(items, limits), items, limits)
  {
    hide Fill, Bytes, Concat;
    if items != [] {
      var front, x := items[..|items| - 1], items[|items| - 1];
      FillAllIsGreedyCut(front, limits);
      FillKeepsCut(FillAll(front, limits), front, x, limits);
      assert items == front + [x];
    } else {
      ConcatNone();
    }
  }

  /** A greedy cut without its last item. */
  ghost function Peel(g: Greedy): Greedy
    requires g.open != [] || (g.closed != [] && g.closed[|g.closed| - 1] != [])
  {
    if g.open != [] then g.(open := g.open[..|g.open| - 1])
    else
      var last := g.closed[|g.closed| - 1];
      Greedy(g.closed[..|g.closed| - 1], last[..|last| - 1])
  }

  lemma PeelOpen(g: Greedy, items: seq<Item>, limits: seq<nat>)
    requires limits != [] && GreedyCut(g, items, limits) && g.open != []
    ensures items != [] && GreedyCut(Peel(g), items[..|items| - 1], limits)
    ensures !items[|items| - 1].sparse ==> Fill(Peel(g), items[|items| - 1], limits) == g
  {
  }

  lemma PeelClosed(g: Greedy, items: seq<Item>, limits: seq<nat>)
    requires limits != [] && GreedyCut(g, items, limits) && g.open == [] && items != []
    ensures g.closed != [] && g.closed[|g.closed| - 1] != [] && GreedyCut(Peel(g), items[..|items| - 1], limits)
    ensures Fill(Peel(g), items[|items| - 1], limits) == g
  {
    hide Bytes, LimitAt, Concat, Reaches, Fill;
    if g.closed == [] { ConcatNone(); }
    var n := |g.closed| - 1;
    var last := g.closed[n];
    assert Reaches(last, limits, n);
    ReachesLast(last, limits, n);
    ConcatLast(g.closed, last);
    assert items[..|items| - 1] == Concat(g.closed[..n]) + last[..|last| - 1];
    assert items[|items| - 1] == last[|last| - 1];
    FillCloses(g, limits);
  }

  lemma ConcatLast(groups: seq<seq<Item>>, last: seq<Item>)
    requires groups != [] && groups[|groups| - 1] == last
    ensures Concat(groups) == Concat(groups[..|groups| - 1]) + last
  {
  }

  /** A closed bucket is not empty, and stays below its limit without its last item. */
  lemma ReachesLast(group: seq<Item>, limits: seq<nat>, k: nat)
    requires limits != [] && Reaches(group, limits, k)
    ensures group != [] && Bytes(group) >= LimitAt(limits, k)
    ensures group[..|group| - 1] != [] ==> Bytes(group[..|group| - 1]) < LimitAt(limits, k)
  {
  }

  lemma FillCloses(g: Greedy, limits: seq<nat>)
    requires limits != [] && g.closed != [] && g.open == [] && g.closed[|g.closed| - 1] != []
    requires Bytes(g.closed[|g.closed| - 1]) >= LimitAt(limits, |g.closed| - 1)
    ensures var last := g.closed[|g.closed| - 1]; Fill(Peel(g), last[|last| - 1], limits) == g
  {
    hide Bytes, LimitAt;
    var n := |g.closed| - 1;
    var last := g.closed[n];
    assert last == last[..|last| - 1] + [last[|last| - 1]] && g.closed == g.closed[..n] + [last];
  }

  /** And it is the only one. */
  lemma {:induction false} GreedyCutIsUnique(g: Greedy, items: seq<Item>, limits: seq<nat>)
    requires limits != [] && (forall i :: 0 <= i < |items| ==> !items[i].sparse) && GreedyCut(g, items, limits)
    ensures g == FillAll(items, limits)
    decreases |items|
  {
    hide Concat, Fill, Bytes;
    if items == [] {
      NothingCut(g, limits);
    } else {
      if g.open == [] { PeelClosed(g, items, limits); } else { PeelOpen(g, items, limits); }
      GreedyCutIsUnique(Peel(g), items[..|items| - 1], limits);
    }
  }

  lemma NothingCut(g: Greedy, limits: seq<nat>)
    requires limits != [] && GreedyCut(g, [], limits)
    ensures g == Greedy([], [])
  {
  }

  /** Sparse items get a bucket each. */
  lemma {:induction false} SparseAlone(items: seq<Item>, limits: seq<nat>)
    requires limits != [] && forall i :: 0 <= i < |items| ==> items[i].sparse
    ensures var g := FillAll(items, limits); g.open == [] && |g.closed| == |items| && forall i :: 0 <= i < |items| ==> g.closed[i] == [items[i]]
  {
    if items != [] { SparseAlone(items[..|items| - 1], limits); }
  }

  // ---------------------------------------------------------------- all classes together

  ghost predicate Uniform(group: seq<Item>) {
    group != [] && forall i :: 0 <= i < |group| ==> ClassOf(group[i]) == ClassOf(group[0])
  }

  ghost predicate AllUniform(groups: seq<seq<Item>>) { forall j :: 0 <= j < |groups| ==> Uniform(groups[j]) }

  /** The buckets of a class, in order. */
  ghost function GroupsOf(groups: seq<seq<Item>>, c: Class): seq<seq<Item>> {
    if groups == [] then []
    else
      var last := groups[|groups| - 1];
      GroupsOf(groups[..|groups| - 1], c) + if last != [] && ClassOf(last[0]) == c then [last] else []
  }

  ghost predicate ClassDone(groups: seq<seq<Item>>, items: seq<Item>, limits: seq<nat>, c: Class)
    requires limits != []
  {
    GroupsOf(groups, c) == Groups(FillAll(ItemsOf(items, c), limits))
  }

  /** The whole claim: within every class the buckets are exactly the greedy ones, in order. */
  ghost predicate Assigned(groups: seq<seq<Item>>, items: seq<Item>, limits: seq<nat>)
    requires limits != []
  {
    AllUniform(groups) && forall c :: ClassDone(groups, items, limits, c)
  }

  lemma {:induction false} CountInClass(groups: seq<seq<Item>>, x: Item)
    requires AllUniform(groups)
    ensures multiset(Concat(groups))[x] == multiset(Concat(GroupsOf(groups, ClassOf(x))))[x]
  {
    if groups != [] {
      var front, last, c := groups[..|groups| - 1], groups[|groups| - 1], ClassOf(x);
      CountInClass(front, x);
      assert Uniform(last);
      if ClassOf(last[0]) == c {
        ConcatSnoc(GroupsOf(front, c), last);
      } else {
        assert x !in last;
        assert GroupsOf(groups, c) == GroupsOf(front, c);
      }
    }
  }

  lemma {:induction false} ItemsInClass(items: seq<Item>, x: Item)
    ensures multiset(items)[x] == multiset(ItemsOf(items, ClassOf(x)))[x]
  {
    if items != [] {
      ItemsInClass(items[..|items| - 1], x);
      assert items == items[..|items| - 1] + [items[|items| - 1]];
    }
  }

  lemma {:induction false} ItemsOfUniform(items: seq<Item>, c: Class)
    ensures forall i :: 0 <= i < |ItemsOf(items, c)| ==> ClassOf(ItemsOf(items, c)[i]) == c
  {
    if items != [] { ItemsOfUniform(items[..|items| - 1], c); }
  }

  lemma {:induction false} FillAllKeeps(items: seq<Item>, limits: seq<nat>)
    requires limits != []
    ensures var g := FillAll(items, limits); Concat(g.closed) + g.open == items
  {
    hide Fill, Concat;
    if items == [] {
      ConcatNone();
    } else {
      var front, x := items[..|items| - 1], items[|items| - 1];
      FillAllKeeps(front, limits);
      FillKeeps(FillAll(front, limits), x, limits);
      assert items == front + [x];
    }
  }

  lemma ConcatGroups(g: Greedy)
    ensures Concat(Groups(g)) == Concat(g.closed) + g.open
  {
  }

  /** Every item is in exactly one bucket, as often as it was given. */
  lemma AssignedIsPartition(groups: seq<seq<Item>>, items: seq<Item>, limits: seq<nat>)
    requires limits != [] && Assigned(groups, items, limits)
    ensures multiset(Concat(groups)) == multiset(items)
  {
    forall x ensures multiset(Concat(groups))[x] == multiset(items)[x] {
      var c := ClassOf(x);
      CountInClass(groups, x);
      assert ClassDone(groups, items, limits, c);
      FillAllKeeps(ItemsOf(items, c), limits);
      ConcatGroups(FillAll(ItemsOf(items, c), limits));
      ItemsInClass(items, x);
    }
  }

  /** The dense buckets of a key are the greedy cut of its tensors, and the sparse ones are singletons. */
  lemma AssignedMeaning(groups: seq<seq<Item>>, items: seq<Item>, limits: seq<nat>, key: Key) returns (g: Greedy)
    requires limits != [] && Assigned(groups, items, limits)
    ensures GroupsOf(groups, Dense(key)) == Groups(g) && GreedyCut(g, ItemsOf(items, Dense(key)), limits)
    ensures |GroupsOf(groups, Sparse)| == |ItemsOf(items, Sparse)|
    ensures forall i :: 0 <= i < |ItemsOf(items, Sparse)| ==> GroupsOf(groups, Sparse)[i] == [ItemsOf(items, Sparse)[i]]
  {
    hide FillAll, GroupsOf, ItemsOf, GreedyCut;
    g := FillAll(ItemsOf(items, Dense(key)), limits);
    assert ClassDone(groups, items, limits, Dense(key)) && ClassDone(groups, items, limits, Sparse);
    ItemsOfUniform(items, Dense(key));
    FillAllIsGreedyCut(ItemsOf(items, Dense(key)), limits);
    ItemsOfUniform(items, Sparse);
    SparseAlone(ItemsOf(items, Sparse), limits);
  }

  // ---------------------------------------------------------------- sorting by least index

  function MinIndex(group: seq<Item>): (m: nat)
    requires group != []
    ensures forall i :: 0 <= i < |group| ==> m <= group[i].index
    ensures exists i :: 0 <= i < |group| && group[i].index == m
  {
    var last := group[|group| - 1];
    if |group| == 1 then last.index
    else
      var m := MinIndex(group[..|group| - 1]);
      if last.index < m then last.index else m
  }

  ghost predicate NonEmpty(groups: seq<seq<Item>>) { forall j :: 0 <= j < |groups| ==> groups[j] != [] }

  ghost predicate SortedByMin(groups: seq<seq<Item>>)
    requires NonEmpty(groups)
  {
    forall i, j :: 0 <= i < j < |groups| ==> MinIndex(groups[i]) <= MinIndex(groups[j])
  }

  ghost predicate Ascends(groups: seq<seq<Item>>)
    requires NonEmpty(groups)
  {
    forall i, j :: 0 <= i < j < |groups| ==> MinIndex(groups[i]) < MinIndex(groups[j])
  }

  function Insert(sorted: seq<seq<Item>>, group: seq<Item>): seq<seq<Item>>
    requires NonEmpty(sorted) && group != []
  {
    if sorted == [] || MinIndex(sorted[|sorted| - 1]) <= MinIndex(group) then sorted + [group]
    else Insert(sorted[..|sorted| - 1], group) + [sorted[|sorted| - 1]]
  }

  ghost predicate AtMost(groups: seq<seq<Item>>, m: nat)
    requires NonEmpty(groups)
  {
    forall i :: 0 <= i < |groups| ==> MinIndex(groups[i]) <= m
  }

  lemma SortedNext(front: seq<seq<Item>>, last: seq<Item>)
    requires NonEmpty(front) && last != [] && SortedByMin(front) && AtMost(front, MinIndex(last))
    ensures NonEmpty(front + [last]) && SortedByMin(front + [last])
    ensures forall m: nat :: MinIndex(last) <= m ==> AtMost(front + [last], m)
  {
  }

  lemma {:induction false} InsertSorts(sorted: seq<seq<Item>>, group: seq<Item>)
    requires NonEmpty(sorted) && SortedByMin(sorted) && group != []
    ensures multiset(Insert(sorted, group)) == multiset(sorted) + multiset{group}
    ensures NonEmpty(Insert(sorted, group)) && SortedByMin(Insert(sorted, group))
    ensures forall m: nat :: AtMost(sorted, m) && MinIndex(group) <= m ==> AtMost(Insert(sorted, group), m)
  {
    hide MinIndex;
    if sorted != [] {
      var n := |sorted| - 1;
      var front, last := sorted[..n], sorted[n];
      assert sorted == front + [last];
      assert AtMost(front, MinIndex(last));
      if MinIndex(last) <= MinIndex(group) {
        assert AtMost(sorted, MinIndex(group));
        SortedNext(sorted, group);
      } else {
        InsertSorts(front, group);
        SortedNext(Insert(front, group), last);
      }
    }
  }

  /** Insertion sort, for `std::sort`. */
  function Sort(groups: seq<seq<Item>>): (r: seq<seq<Item>>)
    requires NonEmpty(groups)
    ensures multiset(r) == multiset(groups) && NonEmpty(r) && SortedByMin(r)
  {
    if groups == [] then []
    else
      assert groups == groups[..|groups| - 1] + [groups[|groups| - 1]];
      var front := Sort(groups[..|groups| - 1]);
      InsertSorts(front, groups[|groups| - 1]);
      Insert(front, groups[|groups| - 1])
  }

  lemma {:induction false} GroupsOfCount(groups: seq<seq<Item>>, c: Class, g: seq<Item>)
    ensures multiset(GroupsOf(groups, c))[g] == if g != [] && ClassOf(g[0]) == c then multiset(groups)[g] else 0
  {
    if groups != [] {
      GroupsOfCount(groups[..|groups| - 1], c, g);
      assert groups == groups[..|groups| - 1] + [groups[|groups| - 1]];
    }
  }

  lemma {:induction false} GroupsOfSorted(groups: seq<seq<Item>>, c: Class)
    requires NonEmpty(groups) && SortedByMin(groups)
    ensures NonEmpty(GroupsOf(groups, c)) && SortedByMin(GroupsOf(groups, c))
    ensures forall m: nat :: AtMost(groups, m) ==> AtMost(GroupsOf(groups, c), m)
  {
    hide MinIndex;
    if groups != [] {
      var front, last := groups[..|groups| - 1], groups[|groups| - 1];
      GroupsOfSorted(front, c);
      assert AtMost(front, MinIndex(last));
      SortedNext(GroupsOf(front, c), last);
      assert forall m: nat :: AtMost(groups, m) ==> AtMost(front, m) && MinIndex(last) <= m;
      if ClassOf(last[0]) != c { assert GroupsOf(groups, c) == GroupsOf(front, c); }
    }
  }

  lemma LastsAgree(x: seq<seq<Item>>, y: seq<seq<Item>>)
    requires NonEmpty(x) && NonEmpty(y) && Ascends(x) && SortedByMin(y) && multiset(x) == multiset(y)
    requires x != [] && |x| == |y|
    ensures x[|x| - 1] == y[|x| - 1]
  {
    hide MinIndex;
    var n := |x| - 1;
    assert x[n] in multiset(y) && y[n] in multiset(x);
    var i :| 0 <= i <= n && x[i] == y[n];
    var j :| 0 <= j <= n && y[j] == x[n];
    assert MinIndex(x[i]) <= MinIndex(x[n]) && MinIndex(y[j]) <= MinIndex(y[n]);
  }

  lemma SortedFront(x: seq<seq<Item>>)
    requires x != [] && NonEmpty(x)
    ensures NonEmpty(x[..|x| - 1])
    ensures Ascends(x) ==> Ascends(x[..|x| - 1])
    ensures SortedByMin(x) ==> SortedByMin(x[..|x| - 1])
  {
  }

  /** A list whose minima ascend has only one sorted rearrangement. */
  lemma {:induction false} OneSortedOrder(x: seq<seq<Item>>, y: seq<seq<Item>>)
    requires NonEmpty(x) && NonEmpty(y) && Ascends(x) && SortedByMin(y) && multiset(x) == multiset(y)
    ensures x == y
  {
    hide NonEmpty, Ascends, SortedByMin;
    SameLength(x, y);
    if x != [] {
      var n := |x| - 1;
      LastsAgree(x, y);
      FrontIsRest(x);
      FrontIsRest(y);
      SortedFront(x);
      SortedFront(y);
      OneSortedOrder(x[..n], y[..n]);
      FrontAndLast(x, y);
    }
  }

  /** However it goes about it, sorting by least index keeps the order within each class. */
  lemma SortKeepsClass(groups: seq<seq<Item>>, sorted: seq<seq<Item>>, c: Class)
    requires NonEmpty(groups) && NonEmpty(sorted) && SortedByMin(sorted) && multiset(sorted) == multiset(groups)
    requires NonEmpty(GroupsOf(groups, c)) && Ascends(GroupsOf(groups, c))
    ensures GroupsOf(sorted, c) == GroupsOf(groups, c)
  {
    var x, y := GroupsOf(groups, c), GroupsOf(sorted, c);
    forall g ensures multiset(x)[g] == multiset(y)[g] {
      GroupsOfCount(groups, c, g);
      GroupsOfCount(sorted, c, g);
    }
    GroupsOfSorted(sorted, c);
    OneSortedOrder(x, y);
  }

  ghost predicate Increasing(items: seq<Item>) { forall i, j :: 0 <= i < j < |items| ==> items[i].index < items[j].index }

  ghost predicate Below(items: seq<Item>, m: nat) { forall i :: 0 <= i < |items| ==> items[i].index < m }

  lemma {:induction false} ItemsOfBelow(items: seq<Item>, c: Class, m: nat)
    requires Below(items, m)
    ensures Below(ItemsOf(items, c), m)
  {
    if items != [] { ItemsOfBelow(items[..|items| - 1], c, m); }
  }

  lemma {:induction false} ItemsOfIncreasing(items: seq<Item>, c: Class)
    requires Increasing(items)
    ensures Increasing(ItemsOf(items, c))
  {
    if items != [] {
      var front, last := items[..|items| - 1], items[|items| - 1];
      ItemsOfIncreasing(front, c);
      ItemsOfBelow(front, c, last.index);
    }
  }

  lemma {:induction false} InConcat(groups: seq<seq<Item>>, j: nat, x: Item)
    requires j < |groups| && x in groups[j]
    ensures x in Concat(groups)
  {
    if j < |groups| - 1 { InConcat(groups[..|groups| - 1], j, x); }
  }

  lemma MinWitness(group: seq<Item>) returns (k: nat)
    requires group != []
    ensures k < |group| && group[k].index == MinIndex(group)
  {
    k :| k < |group| && group[k].index == MinIndex(group);
  }

  lemma {:induction false} MinimaAscend(groups: seq<seq<Item>>)
    requires NonEmpty(groups) && Increasing(Concat(groups))
    ensures Ascends(groups)
  {
    hide MinIndex;
    if groups != [] {
      var front, last := groups[..|groups| - 1], groups[|groups| - 1];
      var all, n := Concat(groups), |Concat(front)|;
      assert all[..n] == Concat(front) && all[n..] == last;
      MinimaAscend(front);
      var m := MinWitness(last);
      forall i | 0 <= i < |front| ensures MinIndex(groups[i]) < MinIndex(last) {
        var j := MinWitness(front[i]);
        InConcat(front, i, front[i][j]);
        var k :| 0 <= k < n && Concat(front)[k] == front[i][j];
        assert all[k] == front[i][j] && all[n + m] == last[m];
      }
    }
  }

  /** Sorting an assignment of items in index order leaves it an assignment. */
  lemma SortedStaysAssigned(groups: seq<seq<Item>>, sorted: seq<seq<Item>>, items: seq<Item>, limits: seq<nat>)
    requires limits != [] && Assigned(groups, items, limits) && Increasing(items)
    requires NonEmpty(sorted) && SortedByMin(sorted) && multiset(sorted) == multiset(groups)
    ensures Assigned(sorted, items, limits)
  {
    hide FillAll, Groups, ItemsOf, GroupsOf, MinIndex, Concat;
    assert NonEmpty(groups) by { forall j | 0 <= j < |groups| ensures groups[j] != [] { assert Uniform(groups[j]); } }
    forall j | 0 <= j < |sorted| ensures Uniform(sorted[j]) {
      assert sorted[j] in multiset(groups);
      var i :| 0 <= i < |groups| && groups[i] == sorted[j];
      assert Uniform(groups[i]);
    }
    forall c ensures ClassDone(sorted, items, limits, c) {
      assert ClassDone(groups, items, limits, c);
      var g := FillAll(ItemsOf(items, c), limits);
      FillAllKeeps(ItemsOf(items, c), limits);
      ConcatGroups(g);
      ItemsOfIncreasing(items, c);
      GroupsOfNonEmpty(groups, c);
      MinimaAscend(GroupsOf(groups, c));
      SortKeepsClass(groups, sorted, c);
    }
  }

  lemma {:induction false} GroupsOfNonEmpty(groups: seq<seq<Item>>, c: Class)
    ensures NonEmpty(GroupsOf(groups, c))
  {
    if groups != [] { GroupsOfNonEmpty(groups[..|groups| - 1], c); }
  }

  // ---------------------------------------------------------------- the algorithm

  datatype Accumulator = Accumulator(indices: seq<Item>, size: nat)

  type Buckets = map<Key, Accumulator>

  function At(buckets: Buckets, key: Key): Accumulator { if key in buckets then buckets[key] else Accumulator([], 0) }

  function Position(limitAt: map<Key, nat>, key: Key): nat { if key in limitAt then limitAt[key] else 0 }

  /** The tables hold, for a key, where its own greedy run has got to. */
  ghost predicate KeyAt(result: seq<seq<Item>>, buckets: Buckets, limitAt: map<Key, nat>, g: Greedy, limits: seq<nat>, key: Key)
    requires limits != []
  {
    && GroupsOf(result, Dense(key)) == g.closed
    && At(buckets, key) == Accumulator(g.open, Bytes(g.open))
    && Position(limitAt, key) == if |g.closed| < |limits| then |g.closed| else |limits| - 1
  }

  ghost function Run(items: seq<Item>, limits: seq<nat>, c: Class): Greedy
    requires limits != []
  {
    FillAll(ItemsOf(items, c), limits)
  }

  ghost predicate Midway(result: seq<seq<Item>>, buckets: Buckets, limitAt: map<Key, nat>, items: seq<Item>, limits: seq<nat>)
    requires limits != []
  {
    && AllUniform(result)
    && GroupsOf(result, Sparse) == Run(items, limits, Sparse).closed
    && forall key :: KeyAt(result, buckets, limitAt, Run(items, limits, Dense(key)), limits, key)
  }

  lemma RunNext(items: seq<Item>, x: Item, limits: seq<nat>, c: Class)
    requires limits != []
    ensures Run(items + [x], limits, c) == if ClassOf(x) == c then Fill(Run(items, limits, c), x, limits) else Run(items, limits, c)
  {
    hide Fill;
    assert (items + [x])[..|items|] == items;
    var own := ItemsOf(items, c);
    assert (own + [x])[..|own|] == own;
    if ClassOf(x) != c { assert ItemsOf(items + [x], c) == own; }
  }

  lemma GroupsOfNext(groups: seq<seq<Item>>, group: seq<Item>, c: Class)
    requires group != []
    ensures GroupsOf(groups + [group], c) == if ClassOf(group[0]) == c then GroupsOf(groups, c) + [group] else GroupsOf(groups, c)
  {
  }

  lemma OpenIsUniform(items: seq<Item>, limits: seq<nat>, c: Class)
    requires limits != []
    ensures forall x :: x in Run(items, limits, c).open ==> ClassOf(x) == c
    ensures c == Sparse ==> Run(items, limits, c).open == []
  {
    hide FillAll, ItemsOf, Concat;
    var own, g := ItemsOf(items, c), Run(items, limits, c);
    FillAllKeeps(own, limits);
    ItemsOfUniform(items, c);
    assert forall i :: 0 <= i < |g.open| ==> g.open[i] == own[|Concat(g.closed)| + i];
    if c == Sparse { SparseAlone(ItemsOf(items, c), limits); }
  }

  lemma SparseStep(result: seq<seq<Item>>, buckets: Buckets, limitAt: map<Key, nat>, items: seq<Item>, x: Item, limits: seq<nat>)
    requires limits != [] && Midway(result, buckets, limitAt, items, limits) && x.sparse
    ensures Midway(result + [[x]], buckets, limitAt, items + [x], limits)
  {
    hide Run, GroupsOf;
    RunNext(items, x, limits, Sparse);
    OpenIsUniform(items, limits, Sparse);
    GroupsOfNext(result, [x], Sparse);
    assert [] + [x] == [x];
    forall key ensures KeyAt(result + [[x]], buckets, limitAt, Run(items + [x], limits, Dense(key)), limits, key) {
      assert KeyAt(result, buckets, limitAt, Run(items, limits, Dense(key)), limits, key);
      RunNext(items, x, limits, Dense(key));
      GroupsOfNext(result, [x], Dense(key));
    }
  }

  /** One dense item: its own key moves on as its greedy run does, and no other key is touched. */
  lemma DenseStep(result: seq<seq<Item>>, buckets: Buckets, limitAt: map<Key, nat>, items: seq<Item>, x: Item, limits: seq<nat>,
                  result': seq<seq<Item>>, buckets': Buckets, limitAt': map<Key, nat>)
    requires limits != [] && Midway(result, buckets, limitAt, items, limits) && !x.sparse
    requires var key, pos := x.key, Position(limitAt, x.key);
             var bucket := Accumulator(At(buckets, key).indices + [x], At(buckets, key).size + x.bytes);
             pos < |limits| &&
             if bucket.size >= limits[pos] then
               result' == result + [bucket.indices] && buckets' == buckets[key := Accumulator([], 0)]
               && limitAt' == limitAt[key := if pos + 1 != |limits| then pos + 1 else pos]
             else result' == result && buckets' == buckets[key := bucket] && limitAt' == limitAt[key := pos]
    ensures Midway(result', buckets', limitAt', items + [x], limits)
  {
    hide Run, GroupsOf, Bytes, Uniform;
    var group := At(buckets, x.key).indices + [x];
    var g := Run(items, limits, Dense(x.key));
    assert KeyAt(result, buckets, limitAt, g, limits, x.key);
    BytesNext(g.open, x);
    OpenIsUniform(items, limits, Dense(x.key));
    UniformNext(g.open, x);
    RunNext(items, x, limits, Sparse);
    GroupsOfNext(result, group, Sparse);
    forall key ensures KeyAt(result', buckets', limitAt', Run(items + [x], limits, Dense(key)), limits, key) {
      assert KeyAt(result, buckets, limitAt, Run(items, limits, Dense(key)), limits, key);
      RunNext(items, x, limits, Dense(key));
      GroupsOfNext(result, group, Dense(key));
    }
  }

  lemma BytesNext(open: seq<Item>, x: Item)
    ensures Bytes(open + [x]) == Bytes(open) + x.bytes && Bytes([]) == 0
  {
  }

  lemma UniformNext(open: seq<Item>, x: Item)
    requires forall y :: y in open ==> ClassOf(y) == ClassOf(x)
    ensures Uniform(open + [x]) && ClassOf((open + [x])[0]) == ClassOf(x)
  {
  }

  /** What is open is still to come for the keys in `left` only. */
  ghost predicate LeftAt(result: seq<seq<Item>>, items: seq<Item>, limits: seq<nat>, left: set<Key>, key: Key)
    requires limits != []
  {
    var g := Run(items, limits, Dense(key));
    GroupsOf(result, Dense(key)) == if key in left then g.closed else Groups(g)
  }

  ghost predicate Leftover(result: seq<seq<Item>>, buckets: Buckets, items: seq<Item>, limits: seq<nat>, left: set<Key>)
    requires limits != []
  {
    && AllUniform(result) && GroupsOf(result, Sparse) == Run(items, limits, Sparse).closed
    && (forall key :: LeftAt(result, items, limits, left, key))
    && (forall key :: key in buckets ==> buckets[key].indices == Run(items, limits, Dense(key)).open)
  }

  lemma LeftoverBegins(result: seq<seq<Item>>, buckets: Buckets, limitAt: map<Key, nat>, items: seq<Item>, limits: seq<nat>)
    requires limits != [] && Midway(result, buckets, limitAt, items, limits)
    ensures Leftover(result, buckets, items, limits, buckets.Keys)
  {
  }

  lemma LeftoverNext(result: seq<seq<Item>>, buckets: Buckets, items: seq<Item>, limits: seq<nat>, left: set<Key>, key: Key)
    requires limits != [] && Leftover(result, buckets, items, limits, left) && key in left && key in buckets
    ensures Leftover(if buckets[key].indices == [] then result else result + [buckets[key].indices], buckets, items, limits, left - {key})
  {
    hide Run, GroupsOf;
    var group := buckets[key].indices;
    var result' := if group == [] then result else result + [group];
    OpenIsUniform(items, limits, Dense(key));
    if group != [] { GroupsOfNext(result, group, Sparse); }
    forall k ensures LeftAt(result', items, limits, left - {key}, k) {
      assert LeftAt(result, items, limits, left, k);
      if group != [] { GroupsOfNext(result, group, Dense(k)); }
    }
  }

  lemma LeftoverDone(result: seq<seq<Item>>, buckets: Buckets, items: seq<Item>, limits: seq<nat>)
    requires limits != [] && Leftover(result, buckets, items, limits, {})
    ensures Assigned(result, items, limits)
  {
    hide GroupsOf, FillAll, ItemsOf;
    forall c ensures ClassDone(result, items, limits, c) {
      if c.Dense? { assert LeftAt(result, items, limits, {}, c.key); }
      else { OpenIsUniform(items, limits, Sparse); }
    }
  }

  lemma Begin(limits: seq<nat>)
    requires limits != []
    ensures Midway([], map[], map[], [], limits)
  {
  }

  /** Every item stands at its place. */
  ghost predicate Numbered(items: seq<Item>) { forall i :: 0 <= i < |items| ==> items[i].place == i }

  /** Buckets in the order they were closed in: by the place of their last item. */
  ghost predicate InClosingOrder(groups: seq<seq<Item>>) {
    && (forall j :: 0 <= j < |groups| ==> groups[j] != [])
    && forall i, j :: 0 <= i < j < |groups| ==> groups[i][|groups[i]| - 1].place < groups[j][|groups[j]| - 1].place
  }

  ghost predicate ClosedBefore(groups: seq<seq<Item>>, m: nat) {
    InClosingOrder(groups) && forall j :: 0 <= j < |groups| ==> groups[j][|groups[j]| - 1].place < m
  }

  /** The first `closed` buckets are those that were closed while filling, in the order of closing. */
  ghost predicate ClosedFirst(groups: seq<seq<Item>>, closed: nat, items: seq<Item>, limits: seq<nat>)
    requires limits != []
  {
    && closed <= |groups| && (Numbered(items) ==> InClosingOrder(groups[..closed]))
    && forall c :: GroupsOf(groups[..closed], c) == Run(items, limits, c).closed
  }

  lemma ClosedAfterLoop(result: seq<seq<Item>>, buckets: Buckets, limitAt: map<Key, nat>, items: seq<Item>, limits: seq<nat>)
    requires limits != [] && Midway(result, buckets, limitAt, items, limits) && (Numbered(items) ==> InClosingOrder(result))
    ensures ClosedFirst(result, |result|, items, limits)
  {
    hide Run, GroupsOf, InClosingOrder, Numbered;
    assert result[..|result|] == result;
    forall c ensures GroupsOf(result, c) == Run(items, limits, c).closed {
      if c.Dense? { assert KeyAt(result, buckets, limitAt, Run(items, limits, c), limits, c.key); }
    }
  }

  lemma ClosedStays(groups: seq<seq<Item>>, group: seq<Item>, closed: nat, items: seq<Item>, limits: seq<nat>)
    requires limits != [] && ClosedFirst(groups, closed, items, limits)
    ensures ClosedFirst(groups + [group], closed, items, limits)
  {
    hide Run, GroupsOf, InClosingOrder;
    assert (groups + [group])[..closed] == groups[..closed];
  }

  /** The accumulation loop and the loop over the remaining buckets, whose order is not defined. */
  method Accumulate(items: seq<Item>, limits: seq<nat>) returns (result: seq<seq<Item>>, ghost closed: nat)
    requires limits != []
    ensures Assigned(result, items, limits)
    ensures ClosedFirst(result, closed, items, limits)
  {
    hide Midway, Leftover, Assigned, ClosedFirst;
    result := [];
    var buckets: Buckets := map[];
    var limitAt: map<Key, nat> := map[];
    Begin(limits);
    for i := 0 to |items|
      invariant Midway(result, buckets, limitAt, items[..i], limits)
      invariant Numbered(items) ==> ClosedBefore(result, i)
    {
      var x := items[i];
      assert items[..i + 1] == items[..i] + [x];
      if x.sparse {
        SparseStep(result, buckets, limitAt, items[..i], x, limits);
        result := result + [[x]];
        continue;
      }
      ghost var result0, buckets0, limitAt0 := result, buckets, limitAt;
      var key := x.key;
      PositionInRange(result, buckets, limitAt, items[..i], limits, key);
      var bucket := At(buckets, key);
      bucket := Accumulator(bucket.indices + [x], bucket.size + x.bytes);
      if key !in limitAt { limitAt := limitAt[key := 0]; }
      if bucket.size >= limits[limitAt[key]] {
        result := result + [bucket.indices];
        bucket := Accumulator([], 0);
        if limitAt[key] + 1 != |limits| { limitAt := limitAt[key := limitAt[key] + 1]; }
      }
      buckets := buckets[key := bucket];
      DenseStep(result0, buckets0, limitAt0, items[..i], x, limits, result, buckets, limitAt);
    }
    assert items[..|items|] == items;
    LeftoverBegins(result, buckets, limitAt, items, limits);
    ClosedAfterLoop(result, buckets, limitAt, items, limits);
    closed := |result|;
    var left := buckets.Keys;
    while left != {}
      invariant left <= buckets.Keys && Leftover(result, buckets, items, limits, left)
      invariant ClosedFirst(result, closed, items, limits)
      decreases left
    {
      var key :| key in left;
      LeftoverNext(result, buckets, items, limits, left, key);
      if buckets[key].indices != [] {
        ClosedStays(result, buckets[key].indices, closed, items, limits);
        result := result + [buckets[key].indices];
      }
      left := left - {key};
    }
    LeftoverDone(result, buckets, items, limits);
  }

  lemma PositionInRange(result: seq<seq<Item>>, buckets: Buckets, limitAt: map<Key, nat>, items: seq<Item>, limits: seq<nat>, key: Key)
    requires limits != [] && Midway(result, buckets, limitAt, items, limits)
    ensures Position(limitAt, key) < |limits|
  {
    assert KeyAt(result, buckets, limitAt, Run(items, limits, Dense(key)), limits, key);
  }

  // ---------------------------------------------------------------- the entry point

  predicate Consistent(tensors: seq<Tensor>, expectSparse: seq<bool>, tensorIndices: seq<nat>) {
    && (tensorIndices == [] || |tensorIndices| == |tensors|)
    && (expectSparse == [] || forall i :: 0 <= i < |tensorIndices| ==> tensorIndices[i] < |expectSparse|)
  }

  predicate Refused(tensors: seq<Tensor>, expectSparse: seq<bool>) {
    || (expectSparse != [] && |tensors| != |expectSparse|)
    || tensors == []
    || exists i :: 0 <= i < |tensors| && tensors[i].isSparse
  }

  /** The tensors with the index each goes by. */
  function Items(tensors: seq<Tensor>, expectSparse: seq<bool>, tensorIndices: seq<nat>): (r: seq<Item>)
    requires Consistent(tensors, expectSparse, tensorIndices) && !Refused(tensors, expectSparse)
  {
    seq(|tensors|, i requires 0 <= i < |tensors| =>
      var index := if tensorIndices == [] then i else tensorIndices[i];
      Item(i, index, tensors[i].key, tensors[i].bytes, expectSparse != [] && expectSparse[index]))
  }

  function Indices(group: seq<Item>): (r: seq<nat>) { seq(|group|, i requires 0 <= i < |group| => group[i].index) }

  function AllIndices(groups: seq<seq<Item>>): (r: seq<seq<nat>>) { seq(|groups|, j requires 0 <= j < |groups| => Indices(groups[j])) }

  lemma AssignedNonEmpty(groups: seq<seq<Item>>, items: seq<Item>, limits: seq<nat>)
    requires limits != [] && Assigned(groups, items, limits)
    ensures NonEmpty(groups)
  {
  }
}
