/** Global and group ranks of a new process group. */
module GroupRanks {
  import opened Basics

  ghost predicate IsSorted(s: seq<int>) { forall i, j :: 0 <= i < j < |s| ==> s[i] <= s[j] }

  ghost predicate AtMost(s: seq<int>, b: int) { forall i :: 0 <= i < |s| ==> s[i] <= b }

  function Insert(s: seq<int>, x: int): seq<int> {
    if s == [] || s[|s| - 1] <= x then s + [x] else Insert(s[..|s| - 1], x) + [s[|s| - 1]]
  }

  lemma SortedNext(s: seq<int>, x: int)
    requires IsSorted(s) && AtMost(s, x)
    ensures IsSorted(s + [x]) && forall b :: x <= b ==> AtMost(s + [x], b)
  {
  }

  lemma {:induction false} InsertSorts(s: seq<int>, x: int)
    requires IsSorted(s)
    ensures IsSorted(Insert(s, x)) && multiset(Insert(s, x)) == multiset(s) + multiset{x}
    ensures forall b :: AtMost(s, b) && x <= b ==> AtMost(Insert(s, x), b)
  {
    if s != [] {
      var n := |s| - 1;
      var front, last := s[..n], s[n];
      assert s == front + [last];
      if last > x {
        InsertSorts(front, x);
        assert AtMost(front, last);
        SortedNext(Insert(front, x), last);
      } else {
        assert AtMost(s, x);
        SortedNext(s, x);
      }
    }
  }

  /** Python's `sorted`. */
  function Sorted(s: seq<int>): (r: seq<int>)
    ensures IsSorted(r) && multiset(r) == multiset(s)
  {
    if s == [] then []
    else
      assert s == s[..|s| - 1] + [s[|s| - 1]];
      var front := Sorted(s[..|s| - 1]);
      InsertSorts(front, s[|s| - 1]);
      Insert(front, s[|s| - 1])
  }

  lemma LastIsSame(a: seq<int>, b: seq<int>)
    requires IsSorted(a) && IsSorted(b) && multiset(a) == multiset(b) && |a| == |b| && a != []
    ensures a[|a| - 1] == b[|a| - 1]
  {
    var n := |a| - 1;
    assert a[n] in multiset(b) && b[n] in multiset(a);
    var i :| 0 <= i <= n && a[i] == b[n];
    var j :| 0 <= j <= n && b[j] == a[n];
  }

  /** There is one sorted arrangement. */
  lemma {:induction false} SortedOnce(a: seq<int>, b: seq<int>)
    requires IsSorted(a) && IsSorted(b) && multiset(a) == multiset(b)
    ensures a == b
  {
    SameLength(a, b);
    if a != [] {
      LastIsSame(a, b);
      FrontIsRest(a);
      FrontIsRest(b);
      SortedOnce(a[..|a| - 1], b[..|a| - 1]);
      FrontAndLast(a, b);
    }
  }

  // ---------------------------------------------------------------- the rank map

  /** The dictionary from global to group ranks: a later entry for the same rank replaces an earlier one. */
  function RankMap(ranks: seq<int>): map<int, nat> {
    if ranks == [] then map[] else RankMap(ranks[..|ranks| - 1])[ranks[|ranks| - 1] := |ranks| - 1]
  }

  /** `ranks.index`: the first place. */
  function IndexOf(ranks: seq<int>, r: int): (i: nat)
    requires r in ranks
    ensures i < |ranks| && ranks[i] == r && forall j :: 0 <= j < i ==> ranks[j] != r
  {
    if ranks[0] == r then 0 else 1 + IndexOf(ranks[1..], r)
  }

  lemma {:induction false} RankMapIsLast(ranks: seq<int>, r: int)
    ensures r in RankMap(ranks) <==> r in ranks
    ensures r in RankMap(ranks) ==> var i := RankMap(ranks)[r]; i < |ranks| && ranks[i] == r && forall j :: i < j < |ranks| ==> ranks[j] != r
  {
    if ranks != [] {
      RankMapIsLast(ranks[..|ranks| - 1], r);
      assert ranks == ranks[..|ranks| - 1] + [ranks[|ranks| - 1]];
    }
  }

  /** The rank the backend is given and the one in the map agree for every member exactly if no rank was
      listed twice, which nothing checks. */
  lemma BackendRankAgreesIff(ranks: seq<int>)
    ensures (forall r :: r in ranks ==> r in RankMap(ranks) && RankMap(ranks)[r] == IndexOf(ranks, r)) <==> Distinct(ranks)
  {
    forall r | r in ranks ensures r in RankMap(ranks) { RankMapIsLast(ranks, r); }
    if Distinct(ranks) {
      forall r | r in ranks ensures RankMap(ranks)[r] == IndexOf(ranks, r) { RankMapIsLast(ranks, r); }
    } else {
      var i, j := Repeated(ranks);
      RankMapIsLast(ranks, ranks[i]);
      assert IndexOf(ranks, ranks[i]) <= i < j <= RankMap(ranks)[ranks[i]];
    }
  }

  ghost predicate Taken(m: map<int, nat>, g: nat) { exists r :: Holds(m, r, g) }

  ghost predicate Holds(m: map<int, nat>, r: int, g: nat) { r in m && m[r] == g }

  /** Every group rank leads back to a global rank exactly if no rank was listed twice. */
  lemma EveryGroupRankIffDistinct(ranks: seq<int>)
    ensures (forall g: nat :: g < |ranks| ==> Taken(RankMap(ranks), g)) <==> Distinct(ranks)
  {
    hide RankMap;
    if Distinct(ranks) {
      forall g: nat | g < |ranks| ensures Taken(RankMap(ranks), g) {
        RankMapIsLast(ranks, ranks[g]);
        assert Holds(RankMap(ranks), ranks[g], g);
      }
    } else {
      var i, j := Repeated(ranks);
      forall r ensures !Holds(RankMap(ranks), r, i) { RankMapIsLast(ranks, r); }
      assert !Taken(RankMap(ranks), i);
    }
  }

  /** `_get_global_rank`: looks through the map, in whatever order, for the group rank. What it finds is the rank
      at that place of the list, and it finds something unless a later entry took the place over. */
  method GetGlobalRank(ranks: seq<int>, groupRank: nat) returns (r: Option<int>)
    ensures r.Some? ==> groupRank < |ranks| && r.value == ranks[groupRank] && Holds(RankMap(ranks), r.value, groupRank)
    ensures r.None? ==> forall q :: !Holds(RankMap(ranks), q, groupRank)
  {
    var m := RankMap(ranks);
    for i := 0 to |ranks|
      invariant forall j :: 0 <= j < i ==> !Holds(m, ranks[j], groupRank)
    {
      RankMapIsLast(ranks, ranks[i]);
      if m[ranks[i]] == groupRank {
        return Some(ranks[i]);
      }
    }
    forall q ensures !Holds(m, q, groupRank) { RankMapIsLast(ranks, q); }
    return None;
  }

  /** With distinct ranks the two look-ups undo each other. */
  lemma RankMapsInverse(ranks: seq<int>)
    requires Distinct(ranks)
    ensures forall g: nat :: g < |ranks| ==> Holds(RankMap(ranks), ranks[g], g)
    ensures forall r :: r in RankMap(ranks) ==> RankMap(ranks)[r] < |ranks| && ranks[RankMap(ranks)[r]] == r
  {
  }

  // ---------------------------------------------------------------- new_group

  datatype Membership = Membership(ranks: seq<int>, groupRank: Option<nat>, rankMap: map<int, nat>)

  datatype Error = TooLarge | OutOfRange

  datatype Result = Ok(value: Membership) | Err(error: Error)

  /** The part of `new_group` that settles who is who. */
  method NewGroupRanks(given: Option<seq<int>>, globalRank: nat, worldSize: nat) returns (r: Result)
    requires globalRank < worldSize
    ensures r == Err(TooLarge) <==> given.Some? && |given.value| > worldSize
    ensures r == Err(OutOfRange) <==> given.Some? && |given.value| <= worldSize && exists x :: x in given.value && !(0 <= x < worldSize)
    ensures r.Ok? ==> IsSorted(r.value.ranks) && r.value.rankMap == RankMap(r.value.ranks)
    ensures r.Ok? && given.Some? ==> multiset(r.value.ranks) == multiset(given.value)
    ensures r.Ok? && given.None? ==> |r.value.ranks| == worldSize && forall i :: 0 <= i < worldSize ==> r.value.ranks[i] == i
    ensures r.Ok? ==> r.value.groupRank == if globalRank in r.value.ranks then Some(IndexOf(r.value.ranks, globalRank)) else None
  {
    hide RankMap, Sorted;
    if given.None? {
      var all: seq<int> := seq(worldSize, i => i);
      assert all[globalRank] == globalRank;
      assert IndexOf(all, globalRank) == globalRank;
      return Ok(Membership(all, Some(globalRank), RankMap(all)));
    }
    var ranks := Sorted(given.value);
    SameMembers(ranks, given.value);
    if |ranks| > worldSize { return Err(TooLarge); }
    for i := 0 to |ranks|
      invariant forall j :: 0 <= j < i ==> 0 <= ranks[j] < worldSize
    {
      if ranks[i] < 0 || ranks[i] >= worldSize {
        assert ranks[i] in given.value;
        return Err(OutOfRange);
      }
    }
    var groupRank := if globalRank in ranks then Some(IndexOf(ranks, globalRank)) else None;
    return Ok(Membership(ranks, groupRank, RankMap(ranks)));
  }

  lemma SameMembers(a: seq<int>, b: seq<int>)
    requires multiset(a) == multiset(b)
    ensures |a| == |b| && forall x :: x in a <==> x in b
  {
    SameLength(a, b);
    assert forall x :: x in multiset(a) <==> x in a;
    assert forall x :: x in multiset(b) <==> x in b;
  }

  /** The order in which the ranks are given makes no difference, on any process. */
  lemma GivenOrderIsIrrelevant(a: seq<int>, b: seq<int>)
    requires multiset(a) == multiset(b)
    ensures Sorted(a) == Sorted(b) && RankMap(Sorted(a)) == RankMap(Sorted(b))
  {
    SortedOnce(Sorted(a), Sorted(b));
  }
}
