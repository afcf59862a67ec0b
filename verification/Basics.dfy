/** What several parts of the model share. */
module Basics {
  datatype Option<+T> = None | Some(value: T)

  // Machine integers.
  const INT32: nat := 0x1_0000_0000
  const INT_MAX: nat := 0x7FFF_FFFF
  const SIZE_T: nat := 0x1_0000_0000_0000_0000
  const INT64_MIN: int := -0x8000_0000_0000_0000
  const INT64_MAX: nat := 0x7FFF_FFFF_FFFF_FFFF

  /** A sum kept in an `int64_t`, in two's complement. */
  function Wrap64(x: int): (r: int)
    ensures INT64_MIN <= r <= INT64_MAX && (INT64_MIN <= x <= INT64_MAX ==> r == x)
  {
    (x - INT64_MIN) % SIZE_T + INT64_MIN
  }

  ghost predicate Distinct<T(!new)>(s: seq<T>) { forall i, j :: 0 <= i < j < |s| ==> s[i] != s[j] }

  lemma Repeated<T(!new)>(s: seq<T>) returns (i: nat, j: nat)
    requires !Distinct(s)
    ensures i < j < |s| && s[i] == s[j]
  {
    i, j :| 0 <= i < j < |s| && s[i] == s[j];
  }

  lemma FrontIsRest<T>(s: seq<T>)
    requires s != []
    ensures multiset(s[..|s| - 1]) == multiset(s) - multiset{s[|s| - 1]}
  {
    assert s == s[..|s| - 1] + [s[|s| - 1]];
  }

  lemma SameLength<T>(a: seq<T>, b: seq<T>)
    requires multiset(a) == multiset(b)
    ensures |a| == |b|
  {
    assert |a| == |multiset(a)| && |b| == |multiset(b)|;
  }

  lemma FrontAndLast<T>(a: seq<T>, b: seq<T>)
    requires |a| == |b| && a != [] && a[..|a| - 1] == b[..|a| - 1] && a[|a| - 1] == b[|a| - 1]
    ensures a == b
  {
  }

  lemma {:induction false} SubsetIsSmaller(a: set<nat>, b: set<nat>)
    requires a <= b
    ensures |a| <= |b|
  {
    if a != {} {
      var x :| x in a;
      SubsetIsSmaller(a - {x}, b - {x});
    }
  }
}
