/** What the reducer's counters can tell about marks that come more than once. */
module RepeatedMarks {
  import opened Basics
  import opened Buckets

  /** A bucket at the start of a pass. */
  ghost predicate Fresh(b: Bucket) {
    b.pending == |b.replicas| && forall r :: 0 <= r < |b.replicas| ==> b.replicas[r].pending == |b.vars|
  }

  /** The counters after marks on one replica; `None` where a mark is rejected. */
  function CountDown(b: Bucket, r: nat, marks: seq<nat>): (c: Option<Bucket>)
    requires r < |b.replicas|
    ensures c.Some? ==> |c.value.replicas| == |b.replicas|
  {
    if marks == [] then Some(b)
    else
      var c := CountDown(b, r, marks[..|marks| - 1]);
      if c.None? || c.value.replicas[r].pending == 0 || c.value.pending == 0 then None
      else Some(Decrement(c.value, r))
  }

  lemma {:induction false} CountersCountMarks(b: Bucket, r: nat, marks: seq<nat>)
    requires Fresh(b) && r < |b.replicas|
    ensures CountDown(b, r, marks).Some? <==> |marks| <= |b.vars|
    ensures (|marks| <= |b.vars| ==>
              && CountDown(b, r, marks).value.replicas[r].pending == |b.vars| - |marks|
              && CountDown(b, r, marks).value.pending >= (if |marks| < |b.vars| then 1 else 0))
  {
    if marks != [] { CountersCountMarks(b, r, marks[..|marks| - 1]); }
  }

  function Elements(s: seq<nat>): set<nat> { set x | x in s }

  lemma {:induction false} DistinctIffAsManyElements(s: seq<nat>)
    ensures |Elements(s)| <= |s| && (|Elements(s)| == |s| <==> Distinct(s))
  {
    if s != [] {
      var front, last := s[..|s| - 1], s[|s| - 1];
      DistinctIffAsManyElements(front);
      assert Elements(s) == Elements(front) + {last};
      if last in front {
        assert Elements(s) == Elements(front);
        var i :| 0 <= i < |front| && front[i] == last;
        assert s[i] == s[|s| - 1];
      } else {
        assert Distinct(front) ==> Distinct(s);
      }
      assert Distinct(s) ==> Distinct(front);
    }
  }

  lemma SubsetOfSameSize(a: set<nat>, b: set<nat>)
    requires a <= b && |a| == |b|
    ensures a == b
  {
    if c :| c in b && c !in a {
      StrictlySmaller(a, b, c);
    }
  }

  lemma StrictlySmaller(a: set<nat>, b: set<nat>, c: nat)
    requires a <= b && c in b && c !in a
    ensures |a| < |b|
  {
    var rest := b - {c};
    assert a <= rest && |rest| == |b| - 1;
    SubsetIsSmaller(a, rest);
  }

  /** The counters notice one mark too many, never a repeated one: marks are rejected from the moment there have
      been as many as the bucket has variables, and the bucket replica that then counts as complete really is
      exactly if no variable was marked twice. */
  lemma CompleteIffNoRepeats(b: Bucket, r: nat, marks: seq<nat>)
    requires Fresh(b) && r < |b.replicas| && Distinct(b.vars) && forall m :: m in marks ==> m in b.vars
    requires CountDown(b, r, marks).Some? && CountDown(b, r, marks).value.replicas[r].pending == 0
    ensures forall v :: CountDown(b, r, marks + [v]).None?
    ensures (forall v :: v in b.vars ==> v in marks) <==> Distinct(marks)
  {
    CountersCountMarks(b, r, marks);
    forall v ensures CountDown(b, r, marks + [v]).None? { CountersCountMarks(b, r, marks + [v]); }
    DistinctIffAsManyElements(b.vars);
    DistinctIffAsManyElements(marks);
    var given, all := Elements(marks), Elements(b.vars);
    assert given <= all;
    if Distinct(marks) {
      SubsetOfSameSize(given, all);
      forall v | v in b.vars ensures v in marks { assert v in all; }
    }
    if forall v :: v in b.vars ==> v in marks { assert given == all; }
  }

  /** Two marks of the first of two variables complete the bucket without the second. */
  lemma RepeatedMarkPassesUnnoticed(b: Bucket, r: nat)
    requires Fresh(b) && r < |b.replicas| && |b.vars| == 2 && Distinct(b.vars)
    ensures var c := CountDown(b, r, [b.vars[0], b.vars[0]]);
            c.Some? && c.value.replicas[r].pending == 0 && b.vars[1] !in [b.vars[0], b.vars[0]]
  {
    CountersCountMarks(b, r, [b.vars[0], b.vars[0]]);
  }
}
