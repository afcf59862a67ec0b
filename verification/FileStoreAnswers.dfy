/** What a shared file store answers, in terms of its users' keys and values. */
module FileStoreAnswers {
  import opened Basics
  import opened Codec
  import opened FileLog
  import opened FileSteps
  import opened FileStoreObject
  import opened FileStoreRuns

  /** Different keys of the users are different keys in the file, and none is the store's own. */
  lemma UserKeysApart(a: Bytes, b: Bytes)
    ensures Regular(a) == Regular(b) <==> a == b
    ensures Regular(a) != CLEANUP_KEY
  {
    assert Regular(a)[1..] == a && Regular(b)[1..] == b;
    assert Regular(a)[0] == 47;
  }

  predicate Touches(op: Op, key: Bytes) { (op.Set? || op.Add?) && op.key == key }

  /** The records an operation appends. */
  lemma AppendedAt(w: World, c: Call, key: Bytes)
    requires c.proc < |w.procs|
    ensures Step(w, c).log == w.log || exists r :: Step(w, c).log == w.log + [r] && (r.key == Regular(key) <==> Touches(c.op, key))
    ensures c.op.Set? ==> Step(w, c).log == w.log + [Record(Regular(c.op.key), c.op.value)]
  {
    hide Replay, EncodeAll, Wrap64, Current, ToString;
    var w' := Step(w, c);
    if w'.log != w.log {
      var r := w'.log[|w.log|];
      assert w'.log == w.log + [r];
      UserKeysApart(key, key);
      if c.op.Set? || c.op.Add? { UserKeysApart(c.op.key, key); }
    }
  }

  lemma ReplayNext(log: seq<Record>, r: Record)
    ensures Replay(log + [r]) == Replay(log)[r.key := r.value]
  {
    assert (log + [r])[..|log|] == log;
  }

  /** An operation on something else leaves a key as it was. */
  lemma StepElsewhere(w: World, c: Call, key: Bytes)
    requires c.proc < |w.procs| && !Touches(c.op, key)
    ensures SameAt(Replay(Step(w, c).log), Replay(w.log), Regular(key))
  {
    hide Step, Replay, Touches;
    AppendedAt(w, c, key);
    if Step(w, c).log != w.log {
      var r :| Step(w, c).log == w.log + [r] && (r.key == Regular(key) <==> Touches(c.op, key));
      ReplayNext(w.log, r);
    }
  }

  /** A set or an add leaves its key written. */
  lemma StepWrites(w: World, c: Call)
    requires c.proc < |w.procs| && (c.op.Set? || c.op.Add?)
    ensures Regular(c.op.key) in Replay(Step(w, c).log)
    ensures c.op.Set? ==> Replay(Step(w, c).log)[Regular(c.op.key)] == c.op.value
  {
    hide Replay, ToString, EncodeAll, Wrap64;
    var log' := Step(w, c).log;
    if log' != w.log {
      var r := log'[|w.log|];
      assert log' == w.log + [r];
      ReplayNext(w.log, r);
    } else {
      AddWroteNothing(w, c);
    }
  }

  lemma AddWroteNothing(w: World, c: Call)
    requires c.proc < |w.procs| && (c.op.Set? || c.op.Add?) && Step(w, c).log == w.log
    ensures c.op.Add? && Regular(c.op.key) in Replay(w.log)
  {
    hide Replay, ToString, EncodeAll, Wrap64, Stoll;
    OneRecordLonger(w, c);
  }

  lemma OneRecordLonger(w: World, c: Call)
    requires c.proc < |w.procs| && (c.op.Set? || c.op.Add?)
    ensures c.op.Set? || Added(w.log, Regular(c.op.key), c.op.delta).Some? ==> |Step(w, c).log| == |w.log| + 1
  {
  }

  // ---------------------------------------------------------------- get and check

  lemma AfterLast(n: nat, calls: seq<Call>, c: Call)
    requires AllLegal(n, calls + [c])
    ensures AllLegal(n, calls) && c.proc < n && After(n, calls + [c]) == Step(After(n, calls), c)
  {
    var all := calls + [c];
    forall d | d in calls ensures d in all {}
    assert all[..|all| - 1] == calls && all[|all| - 1] == c && c in all;
  }

  ghost predicate Untouched(calls: seq<Call>, key: Bytes) { forall c :: c in calls ==> !Touches(c.op, key) }

  /** A key is there exactly if somebody has set it or added to it. */
  lemma {:induction false} WrittenIffTouched(n: nat, calls: seq<Call>, key: Bytes)
    requires AllLegal(n, calls)
    ensures Regular(key) in Replay(After(n, calls).log) <==> !Untouched(calls, key)
    ensures Written(After(n, calls).log, Regular(key)) <==> !Untouched(calls, key)
  {
    hide Step, Replay;
    ReplayDomain(After(n, calls).log, Regular(key));
    if calls == [] {
      NothingReplayed();
    } else {
      var front, c := calls[..|calls| - 1], calls[|calls| - 1];
      assert calls == front + [c];
      AfterLast(n, front, c);
      WrittenIffTouched(n, front, key);
      assert c in calls;
      if Touches(c.op, key) { StepWrites(After(n, front), c); } else { StepElsewhere(After(n, front), c, key); }
    }
  }

  lemma NothingReplayed()
    ensures Replay([]) == map[]
  {
  }

  /** `get` answers the value last set. */
  lemma {:induction false} GetAnswersTheLastSet(n: nat, before: seq<Call>, proc: nat, key: Bytes, value: Bytes, since: seq<Call>)
    requires AllLegal(n, before + [Call(proc, Set(key, value))] + since) && Untouched(since, key)
    ensures var log := After(n, before + [Call(proc, Set(key, value))] + since).log;
            Regular(key) in Replay(log) && Replay(log)[Regular(key)] == value
    decreases |since|
  {
    hide Step, Replay, Legal;
    var c := Call(proc, Set(key, value));
    if since == [] {
      assert before + [c] + since == before + [c];
      AfterLast(n, before, c);
      StepWrites(After(n, before), c);
    } else {
      var front, last := since[..|since| - 1], since[|since| - 1];
      assert before + [c] + since == (before + [c] + front) + [last];
      AfterLast(n, before + [c] + front, last);
      GetAnswersTheLastSet(n, before, proc, key, value, front);
      StepElsewhere(After(n, before + [c] + front), last, key);
    }
  }

  // ---------------------------------------------------------------- add

  /** Everything added to a user's key. */
  ghost function UserSum(calls: seq<Call>, key: Bytes): int {
    if calls == [] then 0
    else
      var op := calls[|calls| - 1].op;
      UserSum(calls[..|calls| - 1], key) + if op.Add? && op.key == key then op.delta else 0
  }

  ghost predicate OnlyAdded(calls: seq<Call>, key: Bytes) { forall c :: c in calls && Touches(c.op, key) ==> c.op.Add? }

  /** No running sum, counted from `x`, leaves the range of an `int64_t`. */
  ghost predicate SumsFit(calls: seq<Call>, key: Bytes, x: int) {
    forall j :: 0 <= j <= |calls| ==> INT64_MIN <= x + UserSum(calls[..j], key) <= INT64_MAX
  }

  lemma FrontFits(calls: seq<Call>, key: Bytes, x: int)
    requires calls != [] && SumsFit(calls, key, x)
    ensures SumsFit(calls[..|calls| - 1], key, x) && INT64_MIN <= x + UserSum(calls, key) <= INT64_MAX
  {
    var front := calls[..|calls| - 1];
    forall j | 0 <= j <= |front| ensures INT64_MIN <= x + UserSum(front[..j], key) <= INT64_MAX { assert front[..j] == calls[..j]; }
    assert calls[..|calls|] == calls;
  }

  lemma SameReads(a: seq<Record>, b: seq<Record>, key: Bytes)
    requires SameAt(Replay(a), Replay(b), key)
    ensures ValueAt(a, key) == ValueAt(b, key)
  {
  }

  lemma AddStep(w: World, c: Call, x: int)
    requires c.proc < |w.procs| && c.op.Add? && Current(ValueAt(w.log, Regular(c.op.key))) == Some(x)
    requires INT64_MIN <= x + c.op.delta <= INT64_MAX
    ensures Added(w.log, Regular(c.op.key), c.op.delta) == Some(x + c.op.delta)
    ensures Current(ValueAt(Step(w, c).log, Regular(c.op.key))) == Some(x + c.op.delta)
  {
    hide Current, ToString, EncodeAll, Replay, ValueAt;
    ValueAfterAppend(w.log, Record(Regular(c.op.key), ToString(x + c.op.delta)), Regular(c.op.key));
    PrintedReadsBack(x + c.op.delta);
  }

  /** Adds to a key that reads as `x` after `before`. */
  lemma {:induction false} AddsAddUp(n: nat, before: seq<Call>, since: seq<Call>, key: Bytes, x: int)
    requires AllLegal(n, before) && AllLegal(n, before + since)
    requires Current(ValueAt(After(n, before).log, Regular(key))) == Some(x) && OnlyAdded(since, key) && SumsFit(since, key, x)
    ensures Current(ValueAt(After(n, before + since).log, Regular(key))) == Some(x + UserSum(since, key))
    decreases |since|
  {
    hide Current, ValueAt, Step, SumsFit, Regular, Legal;
    if since == [] {
      assert before + since == before;
    } else {
      var front, c := since[..|since| - 1], since[|since| - 1];
      assert c in since && before + since == (before + front) + [c];
      AfterLast(n, before + front, c);
      FrontFits(since, key, x);
      AddsAddUp(n, before, front, key, x);
      var w := After(n, before + front);
      if Touches(c.op, key) {
        AddStep(w, c, x + UserSum(front, key));
      } else {
        StepElsewhere(w, c, key);
        SameReads(Step(w, c).log, w.log, Regular(key));
      }
    }
  }

  /** An add to a key that nobody sets returns the sum of all adds so far, this one included. */
  lemma AddAnswersTheRunningSum(n: nat, calls: seq<Call>, proc: nat, key: Bytes, delta: int)
    requires AllLegal(n, calls + [Call(proc, Add(key, delta))]) && OnlyAdded(calls, key)
    requires SumsFit(calls + [Call(proc, Add(key, delta))], key, 0)
    ensures AllLegal(n, calls) && Added(After(n, calls).log, Regular(key), delta) == Some(UserSum(calls, key) + delta)
  {
    hide Current, ValueAt, Step, Regular, Legal, After, SumsFit, Added;
    var all := calls + [Call(proc, Add(key, delta))];
    AfterLast(n, calls, Call(proc, Add(key, delta)));
    assert all[..|all| - 1] == calls;
    FrontFits(all, key, 0);
    StartsUnwritten(n, key);
    assert [] + calls == calls;
    AddsAddUp(n, [], calls, key, 0);
    AddStep(After(n, calls), Call(proc, Add(key, delta)), UserSum(calls, key));
  }

  lemma StartsUnwritten(n: nat, key: Bytes)
    ensures AllLegal(n, []) && Current(ValueAt(After(n, []).log, Regular(key))) == Some(0)
  {
  }

  /** After a set the sum goes on from the number set, from 0 for an empty value, and not at all for a value that is
      no number: then the add fails and writes nothing. */
  lemma AddGoesOnFromASet(n: nat, before: seq<Call>, proc: nat, key: Bytes, value: Bytes, since: seq<Call>, delta: int)
    requires AllLegal(n, before + [Call(proc, Set(key, value))] + since + [Call(proc, Add(key, delta))]) && Untouched(since, key)
    ensures AllLegal(n, before + [Call(proc, Set(key, value))] + since)
    ensures var w := After(n, before + [Call(proc, Set(key, value))] + since);
            var r := Added(w.log, Regular(key), delta);
            && (value == [] && INT64_MIN <= delta <= INT64_MAX ==> r == Some(delta))
            && (value != [] ==> (r.None? <==> Stoll(value).None?))
            && (value != [] && Stoll(value).Some? && INT64_MIN <= Stoll(value).value + delta <= INT64_MAX ==> r == Some(Stoll(value).value + delta))
            && (r.None? ==> Step(w, Call(proc, Add(key, delta))).log == w.log)
  {
    hide Stoll, EncodeAll, Replay, Legal, After, ToString, Regular;
    var stored := before + [Call(proc, Set(key, value))] + since;
    AfterLast(n, stored, Call(proc, Add(key, delta)));
    GetAnswersTheLastSet(n, before, proc, key, value, since);
  }

  // ---------------------------------------------------------------- the number of keys

  ghost function UserKeys(calls: seq<Call>): set<Bytes> {
    if calls == [] then {}
    else
      var op := calls[|calls| - 1].op;
      UserKeys(calls[..|calls| - 1]) + if op.Set? || op.Add? then {op.key} else {}
  }

  ghost function FileKeys(keys: set<Bytes>): set<Bytes> { set k | k in keys :: Regular(k) }

  lemma {:induction false} FileKeysMany(keys: set<Bytes>)
    ensures |FileKeys(keys)| == |keys| && CLEANUP_KEY !in FileKeys(keys)
    decreases |keys|
  {
    if k :| k in keys {
      var rest := keys - {k};
      FileKeysMany(rest);
      UserKeysApart(k, k);
      forall j | j in rest ensures Regular(j) != Regular(k) { UserKeysApart(j, k); }
      assert FileKeys(keys) == FileKeys(rest) + {Regular(k)};
    }
  }

  lemma {:induction false} KeysOfTheFile(n: nat, calls: seq<Call>)
    requires AllLegal(n, calls)
    ensures Replay(After(n, calls).log).Keys == FileKeys(UserKeys(calls)) + if Destroyed(calls) > 0 then {CLEANUP_KEY} else {}
  {
    hide Replay, Legal, Regular, CLEANUP_KEY;
    if calls == [] {
      NothingReplayed();
    } else {
      var front, c := calls[..|calls| - 1], calls[|calls| - 1];
      assert calls == front + [c];
      AfterLast(n, front, c);
      KeysOfTheFile(n, front);
      KeysAfter(After(n, front), c);
    }
  }

  lemma KeysAfter(w: World, c: Call)
    requires c.proc < |w.procs|
    ensures Replay(Step(w, c).log).Keys
            == Replay(w.log).Keys + match c.op case Set(k, _) => {Regular(k)} case Add(k, _) => {Regular(k)} case Destroy => {CLEANUP_KEY} case Look => {}
  {
    hide Replay, ToString, EncodeAll, Wrap64, Regular, Stoll;
    var log' := Step(w, c).log;
    if log' != w.log {
      var r := log'[|w.log|];
      assert log' == w.log + [r];
      ReplayNext(w.log, r);
    } else if c.op.Set? || c.op.Add? {
      AddWroteNothing(w, c);
    } else if c.op.Destroy? {
      assert Added(w.log, CLEANUP_KEY, 1).None?;
    }
  }

  /** `getNumKeys` counts the keys the users have set or added to, and one more once a destructor has run. */
  lemma NumberOfKeys(n: nat, calls: seq<Call>)
    requires AllLegal(n, calls)
    ensures |Replay(After(n, calls).log)| == |UserKeys(calls)| + if Destroyed(calls) > 0 then 1 else 0
  {
    hide Replay, Regular, CLEANUP_KEY, After;
    KeysOfTheFile(n, calls);
    FileKeysMany(UserKeys(calls));
    var store := Replay(After(n, calls).log);
    assert |store| == |store.Keys|;
  }
}
