/** Processes sharing one file store, in any order. */
module FileStoreRuns {
  import opened Basics
  import opened Codec
  import opened FileLog
  import opened FileSteps
  import opened FileStoreObject

  datatype World = World(log: seq<Record>, procs: seq<Process>)

  datatype Op =
    | Set(key: Bytes, value: Bytes)
    | Add(key: Bytes, delta: int)
    | Look                       // a get, check or getNumKeys that reads to the end
    | Destroy

  datatype Call = Call(proc: nat, op: Op)

  predicate Adds(op: Op, key: Bytes) {
    match op case Add(k, _) => Regular(k) == key case Destroy => key == CLEANUP_KEY case _ => false
  }

  predicate Sets(op: Op, key: Bytes) { op.Set? && Regular(op.key) == key }

  function Key(op: Op): Bytes
    requires op.Add? || op.Destroy?
  {
    if op.Add? then Regular(op.key) else CLEANUP_KEY
  }

  function Delta(op: Op): int { match op case Add(_, d) => d case Destroy => 1 case _ => 0 }

  /** The value an add returns. */
  ghost function Result(w: World, op: Op): Option<int>
    requires op.Add? || op.Destroy?
  {
    Added(w.log, Key(op), Delta(op))
  }

  /** What the lengths in the file can announce. */
  ghost predicate Legal(op: Op) {
    match op
    case Set(key, value) => Writable(Record(Regular(key), value))
    case Add(key, _) => Fits(Regular(key), LEN_BYTES)
    case _ => true
  }

  ghost predicate AllLegal(n: nat, calls: seq<Call>) { forall c :: c in calls ==> c.proc < n && Legal(c.op) }

  /** The effect of one operation: what the contracts of the file store's methods say of the log and of the process. */
  ghost function Step(w: World, c: Call): World
    requires c.proc < |w.procs|
  {
    match c.op
    case Set(key, value) => w.(log := w.log + [Record(Regular(key), value)])
    case Look => w.(procs := w.procs[c.proc := Refreshed(w.log)])
    case _ =>
      World(LogAfterAdd(w.log, Key(c.op), Delta(c.op)), w.procs[c.proc := AfterAdd(w.log, Key(c.op), Delta(c.op))])
  }

  ghost function Start(n: nat): World { World([], seq(n, _ => Process(0, 0, map[]))) }

  ghost function After(n: nat, calls: seq<Call>): (w: World)
    requires AllLegal(n, calls)
    ensures |w.procs| == n
  {
    if calls == [] then Start(n) else Step(After(n, calls[..|calls| - 1]), calls[|calls| - 1])
  }

  // ---------------------------------------------------------------- coherence

  ghost predicate Right(p: Process, log: seq<Record>) {
    Coherent(p.cache, log, p.seen) && p.pos == |EncodeAll(log[..p.seen])|
  }

  ghost predicate AllRight(w: World) {
    && (forall i :: 0 <= i < |w.procs| ==> Right(w.procs[i], w.log))
    && forall j :: 0 <= j < |w.log| ==> Writable(w.log[j])
  }

  lemma RefreshedRight(log: seq<Record>)
    ensures Right(Refreshed(log), log)
  {
    assert log[..|log|] == log;
  }

  lemma AppendRight(p: Process, p': Process, log: seq<Record>, r: Record)
    requires Right(p, log) && p'.seen == p.seen && p'.pos == p.pos
    requires forall key :: key != r.key ==> SameAt(p'.cache, p.cache, key)
    ensures Right(p', log + [r])
  {
    CoherentAppend(p.cache, p'.cache, log, p.seen, r);
    assert (log + [r])[..p.seen] == log[..p.seen];
  }

  /** What one operation appends can be written. */
  lemma AppendedIsWritable(w: World, c: Call)
    requires c.proc < |w.procs| && Legal(c.op)
    ensures Step(w, c).log == w.log || (Step(w, c).log == w.log + [Appended(w, c)] && Writable(Appended(w, c)))
  {
    if c.op.Add? || c.op.Destroy? {
      CleanupKeyFits();
      var sum := Result(w, c.op);
      if sum.Some? { DecimalFits(sum.value); }
    }
  }

  ghost function Appended(w: World, c: Call): Record {
    match c.op
    case Set(key, value) => Record(Regular(key), value)
    case Look => Record([], [])
    case _ => Record(Key(c.op), if Result(w, c.op).Some? then ToString(Result(w, c.op).value) else [])
  }

  lemma StepRight(w: World, c: Call)
    requires c.proc < |w.procs| && AllRight(w) && Legal(c.op)
    ensures AllRight(Step(w, c))
  {
    hide Right, Coherent, Replay, EncodeAll, Writable, Legal, Appended;
    RefreshedRight(w.log);
    AppendedIsWritable(w, c);
    var w' := Step(w, c);
    if w'.log != w.log {
      var r := w'.log[|w.log|];
      forall i | 0 <= i < |w.procs| ensures Right(w'.procs[i], w'.log) {
        var p := if i == c.proc && !c.op.Set? then Refreshed(w.log) else w.procs[i];
        if c.op.Add? || c.op.Destroy? { AppendKey(w, c); }
        AppendRight(p, w'.procs[i], w.log, r);
      }
    }
  }

  lemma AppendKey(w: World, c: Call)
    requires !c.op.Set? && !c.op.Look?
    ensures Appended(w, c).key == Key(c.op)
  {
  }

  /** In every reachable state the log holds only records that read back, every process stands on a record
      boundary, and its cache agrees with the records it has read wherever the unread ones do not write. */
  lemma {:induction false} EveryCacheIsCoherent(n: nat, calls: seq<Call>)
    requires AllLegal(n, calls)
    ensures AllRight(After(n, calls))
  {
    if calls != [] {
      EveryCacheIsCoherent(n, calls[..|calls| - 1]);
      StepRight(After(n, calls[..|calls| - 1]), calls[|calls| - 1]);
    }
  }

  // ---------------------------------------------------------------- add is atomic

  /** The sum of everything added to a key. */
  ghost function Sum(calls: seq<Call>, key: Bytes): int {
    if calls == [] then 0
    else
      var last := calls[|calls| - 1].op;
      Sum(calls[..|calls| - 1], key) + if Adds(last, key) then Delta(last) else 0
  }

  ghost predicate AddOnly(calls: seq<Call>, key: Bytes) { forall c :: c in calls ==> !Sets(c.op, key) }

  /** No running sum leaves the range of an `int64_t`. */
  ghost predicate InRange(calls: seq<Call>, key: Bytes) {
    forall j :: 0 <= j <= |calls| ==> INT64_MIN <= Sum(calls[..j], key) <= INT64_MAX
  }

  lemma FrontOf(calls: seq<Call>, key: Bytes)
    requires calls != [] && AddOnly(calls, key) && InRange(calls, key)
    ensures AddOnly(calls[..|calls| - 1], key) && InRange(calls[..|calls| - 1], key)
    ensures INT64_MIN <= Sum(calls, key) <= INT64_MAX
  {
    var front := calls[..|calls| - 1];
    forall j | 0 <= j <= |front| ensures INT64_MIN <= Sum(front[..j], key) <= INT64_MAX {
      assert front[..j] == calls[..j];
    }
    assert calls[..|calls|] == calls;
  }

  lemma ValueAfterAppend(log: seq<Record>, r: Record, key: Bytes)
    ensures ValueAt(log + [r], key) == if r.key == key then r.value else ValueAt(log, key)
  {
  }

  lemma PrintedReadsBack(x: int)
    requires INT64_MIN <= x <= INT64_MAX
    ensures Current(ToString(x)) == Some(x)
  {
    DecimalRoundTrip(x);
  }

  /** One operation, seen at one key. */
  lemma StoredStep(w: World, c: Call, key: Bytes, sum: int)
    requires c.proc < |w.procs| && !Sets(c.op, key) && Current(ValueAt(w.log, key)) == Some(sum)
    requires Adds(c.op, key) ==> INT64_MIN <= sum + Delta(c.op) <= INT64_MAX
    ensures Current(ValueAt(Step(w, c).log, key)) == Some(if Adds(c.op, key) then sum + Delta(c.op) else sum)
  {
    hide Current, ToString, EncodeAll, Replay, ValueAt, Regular, CLEANUP_KEY;
    var w' := Step(w, c);
    if w'.log != w.log {
      var r := w'.log[|w.log|];
      assert w'.log == w.log + [r];
      ValueAfterAppend(w.log, r, key);
    }
    if Adds(c.op, key) { PrintedReadsBack(sum + Delta(c.op)); }
  }

  /** The value stored at a key nobody sets reads as the sum of everything added to it. */
  lemma {:induction false} StoredIsSum(n: nat, calls: seq<Call>, key: Bytes)
    requires AllLegal(n, calls)
    requires AddOnly(calls, key) && InRange(calls, key)
    ensures Current(ValueAt(After(n, calls).log, key)) == Some(Sum(calls, key))
  {
    hide Current, ValueAt, Step, InRange, Adds, Sets;
    if calls == [] {
      NothingStored(key);
    } else {
      var last := calls[|calls| - 1];
      FrontOf(calls, key);
      StoredIsSum(n, calls[..|calls| - 1], key);
      assert last in calls;
      StoredStep(After(n, calls[..|calls| - 1]), last, key, Sum(calls[..|calls| - 1], key));
    }
  }

  lemma NothingStored(key: Bytes)
    ensures Current(ValueAt([], key)) == Some(0)
  {
  }

  /** Each add on a key nobody sets returns the running sum, in log order, whichever processes add. */
  lemma AddReturnsRunningSum(n: nat, calls: seq<Call>, j: nat)
    requires AllLegal(n, calls)
    requires j < |calls| && (calls[j].op.Add? || calls[j].op.Destroy?)
    requires AddOnly(calls, Key(calls[j].op)) && InRange(calls, Key(calls[j].op))
    ensures Result(After(n, calls[..j]), calls[j].op) == Some(Sum(calls[..j + 1], Key(calls[j].op)))
  {
    hide Current, ValueAt, Step, Adds, Sets, Key, Delta, After;
    var key := Key(calls[j].op);
    forall i | 0 <= i <= j ensures INT64_MIN <= Sum(calls[..j][..i], key) <= INT64_MAX { assert calls[..j][..i] == calls[..i]; }
    StoredIsSum(n, calls[..j], key);
    assert calls[..j + 1][..j] == calls[..j];
    AddsItsKey(calls[j].op);
  }

  lemma AddsItsKey(op: Op)
    requires op.Add? || op.Destroy?
    ensures Adds(op, Key(op))
  {
  }

  // ---------------------------------------------------------------- the last one deletes the file

  ghost function Destroyed(calls: seq<Call>): nat {
    if calls == [] then 0
    else Destroyed(calls[..|calls| - 1]) + if calls[|calls| - 1].op.Destroy? then 1 else 0
  }

  lemma {:induction false} CleanupIsPrivate(calls: seq<Call>)
    ensures AddOnly(calls, CLEANUP_KEY) && Sum(calls, CLEANUP_KEY) == Destroyed(calls) <= |calls|
  {
    if calls != [] {
      CleanupIsPrivate(calls[..|calls| - 1]);
      forall key ensures Regular(key) != CLEANUP_KEY { assert Regular(key)[0] == 47; }
    }
  }

  lemma {:induction false} DestroyedGrows(calls: seq<Call>, j: nat)
    requires j <= |calls|
    ensures Destroyed(calls[..j]) <= Destroyed(calls)
  {
    if j == |calls| { assert calls[..j] == calls; }
    else {
      DestroyedGrows(calls[..|calls| - 1], j);
      assert calls[..|calls| - 1][..j] == calls[..j];
    }
  }

  /** The destructor at `j` finds that it is the one to delete the file. */
  ghost predicate Removes(n: nat, calls: seq<Call>, j: nat)
    requires AllLegal(n, calls)
  {
    j < |calls| && calls[j].op.Destroy? && Result(After(n, calls[..j]), Destroy) == Some(n)
  }

  lemma RemovesMeaning(n: nat, calls: seq<Call>, j: nat)
    requires AllLegal(n, calls)
    requires Destroyed(calls) <= INT64_MAX && j < |calls| && calls[j].op.Destroy?
    ensures Removes(n, calls, j) <==> Destroyed(calls[..j + 1]) == n
  {
    CleanupIsPrivate(calls);
    forall i | 0 <= i <= |calls| ensures INT64_MIN <= Sum(calls[..i], CLEANUP_KEY) <= INT64_MAX {
      CleanupIsPrivate(calls[..i]);
      DestroyedGrows(calls, i);
    }
    AddReturnsRunningSum(n, calls, j);
    CleanupIsPrivate(calls[..j + 1]);
  }

  lemma {:induction false} LastDestroy(calls: seq<Call>) returns (j: nat)
    requires Destroyed(calls) > 0
    ensures j < |calls| && calls[j].op.Destroy? && Destroyed(calls[..j + 1]) == Destroyed(calls)
  {
    if calls[|calls| - 1].op.Destroy? {
      j := |calls| - 1;
      assert calls[..j + 1] == calls;
    } else {
      j := LastDestroy(calls[..|calls| - 1]);
      assert calls[..|calls| - 1][..j + 1] == calls[..j + 1];
    }
  }

  /** Once each of `n` workers has run its destructor, exactly one has found the count to be `n`, and it
      was the last. */
  lemma ExactlyOneRemovesTheFile(n: nat, calls: seq<Call>) returns (last: nat)
    requires AllLegal(n, calls)
    requires 0 < n <= INT64_MAX && Destroyed(calls) == n
    ensures Removes(n, calls, last)
    ensures forall j :: Removes(n, calls, j) ==> j == last
    ensures forall j :: last < j < |calls| ==> !calls[j].op.Destroy?
  {
    hide Result, After, AllLegal;
    last := LastDestroy(calls);
    RemovesMeaning(n, calls, last);
    forall j | 0 <= j < |calls| && j != last && calls[j].op.Destroy?
      ensures j < last && !Removes(n, calls, j)
    {
      RemovesMeaning(n, calls, j);
      var lo, hi := if j < last then j else last, if j < last then last else j;
      assert calls[..hi + 1][..hi] == calls[..hi] && calls[..hi][..lo + 1] == calls[..lo + 1];
      DestroyedGrows(calls[..hi], lo + 1);
      DestroyedGrows(calls, hi + 1);
    }
  }
}
