/** What callers of the gloo process group observe over whole runs. */
module GlooRuns {
  import opened Basics
  import opened GlooQueue

  // Which works a barrier has waited for, how a failure reaches it, and how the destructor ends. The results speak of
  // runs and works only, not of what a barrier wrote down.

  // ---------------------------------------------------------------- runs in pieces

  lemma {:induction false} RunAppend(s: Pool, a: seq<Action>, b: seq<Action>)
    ensures Possible(s, a + b) <==> Possible(s, a) && Possible(After(s, a), b)
    ensures Possible(s, a + b) ==> After(s, a + b) == After(After(s, a), b)
    decreases |a|
  {
    hide Enabled, Step;
    if a == [] {
      assert a + b == b;
    } else {
      assert (a + b)[0] == a[0] && (a + b)[1..] == a[1..] + b;
      if Enabled(s, a[0]) { RunAppend(Step(s, a[0]), a[1..], b); }
    }
  }

  lemma OneStep(s: Pool, a: Action)
    ensures Possible(s, [a]) <==> Enabled(s, a)
    ensures Enabled(s, a) ==> After(s, [a]) == Step(s, a)
  {
    hide Enabled, Step;
    if Enabled(s, a) {
      assert [a][1..] == [];
      assert Possible(Step(s, a), []);
    }
  }

  lemma Reachable(threads: nat, run: seq<Action>)
    requires Possible(Init(threads), run)
    ensures Inv(After(Init(threads), run))
  {
    InitInv(threads);
    RunInv(Init(threads), run);
  }

  // ---------------------------------------------------------------- what lasts

  lemma LaterTwice(a: seq<Work>, b: seq<Work>, c: seq<Work>)
    requires Later(a, b) && Later(b, c)
    ensures Later(a, c)
  {
  }

  lemma StepLater(s: Pool, a: Action)
    requires Inv(s) && Enabled(s, a)
    ensures Later(s.works, Step(s, a).works)
  {
    hide Covers, Waited, IsDone, Referenced, Slots;
    match a
    case Dequeue(k) => assert WorkOk(s, |s.started|);
    case Await(k, _) => assert PcOk(s, k);
    case Finish(k, _) => assert PcOk(s, k);
    case _ =>
  }

  lemma {:induction false} RunLater(s: Pool, run: seq<Action>)
    requires Inv(s) && Possible(s, run)
    ensures Later(s.works, After(s, run).works)
    decreases |run|
  {
    hide Inv, Enabled, Step, Later;
    if run == [] {
      LaterSame(s.works);
    } else {
      NextInv(s, run[0]);
      StepLater(s, run[0]);
      RunLater(Step(s, run[0]), run[1..]);
      LaterTwice(s.works, Step(s, run[0]).works, After(s, run).works);
    }
  }

  lemma LaterSame(a: seq<Work>)
    ensures Later(a, a)
  {
  }

  /** Neither a new snapshot nor an enqueued barrier of this caller. */
  ghost predicate Quiet(run: seq<Action>, c: nat) { Look(c) !in run && EnqueueBarrier(c) !in run }

  lemma {:induction false} SnapshotStays(s: Pool, run: seq<Action>, c: nat)
    requires Possible(s, run) && Quiet(run, c) && c in s.snapshots
    ensures c in After(s, run).snapshots && After(s, run).snapshots[c] == s.snapshots[c]
    decreases |run|
  {
    hide Enabled;
    if run != [] {
      assert run[0] in run;
      SnapshotStays(Step(s, run[0]), run[1..], c);
    }
  }

  // ---------------------------------------------------------------- barriers

  lemma LookThenPush(s: Pool, mid: seq<Action>, c: nat)
    requires Inv(s) && Enabled(s, Look(c)) && Quiet(mid, c) && Possible(Step(s, Look(c)), mid)
    requires Enabled(After(Step(s, Look(c)), mid), EnqueueBarrier(c))
    ensures var pushing := After(Step(s, Look(c)), mid);
            var pushed := Step(pushing, EnqueueBarrier(c));
            |pushed.works| == |pushing.works| + 1 && pushed.works[|pushing.works|].cut == |s.works|
  {
    hide Inv, Slots;
    SnapshotStays(Step(s, Look(c)), mid, c);
  }

  /** A barrier that succeeds has seen every work finish that was enqueued before the barrier looked at the
      pool, whatever ran before, between its look and its enqueueing, and since. */
  lemma BarrierWaitsForEverythingBefore(threads: nat, before: seq<Action>, mid: seq<Action>, after: seq<Action>, c: nat, w: nat)
    requires Quiet(mid, c) && Possible(Init(threads), before + [Look(c)] + mid + [EnqueueBarrier(c)] + after)
    requires w < |After(Init(threads), before).works|
    requires var b := |After(Init(threads), before + [Look(c)] + mid).works|;
             var end := After(Init(threads), before + [Look(c)] + mid + [EnqueueBarrier(c)] + after);
             b < |end.works| && end.works[b].status == Done(true)
    ensures var end := After(Init(threads), before + [Look(c)] + mid + [EnqueueBarrier(c)] + after);
            w < |end.works| && end.works[w].status.Done?
  {
    hide Inv, Enabled, Step, Possible, After;
    var s := Init(threads);
    var upToPush := before + [Look(c)] + mid;
    RunAppend(s, upToPush + [EnqueueBarrier(c)], after);
    RunAppend(s, upToPush, [EnqueueBarrier(c)]);
    RunAppend(s, before + [Look(c)], mid);
    RunAppend(s, before, [Look(c)]);
    var looking, pushing := After(s, before), After(s, upToPush);
    OneStep(looking, Look(c));
    OneStep(pushing, EnqueueBarrier(c));
    Reachable(threads, before);
    LookThenPush(looking, mid, c);
    var pushed := Step(pushing, EnqueueBarrier(c));
    Reachable(threads, upToPush + [EnqueueBarrier(c)]);
    RunLater(pushed, after);
    Reachable(threads, upToPush + [EnqueueBarrier(c)] + after);
    DoneBarrier(After(pushed, after), |pushing.works|, w);
  }

  // ---------------------------------------------------------------- outcomes

  /** What a work reported is its outcome for good. */
  lemma OutcomeIsReported(threads: nat, run: seq<Action>, k: nat, ok: bool, rest: seq<Action>, w: nat, next: nat)
    requires Possible(Init(threads), run + [Finish(k, ok)] + rest)
    requires var s := After(Init(threads), run); k < |s.pcs| && s.pcs[k] == Exec(w, next)
    ensures var end := After(Init(threads), run + [Finish(k, ok)] + rest); w < |end.works| && end.works[w].status == Done(ok)
  {
    hide Inv, Possible, After;
    var s := Init(threads);
    RunAppend(s, run + [Finish(k, ok)], rest);
    RunAppend(s, run, [Finish(k, ok)]);
    OneStep(After(s, run), Finish(k, ok));
    Reachable(threads, run + [Finish(k, ok)]);
    RunLater(After(s, run + [Finish(k, ok)]), rest);
  }

  /** A barrier that waits for a failed work, while its pointer still yields the work, fails for good; waiting
      for anything else leaves it running. */
  lemma FailureIsPassedOn(threads: nat, run: seq<Action>, k: nat, rest: seq<Action>, b: nat, next: nat)
    requires Possible(Init(threads), run + [Await(k, false)] + rest)
    requires var s := After(Init(threads), run); k < |s.pcs| && s.pcs[k] == Exec(b, next)
    ensures var s := After(Init(threads), run);
            var end := After(Init(threads), run + [Await(k, false)] + rest);
            && b < |s.works| && next < |s.works[b].prior| && s.works[b].prior[next] < |s.works| && b < |end.works|
            && (s.works[s.works[b].prior[next]].status == Done(false) ==> end.works[b].status == Done(false))
            && (s.works[s.works[b].prior[next]].status != Done(false) && rest == [] ==> end.works[b].status == Running)
  {
    hide Inv, Possible, After, Referenced;
    var s := Init(threads);
    RunAppend(s, run + [Await(k, false)], rest);
    RunAppend(s, run, [Await(k, false)]);
    OneStep(After(s, run), Await(k, false));
    Reachable(threads, run);
    RunningPc(After(s, run), k);
    Reachable(threads, run + [Await(k, false)]);
    RunLater(After(s, run + [Await(k, false)]), rest);
    assert rest == [] ==> run + [Await(k, false)] + rest == run + [Await(k, false)];
  }

  lemma RunningPc(s: Pool, k: nat)
    requires Inv(s) && k < |s.pcs| && s.pcs[k].Exec?
    ensures s.pcs[k].work < |s.works| && s.works[s.pcs[k].work].status.Running?
  {
    assert PcOk(s, k);
  }

  // ---------------------------------------------------------------- counting and stopping

  function Pushes(run: seq<Action>): nat {
    if run == [] then 0 else (if run[0].Enqueue? || run[0].EnqueueBarrier? then 1 else 0) + Pushes(run[1..])
  }

  /** Every call enqueues exactly one work, at the next place. */
  lemma {:induction false} OneWorkPerCall(s: Pool, run: seq<Action>)
    requires Possible(s, run)
    ensures |After(s, run).works| == |s.works| + Pushes(run)
    decreases |run|
  {
    hide Enabled, Step;
    if run != [] {
      OneWorkAtMost(s, run[0]);
      OneWorkPerCall(Step(s, run[0]), run[1..]);
    }
  }

  lemma OneWorkAtMost(s: Pool, a: Action)
    requires Enabled(s, a)
    ensures |Step(s, a).works| == |s.works| + if a.Enqueue? || a.EnqueueBarrier? then 1 else 0
  {
  }

  function Exits(from: nat, threads: nat): (r: seq<Action>)
    requires from <= threads
    decreases threads - from
  {
    if from == threads then [] else [Exit(from)] + Exits(from + 1, threads)
  }

  lemma {:induction false} AllExit(s: Pool, from: nat)
    requires s.stop && from <= |s.pcs| && forall k :: 0 <= k < |s.pcs| ==> s.pcs[k] == if k < from then Pc.Exited else Idle
    ensures Possible(s, Exits(from, |s.pcs|))
    ensures var end := After(s, Exits(from, |s.pcs|)); end.stop && end.works == s.works && forall k :: 0 <= k < |end.pcs| ==> end.pcs[k].Exited?
    decreases |s.pcs| - from
  {
    if from < |s.pcs| {
      var run := Exits(from, |s.pcs|);
      assert run[0] == Exit(from) && run[1..] == Exits(from + 1, |s.pcs|);
      AllExit(Step(s, Exit(from)), from + 1);
    }
  }

  /** A pool whose workers are all idle, with nothing queued and no barrier call under way, can be destroyed:
      the destructor gets through, and every worker leaves. */
  lemma DestructorGetsThrough(s: Pool)
    requires s.queue == [] && s.snapshots == map[] && forall k :: 0 <= k < |s.pcs| ==> s.pcs[k].Idle?
    ensures var run := [Stop] + Exits(0, |s.pcs|);
            && Possible(s, run)
            && After(s, run).stop && After(s, run).works == s.works && forall k :: 0 <= k < |After(s, run).pcs| ==> After(s, run).pcs[k].Exited?
  {
    AllExit(Step(s, Stop), 0);
    assert ([Stop] + Exits(0, |s.pcs|))[1..] == Exits(0, |s.pcs|);
  }
}
