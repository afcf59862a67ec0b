/** The gloo process group's pool, queue and barriers. */
module GlooQueue {
  import opened Basics

  datatype Status = Queued | Running | Done(ok: bool)

  /** `prior` is what a barrier waits for, and `cut` how many works had been enqueued when it looked; other
      works wait for nothing. A work is named by its place in the order of enqueueing. */
  datatype Work = Work(prior: seq<nat>, cut: nat, status: Status)

  datatype Snapshot = Snapshot(prior: seq<nat>, cut: nat)

  /** A worker waits for work, runs one (having waited for the first `next` of its prior works), has
      finished it without having cleared its slot, or has left the loop. */
  datatype Pc = Idle | Exec(work: nat, next: nat) | Release(work: nat) | Exited

  datatype Pool = Pool(
    works: seq<Work>,
    queue: seq<nat>,
    inProgress: seq<Option<nat>>,
    pcs: seq<Pc>,
    snapshots: map<nat, Snapshot>,     // barrier calls between their snapshot and their enqueue
    stop: bool,
    started: seq<nat>)                 // what was dequeued, in order

  datatype Action =
    | Enqueue
    | Look(caller: nat)
    | EnqueueBarrier(caller: nat)
    | Dequeue(k: nat)
    | Await(k: nat, expired: bool)     // the next prior work; `expired`: its weak pointer yields nothing
    | Finish(k: nat, ok: bool)
    | Reset(k: nat)
    | Stop
    | Exit(k: nat)

  function Slots(inProgress: seq<Option<nat>>): seq<nat> {
    if inProgress == [] then []
    else Slots(inProgress[..|inProgress| - 1]) + if inProgress[|inProgress| - 1].Some? then [inProgress[|inProgress| - 1].value] else []
  }

  /** The pool itself holds the work: in the queue, or in a worker's slot. */
  predicate Referenced(s: Pool, w: nat) { w in s.queue || Some(w) in s.inProgress }

  predicate Enabled(s: Pool, a: Action) {
    match a
    case Enqueue => !s.stop
    case Look(_) => !s.stop
    case EnqueueBarrier(c) => !s.stop && c in s.snapshots
    case Dequeue(k) => k < |s.pcs| && k < |s.inProgress| && s.pcs[k].Idle? && !s.stop && s.queue != []
    case Await(k, expired) =>
      && k < |s.pcs| && s.pcs[k].Exec?
      && s.pcs[k].work < |s.works| && s.pcs[k].next < |s.works[s.pcs[k].work].prior|
      && var p := s.works[s.pcs[k].work].prior[s.pcs[k].next];
      && p < |s.works|
      && if expired then !Referenced(s, p) else s.works[p].status.Done?
    case Finish(k, _) => k < |s.pcs| && s.pcs[k].Exec? && s.pcs[k].work < |s.works| && s.pcs[k].next == |s.works[s.pcs[k].work].prior|
    case Reset(k) => k < |s.pcs| && k < |s.inProgress| && s.pcs[k].Release?
    case Stop => s.queue == [] && s.snapshots == map[]
    case Exit(k) => k < |s.pcs| && s.pcs[k].Idle? && s.stop
  }

  function Ended(s: Pool, k: nat, ok: bool): Pool
    requires k < |s.pcs| && s.pcs[k].Exec? && s.pcs[k].work < |s.works|
  {
    var w := s.pcs[k].work;
    s.(works := s.works[w := s.works[w].(status := Done(ok))], pcs := s.pcs[k := Release(w)])
  }

  function Step(s: Pool, a: Action): Pool
    requires Enabled(s, a)
  {
    match a
    case Enqueue => s.(works := s.works + [Work([], 0, Queued)], queue := s.queue + [|s.works|])
    case Look(c) => s.(snapshots := s.snapshots[c := Snapshot(Slots(s.inProgress) + s.queue, |s.works|)])
    case EnqueueBarrier(c) =>
      s.(works := s.works + [Work(s.snapshots[c].prior, s.snapshots[c].cut, Queued)],
         queue := s.queue + [|s.works|],
         snapshots := s.snapshots - {c})
    case Dequeue(k) =>
      var w := s.queue[0];
      s.(queue := s.queue[1..],
         works := if w < |s.works| then s.works[w := s.works[w].(status := Running)] else s.works,
         inProgress := s.inProgress[k := Some(w)],
         pcs := s.pcs[k := Exec(w, 0)],
         started := s.started + [w])
    case Await(k, expired) =>
      var Exec(w, next) := s.pcs[k];
      var p := s.works[w].prior[next];
      if !expired && s.works[p].status == Done(false) then Ended(s, k, false)    // wait rethrows
      else s.(pcs := s.pcs[k := Exec(w, next + 1)])
    case Finish(k, ok) => Ended(s, k, ok)
    case Reset(k) => s.(inProgress := s.inProgress[k := None], pcs := s.pcs[k := Idle])
    case Stop => s.(stop := true)
    case Exit(k) => s.(pcs := s.pcs[k := Exited])
  }

  function Init(threads: nat): Pool {
    Pool([], [], seq(threads, _ => None), seq(threads, _ => Idle), map[], false, [])
  }

  // ---------------------------------------------------------------- the invariant

  function Range(lo: nat, hi: nat): (r: seq<nat>)
    requires lo <= hi
    ensures |r| == hi - lo && forall i :: 0 <= i < hi - lo ==> r[i] == lo + i
  {
    seq(hi - lo, i => lo + i)
  }

  ghost predicate IsDone(works: seq<Work>, w: nat) { w < |works| && works[w].status.Done? }

  /** A snapshot names only earlier works, and misses only finished ones. */
  ghost predicate Covers(works: seq<Work>, prior: seq<nat>, cut: nat) {
    && cut <= |works|
    && (forall i :: 0 <= i < |prior| ==> prior[i] < cut)
    && (forall p: nat :: p < cut ==> p in prior || IsDone(works, p))
  }

  ghost predicate Waited(works: seq<Work>, prior: seq<nat>, next: nat) {
    next <= |prior| && forall i :: 0 <= i < next ==> IsDone(works, prior[i])
  }

  ghost predicate Runs(pcs: seq<Pc>, k: nat, w: nat) { k < |pcs| && pcs[k].Exec? && pcs[k].work == w }

  ghost predicate WorkOk(s: Pool, w: nat)
    requires w < |s.works|
  {
    var work := s.works[w];
    && (work.status.Queued? <==> w >= |s.started|)
    && work.cut <= w && Covers(s.works, work.prior, work.cut)
    && (work.status == Done(true) ==> Waited(s.works, work.prior, |work.prior|))
    && (work.status.Running? ==> exists k: nat :: Runs(s.pcs, k, w))
  }

  ghost predicate PcOk(s: Pool, k: nat)
    requires k < |s.pcs| == |s.inProgress|
  {
    match s.pcs[k]
    case Idle => s.inProgress[k].None?
    case Exited => s.inProgress[k].None? && s.stop
    case Exec(w, next) => s.inProgress[k] == Some(w) && w < |s.works| && s.works[w].status.Running? && Waited(s.works, s.works[w].prior, next)
    case Release(w) => s.inProgress[k] == Some(w) && IsDone(s.works, w)
  }

  ghost predicate Apart(s: Pool) {
    forall i, k :: 0 <= i < k < |s.pcs| && s.pcs[i].Exec? && s.pcs[k].Exec? ==> s.pcs[i].work != s.pcs[k].work
  }

  ghost predicate SnapOk(s: Pool, c: nat) { c in s.snapshots ==> Covers(s.works, s.snapshots[c].prior, s.snapshots[c].cut) }

  ghost predicate Inv(s: Pool) {
    && |s.inProgress| == |s.pcs|
    && |s.started| <= |s.works| && s.started == Range(0, |s.started|) && s.queue == Range(|s.started|, |s.works|)
    && (s.stop ==> s.queue == [])
    && (forall w :: 0 <= w < |s.works| ==> WorkOk(s, w))
    && (forall k :: 0 <= k < |s.pcs| ==> PcOk(s, k))
    && Apart(s)
    && (forall c :: SnapOk(s, c))
  }

  lemma InitInv(threads: nat)
    ensures Inv(Init(threads))
  {
  }

  // ---------------------------------------------------------------- what every step keeps

  /** Works only come on, and what is done stays done. */
  ghost predicate Later(a: seq<Work>, b: seq<Work>) {
    && |a| <= |b|
    && forall w :: 0 <= w < |a| ==> b[w].prior == a[w].prior && b[w].cut == a[w].cut && (a[w].status.Done? ==> b[w].status == a[w].status)
  }

  lemma CoversLater(a: seq<Work>, b: seq<Work>, prior: seq<nat>, cut: nat)
    requires Later(a, b) && Covers(a, prior, cut)
    ensures Covers(b, prior, cut)
  {
  }

  lemma WaitedLater(a: seq<Work>, b: seq<Work>, prior: seq<nat>, next: nat)
    requires Later(a, b) && Waited(a, prior, next)
    ensures Waited(b, prior, next)
  {
  }

  /** A work of which only the others have moved. */
  lemma WorkLater(s: Pool, s': Pool, w: nat)
    requires w < |s.works| && WorkOk(s, w) && Later(s.works, s'.works) && s'.works[w].status == s.works[w].status
    requires w >= |s.started| <==> w >= |s'.started|
    requires s.works[w].status.Running? ==> exists k: nat :: Runs(s'.pcs, k, w)
    ensures WorkOk(s', w)
  {
  }

  lemma PcLater(s: Pool, s': Pool, k: nat)
    requires k < |s.pcs| == |s.inProgress| && PcOk(s, k) && Later(s.works, s'.works)
    requires k < |s'.pcs| == |s'.inProgress| && s'.pcs[k] == s.pcs[k] && s'.inProgress[k] == s.inProgress[k] && (s.stop ==> s'.stop)
    requires s.pcs[k].Exec? ==> s'.works[s.pcs[k].work].status.Running?
    ensures PcOk(s', k)
  {
  }

  lemma SnapsLater(s: Pool, s': Pool)
    requires (forall c :: SnapOk(s, c)) && Later(s.works, s'.works)
    requires forall c :: c in s'.snapshots ==> c in s.snapshots && s'.snapshots[c] == s.snapshots[c]
    ensures forall c :: SnapOk(s', c)
  {
    forall c ensures SnapOk(s', c) {
      assert SnapOk(s, c);
      if c in s'.snapshots { CoversLater(s.works, s'.works, s.snapshots[c].prior, s.snapshots[c].cut); }
    }
  }

  // ---------------------------------------------------------------- snapshots

  lemma {:induction false} SlotsHold(inProgress: seq<Option<nat>>, w: nat)
    ensures w in Slots(inProgress) <==> Some(w) in inProgress
  {
    if inProgress != [] { SlotsHold(inProgress[..|inProgress| - 1], w); }
  }

  /** The pool holds on to every unfinished work, so a snapshot cannot miss one, and a weak pointer that
      yields nothing belonged to a finished work. */
  lemma UnfinishedIsReferenced(s: Pool, w: nat)
    requires Inv(s) && w < |s.works| && !s.works[w].status.Done?
    ensures Referenced(s, w)
  {
    assert WorkOk(s, w);
    if s.works[w].status.Queued? {
      assert s.queue[w - |s.started|] == w;
    } else {
      var k: nat :| Runs(s.pcs, k, w);
      assert PcOk(s, k);
      assert s.inProgress[k] == Some(w);
    }
  }

  lemma ReferencedExists(s: Pool, w: nat)
    requires Inv(s) && Referenced(s, w)
    ensures w < |s.works|
  {
    if w !in s.queue {
      var k: nat :| k < |s.inProgress| && s.inProgress[k] == Some(w);
      assert PcOk(s, k);
    }
  }

  lemma SnapshotCovers(s: Pool)
    requires Inv(s)
    ensures Covers(s.works, Slots(s.inProgress) + s.queue, |s.works|)
  {
    hide Inv, Slots;
    var prior := Slots(s.inProgress) + s.queue;
    forall p: nat ensures p in prior <==> Referenced(s, p) { SlotsHold(s.inProgress, p); }
    forall i | 0 <= i < |prior| ensures prior[i] < |s.works| {
      assert prior[i] in prior;
      ReferencedExists(s, prior[i]);
    }
    forall p: nat | p < |s.works| ensures p in prior || IsDone(s.works, p) {
      if !s.works[p].status.Done? { UnfinishedIsReferenced(s, p); }
    }
  }

  // ---------------------------------------------------------------- step by step

  lemma PushInv(s: Pool, work: Work, snapshots: map<nat, Snapshot>)
    requires Inv(s) && !s.stop && work.status.Queued? && work.cut <= |s.works| && Covers(s.works, work.prior, work.cut)
    requires forall c :: c in snapshots ==> c in s.snapshots && snapshots[c] == s.snapshots[c]
    ensures Inv(s.(works := s.works + [work], queue := s.queue + [|s.works|], snapshots := snapshots))
  {
    hide Covers, Waited, IsDone;
    var s' := s.(works := s.works + [work], queue := s.queue + [|s.works|], snapshots := snapshots);
    forall w | 0 <= w < |s.works| ensures WorkOk(s', w) {
      assert WorkOk(s, w);
      WorkLater(s, s', w);
    }
    CoversLater(s.works, s'.works, work.prior, work.cut);
    assert WorkOk(s', |s.works|);
    forall k | 0 <= k < |s.pcs| ensures PcOk(s', k) {
      assert PcOk(s, k);
      PcLater(s, s', k);
    }
    SnapsLater(s, s');
  }

  lemma DequeueInv(s: Pool, k: nat)
    requires Inv(s) && Enabled(s, Dequeue(k))
    ensures Inv(Step(s, Dequeue(k)))
  {
    hide Covers, Waited, IsDone;
    var s', h := Step(s, Dequeue(k)), |s.started|;
    assert s.queue[0] == h;
    assert WorkOk(s, h);
    assert Later(s.works, s'.works);
    forall w | 0 <= w < |s.works| ensures WorkOk(s', w) {
      assert WorkOk(s, w);
      if w != h {
        if s.works[w].status.Running? {
          var i: nat :| Runs(s.pcs, i, w);
          assert Runs(s'.pcs, i, w);
        }
        WorkLater(s, s', w);
      } else {
        CoversLater(s.works, s'.works, s.works[w].prior, s.works[w].cut);
        assert Runs(s'.pcs, k, w);
      }
    }
    WaitedNothing(s'.works, s'.works[h].prior);
    forall i | 0 <= i < |s.pcs| ensures PcOk(s', i) {
      assert PcOk(s, i);
      if i != k {
        if s.pcs[i].Exec? { assert WorkOk(s, s.pcs[i].work); }
        PcLater(s, s', i);
      }
    }
    assert Apart(s') by {
      forall i | 0 <= i < |s.pcs| && i != k && s.pcs[i].Exec? ensures s.pcs[i].work != h {
        assert PcOk(s, i);
        assert WorkOk(s, s.pcs[i].work);
      }
    }
    SnapsLater(s, s');
  }

  lemma WaitedNothing(works: seq<Work>, prior: seq<nat>)
    ensures Waited(works, prior, 0)
  {
  }

  lemma EndedInv(s: Pool, k: nat, ok: bool)
    requires Inv(s) && k < |s.pcs| && s.pcs[k].Exec? && s.pcs[k].work < |s.works|
    requires ok ==> s.pcs[k].next == |s.works[s.pcs[k].work].prior|
    ensures Inv(Ended(s, k, ok))
  {
    hide Covers, Waited;
    var s', v := Ended(s, k, ok), s.pcs[k].work;
    assert PcOk(s, k);
    assert Later(s.works, s'.works);
    forall w | 0 <= w < |s.works| ensures WorkOk(s', w) {
      assert WorkOk(s, w);
      if w != v {
        if s.works[w].status.Running? {
          var i: nat :| Runs(s.pcs, i, w);
          assert Runs(s'.pcs, i, w);
        }
        WorkLater(s, s', w);
      } else {
        CoversLater(s.works, s'.works, s.works[w].prior, s.works[w].cut);
        WaitedLater(s.works, s'.works, s.works[w].prior, s.pcs[k].next);
      }
    }
    forall i | 0 <= i < |s.pcs| ensures PcOk(s', i) {
      assert PcOk(s, i);
      if i != k { PcLater(s, s', i); }
    }
    SnapsLater(s, s');
  }

  /** Steps that only move one worker. */
  lemma MoveInv(s: Pool, s': Pool, k: nat)
    requires Inv(s) && k < |s.pcs| && s'.works == s.works && s'.queue == s.queue && s'.started == s.started && s'.stop == s.stop && s'.snapshots == s.snapshots
    requires |s'.pcs| == |s.pcs| && |s'.inProgress| == |s.pcs|
    requires forall i :: 0 <= i < |s.pcs| && i != k ==> s'.pcs[i] == s.pcs[i] && s'.inProgress[i] == s.inProgress[i]
    requires s'.pcs[k].Exec? == s.pcs[k].Exec? && (s.pcs[k].Exec? ==> s'.pcs[k].work == s.pcs[k].work)
    requires PcOk(s', k)
    ensures Inv(s')
  {
    hide Covers, Waited, IsDone;
    forall w | 0 <= w < |s.works| ensures WorkOk(s', w) {
      assert WorkOk(s, w);
      if s.works[w].status.Running? {
        var i: nat :| Runs(s.pcs, i, w);
        assert Runs(s'.pcs, i, w);
      }
      WorkLater(s, s', w);
    }
    forall i | 0 <= i < |s.pcs| ensures PcOk(s', i) {
      assert PcOk(s, i);
      if i != k { PcLater(s, s', i); }
    }
    SnapsLater(s, s');
  }

  lemma AwaitInv(s: Pool, k: nat, expired: bool)
    requires Inv(s) && Enabled(s, Await(k, expired))
    ensures Inv(Step(s, Await(k, expired)))
  {
    hide Inv, Covers, Referenced;
    var Exec(w, next) := s.pcs[k];
    var p := s.works[w].prior[next];
    if !expired && s.works[p].status == Done(false) {
      EndedInv(s, k, false);
    } else {
      if expired && !s.works[p].status.Done? { UnfinishedIsReferenced(s, p); }
      PcOf(s, k);
      MoveInv(s, Step(s, Await(k, expired)), k);
    }
  }

  lemma PcOf(s: Pool, k: nat)
    requires Inv(s) && k < |s.pcs|
    ensures |s.inProgress| == |s.pcs| && PcOk(s, k)
  {
  }

  lemma StopInv(s: Pool)
    requires Inv(s) && s.queue == []
    ensures Inv(s.(stop := true))
  {
    hide Covers, Waited, IsDone;
    var s' := s.(stop := true);
    forall w | 0 <= w < |s.works| ensures WorkOk(s', w) { assert WorkOk(s, w); }
    forall k | 0 <= k < |s.pcs| ensures PcOk(s', k) {
      assert PcOk(s, k);
      PcLater(s, s', k);
    }
    SnapsLater(s, s');
  }

  lemma LookInv(s: Pool, c: nat)
    requires Inv(s) && Enabled(s, Look(c))
    ensures Inv(Step(s, Look(c)))
  {
    hide Covers, Waited, IsDone, Slots;
    var s' := Step(s, Look(c));
    SnapshotCovers(s);
    forall w | 0 <= w < |s.works| ensures WorkOk(s', w) { assert WorkOk(s, w); }
    forall k | 0 <= k < |s.pcs| ensures PcOk(s', k) { assert PcOk(s, k); }
    forall d ensures SnapOk(s', d) { assert SnapOk(s, d); }
  }

  lemma NextInv(s: Pool, a: Action)
    requires Inv(s) && Enabled(s, a)
    ensures Inv(Step(s, a))
  {
    hide Inv, PcOk, Covers, Referenced;
    match a
    case Enqueue =>
      CoversNothing(s.works);
      PushInv(s, Work([], 0, Queued), s.snapshots);
    case Look(c) => LookInv(s, c);
    case EnqueueBarrier(c) =>
      SnapOf(s, c);
      PushInv(s, Work(s.snapshots[c].prior, s.snapshots[c].cut, Queued), s.snapshots - {c});
    case Dequeue(k) => DequeueInv(s, k);
    case Await(k, expired) => AwaitInv(s, k, expired);
    case Finish(k, ok) => EndedInv(s, k, ok);
    case Reset(k) =>
      PcOf(s, k);
      IdleOk(Step(s, a), k);
      MoveInv(s, Step(s, a), k);
    case Stop => StopInv(s);
    case Exit(k) =>
      PcOf(s, k);
      ExitOk(s, k);
      MoveInv(s, Step(s, a), k);
  }

  lemma CoversNothing(works: seq<Work>)
    ensures Covers(works, [], 0)
  {
  }

  lemma SnapOf(s: Pool, c: nat)
    requires Inv(s) && c in s.snapshots
    ensures Covers(s.works, s.snapshots[c].prior, s.snapshots[c].cut) && s.snapshots[c].cut <= |s.works|
  {
    assert SnapOk(s, c);
  }

  lemma IdleOk(s: Pool, k: nat)
    requires k < |s.pcs| == |s.inProgress| && s.pcs[k].Idle? && s.inProgress[k].None?
    ensures PcOk(s, k)
  {
  }

  lemma ExitOk(s: Pool, k: nat)
    requires k < |s.pcs| == |s.inProgress| && s.pcs[k].Idle? && PcOk(s, k) && s.stop
    ensures PcOk(s.(pcs := s.pcs[k := Exited]), k)
  {
  }

  // ---------------------------------------------------------------- whole runs

  ghost predicate Possible(s: Pool, run: seq<Action>)
    decreases |run|
  {
    run == [] || (Enabled(s, run[0]) && Possible(Step(s, run[0]), run[1..]))
  }

  /** Where a run ends; one that cannot be taken ends before its first impossible step. */
  ghost function After(s: Pool, run: seq<Action>): Pool
    decreases |run|
  {
    if run == [] || !Enabled(s, run[0]) then s else After(Step(s, run[0]), run[1..])
  }

  lemma {:induction false} RunInv(s: Pool, run: seq<Action>)
    requires Inv(s) && Possible(s, run)
    ensures Inv(After(s, run))
    decreases |run|
  {
    hide Inv, Enabled, Step;
    if run != [] {
      NextInv(s, run[0]);
      RunInv(Step(s, run[0]), run[1..]);
    }
  }

  /** In every run works are taken off the queue in the order they were put on it, each at most once. */
  lemma FirstInFirstOut(threads: nat, run: seq<Action>)
    requires Possible(Init(threads), run)
    ensures var s := After(Init(threads), run); s.started + s.queue == Range(0, |s.works|)
  {
    InitInv(threads);
    RunInv(Init(threads), run);
  }

  /** A barrier that succeeds has seen every work enqueued before its snapshot finish. */
  lemma BarrierSeesAllPriorWork(threads: nat, run: seq<Action>, b: nat, w: nat)
    requires Possible(Init(threads), run)
    requires var s := After(Init(threads), run); b < |s.works| && s.works[b].status == Done(true) && w < s.works[b].cut
    ensures IsDone(After(Init(threads), run).works, w)
  {
    InitInv(threads);
    RunInv(Init(threads), run);
    var s := After(Init(threads), run);
    DoneBarrier(s, b, w);
  }

  lemma DoneBarrier(s: Pool, b: nat, w: nat)
    requires Inv(s) && b < |s.works| && s.works[b].status == Done(true) && w < s.works[b].cut
    ensures IsDone(s.works, w)
  {
    assert WorkOk(s, b);
    var prior := s.works[b].prior;
    if w in prior {
      var i: nat :| i < |prior| && prior[i] == w;
    }
  }

  /** Works wait only for works before them in the queue, so waiting cannot go round in a circle. */
  lemma WaitsAreAcyclic(threads: nat, run: seq<Action>, b: nat, w: nat)
    requires Possible(Init(threads), run)
    requires var s := After(Init(threads), run); b < |s.works| && w in s.works[b].prior
    ensures w < b
  {
    InitInv(threads);
    RunInv(Init(threads), run);
    assert WorkOk(After(Init(threads), run), b);
  }

  // ---------------------------------------------------------------- no deadlock

  /** A step of the pool itself, not of a caller. */
  predicate Internal(a: Action) { a.Dequeue? || a.Await? || a.Finish? || a.Reset? }

  ghost predicate FirstUnfinished(s: Pool, m: nat) {
    m < |s.works| && !s.works[m].status.Done? && forall w: nat :: w < m ==> IsDone(s.works, w)
  }

  lemma {:induction false} SomeFirst(s: Pool, w: nat) returns (m: nat)
    requires w < |s.works| && !s.works[w].status.Done?
    ensures FirstUnfinished(s, m)
  {
    m := w;
    if v: nat :| v < w && !s.works[v].status.Done? {
      m := SomeFirst(s, v);
    }
  }

  /** While any work is unfinished, a pool of one worker or more can take a step of its own: the first
      unfinished work can go on, or a worker is free to start it or to clear its slot. */
  lemma NeverStuck(s: Pool, w: nat) returns (a: Action)
    requires Inv(s) && 0 < |s.pcs| && w < |s.works| && !s.works[w].status.Done?
    ensures Internal(a) && Enabled(s, a)
  {
    hide Referenced;
    var m := SomeFirst(s, w);
    assert WorkOk(s, m);
    if s.works[m].status.Running? {
      var k: nat :| Runs(s.pcs, k, m);
      assert PcOk(s, k);
      if s.pcs[k].next == |s.works[m].prior| {
        a := Finish(k, true);
      } else {
        var p := s.works[m].prior[s.pcs[k].next];
        assert IsDone(s.works, p);
        a := Await(k, false);
      }
    } else {
      assert s.queue[m - |s.started|] == m;
      assert PcOk(s, 0);
      RunningIsLater(s, 0, m);
      a := if s.pcs[0].Idle? then Dequeue(0) else Reset(0);
    }
  }

  lemma RunningIsLater(s: Pool, k: nat, m: nat)
    requires Inv(s) && k < |s.pcs| && FirstUnfinished(s, m) && s.works[m].status.Queued?
    ensures !s.pcs[k].Exec?
  {
    assert PcOk(s, k) && WorkOk(s, m);
    forall w: nat | w < m ensures s.works[w].status.Done? { assert IsDone(s.works, w); }
    forall w: nat | w < |s.works| ensures s.works[w].status.Running? ==> w < |s.started| { assert WorkOk(s, w); }
  }

  /** From any reachable state with work left, whatever the barriers wait for and however few workers. */
  lemma PoolNeverDeadlocks(threads: nat, run: seq<Action>, w: nat) returns (a: Action)
    requires threads > 0 && Possible(Init(threads), run)
    requires var s := After(Init(threads), run); w < |s.works| && !s.works[w].status.Done?
    ensures Internal(a) && Enabled(After(Init(threads), run), a)
  {
    InitInv(threads);
    RunInv(Init(threads), run);
    WorkersStay(Init(threads), run);
    a := NeverStuck(After(Init(threads), run), w);
  }

  lemma {:induction false} WorkersStay(s: Pool, run: seq<Action>)
    requires Possible(s, run)
    ensures |After(s, run).pcs| == |s.pcs|
    decreases |run|
  {
    if run != [] { WorkersStay(Step(s, run[0]), run[1..]); }
  }

  // ---------------------------------------------------------------- and no livelock

  function PriorLength(works: seq<Work>, w: nat): nat { if w < |works| then |works[w].prior| else 0 }

  function PcLeft(works: seq<Work>, pc: Pc): nat {
    match pc
    case Exec(w, next) => (if next <= PriorLength(works, w) then PriorLength(works, w) - next else 0) + 2
    case Release(_) => 1
    case _ => 0
  }

  function PcsLeft(works: seq<Work>, pcs: seq<Pc>): nat {
    if pcs == [] then 0 else PcsLeft(works, pcs[..|pcs| - 1]) + PcLeft(works, pcs[|pcs| - 1])
  }

  function QueueLeft(works: seq<Work>, queue: seq<nat>): nat {
    if queue == [] then 0 else PriorLength(works, queue[0]) + 3 + QueueLeft(works, queue[1..])
  }

  /** How many steps of its own the pool has left. */
  function StepsLeft(s: Pool): nat { QueueLeft(s.works, s.queue) + PcsLeft(s.works, s.pcs) }

  ghost predicate SamePriors(a: seq<Work>, b: seq<Work>) { |a| == |b| && forall w :: 0 <= w < |a| ==> a[w].prior == b[w].prior }

  lemma {:induction false} QueueLeftSame(a: seq<Work>, b: seq<Work>, queue: seq<nat>)
    requires SamePriors(a, b)
    ensures QueueLeft(a, queue) == QueueLeft(b, queue)
  {
    if queue != [] { QueueLeftSame(a, b, queue[1..]); }
  }

  lemma {:induction false} PcsLeftUpdate(a: seq<Work>, b: seq<Work>, pcs: seq<Pc>, k: nat, pc: Pc)
    requires SamePriors(a, b) && k < |pcs|
    ensures PcsLeft(b, pcs[k := pc]) == PcsLeft(a, pcs) - PcLeft(a, pcs[k]) + PcLeft(a, pc)
    ensures PcsLeft(a, pcs) >= PcLeft(a, pcs[k])
  {
    var n := |pcs| - 1;
    var front := pcs[..n];
    var pcs' := pcs[k := pc];
    if k < n {
      PcsLeftUpdate(a, b, front, k, pc);
      assert pcs'[..n] == front[k := pc];
    } else {
      assert pcs'[..n] == front;
      PcsLeftSame(a, b, front);
    }
  }

  lemma {:induction false} PcsLeftSame(a: seq<Work>, b: seq<Work>, pcs: seq<Pc>)
    requires SamePriors(a, b)
    ensures PcsLeft(a, pcs) == PcsLeft(b, pcs)
  {
    if pcs != [] { PcsLeftSame(a, b, pcs[..|pcs| - 1]); }
  }

  /** Every step of its own brings the pool nearer to rest. */
  lemma InternalStepsEnd(s: Pool, a: Action)
    requires Inv(s) && Enabled(s, a) && Internal(a)
    ensures StepsLeft(Step(s, a)) < StepsLeft(s)
  {
    hide Inv, PcsLeft, QueueLeft, Referenced;
    var s' := Step(s, a);
    QueueLeftSame(s.works, s'.works, s'.queue);
    PcsLeftUpdate(s.works, s'.works, s.pcs, a.k, s'.pcs[a.k]);
    if a.Dequeue? { QueueHead(s); }
  }

  lemma QueueHead(s: Pool)
    requires s.queue != []
    ensures QueueLeft(s.works, s.queue) == PriorLength(s.works, s.queue[0]) + 3 + QueueLeft(s.works, s.queue[1..])
  {
  }

  /** Left to itself the pool comes to rest within that many steps, and then all work is done. */
  lemma {:induction false} PoolComesToRest(s: Pool, run: seq<Action>)
    requires Inv(s) && 0 < |s.pcs| && Possible(s, run) && forall i :: 0 <= i < |run| ==> Internal(run[i])
    ensures |run| <= StepsLeft(s)
    ensures (forall a :: Internal(a) ==> !Enabled(After(s, run), a)) ==> forall w :: 0 <= w < |After(s, run).works| ==> IsDone(After(s, run).works, w)
    decreases |run|
  {
    hide Inv, Enabled, Step, StepsLeft;
    if run == [] {
      forall w: nat | w < |s.works| && !s.works[w].status.Done? ensures exists a :: Internal(a) && Enabled(s, a) {
        var a := NeverStuck(s, w);
      }
    } else {
      NextInv(s, run[0]);
      InternalStepsEnd(s, run[0]);
      StepKeepsWorkers(s, run[0]);
      PoolComesToRest(Step(s, run[0]), run[1..]);
    }
  }

  lemma StepKeepsWorkers(s: Pool, a: Action)
    requires Enabled(s, a)
    ensures |Step(s, a).pcs| == |s.pcs|
  {
  }

  /** When the destructor has joined every worker, no work was dropped: all of them finished. */
  lemma DestructorDropsNothing(threads: nat, run: seq<Action>, w: nat)
    requires Possible(Init(threads), run)
    requires var s := After(Init(threads), run); s.stop && (forall k :: 0 <= k < |s.pcs| ==> s.pcs[k].Exited?) && w < |s.works|
    ensures IsDone(After(Init(threads), run).works, w)
  {
    InitInv(threads);
    RunInv(Init(threads), run);
    var s := After(Init(threads), run);
    assert WorkOk(s, w);
  }
}
