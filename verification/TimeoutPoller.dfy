/** The watchdog thread of the RPC agent and the condition variable it sleeps on. */
module TimeoutPoller {
  import opened FutureTable

  // Each step below is one critical section of `futureMutex_`, or the notification a sender issues after leaving it.
  // `notify_one` is lost when the watchdog is not blocked.

  /** `Awake`: about to enter its loop. `Blocked`: inside `wait`/`wait_until` with this `minEndTime`.
      `Woken`: notified, not yet holding the lock again. */
  datatype Watchdog = Awake | Blocked(target: nat) | Woken(target: nat) | Exited

  /** `owed` senders have registered a request, left the lock, and not yet notified. */
  datatype State = State(table: Table, dog: Watchdog, owed: nat, enabled: bool, now: nat)

  datatype Step =
    | Register(id: nat, info: FutureInfo)    // `send`, under the lock
    | Notify                                 // a sender that owes a notification issues it
    | Forget(id: nat)                        // a response or a local error removes a future
    | Disable                                // `shutdownImpl`, under the lock; owes a notification too
    | Tick(time: nat)                        // the clock advances
    | Enter                                  // the watchdog computes its target and blocks
    | Recheck                                // woken: it re-evaluates the predicate under the lock
    | Elapse                                 // `wait_until` returns at the deadline

  function MinDeadline(t: Table): nat {
    if t.timeouts.Keys == {} then INFINITE else MinKey(t.timeouts.Keys)
  }

  /** The predicate the watchdog waits with. */
  predicate ShouldUpdate(s: State, target: nat) { !s.enabled || MinDeadline(s.table) < target }

  predicate Enabled(s: State, a: Step) {
    match a
    case Register(id, info) => id !in s.table.futures && info.endTime <= INFINITE
    case Notify => s.owed > 0
    case Forget(id) => id in s.table.futures
    case Disable => true
    case Tick(time) => s.now <= time < INFINITE
    case Enter => s.dog == Awake
    case Recheck => s.dog.Woken?
    case Elapse => s.dog.Blocked? && s.dog.target != INFINITE && s.dog.target <= s.now
  }

  /** After the wait returns: go round the loop, or expire what is due and go round the loop. */
  function Returned(s: State, target: nat): State {
    if ShouldUpdate(s, target) then s.(dog := Awake)
    else s.(table := Expire(s.table, s.now), dog := Awake)
  }

  function Next(s: State, a: Step): State
    requires Enabled(s, a)
  {
    match a
    case Register(id, info) =>
      var t := Insert(s.table, id, info);
      var notify := MinDeadline(t) == info.endTime && |t.timeouts[info.endTime]| == 1;
      s.(table := t, owed := s.owed + if notify then 1 else 0)
    case Notify => s.(owed := s.owed - 1, dog := if s.dog.Blocked? then Woken(s.dog.target) else s.dog)
    case Forget(id) => s.(table := Remove(s.table, id))
    case Disable => s.(enabled := false, owed := s.owed + 1)
    case Tick(time) => s.(now := time)
    case Enter =>
      if !s.enabled then s.(dog := Exited) else s.(dog := Blocked(MinDeadline(s.table)))
    case Recheck =>
      if ShouldUpdate(s, s.dog.target) then s.(dog := Awake) else s.(dog := Blocked(s.dog.target))
    case Elapse => Returned(s, s.dog.target)
  }

  /** While the watchdog sleeps, either its target is no later than the first deadline and it is still
      wanted, or somebody is about to notify it. */
  ghost predicate NoLostWakeup(s: State) {
    && InSync(s.table)
    && (forall d :: d in s.table.timeouts ==> d <= INFINITE)
    && (s.dog.Blocked? ==> s.owed > 0 || (s.enabled && s.dog.target <= MinDeadline(s.table)))
  }

  lemma RegisterKeeps(s: State, id: nat, info: FutureInfo)
    requires NoLostWakeup(s) && Enabled(s, Register(id, info))
    ensures NoLostWakeup(Next(s, Register(id, info)))
  {
    InsertKeepsSync(s.table, id, info);
    NotifyMeaning(s.table, id, info);
    var t := Insert(s.table, id, info);
    assert t.timeouts.Keys == s.table.timeouts.Keys + {info.endTime};
  }

  lemma ForgetKeeps(s: State, id: nat)
    requires NoLostWakeup(s) && Enabled(s, Forget(id))
    ensures NoLostWakeup(Next(s, Forget(id)))
  {
  }

  /** Every step of every thread keeps it. */
  lemma NextKeeps(s: State, a: Step)
    requires NoLostWakeup(s) && Enabled(s, a)
    ensures NoLostWakeup(Next(s, a))
  {
    match a
    case Register(id, info) => RegisterKeeps(s, id, info);
    case Forget(id) => ForgetKeeps(s, id);
    case Elapse => ExpireKeepsSync(s.table, s.now);
    case _ =>
  }

  function Start(): State { State(Table(map[], map[]), Awake, 0, true, 0) }

  ghost predicate IsRun(states: seq<State>, steps: seq<Step>) {
    && |states| == |steps| + 1 && states[0] == Start()
    && forall t :: 0 <= t < |steps| ==> Enabled(states[t], steps[t]) && states[t + 1] == Next(states[t], steps[t])
  }

  lemma {:induction false} RunKeeps(states: seq<State>, steps: seq<Step>, t: nat)
    requires IsRun(states, steps) && t < |states|
    ensures NoLostWakeup(states[t])
  {
    if t > 0 {
      RunKeeps(states, steps, t - 1);
      NextKeeps(states[t - 1], steps[t - 1]);
    }
  }

  /** No deadline is slept past: in any run, once some request is overdue, either its future has been
      removed, or the watchdog is not asleep, or it is due to wake by the clock, or a notification is
      on its way to it. */
  lemma NoDeadlineSleptPast(states: seq<State>, steps: seq<Step>, t: nat, id: nat)
    requires IsRun(states, steps) && t < |states|
    requires id in states[t].table.futures && states[t].table.futures[id].endTime <= states[t].now
    ensures states[t].dog.Blocked? ==> states[t].owed > 0 || Enabled(states[t], Elapse)
  {
    RunKeeps(states, steps, t);
    NowFinite(states, steps, t);
    var s := states[t];
    assert s.table.futures[id].endTime in s.table.timeouts.Keys;
  }

  lemma {:induction false} NowFinite(states: seq<State>, steps: seq<Step>, t: nat)
    requires IsRun(states, steps) && t < |states|
    ensures states[t].now < INFINITE
  {
    if t > 0 { NowFinite(states, steps, t - 1); }
  }

  // ---------------------------------------------------------------- what each step does to the requests

  /** Nothing that is still pending is due before `target`. */
  ghost predicate NothingBefore(futures: map<nat, FutureInfo>, target: nat) {
    forall id :: id in futures ==> target <= futures[id].endTime
  }

  /** In sync, the first deadline is the least one of a pending request. */
  lemma MinDeadlineMeaning(t: Table)
    requires InSync(t) && forall d :: d in t.timeouts ==> d <= INFINITE
    ensures NothingBefore(t.futures, MinDeadline(t)) && MinDeadline(t) <= INFINITE
    ensures MinDeadline(t) == INFINITE || exists id :: id in t.futures && t.futures[id].endTime == MinDeadline(t)
  {
    if t.timeouts.Keys == {} {
      EmptyTogether(t);
      assert t.timeouts == map[];
    } else {
      var d := MinDeadline(t);
      var id: nat :| id in t.timeouts[d];
      assert id in t.futures && t.futures[id].endTime == d;
      forall i | i in t.futures ensures d <= t.futures[i].endTime { assert t.futures[i].endTime in t.timeouts.Keys; }
    }
  }

  lemma ShouldUpdateMeaning(s: State, target: nat)
    requires NoLostWakeup(s) && target <= INFINITE
    ensures ShouldUpdate(s, target) <==> !s.enabled || !NothingBefore(s.table.futures, target)
  {
    MinDeadlineMeaning(s.table);
  }

  /** When the sleep ends at its target with the watchdog still wanted and nothing due before that target, every
      request that is due is gone, and every other one is there with its old entry; otherwise none is touched. */
  lemma ElapseTimesOutExactlyTheDue(states: seq<State>, steps: seq<Step>, t: nat)
    requires IsRun(states, steps) && t < |steps| && steps[t] == Elapse
    ensures var s, s' := states[t], states[t + 1];
            && s'.now == s.now && s'.dog == Awake
            && (s.enabled && NothingBefore(s.table.futures, s.dog.target) ==>
                forall id :: id in s'.table.futures <==> id in s.table.futures && s.now < s.table.futures[id].endTime)
            && (forall id :: id in s'.table.futures ==> id in s.table.futures && s'.table.futures[id] == s.table.futures[id])
            && (!(s.enabled && NothingBefore(s.table.futures, s.dog.target)) ==> s'.table.futures == s.table.futures)
  {
    RunKeeps(states, steps, t);
    TargetFinite(states, steps, t);
    ShouldUpdateMeaning(states[t], states[t].dog.target);
  }

  lemma {:induction false} TargetFinite(states: seq<State>, steps: seq<Step>, t: nat)
    requires IsRun(states, steps) && t < |states|
    ensures TargetOk(states[t])
  {
    hide NoLostWakeup, Next, Enabled;
    if t > 0 {
      TargetFinite(states, steps, t - 1);
      RunKeeps(states, steps, t - 1);
      assert Enabled(states[t - 1], steps[t - 1]) && states[t] == Next(states[t - 1], steps[t - 1]);
      TargetStep(states[t - 1], steps[t - 1]);
    }
  }

  ghost predicate TargetOk(s: State) {
    (s.dog.Blocked? || s.dog.Woken? ==> s.dog.target <= INFINITE) && (s.dog.Exited? ==> !s.enabled)
  }

  lemma TargetStep(s: State, a: Step)
    requires NoLostWakeup(s) && TargetOk(s) && Enabled(s, a)
    ensures TargetOk(Next(s, a))
  {
    hide ShouldUpdate, Insert, Remove, Expire, MinDeadline, InSync;
    MinDeadlineMeaning(s.table);
  }

  /** Every other step: a registration adds its request, a removal drops one, nothing else touches them. A
      notification is owed exactly if the new request is due before all pending ones, and for a shut-down. */
  lemma OtherStepsOnRequests(states: seq<State>, steps: seq<Step>, t: nat)
    requires IsRun(states, steps) && t < |steps| && !steps[t].Elapse?
    ensures var s, s', a := states[t], states[t + 1], steps[t];
            && (a.Register? ==> s'.table.futures == s.table.futures[a.id := a.info])
            && (a.Forget? ==> s'.table.futures == s.table.futures - {a.id})
            && (!a.Register? && !a.Forget? ==> s'.table.futures == s.table.futures)
            && s'.enabled == (s.enabled && !a.Disable?)
            && s'.now == (if a.Tick? then a.time else s.now)
            && s'.owed == (if a.Notify? then s.owed - 1
                           else if a.Disable? || (a.Register? && forall id :: id in s.table.futures ==> a.info.endTime < s.table.futures[id].endTime) then s.owed + 1
                           else s.owed)
  {
    hide NoLostWakeup, ShouldUpdate;
    RunStep(states, steps, t);
    var s, a := states[t], steps[t];
    if a.Register? {
      NotifyMeaning(s.table, a.id, a.info);
      BeforeAll(s.table, a.info.endTime);
    }
  }

  lemma RunStep(states: seq<State>, steps: seq<Step>, t: nat)
    requires IsRun(states, steps) && t < |steps|
    ensures Enabled(states[t], steps[t]) && states[t + 1] == Next(states[t], steps[t]) && InSync(states[t].table)
  {
    RunKeeps(states, steps, t);
  }

  lemma BeforeAll(t: Table, e: nat)
    requires InSync(t)
    ensures (forall d :: d in t.timeouts ==> e < d) <==> forall id :: id in t.futures ==> e < t.futures[id].endTime
  {
    forall d | d in t.timeouts && (forall id :: id in t.futures ==> e < t.futures[id].endTime) ensures e < d {
      var id: nat :| id in t.timeouts[d];
      assert id in t.futures && t.futures[id].endTime == d;
    }
  }

  /** How long the watchdog sleeps: to the earliest pending deadline, for ever without one; it leaves when it
      is no longer wanted. Woken, it looks again exactly if it is not wanted or a request is due earlier. */
  lemma SleepsToTheFirstDeadline(states: seq<State>, steps: seq<Step>, t: nat)
    requires IsRun(states, steps) && t < |steps|
    ensures var s, s' := states[t], states[t + 1];
            && (steps[t].Enter? && !s.enabled ==> s'.dog == Exited)
            && (steps[t].Enter? && s.enabled ==>
                && s'.dog.Blocked? && s'.dog.target <= INFINITE && NothingBefore(s.table.futures, s'.dog.target)
                && (s'.dog.target < INFINITE ==> exists id :: id in s.table.futures && s.table.futures[id].endTime == s'.dog.target))
            && (steps[t].Recheck? ==>
                s.dog.Woken? && s'.dog == if s.enabled && NothingBefore(s.table.futures, s.dog.target) then Blocked(s.dog.target) else Awake)
            && (steps[t].Notify? && s.dog.Blocked? ==> s'.dog == Woken(s.dog.target))
  {
    hide MinDeadline, InSync;
    RunKeeps(states, steps, t);
    RunStep(states, steps, t);
    MinDeadlineMeaning(states[t].table);
    if steps[t].Recheck? {
      TargetFinite(states, steps, t);
      ShouldUpdateMeaning(states[t], states[t].dog.target);
    }
  }

  // ---------------------------------------------------------------- an overdue request does get timed out

  /** The watchdog's own steps, and the delivery of a notification to it. */
  predicate OfWatchdog(a: Step) { a.Notify? || a.Enter? || a.Recheck? || a.Elapse? }

  /** The steps can be taken one after the other from `s` and end in `s'`. */
  ghost predicate Leads(s: State, steps: seq<Step>, s': State)
    decreases |steps|
  {
    if steps == [] then s == s' else Enabled(s, steps[0]) && Leads(Next(s, steps[0]), steps[1..], s')
  }

  lemma LeadsFirst(s: State, a: Step, steps: seq<Step>, s': State)
    requires Enabled(s, a) && Leads(Next(s, a), steps, s')
    ensures Leads(s, [a] + steps, s')
  {
    assert ([a] + steps)[1..] == steps;
  }

  ghost predicate Overdue(s: State, id: nat) {
    s.now < INFINITE && s.enabled && id in s.table.futures && s.table.futures[id].endTime <= s.now
  }

  lemma SleeperExpires(s: State, id: nat) returns (s': State)
    requires NoLostWakeup(s) && Overdue(s, id) && s.dog.Blocked? && s.dog.target <= MinDeadline(s.table)
    ensures Leads(s, [Elapse], s') && id !in s'.table.futures
  {
    MinDeadlineMeaning(s.table);
    s' := Next(s, Elapse);
    assert [Elapse][1..] == [];
  }

  lemma AwakeExpires(s: State, id: nat) returns (s': State)
    requires NoLostWakeup(s) && Overdue(s, id) && s.dog == Awake
    ensures Leads(s, [Enter, Elapse], s') && id !in s'.table.futures
  {
    hide Leads, InSync;
    s' := SleeperExpires(Next(s, Enter), id);
    LeadsFirst(s, Enter, [Elapse], s');
    assert [Enter] + [Elapse] == [Enter, Elapse];
  }

  lemma WokenExpires(s: State, id: nat) returns (steps: seq<Step>, s': State)
    requires NoLostWakeup(s) && Overdue(s, id) && s.dog.Woken? && s.dog.target <= INFINITE
    ensures |steps| <= 3 && (forall i :: 0 <= i < |steps| ==> OfWatchdog(steps[i]))
    ensures Leads(s, steps, s') && id !in s'.table.futures
  {
    hide Leads, InSync, Overdue;
    var next := Next(s, Recheck);
    NextKeeps(s, Recheck);
    StillOverdue(s, Recheck, id);
    if next.dog == Awake {
      s' := AwakeExpires(next, id);
      steps := [Enter, Elapse];
    } else {
      s' := SleeperExpires(next, id);
      steps := [Elapse];
    }
    LeadsFirst(s, Recheck, steps, s');
    steps := [Recheck] + steps;
  }

  lemma StillOverdue(s: State, a: Step, id: nat)
    requires Overdue(s, id) && (a.Notify? || a.Enter? || a.Recheck?) && Enabled(s, a)
    ensures Overdue(Next(s, a), id)
  {
  }

  /** From every reachable state in which the watchdog is wanted, an overdue request is at most four of the
      watchdog's own steps from being timed out. */
  lemma OverdueGetsTimedOut(states: seq<State>, steps: seq<Step>, t: nat, id: nat) returns (own: seq<Step>, s': State)
    requires IsRun(states, steps) && t < |states| && states[t].enabled
    requires id in states[t].table.futures && states[t].table.futures[id].endTime <= states[t].now
    ensures |own| <= 4 && (forall i :: 0 <= i < |own| ==> OfWatchdog(own[i]))
    ensures Leads(states[t], own, s') && id !in s'.table.futures
  {
    hide Leads, InSync, IsRun;
    var s := states[t];
    RunKeeps(states, steps, t);
    NowFinite(states, steps, t);
    TargetFinite(states, steps, t);
    match s.dog
    case Awake =>
      s' := AwakeExpires(s, id);
      own := [Enter, Elapse];
    case Woken(_) =>
      own, s' := WokenExpires(s, id);
    case Blocked(target) =>
      if target <= MinDeadline(s.table) {
        s' := SleeperExpires(s, id);
        own := [Elapse];
      } else {
        NextKeeps(s, Notify);
        own, s' := WokenExpires(Next(s, Notify), id);
        LeadsFirst(s, Notify, own, s');
        own := [Notify] + own;
      }
  }
}
