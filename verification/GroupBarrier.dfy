/** Creating groups through the store-based barrier. */
module GroupBarrier {
  import opened Codec
  import opened StoreKeys

  /** One call that creates a group. Every process makes the same calls in the same order, each ending in the
      barrier. Only the first, the default group, can be given a name. */
  datatype Creation = Creation(members: set<nat>, named: bool)

  datatype Phase = Outside | Entered(member: bool) | Waiting | Failed

  datatype Process = Process(done: nat, phase: Phase, groupCount: nat)

  datatype World = World(procs: seq<Process>, store: map<Bytes, int>)

  datatype Action =
    | Create(rank: nat)       // the helper: take a name, test for membership
    | CheckIn(rank: nat)      // add 1 to the key
    | Poll(rank: nat)         // add 0 to the key and compare
    | TimeOut(rank: nat)

  ghost predicate Script(script: seq<Creation>) { forall i :: 0 < i < |script| ==> !script[i].named }

  function At(store: map<Bytes, int>, key: Bytes): int { if key in store then store[key] else 0 }

  predicate Enabled(script: seq<Creation>, w: World, a: Action) {
    && a.rank < |w.procs|
    && var p := w.procs[a.rank];
    match a
    case Create(_) => p.phase.Outside? && p.done < |script|
    case CheckIn(_) => p.phase.Entered?
    case Poll(_) => p.phase.Waiting?
    case TimeOut(_) => p.phase.Waiting?
  }

  function Step(script: seq<Creation>, w: World, a: Action): World
    requires Enabled(script, w, a)
  {
    var p := w.procs[a.rank];
    var key := BarrierKey(p.groupCount);
    match a
    case Create(r) =>
      var c := script[p.done];
      // a process outside the group leaves the helper early, but after the count was taken
      w.(procs := w.procs[r := p.(phase := Entered(r in c.members), groupCount := if c.named then p.groupCount else p.groupCount + 1)])
    case CheckIn(r) => World(w.procs[r := p.(phase := Waiting)], w.store[key := At(w.store, key) + 1])
    case Poll(r) =>
      var count := At(w.store, key);
      World(if count != |w.procs| then w.procs else w.procs[r := p.(phase := Outside, done := p.done + 1)], w.store[key := count])
    case TimeOut(r) => w.(procs := w.procs[r := p.(phase := Failed)])
  }

  /** A fresh initialization over whatever the store holds: nothing yet, or what an earlier one left. */
  function Init(n: nat, store: map<Bytes, int>): World { World(seq(n, _ => Process(0, Outside, 0)), store) }

  // ---------------------------------------------------------------- the invariant

  /** The count in force during the i-th creation, on every process alike. */
  function CountAt(script: seq<Creation>, i: nat): nat
    requires i < |script|
  {
    if script[0].named then i else i + 1
  }

  function KeyAt(script: seq<Creation>, i: nat): Bytes
    requires i < |script|
  {
    BarrierKey(CountAt(script, i))
  }

  ghost predicate ProcOk(script: seq<Creation>, p: Process) {
    && p.done <= |script|
    && (p.phase.Outside? ==> p.groupCount == if p.done == 0 then 0 else CountAt(script, p.done - 1))
    && (!p.phase.Outside? ==> p.done < |script| && p.groupCount == CountAt(script, p.done))
  }

  /** The process has checked in for the i-th creation. */
  predicate CheckedIn(p: Process, i: nat) { p.done > i || (p.done == i && (p.phase.Waiting? || p.phase.Failed?)) }

  function Present(procs: seq<Process>, i: nat): (n: nat)
    ensures n <= |procs|
  {
    if procs == [] then 0 else Present(procs[..|procs| - 1], i) + if CheckedIn(procs[|procs| - 1], i) then 1 else 0
  }

  /** What the store held under the key of a creation when the initialization began. */
  function Carried(script: seq<Creation>, store: map<Bytes, int>, i: nat): int
    requires i < |script|
  {
    At(store, KeyAt(script, i))
  }

  /** The counter of a creation is what was there plus the number of processes that checked in; and whoever has
      left it has seen that come to the world size. */
  ghost predicate CounterOk(script: seq<Creation>, store: map<Bytes, int>, w: World, i: nat)
    requires i < |script|
  {
    var c, n := Carried(script, store, i), |w.procs|;
    && At(w.store, KeyAt(script, i)) == c + Present(w.procs, i)
    && (KeyAt(script, i) in w.store ==> KeyAt(script, i) in store || Present(w.procs, i) > 0)
    && forall r :: 0 <= r < n && w.procs[r].done > i ==> 0 <= c < n && n <= c + Present(w.procs, i)
  }

  ghost predicate Inv(script: seq<Creation>, store: map<Bytes, int>, w: World) {
    && (forall r :: 0 <= r < |w.procs| ==> ProcOk(script, w.procs[r]))
    && (forall i :: 0 <= i < |script| ==> CounterOk(script, store, w, i))
  }

  lemma {:induction false} PresentUpdate(procs: seq<Process>, r: nat, p: Process, i: nat)
    requires r < |procs|
    ensures Present(procs[r := p], i)
         == Present(procs, i) - (if CheckedIn(procs[r], i) then 1 else 0) + if CheckedIn(p, i) then 1 else 0
  {
    var n := |procs| - 1;
    if r < n {
      PresentUpdate(procs[..n], r, p, i);
      assert procs[r := p][..n] == procs[..n][r := p];
    } else {
      assert procs[r := p][..n] == procs[..n];
    }
  }

  lemma {:induction false} AllPresent(procs: seq<Process>, i: nat, r: nat)
    requires Present(procs, i) == |procs| && r < |procs|
    ensures CheckedIn(procs[r], i)
  {
    if r < |procs| - 1 { AllPresent(procs[..|procs| - 1], i, r); }
  }

  lemma {:induction false} SomePresent(procs: seq<Process>, i: nat, r: nat)
    requires r < |procs| && CheckedIn(procs[r], i)
    ensures Present(procs, i) > 0
  {
    if r < |procs| - 1 { SomePresent(procs[..|procs| - 1], i, r); }
  }

  lemma KeysDiffer(script: seq<Creation>, i: nat, j: nat)
    requires i < |script| && j < |script| && i != j
    ensures KeyAt(script, i) != KeyAt(script, j)
  {
    BarrierKeyInjective(CountAt(script, i), CountAt(script, j));
  }

  lemma InitInv(script: seq<Creation>, n: nat, store: map<Bytes, int>)
    ensures Inv(script, store, Init(n, store))
  {
    forall i | 0 <= i < |script| ensures CounterOk(script, store, Init(n, store), i) { PresentExtremes(Init(n, store).procs, i); }
  }

  lemma CreateInv(script: seq<Creation>, store: map<Bytes, int>, w: World, r: nat)
    requires Script(script) && Inv(script, store, w) && Enabled(script, w, Create(r))
    ensures Inv(script, store, Step(script, w, Create(r)))
  {
    hide Present, KeyAt, BarrierKey;
    var w' := Step(script, w, Create(r));
    assert ProcOk(script, w.procs[r]);
    forall i | 0 <= i < |script| ensures CounterOk(script, store, w', i) {
      assert CounterOk(script, store, w, i);
      PresentUpdate(w.procs, r, w'.procs[r], i);
    }
  }

  lemma CheckInInv(script: seq<Creation>, store: map<Bytes, int>, w: World, r: nat)
    requires Inv(script, store, w) && Enabled(script, w, CheckIn(r))
    ensures Inv(script, store, Step(script, w, CheckIn(r)))
  {
    hide Present, KeyAt, BarrierKey;
    var w' := Step(script, w, CheckIn(r));
    var d := w.procs[r].done;
    assert ProcOk(script, w.procs[r]);
    KeyIs(script, w.procs[r]);
    forall i | 0 <= i < |script| ensures CounterOk(script, store, w', i) {
      assert CounterOk(script, store, w, i);
      PresentUpdate(w.procs, r, w'.procs[r], i);
      if i != d { KeysDiffer(script, i, d); }
      if i == d { PresentBounded(w', i, r); }
    }
  }

  lemma PresentBounded(w: World, i: nat, r: nat)
    requires r < |w.procs| && CheckedIn(w.procs[r], i)
    ensures 0 < Present(w.procs, i) <= |w.procs|
  {
    SomePresent(w.procs, i, r);
  }

  lemma KeyIs(script: seq<Creation>, p: Process)
    requires ProcOk(script, p) && !p.phase.Outside?
    ensures BarrierKey(p.groupCount) == KeyAt(script, p.done)
  {
  }

  lemma PollInv(script: seq<Creation>, store: map<Bytes, int>, w: World, r: nat)
    requires Inv(script, store, w) && Enabled(script, w, Poll(r))
    ensures Inv(script, store, Step(script, w, Poll(r)))
  {
    hide Present, KeyAt, BarrierKey;
    var w' := Step(script, w, Poll(r));
    var d := w.procs[r].done;
    assert ProcOk(script, w.procs[r]);
    KeyIs(script, w.procs[r]);
    forall i | 0 <= i < |script| ensures CounterOk(script, store, w', i) {
      assert CounterOk(script, store, w, i);
      PresentUpdate(w.procs, r, w'.procs[r], i);
      if i != d { KeysDiffer(script, i, d); }
      if i == d { PresentBounded(w, i, r); }
    }
  }

  lemma TimeOutInv(script: seq<Creation>, store: map<Bytes, int>, w: World, r: nat)
    requires Inv(script, store, w) && Enabled(script, w, TimeOut(r))
    ensures Inv(script, store, Step(script, w, TimeOut(r)))
  {
    hide Present, KeyAt, BarrierKey;
    var w' := Step(script, w, TimeOut(r));
    assert ProcOk(script, w.procs[r]);
    forall i | 0 <= i < |script| ensures CounterOk(script, store, w', i) {
      assert CounterOk(script, store, w, i);
      PresentUpdate(w.procs, r, w'.procs[r], i);
    }
  }

  lemma NextInv(script: seq<Creation>, store: map<Bytes, int>, w: World, a: Action)
    requires Script(script) && Inv(script, store, w) && Enabled(script, w, a)
    ensures Inv(script, store, Step(script, w, a))
  {
    hide Inv, Step;
    match a
    case Create(r) => CreateInv(script, store, w, r);
    case CheckIn(r) => CheckInInv(script, store, w, r);
    case Poll(r) => PollInv(script, store, w, r);
    case TimeOut(r) => TimeOutInv(script, store, w, r);
  }

  // ---------------------------------------------------------------- whole runs

  ghost predicate Possible(script: seq<Creation>, w: World, run: seq<Action>)
    decreases |run|
  {
    run == [] || (Enabled(script, w, run[0]) && Possible(script, Step(script, w, run[0]), run[1..]))
  }

  ghost function After(script: seq<Creation>, w: World, run: seq<Action>): World
    requires Possible(script, w, run)
    decreases |run|
  {
    if run == [] then w else After(script, Step(script, w, run[0]), run[1..])
  }

  lemma {:induction false} RunInv(script: seq<Creation>, store: map<Bytes, int>, w: World, run: seq<Action>)
    requires Script(script) && Inv(script, store, w) && Possible(script, w, run)
    ensures Inv(script, store, After(script, w, run))
    decreases |run|
  {
    hide Inv, Enabled, Step;
    if run != [] {
      NextInv(script, store, w, run[0]);
      RunInv(script, store, Step(script, w, run[0]), run[1..]);
    }
  }

  ghost predicate Reachable(script: seq<Creation>, n: nat, store: map<Bytes, int>, w: World) {
    exists run :: Possible(script, Init(n, store), run) && After(script, Init(n, store), run) == w
  }

  lemma ReachableInv(script: seq<Creation>, n: nat, store: map<Bytes, int>, w: World)
    requires Script(script) && Reachable(script, n, store, w)
    ensures Inv(script, store, w) && |w.procs| == n
  {
    var run :| Possible(script, Init(n, store), run) && After(script, Init(n, store), run) == w;
    InitInv(script, n, store);
    RunInv(script, store, Init(n, store), run);
    NobodyLost(script, Init(n, store), run);
  }

  lemma {:induction false} NobodyLost(script: seq<Creation>, w: World, run: seq<Action>)
    requires Possible(script, w, run)
    ensures |After(script, w, run).procs| == |w.procs|
    decreases |run|
  {
    hide BarrierKey;
    if run != [] { NobodyLost(script, Step(script, w, run[0]), run[1..]); }
  }

  /** Whoever is in a creation has found out whether it is a member of the group. */
  ghost predicate KnowsItsPlace(script: seq<Creation>, w: World) {
    forall r :: 0 <= r < |w.procs| && w.procs[r].phase.Entered? ==>
      w.procs[r].done < |script| && (w.procs[r].phase.member <==> r in script[w.procs[r].done].members)
  }

  lemma {:induction false} MembershipIsTested(script: seq<Creation>, w: World, run: seq<Action>)
    requires KnowsItsPlace(script, w) && Possible(script, w, run)
    ensures KnowsItsPlace(script, After(script, w, run))
    decreases |run|
  {
    hide BarrierKey;
    if run != [] { MembershipIsTested(script, Step(script, w, run[0]), run[1..]); }
  }

  /** Members and others use one and the same key for a creation, and nobody ever uses it for another. */
  lemma OneKeyPerCreation(script: seq<Creation>, n: nat, store: map<Bytes, int>, w: World, r: nat, q: nat)
    requires Script(script) && Reachable(script, n, store, w)
    requires r < |w.procs| && q < |w.procs| && !w.procs[r].phase.Outside? && !w.procs[q].phase.Outside?
    ensures BarrierKey(w.procs[r].groupCount) == BarrierKey(w.procs[q].groupCount) <==> w.procs[r].done == w.procs[q].done
  {
    ReachableInv(script, n, store, w);
    assert ProcOk(script, w.procs[r]) && ProcOk(script, w.procs[q]);
    if w.procs[r].done != w.procs[q].done { KeysDiffer(script, w.procs[r].done, w.procs[q].done); }
  }

  /** In every reachable state the counter of a creation is what the store held at first plus the number of
      processes that have checked in. */
  lemma CounterLaw(script: seq<Creation>, n: nat, store: map<Bytes, int>, w: World, i: nat)
    requires Script(script) && Reachable(script, n, store, w) && i < |script|
    ensures At(w.store, KeyAt(script, i)) == Carried(script, store, i) + Present(w.procs, i)
  {
    ReachableInv(script, n, store, w);
    assert CounterOk(script, store, w, i);
  }

  /** Over a key that held nothing, no process leaves a creation before every process, member or not, has
      checked in for it. */
  lemma NobodyLeavesEarly(script: seq<Creation>, n: nat, store: map<Bytes, int>, w: World, i: nat, r: nat, q: nat)
    requires Script(script) && Reachable(script, n, store, w) && i < |script| && Carried(script, store, i) == 0
    requires r < |w.procs| && q < |w.procs| && w.procs[r].done > i
    ensures CheckedIn(w.procs[q], i)
  {
    ReachableInv(script, n, store, w);
    assert CounterOk(script, store, w, i);
    AllPresent(w.procs, i, q);
  }

  /** A key not in the store stays out of it until somebody checks in with it, and then its counter never passes
      the world size; so a poll compares unequal only while somebody is still missing. */
  lemma CounterNeverPassesWorldSize(script: seq<Creation>, n: nat, store: map<Bytes, int>, w: World, i: nat)
    requires Script(script) && Reachable(script, n, store, w) && i < |script| && KeyAt(script, i) !in store
    ensures 0 <= At(w.store, KeyAt(script, i)) <= |w.procs|
    ensures (forall r :: 0 <= r < |w.procs| ==> !CheckedIn(w.procs[r], i)) ==> KeyAt(script, i) !in w.store
    ensures At(w.store, KeyAt(script, i)) == |w.procs| <==> forall r :: 0 <= r < |w.procs| ==> CheckedIn(w.procs[r], i)
  {
    ReachableInv(script, n, store, w);
    assert CounterOk(script, store, w, i);
    PresentExtremes(w.procs, i);
    if Present(w.procs, i) == |w.procs| {
      forall r | 0 <= r < |w.procs| ensures CheckedIn(w.procs[r], i) { AllPresent(w.procs, i, r); }
    }
  }

  lemma {:induction false} PresentExtremes(procs: seq<Process>, i: nat)
    ensures (forall r :: 0 <= r < |procs| ==> !CheckedIn(procs[r], i)) ==> Present(procs, i) == 0
    ensures (forall r :: 0 <= r < |procs| ==> CheckedIn(procs[r], i)) ==> Present(procs, i) == |procs|
  {
    if procs != [] { PresentExtremes(procs[..|procs| - 1], i); }
  }
}
