/** The store-based barrier over a store used before. */
module BarrierReuse {
  import opened Codec
  import opened StoreKeys
  import opened GroupBarrier

  // ---------------------------------------------------------------- building runs

  lemma {:induction false} OneMore(script: seq<Creation>, w: World, run: seq<Action>, a: Action)
    requires Possible(script, w, run) && Enabled(script, After(script, w, run), a)
    ensures Possible(script, w, run + [a]) && After(script, w, run + [a]) == Step(script, After(script, w, run), a)
    decreases |run|
  {
    hide Enabled, Step;
    if run == [] {
      assert [a][1..] == [] && [] + [a] == [a];
    } else {
      OneMore(script, Step(script, w, run[0]), run[1..], a);
      assert (run + [a])[1..] == run[1..] + [a];
    }
  }

  lemma ReachStep(script: seq<Creation>, n: nat, store: map<Bytes, int>, w: World, a: Action)
    requires Reachable(script, n, store, w) && Enabled(script, w, a)
    ensures Reachable(script, n, store, Step(script, w, a))
  {
    hide Enabled, Step;
    var run :| Possible(script, Init(n, store), run) && After(script, Init(n, store), run) == w;
    OneMore(script, Init(n, store), run, a);
  }

  lemma ReachStart(script: seq<Creation>, n: nat, store: map<Bytes, int>)
    ensures Reachable(script, n, store, Init(n, store))
  {
    assert Possible(script, Init(n, store), []) && After(script, Init(n, store), []) == Init(n, store);
  }

  ghost predicate Ready(p: Process, i: nat) { p.phase.Outside? && p.done == i }
  ghost predicate Waits(p: Process, i: nat) { p.phase.Waiting? && p.done == i }

  /** The first `k` processes wait in creation `i`; the others have not begun it. */
  ghost predicate InUpTo(w: World, k: nat, i: nat) {
    k <= |w.procs| && forall r :: 0 <= r < |w.procs| ==> if r < k then Waits(w.procs[r], i) else Ready(w.procs[r], i)
  }

  /** The first `k` processes have left creation `i`; the others wait in it. */
  ghost predicate OutUpTo(w: World, k: nat, i: nat) {
    k <= |w.procs| && forall r :: 0 <= r < |w.procs| ==> if r < k then Ready(w.procs[r], i + 1) else Waits(w.procs[r], i)
  }

  lemma {:induction false} PresentUpTo(procs: seq<Process>, k: nat, i: nat)
    requires k <= |procs| && forall r :: 0 <= r < |procs| ==> (CheckedIn(procs[r], i) <==> r < k)
    ensures Present(procs, i) == k
  {
    if procs != [] { PresentUpTo(procs[..|procs| - 1], if k == |procs| then k - 1 else k, i); }
  }

  /** Any number of processes can check in before the others begin. */
  lemma {:induction false} Enter(script: seq<Creation>, n: nat, store: map<Bytes, int>, w: World, k: nat, i: nat) returns (w': World)
    requires Script(script) && Reachable(script, n, store, w) && |w.procs| == n && InUpTo(w, 0, i) && i < |script| && k <= n
    ensures Reachable(script, n, store, w') && |w'.procs| == n && InUpTo(w', k, i) && Present(w'.procs, i) == k
  {
    hide Reachable, Present, BarrierKey;
    if k == 0 {
      w' := w;
    } else {
      var v := Enter(script, n, store, w, k - 1, i);
      ReachStep(script, n, store, v, Create(k - 1));
      var u := Step(script, v, Create(k - 1));
      ReachStep(script, n, store, u, CheckIn(k - 1));
      w' := Step(script, u, CheckIn(k - 1));
    }
    PresentUpTo(w'.procs, k, i);
  }

  /** The counter of the creation reads the world size, so a waiting process leaves. */
  lemma PollLeaves(script: seq<Creation>, n: nat, store: map<Bytes, int>, w: World, r: nat, i: nat)
    requires Script(script) && Reachable(script, n, store, w) && r < |w.procs| && i < |script| && Waits(w.procs[r], i)
    requires Carried(script, store, i) + Present(w.procs, i) == n
    ensures Enabled(script, w, Poll(r)) && Step(script, w, Poll(r)).procs == w.procs[r := w.procs[r].(phase := Outside, done := i + 1)]
    ensures Reachable(script, n, store, Step(script, w, Poll(r)))
  {
    hide Reachable, Present, BarrierKey, KeyAt;
    ReachableInv(script, n, store, w);
    assert ProcOk(script, w.procs[r]);
    KeyIs(script, w.procs[r]);
    CounterLaw(script, n, store, w, i);
    ReachStep(script, n, store, w, Poll(r));
  }

  /** Once all have checked in over a clean key, they can leave one after the other. */
  lemma {:induction false} Leave(script: seq<Creation>, n: nat, store: map<Bytes, int>, w: World, k: nat, i: nat) returns (w': World)
    requires Script(script) && Reachable(script, n, store, w) && |w.procs| == n && InUpTo(w, n, i) && i < |script| && k <= n
    requires Carried(script, store, i) == 0
    ensures Reachable(script, n, store, w') && |w'.procs| == n && OutUpTo(w', k, i)
  {
    hide Reachable, Present, BarrierKey;
    if k == 0 {
      w' := w;
    } else {
      var v := Leave(script, n, store, w, k - 1, i);
      PresentExtremes(v.procs, i);
      PollLeaves(script, n, store, v, k - 1, i);
      w' := Step(script, v, Poll(k - 1));
    }
  }

  /** The keys of all creations before this one held nothing. */
  ghost predicate CleanBefore(script: seq<Creation>, store: map<Bytes, int>, i: nat)
    requires i <= |script|
  {
    forall j :: 0 <= j < i ==> Carried(script, store, j) == 0
  }

  /** Then everybody can get there. */
  lemma {:induction false} GetTo(script: seq<Creation>, n: nat, store: map<Bytes, int>, i: nat) returns (w: World)
    requires Script(script) && i <= |script| && CleanBefore(script, store, i)
    ensures Reachable(script, n, store, w) && |w.procs| == n && InUpTo(w, 0, i)
  {
    hide Reachable, Carried;
    if i == 0 {
      ReachStart(script, n, store);
      w := Init(n, store);
    } else {
      var v := GetTo(script, n, store, i - 1);
      var u := Enter(script, n, store, v, n, i - 1);
      w := Leave(script, n, store, u, n, i - 1);
    }
  }

  // ---------------------------------------------------------------- who can leave

  ghost predicate SomebodyLeft(w: World, i: nat) { exists r :: 0 <= r < |w.procs| && w.procs[r].done > i }

  /** With nothing carried over before it, a creation can be left at all exactly if what its key held is not
      negative and below the world size. */
  lemma SomebodyLeavesIff(script: seq<Creation>, n: nat, store: map<Bytes, int>, i: nat)
    requires Script(script) && i < |script| && n > 0 && CleanBefore(script, store, i)
    ensures (exists w :: Reachable(script, n, store, w) && SomebodyLeft(w, i)) <==> 0 <= Carried(script, store, i) < n
  {
    hide Reachable, Carried;
    if 0 <= Carried(script, store, i) < n {
      var w := LeaveWith(script, n, store, i);
      assert SomebodyLeft(w, i);
    }
    forall w | Reachable(script, n, store, w) && SomebodyLeft(w, i) ensures 0 <= Carried(script, store, i) < n {
      LeftMeans(script, n, store, w, i);
    }
  }

  lemma LeftMeans(script: seq<Creation>, n: nat, store: map<Bytes, int>, w: World, i: nat)
    requires Script(script) && i < |script| && Reachable(script, n, store, w) && SomebodyLeft(w, i)
    ensures 0 <= Carried(script, store, i) < n <= Carried(script, store, i) + Present(w.procs, i)
  {
    ReachableInv(script, n, store, w);
    assert CounterOk(script, store, w, i);
  }

  /** The first process leaves as soon as those checked in make up the world size with what was carried over. */
  lemma LeaveWith(script: seq<Creation>, n: nat, store: map<Bytes, int>, i: nat) returns (w: World)
    requires Script(script) && i < |script| && CleanBefore(script, store, i) && 0 <= Carried(script, store, i) < n
    ensures Reachable(script, n, store, w) && |w.procs| == n && w.procs[0].done > i
    ensures Carried(script, store, i) > 0 ==> !CheckedIn(w.procs[n - 1], i)
  {
    hide Reachable, Carried, Present, BarrierKey;
    var k := n - Carried(script, store, i);
    var v := GetTo(script, n, store, i);
    var u := Enter(script, n, store, v, k, i);
    PollLeaves(script, n, store, u, 0, i);
    w := Step(script, u, Poll(0));
  }

  // ---------------------------------------------------------------- leaving early

  ghost predicate LeftEarly(w: World, i: nat) {
    SomebodyLeft(w, i) && exists q :: 0 <= q < |w.procs| && !CheckedIn(w.procs[q], i)
  }

  /** What is left of a check-in by some, but not all, in an earlier initialization. */
  ghost predicate PartlyUsed(script: seq<Creation>, n: nat, store: map<Bytes, int>, i: nat)
    requires i < |script|
  {
    0 < Carried(script, store, i) < n
  }

  lemma EarlyMeansPartlyUsed(script: seq<Creation>, n: nat, store: map<Bytes, int>, w: World, i: nat) returns (j: nat)
    requires Script(script) && i < |script| && Reachable(script, n, store, w) && LeftEarly(w, i)
    ensures j < |script| && CleanBefore(script, store, j) && PartlyUsed(script, n, store, j)
  {
    hide Reachable, Carried;
    var q :| 0 <= q < |w.procs| && !CheckedIn(w.procs[q], i);
    ReachableInv(script, n, store, w);
    LeftMeans(script, n, store, w, i);
    if Carried(script, store, i) == 0 { AllPresent(w.procs, i, q); }
    j := FirstUsed(script, store, i);
    assert SomebodyLeft(w, j);
    LeftMeans(script, n, store, w, j);
  }

  lemma {:induction false} FirstUsed(script: seq<Creation>, store: map<Bytes, int>, i: nat) returns (j: nat)
    requires i < |script| && Carried(script, store, i) != 0
    ensures j <= i && CleanBefore(script, store, j) && Carried(script, store, j) != 0
  {
    j := i;
    if k: nat :| k < i && Carried(script, store, k) != 0 { j := FirstUsed(script, store, k); }
  }

  /** In no run does anybody leave any creation before all have checked in, if and only if the first creation whose
      key was used at all was not partly used. */
  lemma NobodyLeavesEarlyIff(script: seq<Creation>, n: nat, store: map<Bytes, int>)
    requires Script(script)
    ensures (forall w, i: nat :: Reachable(script, n, store, w) && i < |script| ==> !LeftEarly(w, i))
       <==> forall i: nat :: i < |script| && CleanBefore(script, store, i) ==> !PartlyUsed(script, n, store, i)
  {
    hide Reachable, Carried, CleanBefore;
    forall w, i: nat | Reachable(script, n, store, w) && i < |script| && LeftEarly(w, i)
      ensures exists j: nat :: j < |script| && CleanBefore(script, store, j) && PartlyUsed(script, n, store, j)
    {
      var j := EarlyMeansPartlyUsed(script, n, store, w, i);
    }
    forall i: nat | i < |script| && CleanBefore(script, store, i) && PartlyUsed(script, n, store, i)
      ensures exists w :: Reachable(script, n, store, w) && LeftEarly(w, i)
    {
      var w := LeaveWith(script, n, store, i);
      assert SomebodyLeft(w, i);
    }
  }

  // ---------------------------------------------------------------- being left behind

  ghost predicate AllIn(w: World, i: nat) { forall r :: 0 <= r < |w.procs| ==> CheckedIn(w.procs[r], i) }

  /** The process is in creation `i`, and so is or was everybody else. */
  ghost predicate Held(w: World, r: nat, i: nat) {
    r < |w.procs| && w.procs[r].done == i && (w.procs[r].phase.Waiting? || w.procs[r].phase.Failed?) && AllIn(w, i)
  }

  lemma HeldStep(script: seq<Creation>, store: map<Bytes, int>, w: World, a: Action, r: nat, i: nat)
    requires Script(script) && Inv(script, store, w) && Enabled(script, w, a) && i < |script| && Held(w, r, i) && Carried(script, store, i) != 0
    ensures Held(Step(script, w, a), r, i)
  {
    hide Present, BarrierKey, KeyAt, Carried;
    assert ProcOk(script, w.procs[r]);
    KeyIs(script, w.procs[r]);
    assert CounterOk(script, store, w, i);
    PresentExtremes(w.procs, i);
  }

  lemma {:induction false} HeldForever(script: seq<Creation>, store: map<Bytes, int>, w: World, run: seq<Action>, r: nat, i: nat)
    requires Script(script) && Inv(script, store, w) && Possible(script, w, run) && i < |script| && Held(w, r, i) && Carried(script, store, i) != 0
    ensures Held(After(script, w, run), r, i)
    decreases |run|
  {
    hide Inv, Enabled, Step, Held, Carried;
    if run != [] {
      HeldStep(script, store, w, run[0], r, i);
      NextInv(script, store, w, run[0]);
      HeldForever(script, store, Step(script, w, run[0]), run[1..], r, i);
    }
  }

  ghost predicate CanLeave(script: seq<Creation>, w: World, r: nat, i: nat) {
    exists run :: Possible(script, w, run) && r < |After(script, w, run).procs| && After(script, w, run).procs[r].done > i
  }

  /** Once all have checked in for a creation, a process that waits in it can leave if and only if its key held
      nothing at first; otherwise no continuation lets it. */
  lemma WaiterCanLeaveIff(script: seq<Creation>, n: nat, store: map<Bytes, int>, w: World, r: nat, i: nat)
    requires Script(script) && Reachable(script, n, store, w) && i < |script| && r < |w.procs| && Waits(w.procs[r], i) && AllIn(w, i)
    ensures CanLeave(script, w, r, i) <==> Carried(script, store, i) == 0
  {
    hide Reachable, Carried, Present;
    ReachableInv(script, n, store, w);
    if Carried(script, store, i) == 0 {
      PresentExtremes(w.procs, i);
      PollLeaves(script, n, store, w, r, i);
      JustOne(script, w, Poll(r));
    } else {
      forall run | Possible(script, w, run) ensures Held(After(script, w, run), r, i) { HeldForever(script, store, w, run, r, i); }
    }
  }

  lemma JustOne(script: seq<Creation>, w: World, a: Action)
    requires Enabled(script, w, a)
    ensures Possible(script, w, [a]) && After(script, w, [a]) == Step(script, w, a)
  {
    OneMore(script, w, [], a);
    assert [] + [a] == [a];
  }

  // ---------------------------------------------------------------- a second initialization

  /** An initialization can leave any count up to the world size under its first key. */
  lemma AnyCountIsLeft(script: seq<Creation>, n: nat, m: nat) returns (w: World)
    requires Script(script) && script != [] && m <= n
    ensures Reachable(script, n, map[], w) && Carried(script, w.store, 0) == m
  {
    hide Reachable, Present;
    var v := GetTo(script, n, map[], 0);
    w := Enter(script, n, map[], v, m, 0);
    CounterLaw(script, n, map[], w, 0);
  }

  /** What comes of initializing again over the store that any run has left. If nobody had checked in, the default
      group is created as at first. If all had, nobody ever gets past it. If some had, somebody can get past it
      while another has not checked in. */
  lemma SecondInitialization(script: seq<Creation>, n: nat, w: World)
    requires Script(script) && script != [] && n > 0 && Reachable(script, n, map[], w)
    ensures (forall v :: Reachable(script, n, w.store, v) ==> !SomebodyLeft(v, 0)) <==> Present(w.procs, 0) == n
    ensures (exists v :: Reachable(script, n, w.store, v) && LeftEarly(v, 0)) <==> 0 < Present(w.procs, 0) < n
  {
    hide Reachable, Present, KeyAt;
    ReachableInv(script, n, map[], w);
    CounterLaw(script, n, map[], w, 0);
    NothingCarried(script);
    assert CleanBefore(script, w.store, 0);
    SomebodyLeavesIff(script, n, w.store, 0);
    if 0 < Carried(script, w.store, 0) < n {
      var v := LeaveWith(script, n, w.store, 0);
      assert SomebodyLeft(v, 0);
      assert LeftEarly(v, 0);
    }
    forall v | Reachable(script, n, w.store, v) && LeftEarly(v, 0) ensures 0 < Carried(script, w.store, 0) < n {
      var j := EarlyMeansPartlyUsed(script, n, w.store, v, 0);
      LeftMeans(script, n, w.store, v, 0);
      NotClean(script, n, w.store, v);
    }
  }

  lemma NothingCarried(script: seq<Creation>)
    requires script != []
    ensures Carried(script, map[], 0) == 0
  {
  }

  lemma NotClean(script: seq<Creation>, n: nat, store: map<Bytes, int>, w: World)
    requires Script(script) && script != [] && Reachable(script, n, store, w) && LeftEarly(w, 0)
    ensures Carried(script, store, 0) != 0
  {
    var q :| 0 <= q < |w.procs| && !CheckedIn(w.procs[q], 0);
    if Carried(script, store, 0) == 0 {
      LeftMeans(script, n, store, w, 0);
      ReachableInv(script, n, store, w);
      AllPresent(w.procs, 0, q);
    }
  }

  const PAIR := [Creation({0, 1}, false)]

  /** A default group of two: rank 0 checks in and gives up. */
  const GAVE_UP := [Create(0), CheckIn(0), TimeOut(0)]

  /** Over what that leaves, rank 0 alone passes the barrier of the next attempt. */
  const ALONE := [Create(0), CheckIn(0), Poll(0)]

  lemma Three(script: seq<Creation>, w: World, a: Action, b: Action, c: Action)
    requires Enabled(script, w, a) && Enabled(script, Step(script, w, a), b) && Enabled(script, Step(script, Step(script, w, a), b), c)
    ensures Possible(script, w, [a, b, c])
    ensures After(script, w, [a, b, c]) == Step(script, Step(script, Step(script, w, a), b), c)
  {
    hide Enabled, Step;
    JustOne(script, w, a);
    OneMore(script, w, [a], b);
    assert [a] + [b] == [a, b];
    OneMore(script, w, [a, b], c);
    assert [a, b] + [c] == [a, b, c];
  }

  lemma AloneThroughTheBarrier()
    ensures Possible(PAIR, Init(2, map[]), GAVE_UP)
    ensures var first := After(PAIR, Init(2, map[]), GAVE_UP);
            && Possible(PAIR, Init(2, first.store), ALONE)
            && var second := After(PAIR, Init(2, first.store), ALONE);
            second.procs == [Process(1, Outside, 1), Process(0, Outside, 0)]
  {
    hide BarrierKey;
    Three(PAIR, Init(2, map[]), Create(0), CheckIn(0), TimeOut(0));
    var store := map[BarrierKey(1) := 1];
    assert After(PAIR, Init(2, map[]), GAVE_UP).store == store;
    Three(PAIR, Init(2, store), Create(0), CheckIn(0), Poll(0));
  }
}
