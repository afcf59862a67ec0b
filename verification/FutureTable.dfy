/** The pending-request bookkeeping of the RPC agent. */
module FutureTable {

  /** `std::chrono::time_point::max()`: the deadline of a request that never times out. */
  const INFINITE: nat := 0x7FFF_FFFF_FFFF_FFFF

  /** `future` names the future object handed to the caller. */
  datatype FutureInfo = FutureInfo(future: nat, endTime: nat, dst: nat, timeout: nat)

  /** `futures_`, keyed by request id, and `futureTimeouts_`, keyed by deadline: each other's inverse. */
  datatype Table = Table(futures: map<nat, FutureInfo>, timeouts: map<nat, set<nat>>)

  /** The maps are mutually inverse and no deadline has an empty set. */
  ghost predicate InSync(t: Table) {
    && (forall id :: id in t.futures ==>
          t.futures[id].endTime in t.timeouts && id in t.timeouts[t.futures[id].endTime])
    && (forall d :: d in t.timeouts ==> t.timeouts[d] != {})
    && (forall d, id :: d in t.timeouts && id in t.timeouts[d] ==>
          id in t.futures && t.futures[id].endTime == d)
  }

  function IdsAt(timeouts: map<nat, set<nat>>, d: nat): set<nat> {
    if d in timeouts then timeouts[d] else {}
  }

  /** Registering a request. */
  function Insert(t: Table, id: nat, info: FutureInfo): Table {
    Table(t.futures[id := info], t.timeouts[info.endTime := IdsAt(t.timeouts, info.endTime) + {id}])
  }

  /** Forgetting one request; a deadline that becomes empty goes with it. */
  function Remove(t: Table, id: nat): Table
    requires id in t.futures
  {
    var d := t.futures[id].endTime;
    var left := IdsAt(t.timeouts, d) - {id};
    Table(t.futures - {id}, if left == {} then t.timeouts - {d} else t.timeouts[d := left])
  }

  /** Forgetting every request whose deadline is not after `now`. */
  function Expire(t: Table, now: nat): Table {
    Table(map id | id in t.futures && now < t.futures[id].endTime :: t.futures[id],
          map d | d in t.timeouts && now < d :: t.timeouts[d])
  }

  lemma InsertKeepsSync(t: Table, id: nat, info: FutureInfo)
    requires InSync(t) && id !in t.futures
    ensures InSync(Insert(t, id, info))
  {
  }

  /** The watchdog is told when the new deadline is first and alone: that is, when it precedes every
      deadline already on record. */
  lemma NotifyMeaning(t: Table, id: nat, info: FutureInfo)
    requires InSync(t) && id !in t.futures
    ensures var after := Insert(t, id, info).timeouts;
            && info.endTime in after
            && ((MinKey(after.Keys) == info.endTime && |after[info.endTime]| == 1)
                <==> forall d :: d in t.timeouts ==> info.endTime < d)
  {
    var e, after := info.endTime, Insert(t, id, info).timeouts;
    assert after.Keys == t.timeouts.Keys + {e};
    if e in t.timeouts {
      assert |t.timeouts[e]| > 0;
      assert id !in t.timeouts[e];
      assert after[e] - {id} == t.timeouts[e];
    } else {
      assert after[e] == {id};
    }
  }

  lemma RemoveKeepsSync(t: Table, id: nat)
    requires InSync(t) && id in t.futures
    ensures InSync(Remove(t, id))
    ensures forall d :: d in Remove(t, id).timeouts ==> d in t.timeouts
  {
  }

  lemma ExpireKeepsSync(t: Table, now: nat)
    requires InSync(t)
    ensures InSync(Expire(t, now))
  {
  }

  /** `join` waits for both maps to be empty; in sync, either one decides it. */
  lemma EmptyTogether(t: Table)
    requires InSync(t)
    ensures t.futures == map[] <==> t.timeouts == map[]
  {
    if t.timeouts != map[] {
      var d :| d in t.timeouts;
      var id :| id in t.timeouts[d];
      assert id in t.futures;
    }
    if t.futures != map[] {
      var id :| id in t.futures;
      assert t.futures[id].endTime in t.timeouts;
    }
  }

  ghost predicate IsLeast(s: set<nat>, m: nat) { m in s && forall y :: y in s ==> m <= y }

  lemma LeastOf(s: set<nat>) returns (m: nat)
    requires s != {}
    ensures IsLeast(s, m)
  {
    var x :| x in s;
    m := x;
    var rest := s - {x};
    if rest != {} {
      var k := LeastOf(rest);
      if k < x { m := k; }
    }
    forall y | y in s ensures m <= y {
      if y != x { assert y in rest; }
    }
  }

  lemma LeastExists(s: set<nat>)
    requires s != {}
    ensures exists m :: IsLeast(s, m)
  {
    var m := LeastOf(s);
  }

  /** `begin()->first` of an ordered map. */
  function MinKey(s: set<nat>): (m: nat)
    requires s != {}
    ensures m in s && forall y :: y in s ==> m <= y
  {
    LeastExists(s);
    var m :| m in s && forall y :: y in s ==> m <= y;
    m
  }
}

/** The agent object: every method below runs under `futureMutex_` or a counter's own mutex. */
module AgentObject {
  import opened Basics
  import opened FutureTable

  class ProcessGroupAgent {
    const worldSize: nat
    var nextId: nat
    var futures: map<nat, FutureInfo>
    var futureTimeouts: map<nat, set<nat>>
    var recvCounts: seq<nat>

    ghost function View(): Table
      reads this
    { Table(futures, futureTimeouts) }

    ghost predicate Valid()
      reads this
    {
      && InSync(View())
      && |recvCounts| == worldSize
      && (forall id :: id in futures ==> id <= nextId && futures[id].future == id && futures[id].dst < worldSize)
    }

    constructor (worldSize: nat)
      ensures Valid() && this.worldSize == worldSize
      ensures View() == Table(map[], map[]) && nextId == 0
      ensures recvCounts == seq(worldSize, _ => 0)
    {
      this.worldSize := worldSize;
      nextId := 0;
      futures, futureTimeouts := map[], map[];
      recvCounts := seq(worldSize, _ => 0);
    }

    /** The request half of `send`: a fresh id, an entry in both maps, and whether the watchdog must
        be told. It must be told exactly when the new deadline precedes every deadline on record. */
    method Register(dst: nat, now: nat, timeout: nat) returns (id: nat, notify: bool)
      requires Valid() && dst < worldSize
      modifies this`nextId, this`futures, this`futureTimeouts
      ensures Valid()
      ensures id == old(nextId) + 1 == nextId && id !in old(futures)
      ensures var endTime := if timeout == 0 then INFINITE else now + timeout;
              && View() == Insert(old(View()), id, FutureInfo(id, endTime, dst, timeout))
              && futures == old(futures)[id := FutureInfo(id, endTime, dst, timeout)]
              && (notify <==> forall d :: d in old(futureTimeouts) ==> endTime < d)
    {
      nextId := nextId + 1;
      id := nextId;
      var endTime := if timeout == 0 then INFINITE else now + timeout;
      var info := FutureInfo(id, endTime, dst, timeout);
      InsertKeepsSync(View(), id, info);
      NotifyMeaning(View(), id, info);
      futures := futures[id := info];
      var requestIds := IdsAt(futureTimeouts, endTime) + {id};
      futureTimeouts := futureTimeouts[endTime := requestIds];
      notify := MinKey(futureTimeouts.Keys) == endTime && |requestIds| == 1;
    }

    /** The critical section shared by `handleRecv` (response found) and `markFutureWithError`. The
        internal assertion of the source, that the id is listed under its deadline, holds. */
    method TakeFuture(id: nat) returns (taken: Option<FutureInfo>)
      requires Valid()
      modifies this`futures, this`futureTimeouts
      ensures Valid()
      ensures taken == if id in old(futures) then Some(old(futures)[id]) else None
      ensures View() == if taken.Some? then Remove(old(View()), id) else old(View())
      ensures futures == old(futures) - {id}
    {
      if id !in futures { return None; }
      RemoveKeepsSync(View(), id);
      taken := Some(futures[id]);
      var endTime := futures[id].endTime;
      futures := futures - {id};
      assert endTime in futureTimeouts && id in futureTimeouts[endTime];
      var atTime := IdsAt(futureTimeouts, endTime) - {id};
      if atTime == {} {
        futureTimeouts := futureTimeouts - {endTime};
      } else {
        futureTimeouts := futureTimeouts[endTime := atTime];
      }
    }

    /** `processTimedOutFutures`: walks the deadlines in order, reading the (monotone) clock before
        each. What is left is the table with everything due at the last reading forgotten, and each
        forgotten future is handed over exactly once. */
    method ProcessTimedOutFutures(start: nat) returns (timedOut: seq<FutureInfo>, now: nat)
      requires Valid()
      modifies this`futures, this`futureTimeouts
      ensures start <= now
      ensures View() == Expire(old(View()), now)
      ensures forall id :: id in futures <==> id in old(futures) && now < old(futures)[id].endTime
      ensures forall id :: id in futures ==> futures[id] == old(futures)[id]
      ensures Drained(old(futures), futures, timedOut)
      ensures Valid()
    {
      hide InSync, Expire, Leftover;
      timedOut, now := [], start;
      ghost var was := View();
      LeftoverAtFirst(was, now);
      while futureTimeouts != map[]
        invariant InSync(View()) && start <= now
        invariant Leftover(was, View(), now)
        invariant Drained(was.futures, futures, timedOut)
        decreases futureTimeouts.Keys
      {
        var reading :| now <= reading;
        LeftoverLater(was, View(), now, reading);
        now := reading;
        var endTime := MinKey(futureTimeouts.Keys);
        if now < endTime { break; }
        timedOut := DrainDeadline(was, endTime, now, timedOut);
      }
      LeftoverDone(was, View(), now);
      ExpireMeaning(was, now);
    }

    /** One round of the outer loop, for a deadline that has passed. */
    method DrainDeadline(ghost was: Table, endTime: nat, now: nat, out: seq<FutureInfo>)
      returns (timedOut: seq<FutureInfo>)
      requires InSync(was) && InSync(View()) && Leftover(was, View(), now) && Drained(was.futures, futures, out)
      requires endTime in futureTimeouts && endTime <= now
      requires forall id :: id in was.futures ==> was.futures[id].future == id
      modifies this`futures, this`futureTimeouts
      ensures InSync(View()) && Leftover(was, View(), now) && Drained(was.futures, futures, timedOut)
      ensures futureTimeouts == old(futureTimeouts) - {endTime}
    {
      LeftoverStep(was, View(), now, endTime);
      ghost var next := Table(futures - futureTimeouts[endTime], futureTimeouts - {endTime});
      var infos := DrainIds(futureTimeouts[endTime]);
      futureTimeouts := futureTimeouts - {endTime};
      assert View() == next;
      DrainedMore(was.futures, old(futures), futures, out, infos);
      timedOut := out + infos;
    }

    /** The inner loop: every id listed under the deadline is found (the internal assertion of the
        source) and moved to the result. */
    method DrainIds(ids: set<nat>) returns (infos: seq<FutureInfo>)
      requires ids <= futures.Keys
      requires forall id :: id in futures ==> futures[id].future == id
      modifies this`futures
      ensures futures == old(futures) - ids
      ensures Drained(old(futures), futures, infos)
    {
      infos := [];
      var left := ids;
      while left != {}
        invariant left <= ids
        invariant futures == old(futures) - (ids - left)
        invariant Drained(old(futures), futures, infos)
        decreases left
      {
        var id :| id in left;
        assert id in futures;
        infos := infos + [futures[id]];
        futures := futures - {id};
        left := left - {id};
      }
    }

    /** The loop of the watchdog over what timed out: every future without an error gets one, and one receive is
        booked for it. `failed` are the futures that have an error. */
    method CountTimedOut(timedOut: seq<FutureInfo>, failed: set<nat>) returns (nowFailed: set<nat>)
      requires |recvCounts| == worldSize && forall i :: 0 <= i < |timedOut| ==> timedOut[i].dst < worldSize
      requires forall i, j :: 0 <= i < j < |timedOut| ==> timedOut[i].future != timedOut[j].future
      modifies this`recvCounts
      ensures |recvCounts| == worldSize
      ensures forall d :: 0 <= d < worldSize ==>
                recvCounts[d] == old(recvCounts)[d] + |set i | 0 <= i < |timedOut| && timedOut[i].dst == d && timedOut[i].future !in failed|
      ensures nowFailed == failed + set info | info in timedOut :: info.future
    {
      hide To, Futures;
      NobodyYet(failed);
      nowFailed := failed;
      for i := 0 to |timedOut|
        invariant |recvCounts| == worldSize && nowFailed == failed + Futures(timedOut[..i])
        invariant forall d :: 0 <= d < worldSize ==> recvCounts[d] == old(recvCounts)[d] + To(timedOut[..i], failed, d)
      {
        OneMore(timedOut, i, failed);
        if timedOut[i].future !in nowFailed {
          nowFailed := nowFailed + {timedOut[i].future};
          var dst := timedOut[i].dst;
          recvCounts := recvCounts[dst := recvCounts[dst] + 1];
        }
      }
      assert timedOut[..|timedOut|] == timedOut;
      AllCounted(timedOut, failed);
    }
  }

  lemma NobodyYet(failed: set<nat>)
    ensures Futures([]) == {} && forall d :: To([], failed, d) == 0
  {
  }

  lemma OneMore(infos: seq<FutureInfo>, i: nat, failed: set<nat>)
    requires i < |infos| && forall k, j :: 0 <= k < j < |infos| ==> infos[k].future != infos[j].future
    ensures Futures(infos[..i + 1]) == Futures(infos[..i]) + {infos[i].future} && infos[i].future !in Futures(infos[..i])
    ensures forall d :: To(infos[..i + 1], failed, d)
                     == To(infos[..i], failed, d) + if infos[i].dst == d && infos[i].future !in failed then 1 else 0
  {
    assert infos[..i + 1] == infos[..i] + [infos[i]] && infos[..i + 1][..i] == infos[..i];
  }

  lemma AllCounted(infos: seq<FutureInfo>, failed: set<nat>)
    ensures forall d :: To(infos, failed, d) == |set i | 0 <= i < |infos| && infos[i].dst == d && infos[i].future !in failed|
    ensures Futures(infos) == set info | info in infos :: info.future
  {
    forall d ensures To(infos, failed, d) == |set i | 0 <= i < |infos| && infos[i].dst == d && infos[i].future !in failed| {
      ToCounts(infos, failed, d);
    }
  }

  /** `out` lists, without repetition, exactly the entries of `was` that `now` no longer has. */
  ghost predicate Drained(was: map<nat, FutureInfo>, now: map<nat, FutureInfo>, out: seq<FutureInfo>) {
    && (forall i :: 0 <= i < |out| ==> out[i].future in was && was[out[i].future] == out[i] && out[i].future !in now)
    && (forall id :: id in was && id !in now ==> was[id] in out)
    && (forall i, j :: 0 <= i < j < |out| ==> out[i].future != out[j].future)
  }

  lemma DrainedMore(was: map<nat, FutureInfo>, mid: map<nat, FutureInfo>, now: map<nat, FutureInfo>,
                    out: seq<FutureInfo>, more: seq<FutureInfo>)
    requires Drained(was, mid, out) && Drained(mid, now, more)
    requires now.Keys <= mid.Keys <= was.Keys && forall k :: k in mid ==> mid[k] == was[k]
    ensures Drained(was, now, out + more)
  {
  }

  /** `t` is `was` with some deadlines, none after `now`, taken out together with their requests. */
  ghost predicate Leftover(was: Table, t: Table, now: nat) {
    && (forall d :: d in t.timeouts ==> d in was.timeouts && t.timeouts[d] == was.timeouts[d])
    && (forall d :: d in was.timeouts && d !in t.timeouts ==> d <= now)
    && (forall id :: id in t.futures <==> id in was.futures && was.futures[id].endTime in t.timeouts)
    && (forall id :: id in t.futures ==> t.futures[id] == was.futures[id])
  }

  ghost function Dropped(t: Table, e: nat): Table
    requires e in t.timeouts
  {
    Table(t.futures - t.timeouts[e], t.timeouts - {e})
  }

  lemma DroppedSync(t: Table, e: nat)
    requires InSync(t) && e in t.timeouts
    ensures t.timeouts[e] <= t.futures.Keys && InSync(Dropped(t, e))
    ensures forall id :: id in t.futures ==> (t.futures[id].endTime == e <==> id in t.timeouts[e])
  {
    var t' := Dropped(t, e);
    forall d, k | d in t'.timeouts && k in t'.timeouts[d]
      ensures k in t'.futures && t'.futures[k].endTime == d
    {
      assert d in t.timeouts && k in t.timeouts[d];
      assert t.futures[k].endTime == d && k !in t.timeouts[e];
    }
  }

  lemma LeftoverAtFirst(t: Table, now: nat)
    requires InSync(t)
    ensures Leftover(t, t, now)
  {
  }

  lemma LeftoverLater(was: Table, t: Table, now: nat, later: nat)
    requires Leftover(was, t, now) && now <= later
    ensures Leftover(was, t, later)
  {
  }

  lemma LeftoverStep(was: Table, t: Table, now: nat, e: nat)
    requires InSync(was) && InSync(t) && Leftover(was, t, now) && e in t.timeouts && e <= now
    ensures t.timeouts[e] <= t.futures.Keys
    ensures InSync(Dropped(t, e)) && Leftover(was, Dropped(t, e), now)
  {
    hide InSync;
    DroppedSync(t, e);
  }

  lemma LeftoverDone(was: Table, t: Table, now: nat)
    requires InSync(was) && Leftover(was, t, now) && forall d :: d in t.timeouts ==> now < d
    ensures t == Expire(was, now)
  {
  }

  lemma ExpireMeaning(t: Table, now: nat)
    ensures var left := Expire(t, now).futures;
            && (forall id :: id in left <==> id in t.futures && now < t.futures[id].endTime)
            && (forall id :: id in left ==> left[id] == t.futures[id])
  {
  }

  /** How many entries without an error are addressed to `d`. */
  ghost function To(infos: seq<FutureInfo>, failed: set<nat>, d: nat): nat {
    if infos == [] then 0
    else
      var last := infos[|infos| - 1];
      To(infos[..|infos| - 1], failed, d) + (if last.dst == d && last.future !in failed then 1 else 0)
  }

  lemma {:induction false} ToCounts(infos: seq<FutureInfo>, failed: set<nat>, d: nat)
    ensures To(infos, failed, d) == |set i | 0 <= i < |infos| && infos[i].dst == d && infos[i].future !in failed|
  {
    if infos != [] {
      var front, n := infos[..|infos| - 1], |infos| - 1;
      ToCounts(front, failed, d);
      var here := set i | 0 <= i < |infos| && infos[i].dst == d && infos[i].future !in failed;
      var before := set i | 0 <= i < |front| && front[i].dst == d && front[i].future !in failed;
      if infos[n].dst == d && infos[n].future !in failed { assert here == before + {n}; } else { assert here == before; }
    }
  }

  ghost function Futures(infos: seq<FutureInfo>): set<nat> { set info | info in infos :: info.future }
}
