/** What a TCP store promises to a client that waits. */
module TCPStoreWaits {
  import opened Basics
  import opened Codec
  import opened TCPStoreSpec
  import opened TCPStoreObject

  /** Socket `s` is owed the keys `m`, counted as often as it listed them: it stands that often in each
      key's list, and its counter is their total number. */
  ghost predicate Owed(t: Tables, s: nat, m: multiset<Bytes>) {
    Listed(t.waiting, s, m) && Awaited(t.awaited, s) == |m|
  }

  ghost predicate Listed(waiting: map<Bytes, seq<nat>>, s: nat, m: multiset<Bytes>) {
    forall key :: ListedAt(waiting, s, m, key)
  }

  ghost predicate ListedAt(waiting: map<Bytes, seq<nat>>, s: nat, m: multiset<Bytes>, key: Bytes) {
    multiset(Waiting(waiting, key))[s] == m[key]
  }

  /** How many STOP_WAITING a socket was sent. */
  ghost function Stops(output: seq<Message>, s: nat): nat { multiset(output)[Message(s, Stop)] }

  lemma OwedUnique(t: Tables, s: nat, m: multiset<Bytes>, m': multiset<Bytes>)
    requires Listed(t.waiting, s, m) && Listed(t.waiting, s, m')
    ensures m == m'
  {
    forall key ensures m[key] == m'[key] { assert ListedAt(t.waiting, s, m, key) && ListedAt(t.waiting, s, m', key); }
  }

  // ---------------------------------------------------------------- a write

  lemma SaidMore(output: seq<Message>, m: Message, s: nat)
    ensures Stops(output + [m], s) == Stops(output, s) + if m == Message(s, Stop) then 1 else 0
  {
  }

  /** Walking one key's list takes from a socket's counter as often as it stands there, and says STOP to
      it once, if that brings the counter to zero. */
  lemma {:induction false} WakeMeaning(socks: seq<nat>, awaited: map<nat, nat>, output: seq<Message>, s: nat)
    requires multiset(socks)[s] <= Awaited(awaited, s)
    ensures Awaited(Wake(socks, awaited, output).0, s) == Awaited(awaited, s) - multiset(socks)[s]
    ensures Stops(Wake(socks, awaited, output).1, s)
         == Stops(output, s) + if 0 < multiset(socks)[s] == Awaited(awaited, s) then 1 else 0
    decreases |socks|
  {
    hide Stops;
    if socks != [] {
      assert socks == [socks[0]] + socks[1..];
      var w := Woken(awaited, output, socks[0]);
      WakeMeaning(socks[1..], w.0, w.1, s);
      SaidMore(output, Message(socks[0], Stop), s);
    }
  }

  lemma OwedAfterWakeup(t: Tables, s: nat, m: multiset<Bytes>, key: Bytes)
    requires Owed(t, s, m)
    ensures Owed(Wakeup(t, key), s, m[key := 0])
    ensures Stops(Wakeup(t, key).output, s) == Stops(t.output, s) + if m != multiset{} && m[key := 0] == multiset{} then 1 else 0
  {
    hide Stops, Wake;
    assert ListedAt(t.waiting, s, m, key);
    var w, rest := t.waiting - {key}, m[key := 0];
    forall k ensures ListedAt(w, s, rest, k) { assert ListedAt(t.waiting, s, m, k); }
    if key in t.waiting {
      WakeMeaning(t.waiting[key], t.awaited, t.output, s);
    } else {
      assert w == t.waiting && rest == m;
    }
    assert |rest| == |m| - m[key];
    assert rest == multiset{} <==> |m| == m[key];
  }

  // ---------------------------------------------------------------- a wait

  lemma {:induction false} EnlistCounts(waiting: map<Bytes, seq<nat>>, keys: seq<Bytes>, who: nat, s: nat, key: Bytes)
    ensures multiset(Waiting(Enlist(waiting, keys, who), key))[s]
         == multiset(Waiting(waiting, key))[s] + if s == who then multiset(keys)[key] else 0
    decreases |keys|
  {
    if keys != [] {
      assert keys == [keys[0]] + keys[1..];
      EnlistCounts(waiting[keys[0] := Waiting(waiting, keys[0]) + [who]], keys[1..], who, s, key);
    }
  }

  lemma EnlistListed(waiting: map<Bytes, seq<nat>>, keys: seq<Bytes>, who: nat, s: nat, m: multiset<Bytes>)
    requires Listed(waiting, s, m)
    ensures Listed(Enlist(waiting, keys, who), s, if s == who then m + multiset(keys) else m)
  {
    var m' := if s == who then m + multiset(keys) else m;
    forall key ensures ListedAt(Enlist(waiting, keys, who), s, m', key) {
      EnlistCounts(waiting, keys, who, s, key);
      assert ListedAt(waiting, s, m, key);
    }
  }

  lemma OwedAfterWait(t: Tables, s: nat, m: multiset<Bytes>, who: nat, keys: seq<Bytes>)
    requires Owed(t, s, m) && (s == who && !Present(t.store, keys) ==> m == multiset{})
    ensures Owed(WaitOn(t, who, keys), s, if s == who && !Present(t.store, keys) then multiset(keys) else m)
    ensures Stops(WaitOn(t, who, keys).output, s) == Stops(t.output, s) + if s == who && Present(t.store, keys) then 1 else 0
  {
    hide Listed, Present;
    EnlistListed(t.waiting, keys, who, s, m);
    assert multiset{} + multiset(keys) == multiset(keys);
  }

  // ---------------------------------------------------------------- a closed connection

  lemma {:induction false} WithoutCounts(socks: seq<nat>, who: nat, s: nat)
    ensures multiset(Without(socks, who))[s] == if s == who then 0 else multiset(socks)[s]
  {
    if socks != [] {
      assert socks == [socks[0]] + socks[1..];
      WithoutCounts(socks[1..], who, s);
    }
  }

  lemma OwedAfterForget(t: Tables, s: nat, m: multiset<Bytes>, who: nat)
    requires Owed(t, s, m)
    ensures Owed(Forget(t, who), s, if s == who then multiset{} else m) && Forget(t, who).output == t.output
  {
    hide Without;
    var w, m' := Forget(t, who).waiting, if s == who then multiset{} else m;
    forall key ensures ListedAt(w, s, m', key) {
      WithoutCounts(Waiting(t.waiting, key), who, s);
      assert ListedAt(t.waiting, s, m, key);
    }
  }

  // ---------------------------------------------------------------- any query

  /** The query stores something under the key. */
  predicate Writes(t: Tables, who: nat, q: Query, key: Bytes) {
    (q.Set? || q.Add?) && q.key == key && !Fails(t, who, q)
  }

  /** The query is a WAIT that has to wait. */
  predicate Waits(t: Tables, q: Query) { q.Wait? && !Present(t.store, q.keys) }

  /** What a socket is owed after somebody's query. */
  ghost function OwedNext(t: Tables, s: nat, m: multiset<Bytes>, who: nat, q: Query): multiset<Bytes> {
    if Fails(t, who, q) then if s == who then multiset{} else m
    else if q.Set? || q.Add? then m[q.key := 0]
    else if s == who && Waits(t, q) then multiset(q.keys)
    else m
  }

  /** Whether the query makes the daemon say STOP_WAITING to the socket. */
  ghost predicate Releases(t: Tables, s: nat, m: multiset<Bytes>, who: nat, q: Query) {
    if q.Wait? then s == who && Present(t.store, q.keys)
    else m != multiset{} && exists key :: Writes(t, who, q, key) && m[key := 0] == multiset{}
  }

  lemma OwedAfterSay(t: Tables, s: nat, m: multiset<Bytes>, store: map<Bytes, Bytes>, msg: Message)
    requires Owed(t, s, m) && msg.reply != Stop
    ensures Owed(t.(store := store, output := t.output + [msg]), s, m)
    ensures Stops(t.output + [msg], s) == Stops(t.output, s)
  {
  }

  lemma OwedAfterStore(t: Tables, s: nat, m: multiset<Bytes>, store: map<Bytes, Bytes>)
    requires Owed(t, s, m)
    ensures Owed(t.(store := store), s, m)
  {
  }

  /** One query of anybody's, as it concerns socket `s`. Only a WAIT of its own, sent while it is still
      owed something, could upset its books. */
  lemma OwedAfterServe(t: Tables, s: nat, m: multiset<Bytes>, who: nat, q: Query)
    requires Owed(t, s, m) && (s == who && Waits(t, q) ==> m == multiset{})
    ensures Owed(Serve(t, who, q), s, OwedNext(t, s, m, who, q))
    ensures Stops(Serve(t, who, q).output, s) == Stops(t.output, s) + if Releases(t, s, m, who, q) then 1 else 0
  {
    hide Owed, Stops, Forget, Wakeup, Present, WaitOn, ToString, Total;
    if Fails(t, who, q) {
      OwedAfterForget(t, s, m, who);
    } else if q.Set? {
      var t' := t.(store := t.store[q.key := q.value]);
      OwedAfterStore(t, s, m, t'.store);
      OwedAfterWakeup(t', s, m, q.key);
      assert Writes(t, who, q, q.key);
    } else if q.Add? {
      var total := Total(t.store, q.key, q.delta).value;
      var t' := Say(t.(store := t.store[q.key := ToString(total)]), who, Number(total));
      OwedAfterSay(t, s, m, t'.store, Message(who, Number(total)));
      OwedAfterWakeup(t', s, m, q.key);
      assert Writes(t, who, q, q.key);
    } else if q.Wait? {
      OwedAfterWait(t, s, m, who, q.keys);
    } else {
      var t' := Serve(t, who, q);
      OwedAfterSay(t, s, m, t'.store, t'.output[|t.output|]);
    }
  }

  // ---------------------------------------------------------------- whole runs

  datatype Call = Call(who: nat, q: Query)

  function ServeAll(t: Tables, run: seq<Call>): Tables
    decreases |run|
  {
    if run == [] then t else ServeAll(Serve(t, run[0].who, run[0].q), run[1..])
  }

  /** The keys a run stores something under. */
  ghost function Written(t: Tables, run: seq<Call>): iset<Bytes>
    decreases |run|
  {
    if run == [] then iset{}
    else (iset key | Writes(t, run[0].who, run[0].q, key)) + Written(Serve(t, run[0].who, run[0].q), run[1..])
  }

  ghost predicate Silent(run: seq<Call>, s: nat) { forall c :: c in run ==> c.who != s }

  ghost predicate Covers(written: iset<Bytes>, m: multiset<Bytes>) { forall key :: key in m ==> key in written }

  /** While a socket says nothing it goes on being owed exactly the keys not written since, and it is
      released once, when the last of them is. */
  lemma {:induction false} OwedWhileSilent(t: Tables, s: nat, m: multiset<Bytes>, run: seq<Call>) returns (m': multiset<Bytes>)
    requires Owed(t, s, m) && Silent(run, s)
    ensures Owed(ServeAll(t, run), s, m')
    ensures forall key :: m'[key] == if key in Written(t, run) then 0 else m[key]
    ensures Stops(ServeAll(t, run).output, s)
         == Stops(t.output, s) + if m != multiset{} && Covers(Written(t, run), m) then 1 else 0
    decreases |run|
  {
    hide Owed, Stops, Serve, Writes;
    if run == [] {
      m' := m;
      if m != multiset{} { var key :| key in m; }
    } else {
      var c, t1 := run[0], Serve(t, run[0].who, run[0].q);
      assert c in run;
      OwedAfterServe(t, s, m, c.who, c.q);
      var m1 := OwedNext(t, s, m, c.who, c.q);
      m' := OwedWhileSilent(t1, s, m1, run[1..]);
      FirstOfRun(t, s, m, run);
    }
  }

  lemma FirstOfRun(t: Tables, s: nat, m: multiset<Bytes>, run: seq<Call>)
    requires run != [] && run[0].who != s
    ensures var c := run[0];
            var m1 := OwedNext(t, s, m, c.who, c.q);
            var rest := Written(Serve(t, c.who, c.q), run[1..]);
            && (forall key :: m1[key] == if Writes(t, c.who, c.q, key) then 0 else m[key])
            && (Releases(t, s, m, c.who, c.q) <==> m != multiset{} && m1 == multiset{})
            && (Covers(Written(t, run), m) <==> Covers(rest, m1))
  {
  }

  /** The promise of WAIT: a client that asks while it is owed nothing, and then keeps quiet, is sent
      STOP_WAITING once if every key it named was there, or else has been written since; and otherwise not. A
      key that was there already has to be written again if another was missing. */
  lemma ReleasedExactlyWhenWritten(t: Tables, s: nat, keys: seq<Bytes>, run: seq<Call>)
    requires Owed(t, s, multiset{}) && Silent(run, s)
    ensures var t1 := Serve(t, s, Wait(keys));
            Stops(ServeAll(t1, run).output, s) - Stops(t.output, s)
            == if Present(t.store, keys) || forall i :: 0 <= i < |keys| ==> keys[i] in Written(t1, run) then 1 else 0
  {
    hide Owed, Stops, Serve, ServeAll, Written;
    var t1 := Serve(t, s, Wait(keys));
    OwedAfterServe(t, s, multiset{}, s, Wait(keys));
    WaitDoesNotFail(t, s, keys);
    var m := if Present(t.store, keys) then multiset{} else multiset(keys);
    var m' := OwedWhileSilent(t1, s, m, run);
    if !Present(t.store, keys) {
      assert keys[0] in m;
      if Covers(Written(t1, run), m) {
        forall i | 0 <= i < |keys| ensures keys[i] in Written(t1, run) { assert keys[i] in m; }
      }
    }
  }

  lemma WaitDoesNotFail(t: Tables, s: nat, keys: seq<Bytes>)
    ensures !Fails(t, s, Wait(keys))
  {
  }

  // ---------------------------------------------------------------- when the books balance

  /** Every socket's counter is the number of times it stands in the lists. */
  ghost predicate Balanced(t: Tables) { forall s :: BalancedAt(t, s) }

  ghost predicate BalancedAt(t: Tables, s: nat) { exists m :: Owed(t, s, m) }

  lemma StartBalanced()
    ensures Balanced(Tables(map[], map[], map[], []))
  {
    var t := Tables(map[], map[], map[], []);
    forall s ensures BalancedAt(t, s) {
      forall key ensures ListedAt(t.waiting, s, multiset{}, key) {}
      assert Owed(t, s, multiset{});
    }
  }

  /** A query unbalances them exactly if it is a WAIT that has to wait, from a socket that is still waiting:
      what a client that gave up on a time-out may send. */
  lemma BalancedIff(t: Tables, who: nat, q: Query)
    requires Balanced(t)
    ensures Balanced(Serve(t, who, q)) <==> !(Waits(t, q) && Awaited(t.awaited, who) != 0)
  {
    hide Owed, Serve, Waits;
    if Waits(t, q) && Awaited(t.awaited, who) != 0 {
      assert BalancedAt(t, who);
      var m :| Owed(t, who, m);
      SecondWaitUnbalances(t, who, q, m);
      assert !BalancedAt(Serve(t, who, q), who);
    } else {
      var t' := Serve(t, who, q);
      forall s ensures BalancedAt(t', s) {
        assert BalancedAt(t, s);
        var m :| Owed(t, s, m);
        if s == who { OwedNothing(t, s, m); }
        OwedAfterServe(t, s, m, who, q);
      }
    }
  }

  lemma OwedNothing(t: Tables, s: nat, m: multiset<Bytes>)
    requires Owed(t, s, m)
    ensures m == multiset{} <==> Awaited(t.awaited, s) == 0
  {
  }

  lemma SecondWaitUnbalances(t: Tables, s: nat, q: Query, m: multiset<Bytes>)
    requires Owed(t, s, m) && Waits(t, q) && Awaited(t.awaited, s) != 0
    ensures forall m' :: !Owed(Serve(t, s, q), s, m')
  {
    hide Listed;
    var t' := Serve(t, s, q);
    EnlistListed(t.waiting, q.keys, s, s, m);
    forall m' | Listed(t'.waiting, s, m') ensures Awaited(t'.awaited, s) != |m'| {
      OwedUnique(t', s, m', m + multiset(q.keys));
    }
  }

  /** With the books balanced, no counter is ever taken below zero: at every turn of the waking loop it is
      positive. */
  lemma CountersNeverWrap(t: Tables, key: Bytes, i: nat)
    requires Balanced(t) && key in t.waiting && i < |t.waiting[key]|
    ensures Awaited(Wake(t.waiting[key][..i], t.awaited, t.output).0, t.waiting[key][i]) > 0
  {
    var socks := t.waiting[key];
    var s := socks[i];
    assert BalancedAt(t, s);
    var m :| Owed(t, s, m);
    assert ListedAt(t.waiting, s, m, key);
    assert socks == socks[..i] + [s] + socks[i + 1..];
    assert multiset(socks) == multiset(socks[..i]) + multiset([s]) + multiset(socks[i + 1..]);
    assert m[key] <= |m| by { assert |m[key := 0]| == |m| - m[key]; }
    WakeMeaning(socks[..i], t.awaited, t.output, s);
  }

  /** A socket that waits for `b` while still waiting for `a` is released when `a` is written though `b` is
      missing, and the write of `b` takes its counter round to the largest `size_t`. */
  lemma SecondWaitIsReleasedEarly(a: Bytes, b: Bytes, v: Bytes)
    requires a != b
    ensures var t := Tables(map[], map[], map[], []);
            var early := ServeAll(t, [Call(0, Wait([a])), Call(0, Wait([b])), Call(1, Set(a, v))]);
            var late := Serve(early, 1, Set(b, v));
            && Stops(early.output, 0) == 1 && b !in early.store
            && Awaited(late.awaited, 0) == SIZE_T - 1
  {
    var t0 := Tables(map[], map[], map[], []);
    OneWaits(t0, a, 0);
    var t1 := Serve(t0, 0, Wait([a]));
    OneWaits(t1, b, 0);
    var t2 := Serve(t1, 0, Wait([b]));
    OneWoken(t2.(store := map[a := v]), a, 0);
    var t3 := Serve(t2, 1, Set(a, v));
    ThreeCalls(t0, Call(0, Wait([a])), Call(0, Wait([b])), Call(1, Set(a, v)));
    OneWoken(t3.(store := t3.store[b := v]), b, 0);
  }

  lemma ThreeCalls(t: Tables, x: Call, y: Call, z: Call)
    ensures ServeAll(t, [x, y, z]) == Serve(Serve(Serve(t, x.who, x.q), y.who, y.q), z.who, z.q)
  {
    hide Serve;
    assert [x, y, z][1..] == [y, z] && [y, z][1..] == [z] && [z][1..] == [];
    var t1 := Serve(t, x.who, x.q);
    var t2 := Serve(t1, y.who, y.q);
    assert ServeAll(t, [x, y, z]) == ServeAll(t1, [y, z]);
    assert ServeAll(t1, [y, z]) == ServeAll(t2, [z]);
    assert ServeAll(t2, [z]) == ServeAll(Serve(t2, z.who, z.q), []);
  }

  lemma OneWaits(t: Tables, key: Bytes, s: nat)
    requires key !in t.store
    ensures WaitOn(t, s, [key]) == t.(waiting := t.waiting[key := Waiting(t.waiting, key) + [s]], awaited := t.awaited[s := 1])
  {
    var keys := [key];
    assert !Present(t.store, keys) by { assert keys[0] == key; }
    assert keys[1..] == [];
    var w := t.waiting[key := Waiting(t.waiting, key) + [s]];
    assert Enlist(w, [], s) == w;
  }

  lemma OneWoken(t: Tables, key: Bytes, s: nat)
    requires key in t.waiting && t.waiting[key] == [s]
    ensures Wakeup(t, key).awaited == t.awaited[s := Dec(Awaited(t.awaited, s))]
    ensures Wakeup(t, key).waiting == t.waiting - {key} && Wakeup(t, key).store == t.store
    ensures Wakeup(t, key).output == t.output + if Awaited(t.awaited, s) == 1 then [Message(s, Stop)] else []
  {
    assert [s][1..] == [];
    var w := Woken(t.awaited, t.output, s);
    assert Wake([], w.0, w.1) == w;
  }

  // ---------------------------------------------------------------- the sweep is a run

  function ReadyCalls(fds: seq<PollFd>, inbox: map<nat, Query>): seq<Call> {
    if fds == [] then []
    else (if fds[0].ready then [Call(fds[0].fd, Inbox(inbox, fds[0].fd))] else []) + ReadyCalls(fds[1..], inbox)
  }

  /** Erasing from the poll set while walking it skips nobody and serves nobody twice. */
  lemma {:induction false} SweepIsARun(t: Tables, fds: seq<PollFd>, inbox: map<nat, Query>)
    ensures Sweep(t, fds, inbox).0 == ServeAll(t, ReadyCalls(fds, inbox))
    decreases |fds|
  {
    hide Serve;
    if fds != [] {
      if fds[0].ready {
        var c := Call(fds[0].fd, Inbox(inbox, fds[0].fd));
        assert ReadyCalls(fds, inbox)[1..] == ReadyCalls(fds[1..], inbox);
        SweepIsARun(Serve(t, c.who, c.q), fds[1..], inbox);
      } else {
        assert ReadyCalls(fds, inbox) == ReadyCalls(fds[1..], inbox);
        SweepIsARun(t, fds[1..], inbox);
      }
    }
  }
}
