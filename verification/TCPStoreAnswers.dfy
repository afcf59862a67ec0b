/** What the daemon of a TCP store answers, as a function of the run before it. */
module TCPStoreAnswers {
  import opened Basics
  import opened Codec
  import opened TCPStoreSpec
  import opened TCPStoreObject
  import opened TCPStoreWaits

  // A run is the list of queries in the order served, whichever sockets they come from; every run starts from the
  // empty store.

  function Empty(): Tables { Tables(map[], map[], map[], []) }

  /** The tables after a run from the start. */
  function At(run: seq<Call>): Tables { ServeAll(Empty(), run) }

  lemma {:induction false} ServeAllAppend(t: Tables, a: seq<Call>, b: seq<Call>)
    ensures ServeAll(t, a + b) == ServeAll(ServeAll(t, a), b)
    decreases |a|
  {
    hide Serve;
    if a == [] {
      assert a + b == b;
    } else {
      assert (a + b)[0] == a[0] && (a + b)[1..] == a[1..] + b;
      ServeAllAppend(Serve(t, a[0].who, a[0].q), a[1..], b);
    }
  }

  lemma ServeLast(t: Tables, run: seq<Call>, c: Call)
    ensures ServeAll(t, run + [c]) == Serve(ServeAll(t, run), c.who, c.q)
  {
    hide Serve;
    ServeAllAppend(t, run, [c]);
    var t1 := ServeAll(t, run);
    assert [c][1..] == [];
    assert ServeAll(Serve(t1, c.who, c.q), []) == Serve(t1, c.who, c.q);
  }

  // ---------------------------------------------------------------- one query

  predicate Touches(q: Query, key: Bytes) { (q.Set? || q.Add? || q.Delete?) && q.key == key }

  ghost predicate SameAt(a: map<Bytes, Bytes>, b: map<Bytes, Bytes>, key: Bytes) {
    (key in a <==> key in b) && (key in a && key in b ==> a[key] == b[key])
  }

  /** `now` is `was` and STOP_WAITING messages behind it. */
  ghost predicate OnlyStops(was: seq<Message>, now: seq<Message>) {
    was <= now && forall i :: |was| <= i < |now| ==> now[i].reply == Stop
  }

  lemma {:induction false} WakeOnlyStops(socks: seq<nat>, awaited: map<nat, nat>, output: seq<Message>)
    ensures OnlyStops(output, Wake(socks, awaited, output).1)
  {
    if socks != [] {
      var w := Woken(awaited, output, socks[0]);
      WakeOnlyStops(socks[1..], w.0, w.1);
    }
  }

  lemma WakeupOnlyStops(t: Tables, key: Bytes)
    ensures Wakeup(t, key).store == t.store && OnlyStops(t.output, Wakeup(t, key).output)
  {
    if key in t.waiting { WakeOnlyStops(t.waiting[key], t.awaited, t.output); }
  }

  /** The store after one query. */
  lemma StoreAfter(t: Tables, who: nat, q: Query)
    ensures var store := Serve(t, who, q).store;
            && store.Keys == (if q.Set? || q.Add? then t.store.Keys + {q.key} else if q.Delete? then t.store.Keys - {q.key} else t.store.Keys)
            && (q.Set? ==> store[q.key] == q.value)
            && (forall key :: !Touches(q, key) ==> SameAt(store, t.store, key))
  {
    hide Wakeup, Stoll, ToString;
    if q.Set? { WakeupOnlyStops(t.(store := t.store[q.key := q.value]), q.key); }
    if q.Add? && Total(t.store, q.key, q.delta).Some? {
      var n := Total(t.store, q.key, q.delta).value;
      WakeupOnlyStops(Say(t.(store := t.store[q.key := ToString(n)]), who, Number(n)), q.key);
    }
  }

  // ---------------------------------------------------------------- which keys there are

  /** The keys written and not deleted since. */
  function Live(run: seq<Call>): set<Bytes> {
    if run == [] then {}
    else
      var q, before := run[|run| - 1].q, Live(run[..|run| - 1]);
      if q.Set? || q.Add? then before + {q.key} else if q.Delete? then before - {q.key} else before
  }

  ghost predicate WrittenAt(run: seq<Call>, key: Bytes, j: nat) { j < |run| && (run[j].q.Set? || run[j].q.Add?) && run[j].q.key == key }

  ghost predicate DeletedAt(run: seq<Call>, key: Bytes, j: nat) { j < |run| && run[j].q == Delete(key) }

  /** The `j`-th query writes the key, and no later one deletes it. */
  ghost predicate StandsSince(run: seq<Call>, key: Bytes, j: nat) {
    WrittenAt(run, key, j) && forall i: nat :: j < i ==> !DeletedAt(run, key, i)
  }

  lemma {:induction false} LiveMeaning(run: seq<Call>, key: Bytes)
    ensures key in Live(run) <==> exists j :: StandsSince(run, key, j)
  {
    if run != [] {
      var front, n := run[..|run| - 1], |run| - 1;
      LiveMeaning(front, key);
      assert forall i: nat :: i < n ==> (DeletedAt(run, key, i) <==> DeletedAt(front, key, i));
      if WrittenAt(run, key, n) {
        assert StandsSince(run, key, n);
      } else if key in Live(front) && !DeletedAt(run, key, n) {
        var j :| StandsSince(front, key, j);
        assert StandsSince(run, key, j);
      }
      if j: nat :| j < n && StandsSince(run, key, j) {
        assert !DeletedAt(run, key, n);
        assert StandsSince(front, key, j);
      }
    }
  }

  lemma {:induction false} StoreHoldsTheLive(run: seq<Call>)
    ensures At(run).store.Keys == Live(run)
  {
    hide Serve, ServeAll;
    if run == [] {
      StartsEmpty();
    } else {
      var front, c := run[..|run| - 1], run[|run| - 1];
      StoreHoldsTheLive(front);
      assert run == front + [c];
      ServeLast(Empty(), front, c);
      StoreAfter(At(front), c.who, c.q);
    }
  }

  lemma StartsEmpty()
    ensures At([]) == Empty()
  {
  }

  // ---------------------------------------------------------------- which value a key has

  ghost predicate Untouched(run: seq<Call>, key: Bytes) { forall c :: c in run ==> !Touches(c.q, key) }

  lemma {:induction false} UntouchedStays(t: Tables, run: seq<Call>, key: Bytes)
    requires Untouched(run, key)
    ensures SameAt(ServeAll(t, run).store, t.store, key)
    decreases |run|
  {
    hide Serve;
    if run != [] {
      assert run[0] in run;
      StoreAfter(t, run[0].who, run[0].q);
      UntouchedStays(Serve(t, run[0].who, run[0].q), run[1..], key);
    }
  }

  /** GET answers the value last SET. */
  lemma GetAnswersTheLastSet(before: seq<Call>, setter: nat, key: Bytes, value: Bytes, since: seq<Call>, s: nat)
    requires Untouched(since, key)
    ensures var asked := before + [Call(setter, Set(key, value))] + since;
            At(asked + [Call(s, Get(key))]).output == At(asked).output + [Message(s, Data(value))]
  {
    hide Wakeup, Forget, ServeAll;
    var stored := before + [Call(setter, Set(key, value))];
    ServeLast(Empty(), before, Call(setter, Set(key, value)));
    StoreAfter(At(before), setter, Set(key, value));
    ServeAllAppend(Empty(), stored, since);
    UntouchedStays(At(stored), since, key);
    ServeLast(Empty(), stored + since, Call(s, Get(key)));
  }

  /** All traces of a socket are gone from the books of the daemon. */
  ghost predicate Forgotten(t: Tables, s: nat) { s !in t.awaited && forall key :: key in t.waiting ==> s !in t.waiting[key] }

  lemma {:induction false} WithoutHolds(socks: seq<nat>, s: nat, x: nat)
    ensures x in Without(socks, s) <==> x in socks && x != s
  {
    if socks != [] { WithoutHolds(socks[1..], s, x); }
  }

  lemma ForgetForgets(t: Tables, s: nat)
    ensures Forgotten(Forget(t, s), s)
  {
    hide Without;
    forall key | key in Forget(t, s).waiting ensures s !in Forget(t, s).waiting[key] { WithoutHolds(t.waiting[key], s, s); }
  }

  /** GET of a key that is not there is not answered: the daemon throws and drops the connection. */
  lemma GetOfMissingIsDropped(run: seq<Call>, s: nat, key: Bytes)
    requires key !in Live(run)
    ensures var after := At(run + [Call(s, Get(key))]);
            after.output == At(run).output && after.store == At(run).store && Forgotten(after, s) && Fails(At(run), s, Get(key))
  {
    hide ServeAll, Forgotten;
    StoreHoldsTheLive(run);
    ServeLast(Empty(), run, Call(s, Get(key)));
    ForgetForgets(At(run), s);
  }

  // ---------------------------------------------------------------- counting

  /** Everything a run adds to a key. */
  ghost function Sum(run: seq<Call>, key: Bytes): int {
    if run == [] then 0
    else
      var q := run[|run| - 1].q;
      Sum(run[..|run| - 1], key) + if q.Add? && q.key == key then q.delta else 0
  }

  ghost predicate AddOnly(run: seq<Call>, key: Bytes) { forall c :: c in run && Touches(c.q, key) ==> c.q.Add? }

  /** No running sum, counted from `x`, leaves the range of an `int64_t`. */
  ghost predicate InRange(run: seq<Call>, key: Bytes, x: int) {
    forall j :: 0 <= j <= |run| ==> INT64_MIN <= x + Sum(run[..j], key) <= INT64_MAX
  }

  /** What ADD finds at a key: nothing counts as zero. */
  ghost function Found(store: map<Bytes, Bytes>, key: Bytes): Option<int> { if key in store then Stoll(store[key]) else Some(0) }

  lemma FrontInRange(run: seq<Call>, key: Bytes, x: int)
    requires run != [] && InRange(run, key, x)
    ensures InRange(run[..|run| - 1], key, x) && INT64_MIN <= x + Sum(run, key) <= INT64_MAX
  {
    var front := run[..|run| - 1];
    forall j | 0 <= j <= |front| ensures INT64_MIN <= x + Sum(front[..j], key) <= INT64_MAX { assert front[..j] == run[..j]; }
    assert run[..|run|] == run;
  }

  /** One ADD to a key that holds a number: the new total is stored and sent to the sender before anything else. */
  lemma AddToANumber(t: Tables, s: nat, key: Bytes, delta: int, x: int)
    requires Found(t.store, key) == Some(x) && INT64_MIN <= x + delta <= INT64_MAX
    ensures var t' := Serve(t, s, Add(key, delta));
            Found(t'.store, key) == Some(x + delta) && OnlyStops(t.output + [Message(s, Number(x + delta))], t'.output)
  {
    hide Wakeup, Stoll, ToString;
    var t1 := Say(t.(store := t.store[key := ToString(x + delta)]), s, Number(x + delta));
    assert Total(t.store, key, delta) == Some(x + delta);
    WakeupOnlyStops(t1, key);
    DecimalRoundTrip(x + delta);
  }

  lemma FoundSame(a: map<Bytes, Bytes>, b: map<Bytes, Bytes>, key: Bytes)
    requires SameAt(a, b, key)
    ensures Found(a, key) == Found(b, key)
  {
  }

  /** A key that is only added to holds what it held, plus the sum. */
  lemma {:induction false} AddsAddUp(t: Tables, run: seq<Call>, key: Bytes, x: int)
    requires Found(t.store, key) == Some(x) && AddOnly(run, key) && InRange(run, key, x)
    ensures Found(ServeAll(t, run).store, key) == Some(x + Sum(run, key))
    decreases |run|
  {
    hide Found, Serve, InRange;
    if run != [] {
      var front, c := run[..|run| - 1], run[|run| - 1];
      assert c in run && run == front + [c];
      FrontInRange(run, key, x);
      AddsAddUp(t, front, key, x);
      ServeLast(t, front, c);
      var t1 := ServeAll(t, front);
      if Touches(c.q, key) {
        AddToANumber(t1, c.who, key, c.q.delta, x + Sum(front, key));
      } else {
        StoreAfter(t1, c.who, c.q);
        FoundSame(Serve(t1, c.who, c.q).store, t1.store, key);
      }
    }
  }

  lemma AddAnswers(t: Tables, run: seq<Call>, s: nat, key: Bytes, delta: int, x: int)
    requires Found(t.store, key) == Some(x) && AddOnly(run, key) && InRange(run + [Call(s, Add(key, delta))], key, x)
    ensures OnlyStops(ServeAll(t, run).output + [Message(s, Number(x + Sum(run, key) + delta))],
                      ServeAll(t, run + [Call(s, Add(key, delta))]).output)
  {
    hide Found, Serve, InRange, OnlyStops;
    var whole := run + [Call(s, Add(key, delta))];
    assert whole[..|whole| - 1] == run;
    FrontInRange(whole, key, x);
    AddsAddUp(t, run, key, x);
    ServeLast(t, run, Call(s, Add(key, delta)));
    AddToANumber(ServeAll(t, run), s, key, delta, x + Sum(run, key));
  }

  /** On a key that nobody SETs or DELETEs, every ADD answers its sender the sum of all ADDs so far, whoever sent them. */
  lemma AddAnswersTheRunningSum(run: seq<Call>, s: nat, key: Bytes, delta: int)
    requires AddOnly(run, key) && InRange(run + [Call(s, Add(key, delta))], key, 0)
    ensures OnlyStops(At(run).output + [Message(s, Number(Sum(run, key) + delta))], At(run + [Call(s, Add(key, delta))]).output)
  {
    hide ServeAll, OnlyStops, InRange, AddOnly;
    AddAnswers(Empty(), run, s, key, delta, 0);
  }

  /** And GET answers that sum, printed, once anything has been added. */
  lemma GetAnswersTheSum(run: seq<Call>, s: nat, key: Bytes) returns (d: Bytes)
    requires AddOnly(run, key) && InRange(run, key, 0) && key in Live(run)
    ensures Stoll(d) == Some(Sum(run, key)) && At(run + [Call(s, Get(key))]).output == At(run).output + [Message(s, Data(d))]
  {
    hide ServeAll, InRange, AddOnly, Stoll, Live;
    AddsAddUp(Empty(), run, key, 0);
    StoreHoldsTheLive(run);
    ServeLast(Empty(), run, Call(s, Get(key)));
    d := At(run).store[key];
  }

  /** After a SET the count goes on from the number that was set. */
  lemma AddGoesOnFromASet(before: seq<Call>, setter: nat, key: Bytes, value: Bytes, x: int, since: seq<Call>, s: nat, delta: int)
    requires Stoll(value) == Some(x) && AddOnly(since, key) && InRange(since + [Call(s, Add(key, delta))], key, x)
    ensures var asked := before + [Call(setter, Set(key, value))] + since;
            OnlyStops(At(asked).output + [Message(s, Number(x + Sum(since, key) + delta))], At(asked + [Call(s, Add(key, delta))]).output)
  {
    hide ServeAll, Serve, OnlyStops, Stoll, InRange;
    var stored, add := before + [Call(setter, Set(key, value))], Call(s, Add(key, delta));
    ServeLast(Empty(), before, Call(setter, Set(key, value)));
    StoreAfter(At(before), setter, Set(key, value));
    AddAnswers(At(stored), since, s, key, delta, x);
    ServeAllAppend(Empty(), stored, since);
    ServeAllAppend(Empty(), stored, since + [add]);
    assert stored + (since + [add]) == stored + since + [add];
  }

  /** If that is not a number, ADD is not answered, the connection is dropped and the value stays. */
  lemma AddToTextIsDropped(before: seq<Call>, setter: nat, key: Bytes, value: Bytes, since: seq<Call>, s: nat, delta: int)
    requires Stoll(value).None? && AddOnly(since, key)
    ensures var asked := before + [Call(setter, Set(key, value))] + since;
            var after := At(asked + [Call(s, Add(key, delta))]);
            && after.output == At(asked).output && Forgotten(after, s) && Fails(At(asked), s, Add(key, delta))
            && key in after.store && after.store[key] == value
  {
    hide ServeAll, Forgotten, Stoll, Wakeup;
    var stored := before + [Call(setter, Set(key, value))];
    ServeLast(Empty(), before, Call(setter, Set(key, value)));
    StoreAfter(At(before), setter, Set(key, value));
    ServeAllAppend(Empty(), stored, since);
    TextStays(At(stored), since, key, value);
    ServeLast(Empty(), stored + since, Call(s, Add(key, delta)));
    ForgetForgets(At(stored + since), s);
  }

  lemma {:induction false} TextStays(t: Tables, run: seq<Call>, key: Bytes, value: Bytes)
    requires Stoll(value).None? && AddOnly(run, key) && key in t.store && t.store[key] == value
    ensures var store := ServeAll(t, run).store; key in store && store[key] == value
    decreases |run|
  {
    hide Stoll, Serve;
    if run != [] {
      var c := run[0];
      assert c in run;
      if Touches(c.q, key) { AddToTextChangesNothing(t, c.who, c.q); } else { StoreAfter(t, c.who, c.q); }
      TextStays(Serve(t, c.who, c.q), run[1..], key, value);
    }
  }

  lemma AddToTextChangesNothing(t: Tables, who: nat, q: Query)
    requires q.Add? && q.key in t.store && Stoll(t.store[q.key]).None?
    ensures Serve(t, who, q).store == t.store
  {
    hide Stoll, Wakeup, ToString;
  }

  // ---------------------------------------------------------------- the other questions

  /** CHECK, DELETE and GETNUMKEYS are answered with one message, about the keys written and not deleted since;
      WAIT too, if all its keys are there, and not before that otherwise. */
  lemma AnswersAboutKeys(run: seq<Call>, s: nat, q: Query)
    requires q.Check? || q.Delete? || q.GetNumKeys? || q.Wait?
    ensures var live := Live(run);
            At(run + [Call(s, q)]).output == At(run).output
              + match q
                case Check(keys) => [Message(s, if forall k :: k in keys ==> k in live then Ready else NotReady)]
                case Delete(key) => [Message(s, Number(if key in live then 1 else 0))]
                case GetNumKeys => [Message(s, Number(|live|))]
                case Wait(keys) => if forall k :: k in keys ==> k in live then [Message(s, Stop)] else []
  {
    hide ServeAll;
    StoreHoldsTheLive(run);
    ServeLast(Empty(), run, Call(s, q));
    var t := At(run);
    assert |t.store| == |t.store.Keys|;
    if q.Check? || q.Wait? { PresentIff(t.store, q.keys); }
  }

  lemma PresentIff(store: map<Bytes, Bytes>, keys: seq<Bytes>)
    ensures Present(store, keys) <==> forall k :: k in keys ==> k in store.Keys
  {
  }

  /** SET is not answered; all it sends are releases of waiting sockets. An unknown query is dropped unanswered. */
  lemma SetIsNotAnswered(run: seq<Call>, s: nat, q: Query)
    requires q.Set? || q.Broken?
    ensures OnlyStops(At(run).output, At(run + [Call(s, q)]).output)
    ensures q.Broken? ==> At(run + [Call(s, q)]).output == At(run).output && Forgotten(At(run + [Call(s, q)]), s)
  {
    hide ServeAll, Forgotten, Wakeup;
    ServeLast(Empty(), run, Call(s, q));
    var t := At(run);
    if q.Set? { WakeupOnlyStops(t.(store := t.store[q.key := q.value]), q.key); }
    else { ForgetForgets(t, s); }
  }

  // ---------------------------------------------------------------- who is dropped

  /** A query drops its connection exactly if it is unknown, or GETs a key that is not there, or ADDs to one that
      holds no number. */
  lemma DroppedIff(run: seq<Call>, s: nat, q: Query)
    ensures Fails(At(run), s, q) <==>
            (q.Broken? || (q.Get? && q.key !in Live(run)) || (q.Add? && q.key in At(run).store && Stoll(At(run).store[q.key]).None?))
  {
    hide ServeAll, Stoll, Wakeup, ToString;
    StoreHoldsTheLive(run);
  }

  /** A sweep goes on where it has got to. */
  lemma {:induction false} SweepAppend(t: Tables, a: seq<PollFd>, b: seq<PollFd>, inbox: map<nat, Query>)
    ensures var first := Sweep(t, a, inbox);
            var second := Sweep(first.0, b, inbox);
            Sweep(t, a + b, inbox) == (second.0, first.1 + second.1)
    decreases |a|
  {
    hide Serve, Fails;
    if a == [] {
      assert a + b == b;
      assert Sweep(t, a, inbox) == (t, []);
      assert [] + Sweep(t, b, inbox).1 == Sweep(t, b, inbox).1;
    } else {
      assert (a + b)[0] == a[0] && (a + b)[1..] == a[1..] + b;
      var t1 := if a[0].ready then Serve(t, a[0].fd, Inbox(inbox, a[0].fd)) else t;
      var kept := if a[0].ready && Fails(t, a[0].fd, Inbox(inbox, a[0].fd)) then [] else [a[0]];
      SweepAppend(t1, a[1..], b, inbox);
      var first := Sweep(t1, a[1..], inbox);
      assert Sweep(t, a, inbox) == (first.0, kept + first.1);
      var second := Sweep(first.0, b, inbox);
      assert kept + (first.1 + second.1) == kept + first.1 + second.1;
      assert Sweep(t, a + b, inbox) == (second.0, kept + (first.1 + second.1));
    }
  }

  /** In one sweep of the poll set a descriptor goes exactly if it was ready and its query, served after those
      of the ready descriptors before it, drops the connection. */
  lemma SweepDropsExactly(t: Tables, a: seq<PollFd>, fd: PollFd, b: seq<PollFd>, inbox: map<nat, Query>)
    ensures var turn := ServeAll(t, ReadyCalls(a, inbox));
            var dropped := fd.ready && Fails(turn, fd.fd, Inbox(inbox, fd.fd));
            Sweep(t, a + [fd] + b, inbox).1
            == Sweep(t, a, inbox).1 + (if dropped then [] else [fd])
               + Sweep(if fd.ready then Serve(turn, fd.fd, Inbox(inbox, fd.fd)) else turn, b, inbox).1
  {
    hide Serve, Fails, ServeAll, ReadyCalls;
    SweepIsARun(t, a, inbox);
    SweepAppend(t, a, [fd] + b, inbox);
    assert a + ([fd] + b) == a + [fd] + b;
    assert ([fd] + b)[1..] == b;
  }
}
