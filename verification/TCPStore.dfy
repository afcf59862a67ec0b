/** What the daemon of a TCP store does to its tables, on values. */
module TCPStoreSpec {
  import opened Basics
  import opened Codec

  datatype Query =
    | Set(key: Bytes, value: Bytes)
    | Get(key: Bytes)
    | Add(key: Bytes, delta: int)
    | Check(keys: seq<Bytes>)
    | Wait(keys: seq<Bytes>)
    | GetNumKeys
    | Delete(key: Bytes)
    | Broken                      // an unknown type, or the peer is gone

  datatype Reply = Stop | Number(n: int) | Data(data: Bytes) | Ready | NotReady

  datatype Message = Message(to: nat, reply: Reply)

  datatype Tables = Tables(
    store: map<Bytes, Bytes>,
    waiting: map<Bytes, seq<nat>>,     // key -> sockets waiting on it
    awaited: map<nat, nat>,            // socket -> how many keys it still awaits
    output: seq<Message>)

  function Awaited(awaited: map<nat, nat>, s: nat): nat { if s in awaited then awaited[s] else 0 }

  function Waiting(waiting: map<Bytes, seq<nat>>, key: Bytes): seq<nat> { if key in waiting then waiting[key] else [] }

  /** `--n` on a `size_t`. */
  function Dec(n: nat): nat { if n == 0 then SIZE_T - 1 else n - 1 }

  function Woken(awaited: map<nat, nat>, output: seq<Message>, s: nat): (map<nat, nat>, seq<Message>) {
    var n := Dec(Awaited(awaited, s));
    (awaited[s := n], if n == 0 then output + [Message(s, Stop)] else output)
  }

  function Wake(socks: seq<nat>, awaited: map<nat, nat>, output: seq<Message>): (map<nat, nat>, seq<Message>) {
    if socks == [] then (awaited, output)
    else
      var w := Woken(awaited, output, socks[0]);
      Wake(socks[1..], w.0, w.1)
  }

  function Wakeup(t: Tables, key: Bytes): Tables {
    if key in t.waiting then
      var w := Wake(t.waiting[key], t.awaited, t.output);
      t.(waiting := t.waiting - {key}, awaited := w.0, output := w.1)
    else t
  }

  function Write(t: Tables, key: Bytes, value: Bytes): Tables { Wakeup(t.(store := t.store[key := value]), key) }

  function Say(t: Tables, s: nat, r: Reply): Tables { t.(output := t.output + [Message(s, r)]) }

  predicate Present(store: map<Bytes, Bytes>, keys: seq<Bytes>) { forall i :: 0 <= i < |keys| ==> keys[i] in store }

  function Enlist(waiting: map<Bytes, seq<nat>>, keys: seq<Bytes>, s: nat): map<Bytes, seq<nat>>
    decreases |keys|
  {
    if keys == [] then waiting
    else Enlist(waiting[keys[0] := Waiting(waiting, keys[0]) + [s]], keys[1..], s)
  }

  function WaitOn(t: Tables, s: nat, keys: seq<Bytes>): Tables {
    if Present(t.store, keys) then Say(t, s, Stop)
    else t.(waiting := Enlist(t.waiting, keys, s), awaited := t.awaited[s := |keys|])
  }

  /** The value `add` leaves, or `None` where the stored one is not a number. */
  function Total(store: map<Bytes, Bytes>, key: Bytes, delta: int): Option<int> {
    if key !in store then Some(delta)
    else if Stoll(store[key]).Some? then Some(Wrap64(delta + Stoll(store[key]).value)) else None
  }

  /** One query; `None` where a handler throws, which it does before it has changed anything. */
  function Handle(t: Tables, s: nat, q: Query): Option<Tables> {
    match q
    case Set(key, value) => Some(Write(t, key, value))
    case Get(key) => if key in t.store then Some(Say(t, s, Data(t.store[key]))) else None
    case Add(key, delta) =>
      var total := Total(t.store, key, delta);
      if total.None? then None
      else Some(Wakeup(Say(t.(store := t.store[key := ToString(total.value)]), s, Number(total.value)), key))
    case Check(keys) => Some(Say(t, s, if Present(t.store, keys) then Ready else NotReady))
    case Wait(keys) => Some(WaitOn(t, s, keys))
    case GetNumKeys => Some(Say(t, s, Number(|t.store|)))
    case Delete(key) => Some(Say(t.(store := t.store - {key}), s, Number(if key in t.store then 1 else 0)))
    case Broken => None
  }

  function Without(socks: seq<nat>, s: nat): seq<nat> {
    if socks == [] then [] else (if socks[0] == s then [] else [socks[0]]) + Without(socks[1..], s)
  }

  /** All tracking state of a closed socket is dropped, and no key keeps an empty list. */
  function Forget(t: Tables, s: nat): Tables {
    t.(waiting := map key | key in t.waiting && Without(t.waiting[key], s) != [] :: Without(t.waiting[key], s),
      awaited := t.awaited - {s})
  }

  function Serve(t: Tables, s: nat, q: Query): Tables {
    var r := Handle(t, s, q);
    if r.Some? then r.value else Forget(t, s)
  }

  predicate Fails(t: Tables, s: nat, q: Query) { Handle(t, s, q).None? }
}

/** The daemon object. */
module TCPStoreObject {
  import opened Basics
  import opened Codec
  import opened TCPStoreSpec

  const CONNECT_SOCKET_OFFSET := 2

  datatype PollFd = PollFd(fd: nat, ready: bool)

  /** The poll sweep on values: every descriptor is looked at once, in order, those whose query fails are
      dropped. */
  function Sweep(t: Tables, fds: seq<PollFd>, inbox: map<nat, Query>): (Tables, seq<PollFd>)
    decreases |fds|
  {
    if fds == [] then (t, [])
    else if !fds[0].ready then
      var rest := Sweep(t, fds[1..], inbox);
      (rest.0, [fds[0]] + rest.1)
    else
      var q := Inbox(inbox, fds[0].fd);
      var rest := Sweep(Serve(t, fds[0].fd, q), fds[1..], inbox);
      (rest.0, (if Fails(t, fds[0].fd, q) then [] else [fds[0]]) + rest.1)
  }

  function Inbox(inbox: map<nat, Query>, fd: nat): Query { if fd in inbox then inbox[fd] else Broken }

  function Fds(fds: seq<PollFd>): (r: seq<nat>)
    ensures |r| == |fds| && forall i :: 0 <= i < |fds| ==> r[i] == fds[i].fd
  {
    seq(|fds|, i requires 0 <= i < |fds| => fds[i].fd)
  }

  class TCPStoreDaemon {
    var tcpStore: map<Bytes, Bytes>
    var waitingSockets: map<Bytes, seq<nat>>
    var keysAwaited: map<nat, nat>
    var sockets: seq<nat>
    var output: seq<Message>

    function State(): Tables
      reads this
    {
      Tables(tcpStore, waitingSockets, keysAwaited, output)
    }

    constructor ()
      ensures State() == Tables(map[], map[], map[], []) && sockets == []
    {
      tcpStore, waitingSockets, keysAwaited, sockets, output := map[], map[], map[], [], [];
    }

    method WakeupWaitingClients(key: Bytes)
      modifies this`waitingSockets, this`keysAwaited, this`output
      ensures State() == Wakeup(old(State()), key)
    {
      if key in waitingSockets {
        var socks := waitingSockets[key];
        for i := 0 to |socks|
          invariant waitingSockets == old(waitingSockets)
          invariant Wake(socks[i..], keysAwaited, output) == Wake(socks, old(keysAwaited), old(output))
        {
          var socket := socks[i];
          assert socks[i..][1..] == socks[i + 1..];
          keysAwaited := keysAwaited[socket := Dec(Awaited(keysAwaited, socket))];
          if keysAwaited[socket] == 0 {
            output := output + [Message(socket, Stop)];
          }
        }
        waitingSockets := waitingSockets - {key};
      }
    }

    method SetHandler(key: Bytes, value: Bytes)
      modifies this`tcpStore, this`waitingSockets, this`keysAwaited, this`output
      ensures State() == Write(old(State()), key, value)
    {
      tcpStore := tcpStore[key := value];
      WakeupWaitingClients(key);
    }

    method AddHandler(socket: nat, key: Bytes, delta: int) returns (ok: bool)
      modifies this`tcpStore, this`waitingSockets, this`keysAwaited, this`output
      ensures ok == Handle(old(State()), socket, Add(key, delta)).Some?
      ensures State() == if ok then Handle(old(State()), socket, Add(key, delta)).value else old(State())
    {
      var addVal := delta;
      if key in tcpStore {
        var present := Stoll(tcpStore[key]);
        if present.None? { return false; }
        addVal := Wrap64(addVal + present.value);
      }
      tcpStore := tcpStore[key := ToString(addVal)];
      output := output + [Message(socket, Number(addVal))];
      WakeupWaitingClients(key);
      return true;
    }

    method CheckKeys(keys: seq<Bytes>) returns (all: bool)
      ensures all == Present(tcpStore, keys)
    {
      for i := 0 to |keys|
        invariant forall j :: 0 <= j < i ==> keys[j] in tcpStore
      {
        if keys[i] !in tcpStore { return false; }
      }
      return true;
    }

    method WaitHandler(socket: nat, keys: seq<Bytes>)
      modifies this`waitingSockets, this`keysAwaited, this`output
      ensures State() == WaitOn(old(State()), socket, keys)
    {
      var all := CheckKeys(keys);
      if all {
        output := output + [Message(socket, Stop)];
      } else {
        for i := 0 to |keys|
          invariant keysAwaited == old(keysAwaited) && output == old(output)
          invariant Enlist(waitingSockets, keys[i..], socket) == Enlist(old(waitingSockets), keys, socket)
        {
          assert keys[i..][1..] == keys[i + 1..];
          waitingSockets := waitingSockets[keys[i] := Waiting(waitingSockets, keys[i]) + [socket]];
        }
        keysAwaited := keysAwaited[socket := |keys|];
      }
    }

    method ServeQuery(socket: nat, q: Query) returns (ok: bool)
      modifies this`tcpStore, this`waitingSockets, this`keysAwaited, this`output
      ensures ok == Handle(old(State()), socket, q).Some?
      ensures State() == if ok then Handle(old(State()), socket, q).value else old(State())
    {
      match q
      case Set(key, value) =>
        SetHandler(key, value);
        return true;
      case Get(key) =>
        if key !in tcpStore { return false; }
        output := output + [Message(socket, Data(tcpStore[key]))];
        return true;
      case Add(key, delta) =>
        ok := AddHandler(socket, key, delta);
      case Check(keys) =>
        var all := CheckKeys(keys);
        output := output + [Message(socket, if all then Ready else NotReady)];
        return true;
      case Wait(keys) =>
        WaitHandler(socket, keys);
        return true;
      case GetNumKeys =>
        output := output + [Message(socket, Number(|tcpStore|))];
        return true;
      case Delete(key) =>
        output := output + [Message(socket, Number(if key in tcpStore then 1 else 0))];
        tcpStore := tcpStore - {key};
        return true;
      case Broken =>
        return false;
    }

    /** The clean-up after a failed query. */
    method ForgetSocket(socket: nat)
      modifies this`waitingSockets, this`keysAwaited
      ensures State() == Forget(old(State()), socket)
    {
      var left := waitingSockets.Keys;
      while left != {}
        invariant left <= old(waitingSockets).Keys && keysAwaited == old(keysAwaited)
        invariant Swept(old(waitingSockets), waitingSockets, left, socket)
        decreases left
      {
        var key :| key in left;
        var rest := EraseAll(waitingSockets[key], socket);
        if rest == [] {
          waitingSockets := waitingSockets - {key};
        } else {
          waitingSockets := waitingSockets[key := rest];
        }
        left := left - {key};
      }
      keysAwaited := keysAwaited - {socket};
      assert waitingSockets == Forget(old(State()), socket).waiting;
    }

    /** The sweep that erases from the vector it walks: every ready descriptor is queried exactly once, in
        order, and the list of sockets stays aligned with the poll set. */
    method QueryFds(fds: seq<PollFd>, inbox: map<nat, Query>) returns (left: seq<PollFd>)
      requires CONNECT_SOCKET_OFFSET <= |fds| && sockets == Fds(fds[CONNECT_SOCKET_OFFSET..])
      modifies this
      ensures State() == Sweep(old(State()), fds[CONNECT_SOCKET_OFFSET..], inbox).0
      ensures left == fds[..CONNECT_SOCKET_OFFSET] + Sweep(old(State()), fds[CONNECT_SOCKET_OFFSET..], inbox).1
      ensures sockets == Fds(left[CONNECT_SOCKET_OFFSET..])
    {
      hide Handle, Forget, Sweep, SweepResumes;
      left := fds;
      assert fds[CONNECT_SOCKET_OFFSET..CONNECT_SOCKET_OFFSET] == [];
      SweepBegins(State(), fds, inbox);
      var fdIdx := CONNECT_SOCKET_OFFSET;
      while fdIdx < |left|
        invariant CONNECT_SOCKET_OFFSET <= fdIdx <= |left|
        invariant left[..CONNECT_SOCKET_OFFSET] == fds[..CONNECT_SOCKET_OFFSET]
        invariant sockets == Fds(left[CONNECT_SOCKET_OFFSET..])
        invariant SweepResumes(old(State()), fds, State(), left, fdIdx, inbox)
        decreases |left| - fdIdx
      {
        if !left[fdIdx].ready {
          Resume(old(State()), fds, State(), left, fdIdx, inbox);
          fdIdx := fdIdx + 1;
          continue;
        }
        var fd := left[fdIdx].fd;
        Resume(old(State()), fds, State(), left, fdIdx, inbox);
        var ok := ServeQuery(fd, Inbox(inbox, fd));
        if !ok {
          ForgetSocket(fd);
          Aligned(left, fdIdx);
          left := left[..fdIdx] + left[fdIdx + 1..];
          sockets := sockets[..fdIdx - CONNECT_SOCKET_OFFSET] + sockets[fdIdx - CONNECT_SOCKET_OFFSET + 1..];
          fdIdx := fdIdx - 1;
        }
        fdIdx := fdIdx + 1;
      }
      SweepEnds(old(State()), fds, State(), left, inbox);
    }
  }

  method EraseAll(socks: seq<nat>, socket: nat) returns (rest: seq<nat>)
    ensures rest == Without(socks, socket)
  {
    hide Without;
    rest := [];
    assert socks[0..] == socks;
    for i := 0 to |socks|
      invariant rest + Without(socks[i..], socket) == Without(socks, socket)
    {
      WithoutFirst(socks, i, socket);
      if socks[i] != socket { rest := rest + [socks[i]]; }
    }
    assert socks[|socks|..] == [];
    WithoutNone(socket);
  }

  lemma WithoutFirst(socks: seq<nat>, i: nat, socket: nat)
    requires i < |socks|
    ensures Without(socks[i..], socket) == (if socks[i] == socket then [] else [socks[i]]) + Without(socks[i + 1..], socket)
  {
    assert socks[i..][1..] == socks[i + 1..];
  }

  lemma WithoutNone(socket: nat)
    ensures Without([], socket) == []
  {
  }

  /** The keys not yet visited are as they were, the others are done. */
  ghost predicate Swept(was: map<Bytes, seq<nat>>, now: map<Bytes, seq<nat>>, left: set<Bytes>, s: nat) {
    && (forall key :: key in now <==> key in was && (key in left || Without(was[key], s) != []))
    && (forall key :: key in now ==> now[key] == if key in left then was[key] else Without(was[key], s))
  }

  /** What is done, then the sweep of what is ahead, is the whole sweep. */
  ghost predicate SweepResumes(t0: Tables, fds: seq<PollFd>, t: Tables, left: seq<PollFd>, i: nat, inbox: map<nat, Query>)
    requires CONNECT_SOCKET_OFFSET <= |fds| && CONNECT_SOCKET_OFFSET <= i <= |left|
  {
    var whole, rest := Sweep(t0, fds[CONNECT_SOCKET_OFFSET..], inbox), Sweep(t, left[i..], inbox);
    whole.0 == rest.0 && whole.1 == left[CONNECT_SOCKET_OFFSET..i] + rest.1
  }

  lemma SweepBegins(t: Tables, fds: seq<PollFd>, inbox: map<nat, Query>)
    requires CONNECT_SOCKET_OFFSET <= |fds|
    ensures SweepResumes(t, fds, t, fds, CONNECT_SOCKET_OFFSET, inbox)
  {
  }

  lemma SweepEnds(t0: Tables, fds: seq<PollFd>, t: Tables, left: seq<PollFd>, inbox: map<nat, Query>)
    requires CONNECT_SOCKET_OFFSET <= |fds| && CONNECT_SOCKET_OFFSET <= |left|
    requires SweepResumes(t0, fds, t, left, |left|, inbox) && left[..CONNECT_SOCKET_OFFSET] == fds[..CONNECT_SOCKET_OFFSET]
    ensures t == Sweep(t0, fds[CONNECT_SOCKET_OFFSET..], inbox).0
    ensures left == fds[..CONNECT_SOCKET_OFFSET] + Sweep(t0, fds[CONNECT_SOCKET_OFFSET..], inbox).1
  {
  }

  lemma Aligned(left: seq<PollFd>, i: nat)
    requires CONNECT_SOCKET_OFFSET <= i < |left|
    ensures var s := Fds(left[CONNECT_SOCKET_OFFSET..]);
            s[..i - CONNECT_SOCKET_OFFSET] + s[i - CONNECT_SOCKET_OFFSET + 1..]
            == Fds((left[..i] + left[i + 1..])[CONNECT_SOCKET_OFFSET..])
  {
  }

  lemma Resume(t0: Tables, fds: seq<PollFd>, t: Tables, left: seq<PollFd>, i: nat, inbox: map<nat, Query>)
    requires CONNECT_SOCKET_OFFSET <= |fds| && CONNECT_SOCKET_OFFSET <= i < |left|
    requires SweepResumes(t0, fds, t, left, i, inbox)
    ensures !left[i].ready ==> SweepResumes(t0, fds, t, left, i + 1, inbox)
    ensures (left[i].ready && !Fails(t, left[i].fd, Inbox(inbox, left[i].fd)) ==>
            SweepResumes(t0, fds, Serve(t, left[i].fd, Inbox(inbox, left[i].fd)), left, i + 1, inbox))
    ensures (left[i].ready && Fails(t, left[i].fd, Inbox(inbox, left[i].fd)) ==>
            SweepResumes(t0, fds, Serve(t, left[i].fd, Inbox(inbox, left[i].fd)), left[..i] + left[i + 1..], i, inbox))
  {
    hide Handle, Forget, Serve, Fails;
    assert left[i..][1..] == left[i + 1..];
    assert left[CONNECT_SOCKET_OFFSET..i + 1] == left[CONNECT_SOCKET_OFFSET..i] + [left[i]];
    var cut := left[..i] + left[i + 1..];
    assert cut[i..] == left[i + 1..] && cut[CONNECT_SOCKET_OFFSET..i] == left[CONNECT_SOCKET_OFFSET..i];
  }
}
