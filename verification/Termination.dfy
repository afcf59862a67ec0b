/** What the message counters of the RPC agents mean. */
module Termination {
  import opened FutureTable
  import opened RpcSystem

  // The accounting law that holds in every state of every run, and the soundness of the termination detector built
  // on it.

  // ---------------------------------------------------------------- runs

  ghost predicate IsRun(states: seq<System>, acts: seq<Action>) {
    && |states| == |acts| + 1
    && Inv(states[0])
    && forall t :: 0 <= t < |acts| ==> Shape(states[t]) && Enabled(states[t], acts[t]) && states[t + 1] == Next(states[t], acts[t])
  }

  lemma {:induction false} RunInv(states: seq<System>, acts: seq<Action>, t: nat)
    requires IsRun(states, acts) && t < |states|
    ensures Inv(states[t]) && states[t].n == states[0].n
  {
    if t > 0 {
      RunInv(states, acts, t - 1);
      NextInv(states[t - 1], acts[t - 1]);
    }
  }

  /** Whatever the interleaving: the two maps of every agent stay in sync and hold exactly the
      pending futures, and no future is ever completed twice. */
  lemma FuturesCompletedAtMostOnce(states: seq<System>, acts: seq<Action>, t: nat, r: nat)
    requires IsRun(states, acts) && states[0] == Init(states[0].n) && t < |states| && r < states[0].n
    ensures Shape(states[t]) && states[t].n == states[0].n && InSync(states[t].tables[r])
    ensures forall id: nat :: id in states[t].tables[r].futures <==> PendingIn(states[t], r, id)
    ensures forall id: nat :: Token(r, id) in states[t].completed ==> id !in states[t].tables[r].futures
    ensures forall i, j :: 0 <= i < j < |states[t].completed| ==> states[t].completed[i] != states[t].completed[j]
  {
    RunInv(states, acts, t);
    assert TableAt(states[t], r);
  }

  // ---------------------------------------------------------------- the accounting law

  /** On the channel from `j` to `i`, in any state of any run: messages sent, plus receives the
      watchdog booked for responses that have not been sent, equals messages received, plus requests
      sent but not handled, plus responses sent but neither handled nor written off. */
  lemma CountGap(s: System, i: nat, j: nat)
    requires Inv(s) && i < s.n && j < s.n
    ensures var reqSent, reqDone := Sel(s.lives, ReqSent, j, i), Sel(s.lives, ReqDone, j, i);
            var respSent, respDone := Sel(s.lives, RespSent, i, j), Sel(s.lives, RespDone, i, j);
            s.sent[j][i] + |respDone - respSent| == s.recv[i][j] + |reqSent - reqDone| + |respSent - respDone|
  {
    hide TablesOk, CompletedOk, Coupled, Sel;
    var a, b := Sel(s.lives, ReqSent, j, i), Sel(s.lives, ReqDone, j, i);
    var c, d := Sel(s.lives, RespSent, i, j), Sel(s.lives, RespDone, i, j);
    assert CountsAt(s, j, i) && CountsAt(s, i, j);
    DoneWasSent(s.lives, j, i);
    Differences(a, b);
    Differences(c, d);
    assert b - a == {};
  }

  /** What the counters of a rank stand for: requests it has begun to send and answers it has begun to send; requests
      it has handled to the end, and answers it has handled to the end or written off for a timeout. */
  lemma CountersMean(s: System, i: nat, j: nat)
    requires Inv(s) && i < s.n && j < s.n
    ensures s.sent[i][j] == |set tok | tok in s.lives && tok.rank == i && s.lives[tok].dst == j
                                       && s.lives[tok].req != NotYet && s.lives[tok].req != Queued && s.lives[tok].req != Unsent|
                          + |set tok | tok in s.lives && tok.rank == j && s.lives[tok].dst == i
                                       && s.lives[tok].resp != NotYet && s.lives[tok].resp != Queued && s.lives[tok].resp != Unsent|
    ensures s.recv[i][j] == |set tok | tok in s.lives && tok.rank == j && s.lives[tok].dst == i && s.lives[tok].req == Retired|
                          + |set tok | tok in s.lives && tok.rank == i && s.lives[tok].dst == j
                                       && (s.lives[tok].resp == Retired || s.lives[tok].fut == TimedOut)|
  {
    hide Inv, Sel;
    CountsOf(s, i, j);
    SelMeaning(s.lives, i, j);
    SelMeaning(s.lives, j, i);
  }

  lemma CountsOf(s: System, i: nat, j: nat)
    requires Inv(s) && i < s.n && j < s.n
    ensures Shape(s) && CountsAt(s, i, j)
  {
  }

  lemma SelMeaning(lives: map<Token, Life>, i: nat, j: nat)
    ensures (set tok | tok in lives && tok.rank == i && lives[tok].dst == j
                       && lives[tok].req != NotYet && lives[tok].req != Queued && lives[tok].req != Unsent) == Sel(lives, ReqSent, i, j)
    ensures (set tok | tok in lives && tok.rank == i && lives[tok].dst == j
                       && lives[tok].resp != NotYet && lives[tok].resp != Queued && lives[tok].resp != Unsent) == Sel(lives, RespSent, i, j)
    ensures (set tok | tok in lives && tok.rank == i && lives[tok].dst == j && lives[tok].req == Retired) == Sel(lives, ReqDone, i, j)
    ensures (set tok | tok in lives && tok.rank == i && lives[tok].dst == j
                       && (lives[tok].resp == Retired || lives[tok].fut == TimedOut)) == Sel(lives, RespDone, i, j)
  {
  }

  lemma DoneWasSent(lives: map<Token, Life>, j: nat, i: nat)
    ensures Sel(lives, ReqDone, j, i) <= Sel(lives, ReqSent, j, i)
  {
  }

  lemma Differences<T>(x: set<T>, y: set<T>)
    ensures |x| + |y - x| == |y| + |x - y|
  {
  }

  /** With timeouts, matching counters do not mean an empty channel: the messages outstanding are
      exactly as many as the responses written off before they were sent. */
  lemma MatchingCountsExactly(s: System, i: nat, j: nat)
    requires Inv(s) && i < s.n && j < s.n
    ensures var reqSent, reqDone := Sel(s.lives, ReqSent, j, i), Sel(s.lives, ReqDone, j, i);
            var respSent, respDone := Sel(s.lives, RespSent, i, j), Sel(s.lives, RespDone, i, j);
            s.sent[j][i] == s.recv[i][j] <==> |reqSent - reqDone| + |respSent - respDone| == |respDone - respSent|
  {
    CountGap(s, i, j);
  }

  /** Nothing is moving, every handled request was answered, every removed future was completed. */
  ghost predicate AtRest(s: System) {
    forall tok :: tok in s.lives ==>
      var l := s.lives[tok];
      !Moving(l.req) && !Moving(l.resp) && (l.req == Retired ==> l.resp != NotYet) && l.fut != Expired && l.fut != Failing
  }

  /** A request that timed out and that failed to serialize, or whose answer to oneself did: its receive was
      booked, and nothing was sent for it. */
  ghost predicate GhostReceive(s: System, i: nat, j: nat) { exists tok :: GhostAt(s, tok, i, j) }

  ghost predicate GhostAt(s: System, tok: Token, i: nat, j: nat) {
    && tok in s.lives && tok.rank == i && s.lives[tok].dst == j
    && (s.lives[tok].req == Unsent || s.lives[tok].resp == Unsent) && s.lives[tok].fut == TimedOut
  }

  lemma DifferencesAtRest(s: System, i: nat, j: nat)
    requires Coupled(s) && AtRest(s)
    ensures Sel(s.lives, ReqSent, j, i) <= Sel(s.lives, ReqDone, j, i)
    ensures Sel(s.lives, RespSent, i, j) <= Sel(s.lives, RespDone, i, j)
    ensures GhostReceive(s, i, j) <==> Sel(s.lives, RespDone, i, j) - Sel(s.lives, RespSent, i, j) != {}
  {
    var c, d := Sel(s.lives, RespSent, i, j), Sel(s.lives, RespDone, i, j);
    forall tok | tok in s.lives ensures Coherent(s.lives[tok]) {}
    if GhostReceive(s, i, j) {
      var tok :| GhostAt(s, tok, i, j);
      assert tok in d - c;
    }
    if d - c != {} {
      var tok :| tok in d - c;
      assert GhostAt(s, tok, i, j);
    }
  }

  /** Receive-count conservation: once all is at rest the counters of a channel agree, except exactly
      when some request both timed out and failed to serialize, itself or in its answer. */
  lemma CountsAgreeAtRest(s: System, i: nat, j: nat)
    requires Inv(s) && AtRest(s) && i < s.n && j < s.n
    ensures s.recv[i][j] == s.sent[j][i] <==> !GhostReceive(s, i, j)
  {
    CountGap(s, i, j);
    DifferencesAtRest(s, i, j);
    assert Sel(s.lives, ReqSent, j, i) - Sel(s.lives, ReqDone, j, i) == {};
    assert Sel(s.lives, RespSent, i, j) - Sel(s.lives, RespDone, i, j) == {};
  }

  // ---------------------------------------------------------------- termination detection

  /** A rank is idle when its thread pool holds no task: no message of its own to send, none to
      handle, none handled but not booked, no failed send to report. */
  predicate ActiveAt(tok: Token, l: Life, k: nat) {
    || (tok.rank == k && (l.req.Queued? || l.req.Counted? || l.resp.Delivered? || l.resp.Running? || l.resp.Finished? || l.fut.Failing?))
    || (l.dst == k && (l.req.Delivered? || l.req.Running? || l.req.Finished? || l.resp.Queued? || l.resp.Counted?))
  }

  ghost predicate Idle(s: System, k: nat) { forall tok :: tok in s.lives ==> !ActiveAt(tok, s.lives[tok], k) }

  ghost predicate NothingOnTheWire(s: System) {
    forall tok :: tok in s.lives ==> s.lives[tok].req != Wire && s.lives[tok].resp != Wire
  }

  ghost predicate Quiescent(s: System) { NothingOnTheWire(s) && forall k :: 0 <= k < s.n ==> Idle(s, k) }

  /** The steps possible once every process is in `sync` and no RPC times out: new messages come only
      from a pool that is running something. */
  ghost predicate QuietStep(s: System, a: Action) {
    && Enabled(s, a)
    && !a.ExpireAt?
    && (a.Issue? ==> !Idle(s, a.rank))
    && (a.Respond? ==> !Idle(s, s.lives[a.tok].dst))
  }

  ghost predicate NoTimeouts(s: System) {
    forall tok :: tok in s.lives ==> s.lives[tok].fut != Expired && s.lives[tok].fut != TimedOut
  }

  ghost predicate IsQuietRun(states: seq<System>, acts: seq<Action>) {
    && IsRun(states, acts)
    && NoTimeouts(states[0])
    && forall t :: 0 <= t < |acts| ==> QuietStep(states[t], acts[t])
  }

  /** The rank whose thread takes the step. */
  ghost function ActorOf(s: System, a: Action): nat
    requires Enabled(s, a)
  {
    match a
    case Issue(r, _, _, _) => r
    case AdvanceReq(tok) => if s.lives[tok].req.Queued? || s.lives[tok].req.Counted? then tok.rank else s.lives[tok].dst
    case Fail(tok) => tok.rank
    case Respond(tok) => s.lives[tok].dst
    case AdvanceResp(tok) => if s.lives[tok].resp.Queued? || s.lives[tok].resp.Counted? then s.lives[tok].dst else tok.rank
    case FailResp(tok) => s.lives[tok].dst
    case ExpireAt(r, _) => r
    case Settle(tok) => tok.rank
  }

  lemma NoTimeoutsKept(s: System, a: Action)
    requires Inv(s) && NoTimeouts(s) && QuietStep(s, a)
    ensures NoTimeouts(Next(s, a))
  {
    hide TablesOk, CompletedOk, CountsOk, Remove, Insert, BumpBy, EffectOf, Legal;
    if !a.Issue? {
      assert Coherent(s.lives[a.tok]);
      NeverTimesOut(s.lives[a.tok], a, InTable(s, a.tok));
    }
  }

  lemma NeverTimesOut(l: Life, a: Action, present: bool)
    requires !a.Issue? && !a.ExpireAt? && Legal(l, a) && l.fut != Expired && l.fut != TimedOut
    ensures var e := EffectOf(l, a, present); e.life.fut != Expired && e.life.fut != TimedOut
  {
  }

  /** A step leaves the pools and the counters of the other ranks alone. */
  lemma OthersUntouched(s: System, a: Action, k: nat)
    requires Inv(s) && QuietStep(s, a) && k < s.n && k != ActorOf(s, a)
    ensures Next(s, a).sent[k] == s.sent[k] && Next(s, a).recv[k] == s.recv[k]
    ensures Idle(s, k) ==> Idle(Next(s, a), k)
  {
    hide EffectOf, ActiveAt, Legal, Remove, Insert, TablesOk, CompletedOk, CountsOk;
    if a.Issue? {
      NewIsOwn(a.rank, s.nextIds[a.rank] + 1, a.to, k);
    } else {
      assert Coherent(s.lives[a.tok]);
      EffectIsOwn(s.lives[a.tok], a, InTable(s, a.tok), ActorOf(s, a), k);
    }
  }

  lemma NewIsOwn(r: nat, id: nat, d: nat, k: nat)
    requires k != r
    ensures !ActiveAt(Token(r, id), Life(d, Queued, NotYet, Pending), k)
  {
  }

  /** The rank that takes a step moves only its own counters and gives work to no other pool. */
  lemma EffectIsOwn(l: Life, a: Action, present: bool, actor: nat, k: nat)
    requires !a.Issue? && !a.ExpireAt? && Coherent(l) && Legal(l, a) && k != actor
    requires actor == match a
                      case AdvanceReq(tok) => if l.req.Queued? || l.req.Counted? then tok.rank else l.dst
                      case AdvanceResp(tok) => if l.resp.Queued? || l.resp.Counted? then l.dst else tok.rank
                      case Respond(_) => l.dst
                      case FailResp(_) => l.dst
                      case _ => a.tok.rank
    ensures var e := EffectOf(l, a, present);
            && (e.sentBy == Issuer || e.recvBy == Issuer ==> actor == a.tok.rank)
            && (e.sentBy == Server || e.recvBy == Server ==> actor == l.dst)
            && e.life.dst == l.dst && (!ActiveAt(a.tok, l, k) ==> !ActiveAt(a.tok, e.life, k))
  {
  }

  /** The message, on its way from `j` to `i`, that a listener is about to hand to an idle pool. */
  ghost predicate Arriving(s: System, j: nat, i: nat) {
    exists tok :: tok in s.lives && ((tok.rank == j && s.lives[tok].dst == i && s.lives[tok].req == Wire)
                                     || (tok.rank == i && s.lives[tok].dst == j && s.lives[tok].resp == Wire))
  }

  lemma IdleRanksOnlyReceive(s: System, a: Action)
    requires Inv(s) && NoTimeouts(s) && QuietStep(s, a) && Idle(s, ActorOf(s, a))
    ensures exists j: nat :: j < s.n && Arriving(s, j, ActorOf(s, a))
  {
    if !a.Issue? && !a.Respond? {
      var tok := a.tok;
      var l := s.lives[tok];
      assert !ActiveAt(tok, l, ActorOf(s, a));
      var j := if a.AdvanceReq? then tok.rank else l.dst;
      assert Arriving(s, j, ActorOf(s, a));
    }
  }

  lemma ArrivingDifferences(s: System, j: nat, i: nat)
    requires Coupled(s) && NoTimeouts(s) && Arriving(s, j, i)
    ensures Sel(s.lives, RespDone, i, j) <= Sel(s.lives, RespSent, i, j)
    ensures || Sel(s.lives, ReqSent, j, i) - Sel(s.lives, ReqDone, j, i) != {}
            || Sel(s.lives, RespSent, i, j) - Sel(s.lives, RespDone, i, j) != {}
  {
    var tok :| tok in s.lives && ((tok.rank == j && s.lives[tok].dst == i && s.lives[tok].req == Wire)
                                  || (tok.rank == i && s.lives[tok].dst == j && s.lives[tok].resp == Wire));
    if s.lives[tok].req == Wire && tok.rank == j && s.lives[tok].dst == i {
      assert tok in Sel(s.lives, ReqSent, j, i) - Sel(s.lives, ReqDone, j, i);
    } else {
      assert tok in Sel(s.lives, RespSent, i, j) - Sel(s.lives, RespDone, i, j);
    }
  }

  lemma ArrivingMeansGap(s: System, j: nat, i: nat)
    requires Inv(s) && NoTimeouts(s) && i < s.n && j < s.n && Arriving(s, j, i)
    ensures s.sent[j][i] > s.recv[i][j]
  {
    CountGap(s, i, j);
    ArrivingDifferences(s, j, i);
    assert Sel(s.lives, RespDone, i, j) - Sel(s.lives, RespSent, i, j) == {};
  }

  // ---------------------------------------------------------------- the detector

  ghost predicate AllShaped(states: seq<System>) {
    forall t :: 0 <= t < |states| ==> Inv(states[t]) && states[t].n == states[0].n
  }

  lemma AllInv(states: seq<System>, acts: seq<Action>)
    requires IsRun(states, acts)
    ensures AllShaped(states)
  {
    forall t | 0 <= t < |states| ensures Inv(states[t]) && states[t].n == states[0].n { RunInv(states, acts, t); }
  }

  /** The counter rows of rank `k` at time `t`. */
  ghost function SentRow(states: seq<System>, t: nat, k: nat): seq<nat>
    requires AllShaped(states) && t < |states| && k < states[0].n
    ensures |SentRow(states, t, k)| == states[0].n
  {
    assert Inv(states[t]);
    states[t].sent[k]
  }

  ghost function RecvRow(states: seq<System>, t: nat, k: nat): seq<nat>
    requires AllShaped(states) && t < |states| && k < states[0].n
    ensures |RecvRow(states, t, k)| == states[0].n
  {
    assert Inv(states[t]);
    states[t].recv[k]
  }

  lemma SentStep(s: System, a: Action, i: nat, j: nat)
    requires Inv(s) && Enabled(s, a) && Shape(Next(s, a)) && i < s.n && j < s.n && Next(s, a).n == s.n
    ensures s.sent[i][j] <= Next(s, a).sent[i][j]
  {
  }

  lemma ShapedAt(states: seq<System>, t: nat)
    requires AllShaped(states) && t < |states|
    ensures Inv(states[t]) && Shape(states[t]) && states[t].n == states[0].n
  {
  }

  /** The counters never go down. */
  lemma {:induction false} SentGrows(states: seq<System>, acts: seq<Action>, t: nat, u: nat, i: nat, j: nat)
    requires IsRun(states, acts) && AllShaped(states) && t <= u < |states| && i < states[0].n && j < states[0].n
    ensures SentRow(states, t, i)[j] <= SentRow(states, u, i)[j]
    decreases u
  {
    hide Inv, Next, Enabled;
    if t < u {
      SentGrows(states, acts, t, u - 1, i, j);
      ShapedAt(states, u - 1);
      ShapedAt(states, u);
      SentStep(states[u - 1], acts[u - 1], i, j);
    }
  }

  /** The cut: rank `k` reads its receive counters at time `recvAt[k]` and its send counters no
      earlier, at `sendAt[k]`, which is the order in `hasPendingMessage`. */
  ghost predicate IsCut(states: seq<System>, recvAt: seq<nat>, sendAt: seq<nat>) {
    && |states| > 0 && |recvAt| == |sendAt| == states[0].n
    && forall k :: 0 <= k < states[0].n ==> recvAt[k] <= sendAt[k] < |states|
  }

  /** The counters that the allgather exchanges agree for every pair of ranks. */
  ghost predicate CountsMatch(states: seq<System>, recvAt: seq<nat>, sendAt: seq<nat>)
    requires AllShaped(states) && IsCut(states, recvAt, sendAt)
  {
    forall from, to :: 0 <= from < states[0].n && 0 <= to < states[0].n ==>
      SentRow(states, sendAt[from], from)[to] == RecvRow(states, recvAt[to], to)[from]
  }

  /** At time `t`, no earlier than its receive snapshot, rank `k` has done nothing since. */
  ghost predicate FrozenAt(states: seq<System>, recvAt: seq<nat>, k: nat, t: nat)
    requires AllShaped(states) && t < |states| && k < |recvAt| && recvAt[k] < |states| && k < states[0].n
  {
    && Idle(states[t], k)
    && SentRow(states, t, k) == SentRow(states, recvAt[k], k)
    && RecvRow(states, t, k) == RecvRow(states, recvAt[k], k)
  }

  ghost predicate AllFrozen(states: seq<System>, recvAt: seq<nat>, sendAt: seq<nat>, t: nat)
    requires AllShaped(states) && IsCut(states, recvAt, sendAt) && t < |states|
  {
    forall k :: 0 <= k < states[0].n && recvAt[k] <= t ==> FrozenAt(states, recvAt, k, t)
  }

  ghost predicate IdleAtSnapshot(states: seq<System>, recvAt: seq<nat>, sendAt: seq<nat>)
    requires IsCut(states, recvAt, sendAt)
  {
    forall k :: 0 <= k < states[0].n ==> Idle(states[recvAt[k]], k)
  }

  lemma {:induction false} StaysQuiet(states: seq<System>, acts: seq<Action>, t: nat)
    requires IsQuietRun(states, acts) && AllShaped(states) && t < |states|
    ensures NoTimeouts(states[t])
  {
    hide Inv, Next, QuietStep;
    if t > 0 {
      StaysQuiet(states, acts, t - 1);
      NoTimeoutsKept(states[t - 1], acts[t - 1]);
    }
  }

  lemma SentBeforeSnapshot(states: seq<System>, acts: seq<Action>, recvAt: seq<nat>, sendAt: seq<nat>, t: nat, j: nat, k: nat)
    requires IsRun(states, acts) && AllShaped(states) && IsCut(states, recvAt, sendAt)
    requires t < |states| && j < states[0].n && k < states[0].n && AllFrozen(states, recvAt, sendAt, t)
    ensures SentRow(states, t, j)[k] <= SentRow(states, sendAt[j], j)[k]
  {
    if recvAt[j] <= t {
      assert FrozenAt(states, recvAt, j, t);
      SentGrows(states, acts, recvAt[j], sendAt[j], j, k);
    } else {
      SentGrows(states, acts, t, sendAt[j], j, k);
    }
  }

  /** A rank past its receive snapshot has booked everything that was sent to it so far. */
  lemma NoArrival(states: seq<System>, acts: seq<Action>, recvAt: seq<nat>, sendAt: seq<nat>, t: nat, j: nat, k: nat)
    requires IsQuietRun(states, acts) && AllShaped(states) && IsCut(states, recvAt, sendAt)
    requires CountsMatch(states, recvAt, sendAt) && t < |states| && AllFrozen(states, recvAt, sendAt, t)
    requires j < states[0].n && k < states[0].n && recvAt[k] <= t
    ensures !Arriving(states[t], j, k)
  {
    SentBeforeSnapshot(states, acts, recvAt, sendAt, t, j, k);
    assert FrozenAt(states, recvAt, k, t);
    assert SentRow(states, sendAt[j], j)[k] == RecvRow(states, recvAt[k], k)[j];
    StaysQuiet(states, acts, t);
    if Arriving(states[t], j, k) { ArrivingMeansGap(states[t], j, k); }
  }

  /** So it cannot act again: an idle rank acts only by receiving. */
  lemma SnapshottedRankCannotAct(states: seq<System>, acts: seq<Action>, recvAt: seq<nat>, sendAt: seq<nat>, t: nat)
    requires IsQuietRun(states, acts) && AllShaped(states) && IsCut(states, recvAt, sendAt)
    requires CountsMatch(states, recvAt, sendAt) && t < |acts| && AllFrozen(states, recvAt, sendAt, t)
    ensures var k := ActorOf(states[t], acts[t]); k < states[0].n && t < recvAt[k]
  {
    var k := ActorOf(states[t], acts[t]);
    if recvAt[k] <= t {
      forall j: nat | j < states[0].n ensures !Arriving(states[t], j, k) {
        NoArrival(states, acts, recvAt, sendAt, t, j, k);
      }
      assert FrozenAt(states, recvAt, k, t);
      StaysQuiet(states, acts, t);
      IdleRanksOnlyReceive(states[t], acts[t]);
    }
  }

  lemma {:induction false} Freeze(states: seq<System>, acts: seq<Action>, recvAt: seq<nat>, sendAt: seq<nat>, t: nat)
    requires IsQuietRun(states, acts) && AllShaped(states) && IsCut(states, recvAt, sendAt)
    requires CountsMatch(states, recvAt, sendAt) && IdleAtSnapshot(states, recvAt, sendAt) && t < |states|
    ensures AllFrozen(states, recvAt, sendAt, t)
  {
    hide Inv, Next, QuietStep, Idle, CountsMatch, ActorOf;
    if t > 0 {
      Freeze(states, acts, recvAt, sendAt, t - 1);
      SnapshottedRankCannotAct(states, acts, recvAt, sendAt, t - 1);
    }
    forall k | 0 <= k < states[0].n && recvAt[k] <= t ensures FrozenAt(states, recvAt, k, t) {
      if recvAt[k] < t {
        assert FrozenAt(states, recvAt, k, t - 1);
        StillFrozen(states, acts, recvAt, k, t);
      }
    }
  }

  lemma StillFrozen(states: seq<System>, acts: seq<Action>, recvAt: seq<nat>, k: nat, t: nat)
    requires IsQuietRun(states, acts) && AllShaped(states) && 0 < t < |states| && k < states[0].n == |recvAt| && recvAt[k] < t
    requires FrozenAt(states, recvAt, k, t - 1) && ActorOf(states[t - 1], acts[t - 1]) != k
    ensures FrozenAt(states, recvAt, k, t)
  {
    hide Inv, Next, Idle, ActorOf;
    ShapedAt(states, t - 1);
    OthersUntouched(states[t - 1], acts[t - 1], k);
  }

  lemma NothingArrives(states: seq<System>, acts: seq<Action>, recvAt: seq<nat>, sendAt: seq<nat>, t: nat)
    requires IsQuietRun(states, acts) && IsCut(states, recvAt, sendAt) && AllShaped(states)
    requires CountsMatch(states, recvAt, sendAt) && t < |states| && AllFrozen(states, recvAt, sendAt, t)
    requires forall k :: 0 <= k < states[0].n ==> recvAt[k] <= t
    ensures NothingOnTheWire(states[t])
  {
    var s := states[t];
    forall j, k | 0 <= j < s.n && 0 <= k < s.n ensures !Arriving(s, j, k) {
      NoArrival(states, acts, recvAt, sendAt, t, j, k);
    }
    forall tok | tok in s.lives ensures s.lives[tok].req != Wire && s.lives[tok].resp != Wire {
      assert !Arriving(s, tok.rank, s.lives[tok].dst) && !Arriving(s, s.lives[tok].dst, tok.rank);
    }
  }

  lemma QuiescentIsFinal(s: System, a: Action)
    requires Inv(s) && NoTimeouts(s) && Quiescent(s)
    ensures !QuietStep(s, a)
  {
    if QuietStep(s, a) {
      IdleRanksOnlyReceive(s, a);
    }
  }

  /** The counters gathered in a run agree for every pair of ranks. */
  ghost predicate Matched(states: seq<System>, acts: seq<Action>, recvAt: seq<nat>, sendAt: seq<nat>)
    requires IsRun(states, acts) && IsCut(states, recvAt, sendAt)
  {
    AllInv(states, acts);
    CountsMatch(states, recvAt, sendAt)
  }

  /** Soundness of termination detection. Take any timeout-free run in which every rank's pool is idle
      when it reads its receive counters. If all pairwise counts match, then from the moment every rank
      has read them on, no pool has a task, nothing is on the wire, and no step is ever taken again,
      although the ranks read their counters at different times and messages may overtake each other. */
  lemma TerminationDetectionIsSound(states: seq<System>, acts: seq<Action>, recvAt: seq<nat>, sendAt: seq<nat>, t: nat)
    requires IsQuietRun(states, acts) && IsCut(states, recvAt, sendAt)
    requires IdleAtSnapshot(states, recvAt, sendAt) && Matched(states, acts, recvAt, sendAt)
    requires t < |states| && forall k :: 0 <= k < states[0].n ==> recvAt[k] <= t
    ensures Quiescent(states[t]) && t == |acts|
    ensures !exists a :: QuietStep(states[t], a)
  {
    AllInv(states, acts);
    Freeze(states, acts, recvAt, sendAt, t);
    StaysQuiet(states, acts, t);
    forall k | 0 <= k < states[0].n ensures Idle(states[t], k) { assert FrozenAt(states, recvAt, k, t); }
    if t < |acts| {
      SnapshottedRankCannotAct(states, acts, recvAt, sendAt, t);
    }
    NothingArrives(states, acts, recvAt, sendAt, t);
    forall a ensures !QuietStep(states[t], a) { QuiescentIsFinal(states[t], a); }
  }

  /** A thread of the rank can take a step. */
  ghost predicate CanAct(s: System, k: nat) { exists a :: QuietStep(s, a) && ActorOf(s, a) == k }

  /** A pool that holds a task can run it: nothing a task does has to wait for another rank. */
  lemma ActiveCanAct(s: System, k: nat)
    requires !Idle(s, k)
    ensures CanAct(s, k)
  {
    var tok :| tok in s.lives && ActiveAt(tok, s.lives[tok], k);
    var l := s.lives[tok];
    var a :=
      if tok.rank == k && (l.req.Queued? || l.req.Counted?) then AdvanceReq(tok)
      else if tok.rank == k && (l.resp.Delivered? || l.resp.Running? || l.resp.Finished?) then AdvanceResp(tok)
      else if tok.rank == k && l.fut.Failing? then Settle(tok)
      else if l.req.Delivered? || l.req.Running? || l.req.Finished? then AdvanceReq(tok)
      else AdvanceResp(tok);
    assert QuietStep(s, a) && ActorOf(s, a) == k;
  }

  lemma FrozenCannotAct(states: seq<System>, acts: seq<Action>, recvAt: seq<nat>, sendAt: seq<nat>, t: nat, k: nat)
    requires IsQuietRun(states, acts) && AllShaped(states) && IsCut(states, recvAt, sendAt)
    requires CountsMatch(states, recvAt, sendAt) && IdleAtSnapshot(states, recvAt, sendAt)
    requires k < states[0].n && recvAt[k] <= t < |states|
    ensures !CanAct(states[t], k)
  {
    Freeze(states, acts, recvAt, sendAt, t);
    assert FrozenAt(states, recvAt, k, t);
    StaysQuiet(states, acts, t);
    forall j: nat | j < states[0].n ensures !Arriving(states[t], j, k) { NoArrival(states, acts, recvAt, sendAt, t, j, k); }
    forall a | QuietStep(states[t], a) ensures ActorOf(states[t], a) != k {
      if ActorOf(states[t], a) == k { IdleRanksOnlyReceive(states[t], a); }
    }
  }

  /** The idle-pool hypothesis is exact: with matching counts, no rank can take a step at its receive snapshot
      or at any later time if and only if every pool was idle at that snapshot. */
  lemma NobodyCanActIffIdleAtSnapshot(states: seq<System>, acts: seq<Action>, recvAt: seq<nat>, sendAt: seq<nat>)
    requires IsQuietRun(states, acts) && IsCut(states, recvAt, sendAt) && Matched(states, acts, recvAt, sendAt)
    ensures IdleAtSnapshot(states, recvAt, sendAt)
       <==> forall k, t :: 0 <= k < states[0].n && recvAt[k] <= t < |states| ==> !CanAct(states[t], k)
  {
    AllInv(states, acts);
    if IdleAtSnapshot(states, recvAt, sendAt) {
      forall k, t | 0 <= k < states[0].n && recvAt[k] <= t < |states| ensures !CanAct(states[t], k) {
        FrozenCannotAct(states, acts, recvAt, sendAt, t, k);
      }
    } else {
      var k :| 0 <= k < states[0].n && !Idle(states[recvAt[k]], k);
      ActiveCanAct(states[recvAt[k]], k);
    }
  }

  /** The comparison at the end of `hasPendingMessage`: row `x` of each matrix came from rank `x`. */
  method HasPendingMessage(recvSnapshots: seq<seq<nat>>, sendSnapshots: seq<seq<nat>>) returns (pending: bool)
    requires |recvSnapshots| == |sendSnapshots|
    requires forall x :: 0 <= x < |recvSnapshots| ==> |recvSnapshots[x]| == |sendSnapshots[x]| == |recvSnapshots|
    ensures pending <==> exists from, to :: 0 <= from < |recvSnapshots| && 0 <= to < |recvSnapshots|
                                            && sendSnapshots[from][to] != recvSnapshots[to][from]
  {
    var worldSize := |recvSnapshots|;
    for from := 0 to worldSize
      invariant forall f, t :: 0 <= f < from && 0 <= t < worldSize ==> sendSnapshots[f][t] == recvSnapshots[t][f]
    {
      for to := 0 to worldSize
        invariant forall t :: 0 <= t < to ==> sendSnapshots[from][t] == recvSnapshots[t][from]
      {
        var sentCnt, recvCnt := sendSnapshots[from][to], recvSnapshots[to][from];
        if sentCnt != recvCnt { return true; }
      }
    }
    return false;
  }

  /** What the allgather collects: row `x` of each matrix is a snapshot of rank `x`. */
  ghost predicate Gathered(states: seq<System>, acts: seq<Action>, recvAt: seq<nat>, sendAt: seq<nat>,
                           recvSnapshots: seq<seq<nat>>, sendSnapshots: seq<seq<nat>>)
    requires IsRun(states, acts) && IsCut(states, recvAt, sendAt)
  {
    AllInv(states, acts);
    && |recvSnapshots| == |sendSnapshots| == states[0].n
    && (forall x :: 0 <= x < states[0].n ==>
          recvSnapshots[x] == RecvRow(states, recvAt[x], x) && sendSnapshots[x] == SentRow(states, sendAt[x], x))
  }

  /** The last round of `sync`: once the comparison of the gathered snapshots finds no difference, on any rank,
      the job has terminated. */
  method SyncRound(ghost states: seq<System>, ghost acts: seq<Action>, ghost recvAt: seq<nat>, ghost sendAt: seq<nat>,
                   recvSnapshots: seq<seq<nat>>, sendSnapshots: seq<seq<nat>>) returns (pending: bool)
    requires IsQuietRun(states, acts) && IsCut(states, recvAt, sendAt) && IdleAtSnapshot(states, recvAt, sendAt)
    requires Gathered(states, acts, recvAt, sendAt, recvSnapshots, sendSnapshots)
    ensures pending <==> !Matched(states, acts, recvAt, sendAt)
    ensures !pending ==> forall t :: 0 <= t < |states| && (forall k :: 0 <= k < states[0].n ==> recvAt[k] <= t) ==> Quiescent(states[t])
  {
    hide IsQuietRun, Inv, Idle, Quiescent;
    AllInvQuiet(states, acts);
    pending := HasPendingMessage(recvSnapshots, sendSnapshots);
    GatheredMatch(states, acts, recvAt, sendAt, recvSnapshots, sendSnapshots);
    if !pending {
      forall t | 0 <= t < |states| && forall k :: 0 <= k < states[0].n ==> recvAt[k] <= t ensures Quiescent(states[t]) {
        TerminationDetectionIsSound(states, acts, recvAt, sendAt, t);
      }
    }
  }

  lemma AllInvQuiet(states: seq<System>, acts: seq<Action>)
    requires IsQuietRun(states, acts)
    ensures IsRun(states, acts) && AllShaped(states)
  {
    AllInv(states, acts);
  }

  /** The gathered matrices agree exactly if the counters do. */
  lemma GatheredMatch(states: seq<System>, acts: seq<Action>, recvAt: seq<nat>, sendAt: seq<nat>,
                      recvSnapshots: seq<seq<nat>>, sendSnapshots: seq<seq<nat>>)
    requires IsRun(states, acts) && IsCut(states, recvAt, sendAt)
    requires Gathered(states, acts, recvAt, sendAt, recvSnapshots, sendSnapshots)
    ensures forall x :: 0 <= x < |recvSnapshots| ==> |recvSnapshots[x]| == |sendSnapshots[x]| == |recvSnapshots|
    ensures Matched(states, acts, recvAt, sendAt) <==>
            !exists from, to :: 0 <= from < |recvSnapshots| && 0 <= to < |recvSnapshots| && sendSnapshots[from][to] != recvSnapshots[to][from]
  {
    AllInv(states, acts);
    forall x | 0 <= x < states[0].n ensures |recvSnapshots[x]| == |sendSnapshots[x]| == states[0].n {
      assert recvSnapshots[x] == RecvRow(states, recvAt[x], x) && sendSnapshots[x] == SentRow(states, sendAt[x], x);
    }
  }
}
