/** The request/response protocol of the RPC agents of one job, as a step relation.

    A `Token` is one request, named by its issuing rank and request id; its `Life` says where the
    request, its response and its future are. Every step of every thread (application, pool worker,
    listener, watchdog) is one `Action`, so a run is any interleaving of them. */
module RpcSystem {
  import opened FutureTable

  datatype Token = Token(rank: nat, id: nat)

  /** Where a message is: queued in the sender's pool; booked in `sendCounts_` but not handed to the
      process group; on the wire (or in the listener's hands); queued in the receiver's pool; being
      handled; handled but not booked in `recvCounts_`; booked. `Unsent` messages failed to serialize;
      a `Dropped` response arrived when its future was gone. */
  datatype Stage = NotYet | Queued | Counted | Wire | Delivered | Running | Finished | Retired | Unsent | Dropped

  /** `Pending` futures are those in `futures_`. `Taken`, `Expired` and `Failing` ones were removed by
      the receiver, the watchdog and the error path; `Answered`, `TimedOut`, `Errored` are completed. */
  datatype Outcome = Pending | Taken | Answered | Expired | TimedOut | Failing | Errored

  datatype Life = Life(dst: nat, req: Stage, resp: Stage, fut: Outcome)

  /** `sent[i][j]` and `recv[i][j]` are entry `j` of the counters of rank `i`. */
  datatype System = System(n: nat, lives: map<Token, Life>, tables: seq<Table>, nextIds: seq<nat>,
                           sent: seq<seq<nat>>, recv: seq<seq<nat>>, completed: seq<Token>)

  datatype Action =
    | Issue(rank: nat, to: nat, endTime: nat, timeout: nat)
    | AdvanceReq(tok: Token)
    | Fail(tok: Token)
    | Respond(tok: Token)
    | AdvanceResp(tok: Token)
    | FailResp(tok: Token)
    | ExpireAt(rank: nat, now: nat)
    | Settle(tok: Token)

  function Init(n: nat): System {
    System(n, map[], seq(n, _ => Table(map[], map[])), seq(n, _ => 0),
           seq(n, _ => seq(n, _ => 0)), seq(n, _ => seq(n, _ => 0)), [])
  }

  // ---------------------------------------------------------------- steps

  predicate Moving(st: Stage) { st.Queued? || st.Counted? || st.Wire? || st.Delivered? || st.Running? || st.Finished? }

  /** A message to oneself goes from the send task straight to the receive task. */
  function Onward(st: Stage, toSelf: bool): Stage
    requires Moving(st)
  {
    match st
    case Queued => Counted
    case Counted => if toSelf then Delivered else Wire
    case Wire => Delivered
    case Delivered => Running
    case Running => Finished
    case Finished => Retired
  }

  predicate Enabled(s: System, a: Action) {
    match a
    case Issue(r, d, _, _) => r < s.n && d < s.n
    case ExpireAt(r, now) => r < s.n && now < INFINITE
    case _ => a.tok in s.lives && Legal(s.lives[a.tok], a)
  }

  function Bump(c: seq<seq<nat>>, i: nat, j: nat): seq<seq<nat>>
    requires i < |c| && j < |c[i]|
  {
    c[i := c[i][j := c[i][j] + 1]]
  }

  ghost predicate Shape(s: System) {
    && |s.tables| == |s.nextIds| == |s.sent| == |s.recv| == s.n
    && (forall i :: 0 <= i < s.n ==> |s.sent[i]| == |s.recv[i]| == s.n)
    && (forall tok :: tok in s.lives ==> tok.rank < s.n && s.lives[tok].dst < s.n && 1 <= tok.id <= s.nextIds[tok.rank])
  }

  /** What a step on one request does: its new life, whether its future leaves `futures_`, which
      counters move (by the issuing rank, or by the serving rank), and whether the future completes. */
  datatype Mover = Nobody | Issuer | Server
  datatype Effect = Effect(life: Life, take: bool, sentBy: Mover, recvBy: Mover, done: bool)

  /** A step on the request message: `sendCounts_` moves before the message leaves the sender, and
      `recvCounts_` after the receiver has handled it. */
  function ReqEffect(l: Life, toSelf: bool): Effect
    requires Moving(l.req)
  {
    Effect(l.(req := Onward(l.req, toSelf)), false,
           if l.req == Queued then Issuer else Nobody, if l.req == Finished then Server else Nobody, false)
  }

  /** A queued request fails to serialize: its future is failed if it is still there. */
  function FailEffect(l: Life, present: bool): Effect {
    if present then Effect(l.(req := Unsent, fut := Failing), true, Nobody, Nobody, false)
    else Effect(l.(req := Unsent), false, Nobody, Nobody, false)
  }

  /** So does a queued response to oneself. (To anybody else the error is sent in its place.) */
  function FailRespEffect(l: Life, present: bool): Effect {
    if present then Effect(l.(resp := Unsent, fut := Failing), true, Nobody, Nobody, false)
    else Effect(l.(resp := Unsent), false, Nobody, Nobody, false)
  }

  /** A step on the response message: the receiver looks its future up, drops the response if the
      future is gone, and otherwise completes the future and books the receive. */
  function RespEffect(l: Life, toSelf: bool, present: bool): Effect
    requires Moving(l.resp)
  {
    var moved := l.(resp := Onward(l.resp, toSelf));
    match l.resp
    case Queued => Effect(moved, false, Server, Nobody, false)
    case Delivered =>
      if present then Effect(l.(resp := Running, fut := Taken), true, Nobody, Nobody, false)
      else Effect(l.(resp := Dropped), false, Nobody, Nobody, false)
    case Running => Effect(moved.(fut := Answered), false, Nobody, Nobody, true)
    case Finished => Effect(moved, false, Nobody, Issuer, false)
    case _ => Effect(moved, false, Nobody, Nobody, false)
  }

  /** The remover of a future completes it; the watchdog also books the receive. */
  function SettleEffect(l: Life): Effect {
    if l.fut == Expired then Effect(l.(fut := TimedOut), false, Nobody, Issuer, true)
    else Effect(l.(fut := Errored), false, Nobody, Nobody, true)
  }

  predicate Legal(l: Life, a: Action) {
    match a
    case AdvanceReq(_) => Moving(l.req)
    case Fail(_) => l.req == Queued
    case Respond(_) => l.resp == NotYet && (l.req.Running? || l.req.Finished? || l.req.Retired?)
    case AdvanceResp(_) => Moving(l.resp)
    case FailResp(tok) => l.resp == Queued && tok.rank == l.dst
    case Settle(_) => (l.fut.Expired? || l.fut.Failing?)
    case _ => false
  }

  function EffectOf(l: Life, a: Action, present: bool): Effect
    requires Legal(l, a)
  {
    match a
    case AdvanceReq(tok) => ReqEffect(l, tok.rank == l.dst)
    case Fail(_) => FailEffect(l, present)
    case Respond(_) => Effect(l.(resp := Queued), false, Nobody, Nobody, false)
    case AdvanceResp(tok) => RespEffect(l, tok.rank == l.dst, present)
    case FailResp(_) => FailRespEffect(l, present)
    case Settle(_) => SettleEffect(l)
  }

  function BumpBy(c: seq<seq<nat>>, who: Mover, issuer: nat, server: nat): seq<seq<nat>>
    requires issuer < |c| && server < |c| && issuer < |c[server]| && server < |c[issuer]|
  {
    match who
    case Nobody => c
    case Issuer => Bump(c, issuer, server)
    case Server => Bump(c, server, issuer)
  }

  ghost function Apply(s: System, tok: Token, e: Effect): System
    requires Shape(s) && tok in s.lives && (e.take ==> tok.id in s.tables[tok.rank].futures)
  {
    var d := s.lives[tok].dst;
    s.(lives := s.lives[tok := e.life],
       tables := if e.take then s.tables[tok.rank := Remove(s.tables[tok.rank], tok.id)] else s.tables,
       sent := BumpBy(s.sent, e.sentBy, tok.rank, d),
       recv := BumpBy(s.recv, e.recvBy, tok.rank, d),
       completed := if e.done then s.completed + [tok] else s.completed)
  }

  /** `send` of a request: a fresh id, a future in both maps, and a queued send task. */
  ghost function IssueStep(s: System, r: nat, d: nat, endTime: nat, timeout: nat): System
    requires Shape(s) && r < s.n && d < s.n
  {
    var id := s.nextIds[r] + 1;
    s.(lives := s.lives[Token(r, id) := Life(d, Queued, NotYet, Pending)],
       nextIds := s.nextIds[r := id],
       tables := s.tables[r := Insert(s.tables[r], id, FutureInfo(id, endTime, d, timeout))])
  }

  predicate Due(s: System, r: nat, now: nat, tok: Token) {
    && r < |s.tables| && tok.rank == r && tok.id in s.tables[r].futures && s.tables[r].futures[tok.id].endTime <= now
  }

  ghost function ExpireStep(s: System, r: nat, now: nat): System
    requires Shape(s) && r < s.n
  {
    s.(lives := map tok | tok in s.lives ::
                  if Due(s, r, now, tok) then s.lives[tok].(fut := Expired) else s.lives[tok],
       tables := s.tables[r := Expire(s.tables[r], now)])
  }

  ghost predicate InTable(s: System, tok: Token)
    requires Shape(s) && tok in s.lives
  {
    tok.id in s.tables[tok.rank].futures
  }

  ghost function Next(s: System, a: Action): System
    requires Shape(s) && Enabled(s, a)
  {
    match a
    case Issue(r, d, e, t) => IssueStep(s, r, d, e, t)
    case ExpireAt(r, now) => ExpireStep(s, r, now)
    case _ => Apply(s, a.tok, EffectOf(s.lives[a.tok], a, InTable(s, a.tok)))
  }

  // ---------------------------------------------------------------- invariant

  /** How the three stages of one request fit together. */
  predicate Coherent(l: Life) {
    && l.req != NotYet
    && (l.resp != NotYet ==> (l.req.Running? || l.req.Finished? || l.req.Retired?))
    && (l.resp == Running <==> l.fut == Taken)
    && ((l.resp.Finished? || l.resp.Retired?) <==> l.fut == Answered)
    && l.req != Dropped && (l.resp == Dropped ==> (l.fut.Expired? || l.fut.TimedOut?))
    && ((l.fut.Failing? || l.fut.Errored?) ==> l.req == Unsent || l.resp == Unsent)
    && (l.req == Unsent || l.resp == Unsent ==> l.fut != Pending)
  }

  ghost predicate Coupled(s: System) { forall tok :: tok in s.lives ==> Coherent(s.lives[tok]) }

  ghost predicate PendingIn(s: System, r: nat, id: nat) {
    Token(r, id) in s.lives && s.lives[Token(r, id)].fut == Pending
  }

  /** Both maps of each agent are in sync, and they hold exactly the pending futures. */
  ghost predicate TableAt(s: System, r: nat)
    requires Shape(s) && r < s.n
  {
    && InSync(s.tables[r])
    && forall id: nat :: id in s.tables[r].futures <==> PendingIn(s, r, id)
  }

  ghost predicate TablesOk(s: System)
    requires Shape(s)
  {
    forall r :: 0 <= r < s.n ==> TableAt(s, r)
  }

  predicate Ended(f: Outcome) { f.Answered? || f.TimedOut? || f.Errored? }

  /** A future is listed as completed once it has an outcome, and never twice. */
  ghost predicate CompletedOk(s: System) {
    && (forall i :: 0 <= i < |s.completed| ==> s.completed[i] in s.lives && Ended(s.lives[s.completed[i]].fut))
    && (forall tok :: tok in s.lives && Ended(s.lives[tok].fut) ==> tok in s.completed)
    && (forall i, j :: 0 <= i < j < |s.completed| ==> s.completed[i] != s.completed[j])
  }

  // The four sets the counters count.
  datatype Kind = ReqSent | ReqDone | RespSent | RespDone

  predicate Has(k: Kind, l: Life) {
    match k
    case ReqSent => !(l.req.NotYet? || l.req.Queued? || l.req.Unsent?)
    case ReqDone => l.req == Retired
    case RespSent => !(l.resp.NotYet? || l.resp.Queued? || l.resp.Unsent?)
    case RespDone => l.resp == Retired || l.fut == TimedOut
  }

  ghost function Sel(lives: map<Token, Life>, k: Kind, src: nat, dst: nat): set<Token> {
    set tok | tok in lives && tok.rank == src && lives[tok].dst == dst && Has(k, lives[tok])
  }

  /** Messages rank `i` has sent to `j`: its requests to `j`, and its responses to requests of `j`. */
  ghost function SentCount(lives: map<Token, Life>, i: nat, j: nat): nat {
    |Sel(lives, ReqSent, i, j)| + |Sel(lives, RespSent, j, i)|
  }

  /** Messages rank `i` has booked as received from `j`. */
  ghost function RecvCount(lives: map<Token, Life>, i: nat, j: nat): nat {
    |Sel(lives, ReqDone, j, i)| + |Sel(lives, RespDone, i, j)|
  }

  ghost predicate CountsAt(s: System, i: nat, j: nat)
    requires Shape(s) && i < s.n && j < s.n
  {
    s.sent[i][j] == SentCount(s.lives, i, j) && s.recv[i][j] == RecvCount(s.lives, i, j)
  }

  ghost predicate CountsOk(s: System)
    requires Shape(s)
  {
    forall i, j :: 0 <= i < s.n && 0 <= j < s.n ==> CountsAt(s, i, j)
  }

  ghost predicate Inv(s: System) {
    Shape(s) && Coupled(s) && TablesOk(s) && CompletedOk(s) && CountsOk(s)
  }

  lemma InitInv(n: nat)
    ensures Inv(Init(n))
  {
  }

  // ---------------------------------------------------------------- preservation

  /** What every effect respects, by inspection of one life. */
  predicate Sensible(l: Life, e: Effect) {
    && Coherent(e.life) && e.life.dst == l.dst
    && (e.take <==> l.fut == Pending && e.life.fut != Pending) && (e.life.fut == Pending ==> l.fut == Pending)
    && (e.done <==> Ended(e.life.fut) && !Ended(l.fut)) && (Ended(l.fut) ==> Ended(e.life.fut))
    && (forall k :: Has(k, l) ==> Has(k, e.life))
    && (e.sentBy == Issuer <==> Has(ReqSent, e.life) && !Has(ReqSent, l))
    && (e.sentBy == Server <==> Has(RespSent, e.life) && !Has(RespSent, l))
    && (e.recvBy == Server <==> Has(ReqDone, e.life) && !Has(ReqDone, l))
    && (e.recvBy == Issuer <==> Has(RespDone, e.life) && !Has(RespDone, l))
  }

  lemma EffectsSensible(l: Life, a: Action, present: bool)
    requires Coherent(l) && Legal(l, a) && (present <==> l.fut == Pending)
    ensures Sensible(l, EffectOf(l, a, present))
  {
  }

  lemma PresentIff(s: System, tok: Token)
    requires Shape(s) && TablesOk(s) && tok in s.lives
    ensures InTable(s, tok) <==> s.lives[tok].fut == Pending
  {
    assert TableAt(s, tok.rank);
    assert tok.id in s.tables[tok.rank].futures <==> PendingIn(s, tok.rank, tok.id);
  }

  /** The parts of the invariant that do not speak of the counters. */
  ghost predicate Base(s: System) { Shape(s) && Coupled(s) && TablesOk(s) && CompletedOk(s) }

  lemma ApplyBase(s: System, tok: Token, e: Effect)
    requires Base(s) && tok in s.lives && Sensible(s.lives[tok], e)
    requires e.take ==> tok.id in s.tables[tok.rank].futures
    ensures Base(Apply(s, tok, e)) && Apply(s, tok, e).n == s.n
  {
    hide Shape, Coupled, TablesOk, CompletedOk, Sensible;
    ApplyShape(s, tok, e);
    ApplyTables(s, tok, e);
    ApplyCompleted(s, tok, e);
  }

  lemma ApplyShape(s: System, tok: Token, e: Effect)
    requires Shape(s) && Coupled(s) && tok in s.lives && Sensible(s.lives[tok], e)
    requires e.take ==> tok.id in s.tables[tok.rank].futures
    ensures Shape(Apply(s, tok, e)) && Coupled(Apply(s, tok, e)) && Apply(s, tok, e).n == s.n
  {
    hide Coherent, Remove;
  }

  lemma ApplyTables(s: System, tok: Token, e: Effect)
    requires Base(s) && tok in s.lives && Sensible(s.lives[tok], e)
    requires (e.take ==> tok.id in s.tables[tok.rank].futures) && Shape(Apply(s, tok, e))
    ensures TablesOk(Apply(s, tok, e))
  {
    hide Sensible, Coherent, CompletedOk, Coupled, BumpBy, InSync;
    var s' := Apply(s, tok, e);
    PresentIff(s, tok);
    TakeIff(s.lives[tok], e);
    assert TableAt(s, tok.rank);
    if e.take { RemoveKeepsSync(s.tables[tok.rank], tok.id); }
    forall r | 0 <= r < s.n ensures TableAt(s', r) {
      assert TableAt(s, r);
      forall id: nat ensures PendingIn(s', r, id) <==> PendingIn(s, r, id) && !(e.take && Token(r, id) == tok) {}
    }
  }

  lemma TakeIff(l: Life, e: Effect)
    requires Sensible(l, e)
    ensures e.take <==> l.fut == Pending && e.life.fut != Pending
    ensures e.life.fut == Pending ==> l.fut == Pending
  {
  }

  lemma ApplyCompleted(s: System, tok: Token, e: Effect)
    requires Base(s) && tok in s.lives && Sensible(s.lives[tok], e)
    requires e.take ==> tok.id in s.tables[tok.rank].futures
    ensures CompletedOk(Apply(s, tok, e))
  {
    var s' := Apply(s, tok, e);
    if e.done {
      assert tok !in s.completed;
      assert tok in s'.completed by { assert s'.completed[|s.completed|] == tok; }
    }
    forall t | t in s'.lives && Ended(s'.lives[t].fut) ensures t in s'.completed {
      if t != tok { assert t in s.completed; }
    }
  }

  lemma IssueBase(s: System, r: nat, d: nat, e: nat, t: nat)
    requires Base(s) && r < s.n && d < s.n
    ensures Base(IssueStep(s, r, d, e, t))
  {
    var s', id := IssueStep(s, r, d, e, t), s.nextIds[r] + 1;
    assert Token(r, id) !in s.lives;
    assert Shape(s');
    IssueTables(s, r, d, e, t);
    assert CompletedOk(s');
  }

  lemma IssueTables(s: System, r: nat, d: nat, e: nat, t: nat)
    requires Shape(s) && TablesOk(s) && r < s.n && d < s.n && Shape(IssueStep(s, r, d, e, t))
    ensures TablesOk(IssueStep(s, r, d, e, t))
  {
    var s', id := IssueStep(s, r, d, e, t), s.nextIds[r] + 1;
    forall q | 0 <= q < s.n ensures TableAt(s', q) {
      assert TableAt(s, q);
      if q == r {
        assert Token(r, id) !in s.lives;
        assert !PendingIn(s, r, id);
        InsertKeepsSync(s.tables[r], id, FutureInfo(id, e, d, t));
      }
      forall k: nat ensures PendingIn(s', q, k) <==> PendingIn(s, q, k) || (q == r && k == id) {}
    }
  }

  lemma ExpireLives(s: System, r: nat, now: nat)
    requires Base(s) && r < s.n
    ensures forall tok :: tok in s.lives ==>
              ExpireStep(s, r, now).lives[tok] == s.lives[tok]
              || (s.lives[tok].fut == Pending && ExpireStep(s, r, now).lives[tok] == s.lives[tok].(fut := Expired))
  {
    var s' := ExpireStep(s, r, now);
    forall tok | tok in s.lives
      ensures s'.lives[tok] == s.lives[tok]
              || (s.lives[tok].fut == Pending && s'.lives[tok] == s.lives[tok].(fut := Expired))
    {
      PresentIff(s, tok);
    }
  }

  lemma ExpireShape(s: System, r: nat, now: nat)
    requires Base(s) && r < s.n
    ensures var s' := ExpireStep(s, r, now); Shape(s') && Coupled(s') && CompletedOk(s')
  {
    hide TablesOk, TableAt, Due, Expire;
    ExpireLives(s, r, now);
    assert ExpireStep(s, r, now).lives.Keys == s.lives.Keys;
  }

  lemma ExpireTables(s: System, r: nat, now: nat, q: nat)
    requires Base(s) && r < s.n && q < s.n && Shape(ExpireStep(s, r, now))
    ensures TableAt(ExpireStep(s, r, now), q)
  {
    var s' := ExpireStep(s, r, now);
    assert TableAt(s, r) && TableAt(s, q);
    ExpireKeepsSync(s.tables[r], now);
    forall k: nat ensures k in s'.tables[q].futures <==> PendingIn(s', q, k) {
      assert k in s.tables[q].futures <==> PendingIn(s, q, k);
    }
  }

  lemma ExpireBase(s: System, r: nat, now: nat)
    requires Base(s) && r < s.n
    ensures Base(ExpireStep(s, r, now)) && ExpireStep(s, r, now).n == s.n
  {
    hide TableAt, Coupled, CompletedOk;
    ExpireShape(s, r, now);
    forall q | 0 <= q < s.n ensures TableAt(ExpireStep(s, r, now), q) { ExpireTables(s, r, now, q); }
  }

  // How one token's new life moves the counts.

  /** 1 when `tok`, on the channel `src` to `dst`, newly has property `k`. */
  ghost function Gain(lives: map<Token, Life>, tok: Token, l: Life, k: Kind, src: nat, dst: nat): nat {
    if tok.rank == src && l.dst == dst && Has(k, l) && !(tok in lives && Has(k, lives[tok])) then 1 else 0
  }

  lemma SelUpdate(lives: map<Token, Life>, tok: Token, l: Life, k: Kind, src: nat, dst: nat)
    requires tok in lives ==> lives[tok].dst == l.dst && (Has(k, lives[tok]) ==> Has(k, l))
    ensures |Sel(lives[tok := l], k, src, dst)| == |Sel(lives, k, src, dst)| + Gain(lives, tok, l, k, src, dst)
  {
    hide Has;
    var before, after := Sel(lives, k, src, dst), Sel(lives[tok := l], k, src, dst);
    if Gain(lives, tok, l, k, src, dst) == 1 {
      assert after == before + {tok};
    } else {
      assert after == before;
    }
  }

  lemma CountUpdate(lives: map<Token, Life>, tok: Token, l: Life, i: nat, j: nat)
    requires tok in lives ==> lives[tok].dst == l.dst && forall k :: Has(k, lives[tok]) ==> Has(k, l)
    ensures SentCount(lives[tok := l], i, j)
         == SentCount(lives, i, j) + Gain(lives, tok, l, ReqSent, i, j) + Gain(lives, tok, l, RespSent, j, i)
    ensures RecvCount(lives[tok := l], i, j)
         == RecvCount(lives, i, j) + Gain(lives, tok, l, ReqDone, j, i) + Gain(lives, tok, l, RespDone, i, j)
  {
    SelUpdate(lives, tok, l, ReqSent, i, j);
    SelUpdate(lives, tok, l, RespSent, j, i);
    SelUpdate(lives, tok, l, ReqDone, j, i);
    SelUpdate(lives, tok, l, RespDone, i, j);
  }

  lemma ApplyCounts(s: System, tok: Token, e: Effect, i: nat, j: nat)
    requires Shape(s) && tok in s.lives && Sensible(s.lives[tok], e)
    requires (e.take ==> tok.id in s.tables[tok.rank].futures) && Shape(Apply(s, tok, e))
    requires i < s.n && j < s.n && CountsAt(s, i, j)
    ensures CountsAt(Apply(s, tok, e), i, j)
  {
    hide SentCount, RecvCount, Coherent, Remove;
    CountUpdate(s.lives, tok, e.life, i, j);
  }

  lemma IssueCounts(s: System, r: nat, d: nat, e: nat, t: nat, i: nat, j: nat)
    requires Shape(s) && r < s.n && d < s.n && Shape(IssueStep(s, r, d, e, t))
    requires i < s.n && j < s.n && CountsAt(s, i, j)
    ensures CountsAt(IssueStep(s, r, d, e, t), i, j)
  {
    var tok := Token(r, s.nextIds[r] + 1);
    assert tok !in s.lives;
    NewTokenCounts(s.lives, tok, d, i, j);
    assert IssueStep(s, r, d, e, t).lives == s.lives[tok := Life(d, Queued, NotYet, Pending)];
  }

  lemma NewTokenCounts(lives: map<Token, Life>, tok: Token, d: nat, i: nat, j: nat)
    requires tok !in lives
    ensures var lives' := lives[tok := Life(d, Queued, NotYet, Pending)];
            SentCount(lives', i, j) == SentCount(lives, i, j) && RecvCount(lives', i, j) == RecvCount(lives, i, j)
  {
    CountUpdate(lives, tok, Life(d, Queued, NotYet, Pending), i, j);
  }

  lemma ExpireCounts(s: System, s': System, i: nat, j: nat)
    requires Shape(s) && Shape(s') && s'.sent == s.sent && s'.recv == s.recv && s'.n == s.n && s'.lives.Keys == s.lives.Keys
    requires forall tok :: tok in s.lives ==>
               s'.lives[tok] == s.lives[tok]
               || (s.lives[tok].fut == Pending && s'.lives[tok] == s.lives[tok].(fut := Expired))
    requires i < s.n && j < s.n && CountsAt(s, i, j)
    ensures CountsAt(s', i, j)
  {
    hide Sel;
    SelKept(s.lives, s'.lives, ReqSent, i, j);
    SelKept(s.lives, s'.lives, RespSent, j, i);
    SelKept(s.lives, s'.lives, ReqDone, j, i);
    SelKept(s.lives, s'.lives, RespDone, i, j);
  }

  /** A future that expires is not counted yet. */
  lemma SelKept(lives: map<Token, Life>, lives': map<Token, Life>, k: Kind, src: nat, dst: nat)
    requires lives'.Keys == lives.Keys && forall tok :: tok in lives ==>
               lives'[tok] == lives[tok] || (lives[tok].fut == Pending && lives'[tok] == lives[tok].(fut := Expired))
    ensures Sel(lives', k, src, dst) == Sel(lives, k, src, dst)
  {
  }

  lemma NextCounts(s: System, a: Action, i: nat, j: nat)
    requires Base(s) && Enabled(s, a) && Shape(Next(s, a))
    requires i < s.n && j < s.n && CountsAt(s, i, j) && i < Next(s, a).n && j < Next(s, a).n
    ensures CountsAt(Next(s, a), i, j)
  {
    hide CountsAt, Sensible, EffectOf, Coherent, Legal, TablesOk;
    match a
    case Issue(r, d, e, t) => IssueCounts(s, r, d, e, t, i, j);
    case ExpireAt(r, now) =>
      ExpireLives(s, r, now);
      ExpireCounts(s, ExpireStep(s, r, now), i, j);
    case _ =>
      PresentIff(s, a.tok);
      EffectsSensible(s.lives[a.tok], a, InTable(s, a.tok));
      ApplyCounts(s, a.tok, EffectOf(s.lives[a.tok], a, InTable(s, a.tok)), i, j);
  }

  lemma NextBase(s: System, a: Action)
    requires Base(s) && Enabled(s, a)
    ensures Base(Next(s, a)) && Next(s, a).n == s.n
  {
    match a
    case Issue(r, d, e, t) => IssueBase(s, r, d, e, t);
    case ExpireAt(r, now) => ExpireBase(s, r, now);
    case _ =>
      PresentIff(s, a.tok);
      EffectsSensible(s.lives[a.tok], a, InTable(s, a.tok));
      ApplyBase(s, a.tok, EffectOf(s.lives[a.tok], a, InTable(s, a.tok)));
  }

  /** Every step of every thread keeps the invariant. */
  lemma NextInv(s: System, a: Action)
    requires Inv(s) && Enabled(s, a)
    ensures Inv(Next(s, a)) && Next(s, a).n == s.n
  {
    NextBase(s, a);
    forall i, j | 0 <= i < s.n && 0 <= j < s.n ensures CountsAt(Next(s, a), i, j) {
      NextCounts(s, a, i, j);
    }
  }
}
