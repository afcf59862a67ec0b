/** Why each hypothesis of the termination detector is needed.

    Concrete runs of two ranks in which all counters match although a message is still to be handled: with pools
    idle a moment too early, with the counters read in the other order, and with a receive booked for a message
    that was never sent. */
module TerminationLimits {
  import opened FutureTable
  import opened RpcSystem
  import opened Termination

  const REQ := Token(1, 1)     // the first request of rank 1, addressed to rank 0

  ghost function NoFutures(): Table { Table(map[], map[]) }
  ghost function OneFuture(): Table { Table(map[1 := FutureInfo(1, 5, 0, 5)], map[5 := {1}]) }

  /** Rank 1 has issued one request. `sent10` counts its message to rank 0 as sent, and `recv01` as
      received; `sent01` and `recv10` do so for the answer. */
  ghost function One(req: Stage, resp: Stage, sent10: nat, recv01: nat, sent01: nat, recv10: nat): System {
    System(2, map[REQ := Life(0, req, resp, Pending)], [NoFutures(), OneFuture()], [0, 1],
           [[0, sent01], [sent10, 0]], [[0, recv01], [recv10, 0]], [])
  }

  lemma OneIssued()
    ensures Enabled(Init(2), Issue(1, 0, 5, 5)) && Inv(Init(2))
    ensures Next(Init(2), Issue(1, 0, 5, 5)) == One(Queued, NotYet, 0, 0, 0, 0)
  {
    InitInv(2);
    var s := Init(2);
    var s' := Next(s, Issue(1, 0, 5, 5));
    assert s.tables == [NoFutures(), NoFutures()] && s.nextIds == [0, 0];
    assert s.sent == [[0, 0], [0, 0]] by { assert s.sent[0] == [0, 0] && s.sent[1] == [0, 0]; }
    assert s.recv == [[0, 0], [0, 0]] by { assert s.recv[0] == [0, 0] && s.recv[1] == [0, 0]; }
    assert IdsAt(map[], 5) + {1} == {1};
    assert Insert(NoFutures(), 1, FutureInfo(1, 5, 0, 5)) == OneFuture();
    assert s'.tables == [NoFutures(), OneFuture()];
    assert s'.lives == map[REQ := Life(0, Queued, NotYet, Pending)];
  }

  lemma OneCounted()
    ensures Shape(One(Queued, NotYet, 0, 0, 0, 0))
    ensures Next(One(Queued, NotYet, 0, 0, 0, 0), AdvanceReq(REQ)) == One(Counted, NotYet, 1, 0, 0, 0)
  {
    var s := One(Queued, NotYet, 0, 0, 0, 0);
    assert s.sent[1][0 := 1] == [1, 0];
    assert Bump(s.sent, 1, 0) == [[0, 0], [1, 0]];
    assert Next(s, AdvanceReq(REQ)).lives == map[REQ := Life(0, Counted, NotYet, Pending)];
  }

  /** The steps of the request that move no counter. */
  lemma OneMoves(req: Stage, resp: Stage, c: nat, d: nat)
    requires Moving(req) && !req.Queued? && !req.Finished?
    ensures Shape(One(req, resp, 1, c, d, 0))
    ensures Next(One(req, resp, 1, c, d, 0), AdvanceReq(REQ)) == One(Onward(req, false), resp, 1, c, d, 0)
  {
  }

  lemma OneAnswered()
    ensures Shape(One(Running, NotYet, 1, 0, 0, 0))
    ensures Next(One(Running, NotYet, 1, 0, 0, 0), Respond(REQ)) == One(Running, Queued, 1, 0, 0, 0)
  {
  }

  lemma OneBooked(resp: Stage, d: nat)
    ensures Shape(One(Finished, resp, 1, 0, d, 0))
    ensures Next(One(Finished, resp, 1, 0, d, 0), AdvanceReq(REQ)) == One(Retired, resp, 1, 1, d, 0)
  {
    var s := One(Finished, resp, 1, 0, d, 0);
    assert s.recv[0][1 := 1] == [0, 1];
    assert Bump(s.recv, 0, 1) == [[0, 1], [0, 0]];
    assert Next(s, AdvanceReq(REQ)).lives == map[REQ := Life(0, Retired, resp, Pending)];
  }

  /** `One` on the wire is reached from the initial state. */
  lemma OnTheWire()
    ensures Inv(One(Wire, NotYet, 1, 0, 0, 0))
  {
    OneIssued();
    NextInv(Init(2), Issue(1, 0, 5, 5));
    OneCounted();
    NextInv(One(Queued, NotYet, 0, 0, 0, 0), AdvanceReq(REQ));
    OneMoves(Counted, NotYet, 0, 0);
    NextInv(One(Counted, NotYet, 1, 0, 0, 0), AdvanceReq(REQ));
  }

  /** The answer is booked as sent, then put on the wire. */
  lemma OneAnswerSent()
    ensures Shape(One(Retired, Queued, 1, 1, 0, 0)) && Shape(One(Retired, Counted, 1, 1, 1, 0))
    ensures Next(One(Retired, Queued, 1, 1, 0, 0), AdvanceResp(REQ)) == One(Retired, Counted, 1, 1, 1, 0)
    ensures Next(One(Retired, Counted, 1, 1, 1, 0), AdvanceResp(REQ)) == One(Retired, Wire, 1, 1, 1, 0)
  {
    var s, s' := One(Retired, Queued, 1, 1, 0, 0), One(Retired, Counted, 1, 1, 1, 0);
    assert s.sent[0][1 := 1] == [0, 1];
    assert Bump(s.sent, 0, 1) == [[0, 1], [1, 0]];
    assert Next(s, AdvanceResp(REQ)).lives == map[REQ := Life(0, Retired, Counted, Pending)];
    assert Next(s', AdvanceResp(REQ)).lives == map[REQ := Life(0, Retired, Wire, Pending)];
  }

  ghost function RaceStates(): seq<System> {
    [One(Wire, NotYet, 1, 0, 0, 0), One(Delivered, NotYet, 1, 0, 0, 0), One(Running, NotYet, 1, 0, 0, 0),
     One(Running, Queued, 1, 0, 0, 0), One(Finished, Queued, 1, 0, 0, 0), One(Retired, Queued, 1, 1, 0, 0),
     One(Retired, Counted, 1, 1, 1, 0), One(Retired, Wire, 1, 1, 1, 0)]
  }

  const RACE_ACTS := [AdvanceReq(REQ), AdvanceReq(REQ), Respond(REQ), AdvanceReq(REQ), AdvanceReq(REQ),
                      AdvanceResp(REQ), AdvanceResp(REQ)]

  ghost predicate StepAt(states: seq<System>, acts: seq<Action>, t: nat) {
    && t + 1 < |states| && t < |acts| && Shape(states[t]) && QuietStep(states[t], acts[t])
    && states[t + 1] == Next(states[t], acts[t])
  }

  lemma RaceStep(t: nat)
    requires t < 7
    ensures StepAt(RaceStates(), RACE_ACTS, t)
  {
    if t < 2 { RaceStepEarly(t); } else if t < 4 { RaceStepMiddle(t); } else { RaceStepLate(t); }
  }

  lemma RaceStepEarly(t: nat)
    requires t < 2
    ensures StepAt(RaceStates(), RACE_ACTS, t)
  {
    OneMoves(if t == 0 then Wire else Delivered, NotYet, 0, 0);
  }

  lemma RaceStepMiddle(t: nat)
    requires 2 <= t < 4
    ensures StepAt(RaceStates(), RACE_ACTS, t)
  {
    if t == 2 { OneAnswered(); assert ActiveAt(REQ, RaceStates()[2].lives[REQ], 0); }
    else { OneMoves(Running, Queued, 0, 0); }
  }

  lemma RaceStepLate(t: nat)
    requires 4 <= t < 7
    ensures StepAt(RaceStates(), RACE_ACTS, t)
  {
    if t == 4 { OneBooked(Queued, 0); } else { OneAnswerSent(); }
  }

  lemma RaceStart()
    ensures |RaceStates()| == |RACE_ACTS| + 1 && Inv(RaceStates()[0]) && NoTimeouts(RaceStates()[0])
  {
    OnTheWire();
  }

  lemma Compose(states: seq<System>, acts: seq<Action>)
    requires |states| == |acts| + 1 && Inv(states[0]) && NoTimeouts(states[0])
    requires forall t :: 0 <= t < |acts| ==> StepAt(states, acts, t)
    ensures IsQuietRun(states, acts)
  {
    forall t | 0 <= t < |acts|
      ensures Shape(states[t]) && QuietStep(states[t], acts[t]) && states[t + 1] == Next(states[t], acts[t])
    {
      assert StepAt(states, acts, t);
    }
  }

  lemma RaceSteps(n: nat)
    requires n <= 7
    ensures forall t :: 0 <= t < n ==> StepAt(RaceStates(), RACE_ACTS, t)
  {
    hide StepAt, RaceStates;
    if n > 0 { RaceSteps(n - 1); RaceStep(n - 1); }
  }

  /** The run the two lemmas below speak of is a timeout-free run from a reachable state. */
  lemma RaceIsQuietRun()
    ensures IsQuietRun(RaceStates(), RACE_ACTS)
  {
    RaceStart();
    RaceSteps(7);
    Compose(RaceStates(), RACE_ACTS);
  }

  /** All counters of a state agree, pair by pair. */
  ghost predicate AllMatch(s: System)
    requires Shape(s)
  {
    forall from, to :: 0 <= from < s.n && 0 <= to < s.n ==> s.sent[from][to] == s.recv[to][from]
  }

  /** The window in `sync`. In the quiet run above both pools are idle when they are waited for (time
      0), yet the counters read afterwards (time 5) all match while rank 0 still has an answer to send:
      a request arrived, and was handled and booked, between the wait and the snapshot. */
  lemma IdleBeforeSnapshotIsNotEnough()
    ensures var first, last := RaceStates()[0], RaceStates()[5];
            && Idle(first, 0) && Idle(first, 1)
            && Shape(last) && AllMatch(last) && !Idle(last, 0)
  {
    assert ActiveAt(REQ, RaceStates()[5].lives[REQ], 0);
  }

  /** The read order. Had rank 0 read its send counters first (time 0) and its receive counters later
      (time 7), the gathered counters would match, and both pools are idle, with an answer on the wire. */
  lemma SendCountersFirstIsUnsound()
    ensures var first, last := RaceStates()[0], RaceStates()[7];
            && Shape(first) && Shape(last) && first.n == last.n == 2
            && (forall to :: 0 <= to < 2 ==> first.sent[0][to] == last.recv[to][0])
            && (forall to :: 0 <= to < 2 ==> last.sent[1][to] == last.recv[to][1])
            && Idle(last, 0) && Idle(last, 1) && !NothingOnTheWire(last)
  {
    assert RaceStates()[7].lives[REQ].resp == Wire;
  }

  // ---------------------------------------------------------------- receives booked for nothing

  ghost predicate Follows(s: System, a: Action, s': System) { Shape(s) && Enabled(s, a) && Next(s, a) == s' }

  lemma RunFrom(states: seq<System>, acts: seq<Action>)
    requires |states| == |acts| + 1 && Inv(states[0]) && forall t :: 0 <= t < |acts| ==> Follows(states[t], acts[t], states[t + 1])
    ensures IsRun(states, acts)
  {
    forall t | 0 <= t < |acts| ensures Shape(states[t]) && Enabled(states[t], acts[t]) && states[t + 1] == Next(states[t], acts[t]) {
      assert Follows(states[t], acts[t], states[t + 1]);
    }
  }

  const LATER := Token(0, 1)   // the first request of rank 0, addressed to rank 1

  /** The request of rank 1 has expired; `recv10` is 1 once the watchdog has booked its answer. */
  ghost function Late(req: Stage, fut: Outcome, recv10: nat): System {
    System(2, map[REQ := Life(0, req, NotYet, fut)], [NoFutures(), NoFutures()], [0, 1],
           [[0, 0], [0, 0]], [[0, 0], [recv10, 0]], if fut == TimedOut then [REQ] else [])
  }

  /** It has also failed to serialize, and rank 0 has issued a request to rank 1. */
  ghost function Masked(req: Stage, sent01: nat): System {
    System(2, map[REQ := Life(0, Unsent, NotYet, TimedOut), LATER := Life(1, req, NotYet, Pending)],
           [Table(map[1 := FutureInfo(1, 9, 1, 9)], map[9 := {1}]), NoFutures()], [1, 1],
           [[0, sent01], [0, 0]], [[0, 0], [1, 0]], [REQ])
  }

  lemma LateExpired()
    ensures Follows(One(Queued, NotYet, 0, 0, 0, 0), ExpireAt(1, 5), Late(Queued, Expired, 0))
  {
    var s := One(Queued, NotYet, 0, 0, 0, 0);
    assert Expire(OneFuture(), 5) == NoFutures();
    assert Next(s, ExpireAt(1, 5)).tables == [NoFutures(), NoFutures()];
    assert Next(s, ExpireAt(1, 5)).lives == map[REQ := Life(0, Queued, NotYet, Expired)];
  }

  lemma LateSettled()
    ensures Follows(Late(Queued, Expired, 0), Settle(REQ), Late(Queued, TimedOut, 1))
  {
    var s := Late(Queued, Expired, 0);
    assert s.recv[1][0 := 1] == [1, 0];
    assert Bump(s.recv, 1, 0) == [[0, 0], [1, 0]];
    assert Next(s, Settle(REQ)).lives == map[REQ := Life(0, Queued, NotYet, TimedOut)];
  }

  lemma LateFails()
    ensures Follows(Late(Queued, TimedOut, 1), Fail(REQ), Late(Unsent, TimedOut, 1))
  {
    assert Next(Late(Queued, TimedOut, 1), Fail(REQ)).lives == map[REQ := Life(0, Unsent, NotYet, TimedOut)];
  }

  lemma MaskIssued()
    ensures Follows(Late(Unsent, TimedOut, 1), Issue(0, 1, 9, 9), Masked(Queued, 0))
  {
    var s := Late(Unsent, TimedOut, 1);
    assert IdsAt(map[], 9) + {1} == {1};
    assert Next(s, Issue(0, 1, 9, 9)).lives == Masked(Queued, 0).lives;
    assert Next(s, Issue(0, 1, 9, 9)).tables == Masked(Queued, 0).tables;
  }

  lemma MaskCounted()
    ensures Follows(Masked(Queued, 0), AdvanceReq(LATER), Masked(Counted, 1))
  {
    var s := Masked(Queued, 0);
    assert s.sent[0][1 := 1] == [0, 1];
    assert Bump(s.sent, 0, 1) == [[0, 1], [0, 0]];
    assert Next(s, AdvanceReq(LATER)).lives == Masked(Counted, 1).lives;
  }

  lemma MaskOnTheWire()
    ensures Follows(Masked(Counted, 1), AdvanceReq(LATER), Masked(Wire, 1))
  {
    assert Next(Masked(Counted, 1), AdvanceReq(LATER)).lives == Masked(Wire, 1).lives;
  }

  ghost function GhostStates(): seq<System> {
    [Init(2), One(Queued, NotYet, 0, 0, 0, 0), Late(Queued, Expired, 0), Late(Queued, TimedOut, 1), Late(Unsent, TimedOut, 1),
     Masked(Queued, 0), Masked(Counted, 1), Masked(Wire, 1)]
  }

  const GHOST_ACTS := [Issue(1, 0, 5, 5), ExpireAt(1, 5), Settle(REQ), Fail(REQ), Issue(0, 1, 9, 9), AdvanceReq(LATER), AdvanceReq(LATER)]

  lemma GhostIsARun()
    ensures IsRun(GhostStates(), GHOST_ACTS)
  {
    hide Follows, Next, One, Late, Masked;
    OneIssued();
    IssuedFollows();
    LateExpired();
    LateSettled();
    LateFails();
    MaskIssued();
    MaskCounted();
    MaskOnTheWire();
    RunFrom(GhostStates(), GHOST_ACTS);
  }

  lemma IssuedFollows()
    ensures Follows(Init(2), Issue(1, 0, 5, 5), One(Queued, NotYet, 0, 0, 0, 0))
  {
    OneIssued();
  }

  /** In a run from the start, a request that times out in the send queue and then fails to serialize leaves all
      at rest with a receive booked for nothing (time 4). From there the counters can come to agree again, and
      wrongly: with the next request the other way on the wire they all match (time 7), though both pools are
      idle. So with timeouts the detector can be fooled. */
  lemma GhostReceiveMasksAMessage()
    ensures IsRun(GhostStates(), GHOST_ACTS)
    ensures var late := GhostStates()[4]; Shape(late) && AtRest(late) && GhostReceive(late, 1, 0) && late.recv[1][0] != late.sent[0][1]
    ensures var last := GhostStates()[7]; Shape(last) && AllMatch(last) && Idle(last, 0) && Idle(last, 1) && !NothingOnTheWire(last)
  {
    hide IsRun, Late, Masked, One, AtRest, GhostReceive, AllMatch, Idle, NothingOnTheWire, Shape;
    GhostIsARun();
    LateIsAGhost();
    MaskedMatches();
  }

  lemma LateIsAGhost()
    ensures var late := Late(Unsent, TimedOut, 1);
            Shape(late) && late.n == 2 && AtRest(late) && GhostReceive(late, 1, 0) && late.recv[1][0] != late.sent[0][1]
  {
    assert GhostAt(Late(Unsent, TimedOut, 1), REQ, 1, 0);
  }

  lemma MaskedMatches()
    ensures var last := Masked(Wire, 1); Shape(last) && AllMatch(last) && Idle(last, 0) && Idle(last, 1) && !NothingOnTheWire(last)
  {
    assert Masked(Wire, 1).lives[LATER].req == Wire;
  }

  // ---------------------------------------------------------------- an answer to oneself

  const SELF := Token(0, 1)

  /** A single rank and its request to itself. */
  ghost function Own(req: Stage, resp: Stage, fut: Outcome, sent: nat, recv: nat): System {
    System(1, map[SELF := Life(0, req, resp, fut)], [if fut == Pending then OneFuture() else NoFutures()], [1],
           [[sent]], [[recv]], if fut == TimedOut then [SELF] else [])
  }

  lemma OwnIssued()
    ensures Inv(Init(1)) && Follows(Init(1), Issue(0, 0, 5, 5), Own(Queued, NotYet, Pending, 0, 0))
  {
    InitInv(1);
    var s := Init(1);
    assert s.tables == [NoFutures()] && s.nextIds == [0];
    assert s.sent == [[0]] by { assert s.sent[0] == [0]; }
    assert s.recv == [[0]] by { assert s.recv[0] == [0]; }
    assert IdsAt(map[], 5) + {1} == {1};
    assert Insert(NoFutures(), 1, FutureInfo(1, 5, 0, 5)) == OneFuture();
    assert Next(s, Issue(0, 0, 5, 5)).tables == [OneFuture()];
    assert Next(s, Issue(0, 0, 5, 5)).lives == map[SELF := Life(0, Queued, NotYet, Pending)];
  }

  lemma OwnCounted()
    ensures Follows(Own(Queued, NotYet, Pending, 0, 0), AdvanceReq(SELF), Own(Counted, NotYet, Pending, 1, 0))
  {
    var s := Own(Queued, NotYet, Pending, 0, 0);
    assert s.sent[0][0 := 1] == [1] && Bump(s.sent, 0, 0) == [[1]];
    assert Next(s, AdvanceReq(SELF)).lives == map[SELF := Life(0, Counted, NotYet, Pending)];
  }

  lemma OwnMoves(req: Stage, resp: Stage)
    requires req.Counted? || req.Delivered? || req.Running?
    ensures Follows(Own(req, resp, Pending, 1, 0), AdvanceReq(SELF), Own(Onward(req, true), resp, Pending, 1, 0))
  {
    assert Next(Own(req, resp, Pending, 1, 0), AdvanceReq(SELF)).lives == map[SELF := Life(0, Onward(req, true), resp, Pending)];
  }

  lemma OwnAnswered()
    ensures Follows(Own(Running, NotYet, Pending, 1, 0), Respond(SELF), Own(Running, Queued, Pending, 1, 0))
  {
    assert Next(Own(Running, NotYet, Pending, 1, 0), Respond(SELF)).lives == map[SELF := Life(0, Running, Queued, Pending)];
  }

  lemma OwnBooked()
    ensures Follows(Own(Finished, Queued, Pending, 1, 0), AdvanceReq(SELF), Own(Retired, Queued, Pending, 1, 1))
  {
    var s := Own(Finished, Queued, Pending, 1, 0);
    assert s.recv[0][0 := 1] == [1] && Bump(s.recv, 0, 0) == [[1]];
    assert Next(s, AdvanceReq(SELF)).lives == map[SELF := Life(0, Retired, Queued, Pending)];
  }

  lemma OwnExpired()
    ensures Follows(Own(Retired, Queued, Pending, 1, 1), ExpireAt(0, 5), Own(Retired, Queued, Expired, 1, 1))
  {
    var s := Own(Retired, Queued, Pending, 1, 1);
    assert Expire(OneFuture(), 5) == NoFutures();
    assert Next(s, ExpireAt(0, 5)).tables == [NoFutures()];
    assert Next(s, ExpireAt(0, 5)).lives == map[SELF := Life(0, Retired, Queued, Expired)];
  }

  lemma OwnSettled()
    ensures Follows(Own(Retired, Queued, Expired, 1, 1), Settle(SELF), Own(Retired, Queued, TimedOut, 1, 2))
  {
    var s := Own(Retired, Queued, Expired, 1, 1);
    assert s.recv[0][0 := 2] == [2] && Bump(s.recv, 0, 0) == [[2]];
    assert Next(s, Settle(SELF)).lives == map[SELF := Life(0, Retired, Queued, TimedOut)];
  }

  lemma OwnFails()
    ensures Follows(Own(Retired, Queued, TimedOut, 1, 2), FailResp(SELF), Own(Retired, Unsent, TimedOut, 1, 2))
  {
    assert Next(Own(Retired, Queued, TimedOut, 1, 2), FailResp(SELF)).lives == map[SELF := Life(0, Retired, Unsent, TimedOut)];
  }

  ghost function OwnStates(): seq<System> {
    [Init(1), Own(Queued, NotYet, Pending, 0, 0), Own(Counted, NotYet, Pending, 1, 0), Own(Delivered, NotYet, Pending, 1, 0),
     Own(Running, NotYet, Pending, 1, 0), Own(Running, Queued, Pending, 1, 0), Own(Finished, Queued, Pending, 1, 0),
     Own(Retired, Queued, Pending, 1, 1), Own(Retired, Queued, Expired, 1, 1), Own(Retired, Queued, TimedOut, 1, 2),
     Own(Retired, Unsent, TimedOut, 1, 2)]
  }

  const OWN_ACTS := [Issue(0, 0, 5, 5), AdvanceReq(SELF), AdvanceReq(SELF), AdvanceReq(SELF), Respond(SELF), AdvanceReq(SELF),
                     AdvanceReq(SELF), ExpireAt(0, 5), Settle(SELF), FailResp(SELF)]

  lemma OwnIsARun()
    ensures IsRun(OwnStates(), OWN_ACTS)
  {
    hide Follows, Next, Own;
    OwnIssued();
    OwnCounted();
    OwnMoves(Counted, NotYet);
    OwnMoves(Delivered, NotYet);
    OwnAnswered();
    OwnMoves(Running, Queued);
    OwnBooked();
    OwnExpired();
    OwnSettled();
    OwnFails();
    RunFrom(OwnStates(), OWN_ACTS);
  }

  /** The other way there, in a run of one rank: its request to itself is handled, times out, and then the
      answer fails to serialize. Two receives are booked and one message was sent. */
  lemma UnsentAnswerIsAGhostToo()
    ensures IsRun(OwnStates(), OWN_ACTS)
    ensures var last := OwnStates()[10];
            Shape(last) && AtRest(last) && GhostReceive(last, 0, 0) && last.recv[0][0] == 2 && last.sent[0][0] == 1
  {
    hide IsRun, Own, AtRest, GhostReceive, Shape;
    OwnIsARun();
    OwnIsAGhost();
  }

  lemma OwnIsAGhost()
    ensures var last := Own(Retired, Unsent, TimedOut, 1, 2);
            Shape(last) && last.n == 1 && AtRest(last) && GhostReceive(last, 0, 0) && last.recv[0][0] == 2 && last.sent[0][0] == 1
  {
    assert GhostAt(Own(Retired, Unsent, TimedOut, 1, 2), SELF, 0, 0);
  }
}
