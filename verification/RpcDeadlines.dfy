/** What becomes of one request over whole runs of the RPC agents. */
module RpcDeadlines {
  import opened FutureTable
  import opened RpcSystem
  import opened Termination

  // It is recorded with the deadline it was given, and the watchdog fails it at the first sweep of its own agent at or
  // after that deadline, and only there.

  /** The request the `i`-th action issues. */
  ghost function Issued(states: seq<System>, acts: seq<Action>, i: nat): Token
    requires IsRun(states, acts) && i < |acts| && acts[i].Issue?
  {
    Token(acts[i].rank, states[i].nextIds[acts[i].rank] + 1)
  }

  /** An entry is never changed while it is there, and its request keeps its destination. */
  ghost predicate EntryKept(s: System, s': System, tok: Token)
    requires Shape(s) && Shape(s') && tok in s.lives
  {
    && s'.n == s.n && tok in s'.lives && s'.lives[tok].dst == s.lives[tok].dst
    && (tok.id in s'.tables[tok.rank].futures ==>
          tok.id in s.tables[tok.rank].futures && s'.tables[tok.rank].futures[tok.id] == s.tables[tok.rank].futures[tok.id])
  }

  lemma StepKeepsEntry(s: System, a: Action, tok: Token)
    requires Inv(s) && Enabled(s, a) && tok in s.lives
    ensures Shape(Next(s, a)) && EntryKept(s, Next(s, a), tok)
  {
    hide TablesOk, CountsOk, CompletedOk, Coupled, Legal;
    NextInv(s, a);
    ShapeOf(Next(s, a));
    match a
    case Issue(r, d, e, t) => IssueKeepsEntry(s, r, d, e, t, tok);
    case ExpireAt(r, now) =>
    case _ => EffectKeepsEntry(s, a, tok);
  }

  lemma ShapeOf(s: System)
    requires Inv(s)
    ensures Shape(s)
  {
  }

  lemma IssueKeepsEntry(s: System, r: nat, d: nat, e: nat, t: nat, tok: Token)
    requires Shape(s) && r < s.n && d < s.n && tok in s.lives && Shape(IssueStep(s, r, d, e, t))
    ensures EntryKept(s, IssueStep(s, r, d, e, t), tok)
  {
  }

  lemma EffectKeepsEntry(s: System, a: Action, tok: Token)
    requires Inv(s) && Enabled(s, a) && !a.Issue? && !a.ExpireAt? && tok in s.lives && Shape(Next(s, a))
    ensures EntryKept(s, Next(s, a), tok)
  {
    hide TablesOk, CountsOk, CompletedOk, Coherent, Has, BumpBy;
    PresentOf(s, a.tok);
    EffectsSensible(s.lives[a.tok], a, InTable(s, a.tok));
  }

  lemma PresentOf(s: System, tok: Token)
    requires Inv(s) && tok in s.lives
    ensures Shape(s) && (InTable(s, tok) <==> s.lives[tok].fut == Pending) && Coherent(s.lives[tok])
  {
    PresentIff(s, tok);
  }

  /** A new request has a name of its own, is queued, and is recorded as the caller gave it. */
  lemma IssueRecords(states: seq<System>, acts: seq<Action>, i: nat)
    requires IsRun(states, acts) && i < |acts| && acts[i].Issue?
    ensures var a, tok, s, s' := acts[i], Issued(states, acts, i), states[i], states[i + 1];
            && Shape(s') && a.rank < s'.n && tok !in s.lives
            && s'.lives == s.lives[tok := Life(a.to, Queued, NotYet, Pending)]
            && s'.tables[a.rank].futures == s.tables[a.rank].futures[tok.id := FutureInfo(tok.id, a.endTime, a.to, a.timeout)]
            && forall r :: 0 <= r < s'.n && r != a.rank ==> s'.tables[r] == s.tables[r]
  {
    RunInv(states, acts, i);
    RunInv(states, acts, i + 1);
    ShapeOf(states[i + 1]);
  }

  lemma {:induction false} RecordStays(states: seq<System>, acts: seq<Action>, i: nat, t: nat)
    requires IsRun(states, acts) && i < |acts| && acts[i].Issue? && i < t < |states|
    ensures var a, tok, s := acts[i], Issued(states, acts, i), states[t];
            && Inv(s) && a.rank < s.n && tok in s.lives && s.lives[tok].dst == a.to
            && (tok.id in s.tables[a.rank].futures <==> s.lives[tok].fut == Pending)
            && (tok.id in s.tables[a.rank].futures ==> s.tables[a.rank].futures[tok.id] == FutureInfo(tok.id, a.endTime, a.to, a.timeout))
    decreases t
  {
    hide Inv, Next, Enabled, Insert;
    RunInv(states, acts, t);
    if t == i + 1 {
      IssueRecords(states, acts, i);
    } else {
      RecordStays(states, acts, i, t - 1);
      StepKeepsEntry(states[t - 1], acts[t - 1], Issued(states, acts, i));
    }
    PresentOf(states[t], Issued(states, acts, i));
  }

  /** In any run: as long as its future is pending, a request is failed by the first timeout sweep of its own
      agent at a time not before its deadline; an earlier sweep, or one of another agent, leaves it as it was;
      and no other step makes the watchdog take it. */
  lemma TimesOutExactlyWhenDue(states: seq<System>, acts: seq<Action>, i: nat, t: nat)
    requires IsRun(states, acts) && i < |acts| && acts[i].Issue? && i < t < |acts|
    requires Issued(states, acts, i) in states[t].lives && states[t].lives[Issued(states, acts, i)].fut == Pending
    ensures var tok, life := Issued(states, acts, i), states[t].lives[Issued(states, acts, i)];
            && tok in states[t + 1].lives
            && (acts[t].ExpireAt? && acts[t].rank == acts[i].rank && acts[i].endTime <= acts[t].now ==>
                  states[t + 1].lives[tok] == life.(fut := Expired))
            && (acts[t].ExpireAt? && !(acts[t].rank == acts[i].rank && acts[i].endTime <= acts[t].now) ==>
                  states[t + 1].lives[tok] == life)
            && (!acts[t].ExpireAt? ==> states[t + 1].lives[tok].fut != Expired)
  {
    hide CountsOk, CompletedOk, Coupled, TablesOk;
    RecordStays(states, acts, i, t);
    var tok, s, a := Issued(states, acts, i), states[t], acts[t];
    if a.ExpireAt? {
    } else if a.Issue? {
      IssueRecords(states, acts, t);
    } else {
      PresentOf(s, a.tok);
      NoOtherExpires(s.lives[a.tok], a, InTable(s, a.tok));
    }
  }

  lemma NoOtherExpires(l: Life, a: Action, present: bool)
    requires Legal(l, a)
    ensures EffectOf(l, a, present).life.fut == Expired ==> l.fut == Expired
  {
  }
}
