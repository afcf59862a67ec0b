/** What holds of the reducer's bucket list between steps. */
module ReducerState {
  import opened Basics
  import opened Flat
  import opened Buckets

  datatype Locator = Locator(bucket: nat, intra: nat)

  /** `locators` is the inverse of the buckets' variable lists: they partition the variables. */
  ghost predicate Locates(buckets: seq<Bucket>, locators: seq<Locator>) {
    && (forall v :: 0 <= v < |locators| ==>
          && locators[v].bucket < |buckets| && locators[v].intra < |buckets[locators[v].bucket].vars|
          && buckets[locators[v].bucket].vars[locators[v].intra] == v)
    && (forall b, k :: 0 <= b < |buckets| && 0 <= k < |buckets[b].vars| ==>
          buckets[b].vars[k] < |locators| && locators[buckets[b].vars[k]] == Locator(b, k))
  }

  ghost predicate AllWellFormed(buckets: seq<Bucket>, replicaCount: nat, lengths: seq<nat>) {
    forall b :: 0 <= b < |buckets| ==> WellFormed(buckets[b], replicaCount) && LengthsAgree(buckets[b], lengths)
  }

  ghost predicate LengthsAgree(b: Bucket, lengths: seq<nat>) {
    |b.lengths| == |b.vars| && forall k :: 0 <= k < |b.vars| ==> b.vars[k] < |lengths| && b.lengths[k] == lengths[b.vars[k]]
  }

  ghost predicate AllTrack(buckets: seq<Bucket>, marked: set<VarIndex>) {
    forall b :: 0 <= b < |buckets| ==> Tracks(buckets[b], marked)
  }

  ghost predicate AllHold(buckets: seq<Bucket>, replicaCount: nat, recorded: map<VarIndex, seq<real>>) {
    forall b :: 0 <= b < |buckets| ==> WellFormed(buckets[b], replicaCount) && Holds(buckets[b], replicaCount, recorded)
  }

  ghost function Contents(b: Bucket): seq<seq<real>> {
    seq(|b.replicas|, r requires 0 <= r < |b.replicas| => b.replicas[r].contents)
  }

  /** The first `next` buckets are ready and were launched, with the contents they still have. */
  ghost predicate LaunchedUpTo(buckets: seq<Bucket>, next: nat) {
    next <= |buckets| && forall b :: 0 <= b < next ==> buckets[b].pending == 0 && buckets[b].work == Some(Contents(buckets[b]))
  }

  ghost predicate NextIsWaiting(buckets: seq<Bucket>, next: nat) {
    next < |buckets| ==> buckets[next].pending > 0
  }

  /** Everything about a bucket list that a backward pass keeps. */
  ghost predicate Sound(buckets: seq<Bucket>, locators: seq<Locator>, replicaCount: nat, lengths: seq<nat>, recorded: map<VarIndex, seq<real>>) {
    && |locators| == |lengths|
    && Locates(buckets, locators)
    && AllWellFormed(buckets, replicaCount, lengths)
    && AllTrack(buckets, recorded.Keys)
    && AllHold(buckets, replicaCount, recorded)
  }

  /** One variable's gradient goes into its bucket and the counters go down. */
  function Marked(buckets: seq<Bucket>, l: Locator, r: nat, value: seq<real>): seq<Bucket>
    requires l.bucket < |buckets| && r < |buckets[l.bucket].replicas| && l.intra < |buckets[l.bucket].offsets|
    requires buckets[l.bucket].sparse || buckets[l.bucket].offsets[l.intra] + |value| <= |buckets[l.bucket].replicas[r].contents|
    requires buckets[l.bucket].replicas[r].pending > 0 && buckets[l.bucket].pending > 0
  {
    buckets[l.bucket := Decrement(CopyIn(buckets[l.bucket], r, l.intra, value), r)]
  }

  lemma MarkedBucket(b: Bucket, replicaCount: nat, recorded: map<VarIndex, seq<real>>, r: nat, k: nat, value: seq<real>)
    requires WellFormed(b, replicaCount) && Tracks(b, recorded.Keys) && Holds(b, replicaCount, recorded)
    requires r < replicaCount && k < |b.vars| && VarIndex(r, b.vars[k]) !in recorded
    requires b.sparse || |value| == b.lengths[k]
    ensures b.sparse || b.offsets[k] + |value| <= |b.replicas[r].contents|
    ensures b.replicas[r].pending > 0 && b.pending > 0
    ensures var b' := Decrement(CopyIn(b, r, k, value), r);
            var recorded' := recorded[VarIndex(r, b.vars[k]) := value];
            WellFormed(b', replicaCount) && Tracks(b', recorded'.Keys) && Holds(b', replicaCount, recorded')
  {
    CopyHolds(b, replicaCount, recorded, r, k, value);
    var c := CopyIn(b, r, k, value);
    var recorded' := recorded[VarIndex(r, b.vars[k]) := value];
    assert Incomplete(c.replicas) == Incomplete(b.replicas);
    assert Tracks(c, recorded.Keys);
    MarkCounts(c, recorded.Keys, r, k);
    assert recorded'.Keys == recorded.Keys + {VarIndex(r, b.vars[k])};
    DecrementHolds(c, replicaCount, recorded', r);
  }

  lemma DecrementHolds(b: Bucket, replicaCount: nat, recorded: map<VarIndex, seq<real>>, r: nat)
    requires WellFormed(b, replicaCount) && Holds(b, replicaCount, recorded)
    requires r < |b.replicas| && b.replicas[r].pending > 0 && b.pending > 0
    ensures WellFormed(Decrement(b, r), replicaCount) && Holds(Decrement(b, r), replicaCount, recorded)
  {
  }

  /** Another bucket does not notice: it holds no piece of that variable. */
  lemma OtherBucket(b: Bucket, replicaCount: nat, recorded: map<VarIndex, seq<real>>, index: VarIndex, value: seq<real>)
    requires WellFormed(b, replicaCount) && Tracks(b, recorded.Keys) && Holds(b, replicaCount, recorded)
    requires index.variable !in b.vars
    ensures Tracks(b, recorded[index := value].Keys) && Holds(b, replicaCount, recorded[index := value])
  {
    assert recorded[index := value].Keys == recorded.Keys + {index};
    MarkElsewhere(b, recorded.Keys, index);
    forall q, k | 0 <= q < replicaCount && 0 <= k < |b.vars| && VarIndex(q, b.vars[k]) in recorded[index := value]
      ensures PieceIs(b, q, k, recorded[index := value][VarIndex(q, b.vars[k])])
    {
      assert b.vars[k] in b.vars;
      assert PieceIs(b, q, k, recorded[VarIndex(q, b.vars[k])]);
    }
  }

  lemma MarkedSound(buckets: seq<Bucket>, locators: seq<Locator>, replicaCount: nat, lengths: seq<nat>,
                    recorded: map<VarIndex, seq<real>>, index: VarIndex, value: seq<real>)
    requires Sound(buckets, locators, replicaCount, lengths, recorded)
    requires index.replica < replicaCount && index.variable < |locators| && index !in recorded
    requires var l := locators[index.variable]; buckets[l.bucket].sparse || |value| == lengths[index.variable]
    ensures var l := locators[index.variable];
            && l.bucket < |buckets| && index.replica < |buckets[l.bucket].replicas| && l.intra < |buckets[l.bucket].offsets|
            && (buckets[l.bucket].sparse || buckets[l.bucket].offsets[l.intra] + |value| <= |buckets[l.bucket].replicas[index.replica].contents|)
            && buckets[l.bucket].replicas[index.replica].pending > 0 && buckets[l.bucket].pending > 0
            && Sound(Marked(buckets, l, index.replica, value), locators, replicaCount, lengths, recorded[index := value])
  {
    var l, r := locators[index.variable], index.replica;
    var b := buckets[l.bucket];
    assert WellFormed(b, replicaCount) && Tracks(b, recorded.Keys) && LengthsAgree(b, lengths);
    MarkedBucket(b, replicaCount, recorded, r, l.intra, value);
    var buckets' := Marked(buckets, l, r, value);
    forall c | 0 <= c < |buckets| && c != l.bucket
      ensures Tracks(buckets'[c], recorded[index := value].Keys) && Holds(buckets'[c], replicaCount, recorded[index := value])
    {
      assert index.variable !in buckets[c].vars;
      OtherBucket(buckets[c], replicaCount, recorded, index, value);
    }
    assert Locates(buckets', locators);
  }
}

/** The reducer's steps on values: marks, launches and final gradients. */
module ReducerSteps {
  import opened Basics
  import opened Flat
  import opened Buckets
  import opened ReducerState
  import opened ReducerLayout

  const UNSET_DIV_FACTOR := -1

  ghost function Elements(s: seq<VarIndex>): set<VarIndex> { set x | x in s }

  lemma NoElements()
    ensures Elements([]) == {}
  {
  }

  lemma NextUnused(s: seq<VarIndex>, i: nat, replicaCount: nat, variableCount: nat)
    requires i < |s| && Markable(s, replicaCount, variableCount)
    ensures s[i].replica < replicaCount && s[i].variable < variableCount
    ensures s[i] in Elements(s) && s[i] !in Elements(s[..i]) && Elements(s[..i + 1]) == Elements(s[..i]) + {s[i]}
  {
  }

  lemma DivFactorSettled(current: int, joined: Option<int>, worldSize: int)
    requires worldSize > 0 && (joined.Some? ==> joined.value > 0) && (current == UNSET_DIV_FACTOR || current > 0)
    ensures var div := DivFactor(current, joined, worldSize); div > 0 && DivFactor(div, joined, worldSize) == div
  {
  }

  /** A gradient and a used flag for every variable of every replica. */
  ghost predicate Sized(grads: Grads, localUsed: seq<seq<nat>>, replicaCount: nat, n: nat) {
    |grads| == |localUsed| == replicaCount && forall r :: 0 <= r < replicaCount ==> |grads[r]| == |localUsed[r]| == n
  }

  /** The numbers from 0 up: every bucket launched once, in order. */
  ghost predicate InOrder(s: seq<nat>, n: nat) { |s| == n && forall i :: 0 <= i < n ==> s[i] == i }

  type Grads = seq<seq<Option<seq<real>>>>

  /** What a variable adds to its bucket when it is marked with these gradients. */
  ghost function Share(grads: Grads, lengths: seq<nat>, div: int, x: VarIndex): seq<real> {
    if div != 0 && x.replica < |grads| && x.variable < |grads[x.replica]| && x.variable < |lengths|
    then Contribution(grads[x.replica][x.variable], lengths[x.variable], div) else []
  }

  /** `now` is `before` with the shares of the marked variables. */
  ghost predicate Booked(now: map<VarIndex, seq<real>>, before: map<VarIndex, seq<real>>, marks: set<VarIndex>, grads: Grads, lengths: seq<nat>, div: int) {
    && now.Keys == before.Keys + marks
    && forall x :: x in now ==> now[x] == if x in marks then Share(grads, lengths, div, x) else if x in before then before[x] else []
  }

  ghost predicate GradsKept(now: Grads, before: Grads, marks: set<VarIndex>) {
    && |now| == |before| && (forall r :: 0 <= r < |now| ==> |now[r]| == |before[r]|)
    && forall r, v :: 0 <= r < |now| && 0 <= v < |now[r]| && v < |before[r]| && VarIndex(r, v) !in marks ==> now[r][v] == before[r][v]
  }

  /** A sparse variable can be marked only with a gradient. */
  ghost predicate HasGradient(grads: Grads, buckets: seq<Bucket>, locators: seq<Locator>, x: VarIndex) {
    (&& x.variable < |locators| && locators[x.variable].bucket < |buckets| && buckets[locators[x.variable].bucket].sparse
     && x.replica < |grads| && x.variable < |grads[x.replica]|) ==> grads[x.replica][x.variable].Some?
  }

  ghost predicate AllHaveGradients(grads: Grads, buckets: seq<Bucket>, locators: seq<Locator>, s: seq<VarIndex>) {
    forall i :: 0 <= i < |s| ==> HasGradient(grads, buckets, locators, s[i])
  }

  /** A hook can mark its own variable and those it has to mark first. */
  ghost predicate CanHook(grads: Grads, buckets: seq<Bucket>, locators: seq<Locator>, x: VarIndex, first: seq<VarIndex>) {
    AllHaveGradients(grads, buckets, locators, first) && HasGradient(grads, buckets, locators, x)
  }

  lemma NoneNeedGradients(grads: Grads, buckets: seq<Bucket>, locators: seq<Locator>)
    ensures AllHaveGradients(grads, buckets, locators, [])
  {
  }

  lemma SameGradient(now: Grads, before: Grads, marks: set<VarIndex>, bs: seq<Bucket>, cs: seq<Bucket>, locators: seq<Locator>, x: VarIndex)
    requires GradsKept(now, before, marks) && SameLayout(bs, cs) && x !in marks
    ensures HasGradient(now, bs, locators, x) <==> HasGradient(before, cs, locators, x)
  {
    if x.replica < |now| && x.variable < |now[x.replica]| { assert VarIndex(x.replica, x.variable) == x; }
  }

  ghost predicate IsDense(buckets: seq<Bucket>, locators: seq<Locator>, v: nat) {
    v < |locators| && locators[v].bucket < |buckets| && !buckets[locators[v].bucket].sparse
  }

  /** Marking leaves the gradients of dense variables alone. */
  ghost predicate DenseKept(now: Grads, before: Grads, buckets: seq<Bucket>, locators: seq<Locator>) {
    && |now| == |before| && (forall r :: 0 <= r < |now| ==> |now[r]| == |before[r]|)
    && forall r, v :: 0 <= r < |now| && 0 <= v < |now[r]| && v < |before[r]| && IsDense(buckets, locators, v) ==> now[r][v] == before[r][v]
  }

  lemma DenseKeptRefl(grads: Grads, buckets: seq<Bucket>, locators: seq<Locator>)
    ensures DenseKept(grads, grads, buckets, locators)
  {
  }

  lemma DenseKeptOne(now: Grads, before: Grads, x: VarIndex, value: seq<real>, buckets: seq<Bucket>, locators: seq<Locator>)
    requires x.replica < |before| && x.variable < |before[x.replica]| && x.variable < |locators| && locators[x.variable].bucket < |buckets|
    requires now == if buckets[locators[x.variable].bucket].sparse then before[x.replica := before[x.replica][x.variable := Some(value)]] else before
    ensures DenseKept(now, before, buckets, locators)
  {
  }

  lemma DenseKeptMore(now: Grads, mid: Grads, before: Grads, bs: seq<Bucket>, cs: seq<Bucket>, locators: seq<Locator>)
    requires DenseKept(mid, before, cs, locators) && DenseKept(now, mid, bs, locators) && SameLayout(bs, cs)
    ensures DenseKept(now, before, cs, locators)
  {
    forall v: nat ensures IsDense(bs, locators, v) <==> IsDense(cs, locators, v) {}
  }

  lemma NothingBooked(recorded: map<VarIndex, seq<real>>, grads: Grads, lengths: seq<nat>, div: int)
    ensures Booked(recorded, recorded, {}, grads, lengths, div) && GradsKept(grads, grads, {})
  {
  }

  lemma BookedKeys(now: map<VarIndex, seq<real>>, before: map<VarIndex, seq<real>>, marks: set<VarIndex>, grads: Grads, lengths: seq<nat>, div: int)
    requires Booked(now, before, marks, grads, lengths, div)
    ensures now.Keys == before.Keys + marks
  {
  }

  lemma BookedOne(now: map<VarIndex, seq<real>>, before: map<VarIndex, seq<real>>, x: VarIndex, grads: Grads, lengths: seq<nat>, div: int)
    requires x.replica < |grads| && x.variable < |grads[x.replica]| && x.variable < |lengths| && div != 0
    requires now == before[x := Contribution(grads[x.replica][x.variable], lengths[x.variable], div)]
    ensures Booked(now, before, {x}, grads, lengths, div)
  {
  }

  lemma KeptOne(now: Grads, before: Grads, x: VarIndex, value: seq<real>)
    requires x.replica < |before| && x.variable < |before[x.replica]|
    requires now == before || now == before[x.replica := before[x.replica][x.variable := Some(value)]]
    ensures GradsKept(now, before, {x})
  {
  }

  /** Marks follow upon marks: what was not marked yet still has its gradient. */
  lemma BookedMore(now: map<VarIndex, seq<real>>, mid: map<VarIndex, seq<real>>, before: map<VarIndex, seq<real>>,
                   marks: set<VarIndex>, more: set<VarIndex>, grads: Grads, midGrads: Grads, lengths: seq<nat>, div: int)
    requires Booked(mid, before, marks, grads, lengths, div) && Booked(now, mid, more, midGrads, lengths, div)
    requires GradsKept(midGrads, grads, marks) && marks !! more
    ensures Booked(now, before, marks + more, grads, lengths, div)
  {
    forall x | x in more ensures Share(midGrads, lengths, div, x) == Share(grads, lengths, div, x) { SameShare(midGrads, grads, marks, lengths, div, x); }
  }

  lemma SameShare(now: Grads, before: Grads, marks: set<VarIndex>, lengths: seq<nat>, div: int, x: VarIndex)
    requires GradsKept(now, before, marks) && x !in marks
    ensures Share(now, lengths, div, x) == Share(before, lengths, div, x)
  {
    hide Contribution;
    if x.replica < |now| && x.variable < |now[x.replica]| { assert VarIndex(x.replica, x.variable) == x; }
  }

  lemma KeptMore(now: Grads, mid: Grads, before: Grads, marks: set<VarIndex>, more: set<VarIndex>)
    requires GradsKept(mid, before, marks) && GradsKept(now, mid, more)
    ensures GradsKept(now, before, marks + more)
  {
  }

  lemma NotAnElement(s: seq<VarIndex>, x: VarIndex)
    requires x !in s
    ensures x !in Elements(s)
  {
  }

  function UsedAt(local: seq<seq<nat>>, index: VarIndex): seq<seq<nat>>
    requires index.replica < |local| && index.variable < |local[index.replica]|
  {
    local[index.replica := local[index.replica][index.variable := 1]]
  }

  ghost predicate Markable(s: seq<VarIndex>, replicaCount: nat, variableCount: nat) {
    && (forall i, j :: 0 <= i < j < |s| ==> s[i] != s[j])
    && (forall i :: 0 <= i < |s| ==> s[i].replica < replicaCount && s[i].variable < variableCount)
  }

  /** Every stored gradient of a dense variable has the variable's size. */
  ghost predicate Fit(grads: Grads, buckets: seq<Bucket>, locators: seq<Locator>, lengths: seq<nat>) {
    forall r, v ::
      (&& 0 <= r < |grads| && 0 <= v < |grads[r]| && v < |locators| && v < |lengths| && grads[r][v].Some?
       && locators[v].bucket < |buckets| && !buckets[locators[v].bucket].sparse) ==> |grads[r][v].value| == lengths[v]
  }

  lemma NoneFits(grads: Grads, buckets: seq<Bucket>, locators: seq<Locator>, lengths: seq<nat>)
    requires forall r, v :: 0 <= r < |grads| && 0 <= v < |grads[r]| ==> grads[r][v].None?
    ensures Fit(grads, buckets, locators, lengths)
  {
  }

  lemma FitSameLayout(grads: Grads, bs: seq<Bucket>, cs: seq<Bucket>, locators: seq<Locator>, lengths: seq<nat>)
    requires SameLayout(cs, bs)
    ensures Fit(grads, bs, locators, lengths) <==> Fit(grads, cs, locators, lengths)
  {
  }

  lemma FitKept(grads: Grads, grads': Grads, bs: seq<Bucket>, cs: seq<Bucket>, locators: seq<Locator>,
                lengths: seq<nat>, r: nat, v: nat, value: seq<real>)
    requires Fit(grads, bs, locators, lengths) && SameLayout(cs, bs) && r < |grads| && v < |grads[r]| && v < |locators| && locators[v].bucket < |bs|
    requires grads' == grads || (bs[locators[v].bucket].sparse && grads' == grads[r := grads[r][v := Some(value)]])
    ensures Fit(grads', cs, locators, lengths)
  {
  }

  lemma SoundAt(buckets: seq<Bucket>, locators: seq<Locator>, replicaCount: nat, lengths: seq<nat>, recorded: map<VarIndex, seq<real>>, r: nat, v: nat)
    requires Sound(buckets, locators, replicaCount, lengths, recorded) && r < replicaCount && v < |locators|
    ensures var l := locators[v];
            && l.bucket < |buckets| && r < |buckets[l.bucket].replicas| && Tracks(buckets[l.bucket], recorded.Keys)
            && l.intra < |buckets[l.bucket].vars| && buckets[l.bucket].vars[l.intra] == v
  {
  }

  lemma FitAt(grads: Grads, bs: seq<Bucket>, locators: seq<Locator>, lengths: seq<nat>, r: nat, v: nat)
    requires Fit(grads, bs, locators, lengths) && r < |grads| && v < |grads[r]| && v < |locators| && v < |lengths| && locators[v].bucket < |bs|
    ensures grads[r][v].Some? && !bs[locators[v].bucket].sparse ==> |grads[r][v].value| == lengths[v]
  {
  }

  /** What a variable adds to its bucket: its gradient over the division factor, zeros if it has none. */
  function Contribution(grad: Option<seq<real>>, length: nat, div: int): (value: seq<real>)
    requires div != 0
    ensures grad.None? || |grad.value| == length ==> |value| == length
  {
    if grad.Some? then Scaled(grad.value, div) else Zeros(length)
  }

  /** Element by element: the gradient over the division factor, or zeros in its place. */
  ghost predicate Divided(value: seq<real>, grad: Option<seq<real>>, length: nat, div: int)
    requires div != 0
  {
    && |value| == (if grad.Some? then |grad.value| else length)
    && forall e :: 0 <= e < |value| ==> value[e] == if grad.Some? then grad.value[e] / (div as real) else 0.0
  }

  lemma ContributionIsDivided(grad: Option<seq<real>>, length: nat, div: int)
    requires div != 0
    ensures Divided(Contribution(grad, length, div), grad, length, div)
  {
  }

  /** The division factor is settled by the first mark of a pass. */
  function DivFactor(current: int, joined: Option<int>, worldSize: int): int {
    if current != UNSET_DIV_FACTOR then current else if joined.Some? then joined.value else worldSize
  }

  /** The used map: as it was at the start, until it is overwritten by the reduced map. Counting this
      process too, the reduced map is never below the local one. */
  ghost predicate LazyMap(local: seq<seq<nat>>, reduced: bool, start: seq<seq<nat>>, usedSum: seq<nat>) {
    && |local| == |start|
    && (forall r :: 0 <= r < |local| ==> |local[r]| == |start[r]| == |usedSum|)
    && (forall r, v :: 0 <= r < |start| && 0 <= v < |usedSum| && |start[r]| == |usedSum| ==> start[r][v] <= usedSum[v])
    && (if reduced then forall r :: 0 <= r < |local| ==> local[r] == usedSum else local == start)
  }

  /** What a variable's gradient is after the pass. */
  function FinalGrad(before: Option<seq<real>>, piece: seq<real>, findUnused: bool, used: nat): Option<seq<real>> {
    if findUnused && used == 0 then before else Some(piece)
  }

  /** The first `upTo` variables of the bucket have their final gradients; all others are as before. */
  ghost predicate Scattered(now: seq<Option<seq<real>>>, before: seq<Option<seq<real>>>, b: Bucket, upTo: nat,
                            contents: seq<real>, findUnused: bool, usedSum: seq<nat>) {
    && |now| == |before| && upTo <= |b.vars| == |b.offsets| == |b.lengths|
    && (forall k :: 0 <= k < upTo ==>
          && b.vars[k] < |now| && b.offsets[k] + b.lengths[k] <= |contents| && (findUnused ==> b.vars[k] < |usedSum|)
          && now[b.vars[k]] == FinalGrad(before[b.vars[k]], contents[b.offsets[k]..b.offsets[k] + b.lengths[k]],
                                         findUnused, if findUnused then usedSum[b.vars[k]] else 0))
    && (forall v :: 0 <= v < |now| && v !in b.vars[..upTo] ==> now[v] == before[v])
  }

  /** The final gradient of the variable at position `k` of bucket `b`. */
  function VarFinal(before: Option<seq<real>>, b: Bucket, k: nat, contents: seq<real>, findUnused: bool, used: nat): Option<seq<real>>
    requires k < |b.offsets| == |b.lengths| && (b.sparse || b.offsets[k] + b.lengths[k] <= |contents|)
  {
    if b.sparse then Some(contents)
    else FinalGrad(before, contents[b.offsets[k]..b.offsets[k] + b.lengths[k]], findUnused, used)
  }

  /** The variables of the first `upTo` buckets have their final gradients. */
  ghost predicate Finalized(now: seq<Option<seq<real>>>, before: seq<Option<seq<real>>>, buckets: seq<Bucket>, locators: seq<Locator>,
                            upTo: nat, reduced: seq<seq<real>>, findUnused: bool, usedSum: seq<nat>) {
    && |now| == |before| == |locators| && upTo <= |buckets| == |reduced| && (findUnused ==> |usedSum| == |now|)
    && forall v :: 0 <= v < |now| ==>
         var l := locators[v];
         if l.bucket < upTo then
           && l.intra < |buckets[l.bucket].offsets| == |buckets[l.bucket].lengths|
           && (buckets[l.bucket].sparse || buckets[l.bucket].offsets[l.intra] + buckets[l.bucket].lengths[l.intra] <= |reduced[l.bucket]|)
           && now[v] == VarFinal(before[v], buckets[l.bucket], l.intra, reduced[l.bucket], findUnused, if findUnused then usedSum[v] else 0)
         else now[v] == before[v]
  }

  /** Bucket `b` is done: its variables have their final gradients and no other variable moved. */
  ghost predicate BucketDone(now: seq<Option<seq<real>>>, mid: seq<Option<seq<real>>>, b: Bucket, contents: seq<real>,
                             findUnused: bool, usedSum: seq<nat>) {
    if b.sparse then |b.vars| == 1 && b.vars[0] < |mid| && now == mid[b.vars[0] := Some(contents)]
    else Scattered(now, mid, b, |b.vars|, contents, findUnused, usedSum)
  }

  lemma NothingFinalized(row: seq<Option<seq<real>>>, buckets: seq<Bucket>, locators: seq<Locator>,
                         reduced: seq<seq<real>>, findUnused: bool, usedSum: seq<nat>)
    requires |row| == |locators| && |buckets| == |reduced| && (findUnused ==> |usedSum| == |row|)
    ensures Finalized(row, row, buckets, locators, 0, reduced, findUnused, usedSum)
  {
  }

  /** Finalized gradients have their variables' sizes again. */
  lemma FinalizedFits(now: Grads, before: Grads, buckets: seq<Bucket>, locators: seq<Locator>, replicaCount: nat, lengths: seq<nat>,
                      reduced: seq<seq<real>>, findUnused: bool, usedSum: seq<nat>)
    requires Fit(before, buckets, locators, lengths) && AllWellFormed(buckets, replicaCount, lengths) && Locates(buckets, locators)
    requires |now| == |before| == replicaCount && |locators| == |lengths|
    requires forall r :: 0 <= r < replicaCount ==> Finalized(now[r], before[r], buckets, locators, |buckets|, reduced, findUnused, usedSum)
    ensures Fit(now, buckets, locators, lengths)
  {
    forall r, v | 0 <= r < |now| && 0 <= v < |now[r]| && v < |lengths| && now[r][v].Some? && !buckets[locators[v].bucket].sparse
      ensures |now[r][v].value| == lengths[v]
    {
      assert Finalized(now[r], before[r], buckets, locators, |buckets|, reduced, findUnused, usedSum);
      assert LengthsAgree(buckets[locators[v].bucket], lengths);
    }
  }

  lemma FinalizedStep(now: seq<Option<seq<real>>>, mid: seq<Option<seq<real>>>, before: seq<Option<seq<real>>>, buckets: seq<Bucket>,
                      locators: seq<Locator>, b: nat, reduced: seq<seq<real>>, findUnused: bool, usedSum: seq<nat>)
    requires b < |buckets| && Locates(buckets, locators) && |buckets[b].offsets| == |buckets[b].lengths| == |buckets[b].vars|
    requires Finalized(mid, before, buckets, locators, b, reduced, findUnused, usedSum)
    requires BucketDone(now, mid, buckets[b], reduced[b], findUnused, usedSum)
    ensures Finalized(now, before, buckets, locators, b + 1, reduced, findUnused, usedSum)
  {
  }

  /** Launch order is independent of arrival order: two passes over the same buckets in which the same
      variables have been marked, in whatever order, have launched the same buckets, namely the maximal
      prefix of buckets all of whose variables are marked. */
  lemma LaunchesDependOnMarksOnly(bs: seq<Bucket>, m: nat, cs: seq<Bucket>, n: nat, marked: set<VarIndex>)
    requires |bs| == |cs| && forall b :: 0 <= b < |bs| ==> bs[b].vars == cs[b].vars && |bs[b].replicas| == |cs[b].replicas|
    requires AllTrack(bs, marked) && LaunchedUpTo(bs, m) && NextIsWaiting(bs, m)
    requires AllTrack(cs, marked) && LaunchedUpTo(cs, n) && NextIsWaiting(cs, n)
    ensures m == n
    ensures forall b :: 0 <= b < m ==> AllMarked(bs[b], marked)
    ensures m < |bs| ==> !AllMarked(bs[m], marked)
  {
    forall b | 0 <= b < |bs| ensures (bs[b].pending == 0 <==> AllMarked(bs[b], marked)) && (bs[b].pending == 0 <==> cs[b].pending == 0) {
      ReadyIff(bs[b], marked);
      ReadyIff(cs[b], marked);
    }
  }

  /** The buckets at the start of a pass. */
  method FullBuckets(buckets: seq<Bucket>, locators: seq<Locator>, replicaCount: nat, lengths: seq<nat>) returns (ready: seq<Bucket>)
    requires |locators| == |lengths| && Locates(buckets, locators) && AllWellFormed(buckets, replicaCount, lengths) && replicaCount > 0
    ensures |ready| == |buckets| && SameLayout(ready, buckets)
    ensures Sound(ready, locators, replicaCount, lengths, map[]) && LaunchedUpTo(ready, 0) && NextIsWaiting(ready, 0)
  {
    ready := ResetAccounting(buckets, replicaCount, lengths);
    PassStarts(buckets, ready, locators, replicaCount, lengths);
  }

  lemma PassStarts(bs: seq<Bucket>, ready: seq<Bucket>, locators: seq<Locator>, replicaCount: nat, lengths: seq<nat>)
    requires |ready| == |bs| && AllWellFormed(ready, replicaCount, lengths) && AllTrack(ready, {})
    requires |locators| == |lengths| && Locates(bs, locators) && replicaCount > 0
    requires forall b :: 0 <= b < |bs| ==> ready[b].vars == bs[b].vars && ready[b].sparse == bs[b].sparse
                                           && ready[b].lengths == bs[b].lengths && ready[b].offsets == bs[b].offsets && ready[b].pending > 0
    ensures Sound(ready, locators, replicaCount, lengths, map[]) && LaunchedUpTo(ready, 0) && NextIsWaiting(ready, 0) && SameLayout(ready, bs)
  {
    var nothing: map<VarIndex, seq<real>> := map[];
    assert nothing.Keys == {};
    forall v | 0 <= v < |locators|
      ensures locators[v].bucket < |ready| && locators[v].intra < |ready[locators[v].bucket].vars| && ready[locators[v].bucket].vars[locators[v].intra] == v
    {
      assert locators[v].bucket < |bs| && bs[locators[v].bucket].vars[locators[v].intra] == v;
    }
  }

  /** The finalizer is queued exactly when every replica has marked every variable: by the last mark,
      whichever that is. */
  lemma FinalizerWhenAllMarked(buckets: seq<Bucket>, locators: seq<Locator>, replicaCount: nat, lengths: seq<nat>,
                               recorded: map<VarIndex, seq<real>>, next: nat)
    requires Sound(buckets, locators, replicaCount, lengths, recorded) && LaunchedUpTo(buckets, next) && NextIsWaiting(buckets, next)
    ensures next == |buckets| <==> forall r, v :: 0 <= r < replicaCount && 0 <= v < |lengths| ==> VarIndex(r, v) in recorded
  {
    if next == |buckets| {
      forall r, v | 0 <= r < replicaCount && 0 <= v < |lengths| ensures VarIndex(r, v) in recorded {
        var l := locators[v];
        ReadyIff(buckets[l.bucket], recorded.Keys);
        assert AllMarked(buckets[l.bucket], recorded.Keys) && WellFormed(buckets[l.bucket], replicaCount);
      }
    } else {
      ReadyIff(buckets[next], recorded.Keys);
      assert WellFormed(buckets[next], replicaCount);
      var r, k :| 0 <= r < |buckets[next].replicas| && 0 <= k < |buckets[next].vars| && VarIndex(r, buckets[next].vars[k]) !in recorded.Keys;
      assert locators[buckets[next].vars[k]] == Locator(next, k);
    }
  }

  /** A pass in which every bucket was launched has marked something. */
  lemma NonEmptyPass(buckets: seq<Bucket>, replicaCount: nat, recorded: map<VarIndex, seq<real>>)
    requires buckets != [] && buckets[0].pending == 0 && WellFormed(buckets[0], replicaCount) && replicaCount > 0
    requires Tracks(buckets[0], recorded.Keys)
    ensures recorded != map[]
  {
    ReadyIff(buckets[0], recorded.Keys);
    assert VarIndex(0, buckets[0].vars[0]) in recorded.Keys;
  }

  lemma ScatterNone(row: seq<Option<seq<real>>>, b: Bucket, contents: seq<real>, findUnused: bool, usedSum: seq<nat>)
    requires |b.vars| == |b.offsets| == |b.lengths|
    ensures Scattered(row, row, b, 0, contents, findUnused, usedSum)
  {
  }

  lemma ScatterOne(mid: seq<Option<seq<real>>>, now: seq<Option<seq<real>>>, before: seq<Option<seq<real>>>, b: Bucket, k: nat,
                   contents: seq<real>, findUnused: bool, usedSum: seq<nat>)
    requires k < |b.vars| && Distinct(b.vars) && Scattered(mid, before, b, k, contents, findUnused, usedSum)
    requires b.vars[k] < |mid| && b.offsets[k] + b.lengths[k] <= |contents| && (findUnused ==> b.vars[k] < |usedSum|)
    requires now == mid[b.vars[k] := FinalGrad(mid[b.vars[k]], contents[b.offsets[k]..b.offsets[k] + b.lengths[k]],
                                               findUnused, if findUnused then usedSum[b.vars[k]] else 0)]
    ensures Scattered(now, before, b, k + 1, contents, findUnused, usedSum)
  {
  }

  ghost predicate SameLayout(bs: seq<Bucket>, cs: seq<Bucket>) {
    |bs| == |cs| && forall b :: 0 <= b < |bs| ==>
      bs[b].vars == cs[b].vars && bs[b].sparse == cs[b].sparse && bs[b].lengths == cs[b].lengths && bs[b].offsets == cs[b].offsets
  }

  /** The copy and the countdown of one mark. */
  method MarkOne(buckets: seq<Bucket>, locators: seq<Locator>, replicaCount: nat, lengths: seq<nat>, ghost recorded: map<VarIndex, seq<real>>,
                 ghost next: nat, index: VarIndex, value: seq<real>) returns (marked: seq<Bucket>)
    requires Sound(buckets, locators, replicaCount, lengths, recorded) && LaunchedUpTo(buckets, next) && NextIsWaiting(buckets, next)
    requires index.replica < replicaCount && index.variable < |locators| && index !in recorded
    requires buckets[locators[index.variable].bucket].sparse || |value| == lengths[index.variable]
    ensures Sound(marked, locators, replicaCount, lengths, recorded[index := value]) && LaunchedUpTo(marked, next)
    ensures SameLayout(marked, buckets) && |marked| == |buckets| && next <= locators[index.variable].bucket < |buckets|
    ensures NextIsWaiting(marked, next) || (locators[index.variable].bucket == next && marked[next].pending == 0)
  {
    hide Sound, LaunchedUpTo, NextIsWaiting, SameLayout, Marked;
    var l, r := locators[index.variable], index.replica;
    MarkedSound(buckets, locators, replicaCount, lengths, recorded, index, value);
    MarkedProgress(buckets, next, l, r, value);
    marked := Marked(buckets, l, r, value);
  }

  /** A mark touches no launched bucket, so the launched prefix stays as it was. */
  lemma MarkedProgress(buckets: seq<Bucket>, next: nat, l: Locator, r: nat, value: seq<real>)
    requires LaunchedUpTo(buckets, next) && NextIsWaiting(buckets, next)
    requires l.bucket < |buckets| && r < |buckets[l.bucket].replicas| && l.intra < |buckets[l.bucket].offsets|
    requires buckets[l.bucket].sparse || buckets[l.bucket].offsets[l.intra] + |value| <= |buckets[l.bucket].replicas[r].contents|
    requires buckets[l.bucket].replicas[r].pending > 0 && buckets[l.bucket].pending > 0
    ensures next <= l.bucket && next < |buckets| && LaunchedUpTo(Marked(buckets, l, r, value), next)
    ensures SameLayout(Marked(buckets, l, r, value), buckets) && |Marked(buckets, l, r, value)| == |buckets|
    ensures NextIsWaiting(Marked(buckets, l, r, value), next) || (l.bucket == next && Marked(buckets, l, r, value)[next].pending == 0)
  {
  }

  lemma CompleteMeansMarked(b: Bucket, marked: set<VarIndex>, r: nat, k: nat)
    requires Tracks(b, marked) && r < |b.replicas| && k < |b.vars| && b.replicas[r].pending == 0
    ensures VarIndex(r, b.vars[k]) in marked
  {
    NoneLeft(b.vars, r, marked);
  }

  lemma LayoutSize(bs: seq<Bucket>, cs: seq<Bucket>)
    requires SameLayout(bs, cs)
    ensures |bs| == |cs|
  {
  }

  lemma SameLayoutRefl(bs: seq<Bucket>)
    ensures SameLayout(bs, bs)
  {
  }

  lemma SameLayoutTrans(a: seq<Bucket>, b: seq<Bucket>, c: seq<Bucket>)
    requires SameLayout(a, b) && SameLayout(b, c)
    ensures SameLayout(a, c)
  {
  }

  lemma LaunchedBound(buckets: seq<Bucket>, next: nat)
    requires LaunchedUpTo(buckets, next)
    ensures next <= |buckets|
  {
  }

  lemma LaunchNext(buckets: seq<Bucket>, next: nat, tensors: seq<seq<real>>)
    requires LaunchedUpTo(buckets, next) && next < |buckets| && buckets[next].pending == 0 && tensors == Contents(buckets[next])
    ensures var bs := buckets[next := buckets[next].(work := Some(tensors))]; LaunchedUpTo(bs, next + 1) && SameLayout(bs, buckets)
  {
  }

  lemma LaunchSound(buckets: seq<Bucket>, locators: seq<Locator>, replicaCount: nat, lengths: seq<nat>,
                    recorded: map<VarIndex, seq<real>>, next: nat, tensors: seq<seq<real>>)
    requires Sound(buckets, locators, replicaCount, lengths, recorded) && next < |buckets|
    ensures Sound(buckets[next := buckets[next].(work := Some(tensors))], locators, replicaCount, lengths, recorded)
  {
    hide Locates, Tracks, WellFormed, Holds, LengthsAgree;
    var b := buckets[next];
    WorkIrrelevant(b, replicaCount, lengths, recorded, tensors);
    LocatesSameVars(buckets, buckets[next := b.(work := Some(tensors))], locators);
  }

  lemma WorkIrrelevant(b: Bucket, replicaCount: nat, lengths: seq<nat>, recorded: map<VarIndex, seq<real>>, tensors: seq<seq<real>>)
    requires WellFormed(b, replicaCount) && LengthsAgree(b, lengths) && Tracks(b, recorded.Keys) && Holds(b, replicaCount, recorded)
    ensures var b' := b.(work := Some(tensors));
            WellFormed(b', replicaCount) && LengthsAgree(b', lengths) && Tracks(b', recorded.Keys) && Holds(b', replicaCount, recorded)
  {
  }

  lemma LocatesSameVars(bs: seq<Bucket>, cs: seq<Bucket>, locators: seq<Locator>)
    requires Locates(bs, locators) && |bs| == |cs| && forall b :: 0 <= b < |bs| ==> cs[b].vars == bs[b].vars
    ensures Locates(cs, locators)
  {
  }
}

/** From a bucket assignment to the reducer's tables: the locator table and the bucket views. */
module ReducerLayout {
  import opened Basics
  import opened Flat
  import opened Buckets
  import opened ReducerState

  type Assignment = seq<seq<nat>>

  ghost predicate InRange(a: Assignment, n: nat) {
    forall b, k :: 0 <= b < |a| && 0 <= k < |a[b]| ==> a[b][k] < n
  }

  /** No index occurs twice, within a bucket or across buckets. */
  ghost predicate NoRepeats(a: Assignment) {
    forall b, k, c, m :: 0 <= b < |a| && 0 <= k < |a[b]| && 0 <= c < |a| && 0 <= m < |a[c]| && a[b][k] == a[c][m] ==> b == c && k == m
  }

  ghost predicate OccursAt(a: Assignment, v: nat, b: nat, k: nat) { b < |a| && k < |a[b]| && a[b][k] == v }

  ghost predicate Occurs(a: Assignment, v: nat) { exists b, k :: OccursAt(a, v, b, k) }

  /** Every variable in exactly one place, and no empty bucket. */
  ghost predicate Partition(a: Assignment, n: nat) {
    && InRange(a, n) && NoRepeats(a)
    && (forall b :: 0 <= b < |a| ==> a[b] != [])
    && (forall v :: 0 <= v < n ==> Occurs(a, v))
  }

  /** The locator loop of `initialize_buckets`. Each index that occurs is sent to one of the places
      where it occurs. */
  method FillLocators(a: Assignment, n: nat) returns (locators: seq<Locator>)
    requires InRange(a, n)
    ensures |locators| == n
    ensures forall b, k :: 0 <= b < |a| && 0 <= k < |a[b]| ==>
              OccursAt(a, a[b][k], locators[a[b][k]].bucket, locators[a[b][k]].intra)
  {
    locators := seq(n, _ => Locator(0, 0));
    for bucketIndex := 0 to |a|
      invariant |locators| == n
      invariant forall b, k :: 0 <= b < bucketIndex && 0 <= k < |a[b]| ==>
                  OccursAt(a, a[b][k], locators[a[b][k]].bucket, locators[a[b][k]].intra)
    {
      for intra := 0 to |a[bucketIndex]|
        invariant |locators| == n
        invariant forall b, k :: 0 <= b < bucketIndex && 0 <= k < |a[b]| ==>
                    OccursAt(a, a[b][k], locators[a[b][k]].bucket, locators[a[b][k]].intra)
        invariant forall k :: 0 <= k < intra ==>
                    OccursAt(a, a[bucketIndex][k], locators[a[bucketIndex][k]].bucket, locators[a[bucketIndex][k]].intra)
      {
        locators := locators[a[bucketIndex][intra] := Locator(bucketIndex, intra)];
      }
    }
  }

  /** On a partition the locator table is the inverse of the bucket lists. */
  lemma LocatorsInvert(a: Assignment, n: nat, locators: seq<Locator>, buckets: seq<Bucket>)
    requires Partition(a, n) && |locators| == n
    requires forall b, k :: 0 <= b < |a| && 0 <= k < |a[b]| ==>
               OccursAt(a, a[b][k], locators[a[b][k]].bucket, locators[a[b][k]].intra)
    requires |buckets| == |a| && forall b :: 0 <= b < |a| ==> buckets[b].vars == a[b]
    ensures Locates(buckets, locators)
  {
    forall b, k | 0 <= b < |buckets| && 0 <= k < |buckets[b].vars|
      ensures buckets[b].vars[k] < n && locators[buckets[b].vars[k]] == Locator(b, k)
    {
      var l := locators[a[b][k]];
      assert OccursAt(a, a[b][k], l.bucket, l.intra);
    }
    forall v | 0 <= v < n
      ensures locators[v].bucket < |buckets| && locators[v].intra < |buckets[locators[v].bucket].vars|
              && buckets[locators[v].bucket].vars[locators[v].intra] == v
    {
      assert Occurs(a, v);
      var b: nat, k: nat :| OccursAt(a, v, b, k);
      assert a[b][k] == v;
    }
  }

  /** What `initialize_buckets` insists on; it does not check that indices are unique. */
  ghost predicate Accepted(vars: seq<nat>, kinds: seq<nat>, expectSparse: seq<bool>)
    requires |kinds| == |expectSparse|
  {
    && vars != [] && vars[0] < |kinds|
    && (forall k :: 0 <= k < |vars| ==> vars[k] < |kinds| && kinds[vars[k]] == kinds[vars[0]])
    && (|vars| > 1 ==> forall k :: 0 <= k < |vars| ==> !expectSparse[vars[k]])
  }

  /** The checks on one bucket of `initialize_buckets`. `kinds` are the (dtype, device) classes. */
  method CheckBucket(vars: seq<nat>, kinds: seq<nat>, expectSparse: seq<bool>) returns (ok: bool)
    requires |kinds| == |expectSparse|
    ensures ok <==> Accepted(vars, kinds, expectSparse)
  {
    if vars == [] { return false; }
    for k := 0 to |vars|
      invariant k > 0 ==> vars[0] < |kinds|
      invariant forall j :: 0 <= j < k ==> vars[j] < |kinds| && kinds[vars[j]] == kinds[vars[0]]
      invariant |vars| > 1 ==> forall j :: 0 <= j < k ==> !expectSparse[vars[j]]
    {
      if vars[k] >= |kinds| || kinds[vars[k]] != kinds[vars[0]] { return false; }
      if |vars| > 1 && expectSparse[vars[k]] { return false; }
    }
    return true;
  }

  /** The offsets loop of `initialize_buckets`: the views of a dense bucket tile its buffer. */
  method LayOut(vars: seq<nat>, lengths: seq<nat>, sparse: bool, replicaCount: nat) returns (b: Bucket)
    requires vars != [] && (sparse ==> |vars| == 1) && forall k :: 0 <= k < |vars| ==> vars[k] < |lengths|
    ensures b.vars == vars && LengthsAgree(b, lengths) && b.sparse == sparse
    ensures Distinct(vars) ==> WellFormed(b, replicaCount)
  {
    var offset, offsets, sizes := 0, [], [];
    for k := 0 to |vars|
      invariant |offsets| == |sizes| == k && offset == Sum(sizes) && Tiled(offsets, sizes)
      invariant forall j :: 0 <= j < k ==> sizes[j] == lengths[vars[j]]
    {
      hide Tiled;
      var length := lengths[vars[k]];
      TiledMore(offsets, sizes, length);
      offsets, sizes := offsets + [offset], sizes + [length];
      offset := offset + length;
    }
    var replica := Replica(Zeros(offset), 0);
    b := Bucket(vars, sizes, offsets, sparse, seq(replicaCount, _ => replica), 0, None);
  }

  lemma TiledMore(offsets: seq<nat>, sizes: seq<nat>, length: nat)
    requires Tiled(offsets, sizes)
    ensures Tiled(offsets + [Sum(sizes)], sizes + [length]) && Sum(sizes + [length]) == Sum(sizes) + length
  {
    var more := sizes + [length];
    assert more[..|sizes|] == sizes;
    forall k | 0 <= k < |more| ensures (offsets + [Sum(sizes)])[k] == Sum(more[..k]) {
      assert more[..k] == sizes[..k];
      assert sizes[..|sizes|] == sizes;
    }
  }

  /** `initialize_buckets`. On an assignment that partitions the variables, the bucket list and the
      locator table that result are what every backward pass starts from. */
  method InitializeBuckets(a: Assignment, lengths: seq<nat>, kinds: seq<nat>, expectSparse: seq<bool>, replicaCount: nat)
      returns (ok: bool, buckets: seq<Bucket>, locators: seq<Locator>)
    requires |lengths| == |kinds| == |expectSparse|
    ensures ok <==> forall b :: 0 <= b < |a| ==> Accepted(a[b], kinds, expectSparse)
    ensures ok ==> |buckets| == |a| && forall b :: 0 <= b < |a| ==>
                     buckets[b].vars == a[b] && buckets[b].sparse == (|a[b]| == 1 && expectSparse[a[b][0]])
    ensures ok && Partition(a, |lengths|) ==>
              |locators| == |lengths| && Locates(buckets, locators) && AllWellFormed(buckets, replicaCount, lengths)
  {
    buckets, locators := [], [];
    for b := 0 to |a|
      invariant |buckets| == b && forall c :: 0 <= c < b ==> Accepted(a[c], kinds, expectSparse)
      invariant forall c :: 0 <= c < b ==> buckets[c].vars == a[c] && buckets[c].sparse == (|a[c]| == 1 && expectSparse[a[c][0]])
      invariant forall c :: 0 <= c < b ==> LengthsAgree(buckets[c], lengths) && (Distinct(a[c]) ==> WellFormed(buckets[c], replicaCount))
    {
      var accepted := CheckBucket(a[b], kinds, expectSparse);
      if !accepted { return false, buckets, locators; }
      var bucket := LayOut(a[b], lengths, |a[b]| == 1 && expectSparse[a[b][0]], replicaCount);
      buckets := buckets + [bucket];
    }
    ok := true;
    AcceptedInRange(a, kinds, expectSparse);
    locators := FillLocators(a, |lengths|);
    if Partition(a, |lengths|) { LocatorsInvert(a, |lengths|, locators, buckets); }
  }

  lemma PartitionNotEmpty(a: Assignment, n: nat)
    requires Partition(a, n) && n > 0
    ensures a != []
  {
    assert Occurs(a, 0);
  }

  lemma AcceptedInRange(a: Assignment, kinds: seq<nat>, expectSparse: seq<bool>)
    requires |kinds| == |expectSparse| && forall b :: 0 <= b < |a| ==> Accepted(a[b], kinds, expectSparse)
    ensures InRange(a, |kinds|)
  {
  }

  /** The counter reset of `prepare_for_backward`: before the first mark of a pass every counter is at
      the number of variables, and of replicas, to come. */
  method ResetAccounting(buckets: seq<Bucket>, replicaCount: nat, lengths: seq<nat>) returns (ready: seq<Bucket>)
    requires AllWellFormed(buckets, replicaCount, lengths)
    ensures |ready| == |buckets| && AllWellFormed(ready, replicaCount, lengths) && AllTrack(ready, {})
    ensures forall b :: 0 <= b < |buckets| ==> ready[b].vars == buckets[b].vars && ready[b].sparse == buckets[b].sparse
                                               && ready[b].lengths == buckets[b].lengths && ready[b].offsets == buckets[b].offsets
    ensures forall b :: 0 <= b < |buckets| ==> ready[b].work == buckets[b].work && SameContents(ready[b], buckets[b])
    ensures replicaCount > 0 ==> forall b :: 0 <= b < |buckets| ==> ready[b].pending > 0
  {
    ready := [];
    for b := 0 to |buckets|
      invariant |ready| == b
      invariant forall c :: 0 <= c < b ==> ready[c] == Reset(buckets[c])
    {
      ready := ready + [Reset(buckets[b])];
    }
    forall b | 0 <= b < |buckets|
      ensures WellFormed(ready[b], replicaCount) && LengthsAgree(ready[b], lengths) && Tracks(ready[b], {})
              && (replicaCount > 0 ==> ready[b].pending > 0)
    {
      ResetTracks(buckets[b], replicaCount);
    }
  }

  ghost predicate SameContents(b: Bucket, c: Bucket) {
    |b.replicas| == |c.replicas| && forall r :: 0 <= r < |b.replicas| ==> b.replicas[r].contents == c.replicas[r].contents
  }

  function Reset(b: Bucket): Bucket {
    b.(replicas := seq(|b.replicas|, r requires 0 <= r < |b.replicas| => b.replicas[r].(pending := |b.vars|)),
       pending := |b.replicas|)
  }

  lemma ResetTracks(b: Bucket, replicaCount: nat)
    requires WellFormed(b, replicaCount)
    ensures WellFormed(Reset(b), replicaCount) && Tracks(Reset(b), {})
  {
    var b' := Reset(b);
    forall r | 0 <= r < |b'.replicas| ensures b'.replicas[r].pending == |Unmarked(b'.vars, r, {})| {
      assert Unmarked(b'.vars, r, {}) == UpTo(|b.vars|);
    }
    assert Incomplete(b'.replicas) == UpTo(|b.replicas|);
  }

  ghost function UpTo(n: nat): (s: set<nat>)
    ensures |s| == n && forall i :: i in s <==> 0 <= i < n
  {
    if n == 0 then {} else UpTo(n - 1) + {n - 1}
  }
}

/** The reducer object. `mutex_` makes every public operation one step. */
module ReducerObject {
  import opened Basics
  import opened Flat
  import opened Buckets
  import opened ReducerState
  import opened ReducerLayout
  import opened ReducerSteps

  datatype MarkResult = Ok | TooManyMarks | SparseGradientMissing

  class Reducer {
    const replicaCount: nat
    const lengths: seq<nat>              // physical_numel of each variable
    const findUnused: bool
    const worldSize: int
    var buckets: seq<Bucket>
    var locators: seq<Locator>
    var nextBucket: nat
    var expectHooks: bool
    var requireFinalize: bool
    var hasMarkedUnused: bool
    var unused: seq<VarIndex>
    var divFactor: int
    var grads: Grads
    var localUsed: seq<seq<nat>>
    var localUsedDev: seq<seq<nat>>      // the copy handed to the allreduce of the used maps
    var localUsedReduced: bool
    var usedWaited: bool                 // the allreduce of the used maps has been waited for

    // History of the current pass: what each variable contributed, which reductions were started, how
    // often the finalizer was queued.
    ghost var recorded: map<VarIndex, seq<real>>
    ghost var launched: seq<nat>
    ghost var finalizeQueued: nat

    /** The reducer over an assignment that `initialize_buckets` accepts and that partitions the
        variables, before its first pass. */
    constructor (a: Assignment, lengths: seq<nat>, kinds: seq<nat>, expectSparse: seq<bool>, replicaCount: nat, worldSize: int, findUnused: bool)
      requires replicaCount > 0 && worldSize > 0 && |lengths| > 0 && |lengths| == |kinds| == |expectSparse|
      requires Partition(a, |lengths|) && forall b :: 0 <= b < |a| ==> Accepted(a[b], kinds, expectSparse)
      ensures Prepared() && !expectHooks && !requireFinalize && GradsFit()
      ensures |buckets| == |a| && forall b :: 0 <= b < |a| ==> buckets[b].vars == a[b]
      ensures this.lengths == lengths && this.replicaCount == replicaCount && this.findUnused == findUnused && this.worldSize == worldSize
      ensures !localUsedReduced && divFactor == UNSET_DIV_FACTOR && localUsed == seq(replicaCount, _ => seq(|lengths|, _ => 0))
    {
      this.lengths, this.replicaCount, this.worldSize, this.findUnused := lengths, replicaCount, worldSize, findUnused;
      nextBucket, expectHooks, requireFinalize, hasMarkedUnused, unused := 0, false, false, false, [];
      divFactor, localUsedReduced, usedWaited := UNSET_DIV_FACTOR, false, false;
      grads := seq(replicaCount, _ => seq(|lengths|, _ => None));
      localUsed := seq(replicaCount, _ => seq(|lengths|, _ => 0));
      localUsedDev := [];
      recorded, launched, finalizeQueued := map[], [], 0;
      new;
      hide Locates, AllWellFormed, Accepted, Partition, Fit;
      var ok;
      ok, buckets, locators := InitializeBuckets(a, lengths, kinds, expectSparse, replicaCount);
      PartitionNotEmpty(a, |lengths|);
      NoneFits(grads, buckets, locators, lengths);
    }

    /** The static tables: what holds between passes. */
    ghost predicate Prepared()
      reads this
    {
      Shaped() && Locates(buckets, locators) && AllWellFormed(buckets, replicaCount, lengths)
    }

    /** The accounting half of `prepare_for_backward`; `found` is what the graph search found unused. */
    method PrepareForBackward(found: seq<VarIndex>)
      requires Prepared() && !requireFinalize
      modifies this`buckets, this`nextBucket, this`expectHooks, this`hasMarkedUnused, this`unused,
               this`recorded, this`launched, this`finalizeQueued
      ensures Valid() && expectHooks && recorded == map[] && !hasMarkedUnused && finalizeQueued == 0
      ensures unused == if findUnused then found else []
      ensures old(GradsFit()) ==> GradsFit()
      ensures SameLayout(buckets, old(buckets))
    {
      hide SameLayout, Sound, AllWellFormed, Locates, NextIsWaiting, LaunchedUpTo, Sized, Fit;
      var ready := FullBuckets(buckets, locators, replicaCount, lengths);
      FitSameLayout(grads, buckets, ready, locators, lengths);
      expectHooks, nextBucket, hasMarkedUnused, buckets := true, 0, false, ready;
      unused := if findUnused then found else [];
      recorded, launched, finalizeQueued := map[], [], 0;
    }

    ghost predicate Shaped()
      reads this
    {
      && worldSize > 0 && replicaCount > 0 && buckets != [] && |locators| == |lengths|
      && Sized(grads, localUsed, replicaCount, |lengths|)
      && (divFactor == UNSET_DIV_FACTOR || divFactor > 0)
    }

    /** In a backward pass: counters, buffers and launches are what the marks made so far demand. */
    ghost predicate Valid()
      reads this
    {
      && Shaped()
      && Sound(buckets, locators, replicaCount, lengths, recorded)
      && LaunchedUpTo(buckets, nextBucket) && NextIsWaiting(buckets, nextBucket)
      && InOrder(launched, nextBucket)
      && finalizeQueued == (if nextBucket == |buckets| then 1 else 0)
      && (requireFinalize <==> recorded != map[]) && (requireFinalize ==> expectHooks)
    }

    ghost predicate GradsFit()
      reads this
    {
      Fit(grads, buckets, locators, lengths)
    }

    /** `mark_bucket_ready`: launches the maximal run of ready buckets, in order. */
    method MarkBucketReady(bucketIndex: nat)
      requires Sound(buckets, locators, replicaCount, lengths, recorded) && LaunchedUpTo(buckets, nextBucket)
      requires bucketIndex < |buckets| && nextBucket <= bucketIndex
      requires NextIsWaiting(buckets, nextBucket) || bucketIndex == nextBucket
      requires InOrder(launched, nextBucket)
      modifies this`buckets, this`nextBucket, this`launched
      ensures Sound(buckets, locators, replicaCount, lengths, recorded)
      ensures LaunchedUpTo(buckets, nextBucket) && NextIsWaiting(buckets, nextBucket)
      ensures InOrder(launched, nextBucket)
      ensures SameLayout(buckets, old(buckets))
    {
      hide Sound, SameLayout, LaunchedUpTo;
      SameLayoutRefl(buckets);
      if bucketIndex > nextBucket { return; }
      LaunchedBound(buckets, nextBucket);
      while nextBucket < |buckets| && buckets[nextBucket].pending == 0
        invariant Sound(buckets, locators, replicaCount, lengths, recorded) && LaunchedUpTo(buckets, nextBucket)
        invariant InOrder(launched, nextBucket) && nextBucket <= |buckets|
        invariant SameLayout(buckets, old(buckets))
        decreases |buckets| - nextBucket
      {
        var bucket := buckets[nextBucket];
        var tensors := seq(|bucket.replicas|, r requires 0 <= r < |bucket.replicas| => bucket.replicas[r].contents);
        LaunchSound(buckets, locators, replicaCount, lengths, recorded, nextBucket, tensors);
        LaunchNext(buckets, nextBucket, tensors);
        SameLayoutTrans(buckets[nextBucket := bucket.(work := Some(tensors))], buckets, old(buckets));
        buckets := buckets[nextBucket := bucket.(work := Some(tensors))];
        launched := launched + [nextBucket];
        nextBucket := nextBucket + 1;
      }
    }

    /** The second half of `mark_variable_ready`: copy into the bucket, count down, launch what became
        ready in order, and queue the finalizer when nothing is left to launch. */
    method Book(index: VarIndex, value: seq<real>)
      requires Valid() && expectHooks && index.replica < replicaCount && index.variable < |lengths| && index !in recorded
      requires buckets[locators[index.variable].bucket].sparse || |value| == lengths[index.variable]
      modifies this`buckets, this`nextBucket, this`launched, this`recorded, this`finalizeQueued,
               this`requireFinalize, this`localUsedDev, this`usedWaited
      ensures Valid() && recorded == old(recorded)[index := value]
      ensures SameLayout(buckets, old(buckets))
      ensures finalizeQueued == 1 && findUnused ==> localUsedDev == localUsed
    {
      hide Sound, LaunchedUpTo, NextIsWaiting, SameLayout, Locates, AllWellFormed, AllTrack, AllHold, Sized, InOrder, Reducer.Valid;
      PassFacts(this);
      requireFinalize := true;
      var l := locators[index.variable];
      SoundAt(buckets, locators, replicaCount, lengths, recorded, index.replica, index.variable);
      var next := MarkOne(buckets, locators, replicaCount, lengths, recorded, nextBucket, index, value);
      buckets := next;
      recorded := recorded[index := value];
      LaunchReady(l.bucket);
      SameLayoutTrans(buckets, next, old(buckets));
      assert index in recorded;
      PassHolds(this);
    }

    /** What follows the countdown: launch if the bucket became ready, finish if nothing is left to launch. */
    method LaunchReady(bucketIndex: nat)
      requires buckets != [] && bucketIndex < |buckets| && nextBucket <= bucketIndex && finalizeQueued == 0
      requires Sound(buckets, locators, replicaCount, lengths, recorded) && LaunchedUpTo(buckets, nextBucket) && InOrder(launched, nextBucket)
      requires NextIsWaiting(buckets, nextBucket) || (bucketIndex == nextBucket && buckets[nextBucket].pending == 0)
      modifies this`buckets, this`nextBucket, this`launched, this`finalizeQueued, this`localUsedDev, this`usedWaited
      ensures buckets != [] && SameLayout(buckets, old(buckets)) && Sound(buckets, locators, replicaCount, lengths, recorded)
      ensures LaunchedUpTo(buckets, nextBucket) && NextIsWaiting(buckets, nextBucket) && InOrder(launched, nextBucket)
      ensures finalizeQueued == if nextBucket == |buckets| then 1 else 0
      ensures finalizeQueued == 1 && findUnused ==> localUsedDev == localUsed
    {
      hide Sound, LaunchedUpTo, SameLayout, InOrder;
      SameLayoutRefl(buckets);
      if buckets[bucketIndex].pending == 0 { MarkBucketReady(bucketIndex); }
      LayoutSize(buckets, old(buckets));
      if nextBucket == |buckets| { QueueFinalizer(); }
    }

    /** Hands the used maps to their allreduce and queues `finalize_backward`. */
    method QueueFinalizer()
      modifies this`localUsedDev, this`finalizeQueued, this`usedWaited
      ensures finalizeQueued == old(finalizeQueued) + 1
      ensures localUsedDev == if findUnused then localUsed else old(localUsedDev)
      ensures usedWaited == (!findUnused && old(usedWaited))
    {
      if findUnused { localUsedDev, usedWaited := localUsed, false; }
      finalizeQueued := finalizeQueued + 1;
    }

    /** `mark_variable_ready`. A variable marked for the first time this pass is accepted and its scaled
        gradient (zeros if it has none) becomes its contribution; a mark for a bucket replica that is
        already complete is rejected. `joined` is the number of participating processes, if the forward
        pass asked for it. */
    method MarkVariableReady(index: VarIndex, joined: Option<int>) returns (result: MarkResult)
      requires Valid() && GradsFit() && expectHooks && index.replica < replicaCount && index.variable < |lengths|
      requires joined.Some? ==> joined.value > 0
      requires index !in recorded || Complete(index)
      modifies this`buckets, this`nextBucket, this`launched, this`recorded, this`finalizeQueued,
               this`requireFinalize, this`divFactor, this`localUsedDev, this`usedWaited, this`grads
      ensures result == TooManyMarks <==> index in old(recorded)
      ensures result == SparseGradientMissing <==>
                index !in old(recorded) && old(buckets)[locators[index.variable].bucket].sparse && old(grads)[index.replica][index.variable].None?
      ensures result != Ok ==> unchanged(`buckets, `nextBucket, `launched, `recorded, `finalizeQueued, `grads, `localUsedDev, `usedWaited)
      ensures result != Ok ==> requireFinalize
      ensures divFactor == if result == TooManyMarks then old(divFactor) else DivFactor(old(divFactor), joined, worldSize)
      ensures result == Ok ==>
                && Valid() && SameLayout(buckets, old(buckets))
                && recorded == old(recorded)[index := Contribution(old(grads)[index.replica][index.variable], lengths[index.variable], divFactor)]
                && Divided(recorded[index], old(grads)[index.replica][index.variable], lengths[index.variable], divFactor)
                && (finalizeQueued == 1 && findUnused ==> localUsedDev == localUsed)
                && GradsFit()
                && grads == if old(buckets)[locators[index.variable].bucket].sparse
                            then old(grads)[index.replica := old(grads)[index.replica][index.variable := Some(recorded[index])]]
                            else old(grads)
    {
      hide Sound, LaunchedUpTo, NextIsWaiting, SameLayout, Fit, Contribution, Tracks, Divided;
      var l, r := locators[index.variable], index.replica;
      SoundAt(buckets, locators, replicaCount, lengths, recorded, r, index.variable);
      FitAt(grads, buckets, locators, lengths, r, index.variable);
      if buckets[l.bucket].replicas[r].pending == 0 {
        CompleteMeansMarked(buckets[l.bucket], recorded.Keys, r, l.intra);
        requireFinalize := true;
        return TooManyMarks;
      }
      divFactor := DivFactor(divFactor, joined, worldSize);
      var grad := grads[r][index.variable];
      if buckets[l.bucket].sparse && grad.None? {
        requireFinalize := true;
        return SparseGradientMissing;
      }
      var value := Contribution(grad, lengths[index.variable], divFactor);
      ContributionIsDivided(grad, lengths[index.variable], divFactor);
      if buckets[l.bucket].sparse {
        grads := grads[r := grads[r][index.variable := Some(value)]];      // divided in place
      }
      Book(index, value);
      FitKept(old(grads), grads, old(buckets), buckets, locators, lengths, r, index.variable, value);
      result := Ok;
    }

    /** The local map is untouched, or has been overwritten with the reduced one after the wait. */
    ghost predicate Lazily(start: seq<seq<nat>>, usedSum: seq<nat>)
      reads this
    {
      LazyMap(localUsed, localUsedReduced, start, usedSum) && (localUsedReduced ==> usedWaited)
    }

    /** The lazy decision of `finalize_bucket_dense`: wait for the reduced map only when a variable is
        locally unused, and then overwrite the local map with it. Whatever was decided before, the
        answer is whether no process used the variable. */
    method GloballyUnused(r: nat, v: nat, usedSum: seq<nat>, ghost localAtStart: seq<seq<nat>>) returns (globalUnused: bool)
      requires findUnused && r < |localUsed| && v < |usedSum|
      requires Lazily(localAtStart, usedSum)
      modifies this`localUsed, this`localUsedReduced, this`usedWaited
      ensures Lazily(localAtStart, usedSum) && |localUsed| == |old(localUsed)|
      ensures globalUnused <==> usedSum[v] == 0
    {
      globalUnused := localUsed[r][v] == 0;
      if globalUnused && !localUsedReduced {
        usedWaited := true;
        localUsed := seq(|localUsed|, _ => usedSum);
        globalUnused := localUsed[r][v] == 0;
        localUsedReduced := true;
      }
    }

    /** `finalize_bucket_dense`: each variable of the bucket gets its piece of the reduced buffer back,
        unless no process used it. Gradients of other variables are left alone. */
    method FinalizeBucketDense(b: nat, contents: seq<real>, usedSum: seq<nat>, ghost localAtStart: seq<seq<nat>>)
      requires Shaped() && b < |buckets| && WellFormed(buckets[b], replicaCount) && LengthsAgree(buckets[b], lengths)
      requires !buckets[b].sparse && |contents| == Sum(buckets[b].lengths)
      requires findUnused ==> |usedSum| == |lengths| && Lazily(localAtStart, usedSum)
      modifies this`grads, this`localUsed, this`localUsedReduced, this`usedWaited
      ensures Shaped() && (findUnused ==> Lazily(localAtStart, usedSum))
      ensures forall r :: 0 <= r < replicaCount ==>
                Scattered(grads[r], old(grads)[r], buckets[b], |buckets[b].vars|, contents, findUnused, usedSum)
    {
      for r := 0 to replicaCount
        invariant Shaped() && (findUnused ==> Lazily(localAtStart, usedSum))
        invariant forall q :: 0 <= q < r ==>
                    Scattered(grads[q], old(grads)[q], buckets[b], |buckets[b].vars|, contents, findUnused, usedSum)
        invariant forall q :: r <= q < replicaCount ==> grads[q] == old(grads)[q]
      {
        hide Scattered, LazyMap, WellFormed, LengthsAgree;
        FinalizeReplica(b, r, contents, usedSum, localAtStart);
      }
    }

    /** The inner loop of `finalize_bucket_dense`. */
    method FinalizeReplica(b: nat, r: nat, contents: seq<real>, usedSum: seq<nat>, ghost localAtStart: seq<seq<nat>>)
      requires Shaped() && b < |buckets| && WellFormed(buckets[b], replicaCount) && LengthsAgree(buckets[b], lengths)
      requires r < replicaCount && !buckets[b].sparse && |contents| == Sum(buckets[b].lengths)
      requires findUnused ==> |usedSum| == |lengths| && Lazily(localAtStart, usedSum)
      modifies this`grads, this`localUsed, this`localUsedReduced, this`usedWaited
      ensures Shaped() && (findUnused ==> Lazily(localAtStart, usedSum))
      ensures Scattered(grads[r], old(grads)[r], buckets[b], |buckets[b].vars|, contents, findUnused, usedSum)
      ensures forall q :: 0 <= q < replicaCount && q != r ==> grads[q] == old(grads)[q]
    {
      hide Sum, Scattered;
      var bucket, row := buckets[b], grads[r];
      ScatterNone(row, bucket, contents, findUnused, usedSum);
      for k := 0 to |bucket.vars|
        invariant grads == old(grads) && |row| == |lengths| && |localUsed| == replicaCount
        invariant if findUnused then Lazily(localAtStart, usedSum) else localUsed == old(localUsed)
        invariant Scattered(row, grads[r], bucket, k, contents, findUnused, usedSum)
      {
        hide LazyMap;
        var v := bucket.vars[k];
        PieceInside(bucket.offsets, bucket.lengths, k);
        var globalUnused := false;
        if findUnused { globalUnused := GloballyUnused(r, v, usedSum, localAtStart); }
        var piece := contents[bucket.offsets[k]..bucket.offsets[k] + bucket.lengths[k]];
        ghost var before := row;
        row := row[v := if globalUnused then row[v] else Some(piece)];
        ScatterOne(before, row, grads[r], bucket, k, contents, findUnused, usedSum);
      }
      grads := grads[r := row];
    }

    /** `finalize_backward`, run once the finalizer was queued. `reduced[b]` is what the allreduce of
        bucket `b` left in its buffers and `usedSum` the reduced used map. The internal assertions hold;
        every dense gradient becomes its piece of the reduced buffer unless no process used it, a sparse
        one shares the buffer; and the reducer is ready for the next pass. */
    method FinalizeBackward(reduced: seq<seq<real>>, usedSum: seq<nat>)
      requires InPass() && finalizeQueued == 1 && Reduced(reduced)
      requires findUnused ==> !localUsedReduced && LazyMap(localUsed, false, localUsed, usedSum) && |usedSum| == |lengths|
      modifies this`expectHooks, this`requireFinalize, this`divFactor, this`grads, this`localUsed, this`localUsedReduced, this`usedWaited
      ensures Prepared() && GradsFit() && !expectHooks && !requireFinalize && divFactor == UNSET_DIV_FACTOR
      ensures forall r :: 0 <= r < replicaCount ==> Finalized(grads[r], old(grads)[r], buckets, locators, |buckets|, reduced, findUnused, usedSum)
      ensures findUnused ==> !localUsedReduced && usedWaited && localUsed == seq(replicaCount, _ => seq(|lengths|, _ => 0))
    {
      hide LaunchedUpTo, Finalized, LazyMap, WellFormed, LengthsAgree, Locates, AllTrack, AllHold, Fit;
      AllLaunched(this);
      assert expectHooks;
      expectHooks := false;
      assert requireFinalize;
      requireFinalize := false;
      divFactor := UNSET_DIV_FACTOR;
      assert nextBucket == |buckets|;
      FinalizeBuckets(reduced, usedSum, localUsed);
      ResetUsed();
      FinalizedFits(grads, old(grads), buckets, locators, replicaCount, lengths, reduced, findUnused, usedSum);
    }

    /** The reductions have left buffers of the sizes they were given. */
    ghost predicate Reduced(reduced: seq<seq<real>>)
      reads this
    {
      |reduced| == |buckets| && forall b :: 0 <= b < |buckets| && !buckets[b].sparse ==> |reduced[b]| == Sum(buckets[b].lengths)
    }

    /** The loop of `finalize_backward`. */
    method FinalizeBuckets(reduced: seq<seq<real>>, usedSum: seq<nat>, ghost start: seq<seq<nat>>)
      requires Shaped() && Locates(buckets, locators) && AllWellFormed(buckets, replicaCount, lengths) && Reduced(reduced)
      requires forall b :: 0 <= b < |buckets| ==> buckets[b].work.Some?
      requires findUnused ==> |usedSum| == |lengths| && Lazily(start, usedSum)
      modifies this`grads, this`localUsed, this`localUsedReduced, this`usedWaited
      ensures Shaped() && (findUnused ==> Lazily(start, usedSum))
      ensures forall r :: 0 <= r < replicaCount ==> Finalized(grads[r], old(grads)[r], buckets, locators, |buckets|, reduced, findUnused, usedSum)
    {
      hide Finalized, Locates, AllWellFormed, LazyMap;
      forall r | 0 <= r < replicaCount ensures Finalized(grads[r], grads[r], buckets, locators, 0, reduced, findUnused, usedSum) {
        NothingFinalized(grads[r], buckets, locators, reduced, findUnused, usedSum);
      }
      for b := 0 to |buckets|
        invariant Shaped() && (findUnused ==> Lazily(start, usedSum))
        invariant forall r :: 0 <= r < replicaCount ==> Finalized(grads[r], old(grads)[r], buckets, locators, b, reduced, findUnused, usedSum)
      {
        assert buckets[b].work.Some?;
        FinalizeBucket(b, reduced, usedSum, start, old(grads));
      }
    }

    /** The closing lines of `finalize_backward`. */
    method ResetUsed()
      requires Shaped() && (findUnused && localUsedReduced ==> usedWaited)
      modifies this`localUsed, this`localUsedReduced, this`usedWaited
      ensures Shaped()
      ensures findUnused ==> !localUsedReduced && usedWaited && localUsed == seq(replicaCount, _ => seq(|lengths|, _ => 0))
      ensures !findUnused ==> unchanged(`localUsed, `localUsedReduced, `usedWaited)
    {
      if findUnused {
        localUsed := seq(replicaCount, _ => seq(|lengths|, _ => 0));
        if !localUsedReduced { usedWaited := true; }
        localUsedReduced := false;
      }
    }

    /** One round of the loop of `finalize_backward`. */
    method FinalizeBucket(b: nat, reduced: seq<seq<real>>, usedSum: seq<nat>, ghost start: seq<seq<nat>>, ghost before: Grads)
      requires Shaped() && b < |buckets| == |reduced| && Locates(buckets, locators) && AllWellFormed(buckets, replicaCount, lengths)
      requires !buckets[b].sparse ==> |reduced[b]| == Sum(buckets[b].lengths)
      requires findUnused ==> |usedSum| == |lengths| && Lazily(start, usedSum)
      requires |before| == replicaCount
      requires forall r :: 0 <= r < replicaCount ==> Finalized(grads[r], before[r], buckets, locators, b, reduced, findUnused, usedSum)
      modifies this`grads, this`localUsed, this`localUsedReduced, this`usedWaited
      ensures Shaped() && (findUnused ==> Lazily(start, usedSum))
      ensures forall r :: 0 <= r < replicaCount ==> Finalized(grads[r], before[r], buckets, locators, b + 1, reduced, findUnused, usedSum)
    {
      hide LazyMap;
      assert WellFormed(buckets[b], replicaCount) && LengthsAgree(buckets[b], lengths);
      if buckets[b].sparse {
        var v := buckets[b].vars[0];
        grads := seq(replicaCount, r requires 0 <= r < replicaCount && r < |grads| && v < |grads[r]| reads this => grads[r][v := Some(reduced[b])]);
      } else {
        FinalizeBucketDense(b, reduced[b], usedSum, start);
      }
      forall r | 0 <= r < replicaCount
        ensures Finalized(grads[r], before[r], buckets, locators, b + 1, reduced, findUnused, usedSum)
      {
        FinalizedStep(grads[r], old(grads)[r], before[r], buckets, locators, b, reduced, findUnused, usedSum);
      }
    }

    /** What the autograd engine does before it calls a hook: the gradient arrives. */
    method AccumulateGrad(index: VarIndex, grad: seq<real>)
      requires InPass() && index.replica < replicaCount && index.variable < |lengths|
      requires buckets[locators[index.variable].bucket].sparse || |grad| == lengths[index.variable]
      modifies this`grads
      ensures InPass() && grads == old(grads)[index.replica := old(grads)[index.replica][index.variable := Some(grad)]]
    {
      hide Sound, LaunchedUpTo, NextIsWaiting;
      grads := grads[index.replica := grads[index.replica][index.variable := Some(grad)]];
    }

    /** Between two marks of a pass. */
    ghost predicate InPass()
      reads this
    {
      Valid() && GradsFit() && expectHooks
    }

    /** `mark_variable_ready` of a variable not marked before, as its callers see it: the variable is on record
        with its share, and no other variable's record or gradient has moved. */
    method MarkFresh(index: VarIndex, joined: Option<int>) returns (result: MarkResult)
      requires InPass() && (joined.Some? ==> joined.value > 0)
      requires index.replica < replicaCount && index.variable < |lengths| && index !in recorded
      modifies this`buckets, this`nextBucket, this`launched, this`recorded, this`finalizeQueued,
               this`requireFinalize, this`divFactor, this`localUsedDev, this`usedWaited, this`grads
      ensures result != TooManyMarks && (result == Ok <==> HasGradient(old(grads), old(buckets), locators, index))
      ensures result == Ok ==>
                && InPass() && SameLayout(buckets, old(buckets))
                && divFactor == DivFactor(old(divFactor), joined, worldSize)
                && Booked(recorded, old(recorded), {index}, old(grads), lengths, divFactor)
                && GradsKept(grads, old(grads), {index}) && DenseKept(grads, old(grads), old(buckets), locators)
                && (finalizeQueued == 1 && findUnused ==> localUsedDev == localUsed)
    {
      hide Sound, LaunchedUpTo, NextIsWaiting, Fit, SameLayout, Contribution, Booked, GradsKept, DenseKept;
      SoundAt(buckets, locators, replicaCount, lengths, recorded, index.replica, index.variable);
      result := MarkVariableReady(index, joined);
      if result == Ok {
        BookedOne(recorded, old(recorded), index, old(grads), lengths, divFactor);
        KeptOne(grads, old(grads), index, recorded[index]);
        DenseKeptOne(grads, old(grads), index, recorded[index], old(buckets), locators);
      }
    }

    /** The first hook of a pass marks the variables that will get no gradient. */
    method MarkUnused(joined: Option<int>) returns (result: MarkResult)
      requires InPass() && (joined.Some? ==> joined.value > 0)
      requires Markable(unused, replicaCount, |lengths|) && Elements(unused) !! recorded.Keys
      modifies this`buckets, this`nextBucket, this`launched, this`recorded, this`finalizeQueued,
               this`requireFinalize, this`divFactor, this`localUsedDev, this`usedWaited, this`grads
      ensures result != TooManyMarks && (result == Ok <==> AllHaveGradients(old(grads), old(buckets), locators, unused))
      ensures result == Ok ==>
                && InPass() && SameLayout(buckets, old(buckets))
                && divFactor == (if unused == [] then old(divFactor) else DivFactor(old(divFactor), joined, worldSize))
                && Booked(recorded, old(recorded), Elements(unused), old(grads), lengths, DivFactor(old(divFactor), joined, worldSize))
                && GradsKept(grads, old(grads), Elements(unused)) && DenseKept(grads, old(grads), old(buckets), locators)
    {
      hide InPass, SameLayout, Booked, GradsKept, DenseKept, Elements, Markable, DivFactor, HasGradient;
      result := Ok;
      SameLayoutRefl(buckets);
      ghost var div := DivFactor(divFactor, joined, worldSize);
      PassShape(this);
      DivFactorSettled(divFactor, joined, worldSize);
      NothingBooked(recorded, grads, lengths, div);
      NoElements();
      DenseKeptRefl(grads, buckets, locators);
      assert unused[..0] == [];
      for i := 0 to |unused|
        invariant result == Ok && InPass() && SameLayout(buckets, old(buckets))
        invariant divFactor == if i == 0 then old(divFactor) else div
        invariant Booked(recorded, old(recorded), Elements(unused[..i]), old(grads), lengths, div)
        invariant GradsKept(grads, old(grads), Elements(unused[..i])) && DenseKept(grads, old(grads), old(buckets), locators)
        invariant AllHaveGradients(old(grads), old(buckets), locators, unused[..i])
      {
        NextUnused(unused, i, replicaCount, |lengths|);
        SameGradient(grads, old(grads), Elements(unused[..i]), buckets, old(buckets), locators, unused[i]);
        BookedKeys(recorded, old(recorded), Elements(unused[..i]), old(grads), lengths, div);
        ghost var mid, midRecorded, midGrads := buckets, recorded, grads;
        result := MarkFresh(unused[i], joined);
        if result != Ok { return; }
        SameLayoutTrans(buckets, mid, old(buckets));
        BookedMore(recorded, midRecorded, old(recorded), Elements(unused[..i]), {unused[i]}, old(grads), midGrads, lengths, div);
        KeptMore(grads, midGrads, old(grads), Elements(unused[..i]), {unused[i]});
        DenseKeptMore(grads, midGrads, old(grads), mid, old(buckets), locators);
      }
      assert unused[..|unused|] == unused;
    }

    /** `autograd_hook`. Outside a pass it only notes that the variable was used. In a pass, the first
        call also marks the variables that will get no gradient, then the hook's own variable is
        marked. With each variable marked once, no mark is rejected as one too many, and each variable goes on
        record with the share its gradient had when it was marked. */
    method AutogradHook(index: VarIndex, joined: Option<int>) returns (result: MarkResult)
      requires Shaped() && (joined.Some? ==> joined.value > 0)
      requires index.replica < replicaCount && index.variable < |lengths|
      requires expectHooks ==> InPass() && index !in recorded && index !in unused
      requires expectHooks ==> Markable(unused, replicaCount, |lengths|) && (!hasMarkedUnused ==> Elements(unused) !! recorded.Keys)
      modifies this`buckets, this`nextBucket, this`launched, this`recorded, this`finalizeQueued,
               this`requireFinalize, this`divFactor, this`localUsedDev, this`usedWaited, this`grads, this`localUsed, this`hasMarkedUnused
      ensures localUsed == if findUnused then UsedAt(old(localUsed), index) else old(localUsed)
      ensures !expectHooks ==> result == Ok && Shaped()
      ensures !expectHooks ==> unchanged(`buckets, `nextBucket, `launched, `recorded, `finalizeQueued, `requireFinalize, `divFactor, `grads, `hasMarkedUnused)
      ensures expectHooks ==> result != TooManyMarks
      ensures expectHooks ==> (result == Ok <==> CanHook(old(grads), old(buckets), locators, index, if findUnused && !old(hasMarkedUnused) then unused else []))
      ensures expectHooks && result == Ok ==>
                && InPass() && SameLayout(buckets, old(buckets))
                && (hasMarkedUnused <==> findUnused || old(hasMarkedUnused))
                && divFactor == DivFactor(old(divFactor), joined, worldSize)
                && Booked(recorded, old(recorded), MarksOf(index, old(hasMarkedUnused)), old(grads), lengths, divFactor)
                && GradsKept(grads, old(grads), MarksOf(index, old(hasMarkedUnused))) && DenseKept(grads, old(grads), old(buckets), locators)
                && (finalizeQueued == 1 && findUnused ==> localUsedDev == localUsed)
    {
      hide Sound, LaunchedUpTo, NextIsWaiting, Fit, SameLayout, Elements, Markable, Booked, GradsKept, DenseKept, HasGradient, AllHaveGradients;
      result := Ok;
      DenseKeptRefl(grads, buckets, locators);
      NoneNeedGradients(grads, buckets, locators);
      if findUnused { localUsed := UsedAt(localUsed, index); }
      if !expectHooks { return; }
      ghost var div := DivFactor(divFactor, joined, worldSize);
      SameLayoutRefl(buckets);
      NothingBooked(recorded, grads, lengths, div);
      ghost var marks: set<VarIndex> := {};
      if !hasMarkedUnused && findUnused {
        hasMarkedUnused := true;
        NotAnElement(unused, index);
        result := MarkUnused(joined);
        if result != Ok { return; }
        marks := Elements(unused);
      }
      BookedKeys(recorded, old(recorded), marks, old(grads), lengths, div);
      ghost var mid, midRecorded, midGrads := buckets, recorded, grads;
      SameGradient(grads, old(grads), marks, buckets, old(buckets), locators, index);
      result := MarkFresh(index, joined);
      if result == Ok {
        SameLayoutTrans(buckets, mid, old(buckets));
        BookedMore(recorded, midRecorded, old(recorded), marks, {index}, old(grads), midGrads, lengths, div);
        KeptMore(grads, midGrads, old(grads), marks, {index});
        DenseKeptMore(grads, midGrads, old(grads), mid, old(buckets), locators);
      }
    }

    /** The variables a hook marks. */
    ghost function MarksOf(index: VarIndex, unusedMarked: bool): set<VarIndex>
      reads this`unused
    {
      (if findUnused && !unusedMarked then Elements(unused) else {}) + {index}
    }

    /** The bucket replica the index belongs to has no variable left to mark. */
    ghost predicate Complete(index: VarIndex)
      requires |locators| == |lengths| && Locates(buckets, locators) && index.variable < |lengths|
      reads this
    {
      var b := buckets[locators[index.variable].bucket];
      index.replica < |b.replicas| && b.replicas[index.replica].pending == 0
    }
  }

  lemma PassFacts(reducer: Reducer)
    requires reducer.Valid()
    ensures reducer.Shaped() && |reducer.locators| == |reducer.lengths| && (reducer.recorded != map[] ==> reducer.expectHooks)
    ensures Sound(reducer.buckets, reducer.locators, reducer.replicaCount, reducer.lengths, reducer.recorded)
    ensures LaunchedUpTo(reducer.buckets, reducer.nextBucket) && NextIsWaiting(reducer.buckets, reducer.nextBucket) && InOrder(reducer.launched, reducer.nextBucket)
    ensures reducer.finalizeQueued == if reducer.nextBucket == |reducer.buckets| then 1 else 0
  {
  }

  lemma PassHolds(reducer: Reducer)
    requires reducer.Shaped() && Sound(reducer.buckets, reducer.locators, reducer.replicaCount, reducer.lengths, reducer.recorded)
    requires LaunchedUpTo(reducer.buckets, reducer.nextBucket) && NextIsWaiting(reducer.buckets, reducer.nextBucket) && InOrder(reducer.launched, reducer.nextBucket)
    requires reducer.finalizeQueued == if reducer.nextBucket == |reducer.buckets| then 1 else 0
    requires reducer.recorded != map[] && reducer.requireFinalize && reducer.expectHooks
    ensures reducer.Valid()
  {
  }

  lemma AllLaunched(reducer: Reducer)
    requires reducer.InPass() && reducer.finalizeQueued == 1
    ensures reducer.requireFinalize && reducer.nextBucket == |reducer.buckets| && forall b :: 0 <= b < |reducer.buckets| ==> reducer.buckets[b].work.Some?
  {
    NonEmptyPass(reducer.buckets, reducer.replicaCount, reducer.recorded);
  }

  lemma PassShape(reducer: Reducer)
    requires reducer.InPass()
    ensures reducer.Shaped()
  {
  }
}
