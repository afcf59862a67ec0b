/** A whole backward pass of one process, and a whole iteration among all of them. */
module BackwardPass {
  import opened Basics
  import opened Flat
  import opened Buckets
  import opened ReducerState
  import opened ReducerLayout
  import opened ReducerSteps
  import opened ReducerObject
  import opened Averaging

  /** The gradients the variables are marked with: those that arrive in the pass, else those of before. */
  function Arrived(grads: Grads, produced: map<VarIndex, seq<real>>): (r: Grads)
    ensures |r| == |grads| && forall i :: 0 <= i < |r| ==> |r[i]| == |grads[i]|
  {
    seq(|grads|, r requires 0 <= r < |grads| =>
      seq(|grads[r]|, v requires 0 <= v < |grads[r]| => if VarIndex(r, v) in produced then Some(produced[VarIndex(r, v)]) else grads[r][v]))
  }

  /** Each variable is marked with the gradient that arrived for it in the pass, or else with the one it had. */
  ghost predicate MarkedWith(grads: Grads, before: Grads, produced: map<VarIndex, seq<real>>) {
    && |grads| == |before| && (forall r :: 0 <= r < |grads| ==> |grads[r]| == |before[r]|)
    && forall r, v :: 0 <= r < |grads| && 0 <= v < |grads[r]| && v < |before[r]| ==>
         grads[r][v] == if VarIndex(r, v) in produced then Some(produced[VarIndex(r, v)]) else before[r][v]
  }

  lemma ArrivedMeaning(before: Grads, produced: map<VarIndex, seq<real>>)
    ensures MarkedWith(Arrived(before, produced), before, produced)
  {
  }

  lemma DivFactorMeaning(current: int, joined: Option<int>, worldSize: int)
    ensures DivFactor(current, joined, worldSize)
         == if current != UNSET_DIV_FACTOR then current else if joined.Some? then joined.value else worldSize
  {
  }

  /** The variables marked after the first `i` hooks. */
  ghost function MarkedBy(order: seq<VarIndex>, i: nat, unused: seq<VarIndex>): set<VarIndex>
    requires i <= |order|
  {
    Elements(order[..i]) + if i > 0 then Elements(unused) else {}
  }

  /** What autograd promises of a pass: the hooks come for distinct variables, in any order; the variables the graph
      search gave up on are not among them; together they are all there are; and a gradient that arrives has the size
      of its variable. */
  ghost predicate Complete(order: seq<VarIndex>, produced: map<VarIndex, seq<real>>, unused: seq<VarIndex>, replicaCount: nat, n: nat) {
    && order != [] && Markable(order, replicaCount, n) && Markable(unused, replicaCount, n) && Elements(order) !! Elements(unused)
    && (forall r: nat, v: nat :: r < replicaCount && v < n ==> VarIndex(r, v) in Elements(order) + Elements(unused))
    && produced.Keys == Elements(order)
  }

  ghost predicate Fitting(produced: map<VarIndex, seq<real>>, buckets: seq<Bucket>, locators: seq<Locator>, lengths: seq<nat>) {
    forall x :: x in produced ==> FittingAt(produced[x], x, buckets, locators, lengths)
  }

  ghost predicate FittingAt(grad: seq<real>, x: VarIndex, buckets: seq<Bucket>, locators: seq<Locator>, lengths: seq<nat>) {
    x.variable < |locators| && x.variable < |lengths| && locators[x.variable].bucket < |buckets| && !buckets[locators[x.variable].bucket].sparse
    ==> |grad| == lengths[x.variable]
  }

  /** The used maps after the hooks: 1 where one came, elsewhere as before. */
  ghost predicate UsedAfter(now: seq<seq<nat>>, before: seq<seq<nat>>, hooked: set<VarIndex>) {
    && |now| == |before| && (forall r :: 0 <= r < |now| ==> |now[r]| == |before[r]|)
    && forall r, v :: 0 <= r < |now| && 0 <= v < |now[r]| && v < |before[r]| ==>
         now[r][v] == if VarIndex(r, v) in hooked then 1 else before[r][v]
  }

  /** The gradients of dense variables: those whose hook came are the arrived ones, the others untouched. */
  ghost predicate DenseSoFar(now: Grads, start: Grads, produced: map<VarIndex, seq<real>>, hooked: set<VarIndex>, buckets: seq<Bucket>, locators: seq<Locator>) {
    && |now| == |start| && (forall r :: 0 <= r < |now| ==> |now[r]| == |start[r]|)
    && forall r, v :: 0 <= r < |now| && 0 <= v < |now[r]| && v < |start[r]| && IsDense(buckets, locators, v) ==>
         now[r][v] == if VarIndex(r, v) in hooked && VarIndex(r, v) in produced then Some(produced[VarIndex(r, v)]) else start[r][v]
  }

  lemma DenseNext(now: Grads, mid: Grads, before: Grads, start: Grads, produced: map<VarIndex, seq<real>>, hooked: set<VarIndex>, x: VarIndex,
                  bs: seq<Bucket>, cs: seq<Bucket>, locators: seq<Locator>)
    requires DenseSoFar(before, start, produced, hooked, cs, locators) && SameLayout(bs, cs) && DenseKept(now, mid, bs, locators)
    requires x in produced && x.replica < |before| && x.variable < |before[x.replica]|
    requires mid == before[x.replica := before[x.replica][x.variable := Some(produced[x])]]
    ensures DenseSoFar(now, start, produced, hooked + {x}, cs, locators)
  {
    forall v: nat ensures IsDense(bs, locators, v) <==> IsDense(cs, locators, v) {}
  }

  lemma DenseStart(start: Grads, produced: map<VarIndex, seq<real>>, buckets: seq<Bucket>, locators: seq<Locator>)
    ensures DenseSoFar(start, start, produced, {}, buckets, locators)
  {
  }

  // ---------------------------------------------------------------- one hook

  /** The gradient arrived and the hook marked: everything marked so far is on record with its share. */
  lemma HookBooks(now: map<VarIndex, seq<real>>, mid: map<VarIndex, seq<real>>, done: set<VarIndex>, marks: set<VarIndex>, x: VarIndex,
                  grads: Grads, before: Grads, start: Grads, produced: map<VarIndex, seq<real>>, lengths: seq<nat>, div: int)
    requires Booked(mid, map[], done, Arrived(start, produced), lengths, div) && Booked(now, mid, marks, grads, lengths, div)
    requires GradsKept(before, start, done) && x.replica < |before| && x.variable < |before[x.replica]| && x in produced && x !in done
    requires grads == before[x.replica := before[x.replica][x.variable := Some(produced[x])]]
    requires x in marks && marks !! done && forall y :: y in marks && y != x ==> y !in produced
    ensures Booked(now, map[], done + marks, Arrived(start, produced), lengths, div)
  {
    forall y | y in marks ensures Share(grads, lengths, div, y) == Share(Arrived(start, produced), lengths, div, y) {
      ShareArrived(y, x, grads, before, start, done, produced, lengths, div);
    }
  }

  lemma ShareArrived(y: VarIndex, x: VarIndex, grads: Grads, before: Grads, start: Grads, done: set<VarIndex>,
                     produced: map<VarIndex, seq<real>>, lengths: seq<nat>, div: int)
    requires GradsKept(before, start, done) && x.replica < |before| && x.variable < |before[x.replica]| && x in produced
    requires grads == before[x.replica := before[x.replica][x.variable := Some(produced[x])]]
    requires y !in done && (y == x || y !in produced)
    ensures Share(grads, lengths, div, y) == Share(Arrived(start, produced), lengths, div, y)
  {
    hide Contribution;
    assert VarIndex(y.replica, y.variable) == y;
  }

  lemma HookKeeps(now: Grads, grads: Grads, before: Grads, start: Grads, done: set<VarIndex>, marks: set<VarIndex>, x: VarIndex, value: seq<real>)
    requires GradsKept(before, start, done) && GradsKept(now, grads, marks) && x in marks
    requires x.replica < |before| && x.variable < |before[x.replica]| && grads == before[x.replica := before[x.replica][x.variable := Some(value)]]
    ensures GradsKept(now, start, done + marks)
  {
    KeptOne(grads, before, x, value);
    KeptMore(grads, before, start, done, {x});
    KeptMore(now, grads, start, done + {x}, marks);
    assert done + {x} + marks == done + marks;
  }

  lemma MarkedNext(order: seq<VarIndex>, i: nat, unused: seq<VarIndex>, produced: map<VarIndex, seq<real>>, replicaCount: nat, n: nat)
    requires Complete(order, produced, unused, replicaCount, n) && i < |order|
    ensures var marks := (if i == 0 then Elements(unused) else {}) + {order[i]};
            && MarkedBy(order, i + 1, unused) == MarkedBy(order, i, unused) + marks && marks !! MarkedBy(order, i, unused)
            && forall y :: y in marks && y != order[i] ==> y !in produced
    ensures order[i] in produced && order[i] !in unused && order[i].replica < replicaCount && order[i].variable < n
    ensures Elements(order[..i + 1]) == Elements(order[..i]) + {order[i]}
    ensures (i == 0 ==> MarkedBy(order, i, unused) == {}) && (i == 0 || unused == [] ==> Elements(unused) !! MarkedBy(order, i, unused))
    ensures order[i] !in MarkedBy(order, i, unused) && Markable(unused, replicaCount, n)
  {
    NextUnused(order, i, replicaCount, n);
    assert order[i] in Elements(order);
    assert forall y :: y in Elements(order[..i]) ==> y in Elements(order);
  }

  lemma UsedNext(now: seq<seq<nat>>, mid: seq<seq<nat>>, before: seq<seq<nat>>, hooked: set<VarIndex>, x: VarIndex)
    requires UsedAfter(mid, before, hooked) && x.replica < |mid| && x.variable < |mid[x.replica]| && now == UsedAt(mid, x)
    ensures UsedAfter(now, before, hooked + {x})
  {
  }

  // ---------------------------------------------------------------- the pass

  /** The records of a pass after `i` hooks. */
  ghost predicate Progress(recorded: map<VarIndex, seq<real>>, grads: Grads, localUsed: seq<seq<nat>>, order: seq<VarIndex>, i: nat,
                           produced: map<VarIndex, seq<real>>, unused: seq<VarIndex>, start: Grads, used: seq<seq<nat>>,
                           findUnused: bool, lengths: seq<nat>, div: int)
    requires i <= |order|
  {
    && Booked(recorded, map[], MarkedBy(order, i, unused), Arrived(start, produced), lengths, div)
    && GradsKept(grads, start, MarkedBy(order, i, unused))
    && if findUnused then UsedAfter(localUsed, used, Elements(order[..i])) else localUsed == used
  }

  lemma ProgressNext(recorded: map<VarIndex, seq<real>>, grads: Grads, localUsed: seq<seq<nat>>,
                     midRecorded: map<VarIndex, seq<real>>, midGrads: Grads, before: Grads, midUsed: seq<seq<nat>>,
                     order: seq<VarIndex>, i: nat, produced: map<VarIndex, seq<real>>, unused: seq<VarIndex>,
                     start: Grads, used: seq<seq<nat>>, findUnused: bool, replicaCount: nat, lengths: seq<nat>, div: int)
    requires i < |order| && Complete(order, produced, unused, replicaCount, |lengths|)
    requires Progress(midRecorded, before, midUsed, order, i, produced, unused, start, used, findUnused, lengths, div)
    requires Sized(before, midUsed, replicaCount, |lengths|) && order[i].replica < replicaCount && order[i].variable < |lengths| && order[i] in produced
    requires var x := order[i];
             && midGrads == before[x.replica := before[x.replica][x.variable := Some(produced[x])]]
             && localUsed == (if findUnused then UsedAt(midUsed, x) else midUsed)
             && var marks := (if i == 0 then Elements(unused) else {}) + {x};
             Booked(recorded, midRecorded, marks, midGrads, lengths, div) && GradsKept(grads, midGrads, marks)
    ensures Progress(recorded, grads, localUsed, order, i + 1, produced, unused, start, used, findUnused, lengths, div)
  {
    hide Booked, GradsKept, UsedAfter, MarkedBy, Complete, Elements, Arrived;
    var x, done := order[i], MarkedBy(order, i, unused);
    MarkedNext(order, i, unused, produced, replicaCount, |lengths|);
    var marks := (if i == 0 then Elements(unused) else {}) + {x};
    HookBooks(recorded, midRecorded, done, marks, x, midGrads, before, start, produced, lengths, div);
    HookKeeps(grads, midGrads, before, start, done, marks, x, produced[x]);
    if findUnused { UsedNext(localUsed, midUsed, used, Elements(order[..i]), x); }
  }

  /** A gradient that arrives for another variable makes no difference to what the unused ones have. */
  lemma UnusedUnaffected(grads: Grads, before: Grads, x: VarIndex, value: seq<real>, buckets: seq<Bucket>, locators: seq<Locator>, unused: seq<VarIndex>)
    requires x.replica < |before| && x.variable < |before[x.replica]| && x !in unused
    requires grads == before[x.replica := before[x.replica][x.variable := Some(value)]]
    ensures AllHaveGradients(grads, buckets, locators, unused) <==> AllHaveGradients(before, buckets, locators, unused)
    ensures HasGradient(grads, buckets, locators, x)
  {
    forall i | 0 <= i < |unused| ensures HasGradient(grads, buckets, locators, unused[i]) <==> HasGradient(before, buckets, locators, unused[i]) {
      assert unused[i] != x;
    }
  }

  lemma SizedAt(grads: Grads, localUsed: seq<seq<nat>>, replicaCount: nat, n: nat, x: VarIndex)
    requires Sized(grads, localUsed, replicaCount, n) && x.replica < replicaCount && x.variable < n
    ensures x.replica < |grads| && x.variable < |grads[x.replica]|
  {
  }

  /** What the next hook needs. */
  lemma HookReady(recorded: map<VarIndex, seq<real>>, grads: Grads, localUsed: seq<seq<nat>>, order: seq<VarIndex>, i: nat,
                  produced: map<VarIndex, seq<real>>, unused: seq<VarIndex>, start: Grads, used: seq<seq<nat>>,
                  findUnused: bool, buckets: seq<Bucket>, locators: seq<Locator>, replicaCount: nat, lengths: seq<nat>, div: int)
    requires i < |order| && Complete(order, produced, unused, replicaCount, |lengths|) && (unused != [] ==> findUnused)
    requires Progress(recorded, grads, localUsed, order, i, produced, unused, start, used, findUnused, lengths, div)
    requires Fitting(produced, buckets, locators, lengths)
    ensures var x := order[i];
            && x in produced && x.replica < replicaCount && x.variable < |lengths| && x !in recorded && x !in unused
            && FittingAt(produced[x], x, buckets, locators, lengths)
    ensures Markable(unused, replicaCount, |lengths|) && (i == 0 || unused == [] ==> Elements(unused) !! recorded.Keys)
  {
    hide UsedAfter, MarkedBy, Complete, Elements, Arrived, GradsKept, FittingAt;
    MarkedNext(order, i, unused, produced, replicaCount, |lengths|);
    BookedKeys(recorded, map[], MarkedBy(order, i, unused), Arrived(start, produced), lengths, div);
  }

  lemma HookDense(now: Grads, mid: Grads, before: Grads, start: Grads, produced: map<VarIndex, seq<real>>, order: seq<VarIndex>, i: nat,
                  unused: seq<VarIndex>, replicaCount: nat, n: nat, bs: seq<Bucket>, cs: seq<Bucket>, locators: seq<Locator>)
    requires i < |order| && Complete(order, produced, unused, replicaCount, n) && order[i] in produced
    requires DenseSoFar(before, start, produced, Elements(order[..i]), bs, locators) && SameLayout(cs, bs) && DenseKept(now, mid, bs, locators)
    requires var x := order[i];
             x.replica < |before| && x.variable < |before[x.replica]| && mid == before[x.replica := before[x.replica][x.variable := Some(produced[x])]]
    ensures DenseSoFar(now, start, produced, Elements(order[..i + 1]), cs, locators)
  {
    hide Complete, Elements;
    MarkedNext(order, i, unused, produced, replicaCount, n);
    SameLayoutRefl(bs);
    DenseNext(now, mid, before, start, produced, Elements(order[..i]), order[i], bs, bs, locators);
    forall v: nat ensures IsDense(bs, locators, v) <==> IsDense(cs, locators, v) {}
  }

  /** Where a pass stands after `i` hooks. */
  ghost predicate Midway(reducer: Reducer, order: seq<VarIndex>, i: nat, produced: map<VarIndex, seq<real>>, unused: seq<VarIndex>,
                         start: Grads, used: seq<seq<nat>>, div: int)
    requires i <= |order|
    reads reducer
  {
    && reducer.InPass() && reducer.unused == unused && (reducer.hasMarkedUnused <==> i > 0 && reducer.findUnused)
    && Progress(reducer.recorded, reducer.grads, reducer.localUsed, order, i, produced, unused, start, used, reducer.findUnused, reducer.lengths, div)
    && (reducer.finalizeQueued == 1 && reducer.findUnused ==> reducer.localUsedDev == reducer.localUsed)
    && DenseSoFar(reducer.grads, start, produced, Elements(order[..i]), reducer.buckets, reducer.locators)
  }

  lemma MidwayFacts(reducer: Reducer, order: seq<VarIndex>, i: nat, produced: map<VarIndex, seq<real>>, unused: seq<VarIndex>,
                    start: Grads, used: seq<seq<nat>>, div: int)
    requires i <= |order| && Midway(reducer, order, i, produced, unused, start, used, div)
    ensures reducer.InPass() && reducer.expectHooks && reducer.Shaped() && |reducer.locators| == |reducer.lengths|
    ensures Sound(reducer.buckets, reducer.locators, reducer.replicaCount, reducer.lengths, reducer.recorded)
    ensures reducer.unused == unused && (reducer.hasMarkedUnused <==> i > 0 && reducer.findUnused)
    ensures Progress(reducer.recorded, reducer.grads, reducer.localUsed, order, i, produced, unused, start, used, reducer.findUnused, reducer.lengths, div)
    ensures DenseSoFar(reducer.grads, start, produced, Elements(order[..i]), reducer.buckets, reducer.locators)
  {
    hide Sound, LaunchedUpTo, NextIsWaiting, Fit, Progress, DenseSoFar, Elements;
  }

  lemma MidwayHolds(reducer: Reducer, order: seq<VarIndex>, i: nat, produced: map<VarIndex, seq<real>>, unused: seq<VarIndex>,
                    start: Grads, used: seq<seq<nat>>, div: int)
    requires i <= |order| && reducer.InPass() && reducer.unused == unused && (reducer.hasMarkedUnused <==> i > 0 && reducer.findUnused)
    requires Progress(reducer.recorded, reducer.grads, reducer.localUsed, order, i, produced, unused, start, used, reducer.findUnused, reducer.lengths, div)
    requires reducer.finalizeQueued == 1 && reducer.findUnused ==> reducer.localUsedDev == reducer.localUsed
    requires DenseSoFar(reducer.grads, start, produced, Elements(order[..i]), reducer.buckets, reducer.locators)
    ensures Midway(reducer, order, i, produced, unused, start, used, div)
  {
    hide Sound, LaunchedUpTo, NextIsWaiting, Fit, Progress, DenseSoFar, Elements;
  }

  /** One gradient arrives and its hook is called. */
  method HookStep(reducer: Reducer, order: seq<VarIndex>, i: nat, produced: map<VarIndex, seq<real>>, joined: Option<int>,
                  ghost unused: seq<VarIndex>, ghost start: Grads, ghost used: seq<seq<nat>>) returns (result: MarkResult)
    requires i < |order| && Complete(order, produced, unused, reducer.replicaCount, |reducer.lengths|) && (joined.Some? ==> joined.value > 0)
    requires Midway(reducer, order, i, produced, unused, start, used, DivFactor(reducer.divFactor, joined, reducer.worldSize))
    requires Fitting(produced, reducer.buckets, reducer.locators, reducer.lengths) && (unused != [] ==> reducer.findUnused)
    modifies reducer
    ensures result != TooManyMarks && reducer.locators == old(reducer.locators)
    ensures result == Ok <==> (i == 0 ==> AllHaveGradients(old(reducer.grads), old(reducer.buckets), reducer.locators, unused))
    ensures result == Ok ==>
              && Midway(reducer, order, i + 1, produced, unused, start, used, reducer.divFactor)
              && reducer.divFactor == DivFactor(old(reducer.divFactor), joined, reducer.worldSize)
              && SameLayout(reducer.buckets, old(reducer.buckets)) && reducer.localUsedReduced == old(reducer.localUsedReduced)
  {
    hide Midway, Reducer.InPass, Progress, DenseSoFar, DenseKept, AllHaveGradients, HasGradient, Fitting, Booked, GradsKept, SameLayout, Complete, Elements, Sound, LaunchedUpTo, NextIsWaiting, Fit, Markable, Sized, Reducer.Valid;
    var x := order[i];
    MidwayFacts(reducer, order, i, produced, unused, start, used, DivFactor(reducer.divFactor, joined, reducer.worldSize));
    HookReady(reducer.recorded, reducer.grads, reducer.localUsed, order, i, produced, unused, start, used, reducer.findUnused,
              reducer.buckets, reducer.locators, reducer.replicaCount, reducer.lengths, DivFactor(reducer.divFactor, joined, reducer.worldSize));
    SoundAt(reducer.buckets, reducer.locators, reducer.replicaCount, reducer.lengths, reducer.recorded, x.replica, x.variable);
    SizedAt(reducer.grads, reducer.localUsed, reducer.replicaCount, |reducer.lengths|, x);
    ghost var before, mid, midUsed := reducer.grads, reducer.recorded, reducer.localUsed;
    reducer.AccumulateGrad(x, produced[x]);
    ghost var grads := reducer.grads;
    PassShape(reducer);
    NoElements();
    UnusedUnaffected(grads, before, x, produced[x], reducer.buckets, reducer.locators, unused);
    NoneNeedGradients(before, reducer.buckets, reducer.locators);
    NoneNeedGradients(grads, reducer.buckets, reducer.locators);
    result := reducer.AutogradHook(x, joined);
    if result == Ok {
      HookDense(reducer.grads, grads, before, start, produced, order, i, unused, reducer.replicaCount, |reducer.lengths|,
                old(reducer.buckets), reducer.buckets, reducer.locators);
      ProgressNext(reducer.recorded, reducer.grads, reducer.localUsed, mid, grads, before, midUsed, order, i, produced, unused, start, used,
                   reducer.findUnused, reducer.replicaCount, reducer.lengths, reducer.divFactor);
      MidwayHolds(reducer, order, i + 1, produced, unused, start, used, reducer.divFactor);
    }
  }

  /** What the process brings to the reductions. */
  function LocalOf(reducer: Reducer, grads: Grads): Local
    reads reducer
  {
    Local(reducer.buckets, reducer.replicaCount, reducer.lengths, grads, reducer.divFactor, reducer.localUsed)
  }

  lemma PassBegins(reducer: Reducer, order: seq<VarIndex>, produced: map<VarIndex, seq<real>>, unused: seq<VarIndex>, div: int)
    requires reducer.InPass() && reducer.unused == unused && !reducer.hasMarkedUnused && reducer.finalizeQueued == 0 && reducer.recorded == map[]
    ensures Midway(reducer, order, 0, produced, unused, reducer.grads, reducer.localUsed, div)
  {
    hide Sound, LaunchedUpTo, NextIsWaiting, Fit;
    assert order[..0] == [];
    NoElements();
    NothingBooked(map[], Arrived(reducer.grads, produced), reducer.lengths, div);
    NothingBooked(map[], reducer.grads, reducer.lengths, div);
    DenseStart(reducer.grads, produced, reducer.buckets, reducer.locators);
  }

  /** Everything is marked, so everything was launched, with every share in its place. */
  lemma PassEnds(reducer: Reducer, order: seq<VarIndex>, produced: map<VarIndex, seq<real>>, unused: seq<VarIndex>,
                 start: Grads, used: seq<seq<nat>>)
    requires Complete(order, produced, unused, reducer.replicaCount, |reducer.lengths|)
    requires Midway(reducer, order, |order|, produced, unused, start, used, reducer.divFactor) && reducer.divFactor > 0
    ensures reducer.finalizeQueued == 1 && Contributed(LocalOf(reducer, Arrived(start, produced)))
  {
    hide Sound, LaunchedUpTo, NextIsWaiting, Fit, Progress, Contributed, Complete, DenseSoFar, Sized, InOrder, Booked, Arrived;
    var grads := Arrived(start, produced);
    AllOnRecord(reducer.recorded, reducer.grads, reducer.localUsed, order, produced, unused, start, used, reducer.findUnused,
                reducer.replicaCount, reducer.lengths, reducer.divFactor);
    FinalizerWhenAllMarked(reducer.buckets, reducer.locators, reducer.replicaCount, reducer.lengths, reducer.recorded, reducer.nextBucket);
    LaunchedShares(reducer.buckets, reducer.locators, reducer.replicaCount, reducer.lengths, reducer.recorded, reducer.localUsed, grads, reducer.divFactor);
  }

  /** Every variable of every replica is on record with its share. */
  ghost predicate SharesOnRecord(recorded: map<VarIndex, seq<real>>, grads: Grads, replicaCount: nat, lengths: seq<nat>, div: int) {
    forall r, v :: 0 <= r < replicaCount && 0 <= v < |lengths| ==>
      VarIndex(r, v) in recorded && recorded[VarIndex(r, v)] == Share(grads, lengths, div, VarIndex(r, v))
  }

  lemma AllOnRecord(recorded: map<VarIndex, seq<real>>, grads: Grads, localUsed: seq<seq<nat>>, order: seq<VarIndex>,
                    produced: map<VarIndex, seq<real>>, unused: seq<VarIndex>, start: Grads, used: seq<seq<nat>>,
                    findUnused: bool, replicaCount: nat, lengths: seq<nat>, div: int)
    requires Complete(order, produced, unused, replicaCount, |lengths|)
    requires Progress(recorded, grads, localUsed, order, |order|, produced, unused, start, used, findUnused, lengths, div)
    requires Sized(grads, localUsed, replicaCount, |lengths|)
    ensures SharesOnRecord(recorded, Arrived(start, produced), replicaCount, lengths, div)
    ensures Sized(Arrived(start, produced), localUsed, replicaCount, |lengths|)
  {
    hide Share, UsedAfter;
    assert order[..|order|] == order;
    forall r: nat, v: nat | r < replicaCount && v < |lengths|
      ensures VarIndex(r, v) in recorded && recorded[VarIndex(r, v)] == Share(Arrived(start, produced), lengths, div, VarIndex(r, v))
    {
      assert VarIndex(r, v) in MarkedBy(order, |order|, unused);
    }
  }

  lemma LaunchedShares(buckets: seq<Bucket>, locators: seq<Locator>, replicaCount: nat, lengths: seq<nat>, recorded: map<VarIndex, seq<real>>,
                       localUsed: seq<seq<nat>>, grads: Grads, div: int)
    requires Sound(buckets, locators, replicaCount, lengths, recorded) && LaunchedUpTo(buckets, |buckets|)
    requires SharesOnRecord(recorded, grads, replicaCount, lengths, div) && Sized(grads, localUsed, replicaCount, |lengths|) && div > 0
    ensures Contributed(Local(buckets, replicaCount, lengths, grads, div, localUsed))
  {
    hide Share, Contents, Sized;
    var l := Local(buckets, replicaCount, lengths, grads, div, localUsed);
    forall b | 0 <= b < |buckets| ensures BucketContributed(l, b) {
      var bucket := buckets[b];
      assert WellFormed(bucket, replicaCount) && LengthsAgree(bucket, lengths) && Holds(bucket, replicaCount, recorded);
      forall r, k | 0 <= r < replicaCount && 0 <= k < |bucket.vars|
        ensures PieceIs(bucket, r, k, Share(grads, lengths, div, VarIndex(r, bucket.vars[k])))
      {
        assert VarIndex(r, bucket.vars[k]) in recorded;
        assert PieceIs(bucket, r, k, recorded[VarIndex(r, bucket.vars[k])]);
      }
    }
  }

  /** A backward pass: `prepare_for_backward`, then the hooks in any order autograd chooses. It fails exactly if a
      sparse variable was found unused and has no gradient. Otherwise every bucket ends up launched with every
      variable's gradient over the division factor in its place, and the finalizer is queued. */
  method Backward(reducer: Reducer, found: seq<VarIndex>, order: seq<VarIndex>, produced: map<VarIndex, seq<real>>, joined: Option<int>)
    returns (result: MarkResult)
    requires reducer.Prepared() && reducer.GradsFit() && !reducer.requireFinalize && (joined.Some? ==> joined.value > 0)
    requires Complete(order, produced, if reducer.findUnused then found else [], reducer.replicaCount, |reducer.lengths|)
    requires Fitting(produced, reducer.buckets, reducer.locators, reducer.lengths)
    modifies reducer
    ensures result != TooManyMarks && reducer.locators == old(reducer.locators)
    ensures result == Ok <==> AllHaveGradients(old(reducer.grads), old(reducer.buckets), reducer.locators, if reducer.findUnused then found else [])
    ensures result == Ok ==>
              && reducer.InPass() && reducer.finalizeQueued == 1
              && SameLayout(reducer.buckets, old(reducer.buckets))
              && reducer.divFactor == DivFactor(old(reducer.divFactor), joined, reducer.worldSize)
              && Contributed(LocalOf(reducer, Arrived(old(reducer.grads), produced)))
              && DenseSoFar(reducer.grads, old(reducer.grads), produced, Elements(order), reducer.buckets, reducer.locators)
              && reducer.localUsedReduced == old(reducer.localUsedReduced)
              && (reducer.findUnused ==> UsedAfter(reducer.localUsed, old(reducer.localUsed), Elements(order)) && reducer.localUsedDev == reducer.localUsed)
  {
    hide Midway, Complete, Fitting, SameLayout, AllHaveGradients, Contributed, DenseSoFar, UsedAfter, Elements, Sound, Locates, AllWellFormed,
         Fit, DivFactor, Reducer.Valid, Reducer.GradsFit, Sized;
    ghost var unused, start, used := if reducer.findUnused then found else [], reducer.grads, reducer.localUsed;
    ghost var layout, locators, div := reducer.buckets, reducer.locators, DivFactor(reducer.divFactor, joined, reducer.worldSize);
    DivFactorSettled(reducer.divFactor, joined, reducer.worldSize);
    reducer.PrepareForBackward(found);
    PassBegins(reducer, order, produced, unused, div);
    for i := 0 to |order|
      invariant Midway(reducer, order, i, produced, unused, start, used, div)
      invariant SameLayout(reducer.buckets, layout) && reducer.locators == locators
      invariant reducer.divFactor == (if i == 0 then old(reducer.divFactor) else div) && reducer.localUsedReduced == old(reducer.localUsedReduced)
      invariant if i == 0 then reducer.grads == start else AllHaveGradients(start, layout, locators, unused)
    {
      FittingKept(produced, reducer.buckets, layout, locators, reducer.lengths);
      GradientsSameLayout(start, reducer.buckets, layout, locators, unused);
      ghost var mid := reducer.buckets;
      result := HookStep(reducer, order, i, produced, joined, unused, start, used);
      if result != Ok { return; }
      SameLayoutTrans(reducer.buckets, mid, layout);
    }
    NotEmpty(order, produced, unused, reducer.replicaCount, |reducer.lengths|);
    PassEnds(reducer, order, produced, unused, start, used);
    MidwayEnds(reducer, order, produced, unused, start, used, div);
    result := Ok;
  }

  lemma NotEmpty(order: seq<VarIndex>, produced: map<VarIndex, seq<real>>, unused: seq<VarIndex>, replicaCount: nat, n: nat)
    requires Complete(order, produced, unused, replicaCount, n)
    ensures order != []
  {
  }

  lemma FittingKept(produced: map<VarIndex, seq<real>>, bs: seq<Bucket>, cs: seq<Bucket>, locators: seq<Locator>, lengths: seq<nat>)
    requires Fitting(produced, cs, locators, lengths) && SameLayout(bs, cs)
    ensures Fitting(produced, bs, locators, lengths)
  {
    forall x | x in produced ensures FittingAt(produced[x], x, bs, locators, lengths) { assert FittingAt(produced[x], x, cs, locators, lengths); }
  }

  lemma GradientsSameLayout(grads: Grads, bs: seq<Bucket>, cs: seq<Bucket>, locators: seq<Locator>, unused: seq<VarIndex>)
    requires SameLayout(bs, cs)
    ensures AllHaveGradients(grads, bs, locators, unused) <==> AllHaveGradients(grads, cs, locators, unused)
  {
    forall i | 0 <= i < |unused| ensures HasGradient(grads, bs, locators, unused[i]) <==> HasGradient(grads, cs, locators, unused[i]) {}
  }

  lemma MidwayEnds(reducer: Reducer, order: seq<VarIndex>, produced: map<VarIndex, seq<real>>, unused: seq<VarIndex>,
                   start: Grads, used: seq<seq<nat>>, div: int)
    requires Midway(reducer, order, |order|, produced, unused, start, used, div) && reducer.finalizeQueued == 1
    ensures reducer.InPass() && DenseSoFar(reducer.grads, start, produced, Elements(order), reducer.buckets, reducer.locators)
    ensures reducer.findUnused ==> UsedAfter(reducer.localUsed, used, Elements(order)) && reducer.localUsedDev == reducer.localUsed
  {
    hide DenseSoFar, UsedAfter, Elements, Sound, LaunchedUpTo, NextIsWaiting, Fit, Booked, GradsKept;
    assert order[..|order|] == order;
  }

  // ---------------------------------------------------------------- the iteration

  /** The contributions of one process, replica by replica. */
  function OwnParts(l: Local): (parts: seq<Part>)
    ensures |parts| == l.replicaCount && forall r :: 0 <= r < |parts| ==> parts[r] == Part(l, r)
  {
    seq(l.replicaCount, r requires 0 <= r => Part(l, r))
  }

  /** The mathematical result of the allreduces of all buckets; of the sparse ones nothing is said. */
  function AllReduced(parts: seq<Part>, layout: seq<Bucket>, ghost lengths: seq<nat>, sparse: seq<seq<real>>): (reduced: seq<seq<real>>)
    requires AllOk(parts, layout, lengths) && |sparse| == |layout|
    ensures |reduced| == |layout|
    ensures forall b :: 0 <= b < |layout| && !layout[b].sparse ==> reduced[b] == Total(Launched(parts, layout, lengths, b), Sum(layout[b].lengths))
  {
    seq(|layout|, b requires 0 <= b < |layout| && |sparse| == |layout| && AllOk(parts, layout, lengths) =>
      if layout[b].sparse then sparse[b] else Total(Launched(parts, layout, lengths, b), Sum(layout[b].lengths)))
  }

  function UsedSum(parts: seq<Part>, ghost layout: seq<Bucket>, lengths: seq<nat>): (sum: seq<nat>)
    requires AllOk(parts, layout, lengths)
    ensures |sum| == |lengths| && forall v :: 0 <= v < |lengths| ==> sum[v] == UsedBy(Maps(parts, layout, lengths), v)
  {
    var maps := Maps(parts, layout, lengths);
    seq(|lengths|, v requires 0 <= v < |lengths| && forall p :: 0 <= p < |maps| ==> |maps[p]| == |lengths| => UsedBy(maps, v))
  }

  lemma OthersAgree(parts: seq<Part>, bs: seq<Bucket>, cs: seq<Bucket>, lengths: seq<nat>)
    requires AllOk(parts, cs, lengths) && SameLayout(bs, cs)
    ensures AllOk(parts, bs, lengths)
  {
    hide Contributed;
    forall p | 0 <= p < |parts| ensures PartOk(parts[p], bs, lengths) { assert PartOk(parts[p], cs, lengths); }
  }

  lemma OwnAgree(l: Local)
    requires Contributed(l)
    ensures AllOk(OwnParts(l), l.buckets, l.lengths)
  {
    hide Contributed;
    SameLayoutRefl(l.buckets);
  }

  lemma TogetherAgree(a: seq<Part>, b: seq<Part>, c: seq<Part>, layout: seq<Bucket>, lengths: seq<nat>)
    requires AllOk(a, layout, lengths) && AllOk(b, layout, lengths) && AllOk(c, layout, lengths)
    ensures AllOk(a + b + c, layout, lengths)
  {
    hide PartOk;
  }

  /** This process counts among the contributors, so the reduced used map is not below its own. */
  lemma OwnMapsCount(parts: seq<Part>, at: nat, l: Local, layout: seq<Bucket>, lengths: seq<nat>)
    requires AllOk(parts, layout, lengths) && l.lengths == lengths && Sized(l.grads, l.used, l.replicaCount, |lengths|)
    requires at + l.replicaCount <= |parts| && forall r :: 0 <= r < l.replicaCount ==> parts[at + r] == Part(l, r)
    ensures LazyMap(l.used, false, l.used, UsedSum(parts, layout, lengths))
  {
    hide PartOk;
    var maps, sum := Maps(parts, layout, lengths), UsedSum(parts, layout, lengths);
    forall r, v | 0 <= r < l.replicaCount && 0 <= v < |lengths| ensures l.used[r][v] <= sum[v] {
      UsedByMeaning(maps, v);
      assert parts[at + r] == Part(l, r);
      assert maps[at + r] == l.used[r];
    }
  }

  /** A dense variable's gradient is the average, or untouched if nobody used the variable. */
  ghost predicate AveragedAt(now: Option<seq<real>>, start: Option<seq<real>>, parts: seq<Part>, layout: seq<Bucket>, lengths: seq<nat>,
                             findUnused: bool, v: nat)
    requires AllOk(parts, layout, lengths) && v < |lengths|
  {
    if findUnused && UsedNowhere(parts, layout, lengths, v) then now == start else IsSum(now, parts, v, lengths[v])
  }

  ghost predicate Averaged(now: Grads, start: Grads, parts: seq<Part>, layout: seq<Bucket>, locators: seq<Locator>, lengths: seq<nat>, findUnused: bool)
    requires AllOk(parts, layout, lengths)
  {
    && |now| == |start| && (forall r :: 0 <= r < |now| ==> |now[r]| == |start[r]| == |lengths|)
    && forall r, v :: 0 <= r < |now| && 0 <= v < |lengths| && IsDense(layout, locators, v) ==>
         AveragedAt(now[r][v], start[r][v], parts, layout, lengths, findUnused, v)
  }

  /** A variable nobody used got no hook here, so what is left in place is the gradient of before the pass. */
  lemma UntouchedIfUnused(mid: Grads, start: Grads, produced: map<VarIndex, seq<real>>, hooked: set<VarIndex>, parts: seq<Part>, at: nat, l: Local,
                          used: seq<seq<nat>>, layout: seq<Bucket>, locators: seq<Locator>, lengths: seq<nat>, r: nat, v: nat)
    requires DenseSoFar(mid, start, produced, hooked, layout, locators) && AllOk(parts, layout, lengths) && UsedAfter(l.used, used, hooked)
    requires at + l.replicaCount <= |parts| && forall q :: 0 <= q < l.replicaCount ==> parts[at + q] == Part(l, q)
    requires r < l.replicaCount == |mid| == |l.used| && v < |lengths| == |mid[r]| == |l.used[r]| && IsDense(layout, locators, v)
    requires UsedNowhere(parts, layout, lengths, v)
    ensures r < |start| && v < |start[r]| && mid[r][v] == start[r][v]
  {
    hide PartOk, IsDense;
    assert parts[at + r] == Part(l, r);
    assert Maps(parts, layout, lengths)[at + r] == l.used[r];
  }

  /** From finalized gradients to averages. */
  lemma FinalizedIsAveraged(now: Grads, mid: Grads, start: Grads, produced: map<VarIndex, seq<real>>, hooked: set<VarIndex>, parts: seq<Part>, at: nat,
                            l: Local, used: seq<seq<nat>>, locators: seq<Locator>, reduced: seq<seq<real>>, usedSum: seq<nat>, findUnused: bool, r: nat, v: nat)
    requires AllOk(parts, l.buckets, l.lengths) && Locates(l.buckets, locators) && AllWellFormed(l.buckets, l.replicaCount, l.lengths) && |locators| == |l.lengths|
    requires at + l.replicaCount <= |parts| && forall q :: 0 <= q < l.replicaCount ==> parts[at + q] == Part(l, q)
    requires DenseSoFar(mid, start, produced, hooked, l.buckets, locators) && (findUnused ==> UsedAfter(l.used, used, hooked))
    requires |now| == |mid| == |l.used| == l.replicaCount && r < l.replicaCount && v < |l.lengths| == |mid[r]| == |now[r]| == |l.used[r]|
    requires Finalized(now[r], mid[r], l.buckets, locators, |l.buckets|, reduced, findUnused, usedSum) && IsDense(l.buckets, locators, v)
    requires reduced[locators[v].bucket] == Total(Launched(parts, l.buckets, l.lengths, locators[v].bucket), Sum(l.buckets[locators[v].bucket].lengths))
    requires findUnused ==> |usedSum| == |l.lengths| && usedSum[v] == UsedBy(Maps(parts, l.buckets, l.lengths), v)
    ensures r < |start| && v < |start[r]| && AveragedAt(now[r][v], start[r][v], parts, l.buckets, l.lengths, findUnused, v)
  {
    hide PartOk, Total, AtMark, Launched, UsedAfter, IsSum;
    assert WellFormed(l.buckets[locators[v].bucket], l.replicaCount) && LengthsAgree(l.buckets[locators[v].bucket], l.lengths);
    FinalGradientIsTheAverage(now[r], mid[r], l.buckets, locators, l.lengths, reduced, findUnused, usedSum, parts, v);
    if findUnused && UsedNowhere(parts, l.buckets, l.lengths, v) {
      UntouchedIfUnused(mid, start, produced, hooked, parts, at, l, used, l.buckets, locators, l.lengths, r, v);
    }
  }

  /** One iteration of this process among all: the pass, the allreduces with the other contributors (`before` and
      `after` it in rank order, each having made its own pass), and `finalize_backward`. Every dense gradient is then
      the sum over all contributors of the gradients they were marked with over their division factors, or untouched
      if unused ones are searched for and nobody used the variable; and the reducer is ready for the next iteration. */
  method Iteration(reducer: Reducer, found: seq<VarIndex>, order: seq<VarIndex>, produced: map<VarIndex, seq<real>>, joined: Option<int>,
                   before: seq<Part>, after: seq<Part>, sparse: seq<seq<real>>) returns (result: MarkResult, ghost own: Local)
    requires reducer.Prepared() && reducer.GradsFit() && !reducer.requireFinalize && (joined.Some? ==> joined.value > 0)
    requires Complete(order, produced, if reducer.findUnused then found else [], reducer.replicaCount, |reducer.lengths|)
    requires Fitting(produced, reducer.buckets, reducer.locators, reducer.lengths) && (reducer.findUnused ==> !reducer.localUsedReduced)
    requires AllOk(before, reducer.buckets, reducer.lengths) && AllOk(after, reducer.buckets, reducer.lengths) && |sparse| == |reducer.buckets|
    modifies reducer
    ensures result == Ok <==> AllHaveGradients(old(reducer.grads), old(reducer.buckets), old(reducer.locators), if reducer.findUnused then found else [])
    ensures result == Ok ==>
              && reducer.Prepared() && reducer.GradsFit() && !reducer.requireFinalize && reducer.divFactor == UNSET_DIV_FACTOR
              && (reducer.findUnused ==> !reducer.localUsedReduced && NoneUsed(reducer.localUsed))
              && SameLayout(reducer.buckets, old(reducer.buckets)) && reducer.locators == old(reducer.locators)
              && own.replicaCount == reducer.replicaCount && own.lengths == reducer.lengths
              && MarkedWith(own.grads, old(reducer.grads), produced)
              && own.div == (if old(reducer.divFactor) != UNSET_DIV_FACTOR then old(reducer.divFactor) else if joined.Some? then joined.value else reducer.worldSize)
              && (reducer.findUnused ==> UsedAfter(own.used, old(reducer.localUsed), Elements(order)))
              && var parts := before + OwnParts(own) + after;
              && AllOk(parts, reducer.buckets, reducer.lengths)
              && Averaged(reducer.grads, old(reducer.grads), parts, reducer.buckets, reducer.locators, reducer.lengths, reducer.findUnused)
  {
    hide Complete, Fitting, SameLayout, AllHaveGradients, DenseSoFar, UsedAfter, Elements, Sound, Locates, AllWellFormed, AllOk, LazyMap,
         Fit, DivFactor, Reducer.Valid, Reducer.GradsFit, Sized, Finalized, Averaged, Arrived, MarkedWith;
    ArrivedMeaning(reducer.grads, produced);
    DivFactorMeaning(reducer.divFactor, joined, reducer.worldSize);
    own := Local([], 0, [], [], 0, []);
    ghost var start, used, layout := reducer.grads, reducer.localUsed, reducer.buckets;
    var arrived := Arrived(reducer.grads, produced);
    result := Backward(reducer, found, order, produced, joined);
    if result != Ok { return; }
    var l := LocalOf(reducer, arrived);
    var all := before + OwnParts(l) + after;
    own := l;
    OthersAgree(before, reducer.buckets, layout, reducer.lengths);
    OthersAgree(after, reducer.buckets, layout, reducer.lengths);
    OwnAgree(l);
    TogetherAgree(before, OwnParts(l), after, reducer.buckets, reducer.lengths);
    LayoutSize(reducer.buckets, layout);
    PassShape(reducer);
    var reduced := AllReduced(all, reducer.buckets, reducer.lengths, sparse);
    var usedSum := UsedSum(all, reducer.buckets, reducer.lengths);
    ghost var mid := reducer.grads;
    Ready(reducer, l, all, |before|, reduced);
    reducer.FinalizeBackward(reduced, usedSum);
    ClearedIsUnused(reducer.replicaCount, |reducer.lengths|);
    SizesAgree(reducer.grads, reducer.localUsed, mid, l.used, l.replicaCount, |l.lengths|);
    AllAveraged(reducer.grads, mid, start, produced, Elements(order), all, |before|, l, used, reducer.locators, reduced, usedSum, reducer.findUnused);
  }

  lemma SizesAgree(now: Grads, nowUsed: seq<seq<nat>>, mid: Grads, midUsed: seq<seq<nat>>, replicaCount: nat, n: nat)
    requires Sized(now, nowUsed, replicaCount, n) && Sized(mid, midUsed, replicaCount, n)
    ensures Sized(now, midUsed, replicaCount, n) && |mid| == replicaCount
  {
  }

  lemma Ready(reducer: Reducer, l: Local, parts: seq<Part>, at: nat, reduced: seq<seq<real>>)
    requires reducer.InPass() && Contributed(l) && l.buckets == reducer.buckets && l.lengths == reducer.lengths && l.used == reducer.localUsed
    requires l.replicaCount == reducer.replicaCount && AllOk(parts, l.buckets, l.lengths)
    requires at + l.replicaCount <= |parts| && parts[at..at + l.replicaCount] == OwnParts(l) && |reduced| == |l.buckets|
    requires forall b :: 0 <= b < |l.buckets| && !l.buckets[b].sparse ==>
               reduced[b] == Total(Launched(parts, l.buckets, l.lengths, b), Sum(l.buckets[b].lengths))
    ensures reducer.Reduced(reduced) && LazyMap(reducer.localUsed, false, reducer.localUsed, UsedSum(parts, l.buckets, l.lengths))
  {
    hide Sound, LaunchedUpTo, NextIsWaiting, Fit, AllOk, LazyMap, Launched, Total;
    OwnPlaces(parts, at, l);
    OwnMapsCount(parts, at, l, l.buckets, l.lengths);
  }

  lemma OwnPlaces(parts: seq<Part>, at: nat, l: Local)
    requires at + l.replicaCount <= |parts| && parts[at..at + l.replicaCount] == OwnParts(l)
    ensures forall r :: 0 <= r < l.replicaCount ==> parts[at + r] == Part(l, r)
  {
    forall r | 0 <= r < l.replicaCount ensures parts[at + r] == Part(l, r) { assert parts[at..at + l.replicaCount][r] == Part(l, r); }
  }

  lemma AllAveraged(now: Grads, mid: Grads, start: Grads, produced: map<VarIndex, seq<real>>, hooked: set<VarIndex>, parts: seq<Part>, at: nat,
                    l: Local, used: seq<seq<nat>>, locators: seq<Locator>, reduced: seq<seq<real>>, usedSum: seq<nat>, findUnused: bool)
    requires AllOk(parts, l.buckets, l.lengths) && Locates(l.buckets, locators) && AllWellFormed(l.buckets, l.replicaCount, l.lengths) && |locators| == |l.lengths|
    requires at + l.replicaCount <= |parts| && parts[at..at + l.replicaCount] == OwnParts(l)
    requires DenseSoFar(mid, start, produced, hooked, l.buckets, locators) && (findUnused ==> UsedAfter(l.used, used, hooked))
    requires Sized(now, l.used, l.replicaCount, |l.lengths|) && |mid| == l.replicaCount
    requires forall r :: 0 <= r < l.replicaCount ==> Finalized(now[r], mid[r], l.buckets, locators, |l.buckets|, reduced, findUnused, usedSum)
    requires |reduced| == |l.buckets| && forall b :: 0 <= b < |l.buckets| && !l.buckets[b].sparse ==>
               reduced[b] == Total(Launched(parts, l.buckets, l.lengths, b), Sum(l.buckets[b].lengths))
    requires usedSum == UsedSum(parts, l.buckets, l.lengths)
    ensures Averaged(now, start, parts, l.buckets, locators, l.lengths, findUnused)
  {
    hide AllOk, AllWellFormed, Locates, Total, Launched, UsedAfter, AveragedAt;
    OwnPlaces(parts, at, l);
    forall r, v | 0 <= r < l.replicaCount && 0 <= v < |l.lengths| && IsDense(l.buckets, locators, v)
      ensures AveragedAt(now[r][v], start[r][v], parts, l.buckets, l.lengths, findUnused, v)
    {
      FinalizedIsAveraged(now, mid, start, produced, hooked, parts, at, l, used, locators, reduced, usedSum, findUnused, r, v);
    }
  }

  /** No entry of the used maps is set. */
  ghost predicate NoneUsed(used: seq<seq<nat>>) { forall r, v :: 0 <= r < |used| && 0 <= v < |used[r]| ==> used[r][v] == 0 }

  /** A dense variable whose hook came in this process ends, on every replica of it, with the sum over all contributors. */
  lemma HookedIsAveraged(now: Grads, start: Grads, parts: seq<Part>, at: nat, own: Local, used: seq<seq<nat>>, hooked: set<VarIndex>,
                         layout: seq<Bucket>, locators: seq<Locator>, lengths: seq<nat>, findUnused: bool, x: VarIndex, r: nat)
    requires AllOk(parts, layout, lengths) && Averaged(now, start, parts, layout, locators, lengths, findUnused)
    requires at + own.replicaCount <= |parts| && parts[at..at + own.replicaCount] == OwnParts(own) && (findUnused ==> UsedAfter(own.used, used, hooked))
    requires x in hooked && x.replica < own.replicaCount && x.variable < |lengths| && IsDense(layout, locators, x.variable) && r < |now|
    ensures IsSum(now[r][x.variable], parts, x.variable, lengths[x.variable])
  {
    hide PartOk, IsSum, IsDense, UsedNowhere, UsedAfter;
    assert AveragedAt(now[r][x.variable], start[r][x.variable], parts, layout, lengths, findUnused, x.variable);
    if findUnused { HookedIsUsed(parts, at, own, used, hooked, layout, lengths, x); }
  }

  lemma HookedIsUsed(parts: seq<Part>, at: nat, own: Local, used: seq<seq<nat>>, hooked: set<VarIndex>, layout: seq<Bucket>, lengths: seq<nat>, x: VarIndex)
    requires AllOk(parts, layout, lengths) && UsedAfter(own.used, used, hooked)
    requires at + own.replicaCount <= |parts| && parts[at..at + own.replicaCount] == OwnParts(own)
    requires x in hooked && x.replica < own.replicaCount && x.variable < |lengths|
    ensures !UsedNowhere(parts, layout, lengths, x.variable)
  {
    OwnPlaces(parts, at, own);
    assert PartOk(parts[at + x.replica], layout, lengths);
    assert VarIndex(x.replica, x.variable) == x;
    assert Maps(parts, layout, lengths)[at + x.replica] == own.used[x.replica];
  }

  lemma ClearedIsUnused(replicaCount: nat, n: nat)
    ensures NoneUsed(seq(replicaCount, _ => seq(n, _ => 0)))
  {
  }

  /** If all used maps were clear before the pass, a variable counts as unused exactly if nowhere a hook came for it. */
  lemma UsedNowhereIffNoHook(parts: seq<Part>, used: seq<seq<seq<nat>>>, hooked: seq<set<VarIndex>>, layout: seq<Bucket>, lengths: seq<nat>, v: nat)
    requires AllOk(parts, layout, lengths) && |used| == |hooked| == |parts| && v < |lengths|
    requires forall p :: 0 <= p < |parts| ==> NoneUsed(used[p]) && UsedAfter(parts[p].local.used, used[p], hooked[p])
    ensures UsedNowhere(parts, layout, lengths, v) <==> forall p :: 0 <= p < |parts| ==> VarIndex(parts[p].replica, v) !in hooked[p]
  {
    var maps := Maps(parts, layout, lengths);
    forall p | 0 <= p < |parts| ensures maps[p][v] == 0 <==> VarIndex(parts[p].replica, v) !in hooked[p] {
      assert PartOk(parts[p], layout, lengths) && NoneUsed(used[p]) && UsedAfter(parts[p].local.used, used[p], hooked[p]);
    }
  }
}
