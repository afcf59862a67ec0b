/** Across processes: reducing flat buckets is averaging each parameter on its own. */
module Averaging {
  import opened Basics
  import opened Flat
  import opened Buckets
  import opened ReducerState
  import opened ReducerSteps

  /** The mathematical result of an allreduce: the element-wise sum of equally long rows. */
  function Total(rows: seq<seq<real>>, n: nat): (t: seq<real>)
    requires forall i :: 0 <= i < |rows| ==> |rows[i]| == n
    ensures |t| == n
  {
    if rows == [] then Zeros(n)
    else
      var head, last := Total(rows[..|rows| - 1], n), rows[|rows| - 1];
      seq(n, e requires 0 <= e < n => head[e] + last[e])
  }

  ghost function Slices(rows: seq<seq<real>>, lo: nat, len: nat): (r: seq<seq<real>>)
    requires forall i :: 0 <= i < |rows| ==> lo + len <= |rows[i]|
    ensures |r| == |rows| && forall i :: 0 <= i < |r| ==> |r[i]| == len && r[i] == rows[i][lo..lo + len]
  {
    seq(|rows|, i requires 0 <= i < |rows| => rows[i][lo..lo + len])
  }

  /** A piece of the reduced buffer is the reduction of the pieces. */
  lemma {:induction false} TotalOfSlices(rows: seq<seq<real>>, n: nat, lo: nat, len: nat)
    requires lo + len <= n && forall i :: 0 <= i < |rows| ==> |rows[i]| == n
    ensures Total(rows, n)[lo..lo + len] == Total(Slices(rows, lo, len), len)
  {
    hide Slices;
    if rows != [] {
      var front := rows[..|rows| - 1];
      TotalOfSlices(front, n, lo, len);
      assert Slices(rows, lo, len)[..|rows| - 1] == Slices(front, lo, len);
    }
  }

  // ---------------------------------------------------------------- the contributors

  /** What one process brings to the reductions of a pass: its buckets as launched, and the gradients each
      variable was marked with, the division factor and the used maps of the pass. */
  datatype Local = Local(buckets: seq<Bucket>, replicaCount: nat, lengths: seq<nat>, grads: Grads, div: int, used: seq<seq<nat>>)

  /** Every bucket was launched with every variable's share in its place: what a whole backward pass leaves. */
  ghost predicate Contributed(l: Local) {
    && l.div > 0 && Sized(l.grads, l.used, l.replicaCount, |l.lengths|)
    && forall b :: 0 <= b < |l.buckets| ==> BucketContributed(l, b)
  }

  ghost predicate BucketContributed(l: Local, b: nat)
    requires b < |l.buckets|
  {
    var bucket := l.buckets[b];
    && WellFormed(bucket, l.replicaCount) && LengthsAgree(bucket, l.lengths) && bucket.work == Some(Contents(bucket))
    && forall r, k :: 0 <= r < l.replicaCount && 0 <= k < |bucket.vars| ==>
         PieceIs(bucket, r, k, Share(l.grads, l.lengths, l.div, VarIndex(r, bucket.vars[k])))
  }

  /** One contributor to an allreduce: a replica of one process. */
  datatype Part = Part(local: Local, replica: nat)

  /** All contributors lay the buckets out alike. */
  ghost predicate PartOk(part: Part, layout: seq<Bucket>, lengths: seq<nat>) {
    Contributed(part.local) && part.replica < part.local.replicaCount && SameLayout(part.local.buckets, layout) && part.local.lengths == lengths
  }

  ghost predicate AllOk(parts: seq<Part>, layout: seq<Bucket>, lengths: seq<nat>) {
    forall p :: 0 <= p < |parts| ==> PartOk(parts[p], layout, lengths)
  }

  lemma LaunchedRow(part: Part, layout: seq<Bucket>, lengths: seq<nat>, b: nat)
    requires PartOk(part, layout, lengths) && b < |layout|
    ensures b < |part.local.buckets| && part.local.buckets[b].work.Some? && part.replica < |part.local.buckets[b].work.value|
    ensures !layout[b].sparse ==> |part.local.buckets[b].work.value[part.replica]| == Sum(layout[b].lengths)
  {
    assert BucketContributed(part.local, b);
  }

  /** The buffers handed to the allreduce of a bucket. */
  function Launched(parts: seq<Part>, ghost layout: seq<Bucket>, ghost lengths: seq<nat>, b: nat): (rows: seq<seq<real>>)
    requires AllOk(parts, layout, lengths) && b < |layout| && !layout[b].sparse
    ensures |rows| == |parts| && forall p :: 0 <= p < |rows| ==> |rows[p]| == Sum(layout[b].lengths)
  {
    assert forall p :: 0 <= p < |parts| ==>
        && b < |parts[p].local.buckets| && parts[p].local.buckets[b].work.Some? && parts[p].replica < |parts[p].local.buckets[b].work.value|
        && |parts[p].local.buckets[b].work.value[parts[p].replica]| == Sum(layout[b].lengths)
      by { forall p | 0 <= p < |parts| { LaunchedRow(parts[p], layout, lengths, b); } }
    seq(|parts|, p requires 0 <= p < |parts| && b < |parts[p].local.buckets| && parts[p].local.buckets[b].work.Some?
                            && parts[p].replica < |parts[p].local.buckets[b].work.value|
        => parts[p].local.buckets[b].work.value[parts[p].replica])
  }

  /** A contributor's gradient of the variable, when it was marked, over its division factor. */
  ghost function AtMark(part: Part, v: nat): seq<real>
    requires Contributed(part.local) && part.replica < part.local.replicaCount && v < |part.local.lengths|
  {
    Contribution(part.local.grads[part.replica][v], part.local.lengths[v], part.local.div)
  }

  ghost function AllScaled(parts: seq<Part>, layout: seq<Bucket>, lengths: seq<nat>, v: nat): (rows: seq<seq<real>>)
    requires AllOk(parts, layout, lengths) && v < |lengths|
    ensures |rows| == |parts|
    ensures forall p :: 0 <= p < |rows| ==> PartOk(parts[p], layout, lengths) && rows[p] == AtMark(parts[p], v)
  {
    seq(|parts|, p requires 0 <= p < |parts| && PartOk(parts[p], layout, lengths) => AtMark(parts[p], v))
  }

  /** Bucketed reduction refines per-parameter reduction: in the reduced flat buffer, the view of each
      variable is the sum of the contributors' scaled gradients of that variable. */
  lemma ReducedPieceIsPerParameterSum(parts: seq<Part>, layout: seq<Bucket>, lengths: seq<nat>, b: nat, k: nat)
    requires AllOk(parts, layout, lengths) && b < |layout| && !layout[b].sparse && k < |layout[b].vars| == |layout[b].lengths|
    requires Tiled(layout[b].offsets, layout[b].lengths) && LengthsAgree(layout[b], lengths)
    ensures layout[b].offsets[k] + layout[b].lengths[k] <= Sum(layout[b].lengths)
    ensures var v := layout[b].vars[k];
            && (forall p :: 0 <= p < |parts| ==> |AllScaled(parts, layout, lengths, v)[p]| == lengths[v])
            && Total(Launched(parts, layout, lengths, b), Sum(layout[b].lengths))[layout[b].offsets[k]..layout[b].offsets[k] + layout[b].lengths[k]]
               == Total(AllScaled(parts, layout, lengths, v), lengths[v])
  {
    hide PartOk, Total, AtMark;
    var bucket, v := layout[b], layout[b].vars[k];
    PieceInside(bucket.offsets, bucket.lengths, k);
    var lo, len, rows := bucket.offsets[k], bucket.lengths[k], Launched(parts, layout, lengths, b);
    TotalOfSlices(rows, Sum(bucket.lengths), lo, len);
    forall p | 0 <= p < |parts| ensures Slices(rows, lo, len)[p] == AllScaled(parts, layout, lengths, v)[p] {
      LaunchedPiece(parts[p], layout, lengths, b, k);
    }
    assert Slices(rows, lo, len) == AllScaled(parts, layout, lengths, v);
  }

  lemma LaunchedPiece(part: Part, layout: seq<Bucket>, lengths: seq<nat>, b: nat, k: nat)
    requires PartOk(part, layout, lengths) && b < |layout| && !layout[b].sparse && k < |layout[b].vars| == |layout[b].lengths|
    requires Tiled(layout[b].offsets, layout[b].lengths) && LengthsAgree(layout[b], lengths)
    ensures part.local.buckets[b].work.Some? && part.replica < |part.local.buckets[b].work.value|
    ensures var row, lo := part.local.buckets[b].work.value[part.replica], layout[b].offsets[k];
            lo + layout[b].lengths[k] <= |row| && row[lo..lo + layout[b].lengths[k]] == AtMark(part, layout[b].vars[k])
  {
    hide Contribution, Sum;
    LaunchedRow(part, layout, lengths, b);
    PieceInside(layout[b].offsets, layout[b].lengths, k);
    var l := part.local;
    assert BucketContributed(l, b);
    assert PieceIs(l.buckets[b], part.replica, k, Share(l.grads, l.lengths, l.div, VarIndex(part.replica, l.buckets[b].vars[k])));
  }

  // ---------------------------------------------------------------- element by element

  /** One contributor's gradient element over its division factor; zero where it has no gradient. */
  ghost function Term(grad: Option<seq<real>>, div: int, e: nat): real {
    if grad.Some? && e < |grad.value| && div != 0 then grad.value[e] / (div as real) else 0.0
  }

  /** Their sum, over the reals. */
  ghost function GradSum(parts: seq<Part>, v: nat, e: nat): real {
    if parts == [] then 0.0
    else
      var Part(l, r) := parts[|parts| - 1];
      GradSum(parts[..|parts| - 1], v, e) + if r < |l.grads| && v < |l.grads[r]| then Term(l.grads[r][v], l.div, e) else 0.0
  }

  /** Every gradient there is has the size of its variable, and every contributor divides by something. */
  ghost predicate GradsSized(parts: seq<Part>, v: nat, length: nat) {
    forall p :: 0 <= p < |parts| ==> GradSized(parts[p], v, length)
  }

  ghost predicate GradSized(part: Part, v: nat, length: nat) {
    && part.local.div > 0 && part.replica < |part.local.grads| && v < |part.local.grads[part.replica]|
    && (part.local.grads[part.replica][v].Some? ==> |part.local.grads[part.replica][v].value| == length)
  }

  lemma ScaledElement(g: seq<real>, div: int, e: nat)
    requires div != 0 && e < |g|
    ensures Scaled(g, div)[e] == g[e] / (div as real)
  {
  }

  lemma AtMarkElement(part: Part, v: nat, e: nat)
    requires Contributed(part.local) && part.replica < part.local.replicaCount && v < |part.local.lengths|
    requires |AtMark(part, v)| == part.local.lengths[v] && e < part.local.lengths[v]
    ensures AtMark(part, v)[e] == Term(part.local.grads[part.replica][v], part.local.div, e)
    ensures GradSized(part, v, part.local.lengths[v])
  {
    hide BucketContributed, Scaled;
    var grad := part.local.grads[part.replica][v];
    if grad.Some? { ScaledElement(grad.value, part.local.div, e); }
  }

  lemma EmptySized(part: Part, v: nat)
    requires Contributed(part.local) && part.replica < part.local.replicaCount && v < |part.local.lengths|
    requires |AtMark(part, v)| == part.local.lengths[v]
    ensures GradSized(part, v, part.local.lengths[v])
  {
    hide BucketContributed;
  }

  lemma {:induction false} TotalElement(parts: seq<Part>, layout: seq<Bucket>, lengths: seq<nat>, v: nat, e: nat)
    requires AllOk(parts, layout, lengths) && v < |lengths| && e < lengths[v]
    requires forall p :: 0 <= p < |parts| ==> |AllScaled(parts, layout, lengths, v)[p]| == lengths[v]
    ensures Total(AllScaled(parts, layout, lengths, v), lengths[v])[e] == GradSum(parts, v, e)
  {
    hide Contributed, AtMark, Term, AllScaled;
    if parts != [] {
      var front, part := parts[..|parts| - 1], parts[|parts| - 1];
      var rows := AllScaled(parts, layout, lengths, v);
      assert PartOk(part, layout, lengths);
      assert rows[..|rows| - 1] == AllScaled(front, layout, lengths, v);
      TotalElement(front, layout, lengths, v, e);
      assert rows[|rows| - 1] == AtMark(part, v);
      AtMarkElement(part, v, e);
    }
  }

  lemma AllSized(parts: seq<Part>, layout: seq<Bucket>, lengths: seq<nat>, v: nat)
    requires AllOk(parts, layout, lengths) && v < |lengths|
    requires forall p :: 0 <= p < |parts| ==> |AllScaled(parts, layout, lengths, v)[p]| == lengths[v]
    ensures GradsSized(parts, v, lengths[v])
  {
    hide Contributed, AtMark, AllScaled;
    forall p | 0 <= p < |parts| ensures GradSized(parts[p], v, lengths[v]) {
      assert AllScaled(parts, layout, lengths, v)[p] == AtMark(parts[p], v);
      EmptySized(parts[p], v);
    }
  }

  /** The gradient has its variable's size, and every element is the sum of what the contributors had there, each over
      its division factor. */
  ghost predicate IsSum(now: Option<seq<real>>, parts: seq<Part>, v: nat, length: nat) {
    && GradsSized(parts, v, length)
    && now.Some? && |now.value| == length && forall e :: 0 <= e < length ==> now.value[e] == GradSum(parts, v, e)
  }

  lemma TotalIsSum(parts: seq<Part>, layout: seq<Bucket>, lengths: seq<nat>, v: nat)
    requires AllOk(parts, layout, lengths) && v < |lengths|
    requires forall p :: 0 <= p < |parts| ==> |AllScaled(parts, layout, lengths, v)[p]| == lengths[v]
    ensures IsSum(Some(Total(AllScaled(parts, layout, lengths, v), lengths[v])), parts, v, lengths[v])
  {
    hide AllOk, AllScaled, Total, GradSum, GradsSized;
    AllSized(parts, layout, lengths, v);
    forall e: nat | e < lengths[v] ensures Total(AllScaled(parts, layout, lengths, v), lengths[v])[e] == GradSum(parts, v, e) {
      TotalElement(parts, layout, lengths, v, e);
    }
  }

  // ---------------------------------------------------------------- used maps

  function UsedBy(maps: seq<seq<nat>>, v: nat): nat
    requires forall p :: 0 <= p < |maps| ==> v < |maps[p]|
  {
    if maps == [] then 0 else UsedBy(maps[..|maps| - 1], v) + maps[|maps| - 1][v]
  }

  /** The reduced map is zero at a variable exactly when no contributor used it, and never below any
      contributor's own entry. */
  lemma {:induction false} UsedByMeaning(maps: seq<seq<nat>>, v: nat)
    requires forall p :: 0 <= p < |maps| ==> v < |maps[p]|
    ensures UsedBy(maps, v) == 0 <==> forall p :: 0 <= p < |maps| ==> maps[p][v] == 0
    ensures forall p :: 0 <= p < |maps| ==> maps[p][v] <= UsedBy(maps, v)
  {
    if maps != [] {
      var front, n := maps[..|maps| - 1], |maps| - 1;
      UsedByMeaning(front, v);
      assert forall p :: 0 <= p < n ==> front[p][v] == maps[p][v];
      assert UsedBy(maps, v) == UsedBy(front, v) + maps[n][v];
    }
  }

  /** The used maps handed to their allreduce. */
  function Maps(parts: seq<Part>, ghost layout: seq<Bucket>, ghost lengths: seq<nat>): (maps: seq<seq<nat>>)
    requires AllOk(parts, layout, lengths)
    ensures |maps| == |parts|
    ensures forall p :: 0 <= p < |maps| ==> PartOk(parts[p], layout, lengths) && |maps[p]| == |lengths| && maps[p] == parts[p].local.used[parts[p].replica]
  {
    seq(|parts|, p requires 0 <= p < |parts| && PartOk(parts[p], layout, lengths) => parts[p].local.used[parts[p].replica])
  }

  // ---------------------------------------------------------------- end to end

  ghost predicate UsedNowhere(parts: seq<Part>, layout: seq<Bucket>, lengths: seq<nat>, v: nat)
    requires AllOk(parts, layout, lengths) && v < |lengths|
  {
    forall p :: 0 <= p < |parts| ==> Maps(parts, layout, lengths)[p][v] == 0
  }

  /** After `finalize_backward`, the gradient of a dense variable that some process used (or of any
      dense variable, when unused ones are not searched for) is, element by element, the real sum over all
      contributors of the gradient each marked the variable with over its division factor, zero where it had none;
      that of a variable no process used is what it was. */
  lemma FinalGradientIsTheAverage(now: seq<Option<seq<real>>>, before: seq<Option<seq<real>>>, layout: seq<Bucket>, locators: seq<Locator>,
                                  lengths: seq<nat>, reduced: seq<seq<real>>, findUnused: bool, usedSum: seq<nat>, parts: seq<Part>, v: nat)
    requires Finalized(now, before, layout, locators, |layout|, reduced, findUnused, usedSum) && Locates(layout, locators) && |lengths| == |locators|
    requires v < |now| && AllOk(parts, layout, lengths)
    requires var b := layout[locators[v].bucket];
               && !b.sparse && Tiled(b.offsets, b.lengths) && |b.vars| == |b.lengths| && LengthsAgree(b, lengths)
               && reduced[locators[v].bucket] == Total(Launched(parts, layout, lengths, locators[v].bucket), Sum(b.lengths))
    requires findUnused ==> usedSum[v] == UsedBy(Maps(parts, layout, lengths), v)
    ensures if findUnused && UsedNowhere(parts, layout, lengths, v) then now[v] == before[v] else IsSum(now[v], parts, v, lengths[v])
  {
    hide PartOk, Total, AtMark, Launched, IsSum;
    ReducedPieceIsPerParameterSum(parts, layout, lengths, locators[v].bucket, locators[v].intra);
    TotalIsSum(parts, layout, lengths, v);
    if findUnused { UsedByMeaning(Maps(parts, layout, lengths), v); }
  }
}
