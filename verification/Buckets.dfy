/** Flat buffers: the tensors of one bucket laid end to end. */
module Flat {

  function Sum(lengths: seq<nat>): nat {
    if lengths == [] then 0 else Sum(lengths[..|lengths|-1]) + lengths[|lengths|-1]
  }

  /** The offsets of consecutive pieces with the given lengths. */
  ghost predicate Tiled(offsets: seq<nat>, lengths: seq<nat>) {
    && |offsets| == |lengths|
    && forall k :: 0 <= k < |lengths| ==> offsets[k] == Sum(lengths[..k])
  }

  lemma {:induction false} SumUpTo(lengths: seq<nat>, i: nat, j: nat)
    requires i < j <= |lengths|
    ensures Sum(lengths[..i]) + lengths[i] <= Sum(lengths[..j])
    decreases j
  {
    assert lengths[..j][..j-1] == lengths[..j-1];
    if i < j - 1 { SumUpTo(lengths, i, j - 1); }
  }

  /** Pieces lie inside the buffer and do not overlap. */
  lemma PiecesDisjoint(offsets: seq<nat>, lengths: seq<nat>, i: nat, j: nat)
    requires Tiled(offsets, lengths) && i < j < |lengths|
    ensures offsets[i] + lengths[i] <= offsets[j] && offsets[j] + lengths[j] <= Sum(lengths)
  {
    SumUpTo(lengths, i, j);
    SumUpTo(lengths, j, |lengths|);
    assert lengths[..|lengths|] == lengths;
  }

  lemma PieceInside(offsets: seq<nat>, lengths: seq<nat>, k: nat)
    requires Tiled(offsets, lengths) && k < |lengths|
    ensures offsets[k] + lengths[k] <= Sum(lengths)
  {
    SumUpTo(lengths, k, |lengths|);
    assert lengths[..|lengths|] == lengths;
  }

  /** Writing a view of a buffer. */
  function Splice(buf: seq<real>, off: nat, piece: seq<real>): (r: seq<real>)
    requires off + |piece| <= |buf|
    ensures |r| == |buf| && r[off..off + |piece|] == piece
  {
    buf[..off] + piece + buf[off + |piece|..]
  }

  lemma SpliceElsewhere(buf: seq<real>, off: nat, piece: seq<real>, lo: nat, len: nat)
    requires off + |piece| <= |buf| && lo + len <= |buf|
    requires lo + len <= off || off + |piece| <= lo
    ensures Splice(buf, off, piece)[lo..lo + len] == buf[lo..lo + len]
  {
  }

  /** Writing one piece of a tiled buffer leaves the others as they were. */
  lemma SplicedPiece(buf: seq<real>, offsets: seq<nat>, lengths: seq<nat>, k: nat, value: seq<real>, m: nat)
    requires Tiled(offsets, lengths) && k < |lengths| && m < |lengths| && |buf| == Sum(lengths) && |value| == lengths[k]
    ensures offsets[k] + |value| <= |buf| && offsets[m] + lengths[m] <= |buf|
    ensures Splice(buf, offsets[k], value)[offsets[m]..offsets[m] + lengths[m]]
         == if m == k then value else buf[offsets[m]..offsets[m] + lengths[m]]
  {
    hide Sum, Splice;
    PieceInside(offsets, lengths, k);
    PieceInside(offsets, lengths, m);
    if m != k {
      if m < k { PiecesDisjoint(offsets, lengths, m, k); } else { PiecesDisjoint(offsets, lengths, k, m); }
      SpliceElsewhere(buf, offsets[k], value, offsets[m], lengths[m]);
    }
  }

  function Zeros(n: nat): (z: seq<real>)
    ensures |z| == n
  {
    seq(n, _ => 0.0)
  }

  function Scaled(g: seq<real>, div: int): (r: seq<real>)
    requires div != 0
    ensures |r| == |g|
  {
    seq(|g|, i requires 0 <= i < |g| => g[i] * (1.0 / (div as real)))
  }
}

/** The buckets of the gradient reducer as values. */
module Buckets {
  import opened Basics
  import opened Flat

  datatype VarIndex = VarIndex(replica: nat, variable: nat)

  datatype Replica = Replica(contents: seq<real>, pending: nat)

  /** `work` holds the buffers handed to the allreduce when the bucket was launched. */
  datatype Bucket = Bucket(vars: seq<nat>, lengths: seq<nat>, offsets: seq<nat>, sparse: bool,
                           replicas: seq<Replica>, pending: nat, work: Option<seq<seq<real>>>)

  ghost predicate WellFormed(b: Bucket, replicaCount: nat) {
    && b.vars != [] && Distinct(b.vars) && |b.lengths| == |b.vars| && Tiled(b.offsets, b.lengths)
    && (b.sparse ==> |b.vars| == 1)
    && |b.replicas| == replicaCount
    && (!b.sparse ==> forall r :: 0 <= r < replicaCount ==> |b.replicas[r].contents| == Sum(b.lengths))
  }

  /** The positions of a bucket that a replica has not marked. */
  ghost function Unmarked(vars: seq<nat>, r: nat, marked: set<VarIndex>): set<nat> {
    set k | 0 <= k < |vars| && VarIndex(r, vars[k]) !in marked
  }

  ghost function Incomplete(replicas: seq<Replica>): set<nat> {
    set r | 0 <= r < |replicas| && replicas[r].pending > 0
  }

  /** The counters say how many variables, and how many replicas, are still to come. */
  ghost predicate Tracks(b: Bucket, marked: set<VarIndex>) {
    && (forall r :: 0 <= r < |b.replicas| ==> b.replicas[r].pending == |Unmarked(b.vars, r, marked)|)
    && b.pending == |Incomplete(b.replicas)|
  }

  ghost predicate AllMarked(b: Bucket, marked: set<VarIndex>) {
    forall r, k :: 0 <= r < |b.replicas| && 0 <= k < |b.vars| ==> VarIndex(r, b.vars[k]) in marked
  }

  lemma NoneLeft(vars: seq<nat>, r: nat, marked: set<VarIndex>)
    ensures |Unmarked(vars, r, marked)| == 0 <==> forall k :: 0 <= k < |vars| ==> VarIndex(r, vars[k]) in marked
  {
    var u := Unmarked(vars, r, marked);
    if |u| == 0 {
      forall k | 0 <= k < |vars| ensures VarIndex(r, vars[k]) in marked {
        assert k !in u;
      }
    } else {
      var k :| k in u;
    }
  }

  /** A bucket is ready exactly when every replica has marked every variable of it. */
  lemma ReadyIff(b: Bucket, marked: set<VarIndex>)
    requires Tracks(b, marked)
    ensures b.pending == 0 <==> AllMarked(b, marked)
  {
    if b.pending == 0 {
      forall r, k | 0 <= r < |b.replicas| && 0 <= k < |b.vars| ensures VarIndex(r, b.vars[k]) in marked {
        assert r !in Incomplete(b.replicas);
        NoneLeft(b.vars, r, marked);
      }
    }
    if AllMarked(b, marked) {
      forall r | 0 <= r < |b.replicas| ensures b.replicas[r].pending == 0 { NoneLeft(b.vars, r, marked); }
      assert Incomplete(b.replicas) == {};
    }
  }

  /** The counter update of `mark_variable_ready`. */
  function Decrement(b: Bucket, r: nat): Bucket
    requires r < |b.replicas| && b.replicas[r].pending > 0 && b.pending > 0
  {
    var left := b.replicas[r].pending - 1;
    b.(replicas := b.replicas[r := b.replicas[r].(pending := left)],
       pending := if left == 0 then b.pending - 1 else b.pending)
  }

  lemma MarkCounts(b: Bucket, marked: set<VarIndex>, r: nat, k: nat)
    requires Tracks(b, marked) && Distinct(b.vars) && r < |b.replicas| && k < |b.vars|
    requires VarIndex(r, b.vars[k]) !in marked
    ensures b.replicas[r].pending > 0 && b.pending > 0
    ensures Tracks(Decrement(b, r), marked + {VarIndex(r, b.vars[k])})
  {
    var marked' := marked + {VarIndex(r, b.vars[k])};
    var u := Unmarked(b.vars, r, marked);
    assert k in u;
    assert Unmarked(b.vars, r, marked') == u - {k};
    assert r in Incomplete(b.replicas);
    var b' := Decrement(b, r);
    forall q | 0 <= q < |b.replicas| && q != r ensures Unmarked(b.vars, q, marked') == Unmarked(b.vars, q, marked) {}
    if b'.replicas[r].pending == 0 {
      assert Incomplete(b'.replicas) == Incomplete(b.replicas) - {r};
    } else {
      assert Incomplete(b'.replicas) == Incomplete(b.replicas);
    }
  }

  lemma MarkElsewhere(b: Bucket, marked: set<VarIndex>, index: VarIndex)
    requires Tracks(b, marked) && index.variable !in b.vars
    ensures Tracks(b, marked + {index})
  {
    forall r | 0 <= r < |b.replicas| ensures Unmarked(b.vars, r, marked + {index}) == Unmarked(b.vars, r, marked) {}
  }

  /** What the buffer of replica `r` holds for position `k`. */
  function Piece(b: Bucket, r: nat, k: nat): seq<real>
    requires r < |b.replicas| && k < |b.offsets| == |b.lengths|
    requires b.sparse || b.offsets[k] + b.lengths[k] <= |b.replicas[r].contents|
  {
    if b.sparse then b.replicas[r].contents
    else b.replicas[r].contents[b.offsets[k]..b.offsets[k] + b.lengths[k]]
  }

  /** Every marked variable's piece holds what was recorded when it was marked: no later copy into the
      same buffer disturbed it. */
  ghost predicate Holds(b: Bucket, replicaCount: nat, recorded: map<VarIndex, seq<real>>)
    requires WellFormed(b, replicaCount)
  {
    forall r, k :: 0 <= r < replicaCount && 0 <= k < |b.vars| && VarIndex(r, b.vars[k]) in recorded ==>
      PieceIs(b, r, k, recorded[VarIndex(r, b.vars[k])])
  }

  ghost predicate PieceIs(b: Bucket, r: nat, k: nat, value: seq<real>) {
    && r < |b.replicas| && k < |b.offsets| == |b.lengths|
    && (b.sparse || b.offsets[k] + b.lengths[k] <= |b.replicas[r].contents|)
    && Piece(b, r, k) == value
  }

  /** The copy into the bucket view (or, for a sparse gradient, the replacement of the contents). */
  function CopyIn(b: Bucket, r: nat, k: nat, value: seq<real>): Bucket
    requires r < |b.replicas| && k < |b.offsets|
    requires b.sparse || b.offsets[k] + |value| <= |b.replicas[r].contents|
  {
    var contents := if b.sparse then value else Splice(b.replicas[r].contents, b.offsets[k], value);
    b.(replicas := b.replicas[r := b.replicas[r].(contents := contents)])
  }

  lemma CopyPiece(b: Bucket, replicaCount: nat, r: nat, k: nat, value: seq<real>, q: nat, m: nat)
    requires WellFormed(b, replicaCount) && r < replicaCount && k < |b.vars| && q < replicaCount && m < |b.vars|
    requires (b.sparse || |value| == b.lengths[k]) && (b.sparse || b.offsets[k] + |value| <= |b.replicas[r].contents|)
    ensures b.sparse || b.offsets[m] + b.lengths[m] <= |b.replicas[q].contents| == |CopyIn(b, r, k, value).replicas[q].contents|
    ensures Piece(CopyIn(b, r, k, value), q, m) == if q == r && m == k then value else Piece(b, q, m)
  {
    hide Distinct, Sum, Splice;
    PieceInside(b.offsets, b.lengths, m);
    if q == r && !b.sparse { SplicedPiece(b.replicas[r].contents, b.offsets, b.lengths, k, value, m); }
  }

  lemma CopyHolds(b: Bucket, replicaCount: nat, recorded: map<VarIndex, seq<real>>, r: nat, k: nat, value: seq<real>)
    requires WellFormed(b, replicaCount) && Holds(b, replicaCount, recorded) && r < replicaCount && k < |b.vars|
    requires b.sparse || |value| == b.lengths[k]
    ensures b.sparse || b.offsets[k] + |value| <= |b.replicas[r].contents|
    ensures WellFormed(CopyIn(b, r, k, value), replicaCount)
    ensures Holds(CopyIn(b, r, k, value), replicaCount, recorded[VarIndex(r, b.vars[k]) := value])
  {
    PieceInside(b.offsets, b.lengths, k);
    var b' := CopyIn(b, r, k, value);
    var recorded' := recorded[VarIndex(r, b.vars[k]) := value];
    forall q, m | 0 <= q < replicaCount && 0 <= m < |b.vars| && VarIndex(q, b.vars[m]) in recorded'
      ensures PieceIs(b', q, m, recorded'[VarIndex(q, b.vars[m])])
    {
      CopyPiece(b, replicaCount, r, k, value, q, m);
      assert m != k ==> b.vars[m] != b.vars[k];
      if !(q == r && m == k) { assert PieceIs(b, q, m, recorded[VarIndex(q, b.vars[m])]); }
    }
  }
}
