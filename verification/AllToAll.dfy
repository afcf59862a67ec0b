/** The lengths and offsets of an all-to-all exchange, in the machine's arithmetic.

    Splits are rows for each rank; their sum is kept in an `int`, a length is a product of `size_t`, and the
    exchange takes only what an `int` holds. */
module AllToAll {
  import opened Basics
  import opened Flat

  /** Narrowing to `int`. */
  function ToInt32(x: int): int { var low := x % INT32; if low <= INT_MAX then low else low - INT32 }

  ghost function SumInt(s: seq<int>): int { if s == [] then 0 else SumInt(s[..|s| - 1]) + s[|s| - 1] }

  lemma NarrowAdd(a: int, b: int)
    ensures ToInt32(ToInt32(a) + b) == ToInt32(a + b)
  {
  }

  ghost predicate Accepted(splits: seq<int>, dim0: nat, n: nat)
    requires n > 0
  {
    if splits == [] then dim0 % n == 0 else |splits| == n && ToInt32(SumInt(splits)) == dim0
  }

  /** `checkSplitSizes`: the running sum is an `int`, whatever the splits are. */
  method CheckSplitSizes(splits: seq<int>, dim0: nat, n: nat) returns (ok: bool)
    requires n > 0
    ensures ok <==> Accepted(splits, dim0, n)
  {
    hide ToInt32;
    if splits == [] {
      return dim0 % n == 0;
    }
    if |splits| != n { return false; }
    NarrowZero();
    var sum := 0;
    for i := 0 to |splits|
      invariant sum == ToInt32(SumInt(splits[..i]))
    {
      assert splits[..i + 1][..i] == splits[..i];
      NarrowAdd(SumInt(splits[..i]), splits[i]);
      sum := ToInt32(sum + splits[i]);
    }
    assert splits[..|splits|] == splits;
    return sum == dim0;
  }

  lemma NarrowZero()
    ensures ToInt32(0) == 0
  {
  }

  datatype Layout = Layout(lengths: seq<nat>, offsets: seq<nat>, total: nat)

  predicate IsShape(dim0: nat, numel: nat) {
    dim0 <= INT64_MAX && numel <= INT64_MAX && if dim0 == 0 then numel == 0 else numel % dim0 == 0
  }

  function RowSize(dim0: nat, numel: nat): nat { if dim0 == 0 then 1 else numel / dim0 }

  function SplitAt(splits: seq<int>, dim0: nat, n: nat, i: nat): int
    requires n > 0 && (splits == [] || i < |splits|)
  {
    if splits == [] then dim0 / n else splits[i]
  }

  /** A product of `size_t`. */
  function Product(row: nat, split: int): (r: nat) { (row * split) % SIZE_T }

  function Length(splits: seq<int>, dim0: nat, numel: nat, n: nat, i: nat): nat
    requires n > 0 && (splits == [] || i < |splits|)
  {
    Product(RowSize(dim0, numel), SplitAt(splits, dim0, n, i))
  }

  lemma LengthIs(splits: seq<int>, dim0: nat, numel: nat, n: nat, i: nat)
    requires n > 0 && (splits == [] || i < |splits|)
    ensures Length(splits, dim0, numel, n, i)
         == ((if dim0 == 0 then 1 else numel / dim0) * (if splits == [] then dim0 / n else splits[i])) % SIZE_T
  {
  }

  ghost function Lengths(splits: seq<int>, dim0: nat, numel: nat, n: nat): (r: seq<nat>)
    requires n > 0 && (splits == [] || |splits| == n)
    ensures |r| == n && forall i :: 0 <= i < n ==> r[i] == Length(splits, dim0, numel, n, i)
  {
    seq(n, i requires 0 <= i < n => Length(splits, dim0, numel, n, i))
  }

  ghost predicate InIntRange(lengths: seq<nat>) {
    forall i :: 0 <= i < |lengths| ==> InIntRangeAt(lengths, i)
  }

  ghost predicate InIntRangeAt(lengths: seq<nat>, i: nat)
    requires i < |lengths|
  {
    lengths[i] <= INT_MAX && Sum(lengths[..i]) <= INT_MAX
  }

  /** `computeLengthsAndOffsets`. Whatever was passed, the segments tile what they add up to; `None` where a
      length or an offset is more than an `int`. */
  method ComputeLengthsAndOffsets(splits: seq<int>, dim0: nat, numel: nat, n: nat) returns (r: Option<Layout>)
    requires n > 0 && (splits == [] || |splits| == n) && IsShape(dim0, numel)
    ensures r.None? <==> !InIntRange(Lengths(splits, dim0, numel, n))
    ensures r.Some? ==> r.value.lengths == Lengths(splits, dim0, numel, n)
    ensures r.Some? ==> forall i :: 0 <= i < n ==>
              r.value.lengths[i] == ((if dim0 == 0 then 1 else numel / dim0) * (if splits == [] then dim0 / n else splits[i])) % SIZE_T
    ensures r.Some? ==> Tiled(r.value.offsets, r.value.lengths) && r.value.total == Sum(r.value.lengths)
  {
    hide Length;
    ghost var all := Lengths(splits, dim0, numel, n);
    var lengths, offsets := [], [];
    var offset := 0;
    for i := 0 to n
      invariant lengths == all[..i] && |offsets| == i && offset == Sum(all[..i])
      invariant forall k :: 0 <= k < i ==> offsets[k] == Sum(all[..k])
      invariant forall k :: 0 <= k < i ==> InIntRangeAt(all, k)
    {
      var length := Length(splits, dim0, numel, n, i);
      assert all[..i + 1][..i] == all[..i];
      if !(length <= INT_MAX && offset <= INT_MAX) {
        assert !InIntRangeAt(all, i);
        return None;
      }
      lengths, offsets := lengths + [length], offsets + [offset];
      offset := offset + length;
    }
    assert all[..n] == all;
    assert forall k :: 0 <= k < n ==> lengths[..k] == all[..k];
    forall i | 0 <= i < n
      ensures lengths[i] == ((if dim0 == 0 then 1 else numel / dim0) * (if splits == [] then dim0 / n else splits[i])) % SIZE_T
    {
      LengthIs(splits, dim0, numel, n, i);
    }
    return Some(Layout(lengths, offsets, offset));
  }

  /** The overload for lists of tensors, which only adds up their sizes. */
  method ComputeListLengthsAndOffsets(numels: seq<nat>) returns (r: Option<Layout>)
    ensures r.None? <==> !InIntRange(numels)
    ensures r.Some? ==> r.value.lengths == numels && Tiled(r.value.offsets, numels) && r.value.total == Sum(numels)
  {
    var offsets, offset := [], 0;
    for i := 0 to |numels|
      invariant |offsets| == i && offset == Sum(numels[..i])
      invariant forall k :: 0 <= k < i ==> offsets[k] == Sum(numels[..k])
      invariant forall k :: 0 <= k < i ==> InIntRangeAt(numels, k)
    {
      assert numels[..i + 1][..i] == numels[..i];
      if !(numels[i] <= INT_MAX && offset <= INT_MAX) {
        assert !InIntRangeAt(numels, i);
        return None;
      }
      offsets := offsets + [offset];
      offset := offset + numels[i];
    }
    assert numels[..|numels|] == numels;
    return Some(Layout(numels, offsets, offset));
  }

  // ---------------------------------------------------------------- when the layout is the right one

  /** Every segment is as long as the rows it was given, and together they are the whole tensor. */
  ghost predicate Right(splits: seq<int>, dim0: nat, numel: nat, n: nat)
    requires n > 0 && (splits == [] || |splits| == n)
  {
    var lengths := Lengths(splits, dim0, numel, n);
    && (forall i :: 0 <= i < n ==> lengths[i] == (if dim0 == 0 then 1 else numel / dim0) * (if splits == [] then dim0 / n else splits[i]))
    && Sum(lengths) == numel
  }

  ghost predicate NonNegative(s: seq<int>) { forall i :: 0 <= i < |s| ==> s[i] >= 0 }

  lemma RowsTimesRowSize(dim0: nat, numel: nat)
    requires IsShape(dim0, numel)
    ensures RowSize(dim0, numel) * dim0 == numel
  {
  }

  lemma {:induction false} PartAtMostSum(s: seq<int>, i: nat)
    requires NonNegative(s) && i < |s|
    ensures 0 <= s[i] <= SumInt(s)
  {
    var n := |s| - 1;
    if i < n { PartAtMostSum(s[..n], i); }
    SumNonNegative(s[..n]);
  }

  lemma {:induction false} SumNonNegative(s: seq<int>)
    requires NonNegative(s)
    ensures SumInt(s) >= 0
  {
    if s != [] { SumNonNegative(s[..|s| - 1]); }
  }

  lemma {:induction false} SumScales(lengths: seq<nat>, row: nat, splits: seq<int>)
    requires |lengths| == |splits| && forall i :: 0 <= i < |splits| ==> lengths[i] == row * splits[i]
    ensures Sum(lengths) == row * SumInt(splits)
  {
    if splits != [] {
      var n := |splits| - 1;
      SumScales(lengths[..n], row, splits[..n]);
      Distribute(row, SumInt(splits[..n]), splits[n]);
    }
  }

  lemma Distribute(a: int, b: int, c: int)
    ensures a * (b + c) == a * b + a * c
  {
  }

  lemma ProductExact(row: nat, split: int, dim0: nat)
    requires 0 <= split <= dim0 && row * dim0 <= INT64_MAX
    ensures Product(row, split) == row * split
  {
  }

  lemma Cancel(row: nat, a: int, b: int)
    requires row > 0 && row * a == row * b
    ensures a == b
  {
    Distribute(row, a, -b);
    if a > b { Positive(row, a - b); } else if a < b { Positive(row, b - a); }
  }

  lemma Positive(a: nat, b: int)
    requires a > 0 && b > 0
    ensures a * b > 0
  {
  }

  lemma NonNegativeFactor(a: nat, b: int)
    requires a > 0 && a * b >= 0
    ensures b >= 0
  {
  }

  lemma RightIfSumsUp(splits: seq<int>, dim0: nat, numel: nat, n: nat)
    requires n > 0 && |splits| == n && IsShape(dim0, numel) && NonNegative(splits) && SumInt(splits) == dim0
    ensures Right(splits, dim0, numel, n)
  {
    hide Product;
    var row := RowSize(dim0, numel);
    RowsTimesRowSize(dim0, numel);
    forall i | 0 <= i < n ensures Length(splits, dim0, numel, n, i) == row * splits[i] {
      PartAtMostSum(splits, i);
      ProductExact(row, splits[i], dim0);
    }
    SumScales(Lengths(splits, dim0, numel, n), row, splits);
  }

  lemma {:induction false} SumZeros(lengths: seq<nat>)
    requires forall i :: 0 <= i < |lengths| ==> lengths[i] == 0
    ensures Sum(lengths) == 0
  {
    if lengths != [] { SumZeros(lengths[..|lengths| - 1]); }
  }

  lemma RightIfRowEmpty(splits: seq<int>, dim0: nat, numel: nat, n: nat)
    requires n > 0 && |splits| == n && IsShape(dim0, numel) && RowSize(dim0, numel) == 0
    ensures Right(splits, dim0, numel, n)
  {
    RowsTimesRowSize(dim0, numel);
    forall i | 0 <= i < n ensures Length(splits, dim0, numel, n, i) == 0 { assert 0 * splits[i] == 0; }
    SumZeros(Lengths(splits, dim0, numel, n));
  }

  lemma RightOnlyIf(splits: seq<int>, dim0: nat, numel: nat, n: nat)
    requires n > 0 && |splits| == n && IsShape(dim0, numel) && RowSize(dim0, numel) > 0 && Right(splits, dim0, numel, n)
    ensures NonNegative(splits) && SumInt(splits) == dim0
  {
    hide Length;
    var row, lengths := RowSize(dim0, numel), Lengths(splits, dim0, numel, n);
    RowsTimesRowSize(dim0, numel);
    forall i | 0 <= i < n ensures lengths[i] == row * splits[i] && splits[i] >= 0 {
      assert lengths[i] == row * SplitAt(splits, dim0, n, i);
      NonNegativeFactor(row, splits[i]);
    }
    SumScales(lengths, row, splits);
    Cancel(row, SumInt(splits), dim0);
  }

  /** Uneven splits are laid out rightly exactly if there is nothing in a row, or none is negative and they add up
      to the first dimension, in full and not only in its low 32 bits, which is all that `checkSplitSizes` looks at. */
  lemma UnevenLayoutRightIff(splits: seq<int>, dim0: nat, numel: nat, n: nat)
    requires n > 0 && |splits| == n && IsShape(dim0, numel)
    ensures Right(splits, dim0, numel, n) <==> RowSize(dim0, numel) == 0 || (NonNegative(splits) && SumInt(splits) == dim0)
  {
    if RowSize(dim0, numel) == 0 { RightIfRowEmpty(splits, dim0, numel, n); }
    else if NonNegative(splits) && SumInt(splits) == dim0 { RightIfSumsUp(splits, dim0, numel, n); }
    else if Right(splits, dim0, numel, n) { RightOnlyIf(splits, dim0, numel, n); }
  }

  /** `checkSplitSizes` asks for that sum where it is not negative and no more than an `int`. */
  lemma AcceptedMeansSum(splits: seq<int>, dim0: nat, n: nat)
    requires n > 0 && |splits| == n && 0 <= SumInt(splits) <= INT_MAX
    ensures Accepted(splits, dim0, n) <==> SumInt(splits) == dim0
  {
  }

  /** In general it asks for that sum in its low 32 bits, of a first dimension that an `int` holds. */
  lemma AcceptedExactly(splits: seq<int>, dim0: nat, n: nat)
    requires n > 0
    ensures splits != [] ==> (Accepted(splits, dim0, n) <==> |splits| == n && dim0 <= INT_MAX && (SumInt(splits) - dim0) % INT32 == 0)
    ensures splits == [] ==> (Accepted(splits, dim0, n) <==> dim0 % n == 0)
  {
    NarrowExactly(SumInt(splits), dim0);
  }

  lemma NarrowExactly(x: int, y: nat)
    ensures ToInt32(x) == y <==> y <= INT_MAX && (x - y) % INT32 == 0
  {
  }

  /** Even splits, once accepted, are always laid out rightly. */
  lemma EvenLayoutRight(dim0: nat, numel: nat, n: nat)
    requires n > 0 && IsShape(dim0, numel) && Accepted([], dim0, n)
    ensures Right([], dim0, numel, n)
  {
    var splits: seq<int> := seq(n, _ => dim0 / n);
    EvenSum(n, dim0 / n);
    assert n * (dim0 / n) == dim0;
    RightIfSumsUp(splits, dim0, numel, n);
    assert Lengths([], dim0, numel, n) == Lengths(splits, dim0, numel, n);
  }

  lemma {:induction false} EvenSum(n: nat, k: int)
    ensures SumInt(seq(n, _ => k)) == n * k
  {
    if n > 0 {
      EvenSum(n - 1, k);
      assert seq(n, _ => k)[..n - 1] == seq(n - 1, _ => k);
    }
  }

  /** A single split far too large passes both checks and is laid out as two elements of 4294967298. */
  lemma WrappedSplitIsAccepted()
    ensures var splits, dim0, numel := [0x5555_5555_5555_5556], 0x5555_5556, 3 * 0x5555_5556;
            && IsShape(dim0, numel) && Accepted(splits, dim0, 1)
            && InIntRange(Lengths(splits, dim0, numel, 1)) && Sum(Lengths(splits, dim0, numel, 1)) == 2
            && !Right(splits, dim0, numel, 1)
  {
  }
}

/** The exchange itself: what travels between the ranks. */
module Exchange {
  import opened Flat
  import A = AllToAll

  /** The piece of a buffer that a layout gives to one rank. */
  ghost function Piece<T>(data: seq<T>, lengths: seq<nat>, i: nat): (r: seq<T>)
    requires i < |lengths| && |data| == Sum(lengths)
    ensures |r| == lengths[i]
  {
    SumUpTo(lengths, i, |lengths|);
    assert lengths[..|lengths|] == lengths;
    data[Sum(lengths[..i])..Sum(lengths[..i]) + lengths[i]]
  }

  ghost function Join<T>(pieces: seq<seq<T>>): seq<T> {
    if pieces == [] then [] else Join(pieces[..|pieces| - 1]) + pieces[|pieces| - 1]
  }

  /** The pieces have the lengths of the layout. */
  ghost predicate Cut<T>(pieces: seq<seq<T>>, lengths: seq<nat>) {
    |pieces| == |lengths| && forall i :: 0 <= i < |pieces| ==> |pieces[i]| == lengths[i]
  }

  lemma {:induction false} JoinLength<T>(pieces: seq<seq<T>>, lengths: seq<nat>)
    requires Cut(pieces, lengths)
    ensures |Join(pieces)| == Sum(lengths)
  {
    if pieces != [] { JoinLength(pieces[..|pieces| - 1], lengths[..|pieces| - 1]); }
  }

  /** Writing pieces end to end and reading one back. */
  lemma {:induction false} PieceOfJoin<T>(pieces: seq<seq<T>>, lengths: seq<nat>, i: nat)
    requires Cut(pieces, lengths) && i < |pieces|
    ensures |Join(pieces)| == Sum(lengths) && Piece(Join(pieces), lengths, i) == pieces[i]
  {
    JoinLength(pieces, lengths);
    var n := |pieces| - 1;
    var front, short := pieces[..n], lengths[..n];
    JoinLength(front, short);
    if i < n {
      PieceOfJoin(front, short, i);
      assert short[..i] == lengths[..i];
      PieceOfPrefix(Join(front), pieces[n], lengths, i);
    }
  }

  lemma PieceOfPrefix<T>(a: seq<T>, b: seq<T>, lengths: seq<nat>, i: nat)
    requires lengths != [] && i < |lengths| - 1 && |a| == Sum(lengths[..|lengths| - 1]) && |a + b| == Sum(lengths)
    ensures Piece(a + b, lengths, i) == Piece(a, lengths[..|lengths| - 1], i)
  {
    hide Sum;
    var short := lengths[..|lengths| - 1];
    assert short[..i] == lengths[..i];
    SumUpTo(short, i, |short|);
    assert short[..|short|] == short;
    SliceOfPrefix(a, b, Sum(short[..i]), Sum(short[..i]) + short[i]);
  }

  lemma SliceOfPrefix<T>(a: seq<T>, b: seq<T>, lo: nat, hi: nat)
    requires lo <= hi <= |a|
    ensures (a + b)[lo..hi] == a[lo..hi]
  {
  }

  /** Cutting a buffer by a layout and joining the pieces gives it back: nothing is left out or doubled. */
  lemma {:induction false} JoinOfPieces<T>(data: seq<T>, lengths: seq<nat>, pieces: seq<seq<T>>)
    requires |data| == Sum(lengths) && |pieces| == |lengths|
    requires forall i :: 0 <= i < |lengths| ==> pieces[i] == Piece(data, lengths, i)
    ensures Join(pieces) == data
    decreases |lengths|
  {
    if lengths != [] {
      var n := |lengths| - 1;
      var short := lengths[..n];
      var a, b := data[..Sum(short)], data[Sum(short)..];
      assert data == a + b;
      forall i | 0 <= i < n ensures pieces[..n][i] == Piece(a, short, i) { PieceOfPrefix(a, b, lengths, i); }
      JoinOfPieces(a, short, pieces[..n]);
      assert pieces[n] == b;
    }
  }

  /** `lengths[r][s]` is how much rank `r` sends to rank `s`; every rank's splits fill its buffer. */
  ghost predicate Matched<T>(ins: seq<seq<T>>, lengths: seq<seq<nat>>) {
    && |ins| == |lengths|
    && forall r :: 0 <= r < |ins| ==> |lengths[r]| == |ins| && |ins[r]| == Sum(lengths[r])
  }

  /** What each rank expects to receive from each other. */
  ghost function Transposed(lengths: seq<seq<nat>>): (r: seq<seq<nat>>)
    requires forall r :: 0 <= r < |lengths| ==> |lengths[r]| == |lengths|
  {
    seq(|lengths|, r requires 0 <= r < |lengths| => seq(|lengths|, s requires 0 <= s < |lengths| => lengths[s][r]))
  }

  /** What rank `r` receives: the piece meant for it from every rank, in rank order. */
  ghost function Received<T>(ins: seq<seq<T>>, lengths: seq<seq<nat>>, r: nat): (pieces: seq<seq<T>>)
    requires Matched(ins, lengths) && r < |ins|
    ensures |pieces| == |ins| && forall s :: 0 <= s < |ins| ==> pieces[s] == Piece(ins[s], lengths[s], r)
  {
    seq(|ins|, s requires 0 <= s < |ins| => Piece(ins[s], lengths[s], r))
  }

  ghost function AllToAllV<T>(ins: seq<seq<T>>, lengths: seq<seq<nat>>): (outs: seq<seq<T>>)
    requires Matched(ins, lengths)
    ensures |outs| == |ins| && forall r :: 0 <= r < |ins| ==> outs[r] == Join(Received(ins, lengths, r))
  {
    seq(|ins|, r requires 0 <= r < |ins| => Join(Received(ins, lengths, r)))
  }

  /** Each rank finds in the place its receive layout sets aside for rank `s` exactly what `s` sent it. */
  lemma EachPieceArrives<T>(ins: seq<seq<T>>, lengths: seq<seq<nat>>, r: nat, s: nat)
    requires Matched(ins, lengths) && r < |ins| && s < |ins|
    ensures var out, layout := AllToAllV(ins, lengths)[r], Transposed(lengths)[r];
            |out| == Sum(layout) && Piece(out, layout, s) == Piece(ins[s], lengths[s], r)
  {
    hide Piece;
    PieceOfJoin(Received(ins, lengths, r), Transposed(lengths)[r], s);
  }

  /** Sending everything back by the transposed layout restores every rank's buffer: the exchange loses and
      duplicates nothing. */
  lemma ExchangeUndoesItself<T>(ins: seq<seq<T>>, lengths: seq<seq<nat>>)
    requires Matched(ins, lengths)
    ensures Matched(AllToAllV(ins, lengths), Transposed(lengths))
    ensures AllToAllV(AllToAllV(ins, lengths), Transposed(lengths)) == ins
  {
    hide Piece, Join;
    var outs, back := AllToAllV(ins, lengths), Transposed(lengths);
    forall r | 0 <= r < |ins| ensures |back[r]| == |outs| && |outs[r]| == Sum(back[r]) { EachPieceArrives(ins, lengths, r, 0); }
    forall r | 0 <= r < |ins| ensures Join(Received(outs, back, r)) == ins[r] {
      forall s | 0 <= s < |ins| ensures Received(outs, back, r)[s] == Piece(ins[r], lengths[r], s) { EachPieceArrives(ins, lengths, s, r); }
      JoinOfPieces(ins[r], lengths[r], Received(outs, back, r));
    }
  }

  // ---------------------------------------------------------------- the exchange by the computed layouts

  /** One side of one rank: the splits it was given and the shape of its tensor. */
  datatype Side = Side(splits: seq<int>, dim0: nat, numel: nat)

  ghost predicate SideRight(side: Side, n: nat) {
    n > 0 && (side.splits == [] || |side.splits| == n) && A.IsShape(side.dim0, side.numel) && A.Right(side.splits, side.dim0, side.numel, n)
  }

  ghost predicate AllRight(sides: seq<Side>) { forall i :: 0 <= i < |sides| ==> SideRight(sides[i], |sides|) }

  ghost function LengthsOf(side: Side, n: nat): (r: seq<nat>)
    requires n > 0 && (side.splits == [] || |side.splits| == n)
    ensures |r| == n
  {
    A.Lengths(side.splits, side.dim0, side.numel, n)
  }

  ghost function AllLengths(sides: seq<Side>): (r: seq<seq<nat>>)
    requires AllRight(sides)
    ensures |r| == |sides| && forall i :: 0 <= i < |sides| ==> SideRight(sides[i], |sides|) && r[i] == LengthsOf(sides[i], |sides|)
  {
    seq(|sides|, i requires 0 <= i < |sides| && SideRight(sides[i], |sides|) => LengthsOf(sides[i], |sides|))
  }

  /** What rank `r` means to send to rank `s` has as many rows as `s` expects from `r`, and rows are alike. */
  ghost predicate Agreed(sends: seq<Side>, recvs: seq<Side>)
    requires |sends| == |recvs| && AllRight(sends) && AllRight(recvs)
  {
    forall r, s :: 0 <= r < |sends| && 0 <= s < |sends| ==> AgreedAt(sends[s], recvs[r], |sends|, s, r)
  }

  ghost predicate AgreedAt(send: Side, recv: Side, n: nat, from: nat, to: nat)
    requires SideRight(send, n) && SideRight(recv, n) && from < n && to < n
  {
    && A.RowSize(send.dim0, send.numel) == A.RowSize(recv.dim0, recv.numel)
    && A.SplitAt(send.splits, send.dim0, n, to) == A.SplitAt(recv.splits, recv.dim0, n, from)
  }

  /** Splits that are laid out rightly fill the buffers they describe. */
  lemma RightSplitsMatch<T>(ins: seq<seq<T>>, sends: seq<Side>)
    requires |ins| == |sends| && AllRight(sends) && forall i :: 0 <= i < |sends| ==> |ins[i]| == sends[i].numel
    ensures Matched(ins, AllLengths(sends))
  {
  }

  /** Where senders and receivers agree, the receivers' layouts are the senders' transposed. */
  lemma ReceiversExpectWhatIsSent(sends: seq<Side>, recvs: seq<Side>)
    requires |sends| == |recvs| && AllRight(sends) && AllRight(recvs)
    requires Agreed(sends, recvs)
    ensures Transposed(AllLengths(sends)) == AllLengths(recvs)
  {
    hide A.IsShape;
    var n := |sends|;
    forall r, s | 0 <= r < n && 0 <= s < n ensures AllLengths(sends)[s][r] == AllLengths(recvs)[r][s] {
      assert AgreedAt(sends[s], recvs[r], n, s, r);
    }
    forall r | 0 <= r < n ensures Transposed(AllLengths(sends))[r] == AllLengths(recvs)[r] {}
  }

  /** Every rank finds in the place its own layout sets aside for a sender exactly the piece the sender's layout cut for
      it; and sent back the same way everything returns, so nothing is lost or duplicated. */
  ghost predicate Delivered<T(!new)>(ins: seq<seq<T>>, outs: seq<seq<T>>, send: seq<seq<nat>>, recv: seq<seq<nat>>) {
    && Matched(ins, send) && Matched(outs, recv) && |ins| == |outs| && AllToAllV(outs, recv) == ins
    && forall r, s :: 0 <= r < |ins| && 0 <= s < |ins| ==> Piece(outs[r], recv[r], s) == Piece(ins[s], send[s], r)
  }

  lemma ExchangeDelivers<T(!new)>(ins: seq<seq<T>>, lengths: seq<seq<nat>>)
    requires Matched(ins, lengths)
    ensures Delivered(ins, AllToAllV(ins, lengths), lengths, Transposed(lengths))
  {
    hide Piece, Join;
    ExchangeUndoesItself(ins, lengths);
    forall r, s | 0 <= r < |ins| && 0 <= s < |ins|
      ensures Piece(AllToAllV(ins, lengths)[r], Transposed(lengths)[r], s) == Piece(ins[s], lengths[s], r)
    {
      EachPieceArrives(ins, lengths, r, s);
    }
  }

  /** All-to-all by the layouts each rank computes for itself, where the splits are right and senders and receivers
      agree. */
  lemma ComputedExchangeDelivers<T(!new)>(ins: seq<seq<T>>, sends: seq<Side>, recvs: seq<Side>)
    requires |ins| == |sends| == |recvs| && AllRight(sends) && AllRight(recvs) && Agreed(sends, recvs)
    requires forall i :: 0 <= i < |sends| ==> |ins[i]| == sends[i].numel
    ensures Matched(ins, AllLengths(sends))
    ensures Delivered(ins, AllToAllV(ins, AllLengths(sends)), AllLengths(sends), AllLengths(recvs))
  {
    hide Agreed, Delivered, SideRight;
    RightSplitsMatch(ins, sends);
    ReceiversExpectWhatIsSent(sends, recvs);
    ExchangeDelivers(ins, AllLengths(sends));
  }
}
