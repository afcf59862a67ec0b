/** Queries as the client sends them and as the daemon reads them off the stream.

    A query is a code, then what the code calls for: lengths before keys and values, the number of keys before
    a list of them. The daemon asks for exactly as many bytes as it needs, so a reader is never ahead. */
module TCPWire {
  import opened Basics
  import opened Codec
  import opened TCPStoreSpec

  const SIZE_BYTES := 8      // SizeType is uint64_t

  /** The memory image of an `int64_t`, and back. */
  function Unsigned(x: int): nat
    requires INT64_MIN <= x <= INT64_MAX
  {
    if x < 0 then x + SIZE_T else x
  }

  function AsSigned(n: nat): int { if n > INT64_MAX then n - SIZE_T else n }

  function EncodeKeys(keys: seq<Bytes>): Bytes {
    if keys == [] then [] else Chunk(keys[0], SIZE_BYTES) + EncodeKeys(keys[1..])
  }

  predicate Sendable(q: Query) { !q.Broken? && (q.Add? ==> INT64_MIN <= q.delta <= INT64_MAX) }

  function Code(q: Query): Byte {
    match q
    case Set(_, _) => 0
    case Get(_) => 1
    case Add(_, _) => 2
    case Check(_) => 3
    case Wait(_) => 4
    case GetNumKeys => 5
    case Delete(_) => 6
    case Broken => 7
  }

  function EncodeList(keys: seq<Bytes>): Bytes { LE(|keys|, SIZE_BYTES) + EncodeKeys(keys) }

  function EncodeBody(q: Query): Bytes
    requires Sendable(q)
  {
    match q
    case Set(key, value) => Chunk(key, SIZE_BYTES) + Chunk(value, SIZE_BYTES)
    case Add(key, delta) => Chunk(key, SIZE_BYTES) + LE(Unsigned(delta), SIZE_BYTES)
    case Check(keys) => EncodeList(keys)
    case Wait(keys) => EncodeList(keys)
    case Get(key) => Chunk(key, SIZE_BYTES)
    case Delete(key) => Chunk(key, SIZE_BYTES)
    case GetNumKeys => []
  }

  /** What the client writes. */
  function Encode(q: Query): Bytes
    requires Sendable(q)
  {
    [Code(q)] + EncodeBody(q)
  }

  /** Everything fits the lengths it is announced with. */
  ghost predicate Announced(q: Query) {
    match q
    case Set(key, value) => Fits(key, SIZE_BYTES) && Fits(value, SIZE_BYTES)
    case Check(keys) => |keys| < Pow256(SIZE_BYTES) && forall i :: 0 <= i < |keys| ==> Fits(keys[i], SIZE_BYTES)
    case Wait(keys) => |keys| < Pow256(SIZE_BYTES) && forall i :: 0 <= i < |keys| ==> Fits(keys[i], SIZE_BYTES)
    case Get(key) => Fits(key, SIZE_BYTES)
    case Add(key, _) => Fits(key, SIZE_BYTES)
    case Delete(key) => Fits(key, SIZE_BYTES)
    case _ => true
  }

  // ---------------------------------------------------------------- the reader

  /** A value read off the front of the stream and what is left; `None` while bytes are missing. */
  datatype Read<T> = Short | Got(value: T, rest: Bytes)

  function ReadString(b: Bytes): Read<Bytes> {
    if Available(b, 0, SIZE_BYTES) then var r := ReadChunk(b, 0, SIZE_BYTES); Got(r.0, b[r.1..]) else Short
  }

  function ReadSize(b: Bytes): Read<nat> {
    if |b| < SIZE_BYTES then Short else Got(UnLE(b[..SIZE_BYTES]), b[SIZE_BYTES..])
  }

  function ReadKeys(b: Bytes, n: nat): Read<seq<Bytes>> {
    if n == 0 then Got([], b)
    else
      match ReadString(b)
      case Short => Short
      case Got(key, rest) =>
        match ReadKeys(rest, n - 1)
        case Short => Short
        case Got(keys, rest') => Got([key] + keys, rest')
  }

  function ReadKeyList(b: Bytes): Read<seq<Bytes>> {
    match ReadSize(b)
    case Short => Short
    case Got(n, rest) => ReadKeys(rest, n)
  }

  function ReadSet(b: Bytes): Read<Query> {
    match ReadString(b)
    case Short => Short
    case Got(key, rest) =>
      match ReadString(rest)
      case Short => Short
      case Got(value, rest') => Got(Set(key, value), rest')
  }

  function ReadAdd(b: Bytes): Read<Query> {
    match ReadString(b)
    case Short => Short
    case Got(key, rest) =>
      match ReadSize(rest)
      case Short => Short
      case Got(n, rest') => Got(Add(key, AsSigned(n)), rest')
  }

  function ReadBody(code: Byte, b: Bytes): Read<Query> {
    match code
    case 0 => ReadSet(b)
    case 1 => (match ReadString(b) case Short => Short case Got(key, rest) => Got(Get(key), rest))
    case 2 => ReadAdd(b)
    case 3 => (match ReadKeyList(b) case Short => Short case Got(keys, rest) => Got(Check(keys), rest))
    case 4 => (match ReadKeyList(b) case Short => Short case Got(keys, rest) => Got(Wait(keys), rest))
    case 5 => Got(GetNumKeys, b)
    case 6 => (match ReadString(b) case Short => Short case Got(key, rest) => Got(Delete(key), rest))
    case _ => Got(Broken, b)
  }

  function ReadQuery(b: Bytes): Read<Query> { if b == [] then Short else ReadBody(b[0], b[1..]) }

  /** The protocol as declared: a code of one byte, then lengths of eight bytes before keys and values. */
  lemma WireFormat(key: Bytes, value: Bytes, delta: int)
    requires INT64_MIN <= delta <= INT64_MAX
    ensures Encode(Set(key, value)) == [0] + (LE(|key|, 8) + key + (LE(|value|, 8) + value))
    ensures Encode(Get(key)) == [1] + (LE(|key|, 8) + key)
    ensures Encode(Add(key, delta)) == [2] + (LE(|key|, 8) + key + LE(if delta < 0 then delta + SIZE_T else delta, 8))
    ensures Encode(GetNumKeys) == [5]
    ensures Encode(Delete(key)) == [6] + (LE(|key|, 8) + key)
  {
    hide LE;
  }

  /** And the number of keys before a list of them. */
  lemma WireLists(a: Bytes, b: Bytes)
    ensures Encode(Check([a])) == [3] + (LE(1, 8) + (LE(|a|, 8) + a))
    ensures Encode(Wait([a, b])) == [4] + (LE(2, 8) + (LE(|a|, 8) + a + (LE(|b|, 8) + b)))
  {
    hide LE;
    assert [a][1..] == [] && [a, b][1..] == [b] && [b][1..] == [];
    assert EncodeKeys([a]) == Chunk(a, SIZE_BYTES) + EncodeKeys([]);
    assert EncodeKeys([a, b]) == Chunk(a, SIZE_BYTES) + (Chunk(b, SIZE_BYTES) + EncodeKeys([]));
    assert Chunk(a, SIZE_BYTES) + [] == Chunk(a, SIZE_BYTES) && Chunk(b, SIZE_BYTES) + [] == Chunk(b, SIZE_BYTES);
  }

  // ---------------------------------------------------------------- round trips

  lemma StringRoundTrip(data: Bytes, rest: Bytes)
    requires Fits(data, SIZE_BYTES)
    ensures ReadString(Chunk(data, SIZE_BYTES) + rest) == Got(data, rest)
  {
    hide Available, ReadChunk, Fits, Chunk;
    var chunk := Chunk(data, SIZE_BYTES);
    ChunkRoundTrip([], data, rest, SIZE_BYTES);
    assert [] + chunk + rest == chunk + rest;
    assert (chunk + rest)[|chunk|..] == rest;
  }

  lemma SizeRoundTrip(n: nat, rest: Bytes)
    requires n < Pow256(SIZE_BYTES)
    ensures ReadSize(LE(n, SIZE_BYTES) + rest) == Got(n, rest)
  {
    LERoundTrip(n, SIZE_BYTES);
    assert (LE(n, SIZE_BYTES) + rest)[..SIZE_BYTES] == LE(n, SIZE_BYTES);
  }

  lemma {:induction false} KeysRoundTrip(keys: seq<Bytes>, rest: Bytes)
    requires forall i :: 0 <= i < |keys| ==> Fits(keys[i], SIZE_BYTES)
    ensures ReadKeys(EncodeKeys(keys) + rest, |keys|) == Got(keys, rest)
  {
    hide ReadString, Chunk, Fits;
    if keys == [] {
      assert EncodeKeys(keys) + rest == rest;
    } else {
      var more := EncodeKeys(keys[1..]) + rest;
      assert EncodeKeys(keys) + rest == Chunk(keys[0], SIZE_BYTES) + more;
      StringRoundTrip(keys[0], more);
      KeysRoundTrip(keys[1..], rest);
      assert keys == [keys[0]] + keys[1..];
    }
  }

  lemma KeyListRoundTrip(keys: seq<Bytes>, rest: Bytes)
    requires |keys| < Pow256(SIZE_BYTES) && forall i :: 0 <= i < |keys| ==> Fits(keys[i], SIZE_BYTES)
    ensures ReadKeyList(EncodeList(keys) + rest) == Got(keys, rest)
  {
    hide Fits, ReadSize, ReadKeys, LE, EncodeKeys;
    var b := EncodeKeys(keys) + rest;
    assert LE(|keys|, SIZE_BYTES) + EncodeKeys(keys) + rest == LE(|keys|, SIZE_BYTES) + b;
    SizeRoundTrip(|keys|, b);
    KeysRoundTrip(keys, rest);
  }

  lemma Width()
    ensures Pow256(SIZE_BYTES) == SIZE_T
  {
  }

  lemma SetRoundTrip(key: Bytes, value: Bytes, rest: Bytes)
    requires Fits(key, SIZE_BYTES) && Fits(value, SIZE_BYTES)
    ensures ReadSet(Chunk(key, SIZE_BYTES) + Chunk(value, SIZE_BYTES) + rest) == Got(Set(key, value), rest)
  {
    hide ReadString, Chunk, Fits;
    var more := Chunk(value, SIZE_BYTES) + rest;
    assert Chunk(key, SIZE_BYTES) + Chunk(value, SIZE_BYTES) + rest == Chunk(key, SIZE_BYTES) + more;
    StringRoundTrip(key, more);
    StringRoundTrip(value, rest);
  }

  lemma AddRoundTrip(key: Bytes, delta: int, rest: Bytes)
    requires Fits(key, SIZE_BYTES) && INT64_MIN <= delta <= INT64_MAX
    ensures ReadAdd(Chunk(key, SIZE_BYTES) + LE(Unsigned(delta), SIZE_BYTES) + rest) == Got(Add(key, delta), rest)
  {
    hide ReadString, ReadSize, Chunk, Fits, LE;
    var more := LE(Unsigned(delta), SIZE_BYTES) + rest;
    assert Chunk(key, SIZE_BYTES) + LE(Unsigned(delta), SIZE_BYTES) + rest == Chunk(key, SIZE_BYTES) + more;
    StringRoundTrip(key, more);
    Width();
    SizeRoundTrip(Unsigned(delta), rest);
  }

  lemma BodyRoundTrip(q: Query, rest: Bytes)
    requires Sendable(q) && Announced(q)
    ensures ReadBody(Code(q), EncodeBody(q) + rest) == Got(q, rest)
  {
    hide ReadString, ReadSize, ReadKeyList, ReadSet, ReadAdd, Chunk, EncodeList, LE, Fits, Unsigned, Pow256;
    match q
    case Set(key, value) => SetRoundTrip(key, value, rest);
    case Add(key, delta) => AddRoundTrip(key, delta, rest);
    case Check(keys) => KeyListRoundTrip(keys, rest);
    case Wait(keys) => KeyListRoundTrip(keys, rest);
    case Get(key) => StringRoundTrip(key, rest);
    case Delete(key) => StringRoundTrip(key, rest);
    case GetNumKeys => assert [] + rest == rest;
  }

  /** Reading a query where one was written gives it back and stops right behind it. */
  lemma QueryRoundTrip(q: Query, rest: Bytes)
    requires Sendable(q) && Announced(q)
    ensures ReadQuery(Encode(q) + rest) == Got(q, rest)
  {
    hide ReadBody, EncodeBody, Announced, Code;
    BodyRoundTrip(q, rest);
    assert (Encode(q) + rest)[1..] == EncodeBody(q) + rest;
  }

  function EncodeStream(qs: seq<Query>): Bytes
    requires forall i :: 0 <= i < |qs| ==> Sendable(qs[i])
  {
    if qs == [] then [] else Encode(qs[0]) + EncodeStream(qs[1..])
  }

  /** The first `n` queries of a stream. */
  function ReadStream(b: Bytes, n: nat): Read<seq<Query>>
    decreases n
  {
    if n == 0 then Got([], b)
    else
      match ReadQuery(b)
      case Short => Short
      case Got(q, rest) =>
        match ReadStream(rest, n - 1)
        case Short => Short
        case Got(qs, rest') => Got([q] + qs, rest')
  }

  /** The daemon sees exactly the queries a client sent, in order: it never loses the frame. */
  lemma {:induction false} StreamRoundTrip(qs: seq<Query>, rest: Bytes)
    requires forall i :: 0 <= i < |qs| ==> Sendable(qs[i]) && Announced(qs[i])
    ensures ReadStream(EncodeStream(qs) + rest, |qs|) == Got(qs, rest)
  {
    hide ReadQuery, Encode, Sendable, Announced;
    if qs == [] {
      assert EncodeStream(qs) + rest == rest;
    } else {
      var more := EncodeStream(qs[1..]) + rest;
      assert EncodeStream(qs) + rest == Encode(qs[0]) + more;
      QueryRoundTrip(qs[0], more);
      StreamRoundTrip(qs[1..], rest);
      assert qs == [qs[0]] + qs[1..];
    }
  }
}
