/** Bytes on disk and on the wire.

    Little-endian lengths, length-prefixed chunks of data, and decimal integers as `std::to_string` and
    `std::stoll` have them. */
module Codec {
  import opened Basics

  type Byte = x: nat | x < 256
  type Bytes = seq<Byte>

  // ---------------------------------------------------------------- fixed-width little-endian

  ghost function Pow256(w: nat): nat { if w == 0 then 1 else 256 * Pow256(w - 1) }

  /** The memory image of an unsigned integer of `w` bytes. */
  function LE(n: nat, w: nat): (b: Bytes)
    ensures |b| == w
  {
    if w == 0 then [] else [n % 256] + LE(n / 256, w - 1)
  }

  function UnLE(b: Bytes): nat {
    if b == [] then 0 else b[0] + 256 * UnLE(b[1..])
  }

  /** Least significant byte first. */
  lemma LittleEndian()
    ensures LE(0x0102_0304, 4) == [4, 3, 2, 1] && UnLE([4, 3, 2, 1]) == 0x0102_0304
  {
    assert LE(0x0102_0304, 4) == [4] + LE(0x0102_03, 3) && LE(0x0102_03, 3) == [3] + LE(0x0102, 2);
    assert LE(0x0102, 2) == [2] + LE(1, 1) && LE(1, 1) == [1] + LE(0, 0);
    LERoundTrip(0x0102_0304, 4);
  }

  lemma {:induction false} LERoundTrip(n: nat, w: nat)
    requires n < Pow256(w)
    ensures UnLE(LE(n, w)) == n
  {
    if w > 0 {
      LERoundTrip(n / 256, w - 1);
      assert LE(n, w)[1..] == LE(n / 256, w - 1);
    }
  }

  // ---------------------------------------------------------------- length-prefixed chunks

  /** A `w`-byte length followed by the data. */
  function Chunk(data: Bytes, w: nat): Bytes { LE(|data|, w) + data }

  ghost predicate Fits(data: Bytes, w: nat) { |data| < Pow256(w) }

  /** A whole chunk is available at `pos`: reading it does not run into the end. */
  predicate Available(bytes: Bytes, pos: nat, w: nat) {
    pos + w <= |bytes| && pos + w + UnLE(bytes[pos..pos + w]) <= |bytes|
  }

  function ReadChunk(bytes: Bytes, pos: nat, w: nat): (r: (Bytes, nat))
    requires Available(bytes, pos, w)
    ensures pos <= r.1 <= |bytes| && (w > 0 ==> pos < r.1)
  {
    var len := UnLE(bytes[pos..pos + w]);
    (bytes[pos + w..pos + w + len], pos + w + len)
  }

  lemma Middle(a: Bytes, b: Bytes, c: Bytes)
    ensures (a + b + c)[|a|..|a| + |b|] == b
  {
  }

  /** Wherever a chunk was written, reading there gives back the data and stops right behind it. */
  lemma ChunkRoundTrip(before: Bytes, data: Bytes, after: Bytes, w: nat)
    requires Fits(data, w)
    ensures var bytes := before + Chunk(data, w) + after;
            Available(bytes, |before|, w) && ReadChunk(bytes, |before|, w) == (data, |before| + |Chunk(data, w)|)
  {
    hide LE, UnLE, Pow256;
    var bytes, len := before + Chunk(data, w) + after, LE(|data|, w);
    assert bytes == before + len + (data + after) && bytes == (before + len) + data + after;
    Middle(before, len, data + after);
    LERoundTrip(|data|, w);
    Middle(before + len, data, after);
  }

  // ---------------------------------------------------------------- decimal integers

  predicate IsDigit(c: Byte) { 48 <= c <= 57 }
  predicate IsSpace(c: Byte) { c == 32 || 9 <= c <= 13 }

  function Digits(n: nat): (d: Bytes)
    ensures d != [] && forall i :: 0 <= i < |d| ==> IsDigit(d[i])
  {
    if n < 10 then [48 + n] else Digits(n / 10) + [48 + n % 10]
  }

  /** `std::to_string`. */
  function ToString(x: int): (s: Bytes)
    ensures s != []
  {
    if x < 0 then [45] + Digits(-x) else Digits(x)
  }

  function DigitPrefix(s: Bytes): (p: nat)
    ensures p <= |s|
  {
    if s == [] || !IsDigit(s[0]) then 0 else 1 + DigitPrefix(s[1..])
  }

  function ValueOf(d: Bytes): nat
    requires forall i :: 0 <= i < |d| ==> IsDigit(d[i])
  {
    if d == [] then 0
    else
      assert IsDigit(d[|d| - 1]);
      10 * ValueOf(d[..|d| - 1]) + d[|d| - 1] - 48
  }

  lemma {:induction false} PrefixAllDigits(s: Bytes, i: nat)
    requires i < DigitPrefix(s)
    ensures IsDigit(s[i])
  {
    if i > 0 { PrefixAllDigits(s[1..], i - 1); }
  }

  /** `std::stoll`: skip white space, an optional sign, then the longest run of digits; `None` where it
      throws, for want of a digit or of range. */
  function Stoll(s: Bytes): Option<int> {
    if s != [] && IsSpace(s[0]) then Stoll(s[1..])
    else if s != [] && (s[0] == 45 || s[0] == 43) then Signed(s[1..], s[0] == 45)
    else Signed(s, false)
  }

  function Signed(s: Bytes, negative: bool): Option<int> {
    var p := DigitPrefix(s);
    if p == 0 then None
    else
      assert forall i :: 0 <= i < p ==> IsDigit(s[i]) by { forall i | 0 <= i < p ensures IsDigit(s[i]) { PrefixAllDigits(s, i); } }
      var magnitude: int := ValueOf(s[..p]);
      var v := if negative then -magnitude else magnitude;
      if INT64_MIN <= v <= INT64_MAX then Some(v) else None
  }

  lemma {:induction false} PrefixOfDigits(d: Bytes)
    requires forall i :: 0 <= i < |d| ==> IsDigit(d[i])
    ensures DigitPrefix(d) == |d|
  {
    if d != [] { PrefixOfDigits(d[1..]); }
  }

  lemma {:induction false} ValueOfDigits(n: nat)
    ensures ValueOf(Digits(n)) == n
  {
    if n < 10 {
      assert Digits(n)[..0] == [];
    } else {
      ValueOfDigits(n / 10);
      assert Digits(n)[..|Digits(n)| - 1] == Digits(n / 10);
    }
  }

  /** Decimal digits, most significant first, after an optional minus; the shortest such text. */
  lemma {:induction false} DigitsMeaning(n: nat)
    ensures ValueOf(Digits(n)) == n && (n > 0 ==> Digits(n)[0] != 48) && (n == 0 ==> Digits(n) == [48])
  {
    ValueOfDigits(n);
    if n >= 10 { DigitsMeaning(n / 10); }
  }

  /** "-120" */
  lemma PrintedExample()
    ensures ToString(-120) == [45, 49, 50, 48]
  {
    assert Digits(120) == Digits(12) + [48] && Digits(12) == Digits(1) + [50];
  }

  /** " +7x" reads as 7, and "-12" as -12. */
  lemma ParsedExamples()
    ensures Stoll([32, 43, 55, 120]) == Some(7) && Stoll([45, 49, 50]) == Some(-12)
  {
    OneDigit(7, [120]);
    assert [32, 43, 55, 120][1..] == [43, 55, 120] && [43, 55, 120][1..] == [55] + [120];
    var d := [49, 50];
    PrefixOfDigits(d);
    assert d[..1] == [49] && d[..2] == d && ValueOf(d) == 10 * ValueOf([49]) + 2;
    assert [45, 49, 50][1..] == d;
  }

  lemma OneDigit(n: nat, rest: Bytes)
    requires n < 10 && DigitPrefix(rest) == 0
    ensures Signed([48 + n] + rest, false) == Some(n)
  {
    var s: Bytes := [48 + n] + rest;
    assert s[1..] == rest && DigitPrefix(s) == 1;
    var d: Bytes := [48 + n];
    assert s[..1] == d && d[..0] == [] && ValueOf(d) == n;
  }

  /** Without a digit where the number should begin nothing is read. */
  lemma NoDigitNoNumber(s: Bytes)
    requires s == [] || !(IsSpace(s[0]) || IsDigit(s[0]) || s[0] == 45 || s[0] == 43)
    ensures Stoll(s).None? && Stoll([45] + s).None?
  {
    assert ([45] + s)[1..] == s;
  }

  /** Printing and parsing an `int64_t` is the identity. */
  lemma DecimalRoundTrip(x: int)
    requires INT64_MIN <= x <= INT64_MAX
    ensures Stoll(ToString(x)) == Some(x)
  {
    hide Digits, ValueOf, DigitPrefix;
    var d := Digits(if x < 0 then -x else x);
    ValueOfDigits(if x < 0 then -x else x);
    PrefixOfDigits(d);
    assert d[..|d|] == d;
    if x < 0 {
      assert ToString(x)[1..] == d;
    }
  }
}
