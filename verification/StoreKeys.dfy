/** Keys in a shared store: the prefix store, and the keys of the store-based barrier.

    A prefix and a slash before every key keep groups apart, as long as one prefix does not begin another. */
module StoreKeys {
  import opened Codec

  const SLASH: Byte := 47
  const COLON: Byte := 58

  /** "store_based_barrier_key" */
  const BARRIER_PREFIX: Bytes :=
    [115, 116, 111, 114, 101, 95, 98, 97, 115, 101, 100, 95, 98, 97, 114, 114, 105, 101, 114, 95, 107, 101, 121]

  function JoinKey(prefix: Bytes, key: Bytes): Bytes { prefix + [SLASH] + key }

  /** `joinKeys`. */
  method JoinKeys(prefix: Bytes, keys: seq<Bytes>) returns (joined: seq<Bytes>)
    ensures |joined| == |keys| && forall i :: 0 <= i < |keys| ==> joined[i] == prefix + [SLASH] + keys[i]
  {
    joined := [];
    for i := 0 to |keys|
      invariant |joined| == i && forall j :: 0 <= j < i ==> joined[j] == JoinKey(prefix, keys[j])
    {
      joined := joined + [JoinKey(prefix, keys[i])];
    }
  }

  function BarrierKey(count: nat): Bytes { BARRIER_PREFIX + [COLON] + Digits(count) }

  ghost predicate SlashFree(s: Bytes) { forall i :: 0 <= i < |s| ==> s[i] != SLASH }

  /** Two prefixes can produce the same key exactly if one of them, closed with a slash, begins the other. */
  lemma PrefixesCollideIff(p: Bytes, q: Bytes)
    ensures (exists k, m :: JoinKey(p, k) == JoinKey(q, m)) <==> (p + [SLASH] <= q + [SLASH] || q + [SLASH] <= p + [SLASH])
  {
    var ps, qs := p + [SLASH], q + [SLASH];
    if ps <= qs {
      assert JoinKey(p, qs[|ps|..]) == JoinKey(q, []);
    } else if qs <= ps {
      assert JoinKey(q, ps[|qs|..]) == JoinKey(p, []);
    } else {
      forall k, m ensures JoinKey(p, k) != JoinKey(q, m) { LongerBegins(ps, k, qs, m); }
    }
  }

  lemma LongerBegins(a: Bytes, k: Bytes, b: Bytes, m: Bytes)
    ensures a + k == b + m ==> a <= b || b <= a
  {
    if a + k == b + m {
      if |a| <= |b| { assert (b + m)[..|a|] == a && (b + m)[..|a|] == b[..|a|]; }
      else { assert (a + k)[..|b|] == b && (a + k)[..|b|] == a[..|b|]; }
    }
  }

  /** Without slashes in the prefixes the joined key gives back both parts. */
  lemma JoinIsInjective(p: Bytes, k: Bytes, q: Bytes, m: Bytes)
    requires SlashFree(p) && SlashFree(q) && JoinKey(p, k) == JoinKey(q, m)
    ensures p == q && k == m
  {
    var j := JoinKey(p, k);
    assert j[|p|] == SLASH && j[|q|] == SLASH;
    assert forall i :: 0 <= i < |p| ==> j[i] == p[i];
    assert forall i :: 0 <= i < |q| ==> j[i] == q[i];
    assert |p| == |q|;
    assert j[..|p|] == p && j[..|q|] == q;
    assert j[|p| + 1..] == k && j[|q| + 1..] == m;
  }

  /** The keys of the barrier meet no key of any group's prefix store, and differ from one another. */
  lemma BarrierKeysApart(count: nat, prefix: Bytes, key: Bytes)
    ensures BarrierKey(count) != JoinKey(prefix, key)
  {
    assert SlashFree(BarrierKey(count));
    assert JoinKey(prefix, key)[|prefix|] == SLASH;
  }

  lemma BarrierKeyInjective(a: nat, b: nat)
    ensures BarrierKey(a) == BarrierKey(b) ==> a == b
  {
    ValueOfDigits(a);
    ValueOfDigits(b);
    assert BarrierKey(a)[|BARRIER_PREFIX| + 1..] == Digits(a);
    assert BarrierKey(b)[|BARRIER_PREFIX| + 1..] == Digits(b);
  }

  /** Default group names are numbers, so their prefix stores never meet. */
  lemma GroupNamesApart(a: nat, k: Bytes, b: nat, m: Bytes)
    requires JoinKey(Digits(a), k) == JoinKey(Digits(b), m)
    ensures a == b && k == m
  {
    assert SlashFree(Digits(a)) && SlashFree(Digits(b));
    JoinIsInjective(Digits(a), k, Digits(b), m);
    ValueOfDigits(a);
    ValueOfDigits(b);
  }
}
