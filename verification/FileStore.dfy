/** The file behind a file store: a log of key/value records, and what replaying it means. */
module FileLog {
  import opened Basics
  import opened Codec

  datatype Record = Record(key: Bytes, value: Bytes)

  const LEN_BYTES := 4     // uint32_t lengths

  ghost predicate Writable(r: Record) { Fits(r.key, LEN_BYTES) && Fits(r.value, LEN_BYTES) }

  function Encode(r: Record): Bytes { Chunk(r.key, LEN_BYTES) + Chunk(r.value, LEN_BYTES) }

  ghost function EncodeAll(log: seq<Record>): Bytes {
    if log == [] then [] else EncodeAll(log[..|log| - 1]) + Encode(log[|log| - 1])
  }

  lemma EncodeAllNext(log: seq<Record>, r: Record)
    ensures EncodeAll(log + [r]) == EncodeAll(log) + Encode(r)
  {
    assert (log + [r])[..|log|] == log;
  }

  lemma {:induction false} EncodeAllSplit(log: seq<Record>, i: nat)
    requires i <= |log|
    ensures EncodeAll(log) == EncodeAll(log[..i]) + EncodeAll(log[i..])
  {
    hide Encode;
    if i == |log| {
      assert log[..i] == log && log[i..] == [];
    } else {
      var front, last := log[..|log| - 1], Encode(log[|log| - 1]);
      EncodeAllSplit(front, i);
      assert front[..i] == log[..i];
      var tail := log[i..];
      assert front[i..] == log[i..|log| - 1];
      assert tail[..|tail| - 1] == log[i..|log| - 1];
      assert EncodeAll(tail) == EncodeAll(front[i..]) + last;
      assert EncodeAll(log) == (EncodeAll(log[..i]) + EncodeAll(front[i..])) + last;
    }
  }

  /** The map a log stands for: later records win. */
  ghost function Replay(log: seq<Record>): map<Bytes, Bytes> {
    if log == [] then map[] else Replay(log[..|log| - 1])[log[|log| - 1].key := log[|log| - 1].value]
  }

  ghost predicate Written(log: seq<Record>, key: Bytes) { exists r :: r in log && r.key == key }

  lemma {:induction false} ReplayDomain(log: seq<Record>, key: Bytes)
    ensures key in Replay(log) <==> Written(log, key)
  {
    if log != [] {
      var front, last := log[..|log| - 1], log[|log| - 1];
      ReplayDomain(front, key);
      if Written(log, key) && last.key != key {
        var r :| r in log && r.key == key;
        assert r in front;
      }
      if last.key == key { assert last in log; }
    }
  }

  ghost predicate SameAt(c: map<Bytes, Bytes>, d: map<Bytes, Bytes>, key: Bytes) {
    (key in c <==> key in d) && (key in c && key in d ==> c[key] == d[key])
  }

  /** A cache that has read the first `i` records: it agrees with their replay at every key that the
      unread records do not write. At keys they do write it may hold anything. */
  ghost predicate Coherent(cache: map<Bytes, Bytes>, log: seq<Record>, i: nat) {
    i <= |log| && forall key :: !Written(log[i..], key) ==> SameAt(cache, Replay(log[..i]), key)
  }

  /** Having read everything, the cache is the replay of the whole log. */
  lemma CoherentAtEnd(cache: map<Bytes, Bytes>, log: seq<Record>)
    requires Coherent(cache, log, |log|)
    ensures cache == Replay(log)
  {
    assert log[..|log|] == log && log[|log|..] == [];
    forall key ensures SameAt(cache, Replay(log), key) { assert !Written(log[|log|..], key); }
    assert cache.Keys == Replay(log).Keys by {
      forall key ensures key in cache.Keys <==> key in Replay(log).Keys { assert SameAt(cache, Replay(log), key); }
    }
    forall key | key in cache ensures cache[key] == Replay(log)[key] { assert SameAt(cache, Replay(log), key); }
  }

  /** Reading one more record keeps the cache coherent, whatever it held at that key. */
  lemma CoherentRead(cache: map<Bytes, Bytes>, log: seq<Record>, i: nat)
    requires Coherent(cache, log, i) && i < |log|
    ensures Coherent(cache[log[i].key := log[i].value], log, i + 1)
  {
    var cache' := cache[log[i].key := log[i].value];
    assert log[..i + 1][..i] == log[..i];
    assert log[i..] == [log[i]] + log[i + 1..];
    var unread := log[i + 1..];
    forall key | !Written(unread, key) ensures SameAt(cache', Replay(log[..i + 1]), key) {
      if key != log[i].key {
        assert !Written(log[i..], key);
        assert SameAt(cache, Replay(log[..i]), key);
      }
    }
  }

  /** Somebody else appending a record leaves it coherent; so does planting anything at the key of a
      record just appended. */
  lemma CoherentAppend(cache: map<Bytes, Bytes>, cache': map<Bytes, Bytes>, log: seq<Record>, i: nat, r: Record)
    requires Coherent(cache, log, i)
    requires forall key :: key != r.key ==> SameAt(cache', cache, key)
    ensures Coherent(cache', log + [r], i)
  {
    var log' := log + [r];
    assert log'[..i] == log[..i] && log'[i..] == log[i..] + [r];
    forall key | !Written(log'[i..], key) ensures SameAt(cache', Replay(log'[..i]), key) {
      assert r in log'[i..];
      assert forall x :: x in log[i..] ==> x in log'[i..];
      assert !Written(log[i..], key);
      assert SameAt(cache, Replay(log[..i]), key) && SameAt(cache', cache, key);
    }
  }

  /** At a record boundary the two chunks of the next record are there to be read. */
  ghost predicate RecordAt(bytes: Bytes, pos: nat, r: Record, end: nat) {
    && Available(bytes, pos, LEN_BYTES)
    && ReadChunk(bytes, pos, LEN_BYTES).0 == r.key
    && var mid := ReadChunk(bytes, pos, LEN_BYTES).1;
    && Available(bytes, mid, LEN_BYTES)
    && ReadChunk(bytes, mid, LEN_BYTES) == (r.value, end)
  }

  lemma RecordRoundTrip(before: Bytes, r: Record, after: Bytes)
    requires Writable(r)
    ensures RecordAt(before + Encode(r) + after, |before|, r, |before| + |Encode(r)|)
  {
    hide Chunk, Available, ReadChunk;
    var k, v := Chunk(r.key, LEN_BYTES), Chunk(r.value, LEN_BYTES);
    assert before + Encode(r) + after == before + k + (v + after);
    ChunkRoundTrip(before, r.key, v + after, LEN_BYTES);
    assert before + Encode(r) + after == (before + k) + v + after;
    ChunkRoundTrip(before + k, r.value, after, LEN_BYTES);
  }

  lemma NextRecord(log: seq<Record>, i: nat)
    requires i < |log| && Writable(log[i])
    ensures RecordAt(EncodeAll(log), |EncodeAll(log[..i])|, log[i], |EncodeAll(log[..i + 1])|)
    ensures |EncodeAll(log[..i])| < |EncodeAll(log[..i + 1])| <= |EncodeAll(log)|
  {
    hide RecordAt;
    EncodeAllSplit(log, i + 1);
    assert log[..i + 1][..i] == log[..i];
    RecordRoundTrip(EncodeAll(log[..i]), log[i], EncodeAll(log[i + 1..]));
  }
}

/** What a file store process remembers, and what its operations do to it and to the log, on values. */
module FileSteps {
  import opened Basics
  import opened Codec
  import opened FileLog

  /** How many records were read, where reading stopped, and what was kept. */
  datatype Process = Process(seen: nat, pos: nat, cache: map<Bytes, Bytes>)

  ghost function Refreshed(log: seq<Record>): Process { Process(|log|, |EncodeAll(log)|, Replay(log)) }

  /** What `add` makes of the present value of a key: nothing stored, or nothing in it, counts as 0. */
  function Current(value: Bytes): Option<int> { if value == [] then Some(0) else Stoll(value) }

  ghost function ValueAt(log: seq<Record>, key: Bytes): Bytes { if key in Replay(log) then Replay(log)[key] else [] }

  /** What an add returns; `None` where the stored value is not a number. */
  ghost function Added(log: seq<Record>, key: Bytes, delta: int): Option<int> {
    var current := Current(ValueAt(log, key));
    if current.Some? then Some(Wrap64(delta + current.value)) else None
  }

  ghost function LogAfterAdd(log: seq<Record>, key: Bytes, delta: int): seq<Record> {
    var sum := Added(log, key, delta);
    if sum.Some? then log + [Record(key, ToString(sum.value))] else log
  }

  /** An add leaves the value from before it in the cache, or an empty one. */
  ghost function AfterAdd(log: seq<Record>, key: Bytes, delta: int): Process {
    var p := Refreshed(log);
    if Added(log, key, delta).Some? then p.(cache := p.cache[key := ValueAt(log, key)]) else p
  }
}

/** The file store objects. Every method below holds the file lock throughout. */
module FileStoreObject {
  import opened Basics
  import opened Codec
  import opened FileLog
  import opened FileSteps

  const REGULAR_PREFIX: Bytes := [47]                                   // "/"
  const CLEANUP_KEY: Bytes := [99, 108, 101, 97, 110, 117, 112, 47]     // "cleanup/"

  function Regular(key: Bytes): Bytes { REGULAR_PREFIX + key }

  class SharedFile {
    var bytes: Bytes
    ghost var log: seq<Record>

    ghost predicate Valid()
      reads this
    {
      bytes == EncodeAll(log) && forall i :: 0 <= i < |log| ==> Writable(log[i])
    }

    constructor ()
      ensures Valid() && log == []
    {
      bytes, log := [], [];
    }

    /** Seek to the end and write a key and a value. */
    method Append(key: Bytes, value: Bytes)
      requires Valid() && Writable(Record(key, value))
      modifies this
      ensures Valid() && log == old(log) + [Record(key, value)]
    {
      hide Chunk, EncodeAll, Writable;
      bytes := bytes + Chunk(key, LEN_BYTES);
      bytes := bytes + Chunk(value, LEN_BYTES);
      EncodeAllNext(log, Record(key, value));
      log := log + [Record(key, value)];
    }
  }

  class FileStore {
    const file: SharedFile
    const numWorkers: int
    var pos: nat
    var cache: map<Bytes, Bytes>
    ghost var seen: nat          // how many records this process has read

    ghost function State(): Process
      reads this
    {
      Process(seen, pos, cache)
    }

    /** `pos` is a record boundary, and the cache is coherent with the records before it. */
    ghost predicate Valid()
      reads this, file
    {
      file.Valid() && seen <= |file.log| && pos == |EncodeAll(file.log[..seen])| && Coherent(cache, file.log, seen)
    }

    constructor (file: SharedFile, numWorkers: int)
      requires file.Valid() && numWorkers >= 1
      ensures Valid() && this.file == file && this.numWorkers == numWorkers && cache == map[] && pos == 0
    {
      this.file, this.numWorkers := file, numWorkers;
      pos, cache, seen := 0, map[], 0;
      new;
      assert file.log[..0] == [];
    }

    /** Reads every record this process has not read. No read runs into the end of the file, and the
        cache becomes the replay of the whole log. */
    method Refresh()
      requires Valid()
      modifies this`pos, this`cache, this`seen
      ensures Valid() && State() == Refreshed(file.log)
    {
      hide EncodeAll, Coherent, Replay, Available, ReadChunk;
      var size := |file.bytes|;
      while size > pos
        invariant Valid() && size == |file.bytes|
        decreases size - pos
      {
        BoundaryBeforeEnd(file.log, seen);
        NextRecord(file.log, seen);
        CoherentRead(cache, file.log, seen);
        var key := ReadChunk(file.bytes, pos, LEN_BYTES);
        var value := ReadChunk(file.bytes, key.1, LEN_BYTES);
        cache := cache[key.0 := value.0];
        pos := value.1;
        seen := seen + 1;
      }
      BoundaryAtEnd(file.log, seen);
      CoherentAtEnd(cache, file.log);
      assert file.log[..|file.log|] == file.log;
    }

    method Set(key: Bytes, value: Bytes)
      requires Valid() && Writable(Record(Regular(key), value))
      modifies file
      ensures Valid() && file.log == old(file.log) + [Record(Regular(key), value)]
      ensures State() == old(State())
    {
      CoherentAppend(cache, cache, file.log, seen, Record(Regular(key), value));
      file.Append(Regular(key), value);
      assert file.log[..seen] == old(file.log)[..seen];
    }

    /** One round of the polling loop of `get`: the value the whole log gives the key, if any. */
    method Get(key: Bytes) returns (r: Option<Bytes>)
      requires Valid()
      modifies this`pos, this`cache, this`seen
      ensures Valid()
      ensures r == if Regular(key) in Replay(file.log) then Some(Replay(file.log)[Regular(key)]) else None
      ensures State() == Refreshed(file.log)
    {
      if Regular(key) !in cache && |file.bytes| == pos {
        BoundaryAtEnd(file.log, seen);
        CoherentAtEnd(cache, file.log);
        assert file.log[..|file.log|] == file.log;
        return None;
      }
      Refresh();
      r := if Regular(key) in cache then Some(cache[Regular(key)]) else None;
    }

    /** `addHelper`. The new value is the one the whole log gives the key plus `i`, whichever process
        wrote it; it is `None`, with nothing written, where the stored value is not a number. The entry
        left in the cache is stale, and harmless. */
    method AddHelper(key: Bytes, i: int) returns (r: Option<int>)
      requires Valid() && Fits(key, LEN_BYTES)
      modifies this`pos, this`cache, this`seen, file
      ensures Valid()
      ensures r == Added(old(file.log), key, i)
      ensures file.log == LogAfterAdd(old(file.log), key, i) && State() == AfterAdd(old(file.log), key, i)
    {
      hide Stoll, ToString, Coherent, EncodeAll;
      Refresh();
      var value := if key in cache then cache[key] else [];
      var current := Current(value);
      if current.None? { return None; }
      ghost var before := cache;
      cache := cache[key := value];
      var ti := Wrap64(i + current.value);
      DecimalFits(ti);
      CoherentAppend(before, cache, file.log, seen, Record(key, ToString(ti)));
      file.Append(key, ToString(ti));
      assert file.log[..seen] == old(file.log)[..seen];
      r := Some(ti);
    }

    method Check(keys: seq<Bytes>) returns (ready: bool)
      requires Valid()
      modifies this`pos, this`cache, this`seen
      ensures Valid()
      ensures ready <==> forall k :: 0 <= k < |keys| ==> Written(file.log, Regular(keys[k]))
      ensures State() == Refreshed(file.log)
    {
      Refresh();
      forall k | 0 <= k < |keys| ensures Regular(keys[k]) in cache <==> Written(file.log, Regular(keys[k])) {
        ReplayDomain(file.log, Regular(keys[k]));
      }
      for k := 0 to |keys|
        invariant forall j :: 0 <= j < k ==> Regular(keys[j]) in cache
        invariant Valid() && State() == Refreshed(file.log)
      {
        if Regular(keys[k]) !in cache { return false; }
      }
      return true;
    }

    method GetNumKeys() returns (n: nat)
      requires Valid()
      modifies this`pos, this`cache, this`seen
      ensures Valid() && n == |Replay(file.log)| && State() == Refreshed(file.log)
    {
      Refresh();
      n := |cache|;
    }

    /** The destructor: whether this process is the one to delete the file. */
    method Destroy() returns (remove: bool)
      requires Valid()
      modifies this`pos, this`cache, this`seen, file
      ensures Valid()
      ensures remove <==> Added(old(file.log), CLEANUP_KEY, 1) == Some(numWorkers)
      ensures file.log == LogAfterAdd(old(file.log), CLEANUP_KEY, 1) && State() == AfterAdd(old(file.log), CLEANUP_KEY, 1)
    {
      CleanupKeyFits();
      var finished := AddHelper(CLEANUP_KEY, 1);
      remove := finished == Some(numWorkers);
    }
  }

  lemma CleanupKeyFits()
    ensures Fits(CLEANUP_KEY, LEN_BYTES)
  {
  }

  lemma BoundaryBeforeEnd(log: seq<Record>, i: nat)
    requires i <= |log| && |EncodeAll(log[..i])| < |EncodeAll(log)|
    ensures i < |log|
  {
    assert log[..|log|] == log;
  }

  lemma BoundaryAtEnd(log: seq<Record>, i: nat)
    requires i <= |log| && |EncodeAll(log[..i])| >= |EncodeAll(log)| && forall j :: 0 <= j < |log| ==> Writable(log[j])
    ensures i == |log|
  {
    if i < |log| { NextRecord(log, i); }
  }

  /** A printed integer is short enough to be written. */
  lemma DecimalFits(x: int)
    requires INT64_MIN <= x <= INT64_MAX
    ensures Fits(ToString(x), LEN_BYTES)
  {
    Pow10Add(9, 10);
    assert Pow10(3) == 1000 && Pow10(6) == 1000_000 && Pow10(9) == 1000_000_000;
    DigitsLength(if x < 0 then -x else x, 19);
    assert Pow256(2) == 65536 <= Pow256(LEN_BYTES);
  }

  lemma {:induction false} Pow10Add(a: nat, b: nat)
    ensures Pow10(a + b) == Pow10(a) * Pow10(b)
  {
    if a > 0 { Pow10Add(a - 1, b); }
  }

  ghost function Pow10(w: nat): nat { if w == 0 then 1 else 10 * Pow10(w - 1) }

  lemma {:induction false} DigitsLength(n: nat, w: nat)
    requires w > 0 && n < Pow10(w)
    ensures |Digits(n)| <= w
  {
    if n >= 10 { DigitsLength(n / 10, w - 1); }
  }
}
