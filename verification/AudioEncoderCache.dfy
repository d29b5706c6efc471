// A least-recently-used cache of encoder outputs with an entry limit and a byte limit.
module AudioEncoderCaching {
  import opened Results

  datatype CacheKey = CacheKey(
    audio: string,
    encoder: string,
    feature: string,
    sampleRate: nat,
    channels: nat,
    startSample: nat,
    endSample: nat)

  datatype Entry<T> = Entry(digest: string, value: T, size: nat)

  // ----- recency lists, oldest entry first -----

  predicate Holds<T>(entries: seq<Entry<T>>, digest: string) {
    exists i :: 0 <= i < |entries| && entries[i].digest == digest
  }

  ghost predicate Distinct<T>(entries: seq<Entry<T>>) {
    forall i, j :: 0 <= i < j < |entries| ==> entries[i].digest != entries[j].digest
  }

  function Bytes<T>(entries: seq<Entry<T>>): nat {
    if entries == [] then 0 else entries[0].size + Bytes(entries[1..])
  }

  lemma {:induction false} BytesConcat<T>(a: seq<Entry<T>>, b: seq<Entry<T>>)
    ensures Bytes(a + b) == Bytes(a) + Bytes(b)
  {
    if a == [] {
      assert a + b == b;
    } else {
      BytesConcat(a[1..], b);
      assert (a + b)[1..] == a[1..] + b;
    }
  }

  function Lookup<T>(entries: seq<Entry<T>>, digest: string): Option<Entry<T>> {
    if entries == [] then None
    else if entries[0].digest == digest then Some(entries[0])
    else Lookup(entries[1..], digest)
  }

  lemma {:induction false} LookupFinds<T>(entries: seq<Entry<T>>, digest: string)
    ensures Lookup(entries, digest).Some? <==> Holds(entries, digest)
    ensures Lookup(entries, digest).Some? ==>
      Lookup(entries, digest).value in entries && Lookup(entries, digest).value.digest == digest
  {
    if entries != [] {
      LookupFinds(entries[1..], digest);
      if Holds(entries, digest) && entries[0].digest != digest {
        var i :| 0 <= i < |entries| && entries[i].digest == digest;
        assert entries[1..][i - 1].digest == digest;
      }
    }
  }

  function Without<T>(entries: seq<Entry<T>>, digest: string): seq<Entry<T>> {
    if entries == [] then []
    else if entries[0].digest == digest then Without(entries[1..], digest)
    else [entries[0]] + Without(entries[1..], digest)
  }

  lemma {:induction false} WithoutMember<T>(entries: seq<Entry<T>>, digest: string, e: Entry<T>)
    ensures e in Without(entries, digest) <==> e in entries && e.digest != digest
  {
    if entries != [] {
      WithoutMember(entries[1..], digest, e);
      assert entries == [entries[0]] + entries[1..];
    }
  }

  lemma WithoutMembers<T>(entries: seq<Entry<T>>, digest: string)
    ensures forall e :: e in Without(entries, digest) <==> e in entries && e.digest != digest
    ensures !Holds(Without(entries, digest), digest)
  {
    forall e ensures e in Without(entries, digest) <==> e in entries && e.digest != digest {
      WithoutMember(entries, digest, e);
    }
    var rest := Without(entries, digest);
    forall i | 0 <= i < |rest| ensures rest[i].digest != digest {
      WithoutMember(entries, digest, rest[i]);
    }
  }

  lemma {:induction false} WithoutAbsent<T>(entries: seq<Entry<T>>, digest: string)
    requires Lookup(entries, digest).None?
    ensures Without(entries, digest) == entries
  {
    if entries != [] {
      WithoutAbsent(entries[1..], digest);
    }
  }

  lemma {:induction false} WithoutSize<T>(entries: seq<Entry<T>>, digest: string)
    requires Distinct(entries) && Lookup(entries, digest).Some?
    ensures |Without(entries, digest)| == |entries| - 1
    ensures Bytes(Without(entries, digest)) == Bytes(entries) - Lookup(entries, digest).value.size
  {
    if entries[0].digest == digest {
      LookupFinds(entries[1..], digest);
      WithoutAbsent(entries[1..], digest);
      assert Without(entries, digest) == entries[1..];
    } else {
      WithoutSize(entries[1..], digest);
      var rest := Without(entries[1..], digest);
      assert Without(entries, digest) == [entries[0]] + rest;
      assert ([entries[0]] + rest)[1..] == rest;
    }
  }

  lemma {:induction false} WithoutDistinct<T>(entries: seq<Entry<T>>, digest: string)
    requires Distinct(entries)
    ensures Distinct(Without(entries, digest))
  {
    if entries != [] {
      WithoutDistinct(entries[1..], digest);
      var rest := Without(entries[1..], digest);
      forall j | 0 <= j < |rest| ensures rest[j].digest != entries[0].digest {
        WithoutMember(entries[1..], digest, rest[j]);
      }
    }
  }

  lemma WithoutFacts<T>(entries: seq<Entry<T>>, digest: string)
    requires Distinct(entries)
    ensures Distinct(Without(entries, digest)) && !Holds(Without(entries, digest), digest)
    ensures forall e :: e in Without(entries, digest) <==> e in entries && e.digest != digest
    ensures Lookup(entries, digest).None? ==> Without(entries, digest) == entries
    ensures Lookup(entries, digest).Some? ==>
      && |Without(entries, digest)| == |entries| - 1
      && Bytes(Without(entries, digest)) == Bytes(entries) - Lookup(entries, digest).value.size
  {
    WithoutDistinct(entries, digest);
    WithoutMembers(entries, digest);
    if Lookup(entries, digest).Some? {
      WithoutSize(entries, digest);
    } else {
      WithoutAbsent(entries, digest);
    }
  }

  // A hit moves its entry to the recent end.
  function Touched<T>(entries: seq<Entry<T>>, digest: string): seq<Entry<T>> {
    match Lookup(entries, digest)
    case None => entries
    case Some(entry) => Without(entries, digest) + [entry]
  }

  datatype Limits = Limits(entries: nat, bytes: nat) {
    predicate Valid() {
      1 <= entries <= 8192 && 1 <= bytes <= 0x100_0000_0000
    }
  }

  predicate Fits<T>(entries: seq<Entry<T>>, limits: Limits) {
    |entries| <= limits.entries && Bytes(entries) <= limits.bytes
  }

  // Drops oldest entries until both limits hold.
  function EvictToFit<T>(entries: seq<Entry<T>>, limits: Limits): (kept: seq<Entry<T>>)
    ensures |kept| <= |entries| && kept == entries[|entries| - |kept|..] && Fits(kept, limits)
  {
    if Fits(entries, limits) then entries else
      assert entries != [];
      var kept := EvictToFit(entries[1..], limits);
      assert entries[1..][|entries| - 1 - |kept|..] == entries[|entries| - |kept|..];
      kept
  }

  // What is kept is the longest recent stretch that satisfies both limits.
  lemma {:induction false} EvictKeepsLongestSuffix<T>(entries: seq<Entry<T>>, limits: Limits, k: nat)
    requires k <= |entries| && Fits(entries[k..], limits)
    ensures |EvictToFit(entries, limits)| >= |entries| - k
  {
    if !Fits(entries, limits) {
      assert k > 0 by {
        assert entries[0..] == entries;
      }
      assert entries[1..][k - 1..] == entries[k..];
      EvictKeepsLongestSuffix(entries[1..], limits, k - 1);
    }
  }

  // Eviction drops the d oldest entries: it ends within both limits, and no entry earlier than it must.
  lemma {:induction false} EvictionMeaning<T>(entries: seq<Entry<T>>, limits: Limits) returns (d: nat)
    ensures d <= |entries| && EvictToFit(entries, limits) == entries[d..]
    ensures |entries| - d <= limits.entries && Bytes(entries[d..]) <= limits.bytes
    ensures d > 0 ==> |entries| - d + 1 > limits.entries || Bytes(entries[d..]) + entries[d - 1].size > limits.bytes
    decreases |entries|
  {
    if |entries| > limits.entries || Bytes(entries) > limits.bytes {
      var rest := entries[1..];
      assert EvictToFit(entries, limits) == EvictToFit(rest, limits) && Bytes(entries) == entries[0].size + Bytes(rest);
      hide Bytes, EvictToFit;
      d := EvictionMeaning(rest, limits);
      assert rest[d..] == entries[d + 1..];
      if d > 0 {
        assert rest[d - 1] == entries[d];
      }
      d := d + 1;
    } else {
      d := 0;
      assert entries[0..] == entries;
    }
  }

  lemma {:induction false} WithoutOne<T>(front: seq<Entry<T>>, e: Entry<T>, back: seq<Entry<T>>)
    requires Distinct(front + [e] + back)
    ensures Lookup(front + [e] + back, e.digest) == Some(e) && Without(front + [e] + back, e.digest) == front + back
    decreases |front|
  {
    var all := front + [e] + back;
    if front == [] {
      assert all[0] == e && all[1..] == back && front + back == back;
      assert forall j :: 0 < j < |all| ==> all[0].digest != all[j].digest;
      LookupFinds(back, e.digest);
      WithoutAbsent(back, e.digest);
    } else {
      assert all[1..] == front[1..] + [e] + back && all[0] == front[0];
      assert all[|front|] == e;
      WithoutOne(front[1..], e, back);
      assert front + back == [front[0]] + (front[1..] + back);
    }
  }

  // A hit moves its entry behind the others, and an accepted put of the same digest replaces it there.
  lemma EntryMovesToRecentEnd<T>(front: seq<Entry<T>>, e: Entry<T>, back: seq<Entry<T>>, value: T, size: int, limits: Limits)
    requires Distinct(front + [e] + back)
    ensures Step(front + [e] + back, Op.Get(e.digest), limits) == front + back + [e]
    ensures 1 <= size <= limits.bytes ==>
      Step(front + [e] + back, Op.Put(e.digest, value, size), limits)
        == EvictToFit(front + back + [Entry(e.digest, value, size)], limits)
    ensures !(1 <= size <= limits.bytes) ==>
      Step(front + [e] + back, Op.Put(e.digest, value, size), limits) == front + [e] + back
  {
    WithoutOne(front, e, back);
    hide Lookup, Without, EvictToFit;
  }

  // The newest entry survives whenever it fits on its own.
  lemma NewestSurvives<T>(entries: seq<Entry<T>>, newest: Entry<T>, limits: Limits)
    requires limits.Valid() && newest.size <= limits.bytes
    ensures EvictToFit(entries + [newest], limits) != []
    ensures
      var kept := EvictToFit(entries + [newest], limits);
      kept[|kept| - 1] == newest
  {
    var all := entries + [newest];
    assert all[|entries|..] == [newest];
    assert Bytes([newest]) == newest.size;
    EvictKeepsLongestSuffix(all, limits, |entries|);
  }

  function Inserted<T>(entries: seq<Entry<T>>, entry: Entry<T>): seq<Entry<T>> {
    Without(entries, entry.digest) + [entry]
  }

  lemma DistinctSnoc<T>(entries: seq<Entry<T>>, entry: Entry<T>)
    requires Distinct(entries) && !Holds(entries, entry.digest)
    ensures Distinct(entries + [entry])
  {
  }

  // ----- one cache, as a function of its trace -----

  datatype Op<T> = Get(digest: string) | Put(digest: string, value: T, size: int) | Clear

  function Step<T>(entries: seq<Entry<T>>, op: Op<T>, limits: Limits): seq<Entry<T>> {
    match op
    case Get(digest) => Touched(entries, digest)
    case Put(digest, value, size) =>
      if 1 <= size <= limits.bytes then EvictToFit(Inserted(entries, Entry(digest, value, size)), limits) else entries
    case Clear => []
  }

  function IsHit<T>(entries: seq<Entry<T>>, op: Op<T>): nat {
    if op.Get? && Lookup(entries, op.digest).Some? then 1 else 0
  }

  function Run<T>(entries: seq<Entry<T>>, ops: seq<Op<T>>, limits: Limits): seq<Entry<T>>
    decreases |ops|
  {
    if ops == [] then entries else Run(Step(entries, ops[0], limits), ops[1..], limits)
  }

  function Hits<T>(entries: seq<Entry<T>>, ops: seq<Op<T>>, limits: Limits): nat
    decreases |ops|
  {
    if ops == [] then 0 else IsHit(entries, ops[0]) + Hits(Step(entries, ops[0], limits), ops[1..], limits)
  }

  lemma TouchedFacts<T>(entries: seq<Entry<T>>, digest: string)
    requires Distinct(entries)
    ensures Distinct(Touched(entries, digest)) && |Touched(entries, digest)| == |entries|
    ensures Bytes(Touched(entries, digest)) == Bytes(entries)
    ensures multiset(Touched(entries, digest)) == multiset(entries)
  {
    LookupFinds(entries, digest);
    WithoutFacts(entries, digest);
    if Lookup(entries, digest).Some? {
      var entry, rest := Lookup(entries, digest).value, Without(entries, digest);
      DistinctSnoc(rest, entry);
      BytesConcat(rest, [entry]);
      assert Bytes([entry]) == entry.size;
      WithoutTakesOne(entries, digest);
    }
  }

  lemma {:induction false} WithoutTakesOne<T>(entries: seq<Entry<T>>, digest: string)
    requires Distinct(entries) && Lookup(entries, digest).Some?
    ensures multiset(entries) == multiset(Without(entries, digest)) + multiset{Lookup(entries, digest).value}
  {
    assert entries == [entries[0]] + entries[1..];
    if entries[0].digest == digest {
      LookupFinds(entries[1..], digest);
      WithoutAbsent(entries[1..], digest);
    } else {
      WithoutTakesOne(entries[1..], digest);
    }
  }

  // Every operation keeps digests unique and both limits.
  lemma StepKeepsShape<T>(entries: seq<Entry<T>>, op: Op<T>, limits: Limits)
    requires Distinct(entries) && Fits(entries, limits)
    ensures Distinct(Step(entries, op, limits)) && Fits(Step(entries, op, limits), limits)
  {
    match op
    case Get(digest) =>
      TouchedFacts(entries, digest);
    case Put(digest, value, size) =>
      WithoutFacts(entries, digest);
      if 1 <= size <= limits.bytes {
        DistinctSnoc(Without(entries, digest), Entry(digest, value, size));
      }
    case Clear =>
  }

  // ----- the cache object -----

  class AudioEncoderCache<T> {
    const limits: Limits
    const digest: CacheKey -> string
    var entries: seq<Entry<T>>
    var residentBytes: nat
    var hits: nat
    var misses: nat
    var evictions: nat
    var rejectedOversize: nat

    ghost predicate Valid()
      reads this
    {
      limits.Valid() && Distinct(entries) && Fits(entries, limits) && residentBytes == Bytes(entries)
    }

    // Every stored value is the one f assigns to the keys with its digest.
    ghost predicate Faithful(f: CacheKey -> T)
      reads this
    {
      forall e, key :: e in entries && digest(key) == e.digest ==> e.value == f(key)
    }

    constructor (limits: Limits, digest: CacheKey -> string)
      requires limits.Valid()
      ensures Valid() && entries == [] && this.limits == limits && this.digest == digest
      ensures hits == misses == evictions == rejectedOversize == 0
    {
      this.limits, this.digest := limits, digest;
      entries, residentBytes := [], 0;
      hits, misses, evictions, rejectedOversize := 0, 0, 0, 0;
    }

    method Get(key: CacheKey) returns (r: Option<T>)
      requires Valid()
      modifies this`entries, this`hits, this`misses
      ensures Valid()
      ensures entries == Step(old(entries), Op.Get(digest(key)), limits)
      ensures r.Some? <==> Holds(old(entries), digest(key))
      ensures r.Some? ==> Lookup(old(entries), digest(key)).Some? && r.value == Lookup(old(entries), digest(key)).value.value
      ensures forall i :: 0 <= i < |old(entries)| && old(entries)[i].digest == digest(key) ==> r == Some(old(entries)[i].value)
      ensures hits == old(hits) + (if r.Some? then 1 else 0) && misses == old(misses) + (if r.Some? then 0 else 1)
      ensures hits == old(hits) + IsHit(old(entries), Op.Get(digest(key))) && hits + misses == old(hits + misses) + 1
      ensures multiset(entries) == multiset(old(entries))
    {
      var d := digest(key);
      TouchedFacts(entries, d);
      LookupFinds(entries, d);
      var found := Lookup(entries, d);
      if found.None? {
        misses := misses + 1;
        return None;
      }
      entries := Without(entries, d) + [found.value];
      hits := hits + 1;
      assert entries == Touched(old(entries), d);
      return Some(found.value.value);
    }

    method Put(key: CacheKey, value: T, size: int) returns (stored: bool)
      requires Valid()
      modifies this`entries, this`residentBytes, this`evictions, this`rejectedOversize
      ensures Valid()
      ensures entries == Step(old(entries), Op.Put(digest(key), value, size), limits)
      ensures stored <==> 1 <= size <= limits.bytes
      ensures |entries| <= limits.entries && residentBytes == Bytes(entries) <= limits.bytes
      ensures stored ==> entries != [] && entries[|entries| - 1] == Entry(digest(key), value, size)
      ensures evictions - old(evictions)
        == (if stored then |Inserted(old(entries), Entry(digest(key), value, size))| - |entries| else 0)
      ensures rejectedOversize == old(rejectedOversize) + (if stored then 0 else 1)
    {
      if !(1 <= size <= limits.bytes) {
        rejectedOversize := rejectedOversize + 1;
        return false;
      }
      var d := digest(key);
      StepKeepsShape(entries, Op.Put(d, value, size), limits);
      NewestSurvives(Without(entries, d), Entry(d, value, size), limits);
      ReplaceEntry(Entry(d, value, size));
      EvictOldest(entries);
      return Holds(entries, d);
    }

    // Removes any entry with the same digest and appends the new one.
    method ReplaceEntry(entry: Entry<T>)
      requires Distinct(entries) && residentBytes == Bytes(entries)
      modifies this`entries, this`residentBytes
      ensures entries == Inserted(old(entries), entry) && residentBytes == Bytes(entries)
    {
      WithoutFacts(entries, entry.digest);
      BytesConcat(Without(entries, entry.digest), [entry]);
      assert Bytes([entry]) == entry.size;
      var previous := Lookup(entries, entry.digest);
      if previous.Some? {
        entries := Without(entries, entry.digest);
        residentBytes := residentBytes - previous.value.size;
      }
      entries := entries + [entry];
      residentBytes := residentBytes + entry.size;
    }

    // The eviction loop.
    method EvictOldest(ghost all: seq<Entry<T>>)
      requires all == entries && residentBytes == Bytes(entries)
      modifies this`entries, this`residentBytes, this`evictions
      ensures entries == EvictToFit(all, limits) && residentBytes == Bytes(entries)
      ensures evictions == old(evictions) + |all| - |entries|
    {
      while |entries| > limits.entries || residentBytes > limits.bytes
        invariant residentBytes == Bytes(entries) && |entries| <= |all|
        invariant EvictToFit(entries, limits) == EvictToFit(all, limits)
        invariant evictions == old(evictions) + |all| - |entries|
        decreases |entries|
      {
        residentBytes := residentBytes - entries[0].size;
        entries := entries[1..];
        evictions := evictions + 1;
      }
    }

    // With digests that do not collide, a cache of f's values always answers with f's value.
    method GetOrCompute(key: CacheKey, compute: () -> (T, int), ghost f: CacheKey -> T) returns (value: T)
      requires Valid()
      modifies this
      ensures Valid()
      ensures Holds(old(entries), digest(key)) ==>
        Lookup(old(entries), digest(key)).Some? && value == Lookup(old(entries), digest(key)).value.value
      ensures !Holds(old(entries), digest(key)) ==> value == compute().0
      ensures entries == Step(old(entries), if Holds(old(entries), digest(key)) then Op.Get(digest(key))
                                            else Op.Put(digest(key), compute().0, compute().1), limits)
      ensures old(Faithful(f)) && Injective(digest) && compute().0 == f(key) ==> value == f(key) && Faithful(f)
    {
      LookupFinds(entries, digest(key));
      var cached := Get(key);
      ghost var before := entries;
      assert forall e :: e in before ==> e in multiset(old(entries));
      if cached.Some? {
        return cached.value;
      }
      var (computed, size) := compute();
      var stored := Put(key, computed, size);
      if old(Faithful(f)) && Injective(digest) && computed == f(key) {
        forall e | e in entries ensures e in before || (e.digest == digest(key) && e.value == computed) {
          StepStoresOnly(before, Op.Put(digest(key), computed, size), limits, e);
        }
      }
      value := computed;
    }

    method ClearAll()
      requires Valid()
      modifies this`entries, this`residentBytes
      ensures Valid() && entries == Step(old(entries), Clear, limits) && residentBytes == 0
    {
      entries, residentBytes := [], 0;
    }
  }

  ghost predicate Injective(digest: CacheKey -> string) {
    forall a, b :: digest(a) == digest(b) ==> a == b
  }

  lemma StepStoresOnly<T>(entries: seq<Entry<T>>, op: Op<T>, limits: Limits, e: Entry<T>)
    requires op.Put? && e in Step(entries, op, limits)
    ensures e in entries || (op.size >= 0 && e == Entry(op.digest, op.value, op.size))
  {
    WithoutMembers(entries, op.digest);
    if 1 <= op.size <= limits.bytes {
      var entry := Entry(op.digest, op.value, op.size);
      assert e in Inserted(entries, entry);
      assert e in Without(entries, entry.digest) || e == entry;
    }
  }
}
