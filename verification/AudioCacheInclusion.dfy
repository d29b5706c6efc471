// What caches of different sizes have in common when they see the same requests.
module AudioCacheInclusion {
  import opened Results
  import opened AudioEncoderCaching

  // ----- order-preserving inclusion -----

  // The entries of `small` occur in `large` in the same order.
  ghost predicate Embeds<T>(small: seq<Entry<T>>, large: seq<Entry<T>>) {
    small == [] || (large != [] &&
      if small[0] == large[0] then Embeds(small[1..], large[1..]) else Embeds(small, large[1..]))
  }

  lemma {:induction false} EmbedsReflexive<T>(s: seq<Entry<T>>)
    ensures Embeds(s, s)
  {
    if s != [] {
      EmbedsReflexive(s[1..]);
    }
  }

  lemma {:induction false} EmbedsMembers<T>(small: seq<Entry<T>>, large: seq<Entry<T>>)
    requires Embeds(small, large)
    ensures forall e :: e in small ==> e in large
    ensures |small| <= |large| && Bytes(small) <= Bytes(large)
    decreases |large|
  {
    if small != [] {
      if small[0] == large[0] {
        EmbedsMembers(small[1..], large[1..]);
        assert small == [small[0]] + small[1..];
      } else {
        EmbedsMembers(small, large[1..]);
      }
    }
  }

  // Dropping the head of the small list keeps the embedding.
  lemma {:induction false} EmbedsTail<T>(small: seq<Entry<T>>, large: seq<Entry<T>>)
    requires Embeds(small, large) && small != []
    ensures Embeds(small[1..], large) && Embeds(small[1..], large[1..])
    decreases |large|
  {
    if small[0] == large[0] {
      EmbedsWider(small[1..], large);
    } else {
      EmbedsTail(small, large[1..]);
      EmbedsWider(small[1..], large);
    }
  }

  // An embedding into the tail of a list is one into the whole list.
  lemma {:induction false} EmbedsWider<T>(small: seq<Entry<T>>, large: seq<Entry<T>>)
    requires large != [] && Embeds(small, large[1..])
    ensures Embeds(small, large)
    decreases |large|, 0
  {
    if small != [] && small[0] == large[0] {
      EmbedsTail(small, large[1..]);
    }
  }

  lemma {:induction false} EmbedsSnoc<T>(small: seq<Entry<T>>, large: seq<Entry<T>>, e: Entry<T>)
    requires Embeds(small, large)
    ensures Embeds(small, large + [e])
    ensures Embeds(small + [e], large + [e])
    decreases |large|
  {
    if large == [] {
      assert small + [e] == [e] && large + [e] == [e];
      EmbedsReflexive([e]);
    } else {
      assert (large + [e])[1..] == large[1..] + [e];
      if small == [] {
        EmbedsSnoc(small, large[1..], e);
        assert small + [e] == [e];
        EmbedsWider([e], large + [e]);
      } else {
        assert (small + [e])[1..] == small[1..] + [e];
        if small[0] == large[0] {
          EmbedsSnoc(small[1..], large[1..], e);
        } else {
          EmbedsSnoc(small, large[1..], e);
        }
      }
    }
  }

  lemma {:induction false} EmbedsWithout<T>(small: seq<Entry<T>>, large: seq<Entry<T>>, digest: string)
    requires Embeds(small, large)
    ensures Embeds(Without(small, digest), Without(large, digest))
    decreases |large|
  {
    if small != [] {
      if small[0] == large[0] {
        EmbedsWithout(small[1..], large[1..], digest);
        if small[0].digest != digest {
          var s, l := Without(small, digest), Without(large, digest);
          assert s[1..] == Without(small[1..], digest) && l[1..] == Without(large[1..], digest);
        }
      } else {
        EmbedsWithout(small, large[1..], digest);
        if large[0].digest != digest {
          assert Without(large, digest)[1..] == Without(large[1..], digest);
          EmbedsWider(Without(small, digest), Without(large, digest));
        }
      }
    }
  }

  lemma {:induction false} EmbedsSuffix<T>(small: seq<Entry<T>>, large: seq<Entry<T>>, k: nat)
    requires Embeds(small, large) && k <= |small|
    ensures Embeds(small[k..], large)
    decreases k
  {
    if k > 0 {
      EmbedsSuffix(small, large, k - 1);
      EmbedsTail(small[k - 1..], large);
      assert small[k - 1..][1..] == small[k..];
    } else {
      assert small[0..] == small;
    }
  }

  // The stretch of a recency list from a digest on.
  function TailFrom<T>(entries: seq<Entry<T>>, digest: string): seq<Entry<T>> {
    if entries == [] || entries[0].digest == digest then entries else TailFrom(entries[1..], digest)
  }

  lemma {:induction false} TailIsSuffix<T>(entries: seq<Entry<T>>, digest: string)
    ensures |TailFrom(entries, digest)| <= |entries|
    ensures TailFrom(entries, digest) == entries[|entries| - |TailFrom(entries, digest)|..]
  {
    if entries != [] && entries[0].digest != digest {
      TailIsSuffix(entries[1..], digest);
      var n := |TailFrom(entries, digest)|;
      assert entries[1..][|entries| - 1 - n..] == entries[|entries| - n..];
    }
  }

  lemma HeadIsElsewhere<T>(small: seq<Entry<T>>, large: seq<Entry<T>>)
    requires Distinct(large) && large != [] && small != [] && Embeds(small, large[1..])
    ensures small[0].digest != large[0].digest
  {
    EmbedsMembers(small, large[1..]);
    assert small[0] in large[1..];
    var i :| 0 <= i < |large| - 1 && large[1..][i] == small[0];
    assert large[i + 1].digest != large[0].digest;
  }

  // Of a list that includes `small`, the last k entries include it exactly when they reach back to
  // its oldest entry.
  lemma {:induction false} SuffixEmbedsIff<T>(small: seq<Entry<T>>, large: seq<Entry<T>>, k: nat)
    requires Distinct(large) && Embeds(small, large) && small != [] && k <= |large|
    ensures Embeds(small, large[|large| - k..]) <==> k >= |TailFrom(large, small[0].digest)|
    decreases |large|
  {
    TailIsSuffix(large, small[0].digest);
    if k == |large| {
      assert large[0..] == large;
    } else {
      assert large[1..][|large| - 1 - k..] == large[|large| - k..];
      if small[0] == large[0] {
        if Embeds(small, large[|large| - k..]) {
          EmbedsDeeper(small, large[1..], |large| - 1 - k);
          HeadIsElsewhere(small, large);
          assert false;
        }
      } else {
        HeadIsElsewhere(small, large);
        SuffixEmbedsIff(small, large[1..], k);
      }
    }
  }

  lemma {:induction false} EmbedsDeeper<T>(small: seq<Entry<T>>, large: seq<Entry<T>>, i: nat)
    requires i <= |large| && Embeds(small, large[i..])
    ensures Embeds(small, large)
    decreases i
  {
    if i == 0 {
      assert large[0..] == large;
    } else {
      assert large[i - 1..][1..] == large[i..];
      EmbedsWider(small, large[i - 1..]);
      EmbedsDeeper(small, large, i - 1);
    }
  }

  lemma SuffixBytes<T>(entries: seq<Entry<T>>, i: nat)
    requires i <= |entries|
    ensures Bytes(entries[i..]) <= Bytes(entries)
  {
    BytesConcat(entries[..i], entries[i..]);
    assert entries[..i] + entries[i..] == entries;
  }

  // Eviction keeps a stretch of recent entries exactly when the stretch fits.
  lemma EvictionReachesIff<T>(entries: seq<Entry<T>>, digest: string, limits: Limits)
    ensures |EvictToFit(entries, limits)| >= |TailFrom(entries, digest)| <==> Fits(TailFrom(entries, digest), limits)
  {
    hide TailFrom, EvictToFit, Bytes;
    var kept, tail := EvictToFit(entries, limits), TailFrom(entries, digest);
    TailIsSuffix(entries, digest);
    if Fits(tail, limits) {
      EvictKeepsLongestSuffix(entries, limits, |entries| - |tail|);
    }
    if |kept| >= |tail| {
      assert tail == kept[|kept| - |tail|..];
      SuffixBytes(kept, |kept| - |tail|);
    }
  }

  lemma InsertedEmbeds<T>(small: seq<Entry<T>>, large: seq<Entry<T>>, entry: Entry<T>)
    requires Distinct(small) && Distinct(large) && Embeds(small, large)
    ensures
      var s, l := Inserted(small, entry), Inserted(large, entry);
      Distinct(s) && Distinct(l) && Embeds(s, l)
  {
    var d := entry.digest;
    WithoutFacts(small, d);
    WithoutFacts(large, d);
    EmbedsWithout(small, large, d);
    EmbedsSnoc(Without(small, d), Without(large, d), entry);
    DistinctSnoc(Without(small, d), entry);
    DistinctSnoc(Without(large, d), entry);
  }

  // What the larger cache must be able to keep of the smaller one's entries after a put.
  function Needed<T>(small: seq<Entry<T>>, large: seq<Entry<T>>, entry: Entry<T>, limits: Limits): seq<Entry<T>> {
    var kept := EvictToFit(Inserted(small, entry), limits);
    if kept == [] then [] else TailFrom(Inserted(large, entry), kept[0].digest)
  }

  // A put keeps the inclusion exactly when the larger list, from the oldest entry that the smaller
  // cache keeps on, fits the larger cache. Nothing is asked of the limits.
  lemma PutKeepsInclusionIff<T>(small: seq<Entry<T>>, large: seq<Entry<T>>, entry: Entry<T>, m: Limits, n: Limits)
    requires Distinct(small) && Distinct(large) && Embeds(small, large)
    ensures Embeds(EvictToFit(Inserted(small, entry), m), EvictToFit(Inserted(large, entry), n))
      <==> Fits(Needed(small, large, entry, m), n)
  {
    assert Fits<T>([], n);
    hide Inserted, Distinct, EvictToFit, TailFrom, Fits;
    InsertedEmbeds(small, large, entry);
    var s, l := Inserted(small, entry), Inserted(large, entry);
    var ks, kl := EvictToFit(s, m), EvictToFit(l, n);
    if ks != [] {
      EmbedsSuffix(s, l, |s| - |ks|);
      SuffixEmbedsIff(ks, l, |kl|);
      EvictionReachesIff(l, ks[0].digest, n);
    }
  }

  // ----- whole traces -----

  // The larger cache includes the smaller one now and after every operation.
  ghost predicate AlwaysEmbeds<T>(small: seq<Entry<T>>, large: seq<Entry<T>>, ops: seq<Op<T>>, m: Limits, n: Limits)
    decreases |ops|
  {
    Embeds(small, large) && (ops == [] || AlwaysEmbeds(Step(small, ops[0], m), Step(large, ops[0], n), ops[1..], m, n))
  }

  // At every accepted put the larger cache can keep what the smaller one needs.
  ghost predicate NeededFits<T>(small: seq<Entry<T>>, large: seq<Entry<T>>, ops: seq<Op<T>>, m: Limits, n: Limits)
    decreases |ops|
  {
    ops == [] || (
      && (ops[0].Put? && 1 <= ops[0].size <= m.bytes ==>
           Fits(Needed(small, large, Entry(ops[0].digest, ops[0].value, ops[0].size), m), n))
      && NeededFits(Step(small, ops[0], m), Step(large, ops[0], n), ops[1..], m, n))
  }

  lemma GetKeepsInclusion<T>(small: seq<Entry<T>>, large: seq<Entry<T>>, digest: string)
    requires Distinct(small) && Distinct(large) && Embeds(small, large)
    ensures Lookup(small, digest).Some? ==> Lookup(large, digest) == Lookup(small, digest)
    ensures Embeds(Touched(small, digest), Touched(large, digest))
  {
    LookupFinds(small, digest);
    LookupFinds(large, digest);
    EmbedsMembers(small, large);
    EmbedsWithout(small, large, digest);
    if Lookup(large, digest).Some? {
      EmbedsSnoc(Without(small, digest), Without(large, digest), Lookup(large, digest).value);
      if Lookup(small, digest).None? {
        WithoutAbsent(small, digest);
      }
    }
  }

  lemma StepKeepsInclusionIff<T>(small: seq<Entry<T>>, large: seq<Entry<T>>, op: Op<T>, m: Limits, n: Limits)
    requires m.bytes == n.bytes && Distinct(small) && Distinct(large) && Embeds(small, large)
    ensures Embeds(Step(small, op, m), Step(large, op, n)) <==>
      (op.Put? && 1 <= op.size <= m.bytes ==> Fits(Needed(small, large, Entry(op.digest, op.value, op.size), m), n))
    ensures IsHit(small, op) <= IsHit(large, op)
  {
    hide EvictToFit, Inserted, Needed, Touched, Fits;
    match op
    case Get(digest) => GetKeepsInclusion(small, large, digest);
    case Put(digest, value, size) =>
      if 1 <= size <= m.bytes {
        PutKeepsInclusionIff(small, large, Entry(digest, value, size), m, n);
      }
    case Clear =>
  }

  // Along any trace and for any two entry limits under one byte limit: the larger cache includes
  // the smaller one throughout exactly when each accepted put leaves it able to; and then the
  // smaller cache hits no more often.
  lemma {:induction false} LargerCacheIncludesSmallerIff<T>(
      small: seq<Entry<T>>, large: seq<Entry<T>>, ops: seq<Op<T>>, m: Limits, n: Limits)
    requires m.bytes == n.bytes && Embeds(small, large)
    requires Distinct(small) && Fits(small, m) && Distinct(large) && Fits(large, n)
    ensures AlwaysEmbeds(small, large, ops, m, n) <==> NeededFits(small, large, ops, m, n)
    ensures AlwaysEmbeds(small, large, ops, m, n) ==> Hits(small, ops, m) <= Hits(large, ops, n)
    decreases |ops|
  {
    if ops != [] {
      StepKeepsInclusionIff(small, large, ops[0], m, n);
      StepKeepsShape(small, ops[0], m);
      StepKeepsShape(large, ops[0], n);
      hide Step, Embeds, Distinct, Fits, Needed;
      if Embeds(Step(small, ops[0], m), Step(large, ops[0], n)) {
        LargerCacheIncludesSmallerIff(Step(small, ops[0], m), Step(large, ops[0], n), ops[1..], m, n);
      } else {
        assert ops[1..] == [] ==> !AlwaysEmbeds(Step(small, ops[0], m), Step(large, ops[0], n), ops[1..], m, n);
      }
    }
  }

  // ----- when bytes are plentiful -----

  // A full small cache is embedded in the large one; one with room left is equal to it.
  ghost predicate Included<T>(small: seq<Entry<T>>, large: seq<Entry<T>>, m: nat, n: nat) {
    && Distinct(small) && Distinct(large)
    && |small| <= m && |large| <= n
    && Embeds(small, large)
    && (|small| < m ==> small == large)
  }

  // The byte limit never binds along the trace in the large cache.
  ghost predicate BytesNeverBind<T>(large: seq<Entry<T>>, ops: seq<Op<T>>, n: Limits)
    decreases |ops|
  {
    ops == [] || (
      && (ops[0].Put? && 1 <= ops[0].size <= n.bytes ==>
           Bytes(Inserted(large, Entry(ops[0].digest, ops[0].value, ops[0].size))) <= n.bytes)
      && BytesNeverBind(Step(large, ops[0], n), ops[1..], n))
  }

  lemma CountEviction<T>(all: seq<Entry<T>>, m: nat, bytes: nat)
    requires |all| <= m + 1 && Bytes(all) <= bytes
    ensures EvictToFit(all, Limits(m, bytes)) == if |all| <= m then all else all[1..]
  {
    if |all| > m {
      assert Fits(all[1..], Limits(m, bytes));
    }
  }

  lemma GetKeepsIncluded<T>(small: seq<Entry<T>>, large: seq<Entry<T>>, m: nat, n: nat, digest: string)
    requires Included(small, large, m, n)
    ensures Included(Touched(small, digest), Touched(large, digest), m, n)
  {
    GetKeepsInclusion(small, large, digest);
    TouchedFacts(small, digest);
    TouchedFacts(large, digest);
    hide Touched, Embeds, Distinct;
  }

  lemma PlentifulPutKeepsInclusion<T>(small: seq<Entry<T>>, large: seq<Entry<T>>, m: nat, n: nat, entry: Entry<T>, bytes: nat)
    requires Included(small, large, m, n) && 1 <= m <= n
    requires Bytes(Inserted(large, entry)) <= bytes
    ensures Included(EvictToFit(Inserted(small, entry), Limits(m, bytes)), EvictToFit(Inserted(large, entry), Limits(n, bytes)), m, n)
  {
    hide EvictToFit, Without, Inserted;
    var s, l := Inserted(small, entry), Inserted(large, entry);
    InsertedFacts(small, large, m, n, entry);
    EmbedsMembers(s, l);
    CountEviction(s, m, bytes);
    CountEviction(l, n, bytes);
    DropOldestKeepsInclusion(s, l, m, n);
  }

  lemma DropOldestKeepsInclusion<T>(s: seq<Entry<T>>, l: seq<Entry<T>>, m: nat, n: nat)
    requires Distinct(s) && Distinct(l) && Embeds(s, l)
    requires 1 <= |s| <= m + 1 && 1 <= |l| <= n + 1
    requires (|l| > n ==> |s| > m) && (|s| < m ==> s == l)
    ensures Included(if |s| <= m then s else s[1..], if |l| <= n then l else l[1..], m, n)
  {
    EmbedsTail(s, l);
    hide Embeds;
  }

  // Before eviction: still embedded, and the small list is longer than its limit only if it was full.
  lemma InsertedFacts<T>(small: seq<Entry<T>>, large: seq<Entry<T>>, m: nat, n: nat, entry: Entry<T>)
    requires Included(small, large, m, n) && 1 <= m <= n
    ensures
      var s, l := Inserted(small, entry), Inserted(large, entry);
      && Distinct(s) && Distinct(l) && Embeds(s, l)
      && 1 <= |s| <= m + 1 && 1 <= |l| <= n + 1
      && (|l| > n ==> |s| > m)
      && (|s| < m ==> s == l)
  {
    InsertedEmbeds(small, large, entry);
    EmbedsMembers(small, large);
    LookupFinds(small, entry.digest);
    LookupFinds(large, entry.digest);
    WithoutFacts(small, entry.digest);
    WithoutFacts(large, entry.digest);
  }

  lemma {:induction false} PlentifulBytesKeepIncluded<T>(small: seq<Entry<T>>, large: seq<Entry<T>>, ops: seq<Op<T>>, m: Limits, n: Limits)
    requires 1 <= m.entries <= n.entries && m.bytes == n.bytes
    requires Included(small, large, m.entries, n.entries) && BytesNeverBind(large, ops, n)
    ensures AlwaysEmbeds(small, large, ops, m, n)
    decreases |ops|
  {
    if ops != [] {
      var op := ops[0];
      match op {
        case Get(digest) =>
          GetKeepsIncluded(small, large, m.entries, n.entries, digest);
        case Put(digest, value, size) =>
          if 1 <= size <= m.bytes {
            PlentifulPutKeepsInclusion(small, large, m.entries, n.entries, Entry(digest, value, size), m.bytes);
          }
        case Clear =>
      }
      PlentifulBytesKeepIncluded(Step(small, op, m), Step(large, op, n), ops[1..], m, n);
    }
  }

  // Two caches that start empty, under one byte limit: the exact condition for inclusion along
  // a trace, and a simpler one that suffices, that the byte limit never binds in the larger cache.
  lemma InclusionFromEmpty<T>(ops: seq<Op<T>>, m: Limits, n: Limits)
    requires m.bytes == n.bytes
    ensures AlwaysEmbeds([], [], ops, m, n) <==> NeededFits([], [], ops, m, n)
    ensures AlwaysEmbeds([], [], ops, m, n) ==> Hits([], ops, m) <= Hits([], ops, n)
    ensures 1 <= m.entries <= n.entries && BytesNeverBind([], ops, n) ==> AlwaysEmbeds([], [], ops, m, n)
  {
    LargerCacheIncludesSmallerIff<T>([], [], ops, m, n);
    if 1 <= m.entries <= n.entries && BytesNeverBind([], ops, n) {
      PlentifulBytesKeepIncluded<T>([], [], ops, m, n);
    }
  }

  // Under Included the larger entry limit never stands in the way: only bytes decide.
  lemma IncludedPutKeepsInclusionIff<T>(small: seq<Entry<T>>, large: seq<Entry<T>>, m: nat, n: nat, entry: Entry<T>, bytes: nat)
    requires Included(small, large, m, n) && 1 <= m <= n
    ensures Embeds(EvictToFit(Inserted(small, entry), Limits(m, bytes)), EvictToFit(Inserted(large, entry), Limits(n, bytes)))
      <==> Bytes(Needed(small, large, entry, Limits(m, bytes))) <= bytes
  {
    hide Inserted, EvictToFit, TailFrom, Embeds;
    PutKeepsInclusionIff(small, large, entry, Limits(m, bytes), Limits(n, bytes));
    InsertedFacts(small, large, m, n, entry);
    var s, l := Inserted(small, entry), Inserted(large, entry);
    var kept := EvictToFit(s, Limits(m, bytes));
    if kept != [] {
      NeededCount(s, l, kept, m, n);
    }
  }

  lemma NeededCount<T>(s: seq<Entry<T>>, l: seq<Entry<T>>, kept: seq<Entry<T>>, m: nat, n: nat)
    requires Distinct(l) && Embeds(s, l) && |l| <= n + 1 && (|l| > n ==> |s| > m)
    requires kept != [] && |kept| <= |s| && |kept| <= m && kept == s[|s| - |kept|..]
    ensures |TailFrom(l, kept[0].digest)| <= n
  {
    TailIsSuffix(l, kept[0].digest);
    if |l| > n {
      EmbedsTail(s, l);
      EmbedsSuffix(s[1..], l[1..], |s| - 1 - |kept|);
      assert s[1..][|s| - 1 - |kept|..] == kept;
      HeadIsElsewhere(kept, l);
      TailIsSuffix(l[1..], kept[0].digest);
    }
  }

  // ----- when bytes bind -----

  lemma ConsFacts<T>(e: Entry<T>, rest: seq<Entry<T>>, digest: string)
    ensures Without([e] + rest, digest) == if e.digest == digest then Without(rest, digest) else [e] + Without(rest, digest)
    ensures Bytes([e] + rest) == e.size + Bytes(rest)
  {
    assert ([e] + rest)[1..] == rest;
  }

  lemma DropOne<T>(e: Entry<T>, rest: seq<Entry<T>>, limits: Limits)
    requires !Fits([e] + rest, limits) && Fits(rest, limits)
    ensures EvictToFit([e] + rest, limits) == rest
  {
    assert ([e] + rest)[1..] == rest;
  }

  lemma Displays<T>(p: Entry<T>, q: Entry<T>, r: Entry<T>)
    ensures [p] + [q] == [p, q] && [p] + [q, r] == [p, q, r] == [p, q] + [r]
    ensures [p] + [] == [p] && [] + [p] == [p]
  {
  }

  lemma BytesOfThree<T>(p: Entry<T>, q: Entry<T>, r: Entry<T>)
    ensures Bytes([p, q]) == p.size + q.size && Bytes([p, q, r]) == p.size + q.size + r.size
  {
    Displays(p, q, r);
    Displays(q, r, r);
    Displays(r, r, r);
    ConsFacts(r, [], r.digest);
    ConsFacts(q, [r], r.digest);
    ConsFacts(p, [q, r], r.digest);
    ConsFacts(q, [], r.digest);
    ConsFacts(p, [q], r.digest);
    Displays(q, q, q);
  }

  lemma FitStays<T>(entries: seq<Entry<T>>, limits: Limits)
    requires Fits(entries, limits)
    ensures EvictToFit(entries, limits) == entries
  {
  }

  lemma RunCons<T>(entries: seq<Entry<T>>, op: Op<T>, ops: seq<Op<T>>, limits: Limits)
    ensures Run(entries, [op] + ops, limits) == Run(Step(entries, op, limits), ops, limits)
  {
    assert ([op] + ops)[1..] == ops;
  }

  function Store<T>(e: Entry<T>): Op<T> {
    Put(e.digest, e.value, e.size)
  }

  lemma RunNothing<T>(entries: seq<Entry<T>>, limits: Limits)
    ensures Run(entries, [], limits) == entries
  {
  }

  lemma {:induction false} EndEmbeds<T>(small: seq<Entry<T>>, large: seq<Entry<T>>, ops: seq<Op<T>>, m: Limits, n: Limits)
    requires AlwaysEmbeds(small, large, ops, m, n)
    ensures Embeds(Run(small, ops, m), Run(large, ops, n))
    decreases |ops|
  {
    if ops != [] {
      EndEmbeds(Step(small, ops[0], m), Step(large, ops[0], n), ops[1..], m, n);
    }
  }

  lemma NotEmbedded<T>(a: Entry<T>, y: Entry<T>, bigger: Entry<T>)
    requires a != y && a != bigger
    ensures !Embeds([a, bigger], [y, bigger])
  {
    assert a in [a, bigger];
    if Embeds([a, bigger], [y, bigger]) {
      EmbedsMembers([a, bigger], [y, bigger]);
    }
  }

  // A put of a new digest into a list from which at most the oldest entry must go.
  lemma PutNew<T>(drop: seq<Entry<T>>, keep: seq<Entry<T>>, e: Entry<T>, limits: Limits)
    requires Lookup(drop + keep, e.digest).None? && 1 <= e.size <= limits.bytes
    requires |drop| <= 1 && Fits(keep + [e], limits) && (drop == [] || !Fits(drop + keep + [e], limits))
    ensures Step(drop + keep, Store(e), limits) == keep + [e]
  {
    WithoutAbsent(drop + keep, e.digest);
    assert Inserted(drop + keep, e) == drop + keep + [e];
    if drop == [] {
      assert drop + keep + [e] == keep + [e];
      FitStays(keep + [e], limits);
    } else {
      assert drop + keep + [e] == [drop[0]] + (keep + [e]);
      DropOne(drop[0], keep + [e], limits);
    }
    hide Fits, EvictToFit, Inserted;
    assert Entry(e.digest, e.value, e.size) == e;
  }

  lemma {:induction false} Middle<T>(front: seq<Entry<T>>, e: Entry<T>, back: seq<Entry<T>>)
    requires Distinct(front + [e] + back)
    ensures Lookup(front + [e] + back, e.digest) == Some(e) && Without(front + [e] + back, e.digest) == front + back
  {
    var all := front + [e] + back;
    if front == [] {
      assert all[1..] == back && all[0] == e;
      LookupFinds(back, e.digest);
      WithoutAbsent(back, e.digest);
    } else {
      assert all[1..] == front[1..] + [e] + back;
      assert all[|front|] == e;
      Middle(front[1..], e, back);
      assert [front[0]] + (front[1..] + back) == front + back;
    }
  }

  lemma PutAgain<T>(front: seq<Entry<T>>, previous: Entry<T>, back: seq<Entry<T>>, e: Entry<T>)
    requires Distinct(front + [previous] + back) && previous.digest == e.digest
    ensures Inserted(front + [previous] + back, e) == front + back + [e]
  {
    Middle(front, previous, back);
  }

  lemma Absent<T>(entries: seq<Entry<T>>, digest: string)
    requires forall i :: 0 <= i < |entries| ==> entries[i].digest != digest
    ensures Lookup(entries, digest).None?
  {
    LookupFinds(entries, digest);
  }

  lemma TouchOne<T>(front: seq<Entry<T>>, e: Entry<T>, back: seq<Entry<T>>, limits: Limits)
    requires Distinct(front + [e] + back)
    ensures Step(front + [e] + back, Get(e.digest), limits) == front + back + [e]
  {
    Middle(front, e, back);
  }

  ghost predicate Example<T>(a: Entry<T>, y: Entry<T>, x: Entry<T>, bigger: Entry<T>) {
    && a.size == x.size == 1 && y.size == bigger.size == 2 && bigger.digest == x.digest
    && a.digest != x.digest && a.digest != y.digest && y.digest != x.digest
  }

  lemma FirstPuts<T>(a: Entry<T>, y: Entry<T>, x: Entry<T>, bigger: Entry<T>, limits: Limits)
    requires Example(a, y, x, bigger) && limits.entries >= 2 && limits.bytes == 4
    ensures Step([], Store(y), limits) == [y] && Step([y], Store(a), limits) == [y, a]
  {
    BytesOfThree(y, a, a);
    Absent<T>([], y.digest);
    Absent([y], a.digest);
    ConsFacts(y, [], a.digest);
    hide Without, EvictToFit, Bytes, Lookup, Step;
    assert [] + [y] == [y] && [] + [] + [y] == [y] && [y] + [a] == [y, a] && [y] + [] == [y];
    var none: seq<Entry<T>> := [];
    assert none + none == none && Fits([y], limits);
    PutNew([], [], y, limits);
    PutNew([], [y], a, limits);
  }

  lemma ThirdPut<T>(a: Entry<T>, y: Entry<T>, x: Entry<T>, bigger: Entry<T>)
    requires Example(a, y, x, bigger)
    ensures Step([y, a], Store(x), Limits(2, 4)) == [a, x] && Step([y, a], Store(x), Limits(3, 4)) == [y, a, x]
  {
    BytesOfThree(y, a, x);
    BytesOfThree(a, x, x);
    Absent([y, a], x.digest);
    Displays(y, a, x);
    Displays(a, x, x);
    hide Without, EvictToFit, Bytes, Lookup, Step;
    assert [] + [y, a] == [y, a];
    PutNew([y], [a], x, Limits(2, 4));
    PutNew([], [y, a], x, Limits(3, 4));
  }

  lemma SmallGets<T>(a: Entry<T>, y: Entry<T>, x: Entry<T>, bigger: Entry<T>)
    requires Example(a, y, x, bigger)
    ensures Step([a, x], Get(y.digest), Limits(2, 4)) == [a, x] && Step([a, x], Get(x.digest), Limits(2, 4)) == [a, x]
  {
    Absent([a, x], y.digest);
    assert [a] + [x] + [] == [a, x] && [a] + [] + [x] == [a, x];
    hide Without, Lookup;
    TouchOne([a], x, [], Limits(2, 4));
  }

  lemma LargeGets<T>(a: Entry<T>, y: Entry<T>, x: Entry<T>, bigger: Entry<T>)
    requires Example(a, y, x, bigger)
    ensures Step([y, a, x], Get(y.digest), Limits(3, 4)) == [a, x, y]
    ensures Step([a, x, y], Get(x.digest), Limits(3, 4)) == [a, y, x]
  {
    hide Without, Lookup, Step;
    assert [] + [y] + [a, x] == [y, a, x] && [] + [a, x] + [y] == [a, x, y];
    TouchOne([], y, [a, x], Limits(3, 4));
    assert [a] + [x] + [y] == [a, x, y] && [a] + [y] + [x] == [a, y, x];
    TouchOne([a], x, [y], Limits(3, 4));
  }

  lemma SmallLastPut<T>(a: Entry<T>, y: Entry<T>, x: Entry<T>, bigger: Entry<T>)
    requires Example(a, y, x, bigger)
    ensures Step([a, x], Store(bigger), Limits(2, 4)) == [a, bigger]
  {
    BytesOfThree(a, bigger, bigger);
    hide Without, EvictToFit, Bytes, Lookup, Inserted;
    assert [a] + [x] + [] == [a, x] && [a] + [] + [bigger] == [a, bigger];
    PutAgain([a], x, [], bigger);
    FitStays([a, bigger], Limits(2, 4));
  }

  lemma LargeLastPut<T>(a: Entry<T>, y: Entry<T>, x: Entry<T>, bigger: Entry<T>)
    requires Example(a, y, x, bigger)
    ensures Step([a, y, x], Store(bigger), Limits(3, 4)) == [y, bigger]
  {
    BytesOfThree(a, y, bigger);
    BytesOfThree(y, bigger, bigger);
    hide Without, EvictToFit, Bytes, Lookup, Inserted;
    assert [a, y] + [x] + [] == [a, y, x] && [a, y] + [] + [bigger] == [a, y, bigger];
    PutAgain([a, y], x, [], bigger);
    Displays(a, y, bigger);
    DropOne(a, [y, bigger], Limits(3, 4));
  }

  // Two caches with two and three entries and the same four bytes, both empty at first: replacing x
  // by a larger value makes the larger cache drop an entry that the smaller one keeps.
  lemma ByteLimitCanBreakInclusion<T>(a: Entry<T>, y: Entry<T>, x: Entry<T>, bigger: Entry<T>)
    requires Example(a, y, x, bigger)
    ensures
      var ops := [Store(y)] + ([Store(a)] + ([Store(x)] + ([Get(y.digest)] + ([Get(x.digest)] + ([Store(bigger)] + [])))));
      && Run([], ops, Limits(2, 4)) == [a, bigger]
      && Run([], ops, Limits(3, 4)) == [y, bigger]
      && a != y && a != bigger
      && !AlwaysEmbeds([], [], ops, Limits(2, 4), Limits(3, 4))
  {
    hide Without, Bytes, EvictToFit, Lookup, AlwaysEmbeds, Embeds, Run;
    var p6: seq<Op<T>> := [Store(bigger)] + [];
    var p5 := [Get(x.digest)] + p6;
    var p4 := [Get(y.digest)] + p5;
    var p3 := [Store(x)] + p4;
    var p2 := [Store(a)] + p3;
    var p1 := [Store(y)] + p2;
    var m, n := Limits(2, 4), Limits(3, 4);
    FirstPuts(a, y, x, bigger, m);
    FirstPuts(a, y, x, bigger, n);
    ThirdPut(a, y, x, bigger);
    SmallGets(a, y, x, bigger);
    LargeGets(a, y, x, bigger);
    SmallLastPut(a, y, x, bigger);
    LargeLastPut(a, y, x, bigger);
    hide Step;
    RunCons([], Store(y), p2, m);
    RunCons([y], Store(a), p3, m);
    RunCons([y, a], Store(x), p4, m);
    RunCons([a, x], Get(y.digest), p5, m);
    RunCons([a, x], Get(x.digest), p6, m);
    RunCons([a, x], Store(bigger), [], m);
    RunNothing([a, bigger], m);
    RunCons([], Store(y), p2, n);
    RunCons([y], Store(a), p3, n);
    RunCons([y, a], Store(x), p4, n);
    RunCons([y, a, x], Get(y.digest), p5, n);
    RunCons([a, x, y], Get(x.digest), p6, n);
    RunCons([a, y, x], Store(bigger), [], n);
    RunNothing([y, bigger], n);
    NotEmbedded(a, y, bigger);
    if AlwaysEmbeds([], [], p1, m, n) {
      EndEmbeds<T>([], [], p1, m, n);
    }
  }

  // ----- requests that compute what they miss -----

  // A get_or_compute, or a clear.
  datatype Request = Fetch(digest: string) | Flush

  // value and size say what computing a digest's entry gives.
  datatype Source<!T> = Source(value: string -> T, size: string -> int) {
    function EntryOf(digest: string): Op<T> {
      Put(digest, value(digest), size(digest))
    }

    ghost predicate Covers(entries: seq<Entry<T>>, limits: Limits) {
      forall i :: 0 <= i < |entries| ==>
        entries[i].value == value(entries[i].digest) && 1 <= entries[i].size == size(entries[i].digest) <= limits.bytes
    }
  }

  function Served<T>(entries: seq<Entry<T>>, request: Request, source: Source<T>, limits: Limits): seq<Entry<T>> {
    match request
    case Fetch(digest) =>
      if Lookup(entries, digest).Some? then Touched(entries, digest) else Step(entries, source.EntryOf(digest), limits)
    case Flush => []
  }

  function ServedHit<T>(entries: seq<Entry<T>>, request: Request): nat {
    if request.Fetch? && Lookup(entries, request.digest).Some? then 1 else 0
  }

  function Serve<T>(entries: seq<Entry<T>>, requests: seq<Request>, source: Source<T>, limits: Limits): seq<Entry<T>>
    decreases |requests|
  {
    if requests == [] then entries else Serve(Served(entries, requests[0], source, limits), requests[1..], source, limits)
  }

  function ServedHits<T>(entries: seq<Entry<T>>, requests: seq<Request>, source: Source<T>, limits: Limits): nat
    decreases |requests|
  {
    if requests == [] then 0
    else ServedHit(entries, requests[0]) + ServedHits(Served(entries, requests[0], source, limits), requests[1..], source, limits)
  }

  // The smaller cache holds the most recent entries of the larger one.
  ghost predicate Nested<T>(small: seq<Entry<T>>, large: seq<Entry<T>>) {
    |small| <= |large| && small == large[|large| - |small|..]
  }

  ghost predicate Sound<T>(entries: seq<Entry<T>>, source: Source<T>, limits: Limits) {
    Distinct(entries) && Fits(entries, limits) && source.Covers(entries, limits)
  }

  lemma {:induction false} WithoutConcat<T>(a: seq<Entry<T>>, b: seq<Entry<T>>, digest: string)
    ensures Without(a + b, digest) == Without(a, digest) + Without(b, digest)
  {
    if a == [] {
      assert a + b == b;
    } else {
      assert (a + b)[1..] == a[1..] + b;
      WithoutConcat(a[1..], b, digest);
    }
  }

  lemma {:induction false} LookupConcat<T>(a: seq<Entry<T>>, b: seq<Entry<T>>, digest: string)
    ensures Lookup(a + b, digest) == if Lookup(a, digest).Some? then Lookup(a, digest) else Lookup(b, digest)
  {
    if a == [] {
      assert a + b == b;
    } else {
      assert (a + b)[1..] == a[1..] + b;
      LookupConcat(a[1..], b, digest);
    }
  }

  lemma NestedSplit<T>(small: seq<Entry<T>>, large: seq<Entry<T>>) returns (older: seq<Entry<T>>)
    requires Nested(small, large)
    ensures large == older + small
  {
    older := large[..|large| - |small|];
  }

  lemma NestedJoin<T>(older: seq<Entry<T>>, small: seq<Entry<T>>)
    ensures Nested(small, older + small)
  {
  }

  // A stretch that fits and is the end of a list stays the end of what eviction keeps of the list.
  lemma EvictKeepsNested<T>(small: seq<Entry<T>>, large: seq<Entry<T>>, m: Limits, n: Limits)
    requires Nested(small, large) && m.entries <= n.entries && m.bytes == n.bytes
    ensures Nested(EvictToFit(small, m), large) && Nested(EvictToFit(small, m), EvictToFit(large, n))
  {
    hide EvictToFit, Bytes;
    var kept, all := EvictToFit(small, m), EvictToFit(large, n);
    assert kept == large[|large| - |kept|..];
    EvictKeepsLongestSuffix(large, n, |large| - |kept|);
    assert all == large[|large| - |all|..];
  }

  lemma LookupOnce<T>(older: seq<Entry<T>>, small: seq<Entry<T>>, digest: string)
    requires Distinct(older + small) && Lookup(small, digest).Some?
    ensures Lookup(older, digest).None?
  {
    LookupFinds(older, digest);
    LookupFinds(small, digest);
    var j :| 0 <= j < |small| && small[j].digest == digest;
    assert (older + small)[|older| + j].digest == digest;
    assert forall i :: 0 <= i < |older| ==> (older + small)[i] == older[i];
  }

  lemma HitKeepsNested<T>(older: seq<Entry<T>>, small: seq<Entry<T>>, digest: string)
    requires Distinct(older + small) && Lookup(small, digest).Some?
    ensures Lookup(older + small, digest).Some? && Nested(Touched(small, digest), Touched(older + small, digest))
  {
    LookupOnce(older, small, digest);
    LookupConcat(older, small, digest);
    WithoutConcat(older, small, digest);
    WithoutAbsent(older, digest);
    hide Without, Lookup;
    var e, rest := Lookup(small, digest).value, Without(small, digest);
    assert older + rest + [e] == older + (rest + [e]);
    NestedJoin(older, rest + [e]);
  }

  lemma OlderHitKeepsNested<T>(older: seq<Entry<T>>, small: seq<Entry<T>>, e: Entry<T>, m: Limits, n: Limits)
    requires Lookup(small, e.digest).None? && Lookup(older, e.digest) == Some(e)
    requires m.entries <= n.entries && m.bytes == n.bytes
    ensures Nested(EvictToFit(Inserted(small, e), m), Touched(older + small, e.digest))
  {
    LookupConcat(older, small, e.digest);
    WithoutConcat(older, small, e.digest);
    WithoutAbsent(small, e.digest);
    hide Without, Lookup, EvictToFit;
    var rest := Without(older, e.digest);
    assert rest + small + [e] == rest + (small + [e]);
    NestedJoin(rest, small + [e]);
    EvictKeepsNested(small + [e], rest + (small + [e]), m, n);
  }

  lemma MissKeepsNested<T>(older: seq<Entry<T>>, small: seq<Entry<T>>, e: Entry<T>, m: Limits, n: Limits)
    requires Lookup(older + small, e.digest).None? && m.entries <= n.entries && m.bytes == n.bytes
    ensures Lookup(small, e.digest).None?
    ensures Nested(EvictToFit(Inserted(small, e), m), EvictToFit(Inserted(older + small, e), n))
  {
    LookupConcat(older, small, e.digest);
    WithoutAbsent(small, e.digest);
    WithoutAbsent(older + small, e.digest);
    hide Without, Lookup, EvictToFit;
    assert older + small + [e] == older + (small + [e]);
    NestedJoin(older, small + [e]);
    EvictKeepsNested(small + [e], older + (small + [e]), m, n);
  }

  // What a source's entry is, wherever it is stored.
  lemma StoredIsSources<T>(entries: seq<Entry<T>>, digest: string, source: Source<T>, limits: Limits)
    requires source.Covers(entries, limits) && Lookup(entries, digest).Some?
    ensures 1 <= source.size(digest) <= limits.bytes
    ensures Lookup(entries, digest).value == Entry(digest, source.value(digest), source.size(digest))
  {
    LookupFinds(entries, digest);
  }

  lemma NestedHits<T>(small: seq<Entry<T>>, large: seq<Entry<T>>, digest: string)
    requires Nested(small, large)
    ensures ServedHit(small, Fetch(digest)) <= ServedHit(large, Fetch(digest))
  {
    var older := NestedSplit(small, large);
    LookupConcat(older, small, digest);
    hide Lookup;
  }

  lemma FetchKeepsNested<T>(small: seq<Entry<T>>, large: seq<Entry<T>>, digest: string, source: Source<T>, m: Limits, n: Limits)
    requires Nested(small, large) && m.entries <= n.entries && m.bytes == n.bytes
    requires Distinct(large) && source.Covers(large, n)
    ensures Nested(Served(small, Fetch(digest), source, m), Served(large, Fetch(digest), source, n))
  {
    hide ServedHit, Without, Bytes;
    var older := NestedSplit(small, large);
    LookupConcat(older, small, digest);
    hide Touched, EvictToFit, Inserted, Lookup, Distinct, Nested;
    if Lookup(small, digest).Some? {
      HitKeepsNested(older, small, digest);
    } else if Lookup(large, digest).Some? {
      StoredIsSources(large, digest, source, n);
      OlderHitKeepsNested(older, small, Lookup(large, digest).value, m, n);
    } else if 1 <= source.size(digest) <= n.bytes {
      MissKeepsNested(older, small, Entry(digest, source.value(digest), source.size(digest)), m, n);
    }
  }

  lemma FetchKeepsSound<T>(entries: seq<Entry<T>>, digest: string, source: Source<T>, limits: Limits)
    requires Sound(entries, source, limits)
    ensures Sound(Served(entries, Fetch(digest), source, limits), source, limits)
  {
    var after := Served(entries, Fetch(digest), source, limits);
    StepKeepsShape(entries, if Lookup(entries, digest).Some? then Get(digest) else source.EntryOf(digest), limits);
    TouchedFacts(entries, digest);
    hide Touched, EvictToFit, Lookup, Distinct, Fits;
    forall i | 0 <= i < |after|
      ensures after[i].value == source.value(after[i].digest) && 1 <= after[i].size == source.size(after[i].digest) <= limits.bytes
    {
      if Lookup(entries, digest).Some? {
        assert after[i] in multiset(after);
        assert after[i] in multiset(entries);
      } else {
        StepStoresOnly(entries, source.EntryOf(digest), limits, after[i]);
      }
    }
  }

  // Nesting: when every stored value and size is the one its digest computes to, a cache with
  // fewer entries and the same byte limit always holds the most recent entries of the larger one,
  // whatever the limits and the trace, and hits no more often.
  lemma {:induction false} ComputedCachesNest<T>(
      small: seq<Entry<T>>, large: seq<Entry<T>>, requests: seq<Request>, source: Source<T>, m: Limits, n: Limits)
    requires m.entries <= n.entries && m.bytes == n.bytes
    requires Nested(small, large) && Sound(small, source, m) && Sound(large, source, n)
    ensures Nested(Serve(small, requests, source, m), Serve(large, requests, source, n))
    ensures ServedHits(small, requests, source, m) <= ServedHits(large, requests, source, n)
    decreases |requests|
  {
    if requests != [] {
      match requests[0] {
        case Fetch(digest) =>
          NestedHits(small, large, digest);
          FetchKeepsNested(small, large, digest, source, m, n);
          FetchKeepsSound(small, digest, source, m);
          FetchKeepsSound(large, digest, source, n);
        case Flush =>
      }
      hide Nested, Sound, ServedHit;
      FlushIsNested(source, m, n);
      ComputedCachesNest(Served(small, requests[0], source, m), Served(large, requests[0], source, n), requests[1..], source, m, n);
    }
  }

  lemma FlushIsNested<T>(source: Source<T>, m: Limits, n: Limits)
    ensures Nested<T>([], []) && Sound([], source, m) && Sound([], source, n)
    ensures ServedHit<T>([], Flush) == 0
  {
  }
}
