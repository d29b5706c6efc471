// Memory-pressure planning: which backend-owned states to shrink and which to evict.
module AdaptiveStateAllocation {
  import opened Results

  const MAXIMUM_RECORDS := 65_536

  datatype Precision = FP32 | BF16 | FP16 | INT8 {
    function Width(): nat {
      match this
      case FP32 => 4
      case BF16 => 2
      case FP16 => 2
      case INT8 => 1
    }

    // Position in the order by width, then by name.
    function Rank(): nat {
      match this
      case INT8 => 0
      case BF16 => 1
      case FP16 => 2
      case FP32 => 3
    }
  }

  datatype Record = Record(
    id: string,
    residentBytes: nat,
    ageSeconds: real,
    precision: Precision,
    promoted: seq<Precision>,
    pinned: bool)
  {
    predicate Valid() {
      && 1 <= |id| <= 256
      && 1 <= residentBytes <= 0x100_0000_0000
      && 0.0 <= ageSeconds <= 31_536_000.0
      && precision in promoted
    }
  }

  datatype Pressure = Normal | Warning | Critical | Unknown

  datatype Verdict = Retain | Reprecision(target: Precision) | Evict

  datatype Action = Action(id: string, verdict: Verdict, source: Precision, sourceBytes: nat, targetBytes: nat, reason: string)

  datatype Plan = Plan(pressure: Pressure, sourceBytes: nat, targetBytes: nat, actions: seq<Action>)

  datatype PlanError = InvalidAllocationInput

  // ----- the oldest-first order -----

  predicate LexLessEqual(a: string, b: string) {
    a == "" || (b != "" && (a[0] < b[0] || (a[0] == b[0] && LexLessEqual(a[1..], b[1..]))))
  }

  lemma {:induction false} LexTotal(a: string, b: string)
    ensures LexLessEqual(a, b) || LexLessEqual(b, a)
    ensures LexLessEqual(a, b) && LexLessEqual(b, a) ==> a == b
  {
    if a != "" && b != "" && a[0] == b[0] {
      LexTotal(a[1..], b[1..]);
      assert a == [a[0]] + a[1..] && b == [b[0]] + b[1..];
    }
  }

  lemma {:induction false} LexTransitive(a: string, b: string, c: string)
    requires LexLessEqual(a, b) && LexLessEqual(b, c)
    ensures LexLessEqual(a, c)
  {
    if a != "" && a[0] == b[0] == c[0] {
      LexTransitive(a[1..], b[1..], c[1..]);
    }
  }

  predicate NotYounger(a: Record, b: Record) {
    a.ageSeconds > b.ageSeconds || (a.ageSeconds == b.ageSeconds && LexLessEqual(a.id, b.id))
  }

  ghost predicate Sorted(s: seq<Record>) {
    forall i, j :: 0 <= i < j < |s| ==> NotYounger(s[i], s[j])
  }

  ghost predicate DistinctIds(s: seq<Record>) {
    forall i, j :: 0 <= i < j < |s| ==> s[i].id != s[j].id
  }

  // The order as the planner promises it: by age, then by the identifiers' code points.
  lemma {:induction false} LexMeaning(a: string, b: string, n: nat)
    requires n <= |a| && n <= |b| && a[..n] == b[..n]
    ensures n == |a| ==> LexLessEqual(a, b)
    ensures n == |b| && n < |a| ==> !LexLessEqual(a, b)
    ensures n < |a| && n < |b| && a[n] != b[n] ==> (LexLessEqual(a, b) <==> a[n] < b[n])
    decreases n
  {
    if n > 0 {
      assert a[0] == a[..n][0] == b[..n][0] == b[0];
      assert a[1..][..n - 1] == a[..n][1..] == b[..n][1..] == b[1..][..n - 1];
      LexMeaning(a[1..], b[1..], n - 1);
    }
  }

  function Insert(r: Record, s: seq<Record>): seq<Record> {
    if s == [] || NotYounger(r, s[0]) then [r] + s else [s[0]] + Insert(r, s[1..])
  }

  // The stable order by descending age, then by identifier.
  function OldestFirst(s: seq<Record>): seq<Record> {
    if s == [] then [] else Insert(s[0], OldestFirst(s[1..]))
  }

  lemma {:induction false} InsertKeepsElements(r: Record, s: seq<Record>)
    ensures multiset(Insert(r, s)) == multiset(s) + multiset{r}
  {
    if !(s == [] || NotYounger(r, s[0])) {
      InsertKeepsElements(r, s[1..]);
      assert s == [s[0]] + s[1..];
    }
  }

  lemma {:induction false} InsertSorts(r: Record, s: seq<Record>)
    requires Sorted(s)
    ensures Sorted(Insert(r, s))
  {
    hide LexLessEqual;
    if s == [] {
    } else if NotYounger(r, s[0]) {
      forall j | 0 <= j < |s| ensures NotYounger(r, s[j]) {
        if j > 0 && r.ageSeconds == s[0].ageSeconds == s[j].ageSeconds {
          LexTransitive(r.id, s[0].id, s[j].id);
        }
      }
    } else {
      var rest := Insert(r, s[1..]);
      InsertSorts(r, s[1..]);
      InsertKeepsElements(r, s[1..]);
      LexTotal(r.id, s[0].id);
      forall j | 0 <= j < |rest| ensures NotYounger(s[0], rest[j]) {
        assert rest[j] in multiset(rest);
        assert rest[j] == r || rest[j] in s[1..];
      }
    }
  }

  lemma {:induction false} OldestFirstSorts(s: seq<Record>)
    ensures Sorted(OldestFirst(s)) && multiset(OldestFirst(s)) == multiset(s)
  {
    if s != [] {
      OldestFirstSorts(s[1..]);
      InsertSorts(s[0], OldestFirst(s[1..]));
      InsertKeepsElements(s[0], OldestFirst(s[1..]));
      assert s == [s[0]] + s[1..];
    }
  }

  lemma SameOldest(s: seq<Record>, t: seq<Record>)
    requires Sorted(s) && Sorted(t) && DistinctIds(s) && multiset(s) == multiset(t) && s != [] && t != []
    ensures s[0] == t[0]
  {
    assert s[0] in multiset(t) && t[0] in multiset(s);
    var i :| 0 <= i < |t| && t[i] == s[0];
    var j :| 0 <= j < |s| && s[j] == t[0];
    LexTotal(s[0].id, t[0].id);
  }

  // With distinct identifiers there is only one sorted order.
  lemma {:induction false} SortedOrderIsUnique(s: seq<Record>, t: seq<Record>)
    requires Sorted(s) && Sorted(t) && DistinctIds(s) && multiset(s) == multiset(t)
    ensures s == t
  {
    hide LexLessEqual;
    assert |multiset(s)| == |s| && |multiset(t)| == |t|;
    if s != [] {
      SameOldest(s, t);
      TailMultiset(s);
      TailMultiset(t);
      SortedOrderIsUnique(s[1..], t[1..]);
      assert s == [s[0]] + s[1..] && t == [t[0]] + t[1..];
    }
  }

  lemma TailMultiset(s: seq<Record>)
    requires s != []
    ensures multiset(s[1..]) == multiset(s) - multiset{s[0]}
  {
    assert s == [s[0]] + s[1..];
  }

  function Unpinned(s: seq<Record>): seq<Record> {
    if s == [] then [] else (if s[0].pinned then [] else [s[0]]) + Unpinned(s[1..])
  }

  lemma {:induction false} UnpinnedElements(s: seq<Record>, r: Record)
    ensures multiset(Unpinned(s))[r] == if r.pinned then 0 else multiset(s)[r]
    ensures r in Unpinned(s) <==> r in s && !r.pinned
  {
    if s != [] {
      UnpinnedElements(s[1..], r);
      assert s == [s[0]] + s[1..];
    }
  }

  lemma UnpinnedRespectsMultiset(s: seq<Record>, t: seq<Record>)
    requires multiset(s) == multiset(t)
    ensures multiset(Unpinned(s)) == multiset(Unpinned(t))
  {
    forall r: Record ensures multiset(Unpinned(s))[r] == multiset(Unpinned(t))[r] {
      UnpinnedElements(s, r);
      UnpinnedElements(t, r);
    }
  }

  // The records the planner may touch, oldest first.
  function Candidates(records: seq<Record>): seq<Record> {
    OldestFirst(Unpinned(records))
  }

  ghost predicate NoDuplicates(s: seq<Record>) {
    forall i, j :: 0 <= i < j < |s| ==> s[i] != s[j]
  }

  lemma DistinctMeansOnce(s: seq<Record>)
    ensures NoDuplicates(s) <==> forall r :: multiset(s)[r] <= 1
  {
    if NoDuplicates(s) {
      forall r ensures multiset(s)[r] <= 1 {
        AtMostOnce(s, r);
      }
    } else {
      var i, j :| 0 <= i < j < |s| && s[i] == s[j];
      assert s == s[..i] + [s[i]] + s[i + 1..j] + [s[j]] + s[j + 1..];
      assert multiset(s)[s[i]] >= 2;
    }
  }

  lemma {:induction false} AtMostOnce(s: seq<Record>, r: Record)
    requires NoDuplicates(s)
    ensures multiset(s)[r] <= 1
  {
    if s != [] {
      AtMostOnce(s[1..], r);
      assert s == [s[0]] + s[1..];
      if s[0] == r {
        assert r !in s[1..];
      }
    }
  }

  lemma DistinctIdsByElements(s: seq<Record>)
    ensures DistinctIds(s) <==> NoDuplicates(s) && forall a, b :: a in s && b in s && a.id == b.id ==> a == b
  {
    if DistinctIds(s) {
      forall a, b | a in s && b in s && a.id == b.id ensures a == b {
        var i :| 0 <= i < |s| && s[i] == a;
        var j :| 0 <= j < |s| && s[j] == b;
      }
    }
  }

  lemma CandidatesFacts(records: seq<Record>)
    requires DistinctIds(records)
    ensures Sorted(Candidates(records)) && DistinctIds(Candidates(records))
    ensures forall r :: r in Candidates(records) <==> r in records && !r.pinned
    ensures multiset(Candidates(records)) == multiset(Unpinned(records))
  {
    var cands := Candidates(records);
    OldestFirstSorts(Unpinned(records));
    forall r ensures r in cands <==> r in records && !r.pinned {
      UnpinnedElements(records, r);
      assert r in cands <==> r in multiset(cands);
    }
    DistinctMeansOnce(records);
    forall r ensures multiset(cands)[r] <= 1 {
      UnpinnedElements(records, r);
      assert NoDuplicates(records);
    }
    DistinctMeansOnce(cands);
    DistinctIdsByElements(records);
    DistinctIdsByElements(cands);
  }

  // ----- one record -----

  function Narrowest(promoted: seq<Precision>): (best: Precision)
    requires promoted != []
    ensures best in promoted && forall p :: p in promoted ==> best.Rank() <= p.Rank()
  {
    if |promoted| == 1 then promoted[0] else
      var rest := Narrowest(promoted[1..]);
      assert promoted == [promoted[0]] + promoted[1..];
      if promoted[0].Rank() <= rest.Rank() then promoted[0] else rest
  }

  // int8 is narrower than the rest, and the half precisions are narrower than fp32.
  predicate Narrower(a: Precision, b: Precision) {
    (a.INT8? && !b.INT8?) || (!a.FP32? && b.FP32?)
  }

  // t is the narrowest promoted precision, bf16 before fp16, and b the bytes r takes in it: a quarter
  // or a half of its bytes rounded down, but at least one.
  predicate ShrinksTo(r: Record, t: Precision, b: nat) {
    && t in r.promoted && Narrower(t, r.precision)
    && (t.INT8? || (INT8 !in r.promoted && (t.BF16? || BF16 !in r.promoted)))
    && var parts := if r.precision.FP32? && t.INT8? then 4 else 2;
       b >= 1 && r.residentBytes < parts * (b + 1) && (parts * b <= r.residentBytes || b == 1)
  }

  predicate Reducible(r: Record)
    requires r.Valid()
    ensures Reducible(r) <==> exists p :: p in r.promoted && Narrower(p, r.precision)
  {
    assert forall p :: p in r.promoted && Narrower(p, r.precision) ==> Narrowest(r.promoted).Rank() <= p.Rank();
    Narrowest(r.promoted).Width() < r.precision.Width()
  }

  function ReducedBytes(r: Record): (size: nat)
    requires r.Valid()
    ensures 1 <= size <= r.residentBytes
  {
    var target, current := Narrowest(r.promoted).Width(), r.precision.Width();
    if target >= current then r.residentBytes else
      ScaleDown(r.residentBytes, target, current);
      if r.residentBytes * target / current > 1 then r.residentBytes * target / current else 1
  }

  lemma ShrunkBytes(r: Record)
    requires r.Valid()
    ensures Reducible(r) ==> ShrinksTo(r, Narrowest(r.promoted), ReducedBytes(r))
    ensures !Reducible(r) ==> ReducedBytes(r) == r.residentBytes
  {
    var t := Narrowest(r.promoted);
    assert INT8 in r.promoted ==> t.Rank() <= INT8.Rank();
    assert BF16 in r.promoted ==> t.Rank() <= BF16.Rank();
  }

  lemma ScaleDown(bytes: nat, target: nat, current: nat)
    requires target in {1, 2} && current in {2, 4} && target < current
    ensures 0 <= bytes * target / current <= bytes
  {
  }

  ghost predicate AllValid(records: seq<Record>) {
    forall i :: 0 <= i < |records| ==> records[i].Valid()
  }

  // ----- sums over records -----

  function SumBy(s: seq<Record>, weight: Record -> nat): nat {
    if s == [] then 0 else weight(s[0]) + SumBy(s[1..], weight)
  }

  lemma {:induction false} SumByConcat(s: seq<Record>, t: seq<Record>, weight: Record -> nat)
    ensures SumBy(s + t, weight) == SumBy(s, weight) + SumBy(t, weight)
  {
    if s == [] {
      assert s + t == t;
    } else {
      SumByConcat(s[1..], t, weight);
      assert (s + t)[1..] == s[1..] + t;
    }
  }

  lemma {:induction false} SumByPermutation(s: seq<Record>, t: seq<Record>, weight: Record -> nat)
    requires multiset(s) == multiset(t)
    ensures SumBy(s, weight) == SumBy(t, weight)
  {
    assert |multiset(s)| == |s| && |multiset(t)| == |t|;
    if s != [] {
      assert s[0] in multiset(t);
      var i :| 0 <= i < |t| && t[i] == s[0];
      var rest := t[..i] + t[i + 1..];
      assert t == t[..i] + ([t[i]] + t[i + 1..]);
      SumByConcat(t[..i], [t[i]] + t[i + 1..], weight);
      SumByConcat(t[..i], t[i + 1..], weight);
      TailMultiset(s);
      assert multiset(rest) == multiset(t) - multiset{t[i]};
      SumByPermutation(s[1..], rest, weight);
    }
  }

  lemma {:induction false} SumByCongruence(s: seq<Record>, f: Record -> nat, g: Record -> nat)
    requires forall r :: r in s ==> f(r) == g(r)
    ensures SumBy(s, f) == SumBy(s, g)
  {
    if s != [] {
      SumByCongruence(s[1..], f, g);
    }
  }

  // Changing the weight of one record changes the sum by as much.
  lemma {:induction false} SumByChange(s: seq<Record>, f: Record -> nat, g: Record -> nat, r: Record)
    requires DistinctIds(s) && r in s && forall x :: x in s && x != r ==> f(x) == g(x)
    ensures SumBy(s, f) + g(r) == SumBy(s, g) + f(r)
  {
    if s[0] == r {
      SumByCongruence(s[1..], f, g);
    } else {
      assert r in s[1..];
      SumByChange(s[1..], f, g, r);
    }
  }

  function SourceBytes(records: seq<Record>): nat {
    SumBy(records, (r: Record) => r.residentBytes)
  }

  // ----- the plan in closed form -----

  function Limit(source: nat, pressure: Pressure): nat {
    match pressure
    case Warning => source * 3 / 4
    case Critical => source / 2
    case _ => source
  }

  // What remains of r when the records in `shrunk` are shrunk and those in `evicted` are gone.
  function Remaining(r: Record, shrunk: seq<Record>, evicted: seq<Record>): nat {
    if r in evicted then 0
    else if r in shrunk && r.Valid() then ReducedBytes(r)
    else r.residentBytes
  }

  // The bytes left when the i oldest candidates are shrunk and the j oldest are evicted.
  function BytesLeft(records: seq<Record>, i: nat, j: nat): nat
    requires i <= |Candidates(records)| && j <= |Candidates(records)|
  {
    var c := Candidates(records);
    SumBy(records, r => Remaining(r, c[..i], c[..j]))
  }

  // How many candidates the first pass visits: as few as bring the total within the limit.
  function ShrinkCount(records: seq<Record>, limit: nat, i: nat): (n: nat)
    requires i <= |Candidates(records)|
    ensures i <= n <= |Candidates(records)|
    ensures n < |Candidates(records)| ==> BytesLeft(records, n, 0) <= limit
    decreases |Candidates(records)| - i
  {
    if i == |Candidates(records)| || BytesLeft(records, i, 0) <= limit then i else ShrinkCount(records, limit, i + 1)
  }

  // How many candidates the second pass evicts.
  function EvictCount(records: seq<Record>, limit: nat, j: nat): (n: nat)
    requires j <= |Candidates(records)|
    ensures j <= n <= |Candidates(records)|
    ensures n < |Candidates(records)| ==> BytesLeft(records, |Candidates(records)|, n) <= limit
    decreases |Candidates(records)| - j
  {
    if j == |Candidates(records)| || BytesLeft(records, |Candidates(records)|, j) <= limit then j
    else EvictCount(records, limit, j + 1)
  }

  lemma {:induction false} ShrinkCountIsLeast(records: seq<Record>, limit: nat, i: nat, m: nat)
    requires i <= |Candidates(records)| && i <= m < ShrinkCount(records, limit, i)
    ensures BytesLeft(records, m, 0) > limit
    decreases m - i
  {
    if i < m {
      ShrinkCountIsLeast(records, limit, i + 1, m);
    }
  }

  lemma {:induction false} EvictCountIsLeast(records: seq<Record>, limit: nat, j: nat, m: nat)
    requires j <= |Candidates(records)| && j <= m < EvictCount(records, limit, j)
    ensures BytesLeft(records, |Candidates(records)|, m) > limit
    decreases m - j
  {
    if j < m {
      EvictCountIsLeast(records, limit, j + 1, m);
    }
  }

  function Shrunk(records: seq<Record>, pressure: Pressure): nat {
    ShrinkCount(records, Limit(SourceBytes(records), pressure), 0)
  }

  function Evicted(records: seq<Record>, pressure: Pressure): (n: nat)
    ensures n <= |Candidates(records)|
  {
    var limit := Limit(SourceBytes(records), pressure);
    if pressure.Critical? && BytesLeft(records, Shrunk(records, pressure), 0) > limit then
      EvictCount(records, limit, 0)
    else 0
  }

  function ActionFor(r: Record, shrunk: seq<Record>, evicted: seq<Record>): Action
    requires r.Valid()
  {
    if r in evicted then
      Action(r.id, Evict, r.precision, r.residentBytes, 0, "critical_age_eviction")
    else if r in shrunk && Reducible(r) then
      Action(r.id, Reprecision(Narrowest(r.promoted)), r.precision, r.residentBytes, ReducedBytes(r), "pressure_precision")
    else
      Action(r.id, Retain, r.precision, r.residentBytes, r.residentBytes, if r.pinned then "pinned" else "within_budget")
  }

  function Effective(pressure: Pressure): Pressure {
    if pressure.Unknown? then Normal else pressure
  }

  ghost function PlanOf(records: seq<Record>, pressure: Pressure): (plan: Plan)
    requires AllValid(records)
    ensures |plan.actions| == |records|
  {
    var c, i, j := Candidates(records), Shrunk(records, pressure), Evicted(records, pressure);
    Plan(Effective(pressure), SourceBytes(records), BytesLeft(records, i, j),
         seq(|records|, k requires 0 <= k < |records| => ActionFor(records[k], c[..i], c[..j])))
  }

  // ----- conservation -----

  function ActionBytes(actions: seq<Action>): nat {
    if actions == [] then 0 else ActionBytes(actions[..|actions| - 1]) + actions[|actions| - 1].targetBytes
  }

  lemma {:induction false} ActionBytesUpTo(records: seq<Record>, shrunk: seq<Record>, evicted: seq<Record>, actions: seq<Action>)
    requires AllValid(records) && |actions| == |records|
    requires forall k :: 0 <= k < |records| ==> actions[k] == ActionFor(records[k], shrunk, evicted)
    ensures ActionBytes(actions) == SumBy(records, r => Remaining(r, shrunk, evicted))
  {
    if records != [] {
      var front, last := records[..|records| - 1], records[|records| - 1];
      ActionBytesUpTo(front, shrunk, evicted, actions[..|records| - 1]);
      assert records == front + [last];
      SumByConcat(front, [last], r => Remaining(r, shrunk, evicted));
    }
  }

  // The plan's target is the sum of what its actions leave.
  lemma PlanConservesBytes(records: seq<Record>, pressure: Pressure)
    requires AllValid(records)
    ensures ActionBytes(PlanOf(records, pressure).actions) == PlanOf(records, pressure).targetBytes
  {
    var c := Candidates(records);
    ActionBytesUpTo(records, c[..Shrunk(records, pressure)], c[..Evicted(records, pressure)], PlanOf(records, pressure).actions);
  }

  lemma UntouchedBytes(records: seq<Record>)
    ensures BytesLeft(records, 0, 0) == SourceBytes(records)
  {
    var c := Candidates(records);
    SumByCongruence(records, r => Remaining(r, c[..0], c[..0]), (r: Record) => r.residentBytes);
  }

  lemma NotAmongFirst(s: seq<Record>, i: nat)
    requires DistinctIds(s) && i < |s|
    ensures s[i] !in s[..i] && s[..i + 1] == s[..i] + [s[i]]
  {
  }

  lemma ShrinkStep(records: seq<Record>, i: nat)
    requires AllValid(records) && DistinctIds(records) && i < |Candidates(records)|
    ensures Candidates(records)[i] in records && Candidates(records)[i].Valid()
    ensures BytesLeft(records, i + 1, 0) + Candidates(records)[i].residentBytes
      == BytesLeft(records, i, 0) + ReducedBytes(Candidates(records)[i])
  {
    var c := Candidates(records);
    CandidatesFacts(records);
    assert c[i] in c;
    NotAmongFirst(c, i);
    SumByChange(records, r => Remaining(r, c[..i + 1], c[..0]), r => Remaining(r, c[..i], c[..0]), c[i]);
  }

  lemma EvictStep(records: seq<Record>, j: nat)
    requires AllValid(records) && DistinctIds(records) && j < |Candidates(records)|
    ensures Candidates(records)[j] in records && Candidates(records)[j].Valid()
    ensures BytesLeft(records, |Candidates(records)|, j + 1) + ReducedBytes(Candidates(records)[j])
      == BytesLeft(records, |Candidates(records)|, j)
  {
    var c := Candidates(records);
    CandidatesFacts(records);
    assert c[j] in c && c[..|c|] == c;
    NotAmongFirst(c, j);
    SumByChange(records, r => Remaining(r, c[..|c|], c[..j + 1]), r => Remaining(r, c[..|c|], c[..j]), c[j]);
  }

  // ----- the planner -----

  datatype Choice = Choice(target: Option<Precision>, size: nat, reason: string)

  // `selected` records a choice exactly for the records that are shrunk or evicted.
  ghost predicate Selects(selected: map<string, Choice>, records: seq<Record>, shrunk: seq<Record>, evicted: seq<Record>)
    requires AllValid(records)
  {
    forall r :: r in records ==>
      if r in evicted then r.id in selected && selected[r.id] == Choice(None, 0, "critical_age_eviction")
      else if r in shrunk && Reducible(r) then
        r.id in selected && selected[r.id] == Choice(Some(Narrowest(r.promoted)), ReducedBytes(r), "pressure_precision")
      else r.id !in selected
  }

  function Ids(records: seq<Record>): set<string> {
    set r | r in records :: r.id
  }

  lemma {:induction false} IdsCount(records: seq<Record>)
    ensures |Ids(records)| <= |records|
    ensures |Ids(records)| == |records| <==> DistinctIds(records)
  {
    if records != [] {
      var front, last := records[..|records| - 1], records[|records| - 1];
      IdsCount(front);
      assert records == front + [last];
      assert Ids(records) == Ids(front) + {last.id};
      assert last.id in Ids(front) <==> exists k :: 0 <= k < |front| && front[k].id == last.id;
    }
  }

  method PlanFor(records: seq<Record>, pressure: Pressure) returns (r: Result<Plan, PlanError>)
    requires AllValid(records)
    ensures r.Err? <==> |records| > 65_536 || !DistinctIds(records)
    ensures r.Ok? ==> r.value == PlanOf(records, pressure)
  {
    IdsCount(records);
    if |records| > MAXIMUM_RECORDS || |Ids(records)| != |records| {
      return Err(InvalidAllocationInput);
    }
    var source := SourceBytes(records);
    var limit, effective := Limit(source, pressure), Effective(pressure);
    var candidates := Candidates(records);
    UntouchedBytes(records);
    var selected, target := ShrinkPass(records, candidates, limit, source);
    if target > limit && effective == Critical {
      selected, target := EvictPass(records, candidates, limit, selected, target);
    }
    var actions := BuildActions(records, selected, candidates[..Shrunk(records, pressure)], candidates[..Evicted(records, pressure)]);
    r := Ok(Plan(effective, source, target, actions));
  }

  ghost predicate SelectsFirst(selected: map<string, Choice>, records: seq<Record>, c: seq<Record>, i: nat, j: nat)
    requires AllValid(records) && i <= |c| && j <= |c|
  {
    Selects(selected, records, c[..i], c[..j])
  }

  lemma CandidatesDistinct(records: seq<Record>)
    requires DistinctIds(records)
    ensures DistinctIds(Candidates(records))
  {
    CandidatesFacts(records);
  }

  lemma ShrinkSelects(selected: map<string, Choice>, records: seq<Record>, c: seq<Record>, i: nat)
    requires AllValid(records) && DistinctIds(records) && DistinctIds(c) && i < |c| && c[i] in records
    requires SelectsFirst(selected, records, c, i, 0)
    ensures Reducible(c[i]) ==>
      SelectsFirst(selected[c[i].id := Choice(Some(Narrowest(c[i].promoted)), ReducedBytes(c[i]), "pressure_precision")],
                   records, c, i + 1, 0)
    ensures !Reducible(c[i]) ==>
      SelectsFirst(selected, records, c, i + 1, 0) && ReducedBytes(c[i]) == c[i].residentBytes
  {
    DistinctIdsByElements(records);
    NotAmongFirst(c, i);
  }

  lemma EvictSelects(selected: map<string, Choice>, records: seq<Record>, c: seq<Record>, j: nat)
    requires AllValid(records) && DistinctIds(records) && DistinctIds(c) && j < |c| && c[j] in records
    requires SelectsFirst(selected, records, c, |c|, j)
    ensures c[j].id in selected ==> selected[c[j].id].size == ReducedBytes(c[j])
    ensures c[j].id !in selected ==> c[j].residentBytes == ReducedBytes(c[j])
    ensures SelectsFirst(selected[c[j].id := Choice(None, 0, "critical_age_eviction")], records, c, |c|, j + 1)
    ensures SelectsFirst((selected - {c[j].id})[c[j].id := Choice(None, 0, "critical_age_eviction")], records, c, |c|, j + 1)
  {
    assert c[..|c|] == c;
    DistinctIdsByElements(records);
    NotAmongFirst(c, j);
  }

  // First pass: shrink the oldest records until the total is within the limit.
  method ShrinkPass(records: seq<Record>, candidates: seq<Record>, limit: nat, source: nat)
    returns (selected: map<string, Choice>, target: nat)
    requires AllValid(records) && DistinctIds(records) && candidates == Candidates(records)
    requires source == BytesLeft(records, 0, 0)
    ensures
      var n := ShrinkCount(records, limit, 0);
      target == BytesLeft(records, n, 0) && SelectsFirst(selected, records, candidates, n, 0)
  {
    selected, target := map[], source;
    CandidatesDistinct(records);
    assert SelectsFirst(selected, records, candidates, 0, 0);
    hide SelectsFirst, BytesLeft, Candidates, ReducedBytes, Sorted, DistinctIds;
    var i := 0;
    while i < |candidates| && target > limit
      invariant 0 <= i <= |candidates|
      invariant ShrinkCount(records, limit, 0) == ShrinkCount(records, limit, i)
      invariant target == BytesLeft(records, i, 0)
      invariant SelectsFirst(selected, records, candidates, i, 0)
    {
      var record := candidates[i];
      ShrinkStep(records, i);
      ShrinkSelects(selected, records, candidates, i);
      var promoted := Narrowest(record.promoted);
      if promoted.Width() < record.precision.Width() {
        var size := ReducedBytes(record);
        selected := selected[record.id := Choice(Some(promoted), size, "pressure_precision")];
        target := target - (record.residentBytes - size);
      }
      i := i + 1;
    }
  }

  // Second pass: evict the oldest records, undoing earlier choices, until within the limit.
  method EvictPass(records: seq<Record>, candidates: seq<Record>, limit: nat, selected0: map<string, Choice>, target0: nat)
    returns (selected: map<string, Choice>, target: nat)
    requires AllValid(records) && DistinctIds(records) && candidates == Candidates(records)
    requires target0 == BytesLeft(records, |candidates|, 0) && SelectsFirst(selected0, records, candidates, |candidates|, 0)
    ensures
      var n := EvictCount(records, limit, 0);
      target == BytesLeft(records, |candidates|, n) && SelectsFirst(selected, records, candidates, |candidates|, n)
  {
    selected, target := selected0, target0;
    CandidatesDistinct(records);
    hide SelectsFirst, BytesLeft, Candidates, ReducedBytes, Reducible, Sorted, DistinctIds;
    var j := 0;
    while j < |candidates| && target > limit
      invariant 0 <= j <= |candidates|
      invariant EvictCount(records, limit, 0) == EvictCount(records, limit, j)
      invariant target == BytesLeft(records, |candidates|, j)
      invariant SelectsFirst(selected, records, candidates, |candidates|, j)
    {
      var record := candidates[j];
      EvictStep(records, j);
      EvictSelects(selected, records, candidates, j);
      if record.id in selected {
        var size := selected[record.id].size;
        selected := selected - {record.id};
        target := target + (record.residentBytes - size);
      }
      selected := selected[record.id := Choice(None, 0, "critical_age_eviction")];
      target := target - record.residentBytes;
      j := j + 1;
    }
  }

  method BuildActions(records: seq<Record>, selected: map<string, Choice>, ghost shrunk: seq<Record>, ghost evicted: seq<Record>)
    returns (actions: seq<Action>)
    requires AllValid(records) && Selects(selected, records, shrunk, evicted)
    ensures |actions| == |records|
    ensures forall k :: 0 <= k < |records| ==> actions[k] == ActionFor(records[k], shrunk, evicted)
  {
    actions := [];
    for k := 0 to |records|
      invariant |actions| == k
      invariant forall m :: 0 <= m < k ==> actions[m] == ActionFor(records[m], shrunk, evicted)
    {
      var record := records[k];
      var action: Action;
      if record.id !in selected {
        action := Action(record.id, Retain, record.precision, record.residentBytes, record.residentBytes,
                         if record.pinned then "pinned" else "within_budget");
      } else {
        var choice := selected[record.id];
        if choice.size == 0 {
          action := Action(record.id, Evict, record.precision, record.residentBytes, 0, choice.reason);
        } else {
          action := Action(record.id, Reprecision(choice.target.value), record.precision, record.residentBytes,
                           choice.size, choice.reason);
        }
      }
      actions := actions + [action];
    }
  }

  // ----- what a plan guarantees -----

  lemma PlanActionAt(records: seq<Record>, pressure: Pressure, k: nat)
    requires AllValid(records) && k < |records|
    ensures PlanOf(records, pressure).actions[k] == ActionFor(records[k],
      Candidates(records)[..Shrunk(records, pressure)], Candidates(records)[..Evicted(records, pressure)])
  {
  }

  lemma {:induction false} ShrinkingNeverGrows(records: seq<Record>, i: nat, n: nat)
    requires AllValid(records) && DistinctIds(records) && i <= n <= |Candidates(records)|
    ensures BytesLeft(records, n, 0) <= BytesLeft(records, i, 0)
    decreases n
  {
    hide BytesLeft, Candidates, ReducedBytes;
    if i < n {
      ShrinkingNeverGrows(records, i, n - 1);
      ShrinkStep(records, n - 1);
    }
  }

  lemma {:induction false} EvictingNeverGrows(records: seq<Record>, j: nat, n: nat)
    requires AllValid(records) && DistinctIds(records) && j <= n <= |Candidates(records)|
    ensures BytesLeft(records, |Candidates(records)|, n) <= BytesLeft(records, |Candidates(records)|, j)
    decreases n
  {
    hide BytesLeft, Candidates, ReducedBytes;
    if j < n {
      EvictingNeverGrows(records, j, n - 1);
      EvictStep(records, n - 1);
    }
  }

  // A lower limit visits at least as many candidates.
  lemma ShrinkCountAntitone(records: seq<Record>, low: nat, high: nat)
    requires low <= high
    ensures ShrinkCount(records, high, 0) <= ShrinkCount(records, low, 0)
  {
    var n := ShrinkCount(records, low, 0);
    if n < ShrinkCount(records, high, 0) {
      ShrinkCountIsLeast(records, high, 0, n);
    }
  }

  lemma ShrinkCountAtSource(records: seq<Record>)
    ensures ShrinkCount(records, SourceBytes(records), 0) == 0
  {
    UntouchedBytes(records);
  }

  // More pressure never leaves more bytes.
  lemma PlanIsMonotoneInPressure(records: seq<Record>)
    requires AllValid(records) && DistinctIds(records)
    ensures PlanOf(records, Critical).targetBytes <= PlanOf(records, Warning).targetBytes
    ensures PlanOf(records, Warning).targetBytes <= PlanOf(records, Normal).targetBytes
    ensures PlanOf(records, Normal).targetBytes == PlanOf(records, Unknown).targetBytes == SourceBytes(records)
    ensures PlanOf(records, Unknown).pressure == PlanOf(records, Normal).pressure == Normal
    ensures PlanOf(records, Warning).pressure == Warning && PlanOf(records, Critical).pressure == Critical
  {
    hide BytesLeft, Candidates, ReducedBytes, SourceBytes, ActionFor, ShrinkCount, EvictCount;
    var source := SourceBytes(records);
    UntouchedBytes(records);
    ShrinkCountAtSource(records);
    ShrinkCountAntitone(records, Limit(source, Critical), Limit(source, Warning));
    ShrinkingNeverGrows(records, Shrunk(records, Warning), Shrunk(records, Critical));
    ShrinkingNeverGrows(records, 0, Shrunk(records, Warning));
    if Evicted(records, Critical) > 0 {
      EvictingNeverGrows(records, 0, Evicted(records, Critical));
    }
  }

  lemma PlanOverLimit(records: seq<Record>, pressure: Pressure)
    requires AllValid(records) && DistinctIds(records)
    requires PlanOf(records, pressure).targetBytes > Limit(SourceBytes(records), pressure)
    ensures pressure.Critical? || pressure.Warning?
    ensures Shrunk(records, pressure) == |Candidates(records)|
    ensures Evicted(records, pressure) == if pressure.Critical? then |Candidates(records)| else 0
  {
    UntouchedBytes(records);
    hide BytesLeft, Candidates, SourceBytes;
  }

  // Within the limit, or nothing more could have been done.
  lemma PlanMeetsLimitIfPossible(records: seq<Record>, pressure: Pressure)
    requires AllValid(records) && DistinctIds(records)
    ensures
      var plan := PlanOf(records, pressure);
      || (pressure.Warning? && 4 * plan.targetBytes <= 3 * plan.sourceBytes)
      || (pressure.Critical? && 2 * plan.targetBytes <= plan.sourceBytes)
      || ((pressure.Normal? || pressure.Unknown?) && plan.targetBytes <= plan.sourceBytes)
      || forall k :: 0 <= k < |records| && !records[k].pinned ==>
           if pressure.Critical? then plan.actions[k].verdict.Evict?
           else pressure.Warning? && (plan.actions[k].verdict.Reprecision? <==>
             exists p :: p in records[k].promoted && Narrower(p, records[k].precision))
  {
    var c, plan := Candidates(records), PlanOf(records, pressure);
    CandidatesFacts(records);
    if plan.targetBytes > Limit(SourceBytes(records), pressure) {
      PlanOverLimit(records, pressure);
      hide BytesLeft, Candidates, SourceBytes, ReducedBytes, Shrunk, Evicted, Reducible, Limit;
      assert c[..|c|] == c;
      forall k | 0 <= k < |records| && !records[k].pinned
        ensures if pressure.Critical? then plan.actions[k].verdict.Evict?
          else pressure.Warning? && (plan.actions[k].verdict.Reprecision? <==> Reducible(records[k]))
      {
        assert records[k] in c;
        PlanActionAt(records, pressure, k);
      }
    }
  }

  // Pinned records are kept, nothing grows, and only CRITICAL pressure evicts.
  lemma PlanRespectsRecords(records: seq<Record>, pressure: Pressure, k: nat)
    requires AllValid(records) && DistinctIds(records) && k < |records|
    ensures
      var action := PlanOf(records, pressure).actions[k];
      && action.id == records[k].id && action.sourceBytes == records[k].residentBytes
      && action.targetBytes <= action.sourceBytes
      && (records[k].pinned ==> action.verdict.Retain?)
      && (action.verdict.Retain? ==> action.targetBytes == action.sourceBytes)
      && (action.verdict.Evict? ==> pressure.Critical? && action.targetBytes == 0)
      && (action.verdict.Reprecision? ==>
           && !pressure.Normal? && !pressure.Unknown?
           && action.verdict.target in records[k].promoted
           && ShrinksTo(records[k], action.verdict.target, action.targetBytes))
      && action.source == records[k].precision
      && action.reason ==
           if action.verdict.Evict? then "critical_age_eviction" else if action.verdict.Reprecision? then "pressure_precision"
           else if records[k].pinned then "pinned" else "within_budget"
  {
    ShrunkBytes(records[k]);
    CandidatesFacts(records);
    UntouchedBytes(records);
  }

  lemma OlderComesFirst(s: seq<Record>, n: nat, older: Record, younger: Record)
    requires Sorted(s) && DistinctIds(s) && n <= |s| && older in s && younger in s[..n]
    requires older.ageSeconds > younger.ageSeconds
      || (older.ageSeconds == younger.ageSeconds && LexLessEqual(older.id, younger.id))
    ensures older in s[..n]
  {
    var i :| 0 <= i < |s| && s[i] == older;
    var j :| 0 <= j < n && s[j] == younger;
    LexTotal(older.id, younger.id);
  }

  lemma EvictionNeedsAllShrunk(records: seq<Record>, pressure: Pressure)
    requires Evicted(records, pressure) > 0
    ensures Shrunk(records, pressure) == |Candidates(records)|
  {
  }

  // Evictions take the oldest unpinned records, and only once every reducible one was shrunk.
  lemma PlanEvictsOldestLast(records: seq<Record>, pressure: Pressure, k: nat, m: nat)
    requires AllValid(records) && DistinctIds(records) && k < |records| && m < |records|
    requires !records[m].pinned && PlanOf(records, pressure).actions[k].verdict.Evict?
    ensures records[m].ageSeconds > records[k].ageSeconds
      || (records[m].ageSeconds == records[k].ageSeconds && LexLessEqual(records[m].id, records[k].id))
      ==> PlanOf(records, pressure).actions[m].verdict.Evict?
    ensures (exists p :: p in records[m].promoted && Narrower(p, records[m].precision)) ==>
      !PlanOf(records, pressure).actions[m].verdict.Retain?
  {
    EvictsOldest(records, pressure, k, m);
    EvictsAfterShrinking(records, pressure, k, m);
  }

  lemma EvictsOldest(records: seq<Record>, pressure: Pressure, k: nat, m: nat)
    requires AllValid(records) && DistinctIds(records) && k < |records| && m < |records|
    requires !records[m].pinned && PlanOf(records, pressure).actions[k].verdict.Evict?
    ensures NotYounger(records[m], records[k]) ==> PlanOf(records, pressure).actions[m].verdict.Evict?
  {
    CandidatesFacts(records);
    PlanActionAt(records, pressure, k);
    PlanActionAt(records, pressure, m);
    hide BytesLeft, Candidates, ReducedBytes, Reducible, Shrunk, Evicted, PlanOf, LexLessEqual;
    if NotYounger(records[m], records[k]) {
      OlderComesFirst(Candidates(records), Evicted(records, pressure), records[m], records[k]);
    }
  }

  lemma EvictsAfterShrinking(records: seq<Record>, pressure: Pressure, k: nat, m: nat)
    requires AllValid(records) && DistinctIds(records) && k < |records| && m < |records|
    requires !records[m].pinned && PlanOf(records, pressure).actions[k].verdict.Evict?
    ensures Reducible(records[m]) ==> !PlanOf(records, pressure).actions[m].verdict.Retain?
  {
    hide BytesLeft, Candidates, ReducedBytes, Reducible, Narrower, Shrunk, Evicted, PlanOf, Sorted, DistinctIds;
    var c := Candidates(records);
    CandidatesFacts(records);
    PlanActionAt(records, pressure, k);
    PlanActionAt(records, pressure, m);
    EvictionNeedsAllShrunk(records, pressure);
    assert records[m] in c && c[..|c|] == c;
  }

  // Every choice made was needed: undoing the last one exceeds the limit.
  lemma PlanIsMinimal(records: seq<Record>, pressure: Pressure)
    requires AllValid(records) && DistinctIds(records)
    ensures
      var c, i, j := Candidates(records), Shrunk(records, pressure), Evicted(records, pressure);
      var target, limit := PlanOf(records, pressure).targetBytes, Limit(SourceBytes(records), pressure);
      && (j > 0 ==> c[j - 1].Valid() && target + ReducedBytes(c[j - 1]) > limit)
      && (j == 0 && i > 0 ==> c[i - 1].Valid() && target + c[i - 1].residentBytes - ReducedBytes(c[i - 1]) > limit)
  {
    var i, j := Shrunk(records, pressure), Evicted(records, pressure);
    var limit := Limit(SourceBytes(records), pressure);
    if j > 0 {
      EvictCountIsLeast(records, limit, 0, j - 1);
      EvictStep(records, j - 1);
    } else if i > 0 {
      ShrinkCountIsLeast(records, limit, 0, i - 1);
      ShrinkStep(records, i - 1);
    }
  }

  // Shrinking takes the oldest unpinned records that can be shrunk first.
  lemma PlanShrinksOldestFirst(records: seq<Record>, pressure: Pressure, k: nat, m: nat)
    requires AllValid(records) && DistinctIds(records) && k < |records| && m < |records|
    requires !records[m].pinned && PlanOf(records, pressure).actions[k].verdict.Reprecision?
    requires exists p :: p in records[m].promoted && Narrower(p, records[m].precision)
    requires records[m].ageSeconds > records[k].ageSeconds
      || (records[m].ageSeconds == records[k].ageSeconds && LexLessEqual(records[m].id, records[k].id))
    ensures !PlanOf(records, pressure).actions[m].verdict.Retain?
  {
    var c := Candidates(records);
    CandidatesFacts(records);
    PlanActionAt(records, pressure, k);
    PlanActionAt(records, pressure, m);
    assert Reducible(records[m]);
    hide BytesLeft, Candidates, ReducedBytes, Reducible, Shrunk, Evicted, PlanOf, LexLessEqual, Narrower;
    OlderComesFirst(c, Shrunk(records, pressure), records[m], records[k]);
  }

  lemma ShrunkBytesAreUnique(r: Record, t: Precision, b: nat)
    requires r.Valid() && ShrinksTo(r, t, b)
    ensures Reducible(r) && ReducedBytes(r) == b
  {
    ShrunkBytes(r);
    hide ReducedBytes;
    var u := Narrowest(r.promoted);
    assert u == t;
  }

  lemma OnlyOldest(s: seq<Record>, p: nat, q: nat)
    requires Sorted(s) && DistinctIds(s) && p < q < |s|
    ensures !NotYounger(s[q], s[p])
  {
    assert NotYounger(s[p], s[q]);
    LexTotal(s[p].id, s[q].id);
  }

  // The last eviction was needed: with the bytes b that record k takes once shrunk, if it can be
  // shrunk, the total would be above half of the source.
  lemma LastEvictionWasNeeded(records: seq<Record>, pressure: Pressure, k: nat, b: nat)
    requires AllValid(records) && DistinctIds(records) && k < |records|
    requires PlanOf(records, pressure).actions[k].verdict.Evict?
    requires forall m :: 0 <= m < |records| && PlanOf(records, pressure).actions[m].verdict.Evict? ==>
      records[m].ageSeconds > records[k].ageSeconds
      || (records[m].ageSeconds == records[k].ageSeconds && LexLessEqual(records[m].id, records[k].id))
    requires (exists t :: ShrinksTo(records[k], t, b))
      || (b == records[k].residentBytes && forall p :: p in records[k].promoted ==> !Narrower(p, records[k].precision))
    ensures 2 * (PlanOf(records, pressure).targetBytes + b) > PlanOf(records, pressure).sourceBytes
  {
    var c, j := Candidates(records), Evicted(records, pressure);
    ShrunkBytes(records[k]);
    if t :| ShrinksTo(records[k], t, b) {
      ShrunkBytesAreUnique(records[k], t, b);
    }
    assert ReducedBytes(records[k]) == b;
    PlanIsMinimal(records, pressure);
    PlanActionAt(records, pressure, k);
    EvictedRecord(records, pressure, k);
  }

  // The first candidates are the ones evicted.
  lemma EvictedAt(records: seq<Record>, pressure: Pressure, q: nat) returns (m: nat)
    requires AllValid(records) && DistinctIds(records) && q < Evicted(records, pressure)
    ensures m < |records| && records[m] == Candidates(records)[q]
    ensures PlanOf(records, pressure).actions[m].verdict.Evict?
  {
    var c, j := Candidates(records), Evicted(records, pressure);
    CandidatesFacts(records);
    hide BytesLeft, Candidates, ReducedBytes, Reducible, Shrunk, Evicted, PlanOf, LexLessEqual, Narrower, NotYounger;
    assert c[q] in records && c[q] in c[..j];
    m :| 0 <= m < |records| && records[m] == c[q];
    PlanActionAt(records, pressure, m);
  }

  lemma EvictedAmongFirst(records: seq<Record>, pressure: Pressure, k: nat) returns (p: nat)
    requires AllValid(records) && DistinctIds(records) && k < |records|
    requires PlanOf(records, pressure).actions[k].verdict.Evict?
    ensures pressure.Critical? && p < Evicted(records, pressure) && Candidates(records)[p] == records[k]
  {
    PlanActionAt(records, pressure, k);
    assert pressure.Critical?;
    hide BytesLeft, Candidates, ReducedBytes, Reducible, Shrunk, Evicted, PlanOf;
    var first := Candidates(records)[..Evicted(records, pressure)];
    assert records[k] in first;
    p :| 0 <= p < |first| && first[p] == records[k];
  }

  lemma EvictedRecord(records: seq<Record>, pressure: Pressure, k: nat)
    requires AllValid(records) && DistinctIds(records) && k < |records|
    requires PlanOf(records, pressure).actions[k].verdict.Evict?
    requires forall m :: 0 <= m < |records| && PlanOf(records, pressure).actions[m].verdict.Evict? ==>
      NotYounger(records[m], records[k])
    ensures pressure.Critical? && 0 < Evicted(records, pressure) <= |Candidates(records)|
    ensures records[k] == Candidates(records)[Evicted(records, pressure) - 1]
  {
    var p := EvictedAmongFirst(records, pressure, k);
    var m := EvictedAt(records, pressure, Evicted(records, pressure) - 1);
    CandidatesFacts(records);
    if p < Evicted(records, pressure) - 1 {
      hide *;
      OnlyOldest(Candidates(records), p, Evicted(records, pressure) - 1);
    }
  }

  lemma {:induction false} IrreducibleStretch(records: seq<Record>, p: nat, i: nat)
    requires AllValid(records) && DistinctIds(records) && p <= i <= |Candidates(records)|
    requires forall q :: p <= q < i ==> Candidates(records)[q].Valid() && !Reducible(Candidates(records)[q])
    ensures BytesLeft(records, i, 0) == BytesLeft(records, p, 0)
    decreases i
  {
    hide BytesLeft, Candidates, ReducedBytes;
    if p < i {
      IrreducibleStretch(records, p, i - 1);
      ShrinkStep(records, i - 1);
      ShrunkBytes(Candidates(records)[i - 1]);
    }
  }

  // The last record shrunk is followed by none that could be.
  lemma ShrunkRecord(records: seq<Record>, pressure: Pressure, k: nat) returns (p: nat)
    requires AllValid(records) && DistinctIds(records) && k < |records|
    requires PlanOf(records, pressure).actions[k].verdict.Reprecision?
    requires forall m :: 0 <= m < |records| ==> !PlanOf(records, pressure).actions[m].verdict.Evict?
    requires forall m :: 0 <= m < |records| && PlanOf(records, pressure).actions[m].verdict.Reprecision? ==>
      NotYounger(records[m], records[k])
    ensures p < Shrunk(records, pressure) <= |Candidates(records)| && Evicted(records, pressure) == 0
    ensures records[k] == Candidates(records)[p]
    ensures forall q :: p < q < Shrunk(records, pressure) ==>
      Candidates(records)[q].Valid() && !Reducible(Candidates(records)[q])
  {
    var c, i, j := Candidates(records), Shrunk(records, pressure), Evicted(records, pressure);
    CandidatesFacts(records);
    PlanActionAt(records, pressure, k);
    hide BytesLeft, Candidates, ReducedBytes, Reducible, Shrunk, Evicted, PlanOf, LexLessEqual, Narrower, NotYounger;
    assert j == 0 by {
      if j > 0 {
        var m := EvictedAt(records, pressure, 0);
      }
    }
    assert records[k] in c[..i];
    p :| 0 <= p < i && c[p] == records[k];
    forall q | p < q < i ensures c[q].Valid() && !Reducible(c[q]) {
      assert c[q] in records && c[q] in c[..i];
      var m :| 0 <= m < |records| && records[m] == c[q];
      PlanActionAt(records, pressure, m);
      OnlyOldest(c, p, q);
    }
  }

  // The last shrink was needed: without the bytes it released the total would be above the limit.
  lemma LastShrinkWasNeeded(records: seq<Record>, pressure: Pressure, k: nat)
    requires AllValid(records) && DistinctIds(records) && k < |records|
    requires PlanOf(records, pressure).actions[k].verdict.Reprecision?
    requires forall m :: 0 <= m < |records| ==> !PlanOf(records, pressure).actions[m].verdict.Evict?
    requires forall m :: 0 <= m < |records| && PlanOf(records, pressure).actions[m].verdict.Reprecision? ==>
      records[m].ageSeconds > records[k].ageSeconds
      || (records[m].ageSeconds == records[k].ageSeconds && LexLessEqual(records[m].id, records[k].id))
    ensures
      var plan := PlanOf(records, pressure);
      var kept := plan.targetBytes + plan.actions[k].sourceBytes - plan.actions[k].targetBytes;
      if pressure.Critical? then 2 * kept > plan.sourceBytes else pressure.Warning? && 4 * kept > 3 * plan.sourceBytes
  {
    var p := ShrunkRecord(records, pressure, k);
    var i := Shrunk(records, pressure);
    var limit := Limit(SourceBytes(records), pressure);
    PlanRespectsRecords(records, pressure, k);
    PlanActionAt(records, pressure, k);
    ShrinkCountIsLeast(records, limit, 0, p);
    ShrinkStep(records, p);
    IrreducibleStretch(records, p + 1, i);
    hide Candidates, BytesLeft, ReducedBytes, Reducible, Shrunk, Evicted, NotYounger, LexLessEqual, Narrower, ShrinksTo;
    assert PlanOf(records, pressure).targetBytes == BytesLeft(records, i, 0);
  }

  // The source total is the sum of the resident bytes.
  lemma SourceBytesAdd(records: seq<Record>, r: Record)
    ensures SourceBytes([]) == 0 && SourceBytes(records + [r]) == SourceBytes(records) + r.residentBytes
  {
    SumByConcat(records, [r], (x: Record) => x.residentBytes);
  }

  // ----- independence from the listing order -----

  lemma SameCandidates(a: seq<Record>, b: seq<Record>)
    requires DistinctIds(a) && multiset(a) == multiset(b)
    ensures DistinctIds(b) && Candidates(a) == Candidates(b)
  {
    DistinctIdsByElements(a);
    DistinctIdsByElements(b);
    DistinctMeansOnce(a);
    DistinctMeansOnce(b);
    forall r ensures r in a <==> r in b {
      assert r in a <==> r in multiset(a);
      assert r in b <==> r in multiset(b);
    }
    CandidatesFacts(a);
    CandidatesFacts(b);
    UnpinnedRespectsMultiset(a, b);
    SortedOrderIsUnique(Candidates(a), Candidates(b));
  }

  lemma SameBytesLeft(a: seq<Record>, b: seq<Record>, i: nat, j: nat)
    requires multiset(a) == multiset(b) && Candidates(a) == Candidates(b)
    requires i <= |Candidates(a)| && j <= |Candidates(a)|
    ensures BytesLeft(a, i, j) == BytesLeft(b, i, j)
  {
    var c := Candidates(a);
    SumByPermutation(a, b, r => Remaining(r, c[..i], c[..j]));
  }

  lemma {:induction false} SameShrinkCount(a: seq<Record>, b: seq<Record>, limit: nat, i: nat)
    requires multiset(a) == multiset(b) && Candidates(a) == Candidates(b) && i <= |Candidates(a)|
    ensures ShrinkCount(a, limit, i) == ShrinkCount(b, limit, i)
    decreases |Candidates(a)| - i
  {
    SameBytesLeft(a, b, i, 0);
    if i < |Candidates(a)| {
      SameShrinkCount(a, b, limit, i + 1);
    }
  }

  lemma {:induction false} SameEvictCount(a: seq<Record>, b: seq<Record>, limit: nat, j: nat)
    requires multiset(a) == multiset(b) && Candidates(a) == Candidates(b) && j <= |Candidates(a)|
    ensures EvictCount(a, limit, j) == EvictCount(b, limit, j)
    decreases |Candidates(a)| - j
  {
    SameBytesLeft(a, b, |Candidates(a)|, j);
    if j < |Candidates(a)| {
      SameEvictCount(a, b, limit, j + 1);
    }
  }

  // Listing the same records in another order changes neither the totals nor any action.
  lemma PlanIgnoresListingOrder(a: seq<Record>, b: seq<Record>, pressure: Pressure)
    requires AllValid(a) && AllValid(b) && DistinctIds(a) && multiset(a) == multiset(b)
    ensures DistinctIds(b)
    ensures PlanOf(a, pressure).sourceBytes == PlanOf(b, pressure).sourceBytes
    ensures PlanOf(a, pressure).targetBytes == PlanOf(b, pressure).targetBytes
    ensures forall k, m :: 0 <= k < |a| && 0 <= m < |b| && a[k].id == b[m].id ==>
      PlanOf(a, pressure).actions[k] == PlanOf(b, pressure).actions[m]
  {
    SameCandidates(a, b);
    SumByPermutation(a, b, (r: Record) => r.residentBytes);
    var limit := Limit(SourceBytes(a), pressure);
    SameShrinkCount(a, b, limit, 0);
    SameEvictCount(a, b, limit, 0);
    SameBytesLeft(a, b, Shrunk(a, pressure), 0);
    SameBytesLeft(a, b, Shrunk(a, pressure), Evicted(a, pressure));
    hide Shrunk, Evicted, BytesLeft, ActionFor, Candidates;
    forall k, m | 0 <= k < |a| && 0 <= m < |b| && a[k].id == b[m].id
      ensures PlanOf(a, pressure).actions[k] == PlanOf(b, pressure).actions[m]
    {
      SameIdSameRecord(a, b, k, m);
      PlanActionAt(a, pressure, k);
      PlanActionAt(b, pressure, m);
    }
  }

  lemma SameIdSameRecord(a: seq<Record>, b: seq<Record>, k: nat, m: nat)
    requires DistinctIds(a) && multiset(a) == multiset(b) && k < |a| && m < |b| && a[k].id == b[m].id
    ensures a[k] == b[m]
  {
    DistinctIdsByElements(a);
    assert b[m] in multiset(a);
  }

  // ----- applying plans at safe points -----

  datatype Status = Applied | Deferred | Ignored

  datatype Decision = Decision(pressure: Pressure, status: Status, sourceBytes: nat, targetBytes: nat, reprecisioned: nat, evicted: nat)

  // What the backend does with a plan handed to it.
  datatype Transaction = Commits | BeginFails | CommitFails

  datatype CoordinationError = PlanRejected | TransactionNotBegun | TransactionRolledBack

  function Count(actions: seq<Action>, wanted: Action -> bool): nat {
    if actions == [] then 0 else (if wanted(actions[0]) then 1 else 0) + Count(actions[1..], wanted)
  }

  function DecisionFor(plan: Plan, status: Status): Decision {
    Decision(plan.pressure, status, plan.sourceBytes, plan.targetBytes,
             Count(plan.actions, (a: Action) => a.verdict.Reprecision?), Count(plan.actions, (a: Action) => a.verdict.Evict?))
  }

  lemma {:induction false} CountSnoc(actions: seq<Action>, last: Action, wanted: Action -> bool)
    ensures Count(actions + [last], wanted) == Count(actions, wanted) + if wanted(last) then 1 else 0
    decreases |actions|
  {
    if actions == [] {
      assert [] + [last] == [last];
    } else {
      CountSnoc(actions[1..], last, wanted);
      assert (actions + [last])[1..] == actions[1..] + [last];
    }
  }

  lemma {:induction false} CountIsSize(actions: seq<Action>, wanted: Action -> bool)
    ensures Count(actions, wanted) == |set k | 0 <= k < |actions| && wanted(actions[k])|
    decreases |actions|
  {
    if actions != [] {
      var n := |actions| - 1;
      var front, last := actions[..n], actions[n];
      assert actions == front + [last];
      CountIsSize(front, wanted);
      CountSnoc(front, last, wanted);
      var inner := set k | 0 <= k < n && wanted(front[k]);
      assert (set k | 0 <= k < |actions| && wanted(actions[k])) == if wanted(last) then inner + {n} else inner;
    }
  }

  // A decision reports its plan: the totals, and how many actions of each kind there are.
  lemma DecisionReports(plan: Plan, status: Status)
    ensures
      var d := DecisionFor(plan, status);
      && d.pressure == plan.pressure && d.status == status
      && d.sourceBytes == plan.sourceBytes && d.targetBytes == plan.targetBytes
      && d.reprecisioned == |set k | 0 <= k < |plan.actions| && plan.actions[k].verdict.Reprecision?|
      && d.evicted == |set k | 0 <= k < |plan.actions| && plan.actions[k].verdict.Evict?|
  {
    var shrinks, evicts := (a: Action) => a.verdict.Reprecision?, (a: Action) => a.verdict.Evict?;
    CountIsSize(plan.actions, shrinks);
    CountIsSize(plan.actions, evicts);
    assert (set k | 0 <= k < |plan.actions| && plan.actions[k].verdict.Reprecision?)
      == set k | 0 <= k < |plan.actions| && shrinks(plan.actions[k]);
    assert (set k | 0 <= k < |plan.actions| && plan.actions[k].verdict.Evict?)
      == set k | 0 <= k < |plan.actions| && evicts(plan.actions[k]);
  }

  predicate ChangesSomething(plan: Plan) {
    exists k :: 0 <= k < |plan.actions| && !plan.actions[k].verdict.Retain?
  }

  lemma {:induction false} CountNone(actions: seq<Action>, wanted: Action -> bool)
    requires forall k :: 0 <= k < |actions| ==> !wanted(actions[k])
    ensures Count(actions, wanted) == 0
  {
    if actions != [] {
      CountNone(actions[1..], wanted);
    }
  }

  // A plan that changes nothing releases nothing.
  lemma UnchangedPlanKeepsBytes(records: seq<Record>, pressure: Pressure)
    requires AllValid(records) && DistinctIds(records) && !ChangesSomething(PlanOf(records, pressure))
    ensures PlanOf(records, pressure).targetBytes == SourceBytes(records)
    ensures DecisionFor(PlanOf(records, pressure), Ignored).reprecisioned == 0
    ensures DecisionFor(PlanOf(records, pressure), Ignored).evicted == 0
  {
    var plan, c := PlanOf(records, pressure), Candidates(records);
    var shrunk, evicted := c[..Shrunk(records, pressure)], c[..Evicted(records, pressure)];
    forall r | r in records ensures Remaining(r, shrunk, evicted) == r.residentBytes {
      var k :| 0 <= k < |records| && records[k] == r;
      PlanActionAt(records, pressure, k);
      assert plan.actions[k].verdict.Retain?;
    }
    SumByCongruence(records, r => Remaining(r, shrunk, evicted), (r: Record) => r.residentBytes);
    CountNone(plan.actions, (a: Action) => a.verdict.Reprecision?);
    CountNone(plan.actions, (a: Action) => a.verdict.Evict?);
  }

  lemma PlanNeverGrows(records: seq<Record>, pressure: Pressure)
    requires AllValid(records) && DistinctIds(records)
    ensures PlanOf(records, pressure).targetBytes <= SourceBytes(records)
  {
    PlanIsMonotoneInPressure(records);
  }

  class AdaptiveStateCoordinator {
    var pending: Option<Pressure>
    var applied: nat
    var rollbacks: nat
    var lastReleased: nat

    constructor ()
      ensures pending == None && applied == 0 && rollbacks == 0 && lastReleased == 0
    {
      pending, applied, rollbacks, lastReleased := None, 0, 0, 0;
    }

    // A deferral remembers the pressure; a commit or a plan without changes forgets it; a plan
    // that is refused, not begun or rolled back leaves it for a later attempt.
    method Request(records: seq<Record>, pressure: Pressure, safeToApply: bool, transaction: Transaction)
      returns (r: Result<Decision, CoordinationError>)
      requires AllValid(records)
      modifies this
      ensures r == Err(PlanRejected) <==> |records| > 65_536 || !DistinctIds(records)
      ensures r.Ok? ==>
        var plan := PlanOf(records, pressure);
        && r.value == DecisionFor(plan, r.value.status)
        && (r.value.status.Deferred? <==> !safeToApply)
        && (r.value.status.Ignored? <==> safeToApply && !ChangesSomething(plan))
        && (r.value.status.Ignored? ==> plan.targetBytes == plan.sourceBytes && r.value.evicted == r.value.reprecisioned == 0)
        && pending == (if safeToApply then None else Some(pressure))
        && applied == old(applied) + (if r.value.status.Applied? then 1 else 0)
        && lastReleased == (if r.value.status.Applied? then plan.sourceBytes - plan.targetBytes else old(lastReleased))
        && rollbacks == old(rollbacks)
      ensures r.Err? ==>
        && pending == old(pending) && applied == old(applied) && lastReleased == old(lastReleased)
        && rollbacks == old(rollbacks) + (if r.error.TransactionRolledBack? then 1 else 0)
      ensures r.Err? && !r.error.PlanRejected? ==>
        && safeToApply && ChangesSomething(PlanOf(records, pressure))
        && r.error == (if transaction.BeginFails? then TransactionNotBegun else TransactionRolledBack)
      ensures r.Ok? && r.value.status.Applied? ==> transaction.Commits?
    {
      var planned := PlanFor(records, pressure);
      if planned.Err? {
        return Err(PlanRejected);
      }
      var plan := planned.value;
      if !safeToApply {
        pending := Some(pressure);
        return Ok(DecisionFor(plan, Deferred));
      }
      PlanNeverGrows(records, pressure);
      if !ChangesSomething(plan) {
        UnchangedPlanKeepsBytes(records, pressure);
        pending := None;
        return Ok(DecisionFor(plan, Ignored));
      }
      match transaction
      case BeginFails =>
        return Err(TransactionNotBegun);
      case CommitFails =>
        rollbacks := rollbacks + 1;
        return Err(TransactionRolledBack);
      case Commits =>
        pending, applied, lastReleased := None, applied + 1, plan.sourceBytes - plan.targetBytes;
        return Ok(DecisionFor(plan, Applied));
    }

    // Retries a remembered pressure; without one nothing happens.
    method ApplyPending(records: seq<Record>, safeToApply: bool, transaction: Transaction)
      returns (r: Option<Result<Decision, CoordinationError>>)
      requires AllValid(records)
      modifies this
      ensures r.None? <==> old(pending).None?
      ensures r.None? ==> unchanged(this)
      ensures r.Some? && r.value.Ok? ==>
        && r.value.value == DecisionFor(PlanOf(records, old(pending).value), r.value.value.status)
        && pending == (if safeToApply then None else old(pending))
      ensures r.Some? && r.value.Err? ==> pending == old(pending) && applied == old(applied)
    {
      var pressure := pending;
      if pressure.None? {
        return None;
      }
      var outcome := Request(records, pressure.value, safeToApply, transaction);
      r := Some(outcome);
    }
  }
}
