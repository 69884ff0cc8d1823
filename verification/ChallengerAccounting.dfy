/** The accounting of a benchmark path: call records in whatever order they complete, the counters built
    from them, and the percentiles of their latencies. */
module ChallengerAccounting {
  import opened Sequences
  import opened Sorting
  import opened Wrappers

  // ----- counting -----

  function CountIf<T>(s: seq<T>, p: T -> bool): nat {
    if s == [] then 0 else CountIf(s[..|s| - 1], p) + if p(s[|s| - 1]) then 1 else 0
  }

  lemma {:induction false} CountIfConcat<T>(a: seq<T>, b: seq<T>, p: T -> bool)
    ensures CountIf(a + b, p) == CountIf(a, p) + CountIf(b, p)
  {
    if b == [] {
      assert a + b == a;
    } else {
      assert (a + b)[..|a + b| - 1] == a + b[..|b| - 1];
      CountIfConcat(a, b[..|b| - 1], p);
    }
  }

  lemma {:induction false} CountIfAtMost<T>(s: seq<T>, p: T -> bool)
    ensures CountIf(s, p) <= |s|
  {
    if s != [] {
      CountIfAtMost(s[..|s| - 1], p);
    }
  }

  /** How often each key occurs, as a counter accumulates it. */
  function Tally<K(==)>(keys: seq<K>): map<K, nat> {
    if keys == [] then map[]
    else
      var before, last := Tally(keys[..|keys| - 1]), keys[|keys| - 1];
      before[last := (if last in before then before[last] else 0) + 1]
  }

  method Counter<K(==)>(keys: seq<K>) returns (counts: map<K, nat>)
    ensures counts == Tally(keys)
  {
    counts := map[];
    for i := 0 to |keys|
      invariant counts == Tally(keys[..i])
    {
      assert keys[..i + 1][..i] == keys[..i];
      counts := counts[keys[i] := (if keys[i] in counts then counts[keys[i]] else 0) + 1];
    }
    assert keys[..|keys|] == keys;
  }

  lemma {:induction false} SumAfterUpdate<K(!new)>(m: map<K, nat>, k: K, v: nat)
    ensures SumOver(m[k := v]) == SumOver(m) - (if k in m then m[k] else 0) + v
  {
    SumInAnyOrder(m[k := v], k);
    assert m[k := v] - {k} == m - {k};
    if k in m {
      SumInAnyOrder(m, k);
    } else {
      assert m - {k} == m;
    }
  }

  /** A counter's values are positive and add up to the number of keys. */
  lemma {:induction false} TallySums<K(!new)>(keys: seq<K>)
    ensures SumOver(Tally(keys)) == |keys|
    ensures forall k :: k in Tally(keys) <==> k in keys
    ensures forall k | k in Tally(keys) :: Tally(keys)[k] >= 1
  {
    if keys != [] {
      var front, last := keys[..|keys| - 1], keys[|keys| - 1];
      TallySums(front);
      assert keys == front + [last];
      var before := Tally(front);
      SumAfterUpdate(before, last, (if last in before then before[last] else 0) + 1);
    }
  }

  lemma {:induction false} TallyConcat<K(!new)>(a: seq<K>, b: seq<K>, k: K)
    ensures Get(Tally(a + b), k) == Get(Tally(a), k) + Get(Tally(b), k)
  {
    if b == [] {
      assert a + b == a;
    } else {
      assert (a + b)[..|a + b| - 1] == a + b[..|b| - 1];
      TallyConcat(a, b[..|b| - 1], k);
    }
  }

  function Get<K(==)>(m: map<K, nat>, k: K): nat {
    if k in m then m[k] else 0
  }

  // ----- evidence and its validation -----

  datatype CallType =
    | Primary | Repair | Judge
    | ChallengerAction | ChallengerFamily | ChallengerTag
    | OtherCall(name: string)

  datatype Count = Count(successes: int, total: int)

  datatype Path = ProductionOneAxis | ParallelThreeAxisChallenger

  datatype Evidence = Evidence(
    path: Path, caseCount: int, providerSuccess: Count, structuredValidity: Count,
    actionExact: Option<Count>, familyExact: Option<Count>, tagExact: Option<Count>, completeContract: Option<Count>,
    representativeExact: Option<Count>, populationIntegrity: Option<bool>,
    repairCount: int, judgeCount: int, providerCalls: int, successfulCalls: int,
    callTypes: map<CallType, nat>, providerErrors: map<string, nat>, semanticErrors: map<string, nat>,
    p50: Option<int>, p95: Option<int>, rateLimitCount: int)

  function Metrics(e: Evidence): seq<Option<Count>> {
    [e.actionExact, e.familyExact, e.tagExact, e.completeContract]
  }

  const RATE_LIMITED := "MODEL_RATE_LIMITED"
  const CHALLENGER_TYPES := {ChallengerAction, ChallengerFamily, ChallengerTag}

  predicate IsCount(c: Count) {
    0 <= c.successes <= c.total
  }

  /** Totals fit the case count, and no counter exceeds the one before it. */
  ghost predicate MetricsAdd(e: Evidence) {
    && e.caseCount >= 1 && IsCount(e.providerSuccess) && IsCount(e.structuredValidity)
    && e.providerSuccess.total == e.caseCount && e.structuredValidity.total == e.caseCount
    && (forall i | 0 <= i < 4 :: Metrics(e)[i].Some? ==>
          IsCount(Metrics(e)[i].value) && Metrics(e)[i].value.total == e.caseCount
              && Metrics(e)[i].value.successes <= e.structuredValidity.successes)
    && e.structuredValidity.successes <= e.providerSuccess.successes <= e.successfulCalls
    && (e.representativeExact.Some? ==>
          e.path == ProductionOneAxis && e.representativeExact.value.total == 5
          && e.representativeExact.value.successes <= e.structuredValidity.successes)
    && (e.populationIntegrity.Some? ==> e.path == ProductionOneAxis)
  }

  /** Every call is counted once by type and once by outcome, every case once by its semantic outcome. */
  ghost predicate CallsAdd(e: Evidence) {
    && (forall code | code in e.providerErrors :: e.providerErrors[code] >= 1)
    && (forall code | code in e.semanticErrors :: e.semanticErrors[code] >= 1)
    && SumOver(e.callTypes) == e.providerCalls
    && e.successfulCalls + SumOver(e.providerErrors) == e.providerCalls
    && e.rateLimitCount == Get(e.providerErrors, RATE_LIMITED)
    && SumOver(e.semanticErrors) == e.caseCount - e.structuredValidity.successes
  }

  predicate ProductionAdds(e: Evidence) {
    && Get(e.callTypes, Primary) == e.caseCount && Get(e.callTypes, Repair) == e.repairCount
       && Get(e.callTypes, Judge) == e.judgeCount
    && e.callTypes.Keys <= {Primary, Repair, Judge} && e.repairCount + e.judgeCount <= e.caseCount
  }

  predicate ChallengerAdds(e: Evidence) {
    && e.callTypes.Keys == CHALLENGER_TYPES && (forall t | t in CHALLENGER_TYPES :: Get(e.callTypes, t) == e.caseCount)
    && e.repairCount == 0 && e.judgeCount == 0
    && e.providerSuccess.successes * 3 <= e.successfulCalls
    && e.caseCount - e.providerSuccess.successes <= e.providerCalls - e.successfulCalls
  }

  predicate LatenciesOrdered(e: Evidence) {
    e.providerCalls != 0 ==> e.p50.Some? && e.p95.Some? && e.p50.value <= e.p95.value
  }

  /** All checks of the accounting validator. */
  ghost predicate Accounted(e: Evidence) {
    && MetricsAdd(e) && CallsAdd(e)
    && (if e.path == ProductionOneAxis then ProductionAdds(e) else ChallengerAdds(e))
    && LatenciesOrdered(e)
  }

  // ----- percentiles -----

  const ASCENDING := (a: int, b: int) => a <= b

  /** Hundredths rounded up, but no more than the last of n positions. */
  function Rounded(n: nat, hundredths: nat): (r: nat)
    requires n > 0
    ensures r < n
  {
    var index := (hundredths + 99) / 100;
    if index < n - 1 then index else n - 1
  }

  /** The position of a percentile among n sorted samples. */
  function Rank(n: nat, p: nat): (r: nat)
    requires n > 0
    ensures r < n
  {
    Rounded(n, (n - 1) * p)
  }

  function Percentile(values: seq<int>, p: nat): Option<int> {
    if values == [] then None
    else
      var ordered := Sort(values, ASCENDING);
      SortKeepsElements(values, ASCENDING);
      Some(ordered[Rank(|ordered|, p)])
  }

  lemma {:induction false} RankCovers(n: nat, p: nat)
    requires n > 0 && p <= 100
    ensures (Rank(n, p) + 1) * 100 >= p * n
  {
    var product := (n - 1) * p;
    assert product <= (n - 1) * 100;
    assert p * n == product + p;
  }

  lemma {:induction false} RankMonotone(n: nat, p: nat, q: nat)
    requires n > 0 && p <= q
    ensures Rank(n, p) <= Rank(n, q)
  {
    TimesMonotone(n - 1, p, q);
    RoundedMonotone(n, (n - 1) * p, (n - 1) * q);
    hide Rounded;
  }

  lemma {:induction false} TimesMonotone(k: nat, p: nat, q: nat)
    requires p <= q
    ensures 0 <= k * p <= k * q
  {
    if k > 0 {
      TimesMonotone(k - 1, p, q);
      assert k * p == (k - 1) * p + p && k * q == (k - 1) * q + q;
    }
  }

  lemma {:induction false} RoundedMonotone(n: nat, a: nat, b: nat)
    requires n > 0 && a <= b
    ensures Rounded(n, a) <= Rounded(n, b)
  {}

  lemma {:induction false} Sorted(values: seq<int>)
    ensures SortedBy(Sort(values, ASCENDING), ASCENDING) && multiset(Sort(values, ASCENDING)) == multiset(values)
    ensures |Sort(values, ASCENDING)| == |values|
  {
    SortSorts(values, ASCENDING);
  }

  function AtMost(bound: int): int -> bool {
    v => v <= bound
  }

  lemma {:induction false} InsertCounts<T>(x: T, s: seq<T>, leq: (T, T) -> bool, p: T -> bool)
    ensures CountIf(Insert(x, s, leq), p) == CountIf(s, p) + if p(x) then 1 else 0
  {
    CountIfConcat([x], s, p);
    assert [x][..0] == [];
    if s != [] && leq(s[0], x) {
      InsertCounts(x, s[1..], leq, p);
      assert s == [s[0]] + s[1..];
      CountIfConcat([s[0]], s[1..], p);
      CountIfConcat([s[0]], Insert(x, s[1..], leq), p);
    }
  }

  lemma {:induction false} SortCounts<T>(s: seq<T>, leq: (T, T) -> bool, p: T -> bool)
    ensures CountIf(Sort(s, leq), p) == CountIf(s, p)
  {
    if s != [] {
      SortCounts(s[..|s| - 1], leq, p);
      InsertCounts(s[|s| - 1], Sort(s[..|s| - 1], leq), leq, p);
    }
  }

  lemma {:induction false} PrefixCounts(s: seq<int>, n: nat, bound: int)
    requires n <= |s| && forall i | 0 <= i < n :: s[i] <= bound
    ensures CountIf(s, AtMost(bound)) >= n
  {
    if n < |s| {
      PrefixCounts(s[..|s| - 1], n, bound);
    } else if s != [] {
      PrefixCounts(s[..|s| - 1], n - 1, bound);
    }
  }

  lemma {:induction false} SortedBelow(ordered: seq<int>, k: nat)
    requires SortedBy(ordered, ASCENDING) && k < |ordered|
    ensures forall i | 0 <= i <= k :: ordered[i] <= ordered[k]
  {
    assert forall i | 0 <= i < k :: ASCENDING(ordered[i], ordered[k]);
  }

  lemma {:induction false} InSorted(values: seq<int>, k: nat)
    requires k < |Sort(values, ASCENDING)|
    ensures Sort(values, ASCENDING)[k] in values
  {
    Sorted(values);
    assert Sort(values, ASCENDING)[k] in multiset(Sort(values, ASCENDING));
  }

  /** A percentile is one of the samples, and at least that percentage of samples is at or below it. */
  lemma {:induction false} PercentileCovers(values: seq<int>, p: nat)
    requires values != [] && p <= 100
    ensures Percentile(values, p).Some? && Percentile(values, p).value in values
    ensures CountIf(values, AtMost(Percentile(values, p).value)) * 100 >= p * |values|
  {
    Sorted(values);
    var ordered := Sort(values, ASCENDING);
    var k := Rank(|values|, p);
    RankCovers(|values|, p);
    SortedBelow(ordered, k);
    InSorted(values, k);
    PrefixCounts(ordered, k + 1, ordered[k]);
    SortCounts(values, ASCENDING, AtMost(ordered[k]));
    hide Rank, Sort, CountIf, SortedBy;
  }

  /** The least sample such that, leaving itself out, at least the given percentage of the other samples is at or
      below it. */
  ghost predicate IsPercentile(values: seq<int>, p: nat, v: int) {
    && v in values && ReachesShare(values, p, v)
    && forall w | w in values && w < v :: !ReachesShare(values, p, w)
  }

  ghost predicate ReachesShare(values: seq<int>, p: nat, v: int) {
    (CountIf(values, AtMost(v)) - 1) * 100 >= p * (|values| - 1)
  }

  /** The rank is the least position that is at least the percentage of the last one. */
  lemma {:induction false} RankIsLeast(n: nat, p: nat, k: nat)
    requires n > 0 && p <= 100
    ensures Rank(n, p) * 100 >= p * (n - 1)
    ensures k < Rank(n, p) ==> k * 100 < p * (n - 1)
  {
    var product := (n - 1) * p;
    assert product == p * (n - 1);
    TimesMonotone(n - 1, p, 100);
  }

  lemma {:induction false} SuffixNotCounted(s: seq<int>, n: nat, bound: int)
    requires n <= |s| && forall i | n <= i < |s| :: s[i] > bound
    ensures CountIf(s, AtMost(bound)) <= n
  {
    if n < |s| {
      SuffixNotCounted(s[..|s| - 1], n, bound);
    } else {
      CountIfAtMost(s, AtMost(bound));
    }
  }

  lemma {:induction false} SortedAbove(ordered: seq<int>, k: nat)
    requires SortedBy(ordered, ASCENDING) && k < |ordered|
    ensures forall i | k <= i < |ordered| :: ordered[k] <= ordered[i]
  {
    assert forall i | k < i < |ordered| :: ASCENDING(ordered[k], ordered[i]);
  }

  lemma {:induction false} RankReachesShare(values: seq<int>, p: nat)
    requires values != [] && p <= 100 && Percentile(values, p).Some?
    ensures IsPercentile(values, p, Percentile(values, p).value)
  {
    Sorted(values);
    var ordered := Sort(values, ASCENDING);
    var k := Rank(|values|, p);
    var v := ordered[k];
    assert v == Percentile(values, p).value;
    hide Rank, Sort, CountIf, SortedBy, Percentile, ReachesShare;
    InSorted(values, k);
    RankReaches(values, p, ordered, k);
    SortedAbove(ordered, k);
    forall w | w in values && w < v ensures !ReachesShare(values, p, w) {
      LesserFallsShort(values, p, ordered, k, w);
    }
  }

  lemma {:induction false} RankReaches(values: seq<int>, p: nat, ordered: seq<int>, k: nat)
    requires values != [] && p <= 100 && ordered == Sort(values, ASCENDING) && k == Rank(|values|, p) < |ordered|
    requires |ordered| == |values| && SortedBy(ordered, ASCENDING)
    ensures ReachesShare(values, p, ordered[k])
  {
    RankIsLeast(|values|, p, k);
    SortedBelow(ordered, k);
    PrefixCounts(ordered, k + 1, ordered[k]);
    SortCounts(values, ASCENDING, AtMost(ordered[k]));
    hide Rank, Sort, CountIf, SortedBy;
    var share, count := p * (|values| - 1), CountIf(values, AtMost(ordered[k]));
    assert (count - 1) * 100 >= k * 100 >= share;
  }

  lemma {:induction false} LesserFallsShort(values: seq<int>, p: nat, ordered: seq<int>, k: nat, w: int)
    requires values != [] && p <= 100 && ordered == Sort(values, ASCENDING) && k == Rank(|values|, p) < |ordered|
    requires |ordered| == |values| && forall i | k <= i < |ordered| :: ordered[i] > w
    requires w in values
    ensures !ReachesShare(values, p, w)
  {
    SuffixNotCounted(ordered, k, w);
    SortCounts(values, ASCENDING, AtMost(w));
    hide Sort, CountIf;
    var share, count := p * (|values| - 1), CountIf(values, AtMost(w));
    assert count <= k;
    if k > 0 {
      RankIsLeast(|values|, p, k - 1);
      hide Rank;
      assert (count - 1) * 100 <= (k - 1) * 100 < share;
    } else {
      NoNegativeShare(p, |values| - 1);
    }
  }

  lemma {:induction false} NoNegativeShare(p: nat, n: nat)
    ensures p * n >= 0
  {}

  /** The percentile is that sample and no other. */
  lemma {:induction false} PercentileIsExact(values: seq<int>, p: nat, v: int)
    requires values != [] && p <= 100
    ensures Percentile(values, p) == Some(v) <==> IsPercentile(values, p, v)
  {
    assert Percentile(values, p).Some?;
    RankReachesShare(values, p);
    hide Percentile, ReachesShare;
  }

  lemma {:induction false} PercentileMonotone(values: seq<int>, p: nat, q: nat)
    requires values != [] && p <= q
    ensures Percentile(values, p).Some? && Percentile(values, q).Some?
    ensures Percentile(values, p).value <= Percentile(values, q).value
  {
    Sorted(values);
    RankMonotone(|values|, p, q);
    SortedBelow(Sort(values, ASCENDING), Rank(|values|, q));
    hide Rank, Sort, SortedBy;
  }

  // ----- one case: three calls at once -----

  /** An inner call returns, or raises an error with a code. */
  datatype Reply = Returned | Raised(code: string)

  datatype Call = Call(reply: Reply, elapsed: nat, promptTokens: nat, completionTokens: nat)

  datatype Axis = Action | Family | Tag

  /** One question: its three calls, the order in which they complete, and what its answers are worth. */
  datatype Case = Case(action: Call, family: Call, tag: Call, order: seq<Axis>, parses: bool, actionHit: bool,
                       familyHit: bool)

  predicate IsCase(c: Case) {
    |c.order| == 3 && Action in c.order && Family in c.order && Tag in c.order
  }

  function CallOf(c: Case, axis: Axis): Call {
    match axis
    case Action => c.action
    case Family => c.family
    case Tag => c.tag
  }

  function TypeOf(axis: Axis): CallType {
    match axis
    case Action => ChallengerAction
    case Family => ChallengerFamily
    case Tag => ChallengerTag
  }

  datatype Record = Record(callId: nat, callType: CallType, success: bool, elapsed: nat, promptTokens: nat,
                           completionTokens: nat, errorCode: Option<string>)

  /** What a call leaves: success exactly if it returned, and otherwise its error code. */
  function RecordOf(id: nat, axis: Axis, call: Call): Record {
    if call.reply.Returned?
    then Record(id, TypeOf(axis), true, call.elapsed, call.promptTokens, call.completionTokens, None)
    else Record(id, TypeOf(axis), false, call.elapsed, 0, 0, Some(call.reply.code))
  }

  predicate Complete(c: Case) {
    c.action.reply.Returned? && c.family.reply.Returned? && c.tag.reply.Returned?
  }

  predicate Structured(c: Case) {
    Complete(c) && c.parses
  }

  predicate ActionHit(c: Case) {
    Structured(c) && c.actionHit
  }

  predicate FamilyHit(c: Case) {
    Structured(c) && c.familyHit
  }

  predicate Succeeded(r: Record) {
    r.success
  }

  // ----- counters over records -----

  function Types(records: seq<Record>): seq<CallType> {
    if records == [] then [] else Types(records[..|records| - 1]) + [records[|records| - 1].callType]
  }

  function ErrorCodes(records: seq<Record>): seq<string> {
    if records == [] then []
    else
      ErrorCodes(records[..|records| - 1])
      + if records[|records| - 1].errorCode.Some? then [records[|records| - 1].errorCode.value] else []
  }

  function Latencies(records: seq<Record>): seq<int> {
    if records == [] then [] else Latencies(records[..|records| - 1]) + [records[|records| - 1].elapsed]
  }

  lemma {:induction false} RecordCounts(records: seq<Record>)
    requires forall r | r in records :: r.success <==> r.errorCode.None?
    ensures |Types(records)| == |records| && |Latencies(records)| == |records|
    ensures CountIf(records, Succeeded) + |ErrorCodes(records)| == |records|
  {
    if records != [] {
      RecordCounts(records[..|records| - 1]);
    }
  }

  lemma {:induction false} TypesConcat(a: seq<Record>, b: seq<Record>)
    ensures Types(a + b) == Types(a) + Types(b)
  {
    if b == [] {
      assert a + b == a;
    } else {
      assert (a + b)[..|a + b| - 1] == a + b[..|b| - 1];
      TypesConcat(a, b[..|b| - 1]);
    }
  }

  class RecordingAdapter {
    var calls: nat
    var records: seq<Record>

    constructor ()
      ensures calls == 0 && records == []
    {
      calls, records := 0, [];
    }

    /** Starting a call gives it its id; other calls may start and complete before this one completes. */
    method Start() returns (id: nat)
      modifies this`calls
      ensures calls == old(calls) + 1 && id == calls
    {
      calls := calls + 1;
      id := calls;
    }

    method Complete(id: nat, axis: Axis, call: Call)
      modifies this`records
      ensures records == old(records) + [RecordOf(id, axis, call)]
    {
      records := records + [RecordOf(id, axis, call)];
    }
  }

  /** The record of one call of a case. */
  function AxisRecord(c: Case, ids: (nat, nat, nat), axis: Axis): Record {
    RecordOf(match axis case Action => ids.0 case Family => ids.1 case Tag => ids.2, axis, CallOf(c, axis))
  }

  /** The records of one case, in the order in which its calls complete. */
  function CaseRecords(c: Case, ids: (nat, nat, nat)): seq<Record>
    requires |c.order| == 3
  {
    [AxisRecord(c, ids, c.order[0]), AxisRecord(c, ids, c.order[1]), AxisRecord(c, ids, c.order[2])]
  }

  /** What the records of the first cases add up to. */
  ghost predicate Adds(records: seq<Record>, cases: seq<Case>) {
    && |records| == 3 * |cases|
    && (forall r | r in records :: (r.success <==> r.errorCode.None?) && r.callType in CHALLENGER_TYPES)
    && (forall t | t in CHALLENGER_TYPES :: Get(Tally(Types(records)), t) == |cases|)
    && 3 * CountIf(cases, Complete) <= CountIf(records, Succeeded)
    && |cases| - CountIf(cases, Complete) <= |records| - CountIf(records, Succeeded)
  }

  lemma {:induction false} CountOne<T>(x: T, p: T -> bool)
    ensures CountIf([x], p) == if p(x) then 1 else 0
  {
    assert [x][..0] == [];
  }

  lemma {:induction false} CountThree<T>(x: T, y: T, z: T, p: T -> bool)
    ensures CountIf([x, y, z], p) == (if p(x) then 1 else 0) + (if p(y) then 1 else 0) + (if p(z) then 1 else 0)
  {
    assert [x, y, z] == [x] + [y] + [z];
    CountIfConcat([x], [y], p);
    CountIfConcat([x] + [y], [z], p);
    CountOne(x, p);
    CountOne(y, p);
    CountOne(z, p);
  }

  lemma {:induction false} TallyOne(x: CallType, t: CallType)
    ensures Get(Tally([x]), t) == if t == x then 1 else 0
  {
    assert [x][..0] == [];
  }

  lemma {:induction false} TallyThree(x: CallType, y: CallType, z: CallType, t: CallType)
    ensures Get(Tally([x, y, z]), t) ==
              (if t == x then 1 else 0) + (if t == y then 1 else 0) + (if t == z then 1 else 0)
  {
    assert [x, y, z] == [x] + [y] + [z];
    TallyConcat([x], [y], t);
    TallyConcat([x] + [y], [z], t);
    TallyOne(x, t);
    TallyOne(y, t);
    TallyOne(z, t);
  }

  lemma {:induction false} TypesOne(x: Record)
    ensures Types([x]) == [x.callType]
  {
    assert [x][..0] == [];
  }

  lemma {:induction false} TypesThree(x: Record, y: Record, z: Record)
    ensures Types([x, y, z]) == [x.callType, y.callType, z.callType]
  {
    assert [x, y, z] == [x] + [y] + [z];
    TypesConcat([x], [y]);
    TypesConcat([x] + [y], [z]);
    TypesOne(x);
    TypesOne(y);
    TypesOne(z);
  }

  lemma {:induction false} OrderIsAll(c: Case)
    requires IsCase(c)
    ensures c.order[0] != c.order[1] && c.order[0] != c.order[2] && c.order[1] != c.order[2]
  {
    assert c.order == [c.order[0], c.order[1], c.order[2]];
  }

  /** Three completions in any order. */
  lemma {:induction false} CaseAdds(c: Case, ids: (nat, nat, nat))
    requires IsCase(c)
    ensures Adds(CaseRecords(c, ids), [c])
  {
    OrderIsAll(c);
    var records := CaseRecords(c, ids);
    var x, y, z := records[0], records[1], records[2];
    CountThree(x, y, z, Succeeded);
    TypesThree(x, y, z);
    forall t | t in CHALLENGER_TYPES ensures Get(Tally(Types(records)), t) == 1 {
      TallyThree(x.callType, y.callType, z.callType, t);
    }
    CountOne(c, Complete);
    hide Types, Tally, CountIf;
  }

  lemma {:induction false} AddsConcat(records: seq<Record>, cases: seq<Case>, more: seq<Record>, c: Case)
    requires Adds(records, cases) && Adds(more, [c])
    ensures Adds(records + more, cases + [c])
  {
    TypesConcat(records, more);
    forall t | t in CHALLENGER_TYPES ensures Get(Tally(Types(records + more)), t) == |cases| + 1 {
      TallyConcat(Types(records), Types(more), t);
    }
    CountIfConcat(cases, [c], Complete);
    CountIfConcat(records, more, Succeeded);
  }

  // ----- the whole path -----

  /** The semantic outcome that a case without a structured answer is counted under. */
  function SemanticCode(c: Case): seq<string> {
    if Structured(c) then []
    else if Complete(c) then ["CHALLENGER_SCHEMA_INVALID"]
    else ["CHALLENGER_PROVIDER_BUNDLE_INCOMPLETE"]
  }

  /** Those of all cases, in order. */
  function SemanticCodes(cases: seq<Case>): seq<string> {
    if cases == [] then []
    else
      var last := cases[|cases| - 1];
      SemanticCodes(cases[..|cases| - 1]) + SemanticCode(last)
  }

  lemma {:induction false} CaseCounts(cases: seq<Case>)
    ensures CountIf(cases, ActionHit) <= CountIf(cases, Structured)
            && CountIf(cases, FamilyHit) <= CountIf(cases, Structured)
    ensures CountIf(cases, Structured) <= CountIf(cases, Complete) <= |cases|
    ensures |SemanticCodes(cases)| == |cases| - CountIf(cases, Structured)
  {
    if cases != [] {
      CaseCounts(cases[..|cases| - 1]);
    }
  }

  /** The evidence that the path builds from its cases and the records they left. */
  function EvidenceOf(cases: seq<Case>, records: seq<Record>): Evidence {
    var n := |cases|;
    Evidence(
      ParallelThreeAxisChallenger, n, Count(CountIf(cases, Complete), n), Count(CountIf(cases, Structured), n),
      Some(Count(CountIf(cases, ActionHit), n)), Some(Count(CountIf(cases, FamilyHit), n)), None, None, None, None,
      0, 0, |records|, CountIf(records, Succeeded),
      Tally(Types(records)), Tally(ErrorCodes(records)), Tally(SemanticCodes(cases)),
      Percentile(Latencies(records), 50), Percentile(Latencies(records), 95),
      Get(Tally(ErrorCodes(records)), RATE_LIMITED))
  }

  lemma {:induction false} TypesAreMembers(records: seq<Record>)
    requires forall r | r in records :: r.callType in CHALLENGER_TYPES
    ensures forall t | t in Types(records) :: t in CHALLENGER_TYPES
    decreases |records|
  {
    if records != [] {
      assert records[|records| - 1] in records;
      assert forall r | r in records[..|records| - 1] :: r in records;
      TypesAreMembers(records[..|records| - 1]);
    }
  }

  lemma {:induction false} TypeKeys(records: seq<Record>, n: nat)
    requires n > 0 && forall r | r in records :: r.callType in CHALLENGER_TYPES
    requires forall t | t in CHALLENGER_TYPES :: Get(Tally(Types(records)), t) == n
    ensures Tally(Types(records)).Keys == CHALLENGER_TYPES
  {
    TypesAreMembers(records);
    TallySums(Types(records));
    hide Types, Tally;
    assert forall t | t in CHALLENGER_TYPES :: t in Tally(Types(records));
  }

  lemma {:induction false} EvidenceMetricsAdd(cases: seq<Case>, records: seq<Record>)
    requires cases != [] && Adds(records, cases)
    ensures MetricsAdd(EvidenceOf(cases, records))
  {
    CaseCounts(cases);
    hide Types, Tally, ErrorCodes, SemanticCodes, Latencies, CountIf, Percentile;
  }

  lemma {:induction false} CallSums(cases: seq<Case>, records: seq<Record>)
    requires Adds(records, cases)
    ensures SumOver(Tally(Types(records))) == |records|
    ensures CountIf(records, Succeeded) + SumOver(Tally(ErrorCodes(records))) == |records|
    ensures SumOver(Tally(SemanticCodes(cases))) == |cases| - CountIf(cases, Structured)
  {
    RecordCounts(records);
    CaseCounts(cases);
    hide Tally, SumOver;
    TallySums(Types(records));
    TallySums(ErrorCodes(records));
    TallySums(SemanticCodes(cases));
  }

  lemma {:induction false} TallyPositive<K(!new)>(keys: seq<K>)
    ensures forall k | k in Tally(keys) :: Tally(keys)[k] >= 1
  {
    TallySums(keys);
  }

  lemma {:induction false} EvidenceCallsAdd(cases: seq<Case>, records: seq<Record>)
    requires cases != [] && Adds(records, cases)
    ensures CallsAdd(EvidenceOf(cases, records))
  {
    hide Types, Tally, ErrorCodes, SemanticCodes, Latencies, CountIf, Percentile, SumOver, Adds;
    CallSums(cases, records);
    TallyPositive(ErrorCodes(records));
    TallyPositive(SemanticCodes(cases));
  }

  lemma {:induction false} EvidenceChallengerAdds(cases: seq<Case>, records: seq<Record>)
    requires cases != [] && Adds(records, cases)
    ensures ChallengerAdds(EvidenceOf(cases, records))
  {
    TypeKeys(records, |cases|);
    hide Types, Tally, ErrorCodes, SemanticCodes, Latencies, CountIf, Percentile;
  }

  lemma {:induction false} EvidenceLatenciesOrdered(cases: seq<Case>, records: seq<Record>)
    requires cases != [] && Adds(records, cases)
    ensures LatenciesOrdered(EvidenceOf(cases, records))
  {
    RecordCounts(records);
    PercentileMonotone(Latencies(records), 50, 95);
    hide Types, Tally, ErrorCodes, SemanticCodes, Latencies, CountIf, Percentile;
  }

  /** Whatever the calls return and in whatever order they complete, the evidence passes every check of the
      accounting validator. */
  lemma {:induction false} ChallengerIsAccounted(cases: seq<Case>, records: seq<Record>)
    requires cases != [] && Adds(records, cases)
    ensures Accounted(EvidenceOf(cases, records))
  {
    EvidenceMetricsAdd(cases, records);
    EvidenceCallsAdd(cases, records);
    EvidenceChallengerAdds(cases, records);
    EvidenceLatenciesOrdered(cases, records);
    hide MetricsAdd, CallsAdd, ChallengerAdds, LatenciesOrdered;
    assert EvidenceOf(cases, records).path == ParallelThreeAxisChallenger;
  }

  /** The loop's counters over the cases so far. */
  ghost predicate Counted(cases: seq<Case>, successes: nat, valid: nat, actionHits: nat, familyHits: nat,
                          semanticCodes: seq<string>) {
    && successes == CountIf(cases, Complete) && valid == CountIf(cases, Structured)
    && actionHits == CountIf(cases, ActionHit) && familyHits == CountIf(cases, FamilyHit)
    && semanticCodes == SemanticCodes(cases)
  }

  lemma {:induction false} CountOneMore(cases: seq<Case>, c: Case, successes: nat, valid: nat, actionHits: nat,
                                        familyHits: nat, semanticCodes: seq<string>)
    requires Counted(cases, successes, valid, actionHits, familyHits, semanticCodes)
    ensures Counted(cases + [c], successes + (if Complete(c) then 1 else 0), valid + (if Structured(c) then 1 else 0),
                    actionHits + (if ActionHit(c) then 1 else 0), familyHits + (if FamilyHit(c) then 1 else 0),
                    semanticCodes + SemanticCode(c))
  {
    assert (cases + [c])[..|cases|] == cases;
    hide Complete, Structured, ActionHit, FamilyHit;
  }

  lemma {:induction false} AddsNextCase(before: seq<Record>, soFar: seq<Record>, cases: seq<Case>, c: Case,
                                        ids: (nat, nat, nat))
    requires before <= soFar && Adds(soFar[|before|..], cases) && IsCase(c)
    ensures before <= soFar + CaseRecords(c, ids) && Adds((soFar + CaseRecords(c, ids))[|before|..], cases + [c])
  {
    CaseAdds(c, ids);
    AddsConcat(soFar[|before|..], cases, CaseRecords(c, ids), c);
    hide Adds, CaseRecords;
    assert (soFar + CaseRecords(c, ids))[|before|..] == soFar[|before|..] + CaseRecords(c, ids);
  }

  /** The loop over the cases, with its counters. */
  method RunCases(adapter: RecordingAdapter, cases: seq<Case>)
    returns (successes: nat, valid: nat, actionHits: nat, familyHits: nat, semanticCodes: seq<string>)
    requires forall c | c in cases :: IsCase(c)
    modifies adapter
    ensures old(adapter.records) <= adapter.records && Adds(adapter.records[|old(adapter.records)|..], cases)
    ensures Counted(cases, successes, valid, actionHits, familyHits, semanticCodes)
  {
    successes, valid, actionHits, familyHits, semanticCodes := 0, 0, 0, 0, [];
    ghost var before := adapter.records;
    NothingAdds();
    assert Counted([], 0, 0, 0, 0, []);
    assert adapter.records[|before|..] == [] && cases[..0] == [];
    hide Adds, Counted, Complete, Structured, ActionHit, FamilyHit, SemanticCode, CaseRecords;
    for i := 0 to |cases|
      invariant before <= adapter.records && Adds(adapter.records[|before|..], cases[..i])
      invariant Counted(cases[..i], successes, valid, actionHits, familyHits, semanticCodes)
    {
      var c := cases[i];
      assert cases[..i + 1] == cases[..i] + [c];
      ghost var soFar := adapter.records;
      RunCase(adapter, c);
      ghost var ids :| adapter.records == soFar + CaseRecords(c, ids);
      AddsNextCase(before, soFar, cases[..i], c, ids);
      CountOneMore(cases[..i], c, successes, valid, actionHits, familyHits, semanticCodes);
      successes := successes + if Complete(c) then 1 else 0;
      valid := valid + if Structured(c) then 1 else 0;
      actionHits := actionHits + if ActionHit(c) then 1 else 0;
      familyHits := familyHits + if FamilyHit(c) then 1 else 0;
      semanticCodes := semanticCodes + SemanticCode(c);
    }
    assert cases[..|cases|] == cases;
  }

  /** Runs all cases through the adapter and builds the evidence from the records that they added. */
  method RunChallengerPath(adapter: RecordingAdapter, cases: seq<Case>) returns (e: Evidence)
    requires cases != [] && forall c | c in cases :: IsCase(c)
    modifies adapter
    ensures Accounted(e)
    ensures |adapter.records| == |old(adapter.records)| + 3 * |cases| && old(adapter.records) <= adapter.records
    ensures e == EvidenceOf(cases, adapter.records[|old(adapter.records)|..])
  {
    hide Adds, CountIf, Types, ErrorCodes, Latencies, SemanticCodes, Tally, Percentile, Accounted;
    var start := |adapter.records|;
    var successes, valid, actionHits, familyHits, semanticCodes := RunCases(adapter, cases);
    var records := adapter.records[start..];
    AddsCount(records, cases);
    var errors := Counter(ErrorCodes(records));
    var types := Counter(Types(records));
    var semantic := Counter(semanticCodes);
    var n := |cases|;
    e := Evidence(ParallelThreeAxisChallenger, n, Count(successes, n), Count(valid, n), Some(Count(actionHits, n)),
                  Some(Count(familyHits, n)),
                  None, None, None, None, 0, 0, |records|, CountIf(records, Succeeded), types, errors, semantic,
                  Percentile(Latencies(records), 50), Percentile(Latencies(records), 95), Get(errors, RATE_LIMITED));
    ChallengerIsAccounted(cases, records);
  }

  lemma {:induction false} NothingAdds()
    ensures Adds([], [])
  {}

  lemma {:induction false} AddsCount(records: seq<Record>, cases: seq<Case>)
    requires Adds(records, cases)
    ensures |records| == 3 * |cases|
  {}

  /** Starts the three calls, then completes them in the case's order. */
  method RunCase(adapter: RecordingAdapter, c: Case)
    requires IsCase(c)
    modifies adapter
    ensures exists ids :: adapter.records == old(adapter.records) + CaseRecords(c, ids)
  {
    var action := adapter.Start();
    var family := adapter.Start();
    var tag := adapter.Start();
    ghost var ids := (action, family, tag);
    for k := 0 to 3
      invariant adapter.records == old(adapter.records) + CaseRecords(c, ids)[..k]
    {
      var axis := c.order[k];
      adapter.Complete(match axis case Action => action case Family => family case Tag => tag, axis, CallOf(c, axis));
      assert CaseRecords(c, ids)[..k + 1] == CaseRecords(c, ids)[..k] + [AxisRecord(c, ids, axis)];
    }
    assert CaseRecords(c, ids)[..3] == CaseRecords(c, ids);
  }
}
