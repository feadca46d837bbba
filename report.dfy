/** Report statistics of `generate_html_report` and `generate_summary_report`:
    the five-range age histogram and its priorities, the per-row age class,
    the count-by-field breakdowns, the top 20 oldest and the first oldest
    record, and the early returns on an empty result list. */
module Report {
  import opened Model
  import opened PyDict
  import opened Ordering

  datatype AgeRange = Days0To29 | Days30To89 | Days90To179 | Days180To364 | Days365Plus

  datatype Priority = Low | Medium | High | Critical

  /** First day of a range. */
  function RangeStart(a: AgeRange): nat {
    match a
    case Days0To29 => 0
    case Days30To89 => 30
    case Days90To179 => 90
    case Days180To364 => 180
    case Days365Plus => 365
  }

  /** The range an age falls into: the `if/elif` chain on 30, 90, 180, 365. */
  function RangeOf(days: nat): (a: AgeRange)
    ensures RangeStart(a) <= days
    ensures a != Days365Plus ==> days < RangeEnd(a)
  {
    if days < 30 then Days0To29
    else if days < 90 then Days30To89
    else if days < 180 then Days90To179
    else if days < 365 then Days180To364
    else Days365Plus
  }

  /** First day past a bounded range: the start of the next one. */
  function RangeEnd(a: AgeRange): nat
    requires a != Days365Plus
  {
    match a
    case Days0To29 => RangeStart(Days30To89)
    case Days30To89 => RangeStart(Days90To179)
    case Days90To179 => RangeStart(Days180To364)
    case Days180To364 => RangeStart(Days365Plus)
  }

  /** An age lies in exactly one range: the one whose bounds hold it. */
  lemma RangeIsUnique(days: nat, a: AgeRange)
    requires RangeStart(a) <= days
    requires a != Days365Plus ==> days < RangeEnd(a)
    ensures RangeOf(days) == a
  {
  }

  /** The priority shown for a histogram row: the age class of every age
      the range holds. */
  function RangePriority(a: AgeRange): (p: Priority)
    ensures forall days: nat :: RangeStart(a) <= days && (a != Days365Plus ==> days < RangeEnd(a)) ==>
      p == AgeClass(days)
  {
    match a
    case Days365Plus => Critical
    case Days180To364 => High
    case Days90To179 => Medium
    case _ => Low
  }

  /** The age class of one instance row (top 20 and full listing): its rank
      is the number of the thresholds 90, 180 and 365 days the age reaches. */
  function AgeClass(days: nat): (p: Priority)
    ensures Rank(p) == (if days >= 90 then 1 else 0) + (if days >= 180 then 1 else 0) + (if days >= 365 then 1 else 0)
  {
    if days >= 365 then Critical
    else if days >= 180 then High
    else if days >= 90 then Medium
    else Low
  }

  function Rank(p: Priority): nat {
    match p
    case Low => 0
    case Medium => 1
    case High => 2
    case Critical => 3
  }

  /** A row's class is the priority of its histogram range: both use 90/180/365. */
  lemma AgeClassMatchesRange(days: nat)
    ensures AgeClass(days) == RangePriority(RangeOf(days))
  {
  }

  /** Older never means a lower priority. */
  lemma AgeClassMonotone(d1: nat, d2: nat)
    requires d1 <= d2
    ensures Rank(AgeClass(d1)) <= Rank(AgeClass(d2))
  {
  }

  // ---------------------------------------------------------------- histogram

  datatype AgeHistogram = AgeHistogram(
    days0To29: nat, days30To89: nat, days90To179: nat, days180To364: nat, days365Plus: nat)

  function CountOf(h: AgeHistogram, a: AgeRange): nat {
    match a
    case Days0To29 => h.days0To29
    case Days30To89 => h.days30To89
    case Days90To179 => h.days90To179
    case Days180To364 => h.days180To364
    case Days365Plus => h.days365Plus
  }

  function HistogramTotal(h: AgeHistogram): nat {
    h.days0To29 + h.days30To89 + h.days90To179 + h.days180To364 + h.days365Plus
  }

  /** `age_ranges[label] += 1` */
  function Bump(h: AgeHistogram, a: AgeRange): (h': AgeHistogram)
    ensures CountOf(h', a) == CountOf(h, a) + 1
    ensures forall b :: b != a ==> CountOf(h', b) == CountOf(h, b)
    ensures HistogramTotal(h') == HistogramTotal(h) + 1
  {
    match a
    case Days0To29 => h.(days0To29 := h.days0To29 + 1)
    case Days30To89 => h.(days30To89 := h.days30To89 + 1)
    case Days90To179 => h.(days90To179 := h.days90To179 + 1)
    case Days180To364 => h.(days180To364 := h.days180To364 + 1)
    case Days365Plus => h.(days365Plus := h.days365Plus + 1)
  }

  /** Number of records of `s` in range `a`. */
  function CountInRange(s: seq<StoppedInstance>, a: AgeRange): nat {
    if s == [] then 0
    else CountInRange(s[..|s| - 1], a) + (if RangeOf(s[|s| - 1].daysSinceCreated) == a then 1 else 0)
  }

  /** The histogram of `s`, range by range. */
  function HistogramOf(s: seq<StoppedInstance>): AgeHistogram {
    AgeHistogram(CountInRange(s, Days0To29), CountInRange(s, Days30To89), CountInRange(s, Days90To179),
                 CountInRange(s, Days180To364), CountInRange(s, Days365Plus))
  }

  /** The five ranges partition the records: their counts add up to the total. */
  lemma {:induction false} RangeCountsSumToTotal(s: seq<StoppedInstance>)
    ensures HistogramTotal(HistogramOf(s)) == |s|
  {
    if s != [] {
      RangeCountsSumToTotal(s[..|s| - 1]);
    }
  }

  lemma HistogramOfCounts(s: seq<StoppedInstance>)
    ensures forall a :: CountOf(HistogramOf(s), a) == CountInRange(s, a)
  {
  }

  lemma HistogramStep(s: seq<StoppedInstance>, i: nat)
    requires i < |s|
    ensures HistogramOf(s[..i + 1]) == Bump(HistogramOf(s[..i]), RangeOf(s[i].daysSinceCreated))
  {
    assert s[..i + 1][..i] == s[..i];
  }

  /** The counting loop over `age_ranges`. */
  method CountAgeRanges(results: seq<StoppedInstance>) returns (h: AgeHistogram)
    ensures forall a :: CountOf(h, a) == CountInRange(results, a)
    ensures HistogramTotal(h) == |results|
  {
    h := AgeHistogram(0, 0, 0, 0, 0);
    for i := 0 to |results|
      invariant h == HistogramOf(results[..i])
    {
      HistogramStep(results, i);
      h := Bump(h, RangeOf(results[i].daysSinceCreated));
    }
    assert results[..|results|] == results;
    HistogramOfCounts(results);
    RangeCountsSumToTotal(results);
  }

  // --------------------------------------------------------------- breakdowns

  /** The record fields the report breaks the results down by. */
  datatype Field = RegionField | CompartmentField | ShapeField | OwnerField

  function FieldOf(r: StoppedInstance, f: Field): string {
    match f
    case RegionField => r.region
    case CompartmentField => r.compartmentName
    case ShapeField => r.shape
    case OwnerField => r.instanceOwner
  }

  /** Number of records of `s` whose field `f` is `key`. */
  function CountWith(s: seq<StoppedInstance>, f: Field, key: string): nat {
    if s == [] then 0
    else CountWith(s[..|s| - 1], f, key) + (if FieldOf(s[|s| - 1], f) == key then 1 else 0)
  }

  /** Sum of the counts stored under `keys`. */
  function SumCounts(keys: seq<string>, m: map<string, nat>): nat {
    if keys == [] then 0
    else (if keys[0] in m then m[keys[0]] else 0) + SumCounts(keys[1..], m)
  }

  /** Sum of all counts of a dictionary. */
  function Total(d: Dict<nat>): nat {
    SumCounts(d.keys, d.entries)
  }

  lemma {:induction false} SumCountsOther(keys: seq<string>, m: map<string, nat>, k: string, v: nat)
    requires k !in keys
    ensures SumCounts(keys, m[k := v]) == SumCounts(keys, m)
  {
    if keys != [] {
      SumCountsOther(keys[1..], m, k, v);
    }
  }

  lemma {:induction false} SumCountsAppend(keys: seq<string>, m: map<string, nat>, k: string, v: nat)
    requires k !in keys
    ensures SumCounts(keys + [k], m[k := v]) == SumCounts(keys, m) + v
  {
    if keys == [] {
      assert [k][1..] == [];
    } else {
      assert (keys + [k])[1..] == keys[1..] + [k];
      SumCountsAppend(keys[1..], m, k, v);
    }
  }

  lemma {:induction false} SumCountsIncrement(keys: seq<string>, m: map<string, nat>, k: string)
    requires k in keys && k in m
    requires forall i, j :: 0 <= i < j < |keys| ==> keys[i] != keys[j]
    ensures SumCounts(keys, m[k := m[k] + 1]) == SumCounts(keys, m) + 1
  {
    if keys[0] == k {
      assert k !in keys[1..];
      SumCountsOther(keys[1..], m, k, m[k] + 1);
    } else {
      SumCountsIncrement(keys[1..], m, k);
    }
  }

  /** `d` holds, for every value of field `f` among the first `n` records of
      `s`, the number of those records with it, and nothing else. */
  ghost predicate Tallies(d: Dict<nat>, s: seq<StoppedInstance>, f: Field, n: nat)
    requires n <= |s|
  {
    KeysSeen(d, s, f, n) && CountsSeen(d, s, f, n)
  }

  /** The keys of `d` are the values of field `f` among the first `n` records. */
  ghost predicate KeysSeen(d: Dict<nat>, s: seq<StoppedInstance>, f: Field, n: nat)
    requires n <= |s|
  {
    forall key :: key in d.entries <==> exists j :: 0 <= j < n && FieldOf(s[j], f) == key
  }

  /** Each key of `d` maps to its count among the first `n` records. */
  ghost predicate CountsSeen(d: Dict<nat>, s: seq<StoppedInstance>, f: Field, n: nat)
    requires n <= |s|
  {
    forall key :: key in d.entries ==> d.entries[key] == CountWith(s[..n], f, key)
  }

  lemma TotalStep(d: Dict<nat>, d': Dict<nat>, key: string)
    requires Valid(d) && d' == Put(d, key, Get(d, key, 0) + 1)
    ensures Total(d') == Total(d) + 1
  {
    if key in d.entries {
      SumCountsIncrement(d.keys, d.entries, key);
    } else {
      SumCountsAppend(d.keys, d.entries, key, 1);
    }
  }

  lemma TallyKeysStep(d: Dict<nat>, d': Dict<nat>, s: seq<StoppedInstance>, f: Field, i: nat)
    requires i < |s| && Valid(d)
    requires d' == Put(d, FieldOf(s[i], f), Get(d, FieldOf(s[i], f), 0) + 1)
    requires KeysSeen(d, s, f, i)
    ensures KeysSeen(d', s, f, i + 1)
  {
  }

  lemma TallyCountsStep(d: Dict<nat>, d': Dict<nat>, s: seq<StoppedInstance>, f: Field, i: nat)
    requires i < |s| && Valid(d)
    requires d' == Put(d, FieldOf(s[i], f), Get(d, FieldOf(s[i], f), 0) + 1)
    requires KeysSeen(d, s, f, i) && CountsSeen(d, s, f, i)
    ensures CountsSeen(d', s, f, i + 1)
  {
    var key := FieldOf(s[i], f);
    var s1 := s[..i + 1];
    assert s1[..i] == s[..i] && s1[i] == s[i];
    if key !in d.entries {
      forall j | 0 <= j < i ensures FieldOf(s[..i][j], f) != key {
        assert s[..i][j] == s[j];
      }
      CountWithAbsent(s[..i], f, key);
    }
    forall k | k in d'.entries ensures d'.entries[k] == CountWith(s1, f, k) {
      assert CountWith(s1, f, k) == CountWith(s[..i], f, k) + (if key == k then 1 else 0);
    }
  }

  /** One more record keeps `Tallies` and adds one to the total. */
  lemma TallyStep(d: Dict<nat>, d': Dict<nat>, s: seq<StoppedInstance>, f: Field, i: nat)
    requires i < |s| && Valid(d) && Tallies(d, s, f, i)
    requires d' == Put(d, FieldOf(s[i], f), Get(d, FieldOf(s[i], f), 0) + 1)
    ensures Valid(d')
    ensures Tallies(d', s, f, i + 1)
    ensures Total(d') == Total(d) + 1
  {
    TotalStep(d, d', FieldOf(s[i], f));
    TallyKeysStep(d, d', s, f, i);
    TallyCountsStep(d, d', s, f, i);
  }

  /** `d` is the breakdown of `s` by field `f`: its keys are exactly the
      values of `f` among the records, each maps to the number of records
      with that value, and the counts add up to the number of records. */
  ghost predicate IsBreakdownOf(d: Dict<nat>, s: seq<StoppedInstance>, f: Field) {
    && Valid(d)
    && (forall key :: key in d.entries <==> exists i :: 0 <= i < |s| && FieldOf(s[i], f) == key)
    && (forall key :: key in d.entries ==> d.entries[key] == CountWith(s, f, key))
    && Total(d) == |s|
  }

  /** `breakdown[key] = breakdown.get(key, 0) + 1` for every record. */
  method Breakdown(results: seq<StoppedInstance>, f: Field) returns (counts: Dict<nat>)
    ensures IsBreakdownOf(counts, results, f)
  {
    counts := Empty();
    for i := 0 to |results|
      invariant Valid(counts)
      invariant Tallies(counts, results, f, i)
      invariant Total(counts) == i
    {
      var key := FieldOf(results[i], f);
      var next := Put(counts, key, Get(counts, key, 0) + 1);
      TallyStep(counts, next, results, f, i);
      counts := next;
    }
    assert results[..|results|] == results;
  }

  lemma {:induction false} CountWithAbsent(s: seq<StoppedInstance>, f: Field, key: string)
    requires forall j :: 0 <= j < |s| ==> FieldOf(s[j], f) != key
    ensures CountWith(s, f, key) == 0
  {
    if s != [] {
      CountWithAbsent(s[..|s| - 1], f, key);
    }
  }
  // ------------------------------------------------------------------ reports

  const TopOldestCount: nat := 20
  const NoInstancesMessage: string := "No stopped instances found."

  /** What `generate_html_report` computes before templating. `NoReport`
      stands for its early return of "" (no file is written). */
  datatype HtmlStats =
    | NoReport
    | HtmlStats(total: nat, oldest: StoppedInstance,
                regions: Dict<nat>, compartments: Dict<nat>, shapes: Dict<nat>, owners: Dict<nat>,
                ages: AgeHistogram, topOldest: seq<StoppedInstance>)

  /** `h` holds the statistics of `results`: nothing for an empty list;
      otherwise the total, the first oldest record, the four exact
      breakdowns, the age histogram and the 20 oldest records. */
  ghost predicate IsHtmlStatsOf(results: seq<StoppedInstance>, h: HtmlStats) {
    if results == [] then h.NoReport?
    else
      && h.HtmlStats?
      && h.total == |results|
      && h.oldest == FirstOldest(results)
      && IsBreakdownOf(h.regions, results, RegionField)
      && IsBreakdownOf(h.compartments, results, CompartmentField)
      && IsBreakdownOf(h.shapes, results, ShapeField)
      && IsBreakdownOf(h.owners, results, OwnerField)
      && (forall a :: CountOf(h.ages, a) == CountInRange(results, a))
      && HistogramTotal(h.ages) == |results|
      && h.topOldest == TopOldest(results, TopOldestCount)
  }

  method GenerateHtmlStats(results: seq<StoppedInstance>) returns (report: HtmlStats)
    ensures report.NoReport? <==> results == []
    ensures IsHtmlStatsOf(results, report)
  {
    if |results| == 0 {
      return NoReport;
    }
    var regions := Breakdown(results, RegionField);
    var compartments := Breakdown(results, CompartmentField);
    var shapes := Breakdown(results, ShapeField);
    var owners := Breakdown(results, OwnerField);
    var ages := CountAgeRanges(results);
    report := HtmlStats(|results|, FirstOldest(results), regions, compartments, shapes, owners,
                        ages, TopOldest(results, TopOldestCount));
  }

  /** What `generate_summary_report` computes before templating. */
  datatype SummaryReport =
    | NothingFound(message: string)
    | Summary(total: nat, oldest: StoppedInstance, regions: Dict<nat>, compartments: Dict<nat>)

  /** `r` summarises `results`: the fixed message for an empty list;
      otherwise the total, the first oldest record and the exact region and
      compartment breakdowns. */
  ghost predicate IsSummaryOf(results: seq<StoppedInstance>, r: SummaryReport) {
    if results == [] then r == NothingFound(NoInstancesMessage)
    else
      && r.Summary?
      && r.total == |results|
      && r.oldest == FirstOldest(results)
      && IsBreakdownOf(r.regions, results, RegionField)
      && IsBreakdownOf(r.compartments, results, CompartmentField)
  }

  method GenerateSummary(results: seq<StoppedInstance>) returns (report: SummaryReport)
    ensures report.NothingFound? <==> results == []
    ensures IsSummaryOf(results, report)
  {
    if results == [] {
      return NothingFound(NoInstancesMessage);
    }
    var regions := Breakdown(results, RegionField);
    var compartments := Breakdown(results, CompartmentField);
    report := Summary(|results|, FirstOldest(results), regions, compartments);
  }

  /** Records of 400 and 45 days: one in the 365+ range, one in 30-89. */
  lemma HistogramExample(a: StoppedInstance, b: StoppedInstance)
    requires a.daysSinceCreated == 400 && b.daysSinceCreated == 45
    ensures CountInRange([a, b], Days365Plus) == 1
    ensures CountInRange([a, b], Days30To89) == 1
  {
    assert [a, b][..1] == [a] && [a][..0] == [];
    assert RangeOf(400) == Days365Plus && RangeOf(45) == Days30To89;
    assert CountInRange([a], Days365Plus) == 1 && CountInRange([a], Days30To89) == 0;
  }
}
