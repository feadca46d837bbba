/** Record building and filtering: `process_stopped_instance` turns one raw
    instance into a report record, and `process_instances` keeps the records
    at or over the `min_days` threshold, oldest first. */
module Processing {
  import opened Model
  import opened Owner
  import opened Age
  import opened Ordering

  const UnknownRegion: string := "unknown"

  function GetOr(o: Option<string>, default: string): string {
    match o
    case Some(v) => v
    case None => default
  }

  /** Every attribute read without a default is present; otherwise building
      the record raises `AttributeError`. */
  predicate Processable(raw: RawInstance) {
    raw.displayName.Some? && raw.id.Some? && raw.shape.Some? &&
    raw.compartmentId.Some? && raw.timeCreated.Some?
  }

  /** `process_stopped_instance(instance, region)` with the compartment cache
      `compartments`; `None` when it raises. */
  function ProcessStoppedInstance(raw: RawInstance, region: string, compartments: map<string, string>, now: int)
    : (r: Option<StoppedInstance>)
    ensures r.Some? <==> Processable(raw)
    ensures r.Some? ==> r.value.region == region && r.value.instanceId == raw.id.value
    ensures r.Some? ==> r.value.compartmentId == raw.compartmentId.value
    ensures r.Some? && raw.compartmentId.value in compartments ==>
      r.value.compartmentName == compartments[raw.compartmentId.value]
    ensures r.Some? && raw.compartmentId.value !in compartments ==>
      r.value.compartmentName == Unknown
    ensures r.Some? ==> r.value.daysSinceCreated == DaysSinceCreated(raw.timeCreated.value, now)
    ensures r.Some? ==> r.value.instanceOwner == GetOwnerFromTags(raw.definedTags, raw.freeformTags)
    ensures r.Some? ==>
      && r.value.instanceName == raw.displayName.value
      && r.value.shape == raw.shape.value
      && r.value.timeCreated == raw.timeCreated.value
    ensures r.Some? ==>
      && (raw.availabilityDomain.Some? ==> r.value.availabilityDomain == raw.availabilityDomain.value)
      && (raw.faultDomain.Some? ==> r.value.faultDomain == raw.faultDomain.value)
      && (raw.imageId.Some? ==> r.value.imageId == raw.imageId.value)
    ensures r.Some? ==>
      && (raw.availabilityDomain.None? ==> r.value.availabilityDomain == Unknown)
      && (raw.faultDomain.None? ==> r.value.faultDomain == Unknown)
      && (raw.imageId.None? ==> r.value.imageId == Unknown)
  {
    if !Processable(raw) then None
    else
      var cid := raw.compartmentId.value;
      var compartmentName := if cid in compartments then compartments[cid] else Unknown;
      Some(StoppedInstance(
        instanceName := raw.displayName.value,
        instanceId := raw.id.value,
        shape := raw.shape.value,
        region := region,
        availabilityDomain := GetOr(raw.availabilityDomain, Unknown),
        compartmentName := compartmentName,
        compartmentId := cid,
        timeCreated := raw.timeCreated.value,
        daysSinceCreated := DaysSinceCreated(raw.timeCreated.value, now),
        instanceOwner := GetOwnerFromTags(raw.definedTags, raw.freeformTags),
        faultDomain := GetOr(raw.faultDomain, Unknown),
        imageId := GetOr(raw.imageId, Unknown)))
  }

  /** The record of `raw` as `process_instances` builds it: with the region
      discovery stamped on it, or "unknown". */
  function Process(raw: RawInstance, compartments: map<string, string>, now: int): (r: Option<StoppedInstance>)
    ensures r.Some? <==> Processable(raw)
    ensures r.Some? ==> r.value.region == (if raw.region.Some? then raw.region.value else UnknownRegion)
  {
    ProcessStoppedInstance(raw, GetOr(raw.region, UnknownRegion), compartments, now)
  }

  /** The records of `instances` whose processing succeeds, in input order. */
  function ProcessedAll(instances: seq<RawInstance>, compartments: map<string, string>, now: int)
    : seq<StoppedInstance>
  {
    if instances == [] then []
    else
      var last := Process(instances[|instances| - 1], compartments, now);
      ProcessedAll(instances[..|instances| - 1], compartments, now) + (if last.Some? then [last.value] else [])
  }

  /** Keep the records of age `minDays` or more, in order. */
  function FilterMinDays(s: seq<StoppedInstance>, minDays: int): (r: seq<StoppedInstance>)
    ensures |r| <= |s|
  {
    if s == [] then []
    else
      FilterMinDays(s[..|s| - 1], minDays) + (if s[|s| - 1].daysSinceCreated >= minDays then [s[|s| - 1]] else [])
  }

  /** A record survives the threshold exactly when it is in the input and
      at least `minDays` old. */
  lemma {:induction false} FilterMembers(s: seq<StoppedInstance>, minDays: int)
    ensures forall x :: x in FilterMinDays(s, minDays) <==> x in s && x.daysSinceCreated >= minDays
  {
    if s != [] {
      var init := s[..|s| - 1];
      FilterMembers(init, minDays);
      assert s == init + [s[|s| - 1]];
    }
  }

  /** The records `process_instances` appends to `results`, before sorting. */
  function Kept(instances: seq<RawInstance>, compartments: map<string, string>, now: int, minDays: int)
    : seq<StoppedInstance>
  {
    FilterMinDays(ProcessedAll(instances, compartments, now), minDays)
  }

  /** The list `process_instances` returns. */
  function ProcessInstancesResult(instances: seq<RawInstance>, compartments: map<string, string>, now: int, minDays: int)
    : (results: seq<StoppedInstance>)
    ensures SortedByAgeDesc(results)
    ensures multiset(results) == multiset(Kept(instances, compartments, now, minDays))
  {
    SortByAgeDesc(Kept(instances, compartments, now, minDays))
  }

  /** One more instance adds its record to `Kept` when it processes and is
      old enough, and nothing otherwise. */
  lemma KeptStep(instances: seq<RawInstance>, compartments: map<string, string>, now: int, minDays: int, i: nat)
    requires i < |instances|
    ensures var r := Process(instances[i], compartments, now);
      Kept(instances[..i + 1], compartments, now, minDays) ==
        Kept(instances[..i], compartments, now, minDays) +
        (if r.Some? && r.value.daysSinceCreated >= minDays then [r.value] else [])
  {
    var r := Process(instances[i], compartments, now);
    assert instances[..i + 1][..i] == instances[..i];
    var tail := if r.Some? then [r.value] else [];
    FilterConcat(ProcessedAll(instances[..i], compartments, now), tail, minDays);
    if r.Some? {
      assert [r.value][..0] == [];
    }
  }

  /** A record is kept exactly when it comes from an instance that processes
      successfully and is at least `minDays` old. */
  lemma {:induction false} KeptMembers(instances: seq<RawInstance>, compartments: map<string, string>, now: int, minDays: int)
    ensures forall x :: x in Kept(instances, compartments, now, minDays) <==>
      (x.daysSinceCreated >= minDays &&
       exists k :: 0 <= k < |instances| && Process(instances[k], compartments, now) == Some(x))
  {
    ProcessedMembers(instances, compartments, now);
    FilterMembers(ProcessedAll(instances, compartments, now), minDays);
  }

  lemma {:induction false} ProcessedMembers(instances: seq<RawInstance>, compartments: map<string, string>, now: int)
    ensures forall x :: x in ProcessedAll(instances, compartments, now) <==>
      exists k :: 0 <= k < |instances| && Process(instances[k], compartments, now) == Some(x)
  {
    if instances != [] {
      var n := |instances|;
      var init := instances[..n - 1];
      var last := Process(instances[n - 1], compartments, now);
      var front := ProcessedAll(init, compartments, now);
      assert ProcessedAll(instances, compartments, now) == front + (if last.Some? then [last.value] else []);
      ProcessedMembers(init, compartments, now);
      forall x ensures x in ProcessedAll(instances, compartments, now) <==>
        exists k :: 0 <= k < n && Process(instances[k], compartments, now) == Some(x)
      {
        assert x in ProcessedAll(instances, compartments, now) <==> x in front || last == Some(x);
        if exists k :: 0 <= k < n && Process(instances[k], compartments, now) == Some(x) {
          var k :| 0 <= k < n && Process(instances[k], compartments, now) == Some(x);
          if k < n - 1 {
            assert init[k] == instances[k];
          }
        }
        if x in front {
          var k :| 0 <= k < n - 1 && Process(init[k], compartments, now) == Some(x);
          assert instances[k] == init[k];
        }
      }
    }
  }

  lemma {:induction false} ProcessedAllConcat(a: seq<RawInstance>, b: seq<RawInstance>, compartments: map<string, string>, now: int)
    ensures ProcessedAll(a + b, compartments, now) == ProcessedAll(a, compartments, now) + ProcessedAll(b, compartments, now)
    decreases |b|
  {
    if b == [] {
      assert a + b == a;
    } else {
      assert (a + b)[..|a + b| - 1] == a + b[..|b| - 1];
      assert (a + b)[|a + b| - 1] == b[|b| - 1];
      ProcessedAllConcat(a, b[..|b| - 1], compartments, now);
    }
  }

  /** A raw instance whose processing raises is dropped and the rest carry on. */
  lemma FailingInstanceIsDropped(a: seq<RawInstance>, bad: RawInstance, b: seq<RawInstance>,
                                 compartments: map<string, string>, now: int)
    requires !Processable(bad)
    ensures ProcessedAll(a + [bad] + b, compartments, now) == ProcessedAll(a + b, compartments, now)
  {
    ProcessedAllConcat(a + [bad], b, compartments, now);
    ProcessedAllConcat(a, [bad], compartments, now);
    ProcessedAllConcat(a, b, compartments, now);
    assert [bad][..0] == [];
  }

  lemma {:induction false} FilterConcat(s: seq<StoppedInstance>, t: seq<StoppedInstance>, minDays: int)
    ensures FilterMinDays(s + t, minDays) == FilterMinDays(s, minDays) + FilterMinDays(t, minDays)
    decreases |t|
  {
    if t == [] {
      assert s + t == s;
    } else {
      assert (s + t)[..|s + t| - 1] == s + t[..|t| - 1];
      assert (s + t)[|s + t| - 1] == t[|t| - 1];
      FilterConcat(s, t[..|t| - 1], minDays);
    }
  }

  /** Applying the same threshold twice is the same as applying it once. */
  lemma {:induction false} FilterIdempotent(s: seq<StoppedInstance>, minDays: int)
    ensures FilterMinDays(FilterMinDays(s, minDays), minDays) == FilterMinDays(s, minDays)
  {
    var r := FilterMinDays(s, minDays);
    FilterMembers(s, minDays);
    forall k | 0 <= k < |r| ensures r[k].daysSinceCreated >= minDays {
      assert r[k] in r;
    }
    FilterKeepsQualified(r, minDays);
  }

  /** A list whose records all meet the threshold passes through it unchanged. */
  lemma {:induction false} FilterKeepsQualified(s: seq<StoppedInstance>, minDays: int)
    requires forall k :: 0 <= k < |s| ==> s[k].daysSinceCreated >= minDays
    ensures FilterMinDays(s, minDays) == s
  {
    if s != [] {
      var init := s[..|s| - 1];
      forall k | 0 <= k < |init| ensures init[k].daysSinceCreated >= minDays {
        assert init[k] == s[k];
      }
      assert FilterMinDays(s, minDays) == FilterMinDays(init, minDays) + [s[|s| - 1]];
      FilterKeepsQualified(init, minDays);
      assert init + [s[|s| - 1]] == s;
    }
  }

  /** Re-applying `process_instances`' threshold to its own output changes nothing. */
  lemma ResultPassesThreshold(instances: seq<RawInstance>, compartments: map<string, string>, now: int, minDays: int)
    ensures FilterMinDays(ProcessInstancesResult(instances, compartments, now, minDays), minDays)
         == ProcessInstancesResult(instances, compartments, now, minDays)
  {
    var r := ProcessInstancesResult(instances, compartments, now, minDays);
    var kept := Kept(instances, compartments, now, minDays);
    FilterMembers(ProcessedAll(instances, compartments, now), minDays);
    forall k | 0 <= k < |r| ensures r[k].daysSinceCreated >= minDays {
      assert r[k] in multiset(kept);
    }
    FilterKeepsQualified(r, minDays);
  }

  /** Every output record's compartment name is the cached name of its
      compartment id, or "Unknown" when the cache lacks it. */
  lemma ResultCompartmentNames(instances: seq<RawInstance>, compartments: map<string, string>, now: int, minDays: int)
    ensures forall x :: x in ProcessInstancesResult(instances, compartments, now, minDays) ==>
      x.compartmentName == (if x.compartmentId in compartments then compartments[x.compartmentId] else Unknown)
  {
    var kept := Kept(instances, compartments, now, minDays);
    KeptMembers(instances, compartments, now, minDays);
    forall x | x in ProcessInstancesResult(instances, compartments, now, minDays)
      ensures x.compartmentName == (if x.compartmentId in compartments then compartments[x.compartmentId] else Unknown)
    {
      assert x in multiset(kept);
      var k :| 0 <= k < |instances| && Process(instances[k], compartments, now) == Some(x);
    }
  }

  lemma FilterExample(a: StoppedInstance, b: StoppedInstance, c: StoppedInstance)
    requires a.daysSinceCreated == 10 && b.daysSinceCreated == 45 && c.daysSinceCreated == 400
    ensures FilterMinDays([a, b, c], 30) == [b, c]
  {
    assert [a, b, c][..2] == [a, b] && [a, b][..1] == [a] && [a][..0] == [];
    assert FilterMinDays([a], 30) == [];
    assert FilterMinDays([a, b], 30) == [b];
  }

  /** Ages 10, 45 and 400 with threshold 30: the 400-day and the 45-day records remain, oldest first. */
  lemma ThresholdExample(a: StoppedInstance, b: StoppedInstance, c: StoppedInstance)
    requires a.daysSinceCreated == 10 && b.daysSinceCreated == 45 && c.daysSinceCreated == 400
    ensures SortByAgeDesc(FilterMinDays([a, b, c], 30)) == [c, b]
  {
    FilterExample(a, b, c);
    SortSwapsYoungerPair(b, c);
  }

  // As written, the warning in `process_instances`' exception handler reads
  // `instance.id`; for an instance that lacks the attribute this raises again,
  // out of the handler, so the whole call fails instead of skipping the instance.

  /** The loop of `process_instances` as written: `None` when it raises. */
  function KeptAsWritten(instances: seq<RawInstance>, compartments: map<string, string>, now: int, minDays: int)
    : (r: Option<seq<StoppedInstance>>)
    ensures r.None? <==> exists k :: 0 <= k < |instances| && !Processable(instances[k]) && instances[k].id.None?
    ensures r.Some? ==> r.value == Kept(instances, compartments, now, minDays)
  {
    if instances == [] then Some([])
    else
      var n := |instances|;
      var init, last := instances[..n - 1], instances[n - 1];
      var front := KeptAsWritten(init, compartments, now, minDays);
      assert forall k :: 0 <= k < n - 1 ==> init[k] == instances[k];
      if front.None? then None
      else if !Processable(last) && last.id.None? then None
      else
        var p := Process(last, compartments, now);
        assert instances == init + [last];
        FilterConcat(ProcessedAll(init, compartments, now), if p.Some? then [p.value] else [], minDays);
        assert FilterMinDays(if p.Some? then [p.value] else [], minDays)
            == (if p.Some? && p.value.daysSinceCreated >= minDays then [p.value] else []) by {
          if p.Some? { assert [p.value][..0] == []; }
        }
        Some(front.value + (if p.Some? && p.value.daysSinceCreated >= minDays then [p.value] else []))
  }

  /** The discrepancy: an instance without an `id` makes the call as written
      fail, while skipping it (the evident intent) yields an empty result. */
  lemma MissingIdAbortsAsWritten(raw: RawInstance, compartments: map<string, string>, now: int, minDays: int)
    requires raw.id.None?
    ensures KeptAsWritten([raw], compartments, now, minDays).None?
    ensures ProcessInstancesResult([raw], compartments, now, minDays) == []
  {
    assert [raw][..0] == [];
    assert ProcessedAll([raw], compartments, now) == [];
    assert Kept([raw], compartments, now, minDays) == [];
  }
}
