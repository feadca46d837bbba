/** The lister object of `oci_instance_deallocated_analysis.py`: its caches,
    its scan counters, and the operations that fill them and drive one run. */
module Lister {
  import opened Model
  import opened PyDict
  import opened Ordering
  import opened Discovery
  import opened Processing
  import opened Report
  import opened Lookup

  /** What `list_stopped_instances` returns: nothing found, nothing over the
      threshold, or the sorted records with the statistics of both reports. */
  datatype RunOutcome =
    | NoneFound
    | NoneOverThreshold
    | Found(results: seq<StoppedInstance>, html: HtmlStats, summary: SummaryReport)

  /** The `get_compartment` loop: each requested id is recorded with its
      name, or "Unknown" when the call raises. */
  method LookUpIds(ids: seq<string>, names: map<string, string>) returns (cache: Dict<string>)
    ensures cache == NamedIds(ids, names)
    ensures forall k :: k in cache.entries <==> k in ids
  {
    cache := Empty();
    for i := 0 to |ids|
      invariant cache == NamedIds(ids[..i], names)
    {
      cache := Put(cache, ids[i], NameOrUnknown(ids[i], names));
      assert ids[..i + 1][..i] == ids[..i];
    }
    assert ids[..|ids|] == ids;
    NamedIdsEntries(ids, names);
  }

  /** The `list_compartments` loop: every ACTIVE compartment is recorded. */
  method RecordActive(comps: seq<Compartment>) returns (cache: Dict<string>)
    ensures cache == ActiveEntries(comps)
    ensures forall k :: k in cache.entries <==>
      exists j :: 0 <= j < |comps| && comps[j].lifecycleState == ActiveState && comps[j].id == k
  {
    cache := Empty();
    for i := 0 to |comps|
      invariant cache == ActiveEntries(comps[..i])
    {
      if comps[i].lifecycleState == ActiveState {
        cache := Put(cache, comps[i].id, comps[i].name);
      }
      assert comps[..i + 1][..i] == comps[..i];
    }
    assert comps[..|comps|] == comps;
    ActiveEntriesKeys(comps);
  }

  class SimpleStoppedInstanceLister {
    const tenancyId: string
    var regionCache: seq<string>
    var compartmentCache: Dict<string>
    var regionsScanned: nat
    var compartmentsScanned: nat
    var stoppedInstancesFound: nat

    ghost predicate Valid()
      reads this
    {
      PyDict.Valid(compartmentCache)
    }

    constructor (tenancyId: string)
      ensures Valid()
      ensures this.tenancyId == tenancyId
      ensures regionCache == [] && compartmentCache == Empty()
      ensures regionsScanned == 0 && compartmentsScanned == 0 && stoppedInstancesFound == 0
    {
      this.tenancyId := tenancyId;
      regionCache := [];
      compartmentCache := Empty();
      regionsScanned := 0;
      compartmentsScanned := 0;
      stoppedInstancesFound := 0;
    }

    /** `get_subscribed_regions`: a non-empty cache is returned as it is;
        otherwise the READY regions are cached (possibly none, so the next
        call asks again), or the two fallback regions when listing raises.
        `reply` is `None` when the identity service raises. */
    method GetSubscribedRegions(reply: Option<seq<RegionSubscription>>) returns (regions: seq<string>)
      requires Valid()
      modifies this
      ensures Valid()
      ensures regions == regionCache
      ensures old(regionCache) != [] ==> regionCache == old(regionCache)
      ensures old(regionCache) == [] && reply.None? ==> regionCache == FallbackRegions
      ensures old(regionCache) == [] && reply.Some? ==> regionCache == ReadyRegions(reply.value)
      ensures compartmentCache == old(compartmentCache)
      ensures regionsScanned == old(regionsScanned) && compartmentsScanned == old(compartmentsScanned)
      ensures stoppedInstancesFound == old(stoppedInstancesFound)
    {
      if regionCache != [] {
        return regionCache;
      }
      if reply.None? {
        regionCache := FallbackRegions;
      } else {
        regionCache := ReadyRegions(reply.value);
      }
      regions := regionCache;
    }

    /** `get_all_compartments`: a non-empty cache is returned as it is;
        otherwise it is filled from the identity service, one entry at a
        time, and is never empty afterwards. */
    method GetAllCompartments(compartmentIds: Option<seq<string>>, replies: IdentityReplies)
      returns (compartments: Dict<string>)
      requires Valid()
      modifies this
      ensures Valid()
      ensures compartments == compartmentCache && compartmentCache.keys != []
      ensures old(compartmentCache.keys) != [] ==> compartmentCache == old(compartmentCache)
      ensures old(compartmentCache.keys) == [] ==>
        compartmentCache == CompartmentLookup(tenancyId, compartmentIds, replies)
      ensures regionCache == old(regionCache)
      ensures regionsScanned == old(regionsScanned) && compartmentsScanned == old(compartmentsScanned)
      ensures stoppedInstancesFound == old(stoppedInstancesFound)
    {
      if compartmentCache.keys != [] {
        return compartmentCache;
      }
      assert compartmentCache == Empty();
      LookupIsNeverEmpty(tenancyId, compartmentIds, replies);
      var cache := compartmentCache;
      if !replies.clientCreated {
        // building the client raises: the handler keeps the root only
        cache := RootOnly(tenancyId);
      } else if compartmentIds.Some? && compartmentIds.value != [] {
        cache := LookUpIds(compartmentIds.value, replies.compartmentNames);
      } else if replies.listing.None? {
        // the listing raises: the handler replaces the cache by the root only
        cache := RootOnly(tenancyId);
      } else {
        cache := RecordActive(replies.listing.value);
        cache := Put(cache, tenancyId, RootName(replies.tenancyName));
      }
      compartmentCache := cache;
      compartments := compartmentCache;
    }

    /** `discover_stopped_instances`, with the scans run one after the other
        in task order. The result is every scan's instances stamped with
        their region, and its length is recorded. */
    method DiscoverStoppedInstances(regions: seq<string>, compartmentIds: seq<string>, replies: ScanReplies)
      returns (all: seq<RawInstance>)
      modifies this
      ensures all == Merged(Tasks(regions, compartmentIds), replies)
      ensures forall x :: x in all ==> exists r :: r in regions && x.region == Some(r)
      ensures stoppedInstancesFound == |all|
      ensures regionCache == old(regionCache) && compartmentCache == old(compartmentCache)
      ensures regionsScanned == old(regionsScanned) && compartmentsScanned == old(compartmentsScanned)
    {
      var tasks := BuildTasks(regions, compartmentIds);
      all := CollectScans(tasks, replies);
      stoppedInstancesFound := |all|;
    }

    /** `process_instances`: each instance that processes without raising
        and is at least `minDays` old is kept, and the list is sorted
        oldest first, stably. */
    method ProcessInstances(instances: seq<RawInstance>, minDays: int, now: int)
      returns (results: seq<StoppedInstance>)
      ensures results == ProcessInstancesResult(instances, compartmentCache.entries, now, minDays)
      ensures SortedByAgeDesc(results)
      ensures multiset(results) == multiset(Kept(instances, compartmentCache.entries, now, minDays))
      ensures forall x :: x in results ==> x.daysSinceCreated >= minDays
    {
      var cache := compartmentCache.entries;
      results := [];
      for i := 0 to |instances|
        invariant results == Kept(instances[..i], cache, now, minDays)
      {
        var raw := instances[i];
        var r := ProcessStoppedInstance(raw, GetOr(raw.region, UnknownRegion), cache, now);
        if r.Some? && r.value.daysSinceCreated >= minDays {
          results := results + [r.value];
        }
        KeptStep(instances, cache, now, minDays, i);
      }
      assert instances[..|instances|] == instances;
      var kept := results;
      FilterMembers(ProcessedAll(instances, cache, now), minDays);
      results := SortByAgeDesc(kept);
      forall x | x in results ensures x.daysSinceCreated >= minDays {
        assert x in multiset(kept);
      }
    }

    /** `list_stopped_instances`: regions default to the subscribed ones,
        compartments to the cached lookup; the scan counters are set, the
        instances discovered and processed, and the statistics of both
        reports computed when something is over the threshold. */
    method ListStoppedInstances(regions: seq<string>, compartmentIds: Option<seq<string>>, minDays: int,
                                now: int, regionReply: Option<seq<RegionSubscription>>,
                                identity: IdentityReplies, scans: ScanReplies)
      returns (outcome: RunOutcome)
      requires Valid()
      modifies this
      ensures Valid()
      ensures regions != [] ==> regionCache == old(regionCache)
      ensures regions == [] ==>
        regionCache == (if old(regionCache) != [] then old(regionCache)
                        else if regionReply.None? then FallbackRegions
                        else ReadyRegions(regionReply.value))
      ensures compartmentCache ==
        if old(compartmentCache.keys) != [] then old(compartmentCache)
        else CompartmentLookup(tenancyId, compartmentIds, identity)
      ensures var scanned := if regions != [] then regions else regionCache;
        && regionsScanned == |scanned|
        && compartmentsScanned == |compartmentCache.keys| > 0
        && var found := Merged(Tasks(scanned, compartmentCache.keys), scans);
        && stoppedInstancesFound == |found|
        && (outcome.NoneFound? <==> found == [])
        && (outcome.NoneOverThreshold? <==>
              found != [] && ProcessInstancesResult(found, compartmentCache.entries, now, minDays) == [])
        && (outcome.Found? ==>
              outcome.results == ProcessInstancesResult(found, compartmentCache.entries, now, minDays)
              && outcome.results != []
              && IsHtmlStatsOf(outcome.results, outcome.html)
              && IsSummaryOf(outcome.results, outcome.summary))
    {
      var scanned := regions;
      if regions == [] {
        scanned := GetSubscribedRegions(regionReply);
      }
      regionsScanned := |scanned|;
      var compartments := GetAllCompartments(compartmentIds, identity);
      var compartmentList := compartments.keys;
      compartmentsScanned := |compartmentList|;
      var stopped := DiscoverStoppedInstances(scanned, compartmentList, scans);
      if stopped == [] {
        return NoneFound;
      }
      var results := ProcessInstances(stopped, minDays, now);
      if results == [] {
        return NoneOverThreshold;
      }
      var html := GenerateHtmlStats(results);
      var summary := GenerateSummary(results);
      outcome := Found(results, html, summary);
    }
  }
}
