/** What the region and compartment lookups put in the lister's caches, as
    functions of the identity service's replies. */
module Lookup {
  import opened Model
  import opened PyDict

  const ReadyStatus: string := "READY"
  const ActiveState: string := "ACTIVE"
  /** The regions used when listing the region subscriptions raises. */
  const FallbackRegions: seq<string> := ["us-ashburn-1", "us-phoenix-1"]
  const RootCompartment: string := "Root Compartment"
  const RootSuffix: string := " (Root)"

  // ------------------------------------------------------------------ regions

  /** The names of the READY subscriptions, in listing order. */
  function ReadyRegions(subs: seq<RegionSubscription>): (names: seq<string>)
    ensures |names| <= |subs|
  {
    if subs == [] then []
    else
      var last := subs[|subs| - 1];
      ReadyRegions(subs[..|subs| - 1]) + (if last.status == ReadyStatus then [last.regionName] else [])
  }

  /** A region is listed exactly when one of its subscriptions is READY. */
  lemma {:induction false} ReadyRegionsMembers(subs: seq<RegionSubscription>)
    ensures forall n :: n in ReadyRegions(subs) <==>
      exists k :: 0 <= k < |subs| && subs[k].status == ReadyStatus && subs[k].regionName == n
  {
    if subs != [] {
      var init := subs[..|subs| - 1];
      ReadyRegionsMembers(init);
      forall n ensures n in ReadyRegions(subs) <==>
        exists k :: 0 <= k < |subs| && subs[k].status == ReadyStatus && subs[k].regionName == n
      {
        if exists k :: 0 <= k < |subs| && subs[k].status == ReadyStatus && subs[k].regionName == n {
          var k :| 0 <= k < |subs| && subs[k].status == ReadyStatus && subs[k].regionName == n;
          if k < |subs| - 1 {
            assert init[k] == subs[k];
          }
        }
        if n in ReadyRegions(init) {
          var k :| 0 <= k < |init| && init[k].status == ReadyStatus && init[k].regionName == n;
          assert subs[k] == init[k];
        }
      }
    }
  }

  /** Filtering keeps the listing order: it distributes over concatenation. */
  lemma {:induction false} ReadyRegionsConcat(a: seq<RegionSubscription>, b: seq<RegionSubscription>)
    ensures ReadyRegions(a + b) == ReadyRegions(a) + ReadyRegions(b)
  {
    if b != [] {
      var b' := b[..|b| - 1];
      assert (a + b)[..|a + b| - 1] == a + b';
      ReadyRegionsConcat(a, b');
    } else {
      assert a + b == a;
    }
  }

  /** A READY region and one still being subscribed: only the first is used. */
  lemma ReadyRegionsExample()
    ensures ReadyRegions([RegionSubscription("us-ashburn-1", "READY"),
                          RegionSubscription("eu-frankfurt-1", "IN_PROGRESS")]) == ["us-ashburn-1"]
  {
    var s := [RegionSubscription("us-ashburn-1", "READY"), RegionSubscription("eu-frankfurt-1", "IN_PROGRESS")];
    assert s[..1] == [s[0]] && [s[0]][..0] == [];
    assert "IN_PROGRESS" != ReadyStatus;
  }

  // ------------------------------------------------------------ compartments

  /** The name `get_compartment` gives an id, or "Unknown" when it raises. */
  function NameOrUnknown(id: string, names: map<string, string>): string {
    if id in names then names[id] else Unknown
  }

  /** The cache after looking up the requested ids one at a time. */
  function NamedIds(ids: seq<string>, names: map<string, string>): (d: Dict<string>)
    ensures Valid(d)
  {
    if ids == [] then Empty()
    else
      var id := ids[|ids| - 1];
      Put(NamedIds(ids[..|ids| - 1], names), id, NameOrUnknown(id, names))
  }

  /** The cache after recording every ACTIVE compartment of a listing. */
  function ActiveEntries(comps: seq<Compartment>): (d: Dict<string>)
    ensures Valid(d)
  {
    if comps == [] then Empty()
    else
      var c := comps[|comps| - 1];
      var d := ActiveEntries(comps[..|comps| - 1]);
      if c.lifecycleState == ActiveState then Put(d, c.id, c.name) else d
  }

  /** The cache the exception handler leaves: the root compartment only. */
  function RootOnly(tenancyId: string): (d: Dict<string>)
    ensures Valid(d)
  {
    Put(Empty(), tenancyId, RootCompartment)
  }

  /** The name recorded for the tenancy after a listing. */
  function RootName(tenancyName: Option<string>): string {
    if tenancyName.Some? then tenancyName.value + RootSuffix else RootCompartment
  }

  /** The compartment cache `get_all_compartments` builds from an empty one. */
  function CompartmentLookup(tenancyId: string, compartmentIds: Option<seq<string>>, replies: IdentityReplies)
    : (d: Dict<string>)
    ensures Valid(d)
  {
    if !replies.clientCreated then RootOnly(tenancyId)
    else if compartmentIds.Some? && compartmentIds.value != [] then
      NamedIds(compartmentIds.value, replies.compartmentNames)
    else if replies.listing.None? then RootOnly(tenancyId)
    else Put(ActiveEntries(replies.listing.value), tenancyId, RootName(replies.tenancyName))
  }

  /** Requested ids: every id is a key, with its name or "Unknown", and
      nothing else is. */
  lemma {:induction false} NamedIdsEntries(ids: seq<string>, names: map<string, string>)
    ensures forall k :: k in NamedIds(ids, names).entries <==> k in ids
    ensures forall k :: k in ids ==> NamedIds(ids, names).entries[k] == NameOrUnknown(k, names)
  {
    if ids != [] {
      var init := ids[..|ids| - 1];
      NamedIdsEntries(init, names);
      assert ids == init + [ids[|ids| - 1]];
    }
  }

  /** A listed id is a key exactly when one of its listings is ACTIVE. */
  lemma {:induction false} ActiveEntriesKeys(comps: seq<Compartment>)
    ensures forall k :: k in ActiveEntries(comps).entries <==>
      exists j :: 0 <= j < |comps| && comps[j].lifecycleState == ActiveState && comps[j].id == k
  {
    if comps != [] {
      var init := comps[..|comps| - 1];
      ActiveEntriesKeys(init);
      forall k ensures k in ActiveEntries(comps).entries <==>
        exists j :: 0 <= j < |comps| && comps[j].lifecycleState == ActiveState && comps[j].id == k
      {
        if exists j :: 0 <= j < |comps| && comps[j].lifecycleState == ActiveState && comps[j].id == k {
          var j :| 0 <= j < |comps| && comps[j].lifecycleState == ActiveState && comps[j].id == k;
          if j < |comps| - 1 {
            assert init[j] == comps[j];
          }
        }
        if k in ActiveEntries(init).entries {
          var j :| 0 <= j < |init| && init[j].lifecycleState == ActiveState && init[j].id == k;
          assert comps[j] == init[j];
        }
      }
    }
  }

  /** `comps[j]` is the last ACTIVE listing of id `k`. */
  predicate LastActive(comps: seq<Compartment>, j: int, k: string) {
    && 0 <= j < |comps| && comps[j].lifecycleState == ActiveState && comps[j].id == k
    && forall j' :: j < j' < |comps| && comps[j'].id == k ==> comps[j'].lifecycleState != ActiveState
  }

  /** A key's name comes from the LAST active listing of that id: later
      entries overwrite earlier ones. */
  lemma {:induction false} ActiveEntriesNames(comps: seq<Compartment>, k: string)
    requires k in ActiveEntries(comps).entries
    ensures exists j :: LastActive(comps, j, k) && comps[j].name == ActiveEntries(comps).entries[k]
  {
    var n := |comps| - 1;
    var init := comps[..n];
    var c := comps[n];
    if c.lifecycleState == ActiveState && c.id == k {
      assert ActiveEntries(comps).entries[k] == c.name;
      assert LastActive(comps, n, k);
    } else {
      assert ActiveEntries(comps).entries[k] == ActiveEntries(init).entries[k];
      ActiveEntriesNames(init, k);
      var j :| LastActive(init, j, k) && init[j].name == ActiveEntries(init).entries[k];
      assert comps[j] == init[j];
      forall j' | j < j' < |comps| && comps[j'].id == k ensures comps[j'].lifecycleState != ActiveState {
        if j' < n {
          assert comps[j'] == init[j'];
        }
      }
      assert LastActive(comps, j, k);
    }
  }

  /** Whatever the replies, the lookup leaves a non-empty cache, so a
      second call returns it without asking the service again. */
  lemma LookupIsNeverEmpty(tenancyId: string, compartmentIds: Option<seq<string>>, replies: IdentityReplies)
    ensures CompartmentLookup(tenancyId, compartmentIds, replies).keys != []
  {
    var d := CompartmentLookup(tenancyId, compartmentIds, replies);
    if replies.clientCreated && compartmentIds.Some? && compartmentIds.value != [] {
      NamedIdsEntries(compartmentIds.value, replies.compartmentNames);
      assert compartmentIds.value[0] in d.entries;
    } else {
      assert tenancyId in d.entries;
    }
  }

  /** When the client or the listing fails, only the root compartment is known. */
  lemma FailedLookupIsRootOnly(tenancyId: string, compartmentIds: Option<seq<string>>, replies: IdentityReplies)
    requires !replies.clientCreated || ((compartmentIds.None? || compartmentIds.value == []) && replies.listing.None?)
    ensures CompartmentLookup(tenancyId, compartmentIds, replies).keys == [tenancyId]
    ensures CompartmentLookup(tenancyId, compartmentIds, replies).entries == map[tenancyId := RootCompartment]
  {
  }

  /** After a listing, the tenancy is always a key, named "<name> (Root)" or
      "Root Compartment", even if the listing also holds it. The other keys
      are exactly the ACTIVE listed compartments, each named after its last
      ACTIVE listing. */
  lemma ListedLookup(tenancyId: string, compartmentIds: Option<seq<string>>, replies: IdentityReplies)
    requires replies.clientCreated && (compartmentIds.None? || compartmentIds.value == [])
    requires replies.listing.Some?
    ensures var d := CompartmentLookup(tenancyId, compartmentIds, replies);
      && tenancyId in d.entries
      && d.entries[tenancyId] == RootName(replies.tenancyName)
      && forall k :: k in d.entries && k != tenancyId ==>
           exists j :: 0 <= j < |replies.listing.value| && replies.listing.value[j].lifecycleState == ActiveState
             && replies.listing.value[j].id == k
    ensures var d := CompartmentLookup(tenancyId, compartmentIds, replies);
      forall j :: (0 <= j < |replies.listing.value| && replies.listing.value[j].lifecycleState == ActiveState
                   && replies.listing.value[j].id != tenancyId) ==> replies.listing.value[j].id in d.entries
    ensures var d := CompartmentLookup(tenancyId, compartmentIds, replies);
      forall k :: k in d.entries && k != tenancyId ==>
        exists j :: LastActive(replies.listing.value, j, k) && replies.listing.value[j].name == d.entries[k]
  {
    var listing := replies.listing.value;
    ActiveEntriesKeys(listing);
    var d := CompartmentLookup(tenancyId, compartmentIds, replies);
    forall k | k in d.entries && k != tenancyId
      ensures exists j :: LastActive(listing, j, k) && listing[j].name == d.entries[k]
    {
      ActiveEntriesNames(listing, k);
    }
  }
}
