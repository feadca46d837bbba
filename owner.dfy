/** Owner resolution (`get_owner_from_tags`): a first-match-wins search over
    the freeform tags, then over the defined-tag namespaces in order, with
    exact, case-sensitive key matching and the literal fallback "Unknown". */
module Owner {
  import opened Model

  const FreeformOwnerKeys: seq<string> := ["Owner", "CreatedBy", "Contact", "Maintainer", "Team"]
  const DefinedOwnerKeys: seq<string> := ["Owner", "CreatedBy", "Contact", "ApplicationOwner"]

  /** Position of the first key of `keys` that `tags` holds, or |keys| if none. */
  function FirstKeyIndex(tags: map<string, string>, keys: seq<string>): (i: nat)
    ensures i <= |keys|
    ensures i < |keys| ==> keys[i] in tags
    ensures forall j :: 0 <= j < i ==> keys[j] !in tags
  {
    if keys == [] then 0
    else if keys[0] in tags then 0
    else 1 + FirstKeyIndex(tags, keys[1..])
  }

  /** The value under the first key of `keys` that `tags` holds. */
  function FirstPresent(tags: map<string, string>, keys: seq<string>): (r: Option<string>)
    ensures r.None? <==> forall k :: k in keys ==> k !in tags
    ensures r.Some? ==>
      var i := FirstKeyIndex(tags, keys);
      i < |keys| && r.value == tags[keys[i]]
  {
    if keys == [] then None
    else if keys[0] in tags then Some(tags[keys[0]])
    else FirstPresent(tags, keys[1..])
  }

  /** A namespace that yields an owner: a tag dictionary holding one of the defined-tag keys. */
  predicate NamespaceHit(v: NamespaceValue) {
    v.TagDict? && FirstPresent(v.tags, DefinedOwnerKeys).Some?
  }

  /** Position of the first namespace that yields an owner, or |ns| if none. */
  function FirstHit(ns: DefinedTags): (i: nat)
    ensures i <= |ns|
    ensures i < |ns| ==> NamespaceHit(ns[i].1)
    ensures forall j :: 0 <= j < i ==> !NamespaceHit(ns[j].1)
  {
    if ns == [] then 0
    else if NamespaceHit(ns[0].1) then 0
    else 1 + FirstHit(ns[1..])
  }

  /** The owner found in the first namespace that yields one. */
  function ScanNamespaces(ns: DefinedTags): (r: Option<string>)
    ensures r.None? <==> FirstHit(ns) == |ns|
    ensures r.Some? ==> r == FirstPresent(ns[FirstHit(ns)].1.tags, DefinedOwnerKeys)
  {
    if ns == [] then None
    else if NamespaceHit(ns[0].1) then FirstPresent(ns[0].1.tags, DefinedOwnerKeys)
    else ScanNamespaces(ns[1..])
  }

  /** `get_owner_from_tags(defined_tags, freeform_tags)` */
  function GetOwnerFromTags(defined: DefinedTags, freeform: FreeformTags): (owner: string)
    ensures FirstPresent(freeform, FreeformOwnerKeys).Some? ==>
      owner == FirstPresent(freeform, FreeformOwnerKeys).value
    ensures FirstPresent(freeform, FreeformOwnerKeys).None? && ScanNamespaces(defined).Some? ==>
      owner == ScanNamespaces(defined).value
    ensures owner == Unknown || owner in freeform.Values ||
      exists i :: 0 <= i < |defined| && defined[i].1.TagDict? && owner in defined[i].1.tags.Values
  {
    match FirstPresent(freeform, FreeformOwnerKeys)
    case Some(v) => v
    case None =>
      match ScanNamespaces(defined)
      case Some(v) => v
      case None => Unknown
  }

  /** The freeform key of highest priority that is present decides the owner,
      whatever its value (even "") and whatever the defined tags hold. */
  lemma FreeformPriority(defined: DefinedTags, freeform: FreeformTags, i: nat)
    requires i < |FreeformOwnerKeys| && FreeformOwnerKeys[i] in freeform
    requires forall j :: 0 <= j < i ==> FreeformOwnerKeys[j] !in freeform
    ensures GetOwnerFromTags(defined, freeform) == freeform[FreeformOwnerKeys[i]]
  {
    assert FreeformOwnerKeys[i] in FreeformOwnerKeys;
    assert FirstKeyIndex(freeform, FreeformOwnerKeys) == i;
  }

  /** Without a freeform hit, the first namespace that yields an owner decides,
      through the defined-tag key order. */
  lemma DefinedNamespacePriority(defined: DefinedTags, freeform: FreeformTags, i: nat, k: nat)
    requires forall key :: key in FreeformOwnerKeys ==> key !in freeform
    requires i < |defined| && defined[i].1.TagDict?
    requires forall j :: 0 <= j < i ==> !NamespaceHit(defined[j].1)
    requires k < |DefinedOwnerKeys| && DefinedOwnerKeys[k] in defined[i].1.tags
    requires forall j :: 0 <= j < k ==> DefinedOwnerKeys[j] !in defined[i].1.tags
    ensures GetOwnerFromTags(defined, freeform) == defined[i].1.tags[DefinedOwnerKeys[k]]
  {
    var tags := defined[i].1.tags;
    assert DefinedOwnerKeys[k] in DefinedOwnerKeys;
    assert FirstKeyIndex(tags, DefinedOwnerKeys) == k;
    assert NamespaceHit(defined[i].1);
    assert FirstHit(defined) == i;
  }

  /** Once a namespace yields an owner, namespaces after it are never consulted. */
  lemma {:induction false} LaterNamespacesIgnored(front: DefinedTags, back: DefinedTags)
    requires exists i :: 0 <= i < |front| && NamespaceHit(front[i].1)
    ensures ScanNamespaces(front + back) == ScanNamespaces(front)
  {
    if NamespaceHit(front[0].1) {
      assert (front + back)[0] == front[0];
    } else {
      var i :| 0 <= i < |front| && NamespaceHit(front[i].1);
      assert front[1..][i - 1] == front[i];
      assert (front + back)[1..] == front[1..] + back;
      LaterNamespacesIgnored(front[1..], back);
    }
  }

  /** Nothing matches: the owner is exactly "Unknown". */
  lemma NoMatchIsUnknown(defined: DefinedTags, freeform: FreeformTags)
    requires forall key :: key in FreeformOwnerKeys ==> key !in freeform
    requires forall i :: 0 <= i < |defined| ==> !NamespaceHit(defined[i].1)
    ensures GetOwnerFromTags(defined, freeform) == Unknown
  {
  }

  /** Matching is exact: a lower-case "owner" key is not the "Owner" key,
      while a higher-priority key wins over a lower one and an empty value is returned as is. */
  lemma OwnerExamples()
    ensures GetOwnerFromTags([], map["Owner" := "alice", "Team" := "bravo"]) == "alice"
    ensures GetOwnerFromTags([], map["owner" := "alice"]) == Unknown
    ensures GetOwnerFromTags([("ns", TagDict(map["Owner" := "bob"]))], map["Owner" := ""]) == ""
    ensures GetOwnerFromTags([("a", NotADict), ("b", TagDict(map["Contact" := "carol"])),
                              ("c", TagDict(map["Owner" := "dave"]))], map[]) == "carol"
  {
    FreeformPriority([], map["Owner" := "alice", "Team" := "bravo"], 0);
    FreeformPriority([("ns", TagDict(map["Owner" := "bob"]))], map["Owner" := ""], 0);
    var d: DefinedTags := [("a", NotADict), ("b", TagDict(map["Contact" := "carol"])),
                           ("c", TagDict(map["Owner" := "dave"]))];
    assert "Owner" != "Contact" && "CreatedBy" != "Contact";
    DefinedNamespacePriority(d, map[], 1, 2);
  }
}
