/** Data model of the OCI stopped-instance lister: the raw records the
    compute service returns, the normalised report record, and the replies
    of the identity and compute services, which are inputs of the model. */
module Model {

  datatype Option<T> = None | Some(value: T)

  /** The placeholder written for an unknown owner, compartment name or
      instance attribute. */
  const Unknown: string := "Unknown"

  /** What the age computation is handed as `time_created`: a falsy value
      (None or the empty string), a string that does not parse as an
      ISO-8601 instant, or an instant, in whole seconds since the epoch. */
  datatype CreatedTime = Missing | Unparseable | At(seconds: int)

  /** The value stored under one defined-tag namespace: a dictionary of
      tags, or anything else (which owner resolution skips). */
  datatype NamespaceValue = TagDict(tags: map<string, string>) | NotADict

  /** Defined tags: namespaces in the dictionary's iteration order. */
  type DefinedTags = seq<(string, NamespaceValue)>

  /** Freeform tags: keys are matched exactly, so no order is needed. */
  type FreeformTags = map<string, string>

  /** A raw compute instance. `None` in a field means the attribute is
      absent from the object; reading it without a default raises. Tag
      attributes that are absent or `None` behave like empty ones. */
  datatype RawInstance = RawInstance(
    displayName: Option<string>,
    id: Option<string>,
    shape: Option<string>,
    compartmentId: Option<string>,
    timeCreated: Option<CreatedTime>,
    availabilityDomain: Option<string>,
    faultDomain: Option<string>,
    imageId: Option<string>,
    definedTags: DefinedTags,
    freeformTags: FreeformTags,
    region: Option<string>)

  /** The normalised record of one stopped instance (`StoppedInstance`). */
  datatype StoppedInstance = StoppedInstance(
    instanceName: string,
    instanceId: string,
    shape: string,
    region: string,
    availabilityDomain: string,
    compartmentName: string,
    compartmentId: string,
    timeCreated: CreatedTime,
    daysSinceCreated: nat,
    instanceOwner: string,
    faultDomain: string,
    imageId: string)

  /** One call of `list_instances`: it returns the stopped instances, or
      raises an exception whose text is `message`. */
  datatype CallOutcome = Returned(instances: seq<RawInstance>) | Raised(message: string)

  /** One entry of `list_region_subscriptions`. */
  datatype RegionSubscription = RegionSubscription(regionName: string, status: string)

  /** One entry of `list_compartments`. */
  datatype Compartment = Compartment(id: string, name: string, lifecycleState: string)

  /** The replies of the identity service during one compartment lookup.
      `clientCreated` is false when building the client raises;
      `compartmentNames` holds the ids for which `get_compartment` succeeds;
      `listing` and `tenancyName` are `None` when their call raises. */
  datatype IdentityReplies = IdentityReplies(
    clientCreated: bool,
    compartmentNames: map<string, string>,
    listing: Option<seq<Compartment>>,
    tenancyName: Option<string>)
}
