/**
 * The raw deployment-configuration items returned by the cluster, as the
 * nested dictionaries the extractor walks with `.get`, and the per-cause
 * conversion both extractor variants share. Every lookup that falls back to
 * a default is an `Option` field; `None` means "key absent".
 */
module RawResource {
  import opened Wrappers
  import opened Dao

  /** `imageTrigger.from`. */
  datatype RawFrom = RawFrom(name: Option<string>)
  /** `cause.imageTrigger`. */
  datatype RawImageTrigger = RawImageTrigger(from: Option<RawFrom>)
  /** One cause record of `status.details.causes`. */
  datatype RawCause = RawCause(causeType: Option<string>, imageTrigger: Option<RawImageTrigger>)
  /** `status.details`. */
  datatype RawDetails = RawDetails(causes: Option<seq<RawCause>>)
  /** `status`. */
  datatype RawStatus = RawStatus(latestVersion: Option<int>, details: Option<RawDetails>)
  /** `metadata`. */
  datatype RawMetadata = RawMetadata(name: Option<string>)
  /** One deployment configuration item. */
  datatype RawItem = RawItem(metadata: Option<RawMetadata>, status: Option<RawStatus>)
  /** The deployment configuration list returned by the fetch. */
  datatype RawList = RawList(items: Option<seq<RawItem>>)

  /** The exceptions the poll loops catch: `ApiException` and `UnauthorizedError`. */
  datatype FetchError = ApiException | Unauthorized

  /**
   * The `AttributeError`s the extractor raises on a malformed item: `.get`
   * called on a missing `metadata`, or `.startswith` called on a missing name.
   */
  datatype ExtractError = MetadataMissing | NameMissing

  /** Why `track_changes` raised. */
  datatype TrackError = FetchFailed(fetchError: FetchError) | ExtractFailed(extractError: ExtractError)

  /** What one call of `track_changes` gave: a batch of candidates, or the error it raised. */
  type Outcome = Result<seq<Snapshot>, TrackError>

  /** `deployment_config_list.get('items', [])`. */
  function Items(list: RawList): seq<RawItem> {
    match list.items
    case None => []
    case Some(items) => items
  }

  /** `item.get('status', {}).get('latestVersion')`. */
  function LatestVersion(item: RawItem): Option<int> {
    match item.status
    case None => None
    case Some(status) => status.latestVersion
  }

  /** `item.get('status', {}).get('details', {}).get('causes', {})`, iterated. */
  function Causes(item: RawItem): seq<RawCause> {
    match item.status
    case None => []
    case Some(status) =>
      match status.details
      case None => []
      case Some(details) =>
        match details.causes
        case None => []
        case Some(causes) => causes
  }

  /** The trigger built from one cause: `imageTrigger.from.name` and `type`. */
  function CauseTrigger(c: RawCause): ImageTrigger {
    var imageName :=
      match c.imageTrigger
      case None => None
      case Some(it) =>
        match it.from
        case None => None
        case Some(f) => f.name;
    ImageTrigger(imageName, c.causeType)
  }

  /** The triggers built from a list of causes, one per cause. */
  function CauseTriggers(causes: seq<RawCause>): seq<ImageTrigger> {
    if causes == [] then [] else [CauseTrigger(causes[0])] + CauseTriggers(causes[1..])
  }

  /**
   * `item.get('metadata').get('name')` where `metadata` is present. The code
   * raises on a missing `metadata`; this function reads it as a missing name,
   * and is used only for items with `metadata` and in the assumption that
   * item names are distinct.
   */
  function ItemName(item: RawItem): Option<string> {
    match item.metadata
    case None => None
    case Some(metadata) => metadata.name
  }

  /** No two items carry the same name (names within one namespace are unique). */
  predicate DistinctItemNames(items: seq<RawItem>) {
    forall i, j :: 0 <= i < j < |items| ==> ItemName(items[i]) != ItemName(items[j])
  }

  /** Puts snapshots in front of the successful result of the rest of an extraction. */
  function PrependSnapshots(ss: seq<Snapshot>, r: Result<seq<Snapshot>, ExtractError>): Result<seq<Snapshot>, ExtractError> {
    match r
    case Success(rest) => Success(ss + rest)
    case Failure(e) => Failure(e)
  }

  /** Prepending nothing changes nothing. */
  lemma PrependNothing(r: Result<seq<Snapshot>, ExtractError>)
    ensures PrependSnapshots([], r) == r
  {
    if r.Success? { assert [] + r.value == r.value; }
  }

  /** Prepending twice is prepending the concatenation. */
  lemma PrependTwice(a: seq<Snapshot>, b: seq<Snapshot>, r: Result<seq<Snapshot>, ExtractError>)
    ensures PrependSnapshots(a, PrependSnapshots(b, r)) == PrependSnapshots(a + b, r)
  {
    if r.Success? { assert a + (b + r.value) == (a + b) + r.value; }
  }

  /** The snapshot the extractor builds for an item under the given name. */
  function ItemSnapshot(name: Option<string>, item: RawItem): Snapshot {
    Snapshot(name, LatestVersion(item), CauseTriggers(Causes(item)))
  }

  /** Each snapshot has one trigger per cause, in document order. */
  lemma {:induction false} CauseTriggersPointwise(causes: seq<RawCause>)
    ensures |CauseTriggers(causes)| == |causes|
    ensures forall k :: 0 <= k < |causes| ==> CauseTriggers(causes)[k] == CauseTrigger(causes[k])
    decreases |causes|
  {
    if causes != [] {
      CauseTriggersPointwise(causes[1..]);
      forall k | 1 <= k < |causes| ensures CauseTriggers(causes)[k] == CauseTrigger(causes[k]) {
        assert causes[1..][k - 1] == causes[k];
      }
    }
  }

  /**
   * Missing values become `None` or an empty trigger list, never errors:
   * a missing `imageTrigger` or `from` gives no image name, a missing `type`
   * no trigger type, and a missing `status`, `details` or `causes` no latest
   * version (for `status`) and no triggers.
   */
  lemma AbsentFieldsDefault(item: RawItem, c: RawCause, name: Option<string>)
    ensures (c.imageTrigger.None? || c.imageTrigger.value.from.None?) ==> CauseTrigger(c).imageName.None?
    ensures c.causeType.None? ==> CauseTrigger(c).triggerType.None?
    ensures item.status.None? ==> ItemSnapshot(name, item) == Snapshot(name, None, [])
    ensures item.status.Some? && (item.status.value.details.None? || item.status.value.details.value.causes.None?) ==>
      ItemSnapshot(name, item) == Snapshot(name, item.status.value.latestVersion, [])
  {
  }

  /** The inner loop of both extractors: appends one trigger per cause to the object. */
  method AppendCauseTriggers(info: DeploymentConfigInfo, causes: seq<RawCause>)
    modifies info
    ensures info.Value() == old(info.Value()).(imageTriggers := old(info.imageTriggers) + CauseTriggers(causes))
  {
    var k := 0;
    while k < |causes|
      invariant 0 <= k <= |causes|
      invariant info.name == old(info.name) && info.latestVersion == old(info.latestVersion)
      invariant old(info.imageTriggers) + CauseTriggers(causes) == info.imageTriggers + CauseTriggers(causes[k..])
    {
      assert causes[k..][1..] == causes[k + 1..];
      info.AppendTrigger(CauseTrigger(causes[k]));
      k := k + 1;
    }
  }

  /**
   * The body shared by both extractors once the name is known: a new object
   * with the item's latest version and one trigger per cause.
   */
  method NewInfo(name: Option<string>, item: RawItem) returns (info: DeploymentConfigInfo)
    ensures fresh(info) && info.Value() == ItemSnapshot(name, item)
  {
    info := new DeploymentConfigInfo(name, LatestVersion(item));
    AppendCauseTriggers(info, Causes(item));
  }

  /** `parsed.append(info)` for a new object built from one item; the objects already parsed keep their values. */
  method AppendNewInfo(parsed: seq<DeploymentConfigInfo>, name: Option<string>, item: RawItem)
    returns (parsed': seq<DeploymentConfigInfo>)
    requires Distinct(parsed)
    ensures Values(parsed') == old(Values(parsed)) + [ItemSnapshot(name, item)]
    ensures Distinct(parsed') && forall o :: o in parsed' ==> o in parsed || fresh(o)
  {
    var info := NewInfo(name, item);
    ValuesAppend(parsed, info);
    parsed' := parsed + [info];
  }
}
