/**
 * The trigger and snapshot model of the deployment-config monitor: one
 * image/config trigger of a deployment configuration (`ImageTriggerInfo`)
 * and the normalized state of one deployment configuration
 * (`DeploymentConfigInfo`), with the derived queries, the pruning of
 * non-image triggers, the equality rule that decides "changed", and the
 * dictionary form handed to the sinks.
 */
module Dao {
  import opened Wrappers
  import opened Seqs

  /** The trigger type that marks an image-change trigger. */
  const ImageChangeType: string := "ImageChange"

  /** One trigger of a deployment configuration; either field may be `None`. */
  datatype ImageTrigger = ImageTrigger(imageName: Option<string>, triggerType: Option<string>)
  {
    /** `is_image_change`: the type is exactly the string "ImageChange". */
    predicate IsImageChange() {
      triggerType == Some(ImageChangeType)
    }

    /** `ImageTriggerInfo.__eq__`: compares the image names and nothing else. */
    predicate SameImage(other: ImageTrigger) {
      imageName == other.imageName
    }
  }

  /**
   * The value of a `DeploymentConfigInfo`. The name may be `None` (the
   * extractor without a name prefix lets a missing name through), and so may
   * the latest version.
   */
  datatype Snapshot = Snapshot(name: Option<string>, latestVersion: Option<int>, imageTriggers: seq<ImageTrigger>)
  {
    /** `has_image_change`: `any` over the triggers' `is_image_change`. */
    predicate HasImageChange() {
      AnyImageChange(imageTriggers)
    }

    /** The snapshot that `prune` leaves behind. */
    function Pruned(): Snapshot {
      this.(imageTriggers := PruneTriggers(imageTriggers))
    }

    /**
     * `DeploymentConfigInfo.__eq__`: the names are equal and the set of this
     * snapshot's triggers minus the other's triggers is empty. Inside Python's
     * set operations two triggers match when their hashes (taken over the
     * repr, which shows both fields) and `__eq__` agree, that is when both
     * fields are equal; that is Dafny's equality on `ImageTrigger`.
     */
    predicate Equal(other: Snapshot) {
      name == other.name && TriggerSet(imageTriggers) - TriggerSet(other.imageTriggers) == {}
    }
  }

  /** `set(image_triggers)`. */
  function TriggerSet(ts: seq<ImageTrigger>): set<ImageTrigger> {
    set t | t in ts
  }

  /** `any([t.is_image_change() for t in ts])`, evaluated left to right. */
  predicate AnyImageChange(ts: seq<ImageTrigger>) {
    ts != [] && (ts[0].IsImageChange() || AnyImageChange(ts[1..]))
  }

  /** `[t for t in ts if t.is_image_change()]`. */
  function PruneTriggers(ts: seq<ImageTrigger>): seq<ImageTrigger> {
    if ts == [] then []
    else (if ts[0].IsImageChange() then [ts[0]] else []) + PruneTriggers(ts[1..])
  }

  /** No two snapshots carry the same name (names within one namespace are unique). */
  predicate DistinctNames(ss: seq<Snapshot>) {
    forall i, j :: 0 <= i < j < |ss| ==> ss[i].name != ss[j].name
  }

  // ---------------------------------------------------------------------------
  // The object that the extractor builds and `prune` updates in place.
  // ---------------------------------------------------------------------------

  /**
   * `DeploymentConfigInfo`: created with an empty trigger list that callers
   * append to; `prune` reassigns the trigger list and returns the object.
   */
  class DeploymentConfigInfo {
    var name: Option<string>
    var latestVersion: Option<int>
    var imageTriggers: seq<ImageTrigger>

    /** `__init__`: the trigger list starts empty. */
    constructor (name: Option<string>, latestVersion: Option<int>)
      ensures Value() == Snapshot(name, latestVersion, [])
    {
      this.name := name;
      this.latestVersion := latestVersion;
      this.imageTriggers := [];
    }

    /** The current field values. */
    function Value(): Snapshot
      reads this
    {
      Snapshot(name, latestVersion, imageTriggers)
    }

    /** `dc_info.image_triggers.append(t)`. */
    method AppendTrigger(t: ImageTrigger)
      modifies this
      ensures Value() == old(Value()).(imageTriggers := old(imageTriggers) + [t])
    {
      imageTriggers := imageTriggers + [t];
    }

    /** `prune`: keeps only the image-change triggers and returns the object itself. */
    method Prune() returns (r: DeploymentConfigInfo)
      modifies this
      ensures r == this
      ensures Value() == old(Value()).Pruned()
      ensures name == old(name) && latestVersion == old(latestVersion)
    {
      imageTriggers := PruneTriggers(imageTriggers);
      r := this;
    }
  }

  /** The values of a list of objects, in list order. */
  function Values(infos: seq<DeploymentConfigInfo>): (r: seq<Snapshot>)
    reads infos
    ensures |r| == |infos|
    ensures forall k :: 0 <= k < |infos| ==> r[k] == infos[k].Value()
  {
    if infos == [] then [] else [infos[0].Value()] + Values(infos[1..])
  }

  /** Dropping the first snapshot keeps names distinct, and no later snapshot shares the first one's name. */
  lemma DistinctNamesTail(ss: seq<Snapshot>)
    requires ss != [] && DistinctNames(ss)
    ensures DistinctNames(ss[1..])
    ensures forall s :: s in ss[1..] ==> s.name != ss[0].name
  {
    var rest := ss[1..];
    forall i, j | 0 <= i < j < |rest| ensures rest[i].name != rest[j].name {
      assert rest[i] == ss[i + 1] && rest[j] == ss[j + 1];
    }
    forall s | s in rest ensures s.name != ss[0].name {
      var j :| 0 <= j < |rest| && rest[j] == s;
      assert ss[j + 1] == s;
    }
  }

  /** A snapshot whose name no later snapshot shares, in front of distinct names, keeps names distinct. */
  lemma DistinctNamesCons(h: Snapshot, rest: seq<Snapshot>)
    requires DistinctNames(rest) && forall s :: s in rest ==> s.name != h.name
    ensures DistinctNames([h] + rest)
  {
    var ss := [h] + rest;
    forall i, j | 0 <= i < j < |ss| ensures ss[i].name != ss[j].name {
      assert ss[j] == rest[j - 1] && ss[j] in rest;
      if i > 0 {
        assert ss[i] == rest[i - 1];
      }
    }
  }

  /** Appending an object appends its value. */
  lemma ValuesAppend(infos: seq<DeploymentConfigInfo>, o: DeploymentConfigInfo)
    ensures Values(infos + [o]) == Values(infos) + [o.Value()]
  {
    var l := infos + [o];
    assert forall k :: 0 <= k < |infos| ==> l[k] == infos[k];
  }

  /** The values of the objects an operation returned, or the error it raised. */
  function ResultValues<E>(r: Result<seq<DeploymentConfigInfo>, E>): Result<seq<Snapshot>, E>
    reads if r.Success? then r.value else []
  {
    match r
    case Success(infos) => Success(Values(infos))
    case Failure(e) => Failure(e)
  }

  /** The objects of a list are pairwise distinct (no aliasing). */
  predicate Distinct(infos: seq<DeploymentConfigInfo>) {
    forall i, j :: 0 <= i < j < |infos| ==> infos[i] != infos[j]
  }

  // ---------------------------------------------------------------------------
  // Lemmas: has_image_change and prune.
  // ---------------------------------------------------------------------------

  /** `has_image_change` holds exactly when some trigger is an image change; so never for no triggers. */
  lemma {:induction false} AnyImageChangeIff(ts: seq<ImageTrigger>)
    ensures AnyImageChange(ts) <==> exists k :: 0 <= k < |ts| && ts[k].IsImageChange()
    ensures ts == [] ==> !AnyImageChange(ts)
    decreases |ts|
  {
    if ts != [] {
      AnyImageChangeIff(ts[1..]);
      if exists k :: 0 <= k < |ts| && ts[k].IsImageChange() {
        var k :| 0 <= k < |ts| && ts[k].IsImageChange();
        if k > 0 { assert ts[1..][k - 1] == ts[k]; }
      }
      if AnyImageChange(ts[1..]) {
        var k :| 0 <= k < |ts[1..]| && ts[1..][k].IsImageChange();
        assert ts[k + 1].IsImageChange();
      }
    }
  }

  /**
   * `prune` keeps exactly the image-change triggers: each kept trigger has the
   * type "ImageChange", each trigger keeps its multiplicity if it is an image
   * change and disappears otherwise, and the kept ones stay in their original
   * relative order.
   */
  lemma {:induction false} PruneKeepsImageChanges(ts: seq<ImageTrigger>)
    ensures forall t :: t in PruneTriggers(ts) ==> t.triggerType == Some(ImageChangeType)
    ensures forall t :: multiset(PruneTriggers(ts))[t] == if t.IsImageChange() then multiset(ts)[t] else 0
    ensures IsSubsequence(PruneTriggers(ts), ts)
    decreases |ts|
  {
    if ts != [] {
      PruneKeepsImageChanges(ts[1..]);
      assert ts == [ts[0]] + ts[1..];
      var p := PruneTriggers(ts);
      if ts[0].IsImageChange() {
        assert p[0] == ts[0] && p[1..] == PruneTriggers(ts[1..]);
      } else {
        assert p == PruneTriggers(ts[1..]);
      }
    }
  }

  /** Pruning only image-change triggers changes nothing. */
  lemma {:induction false} PruneKeepsAllImageChanges(ts: seq<ImageTrigger>)
    requires forall t :: t in ts ==> t.IsImageChange()
    ensures PruneTriggers(ts) == ts
    decreases |ts|
  {
    if ts != [] {
      assert forall t :: t in ts[1..] ==> t in ts;
      PruneKeepsAllImageChanges(ts[1..]);
    }
  }

  /** `prune` is idempotent. */
  lemma PruneIdempotent(s: Snapshot)
    ensures s.Pruned().Pruned() == s.Pruned()
  {
    PruneKeepsImageChanges(s.imageTriggers);
    PruneKeepsAllImageChanges(PruneTriggers(s.imageTriggers));
  }

  /**
   * After `prune`, `has_image_change` holds exactly when triggers remain, and
   * exactly when it held before the prune; name and latest version are kept.
   */
  lemma PrunedHasImageChange(s: Snapshot)
    ensures s.Pruned().HasImageChange() <==> s.Pruned().imageTriggers != []
    ensures s.Pruned().HasImageChange() <==> s.HasImageChange()
    ensures s.Pruned().name == s.name && s.Pruned().latestVersion == s.latestVersion
  {
    var p := PruneTriggers(s.imageTriggers);
    PruneKeepsImageChanges(s.imageTriggers);
    AnyImageChangeIff(p);
    AnyImageChangeIff(s.imageTriggers);
    if p != [] {
      assert p[0] in p;
      assert p[0].IsImageChange();
    }
    if s.HasImageChange() {
      var k :| 0 <= k < |s.imageTriggers| && s.imageTriggers[k].IsImageChange();
      var t := s.imageTriggers[k];
      assert multiset(s.imageTriggers)[t] > 0;
      assert multiset(p)[t] > 0;
    }
  }

  // ---------------------------------------------------------------------------
  // Lemmas: the equality rule.
  // ---------------------------------------------------------------------------

  /**
   * `__eq__` holds exactly when the names agree and every trigger of the
   * first snapshot is a trigger of the second: a one-directional subset test.
   * In particular it is false whenever the names differ.
   */
  lemma EqualIff(a: Snapshot, b: Snapshot)
    ensures a.Equal(b) <==> a.name == b.name && forall t :: t in a.imageTriggers ==> t in b.imageTriggers
    ensures a.name != b.name ==> !a.Equal(b)
  {
    if a.name == b.name && !a.Equal(b) {
      var t :| t in TriggerSet(a.imageTriggers) - TriggerSet(b.imageTriggers);
      assert t in a.imageTriggers && t !in b.imageTriggers;
    }
    if a.Equal(b) {
      forall t | t in a.imageTriggers ensures t in b.imageTriggers {
        assert t in TriggerSet(a.imageTriggers);
        assert t !in TriggerSet(a.imageTriggers) - TriggerSet(b.imageTriggers);
      }
    }
  }

  /** Every snapshot equals itself. */
  lemma EqualReflexive(a: Snapshot)
    ensures a.Equal(a)
  {
    EqualIff(a, a);
  }

  /**
   * `__eq__` sees only the names and the sets of triggers: the order of the
   * triggers, their repetitions and the latest versions play no part.
   */
  lemma EqualSeesOnlyNamesAndTriggerSets(a: Snapshot, a': Snapshot, b: Snapshot, b': Snapshot)
    requires a.name == a'.name && TriggerSet(a.imageTriggers) == TriggerSet(a'.imageTriggers)
    requires b.name == b'.name && TriggerSet(b.imageTriggers) == TriggerSet(b'.imageTriggers)
    ensures a.Equal(b) == a'.Equal(b')
  {
  }

  /** Two snapshots with the same name whose triggers are permutations of each other are equal both ways. */
  lemma PermutedTriggersEqual(a: Snapshot, b: Snapshot)
    requires a.name == b.name && multiset(a.imageTriggers) == multiset(b.imageTriggers)
    ensures a.Equal(b) && b.Equal(a)
  {
    forall t | t in a.imageTriggers ensures t in b.imageTriggers {
      assert t in multiset(a.imageTriggers);
    }
    forall t | t in b.imageTriggers ensures t in a.imageTriggers {
      assert t in multiset(b.imageTriggers);
    }
    EqualIff(a, b);
    EqualIff(b, a);
  }

  /**
   * `__eq__` is not symmetric: a snapshot whose triggers form a strict subset
   * of another's (same name) equals it, but not the other way round.
   */
  lemma StrictSubsetEqualsOneWay(a: Snapshot, b: Snapshot)
    requires a.name == b.name && TriggerSet(a.imageTriggers) < TriggerSet(b.imageTriggers)
    ensures a.Equal(b) && !b.Equal(a)
  {
  }

  /** A concrete pair on which `__eq__` answers differently in the two directions. */
  lemma EqualNotSymmetric()
    ensures exists a: Snapshot, b: Snapshot :: a.Equal(b) && !b.Equal(a)
  {
    var t1 := ImageTrigger(Some("img:1"), Some(ImageChangeType));
    var t2 := ImageTrigger(Some("img:2"), Some(ImageChangeType));
    var a := Snapshot(Some("mod-a"), None, [t1]);
    var b := Snapshot(Some("mod-a"), None, [t1, t2]);
    assert t2 in TriggerSet(b.imageTriggers) - TriggerSet(a.imageTriggers);
    assert a.Equal(b) && !b.Equal(a);
  }

  /**
   * `ImageTriggerInfo.__eq__` ignores the trigger type, yet two triggers of
   * the same image with different types are different set elements, so the
   * snapshot equality does tell them apart.
   */
  lemma SameImageIgnoresType(n: Option<string>, k1: Option<string>, k2: Option<string>)
    requires k1 != k2
    ensures ImageTrigger(n, k1).SameImage(ImageTrigger(n, k2))
    ensures !Snapshot(None, None, [ImageTrigger(n, k1)]).Equal(Snapshot(None, None, [ImageTrigger(n, k2)]))
  {
    var t1, t2 := ImageTrigger(n, k1), ImageTrigger(n, k2);
    assert t1 in TriggerSet([t1]) - TriggerSet([t2]);
  }

  /**
   * Once every trigger is an image change (as after `prune`), set matching is
   * matching by image name: `__eq__` holds exactly when the names agree and
   * every image name of the first snapshot occurs among the second's.
   */
  lemma PrunedEqualIff(a: Snapshot, b: Snapshot)
    requires forall t :: t in a.imageTriggers ==> t.IsImageChange()
    requires forall u :: u in b.imageTriggers ==> u.IsImageChange()
    ensures a.Equal(b) <==>
      a.name == b.name && forall t :: t in a.imageTriggers ==> exists u :: u in b.imageTriggers && t.SameImage(u)
  {
    EqualIff(a, b);
    if a.name == b.name && forall t :: t in a.imageTriggers ==> exists u :: u in b.imageTriggers && t.SameImage(u) {
      forall t | t in a.imageTriggers ensures t in b.imageTriggers {
        var u :| u in b.imageTriggers && t.SameImage(u);
        assert t == u;
      }
    }
  }

  /** The latest version plays no part in `__eq__`. */
  lemma EqualIgnoresLatestVersion(a: Snapshot, v: Option<int>)
    ensures a.Equal(a.(latestVersion := v)) && a.(latestVersion := v).Equal(a)
  {
  }

  // ---------------------------------------------------------------------------
  // The dictionary form (`to_dict`) and its inverse.
  // ---------------------------------------------------------------------------

  /** A JSON-like value: what `to_dict` produces. */
  datatype Json = JNull | JInt(i: int) | JString(s: string) | JList(items: seq<Json>) | JObject(fields: map<string, Json>)

  function StringValue(o: Option<string>): Json {
    match o
    case None => JNull
    case Some(s) => JString(s)
  }

  function IntValue(o: Option<int>): Json {
    match o
    case None => JNull
    case Some(i) => JInt(i)
  }

  /** `ImageTriggerInfo.to_dict`. */
  function TriggerToDict(t: ImageTrigger): Json {
    JObject(map["image_name" := StringValue(t.imageName), "trigger_type" := StringValue(t.triggerType)])
  }

  /** `[trigger.to_dict() for trigger in ts]`. */
  function TriggersToDicts(ts: seq<ImageTrigger>): seq<Json> {
    if ts == [] then [] else [TriggerToDict(ts[0])] + TriggersToDicts(ts[1..])
  }

  /** `DeploymentConfigInfo.to_dict`. */
  function SnapshotToDict(s: Snapshot): Json {
    JObject(map[
      "name" := StringValue(s.name),
      "latest_version" := IntValue(s.latestVersion),
      "image_triggers" := JList(TriggersToDicts(s.imageTriggers))])
  }

  function StringOf(j: Json): Option<Option<string>> {
    match j
    case JNull => Some(None)
    case JString(s) => Some(Some(s))
    case _ => None
  }

  function IntOf(j: Json): Option<Option<int>> {
    match j
    case JNull => Some(None)
    case JInt(i) => Some(Some(i))
    case _ => None
  }

  /** Reads a trigger back from its dictionary form. */
  function TriggerFromDict(j: Json): Option<ImageTrigger> {
    if j.JObject? && "image_name" in j.fields && "trigger_type" in j.fields then
      match (StringOf(j.fields["image_name"]), StringOf(j.fields["trigger_type"]))
      case (Some(n), Some(k)) => Some(ImageTrigger(n, k))
      case _ => None
    else None
  }

  function TriggersFromDicts(js: seq<Json>): Option<seq<ImageTrigger>> {
    if js == [] then Some([])
    else match (TriggerFromDict(js[0]), TriggersFromDicts(js[1..]))
      case (Some(t), Some(ts)) => Some([t] + ts)
      case _ => None
  }

  /** Reads a snapshot back from its dictionary form. */
  function SnapshotFromDict(j: Json): Option<Snapshot> {
    if j.JObject? && "name" in j.fields && "latest_version" in j.fields && "image_triggers" in j.fields
       && j.fields["image_triggers"].JList? then
      match (StringOf(j.fields["name"]), IntOf(j.fields["latest_version"]), TriggersFromDicts(j.fields["image_triggers"].items))
      case (Some(n), Some(v), Some(ts)) => Some(Snapshot(n, v, ts))
      case _ => None
    else None
  }

  /** The trigger list of the dictionary form has one entry per trigger, in order. */
  lemma {:induction false} TriggersToDictsPointwise(ts: seq<ImageTrigger>)
    ensures |TriggersToDicts(ts)| == |ts|
    ensures forall k :: 0 <= k < |ts| ==> TriggersToDicts(ts)[k] == TriggerToDict(ts[k])
    decreases |ts|
  {
    if ts != [] {
      TriggersToDictsPointwise(ts[1..]);
      forall k | 1 <= k < |ts| ensures TriggersToDicts(ts)[k] == TriggerToDict(ts[k]) {
        assert ts[1..][k - 1] == ts[k];
      }
    }
  }

  /** The trigger list's dictionary form gives back the triggers: count, order and both fields. */
  lemma {:induction false} TriggersDictRoundTrip(ts: seq<ImageTrigger>)
    ensures TriggersFromDicts(TriggersToDicts(ts)) == Some(ts)
    decreases |ts|
  {
    if ts != [] {
      TriggersDictRoundTrip(ts[1..]);
      var js := TriggersToDicts(ts);
      assert js[0] == TriggerToDict(ts[0]) && js[1..] == TriggersToDicts(ts[1..]);
      assert ts == [ts[0]] + ts[1..];
    }
  }

  /** `to_dict` loses nothing: the snapshot can be read back from its dictionary form. */
  lemma SnapshotDictRoundTrip(s: Snapshot)
    ensures SnapshotFromDict(SnapshotToDict(s)) == Some(s)
  {
    TriggersDictRoundTrip(s.imageTriggers);
  }
}
