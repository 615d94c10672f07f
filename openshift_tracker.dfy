/**
 * The cluster-native variant of the tracker: the extractor keeps only the
 * model deployment configurations, whose names start with "mod-". A missing
 * `metadata`, or a missing name, raises.
 */
module OpenshiftTracker {
  import opened Wrappers
  import opened Dao
  import opened RawResource
  import opened ChangeFilter
  import Tracker

  /** Model deployment configurations have names starting with this prefix. */
  const ModelPrefix: string := "mod-"

  /** `name.startswith('mod-')`. */
  predicate IsModelName(name: string) {
    ModelPrefix <= name
  }

  /** The item has a `metadata` with a name: `.get` and `.startswith` do not raise on it. */
  predicate WellFormed(item: RawItem) {
    item.metadata.Some? && item.metadata.value.name.Some?
  }

  /** The item is a well-formed model deployment configuration. */
  predicate IsModelItem(item: RawItem) {
    WellFormed(item) && IsModelName(item.metadata.value.name.value)
  }

  /** The model items, in order. */
  function ModelItems(items: seq<RawItem>): seq<RawItem> {
    if items == [] then []
    else (if IsModelItem(items[0]) then [items[0]] else []) + ModelItems(items[1..])
  }

  /** What `_process_deployment_config_list` returns for these items, or the error it raises first. */
  function ExtractModels(items: seq<RawItem>): Result<seq<Snapshot>, ExtractError> {
    if items == [] then Success([])
    else if items[0].metadata.None? then Failure(MetadataMissing)
    else if items[0].metadata.value.name.None? then Failure(NameMissing)
    else if !IsModelName(items[0].metadata.value.name.value) then ExtractModels(items[1..])
    else PrependSnapshots([ItemSnapshot(items[0].metadata.value.name, items[0])], ExtractModels(items[1..]))
  }

  /** An item whose name does not start with "mod-" never reaches the output. */
  lemma {:induction false} OnlyModelNames(items: seq<RawItem>)
    ensures ExtractModels(items).Success? ==>
      forall s :: s in ExtractModels(items).value ==> s.name.Some? && IsModelName(s.name.value)
    decreases |items|
  {
    if items != [] { OnlyModelNames(items[1..]); }
  }

  /** A list without `items` gives no snapshots: the `.get('items', [])` default. */
  lemma MissingItemsExtractNothing()
    ensures ExtractModels(Items(RawList(None))) == Success([])
  {
  }

  /**
   * The extraction succeeds exactly when every item is well formed, and then
   * it is the no-prefix extraction of the model items: one snapshot per model
   * item, in input order.
   */
  lemma {:induction false} ExtractModelsSelects(items: seq<RawItem>)
    ensures ExtractModels(items).Success? <==> forall k :: 0 <= k < |items| ==> WellFormed(items[k])
    ensures ExtractModels(items).Success? ==> ExtractModels(items) == Tracker.ExtractAll(ModelItems(items))
    decreases |items|
  {
    if items != [] {
      ExtractModelsSelects(items[1..]);
      if !(forall k :: 0 <= k < |items| ==> WellFormed(items[k])) {
        var k :| 0 <= k < |items| && !WellFormed(items[k]);
        if k > 0 { assert items[1..][k - 1] == items[k]; }
      }
      if forall k :: 0 <= k < |items| ==> WellFormed(items[k]) {
        assert forall k :: 0 <= k < |items[1..]| ==> WellFormed(items[1..][k]) by {
          forall k | 0 <= k < |items[1..]| ensures WellFormed(items[1..][k]) { assert items[1..][k] == items[k + 1]; }
        }
        var m := ModelItems(items);
        if IsModelItem(items[0]) {
          assert m[0] == items[0] && m[1..] == ModelItems(items[1..]);
        } else {
          assert m == ModelItems(items[1..]);
        }
      }
    }
  }

  /** The model items are items of the input; distinct item names stay distinct. */
  lemma {:induction false} ModelItemsDistinct(items: seq<RawItem>)
    ensures forall it :: it in ModelItems(items) ==> it in items
    ensures DistinctItemNames(items) ==> DistinctItemNames(ModelItems(items))
    decreases |items|
  {
    if items != [] {
      ModelItemsDistinct(items[1..]);
      var m, rest := ModelItems(items), ModelItems(items[1..]);
      forall it | it in m ensures it in items {
        if it in rest { assert it in items[1..]; }
      }
      if DistinctItemNames(items) {
        assert DistinctItemNames(items[1..]) by {
          forall i, j | 0 <= i < j < |items[1..]| ensures ItemName(items[1..][i]) != ItemName(items[1..][j]) {
            assert items[1..][i] == items[i + 1] && items[1..][j] == items[j + 1];
          }
        }
        if IsModelItem(items[0]) {
          forall it | it in rest ensures ItemName(it) != ItemName(items[0]) {
            assert it in items[1..];
            var j :| 0 <= j < |items[1..]| && items[1..][j] == it;
            assert items[j + 1] == it;
          }
          forall i, j | 0 <= i < j < |m| ensures ItemName(m[i]) != ItemName(m[j]) {
            if i == 0 {
              assert m[j] == rest[j - 1];
              assert m[j] in rest;
            } else {
              assert m[i] == rest[i - 1] && m[j] == rest[j - 1];
            }
          }
        }
      }
    }
  }

  /** The extraction from item `i` on, read off at that item. */
  lemma ExtractModelsStep(items: seq<RawItem>, i: nat)
    requires i < |items|
    ensures items[i].metadata.None? ==> ExtractModels(items[i..]) == Failure(MetadataMissing)
    ensures items[i].metadata.Some? && items[i].metadata.value.name.None? ==> ExtractModels(items[i..]) == Failure(NameMissing)
    ensures WellFormed(items[i]) && !IsModelItem(items[i]) ==> ExtractModels(items[i..]) == ExtractModels(items[i + 1..])
    ensures IsModelItem(items[i]) ==>
      ExtractModels(items[i..]) == PrependSnapshots([ItemSnapshot(items[i].metadata.value.name, items[i])], ExtractModels(items[i + 1..]))
  {
    assert items[i..][0] == items[i] && items[i..][1..] == items[i + 1..];
  }

  /**
   * `_process_deployment_config_list`: builds one object per model item,
   * appending one trigger per cause; skips the other items; raises on a
   * missing `metadata` or name.
   */
  method ProcessDeploymentConfigList(list: RawList) returns (r: Result<seq<DeploymentConfigInfo>, ExtractError>)
    ensures ResultValues(r) == ExtractModels(Items(list))
    ensures r.Success? ==> Distinct(r.value) && forall o :: o in r.value ==> fresh(o)
  {
    var items := Items(list);
    var parsed: seq<DeploymentConfigInfo> := [];
    var i := 0;
    assert items[i..] == items;
    ghost var vals: seq<Snapshot> := [];
    PrependNothing(ExtractModels(items));
    while i < |items|
      modifies {}
      invariant 0 <= i <= |items|
      invariant Values(parsed) == vals
      invariant ExtractModels(items) == PrependSnapshots(vals, ExtractModels(items[i..]))
      invariant Distinct(parsed) && forall o :: o in parsed ==> fresh(o)
    {
      var item := items[i];
      ExtractModelsStep(items, i);
      if item.metadata.None? {
        return Failure(MetadataMissing);
      }
      var name := item.metadata.value.name;
      if name.None? {
        return Failure(NameMissing);
      }
      if !IsModelName(name.value) {
        i := i + 1;
        continue;
      }
      PrependTwice(vals, [ItemSnapshot(name, item)], ExtractModels(items[i + 1..]));
      parsed := AppendNewInfo(parsed, name, item);
      vals := vals + [ItemSnapshot(name, item)];
      i := i + 1;
    }
    assert items[i..] == [];
    assert vals + [] == vals;
    r := Success(parsed);
  }

  /** What `track_changes` returns for one fetch, or the error it raises. */
  function Changes(fetch: Result<RawList, FetchError>): Result<seq<Snapshot>, TrackError> {
    match fetch
    case Failure(e) => Failure(FetchFailed(e))
    case Success(list) =>
      match ExtractModels(Items(list))
      case Failure(e) => Failure(ExtractFailed(e))
      case Success(ss) => Success(Candidates(ss))
  }

  /** `track_changes`: fetch, extract, then filter. */
  method TrackChanges(fetch: Result<RawList, FetchError>) returns (r: Result<seq<DeploymentConfigInfo>, TrackError>)
    ensures ResultValues(r) == Changes(fetch)
    ensures r.Success? ==> forall o :: o in r.value ==> fresh(o)
  {
    if fetch.Failure? {
      return Failure(FetchFailed(fetch.error));
    }
    var parsed := ProcessDeploymentConfigList(fetch.value);
    if parsed.Failure? {
      return Failure(ExtractFailed(parsed.error));
    }
    var infos := parsed.value;
    var kept := FilterChanges(infos);
    r := Success(kept);
  }

  /**
   * With distinct item names, `track_changes` yields snapshots with distinct
   * names, and every one of them is a model deployment configuration that
   * holds an image-change trigger.
   */
  lemma ChangesDistinctModels(list: RawList)
    requires DistinctItemNames(Items(list))
    ensures Changes(Success(list)).Success? ==> DistinctNames(Changes(Success(list)).value)
    ensures Changes(Success(list)).Success? ==> forall s :: s in Changes(Success(list)).value ==>
      s.name.Some? && IsModelName(s.name.value) && s.HasImageChange()
  {
    var items := Items(list);
    if ExtractModels(items).Success? {
      ExtractModelsSelects(items);
      ModelItemsDistinct(items);
      Tracker.ExtractAllDistinctNames(ModelItems(items));
      CandidatesNames(ExtractModels(items).value);
      CandidatesInvariant(ExtractModels(items).value);
      OnlyModelNames(items);
      forall s | s in Changes(Success(list)).value ensures s.name.Some? && IsModelName(s.name.value) {
        var t :| t in ExtractModels(items).value && t.name == s.name;
      }
    }
  }
}
