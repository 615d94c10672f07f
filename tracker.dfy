/**
 * The first variant of the tracker: the extractor keeps every item, so an
 * item whose metadata has no name gives a snapshot without a name.
 */
module Tracker {
  import opened Wrappers
  import opened Dao
  import opened RawResource
  import opened ChangeFilter

  /** What `_process_deployment_config_list` returns for these items, or the error it raises first. */
  function ExtractAll(items: seq<RawItem>): Result<seq<Snapshot>, ExtractError> {
    if items == [] then Success([])
    else if items[0].metadata.None? then Failure(MetadataMissing)
    else PrependSnapshots([ItemSnapshot(items[0].metadata.value.name, items[0])], ExtractAll(items[1..]))
  }

  /**
   * Without a prefix filter the extraction fails exactly when some item has
   * no `metadata`; otherwise it gives one snapshot per item, in order, named
   * after the item (possibly `None`) and holding one trigger per cause.
   */
  lemma {:induction false} ExtractAllPointwise(items: seq<RawItem>)
    ensures ExtractAll(items).Success? <==> forall k :: 0 <= k < |items| ==> items[k].metadata.Some?
    ensures ExtractAll(items).Failure? ==> ExtractAll(items).error == MetadataMissing
    ensures ExtractAll(items).Success? ==>
      var ss := ExtractAll(items).value;
      |ss| == |items| &&
      forall k :: 0 <= k < |items| ==> ss[k] == ItemSnapshot(ItemName(items[k]), items[k]) && ss[k].name == ItemName(items[k])
    decreases |items|
  {
    if items != [] {
      ExtractAllPointwise(items[1..]);
      if !(forall k :: 0 <= k < |items| ==> items[k].metadata.Some?) {
        var k :| 0 <= k < |items| && items[k].metadata.None?;
        if k > 0 { assert items[1..][k - 1] == items[k]; }
      }
      if ExtractAll(items).Success? {
        var ss := ExtractAll(items).value;
        forall k | 1 <= k < |items| ensures ss[k] == ItemSnapshot(ItemName(items[k]), items[k]) {
          assert items[1..][k - 1] == items[k];
        }
      }
    }
  }

  /** Distinct item names give snapshots with distinct names. */
  lemma ExtractAllDistinctNames(items: seq<RawItem>)
    requires DistinctItemNames(items) && ExtractAll(items).Success?
    ensures DistinctNames(ExtractAll(items).value)
  {
    ExtractAllPointwise(items);
  }

  /** The extraction from item `i` on, read off at that item. */
  lemma ExtractAllStep(items: seq<RawItem>, i: nat)
    requires i < |items|
    ensures items[i].metadata.None? ==> ExtractAll(items[i..]) == Failure(MetadataMissing)
    ensures items[i].metadata.Some? ==>
      ExtractAll(items[i..]) == PrependSnapshots([ItemSnapshot(items[i].metadata.value.name, items[i])], ExtractAll(items[i + 1..]))
  {
    assert items[i..][0] == items[i] && items[i..][1..] == items[i + 1..];
  }

  /**
   * `_process_deployment_config_list`: builds one object per item, appending
   * one trigger per cause; a missing `metadata` raises.
   */
  method ProcessDeploymentConfigList(list: RawList) returns (r: Result<seq<DeploymentConfigInfo>, ExtractError>)
    ensures ResultValues(r) == ExtractAll(Items(list))
    ensures r.Success? ==> Distinct(r.value) && forall o :: o in r.value ==> fresh(o)
  {
    var items := Items(list);
    var parsed: seq<DeploymentConfigInfo> := [];
    var i := 0;
    assert items[i..] == items;
    ghost var vals: seq<Snapshot> := [];
    PrependNothing(ExtractAll(items));
    while i < |items|
      modifies {}
      invariant 0 <= i <= |items|
      invariant Values(parsed) == vals
      invariant ExtractAll(items) == PrependSnapshots(vals, ExtractAll(items[i..]))
      invariant Distinct(parsed) && forall o :: o in parsed ==> fresh(o)
    {
      var item := items[i];
      ExtractAllStep(items, i);
      if item.metadata.None? {
        return Failure(MetadataMissing);
      }
      var name := item.metadata.value.name;
      PrependTwice(vals, [ItemSnapshot(name, item)], ExtractAll(items[i + 1..]));
      parsed := AppendNewInfo(parsed, name, item);
      vals := vals + [ItemSnapshot(name, item)];
      i := i + 1;
    }
    assert items[i..] == [];
    assert vals + [] == vals;
    r := Success(parsed);
  }

  /** What `track_changes` returns for one fetch, or the error it raises. */
  function Changes(fetch: Result<RawList, FetchError>): Result<seq<Snapshot>, TrackError> {
    match fetch
    case Failure(e) => Failure(FetchFailed(e))
    case Success(list) =>
      match ExtractAll(Items(list))
      case Failure(e) => Failure(ExtractFailed(e))
      case Success(ss) => Success(Candidates(ss))
  }

  /** `track_changes`: fetch, extract, then filter. */
  method TrackChanges(fetch: Result<RawList, FetchError>) returns (r: Result<seq<DeploymentConfigInfo>, TrackError>)
    ensures ResultValues(r) == Changes(fetch)
    ensures r.Success? ==> forall o :: o in r.value ==> fresh(o)
  {
    if fetch.Failure? {
      return Failure(FetchFailed(fetch.error));
    }
    var parsed := ProcessDeploymentConfigList(fetch.value);
    if parsed.Failure? {
      return Failure(ExtractFailed(parsed.error));
    }
    var infos := parsed.value;
    assert forall o :: o in infos ==> fresh(o);
    var kept := FilterChanges(infos);
    r := Success(kept);
  }

  /**
   * With distinct item names, `track_changes` yields snapshots with distinct
   * names, each holding an image-change trigger.
   */
  lemma ChangesDistinctNames(list: RawList)
    requires DistinctItemNames(Items(list))
    ensures Changes(Success(list)).Success? ==> DistinctNames(Changes(Success(list)).value)
    ensures Changes(Success(list)).Success? ==> forall s :: s in Changes(Success(list)).value ==> s.HasImageChange()
  {
    if ExtractAll(Items(list)).Success? {
      ExtractAllDistinctNames(Items(list));
      CandidatesNames(ExtractAll(Items(list)).value);
      CandidatesInvariant(ExtractAll(Items(list)).value);
    }
  }
}
