/**
 * The asynchronous tracker of `src/app.py`: `track()` keeps one cache for
 * its lifetime and polls forever, running the diff step on every batch; the
 * first fetch error ends it (the `try` is around the whole loop), and an
 * extraction error escapes it.
 *
 * A poll is given by what `track_changes` returned for it; the interval
 * sleep between polls has no effect on what is emitted and is left out.
 */
module App {
  import opened Wrappers
  import opened Dao
  import opened RawResource
  import opened SnapshotCache
  import OpenshiftTracker
  import ChangeFilter

  /**
   * How `track()` ended: a caught fetch exception (logged, then `track`
   * returns), an uncaught extraction error, or the modelled polls ran out
   * (the loop itself never ends).
   */
  datatype TrackEnding = Stopped(caught: FetchError) | Crashed(raised: ExtractError) | Exhausted

  /** The logged snapshots, the polls taken, the ending and the final cache. */
  datatype TrackRun = TrackRun(emitted: seq<Snapshot>, polls: nat, ending: TrackEnding, cache: Entries)

  /** A run that first took `k` polls logging `e`, then went on as `r`. */
  function AfterPolls(k: nat, e: seq<Snapshot>, r: TrackRun): TrackRun {
    r.(emitted := e + r.emitted, polls := k + r.polls)
  }

  /** `track()` from a given cache over the given polls. */
  function Tracked(cache: Entries, outcomes: seq<Outcome>): TrackRun
    decreases |outcomes|
  {
    if outcomes == [] then TrackRun([], 0, Exhausted, cache)
    else match outcomes[0]
      case Failure(FetchFailed(e)) => TrackRun([], 1, Stopped(e), cache)
      case Failure(ExtractFailed(e)) => TrackRun([], 1, Crashed(e), cache)
      case Success(cs) =>
        var d := Diff(cache, cs);
        AfterPolls(1, d.emitted, Tracked(d.cache, outcomes[1..]))
  }

  /** `track()`: `cache = {}`, then for each poll the diff step, until an error. */
  method Track(outcomes: seq<Outcome>) returns (run: TrackRun)
    ensures run == Tracked(map[], outcomes)
  {
    var cache := new Cache();
    var k := 0;
    var emitted: seq<Snapshot> := [];
    assert outcomes[k..] == outcomes;
    assert AfterPolls(0, [], Tracked(map[], outcomes)) == Tracked(map[], outcomes);
    while k < |outcomes|
      invariant 0 <= k <= |outcomes|
      invariant fresh(cache) && cache.Valid()
      invariant Tracked(map[], outcomes) == AfterPolls(k, emitted, Tracked(cache.entries, outcomes[k..]))
      decreases |outcomes| - k
    {
      ghost var before := cache.entries;
      UnfoldTracked(before, outcomes, k);
      match outcomes[k] {
        case Failure(FetchFailed(e)) =>
          return AfterPolls(k, emitted, TrackRun([], 1, Stopped(e), cache.entries));
        case Failure(ExtractFailed(e)) =>
          return AfterPolls(k, emitted, TrackRun([], 1, Crashed(e), cache.entries));
        case Success(cs) =>
          var batch := cache.Step(cs);
          AfterPollsTwice(k, emitted, batch, Tracked(cache.entries, outcomes[k + 1..]));
          emitted := emitted + batch;
      }
      k := k + 1;
    }
    assert outcomes[k..] == [];
    run := AfterPolls(k, emitted, TrackRun([], 0, Exhausted, cache.entries));
  }

  /** One step of the loop, read off at poll `k`. */
  lemma UnfoldTracked(cache: Entries, outcomes: seq<Outcome>, k: nat)
    requires k < |outcomes|
    ensures outcomes[k].Success? ==>
      var d := Diff(cache, outcomes[k].value);
      Tracked(cache, outcomes[k..]) == AfterPolls(1, d.emitted, Tracked(d.cache, outcomes[k + 1..]))
  {
    assert outcomes[k..][0] == outcomes[k] && outcomes[k..][1..] == outcomes[k + 1..];
  }

  /** A stretch of polls followed by one more poll is one longer stretch. */
  lemma AfterPollsTwice(k: nat, e: seq<Snapshot>, e': seq<Snapshot>, r: TrackRun)
    ensures AfterPolls(k, e, AfterPolls(1, e', r)) == AfterPolls(k + 1, e + e', r)
  {
    assert e + (e' + r.emitted) == (e + e') + r.emitted;
  }

  /** Polls that all fetched and extracted. */
  predicate AllSucceeded(outcomes: seq<Outcome>) {
    forall k :: 0 <= k < |outcomes| ==> outcomes[k].Success?
  }

  /**
   * A run ends by an error exactly when some poll failed, and then it ends at
   * the first failed poll, with that poll's error; otherwise every poll is
   * taken.
   */
  lemma {:induction false} TrackEndsAtFirstFailure(cache: Entries, outcomes: seq<Outcome>)
    ensures Tracked(cache, outcomes).ending == Exhausted <==> AllSucceeded(outcomes)
    ensures AllSucceeded(outcomes) ==> Tracked(cache, outcomes).polls == |outcomes|
    ensures !AllSucceeded(outcomes) ==>
      var r := Tracked(cache, outcomes);
      1 <= r.polls <= |outcomes| && AllSucceeded(outcomes[..r.polls - 1]) &&
      outcomes[r.polls - 1].Failure? &&
      (match outcomes[r.polls - 1].error
       case FetchFailed(e) => r.ending == Stopped(e)
       case ExtractFailed(e) => r.ending == Crashed(e))
    decreases |outcomes|
  {
    if outcomes != [] && outcomes[0].Success? {
      var d := Diff(cache, outcomes[0].value);
      var rest := outcomes[1..];
      TrackEndsAtFirstFailure(d.cache, rest);
      assert AllSucceeded(outcomes) <==> AllSucceeded(rest) by {
        assert forall k :: 0 < k < |outcomes| ==> outcomes[k] == rest[k - 1];
      }
      if !AllSucceeded(outcomes) {
        var p := Tracked(d.cache, rest).polls;
        assert outcomes[..p + 1] == [outcomes[0]] + rest[..p];
        assert outcomes[..p + 1][..p] == outcomes[..p];
        assert forall k :: 0 < k < p ==> outcomes[k] == rest[k - 1];
      }
    }
  }

  /**
   * The first failure ends `track()`: whatever polls would have followed,
   * the run is the same.
   */
  lemma {:induction false} FailureEndsTrack(cache: Entries, outcomes: seq<Outcome>, later: seq<Outcome>)
    requires !AllSucceeded(outcomes)
    ensures Tracked(cache, outcomes + later) == Tracked(cache, outcomes)
    decreases |outcomes|
  {
    assert (outcomes + later)[0] == outcomes[0];
    if outcomes[0].Success? {
      var d := Diff(cache, outcomes[0].value);
      assert (outcomes + later)[1..] == outcomes[1..] + later;
      assert !AllSucceeded(outcomes[1..]) by {
        var k :| 0 <= k < |outcomes| && outcomes[k].Failure?;
        assert outcomes[1..][k - 1] == outcomes[k];
      }
      FailureEndsTrack(d.cache, outcomes[1..], later);
    }
  }

  /**
   * Polling on after successful polls is diffing against the cache they
   * left: a run over `a + b` is the run over `a` followed by the run over `b`.
   */
  lemma {:induction false} TrackSplits(cache: Entries, a: seq<Outcome>, b: seq<Outcome>)
    requires AllSucceeded(a)
    ensures var ra := Tracked(cache, a);
      Tracked(cache, a + b) == AfterPolls(|a|, ra.emitted, Tracked(ra.cache, b))
    decreases |a|
  {
    if a == [] {
      assert a + b == b;
      assert AfterPolls(0, [], Tracked(cache, b)) == Tracked(cache, b);
    } else {
      var d := Diff(cache, a[0].value);
      assert (a + b)[0] == a[0] && (a + b)[1..] == a[1..] + b;
      assert AllSucceeded(a[1..]) by {
        assert forall k :: 0 <= k < |a| - 1 ==> a[1..][k] == a[k + 1];
      }
      TrackSplits(d.cache, a[1..], b);
      var r1 := Tracked(d.cache, a[1..]);
      assert d.emitted + (r1.emitted + Tracked(r1.cache, b).emitted)
          == (d.emitted + r1.emitted) + Tracked(r1.cache, b).emitted;
    }
  }

  /** The cache only grows: names once logged stay cached, and it stays keyed by name. */
  lemma {:induction false} TrackKeepsNames(cache: Entries, outcomes: seq<Outcome>)
    ensures cache.Keys <= Tracked(cache, outcomes).cache.Keys
    ensures KeyedByName(cache) ==> KeyedByName(Tracked(cache, outcomes).cache)
    ensures forall s :: s in Tracked(cache, outcomes).emitted ==> s.name in Tracked(cache, outcomes).cache
    decreases |outcomes|
  {
    if outcomes != [] && outcomes[0].Success? {
      var cs := outcomes[0].value;
      var d := Diff(cache, cs);
      DiffCache(cache, cs);
      DiffEmitsInOrder(cache, cs);
      TrackKeepsNames(d.cache, outcomes[1..]);
      forall s | s in d.emitted ensures s.name in Tracked(cache, outcomes).cache {
        assert s in cs;
        assert s.name in Names(cs);
      }
    }
  }

  /**
   * Polling the same batch twice (names distinct, as within one namespace)
   * logs nothing the second time.
   */
  lemma RepeatedPollLogsNothing(cache: Entries, cs: seq<Snapshot>, later: seq<Outcome>)
    requires DistinctNames(cs)
    ensures Tracked(cache, [Success(cs), Success(cs)] + later).emitted
         == Diff(cache, cs).emitted + Tracked(Diff(cache, cs).cache, later).emitted
  {
    var d := Diff(cache, cs);
    DiffIdempotent(cache, cs);
    var o: seq<Outcome> := [Success(cs), Success(cs)];
    assert AllSucceeded(o);
    TrackSplits(cache, o, later);
    assert o[1..] == [Success(cs)];
    assert Tracked(d.cache, [Success(cs)]) == AfterPolls(1, [], Tracked(d.cache, []));
    assert d.emitted + [] == d.emitted;
  }

  /** A model deployment configuration `mod-a` at version 5 with one image-change cause on `image`. */
  function ModAList(image: string): RawList {
    var cause := RawCause(Some(ImageChangeType), Some(RawImageTrigger(Some(RawFrom(Some(image))))));
    RawList(Some([RawItem(Some(RawMetadata(Some("mod-a"))), Some(RawStatus(Some(5), Some(RawDetails(Some([cause]))))))]))
  }

  /** The snapshot of `mod-a` at version 5 whose one trigger is an image change on `image`. */
  function ModASnapshot(image: string): Snapshot {
    Snapshot(Some("mod-a"), Some(5), [ImageTrigger(Some(image), Some(ImageChangeType))])
  }

  /** What `track_changes` yields for `ModAList(image)`: the one snapshot. */
  lemma ModAChanges(image: string)
    ensures OpenshiftTracker.Changes(Success(ModAList(image))) == Success([ModASnapshot(image)])
  {
    var items := Items(ModAList(image));
    var t := ImageTrigger(Some(image), Some(ImageChangeType));
    var s := ModASnapshot(image);
    assert OpenshiftTracker.IsModelName("mod-a");
    var causes := Causes(items[0]);
    assert causes[1..] == [];
    assert CauseTriggers(causes) == [t];
    assert ItemSnapshot(Some("mod-a"), items[0]) == s;
    assert items[1..] == [];
    assert OpenshiftTracker.ExtractModels(items[1..]) == Success([]);
    assert [s] + [] == [s];
    assert OpenshiftTracker.ExtractModels(items) == Success([s]);
    assert s.HasImageChange();
    assert [t][1..] == [];
    assert PruneTriggers([t]) == [t];
    assert s.Pruned() == s;
    assert ChangeFilter.Candidates([s][1..]) == [];
  }

  /**
   * Change detection on `mod-a`: the first poll (image `img:5`) logs its
   * snapshot, a poll on image `img:6` logs the updated one, and a third poll
   * identical to the second logs nothing.
   */
  lemma ChangeDetectionExample()
    ensures var p5, p6 := OpenshiftTracker.Changes(Success(ModAList("img:5"))), OpenshiftTracker.Changes(Success(ModAList("img:6")));
      Tracked(map[], [p5, p6, p6]).emitted == [ModASnapshot("img:5"), ModASnapshot("img:6")]
  {
    ModAChanges("img:5");
    ModAChanges("img:6");
    var s5, s6 := ModASnapshot("img:5"), ModASnapshot("img:6");
    var c1 := map[] [s5.name := s5];
    assert Diff(map[], [s5]) == Pass(c1, [s5]);
    assert ImageTrigger(Some("img:6"), Some(ImageChangeType)) !in s5.imageTriggers;
    assert !s6.Equal(s5) by { EqualIff(s6, s5); }
    var c2 := c1[s6.name := s6];
    assert Diff(c1, [s6]) == Pass(c2, [s6]);
    assert s6.Equal(s6) by { EqualReflexive(s6); }
    assert Diff(c2, [s6]) == Pass(c2, []);
    var o: seq<Outcome> := [Success([s5]), Success([s6]), Success([s6])];
    assert o[1..] == [Success([s6]), Success([s6])] && o[1..][1..] == [Success([s6])] && o[1..][1..][1..] == [];
    assert Tracked(c2, o[1..][1..]) == TrackRun([], 1, Exhausted, c2);
    assert Tracked(c1, o[1..]) == TrackRun([s6], 2, Exhausted, c2);
    assert Tracked(map[], o) == TrackRun([s5, s6], 3, Exhausted, c2);
  }
}
