/**
 * The counted poll loop of the two tracker scripts (`__main__` of both
 * tracker files): poll while fewer than ten snapshots have been emitted,
 * run the diff step on each batch, count every emission, print and go on
 * after a fetch error, and crash on an extraction error.
 *
 * A poll is given by what `track_changes` returned for it: the candidate
 * snapshots, or the error it raised.
 */
module PollLoop {
  import opened Wrappers
  import opened Dao
  import opened RawResource
  import opened SnapshotCache

  /** The loop runs `while (i < 10)`. */
  const Limit: nat := 10

  /** How a run ended: at the `while` check, by an uncaught error, or when the modelled polls ran out. */
  datatype Ending = CounterReached | Crashed(error: ExtractError) | PollsExhausted

  /** The emitted snapshots, the final counter, the polls taken, the ending and the final cache. */
  datatype CountedRun = CountedRun(emitted: seq<Snapshot>, counter: nat, polls: nat, ending: Ending, cache: Entries)

  /** A run that first took `k` polls emitting `e`, then went on as `r`. */
  function AfterPolls(k: nat, e: seq<Snapshot>, r: CountedRun): CountedRun {
    r.(emitted := e + r.emitted, polls := k + r.polls)
  }

  /** The counted loop from a cache and a counter value, over the given polls. */
  function Counted(cache: Entries, i: nat, outcomes: seq<Outcome>): CountedRun
    decreases |outcomes|
  {
    if i >= Limit then CountedRun([], i, 0, CounterReached, cache)
    else if outcomes == [] then CountedRun([], i, 0, PollsExhausted, cache)
    else if IsFetchError(outcomes[0]) then AfterPolls(1, [], Counted(cache, i, outcomes[1..]))
    else if outcomes[0].Failure? then CountedRun([], i, 1, Crashed(outcomes[0].error.extractError), cache)
    else
      var d := Diff(cache, outcomes[0].value);
      AfterPolls(1, d.emitted, Counted(d.cache, i + |d.emitted|, outcomes[1..]))
  }

  /** The polls that fetched: the fetch errors dropped. */
  function WithoutFetchErrors(outcomes: seq<Outcome>): seq<Outcome> {
    if outcomes == [] then []
    else (if IsFetchError(outcomes[0]) then [] else [outcomes[0]]) + WithoutFetchErrors(outcomes[1..])
  }

  /** The poll raised one of the exceptions the loop catches. */
  predicate IsFetchError(o: Outcome) {
    o.Failure? && o.error.FetchFailed?
  }

  /**
   * `__main__`: `cache = {}`, `i = 0`, then `while (i < 10)`: call
   * `track_changes`, and for each candidate that the diff step emits, add one
   * to `i`.
   */
  method CountedPoll(outcomes: seq<Outcome>) returns (run: CountedRun)
    ensures run == Counted(map[], 0, outcomes)
  {
    var cache := new Cache();
    var i: nat := 0;
    var k := 0;
    var rest := outcomes;
    var emitted: seq<Snapshot> := [];
    ghost var total := Counted(map[], 0, outcomes);
    assert AfterPolls(0, [], total) == total;
    while i < Limit && rest != []
      invariant fresh(cache) && cache.Valid()
      invariant total == AfterPolls(k, emitted, Counted(cache.entries, i, rest))
      decreases |rest|
    {
      var o := rest[0];
      if o.Failure? {
        if o.error.ExtractFailed? {
          return AfterPolls(k, emitted, CountedRun([], i, 1, Crashed(o.error.extractError), cache.entries));
        }
        FetchErrorStep(total, k, emitted, cache.entries, i, rest);
      } else {
        ghost var before := cache.entries;
        var batch := cache.Step(o.value);
        BatchStep(total, k, emitted, before, i, rest);
        emitted := emitted + batch;
        i := i + |batch|;
      }
      k := k + 1;
      rest := rest[1..];
    }
    run := AfterPolls(k, emitted, CountedRun([], i, 0, if i >= Limit then CounterReached else PollsExhausted, cache.entries));
  }

  /** The loop after `k` polls, where the next poll raised a caught fetch error. */
  lemma FetchErrorStep(total: CountedRun, k: nat, emitted: seq<Snapshot>, cache: Entries, i: nat, rest: seq<Outcome>)
    requires i < Limit && rest != [] && IsFetchError(rest[0])
    requires total == AfterPolls(k, emitted, Counted(cache, i, rest))
    ensures total == AfterPolls(k + 1, emitted, Counted(cache, i, rest[1..]))
  {
    AfterPollsTwice(k, emitted, [], Counted(cache, i, rest[1..]));
    assert emitted + [] == emitted;
  }

  /** The loop after `k` polls, where the next poll gave a batch. */
  lemma BatchStep(total: CountedRun, k: nat, emitted: seq<Snapshot>, cache: Entries, i: nat, rest: seq<Outcome>)
    requires i < Limit && rest != [] && rest[0].Success?
    requires total == AfterPolls(k, emitted, Counted(cache, i, rest))
    ensures var d := Diff(cache, rest[0].value);
      total == AfterPolls(k + 1, emitted + d.emitted, Counted(d.cache, i + |d.emitted|, rest[1..]))
  {
    var d := Diff(cache, rest[0].value);
    AfterPollsTwice(k, emitted, d.emitted, Counted(d.cache, i + |d.emitted|, rest[1..]));
  }

  /** A stretch of polls followed by one more poll is one longer stretch. */
  lemma AfterPollsTwice(k: nat, e: seq<Snapshot>, e': seq<Snapshot>, r: CountedRun)
    ensures AfterPolls(k, e, AfterPolls(1, e', r)) == AfterPolls(k + 1, e + e', r)
  {
    assert e + (e' + r.emitted) == (e + e') + r.emitted;
  }

  /** `i` equals the number of emissions so far. */
  lemma {:induction false} CounterCountsEmissions(cache: Entries, i: nat, outcomes: seq<Outcome>)
    ensures Counted(cache, i, outcomes).counter == i + |Counted(cache, i, outcomes).emitted|
    decreases |outcomes|
  {
    if i < Limit && outcomes != [] {
      if IsFetchError(outcomes[0]) {
        CounterCountsEmissions(cache, i, outcomes[1..]);
      } else if outcomes[0].Success? {
        var d := Diff(cache, outcomes[0].value);
        CounterCountsEmissions(d.cache, i + |d.emitted|, outcomes[1..]);
      }
    }
  }

  /** A run takes at most the polls it is given, and at least one unless it stops before polling. */
  lemma {:induction false} CountedPolls(cache: Entries, i: nat, outcomes: seq<Outcome>)
    ensures Counted(cache, i, outcomes).polls <= |outcomes|
    ensures i < Limit && outcomes != [] ==> Counted(cache, i, outcomes).polls >= 1
    decreases |outcomes|
  {
    if i < Limit && outcomes != [] {
      if IsFetchError(outcomes[0]) {
        CountedPolls(cache, i, outcomes[1..]);
      } else if outcomes[0].Success? {
        var d := Diff(cache, outcomes[0].value);
        CountedPolls(d.cache, i + |d.emitted|, outcomes[1..]);
      }
    }
  }

  /** A run ends at the counter check exactly when the counter reached the limit. */
  lemma {:induction false} CounterReachedIff(cache: Entries, i: nat, outcomes: seq<Outcome>)
    ensures Counted(cache, i, outcomes).ending == CounterReached <==> Counted(cache, i, outcomes).counter >= Limit
    decreases |outcomes|
  {
    if i < Limit && outcomes != [] {
      if IsFetchError(outcomes[0]) {
        CounterReachedIff(cache, i, outcomes[1..]);
      } else if outcomes[0].Success? {
        var d := Diff(cache, outcomes[0].value);
        CounterReachedIff(d.cache, i + |d.emitted|, outcomes[1..]);
      }
    }
  }

  /**
   * A run that ends at the counter check took at least one poll, and the
   * same polls without the last one ran out with the counter below the limit.
   */
  predicate StopsAtLimit(cache: Entries, i: nat, outcomes: seq<Outcome>) {
    var r := Counted(cache, i, outcomes);
    r.ending == CounterReached ==>
      1 <= r.polls <= |outcomes| &&
      Counted(cache, i, outcomes[..r.polls - 1]).ending == PollsExhausted &&
      Counted(cache, i, outcomes[..r.polls - 1]).counter < Limit
  }

  /**
   * The loop stops at the first `while` check that sees `i >= 10`: when a run
   * ends there, the same polls without the last one ran out below the limit.
   */
  lemma {:induction false} StopsAtFirstCheck(cache: Entries, i: nat, outcomes: seq<Outcome>)
    requires i < Limit
    ensures StopsAtLimit(cache, i, outcomes)
    decreases |outcomes|
  {
    if outcomes != [] {
      if IsFetchError(outcomes[0]) {
        StopsAtFirstCheck(cache, i, outcomes[1..]);
        StopsAfterFetchError(cache, i, outcomes);
      } else if outcomes[0].Success? {
        var d := Diff(cache, outcomes[0].value);
        if i + |d.emitted| < Limit {
          StopsAtFirstCheck(d.cache, i + |d.emitted|, outcomes[1..]);
        }
        StopsAfterBatch(cache, i, outcomes);
      }
    }
  }

  /** The step of `StopsAtFirstCheck` over a first poll that raised a caught fetch error. */
  lemma StopsAfterFetchError(cache: Entries, i: nat, outcomes: seq<Outcome>)
    requires i < Limit && outcomes != [] && IsFetchError(outcomes[0])
    requires StopsAtLimit(cache, i, outcomes[1..])
    ensures StopsAtLimit(cache, i, outcomes)
  {
    var r, r' := Counted(cache, i, outcomes), Counted(cache, i, outcomes[1..]);
    assert r == AfterPolls(1, [], r');
    if r.ending == CounterReached {
      var n := r.polls - 1;
      UnfoldPrefix(cache, i, outcomes, n - 1);
      assert outcomes[..n] == outcomes[..(n - 1) + 1];
      CounterReachedIff(cache, i, outcomes[..n]);
    }
  }

  /** The step of `StopsAtFirstCheck` over a first poll that gave a batch. */
  lemma StopsAfterBatch(cache: Entries, i: nat, outcomes: seq<Outcome>)
    requires i < Limit && outcomes != [] && outcomes[0].Success?
    requires var d := Diff(cache, outcomes[0].value);
      i + |d.emitted| < Limit ==> StopsAtLimit(d.cache, i + |d.emitted|, outcomes[1..])
    ensures StopsAtLimit(cache, i, outcomes)
  {
    var d := Diff(cache, outcomes[0].value);
    var i' := i + |d.emitted|;
    var r, r' := Counted(cache, i, outcomes), Counted(d.cache, i', outcomes[1..]);
    assert r == AfterPolls(1, d.emitted, r');
    if r.ending == CounterReached {
      var n := r.polls - 1;
      if i' < Limit {
        UnfoldPrefix(cache, i, outcomes, n - 1);
        assert outcomes[..n] == outcomes[..(n - 1) + 1];
      } else {
        assert outcomes[..n] == [];
      }
      CounterReachedIff(cache, i, outcomes[..n]);
    }
  }

  /** The counted loop over the first `n + 1` polls, read off at the first poll. */
  lemma UnfoldPrefix(cache: Entries, i: nat, outcomes: seq<Outcome>, n: nat)
    requires i < Limit && 1 <= n + 1 <= |outcomes|
    ensures IsFetchError(outcomes[0]) ==>
      Counted(cache, i, outcomes[..n + 1]) == AfterPolls(1, [], Counted(cache, i, outcomes[1..][..n]))
    ensures outcomes[0].Success? ==>
      var d := Diff(cache, outcomes[0].value);
      Counted(cache, i, outcomes[..n + 1]) == AfterPolls(1, d.emitted, Counted(d.cache, i + |d.emitted|, outcomes[1..][..n]))
  {
    assert outcomes[..n + 1][0] == outcomes[0] && outcomes[..n + 1][1..] == outcomes[1..][..n];
  }

  /**
   * `i` can pass 10 within one batch: a first batch of more than ten new
   * names is emitted in full and the counter ends above the limit.
   */
  lemma ExceedsWithinBatch(cs: seq<Snapshot>)
    requires DistinctNames(cs) && |cs| > Limit
    ensures Counted(map[], 0, [Success(cs)]).emitted == cs
    ensures Counted(map[], 0, [Success(cs)]).counter == |cs| > Limit
    ensures Counted(map[], 0, [Success(cs)]).ending == CounterReached
  {
    AllNewEmitted(map[], cs);
  }

  /**
   * A failed fetch is printed and polling continues: apart from the number
   * of polls taken, the run is the same as if the failed polls had not
   * happened.
   */
  lemma {:induction false} FetchErrorsSkipped(cache: Entries, i: nat, outcomes: seq<Outcome>)
    ensures var r, r' := Counted(cache, i, outcomes), Counted(cache, i, WithoutFetchErrors(outcomes));
      r.emitted == r'.emitted && r.counter == r'.counter && r.ending == r'.ending && r.cache == r'.cache
    decreases |outcomes|
  {
    if i < Limit && outcomes != [] {
      var w := WithoutFetchErrors(outcomes);
      var rest := outcomes[1..];
      if IsFetchError(outcomes[0]) {
        assert w == WithoutFetchErrors(rest);
        assert Counted(cache, i, outcomes) == AfterPolls(1, [], Counted(cache, i, rest));
        FetchErrorsSkipped(cache, i, rest);
      } else {
        assert w != [] && w[0] == outcomes[0] && w[1..] == WithoutFetchErrors(rest);
        if outcomes[0].Success? {
          var d := Diff(cache, outcomes[0].value);
          assert Counted(cache, i, outcomes) == AfterPolls(1, d.emitted, Counted(d.cache, i + |d.emitted|, rest));
          assert Counted(cache, i, w) == AfterPolls(1, d.emitted, Counted(d.cache, i + |d.emitted|, w[1..]));
          FetchErrorsSkipped(d.cache, i + |d.emitted|, rest);
        } else {
          var crash := CountedRun([], i, 1, Crashed(outcomes[0].error.extractError), cache);
          assert Counted(cache, i, outcomes) == crash;
          assert Counted(cache, i, w) == crash;
        }
      }
    }
  }
}
