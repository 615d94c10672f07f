/**
 * The snapshot cache and the diff step of the poll loops: each candidate
 * whose name is not cached, or which is not `==` to the cached snapshot, is
 * emitted and overwrites the cache entry for its name; every other candidate
 * is passed over and leaves the cache alone.
 */
module SnapshotCache {
  import opened Wrappers
  import opened Seqs
  import opened Dao

  /** The cache: the last emitted snapshot for each name. */
  type Entries = map<Option<string>, Snapshot>

  /** `not cached or dc_info != cached`, with `cached = cache.get(dc_info.name)`. */
  predicate Changed(cache: Entries, c: Snapshot) {
    c.name !in cache || !c.Equal(cache[c.name])
  }

  /** The cache after a pass over a batch of candidates, and what the pass emitted. */
  datatype Pass = Pass(cache: Entries, emitted: seq<Snapshot>)

  /** One pass of the diff step over a batch of candidates, in candidate order. */
  function Diff(cache: Entries, cs: seq<Snapshot>): Pass
    decreases |cs|
  {
    if cs == [] then Pass(cache, [])
    else if Changed(cache, cs[0]) then
      var rest := Diff(cache[cs[0].name := cs[0]], cs[1..]);
      Pass(rest.cache, [cs[0]] + rest.emitted)
    else Diff(cache, cs[1..])
  }

  /** A pass that first emitted `e` and then did `p`. */
  function AfterEmitting(e: seq<Snapshot>, p: Pass): Pass {
    Pass(p.cache, e + p.emitted)
  }

  /** Every entry is stored under its own snapshot's name. */
  predicate KeyedByName(cache: Entries) {
    forall n :: n in cache ==> cache[n].name == n
  }

  /** The names of a batch of candidates. */
  function Names(cs: seq<Snapshot>): set<Option<string>> {
    set c | c in cs :: c.name
  }

  /** The candidates that differ from a fixed cache, in candidate order. */
  function ChangedAgainst(cache: Entries, cs: seq<Snapshot>): seq<Snapshot> {
    if cs == [] then []
    else (if Changed(cache, cs[0]) then [cs[0]] else []) + ChangedAgainst(cache, cs[1..])
  }

  /**
   * For a cache keyed by name, a candidate counts as changed exactly when its
   * name is not cached or it has a trigger the cached snapshot lacks.
   */
  lemma ChangedIff(cache: Entries, c: Snapshot)
    requires KeyedByName(cache)
    ensures Changed(cache, c) <==>
      c.name !in cache || exists t :: t in c.imageTriggers && t !in cache[c.name].imageTriggers
  {
    if c.name in cache { EqualIff(c, cache[c.name]); }
  }

  /**
   * After a pass every candidate name is a key, the other keys stay, entries
   * for names outside the batch are untouched, and the cache stays keyed by
   * name.
   */
  lemma {:induction false} DiffCache(cache: Entries, cs: seq<Snapshot>)
    ensures Diff(cache, cs).cache.Keys == cache.Keys + Names(cs)
    ensures forall n :: n in cache && n !in Names(cs) ==> Diff(cache, cs).cache[n] == cache[n]
    ensures KeyedByName(cache) ==> KeyedByName(Diff(cache, cs).cache)
    decreases |cs|
  {
    if cs != [] {
      assert Names(cs) == {cs[0].name} + Names(cs[1..]) by {
        assert forall c :: c in cs <==> c == cs[0] || c in cs[1..];
      }
      if Changed(cache, cs[0]) {
        DiffCache(cache[cs[0].name := cs[0]], cs[1..]);
      } else {
        DiffCache(cache, cs[1..]);
      }
    }
  }

  /** Emitted snapshots are candidates, in candidate order. */
  lemma {:induction false} DiffEmitsInOrder(cache: Entries, cs: seq<Snapshot>)
    ensures IsSubsequence(Diff(cache, cs).emitted, cs)
    ensures forall c :: c in Diff(cache, cs).emitted ==> c in cs
    decreases |cs|
  {
    if cs != [] {
      var e := Diff(cache, cs).emitted;
      if Changed(cache, cs[0]) {
        DiffEmitsInOrder(cache[cs[0].name := cs[0]], cs[1..]);
        assert e[0] == cs[0] && e[1..] == Diff(cache[cs[0].name := cs[0]], cs[1..]).emitted;
      } else {
        DiffEmitsInOrder(cache, cs[1..]);
        if e != [] { assert IsSubsequence(e, cs[1..]); }
      }
      SubsequenceMembers(e, cs);
    }
  }

  /** A candidate is among the changed ones exactly when it is a candidate that changed. */
  lemma {:induction false} ChangedAgainstMembers(cache: Entries, cs: seq<Snapshot>)
    ensures forall c :: c in ChangedAgainst(cache, cs) <==> c in cs && Changed(cache, c)
    decreases |cs|
  {
    if cs != [] {
      ChangedAgainstMembers(cache, cs[1..]);
      assert forall c :: c in cs <==> c == cs[0] || c in cs[1..];
    }
  }

  /** Which candidates differ depends only on the cache entries for the candidates' names. */
  lemma {:induction false} ChangedAgainstLocal(cache: Entries, cache': Entries, cs: seq<Snapshot>)
    requires forall c :: c in cs ==> (c.name in cache <==> c.name in cache')
    requires forall c :: c in cs && c.name in cache ==> cache[c.name] == cache'[c.name]
    ensures ChangedAgainst(cache, cs) == ChangedAgainst(cache', cs)
    decreases |cs|
  {
    if cs != [] {
      assert cs[0] in cs;
      assert forall c :: c in cs[1..] ==> c in cs;
      ChangedAgainstLocal(cache, cache', cs[1..]);
    }
  }

  /**
   * With distinct candidate names a candidate is emitted exactly when it has
   * no cache entry or is not `==` to it, judged against the cache as it was
   * before the pass; the emitted ones come in candidate order; and each
   * candidate's entry afterwards is the candidate if it changed, the old
   * entry otherwise.
   */
  lemma {:induction false} DiffDistinct(cache: Entries, cs: seq<Snapshot>)
    requires DistinctNames(cs)
    ensures Diff(cache, cs).emitted == ChangedAgainst(cache, cs)
    ensures forall k :: 0 <= k < |cs| ==> (cs[k] in Diff(cache, cs).emitted <==> Changed(cache, cs[k]))
    ensures forall c :: c in cs ==>
      (c.name in Diff(cache, cs).cache && Diff(cache, cs).cache[c.name] == if Changed(cache, c) then c else cache[c.name])
    decreases |cs|
  {
    ChangedAgainstMembers(cache, cs);
    if cs != [] {
      var c0, rest := cs[0], cs[1..];
      DistinctNamesTail(cs);
      var cache' := if Changed(cache, c0) then cache[c0.name := c0] else cache;
      DiffDistinct(cache', rest);
      ChangedAgainstLocal(cache, cache', rest);
      DiffCache(cache', rest);
      assert c0.name !in Names(rest);
      forall c | c in cs ensures c.name in Diff(cache, cs).cache &&
        Diff(cache, cs).cache[c.name] == if Changed(cache, c) then c else cache[c.name]
      {
        if c != c0 {
          assert c in rest;
        }
      }
    }
  }

  /** A pass in which no candidate differs from the cache emits nothing and changes nothing. */
  lemma {:induction false} UnchangedPass(cache: Entries, cs: seq<Snapshot>)
    requires forall c :: c in cs ==> !Changed(cache, c)
    ensures Diff(cache, cs) == Pass(cache, [])
    decreases |cs|
  {
    if cs != [] {
      assert cs[0] in cs;
      assert forall c :: c in cs[1..] ==> c in cs;
      UnchangedPass(cache, cs[1..]);
    }
  }

  /**
   * Re-running a pass on the same batch (distinct names) emits nothing the
   * second time and leaves the cache as the first pass left it.
   */
  lemma DiffIdempotent(cache: Entries, cs: seq<Snapshot>)
    requires DistinctNames(cs)
    ensures Diff(Diff(cache, cs).cache, cs) == Pass(Diff(cache, cs).cache, [])
  {
    var after := Diff(cache, cs).cache;
    DiffDistinct(cache, cs);
    forall c | c in cs ensures !Changed(after, c) {
      if Changed(cache, c) {
        EqualReflexive(c);
      }
    }
    UnchangedPass(after, cs);
  }

  /**
   * A candidate whose triggers all occur in the cached snapshot (for instance
   * after an image trigger was removed) is not emitted, and its entry stays.
   */
  lemma SubsetNotEmitted(cache: Entries, c: Snapshot)
    requires KeyedByName(cache) && c.name in cache
    requires forall t :: t in c.imageTriggers ==> t in cache[c.name].imageTriggers
    ensures Diff(cache, [c]) == Pass(cache, [])
  {
    ChangedIff(cache, c);
    UnchangedPass(cache, [c]);
  }

  /** On a batch of names the cache does not hold yet (distinct names), every candidate is emitted. */
  lemma AllNewEmitted(cache: Entries, cs: seq<Snapshot>)
    requires DistinctNames(cs)
    requires forall c :: c in cs ==> c.name !in cache
    ensures Diff(cache, cs).emitted == cs
  {
    DiffDistinct(cache, cs);
    AllChanged(cache, cs);
  }

  /** When every candidate counts as changed, none of them is passed over by `ChangedAgainst`. */
  lemma {:induction false} AllChanged(cache: Entries, cs: seq<Snapshot>)
    requires forall c :: c in cs ==> Changed(cache, c)
    ensures ChangedAgainst(cache, cs) == cs
    decreases |cs|
  {
    if cs != [] {
      assert cs[0] in cs;
      assert forall c :: c in cs[1..] ==> c in cs;
      AllChanged(cache, cs[1..]);
    }
  }

  /**
   * Without distinct names a repeated batch can be emitted again: two
   * candidates under one name with different image triggers overwrite each
   * other's entry on every pass.
   */
  lemma DuplicateNamesReemit()
    ensures exists cs: seq<Snapshot> :: Diff(Diff(map[], cs).cache, cs).emitted != []
  {
    var ta := ImageTrigger(Some("img:1"), Some(ImageChangeType));
    var tb := ImageTrigger(Some("img:2"), Some(ImageChangeType));
    var a := Snapshot(Some("mod-a"), None, [ta]);
    var b := Snapshot(Some("mod-a"), None, [tb]);
    var cs := [a, b];
    assert ta != tb;
    assert tb in TriggerSet(b.imageTriggers) - TriggerSet(a.imageTriggers);
    assert ta in TriggerSet(a.imageTriggers) - TriggerSet(b.imageTriggers);
    assert cs[1..] == [b] && cs[1..][1..] == [];
    var c1: Entries := map[a.name := a];
    var c2: Entries := c1[b.name := b];
    assert c2 == map[a.name := b];
    assert Diff(c2, []) == Pass(c2, []);
    assert Diff(c1, [b]) == Pass(c2, [b]);
    assert Diff(map[], cs) == Pass(c2, [a, b]);
    assert Changed(c2, a);
    assert Diff(c2, cs).emitted[0] == a;
  }

  /** The process-lifetime cache of the poll loops: `cache = {}`. */
  class Cache {
    var entries: Entries

    /** Every entry is stored under its snapshot's name. */
    ghost predicate Valid()
      reads this
    {
      KeyedByName(entries)
    }

    constructor ()
      ensures Valid() && entries == map[]
    {
      entries := map[];
    }

    /**
     * The body of the poll loops for one batch: for each candidate, look up
     * the cache by name; if absent or not `==`, emit the candidate and
     * overwrite the entry.
     */
    method Step(candidates: seq<Snapshot>) returns (emitted: seq<Snapshot>)
      requires Valid()
      modifies this
      ensures Valid()
      ensures Pass(entries, emitted) == Diff(old(entries), candidates)
    {
      emitted := [];
      var i := 0;
      assert candidates[i..] == candidates;
      while i < |candidates|
        invariant 0 <= i <= |candidates|
        invariant Valid()
        invariant Diff(old(entries), candidates) == AfterEmitting(emitted, Diff(entries, candidates[i..]))
      {
        var c := candidates[i];
        assert candidates[i..][0] == c && candidates[i..][1..] == candidates[i + 1..];
        var cached := if c.name in entries then Some(entries[c.name]) else None;
        if cached.None? || !c.Equal(cached.value) {
          entries := entries[c.name := c];
          emitted := emitted + [c];
        }
        i := i + 1;
      }
    }
  }
}
