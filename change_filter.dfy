/**
 * `filter_changes`: prune every snapshot, then keep those that still have an
 * image-change trigger, in input order. Both tracker variants share it.
 */
module ChangeFilter {
  import opened Wrappers
  import opened Seqs
  import opened Dao

  /** The snapshots `filter_changes` yields for the given snapshots. */
  function Candidates(ss: seq<Snapshot>): seq<Snapshot> {
    if ss == [] then []
    else (if ss[0].Pruned().HasImageChange() then [ss[0].Pruned()] else []) + Candidates(ss[1..])
  }

  /** Every snapshot, pruned. */
  function PruneAll(ss: seq<Snapshot>): seq<Snapshot> {
    if ss == [] then [] else [ss[0].Pruned()] + PruneAll(ss[1..])
  }

  /**
   * After the filter every surviving snapshot holds only image-change
   * triggers and at least one of them.
   */
  lemma {:induction false} CandidatesInvariant(ss: seq<Snapshot>)
    ensures forall s :: s in Candidates(ss) ==>
      s.HasImageChange() && s.imageTriggers != [] && forall t :: t in s.imageTriggers ==> t.IsImageChange()
    decreases |ss|
  {
    if ss != [] {
      CandidatesInvariant(ss[1..]);
      PrunedHasImageChange(ss[0]);
      PruneKeepsImageChanges(ss[0].imageTriggers);
    }
  }

  /**
   * The filter keeps, in input order, the pruned form of exactly the
   * snapshots that have an image-change trigger.
   */
  lemma {:induction false} CandidatesSelect(ss: seq<Snapshot>)
    ensures IsSubsequence(Candidates(ss), PruneAll(ss))
    ensures forall s :: s in ss && s.HasImageChange() ==> s.Pruned() in Candidates(ss)
    ensures forall p :: p in Candidates(ss) ==> exists s :: s in ss && s.HasImageChange() && p == s.Pruned()
    decreases |ss|
  {
    if ss != [] {
      CandidatesSelect(ss[1..]);
      PrunedHasImageChange(ss[0]);
      var c, rest := Candidates(ss), Candidates(ss[1..]);
      assert PruneAll(ss)[1..] == PruneAll(ss[1..]);
      if ss[0].Pruned().HasImageChange() {
        assert c[0] == ss[0].Pruned() && c[1..] == rest;
      } else {
        assert c == rest;
        if rest != [] { assert IsSubsequence(c, PruneAll(ss)[1..]); }
      }
      forall s | s in ss && s.HasImageChange() ensures s.Pruned() in c {
        if s != ss[0] { assert s in ss[1..]; }
      }
      forall p | p in c ensures exists s :: s in ss && s.HasImageChange() && p == s.Pruned() {
        if p in rest {
          var s :| s in ss[1..] && s.HasImageChange() && p == s.Pruned();
          assert s in ss;
        } else {
          assert p == ss[0].Pruned();
        }
      }
    }
  }

  /** The filter works item by item: filtering a concatenation concatenates the results. */
  lemma {:induction false} CandidatesAppend(a: seq<Snapshot>, b: seq<Snapshot>)
    ensures Candidates(a + b) == Candidates(a) + Candidates(b)
    decreases |a|
  {
    if a == [] {
      assert a + b == b;
    } else {
      assert (a + b)[0] == a[0] && (a + b)[1..] == a[1..] + b;
      var head := if a[0].Pruned().HasImageChange() then [a[0].Pruned()] else [];
      assert Candidates(a + b) == head + Candidates(a[1..] + b);
      assert Candidates(a) == head + Candidates(a[1..]);
      CandidatesAppend(a[1..], b);
      assert head + (Candidates(a[1..]) + Candidates(b)) == (head + Candidates(a[1..])) + Candidates(b);
    }
  }

  /**
   * The filter keeps every copy of a pruned snapshot that has an image
   * change and no copy of one that has none.
   */
  lemma {:induction false} CandidatesMultiset(ss: seq<Snapshot>)
    ensures forall p :: multiset(Candidates(ss))[p] == if p.HasImageChange() then multiset(PruneAll(ss))[p] else 0
    decreases |ss|
  {
    if ss != [] {
      CandidatesMultiset(ss[1..]);
    }
  }

  /** The filter only keeps names it was given; distinct names stay distinct. */
  lemma {:induction false} CandidatesNames(ss: seq<Snapshot>)
    ensures forall p :: p in Candidates(ss) ==> exists s :: s in ss && s.name == p.name
    ensures DistinctNames(ss) ==> DistinctNames(Candidates(ss))
    decreases |ss|
  {
    if ss != [] {
      CandidatesNames(ss[1..]);
      var c, rest := Candidates(ss), Candidates(ss[1..]);
      forall p | p in c ensures exists s :: s in ss && s.name == p.name {
        if p in rest {
          var s :| s in ss[1..] && s.name == p.name;
          assert s in ss;
        } else {
          assert p.name == ss[0].name;
        }
      }
      if DistinctNames(ss) {
        DistinctNamesTail(ss);
        if ss[0].Pruned().HasImageChange() {
          forall p | p in rest ensures p.name != ss[0].name {
            var s :| s in ss[1..] && s.name == p.name;
          }
          DistinctNamesCons(ss[0].Pruned(), rest);
        }
      }
    }
  }

  /**
   * `filter_changes` on the objects the extractor built: the list
   * comprehension prunes every object in place, then `filter` keeps, in
   * order, those that still have an image-change trigger.
   */
  method FilterChanges(infos: seq<DeploymentConfigInfo>) returns (kept: seq<DeploymentConfigInfo>)
    requires Distinct(infos)
    modifies set o | o in infos
    ensures Values(kept) == Candidates(old(Values(infos)))
    ensures forall k :: 0 <= k < |infos| ==> infos[k].Value() == old(infos[k].Value()).Pruned()
    ensures forall o :: o in kept ==> o in infos
  {
    ghost var before := Values(infos);
    PruneEach(infos);
    kept := SelectImageChanges(infos, before);
  }

  /** `[dc_info.prune() for dc_info in info]`. */
  method PruneEach(infos: seq<DeploymentConfigInfo>)
    requires Distinct(infos)
    modifies set o | o in infos
    ensures forall k :: 0 <= k < |infos| ==> infos[k].Value() == old(infos[k].Value()).Pruned()
  {
    var i := 0;
    while i < |infos|
      invariant 0 <= i <= |infos|
      invariant forall k :: 0 <= k < i ==> infos[k].Value() == old(infos[k].Value()).Pruned()
      invariant forall k :: i <= k < |infos| ==> infos[k].Value() == old(infos[k].Value())
    {
      var _ := infos[i].Prune();
      i := i + 1;
    }
  }

  /** `Candidates` of a suffix, read off at its first snapshot. */
  lemma CandidatesStep(ss: seq<Snapshot>, i: nat)
    requires i < |ss|
    ensures Candidates(ss[i..]) ==
      (if ss[i].Pruned().HasImageChange() then [ss[i].Pruned()] else []) + Candidates(ss[i + 1..])
  {
    assert ss[i..][0] == ss[i] && ss[i..][1..] == ss[i + 1..];
  }

  /** One step of the filter loop: the candidates found so far, plus those of the rest. */
  lemma SelectStep(ss: seq<Snapshot>, i: nat, found: seq<Snapshot>)
    requires i < |ss| && Candidates(ss) == found + Candidates(ss[i..])
    ensures ss[i].Pruned().HasImageChange() ==> Candidates(ss) == (found + [ss[i].Pruned()]) + Candidates(ss[i + 1..])
    ensures !ss[i].Pruned().HasImageChange() ==> Candidates(ss) == found + Candidates(ss[i + 1..])
  {
    CandidatesStep(ss, i);
    var p, t := ss[i].Pruned(), Candidates(ss[i + 1..]);
    if p.HasImageChange() {
      assert Candidates(ss[i..]) == [p] + t;
      assert found + ([p] + t) == (found + [p]) + t;
    } else {
      assert Candidates(ss[i..]) == [] + t == t;
    }
  }

  /** `filter(lambda dc_info: dc_info.has_image_change(), info)` over the pruned objects. */
  method SelectImageChanges(pruned: seq<DeploymentConfigInfo>, ghost before: seq<Snapshot>) returns (kept: seq<DeploymentConfigInfo>)
    requires |before| == |pruned|
    requires forall k :: 0 <= k < |pruned| ==> pruned[k].Value() == before[k].Pruned()
    ensures Values(kept) == Candidates(before)
    ensures forall o :: o in kept ==> o in pruned
  {
    kept := [];
    var i := 0;
    ghost var vals: seq<Snapshot> := [];
    while i < |pruned|
      invariant 0 <= i <= |pruned|
      invariant forall o :: o in kept ==> o in pruned
      invariant Values(kept) == vals
      invariant Candidates(before) == vals + Candidates(before[i..])
    {
      SelectStep(before, i, vals);
      assert pruned[i].Value() == before[i].Pruned();
      if pruned[i].Value().HasImageChange() {
        ValuesAppend(kept, pruned[i]);
        kept := kept + [pruned[i]];
        vals := vals + [before[i].Pruned()];
      }
      i := i + 1;
    }
  }
}
