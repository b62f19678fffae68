/** What pruning guarantees: least survivors, retries that converge, deletions that are safe. */
module PruningFacts {
  import opened Wrappers
  import opened Backups
  import opened Sequences
  import opened Retention
  import opened Chains
  import opened Pruning

  ghost predicate BySnapshot(idx: Index) {
    forall n | n in idx :: idx[n].snapshot == n
  }

  ghost predicate BaseClosed(names: set<Snapshot>, idx: Index) {
    forall n | n in names && n in idx && idx[n].base.Some? :: idx[n].base.value in names
  }

  // What the policies retain are names of backups with a whole chain.
  lemma {:induction false} RetainedAreRestorable(backups: seq<Backup>, policies: seq<RetentionPolicy>)
    requires DistinctNames(backups) && Retained(policies, Candidates(backups)).Ok?
    ensures forall n | n in Retained(policies, Candidates(backups)).value ::
      n in IndexOf(backups) && Restorable(IndexOf(backups)[n], IndexOf(backups))
  {
    var idx := IndexOf(backups);
    IndexOfMembers(backups);
    RetainedIsUnion(policies, Candidates(backups));
    var whole := Filter(backups, b => Restorable(b, idx));
    forall n | n in Retained(policies, Candidates(backups)).value ensures n in idx && Restorable(idx[n], idx) {
      var i :| 0 <= i < |whole| && SubjectOf(whole[i]).name == n;
      assert whole[i] in whole;
    }
  }

  // When no two backups share a snapshot, the plan is the listing without the survivors.
  lemma {:induction false} DistinctPlan(backups: seq<Backup>, policies: seq<RetentionPolicy>)
    requires DistinctNames(backups) && policies != [] && PrunedBackups(backups, policies).Ok?
    ensures PrunedBackups(backups, policies).value ==
      Without(backups, Survivors(Retained(policies, Candidates(backups)).value, IndexOf(backups)))
  {
    var idx := IndexOf(backups);
    var starts := Starts(backups, idx);
    var retained := Retained(policies, Candidates(backups)).value;
    RetainedAreRestorable(backups, policies);
    IndexOfMembers(backups);
    var whole := Filter(backups, b => Restorable(b, idx));
    IndexOfMembers(whole);
    forall r | r in retained ensures r in starts && starts[r] == idx[r] {
      assert idx[r] in whole;
    }
    assert SurvivorsFrom(retained, starts, idx) == Survivors(retained, idx);
  }

  // What is met on a walk is indexed and, if the walk reaches a root, restorable.
  lemma {:induction false} MetOnWalk(b: Backup, idx: Index, path: seq<Backup>, k: nat)
    requires BySnapshot(idx) && b.snapshot in idx && idx[b.snapshot] == b
    requires IsPath(b, idx, path) && k < |path|
    ensures path[k].snapshot in idx && idx[path[k].snapshot] == path[k]
    ensures Restorable(b, idx) ==> Restorable(path[k], idx)
  {
    if k > 0 {
      MetOnWalk(b, idx, path, k - 1);
      assert path[k - 1 + 1] == idx[path[k - 1].base.value];
      RestorableStep(path[k - 1], idx);
    }
  }

  lemma {:induction false} WalkStaysInClosed(b: Backup, idx: Index, path: seq<Backup>, k: nat, names: set<Snapshot>)
    requires BySnapshot(idx) && b.snapshot in idx && idx[b.snapshot] == b
    requires IsPath(b, idx, path) && k < |path|
    requires BaseClosed(names, idx) && b.snapshot in names
    ensures path[k].snapshot in names
  {
    if k > 0 {
      WalkStaysInClosed(b, idx, path, k - 1, names);
      MetOnWalk(b, idx, path, k - 1);
      assert path[k - 1 + 1] == idx[path[k - 1].base.value];
    }
  }

  // Names of backups with a whole chain.
  ghost predicate Whole(names: set<Snapshot>, idx: Index) {
    forall n | n in names :: n in idx && Restorable(idx[n], idx)
  }

  lemma {:induction false} SurvivorOnWalk(retained: set<Snapshot>, idx: Index, n: Snapshot)
    returns (r: Snapshot, path: seq<Backup>)
    requires BySnapshot(idx) && Whole(retained, idx) && Survives(n, retained, idx, idx)
    ensures r in retained && IsPath(idx[r], idx, path) && path[|path| - 1].snapshot == n
    ensures n in idx && idx[n] == path[|path| - 1] && Restorable(idx[n], idx)
  {
    r :| r in retained && r in idx && OnChain(n, idx[r], idx);
    path :| IsPath(idx[r], idx, path) && path[|path| - 1].snapshot == n;
    MetOnWalk(idx[r], idx, path, |path| - 1);
  }

  /**
   * The survivors are the least set of names that holds what is retained and the base of each of
   * its members; each of them has a whole chain, so orphans never survive.
   */
  lemma {:induction false} SurvivorsAreLeastClosed(retained: set<Snapshot>, idx: Index)
    requires BySnapshot(idx) && Whole(retained, idx)
    ensures var survivors := Survivors(retained, idx);
      && retained <= survivors
      && BaseClosed(survivors, idx)
      && Whole(survivors, idx)
      && forall other: set<Snapshot> :: retained <= other && BaseClosed(other, idx) ==> survivors <= other
  {
    var survivors := Survivors(retained, idx);
    forall n | n in retained ensures n in survivors {
      assert IsPath(idx[n], idx, [idx[n]]) && OnChain(n, idx[n], idx);
    }
    forall n | n in survivors ensures Restorable(idx[n], idx) {
      var _, _ := SurvivorOnWalk(retained, idx, n);
    }
    forall n | n in survivors && idx[n].base.Some? ensures idx[n].base.value in survivors {
      BaseSurvives(retained, idx, n);
    }
    forall other: set<Snapshot> | retained <= other && BaseClosed(other, idx) ensures survivors <= other {
      forall n | n in survivors ensures n in other {
        var r, path := SurvivorOnWalk(retained, idx, n);
        WalkStaysInClosed(idx[r], idx, path, |path| - 1, other);
      }
    }
  }

  lemma {:induction false} BaseSurvives(retained: set<Snapshot>, idx: Index, n: Snapshot)
    requires BySnapshot(idx) && Whole(retained, idx)
    requires n in idx && Survives(n, retained, idx, idx) && idx[n].base.Some?
    ensures idx[n].base.value in Survivors(retained, idx)
  {
    var r, path := SurvivorOnWalk(retained, idx, n);
    RestorableStep(idx[n], idx);
    var next := idx[idx[n].base.value];
    assert IsPath(idx[r], idx, path + [next]) && OnChain(next.snapshot, idx[r], idx);
  }

  /* ---- Smaller listings ---- */

  ghost predicate SubIndex(smaller: Index, idx: Index) {
    forall n | n in smaller :: n in idx && smaller[n] == idx[n]
  }

  // The names of a whole chain that are still indexed still make a chain.
  lemma {:induction false} ChainInSmallerIndex(b: Backup, idx: Index, chain: seq<Backup>, smaller: Index)
    requires IsFullChain(b, idx, chain, true)
    requires SubIndex(smaller, idx)
    requires forall i | 0 <= i < |chain| - 1 :: chain[i].base.value in smaller
    ensures Restorable(b, smaller)
  {
    assert IsFullChain(b, smaller, chain, true);
  }

  lemma {:induction false} WalkInLargerIndex(b: Backup, smaller: Index, idx: Index)
    requires SubIndex(smaller, idx)
    requires Restorable(b, smaller)
    ensures Restorable(b, idx)
  {
    var chain: seq<Backup> :| IsFullChain(b, smaller, chain, true);
    assert IsFullChain(b, idx, chain, true);
  }

  lemma {:induction false} FilteredIndex(backups: seq<Backup>, keep: Backup -> bool)
    requires DistinctNames(backups)
    ensures DistinctNames(Filter(backups, keep))
    ensures var (idx, smaller) := (IndexOf(backups), IndexOf(Filter(backups, keep)));
      && SubIndex(smaller, idx)
      && (forall n | n in idx && keep(idx[n]) :: n in smaller)
  {
    PairwiseFilter(backups, keep, (a: Backup, b: Backup) => a.snapshot != b.snapshot);
    IndexOfMembers(backups);
    IndexOfMembers(Filter(backups, keep));
  }

  lemma {:induction false} SubjectsCons(b: Backup, backups: seq<Backup>)
    ensures SubjectsOf([b] + backups) == [SubjectOf(b)] + SubjectsOf(backups)
  {
  }

  lemma {:induction false} FilterSubjects(backups: seq<Backup>, f: Backup -> bool, g: Subject -> bool)
    requires forall b | b in backups :: f(b) == g(SubjectOf(b))
    ensures SubjectsOf(Filter(backups, f)) == Filter(SubjectsOf(backups), g)
  {
    if backups != [] {
      var b, rest := backups[0], backups[1..];
      FilterSubjects(rest, f, g);
      assert backups == [b] + rest;
      SubjectsCons(b, rest);
      SubjectsCons(b, Filter(rest, f));
      hide SubjectsOf;
      assert SubjectsOf(backups)[1..] == SubjectsOf(rest);
      assert f(b) == g(SubjectOf(b));
    }
  }

  /* ---- Retries ---- */

  // A walk to the root stays whole while every survivor is kept.
  lemma {:induction false} SurvivorStaysRestorable(retained: set<Snapshot>, idx: Index, smaller: Index, n: Snapshot)
    requires BySnapshot(idx) && Whole(retained, idx)
    requires SubIndex(smaller, idx)
    requires Survivors(retained, idx) <= smaller.Keys
    requires n in Survivors(retained, idx)
    ensures Restorable(idx[n], smaller)
  {
    SurvivorsAreLeastClosed(retained, idx);
    var b := idx[n];
    var chain: seq<Backup> :| IsFullChain(b, idx, chain, true);
    forall i | 0 <= i < |chain| - 1 ensures chain[i].base.value in smaller {
      WalkStaysInClosed(b, idx, chain, i, Survivors(retained, idx));
      MetOnWalk(b, idx, chain, i);
    }
    ChainInSmallerIndex(b, idx, chain, smaller);
  }

  // Taking away backups that do not survive leaves the same retained names.
  lemma {:induction false} SameRetained(backups: seq<Backup>, policies: seq<RetentionPolicy>, keep: Backup -> bool)
    requires DistinctNames(backups) && Retained(policies, Candidates(backups)).Ok?
    requires var survivors := Survivors(Retained(policies, Candidates(backups)).value, IndexOf(backups));
      forall b | b in backups && b.snapshot in survivors :: keep(b)
    ensures Retained(policies, Candidates(Filter(backups, keep))) == Retained(policies, Candidates(backups))
  {
    var idx, left := IndexOf(backups), Filter(backups, keep);
    var smaller := IndexOf(left);
    var retained := Retained(policies, Candidates(backups)).value;
    IndexOfMembers(backups);
    FilteredIndex(backups, keep);
    var g := (s: Subject) => s.name in idx && keep(idx[s.name]) && Restorable(idx[s.name], smaller);
    CandidatesOfFiltered(backups, keep, g);
    RetainedAreRestorable(backups, policies);
    SurvivorsAreLeastClosed(retained, idx);
    forall n | n in retained ensures keep(idx[n]) && Restorable(idx[n], smaller) {
      SurvivorStaysRestorable(retained, idx, smaller, n);
    }
    RetainedIsStable(policies, Candidates(backups), g);
  }

  lemma {:induction false} CandidatesOfFiltered(backups: seq<Backup>, keep: Backup -> bool, g: Subject -> bool)
    requires DistinctNames(backups)
    requires forall b | b in backups :: g(SubjectOf(b)) == (keep(b) && Restorable(b, IndexOf(Filter(backups, keep))))
    ensures Candidates(Filter(backups, keep)) == Filter(Candidates(backups), g)
  {
    var idx := IndexOf(backups);
    var smaller := IndexOf(Filter(backups, keep));
    FilteredIndex(backups, keep);
    var still := b => Restorable(b, smaller);
    var whole := b => Restorable(b, idx);
    var kept := b => g(SubjectOf(b));
    forall b | b in backups ensures (keep(b) && still(b)) == (whole(b) && kept(b)) {
      if Restorable(b, smaller) { WalkInLargerIndex(b, smaller, idx); }
    }
    FilterExchange(backups, keep, still, whole, kept);
    FilterSubjects(Filter(backups, whole), kept, g);
  }

  // The survivors among fewer backups are the same, while all of them are kept.
  lemma {:induction false} SameSurvivors(retained: set<Snapshot>, idx: Index, smaller: Index)
    requires BySnapshot(idx) && Whole(retained, idx) && SubIndex(smaller, idx)
    requires Survivors(retained, idx) <= smaller.Keys
    ensures Survivors(retained, smaller) == Survivors(retained, idx)
  {
    forall n | n in Survivors(retained, idx) ensures Survives(n, retained, smaller, smaller) {
      SurvivesAmongFewer(retained, idx, smaller, n);
    }
    forall n | n in Survivors(retained, smaller) ensures Survives(n, retained, idx, idx) {
      var r :| r in retained && r in smaller && OnChain(n, smaller[r], smaller);
      var path: seq<Backup> :| IsPath(smaller[r], smaller, path) && path[|path| - 1].snapshot == n;
      assert IsPath(idx[r], idx, path) && OnChain(n, idx[r], idx);
    }
  }

  lemma {:induction false} WalkMeets(n: Snapshot, idx: Index, path: seq<Backup>)
    requires path != [] && Linked(idx, path) && path[|path| - 1].snapshot == n
    ensures OnChain(n, path[0], idx)
  {
  }

  lemma {:induction false} SurvivesAmongFewer(retained: set<Snapshot>, idx: Index, smaller: Index, n: Snapshot)
    requires BySnapshot(idx) && Whole(retained, idx) && SubIndex(smaller, idx)
    requires Survivors(retained, idx) <= smaller.Keys
    requires n in Survivors(retained, idx)
    ensures Survives(n, retained, smaller, smaller)
  {
    var r, path := SurvivorOnWalk(retained, idx, n);
    assert BaseClosed(Survivors(retained, idx), idx) && retained <= Survivors(retained, idx) by {
      SurvivorsAreLeastClosed(retained, idx);
    }
    forall i | 0 <= i < |path| - 1 ensures path[i].base.value in smaller {
      WalkStaysInClosed(idx[r], idx, path, i + 1, Survivors(retained, idx));
      assert path[i + 1] == idx[path[i].base.value];
    }
    WalkMeets(n, smaller, path);
    assert r in smaller && smaller[r] == path[0];
  }

  function Remaining(backups: seq<Backup>, removed: set<Backup>): seq<Backup> {
    Filter(backups, b => b !in removed)
  }

  /**
   * If an earlier run removed any part of what it pruned, pruning what is left with the same
   * policies prunes exactly the rest, in the same order.
   */
  lemma {:induction false} RetryConverges(backups: seq<Backup>, policies: seq<RetentionPolicy>, removed: set<Backup>)
    requires DistinctNames(backups) && PrunedBackups(backups, policies).Ok?
    requires forall b | b in removed :: b in PrunedBackups(backups, policies).value
    ensures PrunedBackups(Remaining(backups, removed), policies)
         == Ok(Remaining(PrunedBackups(backups, policies).value, removed))
  {
    if policies != [] {
      RetryRetains(backups, policies, removed);
      DistinctPlan(backups, policies);
      DistinctPlan(Remaining(backups, removed), policies);
      var survivors := Survivors(Retained(policies, Candidates(backups)).value, IndexOf(backups));
      hide Survivors, Candidates, Retained, IndexOf, PrunedBackups;
      RetryComplement(backups, removed, survivors);
    }
  }

  lemma {:induction false} RetryComplement(backups: seq<Backup>, removed: set<Backup>, names: set<Snapshot>)
    ensures Without(Remaining(backups, removed), names) == Remaining(Without(backups, names), removed)
  {
    var spared := (b: Backup) => b.snapshot !in names;
    var left := b => b !in removed;
    FilterExchange(backups, left, spared, spared, left);
  }

  // What is left after an earlier run retains the same, and the same survives.
  lemma {:induction false} RetryRetains(backups: seq<Backup>, policies: seq<RetentionPolicy>, removed: set<Backup>)
    requires DistinctNames(backups) && policies != [] && PrunedBackups(backups, policies).Ok?
    requires forall b | b in removed :: b in PrunedBackups(backups, policies).value
    ensures var left := Remaining(backups, removed);
      && DistinctNames(left) && PrunedBackups(left, policies).Ok?
      && Survivors(Retained(policies, Candidates(left)).value, IndexOf(left))
           == Survivors(Retained(policies, Candidates(backups)).value, IndexOf(backups))
  {
    var idx := IndexOf(backups);
    var retained := Retained(policies, Candidates(backups)).value;
    var keep := b => b !in removed;
    var smaller := IndexOf(Remaining(backups, removed));
    DistinctPlan(backups, policies);
    IndexOfMembers(backups);
    RetainedAreRestorable(backups, policies);
    SameRetained(backups, policies, keep);
    FilteredIndex(backups, keep);
    assert Survivors(retained, idx) <= smaller.Keys;
    SameSurvivors(retained, idx, smaller);
  }

  /** Pruning again after all removals succeeded prunes nothing. */
  lemma {:induction false} PruningIsIdempotent(backups: seq<Backup>, policies: seq<RetentionPolicy>)
    requires DistinctNames(backups) && PrunedBackups(backups, policies).Ok?
    ensures var pruned := PrunedBackups(backups, policies).value;
      PrunedBackups(Remaining(backups, set b | b in pruned), policies) == Ok([])
  {
    var pruned := PrunedBackups(backups, policies).value;
    var removed := set b | b in pruned;
    RetryConverges(backups, policies, removed);
    FilterNone(pruned, b => b !in removed);
  }

  /** What is pruned and what is kept are two parts of the listing, each in its order. */
  lemma {:induction false} PrunedAndKeptPartition(backups: seq<Backup>, policies: seq<RetentionPolicy>)
    requires PrunedBackups(backups, policies).Ok?
    ensures var pruned := PrunedBackups(backups, policies).value;
      var kept := Remaining(backups, set b | b in pruned);
      && Subsequence(pruned, backups) && Subsequence(kept, backups)
      && |pruned| + |kept| == |backups|
      && forall b | b in backups :: b in pruned <==> b !in kept
  {
    var pruned := PrunedBackups(backups, policies).value;
    var removed := set b | b in pruned;
    FilterIsSubsequence(backups, b => b !in removed);
    if policies == [] {
      FilterAll(backups, b => b !in removed);
    } else {
      var idx := IndexOf(backups);
      var survivors := SurvivorsFrom(Retained(policies, Candidates(backups)).value, Starts(backups, idx), idx);
      FilterIsSubsequence(backups, (b: Backup) => b.snapshot !in survivors);
      FilterSplits(backups, (b: Backup) => b.snapshot !in survivors, b => b !in removed);
    }
  }

  /* ---- The order of deletions ---- */

  ghost predicate NewestFirst(backups: seq<Backup>) {
    forall i, j | 0 <= i < j < |backups| :: backups[i].snapshot.rank > backups[j].snapshot.rank
  }

  ghost predicate AllOlderBases(backups: seq<Backup>) {
    forall b | b in backups :: OlderBase(b)
  }

  lemma {:induction false} RemainingIndex(backups: seq<Backup>, removed: set<Backup>)
    requires DistinctNames(backups)
    ensures var (idx, left) := (IndexOf(backups), IndexOf(Remaining(backups, removed)));
      && SubIndex(left, idx) && forall n :: n in left <==> n in idx && idx[n] !in removed
  {
    FilteredIndex(backups, b => b !in removed);
    IndexOfMembers(backups);
    IndexOfMembers(Remaining(backups, removed));
  }

  lemma {:induction false} SurvivorsKeepChains(backups: seq<Backup>, policies: seq<RetentionPolicy>, b: Backup,
                                               chain: seq<Backup>, i: nat)
    requires DistinctNames(backups) && policies != [] && PrunedBackups(backups, policies).Ok?
    requires b in backups && b !in PrunedBackups(backups, policies).value
    requires IsFullChain(b, IndexOf(backups), chain, true) && i < |chain|
    ensures chain[i] in backups && chain[i] !in PrunedBackups(backups, policies).value
  {
    var idx := IndexOf(backups);
    var retained := Retained(policies, Candidates(backups)).value;
    IndexOfMembers(backups);
    RetainedAreRestorable(backups, policies);
    DistinctPlan(backups, policies);
    SurvivorsAreLeastClosed(retained, idx);
    WalkStaysInClosed(b, idx, chain, i, Survivors(retained, idx));
    MetOnWalk(b, idx, chain, i);
  }

  /** The policies see the backups with a whole chain, in order, each as full as it is. */
  lemma {:induction false} CandidatesAre(backups: seq<Backup>) returns (whole: seq<Backup>)
    ensures Subsequence(whole, backups) && forall b :: b in whole <==> b in backups && Restorable(b, IndexOf(backups))
    ensures |Candidates(backups)| == |whole|
    ensures forall i | 0 <= i < |whole| ::
      Candidates(backups)[i].name == whole[i].snapshot && (Candidates(backups)[i].full <==> whole[i].base.None?)
  {
    var idx := IndexOf(backups);
    hide Restorable, IndexOf;
    FilterIsSubsequence(backups, b => Restorable(b, idx));
    whole := Filter(backups, b => Restorable(b, idx));
  }

  // Some policy picks r.
  ghost predicate PickedBy(policies: seq<RetentionPolicy>, backups: seq<Backup>, r: Backup) {
    exists i :: 0 <= i < |policies| && Picks(policies[i], Candidates(backups)).Ok?
      && Subject(r.snapshot, r.base.None?) in Picks(policies[i], Candidates(backups)).value
  }

  lemma {:induction false} PickOfName(backups: seq<Backup>, p: RetentionPolicy, r: Backup)
    requires DistinctNames(backups) && r in backups && Picks(p, Candidates(backups)).Ok?
    ensures r.snapshot in NamesOf(Picks(p, Candidates(backups)).value) <==>
      Subject(r.snapshot, r.base.None?) in Picks(p, Candidates(backups)).value
  {
    var whole := CandidatesAre(backups);
    PicksAreSubjects(p, Candidates(backups));
    IndexOfMembers(backups);
    hide Restorable, Candidates, Picks, IndexOf, Subsequence;
    forall x | x in Picks(p, Candidates(backups)).value && x.name == r.snapshot
      ensures x == Subject(r.snapshot, r.base.None?)
    {
      var i :| 0 <= i < |whole| && Candidates(backups)[i] == x;
      assert whole[i] in whole;
    }
  }

  lemma {:induction false} RetainedIsPicked(backups: seq<Backup>, policies: seq<RetentionPolicy>, r: Backup)
    requires DistinctNames(backups) && r in backups && Retained(policies, Candidates(backups)).Ok?
    ensures r.snapshot in Retained(policies, Candidates(backups)).value <==> PickedBy(policies, backups, r)
  {
    RetainedIsUnion(policies, Candidates(backups));
    forall i | 0 <= i < |policies|
      ensures r.snapshot in NamesOf(Picks(policies[i], Candidates(backups)).value) <==>
        Subject(r.snapshot, r.base.None?) in Picks(policies[i], Candidates(backups)).value
    {
      PickOfName(backups, policies[i], r);
    }
    hide NamesOf, Picks, Retained, Candidates;
  }

  /**
   * A listed backup is pruned exactly when there are policies and it is on the chain of no backup that
   * one of them picks.
   */
  lemma {:induction false} PrunedIff(backups: seq<Backup>, policies: seq<RetentionPolicy>, b: Backup)
    requires DistinctNames(backups) && PrunedBackups(backups, policies).Ok? && b in backups
    ensures b in PrunedBackups(backups, policies).value <==>
      policies != [] &&
      forall r | r in backups && PickedBy(policies, backups, r) :: !OnChain(b.snapshot, r, IndexOf(backups))
  {
    if policies != [] {
      var idx := IndexOf(backups);
      var retained := Retained(policies, Candidates(backups)).value;
      DistinctPlan(backups, policies);
      IndexOfMembers(backups);
      RetainedAreRestorable(backups, policies);
      forall r | r in backups ensures r.snapshot in retained <==> PickedBy(policies, backups, r) {
        RetainedIsPicked(backups, policies, r);
      }
      hide PrunedBackups, Retained, Candidates, PickedBy, Restorable, OnChain, IndexOf;
      assert b.snapshot in Survivors(retained, idx) <==> Survives(b.snapshot, retained, idx, idx);
    }
  }

  /** A plan fails exactly when some policy does. */
  lemma {:induction false} PlanFailsIff(backups: seq<Backup>, policies: seq<RetentionPolicy>)
    ensures PrunedBackups(backups, policies).Failed? <==>
      exists i :: 0 <= i < |policies| && Picks(policies[i], Candidates(backups)).Failed?
  {
    RetainedFailsIff(policies, Candidates(backups));
  }

  /** With at least one policy, a backup without a whole chain is pruned. */
  lemma {:induction false} OrphansArePruned(backups: seq<Backup>, policies: seq<RetentionPolicy>, b: Backup)
    requires DistinctNames(backups) && policies != [] && PrunedBackups(backups, policies).Ok?
    requires b in backups && !Restorable(b, IndexOf(backups))
    ensures b in PrunedBackups(backups, policies).value
  {
    var retained := Retained(policies, Candidates(backups)).value;
    IndexOfMembers(backups);
    RetainedAreRestorable(backups, policies);
    DistinctPlan(backups, policies);
    hide PrunedBackups, Retained, Survivors, Restorable;
    SurvivorsAreLeastClosed(retained, IndexOf(backups));
  }

  /** Whichever removals are done, a backup that is not pruned and had a whole chain keeps it. */
  lemma {:induction false} RetainedStayRestorable(backups: seq<Backup>, policies: seq<RetentionPolicy>,
                                                  removed: set<Backup>, b: Backup)
    requires DistinctNames(backups) && PrunedBackups(backups, policies).Ok?
    requires forall x | x in removed :: x in PrunedBackups(backups, policies).value
    requires b in backups && b !in PrunedBackups(backups, policies).value && Restorable(b, IndexOf(backups))
    ensures b in Remaining(backups, removed) && Restorable(b, IndexOf(Remaining(backups, removed)))
  {
    var idx := IndexOf(backups);
    RemainingIndex(backups, removed);
    IndexOfMembers(backups);
    if policies == [] {
      FilterAll(backups, x => x !in removed);
    } else {
      var chain: seq<Backup> :| IsFullChain(b, idx, chain, true);
      forall i | 0 <= i < |chain| - 1 ensures chain[i].base.value in IndexOf(Remaining(backups, removed)) {
        SurvivorsKeepChains(backups, policies, b, chain, i + 1);
        assert chain[i + 1] == idx[chain[i].base.value];
      }
      ChainInSmallerIndex(b, idx, chain, IndexOf(Remaining(backups, removed)));
    }
  }

  lemma {:induction false} PrunedNewestFirst(backups: seq<Backup>, policies: seq<RetentionPolicy>)
    requires NewestFirst(backups) && PrunedBackups(backups, policies).Ok?
    ensures NewestFirst(PrunedBackups(backups, policies).value)
  {
    if policies != [] {
      var idx := IndexOf(backups);
      var survivors := SurvivorsFrom(Retained(policies, Candidates(backups)).value, Starts(backups, idx), idx);
      var newer := (a: Backup, b: Backup) => a.snapshot.rank > b.snapshot.rank;
      PairwiseFilter(backups, (b: Backup) => b.snapshot !in survivors, newer);
    }
  }

  /**
   * Deleting in listing order, most recent first, may stop anywhere: every backup still present
   * that had a whole chain before still has one.
   */
  lemma {:induction false} DeletionOrderIsSafe(backups: seq<Backup>, policies: seq<RetentionPolicy>, k: nat, b: Backup)
    requires NewestFirst(backups) && AllOlderBases(backups) && PrunedBackups(backups, policies).Ok?
    requires k <= |PrunedBackups(backups, policies).value|
    requires b in backups && b !in PrunedBackups(backups, policies).value[..k] && Restorable(b, IndexOf(backups))
    ensures var removed := set x | x in PrunedBackups(backups, policies).value[..k];
      b in Remaining(backups, removed) && Restorable(b, IndexOf(Remaining(backups, removed)))
  {
    var pruned := PrunedBackups(backups, policies).value;
    var removed := set x | x in pruned[..k];
    if b !in pruned {
      RetainedStayRestorable(backups, policies, removed, b);
    } else {
      var idx := IndexOf(backups);
      IndexOfMembers(backups);
      RemainingIndex(backups, removed);
      PrunedNewestFirst(backups, policies);
      hide PrunedBackups;
      var chain: seq<Backup> :| IsFullChain(b, idx, chain, true);
      forall i | 0 <= i < |chain| - 1 ensures chain[i].base.value in IndexOf(Remaining(backups, removed)) {
        assert chain[i + 1] == idx[chain[i].base.value];
        NamesDecrease(idx, chain, 0, i + 1);
      }
      ChainInSmallerIndex(b, idx, chain, IndexOf(Remaining(backups, removed)));
    }
  }

  // An index that holds the base of each of its members has only whole chains.
  lemma {:induction false} ClosedIsWhole(idx: Index, n: Snapshot)
    requires OlderBases(idx) && n in idx
    requires forall m | m in idx && idx[m].base.Some? :: idx[m].base.value in idx
    ensures Restorable(idx[n], idx)
    decreases n.rank
  {
    RestorableStep(idx[n], idx);
    if idx[n].base.Some? {
      ClosedIsWhole(idx, idx[n].base.value);
    }
  }

  ghost predicate AllWhole(backups: seq<Backup>) {
    forall b | b in backups :: Restorable(b, IndexOf(backups))
  }

  // A backup whose removal failed still has its base.
  ghost predicate KeepsBase(b: Backup, idx: Index, removed: set<Backup>) {
    b.base.Some? ==> b.base.value in idx && idx[b.base.value] !in removed
  }

  lemma {:induction false} RemainingIsClosed(backups: seq<Backup>, policies: seq<RetentionPolicy>,
                                             removed: set<Backup>, m: Snapshot)
    requires DistinctNames(backups) && PrunedBackups(backups, policies).Ok?
    requires forall b | b in removed :: b in PrunedBackups(backups, policies).value
    requires policies != [] || AllWhole(backups)
    requires forall b | b in PrunedBackups(backups, policies).value && b !in removed ::
      KeepsBase(b, IndexOf(backups), removed)
    requires m in IndexOf(Remaining(backups, removed)) && IndexOf(Remaining(backups, removed))[m].base.Some?
    ensures IndexOf(Remaining(backups, removed))[m].base.value in IndexOf(Remaining(backups, removed))
  {
    IndexOfMembers(backups);
    RemainingIndex(backups, removed);
    var b := IndexOf(backups)[m];
    if b !in PrunedBackups(backups, policies).value {
      if !Restorable(b, IndexOf(backups)) {
        OrphansArePruned(backups, policies, b);
      }
      RetainedStayRestorable(backups, policies, removed, b);
      RestorableStep(b, IndexOf(Remaining(backups, removed)));
    }
  }

  lemma {:induction false} RemainingOlderBases(backups: seq<Backup>, removed: set<Backup>)
    requires DistinctNames(backups) && AllOlderBases(backups)
    ensures OlderBases(IndexOf(Remaining(backups, removed)))
  {
    IndexOfMembers(Remaining(backups, removed));
  }

  /**
   * A removal that fails is reported and the next ones go on, so an older base may go while what is
   * built on it stays. All that is left is whole exactly when no backup whose removal failed is
   * without its base. Orphans that were there before are pruned, so they count too.
   */
  lemma {:induction false} FailedRemovals(backups: seq<Backup>, policies: seq<RetentionPolicy>, removed: set<Backup>)
    requires DistinctNames(backups) && AllOlderBases(backups) && PrunedBackups(backups, policies).Ok?
    requires forall b | b in removed :: b in PrunedBackups(backups, policies).value
    requires policies != [] || AllWhole(backups)
    ensures AllWhole(Remaining(backups, removed)) <==>
      forall b | b in PrunedBackups(backups, policies).value && b !in removed ::
        KeepsBase(b, IndexOf(backups), removed)
  {
    var idx, left := IndexOf(backups), Remaining(backups, removed);
    var smaller, pruned := IndexOf(left), PrunedBackups(backups, policies).value;
    RemainingIndex(backups, removed);
    if AllWhole(left) {
      forall b | b in pruned && b !in removed ensures KeepsBase(b, idx, removed) {
        assert b in left;
        RestorableStep(b, smaller);
      }
    }
    if forall b | b in pruned && b !in removed :: KeepsBase(b, idx, removed) {
      RemainingOlderBases(backups, removed);
      forall m | m in smaller && smaller[m].base.Some? ensures smaller[m].base.value in smaller {
        RemainingIsClosed(backups, policies, removed, m);
      }
      FilteredIndex(backups, b => b !in removed);
      IndexOfMembers(left);
      forall b | b in left ensures Restorable(b, smaller) {
        ClosedIsWhole(smaller, b.snapshot);
      }
    }
  }

  /**
   * Told from the plan, before anything is removed: every pattern of failures leaves only whole
   * chains exactly when each pruned incremental has its base among the backups that stay.
   */
  lemma {:induction false} FailuresAreHarmless(backups: seq<Backup>, policies: seq<RetentionPolicy>)
    requires DistinctNames(backups) && AllOlderBases(backups) && PrunedBackups(backups, policies).Ok?
    requires policies != [] || AllWhole(backups)
    ensures var pruned := set b | b in PrunedBackups(backups, policies).value;
      (forall removed: set<Backup> :: removed <= pruned ==> AllWhole(Remaining(backups, removed))) <==>
      (forall b | b in pruned :: KeepsBase(b, IndexOf(backups), pruned))
  {
    var idx, pruned := IndexOf(backups), set b | b in PrunedBackups(backups, policies).value;
    hide AllWhole, PrunedBackups, IndexOf;
    if forall b | b in pruned :: KeepsBase(b, idx, pruned) {
      forall removed: set<Backup> | removed <= pruned ensures AllWhole(Remaining(backups, removed)) {
        assert forall b | b in pruned && b !in removed :: KeepsBase(b, idx, pruned) && KeepsBase(b, idx, removed);
        FailedRemovals(backups, policies, removed);
      }
    }
    if forall removed: set<Backup> :: removed <= pruned ==> AllWhole(Remaining(backups, removed)) {
      forall b | b in pruned ensures KeepsBase(b, idx, pruned) {
        assert AllWhole(Remaining(backups, pruned - {b}));
        FailedRemovals(backups, policies, pruned - {b});
        assert KeepsBase(b, idx, pruned - {b});
        if b.base.Some? {
          BaseIsAnother(backups, policies, b);
        }
      }
    }
  }

  lemma {:induction false} BaseIsAnother(backups: seq<Backup>, policies: seq<RetentionPolicy>, b: Backup)
    requires DistinctNames(backups) && AllOlderBases(backups) && PrunedBackups(backups, policies).Ok?
    requires b in PrunedBackups(backups, policies).value
    requires b.base.Some? && b.base.value in IndexOf(backups)
    ensures IndexOf(backups)[b.base.value] != b
  {
    IndexOfMembers(backups);
  }

  // A full backup, one built on it, and a newer full backup, of any three snapshots.
  function ThreeBackups(s: Snapshot, t: Snapshot, u: Snapshot): seq<Backup> {
    [Backup(u, None), Backup(t, Some(s)), Backup(s, None)]
  }

  lemma {:induction false} ThreeAreRestorable(s: Snapshot, t: Snapshot, u: Snapshot)
    requires s.rank < t.rank < u.rank
    ensures var backups := ThreeBackups(s, t, u);
      DistinctNames(backups) && AllOlderBases(backups) && forall b | b in backups :: Restorable(b, IndexOf(backups))
  {
    var backups := ThreeBackups(s, t, u);
    var idx := IndexOf(backups);
    IndexOfMembers(backups);
    assert backups[0] in backups && backups[1] in backups && backups[2] in backups;
    RestorableStep(backups[0], idx);
    RestorableStep(backups[2], idx);
    RestorableStep(backups[1], idx);
  }

  lemma {:induction false} OnePolicy(p: RetentionPolicy, subjects: seq<Subject>)
    requires Picks(p, subjects).Ok?
    ensures Retained([p], subjects) == Ok(NamesOf(Picks(p, subjects).value))
  {
    var policies := [p];
    assert policies[..|policies| - 1] == [] && policies[|policies| - 1] == p;
    assert {} + NamesOf(Picks(p, subjects).value) == NamesOf(Picks(p, subjects).value);
  }

  // With room for one, the first of the eligible is picked.
  lemma {:induction false} OnlyFirstIsPicked(p: RetentionPolicy, subjects: seq<Subject>)
    requires subjects != [] && p.count == 1 && !p.fullOnly && subjects[0].Time().Some?
    ensures Retained([p], subjects) == Ok({subjects[0].name})
  {
    var s, rest := subjects[0], subjects[1..];
    assert Greedy(p, rest, s.Time(), 0) == Ok([]);
    assert [s] + [] == [s];
    assert Picks(p, subjects) == Ok([s]);
    OnePolicy(p, subjects);
    assert NamesOf([s]) == {s.name};
  }

  lemma {:induction false} FullSurvivesAlone(idx: Index, u: Snapshot)
    requires BySnapshot(idx) && u in idx && idx[u].IsFull()
    ensures Survivors({u}, idx) == {u}
  {
    RestorableStep(idx[u], idx);
    assert BaseClosed({u}, idx) && Whole({u}, idx);
    hide Survivors, Restorable, BaseClosed, Whole, BySnapshot;
    SurvivorsAreLeastClosed({u}, idx);
  }

  lemma {:induction false} WithoutFirst(a: Backup, b: Backup, c: Backup)
    requires b.snapshot != a.snapshot && c.snapshot != a.snapshot
    ensures Without([a, b, c], {a.snapshot}) == [b, c]
  {
    var names := {a.snapshot};
    FilterAll([b, c], (x: Backup) => x.snapshot !in names);
    assert [a, b, c][1..] == [b, c];
  }

  // Keeping one backup prunes the older two.
  lemma {:induction false} OneOfThree(s: Snapshot, t: Snapshot, u: Snapshot, interval: int)
    requires s.rank < t.rank < u.rank && u.time.Some?
    ensures PrunedBackups(ThreeBackups(s, t, u), [RetentionPolicy(interval, 1, false)])
         == Ok([Backup(t, Some(s)), Backup(s, None)])
  {
    var backups, p := ThreeBackups(s, t, u), RetentionPolicy(interval, 1, false);
    var idx := IndexOf(backups);
    ThreeAreRestorable(s, t, u);
    FilterAll(backups, b => Restorable(b, idx));
    assert SubjectsOf(backups)[0] == SubjectOf(backups[0]);
    OnlyFirstIsPicked(p, SubjectsOf(backups));
    IndexOfMembers(backups);
    assert backups[0] in backups;
    FullSurvivesAlone(idx, u);
    WithoutFirst(backups[0], backups[1], backups[2]);
    hide IndexOf, Retained, Survivors, Restorable, SubjectsOf;
  }

  /** An orphan made: the removal of the incremental fails, that of its base succeeds. */
  lemma {:induction false} FailedRemovalOrphans(s: Snapshot, t: Snapshot, u: Snapshot, interval: int)
    requires s.rank < t.rank < u.rank && u.time.Some?
    ensures var (backups, removed) := (ThreeBackups(s, t, u), {Backup(s, None)});
      && PrunedBackups(backups, [RetentionPolicy(interval, 1, false)]) == Ok([Backup(t, Some(s)), Backup(s, None)])
      && (forall b | b in backups :: Restorable(b, IndexOf(backups)))
      && Backup(t, Some(s)) in Remaining(backups, removed)
      && !Restorable(Backup(t, Some(s)), IndexOf(Remaining(backups, removed)))
  {
    OneOfThree(s, t, u, interval);
    ThreeAreRestorable(s, t, u);
    BaseRemoved(s, t, u);
  }

  lemma {:induction false} BaseRemoved(s: Snapshot, t: Snapshot, u: Snapshot)
    requires s.rank < t.rank < u.rank
    ensures var left := Remaining(ThreeBackups(s, t, u), {Backup(s, None)});
      Backup(t, Some(s)) in left && !Restorable(Backup(t, Some(s)), IndexOf(left))
  {
    var backups, removed := ThreeBackups(s, t, u), {Backup(s, None)};
    RemainingIndex(backups, removed);
    IndexOfMembers(backups);
    assert backups[1] in backups && backups[2] in backups;
    RestorableStep(backups[1], IndexOf(Remaining(backups, removed)));
  }
}
