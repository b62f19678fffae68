/** Which archives and bookmarks of a source are pruned, and why no destination loses its base. */
module SnapshotPruning {
  import opened Wrappers
  import opened Backups
  import opened Sequences
  import opened Retention

  // The state file: for each destination, the snapshot last sent to it.
  type State = map<string, Snapshot>

  datatype Pruned = Pruned(archives: seq<Snapshot>, bookmarks: seq<Snapshot>)

  // A snapshot is a full subject.
  function SnapshotSubjects(archives: seq<Snapshot>): seq<Subject> {
    seq(|archives|, i requires 0 <= i < |archives| => Subject(archives[i], true))
  }

  function PolicyRetained(archives: seq<Snapshot>, policies: seq<RetentionPolicy>): Result<set<Snapshot>> {
    if policies == [] then Ok({}) else Retained(policies, SnapshotSubjects(archives))
  }

  function InUse(state: State): set<Snapshot> {
    state.Values
  }

  function Drop(snapshots: seq<Snapshot>, kept: set<Snapshot>): seq<Snapshot> {
    Filter(snapshots, s => s !in kept)
  }

  // A bookmark is kept while a destination uses it; an archive also while no bookmark covers that use.
  function PrunedSnapshots(archives: seq<Snapshot>, bookmarks: seq<Snapshot>, policies: seq<RetentionPolicy>,
                           state: State): Result<Pruned> {
    var retained := PolicyRetained(archives, policies);
    if retained.Failed? then Failed
    else
      var uncovered := set s | s in InUse(state) && s !in bookmarks;
      Ok(Pruned(Drop(archives, retained.value + uncovered), Drop(bookmarks, InUse(state))))
  }

  method DropLoop(snapshots: seq<Snapshot>, kept: set<Snapshot>) returns (pruned: seq<Snapshot>)
    ensures pruned == Drop(snapshots, kept)
  {
    pruned := [];
    for i := 0 to |snapshots|
      invariant pruned == Drop(snapshots[..i], kept)
    {
      TakeStep(snapshots, i);
      FilterAppend(snapshots[..i], snapshots[i], s => s !in kept);
      if snapshots[i] !in kept {
        pruned := pruned + [snapshots[i]];
      }
    }
    TakeAll(snapshots);
  }

  method GetPrunedSnapshots(archives: seq<Snapshot>, bookmarks: seq<Snapshot>, policies: seq<RetentionPolicy>,
                            state: State)
    returns (r: Result<Pruned>)
    ensures r == PrunedSnapshots(archives, bookmarks, policies, state)
  {
    var subjects: seq<Subject> := [];
    for i := 0 to |archives|
      invariant subjects == SnapshotSubjects(archives[..i])
    {
      TakeStep(archives, i);
      subjects := subjects + [Subject(archives[i], true)];
    }
    TakeAll(archives);

    var retainedArchives: set<Snapshot> := {};
    if policies != [] {
      var retention := ApplyRetentionPolicies(policies, subjects);
      if retention.Failed? {
        return Failed;
      }
      retainedArchives := retention.value;
    }

    var bookmarksSet: set<Snapshot> := {};
    for i := 0 to |bookmarks|
      invariant forall s :: s in bookmarksSet <==> s in bookmarks[..i]
    {
      TakeStep(bookmarks, i);
      bookmarksSet := bookmarksSet + {bookmarks[i]};
    }
    TakeAll(bookmarks);

    // Go walks the state in any order.
    ghost var policySet := retainedArchives;
    var retainedBookmarks: set<Snapshot> := {};
    var todo := state.Keys;
    while todo != {}
      invariant todo <= state.Keys
      invariant retainedBookmarks == set d | d in state && d !in todo :: state[d]
      invariant retainedArchives == policySet + set s | s in retainedBookmarks && s !in bookmarks
      decreases todo
    {
      var d :| d in todo;
      todo := todo - {d};
      retainedBookmarks := retainedBookmarks + {state[d]};
      if state[d] !in bookmarksSet {
        retainedArchives := retainedArchives + {state[d]};
      }
    }
    assert retainedBookmarks == InUse(state);
    var prunedArchives := DropLoop(archives, retainedArchives);
    var prunedBookmarks := DropLoop(bookmarks, retainedBookmarks);
    return Ok(Pruned(prunedArchives, prunedBookmarks));
  }

  // Some policy picks an archive.
  ghost predicate PickedBy(policies: seq<RetentionPolicy>, archives: seq<Snapshot>, s: Snapshot) {
    exists i :: 0 <= i < |policies| && Picks(policies[i], SnapshotSubjects(archives)).Ok?
      && Subject(s, true) in Picks(policies[i], SnapshotSubjects(archives)).value
  }

  lemma {:induction false} PolicyRetainedIsPicked(policies: seq<RetentionPolicy>, archives: seq<Snapshot>, s: Snapshot)
    requires PolicyRetained(archives, policies).Ok?
    ensures s in PolicyRetained(archives, policies).value <==> PickedBy(policies, archives, s)
  {
    var subjects := SnapshotSubjects(archives);
    if policies != [] {
      RetainedIsUnion(policies, subjects);
      forall i | 0 <= i < |policies|
        ensures s in NamesOf(Picks(policies[i], subjects).value) <==>
          Subject(s, true) in Picks(policies[i], subjects).value
      {
        FullPicks(policies[i], archives, s);
      }
      hide NamesOf, Picks, Retained;
    }
  }

  lemma {:induction false} FullPicks(p: RetentionPolicy, archives: seq<Snapshot>, s: Snapshot)
    requires Picks(p, SnapshotSubjects(archives)).Ok?
    ensures s in NamesOf(Picks(p, SnapshotSubjects(archives)).value) <==>
      Subject(s, true) in Picks(p, SnapshotSubjects(archives)).value
  {
    PicksAreSubjects(p, SnapshotSubjects(archives));
  }

  /** A plan fails exactly when some policy does. */
  lemma {:induction false} PlanFailsIff(archives: seq<Snapshot>, bookmarks: seq<Snapshot>,
                                        policies: seq<RetentionPolicy>, state: State)
    ensures PrunedSnapshots(archives, bookmarks, policies, state).Failed? <==>
      exists i :: 0 <= i < |policies| && Picks(policies[i], SnapshotSubjects(archives)).Failed?
  {
    RetainedFailsIff(policies, SnapshotSubjects(archives));
  }

  /**
   * An archive is pruned exactly when no policy picks it and no destination uses it without a bookmark
   * of it; what is pruned keeps the order of the listing.
   */
  lemma {:induction false} ArchiveIsPrunedIff(archives: seq<Snapshot>, bookmarks: seq<Snapshot>,
                                              policies: seq<RetentionPolicy>, state: State, s: Snapshot)
    requires PrunedSnapshots(archives, bookmarks, policies, state).Ok?
    ensures var pruned := PrunedSnapshots(archives, bookmarks, policies, state).value.archives;
      && Subsequence(pruned, archives)
      && (s in pruned <==>
            && s in archives && !PickedBy(policies, archives, s)
            && !((exists d :: d in state && state[d] == s) && s !in bookmarks))
  {
    var kept := PolicyRetained(archives, policies).value + set u | u in InUse(state) && u !in bookmarks;
    FilterIsSubsequence(archives, x => x !in kept);
    PolicyRetainedIsPicked(policies, archives, s);
    hide PickedBy, PolicyRetained, Filter;
    InUseMeans(state, s);
  }

  lemma {:induction false} InUseMeans(state: State, s: Snapshot)
    ensures s in InUse(state) <==> exists d :: d in state && state[d] == s
  {
  }

  /** A bookmark is pruned exactly when no destination uses it; what is pruned keeps its order. */
  lemma {:induction false} BookmarkIsPrunedIff(archives: seq<Snapshot>, bookmarks: seq<Snapshot>,
                                               policies: seq<RetentionPolicy>, state: State, s: Snapshot)
    requires PrunedSnapshots(archives, bookmarks, policies, state).Ok?
    ensures var pruned := PrunedSnapshots(archives, bookmarks, policies, state).value.bookmarks;
      && Subsequence(pruned, bookmarks)
      && (s in pruned <==> s in bookmarks && forall d | d in state :: state[d] != s)
  {
    FilterIsSubsequence(bookmarks, x => x !in InUse(state));
    InUseMeans(state, s);
  }

  /**
   * Whichever of the removals are done, a snapshot some destination uses stays in the archives or
   * in the bookmarks if it was in either.
   */
  lemma {:induction false} UsedSnapshotsStay(archives: seq<Snapshot>, bookmarks: seq<Snapshot>,
                                             policies: seq<RetentionPolicy>, state: State,
                          goneArchives: set<Snapshot>, goneBookmarks: set<Snapshot>, s: Snapshot)
    requires PrunedSnapshots(archives, bookmarks, policies, state).Ok?
    requires forall g | g in goneArchives :: g in PrunedSnapshots(archives, bookmarks, policies, state).value.archives
    requires forall g | g in goneBookmarks :: g in PrunedSnapshots(archives, bookmarks, policies, state).value.bookmarks
    requires s in InUse(state) && (s in archives || s in bookmarks)
    ensures (s in archives && s !in goneArchives) || (s in bookmarks && s !in goneBookmarks)
  {
  }

  /** Retrying after any part of the removals prunes exactly the rest, in the same order. */
  lemma {:induction false} SnapshotRetryConverges(archives: seq<Snapshot>, bookmarks: seq<Snapshot>,
                                                  policies: seq<RetentionPolicy>, state: State,
                               goneArchives: set<Snapshot>, goneBookmarks: set<Snapshot>)
    requires PrunedSnapshots(archives, bookmarks, policies, state).Ok?
    requires forall g | g in goneArchives :: g in PrunedSnapshots(archives, bookmarks, policies, state).value.archives
    requires forall g | g in goneBookmarks :: g in PrunedSnapshots(archives, bookmarks, policies, state).value.bookmarks
    ensures var pruned := PrunedSnapshots(archives, bookmarks, policies, state).value;
      PrunedSnapshots(Drop(archives, goneArchives), Drop(bookmarks, goneBookmarks), policies, state)
        == Ok(Pruned(Drop(pruned.archives, goneArchives), Drop(pruned.bookmarks, goneBookmarks)))
  {
    var retained := PolicyRetained(archives, policies).value;
    if policies != [] {
      DropSubjects(archives, goneArchives);
      RetainedIsStable(policies, SnapshotSubjects(archives), (s: Subject) => s.name !in goneArchives);
    }
    var used := InUse(state);
    var uncovered := set s | s in used && s !in bookmarks;
    assert uncovered == set s | s in used && s !in Drop(bookmarks, goneBookmarks);
    var kept := retained + uncovered;
    FilterExchange(archives, s => s !in goneArchives, s => s !in kept, s => s !in kept, s => s !in goneArchives);
    FilterExchange(bookmarks, s => s !in goneBookmarks, s => s !in used, s => s !in used, s => s !in goneBookmarks);
  }

  lemma {:induction false} DropSubjects(archives: seq<Snapshot>, gone: set<Snapshot>)
    ensures SnapshotSubjects(Drop(archives, gone)) ==
      Filter(SnapshotSubjects(archives), (s: Subject) => s.name !in gone)
  {
    if archives != [] {
      DropSubjects(archives[1..], gone);
      assert SnapshotSubjects(archives)[1..] == SnapshotSubjects(archives[1..]);
      if archives[0] !in gone {
        var rest := Drop(archives[1..], gone);
        assert SnapshotSubjects([archives[0]] + rest) == [Subject(archives[0], true)] + SnapshotSubjects(rest);
      }
    }
  }
}
