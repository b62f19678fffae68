/** What the policies keep of listings as the program sorts them. */
module SortedListings {
  import opened Wrappers
  import opened Backups
  import opened Sequences
  import opened Retention
  import opened Chains
  import opened Pruning
  import opened PruningFacts
  import opened SnapshotPruning

  // Most recent first, by name.
  ghost predicate SnapshotsDescend(snapshots: seq<Snapshot>) {
    forall i, j | 0 <= i < j < |snapshots| :: snapshots[i].rank > snapshots[j].rank
  }

  ghost predicate AllGenuine(snapshots: seq<Snapshot>) {
    forall s | s in snapshots :: s.Genuine()
  }

  // Sorting by name is sorting by time.
  lemma {:induction false} NamesDescendInTime(subjects: seq<Subject>)
    requires forall i, j | 0 <= i < j < |subjects| :: subjects[i].name.rank > subjects[j].name.rank
    requires forall s | s in subjects :: s.name.Genuine()
    ensures TimesDescend(subjects)
  {
    hide Snapshot.Genuine;
    forall i, j | 0 <= i < j < |subjects| && subjects[i].Time().Some? && subjects[j].Time().Some?
      ensures subjects[i].Time().value >= subjects[j].Time().value
    {
      assert subjects[i] in subjects && subjects[j] in subjects;
      SnapshotOrder(subjects[i].name, subjects[j].name);
    }
  }

  /** The candidates of a sorted listing are in the order the retention loop relies on. */
  lemma {:induction false} CandidatesDescend(listing: seq<Backup>)
    requires NewestFirst(listing) && forall b | b in listing :: b.snapshot.Genuine()
    ensures TimesDescend(Candidates(listing))
  {
    hide Snapshot.Genuine, Restorable, IndexOf;
    var idx := IndexOf(listing);
    var whole := Filter(listing, b => Restorable(b, idx));
    PairwiseFilter(listing, b => Restorable(b, idx), (a: Backup, b: Backup) => a.snapshot.rank > b.snapshot.rank);
    forall s | s in SubjectsOf(whole) ensures s.name.Genuine() {
      var i :| 0 <= i < |whole| && SubjectsOf(whole)[i] == s;
      assert whole[i] in whole;
    }
    NamesDescendInTime(SubjectsOf(whole));
  }

  /** So are the subjects of a sorted listing of archives. */
  lemma {:induction false} ArchivesDescend(archives: seq<Snapshot>)
    requires SnapshotsDescend(archives) && AllGenuine(archives)
    ensures TimesDescend(SnapshotSubjects(archives))
  {
    hide Snapshot.Genuine;
    forall s | s in SnapshotSubjects(archives) ensures s.name.Genuine() {
      var i :| 0 <= i < |archives| && SnapshotSubjects(archives)[i] == s;
      assert archives[i] in archives;
    }
    NamesDescendInTime(SnapshotSubjects(archives));
  }

  function Room(p: RetentionPolicy): nat {
    if p.count > 0 then p.count else 0
  }

  // picks is a selection p allows with as many members as any, each at least as recent as its counterpart.
  ghost predicate Best(p: RetentionPolicy, subjects: seq<Subject>, picks: seq<Subject>) {
    && Allowed(p, subjects, picks) && |picks| <= Room(p)
    && forall sel | Allowed(p, subjects, sel) && |sel| <= Room(p) :: Ahead(picks, sel)
  }

  ghost predicate Ahead(picks: seq<Subject>, sel: seq<Subject>) {
    && |sel| <= |picks|
    && forall i | 0 <= i < |sel| ::
      picks[i].Time().Some? && sel[i].Time().Some? && picks[i].Time().value >= sel[i].Time().value
  }

  /** What a policy picks is best. */
  lemma {:induction false} PicksAreBest(p: RetentionPolicy, subjects: seq<Subject>)
    requires Picks(p, subjects).Ok? && TimesDescend(subjects)
    ensures Best(p, subjects, Picks(p, subjects).value)
  {
    GreedyIsSelection(p, subjects, None, p.count);
    SelectionsAreAllowed(p, subjects, Picks(p, subjects).value);
    forall sel | Allowed(p, subjects, sel) && |sel| <= Room(p) ensures Ahead(Picks(p, subjects).value, sel) {
      SelectionsAreAllowed(p, subjects, sel);
      GreedyIsOptimal(p, subjects, sel);
      hide TimesDescend, Greedy;
      assert forall i | 0 <= i < |sel| :: sel[i] in sel;
    }
  }

  // A subject some policy does not pick: it may not, or it is older than a full set of picks, or too
  // close to a more recent pick.
  ghost predicate Passed(p: RetentionPolicy, picks: seq<Subject>, s: Subject) {
    || (p.fullOnly && !s.full)
    || s.Time().None?
    || (|picks| >= p.count && forall x | x in picks :: x.Time().Some? && x.Time().value >= s.Time().value)
    || exists x | x in picks :: x.Time().Some? && x.Time().value >= s.Time().value
         && !Far(p.interval, x.Time().value, s.Time().value)
  }

  /** And what it leaves out it has passed over. */
  lemma {:induction false} LeftOutIsPassed(p: RetentionPolicy, subjects: seq<Subject>, s: Subject)
    requires Picks(p, subjects).Ok? && TimesDescend(subjects)
    requires s in subjects && s !in Picks(p, subjects).value
    ensures Passed(p, Picks(p, subjects).value, s)
  {
    if Eligible(p, s) && s.Time().Some? {
      var k :| 0 <= k < |subjects| && subjects[k] == s;
      WhyLeftOut(p, subjects, None, p.count, k);
      forall x: Subject | x.Time().Some?
        ensures Elapsed(p.interval, x.Time().value, s.Time().value) <==> Far(p.interval, x.Time().value, s.Time().value)
      {
        ElapsedIsFar(p.interval, x.Time().value, s.Time().value);
      }
    }
  }

  /**
   * Of a sorted listing every policy gets the best selection it allows, and nothing of it is pruned;
   * a backup with a whole chain is only pruned when every policy has passed it over.
   */
  lemma {:induction false} PruningIsOptimal(listing: seq<Backup>, policies: seq<RetentionPolicy>, i: nat)
    requires NewestFirst(listing) && (forall b | b in listing :: b.snapshot.Genuine())
    requires PrunedBackups(listing, policies).Ok? && i < |policies|
    ensures Picks(policies[i], Candidates(listing)).Ok?
    ensures var picks := Picks(policies[i], Candidates(listing)).value;
      && Best(policies[i], Candidates(listing), picks)
      && (forall b | b in PrunedBackups(listing, policies).value :: SubjectOf(b) !in picks)
      && (forall b | b in PrunedBackups(listing, policies).value && Restorable(b, IndexOf(listing)) ::
            Passed(policies[i], picks, SubjectOf(b)))
  {
    var subjects, idx := Candidates(listing), IndexOf(listing);
    CandidatesDescend(listing);
    RetainedIsUnion(policies, subjects);
    PicksAreBest(policies[i], subjects);
    PickedIsKept(listing, policies, i);
    hide Best, TimesDescend, Passed, Snapshot.Genuine;
    forall b | b in PrunedBackups(listing, policies).value && Restorable(b, idx)
      ensures Passed(policies[i], Picks(policies[i], subjects).value, SubjectOf(b))
    {
      WholeIsCandidate(listing, b);
      LeftOutIsPassed(policies[i], subjects, SubjectOf(b));
    }
  }

  lemma {:induction false} WholeIsCandidate(listing: seq<Backup>, b: Backup)
    requires b in listing && Restorable(b, IndexOf(listing))
    ensures SubjectOf(b) in Candidates(listing)
  {
    hide Restorable, IndexOf;
    var idx := IndexOf(listing);
    var whole := Filter(listing, x => Restorable(x, idx));
    assert b in whole;
    var k :| 0 <= k < |whole| && whole[k] == b;
    assert SubjectsOf(whole)[k] == SubjectOf(b);
  }

  lemma {:induction false} PickIsNamed(picks: seq<Subject>, s: Subject)
    ensures s in picks ==> s.name in NamesOf(picks)
  {
  }

  lemma {:induction false} PickedIsKept(listing: seq<Backup>, policies: seq<RetentionPolicy>, i: nat)
    requires DistinctNames(listing) && PrunedBackups(listing, policies).Ok? && i < |policies|
    requires Picks(policies[i], Candidates(listing)).Ok?
    ensures forall b | b in PrunedBackups(listing, policies).value ::
      SubjectOf(b) !in Picks(policies[i], Candidates(listing)).value
  {
    var retained := Retained(policies, Candidates(listing)).value;
    var picks := Picks(policies[i], Candidates(listing)).value;
    RetainedIsUnion(policies, Candidates(listing));
    IndexOfMembers(listing);
    RetainedAreRestorable(listing, policies);
    DistinctPlan(listing, policies);
    SurvivorsAreLeastClosed(retained, IndexOf(listing));
    hide PrunedBackups, Retained, Survivors, Restorable, IndexOf, Greedy;
    forall b | b in PrunedBackups(listing, policies).value ensures SubjectOf(b) !in picks {
      PickIsNamed(picks, SubjectOf(b));
    }
  }

  /** The same for archives: one that no destination uses is only pruned when every policy has passed it over. */
  lemma {:induction false} ArchivePruningIsOptimal(archives: seq<Snapshot>, bookmarks: seq<Snapshot>,
                                                   policies: seq<RetentionPolicy>, state: State, i: nat)
    requires SnapshotsDescend(archives) && AllGenuine(archives)
    requires PrunedSnapshots(archives, bookmarks, policies, state).Ok? && i < |policies|
    ensures Picks(policies[i], SnapshotSubjects(archives)).Ok?
    ensures var picks := Picks(policies[i], SnapshotSubjects(archives)).value;
      && Best(policies[i], SnapshotSubjects(archives), picks)
      && forall s | s in PrunedSnapshots(archives, bookmarks, policies, state).value.archives ::
           Subject(s, true) !in picks && Passed(policies[i], picks, Subject(s, true))
  {
    var subjects := SnapshotSubjects(archives);
    var picks := Picks(policies[i], subjects);
    ArchivesDescend(archives);
    RetainedIsUnion(policies, subjects);
    PicksAreBest(policies[i], subjects);
    hide Best, TimesDescend, Passed, Snapshot.Genuine, Greedy;
    forall s | s in PrunedSnapshots(archives, bookmarks, policies, state).value.archives
      ensures Subject(s, true) !in picks.value && Passed(policies[i], picks.value, Subject(s, true))
    {
      PickIsNamed(picks.value, Subject(s, true));
      var k :| 0 <= k < |archives| && archives[k] == s;
      assert subjects[k] == Subject(s, true);
      LeftOutIsPassed(policies[i], subjects, Subject(s, true));
    }
  }
}
