/** Over completed runs, the next backup of a destination is incremental on the last one sent to it. */
module Incrementality {
  import opened Wrappers
  import opened Backups
  import opened Retention
  import opened Chains
  import opened Pruning
  import opened PruningFacts
  import opened BaseSelection
  import opened Protocol
  import opened SourceSafety

  // Policies that keep the most recent backup: none at all, or one that takes incrementals.
  ghost predicate KeepsNewest(policies: seq<RetentionPolicy>) {
    policies == [] || exists i :: 0 <= i < |policies| && policies[i].count >= 1 && !policies[i].fullOnly
  }

  // Completed runs with a state file, of which those for d have policies that keep its most recent
  // backup. Runs for other destinations may have any policies, and removals may fail.
  ghost predicate Completed<C>(e: Event<C>, d: string) {
    && Recording(e) && !e.Stop?
    && (e.BeginBackup? && e.d == d ==> KeepsNewest(e.opts.destPolicies))
    && (e.BeginPruneBackups? && e.d == d ==> KeepsNewest(e.policies))
  }

  // Backups that are there, each built on the next, down to a full one.
  ghost predicate ChainIn(there: set<Backup>, chain: seq<Backup>) {
    && chain != [] && chain[|chain| - 1].IsFull()
    && (forall b | b in chain :: b in there)
    && (forall i | 0 <= i < |chain| - 1 :: chain[i].base == Some(chain[i + 1].snapshot))
  }

  // A chain from the most recent backup, whose root no full backup is newer than.
  ghost predicate Spine(there: set<Backup>, newest: Snapshot, chain: seq<Backup>) {
    && ChainIn(there, chain) && chain[0].snapshot == newest
    && (forall b | b in there :: b.snapshot.rank <= newest.rank)
    && (forall b | b in there && b.IsFull() :: b.snapshot.rank <= chain[|chain| - 1].snapshot.rank)
  }

  ghost predicate HasSpine(there: set<Backup>, newest: Snapshot, todo: seq<Backup>) {
    exists chain :: Spine(there, newest, chain) && forall b | b in chain :: b !in todo
  }

  // The snapshot of the last backup sent to d; it is recorded right after.
  function Latest<C, P>(w: World<C, P>, d: string): Option<Snapshot> {
    if (w.run.Sent? || w.run.Writing?) && w.run.job.dest == d then Some(w.run.backup.snapshot)
    else if d in w.recorded then Some(w.recorded[d])
    else None
  }

  function Files<C, P>(w: World<C, P>, d: string): set<Backup> {
    StoreOf(w.dests, d).files.Keys
  }

  function Todo<C, P>(w: World<C, P>, d: string): seq<Backup> {
    if w.run.PruningDest? && w.run.dest == d then w.run.todo else []
  }

  // Built on nothing or on the snapshot recorded for d.
  predicate OnRecorded<C, P>(w: World<C, P>, d: string, base: Option<Snapshot>) {
    base.Some? ==> d in w.recorded && base.value == w.recorded[d]
  }

  ghost predicate RunIncremental<C, P>(w: World<C, P>, d: string) {
    match w.run
    case Chosen(job, base) => job.dest == d ==> KeepsNewest(job.opts.destPolicies) && OnRecorded(w, d, base)
    case Streaming(job, b, _, _) => job.dest == d ==> KeepsNewest(job.opts.destPolicies) && OnRecorded(w, d, b.base)
    case Sent(job, _) => job.dest == d ==> KeepsNewest(job.opts.destPolicies)
    case Writing(job, _, _) => job.dest == d ==> KeepsNewest(job.opts.destPolicies)
    case Noted(job, _, _) => job.dest == d ==> KeepsNewest(job.opts.destPolicies)
    case PruningSource(_, _, after) => after.Some? && after.value.0.dest == d ==>
      KeepsNewest(after.value.0.opts.destPolicies)
    case _ => true
  }

  ghost predicate KeepsSpine<C, P>(w: World<C, P>, d: string) {
    && (w.file.Broken? ==> w.run.Writing?)
    && (if Latest(w, d).Some? then HasSpine(Files(w, d), Latest(w, d).value, Todo(w, d)) else Files(w, d) == {})
    && RunIncremental(w, d)
  }

  /* ---- The spine and the listing ---- */

  lemma {:induction false} NewestIsFirst(listing: seq<Backup>, there: set<Backup>, newest: Snapshot, chain: seq<Backup>)
    requires IsListing(listing, there) && Spine(there, newest, chain)
    ensures listing != [] && listing[0] == chain[0]
  {
    assert chain[0] in listing;
    var i :| 0 <= i < |listing| && listing[i] == chain[0];
    assert listing[0] in listing;
  }

  lemma {:induction false} ListedIsChain(listing: seq<Backup>, there: set<Backup>, chain: seq<Backup>)
    requires IsListing(listing, there) && ChainIn(there, chain)
    ensures IsFullChain(chain[0], IndexOf(listing), chain, true)
  {
    var idx := IndexOf(listing);
    IndexOfMembers(listing);
    forall i | 0 <= i < |chain| - 1
      ensures chain[i].base.Some? && chain[i].base.value in idx && chain[i + 1] == idx[chain[i].base.value]
    {
      assert chain[i].base == Some(chain[i + 1].snapshot);
      assert chain[i + 1] in chain;
      assert chain[i + 1] in listing;
    }
    assert Linked(idx, chain);
  }

  // What Decide does when the most recent backup's snapshot is held and has a spine.
  lemma {:induction false} DecideOnSpine(listing: seq<Backup>, there: set<Backup>, newest: Snapshot,
                                         chain: seq<Backup>, snapshots: set<Snapshot>, opts: RunOptions, now: int)
    requires IsListing(listing, there) && Spine(there, newest, chain) && newest in snapshots
    ensures FirstCommon(listing, snapshots) == Some(newest)
    ensures FirstFull(listing) == Some(chain[|chain| - 1])
  {
    NewestIsFirst(listing, there, newest, chain);
    FirstCommonAt(listing, snapshots, 0);
    var root := chain[|chain| - 1];
    assert root in listing;
    var r :| 0 <= r < |listing| && listing[r] == root;
    forall j | 0 <= j < r ensures !listing[j].IsFull() {
      assert listing[j] in listing && listing[j].snapshot.rank > root.snapshot.rank;
    }
    FirstFullAt(listing, r);
  }

  lemma {:induction false} SpineIsNotPruned(listing: seq<Backup>, policies: seq<RetentionPolicy>, there: set<Backup>,
                                            newest: Snapshot, chain: seq<Backup>)
    requires IsListing(listing, there) && Spine(there, newest, chain) && KeepsNewest(policies)
    requires PrunedBackups(listing, policies).Ok?
    ensures forall b | b in chain :: b !in PrunedBackups(listing, policies).value
  {
    if policies != [] {
      var idx := IndexOf(listing);
      var retained := Retained(policies, Candidates(listing)).value;
      NewestIsFirst(listing, there, newest, chain);
      ListedIsChain(listing, there, chain);
      assert Restorable(listing[0], idx);
      var i :| 0 <= i < |policies| && policies[i].count >= 1 && !policies[i].fullOnly;
      assert Candidates(listing)[0].name == newest;
      NewestIsPicked(policies, Candidates(listing), i);
      IndexOfMembers(listing);
      RetainedAreRestorable(listing, policies);
      DistinctPlan(listing, policies);
      assert BaseClosed(Survivors(retained, idx), idx) && newest in Survivors(retained, idx) by {
        SurvivorsAreLeastClosed(retained, idx);
      }
      forall b | b in chain ensures b.snapshot in Survivors(retained, idx) {
        var j :| 0 <= j < |chain| && chain[j] == b;
        WalkStaysInClosed(chain[0], idx, chain, j, Survivors(retained, idx));
      }
    }
  }

  lemma {:induction false} PlanAvoidsSpine(listing: seq<Backup>, policies: seq<RetentionPolicy>, there: set<Backup>,
                                           newest: Snapshot)
    requires IsListing(listing, there) && HasSpine(there, newest, []) && KeepsNewest(policies)
    requires PrunedBackups(listing, policies).Ok?
    ensures HasSpine(there, newest, PrunedBackups(listing, policies).value)
  {
    var chain :| Spine(there, newest, chain);
    SpineIsNotPruned(listing, policies, there, newest, chain);
  }

  /* ---- Steps ---- */

  lemma {:induction false} RemovalKeepsSpine(there: set<Backup>, newest: Snapshot, todo: seq<Backup>)
    requires todo != [] && HasSpine(there, newest, todo)
    ensures HasSpine(there - {todo[0]}, newest, todo[1..]) && HasSpine(there, newest, todo[1..])
  {
    var chain: seq<Backup> :| Spine(there, newest, chain) && forall b | b in chain :: b !in todo;
    forall b | b in chain ensures b != todo[0] && b !in todo[1..] {
    }
    assert Spine(there - {todo[0]}, newest, chain);
  }

  lemma {:induction false} SendExtendsSpine(there: set<Backup>, before: Option<Snapshot>, b: Backup)
    requires if before.Some? then HasSpine(there, before.value, []) else there == {}
    requires b.base.Some? ==> b.base == before
    requires forall x | x in there :: x.snapshot.rank < b.snapshot.rank
    ensures HasSpine(there + {b}, b.snapshot, [])
  {
    if b.IsFull() {
      assert Spine(there + {b}, b.snapshot, [b]);
    } else {
      var chain :| Spine(there, before.value, chain);
      LongerSpine(there, before.value, chain, b);
    }
  }

  lemma {:induction false} LongerSpine(there: set<Backup>, newest: Snapshot, chain: seq<Backup>, b: Backup)
    requires Spine(there, newest, chain) && b.base == Some(newest)
    requires forall x | x in there :: x.snapshot.rank < b.snapshot.rank
    ensures Spine(there + {b}, b.snapshot, [b] + chain)
  {
  }

  // A step that does not touch what is said of d.
  lemma {:induction false} Untouched<C, P>(w: World<C, P>, w': World<C, P>, d: string)
    requires KeepsSpine(w, d) && Files(w', d) == Files(w, d) && Latest(w', d) == Latest(w, d)
    requires Todo(w', d) == Todo(w, d)
    requires RunIncremental(w', d) && (w'.file.Broken? ==> w'.run.Writing?)
    ensures KeepsSpine(w', d)
  {
  }

  lemma {:induction false} ChosenBaseIsLatest<C, P>(w: World<C, P>, e: Event<C>, d: string)
    requires SourceSafe(w) && KeepsSpine(w, d) && e.BeginBackup? && e.d == d && BackupStarts(w, e).Some?
    ensures BackupStarts(w, e).value.run.base.Some? ==>
      d in w.recorded && BackupStarts(w, e).value.run.base.value == w.recorded[d]
  {
    var snapshots := (set s | s in e.bookmarks) + (set s | s in e.archives);
    if d in w.recorded {
      assert HasSpine(Files(w, d), w.recorded[d], []);
      var chain :| Spine(Files(w, d), w.recorded[d], chain);
      assert Held(w, w.recorded[d]);
      assert w.recorded[d] in snapshots;
      DecideOnSpine(e.listing, Files(w, d), w.recorded[d], chain, snapshots, e.opts, e.now);
    } else {
      BaseIsKept(e.listing, snapshots, e.opts, e.now);
    }
  }

  lemma {:induction false} StartKeepsIncremental<C, P>(w: World<C, P>, e: Event<C>, d: string)
    requires SourceSafe(w) && KeepsSpine(w, d) && e.BeginBackup? && BackupStarts(w, e).Some? && Completed(e, d)
    ensures KeepsSpine(BackupStarts(w, e).value, d)
  {
    hide HasSpine, SourceSafe, IsListing, IsSnapshotListing, Decide;
    if e.d == d {
      ChosenBaseIsLatest(w, e, d);
    }
    Untouched(w, BackupStarts(w, e).value, d);
  }

  lemma {:induction false} RenameKeepsIncremental<C, P>(w: World<C, P>, d: string)
    requires KeepsSpine(w, d) && Sends<C, P>(w, RenameTemp).Some? && w.run.job.dest == d
    requires forall x | x in Files(w, d) :: x.snapshot.rank < w.run.backup.snapshot.rank
    ensures KeepsSpine(Sends<C, P>(w, RenameTemp).value, d)
  {
    var w', b := Sends<C, P>(w, RenameTemp).value, w.run.backup;
    SendExtendsSpine(Files(w, d), Latest(w, d), b);
    assert Files(w', d) == Files(w, d) + {b};
    assert Latest(w', d) == Some(b.snapshot) && Todo(w', d) == [];
  }

  lemma {:induction false} SendFrame<C, P>(w: World<C, P>, e: Event<C>, d: string)
    requires Sends(w, e).Some? && (w.run.job.dest != d || !e.RenameTemp?)
    ensures var w' := Sends(w, e).value;
      && Files(w', d) == Files(w, d) && Todo(w', d) == Todo(w, d) && Latest(w', d) == Latest(w, d)
      && w'.file == w.file && w'.recorded == w.recorded
      && (w'.run == w.run || w'.run.Idle? || (w'.run == Sent(w.run.job, w.run.backup) && w.run.job.dest != d))
  {
  }

  lemma {:induction false} SendKeepsIncremental<C, P>(k: Codec<C, P>, w: World<C, P>, e: Event<C>, d: string)
    requires Consistent(k, w) && KeepsSpine(w, d) && Sends(w, e).Some?
    ensures KeepsSpine(Sends(w, e).value, d)
  {
    if w.run.job.dest == d && e.RenameTemp? {
      RenameKeepsIncremental(w, d);
    } else {
      SendFrame(w, e, d);
      Untouched(w, Sends(w, e).value, d);
    }
  }

  lemma {:induction false} StateKeepsIncremental<C, P>(w: World<C, P>, e: Event<C>, d: string)
    requires SourceSafe(w) && KeepsSpine(w, d) && NotesState(w, e).Some?
    ensures KeepsSpine(NotesState(w, e).value, d)
  {
  }

  lemma {:induction false} PruneSourceKeepsIncremental<C, P>(w: World<C, P>, e: Event<C>, d: string)
    requires KeepsSpine(w, d) && PrunesSource(w, e).Some?
    ensures KeepsSpine(PrunesSource(w, e).value, d)
  {
  }

  lemma {:induction false} PlanKeepsIncremental<C, P>(w: World<C, P>, w': World<C, P>, d: string,
                                                      listing: seq<Backup>, policies: seq<RetentionPolicy>)
    requires KeepsSpine(w, d) && Todo(w, d) == [] && Latest(w', d) == Latest(w, d)
    requires IsListing(listing, Files(w, d)) && KeepsNewest(policies)
    requires w' == w.(run := DestPlan(d, listing, policies)) && !w.file.Broken?
    ensures KeepsSpine(w', d)
  {
    if Latest(w, d).Some? {
      if PrunedBackups(listing, policies).Ok? {
        PlanAvoidsSpine(listing, policies, Files(w, d), Latest(w, d).value);
      }
    }
  }

  lemma {:induction false} RemoveKeepsIncremental<C, P>(w: World<C, P>, ok: bool, d: string)
    requires KeepsSpine(w, d) && PrunesDest<C, P>(w, RemoveBackup(ok)).Some? && w.run.dest == d
    requires w.run.todo[0] in Files(w, d)
    ensures KeepsSpine(PrunesDest<C, P>(w, RemoveBackup(ok)).value, d)
  {
    var w' := PrunesDest<C, P>(w, RemoveBackup(ok)).value;
    assert Latest(w', d) == Latest(w, d) && Latest(w, d).Some?;
    RemovalKeepsSpine(Files(w, d), Latest(w, d).value, w.run.todo);
    assert Files(w', d) == if ok then Files(w, d) - {w.run.todo[0]} else Files(w, d);
  }

  lemma {:induction false} PruneElsewhere<C, P>(w: World<C, P>, e: Event<C>, d: string)
    requires PrunesDest(w, e).Some? && PrunesDest(w, e).value.run.dest != d
    ensures var w' := PrunesDest(w, e).value;
      && Files(w', d) == Files(w, d) && Todo(w', d) == Todo(w, d) && Latest(w', d) == Latest(w, d)
      && w'.file == w.file && w'.recorded == w.recorded && w'.run.PruningDest? && !w.run.Writing?
  {
  }

  lemma {:induction false} PruneDestKeepsIncremental<C, P>(k: Codec<C, P>, w: World<C, P>, e: Event<C>, d: string)
    requires Consistent(k, w) && KeepsSpine(w, d) && PrunesDest(w, e).Some? && Completed(e, d)
    ensures KeepsSpine(PrunesDest(w, e).value, d)
  {
    hide PrunedBackups, IsListing, KeepsNewest, HasSpine, NewestFirst, StoreOk;
    var w' := PrunesDest(w, e).value;
    if w'.run.dest != d {
      PruneElsewhere(w, e, d);
      Untouched(w, w', d);
    } else {
      match e
      case PlanBackups =>
        var (job, b) := w.run.after.value;
        PlanKeepsIncremental(w, w', d, [b] + job.listing, job.opts.destPolicies);
      case RemoveBackup(ok) =>
        assert w.run.todo[0] in w.run.todo;
        RemoveKeepsIncremental(w, ok, d);
      case BeginPruneBackups(_, policies, listing) => PlanKeepsIncremental(w, w', d, listing, policies);
    }
  }

  lemma {:induction false} StepKeepsIncremental<C, P>(k: Codec<C, P>, w: World<C, P>, e: Event<C>, d: string)
    requires Consistent(k, w) && SourceSafe(w) && KeepsSpine(w, d) && Step(k, w, e).Some? && Completed(e, d)
    ensures KeepsSpine(Step(k, w, e).value, d)
  {
    hide Consistent, SourceSafe, KeepsSpine, Completed, BackupStarts, Sends, NotesState, PrunesSource, PrunesDest;
    match e
    case BeginBackup(_, _, _, _, _, _) => StartKeepsIncremental(w, e, d);
    case OpenTemp => SendKeepsIncremental(k, w, e, d);
    case FillTemp => SendKeepsIncremental(k, w, e, d);
    case AbortSend => SendKeepsIncremental(k, w, e, d);
    case RenameTemp => SendKeepsIncremental(k, w, e, d);
    case SkipState => StateKeepsIncremental(w, e, d);
    case TruncateState => StateKeepsIncremental(w, e, d);
    case WriteState => StateKeepsIncremental(w, e, d);
    case PlanSnapshots(_, _) => PruneSourceKeepsIncremental(w, e, d);
    case RemoveArchive(_) => PruneSourceKeepsIncremental(w, e, d);
    case RemoveBookmark(_) => PruneSourceKeepsIncremental(w, e, d);
    case BeginPruneSnapshots(_, _, _, _) => PruneSourceKeepsIncremental(w, e, d);
    case PlanBackups => PruneDestKeepsIncremental(k, w, e, d);
    case RemoveBackup(_) => PruneDestKeepsIncremental(k, w, e, d);
    case BeginPruneBackups(_, _, _) => PruneDestKeepsIncremental(k, w, e, d);
    case CreateBackup(_, _) => QuietStepKeepsIncremental(k, w, e, d);
    case KeepSnapshot(_, _) => QuietStepKeepsIncremental(k, w, e, d);
    case Finish => QuietStepKeepsIncremental(k, w, e, d);
    case Stop => NotStopped(e, d);
  }

  lemma {:induction false} NotStopped<C>(e: Event<C>, d: string)
    requires Completed(e, d)
    ensures !e.Stop?
  {
  }

  lemma {:induction false} QuietStepKeepsIncremental<C, P>(k: Codec<C, P>, w: World<C, P>, e: Event<C>, d: string)
    requires KeepsSpine(w, d) && Step(k, w, e).Some? && (e.CreateBackup? || e.KeepSnapshot? || e.Finish?)
    ensures KeepsSpine(Step(k, w, e).value, d)
  {
    Untouched(w, Step(k, w, e).value, d);
  }

  lemma {:induction false} CompletedAreRecording<C>(events: seq<Event<C>>, d: string)
    requires forall e | e in events :: Completed(e, d)
    ensures forall e | e in events :: Recording(e)
  {
  }

  lemma {:induction false} AlwaysIncremental<C, P>(k: Codec<C, P>, events: seq<Event<C>>, d: string)
    requires Execute(k, Initial(), events).Some? && forall e | e in events :: Completed(e, d)
    ensures KeepsSpine(Execute(k, Initial(), events).value, d)
  {
    if events != [] {
      var before := events[..|events| - 1];
      AlwaysConsistent(k, before);
      CompletedAreRecording(before, d);
      RecordedSnapshotsStay(k, before);
      AlwaysIncremental(k, before, d);
      StepKeepsIncremental(k, Execute(k, Initial(), before).value, events[|events| - 1], d);
    }
  }

  /* ---- After runs that stopped ---- */

  // The n-th event makes a full backup for d visible, in a run that keeps the most recent backup, with
  // a state file that can be read.
  ghost predicate FullSentAt<C, P>(k: Codec<C, P>, events: seq<Event<C>>, n: int, d: string) {
    && 0 <= n < |events| && events[n] == RenameTemp && Execute(k, Initial(), events[..n]).Some?
    && var w := Execute(k, Initial(), events[..n]).value;
    && w.run.Streaming? && w.run.job.dest == d && w.run.backup.IsFull()
    && KeepsNewest(w.run.job.opts.destPolicies) && !w.file.Broken?
  }

  // Runs for d have been completed since the start, or since a full backup was sent.
  ghost predicate Steady<C, P>(k: Codec<C, P>, events: seq<Event<C>>, d: string) {
    || (forall e | e in events :: Completed(e, d))
    || ((forall e | e in events :: Recording(e))
        && exists n :: FullSentAt(k, events, n, d) && forall i | n < i < |events| :: Completed(events[i], d))
  }

  lemma {:induction false} SteadyIsRecording<C, P>(k: Codec<C, P>, events: seq<Event<C>>, d: string)
    requires Steady(k, events, d)
    ensures forall e | e in events :: Recording(e)
  {
    if forall e | e in events :: Completed(e, d) {
      CompletedAreRecording(events, d);
    }
  }

  lemma {:induction false} FullSendStartsSpine<C, P>(k: Codec<C, P>, w: World<C, P>, d: string)
    requires Consistent(k, w) && Sends<C, P>(w, RenameTemp).Some? && w.run.job.dest == d && w.run.backup.IsFull()
    requires KeepsNewest(w.run.job.opts.destPolicies) && !w.file.Broken?
    ensures KeepsSpine(Sends<C, P>(w, RenameTemp).value, d)
  {
    var w', b, there := Sends<C, P>(w, RenameTemp).value, w.run.backup, Files(w, d);
    assert Files(w', d) == there + {b};
    assert Spine(there + {b}, b.snapshot, [b]);
    assert Latest(w', d) == Some(b.snapshot) && Todo(w', d) == [];
  }

  /**
   * Whatever happened before, stops included, sending one full backup brings a destination back to
   * where completed runs keep it.
   */
  lemma {:induction false} RecoversFrom<C, P>(k: Codec<C, P>, events: seq<Event<C>>, n: nat, d: string)
    requires Execute(k, Initial(), events).Some? && forall e | e in events :: Recording(e)
    requires FullSentAt(k, events, n, d) && forall i | n < i < |events| :: Completed(events[i], d)
    ensures KeepsSpine(Execute(k, Initial(), events).value, d)
  {
    var before, last := events[..|events| - 1], events[|events| - 1];
    AlwaysConsistent(k, before);
    hide KeepsSpine, Consistent, SourceSafe, Recording, Completed;
    if n == |events| - 1 {
      FullSendStartsSpine(k, Execute(k, Initial(), before).value, d);
    } else {
      assert before[..n] == events[..n];
      RecordedSnapshotsStay(k, before);
      RecoversFrom(k, before, n, d);
      StepKeepsIncremental(k, Execute(k, Initial(), before).value, last, d);
    }
  }

  lemma {:induction false} SteadyKeepsSpine<C, P>(k: Codec<C, P>, events: seq<Event<C>>, d: string)
    requires Execute(k, Initial(), events).Some? && Steady(k, events, d)
    ensures KeepsSpine(Execute(k, Initial(), events).value, d) && SourceSafe(Execute(k, Initial(), events).value)
  {
    SteadyIsRecording(k, events, d);
    RecordedSnapshotsStay(k, events);
    hide KeepsSpine, SourceSafe, Execute, FullSentAt, Completed;
    if forall e | e in events :: Completed(e, d) {
      AlwaysIncremental(k, events, d);
    } else {
      var n :| FullSentAt(k, events, n, d) && forall i | n < i < |events| :: Completed(events[i], d);
      SentAtIndex(k, events, n, d);
      RecoversFrom(k, events, n, d);
    }
  }

  lemma {:induction false} SentAtIndex<C, P>(k: Codec<C, P>, events: seq<Event<C>>, n: int, d: string)
    requires FullSentAt(k, events, n, d)
    ensures 0 <= n < |events|
  {
  }

  // A newest full backup of a listing.
  ghost predicate NewestFull(listing: seq<Backup>, root: Backup) {
    root in listing && root.IsFull() && forall b | b in listing && b.IsFull() :: b.snapshot.rank <= root.snapshot.rank
  }

  /**
   * After runs for any destinations that are completed, from the start or from a full backup of this
   * one on, a destination that has been backed up has a full backup, and the next run for it that is
   * not forced to be full is full only because its newest full backup is old enough: otherwise it is
   * incremental on the snapshot recorded for it.
   */
  lemma {:induction false} NextIsIncremental<C, P>(k: Codec<C, P>, events: seq<Event<C>>, d: string,
                                                   listing: seq<Backup>, bookmarks: seq<Snapshot>,
                                                   archives: seq<Snapshot>, opts: RunOptions, now: int)
    returns (root: Backup)
    requires Execute(k, Initial(), events).Some? && Steady(k, events, d)
    requires var w := Execute(k, Initial(), events).value;
      && w.run.Idle? && d in w.recorded && IsListing(listing, Files(w, d))
      && IsSnapshotListing(bookmarks, w.bookmarks.Keys) && IsSnapshotListing(archives, w.archives.Keys)
    requires opts.stateFile && !opts.forceFull && opts.fullInterval.Some?
    ensures NewestFull(listing, root)
    ensures var w := Execute(k, Initial(), events).value;
      && w.file == Recorded(w.recorded)
      && Decide(listing, (set s | s in bookmarks) + (set s | s in archives), opts, now) ==
           if root.snapshot.time.None? then Fatal
           else if Elapsed(opts.fullInterval.value, now, root.snapshot.time.value) then Full
           else Decision.Incremental(w.recorded[d])
  {
    var w := Execute(k, Initial(), events).value;
    SteadyKeepsSpine(k, events, d);
    var chain :| Spine(Files(w, d), w.recorded[d], chain);
    assert Held(w, w.recorded[d]);
    var snapshots := (set s | s in bookmarks) + (set s | s in archives);
    DecideOnSpine(listing, Files(w, d), w.recorded[d], chain, snapshots, opts, now);
    root := chain[|chain| - 1];
  }

  /**
   * The chain of a destination's most recent backup ends in its newest full backup, so an
   * incremental is only ever made on a chain whose root is less than nine tenths of the full
   * interval older than the moment its run decided.
   */
  lemma {:induction false} ChainAgeIsBounded<C, P>(k: Codec<C, P>, events: seq<Event<C>>, d: string,
                                                   listing: seq<Backup>, bookmarks: seq<Snapshot>,
                                                   archives: seq<Snapshot>, opts: RunOptions, now: int,
                                                   chain: seq<Backup>)
    requires Execute(k, Initial(), events).Some? && Steady(k, events, d)
    requires var w := Execute(k, Initial(), events).value;
      && w.run.Idle? && d in w.recorded && IsListing(listing, Files(w, d))
      && IsSnapshotListing(bookmarks, w.bookmarks.Keys) && IsSnapshotListing(archives, w.archives.Keys)
    requires listing != [] && IsFullChain(listing[0], IndexOf(listing), chain, true)
    ensures NewestFull(listing, chain[|chain| - 1])
    ensures forall base
      | Decide(listing, (set s | s in bookmarks) + (set s | s in archives), opts, now) == Decision.Incremental(base) ::
      && base == listing[0].snapshot
      && chain[|chain| - 1].snapshot.time.Some?
      && !Elapsed(opts.fullInterval.value, now, chain[|chain| - 1].snapshot.time.value)
  {
    var w := Execute(k, Initial(), events).value;
    SteadyKeepsSpine(k, events, d);
    var spine :| Spine(Files(w, d), w.recorded[d], spine);
    assert Held(w, w.recorded[d]);
    var snapshots := (set s | s in bookmarks) + (set s | s in archives);
    SpineBounds(listing, Files(w, d), w.recorded[d], spine, snapshots, opts, now, chain);
  }

  lemma {:induction false} SpineBounds(listing: seq<Backup>, there: set<Backup>, newest: Snapshot, spine: seq<Backup>,
                                       snapshots: set<Snapshot>, opts: RunOptions, now: int, chain: seq<Backup>)
    requires IsListing(listing, there) && Spine(there, newest, spine) && newest in snapshots
    requires listing != [] && IsFullChain(listing[0], IndexOf(listing), chain, true)
    ensures NewestFull(listing, chain[|chain| - 1])
    ensures forall base | Decide(listing, snapshots, opts, now) == Decision.Incremental(base) ::
      && base == listing[0].snapshot
      && chain[|chain| - 1].snapshot.time.Some?
      && !Elapsed(opts.fullInterval.value, now, chain[|chain| - 1].snapshot.time.value)
  {
    DecideOnSpine(listing, there, newest, spine, snapshots, opts, now);
    NewestIsFirst(listing, there, newest, spine);
    ListedIsChain(listing, there, spine);
    ChainIsUnique(listing[0], IndexOf(listing), spine, true, chain, true);
    hide IsFullChain, IndexOf, FirstCommon, FirstFull;
  }
}
