/** No run takes from the source a snapshot that some destination's next incremental is built on. */
module SourceSafety {
  import opened Wrappers
  import opened Backups
  import opened Retention
  import opened SnapshotPruning
  import opened BaseSelection
  import opened Protocol

  // Runs with a state file, of a source that keeps what it has backed up as an archive or a bookmark.
  predicate Recording<C>(e: Event<C>) {
    match e
    case BeginBackup(_, opts, _, _, _, _) => opts.stateFile
    case KeepSnapshot(archive, bookmark) => archive || bookmark
    case BeginPruneSnapshots(stateFile, _, _, _) => stateFile
    case _ => true
  }

  predicate Held<C, P>(w: World<C, P>, s: Snapshot) {
    s in w.archives || s in w.bookmarks
  }

  // Not about to be removed from both.
  predicate Spared<C, P>(w: World<C, P>, s: Snapshot, archives: seq<Snapshot>, bookmarks: seq<Snapshot>) {
    (s in w.archives && s !in archives) || (s in w.bookmarks && s !in bookmarks)
  }

  predicate AllHeld<C, P>(w: World<C, P>, state: State) {
    forall d | d in state :: Held(w, state[d])
  }

  predicate RunSafe<C, P>(w: World<C, P>) {
    match w.run
    case Chosen(job, _) => job.opts.stateFile
    case Streaming(job, b, _, kept) => job.opts.stateFile && (kept ==> Held(w, b.snapshot))
    case Sent(job, b) => job.opts.stateFile && Held(w, b.snapshot)
    case Writing(job, b, next) => next == w.recorded[job.dest := b.snapshot] && Held(w, b.snapshot)
    case Noted(_, _, state) => state == w.recorded
    case PruningSource(archives, bookmarks, _) =>
      forall d | d in w.recorded :: Spared(w, w.recorded[d], archives, bookmarks)
    case _ => true
  }

  predicate SourceSafe<C, P>(w: World<C, P>) {
    && AllHeld(w, w.recorded)
    && (w.file.Missing? ==> w.recorded == map[])
    && (w.file.Recorded? ==> w.file.state == w.recorded)
    && RunSafe(w)
  }

  // A plan spares what the state it was made with names.
  lemma {:induction false} PlanSpares<C, P>(w: World<C, P>, archives: seq<Snapshot>, bookmarks: seq<Snapshot>,
                                            policies: seq<RetentionPolicy>, after: Option<(Job, Backup)>)
    requires AllHeld(w, w.recorded)
    requires IsSnapshotListing(archives, w.archives.Keys) && IsSnapshotListing(bookmarks, w.bookmarks.Keys)
    ensures var plan := SourcePlan<P>(archives, bookmarks, policies, w.recorded, after);
      forall d | d in w.recorded :: Spared(w, w.recorded[d], plan.archives, plan.bookmarks)
  {
  }

  lemma {:induction false} PruneSourceKeepsSafe<C, P>(w: World<C, P>, e: Event<C>)
    requires SourceSafe(w) && PrunesSource(w, e).Some? && Recording(e)
    ensures SourceSafe(PrunesSource(w, e).value)
  {
    hide PrunedSnapshots;
    match e
    case PlanSnapshots(archives, bookmarks) =>
      PlanSpares(w, archives, bookmarks, w.run.job.opts.sourcePolicies, Some((w.run.job, w.run.backup)));
    case BeginPruneSnapshots(_, policies, archives, bookmarks) => PlanSpares(w, archives, bookmarks, policies, None);
    case _ =>
  }

  lemma {:induction false} StateKeepsSafe<C, P>(w: World<C, P>, e: Event<C>)
    requires SourceSafe(w) && NotesState(w, e).Some?
    ensures SourceSafe(NotesState(w, e).value)
  {
  }

  lemma {:induction false} KeepKeepsSafe<C, P>(w: World<C, P>, archive: bool, bookmark: bool)
    requires SourceSafe(w) && Keeps(w, archive, bookmark).Some? && (archive || bookmark)
    ensures SourceSafe(Keeps(w, archive, bookmark).value)
  {
  }

  lemma {:induction false} SendKeepsSafe<C, P>(w: World<C, P>, e: Event<C>)
    requires SourceSafe(w) && Sends(w, e).Some?
    ensures SourceSafe(Sends(w, e).value)
  {
  }

  lemma {:induction false} PruneDestKeepsSafe<C, P>(w: World<C, P>, e: Event<C>)
    requires SourceSafe(w) && PrunesDest(w, e).Some?
    ensures SourceSafe(PrunesDest(w, e).value)
  {
  }

  lemma {:induction false} StartKeepsSafe<C, P>(k: Codec<C, P>, w: World<C, P>, e: Event<C>)
    requires SourceSafe(w) && Step(k, w, e).Some? && Recording(e) &&
      (e.BeginBackup? || e.CreateBackup? || e.Finish? || e.Stop?)
    ensures SourceSafe(Step(k, w, e).value)
  {
    hide IsListing, IsSnapshotListing, Decide;
  }

  lemma {:induction false} StepKeepsSafe<C, P>(k: Codec<C, P>, w: World<C, P>, e: Event<C>)
    requires SourceSafe(w) && Step(k, w, e).Some? && Recording(e)
    ensures SourceSafe(Step(k, w, e).value)
  {
    hide SourceSafe, BackupStarts, Creates, Keeps, Sends, NotesState, PrunesSource, PrunesDest, Finished;
    match e
    case BeginBackup(_, _, _, _, _, _) => StartKeepsSafe(k, w, e);
    case CreateBackup(_, _) => StartKeepsSafe(k, w, e);
    case KeepSnapshot(archive, bookmark) => KeepKeepsSafe(w, archive, bookmark);
    case OpenTemp => SendKeepsSafe(w, e);
    case FillTemp => SendKeepsSafe(w, e);
    case AbortSend => SendKeepsSafe(w, e);
    case RenameTemp => SendKeepsSafe(w, e);
    case SkipState => StateKeepsSafe(w, e);
    case TruncateState => StateKeepsSafe(w, e);
    case WriteState => StateKeepsSafe(w, e);
    case PlanSnapshots(_, _) => PruneSourceKeepsSafe(w, e);
    case RemoveArchive(_) => PruneSourceKeepsSafe(w, e);
    case RemoveBookmark(_) => PruneSourceKeepsSafe(w, e);
    case BeginPruneSnapshots(_, _, _, _) => PruneSourceKeepsSafe(w, e);
    case PlanBackups => PruneDestKeepsSafe(w, e);
    case RemoveBackup(_) => PruneDestKeepsSafe(w, e);
    case BeginPruneBackups(_, _, _) => PruneDestKeepsSafe(w, e);
    case Finish => StartKeepsSafe(k, w, e);
    case Stop => StartKeepsSafe(k, w, e);
  }

  /**
   * With a state file, after any events - whatever fails, wherever runs stop, whichever
   * destinations they were for - every snapshot recorded for a destination is still an archive or a
   * bookmark of the source.
   */
  lemma {:induction false} RecordedSnapshotsStay<C, P>(k: Codec<C, P>, events: seq<Event<C>>)
    requires Execute(k, Initial(), events).Some? && forall e | e in events :: Recording(e)
    ensures SourceSafe(Execute(k, Initial(), events).value)
    ensures var w := Execute(k, Initial(), events).value; forall d | d in w.recorded :: Held(w, w.recorded[d])
  {
    if events != [] {
      var before := events[..|events| - 1];
      RecordedSnapshotsStay(k, before);
      StepKeepsSafe(k, Execute(k, Initial(), before).value, events[|events| - 1]);
    }
  }
}
