/** Over completed runs, every incremental was made on a chain that was young enough then. */
module ChainAge {
  import opened Wrappers
  import opened Backups
  import opened Retention
  import opened Chains
  import opened Pruning
  import opened SnapshotPruning
  import opened BaseSelection
  import opened Protocol
  import opened EndToEnd
  import opened SourceSafety
  import opened Incrementality

  function Root(chain: seq<Backup>): Backup
    requires chain != []
  {
    chain[|chain| - 1]
  }

  // Less than nine tenths of the full interval old at a decision.
  predicate Young(root: Backup, opts: RunOptions, now: int) {
    && opts.fullInterval.Some? && root.snapshot.time.Some?
    && !Elapsed(opts.fullInterval.value, now, root.snapshot.time.value)
  }

  // The run that began with the i-th event made b for d.
  predicate MadeBy<C>(events: seq<Event<C>>, i: int, d: string, b: Backup) {
    && 0 <= i && i + 1 < |events| && events[i].BeginBackup? && events[i].d == d
    && events[i + 1].CreateBackup? && events[i + 1].backup == b
  }

  // The run that made b for d found this root young.
  ghost predicate Dated<C>(events: seq<Event<C>>, d: string, b: Backup, root: Backup) {
    exists i :: MadeBy(events, i, d, b) && Young(root, events[i].opts, events[i].now)
  }

  // The chains from a base, as the run that chose it found them.
  ghost predicate AllYoung(there: set<Backup>, base: Snapshot, opts: RunOptions, now: int) {
    forall chain: seq<Backup> | ChainIn(there, chain) && chain[0].snapshot == base :: Young(Root(chain), opts, now)
  }

  ghost predicate RunDated<C, P>(events: seq<Event<C>>, w: World<C, P>, d: string) {
    match w.run
    case Chosen(job, base) =>
      job.dest == d && base.Some? ==>
        && events != [] && events[|events| - 1].BeginBackup? && events[|events| - 1].d == d
        && AllYoung(Files(w, d), base.value, events[|events| - 1].opts, events[|events| - 1].now)
    case Streaming(job, b, _, _) =>
      job.dest == d && b.base.Some? ==>
        forall chain: seq<Backup> | ChainIn(Files(w, d), chain) && chain[0].snapshot == b.base.value ::
          Dated(events, d, b, Root(chain))
    case _ => true
  }

  // Every incremental later than since.
  ghost predicate FilesDated<C>(events: seq<Event<C>>, there: set<Backup>, d: string, since: int) {
    forall chain: seq<Backup> | ChainIn(there, chain) && |chain| > 1 && chain[0].snapshot.rank > since ::
      Dated(events, d, chain[0], Root(chain))
  }

  ghost predicate Aged<C, P>(events: seq<Event<C>>, w: World<C, P>, d: string, since: int) {
    FilesDated(events, Files(w, d), d, since) && RunDated(events, w, d)
  }

  lemma {:induction false} StillDated<C>(events: seq<Event<C>>, e: Event<C>, d: string, b: Backup, root: Backup)
    requires Dated(events, d, b, root)
    ensures Dated(events + [e], d, b, root)
  {
    var i :| MadeBy(events, i, d, b) && Young(root, events[i].opts, events[i].now);
    assert MadeBy(events + [e], i, d, b);
  }

  lemma {:induction false} FilesStillDated<C>(events: seq<Event<C>>, e: Event<C>, there: set<Backup>,
                                              fewer: set<Backup>, d: string, since: int)
    requires FilesDated(events, there, d, since) && fewer <= there
    ensures FilesDated(events + [e], fewer, d, since)
  {
    forall chain: seq<Backup> | ChainIn(fewer, chain) && |chain| > 1 && chain[0].snapshot.rank > since
      ensures Dated(events + [e], d, chain[0], Root(chain))
    {
      assert ChainIn(there, chain);
      StillDated(events, e, d, chain[0], Root(chain));
    }
  }

  /* ---- Beginning a run ---- */

  lemma {:induction false} ChosenIsYoung<C, P>(w: World<C, P>, e: Event<C>, d: string)
    requires SourceSafe(w) && KeepsSpine(w, d) && e.BeginBackup? && e.d == d && BackupStarts(w, e).Some?
    requires BackupStarts(w, e).value.run.base.Some?
    ensures AllYoung(Files(w, d), BackupStarts(w, e).value.run.base.value, e.opts, e.now)
  {
    var base := BackupStarts(w, e).value.run.base.value;
    var snapshots := (set s | s in e.bookmarks) + (set s | s in e.archives);
    ChosenBaseIsLatest(w, e, d);
    assert HasSpine(Files(w, d), w.recorded[d], []);
    var spine: seq<Backup> :| Spine(Files(w, d), w.recorded[d], spine);
    assert Held(w, w.recorded[d]) && w.recorded[d] in snapshots;
    assert Decide(e.listing, snapshots, e.opts, e.now) == Decision.Incremental(base);
    forall chain: seq<Backup> | ChainIn(Files(w, d), chain) && chain[0].snapshot == base
      ensures Young(Root(chain), e.opts, e.now)
    {
      HeadOfListing(e.listing, Files(w, d), w.recorded[d], spine, chain);
      ListedIsChain(e.listing, Files(w, d), chain);
      SpineBounds(e.listing, Files(w, d), w.recorded[d], spine, snapshots, e.opts, e.now, chain);
      DecidedByInterval(e.listing, snapshots, e.opts, e.now, base);
    }
  }

  lemma {:induction false} DecidedByInterval(listing: seq<Backup>, snapshots: set<Snapshot>, opts: RunOptions,
                                             now: int, base: Snapshot)
    requires Decide(listing, snapshots, opts, now) == Decision.Incremental(base)
    ensures opts.fullInterval.Some?
  {
  }

  lemma {:induction false} HeadOfListing(listing: seq<Backup>, there: set<Backup>, newest: Snapshot,
                                         spine: seq<Backup>, chain: seq<Backup>)
    requires IsListing(listing, there) && Spine(there, newest, spine)
    requires ChainIn(there, chain) && chain[0].snapshot == newest
    ensures listing != [] && chain[0] == listing[0]
  {
    NewestIsFirst(listing, there, newest, spine);
    assert chain[0] in listing;
    var i :| 0 <= i < |listing| && listing[i] == chain[0];
  }

  lemma {:induction false} StartKeepsAged<C, P>(events: seq<Event<C>>, w: World<C, P>, e: Event<C>, d: string,
                                                since: int)
    requires SourceSafe(w) && KeepsSpine(w, d) && Aged(events, w, d, since)
    requires e.BeginBackup? && BackupStarts(w, e).Some?
    ensures Aged(events + [e], BackupStarts(w, e).value, d, since)
  {
    var w' := BackupStarts(w, e).value;
    FilesStillDated(events, e, Files(w, d), Files(w', d), d, since);
    assert (events + [e])[|events + [e]| - 1] == e;
    if e.d == d && w'.run.base.Some? {
      ChosenIsYoung(w, e, d);
    }
  }

  /* ---- Making, sending and removing ---- */

  lemma {:induction false} CreateKeepsAged<C, P>(k: Codec<C, P>, events: seq<Event<C>>, w: World<C, P>, b: Backup,
                                                 content: C, d: string, since: int)
    requires Aged(events, w, d, since) && Creates(k, w, b, content).Some?
    ensures Aged(events + [CreateBackup(b, content)], Creates(k, w, b, content).value, d, since)
  {
    var w', e := Creates(k, w, b, content).value, CreateBackup(b, content);
    FilesStillDated(events, e, Files(w, d), Files(w', d), d, since);
    if w.run.job.dest == d && b.base.Some? {
      assert MadeBy(events + [e], |events| - 1, d, b);
      forall chain: seq<Backup> | ChainIn(Files(w', d), chain) && chain[0].snapshot == b.base.value
        ensures Dated(events + [e], d, b, Root(chain))
      {
        assert Young(Root(chain), (events + [e])[|events| - 1].opts, (events + [e])[|events| - 1].now);
      }
    }
  }

  // A chain that begins with the newest backup goes on with what was there before it.
  lemma {:induction false} ChainBeforeSend(there: set<Backup>, b: Backup, chain: seq<Backup>)
    requires (forall x | x in there :: OlderBase(x) && x.snapshot.rank < b.snapshot.rank) && OlderBase(b)
    requires ChainIn(there + {b}, chain)
    ensures chain[0] != b ==> ChainIn(there, chain)
    ensures chain[0] == b && |chain| > 1 ==>
      ChainIn(there, chain[1..]) && Root(chain[1..]) == Root(chain) && b.base == Some(chain[1].snapshot)
  {
    forall i | 0 < i < |chain| ensures chain[i] != b {
      assert chain[i - 1].base == Some(chain[i - 1 + 1].snapshot);
      assert chain[i - 1] in chain;
    }
    forall x | x in chain[1..] ensures x in there {
      var i :| 0 <= i < |chain[1..]| && chain[1..][i] == x;
      assert chain[i + 1] in chain;
    }
  }

  lemma {:induction false} RenameKeepsAged<C, P>(k: Codec<C, P>, events: seq<Event<C>>, w: World<C, P>, d: string,
                                                 since: int)
    requires Consistent(k, w) && Aged(events, w, d, since) && Sends<C, P>(w, RenameTemp).Some? && w.run.job.dest == d
    ensures Aged(events + [RenameTemp], Sends<C, P>(w, RenameTemp).value, d, since)
  {
    var w', b, there := Sends<C, P>(w, RenameTemp).value, w.run.backup, Files(w, d);
    assert Files(w', d) == there + {b};
    SentIsNewest(k, w);
    forall chain: seq<Backup> | ChainIn(there + {b}, chain) && |chain| > 1 && chain[0].snapshot.rank > since
      ensures Dated(events + [RenameTemp], d, chain[0], Root(chain))
    {
      hide ChainIn, Consistent, OlderBase, Dated;
      SentChainDated(events, there, d, b, chain, since);
    }
  }

  lemma {:induction false} SentChainDated<C>(events: seq<Event<C>>, there: set<Backup>, d: string, b: Backup,
                                             chain: seq<Backup>, since: int)
    requires FilesDated(events, there, d, since) && OlderBase(b)
    requires forall x | x in there :: OlderBase(x) && x.snapshot.rank < b.snapshot.rank
    requires b.base.Some? ==>
      forall c: seq<Backup> | ChainIn(there, c) && c[0].snapshot == b.base.value :: Dated(events, d, b, Root(c))
    requires ChainIn(there + {b}, chain) && |chain| > 1 && chain[0].snapshot.rank > since
    ensures Dated(events + [RenameTemp], d, chain[0], Root(chain))
  {
    hide Dated;
    ChainBeforeSend(there, b, chain);
    StillDated(events, RenameTemp, d, chain[0], Root(chain));
  }

  lemma {:induction false} SentIsNewest<C, P>(k: Codec<C, P>, w: World<C, P>)
    requires Consistent(k, w) && w.run.Streaming?
    ensures OlderBase(w.run.backup)
    ensures forall x | x in Files(w, w.run.job.dest) :: OlderBase(x) && x.snapshot.rank < w.run.backup.snapshot.rank
  {
    var st := StoreOf(w.dests, w.run.job.dest);
    assert StoreOk(k, w.history, st);
    forall x | x in st.files ensures OlderBase(x) {
      assert BackupOk(k, w.history, x, st.files[x]);
    }
  }

  // A step that adds no backup for d and begins none.
  ghost predicate Quiet<C, P>(w: World<C, P>, w': World<C, P>, d: string) {
    && Files(w', d) <= Files(w, d) && !w'.run.Chosen?
    && (w'.run.Streaming? ==>
          && w.run.Streaming? && w'.run.job == w.run.job && w'.run.backup == w.run.backup
          && Files(w', w'.run.job.dest) == Files(w, w.run.job.dest))
  }

  lemma {:induction false} QuietKeepsAged<C, P>(events: seq<Event<C>>, w: World<C, P>, e: Event<C>, w': World<C, P>,
                                                d: string, since: int)
    requires Aged(events, w, d, since) && Quiet(w, w', d)
    ensures Aged(events + [e], w', d, since)
  {
    FilesStillDated(events, e, Files(w, d), Files(w', d), d, since);
    if w'.run.Streaming? && w'.run.job.dest == d && w'.run.backup.base.Some? {
      var b := w'.run.backup;
      forall chain: seq<Backup> | ChainIn(Files(w', d), chain) && chain[0].snapshot == b.base.value
        ensures Dated(events + [e], d, b, Root(chain))
      {
        StillDated(events, e, d, b, Root(chain));
      }
    }
  }

  lemma {:induction false} SendIsQuiet<C, P>(w: World<C, P>, e: Event<C>, d: string)
    requires Sends(w, e).Some? && (w.run.job.dest != d || !e.RenameTemp?)
    ensures Quiet(w, Sends(w, e).value, d)
  {
  }

  lemma {:induction false} StateIsQuiet<C, P>(w: World<C, P>, e: Event<C>, d: string)
    requires NotesState(w, e).Some?
    ensures Quiet(w, NotesState(w, e).value, d)
  {
  }

  lemma {:induction false} PruneSourceIsQuiet<C, P>(w: World<C, P>, e: Event<C>, d: string)
    requires PrunesSource(w, e).Some?
    ensures Quiet(w, PrunesSource(w, e).value, d)
  {
    hide PrunedSnapshots, IsSnapshotListing;
  }

  lemma {:induction false} PruneDestIsQuiet<C, P>(w: World<C, P>, e: Event<C>, d: string)
    requires PrunesDest(w, e).Some?
    ensures Quiet(w, PrunesDest(w, e).value, d)
  {
    hide PrunedBackups, IsListing;
  }

  lemma {:induction false} StepKeepsAged<C, P>(k: Codec<C, P>, events: seq<Event<C>>, w: World<C, P>, e: Event<C>,
                                               d: string, since: int)
    requires Consistent(k, w) && SourceSafe(w) && KeepsSpine(w, d) && Aged(events, w, d, since)
    requires Step(k, w, e).Some? && Completed(e, d)
    ensures Aged(events + [e], Step(k, w, e).value, d, since)
  {
    hide Consistent, SourceSafe, KeepsSpine, Completed, Aged, Quiet;
    hide BackupStarts, Creates, NotesState, PrunesSource, PrunesDest;
    var w' := Step(k, w, e).value;
    match e
    case BeginBackup(_, _, _, _, _, _) => StartKeepsAged(events, w, e, d, since);
    case CreateBackup(b, content) => CreateKeepsAged(k, events, w, b, content, d, since);
    case RenameTemp => SendKeepsAged(k, events, w, e, d, since);
    case OpenTemp => SendKeepsAged(k, events, w, e, d, since);
    case FillTemp => SendKeepsAged(k, events, w, e, d, since);
    case AbortSend => SendKeepsAged(k, events, w, e, d, since);
    case KeepSnapshot(_, _) => QuietRest(k, w, e, d); QuietKeepsAged(events, w, e, w', d, since);
    case Finish => QuietRest(k, w, e, d); QuietKeepsAged(events, w, e, w', d, since);
    case Stop => QuietRest(k, w, e, d); QuietKeepsAged(events, w, e, w', d, since);
    case SkipState => StateIsQuiet(w, e, d); QuietKeepsAged(events, w, e, w', d, since);
    case TruncateState => StateIsQuiet(w, e, d); QuietKeepsAged(events, w, e, w', d, since);
    case WriteState => StateIsQuiet(w, e, d); QuietKeepsAged(events, w, e, w', d, since);
    case PlanSnapshots(_, _) => PruneSourceIsQuiet(w, e, d); QuietKeepsAged(events, w, e, w', d, since);
    case RemoveArchive(_) => PruneSourceIsQuiet(w, e, d); QuietKeepsAged(events, w, e, w', d, since);
    case RemoveBookmark(_) => PruneSourceIsQuiet(w, e, d); QuietKeepsAged(events, w, e, w', d, since);
    case BeginPruneSnapshots(_, _, _, _) => PruneSourceIsQuiet(w, e, d); QuietKeepsAged(events, w, e, w', d, since);
    case PlanBackups => PruneDestIsQuiet(w, e, d); QuietKeepsAged(events, w, e, w', d, since);
    case RemoveBackup(_) => PruneDestIsQuiet(w, e, d); QuietKeepsAged(events, w, e, w', d, since);
    case BeginPruneBackups(_, _, _) => PruneDestIsQuiet(w, e, d); QuietKeepsAged(events, w, e, w', d, since);
  }

  lemma {:induction false} SendKeepsAged<C, P>(k: Codec<C, P>, events: seq<Event<C>>, w: World<C, P>, e: Event<C>,
                                               d: string, since: int)
    requires Consistent(k, w) && Aged(events, w, d, since) && Sends(w, e).Some?
    ensures Aged(events + [e], Sends(w, e).value, d, since)
  {
    hide Consistent, Aged, Quiet;
    if w.run.job.dest == d && e.RenameTemp? {
      RenameKeepsAged(k, events, w, d, since);
    } else {
      SendIsQuiet(w, e, d);
      QuietKeepsAged(events, w, e, Sends(w, e).value, d, since);
    }
  }

  lemma {:induction false} QuietRest<C, P>(k: Codec<C, P>, w: World<C, P>, e: Event<C>, d: string)
    requires Step(k, w, e).Some? && (e.KeepSnapshot? || e.Finish? || e.Stop?)
    ensures Quiet(w, Step(k, w, e).value, d)
  {
  }

  const START := -1

  lemma {:induction false} AlwaysAged<C, P>(k: Codec<C, P>, events: seq<Event<C>>, d: string)
    requires Execute(k, Initial(), events).Some? && forall e | e in events :: Completed(e, d)
    ensures Aged(events, Execute(k, Initial(), events).value, d, START)
  {
    hide Step, Consistent, SourceSafe, KeepsSpine, Aged, Completed;
    if events == [] {
      NothingIsAged<C, P>(d);
    } else {
      var before, last := events[..|events| - 1], events[|events| - 1];
      AlwaysConsistent(k, before);
      CompletedAreRecording(before, d);
      RecordedSnapshotsStay(k, before);
      AlwaysIncremental(k, before, d);
      AlwaysAged(k, before, d);
      StepKeepsAged(k, before, Execute(k, Initial(), before).value, last, d, START);
      assert events == before + [last];
    }
  }

  lemma {:induction false} NothingIsAged<C, P>(d: string)
    ensures Aged<C, P>([], Initial(), d, START)
  {
    forall chain: seq<Backup> ensures !ChainIn({}, chain) {
      assert chain == [] || chain[0] in chain;
    }
    assert Files<C, P>(Initial(), d) == {};
  }

  // The full backup that the n-th event makes visible.
  ghost function FullOf<C, P>(k: Codec<C, P>, events: seq<Event<C>>, n: int, d: string): Backup
    requires FullSentAt(k, events, n, d)
  {
    Execute(k, Initial(), events[..n]).value.run.backup
  }

  // Nothing is later than what has just been sent.
  lemma {:induction false} SentIsAged<C, P>(k: Codec<C, P>, events: seq<Event<C>>, w: World<C, P>, d: string)
    requires Consistent(k, w) && Sends<C, P>(w, RenameTemp).Some? && w.run.job.dest == d
    ensures Aged(events, Sends<C, P>(w, RenameTemp).value, d, w.run.backup.snapshot.rank)
  {
    var w' := Sends<C, P>(w, RenameTemp).value;
    SentIsNewest(k, w);
    assert Files(w', d) == Files(w, d) + {w.run.backup};
    forall chain: seq<Backup> | ChainIn(Files(w', d), chain)
      ensures chain[0].snapshot.rank <= w.run.backup.snapshot.rank
    {
      assert chain[0] in chain;
    }
  }

  lemma {:induction false} AgedSinceFull<C, P>(k: Codec<C, P>, events: seq<Event<C>>, n: nat, d: string)
    requires Execute(k, Initial(), events).Some? && forall e | e in events :: Recording(e)
    requires FullSentAt(k, events, n, d) && forall i | n < i < |events| :: Completed(events[i], d)
    ensures Aged(events, Execute(k, Initial(), events).value, d, FullOf(k, events, n, d).snapshot.rank)
  {
    hide KeepsSpine, Consistent, SourceSafe, Recording, Completed, Aged, FullSentAt, FullOf, Step;
    SentAtIndex(k, events, n, d);
    var before, last := events[..|events| - 1], events[|events| - 1];
    assert events == before + [last] && forall i | 0 <= i < |before| :: before[i] == events[i];
    if n == |events| - 1 {
      SentLastIsAged(k, events, d);
    } else {
      AlwaysConsistent(k, before);
      SameFull(k, before, events, n, d);
      RecordedSnapshotsStay(k, before);
      RecoversFrom(k, before, n, d);
      AgedSinceFull(k, before, n, d);
      StepKeepsAged(k, before, Execute(k, Initial(), before).value, last, d, FullOf(k, events, n, d).snapshot.rank);
    }
  }

  lemma {:induction false} SentLastIsAged<C, P>(k: Codec<C, P>, events: seq<Event<C>>, d: string)
    requires Execute(k, Initial(), events).Some? && FullSentAt(k, events, |events| - 1, d)
    ensures Aged(events, Execute(k, Initial(), events).value, d, FullOf(k, events, |events| - 1, d).snapshot.rank)
  {
    hide Aged, Consistent;
    var before := events[..|events| - 1];
    AlwaysConsistent(k, before);
    SentIsAged(k, events, Execute(k, Initial(), before).value, d);
  }

  lemma {:induction false} SameFull<C, P>(k: Codec<C, P>, before: seq<Event<C>>, events: seq<Event<C>>, n: nat,
                                          d: string)
    requires before <= events && n < |before| && FullSentAt(k, events, n, d)
    ensures FullSentAt(k, before, n, d) && FullOf(k, before, n, d) == FullOf(k, events, n, d)
  {
    assert before[..n] == events[..n];
  }

  lemma {:induction false} ListedIsDated<C, P>(events: seq<Event<C>>, w: World<C, P>, d: string, since: int,
                                               listing: seq<Backup>, b: Backup, chain: seq<Backup>)
    returns (i: nat)
    requires Aged(events, w, d, since) && IsListing(listing, Files(w, d))
    requires b in listing && !b.IsFull() && b.snapshot.rank > since && IsFullChain(b, IndexOf(listing), chain, true)
    ensures MadeBy(events, i, d, b) && Young(Root(chain), events[i].opts, events[i].now)
  {
    ChainInListing(listing, Files(w, d), b, chain);
    hide IsListing, IsFullChain, ChainIn, Young, MadeBy, IndexOf, RunDated;
    assert Dated(events, d, b, Root(chain));
    i :| MadeBy(events, i, d, b) && Young(Root(chain), events[i].opts, events[i].now);
  }

  /**
   * After any completed runs, whatever has been pruned since, every listed incremental with a whole
   * chain was made by a run that found the root of that chain less than nine tenths of the full
   * interval old when it decided.
   */
  lemma {:induction false} EveryIncrementalIsDated<C, P>(k: Codec<C, P>, events: seq<Event<C>>, d: string,
                                                         listing: seq<Backup>, b: Backup, chain: seq<Backup>)
    returns (i: nat)
    requires Execute(k, Initial(), events).Some? && forall e | e in events :: Completed(e, d)
    requires IsListing(listing, Files(Execute(k, Initial(), events).value, d))
    requires b in listing && !b.IsFull() && IsFullChain(b, IndexOf(listing), chain, true)
    ensures MadeBy(events, i, d, b) && Young(Root(chain), events[i].opts, events[i].now)
  {
    AlwaysAged(k, events, d);
    i := ListedIsDated(events, Execute(k, Initial(), events).value, d, START, listing, b, chain);
  }

  /**
   * The same after runs that stopped anywhere, for the incrementals later than a full backup from
   * which on runs were completed.
   */
  lemma {:induction false} LaterIncrementalsAreDated<C, P>(k: Codec<C, P>, events: seq<Event<C>>, n: nat, d: string,
                                                           listing: seq<Backup>, b: Backup, chain: seq<Backup>)
    returns (i: nat)
    requires Execute(k, Initial(), events).Some? && forall e | e in events :: Recording(e)
    requires FullSentAt(k, events, n, d) && forall j | n < j < |events| :: Completed(events[j], d)
    requires IsListing(listing, Files(Execute(k, Initial(), events).value, d))
    requires b in listing && !b.IsFull() && b.snapshot.rank > FullOf(k, events, n, d).snapshot.rank
    requires IsFullChain(b, IndexOf(listing), chain, true)
    ensures MadeBy(events, i, d, b) && Young(Root(chain), events[i].opts, events[i].now)
  {
    AgedSinceFull(k, events, n, d);
    i := ListedIsDated(events, Execute(k, Initial(), events).value, d, FullOf(k, events, n, d).snapshot.rank,
                       listing, b, chain);
  }

  lemma {:induction false} ChainInListing(listing: seq<Backup>, there: set<Backup>, b: Backup, chain: seq<Backup>)
    requires IsListing(listing, there) && b in listing && IsFullChain(b, IndexOf(listing), chain, true)
    ensures ChainIn(there, chain) && (!b.IsFull() ==> |chain| > 1)
  {
    var idx := IndexOf(listing);
    IndexOfMembers(listing);
    forall i | 0 <= i < |chain| - 1 ensures chain[i].base == Some(chain[i + 1].snapshot) {
      assert chain[i + 1] == idx[chain[i].base.value];
    }
    ChainIsListed(b, listing, chain);
  }
}
