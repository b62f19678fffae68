/** Every listed backup restores to the content of the source at its snapshot. */
module EndToEnd {
  import opened Wrappers
  import opened Backups
  import opened Chains
  import opened Pruning
  import opened PruningFacts
  import opened Retention
  import opened SnapshotPruning
  import opened Protocol

  ghost predicate HasSnapshot(there: set<Backup>, n: Snapshot) {
    exists b | b in there :: b.snapshot == n
  }

  // Every base is there.
  ghost predicate BasesThere(there: set<Backup>) {
    forall b | b in there && b.base.Some? :: HasSnapshot(there, b.base.value)
  }

  // What is built on a backup about to go is about to go.
  ghost predicate DependantsGo(there: set<Backup>, todo: seq<Backup>) {
    forall b, x | b in there && x in todo && b.base == Some(x.snapshot) :: b in todo
  }

  ghost predicate RunClosed<C, P>(w: World<C, P>) {
    match w.run
    case Chosen(job, base) => base.Some? ==> HasSnapshot(StoreOf(w.dests, job.dest).files.Keys, base.value)
    case Streaming(job, b, _, _) => b.base.Some? ==> HasSnapshot(StoreOf(w.dests, job.dest).files.Keys, b.base.value)
    case PruningDest(d, todo) => DependantsGo(StoreOf(w.dests, d).files.Keys, todo)
    case _ => true
  }

  ghost predicate Closed<C, P>(w: World<C, P>) {
    && (forall d | d in w.dests :: BasesThere(w.dests[d].files.Keys))
    && RunClosed(w)
  }

  // Removing what nothing there is built on.
  lemma {:induction false} RemovalKeepsBases(there: set<Backup>, x: Backup)
    requires BasesThere(there) && forall b | b in there :: b.base != Some(x.snapshot)
    ensures BasesThere(there - {x})
  {
  }

  lemma {:induction false} PlannedDependantsGo(listing: seq<Backup>, policies: seq<RetentionPolicy>, there: set<Backup>)
    requires IsListing(listing, there) && PrunedBackups(listing, policies).Ok?
    ensures DependantsGo(there, PrunedBackups(listing, policies).value)
  {
    var pruned := PrunedBackups(listing, policies).value;
    if policies != [] {
      var idx := IndexOf(listing);
      var retained := Retained(policies, Candidates(listing)).value;
      IndexOfMembers(listing);
      RetainedAreRestorable(listing, policies);
      DistinctPlan(listing, policies);
      assert BaseClosed(Survivors(retained, idx), idx) by { SurvivorsAreLeastClosed(retained, idx); }
      forall b, x | b in there && x in pruned && b.base == Some(x.snapshot) ensures b in pruned {
        assert b in listing && idx[b.snapshot] == b;
      }
    }
  }

  // The newest backup about to go is the base of nothing that is there.
  lemma {:induction false} HeadHasNoDependants(there: set<Backup>, todo: seq<Backup>)
    requires (forall b | b in there :: OlderBase(b)) && NewestFirst(todo) && todo != []
    requires DependantsGo(there, todo)
    ensures forall b | b in there :: b.base != Some(todo[0].snapshot)
    ensures DependantsGo(there - {todo[0]}, todo[1..])
  {
  }

  lemma {:induction false} ClosedStoreStep<C, P>(w: World<C, P>, d: string, st: Store<P>, run: Run<P>)
    requires Closed(w) && BasesThere(st.files.Keys)
    requires RunClosed(w.(dests := PutFile(w.dests, d, st), run := run))
    ensures Closed(w.(dests := PutFile(w.dests, d, st), run := run))
  {
  }

  lemma {:induction false} StoresAreOlder<C, P>(k: Codec<C, P>, history: map<Snapshot, C>, st: Store<P>)
    requires StoreOk(k, history, st)
    ensures forall b | b in st.files :: OlderBase(b)
  {
  }

  lemma {:induction false} RemoveKeepsClosed<C, P>(k: Codec<C, P>, w: World<C, P>)
    requires Consistent(k, w) && Closed(w) && PrunesDest<C, P>(w, RemoveBackup(true)).Some?
    ensures Closed(PrunesDest<C, P>(w, RemoveBackup(true)).value)
  {
    hide BasesThere, DependantsGo, NewestFirst, StoreOk, OlderBase;
    var d, todo := w.run.dest, w.run.todo;
    var st := StoreOf(w.dests, d);
    assert StoreOk(k, w.history, st) by { EmptyStoreIsOk(k, w.history); }
    assert BasesThere(st.files.Keys) by { EmptyStoreIsOk(k, w.history); }
    StoresAreOlder(k, w.history, st);
    HeadHasNoDependants(st.files.Keys, todo);
    RemovalKeepsBases(st.files.Keys, todo[0]);
    var less := st.(files := st.files - {todo[0]});
    assert less.files.Keys == st.files.Keys - {todo[0]};
    ClosedStoreStep(w, d, less, PruningDest(d, todo[1..]));
  }

  lemma {:induction false} EmptyStoreIsOk<C, P>(k: Codec<C, P>, history: map<Snapshot, C>)
    ensures StoreOk(k, history, Store(map[], map[]))
    ensures BasesThere({})
  {
  }

  // A removal at a destination that fails while the run goes on is left out.
  predicate Removes<C>(e: Event<C>) {
    e != RemoveBackup(false)
  }

  lemma {:induction false} PruneDestKeepsClosed<C, P>(k: Codec<C, P>, w: World<C, P>, e: Event<C>)
    requires Consistent(k, w) && Closed(w) && PrunesDest(w, e).Some? && Removes(e)
    ensures Closed(PrunesDest(w, e).value)
  {
    match e
    case PlanBackups =>
      var (job, b) := w.run.after.value;
      if PrunedBackups([b] + job.listing, job.opts.destPolicies).Ok? {
        PlannedDependantsGo([b] + job.listing, job.opts.destPolicies, StoreOf(w.dests, job.dest).files.Keys);
      }
    case RemoveBackup(_) => RemoveKeepsClosed(k, w);
    case BeginPruneBackups(d, policies, listing) =>
      PlannedDependantsGo(listing, policies, StoreOf(w.dests, d).files.Keys);
  }

  lemma {:induction false} StartKeepsClosed<C, P>(w: World<C, P>, e: Event<C>)
    requires Closed(w) && e.BeginBackup? && BackupStarts(w, e).Some?
    ensures Closed(BackupStarts(w, e).value)
  {
    BaseIsKept(e.listing, (set s | s in e.bookmarks) + (set s | s in e.archives), e.opts, e.now);
  }

  lemma {:induction false} SendKeepsClosed<C, P>(w: World<C, P>, e: Event<C>)
    requires Closed(w) && Sends(w, e).Some?
    ensures Closed(Sends(w, e).value)
  {
  }

  // The steps that leave the files of every destination alone and plan nothing there.
  predicate Elsewhere<C>(e: Event<C>) {
    || e.CreateBackup? || e.KeepSnapshot? || e.SkipState? || e.TruncateState? || e.WriteState? || e.PlanSnapshots?
    || e.RemoveArchive? || e.RemoveBookmark? || e.BeginPruneSnapshots? || e.Finish? || e.Stop?
  }

  lemma {:induction false} ElsewhereKeepsClosed<C, P>(k: Codec<C, P>, w: World<C, P>, e: Event<C>)
    requires Closed(w) && Step(k, w, e).Some? && Elsewhere(e)
    ensures Closed(Step(k, w, e).value)
  {
    hide BasesThere, HasSnapshot, IsSnapshotListing, PrunedSnapshots, SourcePlan, BaseContent, IsListing;
  }

  lemma {:induction false} StepKeepsClosed<C, P>(k: Codec<C, P>, w: World<C, P>, e: Event<C>)
    requires Consistent(k, w) && Closed(w) && Step(k, w, e).Some? && Removes(e)
    ensures Closed(Step(k, w, e).value)
  {
    match e
    case BeginBackup(_, _, _, _, _, _) => StartKeepsClosed(w, e);
    case OpenTemp => SendKeepsClosed(w, e);
    case FillTemp => SendKeepsClosed(w, e);
    case AbortSend => SendKeepsClosed(w, e);
    case RenameTemp => SendKeepsClosed(w, e);
    case PlanBackups => PruneDestKeepsClosed(k, w, e);
    case RemoveBackup(_) => PruneDestKeepsClosed(k, w, e);
    case BeginPruneBackups(_, _, _) => PruneDestKeepsClosed(k, w, e);
    case _ => ElsewhereKeepsClosed(k, w, e);
  }

  lemma {:induction false} AlwaysClosed<C, P>(k: Codec<C, P>, events: seq<Event<C>>)
    requires Execute(k, Initial(), events).Some?
    requires forall e | e in events :: Removes(e)
    ensures Closed(Execute(k, Initial(), events).value)
  {
    if events != [] {
      var before := events[..|events| - 1];
      AlwaysConsistent(k, before);
      AlwaysClosed(k, before);
      StepKeepsClosed(k, Execute(k, Initial(), before).value, events[|events| - 1]);
    }
  }

  /* ---- Restoring ---- */

  // Oldest first, from nothing: each payload is applied to what the one before left.
  function Replay<C, P>(k: Codec<C, P>, files: map<Backup, P>, chain: seq<Backup>): C
    requires forall b | b in chain :: b in files
  {
    if chain == [] then k.empty else k.apply(files[chain[0]], Replay(k, files, chain[1..]))
  }

  // The codec is right about every pair of contents a backup can be made from: nothing or an earlier
  // snapshot, and a later one.
  ghost predicate LawfulFor<C, P>(k: Codec<C, P>, history: map<Snapshot, C>) {
    forall b: Backup | b.snapshot in history && OlderBase(b) && BaseContent(k, history, b.base).Some? ::
      var from := BaseContent(k, history, b.base).value;
      k.apply(k.delta(from, history[b.snapshot]), from) == history[b.snapshot]
  }

  lemma {:induction false} LawfulForAll<C(!new), P>(k: Codec<C, P>, history: map<Snapshot, C>)
    requires Lawful(k)
    ensures LawfulFor(k, history)
  {
  }

  // The codec is right about every member of a chain and what it was made from.
  ghost predicate LawfulOn<C, P>(k: Codec<C, P>, history: map<Snapshot, C>, chain: seq<Backup>) {
    forall b | b in chain && b.snapshot in history && BaseContent(k, history, b.base).Some? ::
      var from := BaseContent(k, history, b.base).value;
      k.apply(k.delta(from, history[b.snapshot]), from) == history[b.snapshot]
  }

  lemma {:induction false} LawfulForIsOn<C, P>(k: Codec<C, P>, history: map<Snapshot, C>, st: Store<P>,
                                               chain: seq<Backup>)
    requires LawfulFor(k, history) && StoreOk(k, history, st) && forall b | b in chain :: b in st.files
    ensures LawfulOn(k, history, chain)
  {
    forall b | b in chain ensures OlderBase(b) {
      assert BackupOk(k, history, b, st.files[b]);
    }
  }

  lemma {:induction false} ReplayIsHistory<C, P>(k: Codec<C, P>, history: map<Snapshot, C>, st: Store<P>, idx: Index,
                                                 b: Backup, chain: seq<Backup>)
    requires LawfulOn(k, history, chain) && StoreOk(k, history, st)
    requires forall n | n in idx :: idx[n] in st.files && idx[n].snapshot == n
    requires b in st.files && IsFullChain(b, idx, chain, true)
    ensures forall x | x in chain :: x in st.files
    ensures Replay(k, st.files, chain) == history[b.snapshot]
    decreases |chain|
  {
    assert BackupOk(k, history, b, st.files[b]);
    if |chain| > 1 {
      assert chain[0 + 1] == idx[chain[0].base.value];
      ChainSuffix(b, idx, chain, true, 1);
      ReplayIsHistory(k, history, st, idx, chain[1], chain[1..]);
      assert forall x | x in chain :: x == chain[0] || x in chain[1..];
    } else {
      assert chain == [b];
    }
  }

  lemma {:induction false} ListingIndex<C, P>(k: Codec<C, P>, history: map<Snapshot, C>, st: Store<P>,
                                              listing: seq<Backup>)
    requires StoreOk(k, history, st) && IsListing(listing, st.files.Keys)
    ensures var idx := IndexOf(listing);
      && OlderBases(idx)
      && (forall n | n in idx :: idx[n] in st.files && idx[n].snapshot == n)
      && (forall b | b in st.files :: b.snapshot in idx && idx[b.snapshot] == b)
  {
    IndexOfMembers(listing);
  }

  lemma {:induction false} ListedChains<C, P>(k: Codec<C, P>, events: seq<Event<C>>, d: string, listing: seq<Backup>)
    requires Execute(k, Initial(), events).Some?
    requires IsListing(listing, StoreOf(Execute(k, Initial(), events).value.dests, d).files.Keys)
    ensures var w := Execute(k, Initial(), events).value;
      && StoreOk(k, w.history, StoreOf(w.dests, d))
      && OlderBases(IndexOf(listing))
      && (forall n | n in IndexOf(listing) ::
            IndexOf(listing)[n] in StoreOf(w.dests, d).files && IndexOf(listing)[n].snapshot == n)
      && (forall b | b in listing :: b.snapshot in IndexOf(listing) && IndexOf(listing)[b.snapshot] == b)
  {
    var w := Execute(k, Initial(), events).value;
    AlwaysConsistent(k, events);
    ListingIndex(k, w.history, StoreOf(w.dests, d), listing);
  }

  /**
   * After any events whatever, failed removals included: where a listed backup has a whole chain,
   * replaying it gives the content the source had at that backup's snapshot, provided the codec is
   * right about the members of that chain.
   */
  lemma {:induction false} WholeChainsReplay<C, P>(k: Codec<C, P>, events: seq<Event<C>>, d: string,
                                                   listing: seq<Backup>, b: Backup, chain: seq<Backup>)
    requires Execute(k, Initial(), events).Some?
    requires IsListing(listing, StoreOf(Execute(k, Initial(), events).value.dests, d).files.Keys)
    requires b in listing && IsFullChain(b, IndexOf(listing), chain, true)
    requires LawfulOn(k, Execute(k, Initial(), events).value.history, chain)
    ensures var w := Execute(k, Initial(), events).value;
      && (forall x | x in chain :: x in StoreOf(w.dests, d).files)
      && b.snapshot in w.history && Replay(k, StoreOf(w.dests, d).files, chain) == w.history[b.snapshot]
  {
    var w := Execute(k, Initial(), events).value;
    var st := StoreOf(w.dests, d);
    ListedChains(k, events, d, listing);
    assert BackupOk(k, w.history, b, st.files[b]);
    ReplayIsHistory(k, w.history, st, IndexOf(listing), b, chain);
  }

  /** After any events whatever, everything listed has a whole chain exactly when every base is listed. */
  lemma {:induction false} AllWholeIffBasesThere<C, P>(k: Codec<C, P>, events: seq<Event<C>>, d: string,
                                                       listing: seq<Backup>)
    requires Execute(k, Initial(), events).Some?
    requires IsListing(listing, StoreOf(Execute(k, Initial(), events).value.dests, d).files.Keys)
    ensures (forall b | b in listing :: Restorable(b, IndexOf(listing)))
      <==> BasesThere(StoreOf(Execute(k, Initial(), events).value.dests, d).files.Keys)
  {
    var there := StoreOf(Execute(k, Initial(), events).value.dests, d).files.Keys;
    var idx := IndexOf(listing);
    ListedChains(k, events, d, listing);
    if BasesThere(there) {
      forall m | m in idx && idx[m].base.Some? ensures idx[m].base.value in idx {
        assert HasSnapshot(there, idx[m].base.value);
      }
      forall b | b in listing ensures Restorable(b, idx) {
        ClosedIsWhole(idx, b.snapshot);
      }
    }
    if forall b | b in listing :: Restorable(b, idx) {
      forall b | b in there && b.base.Some? ensures HasSnapshot(there, b.base.value) {
        assert b in listing;
        RestorableStep(b, idx);
        assert idx[b.base.value].snapshot == b.base.value;
      }
    }
  }

  /**
   * After any events - backups and prunes of any destinations with any options, each stopped after
   * any of its steps - every backup a destination lists has a chain that ends in a full backup, and
   * replaying it gives the content the source had at that backup's snapshot, provided the codec is
   * right about the members of that chain.
   */
  lemma {:induction false} EveryBackupRestores<C, P>(k: Codec<C, P>, events: seq<Event<C>>, d: string,
                                                     listing: seq<Backup>, b: Backup)
    returns (chain: seq<Backup>)
    requires Execute(k, Initial(), events).Some? && forall e | e in events :: Removes(e)
    requires IsListing(listing, StoreOf(Execute(k, Initial(), events).value.dests, d).files.Keys)
    requires b in listing
    ensures IsFullChain(b, IndexOf(listing), chain, true)
    ensures var w := Execute(k, Initial(), events).value;
      && (forall x | x in chain :: x in StoreOf(w.dests, d).files)
      && b.snapshot in w.history
      && (LawfulOn(k, w.history, chain) ==> Replay(k, StoreOf(w.dests, d).files, chain) == w.history[b.snapshot])
  {
    var w := Execute(k, Initial(), events).value;
    AlwaysClosed(k, events);
    AllWholeIffBasesThere(k, events, d, listing);
    ListedChains(k, events, d, listing);
    assert BackupOk(k, w.history, b, StoreOf(w.dests, d).files[b]);
    chain :| IsFullChain(b, IndexOf(listing), chain, true);
    ChainIsListed(b, listing, chain);
    if LawfulOn(k, w.history, chain) {
      WholeChainsReplay(k, events, d, listing, b, chain);
    }
  }

  lemma {:induction false} ChainIsListed(b: Backup, listing: seq<Backup>, chain: seq<Backup>)
    requires b in listing && IsFullChain(b, IndexOf(listing), chain, true)
    ensures forall x | x in chain :: x in listing
  {
    IndexOfMembers(listing);
    forall x | x in chain ensures x in listing {
      var i :| 0 <= i < |chain| && chain[i] == x;
      if i > 0 {
        assert chain[i - 1 + 1] == IndexOf(listing)[chain[i - 1].base.value];
      }
    }
  }
}
