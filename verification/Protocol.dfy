/**
 * One source, any number of destinations and one state file, as a machine of small steps. Every
 * effect a run has on any of them is one event, and a run may stop after any of them. Runs are
 * serial. What is not determined by the program is in the event: listings, the clock, the content of
 * the source, which removals succeed.
 */
module Protocol {
  import opened Wrappers
  import opened Backups
  import opened Retention
  import opened Chains
  import opened Pruning
  import opened PruningFacts
  import opened SnapshotPruning
  import opened BaseSelection

  // What a source puts in a backup and what restoring it does, for contents C and payloads P.
  // A full backup is what changed since nothing.
  datatype Codec<!C, !P> = Codec(empty: C, delta: (C, C) -> P, apply: (P, C) -> C)

  ghost predicate Lawful<C(!new), P>(k: Codec<C, P>) {
    forall a, b :: k.apply(k.delta(a, b), a) == b
  }

  // A destination: finished files, which are listed, and temporary ones, which are not. A temporary
  // file has its payload only once all of the stream is in it.
  datatype Store<P> = Store(files: map<Backup, P>, temps: map<Backup, Option<P>>)

  // os.WriteFile truncates before it writes; what it leaves in between does not parse.
  datatype StateFile = Missing | Broken | Recorded(state: State)

  datatype Job = Job(dest: string, opts: RunOptions, listing: seq<Backup>)

  // How far the current run is.
  datatype Run<P> =
    | Idle
    | Chosen(job: Job, base: Option<Snapshot>)
    | Streaming(job: Job, backup: Backup, payload: P, kept: bool)
    | Sent(job: Job, backup: Backup)
    | Writing(job: Job, backup: Backup, next: State)
    | Noted(job: Job, backup: Backup, state: State)
    | PruningSource(archives: seq<Snapshot>, bookmarks: seq<Snapshot>, after: Option<(Job, Backup)>)
    | PruningDest(dest: string, todo: seq<Backup>)

  // An archive or a bookmark lets a source tell what changed since its content. history and recorded
  // are never read by a run: the content of every snapshot ever taken, and the state last recorded.
  datatype World<C, P> = World(
    archives: map<Snapshot, C>, bookmarks: map<Snapshot, C>, dests: map<string, Store<P>>, file: StateFile, run: Run<P>,
    history: map<Snapshot, C>, recorded: State)

  function Initial<C, P>(): World<C, P> {
    World(map[], map[], map[], Missing, Idle, map[], map[])
  }

  datatype Event<C> =
    | BeginBackup(d: string, opts: RunOptions, listing: seq<Backup>,
                  bookmarks: seq<Snapshot>, archives: seq<Snapshot>, now: int)
    | CreateBackup(backup: Backup, content: C)
    | KeepSnapshot(archive: bool, bookmark: bool)
    | OpenTemp
    | FillTemp
    | AbortSend
    | RenameTemp
    | SkipState
    | TruncateState
    | WriteState
    | PlanSnapshots(archives: seq<Snapshot>, bookmarks: seq<Snapshot>)
    | RemoveArchive(ok: bool)
    | RemoveBookmark(ok: bool)
    | PlanBackups
    | RemoveBackup(ok: bool)
    | Finish
    | Stop
    | BeginPruneBackups(d: string, policies: seq<RetentionPolicy>, listing: seq<Backup>)
    | BeginPruneSnapshots(stateFile: bool, policies: seq<RetentionPolicy>,
                          archives: seq<Snapshot>, bookmarks: seq<Snapshot>)

  function StoreOf<P>(dests: map<string, Store<P>>, d: string): Store<P> {
    if d in dests then dests[d] else Store(map[], map[])
  }

  // Most recent first, and exactly what is there.
  ghost predicate IsListing(listing: seq<Backup>, there: set<Backup>) {
    NewestFirst(listing) && forall b :: b in listing <==> b in there
  }

  ghost predicate IsSnapshotListing(listing: seq<Snapshot>, there: set<Snapshot>) {
    && (forall i, j | 0 <= i < j < |listing| :: listing[i].rank > listing[j].rank)
    && forall s :: s in listing <==> s in there
  }

  // The content an incremental on base, or a full backup, is built on.
  function BaseContent<C, P>(k: Codec<C, P>, contents: map<Snapshot, C>, base: Option<Snapshot>): Option<C> {
    if base.None? then Some(k.empty)
    else if base.value in contents then Some(contents[base.value])
    else None
  }

  function PutFile<P>(dests: map<string, Store<P>>, d: string, st: Store<P>): map<string, Store<P>> {
    dests[d := st]
  }

  /* ---- The steps. None: the event cannot happen. ---- */

  ghost function BackupStarts<C, P>(w: World<C, P>, e: Event<C>): Option<World<C, P>>
    requires e.BeginBackup?
  {
    if !w.run.Idle? || !IsListing(e.listing, StoreOf(w.dests, e.d).files.Keys)
      || !IsSnapshotListing(e.bookmarks, w.bookmarks.Keys) || !IsSnapshotListing(e.archives, w.archives.Keys) then None
    else
      var job := Job(e.d, e.opts, e.listing);
      match Decide(e.listing, (set s | s in e.bookmarks) + (set s | s in e.archives), e.opts, e.now)
      case Fatal => None
      case Full => Some(w.(run := Chosen(job, None)))
      case Incremental(base) => Some(w.(run := Chosen(job, Some(base))))
  }

  // The source may answer with a full backup whatever base it is given.
  ghost function Creates<C, P>(k: Codec<C, P>, w: World<C, P>, b: Backup, content: C): Option<World<C, P>> {
    if !w.run.Chosen? || (b.base.Some? && b.base != w.run.base)
      || exists s | s in w.history :: s.rank >= b.snapshot.rank then None
    else
      var from := BaseContent(k, w.archives + w.bookmarks, b.base);
      if from.None? then None
      else Some(w.(
        run := Streaming(w.run.job, b, k.delta(from.value, content), false),
        history := w.history[b.snapshot := content]))
  }

  // The source makes the new snapshot a base for later runs, before its stream ends.
  ghost function Keeps<C, P>(w: World<C, P>, archive: bool, bookmark: bool): Option<World<C, P>> {
    if !w.run.Streaming? || w.run.kept || w.run.backup.snapshot !in w.history then None
    else
      var s := w.run.backup.snapshot;
      Some(w.(
        archives := if archive then w.archives[s := w.history[s]] else w.archives,
        bookmarks := if bookmark then w.bookmarks[s := w.history[s]] else w.bookmarks,
        run := w.run.(kept := true)))
  }

  ghost function Sends<C, P>(w: World<C, P>, e: Event<C>): Option<World<C, P>> {
    if !w.run.Streaming? then None
    else
      var d, b := w.run.job.dest, w.run.backup;
      var st := StoreOf(w.dests, d);
      match e
      case OpenTemp => Some(w.(dests := PutFile(w.dests, d, st.(temps := st.temps[b := None]))))
      case FillTemp =>
        if b !in st.temps || !w.run.kept then None
        else Some(w.(dests := PutFile(w.dests, d, st.(temps := st.temps[b := Some(w.run.payload)]))))
      case AbortSend => Some(w.(dests := PutFile(w.dests, d, st.(temps := st.temps - {b})), run := Idle))
      case RenameTemp =>
        if b !in st.temps || st.temps[b].None? || !w.run.kept then None
        else Some(w.(
          dests := PutFile(w.dests, d, Store(st.files[b := st.temps[b].value], st.temps - {b})),
          run := Sent(w.run.job, b)))
      case _ => None
  }

  ghost function NotesState<C, P>(w: World<C, P>, e: Event<C>): Option<World<C, P>> {
    match e
    case SkipState =>
      if !w.run.Sent? || w.run.job.opts.stateFile then None
      else Some(w.(run := Noted(w.run.job, w.run.backup, map[])))
    case TruncateState =>
      if !w.run.Sent? || !w.run.job.opts.stateFile || w.file.Broken? then None
      else
        var before: State := if w.file.Recorded? then w.file.state else map[];
        var next := before[w.run.job.dest := w.run.backup.snapshot];
        Some(w.(file := Broken, run := Writing(w.run.job, w.run.backup, next)))
    case WriteState =>
      if !w.run.Writing? then None
      else Some(w.(
        file := Recorded(w.run.next), recorded := w.run.next, run := Noted(w.run.job, w.run.backup, w.run.next)))
    case _ => None
  }

  // A failed plan is a warning; the run goes on as if there was nothing to prune.
  function SourcePlan<P>(archives: seq<Snapshot>, bookmarks: seq<Snapshot>, policies: seq<RetentionPolicy>,
                         state: State,
                         after: Option<(Job, Backup)>): (r: Run<P>)
    ensures r.PruningSource?
  {
    var p := PrunedSnapshots(archives, bookmarks, policies, state);
    if p.Failed? then PruningSource([], [], after) else PruningSource(p.value.archives, p.value.bookmarks, after)
  }

  ghost function DestPlan<P>(d: string, listing: seq<Backup>, policies: seq<RetentionPolicy>): Run<P> {
    var p := PrunedBackups(listing, policies);
    PruningDest(d, if p.Failed? then [] else p.value)
  }

  ghost function PrunesSource<C, P>(w: World<C, P>, e: Event<C>): Option<World<C, P>> {
    match e
    case PlanSnapshots(archives, bookmarks) =>
      if !w.run.Noted? || w.run.job.opts.noPrune
        || !IsSnapshotListing(bookmarks, w.bookmarks.Keys) || !IsSnapshotListing(archives, w.archives.Keys) then None
      else
        var after := Some((w.run.job, w.run.backup));
        Some(w.(run := SourcePlan(archives, bookmarks, w.run.job.opts.sourcePolicies, w.run.state, after)))
    case RemoveArchive(ok) =>
      if !w.run.PruningSource? || w.run.archives == [] then None
      else Some(w.(archives := if ok then w.archives - {w.run.archives[0]} else w.archives,
                   run := w.run.(archives := w.run.archives[1..])))
    case RemoveBookmark(ok) =>
      if !w.run.PruningSource? || w.run.archives != [] || w.run.bookmarks == [] then None
      else Some(w.(bookmarks := if ok then w.bookmarks - {w.run.bookmarks[0]} else w.bookmarks,
                   run := w.run.(bookmarks := w.run.bookmarks[1..])))
    case BeginPruneSnapshots(stateFile, policies, archives, bookmarks) =>
      // A configured state file that is missing makes it a dry run, one that does not parse ends it.
      if !w.run.Idle? || (stateFile && !w.file.Recorded?)
        || !IsSnapshotListing(bookmarks, w.bookmarks.Keys) || !IsSnapshotListing(archives, w.archives.Keys) then None
      else
        var state := if stateFile then w.file.state else map[];
        var p := PrunedSnapshots(archives, bookmarks, policies, state);
        if p.Failed? then None else Some(w.(run := SourcePlan(archives, bookmarks, policies, state, None)))
    case _ => None
  }

  ghost function PrunesDest<C, P>(w: World<C, P>, e: Event<C>): Option<World<C, P>> {
    match e
    case PlanBackups =>
      if !w.run.PruningSource? || w.run.archives != [] || w.run.bookmarks != [] || w.run.after.None? then None
      else
        var (job, b) := w.run.after.value;
        Some(w.(run := DestPlan(job.dest, [b] + job.listing, job.opts.destPolicies)))
    case RemoveBackup(ok) =>
      if !w.run.PruningDest? || w.run.todo == [] then None
      else
        var st := StoreOf(w.dests, w.run.dest);
        Some(w.(dests := if ok then PutFile(w.dests, w.run.dest, st.(files := st.files - {w.run.todo[0]})) else w.dests,
                run := w.run.(todo := w.run.todo[1..])))
    case BeginPruneBackups(d, policies, listing) =>
      if !w.run.Idle? || !IsListing(listing, StoreOf(w.dests, d).files.Keys)
        || PrunedBackups(listing, policies).Failed? then None
      else Some(w.(run := DestPlan(d, listing, policies)))
    case _ => None
  }

  predicate Finished<P>(run: Run<P>) {
    || (run.Noted? && run.job.opts.noPrune)
    || (run.PruningSource? && run.archives == [] && run.bookmarks == [] && run.after.None?)
    || (run.PruningDest? && run.todo == [])
  }

  ghost function Step<C, P>(k: Codec<C, P>, w: World<C, P>, e: Event<C>): Option<World<C, P>> {
    match e
    case BeginBackup(_, _, _, _, _, _) => BackupStarts(w, e)
    case CreateBackup(b, content) => Creates(k, w, b, content)
    case KeepSnapshot(archive, bookmark) => Keeps(w, archive, bookmark)
    case OpenTemp => Sends(w, e)
    case FillTemp => Sends(w, e)
    case AbortSend => Sends(w, e)
    case RenameTemp => Sends(w, e)
    case SkipState => NotesState(w, e)
    case TruncateState => NotesState(w, e)
    case WriteState => NotesState(w, e)
    case PlanSnapshots(_, _) => PrunesSource(w, e)
    case RemoveArchive(_) => PrunesSource(w, e)
    case RemoveBookmark(_) => PrunesSource(w, e)
    case BeginPruneSnapshots(_, _, _, _) => PrunesSource(w, e)
    case PlanBackups => PrunesDest(w, e)
    case RemoveBackup(_) => PrunesDest(w, e)
    case BeginPruneBackups(_, _, _) => PrunesDest(w, e)
    case Finish => if Finished(w.run) then Some(w.(run := Idle)) else None
    case Stop => Some(w.(run := Idle))
  }

  // Where a history of events leads, if it can happen at all.
  ghost function Execute<C, P>(k: Codec<C, P>, w: World<C, P>, events: seq<Event<C>>): Option<World<C, P>> {
    if events == [] then Some(w)
    else
      var before := Execute(k, w, events[..|events| - 1]);
      if before.None? then None else Step(k, before.value, events[|events| - 1])
  }

  /* ---- What every step keeps, whatever fails and wherever a run stops ---- */

  ghost predicate BackupOk<C, P>(k: Codec<C, P>, history: map<Snapshot, C>, b: Backup, p: P) {
    && b.snapshot in history && OlderBase(b)
    && BaseContent(k, history, b.base).Some?
    && p == k.delta(BaseContent(k, history, b.base).value, history[b.snapshot])
  }

  ghost predicate StoreOk<C, P>(k: Codec<C, P>, history: map<Snapshot, C>, st: Store<P>) {
    && (forall b | b in st.files :: BackupOk(k, history, b, st.files[b]))
    && (forall b | b in st.temps && st.temps[b].Some? :: BackupOk(k, history, b, st.temps[b].value))
    && (forall a, b | a in st.files && b in st.files :: a.snapshot.rank == b.snapshot.rank ==> a == b)
  }

  ghost predicate SourceOk<C>(kept: map<Snapshot, C>, history: map<Snapshot, C>) {
    forall s | s in kept :: s in history && kept[s] == history[s]
  }

  ghost predicate RunOk<C, P>(k: Codec<C, P>, w: World<C, P>) {
    match w.run
    case Chosen(job, base) =>
      && IsListing(job.listing, StoreOf(w.dests, job.dest).files.Keys)
      && (base.Some? ==> base.value in w.archives || base.value in w.bookmarks)
    case Streaming(job, b, p, _) =>
      && IsListing(job.listing, StoreOf(w.dests, job.dest).files.Keys)
      && BackupOk(k, w.history, b, p)
      && forall x | x in StoreOf(w.dests, job.dest).files :: x.snapshot.rank < b.snapshot.rank
    case Sent(job, b) => IsListing([b] + job.listing, StoreOf(w.dests, job.dest).files.Keys)
    case Writing(job, b, _) => IsListing([b] + job.listing, StoreOf(w.dests, job.dest).files.Keys)
    case Noted(job, b, _) => IsListing([b] + job.listing, StoreOf(w.dests, job.dest).files.Keys)
    case PruningSource(_, _, after) =>
      after.Some? ==>
        IsListing([after.value.1] + after.value.0.listing, StoreOf(w.dests, after.value.0.dest).files.Keys)
    case PruningDest(d, todo) => NewestFirst(todo) && forall b | b in todo :: b in StoreOf(w.dests, d).files
    case _ => true
  }

  // Snapshots ever taken have different ranks.
  ghost predicate RanksDiffer<C>(history: map<Snapshot, C>) {
    forall a, b | a in history && b in history && a.rank == b.rank :: a == b
  }

  ghost predicate Consistent<C, P>(k: Codec<C, P>, w: World<C, P>) {
    && RanksDiffer(w.history)
    && SourceOk(w.archives, w.history) && SourceOk(w.bookmarks, w.history)
    && (forall d | d in w.dests :: StoreOk(k, w.history, w.dests[d]))
    && RunOk(k, w)
  }

  lemma {:induction false} MoreHistory<C, P>(k: Codec<C, P>, history: map<Snapshot, C>, s: Snapshot, c: C, st: Store<P>)
    requires StoreOk(k, history, st) && s !in history
    ensures StoreOk(k, history[s := c], st)
  {
  }

  lemma {:induction false} CreateKeeps<C, P>(k: Codec<C, P>, w: World<C, P>, b: Backup, content: C)
    requires Consistent(k, w) && Creates(k, w, b, content).Some?
    ensures Consistent(k, Creates(k, w, b, content).value)
  {
    var w' := Creates(k, w, b, content).value;
    var st := StoreOf(w.dests, w.run.job.dest);
    forall d | d in w'.dests ensures StoreOk(k, w'.history, w'.dests[d]) {
      MoreHistory(k, w.history, b.snapshot, content, w.dests[d]);
    }
    assert b.snapshot !in w.history;
    if b.base.Some? {
      assert b.base.value in w.history;
    }
  }

  // A step that replaces one store and moves the run on.
  lemma {:induction false} StoreStep<C, P>(k: Codec<C, P>, w: World<C, P>, d: string, st: Store<P>, run: Run<P>)
    requires Consistent(k, w) && StoreOk(k, w.history, st)
    requires RunOk(k, w.(dests := PutFile(w.dests, d, st), run := run))
    ensures Consistent(k, w.(dests := PutFile(w.dests, d, st), run := run))
  {
  }

  lemma {:induction false} RenameKeeps<C, P>(k: Codec<C, P>, w: World<C, P>)
    requires Consistent(k, w) && Sends(w, RenameTemp).Some?
    ensures Consistent(k, Sends(w, RenameTemp).value)
  {
    var d, b, job := w.run.job.dest, w.run.backup, w.run.job;
    var st := StoreOf(w.dests, d);
    assert StoreOk(k, w.history, st);
    var st' := Store(st.files[b := st.temps[b].value], st.temps - {b});
    PrependListing(job.listing, b, st.files.Keys);
    assert st'.files.Keys == st.files.Keys + {b};
    StoreStep(k, w, d, st', Sent(job, b));
  }

  lemma {:induction false} PrependListing(listing: seq<Backup>, b: Backup, there: set<Backup>)
    requires IsListing(listing, there) && forall x | x in there :: x.snapshot.rank < b.snapshot.rank
    ensures IsListing([b] + listing, there + {b})
  {
  }

  lemma {:induction false} SendKeeps<C, P>(k: Codec<C, P>, w: World<C, P>, e: Event<C>)
    requires Consistent(k, w) && Sends(w, e).Some?
    ensures Consistent(k, Sends(w, e).value)
  {
    var d, b := w.run.job.dest, w.run.backup;
    var st := StoreOf(w.dests, d);
    assert StoreOk(k, w.history, st);
    match e
    case RenameTemp => RenameKeeps(k, w);
    case OpenTemp => StoreStep(k, w, d, st.(temps := st.temps[b := None]), w.run);
    case FillTemp => StoreStep(k, w, d, st.(temps := st.temps[b := Some(w.run.payload)]), w.run);
    case AbortSend => StoreStep(k, w, d, st.(temps := st.temps - {b}), Idle);
  }

  lemma {:induction false} PlanIsPart(listing: seq<Backup>, policies: seq<RetentionPolicy>, there: set<Backup>)
    requires IsListing(listing, there) && PrunedBackups(listing, policies).Ok?
    ensures NewestFirst(PrunedBackups(listing, policies).value)
    ensures forall b | b in PrunedBackups(listing, policies).value :: b in there
  {
    PrunedNewestFirst(listing, policies);
  }

  lemma {:induction false} TailStays(todo: seq<Backup>, there: set<Backup>)
    requires todo != [] && NewestFirst(todo) && forall b | b in todo :: b in there
    ensures NewestFirst(todo[1..]) && forall b | b in todo[1..] :: b in there - {todo[0]}
  {
  }

  lemma {:induction false} RemovalKeeps<C, P>(k: Codec<C, P>, w: World<C, P>, ok: bool)
    requires Consistent(k, w) && PrunesDest<C, P>(w, RemoveBackup(ok)).Some?
    ensures Consistent(k, PrunesDest<C, P>(w, RemoveBackup(ok)).value)
  {
    var d, todo := w.run.dest, w.run.todo;
    var st := StoreOf(w.dests, d);
    var rest := PruningDest(d, todo[1..]);
    assert StoreOk(k, w.history, st);
    TailStays(todo, st.files.Keys);
    if ok {
      assert (st.files - {todo[0]}).Keys == st.files.Keys - {todo[0]};
      StoreStep(k, w, d, st.(files := st.files - {todo[0]}), rest);
    }
  }

  lemma {:induction false} PruneDestKeeps<C, P>(k: Codec<C, P>, w: World<C, P>, e: Event<C>)
    requires Consistent(k, w) && PrunesDest(w, e).Some?
    ensures Consistent(k, PrunesDest(w, e).value)
  {
    match e
    case PlanBackups =>
      var (job, b) := w.run.after.value;
      if PrunedBackups([b] + job.listing, job.opts.destPolicies).Ok? {
        PlanIsPart([b] + job.listing, job.opts.destPolicies, StoreOf(w.dests, job.dest).files.Keys);
      }
    case BeginPruneBackups(d, policies, listing) =>
      PlanIsPart(listing, policies, StoreOf(w.dests, d).files.Keys);
    case RemoveBackup(ok) => RemovalKeeps(k, w, ok);
  }

  lemma {:induction false} StartKeeps<C, P>(k: Codec<C, P>, w: World<C, P>, e: Event<C>)
    requires Consistent(k, w) && e.BeginBackup? && BackupStarts(w, e).Some?
    ensures Consistent(k, BackupStarts(w, e).value)
  {
    hide Decide, IsListing, StoreOk, RanksDiffer;
    BaseIsKept(e.listing, (set s | s in e.bookmarks) + (set s | s in e.archives), e.opts, e.now);
  }

  lemma {:induction false} KeepKeeps<C, P>(k: Codec<C, P>, w: World<C, P>, archive: bool, bookmark: bool)
    requires Consistent(k, w) && Keeps(w, archive, bookmark).Some?
    ensures Consistent(k, Keeps(w, archive, bookmark).value)
  {
  }

  lemma {:induction false} StateKeeps<C, P>(k: Codec<C, P>, w: World<C, P>, e: Event<C>)
    requires Consistent(k, w) && NotesState(w, e).Some?
    ensures Consistent(k, NotesState(w, e).value)
  {
  }

  lemma {:induction false} PruneSourceKeeps<C, P>(k: Codec<C, P>, w: World<C, P>, e: Event<C>)
    requires Consistent(k, w) && PrunesSource(w, e).Some?
    ensures Consistent(k, PrunesSource(w, e).value)
  {
  }

  lemma {:induction false} StepKeepsConsistent<C, P>(k: Codec<C, P>, w: World<C, P>, e: Event<C>)
    requires Consistent(k, w) && Step(k, w, e).Some?
    ensures Consistent(k, Step(k, w, e).value)
  {
    hide BackupStarts, Creates, Keeps, Sends, NotesState, PrunesSource, PrunesDest;
    match e
    case BeginBackup(_, _, _, _, _, _) => StartKeeps(k, w, e);
    case CreateBackup(b, content) => CreateKeeps(k, w, b, content);
    case KeepSnapshot(archive, bookmark) => KeepKeeps(k, w, archive, bookmark);
    case OpenTemp => SendKeeps(k, w, e);
    case FillTemp => SendKeeps(k, w, e);
    case AbortSend => SendKeeps(k, w, e);
    case RenameTemp => SendKeeps(k, w, e);
    case SkipState => StateKeeps(k, w, e);
    case TruncateState => StateKeeps(k, w, e);
    case WriteState => StateKeeps(k, w, e);
    case PlanSnapshots(_, _) => PruneSourceKeeps(k, w, e);
    case RemoveArchive(_) => PruneSourceKeeps(k, w, e);
    case RemoveBookmark(_) => PruneSourceKeeps(k, w, e);
    case BeginPruneSnapshots(_, _, _, _) => PruneSourceKeeps(k, w, e);
    case PlanBackups => PruneDestKeeps(k, w, e);
    case RemoveBackup(_) => PruneDestKeeps(k, w, e);
    case BeginPruneBackups(_, _, _) => PruneDestKeeps(k, w, e);
    case Finish =>
    case Stop =>
  }

  lemma {:induction false} BaseIsKept(listing: seq<Backup>, snapshots: set<Snapshot>, opts: RunOptions, now: int)
    ensures Decide(listing, snapshots, opts, now).Incremental? ==>
      Decide(listing, snapshots, opts, now).base in snapshots
      && exists b | b in listing :: b.snapshot == Decide(listing, snapshots, opts, now).base
  {
    if Decide(listing, snapshots, opts, now).Incremental? {
      WhenIncremental(listing, snapshots, opts, now, Decide(listing, snapshots, opts, now).base);
    }
  }

  lemma {:induction false} AlwaysConsistent<C, P>(k: Codec<C, P>, events: seq<Event<C>>)
    requires Execute(k, Initial(), events).Some?
    ensures Consistent(k, Execute(k, Initial(), events).value)
  {
    if events != [] {
      var before := events[..|events| - 1];
      AlwaysConsistent(k, before);
      StepKeepsConsistent(k, Execute(k, Initial(), before).value, events[|events| - 1]);
    }
  }

  lemma {:induction false} ExecuteMore<C, P>(k: Codec<C, P>, w: World<C, P>, events: seq<Event<C>>, e: Event<C>)
    requires Execute(k, w, events).Some?
    ensures Execute(k, w, events + [e]) == Step(k, Execute(k, w, events).value, e)
  {
  }
}
