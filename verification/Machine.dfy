/**
 * The commands that change a source, its destinations and its state file, as methods on that state.
 * Every effect is logged as the event of Protocol it is, so that what is proved of every sequence of
 * events holds of whatever the commands do.
 */
module Machine {
  import opened Wrappers
  import opened Backups
  import opened Sequences
  import opened Retention
  import opened Chains
  import opened Pruning
  import opened SnapshotPruning
  import opened BaseSelection
  import opened Protocol
  import opened EndToEnd

  // How creating the backup ends. The source may have kept its new snapshot before it fails.
  datatype Creation = Created | NotMade(kept: bool)

  // How sending ends: the temporary file cannot be made or the stream breaks off, before or after the
  // source has kept its snapshot, the file cannot be renamed, or all is well.
  datatype Sending = Delivered | NotOpened(kept: bool) | Interrupted(kept: bool) | NotRenamed {
    predicate Keeps() {
      Delivered? || NotRenamed? || kept
    }
  }

  // The state file can be read and written, or not, or is left half-written.
  datatype StateWrite = Saved | NotSaved | Torn

  // What the surroundings decide during a backup run: the clock, the name and content of the new
  // snapshot, whether the source answers with a full backup anyway and how it keeps the snapshot,
  // what fails and which removals succeed.
  datatype Surroundings<!C> = Surroundings(
    now: int, snapshot: Snapshot, content: C, answersFull: bool, archive: bool, bookmark: bool,
    lists: bool, creation: Creation, sending: Sending, stateWrite: StateWrite,
    snapshotRemovable: Snapshot -> bool, backupRemovable: Backup -> bool)

  /* ---- Sorted listings ---- */

  function InsertByRank<T>(x: T, sorted: seq<T>, rank: T -> nat): seq<T> {
    if sorted == [] || rank(x) > rank(sorted[0]) then [x] + sorted
    else [sorted[0]] + InsertByRank(x, sorted[1..], rank)
  }

  ghost predicate Descending<T>(s: seq<T>, rank: T -> nat) {
    forall i, j | 0 <= i < j < |s| :: rank(s[i]) > rank(s[j])
  }

  lemma {:induction false} InsertMember<T>(x: T, sorted: seq<T>, rank: T -> nat, y: T)
    ensures y in InsertByRank(x, sorted, rank) <==> y == x || y in sorted
  {
    if sorted != [] && rank(x) <= rank(sorted[0]) {
      InsertMember(x, sorted[1..], rank, y);
      assert y in sorted <==> y == sorted[0] || y in sorted[1..];
    }
  }

  lemma {:induction false} InsertKeepsOrder<T>(x: T, sorted: seq<T>, rank: T -> nat)
    requires Descending(sorted, rank) && forall y | y in sorted :: rank(y) != rank(x)
    ensures Descending(InsertByRank(x, sorted, rank), rank)
  {
    if sorted != [] && rank(x) <= rank(sorted[0]) {
      var rest := sorted[1..];
      assert forall y | y in rest :: y in sorted;
      InsertKeepsOrder(x, rest, rank);
      var more := InsertByRank(x, rest, rank);
      forall j | 0 <= j < |more| ensures rank(sorted[0]) > rank(more[j]) {
        InsertMember(x, rest, rank, more[j]);
        assert more[j] in more && sorted[0] in sorted;
        if more[j] != x {
          var i :| 0 <= i < |rest| && rest[i] == more[j];
          assert sorted[i + 1] == more[j];
        }
      }
    }
  }

  // Listing in any order, then sorting most recent first.
  method SortedList<T(==, !new)>(there: set<T>, rank: T -> nat) returns (listing: seq<T>)
    requires forall x, y | x in there && y in there && rank(x) == rank(y) :: x == y
    ensures Descending(listing, rank) && forall x :: x in listing <==> x in there
  {
    listing := [];
    var todo := there;
    while todo != {}
      invariant todo <= there && Descending(listing, rank)
      invariant forall x :: x in listing <==> x in there && x !in todo
      decreases todo
    {
      var x :| x in todo;
      InsertKeepsOrder(x, listing, rank);
      forall y ensures y in InsertByRank(x, listing, rank) <==> y == x || y in listing {
        InsertMember(x, listing, rank, y);
      }
      todo := todo - {x};
      listing := InsertByRank(x, listing, rank);
    }
  }

  lemma {:induction false} ListedWalksEnd<C, P>(k: Codec<C, P>, history: map<Snapshot, C>, st: Store<P>,
                                                listing: seq<Backup>)
    requires StoreOk(k, history, st) && IsListing(listing, st.files.Keys)
    ensures DistinctNames(listing) && AllWalksEnd(listing)
  {
    ListingIndex(k, history, st, listing);
    forall b | b in listing ensures WalkEnds(b, IndexOf(listing)) {
      assert BackupOk(k, history, b, st.files[b]);
      OlderBasesEnd(b, IndexOf(listing));
    }
  }

  class Uback<C(!new), P> {
    const codec: Codec<C, P>
    var archives: map<Snapshot, C>
    var bookmarks: map<Snapshot, C>
    var dests: map<string, Store<P>>
    var file: StateFile
    ghost var events: seq<Event<C>>
    ghost var run: Run<P>
    ghost var history: map<Snapshot, C>
    ghost var recorded: State

    ghost function World(): World<C, P>
      reads this
    {
      Protocol.World(archives, bookmarks, dests, file, run, history, recorded)
    }

    // The state is where the logged events lead.
    ghost predicate Valid()
      reads this
    {
      Execute(codec, Initial(), events) == Some(World())
    }

    constructor (codec: Codec<C, P>)
      ensures this.codec == codec && Valid() && events == [] && run.Idle?
    {
      this.codec := codec;
      archives, bookmarks, dests, file := map[], map[], map[], Missing;
      events, run, history, recorded := [], Idle, map[], map[];
    }

    // Log an effect that has just been carried out.
    ghost method Log(e: Event<C>, before: World<C, P>)
      requires Execute(codec, Initial(), events) == Some(before)
      requires Step(codec, before, e).Some?
      requires var after := Step(codec, before, e).value;
        archives == after.archives && bookmarks == after.bookmarks && dests == after.dests && file == after.file
      modifies this`events, this`run, this`history, this`recorded
      ensures Valid() && events == old(events) + [e] && World() == Step(codec, before, e).value
    {
      hide Step, Execute;
      var after := Step(codec, before, e).value;
      ExecuteMore(codec, Initial(), events, e);
      events, run, history, recorded := events + [e], after.run, after.history, after.recorded;
    }

    method SortedListBackups(d: string) returns (listing: seq<Backup>)
      requires Valid()
      ensures IsListing(listing, StoreOf(dests, d).files.Keys)
    {
      AlwaysConsistent(codec, events);
      assert StoreOk(codec, history, StoreOf(dests, d));
      listing := SortedList(StoreOf(dests, d).files.Keys, (b: Backup) => b.snapshot.rank);
    }

    method SortedListArchives() returns (listing: seq<Snapshot>)
      requires Valid()
      ensures IsSnapshotListing(listing, archives.Keys)
    {
      AlwaysConsistent(codec, events);
      listing := SortedList(archives.Keys, (s: Snapshot) => s.rank);
    }

    method SortedListBookmarks() returns (listing: seq<Snapshot>)
      requires Valid()
      ensures IsSnapshotListing(listing, bookmarks.Keys)
    {
      AlwaysConsistent(codec, events);
      listing := SortedList(bookmarks.Keys, (s: Snapshot) => s.rank);
    }

    /* ---- Deletions ---- */

    // The source's RemoveArchive, which may fail.
    method RemoveArchive(s: Snapshot, ok: bool)
      requires Valid() && run.PruningSource? && run.archives != [] && run.archives[0] == s
      modifies this
      ensures Valid() && run == old(run).(archives := old(run).archives[1..]) &&
        events == old(events) + [Event.RemoveArchive(ok)]
      ensures archives == if ok then old(archives) - {s} else old(archives)
      ensures unchanged(this`bookmarks, this`dests, this`file, this`history, this`recorded)
    {
      ghost var before := World();
      if ok {
        archives := archives - {s};
      }
      Log(Event.RemoveArchive(ok), before);
    }

    method RemoveBookmark(s: Snapshot, ok: bool)
      requires Valid() && run.PruningSource? && run.archives == [] && run.bookmarks != [] && run.bookmarks[0] == s
      modifies this
      ensures Valid() && run == old(run).(bookmarks := old(run).bookmarks[1..]) &&
        events == old(events) + [Event.RemoveBookmark(ok)]
      ensures bookmarks == if ok then old(bookmarks) - {s} else old(bookmarks)
      ensures unchanged(this`archives, this`dests, this`file, this`history, this`recorded)
    {
      ghost var before := World();
      if ok {
        bookmarks := bookmarks - {s};
      }
      Log(Event.RemoveBookmark(ok), before);
    }

    // The destination's RemoveBackup, which may fail.
    method RemoveBackup(d: string, b: Backup, ok: bool)
      requires Valid() && run.PruningDest? && run.dest == d && run.todo != [] && run.todo[0] == b
      modifies this
      ensures Valid() && run == PruningDest(d, old(run).todo[1..]) && events == old(events) + [Event.RemoveBackup(ok)]
      ensures StoreOf(dests, d) ==
        if ok then old(StoreOf(dests, d)).(files := old(StoreOf(dests, d)).files - {b}) else old(StoreOf(dests, d))
      ensures forall x | x != d :: StoreOf(dests, x) == old(StoreOf(dests, x))
      ensures unchanged(this`archives, this`bookmarks, this`file, this`history, this`recorded)
    {
      ghost var before := World();
      if ok {
        var st := StoreOf(dests, d);
        dests := PutFile(dests, d, st.(files := st.files - {b}));
      }
      Log(Event.RemoveBackup(ok), before);
    }

    // Delete what is planned, one by one, going on when a removal fails.
    method RemoveArchives(plan: seq<Snapshot>, removable: Snapshot -> bool)
      requires Valid() && run.PruningSource? && run.archives == plan
      modifies this
      ensures Valid() && run == old(run).(archives := []) && Continues(old(events))
      ensures archives == Spared(old(archives), plan, removable)
      ensures unchanged(this`bookmarks, this`dests, this`file, this`history, this`recorded)
    {
      hide Valid;
      for i := 0 to |plan|
        invariant Valid() && run == old(run).(archives := plan[i..]) && Continues(old(events))
        invariant archives == Spared(old(archives), plan[..i], removable)
        invariant unchanged(this`bookmarks, this`dests, this`file, this`history, this`recorded)
      {
        TakeStep(plan, i);
        assert plan[i..][1..] == plan[i + 1..];
        RemoveArchive(plan[i], removable(plan[i]));
      }
      TakeAll(plan);
    }

    method RemoveBookmarks(plan: seq<Snapshot>, removable: Snapshot -> bool)
      requires Valid() && run.PruningSource? && run.archives == [] && run.bookmarks == plan
      modifies this
      ensures Valid() && run == old(run).(bookmarks := []) && Continues(old(events))
      ensures bookmarks == Spared(old(bookmarks), plan, removable)
      ensures unchanged(this`archives, this`dests, this`file, this`history, this`recorded)
    {
      hide Valid;
      for i := 0 to |plan|
        invariant Valid() && run == old(run).(bookmarks := plan[i..]) && Continues(old(events))
        invariant bookmarks == Spared(old(bookmarks), plan[..i], removable)
        invariant unchanged(this`archives, this`dests, this`file, this`history, this`recorded)
      {
        TakeStep(plan, i);
        assert plan[i..][1..] == plan[i + 1..];
        RemoveBookmark(plan[i], removable(plan[i]));
      }
      TakeAll(plan);
    }

    method RemoveBackups(d: string, plan: seq<Backup>, removable: Backup -> bool)
      requires Valid() && run == PruningDest(d, plan)
      modifies this
      ensures Valid() && run == PruningDest(d, []) && Continues(old(events))
      ensures StoreOf(dests, d) ==
        Store(SparedFiles(old(StoreOf(dests, d).files), plan, removable), old(StoreOf(dests, d).temps))
      ensures forall x | x != d :: StoreOf(dests, x) == old(StoreOf(dests, x))
      ensures unchanged(this`archives, this`bookmarks, this`file, this`history, this`recorded)
    {
      hide Valid;
      for i := 0 to |plan|
        invariant Valid() && run == PruningDest(d, plan[i..]) && Continues(old(events))
        invariant StoreOf(dests, d) ==
          Store(SparedFiles(old(StoreOf(dests, d).files), plan[..i], removable), old(StoreOf(dests, d).temps))
        invariant forall x | x != d :: StoreOf(dests, x) == old(StoreOf(dests, x))
        invariant unchanged(this`archives, this`bookmarks, this`file, this`history, this`recorded)
      {
        TakeStep(plan, i);
        assert plan[i..][1..] == plan[i + 1..];
        RemoveBackup(d, plan[i], removable(plan[i]));
      }
      TakeAll(plan);
    }

    /* ---- uback prune ---- */

    ghost method StartPruneBackups(d: string, policies: seq<RetentionPolicy>, listing: seq<Backup>)
      requires Valid() && run.Idle? && IsListing(listing, StoreOf(dests, d).files.Keys) &&
        PrunedBackups(listing, policies).Ok?
      modifies this`events, this`run, this`history, this`recorded
      ensures Valid() && events == old(events) + [BeginPruneBackups(d, policies, listing)]
      ensures run == PruningDest(d, PrunedBackups(listing, policies).value)
      ensures unchanged(this`history, this`recorded)
    {
      Log(BeginPruneBackups(d, policies, listing), World());
    }

    ghost method StartPruneSnapshots(stateFile: bool, policies: seq<RetentionPolicy>, archs: seq<Snapshot>,
                                     marks: seq<Snapshot>)
      requires Valid() && run.Idle? && (stateFile ==> file.Recorded?)
      requires IsSnapshotListing(archs, archives.Keys) && IsSnapshotListing(marks, bookmarks.Keys)
      requires PrunedSnapshots(archs, marks, policies, if stateFile then file.state else map[]).Ok?
      modifies this`events, this`run, this`history, this`recorded
      ensures Valid() && events == old(events) + [BeginPruneSnapshots(stateFile, policies, archs, marks)]
      ensures run == SourcePlan(archs, marks, policies, if stateFile then file.state else map[], None)
      ensures unchanged(this`history, this`recorded)
    {
      Log(BeginPruneSnapshots(stateFile, policies, archs, marks), World());
    }

    ghost method End()
      requires Valid() && Finished(run)
      modifies this`events, this`run, this`history, this`recorded
      ensures Valid() && run.Idle? && events == old(events) + [Finish] && unchanged(this`history, this`recorded)
    {
      Log(Finish, World());
    }

    // cmdPruneBackups without --dry-run. False: the plan failed and the command ended.
    method PruneBackups(d: string, policies: seq<RetentionPolicy>, removable: Backup -> bool)
      returns (ok: bool, ghost listing: seq<Backup>)
      requires Valid() && run.Idle?
      modifies this
      ensures Valid() && run.Idle? && Continues(old(events))
      ensures IsListing(listing, old(StoreOf(dests, d)).files.Keys) && ok == PrunedBackups(listing, policies).Ok?
      ensures StoreOf(dests, d).files ==
        SparedFiles(old(StoreOf(dests, d)).files, Planned(listing, policies), removable)
      ensures forall x | x != d :: StoreOf(dests, x) == old(StoreOf(dests, x))
      ensures unchanged(this`archives, this`bookmarks, this`file, this`history, this`recorded)
    {
      hide Valid, PrunedBackups, IsListing;
      var allBackups := SortedListBackups(d);
      listing := allBackups;
      WalksEnd(d, allBackups);
      var plan := GetPrunedBackups(allBackups, policies);
      if plan.Failed? {
        return false, listing;
      }
      StartPruneBackups(d, policies, allBackups);
      RemoveBackups(d, plan.value, removable);
      End();
      ok := true;
    }

    // What is listed has distinct names and chains that end.
    lemma {:induction false} WalksEnd(d: string, listing: seq<Backup>)
      requires Valid() && IsListing(listing, StoreOf(dests, d).files.Keys)
      ensures DistinctNames(listing) && AllWalksEnd(listing)
    {
      AlwaysConsistent(codec, events);
      var st := StoreOf(dests, d);
      assert StoreOk(codec, history, st);
      ListedWalksEnd(codec, history, st, listing);
    }

    // cmdPruneSnapshots. With a state file that is not there it is a dry run, with one that does not
    // parse it ends.
    method PruneSnapshots(stateFile: bool, policies: seq<RetentionPolicy>, removable: Snapshot -> bool)
      returns (ok: bool, ghost archs: seq<Snapshot>, ghost marks: seq<Snapshot>)
      requires Valid() && run.Idle?
      modifies this
      ensures Valid() && run.Idle? && Continues(old(events))
      ensures IsSnapshotListing(archs, old(archives).Keys) && IsSnapshotListing(marks, old(bookmarks).Keys)
      ensures var plan := PrunedSnapshots(archs, marks, policies, StateOf(stateFile, file));
        && ok == (!(stateFile && file.Broken?) && plan.Ok?)
        && (ok && !(stateFile && file.Missing?) ==>
              && archives == Spared(old(archives), plan.value.archives, removable)
              && bookmarks == Spared(old(bookmarks), plan.value.bookmarks, removable))
      ensures !ok || (stateFile && file.Missing?) ==> archives == old(archives) && bookmarks == old(bookmarks)
      ensures unchanged(this`dests, this`file, this`history, this`recorded)
    {
      hide Valid, PrunedSnapshots, IsSnapshotListing, Spared;
      var listed := SortedListArchives();
      var marked := SortedListBookmarks();
      archs, marks := listed, marked;
      var dryRun := stateFile && file.Missing?;
      if stateFile && file.Broken? {
        return false, archs, marks;
      }
      var plan := GetPrunedSnapshots(listed, marked, policies, StateOf(stateFile, file));
      if plan.Failed? {
        return false, archs, marks;
      }
      if !dryRun {
        StartPruneSnapshots(stateFile, policies, archs, marks);
        RemoveArchives(plan.value.archives, removable);
        RemoveBookmarks(plan.value.bookmarks, removable);
        End();
      }
      ok := true;
    }

    /* ---- uback backup ---- */

    // The source's CreateBackup: a new snapshot, incremental on the base it is given or full.
    method CreateBackup(base: Option<Snapshot>, env: Surroundings<C>) returns (b: Backup, payload: P)
      requires Valid() && run.Chosen? && run.base == base
      requires forall s | s in history :: s.rank < env.snapshot.rank
      modifies this
      ensures b == Backup(env.snapshot, if env.answersFull then None else base)
      ensures b.base.Some? ==> b.base.value in old(history)
      ensures payload == codec.delta(if b.base.Some? then old(history)[b.base.value] else codec.empty, env.content)
      ensures Valid() && run == Streaming(old(run).job, b, payload, false) &&
        events == old(events) + [Event.CreateBackup(b, env.content)]
      ensures history == old(history)[env.snapshot := env.content]
      ensures unchanged(this`archives, this`bookmarks, this`dests, this`file, this`recorded)
    {
      AlwaysConsistent(codec, events);
      b := Backup(env.snapshot, if env.answersFull then None else base);
      var from := BaseContent(codec, archives + bookmarks, b.base);
      payload := codec.delta(from.value, env.content);
      Log(Event.CreateBackup(b, env.content), World());
    }

    // The destination's SendBackup: to a temporary file, which is renamed once it is whole and goes
    // when anything fails. The source has kept its snapshot by the time its stream ends.
    method SendBackup(d: string, b: Backup, payload: P, env: Surroundings<C>) returns (ok: bool)
      requires Valid() && run.Streaming? && run == Streaming(run.job, b, payload, false) && run.job.dest == d
      requires b.snapshot in history && history[b.snapshot] == env.content
      modifies this
      ensures Valid() && ok == env.sending.Delivered?
      ensures ok ==> run == Sent(old(run).job, b)
      ensures ok ==> events == old(events) + [OpenTemp, KeepSnapshot(env.archive, env.bookmark), FillTemp, RenameTemp]
      ensures ok ==>
        StoreOf(dests, d) == Store(old(StoreOf(dests, d)).files[b := payload], old(StoreOf(dests, d)).temps - {b})
      ensures !ok ==> run.Idle? && StoreOf(dests, d).files == old(StoreOf(dests, d)).files
      ensures !ok ==>
        StoreOf(dests, d).temps == old(StoreOf(dests, d)).temps - (if env.sending.NotOpened? then {} else {b})
      ensures forall x | x != d :: StoreOf(dests, x) == old(StoreOf(dests, x))
      ensures archives == With(old(archives), env.archive && env.sending.Keeps(), b.snapshot, env.content)
      ensures bookmarks == With(old(bookmarks), env.bookmark && env.sending.Keeps(), b.snapshot, env.content)
      ensures unchanged(this`file, this`history, this`recorded)
    {
      hide Valid, With;
      ok := env.sending.Delivered?;
      if env.sending.NotOpened? {
        KeepOrNot(b, env, env.sending.kept);
        Die();
        return;
      }
      if env.sending.Interrupted? {
        BreakOff(d, b, env);
        return;
      }
      FillAll(d, b, payload, env);
      if env.sending.NotRenamed? {
        Abort(d, b);
      } else {
        Rename(d, b, payload);
      }
    }

    lemma {:induction false} NothingKept(kept: map<Snapshot, C>, s: Snapshot, content: C)
      ensures With(kept, false, s, content) == kept
    {
    }

    // The temporary file gets the whole stream, and the source keeps its snapshot.
    method FillAll(d: string, b: Backup, payload: P, env: Surroundings<C>)
      requires Valid() && run.Streaming? && run == Streaming(run.job, b, payload, false) && run.job.dest == d
      requires b.snapshot in history && history[b.snapshot] == env.content
      modifies this
      ensures Valid() && run == old(run).(kept := true)
      ensures events == old(events) + [OpenTemp, KeepSnapshot(env.archive, env.bookmark), FillTemp]
      ensures b in StoreOf(dests, d).temps && StoreOf(dests, d).temps[b] == Some(payload)
      ensures StoreOf(dests, d).files == old(StoreOf(dests, d)).files
      ensures StoreOf(dests, d).temps - {b} == old(StoreOf(dests, d)).temps - {b}
      ensures forall x | x != d :: StoreOf(dests, x) == old(StoreOf(dests, x))
      ensures archives == With(old(archives), env.archive, b.snapshot, env.content)
      ensures bookmarks == With(old(bookmarks), env.bookmark, b.snapshot, env.content)
      ensures unchanged(this`file, this`history, this`recorded)
    {
      hide Valid, With;
      WriteTemp(d, b, None, OpenTemp);
      KeepNew(b, env);
      WriteTemp(d, b, Some(payload), FillTemp);
      assert old(StoreOf(dests, d)).temps[b := None][b := Some(payload)] - {b} == old(StoreOf(dests, d)).temps - {b};
    }

    // The stream breaks off before all of it is in the temporary file.
    method BreakOff(d: string, b: Backup, env: Surroundings<C>)
      requires Valid() && run.Streaming? && !run.kept && run.job.dest == d && run.backup == b
      requires env.sending.Interrupted?
      requires b.snapshot in history && history[b.snapshot] == env.content
      modifies this
      ensures Valid() && run.Idle?
      ensures StoreOf(dests, d) == Store(old(StoreOf(dests, d)).files, old(StoreOf(dests, d)).temps - {b})
      ensures forall x | x != d :: StoreOf(dests, x) == old(StoreOf(dests, x))
      ensures archives == With(old(archives), env.archive && env.sending.kept, b.snapshot, env.content)
      ensures bookmarks == With(old(bookmarks), env.bookmark && env.sending.kept, b.snapshot, env.content)
      ensures unchanged(this`file, this`history, this`recorded)
    {
      hide Valid, With;
      WriteTemp(d, b, None, OpenTemp);
      KeepOrNot(b, env, env.sending.kept);
      Abort(d, b);
    }

    // What fails next fails before or after the source has kept its snapshot.
    method KeepOrNot(b: Backup, env: Surroundings<C>, keeps: bool)
      requires Valid() && run.Streaming? && !run.kept && run.backup == b
      requires b.snapshot in history && history[b.snapshot] == env.content
      modifies this`archives, this`bookmarks, this`events, this`run, this`history, this`recorded
      ensures Valid() && run.Streaming? && run.job == old(run).job && run.backup == b
      ensures archives == With(old(archives), env.archive && keeps, b.snapshot, env.content)
      ensures bookmarks == With(old(bookmarks), env.bookmark && keeps, b.snapshot, env.content)
      ensures unchanged(this`history, this`recorded)
    {
      hide Valid, With;
      if keeps {
        KeepNew(b, env);
      } else {
        NothingKept(archives, b.snapshot, env.content);
        NothingKept(bookmarks, b.snapshot, env.content);
      }
    }

    // The temporary file goes, and the run with it.
    method Abort(d: string, b: Backup)
      requires Valid() && run.Streaming? && run.job.dest == d && run.backup == b
      modifies this`dests, this`events, this`run, this`history, this`recorded
      ensures Valid() && run.Idle? && events == old(events) + [AbortSend]
      ensures StoreOf(dests, d) == Store(old(StoreOf(dests, d)).files, old(StoreOf(dests, d)).temps - {b})
      ensures forall x | x != d :: StoreOf(dests, x) == old(StoreOf(dests, x))
      ensures unchanged(this`history, this`recorded)
    {
      ghost var before := World();
      var st := StoreOf(dests, d);
      dests := PutFile(dests, d, st.(temps := st.temps - {b}));
      Log(AbortSend, before);
    }

    method Rename(d: string, b: Backup, payload: P)
      requires Valid() && run.Streaming? && run.kept && run.job.dest == d && run.backup == b
      requires b in StoreOf(dests, d).temps && StoreOf(dests, d).temps[b] == Some(payload)
      modifies this`dests, this`events, this`run, this`history, this`recorded
      ensures Valid() && run == Sent(old(run).job, b) && events == old(events) + [RenameTemp]
      ensures StoreOf(dests, d) == Store(old(StoreOf(dests, d)).files[b := payload], old(StoreOf(dests, d)).temps - {b})
      ensures forall x | x != d :: StoreOf(dests, x) == old(StoreOf(dests, x))
      ensures unchanged(this`history, this`recorded)
    {
      ghost var before := World();
      var st := StoreOf(dests, d);
      dests := PutFile(dests, d, Store(st.files[b := payload], st.temps - {b}));
      Log(RenameTemp, before);
    }

    method WriteTemp(d: string, b: Backup, content: Option<P>, ghost e: Event<C>)
      requires Valid() && run.Streaming? && run.job.dest == d && run.backup == b
      requires
        || (e == OpenTemp && content.None?)
        || (e == FillTemp && content == Some(run.payload) && run.kept && b in StoreOf(dests, d).temps)
      modifies this`dests, this`events, this`run, this`history, this`recorded
      ensures Valid() && run == old(run) && events == old(events) + [e]
      ensures StoreOf(dests, d) == Store(old(StoreOf(dests, d)).files, old(StoreOf(dests, d)).temps[b := content])
      ensures forall x | x != d :: StoreOf(dests, x) == old(StoreOf(dests, x))
      ensures unchanged(this`history, this`recorded)
    {
      ghost var before := World();
      var st := StoreOf(dests, d);
      dests := PutFile(dests, d, st.(temps := st.temps[b := content]));
      Log(e, before);
    }

    method KeepNew(b: Backup, env: Surroundings<C>)
      requires Valid() && run.Streaming? && !run.kept && run.backup == b
      requires b.snapshot in history && history[b.snapshot] == env.content
      modifies this`archives, this`bookmarks, this`events, this`run, this`history, this`recorded
      ensures Valid() && run == old(run).(kept := true) &&
        events == old(events) + [KeepSnapshot(env.archive, env.bookmark)]
      ensures archives == With(old(archives), env.archive, b.snapshot, env.content)
      ensures bookmarks == With(old(bookmarks), env.bookmark, b.snapshot, env.content)
      ensures unchanged(this`history, this`recorded)
    {
      ghost var before := World();
      if env.archive {
        archives := archives[b.snapshot := env.content];
      }
      if env.bookmark {
        bookmarks := bookmarks[b.snapshot := env.content];
      }
      Log(KeepSnapshot(env.archive, env.bookmark), before);
    }

    // Read, change and rewrite the state file. False: it does not parse, or reading or writing it
    // failed, and the run ends.
    method NoteState(d: string, b: Backup, stateFile: bool, write: StateWrite) returns (ok: bool, state: State)
      requires Valid() && run.Sent? && run.backup == b && run.job.dest == d && run.job.opts.stateFile == stateFile
      modifies this`file, this`events, this`run, this`history, this`recorded
      ensures Valid() && Continues(old(events)) && history == old(history)
      ensures ok == StateIsNoted(stateFile, old(file), write)
      ensures !ok ==> file == if write.Torn? then Broken else old(file)
      ensures ok ==> run == Noted(old(run).job, b, state)
      ensures ok && stateFile ==> file == Recorded(state) && state == NextState(old(file), d, b.snapshot)
      ensures !stateFile ==> file == old(file) && state == map[]
    {
      hide Valid;
      state := map[];
      if !stateFile {
        Skip();
        return true, state;
      }
      if file.Broken? || write.NotSaved? {
        return false, state;
      }
      state := if file.Recorded? then file.state else map[];
      state := state[d := b.snapshot];
      Truncate(state);
      if write.Torn? {
        return false, state;
      }
      Rewrite(state);
      ok := true;
    }

    ghost method Skip()
      requires Valid() && run.Sent? && !run.job.opts.stateFile
      modifies this`events, this`run, this`history, this`recorded
      ensures Valid() && run == Noted(old(run).job, old(run).backup, map[]) && events == old(events) + [SkipState]
      ensures unchanged(this`history, this`recorded)
    {
      Log(SkipState, World());
    }

    // os.WriteFile first empties the file.
    method Truncate(state: State)
      requires Valid() && run.Sent? && run.job.opts.stateFile && !file.Broken?
      requires state == NextState(file, run.job.dest, run.backup.snapshot)
      modifies this`file, this`events, this`run, this`history, this`recorded
      ensures Valid() && file == Broken && run == Writing(old(run).job, old(run).backup, state)
      ensures events == old(events) + [TruncateState] && unchanged(this`history, this`recorded)
    {
      ghost var before := World();
      file := Broken;
      Log(TruncateState, before);
    }

    method Rewrite(state: State)
      requires Valid() && run.Writing? && run.next == state
      modifies this`file, this`events, this`run, this`history, this`recorded
      ensures Valid() && file == Recorded(state) && run == Noted(old(run).job, old(run).backup, state)
      ensures events == old(events) + [WriteState] && unchanged(this`history)
    {
      ghost var before := World();
      file := Recorded(state);
      Log(WriteState, before);
    }

    // A plan that fails is a warning, and nothing is pruned.
    method PruneAfterBackup(d: string, opts: RunOptions, b: Backup, backups: seq<Backup>, state: State,
                            env: Surroundings<C>)
      requires Valid() && run == Noted(Job(d, opts, backups), b, state) && !opts.noPrune
      requires IsListing([b] + backups, StoreOf(dests, d).files.Keys)
      modifies this
      ensures Valid() && run == PruningDest(d, []) && Continues(old(events))
      ensures StoreOf(dests, d).files ==
        SparedFiles(old(StoreOf(dests, d)).files, Planned([b] + backups, opts.destPolicies), env.backupRemovable)
      ensures forall x | x != d :: StoreOf(dests, x) == old(StoreOf(dests, x))
      ensures SourcePruned(old(archives), old(bookmarks), archives, bookmarks,
                           opts.sourcePolicies, state, env.snapshotRemovable)
      ensures unchanged(this`file, this`history, this`recorded)
    {
      hide Valid, PrunedBackups, IsListing, SourcePruned, SparedFiles, StoreOf;
      PruneSourceAfter(Job(d, opts, backups), b, state, env.snapshotRemovable);
      WalksEnd(d, [b] + backups);
      var pruned := GetPrunedBackups([b] + backups, opts.destPolicies);
      StartDestPlan();
      RemoveBackups(d, if pruned.Ok? then pruned.value else [], env.backupRemovable);
    }

    // PruneSnapshots, as the backup command calls it.
    method PruneSourceAfter(job: Job, b: Backup, state: State, removable: Snapshot -> bool)
      requires Valid() && run == Noted(job, b, state) && !job.opts.noPrune
      modifies this
      ensures Valid() && run == PruningSource([], [], Some((job, b))) && Continues(old(events))
      ensures SourcePruned(old(archives), old(bookmarks), archives, bookmarks,
                           job.opts.sourcePolicies, state, removable)
      ensures unchanged(this`dests, this`file, this`history, this`recorded)
    {
      hide Valid, PrunedSnapshots, IsSnapshotListing, Spared;
      var marks := SortedListBookmarks();
      var archs := SortedListArchives();
      var plan := GetPrunedSnapshots(archs, marks, job.opts.sourcePolicies, state);
      StartPlan(archs, marks);
      RemoveArchives(if plan.Ok? then plan.value.archives else [], removable);
      RemoveBookmarks(if plan.Ok? then plan.value.bookmarks else [], removable);
    }

    ghost method StartPlan(archs: seq<Snapshot>, marks: seq<Snapshot>)
      requires Valid() && run.Noted? && !run.job.opts.noPrune
      requires IsSnapshotListing(archs, archives.Keys) && IsSnapshotListing(marks, bookmarks.Keys)
      modifies this`events, this`run, this`history, this`recorded
      ensures Valid() && events == old(events) + [PlanSnapshots(archs, marks)]
      ensures var after := Some((old(run).job, old(run).backup));
        run == SourcePlan(archs, marks, old(run).job.opts.sourcePolicies, old(run).state, after)
      ensures unchanged(this`history, this`recorded)
    {
      Log(PlanSnapshots(archs, marks), World());
    }

    ghost method StartDestPlan()
      requires Valid() && run.PruningSource? && run.archives == [] && run.bookmarks == [] && run.after.Some?
      modifies this`events, this`run, this`history, this`recorded
      ensures Valid() && events == old(events) + [PlanBackups]
      ensures var (job, b) := old(run).after.value; run == DestPlan(job.dest, [b] + job.listing, job.opts.destPolicies)
      ensures unchanged(this`history, this`recorded)
    {
      Log(PlanBackups, World());
    }

    ghost method Start(d: string, opts: RunOptions, backups: seq<Backup>, marks: seq<Snapshot>, archs: seq<Snapshot>,
                       now: int)
      requires Valid() && run.Idle? && IsListing(backups, StoreOf(dests, d).files.Keys)
      requires IsSnapshotListing(archs, archives.Keys) && IsSnapshotListing(marks, bookmarks.Keys)
      requires Decide(backups, (set s | s in marks) + (set s | s in archs), opts, now) != Fatal
      modifies this`events, this`run, this`history, this`recorded
      ensures Valid() && events == old(events) + [BeginBackup(d, opts, backups, marks, archs, now)]
      ensures var decision := Decide(backups, (set s | s in marks) + (set s | s in archs), opts, now);
        run == Chosen(Job(d, opts, backups), BaseOf(decision))
      ensures unchanged(this`history, this`recorded)
    {
      Log(BeginBackup(d, opts, backups, marks, archs, now), World());
    }

    // The run ends before its end.
    ghost method Die()
      requires Valid()
      modifies this`events, this`run, this`history, this`recorded
      ensures Valid() && run.Idle? && events == old(events) + [Stop] && unchanged(this`history, this`recorded)
    {
      Log(Stop, World());
    }

    // From the listings to the new backup in the destination, which Completed stands for here.
    method Transfer(d: string, opts: RunOptions, env: Surroundings<C>) returns (r: Outcome, backups: seq<Backup>)
      requires Valid() && run.Idle?
      requires forall s | s in history :: s.rank < env.snapshot.rank
      modifies this
      ensures IsListing(backups, old(StoreOf(dests, d)).files.Keys)
      ensures r == Transferred(Decide(backups, old(bookmarks.Keys + archives.Keys), opts, env.now), env)
      ensures Valid() && if r.Completed? then run == Sent(Job(d, opts, backups), r.backup) else run.Idle?
      ensures r.NoBackup() ==> dests == old(dests)
      ensures !r.NoBackup() && r.backup.base.Some? ==> r.backup.base.value in old(history)
      ensures archives == With(old(archives), env.archive && Kept(r, env), env.snapshot, env.content)
      ensures bookmarks == With(old(bookmarks), env.bookmark && Kept(r, env), env.snapshot, env.content)
      ensures r.Completed? ==>
        && Continues(old(events)) && IsListing([r.backup] + backups, StoreOf(dests, d).files.Keys)
        && StoreOf(dests, d).files ==
             old(StoreOf(dests, d)).files[r.backup := PayloadOf(codec, old(history), r.backup, env.content)]
      ensures !r.Completed? ==> StoreOf(dests, d).files == old(StoreOf(dests, d)).files
      ensures forall x | x != d :: StoreOf(dests, x) == old(StoreOf(dests, x))
      ensures file == old(file)
    {
      hide Valid, IsSnapshotListing, IsListing, Decide, With, PayloadOf;
      backups := SortedListBackups(d);
      var marks := SortedListBookmarks();
      var archs := SortedListArchives();
      NothingKept(archives, env.snapshot, env.content);
      NothingKept(bookmarks, env.snapshot, env.content);
      if !env.lists {
        return NotListed, backups;
      }
      KeysOf(marks, archs);
      var decision := ChooseBase(backups, marks, archs, opts, env.now);
      if decision.Fatal? {
        return NotDecided, backups;
      }
      Start(d, opts, backups, marks, archs, env.now);
      if env.creation.NotMade? {
        FailToCreate(BaseOf(decision), env);
        return NotCreated, backups;
      }
      var b, sent := CreateAndSend(d, BaseOf(decision), env);
      if sent {
        ListingGrows(backups, b);
      }
      r := if sent then Completed(b) else NotSent(b);
    }

    method FailToCreate(base: Option<Snapshot>, env: Surroundings<C>)
      requires Valid() && run.Chosen? && run.base == base && env.creation.NotMade?
      requires forall s | s in history :: s.rank < env.snapshot.rank
      modifies this
      ensures Valid() && run.Idle?
      ensures archives == With(old(archives), env.archive && env.creation.kept, env.snapshot, env.content)
      ensures bookmarks == With(old(bookmarks), env.bookmark && env.creation.kept, env.snapshot, env.content)
      ensures unchanged(this`dests, this`file, this`recorded)
    {
      hide Valid, With;
      var b, _ := CreateBackup(base, env);
      KeepOrNot(b, env, env.creation.kept);
      Die();
    }

    method CreateAndSend(d: string, base: Option<Snapshot>, env: Surroundings<C>) returns (b: Backup, sent: bool)
      requires Valid() && run.Chosen? && run.base == base && run.job.dest == d
      requires forall s | s in history :: s.rank < env.snapshot.rank
      modifies this
      ensures Valid() && sent == env.sending.Delivered?
      ensures b == Backup(env.snapshot, if env.answersFull then None else base)
      ensures b.base.Some? ==> b.base.value in old(history)
      ensures if sent then run == Sent(old(run).job, b) && Continues(old(events)) else run.Idle?
      ensures StoreOf(dests, d).files ==
        if sent then old(StoreOf(dests, d)).files[b := PayloadOf(codec, old(history), b, env.content)]
        else old(StoreOf(dests, d)).files
      ensures archives == With(old(archives), env.archive && env.sending.Keeps(), env.snapshot, env.content)
      ensures bookmarks == With(old(bookmarks), env.bookmark && env.sending.Keeps(), env.snapshot, env.content)
      ensures forall x | x != d :: StoreOf(dests, x) == old(StoreOf(dests, x))
      ensures file == old(file)
    {
      hide Valid, With, StoreOf;
      var payload;
      b, payload := CreateBackup(base, env);
      sent := SendBackup(d, b, payload, env);
    }

    // From there to the end: the state file, then the prunes.
    method Conclude(d: string, opts: RunOptions, b: Backup, backups: seq<Backup>, env: Surroundings<C>)
      returns (ok: bool)
      requires Valid() && run == Sent(Job(d, opts, backups), b)
      requires IsListing([b] + backups, StoreOf(dests, d).files.Keys)
      modifies this
      ensures Valid() && run.Idle?
      ensures ok == StateIsNoted(opts.stateFile, old(file), env.stateWrite)
      ensures !ok ==>
        StoreOf(dests, d) == old(StoreOf(dests, d)) && file == if env.stateWrite.Torn? then Broken else old(file)
      ensures ok ==>
        && Continues(old(events))
        && StoreOf(dests, d).files == SparedFiles(
             old(StoreOf(dests, d)).files,
             if opts.noPrune then [] else Planned([b] + backups, opts.destPolicies), env.backupRemovable)
        && file == (if opts.stateFile then Recorded(NextState(old(file), d, b.snapshot)) else old(file))
      ensures ok && !opts.noPrune ==>
        SourcePruned(old(archives), old(bookmarks), archives, bookmarks, opts.sourcePolicies,
                     if opts.stateFile then NextState(old(file), d, b.snapshot) else map[], env.snapshotRemovable)
      ensures !ok || opts.noPrune ==> archives == old(archives) && bookmarks == old(bookmarks)
      ensures forall x | x != d :: StoreOf(dests, x) == old(StoreOf(dests, x))
    {
      hide Valid, IsListing, SourcePruned, NextState;
      var state;
      ok, state := NoteState(d, b, opts.stateFile, env.stateWrite);
      if !ok {
        Die();
        return;
      }
      if !opts.noPrune {
        PruneAfterBackup(d, opts, b, backups, state, env);
      }
      End();
    }

    // cmdBackup: the whole run.
    method RunBackup(d: string, opts: RunOptions, env: Surroundings<C>)
      returns (outcome: Outcome, ghost listing: seq<Backup>)
      requires Valid() && run.Idle?
      requires forall s | s in history :: s.rank < env.snapshot.rank
      modifies this
      ensures Valid() && run.Idle?
      ensures IsListing(listing, old(StoreOf(dests, d)).files.Keys)
      ensures var decision := Decide(listing, old(bookmarks.Keys + archives.Keys), opts, env.now);
        outcome == OutcomeOf(decision, opts, old(file), env)
      ensures outcome.NoBackup() ==> dests == old(dests)
      ensures !outcome.NoBackup() && outcome.backup.base.Some? ==> outcome.backup.base.value in old(history)
      ensures outcome.NotSent? ==> StoreOf(dests, d).files == old(StoreOf(dests, d)).files
      ensures outcome.StateNotNoted? || outcome.Completed? ==>
        var payload := PayloadOf(codec, old(history), outcome.backup, env.content);
        var plan :=
          if outcome.StateNotNoted? || opts.noPrune then [] else Planned([outcome.backup] + listing, opts.destPolicies);
        var files := old(StoreOf(dests, d)).files[outcome.backup := payload];
        StoreOf(dests, d).files == SparedFiles(files, plan, env.backupRemovable)
      ensures
        var archs := With(old(archives), env.archive && Kept(outcome, env), env.snapshot, env.content);
        var marks := With(old(bookmarks), env.bookmark && Kept(outcome, env), env.snapshot, env.content);
        if !outcome.Completed? || opts.noPrune then archives == archs && bookmarks == marks
        else
          var state := if opts.stateFile then NextState(old(file), d, env.snapshot) else map[];
          SourcePruned(archs, marks, archives, bookmarks, opts.sourcePolicies, state, env.snapshotRemovable)
      ensures file ==
        if outcome.Completed? && opts.stateFile then Recorded(NextState(old(file), d, env.snapshot))
        else if outcome.StateNotNoted? && env.stateWrite.Torn? then Broken
        else old(file)
      ensures outcome.Completed? ==> Continues(old(events))
      ensures forall x | x != d :: StoreOf(dests, x) == old(StoreOf(dests, x))
    {
      hide Valid, IsListing, Decide, SourcePruned, NextState, PayloadOf, With, Planned;
      var r, backups := Transfer(d, opts, env);
      listing := backups;
      if !r.Completed? {
        return r, listing;
      }
      var ok := Conclude(d, opts, r.backup, backups, env);
      outcome := if ok then r else StateNotNoted(r.backup);
    }

    lemma {:induction false} KeysOf(marks: seq<Snapshot>, archs: seq<Snapshot>)
      requires IsSnapshotListing(archs, archives.Keys) && IsSnapshotListing(marks, bookmarks.Keys)
      ensures (set s | s in marks) == bookmarks.Keys && (set s | s in archs) == archives.Keys
    {
    }

    // The listing from before the run with the new backup in front is the listing after it.
    lemma {:induction false} ListingGrows(backups: seq<Backup>, b: Backup)
      requires Valid() && run.Sent? && run.job.listing == backups && run.backup == b
      ensures IsListing([b] + backups, StoreOf(dests, run.job.dest).files.Keys)
    {
      AlwaysConsistent(codec, events);
    }

    // What was logged before is still logged, and what is new is neither a stop nor a failed send.
    ghost predicate Continues(before: seq<Event<C>>)
      reads this
    {
      before <= events && forall e | e in events[|before|..] :: !e.Stop? && !e.AbortSend?
    }
  }

  // How far a run got.
  datatype Outcome =
    | NotListed | NotDecided | NotCreated
    | NotSent(backup: Backup) | StateNotNoted(backup: Backup) | Completed(backup: Backup)
  {
    predicate NoBackup() {
      NotListed? || NotDecided? || NotCreated?
    }
  }

  // The source has kept the new snapshot by the time the run ends so.
  predicate Kept<C>(r: Outcome, env: Surroundings<C>) {
    match r
    case NotListed => false
    case NotDecided => false
    case NotCreated => env.creation.NotMade? && env.creation.kept
    case _ => env.sending.Keeps()
  }

  predicate StateIsNoted(stateFile: bool, file: StateFile, write: StateWrite) {
    !stateFile || (!file.Broken? && write.Saved?)
  }

  // What decides how sending ends.
  function Transferred<C>(decision: Decision, env: Surroundings<C>): Outcome {
    var b := Backup(env.snapshot, if env.answersFull then None else BaseOf(decision));
    if !env.lists then NotListed
    else if decision.Fatal? then NotDecided
    else if env.creation.NotMade? then NotCreated
    else if !env.sending.Delivered? then NotSent(b)
    else Completed(b)
  }

  // And a whole run.
  function OutcomeOf<C>(decision: Decision, opts: RunOptions, file: StateFile, env: Surroundings<C>): Outcome {
    var sent := Transferred(decision, env);
    if sent.Completed? && !StateIsNoted(opts.stateFile, file, env.stateWrite) then StateNotNoted(sent.backup) else sent
  }

  /** How a run ends, outcome by outcome. */
  lemma {:induction false} OutcomeMeans<C>(decision: Decision, opts: RunOptions, file: StateFile, env: Surroundings<C>)
    ensures var r := OutcomeOf(decision, opts, file, env);
      && (r.NotListed? <==> !env.lists)
      && (r.NotDecided? <==> env.lists && decision == Fatal)
      && (r.NotCreated? <==> env.lists && decision != Fatal && env.creation != Created)
      && (r.NotSent? <==> env.lists && decision != Fatal && env.creation == Created && env.sending != Delivered)
      && (r.StateNotNoted? <==>
            && env.lists && decision != Fatal && env.creation == Created && env.sending == Delivered
            && opts.stateFile && (file == Broken || env.stateWrite != Saved))
      && (r.NotSent? || r.StateNotNoted? || r.Completed? ==>
            && r.backup.snapshot == env.snapshot
            && (r.backup.base.Some? <==> !env.answersFull && decision.Incremental?)
            && (r.backup.base.Some? ==> r.backup.base.value == decision.base))
  {
  }

  function BaseOf(decision: Decision): Option<Snapshot> {
    if decision.Incremental? then Some(decision.base) else None
  }

  function With<C>(kept: map<Snapshot, C>, keeps: bool, s: Snapshot, content: C): map<Snapshot, C> {
    if keeps then kept[s := content] else kept
  }

  // What is read of the state file: nothing when it is not there or not asked for.
  function StateOf(stateFile: bool, file: StateFile): State {
    if stateFile && file.Recorded? then file.state else map[]
  }

  function NextState(file: StateFile, d: string, s: Snapshot): State {
    (if file.Recorded? then file.state else map[])[d := s]
  }

  function PayloadOf<C, P>(k: Codec<C, P>, history: map<Snapshot, C>, b: Backup, content: C): P
    requires b.base.Some? ==> b.base.value in history
  {
    k.delta(if b.base.Some? then history[b.base.value] else k.empty, content)
  }

  // What is left of the archives and bookmarks, which are listed and planned first; all when the plan fails.
  ghost predicate SourcePruned<C>(archives: map<Snapshot, C>, bookmarks: map<Snapshot, C>,
                                  archives': map<Snapshot, C>, bookmarks': map<Snapshot, C>,
                                  policies: seq<RetentionPolicy>, state: State, removable: Snapshot -> bool)
  {
    exists archs, marks ::
      && IsSnapshotListing(archs, archives.Keys) && IsSnapshotListing(marks, bookmarks.Keys)
      && var p := PrunedSnapshots(archs, marks, policies, state);
      && archives' == Spared(archives, if p.Ok? then p.value.archives else [], removable)
      && bookmarks' == Spared(bookmarks, if p.Ok? then p.value.bookmarks else [], removable)
  }

  // What is pruned from a destination; nothing when the plan fails.
  ghost function Planned(listing: seq<Backup>, policies: seq<RetentionPolicy>): seq<Backup> {
    var p := PrunedBackups(listing, policies);
    if p.Ok? then p.value else []
  }

  function Spared<C>(contents: map<Snapshot, C>, plan: seq<Snapshot>, removable: Snapshot -> bool): map<Snapshot, C> {
    map s | s in contents && !(s in plan && removable(s)) :: contents[s]
  }

  function SparedFiles<P>(files: map<Backup, P>, plan: seq<Backup>, removable: Backup -> bool): map<Backup, P> {
    map b | b in files && !(b in plan && removable(b)) :: files[b]
  }
}
