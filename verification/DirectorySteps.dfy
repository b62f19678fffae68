/** What happens in the directories of the fs destination and the tar source is what happens in Protocol. */
module DirectorySteps {
  import opened Wrappers
  import opened Names
  import opened Backups
  import opened Protocol
  import opened Directories

  type Entries<B> = map<string, Entry<B>>

  function TempName(b: Backup): string {
    TEMP + b.Filename()
  }

  /** Temporary files as they are named. */
  lemma {:induction false} TempNames(b: Backup)
    ensures TempName(b) == "_tmp-" + b.Filename()
  {
  }

  predicate FileAt<B>(entries: Entries<B>, name: string) {
    name in entries && entries[name].File?
  }

  ghost predicate AllEntryNames<B>(entries: Entries<B>) {
    forall n | n in entries :: EntryName(n)
  }

  // A temporary file is there when the store has one, with all of the payload when the store says so.
  ghost predicate HoldsTemp<B>(entries: Entries<B>, temps: map<Backup, Option<seq<B>>>, b: Backup) {
    && (b in temps <==> FileAt(entries, TempName(b)))
    && (b in temps && temps[b].Some? ==> entries[TempName(b)].bytes == temps[b].value)
  }

  ghost predicate HoldsTemps<B>(entries: Entries<B>, temps: map<Backup, Option<seq<B>>>) {
    && (forall b | b in temps :: b.Genuine())
    && (forall b: Backup | b.Genuine() :: HoldsTemp(entries, temps, b))
  }

  /** A directory holds what a store of the protocol does. */
  ghost predicate Holds<B>(entries: Entries<B>, st: Store<seq<B>>) {
    AllEntryNames(entries) && FilesIn(entries) == st.files && HoldsTemps(entries, st.temps)
  }

  lemma {:induction false} NamesApart(b: Backup, x: Backup)
    requires b.Genuine() && x.Genuine()
    ensures TempName(b) == TempName(x) ==> b == x
    ensures b.Filename() == x.Filename() ==> b == x
    ensures TempName(b) != x.Filename()
  {
    FilenamesDiffer(b);
    assert TempName(b)[|TEMP|..] == b.Filename() && TempName(x)[|TEMP|..] == x.Filename();
  }

  // Entries that are the same but for one name: temporary files under other names are as they were.
  lemma {:induction false} OtherTemps<B>(before: Entries<B>, after: Entries<B>, temps: map<Backup, Option<seq<B>>>,
                                         b: Backup)
    requires HoldsTemps(before, temps) && b.Genuine()
    requires forall n | n != TempName(b) && n != b.Filename() ::
      (n in after <==> n in before) && (n in after ==> after[n] == before[n])
    ensures forall x: Backup | x.Genuine() && x != b :: HoldsTemp(after, temps, x)
  {
    hide Backup.Genuine, Backup.Filename;
    forall x: Backup | x.Genuine() && x != b ensures HoldsTemp(after, temps, x) {
      NamesApart(b, x);
      NamesApart(x, b);
      assert HoldsTemp(before, temps, x);
    }
  }

  lemma {:induction false} TempChanges<B>(before: Entries<B>, st: Store<seq<B>>, b: Backup, bytes: seq<B>,
                                          now: Option<seq<B>>)
    requires Holds(before, st) && b.Genuine() && (now.Some? ==> now.value == bytes)
    ensures Holds(before[TempName(b) := File(bytes)], st.(temps := st.temps[b := now]))
  {
    hide FilesIn, Backup.Genuine, Backup.Filename, EntryName;
    FilenameIsEntry(b);
    FilenamesDiffer(b);
    var after := before[TempName(b) := File(bytes)];
    OthersAreNotListed(before, TempName(b), File(bytes));
    OtherTemps(before, after, st.temps, b);
    forall x: Backup | x.Genuine() ensures HoldsTemp(after, st.temps[b := now], x) {
      if x != b { assert HoldsTemp(after, st.temps, x); }
    }
  }

  lemma {:induction false} TempGoes<B>(before: Entries<B>, st: Store<seq<B>>, b: Backup)
    requires Holds(before, st) && b.Genuine()
    ensures Holds(before - {TempName(b)}, st.(temps := st.temps - {b}))
  {
    hide FilesIn, Backup.Genuine, Backup.Filename, EntryName;
    FilenameIsEntry(b);
    FilenamesDiffer(b);
    var after := before - {TempName(b)};
    OthersAreNotListed(before, TempName(b), Directory);
    OtherTemps(before, after, st.temps, b);
    forall x: Backup | x.Genuine() ensures HoldsTemp(after, st.temps - {b}, x) {
      if x != b { assert HoldsTemp(after, st.temps, x); }
    }
  }

  lemma {:induction false} FileChanges<B>(before: Entries<B>, st: Store<seq<B>>, b: Backup, bytes: seq<B>)
    requires Holds(before, st) && b.Genuine()
    ensures Holds(before[b.Filename() := File(bytes)], st.(files := st.files[b := bytes]))
    ensures Holds(before - {b.Filename()}, st.(files := st.files - {b}))
  {
    hide FilesIn, Backup.Genuine, Backup.Filename, EntryName;
    FilenameIsEntry(b);
    FilenamesDiffer(b);
    NamesApart(b, b);
    OneEntry(before, b, bytes, b.Filename());
    var more, less := before[b.Filename() := File(bytes)], before - {b.Filename()};
    OtherTemps(before, more, st.temps, b);
    OtherTemps(before, less, st.temps, b);
    assert HoldsTemp(before, st.temps, b);
    assert HoldsTemp(more, st.temps, b) && HoldsTemp(less, st.temps, b);
  }

  // The directory after an event of a run for it.
  function After<C, B>(entries: Entries<B>, w: World<C, seq<B>>, e: Event<C>): Entries<B> {
    if w.run.Streaming? then
      var b := w.run.backup;
      match e
      case OpenTemp => entries[TempName(b) := File([])]
      case FillTemp => entries
      case RenameTemp =>
        if FileAt(entries, TempName(b)) then Renamed(entries, b, entries[TempName(b)].bytes) else entries
      case AbortSend => entries - {TempName(b)}
      case _ => entries
    else if w.run.PruningDest? && w.run.todo != [] && e.RemoveBackup? && e.ok then entries - {w.run.todo[0].Filename()}
    else entries
  }

  // The destination of the run, if it has one, and the backup it is about.
  function Dest<C, P>(w: World<C, P>): string {
    if w.run.Streaming? then w.run.job.dest else if w.run.PruningDest? then w.run.dest else ""
  }

  lemma {:induction false} SendsAreDirectorySteps<C, B>(w: World<C, seq<B>>, entries: Entries<B>, e: Event<C>)
    requires Holds(entries, StoreOf(w.dests, Dest(w))) && Sends(w, e).Some? && w.run.backup.Genuine()
    requires e.FillTemp? ==> AllThere(entries, w)
    ensures Holds(After(entries, w, e), StoreOf(Sends(w, e).value.dests, w.run.job.dest))
  {
    hide Holds, Backup.Genuine, HoldsTemp;
    var st, b := StoreOf(w.dests, w.run.job.dest), w.run.backup;
    match e
    case OpenTemp => TempChanges(entries, st, b, [], None);
    case FillTemp =>
      TempChanges(entries, st, b, w.run.payload, Some(w.run.payload));
      assert entries[TempName(b) := File(w.run.payload)] == entries;
    case RenameTemp =>
      TempIsThere(entries, st, b);
      TempGoes(entries, st, b);
      FileChanges(entries - {TempName(b)}, st.(temps := st.temps - {b}), b, st.temps[b].value);
    case AbortSend => TempGoes(entries, st, b);
  }

  lemma {:induction false} TempIsThere<B>(entries: Entries<B>, st: Store<seq<B>>, b: Backup)
    requires Holds(entries, st) && b.Genuine() && b in st.temps && st.temps[b].Some?
    ensures FileAt(entries, TempName(b)) && entries[TempName(b)].bytes == st.temps[b].value
  {
    assert HoldsTemp(entries, st.temps, b);
  }

  // All of the stream is in the temporary file.
  predicate AllThere<C, B(==)>(entries: Entries<B>, w: World<C, seq<B>>)
    requires w.run.Streaming?
  {
    FileAt(entries, TempName(w.run.backup)) && entries[TempName(w.run.backup)].bytes == w.run.payload
  }

  /**
   * Creating the temporary file, finding all of the stream in it, renaming it, removing it and
   * removing a backup are the events of the protocol: the directory holds the store before and after.
   */
  lemma {:induction false} EventsAreDirectorySteps<C, B>(k: Codec<C, seq<B>>, w: World<C, seq<B>>,
                                                         entries: Entries<B>, e: Event<C>)
    requires Holds(entries, StoreOf(w.dests, Dest(w))) && Step(k, w, e).Some?
    requires e.OpenTemp? || e.FillTemp? || e.RenameTemp? || e.AbortSend? || e.RemoveBackup?
    requires w.run.Streaming? ==> w.run.backup.Genuine() && (e.FillTemp? ==> AllThere(entries, w))
    requires w.run.PruningDest? && w.run.todo != [] ==> w.run.todo[0].Genuine()
    ensures Holds(After(entries, w, e), StoreOf(Step(k, w, e).value.dests, Dest(w)))
  {
    hide Holds, Backup.Genuine, AllThere;
    if e.RemoveBackup? {
      if e.ok {
        FileChanges(entries, StoreOf(w.dests, Dest(w)), w.run.todo[0], []);
      }
    } else {
      SendsAreDirectorySteps(w, entries, e);
    }
  }

  /** While the stream is being copied, whatever has come of it so far, the store is that after OpenTemp. */
  lemma {:induction false} CopyingIsNoEvent<B>(entries: Entries<B>, st: Store<seq<B>>, b: Backup, pieces: seq<seq<B>>,
                                               n: nat)
    requires Holds(entries, st) && b.Genuine() && n <= |pieces|
    ensures Holds(entries[TempName(b) := File(Joined(pieces[..n]))], st.(temps := st.temps[b := None]))
  {
    TempChanges(entries, st, b, Joined(pieces[..n]), None);
  }

  /** A directory after a send that works, and after one that fails, holds the store after it. */
  lemma {:induction false} SendsAgree<B>(entries: Entries<B>, st: Store<seq<B>>, b: Backup, bytes: seq<B>)
    requires Holds(entries, st) && b.Genuine()
    ensures Holds(Renamed(entries, b, bytes), Store(st.files[b := bytes], st.temps - {b}))
    ensures Holds(entries - {TempName(b)}, Store(st.files, st.temps - {b}))
  {
    TempGoes(entries, st, b);
    FileChanges(entries - {TempName(b)}, st.(temps := st.temps - {b}), b, bytes);
  }

  /* ---- The tar source ---- */

  /** The files of the snapshots directory are named after the bookmarks of the protocol. */
  ghost predicate Remembers<B, C>(marks: map<string, seq<B>>, bookmarks: map<Snapshot, C>) {
    && (forall s | s in bookmarks :: s.Genuine())
    && forall n :: n in marks <==> IsSnapshotName(n) && Named(n) in bookmarks
  }

  /** Renaming tar's metadata keeps the snapshot as a bookmark. */
  lemma {:induction false} KeepIsRename<C, P, B>(w: World<C, P>, marks: map<string, seq<B>>, metadata: seq<B>,
                                                 bookmark: bool)
    requires Remembers(marks, w.bookmarks) && Keeps(w, false, bookmark).Some? && w.run.backup.snapshot.Genuine()
    ensures Remembers(if bookmark then marks[w.run.backup.snapshot.name := metadata] else marks,
                      Keeps(w, false, bookmark).value.bookmarks)
  {
  }

  lemma {:induction false} MarkGoes<B, C>(marks: map<string, seq<B>>, bookmarks: map<Snapshot, C>, s: Snapshot)
    requires Remembers(marks, bookmarks) && s.Genuine()
    ensures Remembers(marks - {s.name}, bookmarks - {s})
  {
  }

  /** Removing the file of a snapshot removes its bookmark. */
  lemma {:induction false} RemoveIsRemove<C, P, B>(w: World<C, P>, marks: map<string, seq<B>>, ok: bool)
    requires Remembers(marks, w.bookmarks) && PrunesSource<C, P>(w, RemoveBookmark(ok)).Some?
    requires w.run.bookmarks[0].Genuine()
    ensures Remembers(if ok then marks - {w.run.bookmarks[0].name} else marks,
                      PrunesSource<C, P>(w, RemoveBookmark(ok)).value.bookmarks)
  {
    hide Remembers, IsSnapshotListing, Snapshot.Genuine;
    MarkGoes(marks, w.bookmarks, w.run.bookmarks[0]);
  }
}
