/**
 * The directories the fs destination and the tar source keep, entry by entry: what is written goes
 * to a temporary name first, and listings show what was renamed from it and nothing else.
 */
module Directories {
  import opened Wrappers
  import opened Names
  import opened Backups
  import opened Sequences

  datatype Entry<+B> = Directory | File(bytes: seq<B>)

  const TEMP := "_tmp-"

  // strings.HasPrefix(name, ".") || strings.HasPrefix(name, "_") || entry.IsDir()
  predicate Skipped<B>(name: string, e: Entry<B>) {
    "." <= name || "_" <= name || e.Directory?
  }

  predicate DirectoryAt<B>(entries: map<string, Entry<B>>, name: string) {
    name in entries && entries[name].Directory?
  }

  // A name in a directory.
  predicate EntryName(name: string) {
    name != "" && '/' !in name
  }

  // The payload as it comes out of a reader, piece by piece.
  function Joined<B>(pieces: seq<seq<B>>): seq<B> {
    if pieces == [] then [] else Joined(pieces[..|pieces| - 1]) + pieces[|pieces| - 1]
  }

  /** The pieces in their order, one after the other. */
  lemma {:induction false} JoinedConcat<B>(a: seq<seq<B>>, b: seq<seq<B>>, piece: seq<B>)
    ensures Joined(a + b) == Joined(a) + Joined(b)
    ensures Joined([piece]) == piece
  {
    assert [piece][..0] == [] && Joined<B>([]) + piece == piece;
    if b == [] {
      assert a + b == a && Joined(a) + Joined<B>([]) == Joined(a);
    } else {
      var k := |b| - 1;
      assert (a + b)[..|a| + k] == a + b[..k];
      JoinedConcat(a, b[..k], piece);
    }
  }

  /* ---- What a listing shows ---- */

  function Parsed(name: string): Result<Backup> {
    ParseBackupFilename(name, true)
  }

  // The finished backup files of a directory.
  function FilesIn<B>(entries: map<string, Entry<B>>): (files: map<Backup, seq<B>>)
    requires forall n | n in entries :: EntryName(n)
    ensures forall b :: b in files <==> b.Genuine() && b.Filename() in entries && entries[b.Filename()].File?
    ensures forall b | b in files :: files[b] == entries[b.Filename()].bytes
  {
    var names := set n | n in entries && entries[n].File? && Parsed(n).Ok?;
    var backups := set n | n in names :: Parsed(n).value;
    ListedNames(entries);
    map b | b in backups :: entries[b.Filename()].bytes
  }

  lemma {:induction false} ListedNames<B>(entries: map<string, Entry<B>>)
    requires forall n | n in entries :: EntryName(n)
    ensures forall n | n in entries && Parsed(n).Ok? :: Parsed(n).value.Genuine() && Parsed(n).value.Filename() == n
    ensures forall b: Backup | b.Genuine() :: Parsed(b.Filename()) == Ok(b)
  {
    forall n | n in entries && Parsed(n).Ok? ensures Parsed(n).value.Genuine() && Parsed(n).value.Filename() == n {
      PrintOfParsed(n, true);
      BaseOfPlain(n);
    }
    forall b: Backup | b.Genuine() ensures Parsed(b.Filename()) == Ok(b) {
      ParseOfPrinted(b, EXTENSION, true);
    }
  }

  // A snapshot name begins with a digit, so nothing a listing shows is skipped for its prefix.
  lemma {:induction false} GenuineIsNotSkipped(s: string)
    requires IsSnapshotName(s)
    ensures !("." <= s) && !("_" <= s) && EntryName(s)
  {
    assert IsDigit(s[..8][0]) && s[..8][0] == s[0];
    NameHasNoSlash(s);
  }

  lemma {:induction false} FilenameIsEntry(b: Backup)
    requires b.Genuine()
    ensures EntryName(b.Filename()) && !("." <= b.Filename()) && !("_" <= b.Filename())
    ensures EntryName(TEMP + b.Filename()) && TEMP + b.Filename() != b.Filename()
  {
    GenuineIsNotSkipped(b.snapshot.name);
    assert b.Filename()[0] == b.snapshot.name[0];
    if b.base.Some? { GenuineIsNotSkipped(b.base.value.name); }
  }

  lemma {:induction false} FilenamesDiffer(b: Backup)
    requires b.Genuine()
    ensures NotAFilename(TEMP + b.Filename())
    ensures forall x: Backup | x.Genuine() && x.Filename() == b.Filename() :: x == b
  {
    forall x: Backup | x.Genuine() ensures x.Filename() != TEMP + b.Filename() {
      FilenameIsEntry(x);
      assert (TEMP + b.Filename())[0] == '_';
    }
    forall x: Backup | x.Genuine() && x.Filename() == b.Filename() ensures x == b { FilenameIdentifies(x, b); }
  }

  ghost predicate NotAFilename(name: string) {
    forall x: Backup | x.Genuine() :: x.Filename() != name
  }

  // Files under temporary names are not listed, whatever they hold.
  lemma {:induction false} OthersAreNotListed<B>(entries: map<string, Entry<B>>, name: string, e: Entry<B>)
    requires (forall n | n in entries :: EntryName(n)) && EntryName(name) && NotAFilename(name)
    ensures FilesIn(entries[name := e]) == FilesIn(entries) == FilesIn(entries - {name})
  {
    hide FilesIn, EntryName, Backup.Genuine, Backup.Filename;
    var files, more, less := FilesIn(entries), FilesIn(entries[name := e]), FilesIn(entries - {name});
    forall b ensures (b in more <==> b in files) && (b in less <==> b in files) {
      assert b.Genuine() ==> b.Filename() != name;
    }
    assert more == files && less == files;
  }

  // The directory once b has been sent.
  function Renamed<B>(entries: map<string, Entry<B>>, b: Backup, bytes: seq<B>): map<string, Entry<B>> {
    (entries - {TEMP + b.Filename()})[b.Filename() := File(bytes)]
  }

  class FsDestination<B> {
    var entries: map<string, Entry<B>>

    ghost predicate Valid()
      reads this
    {
      forall n | n in entries :: EntryName(n)
    }

    // What the destination holds for those who list and receive from it.
    ghost function Files(): map<Backup, seq<B>>
      requires Valid()
      reads this
    {
      FilesIn(entries)
    }

    method ListBackups() returns (res: seq<Backup>)
      requires Valid()
      ensures forall b :: b in res <==> b in Files()
      ensures forall i, j | 0 <= i < j < |res| :: res[i] != res[j]
    {
      res := [];
      var todo := entries.Keys;
      ListedNames(entries);
      while todo != {}
        invariant todo <= entries.Keys
        invariant forall b :: b in res <==> b in Files() && b.Filename() !in todo
        invariant forall i, j | 0 <= i < j < |res| :: res[i] != res[j]
        decreases todo
      {
        var name :| name in todo;
        todo := todo - {name};
        if Skipped(name, entries[name]) {
          NothingSkipped(entries, name);
          continue;
        }
        var backup := ParseBackupFilename(name, true);
        if backup.Failed? {
          continue;
        }
        res := res + [backup.value];
      }
    }

    // Temporary file, pieces, rename; the temporary file goes whatever happens. It fails when reading
    // does, and when a directory stands in the way of a name.
    method SendBackup(b: Backup, pieces: seq<seq<B>>, readFails: bool) returns (ok: bool)
      requires Valid() && b.Genuine()
      modifies this
      ensures Valid()
      ensures Files() == if ok then old(Files())[b := Joined(pieces)] else old(Files())
      ensures entries ==
        if ok then Renamed(old(entries), b, Joined(pieces))
        else if DirectoryAt(old(entries), TEMP + b.Filename()) then old(entries)
        else old(entries) - {TEMP + b.Filename()}
      ensures ok ==
        (!readFails && !DirectoryAt(old(entries), TEMP + b.Filename()) && !DirectoryAt(old(entries), b.Filename()))
    {
      FilenameIsEntry(b);
      FilenamesDiffer(b);
      hide EntryName, Backup.Genuine, Backup.Filename, FilesIn;
      var tmpFilename := TEMP + b.Filename();
      if DirectoryAt(entries, tmpFilename) {
        return false;
      }
      WriteTemp(tmpFilename, pieces);
      if readFails || DirectoryAt(entries, b.Filename()) {
        entries := entries - {tmpFilename};
        OthersAreNotListed(old(entries), tmpFilename, Directory);
        assert entries == old(entries) - {tmpFilename};
        return false;
      }
      entries := (entries - {tmpFilename})[b.Filename() := entries[tmpFilename]];
      assert entries == (old(entries) - {tmpFilename})[b.Filename() := File(Joined(pieces))];
      SentFiles(old(entries), b, Joined(pieces));
      ok := true;
    }

    // Create the temporary file and copy the stream into it. The listing stays as it was at each step.
    method WriteTemp(name: string, pieces: seq<seq<B>>)
      requires Valid() && EntryName(name) && NotAFilename(name)
      modifies this
      ensures entries == old(entries)[name := File(Joined(pieces))]
    {
      hide EntryName, NotAFilename, FilesIn;
      entries := entries[name := File([])];
      for i := 0 to |pieces|
        invariant entries == old(entries)[name := File(Joined(pieces[..i]))]
      {
        assert FilesIn(entries) == FilesIn(old(entries)) by {
          OthersAreNotListed(old(entries), name, File(Joined(pieces[..i])));
        }
        TakeStep(pieces, i);
        entries := entries[name := File(entries[name].bytes + pieces[i])];
      }
      TakeAll(pieces);
    }

    // os.Remove: fails on what is not there or may not be removed.
    method RemoveBackup(b: Backup, removable: bool) returns (ok: bool)
      requires Valid() && b.Genuine()
      modifies this
      ensures Valid() && ok == (b.Filename() in old(entries) && removable)
      ensures Files() == if ok then old(Files()) - {b} else old(Files())
      ensures ok ==> b.Filename() !in entries
    {
      FilenameIsEntry(b);
      FilenamesDiffer(b);
      hide EntryName, Backup.Genuine, Backup.Filename, FilesIn;
      ok := b.Filename() in entries && removable;
      OneEntry(entries, b, [], b.Filename());
      if ok {
        entries := entries - {b.Filename()};
      }
    }

    // Opening a directory works, but nothing can be read from it.
    method ReceiveBackup(b: Backup) returns (r: Result<seq<B>>)
      requires Valid() && b.Genuine()
      ensures r == if b in Files() then Ok(Files()[b]) else Failed
    {
      r := if b.Filename() in entries && entries[b.Filename()].File? then Ok(entries[b.Filename()].bytes) else Failed;
    }
  }

  lemma {:induction false} NothingSkipped<B>(entries: map<string, Entry<B>>, name: string)
    requires (forall n | n in entries :: EntryName(n)) && name in entries && Skipped(name, entries[name])
    ensures forall b | b in FilesIn(entries) :: b.Filename() != name
  {
    forall b | b in FilesIn(entries) ensures b.Filename() != name { FilenameIsEntry(b); }
  }

  // One entry is one file of the listing.
  lemma {:induction false} OneEntry<B>(before: map<string, Entry<B>>, b: Backup, bytes: seq<B>, name: string)
    requires (forall n | n in before :: EntryName(n)) && EntryName(name)
    requires b.Genuine() && b.Filename() == name && forall x: Backup | x.Genuine() && x.Filename() == name :: x == b
    ensures FilesIn(before[name := File(bytes)]) == FilesIn(before)[b := bytes]
    ensures FilesIn(before - {name}) == FilesIn(before) - {b}
  {
    hide FilesIn, EntryName, Backup.Genuine, Backup.Filename;
    var files, more, less := FilesIn(before), FilesIn(before[name := File(bytes)]), FilesIn(before - {name});
    forall x ensures (x in more <==> x in files || x == b) && (x in less <==> x in files && x != b) {
      assert x.Genuine() && x.Filename() == name ==> x == b;
    }
    assert more == files[b := bytes] && less == files - {b};
  }

  lemma {:induction false} SentFiles<B>(before: map<string, Entry<B>>, b: Backup, bytes: seq<B>)
    requires (forall n | n in before :: EntryName(n)) && b.Genuine() && EntryName(b.Filename()) &&
      EntryName(TEMP + b.Filename())
    ensures FilesIn((before - {TEMP + b.Filename()})[b.Filename() := File(bytes)]) == FilesIn(before)[b := bytes]
  {
    FilenamesDiffer(b);
    var name, temp := b.Filename(), TEMP + b.Filename();
    OthersAreNotListed(before, temp, Directory);
    OneEntry(before - {temp}, b, bytes, name);
  }

  /* ---- The tar source's snapshots directory ---- */

  class TarSource<B> {
    // None when no SnapshotsPath is configured.
    var snapshots: Option<map<string, Entry<B>>>

    ghost predicate Valid()
      reads this
    {
      snapshots.Some? ==> forall n | n in snapshots.value :: EntryName(n)
    }

    // Nothing when no directory is configured.
    ghost function Entries(): map<string, Entry<B>>
      reads this
    {
      if snapshots.None? then map[] else snapshots.value
    }

    ghost function Bookmarks(): map<string, seq<B>>
      reads this
    {
      if snapshots.None? then map[]
      else map n | n in snapshots.value && IsSnapshotName(n) && snapshots.value[n].File? :: snapshots.value[n].bytes
    }

    method ListBookmarks() returns (res: seq<string>)
      requires Valid()
      ensures forall n :: n in res <==> n in Bookmarks()
      ensures forall i, j | 0 <= i < j < |res| :: res[i] != res[j]
    {
      res := [];
      if snapshots.None? {
        return;
      }
      var entries := snapshots.value;
      var todo := entries.Keys;
      while todo != {}
        invariant todo <= entries.Keys
        invariant forall n :: n in res <==> n in Bookmarks() && n !in todo
        invariant forall i, j | 0 <= i < j < |res| :: res[i] != res[j]
        decreases todo
      {
        var name :| name in todo;
        todo := todo - {name};
        if IsSnapshotName(name) { GenuineIsNotSkipped(name); }
        if Skipped(name, entries[name]) {
          continue;
        }
        if !IsSnapshotName(name) {
          continue;
        }
        res := res + [name];
      }
    }

    // What is done before tar is started: the metadata of the base is copied to a temporary file.
    // When that fails the backup is full, and tar starts without metadata.
    method CreateBackup(base: Option<string>, snapshot: string) returns (used: Option<string>)
      requires Valid() && IsSnapshotName(snapshot) && (base.Some? ==> IsSnapshotName(base.value))
      modifies this
      ensures Valid() && Bookmarks() == old(Bookmarks())
      ensures used ==
        if base.Some? && base.value in old(Bookmarks()) && !DirectoryAt(old(Entries()), TEMP + snapshot) then base
        else None
      ensures used.Some? ==> Entries() == old(Entries())[TEMP + snapshot := File(old(Bookmarks())[used.value])]
      ensures used.None? ==> Entries() == if base.Some? then old(Entries()) - {TEMP + snapshot} else old(Entries())
    {
      used := None;
      TempEntry(snapshot);
      if snapshots.Some? && base.Some? {
        var entries, temp := snapshots.value, TEMP + snapshot;
        if base.value in entries && entries[base.value].File? && !DirectoryAt(entries, temp) {
          snapshots := Some(entries[temp := entries[base.value]]);
          used := base;
        } else {
          snapshots := Some(entries - {temp});
        }
      }
    }

    // What is done when tar has ended: its new metadata gets its name, or goes if tar failed. Exit
    // code 1 is a warning; a killed process has a negative one. The stream only ends after this.
    method Finalize(snapshot: string, metadata: seq<B>, exitCode: int) returns (ok: bool)
      requires Valid() && IsSnapshotName(snapshot)
      modifies this
      ensures Valid() && ok == (0 <= exitCode <= 1 && !DirectoryAt(old(Entries()), snapshot))
      ensures Bookmarks() == if ok && snapshots.Some? then old(Bookmarks())[snapshot := metadata] else old(Bookmarks())
      ensures ok || !(0 <= exitCode <= 1) ==> TEMP + snapshot !in Entries()
      ensures snapshots.Some? <==> old(snapshots).Some?
    {
      TempEntry(snapshot);
      GenuineIsNotSkipped(snapshot);
      ok := 0 <= exitCode <= 1;
      if snapshots.Some? {
        var entries, temp := snapshots.value, TEMP + snapshot;
        if !ok {
          snapshots := Some(entries - {temp});
        } else if DirectoryAt(entries, snapshot) {
          ok := false;
          snapshots := Some(entries[temp := File(metadata)]);
        } else {
          snapshots := Some((entries - {temp})[snapshot := File(metadata)]);
        }
      }
    }

    // os.Remove; there is nothing to do when no directory is configured.
    method RemoveBookmark(snapshot: string, removable: bool) returns (ok: bool)
      requires Valid() && IsSnapshotName(snapshot)
      modifies this
      ensures Valid() && ok == (snapshots.None? || (snapshot in old(Entries()) && removable))
      ensures Bookmarks() == if ok then old(Bookmarks()) - {snapshot} else old(Bookmarks())
      ensures Entries() == if ok then old(Entries()) - {snapshot} else old(Entries())
    {
      ok := snapshots.None? || (snapshot in snapshots.value && removable);
      if snapshots.Some? && ok {
        snapshots := Some(snapshots.value - {snapshot});
      }
    }

    lemma {:induction false} TempEntry(name: string)
      requires IsSnapshotName(name)
      ensures EntryName(TEMP + name) && !IsSnapshotName(TEMP + name) && TEMP + name != name
    {
      GenuineIsNotSkipped(name);
    }
  }
}
