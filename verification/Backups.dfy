/** Snapshots, backups and the file names that identify them. */
module Backups {
  import opened Wrappers
  import opened Names

  // A snapshot name with what the program reads off it: its place in the byte
  // order that listings are sorted by, and the instant it parses to, if any.
  datatype Snapshot = Snapshot(name: string, rank: nat, time: Option<int>) {
    ghost predicate Genuine() {
      IsSnapshotName(name) && this == Named(name)
    }
  }

  function Named(name: string): Snapshot {
    Snapshot(name, Rank(name), Time(name))
  }

  // A full backup has no base.
  datatype Backup = Backup(snapshot: Snapshot, base: Option<Snapshot>) {
    predicate IsFull() {
      base.None?
    }

    function FullName(): string {
      if base.None? then snapshot.name + "-full"
      else snapshot.name + "-from-" + base.value.name
    }

    function Filename(): string {
      FullName() + EXTENSION
    }

    ghost predicate Genuine() {
      snapshot.Genuine() && (base.Some? ==> base.value.Genuine())
    }
  }

  const EXTENSION := ".ubkp"

  /** Rank and time say of two genuine snapshots what their names say. */
  lemma {:induction false} SnapshotOrder(a: Snapshot, b: Snapshot)
    requires a.Genuine() && b.Genuine()
    ensures Compare(a.name, b.name) == Sign(a.rank - b.rank)
    ensures a.rank == b.rank ==> a == b
    ensures a.time.Some? && b.time.Some? ==> Sign(a.time.value - b.time.value) == Sign(a.rank - b.rank)
  {
    CompareIsRank(a.name, b.name);
    CompareZero(a.name, b.name);
    if a.time.Some? && b.time.Some? {
      NameOrderIsTimeOrder(a.name, b.name);
    }
  }

  /* ---- path.Base ---- */

  function TrimSlashes(path: string): (r: string)
    ensures r != [] ==> r[|r| - 1] != '/'
  {
    if path != [] && path[|path| - 1] == '/' then TrimSlashes(path[..|path| - 1]) else path
  }

  function AfterLastSlash(path: string): string {
    if path == [] || path[|path| - 1] == '/' then []
    else AfterLastSlash(path[..|path| - 1]) + [path[|path| - 1]]
  }

  function Base(path: string): string {
    if path == [] then "."
    else
      var last := AfterLastSlash(TrimSlashes(path));
      if last == [] then "/" else last
  }

  lemma {:induction false} AfterLastSlashOfPlain(s: string)
    requires '/' !in s
    ensures AfterLastSlash(s) == s
  {
    if s != [] {
      AfterLastSlashOfPlain(s[..|s| - 1]);
      assert s == s[..|s| - 1] + [s[|s| - 1]];
    }
  }

  lemma {:induction false} BaseOfPlain(s: string)
    requires '/' !in s && s != []
    ensures Base(s) == s
  {
    AfterLastSlashOfPlain(s);
  }

  lemma {:induction false} AfterLastSlashOf(dir: string, name: string)
    requires '/' !in name && (dir == "" || dir[|dir| - 1] == '/')
    ensures AfterLastSlash(dir + name) == name
  {
    var path := dir + name;
    if name == [] {
      assert path == dir;
    } else {
      hide AfterLastSlash;
      var k := |name| - 1;
      assert path[..|path| - 1] == dir + name[..k] && path[|path| - 1] == name[k] && name[k] != '/';
      AfterLastSlashOf(dir, name[..k]);
      AfterLastSlashStep(path);
      assert name == name[..k] + [name[k]];
    }
  }

  lemma {:induction false} AfterLastSlashStep(path: string)
    requires path != "" && path[|path| - 1] != '/'
    ensures AfterLastSlash(path) == AfterLastSlash(path[..|path| - 1]) + [path[|path| - 1]]
  {
  }

  lemma {:induction false} TrimSlashesOf(path: string, slashes: string)
    requires path != "" && path[|path| - 1] != '/' && forall i | 0 <= i < |slashes| :: slashes[i] == '/'
    ensures TrimSlashes(path + slashes) == path
  {
    if slashes == [] {
      assert path + slashes == path;
    } else {
      assert (path + slashes)[..|path + slashes| - 1] == path + slashes[..|slashes| - 1];
      TrimSlashesOf(path, slashes[..|slashes| - 1]);
    }
  }

  /** The last element of a path, whatever directories it is in and slashes it ends with. */
  lemma {:induction false} BaseOfPath(dir: string, name: string, slashes: string)
    requires '/' !in name && name != "" && (dir == "" || dir[|dir| - 1] == '/')
    requires forall i | 0 <= i < |slashes| :: slashes[i] == '/'
    ensures Base(dir + name + slashes) == name
  {
    assert (dir + name)[|dir + name| - 1] == name[|name| - 1];
    TrimSlashesOf(dir + name, slashes);
    AfterLastSlashOf(dir, name);
  }

  /** What path.Base makes of nothing and of slashes only. */
  lemma {:induction false} BaseOfNothing(slashes: string)
    requires forall i | 0 <= i < |slashes| :: slashes[i] == '/'
    ensures Base(slashes) == if slashes == "" then "." else "/"
  {
    NothingButSlashes(slashes);
  }

  lemma {:induction false} NothingButSlashes(slashes: string)
    requires forall i | 0 <= i < |slashes| :: slashes[i] == '/'
    ensures TrimSlashes(slashes) == ""
  {
    if slashes != "" {
      NothingButSlashes(slashes[..|slashes| - 1]);
    }
  }

  /* ---- Parsing ---- */

  datatype Match = Match(snapshot: string, base: Option<string>, extension: string)

  // The regular expression ^(S)-(full|from-(S))(\.ubkp)?$
  function MatchBackupName(f: string): Option<Match> {
    if |f| < NAME_LENGTH || !IsSnapshotName(f[..NAME_LENGTH]) then None
    else
      var rest := f[NAME_LENGTH..];
      if rest == "-full" || rest == "-full" + EXTENSION then
        Some(Match(f[..NAME_LENGTH], None, rest[5..]))
      else if |rest| >= 6 + NAME_LENGTH && rest[..6] == "-from-" && IsSnapshotName(rest[6..][..NAME_LENGTH])
           && (rest[6 + NAME_LENGTH..] == "" || rest[6 + NAME_LENGTH..] == EXTENSION) then
        Some(Match(f[..NAME_LENGTH], Some(rest[6..][..NAME_LENGTH]), rest[6 + NAME_LENGTH..]))
      else None
  }

  function ParseBackupFilename(path: string, requireExt: bool): Result<Backup> {
    var m := MatchBackupName(Base(path));
    if m.None? then Failed
    else if requireExt && m.value.extension != EXTENSION then Failed
    else if m.value.base.None? then Ok(Backup(Named(m.value.snapshot), None))
    else Ok(Backup(Named(m.value.snapshot), Some(Named(m.value.base.value))))
  }

  /* ---- Round trips ---- */

  lemma {:induction false} NameHasNoSlash(s: string)
    requires IsSnapshotName(s)
    ensures '/' !in s
  {
  }

  lemma {:induction false} GenuineLengths(b: Backup)
    requires b.Genuine()
    ensures IsSnapshotName(b.snapshot.name) && |b.snapshot.name| == NAME_LENGTH
    ensures b.base.Some? ==> IsSnapshotName(b.base.value.name) && |b.base.value.name| == NAME_LENGTH
  {
  }

  lemma {:induction false} IncrementalMatches(name: string, base: string, ext: string)
    requires IsSnapshotName(name) && |name| == NAME_LENGTH && IsSnapshotName(base) && |base| == NAME_LENGTH
    requires ext == "" || ext == EXTENSION
    ensures MatchBackupName(name + "-from-" + base + ext) == Some(Match(name, Some(base), ext))
  {
    hide IsSnapshotName;
    var f := name + "-from-" + base + ext;
    assert f[..NAME_LENGTH] == name;
    var rest := f[NAME_LENGTH..];
    assert rest == "-from-" + base + ext;
    assert rest[..6] == "-from-" && rest[6..][..NAME_LENGTH] == base && rest[6 + NAME_LENGTH..] == ext;
    assert rest[2] == 'r' && "-full"[2] == 'u' && ("-full" + EXTENSION)[2] == 'u';
  }

  lemma {:induction false} FullNameMatches(b: Backup, ext: string)
    requires b.Genuine() && (ext == "" || ext == EXTENSION)
    ensures MatchBackupName(b.FullName() + ext)
         == Some(Match(b.snapshot.name, if b.base.None? then None else Some(b.base.value.name), ext))
  {
    hide IsSnapshotName;
    GenuineLengths(b);
    if b.base.None? {
      var f := b.FullName() + ext;
      assert f[..NAME_LENGTH] == b.snapshot.name && f[NAME_LENGTH..] == "-full" + ext;
    } else {
      hide MatchBackupName;
      IncrementalMatches(b.snapshot.name, b.base.value.name, ext);
    }
  }

  /** Parsing a printed name gives the backup back, unless a required extension was not printed. */
  lemma {:induction false} ParseOfPrinted(b: Backup, ext: string, requireExt: bool)
    requires b.Genuine() && (ext == "" || ext == EXTENSION)
    ensures ParseBackupFilename(b.FullName() + ext, requireExt)
         == if requireExt && ext == "" then Failed else Ok(b)
  {
    NameHasNoSlash(b.snapshot.name);
    if b.base.Some? { NameHasNoSlash(b.base.value.name); }
    BaseOfPlain(b.FullName() + ext);
    FullNameMatches(b, ext);
  }

  /** And so does parsing it with any directories in front. */
  lemma {:induction false} ParseOfPath(dir: string, b: Backup)
    requires b.Genuine() && (dir == "" || dir[|dir| - 1] == '/')
    ensures ParseBackupFilename(dir + b.Filename(), true) == Ok(b)
  {
    NameHasNoSlash(b.snapshot.name);
    if b.base.Some? { NameHasNoSlash(b.base.value.name); }
    BaseOfPath(dir, b.Filename(), "");
    assert dir + b.Filename() + "" == dir + b.Filename();
    FullNameMatches(b, EXTENSION);
  }

  /** The names as they are written. */
  lemma {:induction false} WrittenNames(snapshot: Snapshot, base: Snapshot)
    ensures Backup(snapshot, None).Filename() == snapshot.name + "-full.ubkp"
    ensures Backup(snapshot, Some(base)).Filename() == snapshot.name + "-from-" + base.name + ".ubkp"
  {
  }

  /** Whatever parses with its extension is, after path.Base, the printed name of its result. */
  lemma {:induction false} PrintOfParsed(path: string, requireExt: bool)
    requires ParseBackupFilename(path, requireExt).Ok?
    ensures var b := ParseBackupFilename(path, requireExt).value;
      && b.Genuine()
      && (Base(path) == b.Filename() || (!requireExt && Base(path) == b.FullName()))
  {
    hide Base, IsSnapshotName, MatchBackupName;
    MatchParts(Base(path));
    var b, ext := ParseBackupFilename(path, requireExt).value, MatchBackupName(Base(path)).value.extension;
    assert Base(path) == b.FullName() + ext;
    assert b.FullName() + "" == b.FullName();
  }

  lemma {:induction false} MatchParts(f: string)
    requires MatchBackupName(f).Some?
    ensures var m := MatchBackupName(f).value;
      && IsSnapshotName(m.snapshot) && (m.base.Some? ==> IsSnapshotName(m.base.value))
      && (m.extension == "" || m.extension == EXTENSION)
      && f == (m.snapshot + (if m.base.None? then "-full" else "-from-" + m.base.value)) + m.extension
  {
    hide IsSnapshotName;
    var m, rest := MatchBackupName(f).value, f[NAME_LENGTH..];
    assert f == m.snapshot + rest;
    if m.base.None? {
      assert rest == "-full" + m.extension;
    } else {
      ThreeParts(rest, 6, NAME_LENGTH);
    }
  }

  lemma {:induction false} ThreeParts(s: string, i: nat, j: nat)
    requires i + j <= |s|
    ensures s == s[..i] + s[i..][..j] + s[i + j..]
  {
  }

  lemma {:induction false} FilenameIdentifies(a: Backup, b: Backup)
    requires a.Genuine() && b.Genuine() && a.Filename() == b.Filename()
    ensures a == b
  {
    ParseOfPrinted(a, EXTENSION, true);
    ParseOfPrinted(b, EXTENSION, true);
  }
}
