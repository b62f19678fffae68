/** Whether a backup run makes a full or an incremental backup, and on what base. */
module BaseSelection {
  import opened Wrappers
  import opened Backups
  import opened Retention
  import opened Sequences

  // The options of one run. A missing StateFile or FullInterval forces full backups.
  datatype RunOptions = RunOptions(
    stateFile: bool, fullInterval: Option<int>, forceFull: bool, noPrune: bool,
    sourcePolicies: seq<RetentionPolicy>, destPolicies: seq<RetentionPolicy>)

  // Fatal: the name of the newest full backup does not parse, and the run ends.
  datatype Decision = Fatal | Full | Incremental(base: Snapshot)

  function FirstCommon(backups: seq<Backup>, snapshots: set<Snapshot>): Option<Snapshot> {
    if backups == [] then None
    else if backups[0].snapshot in snapshots then Some(backups[0].snapshot)
    else FirstCommon(backups[1..], snapshots)
  }

  function FirstFull(backups: seq<Backup>): Option<Backup> {
    if backups == [] then None
    else if backups[0].IsFull() then Some(backups[0])
    else FirstFull(backups[1..])
  }

  function Decide(backups: seq<Backup>, snapshots: set<Snapshot>, opts: RunOptions, now: int): Decision {
    var common, full := FirstCommon(backups, snapshots), FirstFull(backups);
    if opts.forceFull || !opts.stateFile || opts.fullInterval.None? then Full
    else if full.None? || common.None? then Full
    else if full.value.snapshot.time.None? then Fatal
    else if Elapsed(opts.fullInterval.value, now, full.value.snapshot.time.value) then Full
    else Incremental(common.value)
  }

  method ChooseBase(backups: seq<Backup>, bookmarks: seq<Snapshot>, archives: seq<Snapshot>, opts: RunOptions, now: int)
    returns (r: Decision)
    ensures r == Decide(backups, (set s | s in bookmarks) + (set s | s in archives), opts, now)
  {
    var snapshotsSet: set<Snapshot> := {};
    for i := 0 to |bookmarks|
      invariant snapshotsSet == set s | s in bookmarks[..i]
    {
      snapshotsSet := snapshotsSet + {bookmarks[i]};
    }
    for i := 0 to |archives|
      invariant snapshotsSet == (set s | s in bookmarks) + (set s | s in archives[..i])
    {
      snapshotsSet := snapshotsSet + {archives[i]};
    }

    TakeAll(bookmarks);
    TakeAll(archives);
    var forceFull := opts.forceFull || !opts.stateFile || opts.fullInterval.None?;
    if forceFull {
      return Full;
    }
    var lastCommon: Option<Snapshot> := None;
    var lastFull: Option<Backup> := None;
    assert backups[0..] == backups;
    for i := 0 to |backups|
      invariant FirstCommon(backups, snapshotsSet) ==
        if lastCommon.Some? then lastCommon else FirstCommon(backups[i..], snapshotsSet)
      invariant FirstFull(backups) == if lastFull.Some? then lastFull else FirstFull(backups[i..])
    {
      var b := backups[i];
      assert backups[i..][0] == b && backups[i..][1..] == backups[i + 1..];
      if b.snapshot in snapshotsSet && lastCommon.None? {
        lastCommon := Some(b.snapshot);
      }
      if b.IsFull() && lastFull.None? {
        lastFull := Some(b);
      }
      if lastFull.Some? && lastCommon.Some? {
        break;
      }
    }
    assert FirstCommon(backups, snapshotsSet) == lastCommon || lastFull.None?;
    if lastFull.None? || lastCommon.None? {
      return Full;
    }
    var t := lastFull.value.snapshot.time;
    if t.None? {
      return Fatal;
    }
    if Elapsed(opts.fullInterval.value, now, t.value) {
      return Full;
    }
    return Incremental(lastCommon.value);
  }

  // backups[i] is the first listed whose snapshot is among snapshots.
  ghost predicate CommonAt(backups: seq<Backup>, snapshots: set<Snapshot>, i: int) {
    0 <= i < |backups| && backups[i].snapshot in snapshots && forall j | 0 <= j < i :: backups[j].snapshot !in snapshots
  }

  // backups[i] is the first full backup listed.
  ghost predicate FullAt(backups: seq<Backup>, i: int) {
    0 <= i < |backups| && backups[i].IsFull() && forall j | 0 <= j < i :: !backups[j].IsFull()
  }

  lemma {:induction false} FirstCommonAt(backups: seq<Backup>, snapshots: set<Snapshot>, i: nat)
    requires CommonAt(backups, snapshots, i)
    ensures FirstCommon(backups, snapshots) == Some(backups[i].snapshot)
  {
    if i > 0 {
      FirstCommonAt(backups[1..], snapshots, i - 1);
    }
  }

  lemma {:induction false} FirstFullAt(backups: seq<Backup>, i: nat)
    requires FullAt(backups, i)
    ensures FirstFull(backups) == Some(backups[i])
  {
    if i > 0 {
      FirstFullAt(backups[1..], i - 1);
    }
  }

  lemma {:induction false} FirstCommonExists(backups: seq<Backup>, snapshots: set<Snapshot>) returns (i: nat)
    ensures FirstCommon(backups, snapshots).Some? ==> CommonAt(backups, snapshots, i)
  {
    i := 0;
    if backups != [] && backups[0].snapshot !in snapshots {
      var k := FirstCommonExists(backups[1..], snapshots);
      i := k + 1;
    }
  }

  lemma {:induction false} FirstFullExists(backups: seq<Backup>) returns (i: nat)
    ensures FirstFull(backups).Some? ==> FullAt(backups, i)
  {
    i := 0;
    if backups != [] && !backups[0].IsFull() {
      var k := FirstFullExists(backups[1..]);
      i := k + 1;
    }
  }

  // The options of a run do not force a full backup.
  predicate AllowsIncremental(opts: RunOptions) {
    !opts.forceFull && opts.stateFile && opts.fullInterval.Some?
  }

  // Some listed backup has its snapshot at the source.
  ghost predicate SomeCommon(backups: seq<Backup>, snapshots: set<Snapshot>) {
    exists b | b in backups :: b.snapshot in snapshots
  }

  lemma {:induction false} CommonFound(backups: seq<Backup>, snapshots: set<Snapshot>)
    ensures FirstCommon(backups, snapshots).Some? <==> SomeCommon(backups, snapshots)
    ensures forall i | CommonAt(backups, snapshots, i) :: FirstCommon(backups, snapshots) == Some(backups[i].snapshot)
    ensures FirstCommon(backups, snapshots).Some? ==> exists i :: CommonAt(backups, snapshots, i)
  {
    var c := FirstCommonExists(backups, snapshots);
    forall i | CommonAt(backups, snapshots, i) ensures FirstCommon(backups, snapshots) == Some(backups[i].snapshot) {
      FirstCommonAt(backups, snapshots, i);
    }
    if b :| b in backups && b.snapshot in snapshots {
      NoCommon(backups, snapshots, b);
    }
  }

  lemma {:induction false} NoCommon(backups: seq<Backup>, snapshots: set<Snapshot>, b: Backup)
    requires b in backups && b.snapshot in snapshots
    ensures FirstCommon(backups, snapshots).Some?
  {
    if backups[0].snapshot !in snapshots {
      NoCommon(backups[1..], snapshots, b);
    }
  }

  lemma {:induction false} FullFound(backups: seq<Backup>)
    ensures FirstFull(backups).Some? <==> exists b | b in backups :: b.base.None?
    ensures forall i | FullAt(backups, i) :: FirstFull(backups) == Some(backups[i])
    ensures FirstFull(backups).Some? ==> exists i :: FullAt(backups, i)
  {
    var f := FirstFullExists(backups);
    forall i | FullAt(backups, i) ensures FirstFull(backups) == Some(backups[i]) {
      FirstFullAt(backups, i);
    }
    if b :| b in backups && b.base.None? {
      NoFull(backups, b);
    }
  }

  lemma {:induction false} NoFull(backups: seq<Backup>, b: Backup)
    requires b in backups && b.base.None?
    ensures FirstFull(backups).Some?
  {
    if !backups[0].IsFull() {
      NoFull(backups[1..], b);
    }
  }

  // backups[i] is the first full backup listed, and the full interval has passed since.
  ghost predicate OldFullAt(backups: seq<Backup>, interval: int, now: int, i: int) {
    FullAt(backups, i) && backups[i].snapshot.time.Some? && Far(interval, now, backups[i].snapshot.time.value)
  }

  // And it has not.
  ghost predicate YoungFullAt(backups: seq<Backup>, interval: int, now: int, i: int) {
    FullAt(backups, i) && backups[i].snapshot.time.Some? && !Far(interval, now, backups[i].snapshot.time.value)
  }

  lemma {:induction false} FirstFullAges(backups: seq<Backup>, interval: int, now: int)
    ensures forall t :: Elapsed(interval, now, t) <==> Far(interval, now, t)
    ensures forall i | FullAt(backups, i) && backups[i].snapshot.time.Some? ::
      if Elapsed(interval, now, backups[i].snapshot.time.value) then OldFullAt(backups, interval, now, i)
      else YoungFullAt(backups, interval, now, i)
  {
    forall t ensures Elapsed(interval, now, t) <==> Far(interval, now, t) {
      ElapsedIsFar(interval, now, t);
    }
  }

  /**
   * A run is incremental exactly when its options allow it, some listed backup has its snapshot at
   * the source, and the first full backup listed is not old enough to be replaced; the base is the
   * snapshot of the first such listed backup.
   */
  lemma {:induction false} WhenIncremental(backups: seq<Backup>, snapshots: set<Snapshot>, opts: RunOptions,
                                           now: int, s: Snapshot)
    ensures Decide(backups, snapshots, opts, now) == Incremental(s) <==>
      && AllowsIncremental(opts)
      && (exists c :: CommonAt(backups, snapshots, c) && backups[c].snapshot == s)
      && (exists f :: YoungFullAt(backups, opts.fullInterval.value, now, f))
  {
    CommonFound(backups, snapshots);
    FullFound(backups);
    if opts.fullInterval.Some? { FirstFullAges(backups, opts.fullInterval.value, now); }
    hide Elapsed, Far, FirstCommon, FirstFull, SomeCommon;
  }

  /**
   * A run makes a full backup exactly when its options force it, no listed backup is full, none has
   * its snapshot at the source, or the first full one is old enough.
   */
  lemma {:induction false} WhenFull(backups: seq<Backup>, snapshots: set<Snapshot>, opts: RunOptions, now: int)
    ensures Decide(backups, snapshots, opts, now) == Full <==>
      || opts.forceFull || !opts.stateFile || opts.fullInterval.None?
      || (forall b | b in backups :: b.base.Some?)
      || (forall b | b in backups :: b.snapshot !in snapshots)
      || exists f :: OldFullAt(backups, opts.fullInterval.value, now, f)
  {
    CommonFound(backups, snapshots);
    FullFound(backups);
    if opts.fullInterval.Some? { FirstFullAges(backups, opts.fullInterval.value, now); }
    hide Elapsed, Far, FirstCommon, FirstFull;
  }

  /**
   * A run ends without a decision exactly when its options allow an incremental, some listed backup
   * has its snapshot at the source, and the time of the first full one does not parse.
   */
  lemma {:induction false} WhenFatal(backups: seq<Backup>, snapshots: set<Snapshot>, opts: RunOptions, now: int)
    ensures Decide(backups, snapshots, opts, now) == Fatal <==>
      && AllowsIncremental(opts) && SomeCommon(backups, snapshots)
      && exists f :: FullAt(backups, f) && backups[f].snapshot.time.None?
  {
    CommonFound(backups, snapshots);
    FullFound(backups);
    hide Elapsed, FirstCommon, FirstFull, SomeCommon;
  }

  /** The first backup of a destination is full, whatever the options and the source. */
  lemma {:induction false} FirstBackupIsFull(snapshots: set<Snapshot>, opts: RunOptions, now: int)
    ensures Decide([], snapshots, opts, now) == Full
  {
    WhenFull([], snapshots, opts, now);
  }
}
