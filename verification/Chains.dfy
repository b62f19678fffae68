/** Indexes of backups, and the chain of bases a backup is restored through. */
module Chains {
  import opened Backups

  type Index = map<Snapshot, Backup>

  // When two backups share a snapshot the later one wins.
  function IndexOf(backups: seq<Backup>): Index {
    if backups == [] then map[]
    else
      var b := backups[|backups| - 1];
      IndexOf(backups[..|backups| - 1])[b.snapshot := b]
  }

  method MakeIndex(backups: seq<Backup>) returns (idx: Index)
    ensures idx == IndexOf(backups)
  {
    idx := map[];
    for i := 0 to |backups|
      invariant idx == IndexOf(backups[..i])
    {
      assert backups[..i + 1][..i] == backups[..i];
      idx := idx[backups[i].snapshot := backups[i]];
    }
    assert backups[..|backups|] == backups;
  }

  ghost predicate DistinctNames(backups: seq<Backup>) {
    forall i, j | 0 <= i < j < |backups| :: backups[i].snapshot != backups[j].snapshot
  }

  lemma {:induction false} IndexOfMembers(backups: seq<Backup>)
    ensures forall n | n in IndexOf(backups) :: IndexOf(backups)[n] in backups && IndexOf(backups)[n].snapshot == n
    ensures forall b | b in backups :: b.snapshot in IndexOf(backups)
    ensures DistinctNames(backups) ==> forall b | b in backups :: IndexOf(backups)[b.snapshot] == b
  {
    if backups != [] {
      var k := |backups| - 1;
      IndexOfMembers(backups[..k]);
      assert backups == backups[..k] + [backups[k]];
    }
  }

  // backups[i] is the last with its name.
  ghost predicate LastAt(backups: seq<Backup>, i: int) {
    0 <= i < |backups| && forall j | i < j < |backups| :: backups[j].snapshot != backups[i].snapshot
  }

  /** A name is indexed exactly when it is listed, and stands for the last backup listed with it. */
  lemma {:induction false} LastWins(backups: seq<Backup>, i: int)
    requires LastAt(backups, i)
    ensures backups[i].snapshot in IndexOf(backups) && IndexOf(backups)[backups[i].snapshot] == backups[i]
  {
    var k := |backups| - 1;
    if i < k {
      assert LastAt(backups[..k], i);
      LastWins(backups[..k], i);
    }
  }

  lemma {:induction false} IndexedIsLast(backups: seq<Backup>, n: Snapshot) returns (i: int)
    requires n in IndexOf(backups)
    ensures LastAt(backups, i) && backups[i].snapshot == n
  {
    var k := |backups| - 1;
    if n == backups[k].snapshot {
      i := k;
    } else {
      i := IndexedIsLast(backups[..k], n);
    }
  }

  lemma {:induction false} IndexAppend(backups: seq<Backup>, b: Backup)
    ensures IndexOf(backups + [b]) == IndexOf(backups)[b.snapshot := b]
  {
    assert (backups + [b])[..|backups|] == backups;
  }

  lemma {:induction false} IndexSize(backups: seq<Backup>)
    ensures |IndexOf(backups)| <= |backups|
  {
    if backups != [] {
      var k := |backups| - 1;
      IndexSize(backups[..k]);
      assert IndexOf(backups).Keys == IndexOf(backups[..k]).Keys + {backups[k].snapshot};
    }
  }

  /* ---- The walk along bases ---- */

  // Each backup after the first is the one the index holds for its predecessor's base.
  ghost predicate Linked(idx: Index, path: seq<Backup>) {
    forall i | 0 <= i < |path| - 1 ::
      path[i].base.Some? && path[i].base.value in idx && path[i + 1] == idx[path[i].base.value]
  }

  ghost predicate IsPath(b: Backup, idx: Index, path: seq<Backup>) {
    path != [] && path[0] == b && Linked(idx, path)
  }

  // The walk cannot be continued after b.
  predicate Stops(b: Backup, idx: Index) {
    b.base.None? || b.base.value !in idx
  }

  // The whole walk from b, and whether it reached a full backup.
  ghost predicate IsFullChain(b: Backup, idx: Index, chain: seq<Backup>, ok: bool) {
    && IsPath(b, idx, chain)
    && Stops(chain[|chain| - 1], idx)
    && (ok <==> chain[|chain| - 1].IsFull())
  }

  ghost predicate WalkEnds(b: Backup, idx: Index) {
    exists chain, ok :: IsFullChain(b, idx, chain, ok)
  }

  ghost predicate Restorable(b: Backup, idx: Index) {
    exists chain :: IsFullChain(b, idx, chain, true)
  }

  // The program loops forever on a walk that does not end.
  method GetFullChain(backup: Backup, index: Index) returns (chain: seq<Backup>, ok: bool)
    requires WalkEnds(backup, index)
    ensures IsFullChain(backup, index, chain, ok)
  {
    ghost var whole: seq<Backup>, reached: bool :| IsFullChain(backup, index, whole, reached);
    var b := backup;
    ok := true;
    chain := [b];
    while !b.IsFull()
      invariant IsPath(backup, index, chain) && ok
      invariant b == chain[|chain| - 1]
      invariant |chain| <= |whole| && chain == whole[..|chain|]
      decreases |whole| - |chain|
    {
      if b.base.value !in index {
        ok := false;
        break;
      }
      assert whole[|chain| - 1] == b;
      b := index[b.base.value];
      chain := chain + [b];
    }
  }

  /* ---- Facts about walks ---- */

  // Two walks from one place agree as far as the shorter goes.
  lemma {:induction false} PathsAgree(b: Backup, idx: Index, p: seq<Backup>, q: seq<Backup>, k: nat)
    requires IsPath(b, idx, p) && IsPath(b, idx, q) && k < |p| && k < |q|
    ensures p[k] == q[k]
  {
    if k > 0 {
      PathsAgree(b, idx, p, q, k - 1);
      assert p[k - 1 + 1] == idx[p[k - 1].base.value] && q[k - 1 + 1] == idx[q[k - 1].base.value];
    }
  }

  lemma {:induction false} ChainDominates(b: Backup, idx: Index, chain: seq<Backup>, ok: bool, path: seq<Backup>)
    requires IsFullChain(b, idx, chain, ok) && IsPath(b, idx, path)
    ensures |path| <= |chain| && path == chain[..|path|]
  {
    var k := |chain| - 1;
    if |path| > |chain| {
      PathsAgree(b, idx, chain, path, k);
    }
    forall i | 0 <= i < |path| ensures path[i] == chain[i] { PathsAgree(b, idx, path, chain, i); }
  }

  /** A backup has at most one chain. */
  lemma {:induction false} ChainIsUnique(b: Backup, idx: Index, c: seq<Backup>, cok: bool, d: seq<Backup>, dok: bool)
    requires IsFullChain(b, idx, c, cok) && IsFullChain(b, idx, d, dok)
    ensures c == d && cok == dok
  {
    ChainDominates(b, idx, c, cok, d);
    ChainDominates(b, idx, d, dok, c);
  }

  /** The chain of each member of a chain is the rest of it. */
  lemma {:induction false} ChainSuffix(b: Backup, idx: Index, chain: seq<Backup>, ok: bool, k: nat)
    requires IsFullChain(b, idx, chain, ok) && k < |chain|
    ensures IsFullChain(chain[k], idx, chain[k..], ok)
  {
  }

  // One step of a walk: what restores a backup restores its base first.
  lemma {:induction false} RestorableStep(b: Backup, idx: Index)
    ensures Restorable(b, idx) <==>
      b.IsFull() || (b.base.value in idx && Restorable(idx[b.base.value], idx))
  {
    if Restorable(b, idx) && !b.IsFull() {
      var chain: seq<Backup> :| IsFullChain(b, idx, chain, true);
      assert |chain| > 1 && chain[0 + 1] == idx[chain[0].base.value];
      ChainSuffix(b, idx, chain, true, 1);
    }
    if b.IsFull() {
      assert IsFullChain(b, idx, [b], true);
    } else if b.base.value in idx && Restorable(idx[b.base.value], idx) {
      var next := idx[b.base.value];
      var rest: seq<Backup> :| IsFullChain(next, idx, rest, true);
      ExtendChain(b, idx, rest, true);
    }
  }

  lemma {:induction false} ExtendChain(b: Backup, idx: Index, rest: seq<Backup>, ok: bool)
    requires b.base.Some? && b.base.value in idx && IsFullChain(idx[b.base.value], idx, rest, ok)
    ensures IsFullChain(b, idx, [b] + rest, ok)
  {
  }

  /* ---- When walks end ---- */

  ghost predicate NoRepeats(path: seq<Backup>) {
    forall i, j | 0 <= i < j < |path| :: path[i] != path[j]
  }

  ghost predicate MeetsCycle(b: Backup, idx: Index) {
    exists path :: IsPath(b, idx, path) && !NoRepeats(path)
  }

  lemma {:induction false} NoRepeatInChain(b: Backup, idx: Index, chain: seq<Backup>, ok: bool)
    requires IsFullChain(b, idx, chain, ok)
    ensures NoRepeats(chain)
  {
    forall i, j | 0 <= i < j < |chain| ensures chain[i] != chain[j] {
      ChainSuffix(b, idx, chain, ok, i);
      ChainSuffix(b, idx, chain, ok, j);
      if chain[i] == chain[j] {
        ChainIsUnique(chain[i], idx, chain[i..], ok, chain[j..], ok);
      }
    }
  }

  // The names a walk has looked up.
  ghost function Looked(path: seq<Backup>): set<Snapshot> {
    if |path| <= 1 then {}
    else Looked(path[..|path| - 1]) + (if path[|path| - 2].base.Some? then {path[|path| - 2].base.value} else {})
  }

  lemma {:induction false} LookedBefore(idx: Index, path: seq<Backup>, n: Snapshot)
    requires |path| > 1 && NoRepeats(path) && n in idx && path[|path| - 1] == idx[n]
    requires forall m | m in Looked(path[..|path| - 1]) :: m in idx && idx[m] in path[..|path| - 1][1..]
    ensures n !in Looked(path[..|path| - 1])
  {
  }

  lemma {:induction false} StillMet(path: seq<Backup>, b: Backup)
    requires |path| > 1 && b in path[..|path| - 1][1..]
    ensures b in path[1..]
  {
    var init := path[..|path| - 1];
    var i :| 0 <= i < |init[1..]| && init[1..][i] == b;
    assert path[1..][i] == b;
  }

  lemma {:induction false} LookedAreDistinct(b: Backup, idx: Index, path: seq<Backup>)
    requires IsPath(b, idx, path) && NoRepeats(path)
    ensures |Looked(path)| == |path| - 1 && Looked(path) <= idx.Keys
    ensures forall n | n in Looked(path) :: idx[n] in path[1..]
  {
    var k := |path| - 1;
    if k > 0 {
      var init := path[..k];
      LookedAreDistinct(b, idx, init);
      var n := path[k - 1].base.value;
      assert path[k - 1 + 1] == idx[n];
      assert Looked(path) == Looked(init) + {n};
      LookedBefore(idx, path, n);
      hide Looked, Linked, NoRepeats;
      forall m | m in Looked(path) ensures idx[m] in path[1..] {
        if m != n {
          StillMet(path, idx[m]);
        } else {
          assert path[1..][k - 1] == idx[m];
        }
      }
    }
  }

  lemma {:induction false} SubsetSize<T>(a: set<T>, b: set<T>)
    requires a <= b
    ensures |a| <= |b|
  {
    if x :| x in a {
      SubsetSize(a - {x}, b - {x});
    }
  }

  /** A chain visits at most every indexed backup once, after its start. */
  lemma {:induction false} ChainLength(b: Backup, idx: Index, chain: seq<Backup>, ok: bool)
    requires IsFullChain(b, idx, chain, ok)
    ensures |chain| <= |idx| + 1
  {
    NoRepeatInChain(b, idx, chain, ok);
    LookedAreDistinct(b, idx, chain);
    SubsetSize(Looked(chain), idx.Keys);
    assert |idx.Keys| == |idx|;
  }

  // Follow the walk as far as n steps.
  lemma {:induction false} FollowWalk(b: Backup, idx: Index, n: nat) returns (path: seq<Backup>)
    ensures IsPath(b, idx, path)
    ensures Stops(path[|path| - 1], idx) || |path| == n + 1
  {
    if n == 0 {
      path := [b];
    } else {
      path := FollowWalk(b, idx, n - 1);
      var last := path[|path| - 1];
      if !Stops(last, idx) {
        path := path + [idx[last.base.value]];
      }
    }
  }

  lemma {:induction false} LongWalkRepeats(b: Backup, idx: Index, path: seq<Backup>)
    requires IsPath(b, idx, path) && |path| > |idx| + 1
    ensures !NoRepeats(path)
  {
    if NoRepeats(path) {
      LookedAreDistinct(b, idx, path);
      assert |idx.Keys| == |idx|;
      SubsetSize(Looked(path), idx.Keys);
    }
  }

  /** The walk from a backup ends exactly when it meets no cycle. */
  lemma {:induction false} WalkEndsIffNoCycle(b: Backup, idx: Index)
    ensures WalkEnds(b, idx) <==> !MeetsCycle(b, idx)
  {
    if WalkEnds(b, idx) {
      var chain: seq<Backup>, ok: bool :| IsFullChain(b, idx, chain, ok);
      NoRepeatInChain(b, idx, chain, ok);
      forall path | IsPath(b, idx, path) ensures NoRepeats(path) {
        ChainDominates(b, idx, chain, ok, path);
      }
    }
    var path := FollowWalk(b, idx, |idx| + 1);
    if Stops(path[|path| - 1], idx) {
      assert IsFullChain(b, idx, path, path[|path| - 1].IsFull());
    } else {
      LongWalkRepeats(b, idx, path);
    }
  }

  /* ---- Older bases ---- */

  ghost predicate OlderBase(b: Backup) {
    b.base.Some? ==> b.base.value.rank < b.snapshot.rank
  }

  // An index by snapshot in which every base is older than what is built on it.
  ghost predicate OlderBases(idx: Index) {
    forall n | n in idx :: idx[n].snapshot == n && OlderBase(idx[n])
  }

  /** With older bases every walk ends, and names strictly decrease along it. */
  lemma {:induction false} OlderBasesEnd(b: Backup, idx: Index)
    requires OlderBases(idx) && OlderBase(b)
    ensures WalkEnds(b, idx)
    decreases b.snapshot.rank
  {
    if Stops(b, idx) {
      assert IsFullChain(b, idx, [b], b.IsFull());
    } else {
      var next := idx[b.base.value];
      OlderBasesEnd(next, idx);
      var rest: seq<Backup>, ok: bool :| IsFullChain(next, idx, rest, ok);
      ExtendChain(b, idx, rest, ok);
    }
  }

  lemma {:induction false} NamesDecrease(idx: Index, path: seq<Backup>, i: nat, j: nat)
    requires Linked(idx, path) && OlderBases(idx) && path != [] && OlderBase(path[0])
    requires i < j < |path|
    ensures path[j].snapshot.rank < path[i].snapshot.rank
  {
    assert path[j - 1 + 1] == idx[path[j - 1].base.value];
    if j - 1 > 0 { assert path[j - 2 + 1] == idx[path[j - 2].base.value]; }
    if i < j - 1 {
      NamesDecrease(idx, path, i, j - 1);
    }
  }
}
