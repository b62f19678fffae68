/** Which backups and snapshots are pruned, and what deleting them can break. */
module Pruning {
  import opened Wrappers
  import opened Backups
  import opened Sequences
  import opened Retention
  import opened Chains

  /* ---- Backups ---- */

  function SubjectOf(b: Backup): Subject {
    Subject(b.snapshot, b.IsFull())
  }

  function SubjectsOf(backups: seq<Backup>): seq<Subject> {
    seq(|backups|, i requires 0 <= i < |backups| => SubjectOf(backups[i]))
  }

  // The backups the policies are applied to: those whose chain is whole.
  ghost function Candidates(backups: seq<Backup>): seq<Subject> {
    CandidatesAmong(backups, IndexOf(backups))
  }

  ghost function CandidatesAmong(backups: seq<Backup>, idx: Index): seq<Subject> {
    SubjectsOf(Filter(backups, b => Restorable(b, idx)))
  }

  lemma {:induction false} CandidatesStep(backups: seq<Backup>, b: Backup, idx: Index)
    ensures CandidatesAmong(backups + [b], idx)
         == CandidatesAmong(backups, idx) + (if Restorable(b, idx) then [SubjectOf(b)] else [])
  {
    FilterAppend(backups, b, x => Restorable(x, idx));
  }

  ghost predicate OnChain(n: Snapshot, b: Backup, idx: Index) {
    exists path: seq<Backup> :: IsPath(b, idx, path) && path[|path| - 1].snapshot == n
  }

  // Where the walks start: of candidates that share a snapshot, from the last listed.
  ghost function Starts(backups: seq<Backup>, idx: Index): Index {
    IndexOf(Filter(backups, b => Restorable(b, idx)))
  }

  lemma {:induction false} StartsStep(backups: seq<Backup>, b: Backup, idx: Index)
    ensures Starts(backups + [b], idx) ==
      if Restorable(b, idx) then Starts(backups, idx)[b.snapshot := b] else Starts(backups, idx)
  {
    hide Restorable, IndexOf, Filter;
    FilterAppend(backups, b, x => Restorable(x, idx));
    var whole := Filter(backups, x => Restorable(x, idx));
    IndexAppend(whole, b);
    assert whole + [] == whole;
  }

  lemma {:induction false} StartsAreCandidates(backups: seq<Backup>)
    ensures Starts(backups, IndexOf(backups)).Keys == NamesOf(Candidates(backups))
  {
    var idx := IndexOf(backups);
    var whole := Filter(backups, b => Restorable(b, idx));
    IndexOfMembers(whole);
    forall n ensures n in IndexOf(whole) <==> n in NamesOf(SubjectsOf(whole)) {
      if n in IndexOf(whole) {
        var i :| 0 <= i < |whole| && whole[i] == IndexOf(whole)[n];
        assert SubjectsOf(whole)[i].name == n;
      }
    }
  }

  // What must stay: every snapshot met on the way from a retained one to its root.
  ghost predicate Survives(n: Snapshot, retained: set<Snapshot>, starts: Index, idx: Index) {
    exists r | r in retained :: r in starts && OnChain(n, starts[r], idx)
  }

  function Without(backups: seq<Backup>, names: set<Snapshot>): seq<Backup> {
    Filter(backups, (b: Backup) => b.snapshot !in names)
  }

  ghost function SurvivorsFrom(retained: set<Snapshot>, starts: Index, idx: Index): set<Snapshot> {
    set n | n in idx && Survives(n, retained, starts, idx)
  }

  // The survivors when no two backups share a snapshot.
  ghost function Survivors(retained: set<Snapshot>, idx: Index): set<Snapshot> {
    SurvivorsFrom(retained, idx, idx)
  }

  ghost function PrunedBackups(backups: seq<Backup>, policies: seq<RetentionPolicy>): Result<seq<Backup>> {
    if policies == [] then Ok([])
    else
      var idx := IndexOf(backups);
      var retained := Retained(policies, Candidates(backups));
      if retained.Failed? then Failed
      else Ok(Without(backups, SurvivorsFrom(retained.value, Starts(backups, idx), idx)))
  }

  ghost predicate AllWalksEnd(backups: seq<Backup>) {
    forall b | b in backups :: WalkEnds(b, IndexOf(backups))
  }

  // First loop: the candidates, in listing order, and their chains.
  method CollectCandidates(backups: seq<Backup>, index: Index)
    returns (subjects: seq<Subject>, chains: map<Snapshot, seq<Backup>>)
    requires AllWalksEnd(backups) && index == IndexOf(backups)
    ensures subjects == Candidates(backups)
    ensures ChainsOf(chains, Starts(backups, index), index)
  {
    IndexOfMembers(backups);
    hide Filter, SubjectsOf, IsFullChain, ChainsOf, CandidatesAmong, Starts, Restorable;
    chains := map[];
    subjects := [];
    NoChains(index);
    for i := 0 to |backups|
      invariant subjects == CandidatesAmong(backups[..i], index)
      invariant ChainsOf(chains, Starts(backups[..i], index), index)
    {
      var b := backups[i];
      TakeStep(backups, i);
      CandidatesStep(backups[..i], b, index);
      StartsStep(backups[..i], b, index);
      var chain, ok := GetFullChain(b, index);
      WholeIffOk(b, index, chain, ok);
      if ok {
        ChainsMore(chains, Starts(backups[..i], index), b, chain, index);
        subjects := subjects + [SubjectOf(b)];
        chains := chains[b.snapshot := chain];
      } else {
        assert subjects + [] == subjects;
      }
    }
    TakeAll(backups);
  }

  // The chain of each start.
  ghost predicate ChainsOf(chains: map<Snapshot, seq<Backup>>, starts: Index, index: Index) {
    && chains.Keys == starts.Keys
    && forall n | n in starts :: starts[n].snapshot == n && IsFullChain(starts[n], index, chains[n], true)
  }

  lemma {:induction false} NoChains(index: Index)
    ensures CandidatesAmong([], index) == [] && ChainsOf(map[], Starts([], index), index)
  {
  }

  lemma {:induction false} ChainsMore(chains: map<Snapshot, seq<Backup>>, starts: Index, b: Backup,
                                      chain: seq<Backup>, index: Index)
    requires ChainsOf(chains, starts, index) && IsFullChain(b, index, chain, true)
    ensures ChainsOf(chains[b.snapshot := chain], starts[b.snapshot := b], index)
  {
  }

  lemma {:induction false} WholeIffOk(b: Backup, idx: Index, chain: seq<Backup>, ok: bool)
    requires IsFullChain(b, idx, chain, ok)
    ensures Restorable(b, idx) <==> ok
  {
    if !ok {
      OnlyChain(b, idx, chain);
    }
  }

  lemma {:induction false} OnlyChain(b: Backup, idx: Index, chain: seq<Backup>)
    requires IsFullChain(b, idx, chain, false)
    ensures !Restorable(b, idx)
  {
    forall other | IsFullChain(b, idx, other, true) ensures false {
      ChainIsUnique(b, idx, chain, false, other, true);
    }
  }

  // Go walks the map in any order, so the next name is any that is left.
  method Fronts(names: set<Snapshot>) returns (fronts: seq<Snapshot>)
    ensures forall n :: n in fronts <==> n in names
  {
    var todo := names;
    fronts := [];
    while todo != {}
      invariant forall n :: n in names <==> n in todo || n in fronts
      decreases todo
    {
      var r :| r in todo;
      todo := todo - {r};
      fronts := fronts + [r];
    }
  }

  function NamesOn(chain: seq<Backup>): set<Snapshot> {
    set b | b in chain :: b.snapshot
  }

  method AddChain(retained: set<Snapshot>, chain: seq<Backup>) returns (r: set<Snapshot>)
    ensures r == retained + NamesOn(chain)
  {
    r := retained;
    for j := 0 to |chain|
      invariant r == retained + NamesOn(chain[..j])
    {
      assert chain[..j + 1] == chain[..j] + [chain[j]];
      r := r + {chain[j].snapshot};
    }
    assert chain[..|chain|] == chain;
  }

  // The names on a chain are exactly those met on the walk.
  lemma {:induction false} ChainNames(b: Backup, idx: Index, chain: seq<Backup>, ok: bool)
    requires IsFullChain(b, idx, chain, ok)
    ensures forall n :: n in NamesOn(chain) <==> OnChain(n, b, idx)
  {
    forall n | n in NamesOn(chain) ensures OnChain(n, b, idx) {
      var j :| 0 <= j < |chain| && chain[j].snapshot == n;
      assert IsPath(b, idx, chain[..j + 1]);
    }
    forall n | OnChain(n, b, idx) ensures n in NamesOn(chain) {
      var path: seq<Backup> :| IsPath(b, idx, path) && path[|path| - 1].snapshot == n;
      ChainDominates(b, idx, chain, ok, path);
      assert path[|path| - 1] in chain;
    }
  }

  // Second loop: the retained names and the names on their chains.
  method WithChains(names: set<Snapshot>, chains: map<Snapshot, seq<Backup>>, ghost starts: Index, ghost index: Index)
    returns (retained: set<Snapshot>)
    requires ChainsOf(chains, starts, index) && names <= starts.Keys
    ensures forall n :: n in retained <==> Survives(n, names, starts, index)
  {
    var fronts := Fronts(names);
    retained := names;
    ghost var done: set<Snapshot> := {};
    for i := 0 to |fronts|
      invariant done == set n | n in fronts[..i]
      invariant forall n :: n in retained <==> n in names || exists r :: r in done && n in NamesOn(chains[r])
    {
      assert fronts[..i + 1] == fronts[..i] + [fronts[i]];
      retained := AddChain(retained, chains[fronts[i]]);
      done := done + {fronts[i]};
    }
    assert done == names;
    forall r | r in names ensures forall n :: n in NamesOn(chains[r]) <==> OnChain(n, starts[r], index) {
      ChainNames(starts[r], index, chains[r], true);
      assert chains[r][0].snapshot == r;
    }
  }

  // Third loop: the listing without what survives.
  method Complement(backups: seq<Backup>, retained: set<Snapshot>) returns (pruned: seq<Backup>)
    ensures pruned == Without(backups, retained)
  {
    pruned := [];
    for i := 0 to |backups|
      invariant pruned == Without(backups[..i], retained)
    {
      assert backups[..i + 1] == backups[..i] + [backups[i]];
      FilterAppend(backups[..i], backups[i], (x: Backup) => x.snapshot !in retained);
      if backups[i].snapshot !in retained {
        pruned := pruned + [backups[i]];
      }
    }
    assert backups[..|backups|] == backups;
  }

  // What a walk meets is indexed when its start is.
  lemma {:induction false} WalkIsIndexed(b: Backup, idx: Index, path: seq<Backup>)
    requires (forall n | n in idx :: idx[n].snapshot == n) && b.snapshot in idx && IsPath(b, idx, path)
    ensures path[|path| - 1].snapshot in idx
  {
    if |path| > 1 {
      assert path[|path| - 2 + 1] == idx[path[|path| - 2].base.value];
    }
  }

  /** What survives is never more than what is listed, so the capacity the result is made with is not negative. */
  lemma {:induction false} SurvivorsFit(backups: seq<Backup>, names: set<Snapshot>, survivors: set<Snapshot>)
    requires forall n | n in survivors :: Survives(n, names, Starts(backups, IndexOf(backups)), IndexOf(backups))
    ensures |survivors| <= |backups|
  {
    var idx := IndexOf(backups);
    var whole := Filter(backups, b => Restorable(b, idx));
    IndexOfMembers(backups);
    IndexOfMembers(whole);
    forall n | n in survivors ensures n in idx {
      var r :| r in names && r in IndexOf(whole) && OnChain(n, IndexOf(whole)[r], idx);
      var path: seq<Backup> :| IsPath(IndexOf(whole)[r], idx, path) && path[|path| - 1].snapshot == n;
      WalkIsIndexed(IndexOf(whole)[r], idx, path);
    }
    IndexSize(backups);
    SubsetSize(survivors, idx.Keys);
    assert |idx.Keys| == |idx|;
  }

  method GetPrunedBackups(backups: seq<Backup>, policies: seq<RetentionPolicy>) returns (r: Result<seq<Backup>>)
    requires AllWalksEnd(backups)
    ensures r == PrunedBackups(backups, policies)
  {
    var index := MakeIndex(backups);
    var subjects, chains := CollectCandidates(backups, index);
    if policies == [] {
      return Ok([]);
    }
    var retention := ApplyRetentionPolicies(policies, subjects);
    if retention.Failed? {
      return Failed;
    }
    RetainedIsUnion(policies, subjects);
    ghost var starts := Starts(backups, index);
    StartsAreCandidates(backups);
    var retained := WithChains(retention.value, chains, starts, index);
    // The program panics on a negative capacity.
    SurvivorsFit(backups, retention.value, retained);
    ghost var capacity: nat := |backups| - |retained|;
    var pruned := Complement(backups, retained);
    IndexOfMembers(backups);
    ghost var survivors := SurvivorsFrom(retention.value, starts, index);
    FilterSame(backups, (b: Backup) => b.snapshot !in retained, (b: Backup) => b.snapshot !in survivors);
    return Ok(pruned);
  }
}
