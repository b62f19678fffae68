/** Restoring a chain into a target directory. */
module Restore {
  import opened Wrappers
  import opened Backups
  import opened Chains
  import opened Pruning
  import opened PruningFacts
  import opened Protocol
  import opened EndToEnd
  import opened Machine

  // The directories under a target after a tar restoration of b, or None when a rename fails: what
  // was there under b's name goes, b's directory is made anew or by renaming its base's, and the
  // payload is extracted into it.
  function AfterRestore<C, P>(k: Codec<C, P>, dirs: map<string, C>, b: Backup, payload: P): Option<map<string, C>> {
    var cleared := dirs - {b.snapshot.name};
    if b.base.None? then Some(cleared[b.snapshot.name := k.apply(payload, k.empty)])
    else if b.base.value.name !in cleared then None
    else Some((cleared - {b.base.value.name})[b.snapshot.name := k.apply(payload, cleared[b.base.value.name])])
  }

  /**
   * The renaming fails exactly when the base's directory is not there, or is the backup's own, which
   * is cleared first. After a restoration, directory by directory: the backup's own holds its payload
   * on top of what its base's held, or of nothing; its base's is gone; the others are as they were.
   */
  lemma {:induction false} DirectoryAfterRestore<C, P>(k: Codec<C, P>, dirs: map<string, C>, b: Backup, payload: P,
                                                       n: string)
    ensures AfterRestore(k, dirs, b, payload).None? <==>
      b.base.Some? && (b.base.value.name !in dirs || b.base.value.name == b.snapshot.name)
    ensures AfterRestore(k, dirs, b, payload).Some? ==>
      var after, isBase := AfterRestore(k, dirs, b, payload).value, b.base.Some? && b.base.value.name == n;
      && (n in after <==> n == b.snapshot.name || (n in dirs && !isBase))
      && (n in after && n != b.snapshot.name ==> after[n] == dirs[n])
      && (n == b.snapshot.name && b.base.None? ==> after[n] == k.apply(payload, k.empty))
      && (n == b.snapshot.name && b.base.Some? ==> after[n] == k.apply(payload, dirs[b.base.value.name]))
  {
  }

  // A payload file found in the target directory is taken before the destination's.
  function Payload<P>(files: map<Backup, P>, local: map<string, P>, b: Backup): Option<P> {
    if b.Filename() in local then Some(local[b.Filename()])
    else if b in files then Some(files[b])
    else None
  }

  // The payloads a restoration takes.
  function Taken<P>(files: map<Backup, P>, local: map<string, P>): map<Backup, P> {
    map b | b in files :: if b.Filename() in local then local[b.Filename()] else files[b]
  }

  // Payload files lying in the target directory are those of the destination.
  predicate NothingStale<P(==)>(files: map<Backup, P>, local: map<string, P>, chain: seq<Backup>)
    requires forall b | b in chain :: b in files
  {
    forall b | b in chain && b.Filename() in local :: local[b.Filename()] == files[b]
  }

  lemma {:induction false} ReplayOfTaken<C, P>(k: Codec<C, P>, files: map<Backup, P>, local: map<string, P>,
                                               chain: seq<Backup>)
    requires forall b | b in chain :: b in files
    ensures NothingStale(files, local, chain) ==> Replay(k, Taken(files, local), chain) == Replay(k, files, chain)
  {
    if chain != [] {
      assert forall b | b in chain[1..] :: b in chain;
      ReplayOfTaken(k, files, local, chain[1..]);
    }
  }

  // Different payloads of a full backup restore to different contents.
  ghost predicate Telling<C, P(!new)>(k: Codec<C, P>) {
    forall p, q :: k.apply(p, k.empty) == k.apply(q, k.empty) ==> p == q
  }

  /**
   * With payload files of any kind in the target directory, a full backup restores to what its
   * destination holds of it exactly when the file lying there under its name, if any, is the
   * destination's.
   */
  lemma {:induction false} FullRestoresIffNotStale<C, P(!new)>(k: Codec<C, P>, files: map<Backup, P>,
                                                        local: map<string, P>, b: Backup)
    requires Telling(k) && b in files
    ensures Replay(k, Taken(files, local), [b]) == Replay(k, files, [b]) <==> NothingStale(files, local, [b])
  {
    ReplayOne(k, files, b);
    ReplayOne(k, Taken(files, local), b);
    assert b in [b];
  }

  lemma {:induction false} ReplayOne<C, P>(k: Codec<C, P>, files: map<Backup, P>, b: Backup)
    requires b in files
    ensures Replay(k, files, [b]) == k.apply(files[b], k.empty)
  {
    assert [b][1..] == [];
  }

  // Two directories that differ only in entries of these names.
  ghost predicate SameElsewhere<C>(before: map<string, C>, after: map<string, C>, names: set<string>) {
    forall n | n !in names :: (n in after <==> n in before) && (n in after ==> after[n] == before[n])
  }

  function NamesOfChain(chain: seq<Backup>): set<string> {
    set b | b in chain :: b.snapshot.name
  }

  ghost predicate NamesDiffer(chain: seq<Backup>) {
    forall i, j | 0 <= i < j < |chain| :: chain[i].snapshot.name != chain[j].snapshot.name
  }

  // What restoring a chain leaves: only its newest directory, holding the replayed content.
  ghost function Restored<C, P>(k: Codec<C, P>, files: map<Backup, P>, dirs: map<string, C>,
                                chain: seq<Backup>): map<string, C>
    requires forall b | b in chain :: b in files
  {
    if chain == [] then dirs
    else (dirs - NamesOfChain(chain))[chain[0].snapshot.name := Replay(k, files, chain)]
  }

  // One more restoration, of the backup built on what was restored last.
  lemma {:induction false} RestoreNext<C, P>(k: Codec<C, P>, files: map<Backup, P>, dirs: map<string, C>, b: Backup,
                                             rest: seq<Backup>)
    requires rest != [] && b.base == Some(rest[0].snapshot) && b.snapshot.name !in NamesOfChain(rest)
    requires b in files && forall x | x in rest :: x in files
    ensures forall x | x in [b] + rest :: x in files
    ensures AfterRestore(k, Restored(k, files, dirs, rest), b, files[b]) == Some(Restored(k, files, dirs, [b] + rest))
  {
    var name, base := b.snapshot.name, rest[0].snapshot.name;
    var content := Replay(k, files, rest);
    assert ([b] + rest)[1..] == rest;
    assert Replay(k, files, [b] + rest) == k.apply(files[b], content);
    assert NamesOfChain([b] + rest) == {name} + NamesOfChain(rest);
    assert base in NamesOfChain(rest) by { assert rest[0] in rest; }
    var others := dirs - NamesOfChain(rest);
    hide NamesOfChain, Replay;
    assert others[base := content] - {name} - {base} == dirs - NamesOfChain([b] + rest);
  }

  lemma {:induction false} RestoreRoot<C, P>(k: Codec<C, P>, files: map<Backup, P>, dirs: map<string, C>, b: Backup)
    requires b.IsFull() && b in files
    ensures AfterRestore(k, dirs, b, files[b]) == Some(Restored(k, files, dirs, [b]))
  {
    assert [b][1..] == [];
    assert Replay(k, files, [b]) == k.apply(files[b], k.empty);
    assert NamesOfChain([b]) == {b.snapshot.name};
  }

  lemma {:induction false} RestoreStep<C, P>(k: Codec<C, P>, files: map<Backup, P>, dirs: map<string, C>, idx: Index,
                                             chain: seq<Backup>, i: nat)
    requires i < |chain| && chain[|chain| - 1].IsFull() && Linked(idx, chain) && NamesDiffer(chain)
    requires forall n | n in idx :: idx[n].snapshot == n
    requires forall b | b in chain :: b in files
    ensures AfterRestore(k, Restored(k, files, dirs, chain[i + 1..]), chain[i], files[chain[i]])
         == Some(Restored(k, files, dirs, chain[i..]))
  {
    var b, rest := chain[i], chain[i + 1..];
    assert chain[i..] == [b] + rest;
    hide Restored, AfterRestore;
    if rest == [] {
      assert Restored(k, files, dirs, rest) == dirs by { RestoredNothing(k, files, dirs); }
      assert i == |chain| - 1 && chain[i..] == [b];
      RestoreRoot(k, files, dirs, b);
    } else {
      assert chain[i + 1] == idx[b.base.value] && rest[0] == chain[i + 1];
      RestoreNext(k, files, dirs, b, rest);
    }
  }

  lemma {:induction false} RestoredNothing<C, P>(k: Codec<C, P>, files: map<Backup, P>, dirs: map<string, C>)
    ensures Restored(k, files, dirs, []) == dirs
  {
  }

  lemma {:induction false} NamesOfStep(chain: seq<Backup>, idx: Index, i: nat)
    requires i < |chain| && chain[|chain| - 1].IsFull() && Linked(idx, chain)
    requires forall n | n in idx :: idx[n].snapshot == n
    ensures chain[i].snapshot.name in NamesOfChain(chain)
    ensures chain[i].base.Some? ==> chain[i].base.value.name in NamesOfChain(chain)
  {
    if i < |chain| - 1 {
      assert chain[i + 1] == idx[chain[i].base.value] && chain[i + 1] in chain;
    }
  }

  lemma {:induction false} SameStill<C>(before: map<string, C>, middle: map<string, C>, after: map<string, C>,
                                        chain: seq<Backup>, i: nat)
    requires i < |chain| && SameElsewhere(before, middle, NamesOfChain(chain))
    requires chain[i].snapshot.name in NamesOfChain(chain)
    requires chain[i].base.Some? ==> chain[i].base.value.name in NamesOfChain(chain)
    requires forall n | n != chain[i].snapshot.name && (chain[i].base.Some? ==> n != chain[i].base.value.name) ::
      (n in after <==> n in middle) && (n in after ==> after[n] == middle[n])
    ensures SameElsewhere(before, after, NamesOfChain(chain))
  {
  }

  class Target<C(!new), P> {
    // Directories under the target, and payload files lying in it.
    var dirs: map<string, C>
    var local: map<string, P>

    // The tar source's RestoreBackup. Extraction may fail.
    method RestoreBackup(k: Codec<C, P>, b: Backup, payload: P, extracts: bool) returns (ok: bool)
      modifies this`dirs
      ensures ok == (extracts && AfterRestore(k, old(dirs), b, payload).Some?)
      ensures ok ==> Some(dirs) == AfterRestore(k, old(dirs), b, payload)
      ensures forall n | n != b.snapshot.name && (b.base.Some? ==> n != b.base.value.name) ::
        (n in dirs <==> n in old(dirs)) && (n in dirs ==> dirs[n] == old(dirs)[n])
    {
      dirs := dirs - {b.snapshot.name};
      ghost var cleared := dirs;
      if b.base.None? {
        dirs := dirs[b.snapshot.name := k.empty];
        if extracts {
          dirs := dirs[b.snapshot.name := k.apply(payload, k.empty)];
          assert dirs == cleared[b.snapshot.name := k.apply(payload, k.empty)];
        }
      } else {
        if b.base.value.name !in dirs {
          return false;
        }
        var moved := dirs[b.base.value.name];
        dirs := (dirs - {b.base.value.name})[b.snapshot.name := moved];
        if extracts {
          dirs := dirs[b.snapshot.name := k.apply(payload, moved)];
          assert dirs == (cleared - {b.base.value.name})[b.snapshot.name := k.apply(payload, moved)];
        }
      }
      ok := extracts;
    }

    // restore: fetch one backup and hand it to its source.
    method RestoreOne(k: Codec<C, P>, files: map<Backup, P>, b: Backup, extracts: bool) returns (ok: bool)
      modifies this`dirs
      ensures ok == (extracts && Payload(files, local, b).Some? &&
        AfterRestore(k, old(dirs), b, Payload(files, local, b).value).Some?)
      ensures ok ==> Some(dirs) == AfterRestore(k, old(dirs), b, Payload(files, local, b).value)
      ensures forall n | n != b.snapshot.name && (b.base.Some? ==> n != b.base.value.name) ::
        (n in dirs <==> n in old(dirs)) && (n in dirs ==> dirs[n] == old(dirs)[n])
    {
      var data := Payload(files, local, b);
      if data.None? {
        return false;
      }
      ok := RestoreBackup(k, b, data.value, extracts);
    }

    // The oldest-first loop over a whole chain.
    method RestoreChain(k: Codec<C, P>, files: map<Backup, P>, ghost idx: Index, chain: seq<Backup>,
                        extracts: Backup -> bool)
      returns (ok: bool)
      requires chain != [] && Linked(idx, chain) && chain[|chain| - 1].IsFull() && NamesDiffer(chain)
      requires forall n | n in idx :: idx[n].snapshot == n
      requires forall b | b in chain :: b in files
      modifies this`dirs
      ensures ok <==> forall b | b in chain :: extracts(b)
      ensures ok ==> dirs == Restored(k, Taken(files, local), old(dirs), chain)
      ensures SameElsewhere(old(dirs), dirs, NamesOfChain(chain))
    {
      var i := |chain|;
      ghost var taken := Taken(files, local);
      while i > 0
        invariant 0 <= i <= |chain|
        invariant dirs == Restored(k, taken, old(dirs), chain[i..])
        invariant SameElsewhere(old(dirs), dirs, NamesOfChain(chain))
        invariant forall j | i <= j < |chain| :: extracts(chain[j])
      {
        i := i - 1;
        RestoreStep(k, taken, old(dirs), idx, chain, i);
        NamesOfStep(chain, idx, i);
        ghost var before := dirs;
        ok := RestoreOne(k, files, chain[i], extracts(chain[i]));
        SameStill(old(dirs), before, dirs, chain, i);
        if !ok {
          return;
        }
      }
      assert chain[0..] == chain;
      ok := true;
    }

    // cmdRestore: the first listed backup whose name begins as asked, with what it is built on.
    method Restore(u: Uback<C, P>, d: string, targetName: string, extracts: Backup -> bool)
      returns (r: Option<Backup>, ghost listing: seq<Backup>, ghost chain: seq<Backup>)
      requires u.Valid() && forall b | b in StoreOf(u.dests, d).files :: b.Genuine()
      modifies this`dirs
      ensures IsListing(listing, StoreOf(u.dests, d).files.Keys)
      ensures r.Some? ==>
        && r.value in listing && targetName <= r.value.FullName()
        && (forall b | b in listing && targetName <= b.FullName() :: b.snapshot.rank <= r.value.snapshot.rank)
        && (targetName == [] ==> r.value == listing[0])
      ensures r.Some? ==>
        && FirstMatch(listing, targetName) == r && r.value.snapshot in u.history
        && IsFullChain(r.value, IndexOf(listing), chain, true)
        && (forall b | b in chain :: b in StoreOf(u.dests, d).files)
        && dirs == (old(dirs) - NamesOfChain(chain))
             [r.value.snapshot.name := Replay(u.codec, Taken(StoreOf(u.dests, d).files, local), chain)]
      ensures
        (r.Some? && LawfulOn(u.codec, u.history, chain) && NothingStale(StoreOf(u.dests, d).files, local, chain)) ==>
        dirs[r.value.snapshot.name] == u.history[r.value.snapshot]
      ensures var found := FirstMatch(listing, targetName);
        r.Some? <==>
          && found.Some? && IsFullChain(found.value, IndexOf(listing), chain, true)
          && forall b | b in chain :: extracts(b)
      ensures FirstMatch(listing, targetName).Some? && (forall e | e in u.events :: Removes(e)) ==>
        IsFullChain(FirstMatch(listing, targetName).value, IndexOf(listing), chain, true)
      ensures SameElsewhere(old(dirs), dirs, NamesOfChain(chain))
      ensures FirstMatch(listing, targetName).None? ==> dirs == old(dirs)
    {
      hide LawfulOn, NothingStale, Taken, NamesOfChain, IndexOf, Backup.Genuine, IsListing;
      var backups := u.SortedListBackups(d);
      listing, chain := backups, [];
      var target := FindTarget(backups, targetName);
      NewestMatch(backups, targetName);
      if target.None? {
        return None, listing, chain;
      }
      u.WalksEnd(d, backups);
      var index := MakeIndex(backups);
      var fetched, ok := GetFullChain(target.value, index);
      chain := fetched;
      WholeByEvents(u, d, backups, target.value, fetched, ok);
      if !ok {
        OnlyChain(target.value, index, fetched);
        return None, listing, chain;
      }
      var done := RestoreFetched(u, d, backups, target.value, fetched, extracts);
      r := if done then target else None;
    }

    method RestoreFetched(u: Uback<C, P>, d: string, ghost backups: seq<Backup>, ghost b: Backup, chain: seq<Backup>,
                          extracts: Backup -> bool)
      returns (ok: bool)
      requires u.Valid() && forall x | x in StoreOf(u.dests, d).files :: x.Genuine()
      requires IsListing(backups, StoreOf(u.dests, d).files.Keys) && b in backups
      requires IsFullChain(b, IndexOf(backups), chain, true)
      modifies this`dirs
      ensures b.snapshot in u.history && forall x | x in chain :: x in StoreOf(u.dests, d).files
      ensures ok <==> forall x | x in chain :: extracts(x)
      ensures ok ==> dirs == (old(dirs) - NamesOfChain(chain))
        [b.snapshot.name := Replay(u.codec, Taken(StoreOf(u.dests, d).files, local), chain)]
      ensures ok && LawfulOn(u.codec, u.history, chain) && NothingStale(StoreOf(u.dests, d).files, local, chain) ==>
        dirs[b.snapshot.name] == u.history[b.snapshot]
      ensures SameElsewhere(old(dirs), dirs, NamesOfChain(chain))
    {
      hide LawfulOn, NothingStale, Taken, NamesOfChain, IndexOf, Backup.Genuine, IsListing, SameElsewhere;
      ChainRestores(u, d, backups, b, chain);
      ok := RestoreChain(u.codec, StoreOf(u.dests, d).files, IndexOf(backups), chain, extracts);
      ReplayOfTaken(u.codec, StoreOf(u.dests, d).files, local, chain);
    }

    lemma {:induction false} WholeByEvents(u: Uback<C, P>, d: string, backups: seq<Backup>, b: Backup,
                                           chain: seq<Backup>, ok: bool)
      requires u.Valid() && IsListing(backups, StoreOf(u.dests, d).files.Keys) && b in backups
      requires IsFullChain(b, IndexOf(backups), chain, ok)
      ensures (forall e | e in u.events :: Removes(e)) ==> ok
    {
      if forall e | e in u.events :: Removes(e) {
        var whole := EveryBackupRestores(u.codec, u.events, d, backups, b);
        ChainIsUnique(b, IndexOf(backups), chain, ok, whole, true);
      }
    }

    lemma {:induction false} ChainRestores(u: Uback<C, P>, d: string, backups: seq<Backup>, b: Backup,
                                           chain: seq<Backup>)
      requires u.Valid() && IsListing(backups, StoreOf(u.dests, d).files.Keys) && b in backups
      requires forall x | x in StoreOf(u.dests, d).files :: x.Genuine()
      requires IsFullChain(b, IndexOf(backups), chain, true)
      ensures NamesDiffer(chain) && forall x | x in chain :: x in StoreOf(u.dests, d).files
      ensures b.snapshot in u.history
      ensures LawfulOn(u.codec, u.history, chain) ==>
        Replay(u.codec, StoreOf(u.dests, d).files, chain) == u.history[b.snapshot]
      ensures forall n | n in IndexOf(backups) :: IndexOf(backups)[n].snapshot == n
    {
      ListedChains(u.codec, u.events, d, backups);
      ChainIsListed(b, backups, chain);
      assert BackupOk(u.codec, u.history, b, StoreOf(u.dests, d).files[b]);
      if LawfulOn(u.codec, u.history, chain) {
        WholeChainsReplay(u.codec, u.events, d, backups, b, chain);
      }
      forall i, j | 0 <= i < j < |chain| ensures chain[i].snapshot.name != chain[j].snapshot.name {
        StoresAreOlder(u.codec, u.history, StoreOf(u.dests, d));
        NamesDecrease(IndexOf(backups), chain, i, j);
        assert chain[i] in chain && chain[j] in chain;
      }
    }
  }

  function FirstMatch(backups: seq<Backup>, targetName: string): Option<Backup> {
    if backups == [] then None
    else if targetName <= backups[0].FullName() then Some(backups[0])
    else FirstMatch(backups[1..], targetName)
  }

  // backups[i] is the first whose name begins with a text.
  ghost predicate MatchAt(backups: seq<Backup>, targetName: string, i: int) {
    && 0 <= i < |backups| && targetName <= backups[i].FullName()
    && forall j | 0 <= j < i :: !(targetName <= backups[j].FullName())
  }

  /** The first match is the first listed backup whose name begins as asked. */
  lemma {:induction false} FirstMatchIsFirst(backups: seq<Backup>, targetName: string)
    ensures FirstMatch(backups, targetName).Some? ==>
      exists i :: MatchAt(backups, targetName, i) && FirstMatch(backups, targetName).value == backups[i]
    ensures FirstMatch(backups, targetName).None? ==> forall b | b in backups :: !(targetName <= b.FullName())
  {
    hide Backup.FullName;
    if backups != [] {
      if targetName <= backups[0].FullName() {
        assert MatchAt(backups, targetName, 0);
      } else {
        FirstMatchIsFirst(backups[1..], targetName);
        if FirstMatch(backups, targetName).Some? {
          var i :| MatchAt(backups[1..], targetName, i) && FirstMatch(backups, targetName).value == backups[1..][i];
          MatchLater(backups, targetName, i);
        }
      }
    }
  }

  lemma {:induction false} MatchLater(backups: seq<Backup>, targetName: string, i: int)
    requires backups != [] && !(targetName <= backups[0].FullName()) && MatchAt(backups[1..], targetName, i)
    ensures MatchAt(backups, targetName, i + 1)
  {
    hide Backup.FullName;
    forall j | 0 < j < i + 1 ensures !(targetName <= backups[j].FullName()) {
      assert backups[j] == backups[1..][j - 1];
    }
  }

  /**
   * Of a listing the most recent match is restored, and without a name the most recent backup.
   */
  lemma {:induction false} NewestMatch(listing: seq<Backup>, targetName: string)
    requires NewestFirst(listing)
    ensures FirstMatch(listing, targetName).Some? <==> exists b | b in listing :: targetName <= b.FullName()
    ensures FirstMatch(listing, targetName).Some? ==>
      var target := FirstMatch(listing, targetName).value;
      && target in listing && targetName <= target.FullName()
      && forall b | b in listing && targetName <= b.FullName() :: b.snapshot.rank <= target.snapshot.rank
    ensures listing != [] && targetName == [] ==> FirstMatch(listing, targetName) == Some(listing[0])
  {
    hide Backup.FullName;
    FirstMatchIsFirst(listing, targetName);
    if FirstMatch(listing, targetName).Some? {
      var i :| MatchAt(listing, targetName, i) && FirstMatch(listing, targetName).value == listing[i];
      hide FirstMatch;
      forall b | b in listing && targetName <= b.FullName() ensures b.snapshot.rank <= listing[i].snapshot.rank {
        MatchIsNewest(listing, targetName, i, b);
      }
    }
  }

  lemma {:induction false} MatchIsNewest(listing: seq<Backup>, targetName: string, i: int, b: Backup)
    requires NewestFirst(listing) && MatchAt(listing, targetName, i) && b in listing && targetName <= b.FullName()
    ensures b.snapshot.rank <= listing[i].snapshot.rank
  {
    hide Backup.FullName;
    var j :| 0 <= j < |listing| && listing[j] == b;
    assert j >= i;
  }

  method FindTarget(backups: seq<Backup>, targetName: string) returns (r: Option<Backup>)
    ensures r == FirstMatch(backups, targetName)
    ensures r.Some? ==> exists i :: MatchAt(backups, targetName, i) && r.value == backups[i]
    ensures r.None? ==> forall b | b in backups :: !(targetName <= b.FullName())
  {
    assert backups[0..] == backups;
    for i := 0 to |backups|
      invariant FirstMatch(backups, targetName) == FirstMatch(backups[i..], targetName)
      invariant forall j | 0 <= j < i :: !(targetName <= backups[j].FullName())
    {
      assert backups[i..][0] == backups[i] && backups[i..][1..] == backups[i + 1..];
      if targetName <= backups[i].FullName() {
        assert MatchAt(backups, targetName, i);
        return Some(backups[i]);
      }
    }
    return None;
  }
}
