/** What tar archives carry, and when replaying them gives the content back. */
module TarContents {
  import opened Wrappers
  import opened Backups
  import opened Chains
  import opened Protocol
  import opened EndToEnd
  import opened Restore

  // The files of a tree. An incremental archive holds those that are new or changed, and extracting
  // it over a tree deletes nothing.
  type Tree<F> = map<string, F>

  function Changes<F(==)>(before: Tree<F>, after: Tree<F>): Tree<F> {
    map p | p in after && (p !in before || before[p] != after[p]) :: after[p]
  }

  function TarCodec<F(==)>(): Codec<Tree<F>, Tree<F>> {
    Codec(map[], (a: Tree<F>, b: Tree<F>) => Changes(a, b), (changes: Tree<F>, tree: Tree<F>) => tree + changes)
  }

  // No file that a snapshot had is missing from a later one.
  ghost predicate NothingDeleted<F>(history: map<Snapshot, Tree<F>>) {
    forall s, t | s in history && t in history && s.rank < t.rank :: history[s].Keys <= history[t].Keys
  }

  /**
   * An incremental archive is the least that brings every file of the later tree: extracting it over
   * the earlier one does, and any other archive that does holds all of it.
   */
  lemma {:induction false} ChangesAreLeast<F>(before: Tree<F>, after: Tree<F>, archive: Tree<F>)
    ensures forall p | p in after :: At(before + Changes(before, after), p) == Some(after[p])
    ensures (forall p | p in after :: At(before + archive, p) == Some(after[p])) ==>
      forall p | p in Changes(before, after) :: At(archive, p) == Some(Changes(before, after)[p])
  {
    if forall p | p in after :: At(before + archive, p) == Some(after[p]) {
      forall p | p in Changes(before, after) ensures At(archive, p) == Some(Changes(before, after)[p]) {
        assert At(before + archive, p) == Some(after[p]);
      }
    }
  }

  lemma {:induction false} ExtractionKeepsAll<F>(before: Tree<F>, after: Tree<F>)
    ensures before + Changes(before, after) == after <==> before.Keys <= after.Keys
  {
  }

  /** Every tar backup that could be made replays to its snapshot exactly when no file was deleted. */
  lemma {:induction false} TarIsLawfulIffNothingDeleted<F>(history: map<Snapshot, Tree<F>>)
    ensures LawfulFor(TarCodec<F>(), history) <==> NothingDeleted(history)
  {
    var k := TarCodec<F>();
    forall b: Backup | b.snapshot in history && OlderBase(b) && BaseContent(k, history, b.base).Some?
      ensures var (from, to) := (BaseContent(k, history, b.base).value, history[b.snapshot]);
        k.apply(k.delta(from, to), from) == to <==> from.Keys <= to.Keys
    {
      ExtractionKeepsAll(BaseContent(k, history, b.base).value, history[b.snapshot]);
    }
    if LawfulFor(k, history) {
      forall s, t | s in history && t in history && s.rank < t.rank ensures history[s].Keys <= history[t].Keys {
        var b := Backup(t, Some(s));
        assert b.snapshot in history && OlderBase(b) && BaseContent(k, history, b.base) == Some(history[s]);
      }
    }
  }

  /* ---- One backup ---- */

  // Some member of a chain had a file at p.
  ghost predicate Had<F>(history: map<Snapshot, Tree<F>>, chain: seq<Backup>, p: string) {
    exists x :: x in chain && x.snapshot in history && p in history[x.snapshot]
  }

  // What replaying a chain gives: everything any member of it had, and what the newest had as it had it.
  lemma {:induction false} ReplayKeepsAll<F>(history: map<Snapshot, Tree<F>>, st: Store<Tree<F>>, idx: Index,
                                             b: Backup, chain: seq<Backup>)
    requires StoreOk(TarCodec<F>(), history, st)
    requires forall n | n in idx :: idx[n] in st.files && idx[n].snapshot == n
    requires b in st.files && IsFullChain(b, idx, chain, true)
    ensures forall x | x in chain :: x in st.files && x.snapshot in history
    ensures b.snapshot in history
    ensures var tree := Replay(TarCodec<F>(), st.files, chain);
      && (forall p :: p in tree <==> Had(history, chain, p))
      && (forall p | p in history[b.snapshot] :: p in tree && tree[p] == history[b.snapshot][p])
    decreases |chain|
  {
    var k := TarCodec<F>();
    assert BackupOk(k, history, b, st.files[b]);
    if |chain| > 1 {
      assert chain[0 + 1] == idx[chain[0].base.value];
      ChainSuffix(b, idx, chain, true, 1);
      ReplayKeepsAll(history, st, idx, chain[1], chain[1..]);
      assert forall x :: x in chain <==> x == b || x in chain[1..];
      var before := Replay(k, st.files, chain[1..]);
      forall p ensures Had(history, chain, p) <==> p in history[b.snapshot] || Had(history, chain[1..], p) {
        assert b in chain;
      }
      assert Replay(k, st.files, chain) == before + Changes(history[chain[1].snapshot], history[b.snapshot]);
    } else {
      assert chain == [b];
      ReplayOne(k, st.files, b);
    }
  }

  /**
   * After any events, a listed tar backup with a whole chain replays to its snapshot exactly when no
   * member of that chain had a file its snapshot does not have.
   */
  lemma {:induction false} TarRestoresIffNothingDeletedSince<F>(events: seq<Event<Tree<F>>>, d: string,
                                                                listing: seq<Backup>,
                                                                b: Backup, chain: seq<Backup>)
    requires Execute(TarCodec<F>(), Initial(), events).Some?
    requires IsListing(listing, StoreOf(Execute(TarCodec<F>(), Initial(), events).value.dests, d).files.Keys)
    requires b in listing && IsFullChain(b, IndexOf(listing), chain, true)
    ensures var w := Execute(TarCodec<F>(), Initial(), events).value;
      && b.snapshot in w.history
      && (forall x | x in chain :: x in StoreOf(w.dests, d).files && x.snapshot in w.history)
      && (Replay(TarCodec<F>(), StoreOf(w.dests, d).files, chain) == w.history[b.snapshot] <==>
          forall x | x in chain :: w.history[x.snapshot].Keys <= w.history[b.snapshot].Keys)
  {
    var k := TarCodec<F>();
    var w := Execute(k, Initial(), events).value;
    var st := StoreOf(w.dests, d);
    ListedChains(k, events, d, listing);
    ReplayKeepsAll(w.history, st, IndexOf(listing), b, chain);
    SameWithoutMore(w.history, chain, Replay(k, st.files, chain), w.history[b.snapshot]);
  }

  lemma {:induction false} SameWithoutMore<F>(history: map<Snapshot, Tree<F>>, chain: seq<Backup>,
                                              tree: Tree<F>, content: Tree<F>)
    requires forall x | x in chain :: x.snapshot in history
    requires forall p :: p in tree <==> Had(history, chain, p)
    requires forall p | p in content :: p in tree && tree[p] == content[p]
    ensures tree == content <==> forall x | x in chain :: history[x.snapshot].Keys <= content.Keys
  {
    hide Had;
    forall x | tree == content && x in chain ensures history[x.snapshot].Keys <= content.Keys {
      MembersHad(history, chain, x);
    }
    if forall x | x in chain :: history[x.snapshot].Keys <= content.Keys {
      forall p | p in tree ensures p in content {
        HadInside(history, chain, p, content.Keys);
      }
    }
  }

  lemma {:induction false} MembersHad<F>(history: map<Snapshot, Tree<F>>, chain: seq<Backup>, x: Backup)
    requires x in chain && x.snapshot in history
    ensures forall p | p in history[x.snapshot].Keys :: Had(history, chain, p)
  {
  }

  lemma {:induction false} HadInside<F>(history: map<Snapshot, Tree<F>>, chain: seq<Backup>, p: string,
                                        keys: set<string>)
    requires Had(history, chain, p)
    requires forall x | x in chain && x.snapshot in history :: history[x.snapshot].Keys <= keys
    ensures p in keys
  {
    var x :| x in chain && x.snapshot in history && p in history[x.snapshot];
    assert p in history[x.snapshot].Keys;
  }

  /* ---- Payload files lying in the target directory ---- */

  lemma {:induction false} TarIsTelling<F(!new)>()
    ensures Telling(TarCodec<F>())
  {
    forall p: Tree<F>, q: Tree<F> | map[] + p == map[] + q ensures p == q {
      assert map[] + p == p && map[] + q == q;
    }
  }

  // The file at p in the newest archive of a chain that has one.
  function Newest<F>(files: map<Backup, Tree<F>>, chain: seq<Backup>, p: string): Option<F>
    requires forall b | b in chain :: b in files
  {
    if chain == [] then None
    else if p in files[chain[0]] then Some(files[chain[0]][p])
    else Newest(files, chain[1..], p)
  }

  function At<F>(tree: Tree<F>, p: string): Option<F> {
    if p in tree then Some(tree[p]) else None
  }

  lemma {:induction false} ReplayIsNewest<F>(files: map<Backup, Tree<F>>, chain: seq<Backup>, p: string)
    requires forall b | b in chain :: b in files
    ensures Newest(files, chain, p) == At(Replay(TarCodec<F>(), files, chain), p)
  {
    if chain != [] {
      assert forall b | b in chain[1..] :: b in chain;
      ReplayIsNewest(files, chain[1..], p);
      assert Replay(TarCodec<F>(), files, chain) == Replay(TarCodec<F>(), files, chain[1..]) + files[chain[0]];
    }
  }

  ghost predicate SameNewest<F>(taken: map<Backup, Tree<F>>, files: map<Backup, Tree<F>>, chain: seq<Backup>)
    requires forall b | b in chain :: b in files && b in taken
  {
    forall p :: Newest(taken, chain, p) == Newest(files, chain, p)
  }

  /**
   * With any files in the target directory, a chain of tar archives restores to what its destination
   * holds exactly when at every path the newest archive that has a file there has the same one among
   * those taken as among those of the destination.
   */
  lemma {:induction false} ChainRestoresIffSameNewest<F>(files: map<Backup, Tree<F>>, local: map<string, Tree<F>>,
                                                         chain: seq<Backup>)
    requires forall b | b in chain :: b in files
    ensures Replay(TarCodec<F>(), Taken(files, local), chain) == Replay(TarCodec<F>(), files, chain) <==>
      SameNewest(Taken(files, local), files, chain)
  {
    var taken := Taken(files, local);
    forall p ensures Newest(taken, chain, p) == At(Replay(TarCodec<F>(), taken, chain), p) {
      ReplayIsNewest(taken, chain, p);
    }
    forall p ensures Newest(files, chain, p) == At(Replay(TarCodec<F>(), files, chain), p) {
      ReplayIsNewest(files, chain, p);
    }
    SameNewestTrees(taken, files, chain, Replay(TarCodec<F>(), taken, chain), Replay(TarCodec<F>(), files, chain));
  }

  lemma {:induction false} SameNewestTrees<F>(taken: map<Backup, Tree<F>>, files: map<Backup, Tree<F>>,
                                              chain: seq<Backup>, a: Tree<F>, b: Tree<F>)
    requires forall x | x in chain :: x in files && x in taken
    requires forall p :: Newest(taken, chain, p) == At(a, p)
    requires forall p :: Newest(files, chain, p) == At(b, p)
    ensures a == b <==> SameNewest(taken, files, chain)
  {
    SameEverywhere(a, b);
    if SameNewest(taken, files, chain) {
      forall p ensures At(a, p) == At(b, p) {
        assert Newest(taken, chain, p) == Newest(files, chain, p);
      }
    }
  }

  lemma {:induction false} SameEverywhere<F>(a: Tree<F>, b: Tree<F>)
    ensures a == b <==> forall p :: At(a, p) == At(b, p)
  {
    if forall p :: At(a, p) == At(b, p) {
      forall p ensures p in a <==> p in b {
        assert At(a, p) == At(b, p);
      }
      forall p | p in a ensures a[p] == b[p] {
        assert At(a, p) == At(b, p);
      }
    }
  }

  /** A file under the name of a full backup is restored in its place, whatever it is. */
  lemma {:induction false} StaleFileIsRestored<F(!new)>(b: Backup, sent: Tree<F>, stale: Tree<F>)
    requires b.IsFull() && sent != stale
    ensures var (files, local) := (map[b := sent], map[b.Filename() := stale]);
      && Replay(TarCodec<F>(), files, [b]) == sent
      && Replay(TarCodec<F>(), Taken(files, local), [b]) == stale
  {
    var files, local := map[b := sent], map[b.Filename() := stale];
    ReplayOne(TarCodec<F>(), files, b);
    ReplayOne(TarCodec<F>(), Taken(files, local), b);
    assert map[] + sent == sent && map[] + stale == stale;
  }
}
