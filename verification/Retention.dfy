/** Retention policies: the greedy selection of subjects and its optimality. */
module Retention {
  import opened Wrappers
  import opened Backups
  import opened Sequences

  // interval is in seconds, and count may be any number a user writes.
  datatype RetentionPolicy = RetentionPolicy(interval: int, count: int, fullOnly: bool)

  // What the selection observes of a backup or a snapshot.
  datatype Subject = Subject(name: Snapshot, full: bool) {
    function Time(): Option<int> {
      name.time
    }
  }

  predicate Eligible(p: RetentionPolicy, s: Subject) {
    p.fullOnly ==> s.full
  }

  const MAX_DURATION := 0x7fff_ffff_ffff_ffff
  const MIN_DURATION := -0x8000_0000_0000_0000

  // time.Time.Sub on instants in milliseconds: a saturating count of nanoseconds.
  function Sub(later: int, earlier: int): int {
    var ns := (later - earlier) * 1_000_000;
    if ns > MAX_DURATION then MAX_DURATION else if ns < MIN_DURATION then MIN_DURATION else ns
  }

  // Whether an instant is at least nine tenths of an interval before another.
  predicate Elapsed(interval: int, later: int, earlier: int) {
    10 * Sub(later, earlier) >= 9 * interval * 1_000_000_000
  }

  // A first subject has no predecessor to be far from.
  predicate Spaced(p: RetentionPolicy, last: Option<int>, t: int) {
    last.None? || Elapsed(p.interval, last.value, t)
  }

  /* ---- The greedy selection ---- */

  // What one policy takes from subjects, most recent first, when room more may
  // be taken and last is the instant of the one taken before.
  function Greedy(p: RetentionPolicy, subjects: seq<Subject>, last: Option<int>, room: int): Result<seq<Subject>> {
    if subjects == [] || room <= 0 then Ok([])
    else
      var s, rest := subjects[0], subjects[1..];
      if !Eligible(p, s) then Greedy(p, rest, last, room)
      else if s.Time().None? then Failed
      else if Spaced(p, last, s.Time().value) then
        var more := Greedy(p, rest, s.Time(), room - 1);
        if more.Ok? then Ok([s] + more.value) else Failed
      else Greedy(p, rest, last, room)
  }

  function Picks(p: RetentionPolicy, subjects: seq<Subject>): Result<seq<Subject>> {
    Greedy(p, subjects, None, p.count)
  }

  function NamesOf(subjects: seq<Subject>): set<Snapshot> {
    set s | s in subjects :: s.name
  }

  // The union of what every policy takes; an error of any policy is an error.
  function Retained(policies: seq<RetentionPolicy>, subjects: seq<Subject>): Result<set<Snapshot>> {
    if policies == [] then Ok({})
    else
      var before := Retained(policies[..|policies| - 1], subjects);
      var picks := Picks(policies[|policies| - 1], subjects);
      if before.Ok? && picks.Ok? then Ok(before.value + NamesOf(picks.value)) else Failed
  }

  // The loop of one policy. Adding to the set as it goes is harmless on error:
  // the set is then dropped.
  method ApplyPolicy(policy: RetentionPolicy, subjects: seq<Subject>, before: set<Snapshot>)
    returns (err: bool, retained: set<Snapshot>)
    ensures err == Picks(policy, subjects).Failed?
    ensures !err ==> retained == before + NamesOf(Picks(policy, subjects).value)
  {
    retained := before;
    var lastRetainedTime: Option<int> := None;
    var retainedCount := 0;
    ghost var picked: seq<Subject> := [];
    assert subjects[0..] == subjects;
    assert Picks(policy, subjects).Ok? ==> [] + Picks(policy, subjects).value == Picks(policy, subjects).value;
    for i := 0 to |subjects|
      invariant 0 <= retainedCount == |picked|
      invariant retainedCount == 0 <==> lastRetainedTime.None?
      invariant retained == before + NamesOf(picked)
      invariant Picks(policy, subjects) ==
        Prepend(picked, Greedy(policy, subjects[i..], lastRetainedTime, policy.count - retainedCount))
    {
      var subject := subjects[i];
      assert subjects[i..][0] == subject && subjects[i..][1..] == subjects[i + 1..];
      if retainedCount >= policy.count {
        break;
      }
      if policy.fullOnly && !subject.full {
        continue;
      }
      var t := subject.Time();
      if t.None? {
        return true, {};
      }
      if retainedCount == 0 || Elapsed(policy.interval, lastRetainedTime.value, t.value) {
        lastRetainedTime := t;
        retained := retained + {subject.name};
        retainedCount := retainedCount + 1;
        ghost var more := Greedy(policy, subjects[i + 1..], t, policy.count - retainedCount);
        if more.Ok? {
          assert picked + ([subject] + more.value) == (picked + [subject]) + more.value;
        }
        picked := picked + [subject];
      }
    }
    assert picked + [] == picked;
    err := false;
  }

  ghost function Prepend(a: seq<Subject>, r: Result<seq<Subject>>): Result<seq<Subject>> {
    if r.Ok? then Ok(a + r.value) else Failed
  }

  method ApplyRetentionPolicies(policies: seq<RetentionPolicy>, subjects: seq<Subject>)
    returns (r: Result<set<Snapshot>>)
    ensures r == Retained(policies, subjects)
  {
    var retained := {};
    for i := 0 to |policies|
      invariant Retained(policies[..i], subjects) == Ok(retained)
    {
      assert policies[..i + 1][..i] == policies[..i];
      var err;
      err, retained := ApplyPolicy(policies[i], subjects, retained);
      if err {
        FailureSpreads(policies, subjects, i + 1);
        return Failed;
      }
    }
    assert policies[..|policies|] == policies;
    return Ok(retained);
  }

  lemma {:induction false} FailureSpreads(policies: seq<RetentionPolicy>, subjects: seq<Subject>, n: nat)
    requires n <= |policies| && Retained(policies[..n], subjects).Failed?
    ensures Retained(policies, subjects).Failed?
    decreases |policies| - n
  {
    if n < |policies| {
      assert policies[..n + 1][..n] == policies[..n];
      FailureSpreads(policies, subjects, n + 1);
    } else {
      assert policies[..n] == policies;
    }
  }

  /* ---- What a selection is ---- */

  // The choices a policy allows: eligible subjects, in order, far enough apart.
  ghost predicate IsSelection(p: RetentionPolicy, subjects: seq<Subject>, sel: seq<Subject>) {
    && Subsequence(sel, subjects)
    && (forall s | s in sel :: Eligible(p, s) && s.Time().Some?)
    && (forall i | 0 < i < |sel| :: Elapsed(p.interval, sel[i - 1].Time().value, sel[i].Time().value))
  }

  // At least nine tenths of an interval of seconds, between instants in milliseconds. Go's durations end
  // at 9223372036854775807 nanoseconds, so longer times only reach intervals up to ten ninths of that.
  predicate Far(interval: int, later: int, earlier: int) {
    if later - earlier > 9_223_372_036_854 then interval <= 10_248_191_152
    else if later - earlier < -9_223_372_036_854 then interval <= -10_248_191_153
    else 10 * (later - earlier) >= 9000 * interval
  }

  /** The saturating comparison in nanoseconds, in milliseconds. */
  lemma {:induction false} ElapsedIsFar(interval: int, later: int, earlier: int)
    ensures Elapsed(interval, later, earlier) <==> Far(interval, later, earlier)
  {
  }

  // What a policy allows, in its own terms: full subjects only if it says so, in order, with instants
  // that are far enough apart.
  ghost predicate Allowed(p: RetentionPolicy, subjects: seq<Subject>, sel: seq<Subject>) {
    && Subsequence(sel, subjects)
    && (forall s | s in sel :: (p.fullOnly ==> s.full) && s.name.time.Some?)
    && (forall i | 0 < i < |sel| :: Far(p.interval, sel[i - 1].name.time.value, sel[i].name.time.value))
  }

  /** What the loop may select is what the policy allows. */
  lemma {:induction false} SelectionsAreAllowed(p: RetentionPolicy, subjects: seq<Subject>, sel: seq<Subject>)
    ensures IsSelection(p, subjects, sel) <==> Allowed(p, subjects, sel)
  {
    forall i | 0 < i < |sel| && sel[i - 1].name.time.Some? && sel[i].name.time.Some?
      ensures Elapsed(p.interval, sel[i - 1].name.time.value, sel[i].name.time.value)
        <==> Far(p.interval, sel[i - 1].name.time.value, sel[i].name.time.value)
    {
      ElapsedIsFar(p.interval, sel[i - 1].name.time.value, sel[i].name.time.value);
    }
    hide Elapsed, Far, Subsequence;
    assert forall i | 0 <= i < |sel| :: sel[i] in sel;
  }

  ghost predicate TimesDescend(subjects: seq<Subject>) {
    forall i, j | 0 <= i < j < |subjects| && subjects[i].Time().Some? && subjects[j].Time().Some? ::
      subjects[i].Time().value >= subjects[j].Time().value
  }

  // The greedy selection is one of the choices.
  lemma {:induction false} GreedyIsSelection(p: RetentionPolicy, subjects: seq<Subject>, last: Option<int>, room: int)
    requires Greedy(p, subjects, last, room).Ok?
    ensures var g := Greedy(p, subjects, last, room).value;
      && IsSelection(p, subjects, g)
      && (g != [] ==> Spaced(p, last, g[0].Time().value))
      && |g| <= if room > 0 then room else 0
  {
    if subjects != [] && room > 0 {
      var s, rest := subjects[0], subjects[1..];
      if Eligible(p, s) && Spaced(p, last, s.Time().value) {
        GreedyIsSelection(p, rest, s.Time(), room - 1);
        var more := Greedy(p, rest, s.Time(), room - 1).value;
        var g := [s] + more;
        assert g[1..] == more;
      } else {
        GreedyIsSelection(p, rest, last, room);
      }
    }
  }

  // Staying ahead: a greedy run whose last pick is at least as recent as that of
  // another run keeps ahead of it pick by pick.
  lemma {:induction false} StaysAhead(p: RetentionPolicy, subjects: seq<Subject>, last: Option<int>, room: int,
                                      sel: seq<Subject>, selLast: Option<int>)
    requires Greedy(p, subjects, last, room).Ok? && TimesDescend(subjects)
    requires IsSelection(p, subjects, sel) && |sel| <= if room > 0 then room else 0
    requires sel != [] ==> Spaced(p, selLast, sel[0].Time().value)
    requires last.Some? ==> selLast.Some? && last.value >= selLast.value
    ensures var g := Greedy(p, subjects, last, room).value;
      && |sel| <= |g|
      && forall i | 0 <= i < |sel| :: g[i].Time().Some? && g[i].Time().value >= sel[i].Time().value
  {
    GreedyIsSelection(p, subjects, last, room);
    if sel != [] {
      var s, rest := subjects[0], subjects[1..];
      assert TimesDescend(rest);
      SubsequenceMember(sel, subjects, sel[0]);
      SubsequenceTail(sel, subjects);
      var selRest := sel[1..];
      assert IsSelection(p, rest, selRest);
      if Eligible(p, s) && Spaced(p, last, s.Time().value) {
        var t := s.Time();
        assert t.value >= sel[0].Time().value;
        if selRest != [] { assert Elapsed(p.interval, sel[0].Time().value, sel[1].Time().value); }
        StaysAhead(p, rest, t, room - 1, selRest, sel[0].Time());
        var more := Greedy(p, rest, t, room - 1).value;
        assert Greedy(p, subjects, last, room).value == [s] + more;
      } else {
        assert sel[0] != s;
        StaysAhead(p, rest, last, room, sel, selLast);
      }
    }
  }

  /**
   * Over subjects listed most recent first, a policy takes as many as can be
   * taken, each at least as recent as the one in the same place of any other choice.
   */
  lemma {:induction false} GreedyIsOptimal(p: RetentionPolicy, subjects: seq<Subject>, sel: seq<Subject>)
    requires Picks(p, subjects).Ok? && TimesDescend(subjects)
    requires IsSelection(p, subjects, sel) && |sel| <= if p.count > 0 then p.count else 0
    ensures IsSelection(p, subjects, Picks(p, subjects).value)
    ensures |sel| <= |Picks(p, subjects).value| <= if p.count > 0 then p.count else 0
    ensures forall i | 0 <= i < |sel| ::
      Picks(p, subjects).value[i].Time().Some? && Picks(p, subjects).value[i].Time().value >= sel[i].Time().value
  {
    GreedyIsSelection(p, subjects, None, p.count);
    StaysAhead(p, subjects, None, p.count, sel, None);
  }

  /** What is left out is too close to a more recent pick, or older than count picks. */
  lemma {:induction false} WhyLeftOut(p: RetentionPolicy, subjects: seq<Subject>, last: Option<int>, room: int, k: nat)
    requires Greedy(p, subjects, last, room).Ok? && TimesDescend(subjects) && k < |subjects|
    requires Eligible(p, subjects[k]) && subjects[k].Time().Some?
    requires subjects[k] !in Greedy(p, subjects, last, room).value
    ensures var (g, t) := (Greedy(p, subjects, last, room).value, subjects[k].Time().value);
      || (|g| >= room && forall s | s in g :: s.Time().Some? && s.Time().value >= t)
      || (last.Some? && !Elapsed(p.interval, last.value, t))
      || (exists s | s in g :: s.Time().Some? && s.Time().value >= t && !Elapsed(p.interval, s.Time().value, t))
  {
    GreedyIsSelection(p, subjects, last, room);
    var g, t := Greedy(p, subjects, last, room).value, subjects[k].Time().value;
    if room > 0 {
      var s, rest := subjects[0], subjects[1..];
      assert TimesDescend(rest);
      if Eligible(p, s) && Spaced(p, last, s.Time().value) {
        assert k > 0 && rest[k - 1] == subjects[k];
        var more := Greedy(p, rest, s.Time(), room - 1).value;
        assert g == [s] + more;
        WhyLeftOut(p, rest, s.Time(), room - 1, k - 1);
        assert s.Time().value >= t;
        assert s in g;
      } else if k > 0 {
        assert rest[k - 1] == subjects[k];
        WhyLeftOut(p, rest, last, room, k - 1);
      }
    }
  }

  /* ---- Stability ---- */

  // Taking away subjects that were not picked does not change the picks.
  lemma {:induction false} GreedyIsStable(p: RetentionPolicy, subjects: seq<Subject>, last: Option<int>, room: int,
                                          keep: Subject -> bool)
    requires Greedy(p, subjects, last, room).Ok?
    requires forall s | s in Greedy(p, subjects, last, room).value :: keep(s)
    ensures Greedy(p, Filter(subjects, keep), last, room) == Greedy(p, subjects, last, room)
  {
    if subjects != [] && room > 0 {
      var s, rest := subjects[0], subjects[1..];
      if keep(s) {
        var f := Filter(subjects, keep);
        assert f[0] == s && f[1..] == Filter(rest, keep);
      }
      if Eligible(p, s) && Spaced(p, last, s.Time().value) {
        var more := Greedy(p, rest, s.Time(), room - 1).value;
        assert Greedy(p, subjects, last, room).value == [s] + more;
        assert s in [s] + more && forall x | x in more :: x in [s] + more;
        GreedyIsStable(p, rest, s.Time(), room - 1, keep);
      } else {
        GreedyIsStable(p, rest, last, room, keep);
      }
    }
  }

  lemma {:induction false} RetainedIsStable(policies: seq<RetentionPolicy>, subjects: seq<Subject>,
                                            keep: Subject -> bool)
    requires Retained(policies, subjects).Ok?
    requires forall s | s in subjects && s.name in Retained(policies, subjects).value :: keep(s)
    ensures Retained(policies, Filter(subjects, keep)) == Retained(policies, subjects)
  {
    if policies != [] {
      var p := policies[|policies| - 1];
      RetainedIsStable(policies[..|policies| - 1], subjects, keep);
      PicksAreSubjects(p, subjects);
      GreedyIsStable(p, subjects, None, p.count, keep);
    }
  }

  lemma {:induction false} PicksAreSubjects(p: RetentionPolicy, subjects: seq<Subject>)
    requires Picks(p, subjects).Ok?
    ensures forall s | s in Picks(p, subjects).value :: s in subjects
  {
    GreedyIsSelection(p, subjects, None, p.count);
    var g := Picks(p, subjects).value;
    forall s | s in g ensures s in subjects { SubsequenceMember(g, subjects, s); }
  }

  // k is where the loop meets an instant that does not parse: it takes subjects of that kind, and has
  // room left after what came before.
  ghost predicate BreaksAt(p: RetentionPolicy, subjects: seq<Subject>, last: Option<int>, room: int, k: int) {
    && 0 <= k < |subjects| && (p.fullOnly ==> subjects[k].full) && subjects[k].name.time.None?
    && var before := Greedy(p, subjects[..k], last, room);
    && before.Ok? && |before.value| < room
  }

  lemma {:induction false} BreaksAtNext(p: RetentionPolicy, subjects: seq<Subject>, last: Option<int>, room: int,
                                        k: nat)
    requires subjects != [] && room > 0 && !(Eligible(p, subjects[0]) && subjects[0].Time().None?)
    ensures var (s, rest) := (subjects[0], subjects[1..]);
      BreaksAt(p, subjects, last, room, k + 1) <==>
        if Eligible(p, s) && Spaced(p, last, s.Time().value) then BreaksAt(p, rest, s.Time(), room - 1, k)
        else BreaksAt(p, rest, last, room, k)
  {
    if k < |subjects| - 1 {
      assert subjects[..k + 1][0] == subjects[0] && subjects[..k + 1][1..] == subjects[1..][..k];
    }
  }

  /** A policy fails exactly when, with room left, it comes to a subject it takes whose time does not parse. */
  lemma {:induction false} FailsIff(p: RetentionPolicy, subjects: seq<Subject>, last: Option<int>, room: int)
    ensures Greedy(p, subjects, last, room).Failed? <==> exists k :: BreaksAt(p, subjects, last, room, k)
  {
    if room <= 0 {
    } else if subjects != [] {
      var s, rest := subjects[0], subjects[1..];
      if Eligible(p, s) && s.Time().None? {
        assert BreaksAt(p, subjects, last, room, 0);
      } else {
        var next, left := last, room;
        if Eligible(p, s) && Spaced(p, last, s.Time().value) {
          next, left := s.Time(), room - 1;
        }
        FailsIff(p, rest, next, left);
        hide Spaced;
        if k :| BreaksAt(p, rest, next, left, k) {
          BreaksAtNext(p, subjects, last, room, k);
        }
        if k :| BreaksAt(p, subjects, last, room, k) {
          assert k > 0;
          BreaksAtNext(p, subjects, last, room, k - 1);
        }
      }
    }
  }

  /** The policies fail exactly when one of them does. */
  lemma {:induction false} RetainedFailsIff(policies: seq<RetentionPolicy>, subjects: seq<Subject>)
    ensures Retained(policies, subjects).Failed? <==>
      exists i :: 0 <= i < |policies| && Picks(policies[i], subjects).Failed?
  {
    if policies != [] {
      var k := |policies| - 1;
      RetainedFailsIff(policies[..k], subjects);
      assert forall i | 0 <= i < k :: policies[..k][i] == policies[i];
    }
  }

  // Every name retained is that of a subject some policy picked, and conversely.
  lemma {:induction false} RetainedIsUnion(policies: seq<RetentionPolicy>, subjects: seq<Subject>)
    requires Retained(policies, subjects).Ok?
    ensures forall i | 0 <= i < |policies| :: Picks(policies[i], subjects).Ok?
    ensures forall n :: n in Retained(policies, subjects).value <==>
      exists i | 0 <= i < |policies| :: n in NamesOf(Picks(policies[i], subjects).value)
    ensures Retained(policies, subjects).value <= NamesOf(subjects)
  {
    if policies != [] {
      var k := |policies| - 1;
      RetainedIsUnion(policies[..k], subjects);
      PicksAreSubjects(policies[k], subjects);
      assert forall i | 0 <= i < k :: policies[..k][i] == policies[i];
    }
  }

  // With instants that parse, no policy fails.
  lemma {:induction false} NoFailure(policies: seq<RetentionPolicy>, subjects: seq<Subject>)
    requires forall s | s in subjects :: s.Time().Some?
    ensures Retained(policies, subjects).Ok?
  {
    if policies != [] {
      NoFailure(policies[..|policies| - 1], subjects);
      GreedySucceeds(policies[|policies| - 1], subjects, None, policies[|policies| - 1].count);
    }
  }

  lemma {:induction false} GreedySucceeds(p: RetentionPolicy, subjects: seq<Subject>, last: Option<int>, room: int)
    requires forall s | s in subjects :: s.Time().Some?
    ensures Greedy(p, subjects, last, room).Ok?
  {
    if subjects != [] && room > 0 {
      GreedySucceeds(p, subjects[1..], last, room);
      GreedySucceeds(p, subjects[1..], subjects[0].Time(), room - 1);
    }
  }

  // A policy that takes incrementals takes the most recent subject.
  lemma {:induction false} NewestIsPicked(policies: seq<RetentionPolicy>, subjects: seq<Subject>, i: nat)
    requires Retained(policies, subjects).Ok? && subjects != []
    requires i < |policies| && policies[i].count >= 1 && !policies[i].fullOnly
    ensures subjects[0].name in Retained(policies, subjects).value
  {
    RetainedIsUnion(policies, subjects);
    assert subjects[0] in Picks(policies[i], subjects).value;
    assert subjects[0].name in NamesOf(Picks(policies[i], subjects).value);
  }
}
