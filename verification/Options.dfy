/** Splitting the option strings of the command line. */
module Options {
  import opened Wrappers

  datatype KeyValue = KeyValue(key: string, value: string)

  /* ---- The regular expression (?:[^\\]|^)(?:\\\\)*, ---- */

  // Backslashes in a row from i on.
  function Run(o: string, i: nat): (r: nat)
    requires i <= |o|
    ensures i + r <= |o| && (i + r < |o| ==> o[i + r] != '\\')
    ensures forall j | i <= j < i + r :: o[j] == '\\'
    decreases |o| - i
  {
    if i < |o| && o[i] == '\\' then 1 + Run(o, i + 1) else 0
  }

  // Pairs of backslashes from i on, then a comma. The end of the match.
  function PairsThenComma(o: string, i: nat): Option<nat>
    requires i <= |o|
  {
    var r := Run(o, i);
    if r % 2 == 0 && i + r < |o| && o[i + r] == ',' then Some(i + r + 1) else None
  }

  // The end of a match that starts at i: its first alternative is tried first.
  function MatchAt(o: string, i: nat): Option<nat>
    requires i <= |o|
  {
    if i < |o| && o[i] != '\\' && PairsThenComma(o, i + 1).Some? then PairsThenComma(o, i + 1)
    else if i == 0 then PairsThenComma(o, 0)
    else None
  }

  // The end of the leftmost match that starts at i or later.
  function FindFrom(o: string, i: nat): (e: Option<nat>)
    requires i <= |o|
    ensures e.Some? ==> i < e.value <= |o|
    decreases |o| - i
  {
    if MatchAt(o, i).Some? then MatchAt(o, i)
    else if i == |o| then None
    else FindFrom(o, i + 1)
  }

  // An even number of backslashes from i on, then the comma before e.
  predicate PairsUpTo(o: string, i: nat, e: nat) {
    i < e <= |o| && o[e - 1] == ',' && (e - 1 - i) % 2 == 0 && forall x | i <= x < e - 1 :: o[x] == '\\'
  }

  lemma {:induction false} RunIs(o: string, i: nat, j: nat)
    requires i <= j < |o| && o[j] != '\\' && forall x | i <= x < j :: o[x] == '\\'
    ensures Run(o, i) == j - i
    decreases j - i
  {
  }

  lemma {:induction false} PairsAre(o: string, i: nat, e: nat)
    requires i <= |o|
    ensures PairsThenComma(o, i) == Some(e) <==> PairsUpTo(o, i, e)
  {
    if PairsUpTo(o, i, e) {
      RunIs(o, i, e - 1);
    }
  }

  /**
   * A match is a character other than a backslash, or the start of the text, then pairs of backslashes
   * and a comma.
   */
  lemma {:induction false} MatchMeans(o: string, i: nat, e: nat)
    requires i <= |o|
    ensures MatchAt(o, i) == Some(e) <==>
      || (i < |o| && o[i] != '\\' && PairsUpTo(o, i + 1, e))
      || (i == 0 && PairsUpTo(o, 0, e) && forall f :: o[0] != '\\' ==> !PairsUpTo(o, 1, f))
  {
    hide PairsThenComma;
    PairsAre(o, 0, e);
    if i < |o| {
      PairsAre(o, i + 1, e);
    }
    if o != [] {
      forall f: nat ensures PairsThenComma(o, 1) == Some(f) <==> PairsUpTo(o, 1, f) {
        PairsAre(o, 1, f);
      }
    }
  }

  // s is the first place from i on where there is a match.
  ghost predicate FirstMatchAt(o: string, i: nat, s: int) {
    && i <= s <= |o| && MatchAt(o, s).Some?
    && forall t | i <= t < s :: MatchAt(o, t).None?
  }

  /** The match found is the leftmost. */
  lemma {:induction false} LeftmostMatch(o: string, i: nat)
    requires i <= |o|
    ensures FindFrom(o, i).Some? ==> exists s :: FirstMatchAt(o, i, s) && MatchAt(o, s) == FindFrom(o, i)
    ensures FindFrom(o, i).None? ==> forall t | i <= t <= |o| :: MatchAt(o, t).None?
    decreases |o| - i
  {
    hide MatchAt;
    if MatchAt(o, i).Some? {
      assert FirstMatchAt(o, i, i);
    } else if i < |o| {
      LeftmostMatch(o, i + 1);
      if FindFrom(o, i).Some? {
        var s :| FirstMatchAt(o, i + 1, s) && MatchAt(o, s) == FindFrom(o, i + 1);
        assert FirstMatchAt(o, i, s);
      }
    }
  }

  // FindAllStringIndex: the ends of the matches, each searched from the end of the one before.
  function FindAll(o: string, i: nat): seq<nat>
    requires i <= |o|
    decreases |o| - i
  {
    var e := FindFrom(o, i);
    if e.None? then [] else [e.value] + FindAll(o, e.value)
  }

  /* ---- One option ---- */

  // strings.ReplaceAll of two characters by one.
  function Replace(s: string, a: char, b: char, c: char): string {
    if |s| < 2 then s
    else if s[0] == a && s[1] == b then [c] + Replace(s[2..], a, b, c)
    else [s[0]] + Replace(s[1..], a, b, c)
  }

  function Commas(s: string): string {
    Replace(s, '\\', ',', ',')
  }

  function Backslashes(s: string): string {
    Replace(s, '\\', '\\', '\\')
  }

  function Unescape(s: string): string {
    Backslashes(Commas(s))
  }

  function IndexOfEquals(s: string): (i: nat)
    ensures i <= |s| && '=' !in s[..i] && (i < |s| ==> s[i] == '=')
  {
    if s == [] || s[0] == '=' then 0
    else
      var i := 1 + IndexOfEquals(s[1..]);
      assert s[..i] == [s[0]] + s[1..][..i - 1];
      i
  }

  // The key of an option: a leading @ is kept apart from the conversion to Pascal case.
  function KeyOf(pascal: string -> string, k: string): string {
    if "@" <= k then "@" + pascal(k[1..]) else pascal(k)
  }

  function ParseOption(pascal: string -> string, option: string): KeyValue {
    var s := Unescape(option);
    var i := IndexOfEquals(s);
    KeyValue(KeyOf(pascal, s[..i]), if i == |s| then "true" else s[i + 1..])
  }

  // Options with an empty key are dropped.
  function ParseAll(pascal: string -> string, segments: seq<string>): seq<KeyValue> {
    if segments == [] then []
    else Kept(ParseOption(pascal, segments[0])) + ParseAll(pascal, segments[1..])
  }

  function Kept(kv: KeyValue): seq<KeyValue> {
    if kv.key != "" then [kv] else []
  }

  // What lies between the commas the expression finds.
  function RegexSegments(o: string, from: nat): (segments: seq<string>)
    requires from <= |o|
    ensures segments != []
    decreases |o| - from
  {
    var e := FindFrom(o, from);
    if e.None? then [o[from..]] else [o[from..e.value - 1]] + RegexSegments(o, e.value)
  }

  // Parsing what is left is parsing up to the next comma found, then what is left after it.
  lemma {:induction false} ParseStep(pascal: string -> string, o: string, from: nat, done: seq<KeyValue>)
    requires from <= |o|
    ensures var e := FindFrom(o, from);
      done + ParseAll(pascal, RegexSegments(o, from)) ==
        if e.None? then done + Kept(ParseOption(pascal, o[from..]))
        else (done + Kept(ParseOption(pascal, o[from..e.value - 1]))) + ParseAll(pascal, RegexSegments(o, e.value))
  {
    hide ParseOption, FindFrom, Kept, RegexSegments, ParseAll;
    var e := FindFrom(o, from);
    RegexUnfold(o, from);
    if e.Some? {
      ParseCons(pascal, o[from..e.value - 1], RegexSegments(o, e.value));
    } else {
      ParseCons(pascal, o[from..], []);
      ParseNothing(pascal);
    }
  }

  lemma {:induction false} RegexUnfold(o: string, from: nat)
    requires from <= |o|
    ensures var e := FindFrom(o, from);
      RegexSegments(o, from) == if e.None? then [o[from..]] + [] else [o[from..e.value - 1]] + RegexSegments(o, e.value)
  {
  }

  lemma {:induction false} ParseNothing(pascal: string -> string)
    ensures ParseAll(pascal, []) == []
  {
  }

  lemma {:induction false} ParseCons(pascal: string -> string, s: string, rest: seq<string>)
    ensures ParseAll(pascal, [s] + rest) == Kept(ParseOption(pascal, s)) + ParseAll(pascal, rest)
  {
  }

  // The matches from the i-th on are those found from a position on.
  ghost predicate Agree(o: string, indices: seq<nat>, i: nat, from: nat) {
    i <= |indices| && from <= |o| && indices[i..] == FindAll(o, from)
  }

  lemma {:induction false} AgreeStart(o: string)
    ensures Agree(o, FindAll(o, 0), 0, 0)
  {
    assert FindAll(o, 0)[0..] == FindAll(o, 0);
  }

  lemma {:induction false} AgreeStep(o: string, indices: seq<nat>, i: nat, from: nat)
    requires Agree(o, indices, i, from)
    ensures from <= |o|
    ensures i == |indices| ==> FindFrom(o, from).None?
    ensures i < |indices| ==>
      && from < indices[i] <= |o| && FindFrom(o, from) == Some(indices[i])
      && Agree(o, indices, i + 1, indices[i])
  {
  }

  // The options up to a position have been parsed.
  ghost predicate ParsedTo(pascal: string -> string, o: string, result: seq<KeyValue>, from: nat) {
    from <= |o| && ParseAll(pascal, RegexSegments(o, 0)) == result + ParseAll(pascal, RegexSegments(o, from))
  }

  lemma {:induction false} ParsedNothing(pascal: string -> string, o: string)
    ensures ParsedTo(pascal, o, [], 0)
  {
  }

  lemma {:induction false} ParsedStep(pascal: string -> string, o: string, result: seq<KeyValue>, from: nat)
    requires ParsedTo(pascal, o, result, from)
    ensures var e := FindFrom(o, from);
      if e.Some? then ParsedTo(pascal, o, result + Kept(ParseOption(pascal, o[from..e.value - 1])), e.value)
      else ParseAll(pascal, RegexSegments(o, 0)) == result + Kept(ParseOption(pascal, o[from..]))
  {
    hide ParseOption, ParseAll, FindFrom, Kept, RegexSegments;
    ParseStep(pascal, o, from, result);
  }

  method SplitOptions(pascal: string -> string, options: string) returns (result: seq<KeyValue>)
    ensures result == ParseAll(pascal, RegexSegments(options, 0))
  {
    hide *;
    result := [];
    var indices := FindAll(options, 0);
    AgreeStart(options);
    ParsedNothing(pascal, options);
    var prevPos: nat := 0;
    for i := 0 to |indices|
      invariant prevPos <= |options| && Agree(options, indices, i, prevPos)
      invariant ParsedTo(pascal, options, result, prevPos)
    {
      var pos := indices[i];
      AgreeStep(options, indices, i, prevPos);
      ParsedStep(pascal, options, result, prevPos);
      result := AppendOption(pascal, result, options[prevPos..pos - 1]);
      prevPos := pos;
    }
    AgreeStep(options, indices, |indices|, prevPos);
    ParsedStep(pascal, options, result, prevPos);
    result := AppendOption(pascal, result, options[prevPos..]);
  }

  method AppendOption(pascal: string -> string, before: seq<KeyValue>, option: string) returns (result: seq<KeyValue>)
    ensures result == before + Kept(ParseOption(pascal, option))
  {
    var kv := ParseOption(pascal, option);
    result := if kv.key != "" then before + [kv] else before;
  }

  /* ---- The scanner ---- */

  // The next comma that no backslash escapes, reading on from i.
  function NextCut(o: string, i: nat): (c: Option<nat>)
    ensures c.Some? ==> i <= c.value < |o| && o[c.value] == ','
    decreases |o| - i
  {
    if i >= |o| then None
    else if o[i] == '\\' then NextCut(o, i + 2)
    else if o[i] == ',' then Some(i)
    else NextCut(o, i + 1)
  }

  function Scan(o: string, from: nat): (segments: seq<string>)
    requires from <= |o|
    ensures segments != []
    decreases |o| - from
  {
    var c := NextCut(o, from);
    if c.None? then [o[from..]] else [o[from..c.value]] + Scan(o, c.value + 1)
  }

  // Backslashes in a row just before j, counted down to from.
  function BackRun(o: string, from: nat, j: nat): (r: nat)
    requires from <= j <= |o|
    ensures from <= j - r && (forall x | j - r <= x < j :: o[x] == '\\') && (j - r > from ==> o[j - r - 1] != '\\')
  {
    if j > from && o[j - 1] == '\\' then 1 + BackRun(o, from, j - 1) else 0
  }

  predicate Unescaped(o: string, from: nat, j: nat)
    requires from <= j < |o|
  {
    o[j] == ',' && BackRun(o, from, j) % 2 == 0
  }

  lemma {:induction false} BackRunStep(o: string, from: nat, j: nat)
    requires from <= j < |o|
    ensures BackRun(o, from, j + 1) == if o[j] == '\\' then 1 + BackRun(o, from, j) else 0
  {
  }

  // The next cut is the first comma after an even number of backslashes.
  lemma {:induction false} NextCutIsFirst(o: string, from: nat, i: nat)
    requires from <= i <= |o| && BackRun(o, from, i) % 2 == 0
    ensures NextCut(o, i).Some? ==> Unescaped(o, from, NextCut(o, i).value)
    ensures forall j | i <= j < (if NextCut(o, i).Some? then NextCut(o, i).value else |o|) :: !Unescaped(o, from, j)
    decreases |o| - i
  {
    hide BackRun;
    if i < |o| {
      BackRunStep(o, from, i);
      if o[i] == '\\' {
        if i + 1 < |o| {
          BackRunStep(o, from, i + 1);
          NextCutIsFirst(o, from, i + 2);
        }
      } else if o[i] != ',' {
        NextCutIsFirst(o, from, i + 1);
      }
    }
  }

  // A match ends at a comma that is not escaped.
  lemma {:induction false} MatchIsUnescaped(o: string, from: nat, i: nat)
    requires from <= i <= |o| && MatchAt(o, i).Some?
    ensures var c := MatchAt(o, i).value - 1;
      && i <= c < |o| && Unescaped(o, from, c)
      && (from > 0 ==> i < c && o[i] != '\\' && BackRun(o, from, c) < c - from)
      && (forall x | i < x < c :: o[x] == '\\')
  {
  }

  lemma {:induction false} BackRunIs(o: string, from: nat, j: nat, r: nat)
    requires from <= j - r && j <= |o|
    requires forall x | j - r <= x < j :: o[x] == '\\'
    requires j - r == from || o[j - r - 1] != '\\'
    ensures BackRun(o, from, j) == r
  {
  }

  lemma {:induction false} FindSkips(o: string, i: nat, s: nat)
    requires i <= s <= |o| && forall x | i <= x < s :: MatchAt(o, x).None?
    ensures FindFrom(o, i) == FindFrom(o, s)
    decreases s - i
  {
    if i < s {
      FindSkips(o, i + 1, s);
    }
  }

  lemma {:induction false} FoundIsMatch(o: string, i: nat) returns (s: nat)
    requires i <= |o| && FindFrom(o, i).Some?
    ensures i <= s <= |o| && MatchAt(o, s) == FindFrom(o, i)
    decreases |o| - i
  {
    s := i;
    if MatchAt(o, i).None? {
      s := FoundIsMatch(o, i + 1);
    }
  }

  predicate OnlyBackslashes(s: string) {
    forall i | 0 <= i < |s| :: s[i] == '\\'
  }

  lemma {:induction false} OnlyBackslashesIsRun(o: string, from: nat, c: nat)
    requires from <= c <= |o|
    ensures OnlyBackslashes(o[from..c]) <==> BackRun(o, from, c) == c - from
  {
  }

  // After a segment with something in it other than backslashes, the expression finds the next cut.
  lemma {:induction false} FindsNextCut(o: string, from: nat)
    requires from <= |o| && NextCut(o, from).Some? && !OnlyBackslashes(o[from..NextCut(o, from).value])
    ensures FindFrom(o, from) == Some(NextCut(o, from).value + 1)
  {
    hide MatchAt, FindFrom, NextCut, OnlyBackslashes, BackRun;
    var c := NextCut(o, from).value;
    NextCutIsFirst(o, from, from);
    OnlyBackslashesIsRun(o, from, c);
    var s := c - BackRun(o, from, c) - 1;
    forall t | from <= t < s ensures MatchAt(o, t).None? {
      NoMatchBefore(o, from, c, t);
    }
    FindSkips(o, from, s);
    FoundBeforeRun(o, s, c);
  }

  lemma {:induction false} NoMatchBefore(o: string, from: nat, c: nat, t: nat)
    requires from <= c < |o| && o[c] == ',' && forall j | from <= j < c :: !Unescaped(o, from, j)
    requires from <= t < c - BackRun(o, from, c) - 1
    ensures MatchAt(o, t).None?
  {
    hide MatchAt, BackRun, Unescaped;
    if MatchAt(o, t).Some? {
      MatchIsUnescaped(o, from, t);
    }
  }

  lemma {:induction false} FoundBeforeRun(o: string, s: nat, c: nat)
    requires s < c < |o| && o[s] != '\\' && o[c] == ',' && (c - s) % 2 == 1
    requires forall x | s < x < c :: o[x] == '\\'
    ensures FindFrom(o, s) == Some(c + 1)
  {
  }

  // Without a cut left, nothing is found.
  lemma {:induction false} FindsNothing(o: string, from: nat)
    requires from <= |o| && NextCut(o, from).None?
    ensures FindFrom(o, from).None?
  {
    NextCutIsFirst(o, from, from);
    if FindFrom(o, from).Some? {
      var s := FoundIsMatch(o, from);
      MatchIsUnescaped(o, from, s);
    }
  }

  // After a segment of backslashes only, other than the first, the next cut is missed.
  lemma {:induction false} MissesNextCut(o: string, from: nat)
    requires 0 < from <= |o| && NextCut(o, from).Some? && OnlyBackslashes(o[from..NextCut(o, from).value])
    ensures FindFrom(o, from) != Some(NextCut(o, from).value + 1)
  {
    OnlyBackslashesIsRun(o, from, NextCut(o, from).value);
    if FindFrom(o, from).Some? {
      var s := FoundIsMatch(o, from);
      MatchIsUnescaped(o, from, s);
    }
  }

  // Whether every segment from the given one on that is followed by a comma has something in it
  // other than backslashes.
  predicate Filled(segments: seq<string>, first: nat) {
    forall i | first <= i < |segments| - 1 :: !OnlyBackslashes(segments[i])
  }

  lemma {:induction false} RegexAfterCut(o: string, from: nat)
    requires 0 < from <= |o|
    ensures RegexSegments(o, from) == Scan(o, from) <==> Filled(Scan(o, from), 0)
    decreases |o| - from
  {
    hide NextCut, FindFrom, OnlyBackslashes;
    var segments := Scan(o, from);
    if NextCut(o, from).None? {
      FindsNothing(o, from);
    } else {
      var c := NextCut(o, from).value;
      var rest := Scan(o, c + 1);
      assert segments == [o[from..c]] + rest && segments[1..] == rest;
      if OnlyBackslashes(o[from..c]) {
        MissesNextCut(o, from);
        assert OnlyBackslashes(segments[0]);
      } else {
        FindsNextCut(o, from);
        RegexAfterCut(o, c + 1);
        ConsFilled(o[from..c], rest, 0);
      }
    }
  }

  lemma {:induction false} ConsFilled(s: string, rest: seq<string>, first: nat)
    requires rest != [] && first <= 1
    ensures Filled([s] + rest, first) <==> (first == 0 ==> !OnlyBackslashes(s)) && Filled(rest, 0)
  {
    var all := [s] + rest;
    if Filled(rest, 0) && (first == 0 ==> !OnlyBackslashes(s)) {
      forall i | first <= i < |all| - 1 ensures !OnlyBackslashes(all[i]) {
        if i > 0 { assert all[i] == rest[i - 1]; }
      }
    }
    if Filled(all, first) {
      assert all[0] == s;
      forall i | 0 <= i < |rest| - 1 ensures !OnlyBackslashes(rest[i]) { assert all[i + 1] == rest[i]; }
    }
  }

  // At the very start a segment of backslashes is cut off too, unless it is empty and the next one
  // is a segment of backslashes that is followed by a comma.
  lemma {:induction false} RegexAtStart(o: string)
    requires NextCut(o, 0).Some? && OnlyBackslashes(o[..NextCut(o, 0).value])
    ensures var c := NextCut(o, 0).value;
      FindFrom(o, 0) == if c == 0 && PairsThenComma(o, 1).Some? then PairsThenComma(o, 1) else Some(c + 1)
  {
    var c := NextCut(o, 0).value;
    assert o[0..c] == o[..c];
    NextCutIsFirst(o, 0, 0);
    OnlyBackslashesIsRun(o, 0, c);
    RunIs(o, 0, c);
  }

  lemma {:induction false} SecondSegmentOfBackslashes(o: string)
    requires o != [] && o[0] == ',' && PairsThenComma(o, 1).Some?
    ensures !Filled(Scan(o, 0), 1)
  {
    var e := PairsThenComma(o, 1).value;
    NextCutIsFirst(o, 1, 1);
    BackRunIs(o, 1, e - 1, e - 2);
    assert Unescaped(o, 1, e - 1);
    var c := NextCut(o, 1);
    assert Scan(o, 0) == [o[0..0]] + Scan(o, 1);
    assert c.Some? && c.value <= e - 1;
    OnlyBackslashesIsRun(o, 1, c.value);
    BackRunIs(o, 1, c.value, c.value - 1);
    assert Scan(o, 1) == [o[1..c.value]] + Scan(o, c.value + 1);
    assert Scan(o, 0)[1] == o[1..c.value];
  }

  /**
   * The expression cuts an option string exactly where a scanner that skips escaped characters does
   * if and only if every segment between the first and the last has something in it other than
   * backslashes.
   */
  lemma {:induction false} SplitsLikeScanner(o: string)
    ensures RegexSegments(o, 0) == Scan(o, 0) <==> Filled(Scan(o, 0), 1)
  {
    if NextCut(o, 0).None? {
      FindsNothing(o, 0);
    } else {
      var c := NextCut(o, 0).value;
      var rest := Scan(o, c + 1);
      if OnlyBackslashes(o[0..c]) {
        assert o[0..c] == o[..c];
        RegexAtStart(o);
      } else {
        FindsNextCut(o, 0);
      }
      if FindFrom(o, 0) == Some(c + 1) {
        RegexAfterCut(o, c + 1);
        ConsFilled(o[0..c], rest, 1);
        assert Scan(o, 0)[1..] == rest;
        assert RegexSegments(o, 0)[1..] == RegexSegments(o, c + 1);
      } else {
        SecondSegmentOfBackslashes(o);
        assert |RegexSegments(o, 0)[0]| > 0 && Scan(o, 0)[0] == [];
      }
    }
  }

  /** An empty option between two others: the second comma is kept in the third. */
  lemma {:induction false} EmptyOptionIsNotCut()
    ensures RegexSegments("a,,b", 0) == ["a", ",b"]
    ensures Scan("a,,b", 0) == ["a", "", "b"]
  {
    var o := "a,,b";
    assert FindFrom(o, 0) == Some(2);
    assert MatchAt(o, 2).None? && MatchAt(o, 3).None? && MatchAt(o, 4).None?;
    assert FindFrom(o, 3).None? && FindFrom(o, 2).None?;
    assert RegexSegments(o, 0) == [o[0..1]] + RegexSegments(o, 2) && RegexSegments(o, 2) == [o[2..]];
    assert NextCut(o, 0) == Some(1) && NextCut(o, 2) == Some(2) && NextCut(o, 3).None?;
    assert Scan(o, 0) == [o[0..1]] + Scan(o, 2) && Scan(o, 2) == [o[2..2]] + Scan(o, 3);
    assert o[0..1] == "a" && o[2..] == ",b" && o[2..2] == "" && o[3..] == "b";
  }

  /* ---- Escaping ---- */

  function EscapeChar(c: char): string {
    if c == ',' || c == '\\' then ['\\', c] else [c]
  }

  function Escape(x: string): string {
    if x == [] then [] else EscapeChar(x[0]) + Escape(x[1..])
  }

  // Backslashes doubled, commas plain: what the first replacement leaves of an escaped text.
  function Doubled(x: string): string {
    if x == [] then [] else (if x[0] == '\\' then "\\\\" else [x[0]]) + Doubled(x[1..])
  }

  lemma {:induction false} FirstReplacement(x: string)
    ensures Replace(Escape(x), '\\', ',', ',') == Doubled(x)
  {
    if x != [] {
      FirstReplacement(x[1..]);
      var e, rest := Escape(x), Escape(x[1..]);
      if x[0] == ',' {
        assert e[2..] == rest;
      } else if x[0] == '\\' {
        // The second backslash starts no pair: an escaped text never begins with a comma.
        assert e[1..] == ['\\'] + rest && (rest != [] ==> rest[0] != ',');
        assert e[1..][1..] == rest;
      } else {
        assert e[1..] == rest;
      }
    }
  }

  lemma {:induction false} SecondReplacement(x: string)
    ensures Replace(Doubled(x), '\\', '\\', '\\') == x
  {
    if x != [] {
      SecondReplacement(x[1..]);
      var d, rest := Doubled(x), Doubled(x[1..]);
      if x[0] == '\\' {
        assert d[2..] == rest;
      } else {
        assert d[1..] == rest;
      }
      assert x == [x[0]] + x[1..];
    }
  }

  lemma {:induction false} UnescapeEscape(x: string)
    ensures Unescape(Escape(x)) == x
  {
    FirstReplacement(x);
    SecondReplacement(x);
  }

  // Escapes read off in one pass: a backslash before a comma or a backslash goes, any other stays.
  function OnePass(s: string): string {
    if s == [] then []
    else if |s| > 1 && s[0] == '\\' && (s[1] == ',' || s[1] == '\\') then [s[1]] + OnePass(s[2..])
    else [s[0]] + OnePass(s[1..])
  }

  lemma {:induction false} ReplaceCons(c: char, rest: string, b: char, d: char)
    ensures c != '\\' || rest == [] || rest[0] != b ==>
      Replace([c] + rest, '\\', b, d) == [c] + Replace(rest, '\\', b, d)
  {
    assert ([c] + rest)[1..] == rest;
  }

  lemma {:induction false} ReplacePair(rest: string, b: char, d: char)
    ensures Replace(['\\', b] + rest, '\\', b, d) == [d] + Replace(rest, '\\', b, d)
  {
    assert (['\\', b] + rest)[2..] == rest;
  }

  // The first character of what the first replacement leaves.
  lemma {:induction false} CommasHead(s: string)
    ensures s == [] <==> Commas(s) == []
    ensures s != [] ==> Commas(s)[0] == if |s| > 1 && s[0] == '\\' && s[1] == ',' then ',' else s[0]
  {
  }

  /** The two replacements of the program are one pass over the text. */
  lemma {:induction false} UnescapeIsOnePass(s: string)
    ensures Unescape(s) == OnePass(s)
    decreases |s|
  {
    if |s| < 2 {
      if s != [] {
        assert s[1..] == [];
        assert [s[0]] + [] == s;
      }
    } else {
      var c, d, rest := s[0], s[1], s[2..];
      assert s == [c] + s[1..] && s[1..] == [d] + rest && s == [c, d] + rest;
      hide Replace;
      if c == '\\' && d == ',' {
        UnescapeIsOnePass(rest);
        ReplacePair(rest, ',', ',');
        ReplaceCons(',', Commas(rest), '\\', '\\');
      } else if c == '\\' && d == '\\' {
        UnescapePair(rest);
      } else {
        UnescapeIsOnePass(s[1..]);
        CommasHead(s[1..]);
        ReplaceCons(c, s[1..], ',', ',');
        ReplaceCons(c, Commas(s[1..]), '\\', '\\');
      }
    }
  }

  lemma {:induction false} UnescapePair(rest: string)
    ensures Unescape(['\\', '\\'] + rest) == ['\\'] + OnePass(rest)
    decreases |rest| + 1
  {
    hide Replace;
    assert ['\\', '\\'] + rest == ['\\'] + (['\\'] + rest);
    ReplaceCons('\\', ['\\'] + rest, ',', ',');
    if rest != [] && rest[0] == ',' {
      var more := rest[1..];
      UnescapeIsOnePass(more);
      assert rest == [','] + more && ['\\'] + rest == ['\\', ','] + more;
      ReplacePair(more, ',', ',');
      ReplaceCons('\\', [','] + Commas(more), '\\', '\\');
      ReplaceCons(',', Commas(more), '\\', '\\');
    } else {
      UnescapeIsOnePass(rest);
      ReplaceCons('\\', rest, ',', ',');
      assert ['\\'] + (['\\'] + Commas(rest)) == ['\\', '\\'] + Commas(rest);
      ReplacePair(Commas(rest), '\\', '\\');
    }
  }

  // The scanner walks over an escaped text without stopping in it.
  lemma {:induction false} SkipEscaped(o: string, i: nat, x: string)
    requires i + |Escape(x)| <= |o| && o[i..i + |Escape(x)|] == Escape(x)
    ensures NextCut(o, i) == NextCut(o, i + |Escape(x)|)
    decreases |x|
  {
    hide NextCut, EscapeChar, Escape;
    EscapeUnfold(x);
    if x != [] {
      var head, tail := EscapeChar(x[0]), Escape(x[1..]);
      SliceParts(o, i, head, tail);
      SkipChar(o, i, x[0]);
      SkipEscaped(o, i + |head|, x[1..]);
    }
  }

  lemma {:induction false} EscapeUnfold(x: string)
    ensures Escape(x) == if x == [] then [] else EscapeChar(x[0]) + Escape(x[1..])
  {
  }

  lemma {:induction false} SliceParts(o: string, i: nat, a: string, b: string)
    requires i + |a + b| <= |o| && o[i..i + |a + b|] == a + b
    ensures o[i..i + |a|] == a && o[i + |a|..i + |a| + |b|] == b
  {
    var window := o[i..i + |a + b|];
    assert window[..|a|] == a && window[|a|..] == b;
  }

  lemma {:induction false} SkipChar(o: string, i: nat, c: char)
    requires i + |EscapeChar(c)| <= |o| && o[i..i + |EscapeChar(c)|] == EscapeChar(c)
    ensures NextCut(o, i) == NextCut(o, i + |EscapeChar(c)|)
  {
    var escaped := EscapeChar(c);
    assert o[i] == o[i..i + |escaped|][0] == escaped[0];
    if c == ',' || c == '\\' {
      assert NextCut(o, i) == NextCut(o, i + 2);
    } else {
      assert NextCut(o, i) == NextCut(o, i + 1);
    }
  }

  function Join(segments: seq<string>): string
    requires segments != []
  {
    if |segments| == 1 then segments[0] else segments[0] + "," + Join(segments[1..])
  }

  function Escaped(xs: seq<string>): (r: seq<string>)
    ensures |r| == |xs| && forall i | 0 <= i < |xs| :: r[i] == Escape(xs[i])
  {
    seq(|xs|, i requires 0 <= i < |xs| => Escape(xs[i]))
  }

  // The first segment of a joined text, and what follows it.
  lemma {:induction false} JoinParts(o: string, from: nat, first: string, more: seq<string>)
    requires from <= |o| && o[from..] == Join([first] + more)
    ensures from + |first| <= |o| && o[from..from + |first|] == first
    ensures more == [] ==> from + |first| == |o|
    ensures more != [] ==> from + |first| < |o| && o[from + |first|] == ',' && o[from + |first| + 1..] == Join(more)
  {
  }

  lemma {:induction false} ScanStep(o: string, from: nat, end: nat)
    requires from <= end <= |o| && NextCut(o, from) == NextCut(o, end)
    ensures end == |o| ==> Scan(o, from) == [o[from..end]]
    ensures end < |o| && o[end] == ',' ==> Scan(o, from) == [o[from..end]] + Scan(o, end + 1)
  {
    assert end == |o| ==> o[from..] == o[from..end] && NextCut(o, end).None?;
    assert end < |o| && o[end] == ',' ==> NextCut(o, end) == Some(end);
  }

  lemma {:induction false} ScanJoined(o: string, from: nat, xs: seq<string>)
    requires xs != [] && from <= |o| && o[from..] == Join(Escaped(xs))
    ensures Scan(o, from) == Escaped(xs)
    decreases |xs|
  {
    hide Join, Escape, Escaped, Scan, NextCut;
    var e, more := Escape(xs[0]), Escaped(xs[1..]);
    assert Escaped(xs) == [e] + more;
    JoinParts(o, from, e, more);
    SkipEscaped(o, from, xs[0]);
    ScanStep(o, from, from + |e|);
    if |xs| > 1 {
      ScanJoined(o, from + |e| + 1, xs[1..]);
    }
  }

  // Escaping doubles backslashes and adds nothing else to them.
  lemma {:induction false} EscapedBackslashes(x: string)
    ensures OnlyBackslashes(Escape(x)) <==> OnlyBackslashes(x)
  {
    if x != [] {
      EscapedBackslashes(x[1..]);
      BackslashesConcat(EscapeChar(x[0]), Escape(x[1..]));
      BackslashesConcat([x[0]], x[1..]);
      assert [x[0]] + x[1..] == x;
      assert OnlyBackslashes(EscapeChar(x[0])) <==> OnlyBackslashes([x[0]]) by { BackslashChar(x[0]); }
    }
  }

  lemma {:induction false} BackslashChar(c: char)
    ensures OnlyBackslashes(EscapeChar(c)) <==> c == '\\'
    ensures OnlyBackslashes([c]) <==> c == '\\'
  {
    assert EscapeChar(c)[|EscapeChar(c)| - 1] == c && [c][0] == c;
  }

  lemma {:induction false} BackslashesConcat(a: string, b: string)
    ensures OnlyBackslashes(a + b) <==> OnlyBackslashes(a) && OnlyBackslashes(b)
  {
    if OnlyBackslashes(a + b) {
      assert forall i | 0 <= i < |a| :: (a + b)[i] == a[i];
      assert forall i | 0 <= i < |b| :: (a + b)[|a| + i] == b[i];
    }
  }

  /**
   * Joining escaped texts with commas and splitting the result gives the escaped texts back if and
   * only if each between the first and the last has something in it other than backslashes.
   */
  lemma {:induction false} SplitOfJoinedTexts(texts: seq<string>)
    requires texts != []
    ensures RegexSegments(Join(Escaped(texts)), 0) == Escaped(texts) <==> Filled(texts, 1)
  {
    var o := Join(Escaped(texts));
    assert o[0..] == o;
    ScanJoined(o, 0, texts);
    SplitsLikeScanner(o);
    hide OnlyBackslashes;
    forall i | 0 <= i < |texts| ensures OnlyBackslashes(Escaped(texts)[i]) <==> OnlyBackslashes(texts[i]) {
      EscapedBackslashes(texts[i]);
    }
  }

  // An option as it is written: with an @ in front for all values to be used, a name, and a value that
  // may be left out when it is true.
  datatype Written = Written(slice: bool, name: string, value: Option<string>) {
    predicate Valid() {
      '=' !in name && (name == "" || name[0] != '@')
    }
  }

  // What stands before the equals sign.
  function WrittenKey(w: Written): string {
    (if w.slice then "@" else "") + w.name
  }

  function Text(w: Written): string {
    WrittenKey(w) + (if w.value.Some? then "=" + w.value.value else "")
  }

  function Texts(options: seq<Written>): seq<string> {
    seq(|options|, i requires 0 <= i < |options| => Text(options[i]))
  }

  function ReadKey(pascal: string -> string, w: Written): string {
    if w.slice then "@" + pascal(w.name) else pascal(w.name)
  }

  function ReadValue(w: Written): string {
    if w.value.Some? then w.value.value else "true"
  }

  // What the options mean: names in Pascal case, the @ as it was, and none with an empty key.
  function Meanings(pascal: string -> string, options: seq<Written>): seq<KeyValue> {
    if options == [] then []
    else if ReadKey(pascal, options[0]) == "" then Meanings(pascal, options[1..])
    else [KeyValue(ReadKey(pascal, options[0]), ReadValue(options[0]))] + Meanings(pascal, options[1..])
  }

  lemma {:induction false} EqualsAt(s: string, i: nat)
    requires i <= |s| && '=' !in s[..i] && (i < |s| ==> s[i] == '=')
    ensures IndexOfEquals(s) == i
  {
    if i > 0 {
      assert s[..i][0] == s[0] && s[1..][..i - 1] == s[..i][1..];
      EqualsAt(s[1..], i - 1);
    }
  }

  lemma {:induction false} ParseEscaped(pascal: string -> string, w: Written)
    requires w.Valid()
    ensures ParseOption(pascal, Escape(Text(w))) == KeyValue(ReadKey(pascal, w), ReadValue(w))
  {
    UnescapeEscape(Text(w));
    hide Unescape, Escape;
    var s, k := Text(w), WrittenKey(w);
    assert s[..|k|] == k;
    EqualsAt(s, |k|);
    assert w.value.Some? ==> s[|k| + 1..] == w.value.value;
    assert w.slice ==> k[1..] == w.name;
    assert w.value.None? ==> s == k;
    assert !w.slice ==> k == w.name;
  }

  lemma {:induction false} ParseAllEscaped(pascal: string -> string, options: seq<Written>)
    requires forall w | w in options :: w.Valid()
    ensures ParseAll(pascal, Escaped(Texts(options))) == Meanings(pascal, options)
  {
    hide ParseOption, Escape, Text, ReadKey, ReadValue;
    if options != [] {
      ParseEscaped(pascal, options[0]);
      ParseAllEscaped(pascal, options[1..]);
      assert Escaped(Texts(options))[1..] == Escaped(Texts(options[1..]));
      var rest := Meanings(pascal, options[1..]);
      assert [] + rest == rest;
    }
  }

  // An option without a value, other than the first and the last, is not backslashes only.
  ghost predicate FlagsFilled(options: seq<Written>) {
    forall i | 1 <= i < |options| - 1 && options[i].value.None? :: !OnlyBackslashes(WrittenKey(options[i]))
  }

  /**
   * Joining the escaped texts of options with commas and splitting the result gives the options
   * back, whatever commas and backslashes names and values are made of.
   */
  lemma {:induction false} SplitOfJoined(pascal: string -> string, options: seq<Written>)
    requires options != [] && (forall w | w in options :: w.Valid()) && FlagsFilled(options)
    ensures ParseAll(pascal, RegexSegments(Join(Escaped(Texts(options))), 0)) == Meanings(pascal, options)
  {
    var texts := Texts(options);
    forall i | 1 <= i < |texts| - 1 ensures !OnlyBackslashes(texts[i]) {
      if options[i].value.Some? {
        assert texts[i][|WrittenKey(options[i])|] == '=';
      } else {
        assert texts[i] == WrittenKey(options[i]);
      }
    }
    SplitOfJoinedTexts(texts);
    ParseAllEscaped(pascal, options);
  }
}
