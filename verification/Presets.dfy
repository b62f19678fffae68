/** Evaluating options: templates, presets, plain keys and slice keys. */
module Presets {
  import opened Wrappers
  import opened Options

  // Plain options, and the options whose key began with @, without the @.
  datatype Values = Values(strings: map<string, string>, slices: map<string, seq<string>>)

  // What a template evaluates to, given its key and the options so far; its own text when it fails.
  type Template = (string, string, Values) -> string

  type Presets = map<string, seq<KeyValue>>

  const PRESET := "Preset"

  function Slice(slices: map<string, seq<string>>, k: string): seq<string> {
    if k in slices then slices[k] else []
  }

  function Put(o: Values, k: string, v: string): Values {
    if "@" <= k then o.(slices := o.slices[k[1..] := Slice(o.slices, k[1..]) + [v]])
    else o.(strings := o.strings[k := v])
  }

  // Evaluation that follows presets at most depth deep. None: that was not deep enough.
  function Evaluate(t: Template, presets: Presets, o: Values, kvs: seq<KeyValue>, depth: nat): Option<Values>
    decreases depth, |kvs|
  {
    if kvs == [] then Some(o)
    else
      var k, v := kvs[0].key, t(kvs[0].key, kvs[0].value, o);
      if k != PRESET then Evaluate(t, presets, Put(o, k, v), kvs[1..], depth)
      else if v !in presets then Evaluate(t, presets, o, kvs[1..], depth)
      else if depth == 0 then None
      else
        var next := Evaluate(t, presets, o, presets[v], depth - 1);
        if next.None? then None else Evaluate(t, presets, next.value, kvs[1..], depth)
  }

  // Evaluation ends.
  ghost predicate Ends(t: Template, presets: Presets, o: Values, kvs: seq<KeyValue>) {
    exists depth: nat :: Evaluate(t, presets, o, kvs, depth).Some?
  }

  // Deep enough is as good as deeper.
  lemma {:induction false} Deeper(t: Template, presets: Presets, o: Values, kvs: seq<KeyValue>, depth: nat, more: nat)
    requires depth <= more && Evaluate(t, presets, o, kvs, depth).Some?
    ensures Evaluate(t, presets, o, kvs, more) == Evaluate(t, presets, o, kvs, depth)
    decreases depth, |kvs|
  {
    if kvs != [] {
      var k, v := kvs[0].key, t(kvs[0].key, kvs[0].value, o);
      if k != PRESET {
        Deeper(t, presets, Put(o, k, v), kvs[1..], depth, more);
      } else if v !in presets {
        Deeper(t, presets, o, kvs[1..], depth, more);
      } else {
        Deeper(t, presets, o, presets[v], depth - 1, more - 1);
        Deeper(t, presets, Evaluate(t, presets, o, presets[v], depth - 1).value, kvs[1..], depth, more);
      }
    }
  }

  class OptionSet {
    var strings: map<string, string>
    var slices: map<string, seq<string>>

    constructor ()
      ensures Contents() == Values(map[], map[])
    {
      strings, slices := map[], map[];
    }

    function Contents(): Values
      reads this
    {
      Values(strings, slices)
    }

    // evalOptions: on presets that lead back to themselves it would not end.
    method Eval(t: Template, presets: Presets, kvs: seq<KeyValue>, ghost depth: nat)
      requires Evaluate(t, presets, Contents(), kvs, depth).Some?
      modifies this
      ensures Some(Contents()) == Evaluate(t, presets, old(Contents()), kvs, depth)
      decreases depth, |kvs|
    {
      assert kvs[0..] == kvs;
      for i := 0 to |kvs|
        invariant Evaluate(t, presets, old(Contents()), kvs, depth) == Evaluate(t, presets, Contents(), kvs[i..], depth)
      {
        assert kvs[i..][0] == kvs[i] && kvs[i..][1..] == kvs[i + 1..];
        var k, v := kvs[i].key, t(kvs[i].key, kvs[i].value, Contents());
        if k == PRESET {
          if v in presets {
            Eval(t, presets, presets[v], depth - 1);
          }
        } else if "@" <= k {
          slices := slices[k[1..] := Slice(slices, k[1..]) + [v]];
        } else {
          strings := strings[k := v];
        }
      }
    }
  }

  // EvalOptions: from no options, whenever that ends.
  method EvalOptions(t: Template, presets: Presets, kvs: seq<KeyValue>) returns (o: Values)
    requires Ends(t, presets, Values(map[], map[]), kvs)
    ensures exists depth: nat :: Evaluate(t, presets, Values(map[], map[]), kvs, depth) == Some(o)
    ensures forall depth: nat :: Evaluate(t, presets, Values(map[], map[]), kvs, depth) in {None, Some(o)}
  {
    ghost var depth: nat :| Evaluate(t, presets, Values(map[], map[]), kvs, depth).Some?;
    var options := new OptionSet();
    options.Eval(t, presets, kvs, depth);
    o := options.Contents();
    forall other: nat ensures Evaluate(t, presets, Values(map[], map[]), kvs, other) in {None, Some(o)} {
      if Evaluate(t, presets, Values(map[], map[]), kvs, other).Some? {
        if depth <= other {
          Deeper(t, presets, Values(map[], map[]), kvs, depth, other);
        } else {
          Deeper(t, presets, Values(map[], map[]), kvs, other, depth);
        }
      }
    }
  }

  /* ---- Flattening ---- */

  // References to presets mean what they say, whatever the options so far.
  ghost predicate Literal(t: Template, kvs: seq<KeyValue>) {
    forall kv, o | kv in kvs && kv.key == PRESET :: t(PRESET, kv.value, o) == kv.value
  }

  ghost predicate AllLiteral(t: Template, presets: Presets) {
    forall p | p in presets :: Literal(t, presets[p])
  }

  // The pairs with every reference replaced by what it leads to, at most depth deep.
  function Flatten(presets: Presets, kvs: seq<KeyValue>, depth: nat): Option<seq<KeyValue>>
    decreases depth, |kvs|
  {
    if kvs == [] then Some([])
    else
      var first := FlattenOne(presets, kvs[0], depth);
      var rest := Flatten(presets, kvs[1..], depth);
      if first.None? || rest.None? then None else Some(first.value + rest.value)
  }

  function FlattenOne(presets: Presets, kv: KeyValue, depth: nat): Option<seq<KeyValue>>
    decreases depth, 0
  {
    if kv.key != PRESET then Some([kv])
    else if kv.value !in presets then Some([])
    else if depth == 0 then None
    else Flatten(presets, presets[kv.value], depth - 1)
  }

  // One pass over pairs without references.
  function Fold(t: Template, o: Values, kvs: seq<KeyValue>): Values
    decreases |kvs|
  {
    if kvs == [] then o else Fold(t, Put(o, kvs[0].key, t(kvs[0].key, kvs[0].value, o)), kvs[1..])
  }

  lemma {:induction false} FoldAppend(t: Template, o: Values, a: seq<KeyValue>, b: seq<KeyValue>)
    ensures Fold(t, o, a + b) == Fold(t, Fold(t, o, a), b)
    decreases |a|
  {
    if a == [] {
      assert a + b == b;
    } else {
      assert (a + b)[1..] == a[1..] + b;
      FoldAppend(t, Put(o, a[0].key, t(a[0].key, a[0].value, o)), a[1..], b);
    }
  }

  /**
   * For whatever templates compute from the options so far, evaluating pairs and, recursively, the
   * presets they name is one left fold over the flattened pairs, and one goes as deep as the other.
   */
  lemma {:induction false} EvaluateIsFold(t: Template, presets: Presets, o: Values, kvs: seq<KeyValue>, depth: nat)
    requires Literal(t, kvs) && AllLiteral(t, presets)
    ensures Evaluate(t, presets, o, kvs, depth) ==
      var flat := Flatten(presets, kvs, depth); if flat.None? then None else Some(Fold(t, o, flat.value))
    decreases depth, |kvs|
  {
    if kvs != [] {
      var k, v, rest := kvs[0].key, kvs[0].value, Flatten(presets, kvs[1..], depth);
      var flat := FlattenOne(presets, kvs[0], depth);
      assert Literal(t, kvs[1..]);
      if k != PRESET {
        if rest.Some? {
          FoldAppend(t, o, [kvs[0]], rest.value);
          assert [kvs[0]][1..] == [];
        }
        EvaluateIsFold(t, presets, Put(o, k, t(k, v, o)), kvs[1..], depth);
      } else {
        assert t(PRESET, v, o) == v;
        if v !in presets {
          if rest.Some? { assert [] + rest.value == rest.value; }
          EvaluateIsFold(t, presets, o, kvs[1..], depth);
        } else if depth > 0 {
          EvaluateIsFold(t, presets, o, presets[v], depth - 1);
          if flat.Some? {
            if rest.Some? { FoldAppend(t, o, flat.value, rest.value); }
            EvaluateIsFold(t, presets, Fold(t, o, flat.value), kvs[1..], depth);
          }
        }
      }
    }
  }

  /* ---- References that are computed ---- */

  // The pairs that are put, in order, when references mean what their templates evaluate to with the
  // options so far.
  function Trace(t: Template, presets: Presets, o: Values, kvs: seq<KeyValue>, depth: nat): Option<seq<KeyValue>>
    decreases depth, |kvs|
  {
    if kvs == [] then Some([])
    else
      var first := TraceOne(t, presets, o, kvs[0], depth);
      if first.None? then None
      else
        var rest := Trace(t, presets, Fold(t, o, first.value), kvs[1..], depth);
        if rest.None? then None else Some(first.value + rest.value)
  }

  function TraceOne(t: Template, presets: Presets, o: Values, kv: KeyValue, depth: nat): Option<seq<KeyValue>>
    decreases depth, 0
  {
    if kv.key != PRESET then Some([kv])
    else
      var named := t(PRESET, kv.value, o);
      if named !in presets then Some([])
      else if depth == 0 then None
      else Trace(t, presets, o, presets[named], depth - 1)
  }

  lemma {:induction false} FoldOne(t: Template, o: Values, kv: KeyValue)
    ensures Fold(t, o, [kv]) == Put(o, kv.key, t(kv.key, kv.value, o))
  {
    assert [kv][1..] == [];
  }

  /** Whatever references evaluate to, evaluation is one left fold over the pairs they lead to. */
  lemma {:induction false} EvaluateIsTrace(t: Template, presets: Presets, o: Values, kvs: seq<KeyValue>, depth: nat)
    ensures Evaluate(t, presets, o, kvs, depth) ==
      var pairs := Trace(t, presets, o, kvs, depth); if pairs.None? then None else Some(Fold(t, o, pairs.value))
    decreases depth, |kvs|
  {
    if kvs != [] {
      var k, v := kvs[0].key, t(kvs[0].key, kvs[0].value, o);
      var first := TraceOne(t, presets, o, kvs[0], depth);
      if k == PRESET && v in presets && depth > 0 {
        EvaluateIsTrace(t, presets, o, presets[v], depth - 1);
      }
      if first.Some? {
        var next := Fold(t, o, first.value);
        if k != PRESET {
          FoldOne(t, o, kvs[0]);
        }
        EvaluateIsTrace(t, presets, next, kvs[1..], depth);
        var rest := Trace(t, presets, next, kvs[1..], depth);
        if rest.Some? {
          FoldAppend(t, o, first.value, rest.value);
        }
      }
    }
  }

  /** A reference stands for the preset its template evaluates to with the options so far, or for nothing. */
  lemma {:induction false} ReferenceIsEvaluated(t: Template, presets: Presets, o: Values, text: string,
                                                p: string, depth: nat)
    requires t("Preset", text, o) == p
    ensures var kvs := [KeyValue("Preset", text)];
      if p in presets then Evaluate(t, presets, o, kvs, depth + 1) == Evaluate(t, presets, o, presets[p], depth)
      else Evaluate(t, presets, o, kvs, depth) == Some(o)
  {
    var kvs := [KeyValue("Preset", text)];
    assert kvs[1..] == [];
  }

  /* ---- When evaluation ends ---- */

  predicate Refers(kvs: seq<KeyValue>, p: string) {
    KeyValue(PRESET, p) in kvs
  }

  // Presets, each named in the one before and the first in the pairs.
  ghost predicate IsPath(presets: Presets, kvs: seq<KeyValue>, path: seq<string>) {
    && (path != [] ==> Refers(kvs, path[0]))
    && (forall i | 0 <= i < |path| :: path[i] in presets)
    && (forall i | 0 < i < |path| :: Refers(presets[path[i - 1]], path[i]))
  }

  ghost predicate LeadsBack(presets: Presets, kvs: seq<KeyValue>) {
    exists path, i, j :: IsPath(presets, kvs, path) && 0 <= i < j < |path| && path[i] == path[j]
  }

  // Too deep to flatten is a long path.
  lemma {:induction false} DeepPath(presets: Presets, kvs: seq<KeyValue>, depth: nat) returns (path: seq<string>)
    requires Flatten(presets, kvs, depth).None?
    ensures IsPath(presets, kvs, path) && |path| == depth + 1
    decreases depth, |kvs|
  {
    if FlattenOne(presets, kvs[0], depth).None? {
      var p := kvs[0].value;
      assert kvs[0] in kvs;
      if depth == 0 {
        path := [p];
      } else {
        var rest := DeepPath(presets, presets[p], depth - 1);
        path := [p] + rest;
        forall i | 0 < i < |path| ensures Refers(presets[path[i - 1]], path[i]) {
          assert path[i] == rest[i - 1] && (i > 1 ==> path[i - 1] == rest[i - 2]);
        }
      }
    } else {
      path := DeepPath(presets, kvs[1..], depth);
    }
  }

  lemma {:induction false} LongPathIsDeep(presets: Presets, kvs: seq<KeyValue>, path: seq<string>, depth: nat)
    requires IsPath(presets, kvs, path) && |path| > depth
    ensures Flatten(presets, kvs, depth).None?
    decreases depth, |kvs|
  {
    var kv := KeyValue(PRESET, path[0]);
    if kvs[0] == kv {
      if depth > 0 {
        var rest := path[1..];
        forall i | 0 < i < |rest| ensures Refers(presets[rest[i - 1]], rest[i]) {
          assert rest[i] == path[i + 1] && rest[i - 1] == path[i + 1 - 1];
        }
        assert Refers(presets[path[1 - 1]], path[1]);
        LongPathIsDeep(presets, presets[path[0]], rest, depth - 1);
      }
    } else {
      assert kv in kvs[1..];
      LongPathIsDeep(presets, kvs[1..], path, depth);
    }
  }

  // Going around once more.
  lemma {:induction false} GoAround(presets: Presets, kvs: seq<KeyValue>, path: seq<string>, i: nat, j: nat, n: nat)
    returns (longer: seq<string>)
    requires IsPath(presets, kvs, path) && i < j < |path| && path[i] == path[j]
    ensures IsPath(presets, kvs, longer) && |longer| >= n
    decreases n - |path|
  {
    longer := path;
    if |path| < n {
      var around := path[..j + 1] + path[i + 1..];
      forall m | 0 < m < |around| ensures Refers(presets[around[m - 1]], around[m]) {
        if m > j {
          assert around[m] == path[m - j + i] && around[m - 1] == path[m - j + i - 1];
        }
      }
      assert around[i] == around[j];
      longer := GoAround(presets, kvs, around, i, j, n);
    }
  }

  lemma {:induction false} Pigeons(path: seq<string>, names: set<string>)
    requires (forall i | 0 <= i < |path| :: path[i] in names) && |path| > |names|
    ensures exists i, j :: 0 <= i < j < |path| && path[i] == path[j]
  {
    var last := path[|path| - 1];
    var before := path[..|path| - 1];
    if last in before {
      var i :| 0 <= i < |before| && before[i] == last;
      assert path[i] == path[|path| - 1];
    } else {
      forall i | 0 <= i < |before| ensures before[i] in names - {last} {
        assert before[i] in before;
      }
      Pigeons(before, names - {last});
      var i, j :| 0 <= i < j < |before| && before[i] == before[j];
      assert path[i] == path[j];
    }
  }

  /** With literal references evaluation ends if and only if no preset it comes to leads back to itself. */
  lemma {:induction false} EndsIffNothingLeadsBack(t: Template, presets: Presets, o: Values, kvs: seq<KeyValue>)
    requires Literal(t, kvs) && AllLiteral(t, presets)
    ensures Ends(t, presets, o, kvs) <==> !LeadsBack(presets, kvs)
  {
    if LeadsBack(presets, kvs) {
      var path, i, j :| IsPath(presets, kvs, path) && 0 <= i < j < |path| && path[i] == path[j];
      forall depth: nat ensures Evaluate(t, presets, o, kvs, depth).None? {
        var longer := GoAround(presets, kvs, path, i, j, depth + 1);
        LongPathIsDeep(presets, kvs, longer, depth);
        EvaluateIsFold(t, presets, o, kvs, depth);
      }
    } else {
      var depth := |presets.Keys|;
      EvaluateIsFold(t, presets, o, kvs, depth);
      if Flatten(presets, kvs, depth).None? {
        var path := DeepPath(presets, kvs, depth);
        Pigeons(path, presets.Keys);
      }
    }
  }

  /* ---- What a fold leaves ---- */

  // The value each pair evaluates to, in order.
  function Evaluated(t: Template, o: Values, kvs: seq<KeyValue>): (r: seq<string>)
    ensures |r| == |kvs|
    decreases |kvs|
  {
    if kvs == [] then []
    else
      var v := t(kvs[0].key, kvs[0].value, o);
      [v] + Evaluated(t, Put(o, kvs[0].key, v), kvs[1..])
  }

  function ValuesOf(kvs: seq<KeyValue>, values: seq<string>, k: string): seq<string>
    requires |values| == |kvs|
  {
    if kvs == [] then []
    else (if kvs[0].key == k then [values[0]] else []) + ValuesOf(kvs[1..], values[1..], k)
  }

  // The values given for k in a fold from o.
  function Given(t: Template, o: Values, kvs: seq<KeyValue>, k: string): seq<string> {
    ValuesOf(kvs, Evaluated(t, o, kvs), k)
  }

  lemma {:induction false} GivenCons(t: Template, o: Values, kvs: seq<KeyValue>, k: string)
    requires kvs != []
    ensures var v := t(kvs[0].key, kvs[0].value, o);
      Given(t, o, kvs, k) == (if kvs[0].key == k then [v] else []) + Given(t, Put(o, kvs[0].key, v), kvs[1..], k)
  {
  }

  /** A plain key has the last value given for it. */
  lemma {:induction false} LastValueWins(t: Template, o: Values, kvs: seq<KeyValue>, k: string)
    requires !("@" <= k)
    ensures var all := Given(t, o, kvs, k);
      if all != [] then k in Fold(t, o, kvs).strings && Fold(t, o, kvs).strings[k] == all[|all| - 1]
      else
        && (k in Fold(t, o, kvs).strings <==> k in o.strings)
        && (k in o.strings ==> Fold(t, o, kvs).strings[k] == o.strings[k])
    decreases |kvs|
  {
    if kvs != [] {
      GivenCons(t, o, kvs, k);
      hide Given;
      LastValueWins(t, Put(o, kvs[0].key, t(kvs[0].key, kvs[0].value, o)), kvs[1..], k);
    } else {
      assert Given(t, o, kvs, k) == [];
    }
  }

  /** A slice key has all values given for it, in order. */
  lemma {:induction false} SlicesConcatenate(t: Template, o: Values, kvs: seq<KeyValue>, k: string)
    ensures Slice(Fold(t, o, kvs).slices, k) == Slice(o.slices, k) + Given(t, o, kvs, "@" + k)
    decreases |kvs|
  {
    if kvs != [] {
      var key, v := kvs[0].key, t(kvs[0].key, kvs[0].value, o);
      GivenCons(t, o, kvs, "@" + k);
      hide Given, Fold;
      SlicesConcatenate(t, Put(o, key, v), kvs[1..], k);
      assert Fold(t, o, kvs) == Fold(t, Put(o, key, v), kvs[1..]) by { FoldCons(t, o, kvs); }
      PutSlice(o, key, v, k);
      hide Slice, Put;
    } else {
      assert Given(t, o, kvs, "@" + k) == [];
    }
  }

  lemma {:induction false} PutSlice(o: Values, key: string, v: string, k: string)
    ensures Slice(Put(o, key, v).slices, k) == Slice(o.slices, k) + (if key == "@" + k then [v] else [])
  {
  }

  lemma {:induction false} FoldCons(t: Template, o: Values, kvs: seq<KeyValue>)
    requires kvs != []
    ensures Fold(t, o, kvs) == Fold(t, Put(o, kvs[0].key, t(kvs[0].key, kvs[0].value, o)), kvs[1..])
  {
  }

  /* ---- The names presets are found by ---- */

  const EXTENSION := ".json"

  // strings.TrimRight: every character of the set goes from the end.
  function TrimRight(s: string, cutset: string): string {
    if s != [] && s[|s| - 1] in cutset then TrimRight(s[..|s| - 1], cutset) else s
  }

  /** What is left is the start of the text, up to the last character that is not in the set. */
  lemma {:induction false} TrimRightIs(s: string, cutset: string)
    ensures var r := TrimRight(s, cutset);
      && r <= s && (r != [] ==> r[|r| - 1] !in cutset)
      && forall i | |r| <= i < |s| :: s[i] in cutset
  {
    if s != [] && s[|s| - 1] in cutset {
      TrimRightIs(s[..|s| - 1], cutset);
    }
  }

  // The file a preset is set in, and the name it is read back under.
  function PresetFile(name: string): string {
    name + EXTENSION
  }

  function PresetName(file: string): string {
    TrimRight(file, EXTENSION)
  }

  lemma {:induction false} TrimTail(s: string, tail: string, cutset: string)
    requires forall i | 0 <= i < |tail| :: tail[i] in cutset
    ensures TrimRight(s + tail, cutset) == TrimRight(s, cutset)
  {
    if tail == [] {
      assert s + tail == s;
    } else {
      var k := |tail| - 1;
      assert (s + tail)[..|s| + k] == s + tail[..k];
      TrimTail(s, tail[..k], cutset);
    }
  }

  lemma {:induction false} TrimShortens(s: string, cutset: string)
    ensures |TrimRight(s, cutset)| <= |s|
    ensures TrimRight(s, cutset) == s <==> s == [] || s[|s| - 1] !in cutset
  {
    if s != [] && s[|s| - 1] in cutset {
      TrimShortens(s[..|s| - 1], cutset);
    }
  }

  /**
   * A preset is found by the name it was set under if and only if that name does not end in one of the
   * characters of the extension.
   */
  lemma {:induction false} FoundByName(name: string)
    ensures PresetName(PresetFile(name)) == name <==> name == [] || name[|name| - 1] !in EXTENSION
  {
    TrimTail(name, EXTENSION, EXTENSION);
    TrimShortens(name, EXTENSION);
  }

  /** Set as backups, a preset is only found as backup. */
  lemma {:induction false} BackupsIsNotFound()
    ensures PresetName(PresetFile("backups")) == "backup"
  {
    TrimTail("backup", "s.json", EXTENSION);
    assert "backup" + "s.json" == PresetFile("backups");
    TrimShortens("backup", EXTENSION);
  }
}
