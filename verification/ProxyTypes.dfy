/** Nested proxies: the options each layer sees, and the type the local side expects behind them. */
module ProxyTypes {
  import opened Wrappers
  import opened Presets

  const PROXY := "Proxy"
  const TYPE := "Type"
  const COMMAND := "Command"
  const PROXY_TYPE := "proxy"

  type Strings = map<string, string>

  predicate Dropped(k: string) {
    k == PROXY || k == COMMAND || k == TYPE
  }

  // strings.TrimPrefix(k, "Proxy")
  function Trim(k: string): string {
    if PROXY <= k then k[|PROXY|..] else k
  }

  // k is passed on to the next layer, as t.
  predicate Passes<V>(options: map<string, V>, k: string, t: string) {
    k in options && !Dropped(k) && Trim(k) == t
  }

  // What is passed on: every such option is there, with a value some key passed on for it had. Two
  // keys can be passed on as one; which value stays depends on the map order.
  ghost predicate IsProxied<V>(options: map<string, V>, out: map<string, V>) {
    && (forall k, t | Passes(options, k, t) :: t in out)
    && (forall t | t in out :: exists k :: Passes(options, k, t) && options[k] == out[t])
  }

  // One of the two loops of ProxiedOptions. Go walks the map in any order.
  method PassOn<V>(options: map<string, V>) returns (opts: map<string, V>)
    ensures IsProxied(options, opts)
  {
    opts := map[];
    var todo := options.Keys;
    while todo != {}
      invariant todo <= options.Keys
      invariant forall k, t | Passes(options, k, t) && k !in todo :: t in opts
      invariant forall t | t in opts :: exists k :: Passes(options, k, t) && options[k] == opts[t]
      decreases todo
    {
      var k :| k in todo;
      todo := todo - {k};
      if !Dropped(k) {
        assert Passes(options, k, Trim(k));
        opts := opts[Trim(k) := options[k]];
      }
    }
  }

  // Plain options and slice options, each by their own loop.
  method ProxiedOptions(options: Values) returns (opts: Values)
    ensures IsProxied(options.strings, opts.strings) && IsProxied(options.slices, opts.slices)
  {
    var strings := PassOn(options.strings);
    var slices := PassOn(options.slices);
    opts := Values(strings, slices);
  }

  lemma {:induction false} PassesMeaning<V>(options: map<string, V>, k: string, t: string)
    ensures Passes(options, k, t) <==> k in options && !Dropped(k) && (k == PROXY + t || (!(PROXY <= k) && k == t))
  {
  }

  // A longer name than Proxy that begins with it is passed on.
  lemma {:induction false} PassedOn(t: string)
    requires t != []
    ensures !Dropped(PROXY + t)
  {
    assert |PROXY + t| == 5 + |t| && (PROXY + t)[0] == 'P';
  }

  /**
   * Option by option, what the next layer sees: what stands behind Proxy, and every other option but
   * the type, the command and Proxy itself.
   */
  lemma {:induction false} SeenByNextLayer<V>(options: map<string, V>, out: map<string, V>, t: string)
    requires IsProxied(options, out)
    ensures t in out <==>
      || ("Proxy" + t in options && t != "")
      || (t in options && t != "Type" && t != "Command" && !("Proxy" <= t))
    ensures t in out ==>
      || ("Proxy" + t in options && t != "" && out[t] == options["Proxy" + t])
      || (t in options && out[t] == options[t])
  {
    PassesMeaning(options, "Proxy" + t, t);
    PassesMeaning(options, t, t);
    if t != "" { PassedOn(t); } else { assert "Proxy" + t == "Proxy"; }
    if t in out {
      var k :| Passes(options, k, t) && options[k] == out[t];
      PassesMeaning(options, k, t);
    }
  }

  /* ---- When the map order matters ---- */

  // Two keys with different values are passed on as one option.
  ghost predicate Collide<V>(options: map<string, V>, t: string) {
    && t in options && PROXY + t in options && options[t] != options[PROXY + t]
    && !Dropped(t) && !(PROXY <= t) && t != []
  }

  ghost function SomeProxied<V>(options: map<string, V>): (out: map<string, V>)
    ensures IsProxied(options, out)
  {
    var targets := set k | k in options && !Dropped(k) :: Trim(k);
    map t | t in targets :: (var k :| k in options && !Dropped(k) && Trim(k) == t; options[k])
  }

  lemma {:induction false} SameValue<V>(options: map<string, V>, a: map<string, V>, b: map<string, V>, t: string)
    requires IsProxied(options, a) && IsProxied(options, b) && t in a && !Collide(options, t)
    ensures t in b && a[t] == b[t]
  {
    var k :| Passes(options, k, t) && options[k] == a[t];
    var l :| Passes(options, l, t) && options[l] == b[t];
    PassesMeaning(options, k, t);
    PassesMeaning(options, l, t);
    if t == [] { assert PROXY + t == PROXY; }
  }

  lemma {:induction false} CollisionIsSeen<V(!new)>(options: map<string, V>, t: string)
    requires Collide(options, t)
    ensures exists a, b :: IsProxied(options, a) && IsProxied(options, b) && a != b
  {
    PassedOn(t);
    PassesMeaning(options, PROXY + t, t);
    PassesMeaning(options, t, t);
    var any := SomeProxied(options);
    var a, b := any[t := options[t]], any[t := options[PROXY + t]];
    assert Passes(options, t, t) && Passes(options, PROXY + t, t);
    assert IsProxied(options, a) && IsProxied(options, b) && a[t] != b[t];
  }

  /** Path and ProxyPath with different values: either can be what the next layer sees as Path. */
  lemma {:induction false} PathsCollide<V(!new)>(x: V, y: V)
    requires x != y
    ensures var options := map["Path" := x, "ProxyPath" := y];
      && IsProxied(options, map["Path" := x])
      && IsProxied(options, map["Path" := y])
  {
    var options := map["Path" := x, "ProxyPath" := y];
    assert Trim("ProxyPath") == "Path" && Trim("Path") == "Path";
    assert Passes(options, "Path", "Path") && Passes(options, "ProxyPath", "Path");
  }

  /** What the next layer sees does not depend on the map order exactly when no two keys collide. */
  lemma {:induction false} OrderMatters<V(!new)>(options: map<string, V>)
    ensures (forall a, b | IsProxied(options, a) && IsProxied(options, b) :: a == b) <==>
      forall t :: !Collide(options, t)
  {
    if forall t :: !Collide(options, t) {
      forall a, b | IsProxied(options, a) && IsProxied(options, b) ensures a == b {
        forall t | t in a ensures t in b && a[t] == b[t] { SameValue(options, a, b, t); }
        forall t | t in b ensures t in a { SameValue(options, b, a, t); }
      }
    }
    forall t | Collide(options, t) ensures exists a, b :: IsProxied(options, a) && IsProxied(options, b) && a != b {
      CollisionIsSeen(options, t);
    }
  }

  /* ---- Layers of proxies ---- */

  // n times Proxy, then Type.
  function LayerKey(n: nat): (k: string)
    ensures |k| == 5 * n + 4
  {
    if n == 0 then TYPE else PROXY + LayerKey(n - 1)
  }

  /** The keys as they are written. */
  lemma {:induction false} LayerKeys()
    ensures LayerKey(0) == "Type" && LayerKey(1) == "ProxyType" && LayerKey(2) == "ProxyProxyType"
  {
    assert LayerKey(1) == "Proxy" + "Type";
    assert LayerKey(2) == "Proxy" + LayerKey(1);
  }

  // What is stored for one layer is what the next sees for the layer before it, whatever the order.
  lemma {:induction false} OneLayer(options: Strings, out: Strings, n: nat)
    requires IsProxied(options, out)
    ensures LayerKey(n) in out <==> LayerKey(n + 1) in options
    ensures LayerKey(n) in out ==> out[LayerKey(n)] == options[LayerKey(n + 1)]
  {
    var t := LayerKey(n);
    PassedOn(t);
    PassesMeaning(options, PROXY + t, t);
    assert n > 0 ==> PROXY <= t;
    if t in out {
      var k :| Passes(options, k, t) && options[k] == out[t];
      PassesMeaning(options, k, t);
    }
  }

  // The options of layer i are those of layer i - 1 as its proxy passes them on.
  ghost predicate Layers(layers: seq<Strings>) {
    layers != [] && forall i | 0 < i < |layers| :: IsProxied(layers[i - 1], layers[i])
  }

  /**
   * After n layers of proxies, Type is there exactly when n times Proxy followed by Type is among
   * the options of the first, and is that option.
   */
  lemma {:induction false} NestedTypes(layers: seq<Strings>, i: nat, n: nat)
    requires Layers(layers) && i < |layers|
    ensures LayerKey(n) in layers[i] <==> LayerKey(n + i) in layers[0]
    ensures LayerKey(n) in layers[i] ==> layers[i][LayerKey(n)] == layers[0][LayerKey(n + i)]
  {
    if i > 0 {
      OneLayer(layers[i - 1], layers[i], n);
      NestedTypes(layers, i - 1, n + 1);
    }
  }

  // Every layer up to n is a proxy.
  ghost predicate Proxies(options: Strings, n: nat) {
    forall i | 1 <= i < n :: LayerKey(i) in options && options[LayerKey(i)] == PROXY_TYPE
  }

  function Repeated(n: nat): string {
    if n == 0 then [] else PROXY + Repeated(n - 1)
  }

  lemma {:induction false} RepeatedMore(n: nat)
    ensures Repeated(n) + PROXY == Repeated(n + 1)
    ensures Repeated(n) + TYPE == LayerKey(n)
  {
    if n > 0 {
      RepeatedMore(n - 1);
      assert Repeated(n) + PROXY == PROXY + (Repeated(n - 1) + PROXY);
      assert Repeated(n) + TYPE == PROXY + (Repeated(n - 1) + TYPE);
    }
  }

  // The options that could be for layer n or a later one.
  function Deeper(options: Strings, n: nat): set<string> {
    set k | k in options && |k| >= 5 * n + 4
  }

  lemma {:induction false} FewerDeeper(options: Strings, n: nat)
    requires LayerKey(n) in options
    ensures |Deeper(options, n + 1)| < |Deeper(options, n)|
  {
    var rest := Deeper(options, n) - {LayerKey(n)};
    assert |rest| == |Deeper(options, n)| - 1;
    Smaller(Deeper(options, n + 1), rest);
  }

  lemma {:induction false} Smaller(a: set<string>, b: set<string>)
    requires a <= b
    ensures |a| <= |b|
  {
    if x :| x in a {
      Smaller(a - {x}, b - {x});
    }
  }

  // The loop of newProxySource. It ends because there are finitely many options.
  method TypeBehindProxies(options: Strings, hasCommand: bool) returns (r: Result<string>, ghost n: nat)
    ensures n >= 1 && forall i | 1 <= i < n :: LayerKey(i) in options && options[LayerKey(i)] == "proxy"
    ensures r == if hasCommand && LayerKey(n) in options then Ok(options[LayerKey(n)]) else Failed
    ensures r.Ok? ==> r.value != "proxy"
  {
    n := 1;
    if !hasCommand {
      return Failed, n;
    }
    var typ := PROXY_TYPE;
    var prefix := PROXY;
    RepeatedMore(0);
    RepeatedMore(1);
    hide LayerKey, Repeated, Deeper;
    while typ == PROXY_TYPE
      invariant n >= 1 && Proxies(options, n)
      invariant typ == PROXY_TYPE ==> prefix == Repeated(n) && prefix + TYPE == LayerKey(n)
      invariant typ != PROXY_TYPE ==> LayerKey(n) in options && options[LayerKey(n)] == typ
      decreases typ == PROXY_TYPE, |Deeper(options, n)|
    {
      if prefix + TYPE !in options {
        return Failed, n;
      }
      typ := options[prefix + TYPE];
      if typ == PROXY_TYPE {
        FewerDeeper(options, n);
        RepeatedMore(n);
        n := n + 1;
        RepeatedMore(n);
      }
      prefix := prefix + PROXY;
    }
    return Ok(typ), n;
  }
}
