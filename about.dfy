/** The settings page: a copy of the configuration with its secrets masked, listed
    as key/value pairs in key order. */
module About {
  import opened Values

  const HIDDEN_SETTINGS: seq<string> := ["SECRET_KEY", "MAIL_PASSWORD"]
  const HIDDEN := "<hidden>"

  /** The configuration as the page shows it: each hidden setting whose value is
      truthy is replaced by `<hidden>`; everything else is as configured. */
  function Redacted(config: Doc): Doc
  {
    map k | k in config :: if k in HIDDEN_SETTINGS && Truthy(config[k]) then Str(HIDDEN) else config[k]
  }

  /** Masking never adds, drops or renames a setting, hides exactly the truthy secrets,
      and leaves falsy secrets and every other setting as configured. */
  lemma RedactedProperties(config: Doc)
    ensures Redacted(config).Keys == config.Keys
    ensures forall k :: k in config && k in HIDDEN_SETTINGS && Truthy(config[k]) ==> Redacted(config)[k] == Str(HIDDEN)
    ensures forall k :: k in config && (k !in HIDDEN_SETTINGS || !Truthy(config[k])) ==> Redacted(config)[k] == config[k]
  {
  }

  /** Masking twice masks no more than masking once. */
  lemma RedactedIdempotent(config: Doc)
    ensures Redacted(Redacted(config)) == Redacted(config)
  {
  }

  /** Python's ordering of strings: by code point, a proper prefix first. */
  predicate StrLess(a: string, b: string)
  {
    if a == [] then b != []
    else if b == [] then false
    else a[0] < b[0] || (a[0] == b[0] && StrLess(a[1..], b[1..]))
  }

  lemma {:induction false} StrLessIrreflexive(a: string)
    ensures !StrLess(a, a)
  {
    if a != [] {
      StrLessIrreflexive(a[1..]);
    }
  }

  lemma {:induction false} StrLessTransitive(a: string, b: string, c: string)
    requires StrLess(a, b) && StrLess(b, c)
    ensures StrLess(a, c)
  {
    if a != [] && a[0] == b[0] && b[0] == c[0] {
      StrLessTransitive(a[1..], b[1..], c[1..]);
    }
  }

  lemma {:induction false} StrLessTotal(a: string, b: string)
    requires a != b
    ensures StrLess(a, b) || StrLess(b, a)
  {
    if a != [] && b != [] && a[0] == b[0] {
      assert a == [a[0]] + a[1..] && b == [b[0]] + b[1..];
      StrLessTotal(a[1..], b[1..]);
    }
  }

  /** The least key of a non-empty set of keys. */
  method LeastKey(keys: set<string>) returns (m: string)
    requires keys != {}
    ensures m in keys && forall k :: k in keys && k != m ==> StrLess(m, k)
  {
    m :| m in keys;
    var seen := {m};
    var rest := keys - {m};
    while rest != {}
      invariant m in seen && seen + rest == keys && seen !! rest
      invariant forall k :: k in seen && k != m ==> StrLess(m, k)
      decreases rest
    {
      var k :| k in rest;
      if k != m {
        StrLessTotal(k, m);
        if StrLess(k, m) {
          forall j | j in seen && j != k ensures StrLess(k, j) {
            if j != m {
              StrLessTransitive(k, m, j);
            }
          }
          m := k;
        }
      }
      seen := seen + {k};
      rest := rest - {k};
    }
  }

  /** The keys the listed pairs name. */
  function KeysOf(items: seq<(string, Value)>): set<string>
  {
    set i | 0 <= i < |items| :: items[i].0
  }

  predicate KeysStrictlySorted(items: seq<(string, Value)>)
  {
    forall i, j :: 0 <= i < j < |items| ==> StrLess(items[i].0, items[j].0)
  }

  /** Strictly sorted pairs name as many distinct keys as there are pairs. */
  lemma SortedItemsCount(items: seq<(string, Value)>)
    requires KeysStrictlySorted(items)
    ensures |KeysOf(items)| == |items|
  {
    var ks := seq(|items|, i requires 0 <= i < |items| => items[i].0);
    forall i, j | 0 <= i < j < |ks| ensures ks[i] != ks[j] {
      StrLessIrreflexive(ks[i]);
    }
    assert Elements(ks) == KeysOf(items) by {
      forall k | k in KeysOf(items) ensures k in Elements(ks) {
        var i :| 0 <= i < |items| && items[i].0 == k;
        assert ks[i] == k;
      }
    }
    DistinctCardinality(ks);
  }

  /** `settings()`: the masked copy of the application's configuration, as
      `sorted(config.items())` lists it: pairs in strictly increasing key order (so
      no key twice), holding every setting once with the value the page shows. The
      masking works on a copy: the method may modify nothing, so the application's
      own configuration object is left as it was. */
  method Settings(app: Dict) returns (items: seq<(string, Value)>)
    ensures KeysStrictlySorted(items)
    ensures forall i :: 0 <= i < |items| ==> items[i].0 in app.entries && items[i].1 == Redacted(app.entries)[items[i].0]
    ensures KeysOf(items) == app.entries.Keys && |items| == |app.entries|
  {
    var config := app.entries;
    var c := config;
    for h := 0 to |HIDDEN_SETTINGS|
      invariant c.Keys == config.Keys
      invariant forall k :: k in c ==> c[k] == (if k in HIDDEN_SETTINGS[..h] && Truthy(config[k]) then Str(HIDDEN) else config[k])
    {
      var key := HIDDEN_SETTINGS[h];
      var v := Get(c, key);
      if v.Some? && Truthy(v.value) {
        c := c[key := Str(HIDDEN)];
      }
      assert HIDDEN_SETTINGS[..h + 1] == HIDDEN_SETTINGS[..h] + [key];
    }
    assert HIDDEN_SETTINGS[..|HIDDEN_SETTINGS|] == HIDDEN_SETTINGS;
    assert c == Redacted(config);
    items := SortedItems(c);
    SortedItemsCount(items);
  }

  /** The items of `c` in increasing key order. */
  method SortedItems(c: Doc) returns (items: seq<(string, Value)>)
    ensures KeysStrictlySorted(items)
    ensures forall i :: 0 <= i < |items| ==> items[i].0 in c && items[i].1 == c[items[i].0]
    ensures KeysOf(items) == c.Keys
  {
    items := [];
    var rest := c.Keys;
    while rest != {}
      invariant rest <= c.Keys
      invariant KeysStrictlySorted(items)
      invariant forall i :: 0 <= i < |items| ==> items[i].0 in c.Keys - rest && items[i].1 == c[items[i].0]
      invariant KeysOf(items) == c.Keys - rest
      invariant forall i, k :: 0 <= i < |items| && k in rest ==> StrLess(items[i].0, k)
      decreases rest
    {
      var m := LeastKey(rest);
      assert KeysOf(items + [(m, c[m])]) == KeysOf(items) + {m} by {
        var next := items + [(m, c[m])];
        assert forall i :: 0 <= i < |items| ==> next[i] == items[i];
        assert next[|items|].0 == m;
      }
      items := items + [(m, c[m])];
      rest := rest - {m};
    }
  }
}
