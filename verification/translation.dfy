/**
 * The lookup logic of the translation manager, over language dictionaries
 * that are already loaded: the deep merge of language files, the dotted-path
 * lookup, the random choice among numbered variants, and `translate` /
 * `translate_random` with their fallback to the default language.
 *
 * `str.format`, `str()` of a non-string value and `random.choice` are
 * parameters: a `Formatter`, a `Show` function and a `pick` number.
 */
module Translation {
  import opened Common
  import Strings

  /** A JSON value of a language file. Null is both JSON null and Python's None. */
  datatype Value =
    | Null
    | Text(s: string)
    | Number(n: int)
    | Flag(b: bool)
    | List(items: seq<Value>)
    | Dict(entries: map<string, Value>)

  /** Keyword arguments of a translation call. */
  type Args = map<string, Value>

  /** `template.format(**kwargs)`. */
  type Formatter = (string, Args) -> string

  /** `str(value)`. */
  type Show = Value -> string

  /** `f"[{key}]"`: what a lookup that finds nothing returns. */
  function Missing(key: string): string
  {
    "[" + key + "]"
  }

  /** `d.get(k)`. */
  function Get(m: map<string, Value>, k: string): Value
  {
    if k in m then m[k] else Null
  }

  // ---------------------------------------------------------------------
  // __merge_dicts
  // ---------------------------------------------------------------------

  /** Whether `__merge_dicts` recurses into key `k`: both sides hold a dict there. */
  predicate MergesInto(a: map<string, Value>, k: string, v: Value)
  {
    k in a && a[k].Dict? && v.Dict?
  }

  /**
   * What `a` holds after `__merge_dicts(a, b)`: every key of `b` takes `b`'s
   * value, except where both sides hold a dict, which are merged the same way;
   * keys only in `a` keep their value.
   */
  function Merged(a: map<string, Value>, b: map<string, Value>): map<string, Value>
    decreases Dict(b)
  {
    map k | k in a.Keys + b.Keys ::
      if k !in b then a[k]
      else if MergesInto(a, k, b[k]) then
        assert b[k] == Dict(b[k].entries);
        Dict(Merged(a[k].entries, b[k].entries))
      else b[k]
  }

  /** `__merge_dicts(a, b)`: the loop over `b`'s items, recursing into nested dicts. */
  method MergeDicts(a: map<string, Value>, b: map<string, Value>) returns (r: map<string, Value>)
    ensures r == Merged(a, b)
    decreases Dict(b)
  {
    r := a;
    var pending := b.Keys;
    while pending != {}
      invariant pending <= b.Keys
      invariant r.Keys == a.Keys + (b.Keys - pending)
      invariant forall k :: k in r ==> r[k] == if k in b && k !in pending then Merged(a, b)[k] else a[k]
      decreases pending
    {
      var key :| key in pending;
      var value := b[key];
      if key in r && r[key].Dict? && value.Dict? {
        assert value == Dict(value.entries);
        var inner := MergeDicts(r[key].entries, value.entries);
        r := r[key := Dict(inner)];
      } else {
        r := r[key := value];
      }
      pending := pending - {key};
    }
  }

  /** Merging an empty dict changes nothing, and merging into an empty dict copies. */
  lemma MergedWithEmpty(a: map<string, Value>)
    ensures Merged(a, map[]) == a
    ensures Merged(map[], a) == a
  {
  }

  /** Merging a dict into itself changes nothing. */
  lemma {:induction false} MergedIdempotent(a: map<string, Value>)
    ensures Merged(a, a) == a
    decreases Dict(a)
  {
    forall k | k in a && a[k].Dict?
      ensures Merged(a, a)[k] == a[k]
    {
      assert a[k] == Dict(a[k].entries);
      MergedIdempotent(a[k].entries);
    }
  }

  // ---------------------------------------------------------------------
  // __get_nested
  // ---------------------------------------------------------------------

  /** The value reached by following `keys` from `v`; None once a step is not a dict. */
  function Nested(v: Value, keys: seq<string>): Value
    decreases |keys|
  {
    if keys == [] then v
    else if v.Dict? then Nested(Get(v.entries, keys[0]), keys[1..])
    else Null
  }

  /** `__get_nested(dictionary, key_path)` as the lookups use it. */
  function Lookup(v: Value, path: string): Value
  {
    Nested(v, Strings.Split(path, '.'))
  }

  /** `__get_nested`: split the path on dots and walk one segment at a time. */
  method GetNested(dictionary: Value, keyPath: string) returns (r: Value)
    ensures r == Lookup(dictionary, keyPath)
  {
    var keys := Strings.Split(keyPath, '.');
    r := dictionary;
    var i := 0;
    while i < |keys|
      invariant 0 <= i <= |keys|
      invariant Nested(r, keys[i..]) == Nested(dictionary, keys)
    {
      if r.Dict? {
        assert keys[i..][1..] == keys[i + 1..];
        r := Get(r.entries, keys[i]);
      } else {
        return Null;
      }
      i := i + 1;
    }
  }

  /** Following `p` and then `q` is following `p + q`. */
  lemma {:induction false} NestedAppend(v: Value, p: seq<string>, q: seq<string>)
    ensures Nested(v, p + q) == Nested(Nested(v, p), q)
    decreases |p|
  {
    if p == [] {
      assert p + q == q;
    } else if v.Dict? {
      assert (p + q)[1..] == p[1..] + q;
      NestedAppend(Get(v.entries, p[0]), p[1..], q);
    } else {
      NullHasNothing(q);
    }
  }

  /** Nothing can be found below a value that is not a dict, except by the empty path. */
  lemma NullHasNothing(q: seq<string>)
    ensures Nested(Null, q) == Null
  {
  }

  /** Looking up `"p.q"` is looking up `q` in what `p` finds. */
  lemma LookupDotted(v: Value, p: string, q: string)
    ensures Lookup(v, p + "." + q) == Lookup(Lookup(v, p), q)
  {
    Strings.SplitAppend(p, '.', q);
    NestedAppend(v, Strings.Split(p, '.'), Strings.Split(q, '.'));
  }

  /** A key without dots is one `get` on a dict. */
  lemma LookupPlainKey(m: map<string, Value>, k: string)
    requires '.' !in k
    ensures Lookup(Dict(m), k) == Get(m, k)
  {
    Strings.SplitWithout(k, '.');
    assert Nested(Dict(m), [k]) == Nested(Get(m, k), [k][1..]);
    assert [k][1..] == [];
  }

  // ---------------------------------------------------------------------
  // Merge and lookup together
  // ---------------------------------------------------------------------

  /** What the merged dict finds along a path that ends on a non-dict value of `b` is `b`'s value. */
  lemma {:induction false} MergedFindsLater(a: map<string, Value>, b: map<string, Value>, keys: seq<string>)
    requires Nested(Dict(b), keys) != Null && !Nested(Dict(b), keys).Dict?
    ensures Nested(Dict(Merged(a, b)), keys) == Nested(Dict(b), keys)
    decreases |keys|
  {
    var k := keys[0];
    if k !in b {
      NullHasNothing(keys[1..]);
    } else if MergesInto(a, k, b[k]) {
      assert b[k] == Dict(b[k].entries);
      MergedFindsLater(a[k].entries, b[k].entries, keys[1..]);
    }
  }

  /** A path that leaves `b` before reaching a value: at some level the key is not in `b`. */
  predicate Untouched(b: map<string, Value>, keys: seq<string>)
    decreases |keys|
  {
    keys != [] &&
    (keys[0] !in b || (b[keys[0]].Dict? && Untouched(b[keys[0]].entries, keys[1..])))
  }

  /** `b` finds nothing along a path it does not touch. */
  lemma {:induction false} UntouchedMisses(b: map<string, Value>, keys: seq<string>)
    requires Untouched(b, keys)
    ensures Nested(Dict(b), keys) == Null
    decreases |keys|
  {
    if keys[0] !in b {
      NullHasNothing(keys[1..]);
    } else {
      assert b[keys[0]] == Dict(b[keys[0]].entries);
      UntouchedMisses(b[keys[0]].entries, keys[1..]);
    }
  }

  /** Along a path `b` does not touch, the merged dict finds what `a` finds. */
  lemma {:induction false} MergedKeepsEarlier(a: map<string, Value>, b: map<string, Value>, keys: seq<string>)
    requires Untouched(b, keys)
    ensures Nested(Dict(Merged(a, b)), keys) == Nested(Dict(a), keys)
    decreases |keys|
  {
    var k, rest := keys[0], keys[1..];
    if k in b {
      assert b[k] == Dict(b[k].entries);
      if MergesInto(a, k, b[k]) {
        MergedKeepsEarlier(a[k].entries, b[k].entries, rest);
      } else {
        UntouchedMisses(b[k].entries, rest);
        if k in a {
          NullHasNothing(rest);
        }
      }
    }
  }

  // ---------------------------------------------------------------------
  // __get_random
  // ---------------------------------------------------------------------

  /** `[k for k in value.keys() if k.isdigit()]`. */
  function NumberedKeys(m: map<string, Value>): (r: set<string>)
    ensures forall k :: k in r <==> k in m && Strings.IsDigits(k)
  {
    set k | k in m && Strings.IsDigits(k)
  }

  /** `int(k)` for a digit key. */
  function Index(k: string): nat
    requires Strings.IsDigits(k)
  {
    Strings.DecimalValue(k)
  }

  /**
   * The check the code makes: there are digit keys, and sorted as numbers
   * they are 1, 2, ..., n, that is, n distinct numbers between 1 and n.
   */
  predicate SequentialAsWritten(m: map<string, Value>)
  {
    var ks := NumberedKeys(m);
    ks != {} &&
    (forall k :: k in ks ==> 1 <= Index(k) <= |ks|) &&
    (forall k, k' :: k in ks && k' in ks && Index(k) == Index(k') ==> k == k')
  }

  /** The check the documentation describes: the digit keys are exactly "1", "2", ..., "n". */
  predicate Sequential(m: map<string, Value>)
  {
    var n := |NumberedKeys(m)|;
    n > 0 && forall i :: 1 <= i <= n ==> Strings.ShowNat(i) in m
  }

  /** A chosen variant: a string is formatted, anything else is returned as it is. */
  function Formatted(v: Value, args: Args, format: Formatter): Value
  {
    if v.Text? then Text(format(v.s, args)) else v
  }

  /**
   * `__get_random` as written: after the check, the chosen number is turned
   * back into a key with `str`, which misses a key written with leading zeros.
   * `pick` stands for `random.choice`: it chooses the number `pick % n + 1`.
   */
  function VariantAsWritten(m: map<string, Value>, pick: nat, args: Args, format: Formatter): (r: Result<Value>)
    ensures r.Err? ==> r.error == KeyError && SequentialAsWritten(m) && !Sequential(m)
    ensures !SequentialAsWritten(m) ==> r == Ok(Null)
  {
    var n := |NumberedKeys(m)|;
    if !SequentialAsWritten(m) then Ok(Null)
    else
      var key := Strings.ShowNat(pick % n + 1);
      if key !in m then Err(KeyError) else Ok(Formatted(m[key], args, format))
  }

  /** `__get_random` with the check its documentation describes; the choice is always present. */
  function Variant(m: map<string, Value>, pick: nat, args: Args, format: Formatter): (r: Value)
    ensures !Sequential(m) ==> r == Null
    ensures Sequential(m) ==>
      exists i :: 1 <= i <= |NumberedKeys(m)| && Strings.ShowNat(i) in m && r == Formatted(m[Strings.ShowNat(i)], args, format)
  {
    if !Sequential(m) then Null
    else
      var i := pick % |NumberedKeys(m)| + 1;
      Formatted(m[Strings.ShowNat(i)], args, format)
  }

  /** Every numbered variant is chosen by some `pick`. */
  lemma VariantCoversAll(m: map<string, Value>, i: nat, args: Args, format: Formatter)
    requires Sequential(m) && 1 <= i <= |NumberedKeys(m)|
    ensures Variant(m, i - 1, args, format) == Formatted(m[Strings.ShowNat(i)], args, format)
  {
    var n := |NumberedKeys(m)|;
    assert (i - 1) % n == i - 1;
  }

  /** The keys "1", ..., "n". */
  function Labels(n: nat): (r: set<string>)
    ensures |r| == n
    ensures forall i :: 1 <= i <= n ==> Strings.ShowNat(i) in r
    ensures forall k :: k in r ==> Strings.IsDigits(k) && 1 <= Index(k) <= n && k == Strings.ShowNat(Index(k))
  {
    if n == 0 then {}
    else
      Strings.DecimalValueOfShowNat(n);
      Labels(n - 1) + {Strings.ShowNat(n)}
  }

  /** The documented check is stricter than the one written: it accepts only dicts the code accepts. */
  lemma SequentialIsAccepted(m: map<string, Value>)
    requires Sequential(m)
    ensures SequentialAsWritten(m)
    ensures NumberedKeys(m) == Labels(|NumberedKeys(m)|)
  {
    var ks := NumberedKeys(m);
    var n := |ks|;
    Subset(Labels(n), ks);
  }

  /** A subset as large as its superset is the whole superset. */
  lemma Subset<T>(a: set<T>, b: set<T>)
    requires a <= b && |a| == |b|
    ensures a == b
  {
    if a != b {
      var x :| x in b && x !in a;
      SubsetSize(a, b - {x});
    }
  }

  /** A subset is no larger than its superset. */
  lemma {:induction false} SubsetSize<T>(a: set<T>, b: set<T>)
    requires a <= b
    ensures |a| <= |b|
    decreases |a|
  {
    if a != {} {
      var y :| y in a;
      SubsetSize(a - {y}, b - {y});
    }
  }

  /** Where the documented check holds, the code returns the same variant and raises nothing. */
  lemma VariantAgrees(m: map<string, Value>, pick: nat, args: Args, format: Formatter)
    requires Sequential(m)
    ensures VariantAsWritten(m, pick, args, format) == Ok(Variant(m, pick, args, format))
  {
    SequentialIsAccepted(m);
  }

  /** A dict whose only numbered key is "01" passes the written check and then raises KeyError. */
  lemma LeadingZeroRaises(args: Args, format: Formatter)
    ensures VariantAsWritten(map["01" := Text("hi")], 0, args, format) == Err(KeyError)
    ensures Variant(map["01" := Text("hi")], 0, args, format) == Null
  {
    var m := map["01" := Text("hi")];
    assert Strings.IsDigits("01");
    assert NumberedKeys(m) == {"01"};
    assert "01"[..1] == "0" && "0"[..0] == "";
    assert Index("01") == 1;
    assert Strings.ShowNat(1) == "1";
  }

  // ---------------------------------------------------------------------
  // translate and translate_random
  // ---------------------------------------------------------------------

  /** The value a key finds: in the chosen language, else in the default language. */
  function Resolved(lang: map<string, Value>, fallback: map<string, Value>, key: string): (r: Value)
    ensures Lookup(Dict(lang), key) != Null ==> r == Lookup(Dict(lang), key)
    ensures Lookup(Dict(lang), key) == Null ==> r == Lookup(Dict(fallback), key)
  {
    var found := Lookup(Dict(lang), key);
    if found == Null then Lookup(Dict(fallback), key) else found
  }

  /** `abs(count) != 1` picks the plural form. */
  predicate Plural(count: Option<int>)
  {
    count.Some? && count.value != 1 && count.value != -1
  }

  /** The key `translate` looks up. */
  function PluralKey(key: string, count: Option<int>): (r: string)
    ensures r != key <==> Plural(count)
    ensures Plural(count) ==> r == key + "|plural"
  {
    if Plural(count) then key + "|plural" else key
  }

  /** The formatting arguments, with `count` added when it is given. */
  function WithCount(args: Args, count: Option<int>): (r: Args)
    ensures count.None? ==> r == args
    ensures count.Some? ==> r.Keys == args.Keys + {"count"} && r["count"] == Number(count.value)
    ensures forall k :: k in args && k != "count" ==> k in r && r[k] == args[k]
  {
    if count.Some? then args["count" := Number(count.value)] else args
  }

  /**
   * `translate`: look the (plural) key up in the language and then in the
   * default language, return "[key]" when both miss, else format the string
   * found; a value that is not a string has no `format` (AttributeError).
   */
  function Translate(lang: map<string, Value>, fallback: map<string, Value>, key: string, count: Option<int>, args: Args, format: Formatter): (r: Result<string>)
    ensures Resolved(lang, fallback, PluralKey(key, count)) == Null ==> r == Ok(Missing(key))
    ensures r.Err? <==> Resolved(lang, fallback, PluralKey(key, count)) != Null && !Resolved(lang, fallback, PluralKey(key, count)).Text?
    ensures r.Err? ==> r.error == AttributeError
    ensures Resolved(lang, fallback, PluralKey(key, count)).Text? ==>
      r == Ok(format(Resolved(lang, fallback, PluralKey(key, count)).s, WithCount(args, count)))
  {
    var result := Resolved(lang, fallback, PluralKey(key, count));
    if result == Null then Ok(Missing(key))
    else if result.Text? then Ok(format(result.s, WithCount(args, count)))
    else Err(AttributeError)
  }

  /** Where the language has the key, the default language does not matter. */
  lemma TranslatePrefersLanguage(lang: map<string, Value>, fallback: map<string, Value>, other: map<string, Value>, key: string, count: Option<int>, args: Args, format: Formatter)
    requires Lookup(Dict(lang), PluralKey(key, count)) != Null
    ensures Translate(lang, fallback, key, count, args, format) == Translate(lang, other, key, count, args, format)
  {
  }

  /** Where the language lacks the key, the result is the default language's. */
  lemma TranslateFallsBack(lang: map<string, Value>, fallback: map<string, Value>, key: string, count: Option<int>, args: Args, format: Formatter)
    requires Lookup(Dict(lang), PluralKey(key, count)) == Null
    ensures Translate(lang, fallback, key, count, args, format) == Translate(fallback, fallback, key, count, args, format)
  {
  }

  /**
   * `translate_random`: resolve the key as `translate` does (without plural),
   * pick a numbered variant of the dict found and format it; "[key]" when
   * nothing is found, the value is not a dict, or it has no numbered variants.
   * A chosen string is formatted twice: once when chosen and once when returned.
   */
  function TranslateRandom(lang: map<string, Value>, fallback: map<string, Value>, key: string, pick: nat, args: Args, format: Formatter, show: Show): (r: string)
    ensures !Resolved(lang, fallback, key).Dict? ==> r == Missing(key)
    ensures Resolved(lang, fallback, key).Dict? && !Sequential(Resolved(lang, fallback, key).entries) ==> r == Missing(key)
    ensures Resolved(lang, fallback, key).Dict? && Sequential(Resolved(lang, fallback, key).entries) ==>
      var m := Resolved(lang, fallback, key).entries;
      exists i :: 1 <= i <= |NumberedKeys(m)| && Strings.ShowNat(i) in m && r == Rendered(m[Strings.ShowNat(i)], key, args, format, show)
  {
    var result := Resolved(lang, fallback, key);
    if !result.Dict? then Missing(key)
    else
      var chosen := Variant(result.entries, pick, args, format);
      if chosen == Null then Missing(key)
      else if chosen.Text? then format(chosen.s, args)
      else show(chosen)
  }

  /** How `translate_random` renders the variant `v` it chose. */
  function Rendered(v: Value, key: string, args: Args, format: Formatter, show: Show): string
  {
    if v == Null then Missing(key)
    else if v.Text? then format(format(v.s, args), args)
    else show(v)
  }

  /** Where the language has the key, the default language does not matter to `translate_random`. */
  lemma TranslateRandomPrefersLanguage(lang: map<string, Value>, fallback: map<string, Value>, other: map<string, Value>, key: string, pick: nat, args: Args, format: Formatter, show: Show)
    requires Lookup(Dict(lang), key) != Null
    ensures TranslateRandom(lang, fallback, key, pick, args, format, show) == TranslateRandom(lang, other, key, pick, args, format, show)
  {
  }
}
