/**
 * The site's content object (loaded from `data.json`, or the built-in fallback)
 * and `getData`, which reads a dotted path out of it with JavaScript's
 * `obj && obj[key]` step folded over the path's segments.
 */
module SiteData {
  import opened Common
  import opened Text

  /** A JavaScript value as it can appear in the parsed content, plus `undefined`.
      Numbers are integers here. */
  datatype Value =
    | Undefined
    | Null
    | Bool(b: bool)
    | Num(n: int)
    | Str(s: string)
    | Arr(items: seq<Value>)
    | Obj(fields: map<string, Value>)

  /** The values `&&` treats as false. */
  predicate Falsy(v: Value) {
    v.Undefined? || v.Null? || v == Bool(false) || v == Num(0) || v == Str("")
  }

  predicate IsDigit(c: char) {
    '0' <= c <= '9'
  }

  function DigitsValue(s: string): nat
    requires forall i :: 0 <= i < |s| ==> IsDigit(s[i])
    decreases |s|
  {
    if s == [] then 0
    else
      assert IsDigit(s[|s| - 1]);
      DigitsValue(s[..|s| - 1]) * 10 + (s[|s| - 1] as int - '0' as int)
  }

  /** A property key that names an element position: decimal digits, no leading zero. */
  function ArrayIndex(key: string): (r: Option<nat>)
    ensures r.Some? <==>
              |key| > 0 && (forall i :: 0 <= i < |key| ==> IsDigit(key[i])) &&
              (key[0] != '0' || |key| == 1)
    ensures r.Some? ==> r.value == DigitsValue(key)
    ensures r.Some? ==> key[0] != '0' || key == "0"
  {
    if |key| > 0 && (forall i :: 0 <= i < |key| ==> IsDigit(key[i])) && (key[0] != '0' || |key| == 1)
    then Some(DigitsValue(key))
    else None
  }

  /** `v[key]` for a value that is not falsy. Own properties of objects, element
      positions of arrays and character positions of strings are modelled; the
      built-in prototype members (`length`, methods) are not, and read as `undefined`. */
  function Member(v: Value, key: string): Value {
    match v
    case Obj(m) => if key in m then m[key] else Undefined
    case Arr(xs) =>
      (match ArrayIndex(key)
       case Some(i) => if i < |xs| then xs[i] else Undefined
       case None => Undefined)
    case Str(s) =>
      (match ArrayIndex(key)
       case Some(i) => if i < |s| then Str([s[i]]) else Undefined
       case None => Undefined)
    case _ => Undefined
  }

  /** The reducer of `getData`: `obj && obj[key]`. */
  function Step(v: Value, key: string): (r: Value)
    ensures Falsy(v) ==> r == v
    ensures !Falsy(v) && v.Obj? ==> r == (if key in v.fields then v.fields[key] else Undefined)
  {
    if Falsy(v) then v else Member(v, key)
  }

  /** `keys.reduce(step, v)`. */
  function Walk(v: Value, keys: seq<string>): Value
    decreases |keys|
  {
    if keys == [] then v else Walk(Step(v, keys[0]), keys[1..])
  }

  /** `getData(path)` on the content `data`. */
  function GetData(data: Value, path: string): Value {
    Walk(data, Split(path, '.'))
  }

  lemma {:induction false} WalkAppend(v: Value, a: seq<string>, b: seq<string>)
    ensures Walk(v, a + b) == Walk(Walk(v, a), b)
    decreases |a|
  {
    if a == [] {
      assert a + b == b;
    } else {
      assert (a + b)[0] == a[0];
      assert (a + b)[1..] == a[1..] + b;
      WalkAppend(Step(v, a[0]), a[1..], b);
    }
  }

  /** A falsy intermediate result (in particular `undefined`, a missing key) is
      carried unchanged to the end of the walk. */
  lemma {:induction false} FalsyAbsorbs(v: Value, keys: seq<string>)
    requires Falsy(v)
    ensures Walk(v, keys) == v
    decreases |keys|
  {
    if keys != [] {
      FalsyAbsorbs(Step(v, keys[0]), keys[1..]);
    }
  }

  /** Reading "a.b" is reading "b" out of the result of reading "a". */
  lemma GetDataCompose(data: Value, a: string, b: string)
    ensures GetData(data, a + "." + b) == GetData(GetData(data, a), b)
  {
    SplitAtSeparator(a, b, '.');
    WalkAppend(data, Split(a, '.'), Split(b, '.'));
  }

  /** Once a path prefix is missing, every longer path is missing too. */
  lemma MissingStaysMissing(data: Value, a: string, b: string)
    requires GetData(data, a) == Undefined
    ensures GetData(data, a + "." + b) == Undefined
  {
    GetDataCompose(data, a, b);
    FalsyAbsorbs(Undefined, Split(b, '.'));
  }

  lemma {:induction false} SplitWithoutSeparator(s: string, sep: char)
    requires sep !in s
    ensures Split(s, sep) == [s]
    decreases |s|
  {
    if s != [] {
      assert s[0] != sep && sep !in s[1..];
      SplitWithoutSeparator(s[1..], sep);
      assert [s[0]] + s[1..] == s;
    }
  }

  /** A dot-free path is a single property read. */
  lemma GetDataSingleKey(data: Value, key: string)
    requires '.' !in key
    ensures GetData(data, key) == Step(data, key)
  {
    SplitWithoutSeparator(key, '.');
    assert [key][1..] == [];
    assert Walk(data, [key]) == Walk(Step(data, key), []);
  }

  /** The `site` section of the fallback content. */
  const FallbackSite: Value := Obj(map[
    "title" := Str("Skillarenalegends.com \U{2013} Tung TungBall and Labububall"),
    "description" := Str("You must survive in the world of balls. Two friends, Tungball and Labububall, need your help."),
    "keywords" := Str("2 Player, 2 Player Games, 2D, Adventure, Arcade, Ball")
  ])

  /** The `navigation` section of the fallback content. */
  const FallbackNavigation: Value := Obj(map[
    "home" := Str("Home"),
    "news" := Str("News"),
    "contacts" := Str("Contact"),
    "privacy" := Str("Privacy Policy"),
    "cookies" := Str("Cookie Policy"),
    "disclaimer" := Str("Legal Disclaimer")
  ])

  /** The content used when `data.json` cannot be loaded (`getFallbackData`). */
  const FallbackData: Value := Obj(map["site" := FallbackSite, "navigation" := FallbackNavigation])

  lemma FallbackNavigationSection()
    ensures GetData(FallbackData, "navigation") == FallbackNavigation
  {
    GetDataSingleKey(FallbackData, "navigation");
  }

  lemma FallbackNavigationKeysPlain(key: string)
    requires key in FallbackNavigation.fields
    ensures '.' !in key && !Falsy(FallbackNavigation.fields[key])
  {
  }

  /** Reading `section.key` for a dot-free key is one property read on the section. */
  lemma GetDataSectionKey(data: Value, section: string, key: string)
    requires '.' !in key
    ensures GetData(data, section + "." + key) == Step(GetData(data, section), key)
  {
    GetDataCompose(data, section, key);
    GetDataSingleKey(GetData(data, section), key);
  }

  lemma FallbackNavigationStep(key: string)
    requires key in FallbackNavigation.fields
    ensures Step(GetData(FallbackData, "navigation"), key) == FallbackNavigation.fields[key]
  {
    FallbackNavigationSection();
  }

  /** The fallback content carries every navigation label ... */
  lemma FallbackNavigationLabels(key: string)
    requires key in FallbackNavigation.fields
    ensures GetData(FallbackData, "navigation" + "." + key) == FallbackNavigation.fields[key]
    ensures !Falsy(GetData(FallbackData, "navigation" + "." + key))
  {
    FallbackNavigationKeysPlain(key);
    GetDataSectionKey(FallbackData, "navigation", key);
    FallbackNavigationStep(key);
  }

  /** ... but no `contact` section, so the texts the contact form reports with are
      missing from it (the form handler reads them by direct property access). */
  lemma FallbackHasNoContactTexts(rest: string)
    ensures GetData(FallbackData, "contact") == Undefined
    ensures GetData(FallbackData, "contact" + "." + rest) == Undefined
  {
    GetDataSingleKey(FallbackData, "contact");
    MissingStaysMissing(FallbackData, "contact", rest);
  }

  // ---------------------------------------------------------------------------
  // Plain property access
  // ---------------------------------------------------------------------------

  /** The two values whose properties cannot be read. */
  predicate Nullish(v: Value) {
    v.Undefined? || v.Null?
  }

  /** The property access `v.key` written directly in code, without the `&&` guard:
      it throws a TypeError (None) on `undefined` and `null`. */
  function Access(v: Value, key: string): (r: Option<Value>)
    ensures r.None? <==> Nullish(v)
    ensures !Falsy(v) ==> r == Some(Step(v, key))
  {
    if Nullish(v) then None else Some(Member(v, key))
  }

  /** A chain `v.k1.k2…kn` of direct property accesses: None when it throws. */
  function AccessPath(v: Value, keys: seq<string>): Option<Value>
    decreases |keys|
  {
    if keys == [] then Some(v)
    else match Access(v, keys[0])
      case None => None
      case Some(w) => AccessPath(w, keys[1..])
  }

  /** Where `getData` gives `undefined` for a path, the direct chain through that
      path throws as soon as it reads one more property. */
  lemma {:induction false} AccessAfterMissing(v: Value, a: seq<string>, b: seq<string>)
    requires Walk(v, a) == Undefined
    requires b != []
    ensures AccessPath(v, a + b).None?
    decreases |a|
  {
    if a == [] {
      assert a + b == b;
    } else if Falsy(v) {
      FalsyAbsorbs(v, a);
      assert v == Undefined;
    } else {
      assert (a + b)[0] == a[0];
      assert (a + b)[1..] == a[1..] + b;
      AccessAfterMissing(Step(v, a[0]), a[1..], b);
    }
  }

  /** Along a path whose every intermediate value is truthy, the direct chain and
      the guarded `getData` walk read the same value. */
  lemma {:induction false} AccessAgreesWhenTruthy(v: Value, keys: seq<string>)
    requires forall k :: 0 <= k < |keys| ==> !Falsy(Walk(v, keys[..k]))
    ensures AccessPath(v, keys) == Some(Walk(v, keys))
    decreases |keys|
  {
    if keys != [] {
      assert keys[..0] == [];
      var w := Step(v, keys[0]);
      forall k | 0 <= k < |keys| - 1
        ensures !Falsy(Walk(w, keys[1..][..k]))
      {
        assert keys[..k + 1][0] == keys[0];
        assert keys[..k + 1][1..] == keys[1..][..k];
        assert !Falsy(Walk(v, keys[..k + 1]));
      }
      AccessAgreesWhenTruthy(w, keys[1..]);
    }
  }

  /** A direct chain through a section an object lacks throws on the next read. */
  lemma ChainThroughMissingSection(v: Value, keys: seq<string>)
    requires v.Obj? && |keys| >= 2 && keys[0] !in v.fields
    ensures AccessPath(v, keys).None?
  {
    var a := keys[..1];
    assert a + keys[1..] == keys;
    assert Walk(v, a) == Walk(Step(v, keys[0]), []);
    AccessAfterMissing(v, a, keys[1..]);
  }

  /** Any direct chain `data.contact.x…` on the fallback content throws. */
  lemma FallbackContactChainThrows(keys: seq<string>)
    requires |keys| >= 2 && keys[0] == "contact"
    ensures AccessPath(FallbackData, keys).None?
  {
    assert "contact" !in FallbackData.fields;
    ChainThroughMissingSection(FallbackData, keys);
  }
}
