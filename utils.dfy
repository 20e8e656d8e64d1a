// Helpers of src/helpers/utils.js: structural equality of values, the
// template test and the two Turkish-aware regular-expression builders.
module Utils {
  import opened Wrappers
  import opened Json

  // ---------------------------------------------------------------------------
  // objectEquals / arrayEquals
  // ---------------------------------------------------------------------------

  /** Same JavaScript constructor (Boolean, Number, String, Array, Object). */
  predicate SameConstructor(x: Value, y: Value)
  {
    (x.Bool? && y.Bool?) || (x.Num? && y.Num?) || (x.Str? && y.Str?) ||
    (x.Arr? && y.Arr?) || (x.Obj? && y.Obj?)
  }

  /** `Utils.objectEquals`: primitives compare by value; arrays position by
      position; objects need the keys of `y` to be keys of `x` and every member
      of `x` equal to the one of `y` under the same key, where two array members
      may also be equal in the sense of `ArrayMatch`. */
  function ObjectEquals(x: Value, y: Value): bool
    decreases x, 1
  {
    if IsNil(x) || IsNil(y) then x == y
    else if !SameConstructor(x, y) then false
    else match x
      case Bool(_) => x == y
      case Num(_) => x == y
      case Str(_) => x == y
      case Arr(xs) =>
        |xs| == |y.items| &&
        forall i | 0 <= i < |xs| :: MemberEquals(xs[i], y.items[i])
      case Obj(fs) =>
        (forall j | 0 <= j < |y.fields| :: y.fields[j].key in Keys(fs)) &&
        forall i | 0 <= i < |fs| :: MemberEquals(fs[i].val, Get(y.fields, fs[i].key))
  }

  /** The test applied to each member: `objectEquals(x[i], y[i])`, or both are
      arrays and `arrayEquals(x[i], y[i])`. */
  predicate MemberEquals(a: Value, b: Value)
    decreases a, 2
  {
    ObjectEquals(a, b) || (a.Arr? && b.Arr? && ArrayMatch(a, b))
  }

  /** The meaning of `Utils.arrayEquals` on two arrays: equal lengths, and every
      item of `x` is `ObjectEquals` to SOME item of `y` (multiplicity is not
      compared). */
  predicate ArrayMatch(x: Value, y: Value)
    requires x.Arr? && y.Arr?
    decreases x, 0
  {
    |x.items| == |y.items| &&
    forall i | 0 <= i < |x.items| :: OccursIn(x.items[i], y.items)
  }

  /** Some item of `ys` is `ObjectEquals` to `a`. */
  predicate OccursIn(a: Value, ys: seq<Value>)
    decreases a, 3
  {
    exists j | 0 <= j < |ys| :: ObjectEquals(a, ys[j])
  }

  /** `Utils.arrayEquals(x, y)` on two arrays, with its loop over `y` for each
      index of `x` and the early exit of `every`. */
  method ArrayEquals(xs: seq<Value>, ys: seq<Value>) returns (r: bool)
    ensures r == ArrayMatch(Arr(xs), Arr(ys))
    ensures r ==> |xs| == |ys|
  {
    if |xs| != |ys| {
      return false;
    }
    var i := 0;
    while i < |xs|
      invariant 0 <= i <= |xs|
      invariant forall k | 0 <= k < i :: OccursIn(xs[k], ys)
    {
      var result := false;
      var j := 0;
      while j < |ys|
        invariant 0 <= j <= |ys|
        invariant result <==> exists m | 0 <= m < j :: ObjectEquals(xs[i], ys[m])
      {
        if ObjectEquals(xs[i], ys[j]) {
          result := true;
        }
        j := j + 1;
      }
      if !result {
        assert !OccursIn(Arr(xs).items[i], ys);
        return false;
      }
      i := i + 1;
    }
    return true;
  }

  /** Values as JavaScript objects have them: distinct keys at every level. */
  predicate WellFormed(v: Value)
  {
    match v
    case Arr(xs) => forall i | 0 <= i < |xs| :: WellFormed(xs[i])
    case Obj(fs) => DistinctKeys(fs) && forall i | 0 <= i < |fs| :: WellFormed(fs[i].val)
    case _ => true
  }

  lemma {:induction false} GetOfDistinct(fs: seq<Entry<Value>>, i: nat)
    requires DistinctKeys(fs) && i < |fs|
    ensures Get(fs, fs[i].key) == fs[i].val
  {
    if i > 0 {
      assert fs[0].key != fs[i].key;
      assert DistinctKeys(fs[1..]) by {
        forall a, b | 0 <= a < b < |fs[1..]| ensures fs[1..][a].key != fs[1..][b].key {
          assert fs[a + 1].key != fs[b + 1].key;
        }
      }
      GetOfDistinct(fs[1..], i - 1);
    }
  }

  /** objectEquals is reflexive on well-formed values. */
  lemma {:induction false} ObjectEqualsReflexive(v: Value)
    requires WellFormed(v)
    ensures ObjectEquals(v, v)
  {
    match v
    case Arr(xs) =>
      forall i | 0 <= i < |xs| ensures MemberEquals(xs[i], xs[i]) {
        ObjectEqualsReflexive(xs[i]);
      }
    case Obj(fs) =>
      forall i | 0 <= i < |fs| ensures MemberEquals(fs[i].val, Get(fs, fs[i].key)) {
        GetOfDistinct(fs, i);
        ObjectEqualsReflexive(fs[i].val);
      }
    case _ =>
  }

  /** Two objects with the one key `k` are objectEquals exactly when their
      members are. */
  lemma OneKeyObjects(k: string, u: Value, v: Value)
    ensures ObjectEquals(Obj([Entry(k, u)]), Obj([Entry(k, v)])) <==> MemberEquals(u, v)
  {
    var x := [Entry(k, u)];
    var y := [Entry(k, v)];
    assert Keys(x) == [k];
    assert Get(y, k) == v;
  }

  /** `{arr: [0, 0]}` equals `{arr: [0, 1]}`: each 0 occurs in `[0, 1]`. */
  lemma ObjectEqualsOneWay()
    ensures ObjectEquals(Obj([Entry("arr", Arr([Num(0), Num(0)]))]), Obj([Entry("arr", Arr([Num(0), Num(1)]))]))
  {
    var a := Arr([Num(0), Num(0)]);
    var b := Arr([Num(0), Num(1)]);
    assert MemberEquals(a, b) by {
      assert ObjectEquals(Num(0), b.items[0]);
      assert OccursIn(a.items[0], b.items) && OccursIn(a.items[1], b.items);
    }
    OneKeyObjects("arr", a, b);
  }

  /** `{arr: [0, 1]}` does not equal `{arr: [0, 0]}`: the 1 occurs nowhere. */
  lemma ObjectEqualsOtherWay()
    ensures !ObjectEquals(Obj([Entry("arr", Arr([Num(0), Num(1)]))]), Obj([Entry("arr", Arr([Num(0), Num(0)]))]))
  {
    var a := Arr([Num(0), Num(0)]);
    var b := Arr([Num(0), Num(1)]);
    assert !MemberEquals(b, a) by {
      assert !ObjectEquals(b.items[1], a.items[0]) && !ObjectEquals(b.items[1], a.items[1]);
      assert !OccursIn(b.items[1], a.items);
      assert !MemberEquals(b.items[1], a.items[1]);
    }
    OneKeyObjects("arr", b, a);
  }

  /** Arrays nested in objects compare as "every item occurs in the other
      array": `{arr: [0, 0]}` equals `{arr: [0, 1]}` but not the other way
      round, so objectEquals is not symmetric. */
  lemma ObjectEqualsNotSymmetric()
    ensures exists x, y :: ObjectEquals(x, y) && !ObjectEquals(y, x)
  {
    ObjectEqualsOneWay();
    ObjectEqualsOtherWay();
    var x := Obj([Entry("arr", Arr([Num(0), Num(0)]))]);
    var y := Obj([Entry("arr", Arr([Num(0), Num(1)]))]);
    assert ObjectEquals(x, y) && !ObjectEquals(y, x);
  }

  /** arrayEquals accepts any reordering of the same well-formed items. */
  lemma ArrayMatchPermutation(xs: seq<Value>, ys: seq<Value>)
    requires multiset(xs) == multiset(ys)
    requires forall i | 0 <= i < |xs| :: WellFormed(xs[i])
    ensures ArrayMatch(Arr(xs), Arr(ys))
  {
    assert |xs| == |multiset(xs)| == |ys|;
    forall i | 0 <= i < |xs| ensures OccursIn(xs[i], ys) {
      assert xs[i] in multiset(ys);
      var j :| 0 <= j < |ys| && ys[j] == xs[i];
      ObjectEqualsReflexive(xs[i]);
    }
  }

  /** The array test of the repository's test suite: the same items in
      reverse order match. */
  lemma ArrayEqualsTestCase()
    ensures ArrayMatch(Arr([Num(0), Num(1), Num(2), Num(3)]), Arr([Num(3), Num(2), Num(1), Num(0)]))
  {
    var xs := [Num(0), Num(1), Num(2), Num(3)];
    var ys := [Num(3), Num(2), Num(1), Num(0)];
    assert multiset(xs) == multiset(ys);
    ArrayMatchPermutation(xs, ys);
  }

  /** The array test of the repository's test suite: arrays of different
      lengths never match. */
  lemma ArrayEqualsLengthTestCase()
    ensures !ArrayMatch(Arr([Num(0), Num(1), Num(2), Num(3)]), Arr([Num(4), Num(3), Num(2), Num(1), Num(0)]))
  {
  }

  /** The object test of the repository's test suite: the arrays under `arr`
      are compared with arrayEquals, so their order does not matter. */
  lemma ObjectEqualsTestCase()
    ensures ObjectEquals(
      Obj([Entry("name", Str("test")), Entry("arr", Arr([Num(0), Num(1), Num(2), Num(3)]))]),
      Obj([Entry("name", Str("test")), Entry("arr", Arr([Num(3), Num(2), Num(1), Num(0)]))]))
  {
    var a := Arr([Num(0), Num(1), Num(2), Num(3)]);
    var b := Arr([Num(3), Num(2), Num(1), Num(0)]);
    ArrayEqualsTestCase();
    assert MemberEquals(Str("test"), Str("test"));
    TwoKeyObjects("name", "arr", Str("test"), a, Str("test"), b);
  }

  /** Two objects with the same two keys in the same order are objectEquals
      when their members under each key are. */
  lemma TwoKeyObjects(k1: string, k2: string, u1: Value, u2: Value, v1: Value, v2: Value)
    requires k1 != k2
    requires MemberEquals(u1, v1) && MemberEquals(u2, v2)
    ensures ObjectEquals(Obj([Entry(k1, u1), Entry(k2, u2)]), Obj([Entry(k1, v1), Entry(k2, v2)]))
  {
    var x := [Entry(k1, u1), Entry(k2, u2)];
    var y := [Entry(k1, v1), Entry(k2, v2)];
    assert Keys(x) == [k1, k2];
    assert y[1..] == [Entry(k2, v2)];
    assert Find(y, k2) == Find([Entry(k2, v2)], k2) == Some(v2);
  }

  /** The second half of that test: an object with a key the other lacks is
      not equal to it. */
  lemma ObjectEqualsExtraKeyTestCase()
    ensures !ObjectEquals(
      Obj([Entry("name", Str("test")), Entry("arr", Arr([Num(0), Num(1), Num(2), Num(3)]))]),
      Obj([Entry("name", Str("test")), Entry("title", Str("Test")), Entry("arr", Arr([Num(3), Num(2), Num(1), Num(0)]))]))
  {
    var f1 := [Entry("name", Str("test")), Entry("arr", Arr([Num(0), Num(1), Num(2), Num(3)]))];
    var f3 := [Entry("name", Str("test")), Entry("title", Str("Test")), Entry("arr", Arr([Num(3), Num(2), Num(1), Num(0)]))];
    assert Keys(f1) == ["name", "arr"];
    assert f3[1].key !in Keys(f1);
  }

  // ---------------------------------------------------------------------------
  // isTemplate
  // ---------------------------------------------------------------------------

  predicate IsIdentChar(c: char)
  {
    ('A' <= c <= 'Z') || ('a' <= c <= 'z') || ('0' <= c <= '9') || c == '_'
  }

  /** The regular expression `\$[A-Za-z0-9_]+` finds a match in `s`. */
  function HasPlaceholder(s: string): (r: bool)
    ensures r <==> exists i | 0 <= i < |s| - 1 :: s[i] == '$' && IsIdentChar(s[i + 1])
  {
    if |s| < 2 then false
    else if s[0] == '$' && IsIdentChar(s[1]) then true
    else
      var rest := HasPlaceholder(s[1..]);
      assert forall i | 1 <= i < |s| - 1 :: s[i] == s[1..][i - 1] && s[i + 1] == s[1..][i];
      rest
  }

  /** `Utils.isTemplate`: a non-empty string holding a `$name` placeholder,
      starting with `_.` (a lodash call) or with `(` (an expression). */
  predicate IsTemplate(t: string)
  {
    t != "" && (HasPlaceholder(t) || (|t| >= 2 && t[..2] == "_.") || t[0] == '(')
  }

  /** A string without a `$` before its last character holds no placeholder. */
  lemma NoPlaceholder(s: string)
    requires forall i | 0 <= i < |s| - 1 :: s[i] != '$'
    ensures !HasPlaceholder(s)
  {
  }

  lemma TemplateExamples()
    ensures IsTemplate("$user._id")
    ensures IsTemplate("_.now()")
    ensures IsTemplate("(1 + 2)")
    ensures !IsTemplate("")
  {
    assert "$user._id"[0] == '$' && IsIdentChar("$user._id"[1]);
  }

  /** A `$` that ends the text starts no placeholder. */
  lemma TrailingDollarNotTemplate()
    ensures !IsTemplate("price $")
  {
    var s := "price $";
    assert s[0] == 'p' && s[..2][0] == 'p';
    NoPlaceholder(s);
  }

  /** Plain words make no template. */
  lemma PlainTextNotTemplate()
    ensures !IsTemplate("text")
  {
    var s := "text";
    assert s[0] == 't' && s[..2][0] == 't';
    NoPlaceholder(s);
  }

  // ---------------------------------------------------------------------------
  // Turkish-aware regular-expression sources
  // ---------------------------------------------------------------------------

  /** `table_insensitive` of getTurkishRegexSearchStringPassTurkishCharacters:
      each Turkish letter and its ASCII look-alike, in both cases. */
  function FoldAll(c: char): (r: Option<string>)
    ensures r.Some? <==> c in {'ç', 'c', 'ğ', 'g', 'ı', 'i', 'ö', 'o', 'ş', 's', 'ü', 'u', 'Ç', 'C', 'Ğ', 'G', 'I', 'İ', 'Ö', 'O', 'Ş', 'S', 'Ü', 'U'}
  {
    match c
    case 'ç' => Some("[ÇçcC]")
    case 'c' => Some("[ÇçcC]")
    case 'ğ' => Some("[ĞğgG]")
    case 'g' => Some("[ĞğgG]")
    case 'ı' => Some("[Iıiİ]")
    case 'i' => Some("[İiıI]")
    case 'ö' => Some("[ÖöoO]")
    case 'o' => Some("[ÖöoO]")
    case 'ş' => Some("[ŞşsS]")
    case 's' => Some("[ŞşsS]")
    case 'ü' => Some("[ÜüuU]")
    case 'u' => Some("[ÜüuU]")
    case 'Ç' => Some("[ÇçcC]")
    case 'C' => Some("[ÇçcC]")
    case 'Ğ' => Some("[ĞğgG]")
    case 'G' => Some("[ĞğgG]")
    case 'I' => Some("[Iıiİ]")
    case 'İ' => Some("[İiıI]")
    case 'Ö' => Some("[ÖöoO]")
    case 'O' => Some("[ÖöoO]")
    case 'Ş' => Some("[ŞşsS]")
    case 'S' => Some("[ŞşsS]")
    case 'Ü' => Some("[ÜüuU]")
    case 'U' => Some("[ÜüuU]")
    case _ => None
  }

  /** `table_sensitive` of the same function: the Turkish letter and its ASCII
      look-alike in the case of `c` only. */
  function FoldSameCase(c: char): (r: Option<string>)
    ensures r.Some? <==> c in {'ç', 'c', 'ğ', 'g', 'ı', 'i', 'ö', 'o', 'ş', 's', 'ü', 'u', 'Ç', 'C', 'Ğ', 'G', 'I', 'İ', 'Ö', 'O', 'Ş', 'S', 'Ü', 'U'}
  {
    match c
    case 'ç' => Some("[çc]")
    case 'c' => Some("[çc]")
    case 'ğ' => Some("[ğg]")
    case 'g' => Some("[ğg]")
    case 'ı' => Some("[ıi]")
    case 'i' => Some("[iı]")
    case 'ö' => Some("[öo]")
    case 'o' => Some("[öo]")
    case 'ş' => Some("[şs]")
    case 's' => Some("[şs]")
    case 'ü' => Some("[üu]")
    case 'u' => Some("[üu]")
    case 'Ç' => Some("[ÇC]")
    case 'C' => Some("[ÇC]")
    case 'Ğ' => Some("[ĞG]")
    case 'G' => Some("[ĞG]")
    case 'I' => Some("[Iİ]")
    case 'İ' => Some("[İI]")
    case 'Ö' => Some("[ÖO]")
    case 'O' => Some("[ÖO]")
    case 'Ş' => Some("[ŞS]")
    case 'S' => Some("[ŞS]")
    case 'Ü' => Some("[ÜU]")
    case 'U' => Some("[ÜU]")
    case _ => None
  }

  /** `table_insensitive` of getTurkishRegexSearchString: a Turkish letter and
      its other-case form (dotted and dotless i are kept apart). */
  function FoldTurkishCase(c: char): (r: Option<string>)
    ensures r.Some? <==> c in {'ç', 'ğ', 'ı', 'i', 'ö', 'ş', 'ü', 'Ç', 'Ğ', 'I', 'İ', 'Ö', 'Ş', 'Ü'}
  {
    match c
    case 'ç' => Some("[Çç]")
    case 'ğ' => Some("[Ğğ]")
    case 'ı' => Some("[Iı]")
    case 'i' => Some("[İi]")
    case 'ö' => Some("[Öö]")
    case 'ş' => Some("[Şş]")
    case 'ü' => Some("[Üü]")
    case 'Ç' => Some("[Çç]")
    case 'Ğ' => Some("[Ğğ]")
    case 'I' => Some("[Iı]")
    case 'İ' => Some("[İi]")
    case 'Ö' => Some("[Öö]")
    case 'Ş' => Some("[Şş]")
    case 'Ü' => Some("[Üü]")
    case _ => None
  }

  /** One character of the search string after substitution. */
  function Substitute(table: char -> Option<string>, c: char): string
  {
    match table(c)
    case Some(cls) => cls
    case None => [c]
  }

  /** Every character replaced by its table entry, or kept when it has none. */
  function Expand(table: char -> Option<string>, s: string): string
  {
    if s == [] then [] else Expand(table, s[..|s| - 1]) + Substitute(table, s[|s| - 1])
  }

  lemma {:induction false} ExpandAppend(table: char -> Option<string>, a: string, b: string)
    ensures Expand(table, a + b) == Expand(table, a) + Expand(table, b)
    decreases |b|
  {
    if b != [] {
      assert (a + b)[..|a + b| - 1] == a + b[..|b| - 1];
      ExpandAppend(table, a, b[..|b| - 1]);
    } else {
      assert a + b == a;
    }
  }

  /** A search string with no letter the table knows passes through unchanged. */
  lemma {:induction false} ExpandUntouched(table: char -> Option<string>, s: string)
    requires forall k | 0 <= k < |s| :: table(s[k]).None?
    ensures Expand(table, s) == s
  {
    if s != [] {
      ExpandUntouched(table, s[..|s| - 1]);
    }
  }

  /** A table with no entries: the `sensitive` path of getTurkishRegexSearchString. */
  function NoFold(c: char): Option<string>
  {
    None
  }

  /** `Utils.getTurkishRegexSearchStringPassTurkishCharacters(search, sensitive)`. */
  method PassTurkishCharacters(search: string, sensitive: bool) returns (r: string)
    ensures r == Expand(if sensitive then FoldSameCase else FoldAll, search)
  {
    var table := if sensitive then FoldSameCase else FoldAll;
    r := "";
    var i := 0;
    while i < |search|
      invariant 0 <= i <= |search|
      invariant r == Expand(table, search[..i])
    {
      var ch := search[i];
      assert search[..i + 1][..i] == search[..i];
      r := r + Substitute(table, ch);
      i := i + 1;
    }
    assert search[..i] == search;
  }

  /** `Utils.getTurkishRegexSearchString(search, sensitive)`: a case-sensitive
      search is returned unchanged. */
  method TurkishRegexSearchString(search: string, sensitive: bool) returns (r: string)
    ensures r == Expand(if sensitive then NoFold else FoldTurkishCase, search)
    ensures sensitive ==> r == search
  {
    var table := if sensitive then NoFold else FoldTurkishCase;
    r := "";
    var i := 0;
    while i < |search|
      invariant 0 <= i <= |search|
      invariant r == Expand(table, search[..i])
    {
      var ch := search[i];
      assert search[..i + 1][..i] == search[..i];
      r := r + Substitute(table, ch);
      i := i + 1;
    }
    assert search[..i] == search;
    if sensitive {
      ExpandUntouched(NoFold, search);
    }
  }
}
