// The validator builder of src/mongoose/validators.js: one validator per
// shaped validation (a library validator, or one of the three custom ones
// behind `validationHandler`), the templated handler messages, the argument
// parsing of `multipleUnique`, the `requiredWith` decision and the query
// condition `multipleUnique` looks duplicates up with.
module Validators {
  import opened Wrappers
  import opened Json
  import opened Utils
  import opened Strings
  import opened Domain
  import opened StringValidations
  import opened Seqs

  // ---------------------------------------------------------------------------
  // Dispatch
  // ---------------------------------------------------------------------------

  /** A validator of a schema field. */
  datatype Validator =
      // `validate({validator, arguments, message, passIfEmpty})`
    | Library(validator: string, arguments: Value, message: Value, passIfEmpty: Value)
      // `validationHandler(validation, locale)`: the named custom validator
      // with a message computed on demand (see HandlerMessage)
    | Handler(name: string, validation: StringValidation)

  datatype BuildError =
    | Shaping(error: ValidationError)
    | UnknownValidator(name: string)

  /** The custom validators a validation may name. */
  const CustomValidators: set<string> := {"multipleUnique", "existsReference", "requiredWith"}

  /** Whether a validation name is served: by the validator library
      (`exists`, a parameter here) or by a custom validator. */
  predicate Accepted(name: string, builtIn: string -> bool)
  {
    builtIn(name) || name in CustomValidators
  }

  function ValidatorOf(v: StringValidation, builtIn: string -> bool): Validator
  {
    if builtIn(v.validator) then Library(v.validator, v.arguments, v.message, v.passIfEmpty)
    else Handler(v.validator, v)
  }

  /** The validators for a list of shaped validations: all of them in order,
      or an error naming the first validation nobody serves. */
  function ValidatorsFor(vs: seq<StringValidation>, builtIn: string -> bool): Result<seq<Validator>, BuildError>
  {
    if vs == [] then Ok([])
    else if !Accepted(vs[0].validator, builtIn) then Err(UnknownValidator(vs[0].validator))
    else
      match ValidatorsFor(vs[1..], builtIn)
      case Err(e) => Err(e)
      case Ok(tail) => Ok([ValidatorOf(vs[0], builtIn)] + tail)
  }

  /** When every validation is served, the result holds one validator per
      validation, in order: the library's for a built-in name, the custom
      handler otherwise. */
  lemma {:induction false} ValidatorsForOk(vs: seq<StringValidation>, builtIn: string -> bool)
    requires forall k | 0 <= k < |vs| :: Accepted(vs[k].validator, builtIn)
    ensures var r := ValidatorsFor(vs, builtIn);
      r.Ok? && |r.value| == |vs| && forall k | 0 <= k < |vs| ::
        (builtIn(vs[k].validator) ==> r.value[k] == Library(vs[k].validator, vs[k].arguments, vs[k].message, vs[k].passIfEmpty)) &&
        (!builtIn(vs[k].validator) ==> r.value[k] == Handler(vs[k].validator, vs[k]))
  {
    if vs != [] {
      forall k | 0 <= k < |vs[1..]| ensures Accepted(vs[1..][k].validator, builtIn) {
        assert vs[1..][k] == vs[k + 1];
      }
      ValidatorsForOk(vs[1..], builtIn);
      var tail := ValidatorsFor(vs[1..], builtIn).value;
      var all := [ValidatorOf(vs[0], builtIn)] + tail;
      assert ValidatorsFor(vs, builtIn) == Ok(all);
      forall k | 1 <= k < |vs| ensures all[k] == tail[k - 1] && vs[k] == vs[1..][k - 1] {
      }
    }
  }

  /** The first validation nobody serves is the one reported. */
  lemma {:induction false} ValidatorsForFirstUnknown(vs: seq<StringValidation>, builtIn: string -> bool, j: nat)
    requires j < |vs| && !Accepted(vs[j].validator, builtIn)
    requires forall k | 0 <= k < j :: Accepted(vs[k].validator, builtIn)
    ensures ValidatorsFor(vs, builtIn) == Err(UnknownValidator(vs[j].validator))
  {
    if j > 0 {
      forall k | 0 <= k < j - 1 ensures Accepted(vs[1..][k].validator, builtIn) {
        assert vs[1..][k] == vs[k + 1];
      }
      assert vs[1..][j - 1] == vs[j];
      ValidatorsForFirstUnknown(vs[1..], builtIn, j - 1);
    }
  }

  /** The result is an error exactly when some validation is not served, and
      then it names the first such validation. */
  lemma ValidatorsForErr(vs: seq<StringValidation>, builtIn: string -> bool)
    ensures ValidatorsFor(vs, builtIn).Ok? <==> forall k | 0 <= k < |vs| :: Accepted(vs[k].validator, builtIn)
    ensures ValidatorsFor(vs, builtIn).Err? ==> exists j | 0 <= j < |vs| ::
      !Accepted(vs[j].validator, builtIn) && ValidatorsFor(vs, builtIn).error == UnknownValidator(vs[j].validator) &&
      forall k | 0 <= k < j :: Accepted(vs[k].validator, builtIn)
  {
    if forall k | 0 <= k < |vs| :: Accepted(vs[k].validator, builtIn) {
      ValidatorsForOk(vs, builtIn);
    } else {
      var j := FirstUnknown(vs, builtIn, 0);
      ValidatorsForFirstUnknown(vs, builtIn, j);
    }
  }

  /** The index of the first validation from `i` on that nobody serves. */
  lemma {:induction false} FirstUnknown(vs: seq<StringValidation>, builtIn: string -> bool, i: nat) returns (j: nat)
    requires i <= |vs|
    requires forall k | 0 <= k < i :: Accepted(vs[k].validator, builtIn)
    requires exists k | i <= k < |vs| :: !Accepted(vs[k].validator, builtIn)
    ensures i <= j < |vs| && !Accepted(vs[j].validator, builtIn)
    ensures forall k | 0 <= k < j :: Accepted(vs[k].validator, builtIn)
    decreases |vs| - i
  {
    if !Accepted(vs[i].validator, builtIn) {
      j := i;
    } else {
      j := FirstUnknown(vs, builtIn, i + 1);
    }
  }

  /** The loop of getValidators over the shaped validations. */
  method Dispatch(vs: seq<StringValidation>, builtIn: string -> bool) returns (r: Result<seq<Validator>, BuildError>)
    ensures r == ValidatorsFor(vs, builtIn)
  {
    var validators: seq<Validator> := [];
    var i := 0;
    while i < |vs|
      invariant 0 <= i <= |vs|
      invariant |validators| == i
      invariant forall k | 0 <= k < i :: Accepted(vs[k].validator, builtIn) && validators[k] == ValidatorOf(vs[k], builtIn)
    {
      var v := vs[i];
      if builtIn(v.validator) {
        validators := validators + [Library(v.validator, v.arguments, v.message, v.passIfEmpty)];
      } else if v.validator in CustomValidators {
        validators := validators + [Handler(v.validator, v)];
      } else {
        ValidatorsForFirstUnknown(vs, builtIn, i);
        return Err(UnknownValidator(v.validator));
      }
      i := i + 1;
    }
    ValidatorsForOk(vs, builtIn);
    var e := ValidatorsFor(vs, builtIn);
    forall k | 0 <= k < |vs|
      ensures e.value[k] == validators[k]
    {
      assert validators[k] == ValidatorOf(vs[k], builtIn);
    }
    assert e.value == validators;
    r := Ok(validators);
  }

  /** `getValidators(builder, app, type, property, locale)`: the shaped
      validations of the property (see StringValidations.GetValidations, which
      rewrites `validations` in place), then one validator each. */
  method GetValidators(property: Option<Property>, validations: array<Option<Validation>>, locale: string,
                       interp: string -> string, locales: string -> Option<Value>, builtIn: string -> bool)
    returns (r: Result<seq<Validator>, BuildError>)
    modifies validations
    ensures property.None? ==> r == Err(Shaping(NullProperty)) && validations[..] == old(validations[..])
    ensures property.Some? ==>
      var loc := EffectiveLocale(locale);
      var run := ShapeAll(old(validations[..]), loc, interp, locales(loc));
      validations[..] == run.stored &&
      r == match run.out
           case Err(e) => Err(Shaping(e))
           case Ok(vs) => ValidatorsFor(vs, builtIn)
  {
    var shaped := GetValidations(property, validations, locale, interp, locales);
    if shaped.Err? {
      return Err(Shaping(shaped.error));
    }
    r := Dispatch(shaped.value, builtIn);
  }

  /** The names getValidators stores on `this`, which is the global object in
      a plain call: `validationHandler`, the three custom validators and
      `validations`. */
  const StoredOnGlobal: set<string> := {"validationHandler", "multipleUnique", "existsReference", "requiredWith", "validations"}

  /** The dispatch test as written: `this[validation.validator]` looks the
      name up on the global object, where `globals` are its other truthy
      properties. */
  predicate AcceptedAsWritten(name: string, builtIn: string -> bool, globals: set<string>)
  {
    builtIn(name) || name in StoredOnGlobal || name in globals
  }

  /** A validation named `validations` that the library does not know is
      accepted by the written test (getValidators itself stores the shaped
      list there) and rejected by the intended one; so is any global name. */
  lemma DispatchCounterexample(builtIn: string -> bool, globals: set<string>)
    requires !builtIn("validations")
    ensures AcceptedAsWritten("validations", builtIn, globals)
    ensures !Accepted("validations", builtIn)
    ensures forall g | g in globals :: AcceptedAsWritten(g, builtIn, globals)
  {
  }

  // ---------------------------------------------------------------------------
  // Handler messages
  // ---------------------------------------------------------------------------

  function UpperAscii(c: char): char
  {
    if 'a' <= c <= 'z' then (c as int - 32) as char else c
  }

  /** Equality under the `i` flag of a regular expression over ASCII text. */
  predicate EqualsIgnoreCase(a: string, b: string)
  {
    |a| == |b| && forall k | 0 <= k < |a| :: UpperAscii(a[k]) == UpperAscii(b[k])
  }

  /** `pat` occurs, in any case, at index `i` of `s`. */
  predicate OccursAt(s: string, i: nat, pat: string)
  {
    i + |pat| <= |s| && EqualsIgnoreCase(s[i..i + |pat|], pat)
  }

  /** `s.replace(/pat/gi, rep)` for a pattern without special characters:
      every leftmost, non-overlapping occurrence, in any case, replaced. */
  function ReplaceAllIgnoreCase(s: string, pat: string, rep: string): string
    requires pat != ""
    decreases |s|
  {
    if |s| < |pat| then s
    else if EqualsIgnoreCase(s[..|pat|], pat) then rep + ReplaceAllIgnoreCase(s[|pat|..], pat, rep)
    else [s[0]] + ReplaceAllIgnoreCase(s[1..], pat, rep)
  }

  /** A message with no occurrence of the pattern is left as it is. */
  lemma {:induction false} ReplaceAbsent(s: string, pat: string, rep: string)
    requires pat != ""
    requires forall i: nat :: !OccursAt(s, i, pat)
    ensures ReplaceAllIgnoreCase(s, pat, rep) == s
    decreases |s|
  {
    if |s| >= |pat| {
      assert s[..|pat|] == s[0..0 + |pat|];
      assert !OccursAt(s, 0, pat);
      forall i: nat
        ensures !OccursAt(s[1..], i, pat)
      {
        OccursShift(s, i, pat);
      }
      ReplaceAbsent(s[1..], pat, rep);
    }
  }

  /** An occurrence in the tail is an occurrence one position later. */
  lemma OccursShift(s: string, i: nat, pat: string)
    requires s != []
    ensures OccursAt(s[1..], i, pat) <==> OccursAt(s, i + 1, pat)
  {
    if i + |pat| <= |s[1..]| {
      assert s[1..][i..i + |pat|] == s[i + 1..i + 1 + |pat|];
    }
  }

  /** `pieces` with `seps[k]` between `pieces[k]` and `pieces[k + 1]`. */
  function Interleave(pieces: seq<string>, seps: seq<string>): string
    requires |pieces| == |seps| + 1
  {
    if seps == [] then pieces[0] else pieces[0] + seps[0] + Interleave(pieces[1..], seps[1..])
  }

  /** `n` copies of `rep`. */
  function Copies(rep: string, n: nat): (r: seq<string>)
    ensures |r| == n && forall k | 0 <= k < n :: r[k] == rep
  {
    if n == 0 then [] else [rep] + Copies(rep, n - 1)
  }

  /** No occurrence of `pat` starts inside `piece` when `next` follows it. */
  ghost predicate NoOccurrenceBefore(piece: string, next: string, pat: string)
  {
    forall i: nat | i < |piece| :: !OccursAt(piece + next, i, pat)
  }

  /** `s` cut at the leftmost, non-overlapping occurrences of `pat`, in any
      case: the pieces rejoined with the matched text give `s`, no
      occurrence starts inside a piece, and none is left in the last. */
  ghost predicate LeftmostSplit(s: string, pat: string, pieces: seq<string>, matches: seq<string>)
  {
    && |pieces| == |matches| + 1
    && Interleave(pieces, matches) == s
    && (forall k | 0 <= k < |matches| :: EqualsIgnoreCase(matches[k], pat))
    && (forall k | 0 <= k < |matches| :: NoOccurrenceBefore(pieces[k], matches[k], pat))
    && (forall i: nat :: !OccursAt(pieces[|matches|], i, pat))
  }

  /** Replacing every occurrence is joining the pieces of the leftmost split
      with the replacement. */
  lemma {:induction false} ReplaceSplit(s: string, pat: string, rep: string, pieces: seq<string>, matches: seq<string>)
    requires pat != "" && LeftmostSplit(s, pat, pieces, matches)
    ensures ReplaceAllIgnoreCase(s, pat, rep) == Interleave(pieces, Copies(rep, |matches|))
    decreases |matches|
  {
    if matches == [] {
      ReplaceAbsent(s, pat, rep);
    } else {
      var p, m := pieces[0], matches[0];
      var rest := Interleave(pieces[1..], matches[1..]);
      assert s == p + (m + rest);
      assert LeftmostSplit(rest, pat, pieces[1..], matches[1..]) by {
        forall k | 0 <= k < |matches[1..]|
          ensures EqualsIgnoreCase(matches[1..][k], pat) && NoOccurrenceBefore(pieces[1..][k], matches[1..][k], pat)
        {
          assert matches[1..][k] == matches[k + 1] && pieces[1..][k] == pieces[k + 1];
        }
        assert pieces[1..][|matches[1..]|] == pieces[|matches|];
      }
      ReplaceSplit(rest, pat, rep, pieces[1..], matches[1..]);
      forall i: nat | i < |p|
        ensures !OccursAt(p + (m + rest), i, pat)
      {
        assert !OccursAt(p + m, i, pat);
        OccursPrefix(p + m, rest, i, pat);
        assert (p + m) + rest == p + (m + rest);
      }
      ReplaceAfterPiece(p, m + rest, pat, rep);
      assert (m + rest)[..|pat|] == m;
      assert (m + rest)[|pat|..] == rest;
      assert Copies(rep, |matches|)[1..] == Copies(rep, |matches| - 1);
    }
  }

  /** An occurrence that ends inside `u` is an occurrence in `u + t`. */
  lemma OccursPrefix(u: string, t: string, i: nat, pat: string)
    requires i + |pat| <= |u|
    ensures OccursAt(u + t, i, pat) <==> OccursAt(u, i, pat)
  {
    assert (u + t)[i..i + |pat|] == u[i..i + |pat|];
  }

  /** A piece in which no occurrence starts is copied over. */
  lemma {:induction false} ReplaceAfterPiece(p: string, t: string, pat: string, rep: string)
    requires pat != ""
    requires forall i: nat | i < |p| :: !OccursAt(p + t, i, pat)
    ensures ReplaceAllIgnoreCase(p + t, pat, rep) == p + ReplaceAllIgnoreCase(t, pat, rep)
    decreases |p|
  {
    if p == [] {
      assert p + t == t;
    } else {
      var w := p + t;
      ConcatHead(p, t);
      forall i: nat | i < |p[1..]|
        ensures !OccursAt(p[1..] + t, i, pat)
      {
        OccursShift(w, i, pat);
      }
      ReplaceAfterPiece(p[1..], t, pat, rep);
      var tail := ReplaceAllIgnoreCase(t, pat, rep);
      ConcatHead(p, tail);
      if |w| >= |pat| {
        assert w[..|pat|] == w[0..0 + |pat|];
        assert !OccursAt(w, 0, pat);
      } else {
        assert |t| < |pat|;
        assert tail == t;
      }
    }
  }

  /** Every text has a leftmost split. */
  lemma {:induction false} SplitExists(s: string, pat: string) returns (pieces: seq<string>, matches: seq<string>)
    requires pat != ""
    ensures LeftmostSplit(s, pat, pieces, matches)
    decreases |s|
  {
    if |s| < |pat| {
      pieces, matches := [s], [];
    } else if EqualsIgnoreCase(s[..|pat|], pat) {
      var ps, ms := SplitExists(s[|pat|..], pat);
      pieces, matches := [""] + ps, [s[..|pat|]] + ms;
      assert pieces[1..] == ps && matches[1..] == ms;
      assert Interleave(pieces, matches) == "" + s[..|pat|] + s[|pat|..];
      assert s[..|pat|] + s[|pat|..] == s;
      forall k | 0 <= k < |matches|
        ensures EqualsIgnoreCase(matches[k], pat) && NoOccurrenceBefore(pieces[k], matches[k], pat)
      {
        if k > 0 {
          assert matches[k] == ms[k - 1] && pieces[k] == ps[k - 1];
        }
      }
      assert pieces[|matches|] == ps[|ms|];
    } else {
      var ps, ms := SplitExists(s[1..], pat);
      pieces, matches := [[s[0]] + ps[0]] + ps[1..], ms;
      SplitConsChar(s, pat, ps, ms);
    }
  }

  /** A character that starts no occurrence joins the first piece of the
      tail's split. */
  lemma SplitConsChar(s: string, pat: string, ps: seq<string>, ms: seq<string>)
    requires pat != "" && |s| >= |pat| && !EqualsIgnoreCase(s[..|pat|], pat)
    requires LeftmostSplit(s[1..], pat, ps, ms)
    ensures LeftmostSplit(s, pat, [[s[0]] + ps[0]] + ps[1..], ms)
  {
    var pieces := [[s[0]] + ps[0]] + ps[1..];
    assert pieces[1..] == ps[1..];
    if ms == [] {
      SplitConsCharLast(s, pat, ps[0]);
    } else {
      var rest := Interleave(ps[1..], ms[1..]);
      SplitConsCharFirst(s, pat, ps[0], ms[0], rest);
      forall k | 0 <= k < |ms|
        ensures NoOccurrenceBefore(pieces[k], ms[k], pat)
      {
        if k > 0 {
          assert pieces[k] == ps[k];
        }
      }
      assert pieces[|ms|] == ps[|ms|];
    }
  }

  /** The whole text as one piece, when no occurrence starts at its first
      character or in its tail. */
  lemma SplitConsCharLast(s: string, pat: string, p: string)
    requires pat != "" && |s| >= |pat| && !EqualsIgnoreCase(s[..|pat|], pat)
    requires s[1..] == p && forall i: nat :: !OccursAt(p, i, pat)
    ensures [s[0]] + p == s && forall i: nat :: !OccursAt(s, i, pat)
  {
    forall i: nat
      ensures !OccursAt(s, i, pat)
    {
      if i > 0 {
        OccursShift(s, i - 1, pat);
      } else {
        assert s[..|pat|] == s[0..0 + |pat|];
      }
    }
  }

  /** The first piece grown by a character that starts no occurrence. */
  lemma SplitConsCharFirst(s: string, pat: string, p: string, m: string, rest: string)
    requires pat != "" && |s| >= |pat| && !EqualsIgnoreCase(s[..|pat|], pat)
    requires s[1..] == p + m + rest && |m| == |pat| && NoOccurrenceBefore(p, m, pat)
    ensures [s[0]] + p + m + rest == s
    ensures NoOccurrenceBefore([s[0]] + p, m, pat)
  {
    var p0 := [s[0]] + p;
    var w := p0 + m;
    assert s == w + rest;
    forall i: nat | i < |p0|
      ensures !OccursAt(w, i, pat)
    {
      if i > 0 {
        OccursShift(w, i - 1, pat);
        assert w[1..] == p + m;
      } else {
        assert w[..|pat|] == s[..|pat|];
        assert w[0..0 + |pat|] == w[..|pat|];
      }
    }
  }

  /** `validation.arguments` when it is truthy with a truthy length, else `[]`. */
  function OtherKeys(arguments: Value): Value
  {
    match arguments
    case Arr(items) => if |items| > 0 then arguments else Arr([])
    case Str(s) => if |s| > 0 then arguments else Arr([])
    case Obj(fs) => if Truthy(Get(fs, "length")) then arguments else Arr([])
    case _ => Arr([])
  }

  /** `key.path` for each key; reading a field of null or undefined raises. */
  function Paths(items: seq<Value>): (r: Result<seq<Value>, ()>)
    ensures r.Ok? ==> |r.value| == |items|
    ensures r.Ok? <==> forall k | 0 <= k < |items| :: !IsNil(items[k])
    ensures r.Ok? ==> forall k | 0 <= k < |items| :: r.value[k] == PathOf(items[k])
  {
    if items == [] then Ok([])
    else if IsNil(items[0]) then Err(())
    else
      match Paths(items[1..])
      case Err(e) =>
        assert forall k | 0 <= k < |items[1..]| :: items[1..][k] == items[k + 1];
        Err(e)
      case Ok(rest) =>
        assert forall k | 1 <= k < |items| :: items[k] == items[1..][k - 1];
        Ok([PathOf(items[0])] + rest)
  }

  /** `key.path` of a key that is not null or undefined. */
  function PathOf(key: Value): Value
  {
    if key.Obj? then Get(key.fields, "path") else Undefined
  }

  /** What `join` writes for one element: nothing for null and undefined. */
  function ItemText(v: Value): string
  {
    if IsNil(v) then "" else ToStr(v)
  }

  /** What `join` writes for each element. */
  function ItemTexts(items: seq<Value>): seq<string>
  {
    seq(|items|, k requires 0 <= k < |items| => ItemText(items[k]))
  }

  /** What `join` writes for the `path` of each key. */
  function PathTexts(items: seq<Value>): seq<string>
  {
    seq(|items|, k requires 0 <= k < |items| => ItemText(PathOf(items[k])))
  }

  /** `items.slice(k).join(sep)` is the texts of those items joined. */
  lemma {:induction false} JoinFromTexts(items: seq<Value>, k: nat, sep: string)
    requires k <= |items|
    ensures JoinFrom(Arr(items), k, sep) == Join(ItemTexts(items)[k..], sep)
    decreases |items| - k
  {
    if k < |items| {
      JoinFromTexts(items, k + 1, sep);
      var ts := ItemTexts(items)[k..];
      assert ts[0] == ItemText(items[k]);
      assert ts[1..] == ItemTexts(items)[k + 1..];
    }
  }

  /** The `{KEYS}` text: string arguments joined with `, `, else the `path`
      fields of the arguments joined. A non-empty string argument raises,
      strings having no `join`. */
  function KeysText(arguments: Value): (r: Result<string, ()>)
    ensures OtherKeys(arguments).Arr? ==>
      var items := OtherKeys(arguments).items;
      if |items| > 0 && items[0].Str? then r == Ok(Join(ItemTexts(items), ", "))
      else (r.Ok? <==> forall k | 0 <= k < |items| :: !IsNil(items[k])) &&
           (r.Ok? ==> r.value == Join(PathTexts(items), ", "))
    ensures arguments.Str? ==> (r.Err? <==> arguments.s != "")
    ensures OtherKeys(arguments).Obj? ==> (r.Err? <==> Get(OtherKeys(arguments).fields, "0").Str?) && (r.Ok? ==> r.value == "")
  {
    match OtherKeys(arguments)
    case Arr(items) =>
      if |items| > 0 && items[0].Str? then
        JoinFromTexts(items, 0, ", ");
        assert ItemTexts(items)[0..] == ItemTexts(items);
        Ok(JoinFrom(Arr(items), 0, ", "))
      else
        (match Paths(items)
         case Err(e) => Err(e)
         case Ok(ps) =>
           JoinFromTexts(ps, 0, ", ");
           assert ItemTexts(ps)[0..] == PathTexts(items);
           Ok(JoinFrom(Arr(ps), 0, ", ")))
    case Str(_) => Err(())
    // an object with a truthy `length` has no `map`: the text of `[]`, unless
    // its `0` is a string, which sends it to the missing `join`
    case Obj(fs) => if Get(fs, "0").Str? then Err(()) else Ok("")
    case _ => Ok("")
  }

  /** The text the message is made from: the validation's own message when
      it is truthy, else the library's; one that is not a string has no
      `replace`. */
  function Template(v: StringValidation, defaultMessage: Option<string>): (r: Option<string>)
    ensures Truthy(v.message) && v.message.Str? ==> r == Some(v.message.s)
    ensures Truthy(v.message) && !v.message.Str? ==> r == None
    ensures !Truthy(v.message) ==> r == defaultMessage
  {
    if Truthy(v.message) then (if v.message.Str? then Some(v.message.s) else None) else defaultMessage
  }

  /** The message of a custom validator (lines 53-61): the validation's own
      message, else `defaultMessage` (the library's message for that
      validator and locale), with `{MODEL}`, `{PATH}` and `{KEYS}` replaced
      in any case. */
  function HandlerMessage(v: StringValidation, defaultMessage: Option<string>, typeName: string, propertyName: string): (r: Result<string, ()>)
    ensures r.Ok? ==> (v.message.Str? && v.message.s != "") || defaultMessage.Some?
    ensures Template(v, defaultMessage).None? || KeysText(v.arguments).Err? ==> r.Err?
    ensures Template(v, defaultMessage).Some? && KeysText(v.arguments).Ok? ==>
      r == Ok(ReplaceAllIgnoreCase(ReplaceAllIgnoreCase(ReplaceAllIgnoreCase(Template(v, defaultMessage).value,
                "{MODEL}", typeName), "{PATH}", propertyName), "{KEYS}", KeysText(v.arguments).value))
  {
    match Template(v, defaultMessage)
    case None => Err(())
    case Some(t) =>
      match KeysText(v.arguments)
      case Err(e) => Err(e)
      case Ok(keys) =>
        Ok(ReplaceAllIgnoreCase(ReplaceAllIgnoreCase(ReplaceAllIgnoreCase(t, "{MODEL}", typeName), "{PATH}", propertyName),
                                "{KEYS}", keys))
  }

  /** A message without `{` needs no templating: it comes back unchanged. */
  lemma HandlerMessagePlain(v: StringValidation, typeName: string, propertyName: string)
    requires v.message.Str? && v.message.s != "" && '{' !in v.message.s
    requires KeysText(v.arguments).Ok?
    ensures HandlerMessage(v, None, typeName, propertyName) == Ok(v.message.s)
  {
    var t := v.message.s;
    forall pat: string, i: nat | pat != "" && pat[0] == '{'
      ensures !OccursAt(t, i, pat)
    {
      if i + |pat| <= |t| {
        assert t[i..i + |pat|][0] == t[i];
      }
    }
    ReplaceAbsent(t, "{MODEL}", typeName);
    ReplaceAbsent(t, "{PATH}", propertyName);
    ReplaceAbsent(t, "{KEYS}", KeysText(v.arguments).value);
  }

  /** Characters that cannot start an occurrence are copied over. */
  lemma {:induction false} ReplaceAfter(u: string, s: string, pat: string, rep: string)
    requires pat != ""
    requires forall k | 0 <= k < |u| :: UpperAscii(u[k]) != UpperAscii(pat[0])
    ensures ReplaceAllIgnoreCase(u + s, pat, rep) == u + ReplaceAllIgnoreCase(s, pat, rep)
    decreases |u|
  {
    if u != [] {
      var w := u + s;
      var tail := ReplaceAllIgnoreCase(s, pat, rep);
      ReplaceAfter(u[1..], s, pat, rep);
      ConcatHead(u, s);
      ConcatHead(u, tail);
      if |w| >= |pat| {
        assert !EqualsIgnoreCase(w[..|pat|], pat) by {
          assert w[..|pat|][0] == u[0];
          assert UpperAscii(w[..|pat|][0]) != UpperAscii(pat[0]);
        }
        assert ReplaceAllIgnoreCase(w, pat, rep) == [w[0]] + ReplaceAllIgnoreCase(w[1..], pat, rep);
      } else {
        assert tail == s;
      }
    } else {
      assert u + s == s;
    }
  }

  /** A pattern one of whose characters the text lacks does not occur in it. */
  lemma NotOccurring(s: string, pat: string, j: nat)
    requires j < |pat|
    requires forall k | 0 <= k < |s| :: UpperAscii(s[k]) != UpperAscii(pat[j])
    ensures forall i: nat :: !OccursAt(s, i, pat)
  {
    forall i: nat
      ensures !OccursAt(s, i, pat)
    {
      if i + |pat| <= |s| {
        assert s[i..i + |pat|][j] == s[i + j];
      }
    }
  }

  lemma ExampleModel()
    ensures ReplaceAllIgnoreCase("{path}:{KEYS}", "{MODEL}", "user") == "{path}:{KEYS}"
  {
    var t := "{path}:{KEYS}";
    assert forall k | 0 <= k < |t| :: t[k] in "{path}:KEYS";
    NotOccurring(t, "{MODEL}", 1);
    ReplaceAbsent(t, "{MODEL}", "user");
  }

  lemma ExamplePath()
    ensures ReplaceAllIgnoreCase("{path}:{KEYS}", "{PATH}", "email") == "email:{KEYS}"
  {
    var t, rest := "{path}:{KEYS}", ":{KEYS}";
    PathTemplateSplit();
    ReplaceAtStart(t, "{PATH}", "email");
    NotOccurring(rest, "{PATH}", 1);
    ReplaceAbsent(rest, "{PATH}", "email");
    EmailPathText();
  }

  /** The example template starts with `{path}`, `{PATH}` in another case. */
  lemma PathTemplateSplit()
    ensures EqualsIgnoreCase("{path}:{KEYS}"[..6], "{PATH}")
    ensures "{path}:{KEYS}"[6..] == ":{KEYS}"
  {
    var t := "{path}:{KEYS}";
    assert t[..6] == "{path}";
  }

  lemma EmailPathText()
    ensures "email" + ":{KEYS}" == "email:{KEYS}"
  {
  }

  /** An occurrence at the start is replaced, and the search goes on after it. */
  lemma ReplaceAtStart(s: string, pat: string, rep: string)
    requires pat != "" && |pat| <= |s| && EqualsIgnoreCase(s[..|pat|], pat)
    ensures ReplaceAllIgnoreCase(s, pat, rep) == rep + ReplaceAllIgnoreCase(s[|pat|..], pat, rep)
  {
  }

  lemma ExampleKeys()
    ensures ReplaceAllIgnoreCase("email:{KEYS}", "{KEYS}", "a, b") == "email:a, b"
  {
    var keys := "{KEYS}";
    ReplaceAfter("email:", keys, keys, "a, b");
    assert "email:{KEYS}" == "email:" + keys;
    assert ReplaceAllIgnoreCase(keys, keys, "a, b") == "a, b" by {
      assert EqualsIgnoreCase(keys[..6], keys);
      assert keys[6..] == [];
      assert ReplaceAllIgnoreCase([], keys, "a, b") == [];
    }
    EmailKeysText();
  }

  lemma EmailKeysText()
    ensures "email:" + "a, b" == "email:a, b"
  {
  }

  /** The message of `requiredWith` on `email` of `user`, with the keys
      `a` and `b`. */
  lemma HandlerMessageExample()
    ensures HandlerMessage(StringValidation("requiredWith", Arr([Str("a"), Str("b")]), Str("{path}:{KEYS}"), Undefined),
                           None, "user", "email") == Ok("email:a, b")
  {
    assert JoinFrom(Arr([Str("a"), Str("b")]), 0, ", ") == "a, b";
    assert KeysText(Arr([Str("a"), Str("b")])) == Ok("a, b");
    ExampleModel();
    ExamplePath();
    ExampleKeys();
  }

  // ---------------------------------------------------------------------------
  // multipleUnique arguments
  // ---------------------------------------------------------------------------

  datatype UniqueArguments = UniqueArguments(insensitive: bool, turkish: bool, paths: seq<Value>)

  datatype UniqueError =
    | NotAList
    | UnknownPaths(paths: seq<Value>)
    | NullPath

  /** `x == "turkish"` with JavaScript's loose equality: a string, or an
      array whose text is `turkish`. */
  predicate LooselyTurkish(v: Value)
  {
    (v.Str? && v.s == "turkish") || (v.Arr? && ToStr(v) == "turkish")
  }

  /** The flags taken off the argument list: a leading boolean becomes
      `insensitive`, a trailing `turkish` switches Turkish folding on. */
  function Flags(items: seq<Value>): (r: UniqueArguments)
    ensures |items| > 0 && items[0].Bool? ==> r.insensitive == items[0].b
    ensures !(|items| > 0 && items[0].Bool?) ==> !r.insensitive
    ensures exists a, b | 0 <= a <= 1 && a <= b <= |items| ::
      (r.paths == items[a..b] && (a == 1 <==> |items| > 0 && items[0].Bool?) && (b < |items| <==> r.turkish))
    ensures r.turkish ==> |items| > 0 && LooselyTurkish(items[|items| - 1])
  {
    var a := if |items| > 0 && items[0].Bool? then 1 else 0;
    var rest := items[a..];
    if |rest| > 0 && LooselyTurkish(rest[|rest| - 1]) then
      assert rest[..|rest| - 1] == items[a..|items| - 1];
      UniqueArguments(a == 1 && items[0].b, true, rest[..|rest| - 1])
    else
      assert rest == items[a..|items|];
      UniqueArguments(a == 1 && items[0].b, false, rest)
  }

  /** An argument naming a property: a property name, or a plain object whose
      `path` is one. */
  predicate Known(arg: Value, names: set<string>)
  {
    (arg.Str? && arg.s in names) ||
    (arg.Obj? && Get(arg.fields, "path").Str? && Get(arg.fields, "path").s in names)
  }

  /** The entries of the error message: each argument's name (`path` for a
      non-string) that is not a property name. */
  function Unknown(paths: seq<Value>, names: set<string>): (r: seq<Value>)
    requires forall k | 0 <= k < |paths| :: !IsNil(paths[k])
    ensures (r == []) <==> forall k | 0 <= k < |paths| :: Known(paths[k], names)
    ensures forall x | x in r :: !(x.Str? && x.s in names)
  {
    if paths == [] then []
    else
      var head := if paths[0].Str? then paths[0] else if paths[0].Obj? then Get(paths[0].fields, "path") else Undefined;
      var rest := Unknown(paths[1..], names);
      assert forall k | 1 <= k < |paths| :: paths[k] == paths[1..][k - 1];
      (if head.Str? && head.s in names then [] else [head]) + rest
  }

  /** Lines 73-95: the flags and the paths of `multipleUnique`, checked
      against the names of the type's properties. */
  function ParseUniqueArguments(arguments: Value, names: set<string>): (r: Result<UniqueArguments, UniqueError>)
    ensures !Truthy(arguments) ==> r == Ok(UniqueArguments(false, false, []))
    ensures Truthy(arguments) && !arguments.Arr? ==> r == Err(NotAList)
    ensures arguments.Arr? ==>
      var f := Flags(arguments.items);
      (r.Ok? <==> forall k | 0 <= k < |f.paths| :: Known(f.paths[k], names)) &&
      (r.Ok? ==> r.value == f) &&
      (r.Err? && r.error.UnknownPaths? ==>
         (r.error.paths != [] && forall x | x in r.error.paths :: !(x.Str? && x.s in names)))
  {
    var args := if Truthy(arguments) then arguments else Arr([]);
    match args
    case Arr(items) =>
      var f := Flags(items);
      if forall k | 0 <= k < |f.paths| :: Known(f.paths[k], names) then Ok(f)
      else if exists k | 0 <= k < |f.paths| :: IsNil(f.paths[k]) then Err(NullPath)
      else Err(UnknownPaths(Unknown(f.paths, names)))
    case _ => Err(NotAList)
  }

  // ---------------------------------------------------------------------------
  // requiredWith
  // ---------------------------------------------------------------------------

  /** The keys `_.has` tests for the entries of the argument list. */
  function KeyOf(arg: Value): string
  {
    if arg.Str? then arg.s else ToStr(arg)
  }

  /** The entries `for…of` visits: array elements, or the characters of a
      string; None for a value that cannot be iterated. */
  function Iterated(arguments: Value): (r: Option<seq<Value>>)
    ensures !Truthy(arguments) ==> r == Some([])
    ensures arguments.Arr? ==> r == Some(arguments.items)
  {
    if !Truthy(arguments) then Some([])
    else
      match arguments
      case Arr(items) => Some(items)
      case Str(s) => Some(Characters(s))
      case _ => None
  }

  /** The characters of a string, each a string of its own. */
  function Characters(s: string): (r: seq<Value>)
    ensures |r| == |s|
  {
    if s == [] then [] else [Str([s[0]])] + Characters(s[1..])
  }

  /** `==` between the value and the default, for values of the same kind
      (and `null` with `undefined`); objects are distinct objects. */
  predicate LooseEquals(a: Value, b: Value)
  {
    (IsNil(a) && IsNil(b)) || StrictEquals(a, b)
  }

  /** `requiredWith(val)` on document `doc`: false exactly when every listed
      key is present and the value is null, undefined or equal to the
      default, templated defaults being interpolated first; wherever the
      written validator decides, it decides the same. */
  method RequiredWith(val: Value, doc: seq<Entry<Value>>, arguments: Value, defaultValue: Value, interp: string -> string)
    returns (r: Result<bool, ()>)
    ensures r.Err? <==> Iterated(arguments).None?
    ensures r.Ok? ==>
      var def := if defaultValue.Str? && IsTemplate(defaultValue.s) then Str(interp(defaultValue.s)) else defaultValue;
      var args := Iterated(arguments).value;
      (r.value == false <==>
        (forall k | 0 <= k < |args| :: Has(doc, KeyOf(args[k]))) && (IsNil(val) || LooseEquals(val, def)))
    ensures RequiredWithAsWritten(val, doc, arguments, defaultValue).Ok? ==> r == RequiredWithAsWritten(val, doc, arguments, defaultValue)
  {
    var iterated := Iterated(arguments);
    if iterated.None? {
      return Err(());
    }
    var args := iterated.value;
    var all := true;
    var i := 0;
    while i < |args|
      invariant 0 <= i <= |args|
      invariant all <==> forall k | 0 <= k < i :: Has(doc, KeyOf(args[k]))
    {
      all := all && Has(doc, KeyOf(args[i]));
      i := i + 1;
    }
    var def := if defaultValue.Str? && IsTemplate(defaultValue.s) then Str(interp(defaultValue.s)) else defaultValue;
    if all && (IsNil(val) || LooseEquals(val, def)) {
      r := Ok(false);
    } else {
      r := Ok(true);
    }
  }

  /** `requiredWith` as written: once every key is present and the value is
      not null or undefined, `utils.isTemplate(defaultValue)` raises on a
      truthy default that is not a string (it calls `substr` on it, or, for
      an array that reads as a template, interpolates it), and
      `utils.interpolate(defaultValue)` with no scope raises for a templated
      string default. */
  function RequiredWithAsWritten(val: Value, doc: seq<Entry<Value>>, arguments: Value, defaultValue: Value): (r: Result<bool, ()>)
  {
    match Iterated(arguments)
    case None => Err(())
    case Some(args) =>
      var all := forall k | 0 <= k < |args| :: Has(doc, KeyOf(args[k]));
      if !all || IsNil(val) then Ok(!(all && IsNil(val)))
      else if Truthy(defaultValue) && !defaultValue.Str? then Err(())
      else if defaultValue.Str? && IsTemplate(defaultValue.s) then Err(())
      else Ok(!LooseEquals(val, defaultValue))
  }

  /** The listed key present and a value set: with a templated default, and
      with a numeric one, the written validator raises (in `interpolate`, and
      in `isTemplate`) where the intended one decides. */
  method RequiredWithCounterexample(interp: string -> string)
    returns (written: Result<bool, ()>, intended: Result<bool, ()>, numberWritten: Result<bool, ()>, numberIntended: Result<bool, ()>)
    ensures written.Err? && intended.Ok?
    ensures numberWritten.Err? && numberIntended == Ok(false)
  {
    var doc := [Entry("a", Str("x"))];
    var args := Arr([Str("a")]);
    assert IsTemplate("$user") by {
      assert "$user"[0] == '$' && IsIdentChar("$user"[1]);
    }
    assert Has(doc, KeyOf(Str("a"))) by {
      assert Keys(doc)[0] == "a";
    }
    written := RequiredWithAsWritten(Str("y"), doc, args, Str("$user"));
    intended := RequiredWith(Str("y"), doc, args, Str("$user"), interp);
    numberWritten := RequiredWithAsWritten(Num(5), doc, args, Num(5));
    numberIntended := RequiredWith(Num(5), doc, args, Num(5), interp);
  }

  // ---------------------------------------------------------------------------
  // Unique conditions
  // ---------------------------------------------------------------------------

  /** The characters `[-\/\\^$*+?.()|[\]{}]` escapes. */
  const RegexSpecials: string := "-/\\^$*+?.()|[]{}"

  /** `value.replace(/[-\/\\^$*+?.()|[\]{}]/g, '\\$&')`. */
  function EscapeRegex(s: string): string
  {
    if s == [] then []
    else (if s[0] in RegexSpecials then ['\\', s[0]] else [s[0]]) + EscapeRegex(s[1..])
  }

  /** The text a pattern made only of literal characters and escaped special
      characters matches. */
  function Unescape(p: string): string
  {
    if p == [] then []
    else if p[0] == '\\' && |p| >= 2 then [p[1]] + Unescape(p[2..])
    else [p[0]] + Unescape(p[1..])
  }

  /** A pattern in which every special character is escaped. */
  predicate Literal(p: string)
  {
    if p == [] then true
    else if p[0] == '\\' then |p| >= 2 && p[1] in RegexSpecials && Literal(p[2..])
    else p[0] !in RegexSpecials && Literal(p[1..])
  }

  /** The escaped value is a literal pattern matching exactly the value. */
  lemma {:induction false} EscapeRegexLiteral(s: string)
    ensures Literal(EscapeRegex(s))
    ensures Unescape(EscapeRegex(s)) == s
  {
    if s != [] {
      EscapeRegexLiteral(s[1..]);
      var e := EscapeRegex(s);
      if s[0] in RegexSpecials {
        assert e == ['\\', s[0]] + EscapeRegex(s[1..]);
        assert e[2..] == EscapeRegex(s[1..]);
      } else {
        assert '\\' in RegexSpecials;
        assert e[1..] == EscapeRegex(s[1..]);
      }
    }
  }

  /** One criterion of the query object. */
  datatype Criterion =
    | Equals(value: Value)
    | Matches(pattern: string, flags: string)

  /** What getCondition raises: a TypeError, swallowed by the `catch` around
      it, so the validation promise never settles. */
  datatype ConditionError = TypeError

  /** `_.get(doc, key)` for a top-level key. */
  function DocGet(doc: Value, key: string): Value
  {
    if doc.Obj? then Get(doc.fields, key) else Undefined
  }

  lemma {:induction false} FindIsField(fields: seq<Entry<Value>>, key: string)
    requires Find(fields, key).Some?
    ensures exists k | 0 <= k < |fields| :: fields[k].val == Find(fields, key).value
  {
    if fields[0].key != key {
      FindIsField(fields[1..], key);
      var k :| 0 <= k < |fields[1..]| && fields[1..][k].val == Find(fields[1..], key).value;
      assert fields[k + 1].val == Find(fields, key).value;
    }
  }

  /** A field read from a document is smaller than the document, which is
      what bounds getCondition's descent into sub-documents. */
  lemma FieldSmaller(doc: Value, key: string)
    ensures DocGet(doc, key) == Undefined || DocGet(doc, key) < doc
  {
    if doc.Obj? && Find(doc.fields, key).Some? {
      FindIsField(doc.fields, key);
      var k :| 0 <= k < |doc.fields| && doc.fields[k].val == Find(doc.fields, key).value;
      assert doc.fields[k].val < doc;
    }
  }

  function KeyIn(parentPath: string, name: string): string
  {
    (if parentPath != "" then parentPath + "." else "") + name
  }

  /** The anchored, case-insensitive pattern for a string value, its special
      characters escaped, then Turkish-folded when asked (`sensitive` picks
      the table, as getTurkishRegexSearchStringPassTurkishCharacters does). */
  function InsensitivePattern(value: string, turkish: bool, sensitive: bool): Criterion
  {
    var escaped := EscapeRegex(value);
    var current := if turkish then Expand(if sensitive then FoldSameCase else FoldAll, escaped) else escaped;
    Matches("^" + current + "$", "i")
  }

  /** The property names of a type as getCondition passes them down:
      objects `{path, insensitive}` when insensitive, else the names. */
  function SubPaths(getProperties: Option<string> -> seq<Property>, typeName: Option<string>, insensitive: bool): seq<Value>
  {
    var ps := getProperties(typeName);
    seq(|ps|, k requires 0 <= k < |ps| =>
      if insensitive then Obj([Entry("path", Str(ps[k].name)), Entry("insensitive", Bool(true))]) else Str(ps[k].name))
  }

  /** `options.type` of a property. */
  function ObjectType(p: Property): Option<string>
  {
    if p.options.Some? then p.options.value.typeName else None
  }

  /** A field of the document that holds a populated reference. */
  predicate Populated(v: Value)
  {
    Truthy(v) && !v.Str?
  }

  /** The key an entry of `paths` names: its `path`, or the entry itself. */
  function PathName(p: Value): string
  {
    var other := if p.Obj? && Has(p.fields, "path") then Get(p.fields, "path") else p;
    if other.Str? then other.s else ToStr(other)
  }

  /** Whether an entry of `paths` asks for a case-insensitive comparison: its
      own `insensitive` when it has one, else the caller's. */
  function WantsInsensitive(p: Value, insensitive: bool): bool
  {
    if p.Obj? && Has(p.fields, "insensitive") then Truthy(Get(p.fields, "insensitive")) else insensitive
  }

  /** The criterion for one entry of `paths` with the value `v`. */
  function PathCriterion(p: Value, v: Value, insensitive: bool): Criterion
  {
    var pInsensitive := if p.Obj? then Get(p.fields, "insensitive") else Undefined;
    if Truthy(v) && WantsInsensitive(p, insensitive) && v.Str?
    then InsensitivePattern(v.s, p.Obj? && Truthy(Get(p.fields, "turkish")), !Truthy(pInsensitive))
    else Equals(if Truthy(v) then v else Null)
  }

  /** The criterion for the validated property itself with the value `v`. */
  function MainCriterion(v: Value, insensitive: bool, turkish: bool): Criterion
  {
    if Truthy(v) && insensitive && v.Str? then InsensitivePattern(v.s, turkish, false)
    else Equals(if Truthy(v) then v else Null)
  }

  // In what follows `getProperties` stands for `manager.getProperties`
  // (Domain.Properties over the manager's types, `[]` for an undefined type
  // name); getCondition only looks properties up in its result.

  /** getCondition(typeName, paths, doc, insensitive, turkishUnique,
      parentPath) for the property `propertyName`, as intended: a populated
      reference is compared by its `_id`, an object-typed property
      contributes the conditions of its own fields (of its own type), and a
      value that is not a string is compared as it is. */
  function Condition(getProperties: Option<string> -> seq<Property>, propertyName: string, typeName: Option<string>,
                     paths: seq<Value>, doc: Value, insensitive: bool, turkish: bool, parentPath: string): (r: seq<Entry<Criterion>>)
    decreases doc, 1, 0
  {
    var mainProp := FindByName(getProperties(typeName), propertyName);
    var field := DocGet(doc, propertyName);
    var main :=
      if mainProp.Some? && mainProp.value.kind == ObjectKind && Truthy(field) then
        FieldSmaller(doc, propertyName);
        var subType := ObjectType(mainProp.value);
        Condition(getProperties, propertyName, subType, SubPaths(getProperties, subType, insensitive),
                  field, insensitive, turkish, propertyName)
      else
        var v := if mainProp.Some? && mainProp.value.kind == ReferenceKind && Populated(field)
                 then DocGet(field, "_id") else field;
        [Entry(KeyIn(parentPath, propertyName), MainCriterion(v, insensitive, turkish))];
    PathConditions(getProperties, propertyName, typeName, paths, 0, doc, insensitive, parentPath, main)
  }

  /** The loop over `paths` of the intended getCondition, from index `i`. */
  function PathConditions(getProperties: Option<string> -> seq<Property>, propertyName: string, typeName: Option<string>,
                          paths: seq<Value>, i: nat, doc: Value, insensitive: bool, parentPath: string,
                          acc: seq<Entry<Criterion>>): (r: seq<Entry<Criterion>>)
    decreases doc, 0, |paths| - i
  {
    if i >= |paths| then acc
    else
      var p := paths[i];
      var name := PathName(p);
      var prop := FindByName(getProperties(typeName), name);
      var field := DocGet(doc, name);
      var pInsensitive := p.Obj? && Truthy(Get(p.fields, "insensitive"));
      var next :=
        if prop.Some? && prop.value.kind == ObjectKind && Truthy(field) then
          FieldSmaller(doc, name);
          var subType := ObjectType(prop.value);
          AssignIn(acc, Condition(getProperties, propertyName, subType, SubPaths(getProperties, subType, pInsensitive),
                                  field, pInsensitive, p.Obj? && Truthy(Get(p.fields, "turkishUnique")), name))
        else
          var v := if prop.Some? && prop.value.kind == ReferenceKind && Populated(field) then DocGet(field, "_id") else field;
          Put(acc, KeyIn(parentPath, name), PathCriterion(p, v, insensitive));
      PathConditions(getProperties, propertyName, typeName, paths, i + 1, doc, insensitive, parentPath, next)
  }

  /** getCondition as written: reassigning the `const` bindings `value`
      (line 199) and `condition` (lines 204 and 244) raises, and so does
      `replace` on a value that is not a string (lines 211 and 233). */
  function ConditionAsWritten(getProperties: Option<string> -> seq<Property>, propertyName: string, typeName: Option<string>,
                              paths: seq<Value>, doc: Value, insensitive: bool, turkish: bool, parentPath: string)
    : (r: Result<seq<Entry<Criterion>>, ConditionError>)
  {
    var mainProp := FindByName(getProperties(typeName), propertyName);
    var value := DocGet(doc, propertyName);
    if mainProp.Some? && mainProp.value.kind == ReferenceKind && Populated(value) then Err(TypeError)
    else if mainProp.Some? && mainProp.value.kind == ObjectKind && Truthy(value) then Err(TypeError)
    else if Truthy(value) && insensitive && !value.Str? then Err(TypeError)
    else PathsAsWritten(getProperties, typeName, paths, 0, doc, insensitive, parentPath,
                        [Entry(KeyIn(parentPath, propertyName), MainCriterion(value, insensitive, turkish))])
  }

  /** The loop over `paths` as written. The reference branch at line 239 is
      never taken: the field it tests is the string `replace` was called on. */
  function PathsAsWritten(getProperties: Option<string> -> seq<Property>, typeName: Option<string>, paths: seq<Value>, i: nat,
                          doc: Value, insensitive: bool, parentPath: string, acc: seq<Entry<Criterion>>)
    : (r: Result<seq<Entry<Criterion>>, ConditionError>)
    decreases |paths| - i
  {
    if i >= |paths| then Ok(acc)
    else
      var p := paths[i];
      var name := PathName(p);
      var pathValue := DocGet(doc, name);
      var prop := FindByName(getProperties(typeName), name);
      if !pathValue.Str? then Err(TypeError)
      else if prop.Some? && prop.value.kind == ObjectKind && Truthy(pathValue) then Err(TypeError)
      else PathsAsWritten(getProperties, typeName, paths, i + 1, doc, insensitive, parentPath,
                          Put(acc, KeyIn(parentPath, name), PathCriterion(p, pathValue, insensitive)))
  }

  /** Where the loop of the written getCondition over `paths` gets through,
      it builds the intended entries: each path names a string field that is
      not object-typed, which the intended loop compares as it is. */
  lemma {:induction false} PathsAgree(getProperties: Option<string> -> seq<Property>, propertyName: string, typeName: Option<string>,
                                      paths: seq<Value>, i: nat, doc: Value, insensitive: bool, parentPath: string,
                                      acc: seq<Entry<Criterion>>)
    requires PathsAsWritten(getProperties, typeName, paths, i, doc, insensitive, parentPath, acc).Ok?
    ensures PathsAsWritten(getProperties, typeName, paths, i, doc, insensitive, parentPath, acc) ==
      Ok(PathConditions(getProperties, propertyName, typeName, paths, i, doc, insensitive, parentPath, acc))
    decreases |paths| - i
  {
    if i < |paths| {
      var name := PathName(paths[i]);
      var field := DocGet(doc, name);
      var prop := FindByName(getProperties(typeName), name);
      assert field.Str? && !(prop.Some? && prop.value.kind == ObjectKind && Truthy(field));
      assert !Populated(field);
      var next := Put(acc, KeyIn(parentPath, name), PathCriterion(paths[i], field, insensitive));
      assert PathsAsWritten(getProperties, typeName, paths, i, doc, insensitive, parentPath, acc) ==
             PathsAsWritten(getProperties, typeName, paths, i + 1, doc, insensitive, parentPath, next);
      assert PathConditions(getProperties, propertyName, typeName, paths, i, doc, insensitive, parentPath, acc) ==
             PathConditions(getProperties, propertyName, typeName, paths, i + 1, doc, insensitive, parentPath, next);
      PathsAgree(getProperties, propertyName, typeName, paths, i + 1, doc, insensitive, parentPath, next);
    }
  }

  /** Where the written getCondition does not raise, it builds the intended
      condition: the two differ only on the inputs the findings name. */
  lemma ConditionAgrees(getProperties: Option<string> -> seq<Property>, propertyName: string, typeName: Option<string>,
                        paths: seq<Value>, doc: Value, insensitive: bool, turkish: bool, parentPath: string)
    requires ConditionAsWritten(getProperties, propertyName, typeName, paths, doc, insensitive, turkish, parentPath).Ok?
    ensures ConditionAsWritten(getProperties, propertyName, typeName, paths, doc, insensitive, turkish, parentPath) ==
      Ok(Condition(getProperties, propertyName, typeName, paths, doc, insensitive, turkish, parentPath))
  {
    var mainProp := FindByName(getProperties(typeName), propertyName);
    var value := DocGet(doc, propertyName);
    var main := [Entry(KeyIn(parentPath, propertyName), MainCriterion(value, insensitive, turkish))];
    PathsAgree(getProperties, propertyName, typeName, paths, 0, doc, insensitive, parentPath, main);
  }

  /** An insensitive unique check on a plain string value: the condition is
      the anchored pattern of the escaped value with flag `i`, a pattern that
      matches exactly that text. */
  lemma InsensitiveCondition(getProperties: Option<string> -> seq<Property>, propertyName: string, typeName: Option<string>,
                             doc: Value, parentPath: string)
    requires DocGet(doc, propertyName).Str? && DocGet(doc, propertyName).s != ""
    requires var mainProp := FindByName(getProperties(typeName), propertyName);
      mainProp.None? || mainProp.value.kind != ObjectKind
    ensures var value := DocGet(doc, propertyName).s;
      Condition(getProperties, propertyName, typeName, [], doc, true, false, parentPath) ==
        [Entry(KeyIn(parentPath, propertyName), Matches("^" + EscapeRegex(value) + "$", "i"))] &&
      Literal(EscapeRegex(value)) && Unescape(EscapeRegex(value)) == value
  {
    var field := DocGet(doc, propertyName);
    EscapeRegexLiteral(field.s);
    var main := [Entry(KeyIn(parentPath, propertyName), MainCriterion(field, true, false))];
    assert PathConditions(getProperties, propertyName, typeName, [], 0, doc, true, parentPath, main) == main;
  }

  /** Populated reference (line 199), as written: the code raises. */
  lemma PopulatedReferenceAsWritten(getProperties: Option<string> -> seq<Property>, propertyName: string, typeName: Option<string>,
                                    doc: Value, p: Property)
    requires FindByName(getProperties(typeName), propertyName) == Some(p) && p.kind == ReferenceKind
    requires DocGet(doc, propertyName).Obj?
    ensures ConditionAsWritten(getProperties, propertyName, typeName, [], doc, false, false, "").Err?
  {
    assert Populated(DocGet(doc, propertyName));
  }

  /** Populated reference (line 199), corrected: the condition compares the
      reference's `_id`. */
  lemma PopulatedReferenceCorrected(getProperties: Option<string> -> seq<Property>, propertyName: string, typeName: Option<string>,
                                    doc: Value, p: Property)
    requires FindByName(getProperties(typeName), propertyName) == Some(p) && p.kind == ReferenceKind
    requires DocGet(doc, propertyName).Obj?
    ensures var id := DocGet(DocGet(doc, propertyName), "_id");
      Condition(getProperties, propertyName, typeName, [], doc, false, false, "") ==
        [Entry(propertyName, Equals(if Truthy(id) then id else Null))]
  {
    var field := DocGet(doc, propertyName);
    var id := DocGet(field, "_id");
    var main := [Entry(propertyName, MainCriterion(id, false, false))];
    assert Condition(getProperties, propertyName, typeName, [], doc, false, false, "") ==
           PathConditions(getProperties, propertyName, typeName, [], 0, doc, false, "", main) by {
      assert Populated(field);
      assert KeyIn("", propertyName) == propertyName;
    }
    assert MainCriterion(id, false, false) == Equals(if Truthy(id) then id else Null);
  }

  /** Object-typed property (line 204): the written code raises; the
      intended condition is the one built for the object's own fields. */
  lemma ObjectPropertyCounterexample(getProperties: Option<string> -> seq<Property>, propertyName: string, typeName: Option<string>,
                                     doc: Value, p: Property)
    requires FindByName(getProperties(typeName), propertyName) == Some(p) && p.kind == ObjectKind
    requires Truthy(DocGet(doc, propertyName))
    ensures ConditionAsWritten(getProperties, propertyName, typeName, [], doc, false, false, "").Err?
    ensures Condition(getProperties, propertyName, typeName, [], doc, false, false, "") ==
      Condition(getProperties, propertyName, ObjectType(p), SubPaths(getProperties, ObjectType(p), false),
                DocGet(doc, propertyName), false, false, propertyName)
  {
    FieldSmaller(doc, propertyName);
    var sub := Condition(getProperties, propertyName, ObjectType(p), SubPaths(getProperties, ObjectType(p), false),
                         DocGet(doc, propertyName), false, false, propertyName);
    assert PathConditions(getProperties, propertyName, typeName, [], 0, doc, false, "", sub) == sub;
  }

  /** The document `{name: "x", age: 7}` of the two examples below. */
  function NumberDoc(): Value
  {
    Obj([Entry("name", Str("x")), Entry("age", Num(7))])
  }

  /** A second path whose value is a number (line 233), as written: the loop
      raises. */
  lemma NumberPathAsWritten(getProperties: Option<string> -> seq<Property>)
    requires getProperties(None) == []
    ensures ConditionAsWritten(getProperties, "name", None, [Str("age")], NumberDoc(), false, false, "").Err?
  {
    var doc := NumberDoc();
    assert DocGet(doc, "name") == Str("x");
    assert DocGet(doc, "age") == Num(7);
    assert PathName(Str("age")) == "age";
  }

  /** A second path whose value is a number (line 233), corrected: the
      condition compares the number as it is. */
  lemma NumberPathCorrected(getProperties: Option<string> -> seq<Property>)
    requires getProperties(None) == []
    ensures Condition(getProperties, "name", None, [Str("age")], NumberDoc(), false, false, "") ==
      [Entry("name", Equals(Str("x"))), Entry("age", Equals(Num(7)))]
  {
    NumberMainEntry(getProperties);
    NumberAgeEntry(getProperties);
  }

  /** The entry of the main property `name` in the example above. */
  lemma NumberMainEntry(getProperties: Option<string> -> seq<Property>)
    requires getProperties(None) == []
    ensures Condition(getProperties, "name", None, [Str("age")], NumberDoc(), false, false, "") ==
      PathConditions(getProperties, "name", None, [Str("age")], 0, NumberDoc(), false, "", [Entry("name", Equals(Str("x")))])
  {
    assert DocGet(NumberDoc(), "name") == Str("x");
    assert KeyIn("", "name") == "name";
  }

  /** The entry of the path `age` in the example above. */
  lemma NumberAgeEntry(getProperties: Option<string> -> seq<Property>)
    requires getProperties(None) == []
    ensures PathConditions(getProperties, "name", None, [Str("age")], 0, NumberDoc(), false, "", [Entry("name", Equals(Str("x")))]) ==
      [Entry("name", Equals(Str("x"))), Entry("age", Equals(Num(7)))]
  {
    var main := [Entry("name", Equals(Str("x")))];
    var next := main + [Entry("age", Equals(Num(7)))];
    AgeCriterion();
    assert Put(main, "age", Equals(Num(7))) == next;
    assert FindByName(getProperties(None), "age") == None;
    assert PathConditions(getProperties, "name", None, [Str("age")], 0, NumberDoc(), false, "", main) ==
      PathConditions(getProperties, "name", None, [Str("age")], 1, NumberDoc(), false, "", next);
  }

  /** The path `age` of the example reads 7 and asks for that value. */
  lemma AgeCriterion()
    ensures DocGet(NumberDoc(), "age") == Num(7) && PathName(Str("age")) == "age" && KeyIn("", "age") == "age"
    ensures PathCriterion(Str("age"), Num(7), false) == Equals(Num(7))
  {
    assert DocGet(NumberDoc(), "age") == Num(7);
  }
}
