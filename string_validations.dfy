// The argument shaping of src/mongoose/string.validations.js. The declared
// `options.validations` of a property are rewritten in place (templated
// arguments interpolated, the locale added for the validators that need it)
// and copied, with the message of the current locale, into the list handed to
// the validator builder. Also the two custom validators it registers.
module StringValidations {
  import opened Wrappers
  import opened Json
  import opened Utils
  import opened Strings
  import opened Domain
  import opened Seqs

  /** One record of the returned list. */
  datatype StringValidation = StringValidation(
    validator: string,
    arguments: Value,
    message: Value,
    passIfEmpty: Value)

  datatype ValidationError =
    | NullProperty
      // `decimalOptions.locale = …` on a null or undefined first argument
    | NotAnObject(validator: string)
      // `isTemplate` on a truthy argument that is neither an array nor a string
    | BadArguments(validator: string)
      // `validation.message[locale]` on a validation without a message
    | NoMessage(validator: string)

  const DefaultLocales: seq<string> := ["en", "tr"]

  /** The locale the validations are built for: an unknown locale becomes `en`. */
  function EffectiveLocale(locale: string): (r: string)
    ensures r in DefaultLocales
    ensures r == locale <==> locale in DefaultLocales
  {
    if locale in DefaultLocales then locale else "en"
  }

  /** `validationsRequiredLocaleInArgs`. */
  const LocaleInArguments: seq<string> := ["isAlpha", "isAlphanumeric"]

  /** `validationsRequiredLocaleInOptions`. */
  const LocaleInOptions: seq<string> := ["isDecimal", "isFloat"]

  /** One array argument: a templated string is interpolated, anything else kept. */
  function InterpolateArgument(a: Value, interp: string -> string): Value
  {
    if a.Str? && IsTemplate(a.s) then Str(interp(a.s)) else a
  }

  function InterpolateAll(items: seq<Value>, interp: string -> string): (r: seq<Value>)
    ensures |r| == |items|
    ensures forall k | 0 <= k < |items| :: r[k] == InterpolateArgument(items[k], interp)
  {
    seq(|items|, k requires 0 <= k < |items| => InterpolateArgument(items[k], interp))
  }

  /** The arguments as stored back into the validation, and the error raised
      while shaping them, if any (the arguments are rewritten before the
      error). */
  datatype Shaped = Shaped(arguments: Value, failure: Option<ValidationError>)

  /** `decimalOptions.locale = d`: an object takes the field; a property write
      on any other non-null value is lost. */
  function SetLocale(first: Value, d: Value): (r: Result<Value, ()>)
    ensures r.Err? <==> IsNil(first)
    ensures first.Obj? ==> r == Ok(Obj(Put(first.fields, "locale", d)))
  {
    match first
    case Obj(fs) => Ok(Obj(Put(fs, "locale", d)))
    case Undefined => Err(())
    case Null => Err(())
    case _ => Ok(first)
  }

  /** Lines 44-82 for one validation, with `localeDefault` the `default` of
      the locale record of the current locale, if there is one. */
  function ShapeArguments(v: Validation, interp: string -> string, localeDefault: Option<Value>): (r: Shaped)
  {
    match v.arguments
    case Arr(items) =>
      var mapped := InterpolateAll(items, interp);
      if v.validator in LocaleInArguments then
        Shaped(Arr(if localeDefault.Some? then mapped + [localeDefault.value] else mapped), None)
      else if v.validator in LocaleInOptions && |mapped| > 0 && localeDefault.Some? then
        match SetLocale(mapped[0], localeDefault.value)
        case Ok(first) => Shaped(Arr([first] + mapped[1..]), None)
        case Err(_) => Shaped(Arr(mapped), Some(NotAnObject(v.validator)))
      else Shaped(Arr(mapped), None)
    case Str(s) => Shaped(if IsTemplate(s) then Str(interp(s)) else v.arguments, None)
    case _ => Shaped(v.arguments, if Truthy(v.arguments) then Some(BadArguments(v.validator)) else None)
  }

  /** Interpolation keeps every array argument in its position: templates are
      interpolated and every other value is kept as it is. */
  lemma ArgumentsKeepPositions(v: Validation, interp: string -> string, localeDefault: Option<Value>)
    requires v.arguments.Arr?
    requires v.validator !in LocaleInArguments && v.validator !in LocaleInOptions
    ensures var r := ShapeArguments(v, interp, localeDefault);
      r.failure.None? && r.arguments.Arr? && |r.arguments.items| == |v.arguments.items| &&
      forall k | 0 <= k < |v.arguments.items| ::
        var a := v.arguments.items[k];
        (a.Str? && IsTemplate(a.s) ==> r.arguments.items[k] == Str(interp(a.s))) &&
        (!(a.Str? && IsTemplate(a.s)) ==> r.arguments.items[k] == a)
  {
  }

  /** `isAlpha` and `isAlphanumeric` get the locale default as their last
      argument, after the interpolated ones. */
  lemma LocaleAppended(v: Validation, interp: string -> string, d: Value)
    requires v.arguments.Arr? && v.validator in LocaleInArguments
    ensures var r := ShapeArguments(v, interp, Some(d));
      r.failure.None? && r.arguments.Arr? &&
      |r.arguments.items| == |v.arguments.items| + 1 &&
      r.arguments.items[|v.arguments.items|] == d &&
      r.arguments.items[..|v.arguments.items|] == InterpolateAll(v.arguments.items, interp)
  {
    assert "isAlpha" !in LocaleInOptions && "isAlphanumeric" !in LocaleInOptions;
  }

  /** `isDecimal` and `isFloat` with a first argument object: that object gets
      a `locale` field and nothing else changes. */
  lemma LocaleInFirstOption(v: Validation, interp: string -> string, d: Value)
    requires v.arguments.Arr? && v.validator in LocaleInOptions
    requires |v.arguments.items| > 0 && InterpolateArgument(v.arguments.items[0], interp).Obj?
    ensures var r := ShapeArguments(v, interp, Some(d));
      var first := InterpolateArgument(v.arguments.items[0], interp);
      r.failure.None? && r.arguments.Arr? && |r.arguments.items| == |v.arguments.items| &&
      r.arguments.items[0].Obj? &&
      Find(r.arguments.items[0].fields, "locale") == Some(d) &&
      (forall key | key != "locale" :: Find(r.arguments.items[0].fields, key) == Find(first.fields, key)) &&
      forall k | 1 <= k < |v.arguments.items| :: r.arguments.items[k] == InterpolateArgument(v.arguments.items[k], interp)
  {
    var mapped := InterpolateAll(v.arguments.items, interp);
    var put := Obj(Put(InterpolateArgument(v.arguments.items[0], interp).fields, "locale", d));
    LocaleOptionShaped(v, interp, d);
    ConsTail(put, mapped[1..]);
    forall k | 1 <= k < |v.arguments.items| ensures ([put] + mapped[1..])[k] == mapped[k] {
    }
  }

  /** The shaped arguments of `isDecimal` and `isFloat` with a first
      argument object. */
  lemma LocaleOptionShaped(v: Validation, interp: string -> string, d: Value)
    requires v.arguments.Arr? && v.validator in LocaleInOptions
    requires |v.arguments.items| > 0 && InterpolateArgument(v.arguments.items[0], interp).Obj?
    ensures ShapeArguments(v, interp, Some(d)) ==
      Shaped(Arr([Obj(Put(InterpolateArgument(v.arguments.items[0], interp).fields, "locale", d))] +
                 InterpolateAll(v.arguments.items, interp)[1..]), None)
  {
    assert "isDecimal" !in LocaleInArguments && "isFloat" !in LocaleInArguments;
  }

  /** The record pushed for a shaped validation (lines 83-90); None when the
      validation has no message object to index. */
  function Output(v: Validation, locale: string): Option<StringValidation>
  {
    match v.message
    case None => None
    case Some(m) =>
      Some(StringValidation(v.validator, v.arguments, if locale in m then Str(m[locale]) else Undefined, v.passIfEmpty))
  }

  /** What one entry of the list becomes, and what it contributes. */
  datatype Step = Step(stored: Option<Validation>, out: Result<Option<StringValidation>, ValidationError>)

  function StepOf(v: Option<Validation>, locale: string, interp: string -> string, localeDefault: Option<Value>): Step
  {
    match v
    case None => Step(None, Ok(None))
    case Some(val) =>
      var sh := ShapeArguments(val, interp, localeDefault);
      var stored := val.(arguments := sh.arguments);
      if sh.failure.Some? then Step(Some(stored), Err(sh.failure.value))
      else
        match Output(stored, locale)
        case None => Step(Some(stored), Err(NoMessage(val.validator)))
        case Some(o) => Step(Some(stored), Ok(Some(o)))
  }

  /** The list as left in place, and the returned list or the error raised. */
  datatype Run = Run(stored: seq<Option<Validation>>, out: Result<seq<StringValidation>, ValidationError>)

  /** One more entry after `pre`: nothing happens once an error was raised. */
  function Extend(pre: Run, last: Option<Validation>, locale: string, interp: string -> string,
                  localeDefault: Option<Value>): (r: Run)
    ensures |r.stored| == |pre.stored| + 1 && r.stored[..|pre.stored|] == pre.stored
  {
    if pre.out.Err? then Run(pre.stored + [last], pre.out)
    else
      var s := StepOf(last, locale, interp, localeDefault);
      Run(pre.stored + [s.stored],
          match s.out
          case Err(e) => Err(e)
          case Ok(o) => Ok(pre.out.value + (if o.Some? then [o.value] else [])))
  }

  /** The loop over `options.validations`: entries after the first error are
      left untouched. */
  function ShapeAll(vs: seq<Option<Validation>>, locale: string, interp: string -> string, localeDefault: Option<Value>): (r: Run)
    ensures |r.stored| == |vs|
  {
    if vs == [] then Run([], Ok([]))
    else Extend(ShapeAll(vs[..|vs| - 1], locale, interp, localeDefault), vs[|vs| - 1], locale, interp, localeDefault)
  }

  lemma ShapeAllSnoc(vs: seq<Option<Validation>>, i: nat, locale: string, interp: string -> string,
                     localeDefault: Option<Value>)
    requires i < |vs|
    ensures ShapeAll(vs[..i + 1], locale, interp, localeDefault) ==
      Extend(ShapeAll(vs[..i], locale, interp, localeDefault), vs[i], locale, interp, localeDefault)
  {
    assert vs[..i + 1][..i] == vs[..i];
  }

  lemma {:induction false} ShapeAllAfterError(vs: seq<Option<Validation>>, k: nat, locale: string, interp: string -> string,
                                              localeDefault: Option<Value>)
    requires 0 < k <= |vs|
    requires ShapeAll(vs[..k], locale, interp, localeDefault).out.Err?
    ensures ShapeAll(vs, locale, interp, localeDefault) ==
      Run(ShapeAll(vs[..k], locale, interp, localeDefault).stored + vs[k..], ShapeAll(vs[..k], locale, interp, localeDefault).out)
    decreases |vs| - k
  {
    if k < |vs| {
      assert vs[..|vs| - 1][..k] == vs[..k];
      ShapeAllAfterError(vs[..|vs| - 1], k, locale, interp, localeDefault);
      assert vs[..|vs| - 1][k..] + [vs[|vs| - 1]] == vs[k..];
    } else {
      assert vs[..k] == vs;
      assert vs[k..] == [];
    }
  }

  /** The records pushed for the entries of a list where every validation has
      a message: one per present entry, in order. */
  function Collected(stored: seq<Option<Validation>>, locale: string): seq<StringValidation>
  {
    if stored == [] then []
    else
      var last := stored[|stored| - 1];
      Collected(stored[..|stored| - 1], locale) +
        (if last.Some? && Output(last.value, locale).Some? then [Output(last.value, locale).value] else [])
  }

  /** In place, the loop changes only the arguments of the validations it
      reaches, and keeps absent entries absent. */
  lemma {:induction false} ShapeAllStored(vs: seq<Option<Validation>>, locale: string, interp: string -> string,
                                          localeDefault: Option<Value>)
    ensures var r := ShapeAll(vs, locale, interp, localeDefault);
      forall k | 0 <= k < |vs| ::
        (r.stored[k].None? <==> vs[k].None?) &&
        (vs[k].Some? ==> r.stored[k].value.(arguments := vs[k].value.arguments) == vs[k].value)
  {
    if vs != [] {
      var init := vs[..|vs| - 1];
      ShapeAllStored(init, locale, interp, localeDefault);
      var pre := ShapeAll(init, locale, interp, localeDefault);
      var r := ShapeAll(vs, locale, interp, localeDefault);
      ExtendStored(pre, vs[|vs| - 1], locale, interp, localeDefault);
      assert forall k | 0 <= k < |vs| - 1 :: vs[k] == init[k] && r.stored[k] == pre.stored[k];
    }
  }

  /** The entry one more step stores is absent exactly when the validation
      was, and differs from it at most in its arguments. */
  lemma ExtendStored(pre: Run, last: Option<Validation>, locale: string, interp: string -> string,
                     localeDefault: Option<Value>)
    ensures var r := Extend(pre, last, locale, interp, localeDefault);
      (r.stored[|pre.stored|].None? <==> last.None?) &&
      (last.Some? ==> r.stored[|pre.stored|].value.(arguments := last.value.arguments) == last.value)
  {
  }

  /** What the loop returns on success: one record per present validation,
      in input order, each carrying the message of the locale and
      `passIfEmpty`; every present validation had a message. */
  lemma {:induction false} ShapeAllCollected(vs: seq<Option<Validation>>, locale: string, interp: string -> string,
                                             localeDefault: Option<Value>)
    ensures var r := ShapeAll(vs, locale, interp, localeDefault);
      r.out.Ok? ==> MessagesPresent(vs, r.stored) && r.out.value == Collected(r.stored, locale)
  {
    if vs != [] {
      var init := vs[..|vs| - 1];
      var pre := ShapeAll(init, locale, interp, localeDefault);
      var r := ShapeAll(vs, locale, interp, localeDefault);
      assert r == Extend(pre, vs[|vs| - 1], locale, interp, localeDefault);
      if r.out.Ok? {
        ShapeAllCollected(init, locale, interp, localeDefault);
        assert pre.out.Ok?;
        ExtendCollected(init, pre, vs[|vs| - 1], locale, interp, localeDefault);
        FrontLast(vs);
      }
    }
  }

  /** Every present validation of `vs` is stored with a message. */
  predicate MessagesPresent(vs: seq<Option<Validation>>, stored: seq<Option<Validation>>)
  {
    |stored| == |vs| &&
    forall k | 0 <= k < |vs| :: vs[k].Some? ==> stored[k].Some? && stored[k].value.message.Some?
  }

  /** One more entry keeps the returned list equal to the records of the
      stored entries, and a present entry that passes has a message. */
  lemma ExtendCollected(init: seq<Option<Validation>>, pre: Run, last: Option<Validation>, locale: string,
                        interp: string -> string, localeDefault: Option<Value>)
    requires pre.out.Ok? && pre.out.value == Collected(pre.stored, locale) && MessagesPresent(init, pre.stored)
    requires Extend(pre, last, locale, interp, localeDefault).out.Ok?
    ensures var r := Extend(pre, last, locale, interp, localeDefault);
      MessagesPresent(init + [last], r.stored) && r.out.value == Collected(r.stored, locale)
  {
    var r := Extend(pre, last, locale, interp, localeDefault);
    var n := |pre.stored|;
    assert r.stored[..n] == pre.stored;
    assert Collected(r.stored, locale) == Collected(pre.stored, locale) +
      (if r.stored[n].Some? && Output(r.stored[n].value, locale).Some? then [Output(r.stored[n].value, locale).value] else []);
    var vs := init + [last];
    forall k | 0 <= k < |vs| && vs[k].Some?
      ensures r.stored[k].Some? && r.stored[k].value.message.Some?
    {
      if k < n {
        assert vs[k] == init[k] && r.stored[k] == pre.stored[k];
      }
    }
  }

  /** The body of the loop of getValidations on entry `i`: its arguments
      shaped and written back, then the record it contributes, if any. */
  method ShapeEntry(validations: array<Option<Validation>>, i: nat, loc: string, interp: string -> string,
                    localeDefault: Option<Value>)
    returns (out: Result<Option<StringValidation>, ValidationError>)
    requires i < validations.Length
    modifies validations
    ensures validations[..] == old(validations[..])[i := StepOf(old(validations[i]), loc, interp, localeDefault).stored]
    ensures out == StepOf(old(validations[i]), loc, interp, localeDefault).out
  {
    var v := validations[i];
    if v.None? {
      return Ok(None);
    }
    var sh := ShapeArguments(v.value, interp, localeDefault);
    var stored := v.value.(arguments := sh.arguments);
    validations[i] := Some(stored);
    if sh.failure.Some? {
      return Err(sh.failure.value);
    }
    if stored.message.None? {
      return Err(NoMessage(stored.validator));
    }
    var m := stored.message.value;
    return Ok(Some(StringValidation(stored.validator, stored.arguments,
                                    if loc in m then Str(m[loc]) else Undefined, stored.passIfEmpty)));
  }

  /** `getValidations(…, property, locale)` over `validations`, the property's
      `options.validations` array (empty when absent), which it rewrites in
      place; `locales` gives the `default` of the locale record with that
      symbol, if any. */
  method GetValidations(property: Option<Property>, validations: array<Option<Validation>>, locale: string,
                        interp: string -> string, locales: string -> Option<Value>)
    returns (r: Result<seq<StringValidation>, ValidationError>)
    modifies validations
    ensures property.None? ==> r == Err(NullProperty) && validations[..] == old(validations[..])
    ensures property.Some? ==>
      var loc := EffectiveLocale(locale);
      var run := ShapeAll(old(validations[..]), loc, interp, locales(loc));
      validations[..] == run.stored && r == run.out
  {
    if property.None? {
      return Err(NullProperty);
    }
    var loc := EffectiveLocale(locale);
    var localeDefault := locales(loc);
    ghost var vs := validations[..];
    ghost var run := Run([], Ok([]));
    var out: seq<StringValidation> := [];
    var i := 0;
    while i < validations.Length
      invariant 0 <= i <= validations.Length && validations.Length == |vs|
      invariant run == ShapeAll(vs[..i], loc, interp, localeDefault)
      invariant validations[..i] == run.stored
      invariant forall k | i <= k < |vs| :: validations[k] == vs[k]
      invariant run.out == Ok(out)
    {
      var step, next := ShapeNext(validations, i, loc, interp, localeDefault, vs, run);
      if step.Err? {
        AfterErrorStored(vs, i, validations[..], loc, interp, localeDefault);
        return Err(step.error);
      }
      if step.value.Some? {
        out := out + [step.value.value];
      } else {
        assert out + [] == out;
      }
      run := next;
      i := i + 1;
    }
    assert validations[..] == validations[..i];
    assert vs[..i] == vs;
    r := Ok(out);
  }

  /** One turn of the loop of getValidations on entry `i`, after the entries
      before it went through without an error. */
  method ShapeNext(validations: array<Option<Validation>>, i: nat, loc: string, interp: string -> string,
                   localeDefault: Option<Value>, ghost vs: seq<Option<Validation>>, ghost run: Run)
    returns (step: Result<Option<StringValidation>, ValidationError>, ghost next: Run)
    requires i < validations.Length == |vs|
    requires run == ShapeAll(vs[..i], loc, interp, localeDefault) && run.out.Ok?
    requires validations[..i] == run.stored && forall k | i <= k < |vs| :: validations[k] == vs[k]
    modifies validations
    ensures next == ShapeAll(vs[..i + 1], loc, interp, localeDefault)
    ensures validations[..i + 1] == next.stored && forall k | i + 1 <= k < |vs| :: validations[k] == vs[k]
    ensures step.Err? ==> next.out == Err(step.error)
    ensures step.Ok? ==> next.out == Ok(run.out.value + if step.value.Some? then [step.value.value] else [])
  {
    ShapeAllSnoc(vs, i, loc, interp, localeDefault);
    next := Extend(run, vs[i], loc, interp, localeDefault);
    step := ShapeEntry(validations, i, loc, interp, localeDefault);
    assert validations[..i + 1] == next.stored;
  }

  /** Once entry `i` raised an error, the rest of the list is as it was. */
  lemma AfterErrorStored(vs: seq<Option<Validation>>, i: nat, a: seq<Option<Validation>>, loc: string,
                         interp: string -> string, localeDefault: Option<Value>)
    requires i < |vs| == |a|
    requires ShapeAll(vs[..i + 1], loc, interp, localeDefault).out.Err?
    requires a[..i + 1] == ShapeAll(vs[..i + 1], loc, interp, localeDefault).stored
    requires forall k | i + 1 <= k < |vs| :: a[k] == vs[k]
    ensures ShapeAll(vs, loc, interp, localeDefault) == Run(a, ShapeAll(vs[..i + 1], loc, interp, localeDefault).out)
  {
    ShapeAllAfterError(vs, i + 1, loc, interp, localeDefault);
    assert a == a[..i + 1] + vs[i + 1..];
  }

  // ---------------------------------------------------------------------------
  // Custom validators
  // ---------------------------------------------------------------------------

  /** `===` between two values: objects and arrays are distinct objects here,
      so only primitive values can be equal. */
  predicate StrictEquals(a: Value, b: Value)
  {
    a == b && !a.Arr? && !a.Obj?
  }

  /** `list.indexOf(val)`. */
  function IndexOf(list: seq<Value>, val: Value): (r: int)
    ensures -1 <= r < |list|
    ensures r == -1 <==> forall k | 0 <= k < |list| :: !StrictEquals(list[k], val)
    ensures r >= 0 ==> StrictEquals(list[r], val) && forall k | 0 <= k < r :: !StrictEquals(list[k], val)
  {
    if list == [] then -1
    else if StrictEquals(list[0], val) then 0
    else
      var r := IndexOf(list[1..], val);
      assert forall k | 1 <= k < |list| :: list[k] == list[1..][k - 1];
      if r == -1 then -1 else r + 1
  }

  /** `s.indexOf(t) != -1` on strings. */
  predicate Contains(s: string, t: string)
  {
    exists i | 0 <= i <= |s| :: StartsWith(s[i..], t)
  }

  /** `inList(val, ...args)`: `args[0].indexOf(val) != -1`; a missing first
      argument, or one without `indexOf`, raises an error. */
  function InList(val: Value, args: seq<Value>): (r: Result<bool, ()>)
    ensures r.Ok? <==> |args| > 0 && (args[0].Arr? || args[0].Str?)
    ensures |args| > 0 && args[0].Arr? ==>
      (r == Ok(true) <==> exists k | 0 <= k < |args[0].items| :: StrictEquals(args[0].items[k], val))
  {
    if args == [] then Err(())
    else
      match args[0]
      case Arr(items) => Ok(IndexOf(items, val) != -1)
      case Str(s) => Ok(Contains(s, ToStr(val)))
      case _ => Err(())
  }

  /** For a primitive value and a list, `inList` is list membership. */
  lemma InListMembership(val: Value, list: seq<Value>)
    requires !val.Arr? && !val.Obj?
    ensures InList(val, [Arr(list)]) == Ok(val in list)
  {
    if val in list {
      var k :| 0 <= k < |list| && list[k] == val;
      assert StrictEquals(list[k], val);
    }
  }

  /** The properties of the type named by the document's `type` field. */
  function DocumentTypeProperties(types: seq<TypeDecl>, interp: string -> string, docType: Value): seq<Property>
    requires Acyclic(types)
  {
    if docType.Str? then Properties(types, interp, docType.s) else []
  }

  /** `isPropertyNameOrAsteriskIfHasType(val)`: `val` is a string that names a
      property of the document's type, or `*`. */
  function PropertyNameOrAsterisk(types: seq<TypeDecl>, interp: string -> string, docType: Value, val: Value): (r: bool)
    requires Acyclic(types)
    ensures r <==> (val.Str? &&
      (val.s == "*" || exists p | p in DocumentTypeProperties(types, interp, docType) :: p.name == val.s))
  {
    if !val.Str? then false
    else
      var ps := DocumentTypeProperties(types, interp, docType);
      assert forall p | p in ps :: exists k | 0 <= k < |ps| :: ps[k] == p;
      val.s in Names(ps) || val.s == "*"
  }

  /** `isPropertyNameIfHasType(val)` as written: it asks the manager for
      `Properties`, a method AppManager does not have, so every call raises
      a TypeError. */
  function PropertyNameIfHasTypeAsWritten(types: seq<TypeDecl>, interp: string -> string, docType: Value, val: Value): (r: Result<bool, ()>)
    requires Acyclic(types)
    ensures r.Err?
  {
    Err(())
  }

  /** `isPropertyNameIfHasType(val)` as intended: `val` names a property of
      the document's type. */
  function PropertyNameIfHasType(types: seq<TypeDecl>, interp: string -> string, docType: Value, val: Value): (r: bool)
    requires Acyclic(types)
    ensures r <==> val.Str? && exists p | p in DocumentTypeProperties(types, interp, docType) :: p.name == val.s
  {
    var ps := DocumentTypeProperties(types, interp, docType);
    assert forall p | p in ps :: exists k | 0 <= k < |ps| :: ps[k] == p;
    val.Str? && val.s in Names(ps)
  }

  /** The as-written validator rejects even a declared property name, which
      the intended one accepts. */
  lemma PropertyNameIfHasTypeCounterexample(types: seq<TypeDecl>, interp: string -> string, docType: Value, p: Property)
    requires Acyclic(types) && p in DocumentTypeProperties(types, interp, docType)
    ensures PropertyNameIfHasTypeAsWritten(types, interp, docType, Str(p.name)).Err?
    ensures PropertyNameIfHasType(types, interp, docType, Str(p.name))
  {
  }
}
