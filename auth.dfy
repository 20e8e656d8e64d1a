// The decisions of src/routes/auth.js that do not depend on the request
// pipeline: reading the token out of a header, the password-length rule of
// `login`, and the permission checks `checkRolePermission` and
// `checkAuthorization` over a role's permission list.
module Auth {
  import opened Wrappers
  import opened Json
  import opened Strings

  datatype AuthError =
    | HeaderNotText       // `header.substr` on a header that is not a string: TypeError
    | UseNotSearchable    // `authorization.use.indexOf` on a value without indexOf: TypeError
    | NoRole              // `role.permissions` on a missing `user.role`: TypeError
    | NoLoginOptions      // `app.options.login.password` without `options.login`: TypeError
    | NoPasswordOptions   // `.minLength` read from a missing password configuration: TypeError

  // ---------------------------------------------------------------------------
  // Token

  /** `a || b || c || d || ''`: the first truthy candidate, else "". */
  function Header(candidates: seq<Value>): (r: Value)
    ensures Truthy(r) <==> exists k | 0 <= k < |candidates| :: Truthy(candidates[k])
    ensures Truthy(r) ==> r in candidates
    ensures !Truthy(r) ==> r == Str("")
    ensures Truthy(r) ==> exists k | 0 <= k < |candidates| ::
      r == candidates[k] && forall j | 0 <= j < k :: !Truthy(candidates[j])
  {
    if candidates == [] then Str("")
    else if Truthy(candidates[0]) then candidates[0]
    else Header(candidates[1..])
  }

  /** The token in a header: the header trimmed, after dropping a leading
      `JWT`. */
  function Token(header: Value): (r: Result<string, AuthError>)
    ensures r.Err? <==> !header.Str?
    ensures r.Ok? ==> r.value == [] || (!IsWhitespace(r.value[0]) && !IsWhitespace(r.value[|r.value| - 1]))
  {
    if !header.Str? then Err(HeaderNotText)
    else
      var body := Unprefixed(header.s);
      TrimEnds(body);
      Ok(Trim(body))
  }

  /** The header with a leading `JWT` dropped. */
  function Unprefixed(s: string): string
  {
    if StartsWith(s, "JWT") then s[3..] else s
  }

  /** `s.trim()` has no whitespace at either end. */
  lemma TrimEnds(s: string)
    ensures Trim(s) == [] || (!IsWhitespace(Trim(s)[0]) && !IsWhitespace(Trim(s)[|Trim(s)| - 1]))
  {
    var front := TrimStart(s);
    var k :| 0 <= k <= |front| && TrimEnd(front) == front[..k];
    if Trim(s) != [] {
      assert Trim(s)[0] == front[0];
    }
  }

  /** `prepareToken`: the header value handed to the client, `JWT ` and the
      encoded payload. */
  function PrepareToken(encoded: string): string
  {
    "JWT " + encoded
  }

  /** The header `prepareToken` produces gives back the encoded payload, which
      has no whitespace at either end. */
  lemma TokenOfPrepared(encoded: string)
    requires encoded == [] || (!IsWhitespace(encoded[0]) && !IsWhitespace(encoded[|encoded| - 1]))
    ensures Token(Str(PrepareToken(encoded))) == Ok(encoded)
  {
    var s := PrepareToken(encoded);
    assert StartsWith(s, "JWT");
    assert s[3..] == " " + encoded;
    assert TrimStart(" " + encoded) == TrimStart(encoded) by {
      assert (" " + encoded)[1..] == encoded;
    }
    assert TrimStart(encoded) == encoded;
    TrimOfTrimmed(encoded);
  }

  /** A bare token (without the `JWT` prefix) is taken as it is. */
  lemma TokenOfBare(token: string)
    requires token == [] || (!IsWhitespace(token[0]) && !IsWhitespace(token[|token| - 1]))
    requires !StartsWith(token, "JWT")
    ensures Token(Str(token)) == Ok(token)
  {
    TrimOfTrimmed(token);
  }

  // ---------------------------------------------------------------------------
  // Password length in login

  datatype LoginError =
    | NoEmail
    | NotEmail
    | NoPassword
    | LengthOutside(min: Value, max: Value)
    | TooShort(min: Value)
    | TooLong(max: Value)

  /** The number a limit compares as: None stands for NaN. A string is
      converted when, trimmed, it is empty (0) or plain decimal digits. */
  function ToNumber(v: Value): Option<int>
  {
    match v
    case Num(n) => Some(n)
    case Null => Some(0)
    case Bool(b) => Some(if b then 1 else 0)
    case Str(s) =>
      var t := Trim(s);
      if t == "" then Some(0) else if AllDigits(t) then Some(DigitsValue(t)) else None
    case _ => None
  }

  predicate AllDigits(s: string)
  {
    forall k | 0 <= k < |s| :: '0' <= s[k] <= '9'
  }

  /** The number a string of decimal digits spells. */
  function DigitsValue(s: string): nat
    requires AllDigits(s)
  {
    if s == [] then 0 else DigitsValue(s[..|s| - 1]) * 10 + (s[|s| - 1] as int - '0' as int)
  }

  /** `password.length`: None when the value has no length. */
  function Length(password: Value): Option<int>
  {
    match password
    case Str(s) => Some(|s|)
    case Arr(items) => Some(|items|)
    case _ => None
  }

  /** `length < limit`: false whenever either side is NaN. */
  predicate Below(length: Option<int>, limit: Value)
  {
    length.Some? && ToNumber(limit).Some? && length.value < ToNumber(limit).value
  }

  /** `length > limit`. */
  predicate Above(length: Option<int>, limit: Value)
  {
    length.Some? && ToNumber(limit).Some? && length.value > ToNumber(limit).value
  }

  /** `_.has(options, key)` on a value that may not be an object. */
  predicate HasKey(options: Value, key: string)
  {
    options.Obj? && Has(options.fields, key)
  }

  function Limit(options: Value, key: string): Value
    requires HasKey(options, key)
  {
    Get(options.fields, key)
  }

  /** The length rule of `login` against
      `options.authentication.login.password` (`limits`): with both bounds a
      password outside them gets one error naming both; with one bound, an
      error for that bound. */
  function PasswordRule(length: Option<int>, limits: Value): (r: seq<LoginError>)
    ensures |r| <= 1
  {
    if HasKey(limits, "minLength") && HasKey(limits, "maxLength") then
      var min := Limit(limits, "minLength");
      var max := Limit(limits, "maxLength");
      if Below(length, min) || Above(length, max) then [LengthOutside(min, max)] else []
    else if HasKey(limits, "minLength") then
      if Below(length, Limit(limits, "minLength")) then [TooShort(Limit(limits, "minLength"))] else []
    else if HasKey(limits, "maxLength") then
      if Above(length, Limit(limits, "maxLength")) then [TooLong(Limit(limits, "maxLength"))] else []
    else []
  }

  /** With numeric bounds, the rule accepts exactly the lengths within them
      and reports one error otherwise. */
  lemma PasswordBounds(length: int, limits: seq<Entry<Value>>, min: int, max: int)
    requires Get(limits, "minLength") == Num(min) && Get(limits, "maxLength") == Num(max)
    ensures PasswordRule(Some(length), Obj(limits)) ==
            if min <= length <= max then [] else [LengthOutside(Num(min), Num(max))]
  {
  }

  /** With only a minimum, the rule reports `TooShort` exactly for a length
      below it; a limit that converts to NaN rejects nothing. */
  lemma PasswordMinimumOnly(length: int, limits: seq<Entry<Value>>)
    requires Has(limits, "minLength") && !Has(limits, "maxLength")
    ensures var min := Get(limits, "minLength");
      ToNumber(min).Some? ==>
        PasswordRule(Some(length), Obj(limits)) == if length < ToNumber(min).value then [TooShort(min)] else []
    ensures ToNumber(Get(limits, "minLength")).None? ==> PasswordRule(Some(length), Obj(limits)) == []
  {
  }

  /** With only a maximum, the rule reports `TooLong` exactly for a length
      above it. */
  lemma PasswordMaximumOnly(length: int, limits: seq<Entry<Value>>)
    requires !Has(limits, "minLength") && Has(limits, "maxLength")
    ensures var max := Get(limits, "maxLength");
      ToNumber(max).Some? ==>
        PasswordRule(Some(length), Obj(limits)) == if length > ToNumber(max).value then [TooLong(max)] else []
    ensures ToNumber(Get(limits, "maxLength")).None? ==> PasswordRule(Some(length), Obj(limits)) == []
  {
  }

  /** Without either bound, or for a password without a length, the rule
      reports nothing. */
  lemma PasswordUnbounded(length: Option<int>, limits: Value)
    requires length.None? || (!HasKey(limits, "minLength") && !HasKey(limits, "maxLength"))
    ensures PasswordRule(length, limits) == []
  {
  }

  /** A limit written as a string of digits compares as its number, as
      `length < "8"` does. */
  lemma StringLimitCompares()
    ensures PasswordRule(Some(5), Obj([Entry("minLength", Str("8"))])) == [TooShort(Str("8"))]
  {
    var limits := [Entry("minLength", Str("8"))];
    assert Keys(limits) == ["minLength"];
    assert Get(limits, "minLength") == Str("8");
    EightConverts();
    PasswordMinimumOnly(5, limits);
  }

  lemma EightConverts()
    ensures ToNumber(Str("8")) == Some(8)
  {
    TrimOfTrimmed("8");
    assert "8"[..0] == "";
  }

  /** The rule as written: the single-bound `minLength` branch tests
      `options.login.password` (`legacy`), which the configuration does not
      define, and throws when `options.login` is missing. */
  function PasswordRuleAsWritten(length: Option<int>, limits: Value, legacy: Value): (r: Result<seq<LoginError>, AuthError>)
    ensures r.Ok? ==> |r.value| <= 1
  {
    if HasKey(limits, "minLength") && HasKey(limits, "maxLength") then
      Ok(PasswordRule(length, limits))
    else if IsNil(legacy) then Err(NoLoginOptions)
    else if legacy.Obj? && HasKey(Get(legacy.fields, "password"), "minLength") then
      if IsNil(limits) then Err(NoPasswordOptions)
      else
        var min := if limits.Obj? then Get(limits.fields, "minLength") else Undefined;
        Ok(if Below(length, min) then [TooShort(min)] else [])
    else if HasKey(limits, "maxLength") then
      Ok(PasswordRule(length, limits))
    else Ok([])
  }

  /** As written, a configuration with only a minimum length never reaches its
      check: without `options.login` the rule throws. */
  lemma MinimumOnlyAsWritten(password: string)
    requires |password| < 8
    ensures PasswordRuleAsWritten(Some(|password|), Obj([Entry("minLength", Num(8))]), Undefined).Err?
    ensures PasswordRule(Some(|password|), Obj([Entry("minLength", Num(8))])) == [TooShort(Num(8))]
  {
    assert Keys([Entry("minLength", Num(8))]) == ["minLength"];
  }

  /** `body[key]` on the request body (`req.body || {}`). */
  function BodyField(body: Value, key: string): Value
  {
    if body.Obj? then Get(body.fields, key) else Undefined
  }

  /** The validation at the start of `login`: errors for the e-mail, then for
      the password, collected in `_errors`. `thrown` is set when the e-mail
      is not a string, which the e-mail validator refuses by throwing. This
      is the corrected validation: the password is judged by the corrected
      `PasswordRule`, not by the minimum-only branch as written, which
      throws without `options.login`. */
  method LoginValidation(body: Value, emailKey: string, passwordKey: string, isEmail: string -> bool, limits: Value)
    returns (errors: seq<LoginError>, thrown: bool)
    ensures var email := BodyField(body, emailKey);
      thrown <==> Truthy(email) && !email.Str?
    ensures var email := BodyField(body, emailKey);
      var password := BodyField(body, passwordKey);
      !thrown ==>
        && |errors| <= 2
        && (NoEmail in errors <==> !Truthy(email))
        && (NotEmail in errors <==> Truthy(email) && !isEmail(email.s))
        && (NoPassword in errors <==> !Truthy(password))
        && (errors == [] <==> Truthy(email) && isEmail(email.s) && Truthy(password) &&
                              PasswordRule(Length(password), limits) == [])
  {
    var email := BodyField(body, emailKey);
    var password := BodyField(body, passwordKey);
    errors := [];
    if !Truthy(email) {
      errors := errors + [NoEmail];
    } else if !email.Str? {
      return errors, true;
    } else if !isEmail(email.s) {
      errors := errors + [NotEmail];
    }
    if !Truthy(password) {
      errors := errors + [NoPassword];
    } else {
      var rule := PasswordRule(Length(password), limits);
      assert NoEmail !in rule && NotEmail !in rule && NoPassword !in rule;
      errors := errors + rule;
    }
    thrown := false;
  }

  // ---------------------------------------------------------------------------
  // Permissions

  /** A permission document. `createdAt` is `_createdAt` as a timestamp. */
  datatype Permission = Permission(typeName: Value, action: Value, perm: Value, createdAt: Option<int>)

  /** A role document; `checkRolePermission` reorders its permissions in
      place. */
  class Role {
    var permissions: seq<Permission>
  }

  /** The user document: its single `role` and its `roles`. */
  datatype User = User(role: Option<Role>, roles: seq<Role>)

  /** `a` sorts strictly before `b` by `_createdAt`: earlier dates first,
      missing dates last. */
  predicate Before(a: Permission, b: Permission)
  {
    a.createdAt.Some? && (b.createdAt.None? || a.createdAt.value < b.createdAt.value)
  }

  predicate SortedByCreated(s: seq<Permission>)
  {
    forall i, j | 0 <= i < j < |s| :: !Before(s[j], s[i])
  }

  /** Places `p` ahead of the first element that does not sort before it,
      which keeps equal dates in their original order. */
  function InsertByCreated(p: Permission, s: seq<Permission>): (r: seq<Permission>)
    requires SortedByCreated(s)
    ensures SortedByCreated(r)
    ensures multiset(r) == multiset(s) + multiset{p}
    ensures forall x | x in r :: x == p || x in s
  {
    if s == [] || !Before(s[0], p) then [p] + s
    else
      var rest := InsertByCreated(p, s[1..]);
      assert s == [s[0]] + s[1..];
      forall y | y in rest
        ensures !Before(y, s[0])
      {
        if y != p {
          var j :| 0 <= j < |s[1..]| && s[1..][j] == y;
          assert s[j + 1] == y;
        }
      }
      SortedCons(s[0], rest);
      [s[0]] + rest
  }

  /** A sorted list stays sorted when headed by an element nothing in it
      sorts before. */
  lemma SortedCons(x: Permission, rest: seq<Permission>)
    requires SortedByCreated(rest)
    requires forall y | y in rest :: !Before(y, x)
    ensures SortedByCreated([x] + rest)
  {
    var r := [x] + rest;
    forall i, j | 0 <= i < j < |r|
      ensures !Before(r[j], r[i])
    {
      assert r[j] == rest[j - 1];
      if i > 0 {
        assert r[i] == rest[i - 1];
      }
    }
  }

  /** `_.sortBy(permissions, ['_createdAt'])`. */
  function SortByCreated(s: seq<Permission>): (r: seq<Permission>)
    ensures SortedByCreated(r)
    ensures multiset(r) == multiset(s)
  {
    if s == [] then []
    else
      assert s == [s[0]] + s[1..];
      InsertByCreated(s[0], SortByCreated(s[1..]))
  }

  /** Sorting a list already in `_createdAt` order leaves it as it is, so a
      role checked twice is reordered once. */
  lemma {:induction false} SortSorted(s: seq<Permission>)
    requires SortedByCreated(s)
    ensures SortByCreated(s) == s
  {
    if s != [] {
      assert SortedByCreated(s[1..]);
      SortSorted(s[1..]);
      assert s == [s[0]] + s[1..];
    }
  }

  /** A permission fits a request when each of its constrained fields is
      `*` or the requested value. */
  predicate Fits(field: Value, wanted: Option<string>)
  {
    wanted.None? || field == Str("*") || field == Str(wanted.value)
  }

  /** Some permission of kind `perm` ("allow" or "deny") fits the type and
      the action; None leaves that field unconstrained. */
  predicate Covered(perms: seq<Permission>, typeName: Option<string>, action: Option<string>, perm: string)
  {
    exists p | p in perms :: Fits(p.typeName, typeName) && Fits(p.action, action) && p.perm == Str(perm)
  }

  /** `_.some(permissions, { type, action, perm })` with literal values. */
  predicate Matching(perms: seq<Permission>, typeName: Option<string>, action: Option<string>, perm: string)
  {
    exists p | p in perms ::
      (typeName.None? || p.typeName == Str(typeName.value)) &&
      (action.None? || p.action == Str(action.value)) && p.perm == Str(perm)
  }

  /** The four literal patterns of the type-and-action rule together say
      what `Covered` says. */
  lemma FourPatterns(perms: seq<Permission>, typeName: string, action: string, perm: string)
    ensures Covered(perms, Some(typeName), Some(action), perm) <==>
      Matching(perms, Some("*"), Some("*"), perm) || Matching(perms, Some("*"), Some(action), perm) ||
      Matching(perms, Some(typeName), Some("*"), perm) || Matching(perms, Some(typeName), Some(action), perm)
  {
    if Covered(perms, Some(typeName), Some(action), perm) {
      var p :| p in perms && Fits(p.typeName, Some(typeName)) && Fits(p.action, Some(action)) && p.perm == Str(perm);
      if p.typeName == Str("*") {
        if p.action == Str("*") {
          assert Matching(perms, Some("*"), Some("*"), perm);
        } else {
          assert Matching(perms, Some("*"), Some(action), perm);
        }
      } else if p.action == Str("*") {
        assert Matching(perms, Some(typeName), Some("*"), perm);
      } else {
        assert Matching(perms, Some(typeName), Some(action), perm);
      }
    }
  }

  /** The same for the rules over one field. */
  lemma TwoPatterns(perms: seq<Permission>, typeName: Option<string>, action: Option<string>, perm: string)
    requires typeName.None? != action.None?
    ensures typeName.Some? ==> (Covered(perms, typeName, None, perm) <==>
      Matching(perms, Some("*"), None, perm) || Matching(perms, typeName, None, perm))
    ensures action.Some? ==> (Covered(perms, None, action, perm) <==>
      Matching(perms, None, Some("*"), perm) || Matching(perms, None, action, perm))
  {
    if typeName.Some? && Covered(perms, typeName, None, perm) {
      var p :| p in perms && Fits(p.typeName, typeName) && p.perm == Str(perm);
      if p.typeName == Str("*") {
        assert Matching(perms, Some("*"), None, perm);
      } else {
        assert Matching(perms, typeName, None, perm);
      }
    }
    if action.Some? && Covered(perms, None, action, perm) {
      var p :| p in perms && Fits(p.action, action) && p.perm == Str(perm);
      if p.action == Str("*") {
        assert Matching(perms, None, Some("*"), perm);
      } else {
        assert Matching(perms, None, action, perm);
      }
    }
  }

  /** `items.indexOf(word)` on an array: strict equality, -1 when absent. */
  function IndexIn(items: seq<Value>, word: string): (r: int)
    ensures -1 <= r < |items|
    ensures r == -1 <==> Str(word) !in items
    ensures 0 <= r ==> items[r] == Str(word) && Str(word) !in items[..r]
  {
    if items == [] then -1
    else if items[0] == Str(word) then 0
    else
      var k := IndexIn(items[1..], word);
      assert items[1..] == items[1..][..|items| - 1];
      if k == -1 then -1
      else
        assert items[..k + 1] == [items[0]] + items[1..][..k];
        k + 1
  }

  /** `word` occurs in `s` at position `i`. */
  predicate OccursAt(s: string, word: string, i: int)
  {
    0 <= i && i + |word| <= |s| && s[i..i + |word|] == word
  }

  /** `s.indexOf(word)` on a string, searching from position `from`. */
  function IndexInText(s: string, word: string, from: nat): (r: int)
    ensures r == -1 || (from <= r && OccursAt(s, word, r))
    ensures r == -1 <==> forall i | from <= i :: !OccursAt(s, word, i)
    ensures 0 <= r ==> forall i | from <= i < r :: !OccursAt(s, word, i)
    decreases |s| - from
  {
    if from + |word| > |s| then -1
    else if s[from..from + |word|] == word then from
    else IndexInText(s, word, from + 1)
  }

  /** `authorization.use.indexOf(word)`: None when `use` has no indexOf. */
  function UseIndex(authorization: Value, word: string): (r: Option<int>)
    ensures r.Some? <==> authorization.Obj? && (Get(authorization.fields, "use").Arr? || Get(authorization.fields, "use").Str?)
  {
    var use := if authorization.Obj? then Get(authorization.fields, "use") else Undefined;
    match use
    case Arr(items) => Some(IndexIn(items, word))
    case Str(s) => Some(IndexInText(s, word, 0))
    case _ => None
  }

  /** `checkRolePermission` as written. Each branch is entered on the truth
      of an `indexOf` result, which is false only for a word found first in
      the list; and the deny clause is an `||` of negations. */
  function RolePermissionAsWritten(authorization: Value, perms: seq<Permission>, typeName: string, action: string): (r: Result<bool, AuthError>)
    ensures !Truthy(authorization) ==> r == Ok(false)
    ensures r.Err? <==> Truthy(authorization) && UseIndex(authorization, "action").None?
    ensures r == Ok(true) ==> exists p | p in perms :: p.perm == Str("allow")
  {
    if !Truthy(authorization) then Ok(false)
    else if UseIndex(authorization, "action").None? then Err(UseNotSearchable)
    else
      var byAction := UseIndex(authorization, "action").value != 0;
      var byType := UseIndex(authorization, "type").value != 0;
      if byAction && byType then
        Ok((Matching(perms, Some("*"), Some("*"), "allow") || Matching(perms, Some("*"), Some(action), "allow") ||
            Matching(perms, Some(typeName), Some("*"), "allow") || Matching(perms, Some(typeName), Some(action), "allow")) &&
           (!Matching(perms, Some("*"), Some("*"), "deny") || !Matching(perms, Some("*"), Some(action), "deny") ||
            !Matching(perms, Some(typeName), Some("*"), "deny") || !Matching(perms, Some(typeName), Some(action), "deny")))
      else if byAction then
        Ok((Matching(perms, None, Some("*"), "allow") || Matching(perms, None, Some(action), "allow")) &&
           (!Matching(perms, None, Some("*"), "deny") || !Matching(perms, None, Some(action), "deny")))
      else if byType then
        Ok((Matching(perms, Some("*"), None, "allow") || Matching(perms, Some(typeName), None, "allow")) &&
           (!Matching(perms, Some("*"), None, "deny") || !Matching(perms, Some(typeName), None, "deny")))
      else Ok(false)
  }

  /** `checkRolePermission` as its rules evidently mean it: the listed
      criteria (`type`, `action` or both) select which fields a permission
      must fit, and access needs a fitting allow and no fitting deny. */
  function RolePermission(authorization: Value, perms: seq<Permission>, typeName: string, action: string): (r: Result<bool, AuthError>)
    ensures !Truthy(authorization) ==> r == Ok(false)
    ensures r.Err? <==> Truthy(authorization) && UseIndex(authorization, "action").None?
  {
    if !Truthy(authorization) then Ok(false)
    else if UseIndex(authorization, "action").None? then Err(UseNotSearchable)
    else
      var byAction := UseIndex(authorization, "action").value > -1;
      var byType := UseIndex(authorization, "type").value > -1;
      if !byAction && !byType then Ok(false)
      else
        var t := if byType then Some(typeName) else None;
        var a := if byAction then Some(action) else None;
        Ok(Covered(perms, t, a, "allow") && !Covered(perms, t, a, "deny"))
  }

  /** A deny that fits the type and the action (each exactly or by `*`)
      always wins, whichever criteria are listed. */
  lemma DenyWins(authorization: Value, perms: seq<Permission>, typeName: string, action: string, p: Permission)
    requires p in perms && p.perm == Str("deny") && Fits(p.typeName, Some(typeName)) && Fits(p.action, Some(action))
    ensures RolePermission(authorization, perms, typeName, action) != Ok(true)
  {
    var byAction := UseIndex(authorization, "action").Some? && UseIndex(authorization, "action").value > -1;
    var byType := UseIndex(authorization, "type").Some? && UseIndex(authorization, "type").value > -1;
    assert Covered(perms, if byType then Some(typeName) else None, if byAction then Some(action) else None, "deny");
  }

  /** Whether a permission of kind `perm` fits the request on the fields
      that the listed criteria select. */
  predicate FitsSelected(authorization: Value, p: Permission, typeName: string, action: string, perm: string)
  {
    p.perm == Str(perm) &&
    (UseIndex(authorization, "type").Some? && UseIndex(authorization, "type").value > -1 ==> Fits(p.typeName, Some(typeName))) &&
    (UseIndex(authorization, "action").Some? && UseIndex(authorization, "action").value > -1 ==> Fits(p.action, Some(action)))
  }

  /** Access is granted exactly when authorization is configured, `use`
      lists `type` or `action`, some allow fits the selected fields and no
      deny does. */
  lemma AllowNeeded(authorization: Value, perms: seq<Permission>, typeName: string, action: string)
    ensures RolePermission(authorization, perms, typeName, action) == Ok(true) <==>
      Truthy(authorization) && UseIndex(authorization, "action").Some? &&
      (UseIndex(authorization, "action").value > -1 || UseIndex(authorization, "type").value > -1) &&
      (exists p | p in perms :: FitsSelected(authorization, p, typeName, action, "allow")) &&
      !(exists p | p in perms :: FitsSelected(authorization, p, typeName, action, "deny"))
  {
    if Truthy(authorization) && UseIndex(authorization, "action").Some? {
      var t := if UseIndex(authorization, "type").value > -1 then Some(typeName) else None;
      var a := if UseIndex(authorization, "action").value > -1 then Some(action) else None;
      assert UseIndex(authorization, "type").Some?;
      forall perm | perm == "allow" || perm == "deny"
        ensures Covered(perms, t, a, perm) <==> exists p | p in perms :: FitsSelected(authorization, p, typeName, action, perm)
      {
        if Covered(perms, t, a, perm) {
          var p :| p in perms && Fits(p.typeName, t) && Fits(p.action, a) && p.perm == Str(perm);
          assert FitsSelected(authorization, p, typeName, action, perm);
        }
        if exists p | p in perms :: FitsSelected(authorization, p, typeName, action, perm) {
          var p :| p in perms && FitsSelected(authorization, p, typeName, action, perm);
          assert Fits(p.typeName, t) && Fits(p.action, a);
        }
      }
    }
  }

  /** With `action` and `type` each found past the head of the list, the
      written rule agrees with the intended one on allows; the two differ
      exactly in the deny clause, which as written blocks only when all four
      deny patterns are present. */
  lemma TypeActionAsWritten(authorization: Value, perms: seq<Permission>, typeName: string, action: string)
    requires Truthy(authorization)
    requires UseIndex(authorization, "action").Some? && UseIndex(authorization, "action").value > 0
    requires UseIndex(authorization, "type").value > 0
    ensures RolePermissionAsWritten(authorization, perms, typeName, action) ==
      Ok(Covered(perms, Some(typeName), Some(action), "allow") &&
         !(Matching(perms, Some("*"), Some("*"), "deny") && Matching(perms, Some("*"), Some(action), "deny") &&
           Matching(perms, Some(typeName), Some("*"), "deny") && Matching(perms, Some(typeName), Some(action), "deny")))
  {
    FourPatterns(perms, typeName, action, "allow");
  }

  /** As written, `use: ["action"]` applies the type rule (the index -1 is
      truthy and 0 is not), so an action-wide allow is refused. */
  lemma ActionOnlyCounterexample()
    ensures var allowRead := Permission(Str("other"), Str("read"), Str("allow"), None);
      var auth := Obj([Entry("use", Arr([Str("action")]))]);
      RolePermissionAsWritten(auth, [allowRead], "note", "read") == Ok(false) &&
      RolePermission(auth, [allowRead], "note", "read") == Ok(true)
  {
    var allowRead := Permission(Str("other"), Str("read"), Str("allow"), None);
    var auth := Obj([Entry("use", Arr([Str("action")]))]);
    assert Get(auth.fields, "use") == Arr([Str("action")]);
    assert UseIndex(auth, "action") == Some(0);
    assert UseIndex(auth, "type") == Some(-1);
    assert Covered([allowRead], None, Some("read"), "allow");
  }

  /** The permissions and settings of the counterexample below: an exact
      allow and an exact deny for the same type and action, with both
      criteria listed after `roles`. */
  function AllowAndDeny(): seq<Permission>
  {
    [Permission(Str("note"), Str("read"), Str("allow"), None), Permission(Str("note"), Str("read"), Str("deny"), None)]
  }

  function BothCriteria(): Value
  {
    Obj([Entry("use", Arr([Str("roles"), Str("action"), Str("type")]))])
  }

  /** The example's criteria list `action` at index 1 and `type` at index 2. */
  lemma BothCriteriaIndices()
    ensures UseIndex(BothCriteria(), "action") == Some(1)
    ensures UseIndex(BothCriteria(), "type") == Some(2)
  {
    assert Get(BothCriteria().fields, "use") == Arr([Str("roles"), Str("action"), Str("type")]);
  }

  /** The example holds an exact allow and no wildcard deny. */
  lemma AllowAndDenyMatches()
    ensures Matching(AllowAndDeny(), Some("note"), Some("read"), "allow")
    ensures !Matching(AllowAndDeny(), Some("*"), Some("*"), "deny")
  {
    assert AllowAndDeny()[0] in AllowAndDeny();
  }

  /** As written, with both criteria listed, an exact deny does not
      override an exact allow. */
  lemma DenyAsWritten()
    ensures RolePermissionAsWritten(BothCriteria(), AllowAndDeny(), "note", "read") == Ok(true)
  {
    BothCriteriaIndices();
    AllowAndDenyMatches();
    assert Truthy(BothCriteria());
    BothCriteriaAsWritten(BothCriteria(), AllowAndDeny(), "note", "read");
  }

  /** As written, with both criteria listed past the first position, an
      exact allow grants access unless a wildcard deny is also present. */
  lemma BothCriteriaAsWritten(authorization: Value, perms: seq<Permission>, typeName: string, action: string)
    requires Truthy(authorization)
    requires UseIndex(authorization, "action") == Some(1) && UseIndex(authorization, "type") == Some(2)
    requires Matching(perms, Some(typeName), Some(action), "allow")
    requires !Matching(perms, Some("*"), Some("*"), "deny")
    ensures RolePermissionAsWritten(authorization, perms, typeName, action) == Ok(true)
  {
  }

  /** Denies override allows, so the same request is refused. */
  lemma DenyCorrected()
    ensures RolePermission(BothCriteria(), AllowAndDeny(), "note", "read") == Ok(false)
  {
    var perms := AllowAndDeny();
    var auth := BothCriteria();
    assert Get(auth.fields, "use") == Arr([Str("roles"), Str("action"), Str("type")]);
    assert UseIndex(auth, "action") == Some(1);
    assert UseIndex(auth, "type") == Some(2);
    assert perms[1] in perms;
    assert Covered(perms, Some("note"), Some("read"), "deny");
  }

  /** The decision does not depend on the order of the permissions, so the
      reordering by `_createdAt` does not change it. */
  lemma DecisionOrderFree(authorization: Value, perms: seq<Permission>, other: seq<Permission>, typeName: string, action: string)
    requires multiset(perms) == multiset(other)
    ensures RolePermission(authorization, perms, typeName, action) == RolePermission(authorization, other, typeName, action)
  {
    forall x
      ensures x in perms <==> x in other
    {
      assert x in perms <==> x in multiset(perms);
      assert x in other <==> x in multiset(other);
    }
  }

  /** `checkRolePermission(app, role, typeName, action)`: sorts the role's
      permissions by `_createdAt` in place, then decides. */
  method CheckRolePermission(authorization: Value, role: Role, typeName: string, action: string)
    returns (r: Result<bool, AuthError>)
    modifies role
    ensures role.permissions == SortByCreated(old(role.permissions))
    ensures r == RolePermission(authorization, old(role.permissions), typeName, action)
  {
    role.permissions := SortByCreated(role.permissions);
    r := RolePermission(authorization, role.permissions, typeName, action);
    DecisionOrderFree(authorization, role.permissions, old(role.permissions), typeName, action);
  }

  /** `options.authorization.multipleRoles == true`. */
  predicate MultipleRoles(authorization: Value)
  {
    authorization.Obj? && LooselyTrue(Get(authorization.fields, "multipleRoles"))
  }

  /** What `checkRolePermission` decides for each role, given the
      roles' permission lists. */
  function Decisions(authorization: Value, perms: seq<seq<Permission>>, typeName: string, action: string)
    : (r: seq<Result<bool, AuthError>>)
    ensures |r| == |perms|
  {
    if perms == [] then []
    else [RolePermission(authorization, perms[0], typeName, action)] + Decisions(authorization, perms[1..], typeName, action)
  }

  /** The `k`th decision is that of the `k`th role's permissions. */
  lemma {:induction false} DecisionAt(authorization: Value, perms: seq<seq<Permission>>, typeName: string, action: string, k: nat)
    requires k < |perms|
    ensures Decisions(authorization, perms, typeName, action)[k] == RolePermission(authorization, perms[k], typeName, action)
  {
    if k > 0 {
      DecisionAt(authorization, perms[1..], typeName, action, k - 1);
      assert perms[1..][k - 1] == perms[k];
    }
  }

  /** `_.some(roles, role => checkRolePermission(...))` over the roles'
      decisions: the first role that permits ends the search, and so does
      the first that throws. */
  function AnyRole(decisions: seq<Result<bool, AuthError>>): (r: Result<bool, AuthError>)
  {
    if decisions == [] then Ok(false)
    else
      match decisions[0]
      case Err(e) => Err(e)
      case Ok(true) => Ok(true)
      case Ok(false) => AnyRole(decisions[1..])
  }

  /** With several roles, access is granted exactly when some role permits
      it and no role before it throws; an unusable `use` list fails as soon
      as there is a role. */
  lemma {:induction false} AnyRoleMeaning(authorization: Value, perms: seq<seq<Permission>>, typeName: string, action: string)
    ensures AnyRole(Decisions(authorization, perms, typeName, action)) == Ok(true) <==>
      exists k | 0 <= k < |perms| :: RolePermission(authorization, perms[k], typeName, action) == Ok(true)
    ensures AnyRole(Decisions(authorization, perms, typeName, action)).Err? <==>
      perms != [] && Truthy(authorization) && UseIndex(authorization, "action").None?
  {
    var ds := Decisions(authorization, perms, typeName, action);
    if perms != [] {
      AnyRoleMeaning(authorization, perms[1..], typeName, action);
      assert ds[1..] == Decisions(authorization, perms[1..], typeName, action);
      if RolePermission(authorization, perms[0], typeName, action) == Ok(false) {
        forall k | 1 <= k < |perms|
          ensures perms[k] == perms[1..][k - 1]
        {
        }
      }
      if exists k | 0 <= k < |perms| :: RolePermission(authorization, perms[k], typeName, action) == Ok(true) {
        var k :| 0 <= k < |perms| && RolePermission(authorization, perms[k], typeName, action) == Ok(true);
        if k > 0 && RolePermission(authorization, perms[0], typeName, action) == Ok(false) {
          assert perms[1..][k - 1] == perms[k];
        }
      }
    }
  }

  /** One step of the `_.some` over the roles: checks `role`, whose
      permissions are a reordering of `perms`. */
  method CheckRole(authorization: Value, role: Role, typeName: string, action: string, ghost perms: seq<Permission>)
    returns (r: Result<bool, AuthError>)
    requires multiset(role.permissions) == multiset(perms)
    modifies role
    ensures role.permissions == SortByCreated(old(role.permissions))
    ensures multiset(role.permissions) == multiset(perms)
    ensures r == RolePermission(authorization, perms, typeName, action)
  {
    DecisionOrderFree(authorization, role.permissions, perms, typeName, action);
    r := CheckRolePermission(authorization, role, typeName, action);
  }

  /** `checkRolePermission` on the `k`th of several roles: the decision for
      its permissions, and every role (the same role may be listed twice)
      keeps its permissions up to order. */
  method CheckListedRole(authorization: Value, roles: seq<Role>, k: nat, typeName: string, action: string,
                         ghost perms: seq<seq<Permission>>)
    returns (r: Result<bool, AuthError>)
    requires k < |roles| == |perms|
    requires forall j | 0 <= j < |roles| :: multiset(roles[j].permissions) == multiset(perms[j])
    modifies roles[k]
    ensures roles[k].permissions == SortByCreated(old(roles[k].permissions))
    ensures forall j | 0 <= j < |roles| :: multiset(roles[j].permissions) == multiset(perms[j])
    ensures r == Decisions(authorization, perms, typeName, action)[k]
  {
    DecisionAt(authorization, perms, typeName, action, k);
    r := CheckRole(authorization, roles[k], typeName, action, perms[k]);
    forall j | 0 <= j < |roles|
      ensures multiset(roles[j].permissions) == multiset(perms[j])
    {
      if roles[j] == roles[k] {
        assert multiset(old(roles[j].permissions)) == multiset(perms[j]);
      }
    }
  }

  lemma {:induction false} AnyRoleFirst(decisions: seq<Result<bool, AuthError>>, k: nat)
    requires k <= |decisions|
    requires forall i | 0 <= i < k :: decisions[i] == Ok(false)
    requires k < |decisions| ==> decisions[k] != Ok(false)
    ensures AnyRole(decisions) == if k < |decisions| then decisions[k] else Ok(false)
  {
    if k > 0 {
      assert decisions[0] == Ok(false);
      AnyRoleFirst(decisions[1..], k - 1);
    }
  }

  /** One role of the loop: an error or a grant decides, a refusal passes
      on to the next role. */
  lemma AnyRoleStep(decisions: seq<Result<bool, AuthError>>, k: nat)
    requires k < |decisions|
    ensures AnyRole(decisions[k..]) ==
      if decisions[k].Err? || decisions[k].value then decisions[k] else AnyRole(decisions[k + 1..])
  {
    assert decisions[k..][0] == decisions[k] && decisions[k..][1..] == decisions[k + 1..];
  }

  /** The position of the first decision that is an error or a grant: the
      last role `_.some` reaches; the length when every role refuses. */
  function FirstDecisive(decisions: seq<Result<bool, AuthError>>): (r: nat)
    ensures r <= |decisions|
    ensures forall i | 0 <= i < r :: decisions[i] == Ok(false)
    ensures r < |decisions| ==> decisions[r] != Ok(false)
  {
    if decisions == [] || decisions[0] != Ok(false) then 0
    else
      var r := FirstDecisive(decisions[1..]) + 1;
      assert forall i | 1 <= i < r :: decisions[i] == decisions[1..][i - 1];
      r
  }

  /** The roles among the first `n` of the list (the same role may be
      listed twice). */
  ghost function Reached(roles: seq<Role>, n: nat): set<Role>
  {
    set i | 0 <= i < n && i < |roles| :: roles[i]
  }

  lemma ReachedNext(roles: seq<Role>, k: nat)
    requires k < |roles|
    ensures Reached(roles, k + 1) == Reached(roles, k) + {roles[k]}
  {
    assert roles[k] in Reached(roles, k + 1);
  }

  /** Past the end of the list, every listed role is reached. */
  lemma ReachedAll(roles: seq<Role>, n: nat, m: nat)
    requires |roles| <= n && |roles| <= m
    ensures Reached(roles, n) == Reached(roles, m)
  {
  }

  /** The roles in `visited` have their permissions sorted, the others have
      the permissions they had. */
  ghost predicate SortedIn(roles: seq<Role>, perms: seq<seq<Permission>>, sorted: seq<seq<Permission>>, visited: set<Role>)
    requires |perms| == |roles| == |sorted|
    reads set role: Role | role in roles
  {
    forall j | 0 <= j < |roles| ::
      roles[j].permissions == if roles[j] in visited then sorted[j] else perms[j]
  }

  /** Sorting in place keeps every role's permissions up to order. */
  lemma SortedInAlike(roles: seq<Role>, perms: seq<seq<Permission>>, visited: set<Role>)
    requires |perms| == |roles| && SortedIn(roles, perms, SortedLists(perms), visited)
    ensures forall j | 0 <= j < |roles| :: multiset(roles[j].permissions) == multiset(perms[j])
  {
    forall j | 0 <= j < |roles|
      ensures multiset(roles[j].permissions) == multiset(perms[j])
    {
      SortSorted(SortByCreated(perms[j]));
    }
  }

  /** Each permission list sorted by `_createdAt`. */
  function SortedLists(perms: seq<seq<Permission>>): (r: seq<seq<Permission>>)
    ensures |r| == |perms|
  {
    seq(|perms|, j requires 0 <= j < |perms| => SortByCreated(perms[j]))
  }

  /** A role listed twice had the same permissions at both places. */
  ghost predicate ListedAlike(roles: seq<Role>, perms: seq<seq<Permission>>)
    requires |perms| == |roles|
  {
    forall i, j | 0 <= i < |roles| && 0 <= j < |roles| && roles[i] == roles[j] :: perms[i] == perms[j]
  }

  /** The `k`th turn of `_.some`: its role's decision, and that role sorted
      with the ones reached before it. */
  method CheckNextRole(authorization: Value, roles: seq<Role>, k: nat, typeName: string, action: string,
                       ghost perms: seq<seq<Permission>>, ghost sorted: seq<seq<Permission>>)
    returns (r: Result<bool, AuthError>)
    requires k < |roles| == |perms| && sorted == SortedLists(perms)
    requires ListedAlike(roles, perms) && SortedIn(roles, perms, sorted, Reached(roles, k))
    modifies roles[k]
    ensures SortedIn(roles, perms, sorted, Reached(roles, k + 1))
    ensures r == Decisions(authorization, perms, typeName, action)[k]
  {
    SortSorted(SortByCreated(perms[k]));
    forall j | 0 <= j < |roles|
      ensures multiset(roles[j].permissions) == multiset(perms[j])
    {
    }
    ReachedNext(roles, k);
    r := CheckListedRole(authorization, roles, k, typeName, action, perms);
  }

  /** `_.some(user.roles, role => checkRolePermission(...))`: the any-role
      decision, and the roles up to the first that grants or throws have
      their permissions sorted in place, the others keep them. */
  method CheckRoles(authorization: Value, roles: seq<Role>, typeName: string, action: string,
                    ghost perms: seq<seq<Permission>>)
    returns (r: Result<bool, AuthError>)
    requires |perms| == |roles|
    requires forall k | 0 <= k < |roles| :: roles[k].permissions == perms[k]
    modifies set role: Role | role in roles
    ensures r == AnyRole(Decisions(authorization, perms, typeName, action))
    ensures SortedIn(roles, perms, SortedLists(perms),
                     Reached(roles, FirstDecisive(Decisions(authorization, perms, typeName, action)) + 1))
  {
    ghost var decisions := Decisions(authorization, perms, typeName, action);
    ghost var sorted := SortedLists(perms);
    assert ListedAlike(roles, perms) && SortedIn(roles, perms, sorted, Reached(roles, 0));
    var k := 0;
    while k < |roles|
      invariant 0 <= k <= |roles|
      invariant ListedAlike(roles, perms) && SortedIn(roles, perms, sorted, Reached(roles, k))
      invariant k <= FirstDecisive(decisions)
      modifies set role: Role | role in roles
    {
      r := CheckNextRole(authorization, roles, k, typeName, action, perms, sorted);
      FirstDecisiveStep(decisions, k);
      if r != Ok(false) {
        return;
      }
      k := k + 1;
    }
    FirstDecisiveEnd(decisions);
    ReachedAll(roles, k, k + 1);
    r := Ok(false);
  }

  /** A role the search reaches decides it, unless it refuses. */
  lemma FirstDecisiveStep(decisions: seq<Result<bool, AuthError>>, k: nat)
    requires k < |decisions| && k <= FirstDecisive(decisions)
    ensures decisions[k] == Ok(false) ==> k + 1 <= FirstDecisive(decisions)
    ensures decisions[k] != Ok(false) ==> FirstDecisive(decisions) == k && AnyRole(decisions) == decisions[k]
  {
    if decisions[k] != Ok(false) {
      FirstDecisiveAt(decisions, k);
    }
  }

  /** When every role refuses, `_.some` is false. */
  lemma FirstDecisiveEnd(decisions: seq<Result<bool, AuthError>>)
    requires |decisions| <= FirstDecisive(decisions)
    ensures FirstDecisive(decisions) == |decisions| && AnyRole(decisions) == Ok(false)
  {
    FirstDecisiveAt(decisions, |decisions|);
  }

  /** The first decisive position is the first that is not a refusal, and
      its decision is that of `_.some`; with none, every role refused. */
  lemma FirstDecisiveAt(decisions: seq<Result<bool, AuthError>>, k: nat)
    requires k <= |decisions|
    requires forall i | 0 <= i < k :: decisions[i] == Ok(false)
    requires k < |decisions| ==> decisions[k] != Ok(false)
    ensures FirstDecisive(decisions) == k
    ensures AnyRole(decisions) == if k < |decisions| then decisions[k] else Ok(false)
  {
    AnyRoleFirst(decisions, k);
  }

  /** `checkAuthorization(app, user, typeName, action)`. `perms` names the
      permission lists of `user.roles` before the call. The roles checked
      have their permissions sorted in place; with several roles those are
      the roles up to the first that grants or throws. */
  method CheckAuthorization(authorization: Value, user: User, typeName: string, action: string,
                            ghost perms: seq<seq<Permission>>)
    returns (r: Result<bool, AuthError>)
    requires |perms| == |user.roles|
    requires forall k | 0 <= k < |user.roles| :: user.roles[k].permissions == perms[k]
    modifies set role: Role | role in user.roles
    modifies if user.role.Some? then {user.role.value} else {}
    ensures MultipleRoles(authorization) ==> r == AnyRole(Decisions(authorization, perms, typeName, action))
    ensures MultipleRoles(authorization) ==>
      forall k | 0 <= k < |user.roles| :: multiset(user.roles[k].permissions) == multiset(perms[k])
    ensures !MultipleRoles(authorization) && user.role.None? ==> r == Err(NoRole)
    ensures !MultipleRoles(authorization) && user.role.Some? ==>
      r == RolePermission(authorization, old(user.role.value.permissions), typeName, action)
    ensures MultipleRoles(authorization) ==>
      SortedIn(user.roles, perms, SortedLists(perms), Reached(user.roles, FirstDecisive(Decisions(authorization, perms, typeName, action)) + 1))
    ensures MultipleRoles(authorization) && user.role.Some? &&
            user.role.value !in Reached(user.roles, FirstDecisive(Decisions(authorization, perms, typeName, action)) + 1) ==>
      user.role.value.permissions == old(user.role.value.permissions)
    ensures !MultipleRoles(authorization) && user.role.Some? ==>
      && user.role.value.permissions == SortByCreated(old(user.role.value.permissions))
      && forall j | 0 <= j < |user.roles| && user.roles[j] != user.role.value :: user.roles[j].permissions == perms[j]
    ensures !MultipleRoles(authorization) && user.role.None? ==>
      forall j | 0 <= j < |user.roles| :: user.roles[j].permissions == perms[j]
  {
    if MultipleRoles(authorization) {
      r := CheckRoles(authorization, user.roles, typeName, action, perms);
      ghost var reached := Reached(user.roles, FirstDecisive(Decisions(authorization, perms, typeName, action)) + 1);
      SortedInAlike(user.roles, perms, reached);
      if user.role.Some? && user.role.value !in reached && user.role.value in user.roles {
        var j :| 0 <= j < |user.roles| && user.roles[j] == user.role.value;
      }
    } else if user.role.None? {
      r := Err(NoRole);
    } else {
      r := CheckRolePermission(authorization, user.role.value, typeName, action);
    }
  }
}
