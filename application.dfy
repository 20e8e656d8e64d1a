// The parts of src/builder/application.js that decide what an application is
// built from: the constructor's parameter check, the built-in type list of
// `readSchema`, the `cache` default, the `_type` tagging of default-data
// files, and `prepareKeysAndItems`, which gives every default-data item a
// generated id and rewrites references to those ids.
module Application {
  import opened Wrappers
  import opened Json
  import opened Strings
  import opened Seqs
  import Auth

  /** A default-data item: a JSON object. */
  type Item = seq<Entry<Value>>

  function TypeOf(item: Item): Value
  {
    Get(item, "_type")
  }

  function IdOf(item: Item): Value
  {
    Get(item, "_id")
  }

  // ---------------------------------------------------------------------------
  // Construction

  datatype ConstructError = MissingParameters

  /** `_.get(o, key)` one level down. */
  function Field(o: Value, key: string): Value
  {
    if o.Obj? then Get(o.fields, key) else Undefined
  }

  class Application {
    const app: Value
    const allLocales: Value
    const locale: Value
    const orgName: Value
    const appName: Value
    const options: Value
    var user: Value

    constructor (app: Value, locales: Value, locale: Value, orgName: Value, user: Value)
      requires Truthy(app) && Truthy(locales) && Truthy(locale) && Truthy(orgName)
      ensures this.app == app && allLocales == locales && this.locale == locale && this.orgName == orgName
      ensures appName == Field(app, "name") && options == Field(app, "options")
      ensures this.user == user
    {
      this.app := app;
      allLocales := locales;
      this.locale := locale;
      this.orgName := orgName;
      appName := Field(app, "name");
      options := Field(app, "options");
      this.user := user;
    }

    /** `setUser`. */
    method SetUser(user: Value)
      modifies this
      ensures this.user == user
    {
      this.user := user;
    }
  }

  /** `new Application(...)`: refused unless the application, the locale
      table, the locale and the organisation name are all given. */
  method NewApplication(app: Value, locales: Value, locale: Value, orgName: Value, user: Value)
    returns (r: Result<Application, ConstructError>)
    ensures r.Err? <==> !Truthy(app) || !Truthy(locales) || !Truthy(locale) || !Truthy(orgName)
    ensures r.Ok? ==> fresh(r.value) && r.value.app == app && r.value.orgName == orgName && r.value.user == user
  {
    if !Truthy(app) || !Truthy(locales) || !Truthy(locale) || !Truthy(orgName) {
      return Err(MissingParameters);
    }
    var a := new Application(app, locales, locale, orgName, user);
    return Ok(a);
  }

  // ---------------------------------------------------------------------------
  // Built-in types in readSchema

  /** The built-in types, in the order `readSchema` lists them. */
  datatype BuiltIn = RootType | KeyType | AuditType | UserType | RoleType | PermissionType | UserRoleType

  function Rank(b: BuiltIn): nat
  {
    match b
    case RootType => 0
    case KeyType => 1
    case AuditType => 2
    case UserType => 3
    case RoleType => 4
    case PermissionType => 5
    case UserRoleType => 6
  }

  datatype SchemaError =
    | UseNotSearchable   // `authorization.use.indexOf` on a value without indexOf: TypeError
    | NoRoleOptions      // `authorization.role.multiple` without `authorization.role`: TypeError

  /** `use.indexOf(word) != -1` on an array or a string; None when `use`
      has no indexOf. */
  function Contains(use: Value, word: string): (r: Option<bool>)
    ensures r.Some? <==> use.Arr? || use.Str?
    ensures use.Arr? ==> r == Some(Str(word) in use.items)
  {
    match use
    case Arr(items) => Some(Auth.IndexIn(items, word) != -1)
    case Str(s) => Some(Auth.IndexInText(s, word, 0) != -1)
    case _ => None
  }

  /** Each type of the list comes after the ones `readSchema` lists before
      it, so no type appears twice. */
  predicate Ranked(s: seq<BuiltIn>)
  {
    forall i, j | 0 <= i < j < |s| :: Rank(s[i]) < Rank(s[j])
  }

  lemma RankedConcat(a: seq<BuiltIn>, b: seq<BuiltIn>, bound: nat)
    requires Ranked(a) && Ranked(b)
    requires forall x | x in a :: Rank(x) < bound
    requires forall y | y in b :: bound <= Rank(y)
    ensures Ranked(a + b)
  {
    var c := a + b;
    forall i, j | 0 <= i < j < |c|
      ensures Rank(c[i]) < Rank(c[j])
    {
      if j >= |a| {
        assert c[j] == b[j - |a|];
        if i < |a| {
          assert c[i] == a[i];
        } else {
          assert c[i] == b[i - |a|];
        }
      }
    }
  }

  /** The shapes the user-management part of the list can take. */
  predicate UserShape(s: seq<BuiltIn>)
  {
    s == [] || s == [UserType] || s == [UserType, RoleType, PermissionType] ||
    s == [UserType, RoleType, PermissionType, UserRoleType]
  }

  lemma UserShapeRanked(s: seq<BuiltIn>)
    requires UserShape(s)
    ensures Ranked(s) && forall x | x in s :: 3 <= Rank(x)
  {
  }

  /** The user-management part of the list, for a truthy
      `authorization.use`. */
  method UserTypes(use: Value, roleMultiple: Option<Value>) returns (r: Result<seq<BuiltIn>, SchemaError>)
    requires Truthy(use)
    ensures r.Err? <==> Contains(use, "user").None? || (Contains(use, "role") == Some(true) && roleMultiple.None?)
    ensures r.Ok? ==>
      && (UserType in r.value <==> Contains(use, "user") == Some(true) || Contains(use, "role") == Some(true))
      && (RoleType in r.value <==> Contains(use, "role") == Some(true))
      && (PermissionType in r.value <==> Contains(use, "role") == Some(true))
      && (UserRoleType in r.value <==> Contains(use, "role") == Some(true) && LooselyTrue(roleMultiple.value))
      && UserShape(r.value)
  {
    var names: seq<BuiltIn> := [];
    var user := Contains(use, "user");
    if user.None? {
      return Err(UseNotSearchable);
    }
    var role := Contains(use, "role").value;
    if user.value || role {
      names := names + [UserType];
    }
    if role {
      names := names + [RoleType, PermissionType];
      assert names == [UserType, RoleType, PermissionType];
      if roleMultiple.None? {
        return Err(NoRoleOptions);
      }
      if LooselyTrue(roleMultiple.value) {
        names := names + [UserRoleType];
      }
    } else {
      assert names == [] || names == [UserType];
    }
    return Ok(names);
  }

  /** The part of the list that does not depend on authorization. */
  method CoreTypes(defaultType: Value, audit: Value) returns (names: seq<BuiltIn>)
    ensures RootType in names <==> Truthy(defaultType)
    ensures KeyType in names
    ensures AuditType in names <==> Truthy(audit)
    ensures forall x | x in names :: Rank(x) < 3
    ensures Ranked(names)
  {
    names := [];
    if Truthy(defaultType) {
      names := names + [RootType];
    }
    names := names + [KeyType];
    if Truthy(audit) {
      names := names + [AuditType];
    }
  }

  /** The built-in type list of `readSchema`, from `options.default.type`,
      `options.audit`, `options.authorization.use` and
      `options.authorization.role.multiple` (None when
      `options.authorization.role` is missing). */
  method BuiltInTypes(defaultType: Value, audit: Value, use: Value, roleMultiple: Option<Value>)
    returns (r: Result<seq<BuiltIn>, SchemaError>)
    ensures r.Err? <==> Truthy(use) && (Contains(use, "user").None? || (Contains(use, "role") == Some(true) && roleMultiple.None?))
    ensures r.Ok? ==>
      && (RootType in r.value <==> Truthy(defaultType))
      && KeyType in r.value
      && (AuditType in r.value <==> Truthy(audit))
      && (UserType in r.value <==> Truthy(use) && (Contains(use, "user") == Some(true) || Contains(use, "role") == Some(true)))
      && (RoleType in r.value <==> Truthy(use) && Contains(use, "role") == Some(true))
      && (PermissionType in r.value <==> Truthy(use) && Contains(use, "role") == Some(true))
      && (UserRoleType in r.value <==> Truthy(use) && Contains(use, "role") == Some(true) && LooselyTrue(roleMultiple.value))
    ensures r.Ok? ==> Ranked(r.value)
  {
    var names := CoreTypes(defaultType, audit);
    if Truthy(use) {
      var more := UserTypes(use, roleMultiple);
      if more.Err? {
        return Err(more.error);
      }
      UserShapeRanked(more.value);
      RankedConcat(names, more.value, 3);
      names := names + more.value;
    }
    return Ok(names);
  }

  /** Only the user-management types depend on `authorization.use`: an
      application listing neither `user` nor `role` gets no user, role,
      permission or user-role type. */
  lemma NoAuthorizationTypes(use: seq<Value>)
    requires Str("user") !in use && Str("role") !in use
    ensures Contains(Arr(use), "user") == Some(false) && Contains(Arr(use), "role") == Some(false)
  {
  }

  // ---------------------------------------------------------------------------
  // The cache option

  /** `schema.options.cache` defaults to true when absent. */
  function WithCache(options: seq<Entry<Value>>): (r: seq<Entry<Value>>)
    ensures Has(r, "cache")
    ensures Has(options, "cache") ==> r == options
    ensures !Has(options, "cache") ==> Get(r, "cache") == Bool(true)
    ensures forall key | key != "cache" :: Find(r, key) == Find(options, key)
  {
    if Has(options, "cache") then options else Put(options, "cache", Bool(true))
  }

  // ---------------------------------------------------------------------------
  // Tagging items in readDefaultDataFiles

  /** The type a data file names: its file name up to the first `.`. */
  function FileType(fileName: string): (r: string)
    ensures '.' !in r
    ensures '.' !in fileName ==> r == fileName
    ensures r <= fileName
    ensures |r| < |fileName| ==> fileName[|r|] == '.'
  {
    SplitHead(fileName);
    Split(fileName, '.')[0]
  }

  lemma {:induction false} SplitHead(s: string)
    ensures Split(s, '.')[0] <= s
    ensures '.' !in s ==> Split(s, '.') == [s]
    ensures |Split(s, '.')[0]| < |s| ==> s[|Split(s, '.')[0]|] == '.'
  {
    if s != [] {
      SplitHead(s[1..]);
      assert s == [s[0]] + s[1..];
    }
  }

  /** An item keeps a truthy `_type`; otherwise it takes `type`. */
  function Tagged(item: Item, typeName: string): Item
  {
    if Truthy(TypeOf(item)) then item else Put(item, "_type", Str(typeName))
  }

  /** The `_type` tagging of `readDefaultDataFiles`: each file's items, in
      place, with the file's type where they name none. */
  method TagItems(files: seq<seq<Item>>, fileNames: seq<string>) returns (tagged: seq<seq<Item>>)
    requires |fileNames| == |files|
    ensures |tagged| == |files|
    ensures forall f | 0 <= f < |files| :: |tagged[f]| == |files[f]|
    ensures forall f, i | 0 <= f < |files| && 0 <= i < |files[f]| :: tagged[f][i] == Tagged(files[f][i], FileType(fileNames[f]))
  {
    tagged := files;
    var f := 0;
    while f < |files|
      invariant 0 <= f <= |files| && |tagged| == |files|
      invariant forall g | 0 <= g < |files| :: |tagged[g]| == |files[g]|
      invariant forall g, i | 0 <= g < f && 0 <= i < |files[g]| :: tagged[g][i] == Tagged(files[g][i], FileType(fileNames[g]))
      invariant forall g | f <= g < |files| :: tagged[g] == files[g]
    {
      var items := TagFile(tagged[f], FileType(fileNames[f]));
      tagged := tagged[f := items];
      f := f + 1;
    }
  }

  /** The loop over one file's items. */
  method TagFile(items: seq<Item>, typeName: string) returns (tagged: seq<Item>)
    ensures |tagged| == |items|
    ensures forall j | 0 <= j < |items| :: tagged[j] == Tagged(items[j], typeName)
  {
    tagged := items;
    var i := 0;
    while i < |tagged|
      invariant 0 <= i <= |tagged| == |items|
      invariant forall j | 0 <= j < i :: tagged[j] == Tagged(items[j], typeName)
      invariant forall j | i <= j < |tagged| :: tagged[j] == items[j]
    {
      if !Truthy(TypeOf(tagged[i])) {
        tagged := tagged[i := Put(tagged[i], "_type", Str(typeName))];
      }
      i := i + 1;
    }
  }

  /** After tagging, an item names the file's type unless it named a type
      of its own; tagging again changes nothing. */
  lemma TaggedMeaning(item: Item, typeName: string)
    ensures Truthy(TypeOf(item)) ==> TypeOf(Tagged(item, typeName)) == TypeOf(item)
    ensures !Truthy(TypeOf(item)) ==> TypeOf(Tagged(item, typeName)) == Str(typeName)
    ensures forall key | key != "_type" :: Find(Tagged(item, typeName), key) == Find(item, key)
    ensures typeName != "" ==> Tagged(Tagged(item, typeName), typeName) == Tagged(item, typeName)
  {
  }

  // ---------------------------------------------------------------------------
  // Selecting the items to load

  /** `dataFiles.flat()`. */
  function Flatten(files: seq<seq<Item>>): (r: seq<Item>)
  {
    if files == [] then [] else files[0] + Flatten(files[1..])
  }

  /** The item's `_type` is `typeName` or the name of one of its child
      types. */
  predicate InFamily(item: Item, typeName: string, children: string -> seq<string>)
  {
    TypeOf(item) == Str(typeName) || (TypeOf(item).Str? && TypeOf(item).s in children(typeName))
  }

  /** The items of one listed type or its child types, in order. */
  function OfFamily(all: seq<Item>, typeName: string, children: string -> seq<string>): (r: seq<Item>)
    ensures forall x :: x in r <==> x in all && InFamily(x, typeName, children)
  {
    if all == [] then []
    else
      var rest := OfFamily(all[1..], typeName, children);
      assert forall x :: x in all <==> x == all[0] || x in all[1..];
      if InFamily(all[0], typeName, children) then [all[0]] + rest else rest
  }

  /** The items of `app.load.data`: for each listed type in turn, the items
      of that type or of one of its child types. */
  function LoadedItems(loadData: seq<string>, all: seq<Item>, children: string -> seq<string>): (r: seq<Item>)
  {
    if loadData == [] then []
    else OfFamily(all, loadData[0], children) + LoadedItems(loadData[1..], all, children)
  }

  /** An item is loaded exactly when it is of, or under, a listed type. */
  lemma {:induction false} LoadedItemsMeaning(loadData: seq<string>, all: seq<Item>, children: string -> seq<string>, x: Item)
    ensures x in LoadedItems(loadData, all, children) <==>
      x in all && exists k | 0 <= k < |loadData| :: InFamily(x, loadData[k], children)
  {
    if loadData != [] {
      LoadedItemsMeaning(loadData[1..], all, children, x);
      if exists k | 0 <= k < |loadData| :: InFamily(x, loadData[k], children) {
        var k :| 0 <= k < |loadData| && InFamily(x, loadData[k], children);
        if k > 0 {
          assert loadData[1..][k - 1] == loadData[k];
        }
      }
      if exists k | 0 <= k < |loadData[1..]| :: InFamily(x, loadData[1..][k], children) {
        var k :| 0 <= k < |loadData[1..]| && InFamily(x, loadData[1..][k], children);
        assert loadData[k + 1] == loadData[1..][k];
      }
    }
  }

  // ---------------------------------------------------------------------------
  // Keys and generated ids in prepareKeysAndItems

  /** A key record: `_type` (the key type's name), the item's `type`, its id
      in the data files (`sid`) and its generated id (`oid`). */
  datatype Key = Key(keyType: string, typeName: Value, sid: Value, oid: Value)

  /** How an item is matched against the keys collected so far: by the
      item's own type, or as written, against the key record's `_type`. */
  datatype Lookup = ByItemType | ByKeyRecordType

  predicate Matches(key: Key, sid: Value, typeName: Value, lookup: Lookup)
  {
    key.sid == sid && (if lookup == ByItemType then key.typeName == typeName else Str(key.keyType) == typeName)
  }

  /** `_.find(keys, ...)`: the first matching key. */
  function FindKey(keys: seq<Key>, sid: Value, typeName: Value, lookup: Lookup): (r: Option<nat>)
    ensures r.Some? ==> r.value < |keys| && Matches(keys[r.value], sid, typeName, lookup)
    ensures r.Some? ==> forall k | 0 <= k < r.value :: !Matches(keys[k], sid, typeName, lookup)
    ensures r.None? <==> forall k | 0 <= k < |keys| :: !Matches(keys[k], sid, typeName, lookup)
  {
    if keys == [] then None
    else if Matches(keys[0], sid, typeName, lookup) then Some(0)
    else
      match FindKey(keys[1..], sid, typeName, lookup)
      case None => None
      case Some(k) => Some(k + 1)
  }

  /** The keys after the first `|items|` items: an item whose key is not
      found yet adds one, with the id generated at its position. */
  function KeysAfter(items: seq<Item>, keyType: string, newId: nat -> Value, lookup: Lookup): (r: seq<Key>)
  {
    if items == [] then []
    else
      var keys := KeysAfter(items[..|items| - 1], keyType, newId, lookup);
      var item := items[|items| - 1];
      if FindKey(keys, IdOf(item), TypeOf(item), lookup).Some? then keys
      else keys + [Key(keyType, TypeOf(item), IdOf(item), newId(|items| - 1))]
  }

  /** The id item `i` is given: the found key's `oid`, else the id generated
      for it. */
  function AssignedId(items: seq<Item>, i: nat, keyType: string, newId: nat -> Value, lookup: Lookup): Value
    requires i < |items|
  {
    var keys := KeysAfter(items[..i], keyType, newId, lookup);
    match FindKey(keys, IdOf(items[i]), TypeOf(items[i]), lookup)
    case Some(k) => keys[k].oid
    case None => newId(i)
  }

  /** The items with their generated ids. */
  function Keyed(items: seq<Item>, keyType: string, newId: nat -> Value): (r: seq<Item>)
    ensures |r| == |items|
    ensures forall i | 0 <= i < |items| :: IdOf(r[i]) == AssignedId(items, i, keyType, newId, ByItemType)
    ensures forall i, key | 0 <= i < |items| && key != "_id" :: Find(r[i], key) == Find(items[i], key)
  {
    seq(|items|, i requires 0 <= i < |items| => Put(items[i], "_id", AssignedId(items, i, keyType, newId, ByItemType)))
  }

  /** Keys only grow: the keys after a prefix of the items begin the keys
      after all of them. */
  lemma {:induction false} KeysGrow(items: seq<Item>, m: nat, keyType: string, newId: nat -> Value, lookup: Lookup)
    requires m <= |items|
    ensures KeysAfter(items[..m], keyType, newId, lookup) <= KeysAfter(items, keyType, newId, lookup)
    decreases |items|
  {
    if m < |items| {
      var front := items[..|items| - 1];
      assert front[..m] == items[..m];
      KeysGrow(front, m, keyType, newId, lookup);
    } else {
      assert items[..m] == items;
    }
  }

  /** No two keys share both id and type. */
  predicate UniquePairs(keys: seq<Key>)
  {
    forall i, j | 0 <= i < j < |keys| :: !(keys[i].sid == keys[j].sid && keys[i].typeName == keys[j].typeName)
  }

  /** Matched by type, every id-and-type pair gets one key. */
  lemma {:induction false} KeysUnique(items: seq<Item>, keyType: string, newId: nat -> Value)
    ensures UniquePairs(KeysAfter(items, keyType, newId, ByItemType))
    decreases |items|
  {
    if items != [] {
      var front := items[..|items| - 1];
      KeysUnique(front, keyType, newId);
      var keys := KeysAfter(front, keyType, newId, ByItemType);
      var item := items[|items| - 1];
      if FindKey(keys, IdOf(item), TypeOf(item), ByItemType).None? {
        var added := Key(keyType, TypeOf(item), IdOf(item), newId(|items| - 1));
        var r := keys + [added];
        assert KeysAfter(items, keyType, newId, ByItemType) == r;
        forall i, j | 0 <= i < j < |r|
          ensures !(r[i].sid == r[j].sid && r[i].typeName == r[j].typeName)
        {
          assert r[i] == keys[i];
          if j == |keys| {
            assert r[j] == added;
            assert !Matches(keys[i], IdOf(item), TypeOf(item), ByItemType);
          } else {
            assert r[j] == keys[j];
          }
        }
      } else {
        assert KeysAfter(items, keyType, newId, ByItemType) == keys;
      }
    }
  }

  /** Every item ends up with a key carrying its data-file id, its type and
      the id it was given. */
  lemma ItemHasKey(items: seq<Item>, i: nat, keyType: string, newId: nat -> Value)
    requires i < |items|
    ensures var keys := KeysAfter(items, keyType, newId, ByItemType);
      exists k | 0 <= k < |keys| ::
        keys[k].sid == IdOf(items[i]) && keys[k].typeName == TypeOf(items[i]) &&
        keys[k].oid == AssignedId(items, i, keyType, newId, ByItemType)
  {
    var upto := items[..i + 1];
    assert upto[..i] == items[..i];
    var before := KeysAfter(items[..i], keyType, newId, ByItemType);
    var after := KeysAfter(upto, keyType, newId, ByItemType);
    KeysGrow(items, i + 1, keyType, newId, ByItemType);
    var keys := KeysAfter(items, keyType, newId, ByItemType);
    match FindKey(before, IdOf(items[i]), TypeOf(items[i]), ByItemType)
    case Some(k) =>
      assert after == before;
      assert keys[k] == before[k];
    case None =>
      assert after == before + [Key(keyType, TypeOf(items[i]), IdOf(items[i]), newId(i))];
      assert keys[|before|] == after[|before|];
  }

  /** The id given to an item depends only on the items before it. */
  lemma AssignedIdPrefix(items: seq<Item>, n: nat, i: nat, keyType: string, newId: nat -> Value, lookup: Lookup)
    requires i < n <= |items|
    ensures AssignedId(items[..n], i, keyType, newId, lookup) == AssignedId(items, i, keyType, newId, lookup)
  {
    assert items[..n][..i] == items[..i];
    assert items[..n][i] == items[i];
  }

  /** In keys with unique pairs, the lookup finds the one key with the
      pair. */
  lemma UniqueFind(keys: seq<Key>, k: nat)
    requires UniquePairs(keys) && k < |keys|
    ensures FindKey(keys, keys[k].sid, keys[k].typeName, ByItemType) == Some(k)
  {
    var found := FindKey(keys, keys[k].sid, keys[k].typeName, ByItemType);
    assert Matches(keys[k], keys[k].sid, keys[k].typeName, ByItemType);
  }

  /** Items with the same data-file id and type get the same generated id,
      so a reference to either reaches the same document. */
  lemma SameItemSameId(items: seq<Item>, i: nat, j: nat, keyType: string, newId: nat -> Value)
    requires i < j < |items|
    requires IdOf(items[i]) == IdOf(items[j]) && TypeOf(items[i]) == TypeOf(items[j])
    ensures AssignedId(items, i, keyType, newId, ByItemType) == AssignedId(items, j, keyType, newId, ByItemType)
  {
    var front := items[..j];
    assert front[i] == items[i];
    ItemHasKey(front, i, keyType, newId);
    AssignedIdPrefix(items, j, i, keyType, newId, ByItemType);
    var keys := KeysAfter(front, keyType, newId, ByItemType);
    KeysUnique(front, keyType, newId);
    var k :| 0 <= k < |keys| && keys[k].sid == IdOf(items[i]) && keys[k].typeName == TypeOf(items[i]) &&
      keys[k].oid == AssignedId(items, i, keyType, newId, ByItemType);
    UniqueFind(keys, k);
    assert front == items[..j];
  }

  /** The items of the counterexample below: the same document twice. */
  function Twice(): seq<Item>
  {
    var note := [Entry("_id", Str("a")), Entry("_type", Str("note"))];
    [note, note]
  }

  /** As written, two items with the same id and type are never matched to
      one key: each gets a key and an id of its own. */
  lemma DuplicateItemAsWritten(newId: nat -> Value)
    requires newId(0) != newId(1)
    ensures |KeysAfter(Twice(), "_key", newId, ByKeyRecordType)| == 2
    ensures AssignedId(Twice(), 0, "_key", newId, ByKeyRecordType) != AssignedId(Twice(), 1, "_key", newId, ByKeyRecordType)
  {
    var two := Twice();
    assert IdOf(two[0]) == Str("a") && TypeOf(two[0]) == Str("note") && two[1] == two[0];
    var key := Key("_key", Str("note"), Str("a"), newId(0));
    KeysAfterNext(two, 0, "_key", newId, ByKeyRecordType);
    KeysAfterNext(two, 1, "_key", newId, ByKeyRecordType);
    assert two[..0] == [] && two[..2] == two;
    assert KeysAfter(two[..1], "_key", newId, ByKeyRecordType) == [key];
    assert !Matches(key, Str("a"), Str("note"), ByKeyRecordType);
  }

  /** Matched by type, the same two items share one key and one id. */
  lemma DuplicateItemMerged(newId: nat -> Value)
    ensures |KeysAfter(Twice(), "_key", newId, ByItemType)| == 1
    ensures AssignedId(Twice(), 0, "_key", newId, ByItemType) == AssignedId(Twice(), 1, "_key", newId, ByItemType)
  {
    var two := Twice();
    assert IdOf(two[0]) == Str("a") && TypeOf(two[0]) == Str("note") && two[1] == two[0];
    var key := Key("_key", Str("note"), Str("a"), newId(0));
    KeysAfterNext(two, 0, "_key", newId, ByItemType);
    KeysAfterNext(two, 1, "_key", newId, ByItemType);
    assert two[..0] == [] && two[..2] == two;
    assert KeysAfter(two[..1], "_key", newId, ByItemType) == [key];
    assert Matches(key, Str("a"), Str("note"), ByItemType);
  }

  /** One more item: its key is added unless one is found. */
  lemma KeysAfterNext(items: seq<Item>, i: nat, keyType: string, newId: nat -> Value, lookup: Lookup)
    requires i < |items|
    ensures var keys := KeysAfter(items[..i], keyType, newId, lookup);
      KeysAfter(items[..i + 1], keyType, newId, lookup) ==
        if FindKey(keys, IdOf(items[i]), TypeOf(items[i]), lookup).Some? then keys
        else keys + [Key(keyType, TypeOf(items[i]), IdOf(items[i]), newId(i))]
  {
    assert items[..i + 1][..i] == items[..i] && items[..i + 1][i] == items[i];
  }

  lemma KeyedNext(items: seq<Item>, i: nat, keyType: string, newId: nat -> Value)
    requires i < |items|
    ensures Keyed(items, keyType, newId)[..i + 1] ==
      Keyed(items, keyType, newId)[..i] + [Put(items[i], "_id", AssignedId(items, i, keyType, newId, ByItemType))]
  {
    var k := Keyed(items, keyType, newId);
    assert k[i] == Put(items[i], "_id", AssignedId(items, i, keyType, newId, ByItemType));
    TakeNext(k, i);
  }

  /** The key loop of `prepareKeysAndItems`: `keys` collected and each
      item's `_id` replaced. */
  method AssignKeys(items: seq<Item>, keyType: string, newId: nat -> Value) returns (keys: seq<Key>, keyed: seq<Item>)
    ensures keys == KeysAfter(items, keyType, newId, ByItemType)
    ensures keyed == Keyed(items, keyType, newId)
  {
    keys := [];
    keyed := [];
    var i := 0;
    while i < |items|
      invariant 0 <= i <= |items|
      invariant keys == KeysAfter(items[..i], keyType, newId, ByItemType)
      invariant keyed == Keyed(items, keyType, newId)[..i]
    {
      var item := items[i];
      var found := FindKey(keys, IdOf(item), TypeOf(item), ByItemType);
      var oid := newId(i);
      KeysAfterNext(items, i, keyType, newId, ByItemType);
      KeyedNext(items, i, keyType, newId);
      var id := if found.Some? then keys[found.value].oid else oid;
      if found.None? {
        keys := keys + [Key(keyType, TypeOf(item), IdOf(item), oid)];
      }
      keyed := keyed + [Put(item, "_id", id)];
      i := i + 1;
    }
    assert items[..i] == items;
  }

  // ---------------------------------------------------------------------------
  // Rewriting references in prepareKeysAndItems

  /** A reference property of an item's type: its name, `options.type`, and
      the names that type's keys may carry: the referenced type's name, then
      its child types' and its base types' names. For a name that is no type,
      getType gives `{}`, so the first entry is `undefined`, which the key
      of a tagged item never carries. */
  datatype RefProperty = RefProperty(name: string, refType: Value, family: seq<Value>)

  datatype LoadError =
    | DanglingReference(refType: Value, id: Value)   // "Referenced item not found for type: ... id: ..."

  /** The first key with the given data-file id and a type in `family`. */
  function FindRefKey(keys: seq<Key>, sid: Value, family: seq<Value>): (r: Option<nat>)
    ensures r.Some? ==> r.value < |keys| && keys[r.value].sid == sid && keys[r.value].typeName in family
    ensures r.None? <==> forall k | 0 <= k < |keys| :: !(keys[k].sid == sid && keys[k].typeName in family)
  {
    if keys == [] then None
    else if keys[0].sid == sid && keys[0].typeName in family then Some(0)
    else
      match FindRefKey(keys[1..], sid, family)
      case None => None
      case Some(k) => Some(k + 1)
  }

  /** The reference loop for one item: each present reference takes the
      generated id of the referenced item and its display text; a
      reference that matches no key stops the preparation. */
  function RewriteRefs(item: Item, refs: seq<RefProperty>, keys: seq<Key>, display: Value -> Value): (r: Result<Item, LoadError>)
    decreases |refs|
  {
    if refs == [] then Ok(item)
    else
      var ref := refs[0];
      if !Has(item, ref.name) then RewriteRefs(item, refs[1..], keys, display)
      else match FindRefKey(keys, Get(item, ref.name), ref.family)
        case None => Err(DanglingReference(ref.refType, Get(item, ref.name)))
        case Some(k) =>
          var oid := keys[k].oid;
          RewriteRefs(Put(Put(item, ref.name, oid), ref.name + "_display", display(oid)), refs[1..], keys, display)
  }

  /** Reference names are distinct and none is another's display field. */
  predicate Separate(refs: seq<RefProperty>)
  {
    forall i, j | 0 <= i < |refs| && 0 <= j < |refs| ::
      refs[i].name != refs[j].name + "_display" && (i != j ==> refs[i].name != refs[j].name)
  }

  /** The references after the first are separate too, and the first name is
      none of theirs and none of their display fields. */
  lemma SeparateTail(refs: seq<RefProperty>)
    requires refs != [] && Separate(refs)
    ensures Separate(refs[1..])
    ensures forall i | 0 <= i < |refs[1..]| ::
      refs[0].name != refs[1..][i].name && refs[0].name != refs[1..][i].name + "_display"
  {
    forall a, b | 0 <= a < |refs[1..]| && 0 <= b < |refs[1..]|
      ensures refs[1..][a].name != refs[1..][b].name + "_display" && (a != b ==> refs[1..][a].name != refs[1..][b].name)
    {
      assert refs[1..][a] == refs[a + 1] && refs[1..][b] == refs[b + 1];
    }
    forall i | 0 <= i < |refs[1..]|
      ensures refs[0].name != refs[1..][i].name && refs[0].name != refs[1..][i].name + "_display"
    {
      assert refs[1..][i] == refs[i + 1];
    }
  }

  /** A field that is no reference and no display field keeps its value. */
  lemma {:induction false} RewriteFrame(item: Item, refs: seq<RefProperty>, keys: seq<Key>, display: Value -> Value, key: string)
    requires RewriteRefs(item, refs, keys, display).Ok?
    requires forall j | 0 <= j < |refs| :: key != refs[j].name && key != refs[j].name + "_display"
    ensures Find(RewriteRefs(item, refs, keys, display).value, key) == Find(item, key)
    decreases |refs|
  {
    if refs != [] {
      var ref := refs[0];
      forall j | 0 <= j < |refs[1..]|
        ensures key != refs[1..][j].name && key != refs[1..][j].name + "_display"
      {
        assert refs[1..][j] == refs[j + 1];
      }
      if !Has(item, ref.name) {
        RewriteFrame(item, refs[1..], keys, display, key);
      } else {
        var k := FindRefKey(keys, Get(item, ref.name), ref.family).value;
        var next := Put(Put(item, ref.name, keys[k].oid), ref.name + "_display", display(keys[k].oid));
        RewriteFrame(next, refs[1..], keys, display, key);
      }
    }
  }

  /** Every reference present on an item is rewritten to the generated id
      of a key with the referenced data-file id and a type of the
      referenced family. */
  lemma {:induction false} RewritePointsToKey(item: Item, refs: seq<RefProperty>, keys: seq<Key>, display: Value -> Value, j: nat)
    requires RewriteRefs(item, refs, keys, display).Ok?
    requires Separate(refs)
    requires j < |refs| && Has(item, refs[j].name)
    ensures exists k | 0 <= k < |keys| ::
      && keys[k].sid == Get(item, refs[j].name) && keys[k].typeName in refs[j].family
      && Get(RewriteRefs(item, refs, keys, display).value, refs[j].name) == keys[k].oid
    decreases |refs|
  {
    var ref := refs[0];
    SeparateTail(refs);
    if j == 0 {
      var k := FindRefKey(keys, Get(item, ref.name), ref.family).value;
      var next := Put(Put(item, ref.name, keys[k].oid), ref.name + "_display", display(keys[k].oid));
      assert Find(next, ref.name) == Some(keys[k].oid);
      RewriteFrame(next, refs[1..], keys, display, ref.name);
    } else {
      assert refs[1..][j - 1] == refs[j];
      var name := refs[j].name;
      if !Has(item, ref.name) {
        RewritePointsToKey(item, refs[1..], keys, display, j - 1);
      } else {
        var k := FindRefKey(keys, Get(item, ref.name), ref.family).value;
        var next := Put(Put(item, ref.name, keys[k].oid), ref.name + "_display", display(keys[k].oid));
        assert Find(next, name) == Find(item, name);
        RewritePointsToKey(next, refs[1..], keys, display, j - 1);
      }
    }
  }

  /** A present reference that matches no key fails the preparation. */
  lemma {:induction false} DanglingFails(item: Item, refs: seq<RefProperty>, keys: seq<Key>, display: Value -> Value, j: nat)
    requires Separate(refs)
    requires j < |refs| && Has(item, refs[j].name)
    requires forall k | 0 <= k < |keys| :: !(keys[k].sid == Get(item, refs[j].name) && keys[k].typeName in refs[j].family)
    ensures RewriteRefs(item, refs, keys, display).Err?
  {
    if RewriteRefs(item, refs, keys, display).Ok? {
      RewritePointsToKey(item, refs, keys, display, j);
    }
  }

  /** One pass of the reference loop for one item. */
  method RewriteItem(item: Item, refs: seq<RefProperty>, keys: seq<Key>, display: Value -> Value)
    returns (r: Result<Item, LoadError>)
    ensures r == RewriteRefs(item, refs, keys, display)
  {
    var current := item;
    var j := 0;
    while j < |refs|
      invariant 0 <= j <= |refs|
      invariant RewriteRefs(item, refs, keys, display) == RewriteRefs(current, refs[j..], keys, display)
    {
      var ref := refs[j];
      assert refs[j..][0] == ref && refs[j..][1..] == refs[j + 1..];
      if Has(current, ref.name) {
        var found := FindRefKey(keys, Get(current, ref.name), ref.family);
        if found.None? {
          return Err(DanglingReference(ref.refType, Get(current, ref.name)));
        }
        var oid := keys[found.value].oid;
        current := Put(Put(current, ref.name, oid), ref.name + "_display", display(oid));
      }
      j := j + 1;
    }
    return Ok(current);
  }

  // ---------------------------------------------------------------------------
  // prepareKeysAndItems

  /** What the preparation depends on besides the items: the key type's
      name, the id generator (the `n`-th call), the user type and its
      password field with the hash function, each type's reference
      properties, and the display text of a referenced item by its id. */
  datatype Setting = Setting(
    keyType: string,
    newId: nat -> Value,
    userType: string,
    passwordKey: string,
    hash: Value -> Value,
    references: Value -> seq<RefProperty>,
    display: Value -> Value)

  /** A user item's password is replaced by its hash. */
  function Hashed(item: Item, s: Setting): (r: Item)
    ensures TypeOf(item) != Str(s.userType) ==> r == item
    ensures TypeOf(item) == Str(s.userType) ==> Get(r, s.passwordKey) == s.hash(Get(item, s.passwordKey))
  {
    if TypeOf(item) == Str(s.userType) then Put(item, s.passwordKey, s.hash(Get(item, s.passwordKey))) else item
  }

  /** The second loop: every keyed item hashed and rewritten, stopping at
      the first failure. */
  function RewriteAll(items: seq<Item>, keys: seq<Key>, s: Setting): (r: Result<seq<Item>, LoadError>)
    ensures r.Ok? ==> |r.value| == |items|
  {
    if items == [] then Ok([])
    else
      match RewriteRefs(Hashed(items[0], s), s.references(TypeOf(items[0])), keys, s.display)
      case Err(e) => Err(e)
      case Ok(item) =>
        match RewriteAll(items[1..], keys, s)
        case Err(e) => Err(e)
        case Ok(rest) => Ok([item] + rest)
  }

  /** Everything succeeds only when every item's references resolve. */
  lemma {:induction false} RewriteAllMeaning(items: seq<Item>, keys: seq<Key>, s: Setting)
    ensures RewriteAll(items, keys, s).Ok? <==>
      forall i | 0 <= i < |items| :: RewriteRefs(Hashed(items[i], s), s.references(TypeOf(items[i])), keys, s.display).Ok?
    ensures RewriteAll(items, keys, s).Ok? ==> forall i | 0 <= i < |items| ::
      RewriteAll(items, keys, s).value[i] == RewriteRefs(Hashed(items[i], s), s.references(TypeOf(items[i])), keys, s.display).value
  {
    if items != [] {
      RewriteAllMeaning(items[1..], keys, s);
      forall i | 1 <= i < |items|
        ensures items[i] == items[1..][i - 1]
      {
      }
    }
  }

  datatype Prepared = Prepared(keys: seq<Key>, items: seq<Item>)

  /** `prepareKeysAndItems` over the items it loads. */
  function Prepare(items: seq<Item>, s: Setting): (r: Result<Prepared, LoadError>)
    ensures r.Ok? ==> r.value.keys == KeysAfter(items, s.keyType, s.newId, ByItemType) && |r.value.items| == |items|
  {
    var keys := KeysAfter(items, s.keyType, s.newId, ByItemType);
    match RewriteAll(Keyed(items, s.keyType, s.newId), keys, s)
    case Err(e) => Err(e)
    case Ok(rewritten) => Ok(Prepared(keys, rewritten))
  }

  /** The items `prepareKeysAndItems` works on: `app.data` when set,
      otherwise the data files' items of the types `app.load.data` lists. */
  function ItemsToLoad(dataFiles: seq<seq<Item>>, appData: Option<seq<Item>>, loadData: seq<string>, children: string -> seq<string>): seq<Item>
  {
    if appData.Some? then appData.value else LoadedItems(loadData, Flatten(dataFiles), children)
  }

  /** `done` followed by the outcome for the remaining items. */
  function After(done: seq<Item>, rest: Result<seq<Item>, LoadError>): Result<seq<Item>, LoadError>
  {
    match rest
    case Err(e) => Err(e)
    case Ok(items) => Ok(done + items)
  }

  lemma RewriteAllStep(items: seq<Item>, i: nat, keys: seq<Key>, s: Setting, done: seq<Item>, item: Item)
    requires i < |items|
    requires RewriteRefs(Hashed(items[i], s), s.references(TypeOf(items[i])), keys, s.display) == Ok(item)
    ensures After(done, RewriteAll(items[i..], keys, s)) == After(done + [item], RewriteAll(items[i + 1..], keys, s))
  {
    assert items[i..][0] == items[i] && items[i..][1..] == items[i + 1..];
    match RewriteAll(items[i + 1..], keys, s)
    case Err(_) =>
    case Ok(rest) =>
      assert done + ([item] + rest) == done + [item] + rest;
  }

  lemma RewriteAllFails(items: seq<Item>, i: nat, keys: seq<Key>, s: Setting, done: seq<Item>, e: LoadError)
    requires i < |items|
    requires RewriteRefs(Hashed(items[i], s), s.references(TypeOf(items[i])), keys, s.display) == Err(e)
    ensures After(done, RewriteAll(items[i..], keys, s)) == Err(e)
  {
    assert items[i..][0] == items[i];
  }

  /** The second loop of `prepareKeysAndItems`. */
  method RewriteEach(keyed: seq<Item>, keys: seq<Key>, s: Setting) returns (r: Result<seq<Item>, LoadError>)
    ensures r == RewriteAll(keyed, keys, s)
  {
    var done: seq<Item> := [];
    var i := 0;
    assert keyed[0..] == keyed;
    match RewriteAll(keyed, keys, s) {
      case Err(_) =>
      case Ok(all) =>
        assert done + all == all;
    }
    while i < |keyed|
      invariant 0 <= i <= |keyed|
      invariant RewriteAll(keyed, keys, s) == After(done, RewriteAll(keyed[i..], keys, s))
    {
      var item := keyed[i];
      var refs := s.references(TypeOf(item));
      var rewritten := RewriteItem(Hashed(item, s), refs, keys, s.display);
      if rewritten.Err? {
        RewriteAllFails(keyed, i, keys, s, done, rewritten.error);
        return Err(rewritten.error);
      }
      RewriteAllStep(keyed, i, keys, s, done, rewritten.value);
      done := done + [rewritten.value];
      i := i + 1;
    }
    assert keyed[i..] == [];
    assert done + [] == done;
    return Ok(done);
  }

  /** `prepareKeysAndItems(dataFiles)`; `dataFiles` is None when falsy and
      `appData` is None when `app.data` is falsy. */
  method PrepareKeysAndItems(dataFiles: Option<seq<seq<Item>>>, appData: Option<seq<Item>>, loadData: seq<string>,
                             children: string -> seq<string>, s: Setting)
    returns (r: Result<Prepared, LoadError>)
    ensures dataFiles.None? ==> r == Ok(Prepared([], []))
    ensures dataFiles.Some? ==> r == Prepare(ItemsToLoad(dataFiles.value, appData, loadData, children), s)
  {
    if dataFiles.None? {
      return Ok(Prepared([], []));
    }
    var newItems := ItemsToLoad(dataFiles.value, appData, loadData, children);
    var keys, keyed := AssignKeys(newItems, s.keyType, s.newId);
    var rewritten := RewriteEach(keyed, keys, s);
    if rewritten.Err? {
      return Err(rewritten.error);
    }
    return Ok(Prepared(keys, rewritten.value));
  }

  /** When the preparation succeeds, every prepared item carries its
      generated id (the user password and references never touch `_id`),
      and every item's key is among the keys. */
  lemma PreparedIds(items: seq<Item>, s: Setting, i: nat)
    requires Prepare(items, s).Ok? && i < |items|
    requires forall t | t in s.references(TypeOf(items[i])) :: t.name != "_id" && t.name + "_display" != "_id"
    requires s.passwordKey != "_id"
    ensures IdOf(Prepare(items, s).value.items[i]) == AssignedId(items, i, s.keyType, s.newId, ByItemType)
  {
    var keyed := Keyed(items, s.keyType, s.newId);
    var keys := KeysAfter(items, s.keyType, s.newId, ByItemType);
    RewriteAllMeaning(keyed, keys, s);
    assert TypeOf(keyed[i]) == TypeOf(items[i]);
    var refs := s.references(TypeOf(keyed[i]));
    forall j | 0 <= j < |refs|
      ensures "_id" != refs[j].name && "_id" != refs[j].name + "_display"
    {
      assert refs[j] in refs;
    }
    var hashed := Hashed(keyed[i], s);
    RewriteFrame(hashed, refs, keys, s.display, "_id");
    var out := RewriteAll(keyed, keys, s).value;
    assert Prepare(items, s).value.items == out;
    assert out[i] == RewriteRefs(hashed, refs, keys, s.display).value;
    assert Find(hashed, "_id") == Find(keyed[i], "_id");
  }
}
