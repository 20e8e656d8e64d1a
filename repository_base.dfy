// The document-shaping helpers of the repository base class: built-in field
// defaults, the argument checks of bulk deletion, the nested descriptor that
// populates a tree type and the propagation of a populate option.
module RepositoryBase {
  import opened Wrappers
  import opened Json
  import opened Strings
  import opened Utils
  import opened Domain
  import opened Validators
  import opened Seqs

  /** The own fields `_.has` and `for ... in` see on a value: those of an
      object (the index keys of strings and arrays are not represented). */
  function FieldsOf(v: Value): seq<Entry<Value>>
  {
    if v.Obj? then v.fields else []
  }

  // ---------------------------------------------------------------------------
  // getBuiltInData
  // ---------------------------------------------------------------------------

  /** `_.has(a, key) ? a[key] : fallback`. */
  function CopyOr(a: seq<Entry<Value>>, key: string, fallback: Value): Value
  {
    if Has(a, key) then Get(a, key) else fallback
  }

  /** The audit fields getBuiltInData always fills, in its order. */
  const AuditKeys: seq<string> := ["_createdAt", "_modifiedAt", "_createdBy", "_modifiedBy", "_default"]

  /** The value the audit field `AuditKeys[k]` takes when `additional` lacks
      it: the clock reading for the two dates, `false` for `_default`, `null`
      for the two users. */
  function AuditDefault(k: nat, now: Value): Value
  {
    if k < 2 then now else if k == 4 then Bool(false) else Null
  }

  /** `getBuiltInData(additional)`: the audit fields of a document, each copied
      from `additional` or defaulted (`now` is the clock reading the source
      takes with `new Date()`); `_demo` only when present. */
  function BuiltInData(additional: Value, now: Value): seq<Entry<Value>>
  {
    if !Truthy(additional) then []
    else
      var a := FieldsOf(additional);
      seq(5, k requires 0 <= k < 5 => Entry(AuditKeys[k], CopyOr(a, AuditKeys[k], AuditDefault(k, now)))) +
      (if Has(a, "_demo") then [Entry("_demo", Get(a, "_demo"))] else [])
  }

  lemma AuditKeysDistinct()
    ensures forall i, j | 0 <= i < j < 5 :: AuditKeys[i] != AuditKeys[j]
    ensures "_demo" !in AuditKeys
  {
    assert |AuditKeys[0]| == 10 && |AuditKeys[1]| == 11 && |AuditKeys[2]| == 10;
    assert |AuditKeys[3]| == 11 && |AuditKeys[4]| == 8 && |"_demo"| == 5;
    assert AuditKeys[0][8] == 'A' && AuditKeys[2][8] == 'B';
    assert AuditKeys[1][9] == 'A' && AuditKeys[3][9] == 'B';
  }

  /** Without `additional` nothing is returned; otherwise the five audit
      fields come first in a fixed order, each holding the value of
      `additional` when it has one and its default otherwise, and `_demo`
      follows exactly when `additional` has it. */
  lemma BuiltInDataFields(additional: Value, now: Value)
    ensures !Truthy(additional) ==> BuiltInData(additional, now) == []
    ensures Truthy(additional) ==>
      var r := BuiltInData(additional, now);
      var a := FieldsOf(additional);
      DistinctKeys(r) &&
      |r| == (if Has(a, "_demo") then 6 else 5) &&
      (forall k | 0 <= k < 5 :: r[k].key == AuditKeys[k] &&
        Get(r, AuditKeys[k]) == (if Has(a, AuditKeys[k]) then Get(a, AuditKeys[k]) else AuditDefault(k, now))) &&
      (Has(a, "_demo") ==> Get(r, "_demo") == Get(a, "_demo")) &&
      (!Has(a, "_demo") ==> !Has(r, "_demo"))
  {
    if Truthy(additional) {
      var r := BuiltInData(additional, now);
      var a := FieldsOf(additional);
      BuiltInDataDistinct(additional, now);
      forall k | 0 <= k < 5
        ensures Get(r, AuditKeys[k]) == (if Has(a, AuditKeys[k]) then Get(a, AuditKeys[k]) else AuditDefault(k, now))
      {
        GetOfDistinct(r, k);
      }
      if Has(a, "_demo") {
        GetOfDistinct(r, 5);
      } else {
        assert "_demo" !in Keys(r);
      }
    }
  }

  /** The keys of a non-empty built-in record: the audit keys in order, then
      `_demo` when present, all distinct. */
  lemma BuiltInDataDistinct(additional: Value, now: Value)
    requires Truthy(additional)
    ensures var r := BuiltInData(additional, now);
      |r| == (if Has(FieldsOf(additional), "_demo") then 6 else 5) &&
      (forall k | 0 <= k < 5 :: r[k].key == AuditKeys[k]) &&
      (|r| == 6 ==> r[5].key == "_demo") &&
      Keys(r) == AuditKeys + (if |r| == 6 then ["_demo"] else []) &&
      DistinctKeys(r)
  {
    var r := BuiltInData(additional, now);
    AuditKeysDistinct();
    assert Keys(r) == AuditKeys + (if |r| == 6 then ["_demo"] else []);
    forall i, j | 0 <= i < j < |r| ensures r[i].key != r[j].key {
      assert r[i].key == Keys(r)[i] && r[j].key == Keys(r)[j];
    }
  }

  // ---------------------------------------------------------------------------
  // baseDeleteDocuments: argument checks
  // ---------------------------------------------------------------------------

  datatype DeleteError =
    | IdsNotArray   // `ids` is not an array
    | IdNotString   // an entry is nil, or its `_id` is not a string (isUUID raises a TypeError)
    | NotAllUuids   // some `_id` is not a UUID

  /** The `_id` of one entry of `ids` passes `validator.isUUID`. */
  predicate IsUuidKey(keys: Value, isUUID: string -> bool)
  {
    DocGet(keys, "_id").Str? && isUUID(DocGet(keys, "_id").s)
  }

  /** The checks baseDeleteDocuments makes before deleting anything; on
      success the entries to delete. */
  function DeleteDocumentsCheck(ids: Value, isUUID: string -> bool): (r: Result<seq<Value>, DeleteError>)
    ensures r == Err(IdsNotArray) <==> !ids.Arr?
    ensures r.Ok? <==> ids.Arr? && forall k | 0 <= k < |ids.items| :: IsUuidKey(ids.items[k], isUUID)
    ensures r.Ok? ==> r.value == ids.items
  {
    if !ids.Arr? then Err(IdsNotArray)
    else if exists k | 0 <= k < |ids.items| :: !DocGet(ids.items[k], "_id").Str? then Err(IdNotString)
    else if exists k | 0 <= k < |ids.items| :: !IsUuidKey(ids.items[k], isUUID) then Err(NotAllUuids)
    else Ok(ids.items)
  }

  // ---------------------------------------------------------------------------
  // setPopulateProperty / setPopulateItemProperty
  // ---------------------------------------------------------------------------

  datatype PopulateError =
    | NotIterable   // `for ... of` over a value that is not iterable
    | NotAnObject   // a property assigned on a primitive (strict mode)
    | SelfPopulate  // the option is `populate` itself: its value is walked as the new list

  /** `setPopulateItemProperty(item, name, value)`. */
  function SetPopulateItem(item: Value, name: string, value: Value): (r: Result<Value, PopulateError>)
    decreases item, 2
  {
    match item
    case Obj(fields) =>
      var f := Put(fields, name, value);
      if name == "populate" then
        if !Truthy(value) || value == Arr([]) then Ok(Obj(f)) else Err(SelfPopulate)
      else
        var sub := Get(fields, "populate");
        FieldSmaller(item, "populate");
        if !Truthy(sub) then Ok(Obj(f))
        else
          (match SetPopulate(sub, name, value)
           case Err(e) => Err(e)
           case Ok(s) => Ok(Obj(Put(f, "populate", s))))
    case Arr(_) => Ok(item)
    case _ => Err(NotAnObject)
  }

  /** `setPopulateProperty(populate, name, value)`. */
  function SetPopulate(populate: Value, name: string, value: Value): (r: Result<Value, PopulateError>)
    decreases populate, 1
  {
    match populate
    case Arr(items) =>
      (match SetPopulateFrom(populate, 0, name, value)
       case Err(e) => Err(e)
       case Ok(s) => Ok(Arr(s)))
    case Str(s) => if s == "" then Ok(populate) else Err(NotAnObject)
    case _ => Err(NotIterable)
  }

  /** The items of the list from index `k` on, each through SetPopulateItem. */
  function SetPopulateFrom(populate: Value, k: nat, name: string, value: Value): (r: Result<seq<Value>, PopulateError>)
    requires populate.Arr?
    decreases populate, 0, |populate.items| - k
  {
    if k >= |populate.items| then Ok([])
    else
      match SetPopulateItem(populate.items[k], name, value)
      case Err(e) => Err(e)
      case Ok(x) =>
        (match SetPopulateFrom(populate, k + 1, name, value)
         case Err(e) => Err(e)
         case Ok(rest) => Ok([x] + rest))
  }

  /** The list keeps its length and order: item `j` becomes what
      SetPopulateItem makes of it. */
  lemma {:induction false} SetPopulateFromItems(populate: Value, k: nat, name: string, value: Value)
    requires populate.Arr? && k <= |populate.items|
    ensures var r := SetPopulateFrom(populate, k, name, value);
      r.Ok? <==> forall j | k <= j < |populate.items| :: SetPopulateItem(populate.items[j], name, value).Ok?
    ensures var r := SetPopulateFrom(populate, k, name, value);
      r.Ok? ==> (|r.value| == |populate.items| - k &&
        forall j | k <= j < |populate.items| :: SetPopulateItem(populate.items[j], name, value) == Ok(r.value[j - k]))
    decreases |populate.items| - k
  {
    if k < |populate.items| {
      SetPopulateFromItems(populate, k + 1, name, value);
      var r := SetPopulateFrom(populate, k, name, value);
      var x := SetPopulateItem(populate.items[k], name, value);
      var rest := SetPopulateFrom(populate, k + 1, name, value);
      if x.Ok? && rest.Ok? {
        assert r == Ok([x.value] + rest.value);
        forall j | k <= j < |populate.items|
          ensures SetPopulateItem(populate.items[j], name, value) == Ok(r.value[j - k])
        {
          if j > k {
            assert r.value[j - k] == rest.value[j - (k + 1)];
          }
        }
      } else {
        assert r.Err?;
      }
    }
  }

  /** Every item of a populate list, at every depth, carries `name: value`. */
  predicate Carries(populate: Value, name: string, value: Value)
    decreases populate, 1
  {
    populate.Arr? ==> forall k | 0 <= k < |populate.items| :: ItemCarries(populate.items[k], name, value)
  }

  predicate ItemCarries(item: Value, name: string, value: Value)
    decreases item, 0
  {
    item.Obj? ==>
      var sub := Get(item.fields, "populate");
      FieldSmaller(item, "populate");
      Find(item.fields, name) == Some(value) &&
      (name != "populate" && Truthy(sub) ==> Carries(sub, name, value))
  }

  /** What setPopulateItemProperty does to one object: `name` is set, every
      other field but `populate` is left alone, and a nested list is
      processed in turn. */
  lemma SetPopulateItemFields(item: Value, name: string, value: Value)
    requires item.Obj?
    requires SetPopulateItem(item, name, value).Ok?
    ensures var r := SetPopulateItem(item, name, value).value;
      r.Obj? &&
      Keys(r.fields) == Keys(Put(item.fields, name, value)) &&
      Find(r.fields, name) == Some(value) &&
      (forall other | other != name && other != "populate" :: Find(r.fields, other) == Find(item.fields, other)) &&
      (name != "populate" && Truthy(Get(item.fields, "populate")) ==>
        SetPopulate(Get(item.fields, "populate"), name, value) == Ok(Get(r.fields, "populate")))
  {
    var f := Put(item.fields, name, value);
    if name != "populate" && Truthy(Get(item.fields, "populate")) {
      assert "populate" in Keys(item.fields);
      assert "populate" in Keys(f);
    }
  }

  /** After a successful run every item at every depth carries the option. */
  lemma {:induction false} SetPopulateCarries(populate: Value, name: string, value: Value)
    requires SetPopulate(populate, name, value).Ok?
    ensures Carries(SetPopulate(populate, name, value).value, name, value)
    decreases populate, 1
  {
    if populate.Arr? {
      var r := SetPopulate(populate, name, value).value;
      SetPopulateFromItems(populate, 0, name, value);
      forall k | 0 <= k < |r.items| ensures ItemCarries(r.items[k], name, value) {
        SetPopulateItemCarries(populate.items[k], name, value);
      }
    }
  }

  lemma {:induction false} SetPopulateItemCarries(item: Value, name: string, value: Value)
    requires SetPopulateItem(item, name, value).Ok?
    ensures ItemCarries(SetPopulateItem(item, name, value).value, name, value)
    decreases item, 2
  {
    if item.Obj? {
      var r := SetPopulateItem(item, name, value).value;
      SetPopulateItemFields(item, name, value);
      var sub := Get(item.fields, "populate");
      if name != "populate" && Truthy(sub) {
        FieldSmaller(item, "populate");
        SetPopulateCarries(sub, name, value);
      }
    }
  }

  /** setPopulateProperty's loop: each slot of the list is overwritten with
      the processed item. On failure the items before the failing one have
      been processed and the rest are untouched. */
  method SetPopulateProperty(populate: array<Value>, name: string, value: Value) returns (r: Result<(), PopulateError>)
    modifies populate
    ensures r.Ok? <==> SetPopulate(Arr(old(populate[..])), name, value).Ok?
    ensures r.Ok? ==> Arr(populate[..]) == SetPopulate(Arr(old(populate[..])), name, value).value
    ensures forall k | 0 <= k < populate.Length ::
      populate[k] == old(populate[k]) || SetPopulateItem(old(populate[k]), name, value) == Ok(populate[k])
  {
    ghost var before := Arr(populate[..]);
    SetPopulateFromItems(before, 0, name, value);
    for i := 0 to populate.Length
      invariant forall k | 0 <= k < i :: SetPopulateItem(old(populate[k]), name, value) == Ok(populate[k])
      invariant forall k | i <= k < populate.Length :: populate[k] == old(populate[k])
    {
      var item := SetPopulateItem(populate[i], name, value);
      if item.Err? {
        return Err(item.error);
      }
      populate[i] := item.value;
    }
    r := Ok(());
    var s := SetPopulate(before, name, value);
    assert Arr(populate[..]) == s.value by {
      assert populate[..] == s.value.items;
    }
  }

  // ---------------------------------------------------------------------------
  // prepareTreePopulateItem
  // ---------------------------------------------------------------------------

  /** One segment of a lodash property path: `name` or `[index]`. */
  datatype Step = Key(key: string) | Index(index: nat)

  /** `_.set(v, path, x)` along a path whose every step exists or is created:
      a missing object step makes an object, a missing index pads the array. */
  function SetPath(v: Value, path: seq<Step>, x: Value): Value
    decreases |path|
  {
    if path == [] then x
    else
      match path[0]
      case Key(k) =>
        var fs := FieldsOf(v);
        Obj(Put(fs, k, SetPath(Get(fs, k), path[1..], x)))
      case Index(i) =>
        var items := if v.Arr? then v.items else [];
        var padded := if i < |items| then items else items + seq(i + 1 - |items|, _ => Undefined);
        Arr(padded[i := SetPath(padded[i], path[1..], x)])
  }

  /** The path `populate[0]` repeated `j` times, followed by `rest`. */
  function Levels(j: nat, rest: seq<Step>): seq<Step>
  {
    if j == 0 then rest else [Key("populate"), Index(0)] + Levels(j - 1, rest)
  }

  lemma {:induction false} LevelsAppend(j: nat, rest: seq<Step>, more: seq<Step>)
    ensures Levels(j, rest) + more == Levels(j, rest + more)
  {
    if j > 0 {
      LevelsAppend(j - 1, rest, more);
      assert ([Key("populate"), Index(0)] + Levels(j - 1, rest)) + more ==
             [Key("populate"), Index(0)] + (Levels(j - 1, rest) + more);
    }
  }

  lemma {:induction false} LevelsSnoc(j: nat)
    ensures Levels(j, [Key("populate"), Index(0)]) == Levels(j + 1, [])
  {
    if j > 0 {
      LevelsSnoc(j - 1);
    }
  }

  /** One level of the descriptor: the children item whose `populate` list
      holds the next level and the parent. */
  function Wrap(base: seq<Entry<Value>>, parent: Value, inner: Value): Value
  {
    Obj(Put(base, "populate", Arr([inner, parent])))
  }

  function Placeholder(base: seq<Entry<Value>>, parent: Value): Value
  {
    Wrap(base, parent, Obj([]))
  }

  /** `j` levels around `bottom`. */
  function Tower(base: seq<Entry<Value>>, parent: Value, j: nat, bottom: Value): Value
  {
    if j == 0 then bottom else Wrap(base, parent, Tower(base, parent, j - 1, bottom))
  }

  lemma {:induction false} PutTwice<V>(m: seq<Entry<V>>, key: string, a: V, b: V)
    ensures Put(Put(m, key, a), key, b) == Put(m, key, b)
  {
    if m != [] && m[0].key != key {
      PutTwice(m[1..], key, a, b);
      assert Put(m, key, a)[1..] == Put(m[1..], key, a);
    }
  }

  /** Setting through one level sets inside its first populate entry. */
  lemma SetWrapped(base: seq<Entry<Value>>, parent: Value, inner: Value, tail: seq<Step>, x: Value)
    ensures SetPath(Wrap(base, parent, inner), [Key("populate"), Index(0)] + tail, x) ==
            Wrap(base, parent, SetPath(inner, tail, x))
  {
    SetThroughPair(base, "populate", inner, parent, tail, x);
  }

  /** Setting through index 0 of the pair stored under `k`. */
  lemma SetThroughPair(base: seq<Entry<Value>>, k: string, inner: Value, parent: Value, tail: seq<Step>, x: Value)
    ensures SetPath(Obj(Put(base, k, Arr([inner, parent]))), [Key(k), Index(0)] + tail, x) ==
            Obj(Put(base, k, Arr([SetPath(inner, tail, x), parent])))
  {
    var pair := Arr([inner, parent]);
    var fs := Put(base, k, pair);
    var updated := Arr([SetPath(inner, tail, x), parent]);
    PairCons(Key(k), Index(0), tail);
    assert Get(fs, k) == pair;
    SetFirstOfPair(inner, parent, tail, x);
    SetKeyStep(fs, k, [Index(0)] + tail, x);
    PutTwice(base, k, pair, updated);
  }

  /** Setting along a path that starts with a key sets under that key. */
  lemma SetKeyStep(fs: seq<Entry<Value>>, k: string, tail: seq<Step>, x: Value)
    ensures SetPath(Obj(fs), [Key(k)] + tail, x) == Obj(Put(fs, k, SetPath(Get(fs, k), tail, x)))
  {
    ConsTail(Key(k), tail);
  }

  /** Setting along a path that starts with index 0 of a pair sets its first item. */
  lemma SetFirstOfPair(inner: Value, parent: Value, tail: seq<Step>, x: Value)
    ensures SetPath(Arr([inner, parent]), [Index(0)] + tail, x) == Arr([SetPath(inner, tail, x), parent])
  {
    ConsTail(Index(0), tail);
    assert [inner, parent][0 := SetPath(inner, tail, x)] == [SetPath(inner, tail, x), parent];
  }

  /** Setting through the `j` levels sets inside the bottom. */
  lemma {:induction false} SetTower(base: seq<Entry<Value>>, parent: Value, j: nat, bottom: Value, rest: seq<Step>, x: Value)
    ensures SetPath(Tower(base, parent, j, bottom), Levels(j, rest), x) ==
            Tower(base, parent, j, SetPath(bottom, rest, x))
  {
    if j > 0 {
      var inner := Tower(base, parent, j - 1, bottom);
      SetWrapped(base, parent, inner, Levels(j - 1, rest), x);
      SetTower(base, parent, j - 1, bottom, rest, x);
    }
  }

  /** An even step of the loop: the bottom children item gets `populate:
      [{}, parent]`. */
  lemma EvenStep(base: seq<Entry<Value>>, parent: Value, j: nat)
    ensures SetPath(Tower(base, parent, j, Obj(base)), Levels(j, [Key("populate")]), Arr([Obj([]), parent])) ==
            Tower(base, parent, j, Obj(Put(base, "populate", Arr([Obj([]), parent]))))
  {
    SetTower(base, parent, j, Obj(base), [Key("populate")], Arr([Obj([]), parent]));
    assert SetPath(Obj(base), [Key("populate")], Arr([Obj([]), parent])) == Obj(Put(base, "populate", Arr([Obj([]), parent])));
  }

  /** An odd step: the `{}` placeholder becomes the next children item, which
      completes one more level. */
  lemma OddStep(base: seq<Entry<Value>>, parent: Value, j: nat)
    ensures SetPath(Tower(base, parent, j, Obj(Put(base, "populate", Arr([Obj([]), parent])))),
                    Levels(j, [Key("populate"), Index(0)]), Obj(base)) ==
            Tower(base, parent, j + 1, Obj(base))
  {
    var bottom := Obj(Put(base, "populate", Arr([Obj([]), parent])));
    SetTower(base, parent, j, bottom, [Key("populate"), Index(0)], Obj(base));
    SetWrapped(base, parent, Obj([]), [], Obj(base));
    assert [Key("populate"), Index(0)] + [] == [Key("populate"), Index(0)];
    assert Wrap(base, parent, Obj([])) == bottom;
    TowerOuter(base, parent, j, Obj(base));
  }

  lemma {:induction false} TowerOuter(base: seq<Entry<Value>>, parent: Value, j: nat, bottom: Value)
    ensures Tower(base, parent, j, Wrap(base, parent, bottom)) == Tower(base, parent, j + 1, bottom)
  {
    if j > 0 {
      TowerOuter(base, parent, j - 1, bottom);
      var inner := Tower(base, parent, j - 1, Wrap(base, parent, bottom));
      assert inner == Tower(base, parent, j, bottom);
    }
  }

  /** `{ path, ...options }` as `_.assign` builds it. */
  function PathItem(path: string, options: Value): seq<Entry<Value>>
  {
    AssignIn([Entry("path", Str(path))], FieldsOf(options))
  }

  /** What prepareTreePopulateItem returns: `{ parent, children }`. */
  datatype TreePopulate = TreePopulate(parent: Value, children: Value)

  datatype TreeError = EmptyTypeName

  /** The tree the type resolver reports for `typeName`, if any. */
  function TreeOf(types: seq<TypeDecl>, typeName: string): Option<Tree>
    requires Acyclic(types)
  {
    match FindType(types, typeName)
    case None => None
    case Some(i) => EffectiveTree(types, i)
  }

  /** How many times the loop runs: `(maxDepth - 1) * 2`, none when
      `maxDepth` is absent (`NaN` compares false). */
  function NestingSteps(t: Tree): (n: int)
    ensures n % 2 == 0
  {
    if t.maxDepth.Some? then (t.maxDepth.value - 1) * 2 else 0
  }

  /** The descriptor for a type whose tree is `t`: the parent item, and the
      children item nested through `(maxDepth - 1) * 2` loop steps. */
  function Descriptor(t: Tree, options: Value): TreePopulate
  {
    var parent := Obj(PathItem(t.parent, DocGet(options, "parentOptions")));
    var base := PathItem(t.children, DocGet(options, "childrenOptions"));
    var n := NestingSteps(t);
    TreePopulate(parent, Tower(base, parent, if n > 0 then n / 2 else 0, Obj(base)))
  }

  /** prepareTreePopulateItem(typeName, options): the populate descriptor of
      the parent and the children, nested `maxDepth` levels deep. */
  function TreePopulateOf(types: seq<TypeDecl>, typeName: string, options: Value): (r: Result<TreePopulate, TreeError>)
    requires Acyclic(types)
    ensures r.Err? <==> typeName == ""
    ensures r.Ok? && TreeOf(types, typeName).None? ==> r.value == TreePopulate(Undefined, Undefined)
    ensures r.Ok? && TreeOf(types, typeName).Some? ==> r.value == Descriptor(TreeOf(types, typeName).value, options)
  {
    if typeName == "" then Err(EmptyTypeName)
    else
      match TreeOf(types, typeName)
      case None => Ok(TreePopulate(Undefined, Undefined))
      case Some(t) => Ok(Descriptor(t, options))
  }

  /** The method form of prepareTreePopulateItem. */
  method PrepareTreePopulateItem(types: seq<TypeDecl>, typeName: string, options: Value) returns (r: Result<TreePopulate, TreeError>)
    requires Acyclic(types)
    ensures r == TreePopulateOf(types, typeName, options)
  {
    if typeName == "" {
      return Err(EmptyTypeName);
    }
    var tree := TreeOf(types, typeName);
    if tree.None? {
      return Ok(TreePopulate(Undefined, Undefined));
    }
    var t := tree.value;
    var parent := Obj(PathItem(t.parent, DocGet(options, "parentOptions")));
    var base := PathItem(t.children, DocGet(options, "childrenOptions"));
    var item := NestLevels(base, parent, NestingSteps(t));
    r := Ok(TreePopulate(parent, item));
  }

  /** The loop of prepareTreePopulateItem: it extends the lodash path one
      segment at a time (`populate`, then `[0]`) and sets there a
      `[{}, parent]` pair, then the next children item. After `2j` steps the
      item has `j` full levels, after `2j + 1` steps also the placeholder pair
      at the bottom. */
  method NestLevels(base: seq<Entry<Value>>, parent: Value, n: int) returns (item: Value)
    requires n % 2 == 0
    ensures item == Tower(base, parent, if n > 0 then n / 2 else 0, Obj(base))
  {
    item := Obj(base);
    var fullPath: seq<Step> := [];
    var i := 0;
    ghost var j: nat := 0;
    ghost var odd := false;
    ghost var bottom := Placeholder(base, parent);
    while i < n
      invariant 0 <= i && (n > 0 ==> i <= n) && (n <= 0 ==> i == 0)
      invariant i == 2 * j + (if odd then 1 else 0)
      invariant !odd ==> fullPath == Levels(j, []) && item == Tower(base, parent, j, Obj(base))
      invariant odd ==> fullPath == Levels(j, [Key("populate")]) && item == Tower(base, parent, j, bottom)
    {
      Parity(i, j, odd);
      if i % 2 == 0 {
        fullPath, item := SetPlaceholder(base, parent, j, fullPath, item);
        odd := true;
      } else {
        fullPath, item := SetChildren(base, parent, j, fullPath, item);
        j, odd := j + 1, false;
      }
      i := i + 1;
    }
    if n > 0 {
      Parity(i, j, odd);
      Half(n, j);
    }
  }

  /** The parity of the step counter tells the two kinds of step apart. */
  lemma Parity(i: int, j: nat, odd: bool)
    requires i == 2 * j + (if odd then 1 else 0)
    ensures i % 2 == 0 <==> !odd
  {
  }

  lemma Half(n: int, j: nat)
    requires n == 2 * j
    ensures n / 2 == j
  {
  }

  /** An even step of the loop: `fullPath += "populate"` and a `[{}, parent]`
      pair set there. */
  method SetPlaceholder(base: seq<Entry<Value>>, parent: Value, ghost j: nat, fullPath: seq<Step>, item: Value)
    returns (path: seq<Step>, next: Value)
    requires fullPath == Levels(j, []) && item == Tower(base, parent, j, Obj(base))
    ensures path == Levels(j, [Key("populate")])
    ensures next == Tower(base, parent, j, Placeholder(base, parent))
  {
    LevelsAppend(j, [], [Key("populate")]);
    assert [] + [Key("populate")] == [Key("populate")];
    EvenStep(base, parent, j);
    path := fullPath + [Key("populate")];
    next := SetPath(item, path, Arr([Obj([]), parent]));
  }

  /** An odd step: `fullPath += "[0]"` and the next children item set there. */
  method SetChildren(base: seq<Entry<Value>>, parent: Value, ghost j: nat, fullPath: seq<Step>, item: Value)
    returns (path: seq<Step>, next: Value)
    requires fullPath == Levels(j, [Key("populate")])
    requires item == Tower(base, parent, j, Placeholder(base, parent))
    ensures path == Levels(j + 1, [])
    ensures next == Tower(base, parent, j + 1, Obj(base))
  {
    LevelsAppend(j, [Key("populate")], [Index(0)]);
    assert [Key("populate")] + [Index(0)] == [Key("populate"), Index(0)];
    LevelsSnoc(j);
    OddStep(base, parent, j);
    path := fullPath + [Index(0)];
    var citem := Obj(base);
    next := SetPath(item, path, citem);
  }

  /** The number of children levels a descriptor reaches along the first
      entries of its `populate` lists. */
  function Depth(v: Value): nat
    decreases v
  {
    if v.Obj? then
      var p := Get(v.fields, "populate");
      FieldSmaller(v, "populate");
      if p.Arr? && |p.items| > 0 then 1 + Depth(p.items[0]) else 1
    else 0
  }

  /** Every one of the `j` outer levels pairs the next level with the parent. */
  predicate PairsWithParent(v: Value, parent: Value, j: nat)
    decreases j
  {
    j > 0 ==>
      v.Obj? && Get(v.fields, "populate").Arr? && |Get(v.fields, "populate").items| == 2 &&
      Get(v.fields, "populate").items[1] == parent &&
      PairsWithParent(Get(v.fields, "populate").items[0], parent, j - 1)
  }

  lemma WrapPopulate(base: seq<Entry<Value>>, parent: Value, inner: Value)
    ensures Wrap(base, parent, inner).Obj?
    ensures Get(Wrap(base, parent, inner).fields, "populate") == Arr([inner, parent])
  {
  }

  /** A level adds one to the depth. */
  lemma DepthWrap(base: seq<Entry<Value>>, parent: Value, inner: Value)
    ensures Depth(Wrap(base, parent, inner)) == 1 + Depth(inner)
  {
    WrapPopulate(base, parent, inner);
  }

  /** The outermost level of a tower adds one to the depth. */
  lemma TowerDepthStep(base: seq<Entry<Value>>, parent: Value, j: nat, bottom: Value)
    requires j > 0
    ensures Depth(Tower(base, parent, j, bottom)) == 1 + Depth(Tower(base, parent, j - 1, bottom))
  {
    DepthWrap(base, parent, Tower(base, parent, j - 1, bottom));
  }

  lemma {:induction false} TowerDepth(base: seq<Entry<Value>>, parent: Value, j: nat, bottom: Value)
    ensures Depth(Tower(base, parent, j, bottom)) == j + Depth(bottom)
  {
    if j > 0 {
      TowerDepth(base, parent, j - 1, bottom);
      TowerDepthStep(base, parent, j, bottom);
    }
  }

  lemma {:induction false} TowerPairs(base: seq<Entry<Value>>, parent: Value, j: nat, bottom: Value)
    ensures PairsWithParent(Tower(base, parent, j, bottom), parent, j)
  {
    if j > 0 {
      var inner := Tower(base, parent, j - 1, bottom);
      TowerPairs(base, parent, j - 1, bottom);
      WrapPopulate(base, parent, inner);
    }
  }

  /** For a tree with `maxDepth` m at least 1, and children options that do
      not set `populate` themselves, the children descriptor reaches m levels,
      each of the m - 1 outer ones pairing the next level with the parent. */
  lemma DescriptorDepth(t: Tree, options: Value)
    requires !Has(FieldsOf(DocGet(options, "childrenOptions")), "populate")
    ensures var r := Descriptor(t, options);
      t.maxDepth.Some? && t.maxDepth.value >= 1 ==>
        Depth(r.children) == t.maxDepth.value && PairsWithParent(r.children, r.parent, t.maxDepth.value - 1)
  {
    if t.maxDepth.Some? && t.maxDepth.value >= 1 {
      var r := Descriptor(t, options);
      var base := PathItem(t.children, DocGet(options, "childrenOptions"));
      var levels := t.maxDepth.value - 1;
      NestingLevels(t);
      assert r.children == Tower(base, r.parent, levels, Obj(base));
      AssignInKeeps([Entry("path", Str(t.children))], FieldsOf(DocGet(options, "childrenOptions")), "populate");
      BaseTower(base, r.parent, levels);
    }
  }

  /** Without `maxDepth` the children item is the bare `{ path, ...options }`. */
  lemma DescriptorFlat(t: Tree, options: Value)
    ensures t.maxDepth.None? ==> Descriptor(t, options).children == Obj(PathItem(t.children, DocGet(options, "childrenOptions")))
  {
  }

  /** A tower over an item without `populate` is one level deeper than its
      nesting, and every nesting level pairs with the parent. */
  lemma BaseTower(base: seq<Entry<Value>>, parent: Value, levels: nat)
    requires "populate" !in Keys(base)
    ensures Depth(Tower(base, parent, levels, Obj(base))) == levels + 1
    ensures PairsWithParent(Tower(base, parent, levels, Obj(base)), parent, levels)
  {
    TowerDepth(base, parent, levels, Obj(base));
    TowerPairs(base, parent, levels, Obj(base));
    assert Get(base, "populate") == Undefined;
  }

  /** `(maxDepth - 1) * 2` loop steps nest `maxDepth - 1` levels. */
  lemma NestingLevels(t: Tree)
    requires t.maxDepth.Some? && t.maxDepth.value >= 1
    ensures (if NestingSteps(t) > 0 then NestingSteps(t) / 2 else 0) == t.maxDepth.value - 1
  {
    var k := t.maxDepth.value - 1;
    assert NestingSteps(t) == k * 2 == k + k;
  }

  /** A key that neither side has is absent after `_.assignIn`. */
  lemma {:induction false} AssignInKeeps<V>(target: seq<Entry<V>>, source: seq<Entry<V>>, key: string)
    requires key !in Keys(target) && key !in Keys(source)
    ensures key !in Keys(AssignIn(target, source))
    decreases |source|
  {
    if source != [] {
      assert Keys(source)[0] == source[0].key;
      assert Find(Put(target, source[0].key, source[0].val), key) == Find(target, key);
      assert Keys(source[1..]) == Keys(source)[1..];
      AssignInKeeps(Put(target, source[0].key, source[0].val), source[1..], key);
    }
  }
}
