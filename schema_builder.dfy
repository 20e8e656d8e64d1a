// The schema compiler of src/mongoose/schema.builder.js: the field map of
// every type (built-in fields, one field per storable property, nested maps
// for object-typed properties), the collection name and the merge of base
// field maps, with the mongoose calls left out.
module SchemaBuilder {
  import opened Wrappers
  import opened Json
  import opened Domain
  import opened StringValidations
  import opened Validators
  import opened Seqs
  import opened Manager

  // ---------------------------------------------------------------------------
  // Field types and fields
  // ---------------------------------------------------------------------------

  /** The mongoose schema types a field can be stored as. */
  datatype StorageType = StringType | NumberType | BooleanType | DateType | MixedType

  /** `fieldTypes[kind]` (lines 35-47): `undefined` for a collection. */
  function FieldType(k: Kind): (r: Option<StorageType>)
    ensures r.None? <==> k == CollectionKind
    ensures r == Some(StringType) <==> k == StringKind || k == ReferenceKind || k == CalculatedKind
    ensures r == Some(MixedType) <==> k == LocalizedKind || k == ObjectKind || k == ArrayKind || k == MixedKind
    ensures r == Some(NumberType) <==> k == NumberKind
    ensures r == Some(BooleanType) <==> k == BooleanKind
    ensures r == Some(DateType) <==> k == DateKind
  {
    match k
    case StringKind => Some(StringType)
    case LocalizedKind => Some(MixedType)
    case NumberKind => Some(NumberType)
    case BooleanKind => Some(BooleanType)
    case DateKind => Some(DateType)
    case ObjectKind => Some(MixedType)
    case ArrayKind => Some(MixedType)
    case MixedKind => Some(MixedType)
    case ReferenceKind => Some(StringType)
    case CollectionKind => None
    case CalculatedKind => Some(StringType)
  }

  /** The `default` of a field: a property's own default, or one of the
      generators of the built-in fields. */
  datatype Default =
    | NoDefault
    | Fixed(value: Value)
    | NewUuid      // uuid.v1
    | EmptyText    // () => ''
    | FalseFlag    // () => false
    | Now          // () => new Date()
    | NoUser       // () => null

  /** A field of a schema: a leaf with its type, its settings by name, its
      default and its validators, or the field map of an object-typed
      property, alone or in a one-element array. */
  datatype SchemaField =
    | Field(storage: Option<StorageType>, settings: seq<Entry<Value>>, defaultValue: Default, validate: seq<Validator>)
    | Nested(fields: seq<Entry<SchemaField>>)
    | NestedArray(fields: seq<Entry<SchemaField>>)

  /** What building a schema needs besides the types: the application
      options, the user type's name, the builder's locale, template
      interpolation, the locale tables, the validator library's names, the
      configured unique and required messages, `slug` and `pluralize`. */
  datatype Env = Env(
    types: seq<TypeDecl>,
    opts: AppOptions,
    userType: string,
    locale: string,
    interp: string -> string,
    locales: string -> Option<Value>,
    builtIn: string -> bool,
    uniqueMessage: Option<map<string, string>>,
    requiredMessage: Option<map<string, string>>,
    slug: (string, bool) -> string,
    pluralize: string -> string)

  predicate HasDefaultType(opts: AppOptions)
  {
    opts.defaultType.Some? && opts.defaultType.value != ""
  }

  predicate ValidEnv(env: Env)
  {
    Acyclic(env.types) &&
    (HasDefaultType(env.opts) ==> ChildTypes(env.types, env.opts.defaultType.value).Some?)
  }

  datatype SchemaError =
    | UndefinedChildList               // `rootChildTypeNames` read while undefined
    | NoRootType                       // `rootType.plural` read while undefined
    | MissingPlural(typeName: string)  // `slug(undefined)`
    | ValidatorError(error: BuildError)
    | DeepNesting                      // nesting that repeats a type: the recursion never ends
    | MissingParameters                // "app, orgName, locale parameters can not be null"

  // ---------------------------------------------------------------------------
  // Built-in fields
  // ---------------------------------------------------------------------------

  function IdField(): SchemaField
  {
    // `uniqe` is spelled so in the source; mongoose ignores the key
    Field(Some(StringType), [Entry("uniqe", Bool(true)), Entry("required", Bool(true))], NewUuid, [])
  }

  /** `buildDefaultMetaSchema` (lines 249-262): only `_id` when the
      application has a default type, else the seven built-in fields. */
  function DefaultMetaSchema(env: Env): (r: seq<Entry<SchemaField>>)
    ensures Keys(r) == if HasDefaultType(env.opts) then ["_id"]
      else ["_id", "_type", "_default", "_createdAt", "_modifiedAt", "_createdBy", "_modifiedBy"]
    ensures Find(r, "_id") == Some(IdField())
  {
    var required := [Entry("required", Bool(true))];
    var byUser := [Entry("ref", Str(env.userType))];
    if HasDefaultType(env.opts) then [Entry("_id", IdField())]
    else
      [Entry("_id", IdField()),
       Entry("_type", Field(Some(StringType), required, EmptyText, [])),
       Entry("_default", Field(Some(BooleanType), [], FalseFlag, [])),
       Entry("_createdAt", Field(Some(DateType), required, Now, [])),
       Entry("_modifiedAt", Field(Some(DateType), required, Now, [])),
       Entry("_createdBy", Field(Some(StringType), byUser, NoUser, [])),
       Entry("_modifiedBy", Field(Some(StringType), byUser, NoUser, []))]
  }

  // ---------------------------------------------------------------------------
  // Collection names
  // ---------------------------------------------------------------------------

  function CollectionOf(t: TypeDecl): CollectionOption
  {
    if t.options.Some? then t.options.value.collection else NoCollection
  }

  predicate IsAbstract(t: TypeDecl)
  {
    t.isAbstract == Some(true)
  }

  /** The names of the descendants of the root type. */
  function RootDescendantNames(env: Env): seq<string>
  {
    match ChildTypes(env.types, env.opts.rootName)
    case None => []
    case Some(cs) => seq(|cs|, k requires 0 <= k < |cs| => env.types[cs[k]].name)
  }

  /** The localized collection name: the slug of the plural in the builder's
      locale, of the root type for a derived type. */
  function LocalizedName(env: Env, t: TypeDecl, root: Option<nat>, hasBase: bool, lower: Value): Result<string, SchemaError>
    requires root.Some? ==> root.value < |env.types|
  {
    var source := if hasBase then (if root.Some? then Ok(env.types[root.value]) else Err(NoRootType)) else Ok(t);
    match source
    case Err(e) => Err(e)
    case Ok(s) =>
      if env.locale in s.plural then Ok(env.slug(s.plural[env.locale], lower == Undefined || Truthy(lower)))
      else Err(MissingPlural(s.name))
  }

  /** An explicit collection name is kept: a non-empty string, for a type
      whose root type is neither the application root nor one of its
      descendants. */
  predicate KeepsExplicitName(env: Env, t: TypeDecl)
    requires ValidEnv(env)
  {
    var root := RootType(env.types, env.opts, t.name);
    CollectionOf(t).NamedCollection? && CollectionOf(t).name != "" &&
    (root.None? || (env.types[root.value].name != env.opts.rootName && env.types[root.value].name !in RootDescendantNames(env)))
  }

  /** The name a concrete type's collection is derived from: its root type's,
      or its own without one. */
  function DerivedName(env: Env, t: TypeDecl): string
    requires ValidEnv(env)
  {
    var root := RootType(env.types, env.opts, t.name);
    if root.Some? then env.types[root.value].name else t.name
  }

  /** The collection a type's documents go to (lines 179-197), as intended:
      an explicit name unless the root type is the application root or one of
      its descendants; else the slug of the localized plural; else, for a
      concrete type, the plural of the root type's or its own name; none for
      an abstract type. */
  function CollectionName(env: Env, t: TypeDecl, hasBase: bool): (r: Result<Option<string>, SchemaError>)
    requires ValidEnv(env)
    ensures KeepsExplicitName(env, t) ==> r == Ok(Some(CollectionOf(t).name))
    ensures CollectionOf(t).LocalizedCollection? ==>
      var name := LocalizedName(env, t, RootType(env.types, env.opts, t.name), hasBase, CollectionOf(t).lower);
      (name.Ok? ==> r == Ok(Some(name.value))) && (name.Err? ==> r == Err(name.error))
    ensures !KeepsExplicitName(env, t) && !CollectionOf(t).LocalizedCollection? ==>
      r == if IsAbstract(t) then Ok(None) else Ok(Some(env.pluralize(DerivedName(env, t))))
    ensures r.Ok? && r.value.None? ==> IsAbstract(t) && !CollectionOf(t).LocalizedCollection?
  {
    var root := RootType(env.types, env.opts, t.name);
    var c := CollectionOf(t);
    if KeepsExplicitName(env, t) then Ok(Some(c.name))
    else if c.LocalizedCollection? then
      match LocalizedName(env, t, root, hasBase, c.lower)
      case Err(e) => Err(e)
      case Ok(n) => Ok(Some(n))
    else if !IsAbstract(t) then Ok(Some(env.pluralize(if root.Some? then env.types[root.value].name else t.name)))
    else Ok(None)
  }

  /** The collection name as written: `rootChildTypeNames` holds type records,
      so looking a name up in it never succeeds, and without a default type
      it is undefined, which raises. */
  function CollectionNameAsWritten(env: Env, t: TypeDecl, hasBase: bool): (r: Result<Option<string>, SchemaError>)
    requires ValidEnv(env)
  {
    var root := RootType(env.types, env.opts, t.name);
    var c := CollectionOf(t);
    var explicit :=
      if !(c.NamedCollection? && c.name != "") then Ok(false)
      else if root.None? then Ok(true)
      else if env.types[root.value].name == env.opts.rootName then Ok(false)
      else if !HasDefaultType(env.opts) then Err(UndefinedChildList)
      else Ok(true);
    match explicit
    case Err(e) => Err(e)
    case Ok(true) => Ok(Some(c.name))
    case Ok(false) =>
      if c.LocalizedCollection? then
        match LocalizedName(env, t, root, hasBase, c.lower)
        case Err(e) => Err(e)
        case Ok(n) => Ok(Some(n))
      else if !IsAbstract(t) then Ok(Some(env.pluralize(if root.Some? then env.types[root.value].name else t.name)))
      else Ok(None)
  }

  /** A type whose root type descends from the application root and that
      names its collection: the written code keeps the explicit name, the
      intended one derives it. Without a default type the written code
      raises for any explicit name under a non-root root type. */
  lemma CollectionNameCounterexample(env: Env, t: TypeDecl, hasBase: bool)
    requires ValidEnv(env)
    requires CollectionOf(t).NamedCollection? && CollectionOf(t).name != ""
    requires var root := RootType(env.types, env.opts, t.name);
      root.Some? && env.types[root.value].name != env.opts.rootName
    ensures HasDefaultType(env.opts) ==> CollectionNameAsWritten(env, t, hasBase) == Ok(Some(CollectionOf(t).name))
    ensures !HasDefaultType(env.opts) ==> CollectionNameAsWritten(env, t, hasBase) == Err(UndefinedChildList)
    ensures var root := RootType(env.types, env.opts, t.name);
      env.types[root.value].name in RootDescendantNames(env) && !IsAbstract(t) ==>
      CollectionName(env, t, hasBase) == Ok(Some(env.pluralize(env.types[root.value].name)))
  {
  }

  // ---------------------------------------------------------------------------
  // One field
  // ---------------------------------------------------------------------------

  /** The options copied from `options` under a name: `select` always. */
  const AllOptions: seq<string> := ["select"]
  /** ... and these only on string properties. */
  const StringOptions: seq<string> := ["trim", "lowercase", "uppercase", "minLength", "maxLength"]
  /** ... and these only on number properties. */
  const NumberOptions: seq<string> := ["min", "max"]

  predicate IsOptionName(key: string)
  {
    key in AllOptions || key in StringOptions || key in NumberOptions
  }

  /** Each option of `names` that `from` holds, copied into `into`. */
  function CopyOptions(from: seq<Entry<Value>>, names: seq<string>, into: seq<Entry<Value>>): seq<Entry<Value>>
    decreases |names|
  {
    if names == [] then into
    else CopyOptions(from, names[1..], if Has(from, names[0]) then Put(into, names[0], Get(from, names[0])) else into)
  }

  /** A copied option has the value of `from`; every other key is untouched. */
  lemma {:induction false} CopyOptionsFind(from: seq<Entry<Value>>, names: seq<string>, into: seq<Entry<Value>>, key: string)
    ensures Find(CopyOptions(from, names, into), key) ==
      if key in names && Has(from, key) then Find(from, key) else Find(into, key)
    decreases |names|
  {
    if names != [] {
      var next := if Has(from, names[0]) then Put(into, names[0], Get(from, names[0])) else into;
      CopyOptionsFind(from, names[1..], next, key);
      assert key in names <==> key == names[0] || key in names[1..];
      if key == names[0] && Has(from, key) {
        assert Find(from, key) == Some(Get(from, key));
      }
    }
  }

  /** The loop over one option list. */
  method CopyOptionList(from: seq<Entry<Value>>, names: seq<string>, into: seq<Entry<Value>>) returns (r: seq<Entry<Value>>)
    ensures r == CopyOptions(from, names, into)
  {
    r := into;
    var i := 0;
    while i < |names|
      invariant 0 <= i <= |names|
      invariant CopyOptions(from, names[i..], r) == CopyOptions(from, names, into)
    {
      assert names[i..][0] == names[i] && names[i..][1..] == names[i + 1..];
      if Has(from, names[i]) {
        r := Put(r, names[i], Get(from, names[i]));
      }
      i := i + 1;
    }
    assert names[i..] == [];
  }

  /** `options.type` of a reference property, when it names one. */
  function RefType(p: Property): Option<string>
  {
    if p.kind == ReferenceKind && ObjectType(p).Some? && ObjectType(p).value != "" then ObjectType(p) else None
  }

  /** `options.autopopulate === true` on the type or on the property. */
  predicate Autopopulated(env: Env, typeName: string, p: Property)
  {
    var i := FindType(env.types, typeName);
    (i.Some? && env.types[i.value].options.Some? && env.types[i.value].options.value.autopopulate == Bool(true)) ||
    (p.options.Some? && p.options.value.autopopulate == Bool(true))
  }

  function UniqueOf(p: Property): Option<UniqueOption>
  {
    if p.options.Some? then p.options.value.unique else None
  }

  function InLocale(m: map<string, string>, locale: string): Value
  {
    if locale in m then Str(m[locale]) else Undefined
  }

  /** The `unique` setting: false without `options.unique`, else the
      property's message in the locale, else the configured one, else true. */
  function UniqueSetting(env: Env, p: Property): (r: Value)
    ensures r == Bool(false) <==> UniqueOf(p).None?
    ensures UniqueOf(p).Some? && UniqueOf(p).value.message.Some? && env.locale in UniqueOf(p).value.message.value ==>
      r == Str(UniqueOf(p).value.message.value[env.locale])
  {
    match UniqueOf(p)
    case None => Bool(false)
    case Some(u) =>
      if u.message.Some? then InLocale(u.message.value, env.locale)
      else if env.uniqueMessage.Some? then InLocale(env.uniqueMessage.value, env.locale)
      else Bool(true)
  }

  function RequiredOf(p: Property): Option<RequiredOption>
  {
    if p.options.Some? then p.options.value.required else None
  }

  /** The `required` setting: false without `options.required`, else its
      `message` as it is, else the configured message in the locale, else
      true. */
  function RequiredSetting(env: Env, p: Property): (r: Value)
    ensures RequiredOf(p).None? ==> r == Bool(false)
    ensures RequiredOf(p).Some? && Truthy(RequiredOf(p).value.message) ==> r == RequiredOf(p).value.message
    ensures RequiredOf(p).Some? && !Truthy(RequiredOf(p).value.message) && env.requiredMessage.None? ==> r == Bool(true)
  {
    match RequiredOf(p)
    case None => Bool(false)
    case Some(req) =>
      if Truthy(req.message) then req.message
      else if env.requiredMessage.Some? then InLocale(env.requiredMessage.value, env.locale)
      else Bool(true)
  }

  /** The settings assigned before the option lists are copied: `ref` and
      `autopopulate` for a reference, then `unique`, `uniqueCaseInsensitive`
      and `required`. */
  function FixedSettings(env: Env, typeName: string, p: Property): seq<Entry<Value>>
  {
    var s0: seq<Entry<Value>> := [];
    var s1 := if RefType(p).Some? then Put(s0, "ref", Str(RefType(p).value)) else s0;
    var s2 := if RefType(p).Some? && Autopopulated(env, typeName, p) then Put(s1, "autopopulate", Bool(true)) else s1;
    var s3 := Put(s2, "unique", UniqueSetting(env, p));
    var s4 := Put(s3, "uniqueCaseInsensitive", Bool(UniqueOf(p).Some? && UniqueOf(p).value.insensitive));
    Put(s4, "required", RequiredSetting(env, p))
  }

  /** What each key of the fixed settings holds; no option name is among
      them. */
  lemma FixedSettingsFind(env: Env, typeName: string, p: Property, key: string)
    ensures Find(FixedSettings(env, typeName, p), key) ==
      if key == "ref" then (if RefType(p).Some? then Some(Str(RefType(p).value)) else None)
      else if key == "autopopulate" then (if RefType(p).Some? && Autopopulated(env, typeName, p) then Some(Bool(true)) else None)
      else if key == "unique" then Some(UniqueSetting(env, p))
      else if key == "uniqueCaseInsensitive" then Some(Bool(UniqueOf(p).Some? && UniqueOf(p).value.insensitive))
      else if key == "required" then Some(RequiredSetting(env, p))
      else None
  {
    var s0: seq<Entry<Value>> := [];
    var s1 := if RefType(p).Some? then Put(s0, "ref", Str(RefType(p).value)) else s0;
    var s2 := if RefType(p).Some? && Autopopulated(env, typeName, p) then Put(s1, "autopopulate", Bool(true)) else s1;
    var s3 := Put(s2, "unique", UniqueSetting(env, p));
    var s4 := Put(s3, "uniqueCaseInsensitive", Bool(UniqueOf(p).Some? && UniqueOf(p).value.insensitive));
    assert Find(s0, key) == None;
    if RefType(p).Some? {
      PutFind(s0, "ref", Str(RefType(p).value), key);
    }
    if RefType(p).Some? && Autopopulated(env, typeName, p) {
      PutFind(s1, "autopopulate", Bool(true), key);
    }
    PutFind(s2, "unique", UniqueSetting(env, p), key);
    PutFind(s3, "uniqueCaseInsensitive", Bool(UniqueOf(p).Some? && UniqueOf(p).value.insensitive), key);
    PutFind(s4, "required", RequiredSetting(env, p), key);
    assert FixedSettings(env, typeName, p) == Put(s4, "required", RequiredSetting(env, p));
  }

  function SettingsOf(p: Property): seq<Entry<Value>>
  {
    if p.options.Some? then p.options.value.settings else []
  }

  /** The settings after the three option lists. */
  function AllSettings(env: Env, typeName: string, p: Property): seq<Entry<Value>>
  {
    var from := SettingsOf(p);
    var s1 := CopyOptions(from, AllOptions, FixedSettings(env, typeName, p));
    var s2 := if p.kind == StringKind then CopyOptions(from, StringOptions, s1) else s1;
    if p.kind == NumberKind then CopyOptions(from, NumberOptions, s2) else s2
  }

  /** The option names differ from the keys of the fixed settings. */
  lemma OptionNameNotFixed(key: string)
    requires IsOptionName(key)
    ensures key != "ref" && key != "autopopulate" && key != "unique" && key != "uniqueCaseInsensitive" && key != "required"
  {
    if key == "select" || key == "trim" || key == "lowercase" {
      assert key[0] in {'s', 't', 'l'};
    } else if key == "uppercase" {
      assert |key| == 9;
    } else {
      assert key[0] == 'm';
    }
  }

  /** ... and none of the keys of the fixed settings is an option name. */
  lemma FixedKeysNotOptions()
    ensures !IsOptionName("ref") && !IsOptionName("autopopulate") && !IsOptionName("unique") &&
            !IsOptionName("uniqueCaseInsensitive") && !IsOptionName("required")
  {
    assert "ref"[0] == 'r' && "required"[0] == 'r' && "autopopulate"[0] == 'a';
    assert |"unique"| == 6 && |"uniqueCaseInsensitive"| == 21;
  }

  /** Whether option `key` is copied for a property of kind `k`. */
  predicate CopiedFor(key: string, k: Kind)
  {
    key in AllOptions || (key in StringOptions && k == StringKind) || (key in NumberOptions && k == NumberKind)
  }

  /** An option name holds the property's option when it is copied for the
      property's kind and present; any other key holds its fixed setting. */
  lemma AllSettingsFind(env: Env, typeName: string, p: Property, key: string)
    ensures Find(AllSettings(env, typeName, p), key) ==
      if !IsOptionName(key) then Find(FixedSettings(env, typeName, p), key)
      else if CopiedFor(key, p.kind) && Has(SettingsOf(p), key) then Find(SettingsOf(p), key)
      else None
  {
    var from := SettingsOf(p);
    var fixed := FixedSettings(env, typeName, p);
    var s1 := CopyOptions(from, AllOptions, fixed);
    var s2 := if p.kind == StringKind then CopyOptions(from, StringOptions, s1) else s1;
    CopyOptionsFind(from, AllOptions, fixed, key);
    CopyOptionsFind(from, StringOptions, s1, key);
    CopyOptionsFind(from, NumberOptions, s2, key);
    var all := AllSettings(env, typeName, p);
    assert all == if p.kind == NumberKind then CopyOptions(from, NumberOptions, s2) else s2;
    if !IsOptionName(key) {
      assert Find(all, key) == Find(fixed, key);
    } else {
      FixedSettingsFind(env, typeName, p, key);
      OptionNameNotFixed(key);
    }
  }

  /** `createMetaSchemaProperty(type, property)` (lines 325-403) with the
      validators getValidators returned for the property. */
  function MetaField(env: Env, typeName: string, p: Property, validators: seq<Validator>): (r: SchemaField)
    ensures r.Field? && r.storage == FieldType(p.kind) && r.validate == validators
    ensures r.defaultValue == if p.options.Some? && p.options.value.defaultValue != Undefined
      then Fixed(p.options.value.defaultValue) else NoDefault
  {
    Field(FieldType(p.kind), AllSettings(env, typeName, p),
          if p.options.Some? && p.options.value.defaultValue != Undefined then Fixed(p.options.value.defaultValue) else NoDefault,
          validators)
  }

  /** The settings of a field: the reference target and autopopulation, the
      unique and required settings, and exactly the options that apply to
      the property's kind. */
  lemma MetaFieldSettings(env: Env, typeName: string, p: Property, validators: seq<Validator>)
    ensures var s := MetaField(env, typeName, p, validators).settings;
      Find(s, "ref") == (if RefType(p).Some? then Some(Str(RefType(p).value)) else None) &&
      (Find(s, "autopopulate").Some? <==> RefType(p).Some? && Autopopulated(env, typeName, p)) &&
      (Find(s, "unique") == Some(Bool(false)) <==> UniqueOf(p).None?) &&
      Find(s, "uniqueCaseInsensitive") == Some(Bool(UniqueOf(p).Some? && UniqueOf(p).value.insensitive)) &&
      Find(s, "required") == Some(RequiredSetting(env, p))
    ensures forall key | IsOptionName(key) ::
      Find(MetaField(env, typeName, p, validators).settings, key) ==
        if CopiedFor(key, p.kind) && Has(SettingsOf(p), key) then Find(SettingsOf(p), key) else None
  {
    FixedKeysNotOptions();
    AllSettingsFind(env, typeName, p, "ref");
    AllSettingsFind(env, typeName, p, "autopopulate");
    AllSettingsFind(env, typeName, p, "unique");
    AllSettingsFind(env, typeName, p, "uniqueCaseInsensitive");
    AllSettingsFind(env, typeName, p, "required");
    FixedSettingsFind(env, typeName, p, "ref");
    FixedSettingsFind(env, typeName, p, "autopopulate");
    FixedSettingsFind(env, typeName, p, "unique");
    FixedSettingsFind(env, typeName, p, "uniqueCaseInsensitive");
    FixedSettingsFind(env, typeName, p, "required");
    forall key | IsOptionName(key)
      ensures Find(MetaField(env, typeName, p, validators).settings, key) ==
        if CopiedFor(key, p.kind) && Has(SettingsOf(p), key) then Find(SettingsOf(p), key) else None
    {
      AllSettingsFind(env, typeName, p, key);
    }
  }

  /** The validators getValidators builds for a property whose
      `options.validations` have not been rewritten yet. */
  function PropertyValidators(env: Env, p: Property): Result<seq<Validator>, BuildError>
  {
    var loc := EffectiveLocale(env.locale);
    var vs := if p.options.Some? then p.options.value.validations else [];
    match ShapeAll(vs, loc, env.interp, env.locales(loc)).out
    case Err(e) => Err(Shaping(e))
    case Ok(svs) => ValidatorsFor(svs, env.builtIn)
  }

  /** The field of one property, or the error getValidators raises. */
  function MetaFieldOf(env: Env, typeName: string, p: Property): (r: Result<SchemaField, SchemaError>)
    ensures r.Ok? <==> PropertyValidators(env, p).Ok?
    ensures r.Ok? ==> r.value == MetaField(env, typeName, p, PropertyValidators(env, p).value)
  {
    match PropertyValidators(env, p)
    case Err(e) => Err(ValidatorError(e))
    case Ok(vs) => Ok(MetaField(env, typeName, p, vs))
  }

  /** `createMetaSchemaProperty`: the fixed settings, then the loops over the
      three option lists, then the validators. */
  method CreateMetaSchemaProperty(env: Env, typeName: string, p: Property) returns (r: Result<SchemaField, SchemaError>)
    ensures r == MetaFieldOf(env, typeName, p)
  {
    var from := SettingsOf(p);
    var settings := FixedSettings(env, typeName, p);
    settings := CopyOptionList(from, AllOptions, settings);
    if p.kind == StringKind {
      settings := CopyOptionList(from, StringOptions, settings);
    }
    if p.kind == NumberKind {
      settings := CopyOptionList(from, NumberOptions, settings);
    }
    var validators := PropertyValidators(env, p);
    if validators.Err? {
      return Err(ValidatorError(validators.error));
    }
    r := Ok(Field(FieldType(p.kind), settings,
                  if p.options.Some? && p.options.value.defaultValue != Undefined then Fixed(p.options.value.defaultValue) else NoDefault,
                  validators.value));
  }

  // ---------------------------------------------------------------------------
  // The field map of a type
  // ---------------------------------------------------------------------------

  /** The field a reference property's display name is kept in. */
  function DisplayField(): SchemaField
  {
    Field(Some(StringType), [Entry("select", Bool(false))], NoDefault, [])
  }

  /** The field of the `test` key each property loop turn sets. */
  function TextField(): SchemaField
  {
    Field(Some(StringType), [Entry("validate", Str("^[A-Za-z0-9-çğıöşüÇĞİÖŞÜ]+$"))], NoDefault, [])
  }

  /** The properties createMetaSchemaProperties lays out: the storable ones,
      and with `includeChildren` the properties of every descendant type after
      them, the first of each name kept. */
  function MetaProperties(env: Env, typeName: string, includeChildren: bool): Result<seq<Property>, SchemaError>
    requires Acyclic(env.types)
  {
    var own := StorableProperties(env.types, env.interp, typeName);
    if !includeChildren then Ok(own)
    else
      match ChildTypes(env.types, typeName)
      case None => Err(DeepNesting)
      case Some(cs) => Ok(UniqueByName(own + ChildProperties(env.types, env.interp, cs), {}))
  }

  /** `schemaProperties[reference.name + '_display']` for every reference. */
  function DisplayFields(ps: seq<Property>, acc: seq<Entry<SchemaField>>): seq<Entry<SchemaField>>
    decreases |ps|
  {
    if ps == [] then acc
    else DisplayFields(ps[1..], if ps[0].kind == ReferenceKind then Put(acc, ps[0].name + "_display", DisplayField()) else acc)
  }

  /** `_.get(p, 'options.type') || ''`. */
  function ObjectTypeName(p: Property): string
  {
    if ObjectType(p).Some? then ObjectType(p).value else ""
  }

  /** `createMetaSchemaProperties(typeName, includeChildren)` (lines
      264-323). `fuel` bounds the nesting of object-typed properties: nesting
      deeper than the number of types repeats a type, and the source then
      recurses without end. */
  function MetaSchema(env: Env, typeName: string, includeChildren: bool, fuel: nat): Result<seq<Entry<SchemaField>>, SchemaError>
    requires Acyclic(env.types)
    decreases fuel, 1, 0
  {
    match MetaProperties(env, typeName, includeChildren)
    case Err(e) => Err(e)
    case Ok(ps) => PropertyFields(env, typeName, ps, DisplayFields(ps, []), fuel)
  }

  /** The field, if any, property `p` contributes. */
  function PropertyField(env: Env, typeName: string, p: Property, fuel: nat): Result<Option<SchemaField>, SchemaError>
    requires Acyclic(env.types)
    decreases fuel, 0, 0
  {
    if !IsAppType(env.types, ObjectTypeName(p)) || p.kind == ReferenceKind then
      match MetaFieldOf(env, typeName, p)
      case Err(e) => Err(e)
      case Ok(f) => Ok(Some(f))
    else if p.kind == ObjectKind || p.kind == ArrayKind then
      if fuel == 0 then Err(DeepNesting)
      else
        match MetaSchema(env, ObjectTypeName(p), true, fuel - 1)
        case Err(e) => Err(e)
        case Ok(fs) => Ok(Some(if p.kind == ObjectKind then Nested(fs) else NestedArray(fs)))
    else Ok(None)
  }

  /** The property loop from the first of `ps` on. */
  function PropertyFields(env: Env, typeName: string, ps: seq<Property>, acc: seq<Entry<SchemaField>>, fuel: nat)
    : Result<seq<Entry<SchemaField>>, SchemaError>
    requires Acyclic(env.types)
    decreases fuel, 0, |ps|
  {
    if ps == [] then Ok(acc)
    else
      match PropertyField(env, typeName, ps[0], fuel)
      case Err(e) => Err(e)
      case Ok(f) =>
        var withField := if f.Some? then Put(acc, ps[0].name, f.value) else acc;
        PropertyFields(env, typeName, ps[1..], Put(withField, "test", TextField()), fuel)
  }

  /** One turn of the property loop: the field of a primitive or
      reference property, or the nested field map of an object-typed one. */
  method CreatePropertyField(env: Env, typeName: string, p: Property, fuel: nat)
    returns (field: Result<Option<SchemaField>, SchemaError>)
    requires Acyclic(env.types)
    ensures field == PropertyField(env, typeName, p, fuel)
  {
    if !IsAppType(env.types, ObjectTypeName(p)) || p.kind == ReferenceKind {
      field := CreatePrimitiveField(env, typeName, p, fuel);
    } else {
      field := CreateNestedField(env, typeName, p, fuel);
    }
  }

  /** The field of a property stored as it is. */
  method CreatePrimitiveField(env: Env, typeName: string, p: Property, fuel: nat)
    returns (field: Result<Option<SchemaField>, SchemaError>)
    requires Acyclic(env.types)
    requires !IsAppType(env.types, ObjectTypeName(p)) || p.kind == ReferenceKind
    ensures field == PropertyField(env, typeName, p, fuel)
  {
    var f := CreateMetaSchemaProperty(env, typeName, p);
    field := if f.Err? then Err(f.error) else Ok(Some(f.value));
  }

  /** The nested field map of an object-typed property, in a one-element
      array for an array property; nothing for other kinds. The nested map
      is the one the recursive call of createMetaSchemaProperties lays
      out. */
  method CreateNestedField(env: Env, typeName: string, p: Property, fuel: nat)
    returns (field: Result<Option<SchemaField>, SchemaError>)
    requires Acyclic(env.types)
    requires IsAppType(env.types, ObjectTypeName(p)) && p.kind != ReferenceKind
    ensures field == PropertyField(env, typeName, p, fuel)
  {
    if p.kind != ObjectKind && p.kind != ArrayKind {
      return Ok(None);
    }
    if fuel == 0 {
      return Err(DeepNesting);
    }
    var sub := MetaSchema(env, ObjectTypeName(p), true, fuel - 1);
    field := if sub.Err? then Err(sub.error) else Ok(Some(if p.kind == ObjectKind then Nested(sub.value) else NestedArray(sub.value)));
  }

  /** `createMetaSchemaProperties`: the display loop, then the property
      loop. */
  method CreateMetaSchemaProperties(env: Env, typeName: string, includeChildren: bool, fuel: nat)
    returns (r: Result<seq<Entry<SchemaField>>, SchemaError>)
    requires Acyclic(env.types)
    ensures r == MetaSchema(env, typeName, includeChildren, fuel)
  {
    var props := MetaProperties(env, typeName, includeChildren);
    if props.Err? {
      return Err(props.error);
    }
    var fields := CreateDisplayFields(props.value);
    r := CreatePropertyFields(env, typeName, props.value, fields, fuel);
  }

  /** The loop adding a `_display` field for every reference. */
  method CreateDisplayFields(ps: seq<Property>) returns (fields: seq<Entry<SchemaField>>)
    ensures fields == DisplayFields(ps, [])
  {
    fields := [];
    var i := 0;
    while i < |ps|
      invariant 0 <= i <= |ps|
      invariant DisplayFields(ps[i..], fields) == DisplayFields(ps, [])
    {
      assert ps[i..][0] == ps[i] && ps[i..][1..] == ps[i + 1..];
      if ps[i].kind == ReferenceKind {
        fields := Put(fields, ps[i].name + "_display", DisplayField());
      }
      i := i + 1;
    }
    assert ps[i..] == [];
  }

  /** The loop laying out the field of every property, each turn also
      setting `test`. */
  method CreatePropertyFields(env: Env, typeName: string, ps: seq<Property>, start: seq<Entry<SchemaField>>, fuel: nat)
    returns (r: Result<seq<Entry<SchemaField>>, SchemaError>)
    requires Acyclic(env.types)
    ensures r == PropertyFields(env, typeName, ps, start, fuel)
  {
    var fields := start;
    var i := 0;
    while i < |ps|
      invariant 0 <= i <= |ps|
      invariant PropertyFields(env, typeName, ps[i..], fields, fuel) == PropertyFields(env, typeName, ps, start, fuel)
    {
      var p := ps[i];
      assert ps[i..][0] == p && ps[i..][1..] == ps[i + 1..];
      var field := CreatePropertyField(env, typeName, p, fuel);
      if field.Err? {
        return Err(field.error);
      }
      if field.value.Some? {
        fields := Put(fields, p.name, field.value.value);
      }
      fields := Put(fields, "test", TextField());
      i := i + 1;
    }
    assert ps[i..] == [];
    r := Ok(fields);
  }

  /** Every storable reference property has its `_display` field, stored as
      a string and not selected by default. */
  lemma {:induction false} DisplayFieldsFind(ps: seq<Property>, acc: seq<Entry<SchemaField>>, key: string)
    ensures Find(DisplayFields(ps, acc), key) ==
      if exists p | p in ps :: p.kind == ReferenceKind && p.name + "_display" == key then Some(DisplayField())
      else Find(acc, key)
    decreases |ps|
  {
    if ps != [] {
      var next := if ps[0].kind == ReferenceKind then Put(acc, ps[0].name + "_display", DisplayField()) else acc;
      DisplayFieldsFind(ps[1..], next, key);
      if exists p | p in ps[1..] :: p.kind == ReferenceKind && p.name + "_display" == key {
        var p :| p in ps[1..] && p.kind == ReferenceKind && p.name + "_display" == key;
        assert p in ps;
      }
      if exists p | p in ps :: p.kind == ReferenceKind && p.name + "_display" == key {
        var p :| p in ps && p.kind == ReferenceKind && p.name + "_display" == key;
        if p != ps[0] {
          assert p in ps[1..];
        }
      }
    }
  }

  /** The property loop keeps every key already laid out. */
  lemma {:induction false} PropertyFieldsKeepKeys(env: Env, typeName: string, ps: seq<Property>, acc: seq<Entry<SchemaField>>,
                                                  fuel: nat, key: string)
    requires Acyclic(env.types)
    requires PropertyFields(env, typeName, ps, acc, fuel).Ok? && key in Keys(acc)
    ensures key in Keys(PropertyFields(env, typeName, ps, acc, fuel).value)
    decreases |ps|
  {
    if ps != [] {
      var f := PropertyField(env, typeName, ps[0], fuel).value;
      var withField := if f.Some? then Put(acc, ps[0].name, f.value) else acc;
      PropertyFieldsKeepKeys(env, typeName, ps[1..], Put(withField, "test", TextField()), fuel, key);
    }
  }

  /** Every reference property laid out gets its `_display` key. */
  lemma DisplayKeys(env: Env, typeName: string, includeChildren: bool, fuel: nat, p: Property)
    requires Acyclic(env.types)
    requires MetaSchema(env, typeName, includeChildren, fuel).Ok?
    requires p in MetaProperties(env, typeName, includeChildren).value && p.kind == ReferenceKind
    ensures p.name + "_display" in Keys(MetaSchema(env, typeName, includeChildren, fuel).value)
  {
    var ps := MetaProperties(env, typeName, includeChildren).value;
    DisplayFieldsFind(ps, [], p.name + "_display");
    PropertyFieldsKeepKeys(env, typeName, ps, DisplayFields(ps, []), fuel, p.name + "_display");
  }

  /** Distinct keys: every entry was laid out by assignment. */
  lemma {:induction false} DisplayFieldsDistinct(ps: seq<Property>, acc: seq<Entry<SchemaField>>)
    requires DistinctKeys(acc)
    ensures DistinctKeys(DisplayFields(ps, acc))
    decreases |ps|
  {
    if ps != [] {
      if ps[0].kind == ReferenceKind {
        PutKeepsDistinct(acc, ps[0].name + "_display", DisplayField());
      }
      DisplayFieldsDistinct(ps[1..], if ps[0].kind == ReferenceKind then Put(acc, ps[0].name + "_display", DisplayField()) else acc);
    }
  }

  lemma {:induction false} PropertyFieldsDistinct(env: Env, typeName: string, ps: seq<Property>, acc: seq<Entry<SchemaField>>, fuel: nat)
    requires Acyclic(env.types)
    requires DistinctKeys(acc) && PropertyFields(env, typeName, ps, acc, fuel).Ok?
    ensures DistinctKeys(PropertyFields(env, typeName, ps, acc, fuel).value)
    decreases |ps|
  {
    if ps != [] {
      var f := PropertyField(env, typeName, ps[0], fuel).value;
      if f.Some? {
        PutKeepsDistinct(acc, ps[0].name, f.value);
      }
      var withField := if f.Some? then Put(acc, ps[0].name, f.value) else acc;
      PutKeepsDistinct(withField, "test", TextField());
      PropertyFieldsDistinct(env, typeName, ps[1..], Put(withField, "test", TextField()), fuel);
    }
  }

  lemma MetaSchemaDistinct(env: Env, typeName: string, includeChildren: bool, fuel: nat)
    requires Acyclic(env.types)
    requires MetaSchema(env, typeName, includeChildren, fuel).Ok?
    ensures DistinctKeys(MetaSchema(env, typeName, includeChildren, fuel).value)
  {
    var ps := MetaProperties(env, typeName, includeChildren).value;
    DisplayFieldsDistinct(ps, []);
    PropertyFieldsDistinct(env, typeName, ps, DisplayFields(ps, []), fuel);
  }

  // ---------------------------------------------------------------------------
  // Schemas
  // ---------------------------------------------------------------------------

  /** The schema of a type: its field map, collection and abstractness. */
  datatype Schema = Schema(fields: seq<Entry<SchemaField>>, collection: Option<string>, isAbstract: bool)

  /** Whether buildSchemas builds the type as derived: a base other than
      the application root. */
  predicate HasBaseType(env: Env, t: TypeDecl)
  {
    t.base.BaseName? && t.base.name != "" && t.base.name != env.opts.rootName
  }

  /** Whether base `b` contributes its fields: only when the type inherits,
      and, for a type built as not derived, only a base that has a base. */
  predicate Contributes(env: Env, t: TypeDecl, b: TypeDecl, hasBase: bool)
  {
    t.inherit == Some(true) && (hasBase || b.base.BaseName?)
  }

  /** The field maps of the contributing bases merged into `acc`, in the
      order getBaseTypes gives them: furthest first. */
  function MergeBases(env: Env, t: TypeDecl, bases: seq<nat>, hasBase: bool, acc: seq<Entry<SchemaField>>)
    : Result<seq<Entry<SchemaField>>, SchemaError>
    requires Acyclic(env.types)
    requires forall k | 0 <= k < |bases| :: bases[k] < |env.types|
    decreases |bases|
  {
    if bases == [] then Ok(acc)
    else if Contributes(env, t, env.types[bases[0]], hasBase) then
      match MetaSchema(env, env.types[bases[0]].name, false, |env.types|)
      case Err(e) => Err(e)
      case Ok(fs) => MergeBases(env, t, bases[1..], hasBase, AssignIn(acc, fs))
    else MergeBases(env, t, bases[1..], hasBase, acc)
  }

  /** `buildSchema(typeName, hasBaseType)` (lines 160-236): the built-in
      fields, the contributing bases' fields, then the type's own fields. */
  function SchemaOf(env: Env, t: TypeDecl, hasBase: bool): Result<Schema, SchemaError>
    requires ValidEnv(env)
  {
    match CollectionName(env, t, hasBase)
    case Err(e) => Err(e)
    case Ok(collection) =>
      match MergeBases(env, t, BaseIndices(env.types, t.name), hasBase, DefaultMetaSchema(env))
      case Err(e) => Err(e)
      case Ok(merged) =>
        match MetaSchema(env, t.name, false, |env.types|)
        case Err(e) => Err(e)
        case Ok(own) => Ok(Schema(AssignIn(merged, own), collection, IsAbstract(t)))
  }

  lemma {:induction false} MergeBasesNone(env: Env, t: TypeDecl, bases: seq<nat>, hasBase: bool, acc: seq<Entry<SchemaField>>)
    requires Acyclic(env.types)
    requires forall k | 0 <= k < |bases| :: bases[k] < |env.types|
    requires t.inherit != Some(true)
    ensures MergeBases(env, t, bases, hasBase, acc) == Ok(acc)
    decreases |bases|
  {
    if bases != [] {
      MergeBasesNone(env, t, bases[1..], hasBase, acc);
    }
  }

  /** A type that does not inherit gets only the built-in fields and its
      own: no base contributes. */
  lemma NoInheritNoBaseFields(env: Env, t: TypeDecl, hasBase: bool)
    requires ValidEnv(env)
    requires t.inherit != Some(true)
    requires SchemaOf(env, t, hasBase).Ok?
    ensures SchemaOf(env, t, hasBase).value.fields == AssignIn(DefaultMetaSchema(env), MetaSchema(env, t.name, false, |env.types|).value)
  {
    MergeBasesNone(env, t, BaseIndices(env.types, t.name), hasBase, DefaultMetaSchema(env));
  }

  /** `_.assignIn` with a source of distinct keys: the source's values win. */
  lemma {:induction false} AssignInFind<V>(target: seq<Entry<V>>, source: seq<Entry<V>>, key: string)
    requires DistinctKeys(source)
    ensures Find(AssignIn(target, source), key) == if key in Keys(source) then Find(source, key) else Find(target, key)
    decreases |source|
  {
    if source != [] {
      var next := Put(target, source[0].key, source[0].val);
      assert DistinctKeys(source[1..]) by {
        forall i, j | 0 <= i < j < |source[1..]| ensures source[1..][i].key != source[1..][j].key {
          assert source[1..][i] == source[i + 1] && source[1..][j] == source[j + 1];
        }
      }
      AssignInFind(next, source[1..], key);
      assert Keys(source) == [source[0].key] + Keys(source[1..]);
      if key == source[0].key {
        forall j | 0 <= j < |source[1..]|
          ensures Keys(source[1..])[j] != key
        {
          assert source[1..][j] == source[j + 1];
        }
      }
    }
  }

  /** The type's own fields win over the built-in and the inherited ones. */
  lemma OwnFieldsWin(env: Env, t: TypeDecl, hasBase: bool, key: string)
    requires ValidEnv(env)
    requires SchemaOf(env, t, hasBase).Ok?
    requires key in Keys(MetaSchema(env, t.name, false, |env.types|).value)
    ensures Find(SchemaOf(env, t, hasBase).value.fields, key) == Find(MetaSchema(env, t.name, false, |env.types|).value, key)
  {
    var own := MetaSchema(env, t.name, false, |env.types|).value;
    var merged := MergeBases(env, t, BaseIndices(env.types, t.name), hasBase, DefaultMetaSchema(env)).value;
    MetaSchemaDistinct(env, t.name, false, |env.types|);
    AssignInFind(merged, own, key);
  }

  /** What `getType(name)` gives buildSchemas to read (app.manager.js lines
      89-97): the first type of that name, with a templated base
      interpolated. */
  function TypeView(env: Env, name: string): (r: TypeDecl)
    requires FindType(env.types, name).Some?
  {
    var t := env.types[FindType(env.types, name).value];
    t.(base := InterpolateBase(t.base, env.interp))
  }

  /** `getAllTypes()` over the types from `from` on (app.manager.js lines
      75-87): the view of every type that has a name, in order. */
  function AllTypesFrom(env: Env, from: nat): (r: seq<TypeDecl>)
    requires from <= |env.types|
    ensures forall k | 0 <= k < |r| ::
      (r[k].name != "" && FindType(env.types, r[k].name).Some? && r[k] == TypeView(env, r[k].name))
    decreases |env.types| - from
  {
    if from == |env.types| then []
    else if env.types[from].name == "" then AllTypesFrom(env, from + 1)
    else [TypeView(env, env.types[from].name)] + AllTypesFrom(env, from + 1)
  }

  /** The list buildSchemas walks. */
  function AllTypes(env: Env): seq<TypeDecl>
  {
    AllTypesFrom(env, 0)
  }

  /** Some type of `ts` carries `name`. */
  predicate Named(ts: seq<TypeDecl>, name: string)
  {
    exists k | 0 <= k < |ts| :: ts[k].name == name
  }

  /** getAllTypes lists a view of a name exactly when a type from `from` on
      carries it and it is not empty. */
  lemma {:induction false} AllTypesFromNamed(env: Env, from: nat, name: string)
    requires from <= |env.types|
    ensures Named(AllTypesFrom(env, from), name) <==>
      name != "" && exists j | from <= j < |env.types| :: env.types[j].name == name
    decreases |env.types| - from
  {
    if from < |env.types| {
      AllTypesFromNamed(env, from + 1, name);
      var t := env.types[from];
      var rest := AllTypesFrom(env, from + 1);
      if t.name == "" {
        assert AllTypesFrom(env, from) == rest;
      } else {
        var v := TypeView(env, t.name);
        assert AllTypesFrom(env, from) == [v] + rest;
        NamedCons(v, rest, name);
      }
    }
  }

  lemma NamedCons(v: TypeDecl, rest: seq<TypeDecl>, name: string)
    ensures Named([v] + rest, name) <==> v.name == name || Named(rest, name)
  {
    if Named(rest, name) {
      var k :| 0 <= k < |rest| && rest[k].name == name;
      assert ([v] + rest)[k + 1] == rest[k];
    }
    if Named([v] + rest, name) && v.name != name {
      var k :| 0 <= k < |[v] + rest| && ([v] + rest)[k].name == name;
      assert rest[k - 1] == ([v] + rest)[k];
    }
    if v.name == name {
      assert ([v] + rest)[0] == v;
    }
  }

  /** getAllTypes lists a view of exactly the application's type names. */
  lemma AllTypesNamed(env: Env, name: string)
    ensures Named(AllTypes(env), name) <==> IsAppType(env.types, name)
  {
    AllTypesFromNamed(env, 0, name);
  }

  /** What buildSchema yields for each type buildSchemas visits: the schema
      of the first type of that name, built as derived when the view's base
      is a base other than the root. */
  function Results(env: Env): (r: seq<Result<Schema, SchemaError>>)
    requires ValidEnv(env)
    ensures |r| == |AllTypes(env)|
  {
    Tabulate(TypeResults(env), |AllTypes(env)|)
  }

  /** buildSchema for each position of getAllTypes' list. */
  function TypeResults(env: Env): nat --> Result<Schema, SchemaError>
    requires ValidEnv(env)
  {
    (k: nat) requires k < |AllTypes(env)| => TypeResult(env, k)
  }

  /** buildSchema for the view at `k`. */
  function TypeResult(env: Env, k: nat): Result<Schema, SchemaError>
    requires ValidEnv(env) && k < |AllTypes(env)|
  {
    var v := AllTypes(env)[k];
    SchemaOf(env, env.types[FindType(env.types, v.name).value], HasBaseType(env, v))
  }

  /** `f` at 0, 1, …, n - 1, built up as a loop visits them. */
  function Tabulate<R>(f: nat --> R, n: nat): (r: seq<R>)
    requires forall k: nat | k < n :: f.requires(k)
    ensures |r| == n
  {
    if n == 0 then [] else Tabulate(f, n - 1) + [f(n - 1)]
  }

  lemma {:induction false} TabulateAt<R>(f: nat --> R, n: nat, j: nat)
    requires forall k: nat | k < n :: f.requires(k)
    requires j < n
    ensures Tabulate(f, n)[j] == f(j)
  {
    if j < n - 1 {
      TabulateAt(f, n - 1, j);
    }
  }

  /** The result buildSchemas meets at `j` is that type's buildSchema. */
  lemma ResultsAt(env: Env, j: nat)
    requires ValidEnv(env) && j < |AllTypes(env)|
    ensures Results(env)[j] == TypeResult(env, j)
  {
    TabulateAt(TypeResults(env), |AllTypes(env)|, j);
  }

  /** The schemas and model names after buildSchemas visited the first `n`
      types, given what building each yields: each type stores its result
      under its name, and each concrete type adds its name to the models.
      The first result that fails stops the build. */
  function Built(types: seq<TypeDecl>, results: seq<Result<Schema, SchemaError>>, n: nat)
    : Result<(map<string, Schema>, set<string>), SchemaError>
    requires n <= |types| == |results|
  {
    if n == 0 then Ok((map[], {}))
    else
      match Built(types, results, n - 1)
      case Err(e) => Err(e)
      case Ok(st) =>
        var t := types[n - 1];
        match results[n - 1]
        case Err(e) => Err(e)
        case Ok(s) => Ok((st.0[t.name := s], if !IsAbstract(t) then st.1 + {t.name} else st.1))
  }

  /** After the first `n` types, there is a schema for exactly their names. */
  lemma {:induction false} BuiltNames(types: seq<TypeDecl>, results: seq<Result<Schema, SchemaError>>, n: nat)
    requires n <= |types| == |results|
    requires Built(types, results, n).Ok?
    ensures forall name :: name in Built(types, results, n).value.0 <==> exists k | 0 <= k < n :: types[k].name == name
  {
    if n > 0 {
      BuiltNames(types, results, n - 1);
      var prev := Built(types, results, n - 1).value;
      forall name | exists k | 0 <= k < n :: types[k].name == name
        ensures name in Built(types, results, n).value.0
      {
        var k :| 0 <= k < n && types[k].name == name;
        if k < n - 1 {
          assert name in prev.0;
        }
      }
    }
  }

  /** After the first `n` types, a name has a model exactly when a type of
      that name among them is concrete. */
  lemma {:induction false} BuiltModels(types: seq<TypeDecl>, results: seq<Result<Schema, SchemaError>>, n: nat)
    requires n <= |types| == |results|
    requires Built(types, results, n).Ok?
    ensures forall name :: name in Built(types, results, n).value.1 <==>
      exists k | 0 <= k < n :: types[k].name == name && !IsAbstract(types[k])
  {
    if n > 0 {
      BuiltModels(types, results, n - 1);
      var prev := Built(types, results, n - 1).value;
      forall name | exists k | 0 <= k < n :: types[k].name == name && !IsAbstract(types[k])
        ensures name in Built(types, results, n).value.1
      {
        var k :| 0 <= k < n && types[k].name == name && !IsAbstract(types[k]);
        if k < n - 1 {
          assert name in prev.1;
        }
      }
    }
  }

  /** When types of the same name yield the same result, the schema stored
      under a type's name is what building that type yielded. */
  lemma {:induction false} BuiltSchema(types: seq<TypeDecl>, results: seq<Result<Schema, SchemaError>>, n: nat, k: nat)
    requires n <= |types| == |results| && k < n
    requires forall i, j | 0 <= i < j < |types| && types[i].name == types[j].name :: results[i] == results[j]
    requires Built(types, results, n).Ok?
    ensures types[k].name in Built(types, results, n).value.0
    ensures Ok(Built(types, results, n).value.0[types[k].name]) == results[k]
  {
    if k < n - 1 {
      BuiltSchema(types, results, n - 1, k);
      if types[k].name == types[n - 1].name {
        assert results[k] == results[n - 1];
      }
    }
  }

  /** A failed build stays failed, with the same error, for every longer
      prefix. */
  lemma {:induction false} BuiltStops(types: seq<TypeDecl>, results: seq<Result<Schema, SchemaError>>, n: nat)
    requires n <= |types| == |results|
    requires Built(types, results, n).Err?
    ensures Built(types, results, |types|) == Built(types, results, n)
    decreases |types| - n
  {
    if n < |types| {
      BuiltStops(types, results, n + 1);
    }
  }

  /** A type whose schema fails after a successful prefix fails the build. */
  lemma BuiltFails(types: seq<TypeDecl>, results: seq<Result<Schema, SchemaError>>, n: nat,
                   st: (map<string, Schema>, set<string>))
    requires n < |types| == |results|
    requires Built(types, results, n) == Ok(st)
    requires results[n].Err?
    ensures Built(types, results, |types|) == Err(results[n].error)
  {
    BuiltErrStep(types, results, n, st);
    BuiltStops(types, results, n + 1);
  }

  lemma BuiltErrStep(types: seq<TypeDecl>, results: seq<Result<Schema, SchemaError>>, n: nat,
                     st: (map<string, Schema>, set<string>))
    requires n < |types| == |results|
    requires Built(types, results, n) == Ok(st)
    requires results[n].Err?
    ensures Built(types, results, n + 1) == Err(results[n].error)
  {
  }

  /** One more successful type: its schema under its name, and its name
      among the models when it is concrete. */
  lemma BuiltStep(types: seq<TypeDecl>, results: seq<Result<Schema, SchemaError>>, n: nat,
                  st: (map<string, Schema>, set<string>))
    requires n < |types| == |results|
    requires Built(types, results, n) == Ok(st)
    requires results[n].Ok?
    ensures Built(types, results, n + 1) ==
      Ok((st.0[types[n].name := results[n].value],
          if !IsAbstract(types[n]) then st.1 + {types[n].name} else st.1))
  {
  }

  /** Positions of getAllTypes' list with the same name yield the same
      schema: both are built from the first type of that name. */
  lemma SameNameResult(env: Env, i: nat, j: nat)
    requires ValidEnv(env) && i < |AllTypes(env)| && j < |AllTypes(env)|
    requires AllTypes(env)[i].name == AllTypes(env)[j].name
    ensures Results(env)[i] == Results(env)[j]
  {
    ResultsAt(env, i);
    ResultsAt(env, j);
  }

  /** The build over getAllTypes' list stores, under each name a type
      carries, the schema of the first type of that name, built as derived
      when that type's interpolated base is not the root. */
  lemma BuiltSchemaOf(env: Env, name: string)
    requires ValidEnv(env) && IsAppType(env.types, name)
    requires Built(AllTypes(env), Results(env), |AllTypes(env)|).Ok?
    ensures name in Built(AllTypes(env), Results(env), |AllTypes(env)|).value.0 &&
      Ok(Built(AllTypes(env), Results(env), |AllTypes(env)|).value.0[name]) ==
      SchemaOf(env, env.types[FindType(env.types, name).value], HasBaseType(env, TypeView(env, name)))
  {
    var types := AllTypes(env);
    var results := Results(env);
    AllTypesNamed(env, name);
    var k :| 0 <= k < |types| && types[k].name == name;
    forall i, j | 0 <= i < j < |types| && types[i].name == types[j].name
      ensures results[i] == results[j]
    {
      SameNameResult(env, i, j);
    }
    BuiltSchema(types, results, |types|, k);
    ResultsAt(env, k);
  }

  /** The build over getAllTypes' list has a schema for exactly the
      application's type names. */
  lemma BuiltNamesOfApp(env: Env, name: string)
    requires ValidEnv(env)
    requires Built(AllTypes(env), Results(env), |AllTypes(env)|).Ok?
    ensures name in Built(AllTypes(env), Results(env), |AllTypes(env)|).value.0 <==> IsAppType(env.types, name)
  {
    BuiltNames(AllTypes(env), Results(env), |AllTypes(env)|);
    AllTypesNamed(env, name);
  }

  /** A name gets a model exactly when the first type of that name, the
      one getType returns, is not abstract: a later type of the same name
      does not count. */
  lemma BuiltModelsOfApp(env: Env, name: string)
    requires ValidEnv(env)
    requires Built(AllTypes(env), Results(env), |AllTypes(env)|).Ok?
    ensures name in Built(AllTypes(env), Results(env), |AllTypes(env)|).value.1 <==>
      IsAppType(env.types, name) && !IsAbstract(env.types[FindType(env.types, name).value])
  {
    var types := AllTypes(env);
    BuiltModels(types, Results(env), |types|);
    AllTypesNamed(env, name);
    if IsAppType(env.types, name) && !IsAbstract(env.types[FindType(env.types, name).value]) {
      var k :| 0 <= k < |types| && types[k].name == name;
      assert types[k] == TypeView(env, name);
    }
    if exists k | 0 <= k < |types| :: types[k].name == name && !IsAbstract(types[k]) {
      var k :| 0 <= k < |types| && types[k].name == name && !IsAbstract(types[k]);
      assert types[k] == TypeView(env, name);
    }
  }

  /** One turn of buildSchemas: the schema of the view at `i`, built from
      the first type of its name. */
  method TypeSchema(env: Env, types: seq<TypeDecl>, i: nat) returns (s: Result<Schema, SchemaError>)
    requires ValidEnv(env) && types == AllTypes(env) && i < |types|
    ensures s == Results(env)[i]
  {
    var first := FindType(env.types, types[i].name).value;
    s := SchemaOf(env, env.types[first], HasBaseType(env, types[i]));
    ResultsAt(env, i);
  }

  /** The compiler: the schemas by type name, and the names that got a
      model. */

  class MongooseSchemaBuilder {
    const env: Env
    var schemas: map<string, Schema>
    var models: set<string>
    var built: bool

    constructor(env: Env)
      ensures this.env == env && schemas == map[] && models == {} && !built
    {
      this.env := env;
      schemas := map[];
      models := {};
      built := false;
    }

    /** One turn of buildSchemas: the type's schema stored under its name
        and, for a concrete type, its model registered; or the error that
        ends the build. */
    method AddSchema(types: seq<TypeDecl>, i: nat, ghost results: seq<Result<Schema, SchemaError>>) returns (failed: Option<SchemaError>)
      requires ValidEnv(env) && types == AllTypes(env) && i < |types| && results == Results(env)
      requires Built(types, results, i) == Ok((schemas, models))
      modifies this
      ensures built == old(built)
      ensures failed.Some? ==> Built(types, results, |types|) == Err(failed.value)
      ensures failed.None? ==> Built(types, results, i + 1) == Ok((schemas, models))
    {
      var t := types[i];
      var s := TypeSchema(env, types, i);
      if s.Err? {
        BuiltFails(types, results, i, (schemas, models));
        return Some(s.error);
      }
      BuiltStep(types, results, i, (schemas, models));
      schemas := schemas[t.name := s.value];
      if !IsAbstract(t) {
        models := models + {t.name};
      }
      return None;
    }

    /** `buildSchemas()` (lines 76-158): a schema for every type, a model for
        every concrete one. */
    method BuildSchemas() returns (r: Result<(), SchemaError>)
      requires ValidEnv(env)
      modifies this
      ensures r.Ok? <==> Built(AllTypes(env), Results(env), |AllTypes(env)|).Ok?
      ensures r.Err? ==> Built(AllTypes(env), Results(env), |AllTypes(env)|) == Err(r.error)
      ensures r.Ok? ==> built && Built(AllTypes(env), Results(env), |AllTypes(env)|).value == (schemas, models)
    {
      var types := AllTypes(env);
      r := AddSchemas(types, Results(env));
      if r.Ok? {
        built := true;
      }
    }

    /** The loop of buildSchemas over getAllTypes' list `types`, whose
        `buildSchema` outcomes are `results`. */
    method AddSchemas(types: seq<TypeDecl>, ghost results: seq<Result<Schema, SchemaError>>) returns (r: Result<(), SchemaError>)
      requires ValidEnv(env) && types == AllTypes(env) && results == Results(env)
      modifies this
      ensures r.Ok? ==> Built(types, results, |types|) == Ok((schemas, models))
      ensures r.Err? ==> Built(types, results, |types|) == Err(r.error)
    {
      schemas := map[];
      models := {};
      var i := 0;
      while i < |types|
        invariant 0 <= i <= |types| == |results|
        invariant Built(types, results, i) == Ok((schemas, models))
      {
        var failed := AddSchema(types, i, results);
        if failed.Some? {
          return Err(failed.value);
        }
        i := i + 1;
      }
      r := Ok(());
    }
  }

  /** `new MongooseSchemaBuilder(app, orgName, locale)` (lines 50-74): refused
      unless the application, the organisation name and the locale (the
      environment's) are all given; otherwise the compiler builds every
      schema, and a failing build fails the construction. */
  method NewSchemaBuilder(app: Value, orgName: Value, env: Env) returns (r: Result<MongooseSchemaBuilder, SchemaError>)
    requires ValidEnv(env)
    ensures !Truthy(app) || !Truthy(orgName) || env.locale == "" ==> r == Err(MissingParameters)
    ensures Truthy(app) && Truthy(orgName) && env.locale != "" ==>
      (r.Ok? <==> Built(AllTypes(env), Results(env), |AllTypes(env)|).Ok?) &&
      (r.Err? ==> r == Err(Built(AllTypes(env), Results(env), |AllTypes(env)|).error))
    ensures r.Ok? ==> fresh(r.value) && r.value.env == env && r.value.built
    ensures r.Ok? ==> Built(AllTypes(env), Results(env), |AllTypes(env)|).value == (r.value.schemas, r.value.models)
  {
    if !Truthy(app) || !Truthy(orgName) || env.locale == "" {
      return Err(MissingParameters);
    }
    var builder := new MongooseSchemaBuilder(env);
    var built := builder.BuildSchemas();
    if built.Err? {
      return Err(built.error);
    }
    return Ok(builder);
  }
}
