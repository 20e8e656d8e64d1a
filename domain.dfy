// The records of an application definition (types and their properties) and
// the read-only queries of src/builder/app.manager.js over a list of types:
// base chains, flattened properties, child types, property lookups and the
// strict-mode key check. The state-changing parts of the manager live in
// module Manager.
module Domain {
  import opened Wrappers
  import opened Json
  import opened Utils
  import opened Strings
  import opened Seqs

  // ---------------------------------------------------------------------------
  // Records
  // ---------------------------------------------------------------------------

  /** The `type` field of a property. */
  datatype Kind =
    | StringKind | NumberKind | BooleanKind | DateKind | ObjectKind | ArrayKind
    | LocalizedKind | MixedKind | ReferenceKind | CollectionKind | CalculatedKind

  function KindName(k: Kind): (r: string)
    ensures r != ""
  {
    match k
    case StringKind => "string"
    case NumberKind => "number"
    case BooleanKind => "boolean"
    case DateKind => "date"
    case ObjectKind => "object"
    case ArrayKind => "array"
    case LocalizedKind => "localized"
    case MixedKind => "mixed"
    case ReferenceKind => "reference"
    case CollectionKind => "collection"
    case CalculatedKind => "calculated"
  }

  /** `options.unique`: either `true` or an object with a localized message
      and an `insensitive` flag. */
  datatype UniqueOption = UniqueOption(message: Option<map<string, string>>, insensitive: bool)

  /** `options.required`: `true` (no message) or an object whose `message` is
      copied as it is. */
  datatype RequiredOption = RequiredOption(message: Value)

  /** One entry of `options.validations`. */
  datatype Validation = Validation(
    validator: string,
    arguments: Value,
    message: Option<map<string, string>>,
    passIfEmpty: Value)

  /** The `options` object of a property. `settings` holds the remaining
      options by name (`select`, `trim`, `lowercase`, `uppercase`, `minLength`,
      `maxLength`, `min`, `max`, ...). */
  datatype PropertyOptions = PropertyOptions(
    typeName: Option<string>,
    defaultValue: Value,
    unique: Option<UniqueOption>,
    required: Option<RequiredOption>,
    autopopulate: Value,
    validations: seq<Option<Validation>>,
    settings: seq<Entry<Value>>)

  datatype Property = Property(
    name: string,
    kind: Kind,
    order: Option<int>,
    owner: Option<string>,
    options: Option<PropertyOptions>)

  /** The `base` field: absent, `null`, or a type name. */
  datatype BaseRef = NoBase | NullBase | BaseName(name: string)

  /** `options.tree` of a type. */
  datatype Tree = Tree(
    parent: string,
    children: string,
    maxDepth: Option<int>,
    parentOptions: seq<Entry<Value>>,
    childrenOptions: seq<Entry<Value>>)

  /** `options.collection` of a type: a string, an object with
      `localized: true` (and an optional `lower` flag), or any other value. */
  datatype CollectionOption =
    | NoCollection
    | NamedCollection(name: string)
    | LocalizedCollection(lower: Value)
    | OtherCollection

  datatype TypeOptions = TypeOptions(
    tree: Option<Tree>,
    autopopulate: Value,
    collection: CollectionOption)

  /** A type record. `hasProperties` is false when the record has no
      `properties` key; `properties` is then empty. */
  datatype TypeDecl = TypeDecl(
    name: string,
    base: BaseRef,
    inherit: Option<bool>,
    isAbstract: Option<bool>,
    properties: seq<Property>,
    hasProperties: bool,
    options: Option<TypeOptions>,
    plural: map<string, string>,
    level: Option<int>,
    isPublic: Option<bool>)

  /** The application options the resolver reads: `options.default.type`, the
      root type name `options.default.defaults.types._root.__type`,
      `options.strict` and `options.authorization.use`. */
  datatype AppOptions = AppOptions(
    defaultType: Option<string>,
    rootName: string,
    strict: bool,
    authorizationUse: Option<seq<string>>)

  // ---------------------------------------------------------------------------
  // Lookup and base chains
  // ---------------------------------------------------------------------------

  /** `_.find(types, {name: name})`: the first type with that name. */
  function FindType(types: seq<TypeDecl>, name: string): (r: Option<nat>)
    ensures r.Some? ==> r.value < |types| && types[r.value].name == name
    ensures r.Some? ==> forall j | 0 <= j < r.value :: types[j].name != name
    ensures r.None? ==> forall j | 0 <= j < |types| :: types[j].name != name
  {
    if types == [] then None
    else if types[0].name == name then Some(0)
    else
      match FindType(types[1..], name)
      case None => None
      case Some(k) => Some(k + 1)
  }

  /** `isAppType`: some type carries this (non-empty) name. */
  predicate IsAppType(types: seq<TypeDecl>, name: string)
  {
    name != "" && FindType(types, name).Some?
  }

  /** The names `isAppType` accepts are exactly the non-empty names of the
      application's types. */
  lemma IsAppTypeNames(types: seq<TypeDecl>, name: string)
    ensures IsAppType(types, name) <==> name != "" && exists k | 0 <= k < |types| :: types[k].name == name
  {
  }

  /** The record `_.find` returns for a truthy `base` of type `i`. */
  function Parent(types: seq<TypeDecl>, i: nat): (r: Option<nat>)
    requires i < |types|
    ensures r.Some? ==> r.value < |types|
  {
    match types[i].base
    case BaseName(b) => if b != "" then FindType(types, b) else None
    case _ => None
  }

  /** The ancestors of type `i`, nearest first, following `base` for at most
      `fuel` hops; `None` when the chain is longer (it then never ends). */
  function Ancestors(types: seq<TypeDecl>, i: nat, fuel: nat): (r: Option<seq<nat>>)
    requires i < |types|
    ensures r.Some? ==> |r.value| <= fuel
    ensures r.Some? ==> forall k | 0 <= k < |r.value| :: r.value[k] < |types|
    decreases fuel
  {
    match Parent(types, i)
    case None => Some([])
    case Some(p) =>
      if fuel == 0 then None
      else
        match Ancestors(types, p, fuel - 1)
        case None => None
        case Some(rest) => Some([p] + rest)
  }

  /** No base chain loops: every chain ends within `|types|` hops. */
  predicate Acyclic(types: seq<TypeDecl>)
  {
    forall i | 0 <= i < |types| :: Ancestors(types, i, |types|).Some?
  }

  function Chain(types: seq<TypeDecl>, i: nat): (r: seq<nat>)
    requires Acyclic(types) && i < |types|
    ensures forall k | 0 <= k < |r| :: r[k] < |types|
  {
    Ancestors(types, i, |types|).value
  }

  function Reverse<T>(s: seq<T>): (r: seq<T>)
    ensures |r| == |s|
    ensures forall k | 0 <= k < |s| :: r[k] == s[|s| - 1 - k]
  {
    seq(|s|, k requires 0 <= k < |s| => s[|s| - 1 - k])
  }

  /** What `getBaseTypes(name)` returns, as indices: the chain furthest-first,
      `[]` for an unknown name. */
  function BaseIndices(types: seq<TypeDecl>, name: string): (r: seq<nat>)
    requires Acyclic(types)
    ensures forall k | 0 <= k < |r| :: r[k] < |types|
  {
    Reverse(ChainOf(types, name))
  }

  /** The chain, nearest first, of the type named `name`; `[]` if unknown. */
  function ChainOf(types: seq<TypeDecl>, name: string): (r: seq<nat>)
    requires Acyclic(types)
    ensures forall k | 0 <= k < |r| :: r[k] < |types|
  {
    match FindType(types, name)
    case None => []
    case Some(i) => Chain(types, i)
  }

  /** The rest of a base walk that is about to visit `cur`, with `fuel` hops
      left. */
  function Walk(types: seq<TypeDecl>, cur: Option<nat>, fuel: nat): Option<seq<nat>>
    requires cur.Some? ==> cur.value < |types|
  {
    match cur
    case None => Some([])
    case Some(p) =>
      if fuel == 0 then None
      else
        match Ancestors(types, p, fuel - 1)
        case None => None
        case Some(rest) => Some([p] + rest)
  }

  /** `prefix` followed by the outcome of a walk. */
  function Prefixed(prefix: seq<nat>, o: Option<seq<nat>>): Option<seq<nat>>
  {
    if o.None? then None else Some(prefix + o.value)
  }

  /** One hop of the walk, as the loop of getBaseTypes takes it. */
  lemma WalkStep(types: seq<TypeDecl>, chain: seq<nat>, b: nat, fuel: nat)
    requires b < |types| && fuel > 0
    ensures Prefixed(chain, Walk(types, Some(b), fuel)) == Prefixed(chain + [b], Walk(types, Parent(types, b), fuel - 1))
  {
    var w := Walk(types, Parent(types, b), fuel - 1);
    assert Ancestors(types, b, fuel - 1) == w;
    if w.Some? {
      assert chain + ([b] + w.value) == (chain + [b]) + w.value;
    }
  }

  /** Two type lists with the same names and bases, position by position:
      they have the same chains (levels and properties do not matter). */
  predicate SameShape(a: seq<TypeDecl>, b: seq<TypeDecl>)
  {
    |a| == |b| && forall k | 0 <= k < |a| :: a[k].name == b[k].name && a[k].base == b[k].base
  }

  /** Two type lists with the same names, position by position. */
  predicate SameNames(a: seq<TypeDecl>, b: seq<TypeDecl>)
  {
    |a| == |b| && forall k | 0 <= k < |a| :: a[k].name == b[k].name
  }

  /** Lookup by name sees only the names. */
  lemma {:induction false} FindTypeSameNames(a: seq<TypeDecl>, b: seq<TypeDecl>, name: string)
    requires SameNames(a, b)
    ensures FindType(a, name) == FindType(b, name)
  {
    if a != [] {
      assert SameNames(a[1..], b[1..]);
      FindTypeSameNames(a[1..], b[1..], name);
    }
  }

  lemma {:induction false} AncestorsSameShape(a: seq<TypeDecl>, b: seq<TypeDecl>, i: nat, fuel: nat)
    requires SameShape(a, b) && i < |a|
    ensures Ancestors(a, i, fuel) == Ancestors(b, i, fuel)
    decreases fuel
  {
    ParentSameShape(a, b, i);
    match Parent(a, i)
    case None =>
    case Some(p) =>
      if fuel > 0 {
        AncestorsSameShape(a, b, p, fuel - 1);
        assert Ancestors(a, i, fuel) == Ancestors(b, i, fuel) by {
          assert Parent(b, i) == Some(p);
        }
      }
  }

  lemma ParentSameShape(a: seq<TypeDecl>, b: seq<TypeDecl>, i: nat)
    requires SameShape(a, b) && i < |a|
    ensures Parent(a, i) == Parent(b, i)
  {
    if a[i].base.BaseName? && a[i].base.name != "" {
      FindTypeSameNames(a, b, a[i].base.name);
    }
  }

  /** A chain found with some fuel is found with more. */
  lemma {:induction false} AncestorsMoreFuel(types: seq<TypeDecl>, i: nat, f: nat, g: nat)
    requires i < |types| && f <= g && Ancestors(types, i, f).Some?
    ensures Ancestors(types, i, g) == Ancestors(types, i, f)
    decreases f
  {
    if Parent(types, i).Some? {
      AncestorsMoreFuel(types, Parent(types, i).value, f - 1, g - 1);
    }
  }

  /** Each ancestor's own chain is the rest of the chain. */
  lemma {:induction false} AncestorsSuffix(types: seq<TypeDecl>, i: nat, fuel: nat, k: nat)
    requires i < |types| && Ancestors(types, i, fuel).Some?
    requires k < |Ancestors(types, i, fuel).value|
    ensures fuel >= k + 1
    ensures Ancestors(types, Ancestors(types, i, fuel).value[k], fuel - k - 1) ==
            Some(Ancestors(types, i, fuel).value[k + 1..])
    decreases fuel
  {
    var chain := Ancestors(types, i, fuel).value;
    var p := Parent(types, i).value;
    var rest := Ancestors(types, p, fuel - 1).value;
    assert chain == [p] + rest;
    if k == 0 {
      ConsDrop(p, rest, 0);
      assert chain[0] == p && chain[1..] == rest;
    } else {
      AncestorsSuffix(types, p, fuel - 1, k - 1);
      ConsDrop(p, rest, k);
      assert chain[k] == rest[k - 1] && chain[k + 1..] == rest[k..];
    }
  }

  /** In an acyclic list no type occurs twice on a chain. */
  lemma ChainDistinct(types: seq<TypeDecl>, i: nat)
    requires Acyclic(types) && i < |types|
    ensures forall a, b | 0 <= a < b < |Chain(types, i)| :: Chain(types, i)[a] != Chain(types, i)[b]
  {
    forall a, b | 0 <= a < b < |Chain(types, i)| ensures Chain(types, i)[a] != Chain(types, i)[b] {
      AncestorsDistinct(types, i, |types|, a, b);
    }
  }

  /** Two positions of a chain hold different types: the chain after the
      first would otherwise equal the shorter chain after the second. */
  lemma AncestorsDistinct(types: seq<TypeDecl>, i: nat, n: nat, a: nat, b: nat)
    requires i < |types| && Ancestors(types, i, n).Some?
    requires a < b < |Ancestors(types, i, n).value|
    ensures Ancestors(types, i, n).value[a] != Ancestors(types, i, n).value[b]
  {
    var c := Ancestors(types, i, n).value;
    if c[a] == c[b] {
      assert |c[a + 1..]| != |c[b + 1..]|;
      var fa := SuffixOf(types, i, n, c, a);
      var fb := SuffixOf(types, i, n, c, b);
      AncestorsMoreFuel(types, c[b], fb, fa);
      assert false;
    }
  }

  /** AncestorsSuffix on a chain already named: the fuel left at entry `k`. */
  lemma SuffixOf(types: seq<TypeDecl>, i: nat, n: nat, c: seq<nat>, k: nat) returns (f: nat)
    requires i < |types| && Ancestors(types, i, n) == Some(c) && k < |c|
    ensures c[k] < |types| && f == n - k - 1 && Ancestors(types, c[k], f) == Some(c[k + 1..])
  {
    AncestorsSuffix(types, i, n, k);
    f := n - k - 1;
  }

  /** `_level` stamping of getBaseTypes: the k-th entry of `c` gets `start + k`,
      one after the other (the last stamp written is that of the last entry). */
  function StampLevels(types: seq<TypeDecl>, c: seq<nat>, start: int): (r: seq<TypeDecl>)
    requires forall k | 0 <= k < |c| :: c[k] < |types|
    ensures |r| == |types|
    ensures forall j | 0 <= j < |types| && j !in c :: r[j] == types[j]
    ensures forall j | 0 <= j < |types| :: r[j] == types[j].(level := r[j].level)
    decreases |c|
  {
    if c == [] then types
    else
      var init := c[..|c| - 1];
      assert forall j :: j in init ==> j in c;
      StampOne(StampLevels(types, init, start), c[|c| - 1], start + |c| - 1)
  }

  /** `bases[i].level = level` on one record. */
  function StampOne(types: seq<TypeDecl>, b: nat, level: int): (r: seq<TypeDecl>)
    requires b < |types|
    ensures |r| == |types| && r[b].level == Some(level)
    ensures forall j | 0 <= j < |types| && j != b :: r[j] == types[j]
  {
    types[b := types[b].(level := Some(level))]
  }

  /** On a chain without repetition every ancestor ends with its distance. */
  lemma {:induction false} StampLevelsDistinct(types: seq<TypeDecl>, c: seq<nat>, start: int)
    requires forall k | 0 <= k < |c| :: c[k] < |types|
    requires forall a, b | 0 <= a < b < |c| :: c[a] != c[b]
    ensures forall k | 0 <= k < |c| :: StampLevels(types, c, start)[c[k]].level == Some(start + k)
    decreases |c|
  {
    if c != [] {
      var init := c[..|c| - 1];
      StampLevelsDistinct(types, init, start);
      forall k | 0 <= k < |c| ensures StampLevels(types, c, start)[c[k]].level == Some(start + k) {
        if k < |c| - 1 {
          assert init[k] == c[k] != c[|c| - 1];
        }
      }
    }
  }

  /** Stamping one more ancestor at the end of the chain. */
  lemma StampLevelsSnoc(types: seq<TypeDecl>, c: seq<nat>, b: nat, start: int)
    requires forall k | 0 <= k < |c| :: c[k] < |types|
    requires b < |types|
    ensures StampLevels(types, c + [b], start) == StampOne(StampLevels(types, c, start), b, start + |c|)
  {
    assert (c + [b])[..|c|] == c;
  }

  /** Every type on the chain has a level after stamping. */
  lemma {:induction false} StampLevelsStamped(types: seq<TypeDecl>, c: seq<nat>, start: int)
    requires forall k | 0 <= k < |c| :: c[k] < |types|
    ensures forall k | 0 <= k < |c| :: StampLevels(types, c, start)[c[k]].level.Some?
    decreases |c|
  {
    if c != [] {
      var init := c[..|c| - 1];
      StampLevelsStamped(types, init, start);
      forall k | 0 <= k < |c| ensures StampLevels(types, c, start)[c[k]].level.Some? {
        if k < |c| - 1 && c[k] != c[|c| - 1] {
          assert init[k] == c[k];
        }
      }
    }
  }

  // ---------------------------------------------------------------------------
  // Flattened properties
  // ---------------------------------------------------------------------------

  function Names(ps: seq<Property>): (r: set<string>)
    ensures forall k | 0 <= k < |ps| :: ps[k].name in r
    ensures forall n | n in r :: exists k | 0 <= k < |ps| :: ps[k].name == n
  {
    set k | 0 <= k < |ps| :: ps[k].name
  }

  /** `_.every(properties, p => _.has(p, 'order'))`. */
  predicate AllHaveOrder(ps: seq<Property>)
  {
    forall k | 0 <= k < |ps| :: ps[k].order.Some?
  }

  /** A templated `options.type`, and (see Findings) a templated string
      `options.default`, after interpolation. */
  function InterpolateOptions(o: Option<PropertyOptions>, interp: string -> string): (r: Option<PropertyOptions>)
    ensures r.Some? <==> o.Some?
    ensures o.Some? ==> r.value == o.value.(typeName := r.value.typeName, defaultValue := r.value.defaultValue)
  {
    match o
    case None => None
    case Some(po) =>
      var t := if po.typeName.Some? && IsTemplate(po.typeName.value) then Some(interp(po.typeName.value)) else po.typeName;
      var d := if po.defaultValue.Str? && IsTemplate(po.defaultValue.s) then Str(interp(po.defaultValue.s)) else po.defaultValue;
      Some(po.(typeName := t, defaultValue := d))
  }

  /** One step of the numbering loop of getType: the property gets order `k`
      and its templated options are interpolated. */
  function NumberProperty(p: Property, k: int, interp: string -> string): (r: Property)
    ensures r.name == p.name && r.kind == p.kind && r.owner == p.owner
    ensures r.order == Some(k)
  {
    p.(order := Some(k), options := InterpolateOptions(p.options, interp))
  }

  /** The numbering loop of getType from `start` on, in declaration order. */
  function Renumber(ps: seq<Property>, start: int, interp: string -> string): (r: seq<Property>)
  {
    if ps == [] then [] else [NumberProperty(ps[0], start, interp)] + Renumber(ps[1..], start + 1, interp)
  }

  lemma {:induction false} RenumberAt(ps: seq<Property>, start: int, interp: string -> string, k: nat)
    requires k < |ps|
    ensures |Renumber(ps, start, interp)| == |ps|
    ensures Renumber(ps, start, interp)[k] == NumberProperty(ps[k], start + k, interp)
  {
    if k > 0 {
      RenumberAt(ps[1..], start + 1, interp, k - 1);
    }
    RenumberLength(ps, start, interp);
  }

  lemma {:induction false} RenumberLength(ps: seq<Property>, start: int, interp: string -> string)
    ensures |Renumber(ps, start, interp)| == |ps|
  {
    if ps != [] {
      RenumberLength(ps[1..], start + 1, interp);
    }
  }

  /** The own properties of a type as getType leaves them: numbered 1..n (with
      templated options interpolated) when some property has no `order`,
      untouched otherwise. */
  function OwnProperties(t: TypeDecl, interp: string -> string): seq<Property>
  {
    if AllHaveOrder(t.properties) then t.properties else Renumber(t.properties, 1, interp)
  }

  /** Numbering keeps the properties, their names and kinds, in declaration
      order, and leaves every property with an order: either the one it had
      (when all had one) or its position counted from 1. */
  lemma OwnPropertiesNumbering(t: TypeDecl, interp: string -> string)
    ensures |OwnProperties(t, interp)| == |t.properties|
    ensures forall k | 0 <= k < |t.properties| ::
      OwnProperties(t, interp)[k].name == t.properties[k].name &&
      OwnProperties(t, interp)[k].kind == t.properties[k].kind
    ensures AllHaveOrder(t.properties) ==> OwnProperties(t, interp) == t.properties
    ensures !AllHaveOrder(t.properties) ==>
      forall k | 0 <= k < |t.properties| :: OwnProperties(t, interp)[k].order == Some(k + 1)
    ensures AllHaveOrder(OwnProperties(t, interp))
    ensures Names(OwnProperties(t, interp)) == Names(t.properties)
  {
    var own := OwnProperties(t, interp);
    if !AllHaveOrder(t.properties) {
      RenumberLength(t.properties, 1, interp);
      forall k | 0 <= k < |t.properties|
        ensures own[k] == NumberProperty(t.properties[k], 1 + k, interp)
      {
        RenumberAt(t.properties, 1, interp, k);
      }
    }
    assert forall k | 0 <= k < |own| :: own[k].name == t.properties[k].name;
    assert Names(own) == Names(t.properties) by {
      forall n | n in Names(t.properties) ensures n in Names(own) {
        var k :| 0 <= k < |t.properties| && t.properties[k].name == n;
        assert own[k].name == n;
      }
    }
  }

  /** Numbering happens once: a second getType on the numbered type changes
      nothing. */
  lemma OwnPropertiesIdempotent(t: TypeDecl, interp: string -> string)
    ensures OwnProperties(t.(properties := OwnProperties(t, interp)), interp) == OwnProperties(t, interp)
  {
    OwnPropertiesNumbering(t, interp);
  }

  /** The properties of one ancestor that the type does not redeclare. */
  function Unshadowed(ps: seq<Property>, own: set<string>): seq<Property>
  {
    if ps == [] then []
    else if ps[0].name in own then Unshadowed(ps[1..], own)
    else [ps[0]] + Unshadowed(ps[1..], own)
  }

  /** The filter keeps exactly the properties whose names are not in `own`. */
  lemma {:induction false} UnshadowedMembers(ps: seq<Property>, own: set<string>)
    ensures forall p :: p in Unshadowed(ps, own) <==> p in ps && p.name !in own
  {
    if ps != [] {
      UnshadowedMembers(ps[1..], own);
      assert forall p :: p in ps <==> p == ps[0] || p in ps[1..];
    }
  }

  /** The ancestor part of getProperties, furthest ancestor first. */
  function Inherited(types: seq<TypeDecl>, bases: seq<nat>, own: set<string>): seq<Property>
    requires forall k | 0 <= k < |bases| :: bases[k] < |types|
  {
    if bases == [] then []
    else Unshadowed(types[bases[0]].properties, own) + Inherited(types, bases[1..], own)
  }

  /** The ancestor part holds exactly the properties the bases declare under
      a name outside `own`. */
  lemma {:induction false} InheritedSpec(types: seq<TypeDecl>, bases: seq<nat>, own: set<string>)
    requires forall k | 0 <= k < |bases| :: bases[k] < |types|
    ensures forall p | p in Inherited(types, bases, own) :: p.name !in own
    ensures forall p | p in Inherited(types, bases, own) :: exists k | 0 <= k < |bases| :: p in types[bases[k]].properties
    ensures forall k, p | 0 <= k < |bases| && p in types[bases[k]].properties && p.name !in own :: p in Inherited(types, bases, own)
  {
    if bases != [] {
      var rest := Inherited(types, bases[1..], own);
      InheritedSpec(types, bases[1..], own);
      UnshadowedMembers(types[bases[0]].properties, own);
      forall p | p in rest ensures exists k | 0 <= k < |bases| :: p in types[bases[k]].properties {
        var k :| 0 <= k < |bases[1..]| && p in types[bases[1..][k]].properties;
        assert bases[1..][k] == bases[k + 1];
      }
      forall k, p | 1 <= k < |bases| && p in types[bases[k]].properties && p.name !in own ensures p in rest {
        assert bases[k] == bases[1..][k - 1];
      }
    }
  }

  /** `_.sortBy(ps, ["order"])` compares present orders ascending and puts
      a property without `order` after every property with one. */
  predicate OrderLe(p: Property, q: Property)
  {
    q.order.None? || (p.order.Some? && p.order.value <= q.order.value)
  }

  predicate SortedByOrder(ps: seq<Property>)
  {
    forall i, j | 0 <= i < j < |ps| :: OrderLe(ps[i], ps[j])
  }

  /** `_.every(all, p => p.order)`: every order present and non-zero. */
  predicate AllTruthyOrder(ps: seq<Property>)
  {
    forall k | 0 <= k < |ps| :: ps[k].order.Some? && ps[k].order.value != 0
  }

  /** Insertion after every element with a smaller or equal key, which keeps
      `_.sortBy` stable. */
  function InsertByOrder(sorted: seq<Property>, p: Property): (r: seq<Property>)
    requires SortedByOrder(sorted)
    ensures SortedByOrder(r)
    ensures multiset(r) == multiset(sorted) + multiset{p}
    ensures forall x | x in r :: x == p || x in sorted
    decreases |sorted|
  {
    if sorted == [] || !OrderLe(sorted[0], p) then [p] + sorted
    else
      var rest := InsertByOrder(sorted[1..], p);
      assert sorted == [sorted[0]] + sorted[1..];
      SortedAfterHead(sorted, p, rest);
      [sorted[0]] + rest
  }

  /** The head of a sorted list still heads it once `p`, whose key is not
      below the head's, has been inserted into the tail. */
  lemma SortedAfterHead(sorted: seq<Property>, p: Property, rest: seq<Property>)
    requires SortedByOrder(sorted) && sorted != [] && OrderLe(sorted[0], p)
    requires SortedByOrder(rest) && forall x | x in rest :: x == p || x in sorted[1..]
    ensures SortedByOrder([sorted[0]] + rest)
  {
    forall y | y in rest
      ensures OrderLe(sorted[0], y)
    {
      if y != p {
        var m :| 0 <= m < |sorted[1..]| && sorted[1..][m] == y;
        assert sorted[m + 1] == y;
      }
    }
    SortedByOrderCons(sorted[0], rest);
  }

  /** A sorted list stays sorted when headed by an element whose key is at
      most all of its keys. */
  lemma SortedByOrderCons(x: Property, rest: seq<Property>)
    requires SortedByOrder(rest)
    requires forall y | y in rest :: OrderLe(x, y)
    ensures SortedByOrder([x] + rest)
  {
    var r := [x] + rest;
    forall i, j | 0 <= i < j < |r|
      ensures OrderLe(r[i], r[j])
    {
      assert r[j] == rest[j - 1];
      if i > 0 {
        assert r[i] == rest[i - 1];
      }
    }
  }

  /** `_.sortBy(all, ["order"])`. */
  function SortByOrder(ps: seq<Property>): (r: seq<Property>)
    ensures SortedByOrder(r)
    ensures multiset(r) == multiset(ps)
  {
    if ps == [] then []
    else
      assert ps == ps[..|ps| - 1] + [ps[|ps| - 1]];
      InsertByOrder(SortByOrder(ps[..|ps| - 1]), ps[|ps| - 1])
  }

  /** The properties without `order`, in their order in `ps`. */
  function Unordered(ps: seq<Property>): seq<Property>
  {
    if ps == [] then [] else (if ps[0].order.None? then [ps[0]] else []) + Unordered(ps[1..])
  }

  lemma {:induction false} UnorderedAppend(a: seq<Property>, b: seq<Property>)
    ensures Unordered(a + b) == Unordered(a) + Unordered(b)
  {
    if a == [] {
      assert a + b == b;
    } else {
      var head := if a[0].order.None? then [a[0]] else [];
      assert (a + b)[0] == a[0] && (a + b)[1..] == a[1..] + b;
      assert Unordered(a + b) == head + Unordered(a[1..] + b);
      UnorderedAppend(a[1..], b);
      assert Unordered(a) == head + Unordered(a[1..]);
    }
  }

  /** A property without `order` is inserted after every other one. */
  lemma {:induction false} InsertUnorderedLast(sorted: seq<Property>, p: Property)
    requires SortedByOrder(sorted) && p.order.None?
    ensures InsertByOrder(sorted, p) == sorted + [p]
    decreases |sorted|
  {
    if sorted != [] {
      assert SortedByOrder(sorted[1..]);
      InsertUnorderedLast(sorted[1..], p);
      assert sorted == [sorted[0]] + sorted[1..];
    }
  }

  /** Inserting a property with an order leaves the unordered ones as they were. */
  lemma {:induction false} InsertOrderedKeeps(sorted: seq<Property>, p: Property)
    requires SortedByOrder(sorted) && p.order.Some?
    ensures Unordered(InsertByOrder(sorted, p)) == Unordered(sorted)
    decreases |sorted|
  {
    if sorted != [] && OrderLe(sorted[0], p) {
      assert SortedByOrder(sorted[1..]);
      InsertOrderedKeeps(sorted[1..], p);
      var rest := InsertByOrder(sorted[1..], p);
      assert ([sorted[0]] + rest)[1..] == rest;
    } else {
      assert ([p] + sorted)[1..] == sorted;
    }
  }

  /** `_.sortBy` is stable: the properties without `order` end up last, in
      the order they had. */
  lemma {:induction false} SortKeepsUnordered(ps: seq<Property>)
    ensures Unordered(SortByOrder(ps)) == Unordered(ps)
    decreases |ps|
  {
    if ps != [] {
      var init, last := ps[..|ps| - 1], ps[|ps| - 1];
      assert ps == init + [last];
      SortKeepsUnordered(init);
      UnorderedAppend(init, [last]);
      assert Unordered([last]) == (if last.order.None? then [last] else []) + Unordered([]);
      if last.order.None? {
        InsertUnorderedLast(SortByOrder(init), last);
        UnorderedAppend(SortByOrder(init), [last]);
      } else {
        InsertOrderedKeeps(SortByOrder(init), last);
      }
    }
  }

  /** The concatenation getProperties builds before its optional sort. */
  function Concatenated(types: seq<TypeDecl>, interp: string -> string, i: nat): seq<Property>
    requires Acyclic(types) && i < |types|
  {
    Inherited(types, Reverse(Chain(types, i)), Names(types[i].properties)) + OwnProperties(types[i], interp)
  }

  /** `getProperties(name)`. */
  function Properties(types: seq<TypeDecl>, interp: string -> string, name: string): (r: seq<Property>)
    requires Acyclic(types)
    ensures FindType(types, name).None? ==> r == []
  {
    match FindType(types, name)
    case None => []
    case Some(i) =>
      var all := Concatenated(types, interp, i);
      if AllTruthyOrder(all) then SortByOrder(all) else all
  }

  /** Whatever the orders, getProperties returns the concatenation of the
      inherited and the own properties, reordered at most. */
  lemma PropertiesPermutation(types: seq<TypeDecl>, interp: string -> string, name: string)
    requires Acyclic(types) && FindType(types, name).Some?
    ensures multiset(Properties(types, interp, name)) == multiset(Concatenated(types, interp, FindType(types, name).value))
  {
  }

  /** `getProperties(name)` as written, where a type may lack `properties`:
      the bases are only gathered from when the type declares properties, so
      a type without them under a base with properties gets
      `[].concat(undefined)`, and reading `order` of that `undefined` raises. */
  function PropertiesAsWritten(types: seq<TypeDecl>, interp: string -> string, name: string): (r: Result<seq<Property>, string>)
    requires Acyclic(types)
    ensures r.Err? ==> FindType(types, name).Some? && !types[FindType(types, name).value].hasProperties
  {
    match FindType(types, name)
    case None => Ok([])
    case Some(i) =>
      if types[i].hasProperties then Ok(Properties(types, interp, name))
      else if exists b | b in Chain(types, i) :: types[b].hasProperties
      then Err("TypeError: Cannot read properties of undefined (reading 'order')")
      else Ok([])
  }

  /** Records without `properties` carry an empty list. */
  predicate EmptyWhenAbsent(types: seq<TypeDecl>)
  {
    forall k | 0 <= k < |types| :: types[k].hasProperties || types[k].properties == []
  }

  lemma {:induction false} InheritedFromEmpty(types: seq<TypeDecl>, bases: seq<nat>, own: set<string>)
    requires forall k | 0 <= k < |bases| :: bases[k] < |types| && types[bases[k]].properties == []
    ensures Inherited(types, bases, own) == []
    decreases |bases|
  {
    if bases != [] {
      InheritedFromEmpty(types, bases[1..], own);
    }
  }

  /** A type without properties whose bases have none gathers nothing. */
  lemma AbsentChainEmpty(types: seq<TypeDecl>, interp: string -> string, i: nat)
    requires Acyclic(types) && EmptyWhenAbsent(types) && i < |types|
    requires !types[i].hasProperties
    requires forall b | b in Chain(types, i) :: !types[b].hasProperties
    ensures Concatenated(types, interp, i) == []
  {
    var chain := Chain(types, i);
    var bases := Reverse(chain);
    forall k | 0 <= k < |bases| ensures bases[k] < |types| && types[bases[k]].properties == [] {
      assert bases[k] == chain[|chain| - 1 - k];
      assert bases[k] in chain;
    }
    InheritedFromEmpty(types, bases, Names(types[i].properties));
    assert OwnProperties(types[i], interp) == [];
  }

  /** Wherever getProperties as written returns, it returns what reading an
      absent `properties` as an empty list gives; it raises exactly for a
      type without properties under a base that has them. */
  lemma PropertiesAsWrittenAgrees(types: seq<TypeDecl>, interp: string -> string, name: string)
    requires Acyclic(types) && EmptyWhenAbsent(types)
    ensures PropertiesAsWritten(types, interp, name).Ok? ==>
      PropertiesAsWritten(types, interp, name).value == Properties(types, interp, name)
    ensures PropertiesAsWritten(types, interp, name).Err? <==>
      FindType(types, name).Some? && !types[FindType(types, name).value].hasProperties &&
      exists b | b in Chain(types, FindType(types, name).value) :: types[b].hasProperties
  {
    var found := FindType(types, name);
    if found.Some? {
      var i := found.value;
      if !types[i].hasProperties && !exists b | b in Chain(types, i) :: types[b].hasProperties {
        AbsentChainEmpty(types, interp, i);
      }
    }
  }

  /** The two types of the counterexample: `animal` declares `name`, and
      `dog`, based on it, has no `properties` key. */
  function AbsentTypes(): seq<TypeDecl>
  {
    [TypeDecl("animal", NoBase, None, None, [NameProperty()], true, None, map[], None, None),
     TypeDecl("dog", BaseName("animal"), None, None, [], false, None, map[], None, None)]
  }

  function NameProperty(): Property
  {
    Property("name", StringKind, None, None, None)
  }

  /** getProperties("dog") as written raises; read as an empty list, the
      absent properties give `dog` the property of its base. */
  lemma AbsentPropertiesCounterexample(interp: string -> string)
    ensures Acyclic(AbsentTypes())
    ensures PropertiesAsWritten(AbsentTypes(), interp, "dog").Err?
    ensures Properties(AbsentTypes(), interp, "dog") == [NameProperty()]
  {
    var types := AbsentTypes();
    assert FindType(types, "animal") == Some(0);
    assert FindType(types, "dog") == Some(1);
    assert Ancestors(types, 0, 2) == Some([]);
    assert Parent(types, 0) == None && Parent(types, 1) == Some(0);
    assert Ancestors(types, 0, 1) == Some([]);
    assert [0] + [] == [0];
    assert Ancestors(types, 1, 2) == Some([0]);
    assert Acyclic(types);
    assert Chain(types, 1) == [0];
    assert Reverse([0]) == [0];
    assert Names([]) == {};
    assert Unshadowed([NameProperty()], {}) == [NameProperty()];
    assert Inherited(types, [0], {}) == [NameProperty()];
    assert OwnProperties(types[1], interp) == [];
    assert !AllTruthyOrder([NameProperty()]);
  }

  /** `_.uniqBy(ps, p => p.name)`: the first property of each name. */
  function UniqueByName(ps: seq<Property>, seen: set<string>): (r: seq<Property>)
    ensures forall p | p in r :: p in ps && p.name !in seen
  {
    if ps == [] then []
    else if ps[0].name in seen then UniqueByName(ps[1..], seen)
    else [ps[0]] + UniqueByName(ps[1..], seen + {ps[0].name})
  }

  /** `ps[k]` is the first property of its name in `ps`. */
  predicate FirstOfName(ps: seq<Property>, k: nat)
    requires k < |ps|
  {
    forall j | 0 <= j < k :: ps[j].name != ps[k].name
  }

  /** Dropping the head shifts first occurrences by one, except that a name
      equal to the head's is never first after it. */
  lemma FirstOfNameTail(ps: seq<Property>, k: nat)
    requires 1 <= k < |ps|
    ensures FirstOfName(ps, k) <==> FirstOfName(ps[1..], k - 1) && ps[0].name != ps[k].name
  {
    if FirstOfName(ps[1..], k - 1) && ps[0].name != ps[k].name {
      forall j | 0 <= j < k ensures ps[j].name != ps[k].name {
        if j > 0 { assert ps[1..][j - 1] == ps[j]; }
      }
    }
  }

  /** No two properties of `ps` share a name. */
  predicate NamesDistinct(ps: seq<Property>)
  {
    forall a, b | 0 <= a < b < |ps| :: ps[a].name != ps[b].name
  }

  /** A property whose name is not among those of a list with distinct
      names can be put in front of it. */
  lemma NamesDistinctCons(p: Property, ps: seq<Property>)
    requires NamesDistinct(ps) && forall q | q in ps :: q.name != p.name
    ensures NamesDistinct([p] + ps)
  {
    var r := [p] + ps;
    forall a, b | 0 <= a < b < |r| ensures r[a].name != r[b].name {
      assert r[b] == ps[b - 1];
      if a > 0 { assert r[a] == ps[a - 1]; }
    }
  }

  /** `_.uniqBy` keeps no name twice. */
  lemma {:induction false} UniqueByNameDistinct(ps: seq<Property>, seen: set<string>)
    ensures NamesDistinct(UniqueByName(ps, seen))
  {
    if ps != [] && ps[0].name !in seen {
      UniqueByNameDistinct(ps[1..], seen + {ps[0].name});
      NamesDistinctCons(ps[0], UniqueByName(ps[1..], seen + {ps[0].name}));
    } else if ps != [] {
      UniqueByNameDistinct(ps[1..], seen);
    }
  }

  /** `_.uniqBy` keeps the first property of every name not already seen. */
  lemma {:induction false} UniqueByNameKeepsFirsts(ps: seq<Property>, seen: set<string>)
    ensures forall k | 0 <= k < |ps| && ps[k].name !in seen && FirstOfName(ps, k) :: ps[k] in UniqueByName(ps, seen)
  {
    if ps != [] {
      var seen' := if ps[0].name in seen then seen else seen + {ps[0].name};
      UniqueByNameKeepsFirsts(ps[1..], seen');
      forall k | 1 <= k < |ps| && ps[k].name !in seen && FirstOfName(ps, k) ensures ps[k] in UniqueByName(ps, seen) {
        FirstOfNameTail(ps, k);
        assert ps[1..][k - 1] == ps[k];
      }
    }
  }

  /** Everything `_.uniqBy` keeps is the first property of its name. */
  lemma {:induction false} UniqueByNameOnlyFirsts(ps: seq<Property>, seen: set<string>)
    ensures forall p | p in UniqueByName(ps, seen) :: exists k | 0 <= k < |ps| :: ps[k] == p && FirstOfName(ps, k)
  {
    if ps != [] {
      var seen' := if ps[0].name in seen then seen else seen + {ps[0].name};
      UniqueByNameOnlyFirsts(ps[1..], seen');
      forall p | p in UniqueByName(ps, seen) ensures exists k | 0 <= k < |ps| :: ps[k] == p && FirstOfName(ps, k) {
        if p in UniqueByName(ps[1..], seen') {
          var k' :| 0 <= k' < |ps[1..]| && ps[1..][k'] == p && FirstOfName(ps[1..], k');
          FirstOfNameTail(ps, k' + 1);
          assert ps[k' + 1] == p;
        } else {
          assert p == ps[0] && FirstOfName(ps, 0);
        }
      }
    }
  }

  /** `_.uniqBy` keeps the order of what it keeps. */
  lemma {:induction false} UniqueByNameInOrder(ps: seq<Property>, seen: set<string>)
    ensures IsSubsequence(UniqueByName(ps, seen), ps)
  {
    if ps != [] {
      var r := UniqueByName(ps, seen);
      if ps[0].name in seen {
        UniqueByNameInOrder(ps[1..], seen);
        assert r != [] ==> r[0] != ps[0];
      } else {
        UniqueByNameInOrder(ps[1..], seen + {ps[0].name});
        assert r[1..] == UniqueByName(ps[1..], seen + {ps[0].name});
      }
    }
  }

  /** The properties of each type of `children`, one list after the other. */
  function ChildProperties(types: seq<TypeDecl>, interp: string -> string, children: seq<nat>): seq<Property>
    requires Acyclic(types)
    requires forall k | 0 <= k < |children| :: children[k] < |types|
  {
    if children == [] then []
    else Properties(types, interp, types[children[0]].name) + ChildProperties(types, interp, children[1..])
  }

  /** `p` is declared by one of the types of `chain`. */
  predicate DeclaredOnChain(types: seq<TypeDecl>, chain: seq<nat>, p: Property)
    requires forall k | 0 <= k < |chain| :: chain[k] < |types|
  {
    exists k | 0 <= k < |chain| :: p in types[chain[k]].properties
  }

  lemma InheritedMembers(types: seq<TypeDecl>, chain: seq<nat>, own: set<string>, p: Property)
    requires forall k | 0 <= k < |chain| :: chain[k] < |types|
    ensures p in Inherited(types, Reverse(chain), own) <==> p.name !in own && DeclaredOnChain(types, chain, p)
  {
    var bases := Reverse(chain);
    InheritedSpec(types, bases, own);
    if p.name !in own && DeclaredOnChain(types, chain, p) {
      var k :| 0 <= k < |chain| && p in types[chain[k]].properties;
      assert bases[|chain| - 1 - k] == chain[k];
    }
    if p in Inherited(types, bases, own) {
      var k :| 0 <= k < |bases| && p in types[bases[k]].properties;
      assert bases[k] == chain[|chain| - 1 - k];
    }
  }

  lemma SortedMembers(ps: seq<Property>, p: Property)
    ensures p in SortByOrder(ps) <==> p in ps
  {
    assert p in SortByOrder(ps) <==> p in multiset(SortByOrder(ps));
  }

  /** Which properties getProperties returns: every own property, and every
      ancestor property whose name the type does not redeclare; nothing else.
      An unknown type name gives `[]`. */
  lemma PropertiesMembers(types: seq<TypeDecl>, interp: string -> string, name: string, p: Property)
    requires Acyclic(types)
    ensures FindType(types, name).None? ==> Properties(types, interp, name) == []
    ensures FindType(types, name).Some? ==>
      (p in Properties(types, interp, name) <==>
        p in OwnProperties(types[FindType(types, name).value], interp) ||
        (p.name !in Names(types[FindType(types, name).value].properties) &&
         DeclaredOnChain(types, Chain(types, FindType(types, name).value), p)))
  {
    if FindType(types, name).Some? {
      var i := FindType(types, name).value;
      var all := Concatenated(types, interp, i);
      if AllTruthyOrder(all) {
        SortedMembers(all, p);
      }
      InheritedMembers(types, Chain(types, i), Names(types[i].properties), p);
    }
  }

  /** A redeclared property hides the inherited one: every property in the
      result whose name the type declares is the type's own. */
  lemma PropertiesOverride(types: seq<TypeDecl>, interp: string -> string, name: string, p: Property)
    requires Acyclic(types) && FindType(types, name).Some?
    requires p in Properties(types, interp, name)
    requires p.name in Names(types[FindType(types, name).value].properties)
    ensures p in OwnProperties(types[FindType(types, name).value], interp)
  {
    PropertiesMembers(types, interp, name, p);
  }

  /** Ordering: sorted by `order` when every order is truthy, otherwise the
      ancestors' properties (furthest first) followed by the own ones. */
  lemma PropertiesOrder(types: seq<TypeDecl>, interp: string -> string, name: string)
    requires Acyclic(types) && FindType(types, name).Some?
    ensures var i := FindType(types, name).value;
      var all := Concatenated(types, interp, i);
      (AllTruthyOrder(all) ==> SortedByOrder(Properties(types, interp, name)) &&
                               multiset(Properties(types, interp, name)) == multiset(all)) &&
      (!AllTruthyOrder(all) ==> Properties(types, interp, name) == all)
  {
  }

  /** `getStorableProperties`: without `collection` and `calculated` ones. */
  function StorableProperties(types: seq<TypeDecl>, interp: string -> string, name: string): seq<Property>
    requires Acyclic(types)
  {
    Storable(Properties(types, interp, name))
  }

  predicate IsStorable(p: Property)
  {
    p.kind != CollectionKind && p.kind != CalculatedKind
  }

  function Storable(ps: seq<Property>): (r: seq<Property>)
    ensures forall p | p in r :: p in ps && IsStorable(p)
    ensures forall p | p in ps && IsStorable(p) :: p in r
  {
    if ps == [] then []
    else if IsStorable(ps[0]) then [ps[0]] + Storable(ps[1..])
    else Storable(ps[1..])
  }

  /** The storable list keeps the relative order of getProperties: it is
      `ps` with some entries removed. */
  lemma {:induction false} StorableIsSubsequence(ps: seq<Property>)
    ensures IsSubsequence(Storable(ps), ps)
  {
    if ps != [] {
      StorableIsSubsequence(ps[1..]);
    }
  }

  /** `a` is `b` with some elements left out, the rest in order. */
  predicate IsSubsequence(a: seq<Property>, b: seq<Property>)
    decreases |b|
  {
    if a == [] then true
    else if b == [] then false
    else if a[0] == b[0] then IsSubsequence(a[1..], b[1..])
    else IsSubsequence(a, b[1..])
  }

  /** `_.find(properties, {name: name})`. */
  function FindByName(ps: seq<Property>, name: string): (r: Option<Property>)
    ensures r.Some? ==> r.value in ps && r.value.name == name
    ensures r.None? ==> forall p | p in ps :: p.name != name
  {
    if ps == [] then None
    else if ps[0].name == name then Some(ps[0])
    else FindByName(ps[1..], name)
  }

  /** `getProperty(typeName, name)`. */
  function GetProperty(types: seq<TypeDecl>, interp: string -> string, typeName: string, name: string): Option<Property>
    requires Acyclic(types)
  {
    FindByName(Properties(types, interp, typeName), name)
  }

  /** `isReference(typeName, propertyName)`: some property of the type, own
      or inherited, has that name and `type == "reference"`. */
  predicate IsReference(types: seq<TypeDecl>, interp: string -> string, typeName: string, propertyName: string)
    requires Acyclic(types)
  {
    exists p | p in Properties(types, interp, typeName) :: p.name == propertyName && p.kind == ReferenceKind
  }

  /** The records at the given indices, in that order. */
  function Records(types: seq<TypeDecl>, idx: seq<nat>): (r: seq<TypeDecl>)
    requires forall k | 0 <= k < |idx| :: idx[k] < |types|
    ensures |r| == |idx| && forall k | 0 <= k < |idx| :: r[k] == types[idx[k]]
  {
    seq(|idx|, k requires 0 <= k < |idx| => types[idx[k]])
  }

  /** The tree a type declares itself. */
  function OwnTree(t: TypeDecl): Option<Tree>
  {
    if t.options.Some? then t.options.value.tree else None
  }

  /** The tree the loop of getType over the bases (furthest first) ends with:
      that of the last base that has one, i.e. the nearest. */
  function InheritedTree(bases: seq<TypeDecl>): Option<Tree>
  {
    if bases == [] then None
    else if OwnTree(bases[|bases| - 1]).Some? then OwnTree(bases[|bases| - 1])
    else InheritedTree(bases[..|bases| - 1])
  }

  /** One more base: its own tree, if it has one, replaces what came before. */
  lemma InheritedTreeSnoc(bases: seq<TypeDecl>, k: nat)
    requires k < |bases|
    ensures InheritedTree(bases[..k + 1]) ==
      if OwnTree(bases[k]).Some? then OwnTree(bases[k]) else InheritedTree(bases[..k])
  {
    var prefix := bases[..k + 1];
    assert prefix[..k] == bases[..k] && prefix[k] == bases[k];
  }

  /** Only the options of the bases matter to the inherited tree. */
  lemma {:induction false} InheritedTreeOptionsOnly(a: seq<TypeDecl>, b: seq<TypeDecl>)
    requires |a| == |b| && forall k | 0 <= k < |a| :: a[k].options == b[k].options
    ensures InheritedTree(a) == InheritedTree(b)
  {
    if a != [] {
      InheritedTreeOptionsOnly(a[..|a| - 1], b[..|b| - 1]);
    }
  }

  /** The `tree` option of the type getType returns, with the type's own tree
      taking precedence over the nearest ancestor's one (see Findings). */
  function EffectiveTree(types: seq<TypeDecl>, i: nat): (r: Option<Tree>)
    requires Acyclic(types) && i < |types|
    ensures OwnTree(types[i]).Some? ==> r == OwnTree(types[i])
    ensures OwnTree(types[i]).None? && r.Some? ==>
      exists k | 0 <= k < |Chain(types, i)| :: OwnTree(types[Chain(types, i)[k]]) == r
  {
    if OwnTree(types[i]).Some? then OwnTree(types[i])
    else
      var chain := Chain(types, i);
      var r := InheritedTree(Records(types, Reverse(chain)));
      if r.Some? then InheritedFromChain(types, chain, r); r else r
  }

  /** A tree inherited along a chain is the own tree of a type on it. */
  lemma InheritedFromChain(types: seq<TypeDecl>, chain: seq<nat>, r: Option<Tree>)
    requires forall k | 0 <= k < |chain| :: chain[k] < |types|
    requires r == InheritedTree(Records(types, Reverse(chain))) && r.Some?
    ensures exists k | 0 <= k < |chain| :: OwnTree(types[chain[k]]) == r
  {
    var k := InheritedIndex(types, Reverse(chain), r);
    var w := |chain| - 1 - k;
    assert Reverse(chain)[k] == chain[w];
    assert OwnTree(types[chain[w]]) == r;
  }

  /** The position, among the indices, of the type an inherited tree comes
      from. */
  lemma InheritedIndex(types: seq<TypeDecl>, idx: seq<nat>, r: Option<Tree>) returns (k: nat)
    requires forall m | 0 <= m < |idx| :: idx[m] < |types|
    requires r == InheritedTree(Records(types, idx)) && r.Some?
    ensures k < |idx| && OwnTree(types[idx[k]]) == r
  {
    k := InheritedWitness(Records(types, idx));
  }

  /** The base an inherited tree comes from. */
  lemma {:induction false} InheritedWitness(bases: seq<TypeDecl>) returns (k: nat)
    requires InheritedTree(bases).Some?
    ensures k < |bases| && OwnTree(bases[k]) == InheritedTree(bases)
    ensures forall j | k < j < |bases| :: OwnTree(bases[j]).None?
    decreases |bases|
  {
    var last := |bases| - 1;
    if OwnTree(bases[last]).Some? {
      k := last;
    } else {
      var front := bases[..last];
      k := InheritedWitness(front);
      assert bases[k] == front[k];
      forall j | k < j < |bases| ensures OwnTree(bases[j]).None? {
        if j < last {
          assert bases[j] == front[j];
        }
      }
    }
  }

  /** No base has a tree exactly when nothing is inherited. */
  lemma {:induction false} InheritedNone(bases: seq<TypeDecl>)
    ensures InheritedTree(bases).None? <==> forall k | 0 <= k < |bases| :: OwnTree(bases[k]).None?
    decreases |bases|
  {
    if bases != [] {
      var last := |bases| - 1;
      var front := bases[..last];
      InheritedNone(front);
      assert forall k | 0 <= k < last :: bases[k] == front[k];
    }
  }

  /** `isTreeReference(typeName, propertyName)`: a reference property named
      by `options.tree.parent` of the type's tree, its own or inherited. */
  predicate IsTreeReference(types: seq<TypeDecl>, interp: string -> string, typeName: string, propertyName: string)
    requires Acyclic(types)
  {
    IsReference(types, interp, typeName, propertyName) &&
    FindType(types, typeName).Some? &&
    EffectiveTree(types, FindType(types, typeName).value).Some? &&
    EffectiveTree(types, FindType(types, typeName).value).value.parent == propertyName
  }

  // ---------------------------------------------------------------------------
  // Strict-mode key check
  // ---------------------------------------------------------------------------

  /** The names checkProperties and getUnknownProperties accept. */
  function AcceptedNames(types: seq<TypeDecl>, interp: string -> string, typeName: string, includeTypeName: bool, includeId: bool): (r: set<string>)
    requires Acyclic(types)
  {
    Names(Properties(types, interp, typeName)) +
    (if includeTypeName then {"_type"} else {}) +
    (if includeId then {"_id"} else {}) +
    {"test"}
  }

  /** `checkProperties(typeName, data, includeTypeName, includeId)` on the
      keys of `data`. */
  predicate CheckProperties(types: seq<TypeDecl>, interp: string -> string, opts: AppOptions, typeName: string, keys: seq<string>,
                            includeTypeName: bool, includeId: bool)
    requires Acyclic(types)
  {
    !opts.strict ||
    forall k | 0 <= k < |keys| :: keys[k] in AcceptedNames(types, interp, typeName, includeTypeName, includeId)
  }

  function Unaccepted(keys: seq<string>, accepted: set<string>): (r: seq<string>)
    ensures forall x | x in r :: x in keys && x !in accepted
    ensures forall x | x in keys && x !in accepted :: x in r
  {
    if keys == [] then []
    else if keys[0] in accepted then Unaccepted(keys[1..], accepted)
    else [keys[0]] + Unaccepted(keys[1..], accepted)
  }

  /** `getUnknownProperties(...)`: the keys not accepted, in key order, or
      `null` (None) when there are none. */
  function UnknownProperties(types: seq<TypeDecl>, interp: string -> string, typeName: string, keys: seq<string>,
                             includeTypeName: bool, includeId: bool): (r: Option<seq<string>>)
    requires Acyclic(types)
    ensures r.Some? ==> r.value != []
  {
    var u := Unaccepted(keys, AcceptedNames(types, interp, typeName, includeTypeName, includeId));
    if u == [] then None else Some(u)
  }

  /** In strict mode the check passes exactly when there is nothing unknown. */
  lemma CheckMatchesUnknown(types: seq<TypeDecl>, interp: string -> string, opts: AppOptions, typeName: string, keys: seq<string>,
                            includeTypeName: bool, includeId: bool)
    requires Acyclic(types)
    ensures !opts.strict ==> CheckProperties(types, interp, opts, typeName, keys, includeTypeName, includeId)
    ensures opts.strict ==>
      (CheckProperties(types, interp, opts, typeName, keys, includeTypeName, includeId) <==>
       UnknownProperties(types, interp, typeName, keys, includeTypeName, includeId).None?)
    ensures forall x :: (UnknownProperties(types, interp, typeName, keys, includeTypeName, includeId).Some? &&
                         x in UnknownProperties(types, interp, typeName, keys, includeTypeName, includeId).value) <==>
      (x in keys && x !in AcceptedNames(types, interp, typeName, includeTypeName, includeId))
  {
    var acc := AcceptedNames(types, interp, typeName, includeTypeName, includeId);
    UnacceptedEmpty(keys, acc);
  }

  lemma UnacceptedEmpty(keys: seq<string>, acc: set<string>)
    ensures (forall k | 0 <= k < |keys| :: keys[k] in acc) <==> Unaccepted(keys, acc) == []
  {
    var u := Unaccepted(keys, acc);
    if u != [] {
      assert u[0] in keys && u[0] !in acc;
    }
  }

  // ---------------------------------------------------------------------------
  // Child types and the root type
  // ---------------------------------------------------------------------------

  /** `_.filter(types, {base: name})`, as indices. */
  function ChildIndices(types: seq<TypeDecl>, name: string, from: nat): (r: seq<nat>)
    requires from <= |types|
    ensures forall k | 0 <= k < |r| :: from <= r[k] < |types| && types[r[k]].base == BaseName(name)
    ensures forall j | from <= j < |types| && types[j].base == BaseName(name) :: j in r
    decreases |types| - from
  {
    if from == |types| then []
    else if types[from].base == BaseName(name) then [from] + ChildIndices(types, name, from + 1)
    else ChildIndices(types, name, from + 1)
  }

  /** What getChildTypes(name) appends, as indices and in order: each child
      followed by its own descendants; `[]` for an unknown name (getType then
      returns `{}`, whose name matches no `base`). Recursion deeper than `fuel`
      levels yields None. */
  function Descendants(types: seq<TypeDecl>, name: string, fuel: nat): (r: Option<seq<nat>>)
    ensures r.Some? ==> forall k | 0 <= k < |r.value| :: r.value[k] < |types|
    decreases fuel, 0
  {
    if fuel == 0 then None
    else if FindType(types, name).None? then Some([])
    else DescendAll(types, ChildIndices(types, name, 0), fuel - 1)
  }

  /** The children in order, each followed by its descendants. */
  function DescendAll(types: seq<TypeDecl>, children: seq<nat>, fuel: nat): (r: Option<seq<nat>>)
    requires forall k | 0 <= k < |children| :: children[k] < |types|
    ensures r.Some? ==> forall k | 0 <= k < |r.value| :: r.value[k] < |types|
    decreases fuel, 1, |children|
  {
    if children == [] then Some([])
    else
      var last := children[|children| - 1];
      match DescendAll(types, children[..|children| - 1], fuel)
      case None => None
      case Some(init) =>
        match Descendants(types, types[last].name, fuel)
        case None => None
        case Some(sub) => Some(init + [last] + sub)
  }

  /** getChildTypes(name), with fuel for one level per type and one more. */
  function ChildTypes(types: seq<TypeDecl>, name: string): (r: Option<seq<nat>>)
    ensures r.Some? ==> forall k | 0 <= k < |r.value| :: r.value[k] < |types|
  {
    Descendants(types, name, |types| + 1)
  }

  /** `d` descends from `name` through at most `depth` `base` links. */
  predicate ReachableFrom(types: seq<TypeDecl>, name: string, d: nat, depth: nat)
    requires d < |types|
    decreases depth
  {
    depth > 0 &&
    (types[d].base == BaseName(name) ||
     exists c | 0 <= c < |types| && types[c].base == BaseName(name) :: ReachableFrom(types, types[c].name, d, depth - 1))
  }

  /** Everything getChildTypes returns descends from `name`. */
  lemma {:induction false} DescendantsAreReachable(types: seq<TypeDecl>, name: string, fuel: nat, d: nat)
    requires Descendants(types, name, fuel).Some? && d in Descendants(types, name, fuel).value
    ensures d < |types| && ReachableFrom(types, name, d, fuel)
    decreases fuel, 0
  {
    DescendAllAreReachable(types, name, ChildIndices(types, name, 0), fuel - 1, d);
  }

  lemma {:induction false} DescendAllAreReachable(types: seq<TypeDecl>, name: string, children: seq<nat>, fuel: nat, d: nat)
    requires forall k | 0 <= k < |children| :: children[k] < |types| && types[children[k]].base == BaseName(name)
    requires DescendAll(types, children, fuel).Some? && d in DescendAll(types, children, fuel).value
    ensures d < |types| && ReachableFrom(types, name, d, fuel + 1)
    decreases fuel, 1, |children|
  {
    var c := children[|children| - 1];
    var init := DescendAll(types, children[..|children| - 1], fuel).value;
    var sub := Descendants(types, types[c].name, fuel).value;
    assert DescendAll(types, children, fuel).value == init + [c] + sub;
    if d == c {
    } else if d in sub {
      DescendantsAreReachable(types, types[c].name, fuel, d);
    } else {
      assert d in init;
      DescendAllAreReachable(types, name, children[..|children| - 1], fuel, d);
    }
  }

  /** Every child of a known type `name` is in the result. */
  lemma ChildrenIncluded(types: seq<TypeDecl>, name: string, fuel: nat, c: nat)
    requires Descendants(types, name, fuel).Some? && FindType(types, name).Some?
    requires c < |types| && types[c].base == BaseName(name)
    ensures c in Descendants(types, name, fuel).value
  {
    var cs := ChildIndices(types, name, 0);
    assert c in cs;
    DescendAllContains(types, cs, fuel - 1, c);
  }

  lemma {:induction false} DescendAllContains(types: seq<TypeDecl>, children: seq<nat>, fuel: nat, c: nat)
    requires forall k | 0 <= k < |children| :: children[k] < |types|
    requires DescendAll(types, children, fuel).Some? && c in children
    ensures c in DescendAll(types, children, fuel).value
    decreases |children|
  {
    if children[|children| - 1] != c {
      assert c in children[..|children| - 1];
      DescendAllContains(types, children[..|children| - 1], fuel, c);
    }
  }

  /** Each child comes before its own descendants: a child `c` is immediately
      followed by what getChildTypes(c's name) returns. */
  lemma ChildBeforeDescendants(types: seq<TypeDecl>, children: seq<nat>, fuel: nat)
    requires forall k | 0 <= k < |children| :: children[k] < |types|
    requires DescendAll(types, children, fuel).Some? && children != []
    ensures var c := children[|children| - 1];
      Descendants(types, types[c].name, fuel).Some? &&
      DescendAll(types, children, fuel).value ==
        DescendAll(types, children[..|children| - 1], fuel).value + [c] + Descendants(types, types[c].name, fuel).value
  {
  }

  /** `getRootType(name)`: with an application default type, the base at index
      1 (plus the number of descendants of the default type when it is not the
      root type) provided there are at least two bases; otherwise the furthest
      base. */
  function RootType(types: seq<TypeDecl>, opts: AppOptions, name: string): (r: Option<nat>)
    requires Acyclic(types)
    requires opts.defaultType.Some? && opts.defaultType.value != "" ==> ChildTypes(types, opts.defaultType.value).Some?
    ensures r.Some? ==> r.value < |types| && r.value in BaseIndices(types, name)
    ensures opts.defaultType.None? || opts.defaultType.value == "" ==>
      (r.Some? <==> BaseIndices(types, name) != []) &&
      (r.Some? ==> r.value == BaseIndices(types, name)[0])
  {
    var bases := BaseIndices(types, name);
    if opts.defaultType.Some? && opts.defaultType.value != "" then
      var firstBaseIndex :=
        1 + (if opts.defaultType.value != opts.rootName then |ChildTypes(types, opts.defaultType.value).value| else 0);
      if |bases| == 0 then None
      else if IsAppType(types, opts.defaultType.value) then
        if |bases| > 1 && firstBaseIndex < |bases| then Some(bases[firstBaseIndex]) else None
      else Some(bases[0])
    else if |bases| == 0 then None
    else Some(bases[0])
  }

  // ---------------------------------------------------------------------------
  // Dotted paths
  // ---------------------------------------------------------------------------

  /** `_.get(prop, 'options.type') || _.get(prop, 'type')`. */
  function PathStepType(p: Property): (r: string)
    ensures r != ""
  {
    if p.options.Some? && p.options.value.typeName.Some? && p.options.value.typeName.value != ""
    then p.options.value.typeName.value
    else KindName(p.kind)
  }

  /** The multi-segment walk of getPathTypeName from the given properties:
      the type of the last segment found, stopping at the first missing
      segment or at a type that is not an application type. */
  function PathWalk(types: seq<TypeDecl>, interp: string -> string, props: seq<Property>, segments: seq<string>, found: Option<string>): Option<string>
    requires Acyclic(types)
    decreases |segments|
  {
    if segments == [] then found
    else
      match FindByName(props, segments[0])
      case None => found
      case Some(p) =>
        var t := PathStepType(p);
        if IsAppType(types, t) then PathWalk(types, interp, Properties(types, interp, t), segments[1..], Some(t))
        else Some(t)
  }

  /** `getPathTypeName(typeName, path)`: for a one-segment path the `type` of
      that property, otherwise the walk above; None is `undefined`. */
  function PathTypeName(types: seq<TypeDecl>, interp: string -> string, typeName: string, path: string): Option<string>
    requires Acyclic(types)
  {
    var segments := Split(path, '.');
    var props := Properties(types, interp, typeName);
    if |segments| == 1 then
      match FindByName(props, segments[0])
      case None => None
      case Some(p) => Some(KindName(p.kind))
    else PathWalk(types, interp, props, segments, None)
  }

  /** The walk yields a type as soon as its first segment names a property:
      only a missing first segment leaves the result undefined. */
  lemma {:induction false} PathWalkDefined(types: seq<TypeDecl>, interp: string -> string, props: seq<Property>,
                                          segments: seq<string>, found: Option<string>)
    requires Acyclic(types)
    ensures PathWalk(types, interp, props, segments, found).None? <==>
      found.None? && (segments == [] || FindByName(props, segments[0]).None?)
    decreases |segments|
  {
    if segments != [] && FindByName(props, segments[0]).Some? {
      var t := PathStepType(FindByName(props, segments[0]).value);
      if IsAppType(types, t) {
        PathWalkDefined(types, interp, Properties(types, interp, t), segments[1..], Some(t));
      }
    }
  }

  /** A multi-segment path has a type exactly when its first segment is a
      property of the type. */
  lemma PathTypeNameDefined(types: seq<TypeDecl>, interp: string -> string, typeName: string, path: string)
    requires Acyclic(types) && |Split(path, '.')| > 1
    ensures PathTypeName(types, interp, typeName, path).Some? <==>
      FindByName(Properties(types, interp, typeName), Split(path, '.')[0]).Some?
  {
    PathWalkDefined(types, interp, Properties(types, interp, typeName), Split(path, '.'), None);
  }
}
