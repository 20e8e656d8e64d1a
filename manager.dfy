// The stateful half of src/builder/app.manager.js: the class that owns the
// list of type records, normalises it on construction, stamps `_level` while
// walking base chains, numbers properties inside getType and collects child
// types into an accumulator. The read-only queries it answers are the
// functions of module Domain over its `types`.
module Manager {
  import opened Wrappers
  import opened Json
  import opened Utils
  import opened Strings
  import opened Domain
  import opened Seqs

  datatype ResolveError = CyclicBase(typeName: string)

  // ---------------------------------------------------------------------------
  // Constructor defaults
  // ---------------------------------------------------------------------------

  /** Types are public unless `options.authorization.use` lists both `user`
      and `role`. */
  predicate PublicByDefault(opts: AppOptions)
  {
    opts.authorizationUse.None? || "user" !in opts.authorizationUse.value || "role" !in opts.authorizationUse.value
  }

  /** Names of the types whose `base` is the root type's name. */
  function RootChildNames(types: seq<TypeDecl>, opts: AppOptions): (r: set<string>)
    ensures forall n :: n in r <==> exists k | 0 <= k < |types| :: types[k].base == BaseName(opts.rootName) && types[k].name == n
  {
    set k | 0 <= k < |types| && types[k].base == BaseName(opts.rootName) :: types[k].name
  }

  /** The condition under which the constructor gives a baseless type the base
      `_root`, with the root children taken from the application's types as
      declared and the default type from the application's options (see
      Findings). */
  predicate UnderRoot(types: seq<TypeDecl>, opts: AppOptions, t: TypeDecl)
  {
    opts.defaultType.Some? && opts.defaultType.value != "" &&
    t.base.NoBase? &&
    (opts.defaultType.value == opts.rootName || opts.defaultType.value in RootChildNames(types, opts)) &&
    t.name != opts.rootName &&
    t.name !in RootChildNames(types, opts) &&
    IsAppType(types, opts.rootName)
  }

  /** The same condition as written: the root children are read from an
      undefined field (so there are none) and, when the default type is not the
      root type, the default type is read from an undefined field, which
      throws. */
  function UnderRootAsWritten(types: seq<TypeDecl>, opts: AppOptions, t: TypeDecl): (r: Result<bool, string>)
    ensures r.Err? <==>
      opts.defaultType.Some? && opts.defaultType.value != "" && t.base.NoBase? && opts.defaultType.value != opts.rootName
  {
    if !(opts.defaultType.Some? && opts.defaultType.value != "" && t.base.NoBase?) then Ok(false)
    else if opts.defaultType.value != opts.rootName then Err("TypeError: Cannot read properties of undefined (reading 'default')")
    else Ok(t.name != opts.rootName && IsAppType(types, opts.rootName))
  }

  /** An application whose default type is a child of the root type cannot be
      loaded as written, while the intended rule attaches the other baseless
      types to `_root`. */
  lemma UnderRootCounterexample()
    ensures var opts := AppOptions(Some("item"), "_root", false, None);
      var root := TypeDecl("_root", NoBase, None, None, [], false, None, map[], None, None);
      var item := TypeDecl("item", BaseName("_root"), None, None, [], false, None, map[], None, None);
      var note := TypeDecl("note", NoBase, None, None, [], false, None, map[], None, None);
      var types := [root, item, note];
      UnderRootAsWritten(types, opts, note).Err? && UnderRoot(types, opts, note)
  {
    var opts := AppOptions(Some("item"), "_root", false, None);
    var root := TypeDecl("_root", NoBase, None, None, [], false, None, map[], None, None);
    var item := TypeDecl("item", BaseName("_root"), None, None, [], false, None, map[], None, None);
    var note := TypeDecl("note", NoBase, None, None, [], false, None, map[], None, None);
    var types := [root, item, note];
    assert types[1].base == BaseName("_root") && types[1].name == "item";
    assert "item" in RootChildNames(types, opts);
    assert "note" !in RootChildNames(types, opts) by {
      forall k | 0 <= k < |types| && types[k].base == BaseName(opts.rootName) ensures types[k].name != "note" {
        assert k == 1;
      }
    }
    assert FindType(types, "_root") == Some(0);
  }

  /** Wherever the rule as written does not throw, the intended rule agrees
      with it on every type that is not already a child of the root: the two
      differ only in the root children the source never finds and in the
      default types the source cannot read. */
  lemma UnderRootAgrees(types: seq<TypeDecl>, opts: AppOptions, t: TypeDecl)
    ensures UnderRootAsWritten(types, opts, t).Ok? && t.name !in RootChildNames(types, opts) ==>
      UnderRootAsWritten(types, opts, t).value == UnderRoot(types, opts, t)
    ensures UnderRoot(types, opts, t) ==>
      t.base.NoBase? && t.name != opts.rootName && IsAppType(types, opts.rootName) &&
      (UnderRootAsWritten(types, opts, t).Ok? <==> opts.defaultType.value == opts.rootName)
  {
  }

  /** The properties of a type, each with `_owner` set to the type's name. */
  function Owned(ps: seq<Property>, owner: string): seq<Property>
  {
    seq(|ps|, k requires 0 <= k < |ps| => ps[k].(owner := Some(owner)))
  }

  /** `setOwnerForProperties(type)`: every declared property records the
      declaring type's name, and nothing else changes. */
  method SetOwnerForProperties(t: TypeDecl) returns (r: TypeDecl)
    ensures r == t.(properties := r.properties)
    ensures |r.properties| == |t.properties|
    ensures forall k | 0 <= k < |t.properties| :: r.properties[k] == t.properties[k].(owner := Some(t.name))
  {
    var ps := t.properties;
    var k := 0;
    while k < |ps|
      invariant 0 <= k <= |ps| && |ps| == |t.properties|
      invariant forall m | 0 <= m < k :: ps[m] == t.properties[m].(owner := Some(t.name))
      invariant forall m | k <= m < |ps| :: ps[m] == t.properties[m]
    {
      ps := ps[k := ps[k].(owner := Some(t.name))];
      k := k + 1;
    }
    r := t.(properties := ps);
  }

  /** What the constructor guarantees about each type declared as `d` in the
      application `declared`, apart from `_level`: `inherit` defaults to true
      and, when set, drops the base; `abstract` defaults to false; a baseless
      type is moved under `_root` exactly when the `_root` rule holds and is
      left baseless otherwise; `public` is set when authorization does not
      use both users and roles; every property records its owner. */
  predicate Normalised(d: TypeDecl, t: TypeDecl, opts: AppOptions, declared: seq<TypeDecl>)
  {
    t.name == d.name && t.options == d.options && t.plural == d.plural &&
    t.inherit == (if d.inherit.Some? then d.inherit else Some(true)) &&
    t.isAbstract == (if d.isAbstract.Some? then d.isAbstract else Some(false)) &&
    (d.inherit == Some(true) ==> t.base == NullBase) &&
    (d.inherit != Some(true) && !d.base.NoBase? ==> t.base == d.base) &&
    (d.inherit != Some(true) && d.base.NoBase? ==>
       t.base == if UnderRoot(declared, opts, d) then BaseName("_root") else NoBase) &&
    t.isPublic == (if PublicByDefault(opts) then Some(true) else d.isPublic) &&
    t.properties == Owned(d.properties, d.name)
  }

  /** Stamping a level does not affect what the constructor guarantees. */
  lemma NormalisedIgnoresLevel(d: TypeDecl, t: TypeDecl, t': TypeDecl, opts: AppOptions, declared: seq<TypeDecl>)
    requires Normalised(d, t, opts, declared) && t' == t.(level := t'.level)
    ensures Normalised(d, t', opts, declared)
  {
  }

  /** A base that is set: a non-empty type name. */
  predicate HasBase(b: BaseRef)
  {
    b.BaseName? && b.name != ""
  }

  /** getType's interpolation of a templated `base` on its copy. */
  function InterpolateBase(b: BaseRef, interp: string -> string): (r: BaseRef)
    ensures !(b.BaseName? && IsTemplate(b.name)) ==> r == b
  {
    if b.BaseName? && IsTemplate(b.name) then BaseName(interp(b.name)) else b
  }

  /** The options of the returned type with the given tree; options are created
      when the type has none. */
  function WithTree(o: Option<TypeOptions>, tree: Option<Tree>): (r: Option<TypeOptions>)
    ensures tree.Some? ==> r.Some? && r.value.tree == tree
    ensures tree.None? ==> r == o
  {
    if tree.None? then o
    else if o.None? then Some(TypeOptions(tree, Undefined, NoCollection))
    else Some(o.value.(tree := tree))
  }

  /** The shared record `t` once getType has built `view` from it: the
      numbered properties, and the view's options when `t` has options of
      its own (a record without options keeps none). */
  function SharedAfterView(t: TypeDecl, view: TypeDecl): (r: TypeDecl)
    ensures r.name == t.name && r.base == t.base && r.level == t.level
    ensures r.properties == view.properties
    ensures t.options.Some? ==> r.options == view.options
    ensures t.options.None? ==> r.options.None?
  {
    t.(properties := view.properties, options := if t.options.Some? then view.options else t.options)
  }

  /** The record getType returns for type `i`: its base interpolated, its own
      properties numbered and its effective tree. */
  function TypeView(types: seq<TypeDecl>, interp: string -> string, i: nat): TypeDecl
    requires Acyclic(types) && i < |types|
  {
    types[i].(base := InterpolateBase(types[i].base, interp),
              properties := OwnProperties(types[i], interp),
              options := if OwnTree(types[i]).Some? then types[i].options else WithTree(types[i].options, EffectiveTree(types, i)))
  }

  // ---------------------------------------------------------------------------
  // The manager
  // ---------------------------------------------------------------------------

  class AppManager {
    /** `this.app.types`. */
    var types: seq<TypeDecl>
    /** The application options the manager reads. */
    const options: AppOptions
    /** `utils.interpolate` with the default scope. */
    const interpolate: string -> string

    constructor (decls: seq<TypeDecl>, opts: AppOptions, interp: string -> string)
      ensures options == opts && interpolate == interp
      ensures |types| == |decls|
      ensures forall i | 0 <= i < |decls| :: Normalised(decls[i], types[i], opts, decls)
    {
      types := decls;
      options := opts;
      interpolate := interp;
      new;
      var i := 0;
      while i < |decls|
        invariant 0 <= i <= |decls| && |types| == |decls| && options == opts
        invariant SameNames(decls, types)
        invariant forall j | 0 <= j < i :: Normalised(decls[j], types[j], opts, decls)
        invariant forall j | i <= j < |decls| :: types[j] == decls[j].(level := types[j].level)
      {
        FindTypeSameNames(decls, types, opts.rootName);
        ghost var before := types;
        NormaliseAt(i, decls[i], decls);
        forall j | 0 <= j < i
          ensures Normalised(decls[j], types[j], opts, decls)
        {
          NormalisedIgnoresLevel(decls[j], before[j], types[j], opts, decls);
        }
        i := i + 1;
      }
    }

    /** One iteration of the constructor loop, on `types[i]`: defaults, the
        `_root` rule, `_level` (0 without a base, otherwise one less than the
        furthest ancestor's stamp), `public` and the owners. The base walk may
        stamp the levels of other types; nothing else of them changes. */
    method NormaliseAt(i: nat, ghost d: TypeDecl, declared: seq<TypeDecl>)
      requires i < |types| && types[i] == d.(level := types[i].level)
      modifies this
      ensures |types| == |old(types)| && SameNames(old(types), types)
      ensures Normalised(d, types[i], options, declared)
      ensures forall j | 0 <= j < |types| && j != i :: types[j] == old(types)[j].(level := types[j].level)
    {
      var t := Defaults(types[i], declared);
      types := types[i := t];
      SetLevel(i);
      var u := types[i];
      assert u == t.(level := u.level);
      if PublicByDefault(options) {
        u := u.(isPublic := Some(true));
      }
      u := SetOwnerForProperties(u);
      assert u.properties == Owned(d.properties, d.name);
      types := types[i := u];
    }

    /** The first steps of the constructor loop on one record: `inherit:
        true` drops the base, `inherit` and `isAbstract` get their defaults,
        and a baseless type is put under `_root` when the default type is the
        root or one of its children as declared. Owners, `public` and the level are left
        to the later steps. */
    method Defaults(d: TypeDecl, declared: seq<TypeDecl>) returns (t: TypeDecl)
      ensures t.properties == d.properties && t.isPublic == d.isPublic && t.level == d.level
      ensures Normalised(d, t.(isPublic := if PublicByDefault(options) then Some(true) else d.isPublic,
                                properties := Owned(d.properties, d.name)),
                         options, declared)
    {
      t := d;
      if t.inherit == Some(true) {
        t := t.(base := NullBase);
      }
      if t.inherit.None? {
        t := t.(inherit := Some(true));
      }
      if t.isAbstract.None? {
        t := t.(isAbstract := Some(false));
      }
      if UnderRoot(declared, options, t) {
        t := t.(base := BaseName("_root"));
      }
    }

    /** The `_level` of `types[i]`: 0 without a base, otherwise one less than
        the stamp of the furthest ancestor, i.e. the number of ancestors less
        one; left as it is when the base is not found or loops. */
    method SetLevel(i: nat)
      requires i < |types|
      modifies this
      ensures |types| == |old(types)| && SameNames(old(types), types)
      ensures forall j | 0 <= j < |types| :: types[j] == old(types)[j].(level := types[j].level)
      ensures !HasBase(old(types)[i].base) ==> types[i].level == Some(0)
      ensures HasBase(old(types)[i].base) && Acyclic(old(types)) && FindType(old(types), old(types)[i].name) == Some(i) &&
              ChainOf(old(types), old(types)[i].name) != [] ==>
        types[i].level == Some(|ChainOf(old(types), old(types)[i].name)| - 1)
    {
      if !HasBase(types[i].base) {
        types := types[i := types[i].(level := Some(0))];
      } else {
        ghost var t0 := types;
        var bases := GetBaseTypes(types[i].name);
        if bases.Ok? && |bases.value| > 0 {
          types := types[i := types[i].(level := Some(bases.value[0].level.value - 1))];
        }
        if Acyclic(t0) && FindType(t0, t0[i].name) == Some(i) && ChainOf(t0, t0[i].name) != [] {
          assert |bases.value| == |ChainOf(t0, t0[i].name)|;
        }
      }
    }

    /** `getBaseTypes(name)`: the ancestors of the type, furthest first, each
        stamped with its distance (the direct base 1, its base 2, ...); `[]`
        for an unknown or baseless type. Only levels change. A base chain that
        loops is reported instead of walked forever. */
    method GetBaseTypes(name: string) returns (r: Result<seq<TypeDecl>, ResolveError>)
      modifies this
      ensures |types| == |old(types)|
      ensures forall j | 0 <= j < |types| :: types[j] == old(types)[j].(level := types[j].level)
      ensures r.Ok? ==> forall k | 0 <= k < |r.value| :: r.value[k].level.Some?
      ensures r.Err? ==> !Acyclic(old(types))
      ensures Acyclic(old(types)) ==>
        r.Ok? &&
        types == StampLevels(old(types), ChainOf(old(types), name), 1) &&
        r.value == Records(types, BaseIndices(old(types), name))
      ensures Acyclic(old(types)) ==>
        forall k | 0 <= k < |r.value| :: r.value[k].level == Some(|r.value| - k)
    {
      var t0 := types;
      var found := FindType(t0, name);
      if found.None? {
        assert Records(types, Reverse([])) == [];
        return Ok([]);
      }
      var i := found.value;
      var chain := StampChain(i);
      if chain.None? {
        return Err(CyclicBase(name));
      }
      StampLevelsStamped(t0, chain.value, 1);
      r := Ok(Records(types, Reverse(chain.value)));
      if Acyclic(t0) {
        assert ChainOf(t0, name) == chain.value;
        ChainLevels(t0, i, r.value);
      }
    }

    /** The loop of getBaseTypes from type `i`: follows `base` links, stamping
        the k-th ancestor (from 0, nearest first) with level k + 1, and yields
        the chain; None when it has not ended after as many hops as there are
        types. */
    method StampChain(i: nat) returns (r: Option<seq<nat>>)
      requires i < |types|
      modifies this
      ensures r == Ancestors(old(types), i, |old(types)|)
      ensures |types| == |old(types)|
      ensures forall j | 0 <= j < |types| :: types[j] == old(types)[j].(level := types[j].level)
      ensures r.Some? ==> types == StampLevels(old(types), r.value, 1)
    {
      var t0 := types;
      WalkStart(t0, i, |t0|);
      var ts;
      ts, r := WalkFrom(t0, Parent(t0, i));
      types := ts;
    }

    /** The loop of getBaseTypes from the base `start`: at most as many hops as
        there are types. */
    static method WalkFrom(t0: seq<TypeDecl>, start: Option<nat>) returns (ts: seq<TypeDecl>, r: Option<seq<nat>>)
      requires start.Some? ==> start.value < |t0|
      ensures r == Walk(t0, start, |t0|)
      ensures |ts| == |t0|
      ensures forall j | 0 <= j < |ts| :: ts[j] == t0[j].(level := ts[j].level)
      ensures r.Some? ==> ts == StampLevels(t0, r.value, 1)
    {
      ts := t0;
      var cur := start;
      var chain: seq<nat> := [];
      ghost var full := Walk(t0, start, |t0|);
      ghost var fuel := |t0|;
      assert full.Some? ==> [] + full.value == full.value;
      while cur.Some?
        invariant |chain| <= |t0| && fuel == |t0| - |chain|
        invariant forall k | 0 <= k < |chain| :: chain[k] < |t0|
        invariant cur.Some? ==> cur.value < |t0|
        invariant ts == StampLevels(t0, chain, 1)
        invariant full == Prefixed(chain, Walk(t0, cur, fuel))
        decreases fuel
      {
        if |chain| == |t0| {
          assert Walk(t0, cur, 0) == None;
          return ts, None;
        }
        ts, chain, cur := Hop(t0, ts, chain, cur.value, fuel, full);
        fuel := fuel - 1;
      }
      assert chain + [] == chain;
      r := Some(chain);
    }

    /** One pass of getBaseTypes's loop: base `b` gets the next level and
        joins the chain, and the walk moves on to its own base. */
    static method Hop(t0: seq<TypeDecl>, ts: seq<TypeDecl>, chain: seq<nat>, b: nat, ghost fuel: nat,
                      ghost full: Option<seq<nat>>)
      returns (ts': seq<TypeDecl>, chain': seq<nat>, cur': Option<nat>)
      requires forall k | 0 <= k < |chain| :: chain[k] < |t0|
      requires b < |t0| && fuel > 0 && ts == StampLevels(t0, chain, 1)
      requires full == Prefixed(chain, Walk(t0, Some(b), fuel))
      ensures chain' == chain + [b] && cur' == Parent(t0, b)
      ensures forall k | 0 <= k < |chain'| :: chain'[k] < |t0|
      ensures cur'.Some? ==> cur'.value < |t0|
      ensures ts' == StampLevels(t0, chain', 1)
      ensures full == Prefixed(chain', Walk(t0, cur', fuel - 1))
    {
      StampChainStep(t0, chain, b, fuel, full);
      StampLevelsSnoc(t0, chain, b, 1);
      ts' := StampOne(ts, b, |chain| + 1);
      chain' := chain + [b];
      cur' := Parent(t0, b);
    }

    /** One hop of getBaseTypes's loop: the chain grows by the base, the walk
        moves on to the base's own base, and the base is stamped next. */
    static lemma StampChainStep(t0: seq<TypeDecl>, chain: seq<nat>, b: nat, fuel: nat, full: Option<seq<nat>>)
      requires forall k | 0 <= k < |chain| :: chain[k] < |t0|
      requires b < |t0| && fuel > 0
      requires full == Prefixed(chain, Walk(t0, Some(b), fuel))
      ensures forall k | 0 <= k < |chain + [b]| :: (chain + [b])[k] < |t0|
      ensures full == Prefixed(chain + [b], Walk(t0, Parent(t0, b), fuel - 1))
    {
      WalkStep(t0, chain, b, fuel);
    }

    /** Walking from the base of type `i` yields the ancestors of `i`. */
    static lemma WalkStart(t0: seq<TypeDecl>, i: nat, fuel: nat)
      requires i < |t0|
      ensures Ancestors(t0, i, fuel) == Walk(t0, Parent(t0, i), fuel)
    {
    }

    /** `getType(name)`: the first type of that name as the application sees
        it (see TypeView), or None for the `{}` returned for an unknown name.
        Numbering the properties is written back to the shared record, and so
        is the tree of the view when the record has options, because the
        shallow copy shares the `options` object; the base walk stamps
        levels; nothing else changes. */
    method GetType(name: string) returns (r: Result<Option<TypeDecl>, ResolveError>)
      modifies this
      ensures SameShape(old(types), types)
      ensures r.Err? ==> !Acyclic(old(types))
      ensures FindType(old(types), name).None? ==> r == Ok(None) && types == old(types)
      ensures Acyclic(old(types)) && FindType(old(types), name).Some? ==>
        var i := FindType(old(types), name).value;
        var stamped := StampLevels(old(types), Chain(old(types), i), 1);
        r == Ok(Some(TypeView(old(types), interpolate, i))) &&
        types == stamped[i := SharedAfterView(stamped[i], TypeView(old(types), interpolate, i))]
    {
      var found := FindType(types, name);
      if found.None? {
        return Ok(None);
      }
      var i := found.value;
      ghost var t0 := types;
      var record := types[i];
      var bases := GetBaseTypes(name);
      if bases.Err? {
        return Err(bases.error);
      }
      ghost var t1 := types;
      var inherited := InheritedTreeOf(bases.value);
      var view := Resolve(i, record, inherited);
      r := Ok(Some(view));
      ShapeAfterStamp(t0, t1, i, view);
      if Acyclic(t0) {
        ViewState(t0, t1, types, interpolate, name, i, bases.value, view);
      }
    }

    /** The view getType builds from `record`, the record of type `i` read
        before the base walk: its base interpolated, the inherited tree when
        it has none of its own, and its properties numbered; the numbering
        and, through the shared `options` object, the tree are written back. */
    method Resolve(i: nat, record: TypeDecl, inherited: Option<Tree>) returns (view: TypeDecl)
      requires i < |types| && record.properties == types[i].properties && record.options == types[i].options
      modifies this
      ensures view == record.(base := InterpolateBase(record.base, interpolate),
                              options := if OwnTree(record).None? then WithTree(record.options, inherited) else record.options,
                              properties := OwnProperties(record, interpolate))
      ensures types == old(types)[i := SharedAfterView(old(types)[i], view)]
    {
      view := record.(base := InterpolateBase(record.base, interpolate));
      if OwnTree(view).None? {
        view := view.(options := WithTree(view.options, inherited));
      }
      ghost var t1 := types;
      ShareOptions(i, view.options);
      ghost var t2 := types;
      var props := NumberOwn(i);
      view := view.(properties := props);
      AfterWriteBack(t1, t2, types, i, view);
    }

    /** What getType returns and leaves behind, in terms of the records it
        started from. */
    static lemma ViewState(t0: seq<TypeDecl>, t1: seq<TypeDecl>, t3: seq<TypeDecl>, interp: string -> string,
                           name: string, i: nat, bases: seq<TypeDecl>, view: TypeDecl)
      requires Acyclic(t0) && FindType(t0, name) == Some(i)
      requires t1 == StampLevels(t0, ChainOf(t0, name), 1)
      requires bases == Records(t1, BaseIndices(t0, name))
      requires view == t0[i].(base := InterpolateBase(t0[i].base, interp),
                              options := if OwnTree(t0[i]).None? then WithTree(t0[i].options, InheritedTree(bases)) else t0[i].options,
                              properties := OwnProperties(t0[i], interp))
      requires t3 == t1[i := SharedAfterView(t1[i], view)]
      ensures view == TypeView(t0, interp, i)
      ensures t3 == StampLevels(t0, Chain(t0, i), 1)[i := SharedAfterView(StampLevels(t0, Chain(t0, i), 1)[i], TypeView(t0, interp, i))]
    {
      ViewIsTypeView(t0, interp, name, i, bases);
    }

    /** The two write-backs of getType leave the record as SharedAfterView
        says. */
    static lemma AfterWriteBack(t1: seq<TypeDecl>, t2: seq<TypeDecl>, t3: seq<TypeDecl>, i: nat, view: TypeDecl)
      requires i < |t1|
      requires t2 == t1[i := t1[i].(options := if t1[i].options.Some? then view.options else t1[i].options)]
      requires t3 == t2[i := t2[i].(properties := view.properties)]
      ensures t3 == t1[i := SharedAfterView(t1[i], view)]
    {
    }

    /** Stamping levels and then writing back one record's properties and
        options keeps every name and base. */
    static lemma ShapeAfterStamp(t0: seq<TypeDecl>, t1: seq<TypeDecl>, i: nat, view: TypeDecl)
      requires |t1| == |t0| && i < |t1|
      requires forall j | 0 <= j < |t1| :: t1[j] == t0[j].(level := t1[j].level)
      ensures SameShape(t0, t1[i := SharedAfterView(t1[i], view)])
    {
      var t2 := t1[i := SharedAfterView(t1[i], view)];
      forall k | 0 <= k < |t0| ensures t0[k].name == t2[k].name && t0[k].base == t2[k].base {
        assert t1[k] == t0[k].(level := t1[k].level);
      }
    }

    /** What getType assembles from the record, the stamped bases and the
        numbered properties is the type as the application sees it. */
    static lemma ViewIsTypeView(t0: seq<TypeDecl>, interp: string -> string, name: string, i: nat, bases: seq<TypeDecl>)
      requires Acyclic(t0) && FindType(t0, name) == Some(i)
      requires bases == Records(StampLevels(t0, ChainOf(t0, name), 1), BaseIndices(t0, name))
      ensures TypeView(t0, interp, i) ==
        t0[i].(base := InterpolateBase(t0[i].base, interp),
               options := if OwnTree(t0[i]).None? then WithTree(t0[i].options, InheritedTree(bases)) else t0[i].options,
               properties := OwnProperties(t0[i], interp))
    {
      assert BaseIndices(t0, name) == Reverse(Chain(t0, i));
      InheritedIsEffective(t0, i, bases);
    }

    /** The tree step of getType writes into the record's own `options`
        object when it has one. */
    method ShareOptions(i: nat, o: Option<TypeOptions>)
      requires i < |types|
      modifies this
      ensures types == old(types)[i := old(types)[i].(options := if old(types)[i].options.Some? then o else old(types)[i].options)]
    {
      if types[i].options.Some? {
        types := types[i := types[i].(options := o)];
      }
    }

    /** The numbering step of getType: unless every property of `types[i]`
        has an order, number them from 1 and write them back to the record. */
    method NumberOwn(i: nat) returns (props: seq<Property>)
      requires i < |types|
      modifies this
      ensures props == OwnProperties(old(types)[i], interpolate)
      ensures types == old(types)[i := old(types)[i].(properties := props)]
    {
      props := types[i].properties;
      if !AllHaveOrder(props) {
        props := NumberProperties(props, interpolate);
        types := types[i := types[i].(properties := props)];
      }
    }

    /** `getChildTypes(name)`: every descendant, each child before its own
        descendants (see DescendantsAreReachable and ChildrenIncluded). */
    method GetChildTypes(name: string) returns (r: Option<seq<TypeDecl>>)
      ensures ChildTypes(types, name).None? ==> r.None?
      ensures ChildTypes(types, name).Some? ==> r == Some(Records(types, ChildTypes(types, name).value))
    {
      r := ChildTypesInto(types, name, [], |types| + 1);
      if ChildTypes(types, name).Some? {
        assert [] + Records(types, ChildTypes(types, name).value) == Records(types, ChildTypes(types, name).value);
      }
    }

    /** `getPathTypeName(typeName, path)`, walking the segments in a loop. */
    method GetPathTypeName(typeName: string, path: string) returns (r: Option<string>)
      requires Acyclic(types)
      ensures r == PathTypeName(types, interpolate, typeName, path)
    {
      var properties := Properties(types, interpolate, typeName);
      var paths := Split(path, '.');
      if |paths| == 1 {
        var prop := FindByName(properties, paths[0]);
        return if prop.None? then None else Some(KindName(prop.value.kind));
      }
      var pathType: Option<string> := None;
      var k := 0;
      while k < |paths|
        invariant 0 <= k <= |paths|
        invariant PathWalk(types, interpolate, properties, paths[k..], pathType) ==
                  PathTypeName(types, interpolate, typeName, path)
      {
        var prop := FindByName(properties, paths[k]);
        if prop.None? {
          break;
        }
        pathType := Some(PathStepType(prop.value));
        if IsAppType(types, pathType.value) {
          properties := Properties(types, interpolate, pathType.value);
        } else {
          break;
        }
        assert paths[k..][1..] == paths[k + 1..];
        k := k + 1;
      }
      r := pathType;
    }
  }

  /** After stamping an acyclic chain, the k-th base (furthest first) of `n`
      bases has level n - k. */
  lemma ChainLevels(types: seq<TypeDecl>, i: nat, bases: seq<TypeDecl>)
    requires Acyclic(types) && i < |types|
    requires bases == Records(StampLevels(types, Chain(types, i), 1), Reverse(Chain(types, i)))
    ensures forall k | 0 <= k < |bases| :: bases[k].level == Some(|bases| - k)
  {
    ChainDistinct(types, i);
    ReversedLevels(types, Chain(types, i), bases);
  }

  /** The records of distinct stamped indices, read in reverse, carry the
      levels n down to 1. */
  lemma ReversedLevels(types: seq<TypeDecl>, chain: seq<nat>, bases: seq<TypeDecl>)
    requires forall k | 0 <= k < |chain| :: chain[k] < |types|
    requires forall a, b | 0 <= a < b < |chain| :: chain[a] != chain[b]
    requires bases == Records(StampLevels(types, chain, 1), Reverse(chain))
    ensures forall k | 0 <= k < |bases| :: bases[k].level == Some(|bases| - k)
  {
    var stamped := StampLevels(types, chain, 1);
    StampLevelsDistinct(types, chain, 1);
    assert |bases| == |chain|;
    forall k | 0 <= k < |bases| ensures bases[k].level == Some(|bases| - k) {
      ReversedAt(stamped, chain, k);
    }
  }

  /** Reading the chain in reverse: entry `k` is chain entry `|chain| - 1 - k`. */
  lemma ReversedAt(stamped: seq<TypeDecl>, chain: seq<nat>, k: nat)
    requires forall m | 0 <= m < |chain| :: chain[m] < |stamped|
    requires k < |chain|
    ensures Records(stamped, Reverse(chain))[k] == stamped[chain[|chain| - 1 - k]]
  {
    assert Reverse(chain)[k] == chain[|chain| - 1 - k];
  }

  /** The tree getType gathers from the stamped bases is the effective tree
      of the type when it has none of its own. */
  lemma InheritedIsEffective(types: seq<TypeDecl>, i: nat, bases: seq<TypeDecl>)
    requires Acyclic(types) && i < |types|
    requires bases == Records(StampLevels(types, Chain(types, i), 1), Reverse(Chain(types, i)))
    ensures OwnTree(types[i]).None? ==> InheritedTree(bases) == EffectiveTree(types, i)
  {
    InheritedTreeOptionsOnly(bases, Records(types, Reverse(Chain(types, i))));
  }

  /** The loop of getType over the bases, furthest first: the last tree seen
      wins. */
  method InheritedTreeOf(bases: seq<TypeDecl>) returns (inherited: Option<Tree>)
    ensures inherited == InheritedTree(bases)
  {
    inherited := None;
    var k := 0;
    while k < |bases|
      invariant 0 <= k <= |bases|
      invariant inherited == InheritedTree(bases[..k])
    {
      var tree := OwnTree(bases[k]);
      InheritedTreeSnoc(bases, k);
      if tree.Some? {
        inherited := tree;
      }
      k := k + 1;
    }
    assert bases[..|bases|] == bases;
  }

  /** The numbering loop of getType: the k-th property (from 0) gets order
      k + 1 and its templated options interpolated. */
  method NumberProperties(ps: seq<Property>, interp: string -> string) returns (numbered: seq<Property>)
    ensures numbered == Renumber(ps, 1, interp)
    ensures |numbered| == |ps| && forall m | 0 <= m < |ps| :: numbered[m].order == Some(m + 1)
  {
    numbered := [];
    var order := 0;
    while order < |ps|
      invariant 0 <= order <= |ps| && |numbered| == order
      invariant forall m | 0 <= m < order :: numbered[m] == NumberProperty(ps[m], m + 1, interp)
    {
      numbered := numbered + [NumberProperty(ps[order], order + 1, interp)];
      order := order + 1;
    }
    RenumberLength(ps, 1, interp);
    forall m | 0 <= m < |ps| ensures numbered[m] == Renumber(ps, 1, interp)[m] {
      RenumberAt(ps, 1, interp, m);
    }
  }

  /** One turn of the loop of ChildTypesInto when the recursive call on child
      `k` gives up: then so does the whole list. */
  lemma ChildStepNone(types: seq<TypeDecl>, children: seq<nat>, k: nat, fuel: nat)
    requires forall m | 0 <= m < |children| :: children[m] < |types|
    requires k < |children| && Descendants(types, types[children[k]].name, fuel).None?
    ensures DescendAll(types, children, fuel).None?
  {
    DescendAllSnoc(types, children, k, fuel);
    DescendAllPrefixNone(types, children, k + 1, fuel);
  }

  /** One turn of the loop of ChildTypesInto when the recursive call on child
      `k` succeeds: the records of the prefix grow by the child and its
      descendants. */
  lemma ChildStepSome(types: seq<TypeDecl>, children: seq<nat>, k: nat, fuel: nat,
                      all: seq<TypeDecl>, acc: seq<TypeDecl>, sub: seq<TypeDecl>)
    requires forall m | 0 <= m < |children| :: children[m] < |types|
    requires k < |children| && DescendAll(types, children[..k], fuel).Some?
    requires Descendants(types, types[children[k]].name, fuel).Some?
    requires acc == all + Records(types, DescendAll(types, children[..k], fuel).value) + [types[children[k]]]
    requires sub == acc + Records(types, Descendants(types, types[children[k]].name, fuel).value)
    ensures DescendAll(types, children[..k + 1], fuel).Some?
    ensures sub == all + Records(types, DescendAll(types, children[..k + 1], fuel).value)
  {
    DescendAllSnoc(types, children, k, fuel);
    var pre := DescendAll(types, children[..k], fuel).value;
    var d := Descendants(types, types[children[k]].name, fuel).value;
    Regroup(all, Records(types, pre), [types[children[k]]], Records(types, d));
  }

  /** The recursion of getChildTypes(name, all) over the manager's types:
      `all` followed by what Descendants lists, or None when the recursion
      is deeper than `fuel`. */
  method ChildTypesInto(types: seq<TypeDecl>, name: string, all: seq<TypeDecl>, fuel: nat) returns (r: Option<seq<TypeDecl>>)
    ensures Descendants(types, name, fuel).None? ==> r.None?
    ensures Descendants(types, name, fuel).Some? ==>
      r == Some(all + Records(types, Descendants(types, name, fuel).value))
    decreases fuel, 0
  {
    if fuel == 0 {
      return None;
    }
    if FindType(types, name).None? {
      assert Descendants(types, name, fuel) == Some([]);
      assert all + Records(types, []) == all;
      return Some(all);
    }
    var children := ChildIndices(types, name, 0);
    r := ChildrenInto(types, children, all, fuel - 1);
  }

  /** The loop of getChildTypes over the children of one type: each child is
      appended, then its own descendants. */
  method ChildrenInto(types: seq<TypeDecl>, children: seq<nat>, all: seq<TypeDecl>, fuel: nat) returns (r: Option<seq<TypeDecl>>)
    requires forall m | 0 <= m < |children| :: children[m] < |types|
    ensures DescendAll(types, children, fuel).None? ==> r.None?
    ensures DescendAll(types, children, fuel).Some? ==>
      r == Some(all + Records(types, DescendAll(types, children, fuel).value))
    decreases fuel, 1
  {
    var acc := all;
    var k := 0;
    assert children[..0] == [];
    while k < |children|
      invariant 0 <= k <= |children|
      invariant DescendAll(types, children[..k], fuel).Some?
      invariant acc == all + Records(types, DescendAll(types, children[..k], fuel).value)
    {
      var c := children[k];
      acc := acc + [types[c]];
      var sub := ChildTypesInto(types, types[c].name, acc, fuel);
      if sub.None? {
        ChildStepNone(types, children, k, fuel);
        return None;
      }
      ChildStepSome(types, children, k, fuel, all, acc, sub.value);
      acc := sub.value;
      k := k + 1;
    }
    assert children[..|children|] == children;
    return Some(acc);
  }

  /** The children up to `k` inclusive: those before it, then child `k`, then
      its descendants. */
  lemma DescendAllSnoc(types: seq<TypeDecl>, children: seq<nat>, k: nat, fuel: nat)
    requires forall m | 0 <= m < |children| :: children[m] < |types|
    requires k < |children|
    ensures var c := children[k];
      var pre := DescendAll(types, children[..k], fuel);
      var sub := Descendants(types, types[c].name, fuel);
      DescendAll(types, children[..k + 1], fuel) ==
        if pre.None? || sub.None? then None else Some(pre.value + [c] + sub.value)
    ensures var c := children[k];
      var pre := DescendAll(types, children[..k], fuel);
      var sub := Descendants(types, types[c].name, fuel);
      pre.Some? && sub.Some? ==>
        Records(types, pre.value + [c] + sub.value) == Records(types, pre.value) + [types[c]] + Records(types, sub.value)
  {
    assert children[..k + 1][..k] == children[..k];
  }

  /** Once the recursion gives up on a prefix of the children it gives up on
      all of them. */
  lemma {:induction false} DescendAllPrefixNone(types: seq<TypeDecl>, children: seq<nat>, k: nat, fuel: nat)
    requires forall m | 0 <= m < |children| :: children[m] < |types|
    requires k <= |children| && DescendAll(types, children[..k], fuel).None?
    ensures DescendAll(types, children, fuel).None?
    decreases |children| - k
  {
    if k < |children| {
      var init := children[..|children| - 1];
      assert init[..k] == children[..k];
      DescendAllPrefixNone(types, init, k, fuel);
    } else {
      assert children[..k] == children;
    }
  }

  // ---------------------------------------------------------------------------
  // Findings about getType and getBaseTypes as written
  // ---------------------------------------------------------------------------

  /** The base loop of getType as written: each base with a tree, furthest
      first, overwrites `options.tree` of the type, and there is no `options`
      object to write to when the type has none. */
  function TreeAsWritten(o: Option<TypeOptions>, bases: seq<TypeDecl>): (r: Result<Option<TypeOptions>, string>)
    decreases |bases|
  {
    if bases == [] then Ok(o)
    else if OwnTree(bases[0]).None? then TreeAsWritten(o, bases[1..])
    else if o.None? then Err("TypeError: Cannot set properties of undefined (setting 'tree')")
    else TreeAsWritten(Some(o.value.(tree := OwnTree(bases[0]))), bases[1..])
  }

  /** The tree of the base type `node` in the examples below. */
  function NodeTree(): Tree
  {
    Tree("up", "down", None, [], [])
  }

  /** The tree `leaf` declares itself. */
  function LeafTree(): Tree
  {
    Tree("parent", "children", None, [], [])
  }

  /** `node` with a tree, `leaf` below it with its own tree, and `bare` below
      it without options. */
  function TreeTypes(): (r: seq<TypeDecl>)
    ensures |r| == 3
  {
    [TypeDecl("node", NoBase, None, None, [], false, Some(TypeOptions(Some(NodeTree()), Undefined, NoCollection)), map[], None, None),
     TypeDecl("leaf", BaseName("node"), None, None, [], false, Some(TypeOptions(Some(LeafTree()), Undefined, NoCollection)), map[], None, None),
     TypeDecl("bare", BaseName("node"), None, None, [], false, None, map[], None, None)]
  }

  /** As written, a type with a tree of its own loses it to its base's tree,
      and a type without options whose base has a tree cannot be read. */
  lemma TreeAsWrittenExample()
    ensures TreeAsWritten(TreeTypes()[1].options, [TreeTypes()[0]]) ==
      Ok(Some(TypeOptions(Some(NodeTree()), Undefined, NoCollection)))
    ensures TreeAsWritten(TreeTypes()[2].options, [TreeTypes()[0]]).Err?
  {
  }

  /** The example types have no base cycle: `node` is the base of the other
      two. */
  lemma TreeTypesChains()
    ensures Acyclic(TreeTypes())
    ensures Chain(TreeTypes(), 2) == [0]
  {
    var types := TreeTypes();
    TreeTypesParents();
    OneHop(types, 0, 1, 3);
    OneHop(types, 0, 2, 3);
    assert Ancestors(types, 0, 3) == Some([]);
    forall i | 0 <= i < |types| ensures Ancestors(types, i, |types|).Some? {
      assert i == 0 || i == 1 || i == 2;
    }
  }

  lemma TreeTypesParents()
    ensures Parent(TreeTypes(), 0) == None
    ensures Parent(TreeTypes(), 1) == Some(0) && Parent(TreeTypes(), 2) == Some(0)
  {
    assert FindType(TreeTypes(), "node") == Some(0);
  }

  /** A type whose base has no base of its own has a chain of one. */
  lemma OneHop(types: seq<TypeDecl>, p: nat, i: nat, fuel: nat)
    requires p < |types| && i < |types| && fuel > 0
    requires Parent(types, p) == None && Parent(types, i) == Some(p)
    ensures Ancestors(types, i, fuel) == Some([p])
  {
    assert Ancestors(types, p, fuel - 1) == Some([]);
    assert [p] + [] == [p];
  }

  /** The corrected view keeps the own tree of `leaf` and gives `bare` the
      tree of its base. */
  lemma TreeCorrectedExample()
    ensures Acyclic(TreeTypes())
    ensures EffectiveTree(TreeTypes(), 1) == Some(LeafTree())
    ensures EffectiveTree(TreeTypes(), 2) == Some(NodeTree())
  {
    var types := TreeTypes();
    TreeTypesChains();
    assert Reverse([0]) == [0];
    assert Records(types, [0]) == [types[0]];
  }

  /** The numbering step of getType as written: `options.default` is read even
      when the property has no options, and the default is interpolated when
      the (interpolated) `options.type` is a template, whatever the default. */
  function NumberPropertyAsWritten(p: Property, k: int, interp: string -> string): (r: Result<Property, string>)
  {
    if p.options.None? then Err("TypeError: Cannot read properties of undefined (reading 'default')")
    else
      var po := p.options.value;
      var t := if po.typeName.Some? && IsTemplate(po.typeName.value) then Some(interp(po.typeName.value)) else po.typeName;
      var d := if Truthy(po.defaultValue) && t.Some? && IsTemplate(t.value) && po.defaultValue.Str?
               then Str(interp(po.defaultValue.s)) else po.defaultValue;
      Ok(p.(order := Some(k), options := Some(po.(typeName := t, defaultValue := d))))
  }

  /** A property without options makes getType throw, and a templated default
      next to a plain type stays uninterpolated; the corrected step numbers the
      first and interpolates the second. */
  lemma NumberPropertyCounterexample(interp: string -> string)
    ensures var plain := Property("title", StringKind, None, None, None);
      NumberPropertyAsWritten(plain, 1, interp).Err? &&
      NumberProperty(plain, 1, interp) == plain.(order := Some(1))
    ensures var opts := PropertyOptions(Some("string"), Str("$now"), None, None, Undefined, [], []);
      var stamped := Property("created", DateKind, None, None, Some(opts));
      NumberPropertyAsWritten(stamped, 1, interp) == Ok(stamped.(order := Some(1))) &&
      NumberProperty(stamped, 1, interp).options.value.defaultValue == Str(interp("$now"))
  {
    NowIsTemplate();
    StringIsNotTemplate();
  }

  lemma NowIsTemplate()
    ensures IsTemplate("$now")
  {
    assert "$now"[0] == '$' && IsIdentChar("$now"[1]);
  }

  lemma StringIsNotTemplate()
    ensures !IsTemplate("string")
  {
    var s := "string";
    assert !HasPlaceholder(s);
    assert s[..2] == "st";
  }

  /** The base walk as written has no end on a two-type cycle: whatever the
      number of hops allowed, the chain has not ended. */
  lemma {:induction false} CyclicBaseNeverEnds(fuel: nat)
    ensures var a := TypeDecl("a", BaseName("b"), None, None, [], false, None, map[], None, None);
      var b := TypeDecl("b", BaseName("a"), None, None, [], false, None, map[], None, None);
      Ancestors([a, b], 0, fuel).None? && Ancestors([a, b], 1, fuel).None?
  {
    var a := TypeDecl("a", BaseName("b"), None, None, [], false, None, map[], None, None);
    var b := TypeDecl("b", BaseName("a"), None, None, [], false, None, map[], None, None);
    var types := [a, b];
    assert FindType(types, "a") == Some(0);
    assert FindType(types, "b") == Some(1);
    if fuel > 0 {
      CyclicBaseNeverEnds(fuel - 1);
    }
  }

  // ---------------------------------------------------------------------------
  // getBuiltInData
  // ---------------------------------------------------------------------------

  /** The fields getBuiltInData may return, in the order it builds them. */
  const BuiltInKeys: seq<string> := ["_id", "_type", "_createdAt", "_modifiedAt", "_createdBy", "_modifiedBy", "_default"]

  /** The entries `k: data[k]` for the keys `k` of `keys` that `keep` accepts,
      in that order. */
  function Collect(data: seq<Entry<Value>>, keys: seq<string>, keep: string -> bool): (r: seq<Entry<Value>>)
    ensures forall k :: Find(r, k) == if k in keys && keep(k) then Some(Get(data, k)) else None
  {
    if keys == [] then []
    else if keep(keys[0]) then [Entry(keys[0], Get(data, keys[0]))] + Collect(data, keys[1..], keep)
    else Collect(data, keys[1..], keep)
  }

  /** `getBuiltInData(typeName, data, includeTypeName, includeId)`: `_id`,
      `_type`, `_createdAt`, `_modifiedAt`, `_createdBy` and `_modifiedBy`
      (undefined when absent), then `_default` when defined; `_type` only with
      `includeTypeName` and `_id` only with `includeId` (see Findings). */
  function BuiltInData(data: seq<Entry<Value>>, includeTypeName: bool, includeId: bool): (r: seq<Entry<Value>>)
    ensures Has(r, "_id") <==> includeId
    ensures Has(r, "_type") <==> includeTypeName
    ensures Has(r, "_default") <==> Get(data, "_default") != Undefined
    ensures forall k | k in Keys(r) :: k in BuiltInKeys && Find(r, k) == Some(Get(data, k))
  {
    var keep := k => (k != "_type" || includeTypeName) && (k != "_id" || includeId) &&
                     (k != "_default" || Get(data, "_default") != Undefined);
    assert BuiltInKeys[0] == "_id" && BuiltInKeys[1] == "_type" && BuiltInKeys[6] == "_default";
    assert "_type" != "_id" && "_type" != "_default" && "_id" != "_default";
    assert keep("_type") == includeTypeName && keep("_id") == includeId;
    Collect(data, BuiltInKeys, keep)
  }

  /** The same as written: `_id` is dropped when `includeTypeName` is false,
      and `includeId` is never read. */
  function BuiltInDataAsWritten(data: seq<Entry<Value>>, includeTypeName: bool, includeId: bool): (r: seq<Entry<Value>>)
  {
    Collect(data, BuiltInKeys, k =>
      (k != "_type" || includeTypeName) && (k != "_id" || includeTypeName) && (k != "_default" || Get(data, "_default") != Undefined))
  }

  /** Asking for the id but not the type name loses the id as written. */
  lemma BuiltInDataCounterexample(data: seq<Entry<Value>>)
    ensures !Has(BuiltInDataAsWritten(data, false, true), "_id")
    ensures Has(BuiltInData(data, false, true), "_id")
  {
  }
}
