// The reordering of a document's keys by property order
// (sortDocumentKeyByPropertyOrder and sortDocumentsKeyByPropertyOrder of the
// repository base class), which shapes every document the find routes return:
// the built-in fields first, then the type's properties in ascending `order`
// (references and collections reordered recursively), then every other key.
// With a `select` list only the selected keys, `_id` and the populated links
// survive.
module DocumentOrder {
  import opened Wrappers
  import opened Json
  import opened Strings
  import opened Domain
  import opened Validators
  import opened RepositoryBase
  import opened Seqs

  // ---------------------------------------------------------------------------
  // Selection and the property list
  // ---------------------------------------------------------------------------

  /** `select.split(" ").map(s => s.trim())`. */
  function SelectList(select: string): seq<string>
  {
    var parts := Split(select, ' ');
    seq(|parts|, k requires 0 <= k < |parts| => Trim(parts[k]))
  }

  /** `!select || selectProperties.indexOf(name) != -1`; the empty string
      stands for an absent `select` (both are falsy). */
  predicate Shown(select: string, name: string)
  {
    select == "" || name in SelectList(select)
  }

  /** `doc._type ? doc._type : typeName`; None when `_type` is a truthy
      value that is not a string, which names no type. */
  function ModelTypeName(fields: seq<Entry<Value>>, typeName: string): Option<string>
  {
    var t := Get(fields, "_type");
    if !Truthy(t) then Some(typeName) else if t.Str? then Some(t.s) else None
  }

  /** `getProperties(modelTypeName)`. */
  function TypeProperties(types: seq<TypeDecl>, interp: string -> string, m: Option<string>): seq<Property>
    requires Acyclic(types)
  {
    if m.Some? then Properties(types, interp, m.value) else []
  }

  /** `getType(modelTypeName).options.tree`, none for a name that is unknown. */
  function ModelTree(types: seq<TypeDecl>, m: Option<string>): Option<Tree>
    requires Acyclic(types)
  {
    if m.Some? then TreeOf(types, m.value) else None
  }

  /** `getChildTypes(modelTypeName)`, as indices. */
  function ChildTypesOf(types: seq<TypeDecl>, m: Option<string>): (r: seq<nat>)
    ensures forall k | 0 <= k < |r| :: r[k] < |types|
  {
    if m.Some? && ChildTypes(types, m.value).Some? then ChildTypes(types, m.value).value else []
  }

  /** The property list the reordering walks: the type's properties, with
      those of every child type appended and one per name kept when
      `includeChild` is set, sorted by `order`, those without one last and
      in the order they came. */
  function OrderedProperties(types: seq<TypeDecl>, interp: string -> string, m: Option<string>, includeChild: bool): (r: seq<Property>)
    requires Acyclic(types)
    ensures SortedByOrder(r)
    ensures !includeChild ==> multiset(r) == multiset(TypeProperties(types, interp, m))
    ensures !includeChild ==> Unordered(r) == Unordered(TypeProperties(types, interp, m))
    ensures includeChild ==> forall p | p in r ::
      p in TypeProperties(types, interp, m) || p in ChildProperties(types, interp, ChildTypesOf(types, m))
  {
    var base := TypeProperties(types, interp, m);
    if !includeChild then
      SortKeepsUnordered(base);
      SortByOrder(base)
    else
      var all := UniqueByName(base + ChildProperties(types, interp, ChildTypesOf(types, m)), {});
      var r := SortByOrder(all);
      assert forall p | p in r :: p in all by {
        forall p | p in r ensures p in all {
          assert p in multiset(r);
        }
      }
      r
  }

  /** A reference or a collection. */
  predicate IsLink(p: Property)
  {
    p.kind == ReferenceKind || p.kind == CollectionKind
  }

  function LinkSet(ps: seq<Property>): set<string>
  {
    set p | p in ps && IsLink(p) :: p.name
  }

  function DisplaySet(ps: seq<Property>): set<string>
  {
    set p | p in ps && p.kind == ReferenceKind :: p.name + "_display"
  }

  /** The names of `properties.filter(p => p.type == reference || p.type == collection)`. */
  function LinkNames(ps: seq<Property>): (r: seq<string>)
    ensures forall n | n in r :: n in LinkSet(ps)
    ensures forall p | p in ps && IsLink(p) :: p.name in r
  {
    if ps == [] then []
    else
      var rest := LinkNames(ps[1..]);
      assert forall p | p in ps[1..] :: p in ps;
      (if IsLink(ps[0]) then [ps[0].name] else []) + rest
  }

  // ---------------------------------------------------------------------------
  // The reordering, as functions
  // ---------------------------------------------------------------------------

  /** The built-in fields a document without `select` starts with. */
  const BuiltInOrder: seq<string> := ["_id", "_type", "_default", "_createdAt", "_modifiedAt", "_createdBy", "_modifiedBy"]

  /** The initial `newDoc`: `{_id}` with `select`, the seven built-in
      fields (`_default` made a boolean) without; `{}` when `_id` is falsy. */
  function Initial(fields: seq<Entry<Value>>, select: string): seq<Entry<Value>>
  {
    var id := Get(fields, "_id");
    if !Truthy(id) then []
    else if select != "" then [Entry("_id", id)]
    else [Entry("_id", id), Entry("_type", Get(fields, "_type")), Entry("_default", Bool(Truthy(Get(fields, "_default")))),
          Entry("_createdAt", Get(fields, "_createdAt")), Entry("_modifiedAt", Get(fields, "_modifiedAt")),
          Entry("_createdBy", Get(fields, "_createdBy")), Entry("_modifiedBy", Get(fields, "_modifiedBy"))]
  }

  /** `for (name of names) if (doc[name]) newDoc[name] = doc[name]`, from `names[k]` on. */
  function CopyTruthy(fields: seq<Entry<Value>>, names: seq<string>, k: nat, cur: seq<Entry<Value>>): seq<Entry<Value>>
    decreases |names| - k
  {
    if k >= |names| then cur
    else
      var v := Get(fields, names[k]);
      CopyTruthy(fields, names, k + 1, if Truthy(v) then Put(cur, names[k], v) else cur)
  }

  /** `newDoc` before the property loop: with `select`, the selected truthy
      fields and then the truthy links of the type are copied in. */
  function Head(fields: seq<Entry<Value>>, select: string, base: seq<Property>): seq<Entry<Value>>
  {
    var start := Initial(fields, select);
    if select == "" then start
    else CopyTruthy(fields, LinkNames(base), 0, CopyTruthy(fields, SelectList(select), 0, start))
  }

  /** `doc[name].length` is truthy. */
  predicate LengthTruthy(v: Value)
  {
    match v
    case Arr(items) => items != []
    case Str(s) => s != ""
    case Obj(fs) => Truthy(Get(fs, "length"))
    case _ => false
  }

  /** `_.get(property, 'options.type')`, `""` when absent. */
  function OptionType(p: Property): string
  {
    if ObjectType(p).Some? then ObjectType(p).value else ""
  }

  /** sortDocumentKeyByPropertyOrder on a document. */
  function SortDocument(types: seq<TypeDecl>, interp: string -> string, doc: Value, typeName: string,
                        includeChild: bool, select: string): (r: Value)
    requires Acyclic(types)
    ensures r.Obj?
    decreases doc, 3
  {
    var fields := FieldsOf(doc);
    var m := ModelTypeName(fields, typeName);
    var ps := OrderedProperties(types, interp, m, includeChild);
    var emitted := EmitFrom(types, interp, doc, ModelTree(types, m), select, ps, 0,
                            Head(fields, select, TypeProperties(types, interp, m)));
    Obj(CopyRest(fields, select, Names(ps), Keys(fields), 0, emitted))
  }

  /** sortDocumentsKeyByPropertyOrder: each item of an array reordered;
      anything else reordered as one document. */
  function SortDocuments(types: seq<TypeDecl>, interp: string -> string, data: Value, typeName: string,
                         includeChild: bool, select: string): (r: Value)
    requires Acyclic(types)
    decreases data, 5
  {
    if data.Arr? then Arr(SortEach(types, interp, data, typeName, includeChild, select))
    else SortDocument(types, interp, data, typeName, includeChild, select)
  }

  /** The items of the array `data`, each reordered. */
  function SortEach(types: seq<TypeDecl>, interp: string -> string, data: Value, typeName: string,
                    includeChild: bool, select: string): (r: seq<Value>)
    requires Acyclic(types) && data.Arr?
    decreases data, 4
  {
    seq(|data.items|, k requires 0 <= k < |data.items| => SortDocument(types, interp, data.items[k], typeName, includeChild, select))
  }

  /** The property loop, from `ps[k]` on. */
  function EmitFrom(types: seq<TypeDecl>, interp: string -> string, doc: Value, tree: Option<Tree>, select: string,
                    ps: seq<Property>, k: nat, cur: seq<Entry<Value>>): seq<Entry<Value>>
    requires Acyclic(types)
    decreases doc, 2, |ps| - k
  {
    if k >= |ps| then cur
    else EmitFrom(types, interp, doc, tree, select, ps, k + 1, Emit(types, interp, doc, tree, select, ps[k], cur))
  }

  /** A populated reference the loop reorders: shown, or the tree type's
      parent link, and holding a truthy non-string value. */
  predicate PopulatedLink(doc: Value, tree: Option<Tree>, select: string, p: Property)
  {
    var v := DocGet(doc, p.name);
    (Shown(select, p.name) || (tree.Some? && tree.value.parent == p.name)) &&
    p.kind == ReferenceKind && Truthy(v) && !v.Str?
  }

  /** What one turn of the property loop writes under the property's name: a
      populated reference (reordered), a non-empty collection (each item
      reordered), an object or array of a declared type (reordered as that
      type, children included, without selection), or a plain copy. A tree
      type's children link is kept even when not selected. */
  function Emitted(types: seq<TypeDecl>, interp: string -> string, doc: Value, tree: Option<Tree>, select: string,
                   p: Property): (r: Option<Value>)
    requires Acyclic(types)
    ensures r.Some? ==> Shown(select, p.name) || IsLink(p)
    ensures r.Some? ==> Has(FieldsOf(doc), p.name)
    decreases doc, 0
  {
    var v := DocGet(doc, p.name);
    FieldSmaller(doc, p.name);
    var shown := Shown(select, p.name);
    if PopulatedLink(doc, tree, select, p) then
      Some(SortDocument(types, interp, v, "", false, select))
    else if (shown || (tree.Some? && tree.value.children == p.name)) && p.kind == CollectionKind && Truthy(v) && LengthTruthy(v) then
      Some(SortDocuments(types, interp, v, "", false, select))
    else if shown && p.kind == ObjectKind && OptionType(p) != "" && Truthy(v) then
      Some(SortDocument(types, interp, v, OptionType(p), true, ""))
    else if shown && p.kind == ArrayKind && OptionType(p) != "" && Truthy(v) then
      Some(SortDocuments(types, interp, v, OptionType(p), true, ""))
    else if shown && Has(FieldsOf(doc), p.name) then
      Some(v)
    else None
  }

  /** The `_display` companion copied after a populated reference when
      `_display` is shown. */
  function DisplayEmitted(doc: Value, tree: Option<Tree>, select: string, p: Property): (r: Option<Value>)
    ensures r.Some? ==> p.kind == ReferenceKind && Shown(select, "_display")
  {
    if PopulatedLink(doc, tree, select, p) && Shown(select, "_display") then Some(DocGet(doc, p.name + "_display"))
    else None
  }

  /** `if (o) newDoc[key] = o.value`. */
  function PutIf(cur: seq<Entry<Value>>, key: string, o: Option<Value>): seq<Entry<Value>>
  {
    if o.Some? then Put(cur, key, o.value) else cur
  }

  /** One turn of the property loop: the property's own field, then a
      reference's `_display` companion. */
  function Emit(types: seq<TypeDecl>, interp: string -> string, doc: Value, tree: Option<Tree>, select: string,
                p: Property, cur: seq<Entry<Value>>): seq<Entry<Value>>
    requires Acyclic(types)
    decreases doc, 1
  {
    PutIf(PutIf(cur, p.name, Emitted(types, interp, doc, tree, select, p)), p.name + "_display", DisplayEmitted(doc, tree, select, p))
  }

  /** The closing loop: every shown key of the document that names no
      property is copied, from `keys[k]` on. */
  function CopyRest(fields: seq<Entry<Value>>, select: string, names: set<string>, keys: seq<string>, k: nat,
                    cur: seq<Entry<Value>>): seq<Entry<Value>>
    decreases |keys| - k
  {
    if k >= |keys| then cur
    else CopyRest(fields, select, names, keys, k + 1, PutIf(cur, keys[k], LeftoverValue(fields, select, names, keys[k])))
  }

  /** The closing loop copies `key`: shown, and naming no property. */
  predicate Leftover(select: string, names: set<string>, key: string)
  {
    Shown(select, key) && key !in names
  }

  /** The document's value of `key` when the closing loop copies it. */
  function LeftoverValue(fields: seq<Entry<Value>>, select: string, names: set<string>, key: string): Option<Value>
  {
    if Leftover(select, names, key) then Some(Get(fields, key)) else None
  }

  // ---------------------------------------------------------------------------
  // The reordering, as the source computes it
  // ---------------------------------------------------------------------------

  method CopyTruthyFields(fields: seq<Entry<Value>>, names: seq<string>, cur: seq<Entry<Value>>) returns (r: seq<Entry<Value>>)
    ensures r == CopyTruthy(fields, names, 0, cur)
  {
    r := cur;
    for k := 0 to |names|
      invariant CopyTruthy(fields, names, k, r) == CopyTruthy(fields, names, 0, cur)
    {
      if Truthy(Get(fields, names[k])) {
        r := Put(r, names[k], Get(fields, names[k]));
      }
    }
  }

  method CopyRestFields(fields: seq<Entry<Value>>, select: string, names: set<string>, cur: seq<Entry<Value>>)
    returns (r: seq<Entry<Value>>)
    ensures r == CopyRest(fields, select, names, Keys(fields), 0, cur)
  {
    var keys := Keys(fields);
    r := cur;
    for k := 0 to |keys|
      invariant CopyRest(fields, select, names, keys, k, r) == CopyRest(fields, select, names, keys, 0, cur)
    {
      if Shown(select, keys[k]) && keys[k] !in names {
        r := Put(r, keys[k], Get(fields, keys[k]));
      }
    }
  }

  /** `properties.push(...getProperties(childType.name))` for each child type. */
  method AppendChildProperties(types: seq<TypeDecl>, interp: string -> string, base: seq<Property>, children: seq<nat>)
    returns (all: seq<Property>)
    requires Acyclic(types)
    requires forall k | 0 <= k < |children| :: children[k] < |types|
    ensures all == base + ChildProperties(types, interp, children)
  {
    all := base;
    for k := 0 to |children|
      invariant all + ChildProperties(types, interp, children[k..]) == base + ChildProperties(types, interp, children)
    {
      all := AppendChild(types, interp, children, k, all);
    }
  }

  /** One pass of that loop: the properties of child type `k`. */
  method AppendChild(types: seq<TypeDecl>, interp: string -> string, children: seq<nat>, k: nat, all: seq<Property>)
    returns (next: seq<Property>)
    requires Acyclic(types)
    requires forall m | 0 <= m < |children| :: children[m] < |types|
    requires k < |children|
    ensures next + ChildProperties(types, interp, children[k + 1..]) == all + ChildProperties(types, interp, children[k..])
  {
    var own := Properties(types, interp, types[children[k]].name);
    ChildPropertiesStep(types, interp, children, k);
    next := all + own;
  }

  lemma ChildPropertiesStep(types: seq<TypeDecl>, interp: string -> string, children: seq<nat>, k: nat)
    requires Acyclic(types)
    requires forall m | 0 <= m < |children| :: children[m] < |types|
    requires k < |children|
    ensures ChildProperties(types, interp, children[k..]) ==
      Properties(types, interp, types[children[k]].name) + ChildProperties(types, interp, children[k + 1..])
  {
    assert children[k..][1..] == children[k + 1..];
  }

  method EmitProperty(types: seq<TypeDecl>, interp: string -> string, doc: Value, tree: Option<Tree>, select: string,
                      p: Property, cur: seq<Entry<Value>>) returns (r: seq<Entry<Value>>)
    requires Acyclic(types)
    ensures r == Emit(types, interp, doc, tree, select, p, cur)
    decreases doc, 1
  {
    var v := DocGet(doc, p.name);
    FieldSmaller(doc, p.name);
    var shown := Shown(select, p.name);
    if (shown || (tree.Some? && tree.value.parent == p.name)) && p.kind == ReferenceKind && Truthy(v) && !v.Str? {
      var sorted := SortDocumentKeyByPropertyOrder(types, interp, v, "", false, select);
      r := Put(cur, p.name, sorted);
      if Shown(select, "_display") {
        r := Put(r, p.name + "_display", DocGet(doc, p.name + "_display"));
      }
    } else if (shown || (tree.Some? && tree.value.children == p.name)) && p.kind == CollectionKind && Truthy(v) && LengthTruthy(v) {
      var sorted := SortDocumentsKeyByPropertyOrder(types, interp, v, "", false, select);
      r := Put(cur, p.name, sorted);
    } else if shown && p.kind == ObjectKind && OptionType(p) != "" && Truthy(v) {
      var sorted := SortDocumentKeyByPropertyOrder(types, interp, v, OptionType(p), true, "");
      r := Put(cur, p.name, sorted);
    } else if shown && p.kind == ArrayKind && OptionType(p) != "" && Truthy(v) {
      var sorted := SortDocumentsKeyByPropertyOrder(types, interp, v, OptionType(p), true, "");
      r := Put(cur, p.name, sorted);
    } else if shown && Has(FieldsOf(doc), p.name) {
      r := Put(cur, p.name, v);
    } else {
      r := cur;
    }
  }

  /** The start of sortDocumentKeyByPropertyOrder: `newDoc` before the
      property loop, and the sorted property list the loop walks. */
  method StartDocument(types: seq<TypeDecl>, interp: string -> string, fields: seq<Entry<Value>>, m: Option<string>,
                       includeChild: bool, select: string) returns (newDoc: seq<Entry<Value>>, properties: seq<Property>)
    requires Acyclic(types)
    ensures newDoc == Head(fields, select, TypeProperties(types, interp, m))
    ensures properties == OrderedProperties(types, interp, m, includeChild)
  {
    newDoc := Initial(fields, select);
    if select != "" {
      newDoc := CopyTruthyFields(fields, SelectList(select), newDoc);
    }
    properties := TypeProperties(types, interp, m);
    if select != "" {
      newDoc := CopyTruthyFields(fields, LinkNames(properties), newDoc);
    }
    if includeChild {
      properties := AppendChildProperties(types, interp, properties, ChildTypesOf(types, m));
      properties := UniqueByName(properties, {});
    }
    properties := SortByOrder(properties);
  }

  /** The property loop of sortDocumentKeyByPropertyOrder. */
  method EmitProperties(types: seq<TypeDecl>, interp: string -> string, doc: Value, tree: Option<Tree>, select: string,
                        properties: seq<Property>, head: seq<Entry<Value>>) returns (newDoc: seq<Entry<Value>>)
    requires Acyclic(types)
    ensures newDoc == EmitFrom(types, interp, doc, tree, select, properties, 0, head)
    decreases doc, 2, 0
  {
    newDoc := head;
    for i := 0 to |properties|
      invariant EmitFrom(types, interp, doc, tree, select, properties, i, newDoc) ==
                EmitFrom(types, interp, doc, tree, select, properties, 0, head)
    {
      newDoc := EmitProperty(types, interp, doc, tree, select, properties[i], newDoc);
    }
  }

  /** sortDocumentKeyByPropertyOrder, building `newDoc` loop by loop. */
  method SortDocumentKeyByPropertyOrder(types: seq<TypeDecl>, interp: string -> string, doc: Value, typeName: string,
                                        includeChild: bool, select: string) returns (r: Value)
    requires Acyclic(types)
    ensures r == SortDocument(types, interp, doc, typeName, includeChild, select)
    decreases doc, 2
  {
    var fields := FieldsOf(doc);
    var m := ModelTypeName(fields, typeName);
    var head, properties := StartDocument(types, interp, fields, m, includeChild, select);
    var newDoc := EmitProperties(types, interp, doc, ModelTree(types, m), select, properties, head);
    newDoc := CopyRestFields(fields, select, Names(properties), newDoc);
    r := Obj(newDoc);
  }

  /** sortDocumentsKeyByPropertyOrder, rewriting the copied list slot by slot. */
  method SortDocumentsKeyByPropertyOrder(types: seq<TypeDecl>, interp: string -> string, data: Value, typeName: string,
                                         includeChild: bool, select: string) returns (r: Value)
    requires Acyclic(types)
    ensures r == SortDocuments(types, interp, data, typeName, includeChild, select)
    decreases data, 4
  {
    if !data.Arr? {
      r := SortDocumentKeyByPropertyOrder(types, interp, data, typeName, includeChild, select);
      return;
    }
    var newData := SortItems(types, interp, data, typeName, includeChild, select);
    r := Arr(newData);
  }

  /** The loop of sortDocumentsKeyByPropertyOrder over the items of `data`. */
  method SortItems(types: seq<TypeDecl>, interp: string -> string, data: Value, typeName: string,
                   includeChild: bool, select: string) returns (newData: seq<Value>)
    requires Acyclic(types) && data.Arr?
    ensures newData == SortEach(types, interp, data, typeName, includeChild, select)
    decreases data, 3
  {
    var items := data.items;
    ghost var sorted := SortEach(types, interp, data, typeName, includeChild, select);
    newData := items;
    for i := 0 to |items|
      invariant |newData| == |items|
      invariant forall k | 0 <= k < i :: newData[k] == sorted[k]
      invariant forall k | i <= k < |items| :: newData[k] == items[k]
    {
      newData := SortSlot(types, interp, data, typeName, includeChild, select, newData, i);
    }
    assert newData == sorted;
  }

  /** One iteration of that loop: item `i` replaced by its reordering. */
  method SortSlot(types: seq<TypeDecl>, interp: string -> string, data: Value, typeName: string,
                  includeChild: bool, select: string, cur: seq<Value>, i: nat) returns (next: seq<Value>)
    requires Acyclic(types) && data.Arr? && i < |cur| == |data.items| && cur[i] == data.items[i]
    ensures next == cur[i := SortEach(types, interp, data, typeName, includeChild, select)[i]]
    decreases data, 2
  {
    var doc := cur[i];
    assert doc < data;
    var one := SortDocumentKeyByPropertyOrder(types, interp, doc, typeName, includeChild, select);
    next := cur[i := one];
  }

  // ---------------------------------------------------------------------------
  // Key layout of a reordered document
  // ---------------------------------------------------------------------------

  /** `a` is a subsequence of `b`. */
  predicate IsSubseq(a: seq<string>, b: seq<string>)
    decreases |b|
  {
    if b == [] then a == []
    else IsSubseq(a, b[1..]) || (a != [] && a[0] == b[0] && IsSubseq(a[1..], b[1..]))
  }

  lemma {:induction false} SubseqOfNil(b: seq<string>)
    ensures IsSubseq([], b)
    decreases |b|
  {
    if b != [] {
      SubseqOfNil(b[1..]);
    }
  }

  lemma {:induction false} SubseqConcat(a1: seq<string>, b1: seq<string>, a2: seq<string>, b2: seq<string>)
    requires IsSubseq(a1, b1) && IsSubseq(a2, b2)
    ensures IsSubseq(a1 + a2, b1 + b2)
    decreases |b1|
  {
    if b1 == [] {
      assert a1 + a2 == a2 && b1 + b2 == b2;
    } else {
      assert (b1 + b2)[1..] == b1[1..] + b2;
      if IsSubseq(a1, b1[1..]) {
        SubseqConcat(a1, b1[1..], a2, b2);
      } else {
        SubseqConcat(a1[1..], b1[1..], a2, b2);
        assert (a1 + a2)[1..] == a1[1..] + a2;
      }
    }
  }

  /** Each property's name followed by its `_display` companion, from `ps[k]` on. */
  function Trail(ps: seq<Property>, k: nat): seq<string>
    decreases |ps| - k
  {
    if k >= |ps| then [] else [ps[k].name, ps[k].name + "_display"] + Trail(ps, k + 1)
  }

  /** The keys from `keys[k]` on that the closing loop copies, in order. */
  function Kept(select: string, names: set<string>, keys: seq<string>, k: nat): seq<string>
    decreases |keys| - k
  {
    if k >= |keys| then []
    else (if Leftover(select, names, keys[k]) then [keys[k]] else []) + Kept(select, names, keys, k + 1)
  }

  /** Copying at most `key` appends at most `key`. */
  lemma PutIfTail(cur: seq<Entry<Value>>, key: string, o: Option<Value>)
    ensures Keys(cur) <= Keys(PutIf(cur, key, o))
    ensures IsSubseq(Keys(PutIf(cur, key, o))[|Keys(cur)|..], if o.Some? then [key] else [])
  {
    if o.Some? {
      PutAppends(cur, key, o.value);
      AtMostOne(Keys(PutIf(cur, key, o))[|Keys(cur)|..], key);
    } else {
      assert Keys(cur)[|Keys(cur)|..] == [];
    }
  }

  /** Assignment keeps the keys already there, in place, and appends at most the new one. */
  lemma PutAppends(cur: seq<Entry<Value>>, key: string, v: Value)
    ensures Keys(cur) <= Keys(Put(cur, key, v))
    ensures var tail := Keys(Put(cur, key, v))[|Keys(cur)|..]; tail == [] || tail == [key]
  {
  }

  lemma AtMostOne(t: seq<string>, a: string)
    requires t == [] || t == [a]
    ensures IsSubseq(t, [a])
  {
    assert [a][1..] == [];
    if t != [] {
      assert t[1..] == [];
    }
  }

  lemma TwoTails(k0: seq<string>, k1: seq<string>, k2: seq<string>, key: string, other: string)
    requires k0 <= k1 <= k2
    requires k1[|k0|..] == [] || k1[|k0|..] == [key]
    requires k2[|k1|..] == [] || k2[|k1|..] == [other]
    ensures k0 <= k2
    ensures IsSubseq(k2[|k0|..], [key, other])
    ensures forall x | x in k2 && x !in k0 :: x == key || x == other
  {
    var t1 := k1[|k0|..];
    var t2 := k2[|k1|..];
    assert k1 == k0 + t1;
    assert k2 == k1 + t2;
    assert k2[|k0|..] == t1 + t2;
    AtMostOne(t1, key);
    AtMostOne(t2, other);
    SubseqConcat(t1, [key], t2, [other]);
    assert [key] + [other] == [key, other];
  }

  /** One turn of the property loop keeps the keys in place and appends at
      most the property's name and then its `_display` companion; what it
      appends is shown or a link. */
  lemma EmitStep(types: seq<TypeDecl>, interp: string -> string, doc: Value, tree: Option<Tree>, select: string,
                 p: Property, cur: seq<Entry<Value>>)
    requires Acyclic(types)
    ensures Keys(cur) <= Keys(Emit(types, interp, doc, tree, select, p, cur))
    ensures IsSubseq(Keys(Emit(types, interp, doc, tree, select, p, cur))[|Keys(cur)|..], [p.name, p.name + "_display"])
    ensures forall x | x in Keys(Emit(types, interp, doc, tree, select, p, cur)) && x !in Keys(cur) ::
      (x == p.name && (Shown(select, x) || IsLink(p))) ||
      (x == p.name + "_display" && p.kind == ReferenceKind && Shown(select, "_display"))
  {
    var a := Emitted(types, interp, doc, tree, select, p);
    var b := DisplayEmitted(doc, tree, select, p);
    PutIfPair(cur, p.name, a, p.name + "_display", b);
  }

  /** Two appends in a row: the second appended run follows the first. */
  lemma ChainTails(k0: seq<string>, k1: seq<string>, e: seq<string>, own: seq<string>, rest: seq<string>)
    requires k0 <= k1 <= e
    requires IsSubseq(k1[|k0|..], own) && IsSubseq(e[|k1|..], rest)
    ensures k0 <= e && IsSubseq(e[|k0|..], own + rest)
  {
    assert e[|k0|..] == k1[|k0|..] + e[|k1|..];
    SubseqConcat(k1[|k0|..], own, e[|k1|..], rest);
  }

  /** Appending at most `key` keeps every key in `allowed` when `key` is. */
  lemma GrowWithin(k0: seq<string>, k1: seq<string>, key: string, allowed: set<string>)
    requires forall x | x in k0 :: x in allowed
    requires k0 <= k1 && (k1[|k0|..] == [] || k1[|k0|..] == [key])
    requires k1[|k0|..] == [key] ==> key in allowed
    ensures forall x | x in k1 :: x in allowed
  {
    assert k1 == k0 + k1[|k0|..];
  }

  lemma PutIfPair(cur: seq<Entry<Value>>, key: string, a: Option<Value>, other: string, b: Option<Value>)
    ensures Keys(cur) <= Keys(PutIf(PutIf(cur, key, a), other, b))
    ensures IsSubseq(Keys(PutIf(PutIf(cur, key, a), other, b))[|Keys(cur)|..], [key, other])
    ensures forall x | x in Keys(PutIf(PutIf(cur, key, a), other, b)) && x !in Keys(cur) ::
      (x == key && a.Some?) || (x == other && b.Some?)
  {
    var once := PutIf(cur, key, a);
    var twice := PutIf(once, other, b);
    if a.Some? {
      PutAppends(cur, key, a.value);
    }
    if b.Some? {
      PutAppends(once, other, b.value);
    }
    TwoTails(Keys(cur), Keys(once), Keys(twice), key, other);
  }

  /** One turn of the property loop changes no key but the property's name
      and, for a reference, its `_display` companion. */
  lemma EmitUntouched(types: seq<TypeDecl>, interp: string -> string, doc: Value, tree: Option<Tree>, select: string,
                      p: Property, cur: seq<Entry<Value>>, x: string)
    requires Acyclic(types)
    requires x != p.name && (p.kind != ReferenceKind || x != p.name + "_display")
    ensures Find(Emit(types, interp, doc, tree, select, p, cur), x) == Find(cur, x)
  {
  }

  /** One turn in front of the rest of the loop: what the turn appends comes
      before what the rest appends. */
  lemma EmitLayoutStep(types: seq<TypeDecl>, interp: string -> string, doc: Value, tree: Option<Tree>,
                       select: string, ps: seq<Property>, k: nat, cur: seq<Entry<Value>>)
    requires Acyclic(types) && k < |ps|
    requires var next := Emit(types, interp, doc, tree, select, ps[k], cur);
      var last := EmitFrom(types, interp, doc, tree, select, ps, k + 1, next);
      Keys(next) <= Keys(last) && IsSubseq(Keys(last)[|Keys(next)|..], Trail(ps, k + 1))
    ensures Keys(cur) <= Keys(EmitFrom(types, interp, doc, tree, select, ps, k, cur))
    ensures IsSubseq(Keys(EmitFrom(types, interp, doc, tree, select, ps, k, cur))[|Keys(cur)|..], Trail(ps, k))
  {
    var next := Emit(types, interp, doc, tree, select, ps[k], cur);
    EmitStep(types, interp, doc, tree, select, ps[k], cur);
    ChainTails(Keys(cur), Keys(next), Keys(EmitFrom(types, interp, doc, tree, select, ps, k + 1, next)),
               [ps[k].name, ps[k].name + "_display"], Trail(ps, k + 1));
  }

  /** The property loop keeps the keys it starts with, in place, and appends
      property names and `_display` companions in the order of the property
      list. */
  lemma {:induction false} EmitFromLayout(types: seq<TypeDecl>, interp: string -> string, doc: Value, tree: Option<Tree>,
                                          select: string, ps: seq<Property>, k: nat, cur: seq<Entry<Value>>)
    requires Acyclic(types)
    ensures Keys(cur) <= Keys(EmitFrom(types, interp, doc, tree, select, ps, k, cur))
    ensures IsSubseq(Keys(EmitFrom(types, interp, doc, tree, select, ps, k, cur))[|Keys(cur)|..], Trail(ps, k))
    decreases |ps| - k
  {
    if k < |ps| {
      EmitFromLayout(types, interp, doc, tree, select, ps, k + 1, Emit(types, interp, doc, tree, select, ps[k], cur));
      EmitLayoutStep(types, interp, doc, tree, select, ps, k, cur);
    } else {
      assert Keys(cur)[|Keys(cur)|..] == [];
      SubseqOfNil(Trail(ps, k));
    }
  }

  /** Every key the property loop adds lies in `allowed` when every shown or
      linking property name, and every `_display` companion it may write,
      does. */
  lemma {:induction false} EmitFromWithin(types: seq<TypeDecl>, interp: string -> string, doc: Value, tree: Option<Tree>,
                                          select: string, ps: seq<Property>, k: nat, cur: seq<Entry<Value>>, allowed: set<string>)
    requires Acyclic(types)
    requires forall x | x in Keys(cur) :: x in allowed
    requires forall j | k <= j < |ps| :: (Shown(select, ps[j].name) || IsLink(ps[j])) ==> ps[j].name in allowed
    requires forall j | k <= j < |ps| :: (ps[j].kind == ReferenceKind && Shown(select, "_display")) ==> ps[j].name + "_display" in allowed
    ensures forall x | x in Keys(EmitFrom(types, interp, doc, tree, select, ps, k, cur)) :: x in allowed
    decreases |ps| - k
  {
    if k < |ps| {
      var next := Emit(types, interp, doc, tree, select, ps[k], cur);
      EmitStep(types, interp, doc, tree, select, ps[k], cur);
      EmitFromWithin(types, interp, doc, tree, select, ps, k + 1, next, allowed);
    }
  }

  /** A key that is neither a property name nor a reference's `_display`
      companion passes the property loop unchanged. */
  lemma {:induction false} EmitFromUntouched(types: seq<TypeDecl>, interp: string -> string, doc: Value, tree: Option<Tree>,
                                             select: string, ps: seq<Property>, k: nat, cur: seq<Entry<Value>>, x: string)
    requires Acyclic(types)
    requires forall j | k <= j < |ps| :: ps[j].name != x && (ps[j].kind != ReferenceKind || ps[j].name + "_display" != x)
    ensures Find(EmitFrom(types, interp, doc, tree, select, ps, k, cur), x) == Find(cur, x)
    decreases |ps| - k
  {
    if k < |ps| {
      EmitUntouched(types, interp, doc, tree, select, ps[k], cur, x);
      EmitFromUntouched(types, interp, doc, tree, select, ps, k + 1, Emit(types, interp, doc, tree, select, ps[k], cur), x);
    }
  }

  /** Copying truthy fields keeps the keys in place and adds only listed names. */
  lemma {:induction false} CopyTruthyKeys(fields: seq<Entry<Value>>, names: seq<string>, k: nat, cur: seq<Entry<Value>>,
                                          allowed: set<string>)
    requires forall x | x in Keys(cur) :: x in allowed
    requires forall j | k <= j < |names| :: names[j] in allowed
    ensures Keys(cur) <= Keys(CopyTruthy(fields, names, k, cur))
    ensures forall x | x in Keys(CopyTruthy(fields, names, k, cur)) :: x in allowed
    decreases |names| - k
  {
    if k < |names| {
      var v := Get(fields, names[k]);
      var next := if Truthy(v) then Put(cur, names[k], v) else cur;
      PutAppends(cur, names[k], v);
      assert Keys(next)[|Keys(cur)|..] == [] || Keys(next)[|Keys(cur)|..] == [names[k]];
      GrowWithin(Keys(cur), Keys(next), names[k], allowed);
      CopyTruthyKeys(fields, names, k + 1, next, allowed);
      var last := CopyTruthy(fields, names, k + 1, next);
      assert CopyTruthy(fields, names, k, cur) == last;
      PrefixTrans(Keys(cur), Keys(next), Keys(last));
    }
  }

  /** Copying truthy fields keeps a key that already holds the document's value. */
  lemma {:induction false} CopyTruthyValue(fields: seq<Entry<Value>>, names: seq<string>, k: nat, cur: seq<Entry<Value>>, x: string)
    requires Find(cur, x) == Some(Get(fields, x))
    ensures Find(CopyTruthy(fields, names, k, cur), x) == Some(Get(fields, x))
    decreases |names| - k
  {
    if k < |names| {
      var v := Get(fields, names[k]);
      CopyTruthyValue(fields, names, k + 1, if Truthy(v) then Put(cur, names[k], v) else cur, x);
    }
  }

  /** The closing loop keeps the keys in place and appends only kept keys,
      in document order. */
  lemma {:induction false} CopyRestKeys(fields: seq<Entry<Value>>, select: string, names: set<string>, keys: seq<string>,
                                        k: nat, cur: seq<Entry<Value>>)
    ensures Keys(cur) <= Keys(CopyRest(fields, select, names, keys, k, cur))
    ensures IsSubseq(Keys(CopyRest(fields, select, names, keys, k, cur))[|Keys(cur)|..], Kept(select, names, keys, k))
    decreases |keys| - k
  {
    if k < |keys| {
      var o := LeftoverValue(fields, select, names, keys[k]);
      var next := PutIf(cur, keys[k], o);
      PutIfTail(cur, keys[k], o);
      CopyRestKeys(fields, select, names, keys, k + 1, next);
      ChainTails(Keys(cur), Keys(next), Keys(CopyRest(fields, select, names, keys, k + 1, next)),
                 if o.Some? then [keys[k]] else [], Kept(select, names, keys, k + 1));
    } else {
      assert Keys(cur)[|Keys(cur)|..] == [];
      SubseqOfNil(Kept(select, names, keys, k));
    }
  }

  /** After the closing loop a key holds what it held before or the
      document's value. */
  lemma {:induction false} CopyRestValue(fields: seq<Entry<Value>>, select: string, names: set<string>, keys: seq<string>,
                                         k: nat, cur: seq<Entry<Value>>, x: string)
    ensures Find(CopyRest(fields, select, names, keys, k, cur), x) == Find(cur, x) ||
            Find(CopyRest(fields, select, names, keys, k, cur), x) == Some(Get(fields, x))
    decreases |keys| - k
  {
    if k < |keys| {
      CopyRestValue(fields, select, names, keys, k + 1, PutIf(cur, keys[k], LeftoverValue(fields, select, names, keys[k])), x);
    }
  }

  /** Every kept key ends up holding the document's value. */
  lemma {:induction false} CopyRestCopies(fields: seq<Entry<Value>>, select: string, names: set<string>, keys: seq<string>,
                                          k: nat, cur: seq<Entry<Value>>, j: nat)
    requires k <= j < |keys| && Shown(select, keys[j]) && keys[j] !in names
    ensures Find(CopyRest(fields, select, names, keys, k, cur), keys[j]) == Some(Get(fields, keys[j]))
    decreases |keys| - k
  {
    var next := PutIf(cur, keys[k], LeftoverValue(fields, select, names, keys[k]));
    if j == k {
      CopyRestValue(fields, select, names, keys, k + 1, next, keys[k]);
    } else {
      CopyRestCopies(fields, select, names, keys, k + 1, next, j);
    }
  }

  /** Every key the closing loop adds lies in `allowed` when every shown key does. */
  lemma {:induction false} CopyRestWithin(fields: seq<Entry<Value>>, select: string, names: set<string>, keys: seq<string>,
                                          k: nat, cur: seq<Entry<Value>>, allowed: set<string>)
    requires forall x | x in Keys(cur) :: x in allowed
    requires forall j | k <= j < |keys| :: Shown(select, keys[j]) ==> keys[j] in allowed
    ensures forall x | x in Keys(CopyRest(fields, select, names, keys, k, cur)) :: x in allowed
    decreases |keys| - k
  {
    if k < |keys| {
      var next := PutIf(cur, keys[k], LeftoverValue(fields, select, names, keys[k]));
      PutAppends(cur, keys[k], Get(fields, keys[k]));
      CopyRestWithin(fields, select, names, keys, k + 1, next, allowed);
    }
  }

  // ---------------------------------------------------------------------------
  // What a reordered document looks like
  // ---------------------------------------------------------------------------

  /** The keys of a reordered document come in three runs: the keys it
      starts with (the built-ins, or `_id` and the selected and linking
      fields), then property names and `_display` companions in the order
      of the property list, which is sorted by `order`, then the document's
      own shown keys that name no property, in the document's order. */
  lemma SortDocumentLayout(types: seq<TypeDecl>, interp: string -> string, doc: Value, typeName: string,
                           includeChild: bool, select: string)
    requires Acyclic(types)
    ensures var fields := FieldsOf(doc);
            var m := ModelTypeName(fields, typeName);
            var ps := OrderedProperties(types, interp, m, includeChild);
            var head := Head(fields, select, TypeProperties(types, interp, m));
            var mid := Keys(EmitFrom(types, interp, doc, ModelTree(types, m), select, ps, 0, head));
            var out := Keys(SortDocument(types, interp, doc, typeName, includeChild, select).fields);
            Keys(head) <= mid <= out &&
            SortedByOrder(ps) &&
            IsSubseq(mid[|Keys(head)|..], Trail(ps, 0)) &&
            IsSubseq(out[|mid|..], Kept(select, Names(ps), Keys(fields), 0))
  {
    var fields := FieldsOf(doc);
    var m := ModelTypeName(fields, typeName);
    var ps := OrderedProperties(types, interp, m, includeChild);
    var head := Head(fields, select, TypeProperties(types, interp, m));
    var emitted := EmitFrom(types, interp, doc, ModelTree(types, m), select, ps, 0, head);
    EmitFromLayout(types, interp, doc, ModelTree(types, m), select, ps, 0, head);
    CopyRestKeys(fields, select, Names(ps), Keys(fields), 0, emitted);
  }

  /** Without `select`, a document with a truthy `_id` starts with the seven
      built-in fields, in their fixed order. */
  lemma BuiltInsFirst(types: seq<TypeDecl>, interp: string -> string, doc: Value, typeName: string, includeChild: bool)
    requires Acyclic(types)
    requires Truthy(Get(FieldsOf(doc), "_id"))
    ensures BuiltInOrder <= Keys(SortDocument(types, interp, doc, typeName, includeChild, "").fields)
  {
    InitialKeys(FieldsOf(doc));
    SortDocumentLayout(types, interp, doc, typeName, includeChild, "");
  }

  lemma InitialKeys(fields: seq<Entry<Value>>)
    requires Truthy(Get(fields, "_id"))
    ensures Keys(Initial(fields, "")) == BuiltInOrder
  {
    BuiltInKeys(Get(fields, "_id"), Get(fields, "_type"), Bool(Truthy(Get(fields, "_default"))),
                Get(fields, "_createdAt"), Get(fields, "_modifiedAt"), Get(fields, "_createdBy"), Get(fields, "_modifiedBy"));
  }

  /** Seven entries under the built-in names, whatever they hold, have the
      built-in order as their keys. */
  lemma BuiltInKeys(a: Value, b: Value, c: Value, d: Value, e: Value, f: Value, g: Value)
    ensures Keys([Entry("_id", a), Entry("_type", b), Entry("_default", c), Entry("_createdAt", d),
                  Entry("_modifiedAt", e), Entry("_createdBy", f), Entry("_modifiedBy", g)]) == BuiltInOrder
  {
    SevenKeys("_id", "_type", "_default", "_createdAt", "_modifiedAt", "_createdBy", "_modifiedBy", a, b, c, d, e, f, g);
  }

  /** The keys a document reordered with `select` may hold. */
  function SelectKeys(select: string, base: seq<Property>, ps: seq<Property>): set<string>
  {
    {"_id"} + (set n | n in SelectList(select)) + LinkSet(base) + LinkSet(ps) +
    (if "_display" in SelectList(select) then DisplaySet(ps) else {})
  }

  /** With `select`, the reordered document holds only `_id`, selected keys,
      reference and collection fields, and `_display` companions when
      `_display` is selected. */
  lemma SelectedKeysOnly(types: seq<TypeDecl>, interp: string -> string, doc: Value, typeName: string,
                         includeChild: bool, select: string)
    requires Acyclic(types) && select != ""
    ensures var m := ModelTypeName(FieldsOf(doc), typeName);
            forall x | x in Keys(SortDocument(types, interp, doc, typeName, includeChild, select).fields) ::
              x in SelectKeys(select, TypeProperties(types, interp, m), OrderedProperties(types, interp, m, includeChild))
  {
    var fields := FieldsOf(doc);
    var m := ModelTypeName(fields, typeName);
    var base := TypeProperties(types, interp, m);
    var ps := OrderedProperties(types, interp, m, includeChild);
    var allowed := SelectKeys(select, base, ps);
    var head := Head(fields, select, base);
    HeadWithin(fields, select, base, ps);
    SelectKeysCover(select, base, ps);
    EmitFromWithin(types, interp, doc, ModelTree(types, m), select, ps, 0, head, allowed);
    var emitted := EmitFrom(types, interp, doc, ModelTree(types, m), select, ps, 0, head);
    CopyRestWithin(fields, select, Names(ps), Keys(fields), 0, emitted, allowed);
  }

  /** With `select`, the fields copied before the property loop are `_id`,
      selected names and link names only. */
  lemma HeadWithin(fields: seq<Entry<Value>>, select: string, base: seq<Property>, ps: seq<Property>)
    requires select != ""
    ensures forall x | x in Keys(Head(fields, select, base)) :: x in SelectKeys(select, base, ps)
  {
    var allowed := SelectKeys(select, base, ps);
    var list := SelectList(select);
    var start := Initial(fields, select);
    var selected := CopyTruthy(fields, list, 0, start);
    CopyTruthyKeys(fields, list, 0, start, allowed);
    CopyTruthyKeys(fields, LinkNames(base), 0, selected, allowed);
  }

  /** With `select`, every name the property loop may write lies in the
      selected keys. */
  lemma SelectKeysCover(select: string, base: seq<Property>, ps: seq<Property>)
    requires select != ""
    ensures forall j | 0 <= j < |ps| :: (Shown(select, ps[j].name) || IsLink(ps[j])) ==> ps[j].name in SelectKeys(select, base, ps)
    ensures forall j | 0 <= j < |ps| :: (ps[j].kind == ReferenceKind && Shown(select, "_display")) ==>
      ps[j].name + "_display" in SelectKeys(select, base, ps)
  {
    var allowed := SelectKeys(select, base, ps);
    forall j | 0 <= j < |ps| && ps[j].kind == ReferenceKind && Shown(select, "_display")
      ensures ps[j].name + "_display" in allowed
    {
      assert ps[j] in ps;
    }
    forall j | 0 <= j < |ps| && (Shown(select, ps[j].name) || IsLink(ps[j]))
      ensures ps[j].name in allowed
    {
      assert ps[j] in ps;
    }
  }

  /** A truthy `_id` that names no property comes first and keeps its value. */
  lemma IdKept(types: seq<TypeDecl>, interp: string -> string, doc: Value, typeName: string,
               includeChild: bool, select: string)
    requires Acyclic(types)
    requires Truthy(Get(FieldsOf(doc), "_id"))
    requires "_id" !in Names(OrderedProperties(types, interp, ModelTypeName(FieldsOf(doc), typeName), includeChild))
    ensures var out := SortDocument(types, interp, doc, typeName, includeChild, select).fields;
            |Keys(out)| > 0 && Keys(out)[0] == "_id" && Get(out, "_id") == Get(FieldsOf(doc), "_id")
  {
    var fields := FieldsOf(doc);
    var m := ModelTypeName(fields, typeName);
    var base := TypeProperties(types, interp, m);
    var ps := OrderedProperties(types, interp, m, includeChild);
    var start := Initial(fields, select);
    assert Keys(start)[0] == "_id" && Find(start, "_id") == Some(Get(fields, "_id"));
    var head := Head(fields, select, base);
    if select != "" {
      var selected := CopyTruthy(fields, SelectList(select), 0, start);
      CopyTruthyValue(fields, SelectList(select), 0, start, "_id");
      CopyTruthyValue(fields, LinkNames(base), 0, selected, "_id");
    }
    assert Find(head, "_id") == Some(Get(fields, "_id"));
    forall j | 0 <= j < |ps|
      ensures ps[j].name != "_id" && (ps[j].kind != ReferenceKind || ps[j].name + "_display" != "_id")
    {
      assert |ps[j].name + "_display"| >= 8;
    }
    EmitFromUntouched(types, interp, doc, ModelTree(types, m), select, ps, 0, head, "_id");
    var emitted := EmitFrom(types, interp, doc, ModelTree(types, m), select, ps, 0, head);
    CopyRestValue(fields, select, Names(ps), Keys(fields), 0, emitted, "_id");
    IdFirst(types, interp, doc, typeName, includeChild, select);
  }

  /** A truthy `_id` is the first key. */
  lemma IdFirst(types: seq<TypeDecl>, interp: string -> string, doc: Value, typeName: string,
                includeChild: bool, select: string)
    requires Acyclic(types)
    requires Truthy(Get(FieldsOf(doc), "_id"))
    ensures var out := SortDocument(types, interp, doc, typeName, includeChild, select).fields;
            |Keys(out)| > 0 && Keys(out)[0] == "_id"
  {
    var fields := FieldsOf(doc);
    var m := ModelTypeName(fields, typeName);
    var base := TypeProperties(types, interp, m);
    var start := Initial(fields, select);
    assert Keys(start)[0] == "_id";
    if select != "" {
      var selected := CopyTruthy(fields, SelectList(select), 0, start);
      CopyTruthyKeys(fields, SelectList(select), 0, start, set x | x in Keys(start) + SelectList(select));
      CopyTruthyKeys(fields, LinkNames(base), 0, selected, set x | x in Keys(selected) + LinkNames(base));
    }
    SortDocumentLayout(types, interp, doc, typeName, includeChild, select);
  }

  /** Every shown key of the document that names no property is copied
      unchanged. */
  lemma NonPropertyKeysCopied(types: seq<TypeDecl>, interp: string -> string, doc: Value, typeName: string,
                              includeChild: bool, select: string, key: string)
    requires Acyclic(types)
    requires Has(FieldsOf(doc), key) && Shown(select, key)
    requires key !in Names(OrderedProperties(types, interp, ModelTypeName(FieldsOf(doc), typeName), includeChild))
    ensures Get(SortDocument(types, interp, doc, typeName, includeChild, select).fields, key) == Get(FieldsOf(doc), key)
  {
    var fields := FieldsOf(doc);
    var m := ModelTypeName(fields, typeName);
    var ps := OrderedProperties(types, interp, m, includeChild);
    var head := Head(fields, select, TypeProperties(types, interp, m));
    var emitted := EmitFrom(types, interp, doc, ModelTree(types, m), select, ps, 0, head);
    var keys := Keys(fields);
    var j :| 0 <= j < |keys| && keys[j] == key;
    CopyRestCopies(fields, select, Names(ps), keys, 0, emitted, j);
  }

  // ---------------------------------------------------------------------------
  // sortDocumentsKeyByPropertyOrder as written
  // ---------------------------------------------------------------------------

  /** `this.sortDocumentKeyPropertyOrder` is not a function of the class. */
  datatype SortError = MissingMethod

  /** sortDocumentsKeyByPropertyOrder as written: its non-array branch calls
      `sortDocumentKeyPropertyOrder`, which the class does not define, so
      anything but an array raises a TypeError. */
  function SortDocumentsAsWritten(types: seq<TypeDecl>, interp: string -> string, data: Value, typeName: string,
                                  includeChild: bool, select: string): (r: Result<Value, SortError>)
    requires Acyclic(types)
  {
    if data.Arr? then Ok(Arr(SortEach(types, interp, data, typeName, includeChild, select))) else Err(MissingMethod)
  }

  /** A single document (the shape the find-one route passes to the single
      version) makes the written method raise, where the corrected one
      returns the reordered document. */
  lemma MissingMethodCounterexample()
    ensures SortDocumentsAsWritten([], x => x, Obj([Entry("_id", Str("a"))]), "", false, "") == Err(MissingMethod)
    ensures SortDocuments([], x => x, Obj([Entry("_id", Str("a"))]), "", false, "").Obj?
  {
  }

  /** The corrected sortDocumentsKeyByPropertyOrder never fails, agrees with
      the written one wherever that one returns, and gives an array of
      reordered documents of the same length for an array and one reordered
      document for anything else. */
  lemma SortDocumentsCorrected(types: seq<TypeDecl>, interp: string -> string, data: Value, typeName: string,
                               includeChild: bool, select: string)
    requires Acyclic(types)
    ensures var w := SortDocumentsAsWritten(types, interp, data, typeName, includeChild, select);
            w.Ok? ==> w.value == SortDocuments(types, interp, data, typeName, includeChild, select)
    ensures var r := SortDocuments(types, interp, data, typeName, includeChild, select);
            if data.Arr? then r.Arr? && |r.items| == |data.items| &&
                              forall k | 0 <= k < |r.items| :: r.items[k].Obj?
            else r == SortDocument(types, interp, data, typeName, includeChild, select)
  {
  }
}
