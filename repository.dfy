// The search-filter builders and the request checks of the repository
// (src/repository/repository.js): the keywords a search text splits into, the
// regular-expression conditions each property contributes, how conditions
// combine into one query, the defaults and the operator check of the search
// options, the filter prepareSearchFilter returns, checkId, and the error
// aggregation of dataValidation.
module Repository {
  import opened Wrappers
  import opened Json
  import opened Strings
  import opened Utils
  import opened Domain
  import opened Validators
  import opened RepositoryBase

  // ---------------------------------------------------------------------------
  // Keywords
  // ---------------------------------------------------------------------------

  /** The search text with every `+` read as a space. */
  function ReplacePlus(s: string): string
  {
    seq(|s|, i requires 0 <= i < |s| => if s[i] == '+' then ' ' else s[i])
  }

  /** The keywords of prepareSearchQueries:
      `search.split('+').join(' ').split(' ')`. */
  function Keywords(search: string): seq<string>
  {
    Split(Join(Split(search, '+'), " "), ' ')
  }

  /** Splitting on `+` and joining with a space replaces each `+` by a space. */
  lemma {:induction false} PlusJoined(s: string)
    ensures Join(Split(s, '+'), " ") == ReplacePlus(s)
  {
    if s != [] {
      var t := Split(s[1..], '+');
      PlusJoined(s[1..]);
      assert ReplacePlus(s) == [if s[0] == '+' then ' ' else s[0]] + ReplacePlus(s[1..]);
      if s[0] == '+' {
        assert Split(s, '+') == [""] + t;
        assert ([""] + t)[1..] == t;
      } else {
        assert Split(s, '+') == [[s[0]] + t[0]] + t[1..];
        if |t| > 1 {
          assert Join(t, " ") == t[0] + " " + Join(t[1..], " ");
          assert ([[s[0]] + t[0]] + t[1..])[1..] == t[1..];
        }
      }
    }
  }

  /** The pieces of a split hold no character the text does not hold. */
  lemma {:induction false} SplitPiecesWithout(s: string, c: char, d: char)
    requires d !in s
    ensures forall k | 0 <= k < |Split(s, c)| :: d !in Split(s, c)[k]
  {
    if s != [] {
      SplitPiecesWithout(s[1..], c, d);
    }
  }

  /** There is at least one keyword; no keyword holds a space or a `+`; and
      joining the keywords with spaces gives back the search text with each
      `+` read as a space, so no character other than the separators is lost. */
  lemma KeywordsSplitText(search: string)
    ensures |Keywords(search)| >= 1
    ensures forall k | 0 <= k < |Keywords(search)| :: ' ' !in Keywords(search)[k] && '+' !in Keywords(search)[k]
    ensures Join(Keywords(search), " ") == ReplacePlus(search)
  {
    PlusJoined(search);
    SplitJoin(ReplacePlus(search), ' ');
    assert [' '] == " ";
    SplitPiecesWithout(ReplacePlus(search), ' ', '+');
  }

  // ---------------------------------------------------------------------------
  // Search options
  // ---------------------------------------------------------------------------

  /** `searchOptions` once prepareSearchFilter has filled in its defaults. */
  datatype SearchOptions = SearchOptions(
    locale: Value,
    operator: Value,
    sensitive: bool,
    turkishSearch: Value,
    inReferenceDisplay: bool,
    ifTreeParent: bool,
    properties: seq<Value>)

  /** `x || (x = fallback)` on the field `key`. */
  function OrDefault(raw: seq<Entry<Value>>, key: string, fallback: Value): Value
  {
    if Truthy(Get(raw, key)) then Get(raw, key) else fallback
  }

  /** `searchOptions.properties`, an array (anything else reads as none). */
  function PropertyList(v: Value): seq<Value>
  {
    if v.Arr? then v.items else []
  }

  /** The defaults as written: every field is filled by `x || (x = d)`, which
      also turns an explicit `searchInReferenceDisplay: false` into `true`. */
  function SearchDefaultsAsWritten(raw: seq<Entry<Value>>, appLocale: string): (r: SearchOptions)
    ensures r.inReferenceDisplay
    ensures !Truthy(Get(raw, "operator")) ==> r.operator == Str("and")
    ensures !Truthy(Get(raw, "locale")) ==> r.locale == Str(appLocale)
  {
    SearchOptions(
      OrDefault(raw, "locale", Str(appLocale)),
      OrDefault(raw, "operator", Str("and")),
      Truthy(Get(raw, "sensitive")),
      Get(raw, "turkishSearch"),
      Truthy(OrDefault(raw, "searchInReferenceDisplay", Bool(true))),
      Truthy(Get(raw, "searchInReferenceDisplayIfIsTreeParent")),
      PropertyList(OrDefault(raw, "properties", Arr([]))))
  }

  /** The defaults with `searchInReferenceDisplay` taking `true` only when
      it is not given (see Findings); every other field as written. */
  function SearchDefaults(raw: seq<Entry<Value>>, appLocale: string): (r: SearchOptions)
    ensures r.inReferenceDisplay <==> IsNil(Get(raw, "searchInReferenceDisplay")) || Truthy(Get(raw, "searchInReferenceDisplay"))
    ensures r.(inReferenceDisplay := true) == SearchDefaultsAsWritten(raw, appLocale)
  {
    var given := Get(raw, "searchInReferenceDisplay");
    SearchDefaultsAsWritten(raw, appLocale).(inReferenceDisplay := IsNil(given) || Truthy(given))
  }

  /** An explicit `false` is lost as written and kept by the corrected defaults. */
  lemma ReferenceDisplayCounterexample()
    ensures SearchDefaultsAsWritten([Entry("searchInReferenceDisplay", Bool(false))], "en").inReferenceDisplay
    ensures !SearchDefaults([Entry("searchInReferenceDisplay", Bool(false))], "en").inReferenceDisplay
  {
    assert Get([Entry("searchInReferenceDisplay", Bool(false))], "searchInReferenceDisplay") == Bool(false);
  }

  datatype SearchError = InvalidOperator | SearchNotText | ConstantReassigned

  /** `["or", "and"].indexOf(searchOptions.operator) == -1` raises. */
  function SearchOperator(opts: SearchOptions): Result<string, SearchError>
  {
    if opts.operator == Str("and") || opts.operator == Str("or") then Ok(opts.operator.s)
    else Err(InvalidOperator)
  }

  /** The operator defaults to `and`; the only operators accepted are `and`
      and `or`, and every other given value is an error. */
  lemma OperatorCheck(raw: seq<Entry<Value>>, appLocale: string)
    ensures !Truthy(Get(raw, "operator")) ==> SearchOperator(SearchDefaults(raw, appLocale)) == Ok("and")
    ensures SearchOperator(SearchDefaults(raw, appLocale)).Ok? ==>
      SearchOperator(SearchDefaults(raw, appLocale)).value in {"and", "or"}
    ensures SearchOperator(SearchDefaults(raw, appLocale)).Err? <==>
      Truthy(Get(raw, "operator")) && Get(raw, "operator") != Str("and") && Get(raw, "operator") != Str("or")
  {
  }

  // ---------------------------------------------------------------------------
  // Conditions and query items
  // ---------------------------------------------------------------------------

  /** One condition: the field `key` matches the trimmed keyword, globally,
      and ignoring case unless the search is case-sensitive. */
  function RegexCondition(key: string, keyword: string, sensitive: bool): Value
  {
    Obj([Entry(key, Obj([Entry("$regex", Str(Trim(keyword))),
                         Entry("$options", Str(if sensitive then "g" else "gi"))]))])
  }

  /** The field a property's conditions test: the property itself for a
      string, its `locale` entry for a localized text, its `_display` shadow
      for a reference; the others are not searched. */
  function ConditionKey(p: Property, locale: string, path: string): (r: Option<string>)
    ensures r.Some? <==> p.kind in {StringKind, LocalizedKind, ReferenceKind}
    ensures r.Some? ==> KeyIn(path, p.name) <= r.value
  {
    match p.kind
    case StringKind => Some(KeyIn(path, p.name))
    case LocalizedKind => Some(KeyIn(path, p.name) + "." + locale)
    case ReferenceKind => Some(KeyIn(path, p.name) + "_display")
    case _ => None
  }

  /** A reference is searched unless it is the tree parent of the type, and
      the tree parent too when asked for or listed in `properties`. */
  predicate ReferenceSearched(opts: SearchOptions, tree: Option<Tree>, p: Property)
  {
    !(tree.Some? && tree.value.parent == p.name) || opts.ifTreeParent || Str(p.name) in opts.properties
  }

  /** The properties prepareSearchConditions gives conditions for. */
  predicate Searched(opts: SearchOptions, tree: Option<Tree>, p: Property)
  {
    p.kind in {StringKind, LocalizedKind} || (p.kind == ReferenceKind && ReferenceSearched(opts, tree, p))
  }

  /** prepareSearchConditions: one condition per keyword for a searched
      property, none otherwise. */
  function SearchConditions(opts: SearchOptions, keywords: seq<string>, tree: Option<Tree>, p: Property,
                            locale: string, path: string): seq<Value>
  {
    var key := ConditionKey(p, locale, path);
    if key.None? || (p.kind == ReferenceKind && !ReferenceSearched(opts, tree, p)) then []
    else seq(|keywords|, k requires 0 <= k < |keywords| => RegexCondition(key.value, keywords[k], opts.sensitive))
  }

  /** What a condition says: the field, the pattern, and whether it is
      case-sensitive. */
  datatype Match = Match(field: string, pattern: string, caseSensitive: bool)

  /** Reads a condition back; None for anything that is not a regular
      expression condition on one field. */
  function ParseCondition(c: Value): Option<Match>
  {
    if c.Obj? && |c.fields| == 1 && c.fields[0].val.Obj? then
      var spec := c.fields[0].val.fields;
      var pattern := Get(spec, "$regex");
      var flags := Get(spec, "$options");
      if pattern.Str? && flags == Str("g") then Some(Match(c.fields[0].key, pattern.s, true))
      else if pattern.Str? && flags == Str("gi") then Some(Match(c.fields[0].key, pattern.s, false))
      else None
    else None
  }

  /** A searched property yields exactly one condition per keyword, an
      unsearched one none; the k-th condition tests the property's field
      against the k-th keyword, trimmed, case-sensitive iff the search is. */
  lemma SearchConditionsMeaning(opts: SearchOptions, keywords: seq<string>, tree: Option<Tree>, p: Property,
                                locale: string, path: string)
    ensures Searched(opts, tree, p) ==> |SearchConditions(opts, keywords, tree, p, locale, path)| == |keywords|
    ensures !Searched(opts, tree, p) ==> SearchConditions(opts, keywords, tree, p, locale, path) == []
    ensures forall k | 0 <= k < |SearchConditions(opts, keywords, tree, p, locale, path)| ::
      ParseCondition(SearchConditions(opts, keywords, tree, p, locale, path)[k]) ==
      Some(Match(ConditionKey(p, locale, path).value, Trim(keywords[k]), opts.sensitive))
  {
    var r := SearchConditions(opts, keywords, tree, p, locale, path);
    forall k | 0 <= k < |r|
      ensures ParseCondition(r[k]) == Some(Match(ConditionKey(p, locale, path).value, Trim(keywords[k]), opts.sensitive))
    {
      RegexConditionParses(ConditionKey(p, locale, path).value, keywords[k], opts.sensitive);
    }
  }

  /** A condition reads back as the field, the trimmed keyword and the flag
      it was built from. */
  lemma RegexConditionParses(key: string, keyword: string, sensitive: bool)
    ensures ParseCondition(RegexCondition(key, keyword, sensitive)) == Some(Match(key, Trim(keyword), sensitive))
  {
    RegexParses(key, Trim(keyword), sensitive);
  }

  lemma RegexParses(key: string, pattern: string, sensitive: bool)
    ensures ParseCondition(Obj([Entry(key, Obj([Entry("$regex", Str(pattern)),
                                                Entry("$options", Str(if sensitive then "g" else "gi"))]))]))
      == Some(Match(key, pattern, sensitive))
  {
    var flags := if sensitive then "g" else "gi";
    GetOfPair("$regex", Str(pattern), "$options", Str(flags));
    assert Str("gi") != Str("g") by {
      assert |"gi"| != |"g"|;
    }
  }

  /** Reading either field of a two-field object. */
  lemma GetOfPair(k1: string, v1: Value, k2: string, v2: Value)
    requires |k1| > 1 && |k2| > 1 && k1[1] != k2[1]
    ensures Get([Entry(k1, v1), Entry(k2, v2)], k1) == v1
    ensures Get([Entry(k1, v1), Entry(k2, v2)], k2) == v2
  {
    var m := [Entry(k1, v1), Entry(k2, v2)];
    assert k1 != k2 by {
      assert k1[1] != k2[1];
    }
    assert m[1..] == [Entry(k2, v2)];
    assert Find(m, k2) == Find(m[1..], k2);
  }

  /** An object combining conditions under `$op`. */
  predicate Combined(op: string, v: Value)
  {
    v.Obj? && |v.fields| == 1 && v.fields[0].key == "$" + op && v.fields[0].val.Arr?
  }

  /** prepareSearchQueryItem: one condition stands alone; several are
      combined under `$and` or `$or`. */
  function QueryItem(op: string, conds: seq<Value>): Value
  {
    if |conds| == 1 then conds[0] else Obj([Entry("$" + op, Arr(conds))])
  }

  /** The conditions a query item stands for. */
  function ItemConditions(op: string, q: Value): seq<Value>
  {
    if Combined(op, q) then q.fields[0].val.items else [q]
  }

  /** A query item gives back its conditions, unless its single condition
      itself looks combined; it is that condition exactly when there is one. */
  lemma QueryItemRoundTrip(op: string, conds: seq<Value>)
    requires |conds| != 1 || !Combined(op, conds[0])
    ensures ItemConditions(op, QueryItem(op, conds)) == conds
    ensures |conds| == 1 ==> QueryItem(op, conds) == conds[0]
    ensures |conds| != 1 ==> Combined(op, QueryItem(op, conds))
  {
  }

  /** No condition looks combined, so every query item built from
      conditions gives them back. */
  lemma ConditionsRoundTrip(op: string, opts: SearchOptions, keywords: seq<string>, tree: Option<Tree>, p: Property,
                            locale: string, path: string)
    ensures ItemConditions(op, QueryItem(op, SearchConditions(opts, keywords, tree, p, locale, path))) ==
            SearchConditions(opts, keywords, tree, p, locale, path)
  {
    var r := SearchConditions(opts, keywords, tree, p, locale, path);
    if |r| == 1 {
      assert r[0].fields[0].val.Obj?;
      QueryItemRoundTrip(op, r);
    }
  }

  // ---------------------------------------------------------------------------
  // The per-property step of prepareSearchQueries
  // ---------------------------------------------------------------------------

  /** `searchProps.indexOf(name) != -1`. */
  predicate Listed(opts: SearchOptions, name: string)
  {
    Str(name) in opts.properties
  }

  /** The `_.filter` of prepareSearchQueries choosing the properties it
      builds conditions for. */
  predicate Searchable(types: seq<TypeDecl>, interp: string -> string, typeName: string, opts: SearchOptions, p: Property)
    requires Acyclic(types)
  {
    var kindSearched := p.kind in {StringKind, LocalizedKind, ReferenceKind};
    if IsReference(types, interp, typeName, p.name) && !opts.inReferenceDisplay then false
    else if IsTreeReference(types, interp, typeName, p.name) then
      opts.ifTreeParent || (|opts.properties| > 0 && Listed(opts, p.name) && kindSearched)
    else if |opts.properties| > 0 then Listed(opts, p.name) && kindSearched
    else kindSearched
  }

  /** The query one property of the type contributes, if any. */
  function PropertyQuery(types: seq<TypeDecl>, interp: string -> string, typeName: string, keywords: seq<string>,
                         opts: SearchOptions, op: string, locale: string, path: string, p: Property): Option<Value>
    requires Acyclic(types)
  {
    if !Searchable(types, interp, typeName, opts, p) then None
    else
      var conds := SearchConditions(opts, keywords, TreeOf(types, typeName), p, locale, path);
      if conds == [] then None else Some(QueryItem(op, conds))
  }

  /** The tree-parent reference of a type is searched exactly when the
      options ask for it or list it. */
  lemma TreeParentQuery(types: seq<TypeDecl>, interp: string -> string, typeName: string, keywords: seq<string>,
                        opts: SearchOptions, op: string, locale: string, path: string, p: Property)
    requires Acyclic(types)
    requires p.kind == ReferenceKind && IsTreeReference(types, interp, typeName, p.name)
    requires opts.inReferenceDisplay && keywords != []
    ensures PropertyQuery(types, interp, typeName, keywords, opts, op, locale, path, p).Some? <==>
            opts.ifTreeParent || Listed(opts, p.name)
  {
    var tree := TreeOf(types, typeName);
    assert tree.Some? && tree.value.parent == p.name;
    if opts.ifTreeParent || Listed(opts, p.name) {
      assert Listed(opts, p.name) ==> |opts.properties| > 0;
      SearchConditionsMeaning(opts, keywords, tree, p, locale, path);
    }
  }

  /** With `searchInReferenceDisplay` off no reference is searched. */
  lemma ReferenceDisplayOff(types: seq<TypeDecl>, interp: string -> string, typeName: string, keywords: seq<string>,
                            opts: SearchOptions, op: string, locale: string, path: string, p: Property)
    requires Acyclic(types)
    requires IsReference(types, interp, typeName, p.name) && !opts.inReferenceDisplay
    ensures PropertyQuery(types, interp, typeName, keywords, opts, op, locale, path, p).None?
  {
  }

  /** Without a `properties` list a text property that is not also a
      reference yields a query of one condition per keyword. */
  lemma TextPropertyQuery(types: seq<TypeDecl>, interp: string -> string, typeName: string, keywords: seq<string>,
                          opts: SearchOptions, op: string, locale: string, path: string, p: Property)
    requires Acyclic(types)
    requires p.kind in {StringKind, LocalizedKind} && !IsReference(types, interp, typeName, p.name)
    requires opts.properties == [] && keywords != []
    ensures PropertyQuery(types, interp, typeName, keywords, opts, op, locale, path, p).Some?
    ensures ItemConditions(op, PropertyQuery(types, interp, typeName, keywords, opts, op, locale, path, p).value) ==
            SearchConditions(opts, keywords, TreeOf(types, typeName), p, locale, path)
    ensures |SearchConditions(opts, keywords, TreeOf(types, typeName), p, locale, path)| == |keywords|
  {
    SearchConditionsMeaning(opts, keywords, TreeOf(types, typeName), p, locale, path);
    ConditionsRoundTrip(op, opts, keywords, TreeOf(types, typeName), p, locale, path);
  }

  // ---------------------------------------------------------------------------
  // prepareSearchFilter
  // ---------------------------------------------------------------------------

  /** The search text: trimmed, then Turkish-folded when the search locale
      is `tr`; the empty text when there is no search. */
  function SearchText(search: Value, opts: SearchOptions): Result<string, SearchError>
  {
    if !Truthy(search) then Ok("")
    else if !search.Str? then Err(SearchNotText)
    else
      var s := Trim(search.s);
      if opts.locale != Str("tr") then Ok(s)
      else if LooselyTrue(opts.turkishSearch) then Ok(Expand(if opts.sensitive then FoldSameCase else FoldAll, s))
      else Ok(Expand(if opts.sensitive then NoFold else FoldTurkishCase, s))
  }

  /** `[type.name].concat(childTypes.map(ct => ct.name))`; an unknown type
      contributes `undefined`. */
  function TypeNames(types: seq<TypeDecl>, typeName: string): seq<Value>
  {
    var children := ChildTypesOf(types, typeName);
    [if FindType(types, typeName).Some? then Str(typeName) else Undefined] +
    seq(|children|, k requires 0 <= k < |children| => Str(types[children[k]].name))
  }

  /** getChildTypes as indices, none when the descent does not end. */
  function ChildTypesOf(types: seq<TypeDecl>, typeName: string): (r: seq<nat>)
    ensures forall k | 0 <= k < |r| :: r[k] < |types|
  {
    var c := ChildTypes(types, typeName);
    if c.Some? then c.value else []
  }

  /** `{ _type: { $in: names } }`. */
  function TypeClause(types: seq<TypeDecl>, typeName: string): Value
  {
    Obj([Entry("$in", Arr(TypeNames(types, typeName)))])
  }

  /** The filter of a non-empty search: the caller's filter over the type
      filter, and-ed with any of the property queries. */
  function SearchConjunction(types: seq<TypeDecl>, typeName: string, filter: seq<Entry<Value>>, queries: seq<Value>): Value
  {
    Obj([Entry("$and", Arr([Obj(TypeConjunct(types, typeName, filter)), Obj([Entry("$or", Arr(queries))])]))])
  }

  /** `_.assignIn(typeFilter, filter)`. */
  function TypeConjunct(types: seq<TypeDecl>, typeName: string, filter: seq<Entry<Value>>): seq<Entry<Value>>
  {
    AssignIn([Entry("_type", TypeClause(types, typeName))], filter)
  }

  /** prepareSearchFilter as written; `queries` stands for what
      prepareSearchQueries builds from the search text. An empty search text
      reaches the assignment to the constant `filter`, which raises. */
  function SearchFilterAsWritten(types: seq<TypeDecl>, typeName: string, filter: seq<Entry<Value>>,
                                 raw: seq<Entry<Value>>, search: Value, appLocale: string, queries: seq<Value>)
    : (r: Result<Value, SearchError>)
    ensures r.Ok? ==> SearchText(search, SearchDefaults(raw, appLocale)).Ok? &&
                      SearchText(search, SearchDefaults(raw, appLocale)).value != ""
  {
    var opts := SearchDefaults(raw, appLocale);
    match SearchOperator(opts)
    case Err(e) => Err(e)
    case Ok(_) =>
      match SearchText(search, opts)
      case Err(e) => Err(e)
      case Ok(text) =>
        if text != "" then Ok(SearchConjunction(types, typeName, filter, queries))
        else Err(ConstantReassigned)
  }

  /** prepareSearchFilter with the empty-search branch returning the
      caller's filter with the type filter assigned over it. */
  function SearchFilter(types: seq<TypeDecl>, typeName: string, filter: seq<Entry<Value>>,
                        raw: seq<Entry<Value>>, search: Value, appLocale: string, queries: seq<Value>): Result<Value, SearchError>
  {
    var opts := SearchDefaults(raw, appLocale);
    match SearchOperator(opts)
    case Err(e) => Err(e)
    case Ok(_) =>
      match SearchText(search, opts)
      case Err(e) => Err(e)
      case Ok(text) =>
        if text != "" then Ok(SearchConjunction(types, typeName, filter, queries))
        else Ok(Obj(AssignIn(filter, [Entry("_type", TypeClause(types, typeName))])))
  }

  /** `_.assignIn` with distinct source keys: a key of the source takes the
      source's value, every other key keeps the target's. */
  lemma {:induction false} AssignInFind(target: seq<Entry<Value>>, source: seq<Entry<Value>>, key: string)
    requires DistinctKeys(source)
    ensures Find(AssignIn(target, source), key) == if key in Keys(source) then Find(source, key) else Find(target, key)
    decreases |source|
  {
    if source != [] {
      var t := Put(target, source[0].key, source[0].val);
      assert DistinctKeys(source[1..]) by {
        forall i, j | 0 <= i < j < |source[1..]| ensures source[1..][i].key != source[1..][j].key {
          assert source[1..][i] == source[i + 1] && source[1..][j] == source[j + 1];
        }
      }
      AssignInFind(t, source[1..], key);
      assert Keys(source) == [source[0].key] + Keys(source[1..]);
      if key == source[0].key {
        assert key !in Keys(source[1..]) by {
          forall i | 0 <= i < |source[1..]| ensures Keys(source[1..])[i] != key {
            assert source[1..][i] == source[i + 1];
          }
        }
      }
    }
  }

  /** The two versions agree wherever the written one returns; the written
      one raises on an empty search text exactly where the corrected one
      returns the plain type filter. */
  lemma SearchFilterAgrees(types: seq<TypeDecl>, typeName: string, filter: seq<Entry<Value>>,
                           raw: seq<Entry<Value>>, search: Value, appLocale: string, queries: seq<Value>)
    ensures SearchFilterAsWritten(types, typeName, filter, raw, search, appLocale, queries).Ok? ==>
            SearchFilter(types, typeName, filter, raw, search, appLocale, queries) ==
            SearchFilterAsWritten(types, typeName, filter, raw, search, appLocale, queries)
    ensures SearchFilterAsWritten(types, typeName, filter, raw, search, appLocale, queries) == Err(ConstantReassigned) <==>
            SearchFilter(types, typeName, filter, raw, search, appLocale, queries).Ok? &&
            SearchText(search, SearchDefaults(raw, appLocale)) == Ok("")
  {
  }

  /** A search of blanks only: the written filter raises, the corrected one
      is the type filter. */
  lemma BlankSearchCounterexample()
    ensures SearchFilterAsWritten([], "note", [], [], Str(" "), "en", []) == Err(ConstantReassigned)
    ensures SearchFilter([], "note", [], [], Str(" "), "en", []) ==
            Ok(Obj([Entry("_type", Obj([Entry("$in", Arr([Undefined]))]))]))
  {
    BlankSearchInputs();
    BlankSearchOutcomes([], "note", [], [], Str(" "), "en", []);
    assert [Entry("_type", TypeClause([], "note"))][1..] == [];
  }

  /** The inputs of that example: an accepted operator, a blank text, and a
      type filter naming only `undefined`. */
  lemma BlankSearchInputs()
    ensures SearchOperator(SearchDefaults([], "en")).Ok?
    ensures SearchText(Str(" "), SearchDefaults([], "en")) == Ok("")
    ensures TypeClause([], "note") == Obj([Entry("$in", Arr([Undefined]))])
  {
    var opts := DefaultOptions();
    assert Trim(" ") == "" by {
      assert TrimStart(" ") == "";
    }
    UnknownTypeClause("note");
  }

  /** Without options the operator is `and` and the locale the application's. */
  lemma DefaultOptions() returns (opts: SearchOptions)
    ensures opts == SearchDefaults([], "en")
    ensures SearchOperator(opts) == Ok("and") && opts.locale == Str("en")
  {
    opts := SearchDefaults([], "en");
    assert Get([], "operator") == Undefined && Get([], "locale") == Undefined;
  }

  /** Without types, the type filter names only `undefined`. */
  lemma UnknownTypeClause(typeName: string)
    ensures TypeClause([], typeName) == Obj([Entry("$in", Arr([Undefined]))])
  {
    assert ChildTypesOf([], typeName) == [];
    assert TypeNames([], typeName) == [Undefined];
  }

  /** With an accepted operator and a blank text, the written filter raises
      and the corrected one is the caller's filter with the type filter
      assigned over it. */
  lemma BlankSearchOutcomes(types: seq<TypeDecl>, typeName: string, filter: seq<Entry<Value>>,
                            raw: seq<Entry<Value>>, search: Value, appLocale: string, queries: seq<Value>)
    requires SearchOperator(SearchDefaults(raw, appLocale)).Ok?
    requires SearchText(search, SearchDefaults(raw, appLocale)) == Ok("")
    ensures SearchFilterAsWritten(types, typeName, filter, raw, search, appLocale, queries) == Err(ConstantReassigned)
    ensures SearchFilter(types, typeName, filter, raw, search, appLocale, queries) ==
            Ok(Obj(AssignIn(filter, [Entry("_type", TypeClause(types, typeName))])))
  {
  }

  /** With an empty search text the corrected filter is the caller's filter
      restricted to the type and its descendants: the type filter overrides
      any `_type` of the caller's, and every other key is the caller's. */
  lemma BlankSearchFilter(types: seq<TypeDecl>, typeName: string, filter: seq<Entry<Value>>,
                          raw: seq<Entry<Value>>, search: Value, appLocale: string, queries: seq<Value>)
    requires SearchOperator(SearchDefaults(raw, appLocale)).Ok?
    requires SearchText(search, SearchDefaults(raw, appLocale)) == Ok("")
    ensures SearchFilter(types, typeName, filter, raw, search, appLocale, queries).Ok?
    ensures var r := SearchFilter(types, typeName, filter, raw, search, appLocale, queries).value;
      r.Obj? && Get(r.fields, "_type") == TypeClause(types, typeName) &&
      forall key | key != "_type" :: Find(r.fields, key) == Find(filter, key)
  {
    var clause := [Entry("_type", TypeClause(types, typeName))];
    assert Keys(clause) == ["_type"];
    forall key ensures Find(AssignIn(filter, clause), key) == if key == "_type" then Some(TypeClause(types, typeName)) else Find(filter, key) {
      AssignInFind(filter, clause, key);
    }
  }

  /** With a search text the corrected filter and-s the caller's filter laid
      over the type filter (the caller's own `_type` wins there) with the
      alternatives of the property queries. */
  lemma TextSearchFilter(types: seq<TypeDecl>, typeName: string, filter: seq<Entry<Value>>,
                         raw: seq<Entry<Value>>, search: Value, appLocale: string, queries: seq<Value>)
    requires DistinctKeys(filter)
    requires SearchOperator(SearchDefaults(raw, appLocale)).Ok?
    requires SearchText(search, SearchDefaults(raw, appLocale)).Ok? && SearchText(search, SearchDefaults(raw, appLocale)).value != ""
    ensures SearchFilter(types, typeName, filter, raw, search, appLocale, queries) == Ok(SearchConjunction(types, typeName, filter, queries))
    ensures Get(TypeConjunct(types, typeName, filter), "_type") ==
            if Has(filter, "_type") then Get(filter, "_type") else TypeClause(types, typeName)
  {
    AssignInFind([Entry("_type", TypeClause(types, typeName))], filter, "_type");
  }

  // ---------------------------------------------------------------------------
  // checkId
  // ---------------------------------------------------------------------------

  datatype IdError = InvalidId | DifferentId

  /** `v == s` in JavaScript for a string `s`: numbers and booleans compare
      as numbers, arrays and objects through their string form. */
  predicate LooselyEqualsText(v: Value, s: string)
  {
    match v
    case Str(t) => t == s
    case Num(n) => IntToString(n) == s
    case Bool(b) => s == (if b then "1" else "0")
    case Arr(_) => ToStr(v) == s
    case Obj(_) => s == "[object Object]"
    case _ => false
  }

  /** checkId: the id must be a UUID, and a document given with a truthy
      `_id` must carry that id. The empty string stands for a missing id. */
  function CheckId(id: string, data: Value, isUUID: string -> bool): (r: Result<(), IdError>)
    ensures !isUUID(id) ==> r == Err(InvalidId)
    ensures r == Err(DifferentId) <==>
      isUUID(id) && !IsNil(data) && Truthy(DocGet(data, "_id")) && !LooselyEqualsText(DocGet(data, "_id"), id)
  {
    if !isUUID(id) then Err(InvalidId)
    else if !IsNil(data) && Truthy(DocGet(data, "_id")) && !LooselyEqualsText(DocGet(data, "_id"), id) then Err(DifferentId)
    else Ok(())
  }

  /** A UUID is accepted with no document, with a document without `_id`
      and with one whose `_id` is that UUID. */
  lemma CheckIdAccepts(id: string, fields: seq<Entry<Value>>, isUUID: string -> bool)
    requires isUUID(id)
    ensures CheckId(id, Null, isUUID).Ok? && CheckId(id, Undefined, isUUID).Ok?
    ensures !Has(fields, "_id") ==> CheckId(id, Obj(fields), isUUID).Ok?
    ensures CheckId(id, Obj(Put(fields, "_id", Str(id))), isUUID).Ok?
  {
  }

  /** A document whose `_id` is another non-empty string is rejected. */
  lemma CheckIdRejects(id: string, fields: seq<Entry<Value>>, other: string, isUUID: string -> bool)
    requires isUUID(id) && other != "" && other != id
    ensures CheckId(id, Obj(Put(fields, "_id", Str(other))), isUUID) == Err(DifferentId)
  {
  }

  // ---------------------------------------------------------------------------
  // dataValidation
  // ---------------------------------------------------------------------------

  /** The problems dataValidation reports, in the order it finds them. */
  datatype Problem =
    | TypeNameMissing
    | ReadOnly
    | TypeNotFound
    | NotObjectData
    | EmptyData
    | UnknownKeys(keys: seq<string>)

  /** `Object.keys(data).length` for a truthy value. */
  function KeyCount(v: Value): nat
  {
    match v
    case Obj(fields) => |fields|
    case Arr(items) => |items|
    case Str(s) => |s|
    case _ => 0
  }

  /** An array of plain objects, which dataValidation accepts as data. */
  predicate ObjectList(v: Value)
  {
    v.Arr? && forall k | 0 <= k < |v.items| :: v.items[k].Obj?
  }

  /** The data is neither a plain object nor an array of plain objects. */
  function ShapeProblem(data: Value): seq<Problem>
  {
    if !data.Obj? && !ObjectList(data) then [NotObjectData] else []
  }

  /** The data has no keys. */
  function EmptyProblem(data: Value): seq<Problem>
  {
    if KeyCount(data) == 0 then [EmptyData] else []
  }

  /** In strict mode, a plain object with keys outside `accepted`. */
  function StrictProblem(strict: bool, data: Value, accepted: set<string>): seq<Problem>
  {
    if data.Obj? && strict && Unaccepted(Keys(data.fields), accepted) != [] then [UnknownKeys(Unaccepted(Keys(data.fields), accepted))]
    else []
  }

  /** The checks on the data itself, made only when asked for and when the
      data is truthy; `accepted` holds the names the strict-mode check lets
      through. */
  function DataProblems(strict: bool, data: Value, accepted: set<string>, validateData: bool): seq<Problem>
  {
    if validateData && Truthy(data) then ShapeProblem(data) + EmptyProblem(data) + StrictProblem(strict, data, accepted)
    else []
  }

  /** The names checkProperties accepts for the type, given which of `_type`
      and `_id` the caller lists. */
  function Accepted(types: seq<TypeDecl>, interp: string -> string, typeName: string, includes: seq<string>): set<string>
    requires Acyclic(types)
  {
    AcceptedNames(types, interp, typeName, "_type" in includes, "_id" in includes)
  }

  /** The problems as written: getType answers `{}` for an unknown name, so
      the type-not-found test never fires (and the child-type test, which
      looks the type name up in a list that starts with it, never does
      either). */
  function ProblemsAsWritten(readonly: bool, typeName: string, strict: bool, data: Value, accepted: set<string>,
                             validateData: bool): seq<Problem>
  {
    (if typeName == "" then [TypeNameMissing] else []) +
    (if readonly then [ReadOnly] else []) +
    DataProblems(strict, data, accepted, validateData)
  }

  /** The problems with an unknown type reported; `accepted` holds the names
      the strict-mode check lets through. */
  function Problems(types: seq<TypeDecl>, readonly: bool, typeName: string, strict: bool, data: Value,
                    accepted: set<string>, validateData: bool): seq<Problem>
  {
    RequestProblems(types, readonly, typeName) + DataProblems(strict, data, accepted, validateData)
  }

  /** The problems with the request itself: no type name, a read-only
      application, a type name no type carries. */
  function RequestProblems(types: seq<TypeDecl>, readonly: bool, typeName: string): seq<Problem>
  {
    (if typeName == "" then [TypeNameMissing] else []) +
    (if readonly then [ReadOnly] else []) +
    (if FindType(types, typeName).None? then [TypeNotFound] else [])
  }

  /** The strict-mode branch of dataValidation pushes exactly StrictProblem. */
  lemma StrictProblemChecked(types: seq<TypeDecl>, interp: string -> string, opts: AppOptions, typeName: string,
                             data: Value, includes: seq<string>)
    requires Acyclic(types)
    ensures var includesType := "_type" in includes;
      var includesId := "_id" in includes;
      StrictProblem(opts.strict, data, Accepted(types, interp, typeName, includes)) ==
      if data.Obj? && !CheckProperties(types, interp, opts, typeName, Keys(data.fields), includesType, includesId)
      then [UnknownKeys(UnknownProperties(types, interp, typeName, Keys(data.fields), includesType, includesId).GetOr([]))]
      else []
  {
    if data.Obj? {
      CheckMatchesUnknown(types, interp, opts, typeName, Keys(data.fields), "_type" in includes, "_id" in includes);
    }
  }

  /** An unknown type name passes the written validation unnoticed. */
  lemma UnknownTypeUnreported(types: seq<TypeDecl>, typeName: string, strict: bool, accepted: set<string>)
    requires typeName != "" && FindType(types, typeName).None?
    ensures ProblemsAsWritten(false, typeName, strict, Null, accepted, false) == []
    ensures Problems(types, false, typeName, strict, Null, accepted, false) == [TypeNotFound]
  {
  }

  /** Each check on the data reports its problem exactly when its condition
      holds, and the unknown keys reported are exactly the keys of the data
      outside `accepted`. */
  lemma DataProblemsMeaning(strict: bool, data: Value, accepted: set<string>, validateData: bool)
    ensures var ps := DataProblems(strict, data, accepted, validateData);
      (NotObjectData in ps <==> validateData && Truthy(data) && !data.Obj? && !ObjectList(data)) &&
      (EmptyData in ps <==> validateData && Truthy(data) && KeyCount(data) == 0) &&
      ((exists ks :: UnknownKeys(ks) in ps) <==>
         validateData && data.Obj? && strict && exists x :: x in Keys(data.fields) && x !in accepted)
    ensures forall ks | UnknownKeys(ks) in DataProblems(strict, data, accepted, validateData) ::
      data.Obj? && forall x :: x in ks <==> x in Keys(data.fields) && x !in accepted
    ensures forall p | p in DataProblems(strict, data, accepted, validateData) :: p.NotObjectData? || p.EmptyData? || p.UnknownKeys?
  {
    if validateData && Truthy(data) {
      var a, b, c := ShapeProblem(data), EmptyProblem(data), StrictProblem(strict, data, accepted);
      assert DataProblems(strict, data, accepted, validateData) == a + b + c;
      assert NotObjectData !in b + c && EmptyData !in a + c;
      assert forall ks :: UnknownKeys(ks) !in a + b;
      StrictProblemMeaning(strict, data, accepted);
    }
  }

  /** The strict-mode check reports the unknown keys, and only when there
      are some. */
  lemma StrictProblemMeaning(strict: bool, data: Value, accepted: set<string>)
    ensures var c := StrictProblem(strict, data, accepted);
      (exists ks :: UnknownKeys(ks) in c) <==> data.Obj? && strict && exists x :: x in Keys(data.fields) && x !in accepted
    ensures forall ks | UnknownKeys(ks) in StrictProblem(strict, data, accepted) ::
      data.Obj? && forall x :: x in ks <==> x in Keys(data.fields) && x !in accepted
  {
    if data.Obj? && strict {
      var u := Unaccepted(Keys(data.fields), accepted);
      if exists x :: x in Keys(data.fields) && x !in accepted {
        var x :| x in Keys(data.fields) && x !in accepted;
        assert x in u;
      }
      if u != [] {
        assert u[0] in Keys(data.fields) && u[0] !in accepted;
      }
    }
  }

  /** Every problem dataValidation knows of is reported exactly when its
      condition holds. */
  lemma ProblemsComplete(types: seq<TypeDecl>, readonly: bool, typeName: string, strict: bool, data: Value,
                         accepted: set<string>, validateData: bool)
    ensures var ps := Problems(types, readonly, typeName, strict, data, accepted, validateData);
      (TypeNameMissing in ps <==> typeName == "") &&
      (ReadOnly in ps <==> readonly) &&
      (TypeNotFound in ps <==> FindType(types, typeName).None?) &&
      (NotObjectData in ps <==> validateData && Truthy(data) && !data.Obj? && !ObjectList(data)) &&
      (EmptyData in ps <==> validateData && Truthy(data) && KeyCount(data) == 0) &&
      ((exists ks :: UnknownKeys(ks) in ps) <==>
         validateData && data.Obj? && strict && exists x :: x in Keys(data.fields) && x !in accepted)
  {
    var rq := RequestProblems(types, readonly, typeName);
    var dp := DataProblems(strict, data, accepted, validateData);
    DataProblemsMeaning(strict, data, accepted, validateData);
    RequestProblemsMeaning(types, readonly, typeName);
    SplitByKind(rq, dp);
  }

  /** In a list of request problems followed by data problems, each kind of
      problem comes from its own part. */
  lemma SplitByKind(rq: seq<Problem>, dp: seq<Problem>)
    requires forall p | p in rq :: p.TypeNameMissing? || p.ReadOnly? || p.TypeNotFound?
    requires forall p | p in dp :: p.NotObjectData? || p.EmptyData? || p.UnknownKeys?
    ensures TypeNameMissing in rq + dp <==> TypeNameMissing in rq
    ensures ReadOnly in rq + dp <==> ReadOnly in rq
    ensures TypeNotFound in rq + dp <==> TypeNotFound in rq
    ensures NotObjectData in rq + dp <==> NotObjectData in dp
    ensures EmptyData in rq + dp <==> EmptyData in dp
    ensures (exists ks :: UnknownKeys(ks) in rq + dp) <==> (exists ks :: UnknownKeys(ks) in dp)
  {
    if ks :| UnknownKeys(ks) in dp {
      assert UnknownKeys(ks) in rq + dp;
    }
    if ks :| UnknownKeys(ks) in rq + dp {
      assert UnknownKeys(ks) !in rq;
    }
  }

  /** The unknown keys reported are exactly the keys of the data outside
      `accepted`. */
  lemma ProblemsUnknownKeys(types: seq<TypeDecl>, readonly: bool, typeName: string, strict: bool, data: Value,
                            accepted: set<string>, validateData: bool)
    ensures forall ks | UnknownKeys(ks) in Problems(types, readonly, typeName, strict, data, accepted, validateData) ::
      data.Obj? && forall x :: x in ks <==> x in Keys(data.fields) && x !in accepted
  {
    DataProblemsMeaning(strict, data, accepted, validateData);
    RequestProblemsMeaning(types, readonly, typeName);
  }

  /** The request checks report each of their problems exactly when its
      condition holds, and nothing else. */
  lemma RequestProblemsMeaning(types: seq<TypeDecl>, readonly: bool, typeName: string)
    ensures var ps := RequestProblems(types, readonly, typeName);
      (TypeNameMissing in ps <==> typeName == "") &&
      (ReadOnly in ps <==> readonly) &&
      (TypeNotFound in ps <==> FindType(types, typeName).None?) &&
      forall p | p in ps :: p.TypeNameMissing? || p.ReadOnly? || p.TypeNotFound?
  {
  }

  /** dataValidation: every problem found is collected, and one aggregate
      error carrying all of them is raised only when there is one. */
  method DataValidation(types: seq<TypeDecl>, interp: string -> string, opts: AppOptions, readonly: bool,
                        typeName: string, data: Value, includes: seq<string>, validateData: bool)
    returns (r: Result<(), seq<Problem>>)
    requires Acyclic(types)
    ensures r.Err? <==> Problems(types, readonly, typeName, opts.strict, data, Accepted(types, interp, typeName, includes), validateData) != []
    ensures r.Err? ==> r.error == Problems(types, readonly, typeName, opts.strict, data, Accepted(types, interp, typeName, includes), validateData)
  {
    var all := CheckRequest(types, readonly, typeName);
    var found := CheckData(types, interp, opts, typeName, data, includes, validateData);
    all := all + found;
    if |all| > 0 {
      r := Err(all);
    } else {
      r := Ok(());
    }
  }

  /** The checks dataValidation makes on the request, in its order. */
  method CheckRequest(types: seq<TypeDecl>, readonly: bool, typeName: string) returns (all: seq<Problem>)
    ensures all == RequestProblems(types, readonly, typeName)
  {
    all := [];
    if typeName == "" {
      all := all + [TypeNameMissing];
    }
    if readonly {
      all := all + [ReadOnly];
    }
    if FindType(types, typeName).None? {
      all := all + [TypeNotFound];
    }
  }

  /** The checks dataValidation makes on the data, in its order. */
  method CheckData(types: seq<TypeDecl>, interp: string -> string, opts: AppOptions,
                   typeName: string, data: Value, includes: seq<string>, validateData: bool)
    returns (all: seq<Problem>)
    requires Acyclic(types)
    ensures all == DataProblems(opts.strict, data, Accepted(types, interp, typeName, includes), validateData)
  {
    var includesType := "_type" in includes;
    var includesId := "_id" in includes;
    all := [];
    if validateData && Truthy(data) {
      if !data.Obj? && !ObjectList(data) {
        all := all + [NotObjectData];
      }
      if KeyCount(data) == 0 {
        all := all + [EmptyData];
      }
      assert all == ShapeProblem(data) + EmptyProblem(data);
      ghost var checked := all;
      if data.Obj? && !CheckProperties(types, interp, opts, typeName, Keys(data.fields), includesType, includesId) {
        var unknown := UnknownProperties(types, interp, typeName, Keys(data.fields), includesType, includesId);
        all := all + [UnknownKeys(unknown.GetOr([]))];
      }
      StrictProblemChecked(types, interp, opts, typeName, data, includes);
    }
  }
}
