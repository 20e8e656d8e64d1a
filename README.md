# apiogenesis core in Dafny

apiogenesis builds a REST API from JSON definitions of an application's
types. Types inherit from one another through a `base` link. A type declares
properties: strings, numbers, localized texts, references to other types,
collections and nested objects. Documents are stored in MongoDB through
mongoose.

This project models the deterministic core of that system and proves its
properties:

- the type resolver of `AppManager`: base chains and `_level` stamping,
  flattened properties, order numbering, child types, property paths and the
  strict-mode key check;
- the schema compiler: storage kinds, field settings, the `_display` shadow
  fields, collection names, and the merge of base field maps;
- the builders of validation rules: argument shaping, validator dispatch,
  handler messages, `multipleUnique` argument parsing, `requiredWith`, and the
  duplicate-lookup condition;
- the string and equality helpers: `isTemplate`, the Turkish regex
  builders, `objectEquals` and `arrayEquals`;
- the repository's document shaping: built-in fields, the tree-populate
  descriptor, populate propagation, key reordering by property order, search
  conditions and filters, `checkId` and `dataValidation`;
- the transaction log: enqueue, `clean`, `run`, `rollback` and the error
  report;
- permission decisions and token extraction in the authentication routes;
- the default-data keying and built-in type selection of `Application`.

Code that changes state in place is modelled as Dafny classes and methods
with loops:

- `AppManager` (`manager.dfy`);
- `Transaction` (`transactions.dfy`);
- `MongooseSchemaBuilder` (`schema_builder.dfy`);
- the in-place argument rewrite of `string.validations.js`;
- the key loops of `prepareKeysAndItems`.

Each method is proved against a specification function, and the properties
are proved as lemmas about that function.

Some modules do not model a source file. They model the JavaScript the code
relies on:

- `Json`: JavaScript values. Objects are ordered entry lists, and
  truthiness and loose equality are modelled.
- `Strings`: `split`, `join` and `trim`.
- `Seqs`: sequence facts shared by the loop proofs.
- `Wrappers`: `Option` and `Result`. `undefined` and thrown errors become
  explicit values.

The model follows the code, not its documentation. Where the code
evidently does not do what its authors meant, the model has two versions:
an `AsWritten` member that shows the discrepancy on a concrete input, and a
corrected member. The properties are proved about the corrected member, and
the rest of the model uses it (see "## Findings").

Several external services become parameters of the functions that use them:

- generated ids (`uuid.v1`);
- `slug`, `pluralize` and `bcrypt` hashing;
- `validator.isUUID` and `isEmail`;
- the clock (`now`);
- the evaluation of templated expressions (`interp`), which the code
  applies only when `isTemplate` holds.

Database answers become inputs:

- one outcome per step of `run`, one reply per step of `rollback`;
- the property lists that `getCondition` reads.

## Model

| member | source | states |
|---|---|---|
| Utils.ArrayEquals | src/helpers/utils.js:39-55 | the loop computes exactly `ArrayMatch` (equal lengths and every item of `x` objectEquals some item of `y`), and a match implies equal lengths |
| Utils.ObjectEqualsReflexive | src/helpers/utils.js:11-37 | objectEquals holds between any well-formed value and itself |
| Utils.OneKeyObjects | src/helpers/utils.js:29-36 | two one-key objects with the same key are objectEquals exactly when their members are |
| Utils.ObjectEqualsOneWay | src/helpers/utils.js:21-36 | `{arr: [0, 0]}` objectEquals `{arr: [0, 1]}`, since each item occurs in the other array |
| Utils.ObjectEqualsOtherWay | src/helpers/utils.js:21-36 | `{arr: [0, 1]}` is not objectEquals `{arr: [0, 0]}` |
| Utils.ObjectEqualsNotSymmetric | src/helpers/utils.js:11-55 | objectEquals is not symmetric: some pair is equal one way and not the other |
| Utils.ArrayMatchPermutation | src/helpers/utils.js:39-55 | arrayEquals accepts any permutation of the same well-formed items |
| Utils.ArrayEqualsTestCase | src/test/main.js:83-92 | `[0,1,2,3]` arrayEquals `[3,2,1,0]` |
| Utils.ArrayEqualsLengthTestCase | src/test/main.js:83-92 | `[0,1,2,3]` does not arrayEquals `[4,3,2,1,0]` |
| Utils.ObjectEqualsTestCase | src/test/main.js:52-81 | `obj1` objectEquals `obj2`: the `arr` members differ only in order |
| Utils.ObjectEqualsExtraKeyTestCase | src/test/main.js:52-81 | `obj1` is not objectEquals `obj3`, which has the extra key `title` |
| Utils.HasPlaceholder | src/helpers/utils.js:114 | the regular expression `\$[A-Za-z0-9_]+` matches exactly when some `$` is followed by an identifier character |
| Utils.NoPlaceholder | src/helpers/utils.js:114 | a string with no `$` before its last character has no placeholder |
| Utils.TemplateExamples | src/helpers/utils.js:112-115 | `$user._id`, `_.now()` and `(1 + 2)` are templates; the empty string is not |
| Utils.TrailingDollarNotTemplate | src/helpers/utils.js:112-115 | a `$` at the very end starts no placeholder |
| Utils.PlainTextNotTemplate | src/helpers/utils.js:112-115 | plain words are not a template |
| Utils.FoldAll | src/helpers/utils.js:122-146 | the case-insensitive table has an entry for exactly these 24 letters |
| Utils.FoldSameCase | src/helpers/utils.js:148-172 | the case-sensitive table has an entry for exactly the same 24 letters |
| Utils.FoldTurkishCase | src/helpers/utils.js:195-210 | the table of getTurkishRegexSearchString has an entry for exactly the 14 Turkish letters and I, i |
| Utils.ExpandAppend | src/helpers/utils.js:176-186 | expanding a concatenation is the concatenation of the expansions |
| Utils.ExpandUntouched | src/helpers/utils.js:176-186 | a search with no letter the table knows comes back unchanged |
| Utils.PassTurkishCharacters | src/helpers/utils.js:121-189 | the loop's result is the character-by-character expansion with the table chosen by `sensitive` |
| Utils.TurkishRegexSearchString | src/helpers/utils.js:194-220 | the loop's result is the expansion with the Turkish table; a case-sensitive search comes back unchanged |
| Domain.FindType | src/builder/app.manager.js:90-92 | `_.find` by name yields the first type of that name, or nothing when no type has it |
| Domain.IsAppType | src/builder/app.manager.js:316-318 | isAppType as a lookup of the name among the types' names; see `Domain.IsAppTypeNames` |
| Domain.IsAppTypeNames | src/builder/app.manager.js:316-318 | isAppType accepts exactly the non-empty names that some type carries |
| Domain.Ancestors | src/builder/app.manager.js:141-173 | the chain walked from a type along `base` links holds only known types and is no longer than the hops allowed |
| Domain.BaseIndices | src/builder/app.manager.js:141-173 | getBaseTypes' result as indices of known types |
| Domain.ChainOf | src/builder/app.manager.js:141-173 | the chain of a named type, nearest base first, as indices of known types |
| Domain.WalkStep | src/builder/app.manager.js:155-164 | one pass of the base loop moves a base onto the chain and continues from that base's own base, without changing the final result |
| Domain.AncestorsMoreFuel | src/builder/app.manager.js:155-164 | a chain the loop completes within some number of hops it completes with more hops too |
| Domain.AncestorsSuffix | src/builder/app.manager.js:155-164 | the chain of each ancestor is the rest of the chain after it |
| Domain.ChainDistinct | src/builder/app.manager.js:141-173 | in a type list without base cycles no type occurs twice on a chain |
| Domain.AncestorsDistinct | src/builder/app.manager.js:141-173 | two positions of a completed chain hold different types |
| Domain.FindTypeSameNames | src/builder/app.manager.js:90-92 | lookup by name depends on the names only, so stamping levels or renumbering does not change it |
| Domain.AncestorsSameShape | src/builder/app.manager.js:141-173 | the chain depends only on names and bases, so it is unchanged by level stamps |
| Domain.StampLevels | src/builder/app.manager.js:153-163 | stamping changes only `_level`, and only on the chain's types |
| Domain.StampLevelsDistinct | src/builder/app.manager.js:153-163 | on a chain without repeats each ancestor ends with level equal to its distance |
| Domain.StampLevelsSnoc | src/builder/app.manager.js:159-162 | stamping one more ancestor is one more single-record stamp after the previous ones |
| Domain.StampLevelsStamped | src/builder/app.manager.js:153-163 | every type on the chain has a level after stamping |
| Domain.Names | src/builder/app.manager.js:373 | the names of a property list: every property's name, and nothing else |
| Domain.InterpolateOptions | src/builder/app.manager.js:113-127 | interpolation of templated options changes at most `type` and `default` |
| Domain.NumberProperty | src/builder/app.manager.js:109-131 | one numbering step gives the property order `k` and keeps its name, kind and owner |
| Domain.RenumberAt | src/builder/app.manager.js:107-131 | the k-th renumbered property is the k-th property numbered `start + k` |
| Domain.OwnPropertiesNumbering | src/builder/app.manager.js:107-131 | numbering keeps every property, its name and kind, in declaration order; properties that all have an order are untouched, otherwise the k-th gets order k + 1; afterwards all have an order and the names are the same |
| Domain.OwnPropertiesIdempotent | src/builder/app.manager.js:107-131 | numbering a second time changes nothing |
| Domain.UnshadowedMembers | src/builder/app.manager.js:246-253 | the filter keeps exactly the base properties whose names the type does not declare |
| Domain.InheritedSpec | src/builder/app.manager.js:241-256 | the inherited part holds exactly the base properties whose names the type does not declare |
| Domain.InsertByOrder | src/builder/app.manager.js:268 | inserting into a sorted list by `order` keeps it sorted and adds exactly the one property |
| Domain.SortByOrder | src/builder/app.manager.js:268 | `_.sortBy(all, ["order"])` is sorted by order, a property without `order` after every one with it, and a permutation of its input |
| Domain.InsertUnorderedLast | src/repository/repository.base.js:776 | a property without `order` is inserted after every other property |
| Domain.InsertOrderedKeeps | src/repository/repository.base.js:776 | inserting a property with an order leaves the properties without one in their order |
| Domain.SortKeepsUnordered | src/repository/repository.base.js:776 | `_.sortBy` keeps the properties without `order` in the order they came |
| Domain.UniqueByName | src/mongoose/schema.builder.js:275-277 | `_.uniqBy` by name keeps only input properties whose names were not seen before |
| Domain.UniqueByNameDistinct | src/mongoose/schema.builder.js:275-277 | no name occurs twice in the result |
| Domain.UniqueByNameKeepsFirsts | src/mongoose/schema.builder.js:275-277 | the first property of every name not already seen is kept |
| Domain.UniqueByNameOnlyFirsts | src/mongoose/schema.builder.js:275-277 | every property kept is the first of its name in the input |
| Domain.UniqueByNameInOrder | src/mongoose/schema.builder.js:275-277 | the result is a subsequence of the input: order is preserved |
| Domain.InheritedMembers | src/builder/app.manager.js:241-256 | a property is inherited exactly when a type on the chain declares it and the type itself does not declare its name |
| Domain.SortedMembers | src/builder/app.manager.js:268 | sorting keeps exactly the same properties |
| Domain.PropertiesMembers | src/builder/app.manager.js:236-269 | getProperties returns the type's own numbered properties plus each ancestor property whose name the type does not redeclare, nothing else; an unknown type gives `[]`; an absent `properties` reads as an empty list (see Findings) |
| Domain.Properties | src/builder/app.manager.js:235-269 | getProperties: an unknown type gives `[]` |
| Domain.PropertiesPermutation | src/builder/app.manager.js:243-268 | for a known type, the result is a permutation of the bases' unshadowed properties followed by the own ones, whatever the orders |
| Domain.PropertiesAsWritten | src/builder/app.manager.js:243-268 | as written, getProperties raises only for a type without `properties`; `Domain.PropertiesAsWrittenAgrees` gives the rest |
| Domain.PropertiesAsWrittenAgrees | src/builder/app.manager.js:243-268 | where getProperties as written returns, it returns the corrected list; in the model it raises exactly for a type without `properties` below a base that has them, and the source raises at least then |
| Domain.AbsentPropertiesCounterexample | src/builder/app.manager.js:243-268 | `dog` without `properties` below `animal` with one property: as written getProperties raises, corrected it gives `dog` the base's property |
| Domain.PropertiesOverride | src/builder/app.manager.js:246-253 | a property in the result whose name the type declares is the type's own |
| Domain.PropertiesOrder | src/builder/app.manager.js:258-268 | when every order is truthy the result is sorted by order and a permutation of the concatenation; otherwise it is the ancestors' properties, furthest first, then the own ones |
| Domain.Storable | src/builder/app.manager.js:271-275 | the storable properties are exactly those whose type is neither `collection` nor `calculated` |
| Domain.StorableIsSubsequence | src/builder/app.manager.js:271-275 | the filter keeps the order of getProperties |
| Domain.FindByName | src/builder/app.manager.js:277-283 | getProperty returns a property of that name from the list, or nothing when no property has it |
| Domain.InheritedTreeSnoc | src/builder/app.manager.js:100-106 | each base with a `tree` option replaces what the earlier bases set |
| Domain.InheritedTreeOptionsOnly | src/builder/app.manager.js:100-106 | only the bases' options decide the inherited tree |
| Domain.EffectiveTree | src/builder/app.manager.js:100-106 | the type's own tree wins; otherwise the tree comes from some type on the chain (see Findings) |
| Domain.InheritedWitness | src/builder/app.manager.js:100-106 | the inherited tree is the tree of the last base that has one |
| Domain.InheritedNone | src/builder/app.manager.js:100-106 | nothing is inherited exactly when no base has a tree |
| Domain.Unaccepted | src/builder/app.manager.js:405-406 | the filtered keys are exactly the keys not in the accepted list |
| Domain.UnknownProperties | src/builder/app.manager.js:391-409 | getUnknownProperties is `null` or a non-empty list |
| Domain.CheckMatchesUnknown | src/builder/app.manager.js:370-409 | outside strict mode checkProperties passes; in strict mode it passes exactly when getUnknownProperties is `null`, and every unknown key is a key of the data |
| Domain.UnacceptedEmpty | src/builder/app.manager.js:386-387 | every key is accepted exactly when the filter leaves nothing |
| Domain.ChildIndices | src/builder/app.manager.js:205-207 | `_.filter(types, {base: name})` yields exactly the types whose base is `name` |
| Domain.Descendants | src/builder/app.manager.js:201-218 | getChildTypes returns known types only |
| Domain.DescendantsAreReachable | src/builder/app.manager.js:201-218 | everything getChildTypes returns descends from the named type |
| Domain.ChildrenIncluded | src/builder/app.manager.js:208-213 | every child of a known type is in the result |
| Domain.ChildBeforeDescendants | src/builder/app.manager.js:209-212 | each child is followed immediately by its own descendants |
| Domain.RootType | src/builder/app.manager.js:175-199 | getRootType yields one of the type's bases; without a default type it is the furthest base, and there is one exactly when the type has bases |
| Domain.PathWalkDefined | src/builder/app.manager.js:340-356 | the walk yields a type as soon as its first segment names a property; only a missing first segment leaves it undefined |
| Domain.PathTypeNameDefined | src/builder/app.manager.js:331-359 | a dotted path has a type exactly when its first segment is a property of the type |
| Domain.InheritedFromChain | src/builder/app.manager.js:100-106 | a tree taken along the base chain is the own tree of some type on it |
| Manager.RootChildNames | src/builder/app.manager.js:26-29 | the root's children are exactly the types whose base is the root type's name |
| Manager.UnderRoot | src/builder/app.manager.js:26-39 | the intended `_root` rule: a baseless type other than the root and its children goes under `_root` when the default type is the root or a root child and the root type exists |
| Manager.UnderRootAgrees | src/builder/app.manager.js:26-39 | wherever the written rule does not throw, the intended rule gives the same answer for every type that is not a root child; the intended rule holds only for a baseless non-root type of an application with a root type |
| Manager.UnderRootAsWritten | src/builder/app.manager.js:26-39 | as written, the `_root` rule throws exactly when a default type other than the root is set and the type has no base (see Findings) |
| Manager.UnderRootCounterexample | src/builder/app.manager.js:26-39 | an application whose default type is a child of `_root` cannot be loaded as written, while the intended rule puts its other baseless types under `_root` |
| Manager.SetOwnerForProperties | src/builder/app.manager.js:65-73 | every declared property gets `_owner` = the type's name; nothing else changes |
| Manager.NormalisedIgnoresLevel | src/builder/app.manager.js:41-48 | a later level stamp by another type's base walk does not undo what the constructor established |
| Manager.InterpolateBase | src/builder/app.manager.js:94-97 | a base that is not a template is kept as it is |
| Manager.WithTree | src/builder/app.manager.js:102-104 | setting a tree makes the options carry it; no tree leaves them unchanged |
| Manager.AppManager.constructor | src/builder/app.manager.js:9-63 | after the constructor loop every type is normalised: `inherit` defaults to true and drops the base, `abstract` defaults to false, a baseless type goes under `_root` exactly when the `_root` rule holds for the declared types and stays baseless otherwise, `public`, and `_owner` on every property |
| Manager.AppManager.NormaliseAt | src/builder/app.manager.js:12-59 | one pass of the constructor loop normalises `types[i]`; other types change at most in `_level` |
| Manager.AppManager.Defaults | src/builder/app.manager.js:14-39 | `inherit: true` drops the base, `inherit` and `abstract` get their defaults, and a baseless type goes under `_root` exactly when the `_root` rule holds; properties, `public` and level are untouched |
| Manager.AppManager.SetLevel | src/builder/app.manager.js:41-48 | `_level` is 0 without a base, otherwise the number of ancestors less one; only levels change |
| Manager.AppManager.GetBaseTypes | src/builder/app.manager.js:141-173 | on an acyclic type list: the chain furthest first, the k-th of n bases with `_level` n - k (the direct base 1), only levels of the chain changed, `[]` for an unknown or baseless type; a cyclic chain yields an error instead of looping |
| Manager.AppManager.StampChain | src/builder/app.manager.js:150-164 | the loop yields the ancestors of the type and leaves each stamped with its distance |
| Manager.AppManager.WalkFrom | src/builder/app.manager.js:155-164 | the while loop over `base` links computes the walk from the first base and the stamped levels, changing nothing else |
| Manager.AppManager.Hop | src/builder/app.manager.js:156-163 | one pass of the loop: the base joins the chain with the next level and the walk continues at its base |
| Manager.AppManager.WalkStart | src/builder/app.manager.js:150-152 | walking from a type's base yields that type's ancestors |
| Manager.AppManager.GetType | src/builder/app.manager.js:89-138 | getType returns the first type of that name with its base interpolated, own properties numbered and effective tree; it writes the numbering back to the shared record, writes the tree into the record's own `options` object when it has one (the shallow `_.extend` shares it), and stamps levels, nothing else; `{}` for an unknown name |
| Manager.AppManager.Resolve | src/builder/app.manager.js:94-131 | the view is built from the record read before the base walk, and the record afterwards holds the numbered properties and, when it has options, the view's options |
| Manager.AppManager.ShareOptions | src/builder/app.manager.js:101-106 | the tree step writes into the record's `options` only when the record has them |
| Manager.SharedAfterView | src/builder/app.manager.js:94-131 | the shared record after getType keeps name, base and level, takes the numbered properties, and the view's options when it had options, none otherwise |
| Manager.AppManager.ViewIsTypeView | src/builder/app.manager.js:93-131 | what getType assembles from the record, the stamped bases and the numbered properties is the intended view of the type |
| Manager.AppManager.NumberOwn | src/builder/app.manager.js:107-131 | numbering is written back to the record, and only to its properties |
| Manager.AppManager.GetChildTypes | src/builder/app.manager.js:201-218 | getChildTypes returns the records of all descendants in the order of the specification function, or gives up when the recursion exceeds its bound |
| Manager.AppManager.GetPathTypeName | src/builder/app.manager.js:331-359 | the loop over path segments computes the specification function `PathTypeName` |
| Manager.ChainLevels | src/builder/app.manager.js:153-173 | after stamping, the k-th of n bases (furthest first) has level n - k |
| Manager.ReversedLevels | src/builder/app.manager.js:171 | reversing the stamped chain yields levels n down to 1 |
| Manager.InheritedIsEffective | src/builder/app.manager.js:100-106 | the tree getType gathers from the stamped bases is the effective tree when the type has none of its own |
| Manager.InheritedTreeOf | src/builder/app.manager.js:100-106 | the loop over the bases, furthest first, keeps the last tree seen |
| Manager.NumberProperties | src/builder/app.manager.js:109-131 | the numbering loop gives the k-th property order k + 1 |
| Manager.ChildTypesInto | src/builder/app.manager.js:201-218 | the recursion appends to `all` exactly the descendants, in order |
| Manager.ChildrenInto | src/builder/app.manager.js:208-213 | the loop over the children appends each child then its own descendants |
| Manager.DescendAllSnoc | src/builder/app.manager.js:208-213 | the descendants of a prefix of the children, one child longer |
| Manager.DescendAllPrefixNone | src/builder/app.manager.js:208-213 | once the recursion gives up on a prefix of the children it gives up on all of them |
| Manager.TreeAsWrittenExample | src/builder/app.manager.js:100-106 | as written, a type with a tree loses it to its base's tree, and a type without options below a tree cannot be read |
| Manager.TreeCorrectedExample | src/builder/app.manager.js:100-106 | the corrected view keeps the own tree and gives a type without options its base's tree |
| Manager.NumberPropertyCounterexample | src/builder/app.manager.js:114-127 | as written, a property without options makes getType throw, and a templated default next to a plain type is not interpolated; the corrected step handles both |
| Manager.CyclicBaseNeverEnds | src/builder/app.manager.js:155-164 | on a two-type base cycle the walk never ends, however many hops are allowed |
| Manager.Collect | src/builder/app.manager.js:500-507 | the collected entries are exactly the accepted keys with their values from the data |
| Manager.BuiltInData | src/builder/app.manager.js:488-520 | corrected getBuiltInData: `_id` exactly with `includeId`, `_type` exactly with `includeTypeName`, `_default` exactly when defined, every key a built-in with the data's value |
| Manager.BuiltInDataCounterexample | src/builder/app.manager.js:514-516 | asking for the id without the type name loses the id as written |
| SchemaBuilder.FieldType | src/mongoose/schema.builder.js:35-47 | the fixed kind-to-storage map: `collection` has none; `string`, `reference` and `calculated` are String; `localized`, `object`, `array` and `mixed` are Mixed; then Number, Boolean and Date |
| SchemaBuilder.DefaultMetaSchema | src/mongoose/schema.builder.js:249-262 | with a default type only `_id`; otherwise exactly the seven built-in fields in order; `_id` is always the same field |
| SchemaBuilder.CollectionName | src/mongoose/schema.builder.js:179-197 | the corrected precedence, one clause per branch: a non-empty explicit name is kept unless the root type is the application root or one of its descendants; a localized option gives `LocalizedName` (the slug of the root's or the type's plural in the locale) or its error; otherwise, including an excluded or empty explicit name, a concrete type gets the plural of its root type's name or its own and an abstract type none (see Findings) |
| SchemaBuilder.CollectionNameCounterexample | src/mongoose/schema.builder.js:165-183 | as written, an explicit name is kept under a root that descends from `_root`, and any explicit name raises without a default type; the corrected rule derives the plural |
| SchemaBuilder.CopyOptionsFind | src/mongoose/schema.builder.js:357-389 | a copied option holds the property's value; every other key is untouched |
| SchemaBuilder.CopyOptionList | src/mongoose/schema.builder.js:359-389 | the loop over one option list computes `CopyOptions` |
| SchemaBuilder.UniqueSetting | src/mongoose/schema.builder.js:337-343 | `unique` is false exactly without `options.unique`; the property's message in the locale wins when present |
| SchemaBuilder.RequiredSetting | src/mongoose/schema.builder.js:349-355 | `required` is false without `options.required`, its own message when truthy, true when neither message exists |
| SchemaBuilder.FixedSettingsFind | src/mongoose/schema.builder.js:326-355 | `ref` and `autopopulate` only for a reference with `options.type`, autopopulate only when an option is `=== true`; `unique`, `uniqueCaseInsensitive` (exactly when `unique.insensitive`) and `required` are always set |
| SchemaBuilder.OptionNameNotFixed | src/mongoose/schema.builder.js:357-389 | no copied option name collides with a fixed setting |
| SchemaBuilder.FixedKeysNotOptions | src/mongoose/schema.builder.js:357-389 | no fixed setting is an option name |
| SchemaBuilder.AllSettingsFind | src/mongoose/schema.builder.js:357-389 | `select` always, the string options only for `string`, `min`/`max` only for `number`, each only when present; other keys hold their fixed setting |
| SchemaBuilder.MetaField | src/mongoose/schema.builder.js:325-403 | a field with the kind's storage, the validators, and a default exactly when the property declares one |
| SchemaBuilder.MetaFieldSettings | src/mongoose/schema.builder.js:330-389 | the field's reference target, autopopulation, unique and required settings, and exactly the options that apply to the kind |
| SchemaBuilder.MetaFieldOf | src/mongoose/schema.builder.js:395-401 | the field is built exactly when getValidators succeeds for the property, from its declared validations (see Left out) |
| SchemaBuilder.CreateMetaSchemaProperty | src/mongoose/schema.builder.js:325-403 | the method with its option loops computes `MetaFieldOf` |
| SchemaBuilder.CreatePropertyField | src/mongoose/schema.builder.js:292-308 | one turn of the property loop computes the specification function's field |
| SchemaBuilder.CreatePrimitiveField | src/mongoose/schema.builder.js:294-296 | a primitive or reference property gets its own field |
| SchemaBuilder.CreateNestedField | src/mongoose/schema.builder.js:297-307 | an object property gets the nested field map, an array property the map in a one-element array, other kinds nothing |
| SchemaBuilder.CreateMetaSchemaProperties | src/mongoose/schema.builder.js:264-323 | the method computes `MetaSchema`: display fields, then property fields |
| SchemaBuilder.CreateDisplayFields | src/mongoose/schema.builder.js:283-287 | the loop computes `DisplayFields` |
| SchemaBuilder.CreatePropertyFields | src/mongoose/schema.builder.js:291-319 | the loop computes `PropertyFields` |
| SchemaBuilder.DisplayFieldsFind | src/mongoose/schema.builder.js:283-287 | every reference property has `name_display`, a String not selected by default |
| SchemaBuilder.PropertyFieldsKeepKeys | src/mongoose/schema.builder.js:291-319 | the property loop never drops a key laid out before |
| SchemaBuilder.DisplayKeys | src/mongoose/schema.builder.js:264-323 | every storable reference property gets its `_display` key in the field map |
| SchemaBuilder.MetaSchemaDistinct | src/mongoose/schema.builder.js:264-323 | the field map has no duplicate key |
| SchemaBuilder.MergeBasesNone | src/mongoose/schema.builder.js:199-227 | without `inherit` no base contributes to the merge |
| SchemaBuilder.NoInheritNoBaseFields | src/mongoose/schema.builder.js:199-235 | a type that does not inherit gets only the built-in fields and its own |
| SchemaBuilder.AssignInFind | src/mongoose/schema.builder.js:206-211 | `_.assignIn`: a source key takes the source's value, other keys keep the target's |
| SchemaBuilder.OwnFieldsWin | src/mongoose/schema.builder.js:209-211 | the type's own fields win over the built-in and inherited ones |
| SchemaBuilder.AllTypesFrom | src/builder/app.manager.js:75-97 | getAllTypes lists, in order, for every type with a non-empty name the record getType returns: the first type of that name with a templated base interpolated |
| SchemaBuilder.AllTypesNamed | src/builder/app.manager.js:75-87 | getAllTypes' list carries exactly the application's non-empty type names |
| SchemaBuilder.ResultsAt | src/mongoose/schema.builder.js:90-98 | the schema built at position `j` of getAllTypes' list is that of the first type of the same name, derived when the view's interpolated base is a non-root base |
| SchemaBuilder.BuiltNames | src/mongoose/schema.builder.js:90-98 | after the first n types there is a schema for exactly their names |
| SchemaBuilder.BuiltModels | src/mongoose/schema.builder.js:127-130 | a name has a model exactly when some entry of that name among the first n of the list is concrete (on getAllTypes' list every entry of a name is the first type of that name, see `BuiltModelsOfApp`) |
| SchemaBuilder.BuiltSchema | src/mongoose/schema.builder.js:90-98 | when types of the same name yield the same result, the schema stored under a type's name is the one built for it |
| SchemaBuilder.BuiltStops | src/mongoose/schema.builder.js:90-98 | a failed build stays failed with the same error |
| SchemaBuilder.BuiltFails | src/mongoose/schema.builder.js:90-98 | a type whose schema fails after a successful prefix fails the whole build with that error |
| SchemaBuilder.BuiltStep | src/mongoose/schema.builder.js:90-130 | one more successful type stores its schema under its name and adds its name to the models when concrete |
| SchemaBuilder.BuiltSchemaOf | src/mongoose/schema.builder.js:90-98 | for every application type name, the stored schema is built from the first type of that name, as derived exactly when its interpolated base is a non-root base |
| SchemaBuilder.BuiltNamesOfApp | src/mongoose/schema.builder.js:76-98 | after a successful build there is a schema for exactly the application's non-empty type names |
| SchemaBuilder.BuiltModelsOfApp | src/mongoose/schema.builder.js:127-130 | a name gets a model exactly when it is an application type name and the first type of that name is not abstract |
| SchemaBuilder.SameNameResult | src/mongoose/schema.builder.js:90-98 | two entries of getAllTypes' list with the same name yield the same schema |
| SchemaBuilder.TypeSchema | src/mongoose/schema.builder.js:91-98 | one turn of buildSchemas over getAllTypes' list computes that position's result |
| SchemaBuilder.MongooseSchemaBuilder.AddSchema | src/mongoose/schema.builder.js:91-130 | one turn stores the schema and model, or reports the error that ends the build |
| SchemaBuilder.MongooseSchemaBuilder.AddSchemas | src/mongoose/schema.builder.js:88-134 | the loop over the types leaves the schemas and models of the specification function's build, or returns its error |
| SchemaBuilder.MongooseSchemaBuilder.BuildSchemas | src/mongoose/schema.builder.js:76-158 | the loop over getAllTypes' list succeeds exactly when the specification function's build does, and then leaves exactly its schemas and models; otherwise it fails with the build's error |
| SchemaBuilder.MongooseSchemaBuilder.constructor | src/mongoose/schema.builder.js:53-72 | the compiler starts with no schemas and no models, before buildSchemas runs |
| SchemaBuilder.NewSchemaBuilder | src/mongoose/schema.builder.js:50-74 | construction is refused when the application, the organisation name or the locale is missing; otherwise it succeeds exactly when the build does and leaves the built schemas and models |
| StringValidations.EffectiveLocale | src/mongoose/string.validations.js:21-22 | the locale is `en` or `tr`, and is the given one exactly when that one is `en` or `tr` |
| StringValidations.InterpolateAll | src/mongoose/string.validations.js:45-50 | the map keeps the length and shapes each argument at its own position |
| StringValidations.SetLocale | src/mongoose/string.validations.js:73-75 | writing `locale` on `null`/`undefined` raises; an object gains the field |
| StringValidations.ArgumentsKeepPositions | src/mongoose/string.validations.js:44-50 | template strings are interpolated; non-strings and plain strings stay unchanged and in place |
| StringValidations.LocaleAppended | src/mongoose/string.validations.js:63-68 | `isAlpha`/`isAlphanumeric` get the locale default as one extra last argument after the interpolated ones |
| StringValidations.LocaleInFirstOption | src/mongoose/string.validations.js:70-78 | `isDecimal`/`isFloat` with an object first argument: that object gets `locale`, all its other fields and all other arguments unchanged |
| StringValidations.LocaleOptionShaped | src/mongoose/string.validations.js:70-78 | the shaped arguments of `isDecimal`/`isFloat` are the interpolated list with `locale` put on the first |
| StringValidations.Extend | src/mongoose/string.validations.js:42-92 | one more entry extends the stored list by one and leaves the earlier entries alone |
| StringValidations.ShapeAllSnoc | src/mongoose/string.validations.js:42-92 | the loop over one more entry is one more step after the loop over the prefix |
| StringValidations.ShapeAllAfterError | src/mongoose/string.validations.js:42-92 | after an error the remaining entries are left as they were |
| StringValidations.ShapeAllStored | src/mongoose/string.validations.js:42-82 | in place, only the arguments of the validations reached change, and absent entries stay absent |
| StringValidations.ExtendStored | src/mongoose/string.validations.js:43-82 | the stored entry is absent exactly when the validation was, and differs from it at most in its arguments |
| StringValidations.ShapeAllCollected | src/mongoose/string.validations.js:83-90 | on success the output holds one record per present validation, in input order, with the message of the locale and `passIfEmpty` |
| StringValidations.ExtendCollected | src/mongoose/string.validations.js:83-90 | one more entry keeps the output equal to the records of the stored entries |
| StringValidations.ShapeEntry | src/mongoose/string.validations.js:43-91 | the loop body writes the shaped arguments back to entry `i` only and yields that entry's record |
| StringValidations.GetValidations | src/mongoose/string.validations.js:15-96 | a null property raises; otherwise the array is rewritten to the specification function's stored entries and the result is its output, for the effective locale |
| StringValidations.ShapeNext | src/mongoose/string.validations.js:42-92 | one turn of the loop extends the run by entry `i`, leaving later entries untouched |
| StringValidations.AfterErrorStored | src/mongoose/string.validations.js:42-92 | once entry `i` raised, the rest of the array is as it was |
| StringValidations.IndexOf | src/mongoose/string.validations.js:99 | `indexOf` is -1 exactly when no item is strictly equal, otherwise the first strictly equal position |
| StringValidations.InList | src/mongoose/string.validations.js:98-100 | `inList` raises without a first argument that has `indexOf`; on an array it holds exactly when some item is strictly equal |
| StringValidations.InListMembership | src/mongoose/string.validations.js:98-100 | for a primitive value and a list, `inList` is membership |
| StringValidations.PropertyNameOrAsterisk | src/mongoose/string.validations.js:112-121 | accepts exactly a string that is `*` or the name of a property of the document's type |
| StringValidations.PropertyNameIfHasTypeAsWritten | src/mongoose/string.validations.js:103-110 | as written every call raises: the manager has no `Properties` method (see Findings) |
| StringValidations.PropertyNameIfHasType | src/mongoose/string.validations.js:103-110 | as intended: accepts exactly a string naming a property of the document's type |
| StringValidations.PropertyNameIfHasTypeCounterexample | src/mongoose/string.validations.js:103-110 | a declared property name is rejected as written and accepted as intended |
| Validators.ValidatorsForOk | src/mongoose/validators.js:30-48 | when every validation is served, one validator per validation in order: the library's for a built-in name, the custom handler otherwise |
| Validators.ValidatorsForFirstUnknown | src/mongoose/validators.js:45-47 | the first validation nobody serves is the one that raises |
| Validators.ValidatorsForErr | src/mongoose/validators.js:30-48 | the loop fails exactly when some validation is not served, and then names the first such validation |
| Validators.FirstUnknown | src/mongoose/validators.js:30-48 | the first validation from `i` on that nobody serves exists when the loop fails |
| Validators.Dispatch | src/mongoose/validators.js:30-48 | the dispatch loop computes `ValidatorsFor` |
| Validators.GetValidators | src/mongoose/validators.js:16-49 | a null property raises; otherwise the shaped validations are dispatched, and a shaping error is passed on |
| Validators.DispatchCounterexample | src/mongoose/validators.js:19-44 | as written, a validation named `validations` (or any global name) is accepted; as intended it is rejected (see Findings) |
| Validators.ReplaceAbsent | src/mongoose/validators.js:56-60 | replacement leaves a message without the pattern unchanged |
| Validators.OccursShift | src/mongoose/validators.js:56-60 | an occurrence in the tail is an occurrence one position later |
| Validators.Paths | src/mongoose/validators.js:60 | `key.path` for each key: raises exactly when some key is null or undefined, and otherwise gives each key's `path` in order |
| Validators.HandlerMessage | src/mongoose/validators.js:53-61 | the message is the template (the validation's own message, else the library's) with `{MODEL}`, then `{PATH}`, then `{KEYS}` replaced globally and case-insensitively by the type name, the property name and the keys text; it raises when the template is not a string or the keys text raises |
| Validators.Template | src/mongoose/validators.js:55 | a truthy own message is used when it is a string and raises otherwise; a falsy one gives the library's message |
| Validators.KeysText | src/mongoose/validators.js:54-60 | keys whose first is a string are joined with `, `; otherwise the `path` of every key is joined, raising exactly when a key is null or undefined; a non-empty string argument raises; an object with a truthy `length` gives `""` unless its `0` is a string |
| Validators.JoinFromTexts | src/mongoose/validators.js:59-60 | `join` writes each item's text, nothing for null and undefined |
| Validators.ReplaceSplit | src/mongoose/validators.js:55-60 | a global case-insensitive replace cuts the text at its leftmost, non-overlapping matches and joins the pieces with one copy of the replacement per match |
| Validators.SplitExists | src/mongoose/validators.js:55-60 | every text has such a cut, with no match left in its last piece |
| Validators.HandlerMessagePlain | src/mongoose/validators.js:53-61 | a message without `{` comes back unchanged |
| Validators.ReplaceAfter | src/mongoose/validators.js:56-60 | characters that cannot start an occurrence are copied over |
| Validators.NotOccurring | src/mongoose/validators.js:56-60 | a pattern with a character the text lacks does not occur |
| Validators.ReplaceAtStart | src/mongoose/validators.js:56-60 | an occurrence at the start is replaced and the search continues after it |
| Validators.HandlerMessageExample | src/mongoose/validators.js:53-61 | `{path}:{KEYS}` for `requiredWith` on `email` of `user` with keys `a`, `b` becomes `email:a, b`: case-insensitive, global |
| Validators.Flags | src/mongoose/validators.js:73-81 | a leading boolean is taken off as `insensitive`, a trailing `turkish` is taken off and turns Turkish folding on; the paths are what is left in between |
| Validators.Unknown | src/mongoose/validators.js:86-95 | the unknown list is empty exactly when every path names a property, and holds only unknown names |
| Validators.ParseUniqueArguments | src/mongoose/validators.js:73-95 | no arguments give no paths; the argument list is accepted exactly when every path is a property name, and otherwise raises listing only unknown paths |
| Validators.Iterated | src/mongoose/validators.js:159-167 | `for…of` over absent arguments visits nothing and over an array visits its items |
| Validators.Characters | src/mongoose/validators.js:165 | a string is iterated character by character |
| Validators.RequiredWith | src/mongoose/validators.js:156-177 | the corrected validator raises exactly when the arguments cannot be iterated; otherwise it is false exactly when every listed key is present and the value is nil or loosely equal to the default, a templated default interpolated first; wherever the written validator decides, it decides the same |
| Validators.RequiredWithCounterexample | src/mongoose/validators.js:171 | the key present and a value set: with a templated default, and with a numeric default, the written validator raises where the intended one decides (see Findings) |
| Validators.EscapeRegexLiteral | src/mongoose/validators.js:209 | escaping the metacharacters gives a literal pattern whose text is the value |
| Validators.FieldSmaller | src/mongoose/validators.js:202-205 | a field read from a document is smaller than it, which bounds the recursion |
| Validators.PathsAgree | src/mongoose/validators.js:220-255 | where the written loop over `paths` gets through it builds the intended entries |
| Validators.Condition | src/mongoose/validators.js:181-258 | the intended getCondition; `Validators.ConditionAgrees` and `Validators.InsensitiveCondition` state what it builds |
| Validators.ConditionAsWritten | src/mongoose/validators.js:181-258 | getCondition as written raises on a populated reference, an object-typed property, and a non-string value with `insensitive`; `Validators.ConditionAgrees` gives the rest |
| Validators.ConditionAgrees | src/mongoose/validators.js:181-258 | where the written getCondition does not raise, it builds the intended condition |
| Validators.InsensitiveCondition | src/mongoose/validators.js:208-214 | an insensitive condition is `^` + escaped value + `$` with flag `i`, and the escaped text matches the value literally |
| Validators.PopulatedReferenceAsWritten | src/mongoose/validators.js:198-200 | as written, a populated reference raises (a `const` is reassigned) |
| Validators.PopulatedReferenceCorrected | src/mongoose/validators.js:198-200 | corrected, the condition compares the reference's `_id` |
| Validators.ObjectPropertyCounterexample | src/mongoose/validators.js:202-205 | an object property raises as written; the intended condition is the one built for the object's own fields |
| Validators.NumberPathAsWritten | src/mongoose/validators.js:233 | as written, a second path whose value is a number raises (`.replace` on a number) |
| Validators.NumberPathCorrected | src/mongoose/validators.js:220-255 | corrected, the number is compared as it is |
| RepositoryBase.AuditKeysDistinct | src/repository/repository.base.js:529-550 | the five audit keys are distinct and differ from `_demo` |
| RepositoryBase.BuiltInDataFields | src/repository/repository.base.js:522-555 | `{}` without `additional`; otherwise `_createdAt`, `_modifiedAt`, `_createdBy`, `_modifiedBy`, `_default` in that order, each copied when present and otherwise now, now, null, null, false; `_demo` exactly when present |
| RepositoryBase.BuiltInDataDistinct | src/repository/repository.base.js:528-552 | the keys of a non-empty record are the audit keys, then `_demo` when present, all distinct |
| RepositoryBase.DeleteDocumentsCheck | src/repository/repository.base.js:437-444 | raises when `ids` is not an array; succeeds exactly when every `_id` is a UUID, with the entries to delete |
| RepositoryBase.SetPopulateFromItems | src/repository/repository.base.js:685-691 | the list keeps its length and order, each item processed by setPopulateItemProperty |
| RepositoryBase.SetPopulateItemFields | src/repository/repository.base.js:693-701 | `name` is set, every other field but `populate` is untouched, and a nested list is processed in turn |
| RepositoryBase.SetPopulateCarries | src/repository/repository.base.js:685-701 | after a successful run every item at every depth carries the option |
| RepositoryBase.SetPopulateProperty | src/repository/repository.base.js:685-691 | the in-place loop over the array yields the specification function's list; on failure each slot is either untouched or processed |
| RepositoryBase.SetTower | src/repository/repository.base.js:602-615 | setting through `j` nested levels sets inside the bottom level |
| RepositoryBase.EvenStep | src/repository/repository.base.js:603-606 | an even step sets `populate: [{}, parent]` on the bottom children item |
| RepositoryBase.OddStep | src/repository/repository.base.js:607-614 | an odd step replaces the `{}` placeholder by the next children item, completing one more level |
| RepositoryBase.NestingSteps | src/repository/repository.base.js:602 | the loop runs `(maxDepth - 1) * 2` times, an even number, and not at all without `maxDepth` |
| RepositoryBase.TreePopulateOf | src/repository/repository.base.js:557-620 | raises exactly on an empty type name; undefined parent and children without a tree; otherwise the nested descriptor |
| RepositoryBase.PrepareTreePopulateItem | src/repository/repository.base.js:557-620 | the method computes `TreePopulateOf` |
| RepositoryBase.NestLevels | src/repository/repository.base.js:602-615 | the loop leaves `n / 2` full levels above the children item |
| RepositoryBase.SetPlaceholder | src/repository/repository.base.js:603-606 | an even step extends the path by `populate` and sets the placeholder pair there |
| RepositoryBase.SetChildren | src/repository/repository.base.js:607-614 | an odd step extends the path by `[0]` and sets the next children item |
| RepositoryBase.TowerDepth | src/repository/repository.base.js:602-615 | `j` levels add `j` to the depth |
| RepositoryBase.TowerPairs | src/repository/repository.base.js:605 | every level pairs its child with the parent descriptor |
| RepositoryBase.DescriptorDepth | src/repository/repository.base.js:594-615 | with `maxDepth` m at least 1, the children descriptor reaches m levels, each outer one pairing with the parent |
| RepositoryBase.DescriptorFlat | src/repository/repository.base.js:594-600 | without `maxDepth` the children item is the bare `{path, ...childrenOptions}` |
| RepositoryBase.BaseTower | src/repository/repository.base.js:594-615 | a tower over an item without `populate` is one level deeper than its nesting, every level pairing with the parent |
| RepositoryBase.NestingLevels | src/repository/repository.base.js:602 | `(maxDepth - 1) * 2` steps nest `maxDepth - 1` levels |
| DocumentOrder.OrderedProperties | src/repository/repository.base.js:755-776 | the walked list is sorted by `order`, properties without one last; without children it is a permutation of the type's properties whose unordered ones keep their order, with children it holds only the type's and its child types' properties |
| DocumentOrder.LinkNames | src/repository/repository.base.js:758 | the names of exactly the reference and collection properties |
| DocumentOrder.Emitted | src/repository/repository.base.js:778-816 | a property's key is written only when it is shown or a link, and only when the document has it |
| DocumentOrder.DisplayEmitted | src/repository/repository.base.js:781-783 | a `_display` companion is written only after a reference and only when `_display` is shown |
| DocumentOrder.CopyTruthyFields | src/repository/repository.base.js:731-735 | the loop over the selected names computes `CopyTruthy` |
| DocumentOrder.CopyRestFields | src/repository/repository.base.js:818-822 | the closing loop computes `CopyRest` |
| DocumentOrder.AppendChildProperties | src/repository/repository.base.js:767-770 | the loop appends the properties of every child type, in order |
| DocumentOrder.AppendChild | src/repository/repository.base.js:768-769 | one pass appends the properties of one child type |
| DocumentOrder.EmitProperty | src/repository/repository.base.js:779-815 | one turn of the property loop computes `Emit` |
| DocumentOrder.StartDocument | src/repository/repository.base.js:719-776 | `newDoc` before the property loop and the sorted property list match their specification functions |
| DocumentOrder.EmitProperties | src/repository/repository.base.js:778-816 | the property loop computes `EmitFrom` |
| DocumentOrder.SortDocumentKeyByPropertyOrder | src/repository/repository.base.js:718-825 | the method computes `SortDocument` loop by loop |
| DocumentOrder.SortDocumentsKeyByPropertyOrder | src/repository/repository.base.js:703-716 | the method computes the corrected `SortDocuments` (see Findings) |
| DocumentOrder.SortItems | src/repository/repository.base.js:706-710 | the loop replaces every item by its reordering |
| DocumentOrder.SortSlot | src/repository/repository.base.js:708 | one pass replaces item `i` only |
| DocumentOrder.PutAppends | src/repository/repository.base.js:760 | an assignment keeps the existing keys in place and appends at most the new one |
| DocumentOrder.EmitStep | src/repository/repository.base.js:778-816 | one turn keeps the keys in place and appends at most the property's name, then its `_display` companion; what it appends is shown or a link |
| DocumentOrder.EmitUntouched | src/repository/repository.base.js:778-816 | one turn changes no key but the property's name and its `_display` companion |
| DocumentOrder.EmitFromLayout | src/repository/repository.base.js:776-816 | the property loop keeps its starting keys in place and appends names in the order of the sorted list |
| DocumentOrder.EmitFromWithin | src/repository/repository.base.js:778-816 | every key the loop adds lies in any set holding every shown or linking property name and companion |
| DocumentOrder.EmitFromUntouched | src/repository/repository.base.js:778-816 | a key that is neither a property name nor a `_display` companion passes the loop unchanged |
| DocumentOrder.CopyTruthyKeys | src/repository/repository.base.js:731-735 | copying truthy selected fields keeps the keys in place and adds only listed names |
| DocumentOrder.CopyTruthyValue | src/repository/repository.base.js:731-735 | a copied key holds the document's value |
| DocumentOrder.CopyRestKeys | src/repository/repository.base.js:818-822 | the closing loop keeps the keys in place and appends only kept keys, in document order |
| DocumentOrder.CopyRestValue | src/repository/repository.base.js:818-822 | after the closing loop a key holds what it held or the document's value |
| DocumentOrder.CopyRestCopies | src/repository/repository.base.js:818-822 | every shown key that names no property ends up with the document's value |
| DocumentOrder.CopyRestWithin | src/repository/repository.base.js:818-822 | every key the closing loop adds lies in any set holding every shown key |
| DocumentOrder.SortDocumentLayout | src/repository/repository.base.js:718-825 | the reordered keys come in three runs: the starting keys, then names in the order of the list sorted by `order`, then the document's own shown non-property keys in document order |
| DocumentOrder.BuiltInsFirst | src/repository/repository.base.js:738-747 | without `select`, a document with `_id` starts with the seven built-in fields in their fixed order |
| DocumentOrder.InitialKeys | src/repository/repository.base.js:738-747 | the start document without `select` has exactly the built-in keys |
| DocumentOrder.SelectedKeysOnly | src/repository/repository.base.js:722-822 | with `select`, only `_id`, selected keys, reference and collection fields and selected `_display` companions appear |
| DocumentOrder.HeadWithin | src/repository/repository.base.js:722-763 | with `select`, the fields copied before the property loop are `_id`, selected names and link names |
| DocumentOrder.SelectKeysCover | src/repository/repository.base.js:778-816 | with `select`, every name the property loop may write is a selected key |
| DocumentOrder.IdKept | src/repository/repository.base.js:723-747 | a truthy `_id` that names no property comes first with its value |
| DocumentOrder.IdFirst | src/repository/repository.base.js:723-747 | a truthy `_id` is the first key |
| DocumentOrder.NonPropertyKeysCopied | src/repository/repository.base.js:818-822 | every shown key that names no property is copied unchanged |
| DocumentOrder.MissingMethodCounterexample | src/repository/repository.base.js:711-713 | a single document makes the written method raise (it calls a method that does not exist); the corrected one reorders it |
| DocumentOrder.SortDocumentsCorrected | src/repository/repository.base.js:703-716 | the corrected version agrees with the written one wherever that one returns, maps an array item by item, and reorders a single document |
| Repository.PlusJoined | src/repository/repository.js:560 | splitting on `+` and joining with a space replaces each `+` by a space |
| Repository.SplitPiecesWithout | src/repository/repository.js:560-561 | no piece of a split holds the separator or any character absent from the text |
| Repository.KeywordsSplitText | src/repository/repository.js:560-561 | there is at least one keyword, none holds a space or a `+`, and joining them with spaces gives back the text with `+` read as a space |
| Repository.SearchDefaultsAsWritten | src/repository/repository.js:510-522 | the option defaults as written: locale, operator `and`, and `searchInReferenceDisplay` always ending `true` |
| Repository.SearchDefaults | src/repository/repository.js:510-522 | `searchInReferenceDisplay` is true exactly when it is absent or truthy; every other default agrees with the written one |
| Repository.ReferenceDisplayCounterexample | src/repository/repository.js:519 | an explicit `false` is lost as written and kept by the corrected defaults |
| Repository.OperatorCheck | src/repository/repository.js:512-526 | the operator defaults to `and`; it is an error exactly when a given operator is neither `and` nor `or` |
| Repository.ConditionKey | src/repository/repository.js:645-695 | only string, localized and reference properties are searched, on a field under the path that names the property |
| Repository.SearchConditionsMeaning | src/repository/repository.js:645-695 | a searched property gives exactly one condition per keyword, the k-th matching the trimmed k-th keyword on its field with the case flag; an unsearched one gives none |
| Repository.RegexConditionParses | src/repository/repository.js:649-653 | a condition reads back as its field, trimmed keyword and case flag |
| Repository.QueryItemRoundTrip | src/repository/repository.js:631-642 | a query item gives back its conditions; it is the single condition when there is one, otherwise the `$operator` combination |
| Repository.ConditionsRoundTrip | src/repository/repository.js:586-594 | every query item built from a property's conditions gives those conditions back |
| Repository.TreeParentQuery | src/repository/repository.js:571-582 | the tree-parent reference is searched exactly when the options ask for tree parents or list it |
| Repository.ReferenceDisplayOff | src/repository/repository.js:572-573 | with `searchInReferenceDisplay` off no reference is searched |
| Repository.TextPropertyQuery | src/repository/repository.js:571-594 | without a `properties` list a text property that is not a reference yields one condition per keyword |
| Repository.ChildTypesOf | src/repository/repository.js:505-506 | every child type index names a type |
| Repository.AssignInFind | src/repository/repository.js:545-553 | `_.assignIn`: a key of the source takes the source's value, any other keeps the target's |
| Repository.SearchFilterAsWritten | src/repository/repository.js:538-556 | prepareSearchFilter as written returns only for a non-empty search text |
| Repository.SearchFilterAgrees | src/repository/repository.js:502-556 | the written and corrected search filters agree wherever the written one returns; the written one raises exactly on a blank search |
| Repository.BlankSearchCounterexample | src/repository/repository.js:553 | a blank search raises as written; corrected, it is the type filter |
| Repository.BlankSearchFilter | src/repository/repository.js:552-554 | with a blank search the corrected filter is the caller's filter with `_type` replaced by the type filter |
| Repository.TextSearchFilter | src/repository/repository.js:540-550 | with a search text the filter is `$and` of the caller's filter over the type filter and `$or` of the property queries |
| Repository.CheckId | src/repository/repository.js:486-496 | a non-UUID id is rejected; a document is rejected exactly when its truthy `_id` differs loosely from the id |
| Repository.CheckIdAccepts | src/repository/repository.js:486-496 | a UUID is accepted with no document, a document without `_id`, or one whose `_id` is that UUID |
| Repository.CheckIdRejects | src/repository/repository.js:491-494 | a document whose `_id` is another non-empty string is rejected |
| Repository.StrictProblemChecked | src/repository/repository.js:465-478 | the strict-mode branch reports getUnknownProperties exactly when checkProperties fails on object data |
| Repository.UnknownTypeUnreported | src/repository/repository.js:440-445 | as written an unknown type name yields no problem, since getType answers `{}` and the child-type test looks the name up in a list that starts with it; the corrected problems report it |
| Repository.DataProblemsMeaning | src/repository/repository.js:455-479 | each data check reports its problem exactly when its condition holds; the unknown keys are exactly the data's keys outside the accepted ones |
| Repository.StrictProblemMeaning | src/repository/repository.js:465-478 | strict mode reports the unknown keys, and only when there are some |
| Repository.ProblemsComplete | src/repository/repository.js:424-484 | every problem dataValidation knows of is reported exactly when its condition holds |
| Repository.RequestProblemsMeaning | src/repository/repository.js:437-453 | the request checks report each problem exactly when its condition holds, and nothing else |
| Repository.DataValidation | src/repository/repository.js:424-484 | one aggregate error carrying all problems is raised exactly when there is a problem |
| Repository.CheckRequest | src/repository/repository.js:437-453 | the loop of request checks collects exactly the request problems, in order |
| Repository.CheckData | src/repository/repository.js:455-479 | the loop of data checks collects exactly the data problems, in order |
| Transactions.InverseInvolutive | src/mongoose/transactions.js:184-254 | the rollback type of the rollback type is the operation's own type; only an update undoes itself |
| Transactions.OptionsOrDefault | src/mongoose/transactions.js:184-238 | `options = {}` applies exactly when no options are passed |
| Transactions.WithId | src/mongoose/transactions.js:187-189 | the document's `_id` is its truthy one or the new uuid; no other field changes |
| Transactions.UndoReversesWrite | src/mongoose/transactions.js:362-373 | undoing an insert removes the inserted id; undoing an update or removal writes back what the lookup found |
| Transactions.EnqueuedWellFormed | src/mongoose/transactions.js:184-254 | every queued operation is pending with the rollback type inverse to its type; an insert is found by the id it returns |
| Transactions.ErrorReport | src/mongoose/transactions.js:480-487 | the operations up to `rollbackIndex` count as executed, the rest as remaining |
| Transactions.CompletedFrom | src/mongoose/transactions.js:272-323 | the count of operations run executes: all before it succeed and the one at it, if any, fails |
| Transactions.AfterStepsNext | src/mongoose/transactions.js:283-314 | one more step of `run` changes its own operation alone |
| Transactions.SliceEnd | src/mongoose/transactions.js:346-351 | `slice(0, end)` keeps at most the whole array, and exactly `end` elements when `0 <= end` is in range |
| Transactions.WindowGuardRedundant | src/mongoose/transactions.js:350-352 | the `howmany !== rollbackIndex + 1` guard changes nothing |
| Transactions.WindowLength | src/mongoose/transactions.js:346-352 | the rollback window holds at most `howmany` of the executed operations |
| Transactions.WindowNewestFirst | src/mongoose/transactions.js:346-348 | the window holds the operations from `rollbackIndex` down, newest first |
| Transactions.UndoneFrom | src/mongoose/transactions.js:356-396 | the count of undo steps that succeed before the first failure |
| Transactions.MarkedNext | src/mongoose/transactions.js:375-378 | one more corrected undo step changes the operation it undid alone |
| Transactions.MarkedAsWritten | src/mongoose/transactions.js:375-389 | as written, step `k` marks operation `k`, the index in the reversed window; operations past the steps stay untouched |
| Transactions.Transaction.constructor | src/mongoose/transactions.js:42-49 | corrected: the connection is readable where the enqueue calls look, an empty queue, nothing executed, id `""` |
| Transactions.Transaction.AsWritten | src/mongoose/transactions.js:42-49 | as written: no model is reachable through `connection` and `operations` is undefined |
| Transactions.Transaction.Clean | src/mongoose/transactions.js:165-172 | an empty queue, nothing executed, and the created transaction's id when `useDb` |
| Transactions.Transaction.Insert | src/mongoose/transactions.js:184-207 | one pending insert is appended and its id returned; the queue is unchanged on error |
| Transactions.Transaction.Update | src/mongoose/transactions.js:215-231 | one pending update is appended; the queue is unchanged on error |
| Transactions.Transaction.Remove | src/mongoose/transactions.js:238-254 | one pending removal is appended; the queue is unchanged on error |
| Transactions.Transaction.UpdateOperationStatus | src/mongoose/transactions.js:489-491 | only the status of operation `index` changes |
| Transactions.Transaction.TransactionError | src/mongoose/transactions.js:480-487 | executed is `rollbackIndex + 1`, executed plus remaining is the queue length |
| Transactions.Transaction.Run | src/mongoose/transactions.js:265-325 | operations run in order until one fails; executed ones are marked Success and `rollbackIndex` reaches the last; the failing one is marked Error and its error thrown |
| Transactions.Transaction.RunAll | src/mongoose/transactions.js:273-323 | the reduce over the queue ends in the state and result `run` promises |
| Transactions.Transaction.RunStep | src/mongoose/transactions.js:275-321 | one iteration: the operation is applied, its status and `rollbackIndex` follow the outcome, and the error it throws is computed from the index before the step |
| Transactions.Transaction.ExecuteStep | src/mongoose/transactions.js:283-314 | an update or removal keeps what its lookup found; Success moves `rollbackIndex` to the step, Error leaves it |
| Transactions.Transaction.Rollback | src/mongoose/transactions.js:340-398 | the window is undone in order; each undone operation is marked Rollback and `rollbackIndex` moves below it; the failing one is marked ErrorRollback and its error thrown |
| Transactions.Transaction.UndoEach | src/mongoose/transactions.js:356-396 | the undo loop stops at the first rejected undo, in the state `rollback` promises |
| Transactions.Transaction.UndoEachStep | src/mongoose/transactions.js:358-394 | one undo iteration marks operation `top - k` and moves `rollbackIndex` when it resolves |
| Transactions.Transaction.UndoStep | src/mongoose/transactions.js:375-392 | a resolved undo marks the operation Rollback and decrements `rollbackIndex`; a rejected one marks it ErrorRollback |
| Transactions.RollbackAfterRun | src/mongoose/transactions.js:340-352 | after `run` from a clean queue, the default rollback window is exactly the executed operations, newest first |
| Transactions.RunMarksExecuted | src/mongoose/transactions.js:306-307 | every operation run executed is marked Success |
| Transactions.FailureCountsFromClean | src/mongoose/transactions.js:480-487 | from a clean queue a rejected write reports exactly the operations executed before it, and the rest as remaining |
| Transactions.CleanAsWritten | src/mongoose/transactions.js:165-172 | as written `clean()` leaves `rollbackIndex` 0 and, with `useDb`, an undefined transaction id |
| Transactions.FirstFailureAsWritten | src/mongoose/transactions.js:480-487 | as written, a first failing update reports one executed operation though none ran, and `rollback()` undoes it |
| Transactions.RollbackMarksAsWritten | src/mongoose/transactions.js:375-389 | as written, undoing the newest of three operations marks the oldest one Rollback |
| Transactions.Inverse | src/mongoose/transactions.js:184-254 | the rollback type differs from the operation's type except for an update |
| Auth.Header | src/routes/auth.js:21-24 | the first truthy of the four candidates (every earlier one is falsy), else `""` |
| Auth.Token | src/routes/auth.js:27-29 | a non-string header is an error; the token has no whitespace at either end |
| Auth.TokenOfPrepared | src/routes/auth.js:311-319 | the header prepareToken builds gives back the encoded payload |
| Auth.TokenOfBare | src/routes/auth.js:29 | a trimmed token without the `JWT` prefix is taken as it is |
| Auth.PasswordRule | src/routes/auth.js:123-137 | corrected length rule: at most one error |
| Auth.PasswordMinimumOnly | src/routes/auth.js:128-132 | with only a minimum, exactly the lengths below it get `TooShort`; a limit that is NaN rejects nothing |
| Auth.PasswordMaximumOnly | src/routes/auth.js:133-137 | with only a maximum, exactly the lengths above it get `TooLong`; a limit that is NaN rejects nothing |
| Auth.PasswordUnbounded | src/routes/auth.js:123-137 | with neither bound configured, or no length, nothing is reported |
| Auth.StringLimitCompares | src/routes/auth.js:129 | a limit written as the string `"8"` compares as the number 8 |
| Auth.PasswordBounds | src/routes/auth.js:123-127 | with both bounds exactly the lengths within them pass, otherwise one error naming both |
| Auth.PasswordRuleAsWritten | src/routes/auth.js:123-137 | as written the `minLength` branch reads `options.login.password`; when it returns it gives at most one error |
| Auth.MinimumOnlyAsWritten | src/routes/auth.js:128 | a configuration with only a minimum throws as written; corrected, a short password gets one error |
| Auth.LoginValidation | src/routes/auth.js:105-138 | corrected validation (uses the corrected `PasswordRule`): the e-mail and password checks report each problem exactly when it holds, at most two; no error exactly when the e-mail is valid and the password passes the length rule |
| Auth.InsertByCreated | src/routes/auth.js:334 | inserting keeps the list sorted by `_createdAt` and adds exactly the new permission |
| Auth.SortByCreated | src/routes/auth.js:334 | `_.sortBy(permissions, ['_createdAt'])` is sorted and a permutation |
| Auth.SortSorted | src/routes/auth.js:334 | sorting a sorted list changes nothing |
| Auth.FourPatterns | src/routes/auth.js:337-340 | the four literal patterns together are "some permission fits the type and the action" |
| Auth.TwoPatterns | src/routes/auth.js:348-359 | the two literal patterns together are "some permission fits the one field" |
| Auth.IndexIn | src/routes/auth.js:336 | `indexOf` on an array: the first strictly equal index, -1 exactly when absent |
| Auth.IndexInText | src/routes/auth.js:336 | `indexOf` on a string: the first occurrence from the start position, -1 exactly when none |
| Auth.UseIndex | src/routes/auth.js:336-354 | `use.indexOf` exists exactly when `use` is an array or a string |
| Auth.RolePermissionAsWritten | src/routes/auth.js:336-357 | as written: no authorization refuses, an error exactly when `use` has no `indexOf`, and access is only granted when some allow exists |
| Auth.RolePermission | src/routes/auth.js:332-363 | corrected rule: no authorization refuses; an error exactly when `use` has no `indexOf` |
| Auth.DenyWins | src/routes/auth.js:342-345 | corrected: a deny whose type and action each fit, exactly or by `*`, always refuses |
| Auth.AllowNeeded | src/routes/auth.js:336-357 | corrected: access is granted exactly when authorization is set, `use` lists `type` or `action`, some allow fits on the listed fields and no deny does |
| Auth.TypeActionAsWritten | src/routes/auth.js:336-346 | as written, with both criteria past the head, allows agree with the corrected rule and a deny blocks only when all four deny patterns are present |
| Auth.ActionOnlyCounterexample | src/routes/auth.js:336-347 | as written `use: ["action"]` takes the type branch and refuses an action-wide allow the corrected rule grants |
| Auth.DenyAsWritten | src/routes/auth.js:342-345 | as written an exact deny does not override an exact allow |
| Auth.BothCriteriaAsWritten | src/routes/auth.js:336-346 | as written an exact allow grants unless a wildcard deny is present |
| Auth.DenyCorrected | src/routes/auth.js:342-345 | corrected, the same request is refused |
| Auth.DecisionOrderFree | src/routes/auth.js:334-363 | the decision does not depend on the order of the permissions |
| Auth.CheckRolePermission | src/routes/auth.js:332-363 | the role's permissions are sorted in place and the decision is that of the rule |
| Auth.Decisions | src/routes/auth.js:325 | one decision per role, in order |
| Auth.DecisionAt | src/routes/auth.js:325 | the `k`th decision is the rule applied to the `k`th role's permissions |
| Auth.FirstDecisive | src/routes/auth.js:325 | the position of the last role `_.some` visits: every role before it refuses, and it grants or throws unless every role refuses |
| Auth.FirstDecisiveAt | src/routes/auth.js:325 | the first role that does not refuse is the last one visited, and its decision is that of `_.some` |
| Auth.SortedInAlike | src/routes/auth.js:325 | after the search every role keeps its permissions up to order |
| Auth.CheckNextRole | src/routes/auth.js:325 | one turn of `_.some`: the role's permissions are sorted in place, the roles visited before stay sorted, the others untouched; the decision is the `k`th |
| Auth.CheckRoles | src/routes/auth.js:325 | `_.some` over the roles: the decision is `AnyRole` of the decisions, and exactly the roles up to the first that grants or throws have their permissions sorted, the others keep theirs |
| Auth.AnyRoleMeaning | src/routes/auth.js:325 | with several roles, access exactly when some role grants it; an error exactly when there is a role and `use` has no `indexOf` |
| Auth.CheckRole | src/routes/auth.js:325 | one `_.some` step: the role's permissions are sorted by `_createdAt` in place and the decision is the rule's |
| Auth.CheckListedRole | src/routes/auth.js:325 | checking the k-th role sorts its permissions in place, gives the k-th decision and keeps every role's permissions up to order |
| Auth.AnyRoleStep | src/routes/auth.js:325 | an error or a grant decides; a refusal passes to the next role |
| Auth.CheckAuthorization | src/routes/auth.js:321-330 | with `multipleRoles` the any-role decision, the roles up to the deciding one sorted in place and the rest (and an unreached `user.role`) untouched; otherwise the single role's decision with only that role sorted, an error without a role and nothing changed |
| Application.Application.constructor | src/builder/application.js:31-53 | the fields hold the parameters, the application's name and its options |
| Application.Application.SetUser | src/builder/application.js:55-57 | the user is replaced |
| Application.NewApplication | src/builder/application.js:33-34 | construction is refused exactly when the application, the locales, the locale or the organisation name is falsy |
| Application.Contains | src/builder/application.js:398-412 | `use.indexOf(word) != -1` exists exactly for an array or a string, and on an array is membership |
| Application.UserTypes | src/builder/application.js:398-414 | `_user` iff `use` holds `user` or `role`; `_role` and `_permission` iff it holds `role`; `_userrole` iff also `role.multiple == true`; errors exactly where the source would throw |
| Application.CoreTypes | src/builder/application.js:386-396 | `_root` iff a default type is set, `_key` always, `_audit` iff audit is on, in that order |
| Application.BuiltInTypes | src/builder/application.js:386-414 | the whole built-in type list: each type is included exactly under its flag, in the source's order |
| Application.NoAuthorizationTypes | src/builder/application.js:398-414 | a `use` list naming neither `user` nor `role` adds no user-management type |
| Application.WithCache | src/builder/application.js:434-436 | `cache` becomes true when absent; every other option is unchanged |
| Application.FileType | src/builder/application.js:477 | the type a data file names is the file name up to its first `.` (all of it without one) |
| Application.TagItems | src/builder/application.js:474-486 | every item of every file, in place, takes the file's type when it names none |
| Application.TagFile | src/builder/application.js:479-485 | the loop over one file tags each item |
| Application.TaggedMeaning | src/builder/application.js:480-482 | a tagged item keeps its own truthy `_type`, otherwise names the file's type; no other field changes; tagging is idempotent |
| Application.OfFamily | src/builder/application.js:218-219 | the loaded items of one type are exactly those of the type or a child type, in order |
| Application.LoadedItemsMeaning | src/builder/application.js:216-220 | an item is loaded exactly when it is of, or under, a listed type |
| Application.FindKey | src/builder/application.js:231-234 | `_.find`: the first matching key, none exactly when no key matches |
| Application.Keyed | src/builder/application.js:225-248 | each item's `_id` becomes its generated id and no other field changes |
| Application.KeysGrow | src/builder/application.js:237-245 | keys are only appended |
| Application.KeysUnique | src/builder/application.js:231-245 | corrected lookup: every data-file id and type pair has one key |
| Application.ItemHasKey | src/builder/application.js:231-246 | every item has a key carrying its data-file id, its type and its generated id |
| Application.AssignedIdPrefix | src/builder/application.js:225-247 | an item's id depends only on the items before it |
| Application.UniqueFind | src/builder/application.js:231-234 | with unique pairs the lookup finds the one key with the pair |
| Application.SameItemSameId | src/builder/application.js:231-246 | corrected lookup: items with the same data-file id and type get the same generated id |
| Application.DuplicateItemAsWritten | src/builder/application.js:231-234 | as written two items with the same id and type get two keys and two ids |
| Application.DuplicateItemMerged | src/builder/application.js:231-246 | corrected, they share one key and one id |
| Application.KeysAfterNext | src/builder/application.js:236-245 | one more item adds its key exactly when none is found |
| Application.AssignKeys | src/builder/application.js:225-248 | the key loop yields the specification function's keys and keyed items |
| Application.FindRefKey | src/builder/application.js:273-275 | the first key with the referenced id and a type in the referenced family; none exactly when no key fits |
| Application.RewriteFrame | src/builder/application.js:262-287 | a field that is neither a reference nor a display field keeps its value |
| Application.RewritePointsToKey | src/builder/application.js:263-281 | every present reference is rewritten to the generated id of a key with the referenced id and a type of the referenced family |
| Application.DanglingFails | src/builder/application.js:277-279 | a present reference matching no key fails the preparation |
| Application.RewriteItem | src/builder/application.js:261-289 | the loop over one item's references computes the specification function's rewrite |
| Application.Hashed | src/builder/application.js:254-259 | a user item's password is replaced by its hash; other items are untouched |
| Application.RewriteAllMeaning | src/builder/application.js:250-290 | the second loop succeeds exactly when every item's references resolve, and then yields each item rewritten |
| Application.RewriteEach | src/builder/application.js:250-290 | the second loop computes the specification function's rewrite of all items |
| Application.PrepareKeysAndItems | src/builder/application.js:209-298 | no data files give no keys and no items; otherwise the keys and rewritten items of the loaded items |
| Application.PreparedIds | src/builder/application.js:246-281 | every prepared item carries its generated id |

## Left out

- HTTP plumbing is not modelled: the request handlers of `src/routes/auth.js` (`user`, `login` beyond its validation, `checkAuth`), the `res.send` replies, and the other route files. Only the decisions these handlers make are modelled.
- Database work is not modelled: every mongoose query, create, save and count. This covers `createTransaction`, `updateDbTransaction`, `loadDbTransaction`, `removeDbTransaction`, `saveOperations`, `getTransactionId` and `getOperations` of the transaction log, the lookups of `multipleUnique` and `existsReference`, the deletion that follows the argument checks of `baseDeleteDocuments`, and `build`/`createDefaultData` of `Application`. Database answers are inputs to the model.
- Expressions built with `new Function` (`utils.interpolate`, `Repository.interpolate`, `setDisplayName`, `getDefaultScope`) are the parameter `interp`. The model records only when they are called, never what they compute.
- `uuid.v1`, `slug`, `pluralize`, `bcrypt`, `jwt.encode`/`decode`, `validator.isUUID`, `isEmail`, `isJWT` and the clock are parameters with no stated properties.
- File reading in `readSchema` and `readDefaultDataFiles` is not modelled: data files are given as parsed values. In `readSchema`, only the built-in type list and the `cache` default are modelled. The assembly of `schema.types` and the environment files is not.
- Application.BuiltInTypes: the loop at src/builder/application.js:416-424 pushes `foundType` only when it is undefined. That loop and the `schema.types` assembly that reads it are not modelled, so that defect is not reported.
- Repository.PropertyQuery: the query of one property. The recursion of `prepareSearchQueries` into object-typed properties (src/repository/repository.js:596-624) and its write-back of `searchOptions.properties` are not modelled; prepareSearchFilter takes the queries as the parameter `queries`.
- The following members of `AppManager` are not modelled: `getTypeWithChildTypes`, `clearBuiltInData`, `clearObjectData` and `getPathDefaultValue`. They only serve the route handlers. `getAllTypes` is modelled as `SchemaBuilder.AllTypesFrom`, for the list buildSchemas walks; `isAppType` calls it too, see the next line.
- SchemaBuilder.AllTypesFrom: gives each type as getType returns it only in the fields buildSchemas reads: the name, the interpolated base and `abstract`. The template is interpolated by the environment's interpolation function, without getType's default scope. getType's in-place side effects and throws (src/builder/app.manager.js:100-131) are not modelled here either; see the next line. A `null` entry in the type list is not modelled: types are records.
- Domain.IsAppType: modelled as a lookup of the name. In the source, `isAppType` (src/builder/app.manager.js:316-318) calls `getAllTypes`, which runs getType on every type. That numbers the properties of every type in place (lines 107-131), writes `options.tree` into shared options (lines 100-106), stamps levels, and throws for a property without options (line 124) or a type without options under a base with a tree (line 104). None of these side effects or throws is modelled where `isAppType` is called.
- Manager.AppManager.constructor: the `_root` rule calls `isAppType`, so in the source the constructor can also number and re-tree the types it has not reached yet, or throw; the contract that properties only gain `_owner` holds only where that call is not made (as written, when the default type is not the root type, the rule throws before the call).
- Manager.AppManager.Defaults: the same `isAppType` side effects are left out; its "properties untouched" holds for the model only.
- Manager.AppManager.NormaliseAt: the same `isAppType` side effects are left out; "other types change at most in `_level`" holds for the model only.
- Manager.AppManager.GetPathTypeName: each `isAppType` call on a path segment has the same left-out side effects and throws.
- Manager.AppManager.constructor: the final `_level` of a type is not stated. A later type's base walk restamps the levels of its ancestors, so the value left depends on the order of the types.
- Domain.IsReference and Domain.IsTreeReference are predicates without a contract of their own. The search lemmas of `Repository` state what they decide.
- Numbers are unbounded integers: no floating point and no `NaN`. The one exception is the password-length rule, where a limit that does not convert stands for the `NaN` that a comparison turns into `false`.
- Auth.ToNumber: a string limit converts when, trimmed, it is empty or plain decimal digits. Signs, decimal points, exponents, hexadecimal, `Infinity`, and arrays and objects (which convert through their string form) read as `NaN`.
- Loose equality (`==`) is modelled for values of the same primitive kind and for `null`/`undefined`. `_.has` and `_.get` with a dotted path are read as one top-level key.
- Domain.Ancestors, Domain.Descendants and Domain.ChildTypes carry a fuel bound of one step per type (and one more). On an acyclic type list the bound never runs out. On a cycle the functions answer none where the code recurses forever; the Findings show this for the base walk.
- Auth.SortByCreated: `_.sortBy` is modelled as a stable insertion sort on integer `_createdAt` values. Date parsing is not modelled.
- Transactions.Transaction.Run: the persistence of each status change (`updateDbTransaction`) is not modelled. The `rollbackIndex` and statuses it would store are.
- SchemaBuilder.MetaFieldOf: getValidations rewrites a property's `options.validations` in place. It interpolates the arguments and appends the locale to those of `isAlpha` and `isAlphanumeric`. buildSchema rebuilds the fields of every base for each derived type over the same property objects, so these rewrites pile up from one build to the next. Each build here shapes the declared validations afresh, so that accumulation is not modelled.
- SchemaBuilder.PropertyValidators: the same accumulation across builds is not modelled; every call starts from the declared validations.
- Repository.PropertyList: a `properties` search option that is not an array reads as no list. On a string, the code's `indexOf` would test for a substring instead.
- Validators.HandlerMessage: the replacement text is inserted literally. The `$&` and `$1` patterns that `String.prototype.replace` expands in it are not modelled.
- Json.Put: keys keep their insertion order. The integer-like keys that `for…in` visits first, in ascending order, are not modelled.
- Domain.PropertiesAsWrittenAgrees: "raises exactly" is stated for the `[].concat(undefined)` case alone. In the source, getProperties first calls getType, whose own throws (src/builder/app.manager.js:104 and 124) are not part of this function; they are in the Findings rows for those lines.
- Application.PrepareKeysAndItems: items are values. In the source, an item of a child type is found once per listed type it falls under (`load.data: ["animal", "dog"]` loads a dog twice), and both entries are the same object. The first pass then rewrites its `_id` and its references in place, so the second pass finds no key for the rewritten reference and throws "Referenced item not found". The model treats the two entries as independent copies.
- Application.LoadedItems: an item listed under two loaded types occurs twice, as in the source; that the two are one shared object is not modelled.
- Application.RewriteAllMeaning: each entry is rewritten from its own value; the aliasing of repeated entries described above is not modelled.
- StringValidations.GetValidations: the handlers `inList`, `isPropertyNameIfHasType` and `isPropertyNameOrAsteriskIfHasType` are registered once per process (src/mongoose/string.validations.js:24-35). Their message locale and the application, type and property they close over are those of the first call. The model uses the current call's locale and arguments.
- StringValidations.PropertyNameOrAsterisk: decides with the current document's type; in the source the registered handler keeps the application of the first getValidations call.
- RepositoryBase.SetPopulateProperty: on failure the failing item is left as it was. In the source, setPopulateItemProperty sets `populateItem[name]` before it recurses into the nested list, and the items are shared objects, so a nested failure leaves that item, and the nested items before the failing one, already written.
- DocumentOrder.SortDocument: a document that is not an object is read as one with no fields, so the result is `{}` plus what the type's properties give. In the source (src/repository/repository.base.js:818), `for…in` over a string or an array item visits its index keys, so `"ab"` becomes `{"0": "a", "1": "b"}`; a `null` or `undefined` document throws at `doc._id` (lines 723 and 738). Neither case is modelled. The `constructor.name === 'model'` branches (lines 785-790 and 796-803) test for mongoose documents, which JSON values never are, so the model leaves them out.
- DocumentOrder.SortDocumentKeyByPropertyOrder: computes `SortDocument`, so it has the same gaps for string, array, `null` and `undefined` documents and for the `'model'` branches.
- DocumentOrder.SortDocumentsKeyByPropertyOrder: the items of an array, and a lone non-array value, go through `SortDocument`, with the same gaps for string, array, `null` and `undefined` items (reached through lines 794 and 811).
- DocumentOrder.SortItems: replaces each item by its `SortDocument` reordering, with the same gaps for string, array, `null` and `undefined` items.
- Manager.AppManager.GetChildTypes: the model reads the type records and changes nothing. In the source, each `getType` call made while walking the descendants interpolates and stamps the stored record in place (src/builder/app.manager.js:201, via 104-131) and throws on an unknown type (line 124). The same `getType` effects are left out of the callers that reach it: `getChildTypes` and `getType` at src/repository/repository.js:433, 441 and 504-505, and at src/repository/repository.base.js:754-755 and 766.
- Auth.LoginValidation: models the corrected validation. As written, a configuration without both `minLength` and `maxLength` makes the password branch read `options.login.password` (src/routes/auth.js:128). Without `options.login` that read throws, and the `catch` at line 158 answers instead of `_errors`. That path is `Auth.PasswordRuleAsWritten` and the finding below; `LoginValidation` does not return it.
- Concurrency is not modelled: the promise chains of `run` and `rollback` are sequential loops, so the model captures their order and nothing else.

## Findings

| source | as written | input that shows it | evidently intended | confidence | as-written member | corrected member |
|---|---|---|---|---|---|---|
| src/builder/app.manager.js:243-268 | a type without `properties` gathers nothing from its bases, and `[].concat(undefined)` leaves an `undefined` whose `order` is then read, which throws | `dog` without `properties`, based on `animal`, which declares `name` | read an absent list as empty and inherit the bases' properties | not executed | Domain.AbsentPropertiesCounterexample | Domain.PropertiesMembers |
| src/builder/app.manager.js:26-39 | the `_root` rule reads the root's children from `this.types` and the default type from `this.options`, which are never set: no root children, and a default type other than `_root` throws | default type `item` whose base is `_root`, and a baseless type `note` | a baseless type goes under `_root` when the default type is the root or a root child | not executed | Manager.UnderRootCounterexample | Manager.UnderRootAgrees |
| src/builder/app.manager.js:100-106 | every base tree overwrites `options.tree`, even the type's own tree, and a type without `options` throws | a type with its own tree below a base with a tree; a type without options below it | the own tree wins, and a type without a tree inherits the nearest base's tree | not executed | Manager.TreeAsWrittenExample | Domain.EffectiveTree |
| src/builder/app.manager.js:107-131 | `options.default` is read on a property without options, and the default is interpolated only when `options.type` is a template | a string property without options; a date property with default `$now` and type `string` | number every property and interpolate a templated default | not executed | Manager.NumberPropertyCounterexample | Domain.NumberProperty |
| src/builder/app.manager.js:150-164 | the base walk has no visited set | types `a` and `b` whose bases name each other | report a cyclic base chain | not executed | Manager.CyclicBaseNeverEnds | Manager.AppManager.GetBaseTypes |
| src/builder/app.manager.js:511-516 | `_id` is deleted when `includeTypeName` is false, whatever `includeId` says | `includeTypeName` false, `includeId` true | delete `_id` only when `includeId` is false | not executed | Manager.BuiltInDataCounterexample | Manager.BuiltInData |
| src/mongoose/schema.builder.js:165-185 | `rootChildTypeNames` holds type records, so the name lookup never succeeds; without a default type it is undefined and throws | a type naming its collection whose root type is a child of `_root` | an explicit collection name is ignored under `_root` and its children | not executed | SchemaBuilder.CollectionNameCounterexample | SchemaBuilder.CollectionName |
| src/mongoose/string.validations.js:103-110 | calls `manager.Properties`, which does not exist, so every call throws | any declared property name | accept exactly the property names of the document's type | not executed | StringValidations.PropertyNameIfHasTypeCounterexample | StringValidations.PropertyNameIfHasType |
| src/mongoose/validators.js:19-44 | `this[validation.validator]` looks on the global object, where getValidators itself stores `validations` | a validation named `validations` | accept only the built-in and the three custom validators | not executed | Validators.DispatchCounterexample | Validators.ValidatorsForErr |
| src/mongoose/validators.js:156-177 | a templated default is interpolated with no scope, which throws; a truthy default that is not a string throws inside `utils.isTemplate`, which calls `substr` on it | a default `$user`, the listed key present, the value `y`; a default `5` with the value `5` | interpolate with the document's scope, compare any other default as it is | not executed | Validators.RequiredWithCounterexample | Validators.RequiredWith |
| src/mongoose/validators.js:181-258 | `const` bindings `value`, `condition` and `pathValue` are reassigned, and `.replace` is called on a number | a populated reference; an object-typed property; a second path whose value is `7` | compare the reference's `_id`, merge the object's sub-condition, escape only strings; an object-typed path takes its sub-condition from its own `options.type`, where line 226 reads the main property's | not executed | Validators.NumberPathAsWritten | Validators.InsensitiveCondition |
| src/repository/repository.base.js:703-716 | the single-document branch calls a method that does not exist, so a document passed on its own throws; the array branch works | a single document (not an array) | reorder a single document as each array element is reordered | not executed | DocumentOrder.MissingMethodCounterexample | DocumentOrder.SortDocumentsCorrected |
| src/repository/repository.js:519 | the default is assigned whenever the option is falsy, so an explicit `false` becomes `true` | `searchInReferenceDisplay: false` | default to `true` only when absent | not executed | Repository.ReferenceDisplayCounterexample | Repository.SearchDefaults |
| src/repository/repository.js:538-556 | an empty search assigns to the `const filter` and throws; even without that, it returns the unset `searchFilter` | a search of one blank | return the caller's filter with the type filter over it | not executed | Repository.BlankSearchCounterexample | Repository.BlankSearchFilter |
| src/repository/repository.js:433-453 | getType answers `{}` for an unknown name, and the child-type test finds the name in a list that starts with it, so an unknown type is never reported | a type name no type carries | report the unknown type | not executed | Repository.UnknownTypeUnreported | Repository.ProblemsComplete |
| src/mongoose/transactions.js:42-49 | the connection is stored as `_connection` but read as `connection`, and `operations` starts undefined | a new transaction, then `run` and `insert` | a readable connection and an empty queue | not executed | Transactions.Transaction.AsWritten | Transactions.Transaction.constructor |
| src/mongoose/transactions.js:165-172 | `clean` sets `rollbackIndex` to 0, so one operation counts as executed before any ran; with `useDb` the id is the `undefined` that `createTransaction` returns | one update whose write is rejected | -1 for "nothing executed" and the created document's id | not executed | Transactions.FirstFailureAsWritten | Transactions.FailureCountsFromClean |
| src/mongoose/transactions.js:375-389 | the status is written to `operations[index]`, where `index` counts in the reversed window | three executed operations, one undone | mark the operation that was undone | not executed | Transactions.RollbackMarksAsWritten | Transactions.Transaction.Rollback |
| src/routes/auth.js:128 | the minimum-only branch tests `options.login.password`, which the configuration does not define | only `minLength: 8` configured | test `options.authentication.login.password` | not executed | Auth.MinimumOnlyAsWritten | Auth.PasswordRule |
| src/routes/auth.js:336-347 | `indexOf` results are used as booleans (-1 truthy, 0 falsy) | `use: ["action"]` and an action-wide allow | choose the rule by membership of `action` and `type` | not executed | Auth.ActionOnlyCounterexample | Auth.RolePermission |
| src/routes/auth.js:342-345 | the deny clause is a disjunction of negations, so a deny blocks only when all four deny patterns are present | an exact allow and an exact deny | any fitting deny refuses | not executed | Auth.DenyAsWritten | Auth.DenyWins |
| src/builder/application.js:231-234 | the key lookup compares the item's `_type` with the key record's `_type` (the key type), so no key is ever found | two items with the same `_id` and `_type` | look keys up by `type` | not executed | Application.DuplicateItemAsWritten | Application.SameItemSameId |
