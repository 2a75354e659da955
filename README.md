# RealmModel in Dafny

A model of `RealmModel` (`src/index.js`), a base class for React Native models stored
in a Realm database. The model covers its two parts with real decisions in them:

- **The filter compiler** (`values.dfy`, `filter.dfy`). `_buildFilter` turns a filter
  mapping into a Realm predicate string. A string value becomes `k = "v"`. A number
  or boolean becomes `k = v`. A nested mapping becomes one `k op v` per string,
  number or boolean entry. `$or` and `$and` are skipped. Everything else is dropped.
  The criteria are joined by `" AND "`. The function `Compile` states this. The
  method `BuildFilter` runs the source's two nested push loops and is proved equal
  to `Compile`.
- **The CRUD operations** (`crud.dfy`). The class `RealmModel` holds four things:
  the model's `name`, its `realm` binding, the rows of its collection (`objects`), and a counter
  that hands out store handles. Static `find`, `findOne`, `insert`, `update` and
  `remove` are members of the class, and so are the instance `update` and `remove`.
  Each static operation first runs the `hasRealm` guard. Two parameters stand in for
  the Realm engine: `matches` evaluates a predicate string against a record, and
  `sorter` is `sorted`.

Values (`Values.Value`) are strings, integers, booleans, objects (entries in iteration
order), arrays and null/undefined. Records are maps from field names to values. A
filter and a modifier are sequences of entries, in the order lodash iterates them.

Things the code does that a reader of its API might not expect:

- There are no lifecycle hooks (`beforeInsert`, `afterUpdate`, ...) anywhere in the code.
- `find` slices with `slice(offset, limit)`, so `limit` is an end index, not a count.
- `update` writes `o[k] = v` only where `o[k]` is truthy. A field holding `0`,
  `false` or `""` is never updated, even though it exists.
- Static `update` and `remove` return `false`/`null` synchronously, not a promise.
- `insert` resolves with the object Realm created, not with a hydrated instance.
- Arrays count as objects for `_.isObject`. So `{age: [5]}` compiles to `age 0 5`
  instead of being dropped.
- The instance `update` and `remove` do not call `hasRealm`. A missing realm makes
  `realm.write` fail inside the promise, so the promise rejects; nothing is thrown.
  A Realm whose constructor is not named `Realm` (an instance of a subclass) makes
  every static operation throw, but the instance operations still write through it.

## Model

| member | source | states |
|---|---|---|
| `Values.Truthy` | src/index.js:197 | the values `if (o[k])` skips are exactly null/undefined, `0`, `false` and `""` |
| `Values.NatToStringDigits` | src/index.js:81 | `${n}` of a natural number is a string of decimal digits with no leading zero |
| `Values.NatToStringRoundTrip` | src/index.js:81 | reading the decimal digits back gives the number again |
| `Values.NatToStringInjective` | src/index.js:83 | different numbers are written differently |
| `Values.IntToStringSign` | src/index.js:81 | `${n}` of an integer is digits with a leading `-` exactly when the number is negative |
| `Values.Render` | src/index.js:81 | `${v}` of a number or boolean is never empty |
| `Values.RenderUnquoted` | src/index.js:80-81 | a number or boolean is written with no double quote in it |
| `FilterCompiler.Equality` | src/index.js:79-81 | a top-level criterion starts with `k = ` and ends in a quote exactly when the value is a string |
| `FilterCompiler.Comparison` | src/index.js:85-87 | a nested criterion starts with `k op ` and ends in a quote exactly when the value is a string |
| `FilterCompiler.IndexedKeysDistinct` | src/index.js:83 | an array is walked as one entry per element, in order, under pairwise distinct index keys |
| `FilterCompiler.OpCriteria` | src/index.js:83-89 | a nested mapping emits at most one criterion per entry |
| `FilterCompiler.OpCriteriaNonEmpty` | src/index.js:84-87 | every criterion of a nested mapping is longer than its key |
| `FilterCompiler.EntryCriteria` | src/index.js:75-90 | a reserved key or a null value emits nothing; every criterion an entry emits is longer than its key |
| `FilterCompiler.CriteriaNonEmpty` | src/index.js:72-92 | every pushed criterion is non-empty |
| `FilterCompiler.ConcatAppend` | src/index.js:74 | collecting entry by entry distributes over concatenation of the entries |
| `FilterCompiler.Join` | src/index.js:93 | the joined string starts with the first part and ends with the last |
| `FilterCompiler.JoinLength` | src/index.js:93 | a join is the total length of the parts plus one separator between each neighbouring pair |
| `FilterCompiler.JoinNonEmpty` | src/index.js:93 | joining non-empty parts gives "" exactly when there are no parts |
| `FilterCompiler.Compile` | src/index.js:71-94 | the predicate string is "" exactly when no criterion was emitted |
| `FilterCompiler.BuildFilter` | src/index.js:71-94 | the source's push loops return exactly `Compile(filter)` |
| `FilterCompiler.PushOpCriteria` | src/index.js:83-89 | the inner loop appends exactly the criteria of the nested mapping |
| `FilterCompiler.PushComparison` | src/index.js:84-88 | one callback of the inner loop pushes `k op "v"` for a string, `k op v` for a number or boolean, and nothing otherwise |
| `FilterCompiler.CriteriaAppend` | src/index.js:74 | entries are compiled one by one, in iteration order: the criteria of `a + b` are those of `a`, then those of `b` |
| `FilterCompiler.InertFilter` | src/index.js:72-76 | an empty filter, or one with only `$or`/`$and` keys, compiles to "" |
| `FilterCompiler.ReservedKeyInert` | src/index.js:73-76 | an `$or` or `$and` key contributes nothing, whatever its value and position |
| `FilterCompiler.NullDropped` | src/index.js:82-90 | a null or undefined top-level value contributes nothing |
| `FilterCompiler.StringEquality` | src/index.js:78-79 | a string value under `k` emits exactly `k = "v"` in its place among the criteria |
| `FilterCompiler.UnquotedEquality` | src/index.js:80-81 | a number or boolean under `k` emits exactly `k = v`, unquoted, in its place |
| `FilterCompiler.EqualityIsEqOperator` | src/index.js:79-87 | a top-level scalar compiles like the nested mapping `{"=": v}` |
| `FilterCompiler.ScalarEntries` | src/index.js:84-88 | the entries kept from a nested mapping are its string, number and boolean ones |
| `FilterCompiler.NestedCriteria` | src/index.js:82-89 | a nested mapping emits one `k op literal` per scalar entry, in order, and nothing for the other entries |
| `FilterCompiler.CompiledLength` | src/index.js:93 | the output's length is the criteria's total length plus one inserted separator fewer than there are criteria |
| `FilterCompiler.CompileExamples` | src/index.js:71-94 | worked examples: `{}`, `{name: "a"}`, `{age: 42}`, `{age: {">": 5}}`, `{$or: ...}` |
| `Crud.Query` | src/index.js:104-111 | the query holds no more rows than the collection |
| `Crud.QueryMembers` | src/index.js:104-111 | a row is in the query exactly when it is stored and the filter keeps it |
| `Crud.Keep` | src/index.js:220-231 | `remove` leaves no more rows than the collection had |
| `Crud.KeepMembers` | src/index.js:228-231 | a row survives `remove` exactly when it is stored and the filter does not keep it |
| `Crud.Guard` | src/index.js:16-29 | only an object whose constructor is named `Realm` passes; a missing object is reported first, naming the model; any other object, a subclass of Realm included, gets the second error |
| `Crud.Hits` | src/index.js:106-110 | a record is kept exactly when the filter emits no criterion or the store matches it against the compiled string: the separate empty-filter test changes nothing |
| `Crud.UnfilteredQuery` | src/index.js:106-111 | a filter compiling to "" applies no `filtered` call: the query is the whole collection |
| `Crud.QueryAppend` | src/index.js:104-111 | the query keeps the collection's order |
| `Crud.QueryHead` | src/index.js:143-153 | the query is empty exactly when no row hits; otherwise its head is the first stored row that hits |
| `Crud.RemovePartition` | src/index.js:228-231 | the rows `remove` deletes are the rows `find` returns for the same filter, and together with the kept rows they are the whole collection |
| `Crud.NothingHitKeepsAll` | src/index.js:228-232 | with no match, `remove` writes nothing |
| `Crud.KeepDistinct` | src/index.js:228-231 | deleting rows keeps the store handles distinct |
| `Crud.KeepBelow` | src/index.js:228-231 | deleting rows never brings back a handle the store has not issued |
| `Crud.SliceIndex` | src/index.js:125 | `slice` resolves an index into `[0, length]` |
| `Crud.JsSlice` | src/index.js:125 | `slice(start, end)` is `s[start..end]` inside the bounds and holds at most `end - start` elements: `end` is an index, not a count |
| `Crud.FindRows` | src/index.js:104-133 | `find` never returns more than the sorted query, returns all of it hydrated without a numeric `limit`, and without a sort never more than the rows that hit |
| `Crud.HydratedMembers` | src/index.js:130-131 | the hydrated instances are exactly the copies of the rows |
| `Crud.FindWithoutOptions` | src/index.js:100-133 | without options `find` returns a copy of exactly the rows that hit, in collection order |
| `Crud.FindFromSorted` | src/index.js:114-131 | every instance `find` returns is a copy of a row of the sorted query, whatever the options |
| `Crud.FindHits` | src/index.js:104-131 | when `sorted` only reorders the query, every instance `find` returns is a copy of a stored row that hits |
| `Crud.FindNothingMatches` | src/index.js:130-133 | when nothing matches `find` returns `[]` |
| `Crud.FindWindow` | src/index.js:115-126 | with numeric `limit` and `offset` (default 0), `find` returns `slice(offset, limit)` of the sorted query; for non-negative indices, its elements from `offset` up to `limit` or the end |
| `Crud.SliceWindow` | src/index.js:125 | `slice` with non-negative indices runs from `start` to `end` or the end of the sequence, and is empty when that range is |
| `Crud.FindLimitIsEnd` | src/index.js:124-126 | `find` returns at most `limit - offset` instances, and none when `limit <= offset` |
| `Crud.OffsetAloneIgnored` | src/index.js:124 | without a numeric `limit` an `offset` has no effect |
| `Crud.FirstMatch` | src/index.js:151-154 | `findOne` gives none exactly when no row hits, otherwise a copy of the first row that hits |
| `Crud.Assign` | src/index.js:196-198 | assigning a modifier creates no field and removes none |
| `Crud.FalsyFieldUnchanged` | src/index.js:197 | a falsy field is never assigned |
| `Crud.AssignField` | src/index.js:196-198 | each field ends up with the modifier's value when it was truthy and the modifier names it, and keeps its old value otherwise |
| `Crud.Updated` | src/index.js:192-201 | static `update` keeps the number of rows, their handles and their field names, and leaves unmatched rows unchanged |
| `Crud.UpdatedField` | src/index.js:192-201 | field by field, static `update` writes `v` exactly where the row matched, the field was truthy and the modifier names it |
| `Crud.Created` | src/index.js:166-169 | the created record is `params` with `id` set to the generated value, overriding any `params.id` |
| `Crud.InsertKeepsIdsUnique` | src/index.js:168 | an id unused in the collection keeps the collection's ids unique |
| `Crud.Locate` | src/index.js:248 | finds the stored row behind an instance, or reports that none is stored |
| `Crud.Without` | src/index.js:248 | deleting by handle never adds rows |
| `Crud.WithoutMembers` | src/index.js:248 | a row is left exactly when it was stored and has another handle |
| `Crud.WithoutDistinct` | src/index.js:248 | deleting by handle keeps the store handles distinct |
| `Crud.DeleteAt` | src/index.js:248 | deleting the row at `i` leaves exactly `Without` that row's handle: the other rows, in stored order |
| `Crud.RealmModel.Find` | src/index.js:100-137 | throws the `hasRealm` errors (the first naming the model) unless a Realm is bound, so a subclass of Realm throws too; otherwise returns the filtered, sorted, sliced and hydrated rows |
| `Crud.RealmModel.FindOne` | src/index.js:139-158 | throws unless a Realm is bound; otherwise returns null exactly when nothing matches, else the first stored row that matches |
| `Crud.RealmModel.Insert` | src/index.js:160-176 | throws unless a Realm is bound; otherwise grows the collection by exactly the created record, with a new handle, and resolves with it |
| `Crud.RealmModel.Update` | src/index.js:178-207 | checks the realm first; an empty modifier returns `false` with nothing changed; otherwise returns `null` with the collection equal to `Updated` |
| `Crud.RealmModel.AssignFields` | src/index.js:194-198 | the per-record loop leaves the record equal to `Assign` of the modifier and touches no other row |
| `Crud.RealmModel.Remove` | src/index.js:215-237 | throws unless a Realm is bound; otherwise returns `null` with exactly the unmatched rows left, in order |
| `Crud.RealmModel.UpdateInstance` | src/index.js:262-277 | rejects when `realm.write` fails (no Realm object); with empty arguments changes nothing; otherwise assigns the arguments to the instance's row; once that row is gone, changes nothing and rejects exactly when some key of the arguments is one of the instance's fields; a subclass of Realm works |
| `Crud.RealmModel.RemoveInstance` | src/index.js:243-255 | rejects when `realm.write` fails (no Realm object) or the row is gone; otherwise the collection becomes `Without` the instance's handle, in stored order; a subclass of Realm works |

## Left out

- The Realm engine: `objects`, `filtered`, `sorted`, `write`, `create` and `delete`.
  A sequence of rows stands in for the collection. The parameter `matches` stands in
  for the evaluation of a predicate string, and the parameter `sorter` for `sorted`.
  Neither predicate strings nor the sort order are evaluated.
- The Realm engine's own failures: schema checks in `create`, a duplicate primary
  key, a write opened inside another write. They would be a rejected promise or a
  rethrown error; the model has no such errors.
- The instance operations assume two things about the engine. The hydrated
  instance's copied accessors read and write the stored object. Touching or deleting
  an object that is no longer stored raises, which rejects the promise. So once the
  row is gone, `update` rejects only when it reads a key that is one of the
  instance's fields; any other key reads `undefined` and is skipped.
- Static `update` computes the matched rows on the state before the call. Realm's
  live `Results`, which can change while the loop assigns, are not modelled.
- `uuid.v4()` is the parameter `freshId`. `Insert` ensures ids stay unique only when
  that value is unused in the collection.
- Promise timing, bluebird, the catch-and-rethrow blocks, and the second
  `resolve()` of the instance `update` are not modelled. Only how each call ends is:
  it returns, throws, or its promise fulfils or rejects.
- Hydration's descriptor copying (`_ownKeys`, `_getOwnPropertyDescriptors`, the
  constructor) relies on JavaScript reflection. It is modelled as copying the
  record's fields.
- The `constructor.name` checks are reduced to a binding flag: no object, some
  other object, a working Realm of another class name, or a Realm. An object that
  is not a Realm but has its own `write` and `delete` is not modelled. Every object
  update sees is assumed to be a `RealmObject`.
- `upsert` is an empty stub apart from `hasRealm`.
- Numbers are integers. Floating point, `NaN`, `Infinity` and exponent notation in
  `${v}` are not modelled.
- lodash treats a mapping with a numeric `length` key as array-like. The model
  does not. `_.contains` is taken to exist, as it does in lodash 3.
- `find`'s `sort` option is modelled only when it is a mapping. `_.isEmpty(option)`
  is not modelled separately, because an option object without `limit`, `offset` or
  `sort` leaves the query alone either way.
