/** The public operations of `RealmModel` over the model's collection: `find`,
    `findOne`, `insert`, `update` and `remove` on the model class, and `update` and
    `remove` on a hydrated instance. The Realm engine is replaced by a sequence of
    rows, a predicate evaluator `matches` and a sort function `sorter`. */
module Crud {
  import opened Values
  import opened FilterCompiler

  /** The fields of a stored object. */
  type Record = map<string, Value>

  /** An update modifier, as its (field, value) entries in iteration order. */
  type Modifier = seq<(string, Value)>

  /** The store's evaluation of a predicate string against a record (`filtered`). */
  type Matcher = (string, Record) -> bool

  /** The `[propName, reverse]` pairs handed to `sorted`, in the sort mapping's key order. */
  type SortDescriptor = seq<(string, Value)>

  /** The store's `sorted`. */
  type Sorter = (seq<Row>, SortDescriptor) -> seq<Row>

  /** A stored object: the store's own handle for it, and its fields. */
  datatype Row = Row(handle: nat, fields: Record)

  /** A model instance: hydration copies every property of the stored object, and
      the copied accessors keep reading and writing the object behind `handle`. */
  datatype Instance = Instance(handle: nat, fields: Record)

  /** The `option` argument of `find`. `None` is an absent entry or one explicitly
      `undefined`: both take the default (`offset = 0`). `Some(Null)` stands for `null` there,
      which takes no default. */
  datatype FindOptions = FindOptions(limit: Option<Value>, offset: Option<Value>, sort: Option<SortDescriptor>)

  const NoOptions := FindOptions(None, None, None)

  /** What the model's static `realm` holds: no object, an object that is not a
      Realm, a working Realm whose constructor is not named `Realm` (an instance of
      a subclass, say), or a Realm. */
  datatype Binding = Unbound | Foreign | Subclass | Realm

  /** Whether `realm.write` and `realm.delete` work: the instance operations call
      them without the `hasRealm` check, so a subclass of Realm will do. */
  predicate Writable(realm: Binding) {
    realm == Realm || realm == Subclass
  }

  /** The two errors of `hasRealm`: the first names the model. */
  datatype Error = NeedsRealm(model: string) | NotARealm

  /** How a call ends: with a return value, or with a synchronous throw. */
  datatype Reply<T> = Returned(value: T) | Threw(error: Error)

  /** How a returned promise settles. */
  datatype Settled<T> = Fulfilled(value: T) | Rejected

  /** What static `update` returns: `false` for an empty modifier, `null` otherwise. */
  datatype UpdateReply = Skipped | Done

  function Hydrate(row: Row): Instance {
    Instance(row.handle, row.fields)
  }

  /** `objects.map(o => new className(o))`. */
  function HydrateAll(rows: seq<Row>): seq<Instance> {
    seq(|rows|, i requires 0 <= i < |rows| => Hydrate(rows[i]))
  }

  /** `hasRealm`: the error a static operation raises before it touches the store.
      Only an object whose constructor is named `Realm` passes; a missing object is
      reported first, naming the model. */
  function Guard(name: string, realm: Binding): (e: Option<Error>)
    ensures e.None? <==> realm == Realm
    ensures realm == Unbound ==> e == Some(NeedsRealm(name))
    ensures realm != Unbound && realm != Realm ==> e == Some(NotARealm)
  {
    match realm
    case Unbound => Some(NeedsRealm(name))
    case Foreign => Some(NotARealm)
    case Subclass => Some(NotARealm)
    case Realm => None
  }

  /** Whether some key of `args` is one of the record's fields. */
  predicate NamesAField(args: Modifier, fields: Record) {
    exists j :: 0 <= j < |args| && args[j].0 in fields
  }

  predicate DistinctHandles(rows: seq<Row>) {
    forall i, j :: 0 <= i < j < |rows| ==> rows[i].handle != rows[j].handle
  }

  // ---------------------------------------------------------------------------
  // Resolving the matched rows

  /** Whether the query for `filter` keeps a record: `filtered` is applied only when
      the filter is non-empty and compiles to a non-empty string. */
  predicate Hits(filter: Filter, matches: Matcher, fields: Record): (h: bool)
    ensures h <==> Criteria(filter) == [] || matches(Compile(filter), fields)
  {
    var filterStr := Compile(filter);
    |filter| == 0 || filterStr == "" || matches(filterStr, fields)
  }

  /** `realm.objects(name)`, then `filtered(filterStr)` when it applies. */
  function Query(rows: seq<Row>, filter: Filter, matches: Matcher): (q: seq<Row>)
    ensures |q| <= |rows|
  {
    if rows == [] then []
    else (if Hits(filter, matches, rows[0].fields) then [rows[0]] else []) + Query(rows[1..], filter, matches)
  }

  /** The rows a `remove` with `filter` leaves behind. */
  function Keep(rows: seq<Row>, filter: Filter, matches: Matcher): (kept: seq<Row>)
    ensures |kept| <= |rows|
  {
    if rows == [] then []
    else (if Hits(filter, matches, rows[0].fields) then [] else [rows[0]]) + Keep(rows[1..], filter, matches)
  }

  /** The query holds exactly the rows of the collection that hit. */
  lemma {:induction false} QueryMembers(rows: seq<Row>, filter: Filter, matches: Matcher)
    ensures forall row :: row in Query(rows, filter, matches) <==> row in rows && Hits(filter, matches, row.fields)
  {
    if rows != [] {
      QueryMembers(rows[1..], filter, matches);
      assert rows == [rows[0]] + rows[1..];
    }
  }

  /** The rows kept are exactly the rows of the collection that do not hit. */
  lemma {:induction false} KeepMembers(rows: seq<Row>, filter: Filter, matches: Matcher)
    ensures forall row :: row in Keep(rows, filter, matches) <==> row in rows && !Hits(filter, matches, row.fields)
  {
    if rows != [] {
      KeepMembers(rows[1..], filter, matches);
      assert rows == [rows[0]] + rows[1..];
    }
  }

  /** An empty filter, or one that compiles to "", applies no `filtered` call: the
      query is the whole collection. */
  lemma {:induction false} UnfilteredQuery(rows: seq<Row>, filter: Filter, matches: Matcher)
    requires Compile(filter) == ""
    ensures Query(rows, filter, matches) == rows
  {
    if rows != [] {
      UnfilteredQuery(rows[1..], filter, matches);
    }
  }

  /** The query keeps the collection's order: it distributes over concatenation. */
  lemma {:induction false} QueryAppend(a: seq<Row>, b: seq<Row>, filter: Filter, matches: Matcher)
    ensures Query(a + b, filter, matches) == Query(a, filter, matches) + Query(b, filter, matches)
  {
    if a != [] {
      assert (a + b)[1..] == a[1..] + b;
      QueryAppend(a[1..], b, filter, matches);
    } else {
      assert a + b == b;
    }
  }

  /** The first row of the query is the first row of the collection that hits. */
  lemma {:induction false} QueryHead(rows: seq<Row>, filter: Filter, matches: Matcher)
    ensures Query(rows, filter, matches) == [] <==>
      forall i :: 0 <= i < |rows| ==> !Hits(filter, matches, rows[i].fields)
    ensures Query(rows, filter, matches) != [] ==>
      exists j :: 0 <= j < |rows| && Query(rows, filter, matches)[0] == rows[j] &&
        Hits(filter, matches, rows[j].fields) &&
        forall i :: 0 <= i < j ==> !Hits(filter, matches, rows[i].fields)
  {
    if rows != [] {
      QueryHead(rows[1..], filter, matches);
      if !Hits(filter, matches, rows[0].fields) && Query(rows, filter, matches) != [] {
        var j :| 0 <= j < |rows[1..]| && Query(rows[1..], filter, matches)[0] == rows[1..][j] &&
          Hits(filter, matches, rows[1..][j].fields) &&
          forall i :: 0 <= i < j ==> !Hits(filter, matches, rows[1..][i].fields);
        assert Query(rows, filter, matches)[0] == rows[j + 1];
        assert forall i :: 0 <= i < j + 1 ==> !Hits(filter, matches, rows[i].fields) by {
          forall i | 0 <= i < j + 1
            ensures !Hits(filter, matches, rows[i].fields)
          {
            if i > 0 {
              assert rows[i] == rows[1..][i - 1];
            }
          }
        }
      }
    }
  }

  /** `remove` deletes exactly the rows `find` with the same filter returns: the
      collection splits into the query and the rows kept. */
  lemma {:induction false} RemovePartition(rows: seq<Row>, filter: Filter, matches: Matcher)
    ensures multiset(rows) == multiset(Query(rows, filter, matches)) + multiset(Keep(rows, filter, matches))
  {
    if rows != [] {
      RemovePartition(rows[1..], filter, matches);
      PartitionStep(rows[0], Hits(filter, matches, rows[0].fields), rows[1..],
        Query(rows[1..], filter, matches), Keep(rows[1..], filter, matches));
      assert rows == [rows[0]] + rows[1..];
    }
  }

  /** One step of a partition: the head goes to one side or the other. */
  lemma PartitionStep<T>(x: T, hit: bool, rest: seq<T>, taken: seq<T>, left: seq<T>)
    requires multiset(rest) == multiset(taken) + multiset(left)
    ensures multiset([x] + rest) ==
      multiset((if hit then [x] else []) + taken) + multiset((if hit then [] else [x]) + left)
  {
  }

  lemma {:induction false} NothingHitKeepsAll(rows: seq<Row>, filter: Filter, matches: Matcher)
    requires Query(rows, filter, matches) == []
    ensures Keep(rows, filter, matches) == rows
  {
    if rows != [] {
      assert rows[0] in rows;
      NothingHitKeepsAll(rows[1..], filter, matches);
    }
  }

  /** Deleting rows never raises a handle above a bound the collection kept. */
  lemma {:induction false} KeepBelow(rows: seq<Row>, filter: Filter, matches: Matcher, bound: nat)
    requires forall i :: 0 <= i < |rows| ==> rows[i].handle < bound
    ensures forall i :: 0 <= i < |Keep(rows, filter, matches)| ==> Keep(rows, filter, matches)[i].handle < bound
  {
    if rows != [] {
      KeepBelow(rows[1..], filter, matches, bound);
    }
  }

  lemma {:induction false} KeepDistinct(rows: seq<Row>, filter: Filter, matches: Matcher)
    requires DistinctHandles(rows)
    ensures DistinctHandles(Keep(rows, filter, matches))
  {
    if rows != [] {
      KeepDistinct(rows[1..], filter, matches);
      KeepMembers(rows[1..], filter, matches);
      var rest := Keep(rows[1..], filter, matches);
      forall row | row in rest
        ensures row.handle != rows[0].handle
      {
        var j :| 0 <= j < |rows[1..]| && rows[1..][j] == row;
        assert rows[j + 1] == row;
      }
    }
  }

  // ---------------------------------------------------------------------------
  // find: sort, slice, hydrate

  /** How `Array.prototype.slice` resolves an index against a length. */
  function SliceIndex(x: int, len: nat): (i: nat)
    ensures i <= len
    ensures 0 <= x <= len ==> i == x
  {
    if x < 0 then (if len + x < 0 then 0 else len + x)
    else if x > len then len
    else x
  }

  /** `slice(start, end)`: `end` is an end index, not a count. */
  function JsSlice<T>(s: seq<T>, start: int, end: int): (r: seq<T>)
    ensures |r| <= |s|
    ensures 0 <= start <= end <= |s| ==> r == s[start..end]
    ensures 0 <= start && 0 <= end ==> |r| <= (if end <= start then 0 else end - start)
  {
    var from, to := SliceIndex(start, |s|), SliceIndex(end, |s|);
    if from < to then s[from..to] else []
  }

  /** The rows `find` slices: the query, passed through `sorted` when a sort is given. */
  function Sorted(rows: seq<Row>, filter: Filter, options: FindOptions, matches: Matcher, sorter: Sorter): seq<Row> {
    var q := Query(rows, filter, matches);
    if options.sort.Some? then sorter(q, options.sort.value) else q
  }

  /** The instances `find` returns once the store is known to be bound: never more
      than the sorted query, all of it without a numeric `limit`, and without a sort
      never more than the rows that hit. */
  function FindRows(rows: seq<Row>, filter: Filter, options: FindOptions, matches: Matcher, sorter: Sorter): (r: seq<Instance>)
    ensures |r| <= |Sorted(rows, filter, options, matches, sorter)|
    ensures !(options.limit.Some? && options.limit.value.Num?) ==>
      r == HydrateAll(Sorted(rows, filter, options, matches, sorter))
    ensures options.sort.None? ==> |r| <= |Query(rows, filter, matches)|
  {
    var sorted := Sorted(rows, filter, options, matches, sorter);
    var offset := if options.offset.Some? then options.offset.value else Num(0);
    var page := if options.limit.Some? && options.limit.value.Num? && offset.Num?
      then JsSlice(sorted, offset.n, options.limit.value.n)
      else sorted;
    HydrateAll(page)
  }

  /** The instances hydrated from `q` are exactly the copies of its rows. */
  lemma HydratedMembers(q: seq<Row>)
    ensures forall inst :: inst in HydrateAll(q) <==> exists row :: row in q && inst == Hydrate(row)
  {
    var r := HydrateAll(q);
    forall inst | inst in r
      ensures exists row :: row in q && inst == Hydrate(row)
    {
      var k :| 0 <= k < |r| && r[k] == inst;
      assert q[k] in q;
    }
    forall inst | exists row :: row in q && inst == Hydrate(row)
      ensures inst in r
    {
      var row :| row in q && inst == Hydrate(row);
      var k :| 0 <= k < |q| && q[k] == row;
      assert r[k] == inst;
    }
  }

  /** Without options, `find` returns a hydrated copy of every row that hits, in
      collection order, and nothing else. */
  lemma FindWithoutOptions(rows: seq<Row>, filter: Filter, matches: Matcher, sorter: Sorter)
    ensures FindRows(rows, filter, NoOptions, matches, sorter) == HydrateAll(Query(rows, filter, matches))
    ensures forall inst :: inst in FindRows(rows, filter, NoOptions, matches, sorter) <==>
      exists row :: row in rows && Hits(filter, matches, row.fields) && inst == Hydrate(row)
  {
    var q := Query(rows, filter, matches);
    HydratedMembers(q);
    QueryMembers(rows, filter, matches);
  }

  lemma SliceMembers<T>(s: seq<T>, start: int, end: int)
    ensures forall x :: x in JsSlice(s, start, end) ==> x in s
  {
    var from, to := SliceIndex(start, |s|), SliceIndex(end, |s|);
    if from < to {
      forall x | x in s[from..to]
        ensures x in s
      {
        var k :| 0 <= k < to - from && s[from..to][k] == x;
        assert s[from + k] == x;
      }
    }
  }

  lemma SameMembers<T>(a: seq<T>, b: seq<T>)
    requires multiset(a) == multiset(b)
    ensures forall x :: x in a <==> x in b
  {
    assert forall x :: x in a <==> x in multiset(a);
    assert forall x :: x in b <==> x in multiset(b);
  }

  /** Every instance `find` returns is a copy of a row of the sorted query. */
  lemma FindFromSorted(rows: seq<Row>, filter: Filter, options: FindOptions, matches: Matcher, sorter: Sorter)
    ensures forall inst :: inst in FindRows(rows, filter, options, matches, sorter) ==>
      exists row :: row in Sorted(rows, filter, options, matches, sorter) && inst == Hydrate(row)
  {
    var s := Sorted(rows, filter, options, matches, sorter);
    var offset := if options.offset.Some? then options.offset.value else Num(0);
    if options.limit.Some? && options.limit.value.Num? && offset.Num? {
      var page := JsSlice(s, offset.n, options.limit.value.n);
      assert FindRows(rows, filter, options, matches, sorter) == HydrateAll(page);
      HydratedMembers(page);
      SliceMembers(s, offset.n, options.limit.value.n);
    } else {
      HydratedMembers(s);
    }
  }

  /** When `sorted` only reorders the query, every instance `find` returns is a
      copy of a stored row that hits, whatever the options. */
  lemma FindHits(rows: seq<Row>, filter: Filter, options: FindOptions, matches: Matcher, sorter: Sorter)
    requires options.sort.Some? ==>
      multiset(sorter(Query(rows, filter, matches), options.sort.value)) == multiset(Query(rows, filter, matches))
    ensures forall inst :: inst in FindRows(rows, filter, options, matches, sorter) ==>
      exists row :: row in rows && Hits(filter, matches, row.fields) && inst == Hydrate(row)
  {
    var q := Query(rows, filter, matches);
    var s := Sorted(rows, filter, options, matches, sorter);
    SameMembers(s, q);
    QueryMembers(rows, filter, matches);
    FindFromSorted(rows, filter, options, matches, sorter);
  }

  /** Nothing matches: `find` returns `[]` (sorting an empty result gives nothing). */
  lemma FindNothingMatches(rows: seq<Row>, filter: Filter, options: FindOptions, matches: Matcher, sorter: Sorter)
    requires forall i :: 0 <= i < |rows| ==> !Hits(filter, matches, rows[i].fields)
    requires options.sort.Some? ==> sorter([], options.sort.value) == []
    ensures FindRows(rows, filter, options, matches, sorter) == []
  {
    QueryHead(rows, filter, matches);
  }

  /** With a numeric `limit` and a numeric `offset` (0 when absent), `find` returns
      `slice(offset, limit)` of the sorted query; for non-negative indices that is
      the elements from `offset` up to `limit` or the end, whichever comes first. */
  lemma FindWindow(rows: seq<Row>, filter: Filter, options: FindOptions, matches: Matcher, sorter: Sorter, offset: int, limit: int)
    requires options.limit == Some(Num(limit))
    requires options.offset == Some(Num(offset)) || (options.offset.None? && offset == 0)
    ensures var s := Sorted(rows, filter, options, matches, sorter);
      FindRows(rows, filter, options, matches, sorter) == HydrateAll(JsSlice(s, offset, limit))
    ensures var s := Sorted(rows, filter, options, matches, sorter);
      0 <= offset && 0 <= limit ==>
        FindRows(rows, filter, options, matches, sorter) ==
        HydrateAll(if offset >= |s| || limit <= offset then [] else s[offset..if limit < |s| then limit else |s|])
  {
    var s := Sorted(rows, filter, options, matches, sorter);
    if 0 <= offset && 0 <= limit {
      SliceWindow(s, offset, limit);
    }
  }

  /** `slice` with non-negative indices: from `start` up to `end` or the end of the
      sequence, whichever comes first, and nothing when that range is empty. */
  lemma SliceWindow<T>(s: seq<T>, start: int, end: int)
    requires 0 <= start && 0 <= end
    ensures JsSlice(s, start, end) == if start >= |s| || end <= start then [] else s[start..if end < |s| then end else |s|]
  {
  }

  /** `limit` is an end index: at most `limit - offset` instances, none when
      `limit <= offset`, whatever the sort does. */
  lemma FindLimitIsEnd(rows: seq<Row>, filter: Filter, options: FindOptions, matches: Matcher, sorter: Sorter, offset: int, limit: int)
    requires options.limit == Some(Num(limit)) && 0 <= limit
    requires options.offset == Some(Num(offset)) || (options.offset.None? && offset == 0)
    requires 0 <= offset
    ensures |FindRows(rows, filter, options, matches, sorter)| <= if limit <= offset then 0 else limit - offset
  {
  }

  /** Slicing needs a numeric `limit`: an offset on its own does nothing. */
  lemma OffsetAloneIgnored(rows: seq<Row>, filter: Filter, offset: Value, matches: Matcher, sorter: Sorter)
    ensures FindRows(rows, filter, FindOptions(None, Some(offset), None), matches, sorter)
         == FindRows(rows, filter, NoOptions, matches, sorter)
  {
  }

  /** `findOne` once the store is known to be bound: the first row that hits. */
  function FirstMatch(rows: seq<Row>, filter: Filter, matches: Matcher): (r: Option<Instance>)
    ensures r.None? <==> forall i :: 0 <= i < |rows| ==> !Hits(filter, matches, rows[i].fields)
    ensures r.Some? ==>
      exists j :: 0 <= j < |rows| && r.value == Hydrate(rows[j]) &&
        Hits(filter, matches, rows[j].fields) &&
        forall i :: 0 <= i < j ==> !Hits(filter, matches, rows[i].fields)
  {
    QueryHead(rows, filter, matches);
    var q := Query(rows, filter, matches);
    if |q| > 0 then Some(Hydrate(q[0])) else None
  }

  // ---------------------------------------------------------------------------
  // update: assign a modifier to the truthy fields

  /** The record after `_.each(modifier, (v, k) => { if (o[k]) o[k] = v; })`. */
  function Assign(fields: Record, modifier: Modifier): (r: Record)
    ensures r.Keys == fields.Keys
  {
    if modifier == [] then fields
    else
      var prev := Assign(fields, modifier[..|modifier| - 1]);
      var (k, v) := modifier[|modifier| - 1];
      if k in prev && Truthy(prev[k]) then prev[k := v] else prev
  }

  /** A modifier is a mapping: no key twice. */
  predicate DistinctKeys(modifier: Modifier) {
    forall i, j :: 0 <= i < j < |modifier| ==> modifier[i].0 != modifier[j].0
  }

  /** The modifier's value for `k`, if it has one. */
  function ValueFor(modifier: Modifier, k: string): (r: Option<Value>)
    ensures r.None? <==> forall i :: 0 <= i < |modifier| ==> modifier[i].0 != k
    ensures r.Some? ==> exists i :: 0 <= i < |modifier| && modifier[i] == (k, r.value)
  {
    if modifier == [] then None
    else if modifier[|modifier| - 1].0 == k then Some(modifier[|modifier| - 1].1)
    else ValueFor(modifier[..|modifier| - 1], k)
  }

  /** A falsy field (`0`, `false`, `""`, null) is never assigned, whatever the modifier. */
  lemma {:induction false} FalsyFieldUnchanged(fields: Record, modifier: Modifier, k: string)
    requires k in fields && !Truthy(fields[k])
    ensures Assign(fields, modifier)[k] == fields[k]
  {
    if modifier != [] {
      FalsyFieldUnchanged(fields, modifier[..|modifier| - 1], k);
    }
  }

  /** What each field holds after the assignment: the modifier's value when the
      field was truthy and the modifier names it, its old value otherwise. */
  lemma {:induction false} AssignField(fields: Record, modifier: Modifier, k: string)
    requires DistinctKeys(modifier) && k in fields
    ensures Assign(fields, modifier)[k] ==
      if Truthy(fields[k]) && ValueFor(modifier, k).Some? then ValueFor(modifier, k).value else fields[k]
  {
    if modifier != [] {
      var init := modifier[..|modifier| - 1];
      AssignField(fields, init, k);
      if modifier[|modifier| - 1].0 == k {
        assert ValueFor(init, k).None? by {
          forall i | 0 <= i < |init|
            ensures init[i].0 != k
          {
            assert modifier[i] == init[i];
          }
        }
      }
    }
  }

  /** The collection after static `update`: matched rows assigned, others untouched. */
  function Updated(rows: seq<Row>, filter: Filter, matches: Matcher, modifier: Modifier): (out: seq<Row>)
    ensures |out| == |rows|
    ensures forall i :: 0 <= i < |rows| ==> out[i].handle == rows[i].handle && out[i].fields.Keys == rows[i].fields.Keys
    ensures forall i :: 0 <= i < |rows| && !Hits(filter, matches, rows[i].fields) ==> out[i] == rows[i]
  {
    seq(|rows|, i requires 0 <= i < |rows| =>
      if Hits(filter, matches, rows[i].fields) then Row(rows[i].handle, Assign(rows[i].fields, modifier)) else rows[i])
  }

  /** Field by field, static `update` writes `v` exactly where the row hits, the
      field is truthy and the modifier names it; it creates no field. */
  lemma UpdatedField(rows: seq<Row>, filter: Filter, matches: Matcher, modifier: Modifier, i: int, k: string)
    requires DistinctKeys(modifier) && 0 <= i < |rows|
    ensures k in Updated(rows, filter, matches, modifier)[i].fields <==> k in rows[i].fields
    ensures k in rows[i].fields ==>
      Updated(rows, filter, matches, modifier)[i].fields[k] ==
        if Hits(filter, matches, rows[i].fields) && Truthy(rows[i].fields[k]) && ValueFor(modifier, k).Some?
        then ValueFor(modifier, k).value
        else rows[i].fields[k]
  {
    if k in rows[i].fields {
      AssignField(rows[i].fields, modifier, k);
    }
  }

  // ---------------------------------------------------------------------------
  // insert: the `id` override

  predicate UniqueIds(rows: seq<Row>) {
    forall i, j :: 0 <= i < j < |rows| && "id" in rows[i].fields && "id" in rows[j].fields ==>
      rows[i].fields["id"] != rows[j].fields["id"]
  }

  predicate IdUnused(rows: seq<Row>, id: string) {
    forall i :: 0 <= i < |rows| && "id" in rows[i].fields ==> rows[i].fields["id"] != Str(id)
  }

  /** `{ ...params, id: uuid.v4() }`: the caller's fields, with `id` replaced. */
  function Created(params: Record, freshId: string): (r: Record)
    ensures r.Keys == params.Keys + {"id"}
    ensures r["id"] == Str(freshId)
    ensures forall k :: k in params && k != "id" ==> r[k] == params[k]
  {
    params["id" := Str(freshId)]
  }

  /** A fresh id keeps the ids of the collection unique. */
  lemma InsertKeepsIdsUnique(rows: seq<Row>, row: Row, freshId: string)
    requires UniqueIds(rows) && IdUnused(rows, freshId)
    requires "id" in row.fields && row.fields["id"] == Str(freshId)
    ensures UniqueIds(rows + [row])
  {
    var all := rows + [row];
    forall i, j | 0 <= i < j < |all| && "id" in all[i].fields && "id" in all[j].fields
      ensures all[i].fields["id"] != all[j].fields["id"]
    {
      if j == |rows| {
        assert all[i] == rows[i];
      } else {
        assert all[i] == rows[i] && all[j] == rows[j];
      }
    }
  }

  // ---------------------------------------------------------------------------
  // The instance's backing row

  /** Where the row behind `handle` sits, if it is still stored. */
  function Locate(rows: seq<Row>, handle: nat): (r: Option<nat>)
    ensures r.None? <==> forall i :: 0 <= i < |rows| ==> rows[i].handle != handle
    ensures r.Some? ==> r.value < |rows| && rows[r.value].handle == handle
  {
    if rows == [] then None
    else if rows[0].handle == handle then Some(0)
    else match Locate(rows[1..], handle)
      case None => None
      case Some(i) => Some(i + 1)
  }

  /** The rows with a handle other than `handle`, in their stored order. */
  function Without(rows: seq<Row>, handle: nat): (rest: seq<Row>)
    ensures |rest| <= |rows|
  {
    if rows == [] then []
    else (if rows[0].handle == handle then [] else [rows[0]]) + Without(rows[1..], handle)
  }

  /** A row is left exactly when it was stored and has another handle. */
  lemma {:induction false} WithoutMembers(rows: seq<Row>, handle: nat)
    ensures forall row :: row in Without(rows, handle) <==> row in rows && row.handle != handle
  {
    if rows != [] {
      WithoutMembers(rows[1..], handle);
      assert rows == [rows[0]] + rows[1..];
    }
  }

  lemma {:induction false} WithoutAbsent(rows: seq<Row>, handle: nat)
    requires forall i :: 0 <= i < |rows| ==> rows[i].handle != handle
    ensures Without(rows, handle) == rows
  {
    if rows != [] {
      WithoutAbsent(rows[1..], handle);
    }
  }

  /** Deleting the row at `i` leaves exactly the rows with another handle, in
      their stored order. */
  lemma {:induction false} DeleteAt(rows: seq<Row>, i: nat)
    requires i < |rows|
    requires forall j :: 0 <= j < |rows| && j != i ==> rows[j].handle != rows[i].handle
    ensures rows[..i] + rows[i + 1..] == Without(rows, rows[i].handle)
  {
    var tail := rows[1..];
    DropSplit(rows, i);
    if i == 0 {
      WithoutAbsent(tail, rows[0].handle);
    } else {
      forall j | 0 <= j < |tail| && j != i - 1
        ensures tail[j].handle != tail[i - 1].handle
      {
        assert tail[j] == rows[j + 1];
      }
      DeleteAt(tail, i - 1);
    }
  }

  /** Deleting position `i` of a sequence, seen from its tail. */
  lemma DropSplit<T>(s: seq<T>, i: nat)
    requires i < |s|
    ensures i == 0 ==> s[..i] + s[i + 1..] == s[1..]
    ensures i > 0 ==> s[i] == s[1..][i - 1] && s[..i] + s[i + 1..] == [s[0]] + (s[1..][..i - 1] + s[1..][i..])
  {
    if i > 0 {
      assert s[..i] == [s[0]] + s[1..][..i - 1];
      assert s[i + 1..] == s[1..][i..];
    }
  }

  /** Deleting by handle keeps the store handles distinct. */
  lemma {:induction false} WithoutDistinct(rows: seq<Row>, handle: nat)
    requires DistinctHandles(rows)
    ensures DistinctHandles(Without(rows, handle))
  {
    if rows != [] {
      var tail := rows[1..];
      assert forall a :: 0 <= a < |tail| ==> tail[a] == rows[a + 1];
      WithoutDistinct(tail, handle);
      WithoutMembers(tail, handle);
      var rest := Without(tail, handle);
      forall row | row in rest
        ensures row.handle != rows[0].handle
      {
        var j :| 0 <= j < |tail| && tail[j] == row;
      }
    }
  }

  // ---------------------------------------------------------------------------
  // The model class

  /** A model class bound to its collection: the static `realm` it holds and the
      stored objects of the collection named after it. */
  class RealmModel {
    const name: string
    var realm: Binding
    var objects: seq<Row>
    var nextHandle: nat

    ghost predicate Valid()
      reads this
    {
      DistinctHandles(objects) &&
      forall i :: 0 <= i < |objects| ==> objects[i].handle < nextHandle
    }

    constructor (name: string, realm: Binding)
      ensures Valid() && this.name == name && this.realm == realm && objects == []
    {
      this.name := name;
      this.realm := realm;
      objects := [];
      nextHandle := 0;
    }

    /** Static `find(filter, option)`. */
    function Find(filter: Filter, options: FindOptions, matches: Matcher, sorter: Sorter): (r: Reply<seq<Instance>>)
      reads this
      ensures realm == Unbound ==> r == Threw(NeedsRealm(name))
      ensures realm == Foreign || realm == Subclass ==> r == Threw(NotARealm)
      ensures realm == Realm ==> r == Returned(FindRows(objects, filter, options, matches, sorter))
    {
      match Guard(name, realm)
      case Some(e) => Threw(e)
      case None => Returned(FindRows(objects, filter, options, matches, sorter))
    }

    /** Static `findOne(filter)`: the first match, or `null`. */
    function FindOne(filter: Filter, matches: Matcher): (r: Reply<Option<Instance>>)
      reads this
      ensures realm == Unbound ==> r == Threw(NeedsRealm(name))
      ensures realm == Foreign || realm == Subclass ==> r == Threw(NotARealm)
      ensures realm == Realm ==> r.Returned? && (r.value.None? <==> Query(objects, filter, matches) == [])
      ensures realm == Realm && r.Returned? && r.value.Some? ==>
        exists j :: 0 <= j < |objects| && r.value.value == Hydrate(objects[j]) &&
          Hits(filter, matches, objects[j].fields) &&
          forall i :: 0 <= i < j ==> !Hits(filter, matches, objects[i].fields)
    {
      QueryHead(objects, filter, matches);
      match Guard(name, realm)
      case Some(e) => Threw(e)
      case None => Returned(FirstMatch(objects, filter, matches))
    }

    /** Static `insert(params)`: one new object, `params` with a fresh `id`; the
        promise resolves with the created object. */
    method Insert(params: Record, freshId: string) returns (r: Reply<Settled<Row>>)
      requires Valid()
      modifies this`objects, this`nextHandle
      ensures Valid()
      ensures realm == Unbound ==> r == Threw(NeedsRealm(name)) && objects == old(objects)
      ensures realm == Foreign || realm == Subclass ==> r == Threw(NotARealm) && objects == old(objects)
      ensures realm == Realm ==>
        r.Returned? && r.value.Fulfilled? &&
        r.value.value.fields == Created(params, freshId) &&
        objects == old(objects) + [r.value.value] &&
        forall i :: 0 <= i < |old(objects)| ==> old(objects)[i].handle != r.value.value.handle
      ensures realm == Realm && UniqueIds(old(objects)) && IdUnused(old(objects), freshId) ==> UniqueIds(objects)
    {
      var e := Guard(name, realm);
      if e.Some? {
        return Threw(e.value);
      }
      var row := Row(nextHandle, Created(params, freshId));
      if UniqueIds(objects) && IdUnused(objects, freshId) {
        InsertKeepsIdsUnique(objects, row, freshId);
      }
      objects := objects + [row];
      nextHandle := nextHandle + 1;
      r := Returned(Fulfilled(row));
    }

    /** Static `update(filter, modifier)`. */
    method Update(filter: Filter, modifier: Modifier, matches: Matcher) returns (r: Reply<UpdateReply>)
      requires Valid()
      modifies this`objects
      ensures Valid()
      ensures realm == Unbound ==> r == Threw(NeedsRealm(name)) && objects == old(objects)
      ensures realm == Foreign || realm == Subclass ==> r == Threw(NotARealm) && objects == old(objects)
      ensures realm == Realm && modifier == [] ==> r == Returned(Skipped) && objects == old(objects)
      ensures realm == Realm && modifier != [] ==>
        r == Returned(Done) && objects == Updated(old(objects), filter, matches, modifier)
    {
      var e := Guard(name, realm);
      if e.Some? {
        return Threw(e.value);
      }
      if modifier == [] {
        return Returned(Skipped);
      }
      var filterStr := BuildFilter(filter);
      var everything := |filter| == 0 || filterStr == "";
      ghost var target := Updated(objects, filter, matches, modifier);
      var i := 0;
      while i < |objects|
        invariant 0 <= i <= |objects| == |old(objects)|
        invariant forall j :: 0 <= j < i ==> objects[j] == target[j]
        invariant forall j :: i <= j < |objects| ==> objects[j] == old(objects)[j]
      {
        if everything || matches(filterStr, objects[i].fields) {
          AssignFields(i, modifier);
        }
        i := i + 1;
      }
      assert objects == target;
      r := Returned(Done);
    }

    /** The per-object loop of `update`: `if (o[k]) o[k] = v` for each modifier entry. */
    method AssignFields(i: nat, modifier: Modifier)
      requires i < |objects|
      modifies this`objects
      ensures objects == old(objects)[i := Row(old(objects)[i].handle, Assign(old(objects)[i].fields, modifier))]
    {
      var j := 0;
      while j < |modifier|
        invariant 0 <= j <= |modifier|
        invariant objects == old(objects)[i := Row(old(objects)[i].handle, Assign(old(objects)[i].fields, modifier[..j]))]
      {
        var (k, v) := modifier[j];
        assert modifier[..j + 1][..j] == modifier[..j];
        if k in objects[i].fields && Truthy(objects[i].fields[k]) {
          objects := objects[i := Row(objects[i].handle, objects[i].fields[k := v])];
        }
        j := j + 1;
      }
      assert modifier[..|modifier|] == modifier;
    }

    /** Static `remove(filter)`: deletes every row the query resolves to. */
    method Remove(filter: Filter, matches: Matcher) returns (r: Reply<()>)
      requires Valid()
      modifies this`objects
      ensures Valid()
      ensures realm == Unbound ==> r == Threw(NeedsRealm(name)) && objects == old(objects)
      ensures realm == Foreign || realm == Subclass ==> r == Threw(NotARealm) && objects == old(objects)
      ensures realm == Realm ==> r == Returned(()) && objects == Keep(old(objects), filter, matches)
    {
      var e := Guard(name, realm);
      if e.Some? {
        return Threw(e.value);
      }
      var doomed := Query(objects, filter, matches);
      if |doomed| > 0 {
        KeepDistinct(objects, filter, matches);
        KeepBelow(objects, filter, matches, nextHandle);
        objects := Keep(objects, filter, matches);
      } else {
        NothingHitKeepsAll(objects, filter, matches);
      }
      r := Returned(());
    }

    /** Instance `update(args)`: assigns through the instance's accessors to its row.
        There is no `hasRealm` check: a failing `realm.write` makes the promise
        reject, and a subclass of Realm is written through. Once the row is gone,
        reading `this[k]` raises only for a key that is one of the instance's
        copied fields; any other key reads `undefined` and is skipped. */
    method UpdateInstance(instance: Instance, args: Modifier) returns (r: Settled<()>)
      requires Valid()
      modifies this`objects
      ensures Valid()
      ensures !Writable(realm) ==> r == Rejected && objects == old(objects)
      ensures Writable(realm) && args == [] ==> r == Fulfilled(()) && objects == old(objects)
      ensures Writable(realm) && args != [] && Locate(old(objects), instance.handle).None? ==>
        objects == old(objects) && (r == Rejected <==> NamesAField(args, instance.fields))
      ensures Writable(realm) && args != [] && Locate(old(objects), instance.handle).Some? ==>
        var i := Locate(old(objects), instance.handle).value;
        r == Fulfilled(()) && objects == old(objects)[i := Row(instance.handle, Assign(old(objects)[i].fields, args))]
    {
      if !Writable(realm) {
        return Rejected;
      }
      if args == [] {
        return Fulfilled(());
      }
      var at := Locate(objects, instance.handle);
      if at.None? {
        if NamesAField(args, instance.fields) {
          return Rejected;
        }
        return Fulfilled(());
      }
      AssignFields(at.value, args);
      r := Fulfilled(());
    }

    /** Instance `remove()`: deletes the instance's row. */
    method RemoveInstance(instance: Instance) returns (r: Settled<()>)
      requires Valid()
      modifies this`objects
      ensures Valid()
      ensures !Writable(realm) ==> r == Rejected && objects == old(objects)
      ensures Writable(realm) && Locate(old(objects), instance.handle).None? ==>
        r == Rejected && objects == old(objects)
      ensures Writable(realm) && Locate(old(objects), instance.handle).Some? ==>
        r == Fulfilled(()) && objects == Without(old(objects), instance.handle)
    {
      if !Writable(realm) {
        return Rejected;
      }
      var at := Locate(objects, instance.handle);
      if at.None? {
        return Rejected;
      }
      DeleteAt(objects, at.value);
      WithoutDistinct(objects, instance.handle);
      WithoutMembers(objects, instance.handle);
      objects := objects[..at.value] + objects[at.value + 1..];
      r := Fulfilled(());
    }
  }

  /** Inserting into an empty collection, then finding with no filter, gives the
      one created object with its generated `id`. */
  method InsertThenFind(matches: Matcher, sorter: Sorter)
  {
    var m := new RealmModel("Person", Realm);
    var r := m.Insert(map["id" := Str("x"), "name" := Str("a")], "generated");
    UnfilteredQuery(m.objects, [], matches);
    var found := m.Find([], NoOptions, matches, sorter);
    assert found.Returned? && |found.value| == 1;
    assert found.value[0].fields["id"] == Str("generated");
    assert found.value[0].fields["name"] == Str("a");
    var u := m.Update([], [], matches);
    assert u == Returned(Skipped);
  }
}
