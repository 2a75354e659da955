/** The filter compiler (`RealmModel[_buildFilter]`): a filter mapping becomes the
    store's predicate string, one criterion per written-out comparison, joined by
    " AND ". */
module FilterCompiler {
  import opened Values

  /** A filter mapping, as the sequence of its (key, value) entries in lodash's
      iteration order. */
  type Filter = seq<(string, Value)>

  /** The logical-operator keys the compiler recognises and skips. */
  const Reserved: seq<string> := ["$or", "$and"]

  /** The text between two criteria. */
  const Separator: string := " AND "

  /** A top-level equality: `k = "v"` for a string, `k = v` for a number or boolean.
      It starts with the key and ends in a quote exactly when the value is a string. */
  function Equality(k: string, v: Value): (c: string)
    requires IsScalar(v)
    ensures |c| > |k| + 3 && c[..|k| + 3] == k + " = "
    ensures c[|c| - 1] == '"' <==> v.Str?
  {
    if v.Str? then k + " = \"" + v.s + "\""
    else
      RenderUnquoted(v);
      LastOf(k + " = ", Render(v));
      k + " = " + Render(v)
  }

  /** A nested comparison: `k op "v"` for a string, `k op v` for a number or boolean.
      It starts with the key and the operator, and ends in a quote exactly when the
      value is a string. */
  function Comparison(k: string, op: string, v: Value): (c: string)
    requires IsScalar(v)
    ensures |c| > |k| + |op| + 2 && c[..|k| + |op| + 2] == k + " " + op + " "
    ensures c[|c| - 1] == '"' <==> v.Str?
  {
    if v.Str? then k + " " + op + " \"" + v.s + "\""
    else
      RenderUnquoted(v);
      LastOf(k + " " + op + " ", Render(v));
      k + " " + op + " " + Render(v)
  }

  lemma LastOf(a: string, b: string)
    requires |b| > 0
    ensures (a + b)[..|a|] == a && (a + b)[|a + b| - 1] in b
  {
    assert (a + b)[|a + b| - 1] == b[|b| - 1];
  }

  /** The entries of an array as `_.each` visits them: keyed by their index. */
  function Indexed(items: seq<Value>): seq<(string, Value)> {
    seq(|items|, i requires 0 <= i < |items| => (NatToString(i), items[i]))
  }

  /** The index keys of an array are distinct, and each holds its element. */
  lemma IndexedKeysDistinct(items: seq<Value>)
    ensures |Indexed(items)| == |items|
    ensures forall i :: 0 <= i < |items| ==> Indexed(items)[i].1 == items[i]
    ensures forall i, j :: 0 <= i < j < |items| ==> Indexed(items)[i].0 != Indexed(items)[j].0
  {
    forall i, j | 0 <= i < j < |items|
      ensures Indexed(items)[i].0 != Indexed(items)[j].0
    {
      NatToStringInjective(i, j);
    }
  }

  /** The criteria of a nested operator mapping under key `k`: one per string,
      number or boolean entry; every other entry is dropped. */
  function OpCriteria(k: string, ops: seq<(string, Value)>): (cs: seq<string>)
    ensures |cs| <= |ops|
  {
    if ops == [] then []
    else
      var (op, v) := ops[|ops| - 1];
      OpCriteria(k, ops[..|ops| - 1]) + OpCriterion(k, op, v)
  }

  /** The criteria one top-level entry contributes: none for a reserved key or a
      null value, and each longer than the key. */
  function EntryCriteria(entry: (string, Value)): (cs: seq<string>)
    ensures entry.0 in Reserved || entry.1.Null? ==> cs == []
    ensures forall i :: 0 <= i < |cs| ==> |cs[i]| > |entry.0|
  {
    var (k, v) := entry;
    if k in Reserved then []
    else
      match v
      case Str(_) => [Equality(k, v)]
      case Num(_) => [Equality(k, v)]
      case Bool(_) => [Equality(k, v)]
      case Obj(ops) => OpCriteriaNonEmpty(k, ops); OpCriteria(k, ops)
      case Arr(items) => OpCriteriaNonEmpty(k, Indexed(items)); OpCriteria(k, Indexed(items))
      case Null => []
  }

  /** The criteria of the entries of `s` in turn, as a loop appending `f` of each
      element would collect them. */
  function Concat<T>(f: T -> seq<string>, s: seq<T>): seq<string> {
    if s == [] then [] else Concat(f, s[..|s| - 1]) + f(s[|s| - 1])
  }

  lemma {:induction false} ConcatAppend<T>(f: T -> seq<string>, a: seq<T>, b: seq<T>)
    ensures Concat(f, a + b) == Concat(f, a) + Concat(f, b)
  {
    if b == [] {
      assert a + b == a;
    } else {
      assert (a + b)[..|a + b| - 1] == a + b[..|b| - 1];
      ConcatAppend(f, a, b[..|b| - 1]);
    }
  }

  /** The `criteria` array after the compiler has visited every entry of `filter`. */
  function Criteria(filter: Filter): seq<string> {
    Concat(EntryCriteria, filter)
  }

  lemma {:induction false} OpCriteriaNonEmpty(k: string, ops: seq<(string, Value)>)
    ensures forall i :: 0 <= i < |OpCriteria(k, ops)| ==> |OpCriteria(k, ops)[i]| > |k|
  {
    if ops != [] {
      OpCriteriaNonEmpty(k, ops[..|ops| - 1]);
    }
  }

  /** No criterion of a filter is empty. */
  lemma {:induction false} CriteriaNonEmpty(filter: Filter)
    ensures forall i :: 0 <= i < |Criteria(filter)| ==> |Criteria(filter)[i]| > 0
  {
    if filter != [] {
      var init, last := filter[..|filter| - 1], filter[|filter| - 1];
      CriteriaNonEmpty(init);
      assert Criteria(filter) == Criteria(init) + EntryCriteria(last);
    }
  }

  /** `parts.join(sep)`: it starts with the first part and ends with the last. */
  function Join(parts: seq<string>, sep: string): (r: string)
    ensures |parts| > 0 ==> |r| >= |parts[0]| && r[..|parts[0]|] == parts[0]
    ensures |parts| > 0 ==> |r| >= |parts[|parts| - 1]| && r[|r| - |parts[|parts| - 1]|..] == parts[|parts| - 1]
  {
    if |parts| == 0 then ""
    else if |parts| == 1 then parts[0]
    else
      var init := parts[..|parts| - 1];
      var r := Join(init, sep) + sep + parts[|parts| - 1];
      assert init[0] == parts[0];
      assert r[..|parts[0]|] == Join(init, sep)[..|init[0]|];
      r
  }

  function TotalLength(parts: seq<string>): nat {
    if parts == [] then 0 else TotalLength(parts[..|parts| - 1]) + |parts[|parts| - 1]|
  }

  lemma {:induction false} JoinLength(parts: seq<string>, sep: string)
    requires |parts| > 0
    ensures |Join(parts, sep)| == TotalLength(parts) + (|parts| - 1) * |sep|
  {
    if |parts| > 1 {
      JoinLength(parts[..|parts| - 1], sep);
    } else {
      assert parts[..0] == [];
    }
  }

  lemma {:induction false} JoinNonEmpty(parts: seq<string>, sep: string)
    requires forall i :: 0 <= i < |parts| ==> |parts[i]| > 0
    ensures Join(parts, sep) == "" <==> parts == []
  {
    if |parts| > 1 {
      assert |Join(parts, sep)| >= |parts[|parts| - 1]|;
    }
  }

  /** The predicate string `_buildFilter` returns. */
  function Compile(filter: Filter): (filterStr: string)
    ensures filterStr == "" <==> Criteria(filter) == []
  {
    CriteriaNonEmpty(filter);
    JoinNonEmpty(Criteria(filter), Separator);
    Join(Criteria(filter), Separator)
  }

  /** `_buildFilter` as the source runs it: a loop over the entries pushing onto
      `criteria`, with an inner loop for a nested operator mapping. */
  method BuildFilter(filter: Filter) returns (filterStr: string)
    ensures filterStr == Compile(filter)
  {
    var criteria: seq<string> := [];
    var i := 0;
    while i < |filter|
      invariant 0 <= i <= |filter|
      invariant criteria == Criteria(filter[..i])
    {
      var (k, v) := filter[i];
      assert filter[..i + 1][..i] == filter[..i];
      if k in Reserved {
        // logical operators are not compiled
      } else if v.Str? {
        criteria := criteria + [k + " = \"" + v.s + "\""];
      } else if v.Bool? || v.Num? {
        criteria := criteria + [k + " = " + Render(v)];
      } else if v.Obj? {
        criteria := PushOpCriteria(criteria, k, v.entries);
      } else if v.Arr? {
        criteria := PushOpCriteria(criteria, k, Indexed(v.items));
      }
      i := i + 1;
    }
    assert filter[..|filter|] == filter;
    filterStr := Join(criteria, Separator);
  }

  /** The inner loop of `_buildFilter`: one push per string, number or boolean entry. */
  method PushOpCriteria(criteria: seq<string>, k: string, ops: seq<(string, Value)>) returns (pushed: seq<string>)
    ensures pushed == criteria + OpCriteria(k, ops)
  {
    pushed := criteria;
    var j := 0;
    while j < |ops|
      invariant 0 <= j <= |ops|
      invariant pushed == criteria + OpCriteria(k, ops[..j])
    {
      ghost var before := pushed;
      pushed := PushComparison(pushed, k, ops[j].0, ops[j].1);
      OpCriteriaStep(criteria, k, ops, j, before, pushed);
      j := j + 1;
    }
    assert ops[..|ops|] == ops;
  }

  /** The body of the inner `_.each` callback: push the comparison for `(op, opVal)`
      when the value is a string, number or boolean. */
  method PushComparison(criteria: seq<string>, k: string, op: string, opVal: Value) returns (pushed: seq<string>)
    ensures pushed == criteria + OpCriterion(k, op, opVal)
  {
    OpCriterionText(k, op, opVal);
    pushed := criteria;
    if opVal.Str? {
      pushed := pushed + [k + " " + op + " \"" + opVal.s + "\""];
    } else if opVal.Bool? || opVal.Num? {
      pushed := pushed + [k + " " + op + " " + Render(opVal)];
    }
  }

  /** What entry `(op, v)` of a nested mapping adds: its comparison, or nothing. */
  function OpCriterion(k: string, op: string, v: Value): seq<string> {
    if IsScalar(v) then [Comparison(k, op, v)] else []
  }

  /** The text of the comparison an entry adds, as the inner loop writes it. */
  lemma OpCriterionText(k: string, op: string, v: Value)
    ensures v.Str? ==> OpCriterion(k, op, v) == [k + " " + op + " \"" + v.s + "\""]
    ensures v.Bool? || v.Num? ==> OpCriterion(k, op, v) == [k + " " + op + " " + Render(v)]
    ensures !IsScalar(v) ==> OpCriterion(k, op, v) == []
  {
  }

  /** One step of the inner loop: entry `j` appends its comparison, or nothing. */
  lemma OpCriteriaStep(criteria: seq<string>, k: string, ops: seq<(string, Value)>, j: nat,
                       before: seq<string>, after: seq<string>)
    requires j < |ops|
    requires before == criteria + OpCriteria(k, ops[..j])
    requires after == before + OpCriterion(k, ops[j].0, ops[j].1)
    ensures after == criteria + OpCriteria(k, ops[..j + 1])
  {
    assert ops[..j + 1][..j] == ops[..j];
  }

  // ---------------------------------------------------------------------------
  // Properties of the compiler

  lemma CriteriaAppend(a: Filter, b: Filter)
    ensures Criteria(a + b) == Criteria(a) + Criteria(b)
  {
    ConcatAppend(EntryCriteria, a, b);
  }

  /** An empty filter, or one holding only `$or` / `$and` keys, compiles to "". */
  lemma {:induction false} InertFilter(filter: Filter)
    requires forall i :: 0 <= i < |filter| ==> filter[i].0 in Reserved
    ensures Compile(filter) == ""
  {
    if filter != [] {
      InertFilter(filter[..|filter| - 1]);
    }
  }

  /** A reserved key contributes nothing, whatever its value and position. */
  lemma ReservedKeyInert(a: Filter, k: string, v: Value, b: Filter)
    requires k in Reserved
    ensures Criteria(a + [(k, v)] + b) == Criteria(a) + Criteria(b)
  {
    CriteriaAppend(a + [(k, v)], b);
    CriteriaAppend(a, [(k, v)]);
  }

  /** A null or undefined top-level value contributes nothing. */
  lemma NullDropped(a: Filter, k: string, b: Filter)
    ensures Criteria(a + [(k, Null)] + b) == Criteria(a) + Criteria(b)
  {
    CriteriaAppend(a + [(k, Null)], b);
    CriteriaAppend(a, [(k, Null)]);
  }

  /** A string value emits exactly `k = "v"`, between the criteria of its neighbours. */
  lemma StringEquality(a: Filter, k: string, s: string, b: Filter)
    requires k !in Reserved
    ensures Criteria(a + [(k, Str(s))] + b) == Criteria(a) + [k + " = \"" + s + "\""] + Criteria(b)
  {
    CriteriaAppend(a + [(k, Str(s))], b);
    CriteriaAppend(a, [(k, Str(s))]);
  }

  /** A number or boolean emits `k = v` with the value unquoted. */
  lemma UnquotedEquality(a: Filter, k: string, v: Value, b: Filter)
    requires k !in Reserved
    requires v.Num? || v.Bool?
    ensures Criteria(a + [(k, v)] + b) == Criteria(a) + [k + " = " + Render(v)] + Criteria(b)
    ensures '"' !in Render(v)
  {
    CriteriaAppend(a + [(k, v)], b);
    CriteriaAppend(a, [(k, v)]);
    RenderUnquoted(v);
  }

  /** A top-level scalar compiles like the nested mapping `{"=": v}`. */
  lemma EqualityIsEqOperator(k: string, v: Value)
    requires IsScalar(v)
    ensures EntryCriteria((k, v)) == EntryCriteria((k, Obj([("=", v)])))
  {
    assert [("=", v)][..0] == [];
    assert " " + "=" + " \"" == " = \"" && " " + "=" + " " == " = ";
    if v.Str? {
      assert k + " " + "=" + " \"" == k + " = \"";
    } else {
      assert k + " " + "=" + " " == k + " = ";
    }
  }

  /** The string, number and boolean entries of an operator mapping, in order. */
  function ScalarEntries(ops: seq<(string, Value)>): (s: seq<(string, Value)>)
    ensures |s| <= |ops|
    ensures forall i :: 0 <= i < |s| ==> IsScalar(s[i].1)
    ensures forall e :: e in s <==> e in ops && IsScalar(e.1)
  {
    if ops == [] then []
    else
      var init, last := ops[..|ops| - 1], ops[|ops| - 1];
      assert ops == init + [last];
      ScalarEntries(init) + (if IsScalar(last.1) then [last] else [])
  }

  /** A nested mapping emits one comparison per scalar entry, in order, and
      nothing for the other entries. */
  lemma {:induction false} NestedCriteria(k: string, ops: seq<(string, Value)>)
    ensures |OpCriteria(k, ops)| == |ScalarEntries(ops)|
    ensures forall i :: 0 <= i < |ScalarEntries(ops)| ==>
      OpCriteria(k, ops)[i] == Comparison(k, ScalarEntries(ops)[i].0, ScalarEntries(ops)[i].1)
  {
    if ops != [] {
      NestedCriteria(k, ops[..|ops| - 1]);
    }
  }

  /** The compiled string is the criteria with one separator between each
      neighbouring pair: `|criteria| - 1` separators in all. */
  lemma CompiledLength(filter: Filter)
    requires Criteria(filter) != []
    ensures |Compile(filter)| == TotalLength(Criteria(filter)) + (|Criteria(filter)| - 1) * |Separator|
  {
    JoinLength(Criteria(filter), Separator);
  }

  /** Worked examples: a string, a number, a nested comparison and an `$or`. */
  lemma CompileExamples()
    ensures Compile([]) == ""
    ensures Compile([("name", Str("a"))]) == "name = \"a\""
    ensures Compile([("age", Num(42))]) == "age = 42"
    ensures Compile([("age", Obj([(">", Num(5))]))]) == "age > 5"
    ensures Compile([("$or", Obj([("name", Str("a"))]))]) == ""
  {
    var name, age, gt := [("name", Str("a"))], [("age", Num(42))], [("age", Obj([(">", Num(5))]))];
    assert name[..0] == [] && age[..0] == [] && gt[..0] == [] && [(">", Num(5))][..0] == [];
    assert "name" !in Reserved && "age" !in Reserved;
    assert Equality("name", Str("a")) == "name = \"a\"";
    assert Criteria(name) == ["name = \"a\""];
    assert NatToString(42) == "42";
    assert Equality("age", Num(42)) == "age = 42";
    assert Criteria(age) == ["age = 42"];
    assert Comparison("age", ">", Num(5)) == "age > 5";
    assert OpCriteria("age", [(">", Num(5))]) == ["age > 5"];
    assert Criteria(gt) == ["age > 5"];
    assert Criteria([("$or", Obj([("name", Str("a"))]))]) == [];
  }
}
