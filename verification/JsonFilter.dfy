/** The JSON filter language, on both sides of the wire: the server translates a filter to
    an expression for the database (server/src/datastore/filter.rs), the client evaluates
    the same filter on a record (api/src/filter.ts). */
module JsonFilter {
  import opened Values

  datatype Json =
    | JNull
    | JBool(b: bool)
    | JNum(n: int)
    | JStr(s: string)
    | JArr(elems: seq<Json>)
    | JObj(entries: seq<Entry>)

  datatype Entry = Entry(key: string, value: Json)

  predicate IsOperator(key: string) {
    key != "" && key[0] == '$'
  }

  const MAX_DEPTH := 100

  // ---------- server: translation to an expression ----------

  /** Expression values are scalars or null; arrays and objects are refused. */
  function ScalarToValue(j: Json): Result<Value> {
    match j
    case JNull => Ok(Null)
    case JBool(b) => Ok(Bool(b))
    case JNum(n) => Ok(Num(n))
    case JStr(s) => Ok(Str(s))
    case JArr(_) => Err("JSON Array is not supported")
    case JObj(_) => Err("JSON Object is not supported")
  }

  function ComparisonOp(key: string): Result<BinaryOp> {
    if key == "$eq" then Ok(OpEq)
    else if key == "$ne" then Ok(OpNotEq)
    else if key == "$gt" then Ok(OpGt)
    else if key == "$gte" then Ok(OpGtEq)
    else if key == "$lt" then Ok(OpLt)
    else if key == "$lte" then Ok(OpLtEq)
    else Err("encountered unknown comparison operator")
  }

  function ToExpr(j: Json): Result<Expr> {
    ToExprAt(0, j)
  }

  function ToExprAt(depth: nat, j: Json): Result<Expr>
    decreases j, 1
  {
    if depth > MAX_DEPTH then Err("reached maximum expression filter recursion depth of 100")
    else if !j.JObj? then Err("filter value is not an object")
    else ConjoinEntries(depth, j.entries, Const(Bool(true)))
  }

  function ConjoinEntries(depth: nat, entries: seq<Entry>, acc: Expr): Result<Expr>
    decreases entries, 1
  {
    if entries == [] then Ok(acc) else
      match EntryToExpr(depth, entries[0])
      case Err(e) => Err(e)
      case Ok(x) => ConjoinEntries(depth, entries[1..], And(acc, x))
  }

  function EntryToExpr(depth: nat, entry: Entry): Result<Expr>
    decreases entry, 0
  {
    var Entry(key, value) := entry;
    if key == "$and" then
      if value.JArr? then ConjoinFilters(depth, value.elems, Const(Bool(true)))
      else Err("operator $and must be used with an array")
    else if key == "$or" then
      if value.JArr? then DisjoinFilters(depth, value.elems, Const(Bool(false)))
      else Err("operator $or must be used with an array")
    else if key == "$not" then
      match ToExprAt(depth + 1, value)
      case Err(e) => Err(e)
      case Ok(x) => Ok(Not(x))
    else if IsOperator(key) then Err("found an unknown filter operator")
    else FieldToExpr(0, Property(Parameter(0), key), value)
  }

  function ConjoinFilters(depth: nat, filters: seq<Json>, acc: Expr): Result<Expr>
    decreases filters, 0
  {
    if filters == [] then Ok(acc) else
      match ToExprAt(depth + 1, filters[0])
      case Err(e) => Err(e)
      case Ok(x) => ConjoinFilters(depth, filters[1..], And(acc, x))
  }

  function DisjoinFilters(depth: nat, filters: seq<Json>, acc: Expr): Result<Expr>
    decreases filters, 0
  {
    if filters == [] then Ok(acc) else
      match ToExprAt(depth + 1, filters[0])
      case Err(e) => Err(e)
      case Ok(x) => DisjoinFilters(depth, filters[1..], Or(acc, x))
  }

  function FieldToExpr(depth: nat, property: Expr, j: Json): Result<Expr>
    decreases j, 1
  {
    if depth > MAX_DEPTH then Err("reached maximum field filter recursion depth of 100")
    else if j.JObj? then ConjoinFields(depth, property, j.entries, Const(Bool(true)))
    else
      match ScalarToValue(j)
      case Err(e) => Err(e)
      case Ok(v) => Ok(Eq(property, Const(v)))
  }

  function ConjoinFields(depth: nat, property: Expr, entries: seq<Entry>, acc: Expr): Result<Expr>
    decreases entries, 1
  {
    if entries == [] then Ok(acc) else
      match FieldEntryToExpr(depth, property, entries[0])
      case Err(e) => Err(e)
      case Ok(x) => ConjoinFields(depth, property, entries[1..], And(acc, x))
  }

  function FieldEntryToExpr(depth: nat, property: Expr, entry: Entry): Result<Expr>
    decreases entry, 0
  {
    var Entry(key, value) := entry;
    if IsOperator(key) then
      match ComparisonOp(key)
      case Err(e) => Err(e)
      case Ok(op) =>
        match ScalarToValue(value)
        case Err(e) => Err(e)
        case Ok(v) => Ok(Binary(op, property, Const(v)))
    else
      FieldToExpr(depth + 1, Property(property, key), value)
  }

  // The translation as the server runs it: two recursive methods whose loops reassign the
  // expression built so far.

  method TranslateFilter(depth: nat, j: Json) returns (r: Result<Expr>)
    ensures r == ToExprAt(depth, j)
    decreases j, 1
  {
    if depth > MAX_DEPTH {
      return Err("reached maximum expression filter recursion depth of 100");
    }
    if !j.JObj? {
      return Err("filter value is not an object");
    }
    var expr := Const(Bool(true));
    for i := 0 to |j.entries|
      invariant ToExprAt(depth, j) == ConjoinEntries(depth, j.entries[i..], expr)
    {
      var key, value := j.entries[i].key, j.entries[i].value;
      assert j.entries[i..][1..] == j.entries[i + 1..];
      assert j.entries[i] == Entry(key, value);
      var e: Expr;
      if key == "$and" || key == "$or" {
        if !value.JArr? {
          return Err(if key == "$and" then "operator $and must be used with an array"
                     else "operator $or must be used with an array");
        }
        var inner := Const(Bool(key == "$and"));
        for k := 0 to |value.elems|
          invariant EntryToExpr(depth, j.entries[i]) ==
                    if key == "$and" then ConjoinFilters(depth, value.elems[k..], inner)
                    else DisjoinFilters(depth, value.elems[k..], inner)
        {
          assert value.elems[k..][1..] == value.elems[k + 1..];
          var operand := TranslateFilter(depth + 1, value.elems[k]);
          if operand.Err? {
            return operand;
          }
          inner := if key == "$and" then And(inner, operand.value) else Or(inner, operand.value);
        }
        e := inner;
      } else if key == "$not" {
        var operand := TranslateFilter(depth + 1, value);
        if operand.Err? {
          return operand;
        }
        e := Not(operand.value);
      } else {
        if IsOperator(key) {
          return Err("found an unknown filter operator");
        }
        var field := TranslateField(0, Property(Parameter(0), key), value);
        if field.Err? {
          return field;
        }
        e := field.value;
      }
      expr := And(expr, e);
    }
    return Ok(expr);
  }

  method TranslateField(depth: nat, property: Expr, j: Json) returns (r: Result<Expr>)
    ensures r == FieldToExpr(depth, property, j)
    decreases j, 1
  {
    if depth > MAX_DEPTH {
      return Err("reached maximum field filter recursion depth of 100");
    }
    if j.JObj? {
      var expr := Const(Bool(true));
      for i := 0 to |j.entries|
        invariant FieldToExpr(depth, property, j) == ConjoinFields(depth, property, j.entries[i..], expr)
      {
        var key, value := j.entries[i].key, j.entries[i].value;
        assert j.entries[i..][1..] == j.entries[i + 1..];
        assert j.entries[i] == Entry(key, value);
        var e: Expr;
        if IsOperator(key) {
          var op := ComparisonOp(key);
          if op.Err? {
            return Err(op.error);
          }
          var v := ScalarToValue(value);
          if v.Err? {
            return Err(v.error);
          }
          e := Binary(op.value, property, Const(v.value));
        } else {
          var nested := TranslateField(depth + 1, Property(property, key), value);
          if nested.Err? {
            return nested;
          }
          e := nested.value;
        }
        expr := And(expr, e);
      }
      return Ok(expr);
    } else {
      var v := ScalarToValue(j);
      if v.Err? {
        return Err(v.error);
      }
      return Ok(Eq(property, Const(v.value)));
    }
  }

  // ---------- client: evaluation on a record ----------

  function EvalFilter(j: Json, record: Record): Result<bool>
    decreases j, 1
  {
    if j.JObj? then EveryEntry(j.entries, record) else Err("filter is not an object")
  }

  /** `every` stops at the first entry that is false or throws. */
  function EveryEntry(entries: seq<Entry>, record: Record): Result<bool>
    decreases entries, 1
  {
    if entries == [] then Ok(true) else
      match EvalEntry(entries[0], record)
      case Ok(true) => EveryEntry(entries[1..], record)
      case other => other
  }

  function EvalEntry(entry: Entry, record: Record): Result<bool>
    decreases entry, 0
  {
    var Entry(key, value) := entry;
    if key == "$and" then
      if value.JArr? then EveryFilter(value.elems, record) else Err("not an array")
    else if key == "$or" then
      if value.JArr? then SomeFilter(value.elems, record) else Err("not an array")
    else if key == "$not" then
      match EvalFilter(value, record)
      case Ok(b) => Ok(!b)
      case other => other
    else EvalField(value, Lookup(record, key))
  }

  function EveryFilter(filters: seq<Json>, record: Record): Result<bool>
    decreases filters, 0
  {
    if filters == [] then Ok(true) else
      match EvalFilter(filters[0], record)
      case Ok(true) => EveryFilter(filters[1..], record)
      case other => other
  }

  function SomeFilter(filters: seq<Json>, record: Record): Result<bool>
    decreases filters, 0
  {
    if filters == [] then Ok(false) else
      match EvalFilter(filters[0], record)
      case Ok(false) => SomeFilter(filters[1..], record)
      case other => other
  }

  function EvalField(j: Json, v: Value): Result<bool>
    decreases j, 1
  {
    if j.JObj? then EveryField(j.entries, v)
    else if v.Entity? then Err("failed to filter with filter value")
    else
      match ScalarToValue(j)
      case Ok(w) => Ok(v == w)
      case Err(e) => Err(e)
  }

  function EveryField(entries: seq<Entry>, v: Value): Result<bool>
    decreases entries, 1
  {
    if entries == [] then Ok(true) else
      match EvalFieldEntry(entries[0], v)
      case Ok(true) => EveryField(entries[1..], v)
      case other => other
  }

  function EvalFieldEntry(entry: Entry, v: Value): Result<bool>
    decreases entry, 0
  {
    if v.Entity? then
      if entry.key in v.fields then EvalField(entry.value, v.fields[entry.key])
      else Err("key not contained in entity value")
    else
      match ScalarToValue(entry.value)
      case Ok(w) => EvalOperator(entry.key, w, v)
      case Err(e) => Err(e)
  }

  function EvalOperator(op: string, w: Value, v: Value): Result<bool> {
    if op == "$eq" then Ok(v == w)
    else if op == "$ne" then Ok(v != w)
    else if IsMissing(v) then Err("can't apply comparison operator to a value")
    else if IsMissing(w) then Err("can't apply comparison operator to a filter value")
    else if op == "$gt" then Ok(Less(w, v))
    else if op == "$gte" then Ok(!Less(v, w))
    else if op == "$lt" then Ok(Less(v, w))
    else if op == "$lte" then Ok(!Less(w, v))
    else Err("trying to filter with an unexpected operator")
  }

  // ---------- types ----------

  datatype Kind = BoolKind | NumKind | StrKind

  /** What the TypeScript type of a filter admits: a type of scalars and nested entities. */
  datatype FieldType = Scalar(kind: Kind) | Nested(fields: RecordType)

  type RecordType = map<string, FieldType>

  predicate KindOf(v: Value, k: Kind) {
    match k
    case BoolKind => v.Bool?
    case NumKind => v.Num?
    case StrKind => v.Str?
  }

  predicate JsonKindOf(j: Json, k: Kind) {
    match k
    case BoolKind => j.JBool?
    case NumKind => j.JNum?
    case StrKind => j.JStr?
  }

  /** A record of a type holds a non-null value of the right kind in every field. */
  predicate HasType(r: Record, t: RecordType) {
    FieldHasType(Entity(r), Nested(t))
  }

  predicate FieldHasType(v: Value, t: FieldType)
    decreases t
  {
    match t
    case Scalar(k) => KindOf(v, k)
    case Nested(fields) =>
      v.Entity? && fields.Keys <= v.fields.Keys && forall k | k in fields :: FieldHasType(v.fields[k], fields[k])
  }

  /** What a filter can tell of a type: a record fits when every field that an accepted filter
      can name, that is by no operator's name and nested within the depth limit, holds a
      non-null value of its kind. */
  predicate Fits(r: Record, t: RecordType) {
    forall k | k in t && !IsOperator(k) :: FieldFits(Lookup(r, k), t[k], 0)
  }

  predicate FieldFits(v: Value, t: FieldType, depth: nat)
    decreases t
  {
    match t
    case Scalar(k) => KindOf(v, k)
    case Nested(fields) =>
      forall k | k in fields && !IsOperator(k) && depth < MAX_DEPTH ::
        v.Entity? && k in v.fields && FieldFits(v.fields[k], fields[k], depth + 1)
  }

  lemma {:induction false} TypedFieldFits(v: Value, t: FieldType, depth: nat)
    requires FieldHasType(v, t)
    ensures FieldFits(v, t, depth)
    decreases t
  {
    if t.Nested? {
      forall k | k in t.fields ensures FieldFits(v.fields[k], t.fields[k], depth + 1) {
        TypedFieldFits(v.fields[k], t.fields[k], depth + 1);
      }
    }
  }

  lemma TypedFits(r: Record, t: RecordType)
    requires HasType(r, t)
    ensures Fits(r, t)
  {
    forall k | k in t ensures FieldFits(Lookup(r, k), t[k], 0) {
      assert FieldHasType(Entity(r).fields[k], t[k]);
      TypedFieldFits(r[k], t[k], 0);
    }
  }

  predicate WellTyped(j: Json, t: RecordType)
    decreases j, 1
  {
    j.JObj? && forall e | e in j.entries :: WellTypedEntry(e, t)
  }

  predicate WellTypedEntry(e: Entry, t: RecordType)
    decreases e, 0
  {
    if e.key == "$and" || e.key == "$or" then
      e.value.JArr? && forall f | f in e.value.elems :: WellTyped(f, t)
    else if e.key == "$not" then WellTyped(e.value, t)
    else !IsOperator(e.key) && e.key in t && WellTypedField(e.value, t[e.key])
  }

  predicate WellTypedField(j: Json, t: FieldType)
    decreases j, 1
  {
    match t
    case Scalar(k) =>
      JsonKindOf(j, k) || (j.JObj? && forall e | e in j.entries :: ComparisonOp(e.key).Ok? && JsonKindOf(e.value, k))
    case Nested(fields) =>
      j.JObj? && forall e | e in j.entries ::
        !IsOperator(e.key) && e.key in fields && WellTypedField(e.value, fields[e.key])
  }

  /** The record holds a non-null value of the right kind in every field that the filter reads. */
  ghost predicate FitsFilter(j: Json, r: Record) {
    exists t :: WellTyped(j, t) && Fits(r, t)
  }

  // ---------- depth ----------

  /** Nesting of `$and`, `$or` and `$not` below this filter. */
  function Depth(j: Json): nat
    decreases j, 1
  {
    if j.JObj? then DepthOfEntries(j.entries) else 0
  }

  function DepthOfEntries(entries: seq<Entry>): nat
    decreases entries, 1
  {
    if entries == [] then 0 else Max(DepthOfEntry(entries[0]), DepthOfEntries(entries[1..]))
  }

  function DepthOfEntry(e: Entry): nat
    decreases e, 0
  {
    if e.key == "$not" then 1 + Depth(e.value)
    else if (e.key == "$and" || e.key == "$or") && e.value.JArr? then DepthOfFilters(e.value.elems)
    else 0
  }

  function DepthOfFilters(filters: seq<Json>): nat
    decreases filters, 0
  {
    if filters == [] then 0 else Max(1 + Depth(filters[0]), DepthOfFilters(filters[1..]))
  }

  function Max(a: nat, b: nat): nat { if a < b then b else a }

  /** Nesting of entity fields below a field filter. */
  function FieldDepth(j: Json): nat
    decreases j, 1
  {
    if j.JObj? then FieldDepthOfEntries(j.entries) else 0
  }

  function FieldDepthOfEntries(entries: seq<Entry>): nat
    decreases entries, 0
  {
    if entries == [] then 0
    else Max(if IsOperator(entries[0].key) then 0 else 1 + FieldDepth(entries[0].value),
             FieldDepthOfEntries(entries[1..]))
  }

  /** The deepest field filter anywhere in the filter. */
  function MaxFieldDepth(j: Json): nat
    decreases j, 1
  {
    if j.JObj? then MaxFieldDepthOfEntries(j.entries) else 0
  }

  function MaxFieldDepthOfEntries(entries: seq<Entry>): nat
    decreases entries, 1
  {
    if entries == [] then 0 else Max(MaxFieldDepthOfEntry(entries[0]), MaxFieldDepthOfEntries(entries[1..]))
  }

  function MaxFieldDepthOfEntry(e: Entry): nat
    decreases e, 0
  {
    if e.key == "$not" then MaxFieldDepth(e.value)
    else if e.key == "$and" || e.key == "$or" then
      if e.value.JArr? then MaxFieldDepthOfFilters(e.value.elems) else 0
    else FieldDepth(e.value)
  }

  function MaxFieldDepthOfFilters(filters: seq<Json>): nat
    decreases filters, 0
  {
    if filters == [] then 0 else Max(MaxFieldDepth(filters[0]), MaxFieldDepthOfFilters(filters[1..]))
  }

  // ---------- what the translation accepts ----------

  /** A filter that the server understands: an object of `$and` and `$or` over arrays of filters,
      `$not` over a filter, and field filters under names without a dollar. */
  predicate IsFilter(j: Json)
    decreases j, 1
  {
    j.JObj? && forall e | e in j.entries :: IsFilterEntry(e)
  }

  predicate IsFilterEntry(e: Entry)
    decreases e, 0
  {
    if e.key == "$and" || e.key == "$or" then e.value.JArr? && forall f | f in e.value.elems :: IsFilter(f)
    else if e.key == "$not" then IsFilter(e.value)
    else (e.key == "" || e.key[0] != '$') && IsFieldFilter(e.value)
  }

  /** A constant, or an object of comparisons with constants and of filters on nested fields. */
  predicate IsFieldFilter(j: Json)
    decreases j, 1
  {
    if !j.JObj? then !j.JArr?
    else forall e | e in j.entries ::
      if e.key != "" && e.key[0] == '$' then
        e.key in ["$eq", "$ne", "$gt", "$gte", "$lt", "$lte"] && !e.value.JArr? && !e.value.JObj?
      else IsFieldFilter(e.value)
  }

  /** Whatever JSON comes in, it is translated exactly when it is a filter and not nested more than
      a hundred deep, in its operators or in its fields. */
  lemma TranslatesIff(j: Json)
    ensures ToExpr(j).Ok? <==> IsFilter(j) && Depth(j) <= 100 && MaxFieldDepth(j) <= 100
  {
    TranslatesAt(0, j);
  }

  lemma {:induction false} TranslatesAt(depth: nat, j: Json)
    ensures ToExprAt(depth, j).Ok? <==> IsFilter(j) && depth + Depth(j) <= 100 && MaxFieldDepth(j) <= 100
    decreases j, 1
  {
    if depth <= 100 && j.JObj? {
      TranslatesEntries(depth, j.entries, Const(Bool(true)));
    }
  }

  lemma {:induction false} TranslatesEntries(depth: nat, entries: seq<Entry>, acc: Expr)
    requires depth <= 100
    ensures ConjoinEntries(depth, entries, acc).Ok? <==>
            && (forall e | e in entries :: IsFilterEntry(e))
            && depth + DepthOfEntries(entries) <= 100 && MaxFieldDepthOfEntries(entries) <= 100
    decreases entries, 1
  {
    if entries != [] {
      var e := entries[0];
      assert entries == [e] + entries[1..];
      TranslatesEntry(depth, e);
      var x := EntryToExpr(depth, e);
      if x.Ok? {
        TranslatesEntries(depth, entries[1..], And(acc, x.value));
      }
    }
  }

  lemma {:induction false} TranslatesEntry(depth: nat, e: Entry)
    requires depth <= 100
    ensures EntryToExpr(depth, e).Ok? <==>
            IsFilterEntry(e) && depth + DepthOfEntry(e) <= 100 && MaxFieldDepthOfEntry(e) <= 100
    decreases e, 0
  {
    if e.key == "$and" {
      if e.value.JArr? {
        TranslatesConjunction(depth, e.value.elems, Const(Bool(true)));
      }
    } else if e.key == "$or" {
      if e.value.JArr? {
        TranslatesDisjunction(depth, e.value.elems, Const(Bool(false)));
      }
    } else if e.key == "$not" {
      TranslatesAt(depth + 1, e.value);
    } else {
      TranslatesField(0, Property(Parameter(0), e.key), e.value);
    }
  }

  lemma {:induction false} TranslatesConjunction(depth: nat, filters: seq<Json>, acc: Expr)
    requires depth <= 100
    ensures ConjoinFilters(depth, filters, acc).Ok? <==>
            && (forall f | f in filters :: IsFilter(f))
            && depth + DepthOfFilters(filters) <= 100 && MaxFieldDepthOfFilters(filters) <= 100
    decreases filters, 0
  {
    if filters != [] {
      assert filters == [filters[0]] + filters[1..];
      TranslatesAt(depth + 1, filters[0]);
      var x := ToExprAt(depth + 1, filters[0]);
      if x.Ok? {
        TranslatesConjunction(depth, filters[1..], And(acc, x.value));
      }
    }
  }

  lemma {:induction false} TranslatesDisjunction(depth: nat, filters: seq<Json>, acc: Expr)
    requires depth <= 100
    ensures DisjoinFilters(depth, filters, acc).Ok? <==>
            && (forall f | f in filters :: IsFilter(f))
            && depth + DepthOfFilters(filters) <= 100 && MaxFieldDepthOfFilters(filters) <= 100
    decreases filters, 0
  {
    if filters != [] {
      assert filters == [filters[0]] + filters[1..];
      TranslatesAt(depth + 1, filters[0]);
      var x := ToExprAt(depth + 1, filters[0]);
      if x.Ok? {
        TranslatesDisjunction(depth, filters[1..], Or(acc, x.value));
      }
    }
  }

  lemma {:induction false} TranslatesField(depth: nat, property: Expr, j: Json)
    ensures FieldToExpr(depth, property, j).Ok? <==> IsFieldFilter(j) && depth + FieldDepth(j) <= 100
    decreases j, 1
  {
    if depth <= 100 && j.JObj? {
      TranslatesFields(depth, property, j.entries, Const(Bool(true)));
    }
  }

  lemma {:induction false} TranslatesFields(depth: nat, property: Expr, entries: seq<Entry>, acc: Expr)
    requires depth <= 100
    ensures ConjoinFields(depth, property, entries, acc).Ok? <==>
            IsFieldFilter(JObj(entries)) && depth + FieldDepthOfEntries(entries) <= 100
    decreases entries, 1
  {
    if entries != [] {
      var x := FieldEntryToExpr(depth, property, entries[0]);
      TranslatesFieldEntry(depth, property, entries[0]);
      FieldFilterTail(entries);
      if x.Ok? {
        TranslatesFields(depth, property, entries[1..], And(acc, x.value));
      }
    }
  }

  lemma {:induction false} TranslatesFieldEntry(depth: nat, property: Expr, e: Entry)
    requires depth <= 100
    ensures FieldEntryToExpr(depth, property, e).Ok? <==>
            IsFieldFilter(JObj([e])) && (!IsOperator(e.key) ==> depth + 1 + FieldDepth(e.value) <= 100)
    decreases e, 0
  {
    assert JObj([e]).entries == [e];
    if !IsOperator(e.key) {
      TranslatesField(depth + 1, Property(property, e.key), e.value);
    }
  }

  lemma FieldFilterTail(entries: seq<Entry>)
    requires entries != []
    ensures IsFieldFilter(JObj(entries)) <==> IsFieldFilter(JObj([entries[0]])) && IsFieldFilter(JObj(entries[1..]))
  {
    assert entries == [entries[0]] + entries[1..];
    assert JObj(entries).entries == entries && JObj(entries[1..]).entries == entries[1..];
    assert JObj([entries[0]]).entries == [entries[0]];
  }

  /** A well-typed filter is refused only for being nested too deeply, and then always. */
  lemma TranslatesIffShallow(j: Json, t: RecordType)
    requires WellTyped(j, t)
    ensures ToExpr(j).Ok? <==> Depth(j) <= 100 && MaxFieldDepth(j) <= 100
  {
    WellTypedIsFilter(j, t);
    TranslatesIff(j);
  }

  lemma {:induction false} WellTypedIsFilter(j: Json, t: RecordType)
    requires WellTyped(j, t)
    ensures IsFilter(j)
    decreases j, 1
  {
    forall e | e in j.entries ensures IsFilterEntry(e) {
      if e.key == "$and" || e.key == "$or" {
        forall f | f in e.value.elems ensures IsFilter(f) {
          WellTypedIsFilter(f, t);
        }
      } else if e.key == "$not" {
        WellTypedIsFilter(e.value, t);
      } else {
        WellTypedIsFieldFilter(e.value, t[e.key]);
      }
    }
  }

  lemma {:induction false} WellTypedIsFieldFilter(j: Json, t: FieldType)
    requires WellTypedField(j, t)
    ensures IsFieldFilter(j)
    decreases j, 1
  {
    if j.JObj? {
      forall e | e in j.entries && !IsOperator(e.key) ensures IsFieldFilter(e.value) {
        if t.Scalar? {
          OperatorKeys(e.key);
        } else {
          WellTypedIsFieldFilter(e.value, t.fields[e.key]);
        }
      }
    }
  }

  lemma OperatorKeys(key: string)
    requires ComparisonOp(key).Ok?
    ensures IsOperator(key)
  {}

  // ---------- both sides agree ----------

  /** On a record that fits its type, a well-typed filter that the server accepts is evaluated
      without an exception by the client, and to the truth value the database computes. */
  lemma FilterAgrees(j: Json, t: RecordType, record: Record)
    requires WellTyped(j, t) && Fits(record, t) && ToExpr(j).Ok?
    ensures EvalFilter(j, record).Ok?
    ensures Eval(ToExpr(j).value, record) == Bool(EvalFilter(j, record).value)
  {
    AgreesAt(0, j, t, record);
  }

  lemma {:induction false} AgreesAt(depth: nat, j: Json, t: RecordType, record: Record)
    requires WellTyped(j, t) && Fits(record, t) && ToExprAt(depth, j).Ok?
    ensures EvalFilter(j, record).Ok?
    ensures Eval(ToExprAt(depth, j).value, record) == Bool(EvalFilter(j, record).value)
    decreases j, 1
  {
    EntriesAgree(depth, j.entries, Const(Bool(true)), true, t, record);
  }

  lemma {:induction false} EntriesAgree(depth: nat, entries: seq<Entry>, acc: Expr, so: bool, t: RecordType,
                                        record: Record)
    requires Fits(record, t) && forall e | e in entries :: WellTypedEntry(e, t)
    requires ConjoinEntries(depth, entries, acc).Ok? && Eval(acc, record) == Bool(so)
    ensures EveryEntry(entries, record).Ok?
    ensures Eval(ConjoinEntries(depth, entries, acc).value, record) == Bool(so && EveryEntry(entries, record).value)
    decreases entries, 1
  {
    if entries != [] {
      var e := entries[0];
      assert e in entries;
      EntryAgrees(depth, e, t, record);
      EntriesAgree(depth, entries[1..], And(acc, EntryToExpr(depth, e).value),
                   so && EvalEntry(e, record).value, t, record);
    }
  }

  lemma {:induction false} EntryAgrees(depth: nat, e: Entry, t: RecordType, record: Record)
    requires Fits(record, t) && WellTypedEntry(e, t) && EntryToExpr(depth, e).Ok?
    ensures EvalEntry(e, record).Ok?
    ensures Eval(EntryToExpr(depth, e).value, record) == Bool(EvalEntry(e, record).value)
    decreases e, 0
  {
    if e.key == "$and" {
      ConjunctionAgrees(depth, e.value.elems, Const(Bool(true)), true, t, record);
    } else if e.key == "$or" {
      DisjunctionAgrees(depth, e.value.elems, Const(Bool(false)), false, t, record);
    } else if e.key == "$not" {
      AgreesAt(depth + 1, e.value, t, record);
    } else {
      FieldAgrees(0, Property(Parameter(0), e.key), e.value, t[e.key], Lookup(record, e.key), record);
    }
  }

  lemma {:induction false} ConjunctionAgrees(depth: nat, filters: seq<Json>, acc: Expr, so: bool, t: RecordType,
                                             record: Record)
    requires Fits(record, t) && forall f | f in filters :: WellTyped(f, t)
    requires ConjoinFilters(depth, filters, acc).Ok? && Eval(acc, record) == Bool(so)
    ensures EveryFilter(filters, record).Ok?
    ensures Eval(ConjoinFilters(depth, filters, acc).value, record) == Bool(so && EveryFilter(filters, record).value)
    decreases filters, 0
  {
    if filters != [] {
      AgreesAt(depth + 1, filters[0], t, record);
      ConjunctionAgrees(depth, filters[1..], And(acc, ToExprAt(depth + 1, filters[0]).value),
                        so && EvalFilter(filters[0], record).value, t, record);
    }
  }

  lemma {:induction false} DisjunctionAgrees(depth: nat, filters: seq<Json>, acc: Expr, so: bool, t: RecordType,
                                             record: Record)
    requires Fits(record, t) && forall f | f in filters :: WellTyped(f, t)
    requires DisjoinFilters(depth, filters, acc).Ok? && Eval(acc, record) == Bool(so)
    ensures SomeFilter(filters, record).Ok?
    ensures Eval(DisjoinFilters(depth, filters, acc).value, record) == Bool(so || SomeFilter(filters, record).value)
    decreases filters, 0
  {
    if filters != [] {
      AgreesAt(depth + 1, filters[0], t, record);
      DisjunctionAgrees(depth, filters[1..], Or(acc, ToExprAt(depth + 1, filters[0]).value),
                        so || EvalFilter(filters[0], record).value, t, record);
    }
  }

  lemma {:induction false} FieldAgrees(depth: nat, property: Expr, j: Json, t: FieldType, v: Value, record: Record)
    requires Eval(property, record) == v && FieldFits(v, t, depth)
    requires WellTypedField(j, t) && FieldToExpr(depth, property, j).Ok?
    ensures EvalField(j, v).Ok?
    ensures Eval(FieldToExpr(depth, property, j).value, record) == Bool(EvalField(j, v).value)
    decreases j, 1
  {
    if j.JObj? {
      FieldsAgree(depth, property, j.entries, Const(Bool(true)), true, t, v, record);
    }
  }

  lemma {:induction false} FieldsAgree(depth: nat, property: Expr, entries: seq<Entry>, acc: Expr, so: bool,
                                       t: FieldType, v: Value, record: Record)
    requires Eval(property, record) == v && FieldFits(v, t, depth)
    requires WellTypedField(JObj(entries), t)
    requires ConjoinFields(depth, property, entries, acc).Ok? && Eval(acc, record) == Bool(so)
    ensures EveryField(entries, v).Ok?
    ensures Eval(ConjoinFields(depth, property, entries, acc).value, record) == Bool(so && EveryField(entries, v).value)
    decreases entries, 1
  {
    if entries != [] {
      var e := entries[0];
      assert e in entries;
      FieldEntryAgrees(depth, property, e, t, v, record);
      FieldsAgree(depth, property, entries[1..], And(acc, FieldEntryToExpr(depth, property, e).value),
                  so && EvalFieldEntry(e, v).value, t, v, record);
    }
  }

  lemma {:induction false} FieldEntryAgrees(depth: nat, property: Expr, e: Entry, t: FieldType, v: Value,
                                            record: Record)
    requires Eval(property, record) == v && FieldFits(v, t, depth)
    requires WellTypedField(JObj([e]), t)
    requires FieldEntryToExpr(depth, property, e).Ok?
    ensures EvalFieldEntry(e, v).Ok?
    ensures Eval(FieldEntryToExpr(depth, property, e).value, record) == Bool(EvalFieldEntry(e, v).value)
    decreases e, 0
  {
    assert e in [e];
    if t.Scalar? {
      OperatorKeys(e.key);
      ComparisonAgrees(e.key, ScalarToValue(e.value).value, v);
    } else {
      FieldAgrees(depth + 1, Property(property, e.key), e.value, t.fields[e.key], v.fields[e.key], record);
    }
  }

  lemma ComparisonAgrees(key: string, w: Value, v: Value)
    requires ComparisonOp(key).Ok? && IsScalar(w) && IsScalar(v)
    ensures EvalOperator(key, w, v) == Ok(Compare(ComparisonOp(key).value, v, w))
  {}

  // ---------- and where they do not ----------

  /** The client keeps a record, without an exception, exactly when the database does. */
  predicate Agrees(j: Json, record: Record)
    requires ToExpr(j).Ok?
  {
    EvalFilter(j, record).Ok? && (EvalFilter(j, record).value <==> Holds(ToExpr(j).value, record))
  }

  /** Every field is missing or has its type. */
  predicate MissingOrTyped(v: Value, t: FieldType)
    decreases t
  {
    IsMissing(v) ||
    match t
    case Scalar(k) => KindOf(v, k)
    case Nested(fields) =>
      v.Entity? && forall k | k in fields && k in v.fields :: MissingOrTyped(v.fields[k], fields[k])
  }

  function SomeConstant(k: Kind): Json {
    match k
    case BoolKind => JBool(true)
    case NumKind => JNum(1)
    case StrKind => JStr("")
  }

  /** A field filter that the client answers otherwise than the database. */
  ghost predicate Misleads(jf: Json, t: FieldType, depth: nat, property: Expr, v: Value, record: Record) {
    && WellTypedField(jf, t) && FieldToExpr(depth, property, jf).Ok?
    && (EvalField(jf, v).Err? || (EvalField(jf, v).value && !Holds(FieldToExpr(depth, property, jf).value, record)))
  }

  /** Where a field does not fit, a missing value is found on the way down. */
  lemma {:induction false} MisleadingField(v: Value, t: FieldType, depth: nat, property: Expr, record: Record)
    returns (jf: Json)
    requires depth <= MAX_DEPTH && Eval(property, record) == v && MissingOrTyped(v, t) && !FieldFits(v, t, depth)
    ensures Misleads(jf, t, depth, property, v, record)
    decreases t
  {
    match t
    case Scalar(k) =>
      jf := JObj([Entry("$ne", SomeConstant(k))]);
      MissingUnderNe(k, depth, property, v, record);
    case Nested(fields) =>
      var k :| k in fields && !IsOperator(k) &&
        !(v.Entity? && k in v.fields && FieldFits(v.fields[k], fields[k], depth + 1));
      var inner: Json;
      if v.Entity? && k in v.fields {
        inner := MisleadingField(v.fields[k], fields[k], depth + 1, Property(property, k), record);
      } else {
        inner := if fields[k].Scalar? then SomeConstant(fields[k].kind) else JObj([]);
      }
      jf := JObj([Entry(k, inner)]);
      OneFieldEntry(depth, property, Entry(k, inner), v, record);
  }

  lemma MissingUnderNe(k: Kind, depth: nat, property: Expr, v: Value, record: Record)
    requires depth <= MAX_DEPTH && Eval(property, record) == v && IsMissing(v)
    ensures Misleads(JObj([Entry("$ne", SomeConstant(k))]), Scalar(k), depth, property, v, record)
  {
    OneFieldEntry(depth, property, Entry("$ne", SomeConstant(k)), v, record);
  }

  /** A field filter with one entry says what the entry says. */
  lemma OneFieldEntry(depth: nat, property: Expr, e: Entry, v: Value, record: Record)
    requires depth <= MAX_DEPTH
    ensures EvalField(JObj([e]), v) == EvalFieldEntry(e, v)
    ensures FieldToExpr(depth, property, JObj([e])).Ok? <==> FieldEntryToExpr(depth, property, e).Ok?
    ensures FieldEntryToExpr(depth, property, e).Ok? ==>
              (Holds(FieldToExpr(depth, property, JObj([e])).value, record) <==>
               Holds(FieldEntryToExpr(depth, property, e).value, record))
  {
    assert [e][1..] == [];
    assert EveryField([e][1..], v) == Ok(true);
    assert EvalField(JObj([e]), v) == EveryField([e], v);
    assert FieldToExpr(depth, property, JObj([e])) == ConjoinFields(depth, property, [e], Const(Bool(true)));
    if FieldEntryToExpr(depth, property, e).Ok? {
      var x := FieldEntryToExpr(depth, property, e).value;
      assert ConjoinFields(depth, property, [e], Const(Bool(true))) ==
             ConjoinFields(depth, property, [], And(Const(Bool(true)), x));
      TrueAnd(x, record);
    }
  }

  lemma TrueAnd(x: Expr, record: Record)
    ensures Holds(And(Const(Bool(true)), x), record) <==> Holds(x, record)
  {
    assert Eval(Const(Bool(true)), record) == Bool(true);
  }

  /** A filter on one field says what its field filter says. */
  lemma OneEntry(name: string, jf: Json, record: Record)
    requires !IsOperator(name)
    ensures var j, property := JObj([Entry(name, jf)]), Property(Parameter(0), name);
            && EvalFilter(j, record) == EvalField(jf, Lookup(record, name))
            && (ToExpr(j).Ok? <==> FieldToExpr(0, property, jf).Ok?)
            && (ToExpr(j).Ok? ==>
                  (Holds(ToExpr(j).value, record) <==> Holds(FieldToExpr(0, property, jf).value, record)))
  {
    var e, property := Entry(name, jf), Property(Parameter(0), name);
    var j := JObj([e]);
    assert [e][1..] == [];
    assert EveryEntry([e][1..], record) == Ok(true);
    assert EvalEntry(e, record) == EvalField(jf, Lookup(record, name));
    assert EvalFilter(j, record) == EveryEntry([e], record);
    assert EntryToExpr(0, e) == FieldToExpr(0, property, jf);
    assert ToExpr(j) == ConjoinEntries(0, [e], Const(Bool(true)));
    if FieldToExpr(0, property, jf).Ok? {
      var x := FieldToExpr(0, property, jf).value;
      assert ConjoinEntries(0, [e], Const(Bool(true))) == ConjoinEntries(0, [], And(Const(Bool(true)), x));
      TrueAnd(x, record);
    }
  }

  /** A missing scalar field breaks the agreement: the client keeps the record under `$ne`, the
      database does not. */
  lemma NullBreaksAgreement(name: string, t: RecordType, record: Record) returns (j: Json)
    requires name in t && t[name].Scalar? && !IsOperator(name) && IsMissing(Lookup(record, name))
    ensures j == JObj([Entry(name, JObj([Entry("$ne", SomeConstant(t[name].kind))]))])
    ensures WellTyped(j, t) && ToExpr(j).Ok?
    ensures EvalFilter(j, record) == Ok(true) && !Holds(ToExpr(j).value, record)
  {
    var jf, property := JObj([Entry("$ne", SomeConstant(t[name].kind))]), Property(Parameter(0), name);
    j := JObj([Entry(name, jf)]);
    MissingUnderNe(t[name].kind, 0, property, Lookup(record, name), record);
    OneFieldEntry(0, property, Entry("$ne", SomeConstant(t[name].kind)), Lookup(record, name), record);
    OneEntry(name, jf, record);
  }

  /** For a record whose fields are missing or of their type, both sides agree on all filters
      that are well typed and accepted if and only if no field that such a filter can name is
      missing. */
  lemma AgreeOnAllIff(t: RecordType, record: Record)
    requires MissingOrTyped(Entity(record), Nested(t))
    ensures (forall j | WellTyped(j, t) && ToExpr(j).Ok? :: Agrees(j, record)) <==> Fits(record, t)
  {
    if Fits(record, t) {
      forall j | WellTyped(j, t) && ToExpr(j).Ok? ensures Agrees(j, record) {
        FilterAgrees(j, t, record);
      }
    } else {
      var k :| k in t && !IsOperator(k) && !FieldFits(Lookup(record, k), t[k], 0);
      var jf := MisleadingField(Lookup(record, k), t[k], 0, Property(Parameter(0), k), record);
      var j := JObj([Entry(k, jf)]);
      OneEntry(k, jf, record);
      assert WellTypedEntry(Entry(k, jf), t) && WellTyped(j, t) && ToExpr(j).Ok?;
      assert !Agrees(j, record);
    }
  }

  /** After leading `$ne` entries comes `$eq`. */
  predicate NeThenEq(entries: seq<Entry>) {
    entries != [] && (entries[0].key == "$eq" || (entries[0].key == "$ne" && NeThenEq(entries[1..])))
  }

  /** One filter on one missing scalar field: the sides agree on plain equality, on no condition
      at all, and on conditions that an `$eq` decides before any comparison that throws. */
  lemma MissingFieldAgreesIff(name: string, jf: Json, k: Kind, record: Record)
    requires !IsOperator(name) && IsMissing(Lookup(record, name)) && WellTypedField(jf, Scalar(k))
    ensures var j := JObj([Entry(name, jf)]);
            && ToExpr(j).Ok?
            && (Agrees(j, record) <==> jf.JObj? ==> jf.entries == [] || NeThenEq(jf.entries))
  {
    var property, v := Property(Parameter(0), name), Lookup(record, name);
    OneEntry(name, jf, record);
    WellTypedIsFieldFilter(jf, Scalar(k));
    TranslatesField(0, property, jf);
    ScalarDepth(jf, k);
    assert Eval(property, record) == v;
    var e := FieldToExpr(0, property, jf).value;
    if jf.JObj? {
      assert EvalField(jf, v) == EveryField(jf.entries, v);
      MissingUnderEntries(jf.entries, k, v);
      if jf.entries != [] {
        MissingIsNeverHeld(jf.entries, property, k, Const(Bool(true)), record);
      } else {
        assert e == Const(Bool(true));
      }
    } else {
      assert EvalField(jf, v) == Ok(false);
      assert Eval(e, record) == Null;
    }
  }

  lemma {:induction false} ScalarDepth(jf: Json, k: Kind)
    requires WellTypedField(jf, Scalar(k))
    ensures FieldDepth(jf) == 0
    decreases jf
  {
    if jf.JObj? {
      ScalarDepths(jf.entries);
    }
  }

  lemma {:induction false} ScalarDepths(entries: seq<Entry>)
    requires forall e | e in entries :: ComparisonOp(e.key).Ok?
    ensures FieldDepthOfEntries(entries) == 0
  {
    if entries != [] {
      assert entries[0] in entries;
      OperatorKeys(entries[0].key);
      ScalarDepths(entries[1..]);
    }
  }

  /** The client on a missing value: true after `$ne` only, false at an `$eq`, else an error. */
  lemma {:induction false} MissingUnderEntries(entries: seq<Entry>, k: Kind, v: Value)
    requires IsMissing(v) && WellTypedField(JObj(entries), Scalar(k))
    ensures EveryField(entries, v) == Ok(false) <==> NeThenEq(entries)
  {
    if entries != [] {
      assert entries[0] in entries;
      assert WellTypedField(JObj(entries[1..]), Scalar(k));
      MissingUnderEntries(entries[1..], k, v);
    }
  }

  /** The database keeps no record under a comparison with a missing value. */
  lemma {:induction false} MissingIsNeverHeld(entries: seq<Entry>, property: Expr, k: Kind, acc: Expr, record: Record)
    requires WellTypedField(JObj(entries), Scalar(k)) && IsMissing(Eval(property, record))
    requires ConjoinFields(0, property, entries, acc).Ok?
    requires entries != [] || !Holds(acc, record)
    ensures !Holds(ConjoinFields(0, property, entries, acc).value, record)
  {
    if entries != [] {
      assert entries[0] in entries;
      OperatorKeys(entries[0].key);
      assert WellTypedField(JObj(entries[1..]), Scalar(k));
      var x := FieldEntryToExpr(0, property, entries[0]).value;
      assert Eval(x, record) == Null;
      assert Eval(And(acc, x), record) != Bool(true);
      MissingIsNeverHeld(entries[1..], property, k, And(acc, x), record);
    }
  }
}
