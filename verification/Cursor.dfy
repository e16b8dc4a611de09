/** The client side of a query (api/src/datastore.ts): a `ChiselCursor` holds a chain of
    operators.  The innermost part of the chain that the database can run is sent to the
    server, the rest is applied to the resulting stream.  The reference meaning of a chain
    is every operator's own `apply`, in order. */
module Cursor {
  import opened Values
  import opened JsonFilter
  import opened QueryPlan
  import S = Sequences

  datatype Operator =
    | BaseEntity(name: string)
    | Take(inner: Operator, count: nat)
    | Skip(inner: Operator, count: nat)
    | MapOperator(inner: Operator, func: Value -> Value)
    | ColumnsSelect(inner: Operator, columns: seq<string>)
    | PredicateFilter(inner: Operator, predicate_: Value -> bool)
    | InternalFilter(inner: Operator, predicate_: Value -> bool, expression: Expr)
    | ExpressionFilter(inner: Operator, filter: Json)
    | SortBy(inner: Operator, keys: seq<SortKey>)
    | Count(inner: Operator)
    | AggregateBy(inner: Operator, key: string, init: Value, aggregate: (Value, Value) -> Value)

  /** An entity type with its class initialisers and the rows that a query over all of its
      fields returns. */
  datatype Table = Table(ty: RecordType, defaults: Record, rows: seq<Record>)

  type Database = map<string, Table>

  function Get(v: Value, field: string): Value {
    if v.Entity? then Lookup(v.fields, field) else Undefined
  }

  // ---------- what each operator does to a stream ----------

  /** `new T()` followed by the assignment of every field the record has. */
  function BuildEntity(t: Table, record: Record): Value {
    Entity(t.defaults + record)
  }

  function Pick(columns: seq<string>, v: Value): Value {
    if v.Entity? then Entity(map c | c in v.fields && c in columns && v.fields[c] != Undefined :: v.fields[c])
    else Entity(map[])
  }

  predicate ValueLess(keys: seq<SortKey>, a: Value, b: Value) {
    RowLess(keys, if a.Entity? then a.fields else map[], if b.Entity? then b.fields else map[])
  }

  function ValueOrder(keys: seq<SortKey>): (Value, Value) -> bool {
    (a, b) => ValueLess(keys, a, b)
  }

  function Accepts(filter: Json): Value -> bool {
    (v: Value) => v.Entity? && EvalFilter(filter, v.fields) == Ok(true)
  }

  function Fold(f: (Value, Value) -> Value, key: string, acc: Value, s: seq<Value>): Value
    decreases |s|
  {
    if s == [] then acc else Fold(f, key, f(acc, Get(s[0], key)), s[1..])
  }

  function Apply(op: Operator, s: seq<Value>): seq<Value>
    requires !op.BaseEntity?
  {
    match op
    case Take(_, n) => S.Take(s, n)
    case Skip(_, n) => S.Drop(s, n)
    case MapOperator(_, f) => S.Map(f, s)
    case ColumnsSelect(_, cs) => S.Map(v => Pick(cs, v), s)
    case PredicateFilter(_, p) => S.Filter(p, s)
    case InternalFilter(_, p, _) => S.Filter(p, s)
    case ExpressionFilter(_, j) => S.Filter(Accepts(j), s)
    case SortBy(_, keys) => S.Sort(ValueOrder(keys), s)
    case Count(_) => [Num(|s|)]
    case AggregateBy(_, key, init, f) => [Fold(f, key, init, s)]
  }

  /** The reference: `apply` of every operator, innermost first, on all built entities. */
  function Reference(op: Operator, db: Database): seq<Value> {
    match op
    case BaseEntity(name) =>
      if name in db then S.Map((r: Record) => BuildEntity(db[name], r), db[name].rows) else []
    case _ => Apply(op, Reference(op.inner, db))
  }

  // The generators, with the loops and counters of the source.

  method ApplyTake(iter: seq<Value>, count: nat) returns (out: seq<Value>)
    ensures forall inner :: out == Apply(Take(inner, count), iter)
  {
    out := [];
    if count == 0 {
      return;
    }
    var i := 0;
    for k := 0 to |iter|
      invariant i == k < count && out == iter[..k]
    {
      out := out + [iter[k]];
      i := i + 1;
      if i >= count {
        return;
      }
    }
  }

  method ApplySkip(iter: seq<Value>, count: nat) returns (out: seq<Value>)
    ensures forall inner :: out == Apply(Skip(inner, count), iter)
  {
    out := [];
    var i := 0;
    for k := 0 to |iter|
      invariant i == k && out == S.Drop(iter[..k], count)
    {
      i := i + 1;
      if i > count {
        out := out + [iter[k]];
      }
    }
    assert iter[..|iter|] == iter;
  }

  method ApplyFilter(iter: seq<Value>, keep: Value -> bool) returns (out: seq<Value>)
    ensures out == S.Filter(keep, iter)
  {
    out := [];
    for k := 0 to |iter|
      invariant out == S.Filter(keep, iter[..k])
    {
      assert iter[..k + 1] == iter[..k] + [iter[k]];
      S.FilterAppend(keep, iter[..k], [iter[k]]);
      if keep(iter[k]) {
        out := out + [iter[k]];
      }
    }
    assert iter[..|iter|] == iter;
  }

  method ApplySelect(iter: seq<Value>, columns: seq<string>) returns (out: seq<Value>)
    ensures forall inner :: out == Apply(ColumnsSelect(inner, columns), iter)
  {
    out := [];
    for k := 0 to |iter|
      invariant |out| == k && forall i :: 0 <= i < k ==> out[i] == Pick(columns, iter[i])
    {
      var picked: Record := map[];
      for c := 0 to |columns|
        invariant Entity(picked) == Pick(columns[..c], iter[k])
      {
        assert columns[..c + 1] == columns[..c] + [columns[c]];
        if Get(iter[k], columns[c]) != Undefined {
          picked := picked[columns[c] := Get(iter[k], columns[c])];
        }
      }
      assert columns[..|columns|] == columns;
      out := out + [Entity(picked)];
    }
  }

  method ApplyCount(iter: seq<Value>) returns (out: seq<Value>)
    ensures forall inner :: out == Apply(Count(inner), iter)
  {
    var count := 0;
    for k := 0 to |iter|
      invariant count == k
    {
      count := count + 1;
    }
    out := [Num(count)];
  }

  method ApplyAggregate(iter: seq<Value>, key: string, init: Value, f: (Value,
                        Value) -> Value) returns (out: seq<Value>)
    ensures forall inner :: out == Apply(AggregateBy(inner, key, init, f), iter)
  {
    var result := init;
    for k := 0 to |iter|
      invariant Fold(f, key, init, iter) == Fold(f, key, result, iter[k..])
    {
      assert iter[k..][1..] == iter[k + 1..];
      result := f(result, Get(iter[k], key));
    }
    out := [result];
  }

  // ---------- aggregates ----------

  /** An aggregate of nothing is its initial value, and each element is taken in by the last
      operation. */
  lemma {:induction false} AggregateMeans(inner: Operator, key: string, init: Value, f: (Value, Value) -> Value,
                                          s: seq<Value>, x: Value)
    ensures Apply(AggregateBy(inner, key, init, f), []) == [init]
    ensures |Apply(AggregateBy(inner, key, init, f), s)| == 1
    ensures Apply(AggregateBy(inner, key, init, f), s + [x]) ==
            [f(Apply(AggregateBy(inner, key, init, f), s)[0], Get(x, key))]
    decreases |s|
  {
    if s == [] {
      assert [] + [x] == [x];
      assert Fold(f, key, init, [x]) == Fold(f, key, f(init, Get(x, key)), [x][1..]);
    } else {
      assert (s + [x])[1..] == s[1..] + [x];
      AggregateMeans(inner, key, f(init, Get(s[0], key)), f, s[1..], x);
    }
  }

  function Minimum(a: Value, b: Value): Value {
    if IsMissing(b) then a
    else if IsMissing(a) then b
    else if Less(a, b) then a else b
  }

  function Maximum(a: Value, b: Value): Value {
    if IsMissing(b) then a
    else if IsMissing(a) then b
    else if Less(b, a) then a else b
  }

  function MinBy(inner: Operator, key: string): Operator {
    AggregateBy(inner, key, Undefined, Minimum)
  }

  function MaxBy(inner: Operator, key: string): Operator {
    AggregateBy(inner, key, Undefined, Maximum)
  }

  /** The values of a column, without null. */
  ghost predicate InColumn(s: seq<Value>, key: string, v: Value) {
    v != Null && v != Undefined && exists e :: e in s && Get(e, key) == v
  }

  /** A value of the column that none is below, Undefined exactly when there is no value. */
  ghost predicate IsExtreme(s: seq<Value>, key: string, below: (Value, Value) -> bool, v: Value) {
    && (v == Undefined <==> forall w :: !InColumn(s, key, w))
    && (v != Undefined ==> InColumn(s, key, v) && forall w | InColumn(s, key, w) :: !below(w, v))
  }

  lemma {:induction false} MinByMeans(inner: Operator, key: string, s: seq<Value>)
    ensures var r := Apply(MinBy(inner, key), s); |r| == 1 && IsExtreme(s, key, Less, r[0])
    decreases |s|
  {
    if s != [] {
      var init, x := s[..|s| - 1], s[|s| - 1];
      assert s == init + [x];
      MinByMeans(inner, key, init);
      AggregateMeans(inner, key, Undefined, Minimum, init, x);
      LessIsWeakOrder();
      OneMoreExtreme(init, key, Less, Apply(MinBy(inner, key), init)[0], x, Minimum);
    }
  }

  lemma {:induction false} MaxByMeans(inner: Operator, key: string, s: seq<Value>)
    ensures var r := Apply(MaxBy(inner, key), s); |r| == 1 && IsExtreme(s, key, (a, b) => Less(b, a), r[0])
    decreases |s|
  {
    if s != [] {
      var init, x := s[..|s| - 1], s[|s| - 1];
      assert s == init + [x];
      MaxByMeans(inner, key, init);
      AggregateMeans(inner, key, Undefined, Maximum, init, x);
      LessIsWeakOrder();
      OneMoreExtreme(init, key, (a, b) => Less(b, a), Apply(MaxBy(inner, key), init)[0], x, Maximum);
    }
  }

  lemma OneMoreExtreme(s: seq<Value>, key: string, below: (Value, Value) -> bool, v: Value, x: Value,
                       pick: (Value, Value) -> Value)
    requires S.WeakOrder(below) && IsExtreme(s, key, below, v)
    requires forall a, b :: pick(a, b) == if IsMissing(b) then a else if IsMissing(a) || !below(a, b) then b else a
    ensures IsExtreme(s + [x], key, below, pick(v, Get(x, key)))
  {
    var b := Get(x, key);
    forall w ensures InColumn(s + [x], key, w) <==> InColumn(s, key, w) || (w == b && !IsMissing(b)) {
      if InColumn(s, key, w) {
        var e :| e in s && Get(e, key) == w;
        assert e in s + [x];
      }
      assert x in s + [x];
    }
    assert !IsMissing(b) ==> InColumn(s + [x], key, b);
  }

  // ---------- sending a chain to the server ----------

  datatype OpChain =
    | ChainBase(name: string)
    | ChainFilter(expression: Expr, inner: OpChain)
    | ChainExpressionFilter(filter: Json, inner: OpChain)
    | ChainProjection(fields: seq<string>, inner: OpChain)
    | ChainTake(count: nat, inner: OpChain)
    | ChainSkip(count: nat, inner: OpChain)
    | ChainSortBy(keys: seq<SortKey>, inner: OpChain)
    | ChainCount(inner: OpChain)

  /** The server knows no Map, PredicateFilter or aggregate: such a chain is refused. */
  function Serialize(op: Operator): Result<OpChain> {
    match op
    case BaseEntity(name) => Ok(ChainBase(name))
    case MapOperator(_, _) => Err("unknown variant MapOperator")
    case PredicateFilter(_, _) => Err("unknown variant PredicateFilter")
    case AggregateBy(_, _, _, _) => Err("unknown variant")
    case _ =>
      match Serialize(op.inner)
      case Err(e) => Err(e)
      case Ok(c) =>
        match op
        case Take(_, n) => Ok(ChainTake(n, c))
        case Skip(_, n) => Ok(ChainSkip(n, c))
        case ColumnsSelect(_, cs) => Ok(ChainProjection(cs, c))
        case InternalFilter(_, _, e) => Ok(ChainFilter(e, c))
        case ExpressionFilter(_, j) => Ok(ChainExpressionFilter(j, c))
        case SortBy(_, keys) => Ok(ChainSortBy(keys, c))
        case _ => Ok(ChainCount(c))
  }

  function ConvertOps(c: OpChain): Result<(string, seq<QueryOp>)> {
    match c
    case ChainBase(name) => Ok((name, []))
    case ChainExpressionFilter(j, inner) =>
      (match ToExpr(j)
       case Err(e) => Err(e)
       case Ok(e) => Push(ConvertOps(inner), Where(e)))
    case ChainFilter(e, inner) => Push(ConvertOps(inner), Where(e))
    case ChainProjection(fields, inner) => Push(ConvertOps(inner), Projection(fields))
    case ChainTake(n, inner) => Push(ConvertOps(inner), TakeOp(n))
    case ChainSkip(n, inner) => Push(ConvertOps(inner), SkipOp(n))
    case ChainSortBy(keys, inner) => Push(ConvertOps(inner), OrderBy(keys))
    case ChainCount(inner) => Push(ConvertOps(inner), CountOp)
  }

  function Push(r: Result<(string, seq<QueryOp>)>, op: QueryOp): Result<(string, seq<QueryOp>)> {
    match r
    case Err(e) => Err(e)
    case Ok((name, ops)) => Ok((name, ops + [op]))
  }

  /** The columns left by the projections: the last one wins, Count clears them. */
  function AllowedFields(ops: seq<QueryOp>): Option<seq<string>> {
    if ops == [] then None else
      var op := ops[|ops| - 1];
      if op.Projection? then Some(op.fields)
      else if op.CountOp? then None
      else AllowedFields(ops[..|ops| - 1])
  }

  method ProcessProjections(ops: seq<QueryOp>) returns (allowed: Option<seq<string>>, rest: seq<QueryOp>)
    ensures allowed == AllowedFields(ops) && rest == WithoutProjections(ops)
  {
    allowed, rest := None, [];
    for i := 0 to |ops|
      invariant allowed == AllowedFields(ops[..i]) && rest == WithoutProjections(ops[..i])
    {
      var op := ops[i];
      assert ops[..i + 1][..i] == ops[..i] && ops[..i + 1] == ops[..i] + [op];
      WithoutProjectionsAppend(ops[..i], [op]);
      match op
      case Projection(fields) =>
        allowed := Some(fields);
      case CountOp =>
        allowed := None;
        rest := rest + [op];
      case _ =>
        rest := rest + [op];
    }
    assert ops[..|ops|] == ops;
  }

  function WithoutProjections(ops: seq<QueryOp>): seq<QueryOp> {
    if ops == [] then []
    else if ops[0].Projection? then WithoutProjections(ops[1..])
    else [ops[0]] + WithoutProjections(ops[1..])
  }

  lemma {:induction false} WithoutProjectionsAppend(ops: seq<QueryOp>, more: seq<QueryOp>)
    ensures WithoutProjections(ops + more) == WithoutProjections(ops) + WithoutProjections(more)
  {
    if ops == [] {
      assert ops + more == more;
    } else {
      assert (ops + more)[1..] == ops[1..] + more;
      WithoutProjectionsAppend(ops[1..], more);
    }
  }

  /** Post-filtering of the result record. */
  function Project(record: Record, allowed: Option<seq<string>>): Record {
    if allowed.Some? then map k | k in record && k in allowed.value :: record[k] else record
  }

  /** How the operator at the top of the chain turns a raw record into its output. */
  function RecordToOutput(op: Operator, db: Database, record: Record): Value {
    match op
    case BaseEntity(name) => if name in db then BuildEntity(db[name], record) else Entity(record)
    case ColumnsSelect(_, _) => Entity(record)
    case AggregateBy(_, _, _, _) => Entity(record)
    case Count(_) => Lookup(record, "count")
    case _ => RecordToOutput(op.inner, db, record)
  }

  /** `runChiselQuery`: the whole chain, evaluated by the server. */
  function RunChiselQuery(op: Operator, db: Database): Result<seq<Value>> {
    match Serialize(op)
    case Err(e) => Err(e)
    case Ok(chain) =>
      match ConvertOps(chain)
      case Err(e) => Err(e)
      case Ok((name, ops)) =>
        if name !in db then Err("unknown entity name") else
          match RawQuery(db[name].ty, WithoutProjections(ops))
          case Err(e) => Err(e)
          case Ok(q) =>
            Ok(S.Map((r: Record) => RecordToOutput(op, db, Project(r, AllowedFields(ops))),
                     RunSelect(q, db[name].rows)))
  }

  /** `eval`: None as long as the database can still take the chain. */
  function EvalOperator(op: Operator, db: Database): Option<Result<seq<Value>>> {
    match op
    case BaseEntity(_) => None
    case _ =>
      var inner := EvalOperator(op.inner, db);
      if inner.Some? then Some(ApplyOk(op, inner.value))
      else if op.MapOperator? || op.PredicateFilter? || op.AggregateBy? then
        Some(ApplyOk(op, RunChiselQuery(op.inner, db)))
      else None
  }

  function ApplyOk(op: Operator, s: Result<seq<Value>>): Result<seq<Value>>
    requires !op.BaseEntity?
  {
    if s.Ok? then Ok(Apply(op, s.value)) else s
  }

  /** Iterating a cursor over the chain. */
  function Iterate(op: Operator, db: Database): Result<seq<Value>> {
    var s := EvalOperator(op, db);
    if s.Some? then s.value else RunChiselQuery(op, db)
  }

  // ---------- well-formed chains ----------

  predicate DbOnly(op: Operator) {
    op.BaseEntity? || (!op.MapOperator? && !op.PredicateFilter? && !op.AggregateBy? && DbOnly(op.inner))
  }

  function BaseName(op: Operator): string {
    if op.BaseEntity? then op.name else BaseName(op.inner)
  }

  /** Whether an element can have a column at this point of the chain. */
  predicate IsVisible(op: Operator, column: string) {
    op.BaseEntity? || ((op.ColumnsSelect? ==> column in op.columns) && IsVisible(op.inner, column))
  }

  /** A record as it looks at this point of the chain. */
  function View(op: Operator, db: Database, r: Record): Value
    requires BaseName(op) in db
  {
    if op.BaseEntity? then BuildEntity(db[op.name], r)
    else if op.ColumnsSelect? then Pick(op.columns, View(op.inner, db, r))
    else View(op.inner, db, r)
  }

  function VisibleType(op: Operator, ty: RecordType): RecordType {
    map f | f in ty && IsVisible(op, f) :: ty[f]
  }

  /** Rows come complete: class initialisers are also column defaults, and no value is
      undefined. */
  predicate CompleteTable(t: Table) {
    forall r | r in t.rows :: t.defaults.Keys <= r.Keys && forall f | f in r :: r[f] != Undefined
  }

  /** The operators that the server gets for a chain. */
  function Ops(op: Operator): seq<QueryOp>
    requires DbOnly(op)
  {
    match op
    case BaseEntity(_) => []
    case Take(inner, n) => Ops(inner) + [TakeOp(n)]
    case Skip(inner, n) => Ops(inner) + [SkipOp(n)]
    case ColumnsSelect(inner, cs) => Ops(inner) + [Projection(cs)]
    case InternalFilter(inner, _, e) => Ops(inner) + [Where(e)]
    case ExpressionFilter(inner, j) =>
      Ops(inner) + [Where(if ToExpr(j).Ok? then ToExpr(j).value else Const(Null))]
    case SortBy(inner, keys) => Ops(inner) + [OrderBy(keys)]
    case Count(inner) => Ops(inner) + [CountOp]
  }

  /** The rows that the operators of a chain leave. */
  function RowsAt(op: Operator, db: Database): seq<Record>
    requires DbOnly(op) && BaseName(op) in db
  {
    RunOps(Ops(op), db[BaseName(op)].rows)
  }

  /** What the TypeScript types and the compiler promise about a chain the database runs:
      filters and sorts use visible fields of the right type, on the rows that reach them these
      fields are not null, the expression of a compiled filter agrees with its predicate, and
      Count comes last. */
  ghost predicate WellFormed(op: Operator, db: Database)
    requires DbOnly(op)
  {
    if op.BaseEntity? then op.name in db && CompleteTable(db[op.name])
    else
      && WellFormed(op.inner, db)
      && !op.inner.Count?
      && BaseName(op) in db
      && var ty, rows := db[BaseName(op)].ty, RowsAt(op.inner, db);
      match op
      case InternalFilter(inner, p, e) =>
        ExprIsValid(e, ty) && forall r | r in rows :: p(View(inner, db, r)) == Holds(e, r)
      case ExpressionFilter(inner, j) =>
        WellTyped(j, VisibleType(inner, ty)) && ToExpr(j).Ok? && forall r | r in rows :: FitsFilter(j, r)
      case SortBy(inner, keys) =>
        && KeysAreValid(keys, ty)
        && (forall k | k in keys :: IsVisible(inner, k.field))
        && forall r | r in rows :: IsSortable(keys, ty, r)
      case _ => true
  }

  predicate IsSent(op: Operator, column: string)
    requires DbOnly(op)
  {
    AllowedFields(Ops(op)).None? || column in AllowedFields(Ops(op)).value
  }

  /** The server sends the columns of the last select: no row that is left has one that an
      earlier select dropped. */
  ghost predicate SelectsAgree(op: Operator, db: Database)
    requires DbOnly(op) && BaseName(op) in db
  {
    op.Count? || forall r, c | r in RowsAt(op, db) && c in r && IsSent(op, c) :: IsVisible(op, c)
  }

  /** The part of a chain that goes to the database is well formed, in each of its stages the
      last sort decides (see `QueryPlan.SortsAgree`), and the last select drops what the earlier
      ones dropped. */
  ghost predicate Compatible(op: Operator, db: Database) {
    if DbOnly(op) then
      && WellFormed(op, db)
      && BaseName(op) in db
      && SortsAgree(WithoutProjections(Ops(op)), db[BaseName(op)].rows)
      && SelectsAgree(op, db)
    else Compatible(op.inner, db)
  }

  /** Selects only narrow, as the types of `select` have it. */
  predicate SelectsNarrow(op: Operator) {
    op.BaseEntity? ||
    (SelectsNarrow(op.inner) && (op.ColumnsSelect? ==> forall c | c in op.columns :: IsVisible(op.inner, c)))
  }

  /** The same with conditions on the chain in place of those on sorted and selected rows. */
  ghost predicate StaticallyCompatible(op: Operator, db: Database) {
    if DbOnly(op) then
      && WellFormed(op, db)
      && BaseName(op) in db
      && SortsCovered(WithoutProjections(Ops(op)), UniqueIds(db[BaseName(op)].rows))
      && SelectsNarrow(op)
    else StaticallyCompatible(op.inner, db)
  }

  // ---------- the theorem ----------

  lemma {:induction false} EvalIsNoneIff(op: Operator, db: Database)
    ensures EvalOperator(op, db).None? <==> DbOnly(op)
  {
    if !op.BaseEntity? {
      EvalIsNoneIff(op.inner, db);
    }
  }

  /** Iterating a cursor yields what applying every operator in order would yield. */
  lemma {:induction false} CursorMatchesReference(op: Operator, db: Database)
    requires Compatible(op, db)
    ensures Iterate(op, db) == Ok(Reference(op, db))
  {
    EvalIsNoneIff(op, db);
    if DbOnly(op) {
      SelectsAgreeIff(op, db);
    } else {
      CursorMatchesReference(op.inner, db);
      EvalIsNoneIff(op.inner, db);
    }
  }

  /** Chains in which the last sort of each stage covers the fields of the earlier ones, or the id
      where ids are unique, and whose selects narrow need no condition on the order or the columns
      of the rows. */
  lemma {:induction false} CursorMatchesReferenceStatically(op: Operator, db: Database)
    requires StaticallyCompatible(op, db)
    ensures Iterate(op, db) == Ok(Reference(op, db))
  {
    StaticIsCompatible(op, db);
    CursorMatchesReference(op, db);
  }

  lemma {:induction false} StaticIsCompatible(op: Operator, db: Database)
    requires StaticallyCompatible(op, db)
    ensures Compatible(op, db)
  {
    if DbOnly(op) {
      var rows := db[BaseName(op)].rows;
      CoveredSortsAgree(WithoutProjections(Ops(op)), UniqueIds(rows), rows);
      forall c | !op.Count? && IsSent(op, c) ensures IsVisible(op, c) {
        NarrowColumnIsVisible(op, db, c);
      }
    } else {
      StaticIsCompatible(op.inner, db);
    }
  }

  lemma {:induction false} NarrowColumnIsVisible(op: Operator, db: Database, c: string)
    requires DbOnly(op) && WellFormed(op, db) && SelectsNarrow(op) && !op.Count? && IsSent(op, c)
    ensures IsVisible(op, c)
  {
    if !op.BaseEntity? && !op.ColumnsSelect? {
      assert Ops(op)[..|Ops(op)| - 1] == Ops(op.inner);
      NarrowColumnIsVisible(op.inner, db, c);
    }
  }

  /** On a chain the database runs, the columns are all that can differ. */
  lemma {:induction false} SelectsAgreeIff(op: Operator, db: Database)
    requires DbOnly(op) && WellFormed(op, db) && BaseName(op) in db
    requires SortsAgree(WithoutProjections(Ops(op)), db[BaseName(op)].rows)
    ensures Iterate(op, db) == Ok(Reference(op, db)) <==> SelectsAgree(op, db)
  {
    EvalIsNoneIff(op, db);
    assert Iterate(op, db) == RunChiselQuery(op, db);
    QueryRuns(op, db);
    StreamsAgreeIff(op, db);
  }

  lemma StreamsAgreeIff(op: Operator, db: Database)
    requires DbOnly(op) && WellFormed(op, db) && BaseName(op) in db
    ensures S.Map(OutputFunction(op, db), RowsAt(op, db)) == Reference(op, db) <==> SelectsAgree(op, db)
  {
    if op.Count? {
      CountOutput(op, db);
    } else {
      PlainOutputIff(op, db);
    }
  }

  lemma {:induction false} ConvertedOps(op: Operator, db: Database)
    requires DbOnly(op) && WellFormed(op, db)
    ensures Serialize(op).Ok? && ConvertOps(Serialize(op).value) == Ok((BaseName(op), Ops(op)))
  {
    if !op.BaseEntity? {
      ConvertedOps(op.inner, db);
    }
  }

  lemma {:induction false} WellFormedBase(op: Operator, db: Database)
    requires DbOnly(op) && WellFormed(op, db)
    ensures BaseName(op) in db && CompleteTable(db[BaseName(op)])
  {
    if !op.BaseEntity? {
      WellFormedBase(op.inner, db);
    }
  }

  function Shown(op: Operator, r: Record): Record {
    map c | c in r && IsVisible(op, c) :: r[c]
  }

  /** Seen from the row, a view is the row cut down to the visible columns. */
  lemma {:induction false} ViewIsShown(op: Operator, db: Database, r: Record)
    requires DbOnly(op) && WellFormed(op, db) && BaseName(op) in db && r in db[BaseName(op)].rows
    ensures View(op, db, r) == Entity(Shown(op, r))
  {
    WellFormedBase(op, db);
    if op.BaseEntity? {
      assert db[op.name].defaults + r == r;
      assert Shown(op, r) == r;
    } else {
      ViewIsShown(op.inner, db, r);
      if op.ColumnsSelect? {
        assert Pick(op.columns, Entity(Shown(op.inner, r))) == Entity(Shown(op, r));
      } else {
        assert Shown(op, r) == Shown(op.inner, r);
      }
    }
  }

  lemma {:induction false} OutputIsProjection(op: Operator, db: Database, r: Record)
    requires DbOnly(op) && WellFormed(op, db) && BaseName(op) in db && r in db[BaseName(op)].rows
    requires !op.Count?
    ensures RecordToOutput(op, db, Project(r, AllowedFields(Ops(op)))) == Entity(Project(r, AllowedFields(Ops(op))))
  {
    WellFormedBase(op, db);
    if op.BaseEntity? {
      assert db[op.name].defaults + r == r;
    } else if !op.ColumnsSelect? {
      assert Ops(op)[..|Ops(op)| - 1] == Ops(op.inner);
      OutputIsProjection(op.inner, db, r);
    }
  }

  lemma {:induction false} VisibleIsSent(op: Operator, db: Database, c: string)
    requires DbOnly(op) && WellFormed(op, db) && !op.Count? && IsVisible(op, c)
    ensures IsSent(op, c)
  {
    if !op.BaseEntity? && !op.ColumnsSelect? {
      assert Ops(op)[..|Ops(op)| - 1] == Ops(op.inner);
      VisibleIsSent(op.inner, db, c);
    }
  }

  function Sent(op: Operator, r: Record): Record
    requires DbOnly(op)
  {
    Project(r, AllowedFields(Ops(op)))
  }

  lemma SentColumns(op: Operator, r: Record)
    requires DbOnly(op)
    ensures forall c :: c in Sent(op, r) <==> c in r && IsSent(op, c)
    ensures forall c | c in Sent(op, r) :: Sent(op, r)[c] == r[c]
  {
  }

  lemma CutsAgreeIff(r: Record, a: Record, b: Record)
    requires forall c | c in a :: c in r && a[c] == r[c]
    requires forall c | c in b :: c in a && b[c] == r[c]
    ensures a == b <==> forall c | c in a :: c in b
  {
  }

  lemma OutputIsSent(op: Operator, db: Database, r: Record)
    requires DbOnly(op) && WellFormed(op, db) && BaseName(op) in db && r in db[BaseName(op)].rows
    requires !op.Count?
    ensures OutputFunction(op, db)(r) == Entity(Sent(op, r))
  {
    OutputIsProjection(op, db, r);
  }

  /** Both sides show the same of a row if and only if what the server sends is visible. */
  lemma OutputIsViewIff(op: Operator, db: Database, r: Record, output: Value, view: Value)
    requires DbOnly(op) && WellFormed(op, db) && BaseName(op) in db && r in db[BaseName(op)].rows
    requires !op.Count? && output == Entity(Sent(op, r)) && view == Entity(Shown(op, r))
    ensures output == view <==> forall c | c in r && IsSent(op, c) :: IsVisible(op, c)
  {
    VisibleAreSent(op, db);
    SentIsShownIff(op, r, output, view);
  }

  lemma VisibleAreSent(op: Operator, db: Database)
    requires DbOnly(op) && WellFormed(op, db) && !op.Count?
    ensures forall c | IsVisible(op, c) :: IsSent(op, c)
  {
    forall c | IsVisible(op, c) ensures IsSent(op, c) {
      VisibleIsSent(op, db, c);
    }
  }

  lemma SentIsShownIff(op: Operator, r: Record, output: Value, view: Value)
    requires DbOnly(op) && forall c | IsVisible(op, c) :: IsSent(op, c)
    requires output == Entity(Sent(op, r)) && view == Entity(Shown(op, r))
    ensures output == view <==> forall c | c in r && IsSent(op, c) :: IsVisible(op, c)
  {
    SentColumns(op, r);
    CutsAgreeIff(r, Sent(op, r), Shown(op, r));
  }

  function ViewFunction(op: Operator, db: Database): Record -> Value
    requires BaseName(op) in db
  {
    (r: Record) => View(op, db, r)
  }

  /** Without Count, the reference stream is the view of the rows that the operators leave. */
  lemma {:induction false} ReferenceIsView(op: Operator, db: Database)
    requires DbOnly(op) && WellFormed(op, db) && BaseName(op) in db && !op.Count?
    ensures forall r :: r in RowsAt(op, db) ==> r in db[BaseName(op)].rows
    ensures Reference(op, db) == S.Map(ViewFunction(op, db), RowsAt(op, db))
  {
    var rows := db[BaseName(op)].rows;
    if op.BaseEntity? {
      MapCongruent((r: Record) => BuildEntity(db[op.name], r), ViewFunction(op, db), rows);
    } else {
      ReferenceIsView(op.inner, db);
      var kept := RowsAt(op.inner, db);
      var last := Ops(op)[|Ops(op)| - 1];
      RunOpsAppend(Ops(op.inner), [last], rows);
      assert RunOps([last], kept) == RunOps([], RunOp(last, kept));
      StepIsView(op, db, last, kept);
    }
  }

  lemma MapCongruent(f: Record -> Value, g: Record -> Value, s: seq<Record>)
    requires forall r | r in s :: f(r) == g(r)
    ensures S.Map(f, s) == S.Map(g, s)
  {
    assert forall i :: 0 <= i < |s| ==> s[i] in s;
  }

  lemma StepIsView(op: Operator, db: Database, last: QueryOp, kept: seq<Record>)
    requires !op.BaseEntity? && !op.Count?
    requires DbOnly(op) && WellFormed(op, db) && BaseName(op) in db
    requires last == Ops(op)[|Ops(op)| - 1]
    requires kept == RowsAt(op.inner, db) && forall r :: r in kept ==> r in db[BaseName(op)].rows
    ensures forall r :: r in RunOp(last, kept) ==> r in kept
    ensures Apply(op, S.Map(ViewFunction(op.inner, db), kept)) == S.Map(ViewFunction(op, db), RunOp(last, kept))
  {
    if op.SortBy? {
      SortStepIsView(op, db, last, kept);
    } else if op.InternalFilter? || op.ExpressionFilter? {
      FilterStepIsView(op, db, last, kept);
    } else if op.ColumnsSelect? {
      SelectStepIsView(op, db, last, kept);
    } else {
      CutStepIsView(op, db, last, kept);
    }
  }

  lemma SelectStepIsView(op: Operator, db: Database, last: QueryOp, kept: seq<Record>)
    requires op.ColumnsSelect?
    requires DbOnly(op) && WellFormed(op, db) && BaseName(op) in db
    requires last == Ops(op)[|Ops(op)| - 1]
    requires kept == RowsAt(op.inner, db) && forall r :: r in kept ==> r in db[BaseName(op)].rows
    ensures forall r :: r in RunOp(last, kept) ==> r in kept
    ensures Apply(op, S.Map(ViewFunction(op.inner, db), kept)) == S.Map(ViewFunction(op, db), RunOp(last, kept))
  {
    assert last == Projection(op.columns);
  }

  lemma CutStepIsView(op: Operator, db: Database, last: QueryOp, kept: seq<Record>)
    requires op.Take? || op.Skip?
    requires DbOnly(op) && WellFormed(op, db) && BaseName(op) in db
    requires last == Ops(op)[|Ops(op)| - 1]
    requires kept == RowsAt(op.inner, db) && forall r :: r in kept ==> r in db[BaseName(op)].rows
    ensures forall r :: r in RunOp(last, kept) ==> r in kept
    ensures Apply(op, S.Map(ViewFunction(op.inner, db), kept)) == S.Map(ViewFunction(op, db), RunOp(last, kept))
  {
    assert last == if op.Take? then TakeOp(op.count) else SkipOp(op.count);
    var f := ViewFunction(op.inner, db);
    assert S.Take(S.Map(f, kept), op.count) == S.Map(f, S.Take(kept, op.count));
    assert S.Drop(S.Map(f, kept), op.count) == S.Map(f, S.Drop(kept, op.count));
    MapCongruent(f, ViewFunction(op, db), RunOp(last, kept));
  }

  lemma FilterStepIsView(op: Operator, db: Database, last: QueryOp, kept: seq<Record>)
    requires op.InternalFilter? || op.ExpressionFilter?
    requires DbOnly(op) && WellFormed(op, db) && BaseName(op) in db
    requires last == Ops(op)[|Ops(op)| - 1]
    requires kept == RowsAt(op.inner, db) && forall r :: r in kept ==> r in db[BaseName(op)].rows
    ensures forall r :: r in RunOp(last, kept) ==> r in kept
    ensures Apply(op, S.Map(ViewFunction(op.inner, db), kept)) == S.Map(ViewFunction(op, db), RunOp(last, kept))
  {
    var f, g := ViewFunction(op.inner, db), ViewFunction(op, db);
    if op.InternalFilter? {
      S.FilterMap(f, op.predicate_, Matching(op.expression), kept);
    } else {
      ExpressionFilterIsView(op.inner, db, op.filter, kept);
    }
    MapCongruent(f, g, S.Filter(Matching(last.expression), kept));
  }

  lemma SortStepIsView(op: Operator, db: Database, last: QueryOp, kept: seq<Record>)
    requires op.SortBy?
    requires DbOnly(op) && WellFormed(op, db) && BaseName(op) in db
    requires last == Ops(op)[|Ops(op)| - 1]
    requires kept == RowsAt(op.inner, db) && forall r :: r in kept ==> r in db[BaseName(op)].rows
    ensures forall r :: r in RunOp(last, kept) ==> r in kept
    ensures Apply(op, S.Map(ViewFunction(op.inner, db), kept)) == S.Map(ViewFunction(op, db), RunOp(last, kept))
  {
    SortIsView(op.inner, db, op.keys, kept);
    MapCongruent(ViewFunction(op.inner, db), ViewFunction(op, db), S.Sort(Order(op.keys), kept));
  }

  lemma ExpressionFilterIsView(op: Operator, db: Database, j: Json, kept: seq<Record>)
    requires DbOnly(op) && WellFormed(op, db) && BaseName(op) in db
    requires forall r :: r in kept ==> r in db[BaseName(op)].rows
    requires WellTyped(j, VisibleType(op, db[BaseName(op)].ty)) && ToExpr(j).Ok?
    requires forall r | r in kept :: FitsFilter(j, r)
    ensures S.Filter(Accepts(j), S.Map(ViewFunction(op, db), kept)) ==
            S.Map(ViewFunction(op, db), S.Filter(Matching(ToExpr(j).value), kept))
  {
    forall r | r in kept ensures Accepts(j)(ViewFunction(op, db)(r)) == Matching(ToExpr(j).value)(r) {
      FilterOnView(op, db, j, r);
    }
    S.FilterMap(ViewFunction(op, db), Accepts(j), Matching(ToExpr(j).value), kept);
  }

  lemma SortIsView(op: Operator, db: Database, keys: seq<SortKey>, kept: seq<Record>)
    requires DbOnly(op) && WellFormed(op, db) && BaseName(op) in db
    requires forall r :: r in kept ==> r in db[BaseName(op)].rows
    requires forall k | k in keys :: IsVisible(op, k.field)
    ensures S.Sort(ValueOrder(keys), S.Map(ViewFunction(op, db), kept)) ==
            S.Map(ViewFunction(op, db), S.Sort(Order(keys), kept))
  {
    var f := ViewFunction(op, db);
    forall a, b | a in kept && b in kept ensures ValueOrder(keys)(f(a), f(b)) == Order(keys)(a, b) {
      ViewIsShown(op, db, a);
      ViewIsShown(op, db, b);
      RowLessOnView(keys, op, a, b);
    }
    SortMap(f, ValueOrder(keys), Order(keys), kept);
  }

  lemma {:induction false} RowLessOnView(keys: seq<SortKey>, op: Operator, a: Record, b: Record)
    requires forall k | k in keys :: IsVisible(op, k.field)
    ensures RowLess(keys, Shown(op, a), Shown(op, b)) == RowLess(keys, a, b)
  {
    if keys != [] {
      assert keys[0] in keys;
      RowLessOnView(keys[1..], op, a, b);
    }
  }

  lemma {:induction false} SortMap(f: Record -> Value, lt: (Value, Value) -> bool, lt': (Record, Record) -> bool,
                                   s: seq<Record>)
    requires forall a, b :: a in s && b in s ==> lt(f(a), f(b)) == lt'(a, b)
    ensures S.Sort(lt, S.Map(f, s)) == S.Map(f, S.Sort(lt', s))
  {
    if s != [] {
      SortMap(f, lt, lt', s[1..]);
      assert S.Map(f, s)[1..] == S.Map(f, s[1..]);
      InsertMap(f, lt, lt', s[0], S.Sort(lt', s[1..]));
    }
  }

  lemma {:induction false} InsertMap(f: Record -> Value, lt: (Value, Value) -> bool, lt': (Record, Record) -> bool,
                                     x: Record, s: seq<Record>)
    requires forall a :: a in s ==> lt(f(a), f(x)) == lt'(a, x)
    ensures S.Insert(lt, f(x), S.Map(f, s)) == S.Map(f, S.Insert(lt', x, s))
  {
    if s != [] {
      assert S.Map(f, s)[1..] == S.Map(f, s[1..]);
      if lt'(s[0], x) {
        InsertMap(f, lt, lt', x, s[1..]);
      }
    }
  }

  lemma FilterOnView(op: Operator, db: Database, j: Json, r: Record)
    requires DbOnly(op) && WellFormed(op, db) && BaseName(op) in db && r in db[BaseName(op)].rows
    requires WellTyped(j, VisibleType(op, db[BaseName(op)].ty)) && ToExpr(j).Ok? && FitsFilter(j, r)
    ensures Accepts(j)(View(op, db, r)) == Holds(ToExpr(j).value, r)
  {
    ViewIsShown(op, db, r);
    var t :| WellTyped(j, t) && Fits(r, t);
    FilterAgrees(j, t, r);
    EvalFilterReads(j, VisibleType(op, db[BaseName(op)].ty), r, Shown(op, r));
  }

  /** A well-typed filter reads only the fields of its type. */
  lemma {:induction false} EvalFilterReads(j: Json, t: RecordType, a: Record, b: Record)
    requires WellTyped(j, t) && forall k | k in t :: Lookup(a, k) == Lookup(b, k)
    ensures EvalFilter(j, a) == EvalFilter(j, b)
    decreases j, 1
  {
    EveryEntryReads(j.entries, t, a, b);
  }

  lemma {:induction false} EveryEntryReads(entries: seq<Entry>, t: RecordType, a: Record, b: Record)
    requires (forall e | e in entries :: WellTypedEntry(e, t)) && forall k | k in t :: Lookup(a, k) == Lookup(b, k)
    ensures EveryEntry(entries, a) == EveryEntry(entries, b)
    decreases entries, 1
  {
    if entries != [] {
      var e := entries[0];
      assert e in entries;
      if e.key == "$and" || e.key == "$or" {
        FiltersRead(e.value.elems, t, a, b);
      } else if e.key == "$not" {
        EvalFilterReads(e.value, t, a, b);
      }
      EveryEntryReads(entries[1..], t, a, b);
    }
  }

  lemma {:induction false} FiltersRead(filters: seq<Json>, t: RecordType, a: Record, b: Record)
    requires (forall f | f in filters :: WellTyped(f, t)) && forall k | k in t :: Lookup(a, k) == Lookup(b, k)
    ensures EveryFilter(filters, a) == EveryFilter(filters, b)
    ensures SomeFilter(filters, a) == SomeFilter(filters, b)
    decreases filters, 0
  {
    if filters != [] {
      EvalFilterReads(filters[0], t, a, b);
      FiltersRead(filters[1..], t, a, b);
    }
  }

  // ---------- a chain the database runs as a whole ----------

  function OutputFunction(op: Operator, db: Database): Record -> Value
    requires DbOnly(op)
  {
    (r: Record) => RecordToOutput(op, db, Project(r, AllowedFields(Ops(op))))
  }

  lemma QueryRuns(op: Operator, db: Database)
    requires DbOnly(op) && WellFormed(op, db) && BaseName(op) in db
    requires SortsAgree(WithoutProjections(Ops(op)), db[BaseName(op)].rows)
    ensures RunChiselQuery(op, db) == Ok(S.Map(OutputFunction(op, db), RowsAt(op, db)))
  {
    var t, ops := db[BaseName(op)], WithoutProjections(Ops(op));
    ConvertedOps(op, db);
    ChainCompiles(op, db);
    CompilesIff(t.ty, Core, ops);
    RawQueryRefines(t.ty, ops, t.rows);
    RunWithoutProjections(Ops(op), t.rows);
  }

  lemma CountOutput(op: Operator, db: Database)
    requires op.Count? && DbOnly(op) && WellFormed(op, db) && BaseName(op) in db
    ensures S.Map(OutputFunction(op, db), RowsAt(op, db)) == Reference(op, db)
  {
    var rows := db[BaseName(op)].rows;
    ReferenceIsView(op.inner, db);
    RunOpsAppend(Ops(op.inner), [CountOp], rows);
    var kept := RunOps(Ops(op.inner), rows);
    assert RunOps([CountOp], kept) == RunOps([], RunOp(CountOp, kept));
    CountRowOutput(op, db, |kept|);
    assert Reference(op, db) == [Num(|kept|)];
  }

  lemma CountRowOutput(op: Operator, db: Database, n: nat)
    requires op.Count? && DbOnly(op)
    ensures S.Map(OutputFunction(op, db), [CountRow(n)]) == [Num(n)]
  {
    var ops, row := Ops(op), CountRow(n);
    assert ops[|ops| - 1] == CountOp;
    assert AllowedFields(ops) == None;
    assert Project(row, None) == row;
    assert RecordToOutput(op, db, row) == Num(n);
    assert OutputFunction(op, db)(row) == Num(n);
  }

  lemma PlainOutputIff(op: Operator, db: Database)
    requires !op.Count? && DbOnly(op) && WellFormed(op, db) && BaseName(op) in db
    ensures S.Map(OutputFunction(op, db), RowsAt(op, db)) == Reference(op, db) <==> SelectsAgree(op, db)
  {
    ReferenceIsView(op, db);
    var rows := RowsAt(op, db);
    MapsEqualIff(OutputFunction(op, db), ViewFunction(op, db), rows);
    forall r | r in rows
      ensures OutputFunction(op, db)(r) == ViewFunction(op, db)(r)
              <==> forall c | c in r && IsSent(op, c) :: IsVisible(op, c)
    {
      OutputIsSent(op, db, r);
      ViewIsShown(op, db, r);
      OutputIsViewIff(op, db, r, OutputFunction(op, db)(r), ViewFunction(op, db)(r));
    }
  }

  lemma MapsEqualIff(f: Record -> Value, g: Record -> Value, s: seq<Record>)
    ensures S.Map(f, s) == S.Map(g, s) <==> forall r | r in s :: f(r) == g(r)
  {
    if S.Map(f, s) == S.Map(g, s) {
      forall r | r in s ensures f(r) == g(r) {
        var i :| 0 <= i < |s| && s[i] == r;
        assert S.Map(f, s)[i] == S.Map(g, s)[i];
      }
    } else if forall r | r in s :: f(r) == g(r) {
      MapCongruent(f, g, s);
    }
  }

  lemma {:induction false} RunWithoutProjections(ops: seq<QueryOp>, rows: seq<Record>)
    ensures RunOps(WithoutProjections(ops), rows) == RunOps(ops, rows)
  {
    if ops != [] {
      var rest := WithoutProjections(ops[1..]);
      RunWithoutProjections(ops[1..], RunOp(ops[0], rows));
      assert ([ops[0]] + rest)[1..] == rest;
    }
  }

  predicate OpIsValid(op: QueryOp, ty: RecordType) {
    (op.Where? ==> ExprIsValid(op.expression, ty)) && (op.OrderBy? ==> KeysAreValid(op.keys, ty))
  }

  lemma {:induction false} ChainCompiles(op: Operator, db: Database)
    requires DbOnly(op) && WellFormed(op, db) && BaseName(op) in db
    ensures Compilable(db[BaseName(op)].ty, WithoutProjections(Ops(op)))
  {
    var ops := WithoutProjections(Ops(op));
    OpsAreValid(op, db);
    ValidOpsCompile(db[BaseName(op)].ty, ops);
  }

  lemma {:induction false} OpsAreValid(op: Operator, db: Database)
    requires DbOnly(op) && WellFormed(op, db) && BaseName(op) in db
    ensures var ops := WithoutProjections(Ops(op));
            && (forall o | o in ops :: OpIsValid(o, db[BaseName(op)].ty))
            && (CountOp in ops ==> op.Count?)
            && (op.Count? ==> ops != [] && CountOp !in ops[..|ops| - 1])
  {
    if !op.BaseEntity? {
      OpsAreValid(op.inner, db);
      SentOps(op);
      if !op.ColumnsSelect? {
        LastOpIsValid(op, db);
        var inner, last := WithoutProjections(Ops(op.inner)), Ops(op)[|Ops(op)| - 1];
        assert (inner + [last])[..|inner|] == inner;
      }
    }
  }

  lemma SentOps(op: Operator)
    requires DbOnly(op) && !op.BaseEntity?
    ensures WithoutProjections(Ops(op)) ==
            WithoutProjections(Ops(op.inner)) + if op.ColumnsSelect? then [] else [Ops(op)[|Ops(op)| - 1]]
  {
    var last := Ops(op)[|Ops(op)| - 1];
    WithoutProjectionsAppend(Ops(op.inner), [last]);
    assert WithoutProjections([last]) == if last.Projection? then [] else [last];
  }

  lemma LastOpIsValid(op: Operator, db: Database)
    requires DbOnly(op) && WellFormed(op, db) && BaseName(op) in db && !op.BaseEntity?
    ensures OpIsValid(Ops(op)[|Ops(op)| - 1], db[BaseName(op)].ty)
  {
    if op.ExpressionFilter? {
      ToExprIsValid(0, op.filter, VisibleType(op.inner, db[BaseName(op)].ty), db[BaseName(op)].ty);
    }
  }

  lemma {:induction false} LastKeysOf(ops: seq<QueryOp>)
    ensures LastOrderBy(ops).Some? ==> OrderBy(LastOrderBy(ops).value) in ops
  {
    if ops != [] && !ops[|ops| - 1].OrderBy? {
      LastKeysOf(ops[..|ops| - 1]);
    }
  }

  lemma {:induction false} ValidOpsCompile(ty: RecordType, ops: seq<QueryOp>)
    requires forall o | o in ops :: OpIsValid(o, ty)
    requires ops != [] ==> CountOp !in ops[..|ops| - 1]
    ensures Compilable(ty, ops)
    decreases |ops|
  {
    if ops != [] {
      var n := StageLength(ops);
      assert forall i :: 0 <= i < |ops| - 1 ==> ops[i] in ops[..|ops| - 1];
      assert KeysAreValid(LastKeys(ops[..n]), ty) by {
        if LastOrderBy(ops[..n]).Some? {
          LastKeysOf(ops[..n]);
          assert OrderBy(LastOrderBy(ops[..n]).value) in ops;
        }
      }
      assert forall o | o in ops[..n] && o.Where? :: OpIsValid(o, ty);
      ValidOpsCompile(ty, ops[n..]);
    }
  }

  /** The translation of a well-typed filter names only fields that exist. */
  lemma {:induction false} ToExprIsValid(depth: nat, j: Json, t: RecordType, ty: RecordType)
    requires WellTyped(j, t) && t.Keys <= ty.Keys && (forall f | f in t :: t[f] == ty[f])
    requires ToExprAt(depth, j).Ok?
    ensures ExprIsValid(ToExprAt(depth, j).value, ty)
    decreases j, 1
  {
    EntriesAreValid(depth, j.entries, Const(Bool(true)), t, ty);
  }

  lemma {:induction false} EntriesAreValid(depth: nat, entries: seq<Entry>, acc: Expr, t: RecordType, ty: RecordType)
    requires t.Keys <= ty.Keys && (forall f | f in t :: t[f] == ty[f])
    requires forall e | e in entries :: WellTypedEntry(e, t)
    requires ExprIsValid(acc, ty) && ConjoinEntries(depth, entries, acc).Ok?
    ensures ExprIsValid(ConjoinEntries(depth, entries, acc).value, ty)
    decreases entries, 1
  {
    if entries != [] {
      var e := entries[0];
      assert e in entries;
      if e.key == "$and" {
        FiltersAreValid(depth, e.value.elems, Const(Bool(true)), t, ty);
      } else if e.key == "$or" {
        FiltersAreValid(depth, e.value.elems, Const(Bool(false)), t, ty);
      } else if e.key == "$not" {
        ToExprIsValid(depth + 1, e.value, t, ty);
      } else {
        FieldIsValid(0, Parameter(0), e.key, e.value, ty, ty);
      }
      EntriesAreValid(depth, entries[1..], And(acc, EntryToExpr(depth, e).value), t, ty);
    }
  }

  lemma {:induction false} FiltersAreValid(depth: nat, filters: seq<Json>, acc: Expr, t: RecordType, ty: RecordType)
    requires t.Keys <= ty.Keys && (forall f | f in t :: t[f] == ty[f])
    requires (forall f | f in filters :: WellTyped(f, t)) && ExprIsValid(acc, ty)
    ensures ConjoinFilters(depth, filters, acc).Ok? ==> ExprIsValid(ConjoinFilters(depth, filters, acc).value, ty)
    ensures DisjoinFilters(depth, filters, acc).Ok? ==> ExprIsValid(DisjoinFilters(depth, filters, acc).value, ty)
    decreases filters, 0
  {
    if filters != [] && ToExprAt(depth + 1, filters[0]).Ok? {
      var x := ToExprAt(depth + 1, filters[0]).value;
      ToExprIsValid(depth + 1, filters[0], t, ty);
      FiltersAreValid(depth, filters[1..], And(acc, x), t, ty);
      FiltersAreValid(depth, filters[1..], Or(acc, x), t, ty);
    }
  }

  lemma {:induction false} FieldIsValid(depth: nat, obj: Expr, name: string, j: Json, t: RecordType, ty: RecordType)
    requires JoinedType(obj, ty) == Some(t) && name in t && WellTypedField(j, t[name])
    requires FieldToExpr(depth, Property(obj, name), j).Ok?
    ensures ExprIsValid(FieldToExpr(depth, Property(obj, name), j).value, ty)
    decreases j, 1
  {
    if j.JObj? {
      FieldsAreValid(depth, obj, name, j.entries, Const(Bool(true)), t, ty);
    }
  }

  lemma {:induction false} FieldsAreValid(depth: nat, obj: Expr, name: string, entries: seq<Entry>, acc: Expr,
                                          t: RecordType, ty: RecordType)
    requires JoinedType(obj, ty) == Some(t) && name in t && WellTypedField(JObj(entries), t[name])
    requires ExprIsValid(acc, ty) && ConjoinFields(depth, Property(obj, name), entries, acc).Ok?
    ensures ExprIsValid(ConjoinFields(depth, Property(obj, name), entries, acc).value, ty)
    decreases entries, 1
  {
    if entries != [] {
      var e, p := entries[0], Property(obj, name);
      assert e in entries;
      if t[name].Scalar? {
        OperatorKeys(e.key);
      } else {
        FieldIsValid(depth + 1, p, e.key, e.value, t[name].fields, ty);
      }
      FieldsAreValid(depth, obj, name, entries[1..], And(acc, FieldEntryToExpr(depth, p, e).value), t, ty);
    }
  }
}
