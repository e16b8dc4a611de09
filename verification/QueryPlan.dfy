/** The database side of a query (server/src/datastore/query.rs): a list of operators is
    compiled to nested SELECT stages.  A stage gathers all filters up to the next Take or
    Skip, keeps only the last sort, and applies the Take or Skip that ends it.

    The reference meaning of the same list is `RunOps`, one operator after the other. */
module QueryPlan {
  import opened Sequences
  import opened Values
  import opened JsonFilter

  datatype SortKey = SortKey(field: string, ascending: bool)

  datatype QueryOp =
    | Where(expression: Expr)
    | Projection(fields: seq<string>)
    | TakeOp(count: nat)
    | SkipOp(count: nat)
    | OrderBy(keys: seq<SortKey>)
    | CountOp

  predicate IsBreak(op: QueryOp) { op.TakeOp? || op.SkipOp? }

  // ---------- order of rows ----------

  predicate KeyLess(k: SortKey, a: Record, b: Record) {
    var l, r := Lookup(a, k.field), Lookup(b, k.field);
    if k.ascending then Less(l, r) else Less(r, l)
  }

  predicate RowLess(keys: seq<SortKey>, a: Record, b: Record) {
    keys != [] && (KeyLess(keys[0], a, b) || (!KeyLess(keys[0], b, a) && RowLess(keys[1..], a, b)))
  }

  function Order(keys: seq<SortKey>): (Record, Record) -> bool {
    (a, b) => RowLess(keys, a, b)
  }

  lemma KeyLessIsWeakOrder(k: SortKey)
    ensures WeakOrder((a, b) => KeyLess(k, a, b))
  {
    LessIsWeakOrder();
    forall a, b, c | !KeyLess(k, a, b) && !KeyLess(k, b, c) ensures !KeyLess(k, a, c) {
      var x, y, z := Lookup(a, k.field), Lookup(b, k.field), Lookup(c, k.field);
      assert k.ascending ==> !Less(x, y) && !Less(y, z);
      assert !k.ascending ==> !Less(z, y) && !Less(y, x);
    }
  }

  lemma {:induction false} OrderIsWeakOrder(keys: seq<SortKey>)
    ensures WeakOrder(Order(keys))
  {
    if keys != [] {
      var hi, lo := (a, b) => KeyLess(keys[0], a, b), Order(keys[1..]);
      KeyLessIsWeakOrder(keys[0]);
      OrderIsWeakOrder(keys[1..]);
      LexWeakOrder(hi, lo);
      var lt, lex := Order(keys), Lex(hi, lo);
      assert forall a, b :: lt(a, b) == lex(a, b);
      forall a, b, c | !lt(a, b) && !lt(b, c) ensures !lt(a, c) {
        assert !lex(a, b) && !lex(b, c);
      }
    }
  }

  /** More keys refine the order of the keys before them. */
  lemma {:induction false} OrderAppend(keys: seq<SortKey>, more: seq<SortKey>, a: Record, b: Record)
    ensures Order(keys + more)(a, b) == Lex(Order(keys), Order(more))(a, b)
  {
    if keys == [] {
      assert keys + more == more;
    } else {
      assert (keys + more)[1..] == keys[1..] + more;
      OrderAppend(keys[1..], more, a, b);
      KeyLessIsWeakOrder(keys[0]);
      var lt := (x, y) => KeyLess(keys[0], x, y);
      assert lt(a, b) ==> !lt(b, a);
      assert lt(b, a) ==> !lt(a, b);
    }
  }

  /** Sorting by `first` and then by `then_` is one sort with the keys of `then_` leading. */
  lemma SortBySortBy(first: seq<SortKey>, then_: seq<SortKey>, rows: seq<Record>)
    ensures Sort(Order(then_), Sort(Order(first), rows)) == Sort(Order(then_ + first), rows)
  {
    OrderIsWeakOrder(first);
    OrderIsWeakOrder(then_);
    SortTwice(Order(then_), Order(first), rows);
    forall a, b | a in rows && b in rows
      ensures Lex(Order(then_), Order(first))(a, b) == Order(then_ + first)(a, b)
    {
      OrderAppend(then_, first, a, b);
    }
    SortCongruentOn(Lex(Order(then_), Order(first)), Order(then_ + first), rows);
  }

  // ---------- reference: one operator at a time ----------

  function CountRow(n: nat): Record { map["count" := Num(n)] }

  function Matching(e: Expr): Record -> bool { row => Holds(e, row) }

  function RunOp(op: QueryOp, rows: seq<Record>): seq<Record> {
    match op
    case Where(e) => Filter(Matching(e), rows)
    case Projection(_) => rows
    case TakeOp(n) => Take(rows, n)
    case SkipOp(n) => Drop(rows, n)
    case OrderBy(keys) => Sort(Order(keys), rows)
    case CountOp => [CountRow(|rows|)]
  }

  function RunOps(ops: seq<QueryOp>, rows: seq<Record>): seq<Record> {
    if ops == [] then rows else RunOps(ops[1..], RunOp(ops[0], rows))
  }

  lemma {:induction false} RunOpsAppend(ops: seq<QueryOp>, more: seq<QueryOp>, rows: seq<Record>)
    ensures RunOps(ops + more, rows) == RunOps(more, RunOps(ops, rows))
  {
    if ops == [] {
      assert ops + more == more;
    } else {
      assert (ops + more)[1..] == ops[1..] + more;
      RunOpsAppend(ops[1..], more, RunOp(ops[0], rows));
    }
  }

  // ---------- nested SELECT stages ----------

  datatype Select =
    | Core
    | Stage(inner: Select, counting: bool, where_: Option<Expr>, order: Option<seq<SortKey>>,
            limit: Option<nat>, offset: Option<nat>)

  function FilterStage(e: Option<Expr>, rows: seq<Record>): seq<Record> {
    if e.Some? then Filter(Matching(e.value), rows) else rows
  }

  function OrderStage(keys: Option<seq<SortKey>>, rows: seq<Record>): seq<Record> {
    if keys.Some? then Sort(Order(keys.value), rows) else rows
  }

  function LimitStage(limit: Option<nat>, offset: Option<nat>, rows: seq<Record>): seq<Record> {
    var rest := if offset.Some? then Drop(rows, offset.value) else rows;
    if limit.Some? then Take(rest, limit.value) else rest
  }

  /** SELECT semantics: filter, sort (or count), then offset and limit. */
  function RunSelect(q: Select, base: seq<Record>): seq<Record> {
    match q
    case Core => base
    case Stage(inner, counting, e, keys, limit, offset) =>
      var rows := OrderStage(keys, FilterStage(e, RunSelect(inner, base)));
      LimitStage(limit, offset, if counting then [CountRow(|rows|)] else rows)
  }

  // ---------- pieces of a stage ----------

  /** How many operators the next stage takes: up to and with the first Take or Skip. */
  function StageLength(ops: seq<QueryOp>): (n: nat)
    ensures n <= |ops| && (ops != [] ==> n > 0)
  {
    if ops == [] then 0
    else if IsBreak(ops[0]) then 1
    else 1 + StageLength(ops[1..])
  }

  lemma {:induction false} StageShape(ops: seq<QueryOp>)
    ensures forall i :: 0 <= i < StageLength(ops) - 1 ==> !IsBreak(ops[i])
    ensures StageLength(ops) < |ops| ==> IsBreak(ops[StageLength(ops) - 1])
  {
    if ops != [] && !IsBreak(ops[0]) {
      StageShape(ops[1..]);
    }
  }

  function ConjoinWheres(ops: seq<QueryOp>, acc: Option<Expr>): Option<Expr> {
    if ops == [] then acc
    else if ops[0].Where? then
      ConjoinWheres(ops[1..], Some(if acc.Some? then And(acc.value, ops[0].expression) else ops[0].expression))
    else ConjoinWheres(ops[1..], acc)
  }

  function LastOrderBy(ops: seq<QueryOp>): Option<seq<SortKey>> {
    if ops == [] then None
    else if ops[|ops| - 1].OrderBy? then Some(ops[|ops| - 1].keys)
    else LastOrderBy(ops[..|ops| - 1])
  }

  function TakeCount(ops: seq<QueryOp>): Option<nat> {
    if ops == [] then None
    else if ops[|ops| - 1].TakeOp? then Some(ops[|ops| - 1].count)
    else TakeCount(ops[..|ops| - 1])
  }

  function SkipCount(ops: seq<QueryOp>): Option<nat> {
    if ops == [] then None
    else if ops[|ops| - 1].SkipOp? then Some(ops[|ops| - 1].count)
    else SkipCount(ops[..|ops| - 1])
  }

  /** The entity type an expression denotes, following joins from the queried entity. */
  function JoinedType(e: Expr, ty: RecordType): Option<RecordType> {
    match e
    case Parameter(_) => Some(ty)
    case Property(o, name) =>
      var t := JoinedType(o, ty);
      if t.Some? && name in t.value && t.value[name].Nested? then Some(t.value[name].fields) else None
    case _ => None
  }

  /** Whether the filter can be written as SQL: every property chain leads to a field. */
  predicate ExprIsValid(e: Expr, ty: RecordType) {
    match e
    case Const(_) => true
    case Parameter(_) => false
    case Property(o, name) => var t := JoinedType(o, ty); t.Some? && name in t.value
    case Binary(_, l, r) => ExprIsValid(l, ty) && ExprIsValid(r, ty)
    case Not(x) => ExprIsValid(x, ty)
  }

  predicate KeysAreValid(keys: seq<SortKey>, ty: RecordType) {
    forall k | k in keys :: k.field in ty
  }

  /** The row's sort fields are scalars of their kind, not null: values that sort alike
      everywhere. */
  predicate IsSortable(keys: seq<SortKey>, ty: RecordType, row: Record) {
    forall k | k in keys :: k.field in ty && ty[k.field].Scalar? && KindOf(Lookup(row, k.field), ty[k.field].kind)
  }

  /** The stage for one slice of operators on top of `q`, or the error (or failed
      assertion) that building it ends in. */
  function StageFor(ty: RecordType, q: Select, ops: seq<QueryOp>, last: bool): Result<Select> {
    var e, keys := ConjoinWheres(ops, None), LastOrderBy(ops);
    if e.Some? && !ExprIsValid(e.value, ty) then Err("expression error")
    else if keys.Some? && !KeysAreValid(keys.value, ty) then Err("entity has no such field")
    else if CountOp in ops && !(CountOp !in ops[..|ops| - 1] && last) then Err("Count is not the last operator")
    else Ok(Stage(q, CountOp in ops, e, keys, TakeCount(ops), SkipCount(ops)))
  }

  function StagesFrom(ty: RecordType, q: Select, ops: seq<QueryOp>): Result<Select>
    decreases |ops|
  {
    if ops == [] then Ok(q) else
      var n := StageLength(ops);
      match StageFor(ty, q, ops[..n], n == |ops|)
      case Err(e) => Err(e)
      case Ok(stage) => StagesFrom(ty, stage, ops[n..])
  }

  function RawQuery(ty: RecordType, ops: seq<QueryOp>): Result<Select> {
    StagesFrom(ty, Core, ops)
  }

  // ---------- the loops that build the stages ----------

  method SplitOnFirstTake(ops: seq<QueryOp>) returns (stage: seq<QueryOp>, remainder: seq<QueryOp>)
    ensures stage == ops[..StageLength(ops)] && remainder == ops[StageLength(ops)..]
  {
    for i := 0 to |ops|
      invariant StageLength(ops) == i + StageLength(ops[i..])
    {
      assert ops[i..][1..] == ops[i + 1..];
      if IsBreak(ops[i]) {
        return ops[..i + 1], ops[i + 1..];
      }
    }
    return ops, [];
  }

  method GatherFilters(ops: seq<QueryOp>) returns (expr: Option<Expr>)
    ensures expr == ConjoinWheres(ops, None)
  {
    expr := None;
    for i := 0 to |ops|
      invariant ConjoinWheres(ops, None) == ConjoinWheres(ops[i..], expr)
    {
      assert ops[i..][1..] == ops[i + 1..];
      if ops[i].Where? {
        expr := Some(if expr.Some? then And(expr.value, ops[i].expression) else ops[i].expression);
      }
    }
  }

  method MakeRawQuery(ty: RecordType, operators: seq<QueryOp>) returns (q: Result<Select>)
    ensures q == RawQuery(ty, operators)
  {
    var sql := Core;
    var remaining := operators;
    while remaining != []
      invariant RawQuery(ty, operators) == StagesFrom(ty, sql, remaining)
      decreases |remaining|
    {
      var ops, remainder := SplitOnFirstTake(remaining);
      remaining := remainder;
      var filter := GatherFilters(ops);
      if filter.Some? && !ExprIsValid(filter.value, ty) {
        return Err("expression error");
      }
      var sort := LastOrderBy(ops);
      if sort.Some? && !KeysAreValid(sort.value, ty) {
        return Err("entity has no such field");
      }
      var limit := TakeCount(ops);
      var offset := SkipCount(ops);
      var counting := CountOp in ops;
      if counting && !(CountOp !in ops[..|ops| - 1] && remaining == []) {
        return Err("Count is not the last operator");
      }
      sql := Stage(sql, counting, filter, sort, limit, offset);
    }
    return Ok(sql);
  }

  // ---------- one stage against its operators ----------

  /** The rows of a stage before Take, Skip or Count. */
  function StageRows(ops: seq<QueryOp>, rows: seq<Record>): seq<Record> {
    OrderStage(LastOrderBy(ops), FilterStage(ConjoinWheres(ops, None), rows))
  }

  lemma RunStage(ty: RecordType, q: Select, ops: seq<QueryOp>, last: bool, base: seq<Record>)
    requires StageFor(ty, q, ops, last).Ok?
    ensures var rows := StageRows(ops, RunSelect(q, base));
            RunSelect(StageFor(ty, q, ops, last).value, base) ==
            LimitStage(TakeCount(ops), SkipCount(ops), if CountOp in ops then [CountRow(|rows|)] else rows)
  {}

  predicate Keeps(ops: seq<QueryOp>, row: Record) {
    forall op | op in ops :: op.Where? ==> Holds(op.expression, row)
  }

  /** The keys of all sorts in `ops`, the latest first. */
  function AllKeys(ops: seq<QueryOp>): seq<SortKey> {
    if ops == [] then []
    else if ops[0].OrderBy? then AllKeys(ops[1..]) + ops[0].keys
    else AllKeys(ops[1..])
  }

  function LastKeys(ops: seq<QueryOp>): seq<SortKey> {
    if LastOrderBy(ops).Some? then LastOrderBy(ops).value else []
  }

  /** The keys of all sorts but the last, the latest first. */
  function EarlierKeys(ops: seq<QueryOp>): seq<SortKey>
  {
    LastKeysLead(ops);
    AllKeys(ops)[|LastKeys(ops)|..]
  }

  lemma {:induction false} AllKeysAppend(ops: seq<QueryOp>, more: seq<QueryOp>)
    ensures AllKeys(ops + more) == AllKeys(more) + AllKeys(ops)
  {
    if ops == [] {
      assert ops + more == more;
    } else {
      assert (ops + more)[1..] == ops[1..] + more;
      AllKeysAppend(ops[1..], more);
    }
  }

  lemma {:induction false} LastKeysLead(ops: seq<QueryOp>)
    ensures LastKeys(ops) <= AllKeys(ops)
    ensures LastOrderBy(ops).None? ==> AllKeys(ops) == []
  {
    if ops != [] {
      var n := |ops| - 1;
      assert ops == ops[..n] + [ops[n]];
      AllKeysAppend(ops[..n], [ops[n]]);
      LastKeysLead(ops[..n]);
    }
  }

  ghost predicate IsBody(ops: seq<QueryOp>) {
    forall op | op in ops :: op.Where? || op.OrderBy? || op.Projection?
  }

  function Kept(ops: seq<QueryOp>): Record -> bool { row => Keeps(ops, row) }

  /** Filters and sorts in any order are: filter by all, then one sort by all keys. */
  lemma {:induction false} BodyNormalForm(ops: seq<QueryOp>, rows: seq<Record>)
    requires IsBody(ops)
    ensures RunOps(ops, rows) == Sort(Order(AllKeys(ops)), Filter(Kept(ops), rows))
  {
    if ops == [] {
      FilterAll(Kept(ops), rows);
      SortByNothing(rows);
    } else {
      var op, rest := ops[0], ops[1..];
      assert ops == [op] + rest;
      BodyNormalForm(rest, RunOp(op, rows));
      match op
      case Where(e) =>
        FilterTwice(Matching(e), Kept(rest), rows);
        FilterCongruent(Both(Matching(e), Kept(rest)), Kept(ops), rows);
      case OrderBy(keys) =>
        SortThenBody(keys, rest, rows);
        FilterCongruent(Kept(rest), Kept(ops), rows);
      case Projection(_) =>
        FilterCongruent(Kept(rest), Kept(ops), rows);
    }
  }

  lemma SortThenBody(keys: seq<SortKey>, rest: seq<QueryOp>, rows: seq<Record>)
    ensures Sort(Order(AllKeys(rest)), Filter(Kept(rest), Sort(Order(keys), rows))) ==
            Sort(Order(AllKeys(rest) + keys), Filter(Kept(rest), rows))
  {
    OrderIsWeakOrder(keys);
    FilterSort(Order(keys), Kept(rest), rows);
    SortBySortBy(keys, AllKeys(rest), Filter(Kept(rest), rows));
  }

  lemma SortByNothing(rows: seq<Record>)
    ensures Sort(Order([]), rows) == rows
  {
    OrderIsWeakOrder([]);
    SortOfSorted(Order([]), rows);
  }

  lemma {:induction false} ConjoinWheresMeans(ops: seq<QueryOp>, acc: Option<Expr>, row: Record)
    ensures var e := ConjoinWheres(ops, acc);
            (e.Some? ==> Holds(e.value, row)) <==> (acc.Some? ==> Holds(acc.value, row)) && Keeps(ops, row)
  {
    if ops != [] {
      assert ops == [ops[0]] + ops[1..];
      if ops[0].Where? {
        var acc' := Some(if acc.Some? then And(acc.value, ops[0].expression) else ops[0].expression);
        ConjoinWheresMeans(ops[1..], acc', row);
      } else {
        ConjoinWheresMeans(ops[1..], acc, row);
      }
    }
  }

  lemma FilterStageMeans(ops: seq<QueryOp>, rows: seq<Record>)
    ensures FilterStage(ConjoinWheres(ops, None), rows) == Filter(Kept(ops), rows)
  {
    var e := ConjoinWheres(ops, None);
    forall row | row in rows ensures (e.Some? ==> Holds(e.value, row)) <==> Keeps(ops, row) {
      ConjoinWheresMeans(ops, None, row);
    }
    if e.Some? {
      FilterCongruent(Matching(e.value), Kept(ops), rows);
    } else {
      FilterAll(Kept(ops), rows);
    }
  }

  /** Among the rows that pass the filters, those the last sort does not tell apart are
      already in the order the earlier sorts ask for. */
  ghost predicate LastSortDecides(ops: seq<QueryOp>, rows: seq<Record>) {
    NoTiedInversion(Order(LastKeys(ops)), Order(EarlierKeys(ops)), Filter(Kept(ops), rows))
  }

  /** Keeping only the last sort of a stage is right exactly when the last sort decides. */
  lemma LastSortSuffices(ops: seq<QueryOp>, rows: seq<Record>)
    requires IsBody(ops)
    ensures StageRows(ops, rows) == RunOps(ops, rows)
            <==> LastSortDecides(ops, rows)
  {
    var kept := Filter(Kept(ops), rows);
    var last, earlier := LastKeys(ops), EarlierKeys(ops);
    LastKeysLead(ops);
    assert AllKeys(ops) == last + earlier;
    BodyNormalForm(ops, rows);
    FilterStageMeans(ops, rows);
    OrderIsWeakOrder(last);
    OrderIsWeakOrder(earlier);
    DropRefiningKey(Order(last), Order(earlier), kept);
    forall a, b ensures Lex(Order(last), Order(earlier))(a, b) == Order(AllKeys(ops))(a, b) {
      OrderAppend(last, earlier, a, b);
    }
    SortCongruentOn(Lex(Order(last), Order(earlier)), Order(AllKeys(ops)), kept);
    if LastOrderBy(ops).None? {
      SortByNothing(kept);
    }
  }

  const ID := "id"

  predicate HaveOtherIds(a: Record, b: Record) {
    Lookup(a, ID).Str? && Lookup(b, ID).Str? && Lookup(a, ID) != Lookup(b, ID)
  }

  /** No two rows have the same id. */
  ghost predicate UniqueIds(rows: seq<Record>) {
    forall i, j :: 0 <= i < j < |rows| ==> HaveOtherIds(rows[i], rows[j])
  }

  /** The rows that a table of a type can hold. */
  ghost predicate IsTable(ty: RecordType, rows: seq<Record>) {
    UniqueIds(rows) && forall r | r in rows :: HasType(r, ty)
  }

  /** The last sort orders by the id, or by every field that an earlier one orders by. */
  predicate LastSortCovers(ops: seq<QueryOp>) {
    ID in Fields(LastKeys(ops)) || Fields(EarlierKeys(ops)) <= Fields(LastKeys(ops))
  }

  /** Which sorts may be dropped can be told from the operators alone: for sorts without
      filters, dropping all but the last is right on every table of a type exactly when the
      last sort orders by the id or by every field that an earlier one orders by. */
  lemma DroppingSortsIsSafeIff(ty: RecordType, ops: seq<QueryOp>)
    requires forall op | op in ops :: op.OrderBy?
    requires ID in ty && ty[ID] == Scalar(StrKind)
    requires forall k | k in AllKeys(ops) :: k.field in ty && ty[k.field].Scalar?
    ensures (forall rows | IsTable(ty, rows) :: OrderStage(LastOrderBy(ops), rows) == RunOps(ops, rows))
            <==> LastSortCovers(ops)
  {
    forall rows
      ensures OrderStage(LastOrderBy(ops), rows) == RunOps(ops, rows) <==> LastSortDecides(ops, rows)
    {
      ConjoinNoWheres(ops);
      LastSortSuffices(ops, rows);
    }
    if LastSortCovers(ops) {
      forall rows | IsTable(ty, rows) ensures LastSortDecides(ops, rows) {
        CoveringSortDecides(ops, true, rows);
      }
    } else {
      var rows := UncoveredKeyMisleads(ty, ops);
      assert OrderStage(LastOrderBy(ops), rows) != RunOps(ops, rows);
    }
  }

  lemma UncoveredKeyMisleads(ty: RecordType, ops: seq<QueryOp>) returns (rows: seq<Record>)
    requires forall op | op in ops :: op.OrderBy?
    requires ID in ty && ty[ID] == Scalar(StrKind)
    requires forall k | k in AllKeys(ops) :: k.field in ty && ty[k.field].Scalar?
    requires !LastSortCovers(ops)
    ensures IsTable(ty, rows) && !LastSortDecides(ops, rows)
  {
    var last, earlier := LastKeys(ops), EarlierKeys(ops);
    LastKeysLead(ops);
    var f :| f in Fields(earlier) && f !in Fields(last);
    var key :| key in earlier && key.field == f;
    assert key in AllKeys(ops);
    rows := SwappedPair(ty, earlier, f);
    FilterAll(Kept(ops), rows);
    TiedWithout(last, f, rows[0], rows[1]);
    TiedWithout(last, f, rows[1], rows[0]);
    assert Tied(Order(last), rows[0], rows[1]) && Order(earlier)(rows[1], rows[0]);
  }

  function Fields(keys: seq<SortKey>): set<string> {
    set k | k in keys :: k.field
  }

  lemma {:induction false} ConjoinNoWheres(ops: seq<QueryOp>)
    requires forall op | op in ops :: op.OrderBy?
    ensures ConjoinWheres(ops, None) == None
  {
    if ops != [] {
      assert ops[0] in ops;
      ConjoinNoWheres(ops[1..]);
    }
  }

  lemma {:induction false} TiedFieldsTie(keys: seq<SortKey>, a: Record, b: Record)
    requires forall k | k in keys :: !KeyLess(k, a, b) && !KeyLess(k, b, a)
    ensures !RowLess(keys, a, b)
  {
    if keys != [] {
      TiedFieldsTie(keys[1..], a, b);
    }
  }

  lemma {:induction false} TiedOnEveryKey(keys: seq<SortKey>, a: Record, b: Record)
    requires Tied(Order(keys), a, b)
    ensures forall k | k in keys :: !KeyLess(k, a, b) && !KeyLess(k, b, a)
  {
    if keys != [] {
      TiedOnEveryKey(keys[1..], a, b);
    }
  }

  lemma CoveredKeysDecide(ops: seq<QueryOp>, rows: seq<Record>)
    requires Fields(EarlierKeys(ops)) <= Fields(LastKeys(ops))
    ensures LastSortDecides(ops, rows)
  {
    var last, earlier := LastKeys(ops), EarlierKeys(ops);
    var kept := Filter(Kept(ops), rows);
    forall i, j | 0 <= i < j < |kept| && Tied(Order(last), kept[i], kept[j])
      ensures !RowLess(earlier, kept[j], kept[i])
    {
      TiedOnEveryKey(last, kept[i], kept[j]);
      forall k | k in earlier
        ensures !KeyLess(k, kept[i], kept[j]) && !KeyLess(k, kept[j], kept[i])
      {
        assert k.field in Fields(earlier);
        var k' :| k' in last && k'.field == k.field;
      }
      TiedFieldsTie(earlier, kept[j], kept[i]);
    }
  }

  lemma {:induction false} FilterKeepsUnique(p: Record -> bool, rows: seq<Record>)
    requires UniqueIds(rows)
    ensures UniqueIds(Filter(p, rows))
  {
    var kept := Filter(p, rows);
    forall i, j | 0 <= i < j < |kept|
      ensures HaveOtherIds(kept[i], kept[j])
    {
      var a, b := FilterKeepsOrder(p, rows, i, j);
    }
  }

  /** A last sort that covers the earlier ones decides, on rows with unique ids also one that
      orders by the id. */
  lemma CoveringSortDecides(ops: seq<QueryOp>, ids: bool, rows: seq<Record>)
    requires ids ==> UniqueIds(rows)
    requires (ids && ID in Fields(LastKeys(ops))) || Fields(EarlierKeys(ops)) <= Fields(LastKeys(ops))
    ensures LastSortDecides(ops, rows)
  {
    if Fields(EarlierKeys(ops)) <= Fields(LastKeys(ops)) {
      CoveredKeysDecide(ops, rows);
    } else {
      IdKeyDecides(ops, rows);
    }
  }

  lemma IdKeyDecides(ops: seq<QueryOp>, rows: seq<Record>)
    requires UniqueIds(rows) && ID in Fields(LastKeys(ops))
    ensures LastSortDecides(ops, rows)
  {
    var last, kept := LastKeys(ops), Filter(Kept(ops), rows);
    FilterKeepsUnique(Kept(ops), rows);
    forall i, j | 0 <= i < j < |kept| ensures !Tied(Order(last), kept[i], kept[j]) {
      if Tied(Order(last), kept[i], kept[j]) {
        TiedOnEveryKey(last, kept[i], kept[j]);
        var k :| k in last && k.field == ID;
        LessIsTotal(Lookup(kept[i], ID), Lookup(kept[j], ID));
        assert false;
      }
    }
  }

  // ---------- rows on which a dropped sort is missed ----------

  function DefaultValue(t: FieldType): Value
    decreases t
  {
    match t
    case Scalar(k) => Low(k)
    case Nested(fields) => Entity(map k | k in fields :: DefaultValue(fields[k]))
  }

  function DefaultRecord(ty: RecordType): Record {
    map k | k in ty :: DefaultValue(ty[k])
  }

  function Low(k: Kind): Value {
    match k
    case BoolKind => Bool(false)
    case NumKind => Num(0)
    case StrKind => Str("")
  }

  function High(k: Kind): Value {
    match k
    case BoolKind => Bool(true)
    case NumKind => Num(1)
    case StrKind => Str("a")
  }

  lemma {:induction false} DefaultHasType(t: FieldType)
    ensures FieldHasType(DefaultValue(t), t)
    decreases t
  {
    if t.Nested? {
      forall k | k in t.fields ensures FieldHasType(DefaultValue(t.fields[k]), t.fields[k]) {
        DefaultHasType(t.fields[k]);
      }
    }
  }

  lemma DefaultRecordHasType(ty: RecordType)
    ensures HasType(DefaultRecord(ty), ty)
  {
    forall k | k in ty ensures FieldHasType(DefaultRecord(ty)[k], ty[k]) {
      DefaultHasType(ty[k]);
    }
  }

  lemma ChangedFieldHasType(r: Record, ty: RecordType, f: string, v: Value)
    requires HasType(r, ty) && f in ty && FieldHasType(v, ty[f])
    ensures HasType(r[f := v], ty)
  {
    var t: FieldType := Nested(ty);
    assert forall k | k in t.fields :: k in Entity(r).fields && FieldHasType(Entity(r).fields[k], t.fields[k]);
    assert FieldHasType(Entity(r[f := v]), t);
  }

  /** The direction of the first key on a field. */
  function Ascends(keys: seq<SortKey>, f: string): bool {
    keys != [] && if keys[0].field == f then keys[0].ascending else Ascends(keys[1..], f)
  }

  /** The field's value in the row that should come first. */
  function Earlier(ty: RecordType, keys: seq<SortKey>, f: string): Value
    requires f in ty && ty[f].Scalar?
  {
    if Ascends(keys, f) then Low(ty[f].kind) else High(ty[f].kind)
  }

  function Later(ty: RecordType, keys: seq<SortKey>, f: string): Value
    requires f in ty && ty[f].Scalar?
  {
    if Ascends(keys, f) then High(ty[f].kind) else Low(ty[f].kind)
  }

  /** Two rows of a table that differ in their ids and in `f` only, in the wrong order. */
  lemma SwappedPair(ty: RecordType, keys: seq<SortKey>, f: string) returns (rows: seq<Record>)
    requires f in ty && ty[f].Scalar? && ID in ty && ty[ID] == Scalar(StrKind)
    requires f in Fields(keys)
    ensures |rows| == 2 && IsTable(ty, rows) && RowLess(keys, rows[1], rows[0])
    ensures forall g :: g != f && g != ID ==> Lookup(rows[0], g) == Lookup(rows[1], g)
  {
    var base := DefaultRecord(ty);
    DefaultRecordHasType(ty);
    var a := base[ID := Later(ty, keys, ID)][f := Later(ty, keys, f)];
    var b := base[ID := Earlier(ty, keys, ID)][f := Earlier(ty, keys, f)];
    rows := [a, b];
    ChangedFieldHasType(base, ty, ID, Later(ty, keys, ID));
    ChangedFieldHasType(base[ID := Later(ty, keys, ID)], ty, f, Later(ty, keys, f));
    ChangedFieldHasType(base, ty, ID, Earlier(ty, keys, ID));
    ChangedFieldHasType(base[ID := Earlier(ty, keys, ID)], ty, f, Earlier(ty, keys, f));
    FirstKeyDecides(ty, keys, f, b, a);
  }

  lemma {:induction false} FirstKeyDecides(ty: RecordType, keys: seq<SortKey>, f: string, a: Record, b: Record)
    requires f in ty && ty[f].Scalar? && ID in ty && ty[ID].Scalar?
    requires f in Fields(keys)
    requires Lookup(a, f) == Earlier(ty, keys, f) && Lookup(b, f) == Later(ty, keys, f)
    requires Lookup(a, ID) == Earlier(ty, keys, ID) && Lookup(b, ID) == Later(ty, keys, ID)
    requires forall g :: g != f && g != ID ==> Lookup(a, g) == Lookup(b, g)
    ensures RowLess(keys, a, b)
  {
    var k := keys[0];
    if k.field == f || k.field == ID {
      assert Less(Low(ty[k.field].kind), High(ty[k.field].kind));
      assert KeyLess(k, a, b);
    } else {
      LessIsWeakOrder();
      assert Lookup(a, k.field) == Lookup(b, k.field);
      assert f in Fields(keys[1..]) by {
        var k' :| k' in keys && k'.field == f;
        assert k' in keys[1..];
      }
      FirstKeyDecides(ty, keys[1..], f, a, b);
    }
  }

  lemma {:induction false} TiedWithout(keys: seq<SortKey>, f: string, a: Record, b: Record)
    requires f !in Fields(keys) && ID !in Fields(keys)
    requires forall g :: g != f && g != ID ==> Lookup(a, g) == Lookup(b, g)
    ensures !RowLess(keys, a, b)
  {
    if keys != [] {
      assert keys[0].field in Fields(keys);
      assert Fields(keys[1..]) <= Fields(keys);
      LessIsWeakOrder();
      TiedWithout(keys[1..], f, a, b);
    }
  }

  // ---------- a whole query ----------

  /** A stage without the Take, Skip or Count that may end it. */
  function Body(ops: seq<QueryOp>): seq<QueryOp> {
    if ops != [] && (IsBreak(ops[|ops| - 1]) || ops[|ops| - 1].CountOp?) then ops[..|ops| - 1] else ops
  }

  lemma BodyPieces(ops: seq<QueryOp>)
    ensures ConjoinWheres(Body(ops), None) == ConjoinWheres(ops, None)
    ensures LastOrderBy(Body(ops)) == LastOrderBy(ops)
  {
    if Body(ops) != ops {
      var n := |ops| - 1;
      assert ops == ops[..n] + [ops[n]];
      ConjoinWheresAppend(ops[..n], [ops[n]], None);
    }
  }

  lemma {:induction false} ConjoinWheresAppend(ops: seq<QueryOp>, more: seq<QueryOp>, acc: Option<Expr>)
    ensures ConjoinWheres(ops + more, acc) == ConjoinWheres(more, ConjoinWheres(ops, acc))
  {
    if ops == [] {
      assert ops + more == more;
    } else {
      assert (ops + more)[1..] == ops[1..] + more;
      ConjoinWheresAppend(ops[1..], more,
        if ops[0].Where? then Some(if acc.Some? then And(acc.value, ops[0].expression) else ops[0].expression)
        else acc);
    }
  }

  lemma {:induction false} NoTakeBefore(ops: seq<QueryOp>)
    requires forall op | op in ops :: !IsBreak(op)
    ensures TakeCount(ops).None? && SkipCount(ops).None?
  {
    if ops != [] {
      assert ops[|ops| - 1] in ops;
      NoTakeBefore(ops[..|ops| - 1]);
    }
  }

  ghost predicate IsStage(ops: seq<QueryOp>) {
    ops != [] && forall i :: 0 <= i < |ops| - 1 ==> !IsBreak(ops[i])
  }

  /** What a stage makes of the rows that reach it. */
  function StageOutput(ops: seq<QueryOp>, rows: seq<Record>): seq<Record> {
    var kept := StageRows(ops, rows);
    LimitStage(TakeCount(ops), SkipCount(ops), if CountOp in ops then [CountRow(|kept|)] else kept)
  }

  lemma StageRefines(ty: RecordType, q: Select, ops: seq<QueryOp>, last: bool, base: seq<Record>)
    requires IsStage(ops) && StageFor(ty, q, ops, last).Ok?
    requires CountOp in ops || LastSortDecides(Body(ops), RunSelect(q, base))
    ensures RunSelect(StageFor(ty, q, ops, last).value, base) == RunOps(ops, RunSelect(q, base))
  {
    var rows := RunSelect(q, base);
    RunStage(ty, q, ops, last, base);
    BodyIsBody(ty, q, ops, last);
    StageComputes(ops, rows);
  }

  lemma StageComputes(ops: seq<QueryOp>, rows: seq<Record>)
    requires ops != [] && IsBody(Body(ops))
    requires CountOp in ops || LastSortDecides(Body(ops), rows)
    ensures StageOutput(ops, rows) == RunOps(ops, rows)
  {
    var body, end := Body(ops), ops[|ops| - 1];
    if body == ops {
      assert CountOp !in ops;
      LastSortSuffices(ops, rows);
      WholeBodyOutput(ops, rows);
    } else {
      EndedStageComputes(body, end, rows);
      assert ops == body + [end];
    }
  }

  lemma EndedStageComputes(body: seq<QueryOp>, end: QueryOp, rows: seq<Record>)
    requires IsBody(body) && Body(body + [end]) == body
    requires CountOp in body + [end] || LastSortDecides(body, rows)
    ensures StageOutput(body + [end], rows) == RunOps(body + [end], rows)
  {
    LastSortSuffices(body, rows);
    EndedBodyOutput(body, end, rows);
  }

  lemma WholeBodyOutput(ops: seq<QueryOp>, rows: seq<Record>)
    requires IsBody(ops) && StageRows(ops, rows) == RunOps(ops, rows)
    ensures StageOutput(ops, rows) == RunOps(ops, rows)
  {
    NoTakeBefore(ops);
    assert CountOp !in ops;
  }

  lemma EndedBodyOutput(body: seq<QueryOp>, end: QueryOp, rows: seq<Record>)
    requires IsBody(body) && (IsBreak(end) || end.CountOp?)
    requires end.CountOp? || StageRows(body, rows) == RunOps(body, rows)
    ensures StageOutput(body + [end], rows) == RunOps(body + [end], rows)
  {
    var ops := body + [end];
    assert Body(ops) == body;
    BodyPieces(ops);
    assert StageRows(ops, rows) == StageRows(body, rows);
    EndOfStage(body, end, rows);
    assert CountOp !in body;
    if end.CountOp? {
      assert ops[|body|] == CountOp;
      CountIgnoresSorts(body, rows);
    }
  }

  lemma EndOfStage(body: seq<QueryOp>, end: QueryOp, rows: seq<Record>)
    requires IsBody(body) && (IsBreak(end) || end.CountOp?)
    ensures RunOps(body + [end], rows) == RunOp(end, RunOps(body, rows))
    ensures TakeCount(body + [end]) == if end.TakeOp? then Some(end.count) else None
    ensures SkipCount(body + [end]) == if end.SkipOp? then Some(end.count) else None
  {
    RunOpsAppend(body, [end], rows);
    var r := RunOps(body, rows);
    assert RunOps([end], r) == RunOps([], RunOp(end, r));
    NoTakeBefore(body);
    assert (body + [end])[..|body|] == body;
  }

  lemma BodyIsBody(ty: RecordType, q: Select, ops: seq<QueryOp>, last: bool)
    requires IsStage(ops) && StageFor(ty, q, ops, last).Ok?
    ensures IsBody(Body(ops))
  {
    var body, n := Body(ops), |ops| - 1;
    assert ops == ops[..n] + [ops[n]];
    forall op | op in body ensures op.Where? || op.OrderBy? || op.Projection? {
      var i :| 0 <= i < |body| && body[i] == op;
      assert op in ops;
      if i < n { assert op in ops[..n]; }
    }
  }

  lemma CountIgnoresSorts(body: seq<QueryOp>, rows: seq<Record>)
    requires IsBody(body)
    ensures |StageRows(body, rows)| == |RunOps(body, rows)|
  {
    BodyNormalForm(body, rows);
    FilterStageMeans(body, rows);
  }

  /** In every stage, on the rows that reach it, the last sort decides. */
  ghost predicate SortsAgree(ops: seq<QueryOp>, rows: seq<Record>)
    decreases |ops|
  {
    ops == [] ||
    var n := StageLength(ops);
    && (CountOp in ops[..n] || LastSortDecides(Body(ops[..n]), rows))
    && SortsAgree(ops[n..], RunOps(ops[..n], rows))
  }

  /** The nested SELECTs compute what the operators compute one after the other. */
  lemma RawQueryRefines(ty: RecordType, ops: seq<QueryOp>, rows: seq<Record>)
    requires RawQuery(ty, ops).Ok? && SortsAgree(ops, rows)
    ensures RunSelect(RawQuery(ty, ops).value, rows) == RunOps(ops, rows)
  {
    StagesRefine(ty, Core, ops, rows, rows);
  }

  lemma FirstStageRefines(ty: RecordType, q: Select, ops: seq<QueryOp>, base: seq<Record>, rows: seq<Record>)
    returns (first: seq<QueryOp>, rest: seq<QueryOp>, stage: Select, rows': seq<Record>)
    requires ops != [] && StagesFrom(ty, q, ops).Ok? && rows == RunSelect(q, base) && SortsAgree(ops, rows)
    ensures ops == first + rest && first != []
    ensures rows' == RunSelect(stage, base) && rows' == RunOps(first, rows)
    ensures StagesFrom(ty, q, ops) == StagesFrom(ty, stage, rest)
    ensures SortsAgree(rest, rows')
  {
    var n := StageLength(ops);
    first, rest := ops[..n], ops[n..];
    StagesFromUnfolds(ty, q, ops);
    stage := StageFor(ty, q, first, n == |ops|).value;
    rows' := RunOps(first, rows);
    FirstStageAgrees(ops, rows);
    StageRefines(ty, q, first, n == |ops|, base);
  }

  lemma StagesFromUnfolds(ty: RecordType, q: Select, ops: seq<QueryOp>)
    requires ops != [] && StagesFrom(ty, q, ops).Ok?
    ensures var n := StageLength(ops);
            var stage := StageFor(ty, q, ops[..n], n == |ops|);
            stage.Ok? && StagesFrom(ty, q, ops) == StagesFrom(ty, stage.value, ops[n..])
  {
  }

  lemma FirstStageAgrees(ops: seq<QueryOp>, rows: seq<Record>)
    requires ops != [] && SortsAgree(ops, rows)
    ensures var n := StageLength(ops);
            && 0 < n <= |ops| && IsStage(ops[..n])
            && (CountOp in ops[..n] || LastSortDecides(Body(ops[..n]), rows))
            && SortsAgree(ops[n..], RunOps(ops[..n], rows))
  {
    StageShape(ops);
  }

  lemma {:induction false} StagesRefine(ty: RecordType, q: Select, ops: seq<QueryOp>, base: seq<Record>,
                                        rows: seq<Record>)
    requires StagesFrom(ty, q, ops).Ok? && rows == RunSelect(q, base) && SortsAgree(ops, rows)
    ensures RunSelect(StagesFrom(ty, q, ops).value, base) == RunOps(ops, rows)
    decreases |ops|
  {
    if ops != [] {
      var first, rest, stage, rows' := FirstStageRefines(ty, q, ops, base, rows);
      StagesRefine(ty, stage, rest, base, rows');
      RunOpsAppend(first, rest, rows);
    }
  }

  /** With one stage only, the condition on the rows is exact. */
  lemma OneStageIsExact(ty: RecordType, ops: seq<QueryOp>, rows: seq<Record>)
    requires IsBody(ops) && ops != [] && RawQuery(ty, ops).Ok?
    ensures RunSelect(RawQuery(ty, ops).value, rows) == RunOps(ops, rows) <==> LastSortDecides(ops, rows)
  {
    StageShape(ops);
    assert forall i :: 0 <= i < |ops| ==> ops[i] in ops;
    assert StageLength(ops) == |ops|;
    assert ops[..|ops|] == ops && ops[|ops|..] == [];
    NoTakeBefore(ops);
    LastSortSuffices(ops, rows);
    var stage := StageFor(ty, Core, ops, true);
    assert StagesFrom(ty, stage.value, []) == Ok(stage.value);
  }

  /** In every stage the last sort covers the earlier ones, or, where ids are unique, orders by
      the id: the rows no longer matter. */
  ghost predicate SortsCovered(ops: seq<QueryOp>, ids: bool)
    decreases |ops|
  {
    ops == [] ||
    var n := StageLength(ops);
    var last, earlier := Fields(LastKeys(Body(ops[..n]))), Fields(EarlierKeys(Body(ops[..n])));
    && ((ids && ID in last) || earlier <= last)
    && SortsCovered(ops[n..], ids)
  }

  lemma {:induction false} CoveredSortsAgree(ops: seq<QueryOp>, ids: bool, rows: seq<Record>)
    requires SortsCovered(ops, ids) && (ids ==> UniqueIds(rows))
    ensures SortsAgree(ops, rows)
    decreases |ops|
  {
    if ops != [] {
      var n := StageLength(ops);
      CoveringSortDecides(Body(ops[..n]), ids, rows);
      if ids {
        RunOpsKeepsUnique(ops[..n], rows);
      }
      CoveredSortsAgree(ops[n..], ids, RunOps(ops[..n], rows));
    }
  }

  lemma {:induction false} InsertKeepsUnique(lt: (Record, Record) -> bool, x: Record, rows: seq<Record>)
    requires UniqueIds([x] + rows)
    ensures UniqueIds(Insert(lt, x, rows))
  {
    var r := Insert(lt, x, rows);
    if rows != [] && lt(rows[0], x) {
      assert [x] + rows == [x, rows[0]] + rows[1..];
      UniqueTail([x] + rows, 1);
      InsertKeepsUnique(lt, x, rows[1..]);
      var rest := Insert(lt, x, rows[1..]);
      forall j | 0 <= j < |rest| ensures HaveOtherIds(rows[0], rest[j]) {
        assert rest[j] in rest;
        if rest[j] != x {
          var k :| 0 <= k < |rows[1..]| && rows[1..][k] == rest[j];
          assert ([x] + rows)[1] == rows[0] && ([x] + rows)[k + 2] == rest[j];
        } else {
          assert ([x] + rows)[0] == x && ([x] + rows)[1] == rows[0];
        }
      }
      assert r == [rows[0]] + rest;
    }
  }

  /** Leaving out one row. */
  lemma UniqueTail(rows: seq<Record>, i: nat)
    requires UniqueIds(rows) && i < |rows|
    ensures UniqueIds(rows[..i] + rows[i + 1..])
  {
    var rest := rows[..i] + rows[i + 1..];
    assert forall k :: 0 <= k < |rest| ==> rest[k] == rows[if k < i then k else k + 1];
  }

  lemma {:induction false} SortKeepsUnique(lt: (Record, Record) -> bool, rows: seq<Record>)
    requires UniqueIds(rows)
    ensures UniqueIds(Sort(lt, rows))
  {
    if rows != [] {
      SortKeepsUnique(lt, rows[1..]);
      var rest := Sort(lt, rows[1..]);
      forall j | 0 <= j < |rest| ensures HaveOtherIds(rows[0], rest[j]) {
        assert rest[j] in rest;
        var k :| 0 <= k < |rows[1..]| && rows[1..][k] == rest[j];
        assert rows[k + 1] == rest[j];
      }
      InsertKeepsUnique(lt, rows[0], rest);
    }
  }

  lemma {:induction false} RunOpsKeepsUnique(ops: seq<QueryOp>, rows: seq<Record>)
    requires UniqueIds(rows)
    ensures UniqueIds(RunOps(ops, rows))
  {
    if ops != [] {
      match ops[0] {
        case Where(e) => FilterKeepsUnique(Matching(e), rows);
        case OrderBy(keys) => SortKeepsUnique(Order(keys), rows);
        case _ =>
      }
      RunOpsKeepsUnique(ops[1..], RunOp(ops[0], rows));
    }
  }

  /** Compiling fails exactly for a Count that is not last, a sort by an unknown field, or a
      filter over an unknown one. Earlier sorts of a stage are never looked at. */
  ghost predicate Compilable(ty: RecordType, ops: seq<QueryOp>)
    decreases |ops|
  {
    ops == [] ||
    var n := StageLength(ops);
    && (forall op | op in ops[..n] && op.Where? :: ExprIsValid(op.expression, ty))
    && KeysAreValid(LastKeys(ops[..n]), ty)
    && (CountOp in ops[..n] ==> n == |ops| && CountOp !in ops[..n - 1])
    && Compilable(ty, ops[n..])
  }

  lemma {:induction false} ConjoinWheresValid(ty: RecordType, ops: seq<QueryOp>, acc: Option<Expr>)
    ensures var e := ConjoinWheres(ops, acc);
            (e.Some? ==> ExprIsValid(e.value, ty)) <==>
            && (acc.Some? ==> ExprIsValid(acc.value, ty))
            && forall op | op in ops && op.Where? :: ExprIsValid(op.expression, ty)
  {
    if ops != [] {
      assert ops == [ops[0]] + ops[1..];
      if ops[0].Where? {
        var acc' := Some(if acc.Some? then And(acc.value, ops[0].expression) else ops[0].expression);
        ConjoinWheresValid(ty, ops[1..], acc');
      } else {
        ConjoinWheresValid(ty, ops[1..], acc);
      }
    }
  }

  lemma {:induction false} CompilesIff(ty: RecordType, q: Select, ops: seq<QueryOp>)
    ensures StagesFrom(ty, q, ops).Ok? <==> Compilable(ty, ops)
    decreases |ops|
  {
    if ops != [] {
      var n := StageLength(ops);
      ConjoinWheresValid(ty, ops[..n], None);
      assert ops[..n][..n - 1] == ops[..n - 1];
      var stage := StageFor(ty, q, ops[..n], n == |ops|);
      if stage.Ok? {
        CompilesIff(ty, stage.value, ops[n..]);
      }
    }
  }

  // ---------- what is refused ----------

  /** The property chain with the given names on a parameter. */
  function Chain(position: nat, names: seq<string>): Expr {
    if names == [] then Parameter(position)
    else Property(Chain(position, names[..|names| - 1]), names[|names| - 1])
  }

  /** Each name is a field of the type that the names before it lead to. */
  predicate Resolves(names: seq<string>, ty: RecordType) {
    && names != [] && names[0] in ty
    && (|names| > 1 ==> ty[names[0]].Nested? && Resolves(names[1..], ty[names[0]].fields))
  }

  /** The type that names lead to. */
  function TypeAt(names: seq<string>, ty: RecordType): Option<RecordType> {
    if names == [] then Some(ty)
    else if names[0] in ty && ty[names[0]].Nested? then TypeAt(names[1..], ty[names[0]].fields)
    else None
  }

  lemma {:induction false} TypeAtLast(names: seq<string>, last: string, ty: RecordType)
    ensures TypeAt(names + [last], ty) ==
            match TypeAt(names, ty)
            case None => None
            case Some(t) => if last in t && t[last].Nested? then Some(t[last].fields) else None
    ensures Resolves(names + [last], ty) <==> TypeAt(names, ty).Some? && last in TypeAt(names, ty).value
  {
    if names == [] {
      assert [] + [last] == [last];
      assert [last][1..] == [];
    } else {
      assert (names + [last])[1..] == names[1..] + [last];
      if names[0] in ty && ty[names[0]].Nested? {
        TypeAtLast(names[1..], last, ty[names[0]].fields);
      }
    }
  }

  lemma {:induction false} ChainType(position: nat, names: seq<string>, ty: RecordType)
    ensures JoinedType(Chain(position, names), ty) == TypeAt(names, ty)
    decreases |names|
  {
    if names != [] {
      var init, last := names[..|names| - 1], names[|names| - 1];
      assert names == init + [last];
      ChainType(position, init, ty);
      TypeAtLast(init, last, ty);
    }
  }

  /** A property chain is valid exactly when it leads through the type's fields. */
  lemma ChainIsValidIff(position: nat, names: seq<string>, ty: RecordType)
    ensures ExprIsValid(Chain(position, names), ty) <==> Resolves(names, ty)
  {
    if names != [] {
      var init, last := names[..|names| - 1], names[|names| - 1];
      assert names == init + [last];
      ChainType(position, init, ty);
      TypeAtLast(init, last, ty);
    }
  }

  /** The operands of the operators in an expression. */
  predicate HasOperand(e: Expr, x: Expr) {
    match e
    case Binary(_, l, r) => HasOperand(l, x) || HasOperand(r, x)
    case Not(y) => HasOperand(y, x)
    case _ => e == x
  }

  ghost predicate IsColumn(e: Expr, ty: RecordType) {
    exists position, names :: e == Chain(position, names) && Resolves(names, ty)
  }

  lemma {:induction false} JoinedIsChain(e: Expr, ty: RecordType) returns (position: nat, names: seq<string>)
    requires JoinedType(e, ty).Some?
    ensures e == Chain(position, names)
  {
    match e
    case Parameter(k) => position, names := k, [];
    case Property(o, name) =>
      var init;
      position, init := JoinedIsChain(o, ty);
      names := init + [name];
      assert names[..|names| - 1] == init;
  }

  /** A filter can be written as SQL exactly when each operand is a constant or a chain of
      properties that leads through the type's fields. */
  lemma {:induction false} ExprIsValidIff(e: Expr, ty: RecordType)
    ensures ExprIsValid(e, ty) <==> forall x | HasOperand(e, x) :: x.Const? || IsColumn(x, ty)
  {
    match e
    case Binary(_, l, r) =>
      ExprIsValidIff(l, ty);
      ExprIsValidIff(r, ty);
    case Not(y) => ExprIsValidIff(y, ty);
    case Const(_) =>
    case Parameter(_) => NoBareParameter(e, ty);
    case Property(o, name) => PropertyIsValidIff(o, name, ty);
  }

  lemma NoBareParameter(e: Expr, ty: RecordType)
    requires e.Parameter?
    ensures !IsColumn(e, ty) && HasOperand(e, e)
  {
    forall position, names | e == Chain(position, names) ensures !Resolves(names, ty) {}
  }

  lemma PropertyIsValidIff(o: Expr, name: string, ty: RecordType)
    ensures ExprIsValid(Property(o, name), ty) <==> IsColumn(Property(o, name), ty)
    ensures HasOperand(Property(o, name), Property(o, name))
  {
    var e := Property(o, name);
    if ExprIsValid(e, ty) {
      var position, init := JoinedIsChain(o, ty);
      var names := init + [name];
      assert names[..|names| - 1] == init;
      assert e == Chain(position, names);
      ChainIsValidIff(position, names, ty);
    } else if IsColumn(e, ty) {
      var position, names :| e == Chain(position, names) && Resolves(names, ty);
      ChainIsValidIff(position, names, ty);
    }
  }

  /** A query with a filter over a column that the type does not have is refused, wherever it
      stands. */
  lemma {:induction false} UnknownColumnIsRefused(ty: RecordType, ops: seq<QueryOp>, e: Expr, x: Expr)
    requires Where(e) in ops && HasOperand(e, x) && !x.Const? && !IsColumn(x, ty)
    ensures RawQuery(ty, ops).Err?
  {
    ExprIsValidIff(e, ty);
    BadFilterIsRefused(ty, ops, e);
    CompilesIff(ty, Core, ops);
  }

  lemma {:induction false} BadFilterIsRefused(ty: RecordType, ops: seq<QueryOp>, e: Expr)
    requires Where(e) in ops && !ExprIsValid(e, ty)
    ensures !Compilable(ty, ops)
    decreases |ops|
  {
    var n := StageLength(ops);
    assert ops == ops[..n] + ops[n..];
    if Where(e) in ops[n..] {
      BadFilterIsRefused(ty, ops[n..], e);
    } else {
      assert Where(e) in ops[..n] && Where(e).Where?;
    }
  }

  /** A query that sorts by a field that the type does not have is refused, unless a later sort of
      the same stage replaces that one. */
  lemma {:induction false} UnknownSortIsRefused(ty: RecordType, ops: seq<QueryOp>, i: nat, j: nat, k: SortKey)
    requires i < j <= |ops| && ops[i].OrderBy? && k in ops[i].keys && k.field !in ty
    requires forall m :: i < m < j ==> !ops[m].OrderBy? && !IsBreak(ops[m])
    requires j == |ops| || IsBreak(ops[j])
    ensures RawQuery(ty, ops).Err?
  {
    BadSortIsRefused(ty, ops, i, j, k);
    CompilesIff(ty, Core, ops);
  }

  lemma {:induction false} BadSortIsRefused(ty: RecordType, ops: seq<QueryOp>, i: nat, j: nat, k: SortKey)
    requires i < j <= |ops| && ops[i].OrderBy? && k in ops[i].keys && k.field !in ty
    requires forall m :: i < m < j ==> !ops[m].OrderBy? && !IsBreak(ops[m])
    requires j == |ops| || IsBreak(ops[j])
    ensures !Compilable(ty, ops)
    decreases |ops|
  {
    var n := StageLength(ops);
    StageShape(ops);
    if i < n {
      assert n == if j == |ops| then j else j + 1 by {
        assert n - 1 >= i && (n < |ops| ==> IsBreak(ops[n - 1]));
      }
      var stage := ops[..n];
      LastSortAt(stage, i);
      assert k in LastKeys(stage);
    } else {
      BadSortIsRefused(ty, ops[n..], i - n, j - n, k);
    }
  }

  lemma {:induction false} LastSortAt(ops: seq<QueryOp>, i: nat)
    requires i < |ops| && ops[i].OrderBy? && forall m :: i < m < |ops| ==> !ops[m].OrderBy?
    ensures LastOrderBy(ops) == Some(ops[i].keys)
    decreases |ops|
  {
    if i < |ops| - 1 {
      LastSortAt(ops[..|ops| - 1], i);
    }
  }
}
