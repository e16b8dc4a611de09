/** Following the links of the CRUD endpoint: what a walk over the pages visits, and how
    the links of neighbouring pages fit together. */
module PagingWalk {
  import opened Sequences
  import opened Values
  import opened JsonFilter
  import opened QueryPlan
  import opened Paging

  // ---------- strictly sorted sequences ----------

  ghost predicate NoDuplicates<T(!new)>(s: seq<T>) {
    forall i, j :: 0 <= i < j < |s| ==> s[i] != s[j]
  }

  ghost predicate Strict<T(!new)>(lt: (T, T) -> bool, s: seq<T>) {
    forall i, j :: 0 <= i < j < |s| ==> lt(s[i], s[j])
  }

  lemma {:induction false} FilterNoDuplicates<T(!new)>(p: T -> bool, s: seq<T>)
    requires NoDuplicates(s)
    ensures NoDuplicates(Filter(p, s))
  {
    if s != [] {
      FilterNoDuplicates(p, s[1..]);
    }
  }

  lemma {:induction false} InsertNoDuplicates<T(!new)>(lt: (T, T) -> bool, x: T, s: seq<T>)
    requires NoDuplicates(s) && x !in s
    ensures NoDuplicates(Insert(lt, x, s))
  {
    if s != [] && lt(s[0], x) {
      InsertNoDuplicates(lt, x, s[1..]);
      assert s[0] in s && s[0] !in s[1..];
    }
  }

  lemma {:induction false} SortNoDuplicates<T(!new)>(lt: (T, T) -> bool, s: seq<T>)
    requires NoDuplicates(s)
    ensures NoDuplicates(Sort(lt, s))
  {
    if s != [] {
      SortNoDuplicates(lt, s[1..]);
      InsertNoDuplicates(lt, s[0], Sort(lt, s[1..]));
    }
  }

  lemma HasItsHead<T(!new)>(s: seq<T>)
    ensures s != [] ==> exists x :: x in s
  {
    assert s != [] ==> s[0] in s;
  }

  /** A strictly sorted sequence is determined by its members. */
  lemma {:induction false} StrictIsUnique<T(!new)>(lt: (T, T) -> bool, s: seq<T>, t: seq<T>)
    requires forall a, b :: lt(a, b) ==> !lt(b, a)
    requires Strict(lt, s) && Strict(lt, t)
    requires forall x :: x in s <==> x in t
    ensures s == t
  {
    HasItsHead(s);
    HasItsHead(t);
    if s != [] && t != [] {
      assert s[0] in t && t[0] in s;
      var i :| 0 <= i < |t| && t[i] == s[0];
      var j :| 0 <= j < |s| && s[j] == t[0];
      assert s[0] == t[0];
      HeadIsNotInTail(lt, s);
      HeadIsNotInTail(lt, t);
      forall x ensures x in s[1..] <==> x in t[1..] {
        assert s == [s[0]] + s[1..] && t == [t[0]] + t[1..];
        assert x in s <==> x in t;
      }
      StrictIsUnique(lt, s[1..], t[1..]);
    }
  }

  lemma HeadIsNotInTail<T(!new)>(lt: (T, T) -> bool, s: seq<T>)
    requires forall a, b :: lt(a, b) ==> !lt(b, a)
    requires s != [] && Strict(lt, s)
    ensures s[0] !in s[1..]
  {
    assert forall k :: 0 < k < |s| ==> lt(s[0], s[k]);
  }

  // ---------- rows with unique ids ----------

  /** Rows that the sort can tell apart: no sort field is null, and ids are unique. */
  ghost predicate GoodRows(ty: RecordType, keys: seq<SortKey>, rows: seq<Record>) {
    UniqueIds(rows) && forall r | r in rows :: IsSortable(keys, ty, r)
  }

  ghost predicate GoodKeys(ty: RecordType, keys: seq<SortKey>) {
    && (forall k | k in keys :: k.field in ty && ty[k.field].Scalar?)
    && (exists k :: k in keys && k.field == ID)
  }

  lemma KeysTellApart(rows: seq<Record>, keys: seq<SortKey>, a: Record, b: Record)
    requires UniqueIds(rows) && a in rows && b in rows && exists k :: k in keys && k.field == ID
    requires Tied(Order(keys), a, b)
    ensures a == b
  {
    var k :| k in keys && k.field == ID;
    TiedOnEveryKey(keys, a, b);
    var i :| 0 <= i < |rows| && rows[i] == a;
    var j :| 0 <= j < |rows| && rows[j] == b;
    LessIsTotal(Lookup(a, ID), Lookup(b, ID));
    assert !HaveOtherIds(a, b) && !HaveOtherIds(b, a);
  }

  lemma SortIsStrict(ty: RecordType, rows: seq<Record>, keys: seq<SortKey>, s: seq<Record>)
    requires UniqueIds(rows) && GoodKeys(ty, keys) && NoDuplicates(s) && forall r :: r in s ==> r in rows
    ensures Strict(Order(keys), Sort(Order(keys), s)) && NoDuplicates(Sort(Order(keys), s))
  {
    var t := Sort(Order(keys), s);
    OrderIsWeakOrder(keys);
    SortSorted(Order(keys), s);
    SortNoDuplicates(Order(keys), s);
    forall i, j | 0 <= i < j < |t| ensures Order(keys)(t[i], t[j]) {
      assert t[i] in t && t[j] in t;
      if !Order(keys)(t[i], t[j]) {
        KeysTellApart(rows, keys, t[i], t[j]);
      }
    }
  }

  lemma UniqueHasNoDuplicates(rows: seq<Record>)
    requires UniqueIds(rows)
    ensures NoDuplicates(rows)
  {
    forall i, j | 0 <= i < j < |rows| ensures rows[i] != rows[j] {
      assert HaveOtherIds(rows[i], rows[j]);
    }
  }

  // ---------- one request ----------

  function AllHold(filters: seq<Expr>): Record -> bool {
    row => forall e | e in filters :: Holds(e, row)
  }

  function Matches(filters: seq<Expr>, base: seq<Record>): seq<Record> {
    Filter(AllHold(filters), base)
  }

  lemma {:induction false} RunWheres(filters: seq<Expr>, rows: seq<Record>)
    ensures RunOps(Wheres(filters), rows) == Matches(filters, rows)
  {
    if filters == [] {
      FilterAll(AllHold(filters), rows);
    } else {
      var e, rest := filters[0], filters[1..];
      assert Wheres(filters)[1..] == Wheres(rest);
      RunWheres(rest, Filter(Matching(e), rows));
      FilterTwice(Matching(e), AllHold(rest), rows);
      forall r | r in rows ensures Both(Matching(e), AllHold(rest))(r) == AllHold(filters)(r) {
        assert filters == [e] + rest;
      }
      FilterCongruent(Both(Matching(e), AllHold(rest)), AllHold(filters), rows);
    }
  }

  lemma {:induction false} WheresShape(filters: seq<Expr>)
    ensures |Wheres(filters)| == |filters|
    ensures forall i :: 0 <= i < |filters| ==> Wheres(filters)[i] == Where(filters[i])
    ensures AllKeys(Wheres(filters)) == []
  {
    if filters != [] {
      WheresShape(filters[1..]);
    }
  }

  ghost predicate QueryIsValid(ty: RecordType, q: Query) {
    KeysAreValid(q.sort, ty) && forall e | e in q.filters :: ExprIsValid(e, ty)
  }

  lemma {:induction false} StageLengthOf(ops: seq<QueryOp>)
    requires ops != [] && forall i :: 0 <= i < |ops| - 1 ==> !IsBreak(ops[i])
    ensures StageLength(ops) == |ops|
  {
    if |ops| > 1 {
      StageLengthOf(ops[1..]);
    }
  }

  lemma {:induction false} LastOrderByFirst(keys: seq<SortKey>, more: seq<QueryOp>)
    requires forall op | op in more :: !op.OrderBy?
    ensures LastOrderBy([OrderBy(keys)] + more) == Some(keys)
  {
    if more != [] {
      var ops, n := [OrderBy(keys)] + more, |more|;
      assert ops[n] == more[n - 1];
      assert ops[..n] == [OrderBy(keys)] + more[..n - 1];
      LastOrderByFirst(keys, more[..n - 1]);
    }
  }

  /** Without offset the query is one stage: filter, sort, take a page. */
  lemma OneStageQuery(ty: RecordType, base: seq<Record>, q: Query)
    requires q.offset.None?
    ensures RawQuery(ty, MakeQueryOps(q)).Ok? <==> QueryIsValid(ty, q)
    ensures QueryIsValid(ty, q) ==>
            RunSelect(RawQuery(ty, MakeQueryOps(q)).value, base) ==
            Take(Sort(Order(q.sort), Matches(q.filters, base)), q.pageSize)
  {
    var ops, ws := MakeQueryOps(q), Wheres(q.filters);
    WheresShape(q.filters);
    var body := [OrderBy(q.sort)] + ws;
    assert ops == body + [TakeOp(q.pageSize)];
    StageLengthOf(ops);
    assert ops[..|ops|] == ops && ops[|ops|..] == [];
    forall op | op in ws ensures op.Where? && op.expression in q.filters {}
    OneStageIsValid(ty, q, ws);
    CompilesIff(ty, Core, ops);
    if QueryIsValid(ty, q) {
      assert Body(ops) == body;
      LastOrderByFirst(q.sort, ws);
      AllKeysAppend([OrderBy(q.sort)], ws);
      assert AllKeys([OrderBy(q.sort)]) == AllKeys([]) + q.sort;
      assert AllKeys(body) == q.sort;
      assert EarlierKeys(body) == [];
      assert SortsCovered(ops, false) by {
        assert SortsCovered(ops[|ops|..], false);
      }
      CoveredSortsAgree(ops, false, base);
      RawQueryRefines(ty, ops, base);
      RunOneStage(q, base);
    }
  }

  lemma OneStageIsValid(ty: RecordType, q: Query, ws: seq<QueryOp>)
    requires q.offset.None? && ws == Wheres(q.filters)
    requires StageLength(MakeQueryOps(q)) == |MakeQueryOps(q)|
    ensures Compilable(ty, MakeQueryOps(q)) <==> QueryIsValid(ty, q)
  {
    var ops := MakeQueryOps(q);
    OneStageShape(q, ws);
    assert ops[..|ops|] == ops && ops[|ops|..] == [];
    assert Compilable(ty, ops[|ops|..]);
    assert (forall op | op in ops && op.Where? :: ExprIsValid(op.expression, ty)) <==>
           (forall e | e in q.filters :: ExprIsValid(e, ty)) by {
      assert forall e | e in q.filters :: Where(e) in ops && Where(e).Where?;
    }
  }

  lemma OneStageShape(q: Query, ws: seq<QueryOp>)
    requires q.offset.None? && ws == Wheres(q.filters)
    ensures var ops := MakeQueryOps(q);
            && LastKeys(ops) == q.sort && CountOp !in ops
            && (forall op | op in ops && op.Where? :: op.expression in q.filters)
            && forall e | e in q.filters :: Where(e) in ops
  {
    var ops, rest := MakeQueryOps(q), ws + [TakeOp(q.pageSize)];
    WheresShape(q.filters);
    assert ops == [OrderBy(q.sort)] + rest;
    assert LastKeys(ops) == q.sort by {
      LastOrderByFirst(q.sort, rest);
    }
    forall e | e in q.filters ensures Where(e) in ops {
      var i :| 0 <= i < |q.filters| && q.filters[i] == e;
      assert ops[i + 1] == Where(e);
    }
  }

  lemma RunOneStage(q: Query, base: seq<Record>)
    requires q.offset.None?
    ensures RunOps(MakeQueryOps(q), base) == Take(Sort(Order(q.sort), Matches(q.filters, base)), q.pageSize)
  {
    var ws, sorted := Wheres(q.filters), Sort(Order(q.sort), base);
    var end := [TakeOp(q.pageSize)];
    assert MakeQueryOps(q) == [OrderBy(q.sort)] + (ws + end);
    assert RunOps(MakeQueryOps(q), base) == RunOps(ws + end, sorted) by {
      assert MakeQueryOps(q)[1..] == ws + end;
    }
    RunOpsAppend(ws, end, sorted);
    var kept := RunOps(ws, sorted);
    assert RunOps(end, kept) == RunOps([], RunOp(end[0], kept));
    RunWheres(q.filters, sorted);
    OrderIsWeakOrder(q.sort);
    FilterSort(Order(q.sort), AllHold(q.filters), base);
  }

  // ---------- one request with an offset ----------

  /** The stage of a request that ends in `end`. */
  function SortAndFilter(q: Query, end: QueryOp): seq<QueryOp> {
    [OrderBy(q.sort)] + Wheres(q.filters) + [end]
  }

  lemma SortAndFilterShape(q: Query, end: QueryOp)
    requires IsBreak(end)
    ensures var ops := SortAndFilter(q, end);
            && (forall i :: 0 <= i < |ops| - 1 ==> !IsBreak(ops[i])) && CountOp !in ops
            && LastKeys(ops) == q.sort
            && (forall op | op in ops && op.Where? :: op.expression in q.filters)
            && forall e | e in q.filters :: Where(e) in ops
  {
    var ops, ws := SortAndFilter(q, end), Wheres(q.filters);
    WheresShape(q.filters);
    assert ops == [OrderBy(q.sort)] + (ws + [end]);
    LastOrderByFirst(q.sort, ws + [end]);
    forall i | 0 < i < |ops| - 1 ensures ops[i] == Where(q.filters[i - 1]) {
      assert ops[i] == ws[i - 1];
    }
    assert forall op | op in ops :: op == ops[0] || op == end || op.Where?;
    forall op | op in ops && op.Where? ensures op.expression in q.filters {
      var i :| 0 <= i < |ops| && ops[i] == op;
    }
    forall e | e in q.filters ensures Where(e) in ops {
      var i :| 0 <= i < |q.filters| && q.filters[i] == e;
      assert ops[i + 1] == Where(e);
    }
  }

  lemma NoEarlierSort(q: Query, end: QueryOp)
    requires IsBreak(end)
    ensures EarlierKeys(Body(SortAndFilter(q, end))) == []
  {
    var ws := Wheres(q.filters);
    WheresShape(q.filters);
    LastOrderByFirst(q.sort, ws);
    AllKeysAppend([OrderBy(q.sort)], ws);
    assert AllKeys([OrderBy(q.sort)]) == AllKeys([]) + q.sort;
    assert Body(SortAndFilter(q, end)) == [OrderBy(q.sort)] + ws;
  }

  lemma {:induction false} StageEndsAt(ops: seq<QueryOp>, n: nat)
    requires 0 < n <= |ops| && IsBreak(ops[n - 1]) && forall i :: 0 <= i < n - 1 ==> !IsBreak(ops[i])
    ensures StageLength(ops) == n
  {
    if n > 1 {
      StageEndsAt(ops[1..], n - 1);
    }
  }

  lemma RunSortAndFilter(q: Query, end: QueryOp, base: seq<Record>)
    ensures RunOps(SortAndFilter(q, end), base) == RunOp(end, Sort(Order(q.sort), Matches(q.filters, base)))
  {
    var ws, sorted := Wheres(q.filters), Sort(Order(q.sort), base);
    assert SortAndFilter(q, end) == [OrderBy(q.sort)] + (ws + [end]);
    assert RunOps(SortAndFilter(q, end), base) == RunOps(ws + [end], sorted) by {
      assert SortAndFilter(q, end)[1..] == ws + [end];
    }
    RunOpsAppend(ws, [end], sorted);
    var kept := RunOps(ws, sorted);
    assert RunOps([end], kept) == RunOps([], RunOp(end, kept));
    RunWheres(q.filters, sorted);
    OrderIsWeakOrder(q.sort);
    FilterSort(Order(q.sort), AllHold(q.filters), base);
  }

  /** With an offset the query is two stages: filter, sort, skip; then take a page of the rest. */
  lemma TwoStageQuery(ty: RecordType, base: seq<Record>, q: Query)
    requires q.offset.Some?
    ensures RawQuery(ty, MakeQueryOps(q)).Ok? <==> QueryIsValid(ty, q)
    ensures QueryIsValid(ty, q) ==>
            RunSelect(RawQuery(ty, MakeQueryOps(q)).value, base) ==
            Take(Drop(Sort(Order(q.sort), Matches(q.filters, base)), q.offset.value), q.pageSize)
  {
    var ops := MakeQueryOps(q);
    TwoStages(ty, q);
    CompilesIff(ty, Core, ops);
    if QueryIsValid(ty, q) {
      CoveredSortsAgree(ops, false, base);
      RawQueryRefines(ty, ops, base);
      RunTwoStages(q, base);
    }
  }

  lemma TwoStages(ty: RecordType, q: Query)
    requires q.offset.Some?
    ensures Compilable(ty, MakeQueryOps(q)) <==> QueryIsValid(ty, q)
    ensures SortsCovered(MakeQueryOps(q), false)
  {
    var skip, take := SkipOp(q.offset.value), [TakeOp(q.pageSize)];
    var first, ops := SortAndFilter(q, skip), MakeQueryOps(q);
    assert ops == first + take;
    SortAndFilterShape(q, skip);
    NoEarlierSort(q, skip);
    StageEndsAt(ops, |first|);
    assert ops[..|first|] == first && ops[|first|..] == take;
    TakeIsCovered(ty, q.pageSize);
    FirstStageIsValid(ty, q, skip);
  }

  lemma FirstStageIsValid(ty: RecordType, q: Query, end: QueryOp)
    requires IsBreak(end)
    ensures var first := SortAndFilter(q, end);
            QueryIsValid(ty, q) <==>
            KeysAreValid(LastKeys(first), ty) && forall op | op in first && op.Where? :: ExprIsValid(op.expression, ty)
  {
    SortAndFilterShape(q, end);
    assert forall e | e in q.filters :: Where(e).Where?;
  }

  lemma RunTwoStages(q: Query, base: seq<Record>)
    requires q.offset.Some?
    ensures RunOps(MakeQueryOps(q), base) ==
            Take(Drop(Sort(Order(q.sort), Matches(q.filters, base)), q.offset.value), q.pageSize)
  {
    var skip, take := SkipOp(q.offset.value), [TakeOp(q.pageSize)];
    var first := SortAndFilter(q, skip);
    assert MakeQueryOps(q) == first + take;
    RunOpsAppend(first, take, base);
    RunSortAndFilter(q, skip, base);
    var rest := RunOps(first, base);
    assert RunOps(take, rest) == RunOps([], RunOp(take[0], rest));
  }

  lemma TakeIsCovered(ty: RecordType, n: nat)
    ensures Compilable(ty, [TakeOp(n)]) && SortsCovered([TakeOp(n)], false)
  {
    var take := [TakeOp(n)];
    StageEndsAt(take, 1);
    assert take[..1] == take && take[1..] == [] && Body(take) == [] && LastKeys([]) == [] && EarlierKeys([]) == [];
    assert Fields([]) == {};
    assert LastOrderBy(take) == LastOrderBy(take[..0]) == None;
  }

  /** What a request returns: of the rows that pass all filters, in sort order, the page behind the
      offset, in reverse for a backward cursor. */
  lemma RequestReturns(ty: RecordType, base: seq<Record>, params: seq<Param>)
    ensures RunQuery(ty, base, params).Ok? <==>
            FromUrlQuery(ty, params).Ok? && QueryIsValid(ty, FromUrlQuery(ty, params).value)
    ensures RunQuery(ty, base, params).Ok? ==>
            var q := FromUrlQuery(ty, params).value;
            var sorted := Sort(Order(q.sort), Matches(q.filters, base));
            var page := Take(Drop(sorted, OrElse(q.offset, 0)), q.pageSize);
            RunQuery(ty, base, params).value.results ==
            if q.cursor.Some? && !q.cursor.value.forward then Reverse(page) else page
  {
    if FromUrlQuery(ty, params).Ok? {
      var q := FromUrlQuery(ty, params).value;
      if q.offset.Some? {
        TwoStageQuery(ty, base, q);
      } else {
        OneStageQuery(ty, base, q);
        assert Drop(Sort(Order(q.sort), Matches(q.filters, base)), 0) == Sort(Order(q.sort), Matches(q.filters, base));
      }
    }
  }

  // ---------- links ----------

  ghost predicate SameBut(a: Query, b: Query) {
    a.pageSize == b.pageSize && a.offset == b.offset && a.filters == b.filters
  }

  lemma ReadKeptParam(ty: RecordType, p: Param, q: Query, q': Query)
    requires ReadParam(ty, p, q).Ok? && SameBut(q, q')
    ensures StaysInLink(p) ==>
            var r := ReadParam(ty, p, q');
            && r.Ok? && SameBut(r.value, ReadParam(ty, p, q).value)
            && r.value.cursor == q'.cursor && r.value.sort == q'.sort
    ensures !StaysInLink(p) ==> SameBut(ReadParam(ty, p, q).value, q')
  {}

  /** Dropping sort and cursor from the parameters leaves the rest of the query alone. */
  lemma {:induction false} ReadLinkParams(ty: RecordType, params: seq<Param>, q: Query, q': Query)
    requires ReadParams(ty, params, q).Ok? && SameBut(q, q')
    ensures var r := ReadParams(ty, Filter(StaysInLink, params), q');
            && r.Ok? && SameBut(r.value, ReadParams(ty, params, q).value)
            && r.value.cursor == q'.cursor && r.value.sort == q'.sort
    decreases |params|
  {
    if params != [] {
      var next := ReadParam(ty, params[0], q).value;
      ReadKeptParam(ty, params[0], q, q');
      if StaysInLink(params[0]) {
        var rest := Filter(StaysInLink, params[1..]);
        assert ([params[0]] + rest)[1..] == rest;
        ReadLinkParams(ty, params[1..], next, ReadParam(ty, params[0], q').value);
      } else {
        ReadLinkParams(ty, params[1..], next, q');
      }
    }
  }

  lemma {:induction false} ReadParamsAppend(ty: RecordType, params: seq<Param>, more: seq<Param>, q: Query)
    requires ReadParams(ty, params, q).Ok?
    ensures ReadParams(ty, params + more, q) == ReadParams(ty, more, ReadParams(ty, params, q).value)
    decreases |params|
  {
    if params == [] {
      assert params + more == more;
    } else {
      assert (params + more)[1..] == params[1..] + more;
      ReadParamsAppend(ty, params[1..], more, ReadParam(ty, params[0], q).value);
    }
  }

  /** A link reads as the query it was made from, with the cursor's sort and filter. */
  lemma LinkQuery(ty: RecordType, params: seq<Param>, c: Cursor)
    requires ReadParams(ty, params, DEFAULT_QUERY).Ok? && c.axes != [] && GetFilter(c, ty).Ok?
    ensures var q := ReadParams(ty, params, DEFAULT_QUERY).value;
            FromUrlQuery(ty, PageUrl(params, c)) ==
            Ok(Query(q.pageSize, q.offset, Some(c), GetSort(c.axes, c.forward), q.filters + [GetFilter(c, ty).value]))
  {
    ReadLinkParams(ty, params, DEFAULT_QUERY, DEFAULT_QUERY);
    var kept := Filter(StaysInLink, params);
    ReadParamsAppend(ty, kept, [CursorParam(Some(c))], DEFAULT_QUERY);
    var r := ReadParams(ty, kept, DEFAULT_QUERY).value;
    assert ReadParams(ty, [CursorParam(Some(c))], r) == ReadParams(ty, [], r.(cursor := Some(c)));
  }

  /** A link made on a linked page is the link made from the first parameters. */
  lemma LinkOfLink(params: seq<Param>, c: Cursor, c': Cursor)
    ensures PageUrl(PageUrl(params, c), c') == PageUrl(params, c')
  {
    var kept := Filter(StaysInLink, params);
    FilterAppend(StaysInLink, kept, [CursorParam(Some(c))]);
    FilterAll(StaysInLink, kept);
    FilterNone(StaysInLink, [CursorParam(Some(c))]);
  }

  // ---------- cursors at a row ----------

  function CursorAt(keys: seq<SortKey>, row: Record, forward: bool): Cursor {
    Cursor(PivotAxes(keys, row), forward, false)
  }

  function Flip(keys: seq<SortKey>): seq<SortKey> {
    if keys == [] then [] else [Directed(keys[0], false)] + Flip(keys[1..])
  }

  lemma {:induction false} FlipReverses(keys: seq<SortKey>, a: Record, b: Record)
    ensures Order(Flip(keys))(a, b) == Order(keys)(b, a)
  {
    if keys != [] {
      FlipReverses(keys[1..], a, b);
      LessIsWeakOrder();
      assert Flip(keys)[1..] == Flip(keys[1..]);
    }
  }

  lemma {:induction false} FlipFields(keys: seq<SortKey>)
    ensures |Flip(keys)| == |keys| && forall i :: 0 <= i < |keys| ==> Flip(keys)[i].field == keys[i].field
  {
    if keys != [] {
      FlipFields(keys[1..]);
    }
  }

  lemma {:induction false} PivotKeys(keys: seq<SortKey>, row: Record)
    ensures AxisKeys(PivotAxes(keys, row)) == keys
    ensures GetSort(PivotAxes(keys, row), true) == keys
    ensures GetSort(PivotAxes(keys, row), false) == Flip(keys)
    ensures |PivotAxes(keys, row)| == |keys|
    ensures forall i :: 0 <= i < |keys| ==> PivotAxes(keys, row)[i].key == keys[i]
    ensures forall i :: 0 <= i < |keys| && !Lookup(row, keys[i].field).Undefined? ==>
                        PivotAxes(keys, row)[i].value == Lookup(row, keys[i].field)
  {
    if keys != [] {
      PivotKeys(keys[1..], row);
    }
  }

  /** Beyond the cursor at a row are the rows that come after it in the cursor's sort. */
  lemma {:induction false} BeyondPivot(ty: RecordType, keys: seq<SortKey>, pivot: Record, forward: bool, row: Record)
    requires IsSortable(keys, ty, pivot) && IsSortable(keys, ty, row)
    ensures Beyond(PivotAxes(keys, pivot), forward, row) ==
            RowLess(GetSort(PivotAxes(keys, pivot), forward), pivot, row)
  {
    if keys != [] {
      BeyondPivot(ty, keys[1..], pivot, forward, row);
      var f := keys[0].field;
      assert keys[0] in keys;
      LessIsTotal(Lookup(pivot, f), Lookup(row, f));
      LessIsWeakOrder();
      var axes := PivotAxes(keys, pivot);
      assert axes[1..] == PivotAxes(keys[1..], pivot);
      assert GetSort(axes, forward)[1..] == GetSort(axes[1..], forward);
    }
  }

  predicate AxesAreValid(axes: seq<CursorAxis>, ty: RecordType) {
    forall a | a in axes :: AxisIsValid(a, ty)
  }

  /** The axes of the cursor at a row are valid exactly when no sort field of the row is null. */
  lemma {:induction false} PivotAxesAreValidIff(ty: RecordType, keys: seq<SortKey>, row: Record)
    requires forall k | k in keys :: k.field in ty && ty[k.field].Scalar?
    ensures AxesAreValid(PivotAxes(keys, row), ty) <==> IsSortable(keys, ty, row)
  {
    if keys != [] {
      var k, axes := keys[0], PivotAxes(keys, row);
      PivotAxesAreValidIff(ty, keys[1..], row);
      assert axes == [axes[0]] + PivotAxes(keys[1..], row);
      assert keys == [k] + keys[1..];
      assert AxisIsValid(axes[0], ty) <==> KindOf(Lookup(row, k.field), ty[k.field].kind);
      assert IsSortable(keys, ty, row) <==>
             KindOf(Lookup(row, k.field), ty[k.field].kind) && IsSortable(keys[1..], ty, row);
    }
  }

  lemma PivotIsValid(ty: RecordType, rows: seq<Record>, keys: seq<SortKey>, pivot: Record, forward: bool)
    requires GoodRows(ty, keys, rows) && GoodKeys(ty, keys) && pivot in rows
    ensures var c := CursorAt(keys, pivot, forward);
            && c.axes != []
            && GetFilter(c, ty) == Ok(Disjuncts(c, |c.axes|))
            && forall row | row in rows :: Comparable(c, row)
  {
    var c := CursorAt(keys, pivot, forward);
    PivotKeys(keys, pivot);
    PivotAxesAreValidIff(ty, keys, pivot);
    assert AxesAreValid(c.axes, ty);
    forall row | row in rows ensures Comparable(c, row) {
      ValidIsComparable(ty, c, row);
    }
  }

  lemma ValidIsComparable(ty: RecordType, c: Cursor, row: Record)
    requires IsSortable(AxisKeys(c.axes), ty, row) && AxesAreValid(c.axes, ty)
    ensures Comparable(c, row)
  {
    forall a | a in c.axes ensures exists k :: KindOf(a.value, k) && KindOf(Lookup(row, a.key.field), k) {
      AxisKeysOf(c.axes, a);
      assert KindOf(a.value, ty[a.key.field].kind);
    }
  }

  lemma {:induction false} AxisKeysOf(axes: seq<CursorAxis>, a: CursorAxis)
    requires a in axes
    ensures a.key in AxisKeys(axes)
  {
    if a != axes[0] {
      AxisKeysOf(axes[1..], a);
    }
  }

  lemma {:induction false} DisjunctsAreValid(ty: RecordType, c: Cursor, n: nat)
    requires 0 < n <= |c.axes| && forall a | a in c.axes :: AxisIsValid(a, ty)
    ensures ExprIsValid(Disjuncts(c, n), ty)
  {
    assert c.axes[n - 1] in c.axes;
    GuardedIsValid(ty, c.axes[..n - 1], CompareAxis(c.axes[n - 1], c));
    if n > 1 {
      DisjunctsAreValid(ty, c, n - 1);
    }
  }

  lemma {:induction false} GuardedIsValid(ty: RecordType, axes: seq<CursorAxis>, e: Expr)
    requires (forall a | a in axes :: AxisIsValid(a, ty)) && ExprIsValid(e, ty)
    ensures ExprIsValid(Guarded(axes, e), ty)
    decreases |axes|
  {
    if axes != [] {
      assert axes[0] in axes;
      GuardedIsValid(ty, axes[1..], And(EqualAxis(axes[0]), e));
    }
  }

  // ---------- pages ----------

  /** A first request that succeeds: no cursor, pages of at least one row, a sort by scalar
      fields, and of the rows that match unique ids and no null in a sort field. */
  ghost predicate FirstRequest(ty: RecordType, base: seq<Record>, params: seq<Param>) {
    && RunQuery(ty, base, params).Ok?
    && var q := FromUrlQuery(ty, params).value;
       && q.cursor.None? && q.pageSize > 0
       && GoodKeys(ty, q.sort) && GoodRows(ty, q.sort, Matches(q.filters, base))
  }

  /** The start of a walk has no offset. */
  ghost predicate Start(ty: RecordType, base: seq<Record>, params: seq<Param>) {
    FirstRequest(ty, base, params) && FromUrlQuery(ty, params).value.offset.None?
  }

  function StartQuery(ty: RecordType, params: seq<Param>): Query
    requires FromUrlQuery(ty, params).Ok?
  {
    FromUrlQuery(ty, params).value
  }

  /** All matching rows in the order of the sort. */
  function AllRows(ty: RecordType, base: seq<Record>, params: seq<Param>): seq<Record>
    requires FromUrlQuery(ty, params).Ok?
  {
    Sort(Order(StartQuery(ty, params).sort), Matches(StartQuery(ty, params).filters, base))
  }

  lemma AllRowsAreStrict(ty: RecordType, base: seq<Record>, params: seq<Param>)
    requires FirstRequest(ty, base, params)
    ensures var rows := AllRows(ty, base, params);
            && Strict(Order(StartQuery(ty, params).sort), rows) && NoDuplicates(rows)
            && forall r :: r in rows <==> r in base && AllHold(StartQuery(ty, params).filters)(r)
  {
    var q := StartQuery(ty, params);
    UniqueHasNoDuplicates(Matches(q.filters, base));
    SortIsStrict(ty, Matches(q.filters, base), q.sort, Matches(q.filters, base));
  }

  lemma StartReads(ty: RecordType, base: seq<Record>, params: seq<Param>)
    requires FirstRequest(ty, base, params)
    ensures ReadParams(ty, params, DEFAULT_QUERY).Ok?
    ensures var r, q := ReadParams(ty, params, DEFAULT_QUERY).value, StartQuery(ty, params);
            SameBut(r, q) && r.cursor.None? && QueryIsValid(ty, q)
  {
    RequestReturns(ty, base, params);
  }

  /** The link with the cursor at the i-th row. */
  function LinkAt(ty: RecordType, base: seq<Record>, params: seq<Param>, i: nat, forward: bool): seq<Param>
    requires FromUrlQuery(ty, params).Ok? && i < |AllRows(ty, base, params)|
  {
    PageUrl(params, CursorAt(StartQuery(ty, params).sort, AllRows(ty, base, params)[i], forward))
  }

  /** The rows of the page that starts at index `from`. */
  function PageFrom(rows: seq<Record>, from: nat, size: nat): seq<Record>
    requires from <= |rows|
  {
    Take(rows[from..], size)
  }

  lemma FirstPage(ty: RecordType, base: seq<Record>, params: seq<Param>)
    requires Start(ty, base, params)
    ensures var rows, q := AllRows(ty, base, params), StartQuery(ty, params);
            var page := RunQuery(ty, base, params).value;
            && page.results == PageFrom(rows, 0, q.pageSize)
            && (rows == [] ==> page.next.None? && page.prev.None?)
            && (rows != [] ==> page.next == Some(LinkAt(ty, base, params, |page.results| - 1, true)))
            && (rows != [] ==> page.prev == Some(LinkAt(ty, base, params, 0, false)))
  {
    var q := StartQuery(ty, params);
    OneStageQuery(ty, base, q);
    var rows := AllRows(ty, base, params);
    assert rows[0..] == rows;
    var page := RunQuery(ty, base, params).value;
    assert page.results == Take(rows, q.pageSize);
  }

  /** The rows that the cursor at the i-th row selects, in the cursor's sort. */
  function Selected(rows: seq<Record>, i: nat, forward: bool): seq<Record>
    requires i < |rows|
  {
    if forward then rows[i + 1..] else Reverse(rows[..i])
  }

  lemma CursorSelects(ty: RecordType, base: seq<Record>, params: seq<Param>, i: nat, forward: bool)
    requires FirstRequest(ty, base, params) && i < |AllRows(ty, base, params)|
    ensures var q, rows := StartQuery(ty, params), AllRows(ty, base, params);
            var c := CursorAt(q.sort, rows[i], forward);
            && c.axes != [] && GetFilter(c, ty).Ok?
            && Sort(Order(GetSort(c.axes, forward)), Matches(q.filters + [GetFilter(c, ty).value], base))
               == Selected(rows, i, forward)
  {
    var q, rows := StartQuery(ty, params), AllRows(ty, base, params);
    var keys, pivot, matching := q.sort, rows[i], Matches(q.filters, base);
    var c := CursorAt(keys, pivot, forward);
    AllRowsAreStrict(ty, base, params);
    assert pivot in rows;
    PivotIsValid(ty, matching, keys, pivot, forward);
    PivotKeys(keys, pivot);
    var e := GetFilter(c, ty).value;
    MatchesOneMore(q.filters, e, base);
    var found := Filter(Matching(e), matching);
    UniqueHasNoDuplicates(matching);
    FilterNoDuplicates(Matching(e), matching);
    FlippedKeysAreGood(ty, keys);
    var dir := GetSort(c.axes, forward);
    SortIsStrict(ty, matching, dir, found);
    SelectedIsStrict(keys, rows, i, forward);
    forall r ensures r in Sort(Order(dir), found) <==> r in Selected(rows, i, forward) {
      if r in matching {
        ExclusiveFilterMeans(c, r);
        BeyondPivot(ty, keys, pivot, forward, r);
        FlipReverses(keys, pivot, r);
      }
      SelectedMembers(keys, rows, i, forward, r);
    }
    OrderIsWeakOrder(dir);
    StrictIsUnique(Order(dir), Sort(Order(dir), found), Selected(rows, i, forward));
  }

  lemma MatchesOneMore(filters: seq<Expr>, e: Expr, base: seq<Record>)
    ensures Matches(filters + [e], base) == Filter(Matching(e), Matches(filters, base))
  {
    FilterTwice(AllHold(filters), Matching(e), base);
    assert forall r: Record :: Both(AllHold(filters), Matching(e))(r) == AllHold(filters + [e])(r);
    FilterCongruent(Both(AllHold(filters), Matching(e)), AllHold(filters + [e]), base);
  }

  lemma FlippedKeysAreGood(ty: RecordType, keys: seq<SortKey>)
    requires GoodKeys(ty, keys)
    ensures GoodKeys(ty, Flip(keys))
  {
    FlipFields(keys);
    var k :| k in keys && k.field == ID;
    var i :| 0 <= i < |keys| && keys[i] == k;
    assert Flip(keys)[i] in Flip(keys);
    forall k' | k' in Flip(keys) ensures k'.field in ty && ty[k'.field].Scalar? {
      var j :| 0 <= j < |keys| && Flip(keys)[j] == k';
      assert keys[j] in keys;
    }
  }

  lemma SelectedIsStrict(keys: seq<SortKey>, rows: seq<Record>, i: nat, forward: bool)
    requires i < |rows| && Strict(Order(keys), rows)
    ensures Strict(Order(if forward then keys else Flip(keys)), Selected(rows, i, forward))
  {
    if !forward {
      var s := Selected(rows, i, forward);
      forall a, b | 0 <= a < b < |s| ensures Order(Flip(keys))(s[a], s[b]) {
        FlipReverses(keys, s[a], s[b]);
      }
    }
  }

  lemma SelectedMembers(keys: seq<SortKey>, rows: seq<Record>, i: nat, forward: bool, r: Record)
    requires i < |rows| && Strict(Order(keys), rows)
    ensures r in Selected(rows, i, forward) <==>
            r in rows && if forward then RowLess(keys, rows[i], r) else RowLess(keys, r, rows[i])
  {
    OrderIsWeakOrder(keys);
    var s, lt := Selected(rows, i, forward), Order(keys);
    if r in s {
      var k :| 0 <= k < |s| && s[k] == r;
      assert r == if forward then rows[i + 1 + k] else rows[i - 1 - k];
    }
    if r in rows && (if forward then lt(rows[i], r) else lt(r, rows[i])) {
      var k :| 0 <= k < |rows| && rows[k] == r;
      assert !lt(rows[i], rows[i]);
      assert k < i ==> lt(rows[k], rows[i]);
      assert i < k ==> lt(rows[i], rows[k]);
      if forward {
        assert s[k - i - 1] == r;
      } else {
        assert s[i - 1 - k] == r;
      }
    }
  }

  /** The query that the link at the i-th row stands for. */
  function LinkedQuery(ty: RecordType, base: seq<Record>, params: seq<Param>, i: nat, forward: bool): Query
    requires FromUrlQuery(ty, params).Ok? && i < |AllRows(ty, base, params)|
  {
    var q := StartQuery(ty, params);
    var c := CursorAt(q.sort, AllRows(ty, base, params)[i], forward);
    Query(q.pageSize, q.offset, Some(c), GetSort(c.axes, forward),
          q.filters + (if c.axes != [] && GetFilter(c, ty).Ok? then [GetFilter(c, ty).value] else []))
  }

  lemma LinkReadsAsQuery(ty: RecordType, base: seq<Record>, params: seq<Param>, i: nat, forward: bool)
    requires FirstRequest(ty, base, params) && i < |AllRows(ty, base, params)|
    ensures FromUrlQuery(ty, LinkAt(ty, base, params, i, forward)) == Ok(LinkedQuery(ty, base, params, i, forward))
    ensures QueryIsValid(ty, LinkedQuery(ty, base, params, i, forward))
  {
    StartReads(ty, base, params);
    CursorSelects(ty, base, params, i, forward);
    LinkQuery(ty, params, CursorAt(StartQuery(ty, params).sort, AllRows(ty, base, params)[i], forward));
    AllRowsAreStrict(ty, base, params);
    assert AllRows(ty, base, params)[i] in AllRows(ty, base, params);
    PivotIsValid(ty, Matches(StartQuery(ty, params).filters, base), StartQuery(ty, params).sort,
      AllRows(ty, base, params)[i], forward);
    LinkFilterIsValid(ty, Matches(StartQuery(ty, params).filters, base), StartQuery(ty, params).sort,
      AllRows(ty, base, params)[i], forward);
  }

  /** The rows behind the link at the i-th row: the page after it or, going backward, the
      page that ends before it. */
  function LinkedRows(rows: seq<Record>, i: nat, forward: bool, size: nat): seq<Record>
    requires i < |rows|
  {
    if forward then PageFrom(rows, i + 1, size) else rows[i - Min(i, size)..i]
  }

  lemma LinkedRowsAreSelected(rows: seq<Record>, i: nat, forward: bool, size: nat)
    requires i < |rows|
    ensures var taken := Take(Selected(rows, i, forward), size);
            LinkedRows(rows, i, forward, size) == if forward then taken else Reverse(taken)
  {
    if !forward {
      var taken := Take(Reverse(rows[..i]), size);
      assert |taken| == Min(i, size);
      forall k | 0 <= k < |taken| ensures Reverse(taken)[k] == rows[i - Min(i, size)..i][k] {}
    }
  }

  lemma LinkedResults(ty: RecordType, base: seq<Record>, params: seq<Param>, i: nat, forward: bool)
    requires Start(ty, base, params) && i < |AllRows(ty, base, params)|
    ensures var url, q := LinkAt(ty, base, params, i, forward), LinkedQuery(ty, base, params, i, forward);
            var results := LinkedRows(AllRows(ty, base, params), i, forward, q.pageSize);
            RunQuery(ty, base, url) ==
              Ok(Page(results, GetPage(url, q, results, true), GetPage(url, q, results, false)))
  {
    var q := LinkedQuery(ty, base, params, i, forward);
    CursorSelects(ty, base, params, i, forward);
    LinkReadsAsQuery(ty, base, params, i, forward);
    OneStageQuery(ty, base, q);
    LinkedRowsAreSelected(AllRows(ty, base, params), i, forward, q.pageSize);
  }

  lemma LinkFilterIsValid(ty: RecordType, rows: seq<Record>, keys: seq<SortKey>, pivot: Record, forward: bool)
    requires GoodRows(ty, keys, rows) && GoodKeys(ty, keys) && pivot in rows
    ensures var c := CursorAt(keys, pivot, forward);
            && c.axes != [] && KeysAreValid(GetSort(c.axes, forward), ty) && ExprIsValid(Disjuncts(c, |c.axes|), ty)
  {
    var c := CursorAt(keys, pivot, forward);
    PivotIsValid(ty, rows, keys, pivot, forward);
    PivotKeys(keys, pivot);
    FlippedKeysAreGood(ty, keys);
    DisjunctsAreValid(ty, c, |c.axes|);
  }

  /** The links on a page behind a link: they lead on from the page's own first and last
      row, and from an empty page back. */
  lemma LinksOnward(params: seq<Param>, keys: seq<SortKey>, pivot: Record, forward: bool, q: Query,
                    results: seq<Record>, onward: bool)
    requires q.cursor == Some(CursorAt(keys, pivot, forward))
    ensures var link := GetPage(PageUrl(params, CursorAt(keys, pivot, forward)), q, results, onward);
            link == if results != [] then
                      Some(PageUrl(params,
                        CursorAt(keys, if onward then results[|results| - 1] else results[0], onward)))
                    else if forward == onward then None
                    else Some(PageUrl(params, Reversed(CursorAt(keys, pivot, forward))))
  {
    PivotKeys(keys, pivot);
    if results != [] {
      LinkOfLink(params, CursorAt(keys, pivot, forward),
                 CursorAt(keys, if onward then results[|results| - 1] else results[0], onward));
    } else {
      LinkOfLink(params, CursorAt(keys, pivot, forward), Reversed(CursorAt(keys, pivot, forward)));
    }
  }

  // ---------- the walk, over any server that pages like this ----------

  type Url = seq<Param>
  type Server = Url -> Result<Page>

  /** Behind the forward link at the i-th row: the rows after it, a link on from the last of
      them and a link back from the first. */
  ghost predicate PagesForward(run: Server, rows: seq<Record>, size: nat, link: (nat, bool) -> Url, i: nat)
    requires i < |rows|
  {
    && run(link(i, true)).Ok?
    && var page := run(link(i, true)).value;
       && page.results == PageFrom(rows, i + 1, size)
       && (page.results == [] ==> page.next.None?)
       && (page.results != [] ==>
         page.next == Some(link(i + |page.results|, true)) && page.prev == Some(link(i + 1, false)))
  }

  /** Behind the backward link at the i-th row: the page that ends before it. */
  ghost predicate PagesBackward(run: Server, rows: seq<Record>, size: nat, link: (nat, bool) -> Url, i: nat)
    requires i < |rows|
  {
    && run(link(i, false)).Ok?
    && var page := run(link(i, false)).value;
       && page.results == rows[i - Min(i, size)..i]
       && (page.results != [] ==> page.next == Some(link(i - 1, true)))
  }

  /** The first page. */
  ghost predicate PagesFirst(run: Server, rows: seq<Record>, size: nat, link: (nat, bool) -> Url, start: Url) {
    && run(start).Ok?
    && var page := run(start).value;
       && page.results == PageFrom(rows, 0, size)
       && (rows == [] ==> page.next.None?)
       && (page.results != [] ==> page.next == Some(link(|page.results| - 1, true)))
  }

  ghost predicate PagesThrough(run: Server, rows: seq<Record>, size: nat, link: (nat, bool) -> Url, start: Url) {
    && size > 0
    && PagesFirst(run, rows, size, link, start)
    && (forall i: nat | i < |rows| :: PagesForward(run, rows, size, link, i))
    && (forall i: nat | i < |rows| :: PagesBackward(run, rows, size, link, i))
  }

  /** Follow `next` links until there is none, in at most `fuel` requests. */
  function Walk(run: Server, url: Url, fuel: nat): Option<seq<Page>>
    decreases fuel
  {
    if fuel == 0 then None else
      match run(url)
      case Err(_) => None
      case Ok(page) =>
        if page.next.None? then Some([page]) else
          match Walk(run, page.next.value, fuel - 1)
          case None => None
          case Some(rest) => Some([page] + rest)
  }

  function Results(pages: seq<Page>): seq<Record> {
    if pages == [] then [] else pages[0].results + Results(pages[1..])
  }

  /** n rows in pages of p, rounded up. */
  function Pages(n: nat, p: nat): nat
    requires p > 0
  {
    (n + p - 1) / p
  }

  lemma QuotientIs(a: nat, p: nat, q: nat)
    requires 0 < p && q * p <= a < q * p + p
    ensures a / p == q
  {
    var d := a / p;
    assert d * p <= a < d * p + p;
    assert d < q ==> (d + 1) * p <= q * p;
    assert q < d ==> (q + 1) * p <= d * p;
  }

  lemma OnePageLess(n: nat, p: nat)
    requires 0 < p && 0 < n
    ensures Pages(n, p) == 1 + Pages(n - Min(n, p), p)
  {
    if n <= p {
      QuotientIs(n + p - 1, p, 1);
      QuotientIs(p - 1, p, 0);
    } else {
      var q := Pages(n - p, p);
      assert q * p <= (n - p) + p - 1 < q * p + p;
      assert (q + 1) * p == q * p + p;
      QuotientIs(n + p - 1, p, q + 1);
    }
  }

  lemma NoPages(p: nat)
    requires 0 < p
    ensures Pages(0, p) == 0
  {
    QuotientIs(p - 1, p, 0);
  }

  lemma WalkEnds(run: Server, url: Url)
    requires run(url).Ok? && run(url).value.next.None?
    ensures var page := run(url).value;
            Walk(run, url, 1) == Some([page]) && Results([page]) == page.results
  {
    var page := run(url).value;
    assert Results([page]) == page.results + Results([]);
  }

  lemma WalkGoesOn(run: Server, url: Url, fuel: nat)
    requires run(url).Ok? && run(url).value.next.Some?
    requires Walk(run, run(url).value.next.value, fuel).Some?
    ensures var page := run(url).value;
            var rest := Walk(run, page.next.value, fuel).value;
            Walk(run, url, fuel + 1) == Some([page] + rest) && Results([page] + rest) == page.results + Results(rest)
  {
    var page := run(url).value;
    var rest := Walk(run, page.next.value, fuel).value;
    assert ([page] + rest)[1..] == rest;
  }

  /** A walk from `url` takes one request more than there are pages, and visits `rows`. */
  ghost predicate WalksOver(run: Server, url: Url, rows: seq<Record>, size: nat)
    requires size > 0
  {
    var pages := Walk(run, url, Pages(|rows|, size) + 1);
    pages.Some? && |pages.value| == Pages(|rows|, size) + 1 && Results(pages.value) == rows
  }

  lemma WalksOverNothing(run: Server, url: Url, size: nat)
    requires size > 0 && run(url).Ok? && run(url).value.next.None? && run(url).value.results == []
    ensures WalksOver(run, url, [], size)
  {
    NoPages(size);
    WalkEnds(run, url);
  }

  lemma WalksOverOneMore(run: Server, url: Url, rows: seq<Record>, size: nat)
    requires size > 0 && rows != [] && run(url).Ok? && run(url).value.next.Some?
    requires run(url).value.results == Take(rows, size)
    requires WalksOver(run, run(url).value.next.value, Drop(rows, size), size)
    ensures WalksOver(run, url, rows, size)
  {
    OnePageLess(|rows|, size);
    WalkGoesOn(run, url, Pages(|Drop(rows, size)|, size) + 1);
    assert rows == Take(rows, size) + Drop(rows, size);
  }

  lemma {:induction false} WalkFromLink(run: Server, rows: seq<Record>, size: nat, link: (nat, bool) -> Url, i: nat)
    requires size > 0 && forall k: nat | k < |rows| :: PagesForward(run, rows, size, link, k)
    requires i < |rows|
    ensures WalksOver(run, link(i, true), rows[i + 1..], size)
    decreases |rows| - i
  {
    assert PagesForward(run, rows, size, link, i);
    var rest := rows[i + 1..];
    if rest == [] {
      WalksOverNothing(run, link(i, true), size);
    } else {
      var j := i + Min(size, |rest|);
      WalkFromLink(run, rows, size, link, j);
      assert Drop(rest, size) == rows[j + 1..];
      WalksOverOneMore(run, link(i, true), rest, size);
    }
  }

  lemma WalkFromStart(run: Server, rows: seq<Record>, size: nat, link: (nat, bool) -> Url, start: Url)
    requires PagesThrough(run, rows, size, link, start)
    ensures WalksOver(run, start, rows, size)
  {
    assert rows[0..] == rows;
    if rows == [] {
      WalksOverNothing(run, start, size);
    } else {
      var j := Min(size, |rows|) - 1;
      WalkFromLink(run, rows, size, link, j);
      assert Drop(rows, size) == rows[j + 1..];
      WalksOverOneMore(run, start, rows, size);
    }
  }

  /** The page of the walk that starts at index `first`. */
  ghost predicate WalkPage(rows: seq<Record>, link: (nat, bool) -> Url, start: Url, url: Url, first: nat) {
    (url == start && first == 0) || (0 < first <= |rows| && url == link(first - 1, true))
  }

  lemma BackAndForth(run: Server, rows: seq<Record>, size: nat, link: (nat, bool) -> Url, start: Url, url: Url,
                     first: nat)
    requires PagesThrough(run, rows, size, link, start) && WalkPage(rows, link, start, url, first)
    requires run(url).Ok? && |run(url).value.results| == size
    ensures BackAgain(run, url)
  {
    assert first > 0 ==> PagesForward(run, rows, size, link, first - 1);
    var page := run(url).value;
    assert page.results == PageFrom(rows, first, size);
    assert page.next == Some(link(first + size - 1, true));
    assert PagesForward(run, rows, size, link, first + size - 1);
    if first + size < |rows| {
      assert PagesBackward(run, rows, size, link, first + size);
      assert rows[first..][..size] == rows[first..first + size];
    }
  }

  /** `next` and then `prev` leads to the same rows, and `next` from there is the very link
      that was followed. */
  ghost predicate BackAgain(run: Server, url: Url)
    requires run(url).Ok?
  {
    var page := run(url).value;
    && page.next.Some? && run(page.next.value).Ok?
    && var following := run(page.next.value).value;
       following.results != [] ==>
         && following.prev.Some? && run(following.prev.value).Ok?
         && var back := run(following.prev.value).value;
            back.results == page.results && back.next == page.next
  }

  // ---------- the CRUD endpoint pages like this ----------

  function Crud(ty: RecordType, base: seq<Record>): Server {
    url => RunQuery(ty, base, url)
  }

  /** The link with the cursor at the i-th row (any link when there is no such row). */
  function Links(params: Url, keys: seq<SortKey>, rows: seq<Record>): (nat, bool) -> Url {
    (i: nat, forward: bool) => if i < |rows| then PageUrl(params, CursorAt(keys, rows[i], forward)) else params
  }

  lemma ForwardFromParts(run: Server, params: Url, keys: seq<SortKey>, rows: seq<Record>, size: nat, i: nat, q: Query)
    requires i < |rows| && q.cursor == Some(CursorAt(keys, rows[i], true))
    requires var url, results := PageUrl(params, CursorAt(keys, rows[i], true)), LinkedRows(rows, i, true, size);
             run(url) == Ok(Page(results, GetPage(url, q, results, true), GetPage(url, q, results, false)))
    ensures PagesForward(run, rows, size, Links(params, keys, rows), i)
  {
    var results := LinkedRows(rows, i, true, size);
    LinksOnward(params, keys, rows[i], true, q, results, true);
    LinksOnward(params, keys, rows[i], true, q, results, false);
    if results != [] {
      assert rows[i + |results|] == results[|results| - 1];
      assert rows[i + 1] == results[0];
    }
  }

  lemma BackwardFromParts(run: Server, params: Url, keys: seq<SortKey>, rows: seq<Record>, size: nat, i: nat, q: Query)
    requires i < |rows| && q.cursor == Some(CursorAt(keys, rows[i], false))
    requires var url, results := PageUrl(params, CursorAt(keys, rows[i], false)), LinkedRows(rows, i, false, size);
             run(url) == Ok(Page(results, GetPage(url, q, results, true), GetPage(url, q, results, false)))
    ensures PagesBackward(run, rows, size, Links(params, keys, rows), i)
  {
    var results := LinkedRows(rows, i, false, size);
    LinksOnward(params, keys, rows[i], false, q, results, true);
    var link := Links(params, keys, rows);
    assert link(i, false) == PageUrl(params, CursorAt(keys, rows[i], false));
    if results != [] {
      assert rows[i - 1] == results[|results| - 1];
      assert link(i - 1, true) == PageUrl(params, CursorAt(keys, rows[i - 1], true));
    }
  }

  lemma CrudPagesForward(ty: RecordType, base: seq<Record>, params: Url, i: nat)
    requires Start(ty, base, params) && i < |AllRows(ty, base, params)|
    ensures var q, rows := StartQuery(ty, params), AllRows(ty, base, params);
            PagesForward(Crud(ty, base), rows, q.pageSize, Links(params, q.sort, rows), i)
  {
    var q, rows := StartQuery(ty, params), AllRows(ty, base, params);
    LinkedResults(ty, base, params, i, true);
    ForwardFromParts(Crud(ty, base), params, q.sort, rows, q.pageSize, i, LinkedQuery(ty, base, params, i, true));
  }

  lemma CrudPagesBackward(ty: RecordType, base: seq<Record>, params: Url, i: nat)
    requires Start(ty, base, params) && i < |AllRows(ty, base, params)|
    ensures var q, rows := StartQuery(ty, params), AllRows(ty, base, params);
            PagesBackward(Crud(ty, base), rows, q.pageSize, Links(params, q.sort, rows), i)
  {
    var q, rows := StartQuery(ty, params), AllRows(ty, base, params);
    LinkedResults(ty, base, params, i, false);
    BackwardFromParts(Crud(ty, base), params, q.sort, rows, q.pageSize, i, LinkedQuery(ty, base, params, i, false));
  }

  lemma CrudPagesThrough(ty: RecordType, base: seq<Record>, params: Url)
    requires Start(ty, base, params)
    ensures var q, rows := StartQuery(ty, params), AllRows(ty, base, params);
            PagesThrough(Crud(ty, base), rows, q.pageSize, Links(params, q.sort, rows), params)
  {
    var q, rows := StartQuery(ty, params), AllRows(ty, base, params);
    FirstPage(ty, base, params);
    forall i: nat | i < |rows| ensures PagesForward(Crud(ty, base), rows, q.pageSize, Links(params, q.sort, rows), i) {
      CrudPagesForward(ty, base, params, i);
    }
    forall i: nat | i < |rows| ensures PagesBackward(Crud(ty, base), rows, q.pageSize, Links(params, q.sort, rows), i) {
      CrudPagesBackward(ty, base, params, i);
    }
  }

  /** Following `next` from a first request visits every matching row exactly once and in
      sort order, in one request more than there are pages. */
  lemma WalkVisitsEachRowOnce(ty: RecordType, base: seq<Record>, params: Url)
    requires Start(ty, base, params)
    ensures var q, rows := StartQuery(ty, params), AllRows(ty, base, params);
            && WalksOver(Crud(ty, base), params, rows, q.pageSize)
            && NoDuplicates(rows) && Strict(Order(q.sort), rows)
            && forall r :: r in rows <==> r in base && AllHold(q.filters)(r)
  {
    var q, rows := StartQuery(ty, params), AllRows(ty, base, params);
    AllRowsAreStrict(ty, base, params);
    CrudPagesThrough(ty, base, params);
    WalkFromStart(Crud(ty, base), rows, q.pageSize, Links(params, q.sort, rows), params);
  }

  /** From a full page of the walk, `next` and then `prev` leads to the same rows, and `next`
      from there is the very link that was followed. */
  lemma PrevUndoesNext(ty: RecordType, base: seq<Record>, params: Url, url: Url, first: nat)
    requires Start(ty, base, params)
    requires var q, rows := StartQuery(ty, params), AllRows(ty, base, params);
             WalkPage(rows, Links(params, q.sort, rows), params, url, first)
    requires RunQuery(ty, base, url).Ok?
    requires |RunQuery(ty, base, url).value.results| == StartQuery(ty, params).pageSize
    ensures BackAgain(Crud(ty, base), url)
  {
    var q, rows := StartQuery(ty, params), AllRows(ty, base, params);
    CrudPagesThrough(ty, base, params);
    BackAndForth(Crud(ty, base), rows, q.pageSize, Links(params, q.sort, rows), params, url, first);
  }

  // ---------- empty pages ----------

  /** A request with a cursor that yields no rows, although of the rows that match the other
      filters none has null in a field that the cursor compares. */
  ghost predicate EmptyPage(ty: RecordType, base: seq<Record>, params: seq<Param>, q: Query, c: Cursor) {
    && RunQuery(ty, base, params).Ok? && RunQuery(ty, base, params).value.results == []
    && FromUrlQuery(ty, params) == Ok(q) && q.cursor == Some(c) && q.offset.None? && q.pageSize > 0
    && forall r | r in Matches(OwnFilters(ty, params), base) :: IsSortable(AxisKeys(c.axes), ty, r)
  }

  /** The filters of a request without the one of its cursor. */
  function OwnFilters(ty: RecordType, params: seq<Param>): seq<Expr>
    requires FromUrlQuery(ty, params).Ok?
  {
    ReadParams(ty, params, DEFAULT_QUERY).value.filters
  }

  /** When a cursor's page comes back empty, there is no link onward, and the link back holds
      the reversed cursor.  On its first axis alone that cursor would keep too much, but here
      it selects exactly the rows that are not beyond the position: all of them. */
  lemma EmptyPageTurnsBack(ty: RecordType, base: seq<Record>, params: seq<Param>, q: Query, c: Cursor)
    requires EmptyPage(ty, base, params, q, c)
    ensures var page, back := RunQuery(ty, base, params).value, Some(PageUrl(params, Reversed(c)));
            && page.next == (if c.forward then None else back)
            && page.prev == (if c.forward then back else None)
    ensures c.axes != [] && GetFilter(Reversed(c), ty).Ok?
    ensures forall r | r in Matches(OwnFilters(ty, params), base) ::
              && Holds(GetFilter(Reversed(c), ty).value, r)
              && !Beyond(c.axes, c.forward, r)
              && (c.inclusive ==> !At(c.axes, r))
  {
    var filters := OwnFilters(ty, params);
    var e := GetFilter(c, ty).value;
    OneStageQuery(ty, base, q);
    assert q.filters == filters + [e];
    assert Matches(q.filters, base) == [] by {
      var found := Sort(Order(q.sort), Matches(q.filters, base));
      assert |Take(found, q.pageSize)| == 0;
    }
    forall r | r in Matches(filters, base)
      ensures Holds(GetFilter(Reversed(c), ty).value, r)
      ensures !Beyond(c.axes, c.forward, r) && (c.inclusive ==> !At(c.axes, r))
    {
      assert r !in Matches(q.filters, base);
      assert !AllHold(q.filters)(r);
      ValidIsComparable(ty, c, r);
      ReversedKeepsTheRest(c, r);
    }
  }

  lemma ReversedKeepsTheRest(c: Cursor, r: Record)
    requires c.axes != [] && Comparable(c, r) && !Holds(Disjuncts(c, |c.axes|), r)
    ensures Holds(Disjuncts(Reversed(c), |c.axes|), r)
    ensures !Beyond(c.axes, c.forward, r) && (c.inclusive ==> !At(c.axes, r))
  {
    var b := Reversed(c);
    assert Comparable(b, r);
    var a := c.axes[0];
    assert a in c.axes;
    var k :| KindOf(a.value, k) && KindOf(Lookup(r, a.key.field), k);
    LessIsTotal(a.value, Lookup(r, a.key.field));
    if c.inclusive {
      InclusiveFilterCollapses(c, r);
      ExclusiveFilterMeans(b, r);
    } else {
      ExclusiveFilterMeans(c, r);
      InclusiveFilterCollapses(b, r);
    }
  }

  lemma {:induction false} AxisSort(axes: seq<CursorAxis>)
    ensures GetSort(axes, true) == AxisKeys(axes) && GetSort(axes, false) == Flip(AxisKeys(axes))
  {
    if axes != [] {
      AxisSort(axes[1..]);
    }
  }

  lemma SortFlipped(ty: RecordType, keys: seq<SortKey>, rows: seq<Record>)
    requires GoodKeys(ty, keys) && UniqueIds(rows)
    ensures Sort(Order(Flip(keys)), rows) == Reverse(Sort(Order(keys), rows))
  {
    var up, down := Sort(Order(keys), rows), Sort(Order(Flip(keys)), rows);
    UniqueHasNoDuplicates(rows);
    FlippedKeysAreGood(ty, keys);
    SortIsStrict(ty, rows, keys, rows);
    SortIsStrict(ty, rows, Flip(keys), rows);
    OrderIsWeakOrder(Flip(keys));
    forall i, j | 0 <= i < j < |up| ensures Order(Flip(keys))(Reverse(up)[i], Reverse(up)[j]) {
      FlipReverses(keys, Reverse(up)[i], Reverse(up)[j]);
    }
    forall r ensures r in Reverse(up) <==> r in up {
      if r in up {
        var i :| 0 <= i < |up| && up[i] == r;
        assert Reverse(up)[|up| - 1 - i] == r;
      }
    }
    StrictIsUnique(Order(Flip(keys)), down, Reverse(up));
  }

  /** The last rows of a sequence. */
  function LastOf(rows: seq<Record>, n: nat): seq<Record> {
    rows[|rows| - Min(|rows|, n)..]
  }

  lemma ReverseTakeReverse(rows: seq<Record>, n: nat)
    ensures Reverse(Take(Reverse(rows), n)) == LastOf(rows, n)
  {
    var taken := Take(Reverse(rows), n);
    assert forall k :: 0 <= k < |taken| ==> Reverse(taken)[k] == LastOf(rows, n)[k];
  }

  /** Behind the link back are the last rows of all that match, in sort order; going backward,
      the first ones. */
  lemma BackLinkLeadsToTheEnd(ty: RecordType, base: seq<Record>, params: seq<Param>, q: Query, c: Cursor)
    requires EmptyPage(ty, base, params, q, c)
    requires GoodKeys(ty, AxisKeys(c.axes)) && UniqueIds(Matches(OwnFilters(ty, params), base))
    ensures var all := Sort(Order(AxisKeys(c.axes)), Matches(OwnFilters(ty, params), base));
            var page := RunQuery(ty, base, PageUrl(params, Reversed(c)));
            page.Ok? && page.value.results == if c.forward then LastOf(all, q.pageSize) else Take(all, q.pageSize)
  {
    var keys, matching := AxisKeys(c.axes), Matches(OwnFilters(ty, params), base);
    var q' := BackQuery(ty, base, params, q, c);
    OneStageQuery(ty, base, q');
    AxisSort(c.axes);
    SortFlipped(ty, keys, matching);
    ReverseTakeReverse(Sort(Order(keys), matching), q.pageSize);
  }

  lemma BackQuery(ty: RecordType, base: seq<Record>, params: seq<Param>, q: Query, c: Cursor) returns (q': Query)
    requires EmptyPage(ty, base, params, q, c) && GoodKeys(ty, AxisKeys(c.axes))
    ensures FromUrlQuery(ty, PageUrl(params, Reversed(c))) == Ok(q') && QueryIsValid(ty, q')
    ensures q'.pageSize == q.pageSize && q'.offset == None && q'.cursor == Some(Reversed(c))
    ensures q'.sort == GetSort(c.axes, !c.forward)
    ensures Matches(q'.filters, base) == Matches(OwnFilters(ty, params), base)
  {
    var back, filters := Reversed(c), OwnFilters(ty, params);
    EmptyPageTurnsBack(ty, base, params, q, c);
    LinkQuery(ty, params, back);
    q' := FromUrlQuery(ty, PageUrl(params, back)).value;
    var e := GetFilter(back, ty).value;
    MatchesOneMore(filters, e, base);
    FilterAll(Matching(e), Matches(filters, base));
    OneStageQuery(ty, base, q);
    BackIsValid(ty, c);
    assert forall x | x in filters :: x in q.filters;
  }

  lemma BackIsValid(ty: RecordType, c: Cursor)
    requires c.axes != [] && GetFilter(Reversed(c), ty).Ok? && GoodKeys(ty, AxisKeys(c.axes))
    ensures ExprIsValid(GetFilter(Reversed(c), ty).value, ty) && KeysAreValid(GetSort(c.axes, !c.forward), ty)
  {
    DisjunctsAreValid(ty, Reversed(c), |c.axes|);
    AxisSort(c.axes);
    FlippedKeysAreGood(ty, AxisKeys(c.axes));
  }

  // ---------- links of a request with an offset ----------

  /** Links keep the offset, and it is applied again behind the cursor: the page behind a link
      leaves out as many rows as the first page did. */
  lemma OffsetIsAppliedAgain(ty: RecordType, base: seq<Record>, params: seq<Param>, i: nat, forward: bool)
    requires FirstRequest(ty, base, params) && i < |AllRows(ty, base, params)|
    ensures var q, rows := StartQuery(ty, params), AllRows(ty, base, params);
            var page := RunQuery(ty, base, LinkAt(ty, base, params, i, forward));
            && page.Ok?
            && page.value.results ==
               var selected := Take(Drop(Selected(rows, i, forward), OrElse(q.offset, 0)), q.pageSize);
               if forward then selected else Reverse(selected)
  {
    CursorSelects(ty, base, params, i, forward);
    LinkReadsAsQuery(ty, base, params, i, forward);
    RequestReturns(ty, base, LinkAt(ty, base, params, i, forward));
  }

  /** With an offset n, behind a full first page `next` passes over n more rows. */
  ghost predicate PassesOver(run: Server, url: Url, rows: seq<Record>, n: nat, size: nat) {
    && run(url).Ok?
    && var page := run(url).value;
       && n + size <= |rows| && page.results == rows[n..n + size]
       && page.next.Some? && run(page.next.value).Ok?
       && run(page.next.value).value.results == Take(Drop(rows, n + size + n), size)
  }

  /** The page behind a link: of the rows from an index on, the n first ones left out. */
  ghost predicate PageBehind(run: Server, url: Url, rows: seq<Record>, from: nat, n: nat, size: nat) {
    run(url).Ok? && from <= |rows| && run(url).value.results == Take(Drop(rows[from..], n), size)
  }

  ghost predicate FirstPageAt(run: Server, params: Url, q: Query, rows: seq<Record>, n: nat) {
    && run(params).Ok? && q.cursor.None? && q.pageSize > 0
    && var page := run(params).value;
       && page.results == Take(Drop(rows, n), q.pageSize)
       && page.next == GetPage(params, q, page.results, true)
  }

  lemma PassesOverFromParts(run: Server, params: Url, q: Query, rows: seq<Record>, n: nat)
    requires FirstPageAt(run, params, q, rows, n) && n + q.pageSize <= |rows|
    requires forall i: nat | i < |rows| ::
               PageBehind(run, Links(params, q.sort, rows)(i, true), rows, i + 1, n, q.pageSize)
    ensures PassesOver(run, params, rows, n, q.pageSize)
  {
    var results, last := run(params).value.results, n + q.pageSize - 1;
    PageAtOffset(rows, n, q.pageSize);
    var next := Links(params, q.sort, rows)(last, true);
    assert run(params).value.next == Some(next);
    assert PageBehind(run, next, rows, last + 1, n, q.pageSize);
  }

  lemma PageAtOffset(rows: seq<Record>, n: nat, size: nat)
    requires size > 0 && n + size <= |rows|
    ensures Take(Drop(rows, n), size) == rows[n..n + size] && rows[n..n + size][size - 1] == rows[n + size - 1]
    ensures Drop(rows[n + size..], n) == Drop(rows, n + size + n)
  {}

  /** So no page of the walk shows the n rows that come after the first page. */
  lemma NextPassesOver(ty: RecordType, base: seq<Record>, params: seq<Param>, n: nat)
    requires FirstRequest(ty, base, params) && StartQuery(ty, params).offset == Some(n)
    requires n + StartQuery(ty, params).pageSize <= |AllRows(ty, base, params)|
    ensures PassesOver(Crud(ty, base), params, AllRows(ty, base, params), n, StartQuery(ty, params).pageSize)
  {
    var q, rows := StartQuery(ty, params), AllRows(ty, base, params);
    FirstResults(ty, base, params, n);
    forall i: nat | i < |rows|
      ensures PageBehind(Crud(ty, base), Links(params, q.sort, rows)(i, true), rows, i + 1, n, q.pageSize)
    {
      NextWithOffset(ty, base, params, i, n);
    }
    PassesOverFromParts(Crud(ty, base), params, q, rows, n);
  }

  lemma FirstResults(ty: RecordType, base: seq<Record>, params: seq<Param>, n: nat)
    requires FirstRequest(ty, base, params) && StartQuery(ty, params).offset == Some(n)
    ensures FirstPageAt(Crud(ty, base), params, StartQuery(ty, params), AllRows(ty, base, params), n)
  {
    RequestReturns(ty, base, params);
    NextOfRequest(ty, base, params);
  }

  lemma NextWithOffset(ty: RecordType, base: seq<Record>, params: seq<Param>, i: nat, n: nat)
    requires FirstRequest(ty, base, params) && StartQuery(ty, params).offset == Some(n)
    requires i < |AllRows(ty, base, params)|
    ensures var q, rows := StartQuery(ty, params), AllRows(ty, base, params);
            PageBehind(Crud(ty, base), Links(params, q.sort, rows)(i, true), rows, i + 1, n, q.pageSize)
  {
    OffsetIsAppliedAgain(ty, base, params, i, true);
  }

  lemma NextOfRequest(ty: RecordType, base: seq<Record>, params: seq<Param>)
    requires RunQuery(ty, base, params).Ok?
    ensures FromUrlQuery(ty, params).Ok?
    ensures var page := RunQuery(ty, base, params).value;
            page.next == GetPage(params, FromUrlQuery(ty, params).value, page.results, true)
  {}

  // ---------- null in a sort field ----------

  /** A link works if and only if its row has a value in every sort field: the cursor of a row
      with null in one is refused, and the walk ends in an error there. */
  lemma LinkWorksIff(ty: RecordType, params: seq<Param>, keys: seq<SortKey>, row: Record, forward: bool)
    requires ReadParams(ty, params, DEFAULT_QUERY).Ok? && GoodKeys(ty, keys)
    ensures FromUrlQuery(ty, PageUrl(params, CursorAt(keys, row, forward))).Ok? <==> IsSortable(keys, ty, row)
  {
    var c := CursorAt(keys, row, forward);
    PivotKeys(keys, row);
    PivotAxesAreValidIff(ty, keys, row);
    if AxesAreValid(c.axes, ty) {
      LinkQuery(ty, params, c);
    } else {
      RefusedLink(ty, params, c);
    }
  }

  lemma RefusedLink(ty: RecordType, params: seq<Param>, c: Cursor)
    requires ReadParams(ty, params, DEFAULT_QUERY).Ok? && c.axes != [] && GetFilter(c, ty).Err?
    ensures FromUrlQuery(ty, PageUrl(params, c)).Err?
  {
    ReadLinkParams(ty, params, DEFAULT_QUERY, DEFAULT_QUERY);
    var kept := Filter(StaysInLink, params);
    ReadParamsAppend(ty, kept, [CursorParam(Some(c))], DEFAULT_QUERY);
    var r := ReadParams(ty, kept, DEFAULT_QUERY).value;
    assert ReadParams(ty, [CursorParam(Some(c))], r) == ReadParams(ty, [], r.(cursor := Some(c)));
  }
}
