/** Keyset paging of the CRUD endpoint (server/src/datastore/crud.rs).  Every page carries
    links to the next and the previous page; a link holds a cursor, which is the position
    of one row in the sort together with a direction. */
module Paging {
  import opened Sequences
  import opened Values
  import opened JsonFilter
  import opened QueryPlan

  datatype CursorAxis = CursorAxis(key: SortKey, value: Value)

  datatype Cursor = Cursor(axes: seq<CursorAxis>, forward: bool, inclusive: bool)

  /** A parsed URL parameter. `None` is a value that does not parse. */
  datatype Param =
    | SortParam(key: SortKey)
    | PageSizeParam(size: Option<nat>)
    | OffsetParam(count: Option<nat>)
    | FilterParam(filter: Option<Expr>)
    | CursorParam(cursor: Option<Cursor>)
    | OtherParam

  datatype Query = Query(pageSize: nat, offset: Option<nat>, cursor: Option<Cursor>,
                         sort: seq<SortKey>, filters: seq<Expr>)

  datatype Page = Page(results: seq<Record>, next: Option<seq<Param>>, prev: Option<seq<Param>>)

  const DEFAULT_QUERY := Query(1000, None, None, [SortKey(ID, true)], [])

  // ---------- cursors ----------

  function Reversed(c: Cursor): Cursor {
    c.(forward := !c.forward, inclusive := !c.inclusive)
  }

  function Directed(k: SortKey, forward: bool): SortKey {
    k.(ascending := k.ascending == forward)
  }

  function GetSort(axes: seq<CursorAxis>, forward: bool): seq<SortKey> {
    if axes == [] then [] else [Directed(axes[0].key, forward)] + GetSort(axes[1..], forward)
  }

  function AxisOp(a: CursorAxis, c: Cursor): BinaryOp {
    if a.key.ascending == c.forward then (if c.inclusive then OpGtEq else OpGt)
    else (if c.inclusive then OpLtEq else OpLt)
  }

  /** The field exists, is scalar, and the value is of its type. */
  predicate AxisIsValid(a: CursorAxis, ty: RecordType) {
    a.key.field in ty && ty[a.key.field].Scalar? && KindOf(a.value, ty[a.key.field].kind)
  }

  function FieldOf(a: CursorAxis): Expr { Property(Parameter(0), a.key.field) }

  function CompareAxis(a: CursorAxis, c: Cursor): Expr {
    Binary(AxisOp(a, c), FieldOf(a), Const(a.value))
  }

  function EqualAxis(a: CursorAxis): Expr { Eq(FieldOf(a), Const(a.value)) }

  /** `e`, guarded by equality on each of `axes`. */
  function Guarded(axes: seq<CursorAxis>, e: Expr): Expr
    decreases |axes|
  {
    if axes == [] then e else Guarded(axes[1..], And(EqualAxis(axes[0]), e))
  }

  /** The disjunct for the axis at index `i`. */
  function Disjunct(c: Cursor, i: nat): Expr
    requires i < |c.axes|
  {
    Guarded(c.axes[..i], CompareAxis(c.axes[i], c))
  }

  function Disjuncts(c: Cursor, n: nat): Expr
    requires 0 < n <= |c.axes|
  {
    if n == 1 then Disjunct(c, 0) else Or(Disjuncts(c, n - 1), Disjunct(c, n - 1))
  }

  function GetFilter(c: Cursor, ty: RecordType): Result<Expr>
    requires c.axes != []
  {
    if forall a | a in c.axes :: AxisIsValid(a, ty) then Ok(Disjuncts(c, |c.axes|))
    else Err("Failed to convert axis JSON to expression value")
  }

  method MakeFilter(c: Cursor, ty: RecordType) returns (r: Result<Expr>)
    requires c.axes != []
    ensures r == GetFilter(c, ty)
  {
    for i := 0 to |c.axes|
      invariant forall k :: 0 <= k < i ==> AxisIsValid(c.axes[k], ty)
    {
      if !AxisIsValid(c.axes[i], ty) {
        assert c.axes[i] in c.axes;
        return Err("Failed to convert axis JSON to expression value");
      }
    }
    var expr: Option<Expr> := None;
    for i := 0 to |c.axes|
      invariant if i == 0 then expr.None? else expr == Some(Disjuncts(c, i))
    {
      var e := CompareAxis(c.axes[i], c);
      if expr.None? {
        expr := Some(e);
      } else {
        for j := 0 to i
          invariant Disjunct(c, i) == Guarded(c.axes[j..i], e)
        {
          assert c.axes[j..i][1..] == c.axes[j + 1..i];
          e := And(EqualAxis(c.axes[j]), e);
        }
        expr := Some(Or(expr.value, e));
      }
    }
    return Ok(expr.value);
  }

  // ---------- requests ----------

  /** One URL parameter read into the query. */
  function ReadParam(ty: RecordType, p: Param, q: Query): Result<Query> {
    match p
    case SortParam(k) => if k.field in ty then Ok(q.(sort := [k])) else Err("trying to sort by non-existent field")
    case PageSizeParam(n) => if n.Some? then Ok(q.(pageSize := n.value)) else Err("failed to parse page_size")
    case OffsetParam(n) => if n.Some? then Ok(q.(offset := n)) else Err("failed to parse offset")
    case FilterParam(e) => if e.Some? then Ok(q.(filters := q.filters + [e.value])) else Err("failed to parse filter")
    case CursorParam(c) =>
      if q.cursor.Some? then Err("only one occurrence of cursor is allowed.")
      else if c.None? then Err("failed to decode cursor")
      else if c.value.axes == [] then Err("cursor must have some sort axes")
      else Ok(q.(cursor := c))
    case OtherParam => Ok(q)
  }

  function ReadParams(ty: RecordType, params: seq<Param>, q: Query): Result<Query>
    decreases |params|
  {
    if params == [] then Ok(q) else
      match ReadParam(ty, params[0], q)
      case Err(e) => Err(e)
      case Ok(q') => ReadParams(ty, params[1..], q')
  }

  function EnsureSortById(keys: seq<SortKey>): seq<SortKey> {
    if exists k :: k in keys && k.field == ID then keys else keys + [SortKey(ID, true)]
  }

  /** The cursor, if any, replaces the sort and adds its filter. */
  function Finish(ty: RecordType, q: Query): Result<Query> {
    var q' := q.(sort := EnsureSortById(q.sort));
    if q.cursor.None? then Ok(q')
    else if q.cursor.value.axes == [] then Err("cursor must have some sort axes")
    else
      match GetFilter(q.cursor.value, ty)
      case Err(e) => Err(e)
      case Ok(e) => Ok(q'.(sort := GetSort(q.cursor.value.axes, q.cursor.value.forward), filters := q.filters + [e]))
  }

  function FromUrlQuery(ty: RecordType, params: seq<Param>): Result<Query> {
    match ReadParams(ty, params, DEFAULT_QUERY)
    case Err(e) => Err(e)
    case Ok(q) => Finish(ty, q)
  }

  method ParseUrlQuery(ty: RecordType, params: seq<Param>) returns (r: Result<Query>)
    ensures r == FromUrlQuery(ty, params)
  {
    var q := DEFAULT_QUERY;
    for i := 0 to |params|
      invariant ReadParams(ty, params, DEFAULT_QUERY) == ReadParams(ty, params[i..], q)
    {
      assert params[i..][1..] == params[i + 1..];
      var q' := ReadParam(ty, params[i], q);
      if q'.Err? {
        return q';
      }
      q := q'.value;
    }
    return Finish(ty, q);
  }

  function Wheres(filters: seq<Expr>): seq<QueryOp> {
    if filters == [] then [] else [Where(filters[0])] + Wheres(filters[1..])
  }

  function MakeQueryOps(q: Query): seq<QueryOp> {
    [OrderBy(q.sort)] + Wheres(q.filters)
    + (if q.offset.Some? then [SkipOp(q.offset.value)] else []) + [TakeOp(q.pageSize)]
  }

  function CursorFromPivot(q: Query, pivot: Record, forward: bool): Cursor {
    var keys := if q.cursor.Some? then AxisKeys(q.cursor.value.axes) else q.sort;
    Cursor(PivotAxes(keys, pivot), forward, false)
  }

  function AxisKeys(axes: seq<CursorAxis>): seq<SortKey> {
    if axes == [] then [] else [axes[0].key] + AxisKeys(axes[1..])
  }

  function PivotAxes(keys: seq<SortKey>, pivot: Record): seq<CursorAxis> {
    if keys == [] then [] else
      var v := Lookup(pivot, keys[0].field);
      [CursorAxis(keys[0], if v.Undefined? then Null else v)] + PivotAxes(keys[1..], pivot)
  }

  predicate StaysInLink(p: Param) { !p.CursorParam? && !p.SortParam? }

  function PageUrl(params: seq<Param>, c: Cursor): seq<Param> {
    Filter(StaysInLink, params) + [CursorParam(Some(c))]
  }

  method MakePageUrl(params: seq<Param>, c: Cursor) returns (url: seq<Param>)
    ensures url == PageUrl(params, c)
  {
    url := [];
    for i := 0 to |params|
      invariant url == Filter(StaysInLink, params[..i])
    {
      assert params[..i + 1] == params[..i] + [params[i]];
      FilterAppend(StaysInLink, params[..i], [params[i]]);
      if params[i].CursorParam? || params[i].SortParam? {
        continue;
      }
      url := url + [params[i]];
    }
    assert params[..|params|] == params;
    url := url + [CursorParam(Some(c))];
  }

  function GetPage(params: seq<Param>, q: Query, results: seq<Record>, forward: bool): Option<seq<Param>> {
    if results != [] then
      var pivot := if forward then results[|results| - 1] else results[0];
      Some(PageUrl(params, CursorFromPivot(q, pivot, forward)))
    else if q.cursor.Some? && q.cursor.value.forward != forward then
      Some(PageUrl(params, Reversed(q.cursor.value)))
    else None
  }

  /** One request: parse, run the query, restore the order of a backward page, add links. */
  function RunQuery(ty: RecordType, base: seq<Record>, params: seq<Param>): Result<Page> {
    match FromUrlQuery(ty, params)
    case Err(e) => Err(e)
    case Ok(q) =>
      match RawQuery(ty, MakeQueryOps(q))
      case Err(e) => Err(e)
      case Ok(sql) =>
        var rows := RunSelect(sql, base);
        var results := if q.cursor.Some? && !q.cursor.value.forward then Reverse(rows) else rows;
        Ok(Page(results, GetPage(params, q, results, true), GetPage(params, q, results, false)))
  }

  // ---------- what a request asks for ----------

  /** The expressions of the filter parameters, in order. */
  function GivenFilters(params: seq<Param>): seq<Expr> {
    if params == [] then []
    else
      var rest, last := GivenFilters(params[..|params| - 1]), params[|params| - 1];
      match last
      case FilterParam(Some(e)) => rest + [e]
      case _ => rest
  }

  /** The value of the last parameter that has one. */
  function LastSort(params: seq<Param>): Option<SortKey> {
    if params == [] then None
    else match params[|params| - 1]
      case SortParam(k) => Some(k)
      case _ => LastSort(params[..|params| - 1])
  }

  function LastPageSize(params: seq<Param>): Option<nat> {
    if params == [] then None
    else match params[|params| - 1]
      case PageSizeParam(Some(n)) => Some(n)
      case _ => LastPageSize(params[..|params| - 1])
  }

  function LastOffset(params: seq<Param>): Option<nat> {
    if params == [] then None
    else match params[|params| - 1]
      case OffsetParam(Some(n)) => Some(n)
      case _ => LastOffset(params[..|params| - 1])
  }

  function GivenCursor(params: seq<Param>): Option<Cursor> {
    if params == [] then None
    else match params[|params| - 1]
      case CursorParam(Some(c)) => Some(c)
      case _ => GivenCursor(params[..|params| - 1])
  }

  /** The value parsed, and a sort is by a field of the type. */
  predicate IsReadable(ty: RecordType, p: Param) {
    match p
    case SortParam(k) => k.field in ty
    case PageSizeParam(n) => n.Some?
    case OffsetParam(n) => n.Some?
    case FilterParam(e) => e.Some?
    case CursorParam(c) => c.Some? && c.value.axes != []
    case OtherParam => true
  }

  ghost predicate AtMostOneCursor(params: seq<Param>) {
    forall i, j :: 0 <= i < j < |params| ==> !(params[i].CursorParam? && params[j].CursorParam?)
  }

  /** Each axis is a scalar field of the type with a value of its kind. */
  predicate FitsType(c: Cursor, ty: RecordType) {
    forall a | a in c.axes ::
      a.key.field in ty && ty[a.key.field].Scalar? && KindOf(a.value, ty[a.key.field].kind)
  }

  function OrElse<T>(o: Option<T>, default: T): T { if o.Some? then o.value else default }

  /** What the parameters ask for: filters add up, of the others the last one counts. */
  function Asked(params: seq<Param>): Query {
    Query(OrElse(LastPageSize(params), 1000), LastOffset(params), GivenCursor(params),
          [OrElse(LastSort(params), SortKey("id", true))], GivenFilters(params))
  }

  ghost predicate ReadsAsAsked(ty: RecordType, params: seq<Param>) {
    var r := ReadParams(ty, params, DEFAULT_QUERY);
    && (r.Ok? <==> (forall p | p in params :: IsReadable(ty, p)) && AtMostOneCursor(params))
    && (r.Ok? ==> r.value == Asked(params))
    && (r.Ok? ==> (r.value.cursor.Some? <==> exists p :: p in params && p.CursorParam?))
  }

  lemma {:induction false} ReadParamsSplit(ty: RecordType, params: seq<Param>, more: seq<Param>, q: Query)
    ensures ReadParams(ty, params + more, q) ==
            match ReadParams(ty, params, q) case Err(e) => Err(e) case Ok(q') => ReadParams(ty, more, q')
    decreases |params|
  {
    if params == [] {
      assert params + more == more;
    } else {
      assert (params + more)[1..] == params[1..] + more;
      if ReadParam(ty, params[0], q).Ok? {
        ReadParamsSplit(ty, params[1..], more, ReadParam(ty, params[0], q).value);
      }
    }
  }

  lemma {:induction false} ReadingMeans(ty: RecordType, params: seq<Param>)
    ensures ReadsAsAsked(ty, params)
    decreases |params|
  {
    if params != [] {
      var init, last := params[..|params| - 1], params[|params| - 1];
      assert params == init + [last];
      ReadingMeans(ty, init);
      ReadParamsSplit(ty, init, [last], DEFAULT_QUERY);
      if ReadParams(ty, init, DEFAULT_QUERY).Ok? {
        OneMoreParam(ty, init, last);
      } else {
        StillUnreadable(ty, init, last);
      }
    }
  }

  lemma StillUnreadable(ty: RecordType, init: seq<Param>, last: Param)
    requires !((forall p | p in init :: IsReadable(ty, p)) && AtMostOneCursor(init))
    ensures !((forall p | p in init + [last] :: IsReadable(ty, p)) && AtMostOneCursor(init + [last]))
  {
    var params := init + [last];
    if forall p | p in init :: IsReadable(ty, p) {
      var i, j :| 0 <= i < j < |init| && init[i].CursorParam? && init[j].CursorParam?;
      assert params[i].CursorParam? && params[j].CursorParam?;
    } else {
      var p :| p in init && !IsReadable(ty, p);
      assert p in params;
    }
  }

  lemma OneMoreParam(ty: RecordType, init: seq<Param>, last: Param)
    requires ReadsAsAsked(ty, init) && ReadParams(ty, init, DEFAULT_QUERY).Ok?
    requires ReadParams(ty, init + [last], DEFAULT_QUERY) ==
             ReadParams(ty, [last], ReadParams(ty, init, DEFAULT_QUERY).value)
    ensures ReadsAsAsked(ty, init + [last])
  {
    var params, q := init + [last], ReadParams(ty, init, DEFAULT_QUERY).value;
    var r := ReadParam(ty, last, q);
    assert params[..|params| - 1] == init;
    assert ReadParams(ty, [last], q) == match r case Err(e) => Err(e) case Ok(q') => ReadParams(ty, [], q');
    if last.CursorParam? && q.cursor.Some? {
      var p :| p in init && p.CursorParam?;
      var i :| 0 <= i < |init| && init[i] == p;
      assert params[i].CursorParam? && params[|init|].CursorParam?;
    } else {
      assert AtMostOneCursor(params);
      assert last in params;
    }
  }

  /** What a request is read as: the filters are those of its filter parameters in order, of other
      parameters the last one counts, and a sort is made unique by the id.  It is refused exactly
      for a value that does not parse, a sort by an unknown field, a second cursor, or a cursor
      without axes or with one that does not fit the type. */
  lemma RequestMeans(ty: RecordType, params: seq<Param>)
    ensures FromUrlQuery(ty, params).Ok? <==>
            && (forall p | p in params :: IsReadable(ty, p)) && AtMostOneCursor(params)
            && (GivenCursor(params).Some? ==> FitsType(GivenCursor(params).value, ty))
    ensures FromUrlQuery(ty, params).Ok? ==>
            var q := FromUrlQuery(ty, params).value;
            && q.pageSize == OrElse(LastPageSize(params), 1000)
            && q.offset == LastOffset(params)
            && q.cursor == GivenCursor(params)
            && (q.cursor.None? ==> q.filters == GivenFilters(params))
            && (q.cursor.None? ==>
                  q.sort == match LastSort(params)
                            case None => [SortKey("id", true)]
                            case Some(k) => if k.field == "id" then [k] else [k, SortKey("id", true)])
  {
    ReadingMeans(ty, params);
    var keys := Asked(params).sort;
    assert keys[0] in keys && forall k | k in keys :: k == keys[0];
  }

  /** With a cursor the sort is that of its axes, turned around for a backward one, and its filter
      comes last. */
  lemma CursorRequestMeans(ty: RecordType, params: seq<Param>)
    requires FromUrlQuery(ty, params).Ok? && GivenCursor(params).Some?
    ensures var q, c := FromUrlQuery(ty, params).value, GivenCursor(params).value;
            && |q.sort| == |c.axes|
            && (forall i :: 0 <= i < |c.axes| ==>
                  q.sort[i] == SortKey(c.axes[i].key.field, c.axes[i].key.ascending == c.forward))
            && |q.filters| == |GivenFilters(params)| + 1 && GivenFilters(params) <= q.filters
            && GetFilter(c, ty) == Ok(q.filters[|GivenFilters(params)|])
  {
    ReadingMeans(ty, params);
    SortOfAxes(GivenCursor(params).value.axes, GivenCursor(params).value.forward);
  }

  lemma {:induction false} SortOfAxes(axes: seq<CursorAxis>, forward: bool)
    ensures |GetSort(axes, forward)| == |axes|
    ensures forall i :: 0 <= i < |axes| ==>
              GetSort(axes, forward)[i] == SortKey(axes[i].key.field, axes[i].key.ascending == forward)
  {
    if axes != [] {
      SortOfAxes(axes[1..], forward);
    }
  }

  // ---------- what a cursor's filter means ----------

  /** The row's field is strictly past the axis value, in the cursor's direction. */
  predicate PastAxis(a: CursorAxis, forward: bool, row: Record) {
    var v := Lookup(row, a.key.field);
    if a.key.ascending == forward then Less(a.value, v) else Less(v, a.value)
  }

  predicate OnAxis(a: CursorAxis, row: Record) {
    Lookup(row, a.key.field) == a.value
  }

  /** The row comes strictly after the cursor's position in lexicographic order. */
  predicate Beyond(axes: seq<CursorAxis>, forward: bool, row: Record) {
    axes != [] && (PastAxis(axes[0], forward, row) || (OnAxis(axes[0], row) && Beyond(axes[1..], forward, row)))
  }

  predicate At(axes: seq<CursorAxis>, row: Record) {
    forall a | a in axes :: OnAxis(a, row)
  }

  /** The row has a value of the right kind for every axis. */
  ghost predicate Comparable(c: Cursor, row: Record) {
    forall a | a in c.axes ::
      exists k :: KindOf(a.value, k) && KindOf(Lookup(row, a.key.field), k)
  }

  predicate AxisHolds(a: CursorAxis, c: Cursor, row: Record) {
    PastAxis(a, c.forward, row) || (c.inclusive && OnAxis(a, row))
  }

  lemma CompareAxisMeans(c: Cursor, i: nat, row: Record)
    requires i < |c.axes| && Comparable(c, row)
    ensures Eval(CompareAxis(c.axes[i], c), row) == Bool(AxisHolds(c.axes[i], c, row))
    ensures Eval(EqualAxis(c.axes[i]), row) == Bool(OnAxis(c.axes[i], row))
  {
    var a := c.axes[i];
    assert a in c.axes;
    var k :| KindOf(a.value, k) && KindOf(Lookup(row, a.key.field), k);
    var v := Lookup(row, a.key.field);
    assert Eval(Parameter(0), row) == Entity(row);
    assert Eval(FieldOf(a), row) == v;
    assert Eval(Const(a.value), row) == a.value;
    LessIsTotal(a.value, v);
    LessIsWeakOrder();
  }

  lemma {:induction false} GuardedMeans(c: Cursor, lo: nat, hi: nat, e: Expr, row: Record, b: bool)
    requires lo <= hi <= |c.axes| && Comparable(c, row) && Eval(e, row) == Bool(b)
    ensures Eval(Guarded(c.axes[lo..hi], e), row) == Bool(b && At(c.axes[lo..hi], row))
    decreases |c.axes| - lo
  {
    var axes := c.axes[lo..hi];
    if axes != [] {
      CompareAxisMeans(c, lo, row);
      assert axes[1..] == c.axes[lo + 1..hi];
      assert axes == [axes[0]] + axes[1..];
      GuardedMeans(c, lo + 1, hi, And(EqualAxis(axes[0]), e), row, b && OnAxis(axes[0], row));
    }
  }

  predicate DisjunctHolds(c: Cursor, i: nat, row: Record)
    requires i < |c.axes|
  {
    At(c.axes[..i], row) && AxisHolds(c.axes[i], c, row)
  }

  lemma DisjunctMeans(c: Cursor, i: nat, row: Record)
    requires i < |c.axes| && Comparable(c, row)
    ensures Eval(Disjunct(c, i), row) == Bool(DisjunctHolds(c, i, row))
  {
    CompareAxisMeans(c, i, row);
    GuardedMeans(c, 0, i, CompareAxis(c.axes[i], c), row, AxisHolds(c.axes[i], c, row));
    assert c.axes[0..i] == c.axes[..i];
  }

  ghost predicate SomeDisjunct(c: Cursor, n: nat, row: Record)
    requires n <= |c.axes|
  {
    exists i: nat :: i < n && DisjunctHolds(c, i, row)
  }

  lemma EvalOr(l: Expr, r: Expr, row: Record, a: bool, b: bool)
    requires Eval(l, row) == Bool(a) && Eval(r, row) == Bool(b)
    ensures Eval(Or(l, r), row) == Bool(a || b)
  {}

  lemma {:induction false} DisjunctsMean(c: Cursor, n: nat, row: Record)
    requires 0 < n <= |c.axes| && Comparable(c, row)
    ensures Eval(Disjuncts(c, n), row) == Bool(SomeDisjunct(c, n, row))
  {
    DisjunctMeans(c, n - 1, row);
    assert n > 1 ==> (SomeDisjunct(c, n, row) <==> SomeDisjunct(c, n - 1, row) || DisjunctHolds(c, n - 1, row));
    if n > 1 {
      DisjunctsMean(c, n - 1, row);
      EvalOr(Disjuncts(c, n - 1), Disjunct(c, n - 1), row, SomeDisjunct(c, n - 1, row), DisjunctHolds(c, n - 1, row));
    } else {
      assert SomeDisjunct(c, n, row) <==> DisjunctHolds(c, 0, row);
    }
  }

  predicate FirstPastAt(axes: seq<CursorAxis>, forward: bool, i: nat, row: Record)
    requires i < |axes|
  {
    At(axes[..i], row) && PastAxis(axes[i], forward, row)
  }

  lemma {:induction false} BeyondMeans(axes: seq<CursorAxis>, forward: bool, row: Record)
    ensures Beyond(axes, forward, row) <==> exists i: nat :: i < |axes| && FirstPastAt(axes, forward, i, row)
  {
    if axes != [] {
      BeyondMeans(axes[1..], forward, row);
      assert FirstPastAt(axes, forward, 0, row) <==> PastAxis(axes[0], forward, row);
      if i: nat :| 0 < i < |axes| && FirstPastAt(axes, forward, i, row) {
        FirstPastAtTail(axes, forward, i - 1, row);
        assert FirstPastAt(axes[1..], forward, i - 1, row);
      }
      if i: nat :| i < |axes[1..]| && FirstPastAt(axes[1..], forward, i, row) {
        FirstPastAtTail(axes, forward, i, row);
        assert OnAxis(axes[0], row) ==> FirstPastAt(axes, forward, i + 1, row);
      }
    }
  }

  lemma FirstPastAtTail(axes: seq<CursorAxis>, forward: bool, i: nat, row: Record)
    requires i + 1 < |axes|
    ensures FirstPastAt(axes, forward, i + 1, row) <==> OnAxis(axes[0], row) && FirstPastAt(axes[1..], forward, i, row)
  {
    assert axes[..i + 1] == [axes[0]] + axes[1..][..i];
  }

  /** An exclusive cursor's filter keeps exactly the rows strictly beyond its position. */
  lemma ExclusiveFilterMeans(c: Cursor, row: Record)
    requires c.axes != [] && !c.inclusive && Comparable(c, row)
    ensures Holds(Disjuncts(c, |c.axes|), row) <==> Beyond(c.axes, c.forward, row)
  {
    DisjunctsMean(c, |c.axes|, row);
    BeyondMeans(c.axes, c.forward, row);
    assert forall i: nat | i < |c.axes| :: DisjunctHolds(c, i, row) == FirstPastAt(c.axes, c.forward, i, row);
  }

  /** An inclusive cursor's filter collapses to a comparison on the first axis alone. */
  lemma InclusiveFilterCollapses(c: Cursor, row: Record)
    requires c.axes != [] && c.inclusive && Comparable(c, row)
    ensures Holds(Disjuncts(c, |c.axes|), row) <==> AxisHolds(c.axes[0], c, row)
  {
    DisjunctsMean(c, |c.axes|, row);
    if i: nat :| 0 < i < |c.axes| && DisjunctHolds(c, i, row) {
      assert c.axes[..i][0] in c.axes[..i];
    }
    assert DisjunctHolds(c, 0, row) <==> AxisHolds(c.axes[0], c, row);
  }

  predicate AtOrBeyond(c: Cursor, row: Record) {
    Beyond(c.axes, c.forward, row) || At(c.axes, row)
  }

  /** Taken alone the inclusive filter is too weak: it is right on a row exactly when the
      row does not share the first axis value while coming before on the others. */
  lemma InclusiveFilterIsExactIff(c: Cursor, row: Record)
    requires c.axes != [] && c.inclusive && Comparable(c, row)
    ensures (Holds(Disjuncts(c, |c.axes|), row) <==> AtOrBeyond(c, row)) <==>
            !(OnAxis(c.axes[0], row) && !AtOrBeyond(c.(axes := c.axes[1..]), row))
  {
    InclusiveFilterCollapses(c, row);
    assert c.axes == [c.axes[0]] + c.axes[1..];
    CompareAxisMeans(c, 0, row);
    LessIsWeakOrder();
  }
}
