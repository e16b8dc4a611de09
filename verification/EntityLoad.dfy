/** Loading an entity with its nested entities: the query plan (server/src/datastore/query.rs)
    lists the columns to select and the left joins to follow, and a result row is turned back
    into an object tree by column index (server/src/datastore/engine.rs). */
module EntityLoad {
  import opened Values
  import opened JsonFilter
  import opened EntityStore

  datatype Column = Column(name: string, table: Ident, default: Option<Value>)

  datatype QueryField =
    | ScalarField(name: string, optional: bool, column: nat)
    | EntityField(name: string, optional: bool, fields: seq<QueryField>)

  /** LEFT JOIN of `entity` on its id with the column `field` of the entity that holds it. */
  datatype Join = Join(field: string, entity: QueriedEntity)

  datatype QueriedEntity = QueriedEntity(table: Ident, fields: seq<QueryField>, alias: Ident, joins: seq<Join>)

  /** The builder's counters: columns selected and joins made so far. */
  datatype Plan = Plan(columns: seq<Column>, joinCounter: nat)

  // ---------- identifiers ----------

  const MAX_IDENTIFIER := 63

  predicate IsContinuation(b: Byte) { 0x80 <= b < 0xC0 }

  /** An index at which a character starts, or the end. */
  predicate IsCharBoundary(s: Ident, i: nat) {
    i == 0 || i == |s| || (i < |s| && !IsContinuation(s[i]))
  }

  /** The longest prefix of at most `max` bytes that ends on a character boundary. */
  method MaxPrefix(s: Ident, max: nat) returns (p: Ident)
    ensures p <= s && |p| <= max && IsCharBoundary(s, |p|)
    ensures forall i :: |p| < i <= max && i <= |s| ==> !IsCharBoundary(s, i)
    ensures p == Truncated(s, max)
  {
    if max >= |s| {
      TruncatedIsLongest(s, max);
      return s;
    }
    var idx: nat := max;
    while !IsCharBoundary(s, idx)
      invariant idx <= max
      invariant forall i :: idx < i <= max ==> !IsCharBoundary(s, i)
      invariant Truncated(s, max) == Truncated(s, idx)
      decreases idx
    {
      idx := idx - 1;
    }
    return s[..idx];
  }

  function Truncated(s: Ident, max: nat): Ident
    decreases max
  {
    if max >= |s| then s
    else if IsCharBoundary(s, max) then s[..max]
    else Truncated(s, max - 1)
  }

  lemma {:induction false} TruncatedIsLongest(s: Ident, max: nat)
    ensures Truncated(s, max) <= s && |Truncated(s, max)| <= max
    ensures IsCharBoundary(s, |Truncated(s, max)|)
    ensures forall i :: |Truncated(s, max)| < i <= max && i <= |s| ==> !IsCharBoundary(s, i)
    decreases max
  {
    if max < |s| && !IsCharBoundary(s, max) {
      TruncatedIsLongest(s, max - 1);
    }
  }

  function Digits(n: nat): Ident {
    if n < 10 then [(0x30 + n) as Byte] else Digits(n / 10) + [(0x30 + n % 10) as Byte]
  }

  const JOIN: Ident := [0x4A, 0x4F, 0x49, 0x4E]
  const TO: Ident := [0x5F, 0x54, 0x4F, 0x5F]
  const UNDERSCORE: Byte := 0x5F

  /** JOIN<k>_<type>_TO_<type>, cut to the length that Postgres allows. */
  function JoinAlias(k: nat, name: Ident): Ident {
    Truncated(JOIN + Digits(k) + [UNDERSCORE] + name + TO + name, MAX_IDENTIFIER)
  }

  // ---------- the query plan ----------

  function AddColumn(p: Plan, f: Field, alias: Ident): Plan {
    p.(columns := p.columns + [Column(f.name, alias, f.default)])
  }

  datatype Loaded = Loaded(fields: seq<QueryField>, joins: seq<Join>, plan: Plan)

  function LoadEntity(ty: ObjectType, alias: Ident, p: Plan): QueriedEntity
    decreases ty, 1
  {
    var l := LoadFields(ty.fields, alias, p);
    QueriedEntity(ty.table, l.fields, alias, l.joins)
  }

  function PlanAfter(ty: ObjectType, alias: Ident, p: Plan): Plan
    decreases ty, 1
  {
    LoadFields(ty.fields, alias, p).plan
  }

  function LoadFields(fields: seq<Field>, alias: Ident, p: Plan): Loaded
    decreases fields, 0
  {
    if fields == [] then Loaded([], [], p) else
      var f, p1 := fields[0], AddColumn(p, fields[0], alias);
      if f.kind.EntityKind? then
        var ty, table, p2 := f.kind.ty, JoinAlias(p.joinCounter, f.kind.ty.name), p1.(joinCounter := p.joinCounter + 1);
        var entity := LoadEntity(ty, table, p2);
        var l := LoadFields(fields[1..], alias, PlanAfter(ty, table, p2));
        Loaded([EntityField(f.name, f.optional, entity.fields)] + l.fields, [Join(f.name, entity)] + l.joins, l.plan)
      else
        var l := LoadFields(fields[1..], alias, p1);
        Loaded([ScalarField(f.name, f.optional, |p.columns|)] + l.fields, l.joins, l.plan)
  }

  class PlanBuilder {
    var columns: seq<Column>
    var joinCounter: nat

    constructor ()
      ensures columns == [] && joinCounter == 0
    {
      columns, joinCounter := [], 0;
    }

    function State(): Plan
      reads this
    {
      Plan(columns, joinCounter)
    }

    method MakeScalarField(f: Field, table: Ident) returns (q: QueryField)
      modifies this
      ensures q == ScalarField(f.name, f.optional, old(|columns|))
      ensures State() == AddColumn(old(State()), f, table)
    {
      q := ScalarField(f.name, f.optional, |columns|);
      columns := columns + [Column(f.name, table, f.default)];
    }

    method LoadEntityRecursive(ty: ObjectType, table: Ident) returns (entity: QueriedEntity)
      modifies this
      ensures entity == LoadEntity(ty, table, old(State()))
      ensures State() == PlanAfter(ty, table, old(State()))
      decreases ty
    {
      var fields: seq<QueryField> := [];
      var joins: seq<Join> := [];
      ghost var all := LoadFields(ty.fields, table, State());
      for i := 0 to |ty.fields|
        invariant var rest := LoadFields(ty.fields[i..], table, State());
                  all.fields == fields + rest.fields && all.joins == joins + rest.joins && all.plan == rest.plan
      {
        var f := ty.fields[i];
        ghost var before, rest := State(), ty.fields[i..];
        assert rest[0] == f && rest[1..] == ty.fields[i + 1..];
        var q: QueryField;
        if f.kind.EntityKind? {
          var nested := f.kind.ty;
          var nestedTable := MaxPrefix(JOIN + Digits(joinCounter) + [UNDERSCORE] + nested.name + TO + nested.name,
            MAX_IDENTIFIER);
          joinCounter := joinCounter + 1;
          var _ := MakeScalarField(f, table);
          var e := LoadEntityRecursive(nested, nestedTable);
          q := EntityField(f.name, f.optional, e.fields);
          LoadFieldsEntity(rest, table, before);
          ghost var tail := LoadFields(rest[1..], table, State());
          assert all.joins == joins + ([Join(f.name, e)] + tail.joins) && all.plan == tail.plan;
          assert all.fields == fields + ([q] + tail.fields);
          joins := joins + [Join(f.name, e)];
        } else {
          q := MakeScalarField(f, table);
          LoadFieldsScalar(rest, table, before);
          assert all.fields == fields + ([q] + LoadFields(rest[1..], table, State()).fields);
        }
        fields := fields + [q];
      }
      entity := QueriedEntity(ty.table, fields, table, joins);
    }
  }

  lemma LoadFieldsScalar(fields: seq<Field>, alias: Ident, p: Plan)
    requires fields != [] && !fields[0].kind.EntityKind?
    ensures var l, f := LoadFields(fields[1..], alias, AddColumn(p, fields[0], alias)), fields[0];
            LoadFields(fields, alias, p) ==
            Loaded([ScalarField(f.name, f.optional, |p.columns|)] + l.fields, l.joins, l.plan)
  {}

  lemma LoadFieldsEntity(fields: seq<Field>, alias: Ident, p: Plan)
    requires fields != [] && fields[0].kind.EntityKind?
    ensures var f := fields[0];
            var ty, table := f.kind.ty, JoinAlias(p.joinCounter, f.kind.ty.name);
            var p2 := AddColumn(p, f, alias).(joinCounter := p.joinCounter + 1);
            var entity := LoadEntity(ty, table, p2);
            var l := LoadFields(fields[1..], alias, PlanAfter(ty, table, p2));
            LoadFields(fields, alias, p) ==
            Loaded([EntityField(f.name, f.optional, entity.fields)] + l.fields, [Join(f.name, entity)] + l.joins,
              l.plan)
  {}

  // ---------- running the query ----------

  /** A stored row; a column it does not mention is NULL. */
  type Tables = map<Ident, map<string, Record>>

  function ColumnOf(row: Record, name: string): Value {
    if name in row then row[name] else Null
  }

  function RowOf(db: Tables, table: Ident, id: Value): Record {
    if id.Str? && table in db && id.s in db[table] then db[table][id.s] else map[]
  }

  /** The row that each alias stands for, all NULL where a left join finds nothing. */
  type Env = map<Ident, Record>

  function JoinRows(q: QueriedEntity, row: Record, db: Tables): Env
    decreases q, 1
  {
    JoinAll(q.joins, row, db)[q.alias := row]
  }

  function JoinAll(joins: seq<Join>, row: Record, db: Tables): Env
    decreases joins, 0
  {
    if joins == [] then map[]
    else
      var j := joins[0];
      JoinAll(joins[1..], row, db) + JoinRows(j.entity, RowOf(db, j.entity.table, ColumnOf(row, j.field)), db)
  }

  /** One selected column, with its default where it is NULL. */
  function SelectColumn(c: Column, env: Env): Value {
    var v := if c.table in env then ColumnOf(env[c.table], c.name) else Null;
    if v.Null? && c.default.Some? then c.default.value else v
  }

  function SelectColumns(columns: seq<Column>, env: Env): (r: seq<Value>)
    ensures |r| == |columns| && forall i :: 0 <= i < |columns| ==> r[i] == SelectColumn(columns[i], env)
  {
    seq(|columns|, i requires 0 <= i < |columns| => SelectColumn(columns[i], env))
  }

  function CellIsNull(cells: seq<Value>, column: nat): bool {
    column >= |cells| || cells[column].Null?
  }

  /** The column of the field named id. */
  function IdColumn(fields: seq<QueryField>): Option<nat> {
    if fields == [] then None
    else if fields[0].ScalarField? && fields[0].name == ID then Some(fields[0].column)
    else IdColumn(fields[1..])
  }

  function RowToEntity(fields: seq<QueryField>, cells: seq<Value>): Result<Record>
    decreases fields, 1
  {
    DecodeFields(fields, cells, map[])
  }

  function DecodeFields(fields: seq<QueryField>, cells: seq<Value>, acc: Record): Result<Record>
    decreases fields, 0
  {
    if fields == [] then Ok(acc) else
      match DecodeField(fields[0], cells)
      case Err(e) => Err(e)
      case Ok(None) => DecodeFields(fields[1..], cells, acc)
      case Ok(Some(v)) => DecodeFields(fields[1..], cells, acc[fields[0].name := v])
  }

  /** The field's value, or None to leave the field out. */
  function DecodeField(f: QueryField, cells: seq<Value>): Result<Option<Value>>
    decreases f, 2
  {
    match f
    case ScalarField(_, optional, column) =>
      if optional && CellIsNull(cells, column) then Ok(None)
      else if CellIsNull(cells, column) then Err("unexpected NULL")
      else Ok(Some(cells[column]))
    case EntityField(_, optional, fields) =>
      var id := IdColumn(fields);
      if id.None? then Err("No id field among Entity children")
      else if optional && CellIsNull(cells, id.value) then Ok(None)
      else
        match RowToEntity(fields, cells)
        case Err(e) => Err(e)
        case Ok(m) => Ok(Some(Entity(m)))
  }

  method RowToEntityValue(fields: seq<QueryField>, cells: seq<Value>) returns (r: Result<Record>)
    ensures r == RowToEntity(fields, cells)
    decreases fields
  {
    var ret: Record := map[];
    for i := 0 to |fields|
      invariant RowToEntity(fields, cells) == DecodeFields(fields[i..], cells, ret)
    {
      var f := fields[i];
      assert fields[i..][0] == f && fields[i..][1..] == fields[i + 1..];
      match f
      case ScalarField(name, optional, column) =>
        if optional && CellIsNull(cells, column) {
          continue;
        }
        if CellIsNull(cells, column) {
          return Err("unexpected NULL");
        }
        ret := ret[name := cells[column]];
      case EntityField(name, optional, nested) =>
        var id := IdColumn(nested);
        if id.None? {
          return Err("No id field among Entity children");
        }
        if optional && CellIsNull(cells, id.value) {
          continue;
        }
        var m := RowToEntityValue(nested, cells);
        if m.Err? {
          return m;
        }
        ret := ret[name := Entity(m.value)];
    }
    return Ok(ret);
  }
}
