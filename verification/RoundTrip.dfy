/** Storing an entity and loading it again gives the same object tree. */
module RoundTrip {
  import opened Values
  import opened JsonFilter
  import opened EntityStore
  import opened EntityLoad
  import opened PlanShape

  // ---------- running the statements ----------

  /** The primary key that a statement writes. */
  function KeyOf(s: Statement): Value {
    ColumnOf(BoundRow(s.columns, s.args), s.idName)
  }

  /** INSERT ... ON CONFLICT DO UPDATE: a row that is there keeps the columns not mentioned. */
  function Upsert(db: Tables, s: Statement): Tables {
    var key := KeyOf(s);
    if !key.Str? then db
    else
      var rows := if s.table in db then db[s.table] else map[];
      db[s.table := rows[key.s := RowOf(db, s.table, key) + BoundRow(s.columns, s.args)]]
  }

  function RunAll(db: Tables, stmts: seq<Statement>): Tables
    decreases |stmts|
  {
    if stmts == [] then db else RunAll(Upsert(db, stmts[0]), stmts[1..])
  }

  predicate HasRow(db: Tables, table: Ident, key: Value) {
    key.Str? && table in db && key.s in db[table]
  }

  /** The ids are new in their tables and differ from one another. */
  ghost predicate FreshIds(stmts: seq<Statement>, db: Tables) {
    && (forall s | s in stmts :: KeyOf(s).Str? && !HasRow(db, s.table, KeyOf(s)))
    && forall i, j :: 0 <= i < j < |stmts| ==> !(stmts[i].table == stmts[j].table && KeyOf(stmts[i]) == KeyOf(stmts[j]))
  }

  /** Running statements does not touch the rows of other ids. */
  lemma {:induction false} OtherRowsUnchanged(db: Tables, stmts: seq<Statement>, table: Ident, key: Value)
    requires forall s | s in stmts :: !(s.table == table && KeyOf(s) == key)
    ensures RowOf(RunAll(db, stmts), table, key) == RowOf(db, table, key)
    ensures HasRow(RunAll(db, stmts), table, key) == HasRow(db, table, key)
    decreases |stmts|
  {
    if stmts != [] {
      assert stmts[0] in stmts;
      OtherRowsUnchanged(Upsert(db, stmts[0]), stmts[1..], table, key);
    }
  }

  lemma StillFresh(db: Tables, stmts: seq<Statement>)
    requires stmts != [] && FreshIds(stmts, db)
    ensures FreshIds(stmts[1..], Upsert(db, stmts[0]))
    ensures forall s | s in stmts[1..] :: !(s.table == stmts[0].table && KeyOf(s) == KeyOf(stmts[0]))
    ensures var first := stmts[0];
            RowOf(Upsert(db, first), first.table, KeyOf(first)) == BoundRow(first.columns, first.args)
  {
    var first, rest := stmts[0], stmts[1..];
    assert first in stmts;
    assert RowOf(db, first.table, KeyOf(first)) == map[];
    forall s | s in rest ensures !(s.table == first.table && KeyOf(s) == KeyOf(first)) && s in stmts {
      var i :| 0 <= i < |rest| && rest[i] == s;
      assert stmts[i + 1] == s;
    }
  }

  /** Each statement on a fresh id leaves exactly its row. */
  lemma {:induction false} EachRowIsStored(db: Tables, stmts: seq<Statement>)
    requires FreshIds(stmts, db)
    ensures forall s | s in stmts :: RowOf(RunAll(db, stmts), s.table, KeyOf(s)) == BoundRow(s.columns, s.args)
    decreases |stmts|
  {
    if stmts != [] {
      var first, rest := stmts[0], stmts[1..];
      assert first in stmts;
      var db' := Upsert(db, first);
      StillFresh(db, stmts);
      EachRowIsStored(db', rest);
      OtherRowsUnchanged(db', rest, first.table, KeyOf(first));
      forall s | s in stmts ensures RowOf(RunAll(db, stmts), s.table, KeyOf(s)) == BoundRow(s.columns, s.args) {
        assert s == first || s in rest;
      }
    }
  }

  // ---------- what insertion stores ----------

  /** The tables hold the row of the entity at `path` and of all entities below it. */
  ghost predicate StoredTree(ty: ObjectType, m: Record, path: Path, ids: IdSource, db: Tables)
    decreases ty
  {
    && (ID in m ==> m[ID].Str?)
    && RowOf(db, ty.table, Str(NodeId(m, path, ids))) == WantedRow(ty.fields, m, DeepValue(m, path, ids))
    && forall i :: 0 <= i < |ty.fields| ==> StoredField(ty.fields[i], m, path, ids, db)
  }

  ghost predicate StoredField(f: Field, m: Record, path: Path, ids: IdSource, db: Tables)
    decreases f
  {
    && Storable(f, m)
    && (f.kind.EntityKind? && IsGiven(f, m) ==> StoredTree(f.kind.ty, m[f.name].fields, path + [f.name], ids, db))
  }

  lemma {:induction false} InsertsGrow(fields: seq<Field>, m: Record, path: Path, ids: IdSource, g: Gathered)
    requires GatherFields(fields, m, path, ids, g).Ok?
    ensures g.inserts <= GatherFields(fields, m, path, ids, g).value.inserts
  {
    if fields != [] {
      InsertsGrow(fields[1..], m, path, ids, GatherField(fields[0], m, path, ids, g).value);
    }
  }

  ghost predicate HoldsRowsOf(db: Tables, stmts: seq<Statement>) {
    forall s | s in stmts :: RowOf(db, s.table, KeyOf(s)) == BoundRow(s.columns, s.args)
  }

  lemma {:induction false} FieldsAreStored(fields: seq<Field>, m: Record, path: Path, ids: IdSource, g: Gathered,
                                           db: Tables)
    requires forall i :: 0 <= i < |fields| ==> fields[i] == ID_FIELD || WellFormedField(fields[i])
    requires GatherFields(fields, m, path, ids, g).Ok?
    requires HoldsRowsOf(db, GatherFields(fields, m, path, ids, g).value.inserts)
    ensures forall i :: 0 <= i < |fields| ==> StoredField(fields[i], m, path, ids, db)
    decreases fields
  {
    if fields != [] {
      var f, rest := fields[0], fields[1..];
      var g' := GatherField(f, m, path, ids, g).value;
      InsertsGrow(rest, m, path, ids, g');
      FieldsAreStored(rest, m, path, ids, g', db);
      if f.kind.EntityKind? && IsGiven(f, m) {
        var stored := PrepareInsertion(f.kind.ty, m[f.name].fields, path + [f.name], ids).value.0;
        assert forall s | s in stored :: s in g'.inserts;
        TreeIsStored(f.kind.ty, m[f.name].fields, path + [f.name], ids, db);
      }
      forall i | 0 <= i < |fields| ensures StoredField(fields[i], m, path, ids, db) {
        assert i > 0 ==> fields[i] == rest[i - 1];
      }
    }
  }

  lemma {:induction false} TreeIsStored(ty: ObjectType, m: Record, path: Path, ids: IdSource, db: Tables)
    requires WellFormed(ty) && PrepareInsertion(ty, m, path, ids).Ok?
    requires HoldsRowsOf(db, PrepareInsertion(ty, m, path, ids).value.0)
    ensures StoredTree(ty, m, path, ids, db)
    decreases ty
  {
    var inserts := PrepareInsertion(ty, m, path, ids).value.0;
    var own := inserts[|inserts| - 1];
    DeepPlaceholders(ty, m, path, ids);
    assert own in inserts;
    FieldsAreStored(ty.fields, m, path, ids, Gathered([], [], None, map[]), db);
    assert StoredField(ty.fields[0], m, path, ids, db);
    OwnKey(ty, m, path, ids);
  }

  /** An entity's statement writes the row of its own id. */
  lemma OwnKey(ty: ObjectType, m: Record, path: Path, ids: IdSource)
    requires WellFormed(ty) && PrepareInsertion(ty, m, path, ids).Ok? && (ID in m ==> m[ID].Str?)
    ensures var inserts := PrepareInsertion(ty, m, path, ids).value.0;
            inserts != [] && KeyOf(inserts[|inserts| - 1]) == Str(NodeId(m, path, ids))
  {
    DeepPlaceholders(ty, m, path, ids);
    OnlyOneId(ty.fields[1..], m, Some(ID));
    WantedColumn(ty.fields, m, DeepValue(m, path, ids), 0);
  }

  /** A stored row has its field's value in each column. */
  lemma {:induction false} WantedColumn(fields: seq<Field>, m: Record, value: Field -> Value, i: nat)
    requires UniqueNames(fields) && i < |fields|
    ensures ColumnOf(WantedRow(fields, m, value), fields[i].name) ==
            if SkipsColumn(fields[i], m) then Null else value(fields[i])
    decreases fields
  {
    if i > 0 {
      WantedColumn(fields[1..], m, value, i - 1);
    } else {
      NoSuchColumn(fields[1..], m, value, fields[0].name);
    }
  }

  lemma {:induction false} NoSuchColumn(fields: seq<Field>, m: Record, value: Field -> Value, name: string)
    requires forall i :: 0 <= i < |fields| ==> fields[i].name != name
    ensures name !in WantedRow(fields, m, value)
    decreases fields
  {
    if fields != [] {
      NoSuchColumn(fields[1..], m, value, name);
    }
  }

  /** The entities of a tree, each by its table and id, nested ones first. */
  function Nodes(ty: ObjectType, m: Record, path: Path, ids: IdSource): seq<(Ident, Value)>
    decreases ty, 1
  {
    NodesBelow(ty.fields, m, path, ids) + [(ty.table, Str(NodeId(m, path, ids)))]
  }

  function NodesBelow(fields: seq<Field>, m: Record, path: Path, ids: IdSource): seq<(Ident, Value)>
    decreases fields, 0
  {
    if fields == [] then []
    else if IsNested(fields[0], m) then
      Nodes(fields[0].kind.ty, m[fields[0].name].fields, path + [fields[0].name], ids)
      + NodesBelow(fields[1..], m, path, ids)
    else NodesBelow(fields[1..], m, path, ids)
  }

  /** The rows that statements write. */
  function Targets(stmts: seq<Statement>): seq<(Ident, Value)> {
    if stmts == [] then [] else [(stmts[0].table, KeyOf(stmts[0]))] + Targets(stmts[1..])
  }

  lemma {:induction false} TargetsAppend(stmts: seq<Statement>, more: seq<Statement>)
    ensures Targets(stmts + more) == Targets(stmts) + Targets(more)
  {
    if stmts == [] {
      assert stmts + more == more;
    } else {
      assert (stmts + more)[1..] == stmts[1..] + more;
      TargetsAppend(stmts[1..], more);
    }
  }

  /** Insertion writes one row for each entity of the tree, nested entities first, and no other. */
  lemma {:induction false} StatementsFollowTree(ty: ObjectType, m: Record, path: Path, ids: IdSource)
    requires WellFormed(ty) && PrepareInsertion(ty, m, path, ids).Ok?
    ensures Targets(PrepareInsertion(ty, m, path, ids).value.0) == Nodes(ty, m, path, ids)
    decreases ty
  {
    var start := Gathered([], [], None, map[]);
    StatementsFollowFields(ty.fields, m, path, ids, start);
    InsertionSucceedsIff(ty, m, path, ids);
    assert IsInsertableField(ty.fields[0], m);
    OwnKey(ty, m, path, ids);
    var stmts := PrepareInsertion(ty, m, path, ids).value.0;
    var own, below := stmts[|stmts| - 1], GatherFields(ty.fields, m, path, ids, start).value.inserts;
    DeepPlaceholders(ty, m, path, ids);
    assert stmts == below + [own];
    TargetsAppend(below, [own]);
    assert Targets([own]) == [(own.table, KeyOf(own))] + Targets([]);
  }

  lemma {:induction false} StatementsFollowFields(fields: seq<Field>, m: Record, path: Path, ids: IdSource, g: Gathered)
    requires forall i :: 0 <= i < |fields| ==> fields[i] == ID_FIELD || WellFormedField(fields[i])
    requires GatherFields(fields, m, path, ids, g).Ok?
    ensures Targets(GatherFields(fields, m, path, ids, g).value.inserts) ==
            Targets(g.inserts) + NodesBelow(fields, m, path, ids)
    decreases fields
  {
    if fields != [] {
      var f := fields[0];
      var g' := GatherField(f, m, path, ids, g).value;
      GatheredNested(f, m, path, ids, g);
      StatementsFollowFields(fields[1..], m, path, ids, g');
      if IsNested(f, m) {
        var (nested, below) := (m[f.name].fields, path + [f.name]);
        StatementsFollowTree(f.kind.ty, nested, below, ids);
        TargetsAppend(g.inserts, PrepareInsertion(f.kind.ty, nested, below, ids).value.0);
      }
    }
  }

  // ---------- the tree that comes back ----------

  /** The stored tree: ids are filled in, a missing scalar is completed by its default, and an
      optional field without one is left out. */
  function Completed(ty: ObjectType, m: Record, path: Path, ids: IdSource): Record
    decreases ty, 1
  {
    CompletedFields(ty.fields, m, path, ids, map[])
  }

  function CompletedFields(fields: seq<Field>, m: Record, path: Path, ids: IdSource, acc: Record): Record
    decreases fields, 0
  {
    if fields == [] then acc
    else match CompletedField(fields[0], m, path, ids)
      case None => CompletedFields(fields[1..], m, path, ids, acc)
      case Some(v) => CompletedFields(fields[1..], m, path, ids, acc[fields[0].name := v])
  }

  function CompletedField(f: Field, m: Record, path: Path, ids: IdSource): Option<Value>
    decreases f, 2
  {
    match f.kind
    case IdKind => Some(Str(NodeId(m, path, ids)))
    case ScalarKind(_) => if IsGiven(f, m) then Some(m[f.name]) else f.default
    case EntityKind(ty) =>
      if IsGiven(f, m) && m[f.name].Entity? then Some(Entity(Completed(ty, m[f.name].fields, path + [f.name], ids)))
      else None
  }

  /** The completed tree has exactly the completed fields. */
  lemma {:induction false} CompletedHas(fields: seq<Field>, m: Record, path: Path, ids: IdSource, acc: Record)
    requires UniqueNames(fields) && forall i :: 0 <= i < |fields| ==> fields[i].name !in acc
    ensures var r := CompletedFields(fields, m, path, ids, acc);
            && (forall n | n in acc :: n in r && r[n] == acc[n])
            && (forall n | n in r && n !in acc :: exists i :: 0 <= i < |fields| && fields[i].name == n)
            && forall i :: 0 <= i < |fields| ==>
                 CompletedField(fields[i], m, path, ids) ==
                 if fields[i].name in r then Some(r[fields[i].name]) else None
    decreases fields
  {
    if fields != [] {
      var f, rest := fields[0], fields[1..];
      var acc' := match CompletedField(f, m, path, ids) case None => acc case Some(v) => acc[f.name := v];
      forall i | 0 <= i < |rest| ensures rest[i].name !in acc' && rest[i].name != f.name && rest[i] == fields[i + 1] {}
      CompletedHas(rest, m, path, ids, acc');
      var r := CompletedFields(fields, m, path, ids, acc);
      forall n | n in r && n !in acc ensures exists i :: 0 <= i < |fields| && fields[i].name == n {
        if n in acc' {
          assert fields[0].name == n;
        } else {
          var i :| 0 <= i < |rest| && rest[i].name == n;
          assert fields[i + 1].name == n;
        }
      }
      assert f.name in r ==> f.name in acc';
      forall i | 0 < i < |fields|
        ensures CompletedField(fields[i], m, path, ids) == if fields[i].name in r then Some(r[fields[i].name]) else None
      {
        assert fields[i] == rest[i - 1];
      }
    }
  }

  /** Nothing is missing from `m`: its fields are those of the type, none of them null. */
  ghost predicate IsFull(ty: ObjectType, m: Record)
    decreases ty
  {
    && (forall n | n in m :: exists i :: 0 <= i < |ty.fields| && ty.fields[i].name == n)
    && (forall i :: 0 <= i < |ty.fields| ==> IsFullField(ty.fields[i], m))
  }

  ghost predicate IsFullField(f: Field, m: Record)
    decreases f
  {
    IsGiven(f, m) &&
    match f.kind
    case IdKind => m[f.name].Str?
    case ScalarKind(_) => true
    case EntityKind(ty) => m[f.name].Entity? && IsFull(ty, m[f.name].fields)
  }

  /** A full tree is completed to itself. */
  lemma {:induction false} CompletedFull(ty: ObjectType, m: Record, path: Path, ids: IdSource)
    requires WellFormed(ty) && IsFull(ty, m)
    ensures Completed(ty, m, path, ids) == m
    decreases ty
  {
    forall i | 0 <= i < |ty.fields| ensures CompletedField(ty.fields[i], m, path, ids) == Some(m[ty.fields[i].name]) {
      var f := ty.fields[i];
      assert IsFullField(f, m);
      if f.kind.EntityKind? {
        CompletedFull(f.kind.ty, m[f.name].fields, path + [f.name], ids);
      } else if f.kind.IdKind? {
        assert i == 0;
      }
    }
    CompletedHas(ty.fields, m, path, ids, map[]);
    assert forall i :: 0 <= i < |ty.fields| ==> IsFullField(ty.fields[i], m);
    SameRecord(ty, m, Completed(ty, m, path, ids));
  }

  lemma SameRecord(ty: ObjectType, m: Record, r: Record)
    requires IsFull(ty, m) && forall i :: 0 <= i < |ty.fields| ==> ty.fields[i].name in m
    requires forall n | n in r :: exists i :: 0 <= i < |ty.fields| && ty.fields[i].name == n
    requires forall i :: 0 <= i < |ty.fields| ==> ty.fields[i].name in r && r[ty.fields[i].name] == m[ty.fields[i].name]
    ensures r == m
  {
    forall n | n in r ensures n in m && r[n] == m[n] {
      var i :| 0 <= i < |ty.fields| && ty.fields[i].name == n;
    }
    forall n | n in m ensures n in r {
      var i :| 0 <= i < |ty.fields| && ty.fields[i].name == n;
    }
  }

  // ---------- decoding ----------

  ghost predicate Within(part: Env, env: Env) {
    forall a | a in part :: a in env && env[a] == part[a]
  }

  lemma {:induction false} JoinKeys(joins: seq<Join>, row: Record, db: Tables)
    ensures JoinAll(joins, row, db).Keys == AliasesOfJoins(joins)
    decreases joins
  {
    if joins != [] {
      var e := joins[0].entity;
      JoinKeys(joins[1..], row, db);
      JoinKeys(e.joins, RowOf(db, e.table, ColumnOf(row, joins[0].field)), db);
    }
  }

  /** With distinct aliases each part of a join is still there in the whole. */
  lemma JoinParts(joins: seq<Join>, row: Record, db: Tables, env: Env)
    requires joins != [] && NoClashes(joins) && Within(JoinAll(joins, row, db), env)
    ensures var e := joins[0].entity;
            var nested := RowOf(db, e.table, ColumnOf(row, joins[0].field));
            && Within(JoinAll(joins[1..], row, db), env)
            && Within(JoinAll(e.joins, nested, db), env)
            && e.alias in env && env[e.alias] == nested
  {
    var e := joins[0].entity;
    var nested := RowOf(db, e.table, ColumnOf(row, joins[0].field));
    var all, rest, first := JoinAll(joins, row, db), JoinAll(joins[1..], row, db), JoinRows(e, nested, db);
    JoinKeys(joins[1..], row, db);
    JoinKeys(e.joins, nested, db);
    assert all == rest + first;
    assert first.Keys == AliasesOf(e);
    assert NoClash(e);
    forall a | a in rest ensures a in env && env[a] == rest[a] {
      assert a in AliasesOfJoins(joins[1..]);
      assert a in all && all[a] == rest[a];
    }
    forall a | a in first ensures a in env && env[a] == first[a] {
      assert a in all && all[a] == first[a];
    }
    assert first[e.alias] == nested;
    forall a | a in JoinAll(e.joins, nested, db) ensures a in env && env[a] == JoinAll(e.joins, nested, db)[a] {
      assert a in first && first[a] == JoinAll(e.joins, nested, db)[a];
    }
  }

  /** The row behind an alias holds each field's value. */
  ghost predicate RowHolds(fields: seq<Field>, row: Record, m: Record, path: Path, ids: IdSource) {
    forall i :: 0 <= i < |fields| ==> ColumnOf(row, fields[i].name) == ColumnValue(fields[i], m, path, ids)
  }

  lemma StoredRowHolds(ty: ObjectType, m: Record, path: Path, ids: IdSource)
    requires WellFormed(ty)
    ensures RowHolds(ty.fields, WantedRow(ty.fields, m, DeepValue(m, path, ids)), m, path, ids)
  {
    forall i | 0 <= i < |ty.fields|
      ensures ColumnOf(WantedRow(ty.fields, m, DeepValue(m, path, ids)), ty.fields[i].name) ==
              ColumnValue(ty.fields[i], m, path, ids)
    {
      WantedColumn(ty.fields, m, DeepValue(m, path, ids), i);
    }
  }

  lemma {:induction false} DecodesTree(fields: seq<Field>, q: seq<QueryField>, alias: Ident, joins: seq<Join>,
                                       m: Record, path: Path, ids: IdSource,
                                       columns: seq<Column>, env: Env, db: Tables, acc: Record)
    requires forall i :: 0 <= i < |fields| ==> fields[i] == ID_FIELD || WellFormedField(fields[i])
    requires forall i :: 0 <= i < |fields| ==> StoredField(fields[i], m, path, ids, db)
    requires PointHome(fields, q, alias, joins, columns) && NoClashes(joins)
    requires alias in env && RowHolds(fields, env[alias], m, path, ids) && Within(JoinAll(joins, env[alias], db), env)
    ensures DecodeFields(q, SelectColumns(columns, env), acc) == Ok(CompletedFields(fields, m, path, ids, acc))
    decreases fields
  {
    if fields != [] {
      var f, cells := fields[0], SelectColumns(columns, env);
      assert StoredField(f, m, path, ids, db);
      var acc' := match CompletedField(f, m, path, ids) case None => acc case Some(v) => acc[f.name := v];
      if f.kind.EntityKind? {
        JoinParts(joins, env[alias], db, env);
        DecodesEntity(f, q[0], env[alias], joins[0].entity, m, path, ids, columns, env, db);
        DecodesTree(fields[1..], q[1..], alias, joins[1..], m, path, ids, columns, env, db, acc');
      } else {
        DecodesScalar(f, q[0], alias, m, path, ids, columns, env);
        DecodesTree(fields[1..], q[1..], alias, joins, m, path, ids, columns, env, db, acc');
      }
    }
  }

  lemma DecodesScalar(f: Field, q: QueryField, alias: Ident, m: Record, path: Path, ids: IdSource,
                      columns: seq<Column>, env: Env)
    requires (f == ID_FIELD || WellFormedField(f)) && !f.kind.EntityKind? && Storable(f, m)
    requires q.ScalarField? && q.optional == f.optional && q.column < |columns|
    requires columns[q.column] == Column(f.name, alias, f.default)
    requires alias in env && ColumnOf(env[alias], f.name) == ColumnValue(f, m, path, ids)
    ensures DecodeField(q, SelectColumns(columns, env)) == Ok(CompletedField(f, m, path, ids))
  {
    assert SelectColumns(columns, env)[q.column] == SelectColumn(columns[q.column], env);
  }

  lemma {:induction false} DecodesEntity(f: Field, q: QueryField, row: Record, e: QueriedEntity, m: Record,
                                         path: Path, ids: IdSource,
                                         columns: seq<Column>, env: Env, db: Tables)
    requires f.kind.EntityKind? && WellFormedField(f) && StoredField(f, m, path, ids, db)
    requires q == EntityField(f.name, f.optional, e.fields) && e.table == f.kind.ty.table
    requires PointHome(f.kind.ty.fields, q.fields, e.alias, e.joins, columns) && NoClashes(e.joins)
    requires ColumnOf(row, f.name) == ColumnValue(f, m, path, ids)
    requires e.alias in env && env[e.alias] == RowOf(db, e.table, ColumnOf(row, f.name))
    requires Within(JoinAll(e.joins, env[e.alias], db), env)
    ensures DecodeField(q, SelectColumns(columns, env)) == Ok(CompletedField(f, m, path, ids))
    decreases f, 0
  {
    var ty, cells := f.kind.ty, SelectColumns(columns, env);
    var id := IdColumn(q.fields).value;
    assert columns[id] == Column(ID, e.alias, None);
    assert cells[id] == SelectColumn(columns[id], env);
    if IsGiven(f, m) {
      var nested, below := m[f.name].fields, path + [f.name];
      assert StoredTree(ty, nested, below, ids, db);
      StoredRowHolds(ty, nested, below, ids);
      assert env[e.alias] == WantedRow(ty.fields, nested, DeepValue(nested, below, ids));
      DecodesTree(ty.fields, q.fields, e.alias, e.joins, nested, below, ids, columns, env, db, map[]);
      assert ColumnOf(env[e.alias], ty.fields[0].name) == ColumnValue(ty.fields[0], nested, below, ids);
    }
  }

  // ---------- the round trip ----------

  /** What the query that loads the entity with the given id returns. */
  function Load(ty: ObjectType, id: string, db: Tables): Result<Record> {
    var q := LoadEntity(ty, ty.table, START);
    var columns := PlanAfter(ty, ty.table, START).columns;
    RowToEntity(q.fields, SelectColumns(columns, JoinRows(q, RowOf(db, ty.table, Str(id)), db)))
  }

  /** Storing an entity with fresh ids and loading it by its id returns the completed tree. */
  lemma StoreThenLoad(ty: ObjectType, m: Record, ids: IdSource, db: Tables)
    requires WellFormed(ty) && GoodNames(ty) && (ty.table == [] || ty.table[0] != JOIN[0])
    requires PlanAfter(ty, ty.table, START).joinCounter <= USIZE_LIMIT
    requires PrepareInsertion(ty, m, [], ids).Ok? && FreshIds(PrepareInsertion(ty, m, [], ids).value.0, db)
    ensures var (stmts, tree) := PrepareInsertion(ty, m, [], ids).value;
            Load(ty, tree.id, RunAll(db, stmts)) == Ok(Completed(ty, m, [], ids))
  {
    var (stmts, tree) := PrepareInsertion(ty, m, [], ids).value;
    var db' := RunAll(db, stmts);
    EachRowIsStored(db, stmts);
    TreeIsStored(ty, m, [], ids, db');
    InsertionId(ty, m, [], ids);
    AliasesAreDistinct(ty);
    ColumnsPointHome(ty);
    StoredRowHolds(ty, m, [], ids);
    var q, row := LoadEntity(ty, ty.table, START), RowOf(db', ty.table, Str(tree.id));
    var env := JoinRows(q, row, db');
    JoinKeys(q.joins, row, db');
    DecodesTree(ty.fields, q.fields, ty.table, q.joins, m, [], ids, PlanAfter(ty, ty.table, START).columns, env, db',
      map[]);
  }

  /** In particular a tree given in full comes back unchanged. */
  lemma FullTreeSurvives(ty: ObjectType, m: Record, ids: IdSource, db: Tables)
    requires WellFormed(ty) && GoodNames(ty) && (ty.table == [] || ty.table[0] != JOIN[0])
    requires PlanAfter(ty, ty.table, START).joinCounter <= USIZE_LIMIT
    requires PrepareInsertion(ty, m, [], ids).Ok? && FreshIds(PrepareInsertion(ty, m, [], ids).value.0, db)
    requires IsFull(ty, m)
    ensures ID in m && m[ID].Str?
    ensures Load(ty, m[ID].s, RunAll(db, PrepareInsertion(ty, m, [], ids).value.0)) == Ok(m)
  {
    assert IsFullField(ty.fields[0], m);
    InsertionId(ty, m, [], ids);
    StoreThenLoad(ty, m, ids, db);
    CompletedFull(ty, m, [], ids);
  }
}
