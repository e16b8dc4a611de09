/** Storing an entity (server/src/datastore/engine.rs): an object tree becomes one upsert
    statement per entity, nested entities first, with numbered placeholders for the values. */
module EntityStore {
  import opened Values
  import opened JsonFilter

  newtype Byte = x: int | 0 <= x < 256

  /** An identifier as the bytes of its UTF-8 encoding. */
  type Ident = seq<Byte>

  datatype FieldKind = IdKind | ScalarKind(kind: Kind) | EntityKind(ty: ObjectType)

  datatype Field = Field(name: string, kind: FieldKind, optional: bool, default: Option<Value>)

  /** `fields` are all fields, the id first. */
  datatype ObjectType = ObjectType(name: Ident, table: Ident, fields: seq<Field>)

  /** Where in the object tree an entity sits: the field names that lead to it. */
  type Path = seq<string>

  /** The fresh id that is generated for an entity without one. */
  type IdSource = Path -> string

  datatype Bind = NullBind | Dollar(k: nat)

  datatype BoundColumn = BoundColumn(name: string, bind: Bind)

  /** INSERT ... ON CONFLICT (idName) DO UPDATE, with its arguments. */
  datatype Statement = Statement(table: Ident, columns: seq<BoundColumn>, idName: string, args: seq<Value>)

  datatype IdTree = IdTree(id: string, children: map<string, IdTree>)

  const ID := "id"

  const ID_FIELD := Field(ID, IdKind, false, None)

  ghost predicate UniqueNames(fields: seq<Field>) {
    forall i, j :: 0 <= i < j < |fields| ==> fields[i].name != fields[j].name
  }

  /** The id first, then user fields with names of their own; defaults have the type of
      their field. */
  ghost predicate WellFormed(ty: ObjectType) {
    && ty.fields != [] && ty.fields[0] == ID_FIELD
    && UniqueNames(ty.fields)
    && forall i :: 0 < i < |ty.fields| ==> WellFormedField(ty.fields[i])
  }

  ghost predicate WellFormedField(f: Field) {
    match f.kind
    case IdKind => false
    case ScalarKind(k) => f.default.Some? ==> KindOf(f.default.value, k)
    case EntityKind(ty) => f.default.None? && WellFormed(ty)
  }

  predicate IsAbsent(f: Field, m: Record) { f.name !in m }
  predicate IsNull(f: Field, m: Record) { f.name in m && m[f.name].Null? }

  // ---------- arguments ----------

  /** A field's value as an SQL argument, generated or defaulted when it is missing. */
  function ConvertToArgument(f: Field, m: Record, path: Path, ids: IdSource): Result<Value> {
    match f.kind
    case IdKind =>
      if f.name in m then (if m[f.name].Str? then Ok(m[f.name]) else Err("failed to convert value"))
      else Ok(Str(ids(path)))
    case ScalarKind(k) =>
      if f.name in m then (if KindOf(m[f.name], k) then Ok(m[f.name]) else Err("failed to convert value"))
      else if f.default.Some? && KindOf(f.default.value, k) then Ok(f.default.value)
      else Err("failed to generate value")
    case EntityKind(_) =>
      if f.name in m then (if m[f.name].Str? then Ok(m[f.name]) else Err("failed to convert value"))
      else if f.default.Some? && f.default.value.Str? then Ok(f.default.value)
      else Err("failed to generate value")
  }

  /** What the loop over the fields has gathered so far. */
  datatype Gathered = Gathered(args: seq<Value>, inserts: seq<Statement>, id: Option<string>,
                               children: map<string, IdTree>)

  function Nested(f: Field, m: Record): Result<Record> {
    if f.name !in m then Err("json object doesn't have required field")
    else if m[f.name].Entity? then Ok(m[f.name].fields)
    else Err("unexpected json type (expected an object)")
  }

  function PrepareInsertion(ty: ObjectType, m: Record, path: Path, ids: IdSource): Result<(seq<Statement>, IdTree)>
    decreases ty, 1
  {
    match GatherFields(ty.fields, m, path, ids, Gathered([], [], None, map[]))
    case Err(e) => Err(e)
    case Ok(g) =>
      match MakeInsertQuery(ty, m)
      case Err(e) => Err(e)
      case Ok(stmt) =>
        if g.id.None? then Err("attempting to insert an object with no id")
        else Ok((g.inserts + [stmt.(args := g.args)], IdTree(g.id.value, g.children)))
  }

  function GatherFields(fields: seq<Field>, m: Record, path: Path, ids: IdSource, g: Gathered): Result<Gathered>
    decreases fields, 1
  {
    if fields == [] then Ok(g) else
      match GatherField(fields[0], m, path, ids, g)
      case Err(e) => Err(e)
      case Ok(g') => GatherFields(fields[1..], m, path, ids, g')
  }

  function GatherField(f: Field, m: Record, path: Path, ids: IdSource, g: Gathered): Result<Gathered>
    decreases f, 0
  {
    if (IsAbsent(f, m) || IsNull(f, m)) && f.optional then Ok(g)
    else if f.kind.EntityKind? then
      match Nested(f, m)
      case Err(e) => Err(e)
      case Ok(value) =>
        match PrepareInsertion(f.kind.ty, value, path + [f.name], ids)
        case Err(e) => Err(e)
        case Ok((inserts, tree)) =>
          Ok(AddArgument(f, Str(tree.id), g.(inserts := g.inserts + inserts, children := g.children[f.name := tree])))
    else
      match ConvertToArgument(f, m, path, ids)
      case Err(e) => Err(e)
      case Ok(arg) =>
        if f.name == ID && !arg.Str? then Err("the id value is not string") else Ok(AddArgument(f, arg, g))
  }

  function AddArgument(f: Field, arg: Value, g: Gathered): Gathered {
    g.(args := g.args + [arg], id := if f.name == ID && arg.Str? then Some(arg.s) else g.id)
  }

  // ---------- the statement ----------

  predicate SkipsColumn(f: Field, m: Record) { IsAbsent(f, m) && f.optional }

  /** Columns and placeholders for `fields`, of which `used` placeholders exist already. */
  function MakeBinds(fields: seq<Field>, m: Record, used: nat): seq<BoundColumn> {
    if fields == [] then []
    else if SkipsColumn(fields[0], m) then MakeBinds(fields[1..], m, used)
    else if fields[0].optional && IsNull(fields[0], m) then
      [BoundColumn(fields[0].name, NullBind)] + MakeBinds(fields[1..], m, used)
    else [BoundColumn(fields[0].name, Dollar(used + 1))] + MakeBinds(fields[1..], m, used + 1)
  }

  /** The name of the id column among `fields`, after `idName` was found (empty for none): a
      given id must be a string, and there is at most one. */
  function FindId(fields: seq<Field>, m: Record, idName: Option<string>): Result<Option<string>>
    decreases |fields|
  {
    if fields == [] then Ok(idName)
    else if SkipsColumn(fields[0], m) || !fields[0].kind.IdKind? then FindId(fields[1..], m, idName)
    else if fields[0].name in m && !m[fields[0].name].Str? then Err("invalid ID: It is not a string")
    else if idName.Some? then Err("More than one ID??")
    else FindId(fields[1..], m, Some(fields[0].name))
  }

  predicate HasColumn(columns: seq<BoundColumn>, name: string) {
    exists c :: c in columns && c.name == name
  }

  function MakeInsertQuery(ty: ObjectType, m: Record): Result<Statement> {
    var columns := MakeBinds(ty.fields, m, 0);
    match FindId(ty.fields, m, None)
    case Err(e) => Err(e)
    case Ok(id) =>
      if exists v :: v in m && !HasColumn(columns, v) then Err("field not present")
      else Ok(Statement(ty.table, columns, if id.Some? then id.value else "", []))
  }

  function PrepareShallow(ty: ObjectType, m: Record, ids: IdSource): Result<Statement> {
    match ShallowArguments(ty.fields, m, ids, [])
    case Err(e) => Err(e)
    case Ok(args) =>
      match MakeInsertQuery(ty, m)
      case Err(e) => Err(e)
      case Ok(stmt) => Ok(stmt.(args := args))
  }

  function ShallowArguments(fields: seq<Field>, m: Record, ids: IdSource, acc: seq<Value>): Result<seq<Value>>
    decreases |fields|
  {
    if fields == [] then Ok(acc)
    else if SkipsColumn(fields[0], m) then ShallowArguments(fields[1..], m, ids, acc)
    else
      match ConvertToArgument(fields[0], m, [], ids)
      case Err(e) => Err(e)
      case Ok(arg) => ShallowArguments(fields[1..], m, ids, acc + [arg])
  }

  // ---------- the loops ----------

  method InsertionOf(ty: ObjectType, m: Record, path: Path, ids: IdSource) returns (r: Result<(seq<Statement>, IdTree)>)
    ensures r == PrepareInsertion(ty, m, path, ids)
    decreases ty
  {
    var childIds: map<string, IdTree> := map[];
    var objId: Option<string> := None;
    var queryArgs: seq<Value> := [];
    var inserts: seq<Statement> := [];
    for i := 0 to |ty.fields|
      invariant GatherFields(ty.fields, m, path, ids, Gathered([], [], None, map[])) ==
                GatherFields(ty.fields[i..], m, path, ids, Gathered(queryArgs, inserts, objId, childIds))
    {
      var field := ty.fields[i];
      assert ty.fields[i..][0] == field && ty.fields[i..][1..] == ty.fields[i + 1..];
      if (IsAbsent(field, m) || IsNull(field, m)) && field.optional {
        continue;
      }
      var arg: Value;
      if field.kind.EntityKind? {
        var nested := Nested(field, m);
        if nested.Err? {
          return Err(nested.error);
        }
        var stored := InsertionOf(field.kind.ty, nested.value, path + [field.name], ids);
        if stored.Err? {
          return stored;
        }
        inserts := inserts + stored.value.0;
        childIds := childIds[field.name := stored.value.1];
        arg := Str(stored.value.1.id);
      } else {
        var converted := ConvertToArgument(field, m, path, ids);
        if converted.Err? {
          return Err(converted.error);
        }
        arg := converted.value;
      }
      if field.name == ID {
        if !arg.Str? {
          return Err("the id value is not string");
        }
        objId := Some(arg.s);
      }
      queryArgs := queryArgs + [arg];
    }
    var stmt := MakeInsertQuery(ty, m);
    if stmt.Err? {
      return Err(stmt.error);
    }
    if objId.None? {
      return Err("attempting to insert an object with no id");
    }
    return Ok((inserts + [stmt.value.(args := queryArgs)], IdTree(objId.value, childIds)));
  }

  method InsertQueryOf(ty: ObjectType, m: Record) returns (r: Result<Statement>)
    ensures r == MakeInsertQuery(ty, m)
  {
    var columns: seq<BoundColumn> := [];
    var idName: Option<string> := None;
    var n := 0;
    for i := 0 to |ty.fields|
      invariant MakeBinds(ty.fields, m, 0) == columns + MakeBinds(ty.fields[i..], m, n)
      invariant FindId(ty.fields, m, None) == FindId(ty.fields[i..], m, idName)
    {
      var f := ty.fields[i];
      assert ty.fields[i..][0] == f && ty.fields[i..][1..] == ty.fields[i + 1..];
      if SkipsColumn(f, m) {
        continue;
      }
      var bind := NullBind;
      if !(f.optional && IsNull(f, m)) {
        n := n + 1;
        bind := Dollar(n);
      }
      if f.kind.IdKind? {
        if f.name in m && !m[f.name].Str? {
          return Err("invalid ID: It is not a string");
        }
        if idName.Some? {
          return Err("More than one ID??");
        }
        idName := Some(f.name);
      }
      columns := columns + [BoundColumn(f.name, bind)];
    }
    assert MakeBinds(ty.fields, m, 0) == columns;
    if exists v :: v in m && !HasColumn(columns, v) {
      return Err("field not present");
    }
    return Ok(Statement(ty.table, columns, if idName.Some? then idName.value else "", []));
  }

  method ShallowInsertionOf(ty: ObjectType, m: Record, ids: IdSource) returns (r: Result<Statement>)
    ensures r == PrepareShallow(ty, m, ids)
  {
    var args: seq<Value> := [];
    for i := 0 to |ty.fields|
      invariant ShallowArguments(ty.fields, m, ids, []) == ShallowArguments(ty.fields[i..], m, ids, args)
    {
      var f := ty.fields[i];
      assert ty.fields[i..][0] == f && ty.fields[i..][1..] == ty.fields[i + 1..];
      if SkipsColumn(f, m) {
        continue;
      }
      var arg := ConvertToArgument(f, m, [], ids);
      if arg.Err? {
        return Err(arg.error);
      }
      args := args + [arg.value];
    }
    var stmt := InsertQueryOf(ty, m);
    if stmt.Err? {
      return stmt;
    }
    return Ok(stmt.value.(args := args));
  }

  // ---------- placeholders and arguments line up ----------

  /** The id of the entity at `path`: the given one or the generated one. */
  function NodeId(m: Record, path: Path, ids: IdSource): string {
    if ID in m && m[ID].Str? then m[ID].s else ids(path)
  }

  /** The record holds a value other than null for the field. */
  predicate IsGiven(f: Field, m: Record) { f.name in m && m[f.name] != Null }

  /** The value that storing puts into the column of a field. */
  function ColumnValue(f: Field, m: Record, path: Path, ids: IdSource): Value {
    if !IsGiven(f, m) && f.optional then Null
    else match f.kind
      case IdKind => if f.name in m then m[f.name] else Str(ids(path))
      case ScalarKind(_) => if f.name in m then m[f.name] else if f.default.Some? then f.default.value else Null
      case EntityKind(_) =>
        if f.name in m && m[f.name].Entity? then Str(NodeId(m[f.name].fields, path + [f.name], ids)) else Null
  }

  function CountDollars(columns: seq<BoundColumn>): nat {
    if columns == [] then 0 else (if columns[0].bind.Dollar? then 1 else 0) + CountDollars(columns[1..])
  }

  /** The placeholders are $1, $2, ... in column order, one for each argument. */
  predicate NumbersPlaceholders(columns: seq<BoundColumn>, used: nat, args: nat) {
    if columns == [] then used == args
    else if columns[0].bind.Dollar? then
      columns[0].bind.k == used + 1 && NumbersPlaceholders(columns[1..], used + 1, args)
    else NumbersPlaceholders(columns[1..], used, args)
  }

  /** What a column receives when the statement runs. */
  function BoundValue(c: BoundColumn, args: seq<Value>): Value {
    if c.bind.Dollar? && 0 < c.bind.k <= |args| then args[c.bind.k - 1] else Null
  }

  /** There are as many placeholders as arguments, and each stands for one of them. */
  lemma {:induction false} PlaceholdersInRange(columns: seq<BoundColumn>, used: nat, args: nat)
    requires NumbersPlaceholders(columns, used, args)
    ensures args == used + CountDollars(columns)
    ensures forall c | c in columns && c.bind.Dollar? :: used < c.bind.k <= args
  {
    if columns != [] {
      PlaceholdersInRange(columns[1..], if columns[0].bind.Dollar? then used + 1 else used, args);
    }
  }

  /** The row that running a statement on a fresh id creates. */
  function BoundRow(columns: seq<BoundColumn>, args: seq<Value>): Record {
    if columns == [] then map[]
    else BoundRow(columns[1..], args)[columns[0].name := BoundValue(columns[0], args)]
  }

  /** The row a type's fields ask for: every field but the absent optional ones. */
  function WantedRow(fields: seq<Field>, m: Record, value: Field -> Value): Record {
    if fields == [] then map[]
    else if fields[0].name !in m && fields[0].optional then WantedRow(fields[1..], m, value)
    else WantedRow(fields[1..], m, value)[fields[0].name := value(fields[0])]
  }

  /** A given value of the right kind, a relation by its id, or else a default or a fresh id. */
  predicate HasShallowValue(f: Field, m: Record) {
    if f.name in m then (if f.kind.ScalarKind? then KindOf(m[f.name], f.kind.kind) else m[f.name].Str?)
    else match f.kind
      case IdKind => true
      case ScalarKind(k) => f.default.Some? && KindOf(f.default.value, k)
      case EntityKind(_) => f.default.Some? && f.default.value.Str?
  }

  function ShallowValue(m: Record, ids: IdSource): Field -> Value {
    (f: Field) => if f.name in m then m[f.name]
                  else if f.kind.IdKind? then Str(ids([]))
                  else if f.default.Some? then f.default.value else Null
  }

  function DeepValue(m: Record, path: Path, ids: IdSource): Field -> Value {
    f => ColumnValue(f, m, path, ids)
  }

  /** Shallow insertion: when it succeeds the placeholders are numbered through, there is one
      for each argument, and each stands for the value of its own field, although
      `make_insert_query` passes over nulls and this function does not: a null in an
      optional field makes it fail. */
  lemma ShallowPlaceholders(ty: ObjectType, m: Record, ids: IdSource)
    requires PrepareShallow(ty, m, ids).Ok?
    ensures var stmt := PrepareShallow(ty, m, ids).value;
            && NumbersPlaceholders(stmt.columns, 0, |stmt.args|)
            && BoundRow(stmt.columns, stmt.args) == WantedRow(ty.fields, m, ShallowValue(m, ids))
  {
    ShallowColumns(ty.fields, m, ids, []);
  }

  lemma {:induction false} ShallowColumns(fields: seq<Field>, m: Record, ids: IdSource, acc: seq<Value>)
    requires ShallowArguments(fields, m, ids, acc).Ok?
    ensures var columns, args := MakeBinds(fields, m, |acc|), ShallowArguments(fields, m, ids, acc).value;
            && acc <= args && NumbersPlaceholders(columns, |acc|, |args|)
            && BoundRow(columns, args) == WantedRow(fields, m, ShallowValue(m, ids))
    decreases |fields|
  {
    if fields != [] {
      var f, rest := fields[0], fields[1..];
      if SkipsColumn(f, m) {
        ShallowColumns(rest, m, ids, acc);
      } else {
        var arg := ConvertToArgument(f, m, [], ids).value;
        ShallowColumns(rest, m, ids, acc + [arg]);
        var args := ShallowArguments(rest, m, ids, acc + [arg]).value;
        assert args[|acc|] == (acc + [arg])[|acc|];
        var c, columns := BoundColumn(f.name, Dollar(|acc| + 1)), MakeBinds(rest, m, |acc| + 1);
        assert ([c] + columns)[1..] == columns;
      }
    }
  }

  /** The id that insertion reports is the given one, or the generated one. */
  lemma InsertionId(ty: ObjectType, m: Record, path: Path, ids: IdSource)
    requires WellFormed(ty) && PrepareInsertion(ty, m, path, ids).Ok?
    ensures PrepareInsertion(ty, m, path, ids).value.1.id == NodeId(m, path, ids)
  {
    var start := Gathered([], [], None, map[]);
    var g := GatherField(ty.fields[0], m, path, ids, start).value;
    assert forall f | f in ty.fields[1..] :: f.name != ID;
    IdIsKept(ty.fields[1..], m, path, ids, g);
  }

  lemma {:induction false} IdIsKept(fields: seq<Field>, m: Record, path: Path, ids: IdSource, g: Gathered)
    requires GatherFields(fields, m, path, ids, g).Ok? && forall f | f in fields :: f.name != ID
    ensures GatherFields(fields, m, path, ids, g).value.id == g.id
  {
    if fields != [] {
      assert fields[0] in fields;
      IdIsKept(fields[1..], m, path, ids, GatherField(fields[0], m, path, ids, g).value);
    }
  }

  /** Deep insertion: the arguments gathered for a type's own fields match its statement. */
  lemma DeepPlaceholders(ty: ObjectType, m: Record, path: Path, ids: IdSource)
    requires WellFormed(ty) && PrepareInsertion(ty, m, path, ids).Ok?
    ensures var inserts := PrepareInsertion(ty, m, path, ids).value.0;
            && inserts != []
            && var own := inserts[|inserts| - 1];
               && own.table == ty.table
               && NumbersPlaceholders(own.columns, 0, |own.args|)
               && BoundRow(own.columns, own.args) == WantedRow(ty.fields, m, DeepValue(m, path, ids))
  {
    DeepColumns(ty.fields, m, path, ids, Gathered([], [], None, map[]));
  }

  lemma {:induction false} DeepColumns(fields: seq<Field>, m: Record, path: Path, ids: IdSource, g: Gathered)
    requires GatherFields(fields, m, path, ids, g).Ok?
    requires forall f | f in fields :: f.kind.EntityKind? ==> WellFormed(f.kind.ty)
    ensures var columns, args := MakeBinds(fields, m, |g.args|), GatherFields(fields, m, path, ids, g).value.args;
            && g.args <= args && NumbersPlaceholders(columns, |g.args|, |args|)
            && BoundRow(columns, args) == WantedRow(fields, m, DeepValue(m, path, ids))
  {
    if fields != [] {
      assert fields[0] in fields;
      var f, rest := fields[0], fields[1..];
      var g' := GatherField(f, m, path, ids, g).value;
      GatheredArgument(f, m, path, ids, g);
      DeepColumns(rest, m, path, ids, g');
      var args, columns := GatherFields(rest, m, path, ids, g').value.args, MakeBinds(rest, m, |g'.args|);
      if IsNull(f, m) && f.optional {
        assert ([BoundColumn(f.name, NullBind)] + columns)[1..] == columns;
      } else if !SkipsColumn(f, m) {
        assert args[|g.args|] == g'.args[|g.args|];
        assert ([BoundColumn(f.name, Dollar(|g.args| + 1))] + columns)[1..] == columns;
      }
    }
  }

  lemma GatheredArgument(f: Field, m: Record, path: Path, ids: IdSource, g: Gathered)
    requires GatherField(f, m, path, ids, g).Ok?
    requires f.kind.EntityKind? ==> WellFormed(f.kind.ty)
    ensures GatherField(f, m, path, ids, g).value.args ==
            if (IsAbsent(f, m) || IsNull(f, m)) && f.optional then g.args else g.args + [ColumnValue(f, m, path, ids)]
  {
    if f.kind.EntityKind? && !((IsAbsent(f, m) || IsNull(f, m)) && f.optional) {
      InsertionId(f.kind.ty, m[f.name].fields, path + [f.name], ids);
    }
  }

  // ---------- the id tree ----------

  /** Everything that insertion demands of a field. */
  predicate Storable(f: Field, m: Record) {
    (f.optional && !IsGiven(f, m)) ||
    match f.kind
    case IdKind => f.name in m ==> m[f.name].Str?
    case ScalarKind(k) => if f.name in m then KindOf(m[f.name], k) else f.default.Some? && KindOf(f.default.value, k)
    case EntityKind(_) => f.name in m && m[f.name].Entity?
  }

  /** The record holds a nested object for the field. */
  predicate IsNested(f: Field, m: Record) {
    f.kind.EntityKind? && IsGiven(f, m) && m[f.name].Entity?
  }

  function NestedNames(fields: seq<Field>, m: Record): set<string> {
    set f | f in fields && IsNested(f, m) :: f.name
  }

  /** The tree has the id of each entity: the children are those of the fields that hold a nested
      object, and each child is in turn the id tree of that object. */
  ghost predicate IsIdTree(tree: IdTree, ty: ObjectType, m: Record, path: Path, ids: IdSource)
    decreases ty
  {
    && tree.id == NodeId(m, path, ids)
    && tree.children.Keys == NestedNames(ty.fields, m)
    && forall f | f in ty.fields && IsNested(f, m) ::
         && f.name in tree.children
         && IsIdTree(tree.children[f.name], f.kind.ty, m[f.name].fields, path + [f.name], ids)
  }

  /** Insertion reports the id of every entity of the tree, at its place. */
  lemma {:induction false} IdsAreReported(ty: ObjectType, m: Record, path: Path, ids: IdSource)
    requires WellFormed(ty) && PrepareInsertion(ty, m, path, ids).Ok?
    ensures IsIdTree(PrepareInsertion(ty, m, path, ids).value.1, ty, m, path, ids)
    decreases ty
  {
    InsertionId(ty, m, path, ids);
    ChildrenAreReported(ty.fields, m, path, ids, Gathered([], [], None, map[]));
  }

  /** What storing a nested object adds. */
  lemma GatheredNested(f: Field, m: Record, path: Path, ids: IdSource, g: Gathered)
    requires GatherField(f, m, path, ids, g).Ok?
    ensures var g' := GatherField(f, m, path, ids, g).value;
            if IsNested(f, m) then
              var r := PrepareInsertion(f.kind.ty, m[f.name].fields, path + [f.name], ids);
              r.Ok? && g'.inserts == g.inserts + r.value.0 && g'.children == g.children[f.name := r.value.1]
            else g'.inserts == g.inserts && g'.children == g.children
  {}

  lemma {:induction false} ChildrenAreReported(fields: seq<Field>, m: Record, path: Path, ids: IdSource, g: Gathered)
    requires UniqueNames(fields)
    requires forall i :: 0 <= i < |fields| ==> fields[i] == ID_FIELD || WellFormedField(fields[i])
    requires GatherFields(fields, m, path, ids, g).Ok?
    ensures var children := GatherFields(fields, m, path, ids, g).value.children;
            && children.Keys == g.children.Keys + NestedNames(fields, m)
            && (forall n | n in g.children && n !in NestedNames(fields, m) :: children[n] == g.children[n])
            && forall f | f in fields && IsNested(f, m) ::
                 IsIdTree(children[f.name], f.kind.ty, m[f.name].fields, path + [f.name], ids)
    decreases fields
  {
    if fields != [] {
      var f, rest := fields[0], fields[1..];
      var g' := GatherField(f, m, path, ids, g).value;
      GatheredNested(f, m, path, ids, g);
      ChildrenAreReported(rest, m, path, ids, g');
      assert f.name !in NestedNames(rest, m);
      assert fields == [f] + rest;
      if IsNested(f, m) {
        IdsAreReported(f.kind.ty, m[f.name].fields, path + [f.name], ids);
        assert NestedNames(fields, m) == {f.name} + NestedNames(rest, m);
      } else {
        assert NestedNames(fields, m) == NestedNames(rest, m);
      }
    }
  }

  // ---------- when insertion succeeds ----------

  /** Every field can be stored, in nested objects too, and every value has a field. */
  ghost predicate IsInsertable(ty: ObjectType, m: Record)
    decreases ty
  {
    && (forall f | f in ty.fields :: IsInsertableField(f, m))
    && forall n | n in m :: exists f :: f in ty.fields && f.name == n
  }

  ghost predicate IsInsertableField(f: Field, m: Record)
    decreases f
  {
    Storable(f, m) && (IsNested(f, m) ==> IsInsertable(f.kind.ty, m[f.name].fields))
  }

  lemma {:induction false} InsertionSucceedsIff(ty: ObjectType, m: Record, path: Path, ids: IdSource)
    requires WellFormed(ty)
    ensures PrepareInsertion(ty, m, path, ids).Ok? <==> IsInsertable(ty, m)
    decreases ty
  {
    var start := Gathered([], [], None, map[]);
    GatheringSucceedsIff(ty.fields, m, path, ids, start);
    assert ty.fields[0] in ty.fields;
    if GatherFields(ty.fields, m, path, ids, start).Ok? {
      InsertQuerySucceedsIff(ty, m);
      IdIsFound(ty, m, path, ids);
    }
  }

  lemma {:induction false} GatheringSucceedsIff(fields: seq<Field>, m: Record, path: Path, ids: IdSource, g: Gathered)
    requires forall i :: 0 <= i < |fields| ==>
               fields[i] == ID_FIELD || (WellFormedField(fields[i]) && fields[i].name != ID)
    ensures GatherFields(fields, m, path, ids, g).Ok? <==> forall f | f in fields :: IsInsertableField(f, m)
    decreases fields
  {
    if fields != [] {
      var f := fields[0];
      assert fields == [f] + fields[1..];
      if IsNested(f, m) {
        InsertionSucceedsIff(f.kind.ty, m[f.name].fields, path + [f.name], ids);
      }
      assert f in fields && (GatherField(f, m, path, ids, g).Ok? <==> IsInsertableField(f, m));
      if GatherField(f, m, path, ids, g).Ok? {
        GatheringSucceedsIff(fields[1..], m, path, ids, GatherField(f, m, path, ids, g).value);
      }
    }
  }

  lemma IdIsFound(ty: ObjectType, m: Record, path: Path, ids: IdSource)
    requires WellFormed(ty) && GatherFields(ty.fields, m, path, ids, Gathered([], [], None, map[])).Ok?
    ensures GatherFields(ty.fields, m, path, ids, Gathered([], [], None, map[])).value.id.Some?
  {
    var g := GatherField(ty.fields[0], m, path, ids, Gathered([], [], None, map[])).value;
    assert forall f | f in ty.fields[1..] :: f.name != ID;
    IdIsKept(ty.fields[1..], m, path, ids, g);
  }

  lemma {:induction false} OnlyOneId(fields: seq<Field>, m: Record, idName: Option<string>)
    requires forall i :: 0 <= i < |fields| ==> !fields[i].kind.IdKind?
    ensures FindId(fields, m, idName) == Ok(idName)
    decreases |fields|
  {
    if fields != [] {
      OnlyOneId(fields[1..], m, idName);
    }
  }

  lemma {:induction false} BindsHaveColumn(fields: seq<Field>, m: Record, used: nat, name: string)
    requires name in m
    ensures HasColumn(MakeBinds(fields, m, used), name) <==> exists f :: f in fields && f.name == name
  {
    if fields != [] {
      var f := fields[0];
      assert fields == [f] + fields[1..];
      if SkipsColumn(f, m) {
        BindsHaveColumn(fields[1..], m, used, name);
      } else {
        var isNull := f.optional && IsNull(f, m);
        var c := BoundColumn(f.name, if isNull then NullBind else Dollar(used + 1));
        var rest := MakeBinds(fields[1..], m, if isNull then used else used + 1);
        BindsHaveColumn(fields[1..], m, if isNull then used else used + 1, name);
        assert MakeBinds(fields, m, used) == [c] + rest;
        assert HasColumn([c] + rest, name) <==> c.name == name || HasColumn(rest, name) by {
          assert c in [c] + rest;
          assert forall d | d in rest :: d in [c] + rest;
        }
      }
    }
  }

  /** The statement is made exactly when a given id is a string and every value has a field; it is
      for the type's table and names the id column. */
  lemma InsertQuerySucceedsIff(ty: ObjectType, m: Record)
    requires WellFormed(ty)
    ensures MakeInsertQuery(ty, m).Ok? <==>
            (ID in m ==> m[ID].Str?) && forall n | n in m :: exists f :: f in ty.fields && f.name == n
    ensures MakeInsertQuery(ty, m).Ok? ==>
            MakeInsertQuery(ty, m).value.table == ty.table && MakeInsertQuery(ty, m).value.idName == ID
  {
    OnlyOneId(ty.fields[1..], m, Some(ID));
    forall n | n in m
      ensures HasColumn(MakeBinds(ty.fields, m, 0), n) <==> exists f :: f in ty.fields && f.name == n
    {
      BindsHaveColumn(ty.fields, m, 0, n);
    }
  }

  /** Shallow insertion succeeds exactly when in addition each field that is not skipped has a
      value of its kind, where a relation is given by an id. */
  lemma ShallowSucceedsIff(ty: ObjectType, m: Record, ids: IdSource)
    requires WellFormed(ty)
    ensures PrepareShallow(ty, m, ids).Ok? <==>
            && (forall f | f in ty.fields && (f.name in m || !f.optional) :: HasShallowValue(f, m))
            && forall n | n in m :: exists f :: f in ty.fields && f.name == n
  {
    ShallowArgumentsIff(ty.fields, m, ids, []);
    InsertQuerySucceedsIff(ty, m);
    assert ty.fields[0] in ty.fields && !SkipsColumn(ty.fields[0], m);
  }

  lemma {:induction false} ShallowArgumentsIff(fields: seq<Field>, m: Record, ids: IdSource, acc: seq<Value>)
    ensures ShallowArguments(fields, m, ids, acc).Ok? <==>
            forall f | f in fields && (f.name in m || !f.optional) :: HasShallowValue(f, m)
    decreases |fields|
  {
    if fields != [] {
      var f := fields[0];
      assert fields == [f] + fields[1..];
      if SkipsColumn(f, m) {
        ShallowArgumentsIff(fields[1..], m, ids, acc);
      } else if HasShallowValue(f, m) {
        ShallowArgumentsIff(fields[1..], m, ids, acc + [ConvertToArgument(f, m, [], ids).value]);
      }
    }
  }
}
