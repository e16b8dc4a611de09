/** Evolving a type (server/src/types/type_system.rs): the difference between two versions of
    its fields and indexes, and what applying it to the stored fields gives. */
module TypeDelta {
  import opened Sequences
  import opened Values
  import opened OrderedMap

  datatype Field = Field(
    id: Option<int>,
    name: string,
    typeId: string,
    labels: seq<string>,
    isOptional: bool,
    isUnique: bool,
    default: Option<string>)

  /** `backing` is the database's own name for an index; the fields are what it is on. */
  datatype DbIndex = DbIndex(backing: Option<string>, fields: seq<string>)

  datatype ObjectType = ObjectType(name: string, versionId: string, fields: seq<Field>, indexes: seq<DbIndex>)

  datatype FieldAttrDelta = FieldAttrDelta(typeId: string, default: Option<string>, isOptional: bool, isUnique: bool)

  datatype FieldDelta = FieldDelta(id: int, attrs: Option<FieldAttrDelta>, labels: Option<seq<string>>)

  datatype ObjectDelta = ObjectDelta(
    added: seq<Field>,
    removed: seq<Field>,
    updated: seq<FieldDelta>,
    addedIndexes: seq<DbIndex>,
    removedIndexes: seq<DbIndex>)

  /** The type that an id stands for. */
  type Resolver = string -> Result<string>

  type FieldMap = seq<Entry<Field>>

  function FieldsByName(fields: seq<Field>): FieldMap {
    if fields == [] then []
    else Put(FieldsByName(fields[..|fields| - 1]), fields[|fields| - 1].name, fields[|fields| - 1])
  }

  // ---------- the difference ----------

  predicate Trivial(f: Field) { f.default.Some? || f.isOptional }

  function SortedLabels(f: Field): seq<string> { Sort(StrLess, f.labels) }

  function UpdateOf(f: Field, was: Field, resolve: Resolver, allow: bool): Result<FieldDelta> {
    match resolve(f.typeId)
    case Err(m) => Err(m)
    case Ok(ty) =>
      match resolve(was.typeId)
      case Err(m) => Err(m)
      case Ok(oldTy) =>
        if !allow && ty != oldTy then Err("unsafe replacement: changing types")
        else if !allow && f.isUnique && !was.isUnique then Err("unsafe replacement: adding uniqueness")
        else
          var attrs :=
            if f.default != was.default || ty != oldTy || f.isOptional != was.isOptional || f.isUnique != was.isUnique
            then Some(FieldAttrDelta(f.typeId, f.default, f.isOptional, f.isUnique)) else None;
          var labels := if SortedLabels(was) != SortedLabels(f) then Some(SortedLabels(f)) else None;
          if was.id.None? then Err("logical error! updating field without id")
          else Ok(FieldDelta(was.id.value, attrs, labels))
  }

  /** The update that turns an old field into a new one. */
  type Updater = (Field, Field) -> Result<FieldDelta>

  function UpdateWith(resolve: Resolver, allow: bool): Updater {
    (f: Field, was: Field) => UpdateOf(f, was, resolve, allow)
  }

  datatype Scanned = Scanned(left: FieldMap, added: seq<Field>, updated: seq<FieldDelta>)

  function Scan(news: FieldMap, update: Updater, allow: bool, st: Scanned): Result<Scanned>
    decreases |news|
  {
    if news == [] then Ok(st)
    else
      var f := news[0].value;
      match Get(st.left, news[0].key)
      case None =>
        if !allow && !Trivial(f) then Err("unsafe replacement: adding a field")
        else Scan(news[1..], update, allow, st.(added := st.added + [f]))
      case Some(was) =>
        match update(f, was)
        case Err(m) => Err(m)
        case Ok(u) =>
          Scan(news[1..], update, allow, st.(left := Del(st.left, news[0].key), updated := st.updated + [u]))
  }

  function FieldsOf(m: FieldMap): seq<Field> {
    if m == [] then [] else [m[0].value] + FieldsOf(m[1..])
  }

  predicate AllTrivial(m: FieldMap) {
    m == [] || (Trivial(m[0].value) && AllTrivial(m[1..]))
  }

  predicate HasFields(indexes: seq<DbIndex>, fields: seq<string>) {
    exists i :: i in indexes && i.fields == fields
  }

  function OnOtherFields(rhs: seq<DbIndex>): DbIndex -> bool {
    (i: DbIndex) => !HasFields(rhs, i.fields)
  }

  function IndexDiff(lhs: seq<DbIndex>, rhs: seq<DbIndex>): seq<DbIndex> {
    Filter(OnOtherFields(rhs), lhs)
  }

  function GenerateTypeDelta(was: ObjectType, now: ObjectType, resolve: Resolver, allow: bool): Result<ObjectDelta> {
    if was.name != now.name || was.versionId != now.versionId then Err("unsafe replacement: types don't match")
    else match Scan(FieldsByName(now.fields), UpdateWith(resolve, allow), allow,
                    Scanned(FieldsByName(was.fields), [], []))
      case Err(m) => Err(m)
      case Ok(st) =>
        if !allow && !AllTrivial(st.left) then Err("unsafe replacement: removing a field")
        else Ok(ObjectDelta(st.added, FieldsOf(st.left), st.updated,
                            IndexDiff(now.indexes, was.indexes), IndexDiff(was.indexes, now.indexes)))
  }

  method ScanFields(was: FieldMap, now: FieldMap, update: Updater, allow: bool) returns (r: Result<Scanned>)
    ensures r == Scan(now, update, allow, Scanned(was, [], []))
  {
    var oldFields := was;
    var added: seq<Field> := [];
    var updated: seq<FieldDelta> := [];
    for i := 0 to |now|
      invariant Scan(now, update, allow, Scanned(was, [], [])) ==
                Scan(now[i..], update, allow, Scanned(oldFields, added, updated))
    {
      var name, f := now[i].key, now[i].value;
      assert now[i..][0] == now[i] && now[i..][1..] == now[i + 1..];
      match Get(oldFields, name)
      case None =>
        if !allow && !Trivial(f) {
          return Err("unsafe replacement: adding a field");
        }
        added := added + [f];
      case Some(o) =>
        oldFields := Del(oldFields, name);
        var u := update(f, o);
        if u.Err? {
          return Err(u.error);
        }
        updated := updated + [u.value];
    }
    return Ok(Scanned(oldFields, added, updated));
  }

  method RemovedFields(left: FieldMap, allow: bool) returns (r: Result<seq<Field>>)
    ensures r == if !allow && !AllTrivial(left) then Err("unsafe replacement: removing a field") else Ok(FieldsOf(left))
  {
    var removed: seq<Field> := [];
    for i := 0 to |left|
      invariant !allow ==> (AllTrivial(left) <==> AllTrivial(left[i..]))
      invariant FieldsOf(left) == removed + FieldsOf(left[i..])
    {
      assert left[i..][0] == left[i] && left[i..][1..] == left[i + 1..];
      if !allow && !Trivial(left[i].value) {
        return Err("unsafe replacement: removing a field");
      }
      removed := removed + [left[i].value];
    }
    assert left[|left|..] == [] && removed + [] == removed;
    return Ok(removed);
  }

  method TypeDeltaOf(was: ObjectType, now: ObjectType, resolve: Resolver, allow: bool) returns (r: Result<ObjectDelta>)
    ensures r == GenerateTypeDelta(was, now, resolve, allow)
  {
    if was.name != now.name || was.versionId != now.versionId {
      return Err("unsafe replacement: types don't match");
    }
    var scanned := ScanFields(FieldsByName(was.fields), FieldsByName(now.fields), UpdateWith(resolve, allow), allow);
    if scanned.Err? {
      return Err(scanned.error);
    }
    var removed := RemovedFields(scanned.value.left, allow);
    if removed.Err? {
      return Err(removed.error);
    }
    return Ok(ObjectDelta(scanned.value.added, removed.value, scanned.value.updated,
                          IndexDiff(now.indexes, was.indexes), IndexDiff(was.indexes, now.indexes)));
  }

  // ---------- what the scan collects ----------

  function AddedOf(news: FieldMap, was: FieldMap): seq<Field> {
    if news == [] then []
    else (if Get(was, news[0].key).None? then [news[0].value] else []) + AddedOf(news[1..], was)
  }

  function UpdatesOf(news: FieldMap, was: FieldMap, update: Updater): seq<FieldDelta> {
    if news == [] then []
    else
      (match Get(was, news[0].key)
       case None => []
       case Some(o) => if update(news[0].value, o).Ok? then [update(news[0].value, o).value] else [])
      + UpdatesOf(news[1..], was, update)
  }

  /** What is demanded of a field of the new version. */
  predicate Admissible(f: Field, key: string, was: FieldMap, update: Updater, allow: bool) {
    match Get(was, key)
    case None => allow || Trivial(f)
    case Some(o) => update(f, o).Ok?
  }

  predicate AllAdmissible(news: FieldMap, was: FieldMap, update: Updater, allow: bool) {
    news == [] ||
      (Admissible(news[0].value, news[0].key, was, update, allow) && AllAdmissible(news[1..], was, update, allow))
  }

  function DelAll(was: FieldMap, news: FieldMap): FieldMap
    decreases |news|
  {
    if news == [] then was else DelAll(Del(was, news[0].key), news[1..])
  }

  lemma {:induction false} OtherKeysOnly(news: FieldMap, was: FieldMap, was': FieldMap, update: Updater, allow: bool)
    requires forall k | k in Keys(news) :: Get(was', k) == Get(was, k)
    ensures AddedOf(news, was') == AddedOf(news, was)
    ensures UpdatesOf(news, was', update) == UpdatesOf(news, was, update)
    ensures AllAdmissible(news, was', update, allow) == AllAdmissible(news, was, update, allow)
  {
    if news != [] {
      OtherKeysOnly(news[1..], was, was', update, allow);
    }
  }

  lemma {:induction false} DelMissing(m: FieldMap, k: string)
    requires Get(m, k).None?
    ensures Del(m, k) == m
  {
    if m != [] {
      DelMissing(m[1..], k);
    }
  }

  /** The scan succeeds exactly on admissible fields and sorts them into added and updated ones;
      the old fields without a successor remain. */
  ghost predicate ScansTo(news: FieldMap, update: Updater, allow: bool, st: Scanned) {
    var r := Scan(news, update, allow, st);
    && (r.Ok? <==> AllAdmissible(news, st.left, update, allow))
    && (r.Ok? ==> r.value == Scanned(DelAll(st.left, news), st.added + AddedOf(news, st.left),
                                     st.updated + UpdatesOf(news, st.left, update)))
  }

  lemma {:induction false} ScanMeans(news: FieldMap, update: Updater, allow: bool, st: Scanned)
    requires IsOrdered(news) && IsOrdered(st.left)
    ensures ScansTo(news, update, allow, st)
    decreases |news|
  {
    if news != [] {
      var k, f, rest := news[0].key, news[0].value, news[1..];
      if Get(st.left, k).None? {
        ScanMeans(rest, update, allow, st.(added := st.added + [f]));
        ScanAdds(news, update, allow, st);
      } else if update(f, Get(st.left, k).value).Ok? {
        var u := update(f, Get(st.left, k).value).value;
        DelIsElsewhere(news, st.left, update, allow);
        ScanMeans(rest, update, allow, st.(left := Del(st.left, k), updated := st.updated + [u]));
        ScanUpdates(news, update, allow, st, u);
      }
    }
  }

  lemma ScanAdds(news: FieldMap, update: Updater, allow: bool, st: Scanned)
    requires news != [] && Get(st.left, news[0].key).None?
    requires ScansTo(news[1..], update, allow, st.(added := st.added + [news[0].value]))
    ensures ScansTo(news, update, allow, st)
  {
    var f, rest := news[0].value, news[1..];
    DelMissing(st.left, news[0].key);
    assert st.added + ([f] + AddedOf(rest, st.left)) == st.added + [f] + AddedOf(rest, st.left);
    assert [] + UpdatesOf(rest, st.left, update) == UpdatesOf(rest, st.left, update);
  }

  lemma ScanUpdates(news: FieldMap, update: Updater, allow: bool, st: Scanned, u: FieldDelta)
    requires news != [] && IsOrdered(news) && IsOrdered(st.left)
    requires Get(st.left, news[0].key).Some? && update(news[0].value, Get(st.left, news[0].key).value) == Ok(u)
    requires ScansTo(news[1..], update, allow, st.(left := Del(st.left, news[0].key), updated := st.updated + [u]))
    ensures ScansTo(news, update, allow, st)
  {
    var k, rest, left := news[0].key, news[1..], st.left;
    var next := st.(left := Del(left, k), updated := st.updated + [u]);
    DelIsElsewhere(news, left, update, allow);
    var updates := UpdatesOf(rest, left, update);
    assert next.updated + updates == st.updated + ([u] + updates);
    assert [] + AddedOf(rest, left) == AddedOf(rest, left);
  }

  /** Deleting the first key does not matter to the others. */
  lemma DelIsElsewhere(news: FieldMap, was: FieldMap, update: Updater, allow: bool)
    requires news != [] && IsOrdered(news) && IsOrdered(was)
    ensures var (rest, left) := (news[1..], Del(was, news[0].key));
            && IsOrdered(left) && AddedOf(rest, left) == AddedOf(rest, was)
            && UpdatesOf(rest, left, update) == UpdatesOf(rest, was, update)
            && AllAdmissible(rest, left, update, allow) == AllAdmissible(rest, was, update, allow)
  {
    NotInTail(news);
    DelMeans(was, news[0].key);
    OtherKeysOnly(news[1..], was, Del(was, news[0].key), update, allow);
  }

  // ---------- applying the difference ----------

  predicate HasIdOf(fields: seq<Field>, f: Field) {
    exists r :: r in fields && r.id == f.id
  }

  function IsLeft(removed: seq<Field>): Field -> bool {
    (f: Field) => !HasIdOf(removed, f)
  }

  function Patch(f: Field, u: FieldDelta): Field {
    var g := match u.attrs
             case None => f
             case Some(a) =>
               f.(typeId := a.typeId, default := a.default, isOptional := a.isOptional, isUnique := a.isUnique);
    if u.labels.Some? then g.(labels := u.labels.value) else g
  }

  /** A field after all updates of its id. */
  function PatchAll(f: Field, updates: seq<FieldDelta>): Field
    decreases |updates|
  {
    if updates == [] then f
    else PatchAll(if f.id == Some(updates[0].id) then Patch(f, updates[0]) else f, updates[1..])
  }

  function Patched(updates: seq<FieldDelta>): Field -> Field {
    (f: Field) => PatchAll(f, updates)
  }

  /** The stored fields after the removed ones are deleted, the updated ones changed, all by
      their ids, and the added ones inserted. */
  function Replay(fields: seq<Field>, d: ObjectDelta): seq<Field> {
    Map(Patched(d.updated), Filter(IsLeft(d.removed), fields)) + d.added
  }

  /** Fields as they come from the database. */
  ghost predicate Stored(fields: seq<Field>) {
    && (forall f | f in fields :: f.id.Some?)
    && (forall i, j :: 0 <= i < j < |fields| ==> fields[i].id != fields[j].id && fields[i].name != fields[j].name)
  }

  ghost predicate DistinctNames(fields: seq<Field>) {
    forall i, j :: 0 <= i < j < |fields| ==> fields[i].name != fields[j].name
  }

  /** Equal up to the order of the labels, the id, and the way the type is written. */
  ghost predicate SameField(f: Field, g: Field, resolve: Resolver) {
    && f.name == g.name && f.isOptional == g.isOptional && f.isUnique == g.isUnique && f.default == g.default
    && (f.typeId == g.typeId || (resolve(f.typeId).Ok? && resolve(f.typeId) == resolve(g.typeId)))
    && multiset(f.labels) == multiset(g.labels)
  }

  /** A map of fields by name holds each field under its name. */
  lemma {:induction false} ByNameMeans(fields: seq<Field>)
    requires DistinctNames(fields)
    ensures IsOrdered(FieldsByName(fields))
    ensures forall f | f in fields :: Get(FieldsByName(fields), f.name) == Some(f)
    ensures forall k :: Get(FieldsByName(fields), k).Some? ==>
                          Get(FieldsByName(fields), k).value in fields && Get(FieldsByName(fields), k).value.name == k
  {
    if fields != [] {
      var init, last := fields[..|fields| - 1], fields[|fields| - 1];
      SplitLast(fields);
      ByNameMeans(init);
      PutMeans(FieldsByName(init), last.name, last);
    }
  }

  lemma SplitLast(fields: seq<Field>)
    requires fields != [] && DistinctNames(fields)
    ensures var init, last := fields[..|fields| - 1], fields[|fields| - 1];
            && DistinctNames(init) && (forall f | f in init :: f.name != last.name)
            && forall f :: f in fields <==> f in init || f == last
  {
    var init, last := fields[..|fields| - 1], fields[|fields| - 1];
    assert fields == init + [last];
    forall f | f in init ensures f.name != last.name {
      var i :| 0 <= i < |init| && init[i] == f;
      assert fields[i] == f;
    }
  }

  lemma {:induction false} FieldsOfMap(m: FieldMap, f: Field)
    requires IsOrdered(m) && forall k :: Get(m, k).Some? ==> Get(m, k).value.name == k
    ensures f in FieldsOf(m) <==> Get(m, f.name) == Some(f)
  {
    if m != [] {
      NotInTail(m);
      assert Get(m, m[0].key) == Some(m[0].value);
      forall k | Get(m[1..], k).Some? ensures Get(m[1..], k).value.name == k {
        GetIff(m[1..], k);
        assert Get(m, k) == Get(m[1..], k);
      }
      FieldsOfMap(m[1..], f);
      GetIff(m[1..], f.name);
    }
  }

  lemma {:induction false} DelAllMeans(was: FieldMap, news: FieldMap)
    requires IsOrdered(was)
    ensures IsOrdered(DelAll(was, news))
    ensures forall k :: Get(DelAll(was, news), k) == if k in Keys(news) then None else Get(was, k)
    decreases |news|
  {
    if news != [] {
      DelMeans(was, news[0].key);
      DelAllMeans(Del(was, news[0].key), news[1..]);
    }
  }

  lemma {:induction false} AddedMeans(news: FieldMap, was: FieldMap, f: Field)
    requires IsOrdered(news) && forall k :: Get(news, k).Some? ==> Get(news, k).value.name == k
    ensures f in AddedOf(news, was) <==> Get(news, f.name) == Some(f) && Get(was, f.name).None?
  {
    if news != [] {
      NotInTail(news);
      assert Get(news, news[0].key) == Some(news[0].value);
      forall k | Get(news[1..], k).Some? ensures Get(news[1..], k).value.name == k {
        GetIff(news[1..], k);
        assert Get(news, k) == Get(news[1..], k);
      }
      AddedMeans(news[1..], was, f);
      GetIff(news[1..], f.name);
    }
  }

  lemma {:induction false} PatchKeepsId(f: Field, updates: seq<FieldDelta>)
    ensures PatchAll(f, updates).id == f.id && PatchAll(f, updates).name == f.name
    decreases |updates|
  {
    if updates != [] {
      PatchKeepsId(if f.id == Some(updates[0].id) then Patch(f, updates[0]) else f, updates[1..]);
    }
  }

  /** Without an update of its id a field stays as it is. */
  lemma {:induction false} NoPatch(f: Field, updates: seq<FieldDelta>)
    requires forall u | u in updates :: f.id != Some(u.id)
    ensures PatchAll(f, updates) == f
    decreases |updates|
  {
    if updates != [] {
      NoPatch(f, updates[1..]);
    }
  }

  /** Old fields under different names have different ids. */
  ghost predicate DistinctIds(was: FieldMap) {
    forall k, k' :: k != k' && Get(was, k).Some? && Get(was, k').Some? ==> Get(was, k).value.id != Get(was, k').value.id
  }

  /** Updates are for the id of the old field. */
  ghost predicate KeepsIds(update: Updater) {
    forall f, o :: update(f, o).Ok? ==> o.id == Some(update(f, o).value.id)
  }

  lemma {:induction false} NoUpdateOf(news: FieldMap, was: FieldMap, update: Updater, k: string, o: Field)
    requires DistinctIds(was) && KeepsIds(update) && Get(was, k) == Some(o) && k !in Keys(news)
    ensures forall u | u in UpdatesOf(news, was, update) :: o.id != Some(u.id)
  {
    if news != [] {
      NoUpdateOf(news[1..], was, update, k, o);
    }
  }

  /** The updates turn an old field into its new version. */
  lemma {:induction false} UpdatesGiveNew(news: FieldMap, was: FieldMap, resolve: Resolver, allow: bool, k: string,
                                          o: Field)
    requires IsOrdered(news) && DistinctIds(was) && AllAdmissible(news, was, UpdateWith(resolve, allow), allow)
    requires Get(was, k) == Some(o) && Get(news, k).Some? && o.name == k && Get(news, k).value.name == k
    ensures SameField(PatchAll(o, UpdatesOf(news, was, UpdateWith(resolve, allow))), Get(news, k).value, resolve)
  {
    var f, rest := news[0].value, news[1..];
    if news[0].key == k {
      NotInTail(news);
      NoUpdateOf(rest, was, UpdateWith(resolve, allow), k, o);
      var u := UpdateOf(f, o, resolve, allow).value;
      var p := Patch(o, u);
      assert UpdatesOf(news, was, UpdateWith(resolve, allow)) == [u] + UpdatesOf(rest, was, UpdateWith(resolve, allow));
      OwnPatch(o, u, UpdatesOf(rest, was, UpdateWith(resolve, allow)));
      NoPatch(p, UpdatesOf(rest, was, UpdateWith(resolve, allow)));
      PatchIsNew(f, o, resolve, allow);
    } else {
      UpdatesGiveNew(rest, was, resolve, allow, k, o);
      if Get(was, news[0].key).Some? {
        var u := UpdateOf(f, Get(was, news[0].key).value, resolve, allow).value;
        assert UpdatesOf(news, was, UpdateWith(resolve, allow)) ==
               [u] + UpdatesOf(rest, was, UpdateWith(resolve, allow));
        OtherPatch(o, u, UpdatesOf(rest, was, UpdateWith(resolve, allow)));
      } else {
        assert UpdatesOf(news, was, UpdateWith(resolve, allow)) == UpdatesOf(rest, was, UpdateWith(resolve, allow));
      }
    }
  }

  lemma OtherPatch(o: Field, u: FieldDelta, updates: seq<FieldDelta>)
    requires o.id != Some(u.id)
    ensures PatchAll(o, [u] + updates) == PatchAll(o, updates)
  {
    assert ([u] + updates)[1..] == updates;
  }

  lemma OwnPatch(o: Field, u: FieldDelta, updates: seq<FieldDelta>)
    requires o.id == Some(u.id)
    ensures PatchAll(o, [u] + updates) == PatchAll(Patch(o, u), updates)
  {
    assert ([u] + updates)[1..] == updates;
  }

  lemma PatchIsNew(f: Field, o: Field, resolve: Resolver, allow: bool)
    requires UpdateOf(f, o, resolve, allow).Ok? && f.name == o.name
    ensures SameField(Patch(o, UpdateOf(f, o, resolve, allow).value), f, resolve)
  {
    StrLessIsWeakOrder();
    SortSorted(StrLess, f.labels);
    SortPermutes(f.labels);
    SortPermutes(o.labels);
  }

  lemma {:induction false} SortPermutes(labels: seq<string>)
    ensures multiset(Sort(StrLess, labels)) == multiset(labels)
  {
    if labels != [] {
      SortPermutes(labels[1..]);
      InsertPermutes(labels[0], Sort(StrLess, labels[1..]));
      assert labels == [labels[0]] + labels[1..];
    }
  }

  lemma {:induction false} InsertPermutes(x: string, labels: seq<string>)
    ensures multiset(Insert(StrLess, x, labels)) == multiset{x} + multiset(labels)
  {
    if labels != [] && StrLess(labels[0], x) {
      InsertPermutes(x, labels[1..]);
      assert labels == [labels[0]] + labels[1..];
    }
  }

  // ---------- the main results ----------

  /** An object type as it comes from the database, and its successor from a program. */
  ghost predicate Evolves(was: ObjectType, now: ObjectType) {
    Stored(was.fields) && DistinctNames(now.fields)
  }

  predicate HasName(fields: seq<Field>, name: string) {
    exists f :: f in fields && f.name == name
  }

  /** A field may take the place of another of its name. */
  predicate Replaces(f: Field, o: Field, resolve: Resolver, allow: bool) {
    && resolve(f.typeId).Ok? && resolve(o.typeId).Ok?
    && (allow || (resolve(f.typeId) == resolve(o.typeId) && (f.isUnique ==> o.isUnique)))
  }

  /** A delta is made exactly when the versions belong together, all types are known, and,
      unless unsafe replacements are allowed, no field that others may rely on appears,
      disappears, changes its type or becomes unique. */
  lemma DeltaExistsIff(was: ObjectType, now: ObjectType, resolve: Resolver, allow: bool)
    requires Evolves(was, now)
    ensures GenerateTypeDelta(was, now, resolve, allow).Ok? <==>
            && was.name == now.name && was.versionId == now.versionId
            && (forall f | f in now.fields && !HasName(was.fields, f.name) ::
                  allow || f.default.Some? || f.isOptional)
            && (forall f, o | f in now.fields && o in was.fields && f.name == o.name :: Replaces(f, o, resolve, allow))
            && (allow || forall o | o in was.fields && !HasName(now.fields, o.name) :: o.default.Some? || o.isOptional)
  {
    var news, olds := FieldsByName(now.fields), FieldsByName(was.fields);
    ByNameMeans(now.fields);
    ByNameMeans(was.fields);
    ScanMeans(news, UpdateWith(resolve, allow), allow, Scanned(olds, [], []));
    AdmissibleFields(now.fields, olds, UpdateWith(resolve, allow), allow);
    TrivialLeft(was.fields, now.fields);
    forall f | f in now.fields
      ensures Admissible(f, f.name, olds, UpdateWith(resolve, allow), allow) <==>
              && (!HasName(was.fields, f.name) ==> allow || Trivial(f))
              && forall o | o in was.fields && f.name == o.name :: Replaces(f, o, resolve, allow)
    {
      FieldAdmissibleIff(f, was.fields, resolve, allow);
    }
  }

  /** Without leave for unsafe replacements, a required field without default can neither appear
      nor disappear. */
  lemma RequiredFieldIsRefused(was: ObjectType, now: ObjectType, resolve: Resolver, f: Field)
    requires Evolves(was, now) && !f.isOptional && f.default.None?
    requires (f in now.fields && !HasName(was.fields, f.name)) || (f in was.fields && !HasName(now.fields, f.name))
    ensures GenerateTypeDelta(was, now, resolve, false).Err?
  {
    DeltaExistsIff(was, now, resolve, false);
  }

  /** An optional field, or one with a default, can be added to a type whose other fields stay. */
  lemma TrivialFieldIsAdded(was: ObjectType, f: Field, resolve: Resolver, allow: bool)
    requires Stored(was.fields) && forall o | o in was.fields :: resolve(o.typeId).Ok?
    requires !HasName(was.fields, f.name) && (f.isOptional || f.default.Some?)
    ensures var r := GenerateTypeDelta(was, was.(fields := was.fields + [f]), resolve, allow);
            r.Ok? && (forall g :: g in r.value.added <==> g == f) && forall g :: g !in r.value.removed
  {
    var now := was.(fields := was.fields + [f]);
    assert DistinctNames(now.fields) by {
      forall i, j | 0 <= i < j < |now.fields| ensures now.fields[i].name != now.fields[j].name {
        assert i < |was.fields| && was.fields[i] in was.fields;
      }
    }
    forall g, o | g in now.fields && o in was.fields && g.name == o.name ensures g == o {
      var i :| 0 <= i < |now.fields| && now.fields[i] == g;
      var j :| 0 <= j < |was.fields| && was.fields[j] == o;
      assert i < |was.fields|;
    }
    forall g | g in now.fields ensures HasName(was.fields, g.name) || g == f {}
    forall o | o in was.fields ensures HasName(now.fields, o.name) {
      assert o in now.fields;
    }
    DeltaExistsIff(was, now, resolve, allow);
    DeltaParts(was, now, resolve, allow);
    assert f in now.fields;
  }

  lemma FieldAdmissibleIff(f: Field, was: seq<Field>, resolve: Resolver, allow: bool)
    requires Stored(was)
    ensures Admissible(f, f.name, FieldsByName(was), UpdateWith(resolve, allow), allow) <==>
            && (!HasName(was, f.name) ==> allow || Trivial(f))
            && forall o | o in was && f.name == o.name :: Replaces(f, o, resolve, allow)
  {
    ByNameMeans(was);
    match Get(FieldsByName(was), f.name)
    case None =>
    case Some(o) =>
      assert o in was && o.name == f.name;
      assert UpdateOf(f, o, resolve, allow).Ok? <==> Replaces(f, o, resolve, allow);
  }

  lemma AdmissibleFields(fields: seq<Field>, olds: FieldMap, update: Updater, allow: bool)
    requires DistinctNames(fields)
    ensures AllAdmissible(FieldsByName(fields), olds, update, allow) <==>
            forall f | f in fields :: Admissible(f, f.name, olds, update, allow)
  {
    var news := FieldsByName(fields);
    ByNameMeans(fields);
    AdmissibleIff(news, olds, update, allow);
    if forall k :: AdmissibleAt(news, k, olds, update, allow) {
      forall f | f in fields ensures Admissible(f, f.name, olds, update, allow) {
        assert AdmissibleAt(news, f.name, olds, update, allow);
      }
    } else {
      var k :| !AdmissibleAt(news, k, olds, update, allow);
      var f := Get(news, k).value;
      assert f in fields && !Admissible(f, f.name, olds, update, allow);
    }
  }

  /** The fields that no new field replaces. */
  lemma TrivialLeft(was: seq<Field>, now: seq<Field>)
    requires DistinctNames(was) && DistinctNames(now)
    ensures AllTrivial(DelAll(FieldsByName(was), FieldsByName(now))) <==>
            forall o | o in was && !HasName(now, o.name) :: Trivial(o)
  {
    var news, olds := FieldsByName(now), FieldsByName(was);
    var left := DelAll(olds, news);
    ByNameMeans(now);
    ByNameMeans(was);
    DelAllMeans(olds, news);
    AllTrivialIff(left);
    KeysAreNames(now);
    if forall k :: TrivialAt(left, k) {
      forall o | o in was && !HasName(now, o.name) ensures Trivial(o) {
        assert TrivialAt(left, o.name);
      }
    } else {
      var k :| !TrivialAt(left, k);
      var o := Get(left, k).value;
      assert o in was && !HasName(now, o.name);
    }
  }

  lemma KeysAreNames(fields: seq<Field>)
    requires DistinctNames(fields)
    ensures forall k :: k in Keys(FieldsByName(fields)) <==> HasName(fields, k)
  {
    ByNameMeans(fields);
    forall k ensures k in Keys(FieldsByName(fields)) <==> HasName(fields, k) {
      GetIff(FieldsByName(fields), k);
    }
  }

  predicate AdmissibleAt(news: FieldMap, k: string, was: FieldMap, update: Updater, allow: bool) {
    Get(news, k).Some? ==> Admissible(Get(news, k).value, k, was, update, allow)
  }

  predicate TrivialAt(m: FieldMap, k: string) {
    Get(m, k).Some? ==> Trivial(Get(m, k).value)
  }

  lemma {:induction false} AdmissibleIff(news: FieldMap, was: FieldMap, update: Updater, allow: bool)
    requires IsOrdered(news)
    ensures AllAdmissible(news, was, update, allow) <==> forall k :: AdmissibleAt(news, k, was, update, allow)
  {
    if news != [] {
      NotInTail(news);
      AdmissibleIff(news[1..], was, update, allow);
      GetIff(news[1..], news[0].key);
      assert AdmissibleAt(news, news[0].key, was, update, allow) ==
             Admissible(news[0].value, news[0].key, was, update, allow);
      assert forall k :: k != news[0].key ==>
          AdmissibleAt(news, k, was, update, allow) == AdmissibleAt(news[1..], k, was, update, allow);
      assert AdmissibleAt(news[1..], news[0].key, was, update, allow);
    }
  }

  lemma {:induction false} AllTrivialIff(m: FieldMap)
    requires IsOrdered(m)
    ensures AllTrivial(m) <==> forall k :: TrivialAt(m, k)
  {
    if m != [] {
      NotInTail(m);
      AllTrivialIff(m[1..]);
      GetIff(m[1..], m[0].key);
      assert TrivialAt(m, m[0].key) == Trivial(m[0].value);
      assert forall k :: k != m[0].key ==> TrivialAt(m, k) == TrivialAt(m[1..], k);
      assert TrivialAt(m[1..], m[0].key);
    }
  }

  /** The parts of a delta: fields of the new version are added or update the old field of their
      name, and old fields without a successor are removed. */
  lemma DeltaParts(was: ObjectType, now: ObjectType, resolve: Resolver, allow: bool)
    requires Evolves(was, now) && GenerateTypeDelta(was, now, resolve, allow).Ok?
    ensures var d := GenerateTypeDelta(was, now, resolve, allow).value;
            && (forall f :: f in d.added <==> f in now.fields && !HasName(was.fields, f.name))
            && (forall o :: o in d.removed <==> o in was.fields && !HasName(now.fields, o.name))
            && (forall o, f | o in was.fields && f in now.fields && o.name == f.name ::
                  SameField(PatchAll(o, d.updated), f, resolve))
  {
    var news, olds := FieldsByName(now.fields), FieldsByName(was.fields);
    ByNameMeans(now.fields);
    ByNameMeans(was.fields);
    ScanMeans(news, UpdateWith(resolve, allow), allow, Scanned(olds, [], []));
    DelAllMeans(olds, news);
    var d := GenerateTypeDelta(was, now, resolve, allow).value;
    assert d.added == AddedOf(news, olds) && d.updated == UpdatesOf(news, olds, UpdateWith(resolve, allow)) by {
      assert [] + AddedOf(news, olds) == AddedOf(news, olds);
      assert [] + UpdatesOf(news, olds, UpdateWith(resolve, allow)) ==
             UpdatesOf(news, olds, UpdateWith(resolve, allow));
    }
    forall f: Field ensures f in d.added <==> f in now.fields && !HasName(was.fields, f.name) {
      AddedMeans(news, olds, f);
    }
    forall o: Field ensures o in d.removed <==> o in was.fields && !HasName(now.fields, o.name) {
      FieldsOfMap(DelAll(olds, news), o);
      GetIff(news, o.name);
    }
    IdsDiffer(was.fields);
    forall o, f | o in was.fields && f in now.fields && o.name == f.name
      ensures SameField(PatchAll(o, d.updated), f, resolve)
    {
      UpdatesGiveNew(news, olds, resolve, allow, o.name, o);
    }
  }

  /** The updates are for the old fields that have a successor, so with `DeltaParts` every old
      field is updated or removed and none is both. */
  lemma DeltaUpdates(was: ObjectType, now: ObjectType, resolve: Resolver, allow: bool)
    requires Evolves(was, now) && GenerateTypeDelta(was, now, resolve, allow).Ok?
    ensures var d := GenerateTypeDelta(was, now, resolve, allow).value;
            forall o | o in was.fields :: IsUpdated(o, d.updated) <==> HasName(now.fields, o.name)
  {
    var news, olds, update := FieldsByName(now.fields), FieldsByName(was.fields), UpdateWith(resolve, allow);
    ByNameMeans(now.fields);
    ByNameMeans(was.fields);
    ScanMeans(news, update, allow, Scanned(olds, [], []));
    assert [] + UpdatesOf(news, olds, update) == UpdatesOf(news, olds, update);
    IdsDiffer(was.fields);
    KeysAreNames(now.fields);
    forall o | o in was.fields
      ensures IsUpdated(o, UpdatesOf(news, olds, update)) <==> HasName(now.fields, o.name)
    {
      UpdatedIff(news, olds, update, allow, o.name, o);
    }
  }

  /** An update holds what really changed, and nothing else: attributes if one differs, labels,
      sorted, if they differ other than in order. */
  ghost predicate IsMinimal(u: FieldDelta, o: Field, f: Field, resolve: Resolver) {
    && (u.attrs.Some? <==> f.default != o.default || resolve(f.typeId) != resolve(o.typeId)
                           || f.isOptional != o.isOptional || f.isUnique != o.isUnique)
    && (u.labels.Some? <==> multiset(f.labels) != multiset(o.labels))
    && (u.labels.Some? ==> Sorted(StrLess, u.labels.value))
  }

  lemma UpdatesAreMinimal(was: ObjectType, now: ObjectType, resolve: Resolver, allow: bool)
    requires Evolves(was, now) && GenerateTypeDelta(was, now, resolve, allow).Ok?
    ensures forall u, o, f | u in GenerateTypeDelta(was, now, resolve, allow).value.updated && o in was.fields
                             && f in now.fields && o.name == f.name && o.id == Some(u.id) ::
              IsMinimal(u, o, f, resolve)
  {
    var news, olds, update := FieldsByName(now.fields), FieldsByName(was.fields), UpdateWith(resolve, allow);
    ByNameMeans(now.fields);
    ByNameMeans(was.fields);
    ScanMeans(news, update, allow, Scanned(olds, [], []));
    assert [] + UpdatesOf(news, olds, update) == UpdatesOf(news, olds, update);
    IdsDiffer(was.fields);
    forall u, o, f | u in UpdatesOf(news, olds, update) && o in was.fields
                     && f in now.fields && o.name == f.name && o.id == Some(u.id)
      ensures IsMinimal(u, o, f, resolve)
    {
      var k := UpdateComesFrom(news, olds, update, u);
      assert Get(olds, k).value.id == Some(u.id);
      assert k == o.name;
      UpdateIsMinimal(f, o, resolve, allow);
    }
  }

  lemma {:induction false} UpdateComesFrom(news: FieldMap, was: FieldMap, update: Updater, u: FieldDelta)
    returns (k: string)
    requires IsOrdered(news) && KeepsIds(update) && u in UpdatesOf(news, was, update)
    ensures Get(news, k).Some? && Get(was, k).Some? && update(Get(news, k).value, Get(was, k).value) == Ok(u)
  {
    NotInTail(news);
    if u in UpdatesOf(news[1..], was, update) {
      k := UpdateComesFrom(news[1..], was, update, u);
      GetIff(news[1..], k);
      GetIff(news[1..], news[0].key);
    } else {
      k := news[0].key;
    }
  }

  lemma UpdateIsMinimal(f: Field, o: Field, resolve: Resolver, allow: bool)
    requires UpdateOf(f, o, resolve, allow).Ok?
    ensures IsMinimal(UpdateOf(f, o, resolve, allow).value, o, f, resolve)
  {
    StrLessIsWeakOrder();
    SortSorted(StrLess, f.labels);
    SortSorted(StrLess, o.labels);
    SortPermutes(f.labels);
    SortPermutes(o.labels);
    if multiset(f.labels) == multiset(o.labels) {
      SortedIsUnique(SortedLabels(f), SortedLabels(o));
    }
  }

  /** Sorted labels are determined by how often each occurs. */
  lemma {:induction false} SortedIsUnique(a: seq<string>, b: seq<string>)
    requires Sorted(StrLess, a) && Sorted(StrLess, b) && multiset(a) == multiset(b)
    ensures a == b
  {
    assert |a| == |multiset(a)| && |b| == |multiset(b)|;
    if a != [] {
      assert a[0] == b[0] by {
        assert a[0] in multiset(a) && b[0] in multiset(b);
        assert a[0] in b && b[0] in a;
        StrLessTotal(a[0], b[0]);
      }
      assert multiset(a[1..]) == multiset(b[1..]) by {
        TailMultiset(a);
        TailMultiset(b);
      }
      SortedIsUnique(a[1..], b[1..]);
    }
  }

  lemma TailMultiset(a: seq<string>)
    requires a != []
    ensures multiset(a[1..]) == multiset(a) - multiset{a[0]}
  {
    assert a == [a[0]] + a[1..];
  }

  predicate IsUpdated(o: Field, updates: seq<FieldDelta>) {
    exists u :: u in updates && o.id == Some(u.id)
  }

  /** An old field is updated exactly when there is a new one of its name. */
  lemma {:induction false} UpdatedIff(news: FieldMap, was: FieldMap, update: Updater, allow: bool, k: string, o: Field)
    requires IsOrdered(news) && DistinctIds(was) && KeepsIds(update) && AllAdmissible(news, was, update, allow)
    requires Get(was, k) == Some(o)
    ensures IsUpdated(o, UpdatesOf(news, was, update)) <==> k in Keys(news)
  {
    if news != [] {
      UpdatedIff(news[1..], was, update, allow, k, o);
      var first := UpdatesOf([news[0]], was, update);
      assert UpdatesOf([news[0]][1..], was, update) == [];
      assert UpdatesOf(news, was, update) == first + UpdatesOf(news[1..], was, update);
      if news[0].key == k {
        assert update(news[0].value, o).value in first;
      }
    }
  }

  lemma IdsDiffer(fields: seq<Field>)
    requires Stored(fields)
    ensures DistinctIds(FieldsByName(fields))
  {
    var m := FieldsByName(fields);
    ByNameMeans(fields);
    forall k, k' | k != k' && Get(m, k).Some? && Get(m, k').Some? ensures Get(m, k).value.id != Get(m, k').value.id {
      var i :| 0 <= i < |fields| && fields[i] == Get(m, k).value;
      var j :| 0 <= j < |fields| && fields[j] == Get(m, k').value;
      assert i != j;
      assert fields[if i < j then i else j].id != fields[if i < j then j else i].id;
    }
  }

  /** Replaying the delta on the stored fields gives the fields of the new version and no
      others, up to label order and the way a type is written. */
  lemma ReplayGivesNew(was: ObjectType, now: ObjectType, resolve: Resolver, allow: bool)
    requires Evolves(was, now) && GenerateTypeDelta(was, now, resolve, allow).Ok?
    ensures var r := Replay(was.fields, GenerateTypeDelta(was, now, resolve, allow).value);
            && (forall f | f in now.fields :: HasSame(r, f, resolve))
            && (forall g | g in r :: exists f :: f in now.fields && SameField(g, f, resolve))
  {
    var d := GenerateTypeDelta(was, now, resolve, allow).value;
    var r := Replay(was.fields, d);
    DeltaParts(was, now, resolve, allow);
    forall o | o in was.fields ensures o in Filter(IsLeft(d.removed), was.fields) <==> HasName(now.fields, o.name) {
      KeptIff(was.fields, d.removed, o);
    }
    forall f | f in now.fields ensures HasSame(r, f, resolve) {
      if HasName(was.fields, f.name) {
        var o :| o in was.fields && o.name == f.name;
        ReplayedFrom(was.fields, d, o);
        assert SameField(PatchAll(o, d.updated), f, resolve);
      } else {
        assert f in d.added && f in r && SameField(f, f, resolve);
      }
    }
    forall g | g in r ensures exists f :: f in now.fields && SameField(g, f, resolve) {
      if g in d.added {
        assert g in now.fields && SameField(g, g, resolve);
      } else {
        var o := OriginOf(was.fields, d, g);
        var f :| f in now.fields && f.name == o.name;
        assert SameField(g, f, resolve);
      }
    }
  }

  ghost predicate HasSame(fields: seq<Field>, f: Field, resolve: Resolver) {
    exists g :: g in fields && SameField(g, f, resolve)
  }

  lemma ReplayedFrom(fields: seq<Field>, d: ObjectDelta, o: Field)
    requires o in Filter(IsLeft(d.removed), fields)
    ensures PatchAll(o, d.updated) in Replay(fields, d)
  {
    var kept := Filter(IsLeft(d.removed), fields);
    var changed := Map(Patched(d.updated), kept);
    var i :| 0 <= i < |kept| && kept[i] == o;
    assert changed[i] == PatchAll(o, d.updated) && changed[i] in changed;
  }

  lemma OriginOf(fields: seq<Field>, d: ObjectDelta, g: Field) returns (o: Field)
    requires g in Replay(fields, d) && g !in d.added
    ensures o in Filter(IsLeft(d.removed), fields) && g == PatchAll(o, d.updated)
  {
    var kept := Filter(IsLeft(d.removed), fields);
    var changed := Map(Patched(d.updated), kept);
    var i :| 0 <= i < |changed| && changed[i] == g;
    o := kept[i];
  }

  /** No name occurs twice after the replay, so the new fields are there once each. */
  lemma ReplayHasNoTwins(was: ObjectType, now: ObjectType, resolve: Resolver, allow: bool)
    requires Evolves(was, now) && GenerateTypeDelta(was, now, resolve, allow).Ok?
    ensures DistinctNames(Replay(was.fields, GenerateTypeDelta(was, now, resolve, allow).value))
  {
    var d := GenerateTypeDelta(was, now, resolve, allow).value;
    var kept := Filter(IsLeft(d.removed), was.fields);
    var changed := Map(Patched(d.updated), kept);
    DeltaParts(was, now, resolve, allow);
    forall i | 0 <= i < |changed| ensures changed[i].name == kept[i].name && HasName(was.fields, changed[i].name) {
      PatchKeepsId(kept[i], d.updated);
      assert kept[i] in was.fields;
    }
    forall i, j | 0 <= i < j < |changed| ensures changed[i].name != changed[j].name {
      var a, b := FilterKeepsOrder(IsLeft(d.removed), was.fields, i, j);
    }
    AddedAreDistinct(was, now, resolve, allow);
    forall i, j | 0 <= i < |changed| && 0 <= j < |d.added| ensures changed[i].name != d.added[j].name {
      assert d.added[j] in d.added;
    }
  }

  lemma AddedAreDistinct(was: ObjectType, now: ObjectType, resolve: Resolver, allow: bool)
    requires Evolves(was, now) && GenerateTypeDelta(was, now, resolve, allow).Ok?
    ensures DistinctNames(GenerateTypeDelta(was, now, resolve, allow).value.added)
  {
    var news, olds := FieldsByName(now.fields), FieldsByName(was.fields);
    ByNameMeans(now.fields);
    ByNameMeans(was.fields);
    ScanMeans(news, UpdateWith(resolve, allow), allow, Scanned(olds, [], []));
    assert [] + AddedOf(news, olds) == AddedOf(news, olds);
    DistinctlyAdded(news, olds);
  }

  lemma {:induction false} DistinctlyAdded(news: FieldMap, was: FieldMap)
    requires IsOrdered(news) && forall k :: Get(news, k).Some? ==> Get(news, k).value.name == k
    ensures DistinctNames(AddedOf(news, was))
    ensures forall f | f in AddedOf(news, was) :: f.name in Keys(news)
  {
    if news != [] {
      NotInTail(news);
      assert Get(news, news[0].key) == Some(news[0].value);
      forall k | Get(news[1..], k).Some? ensures Get(news[1..], k).value.name == k {
        GetIff(news[1..], k);
        assert Get(news, k) == Get(news[1..], k);
      }
      DistinctlyAdded(news[1..], was);
      var rest := AddedOf(news[1..], was);
      forall i | 0 <= i < |rest| ensures rest[i].name != news[0].value.name {
        assert rest[i] in rest;
      }
    }
  }

  /** Removal by id takes away the removed fields only. */
  lemma KeptIff(fields: seq<Field>, removed: seq<Field>, o: Field)
    requires Stored(fields) && o in fields && forall r | r in removed :: r in fields
    ensures o in Filter(IsLeft(removed), fields) <==> o !in removed
  {
    forall r | r in removed && r.id == o.id ensures r == o {
      var i :| 0 <= i < |fields| && fields[i] == o;
      var j :| 0 <= j < |fields| && fields[j] == r;
      assert !(i < j) && !(j < i);
    }
    assert o in removed ==> HasIdOf(removed, o);
    assert IsLeft(removed)(o) <==> o !in removed;
  }

  ghost predicate IsIndexed(indexes: seq<DbIndex>, fields: seq<string>) {
    exists i :: i in indexes && i.fields == fields
  }

  /** The index differences turn the sets of fields that are indexed into the new ones: an index is
      added or removed exactly when the other version has none on its fields. */
  lemma IndexesFollow(was: ObjectType, now: ObjectType)
    ensures var added, removed := IndexDiff(now.indexes, was.indexes), IndexDiff(was.indexes, now.indexes);
            && (forall i :: i in added <==> i in now.indexes && !IsIndexed(was.indexes, i.fields))
            && (forall i :: i in removed <==> i in was.indexes && !IsIndexed(now.indexes, i.fields))
            && forall fields :: IsIndexed(now.indexes, fields) <==>
                                (IsIndexed(was.indexes, fields) && !IsIndexed(removed, fields))
                                || IsIndexed(added, fields)
  {
    DiffHas(now.indexes, was.indexes);
    DiffHas(was.indexes, now.indexes);
  }

  lemma DiffHas(lhs: seq<DbIndex>, rhs: seq<DbIndex>)
    ensures forall i :: i in IndexDiff(lhs, rhs) <==> i in lhs && !IsIndexed(rhs, i.fields)
    ensures forall fields ::
              IsIndexed(IndexDiff(lhs, rhs), fields) <==> IsIndexed(lhs, fields) && !IsIndexed(rhs, fields)
  {
    forall fields | IsIndexed(lhs, fields) && !IsIndexed(rhs, fields) ensures IsIndexed(IndexDiff(lhs, rhs), fields) {
      var i :| i in lhs && i.fields == fields;
      assert i in IndexDiff(lhs, rhs);
    }
  }
}
