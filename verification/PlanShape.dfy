/** The shape of a query plan: all table aliases differ, also after they were cut to the length
    that Postgres allows, and each column index points at its own field. */
module PlanShape {
  import opened Values
  import opened JsonFilter
  import opened EntityStore
  import opened EntityLoad

  // ---------- join aliases stay distinct ----------

  /** Names start on a character; table names of entities do not look like join aliases. */
  ghost predicate GoodNames(ty: ObjectType) {
    && (ty.name == [] || !IsContinuation(ty.name[0]))
    && forall i :: 0 <= i < |ty.fields| ==> ty.fields[i].kind.EntityKind? ==> GoodNames(ty.fields[i].kind.ty)
  }

  predicate AllDigits(s: Ident) {
    forall i :: 0 <= i < |s| ==> 0x30 <= s[i] < 0x3A
  }

  function ValueOf(s: Ident): nat
    requires AllDigits(s)
  {
    if s == [] then 0 else 10 * ValueOf(s[..|s| - 1]) + (s[|s| - 1] as int - 0x30)
  }

  lemma {:induction false} DigitsAreDecimal(n: nat)
    ensures AllDigits(Digits(n)) && ValueOf(Digits(n)) == n && Digits(n) != []
  {
    if n >= 10 {
      DigitsAreDecimal(n / 10);
      var d := Digits(n / 10);
      assert Digits(n)[..|d|] == d;
    } else {
      assert Digits(n)[..0] == [];
    }
  }

  function Pow10(e: nat): nat { if e == 0 then 1 else 10 * Pow10(e - 1) }

  lemma {:induction false} DigitsAreFew(n: nat, e: nat)
    requires n < Pow10(e) && e > 0
    ensures |Digits(n)| <= e
  {
    if n >= 10 {
      DigitsAreFew(n / 10, e - 1);
    }
  }

  /** The counter is a machine word. */
  const USIZE_LIMIT := 0x1_0000_0000_0000_0000

  lemma CounterHasFewDigits(k: nat)
    requires k < USIZE_LIMIT
    ensures |Digits(k)| <= 20
  {
    assert Pow10(20) == 100000000000000000000 by {
      assert Pow10(5) == 100000;
      assert Pow10(10) == 10000000000;
      assert Pow10(15) == 1000000000000000;
    }
    DigitsAreFew(k, 20);
  }

  /** Cutting to 63 bytes keeps the part of an alias that tells it apart. */
  lemma AliasKeepsCounter(k: nat, name: Ident)
    requires k < USIZE_LIMIT && (name == [] || !IsContinuation(name[0]))
    ensures JOIN + Digits(k) + [UNDERSCORE] <= JoinAlias(k, name)
  {
    var head := JOIN + Digits(k) + [UNDERSCORE];
    var full := head + name + TO + name;
    CounterHasFewDigits(k);
    assert |head| <= MAX_IDENTIFIER;
    assert full == head + (name + TO + name);
    assert IsCharBoundary(full, |head|) by {
      assert full[|head|] == (name + TO + name)[0];
    }
    TruncatedIsLongest(full, MAX_IDENTIFIER);
    var p := Truncated(full, MAX_IDENTIFIER);
    assert |p| >= |head|;
    assert p == full[..|p|] && head == full[..|head|] && p[..|head|] == head;
  }

  lemma AliasesDiffer(k: nat, name: Ident, k': nat, name': Ident)
    requires k < USIZE_LIMIT && (name == [] || !IsContinuation(name[0]))
    requires k' < USIZE_LIMIT && (name' == [] || !IsContinuation(name'[0]))
    requires JoinAlias(k, name) == JoinAlias(k', name')
    ensures k == k'
  {
    AliasKeepsCounter(k, name);
    AliasKeepsCounter(k', name');
    DigitsAreDecimal(k);
    DigitsAreDecimal(k');
    var a := JoinAlias(k, name);
    SameUpToStop(a[4..], Digits(k), Digits(k'), UNDERSCORE) by {
      AfterPrefix(a, JOIN, Digits(k) + [UNDERSCORE]);
      AfterPrefix(a, JOIN, Digits(k') + [UNDERSCORE]);
    }
  }

  lemma AfterPrefix(a: Ident, p: Ident, q: Ident)
    requires p + q <= a
    ensures |p| <= |a| && q <= a[|p|..]
  {
    assert a[|p|..][..|q|] == (p + q)[|p|..];
  }

  lemma SameUpToStop(a: Ident, d: Ident, d': Ident, stop: Byte)
    requires d + [stop] <= a && d' + [stop] <= a
    requires stop !in d && stop !in d'
    ensures d == d'
  {
    assert a[|d|] == (d + [stop])[|d|] && a[|d'|] == (d' + [stop])[|d'|];
    assert forall i :: 0 <= i < |d| ==> (d + [stop])[i] == d[i] && d[i] in d;
    assert forall i :: 0 <= i < |d'| ==> (d' + [stop])[i] == d'[i] && d'[i] in d';
  }

  /** The aliases below an entity are made from counters of the range it used. */
  ghost predicate IsAlias(a: Ident, lo: nat, hi: nat) {
    exists k: nat, name :: lo <= k < hi && (name == [] || !IsContinuation(name[0])) && a == JoinAlias(k, name)
  }

  function AliasesOf(q: QueriedEntity): set<Ident>
    decreases q, 1
  {
    {q.alias} + AliasesOfJoins(q.joins)
  }

  function AliasesOfJoins(joins: seq<Join>): set<Ident>
    decreases joins, 0
  {
    if joins == [] then {} else AliasesOf(joins[0].entity) + AliasesOfJoins(joins[1..])
  }

  /** No alias is used twice. */
  ghost predicate NoClash(q: QueriedEntity)
    decreases q, 1
  {
    q.alias !in AliasesOfJoins(q.joins) && NoClashes(q.joins)
  }

  ghost predicate NoClashes(joins: seq<Join>)
    decreases joins, 0
  {
    joins != [] ==>
    && NoClash(joins[0].entity)
    && AliasesOf(joins[0].entity) !! AliasesOfJoins(joins[1..])
    && NoClashes(joins[1..])
  }

  lemma {:induction false} PlanGrows(fields: seq<Field>, alias: Ident, p: Plan)
    ensures p.columns <= LoadFields(fields, alias, p).plan.columns
    ensures p.joinCounter <= LoadFields(fields, alias, p).plan.joinCounter
    decreases fields
  {
    if fields != [] {
      var f := fields[0];
      if f.kind.EntityKind? {
        var p2 := AddColumn(p, f, alias).(joinCounter := p.joinCounter + 1);
        var table := JoinAlias(p.joinCounter, f.kind.ty.name);
        LoadFieldsEntity(fields, alias, p);
        PlanGrows(f.kind.ty.fields, table, p2);
        PlanGrows(fields[1..], alias, PlanAfter(f.kind.ty, table, p2));
      } else {
        PlanGrows(fields[1..], alias, AddColumn(p, f, alias));
      }
    }
  }

  lemma {:induction false} AliasesInRange(fields: seq<Field>, alias: Ident, p: Plan)
    requires forall i :: 0 <= i < |fields| ==> fields[i].kind.EntityKind? ==> GoodNames(fields[i].kind.ty)
    requires LoadFields(fields, alias, p).plan.joinCounter <= USIZE_LIMIT
    ensures var l := LoadFields(fields, alias, p);
            && (forall a | a in AliasesOfJoins(l.joins) :: IsAlias(a, p.joinCounter, l.plan.joinCounter))
            && NoClashes(l.joins)
    decreases fields
  {
    if fields != [] {
      var f := fields[0];
      if f.kind.EntityKind? {
        var ty, k := f.kind.ty, p.joinCounter;
        var table := JoinAlias(k, ty.name);
        var p2 := AddColumn(p, f, alias).(joinCounter := k + 1);
        var p3 := PlanAfter(ty, table, p2);
        LoadFieldsEntity(fields, alias, p);
        PlanGrows(ty.fields, table, p2);
        PlanGrows(fields[1..], alias, p3);
        AliasesInRange(ty.fields, table, p2);
        AliasesInRange(fields[1..], alias, p3);
        var entity, rest := LoadEntity(ty, table, p2), LoadFields(fields[1..], alias, p3);
        JoinWithRest(entity, rest.joins, k, p3.joinCounter, rest.plan.joinCounter, ty.name);
      } else {
        LoadFieldsScalar(fields, alias, p);
        AliasesInRange(fields[1..], alias, AddColumn(p, f, alias));
      }
    }
  }

  lemma JoinWithRest(entity: QueriedEntity, rest: seq<Join>, k: nat, mid: nat, hi: nat, name: Ident)
    requires k < mid <= hi <= USIZE_LIMIT && (name == [] || !IsContinuation(name[0]))
    requires entity.alias == JoinAlias(k, name)
    requires (forall a | a in AliasesOfJoins(entity.joins) :: IsAlias(a, k + 1, mid)) && NoClashes(entity.joins)
    requires (forall a | a in AliasesOfJoins(rest) :: IsAlias(a, mid, hi)) && NoClashes(rest)
    ensures NoClash(entity) && AliasesOf(entity) !! AliasesOfJoins(rest)
    ensures forall a | a in AliasesOf(entity) + AliasesOfJoins(rest) :: IsAlias(a, k, hi)
  {
    assert IsAlias(entity.alias, k, k + 1);
    assert AliasesOf(entity) == {entity.alias} + AliasesOfJoins(entity.joins);
    forall a | a in AliasesOf(entity) ensures IsAlias(a, k, mid) {
      if a == entity.alias {
        WiderRange(a, k, k + 1, k, mid);
      } else {
        WiderRange(a, k + 1, mid, k, mid);
      }
    }
    forall a | a in AliasesOf(entity) + AliasesOfJoins(rest) ensures IsAlias(a, k, hi) {
      if a in AliasesOf(entity) {
        WiderRange(a, k, mid, k, hi);
      } else {
        WiderRange(a, mid, hi, k, hi);
      }
    }
    RangesDiffer(AliasesOfJoins(entity.joins), entity.alias, k, k + 1, k + 1, mid);
    forall a | a in AliasesOf(entity) ensures a !in AliasesOfJoins(rest) {
      RangesDiffer(AliasesOfJoins(rest), a, k, mid, mid, hi);
    }
  }

  lemma WiderRange(a: Ident, lo: nat, hi: nat, lo': nat, hi': nat)
    requires IsAlias(a, lo, hi) && lo' <= lo && hi <= hi'
    ensures IsAlias(a, lo', hi')
  {
    var k: nat, name :| lo <= k < hi && (name == [] || !IsContinuation(name[0])) && a == JoinAlias(k, name);
    assert lo' <= k < hi';
  }

  lemma RangesDiffer(aliases: set<Ident>, a: Ident, lo: nat, mid: nat, mid': nat, hi: nat)
    requires mid <= mid' && hi <= USIZE_LIMIT && mid <= USIZE_LIMIT
    requires IsAlias(a, lo, mid) && forall b | b in aliases :: IsAlias(b, mid', hi)
    ensures a !in aliases
  {
    var k: nat, name :| lo <= k < mid && (name == [] || !IsContinuation(name[0])) && a == JoinAlias(k, name);
    forall k': nat, name' | mid' <= k' < hi && (name' == [] || !IsContinuation(name'[0]))
      ensures JoinAlias(k', name') != a
    {
      if JoinAlias(k', name') == a {
        AliasesDiffer(k, name, k', name');
        assert false;
      }
    }
  }

  const START := Plan([], 0)

  /** All table aliases of a query are distinct, also after cutting them to 63 bytes. */
  lemma AliasesAreDistinct(ty: ObjectType)
    requires GoodNames(ty) && (ty.table == [] || ty.table[0] != JOIN[0])
    requires PlanAfter(ty, ty.table, START).joinCounter <= USIZE_LIMIT
    ensures NoClash(LoadEntity(ty, ty.table, START))
  {
    AliasesInRange(ty.fields, ty.table, START);
    var l := LoadFields(ty.fields, ty.table, START);
    forall k: nat, name | k < l.plan.joinCounter && (name == [] || !IsContinuation(name[0]))
      ensures JoinAlias(k, name) != ty.table
    {
      AliasKeepsCounter(k, name);
      assert (JOIN + Digits(k) + [UNDERSCORE])[0] == JOIN[0];
    }
  }

  // ---------- how joins are named ----------

  function Ascii(s: string): Ident {
    seq(|s|, i requires 0 <= i < |s| => if s[i] < 128 as char then s[i] as Byte else 0)
  }

  /** The alias of the k-th join by a type, JOIN<k>_<type>_TO_<type> in decimal, as long as it has
      at most 63 bytes. */
  lemma AliasReads(k: nat, name: Ident)
    requires |Digits(k)| + 2 * |name| <= 54
    ensures JoinAlias(k, name) == Ascii("JOIN") + Digits(k) + Ascii("_") + name + Ascii("_TO_") + name
    ensures AllDigits(Digits(k)) && ValueOf(Digits(k)) == k
  {
    DigitsAreDecimal(k);
    assert Ascii("JOIN") == JOIN && Ascii("_TO_") == TO && Ascii("_") == [UNDERSCORE];
  }

  /** The types of the nested entities, each before those nested in it. */
  function NestedTypes(fields: seq<Field>): seq<ObjectType>
    decreases fields
  {
    if fields == [] then []
    else (if fields[0].kind.EntityKind? then [fields[0].kind.ty] + NestedTypes(fields[0].kind.ty.fields) else [])
         + NestedTypes(fields[1..])
  }

  function JoinedEntities(joins: seq<Join>): seq<QueriedEntity>
    decreases joins
  {
    if joins == [] then []
    else [joins[0].entity] + JoinedEntities(joins[0].entity.joins) + JoinedEntities(joins[1..])
  }

  ghost predicate NumberedFrom(entities: seq<QueriedEntity>, types: seq<ObjectType>, k: nat) {
    |entities| == |types| &&
    forall i :: 0 <= i < |types| ==>
      entities[i].alias == JoinAlias(k + i, types[i].name) && entities[i].table == types[i].table
  }

  /** Joins are numbered through from 0 as they are found, and the counter counts them. */
  lemma JoinsAreNumbered(ty: ObjectType)
    ensures && NumberedFrom(JoinedEntities(LoadEntity(ty, ty.table, START).joins), NestedTypes(ty.fields), 0)
            && PlanAfter(ty, ty.table, START).joinCounter == |NestedTypes(ty.fields)|
  {
    FieldsAreNumbered(ty.fields, ty.table, START);
  }

  ghost predicate AreNumbered(fields: seq<Field>, alias: Ident, p: Plan) {
    var l, types := LoadFields(fields, alias, p), NestedTypes(fields);
    NumberedFrom(JoinedEntities(l.joins), types, p.joinCounter) && l.plan.joinCounter == p.joinCounter + |types|
  }

  lemma {:induction false} FieldsAreNumbered(fields: seq<Field>, alias: Ident, p: Plan)
    ensures AreNumbered(fields, alias, p)
    decreases fields
  {
    if fields != [] {
      var f := fields[0];
      var p1 := AddColumn(p, f, alias);
      if f.kind.EntityKind? {
        var table, p2 := JoinAlias(p.joinCounter, f.kind.ty.name), p1.(joinCounter := p.joinCounter + 1);
        FieldsAreNumbered(f.kind.ty.fields, table, p2);
        FieldsAreNumbered(fields[1..], alias, PlanAfter(f.kind.ty, table, p2));
        EntityIsNumbered(fields, alias, p);
      } else {
        LoadFieldsScalar(fields, alias, p);
        FieldsAreNumbered(fields[1..], alias, p1);
        assert NestedTypes(fields) == NestedTypes(fields[1..]);
      }
    }
  }

  lemma EntityIsNumbered(fields: seq<Field>, alias: Ident, p: Plan)
    requires fields != [] && fields[0].kind.EntityKind?
    requires var ty, table := fields[0].kind.ty, JoinAlias(p.joinCounter, fields[0].kind.ty.name);
             var p2 := AddColumn(p, fields[0], alias).(joinCounter := p.joinCounter + 1);
             AreNumbered(ty.fields, table, p2) && AreNumbered(fields[1..], alias, PlanAfter(ty, table, p2))
    ensures AreNumbered(fields, alias, p)
  {
    var ty, k := fields[0].kind.ty, p.joinCounter;
    var table := JoinAlias(k, ty.name);
    var p2 := AddColumn(p, fields[0], alias).(joinCounter := k + 1);
    var entity, rest := LoadEntity(ty, table, p2), LoadFields(fields[1..], alias, PlanAfter(ty, table, p2)).joins;
    LoadFieldsEntity(fields, alias, p);
    JoinedFirst(Join(fields[0].name, entity), rest);
    assert NestedTypes(fields) == [ty] + NestedTypes(ty.fields) + NestedTypes(fields[1..]);
    NumberedTogether(entity, JoinedEntities(entity.joins), JoinedEntities(rest), ty, NestedTypes(ty.fields),
                     NestedTypes(fields[1..]), k);
  }

  lemma JoinedFirst(j: Join, rest: seq<Join>)
    ensures JoinedEntities([j] + rest) == [j.entity] + JoinedEntities(j.entity.joins) + JoinedEntities(rest)
  {
    assert ([j] + rest)[1..] == rest;
  }

  lemma NumberedTogether(e: QueriedEntity, below: seq<QueriedEntity>, rest: seq<QueriedEntity>, ty: ObjectType,
                         belowTypes: seq<ObjectType>, restTypes: seq<ObjectType>, k: nat)
    requires e.alias == JoinAlias(k, ty.name) && e.table == ty.table
    requires NumberedFrom(below, belowTypes, k + 1) && NumberedFrom(rest, restTypes, k + 1 + |belowTypes|)
    ensures NumberedFrom([e] + below + rest, [ty] + belowTypes + restTypes, k)
  {
    var entities, types := [e] + below + rest, [ty] + belowTypes + restTypes;
    var n := 1 + |below|;
    forall i | 0 <= i < |types|
      ensures entities[i].alias == JoinAlias(k + i, types[i].name) && entities[i].table == types[i].table
    {
      if 0 < i < n {
        assert entities[i] == below[i - 1] && types[i] == belowTypes[i - 1];
      } else if i >= n {
        assert entities[i] == rest[i - n] && types[i] == restTypes[i - n];
      }
    }
  }

  // ---------- identifiers are cut between characters ----------

  /** The UTF-8 encoding of a code point. */
  function Encode(c: nat): Ident
    requires c < 0x11_0000
  {
    if c < 0x80 then [c as Byte]
    else if c < 0x800 then [(0xC0 + c / 64) as Byte, (0x80 + c % 64) as Byte]
    else if c < 0x1_0000 then [(0xE0 + c / 4096) as Byte, (0x80 + c / 64 % 64) as Byte, (0x80 + c % 64) as Byte]
    else [(0xF0 + c / 262144) as Byte, (0x80 + c / 4096 % 64) as Byte, (0x80 + c / 64 % 64) as Byte,
          (0x80 + c % 64) as Byte]
  }

  type CodePoint = c: nat | c < 0x11_0000

  function EncodeAll(chars: seq<CodePoint>): Ident {
    if chars == [] then [] else EncodeAll(chars[..|chars| - 1]) + Encode(chars[|chars| - 1])
  }

  lemma OneCharacter(c: CodePoint)
    ensures Encode(c) != [] && !IsContinuation(Encode(c)[0])
    ensures forall i :: 0 < i < |Encode(c)| ==> IsContinuation(Encode(c)[i])
  {}

  /** An index of encoded text is a boundary exactly when whole characters come before it. */
  lemma {:induction false} BoundariesAreCharacters(chars: seq<CodePoint>, i: nat)
    requires i <= |EncodeAll(chars)|
    ensures IsCharBoundary(EncodeAll(chars), i) <==> exists n: nat :: n <= |chars| && i == |EncodeAll(chars[..n])|
  {
    assert chars[..|chars|] == chars && EncodeAll(chars[..0]) == [];
    if chars != [] {
      var init, c := chars[..|chars| - 1], chars[|chars| - 1];
      OneCharacter(c);
      forall n: nat | n <= |init| ensures chars[..n] == init[..n] {}
      if i <= |EncodeAll(init)| {
        BoundariesAreCharacters(init, i);
        if i == |EncodeAll(init)| {
          assert init == chars[..|init|];
        }
      } else {
        forall n: nat | n <= |init| ensures |EncodeAll(chars[..n])| <= |EncodeAll(init)| {
          PrefixIsShorter(init, n);
        }
      }
    }
  }

  lemma {:induction false} PrefixIsShorter(chars: seq<CodePoint>, n: nat)
    requires n <= |chars|
    ensures |EncodeAll(chars[..n])| <= |EncodeAll(chars)|
  {
    if n < |chars| {
      assert chars[..|chars| - 1][..n] == chars[..n];
      PrefixIsShorter(chars[..|chars| - 1], n);
    } else {
      assert chars[..n] == chars;
    }
  }

  // ---------- column indices ----------

  /** Every column index in `q` points at a column of that field in the table of its entity. */
  ghost predicate PointHome(fields: seq<Field>, q: seq<QueryField>, alias: Ident, joins: seq<Join>,
                            columns: seq<Column>)
    decreases fields
  {
    if fields == [] then q == [] && joins == []
    else
      var f := fields[0];
      q != [] &&
      if f.kind.EntityKind? then
        && joins != [] && joins[0].field == f.name && joins[0].entity.table == f.kind.ty.table
        && q[0] == EntityField(f.name, f.optional, joins[0].entity.fields)
        && PointHome(f.kind.ty.fields, q[0].fields, joins[0].entity.alias, joins[0].entity.joins, columns)
        && PointHome(fields[1..], q[1..], alias, joins[1..], columns)
      else
        && q[0].ScalarField? && q[0].name == f.name && q[0].optional == f.optional
        && q[0].column < |columns| && columns[q[0].column] == Column(f.name, alias, f.default)
        && PointHome(fields[1..], q[1..], alias, joins, columns)
  }

  /** The column indices of a tree of fields, in order. */
  function Indices(q: seq<QueryField>): seq<nat>
    decreases q
  {
    if q == [] then []
    else (if q[0].ScalarField? then [q[0].column] else Indices(q[0].fields)) + Indices(q[1..])
  }

  ghost predicate Increasing(s: seq<nat>, lo: nat, hi: nat) {
    && (forall i :: 0 <= i < |s| ==> lo <= s[i] < hi)
    && forall i, j :: 0 <= i < j < |s| ==> s[i] < s[j]
  }

  lemma {:induction false} LoadPointsHome(fields: seq<Field>, alias: Ident, p: Plan, columns: seq<Column>)
    requires LoadFields(fields, alias, p).plan.columns <= columns
    ensures var l := LoadFields(fields, alias, p); PointHome(fields, l.fields, alias, l.joins, columns)
    decreases fields
  {
    if fields != [] {
      var f := fields[0];
      var l := LoadFields(fields, alias, p);
      if f.kind.EntityKind? {
        var ty, table := f.kind.ty, JoinAlias(p.joinCounter, f.kind.ty.name);
        var p2 := AddColumn(p, f, alias).(joinCounter := p.joinCounter + 1);
        var p3 := PlanAfter(ty, table, p2);
        LoadFieldsEntity(fields, alias, p);
        PlanGrows(fields[1..], alias, p3);
        LoadPointsHome(ty.fields, table, p2, columns);
        LoadPointsHome(fields[1..], alias, p3, columns);
        var rest := LoadFields(fields[1..], alias, p3);
        assert l.fields[1..] == rest.fields && l.joins[1..] == rest.joins;
      } else {
        var p1 := AddColumn(p, f, alias);
        LoadFieldsScalar(fields, alias, p);
        PlanGrows(fields[1..], alias, p1);
        LoadPointsHome(fields[1..], alias, p1, columns);
        assert l.fields[1..] == LoadFields(fields[1..], alias, p1).fields;
        assert columns[|p.columns|] == p1.columns[|p.columns|];
      }
    }
  }

  lemma {:induction false} IndicesIncrease(fields: seq<Field>, alias: Ident, p: Plan)
    ensures var l := LoadFields(fields, alias, p); Increasing(Indices(l.fields), |p.columns|, |l.plan.columns|)
    decreases fields
  {
    if fields != [] {
      var f := fields[0];
      var l := LoadFields(fields, alias, p);
      if f.kind.EntityKind? {
        var ty, table := f.kind.ty, JoinAlias(p.joinCounter, f.kind.ty.name);
        var p2 := AddColumn(p, f, alias).(joinCounter := p.joinCounter + 1);
        var p3 := PlanAfter(ty, table, p2);
        LoadFieldsEntity(fields, alias, p);
        PlanGrows(ty.fields, table, p2);
        PlanGrows(fields[1..], alias, p3);
        IndicesIncrease(ty.fields, table, p2);
        IndicesIncrease(fields[1..], alias, p3);
        assert l.fields[1..] == LoadFields(fields[1..], alias, p3).fields;
      } else {
        var p1 := AddColumn(p, f, alias);
        LoadFieldsScalar(fields, alias, p);
        PlanGrows(fields[1..], alias, p1);
        IndicesIncrease(fields[1..], alias, p1);
        assert l.fields[1..] == LoadFields(fields[1..], alias, p1).fields;
      }
    }
  }

  /** In a whole plan no two fields share an index and each index names its own field. */
  lemma ColumnsPointHome(ty: ObjectType)
    ensures var q, columns := LoadEntity(ty, ty.table, START), PlanAfter(ty, ty.table, START).columns;
            && PointHome(ty.fields, q.fields, ty.table, q.joins, columns)
            && Increasing(Indices(q.fields), 0, |columns|)
  {
    LoadPointsHome(ty.fields, ty.table, START, PlanAfter(ty, ty.table, START).columns);
    IndicesIncrease(ty.fields, ty.table, START);
  }
}
