/** Values, records, their total order, and the expressions that a query can ask the
    database to evaluate on a record. */
module Values {
  import opened Sequences

  datatype Option<+T> = None | Some(value: T)

  datatype Result<+T> = Ok(value: T) | Err(error: string)

  /** A JavaScript value as far as the datastore is concerned.  `Undefined` is the value of
      a property that is not there, `Null` also the SQL NULL. */
  datatype Value =
    | Undefined
    | Null
    | Bool(b: bool)
    | Num(n: int)
    | Str(s: string)
    | Entity(fields: Record)

  type Record = map<string, Value>

  function Lookup(r: Record, name: string): Value {
    if name in r then r[name] else Undefined
  }

  predicate IsScalar(v: Value) {
    v.Bool? || v.Num? || v.Str?
  }

  // ---------- order ----------

  predicate StrLess(a: string, b: string) {
    b != [] && (a == [] || a[0] < b[0] || (a[0] == b[0] && StrLess(a[1..], b[1..])))
  }

  lemma {:induction false} StrLessAsymmetric(a: string, b: string)
    requires StrLess(a, b)
    ensures !StrLess(b, a)
  {
    if a != [] && a[0] == b[0] {
      StrLessAsymmetric(a[1..], b[1..]);
    }
  }

  lemma {:induction false} StrLessTotal(a: string, b: string)
    ensures StrLess(a, b) || StrLess(b, a) || a == b
  {
    if a != [] && b != [] && a[0] == b[0] {
      StrLessTotal(a[1..], b[1..]);
      assert a == [a[0]] + a[1..] && b == [b[0]] + b[1..];
    }
  }

  lemma {:induction false} StrNotLessTransitive(a: string, b: string, c: string)
    requires !StrLess(a, b) && !StrLess(b, c)
    ensures !StrLess(a, c)
  {
    if a != [] && b != [] && c != [] && a[0] == b[0] && b[0] == c[0] {
      StrNotLessTransitive(a[1..], b[1..], c[1..]);
    }
  }

  function Rank(v: Value): nat {
    match v
    case Undefined => 0
    case Null => 1
    case Bool(_) => 2
    case Num(_) => 3
    case Str(_) => 4
    case Entity(_) => 5
  }

  /** Scalars of one kind in their natural order, kinds in a fixed order; two entities are
      never told apart. */
  predicate Less(a: Value, b: Value) {
    if Rank(a) != Rank(b) then Rank(a) < Rank(b)
    else match a
      case Bool(x) => !x && b.b
      case Num(x) => x < b.n
      case Str(x) => StrLess(x, b.s)
      case _ => false
  }

  lemma LessIsWeakOrder()
    ensures WeakOrder(Less)
  {
    forall a, b | Less(a, b) ensures !Less(b, a) {
      if a.Str? && b.Str? { StrLessAsymmetric(a.s, b.s); }
    }
    forall a, b, c | !Less(a, b) && !Less(b, c) ensures !Less(a, c) {
      if a.Str? && b.Str? && c.Str? { StrNotLessTransitive(a.s, b.s, c.s); }
    }
  }

  /** Values the order ties are equal, entities aside. */
  lemma LessIsTotal(a: Value, b: Value)
    ensures Less(a, b) || Less(b, a) || a == b || (a.Entity? && b.Entity?)
  {
    if a.Str? && b.Str? { StrLessTotal(a.s, b.s); }
  }

  /** The first place where two strings differ. */
  function Common(a: string, b: string): (n: nat)
    ensures n <= |a| && n <= |b|
  {
    if a != [] && b != [] && a[0] == b[0] then 1 + Common(a[1..], b[1..]) else 0
  }

  lemma {:induction false} CommonMeans(a: string, b: string)
    ensures var n := Common(a, b); a[..n] == b[..n] && (n < |a| && n < |b| ==> a[n] != b[n])
  {
    if a != [] && b != [] && a[0] == b[0] {
      CommonMeans(a[1..], b[1..]);
      var n := Common(a[1..], b[1..]);
      assert a[..n + 1] == [a[0]] + a[1..][..n] && b[..n + 1] == [b[0]] + b[1..][..n];
    }
  }

  /** Strings compare at the first place where they differ; what ends there comes first. */
  lemma {:induction false} StrLessMeans(a: string, b: string)
    ensures var n := Common(a, b); StrLess(a, b) <==> n < |b| && (n == |a| || a[n] < b[n])
  {
    if a != [] && b != [] && a[0] == b[0] {
      StrLessMeans(a[1..], b[1..]);
    }
  }

  // ---------- expressions ----------

  datatype BinaryOp = OpEq | OpNotEq | OpLt | OpLtEq | OpGt | OpGtEq | OpAnd | OpOr

  /** An expression over the record being filtered, which is parameter 0. */
  datatype Expr =
    | Const(value: Value)
    | Parameter(position: nat)
    | Property(object: Expr, property: string)
    | Binary(op: BinaryOp, left: Expr, right: Expr)
    | Not(expr: Expr)

  function And(l: Expr, r: Expr): Expr { Binary(OpAnd, l, r) }
  function Or(l: Expr, r: Expr): Expr { Binary(OpOr, l, r) }
  function Eq(l: Expr, r: Expr): Expr { Binary(OpEq, l, r) }

  predicate IsMissing(v: Value) { v.Undefined? || v.Null? }

  /** SQL evaluation: comparisons with NULL are NULL, AND/OR/NOT are three-valued. */
  function Eval(e: Expr, row: Record): Value {
    match e
    case Const(v) => v
    case Parameter(_) => Entity(row)
    case Property(o, name) =>
      var obj := Eval(o, row);
      if obj.Entity? then Lookup(obj.fields, name) else Undefined
    case Not(x) =>
      var v := Eval(x, row);
      if v.Bool? then Bool(!v.b) else Null
    case Binary(op, l, r) => Apply(op, Eval(l, row), Eval(r, row))
  }

  function Apply(op: BinaryOp, l: Value, r: Value): Value {
    match op
    case OpAnd =>
      if l == Bool(false) || r == Bool(false) then Bool(false)
      else if l == Bool(true) && r == Bool(true) then Bool(true) else Null
    case OpOr =>
      if l == Bool(true) || r == Bool(true) then Bool(true)
      else if l == Bool(false) && r == Bool(false) then Bool(false) else Null
    case _ =>
      if IsMissing(l) || IsMissing(r) then Null else Bool(Compare(op, l, r))
  }

  predicate Compare(op: BinaryOp, l: Value, r: Value) {
    match op
    case OpEq => l == r
    case OpNotEq => l != r
    case OpLt => Less(l, r)
    case OpLtEq => !Less(r, l)
    case OpGt => Less(r, l)
    case OpGtEq => !Less(l, r)
    case OpAnd => false
    case OpOr => false
  }

  /** A WHERE clause keeps the rows whose condition is true. */
  predicate Holds(e: Expr, row: Record) {
    Eval(e, row) == Bool(true)
  }
}
