/** Applying a read policy (server/src/policy): its skip condition is evaluated as far as the
    request decides it and pushed into the query; the policy itself runs on each row read. */
module PolicyFilter {
  import opened Values
  import opened PolicyRules
  import Sequences

  // ---------- JavaScript values ----------

  predicate JsTruthy(v: Value) {
    match v
    case Undefined => false
    case Null => false
    case Bool(b) => b
    case Num(n) => n != 0
    case Str(s) => s != ""
    case Entity(_) => true
  }

  /** Null and undefined equal each other and nothing else. */
  predicate JsEquals(l: Value, r: Value) {
    if IsMissing(l) || IsMissing(r) then IsMissing(l) && IsMissing(r) else l == r
  }

  function JsApply(op: LogicOp, l: Value, r: Value): Value {
    match op
    case LAnd => if JsTruthy(l) then r else l
    case LOr => if JsTruthy(l) then l else r
    case LEq => Bool(JsEquals(l, r))
    case LNeq => Bool(!JsEquals(l, r))
    case LLt => Bool(Less(l, r))
    case LLte => Bool(!Less(r, l))
    case LGt => Bool(Less(r, l))
    case LGte => Bool(!Less(l, r))
  }

  function JsMember(v: Value, prop: string): Value {
    if v.Entity? then Lookup(v.fields, prop) else Undefined
  }

  function JsNegate(v: Value): Value { Bool(!JsTruthy(v)) }

  ghost predicate UsesJs(s: Scope) {
    s.apply == JsApply && s.member == JsMember && s.negate == JsNegate && s.truthy == JsTruthy
  }

  /** The parameters of a policy function. */
  function PolicyScope(entityName: string, ctxName: string, ctx: Value, row: Record): Scope {
    Scope(
      name => if name == ctxName then ctx else if name == entityName then Entity(row) else Undefined,
      JsMember, JsApply, JsNegate, JsTruthy)
  }

  // ---------- the request ----------

  datatype Request = Request(verb: string, path: string, headers: Record, userId: Option<string>, token: Option<Value>)

  function UserOrNull(r: Request): Value { if r.userId.Some? then Str(r.userId.value) else Null }
  function TokenOrNull(r: Request): Value { if r.token.Some? then r.token.value else Null }

  /** What the partial evaluation sees. */
  function ToValue(r: Request): Value {
    Entity(map["method" := Str(r.verb), "path" := Str(r.path), "headers" := Entity(r.headers),
               "user_id" := UserOrNull(r), "token" := TokenOrNull(r)])
  }

  /** What the policy function sees. */
  function ToJsValue(r: Request): Value {
    Entity(map["method" := Str(r.verb), "path" := Str(r.path), "headers" := Entity(r.headers),
               "userId" := UserOrNull(r), "token" := TokenOrNull(r)])
  }

  function JsonGet(v: Value, prop: string): Value {
    if v.Entity? && prop in v.fields then v.fields[prop] else Null
  }

  predicate SameUpToMissing(a: Value, b: Value) { a == b || (IsMissing(a) && IsMissing(b)) }

  /** The two views agree on a member except on the user id, under either of its names. */
  lemma ViewsAgreeIff(r: Request, prop: string)
    ensures SameUpToMissing(JsonGet(ToValue(r), prop), JsMember(ToJsValue(r), prop)) <==>
            r.userId.None? || (prop != "userId" && prop != "user_id")
  {}

  // ---------- partial evaluation ----------

  /** The value of a variable below the request parameter, None for any other. */
  function GetValue(env: seq<Var>, id: nat, name: string, value: Value): Option<Value> {
    if id >= |env| then None
    else match env[id]
      case VarIdent(s) => if s == name then Some(value) else None
      case VarMember(o, prop) =>
        if o >= id then None
        else match GetValue(env, o, name, value)
          case None => None
          case Some(v) => Some(JsonGet(v, prop))
  }

  function EvalBinLit(op: LogicOp, l: Value, r: Value): Result<Predicate> {
    if op.LAnd? || op.LOr? then
      if !l.Bool? || !r.Bool? then Err("called unwrap on None")
      else Ok(PLit(Bool(if op.LAnd? then l.b && r.b else l.b || r.b)))
    else Ok(PLit(JsApply(op, l, r)))
  }

  function PartialEval(p: Predicate, env: seq<Var>, name: string, value: Value): Result<Predicate> {
    match p
    case PBin(op, lhs, rhs) =>
      (match PartialEval(lhs, env, name, value)
       case Err(m) => Err(m)
       case Ok(l) =>
         match PartialEval(rhs, env, name, value)
         case Err(m) => Err(m)
         case Ok(r) => if l.PLit? && r.PLit? then EvalBinLit(op, l.value, r.value) else Ok(PBin(op, l, r)))
    case PNot(x) =>
      (match PartialEval(x, env, name, value)
       case Err(m) => Err(m)
       case Ok(y) => Ok(if y.PLit? then PLit(Bool(!JsTruthy(y.value))) else PNot(y)))
    case PVar(id) =>
      (match GetValue(env, id, name, value)
       case Some(v) => Ok(PLit(v))
       case None => Ok(p))
    case PLit(_) => Ok(p)
  }

  function PartialEvalAll(preds: seq<Predicate>, env: seq<Var>, name: string, value: Value): Result<seq<Predicate>> {
    if preds == [] then Ok([])
    else match PartialEval(preds[0], env, name, value)
      case Err(m) => Err(m)
      case Ok(p) =>
        match PartialEvalAll(preds[1..], env, name, value)
        case Err(m) => Err(m)
        case Ok(rest) => Ok([p] + rest)
  }

  // ---------- the filter expression ----------

  function FromLogicOp(op: LogicOp): BinaryOp {
    match op
    case LEq => OpEq
    case LNeq => OpNotEq
    case LGt => OpGt
    case LGte => OpGtEq
    case LLt => OpLt
    case LLte => OpLtEq
    case LAnd => OpAnd
    case LOr => OpOr
  }

  function PredicateToExpr(p: Predicate, entityName: string, env: seq<Var>): Result<Expr> {
    match p
    case PBin(op, lhs, rhs) =>
      (match PredicateToExpr(lhs, entityName, env)
       case Err(m) => Err(m)
       case Ok(l) =>
         match PredicateToExpr(rhs, entityName, env)
         case Err(m) => Err(m)
         case Ok(r) => Ok(Binary(FromLogicOp(op), l, r)))
    case PNot(x) =>
      (match PredicateToExpr(x, entityName, env)
       case Err(m) => Err(m)
       case Ok(e) => Ok(Not(e)))
    case PLit(v) => Ok(Const(v))
    case PVar(id) =>
      if id < |env| && env[id].VarMember? && env[id].obj < |env| && env[env[id].obj] == VarIdent(entityName)
      then Ok(Property(Parameter(0), env[id].prop))
      else Err("unknown variable")
  }

  function CondToExpr(c: Cond, preds: seq<Predicate>, entityName: string, env: seq<Var>): Result<Expr> {
    match c
    case CAnd(left, right) =>
      (match CondToExpr(right, preds, entityName, env)
       case Err(m) => Err(m)
       case Ok(r) =>
         match CondToExpr(left, preds, entityName, env)
         case Err(m) => Err(m)
         case Ok(l) => Ok(And(l, r)))
    case COr(left, right) =>
      (match CondToExpr(right, preds, entityName, env)
       case Err(m) => Err(m)
       case Ok(r) =>
         match CondToExpr(left, preds, entityName, env)
         case Err(m) => Err(m)
         case Ok(l) => Ok(Or(l, r)))
    case CNot(x) =>
      (match CondToExpr(x, preds, entityName, env)
       case Err(m) => Err(m)
       case Ok(e) => Ok(Not(e)))
    case CPredicate(id) =>
      if id < |preds| then PredicateToExpr(preds[id], entityName, env) else Err("invalid predicate id!")
    case CTrue => Ok(Const(Bool(true)))
    case CFalse => Ok(Const(Bool(false)))
  }

  datatype Names = Names(entity: string, ctx: string)

  function EvalReadPolicyExpr(policy: FilterPolicy, names: Names, request: Request,
                              simp: PolicyRules.Bool -> PolicyRules.Bool,
                              checked: bool): Result<Option<Expr>> {
    match policy.whereConds
    case None => Ok(None)
    case Some(filter) =>
      match PartialEvalAll(policy.predicates, policy.env, names.ctx, ToValue(request))
      case Err(m) => Err(m)
      case Ok(preds) =>
        match Simplify(filter, preds, simp, checked)
        case Err(m) => Err(m)
        case Ok(cond) =>
          match CondToExpr(cond, preds, names.entity, policy.env)
          case Err(m) => Err(m)
          case Ok(e) => Ok(Some(e))
  }

  // ---------- predicates the database can decide ----------

  predicate SameKind(l: Value, r: Value) { IsScalar(l) && IsScalar(r) && Rank(l) == Rank(r) }

  /** Whether the request alone decides the predicate. */
  predicate Resolvable(p: Predicate, env: seq<Var>, name: string) {
    match p
    case PBin(_, l, r) => Resolvable(l, env, name) && Resolvable(r, env, name)
    case PNot(x) => Resolvable(x, env, name)
    case PLit(_) => true
    case PVar(id) => GetValue(env, id, name, Null).Some?
  }

  /** Operands have the types of their operators: logical operands are booleans, compared
      values are scalars of one kind.  Where the request decides, a missing value may be
      tested for equality and any value may be negated.  Of the request itself only members
      are used. */
  predicate Typed(p: Predicate, env: seq<Var>, name: string, s: Scope) {
    match p
    case PBin(op, l, r) =>
      var a, b := EvalPredicate(l, env, s), EvalPredicate(r, env, s);
      && Typed(l, env, name, s) && Typed(r, env, name, s)
      && if op.LAnd? || op.LOr? then a.Bool? && b.Bool?
         else
           || SameKind(a, b)
           || ((op.LEq? || op.LNeq?) && Resolvable(p, env, name) && (IsMissing(a) || IsMissing(b)))
    case PNot(x) => Typed(x, env, name, s) && (Resolvable(x, env, name) || EvalPredicate(x, env, s).Bool?)
    case PLit(_) => true
    case PVar(id) => !(id < |env| && env[id] == VarIdent(name))
  }

  /** Both request views give the members that the policy reads the same values. */
  ghost predicate ViewsAgree(env: seq<Var>, name: string, value: Value, s: Scope) {
    forall id: nat | id < |env| && env[id].VarMember? && GetValue(env, id, name, value).Some? ::
      SameUpToMissing(GetValue(env, id, name, value).value, VarValue(env, id, s))
  }

  /** The variable is the user id, under either of its names. */
  predicate IsUserId(env: seq<Var>, name: string, v: Var) {
    v.VarMember? && (v.prop == "userId" || v.prop == "user_id") && v.obj < |env| && env[v.obj] == VarIdent(name)
  }

  predicate ReadsUserId(env: seq<Var>, name: string) {
    exists v :: v in env && IsUserId(env, name, v)
  }

  /** The two views agree on all members that a policy reads if and only if there is no user or
      the policy does not read the user id. */
  lemma MembersAgreeIff(env: seq<Var>, names: Names, request: Request, row: Record)
    requires ValidEnv(env) && names.entity != names.ctx
    ensures var s := PolicyScope(names.entity, names.ctx, ToJsValue(request), row);
            ViewsAgree(env, names.ctx, ToValue(request), s) <==> request.userId.None? || !ReadsUserId(env, names.ctx)
  {
    var s := PolicyScope(names.entity, names.ctx, ToJsValue(request), row);
    if request.userId.None? || !ReadsUserId(env, names.ctx) {
      forall id: nat | id < |env| && env[id].VarMember? && GetValue(env, id, names.ctx, ToValue(request)).Some?
        ensures SameUpToMissing(GetValue(env, id, names.ctx, ToValue(request)).value, VarValue(env, id, s))
      {
        MemberAgrees(env, id, names, request, s);
      }
    } else {
      var v :| v in env && IsUserId(env, names.ctx, v);
      var id :| 0 <= id < |env| && env[id] == v;
      ViewsAgreeIff(request, v.prop);
      assert GetValue(env, v.obj, names.ctx, ToValue(request)) == Some(ToValue(request));
      assert VarValue(env, v.obj, s) == ToJsValue(request);
      assert GetValue(env, id, names.ctx, ToValue(request)) == Some(JsonGet(ToValue(request), v.prop));
    }
  }

  lemma {:induction false} MemberAgrees(env: seq<Var>, id: nat, names: Names, request: Request, s: Scope)
    requires ValidEnv(env) && id < |env| && env[id].VarMember? && GetValue(env, id, names.ctx, ToValue(request)).Some?
    requires UsesJs(s) && s.ident(names.ctx) == ToJsValue(request)
    requires request.userId.None? || !ReadsUserId(env, names.ctx)
    ensures SameUpToMissing(GetValue(env, id, names.ctx, ToValue(request)).value, VarValue(env, id, s))
  {
    var v := env[id];
    if env[v.obj].VarMember? {
      MemberAgrees(env, v.obj, names, request, s);
    } else {
      assert v in env && env[v.obj] == VarIdent(names.ctx);
      assert request.userId.Some? ==> !IsUserId(env, names.ctx, v);
      ViewsAgreeIff(request, v.prop);
    }
  }

  lemma {:induction false} ResolvableIsStructural(env: seq<Var>, id: nat, name: string, v: Value, v': Value)
    ensures GetValue(env, id, name, v).Some? <==> GetValue(env, id, name, v').Some?
  {
    if id < |env| && env[id].VarMember? && env[id].obj < id {
      ResolvableIsStructural(env, env[id].obj, name, v, v');
    }
  }

  /** Partial evaluation succeeds, leaves a literal exactly of what the request decides, and the
      literal is the value. */
  lemma {:induction false} PartialEvalKeepsValue(p: Predicate, env: seq<Var>, name: string, value: Value, s: Scope)
    requires Typed(p, env, name, s) && ViewsAgree(env, name, value, s) && UsesJs(s)
    ensures PartialEval(p, env, name, value).Ok?
    ensures var q := PartialEval(p, env, name, value).value;
            && (q.PLit? <==> Resolvable(p, env, name))
            && (q.PLit? ==> SameUpToMissing(q.value, EvalPredicate(p, env, s)))
  {
    match p
    case PBin(op, l, r) =>
      PartialEvalKeepsValue(l, env, name, value, s);
      PartialEvalKeepsValue(r, env, name, value, s);
    case PNot(x) =>
      PartialEvalKeepsValue(x, env, name, value, s);
    case PVar(id) =>
      ResolvableIsStructural(env, id, name, value, Null);
    case PLit(_) =>
  }

  /** Where the request decides both sides of a logical operator, evaluation panics unless both are
      booleans, though JavaScript would go on; on booleans it is the operator itself. */
  lemma LogicNeedsBooleans(op: LogicOp, l: Predicate, r: Predicate, env: seq<Var>, name: string, value: Value,
                           a: Value, b: Value)
    requires op == LAnd || op == LOr
    requires PartialEval(l, env, name, value) == Ok(PLit(a)) && PartialEval(r, env, name, value) == Ok(PLit(b))
    ensures PartialEval(PBin(op, l, r), env, name, value).Ok? <==> a.Bool? && b.Bool?
    ensures a.Bool? && b.Bool? ==>
              PartialEval(PBin(op, l, r), env, name, value) ==
              Ok(PLit(Bool(if op == LAnd then a.b && b.b else a.b || b.b)))
  {}

  /** The expression that is left has the value of the predicate. */
  lemma {:induction false} ResidualKeepsValue(p: Predicate, env: seq<Var>, names: Names, value: Value, s: Scope,
                                              row: Record)
    requires Typed(p, env, names.ctx, s) && ViewsAgree(env, names.ctx, value, s) && UsesJs(s)
    requires s.ident(names.entity) == Entity(row) && ValidEnv(env) && VarsBelow(p, |env|)
    requires PartialEval(p, env, names.ctx, value).Ok?
    requires PredicateToExpr(PartialEval(p, env, names.ctx, value).value, names.entity, env).Ok?
    ensures var e := PredicateToExpr(PartialEval(p, env, names.ctx, value).value, names.entity, env).value;
            SameUpToMissing(Eval(e, row), EvalPredicate(p, env, s))
  {
    PartialEvalKeepsValue(p, env, names.ctx, value, s);
    var q := PartialEval(p, env, names.ctx, value).value;
    if !q.PLit? {
      match p
      case PBin(op, l, r) =>
        ResidualKeepsValue(l, env, names, value, s, row);
        ResidualKeepsValue(r, env, names, value, s, row);
        var (q', r') := (PartialEval(l, env, names.ctx, value).value, PartialEval(r, env, names.ctx, value).value);
        OperatorsAgree(op, Eval(PredicateToExpr(q', names.entity, env).value, row),
                       Eval(PredicateToExpr(r', names.entity, env).value, row),
                       EvalPredicate(l, env, s), EvalPredicate(r, env, s));
      case PNot(x) =>
        ResidualKeepsValue(x, env, names, value, s, row);
      case PVar(id) =>
        assert VarValue(env, env[id].obj, s) == Entity(row);
    }
  }

  lemma OperatorsAgree(op: LogicOp, l: Value, r: Value, l': Value, r': Value)
    requires SameUpToMissing(l, l') && SameUpToMissing(r, r')
    requires if op.LAnd? || op.LOr? then l'.Bool? && r'.Bool? else SameKind(l', r')
    ensures Apply(FromLogicOp(op), l, r) == JsApply(op, l', r')
  {}

  lemma {:induction false} PartialEvalAt(preds: seq<Predicate>, env: seq<Var>, name: string, value: Value)
    ensures PartialEvalAll(preds, env, name, value).Ok? <==>
            forall i :: 0 <= i < |preds| ==> PartialEval(preds[i], env, name, value).Ok?
    ensures PartialEvalAll(preds, env, name, value).Ok? ==>
              var r := PartialEvalAll(preds, env, name, value).value;
              |r| == |preds| && forall i :: 0 <= i < |preds| ==> PartialEval(preds[i], env, name, value) == Ok(r[i])
  {
    if preds != [] {
      PartialEvalAt(preds[1..], env, name, value);
      assert preds == [preds[0]] + preds[1..];
    }
  }

  /** Tests are booleans that the database can decide. */
  ghost predicate TypedPolicy(preds: seq<Predicate>, env: seq<Var>, name: string, s: Scope) {
    forall i :: 0 <= i < |preds| ==> Typed(preds[i], env, name, s) && EvalPredicate(preds[i], env, s).Bool?
  }

  lemma {:induction false} CondKeepsTruth(c: Cond, preds: seq<Predicate>, names: Names, env: seq<Var>, row: Record,
                                          truth: nat -> bool)
    requires CondToExpr(c, preds, names.entity, env).Ok?
    requires forall id | id in Ids(c) && id < |preds| && PredicateToExpr(preds[id], names.entity, env).Ok? ::
               Eval(PredicateToExpr(preds[id], names.entity, env).value, row) == Bool(truth(id))
    ensures Eval(CondToExpr(c, preds, names.entity, env).value, row) == Bool(EvalCond(c, truth))
  {
    match c
    case CAnd(l, r) =>
      CondKeepsTruth(l, preds, names, env, row, truth);
      CondKeepsTruth(r, preds, names, env, row, truth);
    case COr(l, r) =>
      CondKeepsTruth(l, preds, names, env, row, truth);
      CondKeepsTruth(r, preds, names, env, row, truth);
    case CNot(x) => CondKeepsTruth(x, preds, names, env, row, truth);
    case CPredicate(id) => assert id in Ids(c);
    case _ =>
  }

  /** When the pushed filter can be made, the database keeps exactly the rows that the policy
      does not skip. */
  lemma FilterMeansNotSkip(r: Region, names: Names, request: Request, row: Record,
                           simp: PolicyRules.Bool -> PolicyRules.Bool, checked: bool)
    requires IsSimplifier(simp) && names.entity != names.ctx && Infer(r, CTrue, Rules([], [])).Ok?
    requires |Infer(r, CTrue, Rules([], [])).value.1.predicates| <= Limit(checked)
    requires var st := Infer(r, CTrue, Rules([], [])).value.1;
             var s := PolicyScope(names.entity, names.ctx, ToJsValue(request), row);
             && TypedPolicy(st.predicates, st.env, names.ctx, s)
             && (request.userId.None? || !ReadsUserId(st.env, names.ctx))
    requires FromArrow(r, simp, checked).Ok?
    requires EvalReadPolicyExpr(FromArrow(r, simp, checked).value, names, request, simp, checked).Ok?
    ensures var run := RunRegion(r, PolicyScope(names.entity, names.ctx, ToJsValue(request), row));
            match EvalReadPolicyExpr(FromArrow(r, simp, checked).value, names, request, simp, checked).value
            case None => run != Some(Skip)
            case Some(e) => Holds(e, row) <==> run != Some(Skip)
  {
    var s := PolicyScope(names.entity, names.ctx, ToJsValue(request), row);
    WhereMeansNotSkip(r, simp, checked, s);
    var policy := FromArrow(r, simp, checked).value;
    if policy.whereConds.Some? {
      MembersAgreeIff(policy.env, names, request, row);
      PushedCondition(policy, names, request, row, simp, checked);
    }
  }

  lemma PushedPredicate(p: Predicate, env: seq<Var>, names: Names, value: Value, s: Scope, row: Record)
    requires Typed(p, env, names.ctx, s) && EvalPredicate(p, env, s).Bool?
    requires ViewsAgree(env, names.ctx, value, s) && UsesJs(s)
    requires s.ident(names.entity) == Entity(row) && ValidEnv(env) && VarsBelow(p, |env|)
    ensures PartialEval(p, env, names.ctx, value).Ok?
    ensures var q, truth := PartialEval(p, env, names.ctx, value).value, JsTruthy(EvalPredicate(p, env, s));
            && (IsLiteral(q) ==> q.value == Bool(truth))
            && var e := PredicateToExpr(q, names.entity, env); (e.Ok? ==> Eval(e.value, row) == Bool(truth))
  {
    PartialEvalKeepsValue(p, env, names.ctx, value, s);
    if PredicateToExpr(PartialEval(p, env, names.ctx, value).value, names.entity, env).Ok? {
      ResidualKeepsValue(p, env, names, value, s, row);
    }
  }

  lemma PushedCondition(policy: FilterPolicy, names: Names, request: Request, row: Record,
                        simp: PolicyRules.Bool -> PolicyRules.Bool, checked: bool)
    requires IsSimplifier(simp) && names.entity != names.ctx && |policy.predicates| <= Limit(checked)
    requires GoodRules(Rules(policy.predicates, policy.env))
    requires policy.whereConds.Some? && Below(policy.whereConds.value, |policy.predicates|)
    requires var s := PolicyScope(names.entity, names.ctx, ToJsValue(request), row);
             && TypedPolicy(policy.predicates, policy.env, names.ctx, s)
             && ViewsAgree(policy.env, names.ctx, ToValue(request), s)
    requires EvalReadPolicyExpr(policy, names, request, simp, checked).Ok?
    ensures var s := PolicyScope(names.entity, names.ctx, ToJsValue(request), row);
            Holds(EvalReadPolicyExpr(policy, names, request, simp, checked).value.value, row) <==>
            EvalCond(policy.whereConds.value, PolicyTruth(policy, s))
  {
    var s := PolicyScope(names.entity, names.ctx, ToJsValue(request), row);
    var truth := PolicyTruth(policy, s);
    var preds := PartialEvalAll(policy.predicates, policy.env, names.ctx, ToValue(request)).value;
    PartialEvalAt(policy.predicates, policy.env, names.ctx, ToValue(request));
    forall id: nat | id < |preds|
      ensures IsLiteral(preds[id]) ==> truth(id) == preds[id].value.b
      ensures var e := PredicateToExpr(preds[id], names.entity, policy.env);
              e.Ok? ==> Eval(e.value, row) == Bool(truth(id))
    {
      var p := policy.predicates[id];
      assert truth(id) == JsTruthy(EvalPredicate(p, policy.env, s));
      PushedPredicate(p, policy.env, names, ToValue(request), s, row);
    }
    SimplifyBelow(policy.whereConds.value, preds, simp, checked, truth);
    var cond := Simplify(policy.whereConds.value, preds, simp, checked).value;
    CondKeepsTruth(cond, preds, names, policy.env, row, truth);
  }

  /** `ctx.userId == row.owner`, its predicate and its variables. */
  function OwnerTest(names: Names): JsExpr {
    Bin(Some(LEq), Member(Ident(names.ctx), PropName("userId")), Member(Ident(names.entity), PropName("owner")))
  }

  const OWNER_PREDICATE := PBin(LEq, PVar(1), PVar(3))

  function OwnerEnv(names: Names): seq<Var> {
    [VarIdent(names.ctx), VarMember(0, "userId"), VarIdent(names.entity), VarMember(2, "owner")]
  }

  lemma OwnerTestParses(names: Names)
    requires names.entity != names.ctx
    ensures ParseExpr(OwnerTest(names), []) == Ok((OWNER_PREDICATE, OwnerEnv(names)))
  {
    var env := OwnerEnv(names);
    assert env[..1] == [env[0]] && [] + [env[0]] == [env[0]];
    assert env[..1] + [env[1]] == env[..2] && env[..2] + [env[2]] == env[..3] && env[..3] + [env[3]] == env;
    assert Insert([], env[0]) == (env[..1], 0);
    assert Insert(env[..1], env[1]) == (env[..2], 1);
    assert Insert(env[..2], env[2]) == (env[..3], 2);
    assert Insert(env[..3], env[3]) == (env, 3);
    assert ParseExpr(Ident(names.ctx), []) == Ok((PVar(0), env[..1]));
    assert ParseExpr(Member(Ident(names.ctx), PropName("userId")), []) == Ok((PVar(1), env[..2]));
    assert ParseExpr(Ident(names.entity), env[..2]) == Ok((PVar(2), env[..3]));
    assert ParseExpr(Member(Ident(names.entity), PropName("owner")), env[..2]) == Ok((PVar(3), env));
  }

  // ---------- when the filter can be made ----------

  /** Every variable is decided by the request or is a field of the row. */
  predicate Convertible(p: Predicate, env: seq<Var>, names: Names) {
    match p
    case PBin(_, l, r) => Convertible(l, env, names) && Convertible(r, env, names)
    case PNot(x) => Convertible(x, env, names)
    case PLit(_) => true
    case PVar(id) =>
      || GetValue(env, id, names.ctx, Null).Some?
      || (id < |env| && env[id].VarMember? && env[id].obj < |env| && env[env[id].obj] == VarIdent(names.entity))
  }

  lemma {:induction false} ResidualConverts(p: Predicate, env: seq<Var>, names: Names, value: Value)
    requires Convertible(p, env, names) && PartialEval(p, env, names.ctx, value).Ok?
    ensures PredicateToExpr(PartialEval(p, env, names.ctx, value).value, names.entity, env).Ok?
  {
    match p
    case PBin(_, l, r) =>
      ResidualConverts(l, env, names, value);
      ResidualConverts(r, env, names, value);
    case PNot(x) => ResidualConverts(x, env, names, value);
    case PLit(_) =>
    case PVar(id) => ResolvableIsStructural(env, id, names.ctx, value, Null);
  }

  lemma {:induction false} CondConverts(c: Cond, preds: seq<Predicate>, names: Names, env: seq<Var>)
    requires forall id | id in Ids(c) :: id < |preds| && PredicateToExpr(preds[id], names.entity, env).Ok?
    ensures CondToExpr(c, preds, names.entity, env).Ok?
  {
    match c
    case CAnd(l, r) =>
      CondConverts(l, preds, names, env);
      CondConverts(r, preds, names, env);
    case COr(l, r) =>
      CondConverts(l, preds, names, env);
      CondConverts(r, preds, names, env);
    case CNot(x) =>
      assert Ids(x) == Ids(c);
      CondConverts(x, preds, names, env);
    case CPredicate(id) => assert id in Ids(c);
    case _ =>
  }

  /** The filter of a compiled policy is made when its predicates can be evaluated as far as the
      request goes and read nothing but the request and fields of the row. */
  lemma FilterIsMade(policy: FilterPolicy, names: Names, request: Request, simp: PolicyRules.Bool -> PolicyRules.Bool,
                     checked: bool)
    requires IsSimplifier(simp) && |policy.predicates| <= Limit(checked)
    requires policy.whereConds.Some? ==> Below(policy.whereConds.value, |policy.predicates|)
    requires forall i :: 0 <= i < |policy.predicates| ==> Convertible(policy.predicates[i], policy.env, names)
    requires PartialEvalAll(policy.predicates, policy.env, names.ctx, ToValue(request)).Ok?
    ensures EvalReadPolicyExpr(policy, names, request, simp, checked).Ok?
    ensures EvalReadPolicyExpr(policy, names, request, simp, checked).value.Some? <==> policy.whereConds.Some?
  {
    if policy.whereConds.Some? {
      var preds := PartialEvalAll(policy.predicates, policy.env, names.ctx, ToValue(request)).value;
      PartialEvalAt(policy.predicates, policy.env, names.ctx, ToValue(request));
      var truth := (id: nat) => id < |preds| && preds[id] == PLit(Bool(true));
      SimplifyBelow(policy.whereConds.value, preds, simp, checked, truth);
      var cond := Simplify(policy.whereConds.value, preds, simp, checked).value;
      forall id | id in Ids(cond) ensures PredicateToExpr(preds[id], names.entity, policy.env).Ok? {
        ResidualConverts(policy.predicates[id], policy.env, names, ToValue(request));
      }
      CondConverts(cond, preds, names, policy.env);
    }
  }

  // ---------- two policies ----------

  function ReturnAction(name: string): Region {
    BasicBlock([ReturnOf(name)])
  }

  /** if (test) return Action.<yes>; else return Action.<no>; */
  function TestPolicy(test: JsExpr, yes: string, no: string): Region {
    CondRegion(BasicBlock([IfStmt(test)]), ReturnAction(yes), ReturnAction(no))
  }

  lemma TestPolicyInfers(test: JsExpr, yes: string, no: string, p: Predicate, env: seq<Var>, s: Scope)
    requires yes in ACTION_NAMES && no in ACTION_NAMES
    requires ParseExpr(test, []) == Ok((p, env))
    ensures Infer(TestPolicy(test, yes, no), CTrue, Rules([], [])).Ok?
    ensures Infer(TestPolicy(test, yes, no), CTrue, Rules([], [])).value.1 == Rules([p], env)
    ensures RunRegion(TestPolicy(test, yes, no), s) ==
            Some(ACTION_NAMES[if s.truthy(EvalExpr(test, s)) then yes else no])
  {
    assert [] + [p] == [p];
    assert TestOf(BasicBlock([IfStmt(test)])) == Some(test);
  }

  /** The values that fail a test in JavaScript. */
  const FALSY: seq<Value> := [Undefined, Null, Bool(false), Num(0), Str("")]

  /** Tests on a field of the row, as it stands, negated, and compared with null. */
  lemma FieldTestRuns(names: Names, request: Request, row: Record, field: string)
    requires names.entity != names.ctx
    ensures var s, v := PolicyScope(names.entity, names.ctx, ToJsValue(request), row), Lookup(row, field);
            var test := Member(Ident(names.entity), PropName(field));
            && RunRegion(TestPolicy(test, "Skip", "Allow"), s) == Some(if v in FALSY then Allow else Skip)
            && RunRegion(TestPolicy(Bang(test), "Log", "Deny"), s) == Some(if v in FALSY then Log else Deny)
            && RunRegion(TestPolicy(Bin(Some(LEq), test, Literal(Some(Null))), "Skip", "Deny"), s) ==
               Some(if v == Null || v == Undefined then Skip else Deny)
  {
    var s, v := PolicyScope(names.entity, names.ctx, ToJsValue(request), row), Lookup(row, field);
    var test := Member(Ident(names.entity), PropName(field));
    assert EvalExpr(Ident(names.entity), s) == Entity(row);
    assert EvalExpr(test, s) == v;
    assert JsTruthy(v) <==> v !in FALSY;
    RunOfTest(test, "Skip", "Allow", s);
    RunOfTest(Bang(test), "Log", "Deny", s);
    assert EvalExpr(Literal(Some(Null)), s) == Null;
    RunOfTest(Bin(Some(LEq), test, Literal(Some(Null))), "Skip", "Deny", s);
  }

  lemma RunOfTest(test: JsExpr, yes: string, no: string, s: Scope)
    requires yes in ACTION_NAMES && no in ACTION_NAMES
    ensures RunRegion(TestPolicy(test, yes, no), s) ==
            Some(ACTION_NAMES[if s.truthy(EvalExpr(test, s)) then yes else no])
  {
    assert TestOf(BasicBlock([IfStmt(test)])) == Some(test);
  }

  lemma CompiledKeepsRules(r: Region, simp: PolicyRules.Bool -> PolicyRules.Bool, checked: bool)
    requires FromArrow(r, simp, checked).Ok?
    ensures var p := FromArrow(r, simp, checked).value;
            Infer(r, CTrue, Rules([], [])).Ok? && Infer(r, CTrue, Rules([], [])).value.1 == Rules(p.predicates, p.env)
  {}

  /** `ctx.method == <verb>`. */
  function MethodTest(names: Names, verb: string): JsExpr {
    Bin(Some(LEq), Member(Ident(names.ctx), PropName("method")), Literal(Some(Str(verb))))
  }

  function MethodEnv(names: Names): seq<Var> { [VarIdent(names.ctx), VarMember(0, "method")] }

  lemma MethodTestParses(names: Names, verb: string)
    ensures ParseExpr(MethodTest(names, verb), []) == Ok((PBin(LEq, PVar(1), PLit(Str(verb))), MethodEnv(names)))
  {
    var env := MethodEnv(names);
    assert env[..1] == [env[0]] && [] + [env[0]] == [env[0]] && env[..1] + [env[1]] == env;
    assert Insert([], env[0]) == (env[..1], 0);
    assert Insert(env[..1], env[1]) == (env, 1);
    assert ParseExpr(Ident(names.ctx), []) == Ok((PVar(0), env[..1]));
    assert ParseExpr(Member(Ident(names.ctx), PropName("method")), []) == Ok((PVar(1), env));
  }

  lemma MethodTestMeans(names: Names, verb: string, request: Request, row: Record)
    requires names.entity != names.ctx
    ensures var s, env := PolicyScope(names.entity, names.ctx, ToJsValue(request), row), MethodEnv(names);
            && EvalExpr(MethodTest(names, verb), s) == Bool(request.verb == verb)
            && EvalPredicate(PBin(LEq, PVar(1), PLit(Str(verb))), env, s) == Bool(request.verb == verb)
            && Typed(PBin(LEq, PVar(1), PLit(Str(verb))), env, names.ctx, s)
  {
    var s, env := PolicyScope(names.entity, names.ctx, ToJsValue(request), row), MethodEnv(names);
    assert VarValue(env, 0, s) == ToJsValue(request) && VarValue(env, 1, s) == Str(request.verb);
    assert EvalExpr(Ident(names.ctx), s) == ToJsValue(request);
    assert EvalExpr(Member(Ident(names.ctx), PropName("method")), s) == Str(request.verb);
  }

  /** A policy that skips some row has a condition. */
  lemma SkipIsCompiled(r: Region, p: Predicate, env: seq<Var>, names: Names, request: Request, row: Record,
                       simp: PolicyRules.Bool -> PolicyRules.Bool, checked: bool)
    requires IsSimplifier(simp) && Infer(r, CTrue, Rules([], [])).Ok?
    requires Infer(r, CTrue, Rules([], [])).value.1 == Rules([p], env)
    requires RunRegion(r, PolicyScope(names.entity, names.ctx, ToJsValue(request), row)) == Some(Skip)
    ensures FromArrow(r, simp, checked).Ok?
    ensures var policy := FromArrow(r, simp, checked).value;
            && policy.predicates == [p] && policy.env == env && GoodRules(Rules([p], env))
            && policy.whereConds.Some? && Below(policy.whereConds.value, 1)
            && !EvalCond(policy.whereConds.value,
                         PolicyTruth(policy, PolicyScope(names.entity, names.ctx, ToJsValue(request), row)))
  {
    WhereMeansNotSkip(r, simp, checked, PolicyScope(names.entity, names.ctx, ToJsValue(request), row));
    CompiledKeepsRules(r, simp, checked);
  }

  function MethodPolicy(names: Names, verb: string): Region {
    TestPolicy(MethodTest(names, verb), "Skip", "Allow")
  }

  /** The policy meets what is asked of a policy above, for every request and row. */
  lemma MethodPolicyIsTyped(names: Names, verb: string, request: Request, row: Record)
    requires names.entity != names.ctx
    ensures var r, p := MethodPolicy(names, verb), PBin(LEq, PVar(1), PLit(Str(verb)));
            && Infer(r, CTrue, Rules([], [])).Ok?
            && Infer(r, CTrue, Rules([], [])).value.1 == Rules([p], MethodEnv(names))
            && TypedRow(r, names, request, row) && !ReadsUserId(MethodEnv(names), names.ctx)
            && RunRegion(r, PolicyScope(names.entity, names.ctx, ToJsValue(request), row)) ==
               Some(if request.verb == verb then Skip else Allow)
  {
    MethodTestParses(names, verb);
    MethodTestMeans(names, verb, request, row);
    TestPolicyInfers(MethodTest(names, verb), "Skip", "Allow", PBin(LEq, PVar(1), PLit(Str(verb))), MethodEnv(names),
                     PolicyScope(names.entity, names.ctx, ToJsValue(request), row));
  }

  lemma MethodFilterIsMade(policy: FilterPolicy, names: Names, verb: string, request: Request,
                           simp: PolicyRules.Bool -> PolicyRules.Bool, checked: bool)
    requires names.entity != names.ctx && IsSimplifier(simp)
    requires policy.predicates == [PBin(LEq, PVar(1), PLit(Str(verb)))] && policy.env == MethodEnv(names)
    requires policy.whereConds.Some? && Below(policy.whereConds.value, 1)
    ensures EvalReadPolicyExpr(policy, names, request, simp, checked).Ok?
    ensures EvalReadPolicyExpr(policy, names, request, simp, checked).value.Some?
  {
    var env := MethodEnv(names);
    PartialEvalAt(policy.predicates, env, names.ctx, ToValue(request));
    assert GetValue(env, 0, names.ctx, Null) == Some(Null) && GetValue(env, 1, names.ctx, Null) == Some(Null);
    assert GetValue(env, 0, names.ctx, ToValue(request)) == Some(ToValue(request));
    assert GetValue(env, 1, names.ctx, ToValue(request)) == Some(Str(request.verb));
    FilterIsMade(policy, names, request, simp, checked);
  }

  /** A policy that skips everything for one method: the theorem applies to it for every request
      and row, and its filter keeps all rows or none as the request says. */
  lemma MethodPolicyIsPushed(names: Names, verb: string, request: Request, row: Record,
                             simp: PolicyRules.Bool -> PolicyRules.Bool, checked: bool)
    requires names.entity != names.ctx && IsSimplifier(simp)
    ensures var r := MethodPolicy(names, verb);
            && Infer(r, CTrue, Rules([], [])).Ok? && TypedRow(r, names, request, row)
            && !ReadsUserId(Infer(r, CTrue, Rules([], [])).value.1.env, names.ctx)
            && FromArrow(r, simp, checked).Ok?
            && var e := EvalReadPolicyExpr(FromArrow(r, simp, checked).value, names, request, simp, checked);
               e.Ok? && e.value.Some? && (Holds(e.value.value, row) <==> request.verb != verb)
  {
    var r := MethodPolicy(names, verb);
    MethodPolicyIsTyped(names, verb, request, row);
    MethodPolicyIsTyped(names, verb, request.(verb := verb), row);
    SkipIsCompiled(r, PBin(LEq, PVar(1), PLit(Str(verb))), MethodEnv(names), names, request.(verb := verb), row, simp,
      checked);
    MethodFilterIsMade(FromArrow(r, simp, checked).value, names, verb, request, simp, checked);
    FilterMeansNotSkip(r, names, request, row, simp, checked);
  }

  /** Conditions over NULL: the expression is NULL or has the condition's truth value, whatever
      is put for the predicates that are NULL. */
  lemma {:induction false} NullIsUnknown(c: Cond, preds: seq<Predicate>, names: Names, env: seq<Var>, row: Record,
                                         truth: nat -> bool)
    requires CondToExpr(c, preds, names.entity, env).Ok?
    requires forall id | id in Ids(c) && id < |preds| && PredicateToExpr(preds[id], names.entity, env).Ok? ::
               Eval(PredicateToExpr(preds[id], names.entity, env).value, row) in [Null, Bool(truth(id))]
    ensures Eval(CondToExpr(c, preds, names.entity, env).value, row) in [Null, Bool(EvalCond(c, truth))]
  {
    match c
    case CAnd(l, r) =>
      NullIsUnknown(l, preds, names, env, row, truth);
      NullIsUnknown(r, preds, names, env, row, truth);
    case COr(l, r) =>
      NullIsUnknown(l, preds, names, env, row, truth);
      NullIsUnknown(r, preds, names, env, row, truth);
    case CNot(x) =>
      assert Ids(x) == Ids(c);
      NullIsUnknown(x, preds, names, env, row, truth);
    case CPredicate(id) => assert id in Ids(c);
    case _ =>
  }

  lemma OwnerTestMeans(names: Names, request: Request, row: Record)
    requires names.entity != names.ctx && request.userId.Some?
    ensures var s, mine := PolicyScope(names.entity, names.ctx, ToJsValue(request), row),
                           Lookup(row, "owner") == Str(request.userId.value);
            && EvalExpr(OwnerTest(names), s) == Bool(mine)
            && EvalPredicate(OWNER_PREDICATE, OwnerEnv(names), s) == Bool(mine)
  {
    var s, env := PolicyScope(names.entity, names.ctx, ToJsValue(request), row), OwnerEnv(names);
    assert EvalExpr(Ident(names.ctx), s) == ToJsValue(request) && EvalExpr(Ident(names.entity), s) == Entity(row);
    assert EvalExpr(Member(Ident(names.ctx), PropName("userId")), s) == Str(request.userId.value);
    assert EvalExpr(Member(Ident(names.entity), PropName("owner")), s) == Lookup(row, "owner");
    assert VarValue(env, 0, s) == ToJsValue(request) && VarValue(env, 2, s) == Entity(row);
    assert VarValue(env, 1, s) == Str(request.userId.value) && VarValue(env, 3, s) == Lookup(row, "owner");
  }

  /** What is left of the owner test: the user is NULL. */
  lemma OwnerTestIsNull(names: Names, request: Request, row: Record)
    requires names.entity != names.ctx
    ensures PartialEval(OWNER_PREDICATE, OwnerEnv(names), names.ctx, ToValue(request)) ==
            Ok(PBin(LEq, PLit(Null), PVar(3)))
    ensures var e := PredicateToExpr(PBin(LEq, PLit(Null), PVar(3)), names.entity, OwnerEnv(names));
            e.Ok? && Eval(e.value, row) == Null
  {
    var env := OwnerEnv(names);
    assert GetValue(env, 0, names.ctx, ToValue(request)) == Some(ToValue(request));
    assert GetValue(env, 1, names.ctx, ToValue(request)) == Some(Null);
    assert GetValue(env, 2, names.ctx, ToValue(request)) == None;
    assert GetValue(env, 3, names.ctx, ToValue(request)) == None;
    assert PredicateToExpr(PVar(3), names.entity, env) == Ok(Property(Parameter(0), "owner"));
    assert PredicateToExpr(PLit(Null), names.entity, env) == Ok(Const(Null));
    assert Eval(Const(Null), row) == Null;
  }

  /** The policy that lets a user see the rows with `ctx.userId == row.owner`: it allows the
      owner's rows and skips the others, but the compiled filter keeps no row at all, for any
      user, table and simplifier. */
  lemma UserIdIsLost(names: Names, request: Request, row: Record,
                     simp: PolicyRules.Bool -> PolicyRules.Bool, checked: bool)
    requires names.entity != names.ctx && request.userId.Some? && IsSimplifier(simp)
    ensures var r := TestPolicy(OwnerTest(names), "Allow", "Skip");
            && RunRegion(r, PolicyScope(names.entity, names.ctx, ToJsValue(request), row)) ==
               Some(if Lookup(row, "owner") == Str(request.userId.value) then Allow else Skip)
            && FromArrow(r, simp, checked).Ok?
            && var e := EvalReadPolicyExpr(FromArrow(r, simp, checked).value, names, request, simp, checked);
               e.Ok? && e.value.Some? && !Holds(e.value.value, row)
  {
    var r, nobody: Record := TestPolicy(OwnerTest(names), "Allow", "Skip"), map[];
    var s := PolicyScope(names.entity, names.ctx, ToJsValue(request), nobody);
    OwnerTestParses(names);
    OwnerTestMeans(names, request, row);
    OwnerTestMeans(names, request, nobody);
    TestPolicyInfers(OwnerTest(names), "Allow", "Skip", OWNER_PREDICATE, OwnerEnv(names),
                     PolicyScope(names.entity, names.ctx, ToJsValue(request), row));
    TestPolicyInfers(OwnerTest(names), "Allow", "Skip", OWNER_PREDICATE, OwnerEnv(names), s);
    SkipIsCompiled(r, OWNER_PREDICATE, OwnerEnv(names), names, request, nobody, simp, checked);
    LostFilter(FromArrow(r, simp, checked).value, names, request, row, s, simp, checked);
  }

  lemma LostFilter(policy: FilterPolicy, names: Names, request: Request, row: Record, s: Scope,
                   simp: PolicyRules.Bool -> PolicyRules.Bool, checked: bool)
    requires names.entity != names.ctx && IsSimplifier(simp) && UsesJs(s)
    requires policy.predicates == [OWNER_PREDICATE] && policy.env == OwnerEnv(names)
    requires policy.whereConds.Some? && Below(policy.whereConds.value, 1)
    requires EvalPredicate(OWNER_PREDICATE, policy.env, s) == Bool(false)
    requires !EvalCond(policy.whereConds.value, PolicyTruth(policy, s))
    ensures var e := EvalReadPolicyExpr(policy, names, request, simp, checked);
            e.Ok? && e.value.Some? && !Holds(e.value.value, row)
  {
    var w, never, q := policy.whereConds.value, (id: nat) => false, PBin(LEq, PLit(Null), PVar(3));
    OwnerTestIsNull(names, request, row);
    PartialEvalAt(policy.predicates, policy.env, names.ctx, ToValue(request));
    var preds := PartialEvalAll(policy.predicates, policy.env, names.ctx, ToValue(request)).value;
    assert preds == [q];
    CondReads(w, PolicyTruth(policy, s), never);
    SimplifyBelow(w, preds, simp, checked, never);
    var cond := Simplify(w, preds, simp, checked).value;
    CondConverts(cond, preds, names, policy.env);
    NullIsUnknown(cond, preds, names, policy.env, row, never);
  }

  // ---------- the read stream ----------

  /** A type's policy for one request: what it returns for a row, if there is one, and the
      transformation of rows it lets through. */
  datatype ReadPolicy = ReadPolicy(action: Record -> Result<Option<Action>>, transform: Record -> Result<Record>)

  function ReadOne(p: ReadPolicy, value: Record, dirty: set<string>): (Result<Option<Record>>, set<string>) {
    match p.action(value)
    case Err(m) => (Err(m), dirty)
    case Ok(Some(Deny)) => (Err("Permission denied"), dirty)
    case Ok(Some(Skip)) => (Ok(None), dirty)
    case Ok(_) =>
      match p.transform(value)
      case Err(m) => (Err(m), dirty)
      case Ok(new_) =>
        if new_ == value then (Ok(Some(new_)), dirty)
        else if !Lookup(value, "id").Str? then (Err("called unwrap on None"), dirty)
        else (Ok(Some(new_)), dirty + {value["id"].s})
  }

  /** What polling yields, with the ids of rows that were changed: skipped rows yield nothing,
      errors do not end the stream. */
  function StreamOf(p: ReadPolicy, items: seq<Result<Record>>, dirty: set<string>): (seq<Result<Record>>, set<string>) {
    if items == [] then ([], dirty)
    else match items[0]
      case Err(m) => var (out, dirty') := StreamOf(p, items[1..], dirty); ([Err(m)] + out, dirty')
      case Ok(value) =>
        var (r, dirty1) := ReadOne(p, value, dirty);
        var (out, dirty') := StreamOf(p, items[1..], dirty1);
        match r
        case Err(m) => ([Err(m)] + out, dirty')
        case Ok(None) => (out, dirty')
        case Ok(Some(v)) => ([Ok(v)] + out, dirty')
  }

  class PolicyProcessor {
    const policy: ReadPolicy
    var dirty: set<string>

    constructor (policy: ReadPolicy)
      ensures this.policy == policy && dirty == {}
    {
      this.policy := policy;
      dirty := {};
    }

    method ProcessRead(value: Record) returns (r: Result<Option<Record>>)
      modifies this
      ensures (r, dirty) == ReadOne(policy, value, old(dirty))
    {
      var action := policy.action(value);
      if action.Err? {
        return Err(action.error);
      }
      if action.value == Some(Deny) {
        return Err("Permission denied");
      }
      if action.value == Some(Skip) {
        return Ok(None);
      }
      var changed := policy.transform(value);
      if changed.Err? {
        return Err(changed.error);
      }
      if changed.value != value {
        if !Lookup(value, "id").Str? {
          return Err("called unwrap on None");
        }
        dirty := dirty + {value["id"].s};
      }
      return Ok(Some(changed.value));
    }

    /** Polling a stream to its end. */
    method PollAll(items: seq<Result<Record>>) returns (out: seq<Result<Record>>)
      modifies this
      ensures (out, dirty) == StreamOf(policy, items, old(dirty))
    {
      out := [];
      assert [] + StreamOf(policy, items, dirty).0 == StreamOf(policy, items, dirty).0;
      for i := 0 to |items|
        invariant var (rest, final) := StreamOf(policy, items[i..], dirty);
                  StreamOf(policy, items, old(dirty)) == (out + rest, final)
      {
        var item := items[i];
        ghost var rest := items[i..];
        ghost var before := out;
        assert rest[0] == item && rest[1..] == items[i + 1..];
        if item.Err? {
          out := out + [item];
          assert forall more :: before + ([item] + more) == out + more;
        } else {
          var r := ProcessRead(item.value);
          if r.Err? {
            out := out + [Err(r.error)];
            assert forall more :: before + ([Err(r.error)] + more) == out + more;
          } else if r.value.Some? {
            out := out + [Ok(r.value.value)];
            assert forall more :: before + ([Ok(r.value.value)] + more) == out + more;
          }
        }
      }
      assert out + [] == out;
    }
  }

  // ---------- what the stream yields ----------

  function IsSkipped(p: ReadPolicy): Result<Record> -> bool {
    (item: Result<Record>) => item.Ok? && p.action(item.value) == Ok(Some(Skip))
  }

  function IsRead(p: ReadPolicy): Result<Record> -> bool {
    (item: Result<Record>) => !IsSkipped(p)(item)
  }

  /** A row that the policy allows, logs or says nothing about. */
  predicate LetsThrough(p: ReadPolicy, row: Record) {
    p.action(row).Ok? && p.action(row).value != Some(Deny) && p.action(row).value != Some(Skip)
  }

  predicate Changes(p: ReadPolicy, row: Record) {
    LetsThrough(p, row) && p.transform(row).Ok? && p.transform(row).value != row
  }

  /** What is read of an item on its own. */
  function OutputOf(p: ReadPolicy): Result<Record> -> Result<Record> {
    (item: Result<Record>) =>
      match item
      case Err(m) => Err(m)
      case Ok(row) =>
        if p.action(row).Err? then Err(p.action(row).error)
        else if !LetsThrough(p, row) then Err("Permission denied")
        else if Changes(p, row) && !Lookup(row, "id").Str? then Err("called unwrap on None")
        else p.transform(row)
  }

  lemma ReadOneMeans(p: ReadPolicy, row: Record, dirty: set<string>)
    ensures var r, item := ReadOne(p, row, dirty).0, Ok(row);
            && (IsSkipped(p)(item) <==> r == Ok(None))
            && (!IsSkipped(p)(item) ==>
                  OutputOf(p)(item) == match r
                                       case Err(m) => Err(m)
                                       case Ok(o) => if o.Some? then Ok(o.value) else item)
  {}

  /** The stream is one output for each item that is not skipped, in order and whatever came
      before it. */
  lemma {:induction false} StreamYields(p: ReadPolicy, items: seq<Result<Record>>, dirty: set<string>)
    ensures StreamOf(p, items, dirty).0 == Sequences.Map(OutputOf(p), Sequences.Filter(IsRead(p), items))
    decreases |items|
  {
    if items != [] {
      var first, rest := items[0], Sequences.Filter(IsRead(p), items[1..]);
      var dirty1 := if first.Ok? then ReadOne(p, first.value, dirty).1 else dirty;
      var out := StreamOf(p, items[1..], dirty1).0;
      StreamYields(p, items[1..], dirty1);
      if first.Ok? {
        ReadOneMeans(p, first.value, dirty);
      }
      if IsSkipped(p)(first) {
        assert StreamOf(p, items, dirty).0 == out;
        assert Sequences.Filter(IsRead(p), items) == rest;
      } else {
        assert StreamOf(p, items, dirty).0 == [OutputOf(p)(first)] + out;
        assert Sequences.Filter(IsRead(p), items) == [first] + rest;
        assert ([first] + rest)[1..] == rest;
      }
    }
  }

  predicate MadeDirty(p: ReadPolicy, items: seq<Result<Record>>, id: string) {
    exists item :: item in items && item.Ok? && Changes(p, item.value) && Lookup(item.value, "id") == Str(id)
  }

  /** The ids marked dirty are those of the rows that the transformation changed. */
  lemma {:induction false} StreamMarks(p: ReadPolicy, items: seq<Result<Record>>, dirty: set<string>, id: string)
    ensures id in StreamOf(p, items, dirty).1 <==> id in dirty || MadeDirty(p, items, id)
    decreases |items|
  {
    if items != [] {
      var dirty1 := if items[0].Ok? then ReadOne(p, items[0].value, dirty).1 else dirty;
      StreamMarks(p, items[1..], dirty1, id);
      assert items == [items[0]] + items[1..];
      assert id in dirty1 <==> id in dirty || MadeDirty(p, [items[0]], id);
      assert MadeDirty(p, items, id) <==> MadeDirty(p, [items[0]], id) || MadeDirty(p, items[1..], id);
    }
  }

  /** The rows when the database drops those that `keep` rejects. */
  function Pushed(keep: Record -> bool, items: seq<Result<Record>>): seq<Result<Record>> {
    if items == [] then []
    else if items[0].Ok? && !keep(items[0].value) then Pushed(keep, items[1..])
    else [items[0]] + Pushed(keep, items[1..])
  }

  ghost predicate DropsOnlySkipped(p: ReadPolicy, keep: Record -> bool, items: seq<Result<Record>>) {
    forall item | item in items && item.Ok? && !keep(item.value) :: p.action(item.value) == Ok(Some(Skip))
  }

  lemma {:induction false} PushdownKeepsStream(p: ReadPolicy, keep: Record -> bool, items: seq<Result<Record>>,
                                               dirty: set<string>)
    requires DropsOnlySkipped(p, keep, items)
    ensures StreamOf(p, Pushed(keep, items), dirty) == StreamOf(p, items, dirty)
    decreases |items|
  {
    if items != [] {
      assert items[0] in items;
      var rest := items[1..];
      var dirty1 := if items[0].Ok? then ReadOne(p, items[0].value, dirty).1 else dirty;
      PushdownKeepsStream(p, keep, rest, dirty1);
      if !(items[0].Ok? && !keep(items[0].value)) {
        assert ([items[0]] + Pushed(keep, rest))[1..] == Pushed(keep, rest);
      }
    }
  }

  ghost predicate SafeOn(p: ReadPolicy, keep: Record -> bool, items: seq<Result<Record>>, dirty: set<string>) {
    StreamOf(p, Pushed(keep, items), dirty) == StreamOf(p, items, dirty)
  }

  ghost predicate DropsOnly(p: ReadPolicy, keep: Record -> bool, v: Record) {
    !keep(v) ==> p.action(v) == Ok(Some(Skip))
  }

  /** Dropping rows before the policy runs leaves the stream, its errors and the changed rows as
      they were, on all inputs, exactly when it drops only rows that the policy skips. */
  lemma PushdownIsSafeIff(p: ReadPolicy, keep: Record -> bool)
    ensures (forall items: seq<Result<Record>>, dirty: set<string> :: SafeOn(p, keep, items, dirty)) <==>
            (forall v :: DropsOnly(p, keep, v))
  {
    if forall v :: DropsOnly(p, keep, v) {
      forall items: seq<Result<Record>>, dirty: set<string> ensures SafeOn(p, keep, items, dirty) {
        assert forall item | item in items && item.Ok? :: DropsOnly(p, keep, item.value);
        PushdownKeepsStream(p, keep, items, dirty);
      }
    } else {
      var v :| !DropsOnly(p, keep, v);
      var items: seq<Result<Record>> := [Ok(v)];
      assert items[1..] == [] && Pushed(keep, items) == [];
      assert |StreamOf(p, items, {}).0| == 1;
      assert !SafeOn(p, keep, items, {});
    }
  }

  // ---------- the whole way ----------

  /** The policy as it runs on rows. */
  function RunPolicy(r: Region, names: Names, request: Request): Record -> Result<Option<Action>> {
    row =>
      match RunRegion(r, PolicyScope(names.entity, names.ctx, ToJsValue(request), row))
      case None => Err("unsupported")
      case Some(a) => Ok(Some(a))
  }

  function KeepWhere(e: Expr): Record -> bool { row => Holds(e, row) }

  ghost predicate TypedRow(r: Region, names: Names, request: Request, row: Record)
    requires Infer(r, CTrue, Rules([], [])).Ok?
  {
    var st := Infer(r, CTrue, Rules([], [])).value.1;
    var s := PolicyScope(names.entity, names.ctx, ToJsValue(request), row);
    TypedPolicy(st.predicates, st.env, names.ctx, s)
  }

  /** Pushing the filter of a compiled read policy into the query changes nothing that the
      reader sees, and no row is left for the policy to skip. */
  lemma PushedFilterKeepsStream(r: Region, names: Names, request: Request, transform: Record -> Result<Record>,
                                items: seq<Result<Record>>, dirty: set<string>,
                                simp: PolicyRules.Bool -> PolicyRules.Bool, checked: bool)
    requires IsSimplifier(simp) && names.entity != names.ctx && Infer(r, CTrue, Rules([], [])).Ok?
    requires |Infer(r, CTrue, Rules([], [])).value.1.predicates| <= Limit(checked)
    requires forall item | item in items && item.Ok? :: TypedRow(r, names, request, item.value)
    requires request.userId.None? || !ReadsUserId(Infer(r, CTrue, Rules([], [])).value.1.env, names.ctx)
    requires FromArrow(r, simp, checked).Ok?
    requires EvalReadPolicyExpr(FromArrow(r, simp, checked).value, names, request, simp, checked).Ok?
    ensures var p := ReadPolicy(RunPolicy(r, names, request), transform);
            match EvalReadPolicyExpr(FromArrow(r, simp, checked).value, names, request, simp, checked).value
            case None => forall item | item in items && item.Ok? :: p.action(item.value) != Ok(Some(Skip))
            case Some(e) =>
              && StreamOf(p, Pushed(KeepWhere(e), items), dirty) == StreamOf(p, items, dirty)
              && forall item | item in Pushed(KeepWhere(e), items) && item.Ok? :: p.action(item.value) != Ok(Some(Skip))
  {
    var p := ReadPolicy(RunPolicy(r, names, request), transform);
    var filter := EvalReadPolicyExpr(FromArrow(r, simp, checked).value, names, request, simp, checked).value;
    forall item | item in items && item.Ok?
      ensures filter.None? ==> p.action(item.value) != Ok(Some(Skip))
      ensures filter.Some? ==> (KeepWhere(filter.value)(item.value) <==> p.action(item.value) != Ok(Some(Skip)))
    {
      assert TypedRow(r, names, request, item.value);
      FilterMeansNotSkip(r, names, request, item.value, simp, checked);
    }
    if filter.Some? {
      PushdownKeepsStream(p, KeepWhere(filter.value), items, dirty);
      PushedAreKept(KeepWhere(filter.value), items);
    }
  }

  lemma {:induction false} PushedAreKept(keep: Record -> bool, items: seq<Result<Record>>)
    ensures forall item | item in Pushed(keep, items) :: item in items && (item.Ok? ==> keep(item.value))
    decreases |items|
  {
    if items != [] {
      PushedAreKept(keep, items[1..]);
    }
  }
}
