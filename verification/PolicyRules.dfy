/** Compiling a read policy (chiselc/src/policies.rs): the tests of a region tree become
    predicates, each action gets the condition under which it is returned, and the conditions
    pass through a simplifier of boolean formulas. */
module PolicyRules {
  import opened Values

  // ---------- the source program ----------

  datatype LogicOp = LEq | LNeq | LGt | LGte | LLt | LLte | LAnd | LOr

  /** None stands for an operator, literal or property that the compiler does not know. */
  datatype JsExpr =
    | Bang(arg: JsExpr)
    | OtherUnary(arg: JsExpr)
    | Bin(op: Option<LogicOp>, left: JsExpr, right: JsExpr)
    | Literal(value: Option<Value>)
    | Ident(name: string)
    | Paren(inner: JsExpr)
    | Member(obj: JsExpr, prop: MemberProp)
    | OtherExpr

  datatype MemberProp = PropName(name: string) | Computed(expr: JsExpr) | PrivateName

  datatype Action = Allow | Log | Deny | Skip

  const ACTIONS := [Allow, Skip, Deny, Log]

  datatype BlockStmt = IfStmt(test: JsExpr) | ReturnStmt(arg: Option<JsExpr>) | OtherStmt

  datatype Region =
    | CondRegion(test: Region, cons: Region, alt: Region)
    | BasicBlock(stmts: seq<BlockStmt>)
    | SeqRegion(first: Region, second: Region)
    | LoopRegion(body: Region)

  // ---------- what it means ----------

  /** A JavaScript engine and the variables in scope. */
  datatype Scope = Scope(
    ident: string -> Value,
    member: (Value, string) -> Value,
    apply: (LogicOp, Value, Value) -> Value,
    negate: Value -> Value,
    truthy: Value -> bool)

  function EvalExpr(e: JsExpr, s: Scope): Value {
    match e
    case Bang(x) => s.negate(EvalExpr(x, s))
    case Bin(Some(op), l, r) => s.apply(op, EvalExpr(l, s), EvalExpr(r, s))
    case Literal(Some(v)) => v
    case Ident(name) => s.ident(name)
    case Paren(x) => EvalExpr(x, s)
    case Member(o, PropName(name)) => s.member(EvalExpr(o, s), name)
    case Member(o, Computed(Literal(Some(Str(name))))) => s.member(EvalExpr(o, s), name)
    case _ => Undefined
  }

  const ACTION_NAMES: map<string, Action> := map["Allow" := Allow, "Skip" := Skip, "Deny" := Deny, "Log" := Log]

  /** `return Action.<name>;` */
  function ReturnOf(name: string): BlockStmt {
    ReturnStmt(Some(Member(Ident("Action"), PropName(name))))
  }

  /** Running a block: its first statement returns an action by its name; a run that falls off the
      end is denied. */
  function RunBlock(b: seq<BlockStmt>): Option<Action> {
    if b == [] then Some(Deny)
    else match b[0]
      case ReturnStmt(Some(Member(Ident("Action"), PropName(name)))) =>
        if name in ACTION_NAMES then Some(ACTION_NAMES[name]) else None
      case _ => None
  }

  /** The action that the compiler reads off a basic block. */
  function ActionOf(b: seq<BlockStmt>): Result<Action> {
    if b == [] then Ok(Deny)
    else if |b| > 1 then Err("unsupported multiline basic block")
    else match b[0]
      case ReturnStmt(None) => Err("missing return arguments!")
      case ReturnStmt(Some(Member(Ident("Action"), PropName(name)))) =>
        if name == "Allow" then Ok(Allow)
        else if name == "Skip" then Ok(Skip)
        else if name == "Deny" then Ok(Deny)
        else if name == "Log" then Ok(Log)
        else Err("invalid return expression")
      case ReturnStmt(Some(_)) => Err("invalid return expression")
      case _ => Err("expected return statement")
  }

  /** The test of a test region. */
  function TestOf(r: Region): Option<JsExpr> {
    if r.BasicBlock? && |r.stmts| == 1 && r.stmts[0].IfStmt? then Some(r.stmts[0].test) else None
  }

  /** Running the tree. */
  function RunRegion(r: Region, s: Scope): Option<Action> {
    match r
    case CondRegion(test, cons, alt) =>
      (match TestOf(test)
       case None => None
       case Some(e) => if s.truthy(EvalExpr(e, s)) then RunRegion(cons, s) else RunRegion(alt, s))
    case BasicBlock(b) => RunBlock(b)
    case _ => None
  }

  // ---------- predicates ----------

  /** The environment numbers the variables; a member refers to its object by number. */
  datatype Var = VarIdent(name: string) | VarMember(obj: nat, prop: string)

  datatype Predicate =
    | PBin(op: LogicOp, lhs: Predicate, rhs: Predicate)
    | PNot(inner: Predicate)
    | PLit(value: Value)
    | PVar(id: nat)

  function IndexOf<T(==)>(s: seq<T>, x: T): nat
    requires x in s
    ensures IndexOf(s, x) < |s| && s[IndexOf(s, x)] == x
  {
    if s[0] == x then 0 else 1 + IndexOf(s[1..], x)
  }

  function Insert(env: seq<Var>, v: Var): (seq<Var>, nat) {
    if v in env then (env, IndexOf(env, v)) else (env + [v], |env|)
  }

  function ParseExpr(e: JsExpr, env: seq<Var>): Result<(Predicate, seq<Var>)> {
    match e
    case Bang(x) =>
      (match ParseExpr(x, env)
       case Err(m) => Err(m)
       case Ok((p, env')) => Ok((PNot(p), env')))
    case Bin(Some(op), l, r) =>
      (match ParseExpr(l, env)
       case Err(m) => Err(m)
       case Ok((p, env')) =>
         match ParseExpr(r, env')
         case Err(m) => Err(m)
         case Ok((q, env'')) => Ok((PBin(op, p, q), env'')))
    case Literal(Some(v)) => Ok((PLit(v), env))
    case Ident(name) => var (env', id) := Insert(env, VarIdent(name)); Ok((PVar(id), env'))
    case Paren(x) => ParseExpr(x, env)
    case Member(o, prop) =>
      (match ParseExpr(o, env)
       case Ok((PVar(id), env')) =>
         (match prop
          case PropName(name) => ParseMember(id, name, env')
          case Computed(Literal(Some(Str(name)))) => ParseMember(id, name, env')
          case Computed(_) => Err("unsupported computed property expression.")
          case PrivateName => Err("invalid member expression"))
       case Ok(_) => Err("invalid member expression")
       case Err(m) => Err(m))
    case OtherUnary(_) => Err("unsupported op")
    case Bin(None, _, _) => Err("unsupported binary operator")
    case Literal(None) => Err("not yet implemented")
    case OtherExpr => Err("unsupported expr")
  }

  function ParseMember(id: nat, name: string, env: seq<Var>): Result<(Predicate, seq<Var>)> {
    var (env', member) := Insert(env, VarMember(id, name));
    Ok((PVar(member), env'))
  }

  function VarValue(env: seq<Var>, id: nat, s: Scope): Value {
    if id >= |env| then Undefined
    else match env[id]
      case VarIdent(name) => s.ident(name)
      case VarMember(o, prop) => if o < id then s.member(VarValue(env, o, s), prop) else Undefined
  }

  function EvalPredicate(p: Predicate, env: seq<Var>, s: Scope): Value {
    match p
    case PBin(op, l, r) => s.apply(op, EvalPredicate(l, env, s), EvalPredicate(r, env, s))
    case PNot(x) => s.negate(EvalPredicate(x, env, s))
    case PLit(v) => v
    case PVar(id) => VarValue(env, id, s)
  }

  /** Objects come before their members, and no variable has two numbers. */
  ghost predicate ValidEnv(env: seq<Var>) {
    && (forall i :: 0 <= i < |env| && env[i].VarMember? ==> env[i].obj < i)
    && forall i, j :: 0 <= i < j < |env| ==> env[i] != env[j]
  }

  predicate VarsBelow(p: Predicate, n: nat) {
    match p
    case PBin(_, l, r) => VarsBelow(l, n) && VarsBelow(r, n)
    case PNot(x) => VarsBelow(x, n)
    case PLit(_) => true
    case PVar(id) => id < n
  }

  lemma {:induction false} VarKeepsValue(env: seq<Var>, env': seq<Var>, id: nat, s: Scope)
    requires env <= env' && id < |env|
    ensures VarValue(env', id, s) == VarValue(env, id, s)
  {
    if env[id].VarMember? && env[id].obj < id {
      VarKeepsValue(env, env', env[id].obj, s);
    }
  }

  lemma {:induction false} PredicateKeepsValue(p: Predicate, env: seq<Var>, env': seq<Var>, s: Scope)
    requires env <= env' && VarsBelow(p, |env|)
    ensures VarsBelow(p, |env'|) && EvalPredicate(p, env', s) == EvalPredicate(p, env, s)
  {
    match p
    case PBin(_, l, r) =>
      PredicateKeepsValue(l, env, env', s);
      PredicateKeepsValue(r, env, env', s);
    case PNot(x) => PredicateKeepsValue(x, env, env', s);
    case PLit(_) =>
    case PVar(id) => VarKeepsValue(env, env', id, s);
  }

  /** A parsed predicate has the value of its expression; the environment only grows and never
      numbers a variable twice. */
  lemma {:induction false} ParseKeepsMeaning(e: JsExpr, env: seq<Var>, s: Scope)
    requires ValidEnv(env) && ParseExpr(e, env).Ok?
    ensures var (p, env') := ParseExpr(e, env).value;
            && env <= env' && ValidEnv(env') && VarsBelow(p, |env'|)
            && EvalPredicate(p, env', s) == EvalExpr(e, s)
  {
    match e
    case Bang(x) => ParseKeepsMeaning(x, env, s);
    case Bin(_, l, r) =>
      ParseKeepsMeaning(l, env, s);
      var (p, env') := ParseExpr(l, env).value;
      ParseKeepsMeaning(r, env', s);
      PredicateKeepsValue(p, env', ParseExpr(r, env').value.1, s);
    case Paren(x) => ParseKeepsMeaning(x, env, s);
    case Member(o, prop) =>
      ParseKeepsMeaning(o, env, s);
      var (p, env') := ParseExpr(o, env).value;
      MemberKeepsMeaning(p.id, if prop.PropName? then prop.name else prop.expr.value.value.s, env', s);
    case _ =>
  }

  lemma MemberKeepsMeaning(id: nat, name: string, env: seq<Var>, s: Scope)
    requires ValidEnv(env) && id < |env|
    ensures var (p, env') := ParseMember(id, name, env).value;
            && env <= env' && ValidEnv(env') && VarsBelow(p, |env'|)
            && EvalPredicate(p, env', s) == s.member(VarValue(env, id, s), name)
  {
    var env' := Insert(env, VarMember(id, name)).0;
    VarKeepsValue(env, env', id, s);
  }

  class Environment {
    var vars: seq<Var>

    constructor ()
      ensures vars == []
    {
      vars := [];
    }

    method InsertVar(v: Var) returns (id: nat)
      modifies this
      ensures (vars, id) == Insert(old(vars), v)
    {
      if v in vars {
        id := IndexOf(vars, v);
      } else {
        id := |vars|;
        vars := vars + [v];
      }
    }

    method Parse(e: JsExpr) returns (r: Result<Predicate>)
      modifies this
      ensures r.Ok? <==> ParseExpr(e, old(vars)).Ok?
      ensures r.Ok? ==> ParseExpr(e, old(vars)).value == (r.value, vars)
      ensures r.Err? ==> ParseExpr(e, old(vars)).error == r.error
      decreases e
    {
      match e
      case Bang(x) =>
        var p := Parse(x);
        if p.Err? { return p; }
        return Ok(PNot(p.value));
      case Bin(Some(op), left, right) =>
        var p := Parse(left);
        if p.Err? { return p; }
        var q := Parse(right);
        if q.Err? { return q; }
        return Ok(PBin(op, p.value, q.value));
      case Literal(Some(v)) => return Ok(PLit(v));
      case Ident(name) =>
        var id := InsertVar(VarIdent(name));
        return Ok(PVar(id));
      case Paren(x) => r := Parse(x);
      case Member(o, prop) =>
        var p := Parse(o);
        if p.Err? { return p; }
        if !p.value.PVar? { return Err("invalid member expression"); }
        match prop {
          case PropName(name) =>
            var id := InsertVar(VarMember(p.value.id, name));
            return Ok(PVar(id));
          case Computed(Literal(Some(Str(name)))) =>
            var id := InsertVar(VarMember(p.value.id, name));
            return Ok(PVar(id));
          case Computed(_) => return Err("unsupported computed property expression.");
          case PrivateName => return Err("invalid member expression");
        }
      case OtherUnary(_) => return Err("unsupported op");
      case Bin(None, _, _) => return Err("unsupported binary operator");
      case Literal(None) => return Err("not yet implemented");
      case OtherExpr => return Err("unsupported expr");
    }
  }

  // ---------- conditions ----------

  datatype Cond =
    | CAnd(lhs: Cond, rhs: Cond)
    | COr(lhs: Cond, rhs: Cond)
    | CNot(inner: Cond)
    | CPredicate(id: nat)
    | CTrue
    | CFalse

  predicate EvalCond(c: Cond, truth: nat -> bool) {
    match c
    case CAnd(l, r) => EvalCond(l, truth) && EvalCond(r, truth)
    case COr(l, r) => EvalCond(l, truth) || EvalCond(r, truth)
    case CNot(x) => !EvalCond(x, truth)
    case CPredicate(id) => truth(id)
    case CTrue => true
    case CFalse => false
  }

  function Ids(c: Cond): set<nat> {
    match c
    case CAnd(l, r) => Ids(l) + Ids(r)
    case COr(l, r) => Ids(l) + Ids(r)
    case CNot(x) => Ids(x)
    case CPredicate(id) => {id}
    case _ => {}
  }

  lemma {:induction false} CondReads(c: Cond, t: nat -> bool, t': nat -> bool)
    requires forall id | id in Ids(c) :: t(id) == t'(id)
    ensures EvalCond(c, t) == EvalCond(c, t')
  {
    match c
    case CAnd(l, r) => CondReads(l, t, t'); CondReads(r, t, t');
    case COr(l, r) => CondReads(l, t, t'); CondReads(r, t, t');
    case CNot(x) => CondReads(x, t, t');
    case _ =>
  }

  type Actions = map<Action, Cond>

  function Merge(a: Actions, b: Actions): Actions {
    map x | x in a.Keys + b.Keys ::
      if x in a && x in b then COr(a[x], b[x]) else if x in a then a[x] else b[x]
  }

  method MergeActions(a: Actions, b: Actions) returns (out: Actions)
    ensures out == Merge(a, b)
  {
    out := map[];
    for i := 0 to |ACTIONS|
      invariant forall x :: x in out <==> x in ACTIONS[..i] && (x in a || x in b)
      invariant forall x :: x in out ==> out[x] == Merge(a, b)[x]
    {
      var policy := ACTIONS[i];
      if policy in a && policy in b {
        out := out[policy := COr(a[policy], b[policy])];
      } else if policy in a {
        out := out[policy := a[policy]];
      } else if policy in b {
        out := out[policy := b[policy]];
      }
    }
    assert ACTIONS[..|ACTIONS|] == ACTIONS;
    forall x: Action ensures x in ACTIONS {
      assert x == ACTIONS[match x case Allow => 0 case Skip => 1 case Deny => 2 case Log => 3];
    }
  }

  // ---------- the rules ----------

  datatype Rules = Rules(predicates: seq<Predicate>, env: seq<Var>)

  function Infer(r: Region, cond: Cond, st: Rules): Result<(Actions, Rules)> {
    match r
    case CondRegion(test, cons, alt) =>
      (match TestOf(test)
       case None => Err("test region should contain a unique if statement")
       case Some(e) =>
         match ParseExpr(e, st.env)
         case Err(m) => Err(m)
         case Ok((p, env')) =>
           var id := CPredicate(|st.predicates|);
           match Infer(cons, CAnd(id, cond), Rules(st.predicates + [p], env'))
           case Err(m) => Err(m)
           case Ok((a, st2)) =>
             match Infer(alt, CAnd(CNot(id), cond), st2)
             case Err(m) => Err(m)
             case Ok((b, st3)) => Ok((Merge(a, b), st3)))
    case BasicBlock(b) => if ActionOf(b).Ok? then Ok((map[ActionOf(b).value := cond], st)) else Err(ActionOf(b).error)
    case SeqRegion(_, _) => Err("not yet implemented")
    case LoopRegion(_) => Err("loops are not supported in the filter rules.")
  }

  // ---------- which policies compile ----------

  /** A variable, or a named member of one. */
  predicate IsPath(e: JsExpr) {
    match e
    case Ident(_) => true
    case Paren(x) => IsPath(x)
    case Member(o, PropName(_)) => IsPath(o)
    case Member(o, Computed(Literal(Some(Str(_))))) => IsPath(o)
    case _ => false
  }

  predicate IsSupportedTest(e: JsExpr) {
    match e
    case Bang(x) => IsSupportedTest(x)
    case Bin(op, l, r) => op.Some? && IsSupportedTest(l) && IsSupportedTest(r)
    case Literal(v) => v.Some?
    case Paren(x) => IsSupportedTest(x)
    case _ => IsPath(e)
  }

  predicate IsSupportedBlock(b: seq<BlockStmt>) {
    b == [] || exists name :: name in ACTION_NAMES && b == [ReturnOf(name)]
  }

  /** Nothing but tests, returns of an action and blocks that fall off the end. */
  predicate IsSupported(r: Region) {
    match r
    case CondRegion(test, cons, alt) =>
      && test.BasicBlock? && |test.stmts| == 1 && test.stmts[0].IfStmt? && IsSupportedTest(test.stmts[0].test)
      && IsSupported(cons) && IsSupported(alt)
    case BasicBlock(b) => IsSupportedBlock(b)
    case _ => false
  }

  lemma {:induction false} ParsesIff(e: JsExpr, env: seq<Var>)
    ensures ParseExpr(e, env).Ok? <==> IsSupportedTest(e)
    ensures ParseExpr(e, env).Ok? ==> (ParseExpr(e, env).value.0.PVar? <==> IsPath(e))
  {
    match e
    case Bang(x) => ParsesIff(x, env);
    case Bin(_, l, r) =>
      ParsesIff(l, env);
      if ParseExpr(l, env).Ok? {
        ParsesIff(r, ParseExpr(l, env).value.1);
      }
    case Paren(x) => ParsesIff(x, env);
    case Member(o, _) =>
      ParsesIff(o, env);
      if IsPath(o) {
        PathIsSupported(o);
      }
    case _ =>
  }

  lemma {:induction false} PathIsSupported(e: JsExpr)
    requires IsPath(e)
    ensures IsSupportedTest(e)
  {
    if e.Paren? {
      PathIsSupported(e.inner);
    }
  }

  /** The action of a supported block is the one that running it returns. */
  lemma ActionIsReturned(b: seq<BlockStmt>)
    ensures ActionOf(b).Ok? <==> IsSupportedBlock(b)
    ensures ActionOf(b).Ok? ==> RunBlock(b) == Some(ActionOf(b).value)
  {
    if b != [] && ActionOf(b).Ok? {
      var name := b[0].arg.value.prop.name;
      assert name in ACTION_NAMES && b == [ReturnOf(name)];
    }
  }

  /** A policy compiles exactly when it is made of supported parts. */
  lemma {:induction false} InferSucceedsIff(r: Region, cond: Cond, st: Rules)
    ensures Infer(r, cond, st).Ok? <==> IsSupported(r)
  {
    match r
    case BasicBlock(b) => ActionIsReturned(b);
    case CondRegion(test, cons, alt) =>
      if TestOf(test).Some? {
        var e, id := TestOf(test).value, CPredicate(|st.predicates|);
        ParsesIff(e, st.env);
        if ParseExpr(e, st.env).Ok? {
          var (p, env') := ParseExpr(e, st.env).value;
          var st1 := Rules(st.predicates + [p], env');
          InferSucceedsIff(cons, CAnd(id, cond), st1);
          if Infer(cons, CAnd(id, cond), st1).Ok? {
            InferSucceedsIff(alt, CAnd(CNot(id), cond), Infer(cons, CAnd(id, cond), st1).value.1);
          }
        }
      }
    case _ =>
  }

  class RulesBuilder {
    var predicates: seq<Predicate>
    var env: Environment

    constructor ()
      ensures State() == Rules([], []) && fresh(env)
    {
      predicates := [];
      env := new Environment();
    }

    function State(): Rules
      reads this, env
    {
      Rules(predicates, env.vars)
    }

    method InferRulesFromRegion(r: Region, cond: Cond) returns (res: Result<Actions>)
      modifies this, env
      ensures env == old(env)
      ensures res.Ok? <==> Infer(r, cond, old(State())).Ok?
      ensures res.Ok? ==> Infer(r, cond, old(State())).value == (res.value, State())
      decreases r
    {
      match r
      case CondRegion(test, cons, alt) =>
        var e := TestOf(test);
        if e.None? {
          return Err("test region should contain a unique if statement");
        }
        var p := env.Parse(e.value);
        if p.Err? {
          return Err(p.error);
        }
        var id := CPredicate(|predicates|);
        predicates := predicates + [p.value];
        var a := InferRulesFromRegion(cons, CAnd(id, cond));
        if a.Err? {
          return a;
        }
        var b := InferRulesFromRegion(alt, CAnd(CNot(id), cond));
        if b.Err? {
          return b;
        }
        var merged := MergeActions(a.value, b.value);
        return Ok(merged);
      case BasicBlock(b) =>
        var action := ActionOf(b);
        if action.Err? {
          return Err(action.error);
        }
        return Ok(map[action.value := cond]);
      case SeqRegion(_, _) => return Err("not yet implemented");
      case LoopRegion(_) => return Err("loops are not supported in the filter rules.");
    }
  }

  // ---------- each run takes the action whose condition holds ----------

  ghost predicate GoodRules(st: Rules) {
    ValidEnv(st.env) && forall i :: 0 <= i < |st.predicates| ==> VarsBelow(st.predicates[i], |st.env|)
  }

  function Truth(st: Rules, s: Scope): nat -> bool {
    (id: nat) => id < |st.predicates| && s.truthy(EvalPredicate(st.predicates[id], st.env, s))
  }

  predicate Below(c: Cond, n: nat) { forall id | id in Ids(c) :: id < n }

  ghost predicate Grows(st: Rules, st': Rules) {
    st.predicates <= st'.predicates && st.env <= st'.env
  }

  lemma TruthGrows(c: Cond, st: Rules, st': Rules, s: Scope)
    requires GoodRules(st) && Grows(st, st') && Below(c, |st.predicates|)
    ensures EvalCond(c, Truth(st', s)) == EvalCond(c, Truth(st, s))
  {
    forall id | id in Ids(c) ensures Truth(st', s)(id) == Truth(st, s)(id) {
      PredicateKeepsValue(st.predicates[id], st.env, st'.env, s);
    }
    CondReads(c, Truth(st', s), Truth(st, s));
  }

  predicate Chosen(actions: Actions, a: Action, truth: nat -> bool) {
    a in actions && EvalCond(actions[a], truth)
  }

  /** If `entry` holds, exactly the action that running the tree returns is chosen, otherwise
      none is. */
  ghost predicate Decides(actions: Actions, entry: bool, run: Option<Action>, truth: nat -> bool) {
    && run.Some?
    && forall a :: Chosen(actions, a, truth) <==> entry && run.value == a
  }

  lemma {:induction false} RulesDecide(r: Region, cond: Cond, st: Rules, s: Scope)
    requires GoodRules(st) && Below(cond, |st.predicates|) && Infer(r, cond, st).Ok?
    ensures var (actions, st') := Infer(r, cond, st).value;
            && GoodRules(st') && Grows(st, st')
            && (forall a | a in actions :: Below(actions[a], |st'.predicates|))
            && Decides(actions, EvalCond(cond, Truth(st, s)), RunRegion(r, s), Truth(st', s))
    decreases r
  {
    match r
    case BasicBlock(b) => ActionIsReturned(b);
    case CondRegion(test, cons, alt) =>
      var e := TestOf(test).value;
      var st1, consCond, altCond := EnterTest(e, cond, st, s);
      var (a, st2) := Infer(cons, consCond, st1).value;
      var (b, st3) := Infer(alt, altCond, st2).value;
      RulesDecide(cons, consCond, st1, s);
      TruthGrows(altCond, st1, st2, s);
      RulesDecide(alt, altCond, st2, s);
      ActionsKeep(a, st2, st3, s);
      MergeDecides(a, b, s.truthy(EvalExpr(e, s)), EvalCond(cond, Truth(st, s)), RunRegion(cons, s), RunRegion(alt, s),
                   Truth(st2, s), Truth(st3, s));
      MergeBelow(a, b, |st3.predicates|);
  }

  lemma MergeBelow(a: Actions, b: Actions, n: nat)
    requires (forall x | x in a :: Below(a[x], n)) && (forall x | x in b :: Below(b[x], n))
    ensures forall x | x in Merge(a, b) :: Below(Merge(a, b)[x], n)
  {
    forall x | x in a && x in b ensures Below(COr(a[x], b[x]), n) {
      assert Ids(COr(a[x], b[x])) == Ids(a[x]) + Ids(b[x]);
    }
  }

  /** The state and the entry conditions of the two branches. */
  lemma EnterTest(e: JsExpr, cond: Cond, st: Rules, s: Scope) returns (st1: Rules, consCond: Cond, altCond: Cond)
    requires GoodRules(st) && Below(cond, |st.predicates|) && ParseExpr(e, st.env).Ok?
    ensures var (p, env') := ParseExpr(e, st.env).value; st1 == Rules(st.predicates + [p], env')
    ensures consCond == CAnd(CPredicate(|st.predicates|), cond)
    ensures altCond == CAnd(CNot(CPredicate(|st.predicates|)), cond)
    ensures GoodRules(st1) && Grows(st, st1)
    ensures Below(consCond, |st1.predicates|) && Below(altCond, |st1.predicates|)
    ensures EvalCond(consCond, Truth(st1, s)) == (s.truthy(EvalExpr(e, s)) && EvalCond(cond, Truth(st, s)))
    ensures EvalCond(altCond, Truth(st1, s)) == (!s.truthy(EvalExpr(e, s)) && EvalCond(cond, Truth(st, s)))
  {
    var (p, env') := ParseExpr(e, st.env).value;
    var id := CPredicate(|st.predicates|);
    st1 := Rules(st.predicates + [p], env');
    consCond, altCond := CAnd(id, cond), CAnd(CNot(id), cond);
    ParseKeepsMeaning(e, st.env, s);
    PredicatesStayGood(st, p, env', s);
    TruthGrows(cond, st, st1, s);
    assert Ids(CNot(id)) == {|st.predicates|};
    assert Ids(altCond) == {|st.predicates|} + Ids(cond);
    assert EvalCond(CNot(id), Truth(st1, s)) == !EvalCond(id, Truth(st1, s));
  }

  lemma ActionsKeep(a: Actions, st: Rules, st': Rules, s: Scope)
    requires GoodRules(st) && Grows(st, st') && forall x | x in a :: Below(a[x], |st.predicates|)
    ensures forall x | x in a :: Below(a[x], |st'.predicates|)
    ensures forall x | x in a :: EvalCond(a[x], Truth(st', s)) == EvalCond(a[x], Truth(st, s))
  {
    forall x | x in a ensures EvalCond(a[x], Truth(st', s)) == EvalCond(a[x], Truth(st, s)) {
      TruthGrows(a[x], st, st', s);
    }
  }

  lemma PredicatesStayGood(st: Rules, p: Predicate, env': seq<Var>, s: Scope)
    requires GoodRules(st) && st.env <= env' && ValidEnv(env') && VarsBelow(p, |env'|)
    ensures GoodRules(Rules(st.predicates + [p], env'))
  {
    forall i | 0 <= i < |st.predicates| ensures VarsBelow(st.predicates[i], |env'|) {
      PredicateKeepsValue(st.predicates[i], st.env, env', s);
    }
  }

  lemma MergeDecides(a: Actions, b: Actions, test: bool, entry: bool, cons: Option<Action>, alt: Option<Action>,
                     t: nat -> bool, t': nat -> bool)
    requires Decides(a, test && entry, cons, t) && Decides(b, !test && entry, alt, t')
    requires forall x | x in a :: EvalCond(a[x], t') == EvalCond(a[x], t)
    ensures Decides(Merge(a, b), entry, if test then cons else alt, t')
  {
    forall x ensures Chosen(Merge(a, b), x, t') <==> Chosen(a, x, t) || Chosen(b, x, t') {}
  }

  // ---------- the formulas of the simplifier ----------

  /** Formulas of the external library; terms are bytes. */
  datatype Bool =
    | BTrue
    | BFalse
    | BTerm(term: nat)
    | BAnd(items: seq<Bool>)
    | BOr(items: seq<Bool>)
    | BNot(inner: Bool)

  predicate EvalBool(b: Bool, v: nat -> bool)
    decreases b, 0
  {
    match b
    case BTrue => true
    case BFalse => false
    case BTerm(t) => v(t)
    case BAnd(items) => EvalAll(items, v)
    case BOr(items) => EvalAny(items, v)
    case BNot(x) => !EvalBool(x, v)
  }

  predicate EvalAll(items: seq<Bool>, v: nat -> bool)
    decreases items, 1
  {
    items == [] || (EvalAll(items[..|items| - 1], v) && EvalBool(items[|items| - 1], v))
  }

  predicate EvalAny(items: seq<Bool>, v: nat -> bool)
    decreases items, 1
  {
    items != [] && (EvalAny(items[..|items| - 1], v) || EvalBool(items[|items| - 1], v))
  }

  const TERMS := 256

  /** The term of a predicate that `mapping` has at position `i`: a cast to a byte wraps. */
  function TermAt(i: nat): nat { i % TERMS }

  /** Adding the predicate; `len as u8 - 1` overflows at the 256th, which panics in builds that
      check overflow and wraps in others. */
  function PushTerm(id: nat, mapping: seq<nat>, checked: bool): Result<(Bool, seq<nat>)> {
    if id in mapping then Ok((BTerm(TermAt(IndexOf(mapping, id))), mapping))
    else if checked && (|mapping| + 1) % TERMS == 0 then Err("attempt to subtract with overflow")
    else Ok((BTerm(((|mapping| + 1) % TERMS + TERMS - 1) % TERMS), mapping + [id]))
  }

  function ToBool(c: Cond, preds: seq<Predicate>, mapping: seq<nat>, checked: bool): Result<(Bool, seq<nat>)> {
    match c
    case CAnd(l, r) =>
      (match ToBool(l, preds, mapping, checked)
       case Err(m) => Err(m)
       case Ok((x, m1)) =>
         match ToBool(r, preds, m1, checked)
         case Err(m) => Err(m)
         case Ok((y, m2)) => Ok((BAnd([x, y]), m2)))
    case COr(l, r) =>
      (match ToBool(l, preds, mapping, checked)
       case Err(m) => Err(m)
       case Ok((x, m1)) =>
         match ToBool(r, preds, m1, checked)
         case Err(m) => Err(m)
         case Ok((y, m2)) => Ok((BOr([x, y]), m2)))
    case CNot(x) =>
      (match ToBool(x, preds, mapping, checked)
       case Err(m) => Err(m)
       case Ok((y, m1)) => Ok((BNot(y), m1)))
    case CPredicate(id) =>
      if id >= |preds| then Err("invalid predicate id!")
      else if preds[id] == PLit(Bool(true)) then Ok((BTrue, mapping))
      else if preds[id] == PLit(Bool(false)) then Ok((BFalse, mapping))
      else PushTerm(id, mapping, checked)
    case CTrue => Ok((BTrue, mapping))
    case CFalse => Ok((BFalse, mapping))
  }

  function FromBool(b: Bool, mapping: seq<nat>): Result<Cond>
    decreases b, 0
  {
    match b
    case BTrue => Ok(CTrue)
    case BFalse => Ok(CFalse)
    case BTerm(i) => if i < |mapping| then Ok(CPredicate(mapping[i])) else Err("index out of bounds")
    case BAnd(items) => Reduce(items, mapping, true)
    case BOr(items) => Reduce(items, mapping, false)
    case BNot(x) =>
      match FromBool(x, mapping)
      case Err(m) => Err(m)
      case Ok(c) => Ok(CNot(c))
  }

  /** The items joined from the left. */
  function Reduce(items: seq<Bool>, mapping: seq<nat>, and: bool): Result<Cond>
    decreases items, 1
  {
    if items == [] then Err("called unwrap on None")
    else
      match FromBool(items[|items| - 1], mapping)
      case Err(m) => Err(m)
      case Ok(last) =>
        if |items| == 1 then Ok(last)
        else match Reduce(items[..|items| - 1], mapping, and)
          case Err(m) => Err(m)
          case Ok(acc) => Ok(if and then CAnd(acc, last) else COr(acc, last))
  }

  class Mapping {
    var ids: seq<nat>

    constructor ()
      ensures ids == []
    {
      ids := [];
    }

    method Position(id: nat) returns (pos: Option<nat>)
      ensures pos == if id in ids then Some(IndexOf(ids, id)) else None
    {
      for i := 0 to |ids|
        invariant id !in ids[..i]
        invariant id in ids ==> id in ids[i..] && IndexOf(ids, id) == i + IndexOf(ids[i..], id)
      {
        if ids[i] == id {
          return Some(i);
        }
        assert ids[i..][1..] == ids[i + 1..];
      }
      return None;
    }

    method Translate(c: Cond, preds: seq<Predicate>, checked: bool) returns (r: Result<Bool>)
      modifies this
      ensures r.Ok? <==> ToBool(c, preds, old(ids), checked).Ok?
      ensures r.Ok? ==> ToBool(c, preds, old(ids), checked).value == (r.value, ids)
      decreases c
    {
      match c
      case CAnd(lhs, rhs) =>
        var x := Translate(lhs, preds, checked);
        if x.Err? { return x; }
        var y := Translate(rhs, preds, checked);
        if y.Err? { return y; }
        return Ok(BAnd([x.value, y.value]));
      case COr(lhs, rhs) =>
        var x := Translate(lhs, preds, checked);
        if x.Err? { return x; }
        var y := Translate(rhs, preds, checked);
        if y.Err? { return y; }
        return Ok(BOr([x.value, y.value]));
      case CNot(inner) =>
        var x := Translate(inner, preds, checked);
        if x.Err? { return x; }
        return Ok(BNot(x.value));
      case CPredicate(id) =>
        if id >= |preds| { return Err("invalid predicate id!"); }
        if preds[id] == PLit(Bool(true)) { return Ok(BTrue); }
        if preds[id] == PLit(Bool(false)) { return Ok(BFalse); }
        var pos := Position(id);
        if pos.Some? { return Ok(BTerm(pos.value % TERMS)); }
        if checked && (|ids| + 1) % TERMS == 0 { return Err("attempt to subtract with overflow"); }
        ids := ids + [id];
        return Ok(BTerm((|ids| % TERMS + TERMS - 1) % TERMS));
      case CTrue => return Ok(BTrue);
      case CFalse => return Ok(BFalse);
    }
  }

  // ---------- there and back ----------

  predicate IsLiteral(p: Predicate) { p.PLit? && p.value.Bool? }

  /** The condition with boolean literals in place of the predicates that are one. */
  function Folded(c: Cond, preds: seq<Predicate>): Cond {
    match c
    case CAnd(l, r) => CAnd(Folded(l, preds), Folded(r, preds))
    case COr(l, r) => COr(Folded(l, preds), Folded(r, preds))
    case CNot(x) => CNot(Folded(x, preds))
    case CPredicate(id) =>
      if id < |preds| && IsLiteral(preds[id]) then (if preds[id].value.b then CTrue else CFalse) else c
    case _ => c
  }

  /** The predicates that become terms. */
  function Open(c: Cond, preds: seq<Predicate>): set<nat> {
    match c
    case CAnd(l, r) => Open(l, preds) + Open(r, preds)
    case COr(l, r) => Open(l, preds) + Open(r, preds)
    case CNot(x) => Open(x, preds)
    case CPredicate(id) => if id < |preds| && IsLiteral(preds[id]) then {} else {id}
    case _ => {}
  }

  ghost predicate NoRepeats(mapping: seq<nat>) {
    forall i, j :: 0 <= i < j < |mapping| ==> mapping[i] != mapping[j]
  }

  function Elements(s: seq<nat>): set<nat> { set x | x in s }

  lemma {:induction false} CountElements(s: seq<nat>)
    requires NoRepeats(s)
    ensures |Elements(s)| == |s|
  {
    if s != [] {
      var init, last := s[..|s| - 1], s[|s| - 1];
      CountElements(init);
      assert Elements(s) == Elements(init) + {last};
    }
  }

  /** The mapping only grows, holds no predicate twice, and ends up with the open predicates of
      the condition. */
  lemma {:induction false} MappingGrows(c: Cond, preds: seq<Predicate>, mapping: seq<nat>, checked: bool)
    requires NoRepeats(mapping) && ToBool(c, preds, mapping, checked).Ok?
    ensures var m := ToBool(c, preds, mapping, checked).value.1;
            mapping <= m && NoRepeats(m) && Elements(m) == Elements(mapping) + Open(c, preds)
  {
    match c
    case CAnd(l, r) =>
      MappingGrows(l, preds, mapping, checked);
      MappingGrows(r, preds, ToBool(l, preds, mapping, checked).value.1, checked);
    case COr(l, r) =>
      MappingGrows(l, preds, mapping, checked);
      MappingGrows(r, preds, ToBool(l, preds, mapping, checked).value.1, checked);
    case CNot(x) => MappingGrows(x, preds, mapping, checked);
    case CPredicate(id) =>
    case _ =>
  }

  /** Reading the formula back with a final mapping of at most 256 predicates. */
  lemma {:induction false} RoundTrip(c: Cond, preds: seq<Predicate>, mapping: seq<nat>, all: seq<nat>, checked: bool)
    requires NoRepeats(mapping) && ToBool(c, preds, mapping, checked).Ok?
    requires ToBool(c, preds, mapping, checked).value.1 <= all && |all| <= TERMS
    ensures FromBool(ToBool(c, preds, mapping, checked).value.0, all) == Ok(Folded(c, preds))
    decreases c, 1
  {
    match c
    case CAnd(l, r) => PairRoundTrip(c, l, r, preds, mapping, all, checked, true);
    case COr(l, r) => PairRoundTrip(c, l, r, preds, mapping, all, checked, false);
    case CNot(x) => RoundTrip(x, preds, mapping, all, checked);
    case CPredicate(id) =>
    case _ =>
  }

  lemma {:induction false} PairRoundTrip(c: Cond, l: Cond, r: Cond, preds: seq<Predicate>, mapping: seq<nat>,
                                         all: seq<nat>,
                                         checked: bool, and: bool)
    requires c == (if and then CAnd(l, r) else COr(l, r)) && NoRepeats(mapping) &&
             ToBool(c, preds, mapping, checked).Ok?
    requires ToBool(c, preds, mapping, checked).value.1 <= all && |all| <= TERMS
    ensures FromBool(ToBool(c, preds, mapping, checked).value.0, all) == Ok(Folded(c, preds))
    decreases c, 0
  {
    var (x, m1) := ToBool(l, preds, mapping, checked).value;
    var y := ToBool(r, preds, m1, checked).value.0;
    MappingGrows(l, preds, mapping, checked);
    MappingGrows(r, preds, m1, checked);
    RoundTrip(l, preds, mapping, all, checked);
    RoundTrip(r, preds, m1, all, checked);
    ReducePair(x, y, all, and);
  }

  lemma ReducePair(x: Bool, y: Bool, all: seq<nat>, and: bool)
    ensures var (l, r, both) := (FromBool(x, all), FromBool(y, all), Reduce([x, y], all, and));
            && (both.Ok? <==> l.Ok? && r.Ok?)
            && (both.Ok? ==> both.value == if and then CAnd(l.value, r.value) else COr(l.value, r.value))
  {
    assert [x, y][..1] == [x];
    assert Reduce([x], all, and) == FromBool(x, all);
  }

  /** The most predicates that the translation takes: the build that checks overflow stops
      before the 256th, the other one goes on but is right for 256. */
  function Limit(checked: bool): nat { if checked then 255 else 256 }

  function Translated(c: Cond, preds: seq<Predicate>, checked: bool): Result<Cond> {
    match ToBool(c, preds, [], checked)
    case Err(m) => Err(m)
    case Ok((b, mapping)) => FromBool(b, mapping)
  }

  lemma {:induction false} TranslatesIff(c: Cond, preds: seq<Predicate>, mapping: seq<nat>, checked: bool)
    requires Below(c, |preds|) && NoRepeats(mapping) && (checked ==> |mapping| < TERMS)
    ensures ToBool(c, preds, mapping, checked).Ok? <==> checked ==> |Elements(mapping) + Open(c, preds)| < TERMS
    decreases c, 1
  {
    CountElements(mapping);
    match c
    case CAnd(l, r) => PairTranslatesIff(l, r, c, preds, mapping, checked);
    case COr(l, r) => PairTranslatesIff(l, r, c, preds, mapping, checked);
    case CNot(x) =>
      assert Ids(x) == Ids(c);
      TranslatesIff(x, preds, mapping, checked);
    case CPredicate(id) =>
      assert id in Ids(c);
      LeafTranslatesIff(id, preds, mapping, checked);
    case _ =>
      assert Elements(mapping) + {} == Elements(mapping);
  }

  lemma LeafTranslatesIff(id: nat, preds: seq<Predicate>, mapping: seq<nat>, checked: bool)
    requires id < |preds| && |Elements(mapping)| == |mapping| && (checked ==> |mapping| < TERMS)
    ensures ToBool(CPredicate(id), preds, mapping, checked).Ok? <==>
            checked ==> |Elements(mapping) + Open(CPredicate(id), preds)| < TERMS
  {
    if IsLiteral(preds[id]) {
      assert preds[id] == PLit(Bool(true)) || preds[id] == PLit(Bool(false));
      assert Elements(mapping) + {} == Elements(mapping);
    } else if id in mapping {
      assert Elements(mapping) + {id} == Elements(mapping);
    } else {
      assert id !in Elements(mapping);
    }
  }

  lemma {:induction false} PairTranslatesIff(l: Cond, r: Cond, c: Cond, preds: seq<Predicate>, mapping: seq<nat>,
                                             checked: bool)
    requires (c == CAnd(l, r) || c == COr(l, r)) && Below(c, |preds|) && NoRepeats(mapping) &&
             (checked ==> |mapping| < TERMS)
    ensures ToBool(c, preds, mapping, checked).Ok? <==> checked ==> |Elements(mapping) + Open(c, preds)| < TERMS
    decreases c, 0
  {
    assert Ids(l) <= Ids(c) && Ids(r) <= Ids(c);
    TranslatesIff(l, preds, mapping, checked);
    var all := Elements(mapping) + Open(c, preds);
    assert all == (Elements(mapping) + Open(l, preds)) + Open(r, preds);
    Smaller(Elements(mapping) + Open(l, preds), all);
    if ToBool(l, preds, mapping, checked).Ok? {
      var m1 := ToBool(l, preds, mapping, checked).value.1;
      MappingGrows(l, preds, mapping, checked);
      CountElements(m1);
      TranslatesIff(r, preds, m1, checked);
    }
  }

  lemma {:induction false} Smaller(a: set<nat>, b: set<nat>)
    requires a <= b
    ensures |a| <= |b|
  {
    if a != {} {
      var x :| x in a;
      Smaller(a - {x}, b - {x});
    }
  }

  /** A round trip that succeeds has met no position that wraps. */
  lemma {:induction false} NoPositionWraps(c: Cond, preds: seq<Predicate>, mapping: seq<nat>, all: seq<nat>)
    requires NoRepeats(mapping) && NoRepeats(all) && ToBool(c, preds, mapping, false).Ok?
    requires ToBool(c, preds, mapping, false).value.1 <= all
    requires FromBool(ToBool(c, preds, mapping, false).value.0, all) == Ok(Folded(c, preds))
    ensures forall i | TERMS <= i < |all| :: all[i] !in Open(c, preds)
    decreases c, 1
  {
    match c
    case CAnd(l, r) => NoPositionWrapsInPair(c, l, r, preds, mapping, all, true);
    case COr(l, r) => NoPositionWrapsInPair(c, l, r, preds, mapping, all, false);
    case CNot(x) => NoPositionWraps(x, preds, mapping, all);
    case CPredicate(id) =>
    case _ =>
  }

  lemma {:induction false} NoPositionWrapsInPair(c: Cond, l: Cond, r: Cond, preds: seq<Predicate>, mapping: seq<nat>,
                                                 all: seq<nat>, and: bool)
    requires c == (if and then CAnd(l, r) else COr(l, r)) && NoRepeats(mapping) && NoRepeats(all)
    requires ToBool(c, preds, mapping, false).Ok? && ToBool(c, preds, mapping, false).value.1 <= all
    requires FromBool(ToBool(c, preds, mapping, false).value.0, all) == Ok(Folded(c, preds))
    ensures forall i | TERMS <= i < |all| :: all[i] !in Open(c, preds)
    decreases c, 0
  {
    var (x, m1) := ToBool(l, preds, mapping, false).value;
    var (y, m2) := ToBool(r, preds, m1, false).value;
    MappingGrows(l, preds, mapping, false);
    MappingGrows(r, preds, m1, false);
    ReducePair(x, y, all, and);
    NoPositionWraps(l, preds, mapping, all);
    NoPositionWraps(r, preds, m1, all);
  }

  /** The exact limits: with overflow checks the translation stops at the 256th predicate;
      without them it succeeds and is undone by reading back up to 256 predicates, not beyond. */
  lemma RoundTripIff(c: Cond, preds: seq<Predicate>, checked: bool)
    requires Below(c, |preds|)
    ensures Translated(c, preds, checked) == Ok(Folded(c, preds)) <==> |Open(c, preds)| <= Limit(checked)
  {
    TranslatesIff(c, preds, [], checked);
    assert Elements([]) + Open(c, preds) == Open(c, preds);
    if ToBool(c, preds, [], checked).Ok? {
      var (b, all) := ToBool(c, preds, [], checked).value;
      MappingGrows(c, preds, [], checked);
      CountElements(all);
      if |all| <= TERMS {
        RoundTrip(c, preds, [], all, checked);
      } else {
        assert all[TERMS] in Open(c, preds);
        if FromBool(b, all) == Ok(Folded(c, preds)) {
          NoPositionWraps(c, preds, [], all);
          assert false;
        }
      }
    }
  }

  /** Nothing is folded when no predicate is a boolean literal. */
  lemma {:induction false} NothingToFold(c: Cond, preds: seq<Predicate>)
    ensures Folded(c, preds) == c <==> Open(c, preds) == Ids(c)
  {
    match c
    case CAnd(l, r) => NothingToFold(l, preds); NothingToFold(r, preds); FoldedIds(l, preds); FoldedIds(r, preds);
    case COr(l, r) => NothingToFold(l, preds); NothingToFold(r, preds); FoldedIds(l, preds); FoldedIds(r, preds);
    case CNot(x) => NothingToFold(x, preds);
    case _ =>
  }

  predicate LiteralId(preds: seq<Predicate>, id: nat) { id < |preds| && IsLiteral(preds[id]) }

  lemma {:induction false} FoldedIds(c: Cond, preds: seq<Predicate>)
    ensures forall id :: id in Open(c, preds) <==> id in Ids(c) && !LiteralId(preds, id)
  {
    match c
    case CAnd(l, r) => FoldedIds(l, preds); FoldedIds(r, preds);
    case COr(l, r) => FoldedIds(l, preds); FoldedIds(r, preds);
    case CNot(x) => FoldedIds(x, preds);
    case _ =>
  }

  // ---------- simplification ----------

  function Terms(b: Bool): set<nat>
    decreases b, 0
  {
    match b
    case BTerm(t) => {t}
    case BAnd(items) => TermsOf(items)
    case BOr(items) => TermsOf(items)
    case BNot(x) => Terms(x)
    case _ => {}
  }

  function TermsOf(items: seq<Bool>): set<nat>
    decreases items, 1
  {
    if items == [] then {} else TermsOf(items[..|items| - 1]) + Terms(items[|items| - 1])
  }

  /** No conjunction or disjunction is empty. */
  predicate Proper(b: Bool)
    decreases b, 0
  {
    match b
    case BAnd(items) => items != [] && AllProper(items)
    case BOr(items) => items != [] && AllProper(items)
    case BNot(x) => Proper(x)
    case _ => true
  }

  predicate AllProper(items: seq<Bool>)
    decreases items, 1
  {
    items == [] || (AllProper(items[..|items| - 1]) && Proper(items[|items| - 1]))
  }

  /** What is asked of the external library: an equivalent formula over no new terms. */
  ghost predicate IsSimplifier(simp: Bool -> Bool) {
    && (forall b, v :: EvalBool(simp(b), v) == EvalBool(b, v))
    && forall b :: Proper(b) ==> Proper(simp(b)) && Terms(simp(b)) <= Terms(b)
  }

  function Through(mapping: seq<nat>, truth: nat -> bool): nat -> bool {
    (i: nat) => i < |mapping| && truth(mapping[i])
  }

  ghost predicate TermsBelow(ts: set<nat>, n: nat) { forall t | t in ts :: t < n }

  lemma {:induction false} FromBoolSucceedsIff(b: Bool, mapping: seq<nat>)
    ensures FromBool(b, mapping).Ok? <==> Proper(b) && TermsBelow(Terms(b), |mapping|)
    decreases b, 0
  {
    match b
    case BAnd(items) => ReduceSucceedsIff(items, mapping, true);
    case BOr(items) => ReduceSucceedsIff(items, mapping, false);
    case BNot(x) => FromBoolSucceedsIff(x, mapping);
    case _ =>
  }

  lemma {:induction false} ReduceSucceedsIff(items: seq<Bool>, mapping: seq<nat>, and: bool)
    ensures Reduce(items, mapping, and).Ok? <==>
            items != [] && AllProper(items) && TermsBelow(TermsOf(items), |mapping|)
    decreases items, 1
  {
    if items != [] {
      var init, last := items[..|items| - 1], items[|items| - 1];
      FromBoolSucceedsIff(last, mapping);
      ReduceSucceedsIff(init, mapping, and);
      assert TermsOf(items) == TermsOf(init) + Terms(last);
      assert TermsBelow(TermsOf(items), |mapping|) <==>
             TermsBelow(TermsOf(init), |mapping|) && TermsBelow(Terms(last), |mapping|);
    }
  }

  lemma {:induction false} FromBoolMeans(b: Bool, mapping: seq<nat>, truth: nat -> bool)
    requires FromBool(b, mapping).Ok?
    ensures EvalCond(FromBool(b, mapping).value, truth) == EvalBool(b, Through(mapping, truth))
    ensures Ids(FromBool(b, mapping).value) <= Elements(mapping)
    decreases b, 0
  {
    match b
    case BAnd(items) => ReduceMeans(items, mapping, truth, true);
    case BOr(items) => ReduceMeans(items, mapping, truth, false);
    case BNot(x) => FromBoolMeans(x, mapping, truth);
    case _ =>
  }

  lemma {:induction false} ReduceMeans(items: seq<Bool>, mapping: seq<nat>, truth: nat -> bool, and: bool)
    requires Reduce(items, mapping, and).Ok?
    ensures var v := Through(mapping, truth);
            EvalCond(Reduce(items, mapping, and).value, truth) == if and then EvalAll(items, v) else EvalAny(items, v)
    ensures Ids(Reduce(items, mapping, and).value) <= Elements(mapping)
    decreases items, 1
  {
    var init, last := items[..|items| - 1], items[|items| - 1];
    FromBoolMeans(last, mapping, truth);
    if |items| > 1 {
      ReduceMeans(init, mapping, truth, and);
    } else {
      assert init == [];
    }
  }

  function Simplify(c: Cond, preds: seq<Predicate>, simp: Bool -> Bool, checked: bool): Result<Cond> {
    match ToBool(c, preds, [], checked)
    case Err(m) => Err(m)
    case Ok((b, mapping)) => FromBool(simp(b), mapping)
  }

  ghost predicate Consistent(truth: nat -> bool, preds: seq<Predicate>) {
    forall id: nat | id < |preds| && IsLiteral(preds[id]) :: truth(id) == preds[id].value.b
  }

  lemma {:induction false} FoldingKeepsTruth(c: Cond, preds: seq<Predicate>, truth: nat -> bool)
    requires Consistent(truth, preds)
    ensures EvalCond(Folded(c, preds), truth) == EvalCond(c, truth)
  {
    match c
    case CAnd(l, r) => FoldingKeepsTruth(l, preds, truth); FoldingKeepsTruth(r, preds, truth);
    case COr(l, r) => FoldingKeepsTruth(l, preds, truth); FoldingKeepsTruth(r, preds, truth);
    case CNot(x) => FoldingKeepsTruth(x, preds, truth);
    case _ =>
  }

  /** Within the limit simplifying keeps the truth of a condition and asks for no predicate
      that was not there or is a boolean literal. */
  lemma SimplifyKeepsTruth(c: Cond, preds: seq<Predicate>, simp: Bool -> Bool, checked: bool, truth: nat -> bool)
    requires IsSimplifier(simp) && Below(c, |preds|) && |Open(c, preds)| <= Limit(checked) && Consistent(truth, preds)
    ensures Simplify(c, preds, simp, checked).Ok?
    ensures EvalCond(Simplify(c, preds, simp, checked).value, truth) == EvalCond(c, truth)
    ensures Ids(Simplify(c, preds, simp, checked).value) <= Open(c, preds)
  {
    RoundTripIff(c, preds, checked);
    var (b, mapping) := ToBool(c, preds, [], checked).value;
    MappingGrows(c, preds, [], checked);
    assert Elements([]) + Open(c, preds) == Open(c, preds);
    SimplifiedMeans(b, mapping, simp, truth);
    FoldingKeepsTruth(c, preds, truth);
  }

  lemma SimplifiedMeans(b: Bool, mapping: seq<nat>, simp: Bool -> Bool, truth: nat -> bool)
    requires IsSimplifier(simp) && FromBool(b, mapping).Ok?
    ensures FromBool(simp(b), mapping).Ok?
    ensures EvalCond(FromBool(simp(b), mapping).value, truth) == EvalCond(FromBool(b, mapping).value, truth)
    ensures Ids(FromBool(simp(b), mapping).value) <= Elements(mapping)
  {
    FromBoolSucceedsIff(b, mapping);
    FromBoolSucceedsIff(simp(b), mapping);
    FromBoolMeans(b, mapping, truth);
    FromBoolMeans(simp(b), mapping, truth);
  }

  // ---------- the compiled policy ----------

  datatype FilterPolicy = FilterPolicy(whereConds: Option<Cond>, predicates: seq<Predicate>, env: seq<Var>)

  function SimplifyActions(actions: Actions, preds: seq<Predicate>, simp: Bool -> Bool,
                           checked: bool): Result<Actions> {
    if exists a :: a in actions && Simplify(actions[a], preds, simp, checked).Err? then Err("simplify")
    else Ok(map a | a in actions :: Simplify(actions[a], preds, simp, checked).value)
  }

  function GenerateWhere(actions: Actions): Option<Cond> {
    if Skip in actions then Some(CNot(actions[Skip])) else None
  }

  function FromArrow(r: Region, simp: Bool -> Bool, checked: bool): Result<FilterPolicy> {
    match Infer(r, CTrue, Rules([], []))
    case Err(m) => Err(m)
    case Ok((actions, st)) =>
      match SimplifyActions(actions, st.predicates, simp, checked)
      case Err(m) => Err(m)
      case Ok(simplified) =>
        match GenerateWhere(simplified)
        case None => Ok(FilterPolicy(None, st.predicates, st.env))
        case Some(w) =>
          match Simplify(w, st.predicates, simp, checked)
          case Err(m) => Err(m)
          case Ok(w') => Ok(FilterPolicy(Some(w'), st.predicates, st.env))
  }

  /** A boolean is its own truth value. */
  ghost predicate SoundScope(s: Scope) {
    forall b :: s.truthy(Bool(b)) == b
  }

  function PolicyTruth(p: FilterPolicy, s: Scope): nat -> bool { Truth(Rules(p.predicates, p.env), s) }

  lemma TruthIsConsistent(preds: seq<Predicate>, env: seq<Var>, s: Scope)
    requires SoundScope(s)
    ensures Consistent(Truth(Rules(preds, env), s), preds)
  {
    var truth := Truth(Rules(preds, env), s);
    forall id: nat | id < |preds| && IsLiteral(preds[id]) ensures truth(id) == preds[id].value.b {
      assert EvalPredicate(preds[id], env, s) == Bool(preds[id].value.b);
      assert s.truthy(Bool(preds[id].value.b)) == preds[id].value.b;
    }
  }

  /** The condition of a compiled policy holds exactly when running it does not skip; without a
      condition it never skips. */
  lemma WhereMeansNotSkip(r: Region, simp: Bool -> Bool, checked: bool, s: Scope)
    requires IsSimplifier(simp) && SoundScope(s) && Infer(r, CTrue, Rules([], [])).Ok?
    requires |Infer(r, CTrue, Rules([], [])).value.1.predicates| <= Limit(checked)
    ensures FromArrow(r, simp, checked).Ok? && RunRegion(r, s).Some?
    ensures var p := FromArrow(r, simp, checked).value;
            && GoodRules(Rules(p.predicates, p.env))
            && match p.whereConds
               case None => RunRegion(r, s) != Some(Skip)
               case Some(w) =>
                 && Below(w, |p.predicates|)
                 && (EvalCond(w, PolicyTruth(p, s)) <==> RunRegion(r, s) != Some(Skip))
  {
    var (actions, st) := Infer(r, CTrue, Rules([], [])).value;
    RulesDecide(r, CTrue, Rules([], []), s);
    var truth := Truth(st, s);
    TruthIsConsistent(st.predicates, st.env, s);
    forall a | a in actions
      ensures Simplify(actions[a], st.predicates, simp, checked).Ok?
      ensures var c := Simplify(actions[a], st.predicates, simp, checked).value;
              Below(c, |st.predicates|) && EvalCond(c, truth) == EvalCond(actions[a], truth)
    {
      SimplifyBelow(actions[a], st.predicates, simp, checked, truth);
    }
    var simplified := SimplifyActions(actions, st.predicates, simp, checked).value;
    assert Chosen(actions, Skip, truth) <==> RunRegion(r, s).value == Skip;
    if Skip in simplified {
      var w := CNot(simplified[Skip]);
      assert Ids(w) == Ids(simplified[Skip]);
      SimplifyBelow(w, st.predicates, simp, checked, truth);
    }
  }

  lemma SimplifyBelow(c: Cond, preds: seq<Predicate>, simp: Bool -> Bool, checked: bool, truth: nat -> bool)
    requires IsSimplifier(simp) && Below(c, |preds|) && |preds| <= Limit(checked) && Consistent(truth, preds)
    ensures Simplify(c, preds, simp, checked).Ok?
    ensures Below(Simplify(c, preds, simp, checked).value, |preds|)
    ensures EvalCond(Simplify(c, preds, simp, checked).value, truth) == EvalCond(c, truth)
  {
    FirstNumbers(|preds|);
    FoldedIds(c, preds);
    Smaller(Open(c, preds), Numbers(|preds|));
    SimplifyKeepsTruth(c, preds, simp, checked, truth);
  }

  function Numbers(n: nat): set<nat> {
    if n == 0 then {} else Numbers(n - 1) + {n - 1}
  }

  lemma {:induction false} FirstNumbers(n: nat)
    ensures |Numbers(n)| == n && forall i: nat :: i in Numbers(n) <==> i < n
  {
    if n > 0 {
      FirstNumbers(n - 1);
    }
  }
}
