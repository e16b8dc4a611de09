/** The control-flow graph of a policy function (chiselc/src/tools/analysis/control_flow.rs):
    walking it under any outcome of the tests runs the statements that the program runs, unless
    the program runs into an empty block. */
module ControlFlow {
  import opened Values

  datatype Stmt =
    | Block(stmts: seq<Stmt>)
    | If(test: string, cons: Stmt, alt: Option<Stmt>)
    | Plain(text: string)
    | Return(text: string)
    | Unsupported

  datatype Branch = TrueEdge | FalseEdge | FlowEdge

  datatype Edge = Edge(source: nat, branch: Branch, target: nat)

  /** An edge that still looks for its target. */
  datatype Out = Out(source: nat, branch: Branch)

  const START := 0
  const END := 1

  /** Nodes are numbered in the order they are added; `previous` is the last one. */
  datatype Graph = Graph(size: nat, edges: seq<Edge>, stmtMap: map<nat, Stmt>, previous: nat)

  const NEW_GRAPH := Graph(2, [], map[], START)

  /** A part of the graph with its entry and the edges that leave it. */
  datatype Piece = Piece(graph: Graph, root: nat, outs: seq<Out>)

  // ---------- the builder ----------

  function AddNode(g: Graph, s: Stmt): Graph {
    Graph(g.size + 1, g.edges, g.stmtMap[g.size := s], g.size)
  }

  function AddEdge(g: Graph, source: nat, target: nat, branch: Branch): Graph {
    g.(edges := g.edges + [Edge(source, branch, target)])
  }

  function MergeOut(g: Graph, outs: seq<Out>, target: nat): Graph
    decreases |outs|
  {
    if outs == [] then g else MergeOut(AddEdge(g, outs[0].source, target, outs[0].branch), outs[1..], target)
  }

  /** A graph under construction: `previous` is the start or a node. */
  ghost predicate Started(g: Graph) {
    g.size >= 2 && g.previous != END && g.previous < g.size
  }

  function BuildBlock(stmts: seq<Stmt>, g: Graph): Result<Piece>
    decreases stmts, 1
  {
    if stmts == [] then Ok(Piece(g, g.previous, []))
    else match BuildStmt(stmts[0], g)
      case Err(e) => Err(e)
      case Ok(p) => BuildRest(stmts[1..], p)
  }

  function BuildRest(stmts: seq<Stmt>, p: Piece): Result<Piece>
    decreases stmts, 0
  {
    if stmts == [] then Ok(p)
    else match BuildStmt(stmts[0], p.graph)
      case Err(e) => Err(e)
      case Ok(q) => BuildRest(stmts[1..], Chain(p, q))
  }

  function Chain(p: Piece, q: Piece): Piece {
    Piece(MergeOut(q.graph, p.outs, q.root), p.root, q.outs)
  }

  function BuildStmt(s: Stmt, g: Graph): Result<Piece>
    decreases s, 2
  {
    match s
    case Block(stmts) => BuildBlock(stmts, g)
    case If(_, cons, alt) =>
      (match BuildStmt(cons, AddNode(g, s))
       case Err(e) => Err(e)
       case Ok(c) =>
         var withCons := AddEdge(c.graph, g.size, c.root, TrueEdge);
         match alt
         case None => Ok(Piece(withCons, g.size, c.outs + [Out(g.size, FalseEdge)]))
         case Some(a) =>
           match BuildStmt(a, withCons)
           case Err(e) => Err(e)
           case Ok(b) => Ok(Piece(AddEdge(b.graph, g.size, b.root, FalseEdge), g.size, c.outs + b.outs)))
    case Plain(_) => Ok(Piece(AddNode(g, s), g.size, [Out(g.size, FlowEdge)]))
    case Return(_) => Ok(Piece(AddEdge(AddNode(g, s), g.size, END, FlowEdge), g.size, []))
    case Unsupported => Err("unsupported statement type")
  }

  function Build(stmts: seq<Stmt>): Result<Graph> {
    match BuildBlock(stmts, NEW_GRAPH)
    case Err(e) => Err(e)
    case Ok(p) => Ok(MergeOut(AddEdge(p.graph, START, p.root, FlowEdge), p.outs, END))
  }

  class CFGBuilder {
    var size: nat
    var edges: seq<Edge>
    var stmtMap: map<nat, Stmt>
    var previous: nat

    constructor ()
      ensures Inner() == NEW_GRAPH
    {
      size, edges, stmtMap, previous := 2, [], map[], START;
    }

    function Inner(): Graph
      reads this
    {
      Graph(size, edges, stmtMap, previous)
    }

    method AddStmtNode(s: Stmt) returns (idx: nat)
      modifies this
      ensures idx == old(size) && Inner() == AddNode(old(Inner()), s)
    {
      idx := size;
      size, stmtMap, previous := size + 1, stmtMap[idx := s], idx;
    }

    method AddEdgeTo(source: nat, target: nat, branch: Branch)
      modifies this
      ensures Inner() == AddEdge(old(Inner()), source, target, branch)
    {
      edges := edges + [Edge(source, branch, target)];
    }

    method MergeOutTo(outs: seq<Out>, target: nat)
      modifies this
      ensures Inner() == MergeOut(old(Inner()), outs, target)
      ensures size == old(size) && previous == old(previous)
    {
      for i := 0 to |outs|
        invariant size == old(size) && previous == old(previous)
        invariant MergeOut(old(Inner()), outs, target) == MergeOut(Inner(), outs[i..], target)
      {
        AddEdgeTo(outs[i].source, target, outs[i].branch);
      }
    }

    method BlockOf(stmts: seq<Stmt>) returns (r: Result<Piece>)
      requires Started(Inner())
      modifies this
      ensures r.Ok? ==> Started(Inner())
      ensures r == BuildBlock(stmts, old(Inner()))
      ensures r.Ok? ==> r.value.graph == Inner()
      decreases stmts, 1
    {
      var root: Option<nat> := None;
      var current: Option<seq<Out>> := None;
      for i := 0 to |stmts|
        invariant root.Some? <==> current.Some?
        invariant Started(Inner())
        invariant i > 0 ==> root.Some?
        invariant root.None? ==> Inner() == old(Inner()) && i == 0
        invariant root.Some? ==>
                    BuildBlock(stmts, old(Inner())) == BuildRest(stmts[i..], Piece(Inner(), root.value, current.value))
      {
        assert stmts[i] in stmts && stmts[i..][0] == stmts[i] && stmts[i..][1..] == stmts[i + 1..];
        var built := StmtOf(stmts[i]);
        if built.Err? {
          return built;
        }
        match current
        case None =>
          root, current := Some(built.value.root), Some(built.value.outs);
        case Some(curr) =>
          MergeOutTo(curr, built.value.root);
          current := Some(built.value.outs);
      }
      return Ok(Piece(Inner(), if root.Some? then root.value else previous,
                      if current.Some? then current.value else []));
    }

    method StmtOf(s: Stmt) returns (r: Result<Piece>)
      requires Started(Inner())
      modifies this
      ensures r.Ok? ==> Started(Inner())
      ensures r == BuildStmt(s, old(Inner()))
      ensures r.Ok? ==> r.value.graph == Inner()
      decreases s, 2
    {
      match s
      case Block(stmts) =>
        r := BlockOf(stmts);
      case If(_, cons, alt) =>
        var root := AddStmtNode(s);
        var c := StmtOf(cons);
        if c.Err? {
          return c;
        }
        var outs := c.value.outs;
        AddEdgeTo(root, c.value.root, TrueEdge);
        match alt {
          case Some(a) =>
            var b := StmtOf(a);
            if b.Err? {
              return b;
            }
            // Always so: a node was added, and End is never the previous one.
            if previous != END {
              AddEdgeTo(root, b.value.root, FalseEdge);
              outs := outs + b.value.outs;
            }
          case None =>
            outs := outs + [Out(root, FalseEdge)];
        }
        return Ok(Piece(Inner(), root, outs));
      case Plain(_) =>
        var idx := AddStmtNode(s);
        return Ok(Piece(Inner(), idx, [Out(idx, FlowEdge)]));
      case Return(_) =>
        var idx := AddStmtNode(s);
        AddEdgeTo(idx, END, FlowEdge);
        return Ok(Piece(Inner(), idx, []));
      case Unsupported =>
        return Err("unsupported statement type");
    }
  }

  method BuildGraph(stmts: seq<Stmt>) returns (r: Result<Graph>)
    ensures r == Build(stmts)
  {
    var builder := new CFGBuilder();
    var block := builder.BlockOf(stmts);
    if block.Err? {
      return Err(block.error);
    }
    builder.AddEdgeTo(START, block.value.root, FlowEdge);
    builder.MergeOutTo(block.value.outs, END);
    return Ok(builder.Inner());
  }

  // ---------- direct execution ----------

  /** How many nodes a statement gets. */
  function Size(s: Stmt): nat
    decreases s, 1
  {
    match s
    case Block(stmts) => SizeAll(stmts)
    case If(_, cons, alt) => 1 + Size(cons) + (if alt.Some? then Size(alt.value) else 0)
    case _ => 1
  }

  function SizeAll(stmts: seq<Stmt>): nat
    decreases stmts, 0
  {
    if stmts == [] then 0 else Size(stmts[0]) + SizeAll(stmts[1..])
  }

  /** Statements are named by their place in the text, the first one being `n`. */
  function Preorder(stmts: seq<Stmt>, n: nat): map<nat, Stmt>
    decreases stmts, 0
  {
    if stmts == [] then map[] else PreorderOf(stmts[0], n) + Preorder(stmts[1..], n + Size(stmts[0]))
  }

  function PreorderOf(s: Stmt, n: nat): map<nat, Stmt>
    decreases s, 1
  {
    match s
    case Block(stmts) => Preorder(stmts, n)
    case If(_, cons, alt) =>
      map[n := s] + PreorderOf(cons, n + 1) +
      (if alt.Some? then PreorderOf(alt.value, n + 1 + Size(cons)) else map[])
    case _ => map[n := s]
  }

  /** The outcome of each test. */
  type Truth = nat -> bool

  /** The statements that ran, whether the last one returned, and whether no empty block was
      met on the way. */
  datatype Run = Run(trace: seq<nat>, returned: bool, clean: bool)

  function Then(first: Run, second: Run): Run {
    if first.returned then first
    else Run(first.trace + second.trace, second.returned, first.clean && second.clean)
  }

  function Exec(s: Stmt, n: nat, truth: Truth): Run
    decreases s, 1
  {
    match s
    case Block(stmts) => if stmts == [] then Run([], false, false) else ExecAll(stmts, n, truth)
    case If(_, cons, alt) =>
      Then(Run([n], false, true),
           if truth(n) then Exec(cons, n + 1, truth)
           else if alt.Some? then Exec(alt.value, n + 1 + Size(cons), truth)
           else Run([], false, true))
    case Return(_) => Run([n], true, true)
    case _ => Run([n], false, true)
  }

  function ExecAll(stmts: seq<Stmt>, n: nat, truth: Truth): Run
    decreases stmts, 0
  {
    if stmts == [] then Run([], false, true)
    else Then(Exec(stmts[0], n, truth), ExecAll(stmts[1..], n + Size(stmts[0]), truth))
  }

  function ExecProgram(stmts: seq<Stmt>, truth: Truth): Run {
    Exec(Block(stmts), 2, truth)
  }

  // ---------- walking the graph ----------

  /** A test is left by the edge of its outcome, any other node by its flow edge. */
  predicate Taken(e: Edge, truth: Truth) {
    e.branch.FlowEdge? || (e.branch.TrueEdge? <==> truth(e.source))
  }

  ghost predicate Goes(edges: seq<Edge>, truth: Truth, a: nat, b: nat) {
    exists e :: e in edges && e.source == a && e.target == b && Taken(e, truth)
  }

  ghost predicate Path(edges: seq<Edge>, truth: Truth, trace: seq<nat>) {
    forall i :: 0 <= i < |trace| - 1 ==> Goes(edges, truth, trace[i], trace[i + 1])
  }

  /** `trace` leads from Start to End. */
  ghost predicate IsWalk(g: Graph, truth: Truth, trace: seq<nat>) {
    Path(g.edges, truth, [START] + trace + [END])
  }

  // ---------- each step has one way to go ----------

  predicate Clash(a: Out, b: Out) {
    a.source == b.source && (a.branch == FlowEdge || b.branch == FlowEdge || a.branch == b.branch)
  }

  ghost predicate Apart(a: seq<Out>, b: seq<Out>) {
    forall x, y | x in a && y in b :: !Clash(x, y)
  }

  /** No two of these edges can be taken from the same node. */
  ghost predicate Deterministic(outs: seq<Out>) {
    forall i, j :: 0 <= i < j < |outs| ==> !Clash(outs[i], outs[j])
  }

  ghost predicate From(outs: seq<Out>, lo: nat, hi: nat) {
    forall o | o in outs :: lo <= o.source < hi
  }

  lemma DeterministicConcat(a: seq<Out>, b: seq<Out>)
    requires Deterministic(a) && Deterministic(b) && Apart(a, b)
    ensures Deterministic(a + b)
  {
    forall i, j | 0 <= i < j < |a + b| ensures !Clash((a + b)[i], (a + b)[j]) {
      if i < |a| <= j {
        assert a[i] in a && b[j - |a|] in b;
      }
    }
  }

  function Sources(edges: seq<Edge>): seq<Out> {
    seq(|edges|, i requires 0 <= i < |edges| => Out(edges[i].source, edges[i].branch))
  }

  /** The edges that `p` adds to `g` and those it leaves open start at new nodes, with no
      clash; `made` are the former. */
  ghost predicate Tidy(g: Graph, p: Piece, made: seq<Out>) {
    && g.size <= p.graph.size && g.edges <= p.graph.edges
    && Sources(p.graph.edges) == Sources(g.edges) + made
    && Deterministic(made) && Deterministic(p.outs) && Apart(made, p.outs)
    && From(made, g.size, p.graph.size) && From(p.outs, g.size, p.graph.size)
  }

  lemma {:induction false} MergedSources(g: Graph, outs: seq<Out>, target: nat)
    ensures var m := MergeOut(g, outs, target);
            && m.size == g.size && m.stmtMap == g.stmtMap && m.previous == g.previous
            && g.edges <= m.edges && Sources(m.edges) == Sources(g.edges) + outs
            && forall o | o in outs :: Edge(o.source, o.branch, target) in m.edges
    decreases |outs|
  {
    if outs != [] {
      var g' := AddEdge(g, outs[0].source, target, outs[0].branch);
      MergedSources(g', outs[1..], target);
      assert Sources(g'.edges) == Sources(g.edges) + [outs[0]];
      assert outs == [outs[0]] + outs[1..];
      var e := Edge(outs[0].source, outs[0].branch, target);
      assert e == g'.edges[|g.edges|];
    }
  }

  lemma ChainIsTidy(g: Graph, p: Piece, made: seq<Out>, q: Piece, made': seq<Out>)
    requires Tidy(g, p, made) && Tidy(p.graph, q, made')
    ensures Tidy(g, Chain(p, q), made + made' + p.outs)
  {
    MergedSources(q.graph, p.outs, q.root);
    DeterministicConcat(made, made');
    DeterministicConcat(made + made', p.outs);
  }

  lemma {:induction false} StmtIsTidy(s: Stmt, g: Graph) returns (made: seq<Out>)
    requires BuildStmt(s, g).Ok?
    ensures Tidy(g, BuildStmt(s, g).value, made)
    decreases s, 2
  {
    match s
    case Block(stmts) =>
      if stmts == [] {
        made := [];
      } else {
        var first := StmtIsTidy(stmts[0], g);
        made := RestIsTidy(stmts[1..], g, BuildStmt(stmts[0], g).value, first);
      }
    case If(_, cons, alt) =>
      var n, g1 := g.size, AddNode(g, s);
      var c := BuildStmt(cons, g1).value;
      var mc := StmtIsTidy(cons, g1);
      if alt.None? {
        made := mc + [Out(n, TrueEdge)];
        TestAloneIsTidy(g, s, c, mc, BuildStmt(s, g).value);
      } else {
        var g2 := AddEdge(c.graph, n, c.root, TrueEdge);
        var mb := StmtIsTidy(alt.value, g2);
        made := mc + [Out(n, TrueEdge)] + mb + [Out(n, FalseEdge)];
        TestWithElseIsTidy(g, s, c, mc, BuildStmt(alt.value, g2).value, mb, BuildStmt(s, g).value);
      }
    case Plain(_) => made := [];
    case Return(_) =>
      made := [Out(g.size, FlowEdge)];
    case Unsupported =>
  }

  lemma TestAloneIsTidy(g: Graph, s: Stmt, c: Piece, mc: seq<Out>, p: Piece)
    requires Tidy(AddNode(g, s), c, mc)
    requires p == Piece(AddEdge(c.graph, g.size, c.root, TrueEdge), g.size, c.outs + [Out(g.size, FalseEdge)])
    ensures Tidy(g, p, mc + [Out(g.size, TrueEdge)])
  {
    assert Sources(p.graph.edges) == Sources(c.graph.edges) + [Out(g.size, TrueEdge)];
    DeterministicConcat(mc, [Out(g.size, TrueEdge)]);
    DeterministicConcat(c.outs, [Out(g.size, FalseEdge)]);
  }

  lemma TestWithElseIsTidy(g: Graph, s: Stmt, c: Piece, mc: seq<Out>, b: Piece, mb: seq<Out>, p: Piece)
    requires Tidy(AddNode(g, s), c, mc) && Tidy(AddEdge(c.graph, g.size, c.root, TrueEdge), b, mb)
    requires p == Piece(AddEdge(b.graph, g.size, b.root, FalseEdge), g.size, c.outs + b.outs)
    ensures Tidy(g, p, mc + [Out(g.size, TrueEdge)] + mb + [Out(g.size, FalseEdge)])
  {
    var n := g.size;
    var t, f := [Out(n, TrueEdge)], [Out(n, FalseEdge)];
    assert Sources(AddEdge(c.graph, n, c.root, TrueEdge).edges) == Sources(c.graph.edges) + t;
    assert Sources(p.graph.edges) == Sources(b.graph.edges) + f;
    DeterministicConcat(mc, t);
    DeterministicConcat(mc + t, mb);
    DeterministicConcat(mc + t + mb, f);
    DeterministicConcat(c.outs, b.outs);
  }

  lemma {:induction false} RestIsTidy(stmts: seq<Stmt>, g: Graph, p: Piece, made: seq<Out>) returns (all: seq<Out>)
    requires Tidy(g, p, made) && BuildRest(stmts, p).Ok?
    ensures Tidy(g, BuildRest(stmts, p).value, all)
    decreases stmts, 0
  {
    if stmts == [] {
      all := made;
    } else {
      var q := BuildStmt(stmts[0], p.graph).value;
      var made' := StmtIsTidy(stmts[0], p.graph);
      ChainIsTidy(g, p, made, q, made');
      all := RestIsTidy(stmts[1..], g, Chain(p, q), made + made' + p.outs);
    }
  }

  // ---------- the walk follows the run ----------

  ghost predicate Leaves(outs: seq<Out>, truth: Truth, a: nat) {
    exists o :: o in outs && o.source == a && Taken(Edge(a, o.branch, END), truth)
  }

  /** The walk has followed `trace` up to position `k` and then goes to `q`, a node or the
      start, but not to what runs next: that is a node not before `limit`. */
  ghost predicate StraysAt(edges: seq<Edge>, truth: Truth, root: nat, trace: seq<nat>, limit: nat, k: nat, q: nat) {
    && k <= |trace| && q != END
    && (if k < |trace| then q < trace[k] else q < limit)
    && (if k == 0 then q == root
        else trace[0] == root && Path(edges, truth, trace[..k]) && Goes(edges, truth, trace[k - 1], q))
  }

  ghost predicate Strays(edges: seq<Edge>, truth: Truth, root: nat, trace: seq<nat>, limit: nat) {
    exists k: nat, q: nat :: StraysAt(edges, truth, root, trace, limit, k, q)
  }

  /** A clean run is a path from the entry of its piece to the end or to an open edge; any other
      is left by the walk. */
  ghost predicate Faithful(p: Piece, n: nat, run: Run, truth: Truth) {
    && n <= p.graph.size
    && (forall i :: 0 <= i < |run.trace| ==> n <= run.trace[i] < p.graph.size)
    && if run.clean then
         && run.trace != [] && run.trace[0] == p.root
         && Path(p.graph.edges, truth, run.trace)
         && var last := run.trace[|run.trace| - 1];
            if run.returned then Goes(p.graph.edges, truth, last, END) else Leaves(p.outs, truth, last)
       else Strays(p.graph.edges, truth, p.root, run.trace, p.graph.size)
  }

  lemma PathGrows(edges: seq<Edge>, edges': seq<Edge>, truth: Truth, trace: seq<nat>)
    requires Path(edges, truth, trace) && forall e | e in edges :: e in edges'
    ensures Path(edges', truth, trace)
  {
    forall i | 0 <= i < |trace| - 1 ensures Goes(edges', truth, trace[i], trace[i + 1]) {
      assert Goes(edges, truth, trace[i], trace[i + 1]);
    }
  }

  lemma PathConcat(edges: seq<Edge>, truth: Truth, a: seq<nat>, b: seq<nat>)
    requires Path(edges, truth, a) && Path(edges, truth, b)
    requires a != [] && b != [] ==> Goes(edges, truth, a[|a| - 1], b[0])
    ensures Path(edges, truth, a + b)
  {
    forall i | 0 <= i < |a + b| - 1 ensures Goes(edges, truth, (a + b)[i], (a + b)[i + 1]) {
      if i + 1 < |a| {
        assert Goes(edges, truth, a[i], a[i + 1]);
      } else if i >= |a| {
        assert Goes(edges, truth, b[i - |a|], b[i - |a| + 1]);
      }
    }
  }

  lemma StraysGrows(edges: seq<Edge>, edges': seq<Edge>, truth: Truth, root: nat, trace: seq<nat>, more: seq<nat>,
                    limit: nat, limit': nat)
    requires Strays(edges, truth, root, trace, limit) && (forall e | e in edges :: e in edges') && limit <= limit'
    requires forall i :: 0 <= i < |more| ==> limit <= more[i]
    ensures Strays(edges', truth, root, trace + more, limit')
  {
    var k: nat, q: nat :| StraysAt(edges, truth, root, trace, limit, k, q);
    if k > 0 {
      PathGrows(edges, edges', truth, trace[..k]);
      assert (trace + more)[..k] == trace[..k];
    }
    assert StraysAt(edges', truth, root, trace + more, limit', k, q);
  }

  /** Going astray after `first`, which leads to where the strayed path begins. */
  lemma StraysLater(edges: seq<Edge>, truth: Truth, first: seq<nat>, root: nat, trace: seq<nat>, limit: nat)
    requires Strays(edges, truth, root, trace, limit)
    requires first != [] && Path(edges, truth, first) && Goes(edges, truth, first[|first| - 1], root)
    ensures Strays(edges, truth, first[0], first + trace, limit)
  {
    var k: nat, q: nat :| StraysAt(edges, truth, root, trace, limit, k, q);
    var all, k' := first + trace, |first| + k;
    assert all[..k'] == first + trace[..k];
    PathConcat(edges, truth, first, trace[..k]);
    assert StraysAt(edges, truth, first[0], all, limit, k', q);
  }

  lemma MergedEdges(g: Graph, outs: seq<Out>, target: nat, truth: Truth, a: nat)
    requires Leaves(outs, truth, a)
    ensures Goes(MergeOut(g, outs, target).edges, truth, a, target)
  {
    MergedSources(g, outs, target);
    var o :| o in outs && o.source == a && Taken(Edge(a, o.branch, END), truth);
    assert Edge(o.source, o.branch, target) in MergeOut(g, outs, target).edges;
  }

  lemma ChainIsFaithful(p: Piece, n: nat, run: Run, q: Piece, run': Run, truth: Truth)
    requires Faithful(p, n, run, truth) && Faithful(q, p.graph.size, run', truth) && p.graph.edges <= q.graph.edges
    ensures Faithful(Chain(p, q), n, Then(run, run'), truth)
  {
    if !run.clean || run.returned {
      FirstDecides(p, n, run, q, run', truth);
    } else if run'.clean {
      BothAreClean(p, n, run, q, run', truth);
    } else {
      SecondStrays(p, n, run, q, run', truth);
    }
  }

  lemma FirstDecides(p: Piece, n: nat, run: Run, q: Piece, run': Run, truth: Truth)
    requires Faithful(p, n, run, truth) && Faithful(q, p.graph.size, run', truth) && p.graph.edges <= q.graph.edges
    requires !run.clean || run.returned
    ensures Faithful(Chain(p, q), n, Then(run, run'), truth)
  {
    MergedSources(q.graph, p.outs, q.root);
    var edges := Chain(p, q).graph.edges;
    assert forall e | e in p.graph.edges :: e in edges;
    if !run.clean {
      StraysGrows(p.graph.edges, edges, truth, p.root, run.trace, if run.returned then [] else run'.trace,
                  p.graph.size, q.graph.size);
      assert run.trace + [] == run.trace;
    } else {
      PathGrows(p.graph.edges, edges, truth, run.trace);
    }
  }

  lemma BothAreClean(p: Piece, n: nat, run: Run, q: Piece, run': Run, truth: Truth)
    requires Faithful(p, n, run, truth) && Faithful(q, p.graph.size, run', truth) && p.graph.edges <= q.graph.edges
    requires run.clean && !run.returned && run'.clean
    ensures Faithful(Chain(p, q), n, Then(run, run'), truth)
  {
    MergedSources(q.graph, p.outs, q.root);
    var edges := Chain(p, q).graph.edges;
    assert forall e | e in p.graph.edges :: e in edges;
    assert forall e | e in q.graph.edges :: e in edges;
    PathGrows(p.graph.edges, edges, truth, run.trace);
    PathGrows(q.graph.edges, edges, truth, run'.trace);
    MergedEdges(q.graph, p.outs, q.root, truth, run.trace[|run.trace| - 1]);
    PathConcat(edges, truth, run.trace, run'.trace);
  }

  lemma SecondStrays(p: Piece, n: nat, run: Run, q: Piece, run': Run, truth: Truth)
    requires Faithful(p, n, run, truth) && Faithful(q, p.graph.size, run', truth) && p.graph.edges <= q.graph.edges
    requires run.clean && !run.returned && !run'.clean
    ensures Faithful(Chain(p, q), n, Then(run, run'), truth)
  {
    MergedSources(q.graph, p.outs, q.root);
    var edges := Chain(p, q).graph.edges;
    assert forall e | e in p.graph.edges :: e in edges;
    assert forall e | e in q.graph.edges :: e in edges;
    PathGrows(p.graph.edges, edges, truth, run.trace);
    MergedEdges(q.graph, p.outs, q.root, truth, run.trace[|run.trace| - 1]);
    StraysGrows(q.graph.edges, edges, truth, q.root, run'.trace, [], q.graph.size, q.graph.size);
    assert run'.trace + [] == run'.trace;
    StraysLater(edges, truth, run.trace, q.root, run'.trace, q.graph.size);
  }

  lemma {:induction false} StmtGrows(s: Stmt, g: Graph)
    requires BuildStmt(s, g).Ok? && Started(g)
    ensures var g' := BuildStmt(s, g).value.graph; Started(g') && g'.size == g.size + Size(s)
    decreases s, 2
  {
    match s
    case Block(stmts) =>
      if stmts != [] {
        StmtGrows(stmts[0], g);
        RestGrows(stmts[1..], BuildStmt(stmts[0], g).value);
      }
    case If(_, cons, alt) =>
      StmtGrows(cons, AddNode(g, s));
      if alt.Some? {
        var c := BuildStmt(cons, AddNode(g, s)).value;
        StmtGrows(alt.value, AddEdge(c.graph, g.size, c.root, TrueEdge));
      }
    case _ =>
  }

  lemma {:induction false} RestGrows(stmts: seq<Stmt>, p: Piece)
    requires BuildRest(stmts, p).Ok? && Started(p.graph)
    ensures var g' := BuildRest(stmts, p).value.graph; Started(g') && g'.size == p.graph.size + SizeAll(stmts)
    decreases stmts, 0
  {
    if stmts != [] {
      var q := BuildStmt(stmts[0], p.graph).value;
      StmtGrows(stmts[0], p.graph);
      MergedSources(q.graph, p.outs, q.root);
      RestGrows(stmts[1..], Chain(p, q));
    }
  }

  lemma {:induction false} StmtIsFaithful(s: Stmt, g: Graph, truth: Truth)
    requires BuildStmt(s, g).Ok? && Started(g)
    ensures Faithful(BuildStmt(s, g).value, g.size, Exec(s, g.size, truth), truth)
    decreases s, 2
  {
    var n := g.size;
    match s
    case Block(stmts) =>
      if stmts == [] {
        assert StraysAt(g.edges, truth, g.previous, [], n, 0, g.previous);
      } else {
        StmtIsFaithful(stmts[0], g, truth);
        StmtGrows(stmts[0], g);
        RestIsFaithful(stmts[1..], BuildStmt(stmts[0], g).value, n, Exec(stmts[0], n, truth), truth);
      }
    case If(_, cons, alt) =>
      IfIsFaithful(s, g, truth);
    case _ =>
      LeafIsFaithful(s, g, truth);
  }

  lemma LeafIsFaithful(s: Stmt, g: Graph, truth: Truth)
    requires s.Plain? || s.Return?
    ensures Faithful(BuildStmt(s, g).value, g.size, Exec(s, g.size, truth), truth)
  {
    if s.Plain? {
      assert Out(g.size, FlowEdge) in BuildStmt(s, g).value.outs;
    } else {
      assert Edge(g.size, FlowEdge, END) in BuildStmt(s, g).value.graph.edges;
    }
  }

  lemma {:induction false} IfIsFaithful(s: Stmt, g: Graph, truth: Truth)
    requires s.If? && BuildStmt(s, g).Ok? && Started(g)
    ensures Faithful(BuildStmt(s, g).value, g.size, Exec(s, g.size, truth), truth)
    decreases s, 1
  {
    var g1 := AddNode(g, s);
    StmtGrows(s.cons, g1);
    if truth(g.size) {
      StmtIsFaithful(s.cons, g1, truth);
      TrueBranch(s, g, truth);
    } else if s.alt.Some? {
      var g2 := ElseGraph(s, g);
      StmtIsFaithful(s.alt.value, g2, truth);
      FalseBranch(s, g, truth);
    } else {
      assert [g.size] + [] == [g.size];
      assert Out(g.size, FalseEdge) == BuildStmt(s, g).value.outs[|BuildStmt(s, g).value.outs| - 1];
    }
  }

  /** The graph when the else branch is built. */
  function ElseGraph(s: Stmt, g: Graph): Graph
    requires s.If? && BuildStmt(s.cons, AddNode(g, s)).Ok?
  {
    var c := BuildStmt(s.cons, AddNode(g, s)).value;
    AddEdge(c.graph, g.size, c.root, TrueEdge)
  }

  /** What building the statement keeps of the branches. */
  lemma IfKeepsBranches(s: Stmt, g: Graph)
    requires s.If? && BuildStmt(s, g).Ok? && Started(g)
    ensures var p, c, g2 := BuildStmt(s, g).value, BuildStmt(s.cons, AddNode(g, s)).value, ElseGraph(s, g);
            && p.root == g.size && c.graph.size <= p.graph.size && g2.edges <= p.graph.edges && c.outs <= p.outs
            && Edge(g.size, TrueEdge, c.root) in p.graph.edges
  {
    var p, c, g2 := BuildStmt(s, g).value, BuildStmt(s.cons, AddNode(g, s)).value, ElseGraph(s, g);
    StmtGrows(s.cons, AddNode(g, s));
    if s.alt.Some? {
      StmtGrows(s.alt.value, g2);
      var made := StmtIsTidy(s.alt.value, g2);
    }
    assert Edge(g.size, TrueEdge, c.root) == g2.edges[|c.graph.edges|];
  }

  lemma TrueBranch(s: Stmt, g: Graph, truth: Truth)
    requires s.If? && BuildStmt(s, g).Ok? && Started(g) && truth(g.size)
    requires Faithful(BuildStmt(s.cons, AddNode(g, s)).value, g.size + 1, Exec(s.cons, g.size + 1, truth), truth)
    ensures Faithful(BuildStmt(s, g).value, g.size, Exec(s, g.size, truth), truth)
  {
    IfKeepsBranches(s, g);
    var p, c, g2 := BuildStmt(s, g).value, BuildStmt(s.cons, AddNode(g, s)).value, ElseGraph(s, g);
    assert forall e | e in c.graph.edges :: e in g2.edges;
    TestThenBranch(p, g.size, g.size + 1, c, Exec(s.cons, g.size + 1, truth), truth, TrueEdge);
  }

  lemma FalseBranch(s: Stmt, g: Graph, truth: Truth)
    requires s.If? && s.alt.Some? && BuildStmt(s, g).Ok? && Started(g) && !truth(g.size)
    requires BuildStmt(s.cons, AddNode(g, s)).value.graph.size == g.size + 1 + Size(s.cons)
    requires var g2 := ElseGraph(s, g);
             Faithful(BuildStmt(s.alt.value, g2).value, g2.size, Exec(s.alt.value, g2.size, truth), truth)
    ensures Faithful(BuildStmt(s, g).value, g.size, Exec(s, g.size, truth), truth)
  {
    var p, g2 := BuildStmt(s, g).value, ElseGraph(s, g);
    var b := BuildStmt(s.alt.value, g2).value;
    assert Edge(g.size, FalseEdge, b.root) == p.graph.edges[|b.graph.edges|];
    TestThenBranch(p, g.size, g2.size, b, Exec(s.alt.value, g2.size, truth), truth, FalseEdge);
  }

  lemma TestThenBranch(p: Piece, n: nat, n': nat, q: Piece, run: Run, truth: Truth, branch: Branch)
    requires n < n' && Faithful(q, n', run, truth) && p.root == n && q.graph.size <= p.graph.size
    requires (forall e | e in q.graph.edges :: e in p.graph.edges) && (forall o | o in q.outs :: o in p.outs)
    requires Edge(n, branch, q.root) in p.graph.edges && Taken(Edge(n, branch, q.root), truth)
    ensures Faithful(p, n, Then(Run([n], false, true), run), truth)
  {
    var edges := p.graph.edges;
    assert Goes(edges, truth, n, q.root);
    if run.clean {
      PathGrows(q.graph.edges, edges, truth, run.trace);
      PathConcat(edges, truth, [n], run.trace);
    } else {
      StraysGrows(q.graph.edges, edges, truth, q.root, run.trace, [], q.graph.size, p.graph.size);
      assert run.trace + [] == run.trace;
      StraysLater(edges, truth, [n], q.root, run.trace, p.graph.size);
    }
  }

  lemma {:induction false} RestIsFaithful(stmts: seq<Stmt>, p: Piece, n: nat, run: Run, truth: Truth)
    requires BuildRest(stmts, p).Ok? && Started(p.graph) && Faithful(p, n, run, truth)
    ensures Faithful(BuildRest(stmts, p).value, n, Then(run, ExecAll(stmts, p.graph.size, truth)), truth)
    decreases stmts, 0
  {
    if stmts == [] {
      assert run.trace + [] == run.trace;
    } else {
      var next, run' := NextIsFaithful(stmts[0], p, n, run, truth);
      RestIsFaithful(stmts[1..], next, n, Then(run, run'), truth);
      ThenIsAssociative(run, run', ExecAll(stmts[1..], next.graph.size, truth));
    }
  }

  lemma {:induction false} NextIsFaithful(s: Stmt, p: Piece, n: nat, run: Run, truth: Truth) returns (next: Piece,
                                          run': Run)
    requires BuildStmt(s, p.graph).Ok? && Started(p.graph) && Faithful(p, n, run, truth)
    ensures next == Chain(p, BuildStmt(s, p.graph).value) && run' == Exec(s, p.graph.size, truth)
    ensures Faithful(next, n, Then(run, run'), truth)
    ensures Started(next.graph) && next.graph.size == p.graph.size + Size(s)
    decreases s, 3
  {
    var q := BuildStmt(s, p.graph).value;
    next, run' := Chain(p, q), Exec(s, p.graph.size, truth);
    StmtGrows(s, p.graph);
    StmtIsFaithful(s, p.graph, truth);
    var made := StmtIsTidy(s, p.graph);
    ChainIsFaithful(p, n, run, q, run', truth);
    MergedSources(q.graph, p.outs, q.root);
  }

  lemma ThenIsAssociative(a: Run, b: Run, c: Run)
    ensures Then(Then(a, b), c) == Then(a, Then(b, c))
  {
    assert (a.trace + b.trace) + c.trace == a.trace + (b.trace + c.trace);
  }

  // ---------- the whole graph ----------

  /** From each node the walk has at most one way to go. */
  lemma OneWay(edges: seq<Edge>, truth: Truth, a: nat, b: nat, c: nat)
    requires Deterministic(Sources(edges)) && Goes(edges, truth, a, b) && Goes(edges, truth, a, c)
    ensures b == c
  {
    var e :| e in edges && e.source == a && e.target == b && Taken(e, truth);
    var e' :| e' in edges && e'.source == a && e'.target == c && Taken(e', truth);
    var i :| 0 <= i < |edges| && edges[i] == e;
    var j :| 0 <= j < |edges| && edges[j] == e';
    assert !Clash(Sources(edges)[if i < j then i else j], Sources(edges)[if i < j then j else i]) || i == j;
  }

  lemma BuiltEdges(stmts: seq<Stmt>)
    requires Build(stmts).Ok?
    ensures Deterministic(Sources(Build(stmts).value.edges))
    ensures forall o | o in Sources(Build(stmts).value.edges) :: o.source != END
  {
    var p := BuildBlock(stmts, NEW_GRAPH).value;
    assert BuildStmt(Block(stmts), NEW_GRAPH) == Ok(p);
    var made := StmtIsTidy(Block(stmts), NEW_GRAPH);
    var start := Out(START, FlowEdge);
    var g := AddEdge(p.graph, START, p.root, FlowEdge);
    MergedSources(g, p.outs, END);
    assert Sources(p.graph.edges) == made;
    assert Sources(g.edges) == made + [start];
    DeterministicConcat(made, [start]);
    DeterministicConcat(made + [start], p.outs);
  }

  /** Walking the graph is deterministic: under given outcomes of the tests there is at most one
      way from Start to End. */
  lemma WalkIsUnique(stmts: seq<Stmt>, truth: Truth, trace: seq<nat>, trace': seq<nat>)
    requires Build(stmts).Ok?
    requires IsWalk(Build(stmts).value, truth, trace) && IsWalk(Build(stmts).value, truth, trace')
    ensures trace == trace'
  {
    BuiltEdges(stmts);
    var w, w' := [START] + trace + [END], [START] + trace' + [END];
    PathsAgree(Build(stmts).value.edges, truth, w, w');
    assert trace == w[1..|w| - 1] && trace' == w'[1..|w'| - 1];
  }

  lemma EndIsFinal(edges: seq<Edge>, truth: Truth, b: nat)
    requires forall o | o in Sources(edges) :: o.source != END
    ensures !Goes(edges, truth, END, b)
  {
    forall e | e in edges ensures e.source != END {
      var i :| 0 <= i < |edges| && edges[i] == e;
      assert Sources(edges)[i] in Sources(edges);
    }
  }

  lemma {:induction false} PathsAgree(edges: seq<Edge>, truth: Truth, w: seq<nat>, w': seq<nat>)
    requires Deterministic(Sources(edges)) && forall o | o in Sources(edges) :: o.source != END
    requires Path(edges, truth, w) && Path(edges, truth, w')
    requires w != [] && w' != [] && w[0] == w'[0] && w[|w| - 1] == END && w'[|w'| - 1] == END
    ensures w == w'
    decreases |w|
  {
    if w[0] == END {
      if |w| > 1 {
        EndIsFinal(edges, truth, w[1]);
      }
      if |w'| > 1 {
        EndIsFinal(edges, truth, w'[1]);
      }
    } else {
      assert Goes(edges, truth, w[0], w[1]) && Goes(edges, truth, w'[0], w'[1]);
      OneWay(edges, truth, w[0], w[1], w'[1]);
      PathTail(edges, truth, w);
      PathTail(edges, truth, w');
      PathsAgree(edges, truth, w[1..], w'[1..]);
      assert w == [w[0]] + w[1..] && w' == [w'[0]] + w'[1..];
    }
  }

  lemma PathTail(edges: seq<Edge>, truth: Truth, w: seq<nat>)
    requires w != [] && Path(edges, truth, w)
    ensures Path(edges, truth, w[1..])
  {
    forall i | 0 <= i < |w[1..]| - 1 ensures Goes(edges, truth, w[1..][i], w[1..][i + 1]) {
      assert Goes(edges, truth, w[i + 1], w[i + 2]);
    }
  }

  /** Walking the graph from Start visits exactly the statements that the program runs, if and
      only if the program runs into no empty block. */
  lemma WalkIsExecutionIff(stmts: seq<Stmt>, truth: Truth)
    requires Build(stmts).Ok?
    ensures IsWalk(Build(stmts).value, truth, ExecProgram(stmts, truth).trace) <==> ExecProgram(stmts, truth).clean
  {
    var p, run, g := BuildBlock(stmts, NEW_GRAPH).value, ExecProgram(stmts, truth), Build(stmts).value;
    assert BuildStmt(Block(stmts), NEW_GRAPH) == Ok(p);
    StmtIsFaithful(Block(stmts), NEW_GRAPH, truth);
    var g1 := AddEdge(p.graph, START, p.root, FlowEdge);
    MergedSources(g1, p.outs, END);
    assert Edge(START, FlowEdge, p.root) == g1.edges[|p.graph.edges|];
    assert forall e | e in p.graph.edges :: e in g1.edges;
    assert forall e | e in g1.edges :: e in g.edges;
    assert Edge(START, FlowEdge, p.root) in g.edges;
    assert Goes(g.edges, truth, START, p.root);
    if run.clean {
      CleanRunIsWalk(p, g, run, truth);
    } else {
      BuiltEdges(stmts);
      StrayIsNoWalk(p, g, run, truth);
    }
  }

  lemma CleanRunIsWalk(p: Piece, g: Graph, run: Run, truth: Truth)
    requires Faithful(p, 2, run, truth) && run.clean && (forall e | e in p.graph.edges :: e in g.edges)
    requires g == MergeOut(AddEdge(p.graph, START, p.root, FlowEdge), p.outs, END) &&
             Goes(g.edges, truth, START, p.root)
    ensures IsWalk(g, truth, run.trace)
  {
    var last := run.trace[|run.trace| - 1];
    if run.returned {
      PathGrows(p.graph.edges, g.edges, truth, [last, END]);
    } else {
      MergedEdges(AddEdge(p.graph, START, p.root, FlowEdge), p.outs, END, truth, last);
    }
    PathGrows(p.graph.edges, g.edges, truth, run.trace);
    PathConcat(g.edges, truth, [START], run.trace);
    PathConcat(g.edges, truth, [START] + run.trace, [END]);
  }

  lemma StrayIsNoWalk(p: Piece, g: Graph, run: Run, truth: Truth)
    requires Faithful(p, 2, run, truth) && !run.clean && (forall e | e in p.graph.edges :: e in g.edges)
    requires Deterministic(Sources(g.edges)) && Goes(g.edges, truth, START, p.root)
    ensures !IsWalk(g, truth, run.trace)
  {
    var k: nat, q: nat :| StraysAt(p.graph.edges, truth, p.root, run.trace, p.graph.size, k, q);
    var w := [START] + run.trace + [END];
    assert w[k + 1] == if k < |run.trace| then run.trace[k] else END;
    if k > 0 {
      PathGrows(p.graph.edges, g.edges, truth, [run.trace[k - 1], q]);
      assert Goes(g.edges, truth, run.trace[k - 1], q) by {
        assert Goes(p.graph.edges, truth, run.trace[k - 1], q);
      }
    }
    assert Goes(g.edges, truth, w[k], q);
    if Goes(g.edges, truth, w[k], w[k + 1]) {
      OneWay(g.edges, truth, w[k], q, w[k + 1]);
    }
    assert !Goes(g.edges, truth, w[k], w[k + 1]);
  }

  // ---------- which programs are affected ----------

  /** Whether a statement can complete without returning. */
  predicate CanComplete(s: Stmt)
    decreases s, 1
  {
    match s
    case Block(stmts) => CanCompleteAll(stmts)
    case If(_, cons, alt) => CanComplete(cons) || (alt.Some? ==> CanComplete(alt.value))
    case Return(_) => false
    case _ => true
  }

  predicate CanCompleteAll(stmts: seq<Stmt>)
    decreases stmts, 0
  {
    stmts == [] || (CanComplete(stmts[0]) && CanCompleteAll(stmts[1..]))
  }

  /** Whether an empty block can be reached: one that no return always precedes. */
  predicate MeetsEmpty(s: Stmt)
    decreases s, 1
  {
    match s
    case Block(stmts) => stmts == [] || MeetsEmptyAll(stmts)
    case If(_, cons, alt) => MeetsEmpty(cons) || (alt.Some? && MeetsEmpty(alt.value))
    case _ => false
  }

  predicate MeetsEmptyAll(stmts: seq<Stmt>)
    decreases stmts, 0
  {
    stmts != [] && (MeetsEmpty(stmts[0]) || (CanComplete(stmts[0]) && MeetsEmptyAll(stmts[1..])))
  }

  function Before(n: nat, t: Truth, t': Truth): Truth {
    (i: nat) => if i < n then t(i) else t'(i)
  }

  /** A run looks at the tests of its own nodes only. */
  lemma {:induction false} ExecReads(s: Stmt, n: nat, t: Truth, t': Truth)
    requires forall i :: n <= i < n + Size(s) ==> t(i) == t'(i)
    ensures Exec(s, n, t) == Exec(s, n, t')
    decreases s, 1
  {
    match s
    case Block(stmts) => ExecAllReads(stmts, n, t, t');
    case If(_, cons, alt) =>
      ExecReads(cons, n + 1, t, t');
      if alt.Some? {
        ExecReads(alt.value, n + 1 + Size(cons), t, t');
      }
    case _ =>
  }

  lemma {:induction false} ExecAllReads(stmts: seq<Stmt>, n: nat, t: Truth, t': Truth)
    requires forall i :: n <= i < n + SizeAll(stmts) ==> t(i) == t'(i)
    ensures ExecAll(stmts, n, t) == ExecAll(stmts, n, t')
    decreases stmts, 0
  {
    if stmts != [] {
      ExecReads(stmts[0], n, t, t');
      ExecAllReads(stmts[1..], n + Size(stmts[0]), t, t');
    }
  }

  lemma {:induction false} OnlyThen(s: Stmt, n: nat, t: Truth)
    ensures CanComplete(s) || Exec(s, n, t).returned
    ensures MeetsEmpty(s) || Exec(s, n, t).clean
    decreases s, 1
  {
    match s
    case Block(stmts) => OnlyThenAll(stmts, n, t);
    case If(_, cons, alt) =>
      OnlyThen(cons, n + 1, t);
      if alt.Some? {
        OnlyThen(alt.value, n + 1 + Size(cons), t);
      }
    case _ =>
  }

  lemma {:induction false} OnlyThenAll(stmts: seq<Stmt>, n: nat, t: Truth)
    ensures CanCompleteAll(stmts) || ExecAll(stmts, n, t).returned
    ensures MeetsEmptyAll(stmts) || ExecAll(stmts, n, t).clean
    decreases stmts, 0
  {
    if stmts != [] {
      OnlyThen(stmts[0], n, t);
      OnlyThenAll(stmts[1..], n + Size(stmts[0]), t);
    }
  }

  /** Outcomes under which the statement completes. */
  lemma {:induction false} Completes(s: Stmt, n: nat) returns (t: Truth)
    requires CanComplete(s)
    ensures !Exec(s, n, t).returned
    decreases s, 1
  {
    match s
    case Block(stmts) =>
      t := CompletesAll(stmts, n);
    case If(_, cons, alt) =>
      if CanComplete(cons) {
        var t' := Completes(cons, n + 1);
        t := Before(n + 1, _ => true, t');
        ExecReads(cons, n + 1, t, t');
      } else if alt.Some? {
        var t' := Completes(alt.value, n + 1 + Size(cons));
        t := Before(n + 1, _ => false, t');
        ExecReads(alt.value, n + 1 + Size(cons), t, t');
      } else {
        t := _ => false;
      }
    case _ =>
      t := _ => true;
  }

  lemma {:induction false} CompletesAll(stmts: seq<Stmt>, n: nat) returns (t: Truth)
    requires CanCompleteAll(stmts)
    ensures !ExecAll(stmts, n, t).returned
    decreases stmts, 0
  {
    if stmts == [] {
      t := _ => true;
    } else {
      var mid := n + Size(stmts[0]);
      var t0 := Completes(stmts[0], n);
      var t1 := CompletesAll(stmts[1..], mid);
      t := Before(mid, t0, t1);
      ExecReads(stmts[0], n, t, t0);
      ExecAllReads(stmts[1..], mid, t, t1);
    }
  }

  /** Outcomes under which the statement runs into an empty block. */
  lemma {:induction false} Meets(s: Stmt, n: nat) returns (t: Truth)
    requires MeetsEmpty(s)
    ensures !Exec(s, n, t).clean
    decreases s, 1
  {
    match s
    case Block(stmts) =>
      if stmts == [] {
        t := _ => true;
      } else {
        t := MeetsAll(stmts, n);
      }
    case If(_, cons, alt) =>
      if MeetsEmpty(cons) {
        var t' := Meets(cons, n + 1);
        t := Before(n + 1, _ => true, t');
        ExecReads(cons, n + 1, t, t');
      } else {
        var t' := Meets(alt.value, n + 1 + Size(cons));
        t := Before(n + 1, _ => false, t');
        ExecReads(alt.value, n + 1 + Size(cons), t, t');
      }
  }

  lemma {:induction false} MeetsAll(stmts: seq<Stmt>, n: nat) returns (t: Truth)
    requires MeetsEmptyAll(stmts)
    ensures !ExecAll(stmts, n, t).clean
    decreases stmts, 0
  {
    var mid := n + Size(stmts[0]);
    if MeetsEmpty(stmts[0]) {
      t := Meets(stmts[0], n);
    } else {
      var t0 := Completes(stmts[0], n);
      var t1 := MeetsAll(stmts[1..], mid);
      t := Before(mid, t0, t1);
      ExecReads(stmts[0], n, t, t0);
      ExecAllReads(stmts[1..], mid, t, t1);
    }
  }

  /** The graph is right for all outcomes of the tests exactly when no empty block is reachable,
      in particular for all programs without empty blocks. */
  lemma GraphIsRightIff(stmts: seq<Stmt>)
    requires Build(stmts).Ok?
    ensures (forall truth: Truth :: IsWalk(Build(stmts).value, truth, ExecProgram(stmts, truth).trace)) <==>
            !MeetsEmpty(Block(stmts))
  {
    if MeetsEmpty(Block(stmts)) {
      var truth := Meets(Block(stmts), 2);
      WalkIsExecutionIff(stmts, truth);
    } else {
      forall truth: Truth ensures IsWalk(Build(stmts).value, truth, ExecProgram(stmts, truth).trace) {
        OnlyThen(Block(stmts), 2, truth);
        WalkIsExecutionIff(stmts, truth);
      }
    }
  }

  // ---------- forward edges ----------

  predicate NoEmptyBlock(s: Stmt)
    decreases s, 1
  {
    match s
    case Block(stmts) => stmts != [] && NoEmptyBlocks(stmts)
    case If(_, cons, alt) => NoEmptyBlock(cons) && (alt.Some? ==> NoEmptyBlock(alt.value))
    case _ => true
  }

  predicate NoEmptyBlocks(stmts: seq<Stmt>)
    decreases stmts, 0
  {
    stmts == [] || (NoEmptyBlock(stmts[0]) && NoEmptyBlocks(stmts[1..]))
  }

  predicate Forward(e: Edge) { e.source < e.target || e.target == END }

  ghost predicate AllForward(g: Graph) { forall e | e in g.edges :: Forward(e) }

  lemma {:induction false} MergesForward(g: Graph, outs: seq<Out>, target: nat)
    requires AllForward(g) && (target == END || forall o | o in outs :: o.source < target)
    ensures AllForward(MergeOut(g, outs, target))
    decreases |outs|
  {
    if outs != [] {
      assert outs[0] in outs;
      MergesForward(AddEdge(g, outs[0].source, target, outs[0].branch), outs[1..], target);
    }
  }

  lemma {:induction false} StmtGoesForward(s: Stmt, g: Graph)
    requires BuildStmt(s, g).Ok? && NoEmptyBlock(s) && AllForward(g)
    ensures var p := BuildStmt(s, g).value;
            AllForward(p.graph) && p.root == g.size && forall o | o in p.outs :: g.size <= o.source < p.graph.size
    decreases s, 2
  {
    var made := StmtIsTidy(s, g);
    match s
    case Block(stmts) =>
      StmtGoesForward(stmts[0], g);
      RestGoesForward(stmts[1..], BuildStmt(stmts[0], g).value);
    case If(_, cons, alt) =>
      var g1 := AddNode(g, s);
      var c := BuildStmt(cons, g1).value;
      StmtGoesForward(cons, g1);
      if alt.Some? {
        var m := StmtIsTidy(cons, g1);
        StmtGoesForward(alt.value, AddEdge(c.graph, g.size, c.root, TrueEdge));
      }
    case _ =>
  }

  lemma {:induction false} RestGoesForward(stmts: seq<Stmt>, p: Piece)
    requires BuildRest(stmts, p).Ok? && NoEmptyBlocks(stmts) && AllForward(p.graph)
    requires forall o | o in p.outs :: o.source < p.graph.size
    ensures var r := BuildRest(stmts, p).value; AllForward(r.graph) && r.root == p.root
    decreases stmts, 0
  {
    if stmts != [] {
      var q := BuildStmt(stmts[0], p.graph).value;
      StmtGoesForward(stmts[0], p.graph);
      MergedSources(q.graph, p.outs, q.root);
      MergesForward(q.graph, p.outs, q.root);
      RestGoesForward(stmts[1..], Chain(p, q));
    }
  }

  /** Without empty blocks every edge leads to a later node or to End: there is no cycle. */
  lemma EdgesGoForward(stmts: seq<Stmt>)
    requires Build(stmts).Ok? && NoEmptyBlock(Block(stmts))
    ensures forall e | e in Build(stmts).value.edges :: e.source < e.target || e.target == END
  {
    var p := BuildBlock(stmts, NEW_GRAPH).value;
    assert BuildStmt(Block(stmts), NEW_GRAPH) == Ok(p);
    StmtGoesForward(Block(stmts), NEW_GRAPH);
    MergesForward(AddEdge(p.graph, START, p.root, FlowEdge), p.outs, END);
  }

  // ---------- nodes and statements ----------

  /** Building fails exactly on a statement of another kind, reachable or not. */
  predicate Supported(s: Stmt)
    decreases s, 1
  {
    match s
    case Block(stmts) => SupportedAll(stmts)
    case If(_, cons, alt) => Supported(cons) && (alt.Some? ==> Supported(alt.value))
    case Unsupported => false
    case _ => true
  }

  predicate SupportedAll(stmts: seq<Stmt>)
    decreases stmts, 0
  {
    stmts == [] || (Supported(stmts[0]) && SupportedAll(stmts[1..]))
  }

  lemma {:induction false} StmtBuildsIff(s: Stmt, g: Graph)
    ensures BuildStmt(s, g).Ok? <==> Supported(s)
    decreases s, 2
  {
    match s
    case Block(stmts) =>
      if stmts != [] {
        StmtBuildsIff(stmts[0], g);
        if BuildStmt(stmts[0], g).Ok? {
          RestBuildsIff(stmts[1..], BuildStmt(stmts[0], g).value);
        }
      }
    case If(_, cons, alt) =>
      var g1 := AddNode(g, s);
      StmtBuildsIff(cons, g1);
      if alt.Some? && BuildStmt(cons, g1).Ok? {
        var c := BuildStmt(cons, g1).value;
        StmtBuildsIff(alt.value, AddEdge(c.graph, g.size, c.root, TrueEdge));
      }
    case _ =>
  }

  lemma {:induction false} RestBuildsIff(stmts: seq<Stmt>, p: Piece)
    ensures BuildRest(stmts, p).Ok? <==> SupportedAll(stmts)
    decreases stmts, 0
  {
    if stmts != [] {
      StmtBuildsIff(stmts[0], p.graph);
      if BuildStmt(stmts[0], p.graph).Ok? {
        RestBuildsIff(stmts[1..], Chain(p, BuildStmt(stmts[0], p.graph).value));
      }
    }
  }

  lemma {:induction false} StmtNodes(s: Stmt, g: Graph)
    requires Started(g) && BuildStmt(s, g).Ok?
    ensures BuildStmt(s, g).value.graph.stmtMap == g.stmtMap + PreorderOf(s, g.size)
    decreases s, 2
  {
    match s
    case Block(stmts) =>
      if stmts != [] {
        StmtNodes(stmts[0], g);
        StmtGrows(stmts[0], g);
        RestNodes(stmts[1..], BuildStmt(stmts[0], g).value);
        SumOfParts(g.stmtMap, PreorderOf(stmts[0], g.size), Preorder(stmts[1..], g.size + Size(stmts[0])));
      }
    case If(_, _, _) => IfNodes(s, g);
    case _ =>
  }

  lemma {:induction false} IfNodes(s: Stmt, g: Graph)
    requires s.If? && Started(g) && BuildStmt(s, g).Ok?
    ensures BuildStmt(s, g).value.graph.stmtMap == g.stmtMap + PreorderOf(s, g.size)
    decreases s, 1
  {
    var g1, n := AddNode(g, s), g.size;
    StmtNodes(s.cons, g1);
    StmtGrows(s.cons, g1);
    if s.alt.Some? {
      var c := BuildStmt(s.cons, g1).value;
      StmtNodes(s.alt.value, AddEdge(c.graph, n, c.root, TrueEdge));
      NodesOfParts(g.stmtMap, n, s, PreorderOf(s.cons, n + 1), PreorderOf(s.alt.value, n + 1 + Size(s.cons)));
    } else {
      NodesOfParts(g.stmtMap, n, s, PreorderOf(s.cons, n + 1), map[]);
    }
  }

  lemma NodesOfParts(m: map<nat, Stmt>, n: nat, s: Stmt, cons: map<nat, Stmt>, alt: map<nat, Stmt>)
    ensures m[n := s] + cons + alt == m + (map[n := s] + cons + alt)
    ensures m[n := s] + cons == m + (map[n := s] + cons + map[])
  {}

  lemma SumOfParts(a: map<nat, Stmt>, b: map<nat, Stmt>, c: map<nat, Stmt>)
    ensures a + b + c == a + (b + c)
  {}

  lemma {:induction false} RestNodes(stmts: seq<Stmt>, p: Piece)
    requires Started(p.graph) && BuildRest(stmts, p).Ok?
    ensures BuildRest(stmts, p).value.graph.stmtMap == p.graph.stmtMap + Preorder(stmts, p.graph.size)
    decreases stmts, 0
  {
    if stmts != [] {
      var q := BuildStmt(stmts[0], p.graph).value;
      StmtNodes(stmts[0], p.graph);
      StmtGrows(stmts[0], p.graph);
      MergedSources(q.graph, p.outs, q.root);
      RestNodes(stmts[1..], Chain(p, q));
      SumOfParts(p.graph.stmtMap, PreorderOf(stmts[0], p.graph.size), Preorder(stmts[1..], q.graph.size));
    }
  }

  /** A node stands for the statement at its place in the program text. */
  lemma NodesAreStatements(stmts: seq<Stmt>)
    ensures Build(stmts).Ok? <==> SupportedAll(stmts)
    ensures Build(stmts).Ok? ==> Build(stmts).value.stmtMap == Preorder(stmts, 2)
  {
    StmtBuildsIff(Block(stmts), NEW_GRAPH);
    if Build(stmts).Ok? {
      StmtNodes(Block(stmts), NEW_GRAPH);
      var p := BuildBlock(stmts, NEW_GRAPH).value;
      MergedSources(AddEdge(p.graph, START, p.root, FlowEdge), p.outs, END);
    }
  }
}
