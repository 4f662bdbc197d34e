/** Lowering a logical plan to a physical one keeps the shape of the plan. */
module Lowering {
  import opened Options
  import opened Fields
  import opened Ast
  import opened GraphTheory
  import opened PlanTrees
  import opened Graphs
  import opened Plans

  /** One operator; a join without an equality is a panic (the first one is taken unseen). */
  function LowerOp(op: LogicalOp): Outcome<PhysicalOp> {
    match op
    case Scan(c, f, p) => Ok(PScan(c, f, p))
    case Project(ids) => Ok(PProject(ids))
    case Filter(p) => Ok(PFilter(p))
    case Aggregate(fs, gs, _) => Ok(PHashAggregate(fs, gs))
    case Join(eqs, _) =>
      if eqs == [] then Panic
      else if eqs[0].0.Ident? && eqs[0].1.Ident? then Ok(PHashJoin(eqs[0].0, eqs[0].1))
      else Ok(PNestedLoopJoin(eqs[0].0, eqs[0].1))
    case CrossProduct(_) => Ok(PCrossProduct)
    case Sort(keys) => Ok(PSort(keys))
  }

  predicate Lowerable(op: LogicalOp) { op.Join? ==> op.eqs != [] }

  predicate AllLowerable(ops: seq<LogicalOp>) { forall i :: 0 <= i < |ops| ==> Lowerable(ops[i]) }

  /** The physical operators are the lowered logical ones, index by index. */
  predicate LoweredTo(ops: seq<LogicalOp>, phys: seq<PhysicalOp>) {
    |phys| == |ops| && forall i :: 0 <= i < |ops| ==> LowerOp(ops[i]) == Ok(phys[i])
  }

  /** The containers the scans read, in node order. */
  function BaseTables(ops: seq<LogicalOp>): seq<ContainerId> {
    if ops == [] then []
    else
      var last := ops[|ops| - 1];
      BaseTables(ops[..|ops| - 1]) + if last.Scan? then [last.cid] else []
  }

  /** Every scan counts once, in order, and nothing else does. */
  lemma {:induction false} BaseTablesConcat(a: seq<LogicalOp>, b: seq<LogicalOp>)
    ensures BaseTables(a + b) == BaseTables(a) + BaseTables(b)
    decreases |b|
  {
    if b == [] {
      assert a + b == a;
    } else {
      var n := |b| - 1;
      BaseTablesConcat(a, b[..n]);
      assert (a + b)[..|a| + n] == a + b[..n];
    }
  }

  lemma BaseTableOf(op: LogicalOp)
    ensures BaseTables([op]) == if op.Scan? then [op.cid] else []
  {
    assert [op][..0] == [];
  }

  method LowerNodes(nodes: seq<Node<LogicalOp>>, out: Plan<PhysicalOp>)
    returns (ok: bool, tables: seq<ContainerId>)
    requires out.Valid() && out.Ops() == [] && out.Arcs() == []
    modifies out, out.dataflow
    ensures out.Valid() && (ok <==> AllLowerable(DataOf(nodes)))
    ensures ok ==> LoweredTo(DataOf(nodes), out.Ops()) && out.Arcs() == [] && tables == BaseTables(DataOf(nodes))
    ensures ok && nodes != [] ==> out.root == Some(0)
  {
    ok, tables := true, [];
    ghost var ops := DataOf(nodes);
    var i := 0;
    while i < |nodes|
      invariant 0 <= i <= |nodes| && out.Valid() && out.Arcs() == []
      invariant AllLowerable(ops[..i])
      invariant LoweredTo(ops[..i], out.Ops()) && tables == BaseTables(ops[..i])
      invariant i > 0 ==> out.root == Some(0)
    {
      var op := nodes[i].data;
      assert ops[..i + 1][..i] == ops[..i] && ops[..i + 1][i] == op;
      if op.Scan? {
        tables := tables + [op.cid];
      }
      var lowered := LowerOp(op);
      if !lowered.Ok? {
        ok := false;
        assert !Lowerable(ops[i]);
        return;
      }
      var n := out.AddNode(lowered.value);
      i := i + 1;
    }
    WholePrefix(ops);
  }

  method LowerEdges(edges: seq<Edge>, out: Plan<PhysicalOp>)
    requires out.Valid() && out.Arcs() == [] && ArcsWithin(|out.Ops()|, ArcsOf(edges)) && NoLoops(ArcsOf(edges))
    requires out.Ops() != [] ==> out.root == Some(0)
    modifies out, out.dataflow
    ensures out.Valid() && out.Ops() == old(out.Ops()) && out.Arcs() == ArcsOf(edges) && out.Tracked()
  {
    ghost var arcs := ArcsOf(edges);
    var i := 0;
    while i < |edges|
      invariant 0 <= i <= |edges| && out.Valid() && out.Tracked()
      invariant out.Ops() == old(out.Ops()) && out.Arcs() == arcs[..i]
    {
      NextArc(edges, i);
      out.AddEdge(edges[i].source, edges[i].target);
      i := i + 1;
    }
    WholePrefix(arcs);
  }

  lemma NextArc(edges: seq<Edge>, i: nat)
    requires i < |edges|
    ensures ArcsOf(edges)[..i + 1] == ArcsOf(edges)[..i] + [Arc(edges[i].source, edges[i].target)]
    ensures ArcsOf(edges)[i] == Arc(edges[i].source, edges[i].target)
  {
  }

  /** All nodes first, then all edges: same indices, same ordered children at every node; the root is
      the same exactly when the logical plan's root is the one its edges lead to. */
  method LowerPlan(lp: Plan<LogicalOp>) returns (pp: Outcome<Plan<PhysicalOp>>, tables: seq<ContainerId>)
    requires lp.Valid()
    ensures pp.Ok? <==> AllLowerable(lp.Ops())
    ensures pp.Ok? ==>
              && fresh(pp.value) && pp.value.Valid() && LoweredTo(lp.Ops(), pp.value.Ops())
              && pp.value.Arcs() == lp.Arcs() && tables == BaseTables(lp.Ops()) && pp.value.Tracked()
    ensures pp.Ok? ==> (pp.value.root == lp.root <==> lp.Tracked())
  {
    var out := new Plan<PhysicalOp>();
    var ok;
    ok, tables := LowerNodes(lp.dataflow.nodes, out);
    if !ok {
      return Panic, tables;
    }
    LowerEdges(lp.dataflow.edges, out);
    return Ok(out), tables;
  }

  // ----- what that means for the tree -----

  function LowerTree(t: Tree<LogicalOp>): Tree<PhysicalOp>
    requires TreeLowerable(t)
    decreases t
  {
    Tree(LowerOp(t.op).value, seq(|t.children|, i requires 0 <= i < |t.children| => LowerTree(t.children[i])))
  }

  predicate TreeLowerable(t: Tree<LogicalOp>)
    decreases t
  {
    Lowerable(t.op) && forall i :: 0 <= i < |t.children| ==> TreeLowerable(t.children[i])
  }

  /** Whatever tree the logical plan denotes at a node, the physical plan denotes its lowering there. */
  lemma {:induction false} LoweringKeepsTree(
      ops: seq<LogicalOp>, phys: seq<PhysicalOp>, arcs: seq<Arc>, n: nat, t: Tree<LogicalOp>)
    requires LoweredTo(ops, phys) && Denotes(ops, arcs, n, t)
    ensures TreeLowerable(t) && Denotes(phys, arcs, n, LowerTree(t))
    decreases t
  {
    var ts := Targets(arcs, n);
    forall i | 0 <= i < |ts|
      ensures TreeLowerable(t.children[i]) && Denotes(phys, arcs, ts[i], LowerTree(t.children[i]))
    {
      LoweringKeepsTree(ops, phys, arcs, ts[i], t.children[i]);
    }
  }

  // ----- plans whose root lowering does not find -----

  /** After a join over two nodes of a tracked plan, lowering finds the root exactly when one of the two was it. */
  method LowerJoined(lp: Plan<LogicalOp>, op: LogicalOp, left: nat, right: nat)
    returns (pp: Outcome<Plan<PhysicalOp>>, tables: seq<ContainerId>)
    requires lp.Valid() && lp.Tracked() && left < |lp.Ops()| && right < |lp.Ops()|
    modifies lp, lp.dataflow
    ensures pp.Ok? <==> AllLowerable(old(lp.Ops()) + [op])
    ensures pp.Ok? ==> (pp.value.root == lp.root <==> old(lp.root.value) in {left, right})
  {
    var n := lp.AddBinary(op, left, right);
    pp, tables := LowerPlan(lp);
  }

  /** After a filter, projection or aggregate, exactly when no child was named or one that was not the root. */
  method LowerOver(lp: Plan<LogicalOp>, op: LogicalOp, child: Option<nat>)
    returns (pp: Outcome<Plan<PhysicalOp>>, tables: seq<ContainerId>)
    requires lp.Valid() && lp.Tracked() && lp.root.Some? && (child.Some? ==> child.value < |lp.Ops()|)
    modifies lp, lp.dataflow
    ensures pp.Ok? <==> AllLowerable(old(lp.Ops()) + [op])
    ensures pp.Ok? ==> (pp.value.root == lp.root <==> child.None? || old(lp.root) != child)
  {
    var n := lp.AddUnary(op, child);
    pp, tables := LowerPlan(lp);
  }

  /** Three scans, and a join of the last two: the logical root is the join, the physical root the first scan. */
  method JoinAwayFromRoot(x: ContainerId, y: ContainerId, z: ContainerId, op: LogicalOp)
    returns (lp: Plan<LogicalOp>, pp: Outcome<Plan<PhysicalOp>>)
    requires op.Join? && op.eqs != []
    ensures lp.Valid() && lp.Ops() == [Scan(x, None, None), Scan(y, None, None), Scan(z, None, None), op]
    ensures lp.root == Some(3) && pp.Ok? && pp.value.root == Some(0)
  {
    lp := new Plan<LogicalOp>();
    var a := lp.AddNode(Scan(x, None, None));
    var b := lp.AddNode(Scan(y, None, None));
    var c := lp.AddNode(Scan(z, None, None));
    var n := lp.AddBinary(op, b, c);
    RootAfterTwo([], n, b, c);
    var tables;
    pp, tables := LowerPlan(lp);
  }
}
