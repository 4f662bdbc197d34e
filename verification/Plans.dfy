/** Logical and physical plans: operator graphs with a tracked root, merging two
    plans under a new operator, and lowering a logical plan to a physical one. */
module Plans {
  import opened Options
  import opened Fields
  import opened Ast
  import opened GraphTheory
  import opened PlanTrees
  import opened Graphs

  type ContainerId = nat

  datatype LogicalOp =
    | Scan(cid: ContainerId, filter: Option<Expr>, projection: Option<seq<Expr>>)
    | Project(identifiers: seq<Expr>)
    | Filter(predicate_: Expr)
    | Aggregate(fields: seq<Expr>, groupBy: seq<Expr>, having: Option<Expr>)
    | Join(eqs: seq<(Expr, Expr)>, jfilter: Option<Expr>)
    | CrossProduct(cfilter: Option<Expr>)
    | Sort(keys: seq<(Expr, bool)>)

  datatype PhysicalOp =
    | PScan(cid: ContainerId, filter: Option<Expr>, projection: Option<seq<Expr>>)
    | PProject(identifiers: seq<Expr>)
    | PHashAggregate(fields: seq<Expr>, groupBy: seq<Expr>)
    | PCrossProduct
    | PNestedLoopJoin(left: Expr, right: Expr)
    | PHashJoin(left: Expr, right: Expr)
    | PFilter(predicate_: Expr)
    | PSort(keys: seq<(Expr, bool)>)

  /** A plan: an operator graph and its root.  Logical and physical plans keep both in the same way. */
  class Plan<Op> {
    const dataflow: CrustyGraph<Op>
    var root: Option<nat>

    ghost predicate Valid()
      reads this, dataflow
    {
      && dataflow.Valid() && NoLoops(Arcs())
      && (root.None? <==> Ops() == [])
      && (root.Some? ==> root.value < |Ops()|)
    }

    ghost function Ops(): seq<Op>
      reads this, dataflow
    {
      dataflow.Data()
    }

    ghost function Arcs(): seq<Arc>
      reads this, dataflow
    {
      dataflow.Arcs()
    }

    /** The root is what replaying the edges from the first node gives. */
    ghost predicate Tracked()
      reads this, dataflow
    {
      Ops() != [] ==> root == Some(RootAfter(Arcs(), 0))
    }

    /** The plan, read from its root, is the tree `t`. */
    ghost predicate Is(t: Tree<Op>)
      reads this, dataflow
    {
      Valid() && root.Some? && Denotes(Ops(), Arcs(), root.value, t)
    }

    constructor ()
      ensures Valid() && Tracked() && fresh(dataflow)
      ensures Ops() == [] && Arcs() == []
    {
      dataflow := new CrustyGraph<Op>();
      root := None;
    }

    method AddNode(op: Op) returns (index: nat)
      requires Valid()
      modifies this, dataflow
      ensures Valid() && (old(Tracked()) ==> Tracked())
      ensures index == old(|Ops()|) && Ops() == old(Ops()) + [op] && Arcs() == old(Arcs())
      ensures root == if old(root).None? then Some(index) else old(root)
    {
      index := dataflow.AddNode(op);
      if root.None? {
        root := Some(index);
        NoArcs(Arcs());
      }
    }

    /** An edge into the root makes its source the new root. */
    method AddEdge(source: nat, target: nat)
      requires Valid() && source != target && source < |Ops()| && target < |Ops()|
      modifies this, dataflow
      ensures Valid() && (old(Tracked()) ==> Tracked())
      ensures Ops() == old(Ops()) && Arcs() == old(Arcs()) + [Arc(source, target)]
      ensures root == if old(root) == Some(target) then Some(source) else old(root)
    {
      RootAfterSnoc(Arcs(), Arc(source, target), 0);
      if root == Some(target) {
        root := Some(source);
      }
      dataflow.AddEdge(source, target);
    }

    /** Puts `op` over the plan, as the optimizer rules do for one-child operators. */
    method AddOver(op: Op, ghost t: Tree<Op>)
      requires Is(t)
      modifies this, dataflow
      ensures Is(Tree(op, [t])) && (old(Tracked()) ==> Tracked())
    {
      DenotesUnary(Ops(), Arcs(), root.value, t, op);
      var n := AddNode(op);
      AddEdge(n, root.value);
    }

    /** A plan of a single leaf. */
    constructor Leaf(op: Op)
      ensures Is(Tree(op, [])) && Tracked() && fresh(dataflow)
    {
      dataflow := new CrustyGraph<Op>();
      root := None;
      new;
      var n := AddNode(op);
      assert Targets(Arcs(), 0) == [];
    }

    /** Merges `other` into this plan under the new binary operator `op`: this plan's tree on the
        left, the other's on the right, the new node as root. */
    method Merge(op: Op, other: Plan<Op>, ghost l: Tree<Op>, ghost r: Tree<Op>)
      requires Is(l) && other.Is(r) && other != this && other.dataflow != dataflow
      modifies this, dataflow
      ensures Is(Tree(op, [l, r])) && (old(Tracked()) ==> Tracked())
      ensures Ops() == old(Ops()) + old(other.Ops()) + [op]
    {
      ghost var ops, arcs, k := Ops(), Arcs(), |Ops()|;
      ghost var ops2, arcs2 := other.Ops(), other.Arcs();
      var left, right := root.value, other.root.value;
      assert Denotes(ops, arcs, left, l) && Denotes(ops2, arcs2, right, r);
      var nodeMap := CopyNodes(other.dataflow.nodes);
      CopyEdges(other.dataflow.edges, nodeMap, |other.dataflow.nodes|, k);
      var copy := nodeMap[right];
      var n := JoinRoots(op, left, copy);
      DenotesMerged(ops, arcs, left, l, ops2, arcs2, right, r, op, n, copy);
    }

    /** The new operator and its two edges, right child first. */
    method JoinRoots(op: Op, left: nat, right: nat) returns (n: nat)
      requires Valid() && root == Some(left) && right < |Ops()| && right != left
      modifies this, dataflow
      ensures Valid() && (old(Tracked()) ==> Tracked()) && n == old(|Ops()|) && root == Some(n)
      ensures Ops() == old(Ops()) + [op]
      ensures Arcs() == old(Arcs()) + [Arc(n, right), Arc(n, left)]
    {
      ghost var arcs := Arcs();
      n := AddNode(op);
      AddEdge(n, right);
      AddEdge(n, left);
      TwoMore(arcs, Arc(n, right), Arc(n, left));
    }

    /** Copies the nodes of another graph and records where each one went. */
    method CopyNodes(nodes: seq<Node<Op>>) returns (nodeMap: map<nat, nat>)
      requires Valid() && root.Some?
      modifies this, dataflow
      ensures Valid() && (old(Tracked()) ==> Tracked()) && root == old(root)
      ensures Ops() == old(Ops()) + DataOf(nodes) && Arcs() == old(Arcs())
      ensures MapsBy(nodeMap, |nodes|, old(|Ops()|))
    {
      nodeMap := map[];
      ghost var ops, k, data := Ops(), |Ops()|, DataOf(nodes);
      var i := 0;
      while i < |nodes|
        invariant 0 <= i <= |nodes| && Valid() && (old(Tracked()) ==> Tracked()) && root == old(root)
        invariant Ops() == ops + data[..i] && Arcs() == old(Arcs())
        invariant MapsBy(nodeMap, i, k)
      {
        PrefixSnoc(ops, data, i);
        nodeMap := CopyNode(nodes[i].data, nodeMap, i, k);
        i := i + 1;
      }
      WholePrefix(data);
    }

    method CopyNode(op: Op, nodeMap: map<nat, nat>, i: nat, ghost k: nat) returns (m: map<nat, nat>)
      requires Valid() && root.Some? && |Ops()| == k + i && MapsBy(nodeMap, i, k)
      modifies this, dataflow
      ensures Valid() && (old(Tracked()) ==> Tracked()) && root == old(root)
      ensures Ops() == old(Ops()) + [op] && Arcs() == old(Arcs()) && MapsBy(m, i + 1, k)
    {
      var n := AddNode(op);
      MapsByNext(nodeMap, i, k, n);
      m := nodeMap[i := n];
    }

    /** Replays the edges of another graph between the copied nodes; none of them reaches the root. */
    method CopyEdges(edges: seq<Edge>, nodeMap: map<nat, nat>, count: nat, ghost k: nat)
      requires Valid() && root.Some? && root.value < k && ArcsWithin(count, ArcsOf(edges)) && NoLoops(ArcsOf(edges))
      requires MapsBy(nodeMap, count, k) && k + count <= |Ops()|
      modifies this, dataflow
      ensures Valid() && (old(Tracked()) ==> Tracked()) && root == old(root)
      ensures Ops() == old(Ops()) && Arcs() == old(Arcs()) + ShiftArcs(ArcsOf(edges), k)
    {
      ghost var arcs := ArcsOf(edges);
      var i := 0;
      while i < |edges|
        invariant 0 <= i <= |edges| && Valid() && (old(Tracked()) ==> Tracked()) && root == old(root)
        invariant Ops() == old(Ops()) && Arcs() == old(Arcs()) + ShiftArcs(arcs[..i], k)
      {
        CopiedArc(edges, nodeMap, count, k, i);
        CopiedArcs(old(Arcs()), arcs, i, k);
        AddEdge(nodeMap[edges[i].source], nodeMap[edges[i].target]);
        i := i + 1;
      }
      assert arcs[..|edges|] == arcs;
    }

    /** `add_filter_node`, `add_projection_node` and `add_agg_node`: over the root when no child is named; over a
        named child the root stays where it is, even when that child is the root.  On an empty plan the node is
        left without a root. */
    method AddUnary(op: Op, child: Option<nat>) returns (n: nat)
      requires Valid() && (child.Some? ==> child.value < |Ops()|)
      modifies this, dataflow
      ensures n == old(|Ops()|) && Ops() == old(Ops()) + [op] && (Valid() <==> old(root).Some?)
      ensures child.Some? ==> root == old(root) && Arcs() == old(Arcs()) + [Arc(n, child.value)]
      ensures child.None? && old(root).Some? ==> root == Some(n) && Arcs() == old(Arcs()) + [Arc(n, old(root).value)]
      ensures old(root).None? ==> root == None && Arcs() == old(Arcs())
      ensures old(root).Some? && old(Tracked()) ==> (Tracked() <==> child.None? || old(root) != child)
    {
      ghost var arcs := Arcs();
      n := dataflow.AddNode(op);
      if child.Some? {
        dataflow.AddEdge(n, child.value);
        RootAfterSnoc(arcs, Arc(n, child.value), 0);
      } else if root.Some? {
        dataflow.AddEdge(n, root.value);
        RootAfterSnoc(arcs, Arc(n, root.value), 0);
        root := Some(n);
      }
    }

    /** `add_join_node` and `add_cross_product_node`: the new node becomes the root whatever it joins. */
    method AddBinary(op: Op, left: nat, right: nat) returns (n: nat)
      requires Valid() && left < |Ops()| && right < |Ops()|
      modifies this, dataflow
      ensures Valid() && n == old(|Ops()|) && root == Some(n)
      ensures Ops() == old(Ops()) + [op] && Arcs() == old(Arcs()) + [Arc(n, left), Arc(n, right)]
      ensures old(Tracked()) ==> (Tracked() <==> old(root.value) in {left, right})
    {
      ghost var arcs := Arcs();
      n := dataflow.AddNode(op);
      dataflow.AddEdge(n, left);
      dataflow.AddEdge(n, right);
      TwoMore(arcs, Arc(n, left), Arc(n, right));
      RootAfterTwo(arcs, n, left, right);
      root := Some(n);
    }
  }

  /** A graph without nodes has no arcs. */
  lemma NoArcs(arcs: seq<Arc>)
    ensures arcs == [] ==> RootAfter(arcs, 0) == 0
  {
  }

  predicate NoLoops(arcs: seq<Arc>) { forall i :: 0 <= i < |arcs| ==> arcs[i].source != arcs[i].target }

  lemma TwoMore(arcs: seq<Arc>, a: Arc, b: Arc)
    ensures arcs + [a] + [b] == arcs + [a, b]
  {
  }

  lemma CopiedArc(edges: seq<Edge>, nodeMap: map<nat, nat>, count: nat, k: nat, i: nat)
    requires i < |edges| && ArcsWithin(count, ArcsOf(edges)) && NoLoops(ArcsOf(edges)) && MapsBy(nodeMap, count, k)
    ensures edges[i].source in nodeMap && edges[i].target in nodeMap
    ensures var s, t := nodeMap[edges[i].source], nodeMap[edges[i].target];
            s != t && k <= s < k + count && k <= t < k + count && Arc(s, t) == ShiftArc(ArcsOf(edges)[i], k)
  {
    assert ArcsOf(edges)[i] == Arc(edges[i].source, edges[i].target);
  }

  lemma CopiedArcs(base: seq<Arc>, arcs: seq<Arc>, i: nat, k: nat)
    requires i < |arcs|
    ensures base + ShiftArcs(arcs[..i + 1], k) == base + ShiftArcs(arcs[..i], k) + [ShiftArc(arcs[i], k)]
  {
    ShiftArcsSnoc(arcs, i, k);
  }

  lemma MapsByNext(m: map<nat, nat>, i: nat, k: nat, n: nat)
    requires MapsBy(m, i, k) && n == i + k
    ensures MapsBy(m[i := n], i + 1, k)
  {
  }

  lemma RootAfterTwo(arcs: seq<Arc>, n: nat, left: nat, right: nat)
    requires left < n && right < n
    ensures RootAfter(arcs + [Arc(n, left), Arc(n, right)], 0)
         == if RootAfter(arcs, 0) in {left, right} then n else RootAfter(arcs, 0)
  {
    RootAfterSnoc(arcs, Arc(n, left), 0);
    RootAfterSnoc(arcs + [Arc(n, left)], Arc(n, right), 0);
    TwoMore(arcs, Arc(n, left), Arc(n, right));
  }

  lemma WholePrefix<T>(xs: seq<T>)
    ensures xs[..|xs|] == xs
  {
  }

  lemma PrefixSnoc<T>(a: seq<T>, xs: seq<T>, i: nat)
    requires i < |xs|
    ensures a + xs[..i + 1] == a + xs[..i] + [xs[i]]
  {
  }

  predicate MapsBy(m: map<nat, nat>, n: nat, k: nat) {
    forall i :: 0 <= i < n ==> i in m && m[i] == i + k
  }
}
