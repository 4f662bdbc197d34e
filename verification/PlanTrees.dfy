/** Reading an operator tree off a plan graph, and what growing or merging
    graphs does to that reading. */
module PlanTrees {
  import opened GraphTheory

  datatype Tree<+T> = Tree(op: T, children: seq<Tree<T>>)

  /** The graph, read from node `n` along its ordered edges, is the tree `t`. */
  ghost predicate Denotes<T>(ops: seq<T>, arcs: seq<Arc>, n: nat, t: Tree<T>)
    decreases t
  {
    var ts := Targets(arcs, n);
    && n < |ops| && ops[n] == t.op && |ts| == |t.children|
    && forall i :: 0 <= i < |ts| ==> Denotes(ops, arcs, ts[i], t.children[i])
  }

  predicate SourcesFrom(arcs: seq<Arc>, k: nat) { forall i :: 0 <= i < |arcs| ==> k <= arcs[i].source }

  predicate SourcesBelow(arcs: seq<Arc>, k: nat) { forall i :: 0 <= i < |arcs| ==> arcs[i].source < k }

  function ShiftArc(a: Arc, k: nat): Arc { Arc(a.source + k, a.target + k) }

  function ShiftArcs(arcs: seq<Arc>, k: nat): (r: seq<Arc>)
    ensures |r| == |arcs| && forall i :: 0 <= i < |r| ==> r[i] == ShiftArc(arcs[i], k)
  {
    seq(|arcs|, i requires 0 <= i < |arcs| => ShiftArc(arcs[i], k))
  }

  function ShiftNodes(ns: seq<nat>, k: nat): (r: seq<nat>)
    ensures |r| == |ns| && forall i :: 0 <= i < |r| ==> r[i] == ns[i] + k
  {
    seq(|ns|, i requires 0 <= i < |ns| => ns[i] + k)
  }

  lemma ShiftArcsSnoc(arcs: seq<Arc>, i: nat, k: nat)
    requires i < |arcs|
    ensures ShiftArcs(arcs[..i + 1], k) == ShiftArcs(arcs[..i], k) + [ShiftArc(arcs[i], k)]
  {
  }

  lemma ShiftNodesCons(x: nat, ns: seq<nat>, k: nat)
    ensures ShiftNodes([x] + ns, k) == [x + k] + ShiftNodes(ns, k)
  {
  }

  /** Arcs that leave later nodes do not change the successors of earlier ones. */
  lemma {:induction false} TargetsExtended(arcs: seq<Arc>, more: seq<Arc>, k: nat, n: nat)
    requires SourcesFrom(more, k) && n < k
    ensures Targets(arcs + more, n) == Targets(arcs, n)
    decreases |more|
  {
    if more == [] {
      assert arcs + more == arcs;
    } else {
      var init, last := more[..|more| - 1], more[|more| - 1];
      assert arcs + more == arcs + init + [last];
      TargetsSnoc(arcs + init, last, n);
      TargetsExtended(arcs, init, k, n);
    }
  }

  /** A graph copied behind another has the shifted successors. */
  lemma {:induction false} TargetsShifted(arcs: seq<Arc>, more: seq<Arc>, k: nat, n: nat)
    requires SourcesBelow(arcs, k)
    ensures Targets(arcs + ShiftArcs(more, k), n + k) == ShiftNodes(Targets(more, n), k)
    decreases |more|
  {
    if more == [] {
      assert arcs + ShiftArcs(more, k) == arcs;
      NoTargets(arcs, n + k);
    } else {
      var m := |more| - 1;
      var init, last := more[..m], more[m];
      ShiftArcsSnoc(more, m, k);
      assert more[..m + 1] == more;
      assert arcs + ShiftArcs(more, k) == arcs + ShiftArcs(init, k) + [ShiftArc(last, k)];
      TargetsSnoc(arcs + ShiftArcs(init, k), ShiftArc(last, k), n + k);
      TargetsShifted(arcs, init, k, n);
      ShiftNodesCons(last.target, Targets(init, n), k);
      assert Targets(more, n) == (if last.source == n then [last.target] else []) + Targets(init, n);
    }
  }

  lemma {:induction false} NoTargets(arcs: seq<Arc>, n: nat)
    requires SourcesBelow(arcs, n) || forall i :: 0 <= i < |arcs| ==> arcs[i].source != n
    ensures Targets(arcs, n) == []
  {
    if arcs != [] {
      NoTargets(arcs[..|arcs| - 1], n);
    }
  }

  lemma {:induction false} DenotesExtended<T>(
      ops: seq<T>, arcs: seq<Arc>, moreOps: seq<T>, moreArcs: seq<Arc>, n: nat, t: Tree<T>)
    requires Denotes(ops, arcs, n, t) && SourcesFrom(moreArcs, |ops|)
    ensures Denotes(ops + moreOps, arcs + moreArcs, n, t)
    decreases t
  {
    TargetsExtended(arcs, moreArcs, |ops|, n);
    var ts := Targets(arcs, n);
    forall i | 0 <= i < |ts| ensures Denotes(ops + moreOps, arcs + moreArcs, ts[i], t.children[i]) {
      DenotesExtended(ops, arcs, moreOps, moreArcs, ts[i], t.children[i]);
    }
  }

  lemma {:induction false} DenotesShifted<T>(
      ops: seq<T>, arcs: seq<Arc>, moreOps: seq<T>, moreArcs: seq<Arc>, n: nat, t: Tree<T>)
    requires Denotes(moreOps, moreArcs, n, t) && SourcesBelow(arcs, |ops|)
    ensures Denotes(ops + moreOps, arcs + ShiftArcs(moreArcs, |ops|), n + |ops|, t)
    decreases t
  {
    TargetsShifted(arcs, moreArcs, |ops|, n);
    var ts := Targets(moreArcs, n);
    var us := ShiftNodes(ts, |ops|);
    forall i | 0 <= i < |us|
      ensures Denotes(ops + moreOps, arcs + ShiftArcs(moreArcs, |ops|), us[i], t.children[i])
    {
      DenotesShifted(ops, arcs, moreOps, moreArcs, ts[i], t.children[i]);
    }
  }

  /** A new operator over the old root. */
  lemma DenotesUnary<T>(ops: seq<T>, arcs: seq<Arc>, root: nat, t: Tree<T>, op: T)
    requires ArcsWithin(|ops|, arcs) && Denotes(ops, arcs, root, t)
    ensures Denotes(ops + [op], arcs + [Arc(|ops|, root)], |ops|, Tree(op, [t]))
  {
    var n, all := |ops|, arcs + [Arc(|ops|, root)];
    DenotesExtended(ops, arcs, [op], [Arc(n, root)], root, t);
    NoTargets(arcs, n);
    TargetsSnoc(arcs, Arc(n, root), n);
    assert Targets(all, n) == [root];
  }

  /** Merging puts the new operator over the left tree, then the right tree, both unchanged; the arcs
      of the merge are those of both graphs, then the new operator's, right child first. */
  lemma DenotesMerged<T>(
      ops: seq<T>, arcs: seq<Arc>, left: nat, l: Tree<T>,
      moreOps: seq<T>, moreArcs: seq<Arc>, right: nat, r: Tree<T>, op: T, n: nat, copy: nat)
    requires ArcsWithin(|ops|, arcs) && Denotes(ops, arcs, left, l)
    requires ArcsWithin(|moreOps|, moreArcs) && Denotes(moreOps, moreArcs, right, r)
    requires n == |ops| + |moreOps| && copy == right + |ops|
    ensures Denotes(ops + moreOps + [op], arcs + ShiftArcs(moreArcs, |ops|) + [Arc(n, copy), Arc(n, left)], n,
                    Tree(op, [l, r]))
  {
    var both, shifted := ops + moreOps, ShiftArcs(moreArcs, |ops|);
    var a, b := Arc(n, copy), Arc(n, left);
    DenotesExtended(ops, arcs, moreOps, shifted, left, l);
    DenotesShifted(ops, arcs, moreOps, moreArcs, right, r);
    DenotesExtended(both, arcs + shifted, [op], [a, b], left, l);
    DenotesExtended(both, arcs + shifted, [op], [a, b], copy, r);
    MergedTargets(arcs + shifted, n, copy, left);
  }

  lemma MergedTargets(arcs: seq<Arc>, n: nat, right: nat, left: nat)
    requires SourcesBelow(arcs, n)
    ensures Targets(arcs + [Arc(n, right), Arc(n, left)], n) == [left, right]
  {
    NoTargets(arcs, n);
    assert arcs + [Arc(n, right), Arc(n, left)] == arcs + [Arc(n, right)] + [Arc(n, left)];
    TargetsSnoc(arcs, Arc(n, right), n);
    TargetsSnoc(arcs + [Arc(n, right)], Arc(n, left), n);
  }

  // ----- root tracking -----

  /** The root after replaying `arcs`: each arc into the root makes its source the root. */
  function RootAfter(arcs: seq<Arc>, start: nat): nat {
    if arcs == [] then start
    else
      var before, last := RootAfter(arcs[..|arcs| - 1], start), arcs[|arcs| - 1];
      if last.target == before then last.source else before
  }

  lemma RootAfterSnoc(arcs: seq<Arc>, a: Arc, start: nat)
    ensures RootAfter(arcs + [a], start)
         == if a.target == RootAfter(arcs, start) then a.source else RootAfter(arcs, start)
  {
    assert (arcs + [a])[..|arcs + [a]| - 1] == arcs;
  }
}
