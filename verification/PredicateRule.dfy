/** The predicate pushdown rule as it works on plan graphs. */
module PredicateRule {
  import opened Options
  import opened Fields
  import opened Ast
  import opened GraphTheory
  import opened PlanTrees
  import opened Plans
  import opened Relational
  import opened PredicatePushdown

  // ----- reading a plan graph -----

  ghost function Children(q: Query): seq<Query> {
    match q
    case QScan(_, _, _) => []
    case QProject(_, c) => [c]
    case QFilter(_, c) => [c]
    case QAggregate(_, _, _, c) => [c]
    case QJoin(_, _, l, r) => [l, r]
    case QCross(_, l, r) => [l, r]
    case QSort(_, c) => [c]
  }

  /** The plan graph, read from node `n`, is the plan `q`. */
  ghost predicate At(lp: Plan<LogicalOp>, n: nat, q: Query)
    reads lp, lp.dataflow
  {
    lp.Valid() && Denotes(lp.Ops(), lp.Arcs(), n, ToTree(q))
  }

  lemma TreeChildren(q: Query)
    ensures |ToTree(q).children| == |Children(q)|
    ensures forall i :: 0 <= i < |Children(q)| ==> ToTree(q).children[i] == ToTree(Children(q)[i])
  {
  }

  /** An operator and its children in edge order. */
  method Look(lp: Plan<LogicalOp>, n: nat, ghost q: Query) returns (op: LogicalOp, children: seq<nat>)
    requires At(lp, n, q)
    ensures op == ToTree(q).op && |children| == |Children(q)|
    ensures forall i :: 0 <= i < |children| ==> At(lp, children[i], Children(q)[i])
  {
    TreeChildren(q);
    op := lp.dataflow.nodes[n].data;
    children := lp.dataflow.EdgesFrom(n);
    assert Denotes(lp.Ops(), lp.Arcs(), n, ToTree(q));
  }

  // ----- what the rule demands -----

  /** No column index in any expression, and every scanned table in the catalog: anything else panics. */
  predicate WellFormed(q: Query, catalog: Catalog) {
    match q
    case QScan(c, f, p) => c in catalog && OptionUnbound(f) && (p.Some? ==> AllUnbound(p.value))
    case QProject(ids, c) => AllUnbound(ids) && WellFormed(c, catalog)
    case QFilter(p, c) => Unbound(p) && WellFormed(c, catalog)
    case QAggregate(fs, gs, h, c) => AllUnbound(fs) && AllUnbound(gs) && OptionUnbound(h) && WellFormed(c, catalog)
    case QJoin(es, f, l, r) => EqsUnbound(es) && OptionUnbound(f) && WellFormed(l, catalog) && WellFormed(r, catalog)
    case QCross(f, l, r) => OptionUnbound(f) && WellFormed(l, catalog) && WellFormed(r, catalog)
    case QSort(ks, c) => (forall k :: k in ks ==> Unbound(k.0)) && WellFormed(c, catalog)
  }

  // ----- columns -----

  method ExtractColumns(e: Expr, accum: set<string>) returns (r: set<string>)
    requires Unbound(e)
    ensures r == accum + Columns(e)
    decreases e
  {
    match e
    case Literal(_) => r := accum;
    case Ident(x) => r := accum + {x};
    case Alias(_, x) => r := ExtractColumns(x, accum);
    case Math(_, a, b) => r := ExtractColumns(a, accum); r := ExtractColumns(b, r);
    case Boolean(_, a, b) => r := ExtractColumns(a, accum); r := ExtractColumns(b, r);
    case Agg(_, x) => r := ExtractColumns(x, accum);
  }

  method ExtractColumnsVec(es: seq<Expr>, accum: set<string>) returns (r: set<string>)
    requires AllUnbound(es)
    ensures r == accum + ColumnsOfAll(es)
  {
    r := accum;
    var i := 0;
    while i < |es|
      invariant 0 <= i <= |es| && r == accum + ColumnsOfAll(es[..i])
    {
      assert es[..i + 1][..i] == es[..i];
      r := ExtractColumns(es[i], r);
      i := i + 1;
    }
    assert es[..i] == es;
  }

  /** `extract_columns_from_plan`. */
  method ExtractPlanColumns(lp: Plan<LogicalOp>, n: nat, ghost q: Query, catalog: Catalog)
    returns (columns: set<string>)
    requires At(lp, n, q) && WellFormed(q, catalog)
    ensures columns == PlanColumns(q, catalog)
    decreases q
  {
    var op, children := Look(lp, n, q);
    match op
    case Scan(c, _, p) =>
      if p.Some? {
        columns := ExtractColumnsVec(p.value, {});
      } else {
        columns := set x | x in catalog[c];
      }
    case Project(ids) =>
      columns := ExtractColumnsVec(ids, {});
    case Aggregate(fs, gs, _) =>
      columns := ExtractColumnsVec(fs, {});
      columns := ExtractColumnsVec(gs, columns);
    case Filter(_) =>
      columns := ExtractPlanColumns(lp, children[0], q.child, catalog);
    case Sort(_) =>
      columns := ExtractPlanColumns(lp, children[0], q.child, catalog);
    case Join(_, _) =>
      columns := ExtractPlanColumns(lp, children[0], q.left, catalog);
      var more := ExtractPlanColumns(lp, children[1], q.right, catalog);
      columns := columns + more;
    case CrossProduct(_) =>
      columns := ExtractPlanColumns(lp, children[0], q.left, catalog);
      var more := ExtractPlanColumns(lp, children[1], q.right, catalog);
      columns := columns + more;
  }

  method CanBePushedDown(p: Expr, lp: Plan<LogicalOp>, n: nat, ghost q: Query, catalog: Catalog) returns (r: bool)
    requires Unbound(p) && At(lp, n, q) && WellFormed(q, catalog)
    ensures r <==> Columns(p) <= PlanColumns(q, catalog)
  {
    var columns := ExtractColumns(p, {});
    var available := ExtractPlanColumns(lp, n, q, catalog);
    r := columns <= available;
  }

  // ----- predicates -----

  /** `separate_predicates_by_and`: appends the conjuncts. */
  method SeparateByAnd(e: Expr, ps: seq<Expr>) returns (r: seq<Expr>)
    ensures r == ps + SplitAnd(e)
    decreases e
  {
    if e.Boolean? && e.bop.And? {
      r := SeparateByAnd(e.l, ps);
      r := SeparateByAnd(e.r, r);
    } else {
      r := ps + [e];
    }
  }

  method SeparateOption(o: Option<Expr>, ps: seq<Expr>) returns (r: seq<Expr>)
    ensures r == ps + SplitOption(o)
  {
    r := ps;
    if o.Some? {
      r := SeparateByAnd(o.value, ps);
    }
  }

  /** `combine_predicates_with_and`. */
  method CombineWithAnd(ps: seq<Expr>) returns (r: Option<Expr>)
    ensures r == CombineAnd(ps)
  {
    if ps == [] {
      return None;
    }
    var acc, i := ps[0], 1;
    while i < |ps|
      invariant 1 <= i <= |ps| && AndAll(acc, ps[i..]) == AndAll(ps[0], ps[1..])
    {
      assert ps[i..][1..] == ps[i + 1..];
      acc := Boolean(And, acc, ps[i]);
      i := i + 1;
    }
    return Some(acc);
  }

  /** The loop of a join: each predicate goes left, right, to the equalities or stays. */
  method Distribute(ps: seq<Expr>, lp: Plan<LogicalOp>, left: nat, right: nat, ghost ql: Query, ghost qr: Query,
                    catalog: Catalog) returns (s: Split)
    requires AllUnbound(ps) && At(lp, left, ql) && At(lp, right, qr)
    requires WellFormed(ql, catalog) && WellFormed(qr, catalog)
    ensures s == SplitBetween(ps, PlanColumns(ql, catalog), PlanColumns(qr, catalog))
    ensures Facing(s.eqs, PlanColumns(ql, catalog), PlanColumns(qr, catalog))
  {
    ghost var l, r := PlanColumns(ql, catalog), PlanColumns(qr, catalog);
    s := Split([], [], [], []);
    var i := 0;
    while i < |ps|
      invariant 0 <= i <= |ps| && Placed(s, ps, i, l, r)
    {
      var t := PlaceOne(s, ps[i], lp, left, right, ql, qr, catalog);
      PlacedNext(s, t, ps, i, l, r);
      s := t;
      i := i + 1;
    }
    PlacedAll(s, ps, l, r);
    SplitExact(ps, l, r);
  }

  /** The first `i` predicates are split. */
  ghost predicate Placed(s: Split, ps: seq<Expr>, i: nat, l: set<string>, r: set<string>)
    requires i <= |ps|
  {
    s == SplitBetween(ps[..i], l, r)
  }

  lemma PlacedNext(s: Split, t: Split, ps: seq<Expr>, i: nat, l: set<string>, r: set<string>)
    requires i < |ps| && Placed(s, ps, i, l, r) && t == Place(s, ps[i], l, r)
    ensures Placed(t, ps, i + 1, l, r)
  {
    assert ps[..i + 1][..i] == ps[..i];
  }

  lemma PlacedAll(s: Split, ps: seq<Expr>, l: set<string>, r: set<string>)
    requires Placed(s, ps, |ps|, l, r)
    ensures s == SplitBetween(ps, l, r)
  {
    assert ps[..|ps|] == ps;
  }

  method PlaceOne(s: Split, p: Expr, lp: Plan<LogicalOp>, left: nat, right: nat, ghost ql: Query, ghost qr: Query,
                  catalog: Catalog) returns (t: Split)
    requires Unbound(p) && At(lp, left, ql) && At(lp, right, qr)
    requires WellFormed(ql, catalog) && WellFormed(qr, catalog)
    ensures t == Place(s, p, PlanColumns(ql, catalog), PlanColumns(qr, catalog))
  {
    var c := CanBePushedDown(p, lp, left, ql, catalog);
    if c {
      return s.(left := s.left + [p]);
    }
    c := CanBePushedDown(p, lp, right, qr, catalog);
    if c {
      return s.(right := s.right + [p]);
    }
    if p.Boolean? && p.bop.Eq? {
      var a := CanBePushedDown(p.l, lp, left, ql, catalog);
      var b := CanBePushedDown(p.r, lp, right, qr, catalog);
      if a && b {
        return s.(eqs := s.eqs + [(p.l, p.r)]);
      }
      a := CanBePushedDown(p.l, lp, right, qr, catalog);
      b := CanBePushedDown(p.r, lp, left, ql, catalog);
      if a && b {
        return s.(eqs := s.eqs + [(p.r, p.l)]);
      }
    }
    return s.(rest := s.rest + [p]);
  }

  /** The loop of an aggregate. */
  method DivideHaving(ps: seq<Expr>, lp: Plan<LogicalOp>, n: nat, ghost q: Query, catalog: Catalog)
    returns (having: seq<Expr>, pushing: seq<Expr>)
    requires AllUnbound(ps) && At(lp, n, q) && WellFormed(q, catalog)
    ensures having == Stuck(ps, PlanColumns(q, catalog)) && pushing == Pushable(ps, PlanColumns(q, catalog))
  {
    having, pushing := [], [];
    var i := 0;
    while i < |ps|
      invariant 0 <= i <= |ps|
      invariant having == Stuck(ps[..i], PlanColumns(q, catalog))
      invariant pushing == Pushable(ps[..i], PlanColumns(q, catalog))
    {
      assert ps[..i + 1][..i] == ps[..i];
      var c := CanBePushedDown(ps[i], lp, n, q, catalog);
      if c {
        pushing := pushing + [ps[i]];
      } else {
        having := having + [ps[i]];
      }
      i := i + 1;
    }
    assert ps[..i] == ps;
  }

  // ----- the rule -----

  /** `pushdown`: builds a new plan from the plan at `n` with `ps` pushed in; the old plan is not touched. */
  method Pushdown(lp: Plan<LogicalOp>, n: nat, ghost q: Query, ps: seq<Expr>, catalog: Catalog)
    returns (out: Plan<LogicalOp>)
    requires At(lp, n, q) && WellFormed(q, catalog) && AllUnbound(ps)
    ensures fresh(out) && fresh(out.dataflow) && out.Is(ToTree(Push(q, ps, catalog)))
    decreases q
  {
    var op, children := Look(lp, n, q);
    match op
    case Scan(c, f, p) =>
      out := PushdownScan(c, f, p, ps);
    case Project(_) =>
      out := PushdownThrough(lp, children[0], q, ps, catalog, op);
    case Sort(_) =>
      out := PushdownThrough(lp, children[0], q, ps, catalog, op);
    case Filter(p) =>
      var all := SeparateByAnd(p, ps);
      SplitAndUnbound(p);
      out := Pushdown(lp, children[0], q.child, all, catalog);
    case Aggregate(fs, gs, h) =>
      var all := SeparateOption(h, ps);
      SplitOptionUnbound(ps, h);
      var having, pushing := DivideHaving(all, lp, children[0], q.child, catalog);
      out := Pushdown(lp, children[0], q.child, pushing, catalog);
      var above := CombineWithAnd(having);
      out.AddOver(Aggregate(fs, gs, above), ToTree(Push(q.child, pushing, catalog)));
    case Join(es, f) =>
      out := PushdownJoin(lp, children[0], children[1], q, es, f, ps, catalog);
    case CrossProduct(f) =>
      out := PushdownCross(lp, children[0], children[1], q, f, ps, catalog);
  }

  method PushdownScan(c: ContainerId, f: Option<Expr>, p: Option<seq<Expr>>, ps: seq<Expr>)
    returns (out: Plan<LogicalOp>)
    ensures fresh(out) && fresh(out.dataflow) && out.Is(Tree(Scan(c, CombineAnd(ps + SplitOption(f)), p), []))
  {
    var all := SeparateOption(f, ps);
    var filter := CombineWithAnd(all);
    out := new Plan<LogicalOp>.Leaf(Scan(c, filter, p));
  }

  /** `pushdown_through_node`. */
  method PushdownThrough(lp: Plan<LogicalOp>, child: nat, ghost q: Query, ps: seq<Expr>, catalog: Catalog,
                         op: LogicalOp)
    returns (out: Plan<LogicalOp>)
    requires (q.QProject? || q.QSort?) && op == ToTree(q).op
    requires At(lp, child, q.child) && WellFormed(q.child, catalog) && AllUnbound(ps)
    ensures fresh(out) && fresh(out.dataflow) && out.Is(ToTree(Push(q, ps, catalog)))
    decreases q, 0
  {
    out := Pushdown(lp, child, q.child, ps, catalog);
    out.AddOver(op, ToTree(Push(q.child, ps, catalog)));
  }

  method PushdownJoin(lp: Plan<LogicalOp>, left: nat, right: nat, ghost q: Query, es: seq<(Expr, Expr)>,
                      f: Option<Expr>, ps: seq<Expr>, catalog: Catalog) returns (out: Plan<LogicalOp>)
    requires q.QJoin? && q.eqs == es && q.jfilter == f && WellFormed(q, catalog) && AllUnbound(ps)
    requires At(lp, left, q.left) && At(lp, right, q.right)
    ensures fresh(out) && fresh(out.dataflow) && out.Is(ToTree(Push(q, ps, catalog)))
    decreases q, 1
  {
    var s, other;
    out, other, s := PushdownSides(lp, left, right, q, q.left, q.right, f, ps, catalog);
    var filter := CombineWithAnd(s.rest);
    ghost var l, r := Push(q.left, s.left, catalog), Push(q.right, s.right, catalog);
    out.Merge(Join(es + s.eqs, filter), other, ToTree(l), ToTree(r));
    assert Push(q, ps, catalog) == QJoin(es + s.eqs, filter, l, r);
  }

  method PushdownCross(lp: Plan<LogicalOp>, left: nat, right: nat, ghost q: Query, f: Option<Expr>,
                       ps: seq<Expr>, catalog: Catalog) returns (out: Plan<LogicalOp>)
    requires q.QCross? && q.cfilter == f && WellFormed(q, catalog) && AllUnbound(ps)
    requires At(lp, left, q.left) && At(lp, right, q.right)
    ensures fresh(out) && fresh(out.dataflow) && out.Is(ToTree(Push(q, ps, catalog)))
    decreases q, 1
  {
    var s, other;
    out, other, s := PushdownSides(lp, left, right, q, q.left, q.right, f, ps, catalog);
    var filter := CombineWithAnd(s.rest);
    CrossTree(q, ps, catalog, s);
    out.Merge(CrossOp(s.eqs, filter), other,
              ToTree(Push(q.left, s.left, catalog)), ToTree(Push(q.right, s.right, catalog)));
  }

  /** A cross product with promoted equalities becomes a join. */
  function CrossOp(eqs: seq<(Expr, Expr)>, filter: Option<Expr>): LogicalOp {
    if eqs != [] then Join(eqs, filter) else CrossProduct(filter)
  }

  lemma CrossTree(q: Query, ps: seq<Expr>, catalog: Catalog, s: Split)
    requires q.QCross?
    requires s == SplitBetween(ps + SplitOption(q.cfilter), PlanColumns(q.left, catalog), PlanColumns(q.right, catalog))
    ensures ToTree(Push(q, ps, catalog))
         == Tree(CrossOp(s.eqs, CombineAnd(s.rest)),
                 [ToTree(Push(q.left, s.left, catalog)), ToTree(Push(q.right, s.right, catalog))])
  {
  }

  /** Splits the predicates of a binary operator and pushes into both sides. */
  method PushdownSides(lp: Plan<LogicalOp>, left: nat, right: nat, ghost q: Query, ghost ql: Query, ghost qr: Query,
                       f: Option<Expr>, ps: seq<Expr>, catalog: Catalog)
    returns (out: Plan<LogicalOp>, other: Plan<LogicalOp>, s: Split)
    requires (q.QJoin? || q.QCross?) && q.left == ql && q.right == qr
    requires WellFormed(ql, catalog) && WellFormed(qr, catalog) && AllUnbound(ps) && OptionUnbound(f)
    requires At(lp, left, ql) && At(lp, right, qr)
    ensures s == SplitBetween(ps + SplitOption(f), PlanColumns(ql, catalog), PlanColumns(qr, catalog))
    ensures fresh(out) && fresh(out.dataflow) && out.Is(ToTree(Push(ql, s.left, catalog)))
    ensures fresh(other) && fresh(other.dataflow) && other.Is(ToTree(Push(qr, s.right, catalog)))
    ensures out != other && out.dataflow != other.dataflow
    decreases q, 0
  {
    var all := SeparateOption(f, ps);
    SplitOptionUnbound(ps, f);
    s := Distribute(all, lp, left, right, ql, qr, catalog);
    SplitUnbound(all, PlanColumns(ql, catalog), PlanColumns(qr, catalog));
    out := Pushdown(lp, left, ql, s.left, catalog);
    other := Pushdown(lp, right, qr, s.right, catalog);
  }

  /** `apply`: the new plan means what the plan means, over every database with that catalog, has every predicate as
      low as it goes and every equality facing the sides of its join. */
  method Apply(plan: Plan<LogicalOp>, ghost q: Query, catalog: Catalog) returns (out: Plan<LogicalOp>)
    requires plan.Is(ToTree(q)) && WellFormed(q, catalog)
    ensures fresh(out) && out.Is(ToTree(Push(q, [], catalog)))
    ensures forall db :: Relational.Valid(db) && db.catalog == catalog && Admissible(q, [], catalog, db.literalName) ==>
                           Meaning(Push(q, [], catalog), db) == Meaning(q, db)
    ensures JoinsFace(q, catalog) ==> JoinsFace(Push(q, [], catalog), catalog)
    ensures Settled(Push(q, [], catalog), catalog)
  {
    PushSettles(q, [], catalog);
    if JoinsFace(q, catalog) {
      PushFaces(q, [], catalog);
    }
    out := Pushdown(plan, plan.root.value, q, [], catalog);
    forall db | Relational.Valid(db) && db.catalog == catalog && Admissible(q, [], catalog, db.literalName)
      ensures Meaning(Push(q, [], catalog), db) == Meaning(q, db)
    {
      PushdownKeepsMeaning(q, db);
    }
  }
}
