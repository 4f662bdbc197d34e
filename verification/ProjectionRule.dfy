/** The projection pushdown rule as it works on plan graphs. */
module ProjectionRule {
  import opened Options
  import opened Fields
  import opened Ast
  import opened GraphTheory
  import opened PlanTrees
  import opened Plans
  import opened Relational
  import opened PredicatePushdown
  import opened PredicateRule
  import opened ProjectionPushdown

  // ----- the ordered set of names -----

  /** `extract_columns`, keeping the set in order. */
  method Extract(e: Expr, accum: seq<string>) returns (r: seq<string>)
    requires Unbound(e) && Increasing(accum)
    ensures r == AddColumns(e, accum) && Increasing(r)
    decreases e
  {
    match e
    case Literal(_) => r := accum;
    case Ident(x) => r := Insert(accum, x); InsertIncreasing(accum, x);
    case Alias(_, x) => r := Extract(x, accum);
    case Math(_, a, b) => r := Extract(a, accum); r := Extract(b, r);
    case Boolean(_, a, b) => r := Extract(a, accum); r := Extract(b, r);
    case Agg(_, x) => r := Extract(x, accum);
  }

  /** `extract_columns_vec`. */
  method ExtractAll(es: seq<Expr>, accum: seq<string>) returns (r: seq<string>)
    requires AllUnbound(es) && Increasing(accum)
    ensures r == AddAllColumns(es, accum) && Increasing(r)
  {
    r := accum;
    var i := 0;
    while i < |es|
      invariant 0 <= i <= |es| && r == AddAllColumns(es[..i], accum) && Increasing(r)
    {
      assert es[..i + 1][..i] == es[..i];
      r := Extract(es[i], r);
      i := i + 1;
    }
    assert es[..i] == es;
  }

  method ExtractEqs(eqs: seq<(Expr, Expr)>, accum: seq<string>) returns (r: seq<string>)
    requires EqsUnbound(eqs) && Increasing(accum)
    ensures r == AddEqColumns(eqs, accum) && Increasing(r)
  {
    r := accum;
    var i := 0;
    while i < |eqs|
      invariant 0 <= i <= |eqs| && r == AddEqColumns(eqs[..i], accum) && Increasing(r)
    {
      assert eqs[..i + 1][..i] == eqs[..i];
      assert eqs[i] in eqs;
      r := Extract(eqs[i].0, r);
      r := Extract(eqs[i].1, r);
      i := i + 1;
    }
    assert eqs[..i] == eqs;
  }

  method ExtractTests(eqs: seq<(Expr, Expr)>, f: Option<Expr>, accum: seq<string>) returns (r: seq<string>)
    requires EqsUnbound(eqs) && OptionUnbound(f) && Increasing(accum)
    ensures r == AddOptionColumns(f, AddEqColumns(eqs, accum)) && Increasing(r)
  {
    r := ExtractEqs(eqs, accum);
    if f.Some? {
      r := Extract(f.value, r);
    }
  }

  /** The new projection of a scan, in the order of the name set. */
  method NewProjection(names: seq<string>, schema: seq<string>) returns (r: seq<Expr>)
    ensures r == Kept(names, schema)
  {
    r := [];
    var i := 0;
    while i < |names|
      invariant 0 <= i <= |names| && r == Kept(names[..i], schema)
    {
      assert names[..i + 1][..i] == names[..i];
      if names[i] in schema {
        r := r + [Ident(names[i])];
      }
      i := i + 1;
    }
    assert names[..i] == names;
  }

  // ----- the rule -----

  /** `pushdown`: builds a new plan with narrowed scans and passes the grown name set on. */
  method Pushdown(lp: Plan<LogicalOp>, n: nat, ghost q: Query, names: seq<string>, catalog: Catalog)
    returns (out: Plan<LogicalOp>, after: seq<string>)
    requires At(lp, n, q) && WellFormed(q, catalog) && Increasing(names)
    ensures fresh(out) && fresh(out.dataflow) && out.Is(ToTree(Narrow(q, names, catalog)))
    ensures after == Collect(q, names) && Increasing(after)
    decreases q
  {
    var op, children := Look(lp, n, q);
    match op
    case Scan(c, f, _) =>
      out := NarrowScan(c, f, names, catalog);
      after := names;
    case Project(ids) =>
      var wanted := ExtractAll(ids, names);
      out, after := PushdownUnder(lp, children[0], q, op, names, wanted, catalog);
    case Filter(p) =>
      var wanted := Extract(p, names);
      out, after := PushdownUnder(lp, children[0], q, op, names, wanted, catalog);
    case Aggregate(fs, gs, _) =>
      var wanted := ExtractAll(fs, names);
      wanted := ExtractAll(gs, wanted);
      out, after := PushdownUnder(lp, children[0], q, op, names, wanted, catalog);
    case Sort(ks) =>
      var wanted := ExtractKeys(ks, names);
      out, after := PushdownUnder(lp, children[0], q, op, names, wanted, catalog);
    case Join(es, f) =>
      var wanted := ExtractTests(es, f, names);
      out, after := PushdownSides(lp, children[0], children[1], q, op, names, wanted, catalog);
    case CrossProduct(_) =>
      out, after := PushdownSides(lp, children[0], children[1], q, op, names, names, catalog);
  }

  method ExtractKeys(ks: seq<(Expr, bool)>, accum: seq<string>) returns (r: seq<string>)
    requires (forall k :: k in ks ==> Unbound(k.0)) && Increasing(accum)
    ensures r == AddAllColumns(SortKeys(ks), accum) && Increasing(r)
  {
    forall e | e in SortKeys(ks) ensures Unbound(e) {
      var i :| 0 <= i < |ks| && SortKeys(ks)[i] == e;
      assert ks[i] in ks;
    }
    r := ExtractAll(SortKeys(ks), accum);
  }

  method NarrowScan(c: ContainerId, f: Option<Expr>, names: seq<string>, catalog: Catalog)
    returns (out: Plan<LogicalOp>)
    requires c in catalog
    ensures fresh(out) && fresh(out.dataflow)
    ensures out.Is(Tree(Scan(c, f, Some(Kept(names, catalog[c]))), []))
  {
    var projection := NewProjection(names, catalog[c]);
    out := new Plan<LogicalOp>.Leaf(Scan(c, f, Some(projection)));
  }

  method PushdownUnder(lp: Plan<LogicalOp>, child: nat, ghost q: Query, op: LogicalOp, ghost names: seq<string>,
                       wanted: seq<string>, catalog: Catalog) returns (out: Plan<LogicalOp>, after: seq<string>)
    requires (q.QProject? || q.QFilter? || q.QAggregate? || q.QSort?) && op == ToTree(q).op
    requires At(lp, child, q.child) && WellFormed(q.child, catalog) && wanted == Wanted(q, names) && Increasing(wanted)
    ensures fresh(out) && fresh(out.dataflow) && out.Is(ToTree(Narrow(q, names, catalog)))
    ensures after == Collect(q, names) && Increasing(after)
    decreases q, 0
  {
    out, after := Pushdown(lp, child, q.child, wanted, catalog);
    UnaryTree(q, names, catalog);
    out.AddOver(op, ToTree(Narrow(q.child, wanted, catalog)));
  }

  lemma UnaryTree(q: Query, names: seq<string>, catalog: Catalog)
    requires q.QProject? || q.QFilter? || q.QAggregate? || q.QSort?
    ensures ToTree(Narrow(q, names, catalog))
         == Tree(ToTree(q).op, [ToTree(Narrow(q.child, Wanted(q, names), catalog))])
    ensures Collect(q, names) == Collect(q.child, Wanted(q, names))
  {
  }

  method PushdownSides(lp: Plan<LogicalOp>, left: nat, right: nat, ghost q: Query, op: LogicalOp,
                       ghost names: seq<string>, wanted: seq<string>, catalog: Catalog)
    returns (out: Plan<LogicalOp>, after: seq<string>)
    requires (q.QJoin? || q.QCross?) && op == ToTree(q).op
    requires At(lp, left, q.left) && At(lp, right, q.right)
    requires WellFormed(q.left, catalog) && WellFormed(q.right, catalog)
    requires wanted == Wanted(q, names) && Increasing(wanted)
    ensures fresh(out) && fresh(out.dataflow) && out.Is(ToTree(Narrow(q, names, catalog)))
    ensures after == Collect(q, names) && Increasing(after)
    decreases q, 0
  {
    var between, other;
    out, between := Pushdown(lp, left, q.left, wanted, catalog);
    other, after := Pushdown(lp, right, q.right, between, catalog);
    BinaryTree(q, names, catalog);
    out.Merge(op, other, ToTree(Narrow(q.left, wanted, catalog)), ToTree(Narrow(q.right, between, catalog)));
  }

  lemma BinaryTree(q: Query, names: seq<string>, catalog: Catalog)
    requires q.QJoin? || q.QCross?
    ensures var w := Wanted(q, names);
      && ToTree(Narrow(q, names, catalog))
         == Tree(ToTree(q).op,
                 [ToTree(Narrow(q.left, w, catalog)), ToTree(Narrow(q.right, Collect(q.left, w), catalog))])
      && Collect(q, names) == Collect(q.right, Collect(q.left, w))
  {
  }

  /** `apply`: over every database with that catalog, the new plan means what the plan means exactly when the
      cross product filters are covered or the plan returns what it returns over empty tables. */
  method Apply(plan: Plan<LogicalOp>, ghost q: Query, catalog: Catalog) returns (out: Plan<LogicalOp>)
    requires plan.Is(ToTree(q)) && WellFormed(q, catalog)
    ensures fresh(out) && out.Is(ToTree(Narrow(q, [], catalog)))
    ensures Narrowable(q, catalog) && Fixed(q) ==>
              forall db :: Relational.Valid(db) && db.catalog == catalog ==>
                             KeptExactly(q, Narrow(q, [], catalog), Covered(q, [], catalog), db)
  {
    var after;
    out, after := Pushdown(plan, plan.root.value, q, [], catalog);
    if Narrowable(q, catalog) && Fixed(q) {
      ExactEverywhere(q, catalog);
    }
  }

  lemma ExactEverywhere(q: Query, catalog: Catalog)
    requires Narrowable(q, catalog) && Fixed(q)
    ensures forall db :: Relational.Valid(db) && db.catalog == catalog ==>
                           KeptExactly(q, Narrow(q, [], catalog), Covered(q, [], catalog), db)
  {
    forall db | Relational.Valid(db) && db.catalog == catalog
      ensures KeptExactly(q, Narrow(q, [], catalog), Covered(q, [], catalog), db)
    {
      NarrowExact(q, db);
    }
  }
}
