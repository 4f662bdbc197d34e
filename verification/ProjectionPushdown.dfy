/** The projection pushdown rule on plan trees, and exactly when it keeps the
    meaning of a plan. */
module ProjectionPushdown {
  import opened Options
  import opened Fields
  import opened Ast
  import opened Relational
  import opened PredicatePushdown

  // ----- ordered name sets -----

  predicate Increasing(names: seq<string>) {
    forall i, j :: 0 <= i < j < |names| ==> StringLess(names[i], names[j])
  }

  function NameSet(names: seq<string>): set<string> { set x | x in names }

  /** Insertion into an ordered set kept as an increasing sequence. */
  function Insert(names: seq<string>, x: string): (r: seq<string>)
    ensures NameSet(r) == NameSet(names) + {x}
  {
    if names == [] then [x]
    else if names[0] == x then names
    else if StringLess(x, names[0]) then [x] + names
    else
      var r := [names[0]] + Insert(names[1..], x);
      assert names == [names[0]] + names[1..];
      assert NameSet(r) == {names[0]} + NameSet(Insert(names[1..], x));
      r
  }

  lemma {:induction false} InsertIncreasing(names: seq<string>, x: string)
    requires Increasing(names)
    ensures Increasing(Insert(names, x))
  {
    if names != [] && names[0] != x {
      if StringLess(x, names[0]) {
        ConsIncreasing(x, names);
      } else {
        StringLessTotal(x, names[0]);
        InsertIncreasing(names[1..], x);
        var rest := Insert(names[1..], x);
        assert rest[0] in NameSet(rest);
        ConsIncreasing(names[0], rest);
      }
    }
  }

  lemma ConsIncreasing(x: string, names: seq<string>)
    requires Increasing(names) && (names != [] ==> StringLess(x, names[0]))
    ensures Increasing([x] + names)
  {
    var r := [x] + names;
    forall i, j | 0 <= i < j < |r| ensures StringLess(r[i], r[j]) {
      assert r[j] == names[j - 1];
      if i == 0 && j > 1 {
        StringLessTransitive(x, names[0], names[j - 1]);
      }
    }
  }

  /** `extract_columns` into an ordered set. */
  function AddColumns(e: Expr, names: seq<string>): (r: seq<string>)
    ensures NameSet(r) == NameSet(names) + Columns(e)
  {
    match e
    case Literal(_) => names
    case Ident(x) => Insert(names, x)
    case Alias(_, x) => AddColumns(x, names)
    case Math(_, a, b) => AddColumns(b, AddColumns(a, names))
    case Boolean(_, a, b) => AddColumns(b, AddColumns(a, names))
    case Agg(_, x) => AddColumns(x, names)
    case ColIdx(_) => names
  }

  /** `extract_columns_vec`. */
  function AddAllColumns(es: seq<Expr>, names: seq<string>): (r: seq<string>)
    ensures NameSet(r) == NameSet(names) + ColumnsOfAll(es)
  {
    if es == [] then names else AddColumns(es[|es| - 1], AddAllColumns(es[..|es| - 1], names))
  }

  function AddEqColumns(eqs: seq<(Expr, Expr)>, names: seq<string>): (r: seq<string>)
    ensures NameSet(r) == NameSet(names) + ColumnsOfAll(EqPreds(eqs))
  {
    if eqs == [] then names
    else
      var last := eqs[|eqs| - 1];
      assert EqPreds(eqs)[..|eqs| - 1] == EqPreds(eqs[..|eqs| - 1]);
      AddColumns(last.1, AddColumns(last.0, AddEqColumns(eqs[..|eqs| - 1], names)))
  }

  function AddOptionColumns(o: Option<Expr>, names: seq<string>): (r: seq<string>)
    ensures NameSet(r) == NameSet(names) + ColumnsOfAll(OptPreds(o))
  {
    if o.None? then names
    else
      assert OptPreds(o)[..0] == [] && OptPreds(o)[0] == o.value;
      AddColumns(o.value, names)
  }

  // ----- the rule -----

  /** The names at hand when the rule goes below a node. */
  function Wanted(q: Query, names: seq<string>): (r: seq<string>)
    ensures NameSet(names) <= NameSet(r)
  {
    match q
    case QScan(_, _, _) => names
    case QProject(ids, _) => AddAllColumns(ids, names)
    case QFilter(p, _) => AddColumns(p, names)
    case QAggregate(fs, gs, _, _) => AddAllColumns(gs, AddAllColumns(fs, names))
    case QJoin(es, f, _, _) => AddOptionColumns(f, AddEqColumns(es, names))
    case QCross(_, _, _) => names
    case QSort(ks, _) => AddAllColumns(SortKeys(ks), names)
  }

  /** The names after a whole plan has been visited. */
  function Collect(q: Query, names: seq<string>): (r: seq<string>)
    ensures NameSet(names) <= NameSet(r)
    decreases q
  {
    match q
    case QScan(_, _, _) => names
    case QProject(_, c) => Collect(c, Wanted(q, names))
    case QFilter(_, c) => Collect(c, Wanted(q, names))
    case QAggregate(_, _, _, c) => Collect(c, Wanted(q, names))
    case QJoin(_, _, l, r) => Collect(r, Collect(l, Wanted(q, names)))
    case QCross(_, l, r) => Collect(r, Collect(l, Wanted(q, names)))
    case QSort(_, c) => Collect(c, Wanted(q, names))
  }

  /** The names of a schema, as a projection. */
  function Kept(names: seq<string>, schema: seq<string>): (r: seq<Expr>)
    ensures forall e :: e in r ==> e.Ident? && e.name in names && e.name in schema
    ensures forall x :: x in names && x in schema ==> Ident(x) in r
  {
    if names == [] then []
    else
      Kept(names[..|names| - 1], schema)
      + if names[|names| - 1] in schema then [Ident(names[|names| - 1])] else []
  }

  /** `pushdown`: every scan delivers only the wanted columns; the right side of a join sees what the left
      side wanted; the filter of a cross product and the having clause want nothing. */
  function Narrow(q: Query, names: seq<string>, catalog: Catalog): Query
    decreases q
  {
    match q
    case QScan(c, f, _) => QScan(c, f, Some(Kept(names, if c in catalog then catalog[c] else [])))
    case QProject(ids, c) => QProject(ids, Narrow(c, Wanted(q, names), catalog))
    case QFilter(p, c) => QFilter(p, Narrow(c, Wanted(q, names), catalog))
    case QAggregate(fs, gs, h, c) => QAggregate(fs, gs, h, Narrow(c, Wanted(q, names), catalog))
    case QJoin(es, f, l, r) =>
      QJoin(es, f, Narrow(l, Wanted(q, names), catalog), Narrow(r, Collect(l, Wanted(q, names)), catalog))
    case QCross(f, l, r) =>
      QCross(f, Narrow(l, Wanted(q, names), catalog), Narrow(r, Collect(l, Wanted(q, names)), catalog))
    case QSort(ks, c) => QSort(ks, Narrow(c, Wanted(q, names), catalog))
  }

  /** The columns a plan mentions, except in having clauses, scans and the filters of cross products. */
  function Mentioned(q: Query): set<string> {
    match q
    case QScan(_, _, _) => {}
    case QProject(ids, c) => ColumnsOfAll(ids) + Mentioned(c)
    case QFilter(p, c) => Columns(p) + Mentioned(c)
    case QAggregate(fs, gs, _, c) => ColumnsOfAll(fs) + ColumnsOfAll(gs) + Mentioned(c)
    case QJoin(es, f, l, r) => ColumnsOfAll(EqPreds(es)) + ColumnsOfAll(OptPreds(f)) + Mentioned(l) + Mentioned(r)
    case QCross(_, l, r) => Mentioned(l) + Mentioned(r)
    case QSort(ks, c) => ColumnsOfAll(SortKeys(ks)) + Mentioned(c)
  }

  /** The names collected from a plan are exactly these. */
  lemma {:induction false} CollectExact(q: Query, names: seq<string>)
    ensures NameSet(Collect(q, names)) == NameSet(names) + Mentioned(q)
    decreases q
  {
    var w := Wanted(q, names);
    match q
    case QScan(_, _, _) =>
    case QProject(_, c) => CollectExact(c, w);
    case QFilter(_, c) => CollectExact(c, w);
    case QAggregate(_, _, _, c) => CollectExact(c, w);
    case QJoin(_, _, l, r) => CollectExact(l, w); CollectExact(r, Collect(l, w));
    case QCross(_, l, r) => CollectExact(l, w); CollectExact(r, Collect(l, w));
    case QSort(_, c) => CollectExact(c, w);
  }

  /** A narrowed scan lists its columns in increasing order. */
  lemma {:induction false} KeptIncreasing(names: seq<string>, schema: seq<string>, literalName: Field -> string)
    requires Increasing(names)
    ensures Increasing(Names(Kept(names, schema), literalName))
  {
    if names != [] {
      var n := |names| - 1;
      var front := Kept(names[..n], schema);
      KeptIncreasing(names[..n], schema, literalName);
      if names[n] in schema {
        forall i | 0 <= i < |front| ensures StringLess(ToName(front[i], literalName), names[n]) {
          assert front[i] in front;
        }
        var last := Ident(names[n]);
        assert Names(front + [last], literalName) == Names(front, literalName) + [names[n]];
      } else {
        assert front + [] == front;
      }
    }
  }

  // ----- rows that agree -----

  /** The narrow row `b` has the cells of the wide row `a`. */
  ghost predicate RowsAgree(s: seq<string>, a: Row, t: seq<string>, b: Row) {
    |a| == |s| && |b| == |t| && forall c :: c in t ==> CellOf(s, a, c) == CellOf(t, b, c)
  }

  ghost predicate Agree(s: seq<string>, xs: seq<Row>, t: seq<string>, ys: seq<Row>) {
    |xs| == |ys| && forall i :: 0 <= i < |xs| ==> RowsAgree(s, xs[i], t, ys[i])
  }

  /** The narrow schema is part of the wide one and has what `columns` wants of it. */
  predicate Covers(s: seq<string>, t: seq<string>, columns: set<string>) {
    NameSet(t) <= NameSet(s) && forall c :: c in columns && c in s ==> c in t
  }

  lemma SameValue(e: Expr, s: seq<string>, a: Row, t: seq<string>, b: Row)
    requires Unbound(e) && RowsAgree(s, a, t, b) && Covers(s, t, Columns(e))
    ensures EvalNamed(e, s, a) == EvalNamed(e, t, b)
  {
    forall c | c in Columns(e) ensures CellOf(s, a, c) == CellOf(t, b, c) {
      if c !in t {
        assert c !in s;
      }
    }
    EvalNamedAgree(e, s, a, t, b);
  }

  lemma {:induction false} ColumnsAmong(es: seq<Expr>, i: nat)
    requires i < |es|
    ensures Columns(es[i]) <= ColumnsOfAll(es)
  {
    if i < |es| - 1 {
      ColumnsAmong(es[..|es| - 1], i);
    }
  }

  lemma CoversFewer(s: seq<string>, t: seq<string>, columns: set<string>, fewer: set<string>)
    requires Covers(s, t, columns) && fewer <= columns
    ensures Covers(s, t, fewer)
  {
  }

  lemma SameValues(es: seq<Expr>, s: seq<string>, a: Row, t: seq<string>, b: Row)
    requires AllUnbound(es) && RowsAgree(s, a, t, b) && Covers(s, t, ColumnsOfAll(es))
    ensures EvalAll(es, s, a) == EvalAll(es, t, b)
  {
    forall i | 0 <= i < |es| ensures EvalNamed(es[i], s, a) == EvalNamed(es[i], t, b) {
      ColumnsAmong(es, i);
      CoversFewer(s, t, ColumnsOfAll(es), Columns(es[i]));
      SameValue(es[i], s, a, t, b);
    }
  }

  lemma SameKept(ps: seq<Expr>, s: seq<string>, a: Row, t: seq<string>, b: Row)
    requires AllUnbound(ps) && RowsAgree(s, a, t, b) && Covers(s, t, ColumnsOfAll(ps))
    ensures KeepsAll(ps, s, a) <==> KeepsAll(ps, t, b)
  {
    SameValues(ps, s, a, t, b);
    forall i | 0 <= i < |ps| ensures Keeps(ps[i], s, a) <==> Keeps(ps[i], t, b) {
      assert EvalAll(ps, s, a)[i] == EvalAll(ps, t, b)[i];
    }
  }

  lemma {:induction false} FilterAgrees(ps: seq<Expr>, s: seq<string>, xs: seq<Row>, t: seq<string>, ys: seq<Row>)
    requires AllUnbound(ps) && Agree(s, xs, t, ys) && Covers(s, t, ColumnsOfAll(ps))
    ensures Agree(s, FilterRows(ps, s, xs), t, FilterRows(ps, t, ys))
    decreases |xs|
  {
    if xs != [] {
      SameKept(ps, s, xs[0], t, ys[0]);
      FilterAgrees(ps, s, xs[1..], t, ys[1..]);
    }
  }

  lemma ProjectAgrees(es: seq<Expr>, s: seq<string>, xs: seq<Row>, t: seq<string>, ys: seq<Row>)
    requires AllUnbound(es) && Agree(s, xs, t, ys) && Covers(s, t, ColumnsOfAll(es))
    ensures ProjectRows(es, s, xs) == ProjectRows(es, t, ys)
  {
    forall i | 0 <= i < |xs| ensures EvalAll(es, s, xs[i]) == EvalAll(es, t, ys[i]) {
      SameValues(es, s, xs[i], t, ys[i]);
    }
  }

  lemma {:induction false} PickAgrees(s: seq<string>, xs: seq<Row>, t: seq<string>, ys: seq<Row>, positions: seq<nat>)
    requires Agree(s, xs, t, ys)
    ensures Agree(s, Pick(xs, positions), t, Pick(ys, positions))
    decreases |positions|
  {
    if positions != [] {
      PickAgrees(s, xs, t, ys, positions[1..]);
    }
  }

  // ----- joins -----

  lemma PairAgrees(sl: seq<string>, sr: seq<string>, tl: seq<string>, tr: seq<string>, a: Row, b: Row, x: Row, y: Row)
    requires RowsAgree(sl, a, tl, x) && RowsAgree(sr, b, tr, y)
    requires NameSet(sl) !! NameSet(sr) && NameSet(tl) <= NameSet(sl) && NameSet(tr) <= NameSet(sr)
    ensures RowsAgree(sl + sr, a + b, tl + tr, x + y)
  {
    forall c | c in tl + tr ensures CellOf(sl + sr, a + b, c) == CellOf(tl + tr, x + y, c) {
      if c in tl {
        assert c in NameSet(tl) && c in sl;
        IndexLeft(tl, tr, c);
        IndexLeft(sl, sr, c);
        assert CellOf(sl, a, c) == CellOf(tl, x, c);
      } else {
        assert c in NameSet(tr) && c in NameSet(sr) && c !in NameSet(sl);
        IndexRight(tl, tr, c);
        IndexRight(sl, sr, c);
        assert CellOf(sr, b, c) == CellOf(tr, y, c);
      }
    }
  }

  lemma PairsAgree(sl: seq<string>, sr: seq<string>, tl: seq<string>, tr: seq<string>,
                   a: Row, bs: seq<Row>, x: Row, ys: seq<Row>)
    requires RowsAgree(sl, a, tl, x) && Agree(sr, bs, tr, ys)
    requires NameSet(sl) !! NameSet(sr) && NameSet(tl) <= NameSet(sl) && NameSet(tr) <= NameSet(sr)
    ensures Agree(sl + sr, PairRows(a, bs), tl + tr, PairRows(x, ys))
  {
    forall i | 0 <= i < |bs| ensures RowsAgree(sl + sr, PairRows(a, bs)[i], tl + tr, PairRows(x, ys)[i]) {
      PairAgrees(sl, sr, tl, tr, a, bs[i], x, ys[i]);
    }
  }

  lemma AgreeConcat(s: seq<string>, a: seq<Row>, b: seq<Row>, t: seq<string>, x: seq<Row>, y: seq<Row>)
    requires Agree(s, a, t, x) && Agree(s, b, t, y)
    ensures Agree(s, a + b, t, x + y)
  {
  }

  lemma {:induction false} ProductAgrees(
      sl: seq<string>, sr: seq<string>, tl: seq<string>, tr: seq<string>,
      a: seq<Row>, b: seq<Row>, x: seq<Row>, y: seq<Row>)
    requires Agree(sl, a, tl, x) && Agree(sr, b, tr, y)
    requires NameSet(sl) !! NameSet(sr) && NameSet(tl) <= NameSet(sl) && NameSet(tr) <= NameSet(sr)
    ensures Agree(sl + sr, Product(a, b), tl + tr, Product(x, y))
    decreases |a|
  {
    if a != [] {
      ProductAgrees(sl, sr, tl, tr, a[1..], b, x[1..], y);
      PairsAgree(sl, sr, tl, tr, a[0], b, x[0], y);
      AgreeConcat(sl + sr, PairRows(a[0], b), Product(a[1..], b), tl + tr, PairRows(x[0], y), Product(x[1..], y));
    }
  }

  lemma {:induction false} NoRightRows(ls: seq<Row>)
    ensures Product(ls, []) == []
  {
    if ls != [] {
      NoRightRows(ls[1..]);
      assert PairRows(ls[0], []) == [];
    }
  }

  // ----- groups -----

  lemma {:induction false} KeysAgree(gs: seq<Expr>, s: seq<string>, xs: seq<Row>, t: seq<string>, ys: seq<Row>)
    requires AllUnbound(gs) && Agree(s, xs, t, ys) && Covers(s, t, ColumnsOfAll(gs))
    ensures GroupKeys(gs, s, xs) == GroupKeys(gs, t, ys)
    decreases |xs|
  {
    if xs != [] {
      var n := |xs| - 1;
      KeysAgree(gs, s, xs[..n], t, ys[..n]);
      SameValues(gs, s, xs[n], t, ys[n]);
    }
  }

  lemma {:induction false} GroupsAgree(
      gs: seq<Expr>, s: seq<string>, xs: seq<Row>, t: seq<string>, ys: seq<Row>, key: Row)
    requires AllUnbound(gs) && Agree(s, xs, t, ys) && Covers(s, t, ColumnsOfAll(gs))
    ensures Agree(s, GroupRows(gs, s, xs, key), t, GroupRows(gs, t, ys, key))
    decreases |xs|
  {
    if xs != [] {
      var n := |xs| - 1;
      GroupsAgree(gs, s, xs[..n], t, ys[..n], key);
      SameValues(gs, s, xs[n], t, ys[n]);
      AgreeNext(s, GroupRows(gs, s, xs[..n], key), xs[n], t, GroupRows(gs, t, ys[..n], key), ys[n]);
    }
  }

  lemma AgreeNext(s: seq<string>, xs: seq<Row>, x: Row, t: seq<string>, ys: seq<Row>, y: Row)
    requires Agree(s, xs, t, ys) && RowsAgree(s, x, t, y)
    ensures Agree(s, xs + [x], t, ys + [y]) && xs + [] == xs && ys + [] == ys
  {
  }

  lemma CellsAgree(fs: seq<Expr>, s: seq<string>, xs: seq<Row>, t: seq<string>, ys: seq<Row>, db: Database)
    requires AllUnbound(fs) && Agree(s, xs, t, ys) && Covers(s, t, ColumnsOfAll(fs))
    ensures AggregateCells(fs, s, xs, db) == AggregateCells(fs, t, ys, db)
  {
    forall i | 0 <= i < |fs| ensures AggregateCell(fs[i], s, xs, db) == AggregateCell(fs[i], t, ys, db) {
      ColumnsAmong(fs, i);
      assert fs[i] in fs;
      if fs[i].Agg? {
        CoversFewer(s, t, ColumnsOfAll(fs), Columns(fs[i].e));
        ColumnAgrees(fs[i].e, s, xs, t, ys);
      }
    }
  }

  lemma ColumnAgrees(e: Expr, s: seq<string>, xs: seq<Row>, t: seq<string>, ys: seq<Row>)
    requires Unbound(e) && Agree(s, xs, t, ys) && Covers(s, t, Columns(e))
    ensures EvalColumn(e, s, xs) == EvalColumn(e, t, ys)
  {
    forall i | 0 <= i < |xs| ensures EvalNamed(e, s, xs[i]) == EvalNamed(e, t, ys[i]) {
      SameValue(e, s, xs[i], t, ys[i]);
    }
  }

  lemma OutputsAgree(q: Query, p: Query, s: seq<string>, xs: seq<Row>, t: seq<string>, ys: seq<Row>, db: Database)
    requires q.QAggregate? && p.QAggregate? && p.fields == q.fields && p.groupBy == q.groupBy
    requires AllUnbound(q.fields) && AllUnbound(q.groupBy) && Agree(s, xs, t, ys)
    requires Covers(s, t, ColumnsOfAll(q.fields)) && Covers(s, t, ColumnsOfAll(q.groupBy))
    ensures AggregateRows(q, s, xs, db) == AggregateRows(p, t, ys, db)
  {
    KeysAgree(q.groupBy, s, xs, t, ys);
    forall key ensures GroupOutput(q, s, xs, key, db) == GroupOutput(p, t, ys, key, db) {
      GroupsAgree(q.groupBy, s, xs, t, ys, key);
      CellsAgree(q.fields, s, GroupRows(q.groupBy, s, xs, key), t, GroupRows(q.groupBy, t, ys, key), db);
    }
  }

  // ----- plans -----

  /** Scans without projection, filters and joins of sides with different column names; over them
      aggregates, projections, filters and sorts. */
  predicate Narrowable(q: Query, catalog: Catalog) {
    match q
    case QScan(c, f, p) => c in catalog && p.None?
    case QProject(ids, c) => AllUnbound(ids) && Narrowable(c, catalog)
    case QFilter(p, c) => Unbound(p) && Narrowable(c, catalog)
    case QAggregate(fs, gs, _, c) => AllUnbound(fs) && AllUnbound(gs) && Narrowable(c, catalog)
    case QJoin(es, f, l, r) =>
      EqsUnbound(es) && OptionUnbound(f) && Narrowable(l, catalog) && Narrowable(r, catalog) && Apart(l, r, catalog)
    case QCross(f, l, r) =>
      OptionUnbound(f) && Narrowable(l, catalog) && Narrowable(r, catalog) && Apart(l, r, catalog)
    case QSort(ks, c) => AllUnbound(SortKeys(ks)) && Narrowable(c, catalog)
  }

  predicate Apart(l: Query, r: Query, catalog: Catalog) {
    Plain(l) && Plain(r) && PlanColumns(l, catalog) !! PlanColumns(r, catalog)
  }

  /** No projection and no aggregate: the columns of the result are those of the scans. */
  predicate Plain(q: Query) {
    match q
    case QScan(_, _, _) => true
    case QProject(_, _) => false
    case QFilter(_, c) => Plain(c)
    case QAggregate(_, _, _, _) => false
    case QJoin(_, _, l, r) => Plain(l) && Plain(r)
    case QCross(_, l, r) => Plain(l) && Plain(r)
    case QSort(_, c) => Plain(c)
  }

  /** The output is that of a projection or an aggregate. */
  predicate Fixed(q: Query) {
    match q
    case QProject(_, _) => true
    case QAggregate(_, _, _, _) => true
    case QFilter(_, c) => Fixed(c)
    case QSort(_, c) => Fixed(c)
    case _ => false
  }

  /** Every column a cross product's filter finds in the sides survives in the narrowed sides. */
  predicate Covered(q: Query, names: seq<string>, catalog: Catalog)
    decreases q
  {
    match q
    case QScan(_, _, _) => true
    case QProject(_, c) => Covered(c, Wanted(q, names), catalog)
    case QFilter(_, c) => Covered(c, Wanted(q, names), catalog)
    case QAggregate(_, _, _, c) => Covered(c, Wanted(q, names), catalog)
    case QJoin(_, _, l, r) => Covered(l, Wanted(q, names), catalog) && Covered(r, Collect(l, Wanted(q, names)), catalog)
    case QCross(f, l, r) =>
      && Covered(l, Wanted(q, names), catalog) && Covered(r, Collect(l, Wanted(q, names)), catalog)
      && ColumnsOfAll(OptPreds(f)) * PlanColumns(q, catalog) <= PlanColumns(Narrow(q, names, catalog), catalog)
    case QSort(_, c) => Covered(c, Wanted(q, names), catalog)
  }

  // ----- schemas -----

  lemma {:induction false} IdentColumns(es: seq<Expr>, x: string)
    requires forall e :: e in es ==> e.Ident?
    ensures x in ColumnsOfAll(es) <==> Ident(x) in es
  {
    if es != [] {
      IdentColumns(es[..|es| - 1], x);
      assert es[|es| - 1] in es;
      assert es == es[..|es| - 1] + [es[|es| - 1]];
    }
  }

  lemma KeptColumns(names: seq<string>, schema: seq<string>)
    ensures ColumnsOfAll(Kept(names, schema)) == NameSet(names) * NameSet(schema)
  {
    forall x ensures x in ColumnsOfAll(Kept(names, schema)) <==> x in NameSet(names) * NameSet(schema) {
      IdentColumns(Kept(names, schema), x);
    }
  }

  lemma KeptNames(names: seq<string>, schema: seq<string>, literalName: Field -> string)
    ensures NameSet(Names(Kept(names, schema), literalName)) == NameSet(names) * NameSet(schema)
  {
    var es := Kept(names, schema);
    var t := Names(es, literalName);
    forall x | x in t ensures x in names && x in schema {
      var i :| 0 <= i < |t| && t[i] == x;
      assert es[i] in es;
    }
    forall x | x in names && x in schema ensures x in t {
      assert Ident(x) in es;
      var i :| 0 <= i < |es| && es[i] == Ident(x);
      assert t[i] == x;
    }
  }

  lemma ScanAgrees(names: seq<string>, schema: seq<string>, rows: seq<Row>, literalName: Field -> string)
    requires Wide(rows, |schema|)
    ensures var es := Kept(names, schema);
      Agree(schema, rows, Names(es, literalName), ProjectRows(es, schema, rows))
  {
    var es := Kept(names, schema);
    var t := Names(es, literalName);
    forall k | 0 <= k < |rows| ensures RowsAgree(schema, rows[k], t, EvalAll(es, schema, rows[k])) {
      forall c | c in t ensures CellOf(schema, rows[k], c) == CellOf(t, EvalAll(es, schema, rows[k]), c) {
        var i := IndexOf(t, c).value;
        assert es[i] in es && es[i] == Ident(c);
      }
    }
  }

  lemma CoversJoin(sl: seq<string>, tl: seq<string>, sr: seq<string>, tr: seq<string>, columns: set<string>)
    requires Covers(sl, tl, columns) && Covers(sr, tr, columns)
    ensures Covers(sl + sr, tl + tr, columns)
  {
    forall c | c in NameSet(tl + tr) ensures c in NameSet(sl + sr) {
      if c in tl {
        assert c in NameSet(tl) && c in NameSet(sl);
      } else {
        assert c in NameSet(tr) && c in NameSet(sr);
      }
    }
  }

  /** The narrowed schema is part of the old one and has all wanted columns of it. */
  lemma {:induction false} NarrowSchema(q: Query, names: seq<string>, db: Database)
    requires Narrowable(q, db.catalog)
    ensures Covers(Meaning(q, db).schema, Meaning(Narrow(q, names, db.catalog), db).schema, NameSet(names))
    ensures Fixed(q) ==> Meaning(q, db).schema == Meaning(Narrow(q, names, db.catalog), db).schema
    decreases q
  {
    match q
    case QScan(c, _, _) =>
      KeptNames(names, db.catalog[c], db.literalName);
      assert forall x :: x in names ==> x in NameSet(names);
    case QProject(_, c) =>
    case QFilter(_, c) => NarrowSchema(c, Wanted(q, names), db);
    case QAggregate(_, _, _, c) =>
    case QJoin(_, _, l, r) => NarrowSides(q, names, db, l, r);
    case QCross(_, l, r) => NarrowSides(q, names, db, l, r);
    case QSort(_, c) => NarrowSchema(c, Wanted(q, names), db);
  }

  lemma {:induction false} NarrowSides(q: Query, names: seq<string>, db: Database, l: Query, r: Query)
    requires (q.QJoin? || q.QCross?) && q.left == l && q.right == r && Narrowable(q, db.catalog)
    ensures Covers(Meaning(l, db).schema + Meaning(r, db).schema,
                   Meaning(Narrow(q.left, Wanted(q, names), db.catalog), db).schema
                   + Meaning(Narrow(r, Collect(l, Wanted(q, names)), db.catalog), db).schema, NameSet(Wanted(q, names)))
    decreases q, 0
  {
    var w := Wanted(q, names);
    NarrowSchema(l, w, db);
    NarrowSchema(r, Collect(l, w), db);
    CoversFewer(Meaning(r, db).schema, Meaning(Narrow(r, Collect(l, w), db.catalog), db).schema,
                NameSet(Collect(l, w)), NameSet(w));
    CoversJoin(Meaning(l, db).schema, Meaning(Narrow(l, w, db.catalog), db).schema,
               Meaning(r, db).schema, Meaning(Narrow(r, Collect(l, w), db.catalog), db).schema, NameSet(w));
  }

  /** Below projections and aggregates the columns the rules compute are those of the results. */
  lemma {:induction false} PlainColumns(q: Query, names: seq<string>, db: Database)
    requires Narrowable(q, db.catalog) && Plain(q)
    ensures PlanColumns(q, db.catalog) == NameSet(Meaning(q, db).schema)
    ensures PlanColumns(Narrow(q, names, db.catalog), db.catalog)
         == NameSet(Meaning(Narrow(q, names, db.catalog), db).schema)
    decreases q
  {
    match q
    case QScan(c, _, _) =>
      KeptNames(names, db.catalog[c], db.literalName);
      KeptColumns(names, db.catalog[c]);
    case QFilter(_, c) => PlainColumns(c, Wanted(q, names), db);
    case QJoin(_, _, l, r) =>
      PlainColumns(l, Wanted(q, names), db);
      PlainColumns(r, Collect(l, Wanted(q, names)), db);
    case QCross(_, l, r) =>
      PlainColumns(l, Wanted(q, names), db);
      PlainColumns(r, Collect(l, Wanted(q, names)), db);
    case QSort(_, c) => PlainColumns(c, Wanted(q, names), db);
  }

  // ----- rows -----

  /** What narrowing does to a relation: nothing visible, and nothing at all to a fixed output. */
  ghost predicate Faithful(q: Query, a: Rel, b: Rel) {
    Agree(a.schema, a.rows, b.schema, b.rows) && (Fixed(q) ==> a == b)
  }

  lemma FilterFaithful(q: Query, ps: seq<Expr>, a: Rel, b: Rel)
    requires Faithful(q, a, b) && AllUnbound(ps) && Covers(a.schema, b.schema, ColumnsOfAll(ps))
    ensures Faithful(q, FilterRel(ps, a), FilterRel(ps, b))
  {
    FilterAgrees(ps, a.schema, a.rows, b.schema, b.rows);
  }

  lemma OneColumns(p: Expr)
    ensures ColumnsOfAll([p]) == Columns(p)
  {
    assert [p][..0] == [];
  }

  lemma SortFaithful(q: Query, ks: seq<(Expr, bool)>, a: Rel, b: Rel, db: Database)
    requires Faithful(q, a, b) && AllUnbound(SortKeys(ks)) && Covers(a.schema, b.schema, ColumnsOfAll(SortKeys(ks)))
    ensures Faithful(q, Rel(a.schema, SortRows(ks, a.schema, a.rows, db)),
                     Rel(b.schema, SortRows(ks, b.schema, b.rows, db)))
  {
    ProjectAgrees(SortKeys(ks), a.schema, a.rows, b.schema, b.rows);
    PickAgrees(a.schema, a.rows, b.schema, b.rows,
               db.order(Ascending(ks), ProjectRows(SortKeys(ks), a.schema, a.rows)));
  }

  lemma ProjectFaithful(q: Query, ids: seq<Expr>, a: Rel, b: Rel, names: seq<string>)
    requires Agree(a.schema, a.rows, b.schema, b.rows) && |names| == |ids|
    requires AllUnbound(ids) && Covers(a.schema, b.schema, ColumnsOfAll(ids))
    ensures Faithful(q, Rel(names, ProjectRows(ids, a.schema, a.rows)), Rel(names, ProjectRows(ids, b.schema, b.rows)))
  {
    ProjectAgrees(ids, a.schema, a.rows, b.schema, b.rows);
  }

  lemma AggregateWide(q: Query, schema: seq<string>, rows: seq<Row>, db: Database)
    requires q.QAggregate?
    ensures Wide(AggregateRows(q, schema, rows, db), |AggregateSchema(q, db)|)
  {
    KeysWide(q.groupBy, schema, rows);
  }

  lemma WideAgrees(r: Rel)
    requires Wide(r.rows, |r.schema|)
    ensures Agree(r.schema, r.rows, r.schema, r.rows)
  {
  }

  lemma AggregateFaithful(q: Query, p: Query, a: Rel, b: Rel, db: Database)
    requires q.QAggregate? && p.QAggregate? && p.fields == q.fields && p.groupBy == q.groupBy && p.having == q.having
    requires Agree(a.schema, a.rows, b.schema, b.rows) && AllUnbound(q.fields) && AllUnbound(q.groupBy)
    requires Covers(a.schema, b.schema, ColumnsOfAll(q.fields) + ColumnsOfAll(q.groupBy))
    ensures var schema := AggregateSchema(q, db);
      Faithful(q, FilterRel(OptPreds(q.having), Rel(schema, AggregateRows(q, a.schema, a.rows, db))),
               FilterRel(OptPreds(p.having), Rel(AggregateSchema(p, db), AggregateRows(p, b.schema, b.rows, db))))
  {
    CoversFewer(a.schema, b.schema, ColumnsOfAll(q.fields) + ColumnsOfAll(q.groupBy), ColumnsOfAll(q.fields));
    CoversFewer(a.schema, b.schema, ColumnsOfAll(q.fields) + ColumnsOfAll(q.groupBy), ColumnsOfAll(q.groupBy));
    OutputsAgree(q, p, a.schema, a.rows, b.schema, b.rows, db);
    var rows := AggregateRows(q, a.schema, a.rows, db);
    AggregateWide(q, a.schema, a.rows, db);
    FilterWide(OptPreds(q.having), AggregateSchema(q, db), rows, |AggregateSchema(q, db)|);
    WideAgrees(FilterRel(OptPreds(q.having), Rel(AggregateSchema(q, db), rows)));
  }

  lemma JoinFaithful(ps: seq<Expr>, a: Rel, b: Rel, x: Rel, y: Rel)
    requires Agree(a.schema, a.rows, x.schema, x.rows) && Agree(b.schema, b.rows, y.schema, y.rows)
    requires NameSet(a.schema) !! NameSet(b.schema)
    requires NameSet(x.schema) <= NameSet(a.schema) && NameSet(y.schema) <= NameSet(b.schema)
    requires AllUnbound(ps) && Covers(a.schema + b.schema, x.schema + y.schema, ColumnsOfAll(ps))
    ensures Agree(a.schema + b.schema, JoinRel(ps, a, b).rows, x.schema + y.schema, JoinRel(ps, x, y).rows)
  {
    ProductAgrees(a.schema, b.schema, x.schema, y.schema, a.rows, b.rows, x.rows, y.rows);
    FilterAgrees(ps, a.schema + b.schema, Product(a.rows, b.rows), x.schema + y.schema, Product(x.rows, y.rows));
  }

  lemma {:induction false} ColumnsConcat(a: seq<Expr>, b: seq<Expr>)
    ensures ColumnsOfAll(a + b) == ColumnsOfAll(a) + ColumnsOfAll(b)
    decreases |b|
  {
    if b == [] {
      assert a + b == a;
    } else {
      ColumnsConcat(a, b[..|b| - 1]);
      assert (a + b)[..|a + b| - 1] == a + b[..|b| - 1];
    }
  }

  /** The columns of the join's own tests, as far as the sides have them, are in the narrowed sides. */
  predicate TestsCovered(q: Query, names: seq<string>, catalog: Catalog)
    requires q.QJoin? || q.QCross?
  {
    q.QCross? ==>
      ColumnsOfAll(OptPreds(q.cfilter)) * PlanColumns(q, catalog) <= PlanColumns(Narrow(q, names, catalog), catalog)
  }

  function Tests(q: Query): seq<Expr>
    requires q.QJoin? || q.QCross?
  {
    if q.QJoin? then EqPreds(q.eqs) + OptPreds(q.jfilter) else OptPreds(q.cfilter)
  }

  lemma TestColumns(q: Query, names: seq<string>, db: Database)
    requires (q.QJoin? || q.QCross?) && Narrowable(q, db.catalog) && TestsCovered(q, names, db.catalog)
    ensures AllUnbound(Tests(q))
    ensures Covers(Meaning(q, db).schema, Meaning(Narrow(q, names, db.catalog), db).schema, ColumnsOfAll(Tests(q)))
  {
    NarrowSides(q, names, db, q.left, q.right);
    var s, t := Meaning(q, db).schema, Meaning(Narrow(q, names, db.catalog), db).schema;
    if q.QJoin? {
      EqPredsUnbound(q.eqs);
      ColumnsConcat(EqPreds(q.eqs), OptPreds(q.jfilter));
      CoversFewer(s, t, NameSet(Wanted(q, names)), ColumnsOfAll(Tests(q)));
    } else {
      PlainColumns(q, names, db);
      forall c | c in ColumnsOfAll(Tests(q)) && c in s ensures c in t {
        assert c in NameSet(s);
        assert c in NameSet(t);
      }
    }
  }

  lemma {:induction false} NarrowJoin(q: Query, names: seq<string>, db: Database)
    requires Valid(db) && (q.QJoin? || q.QCross?) && Narrowable(q, db.catalog) && Covered(q, names, db.catalog)
    ensures Faithful(q, Meaning(q, db), Meaning(Narrow(q, names, db.catalog), db))
    decreases q, 0
  {
    var w := Wanted(q, names);
    var w2 := Collect(q.left, w);
    var a, b := Meaning(q.left, db), Meaning(q.right, db);
    var x, y := Meaning(Narrow(q.left, w, db.catalog), db), Meaning(Narrow(q.right, w2, db.catalog), db);
    NarrowRows(q.left, w, db);
    NarrowRows(q.right, w2, db);
    NarrowSchema(q.left, w, db);
    NarrowSchema(q.right, w2, db);
    PlainColumns(q.left, w, db);
    PlainColumns(q.right, w2, db);
    TestColumns(q, names, db);
    JoinFaithful(Tests(q), a, b, x, y);
  }

  lemma {:induction false} NarrowRows(q: Query, names: seq<string>, db: Database)
    requires Valid(db) && Narrowable(q, db.catalog) && Covered(q, names, db.catalog)
    ensures Faithful(q, Meaning(q, db), Meaning(Narrow(q, names, db.catalog), db))
    decreases q
  {
    var w := Wanted(q, names);
    match q
    case QScan(c, f, _) =>
      FilterWide(OptPreds(f), db.catalog[c], db.tables[c], |db.catalog[c]|);
      ScanAgrees(names, db.catalog[c], FilterRows(OptPreds(f), db.catalog[c], db.tables[c]), db.literalName);
    case QProject(ids, c) =>
      NarrowRows(c, w, db);
      NarrowSchema(c, w, db);
      var a, b := Meaning(c, db), Meaning(Narrow(c, w, db.catalog), db);
      CoversFewer(a.schema, b.schema, NameSet(w), ColumnsOfAll(ids));
      ProjectFaithful(q, ids, a, b, Names(ids, db.literalName));
    case QFilter(p, c) =>
      NarrowRows(c, w, db);
      NarrowSchema(c, w, db);
      var a, b := Meaning(c, db), Meaning(Narrow(c, w, db.catalog), db);
      OneColumns(p);
      CoversFewer(a.schema, b.schema, NameSet(w), ColumnsOfAll([p]));
      FilterFaithful(c, [p], a, b);
    case QAggregate(fs, gs, h, c) =>
      NarrowRows(c, w, db);
      NarrowSchema(c, w, db);
      var a, b := Meaning(c, db), Meaning(Narrow(c, w, db.catalog), db);
      CoversFewer(a.schema, b.schema, NameSet(w), ColumnsOfAll(fs) + ColumnsOfAll(gs));
      AggregateFaithful(q, Narrow(q, names, db.catalog), a, b, db);
    case QJoin(_, _, _, _) => NarrowJoin(q, names, db);
    case QCross(_, _, _) => NarrowJoin(q, names, db);
    case QSort(ks, c) =>
      NarrowRows(c, w, db);
      NarrowSchema(c, w, db);
      var a, b := Meaning(c, db), Meaning(Narrow(c, w, db.catalog), db);
      CoversFewer(a.schema, b.schema, NameSet(w), ColumnsOfAll(SortKeys(ks)));
      SortFaithful(c, ks, a, b, db);
  }

  // ----- uncovered cross products -----

  lemma {:induction false} NothingKept(f: Expr, s: seq<string>, rows: seq<Row>, c: string)
    requires Unbound(f) && c in Columns(f) && c !in s
    ensures FilterRows([f], s, rows) == []
  {
    if rows != [] {
      NothingKept(f, s, rows[1..], c);
      EvalNamedMissing(f, s, rows[0], c);
      KeepsOne(f, s, rows[0]);
    }
  }

  lemma {:induction false} NothingPicked(positions: seq<nat>)
    ensures Pick([], positions) == []
  {
    if positions != [] {
      NothingPicked(positions[1..]);
    }
  }

  lemma NoJoin(ps: seq<Expr>, a: Rel, b: Rel)
    requires a.rows == [] || b.rows == []
    ensures JoinRel(ps, a, b).rows == []
  {
    NoRightRows(a.rows);
  }

  lemma {:induction false} UncoveredCross(q: Query, names: seq<string>, db: Database)
    requires q.QCross? && Narrowable(q, db.catalog) && !TestsCovered(q, names, db.catalog)
    ensures Meaning(Narrow(q, names, db.catalog), db).rows == []
  {
    var p := Narrow(q, names, db.catalog);
    var columns := ColumnsOfAll(OptPreds(q.cfilter));
    var c :| c in columns * PlanColumns(q, db.catalog) && c !in PlanColumns(p, db.catalog);
    assert q.cfilter.Some?;
    OneColumns(q.cfilter.value);
    PlainColumns(q, names, db);
    assert c !in NameSet(Meaning(p, db).schema);
    var x, y := Meaning(p.left, db), Meaning(p.right, db);
    NothingKept(q.cfilter.value, x.schema + y.schema, Product(x.rows, y.rows), c);
  }

  /** Below projections and aggregates, an uncovered cross product leaves no row. */
  lemma {:induction false} UncoveredEmpties(q: Query, names: seq<string>, db: Database)
    requires Narrowable(q, db.catalog) && !Covered(q, names, db.catalog) && Plain(q)
    ensures Meaning(Narrow(q, names, db.catalog), db).rows == []
    decreases q
  {
    var w := Wanted(q, names);
    match q
    case QFilter(_, c) => UncoveredEmpties(c, w, db);
    case QJoin(es, f, l, r) =>
      if !Covered(l, w, db.catalog) {
        UncoveredEmpties(l, w, db);
      } else {
        UncoveredEmpties(r, Collect(l, w), db);
      }
      NoJoin(Tests(q), Meaning(Narrow(l, w, db.catalog), db), Meaning(Narrow(r, Collect(l, w), db.catalog), db));
    case QCross(f, l, r) =>
      if !Covered(l, w, db.catalog) {
        UncoveredEmpties(l, w, db);
        NoJoin(Tests(q), Meaning(Narrow(l, w, db.catalog), db), Meaning(Narrow(r, Collect(l, w), db.catalog), db));
      } else if !Covered(r, Collect(l, w), db.catalog) {
        UncoveredEmpties(r, Collect(l, w), db);
        NoJoin(Tests(q), Meaning(Narrow(l, w, db.catalog), db), Meaning(Narrow(r, Collect(l, w), db.catalog), db));
      } else {
        UncoveredCross(q, names, db);
      }
    case QSort(ks, c) =>
      UncoveredEmpties(c, w, db);
      NothingSorted(ks, Meaning(Narrow(c, w, db.catalog), db).schema, db);
  }

  lemma NothingSorted(ks: seq<(Expr, bool)>, schema: seq<string>, db: Database)
    ensures SortRows(ks, schema, [], db) == []
  {
    NothingPicked(db.order(Ascending(ks), ProjectRows(SortKeys(ks), schema, [])));
  }

  // ----- empty tables -----

  /** The same database with all tables empty. */
  function Emptied(db: Database): (e: Database)
    ensures Valid(db) ==> Valid(e)
  {
    db.(tables := map c | c in db.tables :: [])
  }

  /** No aggregate makes a row out of no rows. */
  predicate Grouped(q: Query) {
    match q
    case QScan(_, _, _) => true
    case QProject(_, c) => Grouped(c)
    case QFilter(_, c) => Grouped(c)
    case QAggregate(_, gs, _, c) => gs != [] && Grouped(c)
    case QJoin(_, _, l, r) => Grouped(l) && Grouped(r)
    case QCross(_, l, r) => Grouped(l) && Grouped(r)
    case QSort(_, c) => Grouped(c)
  }

  lemma {:induction false} PlainGrouped(q: Query)
    requires Plain(q)
    ensures Grouped(q)
  {
    match q
    case QScan(_, _, _) =>
    case QFilter(_, c) => PlainGrouped(c);
    case QJoin(_, _, l, r) => PlainGrouped(l); PlainGrouped(r);
    case QCross(_, l, r) => PlainGrouped(l); PlainGrouped(r);
    case QSort(_, c) => PlainGrouped(c);
  }

  /** Over empty tables a plan returns nothing, unless it aggregates without group-by columns. */
  lemma {:induction false} NothingFromNothing(q: Query, db: Database)
    requires Grouped(q)
    ensures Meaning(q, Emptied(db)).rows == []
  {
    match q
    case QScan(_, _, _) =>
    case QProject(_, c) => NothingFromNothing(c, db);
    case QFilter(_, c) => NothingFromNothing(c, db);
    case QAggregate(_, _, _, c) => NothingFromNothing(c, db);
    case QJoin(_, _, l, r) =>
      NothingFromNothing(l, db);
      NoJoin(Tests(q), Meaning(l, Emptied(db)), Meaning(r, Emptied(db)));
    case QCross(_, l, r) =>
      NothingFromNothing(l, db);
      NoJoin(Tests(q), Meaning(l, Emptied(db)), Meaning(r, Emptied(db)));
    case QSort(ks, c) =>
      NothingFromNothing(c, db);
      NothingSorted(ks, Meaning(c, Emptied(db)).schema, Emptied(db));
  }

  /** An aggregate of given rows is the same over another database, and an aggregate of no rows does not even
      depend on their columns. */
  lemma AggregateElsewhere(q: Query, p: Query, a: Rel, b: Rel, db: Database, e: Database)
    requires q.QAggregate? && p.QAggregate? && p.fields == q.fields && p.groupBy == q.groupBy
    requires e.aggregate == db.aggregate && (a == b || a.rows == b.rows == [])
    ensures AggregateRows(q, a.schema, a.rows, db) == AggregateRows(p, b.schema, b.rows, e)
  {
    forall key ensures GroupOutput(q, a.schema, a.rows, key, db) == GroupOutput(p, b.schema, b.rows, key, e) {
      CellsElsewhere(q.fields, GroupRows(q.groupBy, a.schema, a.rows, key), a.schema, b.schema, db, e);
    }
  }

  lemma CellsElsewhere(
      fs: seq<Expr>, group: seq<Row>, s: seq<string>, t: seq<string>, db: Database, e: Database)
    requires e.aggregate == db.aggregate && (s == t || group == [])
    ensures AggregateCells(fs, s, group, db) == AggregateCells(fs, t, group, e)
  {
    forall i | 0 <= i < |fs| ensures AggregateCell(fs[i], s, group, db) == AggregateCell(fs[i], t, group, e) {
      if fs[i].Agg? {
        assert EvalColumn(fs[i].e, s, group) == EvalColumn(fs[i].e, t, group);
      }
    }
  }

  /** What the operators over the scans and joins make of it: an uncovered plan is optimized to one that answers
      as if all tables were empty. */
  lemma {:induction false} UncoveredStarves(q: Query, names: seq<string>, db: Database)
    requires Narrowable(q, db.catalog) && !Covered(q, names, db.catalog) && Fixed(q)
    ensures Meaning(Narrow(q, names, db.catalog), db) == Meaning(q, Emptied(db))
    decreases q
  {
    var w := Wanted(q, names);
    var c := q.child;
    var x, y := Meaning(Narrow(c, w, db.catalog), db), Meaning(c, Emptied(db));
    FixedOrPlain(c, db.catalog);
    if Fixed(c) {
      UncoveredStarves(c, w, db);
    } else {
      UncoveredEmpties(c, w, db);
      PlainGrouped(c);
      NothingFromNothing(c, db);
    }
    if q.QAggregate? {
      AggregateElsewhere(Narrow(q, names, db.catalog), q, x, y, db, Emptied(db));
    }
  }

  lemma {:induction false} FixedOrPlain(q: Query, catalog: Catalog)
    requires Narrowable(q, catalog)
    ensures Fixed(q) || Plain(q)
  {
    match q
    case QFilter(_, c) => FixedOrPlain(c, catalog);
    case QSort(_, c) => FixedOrPlain(c, catalog);
    case _ =>
  }

  // ----- the result -----

  /** The rule keeps the schema and the rows of every plan with a fixed output whose cross product filters
      are covered. */
  lemma NarrowKeepsMeaning(q: Query, db: Database)
    requires Valid(db) && Narrowable(q, db.catalog) && Fixed(q) && Covered(q, [], db.catalog)
    ensures Meaning(Narrow(q, [], db.catalog), db) == Meaning(q, db)
  {
    NarrowRows(q, [], db);
  }

  /** `p` means what `q` means exactly when `covered`, or when `q` returns what it returns over empty tables. */
  ghost predicate KeptExactly(q: Query, p: Query, covered: bool, db: Database) {
    Meaning(p, db) == Meaning(q, db) <==> covered || Meaning(q, db) == Meaning(q, Emptied(db))
  }

  /** It does so exactly when they are, or when the plan returns what it returns over empty tables. */
  lemma NarrowExact(q: Query, db: Database)
    requires Valid(db) && Narrowable(q, db.catalog) && Fixed(q)
    ensures KeptExactly(q, Narrow(q, [], db.catalog), Covered(q, [], db.catalog), db)
  {
    if Covered(q, [], db.catalog) {
      NarrowKeepsMeaning(q, db);
    } else {
      UncoveredStarves(q, [], db);
    }
  }

  /** Where every aggregate has group-by columns, that is when there is nothing to return. */
  lemma GroupedExact(q: Query, db: Database)
    requires Valid(db) && Narrowable(q, db.catalog) && Fixed(q) && Grouped(q)
    ensures Meaning(Narrow(q, [], db.catalog), db) == Meaning(q, db)
       <==> Covered(q, [], db.catalog) || Meaning(q, db).rows == []
  {
    NarrowExact(q, db);
    NothingFromNothing(q, db);
    SameSchema(q, db);
  }

  lemma {:induction false} SameSchema(q: Query, db: Database)
    ensures Meaning(q, Emptied(db)).schema == Meaning(q, db).schema
  {
    match q
    case QScan(_, _, _) =>
    case QProject(_, c) =>
    case QFilter(_, c) => SameSchema(c, db);
    case QAggregate(_, _, _, c) =>
    case QJoin(_, _, l, r) => SameSchema(l, db); SameSchema(r, db);
    case QCross(_, l, r) => SameSchema(l, db); SameSchema(r, db);
    case QSort(_, c) => SameSchema(c, db);
  }

  /** Without group-by columns the one wrong row comes back: the rule keeps the meaning of such an aggregate over
      scans and joins exactly when their rows, if the filters are uncovered, aggregate like no rows at all. */
  lemma GrouplessNarrowExact(q: Query, db: Database)
    requires Valid(db) && Narrowable(q, db.catalog) && q.QAggregate? && q.groupBy == [] && Plain(q.child)
    ensures var r, schema, having := Meaning(q.child, db), AggregateSchema(q, db), OptPreds(q.having);
      Meaning(Narrow(q, [], db.catalog), db) == Meaning(q, db)
      <==> || Covered(q, [], db.catalog)
           || FilterRows(having, schema, [GroupOutput(q, r.schema, r.rows, [], db)])
              == FilterRows(having, schema, [EmptyOutput(q, r.schema, db)])
  {
    var r, e := Meaning(q.child, db), Meaning(q.child, Emptied(db));
    NarrowExact(q, db);
    PlainGrouped(q.child);
    NothingFromNothing(q.child, db);
    SameSchema(q, db);
    AggregateElsewhere(q, q, e, Rel(r.schema, []), Emptied(db), db);
    assert AggregateRows(q, r.schema, r.rows, db) == [GroupOutput(q, r.schema, r.rows, [], db)];
    assert AggregateRows(q, r.schema, [], db) == [EmptyOutput(q, r.schema, db)];
  }

  /** Cross products without filter are always covered. */
  lemma {:induction false} UnfilteredCovered(q: Query, names: seq<string>, catalog: Catalog)
    requires NoCrossFilters(q)
    ensures Covered(q, names, catalog)
    decreases q
  {
    var w := Wanted(q, names);
    match q
    case QScan(_, _, _) =>
    case QProject(_, c) => UnfilteredCovered(c, w, catalog);
    case QFilter(_, c) => UnfilteredCovered(c, w, catalog);
    case QAggregate(_, _, _, c) => UnfilteredCovered(c, w, catalog);
    case QJoin(_, _, l, r) => UnfilteredCovered(l, w, catalog); UnfilteredCovered(r, Collect(l, w), catalog);
    case QCross(_, l, r) => UnfilteredCovered(l, w, catalog); UnfilteredCovered(r, Collect(l, w), catalog);
    case QSort(_, c) => UnfilteredCovered(c, w, catalog);
  }

  predicate NoCrossFilters(q: Query) {
    match q
    case QScan(_, _, _) => true
    case QProject(_, c) => NoCrossFilters(c)
    case QFilter(_, c) => NoCrossFilters(c)
    case QAggregate(_, _, _, c) => NoCrossFilters(c)
    case QJoin(_, _, l, r) => NoCrossFilters(l) && NoCrossFilters(r)
    case QCross(f, l, r) => f.None? && NoCrossFilters(l) && NoCrossFilters(r)
    case QSort(_, c) => NoCrossFilters(c)
  }

  /** Every scan of the optimized plan delivers only wanted columns of its table. */
  predicate Slim(q: Query, names: set<string>, catalog: Catalog) {
    match q
    case QScan(c, _, p) =>
      p.Some? && c in catalog && ColumnsOfAll(p.value) <= names && ColumnsOfAll(p.value) <= NameSet(catalog[c])
    case QProject(_, c) => Slim(c, names, catalog)
    case QFilter(_, c) => Slim(c, names, catalog)
    case QAggregate(_, _, _, c) => Slim(c, names, catalog)
    case QJoin(_, _, l, r) => Slim(l, names, catalog) && Slim(r, names, catalog)
    case QCross(_, l, r) => Slim(l, names, catalog) && Slim(r, names, catalog)
    case QSort(_, c) => Slim(c, names, catalog)
  }

  lemma {:induction false} NarrowSlims(q: Query, names: seq<string>, catalog: Catalog, all: set<string>)
    requires Narrowable(q, catalog) && NameSet(Collect(q, names)) <= all
    ensures Slim(Narrow(q, names, catalog), all, catalog)
    decreases q
  {
    var w := Wanted(q, names);
    match q
    case QScan(c, _, _) => KeptColumns(names, catalog[c]);
    case QProject(_, c) => NarrowSlims(c, w, catalog, all);
    case QFilter(_, c) => NarrowSlims(c, w, catalog, all);
    case QAggregate(_, _, _, c) => NarrowSlims(c, w, catalog, all);
    case QJoin(_, _, l, r) => NarrowSlims(l, w, catalog, all); NarrowSlims(r, Collect(l, w), catalog, all);
    case QCross(_, l, r) => NarrowSlims(l, w, catalog, all); NarrowSlims(r, Collect(l, w), catalog, all);
    case QSort(_, c) => NarrowSlims(c, w, catalog, all);
  }
}
