/** The two optimizer rules one after the other. */
module RulesTogether {
  import opened Options
  import opened Fields
  import opened Ast
  import opened Relational
  import opened PredicatePushdown
  import opened ProjectionPushdown

  lemma {:induction false} AndAllUnbound(first: Expr, ps: seq<Expr>)
    requires Unbound(first) && AllUnbound(ps)
    ensures Unbound(AndAll(first, ps))
    decreases |ps|
  {
    if ps != [] {
      assert ps[0] in ps;
      AndAllUnbound(Boolean(And, first, ps[0]), ps[1..]);
    }
  }

  lemma CombineUnbound(ps: seq<Expr>)
    requires AllUnbound(ps)
    ensures OptionUnbound(CombineAnd(ps))
  {
    if ps != [] {
      assert ps[0] in ps;
      AndAllUnbound(ps[0], ps[1..]);
    }
  }

  /** What the first rule delivers below an aggregate is what the second accepts. */
  lemma {:induction false} PushBaseNarrowable(q: Query, ps: seq<Expr>, catalog: Catalog)
    requires Base(q, catalog) && Narrowable(q, catalog) && AllUnbound(ps)
    ensures Narrowable(Push(q, ps, catalog), catalog) && Plain(Push(q, ps, catalog))
    decreases q
  {
    match q
    case QScan(_, _, _) =>
    case QFilter(p, c) =>
      SplitAndUnbound(p);
      PushBaseNarrowable(c, ps + SplitAnd(p), catalog);
    case QJoin(es, f, l, r) =>
      var s := SplitAbove(q, ps, catalog);
      SidesNarrowable(q, ps, catalog, s);
      PushBaseNarrowable(l, s.left, catalog);
      PushBaseNarrowable(r, s.right, catalog);
    case QCross(f, l, r) =>
      var s := SplitAbove(q, ps, catalog);
      SidesNarrowable(q, ps, catalog, s);
      PushBaseNarrowable(l, s.left, catalog);
      PushBaseNarrowable(r, s.right, catalog);
  }

  lemma SidesNarrowable(q: Query, ps: seq<Expr>, catalog: Catalog, s: Split)
    requires (q.QJoin? || q.QCross?) && Base(q, catalog) && AllUnbound(ps) && s == SplitAbove(q, ps, catalog)
    ensures AllUnbound(s.left) && AllUnbound(s.right) && EqsUnbound(s.eqs) && OptionUnbound(CombineAnd(s.rest))
    ensures PlanColumns(Push(q.left, s.left, catalog), catalog) !! PlanColumns(Push(q.right, s.right, catalog), catalog)
  {
    var f := if q.QJoin? then q.jfilter else q.cfilter;
    SplitOptionUnbound(ps, f);
    SplitUnbound(ps + SplitOption(f), PlanColumns(q.left, catalog), PlanColumns(q.right, catalog));
    CombineUnbound(s.rest);
    PushColumns(q.left, s.left, catalog);
    PushColumns(q.right, s.right, catalog);
  }

  lemma {:induction false} PushNarrowable(q: Query, ps: seq<Expr>, catalog: Catalog, literalName: Field -> string)
    requires Admissible(q, ps, catalog, literalName) && Narrowable(q, catalog)
    ensures Narrowable(Push(q, ps, catalog), catalog) && (Fixed(q) ==> Fixed(Push(q, ps, catalog)))
    decreases q
  {
    match q
    case QProject(_, c) => PushNarrowable(c, [], catalog, literalName);
    case QSort(_, c) => PushNarrowable(c, [], catalog, literalName);
    case QFilter(p, c) => PushNarrowable(c, ps + SplitAnd(p), catalog, literalName);
    case QAggregate(_, _, h, c) =>
      PushBaseNarrowable(c, Pushable(ps + SplitOption(h), PlanColumns(c, catalog)), catalog);
    case _ => PushBaseNarrowable(q, ps, catalog);
  }

  /** Predicates first, projections second: the meaning is kept exactly when the filters that the first rule
      leaves on cross products are covered, or the plan returns what it returns over empty tables. */
  lemma BothRules(q: Query, db: Database)
    requires Valid(db) && Admissible(q, [], db.catalog, db.literalName) && Narrowable(q, db.catalog) && Fixed(q)
    ensures var p := Push(q, [], db.catalog);
      KeptExactly(q, Narrow(p, [], db.catalog), Covered(p, [], db.catalog), db)
  {
    PushNarrowable(q, [], db.catalog, db.literalName);
    PushdownKeepsMeaning(q, db);
    PushdownKeepsMeaning(q, Emptied(db));
    NarrowExact(Push(q, [], db.catalog), db);
  }

  /** Projections first loses nothing: the filters are still above the cross products. */
  lemma UnfilteredKept(q: Query, db: Database)
    requires Valid(db) && Narrowable(q, db.catalog) && Fixed(q) && NoCrossFilters(q)
    ensures Meaning(Narrow(q, [], db.catalog), db) == Meaning(q, db)
  {
    UnfilteredCovered(q, [], db.catalog);
    NarrowKeepsMeaning(q, db);
  }

  /** `SELECT ids FROM x, y WHERE p`, for a `p` over both tables that is no equality and mentions a column `c`
      not selected: the first rule moves `p` onto the cross product, where the second does not see that it
      needs `c`. */
  lemma TestIsLost(ids: seq<Expr>, p: Expr, x: Query, y: Query, catalog: Catalog, c: string)
    requires x.QScan? && y.QScan? && x.cid in catalog && y.cid in catalog
    requires x.filter == None && x.projection == None && y.filter == None && y.projection == None
    requires Atom(p) && Held(p, PlanColumns(x, catalog), PlanColumns(y, catalog))
    requires c in Columns(p) && c in PlanColumns(x, catalog) + PlanColumns(y, catalog) && c !in ColumnsOfAll(ids)
    ensures var q := QProject(ids, QFilter(p, QCross(None, x, y)));
      && Push(q, [], catalog) == QProject(ids, QCross(Some(p), x, y))
      && Covered(q, [], catalog) && !Covered(Push(q, [], catalog), [], catalog)
  {
    var q := QProject(ids, QFilter(p, QCross(None, x, y)));
    assert NoCrossFilters(x) && NoCrossFilters(y);
    assert NoCrossFilters(QCross(None, x, y));
    UnfilteredCovered(q, [], catalog);
    HeldStays(p, x, y, catalog);
    assert [] + SplitAnd(p) == [p];
    assert Push(q, [], catalog) == QProject(ids, QCross(Some(p), x, y));
    TestUncovered(p, x, y, AddAllColumns(ids, []), catalog, c);
  }

  lemma HeldStays(p: Expr, x: Query, y: Query, catalog: Catalog)
    requires x.QScan? && y.QScan? && x.filter == None && y.filter == None
    requires Held(p, PlanColumns(x, catalog), PlanColumns(y, catalog))
    ensures Push(QCross(None, x, y), [p], catalog) == QCross(Some(p), x, y)
  {
    assert [p] + SplitOption(None) == [p] && [p][..0] == [];
    assert SplitBetween([p], PlanColumns(x, catalog), PlanColumns(y, catalog)) == Split([], [], [], [p]);
    var none: seq<Expr> := [];
    assert none + SplitOption(None) == none;
    assert Push(x, none, catalog) == x && Push(y, none, catalog) == y;
  }

  lemma TestUncovered(p: Expr, x: Query, y: Query, names: seq<string>, catalog: Catalog, c: string)
    requires x.QScan? && y.QScan? && x.cid in catalog && y.cid in catalog
    requires c in Columns(p) && c in PlanColumns(x, catalog) + PlanColumns(y, catalog) && c !in NameSet(names)
    ensures !Covered(QCross(Some(p), x, y), names, catalog)
  {
    var q := QCross(Some(p), x, y);
    OneColumns(p);
    KeptColumns(names, catalog[x.cid]);
    KeptColumns(names, catalog[y.cid]);
    assert c in ColumnsOfAll(OptPreds(Some(p))) * PlanColumns(q, catalog);
    assert c !in PlanColumns(Narrow(q, names, catalog), catalog);
  }

  /** Such a query returns nothing after both rules. */
  lemma RowsAreLost(ids: seq<Expr>, p: Expr, x: Query, y: Query, db: Database, c: string)
    requires x.QScan? && y.QScan? && x.cid in db.catalog && y.cid in db.catalog
    requires x.filter == None && x.projection == None && y.filter == None && y.projection == None
    requires Unbound(p) && PlanColumns(x, db.catalog) !! PlanColumns(y, db.catalog)
    requires Atom(p) && Held(p, PlanColumns(x, db.catalog), PlanColumns(y, db.catalog))
    requires c in Columns(p) && c in PlanColumns(x, db.catalog) + PlanColumns(y, db.catalog) && c !in ColumnsOfAll(ids)
    ensures var q := QProject(ids, QFilter(p, QCross(None, x, y)));
      Meaning(Narrow(Push(q, [], db.catalog), [], db.catalog), db).rows == []
  {
    TestIsLost(ids, p, x, y, db.catalog, c);
    CrossNarrowable(p, x, y, db.catalog);
    UncoveredEmpties(QCross(Some(p), x, y), AddAllColumns(ids, []), db);
  }

  lemma CrossNarrowable(p: Expr, x: Query, y: Query, catalog: Catalog)
    requires x.QScan? && y.QScan? && x.cid in catalog && y.cid in catalog
    requires x.projection == None && y.projection == None
    requires Unbound(p) && PlanColumns(x, catalog) !! PlanColumns(y, catalog)
    ensures Narrowable(QCross(Some(p), x, y), catalog) && Plain(QCross(Some(p), x, y))
  {
    assert Narrowable(x, catalog) && Narrowable(y, catalog) && Plain(x) && Plain(y);
  }

  /** A database on which that loses a row: two tables of one row each, `m` in column `a` and `n` in column `b`, and
      `SELECT a FROM 0, 1 WHERE a < b`. */
  ghost predicate TwoCells(db: Database, a: string, m: int, b: string, n: int) {
    db.catalog == map[0 := [a], 1 := [b]] && db.tables == map[0 := [[Ok(Int(m))]], 1 := [[Ok(Int(n))]]]
  }

  function LessQuery(a: string, b: string): Query {
    QProject([Ident(a)],
             QFilter(Boolean(Lt, Ident(a), Ident(b)), QCross(None, QScan(0, None, None), QScan(1, None, None))))
  }

  /** The query returns its row before the rules and nothing after them. */
  lemma LessRowIsLost(db: Database, a: string, m: int, b: string, n: int)
    requires TwoCells(db, a, m, b, n) && a != b && m < n
    ensures Meaning(LessQuery(a, b), db).rows == [[Ok(Int(m))]]
    ensures Meaning(Narrow(Push(LessQuery(a, b), [], db.catalog), [], db.catalog), db).rows == []
  {
    var p, x, y := Boolean(Lt, Ident(a), Ident(b)), QScan(0, None, None), QScan(1, None, None);
    LessRow(db, a, m, b, n);
    assert PlanColumns(x, db.catalog) == {a} && PlanColumns(y, db.catalog) == {b};
    assert Columns(p) == {a, b} && a in Columns(p) && b in Columns(p);
    OneColumns(Ident(a));
    RowsAreLost([Ident(a)], p, x, y, db, b);
  }

  lemma LessRow(db: Database, a: string, m: int, b: string, n: int)
    requires TwoCells(db, a, m, b, n) && a != b && m < n
    ensures Meaning(LessQuery(a, b), db).rows == [[Ok(Int(m))]]
  {
    var s, row := [a, b], [Ok(Int(m)), Ok(Int(n))];
    CellPair(db, a, m, b, n, s, row);
    LessKept(a, m, b, n, s, row);
    TwoCellValues(s, row, a, b);
    assert EvalAll([Ident(a)], s, row) == [Ok(Int(m))];
  }

  lemma CellPair(db: Database, a: string, m: int, b: string, n: int, s: seq<string>, row: Row)
    requires TwoCells(db, a, m, b, n) && s == [a, b] && row == [Ok(Int(m)), Ok(Int(n))]
    ensures Meaning(QCross(None, QScan(0, None, None), QScan(1, None, None)), db) == Rel(s, [row])
  {
    FilterNone([a], [[Ok(Int(m))]]);
    FilterNone([b], [[Ok(Int(n))]]);
    OnePair([Ok(Int(m))], [Ok(Int(n))]);
    assert [a] + [b] == s && [Ok(Int(m))] + [Ok(Int(n))] == row;
    FilterNone(s, [row]);
  }

  lemma LessKept(a: string, m: int, b: string, n: int, s: seq<string>, row: Row)
    requires a != b && m < n && s == [a, b] && row == [Ok(Int(m)), Ok(Int(n))]
    ensures FilterRows([Boolean(Lt, Ident(a), Ident(b))], s, [row]) == [row]
  {
    var p := Boolean(Lt, Ident(a), Ident(b));
    TwoCellValues(s, row, a, b);
    assert EvalNamed(p, s, row) == BoolFields(Lt, Int(m), Int(n));
    KeepsOne(p, s, row);
    FilterCons([p], s, row, []);
    assert [row] + [] == [row];
  }

  lemma OnePair(l: Row, r: Row)
    ensures Product([l], [r]) == [l + r]
  {
    ProductCons(l, [], [r]);
    assert [l] + [] == [l];
  }

  lemma TwoCellValues(s: seq<string>, row: Row, a: string, b: string)
    requires s == [a, b] && a != b && |row| == 2
    ensures EvalNamed(Ident(a), s, row) == row[0] && EvalNamed(Ident(b), s, row) == row[1]
  {
    assert s[1..] == [b];
  }
}
