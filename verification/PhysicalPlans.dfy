/** What a physical plan means, and what lowering a logical plan keeps of its
    meaning. */
module PhysicalPlans {
  import opened Options
  import opened Fields
  import opened Ast
  import opened GraphTheory
  import opened PlanTrees
  import opened Plans
  import opened Lowering
  import opened Relational
  import opened PredicatePushdown
  import opened ProjectionPushdown
  import opened RulesTogether

  // ----- the meaning of physical operators -----

  /** A pair matches when both terms have values and these are equal; each term was compiled for a schema of its own. */
  predicate Matches(x: Expr, sx: seq<string>, l: Row, y: Expr, sy: seq<string>, r: Row) {
    var v, w := EvalNamed(x, sx, l), EvalNamed(y, sy, r);
    v.Ok? && w.Ok? && v.value == w.value
  }

  function MatchRow(x: Expr, sx: seq<string>, l: Row, y: Expr, sy: seq<string>, rs: seq<Row>): seq<Row> {
    if rs == [] then []
    else (if Matches(x, sx, l, y, sy, rs[0]) then [l + rs[0]] else []) + MatchRow(x, sx, l, y, sy, rs[1..])
  }

  function MatchRows(x: Expr, sx: seq<string>, ls: seq<Row>, y: Expr, sy: seq<string>, rs: seq<Row>): seq<Row> {
    if ls == [] then [] else MatchRow(x, sx, ls[0], y, sy, rs) + MatchRows(x, sx, ls[1..], y, sy, rs)
  }

  /** Joining `a` and `b` on terms compiled for the schemas `sx` and `sy`. */
  function JoinOn(x: Expr, sx: seq<string>, a: Rel, y: Expr, sy: seq<string>, b: Rel): Rel {
    Rel(a.schema + b.schema, MatchRows(x, sx, a.rows, y, sy, b.rows))
  }

  /** A join looks up which term belongs to which input.  When they are the other way round, a hash join swaps its
      inputs but not the terms it compiled for them. */
  function JoinMeaning(hash: bool, x: Expr, y: Expr, a: Rel, b: Rel): Outcome<Rel> {
    if ComputedFrom(x, a.schema) && ComputedFrom(y, b.schema) then Ok(JoinOn(x, a.schema, a, y, b.schema, b))
    else if ComputedFrom(y, a.schema) && ComputedFrom(x, b.schema) then
      if hash then Ok(JoinOn(y, a.schema, b, x, b.schema, a)) else Ok(JoinOn(y, a.schema, a, x, b.schema, b))
    else Err
  }

  function ScanMeaning(c: ContainerId, f: Option<Expr>, p: Option<seq<Expr>>, db: Database): Rel {
    var rows := FilterRows(OptPreds(f), ScanSchema(db, c), ScanRows(db, c));
    match p
    case None => Rel(ScanSchema(db, c), rows)
    case Some(es) => Rel(Names(es, db.literalName), ProjectRows(es, ScanSchema(db, c), rows))
  }

  /** An aggregate without having clause; its input is given as rows. */
  function Grouping(fs: seq<Expr>, gs: seq<Expr>): Query { QAggregate(fs, gs, None, QScan(0, None, None)) }

  function UnaryMeaning(op: PhysicalOp, r: Rel, db: Database): Outcome<Rel> {
    match op
    case PProject(ids) => Ok(Rel(Names(ids, db.literalName), ProjectRows(ids, r.schema, r.rows)))
    case PFilter(p) => Ok(FilterRel([p], r))
    case PHashAggregate(fs, gs) =>
      Ok(Rel(AggregateSchema(Grouping(fs, gs), db), AggregateRows(Grouping(fs, gs), r.schema, r.rows, db)))
    case PSort(ks) => Ok(Rel(r.schema, SortRows(ks, r.schema, r.rows, db)))
    case _ => Err
  }

  function BinaryMeaning(op: PhysicalOp, a: Rel, b: Rel): Outcome<Rel> {
    match op
    case PCrossProduct => Ok(Rel(a.schema + b.schema, Product(a.rows, b.rows)))
    case PHashJoin(x, y) => JoinMeaning(true, x, y, a, b)
    case PNestedLoopJoin(x, y) => JoinMeaning(false, x, y, a, b)
    case _ => Err
  }

  /** An operator with the wrong number of inputs is an error. */
  function PhysicalMeaning(t: Tree<PhysicalOp>, db: Database): Outcome<Rel>
    decreases t
  {
    if |t.children| == 0 then
      if t.op.PScan? then Ok(ScanMeaning(t.op.cid, t.op.filter, t.op.projection, db)) else Err
    else if |t.children| == 1 then
      match PhysicalMeaning(t.children[0], db)
      case Ok(r) => UnaryMeaning(t.op, r, db)
      case _ => Err
    else if |t.children| == 2 then
      match (PhysicalMeaning(t.children[0], db), PhysicalMeaning(t.children[1], db))
      case (Ok(a), Ok(b)) => BinaryMeaning(t.op, a, b)
      case _ => Err
    else Err
  }

  // ----- joining on terms of the two sides -----

  /** The sides of a join share no column name, and their rows fit their schemas. */
  ghost predicate SidesFit(a: Rel, b: Rel) {
    Wide(a.rows, |a.schema|) && Wide(b.rows, |b.schema|) && NameSet(a.schema) !! NameSet(b.schema)
  }

  lemma MatchKeeps(x: Expr, y: Expr, sl: seq<string>, sr: seq<string>, l: Row, r: Row)
    requires Unbound(x) && Unbound(y) && ComputedFrom(x, sl) && ComputedFrom(y, sr)
    requires |l| == |sl| && |r| == |sr| && NameSet(sl) !! NameSet(sr)
    ensures KeepsAll([Boolean(Eq, x, y)], sl + sr, l + r) <==> Matches(x, sl, l, y, sr, r)
  {
    ComputedFromColumns(x, sl);
    ComputedFromColumns(y, sr);
    KeepsLeft(x, sl, sr, l, r);
    KeepsRight(y, sl, sr, l, r);
    KeepsOne(Boolean(Eq, x, y), sl + sr, l + r);
    var v, w := EvalNamed(x, sl + sr, l + r), EvalNamed(y, sl + sr, l + r);
    if v.Ok? && w.Ok? {
      assert EvalNamed(Boolean(Eq, x, y), sl + sr, l + r) == BoolFields(Eq, v.value, w.value);
    }
  }

  lemma {:induction false} MatchRowFilters(x: Expr, y: Expr, sl: seq<string>, sr: seq<string>, l: Row, rs: seq<Row>)
    requires Unbound(x) && Unbound(y) && ComputedFrom(x, sl) && ComputedFrom(y, sr)
    requires |l| == |sl| && Wide(rs, |sr|) && NameSet(sl) !! NameSet(sr)
    ensures MatchRow(x, sl, l, y, sr, rs) == FilterRows([Boolean(Eq, x, y)], sl + sr, PairRows(l, rs))
    decreases |rs|
  {
    if rs == [] {
      assert PairRows(l, rs) == [];
    } else {
      var r, rest := rs[0], rs[1..];
      assert rs == [r] + rest;
      MatchRowFilters(x, y, sl, sr, l, rest);
      PairRowsCons(l, r, rest);
      FilterCons([Boolean(Eq, x, y)], sl + sr, l + r, PairRows(l, rest));
      MatchKeeps(x, y, sl, sr, l, r);
    }
  }

  lemma {:induction false} MatchRowsFilter(
      x: Expr, y: Expr, sl: seq<string>, sr: seq<string>, ls: seq<Row>, rs: seq<Row>)
    requires Unbound(x) && Unbound(y) && ComputedFrom(x, sl) && ComputedFrom(y, sr)
    requires Wide(ls, |sl|) && Wide(rs, |sr|) && NameSet(sl) !! NameSet(sr)
    ensures MatchRows(x, sl, ls, y, sr, rs) == FilterRows([Boolean(Eq, x, y)], sl + sr, Product(ls, rs))
    decreases |ls|
  {
    if ls != [] {
      MatchRowFilters(x, y, sl, sr, ls[0], rs);
      MatchRowsFilter(x, y, sl, sr, ls[1..], rs);
      FilterConcat([Boolean(Eq, x, y)], sl + sr, PairRows(ls[0], rs), Product(ls[1..], rs));
    }
  }

  /** Joining on terms of the sides is filtering the pairs by their equality. */
  lemma JoinOnFilters(x: Expr, y: Expr, a: Rel, b: Rel)
    requires Unbound(x) && Unbound(y) && ComputedFrom(x, a.schema) && ComputedFrom(y, b.schema) && SidesFit(a, b)
    ensures JoinOn(x, a.schema, a, y, b.schema, b) == JoinRel([Boolean(Eq, x, y)], a, b)
  {
    MatchRowsFilter(x, y, a.schema, b.schema, a.rows, b.rows);
  }

  // ----- what lowering drops -----

  /** The plan that is left: having clauses, filters of joins and cross products, and all but the first equality of a
      join are gone. */
  function Executed(q: Query): Query {
    match q
    case QScan(_, _, _) => q
    case QProject(ids, c) => QProject(ids, Executed(c))
    case QFilter(p, c) => QFilter(p, Executed(c))
    case QAggregate(fs, gs, _, c) => QAggregate(fs, gs, None, Executed(c))
    case QJoin(es, _, l, r) => QJoin(if es == [] then es else [es[0]], None, Executed(l), Executed(r))
    case QCross(_, l, r) => QCross(None, Executed(l), Executed(r))
    case QSort(ks, c) => QSort(ks, Executed(c))
  }

  predicate PlanLowerable(q: Query) {
    match q
    case QScan(_, _, _) => true
    case QProject(_, c) => PlanLowerable(c)
    case QFilter(_, c) => PlanLowerable(c)
    case QAggregate(_, _, _, c) => PlanLowerable(c)
    case QJoin(es, _, l, r) => es != [] && PlanLowerable(l) && PlanLowerable(r)
    case QCross(_, l, r) => PlanLowerable(l) && PlanLowerable(r)
    case QSort(_, c) => PlanLowerable(c)
  }

  lemma {:induction false} PlanTreeLowerable(q: Query)
    ensures TreeLowerable(ToTree(q)) <==> PlanLowerable(q)
  {
    match q
    case QScan(_, _, _) =>
    case QProject(_, c) => PlanTreeLowerable(c); UnaryLowerable(ToTree(q), ToTree(c));
    case QFilter(_, c) => PlanTreeLowerable(c); UnaryLowerable(ToTree(q), ToTree(c));
    case QAggregate(_, _, _, c) => PlanTreeLowerable(c); UnaryLowerable(ToTree(q), ToTree(c));
    case QJoin(_, _, l, r) =>
      PlanTreeLowerable(l);
      PlanTreeLowerable(r);
      BinaryLowerable(ToTree(q), ToTree(l), ToTree(r));
    case QCross(_, l, r) =>
      PlanTreeLowerable(l);
      PlanTreeLowerable(r);
      BinaryLowerable(ToTree(q), ToTree(l), ToTree(r));
    case QSort(_, c) => PlanTreeLowerable(c); UnaryLowerable(ToTree(q), ToTree(c));
  }

  lemma UnaryLowerable(t: Tree<LogicalOp>, c: Tree<LogicalOp>)
    requires t.children == [c]
    ensures TreeLowerable(t) <==> Lowerable(t.op) && TreeLowerable(c)
    ensures TreeLowerable(t) ==> LowerTree(t) == Tree(LowerOp(t.op).value, [LowerTree(c)])
  {
    assert t.children[0] == c;
  }

  lemma BinaryLowerable(t: Tree<LogicalOp>, l: Tree<LogicalOp>, r: Tree<LogicalOp>)
    requires t.children == [l, r]
    ensures TreeLowerable(t) <==> Lowerable(t.op) && TreeLowerable(l) && TreeLowerable(r)
    ensures TreeLowerable(t) ==> LowerTree(t) == Tree(LowerOp(t.op).value, [LowerTree(l), LowerTree(r)])
  {
    assert t.children[0] == l && t.children[1] == r;
    if TreeLowerable(t) {
      assert LowerTree(t).children == [LowerTree(l), LowerTree(r)];
    }
  }

  /** The lowered plan of `q`. */
  function Lowered(q: Query): Tree<PhysicalOp>
    requires PlanLowerable(q)
  {
    PlanTreeLowerable(q);
    LowerTree(ToTree(q))
  }

  lemma LoweredUnary(q: Query)
    requires PlanLowerable(q) && (q.QProject? || q.QFilter? || q.QAggregate? || q.QSort?)
    ensures Lowered(q) == Tree(LowerOp(ToTree(q).op).value, [Lowered(q.child)])
  {
    PlanTreeLowerable(q);
    PlanTreeLowerable(q.child);
    UnaryLowerable(ToTree(q), ToTree(q.child));
  }

  lemma LoweredBinary(q: Query)
    requires PlanLowerable(q) && (q.QJoin? || q.QCross?)
    ensures Lowered(q) == Tree(LowerOp(ToTree(q).op).value, [Lowered(q.left), Lowered(q.right)])
  {
    PlanTreeLowerable(q);
    PlanTreeLowerable(q.left);
    PlanTreeLowerable(q.right);
    BinaryLowerable(ToTree(q), ToTree(q.left), ToTree(q.right));
  }

  // ----- when joins find their inputs -----

  /** The first equality of every join names its left input first, and the inputs share no column name. */
  ghost predicate Joinable(q: Query, db: Database) {
    match q
    case QScan(_, _, _) => true
    case QProject(_, c) => Joinable(c, db)
    case QFilter(_, c) => Joinable(c, db)
    case QAggregate(_, _, _, c) => Joinable(c, db)
    case QJoin(es, _, l, r) =>
      && Joinable(l, db) && Joinable(r, db) && NameSet(Meaning(l, db).schema) !! NameSet(Meaning(r, db).schema)
      && es != [] && Unbound(es[0].0) && Unbound(es[0].1)
      && ComputedFrom(es[0].0, Meaning(l, db).schema) && ComputedFrom(es[0].1, Meaning(r, db).schema)
    case QCross(_, l, r) => Joinable(l, db) && Joinable(r, db)
    case QSort(_, c) => Joinable(c, db)
  }

  /** Every scanned table is in the catalog. */
  predicate Catalogued(q: Query, catalog: Catalog) {
    match q
    case QScan(c, _, _) => c in catalog
    case QProject(_, c) => Catalogued(c, catalog)
    case QFilter(_, c) => Catalogued(c, catalog)
    case QAggregate(_, _, _, c) => Catalogued(c, catalog)
    case QJoin(_, _, l, r) => Catalogued(l, catalog) && Catalogued(r, catalog)
    case QCross(_, l, r) => Catalogued(l, catalog) && Catalogued(r, catalog)
    case QSort(_, c) => Catalogued(c, catalog)
  }

  lemma {:induction false} PickWide(rows: seq<Row>, positions: seq<nat>, n: nat)
    requires Wide(rows, n)
    ensures Wide(Pick(rows, positions), n)
    decreases |positions|
  {
    if positions != [] {
      PickWide(rows, positions[1..], n);
    }
  }

  /** The rows of every plan fit its schema. */
  lemma {:induction false} MeaningWide(q: Query, db: Database)
    requires Valid(db) && Catalogued(q, db.catalog)
    ensures Wide(Meaning(q, db).rows, |Meaning(q, db).schema|)
  {
    match q
    case QScan(c, f, _) => FilterWide(OptPreds(f), db.catalog[c], db.tables[c], |db.catalog[c]|);
    case QProject(_, c) =>
    case QFilter(p, c) =>
      MeaningWide(c, db);
      FilterWide([p], Meaning(c, db).schema, Meaning(c, db).rows, |Meaning(c, db).schema|);
    case QAggregate(_, _, h, c) =>
      var r, s := Meaning(c, db), AggregateSchema(q, db);
      AggregateWide(q, r.schema, r.rows, db);
      FilterWide(OptPreds(h), s, AggregateRows(q, r.schema, r.rows, db), |s|);
    case QJoin(es, f, l, r) =>
      MeaningWide(l, db);
      MeaningWide(r, db);
      PairsWide(Meaning(l, db), Meaning(r, db), EqPreds(es) + OptPreds(f));
    case QCross(f, l, r) =>
      MeaningWide(l, db);
      MeaningWide(r, db);
      PairsWide(Meaning(l, db), Meaning(r, db), OptPreds(f));
    case QSort(ks, c) =>
      MeaningWide(c, db);
      var r := Meaning(c, db);
      PickWide(r.rows, db.order(Ascending(ks), ProjectRows(SortKeys(ks), r.schema, r.rows)), |r.schema|);
  }

  // ----- lowering keeps the plan that is left -----

  lemma LoweredJoin(es: seq<(Expr, Expr)>, f: Option<Expr>, a: Rel, b: Rel)
    requires es != [] && Unbound(es[0].0) && Unbound(es[0].1) && SidesFit(a, b)
    requires ComputedFrom(es[0].0, a.schema) && ComputedFrom(es[0].1, b.schema)
    ensures BinaryMeaning(LowerOp(Join(es, f)).value, a, b) == Ok(JoinRel(EqPreds([es[0]]) + OptPreds(None), a, b))
  {
    JoinOnFilters(es[0].0, es[0].1, a, b);
    assert EqPreds([es[0]]) + OptPreds(None) == [Boolean(Eq, es[0].0, es[0].1)];
  }

  lemma LoweredCross(f: Option<Expr>, a: Rel, b: Rel)
    ensures BinaryMeaning(LowerOp(CrossProduct(f)).value, a, b) == Ok(JoinRel(OptPreds(None), a, b))
  {
    FilterNone(a.schema + b.schema, Product(a.rows, b.rows));
  }

  lemma LoweredAggregate(q: Query, r: Rel, db: Database, d: Query)
    requires q.QAggregate? && d.QAggregate? && d.fields == q.fields && d.groupBy == q.groupBy
    ensures UnaryMeaning(LowerOp(ToTree(q).op).value, r, db)
         == Ok(FilterRel(OptPreds(None), Rel(AggregateSchema(d, db), AggregateRows(d, r.schema, r.rows, db))))
  {
    SameOutputs(Grouping(q.fields, q.groupBy), d, r.schema, r.rows, db);
    FilterNone(AggregateSchema(d, db), AggregateRows(d, r.schema, r.rows, db));
  }

  lemma {:induction false} ExecutedSchema(q: Query, db: Database)
    ensures Meaning(Executed(q), db).schema == Meaning(q, db).schema
  {
    match q
    case QScan(_, _, _) =>
    case QProject(_, c) =>
    case QFilter(_, c) => ExecutedSchema(c, db);
    case QAggregate(_, _, _, c) =>
    case QJoin(_, _, l, r) => ExecutedSchema(l, db); ExecutedSchema(r, db);
    case QCross(_, l, r) => ExecutedSchema(l, db); ExecutedSchema(r, db);
    case QSort(_, c) => ExecutedSchema(c, db);
  }

  lemma {:induction false} ExecutedCatalogued(q: Query, catalog: Catalog)
    requires Catalogued(q, catalog)
    ensures Catalogued(Executed(q), catalog)
  {
    match q
    case QScan(_, _, _) =>
    case QProject(_, c) => ExecutedCatalogued(c, catalog);
    case QFilter(_, c) => ExecutedCatalogued(c, catalog);
    case QAggregate(_, _, _, c) => ExecutedCatalogued(c, catalog);
    case QJoin(_, _, l, r) => ExecutedCatalogued(l, catalog); ExecutedCatalogued(r, catalog);
    case QCross(_, l, r) => ExecutedCatalogued(l, catalog); ExecutedCatalogued(r, catalog);
    case QSort(_, c) => ExecutedCatalogued(c, catalog);
  }

  lemma SidesExecuted(l: Query, r: Query, db: Database)
    requires Valid(db) && Catalogued(l, db.catalog) && Catalogued(r, db.catalog)
    requires NameSet(Meaning(l, db).schema) !! NameSet(Meaning(r, db).schema)
    ensures SidesFit(Meaning(Executed(l), db), Meaning(Executed(r), db))
  {
    ExecutedCatalogued(l, db.catalog);
    ExecutedCatalogued(r, db.catalog);
    MeaningWide(Executed(l), db);
    MeaningWide(Executed(r), db);
    ExecutedSchema(l, db);
    ExecutedSchema(r, db);
  }

  lemma JoinStep(q: Query, db: Database)
    requires q.QJoin? && Valid(db) && Catalogued(q, db.catalog) && PlanLowerable(q) && Joinable(q, db)
    requires PhysicalMeaning(Lowered(q.left), db) == Ok(Meaning(Executed(q.left), db))
    requires PhysicalMeaning(Lowered(q.right), db) == Ok(Meaning(Executed(q.right), db))
    ensures PhysicalMeaning(Lowered(q), db) == Ok(Meaning(Executed(q), db))
  {
    LoweredBinary(q);
    SidesExecuted(q.left, q.right, db);
    ExecutedSchema(q.left, db);
    ExecutedSchema(q.right, db);
    LoweredJoin(q.eqs, q.jfilter, Meaning(Executed(q.left), db), Meaning(Executed(q.right), db));
  }

  /** The lowered plan means exactly the plan that is left. */
  lemma {:induction false} LoweredMeans(q: Query, db: Database)
    requires Valid(db) && Catalogued(q, db.catalog) && PlanLowerable(q) && Joinable(q, db)
    ensures PhysicalMeaning(Lowered(q), db) == Ok(Meaning(Executed(q), db))
  {
    match q
    case QScan(_, _, _) =>
    case QProject(_, c) => LoweredMeans(c, db); LoweredUnary(q);
    case QFilter(_, c) => LoweredMeans(c, db); LoweredUnary(q);
    case QAggregate(_, _, _, c) =>
      LoweredMeans(c, db);
      LoweredUnary(q);
      LoweredAggregate(q, Meaning(Executed(c), db), db, Executed(q));
    case QJoin(es, f, l, r) =>
      LoweredMeans(l, db);
      LoweredMeans(r, db);
      JoinStep(q, db);
    case QCross(f, l, r) =>
      LoweredMeans(l, db);
      LoweredMeans(r, db);
      LoweredBinary(q);
      LoweredCross(f, Meaning(Executed(l), db), Meaning(Executed(r), db));
    case QSort(_, c) => LoweredMeans(c, db); LoweredUnary(q);
  }

  // ----- when nothing is lost -----

  /** The tests of a node that lowering drops. */
  function DroppedTests(q: Query): seq<Expr> {
    match q
    case QAggregate(_, _, h, _) => OptPreds(h)
    case QJoin(es, f, _, _) => (if es == [] then [] else EqPreds(es[1..])) + OptPreds(f)
    case QCross(f, _, _) => OptPreds(f)
    case _ => []
  }

  predicate NothingDropped(q: Query) {
    && DroppedTests(q) == []
    && match q
       case QScan(_, _, _) => true
       case QProject(_, c) => NothingDropped(c)
       case QFilter(_, c) => NothingDropped(c)
       case QAggregate(_, _, _, c) => NothingDropped(c)
       case QJoin(_, _, l, r) => NothingDropped(l) && NothingDropped(r)
       case QCross(_, l, r) => NothingDropped(l) && NothingDropped(r)
       case QSort(_, c) => NothingDropped(c)
  }

  /** No row that reaches a node fails a test the node lost. */
  ghost predicate Harmless(q: Query, db: Database) {
    && (forall x :: x in Meaning(Executed(q), db).rows ==> KeepsAll(DroppedTests(q), Meaning(q, db).schema, x))
    && match q
       case QScan(_, _, _) => true
       case QProject(_, c) => Harmless(c, db)
       case QFilter(_, c) => Harmless(c, db)
       case QAggregate(_, _, _, c) => Harmless(c, db)
       case QJoin(_, _, l, r) => Harmless(l, db) && Harmless(r, db)
       case QCross(_, l, r) => Harmless(l, db) && Harmless(r, db)
       case QSort(_, c) => Harmless(c, db)
  }

  lemma {:induction false} NothingDroppedHarmless(q: Query, db: Database)
    requires NothingDropped(q)
    ensures Harmless(q, db)
  {
    match q
    case QScan(_, _, _) =>
    case QProject(_, c) => NothingDroppedHarmless(c, db);
    case QFilter(_, c) => NothingDroppedHarmless(c, db);
    case QAggregate(_, _, _, c) => NothingDroppedHarmless(c, db);
    case QJoin(_, _, l, r) => NothingDroppedHarmless(l, db); NothingDroppedHarmless(r, db);
    case QCross(_, l, r) => NothingDroppedHarmless(l, db); NothingDroppedHarmless(r, db);
    case QSort(_, c) => NothingDroppedHarmless(c, db);
  }

  lemma {:induction false} FilterLength(ps: seq<Expr>, s: seq<string>, rows: seq<Row>)
    ensures |FilterRows(ps, s, rows)| <= |rows|
  {
    if rows != [] {
      FilterLength(ps, s, rows[1..]);
    }
  }

  /** A filter keeps everything exactly when every row passes. */
  lemma {:induction false} FilterAll(ps: seq<Expr>, s: seq<string>, rows: seq<Row>)
    ensures FilterRows(ps, s, rows) == rows <==> forall x :: x in rows ==> KeepsAll(ps, s, x)
  {
    if rows != [] {
      var x, rest := rows[0], rows[1..];
      assert rows == [x] + rest;
      FilterAll(ps, s, rest);
      if KeepsAll(ps, s, x) {
        assert ([x] + FilterRows(ps, s, rest))[1..] == FilterRows(ps, s, rest);
      } else {
        FilterLength(ps, s, rest);
        assert x in rows;
      }
    }
  }

  /** Children that mean the same as what is left of them. */
  ghost predicate ChildrenKept(q: Query, db: Database) {
    match q
    case QScan(_, _, _) => true
    case QProject(_, c) => Meaning(Executed(c), db) == Meaning(c, db)
    case QFilter(_, c) => Meaning(Executed(c), db) == Meaning(c, db)
    case QAggregate(_, _, _, c) => Meaning(Executed(c), db) == Meaning(c, db)
    case QJoin(_, _, l, r) =>
      Meaning(Executed(l), db) == Meaning(l, db) && Meaning(Executed(r), db) == Meaning(r, db)
    case QCross(_, l, r) =>
      Meaning(Executed(l), db) == Meaning(l, db) && Meaning(Executed(r), db) == Meaning(r, db)
    case QSort(_, c) => Meaning(Executed(c), db) == Meaning(c, db)
  }

  lemma JoinDropped(es: seq<(Expr, Expr)>, f: Option<Expr>, a: Rel, b: Rel)
    requires es != []
    ensures FilterRel(EqPreds(es[1..]) + OptPreds(f), JoinRel(EqPreds([es[0]]) + OptPreds(None), a, b))
         == JoinRel(EqPreds(es) + OptPreds(f), a, b)
  {
    var one, rest, all := EqPreds([es[0]]) + OptPreds(None), EqPreds(es[1..]) + OptPreds(f), EqPreds(es) + OptPreds(f);
    var s, rows := a.schema + b.schema, Product(a.rows, b.rows);
    FilterTwice(rest, one, s, rows);
    forall x | x in rows ensures KeepsAll(rest + one, s, x) <==> KeepsAll(all, s, x) {
      assert EqPreds(es) == EqPreds([es[0]]) + EqPreds(es[1..]) && one == EqPreds([es[0]]);
      KeepsConcat(rest, one, s, x);
      KeepsConcat(EqPreds(es[1..]), OptPreds(f), s, x);
      KeepsConcat(EqPreds(es), OptPreds(f), s, x);
      KeepsConcat(EqPreds([es[0]]), EqPreds(es[1..]), s, x);
    }
    FilterAgree(rest + one, all, s, rows);
  }

  /** A node over such children is what is left of it, filtered by the tests it lost. */
  lemma NodeDropped(q: Query, db: Database)
    requires PlanLowerable(q) && ChildrenKept(q, db)
    ensures Meaning(q, db) == FilterRel(DroppedTests(q), Meaning(Executed(q), db))
  {
    match q
    case QAggregate(fs, gs, h, c) =>
      var r := Meaning(c, db);
      SameOutputs(q, Executed(q), r.schema, r.rows, db);
      FilterNone(AggregateSchema(q, db), AggregateRows(q, r.schema, r.rows, db));
    case QJoin(es, f, l, r) => JoinDropped(es, f, Meaning(l, db), Meaning(r, db));
    case QCross(f, l, r) =>
      var a, b := Meaning(l, db), Meaning(r, db);
      FilterNone(a.schema + b.schema, Product(a.rows, b.rows));
    case _ => FilterNone(Meaning(q, db).schema, Meaning(q, db).rows);
  }

  lemma {:induction false} HarmlessKept(q: Query, db: Database)
    requires PlanLowerable(q) && Harmless(q, db)
    ensures Meaning(Executed(q), db) == Meaning(q, db)
  {
    match q
    case QScan(_, _, _) =>
    case QProject(_, c) => HarmlessKept(c, db);
    case QFilter(_, c) => HarmlessKept(c, db);
    case QAggregate(_, _, _, c) => HarmlessKept(c, db); HarmlessNode(q, db);
    case QJoin(_, _, l, r) => HarmlessKept(l, db); HarmlessKept(r, db); HarmlessNode(q, db);
    case QCross(_, l, r) => HarmlessKept(l, db); HarmlessKept(r, db); HarmlessNode(q, db);
    case QSort(_, c) => HarmlessKept(c, db);
  }

  lemma HarmlessNode(q: Query, db: Database)
    requires PlanLowerable(q) && ChildrenKept(q, db)
    ensures Meaning(Executed(q), db) == Meaning(q, db)
       <==> forall x :: x in Meaning(Executed(q), db).rows ==> KeepsAll(DroppedTests(q), Meaning(q, db).schema, x)
  {
    NodeDropped(q, db);
    FilterAll(DroppedTests(q), Meaning(q, db).schema, Meaning(Executed(q), db).rows);
  }

  /** A plan that loses no test that matters is lowered to one with its schema and rows. */
  lemma LoweringKeepsMeaning(q: Query, db: Database)
    requires Valid(db) && Catalogued(q, db.catalog) && PlanLowerable(q) && Joinable(q, db)
    ensures NothingDropped(q) ==> Harmless(q, db)
    ensures Harmless(q, db) ==> PhysicalMeaning(Lowered(q), db) == Ok(Meaning(q, db))
  {
    LoweredMeans(q, db);
    if NothingDropped(q) {
      NothingDroppedHarmless(q, db);
    }
    if Harmless(q, db) {
      HarmlessKept(q, db);
    }
  }

  /** Over inputs that are kept, exactly when every row that is left passes the tests the node lost. */
  lemma LoweringKeepsIff(q: Query, db: Database)
    requires Valid(db) && Catalogued(q, db.catalog) && PlanLowerable(q) && Joinable(q, db) && ChildrenKept(q, db)
    ensures PhysicalMeaning(Lowered(q), db) == Ok(Meaning(q, db))
       <==> forall x :: x in Meaning(Executed(q), db).rows ==> KeepsAll(DroppedTests(q), Meaning(q, db).schema, x)
  {
    LoweredMeans(q, db);
    HarmlessNode(q, db);
  }

  /** A dropped filter lets a row through: two one-row tables whose values fail `a < b`. */
  lemma CrossFilterDropped(db: Database, a: string, m: int, b: string, n: int, q: Query)
    requires TwoCells(db, a, m, b, n) && a != b && m >= n
    requires q == QCross(Some(Boolean(Lt, Ident(a), Ident(b))), QScan(0, None, None), QScan(1, None, None))
    ensures Meaning(q, db).rows == []
    ensures PlanLowerable(q) && PhysicalMeaning(Lowered(q), db) == Ok(Rel([a, b], [[Ok(Int(m)), Ok(Int(n))]]))
  {
    assert PlanLowerable(q.left) && PlanLowerable(q.right);
    var p, s, row := Boolean(Lt, Ident(a), Ident(b)), [a, b], [Ok(Int(m)), Ok(Int(n))];
    TwoCellPair(db, a, m, b, n);
    TwoCellValues(s, row, a, b);
    IntegersCompare(m, n);
    assert EvalNamed(p, s, row) == BoolFields(Lt, Int(m), Int(n));
    KeepsOne(p, s, row);
    FilterCons([p], s, row, []);
    FilterNone(s, [row]);
    assert [row] + [] == [row];
    LoweredMeans(q, db);
  }

  lemma TwoCellPair(db: Database, a: string, m: int, b: string, n: int)
    requires TwoCells(db, a, m, b, n)
    ensures Valid(db)
    ensures Meaning(QScan(0, None, None), db) == Rel([a], [[Ok(Int(m))]])
    ensures Meaning(QScan(1, None, None), db) == Rel([b], [[Ok(Int(n))]])
    ensures [a] + [b] == [a, b] && Product([[Ok(Int(m))]], [[Ok(Int(n))]]) == [[Ok(Int(m)), Ok(Int(n))]]
  {
    FilterNone([a], [[Ok(Int(m))]]);
    FilterNone([b], [[Ok(Int(n))]]);
    OnePair([Ok(Int(m))], [Ok(Int(n))]);
    assert [Ok(Int(m))] + [Ok(Int(n))] == [Ok(Int(m)), Ok(Int(n))];
  }

  // ----- joins the other way round -----

  lemma {:induction false} FirstName(a: seq<string>, b: seq<string>)
    requires a != [] && b != [] && NameSet(a) !! NameSet(b)
    ensures a + b != b + a
  {
    assert a[0] in NameSet(a) && b[0] in NameSet(b);
    assert (a + b)[0] == a[0] && (b + a)[0] == b[0];
  }

  lemma SwappedNested(x: Expr, y: Expr, a: Rel, b: Rel)
    requires Unbound(x) && Unbound(y) && ComputedFrom(y, a.schema) && ComputedFrom(x, b.schema) && SidesFit(a, b)
    ensures JoinOn(y, a.schema, a, x, b.schema, b) == JoinRel([Boolean(Eq, x, y)], a, b)
  {
    JoinOnFilters(y, x, a, b);
    var s, rows := a.schema + b.schema, Product(a.rows, b.rows);
    forall r | r in rows ensures KeepsAll([Boolean(Eq, y, x)], s, r) <==> KeepsAll([Boolean(Eq, x, y)], s, r) {
      KeepsOne(Boolean(Eq, y, x), s, r);
      KeepsOne(Boolean(Eq, x, y), s, r);
      KeepsSwapped(x, y, s, r);
    }
    FilterAgree([Boolean(Eq, y, x)], [Boolean(Eq, x, y)], s, rows);
  }

  /** A join on one equality between its inputs is lowered to a join with the same schema and rows exactly when the
      equality names the left input first or is not one between two plain columns. */
  lemma JoinOrderIff(x: Expr, y: Expr, a: Rel, b: Rel)
    requires Unbound(x) && Unbound(y) && SidesFit(a, b)
    requires || (ComputedFrom(x, a.schema) && ComputedFrom(y, b.schema))
             || (ComputedFrom(y, a.schema) && ComputedFrom(x, b.schema))
    ensures BinaryMeaning(LowerOp(Join([(x, y)], None)).value, a, b) == Ok(JoinRel([Boolean(Eq, x, y)], a, b))
       <==> (ComputedFrom(x, a.schema) && ComputedFrom(y, b.schema)) || !(x.Ident? && y.Ident?)
  {
    if ComputedFrom(x, a.schema) && ComputedFrom(y, b.schema) {
      JoinOnFilters(x, y, a, b);
    } else if !(x.Ident? && y.Ident?) {
      SwappedNested(x, y, a, b);
    } else {
      FirstName(a.schema, b.schema);
    }
  }

  // ----- optimized plans -----

  lemma {:induction false} NarrowableCatalogued(q: Query, catalog: Catalog)
    requires Narrowable(q, catalog)
    ensures Catalogued(q, catalog)
  {
    match q
    case QScan(_, _, _) =>
    case QProject(_, c) => NarrowableCatalogued(c, catalog);
    case QFilter(_, c) => NarrowableCatalogued(c, catalog);
    case QAggregate(_, _, _, c) => NarrowableCatalogued(c, catalog);
    case QJoin(_, _, l, r) => NarrowableCatalogued(l, catalog); NarrowableCatalogued(r, catalog);
    case QCross(_, l, r) => NarrowableCatalogued(l, catalog); NarrowableCatalogued(r, catalog);
    case QSort(_, c) => NarrowableCatalogued(c, catalog);
  }

  lemma JoinFinds(es: seq<(Expr, Expr)>, l: Query, r: Query, db: Database)
    requires es != [] && EqsUnbound(es) && Narrowable(l, db.catalog) && Narrowable(r, db.catalog)
    requires Apart(l, r, db.catalog) && Facing(es, PlanColumns(l, db.catalog), PlanColumns(r, db.catalog))
    ensures Unbound(es[0].0) && Unbound(es[0].1)
    ensures ComputedFrom(es[0].0, Meaning(l, db).schema) && ComputedFrom(es[0].1, Meaning(r, db).schema)
    ensures NameSet(Meaning(l, db).schema) !! NameSet(Meaning(r, db).schema)
  {
    assert es[0] in es;
    PlainColumns(l, [], db);
    PlainColumns(r, [], db);
    ComputedFromColumns(es[0].0, Meaning(l, db).schema);
    ComputedFromColumns(es[0].1, Meaning(r, db).schema);
  }

  /** Joins whose equalities face their sides find their inputs. */
  lemma {:induction false} FacingJoinable(q: Query, db: Database)
    requires Narrowable(q, db.catalog) && JoinsFace(q, db.catalog) && PlanLowerable(q)
    ensures Joinable(q, db)
  {
    match q
    case QScan(_, _, _) =>
    case QProject(_, c) => FacingJoinable(c, db);
    case QFilter(_, c) => FacingJoinable(c, db);
    case QAggregate(_, _, _, c) => FacingJoinable(c, db);
    case QJoin(es, _, l, r) =>
      FacingJoinable(l, db);
      FacingJoinable(r, db);
      JoinFinds(es, l, r, db);
    case QCross(_, l, r) => FacingJoinable(l, db); FacingJoinable(r, db);
    case QSort(_, c) => FacingJoinable(c, db);
  }

  lemma {:induction false} PushLowerable(q: Query, ps: seq<Expr>, catalog: Catalog)
    requires PlanLowerable(q)
    ensures PlanLowerable(Push(q, ps, catalog))
    decreases q
  {
    match q
    case QScan(_, _, _) =>
    case QProject(_, c) => PushLowerable(c, ps, catalog);
    case QFilter(p, c) => PushLowerable(c, ps + SplitAnd(p), catalog);
    case QAggregate(_, _, h, c) =>
      PushLowerable(c, Pushable(ps + SplitOption(h), PlanColumns(c, catalog)), catalog);
    case QJoin(_, _, l, r) =>
      var s := SplitAbove(q, ps, catalog);
      PushLowerable(l, s.left, catalog);
      PushLowerable(r, s.right, catalog);
    case QCross(_, l, r) =>
      var s := SplitAbove(q, ps, catalog);
      PushLowerable(l, s.left, catalog);
      PushLowerable(r, s.right, catalog);
    case QSort(_, c) => PushLowerable(c, ps, catalog);
  }

  /** A plan optimized by predicate pushdown is lowered without swapped joins, to what is left of it; when no dropped
      test matters, that is what the original plan means. */
  lemma OptimizedLowers(q: Query, db: Database)
    requires Valid(db) && Admissible(q, [], db.catalog, db.literalName) && Narrowable(q, db.catalog)
    requires JoinsFace(q, db.catalog) && PlanLowerable(q)
    ensures var p := Push(q, [], db.catalog);
      && PlanLowerable(p) && PhysicalMeaning(Lowered(p), db) == Ok(Meaning(Executed(p), db))
      && (Harmless(p, db) ==> PhysicalMeaning(Lowered(p), db) == Ok(Meaning(q, db)))
  {
    var p := Push(q, [], db.catalog);
    PushLowerable(q, [], db.catalog);
    PushNarrowable(q, [], db.catalog, db.literalName);
    PushFaces(q, [], db.catalog);
    FacingJoinable(p, db);
    NarrowableCatalogued(p, db.catalog);
    LoweredMeans(p, db);
    LoweringKeepsMeaning(p, db);
    PushdownKeepsMeaning(q, db);
  }

  // ----- plan graphs -----

  /** The same for plan graphs: read from a node where the logical graph is `q`, the lowered graph is a tree that
      means what is left of `q`. */
  lemma LoweredGraphMeans(
      ops: seq<LogicalOp>, phys: seq<PhysicalOp>, arcs: seq<Arc>, n: nat, q: Query, db: Database)
    requires LoweredTo(ops, phys) && Denotes(ops, arcs, n, ToTree(q))
    requires Valid(db) && Catalogued(q, db.catalog) && (PlanLowerable(q) ==> Joinable(q, db))
    ensures PlanLowerable(q) && Denotes(phys, arcs, n, Lowered(q))
    ensures PhysicalMeaning(Lowered(q), db) == Ok(Meaning(Executed(q), db))
  {
    LoweringKeepsTree(ops, phys, arcs, n, ToTree(q));
    PlanTreeLowerable(q);
    LoweredMeans(q, db);
  }
}
