/** From expressions to rows: compiled code in a pipeline of operators delivers
    what the plan means. */
module Execution {
  import opened Options
  import opened Fields
  import opened Ast
  import opened ByteCode
  import opened Streams
  import opened Plans
  import opened Relational
  import Iterators

  function LiftAll(ts: seq<Tuple>): (r: seq<Row>)
    ensures |r| == |ts| && forall i :: 0 <= i < |r| ==> r[i] == Lift(ts[i])
  {
    seq(|ts|, i requires 0 <= i < |ts| => Lift(ts[i]))
  }

  lemma LiftCons(t: Tuple, ts: seq<Tuple>)
    ensures LiftAll([t] + ts) == [Lift(t)] + LiftAll(ts)
  {
  }

  /** The program computes the expression, and panics where it has no value. */
  ghost predicate Computes(p: Program, e: Expr, schema: seq<string>) {
    forall t :: RunOn(p, t) == if EvalNamed(e, schema, Lift(t)).Ok? then EvalNamed(e, schema, Lift(t)) else Panic
  }

  predicate IsTest(e: Expr, schema: seq<string>, t: Tuple) {
    var v := EvalNamed(e, schema, Lift(t));
    v.Ok? && v.value.Bool?
  }

  predicate AllTests(e: Expr, schema: seq<string>, ts: seq<Tuple>) { forall t :: t in ts ==> IsTest(e, schema, t) }

  predicate HasValues(es: seq<Expr>, schema: seq<string>, t: Tuple) {
    forall i :: 0 <= i < |es| ==> EvalNamed(es[i], schema, Lift(t)).Ok?
  }

  predicate AllValues(es: seq<Expr>, schema: seq<string>, ts: seq<Tuple>) {
    forall t :: t in ts ==> HasValues(es, schema, t)
  }

  // ----- filter -----

  lemma FilterStep(p: Program, e: Expr, schema: seq<string>, t: Tuple)
    requires Computes(p, e, schema)
    ensures IsTest(e, schema, t) <==> RunOn(p, t).Ok? && RunOn(p, t).value.Bool?
    ensures IsTest(e, schema, t) ==> (KeepsAll([e], schema, Lift(t)) <==> RunOn(p, t).value.b)
  {
    if KeepsAll([e], schema, Lift(t)) {
      assert Keeps([e][0], schema, Lift(t));
    }
  }

  /** A filter ends cleanly exactly when its predicate is boolean on every tuple, and then delivers the rows that
      pass. */
  lemma {:induction false} FilterExecutes(p: Program, e: Expr, schema: seq<string>, s: Stream)
    requires Computes(p, e, schema) && s.end.Clean?
    ensures FilterStream(p, s).end.Clean? <==> AllTests(e, schema, s.items)
    ensures AllTests(e, schema, s.items) ==>
              LiftAll(FilterStream(p, s).items) == FilterRows([e], schema, LiftAll(s.items))
    decreases |s.items|
  {
    if s.items != [] {
      var t, rest := s.items[0], Tail(s);
      assert s.items == [t] + rest.items;
      FilterStep(p, e, schema, t);
      if IsTest(e, schema, t) {
        FilterExecutes(p, e, schema, rest);
        assert AllTests(e, schema, s.items) <==> AllTests(e, schema, rest.items);
        LiftCons(t, rest.items);
        FilterCons([e], schema, Lift(t), LiftAll(rest.items));
        LiftCons(t, FilterStream(p, rest).items);
        assert [] + FilterRows([e], schema, LiftAll(rest.items)) == FilterRows([e], schema, LiftAll(rest.items));
      }
    }
  }

  // ----- projection -----

  ghost predicate AllCompute(ps: seq<Program>, es: seq<Expr>, schema: seq<string>) {
    |ps| == |es| && forall i :: 0 <= i < |ps| ==> Computes(ps[i], es[i], schema)
  }

  lemma {:induction false} ProjectStep(ps: seq<Program>, es: seq<Expr>, schema: seq<string>, t: Tuple)
    requires AllCompute(ps, es, schema)
    ensures EvalTuple(ps, t).Ok? <==> HasValues(es, schema, t)
    ensures HasValues(es, schema, t) ==> Lift(EvalTuple(ps, t).value) == EvalAll(es, schema, Lift(t))
    decreases |ps|
  {
    if ps != [] {
      var n := |ps| - 1;
      ProjectStep(ps[..n], es[..n], schema, t);
      assert Computes(ps[n], es[n], schema);
      var front, last := EvalTuple(ps[..n], t), RunOn(ps[n], t);
      ValuesSnoc(es, n, schema, t);
      if front.Ok? && last.Ok? {
        LiftSnoc(front.value, last.value);
      }
    }
  }

  lemma ValuesSnoc(es: seq<Expr>, n: nat, schema: seq<string>, t: Tuple)
    requires n == |es| - 1
    ensures HasValues(es, schema, t) <==> HasValues(es[..n], schema, t) && EvalNamed(es[n], schema, Lift(t)).Ok?
    ensures EvalAll(es, schema, Lift(t)) == EvalAll(es[..n], schema, Lift(t)) + [EvalNamed(es[n], schema, Lift(t))]
  {
    if HasValues(es, schema, t) {
      forall i | 0 <= i < n ensures EvalNamed(es[..n][i], schema, Lift(t)).Ok? {
        assert es[..n][i] == es[i];
      }
    }
    if HasValues(es[..n], schema, t) {
      forall i | 0 <= i < n ensures EvalNamed(es[i], schema, Lift(t)).Ok? {
        assert es[..n][i] == es[i];
      }
    }
  }

  lemma LiftSnoc(vs: Tuple, v: Field)
    ensures Lift(vs + [v]) == Lift(vs) + [Ok(v)]
  {
  }

  lemma ProjectCons(es: seq<Expr>, schema: seq<string>, x: Row, rows: seq<Row>)
    ensures ProjectRows(es, schema, [x] + rows) == [EvalAll(es, schema, x)] + ProjectRows(es, schema, rows)
  {
  }

  /** A projection ends cleanly exactly when every field has a value on every tuple, and then delivers the
      projected rows. */
  lemma {:induction false} ProjectExecutes(ps: seq<Program>, es: seq<Expr>, schema: seq<string>, s: Stream)
    requires AllCompute(ps, es, schema) && s.end.Clean?
    ensures MapStream(ps, s).end.Clean? <==> AllValues(es, schema, s.items)
    ensures AllValues(es, schema, s.items) ==>
              LiftAll(MapStream(ps, s).items) == ProjectRows(es, schema, LiftAll(s.items))
    decreases |s.items|
  {
    if s.items != [] {
      var t, rest := s.items[0], Tail(s);
      assert s.items == [t] + rest.items;
      ProjectStep(ps, es, schema, t);
      if HasValues(es, schema, t) {
        ProjectExecutes(ps, es, schema, rest);
        assert AllValues(es, schema, s.items) <==> AllValues(es, schema, rest.items);
        LiftCons(t, rest.items);
        ProjectCons(es, schema, Lift(t), LiftAll(rest.items));
        LiftCons(EvalTuple(ps, t).value, MapStream(ps, rest).items);
      }
    }
  }

  // ----- cross join -----

  lemma PairedRows(t: Tuple, us: seq<Tuple>)
    ensures LiftAll(PairRows(t, us)) == PairRows(Lift(t), LiftAll(us))
  {
    forall i | 0 <= i < |us| ensures Lift(t + us[i]) == Lift(t) + Lift(us[i]) {}
  }

  /** A cross join ends cleanly exactly when its left input does and, unless that is empty, its right input, and
      then delivers the left-major list of pairs. */
  lemma {:induction false} CrossExecutes(a: Stream, b: Stream)
    ensures CrossStream(a, b).end.Clean? <==> a.end.Clean? && (a.items == [] || b.end.Clean?)
    ensures CrossStream(a, b).end.Clean? ==>
              LiftAll(CrossStream(a, b).items) == Product(LiftAll(a.items), LiftAll(b.items))
    decreases |a.items|
  {
    if a.items != [] && b.end.Clean? {
      CrossExecutes(Tail(a), b);
      var t, more := a.items[0], CrossStream(Tail(a), b).items;
      PairedRows(t, b.items);
      assert LiftAll(a.items)[1..] == LiftAll(Tail(a).items);
      LiftConcat(PairRows(t, b.items), more);
    }
  }

  lemma LiftConcat(xs: seq<Tuple>, ys: seq<Tuple>)
    ensures LiftAll(xs + ys) == LiftAll(xs) + LiftAll(ys)
  {
  }

  // ----- whole plans -----

  type Tables = map<ContainerId, seq<Tuple>>

  predicate CompilesOver(e: Expr, schema: seq<string>) { !HasAgg(e) && Columns(e) <= set c | c in schema }

  predicate AllCompileOver(es: seq<Expr>, schema: seq<string>) {
    forall i :: 0 <= i < |es| ==> CompilesOver(es[i], schema)
  }

  /** The schema of a plan of the modelled operators. */
  function SchemaOf(q: Query, catalog: Catalog, literalName: Field -> string): seq<string> {
    match q
    case QScan(c, _, _) => if c in catalog then catalog[c] else []
    case QProject(ids, _) => Names(ids, literalName)
    case QFilter(_, c) => SchemaOf(c, catalog, literalName)
    case QCross(_, l, r) => SchemaOf(l, catalog, literalName) + SchemaOf(r, catalog, literalName)
    case _ => []
  }

  /** Projections, filters and cross products without filter over plain scans, with expressions that compile. */
  predicate Executable(q: Query, catalog: Catalog, literalName: Field -> string) {
    match q
    case QScan(c, f, p) => c in catalog && f.None? && p.None?
    case QProject(ids, c) =>
      Executable(c, catalog, literalName) && AllCompileOver(ids, SchemaOf(c, catalog, literalName))
    case QFilter(p, c) =>
      Executable(c, catalog, literalName) && CompilesOver(p, SchemaOf(c, catalog, literalName))
    case QCross(f, l, r) => f.None? && Executable(l, catalog, literalName) && Executable(r, catalog, literalName)
    case _ => false
  }

  function Compiled(e: Expr, schema: seq<string>): Program {
    match Bind(e, schema)
    case Ok(b) => Program(Code(b, 0), Literals(b))
    case _ => Program([], [])
  }

  function CompiledAll(es: seq<Expr>, schema: seq<string>): (ps: seq<Program>)
    ensures |ps| == |es| && forall i :: 0 <= i < |es| ==> ps[i] == Compiled(es[i], schema)
  {
    seq(|es|, i requires 0 <= i < |es| => Compiled(es[i], schema))
  }

  lemma CompiledComputes(e: Expr, schema: seq<string>)
    requires CompilesOver(e, schema)
    ensures Computes(Compiled(e, schema), e, schema)
  {
    forall t: Tuple
      ensures RunOn(Compiled(e, schema), t)
           == if EvalNamed(e, schema, Lift(t)).Ok? then EvalNamed(e, schema, Lift(t)) else Panic
    {
      PipelineCorrect(e, schema, t);
    }
  }

  lemma CompiledAllCompute(es: seq<Expr>, schema: seq<string>)
    requires AllCompileOver(es, schema)
    ensures AllCompute(CompiledAll(es, schema), es, schema)
  {
    forall i | 0 <= i < |es| ensures Computes(CompiledAll(es, schema)[i], es[i], schema) {
      CompiledComputes(es[i], schema);
    }
  }

  /** What the operators of a plan deliver. */
  function StreamOf(q: Query, catalog: Catalog, literalName: Field -> string, tables: Tables): Stream {
    match q
    case QScan(c, _, _) => Stream(if c in tables then tables[c] else [], Clean)
    case QProject(ids, c) =>
      MapStream(CompiledAll(ids, SchemaOf(c, catalog, literalName)), StreamOf(c, catalog, literalName, tables))
    case QFilter(p, c) =>
      FilterStream(Compiled(p, SchemaOf(c, catalog, literalName)), StreamOf(c, catalog, literalName, tables))
    case QCross(_, l, r) =>
      CrossStream(StreamOf(l, catalog, literalName, tables), StreamOf(r, catalog, literalName, tables))
    case _ => Stream([], Clean)
  }

  /** How opening them ends. */
  function OpeningOf(q: Query, catalog: Catalog, literalName: Field -> string, tables: Tables): Finish {
    match q
    case QProject(_, c) => OpeningOf(c, catalog, literalName, tables)
    case QFilter(_, c) => OpeningOf(c, catalog, literalName, tables)
    case QCross(_, l, r) =>
      Iterators.OpeningCross(OpeningOf(l, catalog, literalName, tables), OpeningOf(r, catalog, literalName, tables),
                             StreamOf(l, catalog, literalName, tables))
    case _ => Clean
  }

  /** The database holds these tables. */
  ghost predicate Holds(db: Database, catalog: Catalog, literalName: Field -> string, tables: Tables) {
    && db.catalog == catalog && db.literalName == literalName
    && forall c :: c in catalog ==> c in tables && c in db.tables && db.tables[c] == LiftAll(tables[c])
  }

  predicate BooleanOn(e: Expr, schema: seq<string>, rows: seq<Row>) {
    forall x :: x in rows ==> EvalNamed(e, schema, x).Ok? && EvalNamed(e, schema, x).value.Bool?
  }

  predicate DefinedOn(es: seq<Expr>, schema: seq<string>, rows: seq<Row>) {
    forall x, i :: x in rows && 0 <= i < |es| ==> EvalNamed(es[i], schema, x).Ok?
  }

  /** Every predicate is boolean and every field has a value on every row that reaches it; the right side of a
      cross product is reached only by left rows. */
  ghost predicate Succeeds(q: Query, db: Database) {
    match q
    case QProject(ids, c) => Succeeds(c, db) && DefinedOn(ids, Meaning(c, db).schema, Meaning(c, db).rows)
    case QFilter(p, c) => Succeeds(c, db) && BooleanOn(p, Meaning(c, db).schema, Meaning(c, db).rows)
    case QCross(_, l, r) => Succeeds(l, db) && (Meaning(l, db).rows == [] || Succeeds(r, db))
    case _ => true
  }

  lemma TestsLifted(e: Expr, schema: seq<string>, ts: seq<Tuple>)
    ensures AllTests(e, schema, ts) <==> BooleanOn(e, schema, LiftAll(ts))
  {
    if BooleanOn(e, schema, LiftAll(ts)) {
      forall t | t in ts ensures IsTest(e, schema, t) {
        var i :| 0 <= i < |ts| && ts[i] == t;
        assert LiftAll(ts)[i] in LiftAll(ts);
      }
    }
    if AllTests(e, schema, ts) {
      forall x | x in LiftAll(ts) ensures EvalNamed(e, schema, x).Ok? && EvalNamed(e, schema, x).value.Bool? {
        var k :| 0 <= k < |ts| && LiftAll(ts)[k] == x;
        assert IsTest(e, schema, ts[k]);
      }
    }
  }

  lemma ValuesLifted(es: seq<Expr>, schema: seq<string>, ts: seq<Tuple>)
    ensures AllValues(es, schema, ts) <==> DefinedOn(es, schema, LiftAll(ts))
  {
    if DefinedOn(es, schema, LiftAll(ts)) {
      forall t | t in ts ensures HasValues(es, schema, t) {
        var i :| 0 <= i < |ts| && ts[i] == t;
        assert LiftAll(ts)[i] in LiftAll(ts);
      }
    }
    if AllValues(es, schema, ts) {
      forall x, i | x in LiftAll(ts) && 0 <= i < |es| ensures EvalNamed(es[i], schema, x).Ok? {
        var k :| 0 <= k < |ts| && LiftAll(ts)[k] == x;
        assert HasValues(es, schema, ts[k]);
      }
    }
  }

  lemma {:induction false} FilterEnd(p: Program, s: Stream)
    ensures FilterStream(p, s).end.Clean? ==> s.end.Clean?
    decreases |s.items|
  {
    if s.items != [] {
      FilterEnd(p, Tail(s));
    }
  }

  lemma {:induction false} MapEnd(ps: seq<Program>, s: Stream)
    ensures MapStream(ps, s).end.Clean? ==> s.end.Clean?
    decreases |s.items|
  {
    if s.items != [] {
      MapEnd(ps, Tail(s));
    }
  }

  /** A stream delivers a relation when it is clean, and it is clean exactly when `ok`. */
  ghost predicate Delivers(s: Stream, r: Rel, ok: bool) {
    (s.end.Clean? <==> ok) && (ok ==> LiftAll(s.items) == r.rows)
  }

  lemma FilterDelivers(p: Expr, s: Stream, r: Rel, ok: bool)
    requires Delivers(s, r, ok) && CompilesOver(p, r.schema)
    ensures Delivers(FilterStream(Compiled(p, r.schema), s), FilterRel([p], r), ok && BooleanOn(p, r.schema, r.rows))
  {
    var test := Compiled(p, r.schema);
    CompiledComputes(p, r.schema);
    FilterEnd(test, s);
    if ok {
      FilterExecutes(test, p, r.schema, s);
      TestsLifted(p, r.schema, s.items);
    }
  }

  lemma ProjectDelivers(ids: seq<Expr>, s: Stream, r: Rel, ok: bool, names: seq<string>)
    requires Delivers(s, r, ok) && AllCompileOver(ids, r.schema)
    ensures Delivers(MapStream(CompiledAll(ids, r.schema), s), Rel(names, ProjectRows(ids, r.schema, r.rows)),
                     ok && DefinedOn(ids, r.schema, r.rows))
  {
    var fields := CompiledAll(ids, r.schema);
    CompiledAllCompute(ids, r.schema);
    MapEnd(fields, s);
    if ok {
      ProjectExecutes(fields, ids, r.schema, s);
      ValuesLifted(ids, r.schema, s.items);
    }
  }

  lemma CrossDelivers(a: Stream, x: Rel, okx: bool, b: Stream, y: Rel, oky: bool)
    requires Delivers(a, x, okx) && Delivers(b, y, oky)
    ensures Delivers(CrossStream(a, b), JoinRel([], x, y), okx && (x.rows == [] || oky))
  {
    CrossExecutes(a, b);
    FilterNone(x.schema + y.schema, Product(x.rows, y.rows));
  }

  lemma {:induction false} SchemaMeans(q: Query, db: Database)
    requires Executable(q, db.catalog, db.literalName)
    ensures Meaning(q, db).schema == SchemaOf(q, db.catalog, db.literalName)
  {
    match q
    case QScan(_, _, _) =>
    case QProject(_, c) =>
    case QFilter(_, c) => SchemaMeans(c, db);
    case QCross(_, l, r) => SchemaMeans(l, db); SchemaMeans(r, db);
  }

  /** For every such plan, the operators end cleanly exactly when every evaluation that is reached succeeds, and
      then deliver the rows the plan means. */
  lemma {:induction false} StreamMeans(q: Query, db: Database, tables: Tables)
    requires Executable(q, db.catalog, db.literalName) && Holds(db, db.catalog, db.literalName, tables)
    ensures Delivers(StreamOf(q, db.catalog, db.literalName, tables), Meaning(q, db), Succeeds(q, db))
    decreases q
  {
    var catalog, name := db.catalog, db.literalName;
    match q
    case QScan(c, _, _) =>
      FilterNone(catalog[c], db.tables[c]);
    case QProject(ids, c) =>
      StreamMeans(c, db, tables);
      SchemaMeans(c, db);
      ProjectDelivers(ids, StreamOf(c, catalog, name, tables), Meaning(c, db), Succeeds(c, db), Names(ids, name));
    case QFilter(p, c) =>
      StreamMeans(c, db, tables);
      SchemaMeans(c, db);
      FilterDelivers(p, StreamOf(c, catalog, name, tables), Meaning(c, db), Succeeds(c, db));
    case QCross(_, l, r) =>
      StreamMeans(l, db, tables);
      StreamMeans(r, db, tables);
      CrossDelivers(StreamOf(l, catalog, name, tables), Meaning(l, db), Succeeds(l, db),
                    StreamOf(r, catalog, name, tables), Meaning(r, db), Succeeds(r, db));
  }

  /** Every part of the plan succeeds. */
  ghost predicate SucceedsThroughout(q: Query, db: Database) {
    && Succeeds(q, db)
    && match q
       case QProject(_, c) => SucceedsThroughout(c, db)
       case QFilter(_, c) => SucceedsThroughout(c, db)
       case QCross(_, l, r) => SucceedsThroughout(l, db) && SucceedsThroughout(r, db)
       case _ => true
  }

  /** Then opening succeeds, too. */
  lemma {:induction false} OpeningSucceeds(q: Query, db: Database, tables: Tables)
    requires Executable(q, db.catalog, db.literalName) && Holds(db, db.catalog, db.literalName, tables)
    requires SucceedsThroughout(q, db)
    ensures OpeningOf(q, db.catalog, db.literalName, tables).Clean?
    decreases q
  {
    match q
    case QScan(_, _, _) =>
    case QProject(_, c) => OpeningSucceeds(c, db, tables);
    case QFilter(_, c) => OpeningSucceeds(c, db, tables);
    case QCross(_, l, r) =>
      OpeningSucceeds(l, db, tables);
      OpeningSucceeds(r, db, tables);
      StreamMeans(l, db, tables);
  }

  // ----- building and running the operators -----

  /** Compiles the expressions and stacks the operators. */
  method Build(q: Query, catalog: Catalog, literalName: Field -> string, tables: Tables)
    returns (op: Iterators.OpIterator)
    requires Executable(q, catalog, literalName) && forall c :: c in catalog ==> c in tables
    ensures fresh(op.repr) && op.Valid() && !op.isOpen && op.canRewind
    ensures op.all == StreamOf(q, catalog, literalName, tables)
    ensures op.opening == OpeningOf(q, catalog, literalName, tables)
    decreases q
  {
    if q.QScan? {
      op := new Iterators.OpIterator.Tuples(tables[q.cid]);
    } else if q.QCross? {
      op := BuildCross(q, catalog, literalName, tables);
    } else {
      op := BuildUnary(q, catalog, literalName, tables);
    }
  }

  method BuildUnary(q: Query, catalog: Catalog, literalName: Field -> string, tables: Tables)
    returns (op: Iterators.OpIterator)
    requires (q.QProject? || q.QFilter?) && Executable(q, catalog, literalName)
    requires forall c :: c in catalog ==> c in tables
    ensures fresh(op.repr) && op.Valid() && !op.isOpen && op.canRewind
    ensures op.all == StreamOf(q, catalog, literalName, tables)
    ensures op.opening == OpeningOf(q, catalog, literalName, tables)
    decreases q, 0
  {
    var child := Build(q.child, catalog, literalName, tables);
    var schema := SchemaOf(q.child, catalog, literalName);
    if q.QProject? {
      var fields := CompileAll(q.ids, schema);
      op := new Iterators.OpIterator.Project(fields, child);
    } else {
      var test := Compile(q.p, schema);
      op := new Iterators.OpIterator.Filter(test, child);
    }
  }

  method BuildCross(q: Query, catalog: Catalog, literalName: Field -> string, tables: Tables)
    returns (op: Iterators.OpIterator)
    requires q.QCross? && Executable(q, catalog, literalName) && forall c :: c in catalog ==> c in tables
    ensures fresh(op.repr) && op.Valid() && !op.isOpen && op.canRewind
    ensures op.all == StreamOf(q, catalog, literalName, tables)
    ensures op.opening == OpeningOf(q, catalog, literalName, tables)
    decreases q, 0
  {
    var left := Build(q.left, catalog, literalName, tables);
    var right := Build(q.right, catalog, literalName, tables);
    op := new Iterators.OpIterator.CrossJoin(left, right);
  }

  method Compile(e: Expr, schema: seq<string>) returns (p: Program)
    requires CompilesOver(e, schema)
    ensures p == Compiled(e, schema)
  {
    var code := Convert(e, schema);
    p := Program(code.value.bytecodes, code.value.literals);
  }

  method CompileAll(es: seq<Expr>, schema: seq<string>) returns (ps: seq<Program>)
    requires AllCompileOver(es, schema)
    ensures ps == CompiledAll(es, schema)
  {
    ps := [];
    var i := 0;
    while i < |es|
      invariant 0 <= i <= |es| && ps == CompiledAll(es[..i], schema)
    {
      var p := Compile(es[i], schema);
      ps := ps + [p];
      i := i + 1;
    }
    assert es[..i] == es;
  }

  /** Compiles, stacks and runs a plan: whatever comes out are the rows the plan means, over every database that
      holds the tables, and something comes out exactly when opening and every evaluation reached succeed. */
  method Run(q: Query, catalog: Catalog, literalName: Field -> string, tables: Tables)
    returns (r: Outcome<seq<Tuple>>)
    requires Executable(q, catalog, literalName) && forall c :: c in catalog ==> c in tables
    ensures forall db :: Holds(db, catalog, literalName, tables) ==>
              && (r.Ok? <==> OpeningOf(q, catalog, literalName, tables).Clean? && Succeeds(q, db))
              && (SucceedsThroughout(q, db) ==> r.Ok?)
              && (r.Ok? ==> LiftAll(r.value) == Meaning(q, db).rows)
  {
    var op := Build(q, catalog, literalName, tables);
    op.Configure(false);
    r := Iterators.Execute(op);
    forall db | Holds(db, catalog, literalName, tables)
      ensures r.Ok? <==> OpeningOf(q, catalog, literalName, tables).Clean? && Succeeds(q, db)
      ensures SucceedsThroughout(q, db) ==> r.Ok?
      ensures r.Ok? ==> LiftAll(r.value) == Meaning(q, db).rows
    {
      StreamMeans(q, db, tables);
      if SucceedsThroughout(q, db) {
        OpeningSucceeds(q, db, tables);
      }
    }
  }
}
