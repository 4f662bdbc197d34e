/** The predicate pushdown rule on plan trees, and why it keeps the meaning of
    every plan the translator emits. */
module PredicatePushdown {
  import opened Options
  import opened Fields
  import opened Ast
  import opened Relational

  // ----- the rule -----

  /** `separate_predicates_by_and`. */
  function SplitAnd(e: Expr): seq<Expr> {
    if e.Boolean? && e.bop.And? then SplitAnd(e.l) + SplitAnd(e.r) else [e]
  }

  function SplitOption(o: Option<Expr>): seq<Expr> { if o.None? then [] else SplitAnd(o.value) }

  function AndAll(first: Expr, ps: seq<Expr>): Expr
    decreases |ps|
  {
    if ps == [] then first else AndAll(Boolean(And, first, ps[0]), ps[1..])
  }

  /** `combine_predicates_with_and`. */
  function CombineAnd(ps: seq<Expr>): Option<Expr> {
    if ps == [] then None else Some(AndAll(ps[0], ps[1..]))
  }

  /** `extract_columns_vec`. */
  function ColumnsOfAll(es: seq<Expr>): set<string> {
    if es == [] then {} else ColumnsOfAll(es[..|es| - 1]) + Columns(es[|es| - 1])
  }

  /** `extract_columns_from_plan`. */
  function PlanColumns(q: Query, catalog: Catalog): set<string> {
    match q
    case QScan(c, _, p) =>
      if p.Some? then ColumnsOfAll(p.value) else if c in catalog then set x | x in catalog[c] else {}
    case QProject(ids, _) => ColumnsOfAll(ids)
    case QFilter(_, c) => PlanColumns(c, catalog)
    case QAggregate(fs, gs, _, _) => ColumnsOfAll(fs) + ColumnsOfAll(gs)
    case QJoin(_, _, l, r) => PlanColumns(l, catalog) + PlanColumns(r, catalog)
    case QCross(_, l, r) => PlanColumns(l, catalog) + PlanColumns(r, catalog)
    case QSort(_, c) => PlanColumns(c, catalog)
  }

  /** Where the predicates above a join go. */
  datatype Split = Split(left: seq<Expr>, right: seq<Expr>, eqs: seq<(Expr, Expr)>, rest: seq<Expr>)

  function Place(s: Split, p: Expr, l: set<string>, r: set<string>): Split {
    if Columns(p) <= l then s.(left := s.left + [p])
    else if Columns(p) <= r then s.(right := s.right + [p])
    else if p.Boolean? && p.bop.Eq? && Columns(p.l) <= l && Columns(p.r) <= r then s.(eqs := s.eqs + [(p.l, p.r)])
    else if p.Boolean? && p.bop.Eq? && Columns(p.l) <= r && Columns(p.r) <= l then s.(eqs := s.eqs + [(p.r, p.l)])
    else s.(rest := s.rest + [p])
  }

  function SplitBetween(ps: seq<Expr>, l: set<string>, r: set<string>): Split {
    if ps == [] then Split([], [], [], [])
    else Place(SplitBetween(ps[..|ps| - 1], l, r), ps[|ps| - 1], l, r)
  }

  /** The predicates over the given columns, and the others. */
  function Pushable(ps: seq<Expr>, columns: set<string>): (r: seq<Expr>)
    ensures forall p :: p in r <==> p in ps && Columns(p) <= columns
  {
    if ps == [] then []
    else
      Pushable(ps[..|ps| - 1], columns) + if Columns(ps[|ps| - 1]) <= columns then [ps[|ps| - 1]] else []
  }

  function Stuck(ps: seq<Expr>, columns: set<string>): (r: seq<Expr>)
    ensures forall p :: p in r <==> p in ps && !(Columns(p) <= columns)
  {
    if ps == [] then []
    else
      Stuck(ps[..|ps| - 1], columns) + if Columns(ps[|ps| - 1]) <= columns then [] else [ps[|ps| - 1]]
  }

  /** `pushdown`: moves `ps` and the filters of the plan as far down as they go. */
  function Push(q: Query, ps: seq<Expr>, catalog: Catalog): Query
    decreases q
  {
    match q
    case QScan(c, f, p) => QScan(c, CombineAnd(ps + SplitOption(f)), p)
    case QProject(ids, c) => QProject(ids, Push(c, ps, catalog))
    case QFilter(p, c) => Push(c, ps + SplitAnd(p), catalog)
    case QAggregate(fs, gs, h, c) =>
      var all, columns := ps + SplitOption(h), PlanColumns(c, catalog);
      QAggregate(fs, gs, CombineAnd(Stuck(all, columns)), Push(c, Pushable(all, columns), catalog))
    case QJoin(es, f, l, r) =>
      var s := SplitBetween(ps + SplitOption(f), PlanColumns(l, catalog), PlanColumns(r, catalog));
      QJoin(es + s.eqs, CombineAnd(s.rest), Push(l, s.left, catalog), Push(r, s.right, catalog))
    case QCross(f, l, r) =>
      var s := SplitBetween(ps + SplitOption(f), PlanColumns(l, catalog), PlanColumns(r, catalog));
      var nl, nr := Push(l, s.left, catalog), Push(r, s.right, catalog);
      if s.eqs != [] then QJoin(s.eqs, CombineAnd(s.rest), nl, nr) else QCross(CombineAnd(s.rest), nl, nr)
    case QSort(ks, c) => QSort(ks, Push(c, ps, catalog))
  }

  // ----- splitting and combining -----

  lemma {:induction false} SplitAndKeeps(e: Expr, schema: seq<string>, row: Row)
    ensures KeepsAll(SplitAnd(e), schema, row) <==> Keeps(e, schema, row)
  {
    if e.Boolean? && e.bop.And? {
      SplitAndKeeps(e.l, schema, row);
      SplitAndKeeps(e.r, schema, row);
      KeepsConcat(SplitAnd(e.l), SplitAnd(e.r), schema, row);
      KeepsAnd(e.l, e.r, schema, row);
    } else {
      KeepsOne(e, schema, row);
    }
  }

  lemma KeepsOne(e: Expr, schema: seq<string>, row: Row)
    ensures KeepsAll([e], schema, row) <==> Keeps(e, schema, row)
  {
    if KeepsAll([e], schema, row) {
      assert Keeps([e][0], schema, row);
    }
  }

  lemma KeepsAnd(a: Expr, b: Expr, schema: seq<string>, row: Row)
    ensures Keeps(Boolean(And, a, b), schema, row) <==> Keeps(a, schema, row) && Keeps(b, schema, row)
  {
    var x, y := EvalNamed(a, schema, row), EvalNamed(b, schema, row);
    if x.Ok? && y.Ok? {
      assert EvalNamed(Boolean(And, a, b), schema, row) == BoolFields(And, x.value, y.value);
    }
  }

  lemma SplitOptionKeeps(o: Option<Expr>, schema: seq<string>, row: Row)
    ensures KeepsAll(SplitOption(o), schema, row) <==> KeepsAll(OptPreds(o), schema, row)
  {
    if o.Some? {
      SplitAndKeeps(o.value, schema, row);
      KeepsOne(o.value, schema, row);
    }
  }

  lemma {:induction false} AndAllKeeps(first: Expr, ps: seq<Expr>, schema: seq<string>, row: Row)
    ensures Keeps(AndAll(first, ps), schema, row) <==> Keeps(first, schema, row) && KeepsAll(ps, schema, row)
    decreases |ps|
  {
    if ps != [] {
      AndAllKeeps(Boolean(And, first, ps[0]), ps[1..], schema, row);
      KeepsAnd(first, ps[0], schema, row);
      KeepsConcat([ps[0]], ps[1..], schema, row);
      KeepsOne(ps[0], schema, row);
      assert ps == [ps[0]] + ps[1..];
    }
  }

  /** Combining a list of predicates into one filter keeps exactly the same rows. */
  lemma CombineKeeps(ps: seq<Expr>, schema: seq<string>, row: Row)
    ensures KeepsAll(OptPreds(CombineAnd(ps)), schema, row) <==> KeepsAll(ps, schema, row)
  {
    if ps != [] {
      AndAllKeeps(ps[0], ps[1..], schema, row);
      KeepsOne(AndAll(ps[0], ps[1..]), schema, row);
      KeepsConcat([ps[0]], ps[1..], schema, row);
      KeepsOne(ps[0], schema, row);
      assert ps == [ps[0]] + ps[1..];
    }
  }

  /** One more predicate is put on the right of all before it. */
  lemma {:induction false} AndAllSnoc(first: Expr, ps: seq<Expr>, p: Expr)
    ensures AndAll(first, ps + [p]) == Boolean(And, AndAll(first, ps), p)
    decreases |ps|
  {
    if ps == [] {
      assert [p][1..] == [];
    } else {
      assert (ps + [p])[1..] == ps[1..] + [p];
      AndAllSnoc(Boolean(And, first, ps[0]), ps[1..], p);
    }
  }

  lemma CombineSnoc(ps: seq<Expr>, p: Expr)
    ensures CombineAnd(ps + [p]) == Some(if ps == [] then p else Boolean(And, CombineAnd(ps).value, p))
  {
    if ps == [] {
      assert [p][1..] == [];
    } else {
      assert (ps + [p])[1..] == ps[1..] + [p];
      AndAllSnoc(ps[0], ps[1..], p);
    }
  }

  // ----- unbound predicates -----

  predicate AllUnbound(ps: seq<Expr>) { forall p :: p in ps ==> Unbound(p) }

  lemma {:induction false} SplitAndUnbound(e: Expr)
    requires Unbound(e)
    ensures AllUnbound(SplitAnd(e))
  {
    if e.Boolean? && e.bop.And? {
      SplitAndUnbound(e.l);
      SplitAndUnbound(e.r);
    }
  }

  predicate OptionUnbound(o: Option<Expr>) { o.Some? ==> Unbound(o.value) }

  predicate EqsUnbound(es: seq<(Expr, Expr)>) { forall e :: e in es ==> Unbound(e.0) && Unbound(e.1) }

  lemma EqPredsUnbound(es: seq<(Expr, Expr)>)
    requires EqsUnbound(es)
    ensures AllUnbound(EqPreds(es))
  {
    forall p | p in EqPreds(es) ensures Unbound(p) {
      var i :| 0 <= i < |es| && EqPreds(es)[i] == p;
      assert es[i] in es;
    }
  }

  lemma SplitOptionUnbound(ps: seq<Expr>, o: Option<Expr>)
    requires AllUnbound(ps) && OptionUnbound(o)
    ensures AllUnbound(ps + SplitOption(o))
  {
    if o.Some? {
      SplitAndUnbound(o.value);
    }
  }

  // ----- joins -----

  /** A predicate over the left columns sees only the left row of a pair. */
  lemma KeepsLeft(p: Expr, sl: seq<string>, sr: seq<string>, l: Row, r: Row)
    requires Unbound(p) && Columns(p) <= (set x | x in sl) && |l| == |sl|
    ensures EvalNamed(p, sl + sr, l + r) == EvalNamed(p, sl, l)
  {
    forall c | c in Columns(p) ensures CellOf(sl + sr, l + r, c) == CellOf(sl, l, c) {
      assert c in sl;
      IndexLeft(sl, sr, c);
    }
    EvalNamedAgree(p, sl + sr, l + r, sl, l);
  }

  lemma KeepsRight(p: Expr, sl: seq<string>, sr: seq<string>, l: Row, r: Row)
    requires Unbound(p) && Columns(p) <= (set x | x in sr) && |l| == |sl| && |r| == |sr|
    requires (set x | x in sl) !! (set x | x in sr)
    ensures EvalNamed(p, sl + sr, l + r) == EvalNamed(p, sr, r)
  {
    forall c | c in Columns(p) ensures CellOf(sl + sr, l + r, c) == CellOf(sr, r, c) {
      assert c in sr;
      assert c in (set x | x in sr);
      assert c !in (set x | x in sl);
      IndexRight(sl, sr, c);
    }
    EvalNamedAgree(p, sl + sr, l + r, sr, r);
  }

  lemma {:induction false} IndexLeft(sl: seq<string>, sr: seq<string>, c: string)
    requires c in sl
    ensures IndexOf(sl + sr, c) == IndexOf(sl, c)
  {
    if sl[0] != c {
      assert (sl + sr)[1..] == sl[1..] + sr;
      IndexLeft(sl[1..], sr, c);
    }
  }

  lemma {:induction false} IndexRight(sl: seq<string>, sr: seq<string>, c: string)
    requires c !in sl && c in sr
    ensures IndexOf(sr, c).Some? && IndexOf(sl + sr, c) == Some(IndexOf(sr, c).value + |sl|)
  {
    if sl == [] {
      assert sl + sr == sr;
    } else {
      assert (sl + sr)[1..] == sl[1..] + sr;
      IndexRight(sl[1..], sr, c);
    }
  }

  lemma KeepsSwapped(a: Expr, b: Expr, schema: seq<string>, row: Row)
    ensures Keeps(Boolean(Eq, a, b), schema, row) <==> Keeps(Boolean(Eq, b, a), schema, row)
  {
    var x, y := EvalNamed(a, schema, row), EvalNamed(b, schema, row);
    if x.Ok? && y.Ok? {
      assert EvalNamed(Boolean(Eq, a, b), schema, row) == BoolFields(Eq, x.value, y.value);
      assert EvalNamed(Boolean(Eq, b, a), schema, row) == BoolFields(Eq, y.value, x.value);
    }
  }

  /** A pair of rows passes a split list of predicates. */
  predicate KeepsSplit(s: Split, sl: seq<string>, sr: seq<string>, l: Row, r: Row) {
    && KeepsAll(s.left, sl, l)
    && KeepsAll(s.right, sr, r)
    && KeepsAll(EqPreds(s.eqs), sl + sr, l + r)
    && KeepsAll(s.rest, sl + sr, l + r)
  }

  lemma KeepsSnoc(ps: seq<Expr>, p: Expr, schema: seq<string>, row: Row)
    ensures KeepsAll(ps + [p], schema, row) <==> KeepsAll(ps, schema, row) && Keeps(p, schema, row)
  {
    KeepsConcat(ps, [p], schema, row);
    KeepsOne(p, schema, row);
  }

  lemma EqPredsSnoc(es: seq<(Expr, Expr)>, a: Expr, b: Expr)
    ensures EqPreds(es + [(a, b)]) == EqPreds(es) + [Boolean(Eq, a, b)]
  {
  }

  /** Placing one more predicate adds exactly its own test. */
  lemma PlaceKeeps(s: Split, p: Expr, sl: seq<string>, sr: seq<string>, l: Row, r: Row)
    requires Unbound(p) && |l| == |sl| && |r| == |sr| && (set x | x in sl) !! (set x | x in sr)
    ensures KeepsSplit(Place(s, p, set x | x in sl, set x | x in sr), sl, sr, l, r)
       <==> KeepsSplit(s, sl, sr, l, r) && Keeps(p, sl + sr, l + r)
  {
    var cl, cr := set x | x in sl, set x | x in sr;
    if Columns(p) <= cl {
      KeepsLeft(p, sl, sr, l, r);
      KeepsSnoc(s.left, p, sl, l);
    } else if Columns(p) <= cr {
      KeepsRight(p, sl, sr, l, r);
      KeepsSnoc(s.right, p, sr, r);
    } else if p.Boolean? && p.bop.Eq? && Columns(p.l) <= cl && Columns(p.r) <= cr {
      EqPredsSnoc(s.eqs, p.l, p.r);
      KeepsSnoc(EqPreds(s.eqs), p, sl + sr, l + r);
    } else if p.Boolean? && p.bop.Eq? && Columns(p.l) <= cr && Columns(p.r) <= cl {
      EqPredsSnoc(s.eqs, p.r, p.l);
      KeepsSnoc(EqPreds(s.eqs), Boolean(Eq, p.r, p.l), sl + sr, l + r);
      KeepsSwapped(p.l, p.r, sl + sr, l + r);
    } else {
      KeepsSnoc(s.rest, p, sl + sr, l + r);
    }
  }

  /** Splitting predicates between the sides of a join loses and adds nothing. */
  lemma {:induction false} SplitKeeps(ps: seq<Expr>, sl: seq<string>, sr: seq<string>, l: Row, r: Row)
    requires AllUnbound(ps) && |l| == |sl| && |r| == |sr| && (set x | x in sl) !! (set x | x in sr)
    ensures KeepsSplit(SplitBetween(ps, set x | x in sl, set x | x in sr), sl, sr, l, r)
       <==> KeepsAll(ps, sl + sr, l + r)
  {
    if ps != [] {
      var front, p := ps[..|ps| - 1], ps[|ps| - 1];
      SplitKeeps(front, sl, sr, l, r);
      PlaceKeeps(SplitBetween(front, set x | x in sl, set x | x in sr), p, sl, sr, l, r);
      KeepsSnoc(front, p, sl + sr, l + r);
      assert ps == front + [p];
    }
  }

  lemma {:induction false} SplitUnbound(ps: seq<Expr>, l: set<string>, r: set<string>)
    requires AllUnbound(ps)
    ensures var s := SplitBetween(ps, l, r);
      AllUnbound(s.left) && AllUnbound(s.right) && AllUnbound(s.rest) && EqsUnbound(s.eqs)
  {
    if ps != [] {
      assert ps[|ps| - 1] in ps;
      SplitUnbound(ps[..|ps| - 1], l, r);
    }
  }

  lemma PairKept(es: seq<(Expr, Expr)>, f: Option<Expr>, ps: seq<Expr>, sl: seq<string>, sr: seq<string>,
                 l: Row, r: Row, s: Split)
    requires AllUnbound(ps) && OptionUnbound(f) && |l| == |sl| && |r| == |sr|
    requires (set x | x in sl) !! (set x | x in sr)
    requires s == SplitBetween(ps + SplitOption(f), set x | x in sl, set x | x in sr)
    ensures KeepsAll(ps + (EqPreds(es) + OptPreds(f)), sl + sr, l + r)
       <==> && KeepsAll(s.left, sl, l)
            && KeepsAll(s.right, sr, r)
            && KeepsAll(EqPreds(es + s.eqs) + OptPreds(CombineAnd(s.rest)), sl + sr, l + r)
  {
    SplitOptionUnbound(ps, f);
    SplitKeeps(ps + SplitOption(f), sl, sr, l, r);
    TestsBefore(es, f, ps, sl + sr, l + r);
    TestsAfter(es, s.eqs, s.rest, sl + sr, l + r);
  }

  lemma TestsBefore(es: seq<(Expr, Expr)>, f: Option<Expr>, ps: seq<Expr>, t: seq<string>, x: Row)
    ensures KeepsAll(ps + (EqPreds(es) + OptPreds(f)), t, x)
       <==> KeepsAll(ps + SplitOption(f), t, x) && KeepsAll(EqPreds(es), t, x)
  {
    KeepsConcat(ps, SplitOption(f), t, x);
    SplitOptionKeeps(f, t, x);
    KeepsConcat(ps, EqPreds(es) + OptPreds(f), t, x);
    KeepsConcat(EqPreds(es), OptPreds(f), t, x);
  }

  lemma TestsAfter(es: seq<(Expr, Expr)>, eqs: seq<(Expr, Expr)>, rest: seq<Expr>, t: seq<string>, x: Row)
    ensures KeepsAll(EqPreds(es + eqs) + OptPreds(CombineAnd(rest)), t, x)
       <==> KeepsAll(EqPreds(es), t, x) && KeepsAll(EqPreds(eqs), t, x) && KeepsAll(rest, t, x)
  {
    assert EqPreds(es + eqs) == EqPreds(es) + EqPreds(eqs);
    KeepsConcat(EqPreds(es) + EqPreds(eqs), OptPreds(CombineAnd(rest)), t, x);
    KeepsConcat(EqPreds(es), EqPreds(eqs), t, x);
    CombineKeeps(rest, t, x);
  }

  /** `s` splits `ps` and the filter `f` between two relations with different column names. */
  ghost predicate SplitsAbove(s: Split, ps: seq<Expr>, f: Option<Expr>, a: Rel, b: Rel) {
    && AllUnbound(ps) && OptionUnbound(f)
    && Wide(a.rows, |a.schema|) && Wide(b.rows, |b.schema|)
    && (set x | x in a.schema) !! (set x | x in b.schema)
    && s == SplitBetween(ps + SplitOption(f), set x | x in a.schema, set x | x in b.schema)
  }

  /** Pushing predicates into the two sides of a join, with the equalities promoted, keeps the joined rows. */
  lemma JoinKept(es: seq<(Expr, Expr)>, f: Option<Expr>, ps: seq<Expr>, a: Rel, b: Rel, s: Split)
    requires SplitsAbove(s, ps, f, a, b)
    ensures FilterRel(ps, JoinRel(EqPreds(es) + OptPreds(f), a, b))
         == JoinRel(EqPreds(es + s.eqs) + OptPreds(CombineAnd(s.rest)), FilterRel(s.left, a), FilterRel(s.right, b))
  {
    var before, after := ps + (EqPreds(es) + OptPreds(f)), EqPreds(es + s.eqs) + OptPreds(CombineAnd(s.rest));
    var schema := a.schema + b.schema;
    FilterTwice(ps, EqPreds(es) + OptPreds(f), schema, Product(a.rows, b.rows));
    assert PairSplit(before, after, s.left, s.right, a.schema, b.schema, a.rows, b.rows) by {
      forall l, r | l in a.rows && r in b.rows
        ensures KeepsAll(before, schema, l + r) <==>
                KeepsAll(s.left, a.schema, l) && KeepsAll(s.right, b.schema, r) && KeepsAll(after, schema, l + r)
      {
        PairKept(es, f, ps, a.schema, b.schema, l, r, s);
      }
    }
    ProductFilter(before, after, s.left, s.right, a.schema, b.schema, a.rows, b.rows);
  }

  // ----- plans below an aggregate -----

  /** Scans without projection, filters and joins of sides with different column names. */
  predicate Base(q: Query, catalog: Catalog) {
    match q
    case QScan(c, f, p) => c in catalog && p.None? && OptionUnbound(f)
    case QFilter(p, c) => Unbound(p) && Base(c, catalog)
    case QJoin(_, f, l, r) =>
      OptionUnbound(f) && Base(l, catalog) && Base(r, catalog) && PlanColumns(l, catalog) !! PlanColumns(r, catalog)
    case QCross(f, l, r) =>
      OptionUnbound(f) && Base(l, catalog) && Base(r, catalog) && PlanColumns(l, catalog) !! PlanColumns(r, catalog)
    case _ => false
  }

  /** The columns the rule computes for such a plan are those of its result. */
  lemma {:induction false} BaseColumns(q: Query, db: Database)
    requires Valid(db) && Base(q, db.catalog)
    ensures PlanColumns(q, db.catalog) == set x | x in Meaning(q, db).schema
    ensures Wide(Meaning(q, db).rows, |Meaning(q, db).schema|)
  {
    match q
    case QScan(c, f, _) =>
      FilterWide(OptPreds(f), db.catalog[c], db.tables[c], |db.catalog[c]|);
    case QFilter(p, c) =>
      BaseColumns(c, db);
      FilterWide([p], Meaning(c, db).schema, Meaning(c, db).rows, |Meaning(c, db).schema|);
    case QJoin(es, f, l, r) =>
      BaseColumns(l, db);
      BaseColumns(r, db);
      PairsWide(Meaning(l, db), Meaning(r, db), EqPreds(es) + OptPreds(f));
    case QCross(f, l, r) =>
      BaseColumns(l, db);
      BaseColumns(r, db);
      PairsWide(Meaning(l, db), Meaning(r, db), OptPreds(f));
  }

  lemma PairsWide(a: Rel, b: Rel, ps: seq<Expr>)
    requires Wide(a.rows, |a.schema|) && Wide(b.rows, |b.schema|)
    ensures Wide(FilterRows(ps, a.schema + b.schema, Product(a.rows, b.rows)), |a.schema + b.schema|)
  {
    ProductWide(a.rows, b.rows, |a.schema|, |b.schema|);
    FilterWide(ps, a.schema + b.schema, Product(a.rows, b.rows), |a.schema| + |b.schema|);
  }

  lemma ScanKept(f: Option<Expr>, ps: seq<Expr>, schema: seq<string>, rows: seq<Row>)
    ensures FilterRows(OptPreds(CombineAnd(ps + SplitOption(f))), schema, rows)
         == FilterRows(ps, schema, FilterRows(OptPreds(f), schema, rows))
  {
    FilterTwice(ps, OptPreds(f), schema, rows);
    forall x | x in rows
      ensures KeepsAll(OptPreds(CombineAnd(ps + SplitOption(f))), schema, x) <==> KeepsAll(ps + OptPreds(f), schema, x)
    {
      CombineKeeps(ps + SplitOption(f), schema, x);
      KeepsConcat(ps, SplitOption(f), schema, x);
      SplitOptionKeeps(f, schema, x);
      KeepsConcat(ps, OptPreds(f), schema, x);
    }
    FilterAgree(OptPreds(CombineAnd(ps + SplitOption(f))), ps + OptPreds(f), schema, rows);
  }

  lemma FilterKept(p: Expr, ps: seq<Expr>, schema: seq<string>, rows: seq<Row>)
    ensures FilterRows(ps + SplitAnd(p), schema, rows) == FilterRows(ps, schema, FilterRows([p], schema, rows))
  {
    FilterTwice(ps, [p], schema, rows);
    forall x | x in rows ensures KeepsAll(ps + SplitAnd(p), schema, x) <==> KeepsAll(ps + [p], schema, x) {
      KeepsConcat(ps, SplitAnd(p), schema, x);
      SplitAndKeeps(p, schema, x);
      KeepsSnoc(ps, p, schema, x);
    }
    FilterAgree(ps + SplitAnd(p), ps + [p], schema, rows);
  }

  /** Below an aggregate: pushing `ps` into a plan is filtering its result by `ps`. */
  lemma {:induction false} PushBase(q: Query, ps: seq<Expr>, db: Database)
    requires Valid(db) && Base(q, db.catalog) && AllUnbound(ps)
    ensures Meaning(Push(q, ps, db.catalog), db) == FilterRel(ps, Meaning(q, db))
    decreases q
  {
    match q
    case QScan(c, f, _) =>
      ScanKept(f, ps, ScanSchema(db, c), ScanRows(db, c));
    case QFilter(p, c) =>
      SplitAndUnbound(p);
      PushBase(c, ps + SplitAnd(p), db);
      FilterKept(p, ps, Meaning(c, db).schema, Meaning(c, db).rows);
    case QJoin(es, f, l, r) =>
      var s := SplitAbove(q, ps, db.catalog);
      SidesUnbound(q, ps, db.catalog);
      PushBase(l, s.left, db);
      PushBase(r, s.right, db);
      BaseColumns(l, db);
      BaseColumns(r, db);
      PushJoin(es, f, l, r, ps, db, s, Push(l, s.left, db.catalog), Push(r, s.right, db.catalog));
    case QCross(f, l, r) =>
      var s := SplitAbove(q, ps, db.catalog);
      SidesUnbound(q, ps, db.catalog);
      PushBase(l, s.left, db);
      PushBase(r, s.right, db);
      BaseColumns(l, db);
      BaseColumns(r, db);
      PushCross(f, l, r, ps, db, s, Push(l, s.left, db.catalog), Push(r, s.right, db.catalog));
  }

  function SplitAbove(q: Query, ps: seq<Expr>, catalog: Catalog): Split
    requires q.QJoin? || q.QCross?
  {
    SplitBetween(ps + SplitOption(if q.QJoin? then q.jfilter else q.cfilter),
                 PlanColumns(q.left, catalog), PlanColumns(q.right, catalog))
  }

  lemma SidesUnbound(q: Query, ps: seq<Expr>, catalog: Catalog)
    requires q.QJoin? || q.QCross?
    requires Base(q, catalog) && AllUnbound(ps)
    ensures AllUnbound(SplitAbove(q, ps, catalog).left) && AllUnbound(SplitAbove(q, ps, catalog).right)
  {
    var f := if q.QJoin? then q.jfilter else q.cfilter;
    SplitOptionUnbound(ps, f);
    SplitUnbound(ps + SplitOption(f), PlanColumns(q.left, catalog), PlanColumns(q.right, catalog));
  }

  lemma CrossIsJoin(f: Option<Expr>, l: Query, r: Query, db: Database)
    ensures Meaning(QCross(f, l, r), db) == Meaning(QJoin([], f, l, r), db)
  {
    assert EqPreds([]) + OptPreds(f) == OptPreds(f);
  }

  lemma PushJoin(es: seq<(Expr, Expr)>, f: Option<Expr>, l: Query, r: Query, ps: seq<Expr>, db: Database, s: Split,
                 nl: Query, nr: Query)
    requires SplitsAbove(s, ps, f, Meaning(l, db), Meaning(r, db))
    requires Meaning(nl, db) == FilterRel(s.left, Meaning(l, db))
    requires Meaning(nr, db) == FilterRel(s.right, Meaning(r, db))
    ensures Meaning(QJoin(es + s.eqs, CombineAnd(s.rest), nl, nr), db) == FilterRel(ps, Meaning(QJoin(es, f, l, r), db))
  {
    JoinMeans(es, f, l, r, db);
    JoinMeans(es + s.eqs, CombineAnd(s.rest), nl, nr, db);
    JoinKept(es, f, ps, Meaning(l, db), Meaning(r, db), s);
  }

  lemma JoinMeans(es: seq<(Expr, Expr)>, f: Option<Expr>, l: Query, r: Query, db: Database)
    ensures Meaning(QJoin(es, f, l, r), db) == JoinRel(EqPreds(es) + OptPreds(f), Meaning(l, db), Meaning(r, db))
  {
  }

  lemma PushCross(f: Option<Expr>, l: Query, r: Query, ps: seq<Expr>, db: Database, s: Split, nl: Query, nr: Query)
    requires SplitsAbove(s, ps, f, Meaning(l, db), Meaning(r, db))
    requires Meaning(nl, db) == FilterRel(s.left, Meaning(l, db))
    requires Meaning(nr, db) == FilterRel(s.right, Meaning(r, db))
    ensures Meaning(if s.eqs != [] then QJoin(s.eqs, CombineAnd(s.rest), nl, nr)
                    else QCross(CombineAnd(s.rest), nl, nr), db)
         == FilterRel(ps, Meaning(QCross(f, l, r), db))
  {
    PushJoin([], f, l, r, ps, db, s, nl, nr);
    CrossIsJoin(f, l, r, db);
    CrossIsJoin(CombineAnd(s.rest), nl, nr, db);
    assert [] + s.eqs == s.eqs;
  }

  // ----- aggregates -----

  /** A name that the aggregate's output resolves to the group-by column of that name. */
  predicate GroupColumn(gs: seq<Expr>, names: seq<string>, c: string)
    requires |names| == |gs|
  {
    IndexOf(names, c).Some? && gs[IndexOf(names, c).value] == Ident(c)
  }

  predicate OverGroups(p: Expr, gs: seq<Expr>, names: seq<string>)
    requires |names| == |gs|
  {
    Unbound(p) && forall c :: c in Columns(p) ==> GroupColumn(gs, names, c)
  }

  /** A predicate over group columns gives every row of a group the value it gives the group's key. */
  lemma KeyValue(p: Expr, gs: seq<Expr>, names: seq<string>, schema: seq<string>, row: Row)
    requires |names| == |gs| && OverGroups(p, gs, names)
    ensures EvalNamed(p, names, EvalAll(gs, schema, row)) == EvalNamed(p, schema, row)
  {
    var key := EvalAll(gs, schema, row);
    forall c | c in Columns(p) ensures CellOf(names, key, c) == CellOf(schema, row, c) {
      assert GroupColumn(gs, names, c);
      var i := IndexOf(names, c).value;
      assert key[i] == EvalNamed(gs[i], schema, row);
    }
    EvalNamedAgree(p, names, key, schema, row);
  }

  ghost predicate KeyTests(ps: seq<Expr>, gs: seq<Expr>, names: seq<string>, schema: seq<string>) {
    forall row :: KeepsAll(ps, schema, row) <==> KeepsAll(ps, names, EvalAll(gs, schema, row))
  }

  predicate AllOverGroups(ps: seq<Expr>, gs: seq<Expr>, names: seq<string>)
    requires |names| == |gs|
  {
    forall i :: 0 <= i < |ps| ==> OverGroups(ps[i], gs, names)
  }

  lemma KeysTest(ps: seq<Expr>, gs: seq<Expr>, names: seq<string>, schema: seq<string>)
    requires |names| == |gs| && AllOverGroups(ps, gs, names)
    ensures KeyTests(ps, gs, names, schema)
  {
    forall row ensures KeepsAll(ps, schema, row) <==> KeepsAll(ps, names, EvalAll(gs, schema, row)) {
      forall i | 0 <= i < |ps|
        ensures Keeps(ps[i], schema, row) <==> Keeps(ps[i], names, EvalAll(gs, schema, row))
      {
        KeyValue(ps[i], gs, names, schema, row);
      }
    }
  }

  lemma {:induction false} FilterMembers(ps: seq<Expr>, schema: seq<string>, rows: seq<Row>, x: Row)
    ensures x in FilterRows(ps, schema, rows) <==> x in rows && KeepsAll(ps, schema, x)
  {
    if rows != [] {
      FilterMembers(ps, schema, rows[1..], x);
    }
  }

  lemma FilterSnoc(ps: seq<Expr>, schema: seq<string>, rows: seq<Row>, x: Row)
    ensures FilterRows(ps, schema, rows + [x])
         == FilterRows(ps, schema, rows) + if KeepsAll(ps, schema, x) then [x] else []
  {
    FilterConcat(ps, schema, rows, [x]);
    FilterCons(ps, schema, x, []);
    assert [x] + [] == [x];
  }

  lemma GroupKeysSnoc(gs: seq<Expr>, schema: seq<string>, rows: seq<Row>, x: Row)
    ensures GroupKeys(gs, schema, rows + [x])
         == GroupKeys(gs, schema, rows)
            + if EvalAll(gs, schema, x) in GroupKeys(gs, schema, rows) then [] else [EvalAll(gs, schema, x)]
  {
    assert (rows + [x])[..|rows|] == rows;
  }

  /** Filtering rows by a test on their keys filters the keys. */
  lemma {:induction false} KeysFiltered(
      ps: seq<Expr>, gs: seq<Expr>, names: seq<string>, schema: seq<string>, rows: seq<Row>)
    requires KeyTests(ps, gs, names, schema)
    ensures GroupKeys(gs, schema, FilterRows(ps, schema, rows)) == FilterRows(ps, names, GroupKeys(gs, schema, rows))
    decreases |rows|
  {
    if rows != [] {
      var front, x := rows[..|rows| - 1], rows[|rows| - 1];
      var k, keys := EvalAll(gs, schema, x), GroupKeys(gs, schema, front);
      assert rows == front + [x];
      KeysFiltered(ps, gs, names, schema, front);
      FilterSnoc(ps, schema, front, x);
      GroupKeysSnoc(gs, schema, front, x);
      FilterMembers(ps, names, keys, k);
      FilterSnoc(ps, names, keys, k);
      assert KeepsAll(ps, schema, x) <==> KeepsAll(ps, names, k);
      if KeepsAll(ps, schema, x) {
        GroupKeysSnoc(gs, schema, FilterRows(ps, schema, front), x);
      } else {
        assert FilterRows(ps, schema, front) + [] == FilterRows(ps, schema, front);
      }
    }
  }

  lemma GroupRowsSnoc(gs: seq<Expr>, schema: seq<string>, rows: seq<Row>, key: Row, x: Row)
    ensures GroupRows(gs, schema, rows + [x], key)
         == GroupRows(gs, schema, rows, key) + if EvalAll(gs, schema, x) == key then [x] else []
  {
    assert (rows + [x])[..|rows|] == rows;
  }

  /** A group whose key passes keeps all its rows. */
  lemma {:induction false} GroupKept(
      ps: seq<Expr>, gs: seq<Expr>, names: seq<string>, schema: seq<string>, rows: seq<Row>, key: Row)
    requires KeyTests(ps, gs, names, schema) && KeepsAll(ps, names, key)
    ensures GroupRows(gs, schema, FilterRows(ps, schema, rows), key) == GroupRows(gs, schema, rows, key)
    decreases |rows|
  {
    if rows != [] {
      var front, x := rows[..|rows| - 1], rows[|rows| - 1];
      assert rows == front + [x];
      GroupKept(ps, gs, names, schema, front, key);
      FilterSnoc(ps, schema, front, x);
      GroupRowsSnoc(gs, schema, front, key, x);
      assert KeepsAll(ps, schema, x) <==> KeepsAll(ps, names, EvalAll(gs, schema, x));
      if KeepsAll(ps, schema, x) {
        GroupRowsSnoc(gs, schema, FilterRows(ps, schema, front), key, x);
      } else {
        assert FilterRows(ps, schema, front) + [] == FilterRows(ps, schema, front);
      }
    }
  }

  /** A test on the key columns decides an output row by its key. */
  lemma OutputTest(ps: seq<Expr>, gs: seq<Expr>, names: seq<string>, more: seq<string>, key: Row, cells: Row)
    requires |names| == |gs| == |key| && AllOverGroups(ps, gs, names)
    ensures KeepsAll(ps, names + more, key + cells) <==> KeepsAll(ps, names, key)
  {
    forall i | 0 <= i < |ps| ensures Keeps(ps[i], names + more, key + cells) <==> Keeps(ps[i], names, key) {
      assert OverGroups(ps[i], gs, names);
      forall c | c in Columns(ps[i]) ensures c in names {
        assert GroupColumn(gs, names, c);
      }
      KeepsLeft(ps[i], names, more, key, cells);
    }
  }

  /** Filtering the rows of an aggregate by a test on group columns filters its output. */
  lemma {:induction false} OutputsFiltered(
      q: Query, ps: seq<Expr>, names: seq<string>, more: seq<string>, schema: seq<string>, rows: seq<Row>,
      keys: seq<Row>, db: Database)
    requires q.QAggregate? && |names| == |q.groupBy| && AllOverGroups(ps, q.groupBy, names)
    requires KeyTests(ps, q.groupBy, names, schema) && Wide(keys, |names|)
    ensures GroupOutputs(q, schema, FilterRows(ps, schema, rows), FilterRows(ps, names, keys), db)
         == FilterRows(ps, names + more, GroupOutputs(q, schema, rows, keys, db))
    decreases |keys|
  {
    var kept := FilterRows(ps, schema, rows);
    if keys == [] {
      assert GroupOutputs(q, schema, rows, keys, db) == [];
    } else {
      var k, rest := keys[0], keys[1..];
      assert keys == [k] + rest && |k| == |names|;
      OutputsFiltered(q, ps, names, more, schema, rows, rest, db);
      OutputsCons(q, schema, rows, k, rest, db);
      FilterCons(ps, names, k, rest);
      var out := GroupOutput(q, schema, rows, k, db);
      FilterCons(ps, names + more, out, GroupOutputs(q, schema, rows, rest, db));
      OutputTest(ps, q.groupBy, names, more, k,
                 AggregateCells(q.fields, schema, GroupRows(q.groupBy, schema, rows, k), db));
      if KeepsAll(ps, names, k) {
        OutputsCons(q, schema, kept, k, FilterRows(ps, names, rest), db);
        GroupKept(ps, q.groupBy, names, schema, rows, k);
      } else {
        assert [] + FilterRows(ps, names, rest) == FilterRows(ps, names, rest);
      }
    }
  }

  lemma OutputsCons(q: Query, schema: seq<string>, rows: seq<Row>, k: Row, rest: seq<Row>, db: Database)
    requires q.QAggregate?
    ensures GroupOutputs(q, schema, rows, [k] + rest, db)
         == [GroupOutput(q, schema, rows, k, db)] + GroupOutputs(q, schema, rows, rest, db)
  {
  }

  lemma {:induction false} KeysWide(gs: seq<Expr>, schema: seq<string>, rows: seq<Row>)
    ensures Wide(GroupKeys(gs, schema, rows), |gs|)
  {
    if rows != [] {
      KeysWide(gs, schema, rows[..|rows| - 1]);
    }
  }

  lemma AggregateFiltered(
      q: Query, ps: seq<Expr>, names: seq<string>, schema: seq<string>, rows: seq<Row>, db: Database)
    requires q.QAggregate? && q.groupBy != [] && names == Names(q.groupBy, db.literalName)
    requires AllOverGroups(ps, q.groupBy, names)
    ensures AggregateRows(q, schema, FilterRows(ps, schema, rows), db)
         == FilterRows(ps, AggregateSchema(q, db), AggregateRows(q, schema, rows, db))
  {
    KeysTest(ps, q.groupBy, names, schema);
    KeysFiltered(ps, q.groupBy, names, schema, rows);
    KeysWide(q.groupBy, schema, rows);
    OutputsFiltered(q, ps, names, Names(q.fields, db.literalName), schema, rows,
                    GroupKeys(q.groupBy, schema, rows), db);
  }

  /** What may be pushed below an aggregate: nothing, or tests on columns of a non-empty group-by. */
  predicate PushSafe(push: seq<Expr>, gs: seq<Expr>, names: seq<string>)
    requires |names| == |gs|
  {
    push == [] || (gs != [] && AllOverGroups(push, gs, names))
  }

  lemma {:induction false} PartitionKeeps(all: seq<Expr>, columns: set<string>, schema: seq<string>, row: Row)
    ensures KeepsAll(Stuck(all, columns) + Pushable(all, columns), schema, row) <==> KeepsAll(all, schema, row)
  {
    var stuck, push := Stuck(all, columns), Pushable(all, columns);
    KeepsConcat(stuck, push, schema, row);
    if KeepsAll(all, schema, row) {
      forall i | 0 <= i < |stuck| ensures Keeps(stuck[i], schema, row) {
        assert stuck[i] in stuck;
      }
      forall i | 0 <= i < |push| ensures Keeps(push[i], schema, row) {
        assert push[i] in push;
      }
    }
    if KeepsAll(stuck, schema, row) && KeepsAll(push, schema, row) {
      forall i | 0 <= i < |all| ensures Keeps(all[i], schema, row) {
        assert all[i] in stuck || all[i] in push;
      }
    }
  }

  /** What is left above an aggregate plus what went below is the having clause and the pushed predicates. */
  lemma HavingKept(
      h: Option<Expr>, ps: seq<Expr>, all: seq<Expr>, columns: set<string>, schema: seq<string>, rows: seq<Row>)
    requires all == ps + SplitOption(h)
    ensures FilterRows(OptPreds(CombineAnd(Stuck(all, columns))), schema,
                       FilterRows(Pushable(all, columns), schema, rows))
         == FilterRows(ps, schema, FilterRows(OptPreds(h), schema, rows))
  {
    var stuck, push := Stuck(all, columns), Pushable(all, columns);
    var above := OptPreds(CombineAnd(stuck));
    FilterTwice(above, push, schema, rows);
    FilterTwice(ps, OptPreds(h), schema, rows);
    forall x | x in rows ensures KeepsAll(above + push, schema, x) <==> KeepsAll(ps + OptPreds(h), schema, x) {
      CombineKeeps(stuck, schema, x);
      KeepsConcat(above, push, schema, x);
      KeepsConcat(stuck, push, schema, x);
      PartitionKeeps(all, columns, schema, x);
      KeepsConcat(ps, SplitOption(h), schema, x);
      SplitOptionKeeps(h, schema, x);
      KeepsConcat(ps, OptPreds(h), schema, x);
    }
    FilterAgree(above + push, ps + OptPreds(h), schema, rows);
  }

  /** An aggregate after pushing, and the filtered aggregate before, with the pushed and the staying predicates
      apart. */
  lemma PushedHaving(q: Query, ps: seq<Expr>, db: Database, push: seq<Expr>, stuck: seq<Expr>)
    requires q.QAggregate? && Valid(db) && Base(q.child, db.catalog) && AllUnbound(push)
    requires push == Pushable(ps + SplitOption(q.having), PlanColumns(q.child, db.catalog))
    requires stuck == Stuck(ps + SplitOption(q.having), PlanColumns(q.child, db.catalog))
    ensures var child, schema, above := Meaning(q.child, db), AggregateSchema(q, db), OptPreds(CombineAnd(stuck));
      && Meaning(Push(q, ps, db.catalog), db)
         == Rel(schema, FilterRows(above, schema,
                                   AggregateRows(q, child.schema, FilterRows(push, child.schema, child.rows), db)))
      && FilterRel(ps, Meaning(q, db))
         == Rel(schema, FilterRows(above, schema,
                                   FilterRows(push, schema, AggregateRows(q, child.schema, child.rows, db))))
  {
    var child := Meaning(q.child, db);
    PushBase(q.child, push, db);
    var next := QAggregate(q.fields, q.groupBy, CombineAnd(stuck), Push(q.child, push, db.catalog));
    assert Push(q, ps, db.catalog) == next;
    SameOutputs(next, q, child.schema, FilterRows(push, child.schema, child.rows), db);
    HavingKept(q.having, ps, ps + SplitOption(q.having), PlanColumns(q.child, db.catalog), AggregateSchema(q, db),
               AggregateRows(q, child.schema, child.rows, db));
  }

  lemma PushAggregate(q: Query, ps: seq<Expr>, db: Database)
    requires q.QAggregate? && Valid(db) && Base(q.child, db.catalog)
    requires var push := Pushable(ps + SplitOption(q.having), PlanColumns(q.child, db.catalog));
             AllUnbound(push) && PushSafe(push, q.groupBy, Names(q.groupBy, db.literalName))
    ensures Meaning(Push(q, ps, db.catalog), db) == FilterRel(ps, Meaning(q, db))
  {
    var all, columns := ps + SplitOption(q.having), PlanColumns(q.child, db.catalog);
    var push, child := Pushable(all, columns), Meaning(q.child, db);
    PushedHaving(q, ps, db, push, Stuck(all, columns));
    if push == [] {
      FilterNone(child.schema, child.rows);
      FilterNone(AggregateSchema(q, db), AggregateRows(q, child.schema, child.rows, db));
    } else {
      AggregateFiltered(q, push, Names(q.groupBy, db.literalName), child.schema, child.rows, db);
    }
  }

  lemma SameOutputs(a: Query, b: Query, schema: seq<string>, rows: seq<Row>, db: Database)
    requires a.QAggregate? && b.QAggregate? && a.fields == b.fields && a.groupBy == b.groupBy
    ensures AggregateRows(a, schema, rows, db) == AggregateRows(b, schema, rows, db)
    ensures AggregateSchema(a, db) == AggregateSchema(b, db)
  {
  }

  // ----- whole plans -----

  /** Plans the rule handles with `ps` on their way down: scans, filters and joins, then possibly an aggregate and
      filters over it of which only tests on group-by columns go below, then projections and sorts. */
  predicate Admissible(q: Query, ps: seq<Expr>, catalog: Catalog, literalName: Field -> string)
    decreases q
  {
    match q
    case QProject(_, c) => ps == [] && Admissible(c, [], catalog, literalName)
    case QSort(_, c) => ps == [] && Admissible(c, [], catalog, literalName)
    case QFilter(p, c) => Unbound(p) && Admissible(c, ps + SplitAnd(p), catalog, literalName)
    case QAggregate(_, gs, h, c) =>
      Base(c, catalog)
      && var push := Pushable(ps + SplitOption(h), PlanColumns(c, catalog));
         AllUnbound(push) && PushSafe(push, gs, Names(gs, literalName))
    case _ => Base(q, catalog) && AllUnbound(ps)
  }

  lemma {:induction false} PushKeeps(q: Query, ps: seq<Expr>, db: Database)
    requires Valid(db) && Admissible(q, ps, db.catalog, db.literalName)
    ensures Meaning(Push(q, ps, db.catalog), db) == FilterRel(ps, Meaning(q, db))
    decreases q
  {
    match q
    case QProject(ids, c) =>
      PushKeeps(c, [], db);
      FilterNone(Meaning(c, db).schema, Meaning(c, db).rows);
      FilterNone(Meaning(q, db).schema, Meaning(q, db).rows);
    case QSort(ks, c) =>
      PushKeeps(c, [], db);
      FilterNone(Meaning(c, db).schema, Meaning(c, db).rows);
      FilterNone(Meaning(q, db).schema, Meaning(q, db).rows);
    case QFilter(p, c) =>
      PushKeeps(c, ps + SplitAnd(p), db);
      FilterKept(p, ps, Meaning(c, db).schema, Meaning(c, db).rows);
    case QAggregate(_, _, _, _) =>
      PushAggregate(q, ps, db);
    case _ =>
      PushBase(q, ps, db);
  }

  /** The rule keeps the schema and the rows of every such plan, over every database. */
  lemma PushdownKeepsMeaning(q: Query, db: Database)
    requires Valid(db) && Admissible(q, [], db.catalog, db.literalName)
    ensures Meaning(Push(q, [], db.catalog), db) == Meaning(q, db)
  {
    PushKeeps(q, [], db);
    FilterNone(Meaning(q, db).schema, Meaning(q, db).rows);
  }

  // ----- the plans of the translator -----

  /** The aggregate under some filters. */
  function Core(q: Query): Query { if q.QFilter? then Core(q.child) else q }

  /** Grouping by plain columns, with no aggregate named like a column of its input. */
  predicate PlainAggregate(q: Query, catalog: Catalog, literalName: Field -> string) {
    && q.QAggregate? && Base(q.child, catalog) && (forall i :: 0 <= i < |q.groupBy| ==> q.groupBy[i].Ident?)
    && (forall x :: x in Names(q.fields, literalName) ==> x !in PlanColumns(q.child, catalog))
  }

  /** A predicate over the output of an aggregate; without group-by columns it has to speak of some aggregate. */
  predicate OverOutput(p: Expr, q: Query, literalName: Field -> string)
    requires q.QAggregate?
  {
    && Unbound(p) && (q.groupBy == [] ==> Columns(p) != {})
    && forall c :: c in Columns(p) ==> c in Names(q.groupBy, literalName) || c in Names(q.fields, literalName)
  }

  predicate AllOverOutput(ps: seq<Expr>, q: Query, literalName: Field -> string)
    requires q.QAggregate?
  {
    forall p :: p in ps ==> OverOutput(p, q, literalName)
  }

  /** Such an aggregate under filters over its output. */
  predicate FilteredAggregate(q: Query, catalog: Catalog, literalName: Field -> string) {
    && PlainAggregate(Core(q), catalog, literalName)
    && match q
       case QFilter(p, c) =>
         Unbound(p) && AllOverOutput(SplitAnd(p), Core(q), literalName) && FilteredAggregate(c, catalog, literalName)
       case QAggregate(_, _, h, _) => AllOverOutput(SplitOption(h), q, literalName)
       case _ => false
  }

  /** What the translator emits: scans, filters and joins, possibly an aggregate and filters over it, then
      projections and sorts. */
  predicate Translated(q: Query, catalog: Catalog, literalName: Field -> string) {
    match q
    case QProject(_, c) => Translated(c, catalog, literalName)
    case QSort(_, c) => Translated(c, catalog, literalName)
    case _ => Base(q, catalog) || FilteredAggregate(q, catalog, literalName)
  }

  /** What the rule pushes below such an aggregate speaks of its group-by columns only. */
  lemma OutputPushSafe(all: seq<Expr>, q: Query, catalog: Catalog, literalName: Field -> string)
    requires PlainAggregate(q, catalog, literalName) && AllOverOutput(all, q, literalName)
    ensures var push := Pushable(all, PlanColumns(q.child, catalog));
      AllUnbound(push) && PushSafe(push, q.groupBy, Names(q.groupBy, literalName))
  {
    var push, names := Pushable(all, PlanColumns(q.child, catalog)), Names(q.groupBy, literalName);
    forall i | 0 <= i < |push| ensures q.groupBy != [] && OverGroups(push[i], q.groupBy, names) {
      var p := push[i];
      assert p in push && OverOutput(p, q, literalName);
      forall c | c in Columns(p) ensures GroupColumn(q.groupBy, names, c) {
        assert c in PlanColumns(q.child, catalog);
        assert c in names;
      }
    }
    assert AllOverGroups(push, q.groupBy, names);
    if push != [] {
      assert OverGroups(push[0], q.groupBy, names);
    }
  }

  lemma {:induction false} AggregateAdmissible(q: Query, ps: seq<Expr>, catalog: Catalog, literalName: Field -> string)
    requires FilteredAggregate(q, catalog, literalName) && AllOverOutput(ps, Core(q), literalName)
    ensures Admissible(q, ps, catalog, literalName)
    decreases q
  {
    match q
    case QFilter(p, c) => AggregateAdmissible(c, ps + SplitAnd(p), catalog, literalName);
    case QAggregate(_, _, h, _) => OutputPushSafe(ps + SplitOption(h), q, catalog, literalName);
  }

  lemma {:induction false} BaseAdmissible(q: Query, ps: seq<Expr>, catalog: Catalog, literalName: Field -> string)
    requires Base(q, catalog) && AllUnbound(ps)
    ensures Admissible(q, ps, catalog, literalName)
    decreases q
  {
    if q.QFilter? {
      SplitAndUnbound(q.p);
      BaseAdmissible(q.child, ps + SplitAnd(q.p), catalog, literalName);
    }
  }

  lemma {:induction false} TranslatedAdmissible(q: Query, catalog: Catalog, literalName: Field -> string)
    requires Translated(q, catalog, literalName)
    ensures Admissible(q, [], catalog, literalName)
  {
    match q
    case QProject(_, c) => TranslatedAdmissible(c, catalog, literalName);
    case QSort(_, c) => TranslatedAdmissible(c, catalog, literalName);
    case _ =>
      if Base(q, catalog) {
        BaseAdmissible(q, [], catalog, literalName);
      } else {
        AggregateAdmissible(q, [], catalog, literalName);
      }
  }

  /** The rule keeps the meaning of every plan the translator emits. */
  lemma TranslatedKept(q: Query, db: Database)
    requires Valid(db) && Translated(q, db.catalog, db.literalName)
    ensures Meaning(Push(q, [], db.catalog), db) == Meaning(q, db)
  {
    TranslatedAdmissible(q, db.catalog, db.literalName);
    PushdownKeepsMeaning(q, db);
  }

  // ----- how far predicates go -----

  predicate Atom(e: Expr) { !(e.Boolean? && e.bop.And?) }

  predicate AllAtoms(ps: seq<Expr>) { forall p :: p in ps ==> Atom(p) }

  lemma {:induction false} SplitAndAtoms(e: Expr)
    ensures AllAtoms(SplitAnd(e))
  {
    if !Atom(e) {
      SplitAndAtoms(e.l);
      SplitAndAtoms(e.r);
    }
  }

  lemma SplitOptionAtoms(ps: seq<Expr>, o: Option<Expr>)
    requires AllAtoms(ps)
    ensures AllAtoms(ps + SplitOption(o))
  {
    if o.Some? {
      SplitAndAtoms(o.value);
    }
  }

  lemma {:induction false} AndAllSplit(first: Expr, ps: seq<Expr>)
    requires AllAtoms(ps)
    ensures SplitAnd(AndAll(first, ps)) == SplitAnd(first) + ps
    decreases |ps|
  {
    if ps != [] {
      AndAllSplit(Boolean(And, first, ps[0]), ps[1..]);
      assert ps[0] in ps && ps == [ps[0]] + ps[1..];
      assert SplitAnd(Boolean(And, first, ps[0])) == SplitAnd(first) + [ps[0]];
    }
  }

  /** Splitting undoes combining. */
  lemma CombineSplit(ps: seq<Expr>)
    requires AllAtoms(ps)
    ensures SplitOption(CombineAnd(ps)) == ps
  {
    if ps != [] {
      AndAllSplit(ps[0], ps[1..]);
      assert ps[0] in ps && ps == [ps[0]] + ps[1..];
    }
  }

  /** A predicate a join cannot pass on: it needs columns of both sides and equates no left with a right term. */
  predicate Held(p: Expr, l: set<string>, r: set<string>) {
    && !(Columns(p) <= l) && !(Columns(p) <= r)
    && !(p.Boolean? && p.bop.Eq? && Columns(p.l) <= l && Columns(p.r) <= r)
    && !(p.Boolean? && p.bop.Eq? && Columns(p.l) <= r && Columns(p.r) <= l)
  }

  predicate AllHeld(ps: seq<Expr>, l: set<string>, r: set<string>) { forall p :: p in ps ==> Held(p, l, r) }

  predicate AllStuck(ps: seq<Expr>, columns: set<string>) { forall p :: p in ps ==> !(Columns(p) <= columns) }

  lemma {:induction false} SplitHolds(ps: seq<Expr>, l: set<string>, r: set<string>)
    requires AllAtoms(ps)
    ensures var s := SplitBetween(ps, l, r);
      AllAtoms(s.left) && AllAtoms(s.right) && AllAtoms(s.rest) && AllHeld(s.rest, l, r)
  {
    if ps != [] {
      SplitHolds(ps[..|ps| - 1], l, r);
    }
  }

  /** No filter node is left, and every predicate sits as low as its columns allow. */
  predicate Settled(q: Query, catalog: Catalog) {
    match q
    case QScan(_, _, _) => true
    case QProject(_, c) => Settled(c, catalog)
    case QFilter(_, _) => false
    case QAggregate(_, _, h, c) => Settled(c, catalog) && AllStuck(SplitOption(h), PlanColumns(c, catalog))
    case QJoin(_, f, l, r) =>
      Settled(l, catalog) && Settled(r, catalog)
      && AllHeld(SplitOption(f), PlanColumns(l, catalog), PlanColumns(r, catalog))
    case QCross(f, l, r) =>
      Settled(l, catalog) && Settled(r, catalog)
      && AllHeld(SplitOption(f), PlanColumns(l, catalog), PlanColumns(r, catalog))
    case QSort(_, c) => Settled(c, catalog)
  }

  lemma {:induction false} PushColumns(q: Query, ps: seq<Expr>, catalog: Catalog)
    ensures PlanColumns(Push(q, ps, catalog), catalog) == PlanColumns(q, catalog)
    decreases q
  {
    match q
    case QScan(_, _, _) =>
    case QProject(_, c) =>
    case QFilter(p, c) => PushColumns(c, ps + SplitAnd(p), catalog);
    case QAggregate(_, _, _, _) =>
    case QJoin(_, _, l, r) =>
      var s := SplitAbove(q, ps, catalog);
      PushColumns(l, s.left, catalog);
      PushColumns(r, s.right, catalog);
    case QCross(_, l, r) =>
      var s := SplitAbove(q, ps, catalog);
      PushColumns(l, s.left, catalog);
      PushColumns(r, s.right, catalog);
    case QSort(_, c) => PushColumns(c, ps, catalog);
  }

  /** Whatever the plan, pushing settles every predicate. */
  lemma {:induction false} PushSettles(q: Query, ps: seq<Expr>, catalog: Catalog)
    requires AllAtoms(ps)
    ensures Settled(Push(q, ps, catalog), catalog)
    decreases q
  {
    match q
    case QScan(_, _, _) =>
    case QProject(_, c) => PushSettles(c, ps, catalog);
    case QFilter(p, c) =>
      SplitAndAtoms(p);
      PushSettles(c, ps + SplitAnd(p), catalog);
    case QAggregate(_, _, h, c) =>
      var all, columns := ps + SplitOption(h), PlanColumns(c, catalog);
      SplitOptionAtoms(ps, h);
      PushSettles(c, Pushable(all, columns), catalog);
      PushColumns(c, Pushable(all, columns), catalog);
      CombineSplit(Stuck(all, columns));
    case QJoin(_, f, l, r) =>
      SplitOptionAtoms(ps, f);
      SidesSettle(q, ps, catalog);
      PushSettles(l, SplitAbove(q, ps, catalog).left, catalog);
      PushSettles(r, SplitAbove(q, ps, catalog).right, catalog);
    case QCross(f, l, r) =>
      SplitOptionAtoms(ps, f);
      SidesSettle(q, ps, catalog);
      PushSettles(l, SplitAbove(q, ps, catalog).left, catalog);
      PushSettles(r, SplitAbove(q, ps, catalog).right, catalog);
    case QSort(_, c) => PushSettles(c, ps, catalog);
  }

  lemma SidesSettle(q: Query, ps: seq<Expr>, catalog: Catalog)
    requires (q.QJoin? || q.QCross?) && AllAtoms(ps)
    ensures var s := SplitAbove(q, ps, catalog);
      && AllAtoms(s.left) && AllAtoms(s.right)
      && AllHeld(SplitOption(CombineAnd(s.rest)), PlanColumns(Push(q.left, s.left, catalog), catalog),
                 PlanColumns(Push(q.right, s.right, catalog), catalog))
  {
    var f := if q.QJoin? then q.jfilter else q.cfilter;
    var s := SplitAbove(q, ps, catalog);
    SplitOptionAtoms(ps, f);
    SplitHolds(ps + SplitOption(f), PlanColumns(q.left, catalog), PlanColumns(q.right, catalog));
    CombineSplit(s.rest);
    PushColumns(q.left, s.left, catalog);
    PushColumns(q.right, s.right, catalog);
  }

  // ----- which side each term of a join belongs to -----

  /** First terms over the left columns, second terms over the right columns. */
  predicate Facing(eqs: seq<(Expr, Expr)>, l: set<string>, r: set<string>) {
    forall e :: e in eqs ==> Columns(e.0) <= l && Columns(e.1) <= r
  }

  /** Every join of the plan has its equalities that way round. */
  predicate JoinsFace(q: Query, catalog: Catalog) {
    match q
    case QScan(_, _, _) => true
    case QProject(_, c) => JoinsFace(c, catalog)
    case QFilter(_, c) => JoinsFace(c, catalog)
    case QAggregate(_, _, _, c) => JoinsFace(c, catalog)
    case QJoin(es, _, l, r) =>
      JoinsFace(l, catalog) && JoinsFace(r, catalog) && Facing(es, PlanColumns(l, catalog), PlanColumns(r, catalog))
    case QCross(_, l, r) => JoinsFace(l, catalog) && JoinsFace(r, catalog)
    case QSort(_, c) => JoinsFace(c, catalog)
  }

  /** An equality between the sides, as a predicate of the list in one order or the other. */
  predicate FromList(e: (Expr, Expr), ps: seq<Expr>) {
    Boolean(Eq, e.0, e.1) in ps || Boolean(Eq, e.1, e.0) in ps
  }

  /** What a join makes of its predicates: the left ones and then the right ones in order, column-free ones on
      the left; equalities of the list, turned to face the sides; and the rest. */
  lemma SplitExact(ps: seq<Expr>, l: set<string>, r: set<string>)
    ensures var s := SplitBetween(ps, l, r);
      && s.left == Pushable(ps, l) && s.right == PushableRight(ps, l, r)
      && Facing(s.eqs, l, r) && (forall e :: e in s.eqs ==> FromList(e, ps))
      && (forall p :: p in s.rest <==> p in ps && Held(p, l, r))
      && |s.left| + |s.right| + |s.eqs| + |s.rest| == |ps|
  {
    SplitSides(ps, l, r);
    SplitEqs(ps, l, r);
    SplitRest(ps, l, r);
  }

  lemma {:induction false} SplitSides(ps: seq<Expr>, l: set<string>, r: set<string>)
    ensures SplitBetween(ps, l, r).left == Pushable(ps, l)
    ensures SplitBetween(ps, l, r).right == PushableRight(ps, l, r)
  {
    if ps != [] {
      var front, p := ps[..|ps| - 1], ps[|ps| - 1];
      SplitSides(front, l, r);
      assert ps == front + [p];
      PushableSnoc(front, p, l);
      PushableRightSnoc(front, p, l, r);
      PlacedSides(SplitBetween(front, l, r), p, l, r, Pushable(ps, l), PushableRight(ps, l, r));
    }
  }

  function PushableRight(ps: seq<Expr>, l: set<string>, r: set<string>): seq<Expr> { Pushable(Stuck(ps, l), r) }

  lemma PushableRightSnoc(ps: seq<Expr>, p: Expr, l: set<string>, r: set<string>)
    ensures PushableRight(ps + [p], l, r)
         == if Columns(p) <= l || !(Columns(p) <= r) then PushableRight(ps, l, r) else PushableRight(ps, l, r) + [p]
  {
    StuckSnoc(ps, p, l);
    if !(Columns(p) <= l) {
      PushableSnoc(Stuck(ps, l), p, r);
    }
  }

  lemma PlacedSides(s: Split, p: Expr, l: set<string>, r: set<string>, left: seq<Expr>, right: seq<Expr>)
    requires left == if Columns(p) <= l then s.left + [p] else s.left
    requires right == if Columns(p) <= l || !(Columns(p) <= r) then s.right else s.right + [p]
    ensures Place(s, p, l, r).left == left && Place(s, p, l, r).right == right
  {
  }

  lemma StuckSnoc(ps: seq<Expr>, p: Expr, columns: set<string>)
    ensures Stuck(ps + [p], columns) == if Columns(p) <= columns then Stuck(ps, columns) else Stuck(ps, columns) + [p]
  {
    assert (ps + [p])[..|ps|] == ps;
    assert Stuck(ps, columns) + [] == Stuck(ps, columns);
  }

  lemma PushableSnoc(ps: seq<Expr>, p: Expr, columns: set<string>)
    ensures Pushable(ps + [p], columns)
         == if Columns(p) <= columns then Pushable(ps, columns) + [p] else Pushable(ps, columns)
  {
    assert (ps + [p])[..|ps|] == ps;
    assert Pushable(ps, columns) + [] == Pushable(ps, columns);
  }

  lemma {:induction false} SplitEqs(ps: seq<Expr>, l: set<string>, r: set<string>)
    ensures Facing(SplitBetween(ps, l, r).eqs, l, r)
    ensures forall e :: e in SplitBetween(ps, l, r).eqs ==> FromList(e, ps)
  {
    if ps != [] {
      var front, p := ps[..|ps| - 1], ps[|ps| - 1];
      SplitEqs(front, l, r);
      forall e | e in SplitBetween(ps, l, r).eqs ensures FromList(e, ps) {
        if e in SplitBetween(front, l, r).eqs {
          assert FromList(e, front);
        } else {
          assert p in ps && FromList(e, [p]);
        }
      }
    }
  }

  lemma {:induction false} SplitRest(ps: seq<Expr>, l: set<string>, r: set<string>)
    ensures var s := SplitBetween(ps, l, r);
      && (forall p :: p in s.rest <==> p in ps && Held(p, l, r))
      && |s.left| + |s.right| + |s.eqs| + |s.rest| == |ps|
  {
    if ps != [] {
      var front, p := ps[..|ps| - 1], ps[|ps| - 1];
      SplitRest(front, l, r);
      forall x ensures x in ps <==> x in front || x == p {
        assert ps == front + [p];
      }
    }
  }

  /** Equalities that face the sides keep doing so, the old ones stay in front, and all new ones do. */
  lemma {:induction false} PushFaces(q: Query, ps: seq<Expr>, catalog: Catalog)
    requires JoinsFace(q, catalog)
    ensures JoinsFace(Push(q, ps, catalog), catalog)
    ensures q.QJoin? ==> q.eqs <= Push(q, ps, catalog).eqs
    decreases q
  {
    match q
    case QScan(_, _, _) =>
    case QProject(_, c) => PushFaces(c, ps, catalog);
    case QFilter(p, c) => PushFaces(c, ps + SplitAnd(p), catalog);
    case QAggregate(_, _, h, c) => PushFaces(c, Pushable(ps + SplitOption(h), PlanColumns(c, catalog)), catalog);
    case QJoin(_, f, l, r) =>
      var s := SplitAbove(q, ps, catalog);
      PushFaces(l, s.left, catalog);
      PushFaces(r, s.right, catalog);
      NewEqsFace(q, ps, catalog);
    case QCross(f, l, r) =>
      var s := SplitAbove(q, ps, catalog);
      PushFaces(l, s.left, catalog);
      PushFaces(r, s.right, catalog);
      NewEqsFace(q, ps, catalog);
    case QSort(_, c) => PushFaces(c, ps, catalog);
  }

  lemma NewEqsFace(q: Query, ps: seq<Expr>, catalog: Catalog)
    requires q.QJoin? || q.QCross?
    ensures var s := SplitAbove(q, ps, catalog);
      && Facing(s.eqs, PlanColumns(q.left, catalog), PlanColumns(q.right, catalog))
      && PlanColumns(Push(q.left, s.left, catalog), catalog) == PlanColumns(q.left, catalog)
      && PlanColumns(Push(q.right, s.right, catalog), catalog) == PlanColumns(q.right, catalog)
  {
    var s := SplitAbove(q, ps, catalog);
    SplitExact(ps + SplitOption(if q.QJoin? then q.jfilter else q.cfilter),
               PlanColumns(q.left, catalog), PlanColumns(q.right, catalog));
    PushColumns(q.left, s.left, catalog);
    PushColumns(q.right, s.right, catalog);
  }

  /** The conjuncts of a scan's new filter: the pushed predicates, then the old ones. */
  lemma ScanCollects(q: Query, ps: seq<Expr>, catalog: Catalog)
    requires q.QScan? && AllAtoms(ps)
    ensures var t := Push(q, ps, catalog);
      t.QScan? && t.cid == q.cid && t.projection == q.projection && SplitOption(t.filter) == ps + SplitOption(q.filter)
  {
    SplitOptionAtoms(ps, q.filter);
    CombineSplit(ps + SplitOption(q.filter));
  }

  // ----- where the hypotheses matter -----

  predicate NoColumns(ps: seq<Expr>) { forall p :: p in ps ==> Unbound(p) && Columns(p) == {} }

  /** Predicates without columns pass every row or none. */
  lemma ConstantTest(ps: seq<Expr>, s: seq<string>, row: Row)
    requires NoColumns(ps)
    ensures KeepsAll(ps, s, row) <==> KeepsAll(ps, [], [])
  {
    forall i | 0 <= i < |ps| ensures Keeps(ps[i], s, row) <==> Keeps(ps[i], [], []) {
      assert ps[i] in ps;
      EvalNamedAgree(ps[i], s, row, [], []);
    }
  }

  lemma {:induction false} ConstantFilter(ps: seq<Expr>, s: seq<string>, rows: seq<Row>)
    requires NoColumns(ps)
    ensures FilterRows(ps, s, rows) == if KeepsAll(ps, [], []) then rows else []
  {
    if rows != [] {
      ConstantTest(ps, s, rows[0]);
      ConstantFilter(ps, s, rows[1..]);
      assert rows == [rows[0]] + rows[1..];
    }
  }

  /** The single output row of an aggregate without group-by columns over no rows. */
  function EmptyOutput(q: Query, schema: seq<string>, db: Database): Row
    requires q.QAggregate?
  {
    GroupOutput(q, schema, [], [], db)
  }

  /** Without group-by columns, having clauses without columns go below the aggregate.  That keeps the meaning
      exactly when they are true, or when the rest of the having clause refuses the group of no rows that comes
      back in their place. */
  lemma GrouplessExact(q: Query, ps: seq<Expr>, db: Database)
    requires q.QAggregate? && q.groupBy == [] && Valid(db) && Base(q.child, db.catalog)
    requires NoColumns(Pushable(ps + SplitOption(q.having), PlanColumns(q.child, db.catalog)))
    ensures var all, columns := ps + SplitOption(q.having), PlanColumns(q.child, db.catalog);
      Meaning(Push(q, ps, db.catalog), db) == FilterRel(ps, Meaning(q, db))
      <==> || KeepsAll(Pushable(all, columns), [], [])
           || !KeepsAll(Stuck(all, columns), AggregateSchema(q, db), EmptyOutput(q, Meaning(q.child, db).schema, db))
  {
    var all, columns := ps + SplitOption(q.having), PlanColumns(q.child, db.catalog);
    var push, stuck, child := Pushable(all, columns), Stuck(all, columns), Meaning(q.child, db);
    var out := AggregateRows(q, child.schema, child.rows, db);
    PushedHaving(q, ps, db, push, stuck);
    ConstantFilter(push, child.schema, child.rows);
    ConstantFilter(push, AggregateSchema(q, db), out);
    if !KeepsAll(push, [], []) {
      OneGroup(q, child.schema, db, stuck);
    }
  }

  lemma OneGroup(q: Query, schema: seq<string>, db: Database, stuck: seq<Expr>)
    requires q.QAggregate? && q.groupBy == []
    ensures FilterRows(OptPreds(CombineAnd(stuck)), AggregateSchema(q, db), AggregateRows(q, schema, [], db)) == []
       <==> !KeepsAll(stuck, AggregateSchema(q, db), EmptyOutput(q, schema, db))
  {
    var out := EmptyOutput(q, schema, db);
    assert AggregateRows(q, schema, [], db) == [out] + [];
    FilterCons(OptPreds(CombineAnd(stuck)), AggregateSchema(q, db), out, []);
    CombineKeeps(stuck, AggregateSchema(q, db), out);
  }

  /** So the meaning can change: `SELECT COUNT(a) FROM t HAVING 1 = 2` on an empty table. */
  lemma HavingWithoutGroups(db: Database, q: Query, p: Expr)
    requires db.catalog == map[0 := ["a"]] && db.tables == map[0 := []]
    requires p == Boolean(Eq, Literal(Int(1)), Literal(Int(2)))
    requires q == QAggregate([Agg(Count, Ident("a"))], [], Some(p), QScan(0, None, None))
    ensures |Meaning(q, db).rows| == 0 && |Meaning(Push(q, [], db.catalog), db).rows| == 1
  {
    HavingGoes(q, p, db.catalog);
    var r := Meaning(q.child, db);
    NeverKept(p, AggregateSchema(q, db), AggregateRows(q, r.schema, r.rows, db));
    var t := Push(q, [], db.catalog);
    var u := Meaning(t.child, db);
    FilterNone(AggregateSchema(t, db), AggregateRows(t, u.schema, u.rows, db));
  }

  lemma HavingGoes(q: Query, p: Expr, catalog: Catalog)
    requires q.QAggregate? && q.having == Some(p) && Atom(p) && Columns(p) == {}
    ensures Push(q, [], catalog) == QAggregate(q.fields, q.groupBy, None, Push(q.child, [p], catalog))
  {
    assert [] + SplitOption(Some(p)) == [p];
    OneMoves(p, PlanColumns(q.child, catalog));
  }

  lemma OneMoves(p: Expr, columns: set<string>)
    requires Columns(p) <= columns
    ensures Stuck([p], columns) == [] && Pushable([p], columns) == [p]
  {
    assert [] + [p] == [p];
    StuckSnoc([], p, columns);
    PushableSnoc([], p, columns);
  }

  lemma {:induction false} NeverKept(p: Expr, schema: seq<string>, rows: seq<Row>)
    requires p == Boolean(Eq, Literal(Int(1)), Literal(Int(2)))
    ensures FilterRows([p], schema, rows) == []
  {
    if rows != [] {
      NeverKept(p, schema, rows[1..]);
      assert EvalNamed(p, schema, rows[0]) == Ok(Bool(false));
      KeepsOne(p, schema, rows[0]);
    }
  }
}
