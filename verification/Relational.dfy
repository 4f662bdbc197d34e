/** What a logical plan means: a schema and a sequence of rows, for every
    database, every aggregate and every way of sorting. */
module Relational {
  import opened Options
  import opened Fields
  import opened Ast
  import opened PlanTrees
  import opened Plans

  datatype Rel = Rel(schema: seq<string>, rows: seq<Row>)

  /** A logical plan as a tree. */
  datatype Query =
    | QScan(cid: ContainerId, filter: Option<Expr>, projection: Option<seq<Expr>>)
    | QProject(ids: seq<Expr>, child: Query)
    | QFilter(p: Expr, child: Query)
    | QAggregate(fields: seq<Expr>, groupBy: seq<Expr>, having: Option<Expr>, child: Query)
    | QJoin(eqs: seq<(Expr, Expr)>, jfilter: Option<Expr>, left: Query, right: Query)
    | QCross(cfilter: Option<Expr>, left: Query, right: Query)
    | QSort(keys: seq<(Expr, bool)>, child: Query)

  function ToTree(q: Query): Tree<LogicalOp> {
    match q
    case QScan(c, f, p) => Tree(Scan(c, f, p), [])
    case QProject(ids, c) => Tree(Project(ids), [ToTree(c)])
    case QFilter(p, c) => Tree(Filter(p), [ToTree(c)])
    case QAggregate(fs, gs, h, c) => Tree(Aggregate(fs, gs, h), [ToTree(c)])
    case QJoin(es, f, l, r) => Tree(Join(es, f), [ToTree(l), ToTree(r)])
    case QCross(f, l, r) => Tree(CrossProduct(f), [ToTree(l), ToTree(r)])
    case QSort(ks, c) => Tree(Sort(ks), [ToTree(c)])
  }

  type Catalog = map<ContainerId, seq<string>>

  /** The tables, and what the plan language leaves to the engine: the final value of an aggregate
      over a group, the order in which a sort puts rows with the given keys, the name of a literal column. */
  datatype Database = Database(
    catalog: Catalog,
    tables: map<ContainerId, seq<Row>>,
    aggregate: (AggOp, seq<Outcome<Field>>) -> Outcome<Field>,
    order: (seq<bool>, seq<Row>) -> seq<nat>,
    literalName: Field -> string)

  predicate Wide(rows: seq<Row>, n: nat) { forall i :: 0 <= i < |rows| ==> |rows[i]| == n }

  /** Every catalogued table is there and its rows fit its schema. */
  ghost predicate Valid(db: Database) {
    forall c :: c in db.catalog ==> c in db.tables && Wide(db.tables[c], |db.catalog[c]|)
  }

  // ----- names -----

  function MathName(op: MathOp): string {
    match op
    case Add => "+"
    case Sub => "-"
    case Mul => "*"
    case Div => "/"
  }

  function BooleanName(op: BooleanOp): string {
    match op
    case Eq => "="
    case Neq => "!="
    case Gt => ">"
    case Gte => ">="
    case Lt => "<"
    case Lte => "<="
    case And => "AND"
    case Or => "OR"
  }

  function AggName(op: AggOp): string {
    match op
    case Avg => "AVG"
    case Count => "COUNT"
    case Max => "MAX"
    case Min => "MIN"
    case Sum => "SUM"
  }

  /** `to_name`; column indices have no name before binding. */
  function ToName(e: Expr, literalName: Field -> string): string {
    match e
    case Literal(f) => "Literal(" + literalName(f) + ")"
    case Ident(x) => x
    case Alias(x, _) => x
    case Math(op, l, r) => "(" + ToName(l, literalName) + " " + MathName(op) + " " + ToName(r, literalName) + ")"
    case Boolean(op, l, r) => "(" + ToName(l, literalName) + " " + BooleanName(op) + " " + ToName(r, literalName) + ")"
    case Agg(op, x) => AggName(op) + "(" + ToName(x, literalName) + ")"
    case ColIdx(_) => ""
  }

  function Names(es: seq<Expr>, literalName: Field -> string): (r: seq<string>)
    ensures |r| == |es| && forall i :: 0 <= i < |r| ==> r[i] == ToName(es[i], literalName)
  {
    seq(|es|, i requires 0 <= i < |es| => ToName(es[i], literalName))
  }

  // ----- rows -----

  predicate Keeps(p: Expr, schema: seq<string>, row: Row) { EvalNamed(p, schema, row) == Ok(Bool(true)) }

  /** A row passes a list of predicates when each of them evaluates to true on it. */
  predicate KeepsAll(ps: seq<Expr>, schema: seq<string>, row: Row) {
    forall i :: 0 <= i < |ps| ==> Keeps(ps[i], schema, row)
  }

  function FilterRows(ps: seq<Expr>, schema: seq<string>, rows: seq<Row>): (r: seq<Row>)
    ensures forall x :: x in r ==> x in rows
  {
    if rows == [] then []
    else (if KeepsAll(ps, schema, rows[0]) then [rows[0]] else []) + FilterRows(ps, schema, rows[1..])
  }

  function EvalAll(es: seq<Expr>, schema: seq<string>, row: Row): (r: Row)
    ensures |r| == |es| && forall i :: 0 <= i < |r| ==> r[i] == EvalNamed(es[i], schema, row)
  {
    seq(|es|, i requires 0 <= i < |es| => EvalNamed(es[i], schema, row))
  }

  function ProjectRows(es: seq<Expr>, schema: seq<string>, rows: seq<Row>): (r: seq<Row>)
    ensures |r| == |rows| && forall i :: 0 <= i < |r| ==> r[i] == EvalAll(es, schema, rows[i])
  {
    seq(|rows|, i requires 0 <= i < |rows| => EvalAll(es, schema, rows[i]))
  }

  /** All pairs, left rows outermost. */
  function Product(ls: seq<Row>, rs: seq<Row>): seq<Row> {
    if ls == [] then [] else PairRows(ls[0], rs) + Product(ls[1..], rs)
  }

  function OptPreds(o: Option<Expr>): seq<Expr> { if o.None? then [] else [o.value] }

  function EqPreds(eqs: seq<(Expr, Expr)>): (r: seq<Expr>)
    ensures |r| == |eqs| && forall i :: 0 <= i < |r| ==> r[i] == Boolean(Eq, eqs[i].0, eqs[i].1)
  {
    seq(|eqs|, i requires 0 <= i < |eqs| => Boolean(Eq, eqs[i].0, eqs[i].1))
  }

  // ----- groups -----

  /** The distinct group keys, in order of first appearance. */
  function GroupKeys(gs: seq<Expr>, schema: seq<string>, rows: seq<Row>): seq<Row> {
    if rows == [] then []
    else
      var keys := GroupKeys(gs, schema, rows[..|rows| - 1]);
      var k := EvalAll(gs, schema, rows[|rows| - 1]);
      if k in keys then keys else keys + [k]
  }

  /** The rows of one group. */
  function GroupRows(gs: seq<Expr>, schema: seq<string>, rows: seq<Row>, key: Row): seq<Row> {
    if rows == [] then []
    else
      GroupRows(gs, schema, rows[..|rows| - 1], key)
      + if EvalAll(gs, schema, rows[|rows| - 1]) == key then [rows[|rows| - 1]] else []
  }

  function EvalColumn(e: Expr, schema: seq<string>, rows: seq<Row>): (r: seq<Outcome<Field>>)
    ensures |r| == |rows| && forall i :: 0 <= i < |r| ==> r[i] == EvalNamed(e, schema, rows[i])
  {
    seq(|rows|, i requires 0 <= i < |rows| => EvalNamed(e, schema, rows[i]))
  }

  /** One aggregate of one group; only aggregate expressions are allowed there. */
  function AggregateCell(f: Expr, schema: seq<string>, group: seq<Row>, db: Database): Outcome<Field> {
    match f
    case Agg(op, e) => db.aggregate(op, EvalColumn(e, schema, group))
    case _ => Err
  }

  function AggregateCells(fs: seq<Expr>, schema: seq<string>, group: seq<Row>, db: Database): (r: Row)
    ensures |r| == |fs|
  {
    seq(|fs|, i requires 0 <= i < |fs| => AggregateCell(fs[i], schema, group, db))
  }

  /** The output row of a group: its key, then its aggregates. */
  function GroupOutput(q: Query, schema: seq<string>, rows: seq<Row>, key: Row, db: Database): Row
    requires q.QAggregate?
  {
    key + AggregateCells(q.fields, schema, GroupRows(q.groupBy, schema, rows, key), db)
  }

  function GroupOutputs(q: Query, schema: seq<string>, rows: seq<Row>, keys: seq<Row>, db: Database): (r: seq<Row>)
    requires q.QAggregate?
    ensures |r| == |keys| && forall i :: 0 <= i < |r| ==> r[i] == GroupOutput(q, schema, rows, keys[i], db)
  {
    seq(|keys|, i requires 0 <= i < |keys| => GroupOutput(q, schema, rows, keys[i], db))
  }

  function AggregateSchema(q: Query, db: Database): seq<string>
    requires q.QAggregate?
  {
    Names(q.groupBy, db.literalName) + Names(q.fields, db.literalName)
  }

  /** Without group-by columns there is exactly one group, even of no rows. */
  function AggregateRows(q: Query, schema: seq<string>, rows: seq<Row>, db: Database): seq<Row>
    requires q.QAggregate?
  {
    GroupOutputs(q, schema, rows, if q.groupBy == [] then [[]] else GroupKeys(q.groupBy, schema, rows), db)
  }

  // ----- sorting -----

  function SortKeys(ks: seq<(Expr, bool)>): (r: seq<Expr>)
    ensures |r| == |ks| && forall i :: 0 <= i < |r| ==> r[i] == ks[i].0
  {
    seq(|ks|, i requires 0 <= i < |ks| => ks[i].0)
  }

  function Ascending(ks: seq<(Expr, bool)>): seq<bool> { seq(|ks|, i requires 0 <= i < |ks| => ks[i].1) }

  /** The rows at the given positions. */
  function Pick(rows: seq<Row>, positions: seq<nat>): seq<Row> {
    if positions == [] then []
    else (if positions[0] < |rows| then [rows[positions[0]]] else []) + Pick(rows, positions[1..])
  }

  /** The order depends on the keys of the rows alone. */
  function SortRows(ks: seq<(Expr, bool)>, schema: seq<string>, rows: seq<Row>, db: Database): seq<Row> {
    Pick(rows, db.order(Ascending(ks), ProjectRows(SortKeys(ks), schema, rows)))
  }

  // ----- plans -----

  function ScanSchema(db: Database, c: ContainerId): seq<string> { if c in db.catalog then db.catalog[c] else [] }

  function ScanRows(db: Database, c: ContainerId): seq<Row> { if c in db.tables then db.tables[c] else [] }

  function FilterRel(ps: seq<Expr>, r: Rel): Rel { Rel(r.schema, FilterRows(ps, r.schema, r.rows)) }

  function JoinRel(ps: seq<Expr>, a: Rel, b: Rel): Rel {
    FilterRel(ps, Rel(a.schema + b.schema, Product(a.rows, b.rows)))
  }

  /** The meaning of a plan.  A scan filters on the full schema and then projects. */
  function Meaning(q: Query, db: Database): Rel {
    match q
    case QScan(c, f, p) =>
      var schema := ScanSchema(db, c);
      var rows := FilterRows(OptPreds(f), schema, ScanRows(db, c));
      (match p
       case None => Rel(schema, rows)
       case Some(es) => Rel(Names(es, db.literalName), ProjectRows(es, schema, rows)))
    case QProject(ids, c) =>
      var r := Meaning(c, db);
      Rel(Names(ids, db.literalName), ProjectRows(ids, r.schema, r.rows))
    case QFilter(p, c) => FilterRel([p], Meaning(c, db))
    case QAggregate(_, _, h, c) =>
      var r := Meaning(c, db);
      FilterRel(OptPreds(h), Rel(AggregateSchema(q, db), AggregateRows(q, r.schema, r.rows, db)))
    case QJoin(es, f, l, r) => JoinRel(EqPreds(es) + OptPreds(f), Meaning(l, db), Meaning(r, db))
    case QCross(f, l, r) => JoinRel(OptPreds(f), Meaning(l, db), Meaning(r, db))
    case QSort(ks, c) =>
      var r := Meaning(c, db);
      Rel(r.schema, SortRows(ks, r.schema, r.rows, db))
  }

  // ----- laws of filtering -----

  lemma KeepsConcat(ps: seq<Expr>, qs: seq<Expr>, schema: seq<string>, row: Row)
    ensures KeepsAll(ps + qs, schema, row) <==> KeepsAll(ps, schema, row) && KeepsAll(qs, schema, row)
  {
    if KeepsAll(ps + qs, schema, row) {
      forall i | 0 <= i < |ps| ensures Keeps(ps[i], schema, row) {
        assert ps[i] == (ps + qs)[i];
      }
      forall i | 0 <= i < |qs| ensures Keeps(qs[i], schema, row) {
        assert qs[i] == (ps + qs)[|ps| + i];
      }
    }
  }

  /** Lists of predicates that agree on every row filter alike. */
  lemma {:induction false} FilterAgree(ps: seq<Expr>, qs: seq<Expr>, schema: seq<string>, rows: seq<Row>)
    requires forall x :: x in rows ==> (KeepsAll(ps, schema, x) <==> KeepsAll(qs, schema, x))
    ensures FilterRows(ps, schema, rows) == FilterRows(qs, schema, rows)
  {
    if rows != [] {
      assert rows[0] in rows;
      FilterAgree(ps, qs, schema, rows[1..]);
    }
  }

  lemma {:induction false} FilterConcat(ps: seq<Expr>, schema: seq<string>, a: seq<Row>, b: seq<Row>)
    ensures FilterRows(ps, schema, a + b) == FilterRows(ps, schema, a) + FilterRows(ps, schema, b)
  {
    if a == [] {
      assert a + b == b;
    } else {
      FilterConcat(ps, schema, a[1..], b);
      FilterCons(ps, schema, a[0], a[1..] + b);
      FilterCons(ps, schema, a[0], a[1..]);
      assert [a[0]] + (a[1..] + b) == a + b && [a[0]] + a[1..] == a;
    }
  }

  lemma {:induction false} FilterTwice(ps: seq<Expr>, qs: seq<Expr>, schema: seq<string>, rows: seq<Row>)
    ensures FilterRows(ps, schema, FilterRows(qs, schema, rows)) == FilterRows(ps + qs, schema, rows)
  {
    if rows != [] {
      FilterTwice(ps, qs, schema, rows[1..]);
      KeepsConcat(ps, qs, schema, rows[0]);
      var head := if KeepsAll(qs, schema, rows[0]) then [rows[0]] else [];
      FilterConcat(ps, schema, head, FilterRows(qs, schema, rows[1..]));
      if head != [] {
        assert head[1..] == [];
      }
    }
  }

  lemma {:induction false} FilterNone(schema: seq<string>, rows: seq<Row>)
    ensures FilterRows([], schema, rows) == rows
  {
    if rows != [] {
      FilterNone(schema, rows[1..]);
      assert rows == [rows[0]] + rows[1..];
    }
  }

  lemma FilterCons(ps: seq<Expr>, s: seq<string>, x: Row, rows: seq<Row>)
    ensures FilterRows(ps, s, [x] + rows) == (if KeepsAll(ps, s, x) then [x] else []) + FilterRows(ps, s, rows)
  {
    assert ([x] + rows)[1..] == rows;
  }

  lemma PairRowsCons(l: Row, r: Row, rest: seq<Row>)
    ensures PairRows(l, [r] + rest) == [l + r] + PairRows(l, rest)
  {
  }

  lemma ProductCons(l: Row, ls: seq<Row>, rs: seq<Row>)
    ensures Product([l] + ls, rs) == PairRows(l, rs) + Product(ls, rs)
  {
    assert ([l] + ls)[1..] == ls;
  }

  /** A test `ps` on the pairs of `l` splits into a right-hand test `pr` and a rest `qs`. */
  ghost predicate RightSplit(
      ps: seq<Expr>, qs: seq<Expr>, pr: seq<Expr>, s: seq<string>, sr: seq<string>, l: Row, rs: seq<Row>)
  {
    forall r :: r in rs ==> (KeepsAll(ps, s, l + r) <==> KeepsAll(pr, sr, r) && KeepsAll(qs, s, l + r))
  }

  /** Filtering the pairs of a left row by a right-hand test is filtering the right rows first. */
  lemma {:induction false} PairFilter(
      ps: seq<Expr>, qs: seq<Expr>, pr: seq<Expr>, s: seq<string>, sr: seq<string>, l: Row, rs: seq<Row>)
    requires RightSplit(ps, qs, pr, s, sr, l, rs)
    ensures FilterRows(ps, s, PairRows(l, rs)) == FilterRows(qs, s, PairRows(l, FilterRows(pr, sr, rs)))
    decreases |rs|
  {
    if rs == [] {
      assert PairRows(l, rs) == [];
    } else {
      var r, rest := rs[0], rs[1..];
      assert rs == [r] + rest;
      assert RightSplit(ps, qs, pr, s, sr, l, rest) by {
        forall x | x in rest ensures x in rs {}
      }
      PairFilter(ps, qs, pr, s, sr, l, rest);
      assert KeepsAll(ps, s, l + r) <==> KeepsAll(pr, sr, r) && KeepsAll(qs, s, l + r) by {
        assert r in rs;
      }
      PairFilterStep(ps, qs, pr, s, sr, l, r, rest);
    }
  }

  lemma PairFilterStep(
      ps: seq<Expr>, qs: seq<Expr>, pr: seq<Expr>, s: seq<string>, sr: seq<string>, l: Row, r: Row, rest: seq<Row>)
    requires KeepsAll(ps, s, l + r) <==> KeepsAll(pr, sr, r) && KeepsAll(qs, s, l + r)
    requires FilterRows(ps, s, PairRows(l, rest)) == FilterRows(qs, s, PairRows(l, FilterRows(pr, sr, rest)))
    ensures FilterRows(ps, s, PairRows(l, [r] + rest))
         == FilterRows(qs, s, PairRows(l, FilterRows(pr, sr, [r] + rest)))
  {
    var kept := FilterRows(pr, sr, rest);
    PairRowsCons(l, r, rest);
    FilterCons(ps, s, l + r, PairRows(l, rest));
    FilterCons(pr, sr, r, rest);
    if KeepsAll(pr, sr, r) {
      PairRowsCons(l, r, kept);
      FilterCons(qs, s, l + r, PairRows(l, kept));
    } else {
      assert [] + kept == kept;
    }
  }

  /** A test `ps` on pairs splits into a left test `pl`, a right test `pr` and a rest `qs`. */
  ghost predicate PairSplit(
      ps: seq<Expr>, qs: seq<Expr>, pl: seq<Expr>, pr: seq<Expr>,
      sl: seq<string>, sr: seq<string>, ls: seq<Row>, rs: seq<Row>)
  {
    forall l, r :: l in ls && r in rs ==>
      (KeepsAll(ps, sl + sr, l + r) <==>
       KeepsAll(pl, sl, l) && KeepsAll(pr, sr, r) && KeepsAll(qs, sl + sr, l + r))
  }

  /** Such a test may be applied to the two sides first. */
  lemma {:induction false} ProductFilter(
      ps: seq<Expr>, qs: seq<Expr>, pl: seq<Expr>, pr: seq<Expr>,
      sl: seq<string>, sr: seq<string>, ls: seq<Row>, rs: seq<Row>)
    requires PairSplit(ps, qs, pl, pr, sl, sr, ls, rs)
    ensures FilterRows(ps, sl + sr, Product(ls, rs))
         == FilterRows(qs, sl + sr, Product(FilterRows(pl, sl, ls), FilterRows(pr, sr, rs)))
    decreases |ls|
  {
    if ls != [] {
      var l, rest, s := ls[0], ls[1..], sl + sr;
      var right := FilterRows(pr, sr, rs);
      assert ls == [l] + rest;
      assert PairSplit(ps, qs, pl, pr, sl, sr, rest, rs) by {
        forall x | x in rest ensures x in ls {}
      }
      ProductFilter(ps, qs, pl, pr, sl, sr, rest, rs);
      assert l in ls;
      if KeepsAll(pl, sl, l) {
        assert RightSplit(ps, qs, pr, s, sr, l, rs);
        PairFilter(ps, qs, pr, s, sr, l, rs);
      } else {
        assert NonePass(ps, s, l, rs);
        NoPairs(ps, s, l, rs);
      }
      ProductFilterStep(ps, qs, pl, s, sl, l, rest, rs, right);
    }
  }

  lemma ProductFilterStep(
      ps: seq<Expr>, qs: seq<Expr>, pl: seq<Expr>, s: seq<string>, sl: seq<string>,
      l: Row, rest: seq<Row>, rs: seq<Row>, right: seq<Row>)
    requires FilterRows(ps, s, PairRows(l, rs))
          == if KeepsAll(pl, sl, l) then FilterRows(qs, s, PairRows(l, right)) else []
    requires FilterRows(ps, s, Product(rest, rs)) == FilterRows(qs, s, Product(FilterRows(pl, sl, rest), right))
    ensures FilterRows(ps, s, Product([l] + rest, rs))
         == FilterRows(qs, s, Product(FilterRows(pl, sl, [l] + rest), right))
  {
    var kept := FilterRows(pl, sl, rest);
    ProductCons(l, rest, rs);
    FilterConcat(ps, s, PairRows(l, rs), Product(rest, rs));
    FilterCons(pl, sl, l, rest);
    if KeepsAll(pl, sl, l) {
      ProductCons(l, kept, right);
      FilterConcat(qs, s, PairRows(l, right), Product(kept, right));
    } else {
      assert [] + kept == kept;
    }
  }

  ghost predicate NonePass(ps: seq<Expr>, s: seq<string>, l: Row, rs: seq<Row>) {
    forall r :: r in rs ==> !KeepsAll(ps, s, l + r)
  }

  lemma {:induction false} NoPairs(ps: seq<Expr>, s: seq<string>, l: Row, rs: seq<Row>)
    requires NonePass(ps, s, l, rs)
    ensures FilterRows(ps, s, PairRows(l, rs)) == []
    decreases |rs|
  {
    if rs != [] {
      var r, rest := rs[0], rs[1..];
      assert rs == [r] + rest && r in rs;
      PairRowsCons(l, r, rest);
      NoPairs(ps, s, l, rest);
      FilterCons(ps, s, l + r, PairRows(l, rest));
    }
  }

  // ----- widths -----

  lemma {:induction false} FilterWide(ps: seq<Expr>, schema: seq<string>, rows: seq<Row>, n: nat)
    requires Wide(rows, n)
    ensures Wide(FilterRows(ps, schema, rows), n)
  {
    if rows != [] {
      FilterWide(ps, schema, rows[1..], n);
    }
  }

  lemma {:induction false} ProductWide(ls: seq<Row>, rs: seq<Row>, m: nat, n: nat)
    requires Wide(ls, m) && Wide(rs, n)
    ensures Wide(Product(ls, rs), m + n)
  {
    if ls != [] {
      ProductWide(ls[1..], rs, m, n);
    }
  }
}
