/** Expressions: binding names to columns, and the two evaluators of bound and
    unbound expressions. */
module Ast {
  import opened Options
  import opened Fields

  datatype Expr =
    | Literal(f: Field)
    | Ident(name: string)
    | Alias(alias: string, e: Expr)
    | Math(mop: MathOp, l: Expr, r: Expr)
    | Boolean(bop: BooleanOp, l: Expr, r: Expr)
    | Agg(aop: AggOp, e: Expr)
    | ColIdx(i: nat)

  predicate HasAgg(e: Expr) {
    match e
    case Literal(_) => false
    case Ident(_) => false
    case Alias(_, x) => HasAgg(x)
    case Math(_, l, r) => HasAgg(l) || HasAgg(r)
    case Boolean(_, l, r) => HasAgg(l) || HasAgg(r)
    case Agg(_, _) => true
    case ColIdx(_) => false
  }

  /** The names an expression mentions. */
  function Columns(e: Expr): set<string> {
    match e
    case Literal(_) => {}
    case Ident(x) => {x}
    case Alias(_, x) => Columns(x)
    case Math(_, l, r) => Columns(l) + Columns(r)
    case Boolean(_, l, r) => Columns(l) + Columns(r)
    case Agg(_, x) => Columns(x)
    case ColIdx(_) => {}
  }

  /** No column index yet: what `extract_columns` and `to_name` demand. */
  predicate Unbound(e: Expr) {
    match e
    case Literal(_) => true
    case Ident(_) => true
    case Alias(_, x) => Unbound(x)
    case Math(_, l, r) => Unbound(l) && Unbound(r)
    case Boolean(_, l, r) => Unbound(l) && Unbound(r)
    case Agg(_, x) => Unbound(x)
    case ColIdx(_) => false
  }

  /** `get_field_index`: the first column of that name. */
  function IndexOf(schema: seq<string>, name: string): (r: Option<nat>)
    ensures r.Some? ==> r.value < |schema| && schema[r.value] == name && name !in schema[..r.value]
    ensures r.None? <==> name !in schema
  {
    if schema == [] then None
    else if schema[0] == name then Some(0)
    else
      match IndexOf(schema[1..], name)
      case None => None
      case Some(i) => Some(i + 1)
  }

  /** Replaces names by column indices and drops aliases; panics on aggregates and unknown names. */
  function Bind(e: Expr, schema: seq<string>): Outcome<Expr> {
    match e
    case Agg(_, _) => Panic
    case Literal(_) => Ok(e)
    case Ident(x) => (match IndexOf(schema, x) case None => Panic case Some(i) => Ok(ColIdx(i)))
    case Alias(_, x) => Bind(x, schema)
    case Math(op, l, r) =>
      (match (Bind(l, schema), Bind(r, schema))
       case (Ok(bl), Ok(br)) => Ok(Math(op, bl, br))
       case _ => Panic)
    case Boolean(op, l, r) =>
      (match (Bind(l, schema), Bind(r, schema))
       case (Ok(bl), Ok(br)) => Ok(Boolean(op, bl, br))
       case _ => Panic)
    case ColIdx(_) => Ok(e)
  }

  /** `is_computed_from`. */
  predicate ComputedFrom(e: Expr, schema: seq<string>) {
    match e
    case Ident(x) => x in schema
    case Alias(_, x) => ComputedFrom(x, schema)
    case Literal(_) => true
    case Math(_, l, r) => ComputedFrom(l, schema) && ComputedFrom(r, schema)
    case Boolean(_, l, r) => ComputedFrom(l, schema) && ComputedFrom(r, schema)
    case Agg(_, x) => ComputedFrom(x, schema)
    case ColIdx(_) => true
  }

  // ----- evaluation -----

  /** Comparison and logic on two values; logic needs two booleans. */
  function BoolFields(op: BooleanOp, x: Field, y: Field): Outcome<Field> {
    match op
    case Eq => Ok(Bool(x == y))
    case Neq => Ok(Bool(x != y))
    case Gt => Ok(Bool(FieldLess(y, x)))
    case Gte => Ok(Bool(!FieldLess(x, y)))
    case Lt => Ok(Bool(FieldLess(x, y)))
    case Lte => Ok(Bool(!FieldLess(y, x)))
    case And => if x.Bool? && y.Bool? then Ok(Bool(x.b && y.b)) else Err
    case Or => if x.Bool? && y.Bool? then Ok(Bool(x.b || y.b)) else Err
  }

  /** Comparing integers is comparing numbers. */
  lemma IntegersCompare(a: int, b: int)
    ensures BoolFields(Eq, Int(a), Int(b)) == Ok(Bool(a == b))
    ensures BoolFields(Neq, Int(a), Int(b)) == Ok(Bool(a != b))
    ensures BoolFields(Lt, Int(a), Int(b)) == Ok(Bool(a < b))
    ensures BoolFields(Lte, Int(a), Int(b)) == Ok(Bool(a <= b))
    ensures BoolFields(Gt, Int(a), Int(b)) == Ok(Bool(a > b))
    ensures BoolFields(Gte, Int(a), Int(b)) == Ok(Bool(a >= b))
  {
  }

  /** On any two fields exactly one of smaller, equal and greater holds, and the comparisons say which. */
  lemma FieldsCompare(x: Field, y: Field)
    ensures FieldLess(x, y) ==> Truths(x, y) == {Lt, Lte, Neq}
    ensures x == y ==> Truths(x, y) == {Eq, Lte, Gte}
    ensures FieldLess(y, x) ==> Truths(x, y) == {Gt, Gte, Neq}
    ensures FieldLess(x, y) || x == y || FieldLess(y, x)
  {
    FieldLessTotal(x, y);
    FieldLessTotal(y, x);
  }

  /** The comparisons that hold of two fields. */
  function Truths(x: Field, y: Field): set<BooleanOp> {
    set op | op in {Eq, Neq, Gt, Gte, Lt, Lte} && BoolFields(op, x, y) == Ok(Bool(true))
  }

  /** Logic is the truth table, and an error on anything that is not a boolean. */
  lemma LogicTable(x: Field, y: Field)
    ensures BoolFields(And, x, y).Ok? <==> x.Bool? && y.Bool?
    ensures BoolFields(Or, x, y).Ok? <==> x.Bool? && y.Bool?
    ensures x.Bool? && y.Bool? ==>
              && (BoolFields(And, x, y) == Ok(Bool(true)) <==> x == y == Bool(true))
              && (BoolFields(Or, x, y) == Ok(Bool(false)) <==> x == y == Bool(false))
              && BoolFields(And, x, y).value.Bool? && BoolFields(Or, x, y).value.Bool?
  {
  }

  /** `eval_astexpr`: the reference evaluator of bound expressions. */
  function Eval(e: Expr, tuple: seq<Field>): Outcome<Field> {
    match e
    case Literal(f) => Ok(f)
    case Ident(_) => Err
    case Alias(_, x) => Eval(x, tuple)
    case Math(op, l, r) =>
      var x := Eval(l, tuple);
      if !x.Ok? then x
      else
        var y := Eval(r, tuple);
        if !y.Ok? then y else MathFields(op, x.value, y.value)
    case Boolean(op, l, r) =>
      var x := Eval(l, tuple);
      if !x.Ok? then x
      else
        var y := Eval(r, tuple);
        if !y.Ok? then y else BoolFields(op, x.value, y.value)
    case Agg(_, _) => Err
    case ColIdx(i) => if i < |tuple| then Ok(tuple[i]) else Err
  }

  /** A row of a query result; a cell whose computation failed keeps its failure. */
  type Row = seq<Outcome<Field>>

  function CellOf(schema: seq<string>, row: Row, name: string): Outcome<Field> {
    match IndexOf(schema, name)
    case None => Panic
    case Some(i) => if i < |row| then row[i] else Err
  }

  /** Evaluation of an unbound expression by looking names up in the row. */
  function EvalNamed(e: Expr, schema: seq<string>, row: Row): Outcome<Field> {
    match e
    case Literal(f) => Ok(f)
    case Ident(x) => CellOf(schema, row, x)
    case Alias(_, x) => EvalNamed(x, schema, row)
    case Math(op, l, r) =>
      var x := EvalNamed(l, schema, row);
      if !x.Ok? then x
      else
        var y := EvalNamed(r, schema, row);
        if !y.Ok? then y else MathFields(op, x.value, y.value)
    case Boolean(op, l, r) =>
      var x := EvalNamed(l, schema, row);
      if !x.Ok? then x
      else
        var y := EvalNamed(r, schema, row);
        if !y.Ok? then y else BoolFields(op, x.value, y.value)
    case Agg(_, _) => Panic
    case ColIdx(i) => if i < |row| then row[i] else Err
  }

  function Lift(tuple: seq<Field>): Row { seq(|tuple|, i requires 0 <= i < |tuple| => Ok(tuple[i])) }

  /** Binding succeeds exactly on aggregate-free expressions over the schema. */
  lemma {:induction false} BindSucceeds(e: Expr, schema: seq<string>)
    ensures Bind(e, schema).Ok? <==> !HasAgg(e) && Columns(e) <= set c | c in schema
    ensures Bind(e, schema) != Err
  {
    match e
    case Literal(_) =>
    case Ident(_) =>
    case Alias(_, x) => BindSucceeds(x, schema);
    case Math(_, l, r) => BindSucceeds(l, schema); BindSucceeds(r, schema);
    case Boolean(_, l, r) => BindSucceeds(l, schema); BindSucceeds(r, schema);
    case Agg(_, x) =>
    case ColIdx(_) =>
  }

  /** Binding then evaluating by index is evaluating by name. */
  lemma {:induction false} BindKeepsMeaning(e: Expr, schema: seq<string>, tuple: seq<Field>)
    requires Bind(e, schema).Ok?
    ensures Eval(Bind(e, schema).value, tuple) == EvalNamed(e, schema, Lift(tuple))
  {
    match e
    case Literal(_) =>
    case Ident(_) =>
    case Alias(_, x) => BindKeepsMeaning(x, schema, tuple);
    case Math(_, l, r) => BindKeepsMeaning(l, schema, tuple); BindKeepsMeaning(r, schema, tuple);
    case Boolean(_, l, r) => BindKeepsMeaning(l, schema, tuple); BindKeepsMeaning(r, schema, tuple);
    case ColIdx(_) =>
  }

  /** The value of an expression depends only on the columns it mentions. */
  lemma {:induction false} EvalNamedAgree(e: Expr, s: seq<string>, a: Row, t: seq<string>, b: Row)
    requires Unbound(e) && forall c :: c in Columns(e) ==> CellOf(s, a, c) == CellOf(t, b, c)
    ensures EvalNamed(e, s, a) == EvalNamed(e, t, b)
  {
    match e
    case Literal(_) =>
    case Ident(x) => assert x in Columns(e);
    case Alias(_, x) => EvalNamedAgree(x, s, a, t, b);
    case Math(_, l, r) => EvalNamedAgree(l, s, a, t, b); EvalNamedAgree(r, s, a, t, b);
    case Boolean(_, l, r) => EvalNamedAgree(l, s, a, t, b); EvalNamedAgree(r, s, a, t, b);
    case Agg(_, _) =>
  }

  /** An unknown column spoils the whole expression. */
  lemma {:induction false} EvalNamedMissing(e: Expr, s: seq<string>, a: Row, c: string)
    requires Unbound(e) && c in Columns(e) && c !in s
    ensures !EvalNamed(e, s, a).Ok?
  {
    match e
    case Ident(x) =>
    case Alias(_, x) => EvalNamedMissing(x, s, a, c);
    case Math(_, l, r) => if c in Columns(l) { EvalNamedMissing(l, s, a, c); } else { EvalNamedMissing(r, s, a, c); }
    case Boolean(_, l, r) => if c in Columns(l) { EvalNamedMissing(l, s, a, c); } else { EvalNamedMissing(r, s, a, c); }
    case Agg(_, _) =>
  }

  /** `is_computed_from` asks for every mentioned name to be in the schema. */
  lemma {:induction false} ComputedFromColumns(e: Expr, schema: seq<string>)
    requires Unbound(e)
    ensures ComputedFrom(e, schema) <==> Columns(e) <= set c | c in schema
  {
    match e
    case Literal(_) =>
    case Ident(_) =>
    case Alias(_, x) => ComputedFromColumns(x, schema);
    case Math(_, l, r) => ComputedFromColumns(l, schema); ComputedFromColumns(r, schema);
    case Boolean(_, l, r) => ComputedFromColumns(l, schema); ComputedFromColumns(r, schema);
    case Agg(_, x) => ComputedFromColumns(x, schema);
  }
}
