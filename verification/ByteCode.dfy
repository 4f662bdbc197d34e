/** The postfix bytecode of expressions: its stack machine, the compiler from
    bound expressions, and why compiled code computes what the expression means. */
module ByteCode {
  import opened Fields
  import opened Arithmetic
  import opened Ast

  const PUSH_LIT: nat := 0
  const PUSH_FIELD: nat := 1

  function MathCode(op: MathOp): nat {
    match op
    case Add => 2
    case Sub => 3
    case Mul => 4
    case Div => 5
  }

  function BooleanCode(op: BooleanOp): nat {
    match op
    case Eq => 6
    case Neq => 7
    case Lt => 8
    case Gt => 9
    case Lte => 10
    case Gte => 11
    case And => 12
    case Or => 13
  }

  // ----- the machine -----

  /** How a run ends: with a stack, with a panic raised by the values (failed arithmetic, a record
      too short), or with a panic raised by the code itself (stack underflow, bad opcode or operand). */
  datatype Ending = Done(stack: seq<Field>) | ValuePanic | CodePanic

  /** The dispatch table from code 2 on: pops two, pushes one. */
  function Binary(opcode: nat, l: Field, r: Field): Outcome<Field>
    requires 2 <= opcode < 14
  {
    match opcode
    case 2 => AddFields(l, r)
    case 3 => SubFields(l, r)
    case 4 => MulFields(l, r)
    case 5 => DivFields(l, r)
    case 6 => Ok(Bool(l == r))
    case 7 => Ok(Bool(l != r))
    case 8 => Ok(Bool(FieldLess(l, r)))
    case 9 => Ok(Bool(FieldLess(r, l)))
    case 10 => Ok(Bool(!FieldLess(r, l)))
    case 11 => Ok(Bool(!FieldLess(l, r)))
    case 12 => if l.Bool? && r.Bool? then Ok(Bool(l.b && r.b)) else Panic
    case _ => if l.Bool? && r.Bool? then Ok(Bool(l.b || r.b)) else Panic
  }

  /** One turn of the dispatch loop: the new program counter and stack. */
  function Step(code: seq<nat>, lits: seq<Field>, record: seq<Field>, pc: nat, stack: seq<Field>): (r: (nat, Ending))
    requires pc < |code|
    ensures r.0 > pc
  {
    var opcode := code[pc];
    if opcode == PUSH_LIT || opcode == PUSH_FIELD then
      if pc + 1 >= |code| then (pc + 1, CodePanic)
      else if opcode == PUSH_LIT then
        (pc + 2, if code[pc + 1] < |lits| then Done(stack + [lits[code[pc + 1]]]) else CodePanic)
      else
        (pc + 2, if code[pc + 1] < |record| then Done(stack + [record[code[pc + 1]]]) else ValuePanic)
    else if opcode >= 14 || |stack| < 2 then (pc + 1, CodePanic)
    else
      var n := |stack|;
      match Binary(opcode, stack[n - 2], stack[n - 1])
      case Ok(v) => (pc + 1, Done(stack[..n - 2] + [v]))
      case _ => (pc + 1, ValuePanic)
  }

  function Exec(code: seq<nat>, lits: seq<Field>, record: seq<Field>, pc: nat, stack: seq<Field>): Ending
    decreases |code| - pc
  {
    if pc >= |code| then Done(stack)
    else
      var (next, e) := Step(code, lits, record, pc, stack);
      if e.Done? then Exec(code, lits, record, next, e.stack) else e
  }

  /** `eval` as a function of the code, its literals and the record. */
  function EvalCode(code: seq<nat>, lits: seq<Field>, record: seq<Field>): Outcome<Field> {
    if code == [] then Panic
    else
      match Exec(code, lits, record, 0, [])
      case Done(stack) => if stack == [] then Panic else Ok(stack[|stack| - 1])
      case _ => Panic
  }

  // ----- the compiler -----

  /** Bound expressions: what the compiler accepts. */
  predicate Compilable(e: Expr) {
    match e
    case Literal(_) => true
    case Math(_, l, r) => Compilable(l) && Compilable(r)
    case Boolean(_, l, r) => Compilable(l) && Compilable(r)
    case ColIdx(_) => true
    case _ => false
  }

  function Literals(e: Expr): seq<Field> {
    match e
    case Literal(f) => [f]
    case Math(_, l, r) => Literals(l) + Literals(r)
    case Boolean(_, l, r) => Literals(l) + Literals(r)
    case _ => []
  }

  /** The code of `e` when its literals are stored from index `base` on. */
  function Code(e: Expr, base: nat): seq<nat> {
    match e
    case Literal(_) => [PUSH_LIT, base]
    case ColIdx(i) => [PUSH_FIELD, i]
    case Math(op, l, r) => Code(l, base) + Code(r, base + |Literals(l)|) + [MathCode(op)]
    case Boolean(op, l, r) => Code(l, base) + Code(r, base + |Literals(l)|) + [BooleanCode(op)]
    case _ => []
  }

  class ByteCodeExpr {
    var bytecodes: seq<nat>
    var literals: seq<Field>

    constructor ()
      ensures bytecodes == [] && literals == []
    {
      bytecodes, literals := [], [];
    }

    method AddCode(code: nat)
      modifies this
      ensures bytecodes == old(bytecodes) + [code] && literals == old(literals)
    {
      bytecodes := bytecodes + [code];
    }

    method AddLiteral(f: Field) returns (i: nat)
      modifies this
      ensures i == old(|literals|) && literals == old(literals) + [f] && bytecodes == old(bytecodes)
    {
      i := |literals|;
      literals := literals + [f];
    }

    /** The dispatch loop. */
    method Eval(record: seq<Field>) returns (v: Outcome<Field>)
      ensures v == EvalCode(bytecodes, literals, record)
    {
      if bytecodes == [] {
        return Panic;
      }
      var stack: seq<Field>, pc := [], 0;
      while pc < |bytecodes|
        invariant 0 <= pc
        invariant Exec(bytecodes, literals, record, pc, stack) == Exec(bytecodes, literals, record, 0, [])
        decreases |bytecodes| - pc
      {
        var (next, e) := Step(bytecodes, literals, record, pc, stack);
        if !e.Done? {
          return Panic;
        }
        pc, stack := next, e.stack;
      }
      return if stack == [] then Panic else Ok(stack[|stack| - 1]);
    }
  }

  /** The opcode of a binary expression. */
  function OpCode(e: Expr): (c: nat)
    requires e.Math? || e.Boolean?
    ensures 2 <= c < 14
  {
    if e.Math? then MathCode(e.mop) else BooleanCode(e.bop)
  }

  /** Appends the code of a bound expression; names, aliases and aggregates are an error. */
  method ConvertInner(e: Expr, out: ByteCodeExpr) returns (ok: bool)
    modifies out
    ensures ok <==> Compilable(e)
    ensures ok ==> out.bytecodes == old(out.bytecodes) + Code(e, old(|out.literals|))
    ensures ok ==> out.literals == old(out.literals) + Literals(e)
    decreases e, 1
  {
    match e
    case Literal(f) =>
      var i := out.AddLiteral(f);
      out.AddCode(PUSH_LIT);
      out.AddCode(i);
      ok := true;
    case Math(_, _, _) =>
      ok := ConvertOperands(e, out);
    case Boolean(_, _, _) =>
      ok := ConvertOperands(e, out);
    case ColIdx(i) =>
      out.AddCode(PUSH_FIELD);
      out.AddCode(i);
      ok := true;
    case _ =>
      ok := false;
  }

  method ConvertOperands(e: Expr, out: ByteCodeExpr) returns (ok: bool)
    requires e.Math? || e.Boolean?
    modifies out
    ensures ok <==> Compilable(e)
    ensures ok ==> out.bytecodes == old(out.bytecodes) + Code(e, old(|out.literals|))
    ensures ok ==> out.literals == old(out.literals) + Literals(e)
    decreases e, 0
  {
    ghost var code, lits := out.bytecodes, out.literals;
    ok := ConvertInner(e.l, out);
    if ok {
      ok := ConvertInner(e.r, out);
      if ok {
        out.AddCode(OpCode(e));
        AppendedOperands(code, lits, e);
      }
    }
  }

  lemma AppendedOperands(code: seq<nat>, lits: seq<Field>, e: Expr)
    requires e.Math? || e.Boolean?
    ensures code + Code(e.l, |lits|) + Code(e.r, |lits + Literals(e.l)|) + [OpCode(e)] == code + Code(e, |lits|)
    ensures lits + Literals(e.l) + Literals(e.r) == lits + Literals(e)
  {
    var n := |lits| + |Literals(e.l)|;
    assert |lits + Literals(e.l)| == n;
    assert Code(e, |lits|) == Code(e.l, |lits|) + Code(e.r, n) + [OpCode(e)];
    Associate(code, Code(e.l, |lits|), Code(e.r, n), [OpCode(e)]);
    Associate(lits, Literals(e.l), Literals(e.r), []);
  }

  lemma Associate<T>(a: seq<T>, b: seq<T>, c: seq<T>, d: seq<T>)
    ensures a + b + c + d == a + (b + c + d)
    ensures a + b + c == a + (b + c)
  {
  }

  // ----- correctness -----

  /** What the machine should do with a value of the expression. */
  function Pushed(v: Outcome<Field>, stack: seq<Field>): Ending {
    if v.Ok? then Done(stack + [v.value]) else ValuePanic
  }

  /** Runs the rest of the code from an ending. */
  function Continue(code: seq<nat>, lits: seq<Field>, record: seq<Field>, pc: nat, e: Ending): Ending {
    if e.Done? then Exec(code, lits, record, pc, e.stack) else e
  }

  /** The code between `pc` and `next` turns `stack` into `stack` with `v` on top. */
  predicate Pushes(
    code: seq<nat>, lits: seq<Field>, record: seq<Field>, pc: nat, next: nat, stack: seq<Field>, v: Outcome<Field>)
  {
    Exec(code, lits, record, pc, stack) == Continue(code, lits, record, next, Pushed(v, stack))
  }

  predicate At(code: seq<nat>, pc: nat, part: seq<nat>) {
    pc + |part| <= |code| && forall i :: 0 <= i < |part| ==> code[pc + i] == part[i]
  }

  lemma AtSplit(code: seq<nat>, pc: nat, a: seq<nat>, b: seq<nat>, c: nat)
    requires At(code, pc, a + b + [c])
    ensures At(code, pc, a) && At(code, pc + |a|, b)
    ensures pc + |a| + |b| < |code| && code[pc + |a| + |b|] == c
  {
    var part := a + b + [c];
    forall i | 0 <= i < |a| ensures code[pc + i] == a[i] {
      assert part[i] == a[i];
    }
    forall i | 0 <= i < |b| ensures code[pc + |a| + i] == b[i] {
      assert part[|a| + i] == b[i];
    }
    assert part[|a| + |b|] == c;
  }

  lemma LitsSplit(lits: seq<Field>, base: nat, a: seq<Field>, b: seq<Field>)
    requires base + |a + b| <= |lits| && lits[base..base + |a + b|] == a + b
    ensures lits[base..base + |a|] == a && lits[base + |a|..base + |a| + |b|] == b
  {
    assert lits[base..base + |a|] == (a + b)[..|a|] == a;
    assert lits[base + |a|..base + |a| + |b|] == (a + b)[|a|..] == b;
  }

  predicate LitsAt(lits: seq<Field>, base: nat, e: Expr) {
    base + |Literals(e)| <= |lits| && lits[base..base + |Literals(e)|] == Literals(e)
  }

  /** From any stack, the code of an expression pushes exactly its value, wherever it stands in a
      program; when the expression has no value the machine panics on values, never on its own code. */
  lemma {:induction false} CompiledPushesValue(
      e: Expr, base: nat, code: seq<nat>, pc: nat, lits: seq<Field>, record: seq<Field>, stack: seq<Field>)
    requires Compilable(e) && At(code, pc, Code(e, base)) && LitsAt(lits, base, e)
    ensures Pushes(code, lits, record, pc, pc + |Code(e, base)|, stack, Eval(e, record))
    decreases e, 2
  {
    if e.Math? || e.Boolean? {
      CompiledOperands(e, base, code, pc, lits, record, stack);
    } else {
      var part := Code(e, base);
      assert code[pc + 0] == part[0] && code[pc + 1] == part[1];
      if e.Literal? {
        assert lits[base] == lits[base..base + 1][0];
      }
    }
  }

  lemma {:induction false} CompiledOperands(
      e: Expr, base: nat, code: seq<nat>, pc: nat, lits: seq<Field>, record: seq<Field>, stack: seq<Field>)
    requires e.Math? || e.Boolean?
    requires Compilable(e) && At(code, pc, Code(e, base)) && LitsAt(lits, base, e)
    ensures Pushes(code, lits, record, pc, pc + |Code(e, base)|, stack, Eval(e, record))
    decreases e, 1
  {
    var base' := base + |Literals(e.l)|;
    var mid := pc + |Code(e.l, base)|;
    var last := mid + |Code(e.r, base')|;
    OperandLayout(e, base, code, pc, lits);
    CompiledPair(e, base, base', code, pc, mid, last, lits, record, stack);
  }

  lemma {:induction false} CompiledPair(
      e: Expr, base: nat, base': nat, code: seq<nat>, pc: nat, mid: nat, last: nat,
      lits: seq<Field>, record: seq<Field>, stack: seq<Field>)
    requires (e.Math? || e.Boolean?) && Compilable(e.l) && Compilable(e.r)
    requires At(code, pc, Code(e.l, base)) && LitsAt(lits, base, e.l) && mid == pc + |Code(e.l, base)|
    requires At(code, mid, Code(e.r, base')) && LitsAt(lits, base', e.r) && last == mid + |Code(e.r, base')|
    requires last < |code| && code[last] == OpCode(e)
    ensures Pushes(code, lits, record, pc, last + 1, stack, Eval(e, record))
    decreases e, 0
  {
    CompiledPushesValue(e.l, base, code, pc, lits, record, stack);
    var x := Eval(e.l, record);
    if x.Ok? {
      CompiledPushesValue(e.r, base', code, mid, lits, record, stack + [x.value]);
    }
    CompiledOpcode(e, code, pc, mid, last, lits, record, stack);
  }

  /** Where the operands and the opcode of a compiled expression stand. */
  lemma OperandLayout(e: Expr, base: nat, code: seq<nat>, pc: nat, lits: seq<Field>)
    requires e.Math? || e.Boolean?
    requires At(code, pc, Code(e, base)) && LitsAt(lits, base, e)
    ensures At(code, pc, Code(e.l, base)) && LitsAt(lits, base, e.l)
    ensures At(code, pc + |Code(e.l, base)|, Code(e.r, base + |Literals(e.l)|))
    ensures LitsAt(lits, base + |Literals(e.l)|, e.r)
    ensures var last := pc + |Code(e.l, base)| + |Code(e.r, base + |Literals(e.l)|)|;
            last < |code| && code[last] == OpCode(e) && pc + |Code(e, base)| == last + 1
  {
    OperandCode(e, base, code, pc, base + |Literals(e.l)|);
    OperandLiterals(e, base, lits);
  }

  lemma OperandCode(e: Expr, base: nat, code: seq<nat>, pc: nat, next: nat)
    requires (e.Math? || e.Boolean?) && At(code, pc, Code(e, base)) && next == base + |Literals(e.l)|
    ensures At(code, pc, Code(e.l, base)) && At(code, pc + |Code(e.l, base)|, Code(e.r, next))
    ensures var last := pc + |Code(e.l, base)| + |Code(e.r, next)|;
            last < |code| && code[last] == OpCode(e) && pc + |Code(e, base)| == last + 1
  {
    assert Code(e, base) == Code(e.l, base) + Code(e.r, next) + [OpCode(e)];
    AtSplit(code, pc, Code(e.l, base), Code(e.r, next), OpCode(e));
  }

  lemma OperandLiterals(e: Expr, base: nat, lits: seq<Field>)
    requires (e.Math? || e.Boolean?) && LitsAt(lits, base, e)
    ensures LitsAt(lits, base, e.l) && LitsAt(lits, base + |Literals(e.l)|, e.r)
  {
    LitsSplit(lits, base, Literals(e.l), Literals(e.r));
  }

  function PairValue(opcode: nat, x: Outcome<Field>, y: Outcome<Field>): Outcome<Field>
    requires 2 <= opcode < 14
  {
    if x.Ok? && y.Ok? then Binary(opcode, x.value, y.value) else Panic
  }

  /** Chains the runs of two operands and of the opcode behind them. */
  lemma PairChain(
      opcode: nat, code: seq<nat>, pc: nat, mid: nat, last: nat,
      lits: seq<Field>, record: seq<Field>, stack: seq<Field>, x: Outcome<Field>, y: Outcome<Field>)
    requires 2 <= opcode < 14 && last < |code| && code[last] == opcode
    requires Pushes(code, lits, record, pc, mid, stack, x)
    requires x.Ok? ==> Pushes(code, lits, record, mid, last, stack + [x.value], y)
    ensures Pushes(code, lits, record, pc, last + 1, stack, PairValue(opcode, x, y))
  {
    if x.Ok? && y.Ok? {
      BinaryPushes(opcode, code, last, lits, record, stack, x.value, y.value);
    }
  }

  lemma CompiledOpcode(
      e: Expr, code: seq<nat>, pc: nat, mid: nat, last: nat, lits: seq<Field>, record: seq<Field>, stack: seq<Field>)
    requires (e.Math? || e.Boolean?) && last < |code| && code[last] == OpCode(e)
    requires Pushes(code, lits, record, pc, mid, stack, Eval(e.l, record))
    requires Eval(e.l, record).Ok? ==>
               Pushes(code, lits, record, mid, last, stack + [Eval(e.l, record).value], Eval(e.r, record))
    ensures Pushes(code, lits, record, pc, last + 1, stack, Eval(e, record))
  {
    var x, y := Eval(e.l, record), Eval(e.r, record);
    OperandsValue(e, record);
    PairChain(OpCode(e), code, pc, mid, last, lits, record, stack, x, y);
    PushesSame(code, lits, record, pc, last + 1, stack, Eval(e, record), PairValue(OpCode(e), x, y));
  }

  /** The machine cannot tell an error from a panic. */
  lemma OperandsValue(e: Expr, record: seq<Field>)
    requires e.Math? || e.Boolean?
    ensures SameForMachine(Eval(e, record), PairValue(OpCode(e), Eval(e.l, record), Eval(e.r, record)))
  {
  }

  predicate SameForMachine(v: Outcome<Field>, w: Outcome<Field>) {
    v.Ok? == w.Ok? && (v.Ok? ==> v == w)
  }

  lemma PushesSame(
      code: seq<nat>, lits: seq<Field>, record: seq<Field>, pc: nat, next: nat, stack: seq<Field>,
      v: Outcome<Field>, w: Outcome<Field>)
    requires SameForMachine(v, w) && Pushes(code, lits, record, pc, next, stack, w)
    ensures Pushes(code, lits, record, pc, next, stack, v)
  {
    assert Pushed(v, stack) == Pushed(w, stack);
  }

  lemma BinaryPushes(
      opcode: nat, code: seq<nat>, pc: nat, lits: seq<Field>, record: seq<Field>, stack: seq<Field>, x: Field, y: Field)
    requires 2 <= opcode < 14 && pc < |code| && code[pc] == opcode
    ensures Exec(code, lits, record, pc, stack + [x] + [y])
         == Continue(code, lits, record, pc + 1, Pushed(Binary(opcode, x, y), stack))
  {
    var full := stack + [x] + [y];
    assert full[..|full| - 2] == stack && full[|full| - 2] == x && full[|full| - 1] == y;
  }

  lemma {:induction false} BindCompilable(e: Expr, schema: seq<string>)
    requires Bind(e, schema).Ok?
    ensures Compilable(Bind(e, schema).value)
  {
    match e
    case Literal(_) =>
    case Ident(_) =>
    case Alias(_, x) => BindCompilable(x, schema);
    case Math(_, l, r) => BindCompilable(l, schema); BindCompilable(r, schema);
    case Boolean(_, l, r) => BindCompilable(l, schema); BindCompilable(r, schema);
    case ColIdx(_) =>
  }

  lemma {:induction false} CodeNonEmpty(e: Expr, base: nat)
    requires Compilable(e)
    ensures Code(e, base) != []
  {
  }

  /** Compiler correctness: running the compiled code gives the value of the bound expression, and
      panics exactly when the expression has none. */
  lemma CompilerCorrect(e: Expr, record: seq<Field>)
    requires Compilable(e)
    ensures EvalCode(Code(e, 0), Literals(e), record)
         == if Eval(e, record).Ok? then Eval(e, record) else Panic
    ensures Exec(Code(e, 0), Literals(e), record, 0, []) != CodePanic
  {
    CodeNonEmpty(e, 0);
    var code, lits := Code(e, 0), Literals(e);
    assert lits[0..0 + |lits|] == lits;
    CompiledPushesValue(e, 0, code, 0, lits, record, []);
  }

  /** What compiled arithmetic on integers computes, operands in the order they were written. */
  lemma IntegerCode(e: Expr, record: seq<Field>, a: int, b: int)
    requires e.Math? && Compilable(e) && Eval(e.l, record) == Ok(Int(a)) && Eval(e.r, record) == Ok(Int(b))
    ensures var r := EvalCode(Code(e, 0), Literals(e), record);
      match e.mop
      case Add => r == Ok(Int(Wrap(a + b)))
      case Sub => r == Ok(Int(Wrap(a - b)))
      case Mul => r == Ok(Int(Wrap(a * b)))
      case Div =>
        if b == 0 || (a == -TWO63 && b == -1) then r == Panic
        else r.Ok? && r.value.Int? && IsQuotient(r.value.i, a, b)
  {
    CompilerCorrect(e, record);
    if e.mop.Div? && b != 0 && !(a == -TWO63 && b == -1) {
      DivExact(a, b);
    }
  }

  /** What compiled comparisons of integers compute. */
  lemma ComparisonCode(e: Expr, record: seq<Field>, a: int, b: int)
    requires e.Boolean? && Compilable(e) && Eval(e.l, record) == Ok(Int(a)) && Eval(e.r, record) == Ok(Int(b))
    ensures var r := EvalCode(Code(e, 0), Literals(e), record);
      match e.bop
      case Eq => r == Ok(Bool(a == b))
      case Neq => r == Ok(Bool(a != b))
      case Gt => r == Ok(Bool(a > b))
      case Gte => r == Ok(Bool(a >= b))
      case Lt => r == Ok(Bool(a < b))
      case Lte => r == Ok(Bool(a <= b))
      case _ => r == Panic
  {
    CompilerCorrect(e, record);
    IntegersCompare(a, b);
  }

  /** What compiled logic computes. */
  lemma LogicCode(e: Expr, record: seq<Field>, a: bool, b: bool)
    requires e.Boolean? && (e.bop.And? || e.bop.Or?) && Compilable(e)
    requires Eval(e.l, record) == Ok(Bool(a)) && Eval(e.r, record) == Ok(Bool(b))
    ensures EvalCode(Code(e, 0), Literals(e), record) == Ok(Bool(if e.bop.And? then a && b else a || b))
  {
    CompilerCorrect(e, record);
    LogicTable(Bool(a), Bool(b));
  }

  /** Binding, compiling and running an expression is evaluating it by name. */
  lemma PipelineCorrect(e: Expr, schema: seq<string>, record: seq<Field>)
    requires !HasAgg(e) && Columns(e) <= set c | c in schema
    ensures Bind(e, schema).Ok?
    ensures var bound := Bind(e, schema).value;
            var named := EvalNamed(e, schema, Lift(record));
            EvalCode(Code(bound, 0), Literals(bound), record) == if named.Ok? then named else Panic
  {
    BindSucceeds(e, schema);
    BindCompilable(e, schema);
    BindKeepsMeaning(e, schema, record);
    CompilerCorrect(Bind(e, schema).value, record);
  }

  /** `convert_ast_to_bytecode`: fails exactly when binding panics. */
  method Convert(e: Expr, schema: seq<string>) returns (out: Outcome<ByteCodeExpr>)
    ensures out.Ok? <==> !HasAgg(e) && Columns(e) <= set c | c in schema
    ensures out.Ok? ==>
              && fresh(out.value) && Bind(e, schema).Ok?
              && out.value.bytecodes == Code(Bind(e, schema).value, 0)
              && out.value.literals == Literals(Bind(e, schema).value)
    ensures out.Ok? ==> forall record: seq<Field> ::
                var named := EvalNamed(e, schema, Lift(record));
                EvalCode(out.value.bytecodes, out.value.literals, record) == if named.Ok? then named else Panic
  {
    BindSucceeds(e, schema);
    var bound := Bind(e, schema);
    if !bound.Ok? {
      return Panic;
    }
    BindCompilable(e, schema);
    var code := new ByteCodeExpr();
    var ok := ConvertInner(bound.value, code);
    assert code.bytecodes == Code(bound.value, 0) && code.literals == Literals(bound.value);
    forall record: seq<Field>
      ensures var named := EvalNamed(e, schema, Lift(record));
              EvalCode(code.bytecodes, code.literals, record) == if named.Ok? then named else Panic
    {
      PipelineCorrect(e, schema, record);
    }
    return Ok(code);
  }
}
