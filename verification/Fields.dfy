/** Field values, their order and their arithmetic.  Integers are 64-bit and wrap,
    as in a build without overflow checks. */
module Fields {
  /** How a computation ends: with a value, with a returned error, or with a panic. */
  datatype Outcome<+T> = Ok(value: T) | Err | Panic

  datatype Field =
    | Int(i: int)
    | Str(s: string)
    | Decimal(whole: int, scale: nat)
    | Date(days: int)
    | Bool(b: bool)
    | Null

  datatype MathOp = Add | Sub | Mul | Div
  datatype BooleanOp = Eq | Neq | Gt | Gte | Lt | Lte | And | Or
  datatype AggOp = Avg | Count | Max | Min | Sum

  // ----- 64-bit arithmetic -----

  const TWO32: nat := 0x1_0000_0000
  const TWO63: int := 0x8000_0000_0000_0000
  const TWO64: int := 0x1_0000_0000_0000_0000

  predicate InI64(x: int) { -TWO63 <= x < TWO63 }

  /** Two's-complement reduction to 64 bits. */
  function Wrap(x: int): (r: int)
    ensures InI64(r) && (InI64(x) ==> r == x)
    ensures (x - r) % TWO64 == 0
  {
    (x + TWO63) % TWO64 - TWO63
  }

  function Pow10(e: nat): (r: int)
    ensures r >= 1
  {
    if e == 0 then 1 else 10 * Pow10(e - 1)
  }

  lemma MulAssoc(a: int, b: int, c: int)
    ensures a * (b * c) == (a * b) * c
  {
  }

  lemma {:induction false} PowSum(a: nat, b: nat)
    ensures Pow10(a + b) == Pow10(a) * Pow10(b)
  {
    if b > 0 {
      PowSum(a, b - 1);
      MulAssoc(Pow10(a), 10, Pow10(b - 1));
    }
  }

  /** `10i64.pow(e)`. */
  function PowI64(e: nat): int { Wrap(Pow10(e)) }

  /** Integer division rounding toward zero. */
  function TruncDiv(a: int, b: int): int
    requires b != 0
  {
    if a >= 0 then a / b else -((-a) / b)
  }

  function Abs(x: int): nat { if x < 0 then -x else x }

  /** The quotient rounded to the nearest integer, ties away from zero. */
  function RoundDiv(a: int, b: int): int
    requires b != 0
  {
    var q := (2 * Abs(a) + Abs(b)) / (2 * Abs(b));
    if (a < 0) == (b < 0) then q else -q
  }

  /** A saturating cast to `i64`. */
  function Saturate(x: int): int {
    if x < -TWO63 then -TWO63 else if x >= TWO63 then TWO63 - 1 else x
  }

  /** Floating quotient, rounded and cast: a zero divisor saturates and zero over zero is zero. */
  function RoundQuotient(a: int, b: int): int {
    if b != 0 then Saturate(RoundDiv(a, b))
    else if a > 0 then TWO63 - 1
    else if a < 0 then -TWO63
    else 0
  }

  function MaxNat(a: nat, b: nat): nat { if a > b then a else b }
  function MinNat(a: nat, b: nat): nat { if a < b then a else b }

  /** `a * 10i64.pow(e)`. */
  function Scaled(a: int, e: nat): int { Wrap(a * PowI64(e)) }

  /** Addition aligns to the larger scale; any other operand is a panic, not an error. */
  function AddFields(x: Field, y: Field): Outcome<Field> {
    match (x, y)
    case (Int(a), Int(b)) => Ok(Int(Wrap(a + b)))
    case (Decimal(a, sl), Decimal(b, sr)) =>
      var s := MaxNat(sl, sr);
      Ok(Decimal(Wrap(Scaled(a, s - sl) + Scaled(b, s - sr)), s))
    case (Int(a), Decimal(b, sr)) => Ok(Decimal(Wrap(Scaled(a, sr) + b), sr))
    case (Decimal(a, sl), Int(b)) => Ok(Decimal(Wrap(a + Scaled(b, sl)), sl))
    case _ => Panic
  }

  function SubFields(x: Field, y: Field): Outcome<Field> {
    match (x, y)
    case (Int(a), Int(b)) => Ok(Int(Wrap(a - b)))
    case (Decimal(a, sl), Decimal(b, sr)) =>
      var s := MaxNat(sl, sr);
      Ok(Decimal(Wrap(Scaled(a, s - sl) - Scaled(b, s - sr)), s))
    case (Int(a), Decimal(b, sr)) => Ok(Decimal(Wrap(Scaled(a, sr) - b), sr))
    case (Decimal(a, sl), Int(b)) => Ok(Decimal(Wrap(a - Scaled(b, sl)), sl))
    case _ => Err
  }

  function MulFields(x: Field, y: Field): Outcome<Field> {
    match (x, y)
    case (Int(a), Int(b)) => Ok(Int(Wrap(a * b)))
    case (Decimal(a, sl), Decimal(b, sr)) =>
      Ok(Decimal(RoundQuotient(Wrap(a * b), PowI64(MinNat(sl, sr))), MaxNat(sl, sr)))
    case (Int(a), Decimal(b, sr)) => Ok(Decimal(Wrap(a * b), sr))
    case (Decimal(a, sl), Int(b)) => Ok(Decimal(Wrap(a * b), sl))
    case _ => Err
  }

  function DivDecimals(a: int, sl: nat, b: int, sr: nat): Outcome<Field> {
    if b == 0 then Err
    else
      var s := MaxNat(sl, sr);
      Ok(Decimal(RoundQuotient(Scaled(a, (s - sl + sr) % TWO32), b), s))
  }

  /** Division by zero is an error; the one overflowing quotient panics. */
  function DivFields(x: Field, y: Field): Outcome<Field> {
    match (x, y)
    case (Int(a), Int(b)) =>
      if b == 0 then Err else if a == -TWO63 && b == -1 then Panic else Ok(Int(TruncDiv(a, b)))
    case (Decimal(a, sl), Decimal(b, sr)) => DivDecimals(a, sl, b, sr)
    case (Int(a), Decimal(b, sr)) => DivDecimals(a, 0, b, sr)
    case (Decimal(a, sl), Int(b)) => DivDecimals(a, sl, b, 0)
    case _ => Err
  }

  function MathFields(op: MathOp, x: Field, y: Field): Outcome<Field> {
    match op
    case Add => AddFields(x, y)
    case Sub => SubFields(x, y)
    case Mul => MulFields(x, y)
    case Div => DivFields(x, y)
  }

  // ----- the derived order: by variant, then by contents -----

  function StringLess(a: string, b: string): bool {
    if b == [] then false
    else if a == [] then true
    else if a[0] != b[0] then a[0] < b[0]
    else StringLess(a[1..], b[1..])
  }

  function Rank(x: Field): nat {
    match x
    case Int(_) => 0
    case Str(_) => 1
    case Decimal(_, _) => 2
    case Date(_) => 3
    case Bool(_) => 4
    case Null => 5
  }

  /** Decimals compare by unscaled value first, whatever their scales. */
  function FieldLess(x: Field, y: Field): bool {
    match (x, y)
    case (Int(a), Int(b)) => a < b
    case (Str(a), Str(b)) => StringLess(a, b)
    case (Decimal(a, s), Decimal(b, t)) => a < b || (a == b && s < t)
    case (Date(a), Date(b)) => a < b
    case (Bool(a), Bool(b)) => !a && b
    case _ => Rank(x) < Rank(y)
  }

  lemma {:induction false} StringLessTotal(a: string, b: string)
    ensures StringLess(a, b) || a == b || StringLess(b, a)
    ensures !(StringLess(a, b) && StringLess(b, a)) && (a == b ==> !StringLess(a, b))
  {
    if a != [] && b != [] && a[0] == b[0] {
      StringLessTotal(a[1..], b[1..]);
      assert a == [a[0]] + a[1..] && b == [b[0]] + b[1..];
    }
  }

  lemma {:induction false} StringLessTransitive(a: string, b: string, c: string)
    requires StringLess(a, b) && StringLess(b, c)
    ensures StringLess(a, c)
  {
    if a != [] && a[0] == b[0] == c[0] {
      StringLessTransitive(a[1..], b[1..], c[1..]);
    }
  }

  /** The order on fields is a strict total order. */
  lemma FieldLessTotal(x: Field, y: Field)
    ensures FieldLess(x, y) || x == y || FieldLess(y, x)
    ensures !(FieldLess(x, y) && FieldLess(y, x)) && !FieldLess(x, x)
  {
    if x.Str? && y.Str? {
      StringLessTotal(x.s, y.s);
    }
    if x.Str? {
      StringLessTotal(x.s, x.s);
    }
  }

  lemma FieldLessTransitive(x: Field, y: Field, z: Field)
    requires FieldLess(x, y) && FieldLess(y, z)
    ensures FieldLess(x, z)
  {
    if x.Str? && y.Str? && z.Str? {
      StringLessTransitive(x.s, y.s, z.s);
    }
  }

  /** `a` and `b` agree on `k` characters, after which `a` ends or has the smaller character. */
  predicate Before(a: string, b: string, k: nat) {
    k <= |a| && k < |b| && a[..k] == b[..k] && (k == |a| || a[k] < b[k])
  }

  /** The first difference decides, and a proper prefix comes first. */
  lemma {:induction false} StringLessExact(a: string, b: string)
    ensures StringLess(a, b) <==> exists k: nat :: Before(a, b, k)
  {
    if a == [] || b == [] || a[0] != b[0] {
      assert StringLess(a, b) ==> Before(a, b, 0);
    } else {
      StringLessExact(a[1..], b[1..]);
      forall k: nat ensures Before(a[1..], b[1..], k) <==> Before(a, b, k + 1) {
        BeforeCons(a, b, k);
      }
      assert !Before(a, b, 0);
      if k: nat :| Before(a, b, k) {
        assert Before(a[1..], b[1..], k - 1);
      }
    }
  }

  lemma BeforeCons(a: string, b: string, k: nat)
    requires a != [] && b != [] && a[0] == b[0]
    ensures Before(a[1..], b[1..], k) <==> Before(a, b, k + 1)
  {
    if k < |a| && k < |b| {
      assert a[..k + 1] == [a[0]] + a[1..][..k] && b[..k + 1] == [b[0]] + b[1..][..k];
    }
  }

  /** Fields of one variant compare by their contents, integers and decimals by value and then scale. */
  lemma FieldLessWithin(x: Field, y: Field)
    ensures x.Int? && y.Int? ==> (FieldLess(x, y) <==> x.i < y.i)
    ensures x.Str? && y.Str? ==> (FieldLess(x, y) <==> exists k: nat :: Before(x.s, y.s, k))
    ensures x.Decimal? && y.Decimal? && x.scale == y.scale ==> (FieldLess(x, y) <==> x.whole < y.whole)
    ensures x.Decimal? && y.Decimal? && x.whole == y.whole ==> (FieldLess(x, y) <==> x.scale < y.scale)
    ensures x.Decimal? && y.Decimal? && x.whole < y.whole ==> FieldLess(x, y)
    ensures x.Date? && y.Date? ==> (FieldLess(x, y) <==> x.days < y.days)
    ensures x.Bool? && y.Bool? ==> (FieldLess(x, y) <==> x == Bool(false) && y == Bool(true))
  {
    if x.Str? && y.Str? {
      StringLessExact(x.s, y.s);
    }
  }

  /** Variants come in the order of their declaration. */
  lemma FieldLessAcross(x: Field, y: Field)
    ensures x.Int? && !y.Int? ==> FieldLess(x, y)
    ensures x.Str? && !y.Int? && !y.Str? ==> FieldLess(x, y)
    ensures x.Decimal? && (y.Date? || y.Bool? || y.Null?) ==> FieldLess(x, y)
    ensures x.Date? && (y.Bool? || y.Null?) ==> FieldLess(x, y)
    ensures x.Bool? && y.Null? ==> FieldLess(x, y)
  {
  }

  // ----- tuples and rows -----

  /** One left row against all right rows. */
  function PairRows<T>(l: seq<T>, rs: seq<seq<T>>): (r: seq<seq<T>>)
    ensures |r| == |rs| && forall i :: 0 <= i < |r| ==> r[i] == l + rs[i]
  {
    seq(|rs|, i requires 0 <= i < |rs| => l + rs[i])
  }
}
