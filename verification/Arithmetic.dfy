/** What 64-bit arithmetic on integers and decimals computes: exact results up to
    wrap, rounded quotients, and the failures. */
module Arithmetic {
  import opened Fields

  // ----- modular arithmetic -----

  predicate Congruent(x: int, y: int) { (x - y) % TWO64 == 0 }

  lemma CongruentWrap(x: int, y: int)
    ensures Congruent(x, y) <==> Wrap(x) == Wrap(y)
    ensures Congruent(Wrap(x), x)
  {
  }

  lemma CongruentStep(x: int, k: int)
    ensures Congruent(x + k * TWO64, x)
  {
    assert (k * TWO64) % TWO64 == 0;
  }

  lemma CongruentAdd(a: int, b: int, c: int, d: int)
    requires Congruent(a, b) && Congruent(c, d)
    ensures Congruent(a + c, b + d)
  {
    var j, k := (a - b) / TWO64, (c - d) / TWO64;
    assert a + c == (b + d) + (j + k) * TWO64;
    CongruentStep(b + d, j + k);
  }

  lemma CongruentMul(a: int, b: int, c: int)
    requires Congruent(a, b)
    ensures Congruent(a * c, b * c) && Congruent(c * a, c * b)
  {
    var k := (a - b) / TWO64;
    assert a == b + k * TWO64;
    Distribute(b, k, TWO64, c);
    CongruentStep(b * c, k * c);
  }

  lemma Distribute(b: int, k: int, m: int, c: int)
    ensures (b + k * m) * c == b * c + (k * c) * m
    ensures c * (b + k * m) == c * b + (k * c) * m
  {
  }

  lemma CongruentTrans(a: int, b: int, c: int)
    requires Congruent(a, b) && Congruent(b, c)
    ensures Congruent(a, c)
  {
  }

  // ----- exact amounts -----

  predicate Numeric(f: Field) { f.Int? || f.Decimal? }

  function Scale(f: Field): nat { if f.Decimal? then f.scale else 0 }

  function Whole(f: Field): int
    requires Numeric(f)
  {
    if f.Decimal? then f.whole else f.i
  }

  /** The value of `f` in units of 10 to the minus `s`. */
  function Amount(f: Field, s: nat): int
    requires Numeric(f) && Scale(f) <= s
  {
    Whole(f) * Pow10(s - Scale(f))
  }

  /** Numbers are in range, as the field types demand. */
  predicate InRange(f: Field) { Numeric(f) ==> InI64(Whole(f)) }

  /** A field of that kind, value and scale. */
  function MakeField(decimal: bool, w: int, s: nat): Field {
    if decimal then Decimal(w, s) else Int(w)
  }

  lemma ScaledCongruent(a: int, e: nat)
    ensures Congruent(Scaled(a, e), a * Pow10(e))
  {
    CongruentWrap(Pow10(e), Pow10(e));
    CongruentMul(PowI64(e), Pow10(e), a);
    CongruentWrap(a * PowI64(e), 0);
    CongruentTrans(Scaled(a, e), a * PowI64(e), a * Pow10(e));
  }

  lemma WrapSum(p: int, x: int, q: int, y: int)
    requires Congruent(p, x) && Congruent(q, y)
    ensures Wrap(p + q) == Wrap(x + y)
  {
    CongruentAdd(p, x, q, y);
    CongruentWrap(p + q, x + y);
  }

  lemma WrapDifference(p: int, x: int, q: int, y: int)
    requires Congruent(p, x) && Congruent(q, y)
    ensures Wrap(p - q) == Wrap(x - y)
  {
    CongruentMul(q, y, -1);
    WrapSum(p, x, -q, -y);
  }

  lemma Unscaled(a: int)
    ensures a * Pow10(0) == a && Congruent(a, a)
  {
  }

  /** Addition aligns both operands to the larger scale and adds the exact amounts, up to 64-bit wrap. */
  lemma AddExact(x: Field, y: Field, s: nat)
    requires Numeric(x) && Numeric(y) && s == MaxNat(Scale(x), Scale(y))
    ensures AddFields(x, y) == Ok(MakeField(x.Decimal? || y.Decimal?, Wrap(Amount(x, s) + Amount(y, s)), s))
  {
    if x.Decimal? && y.Decimal? {
      AddTwoDecimals(x, y, s);
    } else if x.Decimal? || y.Decimal? {
      AddOneDecimal(x, y, s);
    } else {
      Unscaled(x.i);
      Unscaled(y.i);
    }
  }

  lemma AddTwoDecimals(x: Field, y: Field, s: nat)
    requires x.Decimal? && y.Decimal? && s == MaxNat(x.scale, y.scale)
    ensures AddFields(x, y) == Ok(Decimal(Wrap(Amount(x, s) + Amount(y, s)), s))
  {
    var d, e := s - x.scale, s - y.scale;
    assert AddFields(x, y) == Ok(Decimal(Wrap(Scaled(x.whole, d) + Scaled(y.whole, e)), s));
    assert Amount(x, s) == x.whole * Pow10(d) && Amount(y, s) == y.whole * Pow10(e);
    AddAligned(x.whole, d, y.whole, e);
  }

  lemma AddOneDecimal(x: Field, y: Field, s: nat)
    requires Numeric(x) && Numeric(y) && s == MaxNat(Scale(x), Scale(y)) && x.Decimal? != y.Decimal?
    ensures AddFields(x, y) == Ok(Decimal(Wrap(Amount(x, s) + Amount(y, s)), s))
  {
    if x.Decimal? {
      Unscaled(x.whole);
      AddScaled(x.whole, y.i, s);
    } else {
      Unscaled(y.whole);
      AddScaled(y.whole, x.i, s);
    }
  }

  lemma AddScaled(a: int, b: int, s: nat)
    ensures Wrap(a + Scaled(b, s)) == Wrap(a + b * Pow10(s)) && Wrap(Scaled(b, s) + a) == Wrap(b * Pow10(s) + a)
  {
    Unscaled(a);
    ScaledCongruent(b, s);
    WrapSum(a, a, Scaled(b, s), b * Pow10(s));
  }

  lemma AddAligned(a: int, d: nat, b: int, e: nat)
    ensures Wrap(Scaled(a, d) + Scaled(b, e)) == Wrap(a * Pow10(d) + b * Pow10(e))
  {
    ScaledCongruent(a, d);
    ScaledCongruent(b, e);
    WrapSum(Scaled(a, d), a * Pow10(d), Scaled(b, e), b * Pow10(e));
  }

  /** Raising an amount to a larger scale. */
  lemma AmountRescaled(f: Field, s: nat, t: nat)
    requires Numeric(f) && Scale(f) <= s <= t
    ensures Amount(f, t) == Amount(f, s) * Pow10(t - s)
  {
    PowSum(s - Scale(f), t - s);
    MulAssoc(Whole(f), Pow10(s - Scale(f)), Pow10(t - s));
  }

  // ----- subtraction -----

  /** Subtraction aligns both operands to the larger scale and subtracts the exact amounts, up to 64-bit wrap. */
  lemma SubExact(x: Field, y: Field, s: nat)
    requires Numeric(x) && Numeric(y) && s == MaxNat(Scale(x), Scale(y))
    ensures SubFields(x, y) == Ok(MakeField(x.Decimal? || y.Decimal?, Wrap(Amount(x, s) - Amount(y, s)), s))
  {
    if x.Decimal? && y.Decimal? {
      SubTwoDecimals(x, y, s);
    } else if x.Decimal? || y.Decimal? {
      SubOneDecimal(x, y, s);
    } else {
      Unscaled(x.i);
      Unscaled(y.i);
    }
  }

  lemma SubTwoDecimals(x: Field, y: Field, s: nat)
    requires x.Decimal? && y.Decimal? && s == MaxNat(x.scale, y.scale)
    ensures SubFields(x, y) == Ok(Decimal(Wrap(Amount(x, s) - Amount(y, s)), s))
  {
    var d, e := s - x.scale, s - y.scale;
    assert SubFields(x, y) == Ok(Decimal(Wrap(Scaled(x.whole, d) - Scaled(y.whole, e)), s));
    assert Amount(x, s) == x.whole * Pow10(d) && Amount(y, s) == y.whole * Pow10(e);
    SubAligned(x.whole, d, y.whole, e);
  }

  lemma SubOneDecimal(x: Field, y: Field, s: nat)
    requires Numeric(x) && Numeric(y) && s == MaxNat(Scale(x), Scale(y)) && x.Decimal? != y.Decimal?
    ensures SubFields(x, y) == Ok(Decimal(Wrap(Amount(x, s) - Amount(y, s)), s))
  {
    if x.Decimal? {
      Unscaled(x.whole);
      ScaledCongruent(y.i, s);
      WrapDifference(x.whole, x.whole, Scaled(y.i, s), y.i * Pow10(s));
    } else {
      Unscaled(y.whole);
      ScaledCongruent(x.i, s);
      WrapDifference(Scaled(x.i, s), x.i * Pow10(s), y.whole, y.whole);
    }
  }

  lemma SubAligned(a: int, d: nat, b: int, e: nat)
    ensures Wrap(Scaled(a, d) - Scaled(b, e)) == Wrap(a * Pow10(d) - b * Pow10(e))
  {
    ScaledCongruent(a, d);
    ScaledCongruent(b, e);
    WrapDifference(Scaled(a, d), a * Pow10(d), Scaled(b, e), b * Pow10(e));
  }

  /** Subtraction undoes addition. */
  lemma SubUndoesAdd(x: Field, y: Field, s: nat)
    requires Numeric(x) && Numeric(y) && InRange(x) && s == MaxNat(Scale(x), Scale(y))
    ensures var sum := AddFields(x, y);
      && sum.Ok? && Numeric(sum.value)
      && SubFields(sum.value, y) == Ok(MakeField(x.Decimal? || y.Decimal?, Wrap(Amount(x, s)), s))
  {
    AddExact(x, y, s);
    var v := Amount(x, s) + Amount(y, s);
    var sum := MakeField(x.Decimal? || y.Decimal?, Wrap(v), s);
    SubExact(sum, y, s);
    Unscaled(Wrap(v));
    CongruentWrap(v, 0);
    CongruentWrap(Amount(y, s), 0);
    WrapDifference(Wrap(v), v, Amount(y, s), Amount(y, s));
  }

  // ----- multiplication -----

  /** With at most one decimal the product is exact at the decimal's scale, up to 64-bit wrap. */
  lemma MulExact(x: Field, y: Field)
    requires Numeric(x) && Numeric(y) && !(x.Decimal? && y.Decimal?)
    ensures MulFields(x, y) == Ok(MakeField(x.Decimal? || y.Decimal?, Wrap(Whole(x) * Whole(y)), Scale(x) + Scale(y)))
  {
  }

  /** Two decimals: the product at the larger scale, rounded to the nearest. */
  lemma MulRounds(a: int, s: nat, b: int, t: nat, m: nat)
    requires m == MinNat(s, t) <= 18 && InI64(a * b)
    ensures var r := MulFields(Decimal(a, s), Decimal(b, t));
      r.Ok? && r.value.Decimal? && r.value.scale == MaxNat(s, t) && Nearest(r.value.whole, a * b, Pow10(m))
  {
    PowFits(m);
    RoundDivNearest(a * b, Pow10(m));
    RoundDivSmaller(a * b, Pow10(m));
  }

  /** `q` is the integer nearest to `a / b`; a tie goes away from zero. */
  predicate Nearest(q: int, a: int, b: int) {
    2 * Abs(a - q * b) <= Abs(b) && (2 * Abs(a - q * b) == Abs(b) ==> Abs(q * b) > Abs(a))
  }

  lemma {:induction false} PowFits(e: nat)
    requires e <= 18
    ensures PowI64(e) == Pow10(e) <= 1_000_000_000_000_000_000
  {
    PowMonotone(e, 18);
    PowEighteen();
  }

  lemma {:induction false} PowMonotone(a: nat, b: nat)
    requires a <= b
    ensures Pow10(a) <= Pow10(b)
    decreases b - a
  {
    if a < b {
      PowMonotone(a + 1, b);
    }
  }

  lemma PowEighteen()
    ensures Pow10(18) == 1_000_000_000_000_000_000
  {
    assert Pow10(6) == 1_000_000 by { assert Pow10(3) == 1000; }
    PowSum(6, 6);
    PowSum(12, 6);
  }

  lemma MulLe(a: int, b: int, c: int)
    requires a <= b && 0 <= c
    ensures a * c <= b * c
  {
  }

  lemma AbsMul(a: int, b: int)
    ensures Abs(a * b) == Abs(a) * Abs(b)
  {
    assert (-a) * b == -(a * b) && a * (-b) == -(a * b) && (-a) * (-b) == a * b;
  }

  lemma RoundDivNearest(a: int, b: int)
    requires b != 0
    ensures Nearest(RoundDiv(a, b), a, b)
  {
    var n: int, d: int := Abs(a), Abs(b);
    var q := (2 * n + d) / (2 * d);
    RoundedBound(n, d, q);
    RoundedParts(n, d, q, d * q);
    SignedProduct(a, b, n, d, q);
  }

  lemma RoundedParts(n: int, d: int, q: int, m: int)
    requires n >= 0 && d >= 1 && q == (2 * n + d) / (2 * d) && m == d * q
    ensures 2 * Abs(n - m) <= d && (2 * Abs(n - m) == d ==> m > n)
  {
    var r := (2 * n + d) % (2 * d);
    assert 2 * n + d == (2 * d) * q + r;
    assert (2 * d) * q == 2 * m;
  }

  lemma SignedProduct(a: int, b: int, n: int, d: int, q: int)
    requires n == Abs(a) && d == Abs(b) && b != 0 && q >= 0
    ensures var k := if (a < 0) == (b < 0) then q else -q;
      Abs(k * b) == d * q && Abs(a - k * b) == Abs(n - d * q)
  {
    AbsMul(q, b);
    if b < 0 {
      assert q * b == -(q * d) && (-q) * b == q * d;
    } else {
      assert q * b == q * d && (-q) * b == -(q * d);
    }
  }

  /** A rounded quotient is no larger than the dividend. */
  lemma RoundDivSmaller(a: int, b: int)
    requires b != 0
    ensures Abs(RoundDiv(a, b)) <= Abs(a)
  {
    var n: int, d: int := Abs(a), Abs(b);
    var q := (2 * n + d) / (2 * d);
    RoundedBound(n, d, q);
  }

  lemma RoundedBound(n: int, d: int, q: int)
    requires n >= 0 && d >= 1 && q == (2 * n + d) / (2 * d)
    ensures 0 <= q <= n
  {
    MulLe(1, d, 2 * n);
    assert (n + 1) * (2 * d) == d * (2 * n) + 2 * d;
    if q > n {
      MulLe(n + 1, q, 2 * d);
    }
  }

  // ----- division -----

  /** Integers: the quotient rounded toward zero; the remainder is smaller than the divisor and has the sign of the
      dividend. */
  lemma DivExact(a: int, b: int)
    requires b != 0 && !(a == -TWO63 && b == -1)
    ensures var r := DivFields(Int(a), Int(b));
      r.Ok? && r.value.Int? && IsQuotient(r.value.i, a, b)
  {
    var q := Abs(a) / b;
    EuclidParts(Abs(a), b, q, b * q);
    if a < 0 {
      NegatedProduct(b, q);
    }
  }

  lemma EuclidParts(n: int, b: int, q: int, m: int)
    requires n >= 0 && b != 0 && q == n / b && m == b * q
    ensures 0 <= n - m < Abs(b) && (n == 0 ==> m == 0)
  {
    assert n == b * (n / b) + n % b;
    if n == 0 {
      assert q == 0;
    }
  }

  lemma NegatedProduct(b: int, q: int)
    ensures b * (-q) == -(b * q)
  {
  }

  predicate IsQuotient(q: int, a: int, b: int) {
    var r := a - b * q;
    Abs(r) < Abs(b) && (r > 0 ==> a > 0) && (r < 0 ==> a < 0)
  }

  /** There is only one such quotient. */
  lemma QuotientUnique(q: int, p: int, a: int, b: int)
    requires b != 0 && IsQuotient(q, a, b) && IsQuotient(p, a, b)
    ensures q == p
  {
    var r, t := a - b * q, a - b * p;
    assert b * (p - q) == r - t;
    if p != q {
      SmallMultiple(b, p - q);
      assert false;
    }
  }

  lemma SmallMultiple(b: int, k: int)
    requires b != 0 && k != 0
    ensures Abs(b * k) >= Abs(b)
  {
    AbsMul(b, k);
    MulLe(1, Abs(k), Abs(b));
  }

  /** With a decimal: the quotient at the larger scale, rounded to the nearest. */
  lemma DivRounds(x: Field, y: Field, s: nat, k: nat)
    requires Numeric(x) && Numeric(y) && (x.Decimal? || y.Decimal?) && Whole(y) != 0
    requires s == MaxNat(Scale(x), Scale(y)) && k == s - Scale(x) + Scale(y) <= 18
    requires var n := Whole(x) * Pow10(k);
             InI64(n) && !(n == -TWO63 && Whole(y) == -1)
    ensures var r := DivFields(x, y);
      && r.Ok? && r.value.Decimal? && r.value.scale == s
      && Nearest(r.value.whole, Whole(x) * Pow10(k), Whole(y))
  {
    var n, b := Whole(x) * Pow10(k), Whole(y);
    ScaledFits(Whole(x), k, n);
    QuotientFits(n, b);
    DecimalsDivide(x, y, s, k, n);
    RoundDivNearest(n, b);
  }

  lemma DecimalsDivide(x: Field, y: Field, s: nat, k: nat, n: int)
    requires Numeric(x) && Numeric(y) && (x.Decimal? || y.Decimal?) && Whole(y) != 0
    requires s == MaxNat(Scale(x), Scale(y)) && k == s - Scale(x) + Scale(y) <= 18 && Scaled(Whole(x), k) == n
    ensures DivFields(x, y) == Ok(Decimal(RoundQuotient(n, Whole(y)), s))
  {
    SmallExponent(k);
  }

  lemma SmallExponent(k: nat)
    requires k <= 18
    ensures k % TWO32 == k
  {
  }

  lemma ScaledFits(a: int, k: nat, n: int)
    requires k <= 18 && n == a * Pow10(k) && InI64(n)
    ensures Scaled(a, k) == n
  {
    PowFits(k);
  }

  lemma QuotientFits(n: int, b: int)
    requires InI64(n) && b != 0 && !(n == -TWO63 && b == -1)
    ensures RoundQuotient(n, b) == RoundDiv(n, b)
  {
    RoundDivSmaller(n, b);
    if n == -TWO63 {
      HalfOfMinimum(b);
    }
  }

  lemma HalfOfMinimum(b: int)
    requires b != 0 && b != -1
    ensures RoundDiv(-TWO63, b) < TWO63
  {
    RoundDivNearest(-TWO63, b);
    var q := RoundDiv(-TWO63, b);
    if q >= TWO63 {
      RoundDivSmaller(-TWO63, b);
    }
  }

  // ----- the order of decimals -----

  /** Decimals of one scale are ordered by amount. */
  lemma SameScaleOrder(x: Field, y: Field)
    requires x.Decimal? && y.Decimal? && x.scale == y.scale
    ensures FieldLess(x, y) <==> Amount(x, x.scale) < Amount(y, y.scale)
  {
    Unscaled(x.whole);
    Unscaled(y.whole);
  }

  /** Decimals of different scales are not: 2 comes before 1.5, whose unscaled value is 15. */
  lemma ScalesMislead()
    ensures FieldLess(Decimal(2, 0), Decimal(15, 1)) && Amount(Decimal(2, 0), 1) > Amount(Decimal(15, 1), 1)
  {
    Unscaled(15);
  }

  ghost predicate OrderedByAmount(x: Field, y: Field)
    requires x.Decimal? && y.Decimal?
  {
    var s := MaxNat(x.scale, y.scale);
    FieldLess(x, y) <==> Amount(x, s) < Amount(y, s)
  }

  /** Between two scales the order is that of the amounts exactly when the scales are the same. */
  lemma OrderedIffSameScale(s: nat, t: nat)
    ensures (forall a, b :: OrderedByAmount(Decimal(a, s), Decimal(b, t))) <==> s == t
  {
    if s == t {
      forall a, b ensures OrderedByAmount(Decimal(a, s), Decimal(b, t)) {
        SameScaleOrder(Decimal(a, s), Decimal(b, t));
      }
    } else {
      var m := MaxNat(s, t);
      OneScaled(m - s);
      OneScaled(m - t);
      assert !OrderedByAmount(Decimal(1, s), Decimal(1, t));
    }
  }

  lemma OneScaled(k: nat)
    ensures 1 * Pow10(k) == Pow10(k) >= 1 && (k > 0 ==> Pow10(k) > 1)
  {
  }

  // ----- failures -----

  /** The only overflow that is caught: the quotient 2 to the 63. */
  predicate DivOverflows(x: Field, y: Field) { x == Int(-TWO63) && y == Int(-1) }

  /** Arithmetic succeeds exactly on two numbers, with a divisor that is not zero and no overflowing quotient;
      otherwise adding panics, and everything else is an error but that quotient. */
  lemma MathSucceeds(op: MathOp, x: Field, y: Field)
    ensures MathFields(op, x, y).Ok?
       <==> Numeric(x) && Numeric(y) && !(op.Div? && (Whole(y) == 0 || DivOverflows(x, y)))
    ensures MathFields(op, x, y).Panic? <==> (op.Add? && !(Numeric(x) && Numeric(y))) || (op.Div? && DivOverflows(x, y))
  {
  }
}
