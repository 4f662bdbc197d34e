/** Parsing decimal texts as people write them: a sign, digits, and a fraction of
    any length or none. */
module DecimalTexts {
  import opened Options
  import opened Fields
  import opened Arithmetic
  import opened Decimals

  predicate IsSign(sign: string) { sign == "" || sign == "+" || sign == "-" }

  predicate IsDigits(t: string) { t != [] && AllDigits(t) }

  /** The number with that sign. */
  function Signed(sign: string, n: int): int { if sign == "-" then -n else n }

  /** The integer part has too many digits.  The one magnitude without a positive counterpart slips through the
      check. */
  predicate TooLong(sign: string, a: string, p: nat, s: nat)
    requires AllDigits(a) && s <= p
  {
    Value(a) >= Pow10(p - s) && !(sign == "-" && Value(a) == TWO63)
  }

  /** What a text with integer part `a` and scaled fraction `u` is read as: the sign is that of the integer part, and
      so is lost when that is zero. */
  function Reading(sign: string, a: string, u: int, s: nat): Field
    requires AllDigits(a)
  {
    var n := Value(a) * Pow10(s) + u;
    Decimal(Wrap(if Value(a) == 0 then n else Signed(sign, n)), s)
  }

  // ----- the parts -----

  lemma SignedReads(sign: string, a: string)
    requires IsSign(sign) && IsDigits(a)
    ensures NoDot(sign + a)
    ensures var x := Signed(sign, Value(a)); ParseI64(sign + a) == if InI64(x) then Some(x) else None
  {
    DigitsNoDot(a);
    if sign == "" {
      assert sign + a == a;
      ParseDigits(a);
    } else if sign == "-" {
      ParseNegative(a);
    } else {
      assert (sign + a)[1..] == a;
    }
  }

  lemma WholeReads(sign: string, a: string, p: nat, s: nat)
    requires IsSign(sign) && IsDigits(a) && s <= p && p - s <= 18
    ensures ParseWhole(sign + a, p, s) == if TooLong(sign, a, p, s) then Err else Ok(Signed(sign, Value(a)))
  {
    SignedReads(sign, a);
    WholeValue(sign + a, Signed(sign, Value(a)), p, s);
    assert 1 <= Pow10(p - s) <= 1_000_000_000_000_000_000 by {
      PowFits(p - s);
    }
    SignedLimit(sign, Value(a), Pow10(p - s));
  }

  lemma SignedLimit(sign: string, v: int, limit: int)
    requires 0 <= v && 1 <= limit <= 1_000_000_000_000_000_000
    ensures var x := Signed(sign, v);
      (!InI64(x) || (Abs(x) >= limit && x != -TWO63)) <==> v >= limit && !(sign == "-" && v == TWO63)
  {
  }

  lemma WholeValue(t: string, x: int, p: nat, s: nat)
    requires s <= p && p - s <= 18 && ParseI64(t) == if InI64(x) then Some(x) else None
    ensures ParseWhole(t, p, s)
         == if !InI64(x) || (Abs(x) >= Pow10(p - s) && x != -TWO63) then Err else Ok(x)
  {
    PowFits(p - s);
    assert (p - s) % TWO32 == p - s;
    if InI64(x) {
      WrapAbs(x);
    }
  }

  lemma WrapAbs(x: int)
    requires InI64(x)
    ensures Wrap(Abs(x)) == if x == -TWO63 then -TWO63 else Abs(x)
  {
  }

  /** A fraction of at most `s` digits is brought to the scale. */
  lemma ShortFraction(b: string, s: nat)
    requires IsDigits(b) && |b| <= s <= 18
    ensures ParseFraction(b, s) == Ok(Value(b) * Pow10(s - |b|))
  {
    var v, k := Value(b), s - |b|;
    var u := v * Pow10(k);
    ValueBound(b);
    FractionBound(v, |b|, k, s, u);
    ScaledFits(v, k, u);
    PowMonotone(|b|, s);
    PowFits(s);
    ParseDigits(b);
    FractionValue(b, v, k, u, s);
  }

  lemma FractionValue(t: string, v: int, e: nat, u: int, s: nat)
    requires ParseI64(t) == Some(v) && 0 <= v < Pow10(s) && s <= 18 && s - |t| == e && Scaled(v, e) == u
    ensures ParseFraction(t, s) == Ok(u)
  {
    PowFits(s);
    SmallRemainder(s, |t|, e);
  }

  lemma SmallRemainder(s: nat, n: nat, e: nat)
    requires s <= 18 && s - n == e
    ensures (s - n) % TWO32 == e
  {
  }

  lemma FractionBound(v: int, n: nat, k: nat, s: nat, u: int)
    requires 0 <= v < Pow10(n) && n + k == s <= 18 && u == v * Pow10(k)
    ensures 0 <= u <= Pow10(s) && InI64(u)
  {
    FractionWithin(v, n, k, s, u);
    SmallFits(u, s);
  }

  lemma FractionWithin(v: int, n: nat, k: nat, s: nat, u: int)
    requires 0 <= v < Pow10(n) && n + k == s && u == v * Pow10(k)
    ensures 0 <= u <= Pow10(s)
  {
    PowSum(n, k);
    ProductBetween(v, Pow10(n), Pow10(k), Pow10(s), u);
  }

  lemma SmallFits(u: int, s: nat)
    requires 0 <= u <= Pow10(s) && s <= 18
    ensures InI64(u)
  {
    PowFits(s);
  }

  lemma ProductBetween(v: int, y: int, x: int, z: int, u: int)
    requires 0 <= v <= y && 0 <= x && z == y * x && u == v * x
    ensures 0 <= u <= z
  {
    MulLe(v, y, x);
    MulLe(0, v, x);
  }

  lemma PowSixtyFour()
    ensures Pow10(64) % TWO64 == 0
  {
    PowEighteen();
    PowSum(18, 18);
    PowSum(36, 18);
    PowSum(54, 10);
    assert Pow10(5) == 100_000;
    PowSum(5, 5);
  }

  /** Ten to the 64th and beyond is nothing in 64 bits. */
  lemma PowVanishes(e: nat)
    requires e >= 64
    ensures PowI64(e) == 0
  {
    PowSixtyFour();
    PowSum(64, e - 64);
    var k := Pow10(64) / TWO64;
    assert Pow10(64) == 0 + k * TWO64;
    Distribute(0, k, TWO64, Pow10(e - 64));
    CongruentStep(0, k * Pow10(e - 64));
    CongruentWrap(Pow10(e), 0);
  }

  /** A longer fraction is refused by its value, and otherwise counts for nothing. */
  lemma LongFraction(b: string, s: nat)
    requires IsDigits(b) && s < |b| <= s + TWO32 - 64 && s <= 18
    ensures ParseFraction(b, s) == if Value(b) >= Pow10(s) then Err else Ok(0)
  {
    PowFits(s);
    ParseDigits(b);
    WrapAround(s, |b|);
    ScaledVanishes(Value(b), TWO32 + s - |b|);
  }

  lemma WrapAround(s: nat, n: nat)
    requires s < n <= s + TWO32
    ensures (s - n) % TWO32 == TWO32 + s - n
  {
  }

  lemma ScaledVanishes(v: int, e: nat)
    requires e >= 64
    ensures Scaled(v, e) == 0
  {
    PowVanishes(e);
  }

  lemma CombineReads(sign: string, a: string, u: int, s: nat)
    requires IsSign(sign) && IsDigits(a)
    ensures Combine(Signed(sign, Value(a)), u, s) == Reading(sign, a, u, s)
  {
    var n := Value(a);
    var i := Signed(sign, n);
    ScaledCongruent(i, s);
    CongruentWrap(u, 0);
    if i < 0 {
      WrapDifference(Scaled(i, s), i * Pow10(s), u, u);
      NegateProduct(n, Pow10(s));
    } else {
      WrapSum(Scaled(i, s), i * Pow10(s), u, u);
    }
  }

  // ----- whole texts -----

  /** Digits, a point and at most `s` digits: the number that all digits together stand for, at scale `s`, unless the
      integer part is too long. */
  lemma ParsePoint(sign: string, a: string, b: string, p: nat, s: nat)
    requires IsSign(sign) && IsDigits(a) && IsDigits(b) && |b| <= s <= 18 && s <= p && p - s <= 18
    ensures Parse(sign + a + "." + b, p, s)
         == if TooLong(sign, a, p, s) then Err else Ok(Reading(sign, a, Value(b) * Pow10(s - |b|), s))
  {
    SignedReads(sign, a);
    DigitsNoDot(b);
    SplitOnce(sign + a, b);
    WholeReads(sign, a, p, s);
    ShortFraction(b, s);
    CombineReads(sign, a, Value(b) * Pow10(s - |b|), s);
  }

  /** The same as one number: away from overflow, and unless a minus stands before a zero integer part, the text
      stands for its digits without the point, raised to the scale. */
  lemma ParseExact(sign: string, a: string, b: string, p: nat, s: nat, n: int)
    requires IsSign(sign) && IsDigits(a) && IsDigits(b) && |b| <= s <= 18 && s <= p && p - s <= 18
    requires AllDigits(a + b) && n == Value(a + b) * Pow10(s - |b|)
    requires Value(a) < Pow10(p - s) && InI64(n)
    ensures var r := Parse(sign + a + "." + b, p, s);
      && r in {Ok(Decimal(n, s)), Ok(Decimal(-n, s))}
      && (r == Ok(Decimal(Signed(sign, n), s)) <==> sign != "-" || Value(a) > 0 || n == 0)
  {
    var u := Value(b) * Pow10(s - |b|);
    assert n >= 0 && Reading(sign, a, u, s) == Decimal(if Value(a) == 0 then n else Signed(sign, n), s) by {
      DigitsTogether(a, b, s, s - |b|, n, u);
      ExactReading(sign, a, u, s, n);
    }
    ParsePoint(sign, a, b, p, s);
  }

  lemma ExactReading(sign: string, a: string, u: int, s: nat, n: int)
    requires AllDigits(a) && n == Value(a) * Pow10(s) + u && n >= 0 && InI64(n)
    ensures Reading(sign, a, u, s) == Decimal(if Value(a) == 0 then n else Signed(sign, n), s)
  {
  }

  lemma DigitsTogether(a: string, b: string, s: nat, k: nat, n: int, u: int)
    requires AllDigits(a) && AllDigits(b) && AllDigits(a + b) && s == |b| + k
    requires n == Value(a + b) * Pow10(k) && u == Value(b) * Pow10(k)
    ensures n == Value(a) * Pow10(s) + u && u >= 0 && n >= 0
  {
    ValueConcat(a, b);
    PowSum(|b|, k);
    MulAssoc(Value(a), Pow10(|b|), Pow10(k));
    Distribute(Value(a) * Pow10(|b|), Value(b), 1, Pow10(k));
    MulLe(0, Value(a + b), Pow10(k));
    MulLe(0, Value(b), Pow10(k));
  }

  /** Without a point the number is the integer part, at scale `s`. */
  lemma ParseWithoutPoint(sign: string, a: string, p: nat, s: nat)
    requires IsSign(sign) && IsDigits(a) && s <= 18 && s <= p && p - s <= 18
    ensures Parse(sign + a, p, s) == if TooLong(sign, a, p, s) then Err else Ok(Reading(sign, a, 0, s))
  {
    SignedReads(sign, a);
    SplitNoDot(sign + a);
    WholeReads(sign, a, p, s);
    CombineReads(sign, a, 0, s);
  }

  /** With more than `s` digits after the point the whole fraction is dropped, or refused when its digits read as a
      number of more than `s` digits. */
  lemma ParseLong(sign: string, a: string, b: string, p: nat, s: nat)
    requires IsSign(sign) && IsDigits(a) && IsDigits(b) && s <= 18 && s <= p && p - s <= 18
    requires s < |b| <= s + TWO32 - 64
    ensures Parse(sign + a + "." + b, p, s)
         == if TooLong(sign, a, p, s) || Value(b) >= Pow10(s) then Err else Ok(Reading(sign, a, 0, s))
  {
    SignedReads(sign, a);
    DigitsNoDot(b);
    SplitOnce(sign + a, b);
    WholeReads(sign, a, p, s);
    LongFraction(b, s);
    CombineReads(sign, a, 0, s);
  }

  /** So an accepted longer fraction is cut to the scale exactly when its first `s` digits are zeros. */
  lemma LongCutIff(a: string, b: string, p: nat, s: nat, n: int, cut: int)
    requires IsDigits(a) && IsDigits(b) && s <= 18 && s <= p && p - s <= 18 && s < |b| <= s + TWO32 - 64
    requires Value(a) < Pow10(p - s) && Value(b) < Pow10(s)
    requires AllDigits(b[..s]) && n == Value(a) * Pow10(s) && cut == Value(b[..s]) && InI64(n + cut)
    ensures Parse(a + "." + b, p, s) == Ok(Decimal(n + cut, s)) <==> cut == 0
  {
    assert n >= 0 by {
      MulLe(0, Value(a), Pow10(s));
    }
    LongCut(a, b, p, s, n);
  }

  lemma LongCut(a: string, b: string, p: nat, s: nat, n: int)
    requires IsDigits(a) && IsDigits(b) && s <= 18 && s <= p && p - s <= 18 && s < |b| <= s + TWO32 - 64
    requires Value(a) < Pow10(p - s) && Value(b) < Pow10(s) && n == Value(a) * Pow10(s) && InI64(n)
    ensures Parse(a + "." + b, p, s) == Ok(Decimal(n, s))
  {
    assert "" + a == a;
    ParseLong("", a, b, p, s);
    PlainReading(a, s, n);
  }

  lemma PlainReading(a: string, s: nat, n: int)
    requires AllDigits(a) && n == Value(a) * Pow10(s) && InI64(n)
    ensures Reading("", a, 0, s) == Decimal(n, s)
  {
  }

  /** `0.0120` at scale 3 is read as zero. */
  lemma LongFractionLost()
    ensures Parse("0.0120", 10, 3) == Ok(Decimal(0, 3))
  {
    var b := "0120";
    ZeroDigit();
    FourDigits();
    assert "" + "0" + "." + b == "0.0120";
    ParseLong("", "0", b, 10, 3);
    SignlessReading("", "0", 0, 3);
    assert Pow10(7) >= 1;
  }

  lemma FourDigits()
    ensures AllDigits("0120") && Value("0120") == 120 < Pow10(3)
  {
    ZeroDigit();
    ValueSnoc("0", '1');
    ValueSnoc("01", '2');
    ValueSnoc("012", '0');
    assert "0" + ['1'] == "01" && "01" + ['2'] == "012" && "012" + ['0'] == "0120";
    assert Pow10(3) == 1000;
  }

  /** A minus before a zero integer part is lost: `-0.5` is read as one half. */
  lemma MinusLost(b: string, p: nat, s: nat)
    requires IsDigits(b) && |b| <= s <= 18 && s <= p && p - s <= 18
    ensures Parse("-0." + b, p, s) == Parse("0." + b, p, s)
    ensures Parse("-0." + b, p, s) == Ok(Decimal(Value(b) * Pow10(s - |b|), s))
  {
    var u := Value(b) * Pow10(s - |b|);
    ValueBound(b);
    FractionBound(Value(b), |b|, s - |b|, s, u);
    ZeroWhole("-", b, p, s, u);
    ZeroWhole("", b, p, s, u);
    ZeroTexts(b);
  }

  lemma ZeroTexts(b: string)
    ensures "-" + "0" + "." + b == "-0." + b && "" + "0" + "." + b == "0." + b
  {
  }

  lemma ZeroWhole(sign: string, b: string, p: nat, s: nat, u: int)
    requires IsSign(sign) && IsDigits(b) && |b| <= s <= 18 && s <= p && p - s <= 18
    requires u == Value(b) * Pow10(s - |b|) && InI64(u)
    ensures Parse(sign + "0" + "." + b, p, s) == Ok(Decimal(u, s))
  {
    ZeroDigit();
    ParsePoint(sign, "0", b, p, s);
    assert !TooLong(sign, "0", p, s);
    SignlessReading(sign, "0", u, s);
  }

  lemma SignlessReading(sign: string, a: string, u: int, s: nat)
    requires AllDigits(a) && Value(a) == 0 && InI64(u)
    ensures Reading(sign, a, u, s) == Decimal(u, s)
  {
    assert 0 * Pow10(s) == 0;
  }

  lemma ZeroDigit()
    ensures AllDigits("0") && Value("0") == 0
  {
    assert "0"[..0] == "";
  }

  // ----- points -----

  lemma {:induction false} SplitCount(t: string)
    ensures |SplitDots(t)| == 1 + multiset(t)['.']
  {
    if t != [] {
      SplitCount(t[1..]);
      assert t == [t[0]] + t[1..];
    }
  }

  /** A text with two points is refused. */
  lemma TwoPoints(t: string, p: nat, s: nat)
    requires multiset(t)['.'] >= 2
    ensures Parse(t, p, s) == Err
  {
    SplitCount(t);
  }
}
