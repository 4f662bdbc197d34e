/** Decimal text: printing a scaled integer, parsing it back, and exactly when
    the two are inverse. */
module Decimals {
  import opened Options
  import opened Fields
  import opened Arithmetic

  // ----- digits -----

  predicate IsDigit(c: char) { '0' <= c <= '9' }

  function Digit(c: char): nat
    requires IsDigit(c)
  {
    c as int - '0' as int
  }

  function DigitChar(n: nat): (c: char)
    requires n < 10
    ensures IsDigit(c) && Digit(c) == n
  {
    '0' + n as char
  }

  predicate AllDigits(t: string) { forall i :: 0 <= i < |t| ==> IsDigit(t[i]) }

  function ToDigits(n: nat): (t: string)
    ensures t != [] && AllDigits(t)
  {
    if n < 10 then [DigitChar(n)] else ToDigits(n / 10) + [DigitChar(n % 10)]
  }

  /** `i64::to_string`. */
  function ToText(w: int): string {
    if w < 0 then "-" + ToDigits(-w) else ToDigits(w)
  }

  function Value(t: string): nat
    requires AllDigits(t)
  {
    if t == [] then 0 else 10 * Value(t[..|t| - 1]) + Digit(t[|t| - 1])
  }

  /** `str::parse::<i64>`: an optional sign, then at least one digit, in range. */
  function ParseI64(t: string): Option<int> {
    var signed := t != [] && (t[0] == '-' || t[0] == '+');
    var digits := if signed then t[1..] else t;
    if digits == [] || !AllDigits(digits) then None
    else
      var v: int := Value(digits);
      var x := if signed && t[0] == '-' then -v else v;
      if InI64(x) then Some(x) else None
  }

  function ZeroText(n: nat): (t: string)
    ensures |t| == n && forall i :: 0 <= i < n ==> t[i] == '0'
  {
    seq(n, _ => '0')
  }

  // ----- printing and parsing -----

  /** The text of a decimal: pad on the left to one digit more than the scale, then insert the point. */
  function Display(w: int, scale: nat): string {
    var s := ToText(w);
    var padding := if |s| <= scale then scale + 1 - |s| else 0;
    var padded := ZeroText(padding) + s;
    var pos := |padded| - scale;
    padded[..pos] + "." + padded[pos..]
  }

  /** `split('.')`. */
  function SplitDots(t: string): (parts: seq<string>)
    ensures |parts| >= 1
  {
    if t == [] then [[]]
    else
      var rest := SplitDots(t[1..]);
      if t[0] == '.' then [[]] + rest else [[t[0]] + rest[0]] + rest[1..]
  }

  /** The integer part, checked against the precision. */
  function ParseWhole(t: string, p: nat, s: nat): Outcome<int> {
    match ParseI64(t)
    case None => Err
    case Some(integer) => if Wrap(Abs(integer)) >= PowI64((p - s) % TWO32) then Err else Ok(integer)
  }

  /** The fractional part, checked against the scale and brought to it. */
  function ParseFraction(t: string, s: nat): Outcome<int> {
    match ParseI64(t)
    case None => Err
    case Some(fractional) =>
      if fractional < 0 || fractional >= PowI64(s) then Err else Ok(Scaled(fractional, (s - |t|) % TWO32))
  }

  function Combine(integer: int, adjusted: int, s: nat): Field {
    Decimal(Wrap(if integer < 0 then Scaled(integer, s) - adjusted else Scaled(integer, s) + adjusted), s)
  }

  /** `from_str_to_decimal`. */
  function Parse(field: string, p: nat, s: nat): Outcome<Field> {
    var parts := SplitDots(field);
    if |parts| > 2 then Err
    else
      match ParseWhole(parts[0], p, s)
      case Ok(integer) =>
        if |parts| == 1 then Ok(Combine(integer, 0, s))
        else
          (match ParseFraction(parts[1], s)
           case Ok(adjusted) => Ok(Combine(integer, adjusted, s))
           case _ => Err)
      case _ => Err
  }

  // ----- facts about digits -----

  lemma {:induction false} ValueOfDigits(n: nat)
    ensures Value(ToDigits(n)) == n
  {
    if n >= 10 {
      ValueOfDigits(n / 10);
      var t := ToDigits(n);
      assert t[..|t| - 1] == ToDigits(n / 10);
    } else {
      var t := ToDigits(n);
      assert t[..|t| - 1] == [];
    }
  }

  lemma {:induction false} ValueConcat(a: string, b: string)
    requires AllDigits(a) && AllDigits(b)
    ensures AllDigits(a + b) && Value(a + b) == Value(a) * Pow10(|b|) + Value(b)
  {
    if b == [] {
      assert a + b == a;
    } else {
      var c := b[..|b| - 1];
      ValueConcat(a, c);
      ValueSnoc(a + c, b[|b| - 1]);
      assert a + b == a + c + [b[|b| - 1]];
      TimesTen(Value(a), Pow10(|c|));
    }
  }

  lemma ValueSnoc(t: string, c: char)
    requires AllDigits(t) && IsDigit(c)
    ensures AllDigits(t + [c]) && Value(t + [c]) == 10 * Value(t) + Digit(c)
  {
    assert (t + [c])[..|t + [c]| - 1] == t;
  }

  lemma TimesTen(a: nat, p: nat)
    ensures a * (10 * p) == 10 * (a * p)
  {
  }

  lemma {:induction false} ValueBound(t: string)
    requires AllDigits(t)
    ensures Value(t) < Pow10(|t|)
  {
    if t != [] {
      ValueBound(t[..|t| - 1]);
    }
  }

  lemma {:induction false} ValueOfZeros(n: nat)
    ensures AllDigits(ZeroText(n)) && Value(ZeroText(n)) == 0
  {
    if n > 0 {
      ValueOfZeros(n - 1);
      assert ZeroText(n)[..n - 1] == ZeroText(n - 1);
    }
  }

  /** A positive number has at most `s` digits exactly when it is below the power of ten. */
  lemma {:induction false} DigitCount(n: nat, s: nat)
    requires s >= 1
    ensures |ToDigits(n)| <= s <==> n < Pow10(s)
    decreases s
  {
    if s > 1 {
      if n >= 10 {
        DigitCount(n / 10, s - 1);
        assert n / 10 < Pow10(s - 1) <==> n < 10 * Pow10(s - 1);
      }
    } else {
      assert Pow10(1) == 10 * Pow10(0);
      if n >= 10 {
        assert |ToDigits(n)| == |ToDigits(n / 10)| + 1 >= 2;
      }
    }
  }

  lemma ParseDigits(t: string)
    requires t != [] && AllDigits(t)
    ensures ParseI64(t) == if InI64(Value(t)) then Some(Value(t)) else None
  {
    assert IsDigit(t[0]);
  }

  lemma ParseNegative(t: string)
    requires t != [] && AllDigits(t)
    ensures ParseI64("-" + t) == if InI64(0 - Value(t)) then Some(0 - Value(t)) else None
  {
    assert ("-" + t)[1..] == t;
  }

  predicate NoDot(t: string) { forall i :: 0 <= i < |t| ==> t[i] != '.' }

  lemma {:induction false} SplitNoDot(t: string)
    requires NoDot(t)
    ensures SplitDots(t) == [t]
  {
    if t != [] {
      SplitNoDot(t[1..]);
      assert [t[0]] + t[1..] == t;
      assert SplitDots(t[1..])[1..] == [];
    }
  }

  lemma {:induction false} SplitOnce(a: string, b: string)
    requires NoDot(a) && NoDot(b)
    ensures SplitDots(a + "." + b) == [a, b]
  {
    var t := a + "." + b;
    if a == [] {
      assert t[1..] == b;
      SplitNoDot(b);
    } else {
      assert t[1..] == a[1..] + "." + b;
      SplitOnce(a[1..], b);
      assert [a[0]] + a[1..] == a;
    }
  }

  // ----- the round trip -----

  lemma WholeRead(a: string, p: nat, s: nat)
    requires s <= p && p - s <= 18 && ParseI64(a).Some? && ParseI64(a).value > -TWO63
    ensures ParseWhole(a, p, s)
         == if Abs(ParseI64(a).value) >= Pow10(p - s) then Err else Ok(ParseI64(a).value)
  {
    PowFits(p - s);
    assert (p - s) % TWO32 == p - s;
  }

  lemma FractionRead(b: string, s: nat)
    requires s <= 18 && |b| == s && ParseI64(b).Some? && 0 <= ParseI64(b).value < Pow10(s)
    ensures ParseFraction(b, s) == Ok(ParseI64(b).value)
  {
    PowFits(s);
    assert (s - |b|) % TWO32 == 0;
    assert PowI64(0) == 1;
  }

  /** Away from overflow, the parts combine exactly; `m` is the scaled integer part. */
  lemma CombineExact(i: int, f: int, s: nat, m: int)
    requires s <= 18 && m == i * Pow10(s) && InI64(m) && InI64(if i < 0 then m - f else m + f)
    ensures Combine(i, f, s) == Decimal(if i < 0 then m - f else m + f, s)
  {
    PowFits(s);
  }

  /** Reading back an integer part and a fractional part of `s` digits; `w` is what they stand for. */
  lemma ParseParts(a: string, b: string, p: nat, s: nat, i: int, f: int, m: int, w: int, fits: bool)
    requires s <= p && s <= 18 && p - s <= 18 && |b| == s && NoDot(a) && NoDot(b)
    requires ParseI64(a) == Some(i) && ParseI64(b) == Some(f) && i > -TWO63 && 0 <= f < Pow10(s)
    requires m == i * Pow10(s) && InI64(m) && w == (if i < 0 then m - f else m + f) && InI64(w)
    requires fits == (Abs(i) < Pow10(p - s))
    ensures Parse(a + "." + b, p, s) == if fits then Ok(Decimal(w, s)) else Err
  {
    SplitOnce(a, b);
    WholeRead(a, p, s);
    FractionRead(b, s);
    CombineExact(i, f, s, m);
  }

  lemma PartsDigits(t: string, k: nat)
    requires AllDigits(t) && k <= |t|
    ensures AllDigits(t[..k]) && AllDigits(t[k..])
  {
  }

  /** Digits cut before the last `s` read as quotient and remainder. */
  lemma DigitsSplit(t: string, s: nat, a: string, b: string)
    requires AllDigits(t) && s <= |t| && a == t[..|t| - s] && b == t[|t| - s..]
    ensures AllDigits(a) && AllDigits(b)
    ensures Value(t) == Value(a) * Pow10(s) + Value(b) && Value(b) < Pow10(s)
  {
    PartsDigits(t, |t| - s);
    assert t == a + b;
    assert Value(b) < Pow10(s) by {
      ValueBound(b);
    }
    ValueConcat(a, b);
  }

  /** An integer part stays below a power exactly when the whole does. */
  lemma QuotientBound(w: int, i: int, f: int, e: nat, s: nat, m: int)
    requires m == i * Pow10(s) && w == m + f && 0 <= f < Pow10(s)
    ensures i < Pow10(e) <==> w < Pow10(e + s)
  {
    PowSum(e, s);
    if i < Pow10(e) {
      MulLe(i + 1, Pow10(e), Pow10(s));
      MulSucc(i, Pow10(s));
    } else {
      MulLe(Pow10(e), i, Pow10(s));
    }
  }

  lemma MulSucc(a: int, c: int)
    ensures (a + 1) * c == a * c + c
  {
  }

  lemma DigitsNoDot(t: string)
    requires AllDigits(t)
    ensures NoDot(t) && NoDot("-" + t)
  {
    assert forall i :: 0 <= i < |t| ==> ("-" + t)[i + 1] == t[i];
    forall i | 0 <= i < |"-" + t| ensures ("-" + t)[i] != '.' {
      if i > 0 {
        assert ("-" + t)[i] == t[i - 1];
      }
    }
  }

  /** The padded digits of a non-negative number. */
  function Padded(w: nat, s: nat): string {
    var t := ToDigits(w);
    ZeroText(if |t| <= s then s + 1 - |t| else 0) + t
  }

  lemma PaddedValue(w: nat, s: nat)
    ensures AllDigits(Padded(w, s)) && Value(Padded(w, s)) == w && |Padded(w, s)| > s
  {
    var t := ToDigits(w);
    var z := if |t| <= s then s + 1 - |t| else 0;
    ValueOfDigits(w);
    ValueOfZeros(z);
    ValueConcat(ZeroText(z), t);
    assert 0 * Pow10(|t|) == 0;
  }

  /** The whole parts of a product are no larger than the product. */
  lemma IntegerPart(w: int, i: int, f: int, s: nat, m: int)
    requires m == i * Pow10(s) && w == m + f && 0 <= f < Pow10(s) && 0 <= i
    ensures 0 <= m <= w && i <= w && (Pow10(s) <= w ==> 0 < i) && (s > 0 ==> 10 * i <= w)
  {
    MulLe(1, Pow10(s), i);
    MulLe(0, i, Pow10(s));
    if s > 0 {
      PowMonotone(1, s);
      assert Pow10(1) == 10 * Pow10(0);
      MulLe(10, Pow10(s), i);
    }
    if i <= 0 {
      MulLe(i, 0, Pow10(s));
    }
  }

  /** The text of a non-negative decimal. */
  lemma PositiveText(w: nat, s: nat) returns (a: string, b: string, i: int, f: int)
    ensures Display(w, s) == a + "." + b && NoDot(a) && NoDot(b) && |b| == s
    ensures 0 <= i && 0 <= f < Pow10(s) && w == i * Pow10(s) + f
    ensures InI64(i) ==> ParseI64(a) == Some(i)
    ensures s > 0 && InI64(f) ==> ParseI64(b) == Some(f)
  {
    var t := Padded(w, s);
    PaddedValue(w, s);
    a, b := t[..|t| - s], t[|t| - s..];
    DigitsSplit(t, s, a, b);
    i, f := Value(a), Value(b);
    TextReads(a, i);
    TextReads(b, f);
  }

  lemma TextReads(t: string, v: int)
    requires AllDigits(t) && v == Value(t)
    ensures NoDot(t) && NoDot("-" + t)
    ensures t != [] && InI64(v) ==> ParseI64(t) == Some(v)
    ensures t != [] && InI64(-v) ==> ParseI64("-" + t) == Some(-v)
  {
    DigitsNoDot(t);
    if t != [] {
      ParseDigits(t);
      ParseNegative(t);
    }
  }

  lemma PositiveParts(w: int, p: nat, s: nat, i: int, f: int, m: int)
    requires InI64(w) && s <= p && 0 <= i && 0 <= f < Pow10(s) && m == i * Pow10(s) && w == m + f
    ensures InI64(i) && InI64(f) && InI64(m)
    ensures i < Pow10(p - s) <==> w < Pow10(p)
  {
    IntegerPart(w, i, f, s, m);
    QuotientBound(w, i, f, p - s, s, m);
  }

  lemma RoundTripNonNegative(w: nat, p: nat, s: nat)
    requires InI64(w) && 0 < s <= p && s <= 18 && p - s <= 18
    ensures Parse(Display(w, s), p, s) == if w < Pow10(p) then Ok(Decimal(w, s)) else Err
  {
    var a, b, i, f := PositiveText(w, s);
    PositiveParts(w, p, s, i, f, i * Pow10(s));
    ParseParts(a, b, p, s, i, f, i * Pow10(s), w, w < Pow10(p));
  }

  lemma NegateProduct(i: int, c: int)
    ensures (-i) * c == -(i * c)
  {
  }

  /** The text of a negative decimal with a non-zero integer part: its sign stands in front of that part. */
  lemma NegativeText(w: int, s: nat) returns (a: string, b: string, i: int, f: int)
    requires w < 0 && s < |ToDigits(-w)|
    ensures Display(w, s) == a + "." + b && NoDot(a) && NoDot(b) && |b| == s
    ensures 0 <= i && 0 <= f < Pow10(s) && -w == i * Pow10(s) + f
    ensures InI64(-i) ==> ParseI64(a) == Some(-i)
    ensures s > 0 && InI64(f) ==> ParseI64(b) == Some(f)
  {
    var t := ToDigits(-w);
    ValueOfDigits(-w);
    var c;
    c, b, i, f := DigitsRead(t, s);
    DisplayNegative(w, s, t, c, b);
    a := "-" + c;
  }

  lemma DigitsRead(t: string, s: nat) returns (c: string, b: string, i: int, f: int)
    requires AllDigits(t) && s < |t|
    ensures c == t[..|t| - s] && b == t[|t| - s..] && |b| == s
    ensures NoDot("-" + c) && NoDot(b) && 0 <= i && 0 <= f < Pow10(s) && Value(t) == i * Pow10(s) + f
    ensures InI64(-i) ==> ParseI64("-" + c) == Some(-i)
    ensures s > 0 && InI64(f) ==> ParseI64(b) == Some(f)
  {
    c, b := t[..|t| - s], t[|t| - s..];
    DigitsSplit(t, s, c, b);
    i, f := Value(c), Value(b);
    TextReads(c, i);
    TextReads(b, f);
  }

  lemma NegativeParts(w: int, p: nat, s: nat, i: int, f: int, m: int)
    requires InI64(w) && 0 < s <= p && w <= -Pow10(s)
    requires 0 <= i && 0 <= f < Pow10(s) && m == i * Pow10(s) && -w == m + f
    ensures 0 < i < TWO63 && InI64(f) && InI64(-m) && (-i) * Pow10(s) == -m
    ensures i < Pow10(p - s) <==> -w < Pow10(p)
  {
    IntegerPart(-w, i, f, s, m);
    NegateProduct(i, Pow10(s));
    QuotientBound(-w, i, f, p - s, s, m);
  }

  lemma RoundTripNegative(w: int, p: nat, s: nat)
    requires InI64(w) && 0 < s <= p && s <= 18 && p - s <= 18 && w <= -Pow10(s)
    ensures Parse(Display(w, s), p, s) == if -w < Pow10(p) then Ok(Decimal(w, s)) else Err
  {
    DigitCount(-w, s);
    var a, b, i, f := NegativeText(w, s);
    NegativeParts(w, p, s, i, f, i * Pow10(s));
    ParseParts(a, b, p, s, -i, f, -(i * Pow10(s)), w, -w < Pow10(p));
  }

  lemma DisplayNegative(w: int, s: nat, t: string, a: string, b: string)
    requires w < 0 && t == ToDigits(-w) && s < |t| && a == t[..|t| - s] && b == t[|t| - s..]
    ensures Display(w, s) == "-" + a + "." + b
  {
    var x := "-" + t;
    DisplayFrom(w, s, x, |x| - s);
    SignSlices(t, |t| - s, x, |x| - s);
  }

  lemma DisplayFrom(w: int, s: nat, x: string, pos: nat)
    requires x == ToText(w) && s < |x| && pos == |x| - s
    ensures Display(w, s) == x[..pos] + "." + x[pos..]
  {
    assert ZeroText(0) + x == x;
  }

  lemma SignSlices(t: string, k: nat, x: string, pos: nat)
    requires k <= |t| && x == "-" + t && pos == k + 1
    ensures x[..pos] == "-" + t[..k] && x[pos..] == t[k..]
  {
  }

  /** Between zero and minus one the sign lands inside the digits and the text does not parse. */
  lemma RoundTripLostSign(w: int, p: nat, s: nat)
    requires 0 < s <= p && s <= 18 && p - s <= 18 && -Pow10(s) < w < 0
    ensures Parse(Display(w, s), p, s) == Err
  {
    DigitCount(-w, s);
    if |ToDigits(-w)| == s {
      LoneSign(w, p, s);
    } else {
      SignAmongZeros(w, p, s);
    }
  }

  lemma LoneSign(w: int, p: nat, s: nat)
    requires w < 0 && |ToDigits(-w)| == s
    ensures Parse(Display(w, s), p, s) == Err
  {
    var t := ToDigits(-w);
    assert ZeroText(0) + ("-" + t) == "-" + t;
    assert ("-" + t)[..1] == "-" && ("-" + t)[1..] == t;
    DigitsNoDot(t);
    SplitOnce("-", t);
    assert "-"[1..] == [];
  }

  lemma SignAmongZeros(w: int, p: nat, s: nat)
    requires w < 0 && |ToDigits(-w)| < s
    ensures Parse(Display(w, s), p, s) == Err
  {
    var t := ToDigits(-w);
    var pad := s - |t|;
    var padded, b := ZeroText(pad) + ("-" + t), ZeroText(pad - 1) + ("-" + t);
    assert padded[..1] == "0" && padded[1..] == b;
    DigitsNoDot(t);
    SplitOnce("0", b);
    SignInside(pad - 1, t, -w);
  }

  lemma SignInside(z: nat, t: string, v: nat)
    requires t == ToDigits(v) && v > 0
    ensures var b := ZeroText(z) + ("-" + t);
            ParseI64(b).None? || ParseI64(b).value < 0
  {
    var b := ZeroText(z) + ("-" + t);
    if z > 0 {
      assert b[z] == '-' && b[0] == '0';
      assert !AllDigits(b);
    } else {
      assert b == "-" + t;
      ParseNegative(t);
      ValueOfDigits(v);
    }
  }

  /** Without fractional digits the text ends in a point and does not parse. */
  lemma RoundTripNoScale(w: int, p: nat)
    ensures Parse(Display(w, 0), p, 0) == Err
  {
    var t := ToText(w);
    DigitsNoDot(ToDigits(Abs(w)));
    assert ZeroText(0) + t == t;
    assert t[..|t|] == t && t[|t|..] == [];
    assert Display(w, 0) == t + "." + [];
    SplitOnce(t, []);
    NoFraction(t + "." + [], t, p, 0);
  }

  lemma NoFraction(field: string, a: string, p: nat, s: nat)
    requires SplitDots(field) == [a, []]
    ensures Parse(field, p, s) == Err
  {
    assert ParseI64([]) == None;
    assert ParseFraction([], s) == Err;
  }

  /** Exactly when printing and parsing a decimal is the identity. */
  lemma RoundTripIff(w: int, p: nat, s: nat)
    requires InI64(w) && s <= p && s <= 18 && p - s <= 18
    ensures Parse(Display(w, s), p, s) == Ok(Decimal(w, s)) <==>
              s > 0 && Abs(w) < Pow10(p) && (w >= 0 || w <= -Pow10(s))
    ensures Parse(Display(w, s), p, s) in {Ok(Decimal(w, s)), Err}
  {
    if s == 0 {
      RoundTripNoScale(w, p);
    } else if w >= 0 {
      RoundTripNonNegative(w, p, s);
    } else if w <= -Pow10(s) {
      RoundTripNegative(w, p, s);
    } else {
      RoundTripLostSign(w, p, s);
    }
  }
}
