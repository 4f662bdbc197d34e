/** Accumulating aggregates: folding `merge_fields` over a group does not depend
    on the order of its rows. */
module Aggregation {
  import opened Fields
  import opened Arithmetic

  function MaxField(a: Field, b: Field): Field { if FieldLess(b, a) then a else b }

  function MinField(a: Field, b: Field): Field { if FieldLess(b, a) then b else a }

  /** `merge_fields`: the accumulator after one more value. */
  function Merge(op: AggOp, x: Field, acc: Field): Outcome<Field> {
    match op
    case Count => AddFields(acc, Int(1))
    case Max => Ok(MaxField(acc, x))
    case Min => Ok(MinField(acc, x))
    case Sum => AddFields(acc, x)
    case Avg => AddFields(acc, x)
  }

  /** The accumulator after a whole group; a failure ends the fold. */
  function Fold(op: AggOp, acc: Outcome<Field>, xs: seq<Field>): Outcome<Field>
    decreases |xs|
  {
    if xs == [] || !acc.Ok? then acc else Fold(op, Merge(op, xs[0], acc.value), xs[1..])
  }

  // ----- the sum of a group -----

  predicate AllNumeric(xs: seq<Field>) { forall i :: 0 <= i < |xs| ==> Numeric(xs[i]) }

  function MaxScale(s: nat, xs: seq<Field>): (r: nat)
    ensures s <= r && forall i :: 0 <= i < |xs| ==> Scale(xs[i]) <= r
    decreases |xs|
  {
    if xs == [] then s else MaxScale(MaxNat(s, Scale(xs[0])), xs[1..])
  }

  predicate AnyDecimal(xs: seq<Field>) { exists i :: 0 <= i < |xs| && xs[i].Decimal? }

  function Total(xs: seq<Field>, s: nat): int
    requires AllNumeric(xs) && forall i :: 0 <= i < |xs| ==> Scale(xs[i]) <= s
  {
    if xs == [] then 0 else Amount(xs[0], s) + Total(xs[1..], s)
  }

  /** Summing a group gives the exact total at the largest scale, reduced to 64 bits; it is a decimal
      as soon as one operand is. */
  lemma {:induction false} SumExact(op: AggOp, acc: Field, xs: seq<Field>)
    requires op.Sum? || op.Avg?
    requires Numeric(acc) && InRange(acc) && AllNumeric(xs)
    ensures var s := MaxScale(Scale(acc), xs);
            Fold(op, Ok(acc), xs)
            == Ok(MakeField(acc.Decimal? || AnyDecimal(xs), Wrap(Amount(acc, s) + Total(xs, s)), s))
    decreases |xs|
  {
    var s := MaxScale(Scale(acc), xs);
    if xs == [] {
      Unscaled(Whole(acc));
    } else {
      var x, t := xs[0], MaxNat(Scale(acc), Scale(xs[0]));
      var next := MakeField(acc.Decimal? || x.Decimal?, Wrap(Amount(acc, t) + Amount(x, t)), t);
      AddExact(acc, x, t);
      SumExact(op, next, xs[1..]);
      SumNext(acc, x, t, s, next, Total(xs[1..], s));
      AnyDecimalCons(xs);
    }
  }

  lemma AnyDecimalCons(xs: seq<Field>)
    requires xs != []
    ensures AnyDecimal(xs) <==> xs[0].Decimal? || AnyDecimal(xs[1..])
  {
    if AnyDecimal(xs[1..]) {
      var i :| 0 <= i < |xs[1..]| && xs[1..][i].Decimal?;
      assert xs[i + 1].Decimal?;
    }
    if AnyDecimal(xs) && !xs[0].Decimal? {
      var i :| 0 <= i < |xs| && xs[i].Decimal?;
      assert xs[1..][i - 1].Decimal?;
    }
  }

  /** One partial sum, seen at the final scale. */
  lemma SumNext(acc: Field, x: Field, t: nat, s: nat, next: Field, rest: int)
    requires Numeric(acc) && Numeric(x) && t == MaxNat(Scale(acc), Scale(x)) <= s
    requires next == MakeField(acc.Decimal? || x.Decimal?, Wrap(Amount(acc, t) + Amount(x, t)), t)
    ensures Wrap(Amount(next, s) + rest) == Wrap(Amount(acc, s) + (Amount(x, s) + rest))
  {
    SumStep(acc, x, t, s);
    CongruentWrap(rest, rest);
    WrapSum(Amount(next, s), Amount(acc, s) + Amount(x, s), rest, rest);
  }

  lemma SumStep(acc: Field, x: Field, t: nat, s: nat)
    requires Numeric(acc) && Numeric(x) && t == MaxNat(Scale(acc), Scale(x)) <= s
    ensures var next := MakeField(acc.Decimal? || x.Decimal?, Wrap(Amount(acc, t) + Amount(x, t)), t);
            Congruent(Amount(next, s), Amount(acc, s) + Amount(x, s))
  {
    var v, p := Amount(acc, t) + Amount(x, t), Pow10(s - t);
    CongruentWrap(v, 0);
    CongruentMul(Wrap(v), v, p);
    AmountRescaled(acc, t, s);
    AmountRescaled(x, t, s);
    Distribute(Amount(acc, t), Amount(x, t), 1, p);
  }

  /** Away from overflow the sum is exact. */
  lemma SumNoOverflow(op: AggOp, acc: Field, xs: seq<Field>)
    requires op.Sum? || op.Avg?
    requires Numeric(acc) && InRange(acc) && AllNumeric(xs)
    requires var s := MaxScale(Scale(acc), xs);
             InI64(Amount(acc, s) + Total(xs, s))
    ensures var s := MaxScale(Scale(acc), xs);
            Fold(op, Ok(acc), xs) == Ok(MakeField(acc.Decimal? || AnyDecimal(xs), Amount(acc, s) + Total(xs, s), s))
  {
    SumExact(op, acc, xs);
  }

  // ----- order does not matter -----

  function MergeTwo(op: AggOp, acc: Field, x: Field, y: Field): Outcome<Field> {
    var a := Merge(op, x, acc);
    if a.Ok? then Merge(op, y, a.value) else a
  }

  /** Two values merge in either order to the same accumulator, or to the same failure. */
  lemma MergeCommutes(op: AggOp, acc: Field, x: Field, y: Field)
    requires InRange(acc)
    ensures MergeTwo(op, acc, x, y) == MergeTwo(op, acc, y, x)
  {
    if op == Count {
      CountCommutes(acc, x, y);
    } else if op == Max {
      MaxCommutes(acc, x, y);
    } else if op == Min {
      MinCommutes(acc, x, y);
    } else {
      SumCommutes(op, acc, x, y);
    }
  }

  lemma CountCommutes(acc: Field, x: Field, y: Field)
    ensures MergeTwo(Count, acc, x, y) == MergeTwo(Count, acc, y, x)
  {
  }

  lemma SumCommutes(op: AggOp, acc: Field, x: Field, y: Field)
    requires op.Sum? || op.Avg?
    ensures MergeTwo(op, acc, x, y) == MergeTwo(op, acc, y, x)
  {
    if Numeric(acc) && Numeric(x) && Numeric(y) {
      var s := MaxNat(MaxNat(Scale(acc), Scale(x)), Scale(y));
      AddTwoExact(op, acc, x, y, s);
      AddTwoExact(op, acc, y, x, s);
    } else {
      AddTwoPanics(op, acc, x, y);
      AddTwoPanics(op, acc, y, x);
    }
  }

  lemma AddTwoPanics(op: AggOp, acc: Field, x: Field, y: Field)
    requires (op.Sum? || op.Avg?) && !(Numeric(acc) && Numeric(x) && Numeric(y))
    ensures MergeTwo(op, acc, x, y) == Panic
  {
  }

  lemma AddTwoExact(op: AggOp, acc: Field, x: Field, y: Field, s: nat)
    requires (op.Sum? || op.Avg?) && Numeric(acc) && Numeric(x) && Numeric(y)
    requires s == MaxNat(MaxNat(Scale(acc), Scale(x)), Scale(y))
    ensures MergeTwo(op, acc, x, y)
         == Ok(MakeField(acc.Decimal? || x.Decimal? || y.Decimal?,
                         Wrap(Amount(acc, s) + Amount(x, s) + Amount(y, s)), s))
  {
    var t := MaxNat(Scale(acc), Scale(x));
    var next := MakeField(acc.Decimal? || x.Decimal?, Wrap(Amount(acc, t) + Amount(x, t)), t);
    AddExact(acc, x, t);
    AddExact(next, y, s);
    SumStep(acc, x, t, s);
    WrapSum(Amount(next, s), Amount(acc, s) + Amount(x, s), Amount(y, s), Amount(y, s));
  }

  lemma MaxCommutes(acc: Field, x: Field, y: Field)
    ensures MergeTwo(Max, acc, x, y) == MergeTwo(Max, acc, y, x)
  {
    OrderFacts(acc, x, y);
  }

  lemma MinCommutes(acc: Field, x: Field, y: Field)
    ensures MergeTwo(Min, acc, x, y) == MergeTwo(Min, acc, y, x)
  {
    OrderFacts(acc, x, y);
  }

  lemma OrderFacts(a: Field, b: Field, c: Field)
    ensures FieldLess(a, b) || a == b || FieldLess(b, a)
    ensures FieldLess(a, c) || a == c || FieldLess(c, a)
    ensures FieldLess(b, c) || b == c || FieldLess(c, b)
    ensures !(FieldLess(a, b) && FieldLess(b, a)) && !(FieldLess(a, c) && FieldLess(c, a))
    ensures !(FieldLess(b, c) && FieldLess(c, b)) && !FieldLess(a, a) && !FieldLess(b, b) && !FieldLess(c, c)
    ensures FieldLess(a, b) && FieldLess(b, c) ==> FieldLess(a, c)
    ensures FieldLess(a, c) && FieldLess(c, b) ==> FieldLess(a, b)
    ensures FieldLess(b, a) && FieldLess(a, c) ==> FieldLess(b, c)
    ensures FieldLess(b, c) && FieldLess(c, a) ==> FieldLess(b, a)
    ensures FieldLess(c, a) && FieldLess(a, b) ==> FieldLess(c, b)
    ensures FieldLess(c, b) && FieldLess(b, a) ==> FieldLess(c, a)
  {
    FieldLessTotal(a, b);
    FieldLessTotal(a, c);
    FieldLessTotal(b, c);
    FieldLessTotal(c, c);
    if FieldLess(a, b) && FieldLess(b, c) { FieldLessTransitive(a, b, c); }
    if FieldLess(a, c) && FieldLess(c, b) { FieldLessTransitive(a, c, b); }
    if FieldLess(b, a) && FieldLess(a, c) { FieldLessTransitive(b, a, c); }
    if FieldLess(b, c) && FieldLess(c, a) { FieldLessTransitive(b, c, a); }
    if FieldLess(c, a) && FieldLess(a, b) { FieldLessTransitive(c, a, b); }
    if FieldLess(c, b) && FieldLess(b, a) { FieldLessTransitive(c, b, a); }
  }

  predicate AllInRange(xs: seq<Field>) { forall i :: 0 <= i < |xs| ==> InRange(xs[i]) }

  /** Merging keeps the accumulator in range. */
  lemma MergeInRange(op: AggOp, x: Field, acc: Field)
    requires InRange(x) && InRange(acc)
    ensures Merge(op, x, acc).Ok? ==> InRange(Merge(op, x, acc).value)
  {
  }

  lemma FoldCons(op: AggOp, acc: Outcome<Field>, x: Field, rest: seq<Field>)
    ensures Fold(op, acc, [x] + rest) == if acc.Ok? then Fold(op, Merge(op, x, acc.value), rest) else acc
    ensures !acc.Ok? ==> Fold(op, acc, rest) == acc
  {
    assert ([x] + rest)[1..] == rest;
  }

  lemma FoldSwap(op: AggOp, acc: Outcome<Field>, x: Field, y: Field, rest: seq<Field>)
    requires acc.Ok? ==> InRange(acc.value)
    ensures Fold(op, acc, [x] + ([y] + rest)) == Fold(op, acc, [y] + ([x] + rest))
  {
    FoldTwo(op, acc, x, y, rest);
    FoldTwo(op, acc, y, x, rest);
    if acc.Ok? {
      MergeCommutes(op, acc.value, x, y);
    }
  }

  lemma FoldTwo(op: AggOp, acc: Outcome<Field>, x: Field, y: Field, rest: seq<Field>)
    ensures Fold(op, acc, [x] + ([y] + rest))
         == if acc.Ok? then Fold(op, MergeTwo(op, acc.value, x, y), rest) else acc
  {
    FoldCons(op, acc, x, [y] + rest);
    if acc.Ok? {
      FoldCons(op, Merge(op, x, acc.value), y, rest);
      FoldCons(op, Merge(op, x, acc.value), x, rest);
    }
  }

  lemma {:induction false} FoldToFront(op: AggOp, acc: Outcome<Field>, pre: seq<Field>, x: Field, post: seq<Field>)
    requires acc.Ok? ==> InRange(acc.value)
    requires AllInRange(pre)
    ensures Fold(op, acc, pre + [x] + post) == Fold(op, acc, [x] + (pre + post))
    decreases |pre|
  {
    if pre == [] {
      assert pre + [x] + post == [x] + (pre + post);
    } else {
      var p, rest := pre[0], pre[1..];
      assert pre + [x] + post == [p] + (rest + [x] + post);
      FoldCons(op, acc, p, rest + [x] + post);
      FoldCons(op, acc, p, [x] + (rest + post));
      if acc.Ok? {
        MergeInRange(op, p, acc.value);
        FoldToFront(op, Merge(op, p, acc.value), rest, x, post);
      }
      FoldSwap(op, acc, p, x, rest + post);
      assert [p] + (rest + post) == pre + post;
    }
  }

  /** Folding a group gives the same accumulator, or the same failure, in every order of its rows. */
  lemma {:induction false} FoldPermutation(op: AggOp, acc: Outcome<Field>, xs: seq<Field>, ys: seq<Field>)
    requires multiset(xs) == multiset(ys) && AllInRange(xs) && (acc.Ok? ==> InRange(acc.value))
    ensures Fold(op, acc, xs) == Fold(op, acc, ys)
    decreases |ys|
  {
    if ys == [] {
      assert |multiset(xs)| == |xs|;
      assert xs == [];
    } else {
      var y, rest := ys[0], ys[1..];
      assert ys == [y] + rest;
      var pre, post := Extract(xs, ys);
      FoldToFront(op, acc, pre, y, post);
      FoldCons(op, acc, y, pre + post);
      FoldCons(op, acc, y, rest);
      if acc.Ok? {
        MergeInRange(op, y, acc.value);
        FoldPermutation(op, Merge(op, y, acc.value), pre + post, rest);
      }
    }
  }

  /** Takes the first element of `ys` out of `xs`. */
  lemma Extract(xs: seq<Field>, ys: seq<Field>) returns (pre: seq<Field>, post: seq<Field>)
    requires multiset(xs) == multiset(ys) && ys != [] && AllInRange(xs)
    ensures xs == pre + [ys[0]] + post && multiset(pre + post) == multiset(ys[1..])
    ensures AllInRange(pre) && AllInRange(pre + post) && InRange(ys[0])
  {
    assert ys[0] in multiset(ys);
    var i :| 0 <= i < |xs| && xs[i] == ys[0];
    pre, post := xs[..i], xs[i + 1..];
    assert xs == pre + [ys[0]] + post;
    assert ys == [ys[0]] + ys[1..];
    assert multiset(xs) == multiset(pre + post) + multiset{ys[0]};
    assert multiset(ys) == multiset(ys[1..]) + multiset{ys[0]};
    SameRemainder(multiset(pre + post), multiset(ys[1..]), ys[0]);
  }

  lemma SameRemainder(a: multiset<Field>, b: multiset<Field>, y: Field)
    requires a + multiset{y} == b + multiset{y}
    ensures a == b
  {
    assert a == (a + multiset{y}) - multiset{y};
    assert b == (b + multiset{y}) - multiset{y};
  }

  /** The maximum of a group: an element of it or the start value, and no smaller than any. */
  lemma {:induction false} MaxOfGroup(acc: Field, xs: seq<Field>)
    ensures var r := Fold(Max, Ok(acc), xs);
            && r.Ok? && (r.value == acc || r.value in xs)
            && !FieldLess(r.value, acc) && (forall i :: 0 <= i < |xs| ==> !FieldLess(r.value, xs[i]))
    decreases |xs|
  {
    FieldLessTotal(acc, acc);
    if xs != [] {
      var next := MaxField(acc, xs[0]);
      MaxOfGroup(next, xs[1..]);
      var r := Fold(Max, Ok(acc), xs).value;
      OrderFacts(acc, xs[0], r);
      forall i | 0 <= i < |xs| ensures !FieldLess(r, xs[i]) {
        assert i > 0 ==> xs[i] == xs[1..][i - 1];
      }
    }
  }

  /** The minimum, likewise. */
  lemma {:induction false} MinOfGroup(acc: Field, xs: seq<Field>)
    ensures var r := Fold(Min, Ok(acc), xs);
            && r.Ok? && (r.value == acc || r.value in xs)
            && !FieldLess(acc, r.value) && (forall i :: 0 <= i < |xs| ==> !FieldLess(xs[i], r.value))
    decreases |xs|
  {
    FieldLessTotal(acc, acc);
    if xs != [] {
      var next := MinField(acc, xs[0]);
      MinOfGroup(next, xs[1..]);
      var r := Fold(Min, Ok(acc), xs).value;
      OrderFacts(acc, xs[0], r);
      forall i | 0 <= i < |xs| ensures !FieldLess(xs[i], r) {
        assert i > 0 ==> xs[i] == xs[1..][i - 1];
      }
    }
  }

  /** The count of a group starting from an integer. */
  lemma {:induction false} CountOfGroup(n: int, xs: seq<Field>)
    requires InI64(n)
    ensures Fold(Count, Ok(Int(n)), xs) == Ok(Int(Wrap(n + |xs|)))
    decreases |xs|
  {
    if xs != [] {
      CountOfGroup(Wrap(n + 1), xs[1..]);
      CongruentWrap(n + 1, 0);
      WrapSum(Wrap(n + 1), n + 1, |xs| - 1, |xs| - 1);
    }
  }
}
