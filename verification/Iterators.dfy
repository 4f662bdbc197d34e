/** The pull operators: tuple iterator, filter, projection and cross join. */
module Iterators {
  import opened Options
  import opened Fields
  import opened Streams

  datatype Kind = Tuples | Filter(predicate_: Program) | Project(fields: seq<Program>) | CrossJoin

  function Reversed(ts: seq<Tuple>): (r: seq<Tuple>)
    ensures |r| == |ts| && forall i :: 0 <= i < |r| ==> r[i] == ts[|ts| - 1 - i]
  {
    seq(|ts|, i requires 0 <= i < |ts| => ts[|ts| - 1 - i])
  }

  lemma ReversedTwice(ts: seq<Tuple>)
    ensures Reversed(Reversed(ts)) == ts
  {
  }

  lemma ReversedTail(ts: seq<Tuple>)
    requires ts != []
    ensures Reversed(ts)[0] == ts[|ts| - 1] && Reversed(ts)[1..] == Reversed(ts[..|ts| - 1])
  {
  }

  /** What a call of `next` says about the stream before and after it. */
  ghost predicate Answers(r: Outcome<Option<Tuple>>, before: Stream, after: Stream) {
    match r
    case Ok(Some(t)) => before.items != [] && t == before.items[0] && after == Tail(before)
    case Ok(None) => before == Stream([], Clean) && after == before
    case Err => before == Stream([], Error)
    case Panic => before == Stream([], Crash)
  }

  lemma PairAnswer(t: Tuple, u: Tuple, a: Stream, b: Stream, c: Stream, whole: Stream, before: Stream, after: Stream)
    requires Answers(Ok(Some(u)), b, c)
    requires before == CrossRest(Some(t), a, b, whole) && after == CrossRest(Some(t), a, c, whole)
    ensures Answers(Ok(Some(t + u)), before, after)
  {
    CrossAdvance(t, a, b, whole);
  }

  /** How opening a cross join ends: it opens both inputs and pulls the first left tuple. */
  function OpeningCross(l: Finish, r: Finish, a: Stream): Finish {
    if !l.Clean? then l else if !r.Clean? then r else if a.items == [] then a.end else Clean
  }

  /** An operator with its exclusively owned children.  `opening` is how opening it ends, `all` the stream it
      delivers from the start, `rest` what it still has to deliver. */
  class OpIterator {
    const kind: Kind
    const left: OpIterator?
    const right: OpIterator?
    ghost const repr: set<object>
    ghost const all: Stream
    ghost const opening: Finish

    var tuples: seq<Tuple>
    var index: nat
    var willRewind: bool
    var current: Option<Tuple>
    var isOpen: bool
    ghost var rest: Stream
    ghost var canRewind: bool

    ghost predicate Owns(child: OpIterator?) {
      child != null && child in child.repr && child.repr <= repr && this !in child.repr
    }

    ghost predicate Valid()
      reads this, repr
      decreases repr
    {
      && this in repr && (!isOpen ==> rest == all) && (isOpen ==> opening.Clean?)
      && (kind.Tuples? ==> TuplesState())
      && (!kind.Tuples? ==> Owns(left) && left.Valid() && LeftState())
      && (kind.CrossJoin? ==> Owns(right) && right.Valid() && left.repr !! right.repr && CrossState())
    }

    ghost predicate TuplesState()
      reads this
    {
      && (willRewind ==> index <= |tuples|) && canRewind == willRewind && (!isOpen ==> index == |tuples|)
      && rest == Stream(Reversed(if willRewind then tuples[..index] else tuples), Clean)
      && (willRewind ==> all == Stream(Reversed(tuples), Clean)) && opening.Clean?
    }

    ghost predicate LeftState()
      requires left != null
      reads this, left
    {
      && left.isOpen == isOpen && canRewind == left.canRewind
      && (kind.Filter? ==> opening == left.opening && all == FilterStream(kind.predicate_, left.all)
                           && rest == FilterStream(kind.predicate_, left.rest))
      && (kind.Project? ==> opening == left.opening && all == MapStream(kind.fields, left.all)
                            && rest == MapStream(kind.fields, left.rest))
    }

    ghost predicate CrossState()
      requires left != null && right != null
      reads this, left, right
    {
      && right.isOpen == isOpen && right.canRewind
      && opening == OpeningCross(left.opening, right.opening, left.all)
      && all == CrossStream(left.all, right.all)
      && (isOpen ==> rest == CrossRest(current, left.rest, right.rest, right.all))
    }

    // ----- construction -----

    constructor Tuples(ts: seq<Tuple>)
      ensures Valid() && !isOpen && canRewind && fresh(repr) && all == Stream(ts, Clean) && opening.Clean?
    {
      kind, left, right, repr := Kind.Tuples, null, null, {this};
      tuples, index, willRewind, current, isOpen := Reversed(ts), |ts|, true, None, false;
      all, rest, canRewind, opening := Stream(ts, Clean), Stream(ts, Clean), true, Clean;
      new;
      ReversedTwice(ts);
      assert tuples[..index] == tuples;
    }

    constructor Filter(p: Program, child: OpIterator)
      requires child.Valid() && !child.isOpen
      ensures Valid() && !isOpen && canRewind == child.canRewind && fresh(repr - child.repr)
      ensures all == FilterStream(p, child.all) && opening == child.opening
    {
      kind, left, right, repr := Kind.Filter(p), child, null, {this} + child.repr + {child};
      tuples, index, willRewind, current, isOpen := [], 0, true, None, false;
      all, rest, canRewind := FilterStream(p, child.all), FilterStream(p, child.all), child.canRewind;
      opening := child.opening;
    }

    constructor Project(ps: seq<Program>, child: OpIterator)
      requires child.Valid() && !child.isOpen
      ensures Valid() && !isOpen && canRewind == child.canRewind && fresh(repr - child.repr)
      ensures all == MapStream(ps, child.all) && opening == child.opening
    {
      kind, left, right, repr := Kind.Project(ps), child, null, {this} + child.repr + {child};
      tuples, index, willRewind, current, isOpen := [], 0, true, None, false;
      all, rest, canRewind := MapStream(ps, child.all), MapStream(ps, child.all), child.canRewind;
      opening := child.opening;
    }

    constructor CrossJoin(l: OpIterator, r: OpIterator)
      requires l.Valid() && !l.isOpen && r.Valid() && !r.isOpen && r.canRewind && l.repr !! r.repr
      ensures Valid() && !isOpen && canRewind == l.canRewind && fresh(repr - l.repr - r.repr)
      ensures all == CrossStream(l.all, r.all) && opening == OpeningCross(l.opening, r.opening, l.all)
    {
      kind, left, right, repr := Kind.CrossJoin, l, r, {this} + l.repr + r.repr;
      tuples, index, willRewind, current, isOpen := [], 0, true, None, false;
      all, rest, canRewind := CrossStream(l.all, r.all), CrossStream(l.all, r.all), l.canRewind;
      opening := OpeningCross(l.opening, r.opening, l.all);
    }

    /** `configure`: a left input may be consumed as it is read; a right input is always rewound. */
    method Configure(w: bool)
      requires Valid() && !isOpen
      modifies repr
      ensures Valid() && !isOpen && canRewind == w
      decreases repr
    {
      if kind.Tuples? {
        assert tuples[..index] == tuples;
        willRewind := w;
      } else {
        left.Configure(w);
        if kind.CrossJoin? {
          right.Configure(true);
        }
      }
      canRewind := w;
    }

    // ----- open -----

    method Open() returns (r: Finish)
      requires Valid()
      modifies repr
      ensures r == opening
      ensures r.Clean? ==> Valid() && isOpen && rest == old(rest) && canRewind == old(canRewind)
      decreases repr, 1
    {
      r := Clean;
      if !isOpen {
        match kind {
          case Tuples => isOpen := true;
          case Filter(_) => r := OpenUnary();
          case Project(_) => r := OpenUnary();
          case CrossJoin => r := OpenCross();
        }
      }
    }

    method OpenUnary() returns (r: Finish)
      requires Valid() && !isOpen && (kind.Filter? || kind.Project?)
      modifies repr
      ensures r == opening
      ensures r.Clean? ==> Valid() && isOpen && rest == old(rest) && canRewind == old(canRewind)
      decreases repr, 0
    {
      r := left.Open();
      if r.Clean? {
        isOpen := true;
      }
    }

    /** Opens both inputs and pulls the first left tuple. */
    method OpenCross() returns (r: Finish)
      requires Valid() && !isOpen && kind.CrossJoin?
      modifies repr
      ensures r == opening
      ensures r.Clean? ==> Valid() && isOpen && rest == old(rest) && canRewind == old(canRewind)
      decreases repr, 0, 1
    {
      r := OpenInputs();
      if r.Clean? {
        r := PullLeft();
        if r.Clean? {
          isOpen := true;
        }
      }
    }

    method OpenInputs() returns (r: Finish)
      requires kind.CrossJoin? && left != null && right != null && Valid() && !isOpen
      modifies left.repr, right.repr
      ensures r == if left.opening.Clean? then right.opening else left.opening
      ensures r.Clean? ==> left.Valid() && left.isOpen && left.rest == left.all && left.canRewind == old(left.canRewind)
      ensures r.Clean? ==> right.Valid() && right.isOpen && right.rest == right.all && right.canRewind
      decreases repr, 0, 0
    {
      r := left.Open();
      if r.Clean? {
        r := right.Open();
      }
    }

    // ----- next -----

    method Next() returns (r: Outcome<Option<Tuple>>)
      requires Valid() && isOpen
      modifies repr
      ensures Answers(r, old(rest), rest)
      ensures r.Ok? ==> Valid() && isOpen && canRewind == old(canRewind)
      decreases repr, 1
    {
      match kind {
        case Tuples => r := NextTuple();
        case Filter(_) => r := NextFiltered();
        case Project(_) => r := NextProjected();
        case CrossJoin => r := NextPair();
      }
    }

    /** Steps back through the stored tuples, or pops them. */
    method NextTuple() returns (r: Outcome<Option<Tuple>>)
      requires Valid() && isOpen && kind.Tuples?
      modifies this
      ensures Answers(r, old(rest), rest)
      ensures r.Ok? && Valid() && isOpen && canRewind == old(canRewind)
    {
      if willRewind {
        if index == 0 {
          return Ok(None);
        }
        ReversedTail(tuples[..index]);
        assert tuples[..index][..index - 1] == tuples[..index - 1];
        index := index - 1;
        rest := Tail(rest);
        return Ok(Some(tuples[index]));
      }
      if tuples == [] {
        return Ok(None);
      }
      ReversedTail(tuples);
      var t := tuples[|tuples| - 1];
      tuples := tuples[..|tuples| - 1];
      rest := Tail(rest);
      return Ok(Some(t));
    }

    /** Pulls from the input until the predicate holds. */
    method NextFiltered() returns (r: Outcome<Option<Tuple>>)
      requires Valid() && isOpen && kind.Filter?
      modifies repr
      ensures Answers(r, old(rest), rest)
      ensures r.Ok? ==> Valid() && isOpen && canRewind == old(canRewind)
      decreases repr, 0
    {
      while true
        invariant Valid() && isOpen && canRewind == old(canRewind) && rest == old(rest)
        decreases |left.rest.items|
      {
        r := left.Next();
        if !r.Ok? || r.value.None? {
          return;
        }
        var v := RunOn(kind.predicate_, r.value.value);
        if !v.Ok? {
          return Panic;
        }
        if !v.value.Bool? {
          return Err;
        }
        if v.value.b {
          rest := FilterStream(kind.predicate_, left.rest);
          return;
        }
      }
    }

    /** Pulls one input tuple and evaluates every field on it. */
    method NextProjected() returns (r: Outcome<Option<Tuple>>)
      requires Valid() && isOpen && kind.Project?
      modifies repr
      ensures Answers(r, old(rest), rest)
      ensures r.Ok? ==> Valid() && isOpen && canRewind == old(canRewind)
      decreases repr, 0
    {
      r := left.Next();
      if !r.Ok? || r.value.None? {
        return;
      }
      var t := EvalFields(kind.fields, r.value.value);
      if !t.Ok? {
        return Panic;
      }
      rest := MapStream(kind.fields, left.rest);
      return Ok(Some(t.value));
    }

    /** Pairs the current left tuple with the next right tuple, going to the next left tuple when the right side is
        through. */
    method NextPair() returns (r: Outcome<Option<Tuple>>)
      requires Valid() && isOpen && kind.CrossJoin?
      modifies repr
      ensures Answers(r, old(rest), rest)
      ensures r.Ok? ==> Valid() && isOpen && canRewind == old(canRewind)
      decreases repr, 0, 2
    {
      while current.Some?
        invariant Valid() && isOpen && canRewind == old(canRewind) && rest == old(rest)
        decreases Rounds()
      {
        var more;
        r, more := TryPair();
        if !more {
          return;
        }
      }
      return Ok(None);
    }

    /** One round of that loop. */
    method TryPair() returns (r: Outcome<Option<Tuple>>, more: bool)
      requires Valid() && isOpen && kind.CrossJoin? && current.Some?
      modifies repr
      ensures !more ==> Answers(r, old(rest), rest) && (r.Ok? ==> Valid() && isOpen && canRewind == old(canRewind))
      ensures more ==> Valid() && isOpen && canRewind == old(canRewind) && rest == old(rest) && Rounds() < old(Rounds())
      decreases repr, 0, 1
    {
      r := PullRight();
      if !r.Ok? || r.value.Some? {
        return r, false;
      }
      var w := NextRound();
      r := if w.Error? then Err else Panic;
      more := w.Clean?;
    }

    /** The current left tuple with the next right tuple, if there is one. */
    method PullRight() returns (r: Outcome<Option<Tuple>>)
      requires kind.CrossJoin? && right != null && Valid() && isOpen && current.Some?
      modifies this`rest, right.repr
      ensures r != Ok(None) ==> Answers(r, old(rest), rest)
      ensures r == Ok(None) ==> rest == old(rest) && right.rest == Stream([], Clean)
      ensures r.Ok? ==> Valid()
      decreases repr, 0, 0
    {
      ghost var a, b := left.rest, right.rest;
      r := right.Next();
      if !r.Ok? {
        CrossFails(current.value, a, b, right.all);
      } else if r.value.Some? {
        ghost var after := CrossRest(current, a, right.rest, right.all);
        PairAnswer(current.value, r.value.value, a, b, right.rest, right.all, rest, after);
        rest := after;
        r := Ok(Some(current.value + r.value.value));
      }
    }

    ghost function Rounds(): nat
      requires left != null
      reads this, left
    {
      if current.Some? then 1 + |left.rest.items| else 0
    }

    /** Rewinds the right side and goes to the next left tuple. */
    method NextRound() returns (r: Finish)
      requires Valid() && isOpen && kind.CrossJoin? && current.Some? && right.rest == Stream([], Clean)
      modifies repr
      ensures r.Clean? ==> Valid() && isOpen && canRewind == old(canRewind) && rest == old(rest)
      ensures r.Clean? ==> Rounds() < old(Rounds())
      ensures !r.Clean? ==> old(rest) == Stream([], r)
      decreases repr, 0, 0
    {
      CrossRound(current.value, left.rest, right.all);
      right.Rewind();
      r := PullLeft();
    }

    /** Makes the next left tuple the current one; the right side is at its start. */
    method PullLeft() returns (r: Finish)
      requires kind.CrossJoin? && this in repr && Owns(left) && Owns(right) && left.repr !! right.repr
      requires left.Valid() && left.isOpen && right.Valid() && right.isOpen && right.rest == right.all
      modifies this`current, left.repr
      ensures r == if old(left.rest.items) == [] then old(left.rest.end) else Clean
      ensures r.Clean? ==> left.Valid() && left.isOpen && left.canRewind == old(left.canRewind)
      ensures r.Clean? ==> CrossRest(current, left.rest, right.all, right.all) == CrossStream(old(left.rest), right.all)
      ensures r.Clean? && current.Some? ==> |left.rest.items| < old(|left.rest.items|)
      decreases left.repr, 2
    {
      ghost var a := left.rest;
      var n := left.Next();
      if !n.Ok? {
        return if n.Err? then Error else Crash;
      }
      current := n.value;
      if current.Some? {
        CrossStart(a, right.all);
      }
      return Clean;
    }

    // ----- rewind -----

    /** An open operator that may be rewound starts again; this cannot fail. */
    method Rewind()
      requires Valid() && isOpen && canRewind
      modifies repr
      ensures Valid() && isOpen && canRewind && rest == all
      decreases repr, 1
    {
      match kind {
        case Tuples =>
          index := |tuples|;
          assert tuples[..index] == tuples;
        case Filter(_) => left.Rewind();
        case Project(_) => left.Rewind();
        case CrossJoin => RewindInputs();
      }
      rest := all;
    }

    method RewindInputs()
      requires kind.CrossJoin? && left != null && right != null && Valid() && isOpen && canRewind
      modifies this`current, left.repr, right.repr
      ensures left.Valid() && left.isOpen && left.canRewind && right.Valid() && right.isOpen && right.canRewind
      ensures CrossRest(current, left.rest, right.rest, right.all) == all
      decreases repr, 0
    {
      left.Rewind();
      right.Rewind();
      var r := PullLeft();
      assert r.Clean?;
    }
  }

  /** The fields of a projection on one tuple. */
  method EvalFields(ps: seq<Program>, t: Tuple) returns (r: Outcome<Tuple>)
    ensures r == EvalTuple(ps, t)
  {
    var vs, i := [], 0;
    while i < |ps|
      invariant 0 <= i <= |ps| && EvalTuple(ps[..i], t) == Ok(vs)
    {
      assert ps[..i + 1][..i] == ps[..i];
      var v := RunOn(ps[i], t);
      if !v.Ok? {
        EvalStops(ps, i, t);
        return Panic;
      }
      vs := vs + [v.value];
      i := i + 1;
    }
    assert ps[..i] == ps;
    return Ok(vs);
  }

  lemma {:induction false} EvalStops(ps: seq<Program>, i: nat, t: Tuple)
    requires i < |ps| && !RunOn(ps[i], t).Ok?
    ensures EvalTuple(ps, t) == Panic
  {
    if i < |ps| - 1 {
      EvalStops(ps[..|ps| - 1], i, t);
    }
  }

  /** What running an operator to the end gives. */
  function Result(opening: Finish, all: Stream): Outcome<seq<Tuple>> {
    match if opening.Clean? then all.end else opening
    case Clean => Ok(all.items)
    case Error => Err
    case Crash => Panic
  }

  /** Opens an operator and pulls it to the end. */
  method Execute(op: OpIterator) returns (r: Outcome<seq<Tuple>>)
    requires op.Valid() && !op.isOpen
    modifies op.repr
    ensures r == Result(op.opening, op.all)
  {
    var started := op.Open();
    if !started.Clean? {
      return if started.Error? then Err else Panic;
    }
    var ts := [];
    while true
      invariant op.Valid() && op.isOpen && Prepend(ts, op.rest) == op.all
      decreases |op.rest.items|
    {
      ghost var before := op.rest;
      var next := op.Next();
      if !next.Ok? {
        return if next.Err? then Err else Panic;
      }
      if next.value.None? {
        assert ts + [] == ts;
        return Ok(ts);
      }
      PrependStep(ts, before);
      ts := ts + [next.value.value];
    }
  }
}
