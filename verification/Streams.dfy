/** What a pull operator delivers, as a value: the tuples and how the stream ends. */
module Streams {
  import opened Options
  import opened Fields
  import opened ByteCode

  type Tuple = seq<Field>

  /** Compiled code and its literals. */
  datatype Program = Program(code: seq<nat>, lits: seq<Field>)

  function RunOn(p: Program, t: Tuple): Outcome<Field> { EvalCode(p.code, p.lits, t) }

  datatype Finish = Clean | Error | Crash

  datatype Stream = Stream(items: seq<Tuple>, end: Finish)

  function Tail(s: Stream): Stream
    requires s.items != []
  {
    Stream(s.items[1..], s.end)
  }

  function Prepend(xs: seq<Tuple>, s: Stream): Stream { Stream(xs + s.items, s.end) }

  /** A predicate that is not boolean ends the stream with an error. */
  function FilterStream(p: Program, s: Stream): Stream
    decreases |s.items|
  {
    if s.items == [] then s
    else
      match RunOn(p, s.items[0])
      case Ok(Bool(b)) =>
        var rest := FilterStream(p, Tail(s));
        if b then Prepend([s.items[0]], rest) else rest
      case Ok(_) => Stream([], Error)
      case _ => Stream([], Crash)
  }

  function EvalTuple(ps: seq<Program>, t: Tuple): Outcome<Tuple> {
    if ps == [] then Ok([])
    else
      match (EvalTuple(ps[..|ps| - 1], t), RunOn(ps[|ps| - 1], t))
      case (Ok(vs), Ok(v)) => Ok(vs + [v])
      case _ => Panic
  }

  function MapStream(ps: seq<Program>, s: Stream): Stream
    decreases |s.items|
  {
    if s.items == [] then s
    else
      match EvalTuple(ps, s.items[0])
      case Ok(t) => Prepend([t], MapStream(ps, Tail(s)))
      case _ => Stream([], Crash)
  }

  /** All pairs, left tuples outermost; a failing right side stops the first round. */
  function CrossStream(a: Stream, b: Stream): Stream
    decreases |a.items|
  {
    if a.items == [] then a
    else Prepend(PairRows(a.items[0], b.items), if b.end.Clean? then CrossStream(Tail(a), b) else Stream([], b.end))
  }

  /** What is left of a cross join: the current tuple against the rest of the right side, then the other left
      tuples against the whole right side. */
  function CrossRest(current: Option<Tuple>, a: Stream, b: Stream, whole: Stream): Stream {
    if current.None? then Stream([], Clean)
    else Prepend(PairRows(current.value, b.items), if b.end.Clean? then CrossStream(a, whole) else Stream([], b.end))
  }

  lemma CrossStart(a: Stream, b: Stream)
    requires a.items != []
    ensures CrossRest(Some(a.items[0]), Tail(a), b, b) == CrossStream(a, b)
  {
  }

  lemma CrossAdvance(t: Tuple, a: Stream, b: Stream, whole: Stream)
    requires b.items != []
    ensures var s := CrossRest(Some(t), a, b, whole);
      s.items != [] && s.items[0] == t + b.items[0] && Tail(s) == CrossRest(Some(t), a, Tail(b), whole)
  {
    var s, u := CrossRest(Some(t), a, b, whole), CrossRest(Some(t), a, Tail(b), whole);
    assert PairRows(t, b.items) == [t + b.items[0]] + PairRows(t, b.items[1..]);
    assert s.items == [t + b.items[0]] + u.items;
    assert s.items[1..] == u.items;
  }

  lemma CrossRound(t: Tuple, a: Stream, whole: Stream)
    ensures CrossRest(Some(t), a, Stream([], Clean), whole) == CrossStream(a, whole)
  {
    assert PairRows(t, []) == [];
    assert [] + CrossStream(a, whole).items == CrossStream(a, whole).items;
  }

  lemma CrossFails(t: Tuple, a: Stream, b: Stream, whole: Stream)
    requires b.items == [] && !b.end.Clean?
    ensures CrossRest(Some(t), a, b, whole) == b
  {
    assert PairRows(t, []) == [];
  }

  lemma PrependStep(xs: seq<Tuple>, s: Stream)
    requires s.items != []
    ensures Prepend(xs + [s.items[0]], Tail(s)) == Prepend(xs, s)
  {
    assert s.items == [s.items[0]] + s.items[1..];
  }

  // ----- where streams stop -----

  predicate IsTruth(v: Outcome<Field>) { v.Ok? && v.value.Bool? }

  /** A filter stops at the first tuple without a truth value: with an error if it has another value, with a panic if
      it has none; what came before is delivered. */
  lemma {:induction false} FilterStops(p: Program, s: Stream, k: nat)
    requires k < |s.items| && !IsTruth(RunOn(p, s.items[k]))
    requires forall i :: 0 <= i < k ==> IsTruth(RunOn(p, s.items[i]))
    ensures FilterStream(p, s).end == if RunOn(p, s.items[k]).Ok? then Error else Crash
    ensures FilterStream(p, s).items == FilterStream(p, Stream(s.items[..k], Clean)).items
    decreases k
  {
    if k > 0 {
      FilterStops(p, Tail(s), k - 1);
      assert Tail(Stream(s.items[..k], Clean)).items == Tail(s).items[..k - 1];
    }
  }

  /** A projection stops at the first tuple with a field that has no value. */
  lemma {:induction false} MapStops(ps: seq<Program>, s: Stream, k: nat)
    requires k < |s.items| && !EvalTuple(ps, s.items[k]).Ok?
    requires forall i :: 0 <= i < k ==> EvalTuple(ps, s.items[i]).Ok?
    ensures MapStream(ps, s).end == Crash
    ensures MapStream(ps, s).items == MapStream(ps, Stream(s.items[..k], Clean)).items
    decreases k
  {
    if k > 0 {
      MapStops(ps, Tail(s), k - 1);
      assert Tail(Stream(s.items[..k], Clean)).items == Tail(s).items[..k - 1];
    }
  }

  /** A cross join stops in its first round when its right input fails, after the pairs delivered so far. */
  lemma CrossStops(a: Stream, b: Stream)
    requires a.items != [] && !b.end.Clean?
    ensures CrossStream(a, b) == Stream(PairRows(a.items[0], b.items), b.end)
  {
    assert PairRows(a.items[0], b.items) + [] == PairRows(a.items[0], b.items);
  }

  /** When its left input fails, it fails after all pairs of the tuples delivered. */
  lemma {:induction false} CrossLeftFails(a: Stream, b: Stream)
    requires b.end.Clean?
    ensures CrossStream(a, b).end == a.end
    ensures CrossStream(a, b).items == CrossStream(Stream(a.items, Clean), b).items
    decreases |a.items|
  {
    if a.items != [] {
      CrossLeftFails(Tail(a), b);
    }
  }
}
