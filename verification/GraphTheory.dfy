/** Directed multigraphs as lists of arcs: successors, paths, topological orders. */
module GraphTheory {
  datatype Arc = Arc(source: nat, target: nat)

  predicate ArcsWithin(n: nat, arcs: seq<Arc>) {
    forall i :: 0 <= i < |arcs| ==> arcs[i].source < n && arcs[i].target < n
  }

  /** The targets of the arcs leaving `s`, last added first. */
  function Targets(arcs: seq<Arc>, s: nat): seq<nat> {
    if arcs == [] then []
    else
      var last := arcs[|arcs| - 1];
      (if last.source == s then [last.target] else []) + Targets(arcs[..|arcs| - 1], s)
  }

  lemma {:induction false} TargetsMembers(arcs: seq<Arc>, s: nat)
    ensures forall t :: t in Targets(arcs, s) <==> Arc(s, t) in arcs
  {
    if arcs != [] {
      var init, last := arcs[..|arcs| - 1], arcs[|arcs| - 1];
      TargetsMembers(init, s);
      assert arcs == init + [last];
    }
  }

  lemma TargetsSnoc(arcs: seq<Arc>, a: Arc, s: nat)
    ensures Targets(arcs + [a], s) == (if a.source == s then [a.target] else []) + Targets(arcs, s)
  {
    assert (arcs + [a])[..|arcs + [a]| - 1] == arcs;
  }

  // ----- sets of nodes -----

  /** The nodes of a graph with `n` nodes. */
  function Below(n: nat): (r: set<nat>)
    ensures forall i: nat :: i in r <==> i < n
    ensures |r| == n
  {
    if n == 0 then {} else Below(n - 1) + {n - 1}
  }

  predicate Distinct(xs: seq<nat>) { forall i, j :: 0 <= i < j < |xs| ==> xs[i] != xs[j] }

  function Elements(xs: seq<nat>): set<nat> { set x | x in xs }

  lemma {:induction false} DistinctSize(xs: seq<nat>)
    requires Distinct(xs)
    ensures |Elements(xs)| == |xs|
  {
    if xs == [] {
      assert Elements(xs) == {};
    } else {
      var init, last := xs[..|xs| - 1], xs[|xs| - 1];
      DistinctSize(init);
      assert xs == init + [last];
      assert Elements(xs) == Elements(init) + {last};
      assert last !in Elements(init);
    }
  }

  lemma SubsetSize(a: set<nat>, b: set<nat>)
    requires a <= b
    ensures |a| <= |b| && (|a| == |b| ==> a == b)
  {
    assert b == a + (b - a);
    assert |b| == |a| + |b - a|;
  }

  /** A list without repeats over `u` is no longer than `u`, and covers it when as long. */
  lemma Pigeonhole(xs: seq<nat>, u: set<nat>)
    requires Distinct(xs) && Elements(xs) <= u
    ensures |xs| <= |u| && (|xs| == |u| ==> Elements(xs) == u)
  {
    DistinctSize(xs);
    SubsetSize(Elements(xs), u);
  }

  // ----- paths -----

  predicate IsPath(arcs: seq<Arc>, p: seq<nat>) {
    p != [] && forall i :: 0 <= i < |p| - 1 ==> Arc(p[i], p[i + 1]) in arcs
  }

  ghost predicate Reachable(arcs: seq<Arc>, s: nat, t: nat) {
    exists p :: IsPath(arcs, p) && p[0] == s && p[|p| - 1] == t
  }

  ghost predicate AllReachable(n: nat, arcs: seq<Arc>, s: nat) {
    forall v: nat :: v < n ==> Reachable(arcs, s, v)
  }

  ghost predicate HasCycle(arcs: seq<Arc>) {
    exists p :: IsPath(arcs, p) && |p| >= 2 && p[0] == p[|p| - 1]
  }

  lemma ReachableSelf(arcs: seq<Arc>, s: nat)
    ensures Reachable(arcs, s, s)
  {
    var p := [s];
    assert IsPath(arcs, p) && p[0] == s && p[|p| - 1] == s;
  }

  lemma ReachableStep(arcs: seq<Arc>, s: nat, t: nat, c: nat)
    requires Reachable(arcs, s, t) && Arc(t, c) in arcs
    ensures Reachable(arcs, s, c)
  {
    var p :| IsPath(arcs, p) && p[0] == s && p[|p| - 1] == t;
    var q := p + [c];
    assert IsPath(arcs, q) && q[0] == s && q[|q| - 1] == c;
  }

  /** A set that contains the start and is closed under arcs contains everything reachable. */
  lemma {:induction false} ClosedPath(arcs: seq<Arc>, u: set<nat>, p: seq<nat>)
    requires IsPath(arcs, p) && p[0] in u
    requires forall a :: a in arcs && a.source in u ==> a.target in u
    ensures p[|p| - 1] in u
    decreases |p|
  {
    if |p| > 1 {
      assert Arc(p[0], p[0 + 1]) in arcs;
      var q := p[1..];
      assert forall i :: 0 <= i < |q| - 1 ==> Arc(q[i], q[i + 1]) == Arc(p[i + 1], p[i + 1 + 1]);
      ClosedPath(arcs, u, q);
    }
  }

  // ----- topological orders -----

  /** Position of `x` in a list that contains it. */
  function Position(xs: seq<nat>, x: nat): (i: nat)
    requires x in xs
    ensures i < |xs| && xs[i] == x
  {
    if xs[0] == x then 0 else Position(xs[1..], x) + 1
  }

  /** Every node once, and every arc's source before its target. */
  predicate IsTopological(n: nat, arcs: seq<Arc>, order: seq<nat>) {
    && Distinct(order) && Elements(order) == Below(n)
    && Forward(arcs, order)
  }

  predicate Forward(arcs: seq<Arc>, order: seq<nat>) {
    forall i, j :: 0 <= i <= j < |order| ==> Arc(order[j], order[i]) !in arcs
  }

  ghost predicate HasPredecessor(arcs: seq<Arc>, u: set<nat>, t: nat) {
    exists s :: s in u && Arc(s, t) in arcs
  }

  /** A non-empty set of nodes each of which has a predecessor in it. */
  ghost predicate Blocked(n: nat, arcs: seq<Arc>, u: set<nat>) {
    u != {} && u <= Below(n) && forall t {:trigger HasPredecessor(arcs, u, t)} :: t in u ==> HasPredecessor(arcs, u, t)
  }

  /** A blocked set rules out every topological order. */
  lemma BlockedNoOrder(n: nat, arcs: seq<Arc>, u: set<nat>, order: seq<nat>)
    requires Blocked(n, arcs, u)
    ensures !IsTopological(n, arcs, order)
  {
    if IsTopological(n, arcs, order) {
      forall j | 0 <= j < |order| ensures order[j] !in u {
        NoBlockedBefore(n, arcs, u, order, j);
      }
      assert false;
    }
  }

  lemma {:induction false} NoBlockedBefore(n: nat, arcs: seq<Arc>, u: set<nat>, order: seq<nat>, j: nat)
    requires Blocked(n, arcs, u) && IsTopological(n, arcs, order) && j < |order|
    ensures order[j] !in u
    decreases j
  {
    if order[j] in u {
      assert HasPredecessor(arcs, u, order[j]);
      var s :| s in u && Arc(s, order[j]) in arcs;
      assert s in Elements(order);
      var i := Position(order, s);
      if i < j {
        NoBlockedBefore(n, arcs, u, order, i);
      }
    }
  }

  /** A blocked set contains walks of any length. */
  lemma {:induction false} BlockedWalk(n: nat, arcs: seq<Arc>, u: set<nat>, k: nat) returns (p: seq<nat>)
    requires Blocked(n, arcs, u)
    ensures |p| == k + 1 && IsPath(arcs, p) && forall i :: 0 <= i < |p| ==> p[i] in u
  {
    if k == 0 {
      var t :| t in u;
      p := [t];
    } else {
      var q := BlockedWalk(n, arcs, u, k - 1);
      assert HasPredecessor(arcs, u, q[0]);
      var s :| s in u && Arc(s, q[0]) in arcs;
      p := [s] + q;
      forall i | 0 <= i < |p| - 1 ensures Arc(p[i], p[i + 1]) in arcs {
        if i > 0 {
          assert Arc(q[i - 1], q[i - 1 + 1]) in arcs;
        }
      }
    }
  }

  lemma BlockedCycle(n: nat, arcs: seq<Arc>, u: set<nat>)
    requires Blocked(n, arcs, u)
    ensures HasCycle(arcs)
  {
    var p := BlockedWalk(n, arcs, u, |u|);
    if Distinct(p) {
      Pigeonhole(p, u);
    } else {
      var i, j :| 0 <= i < j < |p| && p[i] == p[j];
      var c := p[i..j + 1];
      forall k | 0 <= k < |c| - 1 ensures Arc(c[k], c[k + 1]) in arcs {
        assert Arc(p[i + k], p[i + k + 1]) in arcs;
      }
      assert IsPath(arcs, c) && |c| >= 2 && c[0] == c[|c| - 1];
    }
  }

  /** A topological order rules out cycles. */
  lemma OrderNoCycle(n: nat, arcs: seq<Arc>, order: seq<nat>)
    requires ArcsWithin(n, arcs) && IsTopological(n, arcs, order)
    ensures !HasCycle(arcs)
  {
    forall p | IsPath(arcs, p) && |p| >= 2 ensures p[0] != p[|p| - 1] {
      PathClimbs(n, arcs, order, p);
    }
  }

  lemma {:induction false} PathClimbs(n: nat, arcs: seq<Arc>, order: seq<nat>, p: seq<nat>)
    requires ArcsWithin(n, arcs) && IsTopological(n, arcs, order) && IsPath(arcs, p) && |p| >= 2
    ensures p[0] in order && p[|p| - 1] in order && Position(order, p[0]) < Position(order, p[|p| - 1])
    decreases |p|
  {
    var init := p[..|p| - 1];
    var s, t := p[|p| - 2], p[|p| - 1];
    assert Arc(p[|p| - 2], p[|p| - 2 + 1]) in arcs;
    ArcClimbs(n, arcs, order, s, t);
    if |p| > 2 {
      assert IsPath(arcs, init);
      PathClimbs(n, arcs, order, init);
    }
  }

  lemma ArcClimbs(n: nat, arcs: seq<Arc>, order: seq<nat>, s: nat, t: nat)
    requires ArcsWithin(n, arcs) && IsTopological(n, arcs, order) && Arc(s, t) in arcs
    ensures s in order && t in order && Position(order, s) < Position(order, t)
  {
    var k :| 0 <= k < |arcs| && arcs[k] == Arc(s, t);
    assert s in Below(n) && t in Below(n);
    assert s in Elements(order) && t in Elements(order);
    var i, j := Position(order, t), Position(order, s);
    if i <= j {
      assert Arc(order[j], order[i]) in arcs;
    }
  }

  // ----- counting arcs -----

  /** How many arcs lead from `srcs` to `t`. */
  function CountArcs(arcs: seq<Arc>, srcs: set<nat>, t: nat): nat {
    if arcs == [] then 0
    else
      var last := arcs[|arcs| - 1];
      CountArcs(arcs[..|arcs| - 1], srcs, t) + if last.source in srcs && last.target == t then 1 else 0
  }

  function Occurrences(xs: seq<nat>, x: nat): nat {
    if xs == [] then 0 else (if xs[0] == x then 1 else 0) + Occurrences(xs[1..], x)
  }

  lemma {:induction false} CountArcsAdd(arcs: seq<Arc>, srcs: set<nat>, s: nat, t: nat)
    requires s !in srcs
    ensures CountArcs(arcs, srcs + {s}, t) == CountArcs(arcs, srcs, t) + Occurrences(Targets(arcs, s), t)
  {
    if arcs != [] {
      var init, last := arcs[..|arcs| - 1], arcs[|arcs| - 1];
      CountArcsAdd(init, srcs, s, t);
      if last.source == s {
        assert ([last.target] + Targets(init, s))[1..] == Targets(init, s);
      } else {
        assert Targets(arcs, s) == Targets(init, s);
      }
    }
  }

  lemma {:induction false} CountArcsZero(arcs: seq<Arc>, srcs: set<nat>, t: nat)
    ensures CountArcs(arcs, srcs, t) == 0 <==> forall s :: s in srcs ==> Arc(s, t) !in arcs
  {
    if arcs != [] {
      var init, last := arcs[..|arcs| - 1], arcs[|arcs| - 1];
      CountArcsZero(init, srcs, t);
      assert arcs == init + [last];
      if last.source in srcs && last.target == t {
        assert Arc(last.source, t) in arcs;
      }
    }
  }

  lemma {:induction false} CountArcsNone(arcs: seq<Arc>, t: nat)
    ensures CountArcs(arcs, {}, t) == 0
  {
    CountArcsZero(arcs, {}, t);
  }

  lemma {:induction false} OccurrencesMember(xs: seq<nat>, x: nat)
    ensures Occurrences(xs, x) > 0 <==> x in xs
  {
    if xs != [] {
      OccurrencesMember(xs[1..], x);
      assert xs == [xs[0]] + xs[1..];
    }
  }
}
