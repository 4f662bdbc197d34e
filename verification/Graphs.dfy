/** The arena graph behind query plans: node and edge vectors, each node's edges
    threaded through the edge vector as a linked list. */
module Graphs {
  import opened Options
  import opened GraphTheory

  datatype Node<+T> = Node(data: T, outgoing: Option<nat>)

  datatype Edge = Edge(source: nat, target: nat, next: Option<nat>)

  function ArcsOf(edges: seq<Edge>): (r: seq<Arc>)
    ensures |r| == |edges| && forall i :: 0 <= i < |r| ==> r[i] == Arc(edges[i].source, edges[i].target)
  {
    seq(|edges|, i requires 0 <= i < |edges| => Arc(edges[i].source, edges[i].target))
  }

  function DataOf<T>(nodes: seq<Node<T>>): (r: seq<T>)
    ensures |r| == |nodes| && forall i :: 0 <= i < |r| ==> r[i] == nodes[i].data
  {
    seq(|nodes|, i requires 0 <= i < |nodes| => nodes[i].data)
  }

  /** The last of the first `k` arcs that leaves `s`: where its linked list starts. */
  function LastFrom(arcs: seq<Arc>, k: nat, s: nat): (r: Option<nat>)
    requires k <= |arcs|
    ensures r.Some? ==> r.value < k && arcs[r.value].source == s
  {
    if k == 0 then None else if arcs[k - 1].source == s then Some(k - 1) else LastFrom(arcs, k - 1, s)
  }

  /** Following the list from its start gives the targets, last added first. */
  lemma {:induction false} TargetsFromLast(arcs: seq<Arc>, k: nat, s: nat)
    requires k <= |arcs|
    ensures Targets(arcs[..k], s)
         == match LastFrom(arcs, k, s)
            case None => []
            case Some(i) => [arcs[i].target] + Targets(arcs[..i], s)
  {
    if k > 0 {
      assert arcs[..k][..k - 1] == arcs[..k - 1];
      TargetsFromLast(arcs, k - 1, s);
    }
  }

  /** The targets met when walking from edge `e`. */
  ghost function TargetsAt(arcs: seq<Arc>, e: Option<nat>, s: nat): seq<nat>
    requires e.Some? ==> e.value < |arcs|
  {
    if e.None? then [] else Targets(arcs[..e.value + 1], s)
  }

  lemma WalkFrom(arcs: seq<Arc>, k: nat, s: nat)
    requires k <= |arcs|
    ensures TargetsAt(arcs, LastFrom(arcs, k, s), s) == Targets(arcs[..k], s)
  {
    TargetsFromLast(arcs, k, s);
    match LastFrom(arcs, k, s)
    case None =>
    case Some(i) => WalkStep(arcs, i, s);
  }

  lemma WalkNext(arcs: seq<Arc>, i: nat, s: nat)
    requires i < |arcs| && arcs[i].source == s
    ensures var rest := TargetsAt(arcs, Some(i), s);
            rest != [] && rest[0] == arcs[i].target && rest[1..] == TargetsAt(arcs, LastFrom(arcs, i, s), s)
  {
    WalkStep(arcs, i, s);
    WalkFrom(arcs, i, s);
  }

  lemma WalkStep(arcs: seq<Arc>, i: nat, s: nat)
    requires i < |arcs| && arcs[i].source == s
    ensures Targets(arcs[..i + 1], s) == [arcs[i].target] + Targets(arcs[..i], s)
  {
    assert arcs[..i + 1] == arcs[..i] + [arcs[i]];
    TargetsSnoc(arcs[..i], arcs[i], s);
  }

  lemma {:induction false} LastFromPrefix(arcs: seq<Arc>, more: seq<Arc>, k: nat, s: nat)
    requires k <= |arcs|
    ensures LastFrom(arcs + more, k, s) == LastFrom(arcs, k, s)
  {
    if k > 0 {
      LastFromPrefix(arcs, more, k - 1, s);
    }
  }

  ghost predicate EdgesLinked(arcs: seq<Arc>, edges: seq<Edge>) {
    && |arcs| == |edges|
    && forall i {:trigger edges[i].next} :: 0 <= i < |edges| ==> edges[i].next == LastFrom(arcs, i, edges[i].source)
  }

  ghost predicate NodesLinked<T>(arcs: seq<Arc>, nodes: seq<Node<T>>) {
    forall s {:trigger nodes[s].outgoing} :: 0 <= s < |nodes| ==> nodes[s].outgoing == LastFrom(arcs, |arcs|, s)
  }

  /** The links of both vectors are in step. */
  ghost predicate Linked<T>(nodes: seq<Node<T>>, edges: seq<Edge>) {
    var arcs := ArcsOf(edges);
    ArcsWithin(|nodes|, arcs) && EdgesLinked(arcs, edges) && NodesLinked(arcs, nodes)
  }

  lemma LinkedAddNode<T>(nodes: seq<Node<T>>, edges: seq<Edge>, x: T)
    requires Linked(nodes, edges)
    ensures Linked(nodes + [Node(x, None)], edges)
  {
    NothingFrom(ArcsOf(edges), |edges|, |nodes|);
  }

  lemma {:induction false} NothingFrom(arcs: seq<Arc>, k: nat, n: nat)
    requires k <= |arcs| && ArcsWithin(n, arcs)
    ensures LastFrom(arcs, k, n) == None
  {
    if k > 0 {
      NothingFrom(arcs, k - 1, n);
    }
  }

  lemma ArcsOfSnoc(edges: seq<Edge>, e: Edge)
    ensures ArcsOf(edges + [e]) == ArcsOf(edges) + [Arc(e.source, e.target)]
  {
  }

  lemma LinkedAddEdge<T>(nodes: seq<Node<T>>, edges: seq<Edge>, s: nat, t: nat)
    requires Linked(nodes, edges) && s < |nodes| && t < |nodes|
    ensures Linked(nodes[s := nodes[s].(outgoing := Some(|edges|))], edges + [Edge(s, t, nodes[s].outgoing)])
  {
    var e := Edge(s, t, nodes[s].outgoing);
    ArcsOfSnoc(edges, e);
    EdgesLinkedSnoc(ArcsOf(edges), edges, e);
    NodesLinkedSnoc(ArcsOf(edges), nodes, Arc(s, t));
  }

  lemma EdgesLinkedSnoc(arcs: seq<Arc>, edges: seq<Edge>, e: Edge)
    requires EdgesLinked(arcs, edges) && e.next == LastFrom(arcs, |arcs|, e.source)
    ensures EdgesLinked(arcs + [Arc(e.source, e.target)], edges + [e])
  {
    var more := edges + [e];
    forall i | 0 <= i < |more| ensures more[i].next == LastFrom(arcs + [Arc(e.source, e.target)], i, more[i].source) {
      LastFromPrefix(arcs, [Arc(e.source, e.target)], i, more[i].source);
    }
  }

  lemma NodesLinkedSnoc<T>(arcs: seq<Arc>, nodes: seq<Node<T>>, a: Arc)
    requires NodesLinked(arcs, nodes) && a.source < |nodes|
    ensures NodesLinked(arcs + [a], nodes[a.source := nodes[a.source].(outgoing := Some(|arcs|))])
  {
    forall u | 0 <= u < |nodes|
      ensures LastFrom(arcs + [a], |arcs| + 1, u) == if u == a.source then Some(|arcs|) else LastFrom(arcs, |arcs|, u)
    {
      LastFromPrefix(arcs, [a], |arcs|, u);
    }
  }

  // ----- the loops of the topological sort -----

  method AddOccurrences(num: map<nat, nat>, children: seq<nat>) returns (r: map<nat, nat>)
    ensures r.Keys == num.Keys && forall c :: c in num ==> r[c] == num[c] + Occurrences(children, c)
  {
    r := num;
    var rest := children;
    while rest != []
      invariant r.Keys == num.Keys
      invariant forall c :: c in num ==> r[c] + Occurrences(rest, c) == num[c] + Occurrences(children, c)
      decreases |rest|
    {
      var child := rest[0];
      if child in r {
        r := r[child := r[child] + 1];
      }
      rest := rest[1..];
    }
  }

  method ZeroCounts(n: nat) returns (num: map<nat, nat>)
    ensures num.Keys == Below(n) && forall c :: c in num ==> num[c] == 0
  {
    num := map[];
    var k := 0;
    while k < n
      invariant 0 <= k <= n && num.Keys == Below(k)
      invariant forall c :: c in num ==> num[c] == 0
    {
      num := num[k := 0];
      k := k + 1;
    }
  }

  /** The counters after the edges of the first `k` nodes. */
  ghost predicate CountsFrom(arcs: seq<Arc>, k: nat, num: map<nat, nat>) {
    forall c :: c in num ==> num[c] == CountArcs(arcs, Below(k), c)
  }

  lemma CountStart(arcs: seq<Arc>, num: map<nat, nat>)
    requires forall c :: c in num ==> num[c] == 0
    ensures CountsFrom(arcs, 0, num)
  {
    forall c | c in num ensures CountArcs(arcs, Below(0), c) == 0 {
      CountArcsNone(arcs, c);
    }
  }

  lemma CountNext(arcs: seq<Arc>, k: nat, num: map<nat, nat>, more: map<nat, nat>)
    requires CountsFrom(arcs, k, num) && more.Keys == num.Keys
    requires forall c :: c in num ==> more[c] == num[c] + Occurrences(Targets(arcs, k), c)
    ensures CountsFrom(arcs, k + 1, more)
  {
    forall c | c in more ensures more[c] == CountArcs(arcs, Below(k + 1), c) {
      CountArcsAdd(arcs, Below(k), k, c);
      assert c in num;
      assert Below(k + 1) == Below(k) + {k};
    }
  }

  /** The keys with count zero, in any order. */
  method ZeroKeys(num: map<nat, nat>) returns (keys: seq<nat>)
    ensures Distinct(keys)
    ensures forall c :: c in keys <==> c in num && num[c] == 0
  {
    keys := [];
    var todo := num.Keys;
    while todo != {}
      invariant todo <= num.Keys && Distinct(keys)
      invariant forall c :: c in keys <==> c in num.Keys - todo && num[c] == 0
      decreases |todo|
    {
      var c :| c in todo;
      todo := todo - {c};
      if num[c] == 0 {
        keys := keys + [c];
      }
    }
  }

  /** What Kahn's algorithm keeps: counters count the arcs from nodes not yet emitted, with those to
      `pending` not yet subtracted; a node waits or is emitted exactly when its counter is spent; what
      is emitted is in order. */
  ghost predicate Kahn(
    n: nat, arcs: seq<Arc>, num: map<nat, nat>, stack: seq<nat>, res: seq<nat>, pending: seq<nat>)
  {
    && num.Keys <= Below(n) && Apart(stack, res) && Elements(res) <= Below(n) && Elements(stack) <= Below(n)
    && Counted(n, arcs, num, res, pending)
    && Settled(n, num, stack, res)
    && NoneLeft(n, arcs, stack, res)
    && Forward(arcs, res) && FromInside(arcs, res)
  }

  predicate Apart(stack: seq<nat>, res: seq<nat>) {
    Distinct(res) && Distinct(stack) && forall c :: c in stack ==> c !in res
  }

  ghost predicate Counted(n: nat, arcs: seq<Arc>, num: map<nat, nat>, res: seq<nat>, pending: seq<nat>) {
    forall c :: c in num ==> num[c] == Left(n, arcs, res, c) + Occurrences(pending, c)
  }

  /** Arcs into `c` from nodes not yet emitted. */
  ghost function Left(n: nat, arcs: seq<Arc>, res: seq<nat>, c: nat): nat {
    CountArcs(arcs, Below(n) - Elements(res), c)
  }

  ghost predicate Settled(n: nat, num: map<nat, nat>, stack: seq<nat>, res: seq<nat>) {
    forall c :: c in Below(n) ==> (c in res || c in stack <==> c !in num || num[c] == 0)
  }

  ghost predicate NoneLeft(n: nat, arcs: seq<Arc>, stack: seq<nat>, res: seq<nat>) {
    forall c :: c in stack ==> Left(n, arcs, res, c) == 0
  }

  /** Arcs into emitted nodes come from emitted nodes. */
  predicate FromInside(arcs: seq<Arc>, res: seq<nat>) {
    forall a :: a in arcs && a.target in res ==> a.source in res
  }

  lemma KahnStart(n: nat, arcs: seq<Arc>, num: map<nat, nat>, stack: seq<nat>)
    requires num.Keys == Below(n) && CountsFrom(arcs, n, num)
    requires Distinct(stack) && forall c :: c in stack <==> c in num && num[c] == 0
    ensures Kahn(n, arcs, num, stack, [], [])
  {
    assert Below(n) - Elements([]) == Below(n);
  }

  /** Emitting `next` takes its arcs out of the count. */
  lemma LeftAfter(n: nat, arcs: seq<Arc>, res: seq<nat>, next: nat, c: nat)
    requires next < n && next !in res
    ensures Left(n, arcs, res, c) == Left(n, arcs, res + [next], c) + Occurrences(Targets(arcs, next), c)
  {
    var later := Below(n) - Elements(res + [next]);
    assert Elements(res + [next]) == Elements(res) + {next};
    assert Below(n) - Elements(res) == later + {next};
    CountArcsAdd(arcs, later, next, c);
  }

  lemma EmitInOrder(n: nat, arcs: seq<Arc>, res: seq<nat>, next: nat)
    requires ArcsWithin(n, arcs) && Forward(arcs, res) && FromInside(arcs, res)
    requires next < n && next !in res && Left(n, arcs, res, next) == 0
    ensures Forward(arcs, res + [next]) && FromInside(arcs, res + [next])
  {
    CountArcsZero(arcs, Below(n) - Elements(res), next);
    var r := res + [next];
    forall i, j | 0 <= i <= j < |r| ensures Arc(r[j], r[i]) !in arcs {
      if j == |res| && i < |res| {
        assert r[i] in res;
      }
    }
    forall a | a in arcs && a.target in r ensures a.source in r {
      if a.target == next {
        var k :| 0 <= k < |arcs| && arcs[k] == a;
        assert a == Arc(a.source, next);
      }
    }
  }

  lemma PopApart(stack: seq<nat>, res: seq<nat>)
    requires Apart(stack, res) && stack != []
    ensures Apart(stack[..|stack| - 1], res + [stack[|stack| - 1]])
    ensures stack[|stack| - 1] !in res
    ensures forall c :: c in stack <==> c in stack[..|stack| - 1] || c == stack[|stack| - 1]
  {
    var init, next := stack[..|stack| - 1], stack[|stack| - 1];
    assert stack == init + [next];
    assert next in stack;
  }

  lemma KahnPop(n: nat, arcs: seq<Arc>, num: map<nat, nat>, stack: seq<nat>, res: seq<nat>)
    requires ArcsWithin(n, arcs) && Kahn(n, arcs, num, stack, res, []) && stack != []
    ensures var next := stack[|stack| - 1];
            next < n && Kahn(n, arcs, num, stack[..|stack| - 1], res + [next], Targets(arcs, next))
  {
    var init, next := stack[..|stack| - 1], stack[|stack| - 1];
    PopApart(stack, res);
    assert next in Elements(stack);
    EmitInOrder(n, arcs, res, next);
    forall c ensures Left(n, arcs, res, c) == Left(n, arcs, res + [next], c) + Occurrences(Targets(arcs, next), c) {
      LeftAfter(n, arcs, res, next, c);
    }
    assert Elements(res + [next]) == Elements(res) + {next};
  }

  lemma PushApart(stack: seq<nat>, res: seq<nat>, c: nat)
    requires Apart(stack, res) && c !in res && c !in stack
    ensures Apart(stack + [c], res)
  {
  }

  lemma OccurrencesCons(pending: seq<nat>)
    requires pending != []
    ensures forall c :: Occurrences(pending, c) == (if c == pending[0] then 1 else 0) + Occurrences(pending[1..], c)
  {
  }

  /** The last arc into a child is gone: it joins the stack. */
  lemma KahnSpent(n: nat, arcs: seq<Arc>, num: map<nat, nat>, stack: seq<nat>, res: seq<nat>, pending: seq<nat>)
    requires Kahn(n, arcs, num, stack, res, pending) && pending != [] && pending[0] in num && num[pending[0]] == 1
    ensures Kahn(n, arcs, num - {pending[0]}, stack + [pending[0]], res, pending[1..])
  {
    var child := pending[0];
    OccurrencesCons(pending);
    PushApart(stack, res, child);
    assert Elements(stack + [child]) == Elements(stack) + {child};
  }

  /** Another arc into a child is gone; its counter does not underflow. */
  lemma KahnLowered(n: nat, arcs: seq<Arc>, num: map<nat, nat>, stack: seq<nat>, res: seq<nat>, pending: seq<nat>)
    requires Kahn(n, arcs, num, stack, res, pending) && pending != [] && pending[0] in num && num[pending[0]] != 1
    ensures num[pending[0]] > 1
    ensures Kahn(n, arcs, num[pending[0] := num[pending[0]] - 1], stack, res, pending[1..])
  {
    OccurrencesCons(pending);
  }

  lemma KahnSkipped(n: nat, arcs: seq<Arc>, num: map<nat, nat>, stack: seq<nat>, res: seq<nat>, pending: seq<nat>)
    requires Kahn(n, arcs, num, stack, res, pending) && pending != [] && pending[0] !in num
    ensures Kahn(n, arcs, num, stack, res, pending[1..])
  {
    OccurrencesCons(pending);
  }

  /** The inner loop: one emitted node's children. */
  method Lower(
      n: nat, ghost arcs: seq<Arc>, num0: map<nat, nat>, stack0: seq<nat>, ghost res: seq<nat>, children: seq<nat>)
    returns (num: map<nat, nat>, stack: seq<nat>)
    requires Kahn(n, arcs, num0, stack0, res, children)
    ensures Kahn(n, arcs, num, stack, res, [])
  {
    num, stack := num0, stack0;
    var rest := children;
    while rest != []
      invariant Kahn(n, arcs, num, stack, res, rest)
      decreases |rest|
    {
      var child := rest[0];
      if child in num {
        if num[child] == 1 {
          KahnSpent(n, arcs, num, stack, res, rest);
          num := num - {child};
          stack := stack + [child];
        } else {
          KahnLowered(n, arcs, num, stack, res, rest);
          num := num[child := num[child] - 1];
        }
      } else {
        KahnSkipped(n, arcs, num, stack, res, rest);
      }
      rest := rest[1..];
    }
  }

  lemma KahnBound(n: nat, arcs: seq<Arc>, num: map<nat, nat>, stack: seq<nat>, res: seq<nat>)
    requires Kahn(n, arcs, num, stack, res, [])
    ensures |res| <= n && (stack != [] ==> |res| < n)
  {
    Pigeonhole(res, Below(n));
    assert stack != [] ==> stack[0] in Elements(stack);
  }

  /** With an empty stack, either everything is emitted in order or what is left blocks itself. */
  lemma KahnEnd(n: nat, arcs: seq<Arc>, num: map<nat, nat>, res: seq<nat>)
    requires Kahn(n, arcs, num, [], res, [])
    ensures |res| == n ==> IsTopological(n, arcs, res)
    ensures |res| != n ==> Blocked(n, arcs, Below(n) - Elements(res))
  {
    Pigeonhole(res, Below(n));
    DistinctSize(res);
    var u := Below(n) - Elements(res);
    if |res| != n {
      SubsetSize(Elements(res), Below(n));
      assert u != {} by {
        assert u == {} ==> Below(n) <= Elements(res);
      }
      forall t | t in u ensures HasPredecessor(arcs, u, t) {
        CountArcsZero(arcs, u, t);
        assert num[t] == Left(n, arcs, res, t);
      }
    }
  }

  /** Full output is an order and rules out cycles; anything less rules out every order and shows a cycle. */
  lemma OrderOrCycle(n: nat, arcs: seq<Arc>, res: seq<nat>)
    requires ArcsWithin(n, arcs)
    requires |res| == n ==> IsTopological(n, arcs, res)
    requires |res| != n ==> Blocked(n, arcs, Below(n) - Elements(res))
    ensures |res| != n ==> forall o :: !IsTopological(n, arcs, o)
    ensures |res| != n <==> HasCycle(arcs)
  {
    if |res| == n {
      OrderNoCycle(n, arcs, res);
    } else {
      forall o ensures !IsTopological(n, arcs, o) {
        BlockedNoOrder(n, arcs, Below(n) - Elements(res), o);
      }
      BlockedCycle(n, arcs, Below(n) - Elements(res));
    }
  }

  // ----- the loops of the search -----

  function Unvisited(children: seq<nat>, visited: set<nat>): (r: seq<nat>)
    ensures forall c :: c in r <==> c in children && c !in visited
  {
    if children == [] then []
    else (if children[0] in visited then [] else [children[0]]) + Unvisited(children[1..], visited)
  }

  method PushUnvisited(base: seq<nat>, children: seq<nat>, visited: set<nat>) returns (todo: seq<nat>)
    ensures todo == base + Unvisited(children, visited)
  {
    todo := base;
    var rest := children;
    while rest != []
      invariant todo + Unvisited(rest, visited) == base + Unvisited(children, visited)
      decreases |rest|
    {
      if rest[0] !in visited {
        todo := todo + [rest[0]];
      }
      rest := rest[1..];
    }
  }

  /** What the search keeps: only reachable nodes, and the successors of visited nodes are visited or waiting. */
  ghost predicate Search(n: nat, arcs: seq<Arc>, start: nat, visited: set<nat>, todo: seq<nat>) {
    && visited <= Below(n) && Elements(todo) <= Below(n)
    && (start in visited || start in todo)
    && (forall v :: v in visited || v in todo ==> Reachable(arcs, start, v))
    && (forall a :: a in arcs && a.source in visited ==> a.target in visited || a.target in todo)
  }

  lemma SearchStep(n: nat, arcs: seq<Arc>, start: nat, visited: set<nat>, todo: seq<nat>)
    requires ArcsWithin(n, arcs) && Search(n, arcs, start, visited, todo) && todo != []
    ensures var next := todo[|todo| - 1];
            && next < n
            && Search(n, arcs, start, visited + {next}, todo[..|todo| - 1] + Unvisited(Targets(arcs, next), visited))
  {
    var init, next := todo[..|todo| - 1], todo[|todo| - 1];
    assert todo == init + [next];
    assert next in Elements(todo);
    var children := Targets(arcs, next);
    var more := init + Unvisited(children, visited);
    TargetsMembers(arcs, next);
    forall v | v in visited + {next} || v in more ensures Reachable(arcs, start, v) && v in Below(n) {
      if v in init {
        assert v in todo && v in Elements(todo);
      } else if v in Unvisited(children, visited) {
        ReachableStep(arcs, start, next, v);
        var k :| 0 <= k < |arcs| && arcs[k] == Arc(next, v);
      }
    }
    forall a | a in arcs && a.source in visited + {next} ensures a.target in visited + {next} || a.target in more {
      if a.source == next {
        assert a == Arc(next, a.target);
      } else {
        assert a.target in visited || a.target in todo;
      }
    }
  }

  ghost function Unseen(n: nat, visited: set<nat>): nat { |Below(n) - visited| }

  ghost predicate TopSeen(visited: set<nat>, todo: seq<nat>) { todo != [] && todo[|todo| - 1] in visited }

  /** Every turn visits a new node, or uncovers an unvisited one, or shortens the list. */
  lemma SearchShrinks(n: nat, visited: set<nat>, todo: seq<nat>, children: seq<nat>)
    requires todo != [] && todo[|todo| - 1] < n
    ensures var next := todo[|todo| - 1];
            var more := todo[..|todo| - 1] + Unvisited(children, visited);
            if next !in visited then Unseen(n, visited + {next}) < Unseen(n, visited)
            else visited + {next} == visited && TopSeen(visited, todo) && (|more| < |todo| || !TopSeen(visited, more))
  {
    var next := todo[|todo| - 1];
    var un := Unvisited(children, visited);
    if next !in visited {
      assert Below(n) - visited == (Below(n) - (visited + {next})) + {next};
    } else if un != [] {
      assert un[|un| - 1] in un;
    } else {
      assert todo[..|todo| - 1] + un == todo[..|todo| - 1];
    }
  }

  lemma SearchEnd(n: nat, arcs: seq<Arc>, start: nat, visited: set<nat>)
    requires Search(n, arcs, start, visited, [])
    ensures |visited| == n <==> AllReachable(n, arcs, start)
  {
    SubsetSize(visited, Below(n));
    if AllReachable(n, arcs, start) {
      forall v | v in Below(n) ensures v in visited {
        assert Reachable(arcs, start, v);
        var p :| IsPath(arcs, p) && p[0] == start && p[|p| - 1] == v;
        ClosedPath(arcs, visited, p);
      }
      assert visited == Below(n);
    }
  }

  lemma MoveHead(a: seq<nat>, b: seq<nat>)
    requires b != []
    ensures a + b == a + [b[0]] + b[1..]
  {
  }

  class CrustyGraph<T> {
    var nodes: seq<Node<T>>
    var edges: seq<Edge>

    ghost predicate Valid()
      reads this
    {
      Linked(nodes, edges)
    }

    ghost function Arcs(): seq<Arc>
      reads this
    {
      ArcsOf(edges)
    }

    ghost function Data(): seq<T>
      reads this
    {
      DataOf(nodes)
    }

    constructor ()
      ensures Valid() && Data() == [] && Arcs() == []
    {
      nodes, edges := [], [];
    }

    method AddNode(x: T) returns (index: nat)
      requires Valid()
      modifies this
      ensures Valid() && index == old(|Data()|)
      ensures Data() == old(Data()) + [x] && Arcs() == old(Arcs())
    {
      LinkedAddNode(nodes, edges, x);
      index := |nodes|;
      nodes := nodes + [Node(x, None)];
    }

    method AddEdge(source: nat, target: nat)
      requires Valid() && source < |nodes| && target < |nodes|
      modifies this
      ensures Valid()
      ensures Data() == old(Data()) && Arcs() == old(Arcs()) + [Arc(source, target)]
    {
      LinkedAddEdge(nodes, edges, source, target);
      var edge := Edge(source, target, nodes[source].outgoing);
      ArcsOfSnoc(edges, edge);
      nodes := nodes[source := nodes[source].(outgoing := Some(|edges|))];
      edges := edges + [edge];
    }

    /** Walks the linked list of `source`. */
    method EdgesFrom(source: nat) returns (targets: seq<nat>)
      requires Valid() && source < |nodes|
      ensures targets == Targets(Arcs(), source)
    {
      ghost var all := Targets(Arcs(), source);
      var walk := new EdgeWalk(this, source);
      targets := [];
      var done := false;
      while !done
        invariant walk.Ok() && targets + walk.Rest() == all
        invariant done ==> walk.Rest() == []
        decreases |walk.Rest()|, !done
      {
        ghost var rest := walk.Rest();
        var item := walk.Next();
        if item.Some? {
          MoveHead(targets, rest);
          targets := targets + [item.value];
        } else {
          done := true;
        }
      }
    }

    // ----- topological order -----

    /** In-degree of every node, one edge at a time. */
    method CountIncoming() returns (num: map<nat, nat>)
      requires Valid()
      ensures num.Keys == Below(|nodes|) && CountsFrom(Arcs(), |nodes|, num)
    {
      ghost var arcs := Arcs();
      num := ZeroCounts(|nodes|);
      CountStart(arcs, num);
      var k := 0;
      while k < |nodes|
        invariant 0 <= k <= |nodes| && num.Keys == Below(|nodes|)
        invariant CountsFrom(arcs, k, num)
      {
        var children := EdgesFrom(k);
        ghost var before := num;
        num := AddOccurrences(num, children);
        CountNext(arcs, k, before, num);
        k := k + 1;
      }
    }

    /** Kahn's algorithm: an order if there is one. */
    method TopologicalOrder() returns (order: Option<seq<nat>>)
      requires Valid()
      ensures order.Some? ==> IsTopological(|nodes|, Arcs(), order.value)
      ensures order.None? ==> forall o :: !IsTopological(|nodes|, Arcs(), o)
      ensures order.None? <==> HasCycle(Arcs())
    {
      var n := |nodes|;
      ghost var arcs := Arcs();
      var num := CountIncoming();
      var stack := ZeroKeys(num);
      KahnStart(n, arcs, num, stack);
      var res := Emit(arcs, num, stack);
      OrderOrCycle(n, arcs, res);
      return if |res| == n then Some(res) else None;
    }

    /** The main loop: emit a waiting node, lower the counters of its children. */
    method Emit(ghost arcs: seq<Arc>, num0: map<nat, nat>, stack0: seq<nat>) returns (res: seq<nat>)
      requires Valid() && arcs == Arcs() && Kahn(|nodes|, arcs, num0, stack0, [], [])
      ensures |res| == |nodes| ==> IsTopological(|nodes|, arcs, res)
      ensures |res| != |nodes| ==> Blocked(|nodes|, arcs, Below(|nodes|) - Elements(res))
    {
      var n := |nodes|;
      var num, stack := num0, stack0;
      res := [];
      KahnBound(n, arcs, num, stack, res);
      while stack != []
        invariant Kahn(n, arcs, num, stack, res, [])
        invariant |res| <= n && (stack != [] ==> |res| < n)
        decreases n - |res|
      {
        var next := stack[|stack| - 1];
        KahnPop(n, arcs, num, stack, res);
        var children := EdgesFrom(next);
        stack, res := stack[..|stack| - 1], res + [next];
        num, stack := Lower(n, arcs, num, stack, res, children);
        KahnBound(n, arcs, num, stack, res);
      }
      KahnEnd(n, arcs, num, res);
    }

    method CycleFree() returns (free: bool)
      requires Valid()
      ensures free <==> !HasCycle(Arcs())
    {
      var order := TopologicalOrder();
      return order.Some?;
    }

    // ----- reachability -----

    /** Whether every node can be reached from `start`; None for an index that is not a node. */
    method AllReachableFrom(start: nat) returns (all: Option<bool>)
      requires Valid()
      ensures all.None? <==> start >= |nodes|
      ensures all.Some? ==> (all.value <==> AllReachable(|nodes|, Arcs(), start))
    {
      if start >= |nodes| {
        return None;
      }
      ghost var arcs := Arcs();
      var n := |nodes|;
      var visited: set<nat> := {};
      var todo := [start];
      ReachableSelf(arcs, start);
      while todo != []
        invariant Search(n, arcs, start, visited, todo)
        decreases Unseen(n, visited), TopSeen(visited, todo), |todo|
      {
        var next := todo[|todo| - 1];
        SearchStep(n, arcs, start, visited, todo);
        var children := EdgesFrom(next);
        SearchShrinks(n, visited, todo, children);
        todo := PushUnvisited(todo[..|todo| - 1], children, visited);
        visited := visited + {next};
      }
      SearchEnd(n, arcs, start, visited);
      return Some(|visited| == n);
    }
  }

  /** The edge iterator: one index into the edge vector. */
  class EdgeWalk<T> {
    const graph: CrustyGraph<T>
    ghost const source: nat
    var edge: Option<nat>

    constructor (g: CrustyGraph<T>, s: nat)
      requires g.Valid() && s < |g.nodes|
      ensures graph == g && source == s && Ok() && Rest() == Targets(g.Arcs(), s)
    {
      graph, source := g, s;
      edge := g.nodes[s].outgoing;
      new;
      WalkFrom(g.Arcs(), |g.Arcs()|, s);
      assert g.Arcs()[..|g.Arcs()|] == g.Arcs();
    }

    ghost predicate Ok()
      reads this, graph
    {
      graph.Valid() && (edge.Some? ==> edge.value < |graph.edges| && graph.edges[edge.value].source == source)
    }

    /** The targets still to come. */
    ghost function Rest(): seq<nat>
      requires Ok()
      reads this, graph
    {
      TargetsAt(graph.Arcs(), edge, source)
    }

    method Next() returns (target: Option<nat>)
      requires Ok()
      modifies this
      ensures Ok()
      ensures old(Rest()) == [] ==> target == None && Rest() == []
      ensures old(Rest()) != [] ==> target == Some(old(Rest())[0]) && Rest() == old(Rest())[1..]
    {
      if edge.None? {
        return None;
      }
      var e := graph.edges[edge.value];
      WalkNext(graph.Arcs(), edge.value, source);
      edge := e.next;
      return Some(e.target);
    }
  }
}
