/** The lock manager: a shared/exclusive lock table kept in two maps, and the
    safety of whole runs of acquire and release calls. */
module Locks {
  type Txn = nat
  type ValueId = nat

  datatype Permission = ReadOnly | ReadWrite

  datatype Lock = Lock(holders: seq<Txn>, kind: Permission)

  /** Both maps at once. */
  datatype State = State(locks: map<ValueId, Lock>, pages: map<Txn, seq<ValueId>>)

  // ----- the calls, on states -----

  function Entry(st: State, t: Txn): State {
    if t in st.pages then st else st.(pages := st.pages[t := []])
  }

  function AddPage(st: State, t: Txn, v: ValueId): State
    requires t in st.pages
  {
    st.(pages := st.pages[t := st.pages[t] + [v]])
  }

  function Acquire(st0: State, t: Txn, v: ValueId, perm: Permission): (State, bool) {
    var st := Entry(st0, t);
    if v !in st.locks then
      (AddPage(st.(locks := st.locks[v := Lock([t], perm)]), t, v), true)
    else
      var lock := st.locks[v];
      match perm
      case ReadOnly =>
        (match lock.kind
         case ReadWrite => (st, t in lock.holders)
         case ReadOnly =>
           if t in lock.holders then (st, true)
           else (AddPage(st.(locks := st.locks[v := lock.(holders := lock.holders + [t])]), t, v), true))
      case ReadWrite =>
        if |lock.holders| == 1 && t in lock.holders then
          (st.(locks := st.locks[v := lock.(kind := ReadWrite)]), true)
        else (st, false)
  }

  /** `retain(|x| x != y)`. */
  function Without<T(==,!new)>(xs: seq<T>, y: T): (r: seq<T>)
    ensures forall x :: x in r <==> x in xs && x != y
  {
    if xs == [] then [] else (if xs[0] == y then [] else [xs[0]]) + Without(xs[1..], y)
  }

  function Release(st: State, t: Txn, v: ValueId): (State, bool) {
    if t !in st.pages || v !in st.locks || t !in st.locks[v].holders then (st, false)
    else
      var lock := st.locks[v];
      var locks := if |lock.holders| == 1 then st.locks - {v}
                   else st.locks[v := lock.(holders := Without(lock.holders, t))];
      (State(locks, st.pages[t := Without(st.pages[t], v)]), true)
  }

  /** The loop of `release_locks` over a snapshot of the transaction's pages; it stops at the first failure. */
  function ReleaseEach(st: State, t: Txn, vs: seq<ValueId>): (State, bool)
    decreases |vs|
  {
    if vs == [] then (st, true)
    else
      var (next, ok) := Release(st, t, vs[0]);
      if ok then ReleaseEach(next, t, vs[1..]) else (next, false)
  }

  function PageIds(st: State, t: Txn): seq<ValueId> { if t in st.pages then st.pages[t] else [] }

  function ReleaseAll(st: State, t: Txn): (State, bool) {
    if PageIds(st, t) == [] then (st, false) else ReleaseEach(st, t, PageIds(st, t))
  }

  // ----- what the maps must agree on -----

  predicate Distinct<T(==)>(xs: seq<T>) { forall i, j :: 0 <= i < j < |xs| ==> xs[i] != xs[j] }

  predicate Holds(st: State, t: Txn, v: ValueId) { v in st.locks && t in st.locks[v].holders }

  /** The two maps tell the same story: no empty holder list, no duplicate, one holder at most for writing. */
  ghost predicate Consistent(st: State) {
    && (forall v :: v in st.locks ==>
          && st.locks[v].holders != [] && Distinct(st.locks[v].holders)
          && (st.locks[v].kind == ReadWrite ==> |st.locks[v].holders| == 1))
    && (forall t :: t in st.pages ==> Distinct(st.pages[t]))
    && (forall t, v :: Holds(st, t, v) <==> v in PageIds(st, t))
  }

  /** Locks that are left are of the kind they were. */
  ghost predicate KindsKept(st: State, e: State) {
    forall w :: w in e.locks ==> w in st.locks && e.locks[w].kind == st.locks[w].kind
  }

  // ----- list facts -----

  lemma {:induction false} WithoutDistinct<T(!new)>(xs: seq<T>, y: T)
    requires Distinct(xs)
    ensures Distinct(Without(xs, y))
  {
    if xs != [] {
      WithoutDistinct(xs[1..], y);
      var r := Without(xs[1..], y);
      if xs[0] != y {
        forall i | 0 <= i < |r| ensures r[i] != xs[0] {
          assert r[i] in r;
          assert xs[0] !in xs[1..];
        }
      }
    }
  }

  lemma {:induction false} WithoutLength<T(!new)>(xs: seq<T>, y: T)
    requires Distinct(xs)
    ensures |Without(xs, y)| == |xs| - (if y in xs then 1 else 0)
  {
    if xs != [] {
      assert xs == [xs[0]] + xs[1..];
      WithoutLength(xs[1..], y);
      if xs[0] == y {
        assert y !in xs[1..];
      }
    }
  }

  lemma SingleHolder(xs: seq<Txn>, t: Txn)
    requires |xs| == 1 && t in xs
    ensures xs == [t]
  {
  }

  lemma TwoHolders(xs: seq<Txn>, t: Txn)
    requires Distinct(xs) && t in xs && |xs| > 1
    ensures exists u :: u in xs && u != t
  {
    if xs[0] == t {
      assert xs[1] in xs && xs[1] != t;
    } else {
      assert xs[0] in xs;
    }
  }

  // ----- every call keeps the maps consistent -----

  lemma EntryConsistent(st: State, t: Txn)
    requires Consistent(st)
    ensures Consistent(Entry(st, t)) && Entry(st, t).locks == st.locks && t in Entry(st, t).pages
    ensures forall u :: PageIds(Entry(st, t), u) == PageIds(st, u)
  {
    var e := Entry(st, t);
    forall u, v ensures Holds(e, u, v) <==> v in PageIds(e, u) {
      assert Holds(st, u, v) <==> v in PageIds(st, u);
    }
  }

  /** `t` gains `v`: the lock entry becomes `lock`, the page list grows. */
  lemma GrantConsistent(st: State, t: Txn, v: ValueId, lock: Lock)
    requires Consistent(st) && t in st.pages && !Holds(st, t, v)
    requires Distinct(lock.holders) && (lock.kind == ReadWrite ==> |lock.holders| == 1)
    requires forall u :: u in lock.holders <==> u == t || Holds(st, u, v)
    ensures Consistent(AddPage(st.(locks := st.locks[v := lock]), t, v))
  {
    var e := AddPage(st.(locks := st.locks[v := lock]), t, v);
    assert t in lock.holders;
    assert v !in st.pages[t] by { assert v in PageIds(st, t) <==> Holds(st, t, v); }
    forall u, w ensures Holds(e, u, w) <==> w in PageIds(e, u) {
      assert Holds(st, u, w) <==> w in PageIds(st, u);
    }
  }

  lemma AcquireConsistent(st0: State, t: Txn, v: ValueId, perm: Permission)
    requires Consistent(st0)
    ensures Consistent(Acquire(st0, t, v, perm).0)
  {
    var st := Entry(st0, t);
    EntryConsistent(st0, t);
    if v !in st.locks {
      GrantConsistent(st, t, v, Lock([t], perm));
    } else {
      var lock := st.locks[v];
      if perm == ReadOnly && lock.kind == ReadOnly && t !in lock.holders {
        GrantConsistent(st, t, v, lock.(holders := lock.holders + [t]));
      } else if perm == ReadWrite && |lock.holders| == 1 && t in lock.holders {
        UpgradeConsistent(st, t, v);
      }
    }
  }

  lemma UpgradeConsistent(st: State, t: Txn, v: ValueId)
    requires Consistent(st) && v in st.locks && |st.locks[v].holders| == 1
    ensures Consistent(st.(locks := st.locks[v := st.locks[v].(kind := ReadWrite)]))
  {
    var e := st.(locks := st.locks[v := st.locks[v].(kind := ReadWrite)]);
    forall u, w ensures Holds(e, u, w) <==> w in PageIds(e, u) {
      assert Holds(st, u, w) <==> w in PageIds(st, u);
    }
  }

  /** A release succeeds exactly when the lock is held; it drops that holding and no other. */
  lemma ReleaseFacts(st: State, t: Txn, v: ValueId)
    requires Consistent(st)
    ensures var (e, ok) := Release(st, t, v);
            && Consistent(e) && (ok <==> Holds(st, t, v)) && (!ok ==> e == st)
            && (ok ==> PageIds(e, t) == Without(PageIds(st, t), v))
            && (forall u, w :: Holds(e, u, w) <==> Holds(st, u, w) && !(ok && u == t && w == v))
            && KindsKept(st, e)
  {
    var (e, ok) := Release(st, t, v);
    assert Holds(st, t, v) <==> v in PageIds(st, t);
    if ok {
      ReleaseHoldings(st, t, v);
      ReleaseLists(st, t, v);
      forall u, w ensures Holds(e, u, w) <==> w in PageIds(e, u) {
        assert Holds(st, u, w) <==> w in PageIds(st, u);
      }
    }
  }

  lemma ReleaseHoldings(st: State, t: Txn, v: ValueId)
    requires Consistent(st) && Holds(st, t, v) && t in st.pages
    ensures var e := Release(st, t, v).0;
            forall u, w :: Holds(e, u, w) <==> Holds(st, u, w) && !(u == t && w == v)
  {
    var e, hs := Release(st, t, v).0, st.locks[v].holders;
    if |hs| == 1 {
      SingleHolder(hs, t);
    }
  }

  lemma ReleaseLists(st: State, t: Txn, v: ValueId)
    requires Consistent(st) && Holds(st, t, v) && t in st.pages
    ensures var e := Release(st, t, v).0;
            && (forall w :: w in e.locks ==>
                  && e.locks[w].holders != [] && Distinct(e.locks[w].holders)
                  && (e.locks[w].kind == ReadWrite ==> |e.locks[w].holders| == 1))
            && (forall u :: u in e.pages ==> Distinct(e.pages[u]))
  {
    var hs := st.locks[v].holders;
    WithoutDistinct(hs, t);
    WithoutLength(hs, t);
    WithoutDistinct(st.pages[t], v);
  }

  // ----- releasing everything -----

  /** Releasing a snapshot of held pages succeeds and drops exactly those holdings. */
  lemma {:induction false} ReleaseEachFacts(st: State, t: Txn, vs: seq<ValueId>)
    requires Consistent(st) && Distinct(vs) && forall v :: v in vs ==> Holds(st, t, v)
    ensures var (e, ok) := ReleaseEach(st, t, vs);
            && ok && Consistent(e)
            && (forall u, w :: Holds(e, u, w) <==> Holds(st, u, w) && !(u == t && w in vs))
            && KindsKept(st, e)
    decreases |vs|
  {
    if vs != [] {
      assert vs[0] in vs;
      ReleaseFacts(st, t, vs[0]);
      var next := Release(st, t, vs[0]).0;
      assert vs == [vs[0]] + vs[1..];
      forall v | v in vs[1..] ensures Holds(next, t, v) {
        assert v in vs && v != vs[0];
      }
      ReleaseEachFacts(next, t, vs[1..]);
    }
  }

  /** `release_locks` succeeds exactly when the transaction holds something; afterwards it holds
      nothing and every other holding stands. */
  lemma ReleaseAllFacts(st: State, t: Txn)
    requires Consistent(st)
    ensures var (e, ok) := ReleaseAll(st, t);
            && Consistent(e) && (ok <==> exists v :: Holds(st, t, v))
            && (forall u, w :: Holds(e, u, w) <==> Holds(st, u, w) && u != t)
            && (ok ==> PageIds(e, t) == []) && KindsKept(st, e)
  {
    var vs := PageIds(st, t);
    forall v ensures Holds(st, t, v) <==> v in vs {
    }
    if vs == [] {
    } else {
      assert Holds(st, t, vs[0]);
      ReleaseEachFacts(st, t, vs);
      NoElements(PageIds(ReleaseAll(st, t).0, t));
    }
  }

  lemma NoElements(vs: seq<ValueId>)
    ensures vs == [] || exists v :: v in vs
  {
    assert vs == [] || vs[0] in vs;
  }

  // ----- what an acquire call answers -----

  /** Grant rule: reading needs that no other transaction holds the value for writing, writing that
      no other transaction holds it at all. */
  lemma AcquireGrants(st: State, t: Txn, v: ValueId, perm: Permission)
    requires Consistent(st)
    ensures Acquire(st, t, v, perm).1 <==>
              forall u :: u != t && Holds(st, u, v) ==> perm == ReadOnly && st.locks[v].kind == ReadOnly
  {
    if v in st.locks {
      var hs := st.locks[v].holders;
      if |hs| == 1 {
        assert hs[0] in hs && Holds(st, hs[0], v);
        assert t in hs <==> hs[0] == t;
      } else if t in hs {
        TwoHolders(hs, t);
        var u :| u in hs && u != t;
        assert Holds(st, u, v);
      } else {
        assert hs[0] in hs && Holds(st, hs[0], v);
      }
    }
  }

  /** The kind of lock a call leaves on a value: a granted request for writing makes it exclusive, a first request
      for reading shared, and nothing else changes it. */
  function KindAfter(st: State, t: Txn, v: ValueId, perm: Permission, ok: bool, w: ValueId): Permission {
    if w == v && ok && (perm == ReadWrite || v !in st.locks) then perm
    else if w in st.locks then st.locks[w].kind
    else ReadOnly
  }

  /** A granted call leaves the caller holding the value, for writing if it asked so; no one else's holdings change. */
  lemma AcquireHolds(st: State, t: Txn, v: ValueId, perm: Permission)
    requires Consistent(st)
    ensures var (e, ok) := Acquire(st, t, v, perm);
            && (forall u, w :: Holds(e, u, w) <==> Holds(st, u, w) || (ok && u == t && w == v))
            && (ok && perm == ReadWrite ==> e.locks[v].kind == ReadWrite && e.locks[v].holders == [t])
            && (forall w :: w in e.locks ==> e.locks[w].kind == KindAfter(st, t, v, perm, ok, w))
  {
    if v in st.locks && |st.locks[v].holders| == 1 && t in st.locks[v].holders {
      SingleHolder(st.locks[v].holders, t);
    }
  }

  // ----- whole runs -----

  datatype Call =
    | AcquireCall(t: Txn, v: ValueId, perm: Permission)
    | ReleaseCall(t: Txn, v: ValueId)
    | ReleaseAllCall(t: Txn)
    | ClearCall

  function Apply(st: State, c: Call): (State, bool) {
    match c
    case AcquireCall(t, v, perm) => Acquire(st, t, v, perm)
    case ReleaseCall(t, v) => Release(st, t, v)
    case ReleaseAllCall(t) => ReleaseAll(st, t)
    case ClearCall => (State(map[], map[]), true)
  }

  /** The state after a run of calls by any transactions, in any order. */
  function Run(calls: seq<Call>): State {
    if calls == [] then State(map[], map[]) else Apply(Run(calls[..|calls| - 1]), calls[|calls| - 1]).0
  }

  /** `t` was granted write access to `v` in this run and has not given it up since. */
  predicate MayWrite(calls: seq<Call>, t: Txn, v: ValueId) {
    if calls == [] then false
    else
      var before, last := calls[..|calls| - 1], calls[|calls| - 1];
      match last
      case AcquireCall(u, w, perm) =>
        (u == t && w == v && perm == ReadWrite && Acquire(Run(before), u, w, perm).1) || MayWrite(before, t, v)
      case ReleaseCall(u, w) => !(u == t && w == v) && MayWrite(before, t, v)
      case ReleaseAllCall(u) => u != t && MayWrite(before, t, v)
      case ClearCall => false
  }

  lemma {:induction false} RunConsistent(calls: seq<Call>)
    ensures Consistent(Run(calls))
  {
    if calls != [] {
      var before, last := calls[..|calls| - 1], calls[|calls| - 1];
      RunConsistent(before);
      match last
      case AcquireCall(t, v, perm) => AcquireConsistent(Run(before), t, v, perm);
      case ReleaseCall(t, v) => ReleaseFacts(Run(before), t, v);
      case ReleaseAllCall(t) => ReleaseAllFacts(Run(before), t);
      case ClearCall =>
    }
  }

  predicate WriteLocked(st: State, t: Txn, v: ValueId) {
    v in st.locks && st.locks[v].kind == ReadWrite && st.locks[v].holders == [t]
  }

  /** One call by anyone keeps a write lock its holder does not give up. */
  lemma WriteLockKept(st: State, t: Txn, v: ValueId, c: Call)
    requires Consistent(st) && WriteLocked(st, t, v)
    requires match c
             case AcquireCall(_, _, _) => true
             case ReleaseCall(u, w) => !(u == t && w == v)
             case ReleaseAllCall(u) => u != t
             case ClearCall => false
    ensures WriteLocked(Apply(st, c).0, t, v)
  {
    assert Holds(st, t, v);
    match c
    case AcquireCall(u, w, perm) =>
    case ReleaseCall(u, w) =>
      ReleaseOther(st, u, w, t, v);
    case ReleaseAllCall(u) =>
      forall x | x in PageIds(st, u) ensures x != v {
        assert Holds(st, u, x);
      }
      ReleaseEachOther(st, u, PageIds(st, u), t, v);
  }

  lemma ReleaseOther(st: State, u: Txn, w: ValueId, t: Txn, v: ValueId)
    requires WriteLocked(st, t, v) && !(u == t && w == v)
    ensures WriteLocked(Release(st, u, w).0, t, v)
  {
    assert w == v ==> u !in st.locks[v].holders;
  }

  lemma {:induction false} ReleaseEachOther(st: State, u: Txn, vs: seq<ValueId>, t: Txn, v: ValueId)
    requires WriteLocked(st, t, v) && u != t && forall x :: x in vs ==> x != v
    ensures WriteLocked(ReleaseEach(st, u, vs).0, t, v)
    decreases |vs|
  {
    if vs != [] {
      forall x | x in vs[1..] ensures x != v {
        assert x in vs;
      }
      ReleaseOther(st, u, vs[0], t, v);
      if Release(st, u, vs[0]).1 {
        ReleaseEachOther(Release(st, u, vs[0]).0, u, vs[1..], t, v);
      }
    }
  }

  /** A granted writer stays the sole, exclusive holder until it releases. */
  lemma {:induction false} WriterIsAlone(calls: seq<Call>, t: Txn, v: ValueId)
    requires MayWrite(calls, t, v)
    ensures WriteLocked(Run(calls), t, v)
  {
    var before, last := calls[..|calls| - 1], calls[|calls| - 1];
    RunConsistent(before);
    if MayWrite(before, t, v) {
      WriterIsAlone(before, t, v);
      WriteLockKept(Run(before), t, v, last);
    } else {
      AcquireHolds(Run(before), t, v, ReadWrite);
    }
  }

  /** Lock safety: while a transaction may write a value, no other transaction holds it and no other
      request for it is granted, for reading or writing. */
  lemma LockSafety(calls: seq<Call>, t: Txn, v: ValueId, u: Txn, perm: Permission)
    requires MayWrite(calls, t, v) && u != t
    ensures !Holds(Run(calls), u, v)
    ensures !Acquire(Run(calls), u, v, perm).1
    ensures !MayWrite(calls, u, v)
  {
    WriterIsAlone(calls, t, v);
    RunConsistent(calls);
    AcquireGrants(Run(calls), u, v, perm);
    assert Holds(Run(calls), t, v);
    if MayWrite(calls, u, v) {
      WriterIsAlone(calls, u, v);
    }
  }

  /** A lock held for writing was granted for writing. */
  lemma {:induction false} WriteLockHasWriter(calls: seq<Call>, t: Txn, v: ValueId)
    requires Holds(Run(calls), t, v) && Run(calls).locks[v].kind == ReadWrite
    ensures MayWrite(calls, t, v)
  {
    var before, last := calls[..|calls| - 1], calls[|calls| - 1];
    var st := Run(before);
    RunConsistent(before);
    match last
    case AcquireCall(u, w, perm) =>
      AcquireHolds(st, u, w, perm);
      if !(u == t && w == v && perm == ReadWrite && Acquire(st, u, w, perm).1) {
        WriteLockHadHolder(st, t, v, u, w, perm);
        WriteLockHasWriter(before, t, v);
      }
    case ReleaseCall(u, w) =>
      ReleaseFacts(st, u, w);
      WriteLockHasWriter(before, t, v);
    case ReleaseAllCall(u) =>
      ReleaseAllFacts(st, u);
      WriteLockHasWriter(before, t, v);
  }

  lemma WriteLockHadHolder(st: State, t: Txn, v: ValueId, u: Txn, w: ValueId, perm: Permission)
    requires Consistent(st)
    requires var (e, ok) := Acquire(st, u, w, perm);
             Holds(e, t, v) && e.locks[v].kind == ReadWrite && !(u == t && w == v && perm == ReadWrite && ok)
    ensures Holds(st, t, v) && st.locks[v].kind == ReadWrite
  {
    AcquireHolds(st, u, w, perm);
  }

  /** Some transaction other than `u` may write the value. */
  ghost predicate OtherWriter(calls: seq<Call>, u: Txn, v: ValueId) { exists t :: t != u && MayWrite(calls, t, v) }

  /** When a request is granted, over whole runs: for reading exactly when no other transaction may write the value,
      for writing exactly when no other transaction holds it. */
  lemma GrantedExactly(calls: seq<Call>, u: Txn, v: ValueId)
    ensures Acquire(Run(calls), u, v, ReadOnly).1 <==> !OtherWriter(calls, u, v)
    ensures Acquire(Run(calls), u, v, ReadWrite).1 <==> forall t :: t != u ==> !Holds(Run(calls), t, v)
  {
    var st := Run(calls);
    RunConsistent(calls);
    AcquireGrants(st, u, v, ReadOnly);
    AcquireGrants(st, u, v, ReadWrite);
    if OtherWriter(calls, u, v) {
      var t :| t != u && MayWrite(calls, t, v);
      LockSafety(calls, t, v, u, ReadOnly);
    }
    if !Acquire(st, u, v, ReadOnly).1 {
      var t :| t != u && Holds(st, t, v) && st.locks[v].kind != ReadOnly;
      WriteLockHasWriter(calls, t, v);
    }
  }

  /** So readers share: after a granted read on a fresh value, every other read of it is granted, too. */
  lemma ReadersShare(calls: seq<Call>, t: Txn, u: Txn, v: ValueId)
    requires v !in Run(calls).locks
    ensures var more := calls + [AcquireCall(t, v, ReadOnly)];
      Holds(Run(more), t, v) && Acquire(Run(more), u, v, ReadOnly).1
  {
    var call := AcquireCall(t, v, ReadOnly);
    var more := calls + [call];
    assert more[..|more| - 1] == calls;
    GrantedExactly(more, u, v);
    forall w ensures !MayWrite(more, w, v) {
      if MayWrite(calls, w, v) {
        WriterIsAlone(calls, w, v);
      }
    }
  }

  // ----- the object -----

  class LockManager {
    var locks: map<ValueId, Lock>
    var pages: map<Txn, seq<ValueId>>

    ghost function Now(): State
      reads this
    {
      State(locks, pages)
    }

    constructor ()
      ensures Now() == State(map[], map[]) && Consistent(Now())
    {
      locks, pages := map[], map[];
    }

    method Clear()
      modifies this
      ensures Now() == State(map[], map[]) && Consistent(Now())
    {
      locks, pages := map[], map[];
    }

    method AcquireLock(t: Txn, v: ValueId, perm: Permission) returns (ok: bool)
      requires Consistent(Now())
      modifies this
      ensures (Now(), ok) == Acquire(old(Now()), t, v, perm) && Consistent(Now())
    {
      AcquireConsistent(Now(), t, v, perm);
      if t !in pages {
        pages := pages[t := []];
      }
      if v !in locks {
        locks := locks[v := Lock([t], perm)];
        pages := pages[t := pages[t] + [v]];
        return true;
      }
      var lock := locks[v];
      match perm
      case ReadOnly =>
        if lock.kind == ReadWrite {
          return t in lock.holders;
        } else if t in lock.holders {
          return true;
        } else {
          locks := locks[v := lock.(holders := lock.holders + [t])];
          pages := pages[t := pages[t] + [v]];
          return true;
        }
      case ReadWrite =>
        if |lock.holders| == 1 && t in lock.holders {
          if lock.kind == ReadOnly {
            locks := locks[v := lock.(kind := ReadWrite)];
          }
          assert locks == old(locks)[v := lock.(kind := ReadWrite)];
          return true;
        }
        return false;
    }

    method GetPageIds(t: Txn) returns (vs: seq<ValueId>)
      ensures vs == PageIds(Now(), t)
    {
      vs := if t in pages then pages[t] else [];
    }

    method ReleaseLock(t: Txn, v: ValueId) returns (ok: bool)
      requires Consistent(Now())
      modifies this
      ensures (Now(), ok) == Release(old(Now()), t, v) && Consistent(Now())
    {
      ReleaseFacts(Now(), t, v);
      if t !in pages {
        return false;
      }
      if v !in locks || t !in locks[v].holders {
        return false;
      }
      if |locks[v].holders| == 1 {
        locks := locks - {v};
      } else {
        locks := locks[v := locks[v].(holders := Without(locks[v].holders, t))];
      }
      pages := pages[t := Without(pages[t], v)];
      return true;
    }

    method ReleaseLocks(t: Txn) returns (ok: bool)
      requires Consistent(Now())
      modifies this
      ensures (Now(), ok) == ReleaseAll(old(Now()), t) && Consistent(Now())
    {
      ReleaseAllFacts(Now(), t);
      var todo := GetPageIds(t);
      if todo == [] {
        return false;
      }
      ghost var all := todo;
      while todo != []
        invariant Consistent(Now())
        invariant ReleaseEach(Now(), t, todo) == ReleaseEach(old(Now()), t, all)
        decreases |todo|
      {
        var released := ReleaseLock(t, todo[0]);
        if !released {
          return false;
        }
        todo := todo[1..];
      }
      return true;
    }
  }
}
