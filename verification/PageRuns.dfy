/** Insertion and deletion on page bytes, and whole runs of them: every run
    refines a plain sequence of optional values. */
module PageRuns {
  import opened Options
  import opened PageLayout
  import opened PageSpec

  // ----- the operations -----

  function NeedsNewSlot(d: Bytes): bool
    requires Fits(d)
  {
    LowestFree(Directory(d), 0) >= NumSlots(d)
  }

  function ExtraHeader(d: Bytes): nat
    requires Fits(d)
  {
    if NeedsNewSlot(d) then SLOT_META else 0
  }

  /** The compaction decision of `add_value`. */
  function MakeContiguous(d: Bytes, len: nat): (e: Bytes)
    requires Valid(d)
    ensures |e| == PAGE_SIZE
  {
    if SatSub(PAGE_SIZE, FreeStart(d) + ExtraHeader(d)) < len then Compacted(d) else d
  }

  /** Grows the directory by one entry. */
  function Grow(d: Bytes): (e: Bytes)
    requires Fits(d) && HeaderSize(d) + SLOT_META <= PAGE_SIZE
    ensures |e| == PAGE_SIZE
  {
    PutNumSlots(if NumSlots(d) > 0 then Shifted(d) else d, NumSlots(d) + 1)
  }

  /** Copies the value to `at`, points the entry at it and advances the free pointer. */
  function Store(d: Bytes, s: nat, at: nat, v: Bytes): (e: Bytes)
    requires HasEntry(d, s) && at + |v| <= PAGE_SIZE
    ensures |e| == PAGE_SIZE
  {
    PutFreeStart(PutSlot(Splice(d, at, v), s, Slot(at, |v|, IN_USE)), at + |v|)
  }

  function Refused(d: Bytes, v: Bytes): bool
    requires Fits(d)
  {
    |v| > PAGE_SIZE || FreeSpace(d) < |v| + ExtraHeader(d)
  }

  /** `add_value`: the new bytes and the slot id, if any. */
  function Add(d: Bytes, v: Bytes): (r: (Bytes, Option<nat>))
    requires Valid(d)
    ensures |r.0| == PAGE_SIZE
  {
    if Refused(d, v) then (d, None)
    else
      var c := MakeContiguous(d, |v|);
      ContiguousHeader(d, |v|);
      var g := if NeedsNewSlot(d) then Grow(c) else c;
      var s := LowestFree(Directory(d), 0);
      var at := FreeStart(g);
      if at + |v| > PAGE_SIZE then (g, None) else (Store(g, s, at, v), Some(s))
  }

  function Delete(d: Bytes, s: nat): (r: (Bytes, bool))
    requires Fits(d)
    ensures |r.0| == PAGE_SIZE
  {
    if s >= NumSlots(d) || SlotAt(d, s).flag != IN_USE then (d, false)
    else (d[BodyStart(s) + 4 := FREE], true)
  }

  // ----- the one case `add_value` gets wrong -----

  /** An empty value needs a new entry on a page whose body ends less than an
      entry away from the page end: no compaction happens, and the shift drops
      the last bytes of the body. */
  predicate Overrun(d: Bytes, v: Bytes)
    requires Fits(d)
  {
    v == [] && !Refused(d, v) && NeedsNewSlot(d) && NumSlots(d) > 0 && FreeStart(d) + SLOT_META > PAGE_SIZE
  }

  // ----- reading a valid page -----

  lemma ValidReads(d: Bytes)
    requires Valid(d)
    ensures FreeStart(d) == StoredFreeStart(d)
    ensures LowestNone(Abs(d), 0) == LowestFree(Directory(d), 0)
    ensures Total(Abs(d)) == LiveTotal(Directory(d))
    ensures FreeSpace(d) == Room(Abs(d))
  {
    var dir, a := Directory(d), Abs(d);
    forall s | 0 <= s < |a|
      ensures a[s].None? <==> dir[s].flag == FREE
      ensures ValueLen(a[s]) == LiveLen(dir[s])
    {
      assert Inside(dir[s], HeaderSize(d), StoredFreeStart(d));
    }
    LowestAgree(dir, a, 0);
    TotalAgree(dir, a);
  }

  lemma {:induction false} LowestAgree(dir: seq<Slot>, a: AbstractPage, s: nat)
    requires |a| == |dir| && s <= |a| && forall t :: 0 <= t < |a| ==> (a[t].None? <==> dir[t].flag == FREE)
    ensures LowestNone(a, s) == LowestFree(dir, s)
    decreases |a| - s
  {
    if s < |a| {
      LowestAgree(dir, a, s + 1);
    }
  }

  lemma {:induction false} TotalAgree(dir: seq<Slot>, a: AbstractPage)
    requires |a| == |dir| && forall t :: 0 <= t < |a| ==> ValueLen(a[t]) == LiveLen(dir[t])
    ensures Total(a) == LiveTotal(dir)
  {
    if a != [] {
      TotalAgree(dir[..|a| - 1], a[..|a| - 1]);
    }
  }

  // ----- making room -----

  lemma ContiguousHeader(d: Bytes, len: nat)
    requires Valid(d)
    ensures var c := MakeContiguous(d, len);
            Fits(c) && NumSlots(c) == NumSlots(d) && PageId(c) == PageId(d) && SameValues(d, c)
    ensures ExtraHeader(d) <= FreeSpace(d) ==> HeaderSize(d) + ExtraHeader(d) <= PAGE_SIZE
  {
    CompactedFacts(d);
    SameValuesReflexive(d);
  }

  lemma SameValuesReflexive(d: Bytes)
    requires Fits(d)
    ensures SameValues(d, d)
  {
  }

  /** What `add_value` needs before it grows or stores: the records fill [header, free) and the value fits behind. */
  predicate Roomy(d: Bytes, need: nat) {
    && Fits(d) && HeaderSize(d) <= StoredFreeStart(d)
    && StoredFreeStart(d) + need <= PAGE_SIZE
    && Regions(Directory(d), HeaderSize(d), StoredFreeStart(d))
    && HeaderSize(d) + LiveTotal(Directory(d)) <= StoredFreeStart(d)
  }

  /** Away from the overrun, the value and its entry fit behind the records. */
  lemma ContiguousRoomy(d: Bytes, v: Bytes)
    requires Valid(d) && !Refused(d, v) && !Overrun(d, v)
    ensures Roomy(MakeContiguous(d, |v|), |v| + ExtraHeader(d))
  {
    ValidReads(d);
    if SatSub(PAGE_SIZE, FreeStart(d) + ExtraHeader(d)) < |v| {
      CompactedFacts(d);
      SameLiveTotal(d, Compacted(d));
    }
  }

  /** `g` is `d` with slot `s` out of use and room for a value behind: what `Store` starts from. */
  predicate Ready(d: Bytes, g: Bytes, s: nat)
    requires Fits(d)
  {
    && Fits(g) && s < NumSlots(g) && PageId(g) == PageId(d)
    && NumSlots(g) == (if s < NumSlots(d) then NumSlots(d) else NumSlots(d) + 1)
    && HeaderSize(g) <= FreeStart(g)
    && Regions(Without(g, s), HeaderSize(g), FreeStart(g))
    && HeaderSize(g) + LiveTotal(Without(g, s)) <= FreeStart(g)
    && (forall t :: 0 <= t < NumSlots(g) && t != s ==>
          t < NumSlots(d) && SameSlot(d, Directory(d)[t], g, Directory(g)[t]))
  }

  const EMPTY_SLOT := Slot(0, 0, FREE)

  function Without(g: Bytes, s: nat): seq<Slot>
    requires Fits(g) && s < NumSlots(g)
  {
    Directory(g)[s := EMPTY_SLOT]
  }

  lemma WithoutRegions(dir: seq<Slot>, s: nat, lo: nat, hi: nat)
    requires s < |dir| && Regions(dir, lo, hi) && !Live(dir[s])
    ensures Regions(dir[s := EMPTY_SLOT], lo, hi) && LiveTotal(dir[s := EMPTY_SLOT]) == LiveTotal(dir)
  {
    LiveTotalUpdate(dir, s, EMPTY_SLOT);
    var e := dir[s := EMPTY_SLOT];
    forall t | 0 <= t < |e| ensures Inside(e[t], lo, hi) {
      assert Inside(dir[t], lo, hi);
    }
  }

  /** Reusing a free slot needs no growth. */
  lemma ReuseReady(d: Bytes, c: Bytes, s: nat)
    requires Fits(d) && Roomy(c, 0) && SameValues(d, c) && PageId(c) == PageId(d)
    requires s < NumSlots(d) && Directory(d)[s].flag == FREE
    ensures Ready(d, c, s) && FreeStart(c) == StoredFreeStart(c)
  {
    assert SameSlot(d, Directory(d)[s], c, Directory(c)[s]);
    WithoutRegions(Directory(c), s, HeaderSize(c), FreeStart(c));
    forall t | 0 <= t < NumSlots(c) && t != s
      ensures t < NumSlots(d) && SameSlot(d, Directory(d)[t], c, Directory(c)[t])
    {
      assert SameSlot(d, Directory(d)[t], c, Directory(c)[t]);
    }
  }

  /** The first slot of an empty page. */
  lemma GrowEmpty(c: Bytes)
    requires Roomy(c, SLOT_META) && NumSlots(c) == 0
    ensures var g := Grow(c);
            Ready(c, g, 0) && FreeStart(g) <= StoredFreeStart(c) + SLOT_META
  {
    PutNumSlotsFrame(c);
    var g := Grow(c);
    assert Without(g, 0) == [EMPTY_SLOT];
    assert LiveTotal([EMPTY_SLOT]) == 0 by { assert [EMPTY_SLOT][..0] == []; }
  }

  /** Growing appends one free entry to a shifted directory. */
  lemma AppendSlot(dir: seq<Slot>, x: Slot, lo: nat, hi: nat)
    requires Regions(dir, lo, hi)
    ensures var e := (dir + [x])[|dir| := EMPTY_SLOT];
            Regions(e, lo, hi) && LiveTotal(e) == LiveTotal(dir)
  {
    var e := (dir + [x])[|dir| := EMPTY_SLOT];
    assert e[..|dir|] == dir;
    forall t | 0 <= t < |e| ensures Inside(e[t], lo, hi) {
      assert t < |dir| ==> Inside(dir[t], lo, hi);
    }
  }

  lemma GrowShifted(c: Bytes, h: Bytes)
    requires Roomy(c, SLOT_META) && ShiftedBy6(c, h) && h == Shifted(c) && NumSlots(c) > 0
    ensures var g := Grow(c);
            Ready(c, g, NumSlots(c)) && FreeStart(g) == StoredFreeStart(c) + SLOT_META
  {
    PutNumSlotsFrame(h);
    ReadyShifted(c, h, Grow(c));
  }

  lemma ReadyShifted(c: Bytes, h: Bytes, g: Bytes)
    requires Roomy(c, SLOT_META) && ShiftedBy6(c, h) && Fits(g) && NumSlots(c) > 0
    requires Directory(g) == Directory(h) + [SlotAt(h, NumSlots(c))] && PageId(g) == PageId(h)
    requires StoredFreeStart(g) == StoredFreeStart(h)
    requires forall k :: FREE_START_OFFSET <= k < PAGE_SIZE ==> g[k] == h[k]
    ensures Ready(c, g, NumSlots(c)) && FreeStart(g) == StoredFreeStart(c) + SLOT_META
  {
    SameLiveTotal(c, h);
    AppendSlot(Directory(h), SlotAt(h, NumSlots(c)), HeaderSize(g), FreeStart(g));
    forall t | 0 <= t < NumSlots(c) ensures SameSlot(c, Directory(c)[t], g, Directory(g)[t]) {
      GrownSlot(c, h, g, t);
    }
  }

  lemma GrownSlot(c: Bytes, h: Bytes, g: Bytes, t: nat)
    requires Fits(c) && ShiftedBy6(c, h) && Fits(g) && t < NumSlots(c) <= NumSlots(g)
    requires Directory(g)[t] == Directory(h)[t] && (forall k :: FREE_START_OFFSET <= k < PAGE_SIZE ==> g[k] == h[k])
    ensures SameSlot(c, Directory(c)[t], g, Directory(g)[t])
  {
    var x := Directory(h)[t];
    assert SameSlot(c, Directory(c)[t], h, x);
    assert Inside(x, HeaderSize(c) + SLOT_META, FreeStart(c) + SLOT_META);
    if Live(x) {
      UntouchedSlot(h, g, x);
    }
  }

  lemma ReadyVia(d: Bytes, c: Bytes, g: Bytes)
    requires Fits(d) && Fits(c) && SameValues(d, c) && PageId(c) == PageId(d) && Ready(c, g, NumSlots(c))
    ensures Ready(d, g, NumSlots(d))
  {
    forall t | 0 <= t < NumSlots(g) && t != NumSlots(d)
      ensures t < NumSlots(d) && SameSlot(d, Directory(d)[t], g, Directory(g)[t])
    {
      assert SameSlot(d, Directory(d)[t], c, Directory(c)[t]);
      assert SameSlot(c, Directory(c)[t], g, Directory(g)[t]);
    }
  }

  lemma GrowReady(d: Bytes, c: Bytes)
    requires Fits(d) && Roomy(c, SLOT_META) && SameValues(d, c) && PageId(c) == PageId(d)
    ensures HeaderSize(c) + SLOT_META <= PAGE_SIZE
    ensures Ready(d, Grow(c), NumSlots(d)) && FreeStart(Grow(c)) <= StoredFreeStart(c) + SLOT_META
  {
    if NumSlots(c) == 0 {
      GrowEmpty(c);
    } else {
      ShiftedFacts(c);
      GrowShifted(c, Shifted(c));
    }
    ReadyVia(d, c, Grow(c));
  }

  // ----- storing the value -----

  lemma StoreFrame(g: Bytes, s: nat, at: nat, v: Bytes)
    requires Fits(g) && s < NumSlots(g) && HeaderSize(g) <= at && at + |v| <= PAGE_SIZE
    ensures var e := Store(g, s, at, v);
            && Fits(e) && PageId(e) == PageId(g) && StoredFreeStart(e) == at + |v|
            && Directory(e) == Directory(g)[s := Slot(at, |v|, IN_USE)]
            && e[at..at + |v|] == v
            && (forall k :: HeaderSize(g) <= k < PAGE_SIZE && !(at <= k < at + |v|) ==> e[k] == g[k])
  {
    var x := Slot(at, |v|, IN_USE);
    var a := Splice(g, at, v);
    SameDirectory(g, a);
    PutSlotBody(a, s, x);
    PutFreeStartFrame(PutSlot(a, s, x), at + |v|);
    var e := Store(g, s, at, v);
    assert e[at..at + |v|] == a[at..at + |v|] == v;
  }

  /** The new record extends the body by its own length and nothing else. */
  lemma StoreDirectory(dir: seq<Slot>, s: nat, lo: nat, at: nat, len: nat)
    requires s < |dir| && Regions(dir[s := EMPTY_SLOT], lo, at) && lo == BodyStart(|dir|) <= at && at + len <= PAGE_SIZE
    requires lo + LiveTotal(dir[s := EMPTY_SLOT]) <= at
    ensures ValidDirectory(dir[s := Slot(at, len, IN_USE)], at + len)
    ensures LiveTotal(dir[s := Slot(at, len, IN_USE)]) == LiveTotal(dir[s := EMPTY_SLOT]) + len
  {
    var w, e := dir[s := EMPTY_SLOT], dir[s := Slot(at, len, IN_USE)];
    assert e == w[s := Slot(at, len, IN_USE)];
    LiveTotalUpdate(w, s, Slot(at, len, IN_USE));
    forall t | 0 <= t < |e| ensures Inside(e[t], lo, at + len) {
      assert Inside(w[t], lo, at);
    }
    forall t, u | 0 <= t < u < |e| && Live(e[t]) && Live(e[u]) ensures Apart(e[t], e[u]) {
      assert Inside(w[t], lo, at) && Inside(w[u], lo, at);
      assert t != s && u != s ==> Apart(w[t], w[u]);
    }
    assert Live(e[s]) && e[s].off + e[s].len == at + len;
  }

  ghost predicate Stored(d: Bytes, e: Bytes, s: nat, v: Bytes)
    requires Fits(d)
  {
    && Valid(e) && PageId(e) == PageId(d)
    && NumSlots(e) == (if s < NumSlots(d) then NumSlots(d) else NumSlots(d) + 1)
    && s < NumSlots(e) && GetValue(e, s) == Some(v)
    && (forall t :: 0 <= t < NumSlots(e) && t != s ==> t < NumSlots(d) && GetValue(e, t) == GetValue(d, t))
  }

  lemma StoreValue(d: Bytes, g: Bytes, e: Bytes, s: nat, t: nat)
    requires Fits(d) && Ready(d, g, s) && Fits(e) && NumSlots(e) == NumSlots(g) && 0 <= t < NumSlots(g) && t != s
    requires Directory(e)[t] == Directory(g)[t]
    requires forall k :: HeaderSize(g) <= k < FreeStart(g) ==> e[k] == g[k]
    ensures t < NumSlots(d) && GetValue(e, t) == GetValue(d, t)
  {
    var x := Directory(g)[t];
    assert SameSlot(d, Directory(d)[t], g, x);
    assert Without(g, s)[t] == x;
    assert Inside(x, HeaderSize(g), FreeStart(g));
    if Live(x) {
      UntouchedSlot(g, e, x);
    }
  }

  lemma StoreFacts(d: Bytes, g: Bytes, s: nat, v: Bytes)
    requires Fits(d) && Ready(d, g, s) && FreeStart(g) + |v| <= PAGE_SIZE
    ensures HasEntry(g, s) && Stored(d, Store(g, s, FreeStart(g), v), s, v)
  {
    var at := FreeStart(g);
    var e := Store(g, s, at, v);
    StoreFrame(g, s, at, v);
    assert Valid(e) by {
      StoreDirectory(Directory(g), s, HeaderSize(g), at, |v|);
    }
    StoredFrom(d, g, e, s, v);
  }

  lemma StoredValue(e: Bytes, s: nat, at: nat, v: Bytes)
    requires Fits(e) && s < NumSlots(e) && at + |v| <= PAGE_SIZE && e[at..at + |v|] == v
    requires Directory(e)[s] == Slot(at, |v|, IN_USE)
    ensures GetValue(e, s) == Some(v)
  {
  }

  lemma StoredFrom(d: Bytes, g: Bytes, e: Bytes, s: nat, v: Bytes)
    requires Fits(d) && Ready(d, g, s) && Valid(e) && PageId(e) == PageId(g)
    requires var at := FreeStart(g);
             && at + |v| <= PAGE_SIZE && Directory(e) == Directory(g)[s := Slot(at, |v|, IN_USE)]
             && e[at..at + |v|] == v && (forall k :: HeaderSize(g) <= k < at ==> e[k] == g[k])
    ensures Stored(d, e, s, v)
  {
    StoredValue(e, s, FreeStart(g), v);
    forall t | 0 <= t < NumSlots(e) && t != s ensures t < NumSlots(d) && GetValue(e, t) == GetValue(d, t) {
      assert Directory(e)[t] == Directory(g)[t];
      StoreValue(d, g, e, s, t);
    }
  }

  /** Away from the overrun, `add_value` on a page that has room stores the value in the lowest
      free slot and changes no other slot; the late None is unreachable. */
  lemma AddStores(d: Bytes, v: Bytes)
    requires Valid(d) && !Refused(d, v) && !Overrun(d, v)
    ensures var s := LowestFree(Directory(d), 0);
            Add(d, v).1 == Some(s) && Stored(d, Add(d, v).0, s, v)
  {
    var s := LowestFree(Directory(d), 0);
    var c := MakeContiguous(d, |v|);
    ContiguousHeader(d, |v|);
    ContiguousRoomy(d, v);
    if NeedsNewSlot(d) {
      GrowReady(d, c);
      StoreReady(d, v, c, Grow(c), s);
    } else {
      ReuseReady(d, c, s);
      StoreReady(d, v, c, c, s);
    }
  }

  lemma StoreReady(d: Bytes, v: Bytes, c: Bytes, g: Bytes, s: nat)
    requires Valid(d) && !Refused(d, v) && c == MakeContiguous(d, |v|) && s == LowestFree(Directory(d), 0)
    requires if NeedsNewSlot(d) then Fits(c) && HeaderSize(c) + SLOT_META <= PAGE_SIZE && g == Grow(c) else g == c
    requires Ready(d, g, s) && FreeStart(g) + |v| <= PAGE_SIZE
    ensures Add(d, v).1 == Some(s) && Stored(d, Add(d, v).0, s, v)
  {
    StoreFacts(d, g, s, v);
    assert Add(d, v) == (Store(g, s, FreeStart(g), v), Some(s));
  }

  lemma StoredAbs(d: Bytes, e: Bytes, s: nat, v: Bytes)
    requires Fits(d) && Stored(d, e, s, v) && s <= NumSlots(d)
    ensures Abs(e) == if s == NumSlots(d) then Abs(d) + [Some(v)] else Abs(d)[s := Some(v)]
  {
    var a := if s == NumSlots(d) then Abs(d) + [Some(v)] else Abs(d)[s := Some(v)];
    forall t | 0 <= t < |a| ensures Abs(e)[t] == a[t] {
      assert t != s ==> GetValue(e, t) == GetValue(d, t);
    }
  }

  /** `add_value` refines insertion into the abstract page, whether it stores or refuses. */
  lemma AddRefines(d: Bytes, v: Bytes)
    requires Valid(d) && !Overrun(d, v)
    ensures var (e, r) := Add(d, v);
            && Valid(e) && PageId(e) == PageId(d)
            && (Abs(e), r) == AbsAdd(Abs(d), v)
            && (r == None ==> e == d)
  {
    if Refused(d, v) {
      RefusedAbs(d, v);
    } else {
      AddStores(d, v);
      StoredRefines(d, Add(d, v).0, LowestFree(Directory(d), 0), v);
    }
  }

  lemma RefusedAbs(d: Bytes, v: Bytes)
    requires Valid(d)
    ensures Refused(d, v) <==> AbsAdd(Abs(d), v) == (Abs(d), None)
  {
    ValidReads(d);
  }

  lemma StoredRefines(d: Bytes, e: Bytes, s: nat, v: Bytes)
    requires Valid(d) && !Refused(d, v) && s == LowestFree(Directory(d), 0) && Stored(d, e, s, v)
    ensures AbsAdd(Abs(d), v) == (Abs(e), Some(s))
  {
    ValidReads(d);
    StoredAbs(d, e, s, v);
  }

  /** `delete_value` refines erasure, and succeeds exactly on live slots. */
  lemma DeleteRefines(d: Bytes, s: nat)
    requires Valid(d)
    ensures var (e, ok) := Delete(d, s);
            && Valid(e) && PageId(e) == PageId(d)
            && (Abs(e), ok) == AbsDelete(Abs(d), s)
            && (!ok ==> e == d)
  {
    var (e, ok) := Delete(d, s);
    if s < NumSlots(d) {
      assert Inside(Directory(d)[s], HeaderSize(d), StoredFreeStart(d));
    }
    if ok {
      DeleteFrame(d, e, s);
      DeleteDirectory(Directory(d), s, StoredFreeStart(d));
      forall t | 0 <= t < NumSlots(d) ensures Abs(e)[t] == Abs(d)[s := None][t] {
        var x := Directory(d)[t];
        assert Inside(x, HeaderSize(d), StoredFreeStart(d));
        if t != s && Live(x) {
          UntouchedSlot(d, e, x);
        }
      }
      assert Abs(e) == Abs(d)[s := None];
    }
  }

  lemma DeleteFrame(d: Bytes, e: Bytes, s: nat)
    requires Fits(d) && s < NumSlots(d) && e == d[BodyStart(s) + 4 := FREE]
    ensures Fits(e) && PageId(e) == PageId(d) && StoredFreeStart(e) == StoredFreeStart(d)
    ensures Directory(e) == Directory(d)[s := Directory(d)[s].(flag := FREE)]
    ensures forall k :: HeaderSize(d) <= k < PAGE_SIZE ==> e[k] == d[k]
  {
    assert BodyStart(s) + SLOT_META <= HeaderSize(d);
    forall t | 0 <= t < NumSlots(d)
      ensures Directory(e)[t] == Directory(d)[s := Directory(d)[s].(flag := FREE)][t]
    {
      if t != s {
        assert BodyStart(t) + SLOT_META <= BodyStart(s) || BodyStart(s) + SLOT_META <= BodyStart(t);
        SameEntry(d, e, t);
      }
    }
  }

  lemma DeleteDirectory(dir: seq<Slot>, s: nat, free: nat)
    requires ValidDirectory(dir, free) && s < |dir| && Live(dir[s])
    ensures ValidDirectory(dir[s := dir[s].(flag := FREE)], free)
    ensures LiveTotal(dir[s := dir[s].(flag := FREE)]) == LiveTotal(dir) - dir[s].len
  {
    var x := dir[s].(flag := FREE);
    var e := dir[s := x];
    LiveTotalUpdate(dir, s, x);
    forall t | 0 <= t < |e| ensures Inside(e[t], BodyStart(|dir|), free) {
      assert Inside(dir[t], BodyStart(|dir|), free);
    }
    assert e[s].flag == FREE;
  }

  // ----- whole runs -----

  datatype Op = Insert(value: Bytes) | Erase(slot: nat)

  datatype Answer = Inserted(slot: Option<nat>) | Erased(ok: bool)

  function Step(d: Bytes, op: Op): (r: (Bytes, Answer))
    requires Valid(d)
    ensures |r.0| == PAGE_SIZE
  {
    match op
    case Insert(v) => var (e, r) := Add(d, v); (e, Inserted(r))
    case Erase(s) => var (e, ok) := Delete(d, s); (e, Erased(ok))
  }

  function AbsStep(a: AbstractPage, op: Op): (AbstractPage, Answer) {
    match op
    case Insert(v) => var (b, r) := AbsAdd(a, v); (b, Inserted(r))
    case Erase(s) => var (b, ok) := AbsDelete(a, s); (b, Erased(ok))
  }

  function AbsRun(a: AbstractPage, ops: seq<Op>): (r: (AbstractPage, seq<Answer>))
    ensures |r.1| == |ops|
    decreases |ops|
  {
    if ops == [] then (a, [])
    else
      var (b, r) := AbsStep(a, ops[0]);
      var (c, rs) := AbsRun(b, ops[1..]);
      (c, [r] + rs)
  }

  predicate Overruns(d: Bytes, op: Op)
    requires Valid(d)
  {
    op.Insert? && Overrun(d, op.value)
  }

  /** No step of the run overruns, so that it stays on valid pages. */
  predicate NoOverrun(d: Bytes, ops: seq<Op>)
    requires Valid(d)
    decreases |ops|
  {
    ops == [] || (!Overruns(d, ops[0]) && (StepRefines(d, ops[0]); NoOverrun(Step(d, ops[0]).0, ops[1..])))
  }

  ghost predicate NonEmptyValues(ops: seq<Op>) {
    forall i :: 0 <= i < |ops| && ops[i].Insert? ==> ops[i].value != []
  }

  /** Non-empty values never overrun. */
  lemma {:induction false} NonEmptyNoOverrun(d: Bytes, ops: seq<Op>)
    requires Valid(d) && NonEmptyValues(ops)
    ensures NoOverrun(d, ops)
    decreases |ops|
  {
    if ops != [] {
      StepRefines(d, ops[0]);
      NonEmptyNoOverrun(Step(d, ops[0]).0, ops[1..]);
    }
  }

  function Run(d: Bytes, ops: seq<Op>): (r: (Bytes, seq<Answer>))
    requires Valid(d) && NoOverrun(d, ops)
    ensures |r.0| == PAGE_SIZE
    decreases |ops|
  {
    if ops == [] then (d, [])
    else
      StepRefines(d, ops[0]);
      var (e, r) := Step(d, ops[0]);
      var (f, rs) := Run(e, ops[1..]);
      (f, [r] + rs)
  }

  lemma StepRefines(d: Bytes, op: Op)
    requires Valid(d) && !Overruns(d, op)
    ensures var (e, r) := Step(d, op);
            Valid(e) && PageId(e) == PageId(d) && (Abs(e), r) == AbsStep(Abs(d), op)
  {
    match op
    case Insert(v) => AddRefines(d, v);
    case Erase(s) => DeleteRefines(d, s);
  }

  /** A step answers and stores as the abstract page does exactly when it does not overrun. */
  lemma StepExact(d: Bytes, op: Op)
    requires Valid(d)
    ensures var (e, r) := Step(d, op);
            Fits(e) && ((Abs(e), r) == AbsStep(Abs(d), op) <==> !Overruns(d, op))
  {
    if !Overruns(d, op) {
      StepRefines(d, op);
    } else {
      var s := OverrunLoses(d, op.value);
      AbsAddKeeps(Abs(d), op.value, s);
    }
  }

  lemma AbsAddKeeps(a: AbstractPage, v: Bytes, s: nat)
    requires s < |a| && a[s].Some?
    ensures s < |AbsAdd(a, v).0| && AbsAdd(a, v).0[s] == a[s]
  {
  }

  /** Every run of insertions and deletions without an overrun answers as the abstract page does and leaves a
      page that reads as the abstract page does. */
  lemma {:induction false} RunRefines(d: Bytes, ops: seq<Op>)
    requires Valid(d) && NoOverrun(d, ops)
    ensures var (e, rs) := Run(d, ops);
            Valid(e) && PageId(e) == PageId(d) && (Abs(e), rs) == AbsRun(Abs(d), ops)
    decreases |ops|
  {
    if ops != [] {
      StepRefines(d, ops[0]);
      RunRefines(Step(d, ops[0]).0, ops[1..]);
    }
  }

  lemma NewPageValid(pageId: nat)
    requires pageId < 65536
    ensures Valid(NewPage(pageId)) && PageId(NewPage(pageId)) == pageId && Abs(NewPage(pageId)) == []
  {
    NewPageHeader(pageId);
  }

  /** Header, live bytes and free space always add up to the page. */
  lemma SpaceConserved(d: Bytes)
    requires Valid(d)
    ensures HeaderSize(d) + LiveTotal(Directory(d)) + FreeSpace(d) == PAGE_SIZE
  {
  }

  lemma {:induction false} TotalUpdate(a: AbstractPage, s: nat, v: Option<Bytes>)
    requires s < |a|
    ensures Total(a[s := v]) == Total(a) - ValueLen(a[s]) + ValueLen(v)
  {
    var last := |a| - 1;
    if s == last {
      assert a[s := v][..last] == a[..last];
    } else {
      TotalUpdate(a[..last], s, v);
      assert a[s := v][..last] == a[..last][s := v];
    }
  }

  /** A successful insertion costs the value plus any new entry. */
  lemma AddCosts(d: Bytes, v: Bytes)
    requires Valid(d) && !Overrun(d, v) && Add(d, v).1.Some?
    ensures Fits(Add(d, v).0) && FreeSpace(Add(d, v).0) == FreeSpace(d) - |v| - ExtraHeader(d)
  {
    AddRefines(d, v);
    AbsAddCosts(Abs(d), v);
    ValidReads(d);
    ValidReads(Add(d, v).0);
  }

  lemma AbsAddCosts(a: AbstractPage, v: Bytes)
    requires AbsAdd(a, v).1.Some?
    ensures Room(AbsAdd(a, v).0) == Room(a) - |v| - (if LowestNone(a, 0) == |a| then SLOT_META else 0)
  {
    var s := LowestNone(a, 0);
    if s == |a| {
      assert (a + [Some(v)])[..|a|] == a;
    } else {
      TotalUpdate(a, s, Some(v));
    }
  }

  /** A successful deletion gives back exactly the record's bytes. */
  lemma DeleteFrees(d: Bytes, s: nat)
    requires Valid(d) && Delete(d, s).1
    ensures GetValue(d, s).Some? && Fits(Delete(d, s).0)
    ensures FreeSpace(Delete(d, s).0) == FreeSpace(d) + |GetValue(d, s).value|
  {
    ValidReads(d);
    DeleteRefines(d, s);
    ValidReads(Delete(d, s).0);
    TotalUpdate(Abs(d), s, None);
  }

  // ----- the overrun -----

  lemma ShiftedDirectory(d: Bytes)
    requires Fits(d) && HeaderSize(d) + SLOT_META <= PAGE_SIZE
    ensures var e := Shifted(d);
            && Fits(e) && NumSlots(e) == NumSlots(d) && Directory(e) == BumpedDirectory(Directory(d), NumSlots(d))
            && StoredFreeStart(e) == Min(FreeStart(d) + SLOT_META, PAGE_SIZE)
  {
    ShiftBodyFrame(d);
    BumpedFrame(ShiftBody(d), NumSlots(d));
    PutFreeStartFrame(Bumped(ShiftBody(d), NumSlots(d)), Min(FreeStart(d) + SLOT_META, PAGE_SIZE));
  }

  lemma GrowHeader(d: Bytes)
    requires Valid(d) && HeaderSize(d) + SLOT_META <= PAGE_SIZE
    ensures var g := Grow(d);
            && Fits(g) && NumSlots(g) == NumSlots(d) + 1
            && FreeStart(g) == Min(FreeStart(d) + SLOT_META, PAGE_SIZE)
            && (forall s :: 0 <= s < NumSlots(d) ==> Directory(g)[s] == BumpSlot(Directory(d)[s]))
  {
    if NumSlots(d) > 0 {
      ShiftedDirectory(d);
      GrownFrom(d, Shifted(d), BumpedDirectory(Directory(d), NumSlots(d)));
    } else {
      PutNumSlotsFrame(d);
    }
  }

  lemma GrownFrom(d: Bytes, h: Bytes, dir: seq<Slot>)
    requires Fits(d) && HeaderSize(d) + SLOT_META <= PAGE_SIZE && dir == BumpedDirectory(Directory(d), NumSlots(d))
    requires Fits(h) && NumSlots(h) == NumSlots(d) && Directory(h) == dir
    requires HeaderSize(d) <= FreeStart(d) && StoredFreeStart(h) == Min(FreeStart(d) + SLOT_META, PAGE_SIZE)
    ensures var g := PutNumSlots(h, NumSlots(d) + 1);
            && Fits(g) && NumSlots(g) == NumSlots(d) + 1
            && FreeStart(g) == Min(FreeStart(d) + SLOT_META, PAGE_SIZE)
            && (forall s :: 0 <= s < NumSlots(d) ==> Directory(g)[s] == BumpSlot(Directory(d)[s]))
  {
    PutNumSlotsFrame(h);
  }

  /** What `Add` computes when it neither refuses nor compacts. */
  lemma AddUncompacted(d: Bytes, v: Bytes)
    requires Valid(d) && !Refused(d, v) && SatSub(PAGE_SIZE, FreeStart(d) + ExtraHeader(d)) >= |v|
    ensures var s := LowestFree(Directory(d), 0);
            && HeaderSize(d) + ExtraHeader(d) <= PAGE_SIZE
            && var g := if NeedsNewSlot(d) then Grow(d) else d;
            Fits(g) && s < NumSlots(g) && HasEntry(g, s) && HeaderSize(g) <= FreeStart(g)
            && FreeStart(g) + |v| <= PAGE_SIZE && Add(d, v) == (Store(g, s, FreeStart(g), v), Some(s))
  {
    ValidReads(d);
    ContiguousHeader(d, |v|);
    if NeedsNewSlot(d) {
      GrowHeader(d);
    }
  }

  /** In the overrun the shift pushes the last live record off the page: it can no longer be read. */
  lemma OverrunLoses(d: Bytes, v: Bytes) returns (s: nat)
    requires Valid(d) && Overrun(d, v)
    ensures Fits(Add(d, v).0) && Add(d, v).1.Some?
    ensures GetValue(d, s).Some? && GetValue(Add(d, v).0, s) == None
  {
    s := TailSlot(Directory(d), StoredFreeStart(d));
    AddUncompacted(d, v);
    GrowHeader(d);
    OverrunDirectory(d, Grow(d), s);
    LostSlot(d, Add(d, v).0, s);
  }

  lemma TailSlot(dir: seq<Slot>, free: nat) returns (s: nat)
    requires ValidDirectory(dir, free) && dir != [] && LowestFree(dir, 0) == |dir|
    ensures s < |dir| && Live(dir[s]) && dir[s].off + dir[s].len == free
  {
    s :| 0 <= s < |dir| && Live(dir[s]) && dir[s].off + dir[s].len == free;
  }

  lemma OverrunDirectory(d: Bytes, g: Bytes, s: nat)
    requires Fits(d) && Fits(g) && s < NumSlots(d) && NumSlots(g) == NumSlots(d) + 1
    requires FreeStart(g) == PAGE_SIZE && Directory(g)[s] == BumpSlot(Directory(d)[s])
    ensures HasEntry(g, NumSlots(d))
    ensures var e := Store(g, NumSlots(d), PAGE_SIZE, []);
            Fits(e) && NumSlots(e) == NumSlots(g) && Directory(e)[s] == BumpSlot(Directory(d)[s])
  {
    StoreFrame(g, NumSlots(d), PAGE_SIZE, []);
  }

  lemma LostSlot(d: Bytes, e: Bytes, s: nat)
    requires Valid(d) && Fits(e) && s < NumSlots(d) <= NumSlots(e)
    requires Live(Directory(d)[s]) && Directory(d)[s].off + Directory(d)[s].len + SLOT_META > PAGE_SIZE
    requires Directory(e)[s] == BumpSlot(Directory(d)[s])
    ensures GetValue(d, s).Some? && GetValue(e, s) == None
  {
    assert Inside(Directory(d)[s], HeaderSize(d), StoredFreeStart(d));
  }

  /** Exactly when `add_value` leaves every readable slot readable and unchanged. */
  lemma AddKeepsIff(d: Bytes, v: Bytes)
    requires Valid(d)
    ensures Fits(Add(d, v).0)
    ensures (forall s :: GetValue(d, s).Some? ==> GetValue(Add(d, v).0, s) == GetValue(d, s)) <==> !Overrun(d, v)
  {
    if Overrun(d, v) {
      var s := OverrunLoses(d, v);
    } else {
      AddRefines(d, v);
      if !Refused(d, v) {
        AddStores(d, v);
        ValidReads(d);
        var e, t := Add(d, v).0, LowestFree(Directory(d), 0);
        forall s | GetValue(d, s).Some? ensures GetValue(e, s) == GetValue(d, s) {
          assert s != t;
        }
      }
    }
  }

  /** Without compaction the free pointer moves by the value and its entry. */
  lemma AddAdvances(d: Bytes, v: Bytes)
    requires Valid(d) && !Refused(d, v) && FreeStart(d) + ExtraHeader(d) + |v| <= PAGE_SIZE
    ensures var e := Add(d, v).0;
            |e| == PAGE_SIZE && StoredFreeStart(e) == FreeStart(d) + ExtraHeader(d) + |v|
  {
    AddUncompacted(d, v);
    var s := LowestFree(Directory(d), 0);
    if NeedsNewSlot(d) {
      GrowHeader(d);
      StoreFrame(Grow(d), s, FreeStart(Grow(d)), v);
    } else {
      StoreFrame(d, s, FreeStart(d), v);
    }
  }

  lemma {:induction false} RunAppend(d: Bytes, ops: seq<Op>, op: Op)
    requires Valid(d) && NoOverrun(d, ops)
    ensures Valid(Run(d, ops).0)
    ensures !Overruns(Run(d, ops).0, op) ==>
              NoOverrun(d, ops + [op]) && Run(d, ops + [op]).0 == Step(Run(d, ops).0, op).0
    decreases |ops|
  {
    if ops == [] {
      assert ops + [op] == [op] + [];
      if !Overruns(d, op) {
        RunCons(d, op, []);
      }
    } else {
      var rest := ops[1..];
      assert ops == [ops[0]] + rest && ops + [op] == [ops[0]] + (rest + [op]);
      RunCons(d, ops[0], rest);
      RunCons(d, ops[0], rest + [op]);
      RunAppend(Step(d, ops[0]).0, rest, op);
    }
  }

  lemma RunCons(d: Bytes, op: Op, ops: seq<Op>)
    requires Valid(d) && !Overruns(d, op)
    ensures var e := Step(d, op).0;
      && Valid(e) && (NoOverrun(d, [op] + ops) <==> NoOverrun(e, ops))
      && (NoOverrun(e, ops) ==> Run(d, [op] + ops).0 == Run(e, ops).0)
  {
    StepRefines(d, op);
    assert ([op] + ops)[1..] == ops;
  }

  /** A run from the new page 0 that ends in abstract page `a` with the free pointer at `free`. */
  ghost predicate Reaches(ops: seq<Op>, a: AbstractPage, free: nat) {
    && NonEmptyValues(ops) && Valid(NewPage(0)) && NoOverrun(NewPage(0), ops)
    && var d := Run(NewPage(0), ops).0;
       Valid(d) && Abs(d) == a && StoredFreeStart(d) == free
  }

  lemma ReachNew()
    ensures Reaches([], [], 8)
  {
    NewPageValid(0);
    NewPageHeader(0);
  }

  lemma ReachInsert(ops: seq<Op>, a: AbstractPage, free: nat, v: Bytes, extra: nat)
    requires Reaches(ops, a, free) && v != []
    requires extra == if LowestNone(a, 0) == |a| then SLOT_META else 0
    requires |v| + extra <= Room(a) && free + extra + |v| <= PAGE_SIZE
    ensures Reaches(ops + [Insert(v)], AbsAdd(a, v).0, free + extra + |v|)
  {
    RunAppend(NewPage(0), ops, Insert(v));
    InsertAdvances(Run(NewPage(0), ops).0, v, extra);
  }

  lemma InsertAdvances(d: Bytes, v: Bytes, extra: nat)
    requires Valid(d) && v != [] && extra == if LowestNone(Abs(d), 0) == |Abs(d)| then SLOT_META else 0
    requires |v| + extra <= Room(Abs(d)) && StoredFreeStart(d) + extra + |v| <= PAGE_SIZE
    ensures var e := Step(d, Insert(v)).0;
            Valid(e) && Abs(e) == AbsAdd(Abs(d), v).0 && StoredFreeStart(e) == StoredFreeStart(d) + extra + |v|
  {
    ValidReads(d);
    AddRefines(d, v);
    AddAdvances(d, v);
  }

  lemma ReachErase(ops: seq<Op>, a: AbstractPage, free: nat, s: nat)
    requires Reaches(ops, a, free) && s < |a| && a[s].Some?
    ensures Reaches(ops + [Erase(s)], a[s := None], free)
  {
    var d := Run(NewPage(0), ops).0;
    RunAppend(NewPage(0), ops, Erase(s));
    DeleteRefines(d, s);
    DeleteFrame(d, Delete(d, s).0, s);
  }

  lemma RoomOfTwo(x: Option<Bytes>, y: Option<Bytes>)
    ensures Total([x, y]) == ValueLen(x) + ValueLen(y)
    ensures Total([x]) == ValueLen(x)
  {
    var a, b := [x, y], [x];
    assert b[..|b| - 1] == [];
    assert Total(b) == ValueLen(x);
    assert a[..|a| - 1] == b;
  }

  lemma ReachOneValue(v1: Bytes)
    requires |v1| == 10
    ensures Reaches([Insert(v1)], [Some(v1)], 24)
  {
    ReachNew();
    ReachInsert([], [], 8, v1, SLOT_META);
    assert [] + [Insert(v1)] == [Insert(v1)];
    assert AbsAdd([], v1).0 == [Some(v1)];
  }

  lemma ReachTwoValues(v1: Bytes, v2: Bytes) returns (ops: seq<Op>)
    requires |v1| == 10 && |v2| == 4061
    ensures Reaches(ops, [Some(v1), Some(v2)], 4091)
  {
    ReachOneValue(v1);
    RoomOfTwo(Some(v1), Some(v2));
    ReachInsert([Insert(v1)], [Some(v1)], 24, v2, SLOT_META);
    ops := [Insert(v1)] + [Insert(v2)];
    assert AbsAdd([Some(v1)], v2).0 == [Some(v1), Some(v2)];
  }

  lemma ReachFullPage(v1: Bytes, v2: Bytes, v3: Bytes) returns (ops: seq<Op>)
    requires |v1| == 10 && |v2| == 4061 && |v3| == 5
    ensures Reaches(ops, [Some(v3), Some(v2)], PAGE_SIZE)
  {
    ops := ReachTwoValues(v1, v2);
    ReachErase(ops, [Some(v1), Some(v2)], 4091, 0);
    ops := ops + [Erase(0)];
    assert [Some(v1), Some(v2)][0 := None] == [None, Some(v2)];
    RoomOfTwo(None, Some(v2));
    ReachInsert(ops, [None, Some(v2)], 4091, v3, 0);
    ops := ops + [Insert(v3)];
    assert AbsAdd([None, Some(v2)], v3).0 == [Some(v3), Some(v2)];
  }

  /** Insert a value, a long one, erase the first and refill its slot with a short one: the page is
      then full to its last byte, has ten bytes of room and no free slot, and an empty value overruns. */
  lemma OverrunIsReachable() returns (ops: seq<Op>)
    ensures NonEmptyValues(ops) && Valid(NewPage(0)) && NoOverrun(NewPage(0), ops) && Valid(Run(NewPage(0), ops).0)
    ensures Overrun(Run(NewPage(0), ops).0, [])
  {
    var v2, v3 := Zeros(4061), Zeros(5);
    ops := ReachFullPage(Zeros(10), v2, v3);
    RoomOfTwo(Some(v3), Some(v2));
    FullPageOverruns(Run(NewPage(0), ops).0);
  }

  lemma FullPageOverruns(d: Bytes)
    requires Valid(d) && StoredFreeStart(d) == PAGE_SIZE && Room(Abs(d)) >= SLOT_META
    requires NumSlots(d) > 0 && LowestNone(Abs(d), 0) == |Abs(d)|
    ensures Overrun(d, [])
  {
    ValidReads(d);
  }

  // ----- what a slot holds after a history -----

  /** The value last stored in `s` by these answers, starting from `x`. */
  function History(x: Option<Bytes>, ops: seq<Op>, rs: seq<Answer>, s: nat): Option<Bytes>
    requires |rs| == |ops|
    decreases |ops|
  {
    if ops == [] then x
    else
      var y := match (ops[0], rs[0])
        case (Insert(v), Inserted(Some(t))) => if t == s then Some(v) else x
        case (Erase(t), Erased(true)) => if t == s then None else x
        case _ => x;
      History(y, ops[1..], rs[1..], s)
  }

  function Lookup(a: AbstractPage, s: nat): Option<Bytes> { if s < |a| then a[s] else None }

  lemma {:induction false} AbsRunHistory(a: AbstractPage, ops: seq<Op>, s: nat)
    ensures Lookup(AbsRun(a, ops).0, s) == History(Lookup(a, s), ops, AbsRun(a, ops).1, s)
    decreases |ops|
  {
    if ops != [] {
      var (b, r) := AbsStep(a, ops[0]);
      AbsRunHistory(b, ops[1..], s);
      assert ([r] + AbsRun(b, ops[1..]).1)[1..] == AbsRun(b, ops[1..]).1;
    }
  }

  /** `get_value` after any run on a new page returns what was last stored in that slot, or None. */
  lemma GetValueIsHistory(pageId: nat, ops: seq<Op>, s: nat)
    requires pageId < 65536 && Valid(NewPage(pageId)) && NoOverrun(NewPage(pageId), ops)
    ensures var (e, rs) := Run(NewPage(pageId), ops);
            Valid(e) && |rs| == |ops| && GetValue(e, s) == History(None, ops, rs, s)
  {
    NewPageValid(pageId);
    RunRefines(NewPage(pageId), ops);
    AbsRunHistory([], ops, s);
  }
}
