/** What the page operations do to the bytes, as functions of the bytes, and
    why every reachable page is a faithful map from slot ids to values. */
module PageSpec {
  import opened Options
  import opened PageLayout

  // ----- the slot directory as a table of regions -----

  predicate Live(e: Slot) { e.flag == IN_USE }

  predicate Apart(a: Slot, b: Slot) {
    a.off + a.len <= b.off || b.off + b.len <= a.off
  }

  /** The slot is free, or its record lies in [`lo`, `hi`]. */
  predicate Inside(e: Slot, lo: nat, hi: nat) {
    e.flag == FREE || (Live(e) && lo <= e.off && e.off + e.len <= hi)
  }

  /** Live records lie between `lo` and `hi` and are pairwise disjoint. */
  predicate Regions(dir: seq<Slot>, lo: nat, hi: nat) {
    && (forall s :: 0 <= s < |dir| ==> Inside(dir[s], lo, hi))
    && (forall s, t :: 0 <= s < t < |dir| && Live(dir[s]) && Live(dir[t]) ==> Apart(dir[s], dir[t]))
  }

  /** First slot at or after `s` whose flag is free, or the slot count. */
  function LowestFree(dir: seq<Slot>, s: nat): (r: nat)
    requires s <= |dir|
    ensures s <= r <= |dir|
    ensures forall t :: s <= t < r ==> dir[t].flag != FREE
    ensures r < |dir| ==> dir[r].flag == FREE
    decreases |dir| - s
  {
    if s == |dir| || dir[s].flag == FREE then s else LowestFree(dir, s + 1)
  }

  function LiveLen(e: Slot): nat { if Live(e) then e.len else 0 }

  function LiveTotal(dir: seq<Slot>): nat {
    if dir == [] then 0 else LiveTotal(dir[..|dir| - 1]) + LiveLen(dir[|dir| - 1])
  }

  /** A page without slots is empty; with slots but no free one, the last record written ends at the free pointer. */
  predicate TailIsLive(dir: seq<Slot>, free: nat) {
    if dir == [] then free == FIXED_META
    else LowestFree(dir, 0) < |dir| || exists s :: 0 <= s < |dir| && Live(dir[s]) && dir[s].off + dir[s].len == free
  }

  predicate ValidDirectory(dir: seq<Slot>, free: nat) {
    && BodyStart(|dir|) <= free <= PAGE_SIZE
    && Regions(dir, BodyStart(|dir|), free)
    && BodyStart(|dir|) + LiveTotal(dir) <= free
    && TailIsLive(dir, free)
  }

  predicate Valid(d: Bytes) {
    Fits(d) && ValidDirectory(Directory(d), StoredFreeStart(d))
  }

  // ----- reading -----

  function FreeSpace(d: Bytes): nat
    requires Fits(d)
  {
    SatSub(SatSub(PAGE_SIZE, HeaderSize(d)), LiveTotal(Directory(d)))
  }

  /** The value an entry points at; None when it would leave the page. */
  function ValueOf(d: Bytes, e: Slot): Option<Bytes>
    requires |d| == PAGE_SIZE
  {
    if !Live(e) || e.off + e.len > PAGE_SIZE then None else Some(d[e.off..e.off + e.len])
  }

  function GetValue(d: Bytes, s: nat): Option<Bytes>
    requires Fits(d)
  {
    if s >= NumSlots(d) then None else ValueOf(d, Directory(d)[s])
  }

  // ----- the abstract page: one optional value per slot -----

  type AbstractPage = seq<Option<Bytes>>

  function Abs(d: Bytes): (a: AbstractPage)
    requires Fits(d)
    ensures |a| == NumSlots(d)
    ensures forall s :: 0 <= s < |a| ==> a[s] == GetValue(d, s)
  {
    seq(NumSlots(d), s requires 0 <= s < NumSlots(d) => GetValue(d, s))
  }

  function LowestNone(a: AbstractPage, s: nat): (r: nat)
    requires s <= |a|
    ensures s <= r <= |a|
    ensures forall t :: s <= t < r ==> a[t].Some?
    ensures r < |a| ==> a[r].None?
    decreases |a| - s
  {
    if s == |a| || a[s].None? then s else LowestNone(a, s + 1)
  }

  function ValueLen(v: Option<Bytes>): nat { if v.Some? then |v.value| else 0 }

  function Total(a: AbstractPage): nat {
    if a == [] then 0 else Total(a[..|a| - 1]) + ValueLen(a[|a| - 1])
  }

  /** Room left on an abstract page: nothing but sizes, no layout. */
  function Room(a: AbstractPage): int {
    PAGE_SIZE - BodyStart(|a|) - Total(a)
  }

  function AbsAdd(a: AbstractPage, v: Bytes): (AbstractPage, Option<nat>) {
    var s := LowestNone(a, 0);
    if Room(a) < |v| + (if s == |a| then SLOT_META else 0) then (a, None)
    else if s == |a| then (a + [Some(v)], Some(s))
    else (a[s := Some(v)], Some(s))
  }

  function AbsDelete(a: AbstractPage, s: nat): (AbstractPage, bool) {
    if s < |a| && a[s].Some? then (a[s := None], true) else (a, false)
  }

  // ----- compaction -----

  /** A live record as `compact` collects it. */
  datatype Record = Record(sid: nat, off: nat, len: nat)

  /** The live records in slot order. */
  function Used(dir: seq<Slot>): seq<Record> {
    if dir == [] then []
    else
      var s := |dir| - 1;
      Used(dir[..s]) + if Live(dir[s]) then [Record(s, dir[s].off, dir[s].len)] else []
  }

  function InsertRecord(r: Record, rs: seq<Record>): seq<Record> {
    if rs == [] || r.off < rs[0].off then [r] + rs else [rs[0]] + InsertRecord(r, rs[1..])
  }

  /** Stable sort by offset. */
  function SortRecords(rs: seq<Record>): seq<Record> {
    if rs == [] then [] else InsertRecord(rs[|rs| - 1], SortRecords(rs[..|rs| - 1]))
  }

  predicate Sorted(rs: seq<Record>) {
    forall i, j :: 0 <= i < j < |rs| ==> rs[i].off <= rs[j].off
  }

  predicate Ascending(rs: seq<Record>) {
    forall i, j :: 0 <= i < j < |rs| ==> rs[i].sid < rs[j].sid
  }

  predicate Distinct(rs: seq<Record>) {
    forall i, j :: 0 <= i < j < |rs| ==> rs[i].sid != rs[j].sid
  }

  function SumLen(rs: seq<Record>): nat {
    if rs == [] then 0 else rs[0].len + SumLen(rs[1..])
  }

  lemma {:induction false} InsertRecordKeeps(r: Record, rs: seq<Record>)
    ensures multiset(InsertRecord(r, rs)) == multiset{r} + multiset(rs)
    ensures SumLen(InsertRecord(r, rs)) == r.len + SumLen(rs)
  {
    if rs == [] || r.off < rs[0].off {
      assert ([r] + rs)[1..] == rs;
    } else {
      InsertRecordKeeps(r, rs[1..]);
      assert ([rs[0]] + InsertRecord(r, rs[1..]))[1..] == InsertRecord(r, rs[1..]);
      assert rs == [rs[0]] + rs[1..];
    }
  }

  lemma {:induction false} InsertRecordAbove(r: Record, rs: seq<Record>, lo: nat)
    requires lo <= r.off && forall i :: 0 <= i < |rs| ==> lo <= rs[i].off
    ensures forall i :: 0 <= i < |InsertRecord(r, rs)| ==> lo <= InsertRecord(r, rs)[i].off
  {
    if !(rs == [] || r.off < rs[0].off) {
      InsertRecordAbove(r, rs[1..], lo);
    }
  }

  lemma {:induction false} InsertRecordSorted(r: Record, rs: seq<Record>)
    requires Sorted(rs)
    ensures Sorted(InsertRecord(r, rs))
  {
    if !(rs == [] || r.off < rs[0].off) {
      InsertRecordSorted(r, rs[1..]);
      InsertRecordAbove(r, rs[1..], rs[0].off);
      SortedCons(rs[0], InsertRecord(r, rs[1..]));
    } else {
      SortedCons(r, rs);
    }
  }

  lemma SortedCons(r: Record, rs: seq<Record>)
    requires Sorted(rs) && forall i :: 0 <= i < |rs| ==> r.off <= rs[i].off
    ensures Sorted([r] + rs)
  {
  }

  lemma {:induction false} SumLenLast(rs: seq<Record>)
    requires rs != []
    ensures SumLen(rs) == SumLen(rs[..|rs| - 1]) + rs[|rs| - 1].len
  {
    if |rs| > 1 {
      SumLenLast(rs[1..]);
      assert rs[1..][..|rs| - 2] == rs[..|rs| - 1][1..];
    }
  }

  /** Sorting orders by offset ... */
  lemma {:induction false} SortRecordsSorted(rs: seq<Record>)
    ensures Sorted(SortRecords(rs))
  {
    if rs != [] {
      SortRecordsSorted(rs[..|rs| - 1]);
      InsertRecordSorted(rs[|rs| - 1], SortRecords(rs[..|rs| - 1]));
    }
  }

  lemma SnocMultiset(rs: seq<Record>)
    requires rs != []
    ensures multiset(rs) == multiset(rs[..|rs| - 1]) + multiset{rs[|rs| - 1]}
  {
    assert rs == rs[..|rs| - 1] + [rs[|rs| - 1]];
  }

  /** ... keeps the records and keeps their total length. */
  lemma {:induction false} SortRecordsKeeps(rs: seq<Record>)
    ensures multiset(SortRecords(rs)) == multiset(rs)
    ensures SumLen(SortRecords(rs)) == SumLen(rs)
  {
    if rs != [] {
      var init, last := rs[..|rs| - 1], rs[|rs| - 1];
      SortRecordsKeeps(init);
      InsertRecordKeeps(last, SortRecords(init));
      SumLenLast(rs);
      SnocMultiset(rs);
    }
  }

  /** Every record of `rs` is the entry of a live slot. */
  predicate FromDirectory(dir: seq<Slot>, rs: seq<Record>) {
    forall r :: r in rs ==> r.sid < |dir| && dir[r.sid] == Slot(r.off, r.len, IN_USE)
  }

  /** `Used` lists exactly the live slots, each with its own entry. */
  lemma {:induction false} UsedEntries(dir: seq<Slot>)
    ensures FromDirectory(dir, Used(dir))
    ensures forall s :: 0 <= s < |dir| && Live(dir[s]) ==> Record(s, dir[s].off, dir[s].len) in Used(dir)
  {
    if dir != [] {
      UsedEntries(dir[..|dir| - 1]);
    }
  }

  lemma {:induction false} UsedAscending(dir: seq<Slot>)
    ensures Ascending(Used(dir))
  {
    if dir != [] {
      var init, s := dir[..|dir| - 1], |dir| - 1;
      UsedAscending(init);
      UsedEntries(init);
      AscendingSnoc(Used(init), Record(s, dir[s].off, dir[s].len));
    }
  }

  lemma AscendingSnoc(rs: seq<Record>, r: Record)
    requires Ascending(rs) && forall q :: q in rs ==> q.sid < r.sid
    ensures Ascending(rs + [r]) && Ascending(rs + [])
  {
    assert rs + [] == rs;
    forall i | 0 <= i < |rs| ensures rs[i].sid < r.sid {
      assert rs[i] in rs;
    }
  }

  lemma {:induction false} UsedTotal(dir: seq<Slot>)
    ensures SumLen(Used(dir)) == LiveTotal(dir)
  {
    if dir != [] {
      var s := |dir| - 1;
      var u, v := Used(dir), Used(dir[..s]);
      UsedTotal(dir[..s]);
      if Live(dir[s]) {
        assert u == v + [Record(s, dir[s].off, dir[s].len)];
        assert u[..|u| - 1] == v;
        SumLenLast(u);
      } else {
        assert u == v;
      }
    }
  }

  lemma MultiplicityTwo(b: seq<Record>, i: nat, j: nat)
    requires i < j < |b| && b[i] == b[j]
    ensures multiset(b)[b[i]] >= 2
  {
    assert b == b[..j] + b[j..];
    assert b[i] in b[..j] && b[i] in b[j..];
  }

  lemma MultiplicityOne(a: seq<Record>, p: nat)
    requires p < |a| && Ascending(a)
    ensures multiset(a)[a[p]] == 1
  {
    assert a == a[..p] + [a[p]] + a[p + 1..];
    assert a[p] !in a[..p] && a[p] !in a[p + 1..];
  }

  /** A permutation of records with ascending slot ids has distinct slot ids. */
  lemma PermutedDistinct(a: seq<Record>, b: seq<Record>)
    requires multiset(a) == multiset(b) && Ascending(a)
    ensures Distinct(b)
  {
    forall i, j | 0 <= i < j < |b| ensures b[i].sid != b[j].sid {
      assert b[i] in multiset(b) && b[j] in multiset(b);
      var p :| 0 <= p < |a| && a[p] == b[i];
      var q :| 0 <= q < |a| && a[q] == b[j];
      if p == q {
        MultiplicityTwo(b, i, j);
        MultiplicityOne(a, p);
      }
    }
  }

  ghost function Sids(rs: seq<Record>): set<nat> { set r | r in rs :: r.sid }

  lemma SidsTail(rs: seq<Record>)
    requires rs != [] && Distinct(rs)
    ensures Sids(rs[1..]) == Sids(rs) - {rs[0].sid}
  {
    forall s | s in Sids(rs) && s != rs[0].sid ensures s in Sids(rs[1..]) {
      var q :| q in rs && q.sid == s;
      assert q in rs[1..];
    }
    forall s | s in Sids(rs[1..]) ensures s in Sids(rs) && s != rs[0].sid {
      var q :| q in rs[1..] && q.sid == s;
      var j :| 0 <= j < |rs[1..]| && rs[1..][j] == q;
      assert rs[0].sid != rs[j + 1].sid && rs[j + 1] in rs;
    }
  }

  /** Non-empty records of `rs` lie one after another, from `w` on. */
  predicate Queue(rs: seq<Record>, w: nat) {
    && (forall i :: 0 <= i < |rs| && rs[i].len > 0 ==> w <= rs[i].off)
    && (forall i, j :: 0 <= i < j < |rs| && rs[i].len > 0 && rs[j].len > 0 ==> rs[i].off + rs[i].len <= rs[j].off)
  }

  /** The loop state of compaction: the records of `rs` still sit where their
      entries say, at or right of `w`; all other live records end at or left of `w`. */
  ghost predicate Placing(dir: seq<Slot>, rs: seq<Record>, lo: nat, w: nat) {
    && lo <= w && w + SumLen(rs) <= PAGE_SIZE
    && Distinct(rs) && FromDirectory(dir, rs) && Queue(rs, w)
    && (forall s :: 0 <= s < |dir| && s !in Sids(rs) ==> Inside(dir[s], lo, w))
    && (forall s, t :: 0 <= s < t < |dir| && s !in Sids(rs) && t !in Sids(rs) && Live(dir[s]) && Live(dir[t]) ==>
                         Apart(dir[s], dir[t]))
  }

  lemma PlacingStep(dir: seq<Slot>, rs: seq<Record>, lo: nat, w: nat)
    requires rs != [] && Placing(dir, rs, lo, w)
    ensures rs[0].sid < |dir|
    ensures Placing(dir[rs[0].sid := Slot(w, rs[0].len, IN_USE)], rs[1..], lo, w + rs[0].len)
  {
    var r := rs[0];
    assert r in rs;
    var dir', w' := dir[r.sid := Slot(w, r.len, IN_USE)], w + r.len;
    SidsTail(rs);
    forall q | q in rs[1..] ensures dir'[q.sid] == Slot(q.off, q.len, IN_USE) {
      assert q in rs;
      assert q.sid in Sids(rs[1..]);
    }
    QueueTail(rs, w);
  }

  lemma QueueTail(rs: seq<Record>, w: nat)
    requires rs != [] && Queue(rs, w)
    ensures Queue(rs[1..], w + rs[0].len)
  {
    var q := rs[1..];
    forall i | 0 <= i < |q| && q[i].len > 0 ensures w + rs[0].len <= q[i].off {
      assert q[i] == rs[i + 1];
    }
  }

  /** Sorted, pairwise disjoint records form a queue. */
  lemma SortedQueue(dir: seq<Slot>, rs: seq<Record>, lo: nat, hi: nat)
    requires Regions(dir, lo, hi) && FromDirectory(dir, rs) && Distinct(rs) && Sorted(rs)
    ensures Queue(rs, lo)
  {
    forall i | 0 <= i < |rs| ensures lo <= rs[i].off {
      assert rs[i] in rs;
      assert Inside(dir[rs[i].sid], lo, hi);
    }
    forall i, j | 0 <= i < j < |rs| && rs[i].len > 0 && rs[j].len > 0
      ensures rs[i].off + rs[i].len <= rs[j].off
    {
      assert rs[i] in rs && rs[j] in rs && rs[i].off <= rs[j].off;
      var s, t := rs[i].sid, rs[j].sid;
      assert s < t ==> Apart(dir[s], dir[t]);
      assert t < s ==> Apart(dir[t], dir[s]);
    }
  }

  /** The sorted list holds the same records, each slot once, with the same total length. */
  lemma SortedUsed(dir: seq<Slot>)
    ensures var rs := SortRecords(Used(dir));
            && Sorted(rs) && Distinct(rs) && SumLen(rs) == LiveTotal(dir)
            && (forall r :: r in rs <==> r in Used(dir))
  {
    var us := Used(dir);
    var rs := SortRecords(us);
    UsedAscending(dir);
    UsedTotal(dir);
    SortRecordsSorted(us);
    SortRecordsKeeps(us);
    PermutedDistinct(us, rs);
    forall r ensures r in rs <==> r in us {
      assert r in rs <==> r in multiset(rs);
      assert r in us <==> r in multiset(us);
    }
  }

  /** Slots that `Used` does not list are free. */
  lemma UnlistedFree(dir: seq<Slot>, rs: seq<Record>, lo: nat, hi: nat, s: nat)
    requires Regions(dir, lo, hi) && s < |dir| && s !in Sids(rs)
    requires forall t :: 0 <= t < |dir| && Live(dir[t]) ==> Record(t, dir[t].off, dir[t].len) in rs
    ensures dir[s].flag == FREE
  {
    assert Inside(dir[s], lo, hi);
  }

  /** Compaction may start: the sorted live records of a valid directory form a queue. */
  lemma PlacingStart(dir: seq<Slot>, lo: nat, hi: nat)
    requires Regions(dir, lo, hi) && hi <= PAGE_SIZE && lo + LiveTotal(dir) <= hi
    ensures var rs := SortRecords(Used(dir));
            Placing(dir, rs, lo, lo) && SumLen(rs) == LiveTotal(dir)
  {
    UsedEntries(dir);
    SortedUsed(dir);
    PlacingFrom(dir, SortRecords(Used(dir)), lo, hi);
  }

  lemma PlacingFrom(dir: seq<Slot>, rs: seq<Record>, lo: nat, hi: nat)
    requires Regions(dir, lo, hi) && hi <= PAGE_SIZE && lo + SumLen(rs) <= hi
    requires Sorted(rs) && Distinct(rs) && FromDirectory(dir, rs)
    requires forall t :: 0 <= t < |dir| && Live(dir[t]) ==> Record(t, dir[t].off, dir[t].len) in rs
    ensures Placing(dir, rs, lo, lo)
  {
    SortedQueue(dir, rs, lo, hi);
    forall s | 0 <= s < |dir| && s !in Sids(rs) ensures dir[s].flag == FREE {
      UnlistedFree(dir, rs, lo, hi, s);
    }
  }

  // ----- compaction on the bytes -----

  predicate Placeable(d: Bytes, rs: seq<Record>, w: nat) {
    && |d| == PAGE_SIZE
    && (forall r :: r in rs ==> HasEntry(d, r.sid) && r.off + r.len <= PAGE_SIZE)
    && w + SumLen(rs) <= PAGE_SIZE
  }

  /** One turn of the compaction loop. */
  function PlaceOne(d: Bytes, r: Record, w: nat): (e: Bytes)
    requires HasEntry(d, r.sid) && r.off + r.len <= PAGE_SIZE && w + r.len <= PAGE_SIZE
    ensures |e| == |d|
  {
    PutSlot(if r.off != w then Move(d, r.off, r.len, w) else d, r.sid, Slot(w, r.len, IN_USE))
  }

  function Place(d: Bytes, rs: seq<Record>, w: nat): (e: Bytes)
    requires Placeable(d, rs, w)
    ensures |e| == |d|
    decreases |rs|
  {
    if rs == [] then PutFreeStart(d, w) else Place(PlaceOne(d, rs[0], w), rs[1..], w + rs[0].len)
  }

  lemma PlaceUnrolled(d: Bytes, rs: seq<Record>, w: nat, r: Record) returns (e: Bytes)
    requires rs != [] && r == rs[0] && Placeable(d, rs, w)
    ensures HasEntry(d, r.sid) && r.off + r.len <= PAGE_SIZE && w + r.len <= PAGE_SIZE && e == PlaceOne(d, r, w)
    ensures Placeable(e, rs[1..], w + r.len) && Place(e, rs[1..], w + r.len) == Place(d, rs, w)
  {
    assert r in rs;
    e := PlaceOne(d, r, w);
  }

  /** `e` differs from `d` in the entry of `r`, which now points at `w`, and in the region [`w`, `w + r.len`),
      which now holds the bytes of `r`. */
  predicate Turned(d: Bytes, e: Bytes, r: Record, w: nat)
  {
    && Fits(d) && Fits(e) && r.sid < NumSlots(d)
    && r.off + r.len <= PAGE_SIZE && HeaderSize(d) <= w <= PAGE_SIZE - r.len
    && Directory(e) == Directory(d)[r.sid := Slot(w, r.len, IN_USE)] && PageId(e) == PageId(d)
    && e[w..w + r.len] == d[r.off..r.off + r.len]
    && (forall k :: HeaderSize(d) <= k < PAGE_SIZE && !(w <= k < w + r.len) ==> e[k] == d[k])
  }

  lemma PlaceOneTurns(d: Bytes, r: Record, w: nat)
    requires Fits(d) && r.sid < NumSlots(d) && HeaderSize(d) <= w
    requires r.off + r.len <= PAGE_SIZE && w + r.len <= PAGE_SIZE
    ensures Turned(d, PlaceOne(d, r, w), r, w)
  {
    var m := if r.off != w then Move(d, r.off, r.len, w) else d;
    SameDirectory(d, m);
    assert m[w..w + r.len] == d[r.off..r.off + r.len];
    TurnedFrom(d, m, r, w);
  }

  lemma TurnedFrom(d: Bytes, m: Bytes, r: Record, w: nat)
    requires Fits(d) && Fits(m) && r.sid < NumSlots(d) && HeaderSize(d) <= w
    requires r.off + r.len <= PAGE_SIZE && w + r.len <= PAGE_SIZE
    requires Directory(m) == Directory(d) && PageId(m) == PageId(d)
    requires m[w..w + r.len] == d[r.off..r.off + r.len]
    requires forall k :: HeaderSize(d) <= k < PAGE_SIZE && !(w <= k < w + r.len) ==> m[k] == d[k]
    ensures Turned(d, PutSlot(m, r.sid, Slot(w, r.len, IN_USE)), r, w)
  {
    var x := Slot(w, r.len, IN_USE);
    PutSlotBody(m, r.sid, x);
    var e := PutSlot(m, r.sid, x);
    assert e[w..w + r.len] == m[w..w + r.len];
  }

  /** Writing an entry leaves the body alone. */
  lemma PutSlotBody(m: Bytes, s: nat, x: Slot)
    requires Fits(m) && s < NumSlots(m) && x.off < 65536 && x.len < 65536
    ensures var e := PutSlot(m, s, x);
            && Fits(e) && Directory(e) == Directory(m)[s := x] && PageId(e) == PageId(m)
            && StoredFreeStart(e) == StoredFreeStart(m)
            && (forall k :: HeaderSize(m) <= k < PAGE_SIZE ==> e[k] == m[k])
  {
    PutSlotHeader(m, s, x);
    PutSlotDirectory(m, s, x);
    assert BodyStart(s) + SLOT_META <= HeaderSize(m);
  }

  /** Same flag and, for live slots, the same bytes. */
  predicate SameValues(d: Bytes, e: Bytes)
    requires Fits(d) && Fits(e)
  {
    && NumSlots(e) == NumSlots(d)
    && (forall s :: 0 <= s < NumSlots(d) ==> SameSlot(d, Directory(d)[s], e, Directory(e)[s]))
  }

  predicate SameSlot(d: Bytes, x: Slot, e: Bytes, y: Slot)
    requires |d| == PAGE_SIZE && |e| == PAGE_SIZE
  {
    x.flag == y.flag && (Live(x) ==> x.len == y.len && ValueOf(d, x) == ValueOf(e, y))
  }

  /** A record's bytes survive any change outside its region. */
  lemma UntouchedSlot(d: Bytes, e: Bytes, x: Slot)
    requires |d| == PAGE_SIZE && |e| == PAGE_SIZE
    requires forall k :: x.off <= k < x.off + x.len && k < PAGE_SIZE ==> e[k] == d[k]
    ensures SameSlot(d, x, e, x)
  {
    if x.off + x.len <= PAGE_SIZE {
      assert d[x.off..x.off + x.len] == e[x.off..x.off + x.len];
    }
  }

  /** Every other live record is clear of the region the turn writes. */
  lemma ClearOfTurn(dir: seq<Slot>, rs: seq<Record>, lo: nat, w: nat, s: nat)
    requires rs != [] && Placing(dir, rs, lo, w) && s < |dir| && Live(dir[s]) && s != rs[0].sid
    ensures dir[s].len == 0 || rs[0].len == 0 || (dir[s].off >= lo && Apart(dir[s], Slot(w, rs[0].len, IN_USE)))
  {
    if s in Sids(rs) {
      var q :| q in rs && q.sid == s;
      var j :| 0 <= j < |rs| && rs[j] == q;
      assert dir[q.sid] == Slot(q.off, q.len, IN_USE);
    } else {
      assert Inside(dir[s], lo, w);
    }
  }

  /** A turn keeps every value: sorted left-moves never clobber a record not yet moved. */
  lemma TurnKeepsValues(d: Bytes, e: Bytes, rs: seq<Record>, w: nat)
    requires rs != [] && Turned(d, e, rs[0], w) && Placing(Directory(d), rs, HeaderSize(d), w)
    ensures SameValues(d, e)
  {
    var r, dir := rs[0], Directory(d);
    assert r in rs;
    forall s | 0 <= s < NumSlots(d) ensures SameSlot(d, dir[s], e, Directory(e)[s]) {
      if s != r.sid && Live(dir[s]) {
        ClearOfTurn(dir, rs, HeaderSize(d), w, s);
        UntouchedSlot(d, e, dir[s]);
      }
    }
  }

  lemma SameValuesTransitive(d: Bytes, e: Bytes, f: Bytes)
    requires Fits(d) && Fits(e) && Fits(f) && SameValues(d, e) && SameValues(e, f)
    ensures SameValues(d, f)
  {
    forall s | 0 <= s < NumSlots(d) ensures SameSlot(d, Directory(d)[s], f, Directory(f)[s]) {
      assert SameSlot(d, Directory(d)[s], e, Directory(e)[s]);
      assert SameSlot(e, Directory(e)[s], f, Directory(f)[s]);
    }
  }

  /** Moving the free pointer keeps every value of records in the body. */
  lemma PutFreeStartValues(d: Bytes, pos: nat, hi: nat)
    requires Fits(d) && pos <= PAGE_SIZE && Regions(Directory(d), HeaderSize(d), hi)
    ensures var e := PutFreeStart(d, pos);
            Fits(e) && SameValues(d, e)
  {
    PutFreeStartFrame(d, pos);
    var e, dir := PutFreeStart(d, pos), Directory(d);
    forall s | 0 <= s < NumSlots(d) ensures SameSlot(d, dir[s], e, Directory(e)[s]) {
      assert Inside(dir[s], HeaderSize(d), hi);
      if Live(dir[s]) {
        UntouchedSlot(d, e, dir[s]);
      }
    }
  }

  /** `e` holds the values of `d` in a body that ends at `end`, where the free pointer stands. */
  predicate Packed(d: Bytes, e: Bytes, end: nat)
    requires Fits(d)
  {
    && Fits(e) && SameValues(d, e) && PageId(e) == PageId(d)
    && StoredFreeStart(e) == end
    && Regions(Directory(e), HeaderSize(e), end)
  }

  lemma PlaceNone(d: Bytes, w: nat)
    requires Fits(d) && Placing(Directory(d), [], HeaderSize(d), w) && Placeable(d, [], w)
    ensures Packed(d, PutFreeStart(d, w), w)
  {
    assert Sids([]) == {};
    PutFreeStartFrame(d, w);
    PutFreeStartValues(d, w, w);
  }

  lemma PackedAfter(d: Bytes, e: Bytes, f: Bytes, end: nat)
    requires Fits(d) && Fits(e) && SameValues(d, e) && PageId(e) == PageId(d) && Packed(e, f, end)
    ensures Packed(d, f, end)
  {
    SameValuesTransitive(d, e, f);
  }

  /** The turn in full: values kept, loop state kept. */
  lemma TurnKeepsPlacing(d: Bytes, e: Bytes, rs: seq<Record>, w: nat)
    requires rs != [] && Turned(d, e, rs[0], w) && Placing(Directory(d), rs, HeaderSize(d), w) && Placeable(d, rs, w)
    ensures Placing(Directory(e), rs[1..], HeaderSize(e), w + rs[0].len) && Placeable(e, rs[1..], w + rs[0].len)
  {
    PlacingStep(Directory(d), rs, HeaderSize(d), w);
  }

  lemma PlaceTurn(d: Bytes, rs: seq<Record>, w: nat)
    requires Fits(d) && rs != [] && Placing(Directory(d), rs, HeaderSize(d), w) && Placeable(d, rs, w)
    ensures rs[0] in rs && Turned(d, PlaceOne(d, rs[0], w), rs[0], w)
  {
    assert rs[0] in rs;
    PlaceOneTurns(d, rs[0], w);
  }

  /** Compaction keeps every value, packs the body and sets the free pointer to its end. */
  lemma {:induction false} PlaceFacts(d: Bytes, rs: seq<Record>, w: nat, end: nat)
    requires Fits(d) && Placing(Directory(d), rs, HeaderSize(d), w) && Placeable(d, rs, w) && end == w + SumLen(rs)
    ensures Packed(d, Place(d, rs, w), end)
    decreases |rs|, 1
  {
    if rs == [] {
      PlaceNone(d, w);
    } else {
      PlaceTurn(d, rs, w);
      var e := PlaceUnrolled(d, rs, w, rs[0]);
      PlaceRest(d, e, rs, w, rs[1..], w + rs[0].len, end);
    }
  }

  lemma {:induction false} PlaceRest(
      d: Bytes, e: Bytes, rs: seq<Record>, w: nat, rest: seq<Record>, next: nat, end: nat)
    requires Fits(d) && rs != [] && Placing(Directory(d), rs, HeaderSize(d), w) && Placeable(d, rs, w)
    requires Turned(d, e, rs[0], w) && rest == rs[1..] && next == w + rs[0].len && end == next + SumLen(rest)
    ensures Placeable(e, rest, next) && Packed(d, Place(e, rest, next), end)
    decreases |rs|, 0
  {
    TurnKeepsValues(d, e, rs, w);
    TurnKeepsPlacing(d, e, rs, w);
    PlaceFacts(e, rest, next, end);
    PackedAfter(d, e, Place(e, rest, next), end);
  }

  function Compacted(d: Bytes): (e: Bytes)
    requires Valid(d)
    ensures |e| == PAGE_SIZE
  {
    CompactionPlaceable(d);
    Place(d, SortRecords(Used(Directory(d))), HeaderSize(d))
  }

  lemma CompactionPlaceable(d: Bytes)
    requires Valid(d)
    ensures var rs := SortRecords(Used(Directory(d)));
            && Placeable(d, rs, HeaderSize(d))
            && Placing(Directory(d), rs, HeaderSize(d), HeaderSize(d))
            && SumLen(rs) == LiveTotal(Directory(d))
  {
    var dir := Directory(d);
    var rs := SortRecords(Used(dir));
    PlacingStart(dir, HeaderSize(d), StoredFreeStart(d));
    forall r | r in rs ensures HasEntry(d, r.sid) && r.off + r.len <= PAGE_SIZE {
      assert dir[r.sid] == Slot(r.off, r.len, IN_USE);
      assert Inside(dir[r.sid], HeaderSize(d), StoredFreeStart(d));
    }
  }

  /** `compact` on a valid page: same values, free pointer right after header plus live bytes. */
  lemma CompactedFacts(d: Bytes)
    requires Valid(d)
    ensures Packed(d, Compacted(d), HeaderSize(d) + LiveTotal(Directory(d)))
  {
    CompactionPlaceable(d);
    var rs := SortRecords(Used(Directory(d)));
    assert Compacted(d) == Place(d, rs, HeaderSize(d));
    PlaceAll(d, rs, Compacted(d), HeaderSize(d) + LiveTotal(Directory(d)));
  }

  lemma PlaceAll(d: Bytes, rs: seq<Record>, e: Bytes, end: nat)
    requires Fits(d) && Placing(Directory(d), rs, HeaderSize(d), HeaderSize(d)) && Placeable(d, rs, HeaderSize(d))
    requires e == Place(d, rs, HeaderSize(d)) && end == HeaderSize(d) + SumLen(rs)
    ensures Packed(d, e, end)
  {
    PlaceFacts(d, rs, HeaderSize(d), end);
  }

  lemma SameLiveTotal(d: Bytes, e: Bytes)
    requires Fits(d) && Fits(e) && SameValues(d, e)
    ensures LiveTotal(Directory(e)) == LiveTotal(Directory(d))
  {
    forall s | 0 <= s < NumSlots(d) ensures LiveLen(Directory(e)[s]) == LiveLen(Directory(d)[s]) {
      assert SameSlot(d, Directory(d)[s], e, Directory(e)[s]);
    }
    LiveTotalPointwise(Directory(d), Directory(e));
  }

  lemma {:induction false} LiveTotalPointwise(a: seq<Slot>, b: seq<Slot>)
    requires |a| == |b| && forall s :: 0 <= s < |a| ==> LiveLen(a[s]) == LiveLen(b[s])
    ensures LiveTotal(a) == LiveTotal(b)
  {
    if a != [] {
      LiveTotalPointwise(a[..|a| - 1], b[..|b| - 1]);
    }
  }

  lemma {:induction false} LiveTotalUpdate(dir: seq<Slot>, s: nat, x: Slot)
    requires s < |dir|
    ensures LiveTotal(dir[s := x]) == LiveTotal(dir) - LiveLen(dir[s]) + LiveLen(x)
  {
    var last := |dir| - 1;
    if s == last {
      assert dir[s := x][..last] == dir[..last];
    } else {
      LiveTotalUpdate(dir[..last], s, x);
      assert dir[s := x][..last] == dir[..last][s := x];
    }
  }

  // ----- the body shift -----

  /** Moves the body right by one entry (as much of it as stays on the page) and clears the gap. */
  function ShiftBody(d: Bytes): (e: Bytes)
    requires Fits(d) && HeaderSize(d) + SLOT_META <= PAGE_SIZE
    ensures |e| == PAGE_SIZE
  {
    var lo, bodyLen := HeaderSize(d), SatSub(FreeStart(d), HeaderSize(d));
    var m := if bodyLen > 0
             then Move(d, lo, Min(bodyLen, PAGE_SIZE - (lo + SLOT_META)), lo + SLOT_META)
             else d;
    Splice(m, lo, Zeros(SLOT_META))
  }

  function BumpSlot(x: Slot): Slot {
    if Live(x) then Slot((x.off + SLOT_META) % 65536, x.len, IN_USE) else x
  }

  /** The offset-bumping loop after its first `k` slots. */
  function Bumped(d: Bytes, k: nat): (e: Bytes)
    requires Fits(d) && k <= NumSlots(d)
    ensures |e| == PAGE_SIZE
  {
    if k == 0 then d
    else
      var e := Bumped(d, k - 1);
      var x := SlotAt(e, k - 1);
      if Live(x) then PutSlot(e, k - 1, BumpSlot(x)) else e
  }

  lemma BumpedNext(d: Bytes, k: nat, e: Bytes, x: Slot)
    requires Fits(d) && k < NumSlots(d) && e == Bumped(d, k) && HasEntry(e, k) && x == SlotAt(e, k)
    ensures Bumped(d, k + 1) == if Live(x) then PutSlot(e, k, BumpSlot(x)) else e
  {
  }

  function Shifted(d: Bytes): (e: Bytes)
    requires Fits(d) && HeaderSize(d) + SLOT_META <= PAGE_SIZE
    ensures |e| == PAGE_SIZE
  {
    ShiftBodyFrame(d);
    PutFreeStart(Bumped(ShiftBody(d), NumSlots(d)), Min(FreeStart(d) + SLOT_META, PAGE_SIZE))
  }

  lemma ShiftBodyFrame(d: Bytes)
    requires Fits(d) && HeaderSize(d) + SLOT_META <= PAGE_SIZE
    ensures var e := ShiftBody(d);
            && NumSlots(e) == NumSlots(d) && PageId(e) == PageId(d)
            && Fits(e) && Directory(e) == Directory(d)
  {
    SameDirectory(d, ShiftBody(d));
  }

  lemma ShiftBodyBytes(d: Bytes)
    requires Fits(d) && HeaderSize(d) + SLOT_META <= PAGE_SIZE
    ensures var e := ShiftBody(d);
            && (forall k :: HeaderSize(d) <= k < HeaderSize(d) + SLOT_META ==> e[k] == 0)
            && (forall k :: HeaderSize(d) <= k < FreeStart(d) && k + SLOT_META < PAGE_SIZE ==> e[k + SLOT_META] == d[k])
  {
  }

  ghost function BumpedDirectory(dir: seq<Slot>, k: nat): (r: seq<Slot>)
    ensures |r| == |dir|
  {
    seq(|dir|, s requires 0 <= s < |dir| => if s < k then BumpSlot(dir[s]) else dir[s])
  }

  /** One turn of the bumping loop. */
  lemma BumpOne(e: Bytes, k: nat)
    requires Fits(e) && k < NumSlots(e)
    ensures var x := SlotAt(e, k);
            var f := if Live(x) then PutSlot(e, k, BumpSlot(x)) else e;
            && PageId(f) == PageId(e) && Fits(f) && Directory(f) == Directory(e)[k := BumpSlot(x)]
            && (forall i :: HeaderSize(e) <= i < PAGE_SIZE ==> f[i] == e[i])
  {
    var x := SlotAt(e, k);
    assert x == Directory(e)[k];
    if Live(x) {
      PutSlotBody(e, k, BumpSlot(x));
    }
  }

  lemma BumpedDirectoryStep(dir: seq<Slot>, k: nat)
    requires 0 < k <= |dir|
    ensures BumpedDirectory(dir, k) == BumpedDirectory(dir, k - 1)[k - 1 := BumpSlot(dir[k - 1])]
    ensures BumpedDirectory(dir, k - 1)[k - 1] == dir[k - 1]
  {
  }

  /** The bumping loop changes the directory alone, slot by slot. */
  lemma {:induction false} BumpedFrame(d: Bytes, k: nat)
    requires Fits(d) && k <= NumSlots(d)
    ensures var e := Bumped(d, k);
            && PageId(e) == PageId(d)
            && Fits(e) && Directory(e) == BumpedDirectory(Directory(d), k)
            && (forall i :: HeaderSize(d) <= i < PAGE_SIZE ==> e[i] == d[i])
  {
    if k == 0 {
      assert BumpedDirectory(Directory(d), 0) == Directory(d);
    } else {
      BumpedFrame(d, k - 1);
      BumpedDirectoryStep(Directory(d), k);
      assert SlotAt(Bumped(d, k - 1), k - 1) == Directory(Bumped(d, k - 1))[k - 1];
      BumpOne(Bumped(d, k - 1), k - 1);
    }
  }

  lemma BumpedRegions(dir: seq<Slot>, lo: nat, hi: nat)
    requires Regions(dir, lo, hi) && hi + SLOT_META <= PAGE_SIZE
    ensures Regions(BumpedDirectory(dir, |dir|), lo + SLOT_META, hi + SLOT_META)
  {
    var b := BumpedDirectory(dir, |dir|);
    forall s | 0 <= s < |b| ensures Inside(b[s], lo + SLOT_META, hi + SLOT_META) {
      BumpInside(dir[s], lo, hi);
    }
    forall s, t | 0 <= s < t < |b| && Live(b[s]) && Live(b[t]) ensures Apart(b[s], b[t]) {
      BumpInside(dir[s], lo, hi);
      BumpInside(dir[t], lo, hi);
      assert Apart(dir[s], dir[t]);
    }
  }

  lemma BumpInside(x: Slot, lo: nat, hi: nat)
    requires Inside(x, lo, hi) && hi + SLOT_META <= PAGE_SIZE
    ensures Inside(BumpSlot(x), lo + SLOT_META, hi + SLOT_META) && (Live(BumpSlot(x)) <==> Live(x))
    ensures Live(x) ==> BumpSlot(x) == Slot(x.off + SLOT_META, x.len, IN_USE)
  {
  }

  /** A record that moved right together with its offset keeps its bytes. */
  lemma MovedSlot(d: Bytes, e: Bytes, x: Slot, lo: nat, hi: nat)
    requires |d| == PAGE_SIZE && |e| == PAGE_SIZE && Inside(x, lo, hi) && hi + SLOT_META <= PAGE_SIZE
    requires forall k :: lo <= k < hi ==> e[k + SLOT_META] == d[k]
    ensures SameSlot(d, x, e, BumpSlot(x))
  {
    if Live(x) {
      assert d[x.off..x.off + x.len] == e[x.off + SLOT_META..x.off + SLOT_META + x.len];
    }
  }

  /** Room for the shifted body: all offsets and the free pointer move by six and every value stays. */
  predicate ShiftedBy6(d: Bytes, e: Bytes)
    requires Fits(d)
  {
    && Fits(e) && SameValues(d, e) && PageId(e) == PageId(d)
    && StoredFreeStart(e) == FreeStart(d) + SLOT_META
    && Regions(Directory(e), HeaderSize(d) + SLOT_META, FreeStart(d) + SLOT_META)
    && SlotAtFree(e, NumSlots(d))
  }

  predicate SlotAtFree(d: Bytes, s: nat) { HasEntry(d, s) && SlotAt(d, s).flag == FREE }

  lemma BumpedValues(d: Bytes, b: Bytes)
    requires Fits(d) && Fits(b) && FreeStart(d) + SLOT_META <= PAGE_SIZE
    requires Regions(Directory(d), HeaderSize(d), FreeStart(d))
    requires Directory(b) == BumpedDirectory(Directory(d), NumSlots(d))
    requires forall k :: HeaderSize(d) <= k < FreeStart(d) ==> b[k + SLOT_META] == d[k]
    ensures SameValues(d, b)
  {
    forall s | 0 <= s < NumSlots(d) ensures SameSlot(d, Directory(d)[s], b, Directory(b)[s]) {
      assert Inside(Directory(d)[s], HeaderSize(d), FreeStart(d));
      MovedSlot(d, b, Directory(d)[s], HeaderSize(d), FreeStart(d));
    }
  }

  lemma ShiftedFacts(d: Bytes)
    requires Fits(d) && FreeStart(d) + SLOT_META <= PAGE_SIZE && Regions(Directory(d), HeaderSize(d), FreeStart(d))
    ensures HeaderSize(d) + SLOT_META <= PAGE_SIZE && ShiftedBy6(d, Shifted(d))
  {
    var n, lo, hi := NumSlots(d), HeaderSize(d), FreeStart(d);
    var a := ShiftBody(d);
    ShiftBodyFrame(d);
    ShiftBodyBytes(d);
    BumpedFrame(a, n);
    var b := Bumped(a, n);
    BumpedRegions(Directory(d), lo, hi);
    BumpedValues(d, b);
    FinishShift(d, b, hi + SLOT_META);
  }

  lemma FinishShift(d: Bytes, b: Bytes, free: nat)
    requires Fits(d) && Fits(b) && SameValues(d, b) && PageId(b) == PageId(d)
    requires free == FreeStart(d) + SLOT_META <= PAGE_SIZE
    requires Regions(Directory(b), HeaderSize(d) + SLOT_META, free)
    requires forall k :: HeaderSize(d) <= k < HeaderSize(d) + SLOT_META ==> b[k] == 0
    ensures ShiftedBy6(d, PutFreeStart(b, free))
  {
    var e := PutFreeStart(b, free);
    PutFreeStartFrame(b, free);
    WeakenRegions(Directory(b), HeaderSize(d) + SLOT_META, HeaderSize(b), free);
    PutFreeStartValues(b, free, free);
    SameValuesTransitive(d, b, e);
  }

  lemma WeakenRegions(dir: seq<Slot>, lo: nat, lo': nat, hi: nat)
    requires Regions(dir, lo, hi) && lo' <= lo
    ensures Regions(dir, lo', hi)
  {
    forall s | 0 <= s < |dir| ensures Inside(dir[s], lo', hi) {
      assert Inside(dir[s], lo, hi);
    }
  }
}
