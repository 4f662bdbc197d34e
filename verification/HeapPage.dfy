/** The heap page as the storage manager holds it: a 4096-byte array updated in
    place, and the consuming iterator over its live records. */
module HeapPage {
  import opened Options
  import opened PageLayout
  import opened PageSpec
  import opened PageRuns

  /** The promise of `add_value`: away from the overrun it is insertion into the abstract page,
      and whenever it answers None it has changed no byte. */
  predicate AddResult(d: Bytes, v: Bytes, e: Bytes, slot: Option<nat>)
    requires Valid(d)
  {
    && (!Overrun(d, v) ==>
          Valid(e) && PageId(e) == PageId(d) && (Abs(e), slot) == AbsAdd(Abs(d), v))
    && (slot == None ==> e == d)
  }

  lemma AddAnswers(d: Bytes, v: Bytes)
    requires Valid(d)
    ensures AddResult(d, v, Add(d, v).0, Add(d, v).1)
  {
    if Overrun(d, v) {
      var lost := OverrunLoses(d, v);
    } else {
      AddRefines(d, v);
    }
  }

  class Page {
    const data: array<byte>

    constructor (pageId: nat)
      requires pageId < 65536
      ensures fresh(data) && data.Length == PAGE_SIZE
      ensures data[..] == NewPage(pageId) && Valid(data[..]) && Abs(data[..]) == []
    {
      var bytes := new byte[PAGE_SIZE](_ => 0);
      data := bytes;
      new;
      assert data[..] == Zeros(PAGE_SIZE);
      WriteU16(0, pageId);
      WriteU16(NUM_SLOTS_OFFSET, 0);
      WriteU16(FREE_START_OFFSET, 8);
      NewPageValid(pageId);
    }

    method WriteU16(i: nat, v: nat)
      requires i + 2 <= data.Length
      modifies data
      ensures data[..] == PutU16(old(data[..]), i, v)
    {
      data[i] := v % 256;
      data[i + 1] := (v / 256) % 256;
    }

    method ReadU16(i: nat) returns (v: nat)
      requires i + 2 <= data.Length
      ensures v == U16(data[..], i)
    {
      v := data[i] as int + 256 * (data[i + 1] as int);
    }

    method GetPageId() returns (id: nat)
      requires data.Length == PAGE_SIZE
      ensures id == PageId(data[..])
    {
      id := ReadU16(0);
    }

    method GetFreeStart() returns (pos: nat)
      requires data.Length == PAGE_SIZE
      ensures pos == FreeStart(data[..])
    {
      var n := ReadU16(NUM_SLOTS_OFFSET);
      var stored := ReadU16(FREE_START_OFFSET);
      pos := if stored < BodyStart(n) then BodyStart(n) else stored;
      pos := Min(pos, PAGE_SIZE);
    }

    method SetFreeStart(pos: nat)
      requires data.Length == PAGE_SIZE
      modifies data
      ensures data[..] == PutFreeStart(old(data[..]), pos)
    {
      WriteU16(FREE_START_OFFSET, Min(pos, PAGE_SIZE));
    }

    method ReadSlot(s: nat) returns (x: Slot)
      requires HasEntry(data[..], s)
      ensures x == SlotAt(data[..], s)
    {
      var off := ReadU16(BodyStart(s));
      var len := ReadU16(BodyStart(s) + 2);
      x := Slot(off, len, data[BodyStart(s) + 4]);
    }

    method WriteSlot(s: nat, x: Slot)
      requires HasEntry(data[..], s)
      modifies data
      ensures data[..] == PutSlot(old(data[..]), s, x)
    {
      WriteU16(BodyStart(s), x.off);
      WriteU16(BodyStart(s) + 2, x.len);
      data[BodyStart(s) + 4] := x.flag;
    }

    /** Overlapping ranges are allowed: all bytes are read before any is written. */
    method CopyWithin(src: nat, len: nat, dst: nat)
      requires src + len <= data.Length && dst + len <= data.Length
      modifies data
      ensures data[..] == Move(old(data[..]), src, len, dst)
    {
      forall k | 0 <= k < len {
        data[dst + k] := data[src + k];
      }
      ghost var m := Move(old(data[..]), src, len, dst);
      forall k | 0 <= k < data.Length ensures data[k] == m[k] {
        if dst <= k < dst + len {
          assert data[dst + (k - dst)] == old(data[src + (k - dst)]);
        }
      }
      assert data[..] == m;
    }

    method CopyFrom(at: nat, v: Bytes)
      requires at + |v| <= data.Length
      modifies data
      ensures data[..] == Splice(old(data[..]), at, v)
    {
      forall k | 0 <= k < |v| {
        data[at + k] := v[k];
      }
      ghost var m := Splice(old(data[..]), at, v);
      forall k | 0 <= k < data.Length ensures data[k] == m[k] {
        if at <= k < at + |v| {
          assert data[at + (k - at)] == v[k - at];
        }
      }
      assert data[..] == m;
    }

    method FindLowestFreeSlot() returns (s: nat)
      requires Fits(data[..])
      ensures s == LowestFree(Directory(data[..]), 0)
    {
      ghost var dir := Directory(data[..]);
      var n := ReadU16(NUM_SLOTS_OFFSET);
      s := 0;
      while s < n
        invariant 0 <= s <= n
        invariant LowestFree(dir, 0) == LowestFree(dir, s)
      {
        var x := ReadSlot(s);
        assert x == dir[s];
        if x.flag == FREE {
          return;
        }
        s := s + 1;
      }
    }

    /** The live records and, when summed, their total length. */
    method UsedSlots() returns (used: seq<Record>)
      requires Fits(data[..])
      ensures used == Used(Directory(data[..]))
    {
      ghost var dir := Directory(data[..]);
      var n := ReadU16(NUM_SLOTS_OFFSET);
      used := [];
      var s := 0;
      while s < n
        invariant 0 <= s <= n
        invariant used == Used(dir[..s])
      {
        var x := ReadSlot(s);
        assert x == dir[s];
        assert dir[..s + 1][..s] == dir[..s];
        if Live(x) {
          used := used + [Record(s, x.off, x.len)];
        }
        s := s + 1;
      }
      assert dir[..n] == dir;
    }

    method GetFreeSpace() returns (space: nat)
      requires Fits(data[..])
      ensures space == FreeSpace(data[..])
    {
      var used := UsedSlots();
      var n := ReadU16(NUM_SLOTS_OFFSET);
      var total, i := 0, 0;
      while i < |used|
        invariant 0 <= i <= |used|
        invariant total == SumLen(used[..i])
      {
        SumLenLast(used[..i + 1]);
        assert used[..i + 1][..i] == used[..i];
        total := total + used[i].len;
        i := i + 1;
      }
      assert used[..|used|] == used;
      UsedTotal(Directory(data[..]));
      space := SatSub(SatSub(PAGE_SIZE, BodyStart(n)), total);
    }

    /** Moves all live records to the start of the body, in place. */
    method Compact()
      requires Valid(data[..])
      modifies data
      ensures data[..] == Compacted(old(data[..]))
    {
      CompactionPlaceable(data[..]);
      var n := ReadU16(NUM_SLOTS_OFFSET);
      var used := UsedSlots();
      PlaceRecords(SortRecords(used), BodyStart(n));
    }

    method PlaceRecords(rs: seq<Record>, start: nat)
      requires Placeable(data[..], rs, start)
      modifies data
      ensures data[..] == Place(old(data[..]), rs, start)
    {
      ghost var goal := Place(data[..], rs, start);
      var w: nat, rest := start, rs;
      while rest != []
        invariant Placeable(data[..], rest, w) && Place(data[..], rest, w) == goal
        decreases |rest|
      {
        var r := rest[0];
        ghost var next := PlaceUnrolled(data[..], rest, w, r);
        PlaceRecord(r, w);
        assert data[..] == next;
        w, rest := w + r.len, rest[1..];
      }
      SetFreeStart(w);
    }

    method PlaceRecord(r: Record, w: nat)
      requires HasEntry(data[..], r.sid) && r.off + r.len <= PAGE_SIZE && w + r.len <= PAGE_SIZE
      modifies data
      ensures data[..] == PlaceOne(old(data[..]), r, w)
    {
      if r.off != w {
        CopyWithin(r.off, r.len, w);
      }
      WriteSlot(r.sid, Slot(w, r.len, IN_USE));
    }

    /** Makes room for one more directory entry and moves all offsets along. */
    method ShiftBodyForNewSlot()
      requires Fits(data[..]) && HeaderSize(data[..]) + SLOT_META <= PAGE_SIZE
      modifies data
      ensures data[..] == Shifted(old(data[..]))
    {
      ghost var d := data[..];
      var n := ReadU16(NUM_SLOTS_OFFSET);
      var lo := BodyStart(n);
      var free := GetFreeStart();
      var bodyLen := SatSub(free, lo);
      if bodyLen > 0 {
        CopyWithin(lo, Min(bodyLen, PAGE_SIZE - (lo + SLOT_META)), lo + SLOT_META);
      }
      CopyFrom(lo, Zeros(SLOT_META));
      assert data[..] == ShiftBody(d);
      ShiftBodyFrame(d);
      BumpOffsets(n);
      SetFreeStart(Min(free + SLOT_META, PAGE_SIZE));
    }

    method BumpOffsets(n: nat)
      requires Fits(data[..]) && n == NumSlots(data[..])
      modifies data
      ensures data[..] == Bumped(old(data[..]), n)
    {
      ghost var b := data[..];
      var s := 0;
      while s < n
        invariant 0 <= s <= n
        invariant data[..] == Bumped(b, s)
      {
        var x := ReadSlot(s);
        BumpedNext(b, s, data[..], x);
        if Live(x) {
          WriteSlot(s, Slot((x.off + SLOT_META) % 65536, x.len, IN_USE));
        }
        s := s + 1;
      }
    }

    method AddEntry(n: nat)
      requires Fits(data[..]) && n == NumSlots(data[..]) && HeaderSize(data[..]) + SLOT_META <= PAGE_SIZE
      modifies data
      ensures data[..] == Grow(old(data[..]))
    {
      if n > 0 {
        ShiftBodyForNewSlot();
      }
      WriteU16(NUM_SLOTS_OFFSET, n + 1);
    }

    method StoreAt(s: nat, at: nat, v: Bytes)
      requires HasEntry(data[..], s) && at + |v| <= PAGE_SIZE
      modifies data
      ensures data[..] == Store(old(data[..]), s, at, v)
    {
      CopyFrom(at, v);
      WriteSlot(s, Slot(at, |v|, IN_USE));
      SetFreeStart(at + |v|);
    }

    /** Inserts a value; away from the overrun this is insertion into the abstract page. */
    method AddValue(v: Bytes) returns (slot: Option<nat>)
      requires Valid(data[..])
      modifies data
      ensures (data[..], slot) == Add(old(data[..]), v)
      ensures AddResult(old(data[..]), v, data[..], slot)
    {
      AddAnswers(data[..], v);
      if |v| > PAGE_SIZE {
        return None;
      }
      var s := FindLowestFreeSlot();
      var n := ReadU16(NUM_SLOTS_OFFSET);
      var extra := if s >= n then SLOT_META else 0;
      var space := GetFreeSpace();
      if space < |v| + extra {
        return None;
      }
      slot := Insert(s, n, extra, v);
    }

    /** The part of `add_value` after the refusals: compacts, makes a slot entry and stores, as far as needed. */
    method Insert(s: nat, n: nat, extra: nat, v: Bytes) returns (slot: Option<nat>)
      requires Valid(data[..]) && !Refused(data[..], v)
      requires s == LowestFree(Directory(data[..]), 0) && n == NumSlots(data[..]) && extra == ExtraHeader(data[..])
      modifies data
      ensures (data[..], slot) == Add(old(data[..]), v)
    {
      ghost var d := data[..];
      ContiguousHeader(d, |v|);
      var free := GetFreeStart();
      if SatSub(PAGE_SIZE, free + extra) < |v| {
        Compact();
      }
      assert data[..] == MakeContiguous(d, |v|);
      if s >= n {
        AddEntry(n);
      }
      var at := GetFreeStart();
      if at + |v| > PAGE_SIZE {
        return None;
      }
      StoreAt(s, at, v);
      return Some(s);
    }

    method ReadValue(s: nat) returns (v: Option<Bytes>)
      requires Fits(data[..])
      ensures v == GetValue(data[..], s)
    {
      var n := ReadU16(NUM_SLOTS_OFFSET);
      if s >= n {
        return None;
      }
      var x := ReadSlot(s);
      assert x == Directory(data[..])[s];
      if x.flag != IN_USE || x.off + x.len > PAGE_SIZE {
        return None;
      }
      return Some(data[x.off..x.off + x.len]);
    }

    method DeleteValue(s: nat) returns (ok: bool)
      requires Valid(data[..])
      modifies data
      ensures (data[..], ok) == Delete(old(data[..]), s)
      ensures Valid(data[..]) && (Abs(data[..]), ok) == AbsDelete(Abs(old(data[..])), s)
    {
      DeleteRefines(data[..], s);
      var n := ReadU16(NUM_SLOTS_OFFSET);
      if s >= n {
        return false;
      }
      var x := ReadSlot(s);
      if x.flag != IN_USE {
        return false;
      }
      data[BodyStart(s) + 4] := FREE;
      return true;
    }
  }

  // ----- the consuming iterator -----

  /** The stored values from slot `s` on, with their slot ids. */
  function LivePairs(a: AbstractPage, s: nat): seq<(Bytes, nat)>
    decreases |a| - s
  {
    if s >= |a| then []
    else (if a[s].Some? then [(a[s].value, s)] else []) + LivePairs(a, s + 1)
  }

  /** The listed pairs are exactly the stored ones, in ascending slot order. */
  lemma {:induction false} LivePairsExact(a: AbstractPage, s: nat)
    ensures forall v, t :: (v, t) in LivePairs(a, s) <==> s <= t < |a| && a[t] == Some(v)
    ensures forall i, j :: 0 <= i < j < |LivePairs(a, s)| ==> LivePairs(a, s)[i].1 < LivePairs(a, s)[j].1
    decreases |a| - s
  {
    if s < |a| {
      LivePairsExact(a, s + 1);
      var rest := LivePairs(a, s + 1);
      forall i | 0 <= i < |rest| ensures s < rest[i].1 {
        assert (rest[i].0, rest[i].1) in rest;
      }
    }
  }

  class PageIterator {
    const page: Page
    var current: nat
    const numSlots: nat

    constructor (p: Page)
      requires Valid(p.data[..])
      ensures page == p && current == 0 && numSlots == NumSlots(p.data[..])
      ensures Rest() == LivePairs(Abs(p.data[..]), 0)
    {
      page := p;
      current := 0;
      numSlots := p.data[NUM_SLOTS_OFFSET] as int + 256 * (p.data[NUM_SLOTS_OFFSET + 1] as int);
    }

    ghost predicate Ok()
      reads this, page.data
    {
      Valid(page.data[..]) && numSlots == NumSlots(page.data[..])
    }

    /** What the iterator has still to yield. */
    ghost function Rest(): seq<(Bytes, nat)>
      requires Ok()
      reads this, page.data
    {
      LivePairs(Abs(page.data[..]), current)
    }

    method Next() returns (item: Option<(Bytes, nat)>)
      requires Ok()
      modifies this
      ensures Ok()
      ensures old(Rest()) == [] ==> item == None && Rest() == []
      ensures old(Rest()) != [] ==> item == Some(old(Rest())[0]) && Rest() == old(Rest())[1..]
    {
      while current < numSlots
        invariant Ok() && Rest() == old(Rest())
        decreases numSlots - current
      {
        var s := current;
        current := current + 1;
        var v := page.ReadValue(s);
        if v.Some? {
          assert old(Rest()) == [(v.value, s)] + Rest();
          return Some((v.value, s));
        }
      }
      return None;
    }
  }
}
