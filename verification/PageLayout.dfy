/** The byte layout of a slotted heap page: an 8-byte header, six bytes of
    directory per slot, then the record body.  Everything here is a pure
    function of the page's 4096 bytes. */
module PageLayout {
  const PAGE_SIZE: nat := 4096
  const NUM_SLOTS_OFFSET: nat := 2
  const FREE_START_OFFSET: nat := 4
  const FIXED_META: nat := 8
  const SLOT_META: nat := 6
  const IN_USE: byte := 1
  const FREE: byte := 0

  type byte = b: int | 0 <= b < 256
  type Bytes = seq<byte>

  /** One directory entry. */
  datatype Slot = Slot(off: nat, len: nat, flag: byte)

  function Min(a: int, b: int): int { if a <= b then a else b }

  function SatSub(a: nat, b: nat): nat { if a < b then 0 else a - b }

  // ----- little-endian fields -----

  function U16(d: Bytes, i: nat): (v: nat)
    requires i + 2 <= |d|
    ensures v < 65536
  {
    d[i] as int + 256 * (d[i + 1] as int)
  }

  /** Writes `v as u16`, so the two low bytes of `v`. */
  function PutU16(d: Bytes, i: nat, v: nat): (r: Bytes)
    requires i + 2 <= |d|
    ensures |r| == |d|
    ensures v < 65536 ==> U16(r, i) == v
    ensures forall k :: 0 <= k < |d| && k != i && k != i + 1 ==> r[k] == d[k]
  {
    d[i := v % 256][i + 1 := (v / 256) % 256]
  }

  // ----- the header -----

  function NumSlots(d: Bytes): nat
    requires |d| == PAGE_SIZE
  {
    U16(d, NUM_SLOTS_OFFSET)
  }

  function StoredFreeStart(d: Bytes): nat
    requires |d| == PAGE_SIZE
  {
    U16(d, FREE_START_OFFSET)
  }

  function PageId(d: Bytes): nat
    requires |d| == PAGE_SIZE
  {
    U16(d, 0)
  }

  function BodyStart(n: nat): nat { FIXED_META + n * SLOT_META }

  function HeaderSize(d: Bytes): nat
    requires |d| == PAGE_SIZE
  {
    BodyStart(NumSlots(d))
  }

  /** The stored value clamped from below to the body start and from above to the page size. */
  function FreeStart(d: Bytes): nat
    requires |d| == PAGE_SIZE
  {
    Min(if StoredFreeStart(d) < HeaderSize(d) then HeaderSize(d) else StoredFreeStart(d), PAGE_SIZE)
  }

  function PutFreeStart(d: Bytes, pos: nat): (r: Bytes)
    requires |d| == PAGE_SIZE
    ensures |r| == |d|
  {
    PutU16(d, FREE_START_OFFSET, Min(pos, PAGE_SIZE))
  }

  function PutNumSlots(d: Bytes, n: nat): (r: Bytes)
    requires |d| == PAGE_SIZE
    ensures |r| == |d|
  {
    PutU16(d, NUM_SLOTS_OFFSET, n)
  }

  // ----- the slot directory -----

  predicate HasEntry(d: Bytes, s: nat) { |d| == PAGE_SIZE && BodyStart(s) + SLOT_META <= PAGE_SIZE }

  function SlotAt(d: Bytes, s: nat): Slot
    requires HasEntry(d, s)
  {
    Slot(U16(d, BodyStart(s)), U16(d, BodyStart(s) + 2), d[BodyStart(s) + 4])
  }

  function PutSlot(d: Bytes, s: nat, e: Slot): (r: Bytes)
    requires HasEntry(d, s)
    ensures |r| == |d|
  {
    PutU16(PutU16(d, BodyStart(s), e.off), BodyStart(s) + 2, e.len)[BodyStart(s) + 4 := e.flag]
  }

  /** The whole header lies on the page. */
  predicate Fits(d: Bytes) { |d| == PAGE_SIZE && HeaderSize(d) <= PAGE_SIZE }

  function Directory(d: Bytes): (dir: seq<Slot>)
    requires Fits(d)
    ensures |dir| == NumSlots(d)
  {
    seq(NumSlots(d), s requires 0 <= s < NumSlots(d) => SlotAt(d, s))
  }

  // ----- bulk copies -----

  /** `copy_within(src..src+len, dst)`: all bytes are read before any is written. */
  function Move(d: Bytes, src: nat, len: nat, dst: nat): (r: Bytes)
    requires src + len <= |d| && dst + len <= |d|
    ensures |r| == |d|
    ensures forall k :: 0 <= k < |d| ==> r[k] == if dst <= k < dst + len then d[src + (k - dst)] else d[k]
  {
    d[..dst] + d[src..src + len] + d[dst + len..]
  }

  function Splice(d: Bytes, at: nat, v: Bytes): (r: Bytes)
    requires at + |v| <= |d|
    ensures |r| == |d|
    ensures forall k :: 0 <= k < |d| ==> r[k] == if at <= k < at + |v| then v[k - at] else d[k]
  {
    d[..at] + v + d[at + |v|..]
  }

  function Zeros(n: nat): (r: Bytes)
    ensures |r| == n && forall k :: 0 <= k < n ==> r[k] == 0
  {
    seq(n, _ => 0)
  }

  /** `Page::new`. */
  function NewPage(pageId: nat): (r: Bytes)
    ensures |r| == PAGE_SIZE
  {
    PutU16(PutU16(PutU16(Zeros(PAGE_SIZE), 0, pageId), NUM_SLOTS_OFFSET, 0), FREE_START_OFFSET, 8)
  }

  // ----- what a write changes -----

  lemma PutSlotHeader(d: Bytes, s: nat, e: Slot)
    requires HasEntry(d, s)
    ensures var r := PutSlot(d, s, e);
            && NumSlots(r) == NumSlots(d) && StoredFreeStart(r) == StoredFreeStart(d) && PageId(r) == PageId(d)
            && (forall k :: 0 <= k < PAGE_SIZE && !(BodyStart(s) <= k < BodyStart(s) + 5) ==> r[k] == d[k])
  {
  }

  lemma PutSlotEntry(d: Bytes, s: nat, e: Slot)
    requires HasEntry(d, s) && e.off < 65536 && e.len < 65536
    ensures SlotAt(PutSlot(d, s, e), s) == e
  {
  }

  lemma SameEntry(d: Bytes, e: Bytes, s: nat)
    requires HasEntry(d, s) && |e| == PAGE_SIZE
    requires forall k :: BodyStart(s) <= k < BodyStart(s) + SLOT_META ==> d[k] == e[k]
    ensures SlotAt(e, s) == SlotAt(d, s)
  {
  }

  /** Writing one entry updates the directory there and nowhere else. */
  lemma PutSlotDirectory(d: Bytes, s: nat, e: Slot)
    requires Fits(d) && s < NumSlots(d) && e.off < 65536 && e.len < 65536
    ensures var r := PutSlot(d, s, e);
            Fits(r) && Directory(r) == Directory(d)[s := e]
  {
    var r := PutSlot(d, s, e);
    PutSlotHeader(d, s, e);
    forall t | 0 <= t < NumSlots(d) ensures Directory(r)[t] == Directory(d)[s := e][t] {
      if t == s {
        PutSlotEntry(d, s, e);
      } else {
        assert BodyStart(t) + SLOT_META <= BodyStart(s) || BodyStart(s) + SLOT_META <= BodyStart(t);
        SameEntry(d, r, t);
      }
    }
  }

  /** The directory is a function of the header bytes alone. */
  lemma SameDirectory(d: Bytes, e: Bytes)
    requires Fits(d) && |e| == PAGE_SIZE
    requires forall k :: 0 <= k < HeaderSize(d) ==> d[k] == e[k]
    ensures NumSlots(e) == NumSlots(d) && StoredFreeStart(e) == StoredFreeStart(d) && PageId(e) == PageId(d)
    ensures Fits(e) && Directory(e) == Directory(d)
  {
    forall t | 0 <= t < NumSlots(d) ensures Directory(e)[t] == Directory(d)[t] {
      SameEntry(d, e, t);
    }
  }

  lemma PutFreeStartFrame(d: Bytes, pos: nat)
    requires Fits(d) && pos <= PAGE_SIZE
    ensures var e := PutFreeStart(d, pos);
            && NumSlots(e) == NumSlots(d) && StoredFreeStart(e) == pos && PageId(e) == PageId(d)
            && Fits(e) && Directory(e) == Directory(d)
            && (forall k :: FIXED_META <= k < PAGE_SIZE ==> e[k] == d[k])
  {
    var e := PutFreeStart(d, pos);
    forall t | 0 <= t < NumSlots(d) ensures Directory(e)[t] == Directory(d)[t] {
      SameEntry(d, e, t);
    }
  }

  /** Raising the slot count by one keeps every existing entry. */
  lemma PutNumSlotsFrame(d: Bytes)
    requires Fits(d) && HeaderSize(d) + SLOT_META <= PAGE_SIZE
    ensures var e := PutNumSlots(d, NumSlots(d) + 1);
            && NumSlots(e) == NumSlots(d) + 1 && StoredFreeStart(e) == StoredFreeStart(d) && PageId(e) == PageId(d)
            && Fits(e) && Directory(e) == Directory(d) + [SlotAt(d, NumSlots(d))]
            && (forall k :: FREE_START_OFFSET <= k < PAGE_SIZE ==> e[k] == d[k])
  {
    var n := NumSlots(d);
    var e := PutNumSlots(d, n + 1);
    forall t | 0 <= t <= n ensures Directory(e)[t] == (Directory(d) + [SlotAt(d, n)])[t] {
      SameEntry(d, e, t);
    }
  }

  lemma NewPageHeader(pageId: nat)
    requires pageId < 65536
    ensures var d := NewPage(pageId);
            NumSlots(d) == 0 && StoredFreeStart(d) == FIXED_META && PageId(d) == pageId
  {
  }
}
