/**
  The slotted page (pysql/storage/page.py): records of varying length in a page of fixed size, found through a
  directory of slots.  The page is a byte array changed in place; it is proved to behave as a map from slot
  numbers to records.
*/
module SlottedPages {
  import opened Common
  import opened PageBytes

  // ----- Slots -----

  /** The bytes of live records. */
  function LiveBytes(slots: seq<Slot>): nat {
    if slots == [] then 0 else LiveBytes(slots[..|slots| - 1]) + slots[|slots| - 1].length
  }

  predicate Within(s: Slot, dataEnd: nat) {
    0 <= s.offset <= PAGE_SIZE && (s.length > 0 ==> dataEnd <= s.offset && s.offset + s.length <= PAGE_SIZE)
  }

  predicate Apart(s: Slot, t: Slot) {
    s.length == 0 || t.length == 0 || s.offset + s.length <= t.offset || t.offset + t.length <= s.offset
  }

  /** Live records lie in the data region and do not overlap. */
  predicate SlotsOk(slots: seq<Slot>, dataEnd: nat) {
    && (forall i :: 0 <= i < |slots| ==> Within(slots[i], dataEnd))
    && (forall i, j :: 0 <= i < j < |slots| ==> Apart(slots[i], slots[j]))
  }

  function Record(bytes: seq<Byte>, s: Slot): seq<Byte>
    requires 0 <= s.offset && s.offset + s.length <= |bytes|
  {
    bytes[s.offset..s.offset + s.length]
  }

  /** What the page holds. */
  function Records(bytes: seq<Byte>, slots: seq<Slot>, dataEnd: nat): map<nat, seq<Byte>>
    requires |bytes| == PAGE_SIZE && SlotsOk(slots, dataEnd)
  {
    map i: nat | i < |slots| && slots[i].length > 0 :: Record(bytes, slots[i])
  }

  /** The positions that live records occupy. */
  ghost function Covered(slots: seq<Slot>): set<int> {
    if slots == [] then {}
    else
      var last := slots[|slots| - 1];
      Covered(slots[..|slots| - 1]) + Positions(last.offset, last.length)
  }

  ghost function Positions(from: int, n: nat): (r: set<int>)
    ensures forall p: int :: p in r <==> from <= p < from + n
    ensures |r| == n
  {
    if n == 0 then {} else Positions(from, n - 1) + {from + n - 1}
  }

  lemma {:induction false} CoveredBy(slots: seq<Slot>, p: int)
    requires p in Covered(slots)
    ensures exists i: nat :: i < |slots| && slots[i].offset <= p < slots[i].offset + slots[i].length
  {
    var m := |slots| - 1;
    if p in Covered(slots[..m]) {
      CoveredBy(slots[..m], p);
      var i: nat :| i < m && slots[..m][i].offset <= p < slots[..m][i].offset + slots[..m][i].length;
      assert slots[i].offset <= p < slots[i].offset + slots[i].length;
    }
  }

  lemma {:induction false} CoveredSize(slots: seq<Slot>)
    requires forall i, j :: 0 <= i < j < |slots| ==> Apart(slots[i], slots[j])
    ensures |Covered(slots)| == LiveBytes(slots)
  {
    if slots != [] {
      var m := |slots| - 1;
      CoveredSize(slots[..m]);
      var a, b := Covered(slots[..m]), Positions(slots[m].offset, slots[m].length);
      forall p | p in a
        ensures p !in b
      {
        CoveredBy(slots[..m], p);
        var i: nat :| i < m && slots[..m][i].offset <= p < slots[..m][i].offset + slots[..m][i].length;
        assert Apart(slots[i], slots[m]);
      }
      assert a !! b;
    }
  }

  /** Records that do not overlap fit in the region they lie in. */
  lemma LiveBytesFit(slots: seq<Slot>, dataEnd: nat)
    requires SlotsOk(slots, dataEnd) && dataEnd <= PAGE_SIZE
    ensures LiveBytes(slots) <= PAGE_SIZE - dataEnd
  {
    CoveredSize(slots);
    forall p | p in Covered(slots)
      ensures p in Positions(dataEnd, PAGE_SIZE - dataEnd)
    {
      CoveredBy(slots, p);
      var i: nat :| i < |slots| && slots[i].offset <= p < slots[i].offset + slots[i].length;
      assert Within(slots[i], dataEnd);
    }
    SubsetSize(Covered(slots), Positions(dataEnd, PAGE_SIZE - dataEnd));
  }

  lemma {:induction false} LiveBytesUpdate(slots: seq<Slot>, i: nat, s: Slot)
    requires i < |slots|
    ensures LiveBytes(slots[i := s]) == LiveBytes(slots) - slots[i].length + s.length
  {
    var m := |slots| - 1;
    if i == m {
      assert slots[i := s][..m] == slots[..m];
    } else {
      assert slots[i := s][..m] == slots[..m][i := s];
      LiveBytesUpdate(slots[..m], i, s);
    }
  }

  lemma LiveBytesAppend(slots: seq<Slot>, s: Slot)
    ensures LiveBytes(slots + [s]) == LiveBytes(slots) + s.length
  {
    assert (slots + [s])[..|slots|] == slots;
  }

  const NO_PAGE := 0xFFFF_FFFF

  /** The flags with the dirty bit set. */
  function Marked(flags: nat): nat {
    if flags % 2 == 0 then flags + 1 else flags
  }

  /** The dirty bit, the lowest, is set, and the others are as they were. */
  predicate IsDirtied(before: nat, after: nat) {
    after % 2 == 1 && after / 2 == before / 2
  }

  lemma MarkedDirties(flags: nat)
    ensures IsDirtied(flags, Marked(flags)) && IsDirtied(flags, Marked(Marked(flags)))
  {
  }

  lemma DirtiedTwice(a: nat, b: nat, c: nat)
    requires IsDirtied(a, b) && IsDirtied(b, c)
    ensures IsDirtied(a, c)
  {
  }

  // ----- Changes to the directory -----

  /** A record written just below the data, and slot i pointed at it. */
  lemma SlotFilled(bytes: seq<Byte>, bytes': seq<Byte>, slots: seq<Slot>, i: nat, dataEnd: nat, record: seq<Byte>)
    requires |bytes| == |bytes'| == PAGE_SIZE && SlotsOk(slots, dataEnd) && i < |slots| && slots[i].length == 0
    requires |record| <= dataEnd <= PAGE_SIZE && bytes'[dataEnd - |record|..dataEnd] == record
    requires bytes'[dataEnd..] == bytes[dataEnd..]
    ensures var slots' := slots[i := Slot(dataEnd - |record|, |record|)];
      && SlotsOk(slots', dataEnd - |record|)
      && Records(bytes', slots', dataEnd - |record|)
         == if record == [] then Records(bytes, slots, dataEnd) else Records(bytes, slots, dataEnd)[i := record]
  {
    var slots', end' := slots[i := Slot(dataEnd - |record|, |record|)], dataEnd - |record|;
    forall j, k | 0 <= j < k < |slots'|
      ensures Apart(slots'[j], slots'[k])
    {
      assert Apart(slots[j], slots[k]) && Within(slots[j], dataEnd) && Within(slots[k], dataEnd);
    }
    forall j | 0 <= j < |slots'|
      ensures Within(slots'[j], end')
    {
      assert Within(slots[j], dataEnd);
    }
    forall j: nat | j < |slots| && j != i && slots[j].length > 0
      ensures Record(bytes', slots'[j]) == Record(bytes, slots[j])
    {
      SameRecord(bytes, bytes', slots[j], dataEnd);
    }
  }

  lemma SameRecord(bytes: seq<Byte>, bytes': seq<Byte>, s: Slot, from: nat)
    requires |bytes| == |bytes'| == PAGE_SIZE && from <= PAGE_SIZE && bytes'[from..] == bytes[from..]
    requires from <= s.offset && s.offset + s.length <= PAGE_SIZE
    ensures Record(bytes', s) == Record(bytes, s)
  {
    assert Record(bytes', s) == bytes'[from..][s.offset - from..s.offset - from + s.length];
    assert Record(bytes, s) == bytes[from..][s.offset - from..s.offset - from + s.length];
  }

  /** Of the part of a record that lies before `front` nothing is changed. */
  predicate Spared(before: seq<Byte>, after: seq<Byte>, s: Slot, front: nat)
    requires 0 <= s.offset && s.offset + s.length <= |before| == |after|
  {
    forall p :: s.offset <= p < s.offset + s.length && p < front ==> after[p] == before[p]
  }

  lemma RecordSpared(before: seq<Byte>, after: seq<Byte>, s: Slot, front: nat)
    requires 0 <= s.offset && s.offset + s.length <= |before| == |after|
    requires forall p :: front <= p < |before| ==> after[p] == before[p]
    ensures Record(after, s) == Record(before, s) <==> Spared(before, after, s, front)
  {
    if Record(after, s) == Record(before, s) {
      forall p | s.offset <= p < s.offset + s.length && p < front
        ensures after[p] == before[p]
      {
        assert Record(after, s)[p - s.offset] == Record(before, s)[p - s.offset];
      }
    }
  }

  /** A slot appended for no record yet. */
  lemma SlotAdded(bytes: seq<Byte>, slots: seq<Slot>, dataEnd: nat, s: Slot)
    requires |bytes| == PAGE_SIZE && SlotsOk(slots, dataEnd) && s.length == 0 && 0 <= s.offset <= PAGE_SIZE
    ensures SlotsOk(slots + [s], dataEnd) && Records(bytes, slots + [s], dataEnd) == Records(bytes, slots, dataEnd)
  {
  }

  lemma SlotCleared(bytes: seq<Byte>, slots: seq<Slot>, i: nat, dataEnd: nat, s: Slot)
    requires |bytes| == PAGE_SIZE && SlotsOk(slots, dataEnd) && i < |slots| && s.length == 0
    requires 0 <= s.offset <= PAGE_SIZE
    ensures SlotsOk(slots[i := s], dataEnd)
    ensures Records(bytes, slots[i := s], dataEnd) == Records(bytes, slots, dataEnd) - {i}
  {
    var slots' := slots[i := s];
    forall j, k | 0 <= j < k < |slots|
      ensures Apart(slots'[j], slots'[k])
    {
      assert Apart(slots[j], slots[k]);
    }
  }

  /** A record overwritten by one no longer than it. */
  lemma SlotShrunk(bytes: seq<Byte>, bytes': seq<Byte>, slots: seq<Slot>, i: nat, dataEnd: nat, record: seq<Byte>)
    requires |bytes| == |bytes'| == PAGE_SIZE && SlotsOk(slots, dataEnd) && i < |slots|
    requires 0 < |record| <= slots[i].length
    requires forall p :: 0 <= p < PAGE_SIZE ==>
      bytes'[p] == if slots[i].offset <= p < slots[i].offset + |record| then record[p - slots[i].offset] else bytes[p]
    ensures var slots' := slots[i := Slot(slots[i].offset, |record|)];
      SlotsOk(slots', dataEnd) && Records(bytes', slots', dataEnd) == Records(bytes, slots, dataEnd)[i := record]
  {
    var slots' := slots[i := Slot(slots[i].offset, |record|)];
    assert Within(slots[i], dataEnd);
    forall j, k | 0 <= j < k < |slots|
      ensures Apart(slots'[j], slots'[k])
    {
      assert Apart(slots[j], slots[k]);
    }
    assert Record(bytes', slots'[i]) == record;
    forall j: nat | j < |slots| && j != i && slots[j].length > 0
      ensures Within(slots[j], dataEnd) && Record(bytes', slots'[j]) == Record(bytes, slots[j])
    {
      assert if j < i then Apart(slots[j], slots[i]) else Apart(slots[i], slots[j]);
    }
  }

  lemma SlotsSwapped(bytes: seq<Byte>, slots: seq<Slot>, i: nat, j: nat, dataEnd: nat)
    requires |bytes| == PAGE_SIZE && SlotsOk(slots, dataEnd) && i < |slots| && j < |slots| && i != j
    ensures var slots', r := slots[i := slots[j]][j := slots[i]], Records(bytes, slots, dataEnd);
      SlotsOk(slots', dataEnd) &&
      forall k: nat ::
        (k in Records(bytes, slots', dataEnd) <==> Other(i, j, k) in r)
        && (k in Records(bytes, slots', dataEnd) ==> Records(bytes, slots', dataEnd)[k] == r[Other(i, j, k)])
  {
    var slots' := slots[i := slots[j]][j := slots[i]];
    forall a, b | 0 <= a < b < |slots|
      ensures Apart(slots'[a], slots'[b])
    {
      var x, y := Other(i, j, a), Other(i, j, b);
      assert if x < y then Apart(slots[x], slots[y]) else Apart(slots[y], slots[x]);
    }
    forall a | 0 <= a < |slots|
      ensures Within(slots'[a], dataEnd)
    {
      assert Within(slots[Other(i, j, a)], dataEnd);
    }
  }

  lemma Swapped(c: map<nat, seq<Byte>>, c': map<nat, seq<Byte>>, i: nat, j: nat, record: seq<Byte>)
    requires i !in c && j !in c && i != j
    requires forall k: nat ::
      (k in c' <==> Other(i, j, k) in c[j := record]) && (k in c' ==> c'[k] == c[j := record][Other(i, j, k)])
    ensures c' == c[i := record]
  {
    forall k: nat
      ensures k in c' <==> k in c[i := record]
      ensures k in c' ==> c'[k] == c[i := record][k]
    {
      assert k in c' <==> Other(i, j, k) in c[j := record];
    }
  }

  /** k, with i and j exchanged. */
  function Other(i: nat, j: nat, k: nat): nat {
    if k == i then j else if k == j then i else k
  }

  predicate FieldsFit(h: PageHeader) {
    && h.pageId < 0x1_0000_0000 && h.pageType <= 5 && h.flags < 256 && h.nextPage < 0x1_0000_0000
    && h.prevPage < 0x1_0000_0000
    && -LIMIT_64 <= 2 * h.lsn < LIMIT_64 && h.checksum < 0x1_0000_0000
  }

  lemma SameRecords(bytes: seq<Byte>, bytes': seq<Byte>, slots: seq<Slot>, dataEnd: nat)
    requires |bytes| == |bytes'| == PAGE_SIZE && SlotsOk(slots, dataEnd) && dataEnd <= PAGE_SIZE
    requires forall p :: dataEnd <= p < PAGE_SIZE ==> bytes'[p] == bytes[p]
    ensures Records(bytes', slots, dataEnd) == Records(bytes, slots, dataEnd)
  {
    assert bytes'[dataEnd..] == bytes[dataEnd..];
    forall i: nat | i < |slots| && slots[i].length > 0
      ensures Record(bytes', slots[i]) == Record(bytes, slots[i])
    {
      assert Within(slots[i], dataEnd);
      SameRecord(bytes, bytes', slots[i], dataEnd);
    }
  }

  /** What from_bytes makes of a page's bytes; nothing if the type is unknown or the directory does not fit the page. */
  function FromBytes(bytes: seq<Byte>): Option<(PageHeader, seq<Slot>)>
    requires |bytes| == PAGE_SIZE
  {
    var h := DecodeHeader(bytes);
    if h.None? || HEADER_SIZE + SLOT_SIZE * h.value.numSlots > PAGE_SIZE then None
    else Some((h.value, DecodeSlots(bytes, h.value.numSlots)))
  }

  /** Reading back a written page gives its header, its slots and its records, and a checksum that verifies. */
  lemma BytesRoundTrip(bytes: seq<Byte>, h: PageHeader, slots: seq<Slot>, crc: seq<Byte> -> nat)
    requires |bytes| == PAGE_SIZE && HeaderFits(h) && h.numSlots == |slots| && SlotsFit(slots)
    requires HEADER_SIZE + SLOT_SIZE * |slots| <= h.dataEnd <= PAGE_SIZE && SlotsOk(slots, h.dataEnd)
    requires forall b :: crc(b) < 0x1_0000_0000
    ensures var sum := crc(Checked(Imprint(bytes, h, slots)));
      var h' := h.(checksum := sum);
      && HeaderFits(h')
      && var b := Imprint(bytes, h', slots);
         && FromBytes(b) == Some((h', slots)) && crc(Checked(b)) == h'.checksum
         && Records(b, slots, h.dataEnd) == Records(bytes, slots, h.dataEnd)
  {
    var sum := crc(Checked(Imprint(bytes, h, slots)));
    var h' := h.(checksum := sum);
    ChecksumApart(bytes, h, slots, sum);
    PageRoundTrip(bytes, h', slots);
    SameRecords(bytes, Imprint(bytes, h', slots), slots, h.dataEnd);
  }

  // ----- Packing -----

  /** Slot i once all live records lie together at the end of the page, the first of them last. */
  function PackedSlot(slots: seq<Slot>, i: nat): Slot
    requires i < |slots|
  {
    if slots[i].length == 0 || LiveBytes(slots[..i + 1]) > PAGE_SIZE then slots[i]
    else Slot(PAGE_SIZE - LiveBytes(slots[..i + 1]), slots[i].length)
  }

  predicate IsPacked(was: seq<Slot>, slots: seq<Slot>) {
    |slots| == |was| && forall i :: 0 <= i < |slots| ==> slots[i] == PackedSlot(was, i)
  }

  lemma {:induction false} LiveBytesGrow(slots: seq<Slot>, i: nat, j: nat)
    requires i <= j <= |slots|
    ensures LiveBytes(slots[..i]) <= LiveBytes(slots[..j])
    decreases j - i
  {
    if i < j {
      LiveBytesStep(slots, j - 1);
      LiveBytesGrow(slots, i, j - 1);
    }
  }

  /** The first n records stand where their slots say, from dataEnd up. */
  predicate Settled(bytes: seq<Byte>, slots: seq<Slot>, live: seq<seq<Byte>>, n: nat, dataEnd: nat) {
    |bytes| == PAGE_SIZE && n <= |slots| && n <= |live| &&
    forall j :: 0 <= j < n && live[j] != [] ==>
      dataEnd <= slots[j].offset && slots[j].offset + slots[j].length <= PAGE_SIZE && Record(bytes, slots[j]) == live[j]
  }

  lemma NoneSettled(bytes: seq<Byte>, slots: seq<Slot>, live: seq<seq<Byte>>, dataEnd: nat)
    requires |bytes| == PAGE_SIZE
    ensures Settled(bytes, slots, live, 0, dataEnd)
  {
  }

  lemma SettlesEmpty(bytes: seq<Byte>, slots: seq<Slot>, live: seq<seq<Byte>>, n: nat, dataEnd: nat)
    requires Settled(bytes, slots, live, n, dataEnd) && n < |slots| && n < |live| && live[n] == []
    ensures Settled(bytes, slots, live, n + 1, dataEnd)
  {
  }

  lemma SettlesOne(bytes: seq<Byte>, bytes': seq<Byte>, slots: seq<Slot>, live: seq<seq<Byte>>, n: nat, dataEnd: nat)
    requires Settled(bytes, slots, live, n, dataEnd) && n < |slots| && n < |live|
    requires |live[n]| <= dataEnd <= PAGE_SIZE == |bytes'| && bytes'[dataEnd..] == bytes[dataEnd..]
    requires bytes'[dataEnd - |live[n]|..dataEnd] == live[n]
    ensures Settled(bytes', slots[n := Slot(dataEnd - |live[n]|, |live[n]|)], live, n + 1, dataEnd - |live[n]|)
  {
    forall j | 0 <= j < n && live[j] != []
      ensures Record(bytes', slots[j]) == live[j]
    {
      SameRecord(bytes, bytes', slots[j], dataEnd);
    }
  }

  /** The record of every slot, empty where there is none. */
  predicate Lists(live: seq<seq<Byte>>, n: nat, bytes: seq<Byte>, slots: seq<Slot>, from: nat)
    requires |bytes| == PAGE_SIZE && n <= |slots|
  {
    |live| == n && forall i :: 0 <= i < n ==>
      |live[i]| == slots[i].length && Within(slots[i], from)
        && (slots[i].length > 0 ==> live[i] == Record(bytes, slots[i]))
  }

  /** Slots of the same lengths over the same records hold the same. */
  lemma SettledRecords(before: seq<Byte>, was: seq<Slot>, from: nat, bytes: seq<Byte>, slots: seq<Slot>,
      live: seq<seq<Byte>>, dataEnd: nat)
    requires |before| == |bytes| == PAGE_SIZE && SlotsOk(was, from) && SlotsOk(slots, dataEnd) && IsPacked(was, slots)
    requires Settled(bytes, slots, live, |slots|, dataEnd) && Lists(live, |was|, before, was, from)
    ensures Records(bytes, slots, dataEnd) == Records(before, was, from)
  {
    forall i: nat | i < |slots|
      ensures slots[i].length == was[i].length == |live[i]|
      ensures slots[i].length > 0 ==> Within(was[i], from) && Record(bytes, slots[i]) == Record(before, was[i])
    {
      assert slots[i] == PackedSlot(was, i);
    }
  }

  lemma OffsetsWithin(slots: seq<Slot>, dataEnd: nat)
    requires SlotsOk(slots, dataEnd)
    ensures forall i :: 0 <= i < |slots| ==> 0 <= slots[i].offset <= PAGE_SIZE
  {
    forall i | 0 <= i < |slots|
      ensures 0 <= slots[i].offset <= PAGE_SIZE
    {
      assert Within(slots[i], dataEnd);
    }
  }

  /** The packed slots are in order, and as long as before. */
  lemma PackedOk(was: seq<Slot>, slots: seq<Slot>)
    requires LiveBytes(was) <= PAGE_SIZE && IsPacked(was, slots)
    requires forall i :: 0 <= i < |was| ==> 0 <= was[i].offset <= PAGE_SIZE
    ensures SlotsOk(slots, PAGE_SIZE - LiveBytes(was)) && LiveBytes(slots) == LiveBytes(was)
  {
    hide LiveBytes, Within, Apart;
    forall i | 0 <= i < |was|
      ensures Within(slots[i], PAGE_SIZE - LiveBytes(was))
    {
      PackedWithin(was, i);
    }
    forall i, j | 0 <= i < j < |was|
      ensures Apart(slots[i], slots[j])
    {
      PackedApart(was, i, j);
    }
    SameLengths(was, slots);
  }

  lemma PackedWithin(was: seq<Slot>, i: nat)
    requires LiveBytes(was) <= PAGE_SIZE && i < |was| && 0 <= was[i].offset <= PAGE_SIZE
    ensures Within(PackedSlot(was, i), PAGE_SIZE - LiveBytes(was))
  {
    assert was[..|was|] == was;
    LiveBytesGrow(was, i + 1, |was|);
    LiveBytesStep(was, i);
  }

  lemma PackedApart(was: seq<Slot>, i: nat, j: nat)
    requires LiveBytes(was) <= PAGE_SIZE && i < j < |was|
    ensures Apart(PackedSlot(was, i), PackedSlot(was, j))
  {
    LiveBytesWithin(was);
    LiveBytesGrow(was, i + 1, j);
    LiveBytesStep(was, j);
  }

  lemma PackedIs(was: seq<Slot>, i: nat)
    requires i < |was| && LiveBytes(was[..i + 1]) <= PAGE_SIZE
    ensures LiveBytes(was[..i + 1]) == LiveBytes(was[..i]) + was[i].length
    ensures PackedSlot(was, i) == if was[i].length == 0 then was[i]
      else Slot(PAGE_SIZE - LiveBytes(was[..i + 1]), was[i].length)
  {
    LiveBytesStep(was, i);
  }

  lemma ListsLengths(live: seq<seq<Byte>>, bytes: seq<Byte>, slots: seq<Slot>, from: nat)
    requires |bytes| == PAGE_SIZE && Lists(live, |slots|, bytes, slots, from)
    ensures |live| == |slots| && forall i :: 0 <= i < |slots| ==> |live[i]| == slots[i].length
    ensures LiveBytes([]) == 0
  {
  }

  lemma {:induction false} SameLengths(a: seq<Slot>, b: seq<Slot>)
    requires |a| == |b| && forall i :: 0 <= i < |a| ==> a[i].length == b[i].length
    ensures LiveBytes(a) == LiveBytes(b)
  {
    if a != [] { SameLengths(a[..|a| - 1], b[..|b| - 1]); }
  }

  lemma LiveBytesWithin(slots: seq<Slot>)
    requires LiveBytes(slots) <= PAGE_SIZE
    ensures slots[..|slots|] == slots && forall i :: 0 <= i <= |slots| ==> LiveBytes(slots[..i]) <= PAGE_SIZE
  {
    assert slots[..|slots|] == slots;
    forall i | 0 <= i <= |slots|
      ensures LiveBytes(slots[..i]) <= PAGE_SIZE
    {
      LiveBytesGrow(slots, i, |slots|);
    }
  }

  lemma LiveBytesStep(slots: seq<Slot>, i: nat)
    requires i < |slots|
    ensures LiveBytes(slots[..i + 1]) == LiveBytes(slots[..i]) + slots[i].length
  {
    assert slots[..i + 1][..i] == slots[..i];
  }

  // ----- The page -----

  class Page {
    var data: array<Byte>
    var slots: seq<Slot>
    var header: PageHeader

    /** The records can be read, and the free space is what they and the directory leave. */
    ghost predicate InMemory()
      reads this, data
    {
      && data.Length == PAGE_SIZE && header.numSlots == |slots| && 0 <= header.dataEnd <= PAGE_SIZE
      && SlotsOk(slots, header.dataEnd)
      && 0 <= header.freeSpace == PAGE_SIZE - HEADER_SIZE - SLOT_SIZE * |slots| - LiveBytes(slots)
    }

    /** And the records lie beyond the directory, so that the page can be written out. */
    ghost predicate Valid()
      reads this, data
    {
      InMemory() && Gap() >= 0
    }

    ghost function Contents(): map<nat, seq<Byte>>
      requires InMemory()
      reads this, data
    {
      Records(data[..], slots, header.dataEnd)
    }

    /** The unbroken room between the slot directory and the data. */
    function Gap(): int
      reads this
    {
      header.dataEnd - HEADER_SIZE - SLOT_SIZE * |slots|
    }

    constructor (pageId: nat, pageType: nat)
      ensures Valid() && fresh(data) && Contents() == map[] && slots == [] && Gap() == header.freeSpace == 4064
      ensures header.pageId == pageId && header.pageType == pageType
    {
      data := new Byte[PAGE_SIZE](_ => 0);
      slots := [];
      header := PageHeader(pageId, pageType, 0, 0, PAGE_SIZE - HEADER_SIZE, PAGE_SIZE, NO_PAGE, NO_PAGE, 0, 0);
    }

    /** What no operation on records changes. */
    ghost function Identity(): (nat, nat, nat, nat, int)
      reads this
    {
      (header.pageId, header.pageType, header.nextPage, header.prevPage, header.lsn)
    }

    /** The free space is never less than the gap. */
    lemma GapWithinFreeSpace()
      requires InMemory()
      ensures Gap() <= header.freeSpace
    {
      LiveBytesFit(slots, header.dataEnd);
    }

    /** The first deleted slot. */
    method FirstDeleted() returns (r: Option<nat>)
      ensures r.Some? ==>
        && r.value < |slots| && slots[r.value].length == 0
        && forall j :: 0 <= j < r.value ==> slots[j].length > 0
      ensures r.None? ==> forall j :: 0 <= j < |slots| ==> slots[j].length > 0
    {
      for i := 0 to |slots|
        invariant forall j :: 0 <= j < i ==> slots[j].length > 0
      {
        if slots[i].length == 0 { return Some(i); }
      }
      return None;
    }

    ghost predicate SomeDeleted()
      reads this
    {
      exists i :: 0 <= i < |slots| && slots[i].length == 0
    }

    /** The gap is large enough for a record that passes the test on free space. */
    ghost predicate RoomFor(length: nat)
      reads this
    {
      length + SLOT_SIZE <= header.freeSpace ==> length + (if SomeDeleted() then 0 else SLOT_SIZE) <= Gap()
    }

    /** Exactly the pages on which every record that passes the test on free space finds room. */
    lemma RoomForAll()
      requires Valid()
      ensures (forall length: nat :: RoomFor(length)) <==>
        header.freeSpace < SLOT_SIZE || header.freeSpace - Gap() <= (if SomeDeleted() then SLOT_SIZE else 0)
    {
      if forall length: nat :: RoomFor(length) {
        if header.freeSpace >= SLOT_SIZE {
          var longest: nat := header.freeSpace - SLOT_SIZE;
          assert RoomFor(longest);
        }
      }
    }

    /** The record goes just below the data, wherever that is, and the slot points at it. */
    method Put(slotIndex: nat, record: seq<Byte>)
      requires InMemory() && slotIndex < |slots| && slots[slotIndex].length == 0 && |record| <= header.freeSpace
      modifies this, data
      ensures Identity() == old(Identity()) && header.flags == old(header.flags)
      ensures InMemory() <==> |record| <= old(header.dataEnd)
      ensures InMemory() <==> data.Length == PAGE_SIZE
      ensures InMemory() ==>
        && data == old(data)
        && Contents() == if record == [] then old(Contents()) else old(Contents())[slotIndex := record]
      ensures slots == old(slots)[slotIndex := Slot(header.dataEnd, |record|)]
      ensures header.dataEnd == old(header.dataEnd) - |record| && header.freeSpace == old(header.freeSpace) - |record|
    {
      if |record| <= header.dataEnd {
        Place(slotIndex, record);
      } else {
        Overrun(slotIndex, record);
      }
    }

    /**
      The record goes just below the data, under the first deleted slot or a new one.  A record that passes the test
      but finds no gap is laid over the directory; one that begins before the page makes the byte array longer.
    */
    method InsertRecord(record: seq<Byte>) returns (r: Option<nat>)
      requires InMemory()
      modifies this, data
      ensures Identity() == old(Identity())
      ensures r.None? <==> |record| + SLOT_SIZE > old(header.freeSpace)
      ensures r.None? ==> InMemory() && data == old(data) && header == old(header) && slots == old(slots)
      ensures r.None? ==> Contents() == old(Contents())
      ensures r.Some? ==> (InMemory() <==> |record| <= old(header.dataEnd))
      ensures r.Some? ==> (InMemory() <==> data.Length == PAGE_SIZE)
      ensures r.Some? && InMemory() ==> data == old(data)
      ensures r.Some? && InMemory() ==>
        Contents() == if record == [] then old(Contents()) else old(Contents())[r.value := record]
      ensures r.Some? && old(Valid()) ==> (Valid() <==> old(RoomFor(|record|)))
      ensures r.Some? && old(Valid()) && !old(RoomFor(|record|)) ==> header.dataEnd < HEADER_SIZE + SLOT_SIZE * |slots|
      ensures r.Some? && old(SomeDeleted()) ==>
        && r.value < |old(slots)| && old(slots)[r.value].length == 0
        && forall j :: 0 <= j < r.value ==> old(slots)[j].length > 0
      ensures r.Some? && old(SomeDeleted()) ==> slots == old(slots)[r.value := Slot(header.dataEnd, |record|)]
      ensures r.Some? && !old(SomeDeleted()) ==>
        r.value == |old(slots)| && slots == old(slots) + [Slot(header.dataEnd, |record|)]
      ensures r.Some? ==> header.dataEnd == old(header.dataEnd) - |record|
      ensures r.Some? ==>
        header.freeSpace == old(header.freeSpace) - |record| - (if old(SomeDeleted()) then 0 else SLOT_SIZE)
      ensures r.Some? ==> IsDirtied(old(header.flags), header.flags)
    {
      if |record| + SLOT_SIZE > header.freeSpace { return None; }
      hide SlotsOk, Records, LiveBytes, Marked, IsDirtied;
      MarkedDirties(header.flags);
      var slotIndex := FirstDeleted();
      if slotIndex.None? {
        slotIndex := Some(|slots|);
        AddSlot();
      }
      Put(slotIndex.value, record);
      header := header.(flags := Marked(header.flags));
      return slotIndex;
    }

    /** A new slot at the end of the directory, for no record yet. */
    method AddSlot()
      requires InMemory() && SLOT_SIZE <= header.freeSpace
      modifies this`slots, this`header
      ensures Identity() == old(Identity())
      ensures InMemory() && slots == old(slots) + [Slot(0, 0)] && Contents() == old(Contents())
      ensures header == old(header).(numSlots := |slots|, freeSpace := header.freeSpace)
      ensures header.freeSpace == old(header.freeSpace) - SLOT_SIZE
    {
      hide SlotsOk, Records, LiveBytes;
      SlotAdded(data[..], slots, header.dataEnd, Slot(0, 0));
      LiveBytesAppend(slots, Slot(0, 0));
      slots := slots + [Slot(0, 0)];
      header := header.(numSlots := header.numSlots + 1);
      header := header.(freeSpace := header.freeSpace - SLOT_SIZE);
    }

    /** Puts a record just below the data, under a slot that has none. */
    method Place(slotIndex: nat, record: seq<Byte>)
      requires InMemory() && slotIndex < |slots| && slots[slotIndex].length == 0
      requires |record| <= header.dataEnd && |record| <= header.freeSpace
      modifies this`slots, this`header, data
      ensures Identity() == old(Identity())
      ensures InMemory() && slots == old(slots)[slotIndex := Slot(header.dataEnd, |record|)]
      ensures header.dataEnd == old(header.dataEnd) - |record| && header.freeSpace == old(header.freeSpace) - |record|
      ensures header.flags == old(header.flags)
      ensures Contents() == if record == [] then old(Contents()) else old(Contents())[slotIndex := record]
    {
      hide SlotsOk, Records, LiveBytes;
      ghost var before := data[..];
      var newDataEnd := header.dataEnd - |record|;
      WriteAt(newDataEnd, record);
      var slot := Slot(newDataEnd, |record|);
      SlotFilled(before, data[..], slots, slotIndex, header.dataEnd, record);
      LiveBytesUpdate(slots, slotIndex, slot);
      slots := slots[slotIndex := slot];
      header := header.(freeSpace := header.freeSpace - |record|);
      header := header.(dataEnd := newDataEnd);
    }

    /** The same where the record would begin before the page: assigning to that slice inserts the record's bytes. */
    method Overrun(slotIndex: nat, record: seq<Byte>)
      requires data.Length == PAGE_SIZE && slotIndex < |slots| && 0 <= header.dataEnd < |record| <= PAGE_SIZE
      modifies this
      ensures Identity() == old(Identity())
      ensures slots == old(slots)[slotIndex := Slot(header.dataEnd, |record|)]
      ensures header.dataEnd == old(header.dataEnd) - |record| && header.freeSpace == old(header.freeSpace) - |record|
      ensures header.flags == old(header.flags) && fresh(data) && data.Length == PAGE_SIZE + |record|
      ensures var at := PAGE_SIZE + header.dataEnd;
        data[..] == old(data[..])[..at] + record + old(data[..])[at..]
    {
      var newDataEnd := header.dataEnd - |record|;
      var bytes := data[..];
      bytes := bytes[..PAGE_SIZE + newDataEnd] + record + bytes[PAGE_SIZE + newDataEnd..];
      var longer := new Byte[|bytes|](i requires 0 <= i < |bytes| => bytes[i]);
      data := longer;
      slots := slots[slotIndex := Slot(newDataEnd, |record|)];
      header := header.(freeSpace := header.freeSpace - |record|);
      header := header.(dataEnd := newDataEnd);
    }

    /** A slot holds a record exactly when its length is not 0. */
    lemma Live(i: nat)
      requires InMemory()
      ensures i in Contents() <==> i < |slots| && slots[i].length > 0
      ensures i in Contents() ==> |Contents()[i]| == slots[i].length
    {
    }

    method WriteAt(at: nat, bytes: seq<Byte>)
      requires at + |bytes| <= data.Length
      modifies data
      ensures forall p :: 0 <= p < data.Length ==>
        data[p] == if at <= p < at + |bytes| then bytes[p - at] else old(data[p])
    {
      forall k | 0 <= k < |bytes| {
        data[at + k] := bytes[k];
      }
    }

    method ReadRecord(slotIndex: nat) returns (r: Option<seq<Byte>>)
      requires InMemory()
      ensures r == if slotIndex in Contents() then Some(Contents()[slotIndex]) else None
    {
      if slotIndex >= |slots| || slots[slotIndex].length == 0 { return None; }
      var slot := slots[slotIndex];
      return Some(data[slot.offset..slot.offset + slot.length]);
    }

    method DeleteRecord(slotIndex: nat) returns (ok: bool)
      requires InMemory()
      modifies this`slots, this`header
      ensures Identity() == old(Identity())
      ensures InMemory() && ok == (slotIndex in old(Contents())) && Contents() == old(Contents()) - {slotIndex}
      ensures Gap() == old(Gap()) && header.dataEnd == old(header.dataEnd)
      ensures ok ==> slots == old(slots)[slotIndex := Slot(0, 0)]
      ensures ok ==> header.freeSpace == old(header.freeSpace) + |old(Contents())[slotIndex]|
      ensures if ok then IsDirtied(old(header.flags), header.flags) else header.flags == old(header.flags)
      ensures !ok ==> slots == old(slots) && header.freeSpace == old(header.freeSpace)
    {
      hide SlotsOk, Records, LiveBytes, Marked, IsDirtied;
      MarkedDirties(header.flags);
      Live(slotIndex);
      if slotIndex >= |slots| || slots[slotIndex].length == 0 { return false; }
      SlotCleared(data[..], slots, slotIndex, header.dataEnd, Slot(0, 0));
      header := header.(freeSpace := header.freeSpace + slots[slotIndex].length);
      LiveBytesUpdate(slots, slotIndex, Slot(0, 0));
      slots := slots[slotIndex := Slot(0, 0)];
      header := header.(flags := Marked(header.flags));
      return true;
    }

    /** The new record is longer than the old one. */
    ghost predicate Moves(slotIndex: nat, newRecord: seq<Byte>)
      requires InMemory()
      reads this, data
    {
      slotIndex in Contents() && |newRecord| > |Contents()[slotIndex]|
    }

    /** And passes the test on free space once the old one is deleted. */
    ghost predicate Passes(slotIndex: nat, newRecord: seq<Byte>)
      requires InMemory() && Moves(slotIndex, newRecord)
      reads this, data
    {
      |newRecord| + SLOT_SIZE <= header.freeSpace + |Contents()[slotIndex]|
    }

    /** The record is replaced; one that has to move and does not pass the test is lost. */
    method UpdateRecord(slotIndex: nat, newRecord: seq<Byte>) returns (ok: bool)
      requires InMemory()
      modifies this, data
      ensures Identity() == old(Identity())
      ensures ok <==>
        slotIndex in old(Contents()) && (!old(Moves(slotIndex, newRecord)) || old(Passes(slotIndex, newRecord)))
      ensures InMemory() <==>
        !(old(Moves(slotIndex, newRecord)) && old(Passes(slotIndex, newRecord)) && |newRecord| > old(header.dataEnd))
      ensures InMemory() && ok ==>
        Contents() == if newRecord == [] then old(Contents()) - {slotIndex} else old(Contents())[slotIndex := newRecord]
      ensures !ok ==> InMemory() && Contents() == old(Contents()) - {slotIndex}
      ensures old(Valid()) ==> (Valid() <==>
        !(old(Moves(slotIndex, newRecord)) && old(Passes(slotIndex, newRecord)) && |newRecord| > old(Gap())))
      ensures ok && !old(Moves(slotIndex, newRecord)) ==>
        && header.dataEnd == old(header.dataEnd)
        && slots == old(slots)[slotIndex := Slot(old(slots)[slotIndex].offset, |newRecord|)]
      ensures ok && old(Moves(slotIndex, newRecord)) ==>
        && header.dataEnd == old(header.dataEnd) - |newRecord|
        && slotIndex < |slots| && slots[slotIndex] == Slot(header.dataEnd, |newRecord|)
      ensures if slotIndex in old(Contents()) then IsDirtied(old(header.flags), header.flags)
              else header.flags == old(header.flags)
    {
      hide SlotsOk, Records, LiveBytes, Marked, IsDirtied;
      Live(slotIndex);
      if slotIndex >= |slots| || slots[slotIndex].length == 0 { return false; }
      var slot := slots[slotIndex];
      if |newRecord| <= slot.length {
        Overwrite(slotIndex, newRecord);
        return true;
      }
      ok := Move(slotIndex, newRecord);
    }

    /** Deletes a record and inserts a longer one under its slot. */
    method Move(slotIndex: nat, newRecord: seq<Byte>) returns (ok: bool)
      requires InMemory() && Moves(slotIndex, newRecord)
      modifies this, data
      ensures Identity() == old(Identity()) && ok == old(Passes(slotIndex, newRecord))
      ensures InMemory() <==> !(ok && |newRecord| > old(header.dataEnd))
      ensures InMemory() ==>
        Contents() == if ok then old(Contents())[slotIndex := newRecord] else old(Contents()) - {slotIndex}
      ensures Gap() == old(Gap()) - (if ok then |newRecord| else 0)
      ensures ok ==>
        && header.dataEnd == old(header.dataEnd) - |newRecord|
        && slotIndex < |slots| && slots[slotIndex] == Slot(header.dataEnd, |newRecord|)
      ensures IsDirtied(old(header.flags), header.flags)
    {
      hide SlotsOk, Records, LiveBytes, Marked, IsDirtied;
      ghost var flags := header.flags;
      Live(slotIndex);
      var deleted := DeleteRecord(slotIndex);
      assert slots[slotIndex].length == 0;
      ghost var c, mid := Contents(), slots;
      forall k: nat | k in c
        ensures k < |mid| && mid[k].length > 0
      {
        Live(k);
      }
      ghost var dirtied := header.flags;
      var newSlot := InsertRecord(newRecord);
      if newSlot.None? { return false; }
      DirtiedTwice(flags, dirtied, header.flags);
      var j := newSlot.value;
      if j != slotIndex {
        if InMemory() { Live(slotIndex); }
        SwapSlots(slotIndex, j);
        if InMemory() { Swapped(c, Contents(), slotIndex, j, newRecord); }
      }
      return true;
    }

    /** Puts a record no longer than the old one in its place. */
    method Overwrite(slotIndex: nat, record: seq<Byte>)
      requires InMemory() && slotIndex < |slots| && 0 < slots[slotIndex].length && |record| <= slots[slotIndex].length
      modifies this`slots, this`header, data
      ensures Identity() == old(Identity()) && Gap() == old(Gap())
      ensures InMemory() && Contents()
        == if record == [] then old(Contents()) - {slotIndex} else old(Contents())[slotIndex := record]
      ensures header.dataEnd == old(header.dataEnd) && IsDirtied(old(header.flags), header.flags)
      ensures slots == old(slots)[slotIndex := Slot(old(slots)[slotIndex].offset, |record|)]
    {
      assert Within(slots[slotIndex], header.dataEnd);
      hide SlotsOk, Records, LiveBytes, Marked, IsDirtied;
      MarkedDirties(header.flags);
      ghost var before := data[..];
      var slot, shorter := slots[slotIndex], Slot(slots[slotIndex].offset, |record|);
      WriteAt(slot.offset, record);
      if record == [] {
        assert data[..] == before;
        SlotCleared(before, slots, slotIndex, header.dataEnd, shorter);
      } else {
        SlotShrunk(before, data[..], slots, slotIndex, header.dataEnd, record);
      }
      LiveBytesUpdate(slots, slotIndex, shorter);
      slots := slots[slotIndex := shorter];
      header := header.(freeSpace := header.freeSpace + slot.length - |record|);
      header := header.(flags := Marked(header.flags));
    }

    method SwapSlots(i: nat, j: nat)
      requires i < |slots| && j < |slots| && i != j
      modifies this`slots
      ensures slots == old(slots)[i := old(slots)[j]][j := old(slots)[i]]
      ensures old(InMemory()) ==> InMemory() && forall k: nat ::
        (k in Contents() <==> Other(i, j, k) in old(Contents()))
        && (k in Contents() ==> Contents()[k] == old(Contents())[Other(i, j, k)])
    {
      if InMemory() {
        hide SlotsOk, Records, LiveBytes;
        SlotsSwapped(data[..], slots, i, j, header.dataEnd);
        LiveBytesUpdate(slots, i, slots[j]);
        LiveBytesUpdate(slots[i := slots[j]], j, slots[i]);
      }
      slots := slots[i := slots[j]][j := slots[i]];
    }

    /** Three calls that leave a hole: a record of 100 bytes passes the test, and the gap is 6 bytes. */
    static method MakeHole() returns (page: Page)
      ensures page.Valid() && page.Gap() == 6 && 100 + SLOT_SIZE <= page.header.freeSpace && !page.RoomFor(100)
    {
      page := new Page(0, 1);
      var first := page.InsertRecord(Spaces(4000));
      assert page.SomeDeleted() ==> false;
      var second := page.InsertRecord(Spaces(50));
      page.Live(0);
      var deleted := page.DeleteRecord(0);
      assert page.slots[0].length == 0;
    }

    // ----- Compaction -----

    /** Moves the live records together at the end of the page; slots keep their numbers. */
    method Compact()
      requires InMemory()
      modifies this, data
      ensures Valid() && Contents() == old(Contents()) && Identity() == old(Identity())
      ensures header.freeSpace == old(header.freeSpace) == Gap() && IsDirtied(old(header.flags), header.flags)
    {
      ghost var before, was, from := data[..], slots, header.dataEnd;
      var live := CollectLive();
      LiveBytesFit(was, from);
      OffsetsWithin(was, from);
      hide SlotsOk, Records, LiveBytes, Settled, IsPacked, Lists, Marked, IsDirtied;
      MarkedDirties(header.flags);
      var dataEnd := Repack(live, from);
      PackedOk(was, slots);
      SettledRecords(before, was, from, data[..], slots, live, dataEnd);
      header := header.(dataEnd := dataEnd);
      var slotDirEnd := HEADER_SIZE + |slots| * SLOT_SIZE;
      header := header.(freeSpace := dataEnd - slotDirEnd, flags := Marked(header.flags));
    }

    /** Writes the records below one another from the end of the page down. */
    method Repack(live: seq<seq<Byte>>, ghost from: nat) returns (dataEnd: nat)
      requires data.Length == PAGE_SIZE && Lists(live, |slots|, data[..], slots, from) && LiveBytes(slots) <= PAGE_SIZE
      modifies this`slots, data
      ensures dataEnd == PAGE_SIZE - LiveBytes(old(slots)) && |slots| == |old(slots)|
      ensures IsPacked(old(slots), slots)
      ensures Settled(data[..], slots, live, |slots|, dataEnd)
    {
      LiveBytesWithin(slots);
      ListsLengths(live, data[..], slots, from);
      hide Settled, Lists, LiveBytes, PackedSlot;
      ghost var was := slots;
      dataEnd := PAGE_SIZE;
      assert was[..0] == [];
      NoneSettled(data[..], slots, live, dataEnd);
      for i := 0 to |slots|
        invariant |slots| == |was| && dataEnd == PAGE_SIZE - LiveBytes(was[..i])
        invariant forall j :: 0 <= j < i ==> slots[j] == PackedSlot(was, j)
        invariant forall j :: i <= j < |slots| ==> slots[j] == was[j]
        invariant Settled(data[..], slots, live, i, dataEnd)
      {
        PackedIs(was, i);
        dataEnd := PackOne(live, i, dataEnd);
      }
      assert was[..|was|] == was;
    }

    /** Writes record i, if there is one, just below dataEnd. */
    method PackOne(live: seq<seq<Byte>>, i: nat, dataEnd: nat) returns (newEnd: nat)
      requires data.Length == PAGE_SIZE && i < |slots| == |live| && |live[i]| <= dataEnd <= PAGE_SIZE
      requires Settled(data[..], slots, live, i, dataEnd)
      modifies this`slots, data
      ensures newEnd == dataEnd - |live[i]|
      ensures slots == if live[i] == [] then old(slots) else old(slots)[i := Slot(newEnd, |live[i]|)]
      ensures Settled(data[..], slots, live, i + 1, newEnd)
    {
      hide Settled;
      ghost var before := data[..];
      newEnd := dataEnd - |live[i]|;
      if live[i] == [] {
        SettlesEmpty(before, slots, live, i, dataEnd);
      } else {
        WriteAt(newEnd, live[i]);
        SettlesOne(before, data[..], slots, live, i, dataEnd);
        slots := slots[i := Slot(newEnd, |live[i]|)];
      }
    }

    /** The record of every slot, empty where there is none. */
    method CollectLive() returns (live: seq<seq<Byte>>)
      requires InMemory()
      ensures Lists(live, |slots|, data[..], slots, header.dataEnd)
    {
      live := [];
      for i := 0 to |slots|
        invariant Lists(live, i, data[..], slots, header.dataEnd)
      {
        assert Within(slots[i], header.dataEnd);
        live := live + [if slots[i].length == 0 then [] else data[slots[i].offset..slots[i].offset + slots[i].length]];
      }
    }

    // ----- Bytes -----

    /** The page's numbers fit the widths of their fields. */
    lemma Fits()
      requires InMemory() && FieldsFit(header)
      ensures HeaderFits(header) && SlotsFit(slots) && HEADER_SIZE + SLOT_SIZE * |slots| <= PAGE_SIZE
    {
      forall i | 0 <= i < |slots|
        ensures SlotFits(slots[i])
      {
        assert Within(slots[i], header.dataEnd);
      }
    }

    /**
      The page as bytes, header and directory written over the front; `crc` is the checksum function.  Where the
      directory and the data overlap the directory wins.
    */
    method ToBytes(crc: seq<Byte> -> nat) returns (bytes: seq<Byte>)
      requires InMemory() && FieldsFit(header) && forall b :: crc(b) < 0x1_0000_0000
      modifies this`header, data
      ensures InMemory() && bytes == data[..] && (old(Valid()) ==> Valid() && Contents() == old(Contents()))
      ensures header == old(header).(checksum := header.checksum) && header.checksum == crc(Checked(bytes))
      ensures HeaderFits(header) && SlotsFit(slots) && HEADER_SIZE + SLOT_SIZE * |slots| <= PAGE_SIZE
      ensures bytes == Imprint(old(data[..]), header, slots)
      ensures DecodeHeader(bytes) == Some(header) && DecodeSlots(bytes, header.numSlots) == slots
      ensures forall i :: i in old(Contents()) ==>
        && i in Contents()
        && (Contents()[i] == old(Contents())[i] <==>
             Spared(old(data[..]), bytes, slots[i], HEADER_SIZE + SLOT_SIZE * |slots|))
    {
      ghost var before := data[..];
      Fits();
      hide SlotsOk, Records, LiveBytes, HeaderFits, SlotsFit, FieldsFit, Imprint, Checked, DecodeHeader, DecodeSlots,
        Spared;
      WriteOut(crc);
      FrontAlone(before, header, slots);
      RecordsSpared(before, header, slots);
      return data[..];
    }

    /** The front is written, the checksum taken, and the front written once more with it. */
    method WriteOut(crc: seq<Byte> -> nat)
      requires data.Length == PAGE_SIZE && HeaderFits(header) && SlotsFit(slots)
      requires HEADER_SIZE + SLOT_SIZE * |slots| <= PAGE_SIZE
      requires forall b :: crc(b) < 0x1_0000_0000
      modifies this`header, data
      ensures header == old(header).(checksum := crc(Checked(data[..]))) && HeaderFits(header)
      ensures data[..] == Imprint(old(data[..]), header, slots)
    {
      hide HeaderFits, SlotsFit, Imprint, Checked;
      ghost var before := data[..];
      WriteFront();
      var sum := Sum(crc);
      ChecksumApart(before, header, slots, sum);
      Seal(sum, before);
    }

    method Sum(crc: seq<Byte> -> nat) returns (sum: nat)
      requires data.Length == PAGE_SIZE
      ensures sum == crc(Checked(data[..]))
    {
      sum := crc(data[..][..HEADER_SIZE - 4] + data[..][HEADER_SIZE..]);
    }

    /** Header and directory go over the front of the page. */
    method WriteFront()
      requires data.Length == PAGE_SIZE && HeaderFits(header) && SlotsFit(slots)
      requires HEADER_SIZE + SLOT_SIZE * |slots| <= PAGE_SIZE
      modifies data
      ensures data[..] == Imprint(old(data[..]), header, slots)
    {
      hide HeaderFits, SlotsFit, EncodeHeader, EncodeSlots;
      WriteAt(0, EncodeHeader(header));
      WriteSlots();
    }

    /** Exactly the records of which nothing is changed by the header and the directory are still there. */
    lemma RecordsSpared(before: seq<Byte>, h: PageHeader, slots: seq<Slot>)
      requires |before| == PAGE_SIZE && HeaderFits(h) && SlotsFit(slots)
      requires HEADER_SIZE + SLOT_SIZE * |slots| <= PAGE_SIZE
      requires h.numSlots == |slots| && 0 <= h.dataEnd <= PAGE_SIZE && SlotsOk(slots, h.dataEnd)
      ensures var after := Imprint(before, h, slots);
        forall i :: i in Records(before, slots, h.dataEnd) ==>
          && i in Records(after, slots, h.dataEnd)
          && (Records(after, slots, h.dataEnd)[i] == Records(before, slots, h.dataEnd)[i]
              <==> Spared(before, after, slots[i], HEADER_SIZE + SLOT_SIZE * |slots|))
    {
      hide Imprint, HeaderFits, SlotsFit, DecodeHeader, DecodeSlots;
      var after, front := Imprint(before, h, slots), HEADER_SIZE + SLOT_SIZE * |slots|;
      PageRoundTrip(before, h, slots);
      forall i: nat | i < |slots| && slots[i].length > 0
        ensures Record(after, slots[i]) == Record(before, slots[i]) <==> Spared(before, after, slots[i], front)
      {
        assert Within(slots[i], h.dataEnd);
        RecordSpared(before, after, slots[i], front);
      }
    }

    /** What is read back from a page written out, and that its records are still there. */
    lemma FrontAlone(before: seq<Byte>, h: PageHeader, slots: seq<Slot>)
      requires |before| == PAGE_SIZE && HeaderFits(h) && SlotsFit(slots)
      requires HEADER_SIZE + SLOT_SIZE * |slots| <= PAGE_SIZE
      requires h.numSlots == |slots| && 0 <= h.dataEnd <= PAGE_SIZE && SlotsOk(slots, h.dataEnd)
      ensures DecodeHeader(Imprint(before, h, slots)) == Some(h)
      ensures DecodeSlots(Imprint(before, h, slots), h.numSlots) == slots
      ensures h.dataEnd >= HEADER_SIZE + SLOT_SIZE * |slots| ==>
        Records(Imprint(before, h, slots), slots, h.dataEnd) == Records(before, slots, h.dataEnd)
    {
      hide Imprint, HeaderFits, SlotsFit, SlotsOk, Records, DecodeHeader, DecodeSlots;
      PageRoundTrip(before, h, slots);
      if h.dataEnd >= HEADER_SIZE + SLOT_SIZE * |slots| {
        SameRecords(before, Imprint(before, h, slots), slots, h.dataEnd);
      }
    }

    /** The checksum goes into the header, and the header once more over the front. */
    method Seal(sum: nat, ghost before: seq<Byte>)
      requires data.Length == |before| == PAGE_SIZE && SlotsFit(slots) && HEADER_SIZE + SLOT_SIZE * |slots| <= PAGE_SIZE
      requires HeaderFits(header) && HeaderFits(header.(checksum := sum)) && data[..] == Imprint(before, header, slots)
      modifies this`header, data
      ensures header == old(header).(checksum := sum) && data[..] == Imprint(before, header, slots)
    {
      hide HeaderFits, SlotsFit, EncodeHeader, EncodeSlots;
      header := header.(checksum := sum);
      WriteAt(0, EncodeHeader(header));
    }

    method WriteSlots()
      requires data.Length == PAGE_SIZE && SlotsFit(slots) && HEADER_SIZE + SLOT_SIZE * |slots| <= PAGE_SIZE
      modifies data
      ensures forall p :: 0 <= p < PAGE_SIZE ==>
        data[p] == if HEADER_SIZE <= p < HEADER_SIZE + SLOT_SIZE * |slots| then EncodeSlots(slots)[p - HEADER_SIZE]
                   else old(data[p])
    {
      for i := 0 to |slots|
        invariant forall p :: 0 <= p < PAGE_SIZE ==>
          data[p] == if HEADER_SIZE <= p < HEADER_SIZE + SLOT_SIZE * i then EncodeSlots(slots)[p - HEADER_SIZE]
                     else old(data[p])
      {
        SlotAt(slots, i);
        WriteAt(HEADER_SIZE + SLOT_SIZE * i, EncodeSlot(slots[i]));
        var at := SLOT_SIZE * i;
        forall p | HEADER_SIZE + at <= p < HEADER_SIZE + at + SLOT_SIZE
          ensures data[p] == EncodeSlots(slots)[p - HEADER_SIZE]
        {
          assert EncodeSlots(slots)[at..at + SLOT_SIZE][p - HEADER_SIZE - at] == EncodeSlots(slots)[p - HEADER_SIZE];
        }
      }
    }
  }

  /** A record of the given length. */
  function Spaces(n: nat): (r: seq<Byte>)
    ensures |r| == n
  {
    seq(n, _ => 32 as Byte)
  }
}
