/** How a page's header and slot directory are laid out in bytes (pysql/storage/page.py). */
module PageBytes {
  import opened Common

  newtype Byte = x: int | 0 <= x < 256

  const PAGE_SIZE := 4096
  const HEADER_SIZE := 32
  const SLOT_SIZE := 4

  /** Where a record lies; length 0 marks a deleted one. */
  datatype Slot = Slot(offset: int, length: nat)

  datatype PageHeader = PageHeader(
    pageId: nat, pageType: nat, flags: nat, numSlots: nat, freeSpace: int, dataEnd: int,
    nextPage: nat, prevPage: nat, lsn: int, checksum: nat)

  // ----- Numbers, big end first -----

  function Power256(k: nat): nat {
    if k == 0 then 1 else 256 * Power256(k - 1)
  }

  function Big(n: nat, k: nat): (r: seq<Byte>)
    ensures |r| == k
  {
    if k == 0 then [] else Big(n / 256, k - 1) + [(n % 256) as Byte]
  }

  function Unbig(bytes: seq<Byte>): nat {
    if bytes == [] then 0 else Unbig(bytes[..|bytes| - 1]) * 256 + bytes[|bytes| - 1] as nat
  }

  lemma {:induction false} BigRoundTrip(n: nat, k: nat)
    requires n < Power256(k)
    ensures Unbig(Big(n, k)) == n
  {
    if k > 0 {
      BigRoundTrip(n / 256, k - 1);
      assert Big(n, k)[..k - 1] == Big(n / 256, k - 1);
    }
  }

  lemma {:induction false} UnbigBack(bytes: seq<Byte>)
    ensures Unbig(bytes) < Power256(|bytes|) && Big(Unbig(bytes), |bytes|) == bytes
  {
    if bytes != [] {
      var front, last := bytes[..|bytes| - 1], bytes[|bytes| - 1];
      UnbigBack(front);
      assert Unbig(bytes) / 256 == Unbig(front) && (Unbig(bytes) % 256) as Byte == last;
      assert bytes == front + [last];
    }
  }

  const LIMIT_64: int := 0x1_0000_0000_0000_0000

  /** Two's complement in eight bytes. */
  function Unsigned(n: int): nat
    requires -LIMIT_64 <= 2 * n < LIMIT_64
  {
    if n < 0 then n + LIMIT_64 else n
  }

  function Signed(n: nat): int {
    if 2 * n >= LIMIT_64 then n - LIMIT_64 else n
  }

  // ----- The header -----

  predicate HeaderFits(h: PageHeader) {
    && h.pageId < 0x1_0000_0000 && h.pageType <= 5 && h.flags < 256 && h.numSlots < 0x1_0000
    && 0 <= h.freeSpace < 0x1_0000
    && 0 <= h.dataEnd < 0x1_0000 && h.nextPage < 0x1_0000_0000 && h.prevPage < 0x1_0000_0000
    && -LIMIT_64 <= 2 * h.lsn < LIMIT_64 && h.checksum < 0x1_0000_0000
  }

  /** The fields up to data_end, and the rest of them. */
  function EncodeFirst(h: PageHeader): (r: seq<Byte>)
    requires HeaderFits(h)
    ensures |r| == 12
  {
    Big(h.pageId, 4) + Big(h.pageType, 1) + Big(h.flags, 1) + Big(h.numSlots, 2) + Big(h.freeSpace, 2)
    + Big(h.dataEnd, 2)
  }

  function EncodeSecond(h: PageHeader): (r: seq<Byte>)
    requires HeaderFits(h)
    ensures |r| == 20
  {
    Big(h.nextPage, 4) + Big(h.prevPage, 4) + Big(Unsigned(h.lsn), 8) + Big(h.checksum, 4)
  }

  function EncodeHeader(h: PageHeader): (r: seq<Byte>)
    requires HeaderFits(h)
    ensures |r| == HEADER_SIZE
  {
    EncodeFirst(h) + EncodeSecond(h)
  }

  function Field(bytes: seq<Byte>, at: nat, k: nat): nat
    requires at + k <= |bytes|
  {
    Unbig(bytes[at..at + k])
  }

  /** Nothing when the page type is not a known one. */
  function DecodeHeader(bytes: seq<Byte>): Option<PageHeader>
    requires |bytes| >= HEADER_SIZE
  {
    if Field(bytes, 4, 1) > 5 then None
    else
      Some(PageHeader(
             Field(bytes, 0, 4), Field(bytes, 4, 1), Field(bytes, 5, 1), Field(bytes, 6, 2), Field(bytes, 8, 2),
             Field(bytes, 10, 2), Field(bytes, 12, 4), Field(bytes, 16, 4), Signed(Field(bytes, 20, 8)),
               Field(bytes, 28, 4)))
  }

  lemma Powers()
    ensures Power256(1) == 256 && Power256(2) == 0x1_0000 && Power256(4) == 0x1_0000_0000 && Power256(8) == LIMIT_64
  {
    assert Power256(2) == 256 * Power256(1);
    assert Power256(4) == 256 * (256 * Power256(2));
    assert Power256(8) == 256 * (256 * (256 * (256 * Power256(4))));
  }

  lemma HeaderRoundTrip(h: PageHeader, rest: seq<Byte>)
    requires HeaderFits(h)
    ensures DecodeHeader(EncodeHeader(h) + rest) == Some(h)
  {
    var bytes := EncodeHeader(h) + rest;
    FirstFields(h, bytes);
    SecondFields(h, bytes);
  }

  lemma FirstFields(h: PageHeader, bytes: seq<Byte>)
    requires HeaderFits(h) && |bytes| >= HEADER_SIZE && bytes[..12] == EncodeFirst(h)
    ensures Field(bytes, 0, 4) == h.pageId && Field(bytes, 4, 1) == h.pageType && Field(bytes, 5, 1) == h.flags
    ensures Field(bytes, 6, 2) == h.numSlots && Field(bytes, 8, 2) == h.freeSpace && Field(bytes, 10, 2) == h.dataEnd
  {
    Powers();
    var part := EncodeFirst(h);
    hide Big, Unbig, Power256;
    assert part[0..4] == Big(h.pageId, 4) && part[4..5] == Big(h.pageType, 1) && part[5..6] == Big(h.flags, 1);
    assert part[6..8] == Big(h.numSlots, 2) && part[8..10] == Big(h.freeSpace, 2);
    assert part[10..12] == part[10..] == Big(h.dataEnd, 2);
    FieldIs(bytes, 0, part, 0, 4, h.pageId);
    FieldIs(bytes, 0, part, 4, 1, h.pageType);
    FieldIs(bytes, 0, part, 5, 1, h.flags);
    FieldIs(bytes, 0, part, 6, 2, h.numSlots);
    FieldIs(bytes, 0, part, 8, 2, h.freeSpace);
    FieldIs(bytes, 0, part, 10, 2, h.dataEnd);
  }

  lemma SecondFields(h: PageHeader, bytes: seq<Byte>)
    requires HeaderFits(h) && |bytes| >= HEADER_SIZE && bytes[12..32] == EncodeSecond(h)
    ensures Field(bytes, 12, 4) == h.nextPage && Field(bytes, 16, 4) == h.prevPage
    ensures Signed(Field(bytes, 20, 8)) == h.lsn && Field(bytes, 28, 4) == h.checksum
    ensures Field(bytes, 20, 8) == if h.lsn < 0 then h.lsn + LIMIT_64 else h.lsn
  {
    Powers();
    var part := EncodeSecond(h);
    hide Big, Unbig, Power256;
    assert part[0..4] == Big(h.nextPage, 4) && part[4..8] == Big(h.prevPage, 4);
    assert part[8..16] == Big(Unsigned(h.lsn), 8);
    assert part[16..20] == part[16..] == Big(h.checksum, 4);
    FieldIs(bytes, 12, part, 0, 4, h.nextPage);
    FieldIs(bytes, 12, part, 4, 4, h.prevPage);
    FieldIs(bytes, 12, part, 8, 8, Unsigned(h.lsn));
    FieldIs(bytes, 12, part, 16, 4, h.checksum);
  }

  /** Where the ten fields stand, each with its highest byte first. */
  lemma HeaderLayout(h: PageHeader)
    requires HeaderFits(h)
    ensures var b := EncodeHeader(h);
      && |b| == 32 && Field(b, 0, 4) == h.pageId && Field(b, 4, 1) == h.pageType && Field(b, 5, 1) == h.flags
      && Field(b, 6, 2) == h.numSlots && Field(b, 8, 2) == h.freeSpace && Field(b, 10, 2) == h.dataEnd
      && Field(b, 12, 4) == h.nextPage && Field(b, 16, 4) == h.prevPage
      && Field(b, 20, 8) == (if h.lsn < 0 then h.lsn + LIMIT_64 else h.lsn) && Field(b, 28, 4) == h.checksum
  {
    FirstFields(h, EncodeHeader(h));
    SecondFields(h, EncodeHeader(h));
  }

  lemma FieldBack(bytes: seq<Byte>, at: nat, k: nat)
    requires at + k <= |bytes|
    ensures Field(bytes, at, k) < Power256(k) && Big(Field(bytes, at, k), k) == bytes[at..at + k]
  {
    UnbigBack(bytes[at..at + k]);
  }

  /** Any bytes but those of an unknown page type are read as the header that is written as these bytes. */
  lemma HeaderReads(bytes: seq<Byte>)
    requires |bytes| >= HEADER_SIZE
    ensures DecodeHeader(bytes).Some? <==> bytes[4] <= 5
    ensures DecodeHeader(bytes).Some? ==>
      HeaderFits(DecodeHeader(bytes).value) && EncodeHeader(DecodeHeader(bytes).value) == bytes[..32]
  {
    Powers();
    hide Big, Unbig, Power256;
    FieldBack(bytes, 4, 1);
    OneByte(bytes[4..5]);
    if DecodeHeader(bytes).Some? {
      var h := DecodeHeader(bytes).value;
      FirstReads(bytes);
      SecondReads(bytes);
      assert bytes[..12] + bytes[12..32] == bytes[..32];
    }
  }

  lemma OneByte(b: seq<Byte>)
    requires |b| == 1
    ensures Unbig(b) == b[0] as nat
  {
  }

  lemma FirstReads(bytes: seq<Byte>)
    requires |bytes| >= HEADER_SIZE && DecodeHeader(bytes).Some?
    ensures HeaderFits(DecodeHeader(bytes).value) && EncodeFirst(DecodeHeader(bytes).value) == bytes[..12]
  {
    Powers();
    hide Big, Unbig, Power256;
    FieldBack(bytes, 0, 4);
    FieldBack(bytes, 4, 1);
    FieldBack(bytes, 5, 1);
    FieldBack(bytes, 6, 2);
    FieldBack(bytes, 8, 2);
    FieldBack(bytes, 10, 2);
    FieldBack(bytes, 12, 4);
    FieldBack(bytes, 16, 4);
    FieldBack(bytes, 20, 8);
    FieldBack(bytes, 28, 4);
    assert bytes[0..4] + bytes[4..5] + bytes[5..6] + bytes[6..8] + bytes[8..10] + bytes[10..12] == bytes[..12];
  }

  lemma SecondReads(bytes: seq<Byte>)
    requires |bytes| >= HEADER_SIZE && DecodeHeader(bytes).Some? && HeaderFits(DecodeHeader(bytes).value)
    ensures EncodeSecond(DecodeHeader(bytes).value) == bytes[12..32]
  {
    Powers();
    hide Big, Unbig, Power256;
    FieldBack(bytes, 12, 4);
    FieldBack(bytes, 16, 4);
    FieldBack(bytes, 20, 8);
    FieldBack(bytes, 28, 4);
    assert bytes[12..16] + bytes[16..20] + bytes[20..28] + bytes[28..32] == bytes[12..32];
  }

  lemma SubSlice(s: seq<Byte>, from: nat, n: nat, at: nat, k: nat)
    requires from + n <= |s| && at + k <= n
    ensures s[from..from + n][at..at + k] == s[from + at..from + at + k]
  {
    var whole, a, b := s[from..from + n], s[from..from + n][at..at + k], s[from + at..from + at + k];
    forall i | 0 <= i < k
      ensures a[i] == b[i]
    {
      assert a[i] == whole[at + i] == s[from + (at + i)];
    }
  }

  /** A field that begins `at` bytes into a part which stands at `from`. */
  lemma FieldIs(bytes: seq<Byte>, from: nat, part: seq<Byte>, at: nat, k: nat, n: nat)
    requires from + |part| <= |bytes| && bytes[from..from + |part|] == part
    requires n < Power256(k) && at + k <= |part| && part[at..at + k] == Big(n, k)
    ensures Field(bytes, from + at, k) == n
  {
    SubSlice(bytes, from, |part|, at, k);
    BigRoundTrip(n, k);
  }

  // ----- The slot directory -----

  predicate SlotFits(s: Slot) {
    0 <= s.offset < 0x1_0000 && s.length < 0x1_0000
  }

  predicate SlotsFit(slots: seq<Slot>) {
    forall i :: 0 <= i < |slots| ==> SlotFits(slots[i])
  }

  function EncodeSlot(s: Slot): (r: seq<Byte>)
    requires SlotFits(s)
    ensures |r| == SLOT_SIZE
  {
    Big(s.offset, 2) + Big(s.length, 2)
  }

  function EncodeSlots(slots: seq<Slot>): (r: seq<Byte>)
    requires SlotsFit(slots)
    ensures |r| == SLOT_SIZE * |slots|
  {
    if slots == [] then [] else EncodeSlots(slots[..|slots| - 1]) + EncodeSlot(slots[|slots| - 1])
  }

  /** Slot i of the directory. */
  function DecodeSlot(bytes: seq<Byte>, i: nat): Slot
    requires HEADER_SIZE + SLOT_SIZE * (i + 1) <= |bytes|
  {
    Slot(Field(bytes, HEADER_SIZE + SLOT_SIZE * i, 2), Field(bytes, HEADER_SIZE + SLOT_SIZE * i + 2, 2))
  }

  function DecodeSlots(bytes: seq<Byte>, n: nat): (r: seq<Slot>)
    requires HEADER_SIZE + SLOT_SIZE * n <= |bytes|
    ensures |r| == n && forall i :: 0 <= i < n ==> r[i] == DecodeSlot(bytes, i)
  {
    if n == 0 then [] else DecodeSlots(bytes, n - 1) + [DecodeSlot(bytes, n - 1)]
  }

  lemma {:induction false} SlotAt(slots: seq<Slot>, i: nat)
    requires i < |slots| && SlotsFit(slots)
    ensures EncodeSlots(slots)[SLOT_SIZE * i..SLOT_SIZE * i + SLOT_SIZE] == EncodeSlot(slots[i])
  {
    var m := |slots| - 1;
    if i < m {
      SlotAt(slots[..m], i);
      assert EncodeSlots(slots)[SLOT_SIZE * i..SLOT_SIZE * i + SLOT_SIZE]
        == EncodeSlots(slots[..m])[SLOT_SIZE * i..SLOT_SIZE * i + SLOT_SIZE];
    }
  }

  /** Slot i takes four bytes: where its record begins, then how long it is. */
  lemma SlotLayout(slots: seq<Slot>, i: nat)
    requires i < |slots| && SlotsFit(slots)
    ensures |EncodeSlots(slots)| == 4 * |slots|
    ensures Field(EncodeSlots(slots), 4 * i, 2) == slots[i].offset
    ensures Field(EncodeSlots(slots), 4 * i + 2, 2) == slots[i].length
  {
    Powers();
    SlotAt(slots, i);
    var part := EncodeSlot(slots[i]);
    assert part[2..4] == part[2..] == Big(slots[i].length, 2);
    FieldIs(EncodeSlots(slots), 4 * i, part, 0, 2, slots[i].offset);
    FieldIs(EncodeSlots(slots), 4 * i, part, 2, 2, slots[i].length);
  }

  lemma SlotsRoundTrip(head: seq<Byte>, slots: seq<Slot>, rest: seq<Byte>)
    requires |head| == HEADER_SIZE && SlotsFit(slots)
    ensures DecodeSlots(head + EncodeSlots(slots) + rest, |slots|) == slots
  {
    var bytes := head + EncodeSlots(slots) + rest;
    forall i | 0 <= i < |slots|
      ensures DecodeSlot(bytes, i) == slots[i]
    {
      SlotLayout(slots, i);
      assert EncodeSlots(slots) == bytes[HEADER_SIZE..HEADER_SIZE + SLOT_SIZE * |slots|];
      SubSlice(bytes, HEADER_SIZE, SLOT_SIZE * |slots|, SLOT_SIZE * i, 2);
      SubSlice(bytes, HEADER_SIZE, SLOT_SIZE * |slots|, SLOT_SIZE * i + 2, 2);
    }
  }

  /** The directory read from any bytes is the one that is written as these bytes. */
  lemma {:induction false} SlotsRead(bytes: seq<Byte>, n: nat, end: nat)
    requires end == HEADER_SIZE + SLOT_SIZE * n && end <= |bytes|
    ensures SlotsFit(DecodeSlots(bytes, n)) && EncodeSlots(DecodeSlots(bytes, n)) == bytes[HEADER_SIZE..end]
    decreases n
  {
    if n == 0 {
      assert bytes[HEADER_SIZE..end] == [];
    } else {
      SlotsRead(bytes, n - 1, end - SLOT_SIZE);
      OneMoreRead(bytes, n - 1, end - SLOT_SIZE, n, end);
    }
  }

  lemma OneMoreRead(bytes: seq<Byte>, n: nat, at: nat, m: nat, end: nat)
    requires at == HEADER_SIZE + SLOT_SIZE * n && end == at + SLOT_SIZE <= |bytes| && m == n + 1
    requires SlotsFit(DecodeSlots(bytes, n)) && EncodeSlots(DecodeSlots(bytes, n)) == bytes[HEADER_SIZE..at]
    ensures SlotsFit(DecodeSlots(bytes, m)) && EncodeSlots(DecodeSlots(bytes, m)) == bytes[HEADER_SIZE..end]
  {
    SlotRead(bytes, n, at);
    DecodeOneMore(bytes, m);
    hide SlotFits, SlotsFit, EncodeSlot, DecodeSlot, EncodeSlots, DecodeSlots;
    OneSlotMore(bytes, at, DecodeSlots(bytes, n), DecodeSlot(bytes, n));
  }

  lemma DecodeOneMore(bytes: seq<Byte>, n: nat)
    requires n > 0 && HEADER_SIZE + SLOT_SIZE * n <= |bytes|
    ensures DecodeSlots(bytes, n) == DecodeSlots(bytes, n - 1) + [DecodeSlot(bytes, n - 1)]
  {
  }

  lemma OneSlotMore(bytes: seq<Byte>, at: nat, slots: seq<Slot>, s: Slot)
    requires SlotsFit(slots) && SlotFits(s) && HEADER_SIZE <= at && at + SLOT_SIZE <= |bytes|
    requires EncodeSlots(slots) == bytes[HEADER_SIZE..at] && EncodeSlot(s) == bytes[at..at + SLOT_SIZE]
    ensures SlotsFit(slots + [s]) && EncodeSlots(slots + [s]) == bytes[HEADER_SIZE..at + SLOT_SIZE]
  {
    assert (slots + [s])[..|slots|] == slots;
    assert bytes[HEADER_SIZE..at] + bytes[at..at + SLOT_SIZE] == bytes[HEADER_SIZE..at + SLOT_SIZE];
  }

  lemma SlotRead(bytes: seq<Byte>, i: nat, at: nat)
    requires at == HEADER_SIZE + SLOT_SIZE * i && at + SLOT_SIZE <= |bytes|
    ensures SlotFits(DecodeSlot(bytes, i)) && EncodeSlot(DecodeSlot(bytes, i)) == bytes[at..at + SLOT_SIZE]
  {
    Powers();
    hide Big, Unbig, Power256;
    FieldBack(bytes, at, 2);
    FieldBack(bytes, at + 2, 2);
    assert bytes[at..at + 2] + bytes[at + 2..at + 4] == bytes[at..at + 4];
  }

  // ----- The whole page -----

  /** The page's bytes with header and directory written over what was there. */
  function Imprint(bytes: seq<Byte>, h: PageHeader, slots: seq<Slot>): (r: seq<Byte>)
    requires |bytes| == PAGE_SIZE && HeaderFits(h) && SlotsFit(slots) && HEADER_SIZE + SLOT_SIZE * |slots| <= PAGE_SIZE
    ensures |r| == PAGE_SIZE
  {
    EncodeHeader(h) + EncodeSlots(slots) + bytes[HEADER_SIZE + SLOT_SIZE * |slots|..]
  }

  /** Reading back what was written gives the header and the directory, and leaves everything beyond them. */
  lemma PageRoundTrip(bytes: seq<Byte>, h: PageHeader, slots: seq<Slot>)
    requires |bytes| == PAGE_SIZE && HeaderFits(h) && SlotsFit(slots) && HEADER_SIZE + SLOT_SIZE * |slots| <= PAGE_SIZE
    requires h.numSlots == |slots|
    ensures var b := Imprint(bytes, h, slots);
      && DecodeHeader(b) == Some(h) && DecodeSlots(b, h.numSlots) == slots
      && forall p :: HEADER_SIZE + SLOT_SIZE * |slots| <= p < PAGE_SIZE ==> b[p] == bytes[p]
  {
    hide DecodeHeader, DecodeSlots, EncodeHeader, EncodeSlots;
    var rest := bytes[HEADER_SIZE + SLOT_SIZE * |slots|..];
    HeaderRoundTrip(h, EncodeSlots(slots) + rest);
    assert EncodeHeader(h) + (EncodeSlots(slots) + rest) == Imprint(bytes, h, slots);
    SlotsRoundTrip(EncodeHeader(h), slots, rest);
  }

  /** What the checksum is taken over: everything but the checksum itself. */
  function Checked(bytes: seq<Byte>): seq<Byte>
    requires |bytes| == PAGE_SIZE
  {
    bytes[..HEADER_SIZE - 4] + bytes[HEADER_SIZE..]
  }

  /** It is taken over every byte but those four, and over each of them. */
  lemma CheckedCovers(a: seq<Byte>, b: seq<Byte>)
    requires |a| == |b| == PAGE_SIZE
    ensures Checked(a) == Checked(b) <==> forall p :: 0 <= p < PAGE_SIZE && !(28 <= p < 32) ==> a[p] == b[p]
  {
    if Checked(a) == Checked(b) {
      forall p | 0 <= p < PAGE_SIZE && !(28 <= p < 32)
        ensures a[p] == b[p]
      {
        var i := if p < 28 then p else p - 4;
        assert Checked(a)[i] == a[p] && Checked(b)[i] == b[p];
      }
    }
  }

  /** Storing the checksum in the header does not change what it is taken over. */
  lemma ChecksumApart(bytes: seq<Byte>, h: PageHeader, slots: seq<Slot>, sum: nat)
    requires |bytes| == PAGE_SIZE && HeaderFits(h) && SlotsFit(slots) && HEADER_SIZE + SLOT_SIZE * |slots| <= PAGE_SIZE
    requires sum < 0x1_0000_0000
    ensures HeaderFits(h.(checksum := sum))
    ensures Checked(Imprint(bytes, h.(checksum := sum), slots)) == Checked(Imprint(bytes, h, slots))
  {
    var a, b := EncodeHeader(h), EncodeHeader(h.(checksum := sum));
    assert EncodeSecond(h)[..16] == EncodeSecond(h.(checksum := sum))[..16];
    assert a[..HEADER_SIZE - 4] == b[..HEADER_SIZE - 4];
    assert Imprint(bytes, h, slots)[..HEADER_SIZE - 4] == a[..HEADER_SIZE - 4];
    assert Imprint(bytes, h.(checksum := sum), slots)[..HEADER_SIZE - 4] == b[..HEADER_SIZE - 4];
  }
}
