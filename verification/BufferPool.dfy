/**
  The buffer pool (pysql/storage/buffer_pool.py): pages cached in a fixed number of frames, evicted by clock sweep.
  `store` is the page store as its users see it; every operation is proved against it, so that what is cached,
  evicted or written back never shows.  The disk is a sequence of page contents.
*/
module BufferPools {
  import opened Common

  type Data = seq<int>

  datatype Page = Page(id: int, data: Data)

  datatype FrameHeader = FrameHeader(pageId: int, pinCount: int, isDirty: bool, refBit: bool)

  const EMPTY_HEADER := FrameHeader(-1, 0, false, false)

  datatype Fetched = Got(page: Page) | NoSuchPage | Exhausted

  // ----- Which frame is taken -----

  /** How many places position i is past `start` on a clock of n. */
  function Ahead(n: nat, start: nat, i: nat): nat
    requires start < n && i < n
  {
    if i >= start then i - start else i + n - start
  }

  /** Every unpinned frame has been used since the hand last passed it. */
  predicate AllUsed(hs: seq<FrameHeader>) {
    forall i :: 0 <= i < |hs| && hs[i].pinCount == 0 ==> hs[i].refBit
  }

  predicate MayGo(hs: seq<FrameHeader>, i: nat)
    requires i < |hs|
  {
    hs[i].pinCount == 0 && (AllUsed(hs) || !hs[i].refBit)
  }

  /** Of the frames that may go, those not used lately or else any unpinned, v is the first from the hand on. */
  predicate FirstIdle(hs: seq<FrameHeader>, hand: nat, v: nat)
    requires hand < |hs|
  {
    && v < |hs| && MayGo(hs, v)
    && forall i :: 0 <= i < |hs| && MayGo(hs, i) ==> Ahead(|hs|, hand, v) <= Ahead(|hs|, hand, i)
  }

  /** The frame to be taken next: the first empty one, else the first idle one. */
  predicate IsVictim(hs: seq<FrameHeader>, hand: nat, v: nat) {
    if exists i :: 0 <= i < |hs| && hs[i].pageId < 0 then
      v < |hs| && hs[v].pageId < 0 && forall i :: 0 <= i < v ==> hs[i].pageId >= 0
    else hand < |hs| && FirstIdle(hs, hand, v)
  }

  /** Frame i keeps its second chance, the hand going from where it is to frame v. */
  predicate KeepsChance(hs: seq<FrameHeader>, hand: nat, v: nat, i: nat)
    requires hand < |hs| && i < |hs| && v < |hs|
  {
    && hs[i].refBit
    && (hs[i].pinCount != 0 || (!AllUsed(hs) && Ahead(|hs|, hand, i) > Ahead(|hs|, hand, v)))
  }

  lemma OneVictim(hs: seq<FrameHeader>, hand: nat, v: nat, w: nat)
    requires IsVictim(hs, hand, v) && IsVictim(hs, hand, w)
    ensures v == w
  {
  }

  /** What `step` steps of the hand that came to no idle frame have done. */
  predicate Swept(before: seq<FrameHeader>, hs: seq<FrameHeader>, start: nat, step: nat)
    requires start < |before| == |hs|
  {
    && (forall i :: 0 <= i < |hs| ==> hs[i] == before[i].(refBit := hs[i].refBit))
    && (forall i :: 0 <= i < |hs| ==>
          (hs[i].refBit <==> before[i].refBit && (hs[i].pinCount != 0 || Ahead(|hs|, start, i) >= step)))
    && (forall i :: 0 <= i < |hs| && hs[i].pinCount == 0 && Ahead(|hs|, start, i) < step ==> before[i].refBit)
    && (forall i :: 0 <= i < |hs| && Ahead(|hs|, start, i) + |hs| < step ==> hs[i].pinCount != 0)
  }

  lemma SweptOn(before: seq<FrameHeader>, hs: seq<FrameHeader>, start: nat, step: nat, i: nat)
    requires start < |before| == |hs| && i < |hs| && step < 2 * |hs| && Swept(before, hs, start, step)
    requires Ahead(|hs|, start, i) == if step < |hs| then step else step - |hs|
    requires hs[i].pinCount == 0 ==> hs[i].refBit
    ensures Swept(before, if hs[i].pinCount == 0 then hs[i := hs[i].(refBit := false)] else hs, start, step + 1)
  {
  }

  /** Two rounds without an idle frame: all are pinned. */
  lemma SweptAll(before: seq<FrameHeader>, hs: seq<FrameHeader>, start: nat)
    requires start < |before| == |hs| && Swept(before, hs, start, 2 * |hs|)
    ensures hs == before && forall i :: 0 <= i < |hs| ==> hs[i].pinCount != 0
  {
    assert forall i :: 0 <= i < |hs| ==> Ahead(|hs|, start, i) + |hs| < 2 * |hs|;
  }

  lemma SameButBits(before: seq<FrameHeader>, hs: seq<FrameHeader>, start: nat, step: nat)
    requires start < |before| == |hs| && Swept(before, hs, start, step)
    ensures forall i :: 0 <= i < |hs| ==> hs[i] == before[i].(refBit := hs[i].refBit)
  {
  }

  lemma SweptNone(before: seq<FrameHeader>, start: nat)
    requires start < |before|
    ensures Swept(before, before, start, 0)
  {
  }

  /** The hand comes to an idle frame after `step` steps, having taken second chances on the way. */
  lemma Found(before: seq<FrameHeader>, hs: seq<FrameHeader>, start: nat, step: nat, v: nat)
    requires start < |before| == |hs| && v < |hs| && step < 2 * |hs| && Swept(before, hs, start, step)
    requires Ahead(|hs|, start, v) == if step < |hs| then step else step - |hs|
    requires hs[v].pinCount == 0 && !hs[v].refBit
    ensures FirstIdle(before, start, v)
    ensures forall i :: 0 <= i < |hs| ==> (hs[i].refBit <==> KeepsChance(before, start, v, i))
  {
    if step < |hs| {
      assert !before[v].refBit && !AllUsed(before);
    } else {
      assert AllUsed(before);
    }
  }

  class BufferPool {
    const poolSize: nat
    const frames: array<Option<Page>>
    const headers: array<FrameHeader>
    var pageTable: map<int, nat>
    var clockHand: nat
    var disk: seq<Data>
    ghost var store: seq<Data>      // the latest content of every page
    ghost var unreported: set<int>  // pages changed by their users since they were last marked dirty or written

    /** Frame i is empty, or holds a page as the table says, up to date with the store; if clean, so is the disk. */
    ghost predicate FrameOk(i: nat)
      requires frames.Length == headers.Length == poolSize && i < poolSize
      reads this, frames, headers
    {
      var h := headers[i];
      if h.pageId < 0 then h == EMPTY_HEADER && frames[i] == None
      else
        && h.pageId < |store| == |disk| && h.pinCount >= 0
        && h.pageId in pageTable && pageTable[h.pageId] == i
        && frames[i] == Some(Page(h.pageId, store[h.pageId]))
        && (h.isDirty || h.pageId in unreported || disk[h.pageId] == store[h.pageId])
        && (h.pageId in unreported && !h.isDirty ==> h.pinCount > 0)
    }

    /** Everything is in order, but for frame x and its page. */
    ghost predicate ValidExcept(x: int)
      reads this, frames, headers
    {
      && frames.Length == headers.Length == poolSize
      && (clockHand < poolSize || clockHand == 0)
      && |disk| == |store| && unreported <= pageTable.Keys
      && (forall i: nat :: i < poolSize && i != x ==> FrameOk(i))
      && (forall p :: p in pageTable ==>
           0 <= p < |store| && pageTable[p] < poolSize && pageTable[p] != x && headers[pageTable[p]].pageId == p)
      && (forall p :: 0 <= p < |store| && p !in pageTable ==> disk[p] == store[p])
    }

    ghost predicate Valid()
      reads this, frames, headers
    {
      ValidExcept(-1)
    }

    constructor (disk: seq<Data>, poolSize: nat)
      ensures Valid() && store == disk && fresh(frames) && fresh(headers) && this.poolSize == poolSize
      ensures pageTable == map[]
    {
      this.poolSize := poolSize;
      frames := new Option<Page>[poolSize](_ => None);
      headers := new FrameHeader[poolSize](_ => EMPTY_HEADER);
      pageTable, clockHand, this.disk, store, unreported := map[], 0, disk, disk, {};
    }

    /** Every frame is taken and in use. */
    ghost predicate AllPinned()
      requires headers.Length == poolSize
      reads this, headers
    {
      forall i: nat :: i < poolSize ==> headers[i].pageId >= 0 && headers[i].pinCount != 0
    }

    ghost predicate SomeEmpty()
      requires headers.Length == poolSize
      reads this, headers
    {
      exists i: nat :: i < poolSize && headers[i].pageId < 0
    }

    /** One step of the clock hand. */
    function Tick(hand: nat): (r: nat)
      requires 0 <= hand < poolSize
      ensures r < poolSize && r == if hand + 1 == poolSize then 0 else hand + 1
    {
      (hand + 1) % poolSize
    }

    /** A frame to use: the first empty one, else an unpinned one found by the clock in at most two rounds. */
    method FindVictimFrame() returns (r: Option<nat>)
      requires Valid()
      modifies headers, this`clockHand
      ensures Valid()
      ensures forall i: nat :: i < poolSize ==> headers[i] == old(headers[i]).(refBit := headers[i].refBit)
      ensures r.None? <==> old(AllPinned())
      ensures PinsKept(-1)
      ensures r.Some? ==> r.value < poolSize && headers[r.value].pinCount == 0
      ensures r.Some? && headers[r.value].pageId >= 0 ==> !headers[r.value].refBit && !old(SomeEmpty())
      ensures r.Some? ==> IsVictim(old(headers[..]), old(clockHand), r.value)
      ensures r.None? || old(SomeEmpty()) ==>
        clockHand == old(clockHand) && forall i: nat :: i < poolSize ==> headers[i] == old(headers[i])
      ensures r.Some? && !old(SomeEmpty()) ==>
        && clockHand == (r.value + 1) % poolSize
        && old(clockHand) < poolSize
        && forall i: nat :: i < poolSize ==>
             (headers[i].refBit <==> KeepsChance(old(headers[..]), old(clockHand), r.value, i))
    {
      for i := 0 to poolSize
        invariant forall j: nat :: j < i ==> headers[j].pageId >= 0
        invariant Valid() && forall j: nat :: j < poolSize ==> headers[j] == old(headers[j])
      {
        if headers[i].pageId < 0 {
          assert FrameOk(i);
          return Some(i);
        }
      }
      if poolSize == 0 { return None; }
      r := Sweep();
    }

    lemma Bounds()
      requires Valid() && poolSize > 0
      ensures clockHand < poolSize && headers.Length == poolSize
    {
    }

    method Advance()
      requires Valid() && poolSize > 0
      modifies this`clockHand
      ensures Valid() && clockHand == Tick(old(clockHand))
    {
      clockHand := (clockHand + 1) % poolSize;
      forall j: nat | j < poolSize ensures FrameOk(j) {
        assert old(FrameOk(j));
      }
    }

    /** Gives the frame's page a second chance. */
    method ClearRefBit(i: nat)
      requires Valid() && i < poolSize && headers[i].pageId >= 0
      modifies headers
      ensures Valid() && headers[i] == old(headers[i]).(refBit := false)
      ensures forall j: nat :: j < poolSize && j != i ==> headers[j] == old(headers[j])
    {
      headers[i] := headers[i].(refBit := false);
      assert forall j: nat :: j < poolSize && j != -1 ==> old(FrameOk(j));
      forall j: nat | j < poolSize ensures FrameOk(j) {
        assert old(FrameOk(j));
      }
    }

    /** The clock sweep proper: no frame is empty. */
    method Sweep() returns (r: Option<nat>)
      requires Valid() && poolSize > 0 && forall i: nat :: i < poolSize ==> headers[i].pageId >= 0
      modifies headers, this`clockHand
      ensures Valid()
      ensures forall i: nat :: i < poolSize ==> headers[i] == old(headers[i]).(refBit := headers[i].refBit)
      ensures r.None? <==> old(AllPinned())
      ensures r.Some? ==> r.value < poolSize && headers[r.value].pinCount == 0 && !headers[r.value].refBit
      ensures r.None? ==>
        clockHand == old(clockHand) && forall i: nat :: i < poolSize ==> headers[i] == old(headers[i])
      ensures r.Some? ==> old(clockHand) < poolSize && FirstIdle(old(headers[..]), old(clockHand), r.value)
      ensures r.Some? ==>
        && clockHand == (r.value + 1) % poolSize
        && old(clockHand) < poolSize
        && forall i: nat :: i < poolSize ==>
             (headers[i].refBit <==> KeepsChance(old(headers[..]), old(clockHand), r.value, i))
    {
      hide ValidExcept, Swept, FirstIdle, KeepsChance;
      assert clockHand < poolSize && headers.Length == poolSize by { Bounds(); }
      ghost var start, before := clockHand, headers[..];
      SweptNone(before, start);
      for step := 0 to 2 * poolSize
        invariant Valid() && start < poolSize && clockHand < poolSize && headers.Length == poolSize == |before|
        invariant Ahead(poolSize, start, clockHand) == if step < poolSize then step
          else if step < 2 * poolSize then step - poolSize else 0
        invariant forall i: nat :: i < poolSize ==> headers[i].pageId >= 0
        invariant Swept(before, headers[..], start, step)
      {
        var header := headers[clockHand];
        ghost var hs, hand := headers[..], clockHand;
        SameButBits(before, hs, start, step);
        if header.pinCount == 0 {
          if !header.refBit {
            var victim := clockHand;
            Found(before, hs, start, step, victim);
            Advance();
            assert headers[..] == hs;
            return Some(victim);
          }
          ClearRefBit(clockHand);
          assert headers[..] == hs[hand := hs[hand].(refBit := false)];
        }
        SweptOn(before, hs, start, step, hand);
        Advance();
      }
      SweptAll(before, headers[..], start);
      return None;
    }

    // ----- Frames -----

    function Pins(p: int): int
      requires Valid()
      reads this, frames, headers
    {
      if p in pageTable then headers[pageTable[p]].pinCount else 0
    }

    /** Writes frame f's page back if it is dirty and takes it out of the table; the frame itself is not cleared. */
    method Unload(f: nat)
      requires Valid() && f < poolSize && headers[f].pinCount == 0
      modifies this`disk, this`pageTable, this`unreported
      ensures ValidExcept(f)
      ensures pageTable == old(pageTable) - {headers[f].pageId}
      ensures unreported == old(unreported) - {headers[f].pageId}
      ensures var h := headers[f];
        if h.pageId >= 0 && h.isDirty then h.pageId < |store| && disk == old(disk)[h.pageId := store[h.pageId]]
        else disk == old(disk)
    {
      assert FrameOk(f);
      var victim := headers[f];
      if victim.pageId >= 0 {
        if victim.isDirty {
          disk := disk[frames[f].value.id := frames[f].value.data];
        }
        pageTable := pageTable - {victim.pageId};
      }
      unreported := unreported - {victim.pageId};
      forall i: nat | i < poolSize && i != f ensures FrameOk(i) {
        assert old(FrameOk(i));
      }
    }

    /** Puts a page that is in no frame into frame f, pinned once. */
    method Install(f: nat, page: Page, dirty: bool)
      requires ValidExcept(f) && f < poolSize && page.id !in pageTable
      requires 0 <= page.id < |store| && page.data == store[page.id]
      modifies this`pageTable, frames, headers
      ensures Valid() && pageTable == old(pageTable)[page.id := f]
      ensures headers[f] == FrameHeader(page.id, 1, dirty, true)
      ensures forall i: nat :: i < poolSize && i != f ==> headers[i] == old(headers[i])
    {
      frames[f] := Some(page);
      headers[f] := FrameHeader(page.id, 1, dirty, true);
      pageTable := pageTable[page.id := f];
      forall i: nat | i < poolSize ensures FrameOk(i) {
        assert i != f ==> old(FrameOk(i));
      }
    }

    /** Those who held a page pinned still do, with as many pins, but for one more on `extra`. */
    twostate predicate PinsKept(extra: int)
      requires old(Valid()) && Valid()
      reads this, frames, headers
    {
      forall p :: old(Pins(p)) > 0 ==> Pins(p) == old(Pins(p)) + (if p == extra then 1 else 0)
    }

    /** No frame but f has changed, except for reference bits. */
    twostate predicate OthersKept(f: int)
      requires headers.Length == poolSize
      reads this, headers
    {
      forall i: nat :: i < poolSize && i != f ==> headers[i] == old(headers[i]).(refBit := headers[i].refBit)
    }

    /** No frame but f has changed. */
    twostate predicate OthersSame(f: int)
      requires headers.Length == poolSize
      reads this, headers
    {
      forall i: nat :: i < poolSize && i != f ==> headers[i] == old(headers[i])
    }

    /** Frame v was taken for page p: its old page has left the pool and is on disk if it was dirty. */
    twostate predicate Replaced(v: nat, p: int, dirty: bool)
      requires headers.Length == poolSize && |old(disk)| == |old(store)|
      reads this, headers
    {
      && v < poolSize && OthersKept(v) && headers[v] == FrameHeader(p, 1, dirty, true)
      && var h := old(headers[v]);
         && pageTable == (old(pageTable) - {h.pageId})[p := v]
         && |old(disk)| <= |disk|
         && disk[..|old(disk)|] ==
            if 0 <= h.pageId < |old(store)| && h.isDirty then old(disk)[h.pageId := old(store)[h.pageId]] else old(disk)
    }

    // ----- Operations -----

    /** The page, pinned, with its latest content. */
    method FetchPage(pageId: int) returns (r: Fetched)
      requires Valid()
      modifies this`disk, this`pageTable, this`clockHand, this`unreported, frames, headers
      ensures unreported <= old(unreported)
      ensures r.Exhausted? <==> pageId !in old(pageTable) && old(AllPinned())
      ensures r.NoSuchPage? <==> !(0 <= pageId < |store|) && !old(AllPinned())
      ensures r.Got? ==> r.page == Page(pageId, store[pageId]) && Valid() && Pins(pageId) == old(Pins(pageId)) + 1
      ensures !r.NoSuchPage? ==> Valid() && PinsKept(if r.Got? then pageId else -1)
      ensures r.NoSuchPage? ==> (Valid() <==> old(SomeEmpty()))
      ensures r.Exhausted? || pageId in old(pageTable) ==> pageTable == old(pageTable) && clockHand == old(clockHand)
      ensures pageId in old(pageTable) ==>
        var f := pageTable[pageId];
        && disk == old(disk) && f < poolSize && OthersSame(f)
        && headers[f] == old(headers[f]).(pinCount := old(headers[f]).pinCount + 1, refBit := true)
      ensures r.Exhausted? ==> disk == old(disk) && OthersSame(-1)
      ensures r.Got? && pageId !in old(pageTable) ==>
        var v := pageTable[pageId];
        |disk| == |old(disk)| && IsVictim(old(headers[..]), old(clockHand), v) && Replaced(v, pageId, false)
    {
      if pageId in pageTable {
        var f := pageTable[pageId];
        Pin(f);
        assert FrameOk(f);
        return Got(frames[f].value);
      }
      var victim := FindVictimFrame();
      if victim.None? { return Exhausted; }
      var f := victim.value;
      assert FrameOk(f);
      Unload(f);
      if !(0 <= pageId < |disk|) {
        assert old(FrameOk(f));
        if headers[f].pageId < 0 {
          assert FrameOk(f);
          forall i: nat | i < poolSize ensures FrameOk(i) { }
        } else {
          assert !FrameOk(f);
        }
        return NoSuchPage;
      }
      var page := Page(pageId, disk[pageId]);
      Install(f, page, false);
      forall p | old(Pins(p)) > 0 ensures Pins(p) == old(Pins(p)) {
        var g := old(pageTable[p]);
        assert old(FrameOk(g)) && old(FrameOk(f));
        assert old(headers[g]).pinCount > 0 && g != f;
        assert p in pageTable && pageTable[p] == g;
      }
      return Got(page);
    }

    method Pin(f: nat)
      requires Valid() && f < poolSize && headers[f].pageId >= 0
      modifies headers
      ensures Valid() && headers[f] == old(headers[f]).(pinCount := old(headers[f]).pinCount + 1, refBit := true)
      ensures OthersSame(f) && PinsKept(headers[f].pageId)
      ensures Pins(headers[f].pageId) == old(Pins(headers[f].pageId)) + 1
    {
      headers[f] := headers[f].(pinCount := headers[f].pinCount + 1, refBit := true);
      forall i: nat | i < poolSize ensures FrameOk(i) {
        assert old(FrameOk(i));
      }
      assert FrameOk(f);
      forall p | old(Pins(p)) > 0 && p != headers[f].pageId ensures Pins(p) == old(Pins(p)) {
        assert old(FrameOk(pageTable[p]));
      }
    }

    /** Whether, when the last user of a page lets go of it, the pool knows of every change to it. */
    ghost predicate Reports(p: int, dirty: bool)
      requires Valid()
      reads this, frames, headers
    {
      p in unreported && Pins(p) == 1 && !headers[pageTable[p]].isDirty ==> dirty
    }

    /** One of the page's users changes it. */
    method ChangePage(p: int, data: Data)
      requires Valid() && Pins(p) > 0
      modifies this`store, this`unreported, frames
      ensures Valid() && PinsKept(-1)
      ensures store == old(store)[p := data] && unreported == old(unreported) + {p}
    {
      var f := pageTable[p];
      assert FrameOk(f);
      frames[f] := Some(Page(p, data));
      store := store[p := data];
      unreported := unreported + {p};
      forall i: nat | i < poolSize ensures FrameOk(i) {
        assert old(FrameOk(i));
      }
    }

    /**
      Lets go of a page.  The pool stays in order exactly when it knows of every change by the time the last user lets
      go, or the disk holds the content all the same; else the page is taken for clean though the disk lacks a change.
    */
    method UnpinPage(pageId: int, isDirty: bool) returns (ok: bool)
      requires Valid()
      modifies headers, this`unreported
      ensures ok == (old(Pins(pageId)) > 0)
      ensures Valid() <==> old(Reports(pageId, isDirty)) || disk[pageId] == store[pageId]
      ensures Valid() ==> Pins(pageId) == old(Pins(pageId)) - (if ok then 1 else 0)
      ensures Valid() ==> forall p :: p != pageId && old(Pins(p)) > 0 ==> Pins(p) == old(Pins(p))
      ensures Valid() ==> unreported == old(unreported) || unreported == old(unreported) - {pageId}
      ensures !ok ==> OthersSame(-1)
      ensures ok ==>
        var f := pageTable[pageId]; var h := old(headers[f]);
        && OthersSame(f) && headers[f] == h.(pinCount := h.pinCount - 1, isDirty := h.isDirty || isDirty)
      ensures ok && isDirty ==> unreported == old(unreported) - {pageId}
      ensures !ok ==> unreported == old(unreported)
    {
      if pageId !in pageTable { return false; }
      var f := pageTable[pageId];
      assert FrameOk(f);
      var header := headers[f];
      if header.pinCount <= 0 { return false; }
      headers[f] := header.(pinCount := header.pinCount - 1, isDirty := header.isDirty || isDirty);
      if isDirty || disk[pageId] == store[pageId] { unreported := unreported - {pageId}; }
      forall i: nat | i < poolSize && i != f ensures FrameOk(i) {
        assert old(FrameOk(i));
      }
      assert Valid() <==> FrameOk(f);
      return true;
    }

    /** The disk has changed at most at page p, where it now holds the latest content. */
    twostate predicate Written(p: int, dirty: bool)
      requires |old(disk)| == |store|
      reads this
    {
      if dirty then 0 <= p < |store| && disk == old(disk)[p := store[p]] else disk == old(disk)
    }

    /** Writes frame f back if it is dirty. */
    method WriteBack(f: nat)
      requires Valid() && f < poolSize && headers[f].pageId >= 0
      modifies headers, this`disk, this`unreported
      ensures unreported == old(unreported) - (if old(headers[f]).isDirty then {headers[f].pageId} else {})
      ensures Valid() && headers[f] == old(headers[f]).(isDirty := false)
      ensures OthersSame(f) && Written(headers[f].pageId, old(headers[f]).isDirty)
    {
      assert FrameOk(f);
      if headers[f].isDirty {
        disk := disk[frames[f].value.id := frames[f].value.data];
        headers[f] := headers[f].(isDirty := false);
        unreported := unreported - {headers[f].pageId};
      }
      forall i: nat | i < poolSize ensures FrameOk(i) {
        assert old(FrameOk(i));
      }
    }

    /** What a page flushed, or not in the pool, has on disk. */
    method FlushPage(pageId: int) returns (ok: bool)
      requires Valid()
      modifies headers, this`disk, this`unreported
      ensures unreported <= old(unreported)
      ensures Valid() && PinsKept(-1) && ok == (pageId in pageTable)
      ensures 0 <= pageId < |store| && pageId !in unreported ==> disk[pageId] == store[pageId]
      ensures !ok ==> disk == old(disk) && OthersSame(-1)
      ensures ok ==>
        var f := pageTable[pageId];
        && OthersSame(f) && headers[f] == old(headers[f]).(isDirty := false) && Written(pageId, old(headers[f]).isDirty)
    {
      if pageId !in pageTable { return false; }
      var f := pageTable[pageId];
      assert FrameOk(f);
      WriteBack(f);
      assert FrameOk(f);
      return true;
    }

    /** Afterwards the disk holds the latest content of every page, but for changes not reported yet. */
    method FlushAll()
      requires Valid()
      modifies headers, this`disk, this`unreported
      ensures unreported <= old(unreported)
      ensures Valid() && PinsKept(-1)
      ensures forall p :: 0 <= p < |store| && p !in unreported ==> disk[p] == store[p]
      ensures forall i: nat :: i < poolSize ==> headers[i] == old(headers[i]).(isDirty := false)
      ensures |disk| == |old(disk)| && forall p :: 0 <= p < |disk| ==>
        disk[p] == if p in pageTable && old(headers[pageTable[p]]).isDirty then store[p] else old(disk)[p]
    {
      for f := 0 to poolSize
        invariant Valid() && unreported <= old(unreported) && |disk| == |old(disk)|
        invariant forall i: nat :: i < poolSize ==>
          headers[i] == old(headers[i]).(isDirty := i >= f && old(headers[i]).isDirty)
        invariant forall p :: 0 <= p < |disk| ==>
          disk[p] == if p in pageTable && pageTable[p] < f && old(headers[pageTable[p]]).isDirty then store[p]
            else old(disk)[p]
      {
        assert FrameOk(f);
        if headers[f].pageId >= 0 && headers[f].isDirty { WriteBack(f); }
      }
      forall p | 0 <= p < |store| && p !in unreported ensures disk[p] == store[p] {
        if p in pageTable { assert FrameOk(pageTable[p]); }
      }
    }

    /** Drops an unpinned page from the pool, together with any change not yet written back. */
    method DeletePage(pageId: int) returns (ok: bool)
      requires Valid()
      modifies this`pageTable, this`store, this`unreported, frames, headers
      ensures Valid() && ok == (old(Pins(pageId)) == 0) && pageTable == old(pageTable) - (if ok then {pageId} else {})
      ensures if ok && pageId in old(pageTable)
        then var f := old(pageTable)[pageId]; OthersSame(f) && headers[f] == EMPTY_HEADER
        else OthersSame(-1)
      ensures store == if ok && 0 <= pageId < |disk| then old(store)[pageId := disk[pageId]] else old(store)
      ensures !(ok && pageId in old(pageTable) && old(headers[pageTable[pageId]]).isDirty) ==> store == old(store)
    {
      if pageId !in pageTable { return true; }
      var f := pageTable[pageId];
      assert FrameOk(f);
      if headers[f].pinCount > 0 { return false; }
      pageTable := pageTable - {pageId};
      frames[f] := None;
      headers[f] := EMPTY_HEADER;
      store := store[pageId := disk[pageId]];
      unreported := unreported - {pageId};
      forall i: nat | i < poolSize ensures FrameOk(i) {
        assert old(FrameOk(i));
      }
      return true;
    }

    /** A page added at the end of the disk, pinned unless every frame is in use; it is added all the same. */
    method NewPage(blank: Data) returns (r: Fetched)
      requires Valid()
      modifies this`disk, this`store, this`pageTable, this`clockHand, this`unreported, frames, headers
      ensures unreported <= old(unreported)
      ensures Valid() && store == old(store) + [blank]
      ensures r == if old(AllPinned()) then Exhausted else Got(Page(|old(store)|, blank))
      ensures PinsKept(-1) && (r.Got? ==> Pins(r.page.id) == 1)
      ensures r.Exhausted? ==> pageTable == old(pageTable) && disk == old(disk) + [blank] && OthersSame(-1)
      ensures r.Got? ==>
        && r.page.id in pageTable && |disk| == |store| && disk[|disk| - 1] == blank
        && var v := pageTable[r.page.id];
           IsVictim(old(headers[..]), old(clockHand), v) && Replaced(v, r.page.id, true)
    {
      Allocate(blank);
      var page := Page(|disk| - 1, blank);
      var victim := FindVictimFrame();
      if victim.None? { return Exhausted; }
      assert FrameOk(victim.value);
      Unload(victim.value);
      Install(victim.value, page, true);
      return Got(page);
    }

    method Allocate(blank: Data)
      requires Valid()
      modifies this`disk, this`store
      ensures Valid() && disk == old(disk) + [blank] && store == old(store) + [blank]
    {
      disk, store := disk + [blank], store + [blank];
      forall i: nat | i < poolSize ensures FrameOk(i) {
        assert old(FrameOk(i));
      }
    }
  }
}
