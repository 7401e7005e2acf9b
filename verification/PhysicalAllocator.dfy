/** The physical page allocator of kernel/memory.c once its free-block index is in use. */
module PhysicalAllocator {
  import opened Wrappers
  import opened Bits
  import opened BuddyIndex
  import opened PageBuddy

  /** The first page above 4 GiB; lower pages are kept for devices. */
  const NORMAL: nat := 0x10_0000

  /** The pages of [from, to) that a bitmap leaves clear. */
  function ClearPages(bits: seq<bv32>, to: nat): set<nat>
    requires to <= 32 * |bits|
  {
    set p: nat | p < to && !Busy(bits, p)
  }

  function SetPages(bits: seq<bv32>, to: nat): set<nat>
    requires to <= 32 * |bits|
  {
    set p: nat | p < to && Busy(bits, p)
  }

  function Range(from: nat, end: nat): (r: set<nat>)
    ensures forall p: nat :: p in r <==> from <= p < end
    ensures from <= end ==> |r| == end - from
    decreases end
  {
    if end <= from then {} else Range(from, end - 1) + {end - 1}
  }

  lemma SubsetSize(a: set<nat>, b: set<nat>)
    requires a <= b
    ensures |a| <= |b| && |b - a| == |b| - |a|
  {
    assert b == a + (b - a);
  }

  /** bits[i / 32] |= 1u << (i % 32), and its inverse. */
  function WithPage(bits: seq<bv32>, i: nat, on: bool): (r: seq<bv32>)
    requires i < 32 * |bits|
    ensures |r| == |bits|
  {
    bits[i / 32 := if on then Set(bits[i / 32], i % 32) else Clear(bits[i / 32], i % 32)]
  }

  lemma WithPageBusy(bits: seq<bv32>, i: nat, on: bool, j: nat)
    requires i < 32 * |bits| && j < 32 * |bits|
    ensures Busy(WithPage(bits, i, on), j) == if j == i then on else Busy(bits, j)
  {
    hide Bit, Set, Clear;
    SetBit(bits[i / 32], i % 32, j % 32);
  }

  /** Marking pages from to to, as the loop of commit_pages does in a bitmap. */
  ghost predicate Marked(was: seq<bv32>, bits: seq<bv32>, from: nat, to: nat) {
    |bits| == |was| && to <= 32 * |bits|
    && forall j: nat :: j < 32 * |bits| ==> (Busy(bits, j) <==> from <= j < to || Busy(was, j))
  }

  method MarkPages(bits: array<bv32>, first: nat, count: nat)
    requires first + count <= 32 * bits.Length
    modifies bits
    ensures Marked(old(bits[..]), bits[..], first, first + count)
  {
    hide Bit, Set, Clear, Busy;
    for i := first to first + count
      invariant Marked(old(bits[..]), bits[..], first, i)
    {
      ghost var was := bits[..];
      bits[i / 32] := Set(bits[i / 32], i % 32);
      assert bits[..] == WithPage(was, i, true);
      forall j: nat | j < 32 * bits.Length ensures Busy(bits[..], j) <==> first <= j < i + 1 || Busy(old(bits[..]), j) {
        WithPageBusy(was, i, true, j);
      }
    }
  }

  /** Taking a free run from the clear pages. */
  lemma MarkedClears(was: seq<bv32>, bits: seq<bv32>, first: nat, count: nat, pages: nat)
    requires Marked(was, bits, first, first + count) && first + count <= pages <= 32 * |bits|
    requires FreePages(was, first, first + count)
    ensures ClearPages(bits, pages) == ClearPages(was, pages) - Range(first, first + count)
    ensures Range(first, first + count) <= ClearPages(was, pages)
    ensures |ClearPages(bits, pages)| == |ClearPages(was, pages)| - count
    ensures SetPages(bits, pages) == SetPages(was, pages) + Range(first, first + count)
  {
    hide Busy;
    SubsetSize(Range(first, first + count), ClearPages(was, pages));
    assert ClearPages(bits, pages) == ClearPages(was, pages) - Range(first, first + count);
  }

  lemma MarkedSets(was: seq<bv32>, bits: seq<bv32>, first: nat, count: nat, pages: nat)
    requires Marked(was, bits, first, first + count) && first + count <= pages <= 32 * |bits|
    ensures SetPages(bits, pages) == SetPages(was, pages) + Range(first, first + count)
  {
    hide Busy;
  }

  class Allocator {
    /** The bitmap of busy pages and its free-block index. */
    const index: Index
    const pages: nat
    /** allocated[]: pages that page_free may return. */
    const handedOut: array<bv32>
    var freeCount: nat
    var normalCursor: nat
    var dmaCursor: nat
    var normalDepleted: bool

    /** After memory_init() has counted the clear pages and built the index. */
    constructor (index: Index, freeCount: nat)
      requires index.Current() && index.pages < 0x1_0000_0000 && 0 !in ClearPages(index.busy[..], index.pages)
      requires freeCount == |ClearPages(index.busy[..], index.pages)|
      ensures Valid() && this.index == index && Owned() == {} && fresh(handedOut)
    {
      hide Bit, Agrees, Room, Offset;
      this.index, this.freeCount, pages := index, freeCount, index.pages;
      handedOut := new bv32[index.busy.Length](_ => 0);
      normalCursor, dmaCursor, normalDepleted := NORMAL, 1, false;
      new;
      forall p: nat | p < pages ensures !Busy(handedOut[..], p) { ZeroHasNoBits(p % 32); }
    }

    ghost predicate Arrays()
      reads this
    {
      && pages == index.pages < 0x1_0000_0000 && handedOut.Length == index.busy.Length
      && handedOut != index.busy && handedOut as object != index.levels && handedOut as object != index.offset
      && pages <= 32 * handedOut.Length
    }

    ghost function FreeSet(): set<nat>
      requires Arrays() && pages <= 32 * index.busy.Length
      reads this, index.busy
    {
      ClearPages(index.busy[..], pages)
    }

    ghost function Owned(): set<nat>
      requires Arrays()
      reads this, handedOut
    {
      SetPages(handedOut[..], pages)
    }

    ghost predicate Cursors()
      reads this
    {
      && NORMAL <= normalCursor && (normalCursor == NORMAL || normalCursor < pages)
      && 1 <= dmaCursor && (dmaCursor == 1 || dmaCursor < Min(NORMAL, pages))
    }

    /** The counters and shortcuts are right for the bitmap. */
    ghost predicate Valid()
      reads this, index, index.busy, index.levels, index.offset, handedOut
    {
      && Arrays() && index.Current() && Cursors()
      && freeCount == |FreeSet()| && 0 !in FreeSet() && 0 !in Owned() && Owned() !! FreeSet()
      && (normalDepleted ==> forall p :: p in FreeSet() ==> p < NORMAL)
    }

    /** The run of count pages from first was taken from the free ones. */
    ghost predicate Taken(free: set<nat>, owned: set<nat>, first: nat, count: nat)
      requires Arrays() && pages <= 32 * index.busy.Length
      reads this, index.busy, handedOut
    {
      var run := Range(first, first + count);
      run <= free && FreeSet() == free - run && Owned() == owned + run
    }

    /** commit_pages() */
    method Commit(first: nat, count: nat)
      requires Valid() && count > 0 && first + count <= pages && FreePages(index.busy[..], first, first + count)
      modifies this`freeCount, index.busy, index.levels, handedOut
      ensures Valid()
      ensures Taken(old(FreeSet()), old(Owned()), first, count)
    {
      hide Bit, Busy, Marked, Agrees, Room, ClearPages, SetPages, FreePages, SameOutside, Offset;
      ghost var was, owned := index.busy[..], handedOut[..];
      MarkPages(index.busy, first, count);
      MarkPages(handedOut, first, count);
      MarkedClears(was, index.busy[..], first, count, pages);
      MarkedSets(owned, handedOut[..], first, count, pages);
      freeCount := freeCount - count;
      MarkedOutside(was, index.busy[..], pages, first, count);
      index.Refresh(first, count, was);
    }

    /** A single page searched by the index. */
    method FindPage(first: nat, limit: nat) returns (r: nat)
      requires Valid()
      ensures r < pages ==> first <= r < limit && r in FreeSet() && FreePages(index.busy[..], r, r + 1)
      ensures r >= pages ==> r == pages
      ensures limit <= pages ==> forall p :: p in FreeSet() && first <= p < limit ==> r < pages && r <= p
    {
      hide Busy, Agrees, Room, Offset, Found, FreePages;
      r := index.Find(0, first, limit);
      if limit <= pages { FoundPage(index.busy[..], pages, first, limit, r); }
    }

    /** A free page above 4 GiB, searched from the cursor round. */
    method SearchNormal() returns (first: nat)
      requires Valid()
      modifies this`normalDepleted
      ensures Valid()
      ensures first < pages ==> NORMAL <= first && first in FreeSet() && FreePages(index.busy[..], first, first + 1)
      ensures first >= pages ==> first == pages && forall p :: p in FreeSet() ==> p < NORMAL
    {
      hide Busy, Agrees, Room, Offset, Found, FreePages, ClearPages, SetPages;
      ClearBelow(index.busy[..], pages);
      first := pages;
      if !normalDepleted && pages > NORMAL {
        first := FindPage(normalCursor, pages);
        if first == pages { first := FindPage(NORMAL, normalCursor); }
        if first == pages {
          assert forall p :: p in FreeSet() ==> p < NORMAL;
          ghost var free, owned := FreeSet(), Owned();
          normalDepleted := true;
          assert FreeSet() == free && Owned() == owned;
        }
      }
    }

    /** The search of page_alloc: above 4 GiB, then below. */
    method Search() returns (first: nat)
      requires Valid()
      modifies this`normalCursor, this`dmaCursor, this`normalDepleted
      ensures Valid()
      ensures if FreeSet() == {} then first == pages
              else first in FreeSet() && first + 1 <= pages && FreePages(index.busy[..], first, first + 1)
    {
      hide Busy, Agrees, Room, Offset, Found, FreePages, ClearPages, SetPages;
      ClearBelow(index.busy[..], pages);
      first := SearchNormal();
      if first == pages { first := FindPage(dmaCursor, Min(NORMAL, pages)); }
      if first == pages { first := FindPage(1, dmaCursor); }
      if first >= NORMAL && first < pages {
        normalCursor := if first + 1 < pages then first + 1 else NORMAL;
      } else if first < pages {
        dmaCursor := if first + 1 < Min(NORMAL, pages) then first + 1 else 1;
      }
    }

    /** page_alloc(): some free page, or none exactly when no page is free. */
    method PageAlloc() returns (page: Option<nat>)
      requires Valid()
      modifies this, index.busy, index.levels, handedOut
      ensures Valid()
      ensures page.None? <==> old(FreeSet()) == {}
      ensures page.None? ==> FreeSet() == old(FreeSet()) && Owned() == old(Owned())
      ensures page.Some? ==> page.value in old(FreeSet()) && page.value != 0
                             && FreeSet() == old(FreeSet()) - {page.value} && Owned() == old(Owned()) + {page.value}
    {
      hide Busy, Agrees, Room, Offset, FreePages, ClearPages, SetPages;
      if freeCount == 0 { return None; }
      var first := Search();
      if first == pages { return None; }
      Commit(first, 1);
      assert Range(first, first + 1) == {first};
      page := Some(first);
    }

    /** page_alloc_below(): the lowest free page below a limit, or none exactly when there is none. */
    method PageAllocBelow(limit: nat) returns (page: Option<nat>)
      requires Valid()
      modifies this`freeCount, index.busy, index.levels, handedOut
      ensures Valid()
      ensures page.None? <==> forall p :: p in old(FreeSet()) ==> p >= limit
      ensures page.None? ==> FreeSet() == old(FreeSet()) && Owned() == old(Owned())
      ensures page.Some? ==> page.value in old(FreeSet()) && page.value < limit
                             && (forall p :: p in old(FreeSet()) ==> page.value <= p)
                             && FreeSet() == old(FreeSet()) - {page.value} && Owned() == old(Owned()) + {page.value}
    {
      hide Busy, Agrees, Room, Offset, FreePages, ClearPages, SetPages;
      if freeCount == 0 { return None; }
      var first := FindPage(1, Min(limit, pages));
      ClearBelow(index.busy[..], pages);
      if first >= pages { return None; }
      Commit(first, 1);
      assert Range(first, first + 1) == {first};
      page := Some(first);
    }

    /** The search of page_alloc_order: first above 4 GiB. */
    method FindBlock(order: nat) returns (first: nat)
      requires Valid() && order <= 18
      ensures first <= pages && AlignedRun(FreeSet(), Size(order), if first < pages then Some(first) else None)
      ensures first < pages ==> first + Size(order) <= pages && FreePages(index.busy[..], first, first + Size(order))
    {
      hide Busy, Agrees, Room, Offset, Found, FreePages, ClearPages, SetPages, Size, AlignedRun;
      first := index.Find(order, NORMAL, pages);
      if first < pages {
        FoundBlock(index.busy[..], pages, order, NORMAL, pages, first);
        return;
      }
      first := index.Find(order, 1, Min(NORMAL, pages));
      if first < pages {
        FoundBlock(index.busy[..], pages, order, 1, Min(NORMAL, pages), first);
      } else {
        NoBlock(index.busy[..], pages, order);
      }
    }

    /** page_alloc_order(): an aligned block of free pages, or none exactly when there is no such block. */
    method PageAllocOrder(order: nat) returns (page: Option<nat>)
      requires Valid()
      modifies this`freeCount, index.busy, index.levels, handedOut
      ensures Valid()
      ensures order > 18 ==> page.None?
      ensures order <= 18 ==> AlignedRun(old(FreeSet()), Size(order), page)
      ensures page.None? ==> FreeSet() == old(FreeSet()) && Owned() == old(Owned())
      ensures page.Some? ==> Taken(old(FreeSet()), old(Owned()), page.value, Size(order))
    {
      hide Busy, Agrees, Room, Offset, Found, FreePages, ClearPages, SetPages, Size, AlignedRun, Taken, Run, Range;
      if order > 18 { return None; }
      if freeCount < Size(order) { NoAlignedRun(FreeSet(), Size(order)); return None; }
      var first := FindBlock(order);
      if first == pages { return None; }
      Commit(first, Size(order));
      page := Some(first);
    }

    /** The scan of page_alloc_run. */
    method ScanRun(from: nat, top: nat, count: nat) returns (start: Option<nat>)
      requires Valid() && count > 0 && from <= top <= pages
      ensures LowestRun(FreeSet(), count, from, top, start)
      ensures start.Some? ==> start.value + count <= top && FreePages(index.busy[..], start.value, start.value + count)
    {
      hide Bit, Agrees, Room, Offset, Found, ClearPages, SetPages, Run, LowestRun;
      RunsAreFree(index.busy[..], pages, count);
      var run, first, i := 0, 0, from;
      ghost var bits := index.busy[..];
      while i < top
        invariant from <= i <= top && run < count && run <= i - from
        invariant run > 0 ==> first == i - run
        invariant forall p: nat :: i - run <= p < i ==> !Busy(bits, p)
        invariant i - run > from ==> Busy(bits, i - run - 1)
        invariant forall s: nat :: from <= s && s + count <= i ==> !ClearRun(bits, s, count, pages)
      {
        if Bit(index.busy[i / 32], i % 32) {
          assert Busy(bits, i);
          run := 0;
        } else {
          if run == 0 { first := i; }
          run := run + 1;
          if run == count {
            forall s: nat | from <= s < first ensures !ClearRun(bits, s, count, pages) {
              assert Busy(bits, first - 1);
            }
            assert ClearRun(bits, first, count, pages);
            IsLowestRun(FreeSet(), count, from, top, first);
            return Some(first);
          }
        }
        i := i + 1;
      }
      NoRun(FreeSet(), count, from, top);
      start := None;
    }

    /** page_alloc_run(): a power of two is given as an aligned block, any other count as the lowest run; it
        fails exactly when there is none. */
    method PageAllocRun(count: nat) returns (page: Option<nat>)
      requires Valid()
      modifies this`freeCount, index.busy, index.levels, handedOut
      ensures Valid()
      ensures page.None? ==> FreeSet() == old(FreeSet()) && Owned() == old(Owned())
      ensures page.Some? ==> count > 0 && Taken(old(FreeSet()), old(Owned()), page.value, count)
      ensures count > 0 && AlignedOnly(count) ==> AlignedRun(old(FreeSet()), count, page)
      ensures count > 0 && !AlignedOnly(count) ==> LowestRun(old(FreeSet()), count, 0, pages, page)
    {
      hide Busy, Agrees, Room, Offset, Found, FreePages, ClearPages, SetPages, Size, AlignedRun, LowestRun, OrderOf,
        Taken, Run, Range;
      if count == 0 { return None; }
      if freeCount < count {
        NoAlignedRun(FreeSet(), count);
        TooFewRuns(FreeSet(), count, 0, pages);
        return None;
      }
      var order := OrderOf(count);
      if order.Some? && order.value <= 18 {
        page := PageAllocOrder(order.value);
        return;
      }
      page := ScanRun(0, pages, count);
      if page.Some? { Commit(page.value, count); }
    }

    method FindBelow(order: nat, top: nat) returns (page: Option<nat>)
      requires Valid() && order <= 18 && top <= pages
      ensures LowestAligned(FreeSet(), Size(order), top, page)
      ensures page.Some? ==>
                page.value + Size(order) <= pages && FreePages(index.busy[..], page.value, page.value + Size(order))
    {
      hide Busy, Agrees, Room, Offset, Found, FreePages, ClearPages, SetPages, Size, LowestAligned;
      var first := index.Find(order, 1, top);
      LowestAlignedFound(index.busy[..], pages, order, top, first);
      page := if first < top then Some(first) else None;
    }

    /** page_alloc_run_below(): as page_alloc_run, but inside [1, limit) and always the lowest. */
    method PageAllocRunBelow(count: nat, limit: nat) returns (page: Option<nat>)
      requires Valid()
      modifies this`freeCount, index.busy, index.levels, handedOut
      ensures Valid()
      ensures page.None? ==> FreeSet() == old(FreeSet()) && Owned() == old(Owned())
      ensures page.Some? ==> count > 0 && Taken(old(FreeSet()), old(Owned()), page.value, count)
      ensures count > 0 && AlignedOnly(count) ==> LowestAligned(old(FreeSet()), count, Min(pages, limit), page)
      ensures count > 0 && !AlignedOnly(count) ==> LowestRun(old(FreeSet()), count, 1, Min(pages, limit), page)
    {
      hide Busy, Agrees, Room, Offset, Found, FreePages, ClearPages, SetPages, Size, LowestRun, LowestAligned, OrderOf,
        Taken, Run, Range;
      var top := Min(pages, limit);
      if count == 0 { return None; }
      if count > freeCount || count >= top {
        NoRunBelow(FreeSet(), count, top, freeCount);
        return None;
      }
      var order := OrderOf(count);
      if order.Some? && order.value <= 18 {
        page := FindBelow(order.value, top);
        if page.Some? { Commit(page.value, count); }
      } else {
        page := ScanRun(1, top, count);
        if page.Some? { Commit(page.value, count); }
      }
    }

    /** The test of a bit in allocated[]. */
    method HandedOut(p: nat) returns (yes: bool)
      requires Valid()
      ensures yes <==> p in Owned()
    {
      hide Bit, Busy, Agrees, Room, Offset, FreePages, ClearPages, SetPages;
      SetBelow(handedOut[..], pages);
      OwnedBit(handedOut[..], pages, p);
      yes := p < pages && Bit(handedOut[p / 32], p % 32);
    }

    /** page_free(); false where the kernel panics. */
    method PageFree(p: nat) returns (ok: bool)
      requires Valid()
      modifies this`freeCount, this`normalDepleted, index.busy, index.levels, handedOut
      ensures Valid()
      ensures ok <==> p in old(Owned())
      ensures ok ==> Owned() == old(Owned()) - {p} && FreeSet() == old(FreeSet()) + {p}
      ensures !ok ==> Owned() == old(Owned()) && FreeSet() == old(FreeSet())
    {
      hide Bit, Set, Clear, Busy, Agrees, Room, Offset, FreePages, ClearPages, SetPages, SameOutside;
      SetBelow(handedOut[..], pages);
      if p >= pages || !Bit(handedOut[p / 32], p % 32) { OwnedBit(handedOut[..], pages, p); return false; }
      OwnedBit(handedOut[..], pages, p);
      ghost var was, owned := index.busy[..], handedOut[..];
      handedOut[p / 32] := Clear(handedOut[p / 32], p % 32);
      index.busy[p / 32] := Clear(index.busy[p / 32], p % 32);
      ClearOne(owned, handedOut[..], pages, p);
      ClearOne(was, index.busy[..], pages, p);
      freeCount := freeCount + 1;
      if p >= NORMAL { normalDepleted := false; }
      index.Refresh(p, 1, was);
      ok := true;
    }

    /** page_pin(): the page stays busy and can no longer be freed. */
    method PagePin(p: nat) returns (ok: bool)
      requires Valid()
      modifies handedOut
      ensures Valid() && FreeSet() == old(FreeSet())
      ensures ok <==> p in old(Owned())
      ensures Owned() == old(Owned()) - {p}
    {
      hide Bit, Set, Clear, Busy, Agrees, Room, Offset, FreePages, ClearPages, SetPages;
      SetBelow(handedOut[..], pages);
      if p >= pages || !Bit(handedOut[p / 32], p % 32) { OwnedBit(handedOut[..], pages, p); return false; }
      OwnedBit(handedOut[..], pages, p);
      ghost var owned := handedOut[..];
      handedOut[p / 32] := Clear(handedOut[p / 32], p % 32);
      ClearOne(owned, handedOut[..], pages, p);
      ok := true;
    }
  }

  lemma MarkedOutside(was: seq<bv32>, bits: seq<bv32>, pages: nat, first: nat, count: nat)
    requires Marked(was, bits, first, first + count) && count > 0 && pages <= 32 * |bits|
    ensures SameOutside(was, bits, pages, first, first + count - 1)
  {
    hide Busy;
  }

  lemma ClearBelow(bits: seq<bv32>, pages: nat)
    requires pages <= 32 * |bits|
    ensures forall p :: p in ClearPages(bits, pages) ==> p < pages
  {
  }

  lemma SetBelow(bits: seq<bv32>, pages: nat)
    requires pages <= 32 * |bits|
    ensures forall p :: p in SetPages(bits, pages) ==> p < pages
  {
  }

  lemma OwnedBit(bits: seq<bv32>, pages: nat, p: nat)
    requires pages <= 32 * |bits|
    ensures p in SetPages(bits, pages) <==> p < pages && Bit(bits[p / 32], p % 32)
  {
    hide Bit;
  }

  /** Clearing the bit of one page. */
  lemma ClearOne(was: seq<bv32>, bits: seq<bv32>, pages: nat, p: nat)
    requires p < pages <= 32 * |was| && bits == was[p / 32 := Clear(was[p / 32], p % 32)]
    ensures SetPages(bits, pages) == SetPages(was, pages) - {p}
    ensures ClearPages(bits, pages) == ClearPages(was, pages) + {p}
    ensures Busy(was, p) ==> |ClearPages(bits, pages)| == |ClearPages(was, pages)| + 1
    ensures SameOutside(was, bits, pages, p, p)
  {
    hide Busy, Clear;
    assert bits == WithPage(was, p, false);
    forall j: nat | j < 32 * |bits|
      ensures Busy(bits, j) == (j != p && Busy(was, j)) { WithPageBusy(was, p, false, j); }
  }

  /** k where count is 2^k */
  function OrderOf(count: nat): (k: Option<nat>)
    ensures k.Some? ==> Size(k.value) == count
    ensures k.None? ==> forall j: nat :: Size(j) != count
  {
    if count == 0 then SizesPositive(); None
    else if count == 1 then Some(0)
    else if count % 2 == 1 then OddSize(count); None
    else
      match OrderOf(count / 2)
      case Some(k) => Some(k + 1)
      case None => HalfSize(count); None
  }

  lemma SizesPositive()
    ensures forall j: nat :: Size(j) != 0
  {
  }

  lemma OddSize(count: nat)
    requires count % 2 == 1 && count > 1
    ensures forall j: nat :: Size(j) != count
  {
    forall j: nat ensures Size(j) != count { if j > 0 { assert Size(j) == 2 * Size(j - 1); } }
  }

  lemma HalfSize(count: nat)
    requires count % 2 == 0 && count > 0 && forall j: nat :: Size(j) != count / 2
    ensures forall j: nat :: Size(j) != count
  {
    forall j: nat ensures Size(j) != count { if j > 0 { assert Size(j) == 2 * Size(j - 1) && Size(j - 1) != count / 2; } }
  }

  /** Counts that page_alloc_run takes from the free-block index. */
  predicate AlignedOnly(count: nat) {
    OrderOf(count).Some? && OrderOf(count).value <= 18
  }

  /** Fewer free pages than asked for. */
  lemma TooFew(free: set<nat>, count: nat)
    requires |free| < count
    ensures forall q: nat :: !Run(free, q, count)
  {
    forall q: nat ensures !Run(free, q, count) {
      if Run(free, q, count) { SubsetSize(Range(q, q + count), free); }
    }
  }

  /** The count pages from q on are among free. */
  predicate Run(free: set<nat>, q: nat, count: nat) { Range(q, q + count) <= free }

  ghost predicate ClearRun(bits: seq<bv32>, q: nat, count: nat, end: nat)
    requires end <= 32 * |bits|
  {
    q + count <= end && FreePages(bits, q, q + count)
  }

  lemma RunsAreFree(bits: seq<bv32>, pages: nat, count: nat)
    requires pages <= 32 * |bits| && count > 0
    ensures forall q: nat :: Run(ClearPages(bits, pages), q, count) <==> ClearRun(bits, q, count, pages)
  {
    hide Busy;
    forall q: nat ensures Run(ClearPages(bits, pages), q, count) <==> ClearRun(bits, q, count, pages) {
      if Run(ClearPages(bits, pages), q, count) {
        assert q + count - 1 in Range(q, q + count);
        forall p: nat | q <= p < q + count ensures !Busy(bits, p) { assert p in Range(q, q + count); }
      }
    }
  }

  lemma {:induction false} StartSize(order: nat, j: nat)
    ensures Start(order, Size(j)) == Size(order + j)
  {
    if order > 0 { StartSize(order - 1, j + 1); }
  }

  /** 4 GiB is a block boundary of every order. */
  lemma NormalAligned(order: nat, k: nat)
    requires order <= 18 && Start(order, k) < NORMAL
    ensures Start(order, k + 1) <= NORMAL
  {
    StartSize(order, 20 - order);
    assert Size(20) == NORMAL by { assert Size(7) == 128; assert Size(14) == 0x4000; }
    var m := Size(20 - order);
    if m <= k { if m < k { StartOrder(order, m, k); } }
    if k + 1 < m { StartOrder(order, k + 1, m); }
  }

  /** Both searches of page_alloc_order failed. */
  lemma NoBlock(bits: seq<bv32>, pages: nat, order: nat)
    requires order <= 18 && pages <= 32 * |bits| && 0 !in ClearPages(bits, pages)
    requires Found(bits, pages, order, NORMAL, pages, pages) && Found(bits, pages, order, 1, Min(NORMAL, pages), pages)
    ensures AlignedRun(ClearPages(bits, pages), Size(order), None)
  {
    hide Busy, Size, Found, FreePages, Start;
    FoundMeans(bits, pages, order, NORMAL, pages, pages);
    FoundMeans(bits, pages, order, 1, Min(NORMAL, pages), pages);
    RunsAreFree(bits, pages, Size(order));
    forall q: nat | q % Size(order) == 0 ensures !Run(ClearPages(bits, pages), q, Size(order)) {
      if Run(ClearPages(bits, pages), q, Size(order)) {
        assert q in Range(q, q + Size(order));
        BlockAt(q, order);
        if q < NORMAL { NormalAligned(order, Halved(q, order)); }
      }
    }
  }

  lemma BlockAt(q: nat, order: nat)
    requires q % Size(order) == 0
    ensures q == Start(order, Halved(q, order)) && q + Size(order) == Start(order, Halved(q, order) + 1)
  {
    hide Size, Start, Halved;
    HalvedDivides(q, order);
    StartTimes(order, Halved(q, order));
    StartTimes(order, Halved(q, order) + 1);
    Distributes(Halved(q, order), Size(order));
  }

  // ----- What a run allocation returns -----

  /** A free run at a multiple of its size, or none if there is none. */
  ghost predicate AlignedRun(free: set<nat>, count: nat, page: Option<nat>)
    requires count > 0
  {
    match page
    case Some(p) => p % count == 0 && Run(free, p, count)
    case None => forall q: nat :: q % count == 0 ==> !Run(free, q, count)
  }

  /** The lowest free run inside [from, top), or none if there is none. */
  ghost predicate LowestRun(free: set<nat>, count: nat, from: nat, top: nat, page: Option<nat>) {
    match page
    case Some(p) => from <= p && p + count <= top && Run(free, p, count) && forall q: nat :: from <= q < p ==> !Run(free, q, count)
    case None => forall q: nat :: from <= q && q + count <= top ==> !Run(free, q, count)
  }

  ghost predicate LowestAligned(free: set<nat>, count: nat, top: int, page: Option<nat>)
    requires count > 0
  {
    match page
    case Some(p) => p % count == 0 && p + count <= top && Run(free, p, count)
                    && forall q: nat :: q % count == 0 && q < p ==> !Run(free, q, count)
    case None => forall q: nat :: q % count == 0 && q + count <= top ==> !Run(free, q, count)
  }

  lemma NoAlignedRun(free: set<nat>, count: nat)
    requires count > |free|
    ensures AlignedRun(free, count, None)
  {
    hide Run;
    TooFew(free, count);
  }

  lemma TooFewRuns(free: set<nat>, count: nat, from: nat, top: nat)
    requires count > |free|
    ensures LowestRun(free, count, from, top, None)
  {
    hide Run;
    TooFew(free, count);
  }

  lemma FoundBlock(bits: seq<bv32>, pages: nat, order: nat, first: nat, limit: nat, r: nat)
    requires limit <= pages <= 32 * |bits| && r < pages && Found(bits, pages, order, first, limit, r)
    ensures AlignedRun(ClearPages(bits, pages), Size(order), Some(r))
    ensures r + Size(order) <= pages && FreePages(bits, r, r + Size(order))
  {
    hide Busy, Size, Found, FreePages, Run;
    FoundMeans(bits, pages, order, first, limit, r);
    RunsAreFree(bits, pages, Size(order));
    assert ClearRun(bits, r, Size(order), pages);
  }

  lemma NoRun(free: set<nat>, count: nat, from: nat, top: nat)
    requires forall q: nat :: from <= q && q + count <= top ==> !Run(free, q, count)
    ensures LowestRun(free, count, from, top, None)
  {
    hide Run;
  }

  lemma IsLowestRun(free: set<nat>, count: nat, from: nat, top: nat, p: nat)
    requires from <= p && p + count <= top && Run(free, p, count)
    requires forall q: nat :: from <= q < p ==> !Run(free, q, count)
    ensures LowestRun(free, count, from, top, Some(p))
  {
    hide Run;
  }

  /** Too few pages, or too low a limit. */
  lemma NoRunBelow(free: set<nat>, count: nat, top: int, size: nat)
    requires size == |free| && 0 !in free && count > 0 && (count > size || count >= top)
    ensures LowestAligned(free, count, top, None)
    ensures top >= 0 ==> LowestRun(free, count, 1, top, None)
  {
    if count > size { TooFew(free, count); }
    else {
      forall q: nat | q + count <= top ensures !Run(free, q, count) { assert q == 0 && q in Range(q, q + count); }
    }
  }

  lemma LowestAlignedFound(bits: seq<bv32>, pages: nat, order: nat, top: nat, first: nat)
    requires order <= 18 && top <= pages <= 32 * |bits| && 0 !in ClearPages(bits, pages) && first <= pages
    requires Found(bits, pages, order, 1, top, first)
    ensures LowestAligned(ClearPages(bits, pages), Size(order), top, if first < top then Some(first) else None)
    ensures first < top ==> first + Size(order) <= pages && FreePages(bits, first, first + Size(order))
  {
    hide Busy, Size, Found, FreePages, Run;
    var count := Size(order);
    FoundMeans(bits, pages, order, 1, top, first);
    RunsAreFree(bits, pages, count);
    forall q: nat | q % count == 0 && q + count <= top && Run(ClearPages(bits, pages), q, count)
      ensures first < top && first <= q
    {
      NotAtZero(ClearPages(bits, pages), q, count);
    }
    if first < top { assert ClearRun(bits, first, count, pages); }
  }

  lemma NotAtZero(free: set<nat>, q: nat, count: nat)
    requires 0 !in free && count > 0 && Run(free, q, count)
    ensures q >= 1
  {
    assert q in Range(q, q + count);
  }

  // ----- A free run that is not found -----

  /** A word of the bitmap in which only bits 5 and 6 are clear. */
  function TwoFree(): bv32 { Clear(Clear(0xffff_ffff, 5), 6) }

  lemma OnesHaveBits(k: nat)
    requires k < 32
    ensures Bit(0xffff_ffff, k)
  {
    hide Mask;
    MaskValues();
  }

  lemma TwoFreePages()
    ensures ClearPages([TwoFree()], 32) == {5, 6}
  {
    hide Bit, Clear;
    var free := ClearPages([TwoFree()], 32);
    forall p: nat | p < 32 ensures p in free <==> p == 5 || p == 6 {
      OnesHaveBits(p);
      SetBit(0xffff_ffff, 5, p);
      SetBit(Clear(0xffff_ffff, 5), 6, p);
    }
  }

  lemma {:induction false} OffsetBound(pages: nat, order: nat)
    requires order > 0
    ensures Offset(pages, order) + Halved(pages, order - 1) <= pages
  {
    if order > 1 { OffsetBound(pages, order - 1); }
  }

  /** Pages 5 and 6 are free, and no others: a run of two pages exists, and page_alloc_run(2) fails. */
  method UnalignedRunMissed() returns (a: Allocator, page: Option<nat>)
    ensures a.Valid() && a.FreeSet() == {5, 6} && Run(a.FreeSet(), 5, 2) && page == None
  {
    hide Agrees, Offset, Halved, Clear, Bit, ClearPages, SetPages, Allocator.Cursors;
    var busy := new bv32[1](_ => TwoFree());
    var levels := new u8[8](_ => 0);
    OffsetBound(32, 19);
    assert busy[..] == [TwoFree()];
    TwoFreePages();
    var index := new Index(busy, levels, 32);
    a := new Allocator(index, 2);
    page := a.PageAllocRun(2);
    TwoIsPower();
    NoAlignedPair(page);
    assert Range(5, 7) == {5, 6};
  }

  lemma TwoIsPower()
    ensures AlignedOnly(2)
  {
  }

  lemma NoAlignedPair(page: Option<nat>)
    ensures AlignedRun({5, 6}, 2, page) ==> page == None
  {
    if page.Some? && AlignedRun({5, 6}, 2, page) {
      var p := page.value;
      assert p in Range(p, p + 2) && p + 1 in Range(p, p + 2);
    }
  }
}
