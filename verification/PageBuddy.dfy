/** common/page_buddy.c: building, refreshing and searching the free-block index in place. */
module PageBuddy {
  import opened Bits
  import opened BuddyIndex

  /** NV_BUDDY_MAX_ORDER */
  const MAX_ORDER: nat := 18

  function Min(a: int, b: int): int { if a < b then a else b }

  /** While a refresh is at block i of an order, the bits before it are right for the new bitmap. */
  predicate MixedAt(levels: seq<u8>, was: seq<bv32>, busy: seq<bv32>, pages: nat, order: nat, i: nat, o: nat, k: nat)
    requires pages <= 32 * |was| && pages <= 32 * |busy| && k < Halved(pages, o)
  {
    Right(levels, if o < order || (o == order && k < i) then busy else was, pages, o, k)
  }

  ghost predicate Mixed(levels: seq<u8>, was: seq<bv32>, busy: seq<bv32>, pages: nat, order: nat, i: nat) {
    pages <= 32 * |was| && pages <= 32 * |busy| &&
    forall o: nat, k: nat {:trigger MixedAt(levels, was, busy, pages, order, i, o, k)} ::
      1 <= o <= 18 && k < Halved(pages, o) ==> MixedAt(levels, was, busy, pages, order, i, o, k)
  }

  lemma MixedStart(levels: seq<u8>, was: seq<bv32>, busy: seq<bv32>, pages: nat)
    requires Agrees(levels, was, pages, 18) && pages <= 32 * |busy|
    ensures Mixed(levels, was, busy, pages, 1, 0)
  {
    hide Right;
  }

  lemma MixedEnd(levels: seq<u8>, was: seq<bv32>, busy: seq<bv32>, pages: nat)
    requires Mixed(levels, was, busy, pages, 19, 0)
    ensures Agrees(levels, busy, pages, 18)
  {
    hide Right;
    forall o: nat, k: nat | 1 <= o <= 18 && k < Halved(pages, o) ensures Right(levels, busy, pages, o, k) {
      assert MixedAt(levels, was, busy, pages, 19, 0, o, k);
    }
  }

  lemma MixedNext(levels: seq<u8>, was: seq<bv32>, busy: seq<bv32>, pages: nat, order: nat, i: nat)
    requires Mixed(levels, was, busy, pages, order, i) && i >= Halved(pages, order)
    ensures Mixed(levels, was, busy, pages, order + 1, 0)
  {
    hide Right;
    ghost var next := order + 1;
    forall o: nat, k: nat | 1 <= o <= 18 && k < Halved(pages, o)
      ensures MixedAt(levels, was, busy, pages, next, 0, o, k)
    {
      assert MixedAt(levels, was, busy, pages, order, i, o, k);
    }
  }

  /** Only pages first to last differ. */
  ghost predicate SameOutside(was: seq<bv32>, busy: seq<bv32>, pages: nat, first: nat, last: nat) {
    |was| == |busy| && pages <= 32 * |busy|
    && forall p: nat :: p < pages && !(first <= p <= last) ==> Busy(was, p) == Busy(busy, p)
  }

  /** Block k holds none of the pages. */
  predicate Untouched(first: nat, last: nat, order: nat, k: nat) {
    k < Halved(first, order) || Halved(last, order) < k
  }

  lemma RightElsewhere(levels: seq<u8>, was: seq<bv32>, busy: seq<bv32>, pages: nat, order: nat, k: nat, first: nat,
      last: nat)
    requires SameOutside(was, busy, pages, first, last) && k < Halved(pages, order) && Untouched(first, last, order, k)
    ensures Right(levels, was, pages, order, k) == Right(levels, busy, pages, order, k)
  {
    hide Free, Busy, BitAt, Halved;
    FreeElsewhere(was, busy, pages, first, last, order, k);
  }

  /** Blocks that hold none of the changed pages need no refresh. */
  lemma MixedSkip(levels: seq<u8>, was: seq<bv32>, busy: seq<bv32>, pages: nat, order: nat, i: nat, j: nat, first: nat,
      last: nat)
    requires Mixed(levels, was, busy, pages, order, i) && SameOutside(was, busy, pages, first, last) && i <= j
    requires forall k: nat :: i <= k < j && k < Halved(pages, order) ==> Untouched(first, last, order, k)
    ensures Mixed(levels, was, busy, pages, order, j)
  {
    hide Right, Busy, Untouched, Halved;
    forall o: nat, k: nat | 1 <= o <= 18 && k < Halved(pages, o)
      ensures MixedAt(levels, was, busy, pages, order, j, o, k)
    {
      assert MixedAt(levels, was, busy, pages, order, i, o, k);
      if o == order && i <= k < j { RightElsewhere(levels, was, busy, pages, order, k, first, last); }
    }
  }

  /** Writing one bit from its two halves. */
  lemma MixedWrite(levels: seq<u8>, was: seq<bv32>, busy: seq<bv32>, pages: nat, order: nat, i: nat)
    requires Mixed(levels, was, busy, pages, order, i) && 1 <= order <= 18 && i < Halved(pages, order)
    requires Room(levels, pages, 18)
    ensures Offset(pages, order) + i < 8 * |levels|
    ensures Mixed(WithBit(levels, Offset(pages, order) + i, Free(busy, pages, order, i)), was, busy, pages, order, i + 1)
  {
    hide Free, BitAt, Busy, WithBit, Halved, Offset;
    BitFits(levels, pages, 18, order, i);
    var n := Offset(pages, order) + i;
    var free := Free(busy, pages, order, i);
    var levels', next := WithBit(levels, n, free), i + 1;
    forall o: nat, k: nat | 1 <= o <= 18 && k < Halved(pages, o)
      ensures MixedAt(levels', was, busy, pages, order, next, o, k)
    {
      BitFits(levels, pages, 18, o, k);
      assert MixedAt(levels, was, busy, pages, order, i, o, k);
      if o == order && k == i {
        WithBitAt(levels, n, free, n);
      } else {
        WithBitElsewhere(levels, pages, order, i, free, o, k);
      }
    }
  }

  /** A block is free if its halves are. */
  lemma FreeHalves(busy: seq<bv32>, pages: nat, order: nat, i: nat)
    requires pages <= 32 * |busy| && 1 <= order && i < Halved(pages, order)
    ensures 2 * i + 1 < Halved(pages, order - 1)
    ensures Free(busy, pages, order, i) ==
            (Free(busy, pages, order - 1, 2 * i) && Free(busy, pages, order - 1, 2 * i + 1))
  {
  }

  class Index {
    /** The caller's bitmap. */
    const busy: array<bv32>
    const levels: array<u8>
    const pages: nat
    const offset: array<nat>

    ghost predicate Valid()
      reads this, levels, offset
    {
      && busy as object != levels && busy as object != offset && levels as object != offset
          && pages <= 32 * busy.Length && Room(levels[..], pages, 18) && offset.Length == 19
      && forall o: nat :: 1 <= o <= 18 ==> offset[o] == Offset(pages, o)
    }

    /** The index agrees with the bitmap. */
    ghost predicate Current()
      reads this, levels, offset, busy
    {
      Valid() && Agrees(levels[..], busy[..], pages, 18)
    }

    /** free_block() */
    method FreeBlock(order: nat, i: nat) returns (free: bool)
      requires Valid() && order <= 18 && i < Halved(pages, order)
      requires order > 0 ==> Right(levels[..], busy[..], pages, order, i)
      ensures free == Free(busy[..], pages, order, i)
    {
      hide Agrees, Bit, Set, Clear;
      if order == 0 {
        free := !Bit(busy[i / 32], i % 32);
      } else {
        var bit := offset[order] + i;
        free := Bit(levels[bit / 8], bit % 8);
      }
    }

    /** set_block() */
    method SetBlock(order: nat, i: nat, free: bool)
      requires Valid() && 1 <= order <= 18 && i < Halved(pages, order)
      modifies levels
      ensures Valid() && Offset(pages, order) + i < 8 * levels.Length
      ensures levels[..] == WithBit(old(levels[..]), Offset(pages, order) + i, free)
    {
      hide Bit, Set, Clear, Halved, Offset;
      BitFits(levels[..], pages, 18, order, i);
      var bit := offset[order] + i;
      SetByte(levels[bit / 8], bit % 8);
      levels[bit / 8] := if free then Set(levels[bit / 8], bit % 8) else Clear(levels[bit / 8], bit % 8);
    }

    /** Refreshing one block from its halves. */
    method RefreshBlock(order: nat, i: nat, ghost was: seq<bv32>)
      requires Valid() && 1 <= order <= 18 && i < Halved(pages, order)
      requires Mixed(levels[..], was, busy[..], pages, order, i)
      modifies levels
      ensures Valid() && Mixed(levels[..], was, busy[..], pages, order, i + 1)
    {
      hide Free, Right, WithBit, Halved, Offset, Room;
      FreeHalves(busy[..], pages, order, i);
      MixedWrite(levels[..], was, busy[..], pages, order, i);
      if order > 1 {
        assert MixedAt(levels[..], was, busy[..], pages, order, i, order - 1, 2 * i);
        assert MixedAt(levels[..], was, busy[..], pages, order, i, order - 1, 2 * i + 1);
      }
      var low := FreeBlock(order - 1, 2 * i);
      var high := FreeBlock(order - 1, 2 * i + 1);
      SetBlock(order, i, low && high);
    }

    /** nv_buddy_refresh(): the index agrees again after pages first to first + count - 1 have changed. */
    method Refresh(first: nat, count: nat, ghost was: seq<bv32>)
      requires Valid() && Agrees(levels[..], was, pages, 18)
      requires count > 0 ==> SameOutside(was, busy[..], pages, first, first + count - 1)
      modifies levels
      ensures Valid()
      ensures 0 < count && first + count <= pages ==> Current()
      ensures count == 0 || first + count > pages ==> levels[..] == old(levels[..])
    {
      hide Free, Right, Halved, Offset, Room, Agrees, Mixed, MixedAt;
      if count == 0 || first >= pages || count > pages - first { return; }
      var last := first + count - 1;
      MixedStart(levels[..], was, busy[..], pages);
      var order := 1;
      while order <= 18
        invariant 1 <= order <= 19 && Valid() && Mixed(levels[..], was, busy[..], pages, order, 0)
      {
        RefreshOrder(order, first, last, was);
        order := order + 1;
      }
      MixedEnd(levels[..], was, busy[..], pages);
    }

    method RefreshOrder(order: nat, first: nat, last: nat, ghost was: seq<bv32>)
      requires Valid() && 1 <= order <= 18 && first <= last && SameOutside(was, busy[..], pages, first, last)
      requires Mixed(levels[..], was, busy[..], pages, order, 0)
      modifies levels
      ensures Valid() && Mixed(levels[..], was, busy[..], pages, order + 1, 0)
    {
      hide Free, Right, Halved, Offset, Room, Agrees, Mixed, MixedAt, SameOutside;
      var blocks := Halved(pages, order);
      var end := Min(Halved(last, order), if blocks > 0 then blocks - 1 else 0);
      HalvedMonotone(first, last, order);
      if Halved(first, order) >= blocks {
        MixedSkip(levels[..], was, busy[..], pages, order, 0, blocks, first, last);
        MixedNext(levels[..], was, busy[..], pages, order, blocks);
        return;
      }
      var i := Halved(first, order);
      MixedSkip(levels[..], was, busy[..], pages, order, 0, i, first, last);
      while i <= end
        invariant Halved(first, order) <= i <= end + 1 && Valid() && Mixed(levels[..], was, busy[..], pages, order, i)
      {
        RefreshBlock(order, i, was);
        i := i + 1;
      }
      ghost var stop := if i < blocks then blocks else i;
      MixedSkip(levels[..], was, busy[..], pages, order, i, stop, first, last);
      MixedNext(levels[..], was, busy[..], pages, order, stop);
    }

    // ----- nv_buddy_find -----

    /** The lowest free page from begin on, or end. */
    method ScanPages(begin: nat, end: nat) returns (r: nat)
      requires Valid() && begin < end <= pages
      ensures begin <= r <= end && (r < end ==> !Busy(busy[..], r))
      ensures forall k: nat :: begin <= k < r ==> Busy(busy[..], k)
    {
      hide Bit, Not, KeptFrom, KeptUpTo, Ctz;
      var w := begin / 32;
      while w <= (end - 1) / 32
        invariant begin / 32 <= w <= (end - 1) / 32 + 1
        invariant forall k: nat :: begin <= k < end && k < 32 * w ==> Busy(busy[..], k)
      {
        var bits := Not(busy[w]);
        if w == begin / 32 { bits := KeptFrom(bits, begin % 32); }
        if w == (end - 1) / 32 { bits := KeptUpTo(bits, (end - 1) % 32); }
        WordBits(busy[w], bits, begin, end, w);
        if bits != 0 {
          r := w * 32 + Ctz(bits);
          forall k: nat | begin <= k < r ensures Busy(busy[..], k) {
            if k >= 32 * w { assert !Bit(bits, k - 32 * w); }
          }
          return;
        }
        forall k: nat | begin <= k < end && 32 * w <= k < 32 * w + 32 ensures Busy(busy[..], k) {
          ZeroHasNoBits(k - 32 * w);
        }
        w := w + 1;
      }
      r := end;
    }

    /** The lowest set bit of the levels from low on, or high. */
    method ScanLevels(low: nat, high: nat) returns (r: nat)
      requires Valid() && low < high <= 8 * levels.Length
      ensures low <= r <= high && (r < high ==> BitAt(levels[..], r))
      ensures forall n: nat :: low <= n < r ==> !BitAt(levels[..], n)
    {
      hide Bit, Select, Shl, Shr, Ctz;
      var at := low / 8;
      while at <= (high - 1) / 8
        invariant low / 8 <= at <= (high - 1) / 8 + 1
        invariant forall n: nat :: low <= n < high && n < 8 * at ==> !BitAt(levels[..], n)
      {
        var bits: bv32 := levels[at];
        if at == low / 8 { bits := Select(bits, Shl(0xff, low % 8)); }
        SelectByte(levels[at], Shl(0xff, low % 8));
        if at == (high - 1) / 8 { bits := Select(bits, Shr(0xff, 7 - (high - 1) % 8)); }
        ByteBits(levels[at], bits, low, high, at);
        if bits != 0 {
          r := at * 8 + Ctz(bits);
          forall n: nat | low <= n < r ensures !BitAt(levels[..], n) {
            if n >= 8 * at { assert !Bit(bits, n - 8 * at); }
          }
          return;
        }
        forall n: nat | low <= n < high && 8 * at <= n < 8 * at + 8 ensures !BitAt(levels[..], n) {
          ZeroHasNoBits(n - 8 * at);
        }
        at := at + 1;
      }
      r := high;
    }

    /** nv_buddy_find(): the first page of the lowest aligned free block inside [first, limit), or pages. */
    method Find(order: nat, first: nat, limit: nat) returns (r: nat)
      requires Current()
      ensures r <= pages
      ensures order > 18 || limit > pages ==> r == pages
      ensures order <= 18 && limit <= pages ==> Found(busy[..], pages, order, first, limit, r)
    {
      hide Free, Busy, BitAt, Agrees, Halved, Start, Size, Offset, Room, FreeIn, Ceil;
      if order > 18 || limit > pages { return pages; }
      HalvedMonotone(limit, pages, order);
      if first >= limit {
        HalvedMonotone(limit, first, order);
        NothingIn(busy[..], pages, order, first, limit);
        return pages;
      }
      var block := Size(order);
      var begin := first / block + if first % block != 0 then 1 else 0;
      var end := Min(limit / block, Halved(pages, order));
      Divides(order, first, limit);
      if begin >= end { NothingIn(busy[..], pages, order, first, limit); return pages; }
      ghost var i;
      if order == 0 {
        PageBlocks(busy[..], pages);
        r := ScanPages(begin, end);
        i := r;
        if r == end { NothingIn(busy[..], pages, order, first, limit); return pages; }
      } else {
        BitFits(levels[..], pages, 18, order, end - 1);
        var low, high := offset[order] + begin, offset[order] + end;
        var bit := ScanLevels(low, high);
        i := bit - Offset(pages, order);
        LevelBits(levels[..], busy[..], pages, order, begin, i);
        if bit == high { NothingIn(busy[..], pages, order, first, limit); return pages; }
        LevelBit(levels[..], busy[..], pages, order, i);
        StartTimes(order, i);
        r := (bit - offset[order]) * block;
      }
      LowestIn(busy[..], pages, order, first, limit, i);
    }

    /** nv_buddy_init() */
    constructor (busy: array<bv32>, levels: array<u8>, pages: nat)
      requires busy as object != levels && pages <= 32 * busy.Length && Room(levels[..], pages, 18)
      modifies levels
      ensures Current() && this.busy == busy && this.levels == levels && this.pages == pages && fresh(offset)
    {
      hide Free, Right, Halved, Offset, Room, Agrees, Partly, WithBit;
      this.busy, this.levels, this.pages := busy, levels, pages;
      offset := new nat[19](_ => 0);
      new;
      var bits := 0;
      OffsetNext(pages, 1);
      for order := 1 to 19
        invariant bits == Offset(pages, order)
        invariant forall o: nat :: 1 <= o < order ==> offset[o] == Offset(pages, o)
        invariant levels[..] == old(levels[..]) && busy[..] == old(busy[..])
      {
        offset[order] := bits;
        bits := bits + Halved(pages, order);
        OffsetNext(pages, order);
      }
      forall k | 0 <= k < levels.Length { levels[k] := 0; }
      RoomFor(old(levels[..]), levels[..], pages);
      PartlyStart(levels[..], busy[..], pages);
      for order := 1 to 19
        invariant Valid() && Partly(levels[..], busy[..], pages, order, 0)
      {
        for i := 0 to Halved(pages, order)
          invariant Valid() && Partly(levels[..], busy[..], pages, order, i)
        {
          FreeHalves(busy[..], pages, order, i);
          PartlyWrite(levels[..], busy[..], pages, order, i);
          if order > 1 { PartlyRight(levels[..], busy[..], pages, order, i); }
          var low := FreeBlock(order - 1, 2 * i);
          if low {
            var high := FreeBlock(order - 1, 2 * i + 1);
            if high { SetBlock(order, i, true); }
          }
        }
        PartlyNext(levels[..], busy[..], pages, order);
      }
      PartlyEnd(levels[..], busy[..], pages);
    }
  }

  lemma {:induction false} HalvedMonotone(a: nat, b: nat, order: nat)
    requires a <= b
    ensures Halved(a, order) <= Halved(b, order)
  {
    if order > 0 { HalvedMonotone(a, b, order - 1); }
  }

  // ----- Scanning a word at a time -----

  /** The bits that nv_buddy_find looks at in word w of the bitmap. */
  lemma WordBits(word: bv32, bits: bv32, begin: nat, end: nat, w: nat)
    requires begin < end && begin / 32 <= w <= (end - 1) / 32
    requires
      var b0 := Not(word);
      var b1 := if w == begin / 32 then KeptFrom(b0, begin % 32) else b0;
      bits == if w == (end - 1) / 32 then KeptUpTo(b1, (end - 1) % 32) else b1
    ensures forall j: nat :: j < 32 ==> (Bit(bits, j) <==> begin <= 32 * w + j < end && !Bit(word, j))
  {
    hide Bit, Not, KeptFrom, KeptUpTo;
    var b0 := Not(word);
    var b1 := if w == begin / 32 then KeptFrom(b0, begin % 32) else b0;
    forall j: nat | j < 32 ensures Bit(bits, j) <==> begin <= 32 * w + j < end && !Bit(word, j) {
      NotBit(word, j);
      KeepFrom(b0, begin % 32, j);
      KeepUpTo(b1, (end - 1) % 32, j);
    }
  }

  lemma ByteBits(word: u8, bits: bv32, low: nat, high: nat, at: nat)
    requires low < high && low / 8 <= at <= (high - 1) / 8
    requires Select(word, Shl(0xff, low % 8)) <= 0xff
    requires
      var b1: u8 := if at == low / 8 then Select(word, Shl(0xff, low % 8)) else word;
      bits == if at == (high - 1) / 8 then Select(b1, Shr(0xff, 7 - (high - 1) % 8)) else b1
    ensures forall j: nat :: j < 32 ==> (Bit(bits, j) <==> low <= 8 * at + j < high && j < 8 && Bit(word, j))
  {
    hide Bit, Select, Shl, Shr;
    var b1: u8 := if at == low / 8 then Select(word, Shl(0xff, low % 8)) else word;
    forall j: nat | j < 32 ensures Bit(bits, j) <==> low <= 8 * at + j < high && j < 8 && Bit(word, j) {
      KeepInByte(word, low % 8, j);
      KeepInByte(b1, (high - 1) % 8, j);
      if j >= 8 { ByteHasNoHighBits(word, j); }
    }
  }

  // ----- Free blocks in a range -----

  /** Block i is free and lies inside [first, limit). */
  predicate FreeIn(busy: seq<bv32>, pages: nat, order: nat, first: nat, limit: nat, i: nat)
    requires pages <= 32 * |busy|
  {
    i < Halved(pages, order) && first <= Start(order, i) && Start(order, i + 1) <= limit && Free(busy, pages, order, i)
  }

  /** r is where the lowest free block starts, or pages if there is none. */
  ghost predicate Found(busy: seq<bv32>, pages: nat, order: nat, first: nat, limit: nat, r: nat)
    requires pages <= 32 * |busy|
  {
    if r < pages then
      exists i: nat :: r == Start(order, i) && FreeIn(busy, pages, order, first, limit, i)
                       && forall k: nat :: k < i ==> !FreeIn(busy, pages, order, first, limit, k)
    else forall k: nat :: !FreeIn(busy, pages, order, first, limit, k)
  }

  ghost predicate FreePages(busy: seq<bv32>, from: nat, to: nat)
    requires to <= 32 * |busy|
  {
    forall p: nat :: from <= p < to ==> !Busy(busy, p)
  }

  /** What nv_buddy_find returns, on pages alone: a free run at a multiple of the block size inside the range,
      below which no other is free; failure exactly when there is none. */
  lemma FoundMeans(busy: seq<bv32>, pages: nat, order: nat, first: nat, limit: nat, r: nat)
    requires limit <= pages <= 32 * |busy| && Found(busy, pages, order, first, limit, r)
    ensures r < pages ==>
              r % Size(order) == 0 && first <= r && r + Size(order) <= limit && FreePages(busy, r, r + Size(order))
    ensures forall q: nat :: q % Size(order) == 0 && first <= q && q + Size(order) <= limit && FreePages(busy, q, q + Size(order)) ==>
              r < pages && r <= q
  {
    hide Free, Busy, Size, Halved, Start;
    if r < pages {
      var i: nat :| r == Start(order, i) && FreeIn(busy, pages, order, first, limit, i)
                    && forall k: nat :: k < i ==> !FreeIn(busy, pages, order, first, limit, k);
      FreeBlockMeans(busy, pages, order, i);
    }
    forall q: nat | q % Size(order) == 0 && first <= q && q + Size(order) <= limit && FreePages(busy, q, q + Size(order))
      ensures r < pages && r <= q
    {
      var k := Halved(q, order);
      HalvedDivides(q, order);
      StartTimes(order, k);
      StartTimes(order, k + 1);
      Distributes(k, Size(order));
      BlockFits(pages, order, k);
      FreeBlockMeans(busy, pages, order, k);
      assert FreeIn(busy, pages, order, first, limit, k);
      if r < pages {
        var i: nat :| r == Start(order, i) && forall k: nat :: k < i ==> !FreeIn(busy, pages, order, first, limit, k);
        if i < k { StartOrder(order, i, k); }
      }
    }
  }

  lemma Distributes(k: nat, s: nat)
    ensures (k + 1) * s == k * s + s
  {
  }

  lemma FreeBlockMeans(busy: seq<bv32>, pages: nat, order: nat, i: nat)
    requires pages <= 32 * |busy| && i < Halved(pages, order)
    ensures Start(order, i) % Size(order) == 0 && Start(order, i) + Size(order) == Start(order, i + 1) <= pages
    ensures Free(busy, pages, order, i) <==> FreePages(busy, Start(order, i), Start(order, i + 1))
  {
    hide Free, Busy, Size, Halved, Start;
    FreeMeansPages(busy, pages, order, i);
    StartTimes(order, i);
    StartTimes(order, i + 1);
    Distributes(i, Size(order));
    Quotient(Start(order, i), Size(order), i);
  }

  /** A single page found. */
  lemma FoundPage(busy: seq<bv32>, pages: nat, first: nat, limit: nat, r: nat)
    requires limit <= pages <= 32 * |busy| && r <= pages && Found(busy, pages, 0, first, limit, r)
    ensures r < pages ==> first <= r < limit && !Busy(busy, r) && FreePages(busy, r, r + 1)
    ensures forall p: nat :: first <= p < limit && !Busy(busy, p) ==> r < pages && r <= p
  {
    hide Found, Busy;
    FoundMeans(busy, pages, 0, first, limit, r);
    forall p: nat | first <= p < limit && !Busy(busy, p) ensures r < pages && r <= p {
      assert p % Size(0) == 0 && FreePages(busy, p, p + Size(0));
    }
  }

  /** The first block that begins at first or later. */
  function Ceil(first: nat, order: nat): (c: nat)
    ensures Halved(first, order) <= c
  {
    Halved(first, order) + if first == Start(order, Halved(first, order)) then 0 else 1
  }

  lemma Divides(order: nat, first: nat, limit: nat)
    ensures first / Size(order) + (if first % Size(order) != 0 then 1 else 0) == Ceil(first, order)
    ensures limit / Size(order) == Halved(limit, order)
  {
    hide Halved, Start, Size;
    HalvedDivides(first, order);
    HalvedDivides(limit, order);
  }

  lemma InRange(order: nat, first: nat, limit: nat, i: nat)
    ensures first <= Start(order, i) <==> Ceil(first, order) <= i
    ensures Start(order, i + 1) <= limit <==> i < Halved(limit, order)
  {
    hide Halved, Start;
    var h := Halved(first, order);
    HalvedStart(limit, order, i + 1);
    HalvedStart(first, order, h);
    HalvedStart(first, order, h + 1);
    if i < h { StartOrder(order, i, h); }
    if h < i { StartOrder(order, h, i); }
    if h + 1 < i { StartOrder(order, h + 1, i); }
  }

  lemma NothingIn(busy: seq<bv32>, pages: nat, order: nat, first: nat, limit: nat)
    requires limit <= pages <= 32 * |busy| && Halved(limit, order) <= Halved(pages, order)
    requires forall k: nat :: Ceil(first, order) <= k < Halved(limit, order) ==> !Free(busy, pages, order, k)
    ensures Found(busy, pages, order, first, limit, pages)
  {
    hide Free, Halved, Start, Ceil;
    forall k: nat ensures !FreeIn(busy, pages, order, first, limit, k) { InRange(order, first, limit, k); }
  }

  lemma LowestIn(busy: seq<bv32>, pages: nat, order: nat, first: nat, limit: nat, i: nat)
    requires limit <= pages <= 32 * |busy| && Halved(limit, order) <= Halved(pages, order)
    requires Ceil(first, order) <= i < Halved(limit, order) && Free(busy, pages, order, i)
    requires forall k: nat :: Ceil(first, order) <= k < i ==> !Free(busy, pages, order, k)
    ensures Start(order, i) < pages && Found(busy, pages, order, first, limit, Start(order, i))
  {
    hide Free, Halved, Start, Ceil;
    InRange(order, first, limit, i);
    StartOrder(order, i, i + 1);
    forall k: nat | k < i ensures !FreeIn(busy, pages, order, first, limit, k) { InRange(order, first, limit, k); }
  }

  lemma PageBlocks(busy: seq<bv32>, pages: nat)
    requires pages <= 32 * |busy|
    ensures forall n: nat :: Halved(n, 0) == n && Start(0, n) == n
    ensures forall i: nat :: i < pages ==> Free(busy, pages, 0, i) == !Busy(busy, i)
  {
    hide Busy;
  }

  lemma LevelBit(levels: seq<u8>, busy: seq<bv32>, pages: nat, order: nat, k: nat)
    requires Agrees(levels, busy, pages, 18) && 1 <= order <= 18 && k < Halved(pages, order)
    ensures Offset(pages, order) + k < 8 * |levels|
    ensures BitAt(levels, Offset(pages, order) + k) == Free(busy, pages, order, k)
  {
    hide BitAt, Free, Halved, Offset;
    assert Right(levels, busy, pages, order, k);
  }

  lemma LevelBits(levels: seq<u8>, busy: seq<bv32>, pages: nat, order: nat, begin: nat, i: nat)
    requires pages <= 32 * |busy| && Agrees(levels, busy, pages, 18) && 1 <= order <= 18 && i <= Halved(pages, order)
    requires Offset(pages, order) + i <= 8 * |levels|
    requires forall n: nat :: Offset(pages, order) + begin <= n < Offset(pages, order) + i ==> !BitAt(levels, n)
    ensures forall k: nat :: begin <= k < i ==> !Free(busy, pages, order, k)
  {
    hide BitAt, Free, Halved, Offset, Agrees;
    forall k: nat | begin <= k < i ensures !Free(busy, pages, order, k) {
      LevelBit(levels, busy, pages, order, k);
    }
  }

  // ----- Building the index -----

  lemma OffsetNext(pages: nat, order: nat)
    requires order >= 1
    ensures Offset(pages, order + 1) == Offset(pages, order) + Halved(pages, order)
    ensures Offset(pages, 1) == 0
  {
  }

  lemma RoomFor(levels: seq<u8>, levels': seq<u8>, pages: nat)
    requires |levels| == |levels'| && Room(levels, pages, 18)
    ensures Room(levels', pages, 18)
  {
    hide Offset;
  }

  /** Bits before block i of an order are right, all later ones are zero. */
  ghost predicate Partly(levels: seq<u8>, busy: seq<bv32>, pages: nat, order: nat, i: nat) {
    && pages <= 32 * |busy|
    && (forall o: nat, k: nat :: 1 <= o <= 18 && k < Halved(pages, o) && (o < order || (o == order && k < i)) ==>
          Right(levels, busy, pages, o, k))
    && (forall n: nat :: Offset(pages, order) + i <= n < 8 * |levels| ==> !BitAt(levels, n))
  }

  lemma PartlyStart(levels: seq<u8>, busy: seq<bv32>, pages: nat)
    requires pages <= 32 * |busy| && forall k :: 0 <= k < |levels| ==> levels[k] == 0
    ensures Partly(levels, busy, pages, 1, 0)
  {
    hide Right, Bit, Halved;
    forall n: nat | n < 8 * |levels| ensures !BitAt(levels, n) { ZeroHasNoBits(n % 8); }
  }

  lemma PartlyNext(levels: seq<u8>, busy: seq<bv32>, pages: nat, order: nat)
    requires order >= 1 && Partly(levels, busy, pages, order, Halved(pages, order))
    ensures Partly(levels, busy, pages, order + 1, 0)
  {
    hide Right, BitAt, Halved, Offset;
    OffsetNext(pages, order);
  }

  lemma PartlyEnd(levels: seq<u8>, busy: seq<bv32>, pages: nat)
    requires Partly(levels, busy, pages, 19, 0)
    ensures Agrees(levels, busy, pages, 18)
  {
    hide Right, BitAt, Halved, Offset;
  }

  /** Processing block i: its bit is set if the block is free, and else stays zero. */
  lemma PartlyWrite(levels: seq<u8>, busy: seq<bv32>, pages: nat, order: nat, i: nat)
    requires Partly(levels, busy, pages, order, i) && 1 <= order <= 18 && i < Halved(pages, order)
    requires Room(levels, pages, 18)
    ensures Offset(pages, order) + i < 8 * |levels|
    ensures Free(busy, pages, order, i) ==>
              Partly(WithBit(levels, Offset(pages, order) + i, true), busy, pages, order, i + 1)
    ensures !Free(busy, pages, order, i) ==> Partly(levels, busy, pages, order, i + 1)
  {
    hide Free, BitAt, WithBit, Halved, Offset, Room;
    BitFits(levels, pages, 18, order, i);
    var n := Offset(pages, order) + i;
    var levels' := if Free(busy, pages, order, i) then WithBit(levels, n, true) else levels;
    forall m: nat | m < 8 * |levels|
      ensures BitAt(levels', m) == if m == n then Free(busy, pages, order, i) else BitAt(levels, m)
    {
      if Free(busy, pages, order, i) { WithBitAt(levels, n, true, m); }
    }
    forall o: nat, k: nat | 1 <= o <= 18 && k < Halved(pages, o) && (o < order || (o == order && k < i + 1))
      ensures Right(levels', busy, pages, o, k)
    {
      BitFits(levels, pages, 18, o, k);
      if o < order { OffsetsApart(pages, o, order); }
      if o != order || k != i { assert Right(levels, busy, pages, o, k); }
    }
  }

  lemma PartlyRight(levels: seq<u8>, busy: seq<bv32>, pages: nat, order: nat, i: nat)
    requires Partly(levels, busy, pages, order, i) && 2 <= order <= 18 && i < Halved(pages, order)
    requires 2 * i + 1 < Halved(pages, order - 1)
    ensures Right(levels, busy, pages, order - 1, 2 * i) && Right(levels, busy, pages, order - 1, 2 * i + 1)
  {
    hide Right, BitAt, Halved, Offset;
  }
}
