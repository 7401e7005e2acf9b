/** The levels of the free-block index of common/page_buddy.c: which aligned blocks are free, and where
    their bits lie. */
module BuddyIndex {
  import opened Bits

  /** n >> order */
  function Halved(n: nat, order: nat): nat {
    if order == 0 then n else Halved(n, order - 1) / 2
  }

  /** The first page of block i of an order. */
  function Start(order: nat, i: nat): nat {
    if order == 0 then i else Start(order - 1, 2 * i)
  }

  /** The pages of a block of an order. */
  function Size(order: nat): (s: nat)
    ensures s > 0
  {
    if order == 0 then 1 else 2 * Size(order - 1)
  }

  /** A busy bitmap: page i is busy. */
  predicate Busy(busy: seq<bv32>, i: nat)
    requires i < 32 * |busy|
  {
    Bit(busy[i / 32], i % 32)
  }

  /** Both halves of a block are free, down to the pages. */
  predicate Free(busy: seq<bv32>, pages: nat, order: nat, i: nat)
    requires pages <= 32 * |busy|
    requires i < Halved(pages, order)
  {
    if order == 0 then !Busy(busy, i)
    else Free(busy, pages, order - 1, 2 * i) && Free(busy, pages, order - 1, 2 * i + 1)
  }

  /** Shifting right and shifting left are adjoint. */
  lemma {:induction false} HalvedStart(p: nat, order: nat, i: nat)
    ensures i <= Halved(p, order) <==> Start(order, i) <= p
  {
    if order > 0 { HalvedStart(p, order - 1, 2 * i); }
  }

  lemma {:induction false} StartOrder(order: nat, i: nat, j: nat)
    requires i < j
    ensures Start(order, i) < Start(order, j)
  {
    if order > 0 { StartOrder(order - 1, 2 * i, 2 * j); }
  }

  lemma {:induction false} StartTimes(order: nat, i: nat)
    ensures Start(order, i) == i * Size(order)
  {
    if order > 0 {
      StartTimes(order - 1, 2 * i);
      assert (2 * i) * Size(order - 1) == i * (2 * Size(order - 1));
    }
  }

  /** n >> order is n / (1 << order). */
  lemma HalvedDivides(n: nat, order: nat)
    ensures Halved(n, order) == n / Size(order)
    ensures n % Size(order) == n - Start(order, Halved(n, order))
  {
    var q := Halved(n, order);
    HalvedStart(n, order, q);
    HalvedStart(n, order, q + 1);
    StartTimes(order, q);
    StartTimes(order, q + 1);
    Quotient(n, Size(order), q);
  }

  lemma Times(a: nat, b: nat, s: nat)
    requires a <= b
    ensures a * s <= b * s
  {
  }

  lemma Quotient(n: nat, s: nat, q: nat)
    requires s > 0 && q * s <= n < (q + 1) * s
    ensures n / s == q && n % s == n - q * s
  {
    assert n == n / s * s + n % s;
    if n / s < q { Times(n / s + 1, q, s); }
  }

  lemma BlockFits(pages: nat, order: nat, i: nat)
    ensures i < Halved(pages, order) <==> Start(order, i + 1) <= pages
  {
    HalvedStart(pages, order, i + 1);
  }

  /** A free block is one whose pages are all free. */
  lemma {:induction false} FreeMeansPages(busy: seq<bv32>, pages: nat, order: nat, i: nat)
    requires pages <= 32 * |busy| && i < Halved(pages, order)
    ensures Start(order, i + 1) <= pages
    ensures Free(busy, pages, order, i) <==>
              forall p: nat :: Start(order, i) <= p < Start(order, i + 1) && p < pages ==> !Busy(busy, p)
    decreases order
  {
    hide Busy;
    BlockFits(pages, order, i);
    if order > 0 {
      FreeMeansPages(busy, pages, order - 1, 2 * i);
      FreeMeansPages(busy, pages, order - 1, 2 * i + 1);
      StartOrder(order - 1, 2 * i, 2 * i + 1);
      StartOrder(order - 1, 2 * i + 1, 2 * i + 2);
    }
  }

  /** Changing pages from first to last changes only the blocks that hold them. */
  lemma {:induction false} FreeElsewhere(was: seq<bv32>, busy: seq<bv32>, pages: nat, first: nat, last: nat,
      order: nat, i: nat)
    requires |was| == |busy| && pages <= 32 * |busy| && i < Halved(pages, order)
    requires forall p: nat :: p < pages && !(first <= p <= last) ==> Busy(was, p) == Busy(busy, p)
    requires i < Halved(first, order) || Halved(last, order) < i
    ensures Free(was, pages, order, i) == Free(busy, pages, order, i)
    decreases order
  {
    hide Busy;
    if order > 0 {
      FreeElsewhere(was, busy, pages, first, last, order - 1, 2 * i);
      FreeElsewhere(was, busy, pages, first, last, order - 1, 2 * i + 1);
    }
  }

  // ----- The bits of the levels -----

  /** offset[order]: where the bits of an order begin. */
  function Offset(pages: nat, order: nat): nat {
    if order <= 1 then 0 else Offset(pages, order - 1) + Halved(pages, order - 1)
  }

  lemma {:induction false} OffsetsApart(pages: nat, order: nat, higher: nat)
    requires 1 <= order < higher
    ensures Offset(pages, order) + Halved(pages, order) <= Offset(pages, higher)
    decreases higher
  {
    if order < higher - 1 { OffsetsApart(pages, order, higher - 1); }
  }

  predicate BitAt(levels: seq<u8>, n: nat)
    requires n < 8 * |levels|
  {
    Bit(levels[n / 8], n % 8)
  }

  /** The levels have a bit for every block of orders 1 to max. */
  predicate Room(levels: seq<u8>, pages: nat, max: nat) {
    Offset(pages, max + 1) <= 8 * |levels|
  }

  lemma BitFits(levels: seq<u8>, pages: nat, max: nat, order: nat, i: nat)
    requires Room(levels, pages, max) && 1 <= order <= max && i < Halved(pages, order)
    ensures Offset(pages, order) + i < 8 * |levels|
  {
    hide Offset, Halved;
    OffsetsApart(pages, order, max + 1);
  }

  /** The bit of a block says whether it is free. */
  predicate Right(levels: seq<u8>, busy: seq<bv32>, pages: nat, order: nat, i: nat)
    requires pages <= 32 * |busy| && i < Halved(pages, order)
  {
    var n := Offset(pages, order) + i;
    n < 8 * |levels| && BitAt(levels, n) == Free(busy, pages, order, i)
  }

  /** All bits of orders 1 up to order are right. */
  ghost predicate Agrees(levels: seq<u8>, busy: seq<bv32>, pages: nat, order: nat) {
    pages <= 32 * |busy| &&
    forall o: nat, i: nat :: 1 <= o <= order && i < Halved(pages, o) ==> Right(levels, busy, pages, o, i)
  }

  /** Writing one bit. */
  function WithBit(levels: seq<u8>, n: nat, free: bool): (r: seq<u8>)
    requires n < 8 * |levels|
    ensures |r| == |levels|
  {
    SetByte(levels[n / 8], n % 8);
    levels[n / 8 := if free then Set(levels[n / 8], n % 8) else Clear(levels[n / 8], n % 8)]
  }

  lemma WithBitAt(levels: seq<u8>, n: nat, free: bool, m: nat)
    requires n < 8 * |levels| && m < 8 * |levels|
    ensures BitAt(WithBit(levels, n, free), m) == if m == n then free else BitAt(levels, m)
  {
    hide Bit, Set, Clear;
    SetByte(levels[n / 8], n % 8);
    SetBit(levels[n / 8], n % 8, m % 8);
  }

  /** Writing the bit of a block leaves those of all other blocks. */
  lemma WithBitElsewhere(levels: seq<u8>, pages: nat, order: nat, i: nat, free: bool, order': nat, i': nat)
    requires 1 <= order && 1 <= order' && i < Halved(pages, order) && i' < Halved(pages, order')
    requires Offset(pages, order) + i < 8 * |levels| && Offset(pages, order') + i' < 8 * |levels|
    requires order != order' || i != i'
    ensures BitAt(WithBit(levels, Offset(pages, order) + i, free), Offset(pages, order') + i') ==
            BitAt(levels, Offset(pages, order') + i')
  {
    hide BitAt, WithBit, Offset, Halved;
    WithBitAt(levels, Offset(pages, order) + i, free, Offset(pages, order') + i');
    if order < order' { OffsetsApart(pages, order, order'); }
    if order' < order { OffsetsApart(pages, order', order); }
  }
}
