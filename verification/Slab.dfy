/** common/slab.c: small objects of equal size in single pages, one list of pages for each size. */
module Slab {
  import opened Wrappers
  import opened Bits
  import opened BuddyIndex
  import opened PhysicalAllocator

  /** SLAB_MAGIC, and the eight object sizes. */
  const SLAB_MAGIC: nat := 0x4e56_534c

  function Unit(kind: nat): (u: nat)
    requires kind < 8
    ensures 16 <= u <= 2048 && u % 16 == 0
  {
    [16, 32, 64, 128, 256, 512, 1024, 2048][kind]
  }

  /** The objects of a page, behind its 64-byte header: 4032 / unit. */
  function Slots(kind: nat): (n: nat)
    requires kind < 8
    ensures 1 <= n <= 252 && 64 + n * Unit(kind) <= 4096
  {
    [252, 126, 63, 31, 15, 7, 3, 1][kind]
  }

  /** struct nv_slab_page; -1 is NULL. */
  datatype SlabPage = SlabPage(magic: nat, kind: nat, live: nat, slots: nat, next: int, prev: int, occupied: seq<bv32>)

  type Pages = map<int, SlabPage>

  /** Object slot of page p is in use. */
  predicate InUse(pages: Pages, p: int, slot: nat) {
    && p in pages && pages[p].magic == SLAB_MAGIC && slot < pages[p].slots && slot < 32 * |pages[p].occupied|
    && Busy(pages[p].occupied, slot)
  }

  predicate PageOk(page: SlabPage) {
    && page.kind < 8 && page.slots == Slots(page.kind) && |page.occupied| == 8
    && page.live == |SetPages(page.occupied, page.slots)| && page.live > 0
  }

  function ListAt(list: seq<int>, j: int): int {
    if 0 <= j < |list| then list[j] else -1
  }

  /** Page j of a list. */
  predicate Listed(pages: Pages, list: seq<int>, kind: nat, j: nat)
    requires j < |list|
  {
    && list[j] in pages && list[j] >= 0 && list[j] % 4096 == 0
    && var page := pages[list[j]];
       page.magic == SLAB_MAGIC && page.kind == kind && PageOk(page)
       && page.next == ListAt(list, j + 1) && page.prev == ListAt(list, j - 1)
  }

  /** A doubly linked list of different pages. */
  ghost predicate List(pages: Pages, list: seq<int>, kind: nat) {
    && (forall j: nat :: j < |list| ==> Listed(pages, list, kind, j))
    && (forall i, j :: 0 <= i < j < |list| ==> list[i] != list[j])
  }

  ghost predicate Pool(pages: Pages, heads: seq<int>, lists: seq<seq<int>>) {
    && |heads| == 8 && |lists| == 8
    && (forall k: nat :: k < 8 ==> List(pages, lists[k], k) && heads[k] == ListAt(lists[k], 0))
    && (forall p :: p in pages && pages[p].magic == SLAB_MAGIC ==> pages[p].kind < 8 && p in lists[pages[p].kind])
  }

  /** The slab pages, with their kinds. */
  function Kinds(pages: Pages): map<int, nat> {
    map p | p in pages && pages[p].magic == SLAB_MAGIC :: pages[p].kind
  }

  /** The frames of the slab pages. */
  function Frames(pages: Pages): (f: set<nat>)
    ensures forall p :: p in pages && pages[p].magic == SLAB_MAGIC && p >= 0 ==> p / 4096 in f
  {
    set p | p in pages && pages[p].magic == SLAB_MAGIC && p >= 0 :: p / 4096
  }

  /** The smallest size class for a size. */
  function Class(size: nat): (k: nat)
    requires 1 <= size <= 2048
    ensures k < 8 && size <= Unit(k) && (k > 0 ==> Unit(k) < 2 * size)
  {
    if size <= 16 then 0 else if size <= 32 then 1 else if size <= 64 then 2 else if size <= 128 then 3
    else if size <= 256 then 4 else if size <= 512 then 5 else if size <= 1024 then 6 else 7
  }

  /** No page of a class has a free slot. */
  ghost predicate ClassFull(pages: Pages, kind: nat)
    requires kind < 8
  {
    forall p: int, s: nat :: p in pages && pages[p].magic == SLAB_MAGIC && pages[p].kind == kind && s < Slots(kind) ==>
      InUse(pages, p, s)
  }

  // ----- Objects -----

  /** Where an object lies. */
  function Address(p: int, kind: nat, slot: nat): int
    requires kind < 8
  {
    p + 64 + slot * Unit(kind)
  }

  lemma SlotFits(kind: nat, slot: nat)
    requires kind < 8 && slot < Slots(kind)
    ensures 64 <= 64 + slot * Unit(kind) && 64 + slot * Unit(kind) + Unit(kind) <= 4096
  {
    Times(slot + 1, Slots(kind), Unit(kind));
    assert (slot + 1) * Unit(kind) == slot * Unit(kind) + Unit(kind);
  }

  lemma SlotsApart(kind: nat, s: nat, t: nat)
    requires kind < 8 && s < t
    ensures s * Unit(kind) + Unit(kind) <= t * Unit(kind)
  {
    Times(s + 1, t, Unit(kind));
    assert (s + 1) * Unit(kind) == s * Unit(kind) + Unit(kind);
  }

  /** Objects in use do not overlap each other or the page headers. */
  lemma ObjectsApart(pages: Pages, heads: seq<int>, lists: seq<seq<int>>, p: int, s: nat, q: int, t: nat)
    requires Pool(pages, heads, lists) && InUse(pages, p, s) && InUse(pages, q, t) && (p != q || s != t)
    ensures pages[p].kind < 8 && pages[q].kind < 8
    ensures
      var a, b := Address(p, pages[p].kind, s), Address(q, pages[q].kind, t);
      && (a + Unit(pages[p].kind) <= b || b + Unit(pages[q].kind) <= a)
      && p + 64 <= a && a + Unit(pages[p].kind) <= p + 4096
  {
    hide Unit, Slots, Busy, SetPages;
    var i := PoolPage(pages, heads, lists, p);
    var j := PoolPage(pages, heads, lists, q);
    SlotFits(pages[p].kind, s);
    SlotFits(pages[q].kind, t);
    if p == q {
      if s < t { SlotsApart(pages[p].kind, s, t); } else { SlotsApart(pages[p].kind, t, s); }
    }
  }

  lemma PoolPage(pages: Pages, heads: seq<int>, lists: seq<seq<int>>, p: int) returns (j: nat)
    requires Pool(pages, heads, lists) && p in pages && pages[p].magic == SLAB_MAGIC
    ensures pages[p].kind < 8 && PageOk(pages[p]) && p >= 0 && p % 4096 == 0
    ensures j < |lists[pages[p].kind]| && lists[pages[p].kind][j] == p
    ensures Listed(pages, lists[pages[p].kind], pages[p].kind, j)
  {
    hide PageOk;
    var k := pages[p].kind;
    j :| j < |lists[k]| && lists[k][j] == p;
    assert List(pages, lists[k], k);
    assert Listed(pages, lists[k], k, j);
  }

  /** When no object is in use there is no slab page left. */
  lemma EmptyPool(pages: Pages, heads: seq<int>, lists: seq<seq<int>>)
    requires Pool(pages, heads, lists) && forall p: int, s: nat :: !InUse(pages, p, s)
    ensures forall p :: p in pages ==> pages[p].magic != SLAB_MAGIC
    ensures forall k :: 0 <= k < 8 ==> heads[k] == -1
  {
    hide Busy;
    forall p | p in pages ensures pages[p].magic != SLAB_MAGIC {
      if pages[p].magic == SLAB_MAGIC {
        var j := PoolPage(pages, heads, lists, p);
        SomeSlot(pages[p]);
        var s: nat :| s in SetPages(pages[p].occupied, pages[p].slots);
        var used := InUse(pages, p, s);
      }
    }
    forall k: nat | k < 8 ensures heads[k] == -1 {
      assert List(pages, lists[k], k);
      assert |lists[k]| > 0 ==> Listed(pages, lists[k], k, 0);
    }
  }

  lemma SomeSlot(page: SlabPage)
    requires PageOk(page)
    ensures exists s: nat :: s in SetPages(page.occupied, page.slots)
  {
    hide Busy, SetPages;
    assert |SetPages(page.occupied, page.slots)| > 0;
    var s :| s in SetPages(page.occupied, page.slots);
  }

  // ----- Taking and giving back a slot -----

  function WithSlot(page: SlabPage, slot: nat, on: bool): SlabPage
    requires slot < 32 * |page.occupied| && (on || page.live > 0)
  {
    page.(occupied := WithPage(page.occupied, slot, on), live := if on then page.live + 1 else page.live - 1)
  }

  lemma SlotCount(page: SlabPage, slot: nat, on: bool)
    requires page.kind < 8 && page.slots == Slots(page.kind) && |page.occupied| == 8
    requires page.live == |SetPages(page.occupied, page.slots)|
    requires slot < page.slots && Busy(page.occupied, slot) == !on
    ensures on || page.live > 0
    ensures
      var page' := WithSlot(page, slot, on);
      && page'.live == |SetPages(page'.occupied, page.slots)|
      && forall t: nat :: t < page.slots ==> Busy(page'.occupied, t) == if t == slot then on else Busy(page.occupied, t)
  {
    hide Busy, WithPage, Slots;
    forall t: nat | t < page.slots { WithPageBusy(page.occupied, slot, on, t); }
    var before, after := SetPages(page.occupied, page.slots), SetPages(WithPage(page.occupied, slot, on), page.slots);
    if on { assert after == before + {slot}; } else { assert after == before - {slot} && slot in before; }
  }

  /** A page with a free slot. */
  lemma HasFreeSlot(page: SlabPage)
    requires PageOk(page) && page.live < page.slots
    ensures exists slot: nat :: slot < page.slots && !Busy(page.occupied, slot)
  {
    hide Busy;
    var used := SetPages(page.occupied, page.slots);
    assert used <= Range(0, page.slots) && used != Range(0, page.slots);
    var slot: nat :| slot in Range(0, page.slots) && slot !in used;
  }

  /** A page without a free slot. */
  lemma FullPage(page: SlabPage, s: nat)
    requires PageOk(page) && page.live >= page.slots && s < page.slots
    ensures Busy(page.occupied, s)
  {
    hide Busy;
    var used := SetPages(page.occupied, page.slots);
    if s !in used { SubsetSize(used, Range(0, page.slots) - {s}); }
  }

  /** Links do not change when the slots of one page do. */
  lemma SlotKeeps(pages: Pages, heads: seq<int>, lists: seq<seq<int>>, p: int, page': SlabPage)
    requires Pool(pages, heads, lists) && p in pages && pages[p].magic == SLAB_MAGIC && PageOk(page')
    requires page' == pages[p].(occupied := page'.occupied, live := page'.live)
    ensures Pool(pages[p := page'], heads, lists)
  {
    hide PageOk;
    var pages' := pages[p := page'];
    forall k: nat | k < 8 ensures List(pages', lists[k], k) && heads[k] == ListAt(lists[k], 0) {
      assert List(pages, lists[k], k);
      forall j: nat | j < |lists[k]| ensures Listed(pages', lists[k], k, j) { assert Listed(pages, lists[k], k, j); }
    }
  }

  // ----- Adding and removing a page -----

  /** A page becomes the head of its list. */
  function Pushed(pages: Pages, p: int, page: SlabPage, head: int): Pages {
    var m := pages[p := page.(next := head)];
    if head in m then m[head := m[head].(prev := p)] else m
  }

  lemma PushKeeps(pages: Pages, heads: seq<int>, lists: seq<seq<int>>, p: int, page: SlabPage)
    requires Pool(pages, heads, lists) && PageOk(page) && page.magic == SLAB_MAGIC && page.prev == -1 && -1 !in pages
    requires p >= 0 && p % 4096 == 0 && (p in pages ==> pages[p].magic != SLAB_MAGIC)
    ensures Pool(Pushed(pages, p, page, heads[page.kind]), heads[page.kind := p], lists[page.kind := [p] + lists[page.kind]])
  {
    hide PageOk, Pool, List, Listed, Slots;
    var k0 := page.kind;
    PageKind(page);
    PoolShape(pages, heads, lists);
    var pages' := Pushed(pages, p, page, heads[k0]);
    var lists' := lists[k0 := [p] + lists[k0]];
    PushChanges(pages, heads, lists, p, page);
    forall k: nat | k < 8 ensures List(pages', lists'[k], k) && heads[k0 := p][k] == ListAt(lists'[k], 0) {
      PoolList(pages, heads, lists, k);
      if k == k0 { PushList(pages, heads, lists, p, page); }
      else { SameList(pages, pages', lists[k], k); }
    }
    MakesPool(pages', heads[k0 := p], lists');
  }

  lemma PageKind(page: SlabPage)
    requires PageOk(page)
    ensures page.kind < 8
  {
  }

  lemma PoolShape(pages: Pages, heads: seq<int>, lists: seq<seq<int>>)
    requires Pool(pages, heads, lists)
    ensures |heads| == 8 && |lists| == 8
    ensures forall p :: p in pages && pages[p].magic == SLAB_MAGIC ==> pages[p].kind < 8 && p in lists[pages[p].kind]
  {
    hide List;
  }

  lemma PoolList(pages: Pages, heads: seq<int>, lists: seq<seq<int>>, k: nat)
    requires Pool(pages, heads, lists) && k < 8
    ensures |heads| == 8 && |lists| == 8 && List(pages, lists[k], k) && heads[k] == ListAt(lists[k], 0)
  {
    hide List;
  }

  lemma MakesPool(pages: Pages, heads: seq<int>, lists: seq<seq<int>>)
    requires |heads| == 8 && |lists| == 8
    requires forall k: nat :: k < 8 ==> List(pages, lists[k], k)
    requires forall k: nat :: k < 8 ==> heads[k] == ListAt(lists[k], 0)
    requires forall p :: p in pages && pages[p].magic == SLAB_MAGIC ==> pages[p].kind < 8 && p in lists[pages[p].kind]
    ensures Pool(pages, heads, lists)
  {
    hide List;
  }

  /** Page j of a list, and where its links lead. */
  lemma InList(pages: Pages, list: seq<int>, kind: nat, j: nat)
    requires List(pages, list, kind) && j < |list|
    ensures list[j] in pages && pages[list[j]].magic == SLAB_MAGIC && pages[list[j]].kind == kind
    ensures PageOk(pages[list[j]])
    ensures pages[list[j]].next == ListAt(list, j + 1) && pages[list[j]].prev == ListAt(list, j - 1)
    ensures list[j] >= 0 && list[j] % 4096 == 0
    ensures forall i :: 0 <= i < |list| && i != j ==> list[i] != list[j]
  {
    hide PageOk;
    assert Listed(pages, list, kind, j);
  }

  lemma SameList(pages: Pages, pages': Pages, list: seq<int>, kind: nat)
    requires List(pages, list, kind)
    requires forall q :: q in pages && pages[q].magic == SLAB_MAGIC && pages[q].kind == kind ==>
               q in pages' && pages'[q] == pages[q]
    ensures List(pages', list, kind)
  {
    hide PageOk;
    forall j: nat | j < |list| ensures Listed(pages', list, kind, j) { assert Listed(pages, list, kind, j); }
  }

  lemma PushChanges(pages: Pages, heads: seq<int>, lists: seq<seq<int>>, p: int, page: SlabPage)
    requires Pool(pages, heads, lists) && PageOk(page) && page.magic == SLAB_MAGIC && page.kind < 8 && -1 !in pages
    requires |heads| == 8 && |lists| == 8 && p >= 0 && (p in pages ==> pages[p].magic != SLAB_MAGIC)
    ensures
      var pages' := Pushed(pages, p, page, heads[page.kind]);
      && p in pages' && pages'[p] == page.(next := heads[page.kind]) && -1 !in pages'
      && (forall q :: q in pages && q != p ==> q in pages' && pages'[q] == if q == heads[page.kind] then pages[q].(prev := p) else pages[q])
      && (forall q :: q in pages' ==> q == p || q in pages)
    ensures heads[page.kind] != -1 ==>
              heads[page.kind] in pages && pages[heads[page.kind]].kind == page.kind && heads[page.kind] != p
  {
    hide PageOk, Pool, List;
    PoolList(pages, heads, lists, page.kind);
    var list := lists[page.kind];
    if |list| > 0 { InList(pages, list, page.kind, 0); }
  }

  lemma PushList(pages: Pages, heads: seq<int>, lists: seq<seq<int>>, p: int, page: SlabPage)
    requires Pool(pages, heads, lists) && PageOk(page) && page.magic == SLAB_MAGIC && page.prev == -1 && page.kind < 8
    requires -1 !in pages
    requires |heads| == 8 && |lists| == 8 && p >= 0 && p % 4096 == 0 && (p in pages ==> pages[p].magic != SLAB_MAGIC)
    ensures List(Pushed(pages, p, page, heads[page.kind]), [p] + lists[page.kind], page.kind)
  {
    hide PageOk, Pool, Pushed, List;
    var k := page.kind;
    var list, pages' := lists[k], Pushed(pages, p, page, heads[k]);
    var list' := [p] + list;
    PoolList(pages, heads, lists, k);
    PushChanges(pages, heads, lists, p, page);
    assert PageOk(page.(next := heads[k])) by { OkIgnoresLinks(page, page.(next := heads[k])); }
    forall j: nat | j < |list| ensures list[j] != p && list[j] in pages && (j > 0 ==> list[j] != heads[k]) {
      InList(pages, list, k, j);
      if j > 0 { InList(pages, list, k, 0); }
    }
    forall j: nat | j < |list'| ensures Listed(pages', list', k, j) {
      if j > 0 {
        InList(pages, list, k, j - 1);
        OkIgnoresLinks(pages[list[j - 1]], pages'[list[j - 1]]);
      }
    }
    forall i, j | 0 <= i < j < |list'| ensures list'[i] != list'[j] {
      if i > 0 { InList(pages, list, k, i - 1); }
    }
    MakesList(pages', list', k);
  }

  lemma MakesList(pages: Pages, list: seq<int>, kind: nat)
    requires forall j: nat :: j < |list| ==> Listed(pages, list, kind, j)
    requires forall i, j :: 0 <= i < j < |list| ==> list[i] != list[j]
    ensures List(pages, list, kind)
  {
    hide Listed;
  }

  lemma OkIgnoresLinks(page: SlabPage, page': SlabPage)
    requires PageOk(page) && page' == page.(next := page'.next, prev := page'.prev)
    ensures PageOk(page')
  {
  }

  /** A page is taken out of its list and loses its magic number. */
  function Unlinked(pages: Pages, p: int): Pages
    requires p in pages
  {
    var prev, next := pages[p].prev, pages[p].next;
    var m1 := if prev in pages then pages[prev := pages[prev].(next := next)] else pages;
    var m2 := if next in m1 then m1[next := m1[next].(prev := prev)] else m1;
    m2[p := m2[p].(magic := 0)]
  }

  lemma UnlinkKeeps(pages: Pages, heads: seq<int>, lists: seq<seq<int>>, k: nat, j: nat)
    requires Pool(pages, heads, lists) && -1 !in pages && |lists| == 8 && |heads| == 8 && k < 8 && j < |lists[k]|
    ensures lists[k][j] in pages
    ensures
      var p := lists[k][j];
      Pool(Unlinked(pages, p), if j == 0 then heads[k := pages[p].next] else heads, lists[k := lists[k][..j] + lists[k][j + 1..]])
      && -1 !in Unlinked(pages, p) && (j == 0 <==> pages[p].prev == -1) && (j > 0 ==> pages[p].prev in pages)
      && (j == 0 ==> heads[k] == p)
  {
    hide PageOk, Pool, List, Listed, Unlinked;
    PoolShape(pages, heads, lists);
    PoolList(pages, heads, lists, k);
    var list := lists[k];
    InList(pages, list, k, j);
    var p := list[j];
    var pages' := Unlinked(pages, p);
    var lists' := lists[k := list[..j] + list[j + 1..]];
    var heads' := if j == 0 then heads[k := pages[p].next] else heads;
    UnlinkChanges(pages, list, k, j);
    if j > 0 { InList(pages, list, k, j - 1); }
    forall i: nat | i < 8 ensures List(pages', lists'[i], i) && heads'[i] == ListAt(lists'[i], 0) {
      PoolList(pages, heads, lists, i);
      if i == k { UnlinkList(pages, list, k, j); } else { SameList(pages, pages', lists[i], i); }
    }
    MakesPool(pages', heads', lists');
  }

  lemma UnlinkChanges(pages: Pages, list: seq<int>, k: nat, j: nat)
    requires List(pages, list, k) && j < |list| && -1 !in pages
    ensures list[j] in pages
    ensures
      var pages' := Unlinked(pages, list[j]);
      && pages'.Keys == pages.Keys && pages'[list[j]].magic == 0
      && (forall q :: q in pages && q != list[j] ==>
            pages'[q] == pages[q].(next := if j > 0 && q == list[j - 1] then ListAt(list, j + 1) else pages[q].next,
                                   prev := if j + 1 < |list| && q == list[j + 1] then ListAt(list, j - 1) else pages[q].prev))
      && (forall q :: q in pages && pages[q].magic == SLAB_MAGIC && pages[q].kind != k ==> pages'[q] == pages[q])
  {
    hide PageOk, List;
    InList(pages, list, k, j);
    if j > 0 { InList(pages, list, k, j - 1); }
    if j + 1 < |list| { InList(pages, list, k, j + 1); }
    if 0 < j && j + 1 < |list| { InList(pages, list, k, j + 1); }
  }

  lemma UnlinkList(pages: Pages, list: seq<int>, k: nat, j: nat)
    requires List(pages, list, k) && j < |list| && -1 !in pages && list[j] in pages
    ensures List(Unlinked(pages, list[j]), list[..j] + list[j + 1..], k)
  {
    hide PageOk, List, Unlinked;
    var pages', list' := Unlinked(pages, list[j]), list[..j] + list[j + 1..];
    UnlinkChanges(pages, list, k, j);
    forall i: nat | i < |list'| ensures Listed(pages', list', k, i) {
      var o := if i < j then i else i + 1;
      InList(pages, list, k, o);
      OkIgnoresLinks(pages[list[o]], pages'[list[o]]);
    }
    forall a, b | 0 <= a < b < |list'| ensures list'[a] != list'[b] {
      InList(pages, list, k, if a < j then a else a + 1);
    }
    MakesList(pages', list', k);
  }

  class SlabPool {
    var pages: Pages
    var heads: seq<int>
    ghost var lists: seq<seq<int>>

    /** Where get_page() and put_page() take and give back frames. */
    const source: Allocator

    ghost predicate Linked()
      reads this
    {
      Pool(pages, heads, lists) && -1 !in pages
    }

    /** ... and every slab page is a frame that was handed out. */
    ghost predicate Valid()
      reads this, source, source.index, source.index.busy, source.index.levels, source.index.offset, source.handedOut
    {
      Linked() && source.Valid() && FramesOwned(pages, source.Owned())
    }

    /** nv_slab_init() */
    constructor (source: Allocator)
      requires source.Valid()
      ensures Valid() && pages == map[] && this.source == source
    {
      this.source := source;
      pages := map[];
      heads := [-1, -1, -1, -1, -1, -1, -1, -1];
      lists := [[], [], [], [], [], [], [], []];
      new;
      forall k: nat | k < 8 ensures List(pages, lists[k], k) && heads[k] == ListAt(lists[k], 0) { }
    }

    /** The first page of a list with room, or NULL. */
    method FindPage(kind: nat) returns (p: int, ghost j: nat)
      requires Linked() && kind < 8
      ensures |lists| == 8 && j <= |lists[kind]| && p == ListAt(lists[kind], j)
      ensures p != -1 ==> p in pages && pages[p].live < pages[p].slots && pages[p].kind == kind
                          && pages[p].magic == SLAB_MAGIC && PageOk(pages[p])
      ensures p == -1 ==> forall i: nat :: i < |lists[kind]| ==>
                lists[kind][i] in pages && pages[lists[kind][i]].live >= pages[lists[kind][i]].slots
    {
      hide Pool, List, PageOk;
      PoolList(pages, heads, lists, kind);
      p, j := heads[kind], 0;
      while p != -1
        invariant j <= |lists[kind]| && p == ListAt(lists[kind], j)
        invariant forall i: nat :: i < j ==>
                    lists[kind][i] in pages && pages[lists[kind][i]].live == pages[lists[kind][i]].slots
        decreases |lists[kind]| - j
      {
        InList(pages, lists[kind], kind, j);
        LiveBound(pages[p]);
        if pages[p].live != pages[p].slots { return; }
        p, j := pages[p].next, j + 1;
      }
      forall i: nat | i < |lists[kind]|
        ensures lists[kind][i] in pages && pages[lists[kind][i]].live >= pages[lists[kind][i]].slots
      {
        InList(pages, lists[kind], kind, i);
        if j < |lists[kind]| { InList(pages, lists[kind], kind, j); }
      }
    }

    /** The lowest free slot of a page. */
    method FindSlot(page: SlabPage) returns (slot: nat)
      requires page.slots <= 256 && |page.occupied| == 8 && exists s: nat :: s < page.slots && !Busy(page.occupied, s)
      ensures slot < page.slots && !Busy(page.occupied, slot) && forall s: nat :: s < slot ==> Busy(page.occupied, s)
    {
      hide Bit;
      slot := 0;
      ghost var s: nat :| s < page.slots && !Busy(page.occupied, s);
      while Bit(page.occupied[slot / 32], slot % 32)
        invariant slot <= s && forall t: nat :: t < slot ==> Busy(page.occupied, t)
        decreases s - slot
      {
        assert Busy(page.occupied, slot);
        slot := slot + 1;
      }
    }

    /** nv_slab_alloc(), whose get_page() is page_alloc().  It fails exactly for sizes no slab takes, or when no page
        of the class has room and no frame is free. */
    method SlabAlloc(size: nat) returns (r: Option<int>)
      requires Valid()
      modifies this, source, source.index.busy, source.index.levels, source.handedOut
      ensures Valid()
      ensures r.None? <==>
                size == 0 || size > 2048 || (ClassFull(old(pages), Class(size)) && old(source.FreeSet()) == {})
      ensures r.None? ==>
                && pages == old(pages) && source.FreeSet() == old(source.FreeSet())
                && source.Owned() == old(source.Owned())
      ensures r.Some? ==> exists p: int, slot: nat ::
                && !InUse(old(pages), p, slot) && InUse(pages, p, slot) && pages[p].kind == Class(size)
                && r.value == Address(p, Class(size), slot)
                && (forall q: int, t: nat :: InUse(pages, q, t) <==> InUse(old(pages), q, t) || (q == p && t == slot))
                && Grown(old(pages), pages, p, Class(size))
      ensures Balanced(old(pages), pages, old(source.FreeSet()), source.FreeSet(), old(source.Owned()), source.Owned())
    {
      hide Pool, List, PageOk, Slots, Busy, WithPage, ClassFull, Kinds, Frames, FramesOwned, Grown, Balanced;
      BalancedSame(pages, pages, source.FreeSet(), source.Owned());
      if size == 0 || size > 2048 { return None; }
      var kind, unit := 0, 16;
      while unit < size
        invariant kind < 8 && unit == Unit(kind) && (kind > 0 ==> unit < 2 * size)
        decreases 8 - kind
      {
        unit, kind := unit * 2, kind + 1;
      }
      ClassIs(size, kind);
      var p: int;
      ghost var j;
      p, j := FindPage(kind);
      if p == -1 {
        NoRoom(pages, heads, lists, kind);
        var page := GetPage(kind);
        if page.None? { return None; }
        FirstAddress(page.value, kind);
        return Some(page.value + 64);
      }
      ghost var was := pages;
      HasFreeSlot(pages[p]);
      KindOk(pages[p]);
      var slot := FindSlot(pages[p]);
      HasRoom(pages, p, slot, kind);
      TakeSlot(p, slot);
      SameKinds(was, pages);
      BalancedSame(was, pages, source.FreeSet(), source.Owned());
      GrownSame(was, pages, p, kind);
      r := Some(p + 64 + slot * unit);
    }

    /** A page from get_page() with its first object taken. */
    method GetPage(kind: nat) returns (p: Option<int>)
      requires Valid() && kind < 8 && ClassFull(pages, kind)
      modifies this, source, source.index.busy, source.index.levels, source.handedOut
      ensures Valid() && (p.None? <==> old(source.FreeSet()) == {})
      ensures p.None? ==>
                && pages == old(pages) && source.FreeSet() == old(source.FreeSet())
                && source.Owned() == old(source.Owned())
      ensures p.Some? ==> !InUse(old(pages), p.value, 0) && InUse(pages, p.value, 0) && pages[p.value].kind == kind
      ensures p.Some? ==>
                forall q: int, t: nat :: InUse(pages, q, t) <==> InUse(old(pages), q, t) || (q == p.value && t == 0)
      ensures p.Some? ==> Grown(old(pages), pages, p.value, kind)
      ensures Balanced(old(pages), pages, old(source.FreeSet()), source.FreeSet(), old(source.Owned()), source.Owned())
    {
      hide Pool, InUse, ClassFull, Kinds, Frames, FramesOwned, Grown, Balanced, Agrees, Room, Offset, ClearPages,
        SetPages, Bit;
      ghost var was, free, owned := pages, source.FreeSet(), source.Owned();
      BalancedSame(was, was, free, owned);
      var frame := source.PageAlloc();
      if frame.None? { return None; }
      var page := frame.value * 4096;
      FrameOfPage(frame.value);
      NotASlabPage(pages, owned, frame.value);
      AddPage(page, kind);
      GrownFrames(was, pages, page, kind, free, owned, frame.value);
      p := Some(page);
    }

    /** The bit of an object is set. */
    method TakeSlot(p: int, slot: nat)
      requires Linked() && p in pages && pages[p].magic == SLAB_MAGIC && PageOk(pages[p])
      requires slot < pages[p].slots && slot < 256 && !Busy(pages[p].occupied, slot)
      modifies this`pages
      ensures Linked() && p in pages && pages[p].kind == old(pages)[p].kind
      ensures !InUse(old(pages), p, slot) && InUse(pages, p, slot) && Kinds(pages) == Kinds(old(pages))
      ensures forall q: int, t: nat :: InUse(pages, q, t) <==> InUse(old(pages), q, t) || (q == p && t == slot)
    {
      hide Pool, Busy, WithPage, SetPages, Slots, Kinds;
      ghost var page := pages[p];
      SlotCount(page, slot, true);
      ghost var page' := WithSlot(page, slot, true);
      assert PageOk(page');
      SlotKeeps(pages, heads, lists, p, page');
      pages := pages[p := WithSlot(pages[p], slot, true)];
      SlotKinds(old(pages), pages, p);
      UsesSlot(old(pages), pages, p, slot, true);
    }

    /** A new page, with its first object taken. */
    method AddPage(p: int, kind: nat)
      requires Linked() && kind < 8 && p >= 0 && p % 4096 == 0 && (p in pages ==> pages[p].magic != SLAB_MAGIC)
      modifies this
      ensures Linked() && p in pages && pages[p].kind == kind
      ensures !InUse(old(pages), p, 0) && InUse(pages, p, 0) && Kinds(pages) == Kinds(old(pages))[p := kind]
      ensures forall q: int, t: nat :: InUse(pages, q, t) <==> InUse(old(pages), q, t) || (q == p && t == 0)
    {
      hide Pool, List, Busy, WithPage, SetPages, Slots, Kinds;
      PoolShape(pages, heads, lists);
      var empty := SlabPage(SLAB_MAGIC, kind, 0, Slots(kind), -1, -1, [0, 0, 0, 0, 0, 0, 0, 0]);
      NoneTaken(empty);
      SlotCount(empty, 0, true);
      ghost var page := WithSlot(empty, 0, true);
      assert PageOk(page);
      PushKeeps(pages, heads, lists, p, page);
      PushChanges(pages, heads, lists, p, page);
      ghost var was, pushed := pages, Pushed(pages, p, page, heads[kind]);
      pages := pages[p := empty.(next := heads[kind])];
      var head := heads[kind];
      if head in pages { pages := pages[head := pages[head].(prev := p)]; }
      heads := heads[kind := p];
      pages := pages[p := WithSlot(pages[p], 0, true)];
      assert pages == pushed;
      lists := lists[kind := [p] + lists[kind]];
      KindsWith(was, pages, p, head);
      FirstSlotUsed(was, pages, p, page, head);
    }

    /** nv_slab_free(): the capacity of the object released, or zero if it was none; a page without objects goes
        back to page_free(). */
    method SlabFree(ptr: int) returns (unit: nat)
      requires Valid()
      modifies this, source, source.index.busy, source.index.levels, source.handedOut
      ensures Valid()
      ensures unit != 0 <==> exists p: int, s: nat :: InUse(old(pages), p, s) && old(pages)[p].kind < 8
                                                       && ptr == Address(p, old(pages)[p].kind, s)
      ensures unit == 0 ==>
                && pages == old(pages) && source.FreeSet() == old(source.FreeSet())
                && source.Owned() == old(source.Owned())
      ensures unit != 0 ==> exists p: int, s: nat ::
                && InUse(old(pages), p, s) && old(pages)[p].kind < 8 && ptr == Address(p, old(pages)[p].kind, s)
                && unit == Unit(old(pages)[p].kind)
                && (forall q: int, t: nat :: InUse(pages, q, t) <==> InUse(old(pages), q, t) && !(q == p && t == s))
                && Shrunk(old(pages), pages, p)
      ensures Balanced(old(pages), pages, old(source.FreeSet()), source.FreeSet(), old(source.Owned()), source.Owned())
    {
      hide Pool, List, Busy, WithPage, SetPages, Unit, Slots, PageOk, Address, Kinds, Frames, FramesOwned, Shrunk,
        Balanced;
      BalancedSame(pages, pages, source.FreeSet(), source.Owned());
      unit := 0;
      var p := ptr - ptr % 4096;
      if ptr == 0 || p !in pages || pages[p].magic != SLAB_MAGIC || pages[p].kind >= 8 || pages[p].live == 0 {
        NotInPage(pages, heads, lists, ptr);
        return;
      }
      ghost var j := PoolPage(pages, heads, lists, p);
      KindOk(pages[p]);
      PoolShape(pages, heads, lists);
      var slot := SlotAt(pages[p], ptr - (p + 64));
      if slot == -1 {
        NotASlot(pages, heads, lists, ptr);
        return;
      }
      unit := Unit(pages[p].kind);
      SlotOf(pages[p].kind, ptr, p, slot);
      assert InUse(pages, p, slot);
      ghost var was := pages;
      var released := GiveBack(p, slot, j);
      ShrunkPages(was, pages, p, released.Some?);
      if released.Some? {
        ghost var free, owned := source.FreeSet(), source.Owned();
        OwnedFrame(was, owned, p);
        var ok := source.PageFree(p / 4096);
        ShrunkFrames(was, pages, p, free, owned);
      } else {
        SameKinds(was, pages);
        BalancedSame(was, pages, source.FreeSet(), source.Owned());
      }
    }

    /** The slot at an offset behind the header that is in use, or -1. */
    method SlotAt(page: SlabPage, offset: int) returns (slot: int)
      requires page.kind < 8 && |page.occupied| == 8
      ensures slot == -1 <==> page.slots != Slots(page.kind) || offset < 0 || offset % Unit(page.kind) != 0
                              || offset / Unit(page.kind) >= Slots(page.kind) || !Busy(page.occupied, offset / Unit(page.kind))
      ensures slot != -1 ==> 0 <= slot == offset / Unit(page.kind)
    {
      hide Unit, Slots, Bit;
      var unit := Unit(page.kind);
      if page.slots != Slots(page.kind) || offset < 0 || offset % unit != 0 { return -1; }
      slot := offset / unit;
      if slot >= Slots(page.kind) || !Bit(page.occupied[slot / 32], slot % 32) { return -1; }
    }

    /** The bit of an object is cleared, and the page unlinked if it was the last. */
    method GiveBack(p: int, slot: nat, ghost j: nat) returns (released: Option<int>)
      requires Linked() && InUse(pages, p, slot) && pages[p].kind < 8 && PageOk(pages[p]) && |lists| == 8
      requires j < |lists[pages[p].kind]| && lists[pages[p].kind][j] == p
      modifies this
      ensures Linked() && Kinds(pages) == if released.Some? then Kinds(old(pages)) - {p} else Kinds(old(pages))
      ensures forall q: int, t: nat :: InUse(pages, q, t) <==> InUse(old(pages), q, t) && !(q == p && t == slot)
      ensures released.Some? ==> released.value == p
      ensures released.Some? <==> forall t: nat :: !InUse(pages, p, t)
    {
      hide Pool, List, Busy, WithPage, SetPages, Slots, PageOk, Kinds;
      ghost var was := pages;
      var kind := pages[p].kind;
      PoolList(pages, heads, lists, kind);
      KindOk(pages[p]);
      SlotCount(pages[p], slot, false);
      var page := WithSlot(pages[p], slot, false);
      if page.live > 0 {
        assert PageOk(page) by { StillOk(pages[p], page); }
        SlotKeeps(pages, heads, lists, p, page);
        pages := pages[p := page];
        SlotKinds(was, pages, p);
        UsesSlot(was, pages, p, slot, false);
        StillUsed(pages, p);
        return None;
      }
      UnlinkKeeps(pages, heads, lists, kind, j);
      UnlinkPlaces(pages, heads, lists, kind, j);
      LastSlot(was, p, slot);
      var prev, next := pages[p].prev, pages[p].next;
      pages := pages[p := page];
      if prev in pages {
        pages := pages[prev := pages[prev].(next := next)];
      } else {
        heads := heads[kind := next];
      }
      if next in pages { pages := pages[next := pages[next].(prev := prev)]; }
      pages := pages[p := pages[p].(magic := 0)];
      assert pages == Unlinked(was, p)[p := page.(magic := 0)];
      lists := lists[kind := lists[kind][..j] + lists[kind][j + 1..]];
      DeadPage(Unlinked(was, p), heads, lists, p, page.(magic := 0));
      UnlinkUses(was, Unlinked(was, p), pages, p);
      KindsWithout(was, pages, p);
      released := Some(p);
    }
  }

  // ----- Facts about slots in use -----

  lemma LiveBound(page: SlabPage)
    requires PageOk(page)
    ensures page.live <= page.slots
  {
    hide Busy;
    SubsetSize(SetPages(page.occupied, page.slots), Range(0, page.slots));
  }

  lemma KindOk(page: SlabPage)
    requires PageOk(page)
    ensures page.kind < 8 && page.slots == Slots(page.kind) && page.slots <= 252 && |page.occupied| == 8
    ensures page.live == |SetPages(page.occupied, page.slots)|
  {
  }

  lemma StillOk(page: SlabPage, page': SlabPage)
    requires PageOk(page) && page' == page.(occupied := page'.occupied, live := page'.live) && |page'.occupied| == 8
    requires page'.live == |SetPages(page'.occupied, page.slots)| && page'.live > 0
    ensures PageOk(page')
  {
  }

  lemma UsesSlot(was: Pages, pages: Pages, p: int, slot: nat, on: bool)
    requires p in was && was[p].magic == SLAB_MAGIC && |was[p].occupied| == 8 && slot < was[p].slots <= 256
    requires (on || was[p].live > 0)
    requires pages == was[p := WithSlot(was[p], slot, on)]
    requires forall t: nat :: t < was[p].slots ==>
               Busy(pages[p].occupied, t) == if t == slot then on else Busy(was[p].occupied, t)
    ensures forall q: int, t: nat :: InUse(pages, q, t) <==>
              (InUse(was, q, t) && !(q == p && t == slot)) || (on && q == p && t == slot)
  {
    hide Busy, WithPage;
  }

  lemma NoneTaken(page: SlabPage)
    requires page.slots <= 252 && page.occupied == [0, 0, 0, 0, 0, 0, 0, 0]
    ensures SetPages(page.occupied, page.slots) == {} && forall t: nat :: t < 256 ==> !Busy(page.occupied, t)
  {
    hide Bit;
    forall t: nat | t < 256 ensures !Busy(page.occupied, t) { ZeroHasNoBits(t % 32); }
  }

  lemma FirstSlotUsed(was: Pages, pages: Pages, p: int, page: SlabPage, head: int)
    requires page.magic == SLAB_MAGIC && page.slots <= 252 && |page.occupied| == 8 && page.slots >= 1
    requires forall t: nat :: t < page.slots ==> Busy(page.occupied, t) == (t == 0)
    requires p in pages && pages[p] == page.(next := pages[p].next) && (p in was ==> was[p].magic != SLAB_MAGIC)
    requires forall q :: q in was && q != p ==> q in pages && pages[q] == if q == head then was[q].(prev := p) else was[q]
    requires forall q :: q in pages ==> q == p || q in was
    ensures forall q: int, t: nat :: InUse(pages, q, t) <==> InUse(was, q, t) || (q == p && t == 0)
    ensures !InUse(was, p, 0)
  {
    hide Busy;
  }

  /** A multiple of the page size below an object is its page. */
  lemma PageOfObject(pages: Pages, heads: seq<int>, lists: seq<seq<int>>, q: int, s: nat)
    requires Pool(pages, heads, lists) && InUse(pages, q, s)
    ensures pages[q].kind < 8 && q >= 0 && pages[q].live > 0 && pages[q].slots == Slots(pages[q].kind)
    ensures
      var ptr := Address(q, pages[q].kind, s);
      && ptr > 0 && ptr - ptr % 4096 == q && ptr - (q + 64) == s * Unit(pages[q].kind)
      && (ptr - (q + 64)) % Unit(pages[q].kind) == 0 && (ptr - (q + 64)) / Unit(pages[q].kind) == s
  {
    hide Busy, SetPages, Pool, Unit, Slots;
    var j := PoolPage(pages, heads, lists, q);
    SlotFits(pages[q].kind, s);
    var unit := Unit(pages[q].kind);
    assert (s + 1) * unit == s * unit + unit;
    Quotient(s * unit, unit, s);
    Aligned(q, 64 + s * unit);
  }

  lemma Aligned(q: int, r: int)
    requires q % 4096 == 0 && 0 <= r < 4096
    ensures (q + r) - (q + r) % 4096 == q
  {
  }

  /** Pointers that nv_slab_free() refuses are not those of objects. */
  lemma NotInPage(pages: Pages, heads: seq<int>, lists: seq<seq<int>>, ptr: int)
    requires Pool(pages, heads, lists)
    requires
      var p := ptr - ptr % 4096;
      ptr == 0 || p !in pages || pages[p].magic != SLAB_MAGIC || pages[p].kind >= 8 || pages[p].live == 0
    ensures forall q: int, s: nat :: InUse(pages, q, s) && pages[q].kind < 8 ==> ptr != Address(q, pages[q].kind, s)
  {
    hide Busy, SetPages, Pool, Unit, Slots, Address;
    forall q: int, s: nat | InUse(pages, q, s) && pages[q].kind < 8 ensures ptr != Address(q, pages[q].kind, s) {
      PageOfObject(pages, heads, lists, q, s);
    }
  }

  lemma NotASlot(pages: Pages, heads: seq<int>, lists: seq<seq<int>>, ptr: int)
    requires Pool(pages, heads, lists)
    requires
      var p := ptr - ptr % 4096;
      && p in pages && pages[p].magic == SLAB_MAGIC && pages[p].kind < 8 && |pages[p].occupied| == 8
      && var offset := ptr - (p + 64);
         || pages[p].slots != Slots(pages[p].kind) || offset < 0 || offset % Unit(pages[p].kind) != 0
         || offset / Unit(pages[p].kind) >= Slots(pages[p].kind) || !Busy(pages[p].occupied, offset / Unit(pages[p].kind))
    ensures forall q: int, s: nat :: InUse(pages, q, s) && pages[q].kind < 8 ==> ptr != Address(q, pages[q].kind, s)
  {
    hide Busy, SetPages, Pool, Unit, Slots, Address;
    forall q: int, s: nat | InUse(pages, q, s) && pages[q].kind < 8 ensures ptr != Address(q, pages[q].kind, s) {
      PageOfObject(pages, heads, lists, q, s);
    }
  }

  lemma SlotOf(kind: nat, ptr: int, p: int, slot: nat)
    requires kind < 8 && (ptr - (p + 64)) % Unit(kind) == 0 && slot == (ptr - (p + 64)) / Unit(kind)
    ensures ptr == Address(p, kind, slot)
  {
    hide Unit;
  }

  lemma StillUsed(pages: Pages, p: int)
    requires p in pages && pages[p].magic == SLAB_MAGIC && PageOk(pages[p])
    ensures exists t: nat :: InUse(pages, p, t)
  {
    hide Busy;
    SomeSlot(pages[p]);
    var t: nat :| t in SetPages(pages[p].occupied, pages[p].slots);
    assert InUse(pages, p, t);
  }

  /** The last object of a page. */
  lemma LastSlot(pages: Pages, p: int, slot: nat)
    requires InUse(pages, p, slot) && PageOk(pages[p]) && WithSlot(pages[p], slot, false).live == 0
    requires |SetPages(WithPage(pages[p].occupied, slot, false), pages[p].slots)| == 0
    requires forall t: nat :: t < pages[p].slots ==>
               Busy(WithPage(pages[p].occupied, slot, false), t) == if t == slot then false else Busy(pages[p].occupied, t)
    ensures forall t: nat :: InUse(pages, p, t) <==> t == slot
  {
    hide Busy, WithPage, Slots;
    var after := WithPage(pages[p].occupied, slot, false);
    assert SetPages(after, pages[p].slots) == {};
    forall t: nat | InUse(pages, p, t) ensures t == slot {
      assert t !in SetPages(after, pages[p].slots);
    }
  }

  /** The neighbours of a page are other pages. */
  lemma UnlinkPlaces(pages: Pages, heads: seq<int>, lists: seq<seq<int>>, k: nat, j: nat)
    requires Pool(pages, heads, lists) && |lists| == 8 && k < 8 && j < |lists[k]| && -1 !in pages
    requires lists[k][j] in pages
    ensures
      var p := lists[k][j];
      && pages[p].prev != p && pages[p].next != p
      && (pages[p].prev in pages ==> pages[pages[p].prev].kind == k)
      && (pages[p].next in pages ==> pages[p].next != pages[p].prev)
  {
    hide PageOk, Pool, List;
    PoolList(pages, heads, lists, k);
    InList(pages, lists[k], k, j);
    if j > 0 { InList(pages, lists[k], k, j - 1); }
    if j + 1 < |lists[k]| { InList(pages, lists[k], k, j + 1); }
  }

  /** What a page without the magic number holds does not matter. */
  lemma DeadPage(pages: Pages, heads: seq<int>, lists: seq<seq<int>>, p: int, page: SlabPage)
    requires Pool(pages, heads, lists) && p in pages && pages[p].magic == 0 && page.magic == 0
    ensures Pool(pages[p := page], heads, lists)
  {
    hide PageOk, List;
    forall k: nat | k < 8 ensures List(pages[p := page], lists[k], k) && heads[k] == ListAt(lists[k], 0) {
      assert List(pages, lists[k], k);
      SameList(pages, pages[p := page], lists[k], k);
    }
  }

  lemma UnlinkUses(was: Pages, unlinked: Pages, pages: Pages, p: int)
    requires p in was && unlinked == Unlinked(was, p) && p in pages && pages == unlinked[p := pages[p]]
    requires pages[p].magic == 0
    ensures forall q: int, t: nat :: InUse(pages, q, t) <==> InUse(was, q, t) && q != p
  {
    hide Busy;
  }

  // ----- Slab pages and frames -----

  ghost predicate FramesOwned(pages: Pages, owned: set<nat>) {
    forall p :: p in pages && pages[p].magic == SLAB_MAGIC ==> p >= 0 && p % 4096 == 0 && p / 4096 in owned
  }

  /** The slab pages are as before, except that p may be new. */
  ghost predicate Grown(was: Pages, pages: Pages, p: int, kind: nat) {
    Kinds(pages) == Kinds(was) || (p !in Kinds(was) && kind < 8 && ClassFull(was, kind) && Kinds(pages) == Kinds(was)[p := kind])
  }

  /** The slab pages are as before, except that p is gone if it holds no object any more. */
  ghost predicate Shrunk(was: Pages, pages: Pages, p: int) {
    Kinds(pages) == if forall t: nat :: !InUse(pages, p, t) then Kinds(was) - {p} else Kinds(was)
  }

  /** What slab pages come and go, the free frames lose and get; all other frames stay handed out. */
  ghost predicate Balanced(was: Pages, pages: Pages, free: set<nat>, free': set<nat>, owned: set<nat>,
      owned': set<nat>) {
    && free' + Frames(pages) == free + Frames(was) && owned' - Frames(pages) == owned - Frames(was)
  }

  lemma FramesOf(pages: Pages, f: nat)
    requires forall p :: p in pages && pages[p].magic == SLAB_MAGIC ==> p >= 0 && p % 4096 == 0
    ensures f in Frames(pages) <==> 4096 * f in Kinds(pages)
  {
  }

  lemma SameKinds(was: Pages, pages: Pages)
    requires Kinds(pages) == Kinds(was)
    ensures Frames(pages) == Frames(was) && forall owned :: FramesOwned(was, owned) ==> FramesOwned(pages, owned)
  {
    hide Kinds;
    KindKeys(was);
    KindKeys(pages);
    forall owned | FramesOwned(was, owned) ensures FramesOwned(pages, owned) { }
  }

  lemma KindKeys(pages: Pages)
    ensures forall p :: p in Kinds(pages) <==> p in pages && pages[p].magic == SLAB_MAGIC
    ensures forall p :: p in Kinds(pages) ==> Kinds(pages)[p] == pages[p].kind
  {
  }

  lemma BalancedSame(was: Pages, pages: Pages, free: set<nat>, owned: set<nat>)
    requires Kinds(pages) == Kinds(was)
    ensures Balanced(was, pages, free, free, owned, owned)
  {
    SameKinds(was, pages);
  }

  lemma ClassIs(size: nat, kind: nat)
    requires 1 <= size <= 2048 && kind < 8 && size <= Unit(kind) && (kind > 0 ==> Unit(kind) < 2 * size)
    ensures Class(size) == kind
  {
  }

  /** The list of a class was searched in vain. */
  lemma NoRoom(pages: Pages, heads: seq<int>, lists: seq<seq<int>>, kind: nat)
    requires Pool(pages, heads, lists) && kind < 8 && |lists| == 8
    requires forall i: nat :: i < |lists[kind]| ==>
               lists[kind][i] in pages && pages[lists[kind][i]].live >= pages[lists[kind][i]].slots
    ensures ClassFull(pages, kind)
  {
    hide Busy, SetPages, Pool, Listed, PageOk;
    forall p: int, s: nat | p in pages && pages[p].magic == SLAB_MAGIC && pages[p].kind == kind && s < Slots(kind)
      ensures InUse(pages, p, s)
    {
      var j := PoolPage(pages, heads, lists, p);
      KindOk(pages[p]);
      FullPage(pages[p], s);
    }
  }

  /** A free slot shows that the class is not full. */
  lemma HasRoom(pages: Pages, p: int, slot: nat, kind: nat)
    requires p in pages && pages[p].magic == SLAB_MAGIC && pages[p].kind == kind && kind < 8 && PageOk(pages[p])
    requires slot < pages[p].slots && !Busy(pages[p].occupied, slot)
    ensures !ClassFull(pages, kind)
  {
    hide Busy, SetPages;
    assert !InUse(pages, p, slot);
  }

  lemma FrameOfPage(f: nat)
    ensures f * 4096 >= 0 && (f * 4096) % 4096 == 0 && (f * 4096) / 4096 == f
  {
  }

  /** A frame that was not handed out is no slab page. */
  lemma NotASlabPage(pages: Pages, owned: set<nat>, f: nat)
    requires FramesOwned(pages, owned) && f !in owned
    ensures f * 4096 in pages ==> pages[f * 4096].magic != SLAB_MAGIC
  {
    FrameOfPage(f);
  }

  lemma FirstAddress(p: int, kind: nat)
    requires kind < 8
    ensures Address(p, kind, 0) == p + 64
  {
  }

  lemma GrownSame(was: Pages, pages: Pages, p: int, kind: nat)
    requires Kinds(pages) == Kinds(was)
    ensures Grown(was, pages, p, kind)
  {
  }

  /** A page more. */
  lemma GrownFrames(was: Pages, pages: Pages, p: int, kind: nat, free: set<nat>, owned: set<nat>, f: nat)
    requires p == f * 4096 && Kinds(pages) == Kinds(was)[p := kind] && FramesOwned(was, owned) && f !in owned
    requires f in free && owned !! free
    requires (p in was ==> was[p].magic != SLAB_MAGIC) && kind < 8 && ClassFull(was, kind)
    ensures Grown(was, pages, p, kind)
    ensures FramesOwned(pages, owned + {f})
    ensures Balanced(was, pages, free, free - {f}, owned, owned + {f})
  {
    hide Kinds, ClassFull;
    KindKeys(was);
    KindKeys(pages);
    FrameOfPage(f);
    assert Frames(pages) == Frames(was) + {f};
    assert f !in Frames(was) && Frames(was) <= owned;
  }

  lemma OwnedFrame(pages: Pages, owned: set<nat>, p: int)
    requires FramesOwned(pages, owned) && p in pages && pages[p].magic == SLAB_MAGIC
    ensures p >= 0 && p % 4096 == 0 && p / 4096 in owned
  {
  }

  lemma ShrunkPages(was: Pages, pages: Pages, p: int, released: bool)
    requires Kinds(pages) == if released then Kinds(was) - {p} else Kinds(was)
    requires released <==> forall t: nat :: !InUse(pages, p, t)
    ensures Shrunk(was, pages, p)
  {
    hide Kinds, InUse;
  }

  /** A page less. */
  lemma ShrunkFrames(was: Pages, pages: Pages, p: int, free: set<nat>, owned: set<nat>)
    requires p in was && was[p].magic == SLAB_MAGIC && FramesOwned(was, owned) && Kinds(pages) == Kinds(was) - {p}
    requires p >= 0
    requires owned !! free
    ensures FramesOwned(pages, owned - {p / 4096})
    ensures Balanced(was, pages, free, free + {p / 4096}, owned, owned - {p / 4096})
  {
    hide Kinds;
    KindKeys(was);
    KindKeys(pages);
    var f := p / 4096;
    forall q | q in Kinds(pages) ensures q / 4096 != f { assert q in Kinds(was) && q != p && q % 4096 == 0; }
    assert Frames(pages) == Frames(was) - {f};
    assert f in Frames(was);
  }

  lemma KindsWith(was: Pages, pages: Pages, p: int, head: int)
    requires p in pages && pages[p].magic == SLAB_MAGIC
    requires forall q :: q in was && q != p ==> q in pages && pages[q] == if q == head then was[q].(prev := p) else was[q]
    requires forall q :: q in pages ==> q == p || q in was
    ensures Kinds(pages) == Kinds(was)[p := pages[p].kind]
  {
    hide Kinds;
    KindKeys(was);
    KindKeys(pages);
    forall q ensures (q in Kinds(pages) <==> q == p || q in Kinds(was)) && (q in Kinds(was) && q != p ==> Kinds(pages)[q] == Kinds(was)[q]) {
      if q in was && q != p { assert q in pages; }
    }
  }

  lemma SlotKinds(was: Pages, pages: Pages, p: int)
    requires p in was && p in pages && pages == was[p := pages[p]] && pages[p].magic == was[p].magic
    requires pages[p].kind == was[p].kind
    ensures Kinds(pages) == Kinds(was)
  {
  }

  lemma KindsWithout(was: Pages, pages: Pages, p: int)
    requires p in was && p in pages && pages == Unlinked(was, p)[p := pages[p]] && pages[p].magic == 0
    ensures Kinds(pages) == Kinds(was) - {p}
  {
  }
}
