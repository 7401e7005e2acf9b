/** kmalloc and kfree of kernel/memory.c over slabs and heap, with one count of the bytes in use. */
module KernelMemory {
  import opened Wrappers
  import opened HeapArena
  import opened KernelHeap
  import opened PhysicalAllocator
  import opened Slab

  /** PHYS_WINDOW, PHYS_LIMIT over 4096, and where the heap lies. */
  const WINDOW: int := 0xffff_8000_0000_0000
  const FRAME_LIMIT: nat := 0x200_0000
  const HEAP_BASE: int := 0xffff_c000_0000_0000

  // ----- Sums over objects -----

  /** The bytes of some objects. */
  ghost function Sum(s: set<Object>): nat
    decreases |s|
  {
    if s == {} then 0 else
    var o :| o in s;
    Sum(s - {o}) + o.size
  }

  /** Any object can be counted first. */
  lemma {:induction false} SumPick(s: set<Object>, x: Object)
    requires x in s
    ensures Sum(s) == Sum(s - {x}) + x.size
    decreases |s|
  {
    var o :| o in s && Sum(s) == Sum(s - {o}) + o.size;
    if o != x {
      SumPick(s - {o}, x);
      SumPick(s - {x}, o);
      assert s - {o} - {x} == s - {x} - {o};
    }
  }

  lemma {:induction false} SumUnion(s: set<Object>, t: set<Object>)
    requires s !! t
    ensures Sum(s + t) == Sum(s) + Sum(t)
    decreases |t|
  {
    if t == {} {
      assert s + t == s;
    } else {
      var x :| x in t;
      SumPick(t, x);
      SumPick(s + t, x);
      assert s + t - {x} == s + (t - {x});
      SumUnion(s, t - {x});
    }
  }

  /** Objects further up. */
  function Moved(s: set<Object>, base: nat): set<Object> { set o | o in s :: Object(base + o.at, o.size) }

  lemma {:induction false} MovedSum(s: set<Object>, base: nat)
    ensures Sum(Moved(s, base)) == Sum(s)
    decreases |s|
  {
    if s == {} {
      assert Moved(s, base) == {};
    } else {
      var x :| x in s;
      SumPick(s, x);
      MovedWithout(s, base, x);
      SumPick(Moved(s, base), Object(base + x.at, x.size));
      MovedSum(s - {x}, base);
    }
  }

  lemma MovedWithout(s: set<Object>, base: nat, x: Object)
    requires x in s
    ensures Object(base + x.at, x.size) in Moved(s, base)
    ensures Moved(s, base) - {Object(base + x.at, x.size)} == Moved(s - {x}, base)
  {
    var a, b := Moved(s, base) - {Object(base + x.at, x.size)}, Moved(s - {x}, base);
    forall o | o in a ensures o in b {
      var p :| p in s && o == Object(base + p.at, p.size);
      assert p in s - {x};
    }
    forall o | o in b ensures o in a {
      var p :| p in s - {x} && o == Object(base + p.at, p.size);
    }
  }

  /** The heap's count is the sum of its objects. */
  lemma {:induction false} UsedIsSum(a: seq<Chunk>, base: nat)
    ensures Used(a) == Sum(Objects(a, base))
    decreases |a|
  {
    hide Start;
    if a != [] {
      var n := |a| - 1;
      UsedIsSum(a[..n], base);
      if !a[n].free {
        var x := Object(base + Extent(a[..n]) + 32, a[n].size);
        BelowEnd(a[..n], base, x);
        SumPick(Objects(a, base), x);
        assert Objects(a, base) - {x} == Objects(a[..n], base);
      } else {
        assert Objects(a, base) == Objects(a[..n], base);
      }
    }
  }

  /** Objects begin before the end of their blocks. */
  lemma BelowEnd(a: seq<Chunk>, base: nat, x: Object)
    requires x.at == base + Extent(a) + 32
    ensures x !in Objects(a, base)
  {
    assert a[..|a|] == a;
    if x in Objects(a, base) {
      ObjectAt(a, base, x);
      var k: nat :| k < |a| && !a[k].free && x == Object(base + Start(a, k) + 32, a[k].size);
      StartOrder(a, k, |a|);
      assert false;
    }
  }

  // ----- Objects of the slabs -----

  function ObjectIn(pages: Pages, p: int, s: nat): Object
    requires p in pages && p >= 0 && pages[p].kind < 8
  {
    Object(Address(p, pages[p].kind, s), Unit(pages[p].kind))
  }

  /** The live objects of the slab pages. */
  ghost function SlabObjects(pages: Pages): (r: set<Object>)
  {
    set p, s: nat | p in pages && s < 256 && InUse(pages, p, s) && p >= 0 && pages[p].kind < 8 :: ObjectIn(pages, p, s)
  }

  lemma ObjectAtSlot(pages: Pages, heads: seq<int>, lists: seq<seq<int>>, p: int, s: nat)
    requires Pool(pages, heads, lists) && InUse(pages, p, s)
    ensures p >= 0 && pages[p].kind < 8 && s < 256 && ObjectIn(pages, p, s) in SlabObjects(pages)
  {
    hide Pool, Unit, Address, InUse, Slots;
    UseInside(pages, p, s);
    PageOfObject(pages, heads, lists, p, s);
    PageShape(pages, heads, lists, p);
  }

  lemma PageShape(pages: Pages, heads: seq<int>, lists: seq<seq<int>>, p: int)
    requires Pool(pages, heads, lists) && p in pages && pages[p].magic == SLAB_MAGIC
    ensures pages[p].slots <= 252
  {
    hide Pool, PageOk;
    var j := PoolPage(pages, heads, lists, p);
    KindOk(pages[p]);
  }

  lemma UseInside(pages: Pages, p: int, s: nat)
    requires InUse(pages, p, s)
    ensures p in pages && pages[p].magic == SLAB_MAGIC && s < pages[p].slots
  {
  }

  /** Objects of the slabs do not overlap, and lie in the window of physical memory. */
  lemma SlabApart(pages: Pages, heads: seq<int>, lists: seq<seq<int>>, a: Object, b: Object)
    requires Pool(pages, heads, lists) && a in SlabObjects(pages) && b in SlabObjects(pages) && a != b
    ensures a.at + a.size <= b.at || b.at + b.size <= a.at
  {
    hide Pool, InUse;
    var p: int, s: nat :|
      p in pages && s < 256 && InUse(pages, p, s) && p >= 0 && pages[p].kind < 8 && a == ObjectIn(pages, p, s);
    var q: int, t: nat :|
      q in pages && t < 256 && InUse(pages, q, t) && q >= 0 && pages[q].kind < 8 && b == ObjectIn(pages, q, t);
    ObjectsApart(pages, heads, lists, p, s, q, t);
  }

  /** The objects that both have are in the same places. */
  lemma SameObject(was: Pages, pages: Pages, q: int, t: nat)
    requires InUse(was, q, t) && InUse(pages, q, t) && q in Kinds(was) && q in Kinds(pages)
    requires Kinds(was)[q] == Kinds(pages)[q]
    requires q >= 0 && pages[q].kind < 8
    ensures was[q].kind < 8 && ObjectIn(was, q, t) == ObjectIn(pages, q, t)
  {
    hide InUse, Unit, Address;
  }

  lemma InKinds(pages: Pages, q: int, t: nat)
    requires InUse(pages, q, t)
    ensures q in Kinds(pages) && q in pages && Kinds(pages)[q] == pages[q].kind
  {
  }

  /** One slot more in use is one object more. */
  lemma SlabAdded(was: Pages, pages: Pages, heads: seq<int>, lists: seq<seq<int>>, p: int, slot: nat, kind: nat)
    requires Pool(pages, heads, lists) && InUse(pages, p, slot) && !InUse(was, p, slot) && pages[p].kind == kind < 8
    requires forall q: int, t: nat :: InUse(pages, q, t) <==> InUse(was, q, t) || (q == p && t == slot)
    requires Grown(was, pages, p, kind)
    ensures p >= 0
    ensures
      var o := Object(Address(p, kind, slot), Unit(kind));
      o !in SlabObjects(was) && SlabObjects(pages) == SlabObjects(was) + {o}
  {
    hide InUse, Pool, Unit, Address, Kinds, ClassFull;
    InKinds(pages, p, slot);
    ObjectAtSlot(pages, heads, lists, p, slot);
    var o := ObjectIn(pages, p, slot);
    forall q: int, t: nat | InUse(was, q, t)
      ensures q in pages && q in was && q >= 0 && was[q].kind < 8 && pages[q].kind < 8 && t < 256
      ensures ObjectIn(was, q, t) == ObjectIn(pages, q, t) && ObjectIn(was, q, t) != o
    {
      InKinds(was, q, t);
      InKinds(pages, q, t);
      ObjectAtSlot(pages, heads, lists, q, t);
      SameObject(was, pages, q, t);
      ObjectsApart(pages, heads, lists, p, slot, q, t);
    }
    forall q: int, t: nat | InUse(pages, q, t) ensures q in pages { InKinds(pages, q, t); }
    assert SlabObjects(pages) == SlabObjects(was) + {o};
  }

  /** One slot less in use is one object less. */
  lemma SlabRemoved(was: Pages, pages: Pages, heads: seq<int>, lists: seq<seq<int>>, p: int, slot: nat)
    requires Pool(was, heads, lists) && InUse(was, p, slot) && was[p].kind < 8
    requires forall q: int, t: nat :: InUse(pages, q, t) <==> InUse(was, q, t) && !(q == p && t == slot)
    requires Shrunk(was, pages, p)
    ensures p >= 0
    ensures
      var o := Object(Address(p, was[p].kind, slot), Unit(was[p].kind));
      o in SlabObjects(was) && SlabObjects(pages) == SlabObjects(was) - {o}
  {
    hide InUse, Pool, Unit, Address, Kinds;
    InKinds(was, p, slot);
    ObjectAtSlot(was, heads, lists, p, slot);
    var o := ObjectIn(was, p, slot);
    forall q: int, t: nat | InUse(pages, q, t)
      ensures q in pages && q in was && q >= 0 && was[q].kind < 8 && pages[q].kind < 8 && t < 256
      ensures ObjectIn(was, q, t) == ObjectIn(pages, q, t) && ObjectIn(was, q, t) != o
    {
      InKinds(was, q, t);
      InKinds(pages, q, t);
      ObjectAtSlot(was, heads, lists, q, t);
      SameObject(pages, was, q, t);
      ObjectsApart(was, heads, lists, p, slot, q, t);
    }
    assert SlabObjects(pages) == SlabObjects(was) - {o};
  }

  lemma NoObjects(pages: Pages, heads: seq<int>, lists: seq<seq<int>>)
    requires Pool(pages, heads, lists) && SlabObjects(pages) == {}
    ensures Kinds(pages) == map[] && Frames(pages) == {}
  {
    hide InUse, Pool, Kinds, ObjectIn;
    forall p: int, s: nat ensures !InUse(pages, p, s) {
      if InUse(pages, p, s) { ObjectAtSlot(pages, heads, lists, p, s); }
    }
    EmptyPool(pages, heads, lists);
    KindKeys(pages);
    forall p ensures p !in Kinds(pages) { }
    assert Kinds(pages).Keys == {};
    assert Kinds(pages) == map[];
  }

  // ----- Both kinds of objects together -----

  lemma MovedWith(s: set<Object>, base: nat, o: Object)
    ensures Moved(s + {o}, base) == Moved(s, base) + {Object(base + o.at, o.size)}
    ensures o !in s ==> Object(base + o.at, o.size) !in Moved(s, base)
  {
    var a, b := Moved(s + {o}, base), Moved(s, base) + {Object(base + o.at, o.size)};
    forall x | x in a ensures x in b { var y :| y in s + {o} && x == Object(base + y.at, y.size); }
    forall x | x in b ensures x in a {
      if x in Moved(s, base) { var y :| y in s && x == Object(base + y.at, y.size); assert y in s + {o}; }
      else { assert o in s + {o}; }
    }
    if o !in s && Object(base + o.at, o.size) in Moved(s, base) {
      var y :| y in s && Object(base + o.at, o.size) == Object(base + y.at, y.size);
      assert false;
    }
  }

  /** Slab objects lie in the window, below the heap. */
  lemma SlabPlace(pages: Pages, heads: seq<int>, lists: seq<seq<int>>, owned: set<nat>, limit: nat, o: Object)
    requires Pool(pages, heads, lists) && FramesOwned(pages, owned) && o in SlabObjects(pages)
    requires limit <= FRAME_LIMIT && forall f :: f in owned ==> f < limit
    ensures o.at % 16 == 0 && o.at < 4096 * FRAME_LIMIT && WINDOW + o.at < HEAP_BASE
  {
    hide InUse, Pool, Unit;
    var p: int, s: nat :|
      p in pages && s < 256 && InUse(pages, p, s) && p >= 0 && pages[p].kind < 8 && o == ObjectIn(pages, p, s);
    PageOfObject(pages, heads, lists, p, s);
    InKinds(pages, p, s);
    OwnedFrame(pages, owned, p);
    SixteenTimes(p, s, Unit(pages[p].kind));
  }

  lemma SixteenTimes(p: int, s: nat, unit: nat)
    requires p % 4096 == 0 && unit % 16 == 0
    ensures (p + 64 + s * unit) % 16 == 0
  {
    var u := unit / 16;
    assert s * unit == 16 * (s * u) by { assert unit == 16 * u; }
    assert p == 16 * (256 * (p / 4096));
  }

  /** An object of either kind more. */
  lemma LiveAdded(h: set<Object>, s: set<Object>, o: Object, slab: bool)
    requires o !in (if slab then s else h)
    requires forall x :: x in s ==> WINDOW + x.at < HEAP_BASE
    requires slab ==> WINDOW + o.at < HEAP_BASE
    ensures
      var before := Moved(h, HEAP_BASE) + Moved(s, WINDOW);
      var after :=
        if slab then Moved(h, HEAP_BASE) + Moved(s + {o}, WINDOW) else Moved(h + {o}, HEAP_BASE) + Moved(s, WINDOW);
      var o' := Object((if slab then WINDOW else HEAP_BASE) + o.at, o.size);
      o' !in before && after == before + {o'} && Sum(after) == Sum(before) + o.size
  {
    hide Sum;
    var before := Moved(h, HEAP_BASE) + Moved(s, WINDOW);
    var after :=
      if slab then Moved(h, HEAP_BASE) + Moved(s + {o}, WINDOW) else Moved(h + {o}, HEAP_BASE) + Moved(s, WINDOW);
    var o' := Object((if slab then WINDOW else HEAP_BASE) + o.at, o.size);
    if slab { MovedWith(s, WINDOW, o); } else { MovedWith(h, HEAP_BASE, o); }
    assert after == before + {o'};
    assert o' !in before;
    SumPick(after, o');
    assert after - {o'} == before;
  }

  /** ... and one less. */
  lemma LiveRemoved(h: set<Object>, s: set<Object>, o: Object, slab: bool)
    requires o in (if slab then s else h)
    requires forall x :: x in s ==> WINDOW + x.at < HEAP_BASE
    ensures
      var before := Moved(h, HEAP_BASE) + Moved(s, WINDOW);
      var after :=
        if slab then Moved(h, HEAP_BASE) + Moved(s - {o}, WINDOW) else Moved(h - {o}, HEAP_BASE) + Moved(s, WINDOW);
      var o' := Object((if slab then WINDOW else HEAP_BASE) + o.at, o.size);
      o' in before && after == before - {o'} && Sum(before) == Sum(after) + o.size
  {
    hide Sum;
    LiveAdded(if slab then h else h - {o}, if slab then s - {o} else s, o, slab);
    assert (s - {o}) + {o} == s || !slab;
    assert (h - {o}) + {o} == h || slab;
  }

  // ----- kmalloc and kfree -----

  class Memory {
    const heap: Heap
    const slabs: SlabPool
    /** slabs_active */
    var active: bool
    /** used_bytes */
    var used: nat

    constructor (heap: Heap, slabs: SlabPool)
      requires heap.Valid() && heap.Live() == {} && slabs.Valid() && slabs.pages == map[] && slabs.source.pages <= FRAME_LIMIT
      ensures Valid() && this.heap == heap && this.slabs == slabs && Live() == {} && used == 0 && active
    {
      this.heap, this.slabs, active, used := heap, slabs, true, 0;
      new;
      assert SlabObjects(slabs.pages) == {} && Moved(heap.Live(), HEAP_BASE) == {};
    }

    ghost predicate Valid()
      reads this, heap, slabs, slabs.source, slabs.source.index, slabs.source.index.busy, slabs.source.index.levels,
            slabs.source.index.offset, slabs.source.handedOut
    {
      && heap.Valid() && slabs.Valid() && slabs.source.pages <= FRAME_LIMIT
      && (!active ==> SlabObjects(slabs.pages) == {}) && used == Sum(Live())
    }

    /** The live objects of slabs and heap, at their addresses. */
    ghost function Live(): set<Object>
      reads this, heap, slabs
    {
      Moved(heap.Live(), HEAP_BASE) + Moved(SlabObjects(slabs.pages), WINDOW)
    }

    /** A size that nv_slab_alloc() can serve now. */
    ghost predicate SlabServes(n: nat)
      requires slabs.Valid()
      reads this, slabs, slabs.source, slabs.source.index, slabs.source.index.busy, slabs.source.index.levels,
            slabs.source.index.offset, slabs.source.handedOut
    {
      active && 1 <= n <= 2048 && !(ClassFull(slabs.pages, Class(n)) && slabs.source.FreeSet() == {})
    }

    ghost predicate HeapServes(n: nat)
      reads heap
    {
      exists i: nat :: i < |heap.arena| && heap.arena[i].free && heap.arena[i].size >= AlignUp(n)
    }

    ghost predicate Balance(pages0: Pages, free0: set<nat>, owned0: set<nat>)
      requires slabs.source.Valid()
      reads slabs, slabs.source, slabs.source.index, slabs.source.index.busy, slabs.source.index.levels,
        slabs.source.index.offset, 
            slabs.source.handedOut
    {
      Balanced(pages0, slabs.pages, free0, slabs.source.FreeSet(), owned0, slabs.source.Owned())
    }

    /** The slab part of kmalloc. */
    method TakeSmall(n: nat) returns (r: Option<int>)
      requires Valid() && active && n <= 2048
      modifies this`used, slabs, slabs.source, slabs.source.index.busy, slabs.source.index.levels,
        slabs.source.handedOut
      ensures Valid() && Balance(old(slabs.pages), old(slabs.source.FreeSet()), old(slabs.source.Owned()))
      ensures r.Some? <==> old(SlabServes(n))
      ensures r.None? ==> Live() == old(Live()) && used == old(used)
      ensures r.Some? ==> r.value % 16 == 0 && r.value < HEAP_BASE
                          && exists o: Object :: o.at == r.value && o.size >= n && o !in old(Live())
                                                 && Live() == old(Live()) + {o} && used == old(used) + o.size
    {
      hide Objects, SlabObjects, Sum, Moved, Tiled, Represents, Used, ClassFull, Pool, FramesOwned, Balanced, Grown,
        ClearPages, SetPages, Class, Address, Unit, HeapArena.Start;
      ghost var was, h := slabs.pages, heap.Live();
      var small := slabs.SlabAlloc(n);
      if small.None? { return None; }
      ghost var p: int, slot: nat :|
        && !InUse(was, p, slot) && InUse(slabs.pages, p, slot) && slabs.pages[p].kind == Class(n)
        && small.value == Address(p, Class(n), slot)
        && (forall q: int, t: nat :: InUse(slabs.pages, q, t) <==> InUse(was, q, t) || (q == p && t == slot))
        && Grown(was, slabs.pages, p, Class(n));
      SlabAdded(was, slabs.pages, slabs.heads, slabs.lists, p, slot, Class(n));
      ghost var o := Object(small.value, Unit(Class(n)));
      OwnedBelow();
      forall x | x in SlabObjects(slabs.pages) ensures WINDOW + x.at < HEAP_BASE && x.at % 16 == 0 {
        SlabPlace(slabs.pages, slabs.heads, slabs.lists, slabs.source.Owned(), slabs.source.pages, x);
      }
      LiveAdded(h, SlabObjects(was), o, true);
      var unit := UnitFor(n);
      used := used + unit;
      r := Some(WINDOW + small.value);
    }

    /** The size that nv_slab_alloc() gives. */
    method UnitFor(n: nat) returns (unit: nat)
      requires 1 <= n <= 2048
      ensures unit == Unit(Class(n))
    {
      hide Unit, Class;
      unit := 16;
      ghost var kind: nat := 0;
      UnitDoubles(0);
      while unit < n
        invariant kind < 8 && unit == Unit(kind) && (kind > 0 ==> unit < 2 * n)
        decreases 8 - kind
      {
        UnitDoubles(kind);
        unit, kind := unit * 2, kind + 1;
      }
      ClassIs(n, kind);
    }

    lemma OwnedBelow()
      requires slabs.source.Valid()
      ensures forall f :: f in slabs.source.Owned() ==> f < slabs.source.pages
    {
    }

    /** The heap part of kmalloc; the heap counts its own share of the bytes in use. */
    method TakeLarge(n: nat) returns (r: Option<int>)
      requires Valid()
      modifies this`used, heap
      ensures Valid()
      ensures r.None? <==> n == 0 || n > HEAP_SIZE - 47 || !old(HeapServes(n))
      ensures r.None? ==> Live() == old(Live()) && used == old(used)
      ensures r.Some? ==> r.value % 16 == 0 && r.value >= HEAP_BASE
                          && exists o: Object :: o.at == r.value && o.size >= n && o !in old(Live())
                                                 && Live() == old(Live()) + {o} && used == old(used) + o.size
    {
      hide Objects, SlabObjects, Sum, Moved, Tiled, Represents, Used, Pool, FramesOwned, ClearPages, SetPages,
        HeapArena.Start;
      ghost var h := heap.Live();
      var before := heap.used;
      var large := heap.Kmalloc(n);
      if large.None? { return None; }
      ghost var given: nat :| given >= n && heap.used == before + given && Object(large.value, given) !in h
                              && heap.Live() == h + {Object(large.value, given)};
      OwnedBelow();
      forall x | x in SlabObjects(slabs.pages) ensures WINDOW + x.at < HEAP_BASE {
        SlabPlace(slabs.pages, slabs.heads, slabs.lists, slabs.source.Owned(), slabs.source.pages, x);
      }
      LiveAdded(h, SlabObjects(slabs.pages), Object(large.value, given), false);
      used := used + (heap.used - before);
      r := Some(HEAP_BASE + large.value);
    }

    /** kmalloc(): an object from a slab, or from the heap when no slab has one; none exactly when neither can. */
    method Kmalloc(n: nat) returns (r: Option<int>)
      requires Valid()
      modifies this`used, heap, slabs, slabs.source, slabs.source.index.busy, slabs.source.index.levels,
        slabs.source.handedOut
      ensures Valid() && Balance(old(slabs.pages), old(slabs.source.FreeSet()), old(slabs.source.Owned()))
      ensures r.None? <==> n == 0 || n > HEAP_SIZE - 47 || !(old(SlabServes(n)) || old(HeapServes(n)))
      ensures r.None? ==> Live() == old(Live()) && used == old(used)
      ensures r.Some? ==> r.value % 16 == 0 && (r.value < HEAP_BASE <==> old(SlabServes(n)))
      ensures r.Some? ==> exists o: Object :: o.at == r.value && o.size >= n && o !in old(Live())
                                              && Live() == old(Live()) + {o} && used == old(used) + o.size
    {
      hide Objects, SlabObjects, Sum, Moved, Tiled, Represents, Used, ClassFull, Pool, FramesOwned, Balanced,
        ClearPages, SetPages, HeapArena.Start;
      BalancedSame(slabs.pages, slabs.pages, slabs.source.FreeSet(), slabs.source.Owned());
      if n == 0 || n > HEAP_SIZE - 47 { return None; }
      if active && n <= 2048 {
        r := TakeSmall(n);
        if r.Some? { return; }
      }
      r := TakeLarge(n);
    }

    /** The slab part of kfree: false where the kernel panics. */
    method FreeSmall(ptr: int) returns (ok: bool)
      requires Valid() && active && WINDOW <= ptr < WINDOW + 4096 * FRAME_LIMIT
      modifies this`used, slabs, slabs.source, slabs.source.index.busy, slabs.source.index.levels,
        slabs.source.handedOut
      ensures Valid() && Balance(old(slabs.pages), old(slabs.source.FreeSet()), old(slabs.source.Owned()))
      ensures ok <==> exists o :: o in old(Live()) && o.at == ptr
      ensures !ok ==> Live() == old(Live()) && used == old(used)
      ensures ok ==>
                exists o :: o in old(Live()) && o.at == ptr && Live() == old(Live()) - {o} && used + o.size == old(used)
    {
      hide Objects, SlabObjects, Sum, Moved, Tiled, Represents, Used, ClassFull, Pool, FramesOwned, Balanced, Shrunk,
        ClearPages, SetPages, Address, Unit, InUse, HeapArena.Start;
      ghost var was, heads, lists, h, s := slabs.pages, slabs.heads, slabs.lists, heap.Live(), SlabObjects(slabs.pages);
      ghost var owned := slabs.source.Owned();
      OwnedBelow();
      forall x | x in s ensures WINDOW + x.at < HEAP_BASE {
        SlabPlace(was, heads, lists, owned, slabs.source.pages, x);
      }
      BalancedSame(was, was, slabs.source.FreeSet(), owned);
      WhoLives(h, was, heads, lists, ptr);
      var given := slabs.source.HandedOut((ptr - WINDOW) / 4096);
      if !given { NotHandedOut(was, heads, lists, owned, ptr); return false; }
      var size := slabs.SlabFree(ptr - WINDOW);
      if size == 0 { return false; }
      SlabFreed(h, was, slabs.pages, heads, lists, ptr, size);
      used := used - size;
      ok := true;
    }

    /** The heap part of kfree. */
    method FreeLarge(ptr: int) returns (ok: bool)
      requires Valid() && !(active && WINDOW <= ptr < WINDOW + 4096 * FRAME_LIMIT)
      modifies this`used, heap
      ensures Valid()
      ensures ok <==> exists o :: o in old(Live()) && o.at == ptr
      ensures !ok ==> Live() == old(Live()) && used == old(used)
      ensures ok ==>
                exists o :: o in old(Live()) && o.at == ptr && Live() == old(Live()) - {o} && used + o.size == old(used)
    {
      hide Objects, SlabObjects, Sum, Moved, Tiled, Represents, Used, Pool, FramesOwned, ClearPages, SetPages,
        HeapArena.Start;
      ghost var h, s := heap.Live(), SlabObjects(slabs.pages);
      OwnedBelow();
      forall x | x in s ensures x.at < 4096 * FRAME_LIMIT && WINDOW + x.at < HEAP_BASE {
        SlabPlace(slabs.pages, slabs.heads, slabs.lists, slabs.source.Owned(), slabs.source.pages, x);
      }
      OnlyHeap(h, s, ptr);
      var before := heap.used;
      ok := heap.Kfree(ptr - HEAP_BASE);
      if !ok { return; }
      ghost var o :| o in h && o.at == ptr - HEAP_BASE && heap.Live() == h - {o} && heap.used + o.size == before;
      LiveRemoved(h, s, o, false);
      used := used - (before - heap.used);
    }

    /** kfree(): the object at that address goes; false where the kernel panics, which is when there is none. */
    method Kfree(ptr: int) returns (ok: bool)
      requires Valid()
      modifies this`used, heap, slabs, slabs.source, slabs.source.index.busy, slabs.source.index.levels,
        slabs.source.handedOut
      ensures Valid() && Balance(old(slabs.pages), old(slabs.source.FreeSet()), old(slabs.source.Owned()))
      ensures ok <==> ptr == 0 || exists o :: o in old(Live()) && o.at == ptr
      ensures !ok || ptr == 0 ==> Live() == old(Live()) && used == old(used)
      ensures ok && ptr != 0 ==>
                exists o :: o in old(Live()) && o.at == ptr && Live() == old(Live()) - {o} && used + o.size == old(used)
    {
      hide Objects, SlabObjects, Sum, Moved, Tiled, Represents, Used, Pool, FramesOwned, Balanced, ClearPages,
        SetPages, HeapArena.Start;
      BalancedSame(slabs.pages, slabs.pages, slabs.source.FreeSet(), slabs.source.Owned());
      if ptr == 0 { return true; }
      if active && ptr >= WINDOW && ptr - WINDOW < 4096 * FRAME_LIMIT {
        ok := FreeSmall(ptr);
      } else {
        ok := FreeLarge(ptr);
      }
    }

    /** Any two live objects are apart, wherever they come from. */
    lemma AllApart(a: Object, b: Object)
      requires Valid() && a in Live() && b in Live() && a != b
      ensures a.at > 0 && a.size >= 16 && b.size >= 16 && (a.at + a.size <= b.at || b.at + b.size <= a.at)
    {
      hide Objects, SlabObjects, Sum, Tiled, Represents, Used, Pool, FramesOwned, Unit;
      OwnedBelow();
      ApartBoth(heap.arena, slabs.pages, slabs.heads, slabs.lists, slabs.source.Owned(), slabs.source.pages, a, b);
    }

    /** The count is the heap's own count and the bytes of the slab objects. */
    lemma UsedShares()
      requires Valid()
      ensures used == heap.used + Sum(SlabObjects(slabs.pages))
    {
      hide Objects, SlabObjects, Sum, Moved, Tiled, Represents, Used, Pool, FramesOwned;
      OwnedBelow();
      forall x | x in SlabObjects(slabs.pages) ensures WINDOW + x.at < HEAP_BASE {
        SlabPlace(slabs.pages, slabs.heads, slabs.lists, slabs.source.Owned(), slabs.source.pages, x);
      }
      UsedIsSum(heap.arena, 0);
      SumBoth(heap.Live(), SlabObjects(slabs.pages));
    }

    /** Freeing every object, in any order, leaves one free block in the heap, and no slab page: their frames are free again. */
    method FreeAll(ptrs: seq<int>)
      requires Valid() && (forall i, j :: 0 <= i < j < |ptrs| ==> ptrs[i] != ptrs[j]) && Addresses(ptrs, Live())
      modifies this`used, heap, slabs, slabs.source, slabs.source.index.busy, slabs.source.index.levels,
        slabs.source.handedOut
      ensures Valid() && Live() == {} && used == 0
      ensures heap.arena == [Chunk(HEAP_SIZE - 32, true)] && Kinds(slabs.pages) == map[]
      ensures slabs.source.FreeSet() == old(slabs.source.FreeSet()) + Frames(old(slabs.pages))
      ensures slabs.source.Owned() == old(slabs.source.Owned()) - Frames(old(slabs.pages))
    {
      hide Objects, SlabObjects, Sum, Moved, Tiled, Represents, Used, Pool, FramesOwned, Balanced, ClearPages,
        SetPages, HeapArena.Start, Frames, Kinds, Addresses, Apart;
      BalancedSame(slabs.pages, slabs.pages, slabs.source.FreeSet(), slabs.source.Owned());
      assert ptrs[0..] == ptrs;
      for i := 0 to |ptrs|
        invariant Valid() && Balance(old(slabs.pages), old(slabs.source.FreeSet()), old(slabs.source.Owned()))
        invariant Addresses(ptrs[i..], Live())
      {
        ghost var live, pages, free, owned := Live(), slabs.pages, slabs.source.FreeSet(), slabs.source.Owned();
        OwnPlaces();
        FirstLives(ptrs, i, live);
        var ok := Kfree(ptrs[i]);
        ghost var o :| o in live && o.at == ptrs[i] && Live() == live - {o};
        LessLive(live, o, ptrs, i);
        BalancedNext(old(slabs.pages), pages, slabs.pages, old(slabs.source.FreeSet()), free, slabs.source.FreeSet(),
                     old(slabs.source.Owned()), owned, slabs.source.Owned());
      }
      NothingLeft(ptrs[|ptrs|..], Live());
      EmptyBoth(heap.Live(), SlabObjects(slabs.pages));
      AllFreed(heap.arena);
      NoObjects(slabs.pages, slabs.heads, slabs.lists);
      BalancedEmpty(old(slabs.pages), slabs.pages, old(slabs.source.FreeSet()), slabs.source.FreeSet(), old(slabs.source.Owned()),
                    slabs.source.Owned());
    }

    lemma OwnPlaces()
      requires Valid()
      ensures Apart(Live())
    {
      hide Objects, SlabObjects, Sum, Moved, Tiled, Represents, Used, Pool, FramesOwned;
      forall a, b | a in Live() && b in Live() && a != b ensures a.at != b.at { AllApart(a, b); }
      forall a | a in Live() ensures a.at != 0 { AboveZero(heap.Live(), SlabObjects(slabs.pages), a); }
    }
  }

  /** What nv_slab_free() does, on all live objects. */
  lemma SlabFreed(h: set<Object>, was: Pages, pages: Pages, heads: seq<int>, lists: seq<seq<int>>, ptr: int, size: nat)
    requires Pool(was, heads, lists) && forall x :: x in SlabObjects(was) ==> WINDOW + x.at < HEAP_BASE
    requires exists p: int, s: nat ::
               && InUse(was, p, s) && was[p].kind < 8 && ptr - WINDOW == Address(p, was[p].kind, s)
               && size == Unit(was[p].kind)
               && (forall q: int, t: nat :: InUse(pages, q, t) <==> InUse(was, q, t) && !(q == p && t == s))
               && Shrunk(was, pages, p)
    ensures
      var before, after :=
        Moved(h, HEAP_BASE) + Moved(SlabObjects(was), WINDOW), Moved(h, HEAP_BASE) + Moved(SlabObjects(pages), WINDOW);
      exists o :: o in before && o.at == ptr && after == before - {o} && Sum(before) == Sum(after) + o.size && o.size == size
  {
    hide Pool, Unit, Address, Shrunk, SlabObjects, Moved, Sum;
    var p: int, s: nat :|
      && InUse(was, p, s) && was[p].kind < 8 && ptr - WINDOW == Address(p, was[p].kind, s) && size == Unit(was[p].kind)
      && (forall q: int, t: nat :: InUse(pages, q, t) <==> InUse(was, q, t) && !(q == p && t == s))
      && Shrunk(was, pages, p);
    SlabRemoved(was, pages, heads, lists, p, s);
    LiveRemoved(h, SlabObjects(was), Object(ptr - WINDOW, size), true);
  }

  /** Who lives at an address of the window. */
  lemma WhoLives(h: set<Object>, pages: Pages, heads: seq<int>, lists: seq<seq<int>>, ptr: int)
    requires Pool(pages, heads, lists) && WINDOW <= ptr < HEAP_BASE
    ensures (exists o :: o in Moved(h, HEAP_BASE) + Moved(SlabObjects(pages), WINDOW) && o.at == ptr) <==>
            exists p: int, s: nat :: InUse(pages, p, s) && pages[p].kind < 8 && ptr - WINDOW == Address(p, pages[p].kind, s)
  {
    hide Pool, Address, Unit;
    if o :| o in Moved(h, HEAP_BASE) + Moved(SlabObjects(pages), WINDOW) && o.at == ptr {
      forall a | a in Moved(h, HEAP_BASE)
        ensures a.at != ptr { var y :| y in h && a == Object(HEAP_BASE + y.at, y.size); }
      var x :| x in SlabObjects(pages) && o == Object(WINDOW + x.at, x.size);
      var p: int, s: nat :|
        p in pages && s < 256 && InUse(pages, p, s) && p >= 0 && pages[p].kind < 8 && x == ObjectIn(pages, p, s);
      assert ptr - WINDOW == Address(p, pages[p].kind, s);
    }
    if p: int, s: nat :| InUse(pages, p, s) && pages[p].kind < 8 && ptr - WINDOW == Address(p, pages[p].kind, s) {
      InKinds(pages, p, s);
      ObjectAtSlot(pages, heads, lists, p, s);
      var x := ObjectIn(pages, p, s);
      assert Object(WINDOW + x.at, x.size) in Moved(SlabObjects(pages), WINDOW);
    }
  }

  /** A frame that was not handed out holds no object. */
  lemma NotHandedOut(pages: Pages, heads: seq<int>, lists: seq<seq<int>>, owned: set<nat>, ptr: int)
    requires Pool(pages, heads, lists) && FramesOwned(pages, owned) && WINDOW <= ptr && (ptr - WINDOW) / 4096 !in owned
    ensures forall p: int, s: nat :: InUse(pages, p, s) && pages[p].kind < 8 ==>
              ptr - WINDOW != Address(p, pages[p].kind, s)
  {
    hide Pool, Address, Unit;
    forall p: int, s: nat | InUse(pages, p, s) && pages[p].kind < 8
      ensures ptr - WINDOW != Address(p, pages[p].kind, s)
    {
      InKinds(pages, p, s);
      PageOfObject(pages, heads, lists, p, s);
      OwnedFrame(pages, owned, p);
    }
  }

  /** Outside the window only the heap has objects. */
  lemma OnlyHeap(h: set<Object>, s: set<Object>, ptr: int)
    requires (forall x :: x in s ==> x.at < 4096 * FRAME_LIMIT)
    requires (s == {} || !(WINDOW <= ptr < WINDOW + 4096 * FRAME_LIMIT))
    ensures (exists o :: o in Moved(h, HEAP_BASE) + Moved(s, WINDOW) && o.at == ptr) <==>
              exists o :: o in h && o.at == ptr - HEAP_BASE
  {
    forall o | o in Moved(s, WINDOW) ensures o.at != ptr {
      var x :| x in s && o == Object(WINDOW + x.at, x.size);
    }
    if o :| o in Moved(h, HEAP_BASE) + Moved(s, WINDOW) && o.at == ptr {
      var y :| y in h && o == Object(HEAP_BASE + y.at, y.size);
      assert y.at == ptr - HEAP_BASE;
    }
    if y :| y in h && y.at == ptr - HEAP_BASE {
      assert Object(HEAP_BASE + y.at, y.size) in Moved(h, HEAP_BASE);
    }
  }

  lemma UnitDoubles(kind: nat)
    requires kind < 8
    ensures Unit(0) == 16 && (Unit(kind) < 2048 ==> kind + 1 < 8 && Unit(kind + 1) == 2 * Unit(kind))
  {
  }

  /** Objects of heap and slabs are apart, because the window of physical memory ends below the heap. */
  lemma ApartBoth(
      arena: seq<Chunk>, pages: Pages, heads: seq<int>, lists: seq<seq<int>>, owned: set<nat>, limit: nat, a: Object,
      b: Object)
    requires Tiled(arena) && Pool(pages, heads, lists) && FramesOwned(pages, owned)
    requires limit <= FRAME_LIMIT && forall f :: f in owned ==> f < limit
    requires a != b
    requires a in Moved(Objects(arena, 0), HEAP_BASE) + Moved(SlabObjects(pages), WINDOW)
    requires b in Moved(Objects(arena, 0), HEAP_BASE) + Moved(SlabObjects(pages), WINDOW)
    ensures a.at > 0 && a.size >= 16 && b.size >= 16 && (a.at + a.size <= b.at || b.at + b.size <= a.at)
  {
    hide Objects, SlabObjects, Tiled, Pool, FramesOwned, Unit;
    var h, s := Objects(arena, 0), SlabObjects(pages);
    var x: Object, slabA: bool :|
      x in (if slabA then s else h) && a == Object((if slabA then WINDOW else HEAP_BASE) + x.at, x.size);
    var y: Object, slabB: bool :|
      y in (if slabB then s else h) && b == Object((if slabB then WINDOW else HEAP_BASE) + y.at, y.size);
    if slabA { SlabInside(pages, heads, lists, owned, limit, x); } else { HeapObject(arena, x); }
    if slabB { SlabInside(pages, heads, lists, owned, limit, y); } else { HeapObject(arena, y); }
    if slabA && slabB { SlabApart(pages, heads, lists, x, y); }
    if !slabA && !slabB { ObjectsDisjoint(arena, x, y); }
  }

  lemma HeapObject(arena: seq<Chunk>, o: Object)
    requires Tiled(arena) && o in Objects(arena, 0)
    ensures o.size >= 16
  {
    ObjectAt(arena, 0, o);
    var k: nat :| k < |arena| && !arena[k].free && o == Object(HeapArena.Start(arena, k) + 32, arena[k].size);
    assert ChunkOk(arena[k]);
  }

  lemma SlabInside(pages: Pages, heads: seq<int>, lists: seq<seq<int>>, owned: set<nat>, limit: nat, o: Object)
    requires Pool(pages, heads, lists) && FramesOwned(pages, owned) && o in SlabObjects(pages)
    requires limit <= FRAME_LIMIT && forall f :: f in owned ==> f < limit
    ensures o.size >= 16 && WINDOW + o.at + o.size <= HEAP_BASE
  {
    hide InUse, Pool;
    var p: int, s: nat :|
      p in pages && s < 256 && InUse(pages, p, s) && p >= 0 && pages[p].kind < 8 && o == ObjectIn(pages, p, s);
    InKinds(pages, p, s);
    OwnedFrame(pages, owned, p);
    UseInside(pages, p, s);
    PageOfObject(pages, heads, lists, p, s);
    SlotFits(pages[p].kind, s);
  }

  lemma SumBoth(h: set<Object>, s: set<Object>)
    requires forall x :: x in s ==> WINDOW + x.at < HEAP_BASE
    ensures Sum(Moved(h, HEAP_BASE) + Moved(s, WINDOW)) == Sum(h) + Sum(s)
  {
    hide Sum;
    var a, b := Moved(h, HEAP_BASE), Moved(s, WINDOW);
    assert forall x :: x in a ==> x.at >= HEAP_BASE;
    assert forall x :: x in b ==> x.at < HEAP_BASE;
    SumUnion(a, b);
    MovedSum(h, HEAP_BASE);
    MovedSum(s, WINDOW);
  }

  lemma EmptyBoth(h: set<Object>, s: set<Object>)
    ensures Moved(h, HEAP_BASE) + Moved(s, WINDOW) == {} ==> h == {} && s == {}
    ensures Sum({}) == 0
  {
    forall x | x in h ensures Object(HEAP_BASE + x.at, x.size) in Moved(h, HEAP_BASE) { }
    forall x | x in s ensures Object(WINDOW + x.at, x.size) in Moved(s, WINDOW) { }
  }

  lemma AboveZero(h: set<Object>, s: set<Object>, a: Object)
    requires a in Moved(h, HEAP_BASE) + Moved(s, WINDOW)
    ensures a.at != 0
  {
  }

  /** Different objects are at different addresses, none at 0. */
  ghost predicate Apart(live: set<Object>) {
    && (forall a, b :: a in live && b in live && a != b ==> a.at != b.at)
    && (forall a :: a in live ==> a.at != 0)
  }

  /** The addresses are those of the live objects. */
  ghost predicate Addresses(ptrs: seq<int>, live: set<Object>) {
    && (forall p: int :: p in ptrs ==> exists a :: a in live && a.at == p)
    && (forall a :: a in live ==> a.at in ptrs)
  }

  lemma FirstLives(ptrs: seq<int>, i: nat, live: set<Object>)
    requires i < |ptrs| && Addresses(ptrs[i..], live) && Apart(live)
    ensures ptrs[i] != 0 && exists a :: a in live && a.at == ptrs[i]
  {
    assert ptrs[i..] == [ptrs[i]] + ptrs[i + 1..] && ptrs[i] in ptrs[i..];
  }

  lemma NothingLeft(ptrs: seq<int>, live: set<Object>)
    requires Addresses(ptrs, live) && ptrs == []
    ensures live == {}
  {
  }

  /** What is left to free. */
  lemma LessLive(live: set<Object>, o: Object, ptrs: seq<int>, i: nat)
    requires i < |ptrs| && (forall i, j :: 0 <= i < j < |ptrs| ==> ptrs[i] != ptrs[j]) && Addresses(ptrs[i..], live)
    requires o in live && o.at == ptrs[i] && Apart(live)
    ensures Addresses(ptrs[i + 1..], live - {o})
  {
    var rest := ptrs[i + 1..];
    assert ptrs[i..] == [ptrs[i]] + rest;
    forall p: int | p in rest ensures exists a :: a in live - {o} && a.at == p {
      var k :| i + 1 <= k < |ptrs| && p == ptrs[k];
      assert p in ptrs[i..];
      var a :| a in live && a.at == p;
      assert a in live - {o};
    }
    forall a | a in live - {o} ensures a.at in rest {
      assert a.at in ptrs[i..] && a.at != ptrs[i];
    }
  }

  lemma BalancedNext(
      p0: Pages, p1: Pages, p2: Pages, f0: set<nat>, f1: set<nat>, f2: set<nat>, o0: set<nat>, o1: set<nat>,
      o2: set<nat>)
    requires Balanced(p0, p1, f0, f1, o0, o1) && Balanced(p1, p2, f1, f2, o1, o2)
    ensures Balanced(p0, p2, f0, f2, o0, o2)
  {
  }

  lemma BalancedEmpty(was: Pages, pages: Pages, free: set<nat>, free': set<nat>, owned: set<nat>, owned': set<nat>)
    requires Balanced(was, pages, free, free', owned, owned') && Frames(pages) == {}
    ensures free' == free + Frames(was) && owned' == owned - Frames(was)
  {
    assert free' + Frames(pages) == free';
    assert owned' - Frames(pages) == owned';
  }
}
