/** task_grow() of kernel/task.c: the user heap grows and shrinks by whole pages, with a
    rollback over the page tables when it cannot grow. */
module TaskHeap {
  import opened PageTables
  import opened TableSteps
  import opened RangeWalk
  import opened AddressSpace

  datatype GrowResult = Address(address: nat) | Error(status: Status)

  const WRITABLE := Flags(true, false, false, false, false)

  /** Between two states: same roots, and the other roots untouched. */
  ghost predicate Kept(s: State, s': State, pd: nat) {
    && s'.roots == s.roots && s'.anchored == s.anchored && s'.others == s.others && s'.mem.Keys == s.mem.Keys
    && OthersKept(s, s', pd)
  }

  /** pages is old with the pages of [start, end) added as fresh writable ones. */
  ghost predicate GrownMap(old_: PageMap, pages: PageMap, start: nat, end: nat, fresh_: set<nat>) {
    && (forall p :: p in pages <==> p in old_ || InRange(p, start, end))
    && (forall p :: p in old_ ==> p in pages && pages[p] == old_[p] && !InRange(p, start, end))
    && (forall p :: p in pages && InRange(p, start, end) ==>
          pages[p].write && !pages[p].exec && !pages[p].noaccess && pages[p].frame in fresh_)
  }

  lemma GrownMapNext(old_: PageMap, pages: PageMap, pages': PageMap, start: nat, va: nat, fresh_: set<nat>, f: nat)
    requires va % 0x1000 == 0 && start <= va && GrownMap(old_, pages, start, va, fresh_)
    requires va / 0x1000 !in pages && f in fresh_
    requires pages' == pages[va / 0x1000 := FlaggedLeaf(f, WRITABLE)]
    ensures GrownMap(old_, pages', start, va + 0x1000, fresh_)
  {
  }

  lemma ViewsToKeys(s: State, s': State, j: Key)
    requires Inv(s) && Inv(s') && s'.roots == s.roots
    requires forall r :: r in s.roots ==> View(s'.mem, r) == View(s.mem, r)
    requires j in s'.tree && j.level == 0
    ensures j in s.tree
  {
    hide Inv, View, Walk;
    KeyRoot(s', j);
    TreeIndex(s', j);
    ViewIsTree(s, j.root);
    ViewIsTree(s', j.root);
    assert j.index in TreePages(s'.tree, j.root);
  }

  lemma SameViewsSameFrames(s: State, s': State, pd: nat)
    requires Inv(s) && Inv(s') && AllFilled(s) && AllFilled(s') && Kept(s, s', pd) && KeysKept(s.tree, s'.tree)
    requires pd in s.roots ==> View(s'.mem, pd) == View(s.mem, pd)
    ensures s'.tree == s.tree && s'.free == s.free
  {
    hide Inv, View, Walk, AllFilled;
    forall j | j in s'.tree && j.level == 0 ensures j in s.tree { ViewsToKeys(s, s', j); }
    FreeRestored(s, s');
  }

  lemma ShrunkKept(s0: State, s: State, s': State, pd: nat, va: nat)
    requires Inv(s) && Inv(s') && Kept(s0, s, pd) && UserAddress(va) && Shrunk(s, s', pd, va)
    requires OthersKept(s, s', pd)
    ensures Kept(s0, s', pd)
  {
  }

  lemma KeptItself(s: State, pd: nat)
    requires Inv(s)
    ensures Kept(s, s, pd) && s.anchored <= s.roots && 0 !in s.roots
  {
    AnchoredRoots(s);
  }

  lemma ReleaseNext(pages: PageMap, start: nat, va: nat)
    requires va % 0x1000 == 0 && start <= va
    ensures InRangeMap(pages, start, va, Unmapping) - {va / 0x1000} == InRangeMap(pages, start, va + 0x1000, Unmapping)
    ensures InRangeMap(pages, start, start, Unmapping) == pages
  {
  }

  lemma GrownMapStart(pages: PageMap, start: nat, fresh_: set<nat>)
    ensures GrownMap(pages, pages, start, start, fresh_)
  {
  }

  lemma KeptThen(s0: State, s: State, s': State, pd: nat)
    requires Kept(s0, s, pd) && OthersKept(s, s', pd)
    requires s'.roots == s.roots && s'.anchored == s.anchored && s'.others == s.others && s'.mem.Keys == s.mem.Keys
    ensures Kept(s0, s', pd)
  {
  }

  /** The pages that are left while a failed growth is undone up to address q. */
  ghost predicate UndoneMap(old_: PageMap, pages: PageMap, start: nat, q: nat, va: nat) {
    && (forall p :: p in pages <==> (p in old_ || InRange(p, start, va)) && !InRange(p, start, q))
    && (forall p :: p in pages && p in old_ ==> pages[p] == old_[p])
  }

  lemma UndoneMapStart(old_: PageMap, pages: PageMap, start: nat, va: nat, fresh_: set<nat>)
    requires GrownMap(old_, pages, start, va, fresh_)
    ensures UndoneMap(old_, pages, start, start, va)
    ensures forall p :: InRange(p, start, va) ==> p !in old_
  {
  }

  lemma UndoneMapNext(old_: PageMap, pages: PageMap, start: nat, q: nat, va: nat)
    requires UndoneMap(old_, pages, start, q, va) && q % 0x1000 == 0 && start <= q
    ensures UndoneMap(old_, pages - {q / 0x1000}, start, q + 0x1000, va)
  {
  }

  lemma UndoneMapEnd(old_: PageMap, pages: PageMap, start: nat, va: nat)
    requires UndoneMap(old_, pages, start, va + 0x1000, va) && va % 0x1000 == 0 && start <= va
    requires forall p :: InRange(p, start, va) ==> p !in old_
    ensures pages == old_ - {va / 0x1000}
  {
  }

  lemma OldKeysKept(s0: State, s: State, s': State, pd: nat, va: nat)
    requires Inv(s0) && Inv(s') && AllFilled(s0) && UserAddress(va) && s'.anchored == s0.anchored && pd in s0.roots
    requires KeysKept(s0.tree, s.tree) && Shrunk(s, s', pd, va) && va / 0x1000 !in View(s0.mem, pd)
    ensures KeysKept(s0.tree, s'.tree)
  {
    hide Inv, View, Walk, Shrunk, AllFilled;
    PageInView(s0, pd, va);
    forall k | k in s0.tree ensures k in s'.tree && s'.tree[k] == s0.tree[k] {
      ShrunkKeepsFilled(s0, s, s', pd, va, k);
    }
  }

  // ----- Frames needed -----

  /** The pages of [start, end) and the tables above them that are not there; each takes a frame. */
  ghost function Missing(tree: map<Key, Pte>, root: nat, start: nat, end: nat): set<Key> {
    set p: nat, l: nat | start / 0x1000 <= p < end / 0x1000 && l <= 3 && KeyAt(root, 0x1000 * p, l) !in tree :: KeyAt(root, 0x1000 * p, l)
  }

  /** One key of four, if it is not there. */
  ghost function Absent(tree: map<Key, Pte>, root: nat, va: nat, l: nat): set<Key>
    requires l <= 3
  {
    if KeyAt(root, va, l) in tree then {} else {KeyAt(root, va, l)}
  }

  ghost predicate TreeGrown(tree0: map<Key, Pte>, tree: map<Key, Pte>, root: nat, start: nat, va: nat) {
    forall k :: k in tree <==> k in tree0 || k in Missing(tree0, root, start, va)
  }

  lemma AbsentSize(tree: map<Key, Pte>, root: nat, va: nat)
    requires KeyAt(root, va, 0) !in tree
    ensures |Absent(tree, root, va, 0) + Absent(tree, root, va, 1) + Absent(tree, root, va, 2) + Absent(tree, root, va, 3)|
            == 4 - Depth(tree, root, va)
  {
    var a0, a1, a2, a3 :=
      Absent(tree, root, va, 0), Absent(tree, root, va, 1), Absent(tree, root, va, 2), Absent(tree, root, va, 3);
    assert a0 !! a1 && a0 + a1 !! a2 && a0 + a1 + a2 !! a3;
    assert |a0 + a1| == |a0| + |a1| && |a0 + a1 + a2| == |a0 + a1| + |a2|;
  }

  lemma AbsentKeys(tree: map<Key, Pte>, root: nat, va: nat)
    ensures forall k :: k in Absent(tree, root, va, 0) + Absent(tree, root, va, 1) + Absent(tree, root, va, 2) + Absent(tree, root, va, 3)
                        <==> k.level <= 3 && k == KeyAt(root, va, k.level) && k !in tree
  {
    hide IndexAt;
  }

  /** What the next page adds. */
  lemma MissingNext(tree0: map<Key, Pte>, tree: map<Key, Pte>, root: nat, start: nat, va: nat)
    requires start % 0x1000 == 0 && va % 0x1000 == 0 && start <= va && TreeGrown(tree0, tree, root, start, va)
    requires KeyAt(root, va, 0) !in tree
    ensures |Missing(tree0, root, start, va + 0x1000)| == |Missing(tree0, root, start, va)| + 4 - Depth(tree, root, va)
    ensures forall k :: k in Missing(tree0, root, start, va + 0x1000) <==>
                        k in Missing(tree0, root, start, va) || (k.level <= 3 && k == KeyAt(root, va, k.level) && k !in tree0)
  {
    hide Depth, Missing, Absent, KeyAt;
    var m, m' := Missing(tree0, root, start, va), Missing(tree0, root, start, va + 0x1000);
    var a :=
      Absent(tree, root, va, 0) + Absent(tree, root, va, 1) + Absent(tree, root, va, 2) + Absent(tree, root, va, 3);
    MissingKeys(tree0, root, start, va);
    AbsentKeys(tree, root, va);
    assert m' == m + a && m !! a;
    AbsentSize(tree, root, va);
  }

  lemma MissingKeys(tree0: map<Key, Pte>, root: nat, start: nat, va: nat)
    requires start % 0x1000 == 0 && va % 0x1000 == 0 && start <= va
    ensures forall k :: k in Missing(tree0, root, start, va + 0x1000) <==>
                        k in Missing(tree0, root, start, va) || (k.level <= 3 && k == KeyAt(root, va, k.level) && k !in tree0)
  {
    hide KeyAt;
    KeyLevels(root);
    forall k ensures k in Missing(tree0, root, start, va + 0x1000) <==>
                     k in Missing(tree0, root, start, va) || (k.level <= 3 && k == KeyAt(root, va, k.level) && k !in tree0)
    {
      var p := va / 0x1000;
      assert va == 0x1000 * p;
      if k in Missing(tree0, root, start, va + 0x1000) {
        var q: nat, l: nat :| start / 0x1000 <= q < p + 1 && l <= 3 && KeyAt(root, 0x1000 * q, l) !in tree0 && k == KeyAt(root, 0x1000 * q, l);
      }
    }
  }

  lemma KeyLevels(root: nat)
    ensures forall va: nat, l: nat :: l <= 3 ==> KeyAt(root, va, l).level == l
  {
  }

  lemma MissingGrows(tree: map<Key, Pte>, root: nat, start: nat, end: nat, end': nat)
    requires end <= end'
    ensures |Missing(tree, root, start, end)| <= |Missing(tree, root, start, end')|
  {
    hide KeyAt;
    var a, b := Missing(tree, root, start, end), Missing(tree, root, start, end');
    assert a <= b;
    assert b == a + (b - a);
  }

  lemma TreeGrownNext(tree0: map<Key, Pte>, tree: map<Key, Pte>, tree': map<Key, Pte>, root: nat, start: nat, va: nat)
    requires start % 0x1000 == 0 && va % 0x1000 == 0 && start <= va && TreeGrown(tree0, tree, root, start, va)
    requires forall k :: k in tree' <==> k in tree || (k.level <= 3 && k == KeyAt(root, va, k.level))
    ensures TreeGrown(tree0, tree', root, start, va + 0x1000)
  {
    hide KeyAt, Missing;
    MissingKeys(tree0, root, start, va);
  }

  lemma TreeGrownStart(tree: map<Key, Pte>, root: nat, start: nat)
    ensures TreeGrown(tree, tree, root, start, start) && Missing(tree, root, start, start) == {}
  {
    hide KeyAt;
  }

  /** There are frames for all pages of [start, end) and their tables. */
  ghost predicate Enough(s: State, pd: nat, start: nat, end: nat) { |Missing(s.tree, pd, start, end)| <= |s.free| }

  /** A page is in the way, and there are frames for all the pages before it. */
  ghost predicate Blocked(s: State, pd: nat, start: nat, end: nat) {
    exists p: nat ::
      && InRange(p, start, end) && p in View(s.mem, pd)
      && (forall q: nat :: InRange(q, start, 0x1000 * p) ==> q !in View(s.mem, pd))
      && Enough(s, pd, start, 0x1000 * p)
  }

  ghost predicate Unmapped(s: State, pd: nat, start: nat, end: nat) {
    forall q: nat :: InRange(q, start, end) ==> q !in View(s.mem, pd)
  }

  /** The growth stops at a page that is in the way. */
  lemma StopsAt(s: State, pd: nat, start: nat, va: nat, end: nat)
    requires start % 0x1000 == 0 && va % 0x1000 == 0 && start <= va < end && va / 0x1000 in View(s.mem, pd)
    requires Unmapped(s, pd, start, va) && |Missing(s.tree, pd, start, va)| <= |s.free|
    ensures Blocked(s, pd, start, end) && !Unmapped(s, pd, start, end)
  {
    hide View, Missing;
    var p := va / 0x1000;
    assert 0x1000 * p == va && InRange(p, start, end);
  }

  /** It stops for want of memory before it meets one. */
  lemma RunsOut(s: State, pd: nat, start: nat, va: nat, end: nat)
    requires start % 0x1000 == 0 && va % 0x1000 == 0 && end % 0x1000 == 0 && start <= va < end
    requires va / 0x1000 !in View(s.mem, pd)
    requires Unmapped(s, pd, start, va) && |Missing(s.tree, pd, start, va + 0x1000)| > |s.free|
    ensures !Blocked(s, pd, start, end) && |Missing(s.tree, pd, start, end)| > |s.free|
  {
    hide View, Missing;
    MissingGrows(s.tree, pd, start, va + 0x1000, end);
    forall p: nat | InRange(p, start, end) && p in View(s.mem, pd)
      ensures |Missing(s.tree, pd, start, 0x1000 * p)| > |s.free|
    {
      assert !InRange(p, start, va);
      MissingGrows(s.tree, pd, start, va + 0x1000, 0x1000 * p);
    }
  }

  lemma GrownUnmapped(s: State, pages: PageMap, pd: nat, start: nat, va: nat)
    requires GrownMap(View(s.mem, pd), pages, start, va, s.free)
    ensures Unmapped(s, pd, start, va)
  {
    hide View;
  }

  lemma NotBlocked(s: State, pd: nat, start: nat, end: nat)
    requires Unmapped(s, pd, start, end)
    ensures !Blocked(s, pd, start, end)
  {
    hide View, Missing;
  }

  class Task {
    var pd: nat
    var heapEnd: nat
    var native: bool

    /** A task whose heap is empty. */
    constructor (pd: nat, native: bool)
      ensures this.pd == pd && this.native == native && heapEnd == Base() && HeapOk()
    {
      this.pd, this.native := pd, native;
      heapEnd := if native then 0x10_0000_0000 else 0x5000_0000;
    }

    function Base(): nat
      reads this
    {
      if native then 0x10_0000_0000 else 0x5000_0000
    }

    function Limit(): nat
      reads this
    {
      if native then 0x4000_0000_0000 else 0x7000_0000
    }

    predicate HeapOk()
      reads this
    {
      Base() <= heapEnd <= Limit() && heapEnd % 0x1000 == 0
    }

    method Grow(m: PhysicalMemory, delta: int) returns (r: GrowResult)
      requires m.Valid() && pd in m.anchored && HeapOk()
      modifies this`heapEnd, m
      ensures m.Valid() && HeapOk() && Kept(old(m.S()), m.S(), pd) && (AllFilled(old(m.S())) ==> AllFilled(m.S()))
      ensures r.Address? ==> r.address == old(heapEnd) && heapEnd == old(heapEnd) + delta * 0x1000
      ensures r.Address? && delta == 0 ==> m.S() == old(m.S())
      ensures r.Address? && delta < 0 ==>
                m.Pages(pd) == InRangeMap(old(m.Pages(pd)), heapEnd, old(heapEnd), Unmapping)
      ensures r.Address? && delta > 0 ==>
                GrownMap(old(m.Pages(pd)), m.Pages(pd), old(heapEnd), heapEnd, old(m.free))
      ensures r.Error? ==> heapEnd == old(heapEnd)
      ensures r == Error(Invalid) <==> delta < 0 && -delta > (old(heapEnd) - Base()) / 0x1000
      ensures r == Error(Invalid) ==> m.S() == old(m.S())
      ensures r == Error(NoMemory) ==>
                && m.Pages(pd) == old(m.Pages(pd))
                && (AllFilled(old(m.S())) ==> m.tree == old(m.tree) && m.free == old(m.free))
      ensures 0 < delta <= (Limit() - old(heapEnd)) / 0x1000 && delta <= |old(m.free)| ==>
                var end := old(heapEnd) + delta * 0x1000;
                && (r == Error(Exists) <==> Blocked(old(m.S()), pd, old(heapEnd), end))
                && (r.Address? <==> Unmapped(old(m.S()), pd, old(heapEnd), end) && Enough(old(m.S()), pd, old(heapEnd), end))
      ensures r.Error? && Unmapped(old(m.S()), pd, old(heapEnd), old(heapEnd) + (if delta < 0 then 0 else delta) * 0x1000) ==>
                && m.Pages(pd) == old(m.Pages(pd))
                && (AllFilled(old(m.S())) ==> m.tree == old(m.tree) && m.free == old(m.free))
      ensures r == Error(Exists) ==>
                exists p :: p in old(m.Pages(pd)) && InRange(p, old(heapEnd), old(heapEnd) + delta * 0x1000)
                            && m.Pages(pd) == old(m.Pages(pd)) - {p}
      ensures r != Error(Fault) && r != Error(Ok)
    {
      hide Inv, View, Walk, AllFilled, OthersKept, Missing, Blocked;
      KeptItself(m.S(), pd);
      var start := heapEnd;
      if delta == 0 { return Address(start); }
      if delta < 0 {
        if -delta > (start - Base()) / 0x1000 { return Error(Invalid); }
        var end := start + delta * 0x1000;
        Release(m, end, start);
        heapEnd := end;
        return Address(start);
      }
      if delta > (Limit() - start) / 0x1000 { return Error(NoMemory); }
      if delta > |m.free| { return Error(NoMemory); }
      var end := start + delta * 0x1000;
      var status := Acquire(m, start, end);
      if status != Ok { return Error(status); }
      heapEnd := end;
      return Address(start);
    }

    /** Unmaps the pages of [start, end) one after the other. */
    method Release(m: PhysicalMemory, start: nat, end: nat)
      requires m.Valid() && pd in m.anchored && start % 0x1000 == 0 && end % 0x1000 == 0
      requires 0x4000_0000 <= start <= end <= 0x8000_0000_0000
      modifies m
      ensures m.Valid() && Kept(old(m.S()), m.S(), pd) && (AllFilled(old(m.S())) ==> AllFilled(m.S()))
      ensures m.Pages(pd) == InRangeMap(old(m.Pages(pd)), start, end, Unmapping)
    {
      hide Inv, View, Walk, AllFilled, OthersKept;
      var va := start;
      ghost var s0 := m.S();
      KeptItself(s0, pd);
      ReleaseNext(View(s0.mem, pd), start, start);
      while va < end
        invariant start <= va <= end && va % 0x1000 == 0
        invariant m.Valid() && Kept(s0, m.S(), pd) && pd in m.anchored && (AllFilled(s0) ==> AllFilled(m.S()))
        invariant m.Pages(pd) == InRangeMap(old(m.Pages(pd)), start, va, Unmapping)
        decreases end - va
      {
        ghost var s1 := m.S();
        m.Unmap(pd, va);
        ShrunkKept(s0, s1, m.S(), pd, va);
        ReleaseNext(View(s0.mem, pd), start, va);
        va := va + 0x1000;
      }
    }

    /** Maps fresh pages over [start, end), or undoes what it did. */
    method Acquire(m: PhysicalMemory, start: nat, end: nat) returns (r: Status)
      requires m.Valid() && pd in m.anchored && start % 0x1000 == 0 && end % 0x1000 == 0
      requires 0x4000_0000 <= start < end <= 0x8000_0000_0000
      modifies m
      ensures m.Valid() && Kept(old(m.S()), m.S(), pd) && (AllFilled(old(m.S())) ==> AllFilled(m.S()))
      ensures r == Ok ==> GrownMap(old(m.Pages(pd)), m.Pages(pd), start, end, old(m.free))
      ensures r == NoMemory ==>
                && m.Pages(pd) == old(m.Pages(pd))
                && (AllFilled(old(m.S())) ==> m.tree == old(m.tree) && m.free == old(m.free))
      ensures r == Exists ==> exists p :: p in old(m.Pages(pd)) && InRange(p, start, end)
                                          && m.Pages(pd) == old(m.Pages(pd)) - {p}
      ensures r == Ok || r == NoMemory || r == Exists
      ensures r == Exists <==> Blocked(old(m.S()), pd, start, end)
      ensures r == Ok <==> Unmapped(old(m.S()), pd, start, end) && Enough(old(m.S()), pd, start, end)
    {
      hide Inv, View, Walk, AllFilled, OthersKept, GrownMap, Depth, Missing, Blocked, Unmapped, TreeGrown, KeyAt;
      var va := start;
      ghost var s0 := m.S();
      KeptItself(s0, pd);
      GrownMapStart(View(s0.mem, pd), start, s0.free);
      TreeGrownStart(s0.tree, pd, start);
      while va < end
        invariant start <= va <= end && va % 0x1000 == 0
        invariant m.Valid() && Kept(s0, m.S(), pd) && pd in m.anchored && KeysKept(s0.tree, m.tree)
        invariant AllFilled(s0) ==> AllFilled(m.S())
        invariant GrownMap(old(m.Pages(pd)), m.Pages(pd), start, va, s0.free) && m.free <= s0.free
        invariant TreeGrown(s0.tree, m.tree, pd, start, va) && |Missing(s0.tree, pd, start, va)| + |m.free| == |s0.free|
        decreases end - va
      {
        ghost var s1 := m.S();
        GrownUnmapped(s0, View(s1.mem, pd), pd, start, va);
        PageInView(s1, pd, va);
        if va / 0x1000 !in View(s1.mem, pd) { MissingNext(s0.tree, s1.tree, pd, start, va); }
        var status := m.Map(pd, va, WRITABLE);
        KeptThen(s0, s1, m.S(), pd);
        if status != Ok {
          Rollback(m, start, va, s0, status);
          if status == Exists { StopsAt(s0, pd, start, va, end); } else { RunsOut(s0, pd, start, va, end); }
          return status;
        }
        ghost var f :| f in s1.free && m.Pages(pd) == View(s1.mem, pd)[va / 0x1000 := FlaggedLeaf(f, WRITABLE)];
        GrownMapNext(View(s0.mem, pd), View(s1.mem, pd), m.Pages(pd), start, va, s0.free, f);
        TreeGrownNext(s0.tree, s1.tree, m.tree, pd, start, va);
        va := va + 0x1000;
      }
      GrownUnmapped(s0, m.Pages(pd), pd, start, end);
      NotBlocked(s0, pd, start, end);
      return Ok;
    }

    /** Unmaps every page from start up to and including the one that could not be mapped. */
    method Rollback(m: PhysicalMemory, start: nat, va: nat, ghost s0: State, status: Status)
      requires m.Valid() && Inv(s0) && Kept(s0, m.S(), pd) && pd in m.anchored && (AllFilled(s0) ==> AllFilled(m.S()))
      requires start % 0x1000 == 0 && va % 0x1000 == 0 && 0x4000_0000 <= start <= va < 0x8000_0000_0000
      requires GrownMap(View(s0.mem, pd), m.Pages(pd), start, va, s0.free)
      requires AllFilled(s0) ==> KeysKept(s0.tree, m.tree)
      requires status == Exists || status == NoMemory
      requires status == Exists <==> va / 0x1000 in m.Pages(pd)
      modifies m
      ensures m.Valid() && Kept(s0, m.S(), pd) && (AllFilled(s0) ==> AllFilled(m.S()))
      ensures m.Pages(pd) == View(s0.mem, pd) - {va / 0x1000}
      ensures va / 0x1000 in View(s0.mem, pd) <==> status == Exists
      ensures status == NoMemory && AllFilled(s0) ==> m.tree == s0.tree && m.free == s0.free
    {
      hide Inv, View, Walk, AllFilled, OthersKept, Shrunk, PathFilled, UndoneMap;
      KeptItself(s0, pd);
      UndoneMapStart(View(s0.mem, pd), m.Pages(pd), start, va, s0.free);
      assert va / 0x1000 in View(s0.mem, pd) <==> status == Exists;
      var q := start;
      while q <= va
        invariant start <= q <= va + 0x1000 && q % 0x1000 == 0
        invariant m.Valid() && Kept(s0, m.S(), pd) && pd in m.anchored && (AllFilled(s0) ==> AllFilled(m.S()))
        invariant UndoneMap(View(s0.mem, pd), m.Pages(pd), start, q, va)
        invariant status == NoMemory && AllFilled(s0) ==> KeysKept(s0.tree, m.tree)
        decreases va + 0x1000 - q
      {
        ghost var s1 := m.S();
        m.Unmap(pd, q);
        ShrunkKept(s0, s1, m.S(), pd, q);
        UndoneMapNext(View(s0.mem, pd), View(s1.mem, pd), start, q, va);
        if status == NoMemory && AllFilled(s0) { OldKeysKept(s0, s1, m.S(), pd, q); }
        q := q + 0x1000;
      }
      UndoneMapEnd(View(s0.mem, pd), m.Pages(pd), start, va);
      if status == NoMemory {
        assert m.Pages(pd) == View(s0.mem, pd);
        if AllFilled(s0) { SameViewsSameFrames(s0, m.S(), pd); }
      }
    }
  }

  /** A failed growth can lose a page: with a page mapped at the end of the heap, task_grow(1) fails because of that
      page and unmaps it. */
  method LostPage() returns (m: PhysicalMemory, t: Task, r: GrowResult, ghost before: PageMap)
    ensures m.Valid() && r == Error(Exists) && t.heapEnd == t.Base()
    ensures before.Keys == {t.heapEnd / 0x1000} && m.Pages(t.pd) == map[]
  {
    hide Inv, View, Walk, AllFilled, OthersKept, Missing, FramesOf, Filled, DataSame, SameFrames, KeysKept, KeyAt,
      GrownMap, Unmapped, Kept, PathFilled, Depth;
    var pd;
    m, pd := OneRoot();
    OneRootFilled(m.S(), pd);
    var status := m.Map(pd, 0x5000_0000, WRITABLE);
    t := new Task(pd, false);
    before := m.Pages(pd);
    ghost var p: nat := 0x5_0000;
    assert p in before && InRange(p, 0x5000_0000, 0x5000_1000);
    NothingMissing(m.tree, pd, 0x5000_0000);
    assert Blocked(m.S(), pd, 0x5000_0000, 0x5000_1000);
    r := t.Grow(m, 1);
  }

  lemma OneRootFilled(s: State, root: nat)
    requires s.roots == {root} && s.anchored == s.roots && Filled(s, root)
    ensures AllFilled(s)
  {
    hide Filled;
  }

  lemma NothingMissing(tree: map<Key, Pte>, root: nat, start: nat)
    ensures Missing(tree, root, start, start) == {}
  {
    hide KeyAt;
  }
}
