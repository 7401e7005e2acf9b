/** The virtual-memory operations of kernel/memory64.c, as methods that write page-table
    entries in place, proved against the map from pages to leaves of each root. */
module AddressSpace {
  import opened PageTables
  import opened TableSteps
  import opened RangeWalk

  class PhysicalMemory {
    var mem: Memory
    var free: set<nat>
    ghost var roots: set<nat>
    ghost var anchored: set<nat>
    ghost var tree: map<Key, Pte>
    ghost var owner: map<nat, Key>
    ghost var others: set<nat>

    ghost function S(): State
      reads this
    {
      State(mem, roots, anchored, tree, owner, free, others)
    }

    ghost predicate Valid()
      reads this
    {
      Inv(S())
    }

    /** The pages of a root. */
    ghost function Pages(root: nat): PageMap
      reads this
    {
      View(mem, root)
    }

    /** Memory in which nothing is in use. */
    constructor (frames: set<nat>)
      requires 0 !in frames
      ensures Valid() && roots == {} && anchored == {} && free == frames && others == {}
    {
      mem, free := map f | f in frames :: ZeroFrame(), frames;
      roots, anchored, tree, owner, others := {}, {}, map[], map[], {};
    }

    /** A zeroed frame, or 0 when no frame is free. */
    method PageAlloc() returns (p: nat)
      requires Valid()
      modifies this
      ensures Valid()
      ensures p == 0 <==> old(free) == {}
      ensures p == 0 ==> S() == old(S())
      ensures p != 0 ==> p in old(free) && S() == Allocated(old(S()), p)
    {
      hide Inv;
      FreeFrames(S());
      if free == {} { return 0; }
      p :| p in free;
      AllocateKeeps(S(), p);
      mem := mem[p := ZeroFrame()];
      free := free - {p};
      others := others + {p};
    }

    /** The precondition is what keeps page_free from stopping the machine. */
    method PageFree(p: nat)
      requires Valid() && p in others
      modifies this
      ensures Valid() && S() == Freed(old(S()), p)
    {
      hide Inv;
      FreeKeeps(S(), p);
      free := free + {p};
      others := others - {p};
    }

    method LinkEntry(ghost k: Key, t: nat, slot: nat, e: Pte)
      requires Valid() && IsTable(S(), Parent(k)) && tree[Parent(k)].frame == t && slot == k.index % 512
      requires k !in tree && Private(e, k.level) && EntryOk(e, k.level, k.index) && !Shared(k.level, k.index)
      requires e.frame in others && (k.level >= 1 ==> mem[e.frame] == ZeroFrame())
      modifies this
      ensures Valid() && S() == Linked(old(S()), k, e)
    {
      hide Inv;
      LinkKeeps(S(), k, e);
      mem := Write(mem, t, slot, e);
      tree := tree[k := e];
      owner := owner[e.frame := k];
      others := others - {e.frame};
    }

    method ClearEntry(ghost k: Key, t: nat, slot: nat)
      requires Valid() && IsTable(S(), Parent(k)) && tree[Parent(k)].frame == t && slot == k.index % 512
      requires k in tree && NoChild(S(), k) && (k.level == 3 && k.index == 0 ==> k.root !in anchored)
      modifies this
      ensures Valid() && S() == Unlinked(old(S()), k)
    {
      hide Inv;
      UnlinkKeeps(S(), k);
      mem := Write(mem, t, slot, ZERO);
      owner := owner - {tree[k].frame};
      others := others + {tree[k].frame};
      tree := tree - {k};
    }

    method SetPageEntry(ghost k: Key, t: nat, slot: nat, e: Pte)
      requires Valid() && IsTable(S(), Parent(k)) && tree[Parent(k)].frame == t && slot == k.index % 512
      requires k in tree && k.level == 0 && e.present && EntryOk(e, 0, k.index) && e.frame == tree[k].frame
      modifies this
      ensures Valid() && S() == Reflagged(old(S()), k, e)
    {
      hide Inv;
      ReflagKeeps(S(), k, e);
      mem := Write(mem, t, slot, e);
      tree := tree[k := e];
    }

    /** The table behind a slot on the path to va, checked as a walk checks it. */
    method PathTable(root: nat, va: nat, level: nat, t: nat, write: bool) returns (found: bool, next: nat)
      requires Valid() && root in roots && UserAddress(va) && 1 <= level <= 3
      requires KeyAt(root, va, level + 1) in tree && tree[KeyAt(root, va, level + 1)].frame == t
      ensures found <==> KeyAt(root, va, level) in tree
      ensures found ==> tree[KeyAt(root, va, level)].frame == next
      ensures !found ==> !Entry(mem, t, IndexAt(va, level) % 512).present
    {
      ghost var k := KeyAt(root, va, level);
      KeyAtParent(root, va, level);
      assert SlotOk(S(), Parent(k), k.index % 512);
      assert Child(Parent(k), k.index % 512) == k;
      assert k in tree ==> KeyOk(S(), k);
      var entry := mem[t][IndexAt(va, level) % 512];
      if !(entry.present && entry.user && !entry.huge && (write ==> entry.write)) { return false, 0; }
      return true, entry.frame;
    }

    /** Puts a zeroed table behind a slot on the path to va. */
    method AddTable(root: nat, va: nat, level: nat, t: nat, ghost s0: State) returns (p: nat)
      requires Valid() && root in roots && UserAddress(va) && 1 <= level <= 3
      requires KeyAt(root, va, level + 1) in tree && tree[KeyAt(root, va, level + 1)].frame == t
      requires KeyAt(root, va, level) !in tree && Grown(s0, S(), root, va)
      modifies this
      ensures Valid() && Grown(s0, S(), root, va) && root in roots
      ensures p == 0 ==> S() == old(S()) && free == {} && KeyAt(root, va, level) !in tree
      ensures p != 0 ==> KeyAt(root, va, level) in tree && tree[KeyAt(root, va, level)].frame == p
    {
      ghost var k := KeyAt(root, va, level);
      KeyAtParent(root, va, level);
      ghost var s1 := S();
      hide Grown, TreeOk, RootsOk;
      p := PageAlloc();
      if p != 0 {
        LinkEntry(k, t, IndexAt(va, level) % 512, Pte(p, true, true, true, false, false, false));
        GrownByTable(s0, s1, S(), root, va, level, p);
      }
    }

    /** leaf() with creation: the table that holds the page entry of va, built if need be. */
    method BuildTables(root: nat, va: nat) returns (found: bool, t: nat)
      requires Valid() && root in roots && UserAddress(va)
      modifies this
      ensures Valid() && Grown(old(S()), S(), root, va)
      ensures KeyAt(root, va, 1) in old(tree) ==> S() == old(S())
      ensures found <==> KeyAt(root, va, 1) in tree
      ensures found ==> tree[KeyAt(root, va, 1)].frame == t
      ensures !found ==> free == {}
    {
      hide Inv, Grown;
      GrownFromItself(S(), root, va);
      RootOnPath(S(), root, va);
      t := root;
      var level := 3;
      while level > 0
        invariant 0 <= level <= 3 && Valid() && root in roots
        invariant Grown(old(S()), S(), root, va)
        invariant KeyAt(root, va, 1) in old(tree) ==> S() == old(S())
        invariant KeyAt(root, va, level + 1) in tree && tree[KeyAt(root, va, level + 1)].frame == t
      {
        var ok, next := PathTable(root, va, level, t, false);
        if !ok {
          TablesAbove(S(), root, va, level, 1);
          next := AddTable(root, va, level, t, old(S()));
          if next == 0 {
            TablesAbove(S(), root, va, level, 1);
            return false, 0;
          }
        }
        t := next;
        level := level - 1;
      }
      found := true;
    }

    /** Whether the page entry of va belongs to the address space. */
    method HasPage(root: nat, va: nat, t: nat) returns (r: bool)
      requires Valid() && root in roots && UserAddress(va)
      requires KeyAt(root, va, 1) in tree && tree[KeyAt(root, va, 1)].frame == t
      ensures r <==> KeyAt(root, va, 0) in tree
      ensures r ==> tree[KeyAt(root, va, 0)] == Entry(mem, t, IndexAt(va, 0) % 512)
      ensures !r ==> !Entry(mem, t, IndexAt(va, 0) % 512).present
    {
      ghost var k := KeyAt(root, va, 0);
      KeyAtParent(root, va, 0);
      assert SlotOk(S(), Parent(k), k.index % 512);
      assert Child(Parent(k), k.index % 512) == k;
      assert k in tree ==> KeyOk(S(), k);
      var entry := mem[t][IndexAt(va, 0) % 512];
      return entry.present && (entry.user || entry.noaccess);
    }

    /** empty(): no entry of the table is present. */
    method IsEmpty(t: nat, ghost k: Key) returns (r: bool)
      requires Valid() && k in tree && tree[k].frame == t
      ensures r <==> Empty(mem, t)
    {
      for i := 0 to 512
        invariant forall j :: 0 <= j < i ==> !Entry(mem, t, j).present
      {
        if mem[t][i].present {
          assert Entry(mem, t, i).present;
          return false;
        }
      }
      return true;
    }

    /** Clears the slot of a childless Key on the path and frees the frame it held. */
    method Drop(root: nat, va: nat, level: nat, t: nat, ghost s0: State)
      requires Valid() && level <= 3 && va < 0x1_0000_0000_0000 && Inv(s0) && Shrunk(s0, S(), root, va)
      requires KeyAt(root, va, level) in tree && NoChild(S(), KeyAt(root, va, level))
      requires KeyAt(root, va, level) == Key(root, 3, 0) ==> root !in anchored
      requires KeyAt(root, va, level + 1) in tree && tree[KeyAt(root, va, level + 1)].frame == t
      modifies this
      ensures Valid() && Shrunk(s0, S(), root, va) && roots == old(roots) && anchored == old(anchored)
      ensures tree == old(tree) - {KeyAt(root, va, level)}
    {
      ghost var k := KeyAt(root, va, level);
      KeyAtParent(root, va, level);
      assert KeyOk(S(), k);
      hide Shrunk, TreeOk, RootsOk;
      ghost var s1 := S();
      var f := mem[t][IndexAt(va, level) % 512].frame;
      ClearEntry(k, t, IndexAt(va, level) % 512);
      PageFree(f);
      ShrunkByClear(s0, s1, S(), root, va, level);
    }

    /** The frames of the tables on the path to va, as far as they exist. */
    method Descend(root: nat, va: nat) returns (levels: seq<nat>)
      requires Valid() && root in roots && UserAddress(va)
      ensures 1 <= |levels| <= 4 && PathFrames(S(), root, va, levels)
      ensures forall l :: 0 <= l <= 4 - |levels| && |levels| < 4 ==> KeyAt(root, va, l) !in tree
    {
      hide Inv;
      levels := [root];
      RootOnPath(S(), root, va);
      while |levels| < 4
        invariant 1 <= |levels| <= 4 && PathFrames(S(), root, va, levels)
      {
        var level := 4 - |levels|;
        assert KeyAt(root, va, level + 1) in tree;
        var found, next := PathTable(root, va, level, levels[|levels| - 1], false);
        if !found {
          forall l | 0 <= l <= level ensures KeyAt(root, va, l) !in tree { TablesAbove(S(), root, va, level, l); }
          return;
        }
        levels := levels + [next];
      }
    }

    /** Frees tables upwards from the last of levels while they are empty. */
    method Prune(root: nat, va: nat, levels: seq<nat>, ghost s0: State)
      requires Valid() && root in anchored && UserAddress(va) && Inv(s0) && Shrunk(s0, S(), root, va)
      requires 1 <= |levels| <= 4 && PathFrames(S(), root, va, levels)
      requires forall l :: 0 <= l <= 4 - |levels| ==> KeyAt(root, va, l) !in tree
      modifies this
      ensures Valid() && Shrunk(s0, S(), root, va) && PathFilled(S(), root, va) && KeyAt(root, va, 0) !in tree
    {
      hide Inv, Shrunk;
      var depth := |levels| - 1;
      while depth > 0
        invariant 0 <= depth < |levels| && Valid() && Shrunk(s0, S(), root, va) && root in anchored
        invariant PathFrames(S(), root, va, levels[..depth + 1])
        invariant forall l :: 0 <= l < 4 - depth ==> KeyAt(root, va, l) !in tree
      {
        ghost var k := KeyAt(root, va, 4 - depth);
        assert k in tree && tree[k].frame == levels[depth];
        var none := IsEmpty(levels[depth], k);
        if !none { break; }
        EmptyHasNoChild(S(), k);
        assert KeyAt(root, va, 5 - depth) in tree && tree[KeyAt(root, va, 5 - depth)].frame == levels[depth - 1];
        Drop(root, va, 4 - depth, levels[depth - 1], s0);
        depth := depth - 1;
      }
      assert KeyAt(root, va, 4 - depth) in tree;
      FilledPath(S(), root, va, 4 - depth);
    }

    /** vm_unmap(): gives up the page at va and every table that this leaves empty. */
    method Unmap(root: nat, va: nat)
      requires Valid() && (root == 0 || root in anchored)
      modifies this
      ensures Valid()
      ensures root == 0 || !UserAddress(va) ==> S() == old(S())
      ensures root != 0 && UserAddress(va) ==>
                && Shrunk(old(S()), S(), root, va) && KeyAt(root, va, 0) !in tree && PathFilled(S(), root, va)
                && Pages(root) == old(Pages(root)) - {va / 0x1000} && OthersKept(old(S()), S(), root)
      ensures AllFilled(old(S())) ==> AllFilled(S())
      ensures DataSame(old(S()), S())
      ensures SameFrames(old(S()), S())
      ensures roots == old(roots) && anchored == old(anchored)
    {
      hide Inv, Shrunk, AllFilled;
      AnchoredRoots(S());
      if root == 0 || !UserAddress(va) { return; }
      ghost var s0 := S();
      ShrunkFromItself(s0, root, va);
      var levels := Descend(root, va);
      if |levels| == 4 {
        assert KeyAt(root, va, 1) in tree && tree[KeyAt(root, va, 1)].frame == levels[3];
        var mapped := HasPage(root, va, levels[3]);
        if mapped {
          PageHasNoChild(S(), KeyAt(root, va, 0));
          Drop(root, va, 0, levels[3], s0);
        }
      }
      Prune(root, va, levels, s0);
      ShrunkPages(s0, S(), root, va);
      if AllFilled(s0) { AllFilledShrunk(s0, S(), root, va); }
      ShrunkData(s0, S(), root, va);
      ShrunkRoots(s0, S(), root, va);
    }

    /** leaf() without creation: the table that holds the page entry of va. */
    method FindTable(root: nat, va: nat) returns (found: bool, t: nat)
      requires Valid() && (root == 0 || root in roots)
      ensures root == 0 || !UserAddress(va) ==> !found
      ensures root != 0 && UserAddress(va) ==> (found <==> KeyAt(root, va, 1) in tree)
      ensures found ==> tree[KeyAt(root, va, 1)].frame == t && t in mem && |mem[t]| == 512
      ensures !found && root != 0 && UserAddress(va) ==> va / 0x1000 !in Pages(root)
    {
      hide Inv, View, Walk;
      if root == 0 || !UserAddress(va) { return false, 0; }
      var levels := Descend(root, va);
      PageInView(S(), root, va);
      if |levels| < 4 { return false, 0; }
      assert KeyAt(root, va, 1) in tree && tree[KeyAt(root, va, 1)].frame == levels[3];
      TableFrame(S(), KeyAt(root, va, 1));
      return true, levels[3];
    }

    /** The slot of a page under the last table on its path. */
    method MapPage(root: nat, va: nat, t: nat, f: Flags) returns (p: nat)
      requires Valid() && root in roots && UserAddress(va) && UserPermissions(f)
      requires KeyAt(root, va, 1) in tree && tree[KeyAt(root, va, 1)].frame == t && KeyAt(root, va, 0) !in tree
      modifies this
      ensures Valid() && roots == old(roots) && anchored == old(anchored)
      ensures p == 0 <==> old(free) == {}
      ensures p == 0 ==> S() == old(S())
      ensures p != 0 ==>
                && p in old(free) && p in mem && mem[p] == ZeroFrame()
                && tree == old(tree)[KeyAt(root, va, 0) := PageEntry(p, f)]
                && free == old(free) - {p}
                && others == old(others) && mem.Keys == old(mem.Keys)
                && (forall g :: DataFrame(old(S()), g) ==> DataFrame(S(), g) && mem[g] == old(mem)[g])
    {
      ghost var k := KeyAt(root, va, 0);
      KeyAtParent(root, va, 0);
      hide TreeOk, RootsOk, Write;
      p := PageAlloc();
      if p != 0 { LinkEntry(k, t, IndexAt(va, 0) % 512, PageEntry(p, f)); }
    }

    /** Takes back the tables of a mapping that found no frame. */
    method UndoMap(root: nat, va: nat, ghost s0: State)
      requires Valid() && Inv(s0) && root in s0.anchored && UserAddress(va) && Grown(s0, S(), root, va)
      requires KeyAt(root, va, 0) !in s0.tree
      modifies this
      ensures Valid() && roots == s0.roots && anchored == s0.anchored && OthersKept(s0, S(), root)
      ensures Pages(root) == View(s0.mem, root) && s0.free <= free
      ensures free == s0.free <==> PathFilled(s0, root, va)
      ensures PathFilled(s0, root, va) ==> tree == s0.tree
      ensures DataSame(s0, S())
      ensures others == s0.others && mem.Keys == s0.mem.Keys
    {
      hide Inv, PathFilled, Depth, View, Walk;
      ghost var s1 := S();
      AnchoredRoots(s0);
      AnchoredRoots(s1);
      Unmap(root, va);
      RollbackRestores(s0, s1, S(), root, va);
      RollbackData(s0, s1, S(), root, va);
      RollbackOthers(s0, s1, S(), root, va);
      forall r | r in s0.roots ensures View(S().mem, r) == View(s0.mem, r) { SamePages(s0, S(), r); }
    }

    /** vm_map(): a fresh zeroed page at va. */
    method Map(root: nat, va: nat, f: Flags) returns (r: Status)
      requires Valid() && (root == 0 || root in anchored)
      modifies this
      ensures Valid() && r != Fault && roots == old(roots) && anchored == old(anchored)
      ensures r == Invalid <==> root == 0 || !UserAddress(va) || va % 0x1000 != 0 || !UserPermissions(f)
      ensures r == Invalid || r == Exists ==> S() == old(S())
      ensures r != Invalid ==> OthersKept(old(S()), S(), root)
      ensures r != Invalid ==> (r == Exists <==> va / 0x1000 in old(Pages(root)))
      ensures r == NoMemory ==> |old(free)| < 4 - Depth(old(tree), root, va)
      ensures r == NoMemory ==> Pages(root) == old(Pages(root)) && old(free) <= free
      ensures r == NoMemory ==> (free == old(free) <==> PathFilled(old(S()), root, va))
      ensures r == NoMemory && PathFilled(old(S()), root, va) ==> tree == old(tree)
      ensures AllFilled(old(S())) ==> AllFilled(S()) && (r == NoMemory ==> free == old(free))
      ensures r == Ok ==> free <= old(free) && |free| == |old(free)| - (4 - Depth(old(tree), root, va))
      ensures r == Ok ==> forall k :: k in tree <==> k in old(tree) || (k.level <= 3 && k == KeyAt(root, va, k.level))
      ensures r == Ok || AllFilled(old(S())) ==>
                KeysKept(old(tree), tree) && others == old(others) && mem.Keys == old(mem.Keys)
      ensures r == Ok ==> exists p :: p in old(free) && p in mem && mem[p] == ZeroFrame()
                            && Pages(root) == old(Pages(root))[va / 0x1000 := FlaggedLeaf(p, f)]
      ensures DataSame(old(S()), S())
      ensures SameFrames(old(S()), S())
    {
      hide Inv, Grown, PathFilled, Depth, View, Walk, KeyAt, AllFilled;
      if root == 0 || !UserAddress(va) || va % 0x1000 != 0 || !UserPermissions(f) { return Invalid; }
      ghost var s0 := S();
      AnchoredRoots(s0);
      if AllFilled(s0) { FilledPathOf(s0, root, va); }
      PageInView(s0, root, va);
      PageHasTables(s0, root, va);
      var found, t := BuildTables(root, va);
      GrownDepth(s0, S(), root, va);
      GrownFacts(s0, S(), root, va);
      if !found {
        UndoMap(root, va, s0);
        if AllFilled(s0) { AllFilledSame(s0, S()); }
        return NoMemory;
      }
      var mapped := HasPage(root, va, t);
      if mapped { return Exists; }
      ghost var s1 := S();
      var p := MapPage(root, va, t, f);
      if p == 0 {
        UndoMap(root, va, s0);
        if AllFilled(s0) { AllFilledSame(s0, S()); }
        return NoMemory;
      }
      MappedPage(s0, s1, S(), root, va, p, f);
      MappedData(s0, s1, S(), root, va);
      MappedKeys(s0, s1, S(), root, va, PageEntry(p, f));
      MappedTree(s0, s1, S(), root, va, PageEntry(p, f));
      if AllFilled(s0) { AllFilledMapped(s0, s1, S(), root, va, PageEntry(p, f)); }
      return Ok;
    }

    /** vm_translate(): the frame behind an accessible user address. */
    method Translate(root: nat, va: nat) returns (physical: nat)
      requires Valid() && (root == 0 || root in roots)
      ensures physical != 0 <==>
                root != 0 && UserAddress(va) && va / 0x1000 in Pages(root) && !Pages(root)[va / 0x1000].noaccess
      ensures physical != 0 ==> physical == Pages(root)[va / 0x1000].frame * 0x1000 + va % 0x1000
    {
      hide Inv, View, Walk;
      var found, t := FindTable(root, va);
      if !found { return 0; }
      PageInView(S(), root, va);
      var mapped := HasPage(root, va, t);
      if !mapped { return 0; }
      PageBits(S(), KeyAt(root, va, 0));
      FrameNotZero(S(), KeyAt(root, va, 0));
      var e := mem[t][IndexAt(va, 0) % 512];
      if !(e.present && e.user) { return 0; }
      return e.frame * 0x1000 + va % 0x1000;
    }

    /** vm_page_flags(): a page without access reports only that. */
    method PageFlags(root: nat, va: nat) returns (r: Status, f: Flags)
      requires Valid() && (root == 0 || root in roots)
      ensures r == Ok || r == Fault
      ensures r == Ok <==> root != 0 && UserAddress(va) && va / 0x1000 in Pages(root)
      ensures r == Ok ==>
                var leaf := Pages(root)[va / 0x1000];
                f == Flags(leaf.write, leaf.exec, leaf.noaccess, false, false)
    {
      hide Inv, View, Walk;
      f := Flags(false, false, false, false, false);
      var found, t := FindTable(root, va);
      if !found { return Fault, f; }
      PageInView(S(), root, va);
      var mapped := HasPage(root, va, t);
      if !mapped { return Fault, f; }
      PageBits(S(), KeyAt(root, va, 0));
      var e := mem[t][IndexAt(va, 0) % 512];
      f := if e.noaccess then Flags(false, false, true, false, false) else Flags(e.write, !e.nx, false, false, false);
      return Ok, f;
    }

    /** vm_readonly() */
    method ReadOnly(root: nat, va: nat) returns (r: Status)
      requires Valid() && (root == 0 || root in roots)
      modifies this
      ensures Valid() && roots == old(roots) && anchored == old(anchored) && free == old(free)
      ensures r == Invalid <==> va % 0x1000 != 0
      ensures r == Ok <==> va % 0x1000 == 0 && root != 0 && UserAddress(va) && va / 0x1000 in old(Pages(root))
                           && !old(Pages(root))[va / 0x1000].noaccess
      ensures r == Ok || r == Invalid || r == Fault
      ensures r != Ok ==> S() == old(S())
      ensures AllFilled(old(S())) ==> AllFilled(S())
      ensures r == Ok ==>
                && Pages(root) == old(Pages(root))[va / 0x1000 := old(Pages(root))[va / 0x1000].(write := false)]
                && OthersKept(old(S()), S(), root)
      ensures DataSame(old(S()), S())
      ensures SameFrames(old(S()), S())
    {
      hide Inv, View, Walk, TreePages, AllFilled;
      if va % 0x1000 != 0 { return Invalid; }
      var found, t := FindTable(root, va);
      if !found { return Fault; }
      ghost var s0 := S();
      PageInView(s0, root, va);
      var mapped := HasPage(root, va, t);
      if !mapped { return Fault; }
      PageBits(s0, KeyAt(root, va, 0));
      var e := mem[t][IndexAt(va, 0) % 512];
      if !(e.present && e.user) { return Fault; }
      WritePage(root, va, t, e.(write := false));
      ReflaggedPage(s0, S(), root, va, e.(write := false));
      if AllFilled(s0) { AllFilledSame(s0, S()); }
      DataSameFrom(s0, S());
      return Ok;
    }

    /** vm_protect() */
    method Protect(root: nat, va: nat, f: Flags) returns (r: Status)
      requires Valid() && (root == 0 || root in roots)
      modifies this
      ensures Valid() && roots == old(roots) && anchored == old(anchored) && free == old(free)
      ensures r == Invalid <==> va % 0x1000 != 0 || !UserPermissions(f)
      ensures r == Ok <==> va % 0x1000 == 0 && UserPermissions(f) && root != 0 && UserAddress(va)
                           && va / 0x1000 in old(Pages(root))
      ensures r == Ok || r == Invalid || r == Fault
      ensures r != Ok ==> S() == old(S())
      ensures AllFilled(old(S())) ==> AllFilled(S())
      ensures r == Ok ==>
                && Pages(root) == old(Pages(root))[va / 0x1000 := FlaggedLeaf(old(Pages(root))[va / 0x1000].frame, f)]
                && OthersKept(old(S()), S(), root)
      ensures DataSame(old(S()), S())
      ensures SameFrames(old(S()), S())
    {
      hide Inv, View, Walk, TreePages, AllFilled;
      if va % 0x1000 != 0 || !UserPermissions(f) { return Invalid; }
      var found, t := FindTable(root, va);
      if !found { return Fault; }
      ghost var s0 := S();
      PageInView(s0, root, va);
      var mapped := HasPage(root, va, t);
      if !mapped { return Fault; }
      PageBits(s0, KeyAt(root, va, 0));
      var e := mem[t][IndexAt(va, 0) % 512];
      var e' := Protected(e, f);
      WritePage(root, va, t, e');
      ReflaggedPage(s0, S(), root, va, e');
      if AllFilled(s0) { AllFilledSame(s0, S()); }
      DataSameFrom(s0, S());
      return Ok;
    }

    method WritePage(root: nat, va: nat, t: nat, e: Pte)
      requires Valid() && root in roots && UserAddress(va) && KeyAt(root, va, 0) in tree
      requires KeyAt(root, va, 1) in tree && tree[KeyAt(root, va, 1)].frame == t
      requires e.present && e.user != e.noaccess && (e.noaccess ==> !e.write && e.nx)
      requires e.frame == tree[KeyAt(root, va, 0)].frame
      modifies this
      ensures Valid() && S() == old(Reflagged(S(), KeyAt(root, va, 0), e))
      ensures forall f :: NoTable(old(S()), f) ==> f in mem && mem[f] == old(mem)[f]
    {
      KeyAtParent(root, va, 0);
      hide TreeOk, RootsOk;
      SetPageEntry(KeyAt(root, va, 0), t, IndexAt(va, 0) % 512, e);
    }

    /** vm_prepare(): tables for va, so that a later move allocates nothing. */
    method Prepare(root: nat, va: nat) returns (r: Status)
      requires Valid() && (root == 0 || root in anchored)
      modifies this
      ensures Valid() && roots == old(roots) && anchored == old(anchored)
      ensures r == Invalid <==> va % 0x1000 != 0 || !UserAddress(va)
      ensures r == Ok || r == Invalid || r == NoMemory
      ensures r == Invalid || root == 0 ==> r != Ok && S() == old(S())
      ensures r != Invalid && root != 0 ==>
                && (r == Ok <==> |old(free)| >= 3 - Depth(old(tree), root, va))
                && Pages(root) == old(Pages(root)) && OthersKept(old(S()), S(), root)
      ensures r == Ok ==> KeyAt(root, va, 1) in tree && |free| == |old(free)| - (3 - Depth(old(tree), root, va))
      ensures r == NoMemory && root != 0 ==> old(free) <= free
      ensures r == NoMemory && root != 0 ==> (free == old(free) <==> PathFilled(old(S()), root, va))
      ensures SameFrames(old(S()), S())
    {
      hide Inv, Grown, PathFilled, Depth, View, Walk, KeyAt;
      if va % 0x1000 != 0 || !UserAddress(va) { return Invalid; }
      if root == 0 { return NoMemory; }
      ghost var s0 := S();
      AnchoredRoots(s0);
      PageHasTables(s0, root, va);
      var found, t := BuildTables(root, va);
      GrownDepth(s0, S(), root, va);
      GrownFacts(s0, S(), root, va);
      if found {
        GrownPages(s0, S(), root, va, root);
        forall r | r in s0.roots ensures View(mem, r) == View(s0.mem, r) { GrownPages(s0, S(), root, va, r); }
        GrownFrames(s0, S(), root, va);
        return Ok;
      }
      PageHasTables(S(), root, va);
      UndoMap(root, va, s0);
      return NoMemory;
    }

    /** The entry of a mapped page moves from the table ts of src to the table td of dst. */
    method MoveEntry(dst: nat, src: nat, va: nat, td: nat, ts: nat)
      requires Valid() && dst in roots && src in roots && dst != src && UserAddress(va)
      requires KeyAt(dst, va, 1) in tree && tree[KeyAt(dst, va, 1)].frame == td && KeyAt(dst, va, 0) !in tree
      requires KeyAt(src, va, 1) in tree && tree[KeyAt(src, va, 1)].frame == ts && KeyAt(src, va, 0) in tree
      modifies this
      ensures Valid() && roots == old(roots) && anchored == old(anchored) && free == old(free)
      ensures tree == (old(tree) - {KeyAt(src, va, 0)})[KeyAt(dst, va, 0) := old(tree)[KeyAt(src, va, 0)]]
      ensures forall f :: NoTable(old(S()), f) ==> NoTable(S(), f) && mem[f] == old(mem)[f]
      ensures SameFrames(old(S()), S())
    {
      ghost var from := KeyAt(src, va, 0);
      ghost var to := KeyAt(dst, va, 0);
      ghost var s0 := S();
      KeyAtParent(src, va, 0);
      KeyAtParent(dst, va, 0);
      assert KeyOk(s0, from);
      hide TreeOk, RootsOk, NoTable;
      var e := mem[ts][IndexAt(va, 0) % 512];
      ClearEntry(from, ts, IndexAt(va, 0) % 512);
      ghost var s1 := S();
      LinkEntry(to, td, IndexAt(va, 0) % 512, e);
      forall f | NoTable(s0, f) ensures NoTable(S(), f) && mem[f] == s0.mem[f] {
        UnlinkNoTables(s0, from, f);
        LinkNoTables(s1, to, e, f);
      }
    }

    /** vm_move_page(): the page at va changes its address space and keeps its permissions. */
    method MovePage(dst: nat, src: nat, va: nat) returns (r: Status)
      requires Valid() && (dst == 0 || dst in roots) && (src == 0 || src in roots)
      modifies this
      ensures Valid() && roots == old(roots) && anchored == old(anchored)
      ensures r == Invalid <==> va % 0x1000 != 0 || dst == src
      ensures r == Ok || r == Invalid || r == Fault
      ensures r != Ok ==> S() == old(S())
      ensures r == Ok <==> va % 0x1000 == 0 && dst != src && dst != 0 && src != 0 && UserAddress(va)
                           && va / 0x1000 in old(Pages(src)) && KeyAt(dst, va, 1) in old(tree)
      ensures r == Ok ==>
                && Pages(src) == old(Pages(src)) - {va / 0x1000}
                && Pages(dst) == old(Pages(dst))[va / 0x1000 := old(Pages(src))[va / 0x1000]]
                && (forall o :: o in old(roots) && o != dst && o != src ==> Pages(o) == old(Pages(o)))
                && free == old(free) + (if va / 0x1000 in old(Pages(dst)) then {old(Pages(dst))[va / 0x1000].frame} else {})
      ensures DataSame(old(S()), S())
      ensures SameFrames(old(S()), S())
    {
      hide Inv, Shrunk, View, Walk, TreePages;
      if va % 0x1000 != 0 || dst == src { return Invalid; }
      var there, td := FindTable(dst, va);
      var here, ts := FindTable(src, va);
      if !there || !here { return Fault; }
      ghost var s0 := S();
      PageInView(s0, src, va);
      PageInView(s0, dst, va);
      var present := HasPage(src, va, ts);
      if !present { return Fault; }
      var replaced := HasPage(dst, va, td);
      if replaced { DropPage(dst, va, td); }
      MoveEntry(dst, src, va, td, ts);
      MovedPage(s0, S(), dst, src, va);
      DataSameFrom(s0, S());
      return Ok;
    }

    /** Clears the entry of a mapped page and frees the page. */
    method DropPage(root: nat, va: nat, t: nat)
      requires Valid() && root in roots && UserAddress(va) && KeyAt(root, va, 0) in tree
      requires KeyAt(root, va, 1) in tree && tree[KeyAt(root, va, 1)].frame == t
      modifies this
      ensures Valid() && roots == old(roots) && anchored == old(anchored)
      ensures tree == old(tree) - {KeyAt(root, va, 0)}
      ensures free == old(free) + {old(tree)[KeyAt(root, va, 0)].frame}
      ensures forall f :: NoTable(old(S()), f) ==> NoTable(S(), f) && mem[f] == old(mem)[f]
      ensures SameFrames(old(S()), S())
    {
      KeyAtParent(root, va, 0);
      assert KeyOk(S(), KeyAt(root, va, 0));
      hide TreeOk, RootsOk;
      var f := mem[t][IndexAt(va, 0) % 512].frame;
      ClearEntry(KeyAt(root, va, 0), t, IndexAt(va, 0) % 512);
      PageFree(f);
    }

    /** The walk of user_range() for one page. */
    method AccessiblePage(root: nat, va: nat, write: bool) returns (r: bool)
      requires Valid() && root in roots && UserAddress(va)
      ensures r <==> Accessible(Pages(root), va / 0x1000, write)
    {
      hide Inv, View, Walk;
      var t := root;
      RootOnPath(S(), root, va);
      PageInView(S(), root, va);
      PageHasTables(S(), root, va);
      var level := 3;
      while level > 0
        invariant 0 <= level <= 3
        invariant KeyAt(root, va, level + 1) in tree && tree[KeyAt(root, va, level + 1)].frame == t
      {
        var found, next := PathTable(root, va, level, t, write);
        if !found {
          TablesAbove(S(), root, va, level, 0);
          return false;
        }
        t := next;
        level := level - 1;
      }
      var mapped := HasPage(root, va, t);
      TableFrame(S(), KeyAt(root, va, 1));
      if mapped { PageBits(S(), KeyAt(root, va, 0)); }
      var e := mem[t][IndexAt(va, 0) % 512];
      return e.present && e.user && (write ==> e.write);
    }

    /** user_range(): whether user code may touch every byte of a range. */
    method UserRange(root: nat, va: nat, len: nat, write: bool) returns (r: bool)
      requires Valid() && (root == 0 || root in roots)
      ensures r <==> len == 0 || (root != 0 && UserBounds(va, len)
                                  && forall b :: va <= b < va + len ==> Accessible(Pages(root), b / 0x1000, write))
    {
      hide Inv, View, Walk, Accessible;
      if len == 0 { return true; }
      if root == 0 || !UserBounds(va, len) { return false; }
      var last := (va + len - 1) / 0x1000 * 0x1000;
      var address := va / 0x1000 * 0x1000;
      while true
        invariant address % 0x1000 == 0 && va / 0x1000 * 0x1000 <= address <= last
        invariant forall b :: va <= b < address ==> Accessible(Pages(root), b / 0x1000, write)
        decreases last - address
      {
        var ok := AccessiblePage(root, address, write);
        if !ok {
          var b := if address < va then va else address;
          assert b / 0x1000 == address / 0x1000;
          return false;
        }
        assert forall b :: address <= b < address + 0x1000 ==> b / 0x1000 == address / 0x1000;
        if address == last { return true; }
        address := address + 0x1000;
      }
    }

    /** visit_range(): op on every page of [start, end) below table k, in frame t at address base. */
    method Visit(t: nat, ghost k: Key, depth: nat, base: nat, start: nat, end: nat, op: RangeOp) returns (count: nat)
      requires Valid() && 1 <= depth <= 4 && k.level == depth && k in tree && tree[k].frame == t && k.root in anchored
      requires base == k.index * Bytes(depth) && start % 0x1000 == 0 && end % 0x1000 == 0
      requires op.Changing? ==> UserPermissions(op.flags)
      modifies this
      ensures Valid() && Walked(old(S()), S(), k, 0, 512, start, end, op)
      ensures k in tree && tree[k].frame == t
      ensures count == |PagesIn(old(tree), k, 0, 512, start, end)|
      decreases depth, 1
    {
      hide Inv, Walked, Bytes;
      count := 0;
      ghost var s0 := S();
      NothingWalkedYet(s0, k, start, end, op);
      for i := 0 to 512
        invariant Valid() && Walked(s0, S(), k, 0, i, start, end, op)
        invariant k in tree && tree[k].frame == t && k.root in anchored
        invariant count == |PagesIn(s0.tree, k, 0, i, start, end)|
      {
        ghost var s1 := S();
        var n := VisitSlot(t, k, i, depth, base, start, end, op);
        WalkedNext(s0, s1, S(), k, i, start, end, op);
        count := count + n;
      }
    }

    method VisitSlot(t: nat, ghost k: Key, i: nat, depth: nat, base: nat, start: nat, end: nat, op: RangeOp)
      returns (count: nat)
      requires Valid() && 1 <= depth <= 4 && k.level == depth && k in tree && tree[k].frame == t && k.root in anchored
      requires base == k.index * Bytes(depth) && start % 0x1000 == 0 && end % 0x1000 == 0 && i < 512
      requires op.Changing? ==> UserPermissions(op.flags)
      modifies this
      ensures Valid() && Walked(old(S()), S(), k, i, i + 1, start, end, op)
      ensures k in tree && tree[k].frame == t && k.root in anchored
      ensures count == |PagesIn(old(tree), k, i, i + 1, start, end)|
      decreases depth, 0
    {
      hide Inv, Walked, Visited, PageStep, ChildStep, InSlots, InRange, PagesIn, Touched;
      ghost var s0 := S();
      ghost var hi := i + 1;
      var at := base + i * Bytes(depth - 1);
      var limit := at + Bytes(depth - 1);
      BytesStep(k, i, base);
      SlotEntry(s0, k, i);
      var entry := mem[t][i];
      if at >= end || limit <= start {
        forall j ensures !Touched(j, k, i, hi, start, end) { SlotOutside(k, i, hi, start, end, j); }
        SlotSkipped(s0, k, i, hi, start, end, op);
        return 0;
      }
      if !entry.present || !(entry.user || (depth == 1 && entry.noaccess)) {
        forall j | j in tree ensures !Touched(j, k, i, hi, start, end) { NoneTouched(s0, k, i, start, end, j); }
        SlotSkipped(s0, k, i, hi, start, end, op);
        return 0;
      }
      if depth > 1 {
        count := VisitChild(t, k, i, entry, depth, at, start, end, op);
      } else {
        VisitPage(t, k, i, entry, op);
        PageInside(k, i, hi, start, end);
        PageVisited(s0, S(), k, i, hi, start, end, op);
        count := 1;
      }
    }

    method VisitChild(t: nat, ghost k: Key, i: nat, entry: Pte, depth: nat, at: nat, start: nat, end: nat, op: RangeOp)
      returns (count: nat)
      requires Valid() && 2 <= depth <= 4 && k.level == depth && k in tree && tree[k].frame == t && k.root in anchored
      requires i < 512 && Child(k, i) in tree && tree[Child(k, i)] == entry
      requires at == (k.index * 512 + i) * Bytes(depth - 1) && start % 0x1000 == 0 && end % 0x1000 == 0
      requires op.Changing? ==> UserPermissions(op.flags)
      modifies this
      ensures Valid() && Walked(old(S()), S(), k, i, i + 1, start, end, op)
      ensures k in tree && tree[k].frame == t && k.root in anchored
      ensures count == |PagesIn(old(tree), k, i, i + 1, start, end)|
      decreases depth - 1, 2
    {
      hide Inv, Walked, InSlots, InRange, PagesIn, Touched, Bytes;
      ghost var s0 := S();
      ghost var c := Child(k, i);
      count := Visit(entry.frame, c, depth - 1, at, start, end, op);
      ghost var s1 := S();
      VisitedRoots(s0, s1, c, 0, 512, start, end, op);
      SlotEntry(s1, k, i);
      if op == Unmapping {
        var none := IsEmpty(entry.frame, c);
        if none { DropChild(k, i, t, entry.frame); }
      }
      ChildVisited(s0, s1, S(), k, i, i + 1, start, end, op);
    }

    /** Clears the slot of an empty child table and frees the table. */
    method DropChild(ghost k: Key, i: nat, t: nat, f: nat)
      requires Valid() && 2 <= k.level <= 4 && k in tree && tree[k].frame == t && i < 512
      requires Child(k, i) in tree && tree[Child(k, i)].frame == f && Empty(mem, f)
      modifies this
      ensures Valid() && IsTable(old(S()), k) && Parent(Child(k, i)) == k
      ensures S() == Freed(Unlinked(old(S()), Child(k, i)), f)
    {
      SlotEntry(S(), k, i);
      EmptyHasNoChild(S(), Child(k, i));
      hide TreeOk, RootsOk, Empty;
      ClearEntry(Child(k, i), t, i);
      PageFree(f);
    }

    method VisitPage(t: nat, ghost k: Key, i: nat, entry: Pte, op: RangeOp)
      requires Valid() && k.level == 1 && k in tree && tree[k].frame == t && i < 512
      requires Child(k, i) in tree && tree[Child(k, i)] == entry
      requires op.Changing? ==> UserPermissions(op.flags)
      modifies this
      ensures Valid() && PageStep(old(S()), S(), Child(k, i), op)
      ensures k in tree && tree[k].frame == t && anchored == old(anchored)
    {
      ghost var c := Child(k, i);
      SlotEntry(S(), k, i);
      PageBits(S(), c);
      PageHasNoChild(S(), c);
      hide TreeOk, RootsOk, Write;
      match op {
        case Counting =>
        case Unmapping =>
          ClearEntry(c, t, i);
          PageFree(entry.frame);
        case Changing(f) =>
          SetPageEntry(c, t, i, Protected(entry, f));
        case Clearing =>
          ContentsKeep(S(), S().(mem := mem[entry.frame := ZeroFrame()]), entry.frame);
          mem := mem[entry.frame := ZeroFrame()];
      }
    }

    /** range_operation(): malformed ranges touch nothing. */
    method RangeOperation(root: nat, start: nat, end: nat, op: RangeOp) returns (count: nat)
      requires Valid() && (root == 0 || root in anchored) && (op.Changing? ==> UserPermissions(op.flags))
      modifies this
      ensures Valid() && roots == old(roots) && anchored == old(anchored) && old(free) <= free
      ensures !ValidRange(root, start, end) ==> count == 0 && S() == old(S())
      ensures ValidRange(root, start, end) ==>
                && count == |PagesBetween(old(Pages(root)), start, end)|
                && Pages(root) == InRangeMap(old(Pages(root)), start, end, op)
                && OthersKept(old(S()), S(), root)
                && (op != Unmapping ==> free == old(free))
                && DataKept(old(S()), S(), Key(root, 4, 0), 0, 512, start, end, op)
      ensures AllFilled(old(S())) ==> AllFilled(S())
      ensures SameFrames(old(S()), S())
    {
      hide Inv, View, Walk, Filled, Visited, DataKept, TablesKept, OthersKept, InRangeMap, PagesBetween, PagesIn;
      if root == 0 || start % 0x1000 != 0 || end % 0x1000 != 0 || end <= start || !UserBounds(start, end - start) {
        return 0;
      }
      ghost var s0 := S();
      ghost var k := Key(root, 4, 0);
      AnchoredRoots(s0);
      RootOnPath(s0, root, 0);
      count := Visit(root, k, 4, 0, start, end, op);
      VisitedAnchors(s0, S(), k, 0, 512, start, end, op);
      WalkedPages(s0, S(), root, start, end, op);
      WalkedFree(s0, S(), k, start, end, op);
      if AllFilled(s0) {
        forall r | r in roots ensures Filled(S(), r) { WalkedFilled(s0, S(), root, r, start, end, op); }
      }
    }

    /** vm_count_range() */
    method CountRange(root: nat, start: nat, end: nat) returns (count: nat)
      requires Valid() && (root == 0 || root in anchored)
      modifies this
      ensures Valid() && roots == old(roots) && anchored == old(anchored) && free == old(free)
      ensures count == if ValidRange(root, start, end) then |PagesBetween(old(Pages(root)), start, end)| else 0
      ensures forall r :: r in roots ==> Pages(r) == old(Pages(r))
      ensures AllFilled(old(S())) ==> AllFilled(S())
      ensures SameFrames(old(S()), S())
    {
      hide Inv, View, Walk, Filled, DataKept;
      AnchoredRoots(S());
      count := RangeOperation(root, start, end, Counting);
    }

    /** vm_unmap_range() */
    method UnmapRange(root: nat, start: nat, end: nat)
      requires Valid() && (root == 0 || root in anchored)
      modifies this
      ensures Valid() && roots == old(roots) && anchored == old(anchored) && old(free) <= free
      ensures !ValidRange(root, start, end) ==> S() == old(S())
      ensures ValidRange(root, start, end) ==>
                && Pages(root) == InRangeMap(old(Pages(root)), start, end, Unmapping)
                && OthersKept(old(S()), S(), root)
      ensures AllFilled(old(S())) ==> AllFilled(S())
      ensures DataSame(old(S()), S())
      ensures SameFrames(old(S()), S())
    {
      hide Inv;
      ghost var s0 := S();
      var _ := RangeOperation(root, start, end, Unmapping);
      if ValidRange(root, start, end) { RangeData(s0, S(), Key(root, 4, 0), start, end, Unmapping); }
    }

    /** vm_change_range() */
    method ChangeRange(root: nat, start: nat, end: nat, f: Flags)
      requires Valid() && (root == 0 || root in anchored)
      modifies this
      ensures Valid() && roots == old(roots) && anchored == old(anchored) && free == old(free)
      ensures !ValidRange(root, start, end) || !UserPermissions(f) ==> S() == old(S())
      ensures ValidRange(root, start, end) && UserPermissions(f) ==>
                && Pages(root) == InRangeMap(old(Pages(root)), start, end, Changing(f))
                && OthersKept(old(S()), S(), root)
      ensures AllFilled(old(S())) ==> AllFilled(S())
      ensures DataSame(old(S()), S())
      ensures SameFrames(old(S()), S())
    {
      hide Inv;
      if !UserPermissions(f) { return; }
      ghost var s0 := S();
      var _ := RangeOperation(root, start, end, Changing(f));
      if ValidRange(root, start, end) { RangeData(s0, S(), Key(root, 4, 0), start, end, Changing(f)); }
    }

    /** vm_clear_range(): zeroes the pages, and only those. */
    method ClearRange(root: nat, start: nat, end: nat)
      requires Valid() && (root == 0 || root in anchored)
      modifies this
      ensures Valid() && roots == old(roots) && anchored == old(anchored) && free == old(free)
      ensures !ValidRange(root, start, end) ==> S() == old(S())
      ensures ValidRange(root, start, end) ==>
                && Pages(root) == old(Pages(root)) && OthersKept(old(S()), S(), root)
                && DataKept(old(S()), S(), Key(root, 4, 0), 0, 512, start, end, Clearing)
      ensures AllFilled(old(S())) ==> AllFilled(S())
      ensures SameFrames(old(S()), S())
    {
      hide Inv, View, Walk, AllFilled, DataKept, OthersKept;
      var _ := RangeOperation(root, start, end, Clearing);
      ClearingKeepsMap(old(Pages(root)), start, end);
    }

    /** walk_user(): counts the pages below a table, and gives all of it back when destroying. */
    method WalkUser(t: nat, ghost k: Key, depth: nat, destroy: bool) returns (count: nat)
      requires Valid() && 1 <= depth <= 4 && k.level == depth && k in tree && tree[k].frame == t
      requires destroy ==> k.root !in anchored
      modifies this
      ensures Valid() && count == |PagesIn(old(tree), k, 0, 512, 0, ALL)|
      ensures if destroy then Gone(old(S()), S(), k, 0, 512) else S() == old(S())
      ensures k in tree && tree[k].frame == t
      decreases depth, 1
    {
      hide Inv, Gone, PagesIn;
      count := 0;
      ghost var s0 := S();
      NothingGone(s0, k);
      for i := 0 to 512
        invariant Valid() && anchored == s0.anchored && k in tree && tree[k].frame == t
        invariant if destroy then Gone(s0, S(), k, 0, i) else S() == s0
        invariant count == |PagesIn(s0.tree, k, 0, i, 0, ALL)|
      {
        ghost var s1 := S();
        var n := WalkSlot(t, k, i, depth, destroy);
        if destroy { GoneNext(s0, s1, S(), k, i, i + 1); } else { CountNext(s0, k, i, i + 1); }
        count := count + n;
      }
    }

    method WalkSlot(t: nat, ghost k: Key, i: nat, depth: nat, destroy: bool) returns (count: nat)
      requires Valid() && 1 <= depth <= 4 && k.level == depth && k in tree && tree[k].frame == t && i < 512
      requires destroy ==> k.root !in anchored
      modifies this
      ensures Valid() && count == |PagesIn(old(tree), k, i, i + 1, 0, ALL)|
      ensures if destroy then Gone(old(S()), S(), k, i, i + 1) else S() == old(S())
      ensures k in tree && tree[k].frame == t && anchored == old(anchored)
      decreases depth, 0
    {
      hide Inv, Gone, PagesIn, InSlots;
      ghost var s0 := S();
      ghost var c := Child(k, i);
      SlotEntry(s0, k, i);
      var entry := mem[t][i];
      if !entry.present || !(entry.user || (depth == 1 && entry.noaccess)) {
        SlotGone(s0, k, i, i + 1);
        return 0;
      }
      SlotCount(s0, k, i, i + 1);
      if depth == 1 {
        count := 1;
      } else {
        count := WalkUser(entry.frame, c, depth - 1, destroy);
      }
      ghost var s1 := S();
      if destroy {
        ChildAlone(s0, s1, k, i);
        GoneKeeps(s0, s1, k, i);
        SlotEntry(s1, k, i);
        FreeChild(k, i, t, entry.frame);
        ChildGone(s0, s1, S(), k, i, i + 1);
      }
    }

    method FreeChild(ghost k: Key, i: nat, t: nat, f: nat)
      requires Valid() && 1 <= k.level <= 4 && k in tree && tree[k].frame == t && i < 512 && k.root !in anchored
      requires Child(k, i) in tree && tree[Child(k, i)].frame == f && NoChild(S(), Child(k, i))
      modifies this
      ensures Valid() && IsTable(old(S()), k) && Parent(Child(k, i)) == k
      ensures S() == Freed(Unlinked(old(S()), Child(k, i)), f)
    {
      SlotEntry(S(), k, i);
      hide TreeOk, RootsOk, NoChild;
      ClearEntry(Child(k, i), t, i);
      PageFree(f);
    }

    /** vm_page_count() */
    method PageCount(root: nat) returns (count: nat)
      requires Valid() && (root == 0 || root in roots)
      modifies this
      ensures Valid() && S() == old(S())
      ensures count == if root == 0 then 0 else |Pages(root)|
    {
      hide Inv, View, Walk, PagesIn, PagesBetween;
      if root == 0 { return 0; }
      RootOnPath(S(), root, 0);
      count := WalkUser(root, Key(root, 4, 0), 4, false);
      CountedPages(S(), root);
    }

    /** vm_destroy(): every table and page of the root returns to the allocator, once. */
    method Destroy(root: nat)
      requires Valid() && (root == 0 || root in anchored)
      modifies this
      ensures Valid()
      ensures root == 0 ==> S() == old(S())
      ensures root != 0 ==>
                && roots == old(roots) - {root} && anchored == old(anchored) - {root}
                && others == old(others) && mem.Keys == old(mem.Keys)
                && (forall r :: r in roots ==> Pages(r) == old(Pages(r)))
                && free == old(free) + FramesOf(old(S()), root)
    {
      hide Inv, View, Walk, Gone, PagesIn;
      if root == 0 { return; }
      ghost var s0 := S();
      AnchoredRoots(s0);
      RootOnPath(s0, root, 0);
      Unanchor(s0, root);
      anchored := anchored - {root};
      ghost var s1 := S();
      var _ := WalkUser(root, Key(root, 4, 0), 4, true);
      GoneFacts(s1, S(), root);
      FreeRoot(root);
      Destroyed(s0, S(), root);
    }

    method FreeRoot(root: nat)
      requires Valid() && root in roots && root !in anchored
      requires forall k :: k in tree && k.root == root ==> k == Key(root, 4, 0)
      modifies this
      ensures Valid() && roots == old(roots) - {root} && anchored == old(anchored)
      ensures tree == old(tree) - {Key(root, 4, 0)}
      ensures others == old(others) && mem.Keys == old(mem.Keys)
    {
      RootOnPath(S(), root, 0);
      UnrootKeeps(S(), root);
      hide TreeOk, RootsOk;
      roots := roots - {root};
      tree := tree - {Key(root, 4, 0)};
      owner := owner - {root};
      others := others + {root};
      PageFree(root);
    }

    /** Stores into a frame that no table reaches. */
    method Store(f: nat, slot: nat, e: Pte)
      requires Valid() && f in others && slot < 512
      modifies this
      ensures Valid() && f in old(mem) && |old(mem)[f]| == 512 && S() == old(S()).(mem := Write(old(mem), f, slot, e))
    {
      OthersInMemory(S(), f);
      ScratchWrite(S(), f, slot, e);
      hide Inv;
      mem := Write(mem, f, slot, e);
    }

    /** Two zeroed frames, or none. */
    method AllocPair() returns (a: nat, b: nat)
      requires Valid()
      modifies this
      ensures Valid() && roots == old(roots) && anchored == old(anchored) && tree == old(tree) && owner == old(owner)
      ensures a == 0 <==> |old(free)| < 2
      ensures a == 0 ==> free == old(free) && others == old(others)
      ensures a != 0 ==>
                && b != 0 && a != b && a in old(free) && b in old(free) && free == old(free) - {a, b}
                && others == old(others) + {a, b} && a in mem && b in mem
                && mem[a] == ZeroFrame() && mem[b] == ZeroFrame()
      ensures mem.Keys == old(mem.Keys)
    {
      hide Inv;
      b := 0;
      FreeFrames(S());
      a := PageAlloc();
      if a == 0 { return; }
      TwoFree(old(free), a);
      FreeFrames(S());
      b := PageAlloc();
      if b == 0 {
        PageFree(a);
        return 0, 0;
      }
    }

    method FillRoot(a: nat, b: nat, window: Pte, heap: Pte, framebuffer: Pte, low: Pte)
      requires Valid() && a in others && b in others && a != b && a in mem && b in mem
      requires mem[a] == ZeroFrame() && mem[b] == ZeroFrame()
      requires !window.user && !heap.user && !framebuffer.user && !low.user && low.present
      modifies this
      ensures Valid() && S() == old(S()).(mem := mem) && RootFrames(mem, a, b)
      ensures mem.Keys == old(mem.Keys)
    {
      hide Inv, RootFrames, Write;
      ghost var m0 := mem;
      Store(a, 0, RootEntry(b));
      Store(a, 256, window);
      Store(a, 384, heap);
      Store(a, 385, framebuffer);
      Store(b, 0, low);
      RootFramesFilled(m0, a, b, window, heap, framebuffer, low);
    }

    /** vm_create(): a root without pages; the arguments are the kernel's shared entries. */
    method Create(window: Pte, heap: Pte, framebuffer: Pte, low: Pte) returns (root: nat)
      requires Valid() && !window.user && !heap.user && !framebuffer.user && !low.user && low.present
      modifies this
      ensures Valid() && (forall r :: r in old(roots) ==> r in roots && Pages(r) == old(Pages(r)))
      ensures root == 0 <==> |old(free)| < 2
      ensures root == 0 ==> roots == old(roots) && anchored == old(anchored) && free == old(free) && tree == old(tree)
      ensures root != 0 ==>
                && root !in old(roots) && roots == old(roots) + {root} && anchored == old(anchored) + {root}
                && Pages(root) == map[] && Filled(S(), root) && others == old(others)
                && old(free) == free + FramesOf(S(), root) && |free| == |old(free)| - 2
      ensures SameFrames(old(S()), S())
    {
      hide Inv, View, Walk, RootFrames, Filled;
      ghost var s0 := S();
      var a, b := AllocPair();
      if a != 0 {
        FillRoot(a, b, window, heap, framebuffer, low);
        ghost var s1 := S();
        RootKeeps(s1, a, b);
        roots := roots + {a};
        anchored := anchored + {a};
        tree := tree[Key(a, 4, 0) := RootEntry(a)][Key(a, 3, 0) := RootEntry(b)];
        owner := owner[a := Key(a, 4, 0)][b := Key(a, 3, 0)];
        others := others - {a, b};
        Created(s0, s1, S(), a, b);
      } else {
        forall r | r in s0.roots ensures View(mem, r) == View(s0.mem, r) { SamePages(s0, S(), r); }
      }
      return a;
    }
  }

  // ----- A failure that frees a table -----

  function Frames(n: nat): (r: set<nat>)
    ensures forall f :: f in r ==> 1 <= f <= n
  {
    if n == 0 then {} else Frames(n - 1) + {n}
  }

  lemma {:induction false} FramesSize(n: nat)
    ensures |Frames(n)| == n && 0 !in Frames(n)
  {
    if n > 0 { FramesSize(n - 1); }
  }

  lemma ChildIsPage(s: State, root: nat, k: Key, i: nat)
    requires Inv(s) && root in s.roots && k.root == root && k.level == 1 && Child(k, i) in s.tree
    ensures Child(k, i).index in TreePages(s.tree, root)
  {
    hide Inv;
    TreeIndex(s, Child(k, i));
  }

  /** Without pages the last table of a path is empty. */
  lemma TableEmpty(s: State, root: nat, va: nat)
    requires Inv(s) && root in s.roots && UserAddress(va) && KeyAt(root, va, 1) in s.tree && View(s.mem, root) == map[]
    ensures !PathFilled(s, root, va)
  {
    hide View, Walk, Partition, Inverse, RootsOk;
    ViewIsTree(s, root);
    var k := KeyAt(root, va, 1);
    forall i | 0 <= i < 512 ensures !Entry(s.mem, s.tree[k].frame, i).present {
      assert SlotOk(s, k, i);
      if Child(k, i) in s.tree { ChildIsPage(s, root, k, i); }
    }
  }

  /** All free frames go to other owners. */
  method TakeAll(m: PhysicalMemory)
    requires m.Valid()
    modifies m
    ensures m.Valid() && m.free == {} && m.roots == old(m.roots) && m.anchored == old(m.anchored)
    ensures m.tree == old(m.tree)
    ensures forall r :: r in m.roots ==> m.Pages(r) == old(m.Pages(r))
  {
    hide Inv, View, Walk;
    ghost var s0 := m.S();
    while m.free != {}
      invariant m.Valid() && m.roots == s0.roots && m.anchored == s0.anchored && m.tree == s0.tree
      decreases |m.free|
    {
      var p := m.PageAlloc();
    }
    forall r | r in m.roots ensures View(m.mem, r) == View(s0.mem, r) { SamePages(s0, m.S(), r); }
  }

  /** Memory with one root and fourteen free frames. */
  method OneRoot() returns (m: PhysicalMemory, root: nat)
    ensures fresh(m) && m.Valid() && root != 0 && m.roots == {root} && m.anchored == {root} && m.Pages(root) == map[] && |m.free| == 14
    ensures Filled(m.S(), root)
  {
    hide Inv, View, Walk, FramesOf, Filled, DataSame;
    m := new PhysicalMemory(Frames(16));
    FramesSize(16);
    var none, low := Pte(0, false, false, false, false, false, false), Pte(0, true, false, false, false, false, false);
    root := m.Create(none, none, none, low);
  }

  lemma DepthBound(tree: map<Key, Pte>, root: nat, va: nat)
    ensures Depth(tree, root, va) <= 3
  {
  }

  /** A table that vm_prepare() made is lost when a vm_map() on its path finds no frame for the page. */
  method PreparedTableLost() returns (m: PhysicalMemory, root: nat, r: Status)
    ensures m.Valid() && root in m.roots && r == NoMemory && m.Pages(root) == map[] && m.free != {}
  {
    hide Inv, View, Walk, Filled, PathFilled, OthersKept, DataSame, SameFrames, AllFilled, KeysKept, KeyAt, Depth;
    m, root := OneRoot();
    r := m.Prepare(root, 0x5000_0000);
    TakeAll(m);
    TableEmpty(m.S(), root, 0x5000_0000);
    DepthBound(m.tree, root, 0x5000_0000);
    r := m.Map(root, 0x5000_0000, Flags(true, false, false, false, false));
  }
}
