/** How the operations of kernel/memory64.c change the tree of private entries: tables grow
    on the path to an address and shrink back when they are empty, and a mapping that runs
    out of memory is undone. */
module TableSteps {
  import opened PageTables

  /** The flag word of a mapping request; unknown stands for any bit outside the mask. */
  datatype Flags = Flags(write: bool, exec: bool, noaccess: bool, jit: bool, unknown: bool)

  predicate UserPermissions(f: Flags) {
    && !f.unknown
    && !(f.noaccess && (f.write || f.exec || f.jit))
    && (!(f.write && f.exec) || f.jit)
  }

  /** The page entry that the flags ask for. */
  function PageEntry(frame: nat, f: Flags): Pte {
    Pte(frame, true, f.write, !f.noaccess, false, f.noaccess, !f.exec)
  }

  /** An entry with the permission bits replaced, as vm_protect writes it. */
  function Protected(e: Pte, f: Flags): Pte {
    e.(write := f.write, user := !f.noaccess, noaccess := f.noaccess, nx := !f.exec)
  }

  function FlaggedLeaf(frame: nat, f: Flags): Leaf {
    Leaf(frame, f.write, f.exec, f.noaccess)
  }

  datatype Status = Ok | Invalid | NoMemory | Exists | Fault

  function One(b: bool): nat { if b then 1 else 0 }

  /** How many of the three tables on the path to va exist. */
  ghost function Depth(tree: map<Key, Pte>, root: nat, va: nat): nat {
    One(KeyAt(root, va, 3) in tree) + One(KeyAt(root, va, 2) in tree) + One(KeyAt(root, va, 1) in tree)
  }

  /** A frame that holds data: not free and not a table. */
  ghost predicate DataFrame(s: State, f: nat) {
    f in s.mem && f !in s.free && (f in s.owner ==> s.owner[f].level == 0)
  }

  /** s' has gained only tables on the path to va, one free frame each. */
  ghost predicate Grown(s: State, s': State, root: nat, va: nat) {
    && s'.roots == s.roots && s'.anchored == s.anchored && s'.others == s.others
    && s'.mem.Keys == s.mem.Keys && s'.free <= s.free
    && (forall k :: k in s.tree ==> k in s'.tree && s'.tree[k] == s.tree[k])
    && (forall k :: k in s'.tree ==> k in s.tree || (1 <= k.level <= 3 && k == KeyAt(root, va, k.level)))
    && |s.free| - |s'.free| == Depth(s'.tree, root, va) - Depth(s.tree, root, va)
    && (forall f :: DataFrame(s, f) ==> DataFrame(s', f) && s'.mem[f] == s.mem[f])
  }

  ghost function TableAdded(s: State, k: Key, p: nat): State
    requires IsTable(s, Parent(k))
    requires p in s.mem ==> Parent(k) in s.tree && s.tree[Parent(k)].frame != p
  {
    Linked(Allocated(s, p), k, Pte(p, true, true, true, false, false, false))
  }

  lemma GrownFromItself(s: State, root: nat, va: nat)
    ensures Grown(s, s, root, va)
  {
  }

  lemma DepthAfterLink(tree: map<Key, Pte>, root: nat, va: nat, level: nat, e: Pte)
    requires 1 <= level <= 3 && KeyAt(root, va, level) !in tree
    ensures Depth(tree[KeyAt(root, va, level) := e], root, va) == Depth(tree, root, va) + 1
  {
  }

  lemma GrownByTable(s: State, s1: State, s2: State, root: nat, va: nat, level: nat, p: nat)
    requires Grown(s, s1, root, va) && 1 <= level <= 3
    requires KeyAt(root, va, level) !in s1.tree && IsTable(s1, Parent(KeyAt(root, va, level)))
    requires p in s1.free && p in s1.mem && p !in s1.owner && p !in s1.others
    requires s1.tree[Parent(KeyAt(root, va, level))].frame in s1.owner
    requires s1.owner[s1.tree[Parent(KeyAt(root, va, level))].frame].level >= 1
    requires s2 == TableAdded(s1, KeyAt(root, va, level), p)
    ensures Grown(s, s2, root, va)
  {
    var k := KeyAt(root, va, level);
    DepthAfterLink(s1.tree, root, va, level, Pte(p, true, true, true, false, false, false));
    assert s2.free == s1.free - {p} && s2.others == s1.others;
    forall f | DataFrame(s, f) ensures DataFrame(s2, f) && s2.mem[f] == s.mem[f] {
      assert DataFrame(s1, f);
    }
  }

  /** Tables exist downwards from the root without a gap. */
  lemma {:induction false} TablesAbove(s: State, root: nat, va: nat, level: nat, l: nat)
    requires Inv(s) && UserAddress(va) && l <= level <= 3 && KeyAt(root, va, level) !in s.tree
    ensures KeyAt(root, va, l) !in s.tree
    decreases level - l
  {
    if l < level {
      TablesAbove(s, root, va, level, l + 1);
      KeyAtParent(root, va, l);
      assert KeyAt(root, va, l) in s.tree ==> KeyOk(s, KeyAt(root, va, l));
    }
  }

  /** A path is built in full exactly when enough frames were free. */
  lemma GrownDepth(s: State, s': State, root: nat, va: nat)
    requires Grown(s, s', root, va) && Inv(s') && UserAddress(va)
    requires KeyAt(root, va, 1) !in s'.tree ==> s'.free == {}
    ensures KeyAt(root, va, 1) in s'.tree <==> |s.free| >= 3 - Depth(s.tree, root, va)
    ensures KeyAt(root, va, 1) in s'.tree ==> |s'.free| == |s.free| - (3 - Depth(s.tree, root, va))
  {
    if KeyAt(root, va, 3) !in s'.tree { TablesAbove(s', root, va, 3, 1); }
    if KeyAt(root, va, 2) !in s'.tree { TablesAbove(s', root, va, 2, 1); }
  }

  /** s' has lost only the page at va and tables on the path to it. */
  ghost predicate Shrunk(s: State, s': State, root: nat, va: nat) {
    && s'.roots == s.roots && s'.anchored == s.anchored && s'.others == s.others
    && s'.mem.Keys == s.mem.Keys && s.free <= s'.free
    && (forall k :: k in s'.tree ==> k in s.tree && s'.tree[k] == s.tree[k])
    && (forall k :: k in s.tree ==> k in s'.tree || (k.level <= 3 && k == KeyAt(root, va, k.level)))
    && (forall f :: DataFrame(s, f) ==> s'.mem[f] == s.mem[f])
  }

  lemma ShrunkFromItself(s: State, root: nat, va: nat)
    ensures Shrunk(s, s, root, va)
  {
  }

  lemma AnchoredRoots(s: State)
    requires Inv(s)
    ensures s.anchored <= s.roots && 0 !in s.roots
  {
    assert 0 in s.roots ==> KeyOk(s, Key(0, 4, 0));
  }

  lemma PageHasNoChild(s: State, k: Key)
    requires k.level == 0
    ensures NoChild(s, k)
  {
  }

  lemma RootOnPath(s: State, root: nat, va: nat)
    requires Inv(s) && root in s.roots
    ensures KeyAt(root, va, 4) in s.tree && s.tree[KeyAt(root, va, 4)].frame == root
  {
    assert KeyOk(s, Key(root, 4, 0));
  }

  /** The frames of the tables that translate va, from the root downwards. */
  ghost predicate PathFrames(s: State, root: nat, va: nat, levels: seq<nat>) {
    forall l {:trigger KeyAt(root, va, l)} :: 0 <= l <= 4 && 4 - l < |levels| ==>
      KeyAt(root, va, l) in s.tree && s.tree[KeyAt(root, va, l)].frame == levels[4 - l]
  }

  /** No table on the path to va is empty. */
  ghost predicate PathFilled(s: State, root: nat, va: nat) {
    forall l :: 1 <= l <= 3 && KeyAt(root, va, l) in s.tree ==> !Empty(s.mem, s.tree[KeyAt(root, va, l)].frame)
  }

  /** The tables above a filled one are filled. */
  lemma FilledPath(s: State, root: nat, va: nat, level: nat)
    requires Inv(s) && UserAddress(va) && 1 <= level <= 4 && KeyAt(root, va, level) in s.tree
    requires level <= 3 ==> !Empty(s.mem, s.tree[KeyAt(root, va, level)].frame)
    requires forall l :: 0 <= l < level ==> KeyAt(root, va, l) !in s.tree
    ensures PathFilled(s, root, va)
  {
    forall l | level < l <= 3 && KeyAt(root, va, l) in s.tree
      ensures !Empty(s.mem, s.tree[KeyAt(root, va, l)].frame)
    {
      if KeyAt(root, va, l - 1) !in s.tree { TablesAbove(s, root, va, l - 1, level); }
      assert KeyOk(s, KeyAt(root, va, l - 1));
      KeyAtParent(root, va, l - 1);
    }
  }

  /** Clearing and freeing the frame of a childless Key on the path. */
  lemma ShrunkByClear(s: State, s1: State, s2: State, root: nat, va: nat, level: nat)
    requires Shrunk(s, s1, root, va) && level <= 3
    requires IsTable(s1, Parent(KeyAt(root, va, level))) && KeyAt(root, va, level) in s1.tree
    requires s2 == Freed(Unlinked(s1, KeyAt(root, va, level)), s1.tree[KeyAt(root, va, level)].frame)
    requires s1.tree[KeyAt(root, va, level)].frame !in s1.others
    requires Inverse(s) && Partition(s)
    ensures Shrunk(s, s2, root, va)
  {
    var k := KeyAt(root, va, level);
    assert s.owner[s.tree[Parent(k)].frame] == Parent(k);
    assert s2.others == s1.others;
  }

  /** Two trees with the same pages give every root the same map. */
  lemma SamePages(s: State, s': State, r: nat)
    requires Inv(s) && Inv(s') && r in s.roots && r in s'.roots
    requires forall p :: Key(r, 0, p) in s.tree <==> Key(r, 0, p) in s'.tree
    requires forall p :: Key(r, 0, p) in s.tree && Key(r, 0, p) in s'.tree ==>
               s.tree[Key(r, 0, p)] == s'.tree[Key(r, 0, p)]
    ensures View(s'.mem, r) == View(s.mem, r)
  {
    ViewIsTree(s, r);
    ViewIsTree(s', r);
    assert TreePages(s'.tree, r) == TreePages(s.tree, r);
  }

  /** Every root but one has the same map in both states. */
  ghost predicate OthersKept(s: State, s': State, root: nat) {
    forall r :: r in s.roots && r != root ==> r in s'.roots && View(s'.mem, r) == View(s.mem, r)
  }

  lemma TreePagesUpdate(tree: map<Key, Pte>, tree': map<Key, Pte>, root: nat, p: nat)
    requires 0 <= p < USER_LIMIT
    requires forall q :: q != p ==> (Key(root, 0, q) in tree <==> Key(root, 0, q) in tree')
    requires forall q :: q != p && Key(root, 0, q) in tree && Key(root, 0, q) in tree' ==>
               tree[Key(root, 0, q)] == tree'[Key(root, 0, q)]
    ensures TreePages(tree', root) ==
              if Key(root, 0, p) in tree' then TreePages(tree, root)[p := LeafOf(tree'[Key(root, 0, p)])]
              else TreePages(tree, root) - {p}
  {
  }

  /** The maps of s' are those of s, but for one page of one root. */
  lemma OnePage(s: State, s': State, root: nat, p: nat)
    requires Inv(s) && Inv(s') && root in s.roots && s'.roots == s.roots && USER_FIRST <= p < USER_LIMIT
    requires forall k: Key :: k.level == 0 && k != Key(root, 0, p) ==>
               (k in s.tree <==> k in s'.tree) && (k in s.tree ==> s.tree[k] == s'.tree[k])
    ensures OthersKept(s, s', root)
    ensures View(s'.mem, root) ==
              if Key(root, 0, p) in s'.tree then View(s.mem, root)[p := LeafOf(s'.tree[Key(root, 0, p)])]
              else View(s.mem, root) - {p}
  {
    hide Inv, View, TreePages;
    forall r | r in s.roots && r != root ensures View(s'.mem, r) == View(s.mem, r) { SamePages(s, s', r); }
    ViewIsTree(s, root);
    ViewIsTree(s', root);
    TreePagesUpdate(s.tree, s'.tree, root, p);
  }

  lemma PageInView(s: State, root: nat, va: nat)
    requires Inv(s) && root in s.roots && UserAddress(va)
    ensures va / 0x1000 in View(s.mem, root) <==> KeyAt(root, va, 0) in s.tree
    ensures KeyAt(root, va, 0) in s.tree ==> View(s.mem, root)[va / 0x1000] == LeafOf(s.tree[KeyAt(root, va, 0)])
  {
    hide Inv, View;
    ViewIsTree(s, root);
  }

  lemma ShrunkPages(s: State, s': State, root: nat, va: nat)
    requires Inv(s) && Inv(s') && root in s.roots && UserAddress(va)
    requires Shrunk(s, s', root, va) && KeyAt(root, va, 0) !in s'.tree
    ensures OthersKept(s, s', root) && View(s'.mem, root) == View(s.mem, root) - {va / 0x1000}
  {
    hide Inv;
    OnePage(s, s', root, va / 0x1000);
  }

  lemma GrownPages(s: State, s': State, root: nat, va: nat, r: nat)
    requires Inv(s) && Inv(s') && r in s.roots && Grown(s, s', root, va)
    ensures View(s'.mem, r) == View(s.mem, r)
  {
    hide Inv;
    SamePages(s, s', r);
  }

  /** A table is filled exactly when it has a child or is the one with the shared first GiB. */
  lemma FilledTable(s: State, k: Key)
    requires Inv(s) && k in s.tree && 1 <= k.level <= 3
    ensures !Empty(s.mem, s.tree[k].frame) ==>
              k == Key(k.root, 3, 0) || exists i: nat :: i < 512 && Child(k, i) in s.tree
    ensures (k == Key(k.root, 3, 0) && k.root in s.anchored) || (exists i: nat :: i < 512 && Child(k, i) in s.tree) ==>
              !Empty(s.mem, s.tree[k].frame)
  {
    var f := s.tree[k].frame;
    assert KeyOk(s, k);
    if !Empty(s.mem, f) {
      var i: nat :| i < 512 && Entry(s.mem, f, i).present;
      assert SlotOk(s, k, i);
    }
    if i: nat :| i < 512 && Child(k, i) in s.tree {
      assert KeyOk(s, Child(k, i)) && Parent(Child(k, i)) == k;
      assert Entry(s.mem, f, i).present;
    }
  }

  /** After a failed mapping has been undone, no new table is left. */
  lemma {:induction false} RollbackLeavesNothing(s0: State, s1: State, s2: State, root: nat, va: nat, l: nat)
    requires Inv(s0) && Inv(s1) && Inv(s2) && root in s0.anchored && UserAddress(va) && l <= 3
    requires Grown(s0, s1, root, va) && Shrunk(s1, s2, root, va) && PathFilled(s2, root, va)
    requires KeyAt(root, va, 0) !in s2.tree && KeyAt(root, va, l) in s2.tree
    ensures KeyAt(root, va, l) in s0.tree
  {
    hide Inv;
    var k := KeyAt(root, va, l);
    FilledTable(s2, k);
    AnchoredKey(s0, root);
    if k != Key(root, 3, 0) {
      var i: nat :| i < 512 && Child(k, i) in s2.tree;
      if Child(k, i) == KeyAt(root, va, l - 1) { RollbackLeavesNothing(s0, s1, s2, root, va, l - 1); }
      ParentInTree(s0, Child(k, i));
      ChildOfParent(k, i, Child(k, i));
    }
  }

  lemma AnchoredKey(s: State, root: nat)
    requires Inv(s) && root in s.anchored
    ensures root in s.roots && Key(root, 3, 0) in s.tree
  {
  }

  lemma ParentInTree(s: State, k: Key)
    requires Inv(s) && k in s.tree && k.level < 4
    ensures Parent(k) in s.tree
  {
    assert KeyOk(s, k);
  }

  /** A table that was filled before a failed mapping is still there afterwards. */
  lemma {:induction false} RollbackKeepsFilled(s0: State, s1: State, s2: State, root: nat, va: nat, l: nat)
    requires Inv(s0) && Inv(s1) && Inv(s2) && root in s0.anchored && UserAddress(va) && 1 <= l <= 3
    requires Grown(s0, s1, root, va) && Shrunk(s1, s2, root, va) && PathFilled(s0, root, va)
    requires KeyAt(root, va, 0) !in s0.tree && KeyAt(root, va, l) in s0.tree
    ensures KeyAt(root, va, l) in s2.tree
  {
    hide Inv;
    var k := KeyAt(root, va, l);
    FilledTable(s0, k);
    AnchoredKey(s2, root);
    if k != Key(root, 3, 0) {
      var i: nat :| i < 512 && Child(k, i) in s0.tree;
      if Child(k, i) == KeyAt(root, va, l - 1) { RollbackKeepsFilled(s0, s1, s2, root, va, l - 1); }
      ParentInTree(s2, Child(k, i));
      ChildOfParent(k, i, Child(k, i));
    }
  }

  lemma RollbackTree(s0: State, s1: State, s2: State, root: nat, va: nat)
    requires Inv(s0) && Inv(s1) && Inv(s2) && root in s0.anchored && UserAddress(va)
    requires Grown(s0, s1, root, va) && Shrunk(s1, s2, root, va) && PathFilled(s2, root, va)
    requires KeyAt(root, va, 0) !in s0.tree && KeyAt(root, va, 0) !in s2.tree
    ensures forall k :: k in s2.tree ==> k in s0.tree && s2.tree[k] == s0.tree[k]
    ensures PathFilled(s0, root, va) ==> s2.tree == s0.tree
  {
    hide Inv;
    forall k | k in s2.tree ensures k in s0.tree {
      if k !in s0.tree { RollbackLeavesNothing(s0, s1, s2, root, va, k.level); }
    }
    if PathFilled(s0, root, va) {
      forall k | k in s0.tree ensures k in s2.tree {
        if k !in s2.tree { RollbackKeepsFilled(s0, s1, s2, root, va, k.level); }
      }
    }
  }

  /** Fewer Keys leave more frames free; the same Keys leave the same frames free. */
  lemma FreeFollowsTree(s: State, s': State)
    requires Partition(s) && Inverse(s) && Partition(s') && Inverse(s')
    requires s'.mem.Keys == s.mem.Keys && s'.others == s.others
    requires forall k :: k in s'.tree ==> k in s.tree && s'.tree[k] == s.tree[k]
    ensures s.free <= s'.free
    ensures s'.free == s.free ==> s'.tree == s.tree
    ensures s'.tree == s.tree ==> s'.free == s.free
  {
    forall f | f in s'.owner ensures f in s.owner { assert s'.owner[f] in s.tree; }
    if s'.free == s.free {
      forall k | k in s.tree ensures k in s'.tree {
        var f := s.tree[k].frame;
        assert f in s.owner && f !in s'.free;
        assert f in s'.owner;
        assert s.tree[s'.owner[f]].frame == f;
      }
    }
    if s'.tree == s.tree {
      forall f | f in s.owner ensures f in s'.owner { assert s.owner[f] in s'.tree; }
    }
  }

  /** A failed mapping changes the free frames exactly when an empty table was on its path. */
  lemma RollbackRestores(s0: State, s1: State, s2: State, root: nat, va: nat)
    requires Inv(s0) && Inv(s1) && Inv(s2) && root in s0.anchored && UserAddress(va)
    requires Grown(s0, s1, root, va) && Shrunk(s1, s2, root, va) && PathFilled(s2, root, va)
    requires KeyAt(root, va, 0) !in s0.tree && KeyAt(root, va, 0) !in s2.tree
    ensures s0.free <= s2.free
    ensures s2.free == s0.free <==> PathFilled(s0, root, va)
    ensures PathFilled(s0, root, va) ==> s2.tree == s0.tree
  {
    hide Inv, Grown, Shrunk, PathFilled;
    RollbackTree(s0, s1, s2, root, va);
    RollbackFrames(s0, s1, s2, root, va);
    if s2.free == s0.free { SameTreeFilled(s0, s2, root, va); }
  }

  lemma RollbackFrames(s0: State, s1: State, s2: State, root: nat, va: nat)
    requires Inv(s0) && Inv(s2) && Grown(s0, s1, root, va) && Shrunk(s1, s2, root, va)
    requires forall k :: k in s2.tree ==> k in s0.tree && s2.tree[k] == s0.tree[k]
    ensures s0.free <= s2.free && s2.anchored == s0.anchored
    ensures s2.free == s0.free <==> s2.tree == s0.tree
  {
    hide TreeOk, RootsOk;
    FreeFollowsTree(s0, s2);
  }

  lemma SameTreeFilled(s: State, s': State, root: nat, va: nat)
    requires Inv(s) && Inv(s') && s'.tree == s.tree && s'.anchored == s.anchored
    requires root in s.anchored && UserAddress(va) && PathFilled(s', root, va)
    ensures PathFilled(s, root, va)
  {
    hide Inv;
    forall l | 1 <= l <= 3 && KeyAt(root, va, l) in s.tree
      ensures !Empty(s.mem, s.tree[KeyAt(root, va, l)].frame)
    {
      FilledTable(s, KeyAt(root, va, l));
      FilledTable(s', KeyAt(root, va, l));
    }
  }

  lemma PageHasTables(s: State, root: nat, va: nat)
    requires Inv(s) && root in s.roots && UserAddress(va)
    ensures KeyAt(root, va, 0) in s.tree ==> KeyAt(root, va, 1) in s.tree
  {
    KeyAtParent(root, va, 0);
    if KeyAt(root, va, 0) in s.tree { ParentInTree(s, KeyAt(root, va, 0)); }
  }

  lemma GrownFacts(s: State, s': State, root: nat, va: nat)
    requires Grown(s, s', root, va)
    ensures s'.roots == s.roots && s'.anchored == s.anchored && s'.free <= s.free
    ensures KeyAt(root, va, 0) in s'.tree <==> KeyAt(root, va, 0) in s.tree
  {
  }

  lemma MappedPage(s0: State, s1: State, s2: State, root: nat, va: nat, p: nat, f: Flags)
    requires Inv(s0) && Inv(s2) && root in s0.roots && UserAddress(va) && Grown(s0, s1, root, va)
    requires s2.roots == s0.roots && s2.tree == s1.tree[KeyAt(root, va, 0) := PageEntry(p, f)]
    requires KeyAt(root, va, 0) !in s0.tree
    ensures OthersKept(s0, s2, root)
    ensures View(s2.mem, root) == View(s0.mem, root)[va / 0x1000 := FlaggedLeaf(p, f)]
  {
    hide Inv, View, Walk;
    OnePage(s0, s2, root, va / 0x1000);
  }

  /** One page of one root has other permission bits. */
  lemma ReflaggedPage(s: State, s': State, root: nat, va: nat, e: Pte)
    requires Inv(s) && Inv(s') && root in s.roots && UserAddress(va) && KeyAt(root, va, 0) in s.tree
    requires s'.roots == s.roots && s'.tree == s.tree[KeyAt(root, va, 0) := e]
    ensures OthersKept(s, s', root)
    ensures View(s'.mem, root) == View(s.mem, root)[va / 0x1000 := LeafOf(e)]
  {
    hide Inv, View, Walk;
    OnePage(s, s', root, va / 0x1000);
  }

  /** Pages are present, and those without access are neither writable nor executable. */
  lemma PageBits(s: State, k: Key)
    requires Inv(s) && k in s.tree && k.level == 0
    ensures s.tree[k].present && s.tree[k].user != s.tree[k].noaccess && k.root in s.roots
    ensures s.tree[k].noaccess ==> !s.tree[k].write && s.tree[k].nx
  {
    assert KeyOk(s, k);
  }

  lemma TableFrame(s: State, k: Key)
    requires Inv(s) && k in s.tree
    ensures s.tree[k].frame in s.mem && |s.mem[s.tree[k].frame]| == 512
  {
  }

  lemma FrameNotZero(s: State, k: Key)
    requires Inv(s) && k in s.tree
    ensures s.tree[k].frame != 0
  {
  }

  /** A page has left one root for another, where it replaces what was there. */
  lemma MovedPage(s: State, s': State, dst: nat, src: nat, va: nat)
    requires Inv(s) && Inv(s') && dst in s.roots && src in s.roots && dst != src && UserAddress(va)
    requires s'.roots == s.roots && KeyAt(src, va, 0) in s.tree
    requires s'.tree == (s.tree - {KeyAt(src, va, 0)})[KeyAt(dst, va, 0) := s.tree[KeyAt(src, va, 0)]]
    ensures View(s'.mem, src) == View(s.mem, src) - {va / 0x1000} && va / 0x1000 in View(s.mem, src)
    ensures View(s'.mem, dst) == View(s.mem, dst)[va / 0x1000 := View(s.mem, src)[va / 0x1000]]
    ensures forall r :: r in s.roots && r != dst && r != src ==> View(s'.mem, r) == View(s.mem, r)
  {
    hide Inv, View, Walk, TreePages;
    var p := va / 0x1000;
    PageInView(s, src, va);
    forall r | r in s.roots && r != dst && r != src ensures View(s'.mem, r) == View(s.mem, r) { SamePages(s, s', r); }
    ViewIsTree(s, src);
    ViewIsTree(s', src);
    TreePagesUpdate(s.tree, s'.tree, src, p);
    ViewIsTree(s, dst);
    ViewIsTree(s', dst);
    TreePagesUpdate(s.tree, s'.tree, dst, p);
  }

  predicate UserBounds(va: nat, len: nat) {
    len == 0 || (UserAddress(va) && len <= 0x8000_0000_0000 - va)
  }

  /** A page that user code may read, or write. */
  predicate Accessible(pages: PageMap, p: nat, write: bool) {
    p in pages && !pages[p].noaccess && (write ==> pages[p].write)
  }
}
