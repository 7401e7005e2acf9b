/** Four-level x86-64 page tables in physical memory (kernel/memory64.c).

    Physical memory is a map from frame number to the 512 entries of the frame.
    A table slot or a page is named by a Key: the root it hangs from, its level
    (4 root, 3..1 tables, 0 user pages) and its position among all slots of that
    level, so that the parent of position n is position n / 512.

    Walk follows the entries in memory, as the processor does.  The invariant keeps
    beside the memory a finite map, tree, from the Keys that Walk reaches to their
    entries, and its inverse, owner, from frames to Keys.  The lemmas show that each
    primitive write of the kernel changes tree at exactly one Key. */
module PageTables {
  import opened Wrappers

  /** First and one-past-last user page: NV_USER_MIN and NV_USER_END over 4096. */
  const USER_FIRST := 0x40000
  const USER_LIMIT := 0x8_0000_0000

  /** The bits of an entry that the kernel reads or writes. */
  datatype Pte = Pte(frame: nat, present: bool, write: bool, user: bool, huge: bool, noaccess: bool, nx: bool)
  const ZERO := Pte(0, false, false, false, false, false, false)

  type Memory = map<nat, seq<Pte>>

  datatype Key = Key(root: nat, level: nat, index: nat)

  function Parent(k: Key): Key {
    Key(k.root, k.level + 1, k.index / 512)
  }

  function Child(k: Key, i: nat): Key
    requires k.level >= 1
  {
    Key(k.root, k.level - 1, k.index * 512 + i)
  }

  function ZeroFrame(): (z: seq<Pte>)
    ensures |z| == 512
    ensures forall i :: 0 <= i < 512 ==> z[i] == ZERO
  {
    seq(512, _ => ZERO)
  }

  /** An entry that belongs to the address space: a user table, or a user page
      (possibly one that is retained without access). */
  predicate Private(e: Pte, level: nat) {
    e.present && if level >= 1 then e.user && !e.huge else e.user || e.noaccess
  }

  function RootEntry(root: nat): Pte {
    Pte(root, true, true, true, false, false, false)
  }

  /** Entry i of the table in a frame. */
  function Entry(mem: Memory, frame: nat, i: nat): Pte {
    if frame in mem && i < |mem[frame]| then mem[frame][i] else ZERO
  }

  /** The private entry at Key k, if every step from the root is private. */
  ghost function Walk(mem: Memory, k: Key): Option<Pte>
    decreases if k.level <= 4 then 4 - k.level else 0
  {
    if k.level > 4 then None
    else if k.level == 4 then if k.index == 0 then Some(RootEntry(k.root)) else None
    else
      match Walk(mem, Parent(k))
      case None => None
      case Some(t) =>
        var e := Entry(mem, t.frame, k.index % 512);
        if Private(e, k.level) then Some(e) else None
  }

  // ----- The state and its invariant -----

  /** roots: address spaces.  anchored: those not being built or torn down.  tree: the
      private entries by Key.  owner: the one Key that reaches a frame.  others: frames
      allocated for other purposes. */
  datatype State = State(mem: Memory, roots: set<nat>, anchored: set<nat>, tree: map<Key, Pte>, owner: map<nat, Key>,
                         free: set<nat>, others: set<nat>)

  /** Slots the kernel shares between roots: the supervisor half of the root and
      the first GiB.  They may be present but are never user entries. */
  predicate Shared(level: nat, index: nat) {
    (level == 3 && index >= 256) || (level == 2 && index == 0)
  }

  predicate EntryOk(e: Pte, level: nat, index: nat) {
    e.present ==>
      if Shared(level, index) then !e.user
      else if level >= 1 then e.user && e.write && !e.huge
      else e.user != e.noaccess && (e.noaccess ==> !e.write && e.nx)
  }

  ghost predicate Partition(s: State) {
    && (forall f :: f in s.mem ==> |s.mem[f]| == 512)
    && 0 !in s.mem
    && s.owner.Keys !! s.free && s.owner.Keys !! s.others && s.free !! s.others
    && s.mem.Keys == s.owner.Keys + s.free + s.others
  }

  /** Separation and absence of leaks: owner is the inverse of tree. */
  ghost predicate Inverse(s: State) {
    && (forall k :: k in s.tree ==> s.tree[k].frame in s.owner && s.owner[s.tree[k].frame] == k)
    && (forall f :: f in s.owner ==> s.owner[f] in s.tree && s.tree[s.owner[f]].frame == f)
  }

  ghost predicate KeyOk(s: State, k: Key)
    requires k in s.tree
  {
    && k.root in s.roots
    && k.level <= 4
    && (k.level == 4 ==> k.index == 0 && s.tree[k] == RootEntry(k.root))
    && (k.level < 4 ==>
          && Parent(k) in s.tree
          && s.tree[k] == Entry(s.mem, s.tree[Parent(k)].frame, k.index % 512)
          && Private(s.tree[k], k.level)
          && EntryOk(s.tree[k], k.level, k.index)
          && !Shared(k.level, k.index))
  }

  ghost predicate SlotOk(s: State, k: Key, i: nat)
    requires k in s.tree && k.level >= 1
  {
    var e := Entry(s.mem, s.tree[k].frame, i);
    EntryOk(e, k.level - 1, k.index * 512 + i) && (Private(e, k.level - 1) ==> Child(k, i) in s.tree)
  }

  ghost predicate TreeOk(s: State) {
    && (forall k {:trigger KeyOk(s, k)} :: k in s.tree ==> KeyOk(s, k))
    && (forall k, i {:trigger SlotOk(s, k, i)} :: k in s.tree && k.level >= 1 && 0 <= i < 512 ==> SlotOk(s, k, i))
  }

  /** A root in use keeps the level-3 table that holds the shared first GiB. */
  ghost predicate RootsOk(s: State) {
    && s.anchored <= s.roots
    && (forall r :: r in s.roots ==> Key(r, 4, 0) in s.tree)
    && (forall r :: r in s.anchored ==>
          Key(r, 3, 0) in s.tree && Entry(s.mem, s.tree[Key(r, 3, 0)].frame, 0).present)
  }

  ghost predicate Inv(s: State) {
    Partition(s) && Inverse(s) && TreeOk(s) && RootsOk(s)
  }

  /** tree is what a walk through memory finds. */
  lemma {:induction false} TreeIsWalk(s: State, k: Key)
    requires Inv(s) && k.root in s.roots
    ensures Walk(s.mem, k) == if k in s.tree then Some(s.tree[k]) else None
    decreases if k.level <= 4 then 4 - k.level else 0
  {
    if k in s.tree { assert KeyOk(s, k); }
    if k.level < 4 {
      TreeIsWalk(s, Parent(k));
      if Parent(k) in s.tree {
        assert SlotOk(s, Parent(k), k.index % 512);
        assert Child(Parent(k), k.index % 512) == k;
      }
    }
  }

  // ----- Primitive steps -----

  function Write(mem: Memory, frame: nat, slot: nat, e: Pte): (r: Memory)
    requires frame in mem && slot < |mem[frame]|
    ensures r.Keys == mem.Keys && forall f :: f in mem ==> |r[f]| == |mem[f]|
    ensures forall f: nat, i: nat {:trigger Entry(r, f, i)} ::
              Entry(r, f, i) == if f == frame && i == slot then e else Entry(mem, f, i)
  {
    mem[frame := mem[frame][slot := e]]
  }

  function Allocated(s: State, f: nat): State {
    s.(mem := s.mem[f := ZeroFrame()], free := s.free - {f}, others := s.others + {f})
  }

  /** The table of a Key has the same entries in another memory. */
  ghost predicate SameEntries(s: State, mem: Memory, k: Key)
    requires k in s.tree
  {
    forall i: nat :: Entry(mem, s.tree[k].frame, i) == Entry(s.mem, s.tree[k].frame, i)
  }

  /** The tree only depends on the entries of its tables. */
  lemma TreeKeeps(s: State, s': State)
    requires TreeOk(s) && RootsOk(s) && s'.tree == s.tree && s'.roots == s.roots && s'.anchored == s.anchored
    requires forall k :: k in s.tree && k.level >= 1 ==> SameEntries(s, s'.mem, k)
    ensures TreeOk(s') && RootsOk(s')
  {
    hide Entry, Private, EntryOk, Shared;
    forall k | k in s.tree ensures KeyOk(s', k) {
      assert KeyOk(s, k);
      if k.level < 4 { assert SameEntries(s, s'.mem, Parent(k)); }
    }
    forall k, i | k in s.tree && k.level >= 1 && 0 <= i < 512 ensures SlotOk(s', k, i) { assert SlotOk(s, k, i)
        && SameEntries(s, s'.mem, k); }
    forall r | r in s.anchored
      ensures Entry(s'.mem, s.tree[Key(r, 3, 0)].frame, 0).present { assert SameEntries(s, s'.mem, Key(r, 3, 0)); }
  }

  lemma OwnedFrame(s: State, k: Key)
    requires Inverse(s) && k in s.tree
    ensures s.tree[k].frame in s.owner && s.owner[s.tree[k].frame] == k
  {
  }

  lemma AllocateKeeps(s: State, f: nat)
    requires Inv(s) && f in s.free
    ensures Inv(Allocated(s, f))
  {
    hide TreeOk, RootsOk;
    var s' := Allocated(s, f);
    forall k | k in s.tree && k.level >= 1 ensures SameEntries(s, s'.mem, k) { OwnedFrame(s, k); }
    TreeKeeps(s, s');
  }

  function Freed(s: State, f: nat): State {
    s.(free := s.free + {f}, others := s.others - {f})
  }

  lemma FreeKeeps(s: State, f: nat)
    requires Inv(s) && f in s.others
    ensures Inv(Freed(s, f))
  {
    hide TreeOk, RootsOk;
    var s' := Freed(s, f);
    forall k | k in s.tree && k.level >= 1 ensures SameEntries(s, s'.mem, k) { }
    TreeKeeps(s, s');
  }

  /** k is a table of the tree, in memory. */
  ghost predicate IsTable(s: State, k: Key) {
    k in s.tree && 1 <= k.level && s.tree[k].frame in s.mem && |s.mem[s.tree[k].frame]| == 512
  }

  /** The slot of k is written with e, which starts to denote a frame nothing reached. */
  ghost function Linked(s: State, k: Key, e: Pte): State
    requires IsTable(s, Parent(k))
  {
    s.(mem := Write(s.mem, s.tree[Parent(k)].frame, k.index % 512, e),
       tree := s.tree[k := e], owner := s.owner[e.frame := k], others := s.others - {e.frame})
  }

  lemma ChildOfParent(k: Key, i: nat, k0: Key)
    requires k.level >= 1 && i < 512
    ensures Child(k, i) == k0 <==> k == Parent(k0) && i == k0.index % 512
  {
  }

  lemma SlotOkAfterWrite(s: State, s': State, k0: Key, e: Pte, k: Key, i: nat)
    requires k in s.tree && k in s'.tree && s'.tree[k] == s.tree[k] && k.level >= 1 && i < 512
    requires SlotOk(s, k, i)
    requires Entry(s'.mem, s.tree[k].frame, i) ==
               if k == Parent(k0) && i == k0.index % 512 then e else Entry(s.mem, s.tree[k].frame, i)
    requires EntryOk(e, k0.level, k0.index) && (Private(e, k0.level) ==> k0 in s'.tree)
    requires Child(k, i) in s.tree && Child(k, i) != k0 ==> Child(k, i) in s'.tree
    ensures SlotOk(s', k, i)
  {
    ChildOfParent(k, i, k0);
  }

  /** s' is s after one write of e to the slot of k0, which is no table in use. */
  ghost predicate Written(s: State, s': State, k0: Key, e: Pte) {
    && IsTable(s, Parent(k0)) && s'.roots == s.roots
    && s'.mem == Write(s.mem, s.tree[Parent(k0)].frame, k0.index % 512, e)
    && (s'.tree == s.tree[k0 := e] || (s'.tree == s.tree - {k0} && e == ZERO))
    && (k0 in s'.tree ==> Private(e, k0.level) && EntryOk(e, k0.level, k0.index) && !Shared(k0.level, k0.index))
    && (k0 in s'.tree && k0.level >= 1 ==>
          e.frame != s.tree[Parent(k0)].frame && forall i: nat :: Entry(s.mem, e.frame, i) == ZERO)
    && forall k :: k in s.tree && k.level < 4 ==> Parent(k) != k0
  }

  lemma WriteKeepsKeys(s: State, s': State, k0: Key, e: Pte, k: Key)
    requires Inv(s) && Written(s, s', k0, e) && k in s'.tree
    ensures KeyOk(s', k)
  {
    var t := s.tree[Parent(k0)].frame;
    assert KeyOk(s, Parent(k0));
    if k != k0 {
      assert KeyOk(s, k);
      if k.level < 4 {
        assert s.tree[Parent(k)].frame == t ==> Parent(k) == Parent(k0);
        assert Parent(k) == Parent(k0) ==> k.index % 512 != k0.index % 512;
      }
    }
  }

  lemma WriteKeepsSlots(s: State, s': State, k0: Key, e: Pte, k: Key, i: nat)
    requires Inv(s) && Written(s, s', k0, e) && k in s'.tree && k.level >= 1 && i < 512
    ensures SlotOk(s', k, i)
  {
    var t := s.tree[Parent(k0)].frame;
    if k != k0 {
      assert SlotOk(s, k, i);
      assert s.tree[k].frame == t ==> k == Parent(k0);
      SlotOkAfterWrite(s, s', k0, e, k, i);
    }
  }

  lemma WriteKeepsTree(s: State, s': State, k0: Key, e: Pte)
    requires Inv(s) && Written(s, s', k0, e)
    ensures TreeOk(s')
  {
    forall k | k in s'.tree ensures KeyOk(s', k) { WriteKeepsKeys(s, s', k0, e, k); }
    forall k, i | k in s'.tree && k.level >= 1 && 0 <= i < 512 ensures SlotOk(s', k, i) {
      WriteKeepsSlots(s, s', k0, e, k, i);
    }
  }

  lemma LinkKeeps(s: State, k0: Key, e: Pte)
    requires Inv(s) && IsTable(s, Parent(k0)) && k0 !in s.tree
    requires Private(e, k0.level) && EntryOk(e, k0.level, k0.index) && !Shared(k0.level, k0.index)
    requires e.frame in s.others && (k0.level >= 1 ==> s.mem[e.frame] == ZeroFrame())
    ensures Inv(Linked(s, k0, e))
  {
    var s' := Linked(s, k0, e);
    assert KeyOk(s, Parent(k0));
    forall k | k in s.tree && k.level < 4 ensures Parent(k) != k0 { assert KeyOk(s, k); }
    WriteKeepsTree(s, s', k0, e);
  }

  predicate Empty(mem: Memory, f: nat) {
    forall i :: 0 <= i < 512 ==> !Entry(mem, f, i).present
  }

  /** The slot of k is cleared; its frame is no longer reached. */
  ghost function Unlinked(s: State, k: Key): State
    requires IsTable(s, Parent(k)) && k in s.tree
  {
    s.(mem := Write(s.mem, s.tree[Parent(k)].frame, k.index % 512, ZERO),
       tree := s.tree - {k}, owner := s.owner - {s.tree[k].frame}, others := s.others + {s.tree[k].frame})
  }

  ghost predicate NoChild(s: State, k0: Key) {
    forall k :: k in s.tree && k.level < 4 ==> Parent(k) != k0
  }

  lemma EmptyHasNoChild(s: State, k0: Key)
    requires Inv(s) && k0 in s.tree && Empty(s.mem, s.tree[k0].frame)
    ensures NoChild(s, k0)
    ensures k0.level == 3 && k0.index == 0 ==> k0.root !in s.anchored
  {
    forall k | k in s.tree && k.level < 4 ensures Parent(k) != k0 {
      assert KeyOk(s, k);
      assert !Entry(s.mem, s.tree[k0].frame, k.index % 512).present;
    }
  }

  lemma UnlinkKeepsRoots(s: State, k0: Key)
    requires Inv(s) && IsTable(s, Parent(k0)) && k0 in s.tree
    requires k0.level == 3 && k0.index == 0 ==> k0.root !in s.anchored
    ensures RootsOk(Unlinked(s, k0))
  {
    assert KeyOk(s, Parent(k0)) && KeyOk(s, k0);
    forall r | r in s.anchored
      ensures Key(r, 3, 0) != k0
      ensures Entry(Unlinked(s, k0).mem, s.tree[Key(r, 3, 0)].frame, 0).present
    {
      var low := Key(r, 3, 0);
      if s.tree[low].frame == s.tree[Parent(k0)].frame { assert low == Parent(k0); }
    }
  }

  lemma UnlinkKeeps(s: State, k0: Key)
    requires Inv(s) && IsTable(s, Parent(k0)) && k0 in s.tree && NoChild(s, k0)
    requires k0.level == 3 && k0.index == 0 ==> k0.root !in s.anchored
    ensures Inv(Unlinked(s, k0))
  {
    hide Write, Partition, Inverse, RootsOk;
    assert KeyOk(s, k0) && KeyOk(s, Parent(k0));
    WriteKeepsTree(s, Unlinked(s, k0), k0, ZERO);
    UnlinkKeepsRoots(s, k0);
    UnlinkKeepsInverse(s, k0);
  }

  lemma UnlinkKeepsInverse(s: State, k0: Key)
    requires Partition(s) && Inverse(s) && IsTable(s, Parent(k0)) && k0 in s.tree
    ensures Partition(Unlinked(s, k0)) && Inverse(Unlinked(s, k0))
  {
    hide Write;
  }

  /** A page keeps its frame and gets other permission bits. */
  ghost function Reflagged(s: State, k: Key, e: Pte): State
    requires IsTable(s, Parent(k))
  {
    s.(mem := Write(s.mem, s.tree[Parent(k)].frame, k.index % 512, e), tree := s.tree[k := e])
  }

  lemma ReflagKeeps(s: State, k0: Key, e: Pte)
    requires Inv(s) && IsTable(s, Parent(k0)) && k0 in s.tree && k0.level == 0
    requires e.present && EntryOk(e, 0, k0.index) && e.frame == s.tree[k0].frame
    ensures Inv(Reflagged(s, k0, e))
  {
    assert KeyOk(s, k0);
    assert KeyOk(s, Parent(k0));
    WriteKeepsTree(s, Reflagged(s, k0, e), k0, e);
  }

  /** Memory outside the tables can be written freely; a page may be overwritten. */
  lemma ContentsKeep(s: State, s': State, f: nat)
    requires Inv(s) && s' == s.(mem := s'.mem) && f in s.mem
    requires s'.mem.Keys == s.mem.Keys && |s'.mem[f]| == 512
    requires forall g :: g in s.mem && g != f ==> s'.mem[g] == s.mem[g]
    requires f in s.owner ==> s.owner[f].level == 0
    ensures Inv(s')
  {
    hide TreeOk, RootsOk;
    forall k | k in s.tree && k.level >= 1 ensures SameEntries(s, s'.mem, k) { OwnedFrame(s, k); }
    TreeKeeps(s, s');
  }

  /** A new root a with its first level-3 table b. */
  ghost function Rooted(s: State, a: nat, b: nat): State {
    s.(roots := s.roots + {a}, anchored := s.anchored + {a},
       tree := s.tree[Key(a, 4, 0) := RootEntry(a)][Key(a, 3, 0) := RootEntry(b)],
       owner := s.owner[a := Key(a, 4, 0)][b := Key(a, 3, 0)], others := s.others - {a, b})
  }

  /** Frames a and b hold the entries that vm_create gives to a root and its table. */
  ghost predicate RootFrames(mem: Memory, a: nat, b: nat) {
    && Entry(mem, a, 0) == RootEntry(b)
    && (forall i :: 1 <= i < 512 ==> Entry(mem, a, i).present ==> i >= 256 && !Entry(mem, a, i).user)
    && Entry(mem, b, 0).present && !Entry(mem, b, 0).user
    && (forall i :: 1 <= i < 512 ==> !Entry(mem, b, i).present)
  }

  lemma RootKeepsTree(s: State, a: nat, b: nat)
    requires Inv(s) && a in s.others && b in s.others && a != b && RootFrames(s.mem, a, b)
    ensures TreeOk(Rooted(s, a, b))
  {
    hide KeyOk, SlotOk, Inverse, Partition, RootsOk, RootFrames, Entry;
    var s' := Rooted(s, a, b);
    NoKeyOf(s, a);
    forall k | k in s'.tree ensures KeyOk(s', k) {
      if k in s.tree { RootOldKey(s, a, b, k, 0); } else { RootNewKey(s, a, b, k, 0); }
    }
    forall k, i | k in s'.tree && k.level >= 1 && 0 <= i < 512 ensures SlotOk(s', k, i) {
      if k in s.tree { RootOldKey(s, a, b, k, i); } else { RootNewKey(s, a, b, k, i); }
    }
  }

  lemma RootOldKey(s: State, a: nat, b: nat, k: Key, i: nat)
    requires Inv(s) && a in s.others && b in s.others && a != b && k in s.tree && i < 512
    requires forall j :: j in s.tree ==> j.root != a
    ensures KeyOk(Rooted(s, a, b), k) && (k.level >= 1 ==> SlotOk(Rooted(s, a, b), k, i))
  {
    hide Entry, Private, EntryOk, Shared, Inverse, Partition, RootsOk;
    assert KeyOk(s, k);
    if k.level >= 1 { assert SlotOk(s, k, i); }
  }

  lemma RootNewKey(s: State, a: nat, b: nat, k: Key, i: nat)
    requires Inv(s) && a in s.others && b in s.others && a != b && RootFrames(s.mem, a, b) && i < 512
    requires k !in s.tree && k in Rooted(s, a, b).tree
    ensures KeyOk(Rooted(s, a, b), k) && (k.level >= 1 ==> SlotOk(Rooted(s, a, b), k, i))
  {
    hide Entry, Inverse, Partition, RootsOk, TreeOk;
  }

  /** A frame that is not a root names no Key. */
  lemma NoKeyOf(s: State, a: nat)
    requires Inv(s) && a in s.others
    ensures a !in s.roots && forall k :: k in s.tree ==> k.root != a
  {
    assert Key(a, 4, 0) in s.tree ==> KeyOk(s, Key(a, 4, 0));
    forall k | k in s.tree ensures k.root != a { assert KeyOk(s, k); }
  }

  lemma RootKeeps(s: State, a: nat, b: nat)
    requires Inv(s) && a in s.others && b in s.others && a != b && RootFrames(s.mem, a, b)
    ensures Inv(Rooted(s, a, b)) && a !in s.roots
  {
    RootKeepsTree(s, a, b);
    NoKeyOf(s, a);
    RootKeepsInverse(s, a, b);
  }

  lemma RootKeepsInverse(s: State, a: nat, b: nat)
    requires Partition(s) && Inverse(s) && a in s.others && b in s.others && a != b
    requires Key(a, 4, 0) !in s.tree && Key(a, 3, 0) !in s.tree
    ensures Partition(Rooted(s, a, b)) && Inverse(Rooted(s, a, b))
  {
  }

  /** A root without children leaves. */
  ghost function Unrooted(s: State, r: nat): State {
    s.(roots := s.roots - {r}, tree := s.tree - {Key(r, 4, 0)}, owner := s.owner - {r}, others := s.others + {r})
  }

  lemma UnrootKeeps(s: State, r: nat)
    requires Inv(s) && r in s.roots && r !in s.anchored
    requires forall k :: k in s.tree && k.root == r ==> k == Key(r, 4, 0)
    ensures Inv(Unrooted(s, r))
  {
    assert KeyOk(s, Key(r, 4, 0));
    UnrootKeepsTree(s, r);
    UnrootKeepsInverse(s, r);
  }

  lemma UnrootKeepsTree(s: State, r: nat)
    requires Inv(s) && r in s.roots
    requires forall k :: k in s.tree && k.root == r ==> k == Key(r, 4, 0)
    ensures TreeOk(Unrooted(s, r))
  {
    var s' := Unrooted(s, r);
    forall k | k in s'.tree ensures KeyOk(s', k) { assert KeyOk(s, k); }
    forall k, i | k in s'.tree && k.level >= 1 && 0 <= i < 512 ensures SlotOk(s', k, i) {
      assert KeyOk(s, k) && SlotOk(s, k, i);
    }
  }

  lemma UnrootKeepsInverse(s: State, r: nat)
    requires Partition(s) && Inverse(s) && Key(r, 4, 0) in s.tree && s.tree[Key(r, 4, 0)].frame == r
    ensures Partition(Unrooted(s, r)) && Inverse(Unrooted(s, r))
  {
  }

  // ----- Addresses and the map of pages -----

  predicate UserAddress(va: nat) {
    0x4000_0000 <= va < 0x8000_0000_0000
  }

  /** va >> (12 + 9 * level): the position of the slot of a level that translates va. */
  function IndexAt(va: nat, level: nat): nat
    requires level <= 3
  {
    match level
    case 0 => va / 0x1000
    case 1 => va / 0x20_0000
    case 2 => va / 0x4000_0000
    case _ => va / 0x80_0000_0000
  }

  function KeyAt(root: nat, va: nat, level: nat): Key
    requires level <= 4
  {
    if level == 4 then Key(root, 4, 0) else Key(root, level, IndexAt(va, level))
  }

  lemma KeyAtParent(root: nat, va: nat, level: nat)
    requires level <= 3 && va < 0x1_0000_0000_0000
    ensures Parent(KeyAt(root, va, level)) == KeyAt(root, va, level + 1)
    ensures UserAddress(va) ==> !Shared(level, IndexAt(va, level))
  {
  }

  /** What the address space says about a page. */
  datatype Leaf = Leaf(frame: nat, write: bool, exec: bool, noaccess: bool)

  function LeafOf(e: Pte): Leaf {
    Leaf(e.frame, e.write, !e.nx, e.noaccess)
  }

  type PageMap = map<nat, Leaf>

  /** The pages of a root, read from memory alone. */
  ghost function View(mem: Memory, root: nat): PageMap {
    map p | 0 <= p < USER_LIMIT && Walk(mem, Key(root, 0, p)).Some? :: LeafOf(Walk(mem, Key(root, 0, p)).value)
  }

  ghost function TreePages(tree: map<Key, Pte>, root: nat): PageMap {
    map p | 0 <= p < USER_LIMIT && Key(root, 0, p) in tree :: LeafOf(tree[Key(root, 0, p)])
  }

  lemma ViewIsTree(s: State, root: nat)
    requires Inv(s) && root in s.roots
    ensures View(s.mem, root) == TreePages(s.tree, root)
  {
    forall p: nat ensures Walk(s.mem, Key(root, 0, p)) ==
                     if Key(root, 0, p) in s.tree then Some(s.tree[Key(root, 0, p)]) else None
    {
      TreeIsWalk(s, Key(root, 0, p));
    }
  }

  /** Pages of the tree are user pages. */
  lemma {:induction false} TreeIndex(s: State, k: Key)
    requires Inv(s) && k in s.tree
    ensures k.level == 3 ==> k.index < 256
    ensures k.level == 2 ==> 1 <= k.index < 0x2_0000
    ensures k.level == 1 ==> 512 <= k.index < 0x400_0000
    ensures k.level == 0 ==> USER_FIRST <= k.index < USER_LIMIT
    decreases if k.level <= 4 then 4 - k.level else 0
  {
    assert KeyOk(s, k);
    if k.level < 3 { TreeIndex(s, Parent(k)); }
  }
}
