/** copy_to_space of kernel/usercopy.c and fresh pages in physical frames: what user addresses show, through the page
    tables, is a byte map, the one that the ELF loader works on. */
module FrameSpace {
  import opened Wrappers
  import opened PageTables
  import opened TableSteps
  import opened RangeWalk
  import opened AddressSpace
  import opened AddressSpaceRuns
  import ElfImage

  type Bytes = map<nat, ElfImage.byte>

  /** The contents of physical memory. */
  class Ram {
    var bytes: Bytes

    constructor ()
    {
      bytes := map[];
    }
  }

  function ByteAt(ram: Bytes, a: nat): ElfImage.byte { if a in ram then ram[a] else 0 }

  function Physical(leaf: Leaf, va: nat): nat { leaf.frame * 0x1000 + va % 0x1000 }

  /** The byte that a user address of a root shows. */
  ghost function Shown(s: State, ram: Bytes, root: nat, va: nat): Option<ElfImage.byte> {
    var pages := View(s.mem, root);
    if va / 0x1000 in pages then Some(ByteAt(ram, Physical(pages[va / 0x1000], va))) else None
  }

  /** The byte map of a root, as the loader sees it. */
  ghost predicate Represents(s: State, ram: Bytes, root: nat, data: Bytes) {
    forall va: nat :: Shown(s, ram, root, va) == if va in data then Some(data[va]) else None
  }

  /** Two addresses share a physical byte only if they are the same address of the same root. */
  lemma BytesApart(s: State, r: nat, va: nat, r': nat, va': nat)
    requires Inv(s) && r in s.roots && r' in s.roots && va / 0x1000 in View(s.mem, r) && va' / 0x1000 in View(s.mem, r')
    requires Physical(View(s.mem, r)[va / 0x1000], va) == Physical(View(s.mem, r')[va' / 0x1000], va')
    ensures r == r' && va == va'
  {
    hide Inv, View;
    FramesApart(s, r, va / 0x1000, r', va' / 0x1000);
    assert va == 0x1000 * (va / 0x1000) + va % 0x1000 && va' == 0x1000 * (va' / 0x1000) + va' % 0x1000;
  }

  /** Bytes placed at consecutive physical addresses. */
  function Stored(ram: Bytes, at: nat, src: seq<ElfImage.byte>): Bytes { ElfImage.Overlay(ram, at, src) }

  lemma StoredAt(ram: Bytes, at: nat, src: seq<ElfImage.byte>, a: nat)
    ensures ByteAt(Stored(ram, at, src), a) == if at <= a < at + |src| then src[a - at] else ByteAt(ram, a)
  {
    ElfImage.OverlayAt(ram, at, src, a);
    hide ElfImage.Overlay;
  }

  /** Bytes written to a page through its frame appear at that page's addresses, and nowhere else in any root. */
  lemma WriteShows(s: State, ram: Bytes, root: nat, va: nat, src: seq<ElfImage.byte>, r: nat, a: nat)
    requires Inv(s) && root in s.roots && r in s.roots && va / 0x1000 in View(s.mem, root)
    requires va % 0x1000 + |src| <= 0x1000
    ensures
      var ram' := Stored(ram, Physical(View(s.mem, root)[va / 0x1000], va), src);
      Shown(s, ram', r, a) == if r == root && va <= a < va + |src| then Some(src[a - va]) else Shown(s, ram, r, a)
  {
    hide Inv, View, Stored;
    var pages, pages' := View(s.mem, root), View(s.mem, r);
    var at := Physical(pages[va / 0x1000], va);
    if va <= a < va + |src| { InPage(va, a); }
    if a / 0x1000 in pages' {
      var p := Physical(pages'[a / 0x1000], a);
      StoredAt(ram, at, src, p);
      if at <= p < at + |src| {
        var k := p - at;
        InPage(va, va + k);
        BytesApart(s, root, va + k, r, a);
      }
    }
  }

  lemma InPage(va: nat, a: nat)
    requires va <= a < va - va % 0x1000 + 0x1000
    ensures a / 0x1000 == va / 0x1000 && a % 0x1000 == va % 0x1000 + (a - va)
  {
  }

  /** copy_to_space(): the source appears at its addresses and nothing else changes, in any root; it fails when a page
      is missing or not accessible, after the pages before it. */
  method CopyToSpace(m: PhysicalMemory, ram: Ram, root: nat, va: nat, src: seq<ElfImage.byte>) returns (ok: bool,
      ghost done: nat)
    requires m.Valid() && root in m.roots
    modifies ram
    ensures done <= |src| && (ok ==> done == |src|)
    ensures forall r: nat, a: nat :: r in m.roots ==>
              Shown(m.S(), ram.bytes, r, a) ==
              if r == root && va <= a < va + done then Some(src[a - va]) else Shown(m.S(), old(ram.bytes), r, a)
    ensures ok ==> forall data :: Represents(m.S(), old(ram.bytes), root, data) ==>
                                    Represents(m.S(), ram.bytes, root, ElfImage.Overlay(data, va, src))
    ensures ok <==> |src| == 0 || (UserAddress(va) && va + |src| <= 0x8000_0000_0000 && Accessible(m.Pages(root), va, va + |src|))
  {
    hide Inv, View, Stored, Shown, Represents;
    done := 0;
    ghost var ram0 := ram.bytes;
    RootsNotNull(m.S());
    if |src| > 0 && !(0x4000_0000 <= va < 0x8000_0000_0000 && |src| <= 0x8000_0000_0000 - va) { return false, done; }
    var at: nat := 0;
    while at < |src|
      invariant at == done <= |src|
      invariant at > 0 ==> Accessible(m.Pages(root), va, va + at)
      invariant forall r: nat, a: nat :: r in m.roots ==>
                  Shown(m.S(), ram.bytes, r, a) ==
                  if r == root && va <= a < va + at then Some(src[a - va]) else Shown(m.S(), old(ram.bytes), r, a)
    {
      var here := va + at;
      var p := m.Translate(root, here);
      if p == 0 {
        NotAccessible(m.Pages(root), va, here, va + |src|);
        return false, done;
      }
      var n: nat := if |src| - at < 0x1000 - here % 0x1000 then |src| - at else 0x1000 - here % 0x1000;
      var part := src[at..at + n];
      forall r: nat, a: nat | r in m.roots
        ensures Shown(m.S(), Stored(ram.bytes, p, part), r, a) ==
                if r == root && va <= a < va + at + n then Some(src[a - va]) else Shown(m.S(), old(ram.bytes), r, a)
      {
        WriteShows(m.S(), ram.bytes, root, here, part, r, a);
      }
      MoreAccessible(m.Pages(root), va, here, n);
      ram.bytes := Stored(ram.bytes, p, part);
      at := at + n;
      done := at;
    }
    forall data | Represents(m.S(), ram0, root, data)
      ensures Represents(m.S(), ram.bytes, root, ElfImage.Overlay(data, va, src))
    {
      CopyRepresents(m.S(), ram0, m.S(), ram.bytes, root, va, src, data);
    }
    ok := true;
  }

  /** All pages of a range are mapped and accessible. */
  ghost predicate Accessible(pages: PageMap, lo: nat, hi: nat) {
    forall a: nat :: lo <= a < hi ==> a / 0x1000 in pages && !pages[a / 0x1000].noaccess
  }

  lemma NotAccessible(pages: PageMap, lo: nat, here: nat, hi: nat)
    requires lo <= here < hi && (here / 0x1000 !in pages || pages[here / 0x1000].noaccess)
    ensures !Accessible(pages, lo, hi)
  {
  }

  lemma MoreAccessible(pages: PageMap, lo: nat, here: nat, n: nat)
    requires (here > lo ==> Accessible(pages, lo, here)) && lo <= here && here % 0x1000 + n <= 0x1000
    requires here / 0x1000 in pages && !pages[here / 0x1000].noaccess
    ensures Accessible(pages, lo, here + n)
  {
    forall a: nat | here <= a < here + n ensures a / 0x1000 == here / 0x1000 { InPage(here, a); }
  }

  /** What the loader's own copy does to its byte map, the copy into frames does to what the addresses show. */
  lemma CopyRepresents(s: State, ram: Bytes, s': State, ram': Bytes, root: nat, va: nat, src: seq<ElfImage.byte>,
      data: Bytes)
    requires Represents(s, ram, root, data)
    requires forall a: nat :: Shown(s', ram', root, a) == if va <= a < va + |src| then Some(src[a - va]) else Shown(s, ram, root, a)
    ensures Represents(s', ram', root, ElfImage.Overlay(data, va, src))
  {
    hide Shown;
    forall a: nat
      ensures Shown(s', ram', root, a) == var d := ElfImage.Overlay(data, va, src); if a in d then Some(d[a]) else None
    {
      ElfImage.OverlayAt(data, va, src, a);
    }
  }

  /** The frame behind a page. */
  method FrameOf(m: PhysicalMemory, root: nat, va: nat) returns (frame: nat)
    requires m.Valid() && root in m.roots && root != 0 && UserAddress(va) && va / 0x1000 in m.Pages(root)
    ensures frame == m.Pages(root)[va / 0x1000].frame
  {
    hide Inv, View, Walk;
    var found, t := m.FindTable(root, va);
    PageInView(m.S(), root, va);
    var mapped := m.HasPage(root, va, t);
    frame := m.mem[t][IndexAt(va, 0) % 512].frame;
  }

  /** vm_map() with the zeroing of its frame: a fresh page shows zeros, and no other address of any root changes. */
  method MapZeroed(m: PhysicalMemory, ram: Ram, root: nat, va: nat, f: Flags) returns (r: Status)
    requires m.Valid() && root in m.anchored
    modifies m, ram
    ensures m.Valid() && m.roots == old(m.roots) && m.anchored == old(m.anchored)
    ensures r == Invalid <==> !UserAddress(va) || va % 0x1000 != 0 || !UserPermissions(f)
    ensures r != Invalid ==> (r == Exists <==> va / 0x1000 in old(m.Pages(root)))
    ensures r == Ok || r == Invalid || r == Exists || (r == NoMemory && |old(m.free)| < 4 - Depth(old(m.tree), root, va))
    ensures r == Ok ==> |m.free| == |old(m.free)| - (4 - Depth(old(m.tree), root, va))
    ensures r == Ok ==> exists p :: m.Pages(root) == old(m.Pages(root))[va / 0x1000 := FlaggedLeaf(p, f)]
    ensures r == Ok ==> va % 0x1000 == 0 && forall k: nat, a: nat :: k in m.roots ==>
              Shown(m.S(), ram.bytes, k, a) ==
              if k == root && va <= a < va + 0x1000 then Some(0) else Shown(old(m.S()), old(ram.bytes), k, a)
    ensures r == Ok ==> forall data :: Represents(old(m.S()), old(ram.bytes), root, data) ==>
                                         Represents(m.S(), ram.bytes, root, ElfImage.Overlay(data, va, ElfImage.Zeros(0x1000)))
    ensures r != Ok ==> ram.bytes == old(ram.bytes) && forall k :: k in m.roots ==> m.Pages(k) == old(m.Pages(k))
  {
    hide Inv, View, Stored, Shown, Represents, DataSame, KeysKept, SameFrames, AllFilled, PathFilled, KeyAt, Depth;
    RootsNotNull(m.S());
    AnchoredRoots(m.S());
    ghost var s0, ram0 := m.S(), ram.bytes;
    r := m.Map(root, va, f);
    if r != Ok { return; }
    var frame := FrameOf(m, root, va);
    var p := frame * 0x1000;
    var zeros := ElfImage.Zeros(0x1000);
    forall k: nat, a: nat | k in m.roots
      ensures Shown(m.S(), Stored(ram.bytes, p, zeros), k, a) ==
              if k == root && va <= a < va + 0x1000 then Some(0) else Shown(s0, ram0, k, a)
    {
      WriteShows(m.S(), ram0, root, va, zeros, k, a);
      OtherPages(s0, m.S(), ram0, root, va, k, a);
    }
    ram.bytes := Stored(ram.bytes, p, zeros);
    forall data | Represents(s0, ram0, root, data)
      ensures Represents(m.S(), ram.bytes, root, ElfImage.Overlay(data, va, zeros))
    {
      CopyRepresents(s0, ram0, m.S(), ram.bytes, root, va, zeros, data);
    }
  }

  lemma OtherPages(s: State, s': State, ram: Bytes, root: nat, va: nat, k: nat, a: nat)
    requires va % 0x1000 == 0 && (k != root ==> View(s'.mem, k) == View(s.mem, k))
    requires forall q :: q != va / 0x1000 ==> (q in View(s'.mem, root) <==> q in View(s.mem, root))
    requires forall q :: q != va / 0x1000 && q in View(s.mem, root) ==> View(s'.mem, root)[q] == View(s.mem, root)[q]
    ensures !(k == root && va <= a < va + 0x1000) ==> Shown(s', ram, k, a) == Shown(s, ram, k, a)
  {
    hide View;
    if a / 0x1000 == va / 0x1000 { assert va <= a < va + 0x1000; }
  }

  /** Changing permissions shows nothing else. */
  lemma SameShown(s: State, s': State, ram: Bytes, k: nat)
    requires View(s'.mem, k).Keys == View(s.mem, k).Keys
    requires forall q :: q in View(s.mem, k) ==> View(s'.mem, k)[q].frame == View(s.mem, k)[q].frame
    ensures forall a: nat :: Shown(s', ram, k, a) == Shown(s, ram, k, a)
  {
    hide View;
    forall a: nat
      ensures Shown(s', ram, k, a) == Shown(s, ram, k, a)
    {
      assert a / 0x1000 in View(s'.mem, k) <==> a / 0x1000 in View(s.mem, k);
    }
  }

  /** Pages of a root are user pages. */
  lemma PagesAreUser(s: State, root: nat, q: nat)
    requires Inv(s) && root in s.roots && q in View(s.mem, root)
    ensures UserAddress(q * 0x1000)
  {
    hide Inv, View;
    ViewIsTree(s, root);
    TreeIndex(s, Key(root, 0, q));
  }
}
