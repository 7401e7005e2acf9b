/** load_elf of kernel/elf_loader.h: checking an executable, then mapping, filling and relocating it. */
module ElfLoader {
  import opened Wrappers
  import opened ElfImage
  import opened ElfChecks
  import PageTables
  import TableSteps
  import AddressSpace
  import FrameSpace

  datatype Status = Ok | NoExec | NoMemory | Exists | Invalid | Fault

  /** The page of an address. */
  function Page(a: nat): nat { a / 4096 }

  ghost predicate Mapped(data: map<nat, byte>, lo: nat, hi: nat) {
    forall a: nat :: lo <= a < hi ==> a in data
  }

  /** Some pages are new, with these permissions and zeros; nothing else changed. */
  ghost predicate Extended(pages: map<nat, Perm>, data: map<nat, byte>, pages': map<nat, Perm>, data': map<nat, byte>,
                           lo: nat, hi: nat, perm: Perm) {
    && (forall pg: nat :: pg in pages' <==> pg in pages || lo <= pg < hi)
    && (forall pg: nat :: pg in pages' ==> pages'[pg] == if pg in pages then pages[pg] else perm)
    && (forall a: nat :: a in data' ==> if a in data then data'[a] == data[a] else data'[a] == 0)
  }

  /** The bytes are those of the pages. */
  ghost predicate Backed(pages: map<nat, Perm>, data: map<nat, byte>) {
    forall a: nat :: a in data <==> Page(a) in pages
  }

  lemma NewPage(pages: map<nat, Perm>, data: map<nat, byte>, va: nat, perm: Perm)
    requires Backed(pages, data) && va % 4096 == 0 && Page(va) !in pages
    ensures
      var pages', data' := pages[Page(va) := perm], Overlay(data, va, Zeros(4096));
      Backed(pages', data') && Extended(pages, data, pages', data', Page(va), Page(va) + 1, perm)
  {
    hide Overlay, Page, Backed;
    var pages', data' := pages[Page(va) := perm], Overlay(data, va, Zeros(4096));
    forall a: nat
      ensures (a in data' <==> Page(a) in pages') && (a in data' ==> data'[a] == if a in data then data[a] else 0)
    {
      NewByte(pages, data, va, perm, a);
    }
    assert Backed(pages', data') by { AllBacked(pages', data'); }
  }

  lemma AllBacked(pages: map<nat, Perm>, data: map<nat, byte>)
    requires forall a: nat :: a in data <==> Page(a) in pages
    ensures Backed(pages, data)
  {
  }

  lemma NewByte(pages: map<nat, Perm>, data: map<nat, byte>, va: nat, perm: Perm, a: nat)
    requires Backed(pages, data) && va % 4096 == 0 && Page(va) !in pages
    ensures
      var pages', data' := pages[Page(va) := perm], Overlay(data, va, Zeros(4096));
      (a in data' <==> Page(a) in pages') && (a in data' ==> data'[a] == if a in data then data[a] else 0)
  {
    hide Overlay, Page;
    WholePage(va, a);
    assert a in data <==> Page(a) in pages;
    OverlayAt(data, va, Zeros(4096), a);
  }

  lemma WholePage(va: nat, a: nat)
    requires va % 4096 == 0
    ensures Page(a) == Page(va) <==> va <= a < va + 4096
  {
  }

  /** The pages of a root, all accessible, with these permissions. */
  ghost predicate Seen(all: PageTables.PageMap, pages: map<nat, Perm>) {
    && (forall pg: nat :: pg in all <==> pg in pages)
    && forall pg: nat :: pg in pages ==> pages[pg] == Perm(all[pg].write, all[pg].exec) && !all[pg].noaccess
  }

  /** The other address spaces show what they did. */
  ghost predicate OthersShow(s: PageTables.State, ram: FrameSpace.Bytes, s': PageTables.State, ram': FrameSpace.Bytes,
      root: nat) {
    s'.roots == s.roots && forall k: nat, a: nat :: k in s.roots && k != root ==>
      FrameSpace.Shown(s', ram', k, a) == FrameSpace.Shown(s, ram, k, a)
  }

  /** The user memory of a task: its page tables and the frames behind them.  The pages with their permissions and the
      bytes that they show are kept beside. */
  class Space {
    const m: AddressSpace.PhysicalMemory
    const ram: FrameSpace.Ram
    const root: nat
    ghost var pages: map<nat, Perm>
    ghost var data: map<nat, byte>

    /** A new address space, without pages. */
    constructor (m: AddressSpace.PhysicalMemory, ram: FrameSpace.Ram, root: nat)
      requires m.Valid() && root in m.anchored && m.Pages(root) == map[]
      ensures Valid() && pages == map[] && data == map[] && this.m == m && this.ram == ram && this.root == root
    {
      this.m, this.ram, this.root, pages, data := m, ram, root, map[], map[];
    }

    ghost predicate Valid()
      reads this, m, ram
    {
      Backed(pages, data) && Real()
    }

    /** The page tables have the pages, and the frames the bytes. */
    ghost predicate Real()
      reads this, m, ram
    {
      && m.Valid() && root in m.anchored && Seen(m.Pages(root), pages)
      && FrameSpace.Represents(m.S(), ram.bytes, root, data)
    }

    /** vm_map(); it runs out of memory exactly when the frames left do not make the page and its tables. */
    method Map(va: nat, perm: Perm) returns (r: Status)
      requires Valid()
      modifies this`pages, this`data, m, ram
      ensures Valid() && (r == Ok || r == Exists || r == NoMemory || r == Invalid)
      ensures OthersShow(old(m.S()), old(ram.bytes), m.S(), ram.bytes, root)
      ensures r == Invalid <==> !(USER_MIN <= va < USER_END) || va % 4096 != 0 || (perm.write && perm.execute)
      ensures r != Invalid ==> (r == Exists <==> Page(va) in old(pages))
      ensures r == NoMemory ==> |old(m.free)| < 4 - TableSteps.Depth(old(m.tree), root, va)
      ensures r == Ok ==> |m.free| == |old(m.free)| - (4 - TableSteps.Depth(old(m.tree), root, va))
      ensures (r == Ok ==> |old(m.free)| - 4 <= |m.free|) && (r == NoMemory ==> |old(m.free)| < 4)
      ensures r != Ok ==> pages == old(pages) && data == old(data)
      ensures r == Ok ==> Extended(old(pages), old(data), pages, data, Page(va), Page(va) + 1, perm)
    {
      hide Overlay, Extended, PageTables.Inv, PageTables.View, FrameSpace.Shown, FrameSpace.Represents, Backed,
        TableSteps.Depth;
      ghost var s0, ram0 := m.S(), ram.bytes;
      AnchorIsRoot(s0, root);
      var mapped :=
        FrameSpace.MapZeroed(m, ram, root, va, TableSteps.Flags(perm.write, perm.execute, false, false, false));
      r := match mapped case Ok => Ok case Invalid => Invalid case NoMemory => NoMemory case Exists => Exists case Fault => Fault;
      if r == Ok {
        NewPage(pages, data, va, perm);
        ghost var frame :| m.Pages(root) ==
          PageTables.View(s0.mem, root)[va / 0x1000 := TableSteps.FlaggedLeaf(frame, TableSteps.Flags(perm.write, perm.execute, false, false, false))];
        NewSeen(PageTables.View(s0.mem, root), m.Pages(root), va, perm, pages, frame);
        pages, data := pages[Page(va) := perm], Overlay(data, va, Zeros(4096));
      }
      if mapped != TableSteps.Ok { FramesShow(s0, m.S(), ram0, root, data); }
    }

    /** copy_to_space(), page by page; write permission is not asked for. */
    method CopyTo(va: nat, src: seq<byte>) returns (ok: bool)
      requires Valid()
      modifies this`data, ram
      ensures Valid() && data.Keys == old(data.Keys) && m.S() == old(m.S())
      ensures OthersShow(old(m.S()), old(ram.bytes), m.S(), ram.bytes, root)
      ensures ok <==> |src| == 0 || (USER_MIN <= va && va + |src| <= USER_END && Mapped(old(data), va, va + |src|))
      ensures ok ==> data == Overlay(old(data), va, src)
      ensures forall a: nat :: a in data && !(va <= a < va + |src|) ==> data[a] == old(data)[a]
    {
      hide Overlay, PageTables.Inv, PageTables.View, FrameSpace.Shown, FrameSpace.Represents, FrameSpace.Accessible,
        Backed, Seen, Mapped;
      ghost var ram0, done := ram.bytes, 0;
      AnchorIsRoot(m.S(), root);
      MappedAccessible(m.Pages(root), pages, data, va, va + |src|);
      ok, done := FrameSpace.CopyToSpace(m, ram, root, va, src);
      CopiedData(m.S(), ram0, ram.bytes, root, va, src, done, data);
      KeysBacked(pages, data, Overlay(data, va, src[..done]));
      assert src[..|src|] == src;
      data := Overlay(data, va, src[..done]);
    }

    /** vm_readonly() on a mapped page. */
    method ReadOnly(va: nat) returns (r: Status)
      requires Valid()
      modifies this`pages, m
      ensures Valid() && r in {Ok, Invalid, Fault}
      ensures OthersShow(old(m.S()), old(ram.bytes), m.S(), ram.bytes, root)
      ensures r == Ok <==> va % 4096 == 0 && Page(va) in old(pages)
      ensures r != Ok ==> pages == old(pages)
      ensures r == Ok ==> pages == old(pages)[Page(va) := old(pages)[Page(va)].(write := false)]
    {
      hide PageTables.Inv, PageTables.View, FrameSpace.Shown, FrameSpace.Represents, Backed;
      ghost var s0 := m.S();
      AnchorIsRoot(s0, root);
      if Page(va) in pages { FrameSpace.PagesAreUser(s0, root, Page(va)); }
      var done := m.ReadOnly(root, va);
      r := match done case Ok => Ok case Invalid => Invalid case _ => Fault;
      if r == Ok {
        PagesBacked(pages, pages[Page(va) := pages[Page(va)].(write := false)], data);
        pages := pages[Page(va) := pages[Page(va)].(write := false)];
      }
      FramesShow(s0, m.S(), ram.bytes, root, data);
    }
  }

  lemma AnchorIsRoot(s: PageTables.State, root: nat)
    requires PageTables.Inv(s) && root in s.anchored
    ensures root in s.roots && root != 0
  {
    hide PageTables.Inv;
    TableSteps.AnchoredRoots(s);
  }

  lemma OthersSelf(s: PageTables.State, ram: FrameSpace.Bytes, root: nat)
    ensures OthersShow(s, ram, s, ram, root)
  {
    hide FrameSpace.Shown;
  }

  lemma OthersThen(s: PageTables.State, ram: FrameSpace.Bytes, s1: PageTables.State, ram1: FrameSpace.Bytes,
      s2: PageTables.State,
      ram2: FrameSpace.Bytes, root: nat)
    requires OthersShow(s, ram, s1, ram1, root) && OthersShow(s1, ram1, s2, ram2, root)
    ensures OthersShow(s, ram, s2, ram2, root)
  {
    hide FrameSpace.Shown;
  }

  /** Same frames, same bytes. */
  lemma FramesShow(s: PageTables.State, s': PageTables.State, ram: FrameSpace.Bytes, root: nat, data: map<nat, byte>)
    requires root in s.roots && s'.roots == s.roots && FrameSpace.Represents(s, ram, root, data)
    requires forall k :: k in s.roots ==> PageTables.View(s'.mem, k).Keys == PageTables.View(s.mem, k).Keys
    requires forall k, q :: k in s.roots && q in PageTables.View(s.mem, k) && q in PageTables.View(s'.mem, k) ==>
               PageTables.View(s'.mem, k)[q].frame == PageTables.View(s.mem, k)[q].frame
    ensures FrameSpace.Represents(s', ram, root, data) && OthersShow(s, ram, s', ram, root)
  {
    hide PageTables.View, FrameSpace.Shown;
    forall k, a: nat | k in s.roots ensures FrameSpace.Shown(s', ram, k, a) == FrameSpace.Shown(s, ram, k, a) {
      FrameSpace.SameShown(s, s', ram, k);
    }
  }

  /** A new page and its permissions. */
  lemma NewSeen(all: PageTables.PageMap, all': PageTables.PageMap, va: nat, perm: Perm, pages: map<nat, Perm>,
      frame: nat)
    requires Seen(all, pages)
    requires all' == all[Page(va) := TableSteps.FlaggedLeaf(frame, TableSteps.Flags(perm.write, perm.execute, false, false, false))]
    ensures Seen(all', pages[Page(va) := perm])
  {
  }

  /** The bytes of a range are those of accessible pages. */
  lemma MappedAccessible(all: PageTables.PageMap, pages: map<nat, Perm>, data: map<nat, byte>, lo: nat, hi: nat)
    requires Backed(pages, data) && Seen(all, pages)
    ensures FrameSpace.Accessible(all, lo, hi) <==> Mapped(data, lo, hi)
  {
    if FrameSpace.Accessible(all, lo, hi) {
      forall a: nat | lo <= a < hi ensures a in data { assert a in data <==> Page(a) in pages; }
    }
    if Mapped(data, lo, hi) {
      forall a: nat | lo <= a < hi
        ensures a / 0x1000 in all && !all[a / 0x1000].noaccess { assert a in data <==> Page(a) in pages; }
    }
  }

  /** What a copy leaves, also one that stopped on the way. */
  lemma CopiedData(s: PageTables.State, ram: FrameSpace.Bytes, ram': FrameSpace.Bytes, root: nat, va: nat,
      src: seq<byte>, done: nat,
      data: map<nat, byte>)
    requires root in s.roots && done <= |src| && FrameSpace.Represents(s, ram, root, data)
    requires forall r: nat, a: nat :: r in s.roots ==>
               FrameSpace.Shown(s, ram', r, a) ==
               if r == root && va <= a < va + done then Some(src[a - va]) else FrameSpace.Shown(s, ram, r, a)
    ensures FrameSpace.Represents(s, ram', root, Overlay(data, va, src[..done])) && OthersShow(s, ram, s, ram', root)
    ensures Overlay(data, va, src[..done]).Keys == data.Keys
  {
    hide FrameSpace.Shown, Overlay;
    FrameSpace.CopyRepresents(s, ram, s, ram', root, va, src[..done], data);
    forall a: nat | va <= a < va + done ensures a in data { StillThere(s, ram, ram', root, a, data); }
    forall a: nat ensures a in Overlay(data, va, src[..done]) <==> a in data { OverlayAt(data, va, src[..done], a); }
  }

  /** A byte that is shown was shown before. */
  lemma StillThere(s: PageTables.State, ram: FrameSpace.Bytes, ram': FrameSpace.Bytes, root: nat, a: nat,
      data: map<nat, byte>)
    requires FrameSpace.Represents(s, ram, root, data) && FrameSpace.Shown(s, ram', root, a).Some?
    ensures a in data
  {
    hide PageTables.View;
  }

  lemma PagesBacked(pages: map<nat, Perm>, pages': map<nat, Perm>, data: map<nat, byte>)
    requires Backed(pages, data) && forall pg: nat :: pg in pages' <==> pg in pages
    ensures Backed(pages', data)
  {
    hide Page;
  }

  lemma KeysBacked(pages: map<nat, Perm>, data: map<nat, byte>, data': map<nat, byte>)
    requires Backed(pages, data) && data'.Keys == data.Keys
    ensures Backed(pages, data')
  {
    hide Page;
  }

  // ----- What has been loaded -----

  /** Segment i is in memory, after the first k relocations and with the first m headers' RELRO pages read-only. */
  ghost predicate Loaded(pages: map<nat, Perm>, data: map<nat, byte>, d: seq<byte>, ph: seq<Segment>, i: nat, bias: nat,
                         rs: seq<Rela>, k: nat, m: nat)
    requires i < |ph| && k <= |rs| && m <= |ph|
  {
    && (forall pg: nat :: InSegment(ph[i], bias, pg) ==>
          pg in pages && pages[pg] == Perm(ElfImage.Writable(ph[i]) && !InRelro(ph, bias, pg, m), Executable(ph[i])))
    && (forall a: nat :: InSegment(ph[i], bias, Page(a)) ==>
          a in data && data[a] == Patched(rs, bias, k, a, FileByte(d, ph[i], bias, a)))
  }

  /** What was there before is as it was, and not in the segments. */
  ghost predicate Kept(pages0: map<nat, Perm>, data0: map<nat, byte>, pages: map<nat, Perm>, data: map<nat, byte>) {
    (forall pg: nat :: pg in pages0 ==> pg in pages && pages[pg] == pages0[pg])
        && (forall a: nat :: a in data0 ==> a in data && data[a] == data0[a])
  }

  ghost predicate Filled(pages0: map<nat, Perm>, data0: map<nat, byte>, pages: map<nat, Perm>, data: map<nat, byte>,
                         d: seq<byte>, ph: seq<Segment>, n: nat, bias: nat, rs: seq<Rela>, k: nat, m: nat)
    requires n <= |ph| && k <= |rs| && m <= |ph|
  {
    && Kept(pages0, data0, pages, data)
    && (forall pg: nat :: pg in pages <==> pg in pages0 || Covered(ph, bias, pg, n))
    && (forall pg: nat :: Covered(ph, bias, pg, n) ==> pg !in pages0)
    && (forall i :: 0 <= i < n && Loadable(ph[i]) ==> Loaded(pages, data, d, ph, i, bias, rs, k, m))
  }

  lemma CoveredMore(ph: seq<Segment>, bias: nat, pg: nat, n: nat)
    requires n < |ph|
    ensures Covered(ph, bias, pg, n + 1) <==> Covered(ph, bias, pg, n) || InSegment(ph[n], bias, pg)
  {
    hide InSegment;
  }

  lemma SkipSegment(pages0: map<nat, Perm>, data0: map<nat, byte>, pages: map<nat, Perm>, data: map<nat, byte>,
                    d: seq<byte>, ph: seq<Segment>, n: nat, bias: nat, rs: seq<Rela>)
    requires n < |ph| && Filled(pages0, data0, pages, data, d, ph, n, bias, rs, 0, 0) && !Loadable(ph[n])
    ensures Filled(pages0, data0, pages, data, d, ph, n + 1, bias, rs, 0, 0)
  {
    hide Loaded, Covered, Kept;
    forall pg: nat ensures Covered(ph, bias, pg, n + 1) <==> Covered(ph, bias, pg, n) { CoveredMore(ph, bias, pg, n); }
  }

  /** A segment that was loaded is not touched by the next one. */
  lemma LoadedStays(pages: map<nat, Perm>, data: map<nat, byte>, pages1: map<nat, Perm>, data1: map<nat, byte>,
      d: seq<byte>,
                    ph: seq<Segment>, i: nat, bias: nat, rs: seq<Rela>)
    requires i < |ph| && Loaded(pages, data, d, ph, i, bias, rs, 0, 0) && Kept(pages, data, pages1, data1)
    ensures Loaded(pages1, data1, d, ph, i, bias, rs, 0, 0)
  {
    hide InSegment, InRelro, FileByte, Patched, Page;
  }

  /** A new segment: zeroed pages, then the bytes of the file. */
  lemma NewLoaded(pages: map<nat, Perm>, data: map<nat, byte>, pages1: map<nat, Perm>, data1: map<nat, byte>,
      d: seq<byte>,
                  ph: seq<Segment>, i: nat, bias: nat, rs: seq<Rela>)
    requires i < |ph| && Loadable(ph[i]) && ph[i].offset + ph[i].filesz <= |d| && ph[i].filesz <= ph[i].memsz
    requires Backed(pages, data) && Backed(pages1, data1) && forall pg: nat :: InSegment(ph[i], bias, pg) ==>
               pg !in pages
    requires Extended(pages, data, pages1, data1, FirstPage(ph[i], bias), EndPage(ph[i], bias),
        Perm(ElfImage.Writable(ph[i]), Executable(ph[i])))
    ensures
      var data2 := Overlay(data1, bias + ph[i].vaddr, d[ph[i].offset..ph[i].offset + ph[i].filesz]);
      Loaded(pages1, data2, d, ph, i, bias, rs, 0, 0) && Kept(pages, data, pages1, data2)
  {
    hide Overlay, Page, Extended, Backed, Loaded;
    var p, va := ph[i], bias + ph[i].vaddr;
    var src := d[p.offset..p.offset + p.filesz];
    var data2 := Overlay(data1, va, src);
    forall a: nat ensures InSegment(p, bias, Page(a)) ==> a in data2 && data2[a] == FileByte(d, p, bias, a) {
      OverlayAt(data1, va, src, a);
      ExtendedAt(pages, data, pages1, data1, p, bias, a);
    }
    forall a: nat | a in data ensures a in data2 && data2[a] == data[a] {
      OverlayAt(data1, va, src, a);
      ExtendedAt(pages, data, pages1, data1, p, bias, a);
      InsidePage(p, bias, a);
    }
    ExtendedPages(pages, data, pages1, data1, p, bias);
    MakesLoaded(pages1, data2, d, ph, i, bias, rs);
  }

  lemma MakesLoaded(pages: map<nat, Perm>, data: map<nat, byte>, d: seq<byte>, ph: seq<Segment>, i: nat, bias: nat,
      rs: seq<Rela>)
    requires i < |ph|
    requires forall pg: nat :: InSegment(ph[i], bias, pg) ==>
               pg in pages && pages[pg] == Perm(ElfImage.Writable(ph[i]), Executable(ph[i]))
    requires forall a: nat :: InSegment(ph[i], bias, Page(a)) ==> a in data && data[a] == FileByte(d, ph[i], bias, a)
    ensures Loaded(pages, data, d, ph, i, bias, rs, 0, 0)
  {
    hide InSegment, FileByte, Page;
  }

  lemma ExtendedPages(pages: map<nat, Perm>, data: map<nat, byte>, pages1: map<nat, Perm>, data1: map<nat, byte>,
      p: Segment, bias: nat)
    requires forall pg: nat :: InSegment(p, bias, pg) ==> pg !in pages
    requires Extended(pages, data, pages1, data1, FirstPage(p, bias), EndPage(p, bias), Perm(ElfImage.Writable(p), Executable(p)))
    ensures forall pg: nat :: InSegment(p, bias, pg) ==>
              pg in pages1 && pages1[pg] == Perm(ElfImage.Writable(p), Executable(p))
    ensures forall pg: nat :: pg in pages ==> pg in pages1 && pages1[pg] == pages[pg]
  {
    hide FirstPage, EndPage;
  }

  lemma ExtendedAt(pages: map<nat, Perm>, data: map<nat, byte>, pages1: map<nat, Perm>, data1: map<nat, byte>,
      p: Segment, bias: nat, a: nat)
    requires Loadable(p) && Backed(pages, data) && Backed(pages1, data1) && forall pg: nat :: InSegment(p, bias, pg) ==>
               pg !in pages
    requires Extended(pages, data, pages1, data1, FirstPage(p, bias), EndPage(p, bias), Perm(ElfImage.Writable(p), Executable(p)))
    ensures InSegment(p, bias, Page(a)) ==> a !in data && a in data1 && data1[a] == 0
    ensures a in data ==> a in data1 && data1[a] == data[a] && !InSegment(p, bias, Page(a))
  {
    hide FirstPage, EndPage, Page;
    assert a in data <==> Page(a) in pages;
    assert a in data1 <==> Page(a) in pages1;
  }

  /** The addresses of a segment are in its pages. */
  lemma InsidePage(p: Segment, bias: nat, a: nat)
    requires Loadable(p)
    ensures bias + p.vaddr <= a < bias + p.vaddr + p.memsz ==> InSegment(p, bias, Page(a))
  {
  }

  /** One more segment. */
  lemma SegmentStep(pages0: map<nat, Perm>, data0: map<nat, byte>, pages: map<nat, Perm>, data: map<nat, byte>,
                    pages1: map<nat, Perm>, data1: map<nat, byte>, d: seq<byte>, ph: seq<Segment>, n: nat, bias: nat,
                    rs: seq<Rela>)
    requires (bias == 0 || bias == IMAGE) && SegmentsOk(ph, bias, |d|) && n < |ph| && Loadable(ph[n])
    requires Filled(pages0, data0, pages, data, d, ph, n, bias, rs, 0, 0) && Backed(pages, data)
    requires Backed(pages1, data1)
    requires forall pg: nat :: InSegment(ph[n], bias, pg) ==> pg !in pages
    requires Extended(pages, data, pages1, data1, FirstPage(ph[n], bias), EndPage(ph[n], bias),
        Perm(ElfImage.Writable(ph[n]), Executable(ph[n])))
    ensures ph[n].offset + ph[n].filesz <= |d|
    ensures Filled(pages0, data0, pages1,
              Overlay(data1, bias + ph[n].vaddr, d[ph[n].offset..ph[n].offset + ph[n].filesz]), d, ph, n + 1, bias, rs, 0, 0)
  {
    hide Overlay, Page, Backed, Loaded, Covered, InRange, SegmentsOk, InSegment, FirstPage, EndPage;
    SegmentPlace(ph, bias, |d|, n);
    NewLoaded(pages, data, pages1, data1, d, ph, n, bias, rs);
    var data2 := Overlay(data1, bias + ph[n].vaddr, d[ph[n].offset..ph[n].offset + ph[n].filesz]);
    forall i | 0 <= i <= n && Loadable(ph[i]) ensures Loaded(pages1, data2, d, ph, i, bias, rs, 0, 0) {
      if i < n { LoadedStays(pages, data, pages1, data2, d, ph, i, bias, rs); }
    }
    forall pg: nat ensures (Covered(ph, bias, pg, n + 1) <==> Covered(ph, bias, pg, n) || InSegment(ph[n], bias, pg))
        && (pg in pages1 <==> pg in pages || InSegment(ph[n], bias, pg)) {
      CoveredMore(ph, bias, pg, n);
      ExtendedKeys(pages, data, pages1, data1, ph[n], bias, pg);
    }
  }

  lemma ExtendedKeys(pages: map<nat, Perm>, data: map<nat, byte>, pages1: map<nat, Perm>, data1: map<nat, byte>,
      p: Segment, bias: nat, pg: nat)
    requires Loadable(p)
    requires Extended(pages, data, pages1, data1, FirstPage(p, bias), EndPage(p, bias), Perm(ElfImage.Writable(p), Executable(p)))
    ensures pg in pages1 <==> pg in pages || InSegment(p, bias, pg)
  {
    hide FirstPage, EndPage;
  }

  /** One more relocation. */
  lemma RelocationStep(pages0: map<nat, Perm>, data0: map<nat, byte>, pages: map<nat, Perm>, data: map<nat, byte>,
                       d: seq<byte>, ph: seq<Segment>, bias: nat, rs: seq<Rela>, k: nat)
    requires (bias == 0 || bias == IMAGE) && SegmentsOk(ph, bias, |d|) && k < |rs| && RelaOk(ph, rs[k])
    requires Filled(pages0, data0, pages, data, d, ph, |ph|, bias, rs, k, 0) && Backed(pages0, data0)
    requires Backed(pages, data)
    ensures Mapped(data, bias + rs[k].offset, bias + rs[k].offset + 8) && USER_MIN <= bias + rs[k].offset
        && bias + rs[k].offset + 8 <= USER_END
    ensures Filled(pages0, data0, pages, Overlay(data, bias + rs[k].offset, Word64(bias + rs[k].addend)), d, ph, |ph|, bias, rs, k + 1, 0)
  {
    hide Overlay, Page, Loaded, Covered, SegmentsOk, InSegment, FirstPage, EndPage, RelaOk, Word64, Extended, Mapped,
      Backed, InRange;
    var va, word := bias + rs[k].offset, Word64(bias + rs[k].addend);
    WordMapped(pages0, data0, pages, data, d, ph, bias, rs, k);
    var data1 := Overlay(data, va, word);
    forall j | 0 <= j < |ph| && Loadable(ph[j]) ensures Loaded(pages, data1, d, ph, j, bias, rs, k + 1, 0) {
      PatchedStep(pages, data, d, ph, j, bias, rs, k);
    }
    forall a: nat | a in data0 ensures a in data1 && data1[a] == data0[a] { OverlayAt(data, va, word, a); }
  }

  /** A word to relocate is in memory, and was not there before. */
  lemma WordMapped(pages0: map<nat, Perm>, data0: map<nat, byte>, pages: map<nat, Perm>, data: map<nat, byte>,
                   d: seq<byte>, ph: seq<Segment>, bias: nat, rs: seq<Rela>, k: nat)
    requires (bias == 0 || bias == IMAGE) && SegmentsOk(ph, bias, |d|) && k < |rs| && RelaOk(ph, rs[k])
    requires Filled(pages0, data0, pages, data, d, ph, |ph|, bias, rs, k, 0) && Backed(pages0, data0)
    ensures Mapped(data, bias + rs[k].offset, bias + rs[k].offset + 8) && USER_MIN <= bias + rs[k].offset
        && bias + rs[k].offset + 8 <= USER_END
    ensures forall a: nat :: a in data0 ==> !(bias + rs[k].offset <= a < bias + rs[k].offset + 8)
  {
    hide Page, Loaded, Covered, SegmentsOk, InSegment, FirstPage, EndPage, RelaOk, Kept, InRange;
    var i := RelaPlace(ph, bias, |d|, rs[k]);
    SegmentPlace(ph, bias, |d|, i);
    var va := bias + rs[k].offset;
    forall a: nat | va <= a < va + 8 ensures a in data && a !in data0 {
      InsidePage(ph[i], bias, a);
      LoadedAt(pages, data, d, ph, i, bias, rs, k, 0, a);
      InCovered(ph, bias, i, Page(a));
      assert a in data0 <==> Page(a) in pages0;
    }
  }

  lemma InCovered(ph: seq<Segment>, bias: nat, i: nat, pg: nat)
    requires i < |ph| && InSegment(ph[i], bias, pg)
    ensures Covered(ph, bias, pg, |ph|)
  {
  }

  lemma LoadedAt(pages: map<nat, Perm>, data: map<nat, byte>, d: seq<byte>, ph: seq<Segment>, i: nat, bias: nat,
      rs: seq<Rela>, k: nat, m: nat, a: nat)
    requires i < |ph| && k <= |rs| && m <= |ph| && Loaded(pages, data, d, ph, i, bias, rs, k, m)
    requires InSegment(ph[i], bias, Page(a))
    ensures a in data && data[a] == Patched(rs, bias, k, a, FileByte(d, ph[i], bias, a))
  {
    hide InSegment, InRelro, FileByte, Patched, Page;
  }

  lemma PatchedStep(pages: map<nat, Perm>, data: map<nat, byte>, d: seq<byte>, ph: seq<Segment>, j: nat, bias: nat,
      rs: seq<Rela>, k: nat)
    requires j < |ph| && k < |rs| && Loaded(pages, data, d, ph, j, bias, rs, k, 0)
    ensures Loaded(pages, Overlay(data, bias + rs[k].offset, Word64(bias + rs[k].addend)), d, ph, j, bias, rs, k + 1, 0)
  {
    hide Overlay, Page, InSegment, InRelro, FileByte, Word64;
    var va, word := bias + rs[k].offset, Word64(bias + rs[k].addend);
    var data1 := Overlay(data, va, word);
    forall a: nat | InSegment(ph[j], bias, Page(a))
      ensures a in data1 && data1[a] == Patched(rs, bias, k + 1, a, FileByte(d, ph[j], bias, a))
    {
      OverlayAt(data, va, word, a);
      LoadedAt(pages, data, d, ph, j, bias, rs, k, 0, a);
    }
  }

  // ----- Read-only after relocation -----

  /** Pages lose write permission. */
  ghost predicate Frozen(pages: map<nat, Perm>, pages': map<nat, Perm>, lo: nat, hi: nat) {
    && pages'.Keys == pages.Keys
    && forall pg: nat :: pg in pages ==> pages'[pg] == if lo <= pg < hi then pages[pg].(write := false) else pages[pg]
  }

  function RelroEnd(p: Segment, bias: nat): nat { (bias + p.vaddr + p.memsz) / 4096 }

  lemma RelroMore(ph: seq<Segment>, bias: nat, pg: nat, m: nat)
    requires m < |ph|
    ensures InRelro(ph, bias, pg, m + 1) <==>
              InRelro(ph, bias, pg, m) || (Relro(ph[m]) && FirstPage(ph[m], bias) <= pg < RelroEnd(ph[m], bias))
  {
    hide FirstPage;
  }

  /** Read-only pages are whole pages of one writable segment. */
  lemma RelroInside(ph: seq<Segment>, bias: nat, m: nat, pg: nat) returns (i: nat)
    requires m < |ph| && RelroOk(ph) && Relro(ph[m]) && FirstPage(ph[m], bias) <= pg < RelroEnd(ph[m], bias)
    ensures i < |ph| && InSegment(ph[i], bias, pg) && ElfImage.Writable(ph[i])
  {
    hide Holder;
    var q := Holder(ph, ph[m].vaddr, ph[m].memsz, true, false).value;
    i :| 0 <= i < |ph| && ph[i] == q;
  }

  lemma RelroStep(pages0: map<nat, Perm>, data0: map<nat, byte>, pages: map<nat, Perm>, pages1: map<nat, Perm>,
      data: map<nat, byte>,
                  d: seq<byte>, ph: seq<Segment>, bias: nat, rs: seq<Rela>, m: nat)
    requires m < |ph| && RelroOk(ph) && Relro(ph[m])
    requires Filled(pages0, data0, pages, data, d, ph, |ph|, bias, rs, |rs|, m)
    requires Frozen(pages, pages1, FirstPage(ph[m], bias), RelroEnd(ph[m], bias))
    ensures Filled(pages0, data0, pages1, data, d, ph, |ph|, bias, rs, |rs|, m + 1)
  {
    hide Loaded, Covered, RelroOk, InSegment, FirstPage, EndPage, RelroEnd, Relro;
    forall pg: nat | pg in pages0 ensures pg in pages1 && pages1[pg] == pages0[pg] {
      if FirstPage(ph[m], bias) <= pg < RelroEnd(ph[m], bias) {
        var i := RelroInside(ph, bias, m, pg);
        InCovered(ph, bias, i, pg);
        assert false;
      }
    }
    forall i | 0 <= i < |ph| && Loadable(ph[i]) ensures Loaded(pages1, data, d, ph, i, bias, rs, |rs|, m + 1) {
      FrozenLoaded(pages, pages1, data, d, ph, i, bias, rs, m);
    }
  }

  lemma FrozenLoaded(pages: map<nat, Perm>, pages1: map<nat, Perm>, data: map<nat, byte>, d: seq<byte>,
      ph: seq<Segment>, i: nat, bias: nat,
                     rs: seq<Rela>, m: nat)
    requires i < |ph| && m < |ph| && Relro(ph[m]) && Loaded(pages, data, d, ph, i, bias, rs, |rs|, m)
    requires Frozen(pages, pages1, FirstPage(ph[m], bias), RelroEnd(ph[m], bias))
    ensures Loaded(pages1, data, d, ph, i, bias, rs, |rs|, m + 1)
  {
    hide InSegment, InRelro, FileByte, Patched, Page, FirstPage, RelroEnd, Relro;
    forall pg: nat | InSegment(ph[i], bias, pg)
      ensures pg in pages1
      ensures pages1[pg] == Perm(ElfImage.Writable(ph[i]) && !InRelro(ph, bias, pg, m + 1), Executable(ph[i]))
    {
      RelroMore(ph, bias, pg, m);
    }
  }

  lemma RelroSkip(pages0: map<nat, Perm>, data0: map<nat, byte>, pages: map<nat, Perm>, data: map<nat, byte>,
                  d: seq<byte>, ph: seq<Segment>, bias: nat, rs: seq<Rela>, m: nat)
    requires m < |ph| && !Relro(ph[m]) && Filled(pages0, data0, pages, data, d, ph, |ph|, bias, rs, |rs|, m)
    ensures Filled(pages0, data0, pages, data, d, ph, |ph|, bias, rs, |rs|, m + 1)
  {
    hide Loaded, Covered, InSegment, FirstPage, EndPage, RelroEnd, Relro;
    forall i | 0 <= i < |ph| && Loadable(ph[i]) ensures Loaded(pages, data, d, ph, i, bias, rs, |rs|, m + 1) {
      SkipLoaded(pages, data, d, ph, i, bias, rs, m);
    }
  }

  lemma SkipLoaded(pages: map<nat, Perm>, data: map<nat, byte>, d: seq<byte>, ph: seq<Segment>, i: nat, bias: nat,
      rs: seq<Rela>, m: nat)
    requires i < |ph| && m < |ph| && !Relro(ph[m]) && Loaded(pages, data, d, ph, i, bias, rs, |rs|, m)
    ensures Loaded(pages, data, d, ph, i, bias, rs, |rs|, m + 1)
  {
    hide InSegment, InRelro, FileByte, Patched, Page, FirstPage, RelroEnd, Relro;
    forall pg: nat | InSegment(ph[i], bias, pg)
      ensures InRelro(ph, bias, pg, m + 1) <==> InRelro(ph, bias, pg, m) { RelroMore(ph, bias, pg, m); }
  }

  // ----- The loader -----

  lemma ExtendedNone(pages: map<nat, Perm>, data: map<nat, byte>, lo: nat, perm: Perm)
    ensures Extended(pages, data, pages, data, lo, lo, perm)
  {
  }

  lemma ExtendedMore(pages0: map<nat, Perm>, data0: map<nat, byte>, pages: map<nat, Perm>, data: map<nat, byte>,
                     pages1: map<nat, Perm>, data1: map<nat, byte>, lo: nat, hi: nat, perm: Perm)
    requires lo <= hi && Extended(pages0, data0, pages, data, lo, hi, perm)
    requires Extended(pages, data, pages1, data1, hi, hi + 1, perm)
    requires data0.Keys <= data.Keys <= data1.Keys
    ensures Extended(pages0, data0, pages1, data1, lo, hi + 1, perm)
  {
  }

  lemma ExtendedKeeps(pages: map<nat, Perm>, data: map<nat, byte>, pages1: map<nat, Perm>, data1: map<nat, byte>,
      lo: nat, hi: nat, perm: Perm)
    requires Backed(pages, data) && Backed(pages1, data1) && Extended(pages, data, pages1, data1, lo, hi, perm)
    ensures Kept(pages, data, pages1, data1) && data.Keys <= data1.Keys
  {
    hide Page;
    forall a: nat | a in data ensures a in data1 { assert Page(a) in pages && Page(a) in pages1; }
  }

  /** How many pages a segment takes. */
  function SegmentPages(p: Segment, bias: nat): nat
    requires Loadable(p)
  {
    PagesFit(p, bias);
    EndPage(p, bias) - FirstPage(p, bias)
  }

  /** ... and all segments up to n. */
  function ProgramPages(ph: seq<Segment>, bias: nat, n: nat): nat
    requires n <= |ph|
  {
    if n == 0 then 0 else ProgramPages(ph, bias, n - 1) + if Loadable(ph[n - 1]) then SegmentPages(ph[n - 1], bias) else 0
  }

  lemma {:induction false} MorePages(ph: seq<Segment>, bias: nat, n: nat, n': nat)
    requires n <= n' <= |ph|
    ensures ProgramPages(ph, bias, n) <= ProgramPages(ph, bias, n')
    decreases n'
  {
    hide SegmentPages, Loadable;
    if n < n' { MorePages(ph, bias, n, n' - 1); }
  }

  /** The pages of a segment. */
  method MapSegment(space: Space, p: Segment, bias: nat) returns (r: Status)
    requires space.Valid() && Loadable(p) && USER_MIN <= FirstPage(p, bias) * 4096
    requires EndPage(p, bias) * 4096 <= USER_END
    requires !(ElfImage.Writable(p) && Executable(p))
    modifies space`pages, space`data, space.m, space.ram
    ensures space.Valid() && (r == Ok || r == Exists || r == NoMemory)
    ensures Kept(old(space.pages), old(space.data), space.pages, space.data)
    ensures r == Ok ==> Extended(old(space.pages), old(space.data), space.pages, space.data, FirstPage(p, bias), EndPage(p, bias),
                                 Perm(ElfImage.Writable(p), Executable(p)))
    ensures r == Ok ==> forall pg: nat :: InSegment(p, bias, pg) ==> pg !in old(space.pages)
    ensures r == Exists ==> exists pg: nat :: InSegment(p, bias, pg) && pg in old(space.pages)
    ensures OthersShow(old(space.m.S()), old(space.ram.bytes), space.m.S(), space.ram.bytes, space.root)
    ensures r == Ok ==> |old(space.m.free)| - 4 * SegmentPages(p, bias) <= |space.m.free|
    ensures r == NoMemory ==> |old(space.m.free)| < 4 * SegmentPages(p, bias)
  {
    hide Space.Real, OthersShow, FrameSpace.Shown, AddressSpace.PhysicalMemory.S, Extended, Kept, Backed,
      ElfImage.Writable, Executable;
    ghost var pages, data, s0, ram0, free := space.pages, space.data, space.m.S(), space.ram.bytes, |space.m.free|;
    OthersSelf(s0, ram0, space.root);
    var perm := Perm(ElfImage.Writable(p), Executable(p));
    var lo, end := FirstPage(p, bias), EndPage(p, bias);
    var va := lo * 4096;
    ghost var next := lo;
    ExtendedNone(pages, data, lo, perm);
    ExtendedKeeps(pages, data, pages, data, lo, lo, perm);
    PagesFit(p, bias);
    while va < end * 4096
      invariant lo <= next <= end && va == next * 4096 && space.Valid()
      invariant Extended(pages, data, space.pages, space.data, lo, next, perm)
      invariant Kept(pages, data, space.pages, space.data)
      invariant forall pg: nat :: lo <= pg < next ==> pg !in pages
      invariant OthersShow(s0, ram0, space.m.S(), space.ram.bytes, space.root)
      invariant free - 4 * (next - lo) <= |space.m.free|
      decreases end - next
    {
      ghost var pages1, data1, s1, ram1 := space.pages, space.data, space.m.S(), space.ram.bytes;
      PageOf(next);
      r := space.Map(va, perm);
      OthersThen(s0, ram0, s1, ram1, space.m.S(), space.ram.bytes, space.root);
      if r == Exists { ExtendedNext(pages, data, pages1, data1, lo, next, perm); return; }
      if r != Ok { return; }
      ExtendedNext(pages, data, pages1, data1, lo, next, perm);
      ExtendedKeeps(pages, data, pages1, data1, lo, next, perm);
      ExtendedKeeps(pages1, data1, space.pages, space.data, next, next + 1, perm);
      ExtendedMore(pages, data, pages1, data1, space.pages, space.data, lo, next, perm);
      ghost var further := next + 1;
      ExtendedKeeps(pages, data, space.pages, space.data, lo, further, perm);
      va := va + 4096;
      next := further;
    }
    r := Ok;
  }

  lemma PageOf(n: nat)
    ensures Page(n * 4096) == n && (n * 4096) % 4096 == 0
  {
  }

  lemma PagesFit(p: Segment, bias: nat)
    requires Loadable(p)
    ensures FirstPage(p, bias) <= EndPage(p, bias)
  {
  }

  lemma ExtendedNext(pages: map<nat, Perm>, data: map<nat, byte>, pages1: map<nat, Perm>, data1: map<nat, byte>,
      lo: nat, hi: nat, perm: Perm)
    requires Extended(pages, data, pages1, data1, lo, hi, perm)
    ensures hi in pages1 <==> hi in pages
  {
  }

  /** The first n segments are in memory, or a page was in the way, or memory ran out. */
  method LoadSegments(space: Space, d: seq<byte>, ph: seq<Segment>, bias: nat, ghost rs: seq<Rela>) returns (r: Status)
    requires space.Valid() && (bias == 0 || bias == IMAGE) && SegmentsOk(ph, bias, |d|)
    modifies space`pages, space`data, space.m, space.ram
    ensures space.Valid() && (r == Ok || r == NoExec || r == NoMemory)
    ensures Kept(old(space.pages), old(space.data), space.pages, space.data)
    ensures r == Ok ==> Filled(old(space.pages), old(space.data), space.pages, space.data, d, ph, |ph|, bias, rs, 0, 0)
    ensures r == NoExec ==> exists pg: nat :: Covered(ph, bias, pg, |ph|) && pg in old(space.pages)
    ensures OthersShow(old(space.m.S()), old(space.ram.bytes), space.m.S(), space.ram.bytes, space.root)
    ensures r == NoMemory ==> |old(space.m.free)| < 4 * ProgramPages(ph, bias, |ph|)
  {
    hide Space.Real, OthersShow, FrameSpace.Shown, AddressSpace.PhysicalMemory.S, SegmentPages, Extended, Kept, Backed,
      ElfImage.Writable, Executable, Overlay, SegmentsOk, InRange, Filled, Covered, InSegment;
    ghost var pages0, data0, s0, ram0, free := space.pages, space.data, space.m.S(), space.ram.bytes, |space.m.free|;
    OthersSelf(s0, ram0, space.root);
    NothingFilled(pages0, data0, d, ph, bias, rs);
    FilledKept(pages0, data0, pages0, data0, d, ph, 0, bias, rs, 0, 0);
    var i: nat := 0;
    while i < |ph|
      invariant i <= |ph| && space.Valid() && Kept(pages0, data0, space.pages, space.data)
      invariant Filled(pages0, data0, space.pages, space.data, d, ph, i, bias, rs, 0, 0)
      invariant OthersShow(s0, ram0, space.m.S(), space.ram.bytes, space.root)
      invariant free - 4 * ProgramPages(ph, bias, i) <= |space.m.free|
    {
      var p := ph[i];
      ghost var pages, data, next, s1, ram1 := space.pages, space.data, i + 1, space.m.S(), space.ram.bytes;
      MorePages(ph, bias, next, |ph|);
      if !Loadable(p) {
        SkipSegment(pages0, data0, pages, data, d, ph, i, bias, rs);
      } else {
        SegmentPlace(ph, bias, |d|, i);
        r := MapSegment(space, p, bias);
        KeptThen(pages0, data0, pages, data, space.pages, space.data);
        OthersThen(s0, ram0, s1, ram1, space.m.S(), space.ram.bytes, space.root);
        s1, ram1 := space.m.S(), space.ram.bytes;
        if r == Exists {
          ghost var pg: nat :| InSegment(p, bias, pg) && pg in pages;
          InTheWay(pages0, data0, pages, data, d, ph, i, bias, rs, |d|, pg);
          return NoExec;
        }
        if r != Ok { return; }
        SegmentStep(pages0, data0, pages, data, space.pages, space.data, d, ph, i, bias, rs);
        FileMapped(pages, data, space.pages, space.data, p, bias);
        var ok := space.CopyTo(bias + p.vaddr, d[p.offset..p.offset + p.filesz]);
        if !ok { assert false; }
        OthersThen(s0, ram0, s1, ram1, space.m.S(), space.ram.bytes, space.root);
        FilledKept(pages0, data0, space.pages, space.data, d, ph, next, bias, rs, 0, 0);
      }
      i := i + 1;
    }
    r := Ok;
  }

  lemma NothingFilled(pages: map<nat, Perm>, data: map<nat, byte>, d: seq<byte>, ph: seq<Segment>, bias: nat,
      rs: seq<Rela>)
    ensures Filled(pages, data, pages, data, d, ph, 0, bias, rs, 0, 0)
  {
    hide Loaded, InSegment;
  }

  lemma FilledKept(pages0: map<nat, Perm>, data0: map<nat, byte>, pages: map<nat, Perm>, data: map<nat, byte>,
                   d: seq<byte>, ph: seq<Segment>, n: nat, bias: nat, rs: seq<Rela>, k: nat, m: nat)
    requires n <= |ph| && k <= |rs| && m <= |ph| && Filled(pages0, data0, pages, data, d, ph, n, bias, rs, k, m)
    ensures Kept(pages0, data0, pages, data)
  {
    hide Loaded, Covered, Kept;
  }

  lemma KeptThen(pages0: map<nat, Perm>, data0: map<nat, byte>, pages: map<nat, Perm>, data: map<nat, byte>,
      pages1: map<nat, Perm>, data1: map<nat, byte>)
    requires Kept(pages0, data0, pages, data) && Kept(pages, data, pages1, data1)
    ensures Kept(pages0, data0, pages1, data1)
  {
  }

  /** A page in the way of a segment was there before loading. */
  lemma InTheWay(pages0: map<nat, Perm>, data0: map<nat, byte>, pages: map<nat, Perm>, data: map<nat, byte>,
                 d: seq<byte>, ph: seq<Segment>, n: nat, bias: nat, rs: seq<Rela>, length: nat, pg: nat)
    requires (bias == 0 || bias == IMAGE) && SegmentsOk(ph, bias, length) && n < |ph| && InSegment(ph[n], bias, pg)
    requires pg in pages
    requires Filled(pages0, data0, pages, data, d, ph, n, bias, rs, 0, 0)
    ensures pg in pages0 && Covered(ph, bias, pg, |ph|)
  {
    hide Loaded, InSegment, SegmentsOk, Kept;
    if Covered(ph, bias, pg, n) {
      var i :| 0 <= i < n && InSegment(ph[i], bias, pg);
      PagesApart(ph, bias, length, i, n, pg);
    }
  }

  /** The bytes from the file fall into the new pages. */
  lemma FileMapped(pages: map<nat, Perm>, data: map<nat, byte>, pages1: map<nat, Perm>, data1: map<nat, byte>,
      p: Segment, bias: nat)
    requires Loadable(p) && p.filesz <= p.memsz && Backed(pages1, data1)
    requires Extended(pages, data, pages1, data1, FirstPage(p, bias), EndPage(p, bias), Perm(ElfImage.Writable(p), Executable(p)))
    ensures Mapped(data1, bias + p.vaddr, bias + p.vaddr + p.filesz)
  {
    hide Page, FirstPage, EndPage, Extended;
    forall a: nat | bias + p.vaddr <= a < bias + p.vaddr + p.filesz ensures a in data1 {
      InsidePage(p, bias, a);
      ExtendedKeys(pages, data, pages1, data1, p, bias, Page(a));
    }
  }

  /** The relocations, in order. */
  method Relocate(space: Space, d: seq<byte>, ph: seq<Segment>, bias: nat, rs: seq<Rela>, ghost pages0: map<nat,
      Perm>, ghost data0: map<nat, byte>)
    requires space.Valid() && (bias == 0 || bias == IMAGE) && SegmentsOk(ph, bias, |d|) && Backed(pages0, data0)
    requires forall k :: 0 <= k < |rs| ==> RelaOk(ph, rs[k])
    requires Filled(pages0, data0, space.pages, space.data, d, ph, |ph|, bias, rs, 0, 0)
    modifies space`data, space.ram
    ensures space.Valid() && Filled(pages0, data0, space.pages, space.data, d, ph, |ph|, bias, rs, |rs|, 0)
    ensures OthersShow(old(space.m.S()), old(space.ram.bytes), space.m.S(), space.ram.bytes, space.root)
  {
    hide Space.Real, OthersShow, FrameSpace.Shown, AddressSpace.PhysicalMemory.S, Kept, Backed, Overlay, SegmentsOk,
      Filled, RelaOk, Mapped, Word64;
    ghost var s0, ram0 := space.m.S(), space.ram.bytes;
    OthersSelf(s0, ram0, space.root);
    var k: nat := 0;
    while k < |rs|
      invariant k <= |rs| && space.Valid()
      invariant Filled(pages0, data0, space.pages, space.data, d, ph, |ph|, bias, rs, k, 0)
      invariant OthersShow(s0, ram0, space.m.S(), space.ram.bytes, space.root)
    {
      ghost var s1, ram1 := space.m.S(), space.ram.bytes;
      RelocationStep(pages0, data0, space.pages, space.data, d, ph, bias, rs, k);
      var value := bias + rs[k].addend;
      var ok := space.CopyTo(bias + rs[k].offset, Word64(value));
      if !ok { assert false; }
      OthersThen(s0, ram0, s1, ram1, space.m.S(), space.ram.bytes, space.root);
      k := k + 1;
    }
  }

  /** The whole pages of one RELRO header become read-only. */
  method FreezeSegment(space: Space, p: Segment, bias: nat, ghost ph: seq<Segment>, ghost m: nat)
    requires space.Valid() && m < |ph| && ph[m] == p && Relro(p)
    requires forall pg: nat :: FirstPage(p, bias) <= pg < RelroEnd(p, bias) ==> pg in space.pages
    modifies space`pages, space.m
    ensures space.Valid() && Frozen(old(space.pages), space.pages, FirstPage(p, bias), RelroEnd(p, bias))
    ensures OthersShow(old(space.m.S()), old(space.ram.bytes), space.m.S(), space.ram.bytes, space.root)
  {
    hide Space.Real, OthersShow, FrameSpace.Shown, AddressSpace.PhysicalMemory.S, Backed, Page;
    ghost var pages, s0, ram0 := space.pages, space.m.S(), space.ram.bytes;
    OthersSelf(s0, ram0, space.root);
    var lo, end := FirstPage(p, bias), RelroEnd(p, bias);
    var va := lo * 4096;
    ghost var next := lo;
    while va < end * 4096
      invariant lo <= next && (next <= end || next == lo) && va == next * 4096 && space.Valid()
      invariant Frozen(pages, space.pages, lo, next)
      invariant OthersShow(s0, ram0, space.m.S(), space.ram.bytes, space.root)
      decreases end * 4096 - va
    {
      ghost var s1 := space.m.S();
      PageOf(next);
      var r := space.ReadOnly(va);
      if r != Ok { assert false; }
      OthersThen(s0, ram0, s1, ram0, space.m.S(), ram0, space.root);
      va := va + 4096;
      next := next + 1;
    }
  }

  /** The loop over the RELRO headers. */
  method ProtectRelro(space: Space, d: seq<byte>, ph: seq<Segment>, bias: nat, ghost rs: seq<Rela>,
      ghost pages0: map<nat, Perm>, ghost data0: map<nat, byte>)
    requires space.Valid() && RelroOk(ph)
    requires Filled(pages0, data0, space.pages, space.data, d, ph, |ph|, bias, rs, |rs|, 0)
    modifies space`pages, space.m
    ensures space.Valid() && Filled(pages0, data0, space.pages, space.data, d, ph, |ph|, bias, rs, |rs|, |ph|)
    ensures OthersShow(old(space.m.S()), old(space.ram.bytes), space.m.S(), space.ram.bytes, space.root)
  {
    hide Space.Real, OthersShow, FrameSpace.Shown, AddressSpace.PhysicalMemory.S, Kept, Backed, Filled, RelroOk,
      Frozen, FirstPage, RelroEnd, Relro;
    ghost var s0, ram0 := space.m.S(), space.ram.bytes;
    OthersSelf(s0, ram0, space.root);
    var m: nat := 0;
    while m < |ph|
      invariant m <= |ph| && space.Valid()
      invariant Filled(pages0, data0, space.pages, space.data, d, ph, |ph|, bias, rs, |rs|, m)
      invariant OthersShow(s0, ram0, space.m.S(), space.ram.bytes, space.root)
    {
      ghost var s1 := space.m.S();
      ghost var pages := space.pages;
      if Relro(ph[m]) {
        RelroMapped(pages0, data0, pages, space.data, d, ph, bias, rs, m);
        FreezeSegment(space, ph[m], bias, ph, m);
        OthersThen(s0, ram0, s1, ram0, space.m.S(), ram0, space.root);
        RelroStep(pages0, data0, pages, space.pages, space.data, d, ph, bias, rs, m);
      } else {
        RelroSkip(pages0, data0, pages, space.data, d, ph, bias, rs, m);
      }
      m := m + 1;
    }
  }

  lemma RelroMapped(pages0: map<nat, Perm>, data0: map<nat, byte>, pages: map<nat, Perm>, data: map<nat, byte>,
                    d: seq<byte>, ph: seq<Segment>, bias: nat, rs: seq<Rela>, m: nat)
    requires m < |ph| && RelroOk(ph) && Relro(ph[m])
    requires Filled(pages0, data0, pages, data, d, ph, |ph|, bias, rs, |rs|, m)
    ensures forall pg: nat :: FirstPage(ph[m], bias) <= pg < RelroEnd(ph[m], bias) ==> pg in pages
  {
    hide Loaded, Covered, RelroOk, InSegment, FirstPage, RelroEnd, Relro, Kept;
    forall pg: nat | FirstPage(ph[m], bias) <= pg < RelroEnd(ph[m], bias) ensures pg in pages {
      var i := RelroInside(ph, bias, m, pg);
      InCovered(ph, bias, i, pg);
    }
  }

  /** load_elf() */
  method LoadElf(space: Space, d: seq<byte>) returns (r: Status, entry: nat, abi: nat, ghost rs: seq<Rela>)
    requires space.Valid()
    modifies space`pages, space`data, space.m, space.ram
    ensures space.Valid() && (r == Ok || r == NoExec || r == NoMemory)
    ensures Kept(old(space.pages), old(space.data), space.pages, space.data)
    ensures (forall x :: !Accepted(d, x)) ==>
              r == NoExec && space.pages == old(space.pages) && space.data == old(space.data)
    ensures (exists x :: Accepted(d, x)) ==>
      Accepted(d, rs) && (r == NoExec ==> exists pg: nat :: Covered(Program(d), Bias(d), pg, |Program(d)|) && pg in old(space.pages))
    ensures OthersShow(old(space.m.S()), old(space.ram.bytes), space.m.S(), space.ram.bytes, space.root)
    ensures r == NoMemory ==> |old(space.m.free)| < 4 * ProgramPages(Program(d), Bias(d), |Program(d)|)
    ensures r == Ok ==>
      && Accepted(d, rs) && entry == Bias(d) + HeaderOf(d).entry && AbiSoFar(Program(d), |Program(d)|, Bias(d), abi)
      && Filled(old(space.pages), old(space.data), space.pages, space.data, d, Program(d), |Program(d)|, Bias(d), rs, |rs|, |Program(d)|)
  {
    hide Space.Real, OthersShow, FrameSpace.Shown, AddressSpace.PhysicalMemory.S, Kept, Backed, Filled, RelroOk,
      SegmentsOk, Relocations, EntryIn, AbiSoFar, HeaderOf, SegmentAt, Covered, RelaOk;
    entry, abi, rs := 0, 0, [];
    KeptSelf(space.pages, space.data);
    ghost var s0, ram0 := space.m.S(), space.ram.bytes;
    OthersSelf(s0, ram0, space.root);
    if !HeaderOk(d) { return NoExec, entry, abi, rs; }
    var h := HeaderOf(d);
    var ph, bias := SegmentsFrom(d, h.phoff, h.phnum), if h.kind == 3 then IMAGE else 0;
    var ok, found := CheckSegments(ph, bias, |d|, h.entry);
    if !ok { return NoExec, entry, abi, rs; }
    var relocations := [];
    if bias == IMAGE {
      var table := ElfRelocations(d, ph, bias);
      if table.None? { return NoExec, entry, abi, rs; }
      relocations := table.value;
    }
    ok := CheckRelro(ph);
    if !ok { return NoExec, entry, abi, rs; }
    rs := relocations;
    abi := found;
    assert Accepted(d, rs);
    RelocationsOk(d, ph, rs, bias);
    r := LoadSegments(space, d, ph, bias, rs);
    if r != Ok { return; }
    ghost var s1, ram1 := space.m.S(), space.ram.bytes;
    Relocate(space, d, ph, bias, relocations, old(space.pages), old(space.data));
    OthersThen(s0, ram0, s1, ram1, space.m.S(), space.ram.bytes, space.root);
    s1, ram1 := space.m.S(), space.ram.bytes;
    ProtectRelro(space, d, ph, bias, rs, old(space.pages), old(space.data));
    OthersThen(s0, ram0, s1, ram1, space.m.S(), space.ram.bytes, space.root);
    FilledKept(old(space.pages), old(space.data), space.pages, space.data, d, ph, |ph|, bias, rs, |rs|, |ph|);
    entry := bias + h.entry;
  }

  lemma KeptSelf(pages: map<nat, Perm>, data: map<nat, byte>)
    ensures Kept(pages, data, pages, data)
  {
  }

  /** Accepted relocations are all of the one supported kind. */
  lemma RelocationsOk(d: seq<byte>, ph: seq<Segment>, rs: seq<Rela>, bias: nat)
    requires if bias == IMAGE then Relocations(d, ph, rs) else rs == []
    ensures forall k :: 0 <= k < |rs| ==> RelaOk(ph, rs[k])
  {
    hide RelaOk, EntriesOk, FileOffset, Has, ValueOf;
  }
}
