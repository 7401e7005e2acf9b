/** What the memory of an executable loaded by kernel/elf_loader.h means. */
module ElfMeaning {
  import opened ElfImage
  import opened ElfLoader

  // ----- What a loaded image means -----

  /** The result of a successful load_elf(). */
  ghost predicate Image(pages0: map<nat, Perm>, data0: map<nat, byte>, pages: map<nat, Perm>, data: map<nat, byte>,
      d: seq<byte>, rs: seq<Rela>) {
    Accepted(d, rs) && Filled(pages0, data0, pages, data, d, Program(d), |Program(d)|, Bias(d), rs, |rs|, |Program(d)|)
  }

  /** No loaded page is writable and executable, and whole RELRO pages are read-only. */
  lemma ImagePermissions(pages0: map<nat, Perm>, data0: map<nat, byte>, pages: map<nat, Perm>, data: map<nat, byte>,
      d: seq<byte>, rs: seq<Rela>, pg: nat)
    requires Image(pages0, data0, pages, data, d, rs) && pg in pages && pg !in pages0
    ensures !(pages[pg].write && pages[pg].execute)
    ensures InRelro(Program(d), Bias(d), pg, |Program(d)|) ==> !pages[pg].write
    ensures USER_MIN <= pg * 4096 && (pg + 1) * 4096 <= IMAGE_END
  {
    hide SegmentsOk, Relocations, HeaderOf, SegmentAt, InRelro, Kept, FileByte, Patched, Page, InSegment, InRange,
      RelroOk;
    var ph, bias := Program(d), Bias(d);
    var i :| 0 <= i < |ph| && InSegment(ph[i], bias, pg);
    InLoadable(ph[i], bias, pg);
    SegmentPlace(ph, bias, |d|, i);
    assert Loaded(pages, data, d, ph, i, bias, rs, |rs|, |ph|);
  }

  lemma InLoadable(p: Segment, bias: nat, pg: nat)
    requires InSegment(p, bias, pg)
    ensures Loadable(p) && FirstPage(p, bias) <= pg < EndPage(p, bias)
  {
  }

  /** Byte offset of a segment: from the file, then zeros. */
  function Prescribed(d: seq<byte>, p: Segment, offset: nat): byte {
    if offset < p.filesz && p.offset + offset < |d| then d[p.offset + offset] else 0
  }

  /** An address of a segment that no relocation covers holds the byte of the file, or zero up to its size in
      memory. */
  lemma ImageBytes(pages0: map<nat, Perm>, data0: map<nat, byte>, pages: map<nat, Perm>, data: map<nat, byte>,
      d: seq<byte>, rs: seq<Rela>,
                   p: Segment, offset: nat)
    requires Image(pages0, data0, pages, data, d, rs) && p in Program(d) && Loadable(p) && offset < p.memsz
    requires Untouched(rs, Bias(d), Bias(d) + p.vaddr + offset)
    ensures p.offset + p.filesz <= |d| && Bias(d) + p.vaddr + offset in data
    ensures data[Bias(d) + p.vaddr + offset] == Prescribed(d, p, offset)
  {
    hide SegmentsOk, Relocations, HeaderOf, SegmentAt, InRelro, Kept, Patched, Page, InSegment, InRange, RelroOk,
      Covers, Covered, Loaded;
    var ph, bias := Program(d), Bias(d);
    var i :| 0 <= i < |ph| && ph[i] == p;
    var a := bias + ph[i].vaddr + offset;
    SegmentPlace(ph, bias, |d|, i);
    InsidePage(ph[i], bias, a);
    LoadedAt(pages, data, d, ph, i, bias, rs, |rs|, |ph|, a);
    NotPatched(rs, bias, |rs|, a, FileByte(d, ph[i], bias, a));
  }

  /** No relocation covers an address. */
  predicate Untouched(rs: seq<Rela>, bias: nat, a: nat) { forall k :: 0 <= k < |rs| ==> !Covers(rs[k], bias, a) }

  lemma {:induction false} NotPatched(rs: seq<Rela>, bias: nat, n: nat, a: nat, base: byte)
    requires n <= |rs| && forall k :: 0 <= k < n ==> !Covers(rs[k], bias, a)
    ensures Patched(rs, bias, n, a, base) == base
    decreases n
  {
    hide Covers;
    if n > 0 { NotPatched(rs, bias, n - 1, a, base); }
  }

  /** The last relocation that covers an address decides its byte: it is that of the image address the relocation
      names. */
  lemma ImageWords(pages0: map<nat, Perm>, data0: map<nat, byte>, pages: map<nat, Perm>, data: map<nat, byte>,
      d: seq<byte>, rs: seq<Rela>,
                   j: nat, k: nat)
    requires Image(pages0, data0, pages, data, d, rs) && j < |rs| && k < 8
    requires forall l :: j < l < |rs| ==> !Covers(rs[l], Bias(d), Bias(d) + rs[j].offset + k)
    ensures Bias(d) + rs[j].offset + k in data && data[Bias(d) + rs[j].offset + k] == Word64(Bias(d) + rs[j].addend)[k]
  {
    hide SegmentsOk, Relocations, HeaderOf, SegmentAt, InRelro, Kept, Patched, Page, InSegment, InRange, RelroOk,
        Covers, Covered, Loaded, FileByte, RelaOk;
    var ph, bias := Program(d), Bias(d);
    RelocationsOk(d, ph, rs, bias);
    var i := RelaPlace(ph, bias, |d|, rs[j]);
    SegmentPlace(ph, bias, |d|, i);
    var a := bias + rs[j].offset + k;
    InsidePage(ph[i], bias, a);
    LoadedAt(pages, data, d, ph, i, bias, rs, |rs|, |ph|, a);
    RelocatedWord(rs, bias, |rs|, j, k, FileByte(d, ph[i], bias, a));
  }
}
