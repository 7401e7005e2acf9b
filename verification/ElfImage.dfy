/** The executables that kernel/elf_loader.h accepts, and the memory they prescribe. */
module ElfImage {
  import opened Wrappers

  type byte = x: int | 0 <= x < 256

  /** NV_USER_MIN, NV_USER_END, NV_USER_IMAGE, NV_USER_IMAGE_END; the legacy image is 0x40000000 .. 0x41000000. */
  const USER_MIN: nat := 0x4000_0000
  const USER_END: nat := 0x8000_0000_0000
  const IMAGE: nat := 0x1_0000_0000
  const IMAGE_END: nat := 0x10_0000_0000

  // ----- Fields -----

  /** The little-endian number in n bytes. */
  function Number(d: seq<byte>, at: nat, n: nat): (r: nat)
    requires at + n <= |d|
    decreases n
  {
    if n == 0 then 0 else d[at] + 256 * Number(d, at + 1, n - 1)
  }

  /** Byte k of a 64-bit number. */
  function ByteOf(v: nat, k: nat): byte {
    if k == 0 then v % 256 else ByteOf(v / 256, k - 1)
  }

  function Word64(v: nat): (w: seq<byte>)
    ensures |w| == 8 && forall k :: 0 <= k < 8 ==> w[k] == ByteOf(v, k)
  {
    seq(8, k requires 0 <= k < 8 => ByteOf(v, k))
  }

  datatype Header = Header(kind: nat, machine: nat, version: nat, entry: nat, phoff: nat, ehsize: nat, phentsize: nat, phnum: nat)

  /** A program header. */
  datatype Segment = Segment(kind: nat, flags: nat, offset: nat, vaddr: nat, filesz: nat, memsz: nat, align: nat)

  datatype Dynamic = Dynamic(tag: nat, value: nat)

  datatype Rela = Rela(offset: nat, info: nat, addend: nat)

  function HeaderOf(d: seq<byte>): Header
    requires |d| >= 64
  {
    Header(Number(d, 16, 2), Number(d, 18, 2), Number(d, 20, 4), Number(d, 24, 8), Number(d, 32, 8),
           Number(d, 52, 2), Number(d, 54, 2), Number(d, 56, 2))
  }

  function SegmentAt(d: seq<byte>, at: nat): Segment
    requires at + 56 <= |d|
  {
    Segment(Number(d, at, 4), Number(d, at + 4, 4), Number(d, at + 8, 8), Number(d, at + 16, 8), Number(d, at + 32, 8),
            Number(d, at + 40, 8), Number(d, at + 48, 8))
  }

  function SegmentsFrom(d: seq<byte>, at: nat, n: nat): (ph: seq<Segment>)
    requires at + 56 * n <= |d|
    ensures |ph| == n && forall i :: 0 <= i < n ==> ph[i] == SegmentAt(d, at + 56 * i)
  {
    seq(n, i requires 0 <= i < n => SegmentAt(d, at + 56 * i))
  }

  function DynamicAt(d: seq<byte>, at: nat): Dynamic
    requires at + 16 <= |d|
  {
    Dynamic(Number(d, at, 8), Number(d, at + 8, 8))
  }

  /** The addend is signed; a negative one is never accepted. */
  function RelaAt(d: seq<byte>, at: nat): Rela
    requires at + 24 <= |d|
  {
    Rela(Number(d, at, 8), Number(d, at + 8, 8), Number(d, at + 16, 8))
  }

  // ----- Segments -----

  predicate Executable(p: Segment) { p.flags % 2 == 1 }

  predicate Writable(p: Segment) { p.flags / 2 % 2 == 1 }

  predicate Loadable(p: Segment) { p.kind == 1 && p.memsz > 0 }

  function First(p: Segment): nat { p.vaddr / 4096 }

  function End(p: Segment): nat { (p.vaddr + p.memsz + 4095) / 4096 }

  predicate PowerOfTwo(n: nat) { n == 1 || (n % 2 == 0 && n > 0 && PowerOfTwo(n / 2)) }

  function Limit(address: nat): nat { if address < 0x8000_0000 then 0x4100_0000 else IMAGE_END }

  /** The range checks of a segment to load. */
  predicate InRange(p: Segment, bias: nat, length: nat)
    requires bias <= IMAGE_END
  {
    && p.vaddr <= IMAGE_END - bias
    && var address := bias + p.vaddr;
    && p.filesz <= p.memsz && p.offset <= length && p.filesz <= length - p.offset
    && USER_MIN <= address && !(0x8000_0000 <= address < IMAGE) && address < Limit(address)
    && p.memsz <= Limit(address) - address
    && p.flags < 8 && !(Writable(p) && Executable(p))
    && (p.align > 1 ==> PowerOfTwo(p.align) && p.offset % p.align == address % p.align)
  }

  /** The kinds that the loader does not support: dynamic programs without PIE, interpreters, thread-local
      storage and executable stacks. */
  predicate Supported(p: Segment, pie: bool) {
    !(p.kind == 2 && !pie) && p.kind != 3 && p.kind != 7 && !(p.kind == 0x6474_e551 && Executable(p))
  }

  predicate Abi(p: Segment, bias: nat) { bias + p.vaddr >= IMAGE }

  predicate Apart(p: Segment, q: Segment) { !(First(p) < End(q) && First(q) < End(p)) }

  predicate SegmentOk(ph: seq<Segment>, i: nat, bias: nat, length: nat)
    requires i < |ph| && bias <= IMAGE_END
  {
    && Supported(ph[i], bias > 0)
    && (ph[i].kind == 1 && (ph[i].memsz > 0 || ph[i].filesz > 0) ==> InRange(ph[i], bias, length))
    && (Loadable(ph[i]) ==>
          forall j :: 0 <= j < i && Loadable(ph[j]) ==> Apart(ph[i], ph[j]) && (Abi(ph[i], bias) <==> Abi(ph[j], bias)))
  }

  predicate SegmentsOk(ph: seq<Segment>, bias: nat, length: nat)
    requires bias <= IMAGE_END
  {
    forall i :: 0 <= i < |ph| ==> SegmentOk(ph, i, bias, length)
  }

  predicate EntryIn(p: Segment, entry: nat) { Loadable(p) && Executable(p) && p.vaddr <= entry < p.vaddr + p.memsz }

  /** elf_segment(): a loadable segment, writable if asked, holds all these addresses. */
  predicate Holds(p: Segment, address: nat, bytes: nat, write: bool, file: bool) {
    p.kind == 1 && (write ==> Writable(p)) && p.vaddr <= address && address + bytes <= p.vaddr + if file then p.filesz else p.memsz
  }

  function HolderFrom(ph: seq<Segment>, address: nat, bytes: nat, write: bool, file: bool, i: nat): (r: Option<Segment>)
    requires i <= |ph|
    ensures r.Some? ==> r.value in ph && Holds(r.value, address, bytes, write, file)
    ensures r.None? ==> forall j :: i <= j < |ph| ==> !Holds(ph[j], address, bytes, write, file)
    decreases |ph| - i
  {
    if i == |ph| then None
    else if Holds(ph[i], address, bytes, write, file) then Some(ph[i])
    else HolderFrom(ph, address, bytes, write, file, i + 1)
  }

  function Holder(ph: seq<Segment>, address: nat, bytes: nat, write: bool, file: bool): (r: Option<Segment>)
    ensures r.Some? ==> r.value in ph && Holds(r.value, address, bytes, write, file)
    ensures r.None? ==> forall j :: 0 <= j < |ph| ==> !Holds(ph[j], address, bytes, write, file)
  {
    HolderFrom(ph, address, bytes, write, file, 0)
  }

  /** elf_file_range(): where the bytes at an address come from. */
  function FileOffset(ph: seq<Segment>, address: nat, bytes: nat): Option<nat> {
    match Holder(ph, address, bytes, false, true)
    case None => None
    case Some(p) => Some(p.offset + (address - p.vaddr))
  }

  // ----- Relocations -----

  predicate Informational(tag: nat) { tag in {4, 5, 6, 10, 11, 21, 0x6fff_fef5} }

  predicate Relocating(tag: nat) { tag in {7, 8, 9, 0x6fff_fff9} }

  /** A DT_FLAGS or DT_FLAGS_1 value asks for immediate binding and position independence at most. */
  predicate FlagsOk(e: Dynamic) {
    (e.tag == 30 ==> e.value in {0, 8}) && (e.tag == 0x6fff_fffb ==> e.value in {0, 1, 0x800_0000, 0x800_0001})
  }

  predicate TagOk(e: Dynamic) {
    (Informational(e.tag) || Relocating(e.tag) || e.tag == 30 || e.tag == 0x6fff_fffb) && FlagsOk(e)
  }

  predicate Has(es: seq<Dynamic>, tag: nat) { exists k :: 0 <= k < |es| && es[k].tag == tag }

  /** The value of a tag, or 0. */
  function ValueOf(es: seq<Dynamic>, tag: nat): nat {
    if es == [] then 0 else if es[|es| - 1].tag == tag then es[|es| - 1].value else ValueOf(es[..|es| - 1], tag)
  }

  /** The entries before the terminator are known, and those about relocations are not repeated. */
  predicate EntriesOk(es: seq<Dynamic>) {
    && (forall k :: 0 <= k < |es| ==> es[k].tag != 0 && TagOk(es[k]))
    && (forall j, k :: 0 <= j < k < |es| && Relocating(es[k].tag) ==> es[j].tag != es[k].tag)
  }

  /** An R_X86_64_RELATIVE of a writable word to an image address. */
  predicate RelaOk(ph: seq<Segment>, r: Rela) {
    r.info == 8 && r.addend < IMAGE_END - IMAGE && Holder(ph, r.offset, 8, true, false).Some?
  }

  function Relas(d: seq<byte>, at: nat, n: nat): (rs: seq<Rela>)
    requires at + 24 * n <= |d|
    ensures |rs| == n && forall i :: 0 <= i < n ==> rs[i] == RelaAt(d, at + 24 * i)
  {
    seq(n, i requires 0 <= i < n => RelaAt(d, at + 24 * i))
  }

  /** What the entries say about relocations fits together. */
  function TableOf(d: seq<byte>, ph: seq<Segment>, es: seq<Dynamic>): Option<seq<Rela>> {
    var address, bytes, size, relative := ValueOf(es, 7), ValueOf(es, 8), ValueOf(es, 9), ValueOf(es, 0x6fff_fff9);
    if !Has(es, 7) && !Has(es, 8) && !Has(es, 9) then if relative == 0 then Some([]) else None
    else if !(Has(es, 7) && Has(es, 8) && Has(es, 9)) then None
    else if size != 24 || bytes % 24 != 0 || bytes / 24 > 65536 || relative > bytes / 24 then None
    else if bytes == 0 then Some([])
    else match FileOffset(ph, address, bytes)
      case None => None
      case Some(at) =>
        if at + bytes > |d| then None
        else
          var rs := Relas(d, at, bytes / 24);
          if forall i :: 0 <= i < |rs| ==> RelaOk(ph, rs[i]) then Some(rs) else None
  }

  function EntriesAt(d: seq<byte>, at: nat, n: nat): (es: seq<Dynamic>)
    requires at + 16 * n <= |d|
    ensures |es| == n && forall i :: 0 <= i < n ==> es[i] == DynamicAt(d, at + 16 * i)
  {
    seq(n, i requires 0 <= i < n => DynamicAt(d, at + 16 * i))
  }

  /** The number of entries before the first terminator. */
  function Terminator(es: seq<Dynamic>, i: nat): (n: nat)
    requires i <= |es|
    ensures i <= n <= |es| && (n < |es| ==> es[n].tag == 0) && forall k :: i <= k < n ==> es[k].tag != 0
    decreases |es| - i
  {
    if i == |es| || es[i].tag == 0 then i else Terminator(es, i + 1)
  }

  // ----- The whole image -----

  predicate HeaderOk(d: seq<byte>) {
    && |d| >= 64 && d[..7] == [0x7f, 0x45, 0x4c, 0x46, 2, 1, 1]
    && var h := HeaderOf(d);
       && (h.kind == 2 || h.kind == 3) && h.machine == 62 && h.version == 1 && h.ehsize == 64 && h.phentsize == 56
       && 1 <= h.phnum <= 32 && h.phoff <= |d| && h.phnum <= (|d| - h.phoff) / 56
  }

  function Program(d: seq<byte>): (ph: seq<Segment>)
    requires HeaderOk(d)
  {
    SegmentsFrom(d, HeaderOf(d).phoff, HeaderOf(d).phnum)
  }

  function Bias(d: seq<byte>): (bias: nat)
    requires HeaderOk(d)
    ensures bias == 0 || bias == IMAGE
  {
    if HeaderOf(d).kind == 3 then IMAGE else 0
  }

  predicate One(ph: seq<Segment>, i: nat) {
    i < |ph| && ph[i].kind == 2 && forall j :: 0 <= j < |ph| && j != i ==> ph[j].kind != 2
  }

  predicate NoDynamic(ph: seq<Segment>) { forall i :: 0 <= i < |ph| ==> ph[i].kind != 2 }

  /** The relocations of the dynamic segment p. */
  function DynamicRelas(d: seq<byte>, ph: seq<Segment>, p: Segment): Option<seq<Rela>> {
    if p.filesz == 0 || p.filesz > 65536 || p.filesz % 16 != 0 || p.filesz != p.memsz then None
    else if FileOffset(ph, p.vaddr, p.filesz) != Some(p.offset) || p.offset + p.filesz > |d| then None
    else
      var es := EntriesAt(d, p.offset, p.filesz / 16);
      var n := Terminator(es, 0);
      if n == |es| || !EntriesOk(es[..n]) then None else TableOf(d, ph, es[..n])
  }

  /** elf_relocations() accepts these relocations. */
  predicate Relocations(d: seq<byte>, ph: seq<Segment>, rs: seq<Rela>) {
    (NoDynamic(ph) && rs == []) || exists i: nat :: i < |ph| && One(ph, i) && DynamicRelas(d, ph, ph[i]) == Some(rs)
  }

  predicate Relro(p: Segment) { p.kind == 0x6474_e552 && p.memsz > 0 }

  predicate RelroOk(ph: seq<Segment>) {
    forall i :: 0 <= i < |ph| && Relro(ph[i]) ==> Holder(ph, ph[i].vaddr, ph[i].memsz, true, false).Some?
  }

  /** Everything that load_elf checks before it maps a page. */
  predicate Accepted(d: seq<byte>, rs: seq<Rela>) {
    && HeaderOk(d)
    && var ph, bias := Program(d), Bias(d);
       && SegmentsOk(ph, bias, |d|) && (exists i :: 0 <= i < |ph| && EntryIn(ph[i], HeaderOf(d).entry))
       && (if bias == IMAGE then Relocations(d, ph, rs) else rs == []) && RelroOk(ph)
  }

  // ----- The memory it prescribes -----

  datatype Perm = Perm(write: bool, execute: bool)

  function FirstPage(p: Segment, bias: nat): nat { (bias + p.vaddr) / 4096 }

  function EndPage(p: Segment, bias: nat): nat { (bias + p.vaddr + p.memsz + 4095) / 4096 }

  /** The byte of the file at an address of a segment, or 0 around it. */
  function FileByte(d: seq<byte>, p: Segment, bias: nat, a: nat): byte {
    if bias + p.vaddr <= a < bias + p.vaddr + p.filesz && p.offset + (a - bias - p.vaddr) < |d| then d[p.offset + (a - bias - p.vaddr)]
    else 0
  }

  predicate Covers(r: Rela, bias: nat, a: nat) { bias + r.offset <= a < bias + r.offset + 8 }

  /** That byte after the first n relocations: the last one that covers it counts. */
  function Patched(rs: seq<Rela>, bias: nat, n: nat, a: nat, base: byte): byte
    requires n <= |rs|
  {
    if n == 0 then base
    else if Covers(rs[n - 1], bias, a) then ByteOf(bias + rs[n - 1].addend, a - bias - rs[n - 1].offset)
    else Patched(rs, bias, n - 1, a, base)
  }

  /** A whole page of one of the first n segments, which asks for no writing after relocation. */
  predicate InRelro(ph: seq<Segment>, bias: nat, page: nat, n: nat)
    requires n <= |ph|
  {
    exists i :: 0 <= i < n && Relro(ph[i]) && FirstPage(ph[i], bias) <= page < (bias + ph[i].vaddr + ph[i].memsz) / 4096
  }

  predicate InSegment(p: Segment, bias: nat, page: nat) { Loadable(p) && FirstPage(p, bias) <= page < EndPage(p, bias) }

  /** A page of one of the first n segments. */
  predicate Covered(ph: seq<Segment>, bias: nat, page: nat, n: nat)
    requires n <= |ph|
  {
    exists i :: 0 <= i < n && InSegment(ph[i], bias, page)
  }

  // ----- What acceptance means -----

  /** Pages of different segments are different. */
  lemma PagesApart(ph: seq<Segment>, bias: nat, length: nat, i: nat, j: nat, page: nat)
    requires (bias == 0 || bias == IMAGE) && SegmentsOk(ph, bias, length) && i < |ph| && j < |ph|
    requires InSegment(ph[i], bias, page) && InSegment(ph[j], bias, page)
    ensures i == j
  {
    hide InRange, Supported;
    assert SegmentOk(ph, i, bias, length) && SegmentOk(ph, j, bias, length);
    Shifted(ph[i], bias);
    Shifted(ph[j], bias);
  }

  lemma Shifted(p: Segment, bias: nat)
    requires bias == 0 || bias == IMAGE
    ensures FirstPage(p, bias) == First(p) + bias / 4096 && EndPage(p, bias) == End(p) + bias / 4096
  {
  }

  /** A segment to load lies in the image, in user memory, and is not writable and executable. */
  lemma SegmentPlace(ph: seq<Segment>, bias: nat, length: nat, i: nat)
    requires (bias == 0 || bias == IMAGE) && SegmentsOk(ph, bias, length) && i < |ph| && Loadable(ph[i])
    ensures
      var p := ph[i];
      && InRange(p, bias, length) && USER_MIN <= bias + p.vaddr && bias + p.vaddr + p.memsz <= IMAGE_END < USER_END
      && !(Writable(p) && Executable(p)) && p.filesz <= p.memsz && p.offset + p.filesz <= length
      && USER_MIN <= FirstPage(p, bias) * 4096 && EndPage(p, bias) * 4096 <= IMAGE_END
  {
    hide PowerOfTwo, Supported, Apart;
    assert SegmentOk(ph, i, bias, length);
  }

  /** What a segment takes from the file is in the file. */
  lemma FileFits(ph: seq<Segment>, bias: nat, length: nat, address: nat, bytes: nat)
    requires (bias == 0 || bias == IMAGE) && SegmentsOk(ph, bias, length) && bytes > 0
    requires FileOffset(ph, address, bytes).Some?
    ensures FileOffset(ph, address, bytes).value + bytes <= length
  {
    hide Holder, Supported, PowerOfTwo, Apart;
    var p := Holder(ph, address, bytes, false, true).value;
    var i :| 0 <= i < |ph| && ph[i] == p;
    assert SegmentOk(ph, i, bias, length);
  }

  /** A relocated word lies in a segment that is writable, so not executable. */
  lemma RelaPlace(ph: seq<Segment>, bias: nat, length: nat, r: Rela) returns (i: nat)
    requires (bias == 0 || bias == IMAGE) && SegmentsOk(ph, bias, length) && RelaOk(ph, r)
    ensures i < |ph| && Loadable(ph[i]) && Writable(ph[i]) && !Executable(ph[i])
    ensures ph[i].vaddr <= r.offset && r.offset + 8 <= ph[i].vaddr + ph[i].memsz
  {
    hide Holder, Supported, PowerOfTwo, Apart;
    var p := Holder(ph, r.offset, 8, true, false).value;
    i :| 0 <= i < |ph| && ph[i] == p;
    SegmentPlace(ph, bias, length, i);
  }

  /** A relocated word that no later relocation touches reads as the address of the image it names. */
  lemma {:induction false} RelocatedWord(rs: seq<Rela>, bias: nat, n: nat, i: nat, k: nat, base: byte)
    requires i < n <= |rs| && k < 8
    requires forall j :: i < j < n ==> !Covers(rs[j], bias, bias + rs[i].offset + k)
    ensures Patched(rs, bias, n, bias + rs[i].offset + k, base) == ByteOf(bias + rs[i].addend, k)
    decreases n
  {
    if n > i + 1 { RelocatedWord(rs, bias, n - 1, i, k, base); }
  }

  /** The bytes of a 64-bit number give it back. */
  lemma Word64Number(v: nat)
    requires v < 0x1_0000_0000_0000_0000
    ensures Number(Word64(v), 0, 8) == v
  {
    var w := Word64(v);
    NumberOfWord(w, v, 0, 8);
  }

  lemma {:induction false} NumberOfWord(w: seq<byte>, v: nat, at: nat, n: nat)
    requires at + n <= |w| && forall k :: 0 <= k < n ==> w[at + k] == ByteOf(v, k)
    requires v < Power(n)
    ensures Number(w, at, n) == v
    decreases n
  {
    if n > 0 {
      forall k | 0 <= k < n - 1
        ensures w[at + 1 + k] == ByteOf(v / 256, k) { assert w[at + (k + 1)] == ByteOf(v, k + 1); }
      assert w[at + 0] == ByteOf(v, 0);
      NumberOfWord(w, v / 256, at + 1, n - 1);
    }
  }

  function Power(n: nat): nat { if n == 0 then 1 else 256 * Power(n - 1) }

  // ----- Bytes in memory -----

  function Addresses(lo: nat, hi: nat): (s: set<nat>)
    ensures forall a: nat :: a in s <==> lo <= a < hi
    decreases hi
  {
    if hi <= lo then {} else Addresses(lo, hi - 1) + {hi - 1}
  }

  /** Memory with these bytes at an address. */
  function Overlay(data: map<nat, byte>, va: nat, src: seq<byte>): (r: map<nat, byte>)
    ensures forall a: nat :: a in r <==> a in data || va <= a < va + |src|
    ensures forall a: nat :: a in r ==> r[a] == if va <= a < va + |src| then src[a - va] else data[a]
  {
    data + map a: nat | a in Addresses(va, va + |src|) :: ByteFor(src, va, a)
  }

  function ByteFor(src: seq<byte>, va: nat, a: nat): byte
    requires va <= a < va + |src|
  {
    src[a - va]
  }

  function Zeros(n: nat): (z: seq<byte>)
    ensures |z| == n && forall k :: 0 <= k < n ==> z[k] == 0
  {
    seq(n, _ => 0)
  }

  lemma OverlayAt(data: map<nat, byte>, va: nat, src: seq<byte>, a: nat)
    ensures a in Overlay(data, va, src) <==> a in data || va <= a < va + |src|
    ensures a in Overlay(data, va, src) ==> Overlay(data, va, src)[a] == if va <= a < va + |src| then src[a - va] else data[a]
  {
    hide Overlay;
  }
}
