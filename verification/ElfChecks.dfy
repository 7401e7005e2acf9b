/** The checks of kernel/elf_loader.h, as loops: elf_segment, elf_relocations and the first part of load_elf. */
module ElfChecks {
  import opened Wrappers
  import opened ElfImage

  /** elf_segment() */
  method FindSegment(ph: seq<Segment>, address: nat, bytes: nat, write: bool, file: bool) returns (r: Option<Segment>)
    ensures r == Holder(ph, address, bytes, write, file)
  {
    for i := 0 to |ph|
      invariant Holder(ph, address, bytes, write, file) == HolderFrom(ph, address, bytes, write, file, i)
    {
      var p := ph[i];
      var size := if file then p.filesz else p.memsz;
      if p.kind == 1 && (write ==> Writable(p)) && address >= p.vaddr && address - p.vaddr <= size && bytes <= size - (address - p.vaddr) {
        return Some(p);
      }
    }
    r := None;
  }

  /** elf_file_range() */
  method FileRange(ph: seq<Segment>, address: nat, bytes: nat) returns (r: Option<nat>)
    ensures r == FileOffset(ph, address, bytes)
  {
    hide Holder;
    var p := FindSegment(ph, address, bytes, false, true);
    r := match p case None => None case Some(q) => Some(q.offset + (address - q.vaddr));
  }

  // ----- Segments -----

  /** The comparison of a segment with the ones before it. */
  method ApartFromEarlier(ph: seq<Segment>, i: nat, bias: nat) returns (ok: bool)
    requires i < |ph|
    ensures ok <==> forall j :: 0 <= j < i && Loadable(ph[j]) ==> Apart(ph[i], ph[j])
  {
    for j := 0 to i
      invariant forall k :: 0 <= k < j && Loadable(ph[k]) ==> Apart(ph[i], ph[k])
    {
      if ph[j].kind != 1 || ph[j].memsz == 0 { continue; }
      if First(ph[i]) < End(ph[j]) && First(ph[j]) < End(ph[i]) { return false; }
    }
    ok := true;
  }

  /** Segments so far have one ABI: 0 none yet, 1 legacy, 2 current. */
  ghost predicate AbiSoFar(ph: seq<Segment>, n: nat, bias: nat, abi: nat) {
    && n <= |ph| && abi <= 2
    && (forall j :: 0 <= j < n && Loadable(ph[j]) ==> abi == if Abi(ph[j], bias) then 2 else 1)
    && (abi == 0 ==> forall j :: 0 <= j < n ==> !Loadable(ph[j]))
    && (abi != 0 ==> exists j :: 0 <= j < n && Loadable(ph[j]))
  }

  /** One turn of the first loop of load_elf. */
  method CheckSegment(ph: seq<Segment>, i: nat, bias: nat, length: nat, abi: nat) returns (ok: bool, newAbi: nat)
    requires i < |ph| && bias <= IMAGE_END && AbiSoFar(ph, i, bias, abi)
    ensures ok <==> SegmentOk(ph, i, bias, length)
    ensures ok ==> AbiSoFar(ph, i + 1, bias, newAbi)
  {
    hide InRange, Apart, PowerOfTwo, Abi;
    var p := ph[i];
    newAbi := abi;
    if !Supported(p, bias > 0) { return false, abi; }
    if p.kind != 1 || (p.memsz == 0 && p.filesz == 0) { return true, abi; }
    if !InRange(p, bias, length) { return false, abi; }
    if p.memsz == 0 { return true, abi; }
    var segmentAbi: nat := if Abi(p, bias) then 2 else 1;
    if abi != 0 && abi != segmentAbi { return false, abi; }
    newAbi := segmentAbi;
    ok := ApartFromEarlier(ph, i, bias);
  }

  /** The first loop of load_elf. */
  method CheckSegments(ph: seq<Segment>, bias: nat, length: nat, entry: nat) returns (ok: bool, abi: nat)
    requires bias <= IMAGE_END
    ensures ok <==> SegmentsOk(ph, bias, length) && exists i :: 0 <= i < |ph| && EntryIn(ph[i], entry)
    ensures ok ==> AbiSoFar(ph, |ph|, bias, abi)
  {
    hide SegmentOk, AbiSoFar, EntryIn;
    var executableEntry := false;
    abi := 0;
    NoAbi(ph, bias);
    var i: nat := 0;
    while i < |ph|
      invariant i <= |ph| && AbiSoFar(ph, i, bias, abi)
      invariant forall j :: 0 <= j < i ==> SegmentOk(ph, j, bias, length)
      invariant executableEntry <==> exists j :: 0 <= j < i && EntryIn(ph[j], entry)
    {
      ok, abi := CheckSegment(ph, i, bias, length, abi);
      if !ok { return; }
      if EntryIn(ph[i], entry) { executableEntry := true; }
      i := i + 1;
    }
    ok := executableEntry;
  }

  lemma NoAbi(ph: seq<Segment>, bias: nat)
    ensures AbiSoFar(ph, 0, bias, 0)
  {
  }

  /** The loop over the segments that ask for read-only data. */
  method CheckRelro(ph: seq<Segment>) returns (ok: bool)
    ensures ok <==> RelroOk(ph)
  {
    hide Holder;
    for i := 0 to |ph|
      invariant forall j :: 0 <= j < i && Relro(ph[j]) ==> Holder(ph, ph[j].vaddr, ph[j].memsz, true, false).Some?
    {
      if ph[i].kind == 0x6474_e552 && ph[i].memsz > 0 {
        var p := FindSegment(ph, ph[i].vaddr, ph[i].memsz, true, false);
        if p.None? { return false; }
      }
    }
    ok := true;
  }

  // ----- The dynamic table -----

  lemma EntriesNext(s: seq<Dynamic>, e: Dynamic)
    ensures EntriesOk(s + [e]) <==> EntriesOk(s) && e.tag != 0 && TagOk(e) && (Relocating(e.tag) ==> !Has(s, e.tag))
    ensures forall t: nat :: Has(s + [e], t) <==> Has(s, t) || e.tag == t
    ensures forall t: nat :: ValueOf(s + [e], t) == if e.tag == t then e.value else ValueOf(s, t)
  {
    hide TagOk, Relocating;
    var s' := s + [e];
    assert s'[..|s|] == s;
    assert forall k :: 0 <= k < |s| ==> s'[k] == s[k];
    if EntriesOk(s') { assert s'[|s|] == e; }
    forall t: nat ensures Has(s', t) <==> Has(s, t) || e.tag == t {
      if e.tag == t { assert s'[|s|].tag == t; }
      if Has(s, t) { var k :| 0 <= k < |s| && s[k].tag == t; assert s'[k].tag == t; }
    }
  }

  lemma EntriesPrefix(es: seq<Dynamic>, k: nat, n: nat)
    requires k <= n <= |es| && EntriesOk(es[..n])
    ensures EntriesOk(es[..k])
  {
    hide TagOk, Relocating;
    assert forall j :: 0 <= j < k ==> es[..k][j] == es[..n][j];
  }

  lemma {:induction false} TerminatorIs(es: seq<Dynamic>, i: nat, k: nat)
    requires i <= k <= |es| && (forall j :: i <= j < k ==> es[j].tag != 0) && (k < |es| ==> es[k].tag == 0)
    ensures Terminator(es, i) == k
    decreases k - i
  {
    if i < k { TerminatorIs(es, i + 1, k); }
  }

  /** The values of a dynamic table that concern relocations. */
  datatype Scan = Scan(seen: set<nat>, address: nat, bytes: nat, size: nat, relative: nat)

  ghost predicate Scanned(es: seq<Dynamic>, s: Scan) {
    && EntriesOk(es) && s.address == ValueOf(es, 7) && s.bytes == ValueOf(es, 8) && s.size == ValueOf(es, 9)
    && s.relative == ValueOf(es, 0x6fff_fff9)
    && (1 in s.seen <==> Has(es, 7)) && (2 in s.seen <==> Has(es, 8)) && (4 in s.seen <==> Has(es, 9))
        && (8 in s.seen <==> Has(es, 0x6fff_fff9))
  }

  /** One turn of the loop of elf_relocations. */
  method ScanEntry(e: Dynamic, s: Scan, ghost es: seq<Dynamic>) returns (ok: bool, s': Scan)
    requires Scanned(es, s) && e.tag != 0
    ensures ok <==> EntriesOk(es + [e])
    ensures ok ==> Scanned(es + [e], s')
  {
    hide EntriesOk, Has, ValueOf;
    EntriesNext(es, e);
    ok, s' := true, s;
    var bit := 0;
    if e.tag == 7 { bit, s' := 1, s'.(address := e.value); }
    else if e.tag == 8 { bit, s' := 2, s'.(bytes := e.value); }
    else if e.tag == 9 { bit, s' := 4, s'.(size := e.value); }
    else if e.tag == 0x6fff_fff9 { bit, s' := 8, s'.(relative := e.value); }
    else if e.tag == 30 || e.tag == 0x6fff_fffb { if !FlagsOk(e) { return false, s; } }
    else if !Informational(e.tag) { return false, s; }
    if bit != 0 {
      if bit in s.seen { return false, s; }
      s' := s'.(seen := s'.seen + {bit});
    }
  }

  /** The loop of elf_relocations over the dynamic table. */
  method ScanTable(d: seq<byte>, at: nat, n: nat) returns (ok: bool, s: Scan)
    requires at + 16 * n <= |d|
    ensures
      var es := EntriesAt(d, at, n);
      var k := Terminator(es, 0);
      (ok <==> k < n && EntriesOk(es[..k])) && (ok ==> Scanned(es[..k], s))
  {
    hide EntriesOk, Scanned, DynamicAt;
    ghost var es := EntriesAt(d, at, n);
    s := Scan({}, 0, 0, 0, 0);
    NothingScanned();
    assert es[..0] == [];
    var i: nat := 0;
    while i < n
      invariant i <= n && Scanned(es[..i], s) && forall j :: 0 <= j < i ==> es[j].tag != 0
    {
      var e := DynamicAt(d, at + 16 * i);
      assert es[i] == e;
      if e.tag == 0 { TerminatorIs(es, 0, i); ScannedOk(es[..i], s); return true, s; }
      ok, s := ScanEntry(e, s, es[..i]);
      assert es[..i] + [e] == es[..i + 1];
      if !ok { NotOkLater(es, i); return; }
      i := i + 1;
    }
    TerminatorIs(es, 0, n);
    ok := false;
  }

  lemma NothingScanned()
    ensures Scanned([], Scan({}, 0, 0, 0, 0))
  {
  }

  lemma ScannedOk(es: seq<Dynamic>, s: Scan)
    requires Scanned(es, s)
    ensures EntriesOk(es)
  {
    hide EntriesOk;
  }

  lemma NotOkLater(es: seq<Dynamic>, i: nat)
    requires i < |es| && (forall j :: 0 <= j <= i ==> es[j].tag != 0) && !EntriesOk(es[..i + 1])
    ensures !EntriesOk(es[..Terminator(es, 0)])
  {
    hide EntriesOk;
    var k := Terminator(es, 0);
    assert k > i;
    if EntriesOk(es[..k]) { EntriesPrefix(es, i + 1, k); }
  }

  /** The checks of elf_relocations on what the dynamic table says. */
  method CheckTable(d: seq<byte>, ph: seq<Segment>, bias: nat, s: Scan,
      ghost es: seq<Dynamic>) returns (r: Option<seq<Rela>>)
    requires (bias == 0 || bias == IMAGE) && SegmentsOk(ph, bias, |d|) && Scanned(es, s)
    ensures r == TableOf(d, ph, es)
  {
    hide EntriesOk, Has, ValueOf, SegmentsOk, Holder;
    if 1 in s.seen || 2 in s.seen || 4 in s.seen {
      if !(1 in s.seen && 2 in s.seen && 4 in s.seen) { return None; }
    } else {
      return if s.relative != 0 then None else Some([]);
    }
    if s.size != 24 || s.bytes % 24 != 0 || s.bytes / 24 > 65536 || s.relative > s.bytes / 24 { return None; }
    if s.bytes == 0 { return Some([]); }
    var at := FileRange(ph, s.address, s.bytes);
    if at.None? { return None; }
    FileFits(ph, bias, |d|, s.address, s.bytes);
    var n := s.bytes / 24;
    var rs := Relas(d, at.value, n);
    for i := 0 to n
      invariant forall j :: 0 <= j < i ==> RelaOk(ph, rs[j])
    {
      var rel := rs[i];
      if rel.info != 8 || rel.addend >= IMAGE_END - IMAGE { return None; }
      var p := FindSegment(ph, rel.offset, 8, true, false);
      if p.None? { return None; }
    }
    r := Some(rs);
  }

  /** The dynamic segment, if there is exactly one. */
  method FindDynamic(ph: seq<Segment>) returns (ok: bool, found: Option<nat>)
    ensures ok && found.None? <==> NoDynamic(ph)
    ensures ok && found.Some? ==> One(ph, found.value)
    ensures !ok ==> !NoDynamic(ph) && forall i: nat :: !One(ph, i)
  {
    found := None;
    for i := 0 to |ph|
      invariant found.None? ==> forall j :: 0 <= j < i ==> ph[j].kind != 2
      invariant found.Some? ==> found.value < i && ph[found.value].kind == 2
      invariant found.Some? ==> forall j :: 0 <= j < i && j != found.value ==> ph[j].kind != 2
    {
      if ph[i].kind == 2 {
        if found.Some? { return false, None; }
        found := Some(i);
      }
    }
    ok := true;
  }

  /** elf_relocations() */
  method ElfRelocations(d: seq<byte>, ph: seq<Segment>, bias: nat) returns (r: Option<seq<Rela>>)
    requires (bias == 0 || bias == IMAGE) && SegmentsOk(ph, bias, |d|)
    ensures r.Some? ==> Relocations(d, ph, r.value)
    ensures r.None? ==> forall rs :: !Relocations(d, ph, rs)
  {
    hide SegmentsOk, NoDynamic, One, DynamicRelas;
    var ok, found := FindDynamic(ph);
    if !ok { return None; }
    if found.None? { return Some([]); }
    OnlyOne(ph, found.value);
    r := ReadDynamic(d, ph, bias, ph[found.value]);
  }

  method ReadDynamic(d: seq<byte>, ph: seq<Segment>, bias: nat, p: Segment) returns (r: Option<seq<Rela>>)
    requires (bias == 0 || bias == IMAGE) && SegmentsOk(ph, bias, |d|)
    ensures r == DynamicRelas(d, ph, p)
  {
    hide SegmentsOk, TableOf, EntriesOk, FileOffset, Scanned;
    if p.filesz == 0 || p.filesz > 65536 || p.filesz % 16 != 0 || p.filesz != p.memsz { return None; }
    var table := FileRange(ph, p.vaddr, p.filesz);
    if table.None? || table.value != p.offset { return None; }
    FileFits(ph, bias, |d|, p.vaddr, p.filesz);
    var ok, s := ScanTable(d, p.offset, p.filesz / 16);
    if !ok { return None; }
    ghost var es := EntriesAt(d, p.offset, p.filesz / 16);
    r := CheckTable(d, ph, bias, s, es[..Terminator(es, 0)]);
  }

  lemma OnlyOne(ph: seq<Segment>, i: nat)
    requires One(ph, i)
    ensures i < |ph| && !NoDynamic(ph) && forall j: nat :: One(ph, j) ==> j == i
  {
  }
}
