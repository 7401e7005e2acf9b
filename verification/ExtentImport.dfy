/** write_source() of scripts/extent_store.py: copying a file into free blocks only. */
module ExtentImport {
  import opened Wrappers
  import opened Snapshot
  import opened StoreProtocol
  import opened StoreMount
  import opened StoreRuns
  import opened Store
  import opened ExtentCodec
  import opened ExtentRanges
  import opened ExtentValidate
  import opened ExtentPlan

  /** Block p of the partition: eight sectors. */
  function BlockAt(image: Image, p: nat): (b: seq<byte>)
    ensures |b| == 4096
  {
    At(image, 8 * p) + At(image, 8 * p + 1) + At(image, 8 * p + 2) + At(image, 8 * p + 3)
    + At(image, 8 * p + 4) + At(image, 8 * p + 5) + At(image, 8 * p + 6) + At(image, 8 * p + 7)
  }

  function BlockOf(lba: nat): nat { lba / 8 }

  /** Sector j of a block. */
  function Part(block: seq<byte>, j: nat): Sector
    requires |block| == 4096 && j < 8
  {
    block[512 * j..512 * j + 512]
  }

  lemma BlockIs(image: Image, p: nat, block: seq<byte>)
    requires |block| == 4096 && forall j: nat :: j < 8 ==> At(image, 8 * p + j) == Part(block, j)
    ensures BlockAt(image, p) == block
  {
    hide At;
    assert block == Part(block, 0) + Part(block, 1) + Part(block, 2) + Part(block, 3)
                    + Part(block, 4) + Part(block, 5) + Part(block, 6) + Part(block, 7);
  }

  lemma BlockSame(a: Image, b: Image, p: nat)
    requires forall lba: nat :: BlockOf(lba) == p ==> At(a, lba) == At(b, lba)
    ensures BlockAt(a, p) == BlockAt(b, p)
  {
    hide At;
    assert BlockOf(8 * p) == p && BlockOf(8 * p + 1) == p && BlockOf(8 * p + 2) == p && BlockOf(8 * p + 3) == p;
    assert BlockOf(8 * p + 4) == p && BlockOf(8 * p + 5) == p && BlockOf(8 * p + 6) == p && BlockOf(8 * p + 7) == p;
  }

  /** Block b of a file, padded with zeros behind its end. */
  function SourceBlock(source: seq<byte>, b: nat): (s: seq<byte>)
    ensures |s| == 4096
    ensures forall k :: 0 <= k < 4096 ==> s[k] == if 4096 * b + k < |source| then source[4096 * b + k] else 0
  {
    if 4096 * b >= |source| then Zeros(4096)
    else if 4096 * b + 4096 <= |source| then source[4096 * b..4096 * b + 4096]
    else source[4096 * b..] + Zeros(4096 * b + 4096 - |source|)
  }

  /** Block b of the file lies at block p. */
  ghost predicate MapsTo(es: seq<Extent>, b: nat, p: nat) {
    exists i :: 0 <= i < |es| && es[i].logical <= b < es[i].logical + es[i].blocks && p == es[i].physical + b - es[i].logical
  }

  ghost predicate Mapped(es: seq<Extent>, b: nat) {
    exists i :: 0 <= i < |es| && es[i].logical <= b < es[i].logical + es[i].blocks
  }

  /** What a file with these extents reads in block b: holes are zeros. */
  ghost predicate Shows(es: seq<Extent>, image: Image, b: nat, bytes: seq<byte>) {
    && (forall p: nat :: MapsTo(es, b, p) ==> BlockAt(image, p) == bytes)
    && (!Mapped(es, b) ==> bytes == Zeros(4096))
  }

  /** All extents end before block limit. */
  predicate EndBy(es: seq<Extent>, limit: nat) {
    forall i :: 0 <= i < |es| ==> es[i].logical + es[i].blocks <= limit
  }

  lemma ExtendedMaps(es: seq<Extent>, logical: u64, physical: u64, blocks: u64, b: nat)
    requires es != [] ==> es[|es| - 1].blocks + blocks < 0x1_0000_0000_0000_0000
    requires EndBy(es, logical) && blocks > 0
    ensures
      var es' := Extended(es, logical, physical, blocks);
      && (forall p: nat :: MapsTo(es', b, p) <==> MapsTo(es, b, p) || (logical <= b < logical + blocks && p == physical + b - logical))
      && (Mapped(es', b) <==> Mapped(es, b) || logical <= b < logical + blocks)
      && EndBy(es', logical + blocks)
  {
    var es', n := Extended(es, logical, physical, blocks), |es| - 1;
    forall i | 0 <= i < |es| && es[i].logical <= b < es[i].logical + es[i].blocks
      ensures es'[i].logical == es[i].logical && es'[i].physical == es[i].physical && es[i].blocks <= es'[i].blocks
    {
    }
    if logical <= b < logical + blocks {
      var k := |es'| - 1;
      assert es'[k].logical <= b < es'[k].logical + es'[k].blocks;
    }
  }

  /** Blocks lie below this bound; a partition has less than 2^64 sectors. */
  const LIMIT: nat := 0x2000_0000_0000_0000

  predicate BlocksInside(es: seq<Extent>) {
    forall i :: 0 <= i < |es| ==> es[i].blocks > 0 && es[i].physical + es[i].blocks <= LIMIT
  }

  /** The blocks before upto read as the source, the others are not mapped yet. */
  ghost predicate Copied(es: seq<Extent>, image: Image, source: seq<byte>, upto: nat) {
    EndBy(es, upto) && BlocksInside(es) && forall b: nat :: b < upto ==> Shows(es, image, b, SourceBlock(source, b))
  }

  /** The blocks of the extents are among some. */
  ghost predicate UsesOnly(es: seq<Extent>, blocks: set<nat>) {
    forall p: nat :: CoveredBy(RangesOf(es), p) ==> p in blocks
  }

  /** The extents are in order, share no block and use only some blocks. */
  ghost predicate Tidy(es: seq<Extent>, blocks: set<nat>) {
    && (forall i: nat, j: nat :: j == i + 1 && j < |es| ==> es[i].logical + es[i].blocks <= es[j].logical)
    && PairwiseApart(RangesOf(es)) && UsesOnly(es, blocks)
  }

  /** Only these blocks differ. */
  ghost predicate KeepsOthers(was: Image, image: Image, blocks: set<nat>) {
    forall p: nat :: p !in blocks ==> BlockAt(image, p) == BlockAt(was, p)
  }

  // ----- Writing blocks -----

  ghost predicate OutsideBlock(v: Volume, p: nat) { forall lba: nat :: BlockOf(lba) == p ==> Outside(v, lba) }

  /** Outside some blocks the disk is as before, now and after a crash. */
  ghost predicate SectorsKept(d: Disk, d': Disk, blocks: set<nat>) {
    forall lba: nat :: BlockOf(lba) !in blocks ==>
      At(View(d'), lba) == At(View(d), lba) && forall x :: Possible(d', lba, x) ==> Possible(d, lba, x)
  }

  /** Only file data has been written. */
  ghost predicate DataPoint(m: Machine, m': Machine, blocks: set<nat>) {
    m' == m.(disk := m'.disk) && SectorsKept(m.disk, m'.disk, blocks)
  }

  ghost predicate DataRun(log: seq<Machine>, log': seq<Machine>, blocks: set<nat>) {
    && log != [] && log <= log'
    && forall k :: |log| - 1 <= k < |log'| ==> DataPoint(log[|log| - 1], log'[k], blocks)
  }

  lemma SectorWritten(d: Disk, lba: nat, data: Sector, applied: bool)
    ensures SectorsKept(d, Issued(d, lba, data, applied), {BlockOf(lba)})
    ensures forall other: nat :: At(View(Issued(d, lba, data, true)), other) == if other == lba then data else At(View(d), other)
  {
    hide Possible, At, Latest;
    forall other: nat
      ensures At(View(Issued(d, lba, data, true)), other) == if other == lba then data else At(View(d), other)
    {
      ReadsIssued(d, lba, data, other);
    }
    forall other: nat, x | BlockOf(other) != BlockOf(lba) && Possible(Issued(d, lba, data, applied), other, x)
      ensures Possible(d, other, x)
    {
      IssueElsewhere(d, lba, data, applied, other, x);
    }
  }

  lemma KeptOn(d0: Disk, d1: Disk, d2: Disk, a: set<nat>, b: set<nat>)
    requires SectorsKept(d0, d1, a) && SectorsKept(d1, d2, b)
    ensures SectorsKept(d0, d2, a + b)
  {
    hide Possible, At, Latest;
  }

  lemma KeptMore(d: Disk, d': Disk, a: set<nat>, b: set<nat>)
    requires SectorsKept(d, d', a) && a <= b
    ensures SectorsKept(d, d', b)
  {
    hide Possible, At, Latest;
  }

  lemma KeptBlocks(d: Disk, d': Disk, blocks: set<nat>)
    requires SectorsKept(d, d', blocks)
    ensures KeepsOthers(View(d), View(d'), blocks)
  {
    hide Possible, At, Latest;
    forall p: nat | p !in blocks
      ensures BlockAt(View(d'), p) == BlockAt(View(d), p) { BlockSame(View(d'), View(d), p); }
  }

  lemma DataNothing(log: seq<Machine>, blocks: set<nat>)
    requires log != []
    ensures DataRun(log, log, blocks)
  {
    hide Possible, At, Latest;
  }

  lemma DataOne(log: seq<Machine>, m: Machine, blocks: set<nat>)
    requires log != [] && DataPoint(log[|log| - 1], m, blocks)
    ensures DataRun(log, log + [m], blocks)
  {
    hide Possible, At, Latest;
  }

  lemma DataOn(log0: seq<Machine>, log1: seq<Machine>, log2: seq<Machine>, a: set<nat>, b: set<nat>)
    requires DataRun(log0, log1, a) && DataRun(log1, log2, b)
    ensures DataRun(log0, log2, a + b)
  {
    hide SectorsKept;
    var m := log0[|log0| - 1];
    forall k | |log0| - 1 <= k < |log2| ensures DataPoint(m, log2[k], a + b) {
      assert DataPoint(m, log1[|log1| - 1], a);
      if k < |log1| {
        assert log2[k] == log1[k] && DataPoint(m, log1[k], a);
        KeptMore(m.disk, log2[k].disk, a, a + b);
      } else {
        assert DataPoint(log1[|log1| - 1], log2[k], b);
        KeptOn(m.disk, log1[|log1| - 1].disk, log2[k].disk, a, b);
      }
    }
  }

  lemma DataMeans(log: seq<Machine>, log': seq<Machine>, blocks: set<nat>)
    requires DataRun(log, log', blocks)
    ensures log != [] && log <= log' && DataPoint(log[|log| - 1], log'[|log'| - 1], blocks)
  {
    hide DataPoint;
  }

  lemma RunBlocks(log: seq<Machine>, log': seq<Machine>, blocks: set<nat>)
    requires DataRun(log, log', blocks)
    ensures log != [] && log <= log' && KeepsOthers(View(log[|log| - 1].disk), View(log'[|log'| - 1].disk), blocks)
  {
    hide SectorsKept, View, KeepsOthers;
    DataMeans(log, log', blocks);
    KeptBlocks(log[|log| - 1].disk, log'[|log'| - 1].disk, blocks);
  }

  /** The first n blocks of a run hold blocks of the source. */
  ghost predicate Filled(image: Image, source: seq<byte>, logical: nat, physical: nat, n: nat) {
    forall p: nat :: physical <= p < physical + n ==> BlockAt(image, p) == SourceBlock(source, logical + p - physical)
  }

  lemma FilledNext(was: Image, image: Image, source: seq<byte>, logical: nat, physical: nat, n: nat)
    requires Filled(was, source, logical, physical, n) && KeepsOthers(was, image, {physical + n})
    requires BlockAt(image, physical + n) == SourceBlock(source, logical + n)
    ensures Filled(image, source, logical, physical, n + 1)
  {
    hide BlockAt, SourceBlock;
  }

  lemma FilledNone(image: Image, source: seq<byte>, logical: nat, physical: nat)
    ensures Filled(image, source, logical, physical, 0)
  {
  }

  class Region {
    const store: VolumeState
    /** The free ranges, shortened as blocks are taken. */
    var free: seq<Range>
    ghost const available: seq<Range>
    ghost var taken: set<nat>

    ghost predicate Ranges()
      reads this
    {
      && InOrder(free)
      && (forall p: nat :: CoveredBy(available, p) <==> CoveredBy(free, p) || p in taken)
      && (forall p: nat :: CoveredBy(free, p) ==> p !in taken)
      && (forall p: nat :: CoveredBy(available, p) ==> p < LIMIT && OutsideBlock(store.v, p))
    }

    ghost predicate Valid()
      reads this, store
    {
      Ranges() && store.Ready() && store.restoreError == Good
    }

    constructor (store: VolumeState, free: seq<Range>)
      requires store.Ready() && store.restoreError == Good && InOrder(free)
      requires forall p: nat :: CoveredBy(free, p) ==> p < LIMIT && OutsideBlock(store.v, p)
      ensures Valid() && this.store == store && this.free == free && available == free && taken == {}
    {
      this.store, this.free, available, taken := store, free, free, {};
    }

    /** The start of the first free range, at most want blocks; none if there is no free block. */
    method TakeRun(want: nat) returns (ok: bool, physical: nat, blocks: nat)
      requires Ranges() && want > 0
      modifies this`free, this`taken
      ensures Ranges() && (ok <==> exists p: nat :: CoveredBy(old(free), p))
      ensures !ok ==> taken == old(taken) && forall p: nat :: !CoveredBy(free, p)
      ensures FirstRun(old(free), want) == if ok then Some(Taking(physical, blocks, free)) else None
      ensures ok ==> 0 < blocks <= want && physical + blocks <= LIMIT && taken == old(taken) + FromTo(physical, physical + blocks)
                     && (forall p: nat :: p in taken <==> p in old(taken) || physical <= p < physical + blocks)
                     && forall p: nat :: physical <= p < physical + blocks ==> CoveredBy(available, p) && p !in old(taken)
    {
      hide CoveredBy;
      ghost var was := free;
      while free != [] && free[0].lo == free[0].hi
        invariant taken == old(taken) && InOrder(free) && Skip(free) == Skip(was)
        invariant forall p: nat :: CoveredBy(free, p) <==> CoveredBy(was, p)
        decreases |free|
      {
        forall p: nat ensures CoveredBy(free[1..], p) <==> CoveredBy(free, p) { CoveredFirst(free, p); }
        free := free[1..];
      }
      if free == [] { NothingFree(); return false, 0, 0; }
      physical := free[0].lo;
      blocks := Min(want, free[0].hi - physical);
      ghost var before := free;
      var rest := [Range(physical + blocks, free[0].hi)] + free[1..];
      forall p: nat ensures CoveredBy(before, p) <==> CoveredBy(rest, p) || physical <= p < physical + blocks {
        CoveredFirst(before, p);
        CoveredFirst(rest, p);
        Shortened(before, physical + blocks, p);
      }
      CoveredFirst(before, physical + blocks - 1);
      forall p: nat | physical <= p < physical + blocks ensures CoveredBy(before, p) && !CoveredBy(rest, p) {
        CoveredFirst(before, p);
        CoveredFirst(rest, p);
        Shortened(before, physical + blocks, p);
      }
      RestInOrder(before, physical + blocks);
      free := rest;
      taken := taken + FromTo(physical, physical + blocks);
      ok := true;
    }

    lemma FreeOrdered()
      requires Valid()
      ensures Ordered(free) && InOrder(free)
    {
      hide CoveredBy;
    }

    lemma StoreNow()
      requires Valid()
      ensures store.log != [] && store.Now().disk == store.disk
    {
    }

    lemma StoreReady()
      requires Valid()
      ensures store.Ready() && store.restoreError == Good
    {
      hide CoveredBy;
    }

    /** Writing one block, sector by sector. */
    method WriteBlock(reliable: bool, p: nat, block: seq<byte>) returns (ok: bool)
      requires Valid() && CoveredBy(available, p) && |block| == 4096
      modifies store`disk, store`log
      ensures Valid() && DataRun(old(store.log), store.log, {p})
      ensures ok ==> BlockAt(View(store.disk), p) == block
      ensures reliable ==> ok
    {
      hide InOrder, CoveredBy, FaultyRun, Inv, Latest, At, Issued, Formatted, SectorsKept;
      DataNothing(store.log, {p});
      for j := 0 to 8
        invariant Valid() && DataRun(old(store.log), store.log, {p})
        invariant forall i: nat :: i < j ==> At(View(store.disk), 8 * p + i) == Part(block, i)
      {
        ghost var m, log := store.Now(), store.log;
        assert BlockOf(8 * p + j) == p;
        ok := store.WriteData(reliable, 8 * p + j, Part(block, j));
        ghost var applied :| (ok ==> applied) && store.disk == Issued(m.disk, 8 * p + j, Part(block, j), applied);
        SectorWritten(m.disk, 8 * p + j, Part(block, j), applied);
        DataOne(log, store.Now(), {p});
        DataOn(old(store.log), log, store.log, {p}, {p});
        assert {p} + {p} == {p};
        if !ok { return; }
      }
      BlockIs(View(store.disk), p, block);
      ok := true;
    }

    /** Writing blocks of the source. */
    method CopyRun(reliable: bool, source: seq<byte>, logical: nat, physical: nat, blocks: nat) returns (ok: bool)
      requires Valid() && forall p: nat :: physical <= p < physical + blocks ==> CoveredBy(available, p)
      modifies store`disk, store`log
      ensures Valid() && DataRun(old(store.log), store.log, FromTo(physical, physical + blocks))
      ensures ok ==> Filled(View(store.disk), source, logical, physical, blocks)
      ensures reliable ==> ok
    {
      hide InOrder, CoveredBy, FaultyRun, Inv, Latest, At, Issued, Formatted, SectorsKept, DataRun, View, BlockAt,
        Ranges, Filled, SourceBlock, KeepsOthers;
      ghost var all := FromTo(physical, physical + blocks);
      DataNothing(store.log, all);
      FilledNone(View(store.disk), source, logical, physical);
      for k := 0 to blocks
        invariant Valid() && DataRun(old(store.log), store.log, all)
        invariant Filled(View(store.disk), source, logical, physical, k)
      {
        ghost var log, d := store.log, store.disk;
        StoreNow();
        ok := WriteBlock(reliable, physical + k, SourceBlock(source, logical + k));
        StoreNow();
        RunBlocks(log, store.log, {physical + k});
        DataOn(old(store.log), log, store.log, all, {physical + k});
        assert all + {physical + k} == all;
        if !ok { return; }
        FilledNext(View(d), View(store.disk), source, logical, physical, k);
      }
      ok := true;
    }

    /** One turn of the inner loop: the next free run is taken and filled from the source. */
    method NextRun(reliable: bool, source: seq<byte>, logical: nat, want: nat) returns (r: Outcome, physical: nat,
        blocks: nat)
      requires Valid() && want > 0
      modifies this`free, this`taken, store`disk, store`log
      ensures Valid() && old(taken) <= taken && DataRun(old(store.log), store.log, taken - old(taken))
      ensures r == NoSpace ==> forall p: nat :: !CoveredBy(free, p)
      ensures r == Good || r == NoSpace || (r == Bad && !reliable)
      ensures r == NoSpace ==> taken == old(taken) && FirstRun(old(free), want) == None
      ensures r == Good ==> FirstRun(old(free), want) == Some(Taking(physical, blocks, free))
      ensures r == Good ==> 0 < blocks <= want && physical + blocks <= LIMIT
                            && taken == old(taken) + FromTo(physical, physical + blocks)
                            && old(taken) !! FromTo(physical, physical + blocks)
                            && Filled(View(store.disk), source, logical, physical, blocks)
    {
      hide CoveredBy, FaultyRun, Inv, View, BlockAt, DataRun, SourceBlock, Filled, FromTo, FirstRun;
      DataNothing(store.log, {});
      assert taken - old(taken) == {};
      var ok;
      ok, physical, blocks := TakeRun(want);
      if !ok { return NoSpace, 0, 0; }
      assert taken - old(taken) == FromTo(physical, physical + blocks);
      ok := CopyRun(reliable, source, logical, physical, blocks);
      r := if ok then Good else Bad;
    }

    lemma ValidMeans()
      requires Valid()
      ensures store.log != [] && store.Now().disk == store.disk
      ensures forall p :: p in taken ==> CoveredBy(available, p)
    {
      hide CoveredBy;
    }

    /** The inner loop of write_source(): the blocks of one data range; before are the blocks taken by other files. */
    method CopyRange(reliable: bool, source: seq<byte>, first: nat, stop: nat, es: seq<Extent>, ghost before: set<nat>)
      returns (r: Outcome, extents: seq<Extent>)
      requires Valid() && first <= stop <= Blocks(|source|) && |source| <= MAX_FILE && before <= taken
      requires Copied(es, View(store.disk), source, first) && Tidy(es, taken - before)
      modifies this`free, this`taken, store`disk, store`log
      ensures Valid() && old(taken) <= taken && DataRun(old(store.log), store.log, taken - old(taken))
      ensures r == Good || r == NoSpace || (r == Bad && !reliable)
      ensures r == NoSpace ==> forall p: nat :: !CoveredBy(free, p)
      ensures r == NoSpace ==> PlanRange(old(free), first, stop, es) == None
      ensures r == Good ==> Copied(extents, View(store.disk), source, stop) && Tidy(extents, taken - before)
      ensures r == Good ==> PlanRange(old(free), first, stop, es) == Some(Planned(free, extents))
    {
      hide Shows, MapsTo, Mapped, CoveredBy, Valid, Copied, UsesOnly, Tidy, View, DataRun, BlockAt, Filled,
        KeepsOthers, FromTo, DataPoint, FirstRun, PlanRange;
      ghost var log0, taken0, free0 := store.log, taken, free;
      ValidMeans();
      DataNothing(store.log, {});
      assert taken - taken0 == {};
      extents := es;
      var logical := first;
      while logical < stop
        invariant first <= logical <= stop
        invariant Valid() && taken0 <= taken && DataRun(log0, store.log, taken - taken0)
        invariant Copied(extents, View(store.disk), source, logical) && Tidy(extents, taken - before)
        invariant PlanRange(free, logical, stop, extents) == PlanRange(free0, first, stop, es)
        decreases stop - logical
      {
        CopiedMeans(extents, View(store.disk), source, logical);
        ghost var log1, disk1, taken1 := store.log, store.disk, taken;
        PlanTurn(free, logical, stop, extents);
        ValidMeans();
        var physical, blocks;
        r, physical, blocks := NextRun(reliable, source, logical, stop - logical);
        ValidMeans();
        DataOn(log0, log1, store.log, taken1 - taken0, taken - taken1);
        assert taken1 - taken0 + (taken - taken1) == taken - taken0;
        if r != Good { return; }
        RunBlocks(log1, store.log, taken - taken1);
        RunCopied(extents, View(disk1), View(store.disk), source, logical, physical, blocks, taken1 - before);
        TidyMore(extents, logical, physical, blocks, taken1 - before, taken - before);
        extents := Extended(extents, logical, physical, blocks);
        logical := logical + blocks;
      }
      PlanDone(free, logical, stop, extents);
      r := Good;
    }

    /** write_source(): the extents of the copy, or why there is none: NoSpace when no block is free any more.
        Only free blocks are written, and reading through the extents gives the source back. */
    method WriteSource(reliable: bool, source: seq<byte>, data: seq<Range>) returns (r: Outcome, extents: seq<Extent>)
      requires Valid() && |source| <= MAX_FILE && Sparse(source, data)
      modifies this`free, this`taken, store`disk, store`log
      ensures Valid() && old(taken) <= taken && DataRun(old(store.log), store.log, taken - old(taken))
      ensures r == Good || r == NoSpace || (r == Bad && !reliable)
      ensures r == NoSpace ==> forall p: nat :: !CoveredBy(free, p)
      ensures reliable ==> (r == Good <==> Needed(data) <= Room(old(free)))
      ensures r == NoSpace ==> PlanSource(old(free), data) == None
      ensures r == Good ==> PlanSource(old(free), data) == Some(Planned(free, extents))
      ensures r == Good ==> Tidy(extents, taken - old(taken)) && BlocksInside(extents) && EndBy(extents, Blocks(|source|))
                            && FileReads(extents, View(store.disk), source)
    {
      hide Shows, MapsTo, Mapped, CoveredBy, Valid, Copied, UsesOnly, Tidy, View, DataRun, BlockAt, Sparse, Filled,
        KeepsOthers, FromTo, NeededBy, DataPoint, FirstRun, PlanRange, PlanTo, Room, Ordered;
      extents := [];
      ghost var log0, taken0, free0 := store.log, taken, free;
      ValidMeans();
      FreeOrdered();
      DataNothing(store.log, {});
      var last: nat := 0;
      NothingCopied(View(store.disk), source);
      assert taken - taken0 == {};
      PlanStart(free0, data);
      for i := 0 to |data|
        invariant Valid() && taken0 <= taken && DataRun(log0, store.log, taken - taken0)
        invariant Copied(extents, View(store.disk), source, last) && Tidy(extents, taken - taken0)
        invariant PlanTo(free0, data, i) == Some(Planned(free, extents))
        invariant last == EndBefore(data, i)
      {
        var first: nat := if last > data[i].lo / 4096 then last else data[i].lo / 4096;
        var stop := Blocks(data[i].hi);
        HoleCopied(extents, View(store.disk), source, data, i, last, first);
        PlanNext(free0, data, i);
        ghost var log1, taken1 := store.log, taken;
        r, extents := CopyRange(reliable, source, first, stop, extents, taken0);
        DataOn(log0, log1, store.log, taken1 - taken0, taken - taken1);
        assert taken1 - taken0 + (taken - taken1) == taken - taken0;
        if r != Good {
          if r == NoSpace {
            PlanStops(free0, data, i + 1);
            SourceFits(free0, source, data);
          }
          return;
        }
        last := stop;
      }
      SourceFits(free0, source, data);
      TailCopied(extents, View(store.disk), source, data, last);
      CopiedMeans(extents, View(store.disk), source, Blocks(|source|));
      r := Good;
    }
  }

  lemma RestInOrder(rs: seq<Range>, lo: nat)
    requires InOrder(rs) && rs != [] && rs[0].lo <= lo <= rs[0].hi
    ensures InOrder([Range(lo, rs[0].hi)] + rs[1..])
  {
  }

  // ----- Steps of write_source -----

  lemma NothingCopied(image: Image, source: seq<byte>)
    ensures Copied([], image, source, 0) && Tidy([], {})
  {
  }

  /** A block between two data ranges holds zeros. */
  lemma HoleBlock(source: seq<byte>, data: seq<Range>, i: nat, b: nat)
    requires Sparse(source, data) && i <= |data| && EndBefore(data, i) <= b && (i < |data| ==> b < data[i].lo / 4096)
    ensures SourceBlock(source, b) == Zeros(4096)
  {
    forall k: nat | 4096 * b <= k < 4096 * b + 4096 && k < |source| ensures source[k] == 0 {
      forall j | 0 <= j < |data| ensures !Covers(data[j], k) {
        if j < i { if j < i - 1 { assert data[j].hi <= data[i - 1].lo; } }
        if j > i { assert data[i].hi <= data[j].lo; }
      }
    }
  }

  lemma HoleCopied(es: seq<Extent>, image: Image, source: seq<byte>, data: seq<Range>, i: nat, last: nat, logical: nat)
    requires Sparse(source, data) && i < |data| && last == EndBefore(data, i) && Copied(es, image, source, last)
    requires logical == if last > data[i].lo / 4096 then last else data[i].lo / 4096
    ensures Copied(es, image, source, logical) && logical <= Blocks(data[i].hi) <= Blocks(|source|)
  {
    hide Sparse, SourceBlock;
    SparseRange(source, data, i);
    forall b: nat | b < logical ensures Shows(es, image, b, SourceBlock(source, b)) {
      if b >= last {
        HoleBlock(source, data, i, b);
        NotMapped(es, last, b);
      }
    }
  }

  lemma NotMapped(es: seq<Extent>, limit: nat, b: nat)
    requires EndBy(es, limit) && limit <= b
    ensures !Mapped(es, b) && forall p: nat :: !MapsTo(es, b, p)
  {
  }

  lemma TailCopied(es: seq<Extent>, image: Image, source: seq<byte>, data: seq<Range>, last: nat)
    requires Sparse(source, data) && last == EndBefore(data, |data|) && Copied(es, image, source, last)
    ensures last <= Blocks(|source|) && Copied(es, image, source, Blocks(|source|))
  {
    hide Sparse, SourceBlock;
    if |data| > 0 { SparseRange(source, data, |data| - 1); }
    forall b: nat | b < Blocks(|source|) ensures Shows(es, image, b, SourceBlock(source, b)) {
      if b >= last {
        HoleBlock(source, data, |data|, b);
        NotMapped(es, last, b);
      }
    }
  }

  lemma CopiedMeans(es: seq<Extent>, image: Image, source: seq<byte>, upto: nat)
    requires Copied(es, image, source, upto)
    ensures EndBy(es, upto) && BlocksInside(es) && forall b: nat :: b < upto ==>
              Shows(es, image, b, SourceBlock(source, b))
  {
  }

  /** A run of blocks has been copied. */
  lemma RunCopied(es: seq<Extent>, was: Image, image: Image, source: seq<byte>, logical: nat, physical: nat,
      blocks: nat, used: set<nat>)
    requires Copied(es, was, source, logical) && Tidy(es, used) && 0 < blocks && physical + blocks <= LIMIT
    requires logical + blocks < LIMIT && used !! FromTo(physical, physical + blocks)
    requires Filled(image, source, logical, physical, blocks)
    requires KeepsOthers(was, image, FromTo(physical, physical + blocks))
    ensures es != [] ==> es[|es| - 1].blocks + blocks < 0x1_0000_0000_0000_0000
    ensures Copied(Extended(es, logical, physical, blocks), image, source, logical + blocks)
  {
    hide SourceBlock, Mapped, Extended, BlockAt, PairwiseApart, CoveredBy;
    CopiedMeans(es, was, source, logical);
    ExtendedInside(es, logical, physical, blocks);
    var es', next := Extended(es, logical, physical, blocks), logical + blocks;
    forall b: nat | b < next ensures Shows(es', image, b, SourceBlock(source, b)) {
      ExtendedMaps(es, logical, physical, blocks, b);
      if b >= logical { NotMapped(es, logical, b); } else {
        assert Shows(es, was, b, SourceBlock(source, b));
        forall p: nat | MapsTo(es, b, p) ensures p in used { MapsCovered(es, b, p); }
      }
    }
    ExtendedMaps(es, logical, physical, blocks, 0);
  }

  lemma MapsCovered(es: seq<Extent>, b: nat, p: nat)
    requires MapsTo(es, b, p)
    ensures CoveredBy(RangesOf(es), p)
  {
    var i :|
      0 <= i < |es| && es[i].logical <= b < es[i].logical + es[i].blocks && p == es[i].physical + b - es[i].logical;
    assert Covers(RangesOf(es)[i], p);
  }

  lemma ExtendedInside(es: seq<Extent>, logical: u64, physical: u64, blocks: u64)
    requires BlocksInside(es) && 0 < blocks && physical + blocks <= LIMIT
    ensures es != [] ==> es[|es| - 1].blocks + blocks < 0x1_0000_0000_0000_0000
    ensures BlocksInside(Extended(es, logical, physical, blocks))
  {
  }

  /** Ranges without a common block are apart. */
  lemma RangesApart(r: Range, s: Range, used: set<nat>)
    requires r.lo < r.hi && s.lo < s.hi && (forall p: nat :: Covers(r, p) ==> p in used) && forall p: nat :: Covers(s, p) ==> p !in used
    ensures Apart(r, s)
  {
    if !Apart(r, s) {
      var p := if r.lo > s.lo then r.lo else s.lo;
      assert Covers(r, p) && Covers(s, p);
    }
  }

  lemma CoveredOne(rs: seq<Range>, i: nat, p: nat)
    requires i < |rs| && Covers(rs[i], p)
    ensures CoveredBy(rs, p)
  {
  }

  /** A new run is apart from the extents there are. */
  lemma RunApart(es: seq<Extent>, run: Range, used: set<nat>)
    requires UsesOnly(es, used) && BlocksInside(es) && run.lo < run.hi && forall p: nat :: Covers(run, p) ==> p !in used
    ensures AllApart(RangesOf(es), run)
  {
    hide CoveredBy;
    var rs := RangesOf(es);
    forall x | x in rs ensures Apart(x, run) {
      var i :| 0 <= i < |rs| && rs[i] == x;
      forall p: nat | Covers(x, p) ensures p in used { CoveredOne(rs, i, p); }
      RangesApart(x, run, used);
    }
  }

  /** Whether a run continues the last extent. */
  predicate Continued(es: seq<Extent>, logical: u64, physical: u64) {
    && es != [] && es[|es| - 1].logical + es[|es| - 1].blocks == logical
    && es[|es| - 1].physical + es[|es| - 1].blocks == physical
  }

  lemma {:induction false} ExtendedRanges(es: seq<Extent>, logical: u64, physical: u64, blocks: u64)
    requires es != [] ==> es[|es| - 1].blocks + blocks < 0x1_0000_0000_0000_0000
    ensures
      var n, rs, run := |es| - 1, RangesOf(es), Range(physical, physical + blocks);
      RangesOf(Extended(es, logical, physical, blocks)) ==
      if Continued(es, logical, physical) then RangesOf(es[..n]) + [Range(rs[n].lo, run.hi)] else rs + [run]
    ensures es != [] ==> RangesOf(es) == RangesOf(es[..|es| - 1]) + [RangesOf(es)[|es| - 1]]
  {
    var es' := Extended(es, logical, physical, blocks);
    if Continued(es, logical, physical) {
      assert es'[..|es'| - 1] == es[..|es| - 1];
    } else {
      assert es'[..|es|] == es;
    }
  }

  lemma NonemptyRanges(es: seq<Extent>)
    requires BlocksInside(es)
    ensures AllNonempty(RangesOf(es)) && (es != [] ==> AllNonempty(RangesOf(es[..|es| - 1])))
  {
    forall x | x in RangesOf(es) ensures x.lo < x.hi { var i :| 0 <= i < |es| && RangesOf(es)[i] == x; }
    if es != [] {
      var s := es[..|es| - 1];
      forall x | x in RangesOf(s) ensures x.lo < x.hi { var i :| 0 <= i < |s| && RangesOf(s)[i] == x; }
    }
  }

  lemma TidyMore(es: seq<Extent>, logical: u64, physical: u64, blocks: u64, used: set<nat>, used': set<nat>)
    requires es != [] ==> es[|es| - 1].blocks + blocks < 0x1_0000_0000_0000_0000
    requires EndBy(es, logical) && BlocksInside(es) && blocks > 0 && physical + blocks <= LIMIT && Tidy(es, used)
    requires used !! FromTo(physical, physical + blocks) && used' == used + FromTo(physical, physical + blocks)
    ensures Tidy(Extended(es, logical, physical, blocks), used')
  {
    hide PairwiseApart, CoveredBy, AllApart, AllNonempty, RangesOf;
    var n, run := |es| - 1, Range(physical, physical + blocks);
    RunApart(es, run, used);
    NonemptyRanges(es);
    ExtendedRanges(es, logical, physical, blocks);
    var rs, rs' := RangesOf(es), RangesOf(Extended(es, logical, physical, blocks));
    if Continued(es, logical, physical) {
      MergedApart(RangesOf(es[..n]), rs[n], run);
    } else {
      ApartAppend(rs, run);
    }
    forall p: nat | CoveredBy(rs', p) ensures p in used' {
      if Continued(es, logical, physical) {
        MergedCovers(RangesOf(es[..n]), rs[n], run, p);
      } else {
        CoveredMore(rs, run, p);
      }
    }
  }

  lemma MergedApart(rs: seq<Range>, r: Range, run: Range)
    requires PairwiseApart(rs + [r]) && AllApart(rs + [r], run) && r.hi == run.lo && r.lo < r.hi && run.lo < run.hi
    requires AllNonempty(rs)
    ensures PairwiseApart(rs + [Range(r.lo, run.hi)])
  {
    hide PairwiseApart;
    ApartAppend(rs, r);
    ApartAppend(rs, Range(r.lo, run.hi));
    forall x | x in rs ensures Apart(x, Range(r.lo, run.hi)) {
      assert x in rs + [r];
    }
  }

  lemma MergedCovers(rs: seq<Range>, r: Range, run: Range, p: nat)
    requires CoveredBy(rs + [Range(r.lo, run.hi)], p) && r.hi == run.lo && r.lo < r.hi && run.lo < run.hi
    ensures CoveredBy(rs + [r], p) || Covers(run, p)
  {
    hide CoveredBy;
    CoveredMore(rs, Range(r.lo, run.hi), p);
    CoveredMore(rs, r, p);
  }

  // ----- Files -----

  /** A file reads as some bytes. */
  ghost predicate FileReads(es: seq<Extent>, image: Image, bytes: seq<byte>) {
    forall b: nat :: b < Blocks(|bytes|) ==> Shows(es, image, b, SourceBlock(bytes, b))
  }

  /** Writes elsewhere, whether they all reach the disk or not, change no file. */
  lemma ReadsKeep(es: seq<Extent>, was: Image, image: Image, mine: set<nat>, written: set<nat>, bytes: seq<byte>)
    requires FileReads(es, was, bytes) && UsesOnly(es, mine) && KeepsOthers(was, image, written) && mine !! written
    ensures FileReads(es, image, bytes)
  {
    hide SourceBlock, MapsTo, Mapped, CoveredBy, BlockAt;
    forall b: nat | b < Blocks(|bytes|) ensures Shows(es, image, b, SourceBlock(bytes, b)) {
      assert Shows(es, was, b, SourceBlock(bytes, b));
      forall p: nat | MapsTo(es, b, p) ensures p in mine { MapsCovered(es, b, p); }
    }
  }
}
