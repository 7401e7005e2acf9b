/** roots() and import_extents() of scripts/extent_store.py on a disk that may crash at any point. */
module ExtentStore {
  import opened Wrappers
  import opened Snapshot
  import opened StoreProtocol
  import opened StoreRuns
  import opened StoreMount
  import opened Store
  import opened ExtentCodec
  import opened ExtentRanges
  import opened ExtentValidate
  import opened ExtentImport
  import opened ExtentEntries
  import opened ExtentPlan

  /** What decode() takes without an error. */
  predicate Acceptable(payload: seq<byte>, start: nat, end: nat) {
    DecodePayload(payload).Some? && ValidList(DecodePayload(payload).value, start, end)
  }

  /** What layout() promises: the slots end before the data region, which is blocks start to end. */
  ghost predicate LayoutOk(v: Volume, start: nat, end: nat) {
    && VolumeOk(v) && v.version == 3 && v.lba1 + v.sectors <= 8 * start && start < end <= LIMIT
    && forall p: seq<byte> :: v.imports(p) <==> Acceptable(p, start, end)
  }

  lemma RegionOutside(v: Volume, start: nat, end: nat, p: nat)
    requires LayoutOk(v, start, end) && start <= p
    ensures OutsideBlock(v, p)
  {
  }

  // ----- roots() -----

  datatype Root = Root(generation: u32, slot: int, entries: seq<Entry>)

  function EntriesOf(payload: seq<byte>): seq<Entry> {
    match DecodePayload(payload)
    case Some(entries) => entries
    case None => []
  }

  function RootAt(v: Volume, image: Image, slot: int): Root {
    var h := HeaderAt(v, image, slot);
    Root(Generation(h), slot, EntriesOf(PayloadAt(v, image, slot, Length(h))))
  }

  function RootIf(v: Volume, image: Image, slot: int): seq<Root> {
    if Restorable(v, image, slot) then [RootAt(v, image, slot)] else []
  }

  /** The good roots, the newest last. */
  function RootList(v: Volume, image: Image): seq<Root> {
    var r0, r1 := RootIf(v, image, 0), RootIf(v, image, 1);
    if r0 != [] && r1 != [] && Newer(r0[0].generation, r1[0].generation) then r1 + r0 else r0 + r1
  }

  /** One turn of the loop in roots(). */
  method ReadRoot(store: VolumeState, slot: int, start: nat, end: nat) returns (r: seq<Root>, blank: bool)
    requires LayoutOk(store.v, start, end) && 0 <= slot <= 1
    ensures r == RootIf(store.v, View(store.disk), slot)
    ensures blank == (HeaderAt(store.v, View(store.disk), slot) == BLANK)
  {
    hide Latest, ValidHeader, Generation, Length, Checksum, Crc32, PayloadAt, ValidList, DecodePayload, VolumeOk;
    var v, image := store.v, View(store.disk);
    var h := HeaderAt(v, image, slot);
    blank := h == BLANK;
    if !ValidHeader(3, h, v.cap) { return [], blank; }
    var payload := PayloadAt(v, image, slot, Length(h));
    if Crc32(payload) != Checksum(h) { return [], blank; }
    var entries := ExtentValidate.Decode(payload, start, end);
    assert v.imports(payload) <==> Acceptable(payload, start, end);
    r := if entries.Some? then [Root(Generation(h), slot, entries.value)] else [];
  }

  /** roots(): none stands for the error that no root is valid although there was one. */
  method ReadRoots(store: VolumeState, start: nat, end: nat) returns (r: Option<seq<Root>>)
    requires LayoutOk(store.v, start, end)
    ensures r.Some? ==> r.value == RootList(store.v, View(store.disk))
    ensures r.None? <==> RootList(store.v, View(store.disk)) == []
                         && !(HeaderAt(store.v, View(store.disk), 0) == BLANK && HeaderAt(store.v, View(store.disk), 1) == BLANK)
  {
    hide LayoutOk, View, RootIf, HeaderAt;
    var r0, blank0 := ReadRoot(store, 0, start, end);
    var r1, blank1 := ReadRoot(store, 1, start, end);
    if r0 + r1 == [] && !(blank0 && blank1) { return None; }
    r := Some(if r0 != [] && r1 != [] && Newer(r0[0].generation, r1[0].generation) then r1 + r0 else r0 + r1);
  }

  /** On a disk that went through any run the newest good root is the one that was committed last, or the one
      whose header was being written; there is one unless both headers are blank. */
  lemma NewestRoot(v: Volume, run: seq<Machine>, i: nat, image: Image)
    requires VolumeOk(v) && FaultyRun(v, run) && i < |run| && CrashImage(run[i].disk, image)
    ensures
      var slot, roots := RestoredSlot(v, image), RootList(v, image);
      if slot == -1 then roots == [] && HeaderAt(v, image, 0) == BLANK && HeaderAt(v, image, 1) == BLANK
      else 0 <= slot <= 1 && roots != [] && roots[|roots| - 1] == RootAt(v, image, slot)
  {
    hide FaultyRun, CrashImage, HeaderAt, Generation, PayloadAt, Length, Inv, CandidateWins, Restorable, RestoredSlot,
      FirstSlot, ValidHeader, RootList, RootAt;
    RunInv(v, run, i);
    RestoredAfterCrash(v, run[i], image);
    if Restorable(v, image, 0) && Restorable(v, image, 1) {
      RestorableIsValid(v, image, 0);
      RestorableIsValid(v, image, 1);
      GenerationsDifferByOne(v, run, i, image);
      BothGood(v, image);
    } else if RestoredSlot(v, image) == -1 {
      BothBlank(v, run[i], image);
      OneGood(v, image);
    } else {
      OneGood(v, image);
    }
  }

  lemma RestorableIsValid(v: Volume, image: Image, slot: int)
    requires Restorable(v, image, slot)
    ensures ValidHeader(v.version, HeaderAt(v, image, slot), v.cap)
  {
    hide ValidHeader, PayloadAt;
  }

  lemma BothGood(v: Volume, image: Image)
    requires Restorable(v, image, 0) && Restorable(v, image, 1)
    requires
      var later := FirstSlot(v, image);
      Generation(HeaderAt(v, image, later)) == NextGeneration(Generation(HeaderAt(v, image, 1 - later)))
    ensures
      var slot, roots := RestoredSlot(v, image), RootList(v, image);
      0 <= slot <= 1 && roots != [] && roots[|roots| - 1] == RootAt(v, image, slot)
  {
    hide Restorable, HeaderAt, Generation, PayloadAt, Length, ValidHeader, EntriesOf;
    NextIsNewer(Generation(HeaderAt(v, image, 0)));
    NextIsNewer(Generation(HeaderAt(v, image, 1)));
  }

  lemma OneGood(v: Volume, image: Image)
    requires !(Restorable(v, image, 0) && Restorable(v, image, 1))
    ensures
      var slot, roots := RestoredSlot(v, image), RootList(v, image);
      if slot == -1 then roots == [] else 0 <= slot <= 1 && roots == [RootAt(v, image, slot)]
  {
    hide Restorable, HeaderAt, Generation, PayloadAt, Length, ValidHeader, RootAt;
  }

  lemma BothBlank(v: Volume, m: Machine, image: Image)
    requires VolumeOk(v) && Inv(v, m) && CrashImage(m.disk, image) && RestoredSlot(v, image) == -1
    ensures HeaderAt(v, image, 0) == BLANK && HeaderAt(v, image, 1) == BLANK
  {
    hide CrashImage, RestoredSlot, Restorable, PayloadSettled, HeaderOf, Possible, Settled;
    RestoredAfterCrash(v, m, image);
    HeadersAfterCrash(v, m, image);
    if m.active == -1 { CrashSettled(m.disk, image, SlotLba(v, 1), BLANK); }
  }

  /** Opening a disk at rest. */
  method Open(store: VolumeState, start: nat, end: nat) returns (roots: seq<Root>)
    requires store.log != [] && store.Valid() && store.disk.unflushed == [] && LayoutOk(store.v, start, end)
    modifies store`activeSlot, store`generation, store`restoreError, store`log
    ensures store.Ready() && store.restoreError == Good && store.log == old(store.log) + [store.Now()]
    ensures !CandidateWins(store.Now()) && roots == RootList(store.v, store.disk.durable)
    ensures NewestPayload(store.Now()) == Recovered(store.v, store.disk.durable)
  {
    hide FaultyRun, Inv, RestoredSlot, Restorable, HeaderAt, Generation, PayloadAt, Length, ValidList, LayoutOk,
      RootList, Rebooted, FaultyStep, Recovered, CandidateWins, NewestPayload, CrashImage, View;
    RegionBounds(store.v, start, end);
    ghost var m, image, log := store.Now(), store.disk.durable, store.log;
    AtRest(m.disk);
    var found := ReadRoots(store, start, end);
    NewestRoot(store.v, log, |log| - 1, image);
    roots := found.value;
    if roots == [] {
      store.activeSlot, store.generation := -1, 0;
    } else {
      store.activeSlot, store.generation := roots[|roots| - 1].slot, roots[|roots| - 1].generation;
    }
    store.restoreError := Good;
    RestartedHere(store.v, log, image);
    store.Record(Rebooted(store.v, m, image, RestoredSlot(store.v, image)));
  }

  lemma AtRest(d: Disk)
    requires d.unflushed == []
    ensures CrashImage(d, d.durable) && View(d) == d.durable && d == Disk(d.durable, [])
  {
    var keep: seq<bool> := [];
    assert Survived(d.durable, d.unflushed, keep) == d.durable;
  }

  lemma RestartedHere(v: Volume, log: seq<Machine>, image: Image)
    requires VolumeOk(v) && log != [] && FaultyRun(v, log) && CrashImage(log[|log| - 1].disk, image)
    ensures
      var m' := Rebooted(v, log[|log| - 1], image, RestoredSlot(v, image));
      && FaultyStep(v, log[|log| - 1], m') && !CandidateWins(m') && NewestPayload(m') == Recovered(v, image)
      && m'.disk == Disk(image, []) && m'.active == RestoredSlot(v, image) && m'.phase == Idle
      && m'.generation == if m'.active == -1 then 0 else Generation(HeaderAt(v, image, m'.active))
  {
    hide FaultyRun, Inv, RestoredSlot, Restorable, HeaderAt, Generation, PayloadAt, Length, CrashImage;
    var m := log[|log| - 1];
    RunInv(v, log, |log| - 1);
    assert Reboot(v, m, Rebooted(v, m, image, RestoredSlot(v, image)));
    RestoredAfterCrash(v, m, image);
    RestoredIs(v, m, image);
  }

  // ----- Requests -----

  /** A file of the host: its name, its bytes and where they are data. */
  datatype Source = Source(name: seq<byte>, bytes: seq<byte>, data: seq<Range>)

  function NewCount(entries: seq<Entry>, sources: seq<Source>): nat {
    if sources == [] then 0
    else
      var n := |sources| - 1;
      NewCount(entries, sources[..n]) + if Find(entries, Key(sources[n].name)).None? then 1 else 0
  }

  /** A name in ASCII, for a new file, or with --replace for an old one. */
  predicate SourceOk(entries: seq<Entry>, s: Source, replace: bool) {
    && (forall c :: c in s.name ==> c < 128) && GoodName(s.name) && |s.bytes| <= MAX_FILE
    && var k := Find(entries, Key(s.name));
       k.Some? ==> replace && k.value < |entries| && entries[k.value].kind == 2
  }

  /** The requests that are not refused. */
  ghost predicate SourcesOk(entries: seq<Entry>, sources: seq<Source>, replace: bool) {
    && (forall i :: 0 <= i < |sources| ==> SourceOk(entries, sources[i], replace))
    && (forall i, j :: 0 <= i < j < |sources| ==> sources[i].name != sources[j].name)
    && |entries| + NewCount(entries, sources) <= MAX_ENTRIES
  }

  /** Every request is looked at before anything is written. */
  method CheckSources(entries: seq<Entry>, sources: seq<Source>, replace: bool) returns (ok: bool)
    ensures ok <==> SourcesOk(entries, sources, replace)
  {
    hide GoodName, Find, Key;
    var count := 0;
    for i := 0 to |sources|
      invariant count == NewCount(entries, sources[..i])
      invariant forall j :: 0 <= j < i ==> SourceOk(entries, sources[j], replace)
      invariant forall j, k :: 0 <= j < k < i ==> sources[j].name != sources[k].name
    {
      assert sources[..i + 1][..i] == sources[..i];
      if !SourceOk(entries, sources[i], replace) { return false; }
      var double := exists j :: 0 <= j < i && sources[j].name == sources[i].name;
      if double { return false; }
      if Find(entries, Key(sources[i].name)).None? { count := count + 1; }
    }
    assert sources[..|sources|] == sources;
    ok := |entries| + count <= MAX_ENTRIES;
  }

  lemma {:induction false} NewCountGrows(entries: seq<Entry>, sources: seq<Source>, i: nat)
    requires i <= |sources|
    ensures NewCount(entries, sources[..i]) <= NewCount(entries, sources)
    decreases |sources|
  {
    if i < |sources| {
      var n := |sources| - 1;
      NewCountGrows(entries, sources[..n], i);
      assert sources[..n][..i] == sources[..i];
    } else {
      assert sources[..i] == sources;
    }
  }

  // ----- Copying -----

  function ItemOf(s: Source, extents: seq<Extent>): Entry
    requires |s.bytes| <= MAX_FILE
  {
    Entry(2, Key(s.name), |s.bytes|, extents)
  }

  /** An item is a file that reads as its source. */
  ghost predicate ItemReads(item: Entry, s: Source, image: Image) {
    && |s.bytes| <= MAX_FILE && item == ItemOf(s, item.extents) && FileReads(item.extents, image, s.bytes)
  }

  ghost predicate ItemsRead(items: seq<Entry>, sources: seq<Source>, image: Image) {
    |items| == |sources| && forall j :: 0 <= j < |items| ==> ItemReads(items[j], sources[j], image)
  }

  /** Files outside the blocks written read as before. */
  lemma ItemsKeep(items: seq<Entry>, sources: seq<Source>, was: Image, image: Image, mine: set<nat>, written: set<nat>)
    requires ItemsRead(items, sources, was) && EntriesUse(items, mine) && KeepsOthers(was, image, written)
    requires mine !! written
    ensures ItemsRead(items, sources, image)
  {
    hide FileReads, KeepsOthers, UsesOnly, Key;
    forall j | 0 <= j < |items| ensures ItemReads(items[j], sources[j], image) {
      assert ItemReads(items[j], sources[j], was);
      ReadsKeep(items[j].extents, was, image, mine, written, sources[j].bytes);
    }
  }

  /** What has been copied so far: items, and the entry list with them. */
  ghost predicate Copying(
      was: seq<Entry>, items: seq<Entry>, entries: seq<Entry>, sources: seq<Source>, image: Image,
      start: nat, end: nat, roots: set<nat>, taken: set<nat>)
  {
    && ItemsRead(items, sources, image) && EntriesUse(items, taken)
    && entries == Renewed(was, items) && ValidList(entries, start, end) && EntriesUse(entries, roots + taken)
    && |entries| == |was| + NewCount(was, sources)
  }

  /** One more file has been copied. */
  lemma {:induction false} CopiedOne(
      was: seq<Entry>, items: seq<Entry>, entries: seq<Entry>, sources: seq<Source>, s: Source, extents: seq<Extent>,
      replace: bool,
      before: Image, image: Image, start: nat, end: nat, roots: set<nat>, taken: set<nat>, mine: set<nat>)
    requires Copying(was, items, entries, sources, before, start, end, roots, taken) && UniquePaths(was)
    requires SourceOk(was, s, replace) && HostName(s.name) && forall j :: 0 <= j < |sources| ==>
               sources[j].name != s.name
    requires forall i, j :: 0 <= i < j < |sources| ==> sources[i].name != sources[j].name
    requires |was| + NewCount(was, sources + [s]) <= MAX_ENTRIES
    requires Tidy(extents, mine) && BlocksInside(extents) && EndBy(extents, Blocks(|s.bytes|))
    requires FileReads(extents, image, s.bytes)
    requires KeepsOthers(before, image, mine) && mine !! roots + taken && forall p :: p in mine ==> start <= p < end
    ensures
      Copying(was, items + [ItemOf(s, extents)], Put(was, entries, ItemOf(s, extents)), sources + [s], image, start, end, roots, taken + mine)
  {
    hide Find, Renewed, ValidList, KeepsOthers, UsesOnly, Tidy, FileReads, GoodPath, Parent, Key, Put, NewCount,
      UniquePaths, ItemsRead, EntriesUse, BlocksInside, EndBy, GoodName;
    var item := ItemOf(s, extents);
    assert item.path == Key(s.name) && entries == Renewed(was, items);
    NewPath(was, items, sources, s, before);
    ItemGood(s, extents, start, end, mine);
    CountOne(was, sources, s);
    PutLength(was, entries, item);
    PutValid(was, entries, item, start, end, roots + taken, mine);
    assert roots + taken + mine == roots + (taken + mine);
    ItemsMore(items, sources, s, extents, before, image, taken, mine);
    RenewedMore(was, items, item);
    EntriesUseMore(items, item, taken, mine);
  }

  lemma CountOne(was: seq<Entry>, sources: seq<Source>, s: Source)
    ensures NewCount(was, sources + [s]) == NewCount(was, sources) + if Find(was, Key(s.name)).None? then 1 else 0
  {
    hide Find, Key;
    assert (sources + [s])[..|sources|] == sources;
  }

  lemma ItemGood(s: Source, extents: seq<Extent>, start: nat, end: nat, mine: set<nat>)
    requires GoodName(s.name) && HostName(s.name) && |s.bytes| <= MAX_FILE
    requires Tidy(extents, mine) && BlocksInside(extents) && EndBy(extents, Blocks(|s.bytes|)) && forall p :: p in mine ==> start <= p < end
    ensures
      var item := ItemOf(s, extents);
      GoodEntry(item, start, end) && item.kind == 2 && Parent(item.path) == HOME && item.path != HOME
  {
    hide Parent, Tidy, BlocksInside, EndBy, GoodPath, Key;
    KeyIsGood(s.name);
    TidyIsGood(extents, |s.bytes|, start, end, mine);
  }

  lemma ItemsMore(
      items: seq<Entry>, sources: seq<Source>, s: Source, extents: seq<Extent>, was: Image, image: Image,
      taken: set<nat>, mine: set<nat>)
    requires ItemsRead(items, sources, was) && EntriesUse(items, taken) && KeepsOthers(was, image, mine)
    requires taken !! mine
    requires |s.bytes| <= MAX_FILE && FileReads(extents, image, s.bytes)
    ensures ItemsRead(items + [ItemOf(s, extents)], sources + [s], image)
  {
    hide FileReads, KeepsOthers, EntriesUse, Key;
    ItemsKeep(items, sources, was, image, taken, mine);
  }

  lemma PutLength(was: seq<Entry>, entries: seq<Entry>, item: Entry)
    requires |was| <= |entries|
    ensures |Put(was, entries, item)| == |entries| + if Find(was, item.path).None? then 1 else 0
  {
  }

  lemma EntriesUseMore(items: seq<Entry>, item: Entry, taken: set<nat>, mine: set<nat>)
    requires EntriesUse(items, taken) && Tidy(item.extents, mine)
    ensures EntriesUse(items + [item], taken + mine)
  {
    hide UsesOnly;
    var all := items + [item];
    forall i | 0 <= i < |all| ensures UsesOnly(all[i].extents, taken + mine) {
      if i < |items| {
        UsesMore(items[i].extents, taken, taken + mine);
      } else {
        UsesMore(item.extents, mine, taken + mine);
      }
    }
  }

  /** The path of the next item is in the list only where it was before, as a file. */
  lemma NewPath(was: seq<Entry>, items: seq<Entry>, sources: seq<Source>, s: Source, image: Image)
    requires ItemsRead(items, sources, image) && UniquePaths(was)
    requires forall j :: 0 <= j < |sources| ==> sources[j].name != s.name
    requires forall i, j :: 0 <= i < j < |sources| ==> sources[i].name != sources[j].name
    ensures
      var k, entries := Find(was, Key(s.name)), Renewed(was, items);
      if k.Some? then k.value < |was| && entries[k.value] == was[k.value] && was[k.value].path == Key(s.name)
      else forall i :: 0 <= i < |entries| ==> entries[i].path != Key(s.name)
  {
    hide Find, Key, FileReads, Renewed;
    KeysDiffer(items, sources, s, image);
    RenewedPlaces(was, items);
    var k, entries := Find(was, Key(s.name)), Renewed(was, items);
    if k.Some? {
      assert was[k.value].path == Key(s.name);
    } else {
      forall i | 0 <= i < |entries| ensures entries[i].path != Key(s.name) {
        if i < |was| {
          assert entries[i].path == was[i].path;
        } else {
          assert Find(was, entries[i].path).None?;
          assert entries[i] in items;
        }
      }
    }
  }

  /** Different names are different paths. */
  lemma KeysDiffer(items: seq<Entry>, sources: seq<Source>, s: Source, image: Image)
    requires ItemsRead(items, sources, image) && forall j :: 0 <= j < |sources| ==> sources[j].name != s.name
    requires forall i, j :: 0 <= i < j < |sources| ==> sources[i].name != sources[j].name
    ensures UniquePaths(items) && Find(items, Key(s.name)).None?
    ensures forall e :: e in items ==> e.path != Key(s.name)
  {
    hide FileReads, Find;
    forall j | 0 <= j < |items| ensures items[j].path == Key(sources[j].name) && Key(sources[j].name) != Key(s.name) {
      assert ItemReads(items[j], sources[j], image);
      if Key(sources[j].name) == Key(s.name) { KeyInjective(sources[j].name, s.name); }
    }
    forall i, j | 0 <= i < j < |items| ensures items[i].path != items[j].path {
      if Key(sources[i].name) == Key(sources[j].name) { KeyInjective(sources[i].name, sources[j].name); }
    }
  }

  lemma KeyInjective(a: seq<byte>, b: seq<byte>)
    requires Key(a) == Key(b)
    ensures a == b
  {
    assert Key(a)[6..] == a && Key(b)[6..] == b;
  }


  // ----- The blocks of the roots -----

  /** The ranges of both roots. */
  function RootRanges(roots: seq<Root>): seq<Range> {
    if roots == [] then [] else RootRanges(roots[..|roots| - 1]) + AllRanges(roots[|roots| - 1].entries)
  }

  lemma {:induction false} CoveredAppend(a: seq<Range>, b: seq<Range>, p: nat)
    ensures CoveredBy(a + b, p) <==> CoveredBy(a, p) || CoveredBy(b, p)
    decreases |b|
  {
    if b == [] {
      assert a + b == a;
    } else {
      var n := |b| - 1;
      assert a + b == a + b[..n] + [b[n]] && b == b[..n] + [b[n]];
      CoveredAppend(a, b[..n], p);
      CoveredMore(a + b[..n], b[n], p);
      CoveredMore(b[..n], b[n], p);
    }
  }

  /** The extents of each file of a root are among the used ranges. */
  lemma {:induction false} EntryCovered(entries: seq<Entry>, i: nat, p: nat)
    requires i < |entries| && CoveredBy(RangesOf(entries[i].extents), p)
    ensures CoveredBy(AllRanges(entries), p)
    decreases |entries|
  {
    hide CoveredBy, RangesOf;
    var n := |entries| - 1;
    if i < n { EntryCovered(entries[..n], i, p); }
    CoveredAppend(AllRanges(entries[..n]), RangesOf(entries[n].extents), p);
  }

  lemma {:induction false} RootCovered(roots: seq<Root>, k: nat, i: nat, p: nat)
    requires k < |roots| && i < |roots[k].entries| && CoveredBy(RangesOf(roots[k].entries[i].extents), p)
    ensures CoveredBy(RootRanges(roots), p)
    decreases |roots|
  {
    hide CoveredBy, RangesOf, AllRanges;
    var n := |roots| - 1;
    if k < n { RootCovered(roots[..n], k, i, p); } else { EntryCovered(roots[n].entries, i, p); }
    CoveredAppend(RootRanges(roots[..n]), AllRanges(roots[n].entries), p);
  }

  /** The blocks of some ranges. */
  function CoverSet(rs: seq<Range>): set<nat> {
    if rs == [] then {} else CoverSet(rs[..|rs| - 1]) + FromTo(rs[|rs| - 1].lo, rs[|rs| - 1].hi)
  }

  lemma {:induction false} CoverSetIs(rs: seq<Range>)
    ensures forall p: nat :: p in CoverSet(rs) <==> CoveredBy(rs, p)
  {
    hide CoveredBy;
    if rs == [] {
      NothingFree();
    } else {
      var n := |rs| - 1;
      assert rs == rs[..n] + [rs[n]];
      CoverSetIs(rs[..n]);
      forall p: nat ensures p in CoverSet(rs) <==> CoveredBy(rs, p) { CoveredMore(rs[..n], rs[n], p); }
    }
  }

  /** Every file of every root lies in the blocks of the roots. */
  lemma RootsUse(roots: seq<Root>, k: nat)
    requires k < |roots|
    ensures EntriesUse(roots[k].entries, CoverSet(RootRanges(roots)))
  {
    hide CoveredBy, RangesOf, CoverSet, RootRanges;
    CoverSetIs(RootRanges(roots));
    forall i, p: nat | 0 <= i < |roots[k].entries| && CoveredBy(RangesOf(roots[k].entries[i].extents), p)
      ensures p in CoverSet(RootRanges(roots))
    {
      RootCovered(roots, k, i, p);
    }
  }

  /** The roots are valid lists, so that their extents lie in the data region. */
  lemma RootsValid(v: Volume, image: Image, start: nat, end: nat, k: nat)
    requires LayoutOk(v, start, end) && k < |RootList(v, image)|
    ensures ValidList(RootList(v, image)[k].entries, start, end)
  {
    hide ValidList, DecodePayload, PayloadAt, HeaderAt, Length, Generation, ValidHeader, VolumeOk;
    forall slot | Restorable(v, image, slot) ensures ValidList(RootAt(v, image, slot).entries, start, end) {
      var payload := PayloadAt(v, image, slot, Length(HeaderAt(v, image, slot)));
      assert v.imports(payload) <==> Acceptable(payload, start, end);
    }
  }

  lemma {:induction false} RangesInside(roots: seq<Root>, start: nat, end: nat)
    requires forall k :: 0 <= k < |roots| ==> ValidList(roots[k].entries, start, end)
    ensures forall x :: x in RootRanges(roots) ==> start <= x.lo <= x.hi <= end
  {
    hide ValidList;
    if roots != [] {
      var n := |roots| - 1;
      RangesInside(roots[..n], start, end);
      EntryRangesInside(roots[n].entries, start, end);
    }
  }

  lemma EntryRangesInside(entries: seq<Entry>, start: nat, end: nat)
    requires ValidList(entries, start, end)
    ensures forall x :: x in AllRanges(entries) ==> start <= x.lo <= x.hi <= end
  {
    hide GoodPath, GoodPlace, PairwiseApart, AllRanges;
    RangesOfEntries(entries);
    forall x | x in AllRanges(entries) ensures start <= x.lo <= x.hi <= end {
      var i :| 0 <= i < |entries| && x in RangesOf(entries[i].extents);
      var j :| 0 <= j < |RangesOf(entries[i].extents)| && RangesOf(entries[i].extents)[j] == x;
      assert GoodEntry(entries[i], start, end);
    }
  }

  // ----- Importing -----

  /** The errors of import_extents(): a request refused, no free block, or another failure. */
  datatype ImportOutcome = Imported | Refused | Full | Failed

  /** write_source() for one source, and the entry list with it. */
  method CopyOne(reliable: bool, region: Region, was: seq<Entry>, ghost items: seq<Entry>, entries: seq<Entry>,
      sources: seq<Source>, i: nat,
      start: nat, end: nat, ghost roots: set<nat>, ghost replace: bool)
    returns (r: ImportOutcome, ghost items': seq<Entry>, entries': seq<Entry>)
    requires region.Valid() && SourcesOk(was, sources, replace) && i < |sources| && UniquePaths(was)
    requires HostName(sources[i].name) && Sparse(sources[i].bytes, sources[i].data)
    requires forall p: nat :: CoveredBy(region.available, p) ==> start <= p < end && p !in roots
    requires Copying(was, items, entries, sources[..i], View(region.store.disk), start, end, roots, region.taken)
    modifies region`free, region`taken, region.store`disk, region.store`log
    ensures region.Valid() && old(region.taken) <= region.taken
    ensures DataRun(old(region.store.log), region.store.log, region.taken - old(region.taken))
    ensures r == Imported ==>
              Copying(was, items', entries', sources[..i + 1], View(region.store.disk), start, end, roots, region.taken)
    ensures r == Full ==> forall p: nat :: !CoveredBy(region.free, p)
    ensures r == Full ==> PlanSource(old(region.free), sources[i].data) == None
    ensures r == Imported ==>
              |sources[i].bytes| <= MAX_FILE && exists extents ::
                items' == items + [ItemOf(sources[i], extents)]
                && PlanSource(old(region.free), sources[i].data) == Some(Planned(region.free, extents))
    ensures r != Refused && (reliable ==> r != Failed)
  {
    hide Copying, ValidList, EntriesUse, CoveredBy, Region.Valid, Sparse, DataRun, View, SourceOk, PlanSource, Tidy,
      BlocksInside, EndBy, FileReads, HostName, UniquePaths, NewCount, KeepsOthers, Put, Needed, SourcesOk,
      NeededAll, DataPoint, FaultyRun, Inv;
    items', entries' := items, entries;
    ghost var log1, disk1, taken1 := region.store.log, region.store.disk, region.taken;
    region.ValidMeans();
    SourceMeans(was, sources, replace, i);
    var outcome, extents := region.WriteSource(reliable, sources[i].bytes, sources[i].data);
    region.ValidMeans();
    ghost var mine := region.taken - taken1;
    if outcome != Good { return if outcome == NoSpace then Full else Failed, items', entries'; }
    RunBlocks(log1, region.store.log, mine);
    assert sources[..i + 1] == sources[..i] + [sources[i]];
    CopyingLength(was, items, entries, sources[..i], View(disk1), start, end, roots, taken1);
    CopiedOne(was, items, entries, sources[..i], sources[i], extents, replace, View(disk1), View(region.store.disk), start, end, roots,
              taken1, mine);
    assert taken1 + mine == region.taken;
    items', entries' := items + [ItemOf(sources[i], extents)], Put(was, entries, ItemOf(sources[i], extents));
    r := Imported;
  }

  /** write_source() for all sources, and the entry list with them. */
  method CopySources(reliable: bool, region: Region, was: seq<Entry>, sources: seq<Source>, start: nat, end: nat,
      ghost roots: set<nat>,
      ghost replace: bool)
    returns (r: ImportOutcome, ghost items: seq<Entry>, entries: seq<Entry>)
    requires region.Valid() && region.taken == {} && ValidList(was, start, end) && EntriesUse(was, roots)
    requires SourcesOk(was, sources, replace)
    requires forall i :: 0 <= i < |sources| ==> HostName(sources[i].name) && Sparse(sources[i].bytes, sources[i].data)
    requires forall p: nat :: CoveredBy(region.available, p) ==> start <= p < end && p !in roots
    modifies region`free, region`taken, region.store`disk, region.store`log
    ensures region.Valid() && DataRun(old(region.store.log), region.store.log, region.taken)
    ensures r == Imported ==>
              Copying(was, items, entries, sources, View(region.store.disk), start, end, roots, region.taken)
    ensures r == Full ==> forall p: nat :: !CoveredBy(region.free, p)
    ensures reliable ==> (r == Imported <==> NeededAll(sources) <= Room(old(region.free)))
    ensures r == Full ==> PlanItems(old(region.free), sources) == None
    ensures r == Imported ==> PlanItems(old(region.free), sources) == Some(Plan(region.free, items))
    ensures r != Refused && (reliable ==> r != Failed)
  {
    hide Copying, ValidList, EntriesUse, CoveredBy, Region.Valid, Sparse, DataRun, View, HostName, UniquePaths,
      SourcesOk, NeededAll, FaultyRun, Inv, PlanSource, PlanItems, Room, Ordered;
    ghost var free0 := region.free;
    region.FreeOrdered();
    SizesOk(was, sources, replace);
    PlanFits(free0, sources);
    PlanNothing(free0);
    ghost var log0 := region.store.log;
    region.ValidMeans();
    DataNothing(log0, {});
    items, entries := [], was;
    CopiedNone(was, View(region.store.disk), start, end, roots);
    for i := 0 to |sources|
      invariant region.Valid() && DataRun(log0, region.store.log, region.taken)
      invariant Copying(was, items, entries, sources[..i], View(region.store.disk), start, end, roots, region.taken)
      invariant PlanItems(free0, sources[..i]) == Some(Plan(region.free, items))
    {
      ghost var log1, taken1 := region.store.log, region.taken;
      PlanOne(free0, sources, i);
      r, items, entries := CopyOne(reliable, region, was, items, entries, sources, i, start, end, roots, replace);
      DataOn(log0, log1, region.store.log, taken1, region.taken - taken1);
      assert taken1 + (region.taken - taken1) == region.taken;
      if r != Imported {
        if r == Full { PlanNever(free0, sources, i + 1); }
        return;
      }
    }
    assert sources[..|sources|] == sources;
    r := Imported;
  }

  // ----- Which blocks -----

  datatype Plan = Plan(free: seq<Range>, items: seq<Entry>)

  /** The items of all sources, first fit; none if there are too few blocks. */
  function PlanItems(free: seq<Range>, sources: seq<Source>): Option<Plan> {
    if sources == [] then Some(Plan(free, []))
    else
      var n := |sources| - 1;
      match PlanItems(free, sources[..n])
      case None => None
      case Some(p) =>
        match PlanSource(p.free, sources[n].data)
        case None => None
        case Some(q) =>
          if |sources[n].bytes| > MAX_FILE then None else Some(Plan(q.free, p.items + [ItemOf(sources[n], q.extents)]))
  }

  lemma PlanNothing(free: seq<Range>)
    ensures PlanItems(free, []) == Some(Plan(free, []))
  {
  }

  lemma PlanOne(free: seq<Range>, sources: seq<Source>, i: nat)
    requires i < |sources| && PlanItems(free, sources[..i]).Some?
    ensures
      var p := PlanItems(free, sources[..i]).value;
      var q := PlanSource(p.free, sources[i].data);
      && (q == None ==> PlanItems(free, sources[..i + 1]) == None)
      && (q.Some? && |sources[i].bytes| <= MAX_FILE ==>
            PlanItems(free, sources[..i + 1]) == Some(Plan(q.value.free, p.items + [ItemOf(sources[i], q.value.extents)])))
  {
    hide PlanSource;
    assert sources[..i + 1][..i] == sources[..i];
  }

  lemma {:induction false} PlanNever(free: seq<Range>, sources: seq<Source>, i: nat)
    requires i <= |sources| && PlanItems(free, sources[..i]) == None
    ensures PlanItems(free, sources) == None
    decreases |sources|
  {
    if i < |sources| {
      var n := |sources| - 1;
      assert sources[..n][..i] == sources[..i];
      PlanNever(free, sources[..n], i);
    } else {
      assert sources[..i] == sources;
    }
  }

  /** The sources fit exactly when there are as many blocks as their data touches. */
  lemma {:induction false} PlanFits(free: seq<Range>, sources: seq<Source>)
    requires Ordered(free)
    requires forall i :: 0 <= i < |sources| ==>
               |sources[i].bytes| <= MAX_FILE && Sparse(sources[i].bytes, sources[i].data)
    ensures PlanItems(free, sources).Some? <==> NeededAll(sources) <= Room(free)
    ensures
      PlanItems(free, sources).Some? ==>
        var p := PlanItems(free, sources).value;
        Ordered(p.free) && Room(p.free) + NeededAll(sources) == Room(free)
  {
    hide Ordered, Room, PlanTo, NeededBy, Sparse;
    if sources != [] {
      var n := |sources| - 1;
      PlanFits(free, sources[..n]);
      var p := PlanItems(free, sources[..n]);
      if p.Some? { SourceRoom(p.value.free, sources[n].bytes, sources[n].data, |sources[n].data|); }
    }
  }

  lemma SourceMeans(was: seq<Entry>, sources: seq<Source>, replace: bool, i: nat)
    requires SourcesOk(was, sources, replace) && i < |sources|
    ensures SourceOk(was, sources[i], replace) && |sources[i].bytes| <= MAX_FILE
    ensures forall j :: 0 <= j < |sources[..i]| ==> sources[..i][j].name != sources[i].name
    ensures forall j, k :: 0 <= j < k < |sources[..i]| ==> sources[..i][j].name != sources[..i][k].name
    ensures |was| + NewCount(was, sources[..i] + [sources[i]]) <= MAX_ENTRIES
  {
    hide NewCount, SourceOk;
    NewCountGrows(was, sources, i + 1);
    assert sources[..i + 1] == sources[..i] + [sources[i]];
    SourceSize(was, sources[i], replace);
  }

  function NeededAll(sources: seq<Source>): nat {
    if sources == [] then 0 else NeededAll(sources[..|sources| - 1]) + Needed(sources[|sources| - 1].data)
  }

  lemma SizesOk(was: seq<Entry>, sources: seq<Source>, replace: bool)
    requires SourcesOk(was, sources, replace)
    ensures forall i :: 0 <= i < |sources| ==> |sources[i].bytes| <= MAX_FILE
  {
    hide NewCount, SourceOk;
    forall i | 0 <= i < |sources| ensures |sources[i].bytes| <= MAX_FILE { SourceSize(was, sources[i], replace); }
  }

  lemma SourceSize(was: seq<Entry>, s: Source, replace: bool)
    requires SourceOk(was, s, replace)
    ensures |s.bytes| <= MAX_FILE
  {
  }

  lemma CopyingLength(
      was: seq<Entry>, items: seq<Entry>, entries: seq<Entry>, sources: seq<Source>, image: Image,
      start: nat, end: nat, roots: set<nat>, taken: set<nat>)
    requires Copying(was, items, entries, sources, image, start, end, roots, taken)
    ensures |was| <= |entries|
  {
  }

  lemma CopiedNone(was: seq<Entry>, image: Image, start: nat, end: nat, roots: set<nat>)
    requires ValidList(was, start, end) && EntriesUse(was, roots)
    ensures Copying(was, [], was, [], image, start, end, roots, {}) && UniquePaths(was)
  {
    hide UsesOnly, GoodEntry, PairwiseApart, Parent;
    assert roots + {} == roots;
    forall i, j | 0 <= i < j < |was| ensures was[i].path != was[j].path { assert GoodPlace(was, j); }
  }

  /** commit() */
  method Commit(reliable: bool, store: VolumeState, entries: seq<Entry>, start: nat, end: nat) returns (ok: bool)
    requires store.Ready() && store.restoreError == Good && LayoutOk(store.v, start, end)
    requires ValidList(entries, start, end)
    modifies store`disk, store`log, store`activeSlot, store`generation
    ensures store.Ready() && old(store.log) <= store.log
    ensures AllPackable(entries) ==> Committing(store.v, old(store.log), store.log, Encode(entries))
    ensures !AllPackable(entries) ==> !ok && store.log == old(store.log)
    ensures ok ==> AllPackable(entries) && |Encode(entries)| <= store.v.cap
    ensures reliable ==> (ok <==> AllPackable(entries) && |Encode(entries)| <= store.v.cap)
    ensures ok ==> NewestPayload(store.Now()) == Some(Encode(entries)) && !CandidateWins(store.Now())
                   && DataDurable(store.v, old(store.disk), store.disk)
  {
    hide ValidList, FaultyRun, Inv, Committing, Encode, VolumeState.Valid, Joined, DecodePayload;
    FewEntries(entries, start, end);
    var valid := Validate(entries, start, end);
    assert valid;
    if !AllPackable(entries) { return false; }
    var payload := EncodeAll(entries);
    PayloadFits(store.v, entries, start, end);
    ContinuesSame(store.v, store.log);
    ContinuesCommitting(store.v, store.log, store.log, payload);
    if |payload| > store.v.cap { return false; }
    JoinedOne(payload);
    store.NowIs();
    var r := store.SyncOne(reliable, [payload], Good);
    CommittingMeans(store.v, old(store.log), store.log, payload);
    ok := r == Good;
  }

  lemma CommittingMeans(v: Volume, log: seq<Machine>, log': seq<Machine>, payload: seq<byte>)
    requires Committing(v, log, log', payload)
    ensures log <= log'
  {
  }

  lemma FewEntries(entries: seq<Entry>, start: nat, end: nat)
    requires ValidList(entries, start, end)
    ensures |entries| <= MAX_ENTRIES
  {
  }

  lemma PayloadFits(v: Volume, entries: seq<Entry>, start: nat, end: nat)
    requires LayoutOk(v, start, end) && ValidList(entries, start, end) && AllPackable(entries)
    ensures v.imports(Encode(entries)) && |Encode(entries)| >= 4
  {
    hide ValidList, VolumeOk;
    FewEntries(entries, start, end);
    DecodeEncode(entries);
    assert v.imports(Encode(entries)) <==> Acceptable(Encode(entries), start, end);
  }

  // ----- Crashes -----

  /** Files that no sector written touches are as before. */
  ghost predicate RegionKept(start: nat, d: Disk, d': Disk, taken: set<nat>) {
    forall lba: nat, x :: BlockOf(lba) >= start && BlockOf(lba) !in taken && Possible(d', lba, x) ==>
      Possible(d, lba, x)
  }

  lemma RegionCrash(start: nat, was: Image, d: Disk, image: Image, taken: set<nat>)
    requires RegionKept(start, Disk(was, []), d, taken) && CrashImage(d, image)
    ensures KeepsOthers(was, image, taken + FromTo(0, start))
  {
    hide CrashImage, BlockAt, Possible;
    forall p: nat | p !in taken + FromTo(0, start) ensures BlockAt(image, p) == BlockAt(was, p) {
      forall lba: nat | BlockOf(lba) == p ensures At(image, lba) == At(was, lba) {
        CrashIsPossible(d, image, lba);
        OnlyDurable(was, lba, At(image, lba));
      }
      BlockSame(image, was, p);
    }
  }

  lemma OnlyDurable(was: Image, lba: nat, x: Sector)
    requires Possible(Disk(was, []), lba, x)
    ensures x == At(was, lba)
  {
  }

  /** What was durable before the commit is what every crash shows. */
  lemma DurableCrash(v: Volume, start: nat, end: nat, d1: Disk, d: Disk, image: Image)
    requires LayoutOk(v, start, end) && DataDurable(v, d1, d) && CrashImage(d, image)
    ensures KeepsOthers(View(d1), image, FromTo(0, start))
  {
    hide CrashImage, BlockAt, Settled, LayoutOk, Outside, At, Latest;
    forall p: nat | p !in FromTo(0, start) ensures BlockAt(image, p) == BlockAt(View(d1), p) {
      RegionOutside(v, start, end, p);
      forall lba: nat | BlockOf(lba) == p ensures At(image, lba) == At(View(d1), lba) {
        CrashSettled(d, image, lba, Store.Reads(d1, lba));
      }
      BlockSame(image, View(d1), p);
    }
  }

  function OldEntries(v: Volume, was: Image): seq<Entry> {
    match Recovered(v, was)
    case Some(payload) => EntriesOf(payload)
    case None => []
  }

  /** Every file of every root that there was reads as before. */
  ghost predicate RootsKept(v: Volume, was: Image, image: Image) {
    forall root, e, bytes :: root in RootList(v, was) && e in root.entries && FileReads(e.extents, was, bytes) ==>
      FileReads(e.extents, image, bytes)
  }

  /** The newest root is the old one with the sources in it, each of which can be read back. */
  ghost predicate NewRoot(v: Volume, was: Image, image: Image, sources: seq<Source>) {
    Recovered(v, image).Some?
    && exists items :: ItemsRead(items, sources, image)
                       && DecodePayload(Recovered(v, image).value) == Some(Renewed(OldEntries(v, was), items))
  }

  /** What a crash leaves: both roots whole, and as the newest the old one or the new one. */
  ghost predicate ImportSafe(v: Volume, was: Image, image: Image, sources: seq<Source>) {
    RootsKept(v, was, image) && (Recovered(v, image) == Recovered(v, was) || NewRoot(v, was, image, sources))
  }

  lemma RootsKeep(v: Volume, was: Image, image: Image, start: nat, taken: set<nat>)
    requires KeepsOthers(was, image, taken + FromTo(0, start))
    requires taken + FromTo(0, start) !! CoverSet(RootRanges(RootList(v, was)))
    ensures RootsKept(v, was, image)
  {
    hide KeepsOthers, RootRanges, CoverSet, FileReads, RootList, UsesOnly;
    var roots := RootList(v, was);
    forall root, e, bytes | root in roots && e in root.entries && FileReads(e.extents, was, bytes)
      ensures FileReads(e.extents, image, bytes)
    {
      var k :| 0 <= k < |roots| && roots[k] == root;
      RootsUse(roots, k);
      var i :| 0 <= i < |root.entries| && root.entries[i] == e;
      ReadsKeep(e.extents, was, image, CoverSet(RootRanges(roots)), taken + FromTo(0, start), bytes);
    }
  }

  /** A crash while the sources are copied. */
  lemma DataSafe(
      v: Volume, start: nat, run: seq<Machine>, m: Machine, k: nat, was: Image, image: Image, taken: set<nat>,
      sources: seq<Source>)
    requires VolumeOk(v) && FaultyRun(v, run) && k < |run| && CrashImage(run[k].disk, image)
    requires m.disk == Disk(was, []) && !CandidateWins(m) && NewestPayload(m) == Recovered(v, was)
    requires DataPoint(m, run[k], taken) && taken + FromTo(0, start) !! CoverSet(RootRanges(RootList(v, was)))
    ensures ImportSafe(v, was, image, sources)
  {
    hide FaultyRun, CrashImage, Recovered, RootsKept, NewRoot, RootRanges, CoverSet, RootList, Possible, At, Latest;
    FoundAt(v, run, k, image);
    RegionCrash(start, was, run[k].disk, image, taken);
    RootsKeep(v, was, image, start, taken);
  }

  /** A crash while the new root is written. */
  lemma CommitSafe(
      v: Volume, start: nat, end: nat, run: seq<Machine>, m: Machine, m1: Machine, k: nat, was: Image, image: Image,
      taken: set<nat>,
      items: seq<Entry>, entries: seq<Entry>, sources: seq<Source>)
    requires LayoutOk(v, start, end) && FaultyRun(v, run) && k < |run| && CrashImage(run[k].disk, image)
    requires m.disk == Disk(was, []) && !CandidateWins(m) && NewestPayload(m) == Recovered(v, was)
    requires DataPoint(m, m1, taken) && taken + FromTo(0, start) !! CoverSet(RootRanges(RootList(v, was)))
    requires forall p :: p in taken ==> start <= p
    requires Copying(OldEntries(v, was), items, entries, sources, View(m1.disk), start, end, CoverSet(RootRanges(RootList(v, was))), taken)
    requires |entries| <= MAX_ENTRIES && AllPackable(entries) && CommitPoint(v, m1, run[k], Encode(entries))
    ensures ImportSafe(v, was, image, sources)
  {
    hide FaultyRun, CrashImage, Recovered, RootsKept, RootRanges, CoverSet, RootList, Possible, At, Latest, Encode,
      DecodePayload, ItemsRead, Settled, EntriesUse, ValidList, Renewed, LayoutOk, DataDurable, KeepsOthers,
      OldEntries;
    VolumeIsOk(v, start, end);
    FoundAt(v, run, k, image);
    CommitKeepsRegion(v, start, end, m, m1, run[k], taken);
    RegionCrash(start, was, run[k].disk, image, taken);
    RootsKeep(v, was, image, start, taken);
    if Recovered(v, image) != Recovered(v, was) {
      DecodeEncode(entries);
      assert DataDurable(v, m1.disk, run[k].disk) && Recovered(v, image) == Some(Encode(entries));
      DurableCrash(v, start, end, m1.disk, run[k].disk, image);
      ItemsKeep(items, sources, View(m1.disk), image, taken, FromTo(0, start));
    }
  }

  lemma VolumeIsOk(v: Volume, start: nat, end: nat)
    requires LayoutOk(v, start, end)
    ensures VolumeOk(v)
  {
  }

  lemma CommitKeepsRegion(v: Volume, start: nat, end: nat, m: Machine, m1: Machine, m2: Machine, taken: set<nat>)
    requires LayoutOk(v, start, end) && DataPoint(m, m1, taken) && DataKept(v, m1.disk, m2.disk)
    ensures RegionKept(start, m.disk, m2.disk, taken)
  {
    hide Possible, At, Latest, LayoutOk, Outside;
    forall lba: nat, x | BlockOf(lba) >= start && BlockOf(lba) !in taken && Possible(m2.disk, lba, x)
      ensures Possible(m.disk, lba, x)
    {
      RegionOutside(v, start, end, BlockOf(lba));
    }
  }

  // ----- import_extents() -----

  /** At each machine added to a run every crash is safe. */
  ghost predicate AllSafe(v: Volume, from: nat, log: seq<Machine>, was: Image, sources: seq<Source>) {
    forall k: nat, image :: from <= k < |log| && CrashImage(log[k].disk, image) ==> ImportSafe(v, was, image, sources)
  }

  lemma DataRunSafe(
      v: Volume, start: nat, log0: seq<Machine>, log: seq<Machine>, was: Image, taken: set<nat>, sources: seq<Source>)
    requires VolumeOk(v) && FaultyRun(v, log) && DataRun(log0, log, taken)
    requires
      var m := log0[|log0| - 1];
      m.disk == Disk(was, []) && !CandidateWins(m) && NewestPayload(m) == Recovered(v, was)
    requires taken + FromTo(0, start) !! CoverSet(RootRanges(RootList(v, was)))
    ensures AllSafe(v, |log0| - 1, log, was, sources)
  {
    hide FaultyRun, CrashImage, Recovered, ImportSafe, RootRanges, CoverSet, RootList, DataPoint;
    forall k: nat, image | |log0| - 1 <= k < |log| && CrashImage(log[k].disk, image)
      ensures ImportSafe(v, was, image, sources)
    {
      DataSafe(v, start, log, log0[|log0| - 1], k, was, image, taken, sources);
    }
  }

  lemma CommitRunSafe(
      v: Volume, start: nat, end: nat, log0: seq<Machine>, log1: seq<Machine>, log: seq<Machine>, was: Image,
      taken: set<nat>,
      items: seq<Entry>, entries: seq<Entry>, sources: seq<Source>)
    requires LayoutOk(v, start, end) && FaultyRun(v, log) && DataRun(log0, log1, taken)
    requires
      var m := log0[|log0| - 1];
      m.disk == Disk(was, []) && !CandidateWins(m) && NewestPayload(m) == Recovered(v, was)
    requires taken + FromTo(0, start) !! CoverSet(RootRanges(RootList(v, was))) && forall p :: p in taken ==> start <= p
    requires
      Copying(
        OldEntries(v, was), items, entries, sources, View(log1[|log1| - 1].disk), start, end, CoverSet(RootRanges(RootList(v, was))), taken)
    requires |entries| <= MAX_ENTRIES && AllPackable(entries) && Committing(v, log1, log, Encode(entries))
    ensures AllSafe(v, |log1| - 1, log, was, sources)
  {
    hide FaultyRun, CrashImage, Recovered, ImportSafe, RootRanges, CoverSet, RootList, DataPoint, CommitPoint, Copying,
      Encode, LayoutOk, OldEntries;
    DataMeans(log0, log1, taken);
    forall k: nat, image | |log1| - 1 <= k < |log| && CrashImage(log[k].disk, image)
      ensures ImportSafe(v, was, image, sources)
    {
      CommitSafe(v, start, end, log, log0[|log0| - 1], log1[|log1| - 1], k, was, image, taken, items, entries, sources);
    }
  }

  lemma SafeTogether(v: Volume, from: nat, mid: nat, log: seq<Machine>, log': seq<Machine>, was: Image,
      sources: seq<Source>)
    requires AllSafe(v, from, log, was, sources) && AllSafe(v, mid, log', was, sources) && log <= log' && mid <= |log|
    ensures AllSafe(v, from, log', was, sources)
  {
    hide CrashImage, ImportSafe;
    forall k: nat, image | from <= k < |log'| && CrashImage(log'[k].disk, image)
      ensures ImportSafe(v, was, image, sources)
    {
      if k < |log| { assert log'[k] == log[k]; }
    }
  }

  /** The free ranges of the data region, as a region to copy to. */
  method FreeRegion(store: VolumeState, roots: seq<Root>, start: nat, end: nat) returns (region: Region)
    requires store.Ready() && store.restoreError == Good && LayoutOk(store.v, start, end)
    requires forall k :: 0 <= k < |roots| ==> ValidList(roots[k].entries, start, end)
    ensures fresh(region) && region.Valid() && region.store == store && region.taken == {}
    ensures forall p: nat :: CoveredBy(region.available, p) <==> start <= p < end && p !in CoverSet(RootRanges(roots))
    ensures region.free == FreeFrom(Sorted(RootRanges(roots)), start, end)
  {
    hide CoveredBy, RootRanges, CoverSet, ValidList, LayoutOk, FaultyRun, Inv, OutsideBlock;
    RangesInside(roots, start, end);
    CoverSetIs(RootRanges(roots));
    RegionBounds(store.v, start, end);
    var free := FreeRanges(RootRanges(roots), start, end);
    FreeIsOrdered(free);
    forall p: nat | CoveredBy(free, p)
      ensures p < LIMIT && OutsideBlock(store.v, p) { RegionOutside(store.v, start, end, p); }
    region := new Region(store, free);
  }

  lemma RegionBounds(v: Volume, start: nat, end: nat)
    requires LayoutOk(v, start, end)
    ensures start < end <= LIMIT && VolumeOk(v)
  {
  }

  lemma FreeIsOrdered(free: seq<Range>)
    requires AllNonempty(free) && forall i: nat, j: nat :: i < j < |free| ==> free[i].hi <= free[j].lo
    ensures InOrder(free)
  {
    forall i | 0 <= i < |free| ensures free[i].lo <= free[i].hi { assert free[i] in free; }
  }

  /** The entries to start from are those of the newest root. */
  lemma OldIs(v: Volume, log: seq<Machine>, was: Image, start: nat, end: nat)
    requires LayoutOk(v, start, end) && log != [] && FaultyRun(v, log) && log[|log| - 1].disk == Disk(was, [])
    ensures
      var roots := RootList(v, was);
      && OldEntries(v, was) == (if roots == [] then [] else roots[|roots| - 1].entries)
      && (forall k :: 0 <= k < |roots| ==> ValidList(roots[k].entries, start, end))
      && ValidList(OldEntries(v, was), start, end) && EntriesUse(OldEntries(v, was), CoverSet(RootRanges(roots)))
      && FromTo(0, start) !! CoverSet(RootRanges(roots))
  {
    hide FaultyRun, Restorable, RestoredSlot, HeaderAt, Generation, PayloadAt, Length, EntriesOf, RootRanges, CoverSet,
      ValidList, RootList, CoveredBy;
    var roots := RootList(v, was);
    RegionBounds(v, start, end);
    AtRest(log[|log| - 1].disk);
    NewestRoot(v, log, |log| - 1, was);
    forall k | 0 <= k < |roots| ensures ValidList(roots[k].entries, start, end) { RootsValid(v, was, start, end, k); }
    if roots == [] { EmptyValid(start, end); } else { RootsUse(roots, |roots| - 1); }
    RangesInside(roots, start, end);
    CoverSetIs(RootRanges(roots));
    InsideCovers(RootRanges(roots), start, end);
  }

  lemma InsideCovers(rs: seq<Range>, start: nat, end: nat)
    requires forall x :: x in rs ==> start <= x.lo <= x.hi <= end
    ensures forall p: nat :: CoveredBy(rs, p) ==> start <= p < end
  {
    forall p: nat | CoveredBy(rs, p) ensures start <= p < end { var i :| 0 <= i < |rs| && Covers(rs[i], p); }
  }

  lemma EmptyValid(start: nat, end: nat)
    ensures ValidList([], start, end)
  {
  }

  lemma AllSurvive(d: Disk)
    ensures CrashImage(d, View(d))
  {
    var keep := seq(|d.unflushed|, _ => true);
    SurviveIsLatest(d.durable, d.unflushed, keep);
  }

  lemma {:induction false} SurviveIsLatest(base: Image, writes: seq<SectorWrite>, keep: seq<bool>)
    requires |keep| == |writes| && forall i :: 0 <= i < |keep| ==> keep[i]
    ensures Survived(base, writes, keep) == Latest(base, writes)
    decreases |writes|
  {
    if writes != [] { SurviveIsLatest(base, writes[..|writes| - 1], keep[..|writes| - 1]); }
  }

  /** After the commit the new root is the one that a start finds. */
  lemma CommittedRoot(
      v: Volume, start: nat, end: nat, log1: seq<Machine>, log: seq<Machine>, was: Image, roots: set<nat>,
      taken: set<nat>,
      items: seq<Entry>, entries: seq<Entry>, sources: seq<Source>)
    requires LayoutOk(v, start, end) && FaultyRun(v, log) && log1 != [] && log != []
    requires Copying(OldEntries(v, was), items, entries, sources, View(log1[|log1| - 1].disk), start, end, roots, taken)
    requires |entries| <= MAX_ENTRIES && AllPackable(entries) && forall p :: p in taken ==> start <= p
    requires
      var m1, m := log1[|log1| - 1], log[|log| - 1];
      NewestPayload(m) == Some(Encode(entries)) && !CandidateWins(m) && DataDurable(v, m1.disk, m.disk)
    ensures NewRoot(v, was, View(log[|log| - 1].disk), sources)
  {
    hide FaultyRun, CrashImage, Recovered, Possible, At, Latest, Encode, DecodePayload, ItemsRead, Settled, EntriesUse,
      ValidList, Renewed, LayoutOk, DataDurable, KeepsOthers, OldEntries, CandidateWins;
    var m1, m := log1[|log1| - 1], log[|log| - 1];
    RegionBounds(v, start, end);
    AllSurvive(m.disk);
    FoundAt(v, log, |log| - 1, View(m.disk));
    DecodeEncode(entries);
    DurableCrash(v, start, end, m1.disk, m.disk, View(m.disk));
    ItemsKeep(items, sources, View(m1.disk), View(m.disk), taken, FromTo(0, start));
  }

  /** The blocks of the data region that no file of a root has. */
  function FreeBlocks(v: Volume, was: Image, start: nat, end: nat): set<nat> {
    FromTo(start, end) - CoverSet(RootRanges(RootList(v, was)))
  }

  /** The plan of an import, from the disk as it was. */
  function PlanOf(v: Volume, was: Image, start: nat, end: nat, sources: seq<Source>): Option<Plan> {
    PlanItems(FreeFrom(Sorted(RootRanges(RootList(v, was))), start, end), sources)
  }

  /** The list that a successful import commits. */
  function NewEntries(v: Volume, was: Image, start: nat, end: nat, sources: seq<Source>): seq<Entry> {
    match PlanOf(v, was, start, end, sources)
    case None => []
    case Some(p) => Renewed(OldEntries(v, was), p.items)
  }

  /** The list can be encoded, and has room in a slot. */
  predicate ListFits(v: Volume, entries: seq<Entry>) {
    |entries| <= MAX_ENTRIES && AllPackable(entries) && |Encode(entries)| <= v.cap
  }

  ghost function NewPayload(v: Volume, was: Image, start: nat, end: nat, sources: seq<Source>): Option<seq<byte>> {
    var entries := NewEntries(v, was, start, end, sources);
    if ListFits(v, entries) then Some(Encode(entries)) else None
  }

  /** The outcome is the expected one. */
  lemma ExpectedIs(
      v: Volume, was: Image, start: nat, end: nat, sources: seq<Source>, replace: bool, rest: seq<Range>,
      items: seq<Entry>,
      entries: seq<Entry>, image: Image, roots: set<nat>, taken: set<nat>)
    requires SourcesOk(OldEntries(v, was), sources, replace)
    requires PlanOf(v, was, start, end, sources) == Some(Plan(rest, items))
    requires Copying(OldEntries(v, was), items, entries, sources, image, start, end, roots, taken)
    ensures |entries| <= MAX_ENTRIES
    ensures Expected(v, was, start, end, sources, replace) == if ListFits(v, entries) then Imported else Failed
    ensures NewPayload(v, was, start, end, sources) == if ListFits(v, entries) then Some(Encode(entries)) else None
  {
    hide SourcesOk, PlanOf, OldEntries, ListFits, ItemsRead, EntriesUse, GoodEntry, GoodPlace, PairwiseApart, Renewed,
      Encode;
  }

  lemma RefusedOrFull(v: Volume, was: Image, start: nat, end: nat, sources: seq<Source>, replace: bool)
    ensures Expected(v, was, start, end, sources, replace) == Refused <==>
              !SourcesOk(OldEntries(v, was), sources, replace)
    ensures
      SourcesOk(OldEntries(v, was), sources, replace) && PlanOf(v, was, start, end, sources) == None ==>
        Expected(v, was, start, end, sources, replace) == Full
  {
    hide SourcesOk, PlanOf, OldEntries, ListFits, NewEntries;
  }

  /** What the import comes to on a disk that does not fail. */
  ghost function Expected(v: Volume, was: Image, start: nat, end: nat, sources: seq<Source>,
      replace: bool): ImportOutcome {
    if !SourcesOk(OldEntries(v, was), sources, replace) then Refused
    else if PlanOf(v, was, start, end, sources) == None then Full
    else if ListFits(v, NewEntries(v, was, start, end, sources)) then Imported
    else Failed
  }

  /** There is a plan exactly when there are as many free blocks as the data touches. */
  lemma PlanWhenRoom(v: Volume, was: Image, start: nat, end: nat, sources: seq<Source>)
    requires LayoutOk(v, start, end)
    requires forall i :: 0 <= i < |sources| ==>
               |sources[i].bytes| <= MAX_FILE && Sparse(sources[i].bytes, sources[i].data)
    ensures PlanOf(v, was, start, end, sources).Some? <==> NeededAll(sources) <= |FreeBlocks(v, was, start, end)|
  {
    hide CoveredBy, RootRanges, CoverSet, ValidList, LayoutOk, Sparse, RootList, Room, Ascending, AllNonempty;
    var roots := RootList(v, was);
    forall k | 0 <= k < |roots| ensures ValidList(roots[k].entries, start, end) { RootsValid(v, was, start, end, k); }
    RangesInside(roots, start, end);
    CoverSetIs(RootRanges(roots));
    RegionBounds(v, start, end);
    var free := FreeFrom(Sorted(RootRanges(roots)), start, end);
    FreeIs(RootRanges(roots), start, end);
    FreeIsOrdered(free);
    RoomCovered(free, FreeBlocks(v, was, start, end));
    PlanFits(free, sources);
  }

  lemma TakenPlace(available: seq<Range>, taken: set<nat>, kept: set<nat>, start: nat, end: nat)
    requires forall p: nat :: CoveredBy(available, p) <==> start <= p < end && p !in kept
    requires forall p :: p in taken ==> CoveredBy(available, p)
    ensures FromTo(0, start) !! kept ==> taken + FromTo(0, start) !! kept
    ensures forall p :: p in taken ==> start <= p
  {
    hide CoveredBy;
  }

  /** import_extents() on a disk at rest.  Whatever fails, and wherever a crash cuts it, every file of both old roots
      reads as before, and the newest root is the old one, or the new one with all sources in it. */
  method ImportExtents(reliable: bool, store: VolumeState, start: nat, end: nat, sources: seq<Source>, replace: bool)
    returns (r: ImportOutcome)
    requires store.log != [] && store.Valid() && store.disk.unflushed == [] && LayoutOk(store.v, start, end)
    requires forall i :: 0 <= i < |sources| ==> HostName(sources[i].name) && Sparse(sources[i].bytes, sources[i].data)
    modifies store
    ensures store.Ready() && old(store.log) <= store.log
    ensures AllSafe(store.v, |old(store.log)|, store.log, old(store.disk.durable), sources)
    ensures r == Refused <==> !SourcesOk(OldEntries(store.v, old(store.disk.durable)), sources, replace)
    ensures r == Refused ==> store.disk == old(store.disk)
    ensures r == Imported ==> NewRoot(store.v, old(store.disk.durable), View(store.disk), sources)
    ensures r != Failed || reliable ==> r == Expected(store.v, old(store.disk.durable), start, end, sources, replace)
    ensures r == Imported ==>
              NewestPayload(store.Now()) == NewPayload(store.v, old(store.disk.durable), start, end, sources)
    ensures r == Full ==> |FreeBlocks(store.v, old(store.disk.durable), start, end)| < NeededAll(sources)
    ensures r == Imported || (reliable && r == Failed) ==>
              NeededAll(sources) <= |FreeBlocks(store.v, old(store.disk.durable), start, end)|
  {
    hide FaultyRun, Inv, Recovered, ImportSafe, RootRanges, CoverSet, RootList, DataPoint, CommitPoint, Copying,
      Encode, LayoutOk, OldEntries, AllSafe, CoveredBy, ValidList, SourcesOk, CandidateWins, View, DataRun,
      Committing, CrashImage, EntriesUse, Region.Valid, NewRoot, Sparse, HostName, FromTo, NeededAll, NewestPayload,
      DataDurable, FreeBlocks, VolumeState.Valid, Expected, NewPayload, ListFits, NewEntries, PlanItems, FreeFrom;
    ghost var was, v := store.disk.durable, store.v;
    RegionBounds(v, start, end);
    var roots := Open(store, start, end);
    store.NowIs();
    ghost var log0, kept := store.log, CoverSet(RootRanges(roots));
    OldIs(v, log0, was, start, end);
    var entries := if roots == [] then [] else roots[|roots| - 1].entries;
    DataNothing(log0, {});
    assert {} + FromTo(0, start) == FromTo(0, start);
    DataRunSafe(v, start, log0, log0, was, {}, sources);
    RefusedOrFull(v, was, start, end, sources, replace);
    var ok := CheckSources(entries, sources, replace);
    if !ok { return Refused; }
    SizesOk(entries, sources, replace);
    PlanWhenRoom(v, was, start, end, sources);
    var region := FreeRegion(store, roots, start, end);
    ghost var items;
    r, items, entries := CopySources(reliable, region, entries, sources, start, end, kept, replace);
    region.ValidMeans();
    region.StoreReady();
    store.NowIs();
    ghost var log1, taken := store.log, region.taken;
    DataMeans(log0, log1, taken);
    TakenPlace(region.available, taken, kept, start, end);
    DataRunSafe(v, start, log0, log1, was, taken, sources);
    if r != Imported { return; }
    ExpectedIs(v, was, start, end, sources, replace, region.free, items, entries, View(store.disk), kept, taken);
    CopiedValid(OldEntries(v, was), items, entries, sources, View(store.disk), start, end, kept, taken);
    FitsWhen(v, entries);
    ok := Commit(reliable, store, entries, start, end);
    store.NowIs();
    if AllPackable(entries) {
      CommitRunSafe(v, start, end, log0, log1, store.log, was, taken, items, entries, sources);
      SafeTogether(v, |log0| - 1, |log1| - 1, log1, store.log, was, sources);
    }
    if !ok { return Failed; }
    CommittedRoot(v, start, end, log1, store.log, was, kept, taken, items, entries, sources);
  }

  lemma FitsWhen(v: Volume, entries: seq<Entry>)
    requires |entries| <= MAX_ENTRIES
    ensures ListFits(v, entries) <==> AllPackable(entries) && |Encode(entries)| <= v.cap
  {
    hide Encode;
  }

  lemma CopiedValid(
      was: seq<Entry>, items: seq<Entry>, entries: seq<Entry>, sources: seq<Source>, image: Image,
      start: nat, end: nat, roots: set<nat>, taken: set<nat>)
    requires Copying(was, items, entries, sources, image, start, end, roots, taken)
    ensures ValidList(entries, start, end) && |entries| <= MAX_ENTRIES
  {
    hide ItemsRead, EntriesUse, GoodEntry, GoodPlace, PairwiseApart;
  }
}
