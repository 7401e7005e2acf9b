/** A start after a crash: store_init of kernel/store.c with the importer it calls, and the files that come back. */
module VolumeStart {
  import opened Wrappers
  import Snapshot
  import opened StoreProtocol
  import StoreMount
  import opened Store
  import opened StoreRuns
  import opened FsTree
  import opened FileTree
  import FsStream
  import opened FsExport
  import FsImport
  import opened FsRoundTrip
  import PagedFile
  import opened FileData
  import VolumeExport
  import opened VolumeImport
  import opened VolumeCommit

  // ----- Mounting -----

  /** The slot that a start restores is the one it tries first. */
  lemma RestoredFirst(v: Volume, run: seq<Machine>, i: nat, image: Image)
    requires StoreProtocol.VolumeOk(v) && FaultyRun(v, run) && i < |run| && CrashImage(run[i].disk, image)
    requires RestoredSlot(v, image) != -1
    ensures FirstSlot(v, image) == RestoredSlot(v, image)
  {
    hide FaultyRun, CrashImage, Snapshot.ValidHeader, Snapshot.Generation, Newer, Snapshot.Crc32, PayloadAt, HeaderOf;
    RunInv(v, run, i);
    RestoredAfterCrash(v, run[i], image);
    if Snapshot.ValidHeader(v.version, HeaderAt(v, image, 0), v.cap) && Snapshot.ValidHeader(v.version, HeaderAt(v, image, 1), v.cap) {
      GenerationsDifferByOne(v, run, i, image);
      BothMarked(v, image);
    }
  }

  lemma BothMarked(v: Volume, image: Image)
    requires Snapshot.ValidHeader(v.version, HeaderAt(v, image, 0), v.cap)
    requires Snapshot.ValidHeader(v.version, HeaderAt(v, image, 1), v.cap)
    ensures HeaderAt(v, image, 0) != Snapshot.BLANK && HeaderAt(v, image, 1) != Snapshot.BLANK
  {
    hide Snapshot.ValidHeader;
    Snapshot.BlankIsInvalid(v.version, v.cap);
  }

  /** With a readable disk, a start without an error restores that slot; and it has none if the importer takes it. */
  lemma MountFinds(v: Volume, image: Image, importer: seq<Snapshot.byte> -> StoreMount.Outcome)
    requires StoreMount.Importer(v, importer)
    ensures StoreMount.Mount(v, image, {}, importer).error == StoreMount.Good ==>
              StoreMount.Mount(v, image, {}, importer).slot == RestoredSlot(v, image)
    ensures
      var slot := RestoredSlot(v, image);
      slot != -1 && slot == FirstSlot(v, image)
      && importer(PayloadAt(v, image, slot, Snapshot.Length(HeaderAt(v, image, slot)))) == StoreMount.Good
      ==> StoreMount.Mount(v, image, {}, importer).error == StoreMount.Good
  {
    hide Snapshot.ValidHeader, Snapshot.Generation, Newer, HeaderAt, Snapshot.Crc32, PayloadAt, StoreMount.BlankVolume,
      Snapshot.Length, Snapshot.Checksum, Snapshot.BlockCount;
    assert StoreMount.TriedFirst(v, image, {}) == FirstSlot(v, image);
  }

  /** A start that finds no snapshot after a run finds a blank volume. */
  lemma NothingThere(v: Volume, run: seq<Machine>, i: nat, image: Image,
      importer: seq<Snapshot.byte> -> StoreMount.Outcome)
    requires StoreProtocol.VolumeOk(v) && FaultyRun(v, run) && i < |run| && CrashImage(run[i].disk, image)
    requires RestoredSlot(v, image) == -1
    ensures StoreMount.Mount(v, image, {}, importer) == StoreMount.Mounted(-1, 0, StoreMount.Good)
  {
    hide FaultyRun, CrashImage, Snapshot.ValidHeader, Snapshot.Generation, Newer, Snapshot.Crc32, PayloadAt, HeaderOf,
      HeaderAt, RestoredSlot, Possible, Settled, PayloadSettled, Restorable;
    RunInv(v, run, i);
    RestoredAfterCrash(v, run[i], image);
    HeadersAfterCrash(v, run[i], image);
    Snapshot.BlankIsInvalid(v.version, v.cap);
  }

  /** After a start nothing but the found snapshot can come back. */
  lemma RebootDecides(v: Volume, run: seq<Machine>, i: nat, image: Image)
    requires StoreProtocol.VolumeOk(v) && FaultyRun(v, run) && i < |run| && CrashImage(run[i].disk, image)
    ensures !CandidateWins(Rebooted(v, run[i], image, RestoredSlot(v, image)))
  {
    hide FaultyRun, CrashImage, HeaderAt, RestoredSlot, Possible, Settled, PayloadSettled, Restorable,
      Snapshot.Generation, Holds, OtherSlot, PhaseOk;
    RunInv(v, run, i);
    RestoredAfterCrash(v, run[i], image);
  }

  function KernelImporter(prefix: string, room: nat): seq<Snapshot.byte> -> StoreMount.Outcome {
    p => ImportOutcome(p, prefix, room)
  }

  lemma ShortPayload(p: seq<Snapshot.byte>, prefix: string)
    requires |p| < 4
    ensures FsStream.ReadPayload(p, prefix) == None
  {
  }

  /** The header of the active slot has the length of the committed payload, and the payload is behind it. */
  lemma ActivePayload(v: Volume, m: Machine)
    requires Inv(v, m) && m.active != -1
    ensures m.committed.Some? && SlotHolds(v, m.disk, m.active, m.committed.value.payload)
    ensures
      var payload := m.committed.value.payload;
      && Snapshot.Length(At(View(m.disk), SlotLba(v, m.active))) == |payload|
      && PayloadAt(v, View(m.disk), m.active, |payload|) == payload
  {
    hide Possible, PayloadSettled, HeaderOf, Snapshot.Length, Latest, At, CrashImage;
    var s := m.committed.value;
    LatestIsPossible(m.disk.durable, m.disk.unflushed, SlotLba(v, m.active));
    HeaderLength(v, s);
    LatestIsCrash(m.disk);
    HeldPayload(v, m.disk, View(m.disk), m.active, s.payload);
  }

  /** What reads return is what a crash that keeps everything leaves. */
  lemma LatestIsCrash(d: Disk)
    ensures CrashImage(d, View(d))
  {
    var keep := seq(|d.unflushed|, _ => true);
    KeptAll(d.durable, d.unflushed, keep);
  }

  lemma {:induction false} KeptAll(base: Image, writes: seq<SectorWrite>, keep: seq<bool>)
    requires |keep| == |writes| && forall i :: 0 <= i < |keep| ==> keep[i]
    ensures Survived(base, writes, keep) == Latest(base, writes)
  {
    if writes != [] { KeptAll(base, writes[..|writes| - 1], keep[..|writes| - 1]); }
  }

  lemma HeaderLength(v: Volume, s: Saved)
    requires 4 <= |s.payload| < 0x1_0000_0000
    ensures Snapshot.Length(HeaderOf(v, s)) == |s.payload|
  {
    hide Snapshot.Crc32, Snapshot.Length;
    Snapshot.HeaderReads(v.version, s.generation, |s.payload|, Snapshot.Crc32(s.payload), |s.payload|);
  }

  /** Power is lost and the kernel starts again, with a readable disk: it finds what the protocol says. */
  method Reboot(store: VolumeState, keep: seq<bool>, importer: seq<Snapshot.byte> -> StoreMount.Outcome)
    requires store.log != [] && store.Valid() && |keep| == |store.disk.unflushed|
    requires StoreMount.Importer(store.v, importer)
    modifies store`disk, store`log, store`activeSlot, store`generation, store`restoreError
    ensures store.Ready() && old(store.log) <= store.log
    ensures CrashImage(old(store.disk), store.disk.durable)
    ensures store.restoreError == StoreMount.Good ==>
              NewestPayload(store.Now()) == Recovered(store.v, store.disk.durable)
    ensures Recovered(store.v, store.disk.durable).Some? && importer(Recovered(store.v, store.disk.durable).value) == StoreMount.Good
            ==> store.restoreError == StoreMount.Good
    ensures Recovered(store.v, store.disk.durable) == None ==> store.restoreError == StoreMount.Good
    ensures store.restoreError == StoreMount.Good ==> !CandidateWins(store.Now())
  {
    hide Survived, VolumeState.Valid, CrashImage, StoreMount.Mount, StoreMount.Importer, FaultyRun, Inv, SlotHolds,
      PayloadAt, RestoredSlot, Snapshot.Length, FirstSlot, Latest, Rebooted, CandidateWins;
    ghost var log0, d := store.log, store.disk;
    store.NowIs();
    assert CrashImage(d, Survived(d.durable, d.unflushed, keep)) by { KeptIsCrash(d, keep); }
    store.Restart(keep, {}, importer);
    ghost var image := store.disk.durable;
    MountFinds(store.v, image, importer);
    if RestoredSlot(store.v, image) == -1 { NothingThere(store.v, log0, |log0| - 1, image, importer); }
    RebootDecides(store.v, log0, |log0| - 1, image);
    StartFinds(store, log0, image);
  }

  lemma KeptIsCrash(d: Disk, keep: seq<bool>)
    requires |keep| == |d.unflushed|
    ensures CrashImage(d, Survived(d.durable, d.unflushed, keep))
  {
  }

  /** What the started kernel takes for committed is what was found. */
  lemma StartFinds(store: VolumeState, log0: seq<Machine>, image: Image)
    requires store.log != [] && store.Valid() && store.disk == Disk(image, [])
    requires StoreProtocol.VolumeOk(store.v) && log0 != [] && FaultyRun(store.v, log0)
    requires CrashImage(log0[|log0| - 1].disk, image)
    ensures RestoredSlot(store.v, image) != -1 ==> FirstSlot(store.v, image) == RestoredSlot(store.v, image)
    ensures store.restoreError == StoreMount.Good && store.activeSlot == RestoredSlot(store.v, image) ==>
              NewestPayload(store.Now()) == Recovered(store.v, image)
  {
    hide Survived, CrashImage, FaultyRun, SlotHolds, PayloadAt, RestoredSlot, Snapshot.Length, FirstSlot;
    if RestoredSlot(store.v, image) != -1 { RestoredFirst(store.v, log0, |log0| - 1, image); }
    assert View(store.disk) == image;
    if store.restoreError == StoreMount.Good && store.activeSlot == RestoredSlot(store.v, image) && store.activeSlot != -1 {
      ActivePayload(store.v, store.Now());
    }
  }

  // ----- The files of a restored volume -----

  /** The contents of the nodes after an import: those of the volume from the payload, the others as they were. */
  ghost function Restored(t: Tree, root: nat, backing: seq<PagedFile.Backing>, payload: seq<Snapshot.byte>,
      was: seq<seq<Snapshot.byte>>)
    : (files: seq<seq<Snapshot.byte>>)
    requires |backing| == 512 && |was| == 512
    ensures |files| == 512
  {
    seq(512, n requires 0 <= n < 512 => if Inner(t, root, n) then FsImport.Stored(backing[n], payload) else was[n])
  }

  /** Only the nodes of the volume count. */
  lemma RestoredEntries(t: Tree, root: nat, backing: seq<PagedFile.Backing>, payload: seq<Snapshot.byte>,
      was: seq<seq<Snapshot.byte>>)
    requires |backing| == 512 && |was| == 512
    ensures Entries(t, Restored(t, root, backing, payload, was), root) ==
            Entries(t, StoredFiles(backing, payload), root)
  {
    hide Inner, Path, FsImport.Stored;
    var files, stored := Restored(t, root, backing, payload, was), StoredFiles(backing, payload);
    forall n: nat | n < 512 && Inner(t, root, n) && Path(t, n).Some?
      ensures RecordOf(t, files, n) == RecordOf(t, stored, n) { }
  }

  /** A volume whose entries are records of a payload holds plain files and directories. */
  lemma RestoredOk(t: Tree, files: seq<seq<Snapshot.byte>>, root: nat, payload: seq<Snapshot.byte>, prefix: string,
      rs: seq<FsStream.Record>)
    requires WellFormed(t) && |files| == 512 && 0 < root < 512 && t[root].kind == Directory
    requires forall n :: 0 < n < 512 && Live(t, n) && !Inner(t, root, n) ==> FsStream.Plain(t[n].name)
    requires Entries(t, files, root) == RecordSet(rs) && FsStream.ReadPayload(payload, prefix) == Some(rs)
    ensures FsExport.VolumeOk(t, files, root)
  {
    hide WellFormed, Path, Inner, FsStream.ReadPayload, FsImport.DataOf, FsImport.Stored, FsStream.GoodPath;
    forall n: nat | Inner(t, root, n) ensures n < 512 && Storable(t, files, n) {
      VolumeExport.InnerFits(t, root, n);
      InnerLive(t, root, n);
      assert RecordOf(t, files, n) in RecordSet(rs);
      var k :| 0 <= k < |rs| && rs[k] == RecordOf(t, files, n);
      FsImport.StoredData(payload, prefix, rs, k);
    }
    forall n | 0 < n < 512 && Live(t, n) ensures FsStream.Plain(t[n].name) {
      if Inner(t, root, n) {
        VolumeExport.InnerFits(t, root, n);
        assert RecordOf(t, files, n) in RecordSet(rs);
        var k :| 0 <= k < |rs| && rs[k] == RecordOf(t, files, n);
        PlainRecord(payload, prefix, rs, k);
        PlainName(t, n);
      }
    }
  }

  /** The path of a record is made of bytes. */
  lemma PlainRecord(b: seq<Snapshot.byte>, prefix: string, rs: seq<FsStream.Record>, k: nat)
    requires FsStream.ReadPayload(b, prefix) == Some(rs) && k < |rs|
    ensures FsStream.Plain(rs[k].path)
  {
    hide FsStream.Read, FsStream.ReadAll, Snapshot.Word;
    FsImport.ReadsAt(b, 4, prefix, rs, k);
    PlainRead(b, FsImport.Begin(4, rs, k), prefix);
  }

  lemma PlainRead(b: seq<Snapshot.byte>, at: nat, prefix: string)
    requires FsStream.Read(b, at, prefix).Some?
    ensures FsStream.Plain(FsStream.Read(b, at, prefix).value.record.path)
  {
    hide Snapshot.Word;
  }

  /** A name is the end of its path. */
  lemma PlainName(t: Tree, n: nat)
    requires 0 < n < 512 && Path(t, n).Some? && FsStream.Plain(Path(t, n).value)
    ensures FsStream.Plain(t[n].name)
  {
    var s, name := PathFrom(t, t[n].parent, 511).value, t[n].name;
    var p := Path(t, n).value;
    assert p == s + "/" + name;
    forall i | 0 <= i < |name| ensures name[i] == p[|s| + 1 + i] { }
  }

  /** No node has bytes on this disk. */
  ghost predicate NoneStored(store: VolumeState, nodes: seq<FileData.File>)
    reads set n | 0 <= n < |nodes| :: nodes[n]
  {
    forall n :: 0 <= n < |nodes| && nodes[n].store == store ==> nodes[n].backing == PagedFile.Unbacked
  }

  /** The payload that a kernel has mounted. */
  ghost predicate Mounted(store: VolumeState, payload: seq<Snapshot.byte>)
    reads store
  {
    && store.Ready() && store.restoreError == StoreMount.Good && NewestPayload(store.Now()) == Some(payload)
  }

  /** The nodes of the volume with the backing that the import gave them lie in the payload. */
  ghost predicate InPayload(t: Tree, root: nat, backing: seq<PagedFile.Backing>, slots: seq<int>, slot: int,
      length: nat) {
    && |backing| == 512 && |slots| == 512
    && forall n: nat :: Inner(t, root, n) ==>
         n < 512 && slots[n] == slot && backing[n].Backed? && backing[n].offset + backing[n].size <= length
  }

  /** What a restored volume is, for a payload with these records. */
  ghost predicate Rebuilt(t0: Tree, t: Tree, root: nat, backing: seq<PagedFile.Backing>, payload: seq<Snapshot.byte>)
    requires root < 512
  {
    && |backing| == 512 && WellFormed(t) && Path(t0, root).Some? && Path(t, root) == Path(t0, root)
    && FsStream.ReadPayload(payload, Path(t, root).value).Some?
    && Entries(t, StoredFiles(backing, payload), root) == RecordSet(FsStream.ReadPayload(payload, Path(t, root).value).value)
    && (forall n :: 0 <= n < 512 && Live(t0, n) ==> t[n] == t0[n])
    && forall n :: 0 <= n < 512 && Live(t, n) && !Inner(t, root, n) ==> Live(t0, n) && t[n] == t0[n]
  }

  /** restore() on the mounted slot: fs_import_stream(). */
  method ImportMounted(bad: set<nat>, store: VolumeState, v: Volumes, volume: nat, ghost payload: seq<Snapshot.byte>)
    returns (r: VolumeExport.Status)
    requires Mounted(store, payload) && v.Valid() && volume < |v.table.volumes|
    requires FsImport.EmptyVolume(v.table.T(), v.table.volumes[volume])
    modifies v.table.nodes, v.backing, v.slots
    ensures v.Valid() && Path(old(v.table.T()), v.table.volumes[volume]).Some?
    ensures bad == {} ==>
              var prefix := Path(old(v.table.T()), v.table.volumes[volume]).value;
              AsOutcome(r) == ImportOutcome(payload, prefix, 512 - FsImport.LiveCount(old(v.table.T()), 512))
    ensures r == VolumeExport.Done ==>
              && Rebuilt(old(v.table.T()), v.table.T(), v.table.volumes[volume], v.backing[..], payload)
              && InPayload(v.table.T(), v.table.volumes[volume], v.backing[..], v.slots[..], store.activeSlot, |payload|)
  {
    hide WellFormed, Path, FsImport.LiveCount, Inner, SlotHolds, PayloadAt, ImportOutcome, Entries, RecordSet,
      StoredFiles, FsStream.ReadPayload, Inv, FaultyRun, VolumesOk;
    ghost var t0, root := v.table.T(), v.table.volumes[volume];
    MountedSlot(store, payload);
    HeldSize(store.v, store.disk, store.activeSlot, payload);
    var length := Snapshot.Length(Reads(store.disk, SlotLba(store.v, store.activeSlot)));
    var source := new Source(store, store.activeSlot, length, bad);
    ghost var cleared, rs;
    r, cleared, rs := v.ImportStream(source, volume);
  }

  lemma MountedSlot(store: VolumeState, payload: seq<Snapshot.byte>)
    requires Mounted(store, payload)
    ensures 0 <= store.activeSlot <= 1 && SlotHolds(store.v, store.disk, store.activeSlot, payload)
    ensures Snapshot.Length(Reads(store.disk, SlotLba(store.v, store.activeSlot))) == |payload|
    ensures PayloadAt(store.v, View(store.disk), store.activeSlot, |payload|) == payload
    ensures store.Now().committed.Some? && store.Now().committed.value.payload == payload
  {
    hide FaultyRun, SlotHolds, PayloadAt, Snapshot.Length, Latest, At, Holds, OtherSlot, Neighbours, PhaseOk;
    ActivePayload(store.v, store.Now());
  }

  /** The node of a restored file. */
  ghost predicate NodeOf(f: FileData.File, store: VolumeState, backing: PagedFile.Backing, contents: seq<Snapshot.byte>)
    reads f, f.pages, f.data, store, f.store
  {
    && f.store == store && f.slot == store.activeSlot && f.backing == backing && f.data == null && f.Valid()
    && f.Contents() == contents
  }

  method StoredNode(store: VolumeState, backing: PagedFile.Backing, slot: int,
      ghost payload: seq<Snapshot.byte>) returns (f: FileData.File)
    requires Mounted(store, payload) && slot == store.activeSlot
    requires backing.Backed? && backing.offset + backing.size <= |payload| && backing.size <= PagedFile.FILE_MAX
    ensures fresh(f) && fresh(f.pages) && NodeOf(f, store, backing, FsImport.Stored(backing, payload))
  {
    hide SlotHolds, PayloadAt, Mounted, FileData.File.Valid, FileData.File.Contents;
    MountedSlot(store, payload);
    HeldSize(store.v, store.disk, store.activeSlot, payload);
    HeldPart(store.v, store.disk, store.activeSlot, payload, backing.offset, backing.size);
    f := new FileData.File.Stored(store, slot, backing.offset, backing.size);
  }

  /** The nodes after an import. */
  method StoredNodes(store: VolumeState, v: Volumes, root: nat, before: seq<FileData.File>,
      ghost payload: seq<Snapshot.byte>)
    returns (nodes: seq<FileData.File>)
    requires Mounted(store, payload) && v.Valid() && |before| == 512
    requires InPayload(v.table.T(), root, v.backing[..], v.slots[..], store.activeSlot, |payload|)
    requires FsExport.VolumeOk(v.table.T(), StoredFiles(v.backing[..], payload), root)
    ensures |nodes| == 512
    ensures forall n: nat :: n < 512 && Inner(v.table.T(), root, n) ==>
              fresh(nodes[n]) && fresh(nodes[n].pages) && NodeOf(nodes[n], store, v.backing[n], FsImport.Stored(v.backing[n], payload))
    ensures forall n: nat :: n < 512 && !Inner(v.table.T(), root, n) ==> nodes[n] == before[n]
    ensures forall i, j :: 0 <= i < j < 512 && Inner(v.table.T(), root, i) && Inner(v.table.T(), root, j) ==>
              nodes[i] != nodes[j] && nodes[i].pages != nodes[j].pages
  {
    hide Inner, WellFormed, NodeOf, Mounted, FsImport.Stored, VolumesOk, FsExport.VolumeOk, StoredFiles;
    ghost var t, backing := v.table.T(), v.backing[..];
    nodes := [];
    for i := 0 to 512
      invariant |nodes| == i
      invariant forall n: nat :: n < i && Inner(t, root, n) ==>
                  fresh(nodes[n]) && fresh(nodes[n].pages) && NodeOf(nodes[n], store, backing[n], FsImport.Stored(backing[n], payload))
      invariant forall n: nat :: n < i && !Inner(t, root, n) ==> nodes[n] == before[n]
      invariant forall k, j :: 0 <= k < j < i && Inner(t, root, k) && Inner(t, root, j) ==>
                  nodes[k] != nodes[j] && nodes[k].pages != nodes[j].pages
    {
      var inner := VolumeExport.IsInner(v.table, i, root);
      var f := before[i];
      if inner {
        StoredSize(t, root, backing, payload, i);
        f := StoredNode(store, v.backing[i], v.slots[i], payload);
      }
      nodes := nodes + [f];
    }
  }

  lemma StoredSize(t: Tree, root: nat, backing: seq<PagedFile.Backing>, payload: seq<Snapshot.byte>, n: nat)
    requires |backing| == 512 && FsExport.VolumeOk(t, StoredFiles(backing, payload), root) && Inner(t, root, n)
    requires n < 512
    requires backing[n].Backed? && backing[n].offset + backing[n].size <= |payload|
    ensures backing[n].size <= PagedFile.FILE_MAX && (backing[n].size > 0 ==> t[n].kind == File)
  {
    hide Inner;
    var files := StoredFiles(backing, payload);
    assert Storable(t, files, n);
    assert |FsImport.Stored(backing[n], payload)| == backing[n].size;
  }

  /** The nodes show what was restored, and the next commit finds them as it needs them. */
  ghost predicate Usable(store: VolumeState, t: Tree, root: nat, nodes: seq<FileData.File>,
      files: seq<seq<Snapshot.byte>>)
    reads store, set n | 0 <= n < |nodes| :: nodes[n], set n | 0 <= n < |nodes| :: nodes[n].pages,
      set n | 0 <= n < |nodes| && nodes[n].data != null :: nodes[n].data, set n | 0 <= n < |nodes| :: nodes[n].store
  {
    VolumeExport.Holding(nodes, files) && Backings(store, t, root, nodes) && FsExport.VolumeOk(t, files, root)
  }

  lemma AllUsable(store: VolumeState, t: Tree, root: nat, backing: seq<PagedFile.Backing>, payload: seq<Snapshot.byte>,
      before: seq<FileData.File>, was: seq<seq<Snapshot.byte>>, nodes: seq<FileData.File>)
    requires Mounted(store, payload) && WellFormed(t) && |backing| == 512 && |nodes| == 512
    requires VolumeExport.Holding(before, was) && VolumeCommit.Distinct(before) && NoneStored(store, before)
    requires FsExport.VolumeOk(t, Restored(t, root, backing, payload, was), root)
    requires FsExport.VolumeOk(t, StoredFiles(backing, payload), root)
    requires forall n: nat :: Inner(t, root, n) ==>
               n < 512 && backing[n].Backed? && backing[n].offset + backing[n].size <= |payload|
    requires forall n: nat :: n < 512 && Inner(t, root, n) ==>
               nodes[n] !in before && NodeOf(nodes[n], store, backing[n], FsImport.Stored(backing[n], payload))
    requires forall n: nat :: n < 512 && !Inner(t, root, n) ==> nodes[n] == before[n]
    requires forall i, j :: 0 <= i < j < 512 && Inner(t, root, i) && Inner(t, root, j) ==> nodes[i] != nodes[j]
    ensures Usable(store, t, root, nodes, Restored(t, root, backing, payload, was))
  {
    hide WellFormed, Inner, FsExport.VolumeOk, SlotHolds, FsImport.Stored, StoredFiles, FileData.File.Valid,
      FileData.File.Contents;
    MountedSlot(store, payload);
    forall n: nat | n < 512 && Inner(t, root, n)
      ensures n > 0 && (backing[n].size > 0 ==> nodes[n].Current() && t[n].kind == File)
    {
      VolumeExport.InnerFits(t, root, n);
      StoredSize(t, root, backing, payload, n);
    }
  }

  /** The contents of a restored volume, and of its nodes alone. */
  lemma RebuiltFiles(t0: Tree, t: Tree, root: nat, backing: seq<PagedFile.Backing>, payload: seq<Snapshot.byte>,
      was: seq<seq<Snapshot.byte>>)
    requires 0 < root < 512 && t[root].kind == Directory && |was| == 512 && Rebuilt(t0, t, root, backing, payload)
    requires forall n :: 0 < n < 512 && Live(t0, n) ==> FsStream.Plain(t0[n].name)
    ensures FsExport.VolumeOk(t, StoredFiles(backing, payload), root)
    ensures FsExport.VolumeOk(t, Restored(t, root, backing, payload, was), root)
    ensures
      Entries(t, Restored(t, root, backing, payload, was), root) == RecordSet(FsStream.ReadPayload(payload, Path(t, root).value).value)
  {
    hide WellFormed, Path, Inner, Entries, RecordSet, StoredFiles, FsStream.ReadPayload, FsExport.VolumeOk,
      FsStream.Plain;
    var prefix := Path(t, root).value;
    var rs := FsStream.ReadPayload(payload, prefix).value;
    RestoredEntries(t, root, backing, payload, was);
    RestoredOk(t, StoredFiles(backing, payload), root, payload, prefix, rs);
    RestoredOk(t, Restored(t, root, backing, payload, was), root, payload, prefix, rs);
  }

  lemma StaySeparate(before: seq<FileData.File>, nodes: seq<FileData.File>, t: Tree, root: nat)
    requires |before| == 512 && |nodes| == 512 && Separate(before)
    requires forall n: nat :: n < 512 && Inner(t, root, n) ==>
               nodes[n] !in before && nodes[n].data == null && forall i :: 0 <= i < 512 ==> nodes[n].pages != before[i].pages
    requires forall n: nat :: n < 512 && !Inner(t, root, n) ==> nodes[n] == before[n]
    requires forall i, j :: 0 <= i < j < 512 && Inner(t, root, i) && Inner(t, root, j) ==>
               nodes[i] != nodes[j] && nodes[i].pages != nodes[j].pages
    ensures Separate(nodes)
  {
    hide Inner;
  }

  /** The start of a volume: its nodes are imported, and what was there before in other nodes stays. */
  method RestoreVolume(bad: set<nat>, store: VolumeState, v: Volumes, volume: nat, before: seq<FileData.File>,
      ghost was: seq<seq<Snapshot.byte>>, ghost payload: seq<Snapshot.byte>)
    returns (r: VolumeExport.Status, nodes: seq<FileData.File>, ghost files: seq<seq<Snapshot.byte>>)
    requires Mounted(store, payload) && v.Valid() && volume < |v.table.volumes|
    requires FsImport.EmptyVolume(v.table.T(), v.table.volumes[volume])
    requires VolumeExport.Holding(before, was) && VolumeCommit.Distinct(before) && NoneStored(store, before)
    requires forall n :: 0 <= n < 512 ==> before[n].data == null || before[n].data as object != v.slots
    requires forall n :: 0 < n < 512 && Live(v.table.T(), n) ==> FsStream.Plain(v.table.T()[n].name)
    modifies v.table.nodes, v.backing, v.slots
    ensures v.Valid() && |files| == 512 && Path(old(v.table.T()), v.table.volumes[volume]).Some?
    ensures bad == {} ==>
              var prefix := Path(old(v.table.T()), v.table.volumes[volume]).value;
              AsOutcome(r) == ImportOutcome(payload, prefix, 512 - FsImport.LiveCount(old(v.table.T()), 512))
    ensures
      var t, root := v.table.T(), v.table.volumes[volume];
      r == VolumeExport.Done ==>
        && Usable(store, t, root, nodes, files) && Path(t, root) == Path(old(v.table.T()), root)
        && FsStream.ReadPayload(payload, Path(t, root).value).Some?
        && Entries(t, files, root) == RecordSet(FsStream.ReadPayload(payload, Path(t, root).value).value)
        && (forall n :: 0 <= n < 512 && Live(old(v.table.T()), n) ==> t[n] == old(v.table.T())[n])
        && forall n :: 0 <= n < 512 && Live(t, n) && !Inner(t, root, n) ==> Live(old(v.table.T()), n)
    ensures r == VolumeExport.Done && Separate(before) ==>
              && |nodes| == 512 && Separate(nodes) && forall n :: 0 <= n < 512 ==>
                   && (nodes[n] in before || (fresh(nodes[n]) && fresh(nodes[n].pages) && nodes[n].data == null))
                   && (nodes[n] in before || nodes[n].store == store)
  {
    hide WellFormed, Path, FsImport.LiveCount, Inner, Mounted, ImportOutcome, Entries, RecordSet, StoredFiles,
      FsStream.ReadPayload, VolumesOk, FsExport.VolumeOk, Usable, FileData.File.Valid, FileData.File.Contents;
    ghost var t0, root := v.table.T(), v.table.volumes[volume];
    nodes, files := before, was;
    r := ImportMounted(bad, store, v, volume, payload);
    assert VolumeExport.Holding(before, was);
    if r == VolumeExport.Done {
      VolumeRoot(v.table.T(), v.table.volumes, volume);
      RebuiltFiles(t0, v.table.T(), root, v.backing[..], payload, was);
      nodes := StoredNodes(store, v, v.table.volumes[volume], before, payload);
      files := Restored(v.table.T(), root, v.backing[..], payload, was);
      AllUsable(store, v.table.T(), root, v.backing[..], payload, before, was, nodes);
      if Separate(before) { StaySeparate(before, nodes, v.table.T(), root); }
    }
  }
}
