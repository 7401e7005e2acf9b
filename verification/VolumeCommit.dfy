/** sync_one of kernel/store.c with the exporter it calls and the rebase after it: commits and the contents of files. */
module VolumeCommit {
  import Snapshot
  import opened Wrappers
  import opened StoreProtocol
  import StoreMount
  import opened Store
  import opened StoreRuns
  import opened FsTree
  import opened FileTree
  import FsStream
  import opened FsExport
  import FsImport
  import opened FsRoundTrip
  import PagedFile
  import opened FileData
  import VolumeExport

  /** A slot holds a payload, whatever a crash does. */
  ghost predicate SlotHolds(v: Volume, d: Disk, slot: int, payload: seq<Snapshot.byte>) {
    |payload| <= v.cap && PayloadSettled(v, d, slot, payload)
  }

  /** The active slot holds the committed payload; after a commit the other one still holds the one before. */
  lemma ActiveHolds(v: Volume, m: Machine)
    requires Inv(v, m)
    ensures m.committed.Some? ==> SlotHolds(v, m.disk, m.active, m.committed.value.payload)
    ensures m.candidate.Some? ==> SlotHolds(v, m.disk, Inactive(m.active), m.candidate.value.payload)
  {
    hide Possible, PayloadSettled, Settled, HeaderOf;
  }

  /** What reads of such a slot return. */
  lemma HeldBytes(v: Volume, d: Disk, slot: int, payload: seq<Snapshot.byte>, k: nat)
    requires SlotHolds(v, d, slot, payload) && k < |payload|
    ensures PayloadAt(v, View(d), slot, v.cap)[k] == payload[k]
  {
    hide Possible, At, Latest, Snapshot.Block;
    BlockByte(payload, k);
    var lba := SlotLba(v, slot) + 1 + k / 512;
    assert Settled(d, lba, Snapshot.Block(payload, k / 512));
    LatestIsPossible(d.durable, d.unflushed, lba);
  }

  lemma HeldPart(v: Volume, d: Disk, slot: int, payload: seq<Snapshot.byte>, offset: nat, size: nat)
    requires SlotHolds(v, d, slot, payload) && offset + size <= |payload|
    ensures PayloadAt(v, View(d), slot, v.cap)[offset..offset + size] == payload[offset..offset + size]
  {
    hide SlotHolds, PayloadAt, View;
    assert |payload| <= v.cap by { HeldSize(v, d, slot, payload); }
    forall k | offset <= k < offset + size ensures PayloadAt(v, View(d), slot, v.cap)[k] == payload[k] {
      HeldBytes(v, d, slot, payload, k);
    }
  }

  lemma HeldSize(v: Volume, d: Disk, slot: int, payload: seq<Snapshot.byte>)
    requires SlotHolds(v, d, slot, payload)
    ensures |payload| <= v.cap
  {
  }

  /** A file shows the same on two disks that hold the payload it lies in. */
  lemma FileKept(f: FileData.File, d: Disk, payload: seq<Snapshot.byte>)
    requires f.Fits(d)
    requires f.backing.Backed? && f.backing.size > 0 ==>
               && f.backing.offset + f.backing.size <= |payload|
               && SlotHolds(f.store.v, d, f.slot, payload) && SlotHolds(f.store.v, f.store.disk, f.slot, payload)
    ensures f.Valid() && f.Contents() == f.Shows(d)
  {
    hide PagedFile.Sound, PayloadAt, SlotHolds, PagedFile.Bytes;
    var before, after := f.SlotOf(d), f.SlotBytes();
    SoundParts(f.pages[..], f.backing, before, f.size);
    if f.backing.Backed? && f.backing.size > 0 {
      forall i | f.backing.offset <= i < f.backing.offset + f.backing.size ensures after[i] == before[i] {
        HeldBytes(f.store.v, d, f.slot, payload, i);
        HeldBytes(f.store.v, f.store.disk, f.slot, payload, i);
      }
    }
    OnlyBacking(f.pages[..], f.backing, before, after, f.size);
  }

  // ----- fs_rebase_volume -----

  /** A node that fs_rebase_volume() touches. */
  predicate Rebased(t: Tree, offsets: seq<int>, n: nat)
    requires n < 512 && |offsets| == 512
  {
    0 < n && offsets[n] >= 0 && t[n].kind == File
  }

  /** The bytes of the new snapshot at the recorded offsets are the files' contents. */
  ghost predicate OffsetsShow(
      store: VolumeState, t: Tree, nodes: seq<FileData.File>, files: seq<seq<Snapshot.byte>>, offsets: seq<int>,
      payload: seq<Snapshot.byte>)
  {
    && |nodes| == 512 && |files| == 512 && |offsets| == 512
    && forall n: nat :: n < 512 && Rebased(t, offsets, n) ==>
         && nodes[n].store == store && offsets[n] + |files[n]| <= |payload|
         && payload[offsets[n]..offsets[n] + |files[n]|] == files[n]
  }

  ghost predicate Distinct(nodes: seq<FileData.File>) { forall i, j :: 0 <= i < j < |nodes| ==> nodes[i] != nodes[j] }

  /** No two nodes share pages or embedded contents. */
  ghost predicate Separate(nodes: seq<FileData.File>)
    reads set n | 0 <= n < |nodes| :: nodes[n]
  {
    && Distinct(nodes)
    && forall i, j :: 0 <= i < j < |nodes| ==>
         nodes[i].pages != nodes[j].pages && (nodes[i].data != null ==> nodes[i].data != nodes[j].data)
  }

  /** One turn of fs_rebase_volume(). */
  method RebaseNode(store: VolumeState, nodes: seq<FileData.File>, i: nat, offset: nat,
      ghost files: seq<seq<Snapshot.byte>>, ghost payload: seq<Snapshot.byte>)
    requires VolumeExport.Holding(nodes, files) && Distinct(nodes) && i < 512 && nodes[i].store == store
    requires 0 <= store.activeSlot <= 1 && SlotHolds(store.v, store.disk, store.activeSlot, payload)
    requires offset + |files[i]| <= |payload| && payload[offset..offset + |files[i]|] == files[i]
    modifies nodes[i]
    ensures VolumeExport.Holding(nodes, files) && (old(Separate(nodes)) ==> Separate(nodes))
    ensures nodes[i].slot == store.activeSlot && nodes[i].backing == PagedFile.Backed(offset, |files[i]|)
    ensures fresh(nodes[i].pages) && nodes[i].data == null
  {
    hide FileData.File.Valid, FileData.File.Contents, SlotHolds, PayloadAt;
    HeldSize(store.v, store.disk, store.activeSlot, payload);
    HeldPart(store.v, store.disk, store.activeSlot, payload, offset, |files[i]|);
    nodes[i].Rebase(store.activeSlot, offset);
  }

  /** fs_rebase_volume(): the exported files point into the new slot, and show what they showed. */
  method RebaseVolume(store: VolumeState, table: Table, nodes: seq<FileData.File>, offsets: array<int>,
      ghost files: seq<seq<Snapshot.byte>>, ghost payload: seq<Snapshot.byte>)
    requires table.Valid() && offsets.Length == 512 && VolumeExport.Holding(nodes, files) && Distinct(nodes)
    requires 0 <= store.activeSlot <= 1 && SlotHolds(store.v, store.disk, store.activeSlot, payload)
    requires OffsetsShow(store, table.T(), nodes, files, offsets[..], payload)
    modifies set n | 0 <= n < |nodes| :: nodes[n]
    ensures VolumeExport.Holding(nodes, files)
    ensures forall n: nat :: n < 512 ==>
              if Rebased(table.T(), offsets[..], n) then
                nodes[n].slot == store.activeSlot && nodes[n].backing == PagedFile.Backed(offsets[n], |files[n]|)
              else nodes[n].slot == old(nodes[n].slot) && nodes[n].backing == old(nodes[n].backing)
    ensures forall n :: 0 <= n < 512 ==> nodes[n].pages == old(nodes[n].pages) || fresh(nodes[n].pages)
    ensures forall n :: 0 <= n < 512 ==> nodes[n].data == old(nodes[n].data) || nodes[n].data == null
    ensures old(Separate(nodes)) ==> Separate(nodes)
  {
    hide WellFormed, FileData.File.Valid, FileData.File.Contents, SlotHolds, PayloadAt, Separate, VolumesOk;
    ghost var apart := Separate(nodes);
    for i := 1 to 512
      invariant VolumeExport.Holding(nodes, files)
      invariant forall n :: 0 <= n < 512 ==> nodes[n].pages == old(nodes[n].pages) || fresh(nodes[n].pages)
      invariant forall n :: 0 <= n < 512 ==> nodes[n].data == old(nodes[n].data) || nodes[n].data == null
      invariant apart ==> Separate(nodes)
      invariant forall n: nat :: n < i ==>
                  if Rebased(table.T(), offsets[..], n) then
                    nodes[n].slot == store.activeSlot && nodes[n].backing == PagedFile.Backed(offsets[n], |files[n]|)
                  else nodes[n].slot == old(nodes[n].slot) && nodes[n].backing == old(nodes[n].backing)
      invariant forall n: nat :: i <= n < 512 ==>
                  nodes[n].slot == old(nodes[n].slot) && nodes[n].backing == old(nodes[n].backing)
    {
      if offsets[i] < 0 || table.nodes[i].kind != File { continue; }
      assert Rebased(table.T(), offsets[..], i);
      RebaseNode(store, nodes, i, offsets[i], files, payload);
    }
  }

  // ----- sync_one -----

  /** Where an export says that the contents lie. */
  lemma ExportShows(
      store: VolumeState, t: Tree, nodes: seq<FileData.File>, files: seq<seq<Snapshot.byte>>, root: nat,
      order: seq<nat>, offsets: seq<int>)
    requires Exported(t, files, root, order) && |nodes| == 512 && |files| == 512 && |offsets| == 512 && |order| < 512
    requires forall k :: 0 <= k < |order| ==>
               order[k] < 512 && Path(t, order[k]).Some? && FsStream.Writable(RecordOf(t, files, order[k]))
    requires VolumeExport.OffsetsOk(order, Records(t, files, order), offsets)
    requires forall n: nat :: n < 512 && Inner(t, root, n) ==> nodes[n].store == store
    ensures OffsetsShow(store, t, nodes, files, offsets, FsStream.Payload(Records(t, files, order)))
    ensures forall n: nat :: n < 512 && Rebased(t, offsets, n) ==>
              offsets[n] + |files[n]| <= |FsStream.Payload(Records(t, files, order))|
    ensures forall n: nat :: 0 < n < 512 && t[n].kind == File ==> (Inner(t, root, n) <==> Rebased(t, offsets, n))
  {
    hide WellFormed, Path, FsStream.Writable, FsStream.Payload, FsExport.VolumeOk, Inner, FsImport.Begin, ParentEarlier;
    forall n: nat | n < 512 && n in order
      ensures Inner(t, root, n) && offsets[n] >= 0
      ensures offsets[n] + |files[n]| <= |FsStream.Payload(Records(t, files, order))|
      ensures FsStream.Payload(Records(t, files, order))[offsets[n]..offsets[n] + |files[n]|] == files[n]
    {
      var k :| 0 <= k < |order| && order[k] == n;
      ExportedData(t, files, root, order, k);
    }
  }

  /** Files with bytes on the disk point at the active slot, and belong to the volume. */
  ghost predicate Backings(store: VolumeState, t: Tree, root: nat, nodes: seq<FileData.File>)
    reads store, set n | 0 <= n < |nodes| :: nodes[n], set n | 0 <= n < |nodes| :: nodes[n].store
  {
    && |nodes| == 512 && Distinct(nodes)
    && (forall n: nat :: n < 512 && Inner(t, root, n) ==> nodes[n].store == store)
    && forall n: nat :: n < 512 && nodes[n].store == store && nodes[n].backing.Backed? && nodes[n].backing.size > 0 ==>
         && nodes[n].Current() && n > 0 && Inner(t, root, n) && t[n].kind == File
  }

  lemma NowHolds(store: VolumeState)
    requires store.log != [] && store.Valid() && store.restoreError == StoreMount.Good
    ensures
      var m := store.Now();
      m.committed.Some? ==> 0 <= store.activeSlot <= 1 && SlotHolds(store.v, store.disk, store.activeSlot, m.committed.value.payload)
    ensures
      var m := store.Now();
      m.candidate.Some? ==> SlotHolds(store.v, store.disk, Inactive(store.activeSlot), m.candidate.value.payload)
  {
    hide SlotHolds, Holds, OtherSlot, Neighbours, PhaseOk, FaultyRun;
    ActiveHolds(store.v, store.Now());
  }

  lemma SeenHere(f: FileData.File)
    requires f.Valid()
    ensures f.Fits(f.store.disk) && f.Shows(f.store.disk) == f.Contents()
  {
    hide FileData.File.Fits, FileData.File.Shows;
  }

  /** A payload holds exactly the nodes of a volume with their contents. */
  ghost predicate Saves(t: Tree, files: seq<seq<Snapshot.byte>>, root: nat, payload: seq<Snapshot.byte>,
      order: seq<nat>) {
    && Exported(t, files, root, order) && |files| == 512 && |order| < 512
    && (forall k :: 0 <= k < |order| ==> order[k] < 512 && Path(t, order[k]).Some? && FsStream.Writable(RecordOf(t, files, order[k])))
    && payload == FsStream.Payload(Records(t, files, order))
  }

  /** The importer of a volume is that of the kernel. */
  ghost predicate KernelImports(v: Volume, t: Tree, root: nat) {
    root < 512 && Path(t, root).Some? && forall p: seq<Snapshot.byte> :: v.imports(p) <==> Importable(p, Path(t, root).value)
  }

  /** fs_export_stream() as sync_one() calls it. */
  method ExportVolume(reliable: bool, bad: set<nat>, store: VolumeState, table: Table, volume: nat,
      nodes: seq<FileData.File>,
      ghost files: seq<seq<Snapshot.byte>>)
    returns (r: StoreMount.Outcome, out: seq<Snapshot.byte>, offsets: array<int>, ghost order: seq<nat>)
    requires table.Valid() && volume < |table.volumes| && VolumeExport.Holding(nodes, files) && (reliable ==> bad == {})
    requires FsExport.VolumeOk(table.T(), files, table.volumes[volume]) && store.v.cap >= 4
    requires forall n: nat :: n < 512 && Inner(table.T(), table.volumes[volume], n) ==> nodes[n].store == store
    ensures fresh(offsets) && offsets.Length == 512
    ensures r == StoreMount.Good ==> Saves(table.T(), files, table.volumes[volume], out, order)
    ensures r == StoreMount.Good ==> OffsetsShow(store, table.T(), nodes, files, offsets[..], out)
    ensures r == StoreMount.Good ==> forall n: nat :: 0 < n < 512 && table.T()[n].kind == File
                                       ==> (Inner(table.T(), table.volumes[volume], n) <==> Rebased(table.T(), offsets[..], n))
    ensures r == StoreMount.Good || r == StoreMount.NoSpace || (r == StoreMount.Bad && !reliable)
    ensures r == StoreMount.NoSpace <==> VolumeExport.Total(table.T(), files, table.volumes[volume], 512) > store.v.cap
    ensures r == StoreMount.Good ==> |out| == VolumeExport.Total(table.T(), files, table.volumes[volume], 512)
  {
    hide WellFormed, Path, Inner, FsStream.Writable, FsStream.Payload, FsExport.VolumeOk, Exported,
      VolumeExport.OffsetsOk, FileData.File.Valid, FileData.File.Contents, RecordOf, OffsetsShow,
      VolumeExport.Count, VolumeExport.Total;
    offsets := new int[512];
    if VolumeExport.Count(table.T(), table.volumes[volume], 512) == 0 {
      VolumeExport.NothingCounted(table.T(), files, table.volumes[volume], 512);
    }
    var er, length;
    er, out, length, order :=
      VolumeExport.ExportStream(reliable, bad, table, volume, store.v.cap, nodes, files, offsets);
    r := if er == VolumeExport.Done then StoreMount.Good else if er == VolumeExport.Full then StoreMount.NoSpace else StoreMount.Bad;
    if r == StoreMount.Good { ExportShows(store, table.T(), nodes, files, table.volumes[volume], order, offsets[..]); }
  }

  lemma SavedImportable(v: Volume, t: Tree, files: seq<seq<Snapshot.byte>>, root: nat, payload: seq<Snapshot.byte>,
      order: seq<nat>)
    requires Saves(t, files, root, payload, order) && KernelImports(v, t, root)
    ensures v.imports(payload) && |payload| >= 4
  {
    hide Path, FsStream.Payload, Exported, RecordOf, Importable;
    ExportImportable(t, files, root, order);
  }

  /** The commit itself changes no file. */
  method CommitVolume(reliable: bool, store: VolumeState, ghost t: Tree, ghost root: nat, nodes: seq<FileData.File>,
      ghost files: seq<seq<Snapshot.byte>>, exported: StoreMount.Outcome, out: seq<Snapshot.byte>)
    returns (r: StoreMount.Outcome)
    requires store.Ready() && VolumeExport.Holding(nodes, files) && Backings(store, t, root, nodes)
    requires exported == StoreMount.Good ==> |out| >= 4 && store.v.imports(out)
    modifies store`disk, store`log, store`activeSlot, store`generation
    ensures store.Ready() && VolumeExport.Holding(nodes, files) && Committing(store.v, old(store.log), store.log, out)
    ensures r != StoreMount.Good ==> Backings(store, t, root, nodes) && store.activeSlot == old(store.activeSlot)
                                     && store.Now().committed == old(store.Now().committed)
    ensures r == StoreMount.Good ==>
              && exported == StoreMount.Good && store.activeSlot == Inactive(old(store.activeSlot))
              && 0 <= store.activeSlot <= 1
              && store.restoreError == StoreMount.Good && store.Now().committed.Some?
              && store.Now().committed.value.payload == out
              && SlotHolds(store.v, store.disk, store.activeSlot, out) && !CandidateWins(store.Now())
    ensures reliable && old(store.restoreError) == StoreMount.Good ==>
              (r == StoreMount.Good <==> exported == StoreMount.Good && |out| <= store.v.cap)
    ensures exported != StoreMount.Good ==> Continues(store.v, old(store.log), store.log)
  {
    hide Inner, Committing, Continues, Inv, FileData.File.Valid, FileData.File.Contents, FileData.File.Fits,
      FileData.File.Shows, SlotHolds, VolumeState.Valid, Store.Joined, DataDurable;
    JoinedOne(out);
    store.NowIs();
    ghost var good, d := store.restoreError == StoreMount.Good, store.disk;
    ghost var payload := if store.Now().committed.Some? then store.Now().committed.value.payload else [];
    if good { NowHolds(store); }
    forall n | 0 <= n < 512 && nodes[n].store == store
      ensures nodes[n].Fits(d) && nodes[n].Shows(d) == files[n] { SeenHere(nodes[n]); }
    r := store.SyncOne(reliable, [out], exported);
    if good { NowHolds(store); }
    forall n | 0 <= n < 512 ensures nodes[n].Valid() && nodes[n].Contents() == files[n] {
      if nodes[n].store == store { FileKept(nodes[n], d, payload); }
    }
  }

  ghost function BackingsOf(nodes: seq<FileData.File>): (r: seq<PagedFile.Backing>)
    reads set n | 0 <= n < |nodes| :: nodes[n]
    ensures |r| == |nodes| && forall n :: 0 <= n < |nodes| ==> r[n] == nodes[n].backing
  {
    if nodes == [] then [] else BackingsOf(nodes[..|nodes| - 1]) + [nodes[|nodes| - 1].backing]
  }

  /** After the rebase every file with bytes on the disk points into the new slot. */
  lemma AllRebased(store: VolumeState, t: Tree, root: nat, nodes: seq<FileData.File>, files: seq<seq<Snapshot.byte>>,
      offsets: seq<int>, payload: seq<Snapshot.byte>, was: seq<PagedFile.Backing>)
    requires |nodes| == 512 && |was| == 512 && Distinct(nodes) && OffsetsShow(store, t, nodes, files, offsets, payload)
    requires forall n: nat :: n < 512 && Inner(t, root, n) ==> nodes[n].store == store
    requires forall n: nat :: n < 512 && nodes[n].store == store && was[n].Backed? && was[n].size > 0 ==>
               n > 0 && Inner(t, root, n) && t[n].kind == File
    requires forall n: nat :: 0 < n < 512 && t[n].kind == File && Inner(t, root, n) ==> Rebased(t, offsets, n)
    requires forall n: nat :: n < 512 && Rebased(t, offsets, n) ==> Inner(t, root, n)
    requires forall n: nat :: n < 512 ==>
               if Rebased(t, offsets, n) then
                 nodes[n].slot == store.activeSlot && nodes[n].backing == PagedFile.Backed(offsets[n], |files[n]|)
               else nodes[n].backing == was[n]
    requires store.log != [] && store.restoreError == StoreMount.Good && store.Now().committed.Some?
             && store.Now().committed.value.payload == payload
    ensures Backings(store, t, root, nodes)
  {
    hide Inner;
  }

  /** The nodes of a volume that have bytes on its disk. */
  ghost predicate OnDisk(store: VolumeState, t: Tree, root: nat, nodes: seq<FileData.File>)
    reads set n | 0 <= n < |nodes| :: nodes[n]
  {
    && |nodes| == 512 && Distinct(nodes)
    && (forall n: nat :: n < 512 && Inner(t, root, n) ==> nodes[n].store == store)
    && forall n: nat :: n < 512 && nodes[n].store == store && nodes[n].backing.Backed? && nodes[n].backing.size > 0 ==>
         n > 0 && Inner(t, root, n) && t[n].kind == File
  }

  lemma BackingsOnDisk(store: VolumeState, t: Tree, root: nat, nodes: seq<FileData.File>)
    requires Backings(store, t, root, nodes)
    ensures OnDisk(store, t, root, nodes)
  {
    hide Inner;
  }

  lemma OnDiskWas(store: VolumeState, t: Tree, root: nat, nodes: seq<FileData.File>)
    requires OnDisk(store, t, root, nodes)
    ensures |nodes| == 512 && Distinct(nodes)
    ensures forall n: nat :: n < 512 && Inner(t, root, n) ==> nodes[n].store == store
    ensures
      var was := BackingsOf(nodes);
      forall n: nat :: n < 512 && nodes[n].store == store && was[n].Backed? && was[n].size > 0 ==>
        n > 0 && Inner(t, root, n) && t[n].kind == File
  {
    hide Inner;
  }

  lemma RebasedInner(t: Tree, offsets: seq<int>, root: nat)
    requires |offsets| == 512
    requires forall n: nat :: 0 < n < 512 && t[n].kind == File ==> (Inner(t, root, n) <==> Rebased(t, offsets, n))
    ensures forall n: nat :: n < 512 && Rebased(t, offsets, n) ==> Inner(t, root, n)
    ensures forall n: nat :: 0 < n < 512 && t[n].kind == File && Inner(t, root, n) ==> Rebased(t, offsets, n)
  {
    hide Inner;
  }

  /** The rebase after a commit, in terms of the volume. */
  method RebaseAll(store: VolumeState, table: Table, nodes: seq<FileData.File>, offsets: array<int>, ghost root: nat,
      ghost files: seq<seq<Snapshot.byte>>, ghost payload: seq<Snapshot.byte>)
    requires table.Valid() && offsets.Length == 512 && VolumeExport.Holding(nodes, files)
    requires OnDisk(store, table.T(), root, nodes)
    requires 0 <= store.activeSlot <= 1 && SlotHolds(store.v, store.disk, store.activeSlot, payload)
    requires store.log != [] && store.restoreError == StoreMount.Good && store.Now().committed.Some?
             && store.Now().committed.value.payload == payload
    requires OffsetsShow(store, table.T(), nodes, files, offsets[..], payload)
    requires forall n: nat :: 0 < n < 512 && table.T()[n].kind == File ==>
               (Inner(table.T(), root, n) <==> Rebased(table.T(), offsets[..], n))
    modifies set n | 0 <= n < |nodes| :: nodes[n]
    ensures VolumeExport.Holding(nodes, files) && Backings(store, table.T(), root, nodes)
    ensures forall n :: 0 <= n < 512 ==> nodes[n].pages == old(nodes[n].pages) || fresh(nodes[n].pages)
    ensures forall n :: 0 <= n < 512 ==> nodes[n].data == old(nodes[n].data) || nodes[n].data == null
    ensures old(Separate(nodes)) ==> Separate(nodes)
  {
    hide WellFormed, Inner, FileData.File.Valid, FileData.File.Contents, SlotHolds, OffsetsShow, VolumesOk,
      VolumeExport.Holding, Separate, OnDisk, Distinct, Backings, Rebased;
    ghost var was, t := BackingsOf(nodes), table.T();
    OnDiskWas(store, t, root, nodes);
    RebasedInner(t, offsets[..], root);
    RebaseVolume(store, table, nodes, offsets, files, payload);
    AllRebased(store, t, root, nodes, files, offsets[..], payload, was);
  }

  /** sync_one() of a volume with its exporter and the rebase.  Whatever fails, every file shows what it showed, and the
      files of the volume point at the active slot; on success the disk holds exactly the volume as it is. */
  method SyncVolume(reliable: bool, bad: set<nat>, store: VolumeState, table: Table, volume: nat,
      nodes: seq<FileData.File>,
      ghost files: seq<seq<Snapshot.byte>>)
    returns (r: StoreMount.Outcome, ghost order: seq<nat>, ghost payload: seq<Snapshot.byte>)
    requires store.Ready() && table.Valid() && volume < |table.volumes| && VolumeExport.Holding(nodes, files)
    requires (reliable ==> bad == {})
    requires FsExport.VolumeOk(table.T(), files, table.volumes[volume])
    requires KernelImports(store.v, table.T(), table.volumes[volume])
    requires Backings(store, table.T(), table.volumes[volume], nodes)
    modifies store`disk, store`log, store`activeSlot, store`generation, set n | 0 <= n < |nodes| :: nodes[n]
    ensures store.Ready() && VolumeExport.Holding(nodes, files)
    ensures Backings(store, table.T(), table.volumes[volume], nodes)
    ensures Committing(store.v, old(store.log), store.log, payload)
    ensures Saves(table.T(), files, table.volumes[volume], payload, order) || Continues(store.v, old(store.log), store.log)
    ensures forall prefix :: Path(table.T(), table.volumes[volume]) == Some(prefix) && old(OnlyVolumes(store.Now(), prefix)) ==>
                               AllVolumes(store.log, |old(store.log)| - 1, prefix)
    ensures reliable && old(store.restoreError) == StoreMount.Good ==>
              (r == StoreMount.Good <==> VolumeExport.Total(table.T(), files, table.volumes[volume], 512) <= store.v.cap)
    ensures r != StoreMount.Good ==>
              store.activeSlot == old(store.activeSlot) && store.Now().committed == old(store.Now().committed)
    ensures r == StoreMount.Good ==>
              && store.activeSlot == Inactive(old(store.activeSlot)) && store.Now().committed.Some?
              && store.Now().committed.value.payload == payload
              && Saves(table.T(), files, table.volumes[volume], payload, order)
              && !CandidateWins(store.Now())
    ensures store.restoreError == old(store.restoreError)
    ensures forall n :: 0 <= n < 512 ==> nodes[n].pages == old(nodes[n].pages) || fresh(nodes[n].pages)
    ensures forall n :: 0 <= n < 512 ==> nodes[n].data == old(nodes[n].data) || nodes[n].data == null
    ensures old(Separate(nodes)) ==> Separate(nodes)
  {
    hide WellFormed, Inner, FsExport.VolumeOk, Committing, Continues, Inv, VolumeExport.Total, FileData.File.Valid,
      FileData.File.Contents, SlotHolds, Importable, VolumeState.Valid, OffsetsShow, Saves, KernelImports,
      VolumeExport.Holding, Path, OnlyVolumes, AllVolumes, Separate, Backings, OnDisk, Distinct, Rebased,
      CandidateWins;
    ghost var t, root := table.T(), table.volumes[volume];
    ghost var log0 := store.log;
    var exported, out, offsets;
    store.RoomFor();
    BackingsOnDisk(store, t, root, nodes);
    OnDiskWas(store, t, root, nodes);
    exported, out, offsets, order := ExportVolume(reliable, bad, store, table, volume, nodes, files);
    payload := out;
    if exported == StoreMount.Good { SavedImportable(store.v, t, files, root, out, order); }
    r := CommitVolume(reliable, store, t, root, nodes, files, exported, out);
    if r == StoreMount.Good {
      RebaseAll(store, table, nodes, offsets, root, files, out);
    }
    AfterSync(store.v, log0, store.log, SavedVolume(t, files, root, order), payload);
  }

  /** A commit leaves only volumes if there was nothing else. */
  lemma AfterSync(v: Volume, log0: seq<Machine>, log: seq<Machine>, w: SavedVolume, payload: seq<Snapshot.byte>)
    requires Committing(v, log0, log, payload) && w.root < 512
    requires Saves(w.t, w.files, w.root, payload, w.order) || Continues(v, log0, log)
    ensures forall prefix :: Path(w.t, w.root) == Some(prefix) && OnlyVolumes(log0[|log0| - 1], prefix)
                             ==> AllVolumes(log, |log0| - 1, prefix)
  {
    hide Path, Committing, Continues, OnlyVolumes, AllVolumes, Saves;
    LogThere(v, log0, log, payload);
    forall prefix | Path(w.t, w.root) == Some(prefix) && OnlyVolumes(log0[|log0| - 1], prefix)
      ensures AllVolumes(log, |log0| - 1, prefix)
    {
      if Saves(w.t, w.files, w.root, payload, w.order) { assert SavedIn(w, payload, prefix); }
      SyncOnlyVolumes(v, log0, log, payload, prefix);
    }
  }

  lemma LogThere(v: Volume, log0: seq<Machine>, log: seq<Machine>, payload: seq<Snapshot.byte>)
    requires Committing(v, log0, log, payload)
    ensures log0 != []
  {
  }

  // ----- Crashes and restarts -----

  /** Wherever a crash cuts a commit, the next start finds the payload from before or the new one. */
  lemma SyncCrash(v: Volume, log0: seq<Machine>, log: seq<Machine>, payload: seq<Snapshot.byte>, k: nat, image: Image)
    requires StoreProtocol.VolumeOk(v) && FaultyRun(v, log) && Committing(v, log0, log, payload)
    requires |log0| - 1 <= k < |log| && CrashImage(log[k].disk, image)
    ensures
      var m := log0[|log0| - 1];
      || Recovered(v, image) == NewestPayload(m) || Recovered(v, image) == Some(payload)
      || (CandidateWins(m) && Recovered(v, image) == Some(m.candidate.value.payload))
  {
    hide FaultyRun, CrashImage, Recovered, DataKept, DataDurable;
    FoundAt(v, log, k, image);
    assert CommitPoint(v, log0[|log0| - 1], log[k], payload);
  }

  /** What the kernel makes of a payload on an empty volume. */
  ghost predicate Rebuilds(f: FsImport.Files, volumes: seq<nat>, root: nat, payload: seq<Snapshot.byte>,
      entries: set<FsStream.Record>)
    requires FsImport.Ready(f, volumes, root, [])
  {
    && FsStream.ReadPayload(payload, Path(f.tree, root).value).Some?
    && var rs := FsStream.ReadPayload(payload, Path(f.tree, root).value).value;
       FsImport.Build(f, volumes, rs, |rs|).Some?
       && var g := FsImport.Build(f, volumes, rs, |rs|).value;
          WellFormed(g.tree) && Entries(g.tree, StoredFiles(g.backing, payload), root) == entries
  }

  /** Without a new header only what was committed can come back. */
  lemma OnlyCommitted(v: Volume, log0: seq<Machine>, log: seq<Machine>, k: nat, image: Image)
    requires StoreProtocol.VolumeOk(v) && FaultyRun(v, log) && Continues(v, log0, log)
    requires !CandidateWins(log0[|log0| - 1])
    requires |log0| - 1 <= k < |log| && CrashImage(log[k].disk, image)
    ensures Recovered(v, image) == NewestPayload(log0[|log0| - 1])
  {
    hide FaultyRun, CrashImage, Recovered, DataKept;
    FoundAt(v, log, k, image);
    assert Working(v, log0[|log0| - 1], log[k]);
  }

  /** The entries of a saved volume come back from its payload. */
  lemma SavedRebuilds(t: Tree, files: seq<seq<Snapshot.byte>>, root: nat, payload: seq<Snapshot.byte>, order: seq<nat>,
      f: FsImport.Files, volumes: seq<nat>, root': nat)
    requires Saves(t, files, root, payload, order) && FsImport.Ready(f, volumes, root', [])
    requires Path(f.tree, root') == Path(t, root) && FsImport.LiveCount(f.tree, 512) + |order| <= 512
    ensures |files| == 512 && Rebuilds(f, volumes, root', payload, Entries(t, files, root))
  {
    hide Path, WellFormed, Exported, FsStream.ReadPayload, FsImport.Build, FsStream.Payload, RecordOf, StoredFiles,
      FsImport.Ready;
    ExportImport(t, files, root, order, f, volumes, root');
  }

  /** A volume with its contents, as a commit saves it. */
  datatype SavedVolume = SavedVolume(t: Tree, files: seq<seq<Snapshot.byte>>, root: nat, order: seq<nat>)

  ghost predicate SavedIn(w: SavedVolume, payload: seq<Snapshot.byte>, prefix: string) {
    Saves(w.t, w.files, w.root, payload, w.order) && w.root < 512 && Path(w.t, w.root) == Some(prefix)
  }

  /** What the importer makes of the payload of a saved volume where there is room: the same entries. */
  ghost predicate ComesBack(w: SavedVolume, payload: seq<Snapshot.byte>, f: FsImport.Files, volumes: seq<nat>,
      root: nat)
    requires FsImport.Ready(f, volumes, root, [])
  {
    FsImport.LiveCount(f.tree, 512) + |w.order| <= 512 ==>
      |w.files| == 512 && Rebuilds(f, volumes, root, payload, Entries(w.t, w.files, w.root))
  }

  /** A committed volume, its power lost at any moment of the next commit, comes back from the disk with the same files
      and directories and the same contents; or the volume of the next commit does. */
  lemma CommittedComesBack(
      v: Volume, log0: seq<Machine>, log: seq<Machine>, k: nat, image: Image, prefix: string,
      was: SavedVolume, payload: seq<Snapshot.byte>, next: SavedVolume, payload': seq<Snapshot.byte>,
      f: FsImport.Files, volumes: seq<nat>, root: nat)
    requires StoreProtocol.VolumeOk(v) && FaultyRun(v, log) && Committing(v, log0, log, payload')
    requires SavedIn(next, payload', prefix) || Continues(v, log0, log)
    requires |log0| - 1 <= k < |log| && CrashImage(log[k].disk, image)
    requires NewestPayload(log0[|log0| - 1]) == Some(payload) && !CandidateWins(log0[|log0| - 1])
    requires SavedIn(was, payload, prefix)
    requires FsImport.Ready(f, volumes, root, []) && Path(f.tree, root) == Some(prefix)
    ensures
      || (Recovered(v, image) == Some(payload) && ComesBack(was, payload, f, volumes, root))
      || (Recovered(v, image) == Some(payload') && SavedIn(next, payload', prefix) && ComesBack(next, payload', f, volumes, root))
  {
    hide FaultyRun, CrashImage, Recovered, Committing, Continues, CandidateWins, Path, WellFormed, Saves, Rebuilds,
      Entries, FsImport.Ready, FsImport.LiveCount;
    if Continues(v, log0, log) {
      OnlyCommitted(v, log0, log, k, image);
    } else {
      SyncCrash(v, log0, log, payload', k, image);
    }
    BackOf(was, payload, prefix, f, volumes, root);
    if SavedIn(next, payload', prefix) { BackOf(next, payload', prefix, f, volumes, root); }
  }

  lemma BackOf(w: SavedVolume, payload: seq<Snapshot.byte>, prefix: string, f: FsImport.Files, volumes: seq<nat>,
      root: nat)
    requires SavedIn(w, payload, prefix) && FsImport.Ready(f, volumes, root, []) && Path(f.tree, root) == Some(prefix)
    ensures ComesBack(w, payload, f, volumes, root)
  {
    hide Path, WellFormed, Saves, Rebuilds, Entries, FsImport.Ready, FsImport.LiveCount;
    if FsImport.LiveCount(f.tree, 512) + |w.order| <= 512 {
      SavedRebuilds(w.t, w.files, w.root, payload, w.order, f, volumes, root);
    }
  }

  // ----- Any number of commits -----

  ghost predicate IsVolume(payload: seq<Snapshot.byte>, prefix: string) { exists w: SavedVolume :: SavedIn(w, payload,
      prefix) }

  /** All that a slot may hold are volumes that were saved. */
  ghost predicate OnlyVolumes(m: Machine, prefix: string) {
    && (m.committed.Some? ==> IsVolume(m.committed.value.payload, prefix))
    && (m.candidate.Some? ==> IsVolume(m.candidate.value.payload, prefix))
  }

  ghost predicate AllVolumes(log: seq<Machine>, from: nat, prefix: string) {
    forall k :: from <= k < |log| ==> OnlyVolumes(log[k], prefix)
  }

  /** Every point of a commit has only volumes in its slots, if there was nothing else before. */
  lemma SyncOnlyVolumes(v: Volume, log0: seq<Machine>, log: seq<Machine>, payload: seq<Snapshot.byte>, prefix: string)
    requires Committing(v, log0, log, payload) && OnlyVolumes(log0[|log0| - 1], prefix)
    requires IsVolume(payload, prefix) || Continues(v, log0, log)
    ensures AllVolumes(log, |log0| - 1, prefix)
  {
    hide IsVolume, DataKept, DataDurable;
    forall k | |log0| - 1 <= k < |log| ensures OnlyVolumes(log[k], prefix) {
      assert CommitPoint(v, log0[|log0| - 1], log[k], payload);
      if Continues(v, log0, log) { assert Working(v, log0[|log0| - 1], log[k]); }
    }
  }

  /** A start adds nothing, whatever it can read. */
  lemma StartOnlyVolumes(v: Volume, m: Machine, m': Machine, prefix: string)
    requires FaultyStep(v, m, m') && m.phase == Idle && OnlyVolumes(m, prefix)
    ensures OnlyVolumes(m', prefix)
  {
    hide IsVolume, FaultyStep;
    SavedOrigin(v, m, m');
  }

  /** After any number of commits, failures, crashes and starts: what a crash leaves is nothing, or a whole volume that
      was saved, and the importer rebuilds exactly that volume. */
  lemma CrashFindsVolume(
      v: Volume, run: seq<Machine>, k: nat, image: Image, prefix: string, f: FsImport.Files, volumes: seq<nat>,
      root: nat)
    requires StoreProtocol.VolumeOk(v) && FaultyRun(v, run) && k < |run| && CrashImage(run[k].disk, image)
    requires OnlyVolumes(run[k], prefix) && FsImport.Ready(f, volumes, root, []) && Path(f.tree, root) == Some(prefix)
    ensures
      Recovered(v, image).Some? ==>
        exists w: SavedVolume :: SavedIn(w, Recovered(v, image).value, prefix)
                           && ComesBack(w, Recovered(v, image).value, f, volumes, root)
  {
    hide FaultyRun, CrashImage, Recovered, Path, SavedIn, ComesBack, FsImport.Ready;
    FoundAt(v, run, k, image);
    if Recovered(v, image).Some? {
      var payload := Recovered(v, image).value;
      assert IsVolume(payload, prefix);
      var w: SavedVolume :| SavedIn(w, payload, prefix);
      BackOf(w, payload, prefix, f, volumes, root);
    }
  }
}
