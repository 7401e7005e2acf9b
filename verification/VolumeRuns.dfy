/** Any sequence of writes, creations, removals, renames, commits and losses of power, from the first start on. */
module VolumeRuns {
  import opened Wrappers
  import Snapshot
  import opened StoreProtocol
  import StoreMount
  import opened Store
  import opened StoreRuns
  import opened FsTree
  import opened FsEdits
  import opened FsStart
  import opened FileTree
  import FsStream
  import opened FsExport
  import FsImport
  import opened FsRoundTrip
  import PagedFile
  import opened FileData
  import VolumeExport
  import opened VolumeImport
  import opened VolumeCommit
  import opened VolumeStart
  import FullVolume
  import opened FsVolume
  import opened VolumeActs

  // ----- What the disk may give back -----

  /** A payload, or no snapshot, stands for one of these sets of records; a payload fits beside the nodes of a start. */
  ghost predicate StandsFor(p: Option<seq<Snapshot.byte>>, may: set<set<FsStream.Record>>, apps: seq<string>) {
    match p
    case None => {} in may
    case Some(b) => exists w: SavedVolume :: SavedAs(w, b, may, apps)
  }

  ghost predicate SavedAs(w: SavedVolume, b: seq<Snapshot.byte>, may: set<set<FsStream.Record>>, apps: seq<string>) {
    && SavedIn(w, b, "/home") && |w.files| == 512 && Entries(w.t, w.files, w.root) in may
    && |w.order| + |StartNodes(apps, 1)| <= 512
  }

  ghost predicate Covered(m: Machine, may: set<set<FsStream.Record>>, apps: seq<string>) {
    && StandsFor(NewestPayload(m), may, apps)
    && (CandidateWins(m) ==> StandsFor(Some(m.candidate.value.payload), may, apps))
  }

  lemma MoreCovered(m: Machine, may: set<set<FsStream.Record>>, may': set<set<FsStream.Record>>, apps: seq<string>)
    requires Covered(m, may, apps) && may <= may'
    ensures Covered(m, may', apps)
  {
    hide SavedIn, Entries, StartNodes;
    if NewestPayload(m).Some? { MoreSaved(NewestPayload(m).value, may, may', apps); }
    if CandidateWins(m) { MoreSaved(m.candidate.value.payload, may, may', apps); }
  }

  lemma MoreSaved(b: seq<Snapshot.byte>, may: set<set<FsStream.Record>>, may': set<set<FsStream.Record>>,
      apps: seq<string>)
    requires StandsFor(Some(b), may, apps) && may <= may'
    ensures StandsFor(Some(b), may', apps)
  {
    hide SavedIn, Entries, StartNodes;
    var w: SavedVolume :| SavedAs(w, b, may, apps);
    assert SavedAs(w, b, may', apps);
  }

  /** A commit that did not succeed may have added what it was writing. */
  lemma FailedCommit(v: Volume, log0: seq<Machine>, log: seq<Machine>, payload: seq<Snapshot.byte>,
      may: set<set<FsStream.Record>>,
      shown: set<FsStream.Record>, w: SavedVolume, apps: seq<string>)
    requires Committing(v, log0, log, payload) && Covered(log0[|log0| - 1], may, apps)
    requires SavedAs(w, payload, {shown}, apps) || Continues(v, log0, log)
    requires log != [] && log[|log| - 1].committed == log0[|log0| - 1].committed
    ensures Covered(log[|log| - 1], may + {shown}, apps)
  {
    hide SavedIn, Entries, StartNodes, DataKept, DataDurable;
    var m0, m := log0[|log0| - 1], log[|log| - 1];
    MoreCovered(m0, may, may + {shown}, apps);
    assert CommitPoint(v, m0, m, payload);
    if Continues(v, log0, log) { assert Working(v, m0, m); }
    else { assert SavedAs(w, payload, may + {shown}, apps); }
  }

  /** What a start finds is covered. */
  lemma FoundCovered(v: Volume, run: seq<Machine>, image: Image, may: set<set<FsStream.Record>>, apps: seq<string>)
    requires StoreProtocol.VolumeOk(v) && FaultyRun(v, run) && run != [] && CrashImage(run[|run| - 1].disk, image)
    requires Covered(run[|run| - 1], may, apps)
    ensures StandsFor(Recovered(v, image), may, apps)
  {
    hide FaultyRun, CrashImage, Recovered, SavedIn;
    FoundAt(v, run, |run| - 1, image);
  }

  /** A payload that stands for a set of records is imported again, and gives that set. */
  lemma SavedImports(w: SavedVolume, b: seq<Snapshot.byte>, may: set<set<FsStream.Record>>, apps: seq<string>)
    requires SavedAs(w, b, may, apps)
    ensures FsStream.ReadPayload(b, "/home").Some? && RecordSet(FsStream.ReadPayload(b, "/home").value) in may
    ensures ImportOutcome(b, "/home", 512 - |StartNodes(apps, 1)|) == StoreMount.Good
  {
    hide WellFormed, Path, FsExport.VolumeOk, Ordered, Entries, RecordSet, FsStream.ReadPayload, StartNodes,
      FsStream.Payload, RecordOf, Importable, Snapshot.Word;
    ExportImportable(w.t, w.files, w.root, w.order);
    ExportedEntries(w.t, w.files, w.root, w.order);
    PayloadCount(b, "/home");
  }

  lemma PayloadCount(b: seq<Snapshot.byte>, prefix: string)
    requires FsStream.ReadPayload(b, prefix).Some?
    ensures |b| >= 4 && |FsStream.ReadPayload(b, prefix).value| == Snapshot.Word(b, 0)
  {
    hide FsStream.Read, Snapshot.Word;
  }

  /** The importer of the volume is that of the kernel. */
  ghost predicate HomeImports(v: Volume) {
    forall p: seq<Snapshot.byte> :: v.imports(p) <==> Importable(p, "/home")
  }

  lemma HomeImporter(v: Volume, room: nat)
    requires HomeImports(v)
    ensures StoreMount.Importer(v, KernelImporter("/home", room))
  {
    hide FsStream.ReadPayload, Snapshot.Word, FsImport.Welcome;
    forall p: seq<Snapshot.byte> | |p| < 4 ensures !Importable(p, "/home") { ShortPayload(p, "/home"); }
  }

  /** The programs of the archive have names of bytes. */
  predicate PlainArchive(apps: seq<string>) {
    Archive(apps) && forall i :: 0 <= i < |apps| ==> FsStream.Plain(apps[i])
  }

  lemma PlainStart(apps: seq<string>)
    requires PlainArchive(apps)
    ensures forall k :: 0 <= k < |StartNodes(apps, 1)| ==> FsStream.Plain(StartNodes(apps, 1)[k].name)
  {
    hide StartNodes, INITIAL, ValidName;
    StartParts(apps, 1);
    PlainInitial();
  }

  lemma PlainInitial()
    ensures forall k :: 0 <= k < 15 ==> FsStream.Plain(INITIAL[k].name)
  {
  }

  // ----- A running kernel -----

  /** The store is idle and in order, and what a crash may bring back is known. */
  ghost predicate StoreReady(store: VolumeState, may: set<set<FsStream.Record>>, apps: seq<string>)
    reads store
  {
    store.Ready() && store.restoreError == StoreMount.Good && Covered(store.Now(), may, apps)
  }

  /** The node table has the nodes of the start, and /home for its only volume. */
  ghost predicate TableRuns(v: Volumes, apps: seq<string>)
    reads v, v.table, v.table.nodes, v.backing
  {
    v.Valid() && v.table.volumes == [HOME] && StartStays(v.table.T(), apps)
  }

  /** The nodes show their contents, and share nothing. */
  ghost predicate NodesRun(store: VolumeState, t: Tree, nodes: seq<FileData.File>, files: seq<seq<Snapshot.byte>>)
    reads store, set n | 0 <= n < |nodes| :: nodes[n], set n | 0 <= n < |nodes| :: nodes[n].pages,
      set n | 0 <= n < |nodes| && nodes[n].data != null :: nodes[n].data, set n | 0 <= n < |nodes| :: nodes[n].store
  {
    && |nodes| == 512 && |files| == 512
    && Usable(store, t, HOME, nodes, files) && Separate(nodes) && forall n :: 0 <= n < |nodes| ==> nodes[n].store == store
  }

  /** 512 nodes without contents. */
  method EmptyNodes(store: VolumeState) returns (nodes: seq<FileData.File>)
    ensures |nodes| == 512 && Separate(nodes)
    ensures forall n :: 0 <= n < 512 ==> fresh(nodes[n]) && fresh(nodes[n].pages) && nodes[n].data == null
    ensures forall n :: 0 <= n < 512 ==> nodes[n].store == store && nodes[n].backing == PagedFile.Unbacked
    ensures VolumeExport.Holding(nodes, seq(512, _ => []))
  {
    hide FileData.File.Valid, FileData.File.Contents;
    nodes := [];
    for i := 0 to 512
      invariant |nodes| == i && Separate(nodes)
      invariant forall n :: 0 <= n < i ==> fresh(nodes[n]) && fresh(nodes[n].pages) && nodes[n].data == null
      invariant forall n :: 0 <= n < i ==>
                  && nodes[n].store == store && nodes[n].backing == PagedFile.Unbacked && nodes[n].Valid()
                  && nodes[n].Contents() == []
    {
      var f := new FileData.File(store);
      nodes := nodes + [f];
    }
  }

  // ----- A loss of power and a start -----

  /** What a start makes before it mounts the volume. */
  ghost predicate JustStarted(t: Tree, apps: seq<string>) {
    && WellFormed(t) && StartStays(t, apps) && (forall n: nat :: n < 512 && Live(t, n) ==> n < |StartNodes(apps, 1)|)
    && FsImport.EmptyVolume(t, HOME) && Path(t, HOME) == Some("/home") && AllPlain(t)
    && FsImport.LiveCount(t, 512) == |StartNodes(apps, 1)|
  }

  method StartTable(apps: seq<string>) returns (v: Volumes)
    requires PlainArchive(apps)
    ensures fresh(v) && fresh(v.table) && fresh(v.table.nodes) && fresh(v.backing) && fresh(v.slots)
    ensures TableRuns(v, apps) && JustStarted(v.table.T(), apps)
  {
    hide WellFormed, Path, StartNodes, FsImport.LiveCount, FsImport.EmptyVolume, VolumesOk, PlainArchive,
      FsStream.Plain;
    PlainIsArchive(apps);
    var table := new Table(apps, 1);
    v := new Volumes(table);
    FullVolume.StartHome(table.T(), apps, 1);
    FullVolume.HomePathIs(table.T());
    PlainStart(apps);
    assert Roots(apps, 1) == [HOME];
    assert |StartNodes(apps, 1)| <= 512;
  }

  lemma PlainIsArchive(apps: seq<string>)
    requires PlainArchive(apps)
    ensures Archive(apps)
  {
  }

  /** The records that an importable payload, or no payload, stands for. */
  ghost function Stands(p: Option<seq<Snapshot.byte>>): set<FsStream.Record> {
    if p.Some? && FsStream.ReadPayload(p.value, "/home").Some? then RecordSet(FsStream.ReadPayload(p.value, "/home").value) else {}
  }

  /** The payload that a start finds is imported, and then only that can come back. */
  lemma FoundImports(m: Machine, p: Option<seq<Snapshot.byte>>, may: set<set<FsStream.Record>>, apps: seq<string>)
    requires StandsFor(p, may, apps) && NewestPayload(m) == p && !CandidateWins(m)
    ensures p.Some? ==> ImportOutcome(p.value, "/home", 512 - |StartNodes(apps, 1)|) == StoreMount.Good
    ensures Stands(p) in may && Covered(m, {Stands(p)}, apps)
  {
    hide SavedIn, Entries, StartNodes, ImportOutcome, RecordSet, FsStream.ReadPayload;
    if p.Some? {
      var w: SavedVolume :| SavedAs(w, p.value, may, apps);
      SavedImports(w, p.value, may, apps);
      SavedImports(w, p.value, {Entries(w.t, w.files, w.root)}, apps);
      assert SavedAs(w, p.value, {Entries(w.t, w.files, w.root)}, apps);
    }
  }

  lemma EmptyUsable(store: VolumeState, t: Tree, nodes: seq<FileData.File>, apps: seq<string>)
    requires JustStarted(t, apps) && VolumesOk(t, [HOME]) && |nodes| == 512 && Separate(nodes)
    requires forall n :: 0 <= n < 512 ==> nodes[n].store == store && nodes[n].backing == PagedFile.Unbacked
    requires VolumeExport.Holding(nodes, seq(512, _ => []))
    ensures NodesRun(store, t, nodes, seq(512, _ => [])) && Entries(t, seq(512, _ => []), HOME) == {}
  {
    hide WellFormed, Path, Inner, StartNodes, FsImport.LiveCount, FileData.File.Valid, FileData.File.Contents;
    assert [HOME][0] == HOME;
  }

  lemma ActiveIs(store: VolumeState)
    requires store.Ready() && store.restoreError == StoreMount.Good
    ensures store.activeSlot >= 0 <==> store.Now().committed.Some?
  {
    hide FaultyRun, Holds, OtherSlot, Neighbours, PhaseOk, Settled;
  }

  /** The start after the volume has been found. */
  method MountHome(store: VolumeState, v: Volumes, apps: seq<string>, ghost payload: Option<seq<Snapshot.byte>>)
    returns (nodes: seq<FileData.File>, ghost files: seq<seq<Snapshot.byte>>)
    requires store.Ready() && store.restoreError == StoreMount.Good && NewestPayload(store.Now()) == payload
    requires TableRuns(v, apps) && JustStarted(v.table.T(), apps) && Archive(apps)
    requires payload.Some? ==> ImportOutcome(payload.value, "/home", 512 - |StartNodes(apps, 1)|) == StoreMount.Good
    modifies v.table.nodes, v.backing, v.slots
    ensures TableRuns(v, apps) && StartOnly(v.table.T(), apps)
    ensures NodesRun(store, v.table.T(), nodes, files)
    ensures forall n :: 0 <= n < |nodes| ==> fresh(nodes[n]) && fresh(nodes[n].pages) && nodes[n].data == null
    ensures |files| == 512 && Entries(v.table.T(), files, HOME) == Stands(payload)
  {
    hide WellFormed, Path, StartNodes, FsImport.LiveCount, FsImport.EmptyVolume, VolumesOk, FsStream.Plain,
      FileData.File.Valid, FileData.File.Contents, ImportOutcome, Entries, RecordSet, FsStream.ReadPayload,
      VolumeState.Valid, VolumeExport.Holding, Usable, Inner, Archive;
    assert v.table.volumes[0] == HOME;
    nodes := EmptyNodes(store);
    files := seq(512, _ => []);
    ActiveIs(store);
    StartMade(apps);
    if store.activeSlot >= 0 {
      var r;
      r, nodes, files := RestoreVolume({}, store, v, 0, nodes, files, payload.value);
      assert r == VolumeExport.Done;
    } else {
      EmptyUsable(store, v.table.T(), nodes, apps);
    }
  }

  /** What the nodes consist of. */
  ghost function Parts(nodes: seq<FileData.File>): set<object>
    reads set n | 0 <= n < |nodes| :: nodes[n]
  {
    (set n | 0 <= n < |nodes| :: nodes[n] as object) + (set n | 0 <= n < |nodes| :: nodes[n].pages as object)
    + (set n | 0 <= n < |nodes| && nodes[n].data != null :: nodes[n].data as object)
  }

  /** Power is lost, keeping some of the writes that were not flushed, and the kernel starts again. */
  method Start(store: VolumeState, kept: nat -> bool, apps: seq<string>, ghost may: set<set<FsStream.Record>>)
    returns (v: Volumes, nodes: seq<FileData.File>, ghost files: seq<seq<Snapshot.byte>>)
    requires store.log != [] && store.Valid() && Covered(store.Now(), may, apps) && HomeImports(store.v)
    requires PlainArchive(apps)
    modifies store`disk, store`log, store`activeSlot, store`generation, store`restoreError
    ensures fresh(v) && fresh(v.table) && fresh(v.table.nodes) && fresh(v.backing) && fresh(v.slots)
    ensures fresh(Parts(nodes))
    ensures TableRuns(v, apps) && StartOnly(v.table.T(), apps) && NodesRun(store, v.table.T(), nodes, files)
    ensures |files| == 512 && Entries(v.table.T(), files, HOME) in may
    ensures StoreReady(store, {Entries(v.table.T(), files, HOME)}, apps)
  {
    hide WellFormed, Path, StartNodes, FsImport.LiveCount, Covered, StandsFor, ImportOutcome, Entries,
      VolumeState.Valid, Recovered, CrashImage, FaultyRun, Stands, NodesRun, StartOnly, HomeImports, PlainArchive,
      CandidateWins, StartStays;
    PlainIsArchive(apps);
    v := StartTable(apps);
    var used := v.NodeCount();
    HomeImporter(store.v, 512 - used);
    store.NowIs();
    ghost var log0 := store.log;
    VolumeStart.Reboot(store, seq(|store.disk.unflushed|, i requires i >= 0 => kept(i)),
      KernelImporter("/home", 512 - used));
    ghost var found := Recovered(store.v, store.disk.durable);
    FoundCovered(store.v, log0, store.disk.durable, may, apps);
    FoundAccepted(found, may, apps);
    FoundImports(store.Now(), found, may, apps);
    nodes, files := MountHome(store, v, apps, found);
  }

  lemma FoundAccepted(p: Option<seq<Snapshot.byte>>, may: set<set<FsStream.Record>>, apps: seq<string>)
    requires StandsFor(p, may, apps)
    ensures p.Some? ==> ImportOutcome(p.value, "/home", 512 - |StartNodes(apps, 1)|) == StoreMount.Good
  {
    hide SavedAs, StartNodes, ImportOutcome;
    if p.Some? {
      var w: SavedVolume :| SavedAs(w, p.value, may, apps);
      SavedImports(w, p.value, may, apps);
    }
  }

  // ----- A commit -----

  /** The nodes of the volume leave room for those of a start. */
  lemma {:induction false} RoomLeft(t: Tree, apps: seq<string>, m: nat)
    requires m <= 512 && |StartNodes(apps, 1)| <= 512 && forall k :: 0 <= k < |StartNodes(apps, 1)| ==>
               !Inner(t, HOME, k)
    ensures VolumeExport.Count(t, HOME, m) + (if m < |StartNodes(apps, 1)| then m else |StartNodes(apps, 1)|) <= m
  {
    hide Inner, StartNodes;
    if m > 0 { RoomLeft(t, apps, m - 1); }
  }

  /** No node of the start lies in the volume. */
  lemma {:induction false} StartOutside(t: Tree, apps: seq<string>, n: nat, k: nat)
    requires Archive(apps) && StartStays(t, apps) && n < |StartNodes(apps, 1)| && Under(t, n, HOME, k)
    ensures n == HOME
    decreases k
  {
    hide StartNodes, INITIAL, Laid;
    StartParts(apps, 1);
    if n != 0 && n != HOME {
      StartLaid(apps, 1, n);
      LaidParent(StartNodes(apps, 1), n);
      StartOutside(t, apps, t[n].parent, k - 1);
      StartAbove(apps, n);
    }
  }

  lemma StartAbove(apps: seq<string>, n: nat)
    requires n < |StartNodes(apps, 1)|
    ensures StartNodes(apps, 1)[n].parent != HOME
  {
    hide StartNodes, INITIAL;
    StartParts(apps, 1);
    if n < 15 { InitialTop(n); }
  }

  lemma SavedFits(t: Tree, files: seq<seq<Snapshot.byte>>, payload: seq<Snapshot.byte>, order: seq<nat>,
      apps: seq<string>)
    requires Saves(t, files, HOME, payload, order) && Path(t, HOME) == Some("/home") && Archive(apps)
    requires StartStays(t, apps)
    ensures SavedAs(SavedVolume(t, files, HOME, order), payload, {Entries(t, files, HOME)}, apps)
  {
    hide WellFormed, Path, FsExport.VolumeOk, StartNodes, Inner, ParentEarlier, FsStream.Payload, FsStream.Writable;
    VolumeExport.SameSum(t, files, HOME, order, 512);
    forall k: nat | k < |StartNodes(apps, 1)| ensures !Inner(t, HOME, k) {
      if Inner(t, HOME, k) { InnerUnder(t, k); StartOutside(t, apps, k, 511); assert false; }
    }
    RoomLeft(t, apps, 512);
  }

  lemma InnerUnder(t: Tree, k: nat)
    requires Inner(t, HOME, k)
    ensures k < 512 && k != HOME && Under(t, k, HOME, 511)
  {
  }

  lemma HomeThere(t: Tree, apps: seq<string>)
    requires StartStays(t, apps)
    ensures Path(t, HOME) == Some("/home") && Live(t, HOME) && t[HOME].kind == Directory
  {
    hide StartNodes, INITIAL, Path;
    StartParts(apps, 1);
    HomeNode();
    FullVolume.HomePathIs(t);
  }

  lemma HomeKernel(v: Volume, t: Tree)
    requires HomeImports(v) && Path(t, HOME) == Some("/home")
    ensures KernelImports(v, t, HOME)
  {
    hide Path, Importable;
  }

  /** A commit of /home. */
  method CommitHome(reliable: bool, bad: set<nat>, store: VolumeState, v: Volumes, nodes: seq<FileData.File>,
      ghost files: seq<seq<Snapshot.byte>>, ghost may: set<set<FsStream.Record>>, apps: seq<string>)
    returns (done: bool)
    requires StoreReady(store, may, apps) && TableRuns(v, apps) && NodesRun(store, v.table.T(), nodes, files)
    requires HomeImports(store.v) && Archive(apps) && (reliable ==> bad == {})
    modifies store`disk, store`log, store`activeSlot, store`generation, set n | 0 <= n < |nodes| :: nodes[n]
    ensures NodesRun(store, v.table.T(), nodes, files)
    ensures StoreReady(store, if done then {Entries(v.table.T(), files, HOME)} else may + {Entries(v.table.T(), files, HOME)}, apps)
    ensures reliable ==> (done <==> VolumeExport.Total(v.table.T(), files, HOME, 512) <= store.v.cap)
    ensures forall n :: 0 <= n < |nodes| ==> nodes[n].pages == old(nodes[n].pages) || fresh(nodes[n].pages)
    ensures forall n :: 0 <= n < |nodes| ==> nodes[n].data == old(nodes[n].data) || nodes[n].data == null
  {
    hide WellFormed, Path, StartNodes, Inner, VolumeState.Valid, Saves, SavedAs, Entries, Continues, Committing,
      VolumesOk, FsExport.VolumeOk, VolumeExport.Holding, Backings, Separate, KernelImports, HomeImports, Archive,
      CandidateWins, OnlyVolumes, AllVolumes, VolumeExport.Total, FileData.File.Valid, FileData.File.Contents,
      StartStays, Covered;
    ghost var t, log0 := v.table.T(), store.log;
    HomeThere(t, apps);
    HomeKernel(store.v, t);
    assert v.table.volumes[0] == HOME;
    var r;
    ghost var order, payload;
    r, order, payload := SyncVolume(reliable, bad, store, v.table, 0, nodes, files);
    done := r == StoreMount.Good;
    CommitCovered(store, log0, t, files, payload, order, may, done, apps);
  }

  lemma CommitCovered(store: VolumeState, log0: seq<Machine>, t: Tree, files: seq<seq<Snapshot.byte>>,
      payload: seq<Snapshot.byte>,
      order: seq<nat>, may: set<set<FsStream.Record>>, done: bool, apps: seq<string>)
    requires store.log != [] && |files| == 512 && Path(t, HOME) == Some("/home") && Archive(apps) && StartStays(t, apps)
    requires Committing(store.v, log0, store.log, payload) && log0 != [] && Covered(log0[|log0| - 1], may, apps)
    requires Saves(t, files, HOME, payload, order) || Continues(store.v, log0, store.log)
    requires done ==>
               && NewestPayload(store.Now()) == Some(payload) && Saves(t, files, HOME, payload, order)
               && !CandidateWins(store.Now())
    requires !done ==> store.Now().committed == log0[|log0| - 1].committed
    ensures Covered(store.Now(), if done then {Entries(t, files, HOME)} else may + {Entries(t, files, HOME)}, apps)
  {
    hide Path, StartNodes, Inner, Saves, SavedAs, Entries, Continues, Committing, CandidateWins, StartStays;
    var w := SavedVolume(t, files, HOME, order);
    if Saves(t, files, HOME, payload, order) { SavedFits(t, files, payload, order, apps); }
    if !done { FailedCommit(store.v, log0, store.log, payload, may, Entries(t, files, HOME), w, apps); }
  }

  // ----- Operations on paths -----

  /** A node starts again without contents; the other nodes of the volume stay in it. */
  lemma NodeRenewed(store: VolumeState, t: Tree, t': Tree, nodes: seq<FileData.File>, files: seq<seq<Snapshot.byte>>,
      i: nat, f: FileData.File)
    requires NodesRun(store, t, nodes, files) && i < 512 && FsExport.VolumeOk(t', files[i := []], HOME)
    requires f.store == store && f.backing == PagedFile.Unbacked && f.data == null && f.Valid() && f.Contents() == []
    requires forall n :: 0 <= n < 512 ==> nodes[n] != f && nodes[n].pages != f.pages
    requires forall m: nat :: m < 512 && m != i ==>
               (Inner(t', HOME, m) <==> Inner(t, HOME, m)) && t'[m].kind == t[m].kind
    ensures NodesRun(store, t', nodes[i := f], files[i := []])
  {
    hide Inner, FsExport.VolumeOk, FileData.File.Valid, FileData.File.Contents, FileData.File.Current;
    InnerSmall(t);
    InnerSmall(t');
  }

  lemma InnerSmall(t: Tree)
    ensures forall m: nat :: Inner(t, HOME, m) ==> m < 512
  {
  }

  /** All nodes stay; the volume has the same ones. */
  lemma NodesMoved(store: VolumeState, t: Tree, t': Tree, nodes: seq<FileData.File>, files: seq<seq<Snapshot.byte>>)
    requires NodesRun(store, t, nodes, files) && FsExport.VolumeOk(t', files, HOME)
    requires forall m: nat :: m < 512 ==> (Inner(t', HOME, m) <==> Inner(t, HOME, m)) && t'[m].kind == t[m].kind
    ensures NodesRun(store, t', nodes, files)
  {
    hide Inner, FsExport.VolumeOk, FileData.File.Valid, FileData.File.Contents, FileData.File.Current, Separate;
    InnerSmall(t);
    InnerSmall(t');
  }

  lemma RunKept(store: VolumeState, t: Tree, nodes: seq<FileData.File>, files: seq<seq<Snapshot.byte>>,
      may: set<set<FsStream.Record>>,
      apps: seq<string>)
    requires NodesRun(store, t, nodes, files) && StartStays(t, apps)
    ensures StateKept(State(t, files, may), apps)
  {
    hide Inner, FsExport.VolumeOk;
  }

  /** A file or a directory is made. */
  method MakeNode(store: VolumeState, v: Volumes, nodes: seq<FileData.File>, op: Op, apps: seq<string>,
      ghost files: seq<seq<Snapshot.byte>>, ghost may: set<set<FsStream.Record>>)
    returns (done: bool, next: seq<FileData.File>, ghost shown: seq<seq<Snapshot.byte>>)
    requires op.Make? && OpOk(op) && TableRuns(v, apps) && NodesRun(store, v.table.T(), nodes, files) && Archive(apps)
    modifies v.table.nodes
    ensures TableRuns(v, apps) && NodesRun(store, v.table.T(), next, shown) && |files| == 512
    ensures Makes(op, done, State(old(v.table.T()), files, may), State(v.table.T(), shown, may))
    ensures forall n :: 0 <= n < 512 ==>
              next[n] in nodes || (fresh(next[n]) && fresh(next[n].pages) && next[n].data == null)
  {
    hide WellFormed, Lookup, Parent, Path, Child, FirstFree, CreateAllowed, Inner, StateKept, StartStays, VolumesOk,
      Usable, Separate, FileData.File.Valid, FileData.File.Contents, OpOk, Archive, FsExport.VolumeOk, Target;
    ghost var t, s := v.table.T(), State(v.table.T(), files, may);
    RunKept(store, t, nodes, files, may, apps);
    TargetIs(t, op.path);
    KindThere(op);
    HomeThere(t, apps);
    var r := v.table.CreateNode(0, op.path, op.kind);
    done, next, shown := r.Ok?, nodes, files;
    if done {
      var f := new FileData.File(store);
      next, shown := nodes[r.value := f], files[r.value := []];
      assert Makes(op, true, s, State(v.table.T(), shown, may));
      MakeKeeps(op, true, s, State(v.table.T(), shown, may), apps);
      KeptVolume(State(v.table.T(), shown, may), apps);
      CreatedInner(t, r.value, Target(t, op.path).value.parent, Target(t, op.path).value.name, op.kind, HOME);
      NodeRenewed(store, t, v.table.T(), nodes, files, r.value, f);
    }
  }

  lemma KeptVolume(s: State, apps: seq<string>)
    requires StateKept(s, apps)
    ensures FsExport.VolumeOk(s.t, s.files, HOME) && StartStays(s.t, apps)
  {
  }

  lemma TargetIs(t: Tree, path: string)
    ensures Target(t, path) == Parent(t, [HOME], 0, path)
  {
  }

  lemma KindThere(op: Op)
    requires op.Make? && OpOk(op)
    ensures op.kind != Unused
  {
    hide FsStream.Plain;
  }

  /** A file or an empty directory is removed. */
  method DeleteNode(store: VolumeState, v: Volumes, nodes: seq<FileData.File>, op: Op, apps: seq<string>,
      ghost files: seq<seq<Snapshot.byte>>, ghost may: set<set<FsStream.Record>>)
    returns (done: bool, next: seq<FileData.File>, ghost shown: seq<seq<Snapshot.byte>>)
    requires op.Delete? && TableRuns(v, apps) && NodesRun(store, v.table.T(), nodes, files) && Archive(apps)
    modifies v.table.nodes
    ensures TableRuns(v, apps) && NodesRun(store, v.table.T(), next, shown) && |files| == 512
    ensures Deletes(op, done, State(old(v.table.T()), files, may), State(v.table.T(), shown, may))
    ensures forall n :: 0 <= n < 512 ==>
              next[n] in nodes || (fresh(next[n]) && fresh(next[n].pages) && next[n].data == null)
  {
    hide WellFormed, Lookup, Path, Inner, StateKept, StartStays, VolumesOk, Usable, Separate, Childless,
      FileData.File.Valid, FileData.File.Contents, Archive, FsExport.VolumeOk, Found;
    ghost var t, s := v.table.T(), State(v.table.T(), files, may);
    RunKept(store, t, nodes, files, may, apps);
    FoundIs(t, op.path);
    RootLocked(t);
    var r := v.table.FsRemove(0, op.path, {});
    done, next, shown := r.Ok?, nodes, files;
    if done {
      var f := new FileData.File(store);
      next, shown := nodes[r.value := f], files[r.value := []];
      assert Deletes(op, true, s, State(v.table.T(), shown, may));
      VolumeActs.DeleteKeeps(op, true, s, State(v.table.T(), shown, may), apps);
      KeptVolume(State(v.table.T(), shown, may), apps);
      RootHeld(t, HOME, r.value);
      RemovedInner(t, r.value, HOME);
      NodeRenewed(store, t, v.table.T(), nodes, files, r.value, f);
    }
  }

  lemma FoundIs(t: Tree, path: string)
    ensures Found(t, path) == Lookup(t, [HOME], 0, path) && (Found(t, path).Ok? ==> Found(t, path).value < 512)
  {
  }

  /** A file or a directory gets another path. */
  method RenameNode(store: VolumeState, v: Volumes, nodes: seq<FileData.File>, op: Op, apps: seq<string>,
      ghost files: seq<seq<Snapshot.byte>>, ghost may: set<set<FsStream.Record>>)
    returns (done: bool)
    requires op.Rename? && OpOk(op) && TableRuns(v, apps) && NodesRun(store, v.table.T(), nodes, files) && Archive(apps)
    modifies v.table.nodes
    ensures TableRuns(v, apps) && NodesRun(store, v.table.T(), nodes, files)
    ensures Renames(op, done, State(old(v.table.T()), files, may), State(v.table.T(), files, may))
  {
    hide WellFormed, Lookup, Path, Parent, Inner, StateKept, StartStays, VolumesOk, Usable, Separate, MoveAllowed,
      AfterMove, FileData.File.Valid, FileData.File.Contents, OpOk, Archive, FsExport.VolumeOk, Found, Target;
    ghost var t, s := v.table.T(), State(v.table.T(), files, may);
    RunKept(store, t, nodes, files, may, apps);
    FoundIs(t, op.path);
    TargetIs(t, op.to);
    var r := v.table.FsMove(0, op.path, op.to);
    done := r.Ok?;
    if done {
      FoundLive(t, op.path);
      assert Renames(op, true, s, State(v.table.T(), files, may));
      RenameKeeps(op, true, s, State(v.table.T(), files, may), apps);
      KeptVolume(State(v.table.T(), files, may), apps);
      RenamedInner(t, HOME, r.value, Target(t, op.to).value);
      MoveTakes(t, HOME, r.value, Target(t, op.to).value);
      NodesMoved(store, t, v.table.T(), nodes, files);
    }
  }

  lemma FoundLive(t: Tree, path: string)
    requires WellFormed(t) && VolumesOk(t, [HOME]) && Found(t, path).Ok?
    ensures Live(t, Found(t, path).value)
  {
    hide WellFormed, Lookup, VolumesOk;
    RootLocked(t);
    LookupLive(t, [HOME], 0, path);
  }

  /** A file takes the path of another one. */
  method ReplaceNode(store: VolumeState, v: Volumes, nodes: seq<FileData.File>, op: Op, apps: seq<string>,
      ghost files: seq<seq<Snapshot.byte>>, ghost may: set<set<FsStream.Record>>)
    returns (done: bool, next: seq<FileData.File>, ghost shown: seq<seq<Snapshot.byte>>)
    requires op.Replace? && OpOk(op) && TableRuns(v, apps) && NodesRun(store, v.table.T(), nodes, files)
    requires Archive(apps)
    modifies v.table.nodes
    ensures TableRuns(v, apps) && NodesRun(store, v.table.T(), next, shown) && |files| == 512
    ensures Replaces(op, done, State(old(v.table.T()), files, may), State(v.table.T(), shown, may))
    ensures forall n :: 0 <= n < 512 ==>
              next[n] in nodes || (fresh(next[n]) && fresh(next[n].pages) && next[n].data == null)
  {
    hide WellFormed, Lookup, Path, Parent, Inner, StateKept, StartStays, VolumesOk, Usable, Separate, ReplaceAllowed,
      AfterReplace, Child, FileData.File.Valid, FileData.File.Contents, OpOk, Archive, FsExport.VolumeOk, Found,
      Target;
    ghost var t, s := v.table.T(), State(v.table.T(), files, may);
    RunKept(store, t, nodes, files, may, apps);
    FoundIs(t, op.path);
    TargetIs(t, op.to);
    NoEmptyTarget(t, op.to);
    var at := v.table.ParentFor(0, op.to);
    var other := 512;
    if at.Ok? { other := v.table.FindChild(at.value.parent, at.value.name); }
    var r := v.table.FsReplace(0, op.path, op.to);
    done, next, shown := r.Ok?, nodes, files;
    if done {
      var f := new FileData.File(store);
      if other < 512 && other != r.value { next, shown := nodes[other := f], files[other := []]; }
      assert Replaces(op, true, s, State(v.table.T(), shown, may));
      ReplaceKeepsState(op, true, s, State(v.table.T(), shown, may), apps);
      KeptVolume(State(v.table.T(), shown, may), apps);
      ReplacedInner(t, HOME, r.value, at.value);
      SameKinds(t, r.value, at.value);
      if other < 512 && other != r.value { NodeRenewed(store, t, v.table.T(), nodes, files, other, f); }
      else { NodesMoved(store, t, v.table.T(), nodes, files); }
    }
  }

  lemma NoEmptyTarget(t: Tree, path: string)
    ensures Target(t, path).Ok? ==> path != ""
  {
  }

  lemma SameKinds(t: Tree, n: nat, at: Place)
    requires n < 512 && at.parent < 512
    ensures
      var other := Child(t, at.parent, at.name);
      forall m :: 0 <= m < 512 && (m != other || m == n) ==> AfterReplace(t, n, at)[m].kind == t[m].kind
  {
    hide ChildFrom;
  }

  lemma NodesParts(store: VolumeState, t: Tree, nodes: seq<FileData.File>, files: seq<seq<Snapshot.byte>>)
    requires NodesRun(store, t, nodes, files)
    ensures |nodes| == 512 && |files| == 512 && VolumeExport.Holding(nodes, files) && Backings(store, t, HOME, nodes)
    ensures Separate(nodes)
    ensures forall n :: 0 <= n < 512 ==> nodes[n].store == store
  {
    hide Inner, FsExport.VolumeOk, FileData.File.Contents, FileData.File.Valid, FileData.File.Current;
  }

  /** fs_write() on one node leaves the contents of the others alone. */
  method WriteContents(ghost nodes: seq<FileData.File>, ghost n: nat, f: FileData.File, op: Op,
      ghost files: seq<seq<Snapshot.byte>>)
    returns (done: bool, ghost shown: seq<seq<Snapshot.byte>>)
    requires op.Write? && VolumeExport.Holding(nodes, files) && Separate(nodes) && n < 512 && f == nodes[n]
    modifies f`size, f`pages, f`data, f.pages, f.data
    ensures VolumeExport.Holding(nodes, shown) && Separate(nodes)
    ensures done ==> (op.buf == [] || op.offset + |op.buf| <= FsStream.FILE_MAX)
    ensures Ample(op) && (op.buf == [] || op.offset + |op.buf| <= FsStream.FILE_MAX) ==> done
    ensures shown == if done then files[n := Overlaid(files[n], op.offset, op.buf)] else files
    ensures nodes[n].pages == old(nodes[n].pages) || fresh(nodes[n].pages)
    ensures nodes[n].data == old(nodes[n].data) || (nodes[n].data != null ==> fresh(nodes[n].data))
  {
    hide PagedFile.Overlay, FileData.File.Contents, FileData.File.Valid;
    var r := f.FsWrite(op.bad, op.room, op.offset, op.buf);
    done := r == FileData.Done;
    shown := if done then files[n := Overlaid(files[n], op.offset, op.buf)] else files;
  }

  /** ... and their place on the disk. */
  method WriteOne(store: VolumeState, nodes: seq<FileData.File>, n: nat, op: Op, ghost t: Tree,
      ghost files: seq<seq<Snapshot.byte>>)
    returns (done: bool, ghost shown: seq<seq<Snapshot.byte>>)
    requires op.Write? && NodesRun(store, t, nodes, files) && n < 512
    modifies nodes[n], nodes[n].pages, nodes[n].data
    ensures |nodes| == 512 && |files| == 512 && VolumeExport.Holding(nodes, shown) && Backings(store, t, HOME, nodes)
    ensures Separate(nodes)
    ensures done ==> (op.buf == [] || op.offset + |op.buf| <= FsStream.FILE_MAX)
    ensures Ample(op) && (op.buf == [] || op.offset + |op.buf| <= FsStream.FILE_MAX) ==> done
    ensures shown == if done then files[n := Overlaid(files[n], op.offset, op.buf)] else files
    ensures nodes[n].pages == old(nodes[n].pages) || fresh(nodes[n].pages)
    ensures nodes[n].data == old(nodes[n].data) || (nodes[n].data != null ==> fresh(nodes[n].data))
  {
    hide Inner, FsExport.VolumeOk, PagedFile.Overlay, FileData.File.Contents, FileData.File.Valid, VolumeState.Valid,
      Usable, NodesRun, VolumeExport.Holding, Separate, Overlaid;
    NodesParts(store, t, nodes, files);
    done, shown := WriteContents(nodes, n, nodes[n], op, files);
  }

  lemma UsableFrom(store: VolumeState, t: Tree, nodes: seq<FileData.File>, files: seq<seq<Snapshot.byte>>)
    requires VolumeExport.Holding(nodes, files) && Backings(store, t, HOME, nodes) && FsExport.VolumeOk(t, files, HOME)
    ensures Usable(store, t, HOME, nodes, files)
  {
    hide Inner, FsExport.VolumeOk, FileData.File.Contents, FileData.File.Valid;
  }

  /** A file is written. */
  method WriteNode(store: VolumeState, v: Volumes, nodes: seq<FileData.File>, op: Op, apps: seq<string>,
      ghost files: seq<seq<Snapshot.byte>>, ghost may: set<set<FsStream.Record>>)
    returns (done: bool, ghost shown: seq<seq<Snapshot.byte>>)
    requires op.Write? && TableRuns(v, apps) && NodesRun(store, v.table.T(), nodes, files)
    modifies set n | 0 <= n < |nodes| :: nodes[n], set n | 0 <= n < |nodes| :: nodes[n].pages,
      set n | 0 <= n < |nodes| && nodes[n].data != null :: nodes[n].data
    ensures TableRuns(v, apps) && NodesRun(store, v.table.T(), nodes, shown) && |files| == 512
    ensures Writes(op, done, State(v.table.T(), files, may), State(v.table.T(), shown, may))
    ensures forall n :: 0 <= n < |nodes| ==> nodes[n].pages == old(nodes[n].pages) || fresh(nodes[n].pages)
    ensures forall n :: 0 <= n < |nodes| ==>
              nodes[n].data == old(nodes[n].data) || (nodes[n].data != null ==> fresh(nodes[n].data))
  {
    hide WellFormed, Lookup, Path, Inner, StateKept, StartStays, VolumesOk, Usable, Separate,
      FileData.File.Valid, FileData.File.Contents, FsExport.VolumeOk, Found, PagedFile.Overlay;
    ghost var t, s := v.table.T(), State(v.table.T(), files, may);
    RunKept(store, t, nodes, files, may, apps);
    FoundIs(t, op.path);
    done, shown := false, files;
    var found := v.table.FsLookup(0, op.path);
    if found.Err? || v.table.nodes[found.value].kind != File || v.table.nodes[found.value].locked { return; }
    done, shown := WriteOne(store, nodes, found.value, op, t, files);
    if done { WriteKeeps(op, true, s, State(t, shown, may), apps); }
    KeptVolume(State(t, shown, may), apps);
    UsableFrom(store, t, nodes, shown);
  }

  // ----- Any operation -----

  lemma CommitOk(op: Op)
    requires op.Commit? && OpOk(op)
    ensures op.reliable ==> op.bad == {}
  {
  }

  /** The kernel, its nodes and its disk are what a state says. */
  ghost predicate AtWork(store: VolumeState, v: Volumes, nodes: seq<FileData.File>, s: State, apps: seq<string>)
    reads store, v, v.table, v.table.nodes, v.backing, set n | 0 <= n < |nodes| :: nodes[n],
      set n | 0 <= n < |nodes| :: nodes[n].pages, 
      set n | 0 <= n < |nodes| && nodes[n].data != null :: nodes[n].data, set n | 0 <= n < |nodes| :: nodes[n].store
  {
    TableRuns(v, apps) && s.t == v.table.T() && NodesRun(store, s.t, nodes, s.files) && StoreReady(store, s.may, apps)
  }

  /** A request that names a path. */
  method PerformPath(store: VolumeState, v: Volumes, nodes: seq<FileData.File>, op: Op, apps: seq<string>,
      ghost s: State)
    returns (next: seq<FileData.File>, done: bool, ghost s': State)
    requires OpOk(op) && PlainArchive(apps) && AtWork(store, v, nodes, s, apps) && !op.Commit? && !op.Restart?
    modifies v.table.nodes, Parts(nodes)
    ensures AtWork(store, v, next, s', apps) && |s'.files| == 512
    ensures |s.files| == 512 && Acts(op, done, s, s', store.v.cap, apps)
    ensures forall o :: o in Parts(next) ==> o in old(Parts(nodes)) || fresh(o)
  {
    hide WellFormed, Inner, Usable, Separate, Covered, Writes, Makes, Deletes, Renames, Replaces, Commits, StartStays,
      StartOnly, PlainArchive, OpOk, Entries, VolumeState.Valid, VolumesOk;
    next, s' := nodes, s;
    PlainIsArchive(apps);
    ghost var files;
    match op {
      case Write(_, _, _, _, _) =>
        done, files := WriteNode(store, v, nodes, op, apps, s.files, s.may);
        s' := s.(files := files);
      case Make(_, _) =>
        done, next, files := MakeNode(store, v, nodes, op, apps, s.files, s.may);
        s' := State(v.table.T(), files, s.may);
      case Delete(_) =>
        done, next, files := DeleteNode(store, v, nodes, op, apps, s.files, s.may);
        s' := State(v.table.T(), files, s.may);
      case Rename(_, _) =>
        done := RenameNode(store, v, nodes, op, apps, s.files, s.may);
        s' := s.(t := v.table.T());
      case Replace(_, _) =>
        done, next, files := ReplaceNode(store, v, nodes, op, apps, s.files, s.may);
        s' := State(v.table.T(), files, s.may);
    }
  }

  /** One request. */
  method Perform(store: VolumeState, v: Volumes, nodes: seq<FileData.File>, op: Op, apps: seq<string>, ghost s: State)
    returns (v': Volumes, next: seq<FileData.File>, done: bool, ghost s': State)
    requires OpOk(op) && PlainArchive(apps) && HomeImports(store.v) && AtWork(store, v, nodes, s, apps)
    modifies store`disk, store`log, store`activeSlot, store`generation, store`restoreError, v.table.nodes, Parts(nodes)
    ensures AtWork(store, v', next, s', apps) && |s'.files| == 512
    ensures |s.files| == 512 && Acts(op, done, s, s', store.v.cap, apps)
    ensures v' == v || (fresh(v') && fresh(v'.table) && fresh(v'.table.nodes))
    ensures forall o :: o in Parts(next) ==> o in old(Parts(nodes)) || fresh(o)
  {
    hide WellFormed, Inner, Usable, Separate, Covered, Writes, Makes, Deletes, Renames, Replaces, StartStays,
      StartOnly, PlainArchive, HomeImports, OpOk, Entries, VolumeState.Valid, VolumesOk, VolumeExport.Total;
    v', next, s' := v, nodes, s;
    PlainIsArchive(apps);
    if op.Commit? {
      CommitOk(op);
      done := CommitHome(op.reliable, op.bad, store, v, nodes, s.files, s.may, apps);
      s' := s.(may := if done then {Shown(s)} else s.may + {Shown(s)});
    } else if op.Restart? {
      ghost var files;
      v', next, files := Start(store, op.kept, apps, s.may);
      done, s' := true, State(v'.table.T(), files, {Entries(v'.table.T(), files, HOME)});
    } else {
      next, done, s' := PerformPath(store, v, nodes, op, apps, s);
    }
  }

  // ----- Runs -----

  /** The kernel starts on a disk, and carries out any requests.  What the nodes show in the end is what the last state
      says, and every state follows from the one before by its request. */
  method PerformAll(store: VolumeState, kept: nat -> bool, ops: seq<Op>, apps: seq<string>,
      ghost may: set<set<FsStream.Record>>)
    returns (v: Volumes, nodes: seq<FileData.File>, ghost dones: seq<bool>, ghost states: seq<State>)
    requires store.log != [] && store.Valid() && Covered(store.Now(), may, apps) && HomeImports(store.v)
    requires PlainArchive(apps)
    requires forall i :: 0 <= i < |ops| ==> OpOk(ops[i])
    modifies store`disk, store`log, store`activeSlot, store`generation, store`restoreError
    ensures ActsRun(ops, dones, states, store.v.cap, apps) && StatesOk(states, apps)
    ensures StartOnly(states[0].t, apps) && Shown(states[0]) in may && states[0].may == {Shown(states[0])}
    ensures AtWork(store, v, nodes, states[|ops|], apps)
  {
    hide WellFormed, Inner, Usable, Separate, Covered, Acts, StartStays, StartOnly, PlainArchive, HomeImports, OpOk,
      Entries, VolumeState.Valid, VolumesOk, StateOk, StatesOk, ActsRun, AtWork, Parts, StoreReady, NodesRun,
      VolumeState.Ready;
    ghost var files;
    v, nodes, files := Start(store, kept, apps, may);
    ghost var first := State(v.table.T(), files, {Entries(v.table.T(), files, HOME)});
    dones, states := [], [first];
    assert AtWork(store, v, nodes, first, apps) by { FirstWork(store, v, nodes, files, apps); }
    RunOk(store, v, nodes, first, apps);
    RunStart(first, store.v.cap, apps);
    assert ops[..0] == [];
    for i := 0 to |ops|
      invariant |states| == i + 1 && |dones| == i && ActsRun(ops[..i], dones, states, store.v.cap, apps)
      invariant StatesOk(states, apps)
      invariant states[0] == first
      invariant AtWork(store, v, nodes, states[i], apps) && |states[i].files| == 512
      invariant fresh(v) && fresh(v.table) && fresh(v.table.nodes) && fresh(Parts(nodes))
    {
      ghost var now := states[i];
      var done;
      ghost var next;
      v, nodes, done, next := Perform(store, v, nodes, ops[i], apps, now);
      RunOk(store, v, nodes, next, apps);
      RunMore(ops[..i], dones, states, ops[i], done, next, store.v.cap, apps);
      assert ops[..i + 1] == ops[..i] + [ops[i]];
      dones, states := dones + [done], states + [next];
    }
    assert ops[..|ops|] == ops;
  }

  lemma FirstWork(store: VolumeState, v: Volumes, nodes: seq<FileData.File>, files: seq<seq<Snapshot.byte>>,
      apps: seq<string>)
    requires TableRuns(v, apps) && NodesRun(store, v.table.T(), nodes, files)
    requires |files| == 512 && StoreReady(store, {Entries(v.table.T(), files, HOME)}, apps)
    ensures AtWork(store, v, nodes, State(v.table.T(), files, {Entries(v.table.T(), files, HOME)}), apps)
  {
    hide WellFormed, VolumesOk, Usable, Separate, StartStays, Entries, Covered;
  }

  lemma RunOk(store: VolumeState, v: Volumes, nodes: seq<FileData.File>, s: State, apps: seq<string>)
    requires AtWork(store, v, nodes, s, apps)
    ensures StateOk(s, apps)
  {
    hide WellFormed, VolumesOk, StateKept, Usable, Separate, StartStays;
    RunKept(store, s.t, nodes, s.files, s.may, apps);
  }

  lemma RunStart(s: State, cap: nat, apps: seq<string>)
    requires |s.files| == 512 && StateOk(s, apps)
    ensures ActsRun([], [], [s], cap, apps) && StatesOk([s], apps)
  {
    hide StateOk;
  }

  lemma RunMore(ops: seq<Op>, dones: seq<bool>, states: seq<State>, op: Op, done: bool, next: State, cap: nat,
      apps: seq<string>)
    requires |states| == |ops| + 1 && |states[|ops|].files| == 512 && |next.files| == 512
    requires ActsRun(ops, dones, states, cap, apps) && StatesOk(states, apps) && StateOk(next, apps)
    requires Acts(op, done, states[|ops|], next, cap, apps)
    ensures ActsRun(ops + [op], dones + [done], states + [next], cap, apps) && StatesOk(states + [next], apps)
  {
    hide Acts, StateOk;
  }

  /** On a formatted volume a start finds an empty directory. */
  lemma FormattedCovered(store: VolumeState, v: Volume, image: Image, apps: seq<string>)
    requires store.log == [Machine(Disk(image, []), -1, 0, Idle, None, None, 0)]
    ensures Covered(store.Now(), {{}}, apps)
  {
  }
}
