/** Importing what was exported from a volume gives the same volume (kernel/fs.c). */
module FsRoundTrip {
  import opened Wrappers
  import opened FsTree
  import opened FsEdits
  import opened FileTree
  import opened FsStream
  import opened FsExport
  import opened FsImport
  import opened PagedFile

  // ----- Import gives what was exported -----

  /** The (kind, path, contents) of the nodes of a volume. */
  ghost function Entries(t: Tree, files: seq<seq<FsStream.byte>>, root: nat): set<Record>
    requires |files| == 512
  {
    set n: nat | n < 512 && Inner(t, root, n) && Path(t, n).Some? :: RecordOf(t, files, n)
  }

  function RecordSet(rs: seq<Record>): set<Record> { set k | 0 <= k < |rs| :: rs[k] }

  function StoredFiles(backing: seq<Backing>, payload: seq<FsStream.byte>): (files: seq<seq<FsStream.byte>>)
    ensures |files| == |backing| && forall n :: 0 <= n < |backing| ==> files[n] == Stored(backing[n], payload)
  {
    if backing == [] then [] else [Stored(backing[0], payload)] + StoredFiles(backing[1..], payload)
  }

  /** After a successful second pass the volume holds exactly the records of the payload, and the rest of the
      tree is as it was. */
  lemma ImportedEntries(f: Files, volumes: seq<nat>, root: nat, payload: seq<FsStream.byte>, rs: seq<Record>)
    requires Ready(f, volumes, root, rs) && ReadPayload(payload, Path(f.tree, root).value) == Some(rs)
    requires Build(f, volumes, rs, |rs|).Some?
    ensures
      var g := Build(f, volumes, rs, |rs|).value;
      && WellFormed(g.tree) && VolumesOk(g.tree, volumes)
      && Entries(g.tree, StoredFiles(g.backing, payload), root) == RecordSet(rs)
      && forall n :: 0 <= n < 512 && Live(f.tree, n) ==> g.tree[n] == f.tree[n] && g.backing[n] == f.backing[n]
  {
    hide WellFormed, VolumesOk, Path, Build, EmptyVolume, GoodRecord, Placed, DataOf, ReadPayload, Stored, Under;
    var g, at := Build(f, volumes, rs, |rs|).value, Slots(f, volumes, rs, |rs|);
    BuildKeeps(f, volumes, root, rs, |rs|);
    var files := StoredFiles(g.backing, payload);
    forall k | 0 <= k < |rs|
      ensures Inner(g.tree, root, at[k]) && Path(g.tree, at[k]).Some? && RecordOf(g.tree, files, at[k]) == rs[k]
    {
      StoredData(payload, Path(f.tree, root).value, rs, k);
      GoodKind(rs[k], Path(f.tree, root).value);
      PlacedAll(g, root, rs, k, at[k]);
    }
    forall n: nat | Inner(g.tree, root, n) ensures n in at {
      InVolume(f, g, volumes, root, rs, at, n);
    }
    var a, b := Entries(g.tree, files, root), RecordSet(rs);
    forall r | r in a ensures r in b {
      var n: nat :| n < 512 && Inner(g.tree, root, n) && Path(g.tree, n).Some? && r == RecordOf(g.tree, files, n);
      var k :| 0 <= k < |at| && at[k] == n;
      assert r == rs[k];
    }
    forall r | r in b ensures r in a {
      var k :| 0 <= k < |rs| && r == rs[k];
      assert r == RecordOf(g.tree, files, at[k]);
    }
  }

  lemma PlacedAll(f: Files, root: nat, rs: seq<Record>, k: nat, n: nat)
    requires |f.backing| == 512 && k < |rs| && Placed(f, root, rs, k, n)
    ensures 0 < n < 512 && f.tree[n].kind == rs[k].kind && Path(f.tree, n) == Some(rs[k].path)
    ensures Under(f.tree, n, root, 511) && n != root && f.backing[n] == DataOf(rs, k)
  {
    hide Path, Under, DataOf;
  }

  ghost predicate Exported(t: Tree, files: seq<seq<FsStream.byte>>, root: nat, order: seq<nat>) {
    WellFormed(t) && VolumeOk(t, files, root) && Ordered(t, root, order)
  }

  lemma OrderPaths(t: Tree, files: seq<seq<FsStream.byte>>, root: nat, order: seq<nat>, k: nat)
    requires Exported(t, files, root, order) && k < |order|
    ensures order[k] < 512 && Inner(t, root, order[k]) && Live(t, order[k]) && Path(t, order[k]).Some?
  {
    hide WellFormed, Path, Inner, VolumeOk, ParentEarlier;
    assert order[k] in order;
    InnerLive(t, root, order[k]);
    PathShape(t, order[k]);
  }

  lemma AllPaths(t: Tree, files: seq<seq<FsStream.byte>>, root: nat, order: seq<nat>)
    requires Exported(t, files, root, order)
    ensures |files| == 512 && root < 512 && Path(t, root).Some?
    ensures forall k :: 0 <= k < |order| ==> order[k] < 512 && Path(t, order[k]).Some?
  {
    hide WellFormed, Path, Inner, Ordered;
    forall k | 0 <= k < |order|
      ensures order[k] < 512 && Path(t, order[k]).Some? { OrderPaths(t, files, root, order, k); }
    PathShape(t, root);
  }

  /** The records of an export follow their directories and have different paths. */
  lemma ExportedWelcome(t: Tree, files: seq<seq<FsStream.byte>>, root: nat, order: seq<nat>, k: nat)
    requires Exported(t, files, root, order) && k < |order|
    requires |files| == 512 && root < 512 && Path(t, root).Some?
    requires forall k :: 0 <= k < |order| ==> order[k] < 512 && Path(t, order[k]).Some?
    ensures Welcome(Records(t, files, order), Path(t, root).value, k)
  {
    hide WellFormed, NodeOk, PathFrom, Inner, VolumeOk, ValidName, Holder, LastPart;
    var rs, n := Records(t, files, order), order[k];
    OrderPaths(t, files, root, order, k);
    InnerParent(t, root, n);
    NodeIsOk(t, n);
    NamePlain(t[n].name);
    var p := t[n].parent;
    Depth(t, p);
    StepUp(t, n, 95);
    MoreSteps(t, n, 96, 512);
    HolderIs(Path(t, p).value, t[n].name);
    if p != root {
      assert ParentEarlier(t, root, order, k);
      var j :| 0 <= j < k && order[..k][j] == p;
      assert rs[j].path == Holder(rs[k].path) && rs[j].kind == Directory;
    }
    forall j | 0 <= j < k ensures rs[j].path != rs[k].path {
      OrderPaths(t, files, root, order, j);
      if rs[j].path == rs[k].path { PathsDiffer(t, order[j], n); }
    }
  }

  lemma InnerParent(t: Tree, root: nat, n: nat)
    requires Inner(t, root, n)
    ensures n != 0
  {
  }

  /** The records of an export are the entries of its volume. */
  lemma ExportedEntries(t: Tree, files: seq<seq<FsStream.byte>>, root: nat, order: seq<nat>)
    requires Exported(t, files, root, order)
    requires |files| == 512 && root < 512 && Path(t, root).Some?
    requires forall k :: 0 <= k < |order| ==> order[k] < 512 && Path(t, order[k]).Some?
    ensures Entries(t, files, root) == RecordSet(Records(t, files, order))
  {
    hide WellFormed, Path, Inner, VolumeOk, ParentEarlier, RecordOf;
    var rs := Records(t, files, order);
    var a, b := Entries(t, files, root), RecordSet(rs);
    forall r | r in a ensures r in b {
      var n: nat :| n < 512 && Inner(t, root, n) && Path(t, n).Some? && r == RecordOf(t, files, n);
      var k :| 0 <= k < |order| && order[k] == n;
      assert r == rs[k];
    }
    forall r | r in b ensures r in a {
      var k :| 0 <= k < |rs| && r == rs[k];
      OrderPaths(t, files, root, order, k);
      assert r == RecordOf(t, files, order[k]);
    }
  }

  lemma {:induction false} DistinctBounded(s: seq<nat>, m: nat)
    requires (forall i :: 0 <= i < |s| ==> s[i] < m) && forall i, j :: 0 <= i < j < |s| ==> s[i] != s[j]
    ensures |s| <= m
    decreases m
  {
    if s != [] {
      assert s[0] < m;
      if k :| 0 <= k < |s| && s[k] == m - 1 {
        DistinctBounded(s[..k] + s[k + 1..], m - 1);
      } else {
        DistinctBounded(s, m - 1);
      }
    }
  }

  /** The records of an export are accepted when they are read back. */
  lemma ExportedGood(t: Tree, files: seq<seq<FsStream.byte>>, root: nat, order: seq<nat>)
    requires Exported(t, files, root, order)
    requires |files| == 512 && root < 512 && Path(t, root).Some?
    requires forall k :: 0 <= k < |order| ==> order[k] < 512 && Path(t, order[k]).Some?
    ensures |order| < 512
    ensures forall k :: 0 <= k < |order| ==>
              Writable(Records(t, files, order)[k]) && GoodRecord(Records(t, files, order)[k], Path(t, root).value)
  {
    hide WellFormed, Path, Inner, VolumeOk, ParentEarlier, RecordOf, Writable, GoodRecord;
    var rs := Records(t, files, order);
    forall k | 0 <= k < |order| ensures Writable(rs[k]) && GoodRecord(rs[k], Path(t, root).value) && 0 < order[k] {
      OrderPaths(t, files, root, order, k);
      RecordGood(t, files, root, order[k]);
      InnerParent(t, root, order[k]);
    }
    DistinctBounded([0] + order, 512);
  }

  /** Importing an export into an empty volume of the same path gives back the same entries. */
  lemma ExportImport(t: Tree, files: seq<seq<FsStream.byte>>, root: nat, order: seq<nat>, f: Files, volumes: seq<nat>,
      root': nat)
    requires Exported(t, files, root, order) && Ready(f, volumes, root', []) && Path(f.tree, root') == Path(t, root)
    requires LiveCount(f.tree, 512) + |order| <= 512
    ensures |files| == 512 && |order| < 512
    ensures forall k :: 0 <= k < |order| ==>
              order[k] < 512 && Path(t, order[k]).Some? && Writable(RecordOf(t, files, order[k]))
    ensures
      var rs, payload := Records(t, files, order), Payload(Records(t, files, order));
      && ReadPayload(payload, Path(t, root).value) == Some(rs) && Build(f, volumes, rs, |rs|).Some?
      && var g := Build(f, volumes, rs, |rs|).value;
         WellFormed(g.tree) && Entries(g.tree, StoredFiles(g.backing, payload), root') == Entries(t, files, root)
  {
    hide WellFormed, VolumesOk, Path, Build, EmptyVolume, GoodRecord, Writable, Payload, ReadPayload, Welcome,
        VolumeOk, Ordered, Entries, RecordSet, RecordOf;
    AllPaths(t, files, root, order);
    var rs := Records(t, files, order);
    ExportedGood(t, files, root, order);
    PayloadRoundTrip(rs, Path(t, root).value);
    forall k | 0 <= k < |rs| ensures Welcome(rs, Path(t, root).value, k) { ExportedWelcome(t, files, root, order, k); }
    BuildExact(f, volumes, root', rs, |rs|);
    ImportedEntries(f, volumes, root', Payload(rs), rs);
    ExportedEntries(t, files, root, order);
  }

  /** What fs_import_stream() accepts when there is room: readable records that can be created in their order. */
  predicate Importable(payload: seq<FsStream.byte>, prefix: string) {
    match ReadPayload(payload, prefix)
    case None => false
    case Some(rs) => forall k :: 0 <= k < |rs| ==> Welcome(rs, prefix, k)
  }

  lemma ExportImportable(t: Tree, files: seq<seq<FsStream.byte>>, root: nat, order: seq<nat>)
    requires Exported(t, files, root, order)
    ensures |files| == 512 && |order| < 512 && root < 512 && Path(t, root).Some?
    ensures forall k :: 0 <= k < |order| ==>
              order[k] < 512 && Path(t, order[k]).Some? && Writable(RecordOf(t, files, order[k]))
    ensures
      var payload := Payload(Records(t, files, order));
      ReadPayload(payload, Path(t, root).value) == Some(Records(t, files, order)) && Importable(payload, Path(t, root).value)
      && |payload| >= 4
  {
    hide WellFormed, Path, GoodRecord, Writable, ReadPayload, VolumeOk, Ordered, Welcome, EncodedAll;
    AllPaths(t, files, root, order);
    var rs := Records(t, files, order);
    ExportedGood(t, files, root, order);
    PayloadRoundTrip(rs, Path(t, root).value);
    forall k | 0 <= k < |rs| ensures Welcome(rs, Path(t, root).value, k) { ExportedWelcome(t, files, root, order, k); }
  }

  /** The contents of each node of an export lie in the payload where its record says. */
  lemma ExportedData(t: Tree, files: seq<seq<FsStream.byte>>, root: nat, order: seq<nat>, k: nat)
    requires Exported(t, files, root, order) && k < |order|
    ensures |files| == 512 && |order| < 512
    ensures forall k :: 0 <= k < |order| ==>
              order[k] < 512 && Path(t, order[k]).Some? && Writable(RecordOf(t, files, order[k]))
    ensures Stored(DataOf(Records(t, files, order), k), Payload(Records(t, files, order))) == files[order[k]]
    ensures DataOf(Records(t, files, order), k).offset + |files[order[k]]| <= |Payload(Records(t, files, order))|
  {
    hide WellFormed, Path, GoodRecord, Writable, Payload, ReadPayload, VolumeOk, Ordered, Stored, DataOf;
    AllPaths(t, files, root, order);
    var rs := Records(t, files, order);
    ExportedGood(t, files, root, order);
    PayloadRoundTrip(rs, Path(t, root).value);
    StoredData(Payload(rs), Path(t, root).value, rs, k);
  }
}
