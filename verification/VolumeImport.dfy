/** clear_volume, stream_entry and fs_import_stream of kernel/fs.c, in place on the node table. */
module VolumeImport {
  import opened Wrappers
  import Snapshot
  import StoreProtocol
  import StoreMount
  import Store
  import opened FsTree
  import opened FsEdits
  import opened FileTree
  import opened FsStream
  import opened FsExport
  import opened FsImport
  import opened FsRoundTrip
  import opened PagedFile
  import opened VolumeExport

  type byte = Snapshot.byte

  // ----- Emptying a volume -----

  /** Nodes of a volume are not locked. */
  ghost predicate Unlocked(t: Tree, root: nat) {
    root < 512 && !t[root].locked && forall n: nat :: Inner(t, root, n) ==> !t[n].locked
  }

  /** Some nodes of the volume are gone. */
  ghost predicate Thinned(f0: Files, f: Files, root: nat) {
    && |f0.backing| == 512 && |f.backing| == 512
    && forall n :: 0 <= n < 512 ==>
         (f.tree[n] == f0.tree[n] && f.backing[n] == f0.backing[n])
         || (f.tree[n] == UNUSED && f.backing[n] == Unbacked && Inner(f0.tree, root, n))
  }

  /** The volume is empty and everything else is as it was. */
  ghost predicate Emptied(f0: Files, f: Files, root: nat) {
    && |f0.backing| == 512 && |f.backing| == 512 && EmptyVolume(f.tree, root)
    && forall n :: 0 <= n < 512 ==>
         && (Live(f.tree, n) <==> Live(f0.tree, n) && !Inner(f0.tree, root, n))
         && (Live(f.tree, n) ==> f.tree[n] == f0.tree[n] && f.backing[n] == f0.backing[n])
  }

  /** What is left of the volume is shallower than the bound, or as deep from slot i on. */
  ghost predicate LeftOver(t: Tree, root: nat, bound: nat, i: nat) {
    forall n: nat :: Inner(t, root, n) ==>
      DepthIn(t, n, root, 511) < bound || (DepthIn(t, n, root, 511) == bound && n >= i)
  }

  /** Nothing in a volume is locked. */
  lemma AllUnlocked(t: Tree, volumes: seq<nat>, volume: nat)
    requires WellFormed(t) && VolumesOk(t, volumes) && volume < |volumes|
    ensures Unlocked(t, volumes[volume])
  {
    hide WellFormed;
    forall n: nat | Inner(t, volumes[volume], n) ensures !t[n].locked { UnlockedBelow(t, volumes, volume, n, 511); }
  }

  lemma {:induction false} UnlockedBelow(t: Tree, volumes: seq<nat>, volume: nat, n: nat, k: nat)
    requires WellFormed(t) && VolumesOk(t, volumes) && volume < |volumes| && Live(t, n)
    requires Under(t, n, volumes[volume], k)
    ensures !t[n].locked
    decreases k
  {
    hide WellFormed, NodeOk;
    if n != 0 { NodeIsOk(t, n); }
    if n != volumes[volume] { UnlockedBelow(t, volumes, volume, t[n].parent, k - 1); }
  }

  lemma RemoveInner(t: Tree, root: nat, i: nat, n: nat)
    requires WellFormed(t) && 0 < i < 512 && Childless(t, i) && Inner(Removed(t, i), root, n)
    ensures Inner(t, root, n) && n != i && DepthIn(Removed(t, i), n, root, 511) == DepthIn(t, n, root, 511)
  {
    hide WellFormed, Under, DepthIn;
    RemovedPaths(t, i);
    SameChain(Removed(t, i), t, n, 511);
  }

  /** A child of a node of the volume is in the volume, one level below. */
  lemma ChildInner(t: Tree, root: nat, i: nat, c: nat)
    requires WellFormed(t) && 0 < root < 512 && Live(t, root) && Inner(t, root, i) && 0 < c < 512 && Live(t, c)
    requires t[c].parent == i
    ensures Inner(t, root, c) && DepthIn(t, c, root, 511) == 1 + DepthIn(t, i, root, 511)
  {
    hide WellFormed, PathFrom, Under, Below;
    Depth(t, i);
    Depth(t, root);
    UnderSteps(t, i, root, 95, 511);
    ThroughPath(t, t, root, i, 95, 95);
    MoreSteps(t, i, 95, 190);
    StepUp(t, c, 95);
    MoreSteps(t, c, 96, 512);
    assert c != root;
    UnderSteps(t, i, root, 95, 510);
    UnderStep(t, c, root);
    ParentDepth(t, root, c);
  }

  lemma DeepestIsLeaf(t: Tree, root: nat, bound: nat, i: nat, k: nat)
    requires WellFormed(t) && 0 < root < 512 && Live(t, root) && LeftOver(t, root, bound, k) && Inner(t, root, i)
    requires DepthIn(t, i, root, 511) >= bound
    ensures Childless(t, i)
  {
    hide WellFormed, Inner, DepthIn;
    InnerLive(t, root, i);
    forall c | 0 < c < 512 && Live(t, c) ensures t[c].parent != i {
      if t[c].parent == i { ChildInner(t, root, i, c); assert false; }
    }
  }

  lemma DeleteKeeps(f0: Files, f: Files, volumes: seq<nat>, root: nat, bound: nat, i: nat)
    requires Thinned(f0, f, root) && WellFormed(f.tree) && VolumesOk(f.tree, volumes) && Unlocked(f.tree, root)
        && LeftOver(f.tree, root, bound, i)
    requires Inner(f.tree, root, i) && Childless(f.tree, i) && 0 < root && Live(f.tree, root)
    ensures i < 512
    ensures
      var g := Files(Removed(f.tree, i), f.backing[i := Unbacked]);
      && Thinned(f0, g, root) && WellFormed(g.tree) && VolumesOk(g.tree, volumes) && Unlocked(g.tree, root)
      && Live(g.tree, root)
      && LeftOver(g.tree, root, bound, i + 1)
  {
    hide WellFormed, Inner, DepthIn, VolumesOk, Childless;
    InnerLive(f.tree, root, i);
    InnerParent(f.tree, root, i);
    ParentDepth(f.tree, root, i);
    InnerNotRoot(f.tree, root, i);
    RemovedPaths(f.tree, i);
    RemoveKeepsVolumes(f.tree, volumes, i);
    ThinnedInner(f0, f, root, i);
    var g := Files(Removed(f.tree, i), f.backing[i := Unbacked]);
    forall n: nat | Inner(g.tree, root, n)
      ensures Inner(f.tree, root, n) && n != i && n < 512 && DepthIn(g.tree, n, root, 511) == DepthIn(f.tree, n, root, 511) {
      InnerLive(g.tree, root, n);
      RemoveInner(f.tree, root, i, n);
    }
  }

  lemma InnerNotRoot(t: Tree, root: nat, i: nat)
    requires Inner(t, root, i)
    ensures i != root
  {
  }

  /** Nodes of the volume that are left were nodes of the volume. */
  lemma ThinnedInner(f0: Files, f: Files, root: nat, i: nat)
    requires Thinned(f0, f, root) && WellFormed(f.tree) && Inner(f.tree, root, i)
    ensures Inner(f0.tree, root, i)
  {
    hide WellFormed, Under, DepthIn;
    SameChain(f.tree, f0.tree, i, 511);
  }

  /** Nothing has depth 0. */
  lemma NothingLeft(f0: Files, f: Files, root: nat)
    requires Thinned(f0, f, root) && WellFormed(f0.tree) && WellFormed(f.tree) && 0 < root < 512 && Live(f.tree, root)
    requires LeftOver(f.tree, root, 0, 0)
    ensures Emptied(f0, f, root)
  {
    hide WellFormed, Inner, DepthIn;
    forall n: nat ensures !Inner(f.tree, root, n) {
      if Inner(f.tree, root, n) { InnerLive(f.tree, root, n); ParentDepth(f.tree, root, n); assert false; }
    }
    forall n | 0 <= n < 512 ensures Live(f.tree, n) <==> Live(f0.tree, n) && !Inner(f0.tree, root, n) {
      if Live(f.tree, n) { StillInner(f0, f, root, n); }
      if Inner(f0.tree, root, n) { InnerLive(f0.tree, root, n); }
    }
  }

  lemma StillInner(f0: Files, f: Files, root: nat, n: nat)
    requires Thinned(f0, f, root) && WellFormed(f.tree) && n < 512 && Live(f.tree, n)
    ensures Inner(f0.tree, root, n) == Inner(f.tree, root, n)
  {
    hide WellFormed, Under, DepthIn;
    SameChain(f.tree, f0.tree, n, 511);
  }

  /** What fs_import_stream() answers for a payload when there is room for so many nodes. */
  function ImportOutcome(p: seq<byte>, prefix: string, room: nat): StoreMount.Outcome {
    if |p| < 4 then StoreMount.Bad
    else if Snapshot.Word(p, 0) > room then StoreMount.NoSpace
    else if Importable(p, prefix) then StoreMount.Good
    else StoreMount.Bad
  }

  function AsOutcome(r: Status): StoreMount.Outcome {
    if r == Done then StoreMount.Good else if r == Full then StoreMount.NoSpace else StoreMount.Bad
  }

  lemma OutcomeIs(p: seq<byte>, prefix: string, room: nat)
    ensures |p| < 4 ==> ImportOutcome(p, prefix, room) == StoreMount.Bad
    ensures |p| >= 4 && Snapshot.Word(p, 0) > room ==> ImportOutcome(p, prefix, room) == StoreMount.NoSpace
    ensures |p| >= 4 && Snapshot.Word(p, 0) <= room && ReadPayload(p, prefix) == None
            ==> ImportOutcome(p, prefix, room) == StoreMount.Bad
    ensures |p| >= 4 && Snapshot.Word(p, 0) <= room && ReadPayload(p, prefix).Some? ==>
              var all := ReadPayload(p, prefix).value;
              ImportOutcome(p, prefix, room)
              == if forall k :: 0 <= k < |all| ==> Welcome(all, prefix, k) then StoreMount.Good else StoreMount.Bad
  {
    hide Welcome, ReadPayload, Snapshot.Word;
  }

  class Volumes {
    const table: Table
    /** backing_offset and backing_size of the nodes, and backing_slot. */
    const backing: array<Backing>
    const slots: array<int>

    constructor (table: Table)
      requires table.Valid()
      ensures Valid() && this.table == table && fresh(backing) && fresh(slots) && forall i :: 0 <= i < 512 ==>
                backing[i] == Unbacked
    {
      this.table := table;
      backing := new Backing[512](_ => Unbacked);
      slots := new int[512](_ => -1);
    }

    ghost predicate Valid()
      reads this, table, table.nodes, backing
    {
      table.Valid() && backing.Length == 512 && slots.Length == 512
    }

    ghost function F(): Files
      requires Valid()
      reads this, table, table.nodes, backing
    {
      Files(table.T(), backing[..])
    }

    /** fs_node_count() */
    method NodeCount() returns (n: nat)
      requires Valid()
      ensures n == LiveCount(table.T(), 512) <= 512
    {
      hide WellFormed;
      n := 0;
      for i := 0 to 512
        invariant n == LiveCount(table.T(), i)
      {
        if table.nodes[i].kind != Unused { n := n + 1; }
      }
    }

    /** Does no node have this one as parent? */
    method IsLeaf(i: nat) returns (leaf: bool)
      requires Valid()
      ensures leaf == Childless(table.T(), i)
    {
      hide WellFormed;
      for j := 1 to 512
        invariant forall k :: 0 < k < j && Live(table.T(), k) ==> table.T()[k].parent != i
      {
        if table.nodes[j].kind != Unused && table.nodes[j].parent == i { return false; }
      }
      leaf := true;
    }

    /** delete_node() */
    method DeleteNode(i: nat)
      requires table.nodes.Length == 512 && backing.Length == 512 && slots.Length == 512 && i < 512
      modifies table.nodes, backing, slots
      ensures table.nodes[..] == old(table.nodes[..])[i := UNUSED] && backing[..] == old(backing[..])[i := Unbacked]
    {
      table.nodes[i] := UNUSED;
      backing[i] := Unbacked;
      slots[i] := -1;
    }

    /** One pass of clear_volume(): everything at the bound goes. */
    method ClearPass(root: nat, ghost f0: Files, ghost bound: nat)
      requires Valid() && 0 < root < 512 && Live(table.T(), root) && Unlocked(table.T(), root)
      requires Thinned(f0, F(), root) && LeftOver(table.T(), root, bound, 0)
      modifies table.nodes, backing, slots
      ensures Valid() && Live(table.T(), root) && Unlocked(table.T(), root)
      ensures Thinned(f0, F(), root) && LeftOver(table.T(), root, if bound == 0 then 0 else bound - 1, 0)
    {
      hide WellFormed, Inner, DepthIn, Childless, VolumesOk, Thinned, Unlocked, LeftOver;
      var i: nat := 1;
      RootNotLeft(table.T(), root, bound);
      while i < 512
        invariant 1 <= i <= 512 && Valid() && Live(table.T(), root) && Unlocked(table.T(), root)
        invariant Thinned(f0, F(), root) && LeftOver(table.T(), root, bound, i)
      {
        ghost var f := F();
        ghost var next := i + 1;
        var inner := IsInner(table, i, root);
        if inner {
          var leaf := IsLeaf(i);
          if leaf {
            DeleteKeeps(f0, f, table.volumes, root, bound, i);
            DeleteNode(i);
          } else {
            NotLeaf(f.tree, root, bound, i);
          }
        } else {
          LeftNext(f.tree, root, bound, i);
        }
        assert LeftOver(table.T(), root, bound, next);
        i := i + 1;
      }
      LeftPass(table.T(), root, bound);
    }

    /** clear_volume() */
    method ClearVolume(volume: nat)
      requires Valid() && volume < |table.volumes|
      modifies table.nodes, backing, slots
      ensures Valid() && Emptied(old(F()), F(), table.volumes[volume])
    {
      hide WellFormed, Inner, DepthIn, Thinned, Unlocked, LeftOver, Emptied;
      var root := table.volumes[volume];
      AllUnlocked(table.T(), table.volumes, volume);
      ghost var f0, bound: nat := F(), 95;
      StartClear(f0, root);
      for pass := 0 to 512
        invariant Valid() && Live(table.T(), root) && Unlocked(table.T(), root)
        invariant bound == (if pass < 95 then 95 - pass else 0)
        invariant Thinned(f0, F(), root) && LeftOver(table.T(), root, bound, 0)
      {
        ClearPass(root, f0, bound);
        bound := if bound == 0 then 0 else bound - 1;
      }
      NothingLeft(f0, F(), root);
    }

    /** create_node() for a record, and its backing. */
    method AddEntry(kind: Kind, path: string, slot: int, offset: nat, size: nat) returns (r: Status)
      requires Valid() && kind != Unused
      modifies table.nodes, backing, slots
      ensures Valid() && Sized(old(F()), table.volumes)
      ensures forall n :: 0 <= n < 512 ==> slots[n] == if Live(table.T(), n) && !Live(old(table.T()), n) then slot else old(slots[n])
      ensures
        var g := Added(old(F()), table.volumes, kind, path, Backed(offset, size));
        if r == Done then g == Some(F()) else g == None && F() == old(F())
      ensures r == Done || r == Failed || (r == Full && FirstFree(old(table.T()), 1) == 512)
    {
      hide WellFormed, Parent, Path, Child, FirstFree, CanCreate, CreateAllowed;
      ghost var f := F();
      VolumesFit(f.tree, table.volumes);
      var n := table.CreateNode(0, path, kind);
      if n.Err? { return if n.error == NoSpace then Full else Failed; }
      CreateFree(f.tree, n.value, Parent(f.tree, table.volumes, 0, path).value.parent,
        Parent(f.tree, table.volumes, 0, path).value.name);
      backing[n.value], slots[n.value] := Backed(offset, size), slot;
      r := Done;
    }

    /** The second pass, after the volume has been emptied. */
    method BuildEntries(source: Source, root: nat, count: nat, ghost rs: seq<Record>) returns (r: Status,
        ghost done: nat)
      requires Valid() && Ready(F(), table.volumes, root, rs) && |rs| == count
      requires LiveCount(table.T(), 512) + count <= 512
      requires source.Ok() && ReadAll(source.Payload(), 4, count, Path(table.T(), root).value) == Some(rs)
      modifies table.nodes, backing, slots
      ensures Valid() && Sized(old(F()), table.volumes) && done <= |rs|
      ensures forall n :: 0 <= n < 512 && Live(table.T(), n) && !Live(old(table.T()), n) ==> slots[n] == source.slot
      ensures Build(old(F()), table.volumes, rs, done) == Some(F()) && (r == Done ==> done == |rs|)
      ensures r == Done || r == Failed
      ensures r == Failed && source.bad == {} ==> done < |rs| && Build(old(F()), table.volumes, rs, done + 1) == None
    {
      hide WellFormed, Path, Build, Added, Ready, Rebuilt, Read, ReadAll, GoodRecord, DataOf, EmptyVolume, VolumesOk,
        FirstFree, Source.Payload;
      ghost var payload := source.Payload();
      ReadySized(F(), table.volumes, root, rs);
      ghost var f, volumes, prefix := F(), table.volumes, Path(table.T(), root).value;
      BuildStart(f, volumes, rs);
      var at: nat, i: nat := 4, 0;
      done := 0;
      BeginStart(4, rs);
      while i < count
        invariant Valid() && i == done <= count && at == Begin(4, rs, i) && Build(f, volumes, rs, i) == Some(F())
        invariant forall n :: 0 <= n < 512 && Live(table.T(), n) && !Live(f.tree, n) ==> slots[n] == source.slot
      {
        ghost var g, next := F(), i + 1;
        StepReady(f, g, volumes, root, rs, i);
        var ok, kind, path, pos, size, entry := StreamEntry(source, table, root, at);
        ReadsAt(payload, 4, prefix, rs, i);
        if !ok { return Failed, done; }
        ReadGood(payload, at, prefix);
        r := AddEntry(kind, path, source.slot, pos, size);
        BuildNext(f, volumes, rs, i);
        EntryData(rs, i, entry);
        if r != Done { return Failed, done; }
        at := pos + size;
        i := i + 1;
        done := next;
      }
      EndsThere(payload, 4, prefix, rs);
      r := if at == source.length then Done else Failed;
    }

    /** fs_import_stream().  It has cleared the volume when every record passed the first pass, and only then; a later
        failure leaves the volume empty. */
    method ImportStream(source: Source, volume: nat) returns (r: Status, ghost cleared: bool, ghost rs: seq<Record>)
      requires Valid() && source.Ok()
      modifies table.nodes, backing, slots
      ensures Valid() && r in {Done, NoDevice, Full, Failed}
      ensures r == NoDevice <==> volume >= |table.volumes|
      ensures r == Full ==>
                source.length >= 4 && LiveCount(old(table.T()), 512) + Snapshot.Word(source.Payload(), 0) > 512
      ensures volume < |table.volumes| ==> Path(old(table.T()), table.volumes[volume]).Some?
      ensures !cleared ==> r != Done && F() == old(F()) && slots[..] == old(slots[..])
      ensures cleared ==>
                && volume < |table.volumes| && r in {Done, Failed}
                && (r == Failed ==> Emptied(old(F()), F(), table.volumes[volume]))
      ensures cleared ==>
                var prefix := Path(old(table.T()), table.volumes[volume]).value;
                ReadPayload(source.Payload(), prefix) == Some(rs) && LiveCount(old(table.T()), 512) + |rs| <= 512
      ensures r == Done ==>
        var root := table.volumes[volume];
        && |old(F()).backing| == 512
        && Entries(table.T(), StoredFiles(backing[..], source.Payload()), root) == RecordSet(rs)
        && (forall n: nat :: Inner(table.T(), root, n) ==> n < 512 && slots[n] == source.slot)
        && (forall n :: 0 <= n < 512 && Live(old(table.T()), n) && !Inner(old(table.T()), root, n) ==>
              table.T()[n] == old(table.T())[n] && F().backing[n] == old(F()).backing[n])
        && (forall n :: 0 <= n < 512 && Live(table.T(), n) && !Inner(table.T(), root, n) ==>
              Live(old(table.T()), n) && table.T()[n] == old(table.T())[n])
        && (EmptyVolume(old(table.T()), root) ==> LiveCount(table.T(), 512) == LiveCount(old(table.T()), 512) + |rs|)
      ensures volume < |table.volumes| && source.bad == {} ==>
        var prefix := Path(old(table.T()), table.volumes[volume]).value;
        AsOutcome(r) == ImportOutcome(source.Payload(), prefix, 512 - LiveCount(old(table.T()), 512))
      ensures r == Done ==> Path(table.T(), table.volumes[volume]) == Path(old(table.T()), table.volumes[volume])
      ensures r == Done ==> forall n: nat :: Inner(table.T(), table.volumes[volume], n) ==>
                n < 512 && backing[n].Backed? && backing[n].offset + backing[n].size <= source.length
      ensures volume < |table.volumes| && source.bad == {} ==>
        var prefix := Path(old(table.T()), table.volumes[volume]).value;
        match ReadPayload(source.Payload(), prefix)
        case None => !cleared
        case Some(all) =>
          if LiveCount(old(table.T()), 512) + |all| > 512 then r == Full && !cleared
          else cleared && (r == Done <==> forall k :: 0 <= k < |all| ==> Welcome(all, prefix, k))
    {
      hide WellFormed, Path, Build, Ready, ReadAll, Read, GoodRecord, EmptyVolume, VolumesOk, Unlocked, Emptied,
          Inner, Entries, RecordSet, Welcome, LiveCount, Snapshot.Word, Source.Payload, ImportOutcome;
      rs, cleared := [], false;
      if volume >= |table.volumes| { return NoDevice, cleared, rs; }
      ghost var f, payload := F(), source.Payload();
      var root := table.volumes[volume];
      VolumeRoot(f.tree, table.volumes, volume);
      PathShape(f.tree, root);
      ghost var prefix := Path(f.tree, root).value;
      OutcomeIs(payload, prefix, 512 - LiveCount(f.tree, 512));
      if source.length < 4 { return Failed, cleared, rs; }
      var ok, count := source.ReadWord(0);
      if !ok { return Failed, cleared, rs; }
      var used := NodeCount();
      if count > 512 - used { FullMeans(payload, count, prefix); return Full, cleared, rs; }
      ok := CheckEntries(source, table, root, count);
      if !ok { return Failed, cleared, rs; }
      rs := ReadAll(payload, 4, count, prefix).value;
      ReadCount(payload, prefix, count, rs);
      cleared := true;
      ClearVolume(volume);
      ghost var f1 := F();
      EmptiedReady(f, f1, table.volumes, volume, rs, payload);
      ghost var done;
      r, done := BuildEntries(source, root, count, rs);
      BuildExact(f1, table.volumes, root, rs, |rs|);
      if r == Done {
        ImportedEntries(f1, table.volumes, root, payload, rs);
        EmptiedRest(f, f1, F(), root);
        NewInner(f, f1, F(), table.volumes, root, payload, rs);
        BuiltCount(f, f1, table.volumes, root, rs);
      } else {
        if source.bad == {} { BuildStops(f1, table.volumes, rs, done); }
        ghost var g := F();
        ClearVolume(volume);
        EmptiedAgain(f, f1, g, F(), table.volumes, root, rs, done);
      }
    }
  }

  /** After a successful second pass every node below the root is a new one. */
  lemma NewInner(f: Files, f1: Files, g: Files, volumes: seq<nat>, root: nat, payload: seq<byte>, rs: seq<Record>)
    requires Ready(f1, volumes, root, rs) && Emptied(f, f1, root) && Build(f1, volumes, rs, |rs|) == Some(g)
    requires ReadPayload(payload, Path(f1.tree, root).value) == Some(rs)
    ensures forall n: nat :: Inner(g.tree, root, n) ==> n < 512 && Live(g.tree, n) && !Live(f1.tree, n)
    ensures |g.backing| == 512 && Path(g.tree, root) == Path(f1.tree, root)
    ensures forall n: nat :: Inner(g.tree, root, n) ==>
              n < 512 && g.backing[n].Backed? && g.backing[n].offset + g.backing[n].size <= |payload|
    ensures forall n :: 0 <= n < 512 && Live(g.tree, n) && !Inner(g.tree, root, n) ==>
              Live(f.tree, n) && g.tree[n] == f.tree[n]
  {
    hide WellFormed, Path, Build, VolumesOk, Placed, GoodRecord, Under, ReadPayload, DataOf, EmptyVolume;
    BuildKeeps(f1, volumes, root, rs, |rs|);
    var at := Slots(f1, volumes, rs, |rs|);
    forall n: nat | Inner(g.tree, root, n)
      ensures n < 512 && Live(g.tree, n) && !Live(f1.tree, n)
      ensures g.backing[n].Backed? && g.backing[n].offset + g.backing[n].size <= |payload|
    {
      InnerLive(g.tree, root, n);
      if Live(f1.tree, n) { OldNotInner(f1, g, volumes, root, rs, at, n); }
      var j := FoundPath(f1, g, volumes, root, rs, at, n);
      PlacedData(g, root, rs, j, n);
      StoredData(payload, Path(f1.tree, root).value, rs, j);
    }
    forall n | 0 <= n < 512 && Live(g.tree, n) && !Inner(g.tree, root, n)
      ensures Live(f1.tree, n) && Live(f.tree, n) && g.tree[n] == f.tree[n]
    {
      if !Live(f1.tree, n) {
        var j := FoundPath(f1, g, volumes, root, rs, at, n);
        PlacedAll(g, root, rs, j, n);
      }
    }
  }

  lemma PlacedData(f: Files, root: nat, rs: seq<Record>, k: nat, n: nat)
    requires |f.backing| == 512 && k < |rs| && Placed(f, root, rs, k, n)
    ensures n < 512 && f.backing[n] == DataOf(rs, k) && f.backing[n].Backed? && f.backing[n].size == |rs[k].data|
  {
    hide Path, Under;
  }

  lemma ReadySized(f: Files, volumes: seq<nat>, root: nat, rs: seq<Record>)
    requires Ready(f, volumes, root, rs)
    ensures Sized(f, volumes) && 0 < root < 512 && Live(f.tree, root) && Path(f.tree, root).Some?
  {
    hide WellFormed, Path, GoodRecord, EmptyVolume, VolumesOk;
  }

  lemma BuildStart(f: Files, volumes: seq<nat>, rs: seq<Record>)
    requires Sized(f, volumes)
    ensures Build(f, volumes, rs, 0) == Some(f)
  {
  }

  lemma BeginStart(first: nat, rs: seq<Record>)
    ensures Begin(first, rs, 0) == first
  {
  }

  lemma BuildNext(f: Files, volumes: seq<nat>, rs: seq<Record>, k: nat)
    requires Sized(f, volumes) && k < |rs| && Build(f, volumes, rs, k).Some?
    ensures Build(f, volumes, rs, k + 1) ==
            Added(Build(f, volumes, rs, k).value, volumes, rs[k].kind, rs[k].path, DataOf(rs, k))
  {
    hide Added, DataOf;
  }

  lemma ReadGood(b: seq<byte>, at: nat, prefix: string)
    requires Read(b, at, prefix).Some?
    ensures
      var e := Read(b, at, prefix).value;
      e.record.kind != Unused && e.end == at + 12 + |e.record.path| + |e.record.data|
  {
    hide Read, GoodPath;
    ReadShape(b, at, prefix);
  }

  lemma EntryData(rs: seq<Record>, k: nat, e: Parsed)
    requires k < |rs| && e.record == rs[k] && e.end == Begin(4, rs, k) + 12 + |rs[k].path| + |rs[k].data|
    ensures DataOf(rs, k) == Backed(e.end - |e.record.data|, |e.record.data|)
  {
  }

  /** The records of the first pass fill the payload. */
  lemma {:induction false} EndsThere(b: seq<byte>, at: nat, prefix: string, rs: seq<Record>)
    requires ReadAll(b, at, |rs|, prefix) == Some(rs)
    ensures Begin(at, rs, |rs|) == |b|
    decreases |rs|
  {
    hide Read;
    if rs != [] {
      ReadGood(b, at, prefix);
      var p := Read(b, at, prefix).value;
      assert rs == [p.record] + rs[1..];
      EndsThere(b, p.end, prefix, rs[1..]);
      BeginShift(at, rs, |rs|);
    }
  }

  /** In the middle of the second pass there is room, and the root has not changed. */
  lemma StepReady(f: Files, g: Files, volumes: seq<nat>, root: nat, rs: seq<Record>, k: nat)
    requires Ready(f, volumes, root, rs) && Sized(f, volumes) && k < |rs| && Build(f, volumes, rs, k) == Some(g)
        && LiveCount(f.tree, 512) + |rs| <= 512
    ensures WellFormed(g.tree) && 0 < root < 512 && Live(g.tree, root) && Path(g.tree, root) == Path(f.tree, root)
        && Path(g.tree, root).Some?
    ensures FirstFree(g.tree, 1) < 512
  {
    hide WellFormed, Path, Build, VolumesOk, EmptyVolume, Placed, GoodRecord, FirstFree, LiveCount;
    BuildKeeps(f, volumes, root, rs, k);
    HasRoom(g.tree);
  }

  // ----- Reading -----

  /** A payload to import: length bytes of a slot; the sectors in bad cannot be read. */
  class Source {
    const store: Store.VolumeState
    const slot: int
    const length: nat
    const bad: set<nat>

    constructor (store: Store.VolumeState, slot: int, length: nat, bad: set<nat>)
      requires 0 <= slot <= 1 && length <= store.v.cap
      ensures Ok() && this.store == store && this.slot == slot && this.length == length && this.bad == bad
    {
      this.store, this.slot, this.length, this.bad := store, slot, length, bad;
    }

    predicate Ok() { 0 <= slot <= 1 && length <= store.v.cap }

    ghost function Payload(): (p: seq<byte>)
      reads store`disk
      ensures |p| == length
    {
      StoreProtocol.PayloadAt(store.v, Store.View(store.disk), slot, length)
    }

    /** store_read_bytes() inside the payload. */
    method ReadBytes(at: nat, n: nat) returns (ok: bool, bytes: seq<byte>)
      requires Ok() && at + n <= length
      ensures bad == {} ==> ok
      ensures ok ==> bytes == Payload()[at..at + n]
    {
      var dest := new Snapshot.byte[n];
      var r := store.StoreReadBytes(slot, at, dest, bad);
      ok := r == StoreMount.Good;
      bytes := dest[..];
    }

    method ReadWord(at: nat) returns (ok: bool, word: nat)
      requires Ok() && at + 4 <= length
      ensures bad == {} ==> ok
      ensures ok ==> word == Snapshot.Word(Payload(), at)
    {
      hide Payload;
      var bytes;
      word := 0;
      ok, bytes := ReadBytes(at, 4);
      if ok { word := Snapshot.Word(bytes, 0); }
    }
  }

  /** The end of the component that starts at first. */
  method NameEnd(path: string, first: nat) returns (k: nat)
    requires first <= |path|
    ensures first <= k <= |path| && NameAt(path[first..]) == path[first..k]
  {
    hide NameAt;
    k := first;
    NameAtFrom(path, first, k);
    while k < |path| && path[k] != '/'
      invariant first <= k <= |path| && NameAt(path[first..]) == path[first..k] + NameAt(path[k..])
    {
      NameAtMore(path, first, k);
      k := k + 1;
    }
    NameAtEnd(path[k..]);
    assert path[first..k] + "" == path[first..k];
  }

  lemma TailStep(path: string, first: nat, k: nat)
    requires first < |path| && first <= k <= |path| && NameAt(path[first..]) == path[first..k]
    ensures GoodTail(path[first..]) <==> ValidName(path[first..k]) && (k == |path| || GoodTail(path[k + 1..]))
  {
    hide NameAt, ValidName;
    if k < |path| { assert path[first..][k - first + 1..] == path[k + 1..]; }
  }

  lemma TailDone(path: string)
    ensures GoodTail(path[|path|..])
  {
    assert path[|path|..] == "";
  }

  /** The loop of stream_entry over the components of a path. */
  method GoodComponents(path: string, start: nat) returns (ok: bool)
    requires start <= |path|
    ensures ok == GoodTail(path[start..])
  {
    hide NameAt, GoodTail;
    var k := start;
    TailDone(path);
    while k < |path|
      invariant start <= k <= |path| + 1 && (GoodTail(path[start..]) <==> k > |path| || GoodTail(path[k..]))
      decreases |path| - k
    {
      var first := k;
      k := NameEnd(path, first);
      TailStep(path, first, k);
      var part := k - first;
      NameParts(path[first..k]);
      if part == 0 || part > NAME || path[first..k] == "." || path[first..k] == ".." { return false; }
      k := k + 1;
    }
    if k == |path| { TailDone(path); }
    ok := true;
  }

  lemma NameParts(name: string)
    requires '/' !in name
    ensures ValidName(name) <==> |name| != 0 && |name| <= NAME && name != "." && name != ".."
  {
  }

  /** The tests of stream_entry() on the three words of a header. */
  predicate HeaderOk(left: int, prefix: nat, code: int, n: int, size: int) {
    && (code == 2 || code == 1) && !(code == 1 && size != 0) && n >= prefix + 2 && n < 192
    && n <= left && size <= left - n && size <= FsStream.FILE_MAX
  }

  lemma ReadHeader(b: seq<byte>, at: nat, prefix: string)
    requires at <= |b| && |b| - at >= 12
    ensures
      var code, n, size := Snapshot.Word(b, at), Snapshot.Word(b, at + 4), Snapshot.Word(b, at + 8);
      if !HeaderOk(|b| - at - 12, |prefix|, code, n, size) then Read(b, at, prefix) == None
      else
        var path := Text(b[at + 12..at + 12 + n]);
        Read(b, at, prefix) == if GoodPath(path, prefix) then
                                 Some(Parsed(Record(if code == 1 then Directory else File, path,
                                     b[at + 12 + n..at + 12 + n + size]), at + 12 + n + size))
                               else None
  {
    hide Text, Snapshot.Word, GoodPath;
  }

  /** The tests of stream_entry() on a path. */
  method CheckPath(path: string, prefix: string) returns (ok: bool)
    requires |prefix| + 2 <= |path| < 192
    ensures ok == GoodPath(path, prefix)
  {
    hide GoodTail;
    ok := (forall i :: 0 <= i < |path| ==> path[i] != 0 as char) && path[..|prefix|] == prefix
        && path[|prefix|] == '/' && path[|path| - 1] != '/';
    if ok { ok := GoodComponents(path, |prefix| + 1); }
  }

  /** stream_entry(): kind, path, and where the contents lie; entry is the record with its contents. */
  method StreamEntry(source: Source, table: Table, root: nat, at: nat)
    returns (ok: bool, kind: Kind, path: string, pos: nat, size: nat, ghost entry: Parsed)
    requires source.Ok() && table.Valid() && 0 < root < 512 && Live(table.T(), root) && Path(table.T(), root).Some?
    ensures ok ==> Read(source.Payload(), at, Path(table.T(), root).value) == Some(entry)
    ensures ok ==>
              && kind == entry.record.kind && path == entry.record.path && size == |entry.record.data|
              && pos + size == entry.end
    ensures !ok && source.bad == {} ==> Read(source.Payload(), at, Path(table.T(), root).value) == None
  {
    hide WellFormed, PathFrom, GoodPath, Text, Snapshot.Word, Read, Source.Payload;
    ghost var t, payload := table.T(), source.Payload();
    kind, path, pos, size, entry := File, "", 0, 0, Parsed(Record(File, "", []), 0);
    PathShape(t, root);
    ok := at <= source.length && source.length - at >= 12;
    if !ok { ReadShort(payload, at, Path(t, root).value); return; }
    var code, n;
    ok, code, n, size := ReadFields(source, at);
    if !ok { return; }
    var full := table.FsPath(root);
    var prefix := full.value;
    ReadHeader(payload, at, prefix);
    ok := HeaderOk(source.length - at - 12, |prefix|, code, n, size);
    if !ok { return; }
    var bytes;
    ok, bytes := source.ReadBytes(at + 12, n);
    if !ok { return; }
    path := Text(bytes);
    ok := CheckPath(path, prefix);
    if !ok { return; }
    kind, pos := if code == 1 then Directory else File, at + 12 + n;
    entry := Parsed(Record(kind, path, payload[at + 12 + n..at + 12 + n + size]), at + 12 + n + size);
  }

  /** The three words of a header. */
  method ReadFields(source: Source, at: nat) returns (ok: bool, code: nat, n: nat, size: nat)
    requires source.Ok() && at + 12 <= source.length
    ensures source.bad == {} ==> ok
    ensures
      var b := source.Payload();
      ok ==> code == Snapshot.Word(b, at) && n == Snapshot.Word(b, at + 4) && size == Snapshot.Word(b, at + 8)
  {
    hide Source.Payload;
    var bytes;
    code, n, size := 0, 0, 0;
    ok, bytes := source.ReadBytes(at, 12);
    if ok { code, n, size := Snapshot.Word(bytes, 0), Snapshot.Word(bytes, 4), Snapshot.Word(bytes, 8); }
  }

  lemma ReadShort(b: seq<byte>, at: nat, prefix: string)
    requires at > |b| || |b| - at < 12
    ensures Read(b, at, prefix) == None
  {
  }

  /** The first pass: nothing is touched before every record has been checked. */
  method CheckEntries(source: Source, table: Table, root: nat, count: nat) returns (ok: bool)
    requires source.Ok() && table.Valid() && 0 < root < 512 && Live(table.T(), root) && Path(table.T(), root).Some?
    requires source.length >= 4
    ensures ok ==> ReadAll(source.Payload(), 4, count, Path(table.T(), root).value).Some?
    ensures !ok && source.bad == {} ==> ReadAll(source.Payload(), 4, count, Path(table.T(), root).value).None?
  {
    hide WellFormed, Path, Read, Source.Payload;
    ghost var prefix, payload := Path(table.T(), root).value, source.Payload();
    var at, i := 4, 0;
    while i < count
      invariant i <= count && at >= 4
      invariant ReadAll(payload, 4, count, prefix).Some? <==> ReadAll(payload, at, count - i, prefix).Some?
    {
      var kind, path, pos, size;
      ghost var entry;
      ok, kind, path, pos, size, entry := StreamEntry(source, table, root, at);
      if !ok { return; }
      at := pos + size;
      i := i + 1;
    }
    ok := at == source.length;
  }

  lemma StartClear(f: Files, root: nat)
    requires |f.backing| == 512 && WellFormed(f.tree) && 0 < root < 512 && Live(f.tree, root)
    ensures Thinned(f, f, root) && LeftOver(f.tree, root, 95, 0)
  {
    hide WellFormed, Inner, DepthIn;
    forall n: nat | Inner(f.tree, root, n) ensures n < 512 && DepthIn(f.tree, n, root, 511) <= 95 {
      InnerLive(f.tree, root, n);
      ParentDepth(f.tree, root, n);
    }
  }

  /** Slot 0 is never in a volume. */
  lemma RootNotLeft(t: Tree, root: nat, bound: nat)
    requires LeftOver(t, root, bound, 0)
    ensures LeftOver(t, root, bound, 1)
  {
    hide DepthIn;
    forall n: nat | Inner(t, root, n) ensures n != 0 { InnerParent(t, root, n); }
  }

  lemma NotLeaf(t: Tree, root: nat, bound: nat, i: nat)
    requires WellFormed(t) && 0 < root < 512 && Live(t, root) && LeftOver(t, root, bound, i) && Inner(t, root, i)
    requires !Childless(t, i)
    ensures LeftOver(t, root, bound, i + 1)
  {
    hide WellFormed, Inner, DepthIn, Childless;
    InnerLive(t, root, i);
    if DepthIn(t, i, root, 511) >= bound { DeepestIsLeaf(t, root, bound, i, i); assert false; }
  }

  lemma LeftNext(t: Tree, root: nat, bound: nat, i: nat)
    requires LeftOver(t, root, bound, i) && !Inner(t, root, i)
    ensures LeftOver(t, root, bound, i + 1)
  {
    hide Inner, DepthIn;
  }

  lemma LeftPass(t: Tree, root: nat, bound: nat)
    requires LeftOver(t, root, bound, 512)
    ensures LeftOver(t, root, if bound == 0 then 0 else bound - 1, 0)
  {
    hide Inner, DepthIn;
    forall n: nat | Inner(t, root, n) ensures n < 512 { InnerLive(t, root, n); }
  }

  lemma VolumeRoot(t: Tree, volumes: seq<nat>, volume: nat)
    requires WellFormed(t) && VolumesOk(t, volumes) && volume < |volumes|
    ensures 0 < volumes[volume] < 512 && Live(t, volumes[volume]) && t[volumes[volume]].kind == Directory
  {
    hide WellFormed;
  }

  lemma ReadCount(b: seq<byte>, prefix: string, count: nat, rs: seq<Record>)
    requires |b| >= 4 && count == Snapshot.Word(b, 0) && ReadAll(b, 4, count, prefix) == Some(rs)
    ensures ReadPayload(b, prefix) == Some(rs) && |rs| == count && forall k :: 0 <= k < |rs| ==>
              GoodRecord(rs[k], prefix)
  {
    hide ReadAll, Snapshot.Word, GoodRecord, Read;
    forall k | 0 <= k < |rs| ensures GoodRecord(rs[k], prefix) { StoredData(b, prefix, rs, k); }
  }

  lemma FullMeans(b: seq<byte>, count: nat, prefix: string)
    requires |b| >= 4 && count == Snapshot.Word(b, 0)
    ensures ReadPayload(b, prefix).Some? ==> |ReadPayload(b, prefix).value| == count
  {
    hide Read, Snapshot.Word;
  }

  /** An emptied volume keeps its path and leaves more room. */
  lemma EmptiedReady(f: Files, f1: Files, volumes: seq<nat>, volume: nat, rs: seq<Record>, payload: seq<byte>)
    requires volume < |volumes| && Emptied(f, f1, volumes[volume]) && WellFormed(f.tree) && WellFormed(f1.tree)
    requires VolumesOk(f.tree, volumes) && VolumesOk(f1.tree, volumes)
    requires Path(f.tree, volumes[volume]).Some? && GoodRecords(rs, Path(f.tree, volumes[volume]).value)
    ensures Ready(f1, volumes, volumes[volume], rs) && Path(f1.tree, volumes[volume]) == Path(f.tree, volumes[volume])
    ensures LiveCount(f1.tree, 512) <= LiveCount(f.tree, 512)
  {
    hide WellFormed, PathFrom, GoodRecord, Under, EmptyVolume, LiveCount;
    var root := volumes[volume];
    assert !Inner(f.tree, root, root);
    SameChain(f1.tree, f.tree, root, 512);
    CountLess(f.tree, f1.tree, 512);
  }

  /** An empty volume gets a node for each record. */
  lemma BuiltCount(f: Files, f1: Files, volumes: seq<nat>, root: nat, rs: seq<Record>)
    requires Emptied(f, f1, root) && Ready(f1, volumes, root, rs) && Build(f1, volumes, rs, |rs|).Some?
    ensures EmptyVolume(f.tree, root) ==>
              LiveCount(Build(f1, volumes, rs, |rs|).value.tree, 512) == LiveCount(f.tree, 512) + |rs|
  {
    hide WellFormed, Path, Build, VolumesOk, GoodRecord, Inner, LiveCount, Rebuilt;
    BuildKeeps(f1, volumes, root, rs, |rs|);
    if EmptyVolume(f.tree, root) {
      CountLess(f.tree, f1.tree, 512);
      CountLess(f1.tree, f.tree, 512);
    }
  }

  lemma {:induction false} CountLess(t: Tree, t': Tree, k: nat)
    requires k <= 512 && forall n :: 0 <= n < 512 && Live(t', n) ==> Live(t, n)
    ensures LiveCount(t', k) <= LiveCount(t, k)
  {
    if k > 0 { CountLess(t, t', k - 1); }
  }

  /** What an import leaves alone. */
  lemma EmptiedRest(f: Files, f1: Files, g: Files, root: nat)
    requires Emptied(f, f1, root) && |g.backing| == 512
    requires forall n :: 0 <= n < 512 && Live(f1.tree, n) ==> g.tree[n] == f1.tree[n] && g.backing[n] == f1.backing[n]
    ensures forall n :: 0 <= n < 512 && Live(f.tree, n) && !Inner(f.tree, root, n) ==>
              g.tree[n] == f.tree[n] && g.backing[n] == f.backing[n]
  {
    hide Inner, EmptyVolume;
  }

  lemma {:induction false} BuildStops(f: Files, volumes: seq<nat>, rs: seq<Record>, k: nat)
    requires Sized(f, volumes) && k < |rs| && Build(f, volumes, rs, k + 1) == None
    ensures Build(f, volumes, rs, |rs|) == None
  {
    hide Added, DataOf;
    var i := k + 1;
    while i < |rs|
      invariant k < i <= |rs| && Build(f, volumes, rs, i) == None
    {
      i := i + 1;
    }
  }

  /** Emptying a volume that was partly built gives the emptied volume. */
  lemma EmptiedAgain(f: Files, f1: Files, g: Files, g': Files, volumes: seq<nat>, root: nat, rs: seq<Record>, k: nat)
    requires Emptied(f, f1, root) && Ready(f1, volumes, root, rs) && k <= |rs|
             && Build(f1, volumes, rs, k) == Some(g) && Emptied(g, g', root)
    ensures Emptied(f, g', root)
  {
    hide WellFormed, Path, Build, VolumesOk, EmptyVolume, Placed, GoodRecord, Under;
    BuildKeeps(f1, volumes, root, rs, k);
    var at := Slots(f1, volumes, rs, k);
    forall n | 0 <= n < 512 ensures Live(g.tree, n) && !Inner(g.tree, root, n) <==> Live(f1.tree, n) {
      if Live(f1.tree, n) { OldNotInner(f1, g, volumes, root, rs, at, n); }
      else if n in at {
        var j := FoundPath(f1, g, volumes, root, rs, at, n);
        PlacedAll(g, root, rs, j, n);
      }
    }
  }

  lemma OldNotInner(f: Files, g: Files, volumes: seq<nat>, root: nat, rs: seq<Record>, at: seq<nat>, n: nat)
    requires Rebuilt(f, g, volumes, root, rs, at) && WellFormed(f.tree) && EmptyVolume(f.tree, root) && n < 512
    requires Live(f.tree, n)
    ensures !Inner(g.tree, root, n)
  {
    hide WellFormed, Path, Under, VolumesOk, Placed;
    SameChain(f.tree, g.tree, n, 511);
    assert !Inner(f.tree, root, n);
  }

}
