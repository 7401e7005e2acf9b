/** Which nodes a volume has after create_node, fs_remove, fs_move and fs_replace (kernel/fs.c). */
module FsVolume {
  import opened FsTree
  import opened FsEdits
  import opened FileTree
  import opened FsStream
  import opened FsExport
  import FsImport

  /** In a well-formed tree steps do not run out. */
  lemma UpOne(t: Tree, root: nat, m: nat)
    requires WellFormed(t) && 0 < m < 512 && Live(t, m)
    ensures Under(t, m, root, 511) <==> m == root || Under(t, t[m].parent, root, 511)
    ensures Live(t, t[m].parent) && PathFrom(t, t[m].parent, 94).Some?
  {
    hide WellFormed, NodeOk;
    NodeIsOk(t, m);
    Depth(t, m);
    UnderSteps(t, t[m].parent, root, 94, 510);
    UnderSteps(t, t[m].parent, root, 94, 511);
  }

  lemma RootUnder(t: Tree, root: nat)
    ensures Under(t, 0, root, 511) <==> root == 0
  {
  }

  /** Nodes that are not below the changed one are where they were. */
  lemma {:induction false} AvoidsUnder(t: Tree, t': Tree, x: nat, m: nat, root: nat, k: nat)
    requires m < 512 && x != 0 && SameBut(t, t', x) && !Under(t, m, x, k)
    ensures Under(t', m, root, k) == Under(t, m, root, k)
    decreases k
  {
    if m != 0 && k > 0 { AvoidsUnder(t, t', x, t[m].parent, root, k - 1); }
  }

  /** Moving a node inside a volume, or outside all of them, moves no node into it or out of it. */
  lemma {:induction false} MovedUnder(t: Tree, n: nat, p: nat, name: string, root: nat, m: nat, k: nat)
    requires WellFormed(t) && CanMove(t, n, p, name) && WellFormed(Moved(t, n, p, name)) && 0 < root && n != root
    requires Under(t, n, root, 511) == Under(t, p, root, 511)
    requires Live(t, m) && PathFrom(t, m, k).Some?
    ensures Under(Moved(t, n, p, name), m, root, 511) == Under(t, m, root, 511)
    decreases k
  {
    hide WellFormed, Child, Under, ValidName;
    var t' := Moved(t, n, p, name);
    RootUnder(t, root);
    RootUnder(t', root);
    if m != 0 {
      UpOne(t, root, m);
      UpOne(t', root, m);
      if m == n { AvoidsUnder(t, t', n, p, root, 511); }
      else { MovedUnder(t, n, p, name, root, t[m].parent, k - 1); }
    }
  }

  // ----- The nodes of a volume after each operation -----

  lemma CreatedInner(t: Tree, i: nat, p: nat, name: string, kind: Kind, root: nat)
    requires WellFormed(t) && CanCreate(t, i, p, name) && kind != Unused && 0 < root < 512 && Live(t, root)
    ensures
      var t' := Created(t, i, p, name, kind, false);
      && (Inner(t', root, i) <==> Under(t, p, root, 511))
      && forall m: nat :: m != i ==> (Inner(t', root, m) <==> Inner(t, root, m))
  {
    hide WellFormed, Child, Under, ValidName, PathFrom;
    var t' := Created(t, i, p, name, kind, false);
    CreatedOk(t, i, p, name, kind, false);
    UpOne(t', root, i);
    FsImport.SameChain(t, t', p, 511);
    forall m: nat | m < 512 && m != i && Live(t, m) ensures Under(t', m, root, 511) == Under(t, m, root, 511) {
      FsImport.SameChain(t, t', m, 511);
    }
  }

  lemma RemovedInner(t: Tree, n: nat, root: nat)
    requires WellFormed(t) && 0 < n < 512 && Childless(t, n) && n != root
    ensures forall m: nat :: Inner(Removed(t, n), root, m) <==> m != n && Inner(t, root, m)
  {
    hide WellFormed, Under, ValidName, PathFrom;
    var t' := Removed(t, n);
    RemovedPaths(t, n);
    forall m: nat | m < 512 && m != n && Live(t, m) ensures Under(t', m, root, 511) == Under(t, m, root, 511) {
      FsImport.SameChain(t', t, m, 511);
    }
  }

  lemma MovedInner(t: Tree, n: nat, p: nat, name: string, root: nat)
    requires WellFormed(t) && CanMove(t, n, p, name) && WellFormed(Moved(t, n, p, name)) && 0 < root && n != root
    requires Under(t, n, root, 511) == Under(t, p, root, 511)
    ensures forall m: nat :: Inner(Moved(t, n, p, name), root, m) <==> Inner(t, root, m)
  {
    hide WellFormed, Under, ValidName, PathFrom, Child;
    forall m: nat | m < 512 && Live(t, m)
      ensures Under(Moved(t, n, p, name), m, root, 511) == Under(t, m, root, 511)
    {
      Depth(t, m);
      MovedUnder(t, n, p, name, root, m, 95);
    }
  }

  /** volume_for() tells whether a node lies in the only volume. */
  lemma OnlyVolume(t: Tree, root: nat, n: nat)
    requires n < 512
    ensures (VolumeFor(t, [root], n) == 0 <==> Under(t, n, root, 511))
    ensures (VolumeFor(t, [root], n) == -1 <==> !Under(t, n, root, 511))
  {
    hide Under;
    assert VolumeFrom(t, [root], n, 1) == -1;
  }

  /** fs_move() takes nothing out of the volume. */
  lemma RenamedInner(t: Tree, root: nat, n: nat, place: Place)
    requires WellFormed(t) && VolumesOk(t, [root]) && Live(t, n) && n < 512 && place.parent < 512
    requires ValidName(place.name)
    requires MoveAllowed(t, [root], n, place) && WellFormed(AfterMove(t, n, place))
    ensures forall m: nat :: Inner(AfterMove(t, n, place), root, m) <==> Inner(t, root, m)
  {
    hide WellFormed, Under, ValidName, PathFrom, Child, VolumeFor, Fits, Inner;
    OnlyVolume(t, root, n);
    OnlyVolume(t, root, place.parent);
    RootLocked(t);
    RootHeld(t, root, n);
    if Child(t, place.parent, place.name) != n { MovedInner(t, n, place.parent, place.name, root); }
  }

  /** The root of a volume is in a locked directory. */
  lemma RootHeld(t: Tree, root: nat, n: nat)
    requires VolumesOk(t, [root]) && n < 512 && !t[t[n].parent].locked
    ensures n != root && 0 < root < 512
  {
    assert [root][0] == root;
  }

  /** The file that fs_replace() removes goes; no other node leaves the volume or enters it. */
  lemma ReplacedInner(t: Tree, root: nat, n: nat, place: Place)
    requires WellFormed(t) && VolumesOk(t, [root]) && n < 512 && place.parent < 512 && ValidName(place.name)
    requires ReplaceAllowed(t, [root], n, place)
    ensures
      var other := Child(t, place.parent, place.name);
      forall m: nat :: Inner(AfterReplace(t, n, place), root, m) <==> Inner(t, root, m) && (m == other ==> m == n)
  {
    hide WellFormed, Under, ValidName, PathFrom, Child, VolumeFor, Inner, VolumesOk, Fitting, ChildFrom;
    var Place(p, name) := place;
    var other := Child(t, p, name);
    OnlyVolume(t, root, n);
    OnlyVolume(t, root, p);
    RootLocked(t);
    RootHeld(t, root, n);
    InnerFitsIn(t, root);
    if other != n {
      ReplaceKeeps(t, [root], n, place);
      FileIsChildless(t, n);
      if other < 512 {
        ChildParent(t, p, name);
        RootHeld(t, root, other);
        FileIsChildless(t, other);
        RemovedPaths(t, other);
        RemovedInner(t, other, root);
        NoOtherChild(t, p, name);
        var t1 := Removed(t, other);
        StillUnder(t, t1, other, root, n);
        StillUnder(t, t1, other, root, p);
        FileIsChildless(t1, n);
        NotOnPath(t1, n, p, 511);
        MovedInner(t1, n, p, name, root);
      } else {
        NotOnPath(t, n, p, 511);
        MovedInner(t, n, p, name, root);
      }
    }
  }

  lemma StillUnder(t: Tree, t1: Tree, n: nat, root: nat, m: nat)
    requires WellFormed(t) && WellFormed(t1) && 0 < n < 512 && t1 == Removed(t, n) && m != n && Live(t, m)
    ensures Under(t1, m, root, 511) == Under(t, m, root, 511)
  {
    hide WellFormed, Under, PathFrom;
    FsImport.SameChain(t1, t, m, 511);
  }

  lemma InnerFitsIn(t: Tree, root: nat)
    ensures forall m: nat :: Inner(t, root, m) ==> m < 512
  {
  }

  lemma MoveTakes(t: Tree, root: nat, n: nat, at: Place)
    requires n < 512 && at.parent < 512 && WellFormed(t) && MoveAllowed(t, [root], n, at)
    ensures AfterMove(t, n, at) == (if Child(t, at.parent, at.name) == n then t else Moved(t, n, at.parent, at.name))
    ensures n != 0
    ensures !Under(t, at.parent, n, 511) && t[at.parent].kind == Directory
    ensures Child(t, at.parent, at.name) == n || Child(t, at.parent, at.name) == 512
  {
    hide WellFormed, Under, Child, Fits, VolumeFor;
    RootLocked(t);
  }
}
