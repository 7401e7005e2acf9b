/** What the operations of kernel/fs.c do to what a volume shows, and what a restart may bring back. */
module VolumeShows {
  import opened Wrappers
  import opened FsTree
  import opened FsEdits
  import opened FileTree
  import opened FsStream
  import opened FsExport
  import opened FsVolume
  import opened VolumeActs
  import VolumeExport

  // ----- What every operation does to what the volume shows -----

  /** What a volume shows apart from a path. */
  ghost function Apart(shown: set<Record>, path: string): set<Record> { set e | e in shown && e.path != path }

  /** A node of the volume shows its record, and no other node has that path. */
  lemma ShownNode(s: State, n: nat)
    requires WellFormed(s.t) && |s.files| == 512 && Inner(s.t, HOME, n)
    ensures n < 512 && Path(s.t, n).Some? && RecordOf(s.t, s.files, n) in Shown(s)
  {
    hide WellFormed, Path;
    VolumeExport.InnerFits(s.t, HOME, n);
  }

  lemma ShownOnly(s: State, e: Record) returns (n: nat)
    requires WellFormed(s.t) && |s.files| == 512 && e in Shown(s)
    ensures n < 512 && Inner(s.t, HOME, n) && Path(s.t, n).Some? && e == RecordOf(s.t, s.files, n)
  {
    hide WellFormed, Path, Inner;
    n :| n < 512 && Inner(s.t, HOME, n) && Path(s.t, n).Some? && e == RecordOf(s.t, s.files, n);
  }

  lemma OnePath(s: State, n: nat, m: nat)
    requires WellFormed(s.t) && Inner(s.t, HOME, n) && Live(s.t, m) && Path(s.t, m) == Path(s.t, n)
    ensures m == n
  {
    hide WellFormed, Path, Under;
    VolumeExport.InnerFits(s.t, HOME, n);
    if m != n { PathsDiffer(s.t, n, m); }
  }

  /** A write replaces the contents of one record. */
  lemma WriteShows(op: Op, s: State, s': State)
    requires op.Write? && |s.files| == 512 && Writes(op, true, s, s') && WellFormed(s.t)
    ensures
      var n := Found(s.t, op.path).value;
      if Inner(s.t, HOME, n) then
        && Path(s.t, n).Some? && RecordOf(s.t, s.files, n) in Shown(s) && RecordOf(s.t, s.files, n).kind == File
        && Shown(s') == Apart(Shown(s), Path(s.t, n).value)
                        + {Record(File, Path(s.t, n).value, Overlaid(s.files[n], op.offset, op.buf))}
      else Shown(s') == Shown(s)
  {
    hide WellFormed, Path, Inner, Lookup, Overlaid;
    var n := Found(s.t, op.path).value;
    var a, b := Shown(s), Shown(s');
    if Inner(s.t, HOME, n) {
      ShownNode(s, n);
      ShownNode(s', n);
      var p := Path(s.t, n).value;
      var c := Apart(a, p) + {RecordOf(s.t, s'.files, n)};
      forall e | e in b ensures e in c {
        var m := ShownOnly(s', e);
        if m != n { ShownNode(s, m); InnerIsLive(s.t, m); if Path(s.t, m) == Path(s.t, n) { OnePath(s, n, m); } }
      }
      forall e | e in c ensures e in b {
        if e in a && e.path != p { var m := ShownOnly(s, e); ShownNode(s', m); }
      }
    } else {
      forall e | e in b ensures e in a { var m := ShownOnly(s', e); ShownNode(s, m); }
      forall e | e in a ensures e in b { var m := ShownOnly(s, e); ShownNode(s', m); }
    }
  }

  lemma InnerIsLive(t: Tree, n: nat)
    requires Inner(t, HOME, n)
    ensures Live(t, n)
  {
  }

  /** A new node in the volume shows one new record, with a path that was not there. */
  lemma MakeShows(op: Op, s: State, s': State)
    requires op.Make? && OpOk(op) && |s.files| == 512 && Makes(op, true, s, s') && WellFormed(s.t) && WellFormed(s'.t)
    requires Live(s.t, HOME)
    requires CanCreate(s.t, FirstFree(s.t, 1), Target(s.t, op.path).value.parent, Target(s.t, op.path).value.name)
    ensures
      var at := Target(s.t, op.path).value;
      if Under(s.t, at.parent, HOME, 511) then
        var path := Path(s.t, at.parent).value + "/" + at.name;
        Shown(s') == Shown(s) + {Record(op.kind, path, [])} && Apart(Shown(s), path) == Shown(s)
      else Shown(s') == Shown(s)
  {
    hide WellFormed, Path, Inner, Lookup, Under, FirstFree, Target, CreateAllowed, Child, ValidName, Plain;
    var a, b, at, i := Shown(s), Shown(s'), Target(s.t, op.path).value, FirstFree(s.t, 1);
    CreatedInner(s.t, i, at.parent, at.name, op.kind, HOME);
    CreatedPaths(s.t, i, at.parent, at.name, op.kind, false);
    forall m: nat | Inner(s.t, HOME, m) ensures m < 512 && Live(s.t, m) && m != i { InnerIsLive(s.t, m); }
    forall e | e in a
      ensures e in b && (Under(s.t, at.parent, HOME, 511) ==> e.path != Path(s.t, at.parent).value + "/" + at.name)
    {
      var m := ShownOnly(s, e);
      ShownNode(s', m);
      if Path(s'.t, m) == Path(s'.t, i) { OnePath(s', m, i); }
    }
    if Inner(s'.t, HOME, i) { ShownNode(s', i); }
    forall e | e in b ensures e in a || (Inner(s'.t, HOME, i) && e == RecordOf(s'.t, s'.files, i)) {
      var m := ShownOnly(s', e);
      if m != i { ShownNode(s, m); }
    }
  }

  /** A removed node shows no more. */
  lemma DeleteShows(op: Op, s: State, s': State)
    requires op.Delete? && |s.files| == 512 && Deletes(op, true, s, s') && WellFormed(s.t) && WellFormed(s'.t)
    requires VolumesOk(s.t, [HOME])
    ensures
      var n := Found(s.t, op.path).value;
      Live(s.t, n) ==> Path(s.t, n).Some? && Shown(s') == Apart(Shown(s), Path(s.t, n).value)
  {
    hide WellFormed, Path, Inner, Lookup, Under, Found, ValidName, Childless, VolumesOk;
    var a, b, n := Shown(s), Shown(s'), Found(s.t, op.path).value;
    if Live(s.t, n) {
      RootLocked(s.t);
      RootHeld(s.t, HOME, n);
      RemovedInner(s.t, n, HOME);
      RemovedPaths(s.t, n);
      PathShape(s.t, n);
      var p := Path(s.t, n).value;
      forall e | e in b ensures e in a && e.path != p {
        var m := ShownOnly(s', e);
        InnerIsLive(s.t, m);
        ShownNode(s, m);
        if Path(s.t, m) == Path(s.t, n) { OnePath(s, m, n); }
      }
      forall e | e in a && e.path != p ensures e in b {
        var m := ShownOnly(s, e);
        InnerIsLive(s.t, m);
        ShownNode(s', m);
      }
    }
  }

  // ----- Renaming -----

  predicate Covers(p: string, q: string) { q == p || (|q| > |p| && q[..|p|] == p && q[|p|] == '/') }

  function Renamed(q: string, p: string, to: string): string { if Covers(p, q) then to + q[|p|..] else q }

  /** What lies below a node has its path as a prefix. */
  lemma BelowPath(t: Tree, n: nat, m: nat)
    requires WellFormed(t) && Live(t, n) && Live(t, m) && n != 0 && Under(t, m, n, 511)
    ensures Path(t, n).Some? && Path(t, m) == Some(Path(t, n).value + Below(t, m, n, 95))
    ensures Below(t, m, n, 95) == "" || Below(t, m, n, 95)[0] == '/'
  {
    hide WellFormed, PathFrom, Under, Below, NodeOk;
    Depth(t, m);
    Depth(t, n);
    UnderSteps(t, m, n, 95, 511);
    ThroughPath(t, t, n, m, 95, 95);
    MoreSteps(t, m, 95, 190);
    BelowSlash(t, m, n, 95);
  }

  lemma {:induction false} BelowSlash(t: Tree, m: nat, n: nat, k: nat)
    requires m < 512
    ensures Below(t, m, n, k) == "" || Below(t, m, n, k)[0] == '/'
    decreases k
  {
    if m != n && m != 0 && k > 0 { BelowSlash(t, t[m].parent, n, k - 1); }
  }

  /** ... and nothing else has. */
  lemma {:induction false} CoveredBelow(t: Tree, n: nat, m: nat, k: nat)
    requires WellFormed(t) && Live(t, n) && Live(t, m) && PathFrom(t, m, k).Some? && n != 0
    requires Path(t, n).Some? && Path(t, m).Some? && Covers(Path(t, n).value, Path(t, m).value)
    ensures Under(t, m, n, 511)
    decreases k
  {
    hide WellFormed, Path, Under, ValidName;
    if Path(t, m) == Path(t, n) {
      PathsDiffer(t, n, m);
      UnderSelf(t, n);
    } else {
      RootPath(t);
      UpOne(t, n, m);
      NodeIsOk(t, m);
      UpPath(t, m);
      var u, name, p := Path(t, t[m].parent).value, t[m].name, Path(t, n).value;
      CoverUp(p, u, name);
      CoveredBelow(t, n, t[m].parent, k - 1);
    }
  }

  lemma UnderSelf(t: Tree, n: nat)
    requires n < 512
    ensures Under(t, n, n, 511)
  {
  }

  lemma RootPath(t: Tree)
    ensures Path(t, 0) == Some("")
  {
  }

  lemma UpPath(t: Tree, m: nat)
    requires WellFormed(t) && Live(t, m) && m != 0
    ensures Path(t, t[m].parent).Some? && Path(t, m) == Some(Path(t, t[m].parent).value + "/" + t[m].name)
    ensures '/' !in t[m].name
  {
    hide WellFormed, PathFrom;
    NodeIsOk(t, m);
    Depth(t, t[m].parent);
    StepUp(t, m, 95);
    MoreSteps(t, m, 96, 512);
  }

  lemma CoverUp(p: string, u: string, name: string)
    requires Covers(p, u + "/" + name) && p != u + "/" + name && '/' !in name
    ensures Covers(p, u)
  {
    var q := u + "/" + name;
    assert |p| <= |u|;
    assert q[..|p|] == u[..|p|];
  }

  /** A rename moves every record at or below the old path to the new one, and no other. */
  lemma RenameShows(op: Op, s: State, s': State)
    requires op.Rename? && OpOk(op) && |s.files| == 512 && Renames(op, true, s, s') && WellFormed(s.t)
    requires WellFormed(s'.t)
    requires VolumesOk(s.t, [HOME]) && Live(s.t, Found(s.t, op.path).value)
    requires Live(s.t, Target(s.t, op.to).value.parent)
    ensures
      var n, at := Found(s.t, op.path).value, Target(s.t, op.to).value;
      && Path(s.t, n).Some? && Path(s.t, at.parent).Some?
      && var p, to := Path(s.t, n).value, Path(s.t, at.parent).value + "/" + at.name;
         && Path(s'.t, n) == Some(to)
         && Shown(s') == set e | e in Shown(s) :: e.(path := Renamed(e.path, p, to))
  {
    hide WellFormed, Path, Inner, Lookup, Under, Found, Target, ValidName, VolumesOk, Child, Fits, VolumeFor, Renamed,
      MoveAllowed, AfterMove;
    var n, at := Found(s.t, op.path).value, Target(s.t, op.to).value;
    RenamedInner(s.t, HOME, n, at);
    MoveTakes(s.t, HOME, n, at);
    PathShape(s.t, n);
    PathShape(s.t, at.parent);
    var p, to := Path(s.t, n).value, Path(s.t, at.parent).value + "/" + at.name;
    forall m: nat | m < 512 && Live(s.t, m)
      ensures Path(s.t, m).Some? && s'.t[m].kind == s.t[m].kind
      ensures Path(s'.t, m) == Some(Renamed(Path(s.t, m).value, p, to))
    {
      RenamedNode(s.t, n, at, m);
    }
    RenamedNode(s.t, n, at, n);
    ShownImage(s, s', p, to);
  }

  lemma ShownImage(s: State, s': State, p: string, to: string)
    requires |s.files| == 512 && s'.files == s.files && WellFormed(s.t) && WellFormed(s'.t)
    requires forall m: nat :: Inner(s'.t, HOME, m) <==> Inner(s.t, HOME, m)
    requires forall m: nat :: m < 512 && Live(s.t, m) ==>
               Path(s.t, m).Some? && s'.t[m].kind == s.t[m].kind && Path(s'.t, m) == Some(Renamed(Path(s.t, m).value, p, to))
    ensures Shown(s') == set e | e in Shown(s) :: e.(path := Renamed(e.path, p, to))
  {
    hide WellFormed, Path, Inner, Renamed;
    var a, b := Shown(s), Shown(s');
    var c := set e | e in a :: e.(path := Renamed(e.path, p, to));
    forall e | e in b ensures e in c {
      var m := ShownOnly(s', e);
      ShownNode(s, m);
      InnerIsLive(s.t, m);
      var r := RecordOf(s.t, s.files, m);
      assert r in a && e == r.(path := Renamed(r.path, p, to));
    }
    forall e | e in a ensures e.(path := Renamed(e.path, p, to)) in b {
      var m := ShownOnly(s, e);
      ShownNode(s', m);
      InnerIsLive(s.t, m);
    }
  }

  /** Where a move takes a node. */
  lemma RenamedNode(t: Tree, n: nat, at: Place, m: nat)
    requires WellFormed(t) && Live(t, n) && Live(t, m) && at.parent < 512 && Live(t, at.parent) && ValidName(at.name)
    requires MoveAllowed(t, [HOME], n, at) && WellFormed(AfterMove(t, n, at))
    ensures Path(t, n).Some? && Path(t, m).Some? && Path(t, at.parent).Some?
    ensures
      var to := Path(t, at.parent).value + "/" + at.name;
      var t' := AfterMove(t, n, at);
      && t'[m].kind == t[m].kind && Path(t', m) == Some(Renamed(Path(t, m).value, Path(t, n).value, to))
      && Path(t', n) == Some(to)
  {
    hide WellFormed, Path, Under, ValidName, Child, VolumeFor, Fits, Covers, MoveAllowed, AfterMove, Renamed, Below;
    MoveTakes(t, HOME, n, at);
    PathShape(t, n);
    PathShape(t, m);
    PathShape(t, at.parent);
    if Child(t, at.parent, at.name) == n {
      ChildParent(t, at.parent, at.name);
      ChildNamed(t, at.parent, at.name);
      UpPath(t, n);
      RenamedSame(Path(t, m).value, Path(t, n).value);
    } else {
      MovedNode(t, n, at.parent, at.name, m);
      MovedNode(t, n, at.parent, at.name, n);
      RenamedAll(Path(t, n).value, Path(t, at.parent).value + "/" + at.name);
    }
  }

  lemma MovedNode(t: Tree, n: nat, p: nat, name: string, m: nat)
    requires WellFormed(t) && CanMove(t, n, p, name) && Live(t, m)
    ensures Path(t, n).Some? && Path(t, m).Some? && Path(t, p).Some?
    ensures
      var to := Path(t, p).value + "/" + name;
      var t' := Moved(t, n, p, name);
      t'[m].kind == t[m].kind && Path(t', m) == Some(Renamed(Path(t, m).value, Path(t, n).value, to))
  {
    hide WellFormed, Path, Under, ValidName, Child, Covers, Renamed, Below;
    PathShape(t, n);
    PathShape(t, m);
    PathShape(t, p);
    MovedPath(t, n, p, name, m);
    var q, from, to := Path(t, m).value, Path(t, n).value, Path(t, p).value + "/" + name;
    if Under(t, m, n, 511) {
      BelowPath(t, n, m);
      RenamedTo(q, from, to, Below(t, m, n, 95));
    } else {
      if Covers(from, q) { Depth(t, m); CoveredBelow(t, n, m, 95); }
      RenamedNot(q, from, to);
    }
  }

  lemma RenamedTo(q: string, p: string, to: string, below: string)
    requires q == p + below && (below == "" || below[0] == '/')
    ensures Covers(p, q) && Renamed(q, p, to) == to + below
  {
    assert q[|p|..] == below && q[..|p|] == p;
  }

  lemma RenamedAll(p: string, to: string)
    ensures Renamed(p, p, to) == to
  {
    assert p[|p|..] == "" && to + "" == to;
  }

  lemma RenamedNot(q: string, p: string, to: string)
    requires !Covers(p, q)
    ensures Renamed(q, p, to) == q
  {
  }

  lemma RenamedSame(q: string, p: string)
    ensures Renamed(q, p, p) == q
  {
  }

  lemma ChildNamed(t: Tree, p: nat, name: string)
    ensures Child(t, p, name) < 512 ==> t[Child(t, p, name)].name == name
  {
  }

  /** A file that replaces another one has its path, and the other is gone. */
  lemma ReplaceShows(op: Op, s: State, s': State)
    requires op.Replace? && OpOk(op) && |s.files| == 512 && Replaces(op, true, s, s') && WellFormed(s.t)
    requires WellFormed(s'.t)
    requires VolumesOk(s.t, [HOME]) && Live(s.t, Target(s.t, op.to).value.parent)
    ensures
      var n, at := Found(s.t, op.path).value, Target(s.t, op.to).value;
      && Path(s.t, n).Some? && Path(s.t, at.parent).Some?
      && var p, to := Path(s.t, n).value, Path(s.t, at.parent).value + "/" + at.name;
         if Inner(s.t, HOME, n) then
           RecordOf(s.t, s.files, n) in Shown(s) && Shown(s') == Apart(Apart(Shown(s), p), to) + {Record(File, to, s.files[n])}
         else Shown(s') == Shown(s)
  {
    hide WellFormed, Path, Inner, Lookup, Under, Found, Target, ValidName, VolumesOk, Child, VolumeFor, ReplaceAllowed,
      AfterReplace;
    var n, at := Found(s.t, op.path).value, Target(s.t, op.to).value;
    var other := Child(s.t, at.parent, at.name);
    ReplacedInner(s.t, HOME, n, at);
    ReplaceTakes(s.t, n, at);
    PathShape(s.t, n);
    PathShape(s.t, at.parent);
    var p, to := Path(s.t, n).value, Path(s.t, at.parent).value + "/" + at.name;
    forall m: nat | m < 512 && Live(s'.t, m)
      ensures s'.t[m].kind == s.t[m].kind && Live(s.t, m) && s'.files[m] == s.files[m]
      ensures (other < 512 && m == other ==> m == n)
      ensures Path(s.t, m).Some? && Path(s'.t, m) == Some(if m == n then to else Path(s.t, m).value)
    {
      ReplacedNode(s.t, n, at, m);
    }
    if other < 512 { OtherPath(s.t, at); }
    OtherInside(s.t, n, at);
    ShownReplaced(s, s', n, other, p, to);
  }

  lemma ReplaceTakes(t: Tree, n: nat, at: Place)
    requires n < 512 && at.parent < 512 && WellFormed(t) && ReplaceAllowed(t, [HOME], n, at)
    ensures 0 < n && t[n].kind == File && Live(t, n) && t[at.parent].kind == Directory && at.parent != n
    ensures Under(t, n, HOME, 511) == Under(t, at.parent, HOME, 511)
    ensures
      var other := Child(t, at.parent, at.name);
      other < 512 ==> 0 < other && t[other].kind == File && t[other].parent == at.parent && t[other].name == at.name && Live(t, other)
  {
    hide WellFormed, Under, ChildFrom, VolumeFor, Fitting;
    RootLocked(t);
    OnlyVolume(t, HOME, n);
    OnlyVolume(t, HOME, at.parent);
    if Child(t, at.parent, at.name) < 512 { ChildParent(t, at.parent, at.name); ChildNamed(t, at.parent, at.name); }
  }

  /** The replaced file lies where the other one does. */
  lemma OtherInside(t: Tree, n: nat, at: Place)
    requires n < 512 && at.parent < 512 && WellFormed(t) && VolumesOk(t, [HOME]) && ReplaceAllowed(t, [HOME], n, at)
    ensures Inner(t, HOME, Child(t, at.parent, at.name)) ==> Inner(t, HOME, n)
    ensures Live(AfterReplace(t, n, at), n)
  {
    hide WellFormed, Under, Path, Child, VolumeFor, Fitting, VolumesOk;
    ReplaceTakes(t, n, at);
    RootLocked(t);
    RootHeld(t, HOME, n);
    var other := Child(t, at.parent, at.name);
    if other < 512 { UpOne(t, HOME, other); }
  }

  /** Where a replacement leaves a node. */
  lemma ReplacedNode(t: Tree, n: nat, at: Place, m: nat)
    requires WellFormed(t) && VolumesOk(t, [HOME]) && n < 512 && at.parent < 512 && ValidName(at.name)
    requires Live(t, at.parent)
    requires ReplaceAllowed(t, [HOME], n, at) && Live(AfterReplace(t, n, at), m)
    ensures Live(t, m) && AfterReplace(t, n, at)[m].kind == t[m].kind && Path(t, m).Some? && Path(t, at.parent).Some?
    ensures Child(t, at.parent, at.name) < 512 && m == Child(t, at.parent, at.name) ==> m == n
    ensures Path(AfterReplace(t, n, at), m) ==
            Some(if m == n then Path(t, at.parent).value + "/" + at.name else Path(t, m).value)
  {
    hide WellFormed, Under, Path, Child, VolumeFor, Fitting, ValidName, Below, ReplaceAllowed, VolumesOk;
    ReplaceTakes(t, n, at);
    var other := Child(t, at.parent, at.name);
    PathShape(t, at.parent);
    PathShape(t, m);
    if other == n {
      UpPath(t, n);
    } else {
      FileIsChildless(t, n);
      if other < 512 {
        FileIsChildless(t, other);
        RemovedPaths(t, other);
        NoOtherChild(t, at.parent, at.name);
        FileIsChildless(Removed(t, other), n);
        MovedLeaf(Removed(t, other), n, at.parent, at.name, m);
      } else {
        MovedLeaf(t, n, at.parent, at.name, m);
      }
    }
  }

  lemma MovedLeaf(t: Tree, n: nat, p: nat, name: string, m: nat)
    requires WellFormed(t) && 0 < n && Live(t, n) && Live(t, p) && t[p].kind == Directory && p != n && Childless(t, n)
    requires Child(t, p, name) == 512 && ValidName(name) && Live(t, m)
    ensures Path(t, m).Some? && Path(t, p).Some?
    ensures Path(Moved(t, n, p, name), m) == Some(if m == n then Path(t, p).value + "/" + name else Path(t, m).value)
  {
    hide WellFormed, Under, Path, Child, ValidName, Renamed;
    PathShape(t, m);
    PathShape(t, p);
    PathShape(t, n);
    NotOnPath(t, n, p, 511);
    if m != n { NotOnPath(t, n, m, 511); MovedPath(t, n, p, name, m); }
    else { MovedNode(t, n, p, name, n); RenamedAll(Path(t, n).value, Path(t, p).value + "/" + name); }
  }

  lemma OtherPath(t: Tree, at: Place)
    requires WellFormed(t) && at.parent < 512 && Child(t, at.parent, at.name) < 512
    ensures
      var other := Child(t, at.parent, at.name);
      Path(t, at.parent).Some? && Path(t, other) == Some(Path(t, at.parent).value + "/" + at.name)
  {
    hide WellFormed, Path;
    ChildParent(t, at.parent, at.name);
    ChildNamed(t, at.parent, at.name);
    UpPath(t, Child(t, at.parent, at.name));
  }

  lemma ShownReplaced(s: State, s': State, n: nat, other: nat, p: string, to: string)
    requires |s.files| == 512 && |s'.files| == 512 && WellFormed(s.t) && WellFormed(s'.t) && Live(s'.t, n)
    requires Path(s.t, n) == Some(p)
    requires s.t[n].kind == File && (other < 512 ==> Live(s.t, other) && Path(s.t, other) == Some(to))
    requires forall m: nat :: Inner(s'.t, HOME, m) <==> Inner(s.t, HOME, m) && (m == other ==> m == n)
    requires Inner(s.t, HOME, other) ==> Inner(s.t, HOME, n)
    requires forall m: nat :: m < 512 && Live(s'.t, m) ==>
               && s'.t[m].kind == s.t[m].kind && s'.files[m] == s.files[m] && Live(s.t, m) && Path(s.t, m).Some?
               && Path(s'.t, m) == Some(if m == n then to else Path(s.t, m).value)
    ensures if Inner(s.t, HOME, n) then
              && Path(s.t, n).Some? && RecordOf(s.t, s.files, n) in Shown(s)
              && Shown(s') == Apart(Apart(Shown(s), p), to) + {Record(File, to, s.files[n])}
            else Shown(s') == Shown(s)
  {
    hide WellFormed, Path, Inner;
    var a, b := Shown(s), Shown(s');
    if Inner(s.t, HOME, n) {
      ShownNode(s, n);
      ShownNode(s', n);
      var c := Apart(Apart(a, p), to) + {Record(File, to, s.files[n])};
      forall e | e in b ensures e in c {
        var m := ShownOnly(s', e);
        ShownNode(s, m);
        InnerIsLive(s'.t, m);
        if m != n {
          if Path(s'.t, m) == Path(s'.t, n) { OnePath(s', m, n); }
          if Path(s.t, m) == Path(s.t, n) { OnePath(s, m, n); }
        }
      }
      forall e | e in c ensures e in b {
        if e != RecordOf(s'.t, s'.files, n) {
          var m := ShownOnly(s, e);
          ShownNode(s', m);
          InnerIsLive(s'.t, m);
        }
      }
    } else {
      forall e | e in b ensures e in a { var m := ShownOnly(s', e); ShownNode(s, m); InnerIsLive(s'.t, m); }
      forall e | e in a
        ensures e in b { var m := ShownOnly(s, e); InnerIsLive(s.t, m); ShownNode(s', m); InnerIsLive(s'.t, m); }
    }
  }

  // ----- What a restart brings back -----

  /** What a restart after a successful commit shows: what the volume showed at that commit, or at a commit after it. */
  lemma RestartShows(ops: seq<Op>, dones: seq<bool>, states: seq<State>, cap: nat, apps: seq<string>, i: nat, k: nat)
    requires ActsRun(ops, dones, states, cap, apps) && i < k < |ops| && ops[i].Commit? && dones[i] && ops[k].Restart?
    ensures Shown(states[k + 1]) == Shown(states[i])
            || exists j :: i < j < k && ops[j].Commit? && Shown(states[k + 1]) == Shown(states[j])
  {
    hide Shown, Writes, Makes, Deletes, Renames, Replaces, StartOnly, Acts;
    MayShow(ops, dones, states, cap, apps, i, k);
    RestartActs(ops, dones, states, cap, apps, k);
  }

  lemma RestartActs(ops: seq<Op>, dones: seq<bool>, states: seq<State>, cap: nat, apps: seq<string>, k: nat)
    requires ActsRun(ops, dones, states, cap, apps) && k < |ops| && ops[k].Restart?
    ensures Shown(states[k + 1]) in states[k].may && states[k + 1].may == {Shown(states[k + 1])}
  {
    hide Shown, StartOnly, Writes, Makes, Deletes, Renames, Replaces, Commits;
  }

  lemma {:induction false} MayShow(ops: seq<Op>, dones: seq<bool>, states: seq<State>, cap: nat, apps: seq<string>,
      i: nat, k: nat)
    requires ActsRun(ops, dones, states, cap, apps) && i < k <= |ops| && ops[i].Commit? && dones[i]
    ensures forall shown | shown in states[k].may ::
              shown == Shown(states[i]) || exists j :: i < j < k && ops[j].Commit? && shown == Shown(states[j])
    decreases k
  {
    hide Shown, StartOnly, ActsRun;
    MayStep(ops, dones, states, cap, apps, k - 1);
    if k - 1 > i {
      MayShow(ops, dones, states, cap, apps, i, k - 1);
    }
  }

  /** How a request changes what a restart may show. */
  lemma MayStep(ops: seq<Op>, dones: seq<bool>, states: seq<State>, cap: nat, apps: seq<string>, k: nat)
    requires ActsRun(ops, dones, states, cap, apps) && k < |ops|
    ensures |states| == |ops| + 1 && |dones| == |ops| && |states[k].files| == 512 && |states[k + 1].files| == 512
    ensures if ops[k].Commit? then states[k + 1].may <= (if dones[k] then {} else states[k].may) + {Shown(states[k])}
            else states[k + 1].may <= states[k].may
  {
    hide Shown, StartOnly;
  }
}
