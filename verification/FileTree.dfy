/** fs_path, fs_lookup and the operations on the tree in kernel/fs.c, in place on the node table. */
module FileTree {
  import opened Wrappers
  import opened FsTree
  import opened FsEdits
  import opened FsStart

  /** The path of a node if it fits. */
  function Fitting(t: Tree, n: nat): Option<string>
    requires n < 512
  {
    match Path(t, n)
    case Some(s) => if |s| <= PATH then Some(Printed(s)) else None
    case None => None
  }

  // ----- The last component of a path -----

  function Trimmed(p: string): (r: string)
    ensures |r| <= |p| && r == p[..|r|] && forall i :: |r| <= i < |p| ==> p[i] == '/'
    ensures |r| > 1 ==> r[|r| - 1] != '/'
    ensures p != "" ==> r != ""
  {
    if |p| > 1 && p[|p| - 1] == '/' then Trimmed(p[..|p| - 1]) else p
  }

  /** Up to and including the last slash. */
  function Directories(p: string): (d: string)
    ensures |d| <= |p| && d == p[..|d|] && '/' !in p[|d|..] && (d != "" ==> d[|d| - 1] == '/')
  {
    if p == "" || p[|p| - 1] == '/' then p
    else
      var d := Directories(p[..|p| - 1]);
      assert p[|d|..] == p[..|p| - 1][|d|..] + [p[|p| - 1]];
      d
  }

  datatype Place = Place(parent: nat, name: string)

  /** parent_for(): the directory a path names a child of, and the child's name. */
  function Parent(t: Tree, volumes: seq<nat>, cwd: nat, path: string): (r: Result<Place>)
    requires cwd < 512 && forall i :: 0 <= i < |volumes| ==> volumes[i] < 512
    ensures r.Ok? ==> r.value.parent < 512 && ValidName(r.value.name)
  {
    if path == "" || |path| > PATH then Err(BadName)
    else
      var p := Trimmed(path);
      var d := Directories(p);
      var name := p[|d|..];
      if |name| > NAME then Err(TooLong)
      else if name == "" || name == "." || name == ".." then Err(BadName)
      else if d == "" then Ok(Place(cwd, name))
      else match Lookup(t, volumes, cwd, d)
        case Err(e) => Err(e)
        case Ok(n) => Ok(Place(n, name))
  }

  /** volume_for() */
  function VolumeFrom(t: Tree, volumes: seq<nat>, n: nat, i: nat): int
    requires n < 512 && i <= |volumes|
    decreases |volumes| - i
  {
    if i == |volumes| then -1
    else if Under(t, n, volumes[i], 511) then i
    else VolumeFrom(t, volumes, n, i + 1)
  }

  function VolumeFor(t: Tree, volumes: seq<nat>, n: nat): int
    requires n < 512
  {
    VolumeFrom(t, volumes, n, 0)
  }

  class Table {
    const nodes: array<Node>
    /** volume_nodes[] */
    const volumes: seq<nat>

    /** The table of a start: fs_init(), the programs that fs_unpack() finds in the archive, and the roots of the
        volumes that fs_mount_volumes() mounts. */
    constructor (apps: seq<string>, count: nat)
      requires Archive(apps)
      ensures Valid() && fresh(nodes) && volumes == Roots(apps, count)
      ensures
        var all := StartNodes(apps, count);
        forall k :: 0 <= k < 512 ==> nodes[k] == if k < |all| then all[k] else UNUSED
    {
      hide WellFormed, INITIAL, StartNodes, Laid, ValidName, Roots;
      var all := StartNodes(apps, count);
      StartParents(apps, count);
      nodes := new Node[512](_ => UNUSED);
      volumes := Roots(apps, count);
      new;
      nodes[0] := all[0];
      StartParts(apps, count);
      InitialTop(0);
      OnlyRoot(Made(all, 1));
      assert nodes[..] == Made(all, 1);
      for i := 1 to |all|
        invariant nodes[..] == Made(all, i) && WellFormed(Made(all, i)) && forall k :: 0 < k < i ==>
                    all[k].kind != Unused
      {
        StartLaid(apps, count, i);
        MadeNext(all, i);
        LaidKind(all, i);
        nodes[i] := all[i];
      }
      StartVolumes(apps, count);
    }

    ghost predicate Valid()
      reads this, nodes
    {
      && nodes.Length == 512 && (forall i :: 0 <= i < 512 ==> nodes[i].parent < 512)
      && WellFormed(nodes[..]) && VolumesOk(nodes[..], volumes)
    }

    ghost function T(): Tree
      requires Valid()
      reads this, nodes
    {
      nodes[..]
    }

    /** fs_path() */
    method FsPath(n: nat) returns (r: Option<string>)
      requires nodes.Length == 512 && (forall i :: 0 <= i < 512 ==> nodes[i].parent < 512) && n < 512
      ensures r == Fitting(nodes[..], n)
    {
      hide PathFrom, Joined;
      ghost var t: Tree := nodes[..];
      var tmp := new char[192];
      var p := 191;
      if n == 0 { p := p - 1; tmp[p] := '/'; PathEnds(t, 0, 512, ""); JoinEmpty(Path(t, n)); return Some("/"); }
      var m, steps := n, 0;
      JoinEmpty(Path(t, n));
      assert tmp[191..191] == "";
      while m != 0 && steps < 512
        invariant m < 512 && 0 <= p <= 191 && steps <= 512 && nodes[..] == t
        invariant Path(t, n) == Joined(PathFrom(t, m, 512 - steps), tmp[p..191])
        invariant m == n || (p < 191 && tmp[p] == '/')
        decreases 512 - steps
      {
        var name := nodes[m].name;
        if p < |name| + 1 { TooLongPath(t, m, 512 - steps, tmp[p..191]); return None; }
        ghost var tail := tmp[p..191];
        p := p - |name|;
        forall k | 0 <= k < |name| { tmp[p + k] := name[k]; }
        p := p - 1;
        tmp[p] := '/';
        PathText(tmp[p..191], name, tail);
        JoinStep(t, m, 512 - steps, tail);
        m := nodes[m].parent;
        steps := steps + 1;
      }
      PathEnds(t, m, 512 - steps, tmp[p..191]);
      if m != 0 { return None; }
      r := Some(tmp[p..191]);
    }

    /** descendant() */
    method Descendant(n: nat, parent: nat) returns (yes: bool)
      requires nodes.Length == 512 && (forall i :: 0 <= i < 512 ==> nodes[i].parent < 512) && n < 512
      ensures yes == Under(nodes[..], n, parent, 511)
    {
      var m := n;
      for i := 0 to 512
        invariant m < 512
        invariant i < 512 ==> Under(nodes[..], n, parent, 511) == Under(nodes[..], m, parent, 511 - i)
        invariant i == 512 ==> !Under(nodes[..], n, parent, 511)
      {
        if m == parent { return true; }
        if m == 0 { return false; }
        m := nodes[m].parent;
      }
      yes := false;
    }

    /** child() */
    method FindChild(parent: nat, name: string) returns (c: nat)
      requires nodes.Length == 512 && (forall i :: 0 <= i < 512 ==> nodes[i].parent < 512)
      ensures c == Child(nodes[..], parent, name)
    {
      for i := 1 to 512
        invariant Child(nodes[..], parent, name) == ChildFrom(nodes[..], parent, name, i)
      {
        if nodes[i].kind != Unused && nodes[i].parent == parent && nodes[i].name == name { return i; }
      }
      c := 512;
    }

    method FindVolume(n: nat) returns (v: int)
      requires nodes.Length == 512 && (forall i :: 0 <= i < 512 ==> nodes[i].parent < 512) && n < 512
      ensures v == VolumeFor(nodes[..], volumes, n)
    {
      hide Under;
      for i := 0 to |volumes|
        invariant VolumeFor(nodes[..], volumes, n) == VolumeFrom(nodes[..], volumes, n, i)
      {
        var under := Descendant(n, volumes[i]);
        if under { return i; }
      }
      v := -1;
    }

    /** The inner loop of fs_lookup: the name that starts at p. */
    method NextName(path: string, first: nat) returns (p: nat, fits: bool)
      requires first < |path| && path[first] != '/'
      ensures fits <==> |NameAt(path[first..])| <= NAME
      ensures fits ==> first < p <= |path| && NameAt(path[first..]) == path[first..p]
    {
      hide NameAt;
      var k := 0;
      p := first;
      NameAtFrom(path, first, p);
      while p < |path| && path[p] != '/'
        invariant p == first + k <= |path| && k <= NAME
        invariant NameAt(path[first..]) == path[first..p] + NameAt(path[p..])
        decreases |path| - p
      {
        NameAtMore(path, first, p);
        if k == NAME { return p, false; }
        k, p := k + 1, p + 1;
      }
      NameAtEnd(path[p..]);
      assert path[first..p] + "" == path[first..p];
      fits := true;
    }

    /** The loop of fs_lookup. */
    method Follow(start: nat, path: string) returns (r: Result<nat>)
      requires nodes.Length == 512 && (forall i :: 0 <= i < 512 ==> nodes[i].parent < 512) && start < 512
      ensures r == Walk(nodes[..], start, path)
    {
      hide Walk, Child, NameAt;
      ghost var t: Tree := nodes[..];
      var n, p := start, 0;
      assert path[0..] == path;
      while p < |path|
        invariant n < 512 && p <= |path| && nodes[..] == t
        invariant Walk(t, start, path) == Walk(t, n, path[p..])
      {
        while p < |path| && path[p] == '/'
          invariant p <= |path| && Walk(t, start, path) == Walk(t, n, path[p..])
        {
          WalkSlash(t, n, path[p..]);
          assert path[p..][1..] == path[p + 1..];
          p := p + 1;
        }
        if p == |path| { break; }
        WalkStep(t, n, path[p..]);
        if nodes[n].kind != Directory { return Err(NotDirectory); }
        var first := p;
        var fits;
        p, fits := NextName(path, p);
        if !fits { return Err(TooLong); }
        var name := path[first..p];
        SliceFrom(path, first, p);
        if name == "." { continue; }
        if name == ".." { n := nodes[n].parent; continue; }
        var c := FindChild(n, name);
        if c == 512 { return Err(NotFound); }
        n := c;
      }
      assert path[p..] == "";
      WalkEnd(t, n);
      r := Ok(n);
    }

    /** fs_lookup() */
    method FsLookup(cwd: nat, path: string) returns (r: Result<nat>)
      requires Valid() && cwd < 512
      ensures r == Lookup(T(), volumes, cwd, path)
    {
      hide Walk, WellFormed;
      if path == "" { return Err(NotFound); }
      if |path| > PATH { return Err(TooLong); }
      var n, from := if path[0] == '/' then 0 else cwd, path;
      if HasDrive(path) {
        var index: nat := Upper(path[0]) as int - 'C' as int;
        if |path| > 2 && path[2] != '/' { return Err(BadName); }
        if index >= |volumes| { return Err(NoVolume); }
        n, from := volumes[index], path[2..];
      }
      r := Follow(n, from);
      if r.Ok? && path[|path| - 1] == '/' && nodes[r.value].kind != Directory { return Err(NotDirectory); }
    }

    /** The length of a path without its trailing slashes. */
    method Strip(path: string) returns (len: nat)
      requires path != ""
      ensures len <= |path| && path[..len] == Trimmed(path)
    {
      len := |path|;
      assert path[..len] == path;
      while len > 1 && path[len - 1] == '/'
        invariant 0 < len <= |path| && Trimmed(path) == Trimmed(path[..len])
      {
        assert path[..len][..len - 1] == path[..len - 1];
        len := len - 1;
      }
    }

    /** Where the last component begins. */
    method LastName(path: string) returns (pos: nat)
      ensures pos <= |path| && path[..pos] == Directories(path)
    {
      pos := |path|;
      assert path[..pos] == path;
      while pos > 0 && path[pos - 1] != '/'
        invariant 0 <= pos <= |path| && Directories(path) == Directories(path[..pos])
      {
        assert path[..pos][..pos - 1] == path[..pos - 1];
        pos := pos - 1;
      }
    }

    /** parent_for() */
    method ParentFor(cwd: nat, path: string) returns (r: Result<Place>)
      requires Valid() && cwd < 512
      ensures r == Parent(T(), volumes, cwd, path)
    {
      hide Lookup, WellFormed, Trimmed, Directories;
      if path == "" || |path| > PATH { return Err(BadName); }
      var len := Strip(path);
      var tmp := path[..len];
      var pos := LastName(tmp);
      if len - pos > NAME { return Err(TooLong); }
      var name := tmp[pos..];
      if name == "" || name == "." || name == ".." { return Err(BadName); }
      if pos == 0 { return Ok(Place(cwd, name)); }
      var n := FsLookup(cwd, tmp[..pos]);
      r := match n case Ok(v) => Ok(Place(v, name)) case Err(e) => Err(e);
    }

    /** create_node() */
    method CreateNode(cwd: nat, path: string, kind: Kind) returns (r: Result<nat>)
      requires Valid() && cwd < 512 && kind != Unused
      modifies nodes
      ensures Valid()
      ensures r.Ok? <==> Parent(old(T()), volumes, cwd, path).Ok? && CreateAllowed(old(T()), Parent(old(T()), volumes, cwd, path).value)
      ensures r.Ok? ==>
                var place := Parent(old(T()), volumes, cwd, path).value;
                r.value == FirstFree(old(T()), 1) && CanCreate(old(T()), r.value, place.parent, place.name)
                && T() == Created(old(T()), r.value, place.parent, place.name, kind, false)
      ensures r.Err? ==> T() == old(T()) && (r.error == NoSpace ==> FirstFree(old(T()), 1) == 512)
    {
      hide Lookup, WellFormed, Parent, Path, Child, FirstFree;
      ParentErrors(T(), volumes, cwd, path);
      var place := ParentFor(cwd, path);
      if place.Err? { return Err(place.error); }
      var Place(p, name) := place.value;
      if nodes[p].kind != Directory { return Err(NotDirectory); }
      if nodes[p].locked { return Err(Denied); }
      PathShape(T(), p);
      var full := FsPath(p);
      if full.None? || |full.value| + (if p != 0 then 1 else 0) + |name| > PATH { return Err(TooLong); }
      var c := FindChild(p, name);
      if c < 512 { return Err(Exists); }
      var i := MakeNode();
      if i == 512 { return Err(NoSpace); }
      ghost var t := T();
      CreatedOk(t, i, p, name, kind, false);
      CreateKeepsVolumes(t, volumes, i, p, name, kind);
      nodes[i] := Node(kind, p, false, 0, name);
      assert nodes[..] == Created(t, i, p, name, kind, false);
      r := Ok(i);
    }

    /** The slot that make_node() takes. */
    method MakeNode() returns (i: nat)
      requires Valid()
      ensures i == FirstFree(T(), 1)
    {
      hide WellFormed;
      for k := 1 to 512
        invariant FirstFree(T(), 1) == FirstFree(T(), k)
      {
        if nodes[k].kind == Unused { return k; }
      }
      i := 512;
    }

    /** fs_remove(); inUse are the nodes that are somebody's current directory. */
    method FsRemove(cwd: nat, path: string, inUse: set<nat>) returns (r: Result<nat>)
      requires Valid() && cwd < 512
      modifies nodes
      ensures Valid()
      ensures r.Ok? <==>
                && Lookup(old(T()), volumes, cwd, path).Ok?
                && RemoveAllowed(old(T()), Lookup(old(T()), volumes, cwd, path).value, inUse)
      ensures r.Ok? ==> Lookup(old(T()), volumes, cwd, path) == r && T() == Removed(old(T()), r.value)
      ensures r.Err? ==> T() == old(T())
    {
      hide Lookup, WellFormed, Path;
      var found := FsLookup(cwd, path);
      if found.Err? { return found; }
      var n := found.value;
      RootLocked(T());
      if nodes[n].locked || nodes[nodes[n].parent].locked { return Err(Denied); }
      if nodes[n].refs > 0 || n in inUse { return Err(Busy); }
      for i := 1 to 512
        invariant forall k :: 0 < k < i && Live(T(), k) ==> T()[k].parent != n
      {
        if nodes[i].kind != Unused && nodes[i].parent == n { return Err(NotEmpty); }
      }
      ghost var t := T();
      RemovedPaths(t, n);
      nodes[n] := UNUSED;
      assert nodes[..] == Removed(t, n);
      RemoveKeepsVolumes(t, volumes, n);
      r := found;
    }

    /** fs_move(): the node and all below it get new paths, or nothing changes. */
    method FsMove(cwd: nat, src: string, dst: string) returns (r: Result<nat>)
      requires Valid() && cwd < 512
      modifies nodes
      ensures Valid()
      ensures r.Ok? <==>
                && Lookup(old(T()), volumes, cwd, src).Ok? && Parent(old(T()), volumes, cwd, dst).Ok?
                && (dst != "" && dst[|dst| - 1] == '/' ==> old(T())[Lookup(old(T()), volumes, cwd, src).value].kind == Directory)
                && MoveAllowed(old(T()), volumes, Lookup(old(T()), volumes, cwd, src).value, Parent(old(T()), volumes, cwd, dst).value)
      ensures r.Ok? ==>
                && Lookup(old(T()), volumes, cwd, src) == r && Parent(old(T()), volumes, cwd, dst).Ok?
                && T() == AfterMove(old(T()), r.value, Parent(old(T()), volumes, cwd, dst).value)
      ensures r.Err? ==> T() == old(T())
    {
      hide Lookup, WellFormed, Path, Parent, Child, Under, VolumeFor, Fits;
      var found := FsLookup(cwd, src);
      if found.Err? { return found; }
      var n := found.value;
      if dst != "" && dst[|dst| - 1] == '/' && nodes[n].kind != Directory { return Err(NotDirectory); }
      var place := ParentFor(cwd, dst);
      if place.Err? { return Err(place.error); }
      var Place(p, name) := place.value;
      var fromVolume := FindVolume(n);
      var toVolume := FindVolume(p);
      if fromVolume != toVolume { return Err(CrossVolume); }
      if nodes[p].kind != Directory { return Err(NotDirectory); }
      RootLocked(T());
      if nodes[n].locked || nodes[nodes[n].parent].locked || nodes[p].locked { return Err(Denied); }
      var inside := Descendant(p, n);
      if inside { return Err(BadName); }
      var other := FindChild(p, name);
      if other == n { return found; }
      if other < 512 { return Err(Exists); }
      LookupLive(T(), volumes, cwd, src);
      r := MoveTo(n, p, name);
    }

    /** The change of fs_move, taken back if a path gets too long. */
    method MoveTo(n: nat, p: nat, name: string) returns (r: Result<nat>)
      requires Valid() && CanMove(T(), n, p, name) && !T()[T()[n].parent].locked
      modifies nodes
      ensures Valid()
      ensures r.Ok? <==> Fits(old(T()), n, p, name, 512)
      ensures if r.Ok? then r.value == n && T() == Moved(old(T()), n, p, name) else T() == old(T())
    {
      hide WellFormed, Path, Child, Under;
      ghost var t := T();
      var oldparent, oldname := nodes[n].parent, nodes[n].name;
      nodes[n] := nodes[n].(parent := p, name := name);
      ghost var moved := Moved(t, n, p, name);
      assert nodes[..] == moved;
      for i := 1 to 512
        invariant nodes[..] == moved && Fits(t, n, p, name, i)
      {
        if nodes[i].kind != Unused {
          var below := Descendant(i, n);
          if below {
            var path := FsPath(i);
            if path.None? {
              nodes[n] := nodes[n].(parent := oldparent, name := oldname);
              MoveBack(t, n, p, name);
              assert nodes[..] == Moved(moved, n, oldparent, oldname);
              return Err(TooLong);
            }
          }
        }
      }
      FitsMeans(t, n, p, name);
      MovedOk(t, n, p, name);
      MoveKeepsVolumes(t, volumes, n, p, name);
      r := Ok(n);
    }

    /** fs_replace(): a file takes a name, removing the file that had it. */
    method FsReplace(cwd: nat, src: string, dst: string) returns (r: Result<nat>)
      requires Valid() && cwd < 512
      modifies nodes
      ensures Valid()
      ensures r.Ok? <==>
                && Lookup(old(T()), volumes, cwd, src).Ok? && Parent(old(T()), volumes, cwd, dst).Ok?
                && dst[|dst| - 1] != '/'
                && ReplaceAllowed(old(T()), volumes, Lookup(old(T()), volumes, cwd, src).value, Parent(old(T()), volumes, cwd, dst).value)
      ensures r.Ok? ==>
                && Lookup(old(T()), volumes, cwd, src) == r && Parent(old(T()), volumes, cwd, dst).Ok?
                && T() == AfterReplace(old(T()), r.value, Parent(old(T()), volumes, cwd, dst).value)
      ensures r.Err? ==> T() == old(T())
    {
      hide Lookup, WellFormed, Path, Parent, Child, Under, VolumeFor, Moved, Removed, VolumesOk;
      VolumesFit(T(), volumes);
      var found := FsLookup(cwd, src);
      if found.Err? { return found; }
      var n := found.value;
      if nodes[n].kind != File { return Err(BadName); }
      var place := ParentFor(cwd, dst);
      if place.Err? { return Err(place.error); }
      var Place(p, name) := place.value;
      var fromVolume := FindVolume(n);
      var toVolume := FindVolume(p);
      if fromVolume != toVolume { return Err(CrossVolume); }
      if nodes[p].kind != Directory { return Err(NotDirectory); }
      ParentNotEmpty(T(), volumes, cwd, dst);
      if dst == "" || dst[|dst| - 1] == '/' { return Err(NotDirectory); }
      RootLocked(T());
      if nodes[n].locked || nodes[nodes[n].parent].locked || nodes[p].locked { return Err(Denied); }
      var other := FindChild(p, name);
      if other == n { return found; }
      if other < 512 && (nodes[other].kind != File || nodes[other].locked) { return Err(Denied); }
      if nodes[n].refs > 0 || (other < 512 && nodes[other].refs > 0) { return Err(Busy); }
      PathShape(T(), p);
      var full := FsPath(p);
      if full.None? || |full.value| + 1 + |name| > PATH { return Err(TooLong); }
      ghost var t := T();
      ReplaceKeeps(t, volumes, n, place.value);
      if other < 512 { nodes[other] := UNUSED; }
      nodes[n] := nodes[n].(parent := p, name := name);
      ReplaceIs(t, n, place.value, nodes[..]);
      r := found;
    }
  }

  lemma {:induction false} WalkLive(t: Tree, n: nat, p: string)
    requires WellFormed(t) && Live(t, n) && Walk(t, n, p).Ok?
    ensures Live(t, Walk(t, n, p).value)
    decreases |p|
  {
    hide WellFormed, NodeOk, Walk, NameAt, Child;
    if p == "" {
      WalkEnd(t, n);
    } else if p[0] == '/' {
      WalkSlash(t, n, p);
      WalkLive(t, n, p[1..]);
    } else {
      WalkStep(t, n, p);
      NameNonempty(p);
      var name := NameAt(p);
      ParentLive(t, n);
      ChildLive(t, n, name);
      WalkLive(t, if name == "." then n else if name == ".." then t[n].parent else Child(t, n, name), p[|name|..]);
    }
  }

  lemma NameNonempty(p: string)
    requires p != "" && p[0] != '/'
    ensures NameAt(p) != ""
  {
  }

  lemma ChildLive(t: Tree, p: nat, name: string)
    ensures Child(t, p, name) < 512 ==> Live(t, Child(t, p, name))
  {
  }

  lemma ParentLive(t: Tree, n: nat)
    requires WellFormed(t) && Live(t, n)
    ensures Live(t, t[n].parent)
  {
    hide NodeOk;
    if n != 0 { NodeIsOk(t, n); }
  }

  /** A path is never resolved to an unused slot, even from a stale current directory. */
  lemma LookupLive(t: Tree, volumes: seq<nat>, cwd: nat, path: string)
    requires WellFormed(t) && VolumesOk(t, volumes) && cwd < 512 && Lookup(t, volumes, cwd, path).Ok?
    ensures Live(t, Lookup(t, volumes, cwd, path).value)
  {
    hide WellFormed, NodeOk, Walk;
    RootLocked(t);
    var n := Lookup(t, volumes, cwd, path).value;
    if HasDrive(path) {
      WalkLive(t, volumes[Upper(path[0]) as int - 'C' as int], path[2..]);
    } else {
      var start := if path[0] == '/' then 0 else cwd;
      if start == cwd && path[0] != '/' { WalkStep(t, cwd, path); }
      WalkLive(t, start, path);
    }
  }

  lemma OnlyRoot(t: Tree)
    requires t[0] == Node(Directory, 0, true, 0, "") && forall i :: 0 < i < 512 ==> t[i] == UNUSED
    ensures WellFormed(t)
  {
  }

  lemma LaidKind(all: seq<Node>, i: nat)
    requires 0 < i < |all| && Laid(all, i)
    ensures all[i].kind != Unused && (all[i].locked ==> all[i].parent < i && all[all[i].parent].locked)
  {
  }

  /** The volumes of a start are directories of locked directories. */
  lemma StartVolumes(apps: seq<string>, count: nat)
    requires Archive(apps) && |StartNodes(apps, count)| <= 512
    requires forall k :: 0 <= k < |StartNodes(apps, count)| ==> StartNodes(apps, count)[k].parent < 512
    ensures VolumesOk(Made(StartNodes(apps, count), |StartNodes(apps, count)|), Roots(apps, count))
  {
    hide INITIAL, StartNodes, Laid, ValidName, Letter;
    var all, volumes := StartNodes(apps, count), Roots(apps, count);
    StartParts(apps, count);
    InitialTop(0);
    HomeNode();
    forall k | 0 < k < |all| && all[k].locked ensures all[k].parent < k && all[all[k].parent].locked {
      StartLaid(apps, count, k);
      LaidKind(all, k);
    }
    forall i | 0 < i < |volumes| ensures all[volumes[i]] == Open(15 + |apps|, Letter(i - 1)) { }
  }

  lemma HomeNode()
    ensures INITIAL[2] == Open(0, "home")
  {
  }

  lemma RootLocked(t: Tree)
    requires WellFormed(t)
    ensures t[0].locked && t[0].kind == Directory
  {
  }

  /** The lowest unused slot from i on, or 512. */
  function FirstFree(t: Tree, i: nat): (r: nat)
    requires i <= 512
    ensures i <= r <= 512 && (r < 512 ==> t[r].kind == Unused)
    ensures forall k :: i <= k < r ==> t[k].kind != Unused
    decreases 512 - i
  {
    if i == 512 || t[i].kind == Unused then i else FirstFree(t, i + 1)
  }

  /** Exactly when create_node() succeeds. */
  predicate CreateAllowed(t: Tree, place: Place)
    requires place.parent < 512
  {
    && t[place.parent].kind == Directory && !t[place.parent].locked
    && Fitting(t, place.parent).Some?
    && |Fitting(t, place.parent).value| + (if place.parent != 0 then 1 else 0) + |place.name| <= PATH
    && Child(t, place.parent, place.name) == 512 && FirstFree(t, 1) < 512
  }

  /** Exactly when fs_remove() succeeds. */
  predicate RemoveAllowed(t: Tree, n: nat, inUse: set<nat>)
    requires n < 512
  {
    !t[n].locked && !t[t[n].parent].locked && t[n].refs == 0 && n !in inUse && Childless(t, n)
  }

  lemma CreateKeepsVolumes(t: Tree, volumes: seq<nat>, i: nat, p: nat, name: string, kind: Kind)
    requires WellFormed(t) && VolumesOk(t, volumes) && 0 < i < 512 && p < 512 && t[i].kind == Unused
    ensures VolumesOk(Created(t, i, p, name, kind, false), volumes)
  {
    hide WellFormed, NodeOk, ValidName;
    forall k | 0 <= k < |volumes| ensures volumes[k] != i && t[volumes[k]].parent != i { NodeIsOk(t, volumes[k]); }
    forall n | 0 < n < 512 && Live(t, n) ensures t[n].parent != i { NodeIsOk(t, n); }
  }

  // ----- Moving -----

  /** The paths of the subtree still fit after a move, for nodes below end. */
  ghost predicate Fits(t: Tree, n: nat, p: nat, name: string, end: nat)
    requires n < 512 && p < 512
  {
    forall i :: 0 < i < end && i < 512 && Live(t, i) && Under(Moved(t, n, p, name), i, n, 511) ==>
      Fitting(Moved(t, n, p, name), i).Some?
  }

  lemma FitsMeans(t: Tree, n: nat, p: nat, name: string)
    requires WellFormed(t) && CanMove(t, n, p, name) && Fits(t, n, p, name, 512)
    ensures forall m :: 0 < m < 512 && Live(t, m) && Under(t, m, n, 511) ==>
              Path(Moved(t, n, p, name), m).Some? && |Path(Moved(t, n, p, name), m).value| <= PATH
  {
    hide WellFormed, Path, Child, Under, Below, PathFrom;
    forall m | 0 < m < 512 && Live(t, m) && Under(t, m, n, 511)
      ensures Path(Moved(t, n, p, name), m).Some? && |Path(Moved(t, n, p, name), m).value| <= PATH
    {
      MovedPath(t, n, p, name, m);
    }
  }

  /** Exactly when fs_move() succeeds, for a source node and a destination. */
  ghost predicate MoveAllowed(t: Tree, volumes: seq<nat>, n: nat, place: Place)
    requires n < 512 && place.parent < 512
  {
    && VolumeFor(t, volumes, n) == VolumeFor(t, volumes, place.parent)
    && t[place.parent].kind == Directory && !t[n].locked && !t[t[n].parent].locked && !t[place.parent].locked
    && !Under(t, place.parent, n, 511)
    && (Child(t, place.parent, place.name) == n
        || (Child(t, place.parent, place.name) == 512 && Fits(t, n, place.parent, place.name, 512)))
  }

  function AfterMove(t: Tree, n: nat, place: Place): Tree
    requires n < 512 && place.parent < 512
  {
    if Child(t, place.parent, place.name) == n then t else Moved(t, n, place.parent, place.name)
  }

  lemma MoveKeepsVolumes(t: Tree, volumes: seq<nat>, n: nat, p: nat, name: string)
    requires VolumesOk(t, volumes) && 0 < n < 512 && p < 512 && !t[t[n].parent].locked
    ensures VolumesOk(Moved(t, n, p, name), volumes)
  {
    forall i | 0 <= i < |volumes| ensures volumes[i] != n { }
  }

  // ----- Replacing -----

  /** Exactly when fs_replace() succeeds, for a source node and a destination. */
  predicate ReplaceAllowed(t: Tree, volumes: seq<nat>, n: nat, place: Place)
    requires n < 512 && place.parent < 512
  {
    var other := Child(t, place.parent, place.name);
    && t[n].kind == File && VolumeFor(t, volumes, n) == VolumeFor(t, volumes, place.parent)
    && t[place.parent].kind == Directory && !t[n].locked && !t[t[n].parent].locked && !t[place.parent].locked
    && (other == n
        || (&& (other < 512 ==> t[other].kind == File && !t[other].locked && t[other].refs == 0) && t[n].refs == 0
            && Fitting(t, place.parent).Some? && |Fitting(t, place.parent).value| + 1 + |place.name| <= PATH))
  }

  function AfterReplace(t: Tree, n: nat, place: Place): Tree
    requires n < 512 && place.parent < 512
  {
    var other := Child(t, place.parent, place.name);
    if other == n then t
    else Moved(if other < 512 then Removed(t, other) else t, n, place.parent, place.name)
  }

  lemma ParentNotEmpty(t: Tree, volumes: seq<nat>, cwd: nat, path: string)
    requires cwd < 512 && forall i :: 0 <= i < |volumes| ==> volumes[i] < 512
    requires Parent(t, volumes, cwd, path).Ok?
    ensures path != ""
  {
  }

  lemma ReplaceIs(t: Tree, n: nat, place: Place, t': seq<Node>)
    requires n < 512 && place.parent < 512 && Child(t, place.parent, place.name) != n
    requires
      var other := Child(t, place.parent, place.name);
      var t1 := if other < 512 then t[other := UNUSED] else t;
      t' == t1[n := t1[n].(parent := place.parent, name := place.name)]
    ensures t' == AfterReplace(t, n, place)
  {
    hide Child;
  }

  /** Files have no children. */
  lemma FileIsChildless(t: Tree, n: nat)
    requires WellFormed(t) && 0 < n < 512 && t[n].kind != Directory
    ensures Childless(t, n)
  {
    hide NodeOk;
    forall i | 0 < i < 512 && Live(t, i) ensures t[i].parent != n { NodeIsOk(t, i); }
  }

  /** Replacing keeps the tree well formed. */
  lemma ReplaceKeeps(t: Tree, volumes: seq<nat>, n: nat, place: Place)
    requires WellFormed(t) && VolumesOk(t, volumes) && n < 512 && place.parent < 512 && ValidName(place.name)
    requires ReplaceAllowed(t, volumes, n, place) && Child(t, place.parent, place.name) != n
    ensures WellFormed(AfterReplace(t, n, place)) && VolumesOk(AfterReplace(t, n, place), volumes)
  {
    hide WellFormed, Path, Child, Under, PathFrom, VolumeFor, ValidName;
    var Place(p, name) := place;
    var other := Child(t, p, name);
    RootLocked(t);
    var t1: Tree := t;
    if other < 512 {
      ChildParent(t, p, name);
      FileIsChildless(t, other);
      RemovedPaths(t, other);
      RemoveKeepsVolumes(t, volumes, other);
      t1 := Removed(t, other);
      NoOtherChild(t, p, name);
    }
    FileIsChildless(t1, n);
    ReplaceMove(t1, n, p, name);
    MoveKeepsVolumes(t1, volumes, n, p, name);
  }

  lemma ChildParent(t: Tree, p: nat, name: string)
    requires Child(t, p, name) < 512
    ensures 0 < Child(t, p, name) && t[Child(t, p, name)].parent == p
  {
  }

  /** Without that child there is none of that name. */
  lemma NoOtherChild(t: Tree, p: nat, name: string)
    requires WellFormed(t) && 0 < Child(t, p, name) < 512
    ensures Child(Removed(t, Child(t, p, name)), p, name) == 512
  {
    hide NodeOk;
    var c := Child(t, p, name);
    forall k | 0 < k < 512 && Live(t, k) && t[k].parent == p && t[k].name == name ensures k == c {
      assert Distinct(t, c, k);
    }
  }

  lemma ReplaceMove(t: Tree, n: nat, p: nat, name: string)
    requires WellFormed(t) && 0 < n < 512 && Live(t, n) && Childless(t, n) && Live(t, p) && t[p].kind == Directory
    requires p != n
    requires Child(t, p, name) == 512 && ValidName(name) && Fitting(t, p).Some?
    requires |Fitting(t, p).value| + 1 + |name| <= PATH
    ensures WellFormed(Moved(t, n, p, name))
  {
    hide WellFormed, Path, Child, Under, PathFrom, ValidName, Below;
    NotOnPath(t, n, p, 511);
    PathShape(t, p);
    forall m | 0 < m < 512 && Live(t, m) && Under(t, m, n, 511)
      ensures Path(Moved(t, n, p, name), m).Some? && |Path(Moved(t, n, p, name), m).value| <= PATH
    {
      if m != n { NotOnPath(t, n, m, 511); }
      MovedPath(t, n, p, name, n);
      BelowSelf(t, n);
    }
    MovedOk(t, n, p, name);
  }

  lemma BelowSelf(t: Tree, n: nat)
    requires n < 512
    ensures Below(t, n, n, 95) == "" && Under(t, n, n, 511)
  {
  }

  lemma RemoveKeepsVolumes(t: Tree, volumes: seq<nat>, n: nat)
    requires VolumesOk(t, volumes) && 0 < n < 512 && !t[t[n].parent].locked && Childless(t, n)
    ensures VolumesOk(Removed(t, n), volumes)
  {
    forall i | 0 <= i < |volumes| ensures volumes[i] != n && t[volumes[i]].parent != n { assert Live(t, volumes[i]); }
  }

  function Joined(s: Option<string>, tail: string): Option<string> {
    match s
    case Some(v) => Some(v + tail)
    case None => None
  }

  lemma PathText(text: string, name: string, tail: string)
    requires |text| == 1 + |name| + |tail| && text[0] == '/'
    requires forall k :: 0 <= k < |name| ==> text[1 + k] == name[k]
    requires forall k :: 0 <= k < |tail| ==> text[1 + |name| + k] == tail[k]
    ensures text == "/" + name + tail
  {
  }

  lemma JoinEmpty(s: Option<string>)
    ensures Joined(s, "") == s
  {
    if s.Some? { assert s.value + "" == s.value; }
  }

  lemma TooLongPath(t: Tree, m: nat, k: nat, tail: string)
    requires 0 < m < 512 && k > 0 && |t[m].name| + 1 + |tail| > PATH
    ensures Joined(PathFrom(t, m, k), tail).Some? ==> |Joined(PathFrom(t, m, k), tail).value| > PATH
  {
  }

  lemma PathEnds(t: Tree, m: nat, k: nat, tail: string)
    requires m < 512
    ensures m == 0 ==> Joined(PathFrom(t, m, k), tail) == Some(tail)
    ensures m != 0 && k == 0 ==> Joined(PathFrom(t, m, k), tail) == None
  {
    assert "" + tail == tail;
  }

  lemma JoinStep(t: Tree, m: nat, k: nat, tail: string)
    requires 0 < m < 512 && k > 0
    ensures Joined(PathFrom(t, m, k), tail) == Joined(PathFrom(t, t[m].parent, k - 1), "/" + t[m].name + tail)
  {
    var s := PathFrom(t, t[m].parent, k - 1);
    if s.Some? { assert s.value + "/" + t[m].name + tail == s.value + ("/" + t[m].name + tail); }
  }

  /** The roots of the mounted volumes stay: they are directories in locked directories.  What is locked lies in
      locked directories only. */
  predicate VolumesOk(t: Tree, volumes: seq<nat>) {
    && |volumes| <= 4
    && (forall i :: 0 <= i < |volumes| ==>
          && 0 < volumes[i] < 512 && t[volumes[i]].kind == Directory && t[t[volumes[i]].parent].locked
          && !t[volumes[i]].locked)
    && forall n :: 0 < n < 512 && Live(t, n) && t[n].locked ==> t[t[n].parent].locked
  }

  lemma VolumesFit(t: Tree, volumes: seq<nat>)
    requires VolumesOk(t, volumes)
    ensures forall i :: 0 <= i < |volumes| ==> volumes[i] < 512
  {
  }

  // ----- Steps of fs_lookup -----

  lemma WalkStep(t: Tree, n: nat, p: string)
    requires n < 512 && p != "" && p[0] != '/'
    ensures
      var name := NameAt(p);
      Walk(t, n, p) ==
        if t[n].kind != Directory then Err(NotDirectory)
        else if |name| > NAME then Err(TooLong)
        else if name == "." then Walk(t, n, p[|name|..])
        else if name == ".." then Walk(t, t[n].parent, p[|name|..])
        else if Child(t, n, name) == 512 then Err(NotFound)
        else Walk(t, Child(t, n, name), p[|name|..])
  {
    hide Child;
  }

  lemma NameAtFrom(path: string, first: nat, p: nat)
    requires first == p <= |path|
    ensures NameAt(path[first..]) == path[first..p] + NameAt(path[p..])
  {
    assert path[first..p] == "";
  }

  lemma NameAtMore(path: string, first: nat, p: nat)
    requires first <= p < |path| && path[p] != '/' && NameAt(path[first..]) == path[first..p] + NameAt(path[p..])
    ensures NameAt(path[first..]) == path[first..p + 1] + NameAt(path[p + 1..])
    ensures |NameAt(path[first..])| > p - first
  {
    assert path[p..][1..] == path[p + 1..];
    assert path[first..p] + ([path[p]] + NameAt(path[p + 1..])) == path[first..p + 1] + NameAt(path[p + 1..]);
  }

  lemma SliceFrom(path: string, first: nat, p: nat)
    requires first <= p <= |path|
    ensures path[first..][|path[first..p]|..] == path[p..]
  {
  }

  lemma NameAtEnd(p: string)
    requires p == "" || p[0] == '/'
    ensures NameAt(p) == ""
  {
  }

  // ----- Errors -----

  /** Resolving a path never runs out of slots. */
  lemma {:induction false} WalkErrors(t: Tree, n: nat, p: string)
    requires n < 512
    ensures Walk(t, n, p) != Err(NoSpace)
    decreases |p|
  {
    hide Child;
    if p == "" {
    } else if p[0] == '/' {
      WalkErrors(t, n, p[1..]);
    } else {
      WalkStep(t, n, p);
      NameNonempty(p);
      var name := NameAt(p);
      if t[n].kind == Directory && |name| <= NAME {
        ChildLive(t, n, name);
        if name == "." { WalkErrors(t, n, p[1..]); }
        else if name == ".." { WalkErrors(t, t[n].parent, p[2..]); }
        else if Child(t, n, name) < 512 { WalkErrors(t, Child(t, n, name), p[|name|..]); }
      }
    }
  }

  lemma ParentErrors(t: Tree, volumes: seq<nat>, cwd: nat, path: string)
    requires cwd < 512 && forall i :: 0 <= i < |volumes| ==> volumes[i] < 512
    ensures Parent(t, volumes, cwd, path) != Err(NoSpace)
  {
    hide Walk, Trimmed, Directories;
    forall n: nat, p: string | n < 512 ensures Walk(t, n, p) != Err(NoSpace) { WalkErrors(t, n, p); }
  }
}
