/** What fs_import_stream (kernel/fs.c) builds from the records of a payload, and that it is what was exported. */
module FsImport {
  import opened Wrappers
  import opened FsTree
  import opened FsEdits
  import opened FileTree
  import opened FsStream
  import opened FsExport
  import opened PagedFile

  /** The node table: the tree, and where the contents of the nodes lie in the committed payload. */
  datatype Files = Files(tree: Tree, backing: seq<Backing>)

  predicate Sized(f: Files, volumes: seq<nat>) {
    |f.backing| == 512 && forall i :: 0 <= i < |volumes| ==> volumes[i] < 512
  }

  /** Where record k begins if the first one begins there. */
  function Begin(first: nat, rs: seq<Record>, k: nat): (b: nat)
    requires k <= |rs|
    ensures b >= first
  {
    if k == 0 then first else Begin(first, rs, k - 1) + 12 + |rs[k - 1].path| + |rs[k - 1].data|
  }

  /** Where the contents of record k lie in the payload. */
  function DataOf(rs: seq<Record>, k: nat): Backing
    requires k < |rs|
  {
    Backed(Begin(4, rs, k) + 12 + |rs[k].path|, |rs[k].data|)
  }

  /** The contents of a file without pages. */
  function Stored(b: Backing, payload: seq<FsStream.byte>): seq<FsStream.byte> {
    if b.Backed? && b.offset + b.size <= |payload| then payload[b.offset..b.offset + b.size] else []
  }

  // ----- Records in the payload -----

  lemma ReadShape(b: seq<FsStream.byte>, at: nat, prefix: string)
    requires Read(b, at, prefix).Some?
    ensures
      var Parsed(r, end) := Read(b, at, prefix).value;
      && GoodRecord(r, prefix) && end == at + 12 + |r.path| + |r.data| <= |b| && b[at + 12 + |r.path|..end] == r.data
  {
    hide GoodPath, Text, Snapshot.Word;
  }

  lemma {:induction false} BeginShift(first: nat, rs: seq<Record>, k: nat)
    requires 0 < k <= |rs|
    ensures Begin(first, rs, k) == Begin(first + 12 + |rs[0].path| + |rs[0].data|, rs[1..], k - 1)
  {
    if k > 1 { BeginShift(first, rs, k - 1); }
  }

  lemma ReadAllStep(b: seq<FsStream.byte>, at: nat, prefix: string, rs: seq<Record>)
    requires rs != [] && ReadAll(b, at, |rs|, prefix) == Some(rs)
    ensures
      var p := Read(b, at, prefix);
      && p.Some? && p.value.record == rs[0] && p.value.end == at + 12 + |rs[0].path| + |rs[0].data|
      && ReadAll(b, p.value.end, |rs| - 1, prefix) == Some(rs[1..])
  {
    hide Read;
    ReadShape(b, at, prefix);
  }

  /** Record k is read where it begins. */
  lemma {:induction false} ReadsAt(b: seq<FsStream.byte>, at: nat, prefix: string, rs: seq<Record>, k: nat)
    requires ReadAll(b, at, |rs|, prefix) == Some(rs) && k < |rs|
    ensures Read(b, Begin(at, rs, k), prefix) == Some(Parsed(rs[k], Begin(at, rs, k + 1)))
    decreases |rs|
  {
    hide Read, ReadAll;
    ReadAllStep(b, at, prefix, rs);
    if k > 0 {
      BeginShift(at, rs, k);
      BeginShift(at, rs, k + 1);
      ReadsAt(b, Read(b, at, prefix).value.end, prefix, rs[1..], k - 1);
    }
  }

  /** The backing of a record shows its contents. */
  lemma StoredData(b: seq<FsStream.byte>, prefix: string, rs: seq<Record>, k: nat)
    requires ReadPayload(b, prefix) == Some(rs) && k < |rs|
    ensures GoodRecord(rs[k], prefix) && Stored(DataOf(rs, k), b) == rs[k].data
    ensures DataOf(rs, k).offset + |rs[k].data| <= |b|
  {
    hide Read, ReadAll, Snapshot.Word, GoodPath;
    ReadsAt(b, 4, prefix, rs, k);
    ReadShape(b, Begin(4, rs, k), prefix);
  }

  /** The second pass for one record: create_node() and its backing. */
  function Added(f: Files, volumes: seq<nat>, kind: Kind, path: string, data: Backing): (r: Option<Files>)
    requires Sized(f, volumes)
    ensures r.Some? ==> Sized(r.value, volumes)
  {
    match Parent(f.tree, volumes, 0, path)
    case Err(_) => None
    case Ok(place) =>
      var i := FirstFree(f.tree, 1);
      if CreateAllowed(f.tree, place) then
        Some(Files(Created(f.tree, i, place.parent, place.name, kind, false), f.backing[i := data]))
      else None
  }

  /** The second pass for the first k records. */
  function Build(f: Files, volumes: seq<nat>, rs: seq<Record>, k: nat): (r: Option<Files>)
    requires Sized(f, volumes) && k <= |rs|
    ensures r.Some? ==> Sized(r.value, volumes)
  {
    if k == 0 then Some(f)
    else match Build(f, volumes, rs, k - 1)
      case None => None
      case Some(g) => Added(g, volumes, rs[k - 1].kind, rs[k - 1].path, DataOf(rs, k - 1))
  }

  // ----- Chains of parents -----

  /** Live nodes keep their names and parents. */
  ghost predicate Continues(t: Tree, t': Tree) {
    forall m :: 0 <= m < 512 && Live(t, m) ==> t'[m].parent == t[m].parent && t'[m].name == t[m].name
  }

  /** ... and then also their paths and places. */
  lemma {:induction false} SameChain(t: Tree, t': Tree, n: nat, k: nat)
    requires WellFormed(t) && Continues(t, t') && Live(t, n)
    ensures PathFrom(t', n, k) == PathFrom(t, n, k)
    ensures forall x: nat :: Under(t', n, x, k) == Under(t, n, x, k)
    ensures forall x: nat :: DepthIn(t', n, x, k) == DepthIn(t, n, x, k)
    decreases k
  {
    hide WellFormed, NodeOk, ValidName;
    if n != 0 && k > 0 {
      NodeIsOk(t, n);
      SameChain(t, t', t[n].parent, k - 1);
    }
  }

  // ----- Resolving the path of a record -----

  /** The last slash of a concatenation is in its second part if there is one. */
  lemma {:induction false} DirectoriesAppend(a: string, b: string)
    requires '/' in b
    ensures Directories(a + b) == a + Directories(b)
    decreases |b|
  {
    var n := |b| - 1;
    assert (a + b)[|a| + n] == b[n];
    if b[n] != '/' {
      assert b == b[..n] + [b[n]];
      assert (a + b)[..|a| + n] == a + b[..n];
      DirectoriesAppend(a, b[..n]);
    }
  }

  lemma {:induction false} DirectoriesName(name: string)
    requires '/' !in name
    ensures Directories("/" + name) == "/"
    decreases |name|
  {
    if name != "" {
      var n := |name| - 1;
      assert ("/" + name)[..n + 1] == "/" + name[..n] && name[n] in name;
      DirectoriesName(name[..n]);
    }
  }

  /** The directory of a node and its name from its path. */
  lemma ParentOfPath(t: Tree, volumes: seq<nat>, p: nat, name: string)
    requires WellFormed(t) && Live(t, p) && t[p].kind == Directory && ValidName(name)
    requires forall i :: 0 <= i < |volumes| ==> volumes[i] < 512
    requires Path(t, p).Some? && |Path(t, p).value| + 1 + |name| <= PATH
    ensures Parent(t, volumes, 0, Path(t, p).value + "/" + name) == Ok(Place(p, name))
  {
    hide WellFormed, NodeOk, PathFrom, Walk, Directories, Trimmed, HasDrive;
    var s := Path(t, p).value;
    NamePlain(name);
    ChildText(s, name);
    PathShape(t, p);
    WalkPath(t, p, 512, "/");
    WalkSlash(t, p, "/");
    assert "/"[1..] == "";
    WalkEnd(t, p);
    SlashEnd(s);
  }

  lemma SlashEnd(s: string)
    requires s == "" || s[0] == '/'
    ensures !HasDrive(s + "/") && (s + "/")[0] == '/' && (s + "/")[|s + "/"| - 1] == '/'
  {
  }

  /** The parts of the path of a child. */
  lemma ChildText(s: string, name: string)
    requires name != "" && '/' !in name && name[|name| - 1] != '/'
    ensures
      var path := s + "/" + name;
      && |path| == |s| + 1 + |name| && Trimmed(path) == path
      && Directories(path) == s + "/" && path[|Directories(path)|..] == name
  {
    hide Directories;
    var path := s + "/" + name;
    DirectoriesChild(s, name);
    DropPrefix(s + "/", name);
    assert path[|path| - 1] == name[|name| - 1];
  }

  lemma DropPrefix(a: string, b: string)
    ensures (a + b)[|a|..] == b
  {
  }

  lemma DirectoriesChild(s: string, name: string)
    requires '/' !in name
    ensures Directories(s + "/" + name) == s + "/"
  {
    hide Directories;
    SlashJoin(s, name);
    assert ("/" + name)[0] == '/';
    DirectoriesAppend(s, "/" + name);
    DirectoriesName(name);
  }

  /** The part after the last slash. */
  function LastPart(p: string): string { p[|Directories(p)|..] }

  /** Following good names downwards reaches the node with that path. */
  lemma {:induction false} GoodWalk(t: Tree, root: nat, n: nat, q: string)
    requires WellFormed(t) && Live(t, n) && Path(t, n).Some? && Under(t, n, root, 511)
    requires q != "" && GoodTail(q) && q[|q| - 1] != '/'
    requires Walk(t, n, Directories("/" + q)).Ok?
    ensures
      var m := Walk(t, n, Directories("/" + q)).value;
      && Live(t, m) && Under(t, m, root, 511) && Path(t, m).Some? && ValidName(LastPart("/" + q))
      && Path(t, m).value + "/" + LastPart("/" + q) == Path(t, n).value + "/" + q
    decreases |q|
  {
    hide WellFormed, NodeOk, PathFrom, Path, Walk, Directories, LastPart, ValidName, Under, Child, NameAt, GoodTail;
    var c := NameAt(q);
    GoodHead(q);
    if |c| == |q| {
      OneName(t, n, q);
    } else {
      var q' := q[|c| + 1..];
      var d := Directories("/" + q');
      MoreNames(c, q');
      WalkSlash(t, n, "/" + (c + d));
      SlashFirst(q');
      NotDirectoryWalk(t, n, c, d);
      WalkName(t, n, c, d);
      var ch := Child(t, n, c);
      ChildSome(t, n, c);
      ChildBelow(t, root, n, c);
      LastOf(q, q');
      GoodWalk(t, root, ch, q');
      PathJoin(Path(t, n).value, c, q');
    }
  }

  lemma LastOf(q: string, q': string)
    requires q' != "" && |q'| <= |q| && q[|q| - |q'|..] == q'
    ensures q'[|q'| - 1] == q[|q| - 1]
  {
    assert q[|q| - |q'|..][|q'| - 1] == q[|q| - 1];
  }

  lemma PathJoin(s: string, c: string, q: string)
    ensures s + "/" + c + "/" + q == s + "/" + (c + ("/" + q))
  {
  }

  lemma ChildSome(t: Tree, n: nat, c: string)
    ensures Child(t, n, c) <= 512
  {
  }

  lemma OneName(t: Tree, n: nat, name: string)
    requires n < 512 && '/' !in name
    ensures Walk(t, n, Directories("/" + name)) == Ok(n) && LastPart("/" + name) == name
  {
    hide Walk, Directories;
    DirectoriesName(name);
    WalkSlash(t, n, "/");
    assert "/"[1..] == "";
    WalkEnd(t, n);
    assert ("/" + name)[1..] == name;
  }

  lemma MoreNames(c: string, q: string)
    ensures
      var d := Directories("/" + q);
      && Directories("/" + (c + ("/" + q))) == "/" + (c + d) && ("/" + (c + d))[1..] == c + d
      && LastPart("/" + (c + ("/" + q))) == LastPart("/" + q)
  {
    hide Directories;
    var d := Directories("/" + q);
    assert ("/" + q)[0] == '/';
    SlashText(c, "/" + q);
    SlashText(c, d);
    DirectoriesAppend("/" + c, "/" + q);
    DropBoth("/" + c, "/" + q, |d|);
    DropPrefix("/", c + d);
  }

  lemma SlashText(c: string, q: string)
    ensures "/" + (c + q) == ("/" + c) + q
  {
  }

  lemma DropBoth(a: string, b: string, k: nat)
    requires k <= |b|
    ensures (a + b)[|a| + k..] == b[k..]
  {
  }

  lemma SlashFirst(q: string)
    ensures Directories("/" + q) != "" && Directories("/" + q)[0] == '/'
  {
    hide Directories;
    var d := Directories("/" + q);
    assert ("/" + q)[0] == '/' && ("/" + q)[0..] == "/" + q;
  }

  lemma NotDirectoryWalk(t: Tree, n: nat, c: string, d: string)
    requires n < 512 && ValidName(c) && Walk(t, n, c + d).Ok?
    ensures t[n].kind == Directory
  {
    assert (c + d)[0] == c[0];
  }

  lemma ChildBelow(t: Tree, root: nat, n: nat, c: string)
    requires WellFormed(t) && Live(t, n) && Path(t, n).Some? && Under(t, n, root, 511) && Child(t, n, c) < 512
    ensures
      var ch := Child(t, n, c);
      Live(t, ch) && 0 < ch && Path(t, ch) == Some(Path(t, n).value + "/" + c) && Under(t, ch, root, 511)
  {
    hide WellFormed, NodeOk, PathFrom;
    var ch := Child(t, n, c);
    Depth(t, n);
    StepUp(t, ch, 95);
    MoreSteps(t, ch, 96, 512);
    UnderSteps(t, ch, root, 96, 511);
    UnderSteps(t, ch, root, 96, 512);
  }

  lemma GoodHead(q: string)
    requires q != "" && GoodTail(q)
    ensures ValidName(NameAt(q)) && (|NameAt(q)| == |q| ==> NameAt(q) == q && '/' !in q)
    ensures |NameAt(q)| < |q| ==>
              GoodTail(q[|NameAt(q)| + 1..]) && q == NameAt(q) + ("/" + q[|NameAt(q)| + 1..])
  {
    hide ValidName, NameAt;
    var c := NameAt(q);
    if |c| == |q| { WholeName(q); } else { Cut(q, |c|); }
  }

  lemma WholeName(q: string)
    requires |NameAt(q)| == |q|
    ensures NameAt(q) == q
  {
    hide NameAt;
    assert q[..|q|] == q;
  }

  lemma Cut(q: string, k: nat)
    requires k < |q| && q[k] == '/'
    ensures q == q[..k] + ("/" + q[k + 1..])
  {
  }

  // ----- The records so far -----

  /** Node n holds record k. */
  ghost predicate Placed(f: Files, root: nat, rs: seq<Record>, k: nat, n: nat)
    requires |f.backing| == 512 && k < |rs|
  {
    && 0 < n < 512 && f.tree[n].kind == rs[k].kind && !f.tree[n].locked && Path(f.tree, n) == Some(rs[k].path)
    && Under(f.tree, n, root, 511) && n != root && f.backing[n] == DataOf(rs, k)
  }

  /** Nodes that were there before stay, and nodes at[..] hold the records. */
  ghost predicate Rebuilt(f0: Files, f: Files, volumes: seq<nat>, root: nat, rs: seq<Record>, at: seq<nat>) {
    && |f0.backing| == 512 && |f.backing| == 512 && |at| <= |rs|
    && WellFormed(f.tree) && VolumesOk(f.tree, volumes)
    && 0 < root < 512 && Live(f0.tree, root) && Path(f.tree, root) == Path(f0.tree, root)
    && (forall n :: 0 <= n < 512 && Live(f0.tree, n) ==> f.tree[n] == f0.tree[n] && f.backing[n] == f0.backing[n])
    && (forall k :: 0 <= k < |at| ==> !Live(f0.tree, at[k]) && Placed(f, root, rs, k, at[k]))
    && (forall n :: 0 <= n < 512 && Live(f.tree, n) ==> Live(f0.tree, n) || n in at)
  }

  predicate GoodRecords(rs: seq<Record>, prefix: string) {
    forall k :: 0 <= k < |rs| ==> GoodRecord(rs[k], prefix)
  }

  /** The parent of a record's path is below the root, and its path goes on by the name. */
  lemma RecordParent(t: Tree, volumes: seq<nat>, root: nat, path: string)
    requires WellFormed(t) && VolumesOk(t, volumes) && Live(t, root) && 0 < root
    requires Path(t, root).Some? && GoodPath(path, Path(t, root).value) && Parent(t, volumes, 0, path).Ok?
    ensures
      var Place(p, name) := Parent(t, volumes, 0, path).value;
      && Live(t, p) && Under(t, p, root, 511) && Path(t, p).Some? && Path(t, p).value + "/" + name == path
  {
    hide WellFormed, NodeOk, PathFrom, Parent, Under, Walk, Directories, Trimmed, LastPart, ValidName, GoodTail,
        NameAt, VolumesOk, HasDrive;
    var s := Path(t, root).value;
    var q := path[|s| + 1..];
    var d := Directories("/" + q);
    Cut(path, |s|);
    RecordPath(path, s, q);
    PathShape(t, root);
    WalkPath(t, root, 512, d);
    UnderSelf(t, root);
    NotDrive(s, d);
    VolumesFit(t, volumes);
    ParentIs(t, volumes, path, s + d);
    GoodWalk(t, root, root, q);
    SlashJoin(s, q);
  }

  lemma SlashJoin(s: string, q: string)
    ensures s + ("/" + q) == s + "/" + q
  {
  }

  lemma RecordPath(path: string, s: string, q: string)
    requires path == s + ("/" + q) && q != "" && path[|path| - 1] != '/'
    ensures
      var d := Directories("/" + q);
      && Trimmed(path) == path && Directories(path) == s + d && path[|s + d|..] == LastPart("/" + q)
      && d != "" && d[0] == '/' && q[|q| - 1] != '/'
  {
    hide Directories;
    var d := Directories("/" + q);
    assert ("/" + q)[0] == '/';
    DirectoriesAppend(s, "/" + q);
    SlashFirst(q);
    assert path[|s + d|..] == ("/" + q)[|d|..];
  }

  /** parent_for() on an absolute path: its directory from the root. */
  lemma ParentIs(t: Tree, volumes: seq<nat>, path: string, d: string)
    requires forall i :: 0 <= i < |volumes| ==> volumes[i] < 512
    requires path != "" && Trimmed(path) == path && Directories(path) == d && d != "" && d[0] == '/' && !HasDrive(d)
    requires Parent(t, volumes, 0, path).Ok?
    ensures Walk(t, 0, d) == Ok(Parent(t, volumes, 0, path).value.parent)
    ensures Parent(t, volumes, 0, path).value.name == path[|d|..]
  {
    hide Walk, Directories, Trimmed, HasDrive;
  }

  lemma UnderSelf(t: Tree, n: nat)
    requires n < 512
    ensures Under(t, n, n, 511)
  {
  }

  lemma NotDrive(s: string, d: string)
    requires s != "" && s[0] == '/'
    ensures !HasDrive(s + d) && s + d != "" && (s + d)[0] == '/'
  {
    assert (s + d)[0] == '/';
  }

  /** What create_node() needs is what adding a node needs. */
  lemma AddedOk(f: Files, volumes: seq<nat>, kind: Kind, path: string, data: Backing)
    requires Sized(f, volumes) && WellFormed(f.tree) && VolumesOk(f.tree, volumes) && kind != Unused
    requires Added(f, volumes, kind, path, data).Some?
    ensures Parent(f.tree, volumes, 0, path).Ok?
    ensures
      var g, i, place :=
        Added(f, volumes, kind, path, data).value, FirstFree(f.tree, 1), Parent(f.tree, volumes, 0, path).value;
      && CanCreate(f.tree, i, place.parent, place.name)
      && g.tree == Created(f.tree, i, place.parent, place.name, kind, false)
      && WellFormed(g.tree) && VolumesOk(g.tree, volumes) && g.backing == f.backing[i := data]
  {
    hide WellFormed, Parent, Child, PathFrom, FirstFree, VolumesOk, ValidName;
    var i, place := FirstFree(f.tree, 1), Parent(f.tree, volumes, 0, path).value;
    PathShape(f.tree, place.parent);
    CreatedOk(f.tree, i, place.parent, place.name, kind, false);
    CreateKeepsVolumes(f.tree, volumes, i, place.parent, place.name, kind);
  }

  lemma PlacedStays(f: Files, g: Files, root: nat, rs: seq<Record>, k: nat, n: nat, i: nat, p: nat, name: string,
      kind: Kind)
    requires |f.backing| == 512 && |g.backing| == 512 && k < |rs| && WellFormed(f.tree) && CanCreate(f.tree, i, p, name)
    requires rs[k].kind != Unused && Placed(f, root, rs, k, n)
    requires g.tree == Created(f.tree, i, p, name, kind, false) && g.backing[n] == f.backing[n]
    ensures Placed(g, root, rs, k, n) && n != i
  {
    hide WellFormed, PathFrom, Under, Child, ValidName, DataOf;
    CreatedPaths(f.tree, i, p, name, kind, false);
    SameChain(f.tree, g.tree, n, 511);
  }

  lemma NewPlaced(f: Files, g: Files, root: nat, rs: seq<Record>, k: nat, i: nat, p: nat, name: string)
    requires |f.backing| == 512 && |g.backing| == 512 && k < |rs| && WellFormed(f.tree) && CanCreate(f.tree, i, p, name)
    requires Live(f.tree, root) && Under(f.tree, p, root, 511) && Path(f.tree, p).Some?
    requires Path(f.tree, p).value + "/" + name == rs[k].path
    requires g.tree == Created(f.tree, i, p, name, rs[k].kind, false) && g.backing[i] == DataOf(rs, k)
    ensures Placed(g, root, rs, k, i)
  {
    hide WellFormed, PathFrom, Under, Child, ValidName, DataOf;
    CreatedPaths(f.tree, i, p, name, rs[k].kind, false);
    SameChain(f.tree, g.tree, p, 95);
    Depth(f.tree, p);
    UnderSteps(f.tree, p, root, 95, 511);
    UnderChild(g.tree, i, root);
  }

  lemma UnderChild(t: Tree, i: nat, root: nat)
    requires 0 < i < 512 && Under(t, t[i].parent, root, 95)
    ensures Under(t, i, root, 511)
  {
    hide Under;
    UnderMore(t, t[i].parent, root, 95, 510);
    UnderStep(t, i, root);
  }

  lemma UnderStep(t: Tree, i: nat, root: nat)
    requires 0 < i < 512 && Under(t, t[i].parent, root, 510)
    ensures Under(t, i, root, 511)
  {
  }

  /** One more record. */
  lemma AddedKeeps(f0: Files, f: Files, volumes: seq<nat>, root: nat, rs: seq<Record>, at: seq<nat>)
    requires Rebuilt(f0, f, volumes, root, rs, at) && Sized(f, volumes) && |at| < |rs|
    requires Path(f0.tree, root).Some? && GoodRecords(rs, Path(f0.tree, root).value)
    requires Added(f, volumes, rs[|at|].kind, rs[|at|].path, DataOf(rs, |at|)).Some?
    ensures
      var g := Added(f, volumes, rs[|at|].kind, rs[|at|].path, DataOf(rs, |at|)).value;
      Rebuilt(f0, g, volumes, root, rs, at + [FirstFree(f.tree, 1)])
  {
    hide WellFormed, Path, Under, Child, ValidName, DataOf, Parent, Added, FirstFree, VolumesOk, GoodPath, Placed,
      CanCreate;
    var k := |at|;
    var g, i := Added(f, volumes, rs[k].kind, rs[k].path, DataOf(rs, k)).value, FirstFree(f.tree, 1);
    AddedOk(f, volumes, rs[k].kind, rs[k].path, DataOf(rs, k));
    var Place(p, name) := Parent(f.tree, volumes, 0, rs[k].path).value;
    CreateFree(f.tree, i, p, name);
    RecordParent(f.tree, volumes, root, rs[k].path);
    NewPlaced(f, g, root, rs, k, i, p, name);
    forall j | 0 <= j < k ensures Placed(g, root, rs, j, at[j]) {
      PlacedNode(f, root, rs, j, at[j]);
      assert f.tree[at[j]].kind != Unused && f.tree[i].kind == Unused;
      PlacedStays(f, g, root, rs, j, at[j], i, p, name, rs[k].kind);
    }
    CreatedPaths(f.tree, i, p, name, rs[k].kind, false);
  }

  lemma CreateFree(t: Tree, i: nat, p: nat, name: string)
    requires CanCreate(t, i, p, name)
    ensures 0 < i < 512 && t[i].kind == Unused && p < 512
  {
  }

  lemma PlacedNode(f: Files, root: nat, rs: seq<Record>, k: nat, n: nat)
    requires |f.backing| == 512 && k < |rs| && Placed(f, root, rs, k, n)
    ensures n < 512 && f.tree[n].kind == rs[k].kind
  {
  }

  // ----- When the second pass succeeds -----

  /** The path of the directory that a path names a child of. */
  function Holder(path: string): string {
    var d := Directories(path);
    if d == "" then "" else d[..|d| - 1]
  }

  lemma HolderIs(s: string, name: string)
    requires '/' !in name
    ensures Holder(s + "/" + name) == s && LastPart(s + "/" + name) == name
  {
    hide Directories;
    DirectoriesChild(s, name);
    DropPrefix(s + "/", name);
    assert (s + "/")[..|s + "/"| - 1] == s;
  }

  /** A record lies in the root of the volume or in an earlier directory, and its path is new. */
  predicate Welcome(rs: seq<Record>, prefix: string, k: nat)
    requires k < |rs|
  {
    && (Holder(rs[k].path) == prefix || exists j :: 0 <= j < k && rs[j].kind == Directory && rs[j].path == Holder(rs[k].path))
    && forall j :: 0 <= j < k ==> rs[j].path != rs[k].path
  }

  ghost predicate EmptyVolume(t: Tree, root: nat) { forall n: nat :: !Inner(t, root, n) }

  /** Nodes of the volume are its root and the records so far. */
  lemma InVolume(f0: Files, f: Files, volumes: seq<nat>, root: nat, rs: seq<Record>, at: seq<nat>, n: nat)
    requires Rebuilt(f0, f, volumes, root, rs, at) && WellFormed(f0.tree) && EmptyVolume(f0.tree, root)
    requires Live(f.tree, n) && Under(f.tree, n, root, 511)
    ensures n == root || n in at
  {
    hide WellFormed, Path, Under, VolumesOk, Placed;
    if n !in at {
      SameChain(f0.tree, f.tree, n, 511);
      assert n == root || Inner(f0.tree, root, n);
    }
  }

  /** create_node() succeeds in a directory that has room and no such child. */
  lemma AddedIn(f: Files, volumes: seq<nat>, p: nat, name: string, kind: Kind, data: Backing)
    requires Sized(f, volumes) && WellFormed(f.tree) && FirstFree(f.tree, 1) < 512
    requires Live(f.tree, p) && p != 0 && f.tree[p].kind == Directory && !f.tree[p].locked && ValidName(name)
    requires Path(f.tree, p).Some? && |Path(f.tree, p).value| + 1 + |name| <= PATH && Child(f.tree, p, name) == 512
    ensures Added(f, volumes, kind, Path(f.tree, p).value + "/" + name, data).Some?
  {
    hide WellFormed, NodeOk, PathFrom, Parent, Child, FirstFree, ValidName;
    ParentOfPath(f.tree, volumes, p, name);
    PathShape(f.tree, p);
  }

  /** A node with that path is that child. */
  lemma PathChild(t: Tree, p: nat, name: string, c: nat)
    requires WellFormed(t) && Live(t, p) && Path(t, p).Some? && ValidName(name) && 0 < c && Live(t, c)
    requires Path(t, c) == Some(Path(t, p).value + "/" + name)
    ensures Child(t, p, name) == c
  {
    hide WellFormed, PathFrom, ValidName, Holder, LastPart, Child;
    NodeIsOk(t, c);
    NamePlain(name);
    NamePlain(t[c].name);
    var q := t[c].parent;
    Depth(t, q);
    StepUp(t, c, 95);
    MoreSteps(t, c, 96, 512);
    HolderIs(Path(t, p).value, name);
    HolderIs(Path(t, q).value, t[c].name);
    PathsDiffer(t, p, q);
    ChildIs(t, c);
  }

  lemma FoundPath(f0: Files, f: Files, volumes: seq<nat>, root: nat, rs: seq<Record>, at: seq<nat>,
      n: nat) returns (j: nat)
    requires Rebuilt(f0, f, volumes, root, rs, at) && n in at
    ensures j < |at| && at[j] == n && Placed(f, root, rs, j, n) && !Live(f0.tree, n)
  {
    hide WellFormed, Path, Under, VolumesOk, Placed;
    j :| 0 <= j < |at| && at[j] == n;
  }

  lemma PlacedPath(f: Files, root: nat, rs: seq<Record>, k: nat, n: nat)
    requires |f.backing| == 512 && k < |rs| && Placed(f, root, rs, k, n)
    ensures 0 < n < 512 && f.tree[n].kind == rs[k].kind && !f.tree[n].locked && Path(f.tree, n) == Some(rs[k].path)
    ensures Under(f.tree, n, root, 511)
  {
    hide Path, Under, DataOf;
  }

  lemma {:induction false} GoodLast(q: string)
    requires q != "" && GoodTail(q) && q[|q| - 1] != '/'
    ensures ValidName(LastPart("/" + q))
    decreases |q|
  {
    hide Directories, LastPart, ValidName, NameAt, GoodTail;
    var c := NameAt(q);
    GoodHead(q);
    if |c| == |q| {
      DirectoriesName(q);
      OneLast(q);
    } else {
      var q' := q[|c| + 1..];
      MoreNames(c, q');
      LastOf(q, q');
      GoodLast(q');
    }
  }

  lemma OneLast(name: string)
    requires Directories("/" + name) == "/"
    ensures LastPart("/" + name) == name
  {
    hide Directories;
    assert ("/" + name)[1..] == name;
  }

  /** The path of a record is that of its directory and a name. */
  lemma RecordName(path: string, prefix: string)
    requires GoodPath(path, prefix)
    ensures ValidName(LastPart(path)) && path == Holder(path) + "/" + LastPart(path)
  {
    hide Directories, ValidName, GoodTail, NameAt, LastPart, Holder;
    var q := path[|prefix| + 1..];
    Cut(path, |prefix|);
    RecordPath(path, prefix, q);
    GoodLast(q);
    SameLast(path, prefix + Directories("/" + q));
    HolderJoin(path);
  }

  lemma SameLast(path: string, d: string)
    requires Directories(path) == d
    ensures LastPart(path) == path[|d|..] && (d != "" ==> Directories(path) != "")
  {
    hide Directories;
  }

  lemma HolderJoin(path: string)
    requires Directories(path) != ""
    ensures path == Holder(path) + "/" + LastPart(path)
  {
    hide Directories;
    var d := Directories(path);
    EndsWithSlash(path);
    assert d == d[..|d| - 1] + "/";
    assert path == path[..|d|] + path[|d|..];
  }

  lemma EndsWithSlash(path: string)
    requires Directories(path) != ""
    ensures Directories(path)[|Directories(path)| - 1] == '/' && Directories(path) == path[..|Directories(path)|]
  {
    hide Directories;
  }

  /** The directory of a record whose turn it is. */
  lemma HolderNode(f0: Files, f: Files, volumes: seq<nat>, root: nat, rs: seq<Record>, at: seq<nat>) returns (p: nat)
    requires Rebuilt(f0, f, volumes, root, rs, at) && |at| < |rs|
    requires f0.tree[root].kind == Directory && !f0.tree[root].locked && Path(f0.tree, root).Some?
    requires Welcome(rs, Path(f0.tree, root).value, |at|)
    ensures 0 < p && Live(f.tree, p) && f.tree[p].kind == Directory && !f.tree[p].locked
    ensures Path(f.tree, p) == Some(Holder(rs[|at|].path)) && Under(f.tree, p, root, 511)
  {
    hide WellFormed, Path, Under, VolumesOk, Placed, Holder;
    if Holder(rs[|at|].path) == Path(f0.tree, root).value {
      p := root;
      UnderSelf(f.tree, root);
    } else {
      var j :| 0 <= j < |at| && rs[j].kind == Directory && rs[j].path == Holder(rs[|at|].path);
      p := at[j];
      PlacedPath(f, root, rs, j, p);
    }
  }

  /** No node has the path of a record whose turn it is. */
  lemma NotThere(f0: Files, f: Files, volumes: seq<nat>, root: nat, rs: seq<Record>, at: seq<nat>, p: nat, name: string)
    requires Rebuilt(f0, f, volumes, root, rs, at) && |at| < |rs| && WellFormed(f0.tree) && EmptyVolume(f0.tree, root)
    requires Path(f0.tree, root).Some? && rs[|at|].path != Path(f0.tree, root).value
    requires forall j :: 0 <= j < |at| ==> rs[j].path != rs[|at|].path
    requires Live(f.tree, p) && Under(f.tree, p, root, 511) && Path(f.tree, p).Some?
    requires Path(f.tree, p).value + "/" + name == rs[|at|].path
    ensures Child(f.tree, p, name) == 512
  {
    hide WellFormed, Path, Under, VolumesOk, Placed, Child, Inner;
    ChildSome(f.tree, p, name);
    if Child(f.tree, p, name) < 512 {
      ChildBelow(f.tree, root, p, name);
      var c := Child(f.tree, p, name);
      InVolume(f0, f, volumes, root, rs, at, c);
      if c != root {
        var j := FoundPath(f0, f, volumes, root, rs, at, c);
        PlacedPath(f, root, rs, j, c);
      }
      assert false;
    }
  }

  /** A record whose directory is there, and whose path is not, can be created ... */
  lemma WelcomeAdded(f0: Files, f: Files, volumes: seq<nat>, root: nat, rs: seq<Record>, at: seq<nat>)
    requires Rebuilt(f0, f, volumes, root, rs, at) && Sized(f, volumes) && |at| < |rs| && FirstFree(f.tree, 1) < 512
    requires WellFormed(f0.tree) && EmptyVolume(f0.tree, root) && f0.tree[root].kind == Directory
    requires !f0.tree[root].locked
    requires Path(f0.tree, root).Some? && GoodRecords(rs, Path(f0.tree, root).value)
    requires Welcome(rs, Path(f0.tree, root).value, |at|)
    ensures Added(f, volumes, rs[|at|].kind, rs[|at|].path, DataOf(rs, |at|)).Some?
  {
    hide WellFormed, Path, Under, VolumesOk, Placed, Added, FirstFree, Child, ValidName, Holder, LastPart, GoodTail,
      EmptyVolume;
    var k := |at|;
    var path := rs[k].path;
    var p := HolderNode(f0, f, volumes, root, rs, at);
    RecordName(path, Path(f0.tree, root).value);
    NotThere(f0, f, volumes, root, rs, at, p, LastPart(path));
    AddedIn(f, volumes, p, LastPart(path), rs[k].kind, DataOf(rs, k));
  }

  /** ... and no other. */
  lemma AddedWelcome(f0: Files, f: Files, volumes: seq<nat>, root: nat, rs: seq<Record>, at: seq<nat>)
    requires Rebuilt(f0, f, volumes, root, rs, at) && Sized(f, volumes) && |at| < |rs|
    requires WellFormed(f0.tree) && EmptyVolume(f0.tree, root)
    requires Path(f0.tree, root).Some? && GoodRecords(rs, Path(f0.tree, root).value)
    requires Added(f, volumes, rs[|at|].kind, rs[|at|].path, DataOf(rs, |at|)).Some?
    ensures Welcome(rs, Path(f0.tree, root).value, |at|)
  {
    hide WellFormed, Path, Under, VolumesOk, Placed, Added, FirstFree, Child, ValidName, Holder, LastPart, GoodTail,
        EmptyVolume, CanCreate, Parent;
    var k, prefix := |at|, Path(f0.tree, root).value;
    var path := rs[k].path;
    AddedOk(f, volumes, rs[k].kind, path, DataOf(rs, k));
    RecordParent(f.tree, volumes, root, path);
    var Place(p, name) := Parent(f.tree, volumes, 0, path).value;
    CreateNames(f.tree, FirstFree(f.tree, 1), p, name);
    HolderIs(Path(f.tree, p).value, name);
    InVolume(f0, f, volumes, root, rs, at, p);
    if p != root {
      var j := FoundPath(f0, f, volumes, root, rs, at, p);
      PlacedPath(f, root, rs, j, p);
    }
    forall j | 0 <= j < k ensures rs[j].path != path {
      PlacedPath(f, root, rs, j, at[j]);
      if rs[j].path == path { PathChild(f.tree, p, name, at[j]); assert false; }
    }
  }

  lemma CreateNames(t: Tree, i: nat, p: nat, name: string)
    requires CanCreate(t, i, p, name)
    ensures ValidName(name) && '/' !in name && Child(t, p, name) == 512 && p < 512 && t[p].kind == Directory
  {
  }

  // ----- Room -----

  /** fs_node_count(), below slot k. */
  function LiveCount(t: Tree, k: nat): (c: nat)
    requires k <= 512
    ensures c <= k
  {
    if k == 0 then 0 else LiveCount(t, k - 1) + if Live(t, k - 1) then 1 else 0
  }

  lemma {:induction false} CountCreated(t: Tree, i: nat, n: Node, k: nat)
    requires k <= 512 && i < 512 && t[i].kind == Unused && n.kind != Unused && n.parent < 512
    ensures LiveCount(t[i := n], k) == LiveCount(t, k) + if i < k then 1 else 0
  {
    if k > 0 { CountCreated(t, i, n, k - 1); }
  }

  lemma {:induction false} CountFull(t: Tree, k: nat)
    requires k <= 512 && FirstFree(t, 1) == 512 && Live(t, 0)
    ensures LiveCount(t, k) == k
  {
    if k > 0 { CountFull(t, k - 1); }
  }

  // ----- The whole second pass -----

  /** The slot of the next record. */
  function NextSlot(f: Option<Files>): nat { if f.Some? then FirstFree(f.value.tree, 1) else 0 }

  /** The slots that the first k records take. */
  function Slots(f: Files, volumes: seq<nat>, rs: seq<Record>, k: nat): (at: seq<nat>)
    requires Sized(f, volumes) && k <= |rs|
    ensures |at| == k
  {
    if k == 0 then [] else Slots(f, volumes, rs, k - 1) + [NextSlot(Build(f, volumes, rs, k - 1))]
  }

  /** A node table whose volume can be imported into. */
  ghost predicate Ready(f: Files, volumes: seq<nat>, root: nat, rs: seq<Record>) {
    && Sized(f, volumes) && WellFormed(f.tree) && VolumesOk(f.tree, volumes) && EmptyVolume(f.tree, root)
    && 0 < root < 512 && f.tree[root].kind == Directory && !f.tree[root].locked
    && Path(f.tree, root).Some? && GoodRecords(rs, Path(f.tree, root).value)
  }

  lemma {:induction false} BuildKeeps(f: Files, volumes: seq<nat>, root: nat, rs: seq<Record>, k: nat)
    requires Ready(f, volumes, root, rs) && k <= |rs| && Build(f, volumes, rs, k).Some?
    ensures Rebuilt(f, Build(f, volumes, rs, k).value, volumes, root, rs, Slots(f, volumes, rs, k))
    ensures LiveCount(Build(f, volumes, rs, k).value.tree, 512) == LiveCount(f.tree, 512) + k
    decreases k
  {
    hide WellFormed, VolumesOk, Path, Added, FirstFree, EmptyVolume, Rebuilt, GoodRecord, Placed, DataOf, Parent,
      CanCreate;
    if k == 0 {
      NothingRebuilt(f, volumes, root, rs);
    } else {
      BuildKeeps(f, volumes, root, rs, k - 1);
      var g, at := Build(f, volumes, rs, k - 1).value, Slots(f, volumes, rs, k - 1);
      AddedKeeps(f, g, volumes, root, rs, at);
      RebuiltOk(f, g, volumes, root, rs, at);
      GoodKind(rs[k - 1], Path(f.tree, root).value);
      AddedOk(g, volumes, rs[k - 1].kind, rs[k - 1].path, DataOf(rs, k - 1));
      var i, place := FirstFree(g.tree, 1), Parent(g.tree, volumes, 0, rs[k - 1].path).value;
      CreateFree(g.tree, i, place.parent, place.name);
      CountCreated(g.tree, i, Node(rs[k - 1].kind, place.parent, false, 0, place.name), 512);
    }
  }

  lemma RebuiltOk(f: Files, g: Files, volumes: seq<nat>, root: nat, rs: seq<Record>, at: seq<nat>)
    requires Rebuilt(f, g, volumes, root, rs, at)
    ensures WellFormed(g.tree) && VolumesOk(g.tree, volumes)
  {
    hide WellFormed, VolumesOk, Path, Placed;
  }

  lemma NothingRebuilt(f: Files, volumes: seq<nat>, root: nat, rs: seq<Record>)
    requires Ready(f, volumes, root, rs)
    ensures Rebuilt(f, f, volumes, root, rs, [])
  {
    hide WellFormed, VolumesOk, Path, Placed, EmptyVolume, GoodRecord;
  }

  /** The second pass takes exactly the records whose directory comes before them and whose path is new. */
  lemma {:induction false} BuildExact(f: Files, volumes: seq<nat>, root: nat, rs: seq<Record>, k: nat)
    requires Ready(f, volumes, root, rs) && k <= |rs| && LiveCount(f.tree, 512) + |rs| <= 512
    ensures Build(f, volumes, rs, k).Some? <==> forall j :: 0 <= j < k ==> Welcome(rs, Path(f.tree, root).value, j)
    decreases k
  {
    hide WellFormed, VolumesOk, Path, Added, FirstFree, EmptyVolume, Rebuilt, GoodRecord, Placed, DataOf, Parent,
      CanCreate, Welcome;
    if k > 0 {
      BuildExact(f, volumes, root, rs, k - 1);
      if Build(f, volumes, rs, k - 1).Some? {
        BuildKeeps(f, volumes, root, rs, k - 1);
        var g, at := Build(f, volumes, rs, k - 1).value, Slots(f, volumes, rs, k - 1);
        RebuiltOk(f, g, volumes, root, rs, at);
        HasRoom(g.tree);
        if Welcome(rs, Path(f.tree, root).value, k - 1) { WelcomeAdded(f, g, volumes, root, rs, at); }
        if Added(g, volumes, rs[k - 1].kind, rs[k - 1].path, DataOf(rs, k - 1)).Some? {
          AddedWelcome(f, g, volumes, root, rs, at);
        }
      }
    }
  }

  lemma HasRoom(t: Tree)
    requires WellFormed(t) && LiveCount(t, 512) < 512
    ensures FirstFree(t, 1) < 512
  {
    hide WellFormed, LiveCount, FirstFree;
    RootLocked(t);
    if FirstFree(t, 1) == 512 { CountFull(t, 512); }
  }

  lemma GoodKind(r: Record, prefix: string)
    requires GoodRecord(r, prefix)
    ensures r.kind != Unused
  {
    hide GoodPath;
  }
}
