/** The tree of kernel/fs.c as parent pointers: printing the path of a node and finding a node by path. */
module FsTree {
  import opened Wrappers

  /** FS_NODES, and the lengths of paths and names without their final NUL. */
  const NODES: nat := 512
  const PATH: nat := 191
  const NAME: nat := 31

  datatype Kind = Unused | Directory | File | Device | Info

  datatype Node = Node(kind: Kind, parent: nat, locked: bool, refs: nat, name: string)

  const UNUSED: Node := Node(Unused, 0, false, 0, "")

  type Tree = t: seq<Node> | |t| == 512 && forall i :: 0 <= i < 512 ==> t[i].parent < 512
    witness seq(512, _ => UNUSED)

  datatype Error = NotFound | TooLong | NotDirectory | BadName | NoVolume | Denied | Busy | NotEmpty | Exists | NoSpace | CrossVolume

  datatype Result<T> = Ok(value: T) | Err(error: Error)

  predicate Live(t: Tree, n: nat) { n < 512 && t[n].kind != Unused }

  // ----- Paths -----

  /** The path of a node below the root, climbing at most steps parents. */
  function PathFrom(t: Tree, n: nat, steps: nat): Option<string>
    requires n < 512
    decreases steps
  {
    if n == 0 then Some("")
    else if steps == 0 then None
    else match PathFrom(t, t[n].parent, steps - 1)
      case None => None
      case Some(s) => Some(s + "/" + t[n].name)
  }

  function Path(t: Tree, n: nat): Option<string>
    requires n < 512
  {
    PathFrom(t, n, 512)
  }

  /** The root itself is written "/". */
  function Printed(path: string): string { if path == "" then "/" else path }

  /** More steps change nothing. */
  lemma {:induction false} MoreSteps(t: Tree, n: nat, k: nat, k': nat)
    requires n < 512 && k <= k' && PathFrom(t, n, k).Some?
    ensures PathFrom(t, n, k') == PathFrom(t, n, k)
    decreases k
  {
    if n != 0 { MoreSteps(t, t[n].parent, k - 1, k' - 1); }
  }

  /** A path has at least two characters a step. */
  lemma {:induction false} StepsByLength(t: Tree, n: nat, k: nat)
    requires n < 512 && PathFrom(t, n, k).Some?
    requires forall i :: 0 < i < 512 && Live(t, i) ==> |t[i].name| > 0 && Live(t, t[i].parent)
    requires Live(t, n)
    ensures PathFrom(t, n, |PathFrom(t, n, k).value| / 2) == PathFrom(t, n, k)
    decreases k
  {
    if n != 0 {
      StepsByLength(t, t[n].parent, k - 1);
      var s := PathFrom(t, t[n].parent, k - 1).value;
      MoreSteps(t, t[n].parent, |s| / 2, |PathFrom(t, n, k).value| / 2 - 1);
    }
  }

  // ----- Finding -----

  /** child(): the lowest node of that name in a directory, or 512. */
  function ChildFrom(t: Tree, parent: nat, name: string, i: nat): (r: nat)
    requires i <= 512
    ensures i <= r <= 512
    ensures r < 512 ==> Live(t, r) && t[r].parent == parent && t[r].name == name
    ensures forall k :: i <= k < r ==> !(Live(t, k) && t[k].parent == parent && t[k].name == name)
    decreases 512 - i
  {
    if i == 512 then 512
    else if t[i].kind != Unused && t[i].parent == parent && t[i].name == name then i
    else ChildFrom(t, parent, name, i + 1)
  }

  function Child(t: Tree, parent: nat, name: string): (c: nat)
    ensures c <= 512
  {
    ChildFrom(t, parent, name, 1)
  }

  /** The characters before the next slash. */
  function NameAt(p: string): (name: string)
    ensures |name| <= |p| && name == p[..|name|] && '/' !in name
    ensures |name| < |p| ==> p[|name|] == '/'
  {
    if p == "" || p[0] == '/' then ""
    else
      var rest := NameAt(p[1..]);
      assert p[..1 + |rest|] == [p[0]] + p[1..][..|rest|];
      [p[0]] + rest
  }

  /** The loop of fs_lookup: following p from node n. */
  function Walk(t: Tree, n: nat, p: string): (r: Result<nat>)
    requires n < 512
    ensures r.Ok? ==> r.value < 512
    decreases |p|
  {
    if p == "" then Ok(n)
    else if p[0] == '/' then Walk(t, n, p[1..])
    else if t[n].kind != Directory then Err(NotDirectory)
    else
      var name := NameAt(p);
      if |name| > NAME then Err(TooLong)
      else if name == "." then Walk(t, n, p[1..])
      else if name == ".." then Walk(t, t[n].parent, p[2..])
      else
        var c := Child(t, n, name);
        if c == 512 then Err(NotFound) else Walk(t, c, p[|name|..])
  }

  /** Drive letters name the roots of the mounted volumes. */
  function Upper(c: char): char { if 'a' <= c <= 'z' then (c as int - 32) as char else c }

  predicate HasDrive(path: string) { |path| >= 2 && path[1] == ':' && 'C' <= Upper(path[0]) <= 'F' }

  /** fs_lookup() */
  function Lookup(t: Tree, volumes: seq<nat>, cwd: nat, path: string): (r: Result<nat>)
    requires cwd < 512 && forall i :: 0 <= i < |volumes| ==> volumes[i] < 512
    ensures r.Ok? ==> r.value < 512
  {
    if path == "" then Err(NotFound)
    else if |path| > PATH then Err(TooLong)
    else
      var drive := if HasDrive(path) then Upper(path[0]) as int - 'C' as int else 0;
      if HasDrive(path) && |path| > 2 && path[2] != '/' then Err(BadName)
      else if HasDrive(path) && drive >= |volumes| then Err(NoVolume)
      else
        var r := if HasDrive(path) then Walk(t, volumes[drive], path[2..])
                 else Walk(t, if path[0] == '/' then 0 else cwd, path);
        if r.Ok? && path[|path| - 1] == '/' && t[r.value].kind != Directory then Err(NotDirectory) else r
  }

  // ----- The invariant -----

  /** A name that a path component can be. */
  predicate ValidName(name: string) {
    0 < |name| <= NAME && '/' !in name && name != "." && name != ".."
  }

  predicate NodeOk(t: Tree, n: nat)
    requires n < 512
  {
    && Live(t, t[n].parent) && t[t[n].parent].kind == Directory && ValidName(t[n].name)
    && Path(t, n).Some? && |Path(t, n).value| <= PATH
  }

  predicate Distinct(t: Tree, n: nat, m: nat)
    requires n < 512 && m < 512
  {
    t[n].parent == t[m].parent && t[n].name == t[m].name ==> n == m
  }

  /** The parent pointers are a tree with the root at node 0, siblings have different names and all paths
      fit. */
  ghost predicate WellFormed(t: Tree) {
    && t[0].kind == Directory && t[0].parent == 0 && t[0].locked
    && (forall n :: 0 < n < 512 && Live(t, n) ==> NodeOk(t, n))
    && (forall n, m :: 0 < n < 512 && 0 < m < 512 && Live(t, n) && Live(t, m) ==> Distinct(t, n, m))
  }

  /** child() finds the one node of that name. */
  lemma ChildIs(t: Tree, n: nat)
    requires WellFormed(t) && 0 < n < 512 && Live(t, n)
    ensures Child(t, t[n].parent, t[n].name) == n
  {
    hide NodeOk;
    var c := Child(t, t[n].parent, t[n].name);
    assert c <= n;
    assert Distinct(t, c, n);
  }

  lemma {:induction false} NameAtIs(name: string, rest: string)
    requires '/' !in name && (rest == "" || rest[0] == '/')
    ensures NameAt(name + rest) == name
  {
    if name == "" {
      assert name + rest == rest;
    } else {
      assert (name + rest)[1..] == name[1..] + rest;
      NameAtIs(name[1..], rest);
    }
  }

  lemma NodeIsOk(t: Tree, n: nat)
    requires WellFormed(t) && 0 < n < 512 && Live(t, n)
    ensures NodeOk(t, n) && Live(t, t[n].parent) && t[t[n].parent].kind == Directory && ValidName(t[n].name)
  {
    hide ValidName, Path;
  }

  /** Walking the path of a node leads to it. */
  lemma {:induction false} WalkPath(t: Tree, n: nat, k: nat, rest: string)
    requires WellFormed(t) && Live(t, n) && PathFrom(t, n, k).Some? && (rest == "" || rest[0] == '/')
    ensures Walk(t, 0, PathFrom(t, n, k).value + rest) == Walk(t, n, rest)
    decreases k
  {
    hide Child, NameAt, Walk, WellFormed, NodeOk, ValidName;
    if n == 0 {
      assert "" + rest == rest;
    } else {
      NodeIsOk(t, n);
      var p := t[n].parent;
      var s, name := PathFrom(t, p, k - 1).value, t[n].name;
      assert s + "/" + name + rest == s + ("/" + name + rest);
      WalkPath(t, p, k - 1, "/" + name + rest);
      assert ("/" + name + rest)[1..] == name + rest;
      WalkSlash(t, p, "/" + name + rest);
      WalkName(t, p, name, rest);
      ChildIs(t, n);
    }
  }

  lemma WalkSlash(t: Tree, n: nat, p: string)
    requires n < 512 && p != "" && p[0] == '/'
    ensures Walk(t, n, p) == Walk(t, n, p[1..])
  {
  }

  lemma WalkName(t: Tree, n: nat, name: string, rest: string)
    requires n < 512 && t[n].kind == Directory && ValidName(name) && (rest == "" || rest[0] == '/')
    ensures Walk(t, n, name + rest) ==
            if Child(t, n, name) == 512 then Err(NotFound) else Walk(t, Child(t, n, name), rest)
  {
    hide Child, NameAt;
    NameAtIs(name, rest);
    assert (name + rest)[|name|..] == rest && (name + rest)[0] == name[0];
  }

  /** fs_lookup(fs_path(n)) == n for every live node, from any current directory. */
  lemma LookupPath(t: Tree, volumes: seq<nat>, cwd: nat, n: nat)
    requires WellFormed(t) && Live(t, n) && cwd < 512 && forall i :: 0 <= i < |volumes| ==> volumes[i] < 512
    ensures Path(t, n).Some? && |Printed(Path(t, n).value)| <= PATH
    ensures Lookup(t, volumes, cwd, Printed(Path(t, n).value)) == Ok(n)
  {
    hide Walk, PathFrom;
    PathShape(t, n);
    var s := Path(t, n).value;
    WalkPath(t, n, 512, "");
    assert s + "" == s;
    WalkEnd(t, n);
    if n == 0 {
      WalkSlash(t, 0, "/");
      assert "/"[1..] == "";
    }
  }

  lemma WalkEnd(t: Tree, n: nat)
    requires n < 512
    ensures Walk(t, n, "") == Ok(n)
  {
  }

  lemma PathShape(t: Tree, n: nat)
    requires WellFormed(t) && Live(t, n)
    ensures Path(t, n).Some? && |Path(t, n).value| <= PATH
    ensures n == 0 ==> Path(t, n).value == ""
    ensures n != 0 ==>
              Path(t, n).value != "" && Path(t, n).value[0] == '/' && Path(t, n).value[|Path(t, n).value| - 1] != '/'
  {
    if n != 0 {
      assert NodeOk(t, n);
      StartsWithSlash(t, n, 512);
    }
  }

  lemma {:induction false} StartsWithSlash(t: Tree, n: nat, k: nat)
    requires 0 < n < 512 && PathFrom(t, n, k).Some?
    ensures PathFrom(t, n, k).value != "" && PathFrom(t, n, k).value[0] == '/'
    decreases k
  {
    if t[n].parent != 0 { StartsWithSlash(t, t[n].parent, k - 1); }
  }

  /** No two live nodes have the same path. */
  lemma PathsDiffer(t: Tree, n: nat, m: nat)
    requires WellFormed(t) && Live(t, n) && Live(t, m) && Path(t, n) == Path(t, m)
    ensures n == m
  {
    hide Lookup, Path;
    LookupPath(t, [], 0, n);
    LookupPath(t, [], 0, m);
  }
}
