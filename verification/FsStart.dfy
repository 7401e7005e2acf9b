/** The nodes that a start makes: fs_init, fs_unpack and fs_mount_volumes in kernel/fs.c. */
module FsStart {
  import opened FsTree
  import opened FsEdits

  function Fixed(kind: Kind, parent: nat, name: string): Node { Node(kind, parent, true, 0, name) }

  function Open(parent: nat, name: string): Node { Node(Directory, parent, false, 0, name) }

  /** fs_init() */
  const INITIAL: seq<Node> := [
    Fixed(Directory, 0, ""), Fixed(Directory, 0, "apps"), Open(0, "home"), Open(0, "tmp"),
    Fixed(Directory, 0, "dev"), Fixed(Directory, 0, "sys"),
    Fixed(Device, 4, "null"), Fixed(Device, 4, "zero"), Fixed(Device, 4, "console"),
    Fixed(Device, 4, "random"), Fixed(Device, 4, "urandom"),
    Fixed(Info, 5, "memory"), Fixed(Info, 5, "tasks"), Fixed(Info, 5, "clock"), Fixed(Info, 5, "version")]

  /** The names that fs_unpack() accepts, if they can be components of paths. */
  predicate Archive(apps: seq<string>) {
    && |apps| <= 64 && (forall i :: 0 <= i < |apps| ==> ValidName(apps[i]))
    && forall i, j :: 0 <= i < |apps| && 0 <= j < |apps| && apps[i] == apps[j] ==> i == j
  }

  function Programs(apps: seq<string>): seq<Node> {
    seq(|apps|, i requires 0 <= i < |apps| => Fixed(File, 1, apps[i]))
  }

  /** How many data partitions fs_mount_volumes() mounts. */
  function Partitions(count: nat): (n: nat)
    ensures n <= 3
  {
    if count <= 1 then 0 else if count < 4 then count - 1 else 3
  }

  function Letter(i: nat): (name: string)
    requires i < 3
    ensures |name| == 1
  {
    [('D' as int + i) as char]
  }

  /** /drives and the roots of the data partitions, from slot at on. */
  function Drives(count: nat, at: nat): seq<Node> {
    if count <= 1 then []
    else [Fixed(Directory, 0, "drives")] + seq(Partitions(count), i requires 0 <= i < 3 => Open(at, Letter(i)))
  }

  function StartNodes(apps: seq<string>, count: nat): (nodes: seq<Node>)
    ensures |nodes| == 15 + |apps| + if count <= 1 then 0 else 1 + Partitions(count)
  {
    INITIAL + Programs(apps) + Drives(count, 15 + |apps|)
  }

  /** volume_nodes[] */
  function Roots(apps: seq<string>, count: nat): (volumes: seq<nat>)
    ensures |volumes| == 1 + Partitions(count) && volumes[0] == 2
    ensures forall i :: 0 < i < |volumes| ==> volumes[i] == 15 + |apps| + i
  {
    [2] + seq(Partitions(count), i requires 0 <= i < 3 => 16 + |apps| + i)
  }

  /** Node i can be made after those before it. */
  predicate Laid(nodes: seq<Node>, i: nat)
    requires i < |nodes|
  {
    var n := nodes[i];
    && n.kind != Unused && n.refs == 0 && n.parent < i && ValidName(n.name)
    && nodes[n.parent].kind == Directory && nodes[n.parent].parent == 0
    && (n.locked ==> nodes[n.parent].locked)
    && forall k :: 0 < k < i && nodes[k].parent == n.parent ==> nodes[k].name != n.name
  }

  lemma InitialLaid(i: nat)
    requires 0 < i < 15
    ensures Laid(INITIAL, i)
  {
    hide ValidName;
    InitialName(i);
    if i < 9 { EarlyLaid(i); } else { LateLaid(i); }
  }

  lemma InitialName(i: nat)
    requires 0 < i < 15
    ensures ValidName(INITIAL[i].name)
  {
    var name := INITIAL[i].name;
    assert name[0] != '/' && name[0] != '.' && name[1] != '/' && name[2] != '/';
  }

  lemma EarlyLaid(i: nat)
    requires 0 < i < 9
    ensures forall k :: 0 < k < i ==> INITIAL[k].parent != INITIAL[i].parent || INITIAL[k].name != INITIAL[i].name
  {
  }

  lemma LateLaid(i: nat)
    requires 9 <= i < 15
    ensures forall k :: 0 < k < i ==> INITIAL[k].parent != INITIAL[i].parent || INITIAL[k].name != INITIAL[i].name
  {
  }

  /** The nodes of a start, part by part. */
  lemma StartParts(apps: seq<string>, count: nat)
    ensures
      var all := StartNodes(apps, count);
      && (forall i :: 0 <= i < 15 ==> all[i] == INITIAL[i])
      && (forall i :: 15 <= i < 15 + |apps| ==> all[i] == Fixed(File, 1, apps[i - 15]))
      && (count > 1 ==> all[15 + |apps|] == Fixed(Directory, 0, "drives"))
      && forall i :: 15 + |apps| < i < |all| ==> i - 16 - |apps| < 3 && all[i] == Open(15 + |apps|, Letter(i - 16 - |apps|))
  {
    hide INITIAL, Letter;
  }

  lemma InitialTop(i: nat)
    requires i < 15
    ensures INITIAL[i].parent in {0, 4, 5} && INITIAL[i].name != "drives"
    ensures INITIAL[0] == Fixed(Directory, 0, "") && INITIAL[1] == Fixed(Directory, 0, "apps")
  {
  }

  /** The nodes of a start can be made one after the other. */
  lemma StartLaid(apps: seq<string>, count: nat, i: nat)
    requires Archive(apps) && 0 < i < |StartNodes(apps, count)|
    ensures Laid(StartNodes(apps, count), i)
  {
    hide ValidName, INITIAL, StartNodes, Letter;
    var all := StartNodes(apps, count);
    StartParts(apps, count);
    if i < 15 {
      InitialLaid(i);
    } else if i < 15 + |apps| {
      ProgramLaid(apps, count, i);
    } else if i == 15 + |apps| {
      DrivesLaid(apps, count);
    } else {
      LetterLaid(apps, count, i);
    }
  }

  lemma ProgramLaid(apps: seq<string>, count: nat, i: nat)
    requires Archive(apps) && 15 <= i < 15 + |apps|
    ensures Laid(StartNodes(apps, count), i)
  {
    hide ValidName, INITIAL, StartNodes, Letter;
    var all := StartNodes(apps, count);
    StartParts(apps, count);
    InitialTop(1);
    forall k | 0 < k < i && all[k].parent == 1 ensures all[k].name != apps[i - 15] {
      if k < 15 { InitialTop(k); }
    }
  }

  lemma DrivesLaid(apps: seq<string>, count: nat)
    requires Archive(apps) && count > 1
    ensures Laid(StartNodes(apps, count), 15 + |apps|)
  {
    hide ValidName, INITIAL, StartNodes, Letter;
    var all := StartNodes(apps, count);
    StartParts(apps, count);
    InitialTop(0);
    DriveNames();
    forall k | 0 < k < 15 + |apps| && all[k].parent == 0 ensures all[k].name != "drives" {
      if k < 15 { InitialTop(k); }
    }
  }

  lemma LetterLaid(apps: seq<string>, count: nat, i: nat)
    requires Archive(apps) && 15 + |apps| < i < |StartNodes(apps, count)|
    ensures Laid(StartNodes(apps, count), i)
  {
    hide ValidName, INITIAL, StartNodes;
    var all, d := StartNodes(apps, count), 15 + |apps|;
    StartParts(apps, count);
    DriveNames();
    forall k | 0 < k < i && all[k].parent == d ensures all[k].name != all[i].name {
      if k < 15 { InitialTop(k); }
      if k > d { assert Letter(k - d - 1)[0] != Letter(i - d - 1)[0]; }
    }
  }

  lemma DriveNames()
    ensures ValidName("drives") && forall i :: 0 <= i < 3 ==> ValidName(Letter(i))
  {
  }

  // ----- Making them -----

  /** The table when the first i nodes have been made. */
  function Made(nodes: seq<Node>, i: nat): (t: Tree)
    requires i <= |nodes| <= 512 && forall k :: 0 <= k < i ==> nodes[k].parent < 512
    ensures forall k :: 0 <= k < 512 ==> t[k] == if k < i then nodes[k] else UNUSED
  {
    nodes[..i] + seq(512 - i, _ => UNUSED)
  }

  lemma StartParents(apps: seq<string>, count: nat)
    requires Archive(apps)
    ensures |StartNodes(apps, count)| <= 83
    ensures forall k :: 0 <= k < |StartNodes(apps, count)| ==> StartNodes(apps, count)[k].parent < 512
  {
    hide StartNodes, INITIAL, Laid;
    var all := StartNodes(apps, count);
    StartParts(apps, count);
    InitialTop(0);
    forall k | 0 < k < |all| ensures all[k].parent < 512 { StartLaid(apps, count, k); LaidParent(all, k); }
  }

  lemma LaidParent(nodes: seq<Node>, i: nat)
    requires 0 < i < |nodes| && Laid(nodes, i)
    ensures nodes[i].parent < i
  {
  }

  /** Making the next node keeps the tree well formed. */
  lemma MadeNext(nodes: seq<Node>, i: nat)
    requires 0 < i < |nodes| <= 512 && (forall k :: 0 <= k < |nodes| ==> nodes[k].parent < 512)
    requires Laid(nodes, i) && WellFormed(Made(nodes, i)) && forall k :: 0 < k < i ==> nodes[k].kind != Unused
    ensures WellFormed(Made(nodes, i + 1)) && Made(nodes, i + 1) == Made(nodes, i)[i := nodes[i]]
  {
    hide WellFormed, PathFrom, ValidName;
    var t, n := Made(nodes, i), nodes[i];
    ShortPath(t, n.parent);
    NameFits(n.name);
    assert CanCreate(t, i, n.parent, n.name) by { NoneNamed(t, n.parent, n.name); }
    CreatedOk(t, i, n.parent, n.name, n.kind, n.locked);
    assert Made(nodes, i + 1) == t[i := n];
  }

  /** The path of a node at the top. */
  lemma ShortPath(t: Tree, p: nat)
    requires WellFormed(t) && Live(t, p) && t[p].parent == 0
    ensures Path(t, p).Some? && |Path(t, p).value| <= 32
  {
    if p != 0 { NodeIsOk(t, p); }
  }

  lemma NameFits(name: string)
    requires ValidName(name)
    ensures |name| <= 31
  {
  }

  lemma NoneNamed(t: Tree, p: nat, name: string)
    requires forall k :: 0 < k < 512 && Live(t, k) && t[k].parent == p ==> t[k].name != name
    ensures Child(t, p, name) == 512
  {
  }
}
