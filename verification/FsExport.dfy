/** Which records fs_export_stream writes, and in which order (kernel/fs.c). */
module FsExport {
  import opened Wrappers
  import opened FsTree
  import opened FsEdits
  import opened FsStream

  /** The nodes of a volume, without its root. */
  predicate Inner(t: Tree, root: nat, n: nat) {
    n < 512 && Live(t, n) && n != root && Under(t, n, root, 511)
  }

  /** The depth of a node below the root of its volume. */
  function DepthIn(t: Tree, n: nat, root: nat, steps: nat): nat
    requires n < 512
    decreases steps
  {
    if n == root || n == 0 || steps == 0 then 0 else 1 + DepthIn(t, t[n].parent, root, steps - 1)
  }

  /** A node with its contents is a plain file, or a directory. */
  predicate Storable(t: Tree, files: seq<seq<byte>>, n: nat)
    requires n < 512 && |files| == 512
  {
    (t[n].kind == File || (t[n].kind == Directory && files[n] == [])) && |files[n]| <= FILE_MAX
  }

  /** Contents by node; a volume holds plain files and directories. */
  ghost predicate VolumeOk(t: Tree, files: seq<seq<byte>>, root: nat) {
    && |files| == 512 && 0 < root < 512 && t[root].kind == Directory
    && (forall n: nat :: Inner(t, root, n) ==> Storable(t, files, n))
    && (forall n :: 0 < n < 512 && Live(t, n) ==> Plain(t[n].name))
  }

  function RecordOf(t: Tree, files: seq<seq<byte>>, n: nat): Record
    requires n < 512 && |files| == 512 && Path(t, n).Some?
  {
    Record(t[n].kind, Path(t, n).value, files[n])
  }

  // ----- Paths of records -----

  lemma {:induction false} PlainPath(t: Tree, n: nat, k: nat)
    requires n < 512 && PathFrom(t, n, k).Some? && Live(t, n) && WellFormed(t)
    requires forall i :: 0 < i < 512 && Live(t, i) ==> Plain(t[i].name)
    ensures Plain(PathFrom(t, n, k).value)
    decreases k
  {
    hide WellFormed, NodeOk;
    if n != 0 {
      NodeIsOk(t, n);
      PlainPath(t, t[n].parent, k - 1);
      assert Plain("/");
    }
  }

  lemma {:induction false} TailAppend(p: string, name: string)
    requires GoodTail(p) && (p != "" ==> p[|p| - 1] != '/') && ValidName(name)
    ensures GoodTail(if p == "" then name else p + "/" + name)
    decreases |p|
  {
    hide ValidName, NameAt, GoodTail;
    NamePlain(name);
    EmptyTail();
    if p == "" {
      NameAtIs(name, "");
      assert name + "" == name;
      TailWith(name, "");
    } else {
      var first := NameAt(p);
      TailParts(p);
      if |first| == |p| {
        TailAppend("", name);
        TailWith(first, name);
        SlashAssoc(p, name);
      } else {
        var rest := p[|first| + 1..];
        TailAppend(rest, name);
        TailWith(first, rest + "/" + name);
        JoinRest(p, first, rest, name);
      }
    }
  }

  lemma SlashAssoc(p: string, name: string)
    ensures p + "/" + name == p + ("/" + name)
  {
  }

  lemma JoinRest(p: string, first: string, rest: string, name: string)
    requires p == first + ("/" + rest)
    ensures p + "/" + name == first + ("/" + (rest + "/" + name))
  {
  }

  /** The first component of a good path, and what comes after it. */
  lemma TailParts(p: string)
    requires GoodTail(p) && p != "" && p[|p| - 1] != '/'
    ensures
      var first := NameAt(p);
      && ValidName(first) && '/' !in first && (|first| == |p| ==> first == p)
      && (|first| < |p| ==> |first| < |p| - 1 && p == first + ("/" + p[|first| + 1..]) && GoodTail(p[|first| + 1..])
                            && p[|first| + 1..][|p| - |first| - 2] == p[|p| - 1])
  {
    hide ValidName, NameAt, GoodTail;
    var first := NameAt(p);
    TailOnce(p);
    assert p[..|p|] == p;
    if |first| < |p| { CutAt(p, |first|); }
  }

  lemma TailOnce(p: string)
    requires GoodTail(p) && p != ""
    ensures ValidName(NameAt(p)) && (|NameAt(p)| < |p| ==> GoodTail(p[|NameAt(p)| + 1..]))
  {
    hide ValidName, NameAt;
  }

  lemma CutAt(p: string, n: nat)
    requires n < |p| && p[n] == '/' && p[|p| - 1] != '/'
    ensures n < |p| - 1 && p == p[..n] + ("/" + p[n + 1..]) && p[n + 1..][|p| - n - 2] == p[|p| - 1]
  {
  }

  /** A good component in front of a good path. */
  lemma TailWith(first: string, rest: string)
    requires ValidName(first) && '/' !in first && GoodTail(rest)
    ensures GoodTail(if rest == "" then first else first + ("/" + rest))
  {
    hide ValidName, NameAt;
    if rest == "" {
      NameAtIs(first, "");
      assert first + "" == first;
    } else {
      var q := first + ("/" + rest);
      NameAtIs(first, "/" + rest);
      assert q[|first| + 1..] == rest;
    }
  }

  lemma NamePlain(name: string)
    requires ValidName(name)
    ensures name != "" && '/' !in name && name[|name| - 1] != '/'
  {
    assert name[|name| - 1] in name;
  }

  /** The path of an inner node goes on from the root's path by good names. */
  lemma {:induction false} InnerPath(t: Tree, root: nat, n: nat, k: nat)
    requires WellFormed(t) && n < 512 && Live(t, n) && root < 512 && Under(t, n, root, k)
    requires PathFrom(t, root, 512).Some?
    ensures
      var tail := Below(t, n, root, k);
      && (n == root ==> tail == "")
      && (n != root ==> |tail| >= 2 && tail[0] == '/' && tail[|tail| - 1] != '/' && GoodTail(tail[1..]))
    decreases k
  {
    hide WellFormed, NodeOk, PathFrom, GoodTail, ValidName;
    if n != root {
      NodeIsOk(t, n);
      var p, name := t[n].parent, t[n].name;
      InnerPath(t, root, p, k - 1);
      var tail := Below(t, p, root, k - 1);
      NamePlain(name);
      EmptyTail();
      TailAppend(if p == root then "" else tail[1..], name);
      assert (tail + "/" + name)[1..] == if p == root then name else tail[1..] + "/" + name;
    }
  }

  lemma EmptyTail()
    ensures GoodTail("")
  {
  }

  /** Records of inner nodes are accepted by stream_entry(). */
  lemma RecordGood(t: Tree, files: seq<seq<byte>>, root: nat, n: nat)
    requires WellFormed(t) && VolumeOk(t, files, root) && Inner(t, root, n)
    ensures Path(t, n).Some? && Path(t, root).Some?
    ensures Writable(RecordOf(t, files, n)) && GoodRecord(RecordOf(t, files, n), Path(t, root).value)
  {
    hide PathFrom, GoodTail, Under, Below, WellFormed, NodeOk;
    PathShape(t, n);
    PathShape(t, root);
    Depth(t, n);
    Depth(t, root);
    PlainPath(t, n, 512);
    UnderSteps(t, n, root, 95, 511);
    InnerPath(t, root, n, 95);
    ThroughPath(t, t, root, n, 95, 95);
    MoreSteps(t, n, 190, 512);
    var tail, prefix := Below(t, n, root, 95), Path(t, root).value;
    assert Path(t, n).value == prefix + tail;
    assert (prefix + tail)[|prefix| + 1..] == tail[1..];
  }

  // ----- The order -----

  /** All inner nodes once, parents before children. */
  ghost predicate Ordered(t: Tree, root: nat, order: seq<nat>) {
    && (forall n: nat :: n in order <==> Inner(t, root, n))
    && (forall i, j :: 0 <= i < j < |order| ==> order[i] != order[j])
    && (forall i :: 0 <= i < |order| ==> order[i] < 512 && ParentEarlier(t, root, order, i))
  }

  predicate ParentEarlier(t: Tree, root: nat, order: seq<nat>, i: nat)
    requires i < |order| && order[i] < 512
  {
    t[order[i]].parent == root || t[order[i]].parent in order[..i]
  }

  lemma {:induction false} DepthSteps(t: Tree, n: nat, root: nat, k: nat, k': nat)
    requires n < 512 && k <= k' && PathFrom(t, n, k).Some?
    ensures DepthIn(t, n, root, k') == DepthIn(t, n, root, k) <= k
    decreases k
  {
    if n != 0 && n != root { DepthSteps(t, t[n].parent, root, k - 1, k' - 1); }
  }

  /** The parent of an inner node is the root, or an inner node one level up. */
  lemma ParentDepth(t: Tree, root: nat, n: nat)
    requires WellFormed(t) && 0 < root < 512 && Live(t, root) && Inner(t, root, n)
    ensures t[n].parent == root || Inner(t, root, t[n].parent)
    ensures DepthIn(t, n, root, 511) == 1 + DepthIn(t, t[n].parent, root, 511) <= 95
  {
    hide WellFormed, NodeOk, PathFrom;
    Depth(t, n);
    RootNotInner(t, root, n);
    NodeIsOk(t, n);
    Depth(t, t[n].parent);
    DepthSteps(t, n, root, 95, 511);
    DepthSteps(t, t[n].parent, root, 95, 510);
    DepthSteps(t, t[n].parent, root, 95, 511);
    UnderSteps(t, t[n].parent, root, 95, 510);
    UnderSteps(t, t[n].parent, root, 95, 511);
  }

  lemma RootNotInner(t: Tree, root: nat, n: nat)
    requires 0 < root && Inner(t, root, n)
    ensures n != 0 && Under(t, t[n].parent, root, 510)
  {
  }

  /** Taken so far: all inner nodes above a depth, and those of that depth below slot i. */
  predicate Due(t: Tree, root: nat, n: nat, depth: nat, i: nat) {
    Inner(t, root, n) && (DepthIn(t, n, root, 511) < depth || (DepthIn(t, n, root, 511) == depth && n < i))
  }

  ghost predicate Partly(t: Tree, root: nat, order: seq<nat>, depth: nat, i: nat) {
    && (forall n: nat :: n in order <==> Due(t, root, n, depth, i))
    && (forall i, j :: 0 <= i < j < |order| ==> order[i] != order[j])
    && (forall i :: 0 <= i < |order| ==> order[i] < 512 && ParentEarlier(t, root, order, i))
  }

  lemma PartlyNext(t: Tree, root: nat, order: seq<nat>, depth: nat, i: nat)
    requires WellFormed(t) && 0 < root < 512 && Live(t, root) && Partly(t, root, order, depth, i) && i < 512
    ensures Partly(t, root, if AtDepth(t, root, depth, i) then order + [i] else order, depth, i + 1)
  {
    hide Inner, DepthIn, WellFormed, ParentEarlier;
    ghost var next := i + 1;
    forall n: nat
      ensures Due(t, root, n, depth, next) <==> Due(t, root, n, depth, i) || (AtDepth(t, root, depth, i) && n == i) { }
    if AtDepth(t, root, depth, i) {
      InnerLive(t, root, i);
      assert i !in order;
      ParentDue(t, root, order, depth, i);
      EarlierMore(t, root, order, i);
    }
  }

  predicate AtDepth(t: Tree, root: nat, depth: nat, i: nat) { Inner(t, root, i) && DepthIn(t, i, root, 511) == depth }

  lemma ParentDue(t: Tree, root: nat, order: seq<nat>, depth: nat, i: nat)
    requires WellFormed(t) && 0 < root < 512 && Live(t, root) && Partly(t, root, order, depth, i)
    requires AtDepth(t, root, depth, i)
    ensures i < 512 && (t[i].parent == root || t[i].parent in order)
  {
    hide DepthIn, WellFormed, ParentEarlier, Under;
    ParentDepth(t, root, i);
    if t[i].parent != root { assert Due(t, root, t[i].parent, depth, i); }
  }

  lemma EarlierMore(t: Tree, root: nat, order: seq<nat>, i: nat)
    requires forall k :: 0 <= k < |order| ==> order[k] < 512 && ParentEarlier(t, root, order, k)
    requires i < 512 && (t[i].parent == root || t[i].parent in order)
    ensures
      var order' := order + [i];
      forall k :: 0 <= k < |order'| ==> order'[k] < 512 && ParentEarlier(t, root, order', k)
  {
    var order' := order + [i];
    forall k | 0 <= k < |order'| ensures order'[k] < 512 && ParentEarlier(t, root, order', k) {
      if k < |order| { assert ParentEarlier(t, root, order, k) && order'[..k] == order[..k]; }
      else { assert order'[..k] == order; }
    }
  }

  lemma InnerLive(t: Tree, root: nat, n: nat)
    requires Inner(t, root, n)
    ensures n < 512 && Live(t, n)
  {
  }

  lemma PartlyDepth(t: Tree, root: nat, order: seq<nat>, depth: nat)
    requires Partly(t, root, order, depth, 512)
    ensures Partly(t, root, order, depth + 1, 0)
  {
    hide DepthIn, Under;
    ghost var next := depth + 1;
    forall n: nat ensures Due(t, root, n, depth, 512) <==> Due(t, root, n, next, 0) { }
  }

  lemma PartlyStart(t: Tree, root: nat)
    requires WellFormed(t) && 0 < root < 512 && Live(t, root)
    ensures Partly(t, root, [], 1, 0)
  {
    hide DepthIn, Under, WellFormed;
    forall n: nat ensures !Due(t, root, n, 1, 0) { if Inner(t, root, n) { ParentDepth(t, root, n); } }
  }

  lemma PartlyEnd(t: Tree, root: nat, order: seq<nat>, depth: nat)
    requires WellFormed(t) && 0 < root < 512 && Live(t, root)
    requires Partly(t, root, order, depth, 0) && forall n: nat :: Inner(t, root, n) ==> DepthIn(t, n, root, 511) < depth
    ensures Ordered(t, root, order)
  {
    hide DepthIn, Inner;
    forall n: nat ensures Inner(t, root, n) <==> Due(t, root, n, depth, 0) { }
  }

  /** The records of an order of nodes. */
  function Records(t: Tree, files: seq<seq<byte>>, order: seq<nat>): (r: seq<Record>)
    requires |files| == 512 && forall i :: 0 <= i < |order| ==> order[i] < 512 && Path(t, order[i]).Some?
    ensures |r| == |order| && forall i :: 0 <= i < |order| ==> r[i] == RecordOf(t, files, order[i])
  {
    if order == [] then [] else Records(t, files, order[..|order| - 1]) + [RecordOf(t, files, order[|order| - 1])]
  }
}
