/** A full node table: fs_import_stream (kernel/fs.c) counts the nodes before it empties the volume. */
module FullVolume {
  import opened Wrappers
  import Snapshot
  import StoreProtocol
  import Store
  import opened FsTree
  import opened FsEdits
  import opened FsStart
  import opened FileTree
  import opened FsStream
  import opened FsExport
  import opened FsImport
  import opened FsRoundTrip
  import opened VolumeExport
  import opened VolumeImport

  /** A name of two letters for each file. */
  function TwoLetters(n: nat): (name: string)
    requires n < 512
    ensures |name| == 2
  {
    [(65 + n / 32) as char, (97 + n % 32) as char]
  }

  lemma LettersDiffer(n: nat, m: nat)
    requires n < 512 && m < 512 && TwoLetters(n) == TwoLetters(m)
    ensures n == m
  {
    assert TwoLetters(n)[0] == TwoLetters(m)[0] && TwoLetters(n)[1] == TwoLetters(m)[1];
  }

  function HomePath(name: string): string { "/home/" + name }

  /** The path of a file in /home is one that the reader accepts. */
  lemma HomeGood(name: string)
    requires ValidName(name) && Plain(name)
    ensures GoodPath(HomePath(name), "/home") && Plain(HomePath(name)) && Holder(HomePath(name)) == "/home"
    ensures |HomePath(name)| == 6 + |name|
  {
    hide Holder, GoodTail, NameAt;
    HomeChars(name);
    NameIsTail(name);
    HolderIs("/home", name);
  }

  lemma NameIsTail(name: string)
    requires ValidName(name)
    ensures GoodTail(name)
  {
    hide NameAt;
    NameAtIs(name, "");
    assert name + "" == name;
  }

  lemma HomeChars(name: string)
    ensures
      var p := HomePath(name);
      && |p| == 6 + |name| && p[..5] == "/home" && p[5] == '/' && p[6..] == name && p == "/home" + "/" + name
      && forall i :: 0 <= i < 6 ==> 0 < p[i] as int < 256
  {
    var p, head := HomePath(name), "/home/";
    assert p[..5] == head[..5] && head[..5] == "/home";
    assert "/home" + "/" == head;
    forall i | 0 <= i < 6 ensures 0 < p[i] as int < 256 { assert p[i] == head[i]; }
  }

  function EmptyFile(name: string): Record { Record(File, HomePath(name), []) }

  /** n empty files in /home. */
  function EmptyFiles(n: nat): (rs: seq<Record>)
    requires n <= 512
    ensures |rs| == n && forall k :: 0 <= k < n ==> rs[k] == EmptyFile(TwoLetters(k))
  {
    seq(n, k requires 0 <= k < n => EmptyFile(TwoLetters(k)))
  }

  lemma LettersGood(k: nat)
    requires k < 512
    ensures Writable(EmptyFile(TwoLetters(k))) && GoodRecord(EmptyFile(TwoLetters(k)), "/home")
    ensures Holder(HomePath(TwoLetters(k))) == "/home"
  {
    hide GoodPath, Holder, Plain;
    var name := TwoLetters(k);
    assert name[0] != '/' && name[1] != '/' && name[0] != '.';
    PlainLetters(k);
    HomeGood(name);
  }

  lemma PlainLetters(k: nat)
    requires k < 512
    ensures Plain(TwoLetters(k))
  {
  }

  /** Such a payload is read back, and every record of it is welcome. */
  lemma FilesImport(n: nat)
    requires n < 512
    ensures forall k :: 0 <= k < n ==> Writable(EmptyFiles(n)[k])
    ensures ReadPayload(Payload(EmptyFiles(n)), "/home") == Some(EmptyFiles(n))
    ensures forall k :: 0 <= k < n ==> Welcome(EmptyFiles(n), "/home", k)
  {
    hide Writable, GoodRecord, Payload, ReadPayload, Holder, HomePath, TwoLetters;
    var rs := EmptyFiles(n);
    forall k | 0 <= k < n ensures Writable(rs[k]) && GoodRecord(rs[k], "/home") { LettersGood(k); }
    PayloadRoundTrip(rs, "/home");
    forall k | 0 <= k < n ensures Welcome(rs, "/home", k) {
      LettersGood(k);
      forall j | 0 <= j < k ensures rs[j].path != rs[k].path { FilesApart(j, k); }
    }
  }

  lemma FilesApart(j: nat, k: nat)
    requires j < k < 512
    ensures HomePath(TwoLetters(j)) != HomePath(TwoLetters(k))
  {
    var a, b := HomePath(TwoLetters(j)), HomePath(TwoLetters(k));
    if a == b {
      assert a[6..] == TwoLetters(j) && b[6..] == TwoLetters(k);
      LettersDiffer(j, k);
    }
  }

  lemma {:induction false} FilesSize(rs: seq<Record>)
    requires forall k :: 0 <= k < |rs| ==> Writable(rs[k]) && |rs[k].path| <= 8 && rs[k].data == []
    ensures |EncodedAll(rs)| <= 20 * |rs|
  {
    hide Writable;
    if rs != [] { FilesSize(rs[..|rs| - 1]); }
  }

  // ----- On a disk -----

  const VOLUME: StoreProtocol.Volume := StoreProtocol.Volume(1, 40, 39, 0x4000, 1, _ => true)

  /** An image with these bytes in its first slot, behind a blank header. */
  method ImageOf(payload: seq<byte>) returns (image: StoreProtocol.Image)
    requires |payload| <= 0x4000
    ensures forall i: nat :: i * 512 < |payload| ==> StoreProtocol.At(image, 2 + i) == Snapshot.Block(payload, i)
    ensures 1 !in image && 40 !in image
  {
    hide Snapshot.Block;
    image := map[];
    var i := 0;
    while i * 512 < |payload|
      invariant forall j: nat :: j < i && j * 512 < |payload| ==>
                  StoreProtocol.At(image, 2 + j) == Snapshot.Block(payload, j)
      invariant i <= 32 && 1 !in image && 40 !in image
      decreases |payload| - i
    {
      image := image[2 + i := Snapshot.Block(payload, i)];
      i := i + 1;
    }
  }

  /** A disk with these bytes in its first slot. */
  method Holding(payload: seq<byte>) returns (source: Source)
    requires |payload| <= 0x4000
    ensures fresh(source) && source.Ok() && source.slot == 0 && source.bad == {} && source.Payload() == payload
  {
    hide Snapshot.Block, Store.VolumeState.Valid;
    var image := ImageOf(payload);
    var store := new Store.VolumeState(VOLUME, image);
    source := new Source(store, 0, |payload|, {});
    PayloadThere(image, payload);
  }

  lemma PayloadThere(image: StoreProtocol.Image, payload: seq<byte>)
    requires forall i: nat :: i * 512 < |payload| ==> StoreProtocol.At(image, 2 + i) == Snapshot.Block(payload, i)
    ensures StoreProtocol.PayloadAt(VOLUME, image, 0, |payload|) == payload
  {
    hide Snapshot.Block, StoreProtocol.At;
    var p := StoreProtocol.PayloadAt(VOLUME, image, 0, |payload|);
    forall i | 0 <= i < |payload| ensures p[i] == payload[i] { StoreProtocol.BlockByte(payload, i); }
  }

  // ----- A start, a restored volume, and one more import -----

  lemma StartHome(t: Tree, apps: seq<string>, count: nat)
    requires Archive(apps) && WellFormed(t)
    requires forall k :: 0 <= k < 512 ==>
               t[k] == if k < |StartNodes(apps, count)| then StartNodes(apps, count)[k] else UNUSED
    ensures Live(t, 2) && t[2] == Open(0, "home") && EmptyVolume(t, 2)
    ensures LiveCount(t, 512) == |StartNodes(apps, count)| <= 83
  {
    hide WellFormed, INITIAL, StartNodes, Laid, PathFrom, Under;
    var all := StartNodes(apps, count);
    StartParts(apps, count);
    StartParents(apps, count);
    InitialTop(0);
    HomeNode();
    forall k | 0 < k < |all| ensures all[k].kind != Unused { StartLaid(apps, count, k); LaidKind(all, k); }
    CountStart(t, |all|, 512);
    forall n | 0 < n < 512 && Live(t, n) ensures t[n].parent != 2 {
      if n < 15 { InitialTop(n); }
    }
    forall n: nat | n < 512 && Live(t, n) && Under(t, n, 2, 511) ensures n == 2 { NoneBelow(t, 2, n, 511); }
  }

  lemma {:induction false} NoneBelow(t: Tree, root: nat, n: nat, k: nat)
    requires WellFormed(t) && Live(t, n) && Under(t, n, root, k) && root != 0
    requires forall m :: 0 < m < 512 && Live(t, m) ==> t[m].parent != root
    ensures n == root
    decreases k
  {
    hide WellFormed, NodeOk;
    if n != root {
      NodeIsOk(t, n);
      NoneBelow(t, root, t[n].parent, k - 1);
    }
  }

  lemma HomePathIs(t: Tree)
    requires t[2] == Open(0, "home")
    ensures Path(t, 2) == Some("/home")
  {
    assert PathFrom(t, 0, 511) == Some("");
    assert "" + "/" + "home" == "/home";
  }

  lemma {:induction false} CountStart(t: Tree, size: nat, k: nat)
    requires k <= 512 && forall n :: 0 <= n < 512 ==> (Live(t, n) <==> n < size)
    ensures LiveCount(t, k) == if k < size then k else size
  {
    if k > 0 { CountStart(t, size, k - 1); }
  }

  lemma SizeSmall(n: nat)
    requires n < 512
    requires forall k :: 0 <= k < n ==> Writable(EmptyFiles(n)[k])
    ensures |Payload(EmptyFiles(n))| <= 0x4000
  {
    hide Writable, TwoLetters, EncodedAll, EmptyFiles;
    FilesSize(EmptyFiles(n));
  }

  lemma SomeInner(t: Tree, files: seq<seq<byte>>, root: nat, rs: seq<Record>)
    requires |files| == 512 && Entries(t, files, root) == RecordSet(rs) && rs != []
    ensures exists n :: Inner(t, root, n)
  {
    hide Inner, RecordOf, Path;
    assert rs[0] in RecordSet(rs);
  }

  /** /home holds as many empty files as the node table has room for: after a start they are restored. */
  method FullHome(apps: seq<string>, count: nat) returns (v: Volumes)
    requires Archive(apps)
    ensures fresh(v) && fresh(v.table) && fresh(v.table.nodes) && fresh(v.backing) && fresh(v.slots)
    ensures v.Valid() && v.table.volumes == Roots(apps, count) && Path(v.table.T(), 2) == Some("/home")
    ensures LiveCount(v.table.T(), 512) == 512 && exists n :: Inner(v.table.T(), 2, n)
  {
    hide WellFormed, Path, LiveCount, Payload, ReadPayload, Source.Payload, Inner, Writable, Welcome, StartNodes,
      Emptied, Entries, EmptyFiles, Archive, VolumesOk, RecordSet;
    var table := new Table(apps, count);
    v := new Volumes(table);
    ghost var t := table.T();
    StartHome(t, apps, count);
    HomePathIs(t);
    var used := v.NodeCount();
    var n := 512 - used;
    FilesImport(n);
    SizeSmall(n);
    var source := Holding(Payload(EmptyFiles(n)));
    var r;
    ghost var cleared, rs;
    r, cleared, rs := v.ImportStream(source, 0);
    assert table.T()[2] == t[2];
    HomePathIs(table.T());
    SomeInner(table.T(), StoredFiles(v.backing[..], source.Payload()), 2, rs);
  }

  /** One file that is not in /home. */
  const NEW: Record := EmptyFile("new")

  lemma NewImports()
    ensures Writable(NEW) && |Payload([NEW])| <= 0x4000
    ensures ReadPayload(Payload([NEW]), "/home") == Some([NEW]) && Importable(Payload([NEW]), "/home")
  {
    hide ReadPayload, EncodedAll, Holder, HomePath, GoodPath;
    NewPath();
    FilesSizeOf(NEW);
    PayloadRoundTrip([NEW], "/home");
  }

  lemma NewPath()
    ensures GoodPath(HomePath("new"), "/home") && Holder(HomePath("new")) == "/home"
    ensures Plain(HomePath("new")) && |HomePath("new")| == 9
  {
    hide Holder, GoodPath, HomePath;
    assert ValidName("new") && Plain("new");
    HomeGood("new");
  }

  lemma FilesSizeOf(r: Record)
    requires Writable(r) && r.data == []
    ensures |EncodedAll([r])| <= 203
  {
    hide Plain;
    assert [r][..0] == [];
    assert EncodedAll([r]) == EncodedAll([]) + Encoded(r);
  }

  /** After a start, and with /home restored from a snapshot that fills the node table, an import of one file into
      /home is refused and changes nothing, although it would empty /home first and the file would then fit. */
  method FullImportRefused(apps: seq<string>, count: nat)
    returns (v: Volumes, source: Source, r: Status, ghost before: Files)
    requires Archive(apps)
    ensures v.Valid() && v.table.volumes == Roots(apps, count) && source.Ok() && source.bad == {}
    ensures Path(before.tree, 2) == Some("/home") && LiveCount(before.tree, 512) == 512
    ensures r == Full && v.F() == before && Importable(source.Payload(), "/home")
    ensures ReadPayload(source.Payload(), "/home").Some? && |ReadPayload(source.Payload(), "/home").value| == 1
    ensures forall f: Files :: Emptied(before, f, 2) ==> LiveCount(f.tree, 512) + 1 <= 512
  {
    hide WellFormed, Path, LiveCount, Payload, ReadPayload, Importable, Source.Payload, Inner, Writable, Welcome,
      Emptied, Entries, EmptyVolume, Archive, VolumesOk, RecordSet;
    v := FullHome(apps, count);
    before := v.F();
    NewImports();
    source := Holding(Payload([NEW]));
    ghost var cleared, rs;
    r, cleared, rs := v.ImportStream(source, 0);
    forall f: Files | Emptied(before, f, 2) ensures LiveCount(f.tree, 512) + 1 <= 512 { RoomAfter(before, f, 2); }
  }

  /** Emptying a volume that is not empty makes room. */
  lemma RoomAfter(f0: Files, f: Files, root: nat)
    requires Emptied(f0, f, root) && exists n :: Inner(f0.tree, root, n)
    ensures LiveCount(f.tree, 512) < 512
  {
    hide Inner;
    var n :| Inner(f0.tree, root, n);
    InnerIsLive(f0.tree, root, n);
    CountWithout(f.tree, n, 512);
  }

  lemma InnerIsLive(t: Tree, root: nat, n: nat)
    requires Inner(t, root, n)
    ensures n < 512
  {
  }

  lemma {:induction false} CountWithout(t: Tree, n: nat, k: nat)
    requires k <= 512 && n < 512 && !Live(t, n)
    ensures LiveCount(t, k) <= if n < k then k - 1 else k
  {
    if k > 0 { CountWithout(t, n, k - 1); }
  }
}
