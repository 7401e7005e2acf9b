/** fs_export_stream of kernel/fs.c: measuring a volume and writing its records, directories first. */
module VolumeExport {
  import opened Wrappers
  import Snapshot
  import opened FsTree
  import opened FsEdits
  import opened FileTree
  import opened FsStream
  import opened FsExport
  import opened FsImport
  import opened FsRoundTrip
  import FileData

  datatype Status = Done | NoDevice | TooBig | Full | Failed

  // ----- Sizes -----

  /** The bytes that the record of a node takes. */
  function Weight(t: Tree, files: seq<seq<byte>>, n: nat): nat
    requires n < 512 && |files| == 512
  {
    12 + (if Path(t, n).Some? then |Path(t, n).value| else 0) + |files[n]|
  }

  /** The number of nodes below slot m that the first pass counts, and their bytes. */
  function Count(t: Tree, root: nat, m: nat): nat
    requires m <= 512
  {
    if m == 0 then 0 else Count(t, root, m - 1) + if Inner(t, root, m - 1) then 1 else 0
  }

  function Total(t: Tree, files: seq<seq<byte>>, root: nat, m: nat): (r: nat)
    requires m <= 512 && |files| == 512
    ensures r >= 4
  {
    if m == 0 then 4 else Total(t, files, root, m - 1) + if Inner(t, root, m - 1) then Weight(t, files, m - 1) else 0
  }

  lemma {:induction false} TotalGrows(t: Tree, files: seq<seq<byte>>, root: nat, m: nat, m': nat)
    requires m <= m' <= 512 && |files| == 512
    ensures Total(t, files, root, m) <= Total(t, files, root, m')
    decreases m'
  {
    hide Inner, Weight;
    if m < m' { TotalGrows(t, files, root, m, m' - 1); }
  }

  /** The bytes of some nodes in the order they are written. */
  function Sum(t: Tree, files: seq<seq<byte>>, s: seq<nat>): nat
    requires |files| == 512 && forall k :: 0 <= k < |s| ==> s[k] < 512
  {
    if s == [] then 0 else Sum(t, files, s[..|s| - 1]) + Weight(t, files, s[|s| - 1])
  }

  lemma {:induction false} SumWithout(t: Tree, files: seq<seq<byte>>, s: seq<nat>, k: nat)
    requires |files| == 512 && k < |s| && forall k :: 0 <= k < |s| ==> s[k] < 512
    ensures Sum(t, files, s) == Sum(t, files, s[..k] + s[k + 1..]) + Weight(t, files, s[k])
    decreases |s|
  {
    hide Weight;
    var n := |s| - 1;
    if k == n {
      assert s[..k] + s[k + 1..] == s[..n];
    } else {
      var s' := s[..k] + s[k + 1..];
      assert s'[..n - 1] == s[..n][..k] + s[..n][k + 1..] && s'[n - 1] == s[n];
      SumWithout(t, files, s[..n], k);
    }
  }

  /** Counting by slots and by depth gives the same. */
  lemma {:induction false} SameSum(t: Tree, files: seq<seq<byte>>, root: nat, s: seq<nat>, m: nat)
    requires m <= 512 && |files| == 512 && forall k :: 0 <= k < |s| ==> s[k] < 512
    requires (forall n: nat :: n in s <==> n < m && Inner(t, root, n)) && forall i, j :: 0 <= i < j < |s| ==>
               s[i] != s[j]
    ensures |s| == Count(t, root, m) && 4 + Sum(t, files, s) == Total(t, files, root, m)
    decreases m
  {
    hide Inner, Weight;
    if m == 0 {
      if s != [] { FirstIn(s); assert false; }
    } else if Inner(t, root, m - 1) {
      var k :| 0 <= k < |s| && s[k] == m - 1;
      SumWithout(t, files, s, k);
      SameSum(t, files, root, Without(s, k, m - 1), m - 1);
    } else {
      SameSum(t, files, root, s, m - 1);
    }
  }

  lemma FirstIn(s: seq<nat>)
    requires s != []
    ensures s[0] in s
  {
  }

  /** A sequence of different numbers without one of them. */
  function Without(s: seq<nat>, k: nat, x: nat): (r: seq<nat>)
    requires k < |s| && s[k] == x && forall i, j :: 0 <= i < j < |s| ==> s[i] != s[j]
    ensures r == s[..k] + s[k + 1..] && (forall n: nat :: n in r <==> n in s && n != x)
    ensures forall i, j :: 0 <= i < j < |r| ==> r[i] != r[j]
  {
    var r := s[..k] + s[k + 1..];
    assert forall n: nat :: n in r <==> n in s[..k] || n in s[k + 1..];
    assert forall n: nat :: n in s <==> n in s[..k] || n == x || n in s[k + 1..] by { assert s == s[..k] + [x] + s[k + 1..]; }
    r
  }

  /** The payload is as long as the nodes' bytes. */
  lemma {:induction false} EncodedLength(t: Tree, files: seq<seq<byte>>, order: seq<nat>)
    requires |files| == 512 && forall k :: 0 <= k < |order| ==> order[k] < 512 && Path(t, order[k]).Some?
    requires forall k :: 0 <= k < |order| ==> Writable(Records(t, files, order)[k])
    ensures |EncodedAll(Records(t, files, order))| == Sum(t, files, order)
    decreases |order|
  {
    hide Path, Writable, Encoded;
    if order != [] {
      var n := |order| - 1;
      RecordsPrefix(t, files, order, n);
      EncodedLength(t, files, order[..n]);
    }
  }

  lemma {:induction false} RecordsPrefix(t: Tree, files: seq<seq<byte>>, order: seq<nat>, k: nat)
    requires |files| == 512 && k <= |order| && forall k :: 0 <= k < |order| ==>
               order[k] < 512 && Path(t, order[k]).Some?
    ensures Records(t, files, order[..k]) == Records(t, files, order)[..k]
  {
    hide Path, RecordOf;
    var a, b := Records(t, files, order[..k]), Records(t, files, order)[..k];
    forall i | 0 <= i < k ensures a[i] == b[i] { assert order[..k][i] == order[i]; }
  }

  // ----- The first pass -----

  /** The steps from a node up to the root of its volume. */
  method DepthBelow(table: Table, i: nat, root: nat) returns (d: nat)
    requires table.Valid() && Inner(table.T(), root, i)
    ensures d == DepthIn(table.T(), i, root, 511) <= 511
  {
    hide WellFormed;
    var p := i;
    d := 0;
    while p != root
      invariant p < 512 && d <= 511 && Under(table.T(), p, root, 511 - d)
      invariant DepthIn(table.T(), i, root, 511) == d + DepthIn(table.T(), p, root, 511 - d)
      decreases 511 - d
    {
      p := table.nodes[p].parent;
      d := d + 1;
    }
  }

  /** Is it a node of the volume, other than its root? */
  method IsInner(table: Table, i: nat, root: nat) returns (yes: bool)
    requires table.Valid() && i < 512
    ensures yes == Inner(table.T(), root, i)
  {
    hide WellFormed, Under;
    if table.nodes[i].kind == Unused || i == root { return false; }
    yes := table.Descendant(i, root);
  }

  lemma InnerFits(t: Tree, root: nat, i: nat)
    requires WellFormed(t) && Inner(t, root, i)
    ensures Path(t, i).Some? && 0 < |Path(t, i).value| <= PATH && Fitting(t, i) == Some(Path(t, i).value) && i != 0
  {
    hide WellFormed, PathFrom;
    PathShape(t, i);
    InnerParent(t, root, i);
  }

  ghost predicate Shallow(t: Tree, root: nat, m: nat, depth: nat) {
    forall n: nat :: n < m && Inner(t, root, n) ==> DepthIn(t, n, root, 511) <= depth
  }

  /** The nodes' data, and the contents they show. */
  ghost predicate Holding(nodes: seq<FileData.File>, files: seq<seq<byte>>)
    reads set i | 0 <= i < |nodes| :: nodes[i], set i | 0 <= i < |nodes| :: nodes[i].pages,
      set i | 0 <= i < |nodes| && nodes[i].data != null :: nodes[i].data, set i | 0 <= i < |nodes| :: nodes[i].store
  {
    |nodes| == 512 && |files| == 512 && forall i :: 0 <= i < 512 ==> nodes[i].Valid() && nodes[i].Contents() == files[i]
  }

  /** The first pass: how many records, how many bytes, and how deep. */
  method Measure(table: Table, root: nat, cap: nat, nodes: seq<FileData.File>, ghost files: seq<seq<byte>>)
    returns (r: Status, count: nat, total: nat, maxDepth: nat)
    requires table.Valid() && Holding(nodes, files)
    ensures r == Done || r == Full
    ensures r == Full <==> Count(table.T(), root, 512) > 0 && Total(table.T(), files, root, 512) > cap
    ensures r == Done ==> count == Count(table.T(), root, 512) && total == Total(table.T(), files, root, 512)
    ensures r == Done ==> maxDepth <= 511 && Shallow(table.T(), root, 512, maxDepth)
  {
    hide WellFormed, Inner, Path, DepthIn, FileData.File.Valid;
    ghost var t := table.T();
    count, total, maxDepth, r := 0, 4, 0, Done;
    var i: nat := 0;
    CountZero(t, root);
    while i < 512
      invariant 0 <= i <= 512 && r == Done && maxDepth <= 511
      invariant count == Count(t, root, i) && total == Total(t, files, root, i) && (count == 0 || total <= cap)
      invariant Shallow(t, root, i, maxDepth)
    {
      ghost var next := i + 1;
      var inner := IsInner(table, i, root);
      if inner {
        InnerFits(t, root, i);
        var path := table.FsPath(i);
        if path.None? { return TooBig, count, total, maxDepth; }
        var n := |path.value|;
        TotalGrows(t, files, root, next, 512);
        CountGrows(t, root, next, 512);
        if total > cap || cap - total < 12 + n || nodes[i].size > cap - total - 12 - n {
          return Full, count, total, maxDepth;
        }
        total := total + 12 + n + nodes[i].size;
        var depth := DepthBelow(table, i, root);
        maxDepth := if depth > maxDepth then depth else maxDepth;
        count := count + 1;
      }
      i := i + 1;
    }
  }

  lemma CountZero(t: Tree, root: nat)
    ensures Count(t, root, 0) == 0
  {
  }

  lemma {:induction false} CountGrows(t: Tree, root: nat, m: nat, m': nat)
    requires m <= m' <= 512
    ensures Count(t, root, m) <= Count(t, root, m')
    decreases m'
  {
    hide Inner;
    if m < m' { CountGrows(t, root, m, m' - 1); }
  }

  // ----- The second pass -----

  /** write() appends to the output; it may fail unless the disk is reliable. */
  method Write(reliable: bool, out: seq<byte>, bytes: seq<byte>) returns (r: Status, more: seq<byte>)
    ensures r == Done || (r == Failed && !reliable)
    ensures r == Done ==> more == out + bytes
  {
    var works: bool := *;
    r := if reliable || works then Done else Failed;
    more := out + bytes;
  }

  /** The contents of a file, page by page. */
  method WriteData(reliable: bool, bad: set<nat>, f: FileData.File, out: seq<byte>) returns (r: Status, more: seq<byte>)
    requires f.Valid() && (reliable ==> bad == {})
    ensures r == Done || (r == Failed && !reliable)
    ensures r == Done ==> more == out + f.Contents()
  {
    hide FileData.File.Valid, FileData.File.Contents;
    ghost var data := f.Contents();
    var off: nat := 0;
    more, r := out, Done;
    assert out == out + data[..0];
    while off < f.size
      invariant off <= f.size == |data| && r == Done && more == out + data[..off]
    {
      var part: nat := if f.size - off < 4096 then f.size - off else 4096;
      var chunk := new Snapshot.byte[part];
      var copied := f.FileCopy(bad, off, chunk);
      if copied != FileData.Done { return Failed, more; }
      r, more := Write(reliable, more, chunk[..]);
      if r != Done { return; }
      assert data[..off + part] == data[..off] + data[off..off + part];
      off := off + part;
    }
    assert data[..off] == data;
  }

  /** A record: header, path and contents. */
  method WriteRecord(reliable: bool, bad: set<nat>, kind: Kind, path: string, f: FileData.File, out: seq<byte>)
    returns (r: Status, more: seq<byte>)
    requires f.Valid() && Writable(Record(kind, path, f.Contents())) && (reliable ==> bad == {})
    ensures r == Done || (r == Failed && !reliable)
    ensures r == Done ==> more == out + Encoded(Record(kind, path, f.Contents()))
  {
    hide Bytes, Snapshot.Le32, FileData.File.Valid, FileData.File.Contents;
    var header := Snapshot.Le32(KindCode(kind)) + Snapshot.Le32(|path|) + Snapshot.Le32(f.size);
    r, more := Write(reliable, out, header);
    if r != Done { return; }
    r, more := Write(reliable, more, Bytes(path));
    if r != Done { return; }
    r, more := WriteData(reliable, bad, f, more);
    if r == Done {
      assert out + header + Bytes(path) + f.Contents() == out + (header + Bytes(path) + f.Contents());
    }
  }

  /** What has been written: the count, the records of some nodes, and where their contents lie. */
  ghost predicate Written(t: Tree, files: seq<seq<byte>>, count: nat, order: seq<nat>, out: seq<byte>,
      offsets: seq<int>) {
    && |files| == 512 && |offsets| == 512 && count < 0x1_0000_0000
    && (forall k :: 0 <= k < |order| ==> order[k] < 512 && Path(t, order[k]).Some? && Writable(RecordOf(t, files, order[k])))
    && out == Snapshot.Le32(count) + EncodedAll(Records(t, files, order))
    && OffsetsOk(order, Records(t, files, order), offsets)
  }

  /** offsets[] has the positions of the contents of the nodes written, and -1 for the others. */
  ghost predicate OffsetsOk(order: seq<nat>, rs: seq<Record>, offsets: seq<int>)
    requires |order| == |rs| && |offsets| == 512 && forall k :: 0 <= k < |order| ==> order[k] < 512
  {
    && (forall k :: 0 <= k < |order| ==> offsets[order[k]] == DataOf(rs, k).offset)
    && (forall n :: 0 <= n < 512 && n !in order ==> offsets[n] == -1)
  }

  lemma OffsetsNext(order: seq<nat>, rs: seq<Record>, offsets: seq<int>, n: nat, r: Record)
    requires |order| == |rs| && |offsets| == 512 && (forall k :: 0 <= k < |order| ==> order[k] < 512)
    requires OffsetsOk(order, rs, offsets)
    requires n < 512 && n !in order
    ensures OffsetsOk(order + [n], rs + [r], offsets[n := Begin(4, rs, |rs|) + 12 + |r.path|])
  {
    hide Begin;
    forall k | 0 <= k <= |order| ensures Begin(4, rs + [r], k) == Begin(4, rs, k) { BeginPrefix(4, rs, [r], k); }
    forall k | 0 <= k < |order| ensures order[k] != n { assert order[k] in order; }
  }

  lemma {:induction false} BeginPrefix(first: nat, rs: seq<Record>, more: seq<Record>, k: nat)
    requires k <= |rs|
    ensures Begin(first, rs + more, k) == Begin(first, rs, k)
  {
    if k > 0 { BeginPrefix(first, rs, more, k - 1); }
  }

  lemma {:induction false} BeginEnd(first: nat, rs: seq<Record>)
    requires forall k :: 0 <= k < |rs| ==> Writable(rs[k])
    ensures Begin(first, rs, |rs|) == first + |EncodedAll(rs)|
    decreases |rs|
  {
    hide Writable, Encoded;
    if rs != [] {
      var n := |rs| - 1;
      BeginEnd(first, rs[..n]);
      assert rs == rs[..n] + [rs[n]];
      BeginPrefix(first, rs[..n], [rs[n]], n);
    }
  }

  lemma WrittenNext(t: Tree, files: seq<seq<byte>>, count: nat, order: seq<nat>, out: seq<byte>, offsets: seq<int>,
      n: nat)
    requires Written(t, files, count, order, out, offsets) && n < 512 && n !in order && Path(t, n).Some?
    requires Writable(RecordOf(t, files, n))
    ensures
      var r := RecordOf(t, files, n);
      Written(t, files, count, order + [n], out + Encoded(r), offsets[n := |out| + 12 + |r.path|])
  {
    hide Path, Writable, Encoded, EncodedAll, RecordOf, Snapshot.Le32, Begin, OffsetsOk;
    var r, rs := RecordOf(t, files, n), Records(t, files, order);
    RecordsNext(t, files, order, n);
    AppendRecord(Snapshot.Le32(count), rs, r);
    BeginEnd(4, rs);
    OffsetsNext(order, rs, offsets, n, r);
  }

  lemma RecordsNext(t: Tree, files: seq<seq<byte>>, order: seq<nat>, n: nat)
    requires |files| == 512 && n < 512 && Path(t, n).Some? && forall k :: 0 <= k < |order| ==>
               order[k] < 512 && Path(t, order[k]).Some?
    ensures Records(t, files, order + [n]) == Records(t, files, order) + [RecordOf(t, files, n)]
  {
    hide Path, RecordOf;
    assert (order + [n])[..|order|] == order;
  }

  lemma AppendRecord(head: seq<byte>, rs: seq<Record>, r: Record)
    requires Writable(r) && forall k :: 0 <= k < |rs| ==> Writable(rs[k])
    ensures head + EncodedAll(rs) + Encoded(r) == head + EncodedAll(rs + [r])
  {
    hide Writable, Encoded;
    assert (rs + [r])[..|rs|] == rs;
  }

  /** What the order loop keeps. */
  ghost predicate Progress(t: Tree, files: seq<seq<byte>>, root: nat, count: nat, order: seq<nat>, depth: nat, i: nat,
                           out: seq<byte>, offsets: seq<int>) {
    Partly(t, root, order, depth, i) && Written(t, files, count, order, out, offsets)
  }

  lemma NotYet(t: Tree, root: nat, order: seq<nat>, depth: nat, i: nat)
    requires Partly(t, root, order, depth, i) && AtDepth(t, root, depth, i)
    ensures i !in order
  {
    hide Inner, DepthIn, ParentEarlier;
  }

  /** The nodes of one depth. */
  method WriteDepth(reliable: bool, bad: set<nat>, table: Table, nodes: seq<FileData.File>,
      ghost files: seq<seq<byte>>, root: nat,
      depth: nat, ghost count: nat, before: seq<byte>, offsets: array<int>, ghost was: seq<nat>)
    returns (r: Status, out: seq<byte>, ghost order: seq<nat>)
    requires table.Valid() && VolumeOk(table.T(), files, root) && offsets.Length == 512 && Holding(nodes, files)
    requires (reliable ==> bad == {})
    requires Progress(table.T(), files, root, count, was, depth, 0, before, offsets[..])
    modifies offsets
    ensures r == Done || (r == Failed && !reliable)
    ensures r == Done ==> Progress(table.T(), files, root, count, order, depth, 512, out, offsets[..])
  {
    hide WellFormed, Inner, Path, DepthIn, Partly, Written, Writable, RecordOf, Encoded, GoodRecord,
      FileData.File.Valid, FileData.File.Contents;
    ghost var t := table.T();
    out, order, r := before, was, Done;
    var i: nat := 0;
    while i < 512
      invariant 0 <= i <= 512 && r == Done && table.Valid() && table.T() == t
      invariant Progress(t, files, root, count, order, depth, i, out, offsets[..])
    {
      var inner := IsInner(table, i, root);
      var d: nat := 0;
      if inner { d := DepthBelow(table, i, root); }
      PartlyNext(t, root, order, depth, i);
      if inner && d == depth {
        InnerFits(t, root, i);
        RecordGood(t, files, root, i);
        NotYet(t, root, order, depth, i);
        WrittenNext(t, files, count, order, out, offsets[..], i);
        var path := table.FsPath(i);
        if path.None? { return TooBig, out, order; }
        RecordIs(t, files, i, path.value);
        ghost var o := offsets[..];
        offsets[i] := |out| + 12 + |path.value|;
        assert offsets[..] == o[i := |out| + 12 + |path.value|];
        r, out := WriteRecord(reliable, bad, table.nodes[i].kind, path.value, nodes[i], out);
        if r != Done { return; }
        order := order + [i];
      }
      i := i + 1;
    }
  }

  lemma RecordIs(t: Tree, files: seq<seq<byte>>, n: nat, path: string)
    requires n < 512 && |files| == 512 && Path(t, n) == Some(path)
    ensures RecordOf(t, files, n) == Record(t[n].kind, path, files[n])
  {
    hide Path;
  }

  lemma AllWritten(t: Tree, files: seq<seq<byte>>, root: nat, order: seq<nat>, depth: nat, out: seq<byte>,
      offsets: seq<int>, max: nat)
    requires WellFormed(t) && VolumeOk(t, files, root)
    requires Progress(t, files, root, Count(t, root, 512), order, depth, 0, out, offsets) && Shallow(t, root, 512, max)
    requires max < depth
    ensures Exported(t, files, root, order) && |order| < 512 && |files| == 512
    ensures forall k :: 0 <= k < |order| ==>
              order[k] < 512 && Path(t, order[k]).Some? && Writable(RecordOf(t, files, order[k]))
    ensures |Records(t, files, order)| == |order|
    ensures out == Payload(Records(t, files, order)) && |out| == Total(t, files, root, 512)
            && OffsetsOk(order, Records(t, files, order), offsets)
  {
    hide WellFormed, Path, Inner, DepthIn, ParentEarlier, Writable, OffsetsOk, RecordOf, EncodedAll, Weight,
      GoodRecord, Snapshot.Le32;
    forall n: nat | Inner(t, root, n) ensures n < 512 && DepthIn(t, n, root, 511) < depth { InnerLive(t, root, n); }
    PartlyEnd(t, root, order, depth);
    OrderTally(t, files, root, order);
    AllPaths(t, files, root, order);
    ExportedGood(t, files, root, order);
    EncodedLength(t, files, order);
  }

  lemma OrderTally(t: Tree, files: seq<seq<byte>>, root: nat, order: seq<nat>)
    requires Ordered(t, root, order) && |files| == 512
    ensures |order| == Count(t, root, 512) && 4 + Sum(t, files, order) == Total(t, files, root, 512)
  {
    hide ParentEarlier, Weight, Path;
    forall n: nat ensures n in order <==> n < 512 && Inner(t, root, n) { }
    SameSum(t, files, root, order, 512);
  }

  /** fs_export_stream(); bad are the sectors that cannot be read, and reliable says that all else works too. */
  method ExportStream(
      reliable: bool, bad: set<nat>, table: Table, volume: nat, cap: nat, nodes: seq<FileData.File>,
      ghost files: seq<seq<byte>>,
      offsets: array<int>)
    returns (r: Status, out: seq<byte>, length: nat, ghost order: seq<nat>)
    requires table.Valid() && offsets.Length == 512 && Holding(nodes, files) && (reliable ==> bad == {})
    requires volume < |table.volumes| ==> VolumeOk(table.T(), files, table.volumes[volume])
    modifies offsets
    ensures r == NoDevice <==> volume >= |table.volumes|
    ensures r == Full <==> volume < |table.volumes| && Count(table.T(), table.volumes[volume], 512) > 0
                            && Total(table.T(), files, table.volumes[volume], 512) > cap
    ensures r in {Done, NoDevice, Full, Failed} && (r == Failed ==> !reliable)
    ensures r == Done ==>
      var t, root := table.T(), table.volumes[volume];
      && Exported(t, files, root, order) && |files| == 512 && |order| < 512
      && (forall k :: 0 <= k < |order| ==> order[k] < 512 && Path(t, order[k]).Some? && Writable(RecordOf(t, files, order[k])))
      && out == Payload(Records(t, files, order)) && length == |out| == Total(t, files, root, 512)
      && OffsetsOk(order, Records(t, files, order), offsets[..])
  {
    hide WellFormed, Path, Inner, DepthIn, Partly, Written, Writable, RecordOf, Encoded, GoodRecord, Exported,
      OffsetsOk, Payload, FileData.File.Valid, FileData.File.Contents;
    out, order, length := [], [], 0;
    if volume >= |table.volumes| { return NoDevice, out, length, order; }
    ghost var t := table.T();
    var root := table.volumes[volume];
    var count, total, maxDepth;
    r, count, total, maxDepth := Measure(table, root, cap, nodes, files);
    if r != Done { return; }
    forall k | 0 <= k < 512 { offsets[k] := -1; }
    Started(t, files, root, count, offsets[..]);
    r, out := Write(reliable, out, Snapshot.Le32(count));
    if r != Done { return; }
    assert out == Snapshot.Le32(count);
    var depth: nat := 1;
    while depth <= maxDepth
      invariant 1 <= depth <= maxDepth + 1 && r == Done && table.Valid() && table.T() == t
      invariant Progress(t, files, root, count, order, depth, 0, out, offsets[..])
      decreases maxDepth + 1 - depth
    {
      r, out, order := WriteDepth(reliable, bad, table, nodes, files, root, depth, count, out, offsets, order);
      if r != Done { return; }
      PartlyDepth(t, root, order, depth);
      depth := depth + 1;
    }
    AllWritten(t, files, root, order, depth, out, offsets[..], maxDepth);
    length := |out|;
    r := if length == total then Done else Failed;
  }

  lemma Started(t: Tree, files: seq<seq<byte>>, root: nat, count: nat, offsets: seq<int>)
    requires WellFormed(t) && 0 < root < 512 && Live(t, root) && |files| == 512 && |offsets| == 512
    requires count == Count(t, root, 512)
    requires forall k :: 0 <= k < 512 ==> offsets[k] == -1
    ensures count <= 512 && Progress(t, files, root, count, [], 1, 0, Snapshot.Le32(count), offsets)
  {
    hide WellFormed, Path, Inner, DepthIn, Partly, Snapshot.Le32;
    PartlyStart(t, root);
    CountBound(t, root, 512);
    NothingEncoded();
  }

  lemma {:induction false} NothingCounted(t: Tree, files: seq<seq<byte>>, root: nat, m: nat)
    requires m <= 512 && |files| == 512 && Count(t, root, m) == 0
    ensures Total(t, files, root, m) == 4
  {
    hide Inner, Weight;
    if m > 0 { NothingCounted(t, files, root, m - 1); }
  }

  lemma {:induction false} CountBound(t: Tree, root: nat, m: nat)
    requires m <= 512
    ensures Count(t, root, m) <= m
  {
    hide Inner;
    if m > 0 { CountBound(t, root, m - 1); }
  }
}
