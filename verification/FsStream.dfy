/** The snapshot payload of kernel/fs.c: fs_export_stream's records and stream_entry reading them. */
module FsStream {
  import opened Wrappers
  import Snapshot
  import FsTree

  type byte = Snapshot.byte

  const FILE_MAX: nat := 0x400_0000

  /** A record of the payload. */
  datatype Record = Record(kind: FsTree.Kind, path: string, data: seq<byte>)

  // ----- Text as bytes -----

  predicate Plain(s: string) { forall i :: 0 <= i < |s| ==> 0 < s[i] as int < 256 }

  function Bytes(s: string): (b: seq<byte>)
    requires Plain(s)
    ensures |b| == |s| && forall i :: 0 <= i < |s| ==> b[i] == s[i] as int
  {
    if s == "" then [] else [s[0] as int] + Bytes(s[1..])
  }

  function Text(b: seq<byte>): (s: string)
    ensures |s| == |b| && forall i :: 0 <= i < |b| ==> s[i] == b[i] as char
  {
    if b == [] then "" else [b[0] as char] + Text(b[1..])
  }

  lemma TextBytes(s: string)
    requires Plain(s)
    ensures Text(Bytes(s)) == s
  {
  }

  // ----- Writing -----

  function KindCode(k: FsTree.Kind): Snapshot.u32 {
    match k case Directory => 1 case File => 2 case Device => 3 case Info => 4 case Unused => 0
  }

  predicate Writable(r: Record) { Plain(r.path) && |r.path| <= 191 && |r.data| <= FILE_MAX }

  function Encoded(r: Record): (b: seq<byte>)
    requires Writable(r)
    ensures |b| == 12 + |r.path| + |r.data|
  {
    Snapshot.Le32(KindCode(r.kind)) + Snapshot.Le32(|r.path|) + Snapshot.Le32(|r.data|) + Bytes(r.path) + r.data
  }

  function EncodedAll(rs: seq<Record>): seq<byte>
    requires forall i :: 0 <= i < |rs| ==> Writable(rs[i])
  {
    if rs == [] then [] else EncodedAll(rs[..|rs| - 1]) + Encoded(rs[|rs| - 1])
  }

  /** The payload that fs_export_stream writes for these records. */
  function Payload(rs: seq<Record>): seq<byte>
    requires |rs| < 512 && forall i :: 0 <= i < |rs| ==> Writable(rs[i])
  {
    Snapshot.Le32(|rs|) + EncodedAll(rs)
  }

  // ----- Reading -----

  /** The components of a path from here on are good names. */
  predicate GoodTail(p: string)
    decreases |p|
  {
    p == "" ||
    var name := FsTree.NameAt(p);
    FsTree.ValidName(name) && (|name| == |p| || GoodTail(p[|name| + 1..]))
  }

  /** What stream_entry() demands of the path of a record of the volume at prefix. */
  predicate GoodPath(path: string, prefix: string) {
    && |prefix| + 2 <= |path| <= 191 && path[..|prefix|] == prefix && path[|prefix|] == '/' && path[|path| - 1] != '/'
    && (forall i :: 0 <= i < |path| ==> path[i] != 0 as char)
    && GoodTail(path[|prefix| + 1..])
  }

  predicate GoodRecord(r: Record, prefix: string) {
    && (r.kind == FsTree.File || (r.kind == FsTree.Directory && r.data == [])) && |r.data| <= FILE_MAX
    && GoodPath(r.path, prefix)
  }

  datatype Parsed = Parsed(record: Record, end: nat)

  /** stream_entry(), and the data behind it. */
  function Read(b: seq<byte>, at: nat, prefix: string): (r: Option<Parsed>)
    ensures r.Some? ==> at < r.value.end <= |b|
  {
    if at > |b| || |b| - at < 12 then None
    else
      var code: int, n: int, size: int := Snapshot.Word(b, at), Snapshot.Word(b, at + 4), Snapshot.Word(b, at + 8);
      if code != 1 && code != 2 then None
      else if code == 1 && size != 0 then None
      else if n < |prefix| + 2 || n >= 192 || n > |b| - at - 12 || size > |b| - at - 12 - n || size > FILE_MAX then None
      else
        var path := Text(b[at + 12..at + 12 + n]);
        if !GoodPath(path, prefix) then None
        else Some(Parsed(Record(if code == 1 then FsTree.Directory else FsTree.File, path, b[at + 12 + n..at + 12 + n + size]),
                         at + 12 + n + size))
  }

  /** The records from a position on, which must end with the payload: the first pass of fs_import_stream. */
  function ReadAll(b: seq<byte>, at: nat, count: nat, prefix: string): (r: Option<seq<Record>>)
    ensures r.Some? ==> |r.value| == count
    decreases count
  {
    if count == 0 then if at == |b| then Some([]) else None
    else match Read(b, at, prefix)
      case None => None
      case Some(p) => match ReadAll(b, p.end, count - 1, prefix)
        case None => None
        case Some(rest) => Some([p.record] + rest)
  }

  function ReadPayload(b: seq<byte>, prefix: string): Option<seq<Record>> {
    if |b| < 4 then None else ReadAll(b, 4, Snapshot.Word(b, 0), prefix)
  }

  // ----- Round trip -----

  lemma Parts(r: Record)
    requires Writable(r)
    ensures
      var s, n := Encoded(r), |r.path|;
      && s[0..4] == Snapshot.Le32(KindCode(r.kind)) && s[4..8] == Snapshot.Le32(n)
      && s[8..12] == Snapshot.Le32(|r.data|)
      && s[12..12 + n] == Bytes(r.path) && s[12 + n..|s|] == r.data
  {
    hide Bytes;
  }

  lemma Inside(b: seq<byte>, lo: nat, hi: nat, i: nat, j: nat)
    requires lo <= hi <= |b| && i <= j <= hi - lo
    ensures b[lo..hi][i..j] == b[lo + i..lo + j]
  {
    var s, t := b[lo..hi][i..j], b[lo + i..lo + j];
    forall k | 0 <= k < j - i ensures s[k] == t[k] { assert s[k] == b[lo + i + k]; }
  }

  lemma ReadsBack(b: seq<byte>, at: nat, r: Record, prefix: string)
    requires Writable(r) && GoodRecord(r, prefix) && at + |Encoded(r)| <= |b| && b[at..at + |Encoded(r)|] == Encoded(r)
    ensures Read(b, at, prefix) == Some(Parsed(r, at + |Encoded(r)|))
  {
    hide Snapshot.Le32, Snapshot.Word, GoodTail, Bytes, Text, Encoded;
    var m, n := |Encoded(r)|, |r.path|;
    Parts(r);
    Inside(b, at, at + m, 0, 4);
    Inside(b, at, at + m, 4, 8);
    Inside(b, at, at + m, 8, 12);
    Inside(b, at, at + m, 12, 12 + n);
    Inside(b, at, at + m, 12 + n, m);
    Snapshot.WordOfLe32(b, at, KindCode(r.kind));
    Snapshot.WordOfLe32(b, at + 4, n);
    Snapshot.WordOfLe32(b, at + 8, |r.data|);
    TextBytes(r.path);
  }

  lemma {:induction false} EncodedFirst(rs: seq<Record>)
    requires rs != [] && forall i :: 0 <= i < |rs| ==> Writable(rs[i])
    ensures EncodedAll(rs) == Encoded(rs[0]) + EncodedAll(rs[1..])
    decreases |rs|
  {
    hide Encoded;
    var n := |rs| - 1;
    if n == 0 {
      assert rs[..0] == [] && rs[1..] == [];
    } else {
      EncodedFirst(rs[..n]);
      assert rs[..n][1..] == rs[1..][..n - 1] && rs[1..][n - 1] == rs[n];
      assert Encoded(rs[0]) + EncodedAll(rs[1..][..n - 1]) + Encoded(rs[n]) ==
        Encoded(rs[0]) + (EncodedAll(rs[1..][..n - 1]) + Encoded(rs[n]));
    }
  }

  lemma {:induction false} AllReadBack(b: seq<byte>, at: nat, rs: seq<Record>, prefix: string)
    requires forall i :: 0 <= i < |rs| ==> Writable(rs[i]) && GoodRecord(rs[i], prefix)
    requires at <= |b| && b[at..] == EncodedAll(rs)
    ensures ReadAll(b, at, |rs|, prefix) == Some(rs)
    decreases |rs|
  {
    hide Encoded, EncodedAll, Read, GoodRecord, Writable;
    if rs == [] {
      NothingEncoded();
    } else {
      EncodedFirst(rs);
      var m := |Encoded(rs[0])|;
      assert b[at..][..m] == Encoded(rs[0]) && b[at..][m..] == EncodedAll(rs[1..]);
      assert b[at..at + m] == b[at..][..m] && b[at + m..] == b[at..][m..];
      ReadsBack(b, at, rs[0], prefix);
      AllReadBack(b, at + m, rs[1..], prefix);
      assert [rs[0]] + rs[1..] == rs;
    }
  }

  lemma NothingEncoded()
    ensures EncodedAll([]) == []
  {
  }

  /** Records of the volume come back from their payload unchanged. */
  lemma PayloadRoundTrip(rs: seq<Record>, prefix: string)
    requires |rs| < 512 && forall i :: 0 <= i < |rs| ==> Writable(rs[i]) && GoodRecord(rs[i], prefix)
    ensures ReadPayload(Payload(rs), prefix) == Some(rs)
  {
    hide EncodedAll, ReadAll, Snapshot.Le32, Snapshot.Word, GoodRecord, Writable;
    var b := Payload(rs);
    assert b[0..4] == Snapshot.Le32(|rs|) && b[4..] == EncodedAll(rs);
    Snapshot.WordOfLe32(b, 0, |rs|);
    AllReadBack(b, 4, rs, prefix);
  }
}
