/** The extent metadata of scripts/extent_store.py as bytes: encode and decode. */
module ExtentCodec {
  import opened Wrappers
  import opened Snapshot

  const BLOCK: nat := 4096
  const MAX_FILE: nat := 0x7fff_ffff_ffff_f000
  const MAX_ENTRIES: nat := 480

  type u64 = x: int | 0 <= x < 0x1_0000_0000_0000_0000

  /** Blocks blocks of a file from logical on lie at physical. */
  datatype Extent = Extent(logical: u64, physical: u64, blocks: u64)

  /** Kind 1 is a directory, 2 a file. */
  datatype Entry = Entry(kind: u32, path: seq<byte>, size: u64, extents: seq<Extent>)

  // ----- Integers -----

  function Le64(x: u64): (r: seq<byte>)
    ensures |r| == 8
  {
    Le32(x % 0x1_0000_0000) + Le32(x / 0x1_0000_0000)
  }

  function DoubleWord(b: seq<byte>, at: nat): u64
    requires at + 8 <= |b|
  {
    var low: int, high: int := Word(b, at), Word(b, at + 4);
    low + 0x1_0000_0000 * high
  }

  lemma DoubleWordOf(b: seq<byte>, at: nat, x: u64)
    requires at + 8 <= |b| && b[at..at + 8] == Le64(x)
    ensures DoubleWord(b, at) == x
  {
    hide Word, Le32;
    assert b[at..at + 4] == b[at..at + 8][..4] == Le32(x % 0x1_0000_0000);
    assert b[at + 4..at + 8] == b[at..at + 8][4..] == Le32(x / 0x1_0000_0000);
    WordOfLe32(b, at, x % 0x1_0000_0000);
    WordOfLe32(b, at + 4, x / 0x1_0000_0000);
  }

  /** Reading a word and writing it again gives the same bytes. */
  lemma Le32Of(b: seq<byte>, at: nat)
    requires at + 4 <= |b|
    ensures Le32(Word(b, at)) == b[at..at + 4]
  {
    var w := Word(b, at);
    var b0: int, b1: int, b2: int, b3: int := b[at], b[at + 1], b[at + 2], b[at + 3];
    var y: int := b1 + 0x100 * b2 + 0x1_0000 * b3;
    var z: int := b2 + 0x100 * b3;
    assert w == b0 + 0x100 * y && y == b1 + 0x100 * z;
    assert w / 256 == y && y / 256 == z && z / 256 == b3;
    assert Le32(w) == [b[at], b[at + 1], b[at + 2], b[at + 3]];
  }

  lemma Le64Of(b: seq<byte>, at: nat)
    requires at + 8 <= |b|
    ensures Le64(DoubleWord(b, at)) == b[at..at + 8]
  {
    hide Word, Le32;
    var low: int, high: int := Word(b, at), Word(b, at + 4);
    var x := DoubleWord(b, at);
    assert x % 0x1_0000_0000 == low && x / 0x1_0000_0000 == high;
    Le32Of(b, at);
    Le32Of(b, at + 4);
    assert b[at..at + 8] == b[at..at + 4] + b[at + 4..at + 8];
  }

  // ----- Encoding -----

  function EncodeExtent(e: Extent): (r: seq<byte>)
    ensures |r| == 24
  {
    Le64(e.logical) + Le64(e.physical) + Le64(e.blocks)
  }

  function EncodeExtents(es: seq<Extent>): (r: seq<byte>)
    ensures |r| == 24 * |es|
  {
    if es == [] then [] else EncodeExtent(es[0]) + EncodeExtents(es[1..])
  }

  /** Lengths that fit their 32-bit fields. */
  predicate Packable(e: Entry) { |e.path| < 192 && |e.extents| < 0x1_0000_0000 }

  function EncodeEntry(e: Entry): (r: seq<byte>)
    requires Packable(e)
    ensures |r| == 24 + |e.path| + 24 * |e.extents|
  {
    Le32(e.kind) + Le32(|e.path|) + Le64(e.size) + Le32(|e.extents|) + Le32(0) + e.path + EncodeExtents(e.extents)
  }

  predicate AllPackable(entries: seq<Entry>) {
    forall i :: 0 <= i < |entries| ==> Packable(entries[i])
  }

  function EncodeEntries(entries: seq<Entry>): seq<byte>
    requires forall i :: 0 <= i < |entries| ==> Packable(entries[i])
  {
    if entries == [] then [] else EncodeEntry(entries[0]) + EncodeEntries(entries[1..])
  }

  /** encode() */
  function Encode(entries: seq<Entry>): seq<byte>
    requires |entries| <= MAX_ENTRIES && AllPackable(entries)
  {
    Le32(|entries|) + EncodeEntries(entries)
  }

  // ----- Decoding -----

  function DecodeExtents(b: seq<byte>, at: nat, count: nat): (r: seq<Extent>)
    requires at + 24 * count <= |b|
    ensures |r| == count
    decreases count
  {
    if count == 0 then []
    else [Extent(DoubleWord(b, at), DoubleWord(b, at + 8), DoubleWord(b, at + 16))] + DecodeExtents(b, at + 24, count - 1)
  }

  datatype Parsed = Parsed(entry: Entry, end: nat)

  /** One entry at a position, or none if it does not fit the payload. */
  function DecodeEntry(b: seq<byte>, at: nat): (r: Option<Parsed>)
    requires at <= |b|
    ensures r.Some? ==> at < r.value.end <= |b|
  {
    if |b| - at < 24 then None
    else
      var n: int, count: int := Word(b, at + 4), Word(b, at + 16);
      if Word(b, at + 20) != 0 || n >= 192 || n + count * 24 > |b| - at - 24 then None
      else
        Some(Parsed(Entry(Word(b, at), b[at + 24..at + 24 + n], DoubleWord(b, at + 8), DecodeExtents(b, at + 24 + n, count)),
                    at + 24 + n + count * 24))
  }

  /** count entries that end exactly at the end of the payload. */
  function DecodeEntries(b: seq<byte>, at: nat, count: nat): (r: Option<seq<Entry>>)
    requires at <= |b|
    ensures r.Some? ==> |r.value| == count
    decreases count
  {
    if count == 0 then if at == |b| then Some([]) else None
    else match DecodeEntry(b, at)
      case None => None
      case Some(p) => match DecodeEntries(b, p.end, count - 1)
        case None => None
        case Some(rest) => Some([p.entry] + rest)
  }

  /** decode() before validate(). */
  function DecodePayload(b: seq<byte>): Option<seq<Entry>> {
    if |b| < 4 || Word(b, 0) > MAX_ENTRIES then None else DecodeEntries(b, 4, Word(b, 0))
  }

  // ----- decode(encode(E)) == E -----

  lemma {:induction false} ExtentsRoundTrip(b: seq<byte>, at: nat, es: seq<Extent>)
    requires at + 24 * |es| <= |b| && b[at..at + 24 * |es|] == EncodeExtents(es)
    ensures DecodeExtents(b, at, |es|) == es
    decreases |es|
  {
    hide Le64, DoubleWord;
    if es != [] {
      var e := es[0];
      var s := b[at..at + 24 * |es|];
      Inside(b, at, at + 24 * |es|, 0, 8);
      Inside(b, at, at + 24 * |es|, 8, 16);
      Inside(b, at, at + 24 * |es|, 16, 24);
      Inside(b, at, at + 24 * |es|, 24, 24 * |es|);
      assert s[0..8] == Le64(e.logical) && s[8..16] == Le64(e.physical) && s[16..24] == Le64(e.blocks);
      assert s[24..] == EncodeExtents(es[1..]);
      DoubleWordOf(b, at, e.logical);
      DoubleWordOf(b, at + 8, e.physical);
      DoubleWordOf(b, at + 16, e.blocks);
      ExtentsRoundTrip(b, at + 24, es[1..]);
    }
  }

  /** A part of a part. */
  lemma Inside(b: seq<byte>, lo: nat, hi: nat, i: nat, j: nat)
    requires lo <= hi <= |b| && i <= j <= hi - lo
    ensures b[lo..hi][i..j] == b[lo + i..lo + j]
  {
    var s, t := b[lo..hi][i..j], b[lo + i..lo + j];
    forall k | 0 <= k < j - i ensures s[k] == t[k] { assert s[k] == b[lo + i + k]; }
  }

  lemma EntryRoundTrip(b: seq<byte>, at: nat, e: Entry)
    requires Packable(e) && at + |EncodeEntry(e)| <= |b| && b[at..at + |EncodeEntry(e)|] == EncodeEntry(e)
    ensures DecodeEntry(b, at) == Some(Parsed(e, at + |EncodeEntry(e)|))
  {
    hide Le64, Le32, DoubleWord, Word, EncodeExtents, DecodeExtents;
    var n, m := |e.path|, |EncodeEntry(e)|;
    var s := EncodeEntry(e);
    EntryParts(e);
    Inside(b, at, at + m, 0, 4);
    Inside(b, at, at + m, 4, 8);
    Inside(b, at, at + m, 8, 16);
    Inside(b, at, at + m, 16, 20);
    Inside(b, at, at + m, 20, 24);
    Inside(b, at, at + m, 24, 24 + n);
    Inside(b, at, at + m, 24 + n, m);
    WordOfLe32(b, at, e.kind);
    WordOfLe32(b, at + 4, n);
    DoubleWordOf(b, at + 8, e.size);
    WordOfLe32(b, at + 16, |e.extents|);
    WordOfLe32(b, at + 20, 0);
    ExtentsRoundTrip(b, at + 24 + n, e.extents);
  }

  lemma EntryParts(e: Entry)
    requires Packable(e)
    ensures
      var s, n := EncodeEntry(e), |e.path|;
      && s[0..4] == Le32(e.kind) && s[4..8] == Le32(n) && s[8..16] == Le64(e.size)
      && s[16..20] == Le32(|e.extents|) && s[20..24] == Le32(0)
      && s[24..24 + n] == e.path && s[24 + n..|s|] == EncodeExtents(e.extents)
  {
    hide Le64, Le32, EncodeExtents;
  }

  lemma {:induction false} EntriesRoundTrip(b: seq<byte>, at: nat, entries: seq<Entry>)
    requires AllPackable(entries) && at <= |b| && b[at..] == EncodeEntries(entries)
    ensures DecodeEntries(b, at, |entries|) == Some(entries)
    decreases |entries|
  {
    hide EncodeEntry, DecodeEntry;
    if entries != [] {
      var m := |EncodeEntry(entries[0])|;
      assert b[at..][..m] == EncodeEntry(entries[0]) && b[at..][m..] == EncodeEntries(entries[1..]);
      assert b[at..at + m] == b[at..][..m] && b[at + m..] == b[at..][m..];
      EntryRoundTrip(b, at, entries[0]);
      EntriesRoundTrip(b, at + m, entries[1..]);
      assert [entries[0]] + entries[1..] == entries;
    }
  }

  lemma DecodeEncode(entries: seq<Entry>)
    requires AllPackable(entries) && |entries| <= MAX_ENTRIES
    ensures DecodePayload(Encode(entries)) == Some(entries)
  {
    hide EncodeEntries, DecodeEntries, Le32, Word;
    var b := Encode(entries);
    assert b[0..4] == Le32(|entries|) && b[4..] == EncodeEntries(entries);
    WordOfLe32(b, 0, |entries|);
    EntriesRoundTrip(b, 4, entries);
  }

  // ----- encode(decode(P)) == P -----

  lemma {:induction false} ExtentsBack(b: seq<byte>, at: nat, count: nat)
    requires at + 24 * count <= |b|
    ensures EncodeExtents(DecodeExtents(b, at, count)) == b[at..at + 24 * count]
    decreases count
  {
    hide Le64, DoubleWord;
    if count > 0 {
      Le64Of(b, at);
      Le64Of(b, at + 8);
      Le64Of(b, at + 16);
      ExtentsBack(b, at + 24, count - 1);
      var es := DecodeExtents(b, at, count);
      assert es[1..] == DecodeExtents(b, at + 24, count - 1);
      Join(b, at, at + 8, at + 16);
      Join(b, at, at + 16, at + 24);
      Join(b, at, at + 24, at + 24 * count);
    }
  }

  lemma Join(b: seq<byte>, i: nat, j: nat, k: nat)
    requires i <= j <= k <= |b|
    ensures b[i..j] + b[j..k] == b[i..k]
  {
  }

  lemma EntryBack(b: seq<byte>, at: nat)
    requires at <= |b| && DecodeEntry(b, at).Some?
    ensures
      var p := DecodeEntry(b, at).value;
      Packable(p.entry) && EncodeEntry(p.entry) == b[at..p.end]
  {
    hide Le64, Le32, DoubleWord, Word, EncodeExtents, DecodeExtents;
    var e, end := DecodeEntry(b, at).value.entry, DecodeEntry(b, at).value.end;
    var n := |e.path|;
    Le32Of(b, at);
    Le32Of(b, at + 4);
    Le64Of(b, at + 8);
    Le32Of(b, at + 16);
    Le32Of(b, at + 20);
    ExtentsBack(b, at + 24 + n, |e.extents|);
    Join(b, at, at + 4, at + 8);
    Join(b, at, at + 8, at + 16);
    Join(b, at, at + 16, at + 20);
    Join(b, at, at + 20, at + 24);
    Join(b, at, at + 24, at + 24 + n);
    Join(b, at, at + 24 + n, end);
  }

  lemma {:induction false} EntriesBack(b: seq<byte>, at: nat, count: nat)
    requires at <= |b| && DecodeEntries(b, at, count).Some?
    ensures AllPackable(DecodeEntries(b, at, count).value)
    ensures EncodeEntries(DecodeEntries(b, at, count).value) == b[at..]
    decreases count
  {
    hide EncodeEntry, DecodeEntry, Packable;
    if count > 0 {
      EntryBack(b, at);
      var p := DecodeEntry(b, at).value;
      EntriesBack(b, p.end, count - 1);
      var all := DecodeEntries(b, at, count).value;
      assert all[1..] == DecodeEntries(b, p.end, count - 1).value;
      assert b[at..p.end] + b[p.end..] == b[at..];
    }
  }

  /** The codec is a bijection between the entry lists and the payloads accepted. */
  lemma EncodeDecode(b: seq<byte>)
    requires DecodePayload(b).Some?
    ensures
      var entries := DecodePayload(b).value;
      |entries| <= MAX_ENTRIES && AllPackable(entries) && Encode(entries) == b
  {
    hide EncodeEntries, DecodeEntries, Le32, Word, Packable;
    Le32Of(b, 0);
    EntriesBack(b, 4, Word(b, 0));
    assert b[0..4] + b[4..] == b;
  }

  // ----- As the script does it -----

  /** encode() appending to a buffer. */
  method EncodeAll(entries: seq<Entry>) returns (out: seq<byte>)
    requires |entries| <= MAX_ENTRIES && forall i :: 0 <= i < |entries| ==> Packable(entries[i])
    ensures out == Encode(entries)
  {
    hide EncodeEntry;
    out := Le32(|entries|);
    assert entries[0..] == entries;
    for i := 0 to |entries|
      invariant out + EncodeEntries(entries[i..]) == Encode(entries)
    {
      assert entries[i..][0] == entries[i] && entries[i..][1..] == entries[i + 1..];
      ghost var one, rest := EncodeEntry(entries[i]), EncodeEntries(entries[i + 1..]);
      assert out + (one + rest) == out + one + rest;
      out := out + EncodeEntry(entries[i]);
    }
    assert entries[|entries|..] == [] && out + [] == out;
  }

  /** decode() before validate(), reading one entry after the other. */
  method DecodeAll(b: seq<byte>) returns (r: Option<seq<Entry>>)
    ensures r == DecodePayload(b)
  {
    hide DecodeEntry, Word;
    if |b| < 4 { return None; }
    var count: nat := Word(b, 0);
    if count > MAX_ENTRIES { return None; }
    var entries: seq<Entry>, at: nat := [], 4;
    PrependedNone(DecodeEntries(b, at, count));
    for i := 0 to count
      invariant at <= |b|
      invariant DecodePayload(b) == Prepended(entries, DecodeEntries(b, at, count - i))
    {
      var p := DecodeEntry(b, at);
      if p.None? { return None; }
      PrependedOne(entries, p.value.entry, DecodeEntries(b, p.value.end, count - i - 1));
      entries, at := entries + [p.value.entry], p.value.end;
    }
    if at != |b| { return None; }
    assert entries + [] == entries;
    r := Some(entries);
  }

  function Prepended(a: seq<Entry>, r: Option<seq<Entry>>): Option<seq<Entry>> {
    match r case None => None case Some(s) => Some(a + s)
  }

  lemma PrependedNone(r: Option<seq<Entry>>)
    ensures Prepended([], r) == r
  {
    if r.Some? { assert [] + r.value == r.value; }
  }

  lemma PrependedOne(a: seq<Entry>, e: Entry, r: Option<seq<Entry>>)
    ensures Prepended(a, match r case None => None case Some(s) => Some([e] + s)) == Prepended(a + [e], r)
  {
    if r.Some? { assert a + ([e] + r.value) == a + [e] + r.value; }
  }
}
