/** validate() of scripts/extent_store.py against what an entry list must be. */
module ExtentValidate {
  import opened Wrappers
  import opened Snapshot
  import opened ExtentCodec
  import opened ExtentRanges

  /** "/home" and the slash. */
  const HOME: seq<byte> := [47, 104, 111, 109, 101]
  const SLASH: byte := 47

  /** path.split(b'/') */
  function Split(p: seq<byte>): (r: seq<seq<byte>>)
    ensures |r| > 0
    decreases |p|
  {
    if p == [] then [[]]
    else
      var rest := Split(p[..|p| - 1]);
      if p[|p| - 1] == SLASH then rest + [[]]
      else rest[..|rest| - 1] + [rest[|rest| - 1] + [p[|p| - 1]]]
  }

  /** path.rsplit(b'/', 1)[0] */
  function Parent(p: seq<byte>): seq<byte> {
    if p == [] then [] else if p[|p| - 1] == SLASH then p[..|p| - 1] else Parent(p[..|p| - 1])
  }

  predicate GoodName(name: seq<byte>) { 1 <= |name| <= 31 && name != [46] && name != [46, 46] }

  predicate GoodPath(p: seq<byte>) {
    && |p| < 192 && |p| >= 6 && p[..5] == HOME && p[5] == SLASH && 0 !in p
    && forall i :: 2 <= i < |Split(p)| ==> GoodName(Split(p)[i])
  }

  function Blocks(size: nat): nat { (size + 4095) / 4096 }

  /** The extents of a file are in order, inside the file and inside the data region. */
  predicate GoodExtents(es: seq<Extent>, size: nat, start: nat, end: nat) {
    && (forall i :: 0 <= i < |es| ==> es[i].blocks > 0 && es[i].logical + es[i].blocks <= Blocks(size)
                                      && start <= es[i].physical && es[i].physical + es[i].blocks <= end)
    && (forall i: nat, j: nat :: j == i + 1 && j < |es| ==> es[i].logical + es[i].blocks <= es[j].logical)
  }

  predicate GoodEntry(e: Entry, start: nat, end: nat) {
    && (e.kind == 1 || e.kind == 2) && e.size <= MAX_FILE && GoodPath(e.path)
    && (e.kind == 1 ==> e.size == 0 && e.extents == [])
    && GoodExtents(e.extents, e.size, start, end)
  }

  /** Entry i has a new path, in the home directory or a directory before it. */
  predicate GoodPlace(entries: seq<Entry>, i: nat)
    requires i < |entries|
  {
    && entries[i].path != HOME && (forall j :: 0 <= j < i ==> entries[j].path != entries[i].path)
    && (Parent(entries[i].path) == HOME
        || exists j :: 0 <= j < i && entries[j].path == Parent(entries[i].path) && entries[j].kind == 1)
  }

  function RangesOf(es: seq<Extent>): (r: seq<Range>)
    ensures |r| == |es| && forall i :: 0 <= i < |es| ==> r[i] == Range(es[i].physical, es[i].physical + es[i].blocks)
  {
    if es == [] then []
    else RangesOf(es[..|es| - 1]) + [Range(es[|es| - 1].physical, es[|es| - 1].physical + es[|es| - 1].blocks)]
  }

  function AllRanges(entries: seq<Entry>): seq<Range> {
    if entries == [] then [] else AllRanges(entries[..|entries| - 1]) + RangesOf(entries[|entries| - 1].extents)
  }

  /** What validate() accepts: parents come before children, paths are unique, and no two extents share a
      block. */
  predicate ValidList(entries: seq<Entry>, start: nat, end: nat) {
    && |entries| <= MAX_ENTRIES
    && (forall i :: 0 <= i < |entries| ==> GoodEntry(entries[i], start, end) && GoodPlace(entries, i))
    && PairwiseApart(AllRanges(entries))
  }

  /** The paths seen so far with their kinds. */
  ghost predicate Seen(seen: map<seq<byte>, u32>, entries: seq<Entry>, i: nat) {
    && i <= |entries| && HOME in seen && seen[HOME] == 1
    && (forall j :: 0 <= j < i ==> entries[j].path in seen && seen[entries[j].path] == entries[j].kind && entries[j].path != HOME)
    && (forall p :: p in seen ==> p == HOME || exists j :: 0 <= j < i && entries[j].path == p)
  }

  /** The loop over the extents of a file; the ranges they use. */
  method CheckExtents(es: seq<Extent>, size: nat, start: nat, end: nat) returns (ok: bool, used: seq<Range>)
    ensures ok == GoodExtents(es, size, start, end)
    ensures ok ==> used == RangesOf(es)
  {
    hide GoodExtents;
    used := [];
    var previous := 0;
    NoExtents(size, start, end);
    for i := 0 to |es|
      invariant GoodExtents(es[..i], size, start, end) && used == RangesOf(es[..i])
      invariant previous == if i == 0 then 0 else es[i - 1].logical + es[i - 1].blocks
    {
      var e := es[i];
      assert es[..i + 1][..i] == es[..i];
      if e.blocks == 0 || e.logical < previous || e.logical + e.blocks > Blocks(size)
         || e.physical < start || e.physical + e.blocks > end {
        NotGood(es, i, previous, size, start, end);
        return false, used;
      }
      GoodMore(es, i, previous, size, start, end);
      previous := e.logical + e.blocks;
      used := used + [Range(e.physical, e.physical + e.blocks)];
    }
    assert es[..|es|] == es;
    ok := true;
  }

  lemma NoExtents(size: nat, start: nat, end: nat)
    ensures GoodExtents([], size, start, end)
  {
  }

  lemma GoodMore(es: seq<Extent>, i: nat, previous: nat, size: nat, start: nat, end: nat)
    requires i < |es| && previous == (if i == 0 then 0 else es[i - 1].logical + es[i - 1].blocks)
    requires GoodExtents(es[..i], size, start, end)
    requires es[i].blocks > 0 && es[i].logical >= previous && es[i].logical + es[i].blocks <= Blocks(size)
             && es[i].physical >= start && es[i].physical + es[i].blocks <= end
    ensures GoodExtents(es[..i + 1], size, start, end)
  {
    var s, t := es[..i], es[..i + 1];
    forall k: nat, j: nat | j == k + 1 && j < |t| ensures t[k].logical + t[k].blocks <= t[j].logical {
      if j < i { assert s[k] == t[k] && s[j] == t[j]; }
    }
  }

  lemma NotGood(es: seq<Extent>, i: nat, previous: nat, size: nat, start: nat, end: nat)
    requires i < |es| && previous == if i == 0 then 0 else es[i - 1].logical + es[i - 1].blocks
    requires es[i].blocks == 0 || es[i].logical < previous || es[i].logical + es[i].blocks > Blocks(size)
             || es[i].physical < start || es[i].physical + es[i].blocks > end
    ensures !GoodExtents(es, size, start, end)
  {
    if i > 0 { ghost var before := i - 1; assert i == before + 1; }
  }

  method CheckPath(p: seq<byte>) returns (ok: bool)
    ensures ok == GoodPath(p)
  {
    hide Split;
    if |p| >= 192 || |p| < 6 || p[..5] != HOME || p[5] != SLASH || 0 in p { return false; }
    var parts := Split(p);
    var i := 2;
    while i < |parts|
      invariant 2 <= i && forall k :: 2 <= k < i && k < |parts| ==> GoodName(parts[k])
    {
      if !GoodName(parts[i]) { return false; }
      i := i + 1;
    }
    ok := true;
  }

  /** validate() */
  method Validate(entries: seq<Entry>, start: nat, end: nat) returns (ok: bool)
    ensures ok <==> ValidList(entries, start, end)
  {
    hide GoodPath, GoodExtents, PairwiseApart, NeighboursApart, Sorted, AllNonempty, Seen, GoodPlace, Parent, RangesOf;
    if |entries| > MAX_ENTRIES { return false; }
    var seen: map<seq<byte>, u32> := map[HOME := 1];
    var used := [];
    EmptyNonempty();
    NothingSeen(entries);
    for i := 0 to |entries|
      invariant Seen(seen, entries, i) && used == AllRanges(entries[..i]) && AllNonempty(used)
      invariant forall k :: 0 <= k < i ==> GoodEntry(entries[k], start, end) && GoodPlace(entries, k)
    {
      var e := entries[i];
      assert entries[..i + 1][..i] == entries[..i];
      var path := CheckPath(e.path);
      if e.path in seen { Duplicate(seen, entries, i); }
      if (e.kind != 1 && e.kind != 2) || e.size > MAX_FILE || !path || e.path in seen
         || (e.kind == 1 && (e.size > 0 || e.extents != [])) {
        return false;
      }
      if Parent(e.path) !in seen || seen[Parent(e.path)] != 1 { NoParent(seen, entries, i); return false; }
      var good, more := CheckExtents(e.extents, e.size, start, end);
      if !good { return false; }
      SeenMore(seen, entries, i);
      NonemptyMore(used, e.extents, e.size, start, end);
      seen := seen[e.path := e.kind];
      used := used + more;
    }
    assert entries[..|entries|] == entries;
    CheckIsApart(used);
    ok := NeighboursApart(Sorted(used));
  }

  lemma EmptyNonempty()
    ensures AllNonempty([])
  {
  }

  lemma NonemptyMore(used: seq<Range>, es: seq<Extent>, size: nat, start: nat, end: nat)
    requires AllNonempty(used) && GoodExtents(es, size, start, end)
    ensures AllNonempty(used + RangesOf(es))
  {
    forall x | x in RangesOf(es) ensures x.lo < x.hi {
      var i :| 0 <= i < |es| && RangesOf(es)[i] == x;
    }
  }

  lemma NothingSeen(entries: seq<Entry>)
    ensures Seen(map[HOME := 1], entries, 0)
  {
  }

  lemma Duplicate(seen: map<seq<byte>, u32>, entries: seq<Entry>, i: nat)
    requires Seen(seen, entries, i) && i < |entries| && entries[i].path in seen
    ensures !GoodPlace(entries, i)
  {
    hide Parent;
  }

  lemma NoParent(seen: map<seq<byte>, u32>, entries: seq<Entry>, i: nat)
    requires Seen(seen, entries, i) && i < |entries|
    requires Parent(entries[i].path) !in seen || seen[Parent(entries[i].path)] != 1
    ensures !GoodPlace(entries, i)
  {
    hide Parent;
  }

  lemma SeenMore(seen: map<seq<byte>, u32>, entries: seq<Entry>, i: nat)
    requires Seen(seen, entries, i) && i < |entries| && entries[i].path !in seen
    requires Parent(entries[i].path) in seen && seen[Parent(entries[i].path)] == 1
    ensures Seen(seen[entries[i].path := entries[i].kind], entries, i + 1) && GoodPlace(entries, i)
  {
    hide Parent;
    var p := Parent(entries[i].path);
    if p != HOME { var j :| 0 <= j < i && entries[j].path == p; }
  }

  /** decode() as a whole: what is accepted is valid and encodes back to the payload. */
  method Decode(payload: seq<byte>, start: nat, end: nat) returns (r: Option<seq<Entry>>)
    ensures r.Some? <==> DecodePayload(payload).Some? && ValidList(DecodePayload(payload).value, start, end)
    ensures r.Some? ==> r == DecodePayload(payload)
    ensures r.Some? ==>
              && |r.value| <= MAX_ENTRIES && AllPackable(r.value) && Encode(r.value) == payload
              && ValidList(r.value, start, end)
  {
    hide ValidList, Encode, DecodePayload;
    r := DecodeAll(payload);
    if r.Some? {
      EncodeDecode(payload);
      var ok := Validate(r.value, start, end);
      if !ok { r := None; }
    }
  }

  /** Every valid list with few enough extents survives encoding and decoding. */
  lemma ValidRoundTrip(entries: seq<Entry>, start: nat, end: nat)
    requires ValidList(entries, start, end) && forall i :: 0 <= i < |entries| ==> |entries[i].extents| < 0x1_0000_0000
    ensures AllPackable(entries) && DecodePayload(Encode(entries)) == Some(entries)
  {
    hide Encode, DecodePayload, GoodExtents, GoodPlace, PairwiseApart;
    forall i | 0 <= i < |entries| ensures Packable(entries[i]) { assert GoodEntry(entries[i], start, end); }
    DecodeEncode(entries);
  }
}
