/** First fit in scripts/extent_store.py: which blocks a file gets, and when there is room for it. */
module ExtentPlan {
  import opened Wrappers
  import opened Snapshot
  import opened ExtentCodec
  import opened ExtentRanges
  import opened ExtentValidate

  /** The byte ranges of a file that the host reports as data: in order, and all else is zero. */
  ghost predicate Sparse(source: seq<byte>, data: seq<Range>) {
    && (forall i :: 0 <= i < |data| ==> data[i].lo < data[i].hi <= |source|)
    && (forall i: nat, j: nat :: i < j < |data| ==> data[i].hi <= data[j].lo)
    && (forall k: nat :: k < |source| && !CoveredBy(data, k) ==> source[k] == 0)
  }

  /** Adding a run, merged with the last extent if it continues it. */
  function Extended(es: seq<Extent>, logical: u64, physical: u64, blocks: u64): seq<Extent>
    requires es != [] ==> es[|es| - 1].blocks + blocks < 0x1_0000_0000_0000_0000
  {
    var n := |es| - 1;
    if es != [] && es[n].logical + es[n].blocks == logical && es[n].physical + es[n].blocks == physical
    then es[..n] + [Extent(es[n].logical, es[n].physical, es[n].blocks + blocks)]
    else es + [Extent(logical, physical, blocks)]
  }

  ghost predicate InOrder(free: seq<Range>) {
    (forall i :: 0 <= i < |free| ==> free[i].lo <= free[i].hi)
    && forall i: nat, j: nat :: i < j < |free| ==> free[i].hi <= free[j].lo
  }

  /** The blocks from lo up to hi. */
  function FromTo(lo: nat, hi: nat): (r: set<nat>)
    ensures forall p: nat :: p in r <==> lo <= p < hi
    decreases hi
  {
    if hi <= lo then {} else FromTo(lo, hi - 1) + {hi - 1}
  }

  lemma CoveredFirst(rs: seq<Range>, p: nat)
    requires rs != []
    ensures CoveredBy(rs, p) <==> Covers(rs[0], p) || CoveredBy(rs[1..], p)
  {
    if CoveredBy(rs[1..], p) {
      var i :| 0 <= i < |rs[1..]| && Covers(rs[1..][i], p);
      assert Covers(rs[i + 1], p);
    }
    if CoveredBy(rs, p) && !Covers(rs[0], p) {
      var i :| 0 <= i < |rs| && Covers(rs[i], p);
      assert Covers(rs[1..][i - 1], p);
    }
  }

  lemma NothingFree()
    ensures forall p: nat :: !CoveredBy([], p)
  {
  }

  /** Later ranges do not reach back into the first. */
  lemma Shortened(rs: seq<Range>, lo: nat, p: nat)
    requires InOrder(rs) && rs != [] && rs[0].lo <= lo <= rs[0].hi
    ensures rs[0].lo <= p < lo ==> !CoveredBy(rs[1..], p)
  {
    if CoveredBy(rs[1..], p) {
      var i :| 0 <= i < |rs[1..]| && Covers(rs[1..][i], p);
      assert rs[0].hi <= rs[i + 1].lo;
    }
  }

  lemma {:induction false} RunSize(lo: nat, hi: nat)
    requires lo <= hi
    ensures |FromTo(lo, hi)| == hi - lo
    decreases hi
  {
    if lo < hi { RunSize(lo, hi - 1); }
  }

  /** Where the last range read so far ends, in blocks. */
  function EndBefore(data: seq<Range>, i: nat): nat
    requires i <= |data|
  {
    if i == 0 then 0 else Blocks(data[i - 1].hi)
  }

  lemma SparseRange(source: seq<byte>, data: seq<Range>, i: nat)
    requires Sparse(source, data) && i < |data|
    ensures data[i].lo < data[i].hi <= |source| && EndBefore(data, i) <= Blocks(data[i].hi)
  {
    if i > 0 { assert data[i - 1].hi <= data[i].lo; }
  }

  /** The blocks that the first i data ranges touch. */
  function NeededBy(data: seq<Range>, i: nat): nat
    requires i <= |data|
  {
    if i == 0 then 0
    else
      var last, first := EndBefore(data, i - 1), data[i - 1].lo / 4096;
      var from := if last > first then last else first;
      NeededBy(data, i - 1) + if from < Blocks(data[i - 1].hi) then Blocks(data[i - 1].hi) - from else 0
  }

  function Needed(data: seq<Range>): nat { NeededBy(data, |data|) }

  lemma NeededNext(source: seq<byte>, data: seq<Range>, i: nat)
    requires i < |data| && Sparse(source, data)
    ensures
      var last, first := EndBefore(data, i), data[i].lo / 4096;
      var from := if last > first then last else first;
      NeededBy(data, i + 1) == NeededBy(data, i) + Blocks(data[i].hi) - from && NeededBy(data, i + 1) <= Needed(data)
  {
    hide Sparse;
    SparseRange(source, data, i);
    NeededGrows(data, i + 1, |data|);
  }

  lemma {:induction false} NeededGrows(data: seq<Range>, i: nat, j: nat)
    requires i <= j <= |data|
    ensures NeededBy(data, i) <= NeededBy(data, j)
    decreases j
  {
    if i < j { NeededGrows(data, i, j - 1); }
  }

  // ----- Where the blocks go -----

  /** Leading empty ranges are dropped. */
  function Skip(free: seq<Range>): seq<Range> {
    if free != [] && free[0].lo == free[0].hi then Skip(free[1..]) else free
  }

  /** A run taken from the free ranges, and what is left. */
  datatype Taking = Taking(physical: nat, blocks: nat, rest: seq<Range>)

  /** The start of the first free range, at most want blocks. */
  function FirstRun(free: seq<Range>, want: nat): (r: Option<Taking>)
    ensures r.Some? && want > 0 ==> 0 < r.value.blocks <= want
  {
    var f := Skip(free);
    if f == [] || f[0].hi <= f[0].lo then None
    else
      var n := Min(want, f[0].hi - f[0].lo);
      Some(Taking(f[0].lo, n, [Range(f[0].lo + n, f[0].hi)] + f[1..]))
  }

  /** Extended(), where the sizes are those of a file; beyond the format nothing is added. */
  function Grown(es: seq<Extent>, logical: nat, physical: nat, blocks: nat): seq<Extent> {
    var top := 0x1_0000_0000_0000_0000;
    if logical < top && physical < top && blocks < top && (es != [] ==> es[|es| - 1].blocks + blocks < top)
    then Extended(es, logical, physical, blocks) else es
  }

  datatype Planned = Planned(free: seq<Range>, extents: seq<Extent>)

  /** The extents of the blocks from logical up to stop, added to those before. */
  function PlanRange(free: seq<Range>, logical: nat, stop: nat, es: seq<Extent>): Option<Planned>
    decreases if logical < stop then stop - logical else 0
  {
    if logical >= stop then Some(Planned(free, es))
    else
      match FirstRun(free, stop - logical)
      case None => None
      case Some(run) => PlanRange(run.rest, logical + run.blocks, stop, Grown(es, logical, run.physical, run.blocks))
  }

  /** The first block of a data range that the ranges before it do not touch. */
  function FirstBlock(data: seq<Range>, i: nat): nat
    requires i < |data|
  {
    var last, first := EndBefore(data, i), data[i].lo / 4096;
    if last > first then last else first
  }

  function PlanTo(free: seq<Range>, data: seq<Range>, i: nat): Option<Planned>
    requires i <= |data|
  {
    if i == 0 then Some(Planned(free, []))
    else
      match PlanTo(free, data, i - 1)
      case None => None
      case Some(p) => PlanRange(p.free, FirstBlock(data, i - 1), Blocks(data[i - 1].hi), p.extents)
  }

  /** The extents of a file, first fit from the free ranges; none if there are too few blocks. */
  function PlanSource(free: seq<Range>, data: seq<Range>): Option<Planned> { PlanTo(free, data, |data|) }

  lemma PlanStart(free: seq<Range>, data: seq<Range>)
    ensures PlanTo(free, data, 0) == Some(Planned(free, []))
  {
  }

  lemma PlanNext(free: seq<Range>, data: seq<Range>, i: nat)
    requires i < |data| && PlanTo(free, data, i).Some?
    ensures
      var p := PlanTo(free, data, i).value;
      PlanTo(free, data, i + 1) == PlanRange(p.free, FirstBlock(data, i), Blocks(data[i].hi), p.extents)
  {
  }

  lemma PlanTurn(free: seq<Range>, logical: nat, stop: nat, es: seq<Extent>)
    requires logical < stop
    ensures
      PlanRange(free, logical, stop, es) ==
      match FirstRun(free, stop - logical)
      case None => None
      case Some(run) => PlanRange(run.rest, logical + run.blocks, stop, Grown(es, logical, run.physical, run.blocks))
  {
    hide FirstRun;
  }

  lemma PlanDone(free: seq<Range>, logical: nat, stop: nat, es: seq<Extent>)
    requires logical >= stop
    ensures PlanRange(free, logical, stop, es) == Some(Planned(free, es))
  {
  }

  lemma {:induction false} PlanStops(free: seq<Range>, data: seq<Range>, i: nat)
    requires i <= |data| && PlanTo(free, data, i) == None
    ensures PlanSource(free, data) == None
    decreases |data| - i
  {
    if i < |data| { PlanStops(free, data, i + 1); }
  }

  // ----- Room -----

  /** The blocks of some ranges. */
  function Room(free: seq<Range>): nat {
    if free == [] then 0 else Room(free[1..]) + if free[0].lo < free[0].hi then free[0].hi - free[0].lo else 0
  }

  ghost predicate Ordered(free: seq<Range>) { forall i :: 0 <= i < |free| ==> free[i].lo <= free[i].hi }

  lemma {:induction false} SkipRoom(free: seq<Range>)
    requires Ordered(free)
    ensures Ordered(Skip(free)) && Room(Skip(free)) == Room(free)
    ensures Skip(free) != [] ==> Skip(free)[0].lo < Skip(free)[0].hi
  {
    if free != [] && free[0].lo == free[0].hi { SkipRoom(free[1..]); }
  }

  /** A run is there exactly when there is room, and takes its own blocks of it. */
  lemma RunRoom(free: seq<Range>, want: nat)
    requires Ordered(free) && want > 0
    ensures FirstRun(free, want) == None <==> Room(free) == 0
    ensures
      FirstRun(free, want).Some? ==>
        var t := FirstRun(free, want).value;
        0 < t.blocks <= want && Ordered(t.rest) && Room(t.rest) + t.blocks == Room(free)
  {
    SkipRoom(free);
    var f := Skip(free);
    if f != [] {
      var t := FirstRun(free, want).value;
      assert t.rest[1..] == f[1..];
    }
  }

  lemma {:induction false} RangeRoom(free: seq<Range>, logical: nat, stop: nat, es: seq<Extent>)
    requires Ordered(free)
    ensures
      var need := if logical < stop then stop - logical else 0;
      && (PlanRange(free, logical, stop, es).Some? <==> need <= Room(free))
      && (PlanRange(free, logical, stop, es).Some? ==>
            var p := PlanRange(free, logical, stop, es).value;
            Ordered(p.free) && Room(p.free) + need == Room(free))
    decreases if logical < stop then stop - logical else 0
  {
    hide FirstRun, Room, Grown, Ordered;
    if logical < stop {
      RunRoom(free, stop - logical);
      var run := FirstRun(free, stop - logical);
      if run.Some? {
        RangeRoom(run.value.rest, logical + run.value.blocks, stop,
          Grown(es, logical, run.value.physical, run.value.blocks));
      }
    }
  }

  /** A file fits exactly when there are as many blocks as its data touches. */
  lemma {:induction false} SourceRoom(free: seq<Range>, source: seq<byte>, data: seq<Range>, i: nat)
    requires Ordered(free) && Sparse(source, data) && i <= |data|
    ensures PlanTo(free, data, i).Some? <==> NeededBy(data, i) <= Room(free)
    ensures
      PlanTo(free, data, i).Some? ==>
        var p := PlanTo(free, data, i).value;
        Ordered(p.free) && Room(p.free) + NeededBy(data, i) == Room(free)
  {
    hide Room, Ordered, Sparse, PlanRange;
    if i > 0 {
      SourceRoom(free, source, data, i - 1);
      NeededNext(source, data, i - 1);
      NeededGrows(data, i - 1, i);
      var p := PlanTo(free, data, i - 1);
      if p.Some? { RangeRoom(p.value.free, FirstBlock(data, i - 1), Blocks(data[i - 1].hi), p.value.extents); }
    }
  }

  lemma SourceFits(free: seq<Range>, source: seq<byte>, data: seq<Range>)
    requires Ordered(free) && Sparse(source, data)
    ensures PlanSource(free, data).Some? <==> Needed(data) <= Room(free)
  {
    hide Room, Ordered, Sparse, PlanTo, NeededBy;
    SourceRoom(free, source, data, |data|);
  }

  /** Ranges in order have as many blocks as they cover. */
  lemma {:induction false} RoomCovered(free: seq<Range>, blocks: set<nat>)
    requires InOrder(free) && forall p: nat :: p in blocks <==> CoveredBy(free, p)
    ensures |blocks| == Room(free)
  {
    hide CoveredBy;
    if free == [] {
      NothingFree();
      assert blocks == {};
    } else {
      var first := FromTo(free[0].lo, free[0].hi);
      forall p: nat ensures p in blocks <==> p in first || CoveredBy(free[1..], p) { CoveredFirst(free, p); }
      forall p: nat | p in first ensures !CoveredBy(free[1..], p) { Shortened(free, free[0].hi, p); }
      RoomCovered(free[1..], blocks - first);
      RunSize(free[0].lo, free[0].hi);
      assert blocks == first + (blocks - first);
    }
  }
}
