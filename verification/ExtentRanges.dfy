/** Block ranges in scripts/extent_store.py: validate() and free_ranges(). */
module ExtentRanges {
  /** The blocks from lo up to hi. */
  datatype Range = Range(lo: nat, hi: nat)

  predicate Covers(r: Range, b: nat) { r.lo <= b < r.hi }

  ghost predicate CoveredBy(rs: seq<Range>, b: nat) { exists i :: 0 <= i < |rs| && Covers(rs[i], b) }

  predicate Apart(r: Range, s: Range) { r.hi <= s.lo || s.hi <= r.lo }

  predicate PairwiseApart(rs: seq<Range>) {
    forall i, j :: 0 <= i < j < |rs| ==> Apart(rs[i], rs[j])
  }

  // ----- Sorting -----

  /** sort() by where ranges begin. */
  function Insert(rs: seq<Range>, r: Range): seq<Range> {
    if rs == [] || rs[|rs| - 1].lo <= r.lo then rs + [r] else Insert(rs[..|rs| - 1], r) + [rs[|rs| - 1]]
  }

  function Sorted(rs: seq<Range>): seq<Range> {
    if rs == [] then [] else Insert(Sorted(rs[..|rs| - 1]), rs[|rs| - 1])
  }

  ghost predicate Ascending(rs: seq<Range>) {
    forall i, j :: 0 <= i < j < |rs| ==> rs[i].lo <= rs[j].lo
  }

  lemma AscendingAppend(rs: seq<Range>, r: Range)
    ensures Ascending(rs + [r]) <==> Ascending(rs) && forall x :: x in rs ==> x.lo <= r.lo
  {
    var t := rs + [r];
    if Ascending(t) {
      forall x | x in rs ensures x.lo <= r.lo {
        var i :| 0 <= i < |rs| && rs[i] == x;
        assert t[i].lo <= t[|rs|].lo;
      }
      forall i, j | 0 <= i < j < |rs| ensures rs[i].lo <= rs[j].lo { assert t[i].lo <= t[j].lo; }
    }
  }

  lemma {:induction false} InsertIs(rs: seq<Range>, r: Range)
    requires Ascending(rs)
    ensures Ascending(Insert(rs, r))
    ensures forall x :: x in Insert(rs, r) <==> x in rs || x == r
    decreases |rs|
  {
    hide Ascending;
    AscendingAppend(rs, r);
    if rs != [] {
      var n := |rs| - 1;
      assert rs == rs[..n] + [rs[n]];
      AscendingAppend(rs[..n], rs[n]);
      if rs[n].lo > r.lo {
        InsertIs(rs[..n], r);
        AscendingAppend(Insert(rs[..n], r), rs[n]);
      }
    } else {
      EmptyAscending();
    }
  }

  lemma EmptyAscending()
    ensures Ascending([])
  {
  }

  lemma {:induction false} SortedIs(rs: seq<Range>)
    ensures Ascending(Sorted(rs))
    ensures forall x :: x in Sorted(rs) <==> x in rs
    decreases |rs|
  {
    hide Ascending, Insert;
    if rs != [] {
      var n := |rs| - 1;
      assert rs == rs[..n] + [rs[n]];
      SortedIs(rs[..n]);
      InsertIs(Sorted(rs[..n]), rs[n]);
    } else {
      EmptyAscending();
    }
  }

  /** The check on neighbours after sorting. */
  predicate NeighboursApart(rs: seq<Range>) {
    forall i: nat, j: nat :: j == i + 1 && j < |rs| ==> rs[i].hi <= rs[j].lo
  }

  ghost predicate AllNonempty(rs: seq<Range>) { forall x :: x in rs ==> x.lo < x.hi }

  /** On ascending non-empty ranges, looking at neighbours is enough. */
  lemma {:induction false} NeighboursChain(rs: seq<Range>, i: nat, j: nat)
    requires AllNonempty(rs) && NeighboursApart(rs) && i < j < |rs|
    ensures rs[i].hi <= rs[j].lo
    decreases j
  {
    var k := j - 1;
    assert rs[k].hi <= rs[j].lo;
    if i < k {
      NeighboursChain(rs, i, k);
      assert rs[k] in rs;
    }
  }

  lemma NeighboursSuffice(rs: seq<Range>)
    requires AllNonempty(rs) && Ascending(rs)
    ensures NeighboursApart(rs) <==> PairwiseApart(rs)
  {
    if NeighboursApart(rs) {
      forall i, j | 0 <= i < j < |rs| ensures Apart(rs[i], rs[j]) { NeighboursChain(rs, i, j); }
    }
    if PairwiseApart(rs) {
      forall i: nat, j: nat | j == i + 1 && j < |rs| ensures rs[i].hi <= rs[j].lo {
        assert Apart(rs[i], rs[j]) && rs[i] in rs && rs[j] in rs;
      }
    }
  }

  ghost predicate AllApart(rs: seq<Range>, r: Range) { forall x :: x in rs ==> Apart(x, r) }

  lemma ApartAppend(rs: seq<Range>, r: Range)
    ensures PairwiseApart(rs + [r]) <==> PairwiseApart(rs) && AllApart(rs, r)
  {
    var t := rs + [r];
    if PairwiseApart(t) {
      forall x | x in rs ensures Apart(x, r) {
        var i :| 0 <= i < |rs| && rs[i] == x;
        assert Apart(t[i], t[|rs|]);
      }
      forall i, j | 0 <= i < j < |rs| ensures Apart(rs[i], rs[j]) { assert Apart(t[i], t[j]); }
    }
  }

  lemma AllApartMembers(us: seq<Range>, rs: seq<Range>, r: Range, x: Range)
    requires forall y :: y in us <==> y in rs || y == r
    ensures AllApart(us, x) <==> AllApart(rs, x) && Apart(r, x)
  {
  }

  /** Being pairwise apart does not depend on the order. */
  lemma {:induction false} InsertApart(rs: seq<Range>, r: Range)
    requires Ascending(rs)
    ensures PairwiseApart(Insert(rs, r)) <==> PairwiseApart(rs) && AllApart(rs, r)
    decreases |rs|
  {
    hide PairwiseApart, AllApart, Ascending;
    ApartAppend(rs, r);
    if rs != [] {
      var n := |rs| - 1;
      assert rs == rs[..n] + [rs[n]];
      AscendingAppend(rs[..n], rs[n]);
      if rs[n].lo > r.lo {
        var u := Insert(rs[..n], r);
        InsertApart(rs[..n], r);
        InsertIs(rs[..n], r);
        ApartAppend(u, rs[n]);
        ApartAppend(rs[..n], rs[n]);
        AllApartMembers(u, rs[..n], r, rs[n]);
        AllApartMembers(rs, rs[..n], rs[n], r);
      }
    }
  }

  lemma {:induction false} SortedApart(rs: seq<Range>)
    ensures PairwiseApart(Sorted(rs)) <==> PairwiseApart(rs)
    decreases |rs|
  {
    hide PairwiseApart, AllApart, Ascending, Insert;
    if rs != [] {
      var n := |rs| - 1;
      SortedApart(rs[..n]);
      SortedIs(rs[..n]);
      InsertApart(Sorted(rs[..n]), rs[n]);
      assert rs == rs[..n] + [rs[n]];
      ApartAppend(rs[..n], rs[n]);
      AllApartMembers2(Sorted(rs[..n]), rs[..n], rs[n]);
    }
  }

  lemma AllApartMembers2(us: seq<Range>, rs: seq<Range>, x: Range)
    requires forall y :: y in us <==> y in rs
    ensures AllApart(us, x) <==> AllApart(rs, x)
  {
  }

  /** Sorting and comparing neighbours finds exactly the overlaps. */
  lemma CheckIsApart(rs: seq<Range>)
    requires AllNonempty(rs)
    ensures NeighboursApart(Sorted(rs)) <==> PairwiseApart(rs)
  {
    SortedIs(rs);
    SortedApart(rs);
    NeighboursSuffice(Sorted(rs));
  }

  // ----- Free ranges -----

  /** The gaps before at between the first i ranges. */
  ghost predicate Gaps(result: seq<Range>, sorted: seq<Range>, i: nat, at: nat, start: nat) {
    && i <= |sorted| && start <= at && AllNonempty(result)
    && (forall x :: x in result ==> x.hi <= at)
    && (forall k: nat, j: nat :: k < j < |result| ==> result[k].hi <= result[j].lo)
    && (forall j :: 0 <= j < i ==> sorted[j].hi <= at)
    && (forall b: nat {:trigger CoveredBy(result, b)} :: CoveredBy(result, b) <==> start <= b < at && !CoveredBy(sorted[..i], b))
    && (forall b: nat {:trigger CoveredBy(result, b)} :: CoveredBy(result, b) ==> forall j :: i <= j < |sorted| ==> !Covers(sorted[j], b))
  }

  /** The gaps from at on between ascending ranges. */
  function FreeFrom(sorted: seq<Range>, at: nat, end: nat): seq<Range> {
    if sorted == [] then if at < end then [Range(at, end)] else []
    else
      var r := sorted[0];
      (if r.lo > at then [Range(at, r.lo)] else []) + FreeFrom(sorted[1..], if r.hi > at then r.hi else at, end)
  }

  /** The gaps, one after the other. */
  lemma GapLoop(used: seq<Range>, start: nat, end: nat) returns (result: seq<Range>, at: nat)
    requires start <= end && forall x :: x in used ==> start <= x.lo <= x.hi <= end
    ensures start <= at <= end && Gaps(result, Sorted(used), |Sorted(used)|, at, start)
    ensures FreeFrom(Sorted(used), start, end) == if at < end then result + [Range(at, end)] else result
  {
    hide Sorted, Gaps, Ascending, FreeFrom;
    var sorted := Sorted(used);
    SortedIs(used);
    result, at := [], start;
    NoGaps(sorted, start);
    assert sorted[0..] == sorted;
    for i := 0 to |sorted|
      invariant start <= at <= end && Gaps(result, sorted, i, at, start)
      invariant result + FreeFrom(sorted[i..], at, end) == FreeFrom(sorted, start, end)
    {
      assert sorted[i] in used;
      FreeNext(sorted, i, at, end);
      NextGap(result, sorted, i, at, start);
      if sorted[i].lo > at { result := result + [Range(at, sorted[i].lo)]; }
      at := if sorted[i].hi > at then sorted[i].hi else at;
    }
    assert sorted[|sorted|..] == [];
    FreeEnd(at, end);
  }

  /** The gaps cover what the used ranges leave, in order. */
  lemma FreeIs(used: seq<Range>, start: nat, end: nat)
    requires start <= end && forall x :: x in used ==> start <= x.lo <= x.hi <= end
    ensures
      var free := FreeFrom(Sorted(used), start, end);
      && (forall b: nat :: CoveredBy(free, b) <==> start <= b < end && !CoveredBy(used, b))
      && AllNonempty(free) && forall i: nat, j: nat :: i < j < |free| ==> free[i].hi <= free[j].lo
  {
    hide Sorted, Gaps, Ascending, FreeFrom, CoveredBy, AllNonempty;
    var result, at := GapLoop(used, start, end);
    SortedIs(used);
    LastGap(result, Sorted(used), at, start, end);
    var free := FreeFrom(Sorted(used), start, end);
    forall b: nat
      ensures CoveredBy(free, b) <==> start <= b < end && !CoveredBy(used, b) { SameCover(Sorted(used), used, b); }
  }

  /** free_ranges(): the gaps between the used ranges. */
  method FreeRanges(used: seq<Range>, start: nat, end: nat) returns (result: seq<Range>)
    requires start <= end && forall x :: x in used ==> start <= x.lo <= x.hi <= end
    ensures result == FreeFrom(Sorted(used), start, end)
    ensures forall b: nat :: CoveredBy(result, b) <==> start <= b < end && !CoveredBy(used, b)
    ensures AllNonempty(result) && forall i: nat, j: nat :: i < j < |result| ==> result[i].hi <= result[j].lo
  {
    hide Sorted, FreeFrom, CoveredBy, AllNonempty;
    var sorted := Sorted(used);
    SortedIs(used);
    result := [];
    var at := start;
    assert sorted[0..] == sorted;
    for i := 0 to |sorted|
      invariant start <= at <= end && result + FreeFrom(sorted[i..], at, end) == FreeFrom(sorted, start, end)
    {
      assert sorted[i] in used;
      FreeNext(sorted, i, at, end);
      if sorted[i].lo > at { result := result + [Range(at, sorted[i].lo)]; }
      at := if sorted[i].hi > at then sorted[i].hi else at;
    }
    assert sorted[|sorted|..] == [];
    FreeEnd(at, end);
    if at < end { result := result + [Range(at, end)]; }
    FreeIs(used, start, end);
  }

  lemma FreeNext(sorted: seq<Range>, i: nat, at: nat, end: nat)
    requires i < |sorted|
    ensures
      FreeFrom(sorted[i..], at, end) ==
      (if sorted[i].lo > at then [Range(at, sorted[i].lo)] else [])
      + FreeFrom(sorted[i + 1..], if sorted[i].hi > at then sorted[i].hi else at, end)
  {
    assert sorted[i..][1..] == sorted[i + 1..];
  }

  lemma FreeEnd(at: nat, end: nat)
    ensures FreeFrom([], at, end) == if at < end then [Range(at, end)] else []
  {
  }

  lemma NoGaps(sorted: seq<Range>, start: nat)
    ensures Gaps([], sorted, 0, start, start)
  {
  }

  lemma NextGap(result: seq<Range>, sorted: seq<Range>, i: nat, at: nat, start: nat)
    requires Gaps(result, sorted, i, at, start) && i < |sorted| && Ascending(sorted) && sorted[i].lo <= sorted[i].hi
    ensures
      var r := sorted[i];
      Gaps(if r.lo > at then result + [Range(at, r.lo)] else result, sorted, i + 1, if r.hi > at then r.hi else at, start)
  {
    hide CoveredBy;
    var r, next := sorted[i], i + 1;
    var result' := if r.lo > at then result + [Range(at, r.lo)] else result;
    var at' := if r.hi > at then r.hi else at;
    assert sorted[..next] == sorted[..i] + [r];
    forall b: nat
      ensures CoveredBy(result', b) <==> start <= b < at' && !CoveredBy(sorted[..next], b)
      ensures CoveredBy(result', b) ==> forall j :: next <= j < |sorted| ==> !Covers(sorted[j], b)
    {
      CoveredMore(sorted[..i], r, b);
      CoveredMore(result, Range(at, r.lo), b);
      GapIsFree(sorted, i, at, b);
    }
  }

  lemma LastGap(result: seq<Range>, sorted: seq<Range>, at: nat, start: nat, end: nat)
    requires Gaps(result, sorted, |sorted|, at, start) && at <= end
    ensures
      var result' := if at < end then result + [Range(at, end)] else result;
      && (forall b: nat {:trigger CoveredBy(result', b)} :: CoveredBy(result', b) <==> start <= b < end && !CoveredBy(sorted, b))
      && AllNonempty(result') && forall i: nat, j: nat :: i < j < |result'| ==> result'[i].hi <= result'[j].lo
  {
    hide CoveredBy;
    var result' := if at < end then result + [Range(at, end)] else result;
    assert sorted[..|sorted|] == sorted;
    forall b: nat ensures CoveredBy(result', b) <==> start <= b < end && !CoveredBy(sorted, b) {
      CoveredMore(result, Range(at, end), b);
      BeyondAll(sorted, at, b);
    }
  }

  lemma BeyondAll(sorted: seq<Range>, at: nat, b: nat)
    requires forall j :: 0 <= j < |sorted| ==> sorted[j].hi <= at
    ensures b >= at ==> !CoveredBy(sorted, b)
  {
  }

  lemma CoveredMore(rs: seq<Range>, r: Range, b: nat)
    ensures CoveredBy(rs + [r], b) <==> CoveredBy(rs, b) || Covers(r, b)
  {
    var t := rs + [r];
    if CoveredBy(rs, b) {
      var i :| 0 <= i < |rs| && Covers(rs[i], b);
      assert Covers(t[i], b);
    }
    if Covers(r, b) { assert Covers(t[|rs|], b); }
  }

  /** Before the next range begins nothing later is used. */
  lemma GapIsFree(sorted: seq<Range>, i: nat, at: nat, b: nat)
    requires i < |sorted| && Ascending(sorted)
    ensures b < sorted[i].lo ==> forall j :: i <= j < |sorted| ==> !Covers(sorted[j], b)
    ensures (forall j :: 0 <= j < i ==> sorted[j].hi <= at) && b >= at ==> !CoveredBy(sorted[..i], b)
  {
  }

  lemma SameCover(rs: seq<Range>, ss: seq<Range>, b: nat)
    requires forall x :: x in rs <==> x in ss
    ensures CoveredBy(rs, b) == CoveredBy(ss, b)
  {
    if CoveredBy(rs, b) {
      var i :| 0 <= i < |rs| && Covers(rs[i], b);
      assert rs[i] in ss;
    }
    if CoveredBy(ss, b) {
      var i :| 0 <= i < |ss| && Covers(ss[i], b);
      assert ss[i] in rs;
    }
  }
}
