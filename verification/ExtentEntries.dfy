/** The entry list that import_extents() of scripts/extent_store.py commits. */
module ExtentEntries {
  import opened Wrappers
  import opened Snapshot
  import opened ExtentCodec
  import opened ExtentRanges
  import opened ExtentValidate
  import opened ExtentImport

  // ----- Names -----

  /** b'/home/' + name */
  function Key(name: seq<byte>): seq<byte> { HOME + [SLASH] + name }

  /** What a file name of the host is in any case. */
  predicate HostName(name: seq<byte>) { SLASH !in name && 0 !in name }

  /** Bytes without a slash lengthen the last component. */
  lemma {:induction false} SplitName(p: seq<byte>, name: seq<byte>)
    requires SLASH !in name
    ensures Split(p + name) == Split(p)[..|Split(p)| - 1] + [Split(p)[|Split(p)| - 1] + name]
    decreases |name|
  {
    var n := |name| - 1;
    if name == [] {
      assert p + name == p && Split(p)[|Split(p)| - 1] + name == Split(p)[|Split(p)| - 1];
    } else {
      var q := p + name[..n];
      assert p + name == q + [name[n]] && (p + name)[..|p + name| - 1] == q;
      SplitName(p, name[..n]);
      assert Split(p)[|Split(p)| - 1] + name == Split(p)[|Split(p)| - 1] + name[..n] + [name[n]];
    }
  }

  lemma SplitSlash(p: seq<byte>)
    ensures Split(p + [SLASH]) == Split(p) + [[]]
  {
    assert (p + [SLASH])[..|p|] == p;
  }

  lemma {:induction false} ParentName(p: seq<byte>, name: seq<byte>)
    requires SLASH !in name
    ensures Parent(p + [SLASH] + name) == p
    decreases |name|
  {
    var q, n := p + [SLASH] + name, |name| - 1;
    if name == [] {
      assert q[..|q| - 1] == p;
    } else {
      assert q[..|q| - 1] == p + [SLASH] + name[..n] && q[|q| - 1] == name[n];
      ParentName(p, name[..n]);
    }
  }

  /** The path of an imported file is good, and its directory is the home directory. */
  lemma KeyIsGood(name: seq<byte>)
    requires GoodName(name) && HostName(name)
    ensures GoodPath(Key(name)) && Parent(Key(name)) == HOME && Key(name) != HOME
  {
    hide Split, Parent;
    var home: seq<byte>, empty: seq<byte> := HOME[1..], [];
    assert empty + home == home && empty + name == name;
    assert HOME == [] + [SLASH] + home && Key(name) == HOME + [SLASH] + name;
    ParentName(HOME, name);
    SplitSlash([]);
    SplitName([] + [SLASH], home);
    SplitSlash(HOME);
    SplitName(HOME + [SLASH], name);
    SplitEmpty();
    assert Split([] + [SLASH]) == [[], []];
    assert Split(HOME) == [[], home];
    assert Split(HOME + [SLASH]) == [[], home, []];
    assert Split(Key(name)) == [[], home, name];
  }

  lemma SplitEmpty()
    ensures Split([]) == [[]]
  {
  }

  // ----- The new list -----

  /** names.get(path): the place of a path. */
  function Find(entries: seq<Entry>, path: seq<byte>): (r: Option<nat>)
    ensures r.Some? ==> r.value < |entries| && entries[r.value].path == path
    ensures r.None? ==> forall i :: 0 <= i < |entries| ==> entries[i].path != path
  {
    if entries == [] then None
    else if entries[|entries| - 1].path == path then Some(|entries| - 1)
    else Find(entries[..|entries| - 1], path)
  }

  /** An item replaces the entry of its path, or is added. */
  function Put(was: seq<Entry>, entries: seq<Entry>, item: Entry): (r: seq<Entry>)
    requires |was| <= |entries|
    ensures |was| <= |r|
  {
    match Find(was, item.path)
    case Some(k) => entries[k := item]
    case None => entries + [item]
  }

  function Renewed(was: seq<Entry>, items: seq<Entry>): (r: seq<Entry>)
    ensures |was| <= |r|
  {
    if items == [] then was else Put(was, Renewed(was, items[..|items| - 1]), items[|items| - 1])
  }

  ghost predicate UniquePaths(entries: seq<Entry>) {
    forall i, j :: 0 <= i < j < |entries| ==> entries[i].path != entries[j].path
  }

  lemma RenewedMore(was: seq<Entry>, items: seq<Entry>, item: Entry)
    ensures Renewed(was, items + [item]) == Put(was, Renewed(was, items), item)
  {
    assert (items + [item])[..|items|] == items;
  }

  /** Old paths keep their places; new ones follow in the order of the items. */
  lemma {:induction false} RenewedPlaces(was: seq<Entry>, items: seq<Entry>)
    requires UniquePaths(was) && UniquePaths(items)
    ensures
      var r := Renewed(was, items);
      && (forall i :: 0 <= i < |was| ==> r[i].path == was[i].path)
      && (forall i :: 0 <= i < |was| && Find(items, was[i].path).None? ==> r[i] == was[i])
      && (forall i :: 0 <= i < |was| && Find(items, was[i].path).Some? ==> r[i] == items[Find(items, was[i].path).value])
      && (forall i :: |was| <= i < |r| ==> r[i] in items && Find(was, r[i].path).None?)
      && (forall j :: 0 <= j < |items| ==> items[j] in r)
    decreases |items|
  {
    hide UniquePaths, Find;
    if items != [] {
      var n := |items| - 1;
      var item, before := items[n], Renewed(was, items[..n]);
      UniquePrefix(items);
      RenewedPlaces(was, items[..n]);
      forall i | 0 <= i < |was|
        ensures Find(items, was[i].path) == if was[i].path == item.path then Some(n) else Find(items[..n], was[i].path)
        ensures Find(items, was[i].path).Some? ==> Find(items, was[i].path).value < |items|
      {
        FindLast(items, was[i].path);
      }
      PutPlaces(was, before, item);
      forall j | 0 <= j < |items| ensures items[j] in Renewed(was, items) {
        if j < n {
          assert items[..n][j] == items[j] && items[j].path != item.path by { UniquePair(items, j, n); }
          var i :| 0 <= i < |before| && before[i] == items[j];
        }
      }
    }
  }

  lemma FindLast(items: seq<Entry>, path: seq<byte>)
    requires items != []
    ensures
      var n := |items| - 1;
      Find(items, path) == if items[n].path == path then Some(n) else Find(items[..n], path)
    ensures Find(items, path).Some? ==> Find(items, path).value < |items|
  {
  }

  lemma UniquePrefix(items: seq<Entry>)
    requires UniquePaths(items) && items != []
    ensures UniquePaths(items[..|items| - 1])
  {
  }

  lemma UniquePair(items: seq<Entry>, i: nat, j: nat)
    requires UniquePaths(items) && i < j < |items|
    ensures items[i].path != items[j].path
  {
  }

  /** What one item changes. */
  lemma PutPlaces(was: seq<Entry>, entries: seq<Entry>, item: Entry)
    requires UniquePaths(was) && |was| <= |entries| && forall i :: 0 <= i < |was| ==> entries[i].path == was[i].path
    ensures
      var r := Put(was, entries, item);
      && item in r && |r| <= |entries| + 1 && |entries| <= |r|
      && (forall i :: 0 <= i < |was| ==> r[i] == if was[i].path == item.path then item else entries[i])
      && (forall i :: |was| <= i < |entries| ==> r[i] == entries[i])
      && (|r| > |entries| ==> r[|entries|] == item && Find(was, item.path).None?)
  {
    hide UniquePaths;
    var r := Put(was, entries, item);
    match Find(was, item.path)
    case Some(k) =>
      assert r[k] == item;
      forall i | 0 <= i < |was| && i != k ensures was[i].path != item.path {
        if i < k { UniquePair(was, i, k); } else { UniquePair(was, k, i); }
      }
    case None =>
      assert r[|entries|] == item;
  }

  /** By path: the items, and the was entries of all other paths. */
  lemma RenewedIs(was: seq<Entry>, items: seq<Entry>)
    requires UniquePaths(was) && UniquePaths(items)
    ensures forall e :: e in Renewed(was, items) <==> e in items || (e in was && Find(items, e.path).None?)
  {
    hide Find, UniquePaths, Renewed;
    RenewedPlaces(was, items);
    var r := Renewed(was, items);
    forall i | 0 <= i < |r| ensures r[i] in items || (r[i] in was && Find(items, r[i].path).None?) {
      if i < |was| {
        assert r[i].path == was[i].path;
        if Find(items, was[i].path).Some? {
          FindIn(items, was[i].path);
          assert r[i] == items[Find(items, was[i].path).value];
          assert r[i] in items;
        } else {
          assert r[i] == was[i] && was[i] in was;
        }
      } else {
        assert Find(was, r[i].path).None?;
      }
    }
    forall e | e in was && Find(items, e.path).None? ensures e in r {
      var i :| 0 <= i < |was| && was[i] == e;
      assert r[i] == e;
    }
  }

  lemma FindIn(items: seq<Entry>, path: seq<byte>)
    requires Find(items, path).Some?
    ensures Find(items, path).value < |items| && items[Find(items, path).value] in items
  {
  }

  // ----- The new list is valid -----

  ghost predicate ListsApart(rs: seq<Range>, ss: seq<Range>) { forall x, y :: x in rs && y in ss ==> Apart(x, y) }

  /** No two extents of all entries share a block, entry by entry. */
  ghost predicate EntriesApart(entries: seq<Entry>) {
    && (forall i :: 0 <= i < |entries| ==> PairwiseApart(RangesOf(entries[i].extents)))
    && (forall i, j :: 0 <= i < j < |entries| ==> ListsApart(RangesOf(entries[i].extents), RangesOf(entries[j].extents)))
  }

  lemma ConcatApart(a: seq<Range>, b: seq<Range>)
    ensures PairwiseApart(a + b) <==> PairwiseApart(a) && PairwiseApart(b) && ListsApart(a, b)
  {
    var t := a + b;
    if PairwiseApart(t) {
      forall i, j | 0 <= i < j < |a| ensures Apart(a[i], a[j]) { assert Apart(t[i], t[j]); }
      forall i, j | 0 <= i < j < |b| ensures Apart(b[i], b[j]) { assert Apart(t[|a| + i], t[|a| + j]); }
      forall x, y | x in a && y in b ensures Apart(x, y) {
        var i :| 0 <= i < |a| && a[i] == x;
        var j :| 0 <= j < |b| && b[j] == y;
        assert Apart(t[i], t[|a| + j]);
      }
    }
    if PairwiseApart(a) && PairwiseApart(b) && ListsApart(a, b) {
      forall i, j | 0 <= i < j < |t| ensures Apart(t[i], t[j]) {
        if i < |a| && j >= |a| { assert t[i] in a && t[j] in b; }
      }
    }
  }

  /** The ranges of all entries are those of each. */
  lemma {:induction false} RangesOfEntries(entries: seq<Entry>)
    ensures forall x :: x in AllRanges(entries) <==> exists i :: 0 <= i < |entries| && x in RangesOf(entries[i].extents)
  {
    hide RangesOf;
    if entries != [] {
      var n := |entries| - 1;
      RangesOfEntries(entries[..n]);
      forall x
        ensures x in AllRanges(entries) <==> exists i :: 0 <= i < |entries| && x in RangesOf(entries[i].extents)
      {
        if x in AllRanges(entries[..n]) {
          var i :| 0 <= i < n && x in RangesOf(entries[..n][i].extents);
          assert x in RangesOf(entries[i].extents);
        }
        if i :| 0 <= i < |entries| && x in RangesOf(entries[i].extents) {
          if i < n { assert x in RangesOf(entries[..n][i].extents); }
        }
      }
    }
  }

  lemma {:induction false} AllRangesApart(entries: seq<Entry>)
    ensures PairwiseApart(AllRanges(entries)) <==> EntriesApart(entries)
  {
    hide RangesOf, PairwiseApart, ListsApart;
    if entries == [] {
      NoRanges();
    } else {
      var n := |entries| - 1;
      AllRangesApart(entries[..n]);
      ConcatApart(AllRanges(entries[..n]), RangesOf(entries[n].extents));
      LastApart(entries);
    }
  }

  lemma NoRanges()
    ensures PairwiseApart([])
  {
  }

  lemma LastApart(entries: seq<Entry>)
    requires entries != []
    ensures
      var n := |entries| - 1;
      EntriesApart(entries) <==>
      EntriesApart(entries[..n]) && PairwiseApart(RangesOf(entries[n].extents))
      && ListsApart(AllRanges(entries[..n]), RangesOf(entries[n].extents))
  {
    hide RangesOf, PairwiseApart;
    var n := |entries| - 1;
    var rs := RangesOf(entries[n].extents);
    RangesOfEntries(entries[..n]);
    if EntriesApart(entries) {
      forall x, y | x in AllRanges(entries[..n]) && y in rs ensures Apart(x, y) {
        var i :| 0 <= i < n && x in RangesOf(entries[..n][i].extents);
        assert ListsApart(RangesOf(entries[i].extents), rs);
      }
    }
    if ListsApart(AllRanges(entries[..n]), rs) && EntriesApart(entries[..n]) && PairwiseApart(rs) {
      forall i, j | 0 <= i < j < |entries|
        ensures ListsApart(RangesOf(entries[i].extents), RangesOf(entries[j].extents))
      {
        if j < n { assert ListsApart(RangesOf(entries[..n][i].extents), RangesOf(entries[..n][j].extents)); } else {
          forall x, y | x in RangesOf(entries[i].extents) && y in rs ensures Apart(x, y) {
            assert x in RangesOf(entries[..n][i].extents);
          }
        }
      }
      forall i | 0 <= i < |entries| ensures PairwiseApart(RangesOf(entries[i].extents)) {
        if i < n { assert entries[..n][i] == entries[i]; }
      }
    }
  }

  /** All extents of a list lie in some blocks. */
  ghost predicate EntriesUse(entries: seq<Entry>, blocks: set<nat>) {
    forall i :: 0 <= i < |entries| ==> UsesOnly(entries[i].extents, blocks)
  }

  /** Extents in different blocks are apart. */
  lemma DifferentApart(a: seq<Extent>, b: seq<Extent>, used: set<nat>, mine: set<nat>)
    requires UsesOnly(a, used) && UsesOnly(b, mine) && used !! mine
    requires (forall i :: 0 <= i < |a| ==> a[i].blocks > 0) && forall i :: 0 <= i < |b| ==> b[i].blocks > 0
    ensures ListsApart(RangesOf(a), RangesOf(b)) && ListsApart(RangesOf(b), RangesOf(a))
  {
    hide CoveredBy;
    var rs, ss := RangesOf(a), RangesOf(b);
    forall x, y | x in rs && y in ss ensures Apart(x, y) {
      var i: nat :| i < |rs| && rs[i] == x;
      var j: nat :| j < |ss| && ss[j] == y;
      forall p: nat | Covers(x, p) ensures p in used { CoveredOne(rs, i, p); }
      forall p: nat | Covers(y, p) ensures p !in used { CoveredOne(ss, j, p); }
      RangesApart(x, y, used);
    }
  }

  lemma PutApart(was: seq<Entry>, entries: seq<Entry>, item: Entry, used: set<nat>, mine: set<nat>)
    requires |was| <= |entries| && EntriesApart(entries) && EntriesUse(entries, used) && Tidy(item.extents, mine)
    requires used !! mine
    requires forall i, j :: 0 <= i < |entries| && 0 <= j < |entries[i].extents| ==> entries[i].extents[j].blocks > 0
    requires forall j :: 0 <= j < |item.extents| ==> item.extents[j].blocks > 0
    ensures EntriesApart(Put(was, entries, item)) && EntriesUse(Put(was, entries, item), used + mine)
  {
    hide RangesOf, PairwiseApart, ListsApart, UsesOnly, Find;
    var r := Put(was, entries, item);
    forall i | 0 <= i < |entries|
      ensures ListsApart(RangesOf(entries[i].extents), RangesOf(item.extents))
      ensures ListsApart(RangesOf(item.extents), RangesOf(entries[i].extents))
      ensures UsesOnly(entries[i].extents, used + mine)
    {
      DifferentApart(entries[i].extents, item.extents, used, mine);
      UsesMore(entries[i].extents, used, used + mine);
    }
    UsesMore(item.extents, mine, used + mine);
  }

  lemma UsesMore(es: seq<Extent>, a: set<nat>, b: set<nat>)
    requires UsesOnly(es, a) && a <= b
    ensures UsesOnly(es, b)
  {
    hide CoveredBy;
  }

  lemma PutGood(was: seq<Entry>, entries: seq<Entry>, item: Entry)
    requires |was| <= |entries| && forall i :: 0 <= i < |entries| ==> GoodPlace(entries, i)
    requires item.kind == 2 && Parent(item.path) == HOME && item.path != HOME
    requires Find(was, item.path).Some? ==>
               entries[Find(was, item.path).value].path == item.path && entries[Find(was, item.path).value].kind == 2
    requires Find(was, item.path).None? ==> forall i :: 0 <= i < |entries| ==> entries[i].path != item.path
    ensures forall i :: 0 <= i < |Put(was, entries, item)| ==> GoodPlace(Put(was, entries, item), i)
  {
    hide Find, Parent;
    var r := Put(was, entries, item);
    assert forall i :: 0 <= i < |entries| ==> r[i].path == entries[i].path && r[i].kind == entries[i].kind;
    forall i | 0 <= i < |r| ensures GoodPlace(r, i) {
      if i < |entries| {
        SamePlace(entries, r, i);
      } else {
        LastPlace(entries, r);
      }
    }
  }

  lemma SamePlace(a: seq<Entry>, b: seq<Entry>, i: nat)
    requires |a| <= |b| && i < |a| && GoodPlace(a, i)
    requires forall j :: 0 <= j < |a| ==> b[j].path == a[j].path && b[j].kind == a[j].kind
    ensures GoodPlace(b, i)
  {
    hide Parent;
    if Parent(a[i].path) != HOME {
      var j :| 0 <= j < i && a[j].path == Parent(a[i].path) && a[j].kind == 1;
      assert b[j].path == Parent(b[i].path) && b[j].kind == 1;
    }
  }

  lemma LastPlace(a: seq<Entry>, b: seq<Entry>)
    requires |b| == |a| + 1 && Parent(b[|a|].path) == HOME && b[|a|].path != HOME
    requires forall j :: 0 <= j < |a| ==> b[j].path == a[j].path && a[j].path != b[|a|].path
    ensures GoodPlace(b, |a|)
  {
  }

  /** A new or replacing file in blocks of its own keeps the list valid, so that validate() accepts it. */
  lemma PutValid(was: seq<Entry>, entries: seq<Entry>, item: Entry, start: nat, end: nat, used: set<nat>,
      mine: set<nat>)
    requires ValidList(entries, start, end) && |was| <= |entries| && |Put(was, entries, item)| <= MAX_ENTRIES
    requires GoodEntry(item, start, end) && item.kind == 2 && Parent(item.path) == HOME && item.path != HOME
    requires Find(was, item.path).Some? ==>
               entries[Find(was, item.path).value].path == item.path && entries[Find(was, item.path).value].kind == 2
    requires Find(was, item.path).None? ==> forall i :: 0 <= i < |entries| ==> entries[i].path != item.path
    requires EntriesUse(entries, used) && Tidy(item.extents, mine) && used !! mine
    ensures ValidList(Put(was, entries, item), start, end) && EntriesUse(Put(was, entries, item), used + mine)
  {
    hide RangesOf, PairwiseApart, UsesOnly, Find, GoodPath, GoodPlace, EntriesApart, Parent, Tidy, EntriesUse,
      AllRanges;
    AllRangesApart(entries);
    forall i, j | 0 <= i < |entries| && 0 <= j < |entries[i].extents| ensures entries[i].extents[j].blocks > 0 {
      assert GoodEntry(entries[i], start, end);
    }
    PutApart(was, entries, item, used, mine);
    AllRangesApart(Put(was, entries, item));
    PutGood(was, entries, item);
  }

  /** The extents that write_source() made are good ones. */
  lemma TidyIsGood(es: seq<Extent>, size: nat, start: nat, end: nat, mine: set<nat>)
    requires Tidy(es, mine) && BlocksInside(es) && EndBy(es, Blocks(size)) && forall p :: p in mine ==> start <= p < end
    ensures GoodExtents(es, size, start, end)
  {
    hide CoveredBy, PairwiseApart;
    var rs := RangesOf(es);
    forall i | 0 <= i < |es| ensures start <= es[i].physical && es[i].physical + es[i].blocks <= end {
      CoveredOne(rs, i, es[i].physical);
      CoveredOne(rs, i, es[i].physical + es[i].blocks - 1);
    }
  }
}
