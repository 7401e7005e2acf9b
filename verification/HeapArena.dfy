/** The kernel heap of kernel/memory.c as the sequence of blocks that tile its arena. */
module HeapArena {
  /** KHEAP_SIZE; a block has a 32-byte header. */
  const HEAP_SIZE: nat := 0x80_0000

  datatype Chunk = Chunk(size: nat, free: bool)

  /** The bytes of blocks with their headers. */
  function Extent(a: seq<Chunk>): nat
    decreases |a|
  {
    if a == [] then 0 else Extent(a[..|a| - 1]) + 32 + a[|a| - 1].size
  }

  /** Where the header of block k lies. */
  function Start(a: seq<Chunk>, k: nat): nat
    requires k <= |a|
  {
    Extent(a[..k])
  }

  lemma {:induction false} ExtentAppend(a: seq<Chunk>, b: seq<Chunk>)
    ensures Extent(a + b) == Extent(a) + Extent(b)
    decreases |b|
  {
    if b == [] {
      assert a + b == a;
    } else {
      assert (a + b)[..|a + b| - 1] == a + b[..|b| - 1];
      ExtentAppend(a, b[..|b| - 1]);
    }
  }

  lemma ExtentOne(c: Chunk)
    ensures Extent([c]) == 32 + c.size
  {
    assert [c][..0] == [];
  }

  lemma StartNext(a: seq<Chunk>, k: nat)
    requires k < |a|
    ensures Start(a, k + 1) == Start(a, k) + 32 + a[k].size
  {
    assert a[..k + 1][..k] == a[..k];
  }

  lemma {:induction false} StartOrder(a: seq<Chunk>, i: nat, j: nat)
    requires i < j <= |a|
    ensures Start(a, i) + 32 + a[i].size <= Start(a, j)
    decreases j
  {
    StartNext(a, j - 1);
    if i < j - 1 { StartOrder(a, i, j - 1); }
  }

  // ----- Objects -----

  /** A live object: where its bytes begin, and how many there are. */
  datatype Object = Object(at: nat, size: nat)

  /** The live objects of blocks that begin at base. */
  function Objects(a: seq<Chunk>, base: nat): set<Object>
    decreases |a|
  {
    if a == [] then {}
    else
      var n := |a| - 1;
      Objects(a[..n], base) + if a[n].free then {} else {Object(base + Extent(a[..n]) + 32, a[n].size)}
  }

  /** The sum of the sizes of live objects. */
  function Used(a: seq<Chunk>): nat
    decreases |a|
  {
    if a == [] then 0 else Used(a[..|a| - 1]) + if a[|a| - 1].free then 0 else a[|a| - 1].size
  }

  lemma {:induction false} ObjectsAppend(a: seq<Chunk>, b: seq<Chunk>, base: nat)
    ensures Objects(a + b, base) == Objects(a, base) + Objects(b, base + Extent(a))
    ensures Used(a + b) == Used(a) + Used(b)
    decreases |b|
  {
    if b == [] {
      assert a + b == a;
    } else {
      var b' := b[..|b| - 1];
      assert (a + b)[..|a + b| - 1] == a + b';
      ObjectsAppend(a, b', base);
      ExtentAppend(a, b');
    }
  }

  lemma ObjectsOne(c: Chunk, base: nat)
    ensures Objects([c], base) == if c.free then {} else {Object(base + 32, c.size)}
    ensures Used([c]) == if c.free then 0 else c.size
  {
    assert [c][..0] == [];
  }

  lemma {:induction false} ObjectAt(a: seq<Chunk>, base: nat, o: Object)
    requires o in Objects(a, base)
    ensures exists k: nat :: k < |a| && !a[k].free && o == Object(base + Start(a, k) + 32, a[k].size)
    decreases |a|
  {
    var n := |a| - 1;
    if o in Objects(a[..n], base) {
      ObjectAt(a[..n], base, o);
      var k: nat :| k < n && !a[..n][k].free && o == Object(base + Start(a[..n], k) + 32, a[..n][k].size);
      assert a[..n][..k] == a[..k];
      assert !a[k].free && o == Object(base + Start(a, k) + 32, a[k].size);
    } else {
      assert !a[n].free && o == Object(base + Start(a, n) + 32, a[n].size);
    }
  }

  /** Live objects do not overlap, and lie inside the arena behind their headers. */
  lemma ObjectsDisjoint(a: seq<Chunk>, o: Object, p: Object)
    requires o in Objects(a, 0) && p in Objects(a, 0) && o != p
    ensures o.at + o.size <= p.at || p.at + p.size <= o.at
    ensures 32 <= o.at && o.at + o.size <= Extent(a)
  {
    ObjectAt(a, 0, o);
    ObjectAt(a, 0, p);
    var i: nat :| i < |a| && !a[i].free && o == Object(Start(a, i) + 32, a[i].size);
    var j: nat :| j < |a| && !a[j].free && p == Object(Start(a, j) + 32, a[j].size);
    if i < j { StartOrder(a, i, j); } else if j < i { StartOrder(a, j, i); }
    StartOrder(a, i, |a|);
    assert a[..|a|] == a;
  }

  // ----- The invariant -----

  predicate ChunkOk(c: Chunk) { c.size >= 16 && c.size % 16 == 0 }

  /** Two neighbours are not both free. */
  predicate Coalesced(a: seq<Chunk>, k: nat)
    requires k + 1 < |a|
  {
    !(a[k].free && a[k + 1].free)
  }

  ghost predicate Tiled(a: seq<Chunk>) {
    && a != [] && Extent(a) == HEAP_SIZE
    && (forall k :: 0 <= k < |a| ==> ChunkOk(a[k]))
    && (forall k: nat {:trigger Coalesced(a, k)} :: k < |a| - 1 ==> Coalesced(a, k))
  }

  /** A heap without objects is one free block. */
  lemma AllFreed(a: seq<Chunk>)
    requires Tiled(a) && Objects(a, 0) == {}
    ensures a == [Chunk(HEAP_SIZE - 32, true)]
  {
    forall k: nat | k < |a| ensures a[k].free { ObjectOf(a, k); }
    assert |a| > 1 ==> Coalesced(a, 0);
    ExtentOne(a[0]);
  }

  lemma ObjectOf(a: seq<Chunk>, k: nat)
    requires k < |a|
    ensures !a[k].free ==> Object(Start(a, k) + 32, a[k].size) in Objects(a, 0)
  {
    assert a == a[..k] + [a[k]] + a[k + 1..];
    ObjectsAppend(a[..k] + [a[k]], a[k + 1..], 0);
    ObjectsAppend(a[..k], [a[k]], 0);
    ObjectsOne(a[k], Extent(a[..k]));
  }

  // ----- Allocating -----

  /** The first free block of at least n bytes from i on, or |a|. */
  function FitFrom(a: seq<Chunk>, n: nat, i: nat): (k: nat)
    requires i <= |a|
    ensures i <= k <= |a| && (k < |a| ==> a[k].free && a[k].size >= n)
    ensures forall j :: i <= j < k ==> !(a[j].free && a[j].size >= n)
    decreases |a| - i
  {
    if i == |a| || (a[i].free && a[i].size >= n) then i else FitFrom(a, n, i + 1)
  }

  /** Taking block k for n bytes, splitting it if another block fits behind. */
  function Taken(a: seq<Chunk>, k: nat, n: nat): seq<Chunk>
    requires k < |a| && n <= a[k].size
  {
    if a[k].size >= n + 48 then a[..k] + [Chunk(n, false), Chunk(a[k].size - n - 32, true)] + a[k + 1..]
    else a[k := Chunk(a[k].size, false)]
  }

  /** The bytes an object of n gets. */
  function Given(a: seq<Chunk>, k: nat, n: nat): nat
    requires k < |a|
  {
    if a[k].size >= n + 48 then n else a[k].size
  }

  /** Replacing some blocks by others of the same extent. */
  lemma Replaced(x: seq<Chunk>, y: seq<Chunk>, y': seq<Chunk>, z: seq<Chunk>)
    requires Extent(y') == Extent(y)
    ensures Extent(x + y' + z) == Extent(x + y + z)
    ensures Objects(x + y + z, 0) == Objects(x, 0) + Objects(y, Extent(x)) + Objects(z, Extent(x) + Extent(y))
    ensures Objects(x + y' + z, 0) == Objects(x, 0) + Objects(y', Extent(x)) + Objects(z, Extent(x) + Extent(y))
    ensures Used(x + y + z) == Used(x) + Used(y) + Used(z) && Used(x + y' + z) == Used(x) + Used(y') + Used(z)
  {
    hide Objects, Used, Extent;
    ExtentAppend(x + y, z);
    ExtentAppend(x, y);
    ExtentAppend(x + y', z);
    ExtentAppend(x, y');
    ObjectsAppend(x + y, z, 0);
    ObjectsAppend(x, y, 0);
    ObjectsAppend(x + y', z, 0);
    ObjectsAppend(x, y', 0);
  }

  lemma TwoChunks(c: Chunk, d: Chunk, base: nat)
    ensures Extent([c, d]) == 64 + c.size + d.size
    ensures Objects([c, d], base) == Objects([c], base) + Objects([d], base + 32 + c.size)
    ensures Used([c, d]) == Used([c]) + Used([d])
  {
    assert [c, d] == [c] + [d];
    ExtentAppend([c], [d]);
    ExtentOne(c);
    ExtentOne(d);
    ObjectsAppend([c], [d], base);
  }

  /** Allocation adds one object, of the bytes given, to those there are. */
  lemma TakenObjects(a: seq<Chunk>, k: nat, n: nat)
    requires k < |a| && a[k].free && n <= a[k].size
    ensures Objects(Taken(a, k, n), 0) == Objects(a, 0) + {Object(Start(a, k) + 32, Given(a, k, n))}
    ensures Used(Taken(a, k, n)) == Used(a) + Given(a, k, n)
    ensures Extent(Taken(a, k, n)) == Extent(a)
  {
    hide Objects, Used, Extent;
    var c := a[k];
    var new0 := if c.size >= n + 48 then [Chunk(n, false), Chunk(c.size - n - 32, true)] else [Chunk(c.size, false)];
    assert a == a[..k] + [c] + a[k + 1..];
    assert Taken(a, k, n) == a[..k] + new0 + a[k + 1..];
    var base := Start(a, k);
    ExtentOne(c);
    ExtentOne(Chunk(c.size, false));
    ObjectsOne(c, base);
    ObjectsOne(Chunk(c.size, false), base);
    if c.size >= n + 48 {
      TwoChunks(new0[0], new0[1], base);
      ObjectsOne(new0[0], base);
      ObjectsOne(new0[1], base + 32 + n);
    }
    Replaced(a[..k], [c], new0, a[k + 1..]);
  }

  lemma TakenTiled(a: seq<Chunk>, k: nat, n: nat)
    requires Tiled(a) && k < |a| && a[k].free && 16 <= n <= a[k].size && n % 16 == 0
    ensures Tiled(Taken(a, k, n))
  {
    hide Objects, Used, Extent;
    var b := Taken(a, k, n);
    TakenObjects(a, k, n);
    if a[k].size >= n + 48 {
      forall j: nat | j < |b| - 1 ensures Coalesced(b, j) {
        if j < k - 1 { assert Coalesced(a, j); }
        if j == k + 1 { assert Coalesced(a, k); }
        if j > k + 1 { assert Coalesced(a, j - 1); }
      }
      forall j | 0 <= j < |b| ensures ChunkOk(b[j]) {
        assert ChunkOk(a[k]);
        if j > k + 1 { assert b[j] == a[j - 1]; }
      }
    } else {
      forall j: nat | j < |b| - 1 ensures Coalesced(b, j) { assert Coalesced(a, j); }
    }
  }

  // ----- Freeing -----

  /** merge(): block k takes over its neighbour if that is free. */
  function Merged(a: seq<Chunk>, k: nat): seq<Chunk>
    requires k < |a|
  {
    if k + 1 < |a| && a[k + 1].free then a[..k] + [Chunk(a[k].size + 32 + a[k + 1].size, a[k].free)] + a[k + 2..] else a
  }

  /** kfree() */
  function Freed(a: seq<Chunk>, k: nat): seq<Chunk>
    requires k < |a|
  {
    var b := Merged(a[k := Chunk(a[k].size, true)], k);
    if k > 0 && a[k - 1].free then Merged(b, k - 1) else b
  }

  lemma MergedObjects(a: seq<Chunk>, k: nat)
    requires k < |a| && a[k].free
    ensures Objects(Merged(a, k), 0) == Objects(a, 0) && Used(Merged(a, k)) == Used(a)
    ensures Extent(Merged(a, k)) == Extent(a)
  {
    hide Objects, Used, Extent;
    if k + 1 < |a| && a[k + 1].free {
      var c, d := a[k], a[k + 1];
      var m := Chunk(c.size + 32 + d.size, true);
      assert a == a[..k] + [c, d] + a[k + 2..];
      var base := Start(a, k);
      TwoChunks(c, d, base);
      ObjectsOne(c, base);
      ObjectsOne(d, base + 32 + c.size);
      ExtentOne(m);
      ObjectsOne(m, base);
      Replaced(a[..k], [c, d], [m], a[k + 2..]);
    }
  }

  lemma MarkedFree(a: seq<Chunk>, k: nat)
    requires k < |a| && !a[k].free
    ensures
      var b := a[k := Chunk(a[k].size, true)];
      && Extent(b) == Extent(a) && Used(b) + a[k].size == Used(a)
      && Objects(b, 0) == Objects(a, 0) - {Object(Start(a, k) + 32, a[k].size)}
      && Object(Start(a, k) + 32, a[k].size) in Objects(a, 0)
  {
    hide Objects, Used, Extent;
    var b := a[k := Chunk(a[k].size, true)];
    assert a == a[..k] + [a[k]] + a[k + 1..];
    assert b == a[..k] + [b[k]] + a[k + 1..];
    var base := Start(a, k);
    ExtentOne(a[k]);
    ExtentOne(b[k]);
    ObjectsOne(a[k], base);
    ObjectsOne(b[k], base);
    Replaced(a[..k], [a[k]], [b[k]], a[k + 1..]);
    OthersElsewhere(a, k);
  }

  /** The object of block k is not one of the other blocks'. */
  lemma OthersElsewhere(a: seq<Chunk>, k: nat)
    requires k < |a|
    ensures Object(Start(a, k) + 32, a[k].size) !in Objects(a[..k], 0) + Objects(a[k + 1..], Extent(a[..k]) + Extent([a[k]]))
  {
    hide Objects, Used;
    var o := Object(Start(a, k) + 32, a[k].size);
    assert a[..k][..k] == a[..k];
    ExtentOne(a[k]);
    if o in Objects(a[..k], 0) {
      ObjectAt(a[..k], 0, o);
      var j: nat :| j < k && o == Object(Start(a[..k], j) + 32, a[..k][j].size);
      StartOrder(a[..k], j, k);
    }
    if o in Objects(a[k + 1..], Extent(a[..k]) + Extent([a[k]])) {
      ObjectAt(a[k + 1..], Extent(a[..k]) + Extent([a[k]]), o);
    }
  }

  /** Freeing removes exactly the object freed. */
  lemma FreedObjects(a: seq<Chunk>, k: nat)
    requires k < |a| && !a[k].free
    ensures Objects(Freed(a, k), 0) == Objects(a, 0) - {Object(Start(a, k) + 32, a[k].size)}
    ensures Used(Freed(a, k)) + a[k].size == Used(a) && Extent(Freed(a, k)) == Extent(a)
  {
    hide Objects, Used, Extent;
    MarkedFree(a, k);
    var b := a[k := Chunk(a[k].size, true)];
    MergedObjects(b, k);
    var c := Merged(b, k);
    if k > 0 && a[k - 1].free {
      assert c[k - 1] == a[k - 1];
      MergedObjects(c, k - 1);
    }
  }

  /** The blocks from lo to hi become one. */
  function Joined(a: seq<Chunk>, lo: nat, hi: nat, c: Chunk): seq<Chunk>
    requires lo <= hi <= |a|
  {
    a[..lo] + [c] + a[hi..]
  }

  lemma JoinedOk(a: seq<Chunk>, lo: nat, hi: nat, c: Chunk)
    requires Tiled(a) && lo < hi <= |a| && ChunkOk(c) && Extent(Joined(a, lo, hi, c)) == HEAP_SIZE
    requires (lo > 0 ==> !a[lo - 1].free) && (hi < |a| ==> !a[hi].free)
    ensures Tiled(Joined(a, lo, hi, c))
  {
    hide Extent;
    var b := Joined(a, lo, hi, c);
    forall j | 0 <= j < |b| ensures ChunkOk(b[j]) {
      if j > lo { assert b[j] == a[hi + j - lo - 1]; }
    }
    forall j: nat | j < |b| - 1 ensures Coalesced(b, j) {
      if j + 1 < lo { assert Coalesced(a, j); }
      if j > lo { assert Coalesced(a, hi + j - lo - 1); }
    }
  }

  lemma FreedIs(a: seq<Chunk>, k: nat)
    requires k < |a| && !a[k].free
    ensures
      var next := k + 1 < |a| && a[k + 1].free;
      var prev := k > 0 && a[k - 1].free;
      var size := (if prev then a[k - 1].size + 32 else 0) + a[k].size + if next then 32 + a[k + 1].size else 0;
      Freed(a, k) == Joined(a, if prev then k - 1 else k, if next then k + 2 else k + 1, Chunk(size, true))
  {
  }

  /** After freeing, no two free blocks are neighbours. */
  lemma FreedTiled(a: seq<Chunk>, k: nat)
    requires Tiled(a) && k < |a| && !a[k].free
    ensures Tiled(Freed(a, k))
  {
    hide Objects, Used, Extent, Freed, Joined;
    FreedObjects(a, k);
    FreedIs(a, k);
    var next := k + 1 < |a| && a[k + 1].free;
    var prev := k > 0 && a[k - 1].free;
    var lo, hi := if prev then k - 1 else k, if next then k + 2 else k + 1;
    var size := (if prev then a[k - 1].size + 32 else 0) + a[k].size + if next then 32 + a[k + 1].size else 0;
    assert ChunkOk(a[k]) && (prev ==> ChunkOk(a[k - 1])) && (next ==> ChunkOk(a[k + 1]));
    if prev && k >= 2 { assert Coalesced(a, k - 2); }
    if next && k + 2 < |a| { assert Coalesced(a, k + 1); }
    JoinedOk(a, lo, hi, Chunk(size, true));
  }
}
