/** kmalloc and kfree of kernel/memory.c on linked block headers in the arena. */
module KernelHeap {
  import opened Wrappers
  import opened HeapArena

  /** BLOCK_MAGIC */
  const MAGIC: nat := 0x4e56_424c

  /** struct block; addresses count from the start of the arena, and -1 is NULL. */
  datatype Header = Header(magic: nat, size: nat, free: bool, prev: int, next: int)

  type Headers = map<int, Header>

  /** Where block k begins, or NULL past either end. */
  function At(a: seq<Chunk>, k: int): int {
    if 0 <= k < |a| then Start(a, k) else -1
  }

  /** The header of block k is in place and linked to its neighbours. */
  predicate Linked(mem: Headers, a: seq<Chunk>, k: nat)
    requires k < |a|
  {
    Start(a, k) in mem && mem[Start(a, k)] == Header(MAGIC, a[k].size, a[k].free, At(a, k - 1), At(a, k + 1))
  }

  /** The headers with the magic number are those of the blocks. */
  ghost predicate Represents(mem: Headers, a: seq<Chunk>) {
    && (forall k: nat :: k < |a| ==> Linked(mem, a, k))
    && (forall p :: p in mem && mem[p].magic == MAGIC ==> exists k: nat :: k < |a| && p == Start(a, k))
  }

  /** Starts of blocks before and after a part that is replaced by one of the same extent. */
  lemma Spliced(a: seq<Chunk>, lo: nat, hi: nat, mid: seq<Chunk>, j: nat)
    requires lo <= hi <= |a| && Extent(mid) == Extent(a[lo..hi]) && j <= |a|
    ensures
      var b := a[..lo] + mid + a[hi..];
      && (j <= lo ==> Start(b, j) == Start(a, j))
      && (j >= hi ==> Start(b, j - hi + lo + |mid|) == Start(a, j))
  {
    hide Extent;
    ThreeParts(a, lo, hi);
    if j <= lo {
      TakeFirst(a[..lo] + mid, a[hi..], j);
      TakeFirst(a[..lo], mid, j);
      TakeOfTake(a, lo, j);
    }
    if j >= hi { Shifted(a[..lo], a[lo..hi], mid, a[hi..], j - hi); }
  }

  lemma ThreeParts(a: seq<Chunk>, lo: nat, hi: nat)
    requires lo <= hi <= |a|
    ensures a == a[..lo] + a[lo..hi] + a[hi..]
  {
  }

  lemma TakeOfTake(a: seq<Chunk>, lo: nat, j: nat)
    requires j <= lo <= |a|
    ensures a[..lo][..j] == a[..j]
  {
  }

  lemma Shifted(x: seq<Chunk>, y: seq<Chunk>, y': seq<Chunk>, z: seq<Chunk>, i: nat)
    requires i <= |z| && Extent(y') == Extent(y)
    ensures Extent((x + y' + z)[..|x| + |y'| + i]) == Extent((x + y + z)[..|x| + |y| + i])
  {
    hide Extent;
    ExtentPrefix(x, y, z, i);
    ExtentPrefix(x, y', z, i);
  }

  lemma ExtentPrefix(x: seq<Chunk>, y: seq<Chunk>, z: seq<Chunk>, i: nat)
    requires i <= |z|
    ensures Extent((x + y + z)[..|x| + |y| + i]) == Extent(x) + Extent(y) + Extent(z[..i])
  {
    hide Extent;
    var xy := x + y;
    TakeMore(xy, z, i);
    ExtentAppend(xy, z[..i]);
    ExtentAppend(x, y);
  }

  lemma TakeFirst(x: seq<Chunk>, y: seq<Chunk>, j: nat)
    requires j <= |x|
    ensures (x + y)[..j] == x[..j]
  {
  }

  lemma TakeMore(x: seq<Chunk>, y: seq<Chunk>, j: nat)
    requires j <= |y|
    ensures (x + y)[..|x| + j] == x + y[..j]
  {
  }

  lemma StartsDiffer(a: seq<Chunk>, i: nat, j: nat)
    requires i < |a| && j < |a|
    ensures Start(a, i) == Start(a, j) <==> i == j
    ensures i < j ==> Start(a, i) + 32 <= Start(a, j)
  {
    if i < j { StartOrder(a, i, j); } else if j < i { StartOrder(a, j, i); }
  }

  // ----- Changing one block -----

  /** The same blocks but for size and mark of block k, which keeps its extent. */
  lemma Remarked(mem: Headers, a: seq<Chunk>, k: nat, free: bool)
    requires Represents(mem, a) && k < |a|
    ensures
      var p := Start(a, k);
      p in mem && Represents(mem[p := mem[p].(free := free)], a[k := Chunk(a[k].size, free)])
  {
    hide Start;
    var p := Start(a, k);
    assert Linked(mem, a, k);
    var b := a[k := Chunk(a[k].size, free)];
    var mem' := mem[p := mem[p].(free := free)];
    forall j: nat | j <= |a| ensures Start(b, j) == Start(a, j) { RemarkedStart(a, k, free, j); }
    forall j: nat | j < |b| ensures Linked(mem', b, j) {
      assert Linked(mem, a, j);
      StartsDiffer(a, j, k);
    }
    forall q | q in mem' && mem'[q].magic == MAGIC ensures exists j: nat :: j < |b| && q == Start(b, j) {
      var j: nat :| j < |a| && q == Start(a, j);
      assert q == Start(b, j);
    }
  }

  lemma RemarkedStart(a: seq<Chunk>, k: nat, free: bool, j: nat)
    requires k < |a| && j <= |a|
    ensures Start(a[k := Chunk(a[k].size, free)], j) == Start(a, j)
  {
    hide Extent;
    var b := a[k := Chunk(a[k].size, free)];
    assert a[k..k + 1] == [a[k]] && b == a[..k] + [b[k]] + a[k + 1..];
    ExtentOne(a[k]);
    ExtentOne(b[k]);
    Spliced(a, k, k + 1, [b[k]], j);
  }

  // ----- Splitting -----

  function SplitArena(a: seq<Chunk>, k: nat, n: nat): seq<Chunk>
    requires k < |a| && a[k].size >= n + 48
  {
    a[..k] + [Chunk(n, true), Chunk(a[k].size - n - 32, true)] + a[k + 1..]
  }

  /** Putting a header for the rest behind the first n bytes of block k. */
  function SplitHeaders(mem: Headers, p: int, n: nat): Headers
    requires p in mem && mem[p].size >= n + 32
  {
    var b, r := mem[p], p + 32 + n;
    var m1 := mem[r := Header(MAGIC, b.size - n - 32, true, p, b.next)];
    var m2 := if b.next in m1 then m1[b.next := m1[b.next].(prev := r)] else m1;
    m2[p := m2[p].(next := r, size := n)]
  }

  lemma SplitStarts(a: seq<Chunk>, k: nat, n: nat, j: nat)
    requires k < |a| && a[k].size >= n + 48 && j <= |a|
    ensures
      var b := SplitArena(a, k, n);
      && (j <= k ==> Start(b, j) == Start(a, j))
      && (j > k ==> Start(b, j + 1) == Start(a, j))
      && Start(b, k + 1) == Start(a, k) + 32 + n
  {
    hide Extent;
    var mid := [Chunk(n, true), Chunk(a[k].size - n - 32, true)];
    assert a[k..k + 1] == [a[k]];
    ExtentOne(a[k]);
    TwoChunks(mid[0], mid[1], 0);
    Spliced(a, k, k + 1, mid, j);
    Spliced(a, k, k + 1, mid, k);
    StartNext(SplitArena(a, k, n), k);
  }

  lemma SplitKeeps(mem: Headers, a: seq<Chunk>, k: nat, n: nat)
    requires Represents(mem, a) && k < |a| && a[k].free && a[k].size >= n + 48
    ensures Start(a, k) in mem && mem[Start(a, k)].size == a[k].size
    ensures -1 !in mem ==>
              && Represents(SplitHeaders(mem, Start(a, k), n), SplitArena(a, k, n))
              && -1 !in SplitHeaders(mem, Start(a, k), n)
  {
    hide Start, SplitArena;
    assert Linked(mem, a, k);
    if -1 !in mem {
      var p := Start(a, k);
      var b, mem' := SplitArena(a, k, n), SplitHeaders(mem, p, n);
      SplitIs(a, k, n);
      SplitStarts(a, k, n, k);
      forall j: nat | j < |b| ensures Linked(mem', b, j) { SplitLinked(mem, a, k, n, j); }
      forall q | q in mem' && mem'[q].magic == MAGIC ensures exists j: nat :: j < |b| && q == Start(b, j) {
        if q == p + 32 + n {
          assert q == Start(b, k + 1);
        } else {
          NextIsLinked(mem, a, k);
          var j: nat :| j < |a| && q == Start(a, j);
          SplitStarts(a, k, n, j);
          assert q == Start(b, if j <= k then j else j + 1);
        }
      }
    }
  }

  lemma SplitIs(a: seq<Chunk>, k: nat, n: nat)
    requires k < |a| && a[k].size >= n + 48
    ensures
      var b := SplitArena(a, k, n);
      |b| == |a| + 1 && b[k] == Chunk(n, true) && b[k + 1] == Chunk(a[k].size - n - 32, true)
      && (forall j :: 0 <= j < k ==> b[j] == a[j]) && (forall j :: k + 1 < j < |b| ==> b[j] == a[j - 1])
  {
  }

  lemma NextIsLinked(mem: Headers, a: seq<Chunk>, k: nat)
    requires Represents(mem, a) && k < |a|
    ensures k + 1 < |a| ==> Linked(mem, a, k + 1)
    ensures Linked(mem, a, k) && mem[Start(a, k)].next == At(a, k + 1)
  {
    hide Start;
    assert Linked(mem, a, k);
    if k + 1 < |a| { assert Linked(mem, a, k + 1); }
  }

  lemma SplitLinked(mem: Headers, a: seq<Chunk>, k: nat, n: nat, j: nat)
    requires Represents(mem, a) && k < |a| && a[k].free && a[k].size >= n + 48 && j < |a| + 1 && -1 !in mem
    requires Start(a, k) in mem && mem[Start(a, k)].size == a[k].size
    ensures j < |SplitArena(a, k, n)| && Linked(SplitHeaders(mem, Start(a, k), n), SplitArena(a, k, n), j)
  {
    hide Start, SplitArena, Represents;
    var b := SplitArena(a, k, n);
    SplitIs(a, k, n);
    NextIsLinked(mem, a, k);
    SplitStarts(a, k, n, k);
    if k + 1 < |a| { SplitStarts(a, k, n, k + 1); StartOrder(a, k, k + 1); StartsDiffer(a, k, k + 1); }
    if j < k {
      NextIsLinked(mem, a, j);
      SplitStarts(a, k, n, j);
      if j > 0 { SplitStarts(a, k, n, j - 1); }
      SplitStarts(a, k, n, j + 1);
      StartsDiffer(a, j, k);
      if k + 1 < |a| { StartsDiffer(a, j, k + 1); }
    } else if j == k {
      if k > 0 { SplitStarts(a, k, n, k - 1); }
    } else if j > k + 1 {
      NextIsLinked(mem, a, j - 1);
      SplitStarts(a, k, n, j - 1);
      SplitStarts(a, k, n, j);
      if j > k + 2 { SplitStarts(a, k, n, j - 2); StartsDiffer(a, k + 1, j - 1); }
      StartsDiffer(a, k, j - 1);
      StartOrder(a, k, j - 1);
    }
  }

  // ----- Merging -----

  /** merge() of the block at p with its successor. */
  function MergeHeaders(mem: Headers, p: int): Headers
    requires p in mem
  {
    var b := mem[p];
    if b.next in mem && mem[b.next].free then
      var after := mem[b.next].next;
      var m1 := mem[p := b.(size := b.size + 32 + mem[b.next].size, next := after)];
      var m2 := if after in m1 then m1[after := m1[after].(prev := p)] else m1;
      m2[b.next := m2[b.next].(magic := 0)]
    else mem
  }

  lemma MergeStarts(a: seq<Chunk>, k: nat, j: nat)
    requires k + 1 < |a| && a[k + 1].free && j <= |a|
    ensures j <= k ==> Start(Merged(a, k), j) == Start(a, j)
    ensures j >= k + 2 ==> Start(Merged(a, k), j - 1) == Start(a, j)
  {
    hide Extent;
    var m := Chunk(a[k].size + 32 + a[k + 1].size, a[k].free);
    assert a[k..k + 2] == [a[k], a[k + 1]];
    TwoChunks(a[k], a[k + 1], 0);
    ExtentOne(m);
    Spliced(a, k, k + 2, [m], j);
  }

  lemma MergeIs(a: seq<Chunk>, k: nat)
    requires k + 1 < |a| && a[k + 1].free
    ensures
      var b := Merged(a, k);
      |b| == |a| - 1 && b[k] == Chunk(a[k].size + 32 + a[k + 1].size, a[k].free)
      && (forall j :: 0 <= j < k ==> b[j] == a[j]) && (forall j :: k < j < |b| ==> b[j] == a[j + 1])
  {
    var m := [Chunk(a[k].size + 32 + a[k + 1].size, a[k].free)];
    Parts(a[..k], m, a[k + 2..]);
  }

  lemma Parts(x: seq<Chunk>, y: seq<Chunk>, z: seq<Chunk>)
    ensures
      var s := x + y + z;
      |s| == |x| + |y| + |z| && (forall j :: 0 <= j < |x| ==> s[j] == x[j])
      && (forall j :: |x| <= j < |x| + |y| ==> s[j] == y[j - |x|])
      && (forall j :: |x| + |y| <= j < |s| ==> s[j] == z[j - |x| - |y|])
  {
  }

  lemma MergeKeeps(mem: Headers, a: seq<Chunk>, k: nat)
    requires Represents(mem, a) && -1 !in mem && k < |a|
    ensures Start(a, k) in mem && Represents(MergeHeaders(mem, Start(a, k)), Merged(a, k))
    ensures -1 !in MergeHeaders(mem, Start(a, k))
  {
    hide Start, Merged;
    NextIsLinked(mem, a, k);
    MergesIf(a, k);
    if k + 1 < |a| && a[k + 1].free {
      var b, mem' := Merged(a, k), MergeHeaders(mem, Start(a, k));
      MergeIs(a, k);
      forall j: nat | j < |b| ensures Linked(mem', b, j) { MergeLinked(mem, a, k, j); }
      forall q | q in mem' && mem'[q].magic == MAGIC ensures exists j: nat :: j < |b| && q == Start(b, j) {
        StartsDiffer(a, k, k + 1);
        if k + 2 < |a| { NextIsLinked(mem, a, k + 1); StartsDiffer(a, k + 1, k + 2); }
        var j: nat :| j < |a| && q == Start(a, j);
        MergeStarts(a, k, j);
        assert j != k + 1;
        assert q == Start(b, if j <= k then j else j - 1);
      }
    }
  }

  lemma MergesIf(a: seq<Chunk>, k: nat)
    requires k < |a|
    ensures !(k + 1 < |a| && a[k + 1].free) ==> Merged(a, k) == a
  {
  }

  lemma MergeLinked(mem: Headers, a: seq<Chunk>, k: nat, j: nat)
    requires Represents(mem, a) && -1 !in mem && k + 1 < |a| && a[k + 1].free && j < |a| - 1
    requires Start(a, k) in mem
    ensures j < |Merged(a, k)| && Linked(MergeHeaders(mem, Start(a, k)), Merged(a, k), j)
  {
    hide Start, Merged, Represents;
    MergeIs(a, k);
    NextIsLinked(mem, a, k);
    NextIsLinked(mem, a, k + 1);
    MergeStarts(a, k, k);
    StartsDiffer(a, k, k + 1);
    if k + 2 < |a| { MergeStarts(a, k, k + 2); StartsDiffer(a, k, k + 2); StartsDiffer(a, k + 1, k + 2); }
    if j < k {
      NextIsLinked(mem, a, j);
      MergeStarts(a, k, j);
      MergeStarts(a, k, j + 1);
      if j > 0 { MergeStarts(a, k, j - 1); }
      StartsDiffer(a, j, k);
      StartsDiffer(a, j, k + 1);
      if k + 2 < |a| { StartsDiffer(a, j, k + 2); }
    } else if j == k {
      if k > 0 { MergeStarts(a, k, k - 1); }
    } else {
      NextIsLinked(mem, a, j + 1);
      MergeStarts(a, k, j + 1);
      if j + 2 < |a| { MergeStarts(a, k, j + 2); }
      if j > k + 1 { MergeStarts(a, k, j); StartsDiffer(a, k + 2, j + 1); }
      StartsDiffer(a, k, j + 1);
      StartsDiffer(a, k + 1, j + 1);
    }
  }

  // ----- The heap -----

  function AlignUp(n: nat): (r: nat)
    ensures r % 16 == 0 && n <= r < n + 16
  {
    (n + 15) / 16 * 16
  }

  lemma FirstBlock(a: seq<Chunk>)
    requires Tiled(a)
    ensures At(a, 0) == 0
  {
    assert a[..0] == [];
  }

  /** A free block is no object. */
  lemma NewObject(a: seq<Chunk>, k: nat, size: nat)
    requires k < |a| && a[k].free
    ensures Object(Start(a, k) + 32, size) !in Objects(a, 0)
  {
    hide Start, Objects;
    var o := Object(Start(a, k) + 32, size);
    if o in Objects(a, 0) {
      ObjectAt(a, 0, o);
      var j: nat :| j < |a| && !a[j].free && o == Object(Start(a, j) + 32, a[j].size);
      StartsDiffer(a, j, k);
    }
  }

  lemma {:induction false} AlignedStart(a: seq<Chunk>, k: nat)
    requires Tiled(a) && k <= |a|
    ensures Start(a, k) % 16 == 0
    decreases k
  {
    hide Extent;
    if k == 0 {
      assert a[..0] == [];
      ExtentEmpty();
    } else {
      AlignedStart(a, k - 1);
      StartNext(a, k - 1);
      assert ChunkOk(a[k - 1]);
    }
  }

  lemma ExtentEmpty()
    ensures Extent([]) == 0
  {
  }

  /** Splitting, and then marking the first part. */
  lemma TakenIs(a: seq<Chunk>, k: nat, n: nat, b: seq<Chunk>)
    requires k < |a| && n <= a[k].size
    requires
      var split := if a[k].size >= n + 48 then SplitArena(a, k, n) else a;
      k < |split| && b == split[k := Chunk(split[k].size, false)]
    ensures b == Taken(a, k, n) && b[k].size == Given(a, k, n)
  {
  }

  /** Pointers that kfree() refuses are not those of objects. */
  lemma NotAnObject(mem: Headers, a: seq<Chunk>, ptr: int)
    requires Tiled(a) && Represents(mem, a)
    requires ptr < 32 || ptr >= HEAP_SIZE || ptr % 16 != 0 || ptr - 32 !in mem || mem[ptr - 32].magic != MAGIC || mem[ptr - 32].free
    ensures forall o :: o in Objects(a, 0) ==> o.at != ptr
  {
    hide Start, Objects;
    forall o | o in Objects(a, 0) ensures o.at != ptr {
      ObjectAt(a, 0, o);
      var k: nat :| k < |a| && !a[k].free && o == Object(Start(a, k) + 32, a[k].size);
      NextIsLinked(mem, a, k);
      AlignedStart(a, k);
      ArenaEnd(a, k);
    }
  }

  lemma ArenaEnd(a: seq<Chunk>, k: nat)
    requires Tiled(a) && k < |a|
    ensures Start(a, k) + 32 < HEAP_SIZE
  {
    StartOrder(a, k, |a|);
    assert a[..|a|] == a && ChunkOk(a[k]);
  }

  lemma BlockAt(mem: Headers, a: seq<Chunk>, p: int) returns (k: nat)
    requires Represents(mem, a) && p in mem && mem[p].magic == MAGIC
    ensures k < |a| && p == Start(a, k) && mem[p].free == a[k].free
  {
    hide Start;
    k :| k < |a| && p == Start(a, k);
    NextIsLinked(mem, a, k);
  }

  /** The steps of kfree(). */
  lemma FreedSteps(a: seq<Chunk>, k: nat)
    requires k < |a| && !a[k].free
    ensures
      var b := Merged(a[k := Chunk(a[k].size, true)], k);
      && k < |b| && Start(b, k) == Start(a, k)
      && (k > 0 ==> b[k - 1] == a[k - 1] && Start(b, k - 1) == Start(a, k - 1))
      && Freed(a, k) == if k > 0 && a[k - 1].free then Merged(b, k - 1) else b
  {
    hide Start;
    var marked := a[k := Chunk(a[k].size, true)];
    RemarkedStart(a, k, true, k);
    if k > 0 { RemarkedStart(a, k, true, k - 1); }
    if k + 1 < |a| && a[k + 1].free {
      MergeStarts(marked, k, k);
      if k > 0 { MergeStarts(marked, k, k - 1); }
    }
  }

  class Heap {
    /** The headers in the arena, by address. */
    var mem: Headers
    /** used_bytes, without the slab objects. */
    var used: nat
    /** The blocks from the first to the last. */
    ghost var arena: seq<Chunk>

    ghost predicate Valid()
      reads this
    {
      Tiled(arena) && Represents(mem, arena) && -1 !in mem && used == Used(arena)
    }

    /** The objects in use. */
    ghost function Live(): set<Object>
      reads this
    {
      Objects(arena, 0)
    }

    /** The arena as memory_init() sets it up. */
    constructor ()
      ensures Valid() && Live() == {}
    {
      mem := map[0 := Header(MAGIC, HEAP_SIZE - 32, true, -1, -1)];
      used := 0;
      arena := [Chunk(HEAP_SIZE - 32, true)];
      new;
      ExtentOne(arena[0]);
      ObjectsOne(arena[0], 0);
      assert arena[..0] == [];
      assert Linked(mem, arena, 0);
      assert 0 == Start(arena, 0);
    }

    /** The loop of kmalloc: the first block that fits. */
    method FindFit(n: nat) returns (b: int, ghost k: nat)
      requires Valid()
      ensures k == FitFrom(arena, n, 0) && b == At(arena, k)
    {
      hide Start, Tiled;
      b, k := 0, 0;
      FirstBlock(arena);
      while b != -1
        invariant k <= |arena| && b == At(arena, k) && FitFrom(arena, n, 0) == FitFrom(arena, n, k)
        decreases |arena| - k
      {
        NextIsLinked(mem, arena, k);
        var h := mem[b];
        if h.free && h.size >= n { return; }
        b, k := h.next, k + 1;
      }
    }

    /** kmalloc() of an object that no slab takes: it fails exactly when no free block fits, and else adds one
        object. */
    method Kmalloc(size: nat) returns (r: Option<int>)
      requires Valid()
      modifies this
      ensures Valid()
      ensures r.None? <==> size == 0 || size > HEAP_SIZE - 47
                           || forall i: nat :: i < |old(arena)| && old(arena)[i].free ==> old(arena)[i].size < AlignUp(size)
      ensures r.None? ==> Live() == old(Live()) && used == old(used)
      ensures r.Some? ==>
                && r.value % 16 == 0 && r.value >= 32 && used >= old(used) + size
                && exists given: nat :: given >= size && used == old(used) + given
                                        && Object(r.value, given) !in old(Live())
                                        && Live() == old(Live()) + {Object(r.value, given)}
    {
      hide Start, Tiled, Represents, Objects, Used, Extent, Taken, SplitHeaders, SplitArena;
      if size == 0 || size > HEAP_SIZE - 47 { return None; }
      var n := AlignUp(size);
      ghost var k;
      var b;
      b, k := FindFit(n);
      if b == -1 { return None; }
      ghost var was := arena;
      NextIsLinked(mem, arena, k);
      TakenTiled(arena, k, n);
      TakenObjects(arena, k, n);
      NewObject(arena, k, Given(arena, k, n));
      AlignedStart(arena, k);
      if mem[b].size >= n + 48 {
        SplitKeeps(mem, arena, k, n);
        mem := SplitHeaders(mem, b, n);
        arena := SplitArena(arena, k, n);
        SplitIs(was, k, n);
        SplitStarts(was, k, n, k);
      }
      NextIsLinked(mem, arena, k);
      Remarked(mem, arena, k, false);
      mem := mem[b := mem[b].(free := false)];
      arena := arena[k := Chunk(arena[k].size, false)];
      TakenIs(was, k, n, arena);
      used := used + mem[b].size;
      r := Some(b + 32);
    }

    /** merge() */
    method Merge(b: int, ghost k: nat)
      requires Represents(mem, arena) && -1 !in mem && k < |arena| && b == Start(arena, k)
      modifies this`mem, this`arena
      ensures Represents(mem, arena) && -1 !in mem && arena == Merged(old(arena), k)
    {
      hide Start, Represents, Merged;
      NextIsLinked(mem, arena, k);
      MergeKeeps(mem, arena, k);
      ghost var merged := MergeHeaders(mem, b);
      var next := mem[b].next;
      if next in mem && mem[next].free {
        mem := mem[b := mem[b].(size := mem[b].size + 32 + mem[next].size, next := mem[next].next)];
        var after := mem[b].next;
        if after in mem { mem := mem[after := mem[after].(prev := b)]; }
        mem := mem[next := mem[next].(magic := 0)];
      }
      assert mem == merged;
      arena := Merged(arena, k);
    }

    /** kfree() of a pointer into the arena; false where the kernel panics. */
    method Kfree(ptr: int) returns (ok: bool)
      requires Valid()
      modifies this
      ensures Valid()
      ensures ok <==> exists o :: o in old(Live()) && o.at == ptr
      ensures !ok ==> Live() == old(Live()) && used == old(used)
      ensures ok ==>
                exists o :: o in old(Live()) && o.at == ptr && Live() == old(Live()) - {o} && used + o.size == old(used)
    {
      hide Start, Tiled, Represents, Objects, Used, Extent, Merged, Freed;
      var b := ptr - 32;
      if ptr < 32 || ptr >= HEAP_SIZE || ptr % 16 != 0 || b !in mem || mem[b].magic != MAGIC || mem[b].free {
        NotAnObject(mem, arena, ptr);
        return false;
      }
      ghost var k := BlockAt(mem, arena, b);
      ghost var was := arena;
      NextIsLinked(mem, arena, k);
      FreedObjects(arena, k);
      FreedTiled(arena, k);
      ObjectOf(arena, k);
      used := used - mem[b].size;
      Remarked(mem, arena, k, true);
      mem := mem[b := mem[b].(free := true)];
      arena := arena[k := Chunk(arena[k].size, true)];
      RemarkedStart(was, k, true, k);
      Merge(b, k);
      FreedSteps(was, k);
      NextIsLinked(mem, arena, k);
      var prev := mem[b].prev;
      if k > 0 { NextIsLinked(mem, arena, k - 1); }
      if prev in mem && mem[prev].free { Merge(prev, k - 1); }
      ok := true;
    }
  }
}
