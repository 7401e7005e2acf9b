/** The effect of the recursive walks of kernel/memory64.c (visit_range and walk_user) on the
    private entries below a table, described slot by slot. */
module RangeWalk {
  import opened Wrappers
  import opened PageTables
  import opened TableSteps

  /** The op argument of visit_range: 0, 1, 2 and 3. */
  datatype RangeOp = Counting | Unmapping | Changing(flags: Flags) | Clearing

  /** Position of the ancestor of a Key at level l. */
  ghost function Lift(j: Key, l: nat): nat
    decreases if j.level < l then l - j.level else 0
  {
    if j.level >= l then j.index else Lift(Parent(j), l)
  }

  /** j hangs from table k through one of its slots lo, ..., hi - 1. */
  ghost predicate InSlots(j: Key, k: Key, lo: nat, hi: nat) {
    j.root == k.root && j.level < k.level && k.index * 512 + lo <= Lift(j, k.level - 1) < k.index * 512 + hi
  }

  predicate InRange(p: nat, start: nat, end: nat) {
    start <= p * 0x1000 < end
  }

  /** What an operation makes of the entry of a page in its range. */
  function After(op: RangeOp, e: Pte): Option<Pte> {
    match op
    case Counting => Some(e)
    case Unmapping => None
    case Changing(f) => Some(Protected(e, f))
    case Clearing => Some(e)
  }

  ghost predicate Touched(j: Key, k: Key, lo: nat, hi: nat, start: nat, end: nat) {
    j.level == 0 && InSlots(j, k, lo, hi) && InRange(j.index, start, end)
  }

  /** s' is s after op was applied to the pages of [start, end) in slots lo, ..., hi - 1 of k. */
  ghost predicate Visited(s: State, s': State, k: Key, lo: nat, hi: nat, start: nat, end: nat, op: RangeOp) {
    && s'.roots == s.roots && s'.anchored == s.anchored && s'.others == s.others
    && s'.mem.Keys == s.mem.Keys && s.free <= s'.free
    && (op != Unmapping ==> s'.free == s.free)
    && (forall j :: j in s'.tree ==> j in s.tree)
    && (forall j :: j in s.tree && (op != Unmapping || !InSlots(j, k, lo, hi)) ==> j in s'.tree)
    && (forall j :: j in s.tree && j.level == 0 && !Touched(j, k, lo, hi, start, end) ==> j in s'.tree)
    && (forall j :: j in s.tree && Touched(j, k, lo, hi, start, end) ==>
          (j in s'.tree <==> After(op, s.tree[j]).Some?))
    && (forall j :: j in s'.tree ==>
          if Touched(j, k, lo, hi, start, end) then Some(s'.tree[j]) == After(op, s.tree[j])
          else s'.tree[j] == s.tree[j])
  }

  /** Tables elsewhere keep their contents, and no table below k is left empty by the walk. */
  ghost predicate TablesKept(s: State, s': State, k: Key, lo: nat, hi: nat) {
    forall j :: j in s'.tree && j in s.tree && 1 <= j.level && j != k ==>
      if InSlots(j, k, lo, hi) then Empty(s'.mem, s.tree[j].frame) ==> Empty(s.mem, s.tree[j].frame)
      else s.tree[j].frame in s.mem && s.tree[j].frame in s'.mem && s'.mem[s.tree[j].frame] == s.mem[s.tree[j].frame]
  }

  ghost predicate NoTable(s: State, f: nat) {
    f in s.mem && (f in s.owner ==> s.owner[f].level == 0)
  }

  /** Frames that are no tables keep their contents, but a cleared page is zero. */
  ghost predicate DataKept(s: State, s': State, k: Key, lo: nat, hi: nat, start: nat, end: nat, op: RangeOp) {
    forall f :: NoTable(s, f) ==>
      && f in s'.mem
      && s'.mem[f] == if op == Clearing && f in s.owner && Touched(s.owner[f], k, lo, hi, start, end) then ZeroFrame()
                      else s.mem[f]
  }

  ghost predicate Walked(s: State, s': State, k: Key, lo: nat, hi: nat, start: nat, end: nat, op: RangeOp) {
    && Visited(s, s', k, lo, hi, start, end, op)
    && TablesKept(s, s', k, lo, hi)
    && DataKept(s, s', k, lo, hi, start, end, op)
  }

  /** The pages in the range that the slots of k lead to. */
  ghost function PagesIn(tree: map<Key, Pte>, k: Key, lo: nat, hi: nat, start: nat, end: nat): set<nat> {
    set p | 0 <= p < USER_LIMIT && Key(k.root, 0, p) in tree && Touched(Key(k.root, 0, p), k, lo, hi, start, end)
  }

  lemma NothingWalked(s: State, k: Key, lo: nat, start: nat, end: nat, op: RangeOp)
    requires Partition(s) && Inverse(s)
    ensures Walked(s, s, k, lo, lo, start, end, op)
    ensures PagesIn(s.tree, k, lo, lo, start, end) == {}
  {
  }

  /** Walking adjacent slots one after the other walks them all. */
  lemma VisitedThen(s: State, s1: State, s2: State, k: Key, lo: nat, mid: nat, hi: nat, start: nat, end: nat,
      op: RangeOp)
    requires lo <= mid <= hi && Visited(s, s1, k, lo, mid, start, end, op)
    requires Visited(s1, s2, k, mid, hi, start, end, op)
    ensures Visited(s, s2, k, lo, hi, start, end, op)
  {
    hide InRange;
    SlotsSplit(k, lo, mid, hi);
  }

  lemma SlotsSplit(k: Key, lo: nat, mid: nat, hi: nat)
    requires lo <= mid <= hi
    ensures forall j: Key :: InSlots(j, k, lo, hi) <==> InSlots(j, k, lo, mid) || InSlots(j, k, mid, hi)
    ensures forall j: Key :: !(InSlots(j, k, lo, mid) && InSlots(j, k, mid, hi))
  {
  }

  lemma OwnersStay(s: State, s1: State, f: nat)
    requires Inverse(s) && Inverse(s1) && s1.mem.Keys == s.mem.Keys
    requires forall j :: j in s1.tree ==> j in s.tree && s1.tree[j].frame == s.tree[j].frame
    ensures f in s1.owner ==> f in s.owner && s1.owner[f] == s.owner[f]
    ensures NoTable(s, f) ==> NoTable(s1, f)
  {
    if f in s1.owner { assert s1.owner[f] in s1.tree; }
  }

  lemma VisitedFrames(s: State, s': State, k: Key, lo: nat, hi: nat, start: nat, end: nat, op: RangeOp)
    requires Visited(s, s', k, lo, hi, start, end, op)
    ensures forall j :: j in s'.tree ==> j in s.tree && s'.tree[j].frame == s.tree[j].frame
    ensures forall j :: j in s'.tree && j.level >= 1 ==> s'.tree[j] == s.tree[j]
    ensures op != Unmapping ==> forall j :: j in s.tree ==> j in s'.tree
    ensures s'.mem.Keys == s.mem.Keys
  {
    hide InSlots, InRange;
  }

  lemma DataThen(s: State, s1: State, s2: State, k: Key, lo: nat, mid: nat, hi: nat, start: nat, end: nat, op: RangeOp)
    requires lo <= mid <= hi && Inverse(s) && Inverse(s1)
    requires Visited(s, s1, k, lo, mid, start, end, op)
    requires DataKept(s, s1, k, lo, mid, start, end, op) && DataKept(s1, s2, k, mid, hi, start, end, op)
    ensures DataKept(s, s2, k, lo, hi, start, end, op)
  {
    hide InSlots, InRange, Inverse, Visited;
    VisitedFrames(s, s1, k, lo, mid, start, end, op);
    SlotsSplit(k, lo, mid, hi);
    forall f | NoTable(s, f)
      ensures f in s2.mem
      ensures s2.mem[f] ==
              if op == Clearing && f in s.owner && Touched(s.owner[f], k, lo, hi, start, end) then ZeroFrame()
                           else s.mem[f]
    {
      OwnersStay(s, s1, f);
      if op == Clearing && f in s.owner { OwnerKept(s, s1, f); }
    }
  }

  lemma OwnerKept(s: State, s1: State, f: nat)
    requires Inverse(s) && Inverse(s1) && f in s.owner
    requires forall j :: j in s.tree ==> j in s1.tree && s1.tree[j].frame == s.tree[j].frame
    ensures f in s1.owner && s1.owner[f] == s.owner[f]
  {
    assert s.owner[f] in s1.tree;
  }

  lemma TablesThen(s: State, s1: State, s2: State, k: Key, lo: nat, mid: nat, hi: nat, start: nat, end: nat,
      op: RangeOp)
    requires lo <= mid <= hi
    requires Visited(s, s1, k, lo, mid, start, end, op) && Visited(s1, s2, k, mid, hi, start, end, op)
    requires TablesKept(s, s1, k, lo, mid) && TablesKept(s1, s2, k, mid, hi)
    ensures TablesKept(s, s2, k, lo, hi)
  {
    hide InSlots, InRange, Visited;
    VisitedFrames(s, s1, k, lo, mid, start, end, op);
    VisitedFrames(s1, s2, k, mid, hi, start, end, op);
    SlotsSplit(k, lo, mid, hi);
    forall j | j in s2.tree && j in s.tree && 1 <= j.level && j != k
      ensures if InSlots(j, k, lo, hi) then Empty(s2.mem, s.tree[j].frame) ==> Empty(s.mem, s.tree[j].frame)
              else s.tree[j].frame in s.mem && s.tree[j].frame in s2.mem
                   && s2.mem[s.tree[j].frame] == s.mem[s.tree[j].frame]
    {
      assert j in s1.tree;
      if !InSlots(j, k, mid, hi) { EmptySame(s1.mem, s2.mem, s.tree[j].frame); }
      if !InSlots(j, k, lo, mid) { EmptySame(s.mem, s1.mem, s.tree[j].frame); }
    }
  }

  lemma EmptySame(mem: Memory, mem': Memory, f: nat)
    requires f in mem && f in mem' && mem'[f] == mem[f]
    ensures Empty(mem', f) <==> Empty(mem, f)
  {
    forall i | 0 <= i < 512 ensures Entry(mem', f, i) == Entry(mem, f, i) {}
  }

  lemma WalkedThen(s: State, s1: State, s2: State, k: Key, lo: nat, mid: nat, hi: nat, start: nat, end: nat,
      op: RangeOp)
    requires lo <= mid <= hi && Inverse(s) && Inverse(s1)
    requires Walked(s, s1, k, lo, mid, start, end, op) && Walked(s1, s2, k, mid, hi, start, end, op)
    ensures Walked(s, s2, k, lo, hi, start, end, op)
  {
    hide Visited, TablesKept, DataKept, Inverse;
    VisitedThen(s, s1, s2, k, lo, mid, hi, start, end, op);
    TablesThen(s, s1, s2, k, lo, mid, hi, start, end, op);
    DataThen(s, s1, s2, k, lo, mid, hi, start, end, op);
  }

  /** The pages of adjacent slots add up; walking the first slots keeps those of the later ones. */
  lemma PagesThen(s: State, s1: State, k: Key, lo: nat, mid: nat, hi: nat, start: nat, end: nat, op: RangeOp)
    requires lo <= mid <= hi && Visited(s, s1, k, lo, mid, start, end, op)
    ensures |PagesIn(s.tree, k, lo, hi, start, end)| ==
              |PagesIn(s.tree, k, lo, mid, start, end)| + |PagesIn(s1.tree, k, mid, hi, start, end)|
  {
    hide InSlots, InRange;
    SlotsSplit(k, lo, mid, hi);
    var a, b := PagesIn(s.tree, k, lo, mid, start, end), PagesIn(s1.tree, k, mid, hi, start, end);
    assert PagesIn(s.tree, k, lo, hi, start, end) == a + b;
    assert a !! b;
  }

  /** All slots of a child are one slot of its parent. */
  lemma ChildSlots(k: Key, i: nat, hi: nat)
    requires k.level >= 1 && i < 512 && hi == i + 1
    ensures forall j: Key :: InSlots(j, k, i, hi) <==>
              j == Child(k, i) || (k.level >= 2 && InSlots(j, Child(k, i), 0, 512))
  {
    forall j: Key
      ensures InSlots(j, k, i, hi) <==> j == Child(k, i) || (k.level >= 2 && InSlots(j, Child(k, i), 0, 512))
    {
      if k.level >= 2 && j.level < k.level - 1 { LiftStep(j, k.level - 2); }
    }
  }

  lemma {:induction false} LiftStep(j: Key, l: nat)
    requires j.level <= l
    ensures Lift(j, l + 1) == Lift(j, l) / 512
    decreases l - j.level
  {
    if j.level < l { LiftStep(Parent(j), l); }
  }

  // ----- One slot -----

  lemma SlotSkipped(s: State, k: Key, i: nat, hi: nat, start: nat, end: nat, op: RangeOp)
    requires Inv(s) && hi == i + 1
    requires forall j :: j in s.tree ==> !Touched(j, k, i, hi, start, end)
    ensures Walked(s, s, k, i, hi, start, end, op)
    ensures |PagesIn(s.tree, k, i, hi, start, end)| == 0
  {
    hide InSlots, InRange, TreeOk, RootsOk;
    assert PagesIn(s.tree, k, i, hi, start, end) == {};
    forall f | NoTable(s, f) && f in s.owner ensures !Touched(s.owner[f], k, i, hi, start, end) {
      assert s.owner[f] in s.tree;
    }
  }

  /** Nothing is below a slot that holds no private entry. */
  lemma {:induction false} NoneBelow(s: State, k: Key, i: nat, j: Key)
    requires Inv(s) && 1 <= k.level <= 4 && i < 512 && Child(k, i) !in s.tree && j in s.tree
    ensures !InSlots(j, k, i, i + 1)
    decreases if j.level <= 4 then 4 - j.level else 0
  {
    if InSlots(j, k, i, i + 1) && j.level < k.level - 1 {
      assert KeyOk(s, j);
      NoneBelow(s, k, i, Parent(j));
    }
  }

  /** Bytes translated by one table of a level. */
  function Bytes(level: nat): nat
    requires level <= 4
  {
    match level
    case 0 => 0x1000
    case 1 => 0x20_0000
    case 2 => 0x4000_0000
    case 3 => 0x80_0000_0000
    case _ => 0x1_0000_0000_0000
  }

  lemma PageLift(p: Key, l: nat)
    requires p.level == 0 && l <= 3
    ensures Lift(p, l) * Bytes(l) <= p.index * 0x1000 < (Lift(p, l) + 1) * Bytes(l)
  {
    assert Lift(p, 0) == p.index;
    if l >= 1 { LiftStep(p, 0); }
    if l >= 2 { LiftStep(p, 1); }
    if l >= 3 { LiftStep(p, 2); }
  }

  /** A slot whose bytes lie outside the range leads to no page in it. */
  lemma SlotOutside(k: Key, i: nat, hi: nat, start: nat, end: nat, j: Key)
    requires 1 <= k.level <= 4 && i < 512 && hi == i + 1
    requires (k.index * 512 + i) * Bytes(k.level - 1) >= end || (k.index * 512 + hi) * Bytes(k.level - 1) <= start
    ensures !Touched(j, k, i, hi, start, end)
  {
    if j.level == 0 && InSlots(j, k, i, hi) {
      PageLift(j, k.level - 1);
      assert Lift(j, k.level - 1) == k.index * 512 + i;
    }
  }

  /** A page whose bytes meet the page-aligned range lies in it. */
  lemma PageInside(k: Key, i: nat, hi: nat, start: nat, end: nat)
    requires k.level == 1 && i < 512 && hi == i + 1 && start % 0x1000 == 0 && end % 0x1000 == 0
    requires (k.index * 512 + i) * 0x1000 < end && (k.index * 512 + hi) * 0x1000 > start
    ensures forall j: Key :: Touched(j, k, i, hi, start, end) <==> j == Child(k, i)
  {
    ChildSlots(k, i, hi);
  }

  /** One page of s is visited by op, in place. */
  ghost predicate PageStep(s: State, s': State, c: Key, op: RangeOp) {
    && c in s.tree && c.level == 0 && IsTable(s, Parent(c))
    && match op
       case Counting => s' == s
       case Unmapping => s' == Freed(Unlinked(s, c), s.tree[c].frame)
       case Changing(f) => s' == Reflagged(s, c, Protected(s.tree[c], f))
       case Clearing => s' == s.(mem := s.mem[s.tree[c].frame := ZeroFrame()])
  }

  /** The page behind a slot of a last-level table, when nothing but its entry, or its contents, changes. */
  lemma PageVisited(s: State, s': State, k: Key, i: nat, hi: nat, start: nat, end: nat, op: RangeOp)
    requires Inv(s) && k in s.tree && k.level == 1 && i < 512 && hi == i + 1 && PageStep(s, s', Child(k, i), op)
    requires forall j: Key :: Touched(j, k, i, hi, start, end) <==> j == Child(k, i)
    ensures Walked(s, s', k, i, hi, start, end, op)
    ensures |PagesIn(s.tree, k, i, hi, start, end)| == 1
  {
    var c := Child(k, i);
    assert Parent(c) == k;
    TreeIndex(s, c);
    ChildSlots(k, i, hi);
    PageVisitedTree(s, s', k, c, i, hi, start, end, op);
    PageVisitedData(s, s', k, c, i, hi, start, end, op);
    hide InSlots, InRange, Inv, Touched, Visited, PageStep;
    assert PagesIn(s.tree, k, i, hi, start, end) == {c.index};
  }

  lemma PageVisitedTree(s: State, s': State, k: Key, c: Key, i: nat, hi: nat, start: nat, end: nat, op: RangeOp)
    requires Partition(s) && Inverse(s) && PageStep(s, s', c, op) && Parent(c) == k
    requires forall j: Key :: Touched(j, k, i, hi, start, end) <==> j == c
    requires forall j: Key :: InSlots(j, k, i, hi) <==> j == c
    ensures Visited(s, s', k, i, hi, start, end, op)
  {
    hide InSlots, InRange, Touched;
  }

  lemma PageVisitedData(s: State, s': State, k: Key, c: Key, i: nat, hi: nat, start: nat, end: nat, op: RangeOp)
    requires Partition(s) && Inverse(s) && PageStep(s, s', c, op) && Parent(c) == k
    requires forall j: Key :: Touched(j, k, i, hi, start, end) <==> j == c
    requires forall j: Key :: InSlots(j, k, i, hi) <==> j == c
    ensures TablesKept(s, s', k, i, hi) && DataKept(s, s', k, i, hi, start, end, op)
  {
    hide InSlots, InRange, Touched;
  }

  /** A child table is walked and then given up if the walk unmapped its last entry. */
  ghost predicate ChildStep(s1: State, s2: State, c: Key, op: RangeOp) {
    && c in s1.tree && IsTable(s1, Parent(c))
    && if op == Unmapping && Empty(s1.mem, s1.tree[c].frame) then s2 == Freed(Unlinked(s1, c), s1.tree[c].frame) else s2 == s1
  }

  lemma ChildVisited(s: State, s1: State, s2: State, k: Key, i: nat, hi: nat, start: nat, end: nat, op: RangeOp)
    requires Inv(s) && Inv(s1) && 2 <= k.level <= 4 && i < 512 && hi == i + 1 && k.root in s.anchored
    requires Child(k, i) in s.tree && Walked(s, s1, Child(k, i), 0, 512, start, end, op)
    requires ChildStep(s1, s2, Child(k, i), op)
    ensures Walked(s, s2, k, i, hi, start, end, op)
    ensures PagesIn(s.tree, k, i, hi, start, end) == PagesIn(s.tree, Child(k, i), 0, 512, start, end)
  {
    hide InSlots, InRange, Partition, Inverse, TreeOk, RootsOk, Visited, TablesKept, DataKept;
    var c := Child(k, i);
    assert Parent(c) == k;
    ChildSlots(k, i, hi);
    ChildVisitedTree(s, s1, s2, k, c, i, hi, start, end, op);
    ChildVisitedTables(s, s1, s2, k, c, i, hi, start, end, op);
    ChildVisitedData(s, s1, s2, k, c, i, hi, start, end, op);
  }

  lemma ChildVisitedTree(s: State, s1: State, s2: State, k: Key, c: Key, i: nat, hi: nat, start: nat, end: nat,
      op: RangeOp)
    requires Partition(s1) && Inverse(s1) && c.level >= 1 && ChildStep(s1, s2, c, op)
    requires Visited(s, s1, c, 0, 512, start, end, op)
    requires forall j: Key :: InSlots(j, k, i, hi) <==> j == c || InSlots(j, c, 0, 512)
    ensures Visited(s, s2, k, i, hi, start, end, op)
  {
    hide InSlots, InRange, IsTable, Empty;
  }

  lemma ChildVisitedData(s: State, s1: State, s2: State, k: Key, c: Key, i: nat, hi: nat, start: nat, end: nat,
      op: RangeOp)
    requires Partition(s) && Inverse(s) && Inverse(s1) && 1 <= c.level && ChildStep(s1, s2, c, op)
    requires Visited(s, s1, c, 0, 512, start, end, op) && DataKept(s, s1, c, 0, 512, start, end, op)
    requires forall j: Key :: InSlots(j, k, i, hi) <==> j == c || InSlots(j, c, 0, 512)
    ensures DataKept(s, s2, k, i, hi, start, end, op)
  {
    hide InSlots, InRange, Visited, Inverse;
    VisitedFrames(s, s1, c, 0, 512, start, end, op);
    if s2 != s1 {
      TableIsOwned(s1, Parent(c));
      forall f | NoTable(s, f) ensures f != s1.tree[Parent(c)].frame { OwnersStay(s, s1, f); }
    }
  }

  lemma TableIsOwned(s: State, k: Key)
    requires Inverse(s) && IsTable(s, k)
    ensures s.tree[k].frame in s.owner && s.owner[s.tree[k].frame] == k && !NoTable(s, s.tree[k].frame)
  {
  }

  lemma ChildVisitedTables(s: State, s1: State, s2: State, k: Key, c: Key, i: nat, hi: nat, start: nat, end: nat,
      op: RangeOp)
    requires Inv(s) && Inv(s1) && 1 <= c.level <= 3 && Parent(c) == k && c.root in s.anchored
    requires ChildStep(s1, s2, c, op)
    requires Visited(s, s1, c, 0, 512, start, end, op) && TablesKept(s, s1, c, 0, 512)
    requires forall j: Key :: InSlots(j, k, i, hi) <==> j == c || InSlots(j, c, 0, 512)
    ensures TablesKept(s, s2, k, i, hi)
  {
    hide InSlots, InRange, Visited, Inv;
    VisitedFrames(s, s1, c, 0, 512, start, end, op);
    VisitedAnchors(s, s1, c, 0, 512, start, end, op);
    forall j | j in s2.tree && j in s.tree && 1 <= j.level && j != k
      ensures if InSlots(j, k, i, hi) then Empty(s2.mem, s.tree[j].frame) ==> Empty(s.mem, s.tree[j].frame)
              else s.tree[j].frame in s.mem && s.tree[j].frame in s2.mem
                   && s2.mem[s.tree[j].frame] == s.mem[s.tree[j].frame]
    {
      assert j in s1.tree && s1.tree[j] == s.tree[j];
      if j == c {
        if op != Unmapping { ChildNotEmptied(s, s1, c); }
      } else {
        TableFrame(s, j);
        TableFrame(s1, j);
        if s2 != s1 { OtherFrame(s1, j, k); }
        EmptySame(s1.mem, s2.mem, s.tree[j].frame);
      }
    }
  }

  lemma OtherFrame(s: State, j: Key, k: Key)
    requires Inv(s) && j in s.tree && k in s.tree && j != k
    ensures s.tree[j].frame != s.tree[k].frame
  {
  }

  lemma VisitedAnchors(s: State, s': State, k: Key, lo: nat, hi: nat, start: nat, end: nat, op: RangeOp)
    requires Visited(s, s', k, lo, hi, start, end, op)
    ensures s'.anchored == s.anchored && s'.roots == s.roots && s.free <= s'.free && s'.others == s.others
    ensures s'.mem.Keys == s.mem.Keys
  {
    hide InSlots, InRange;
  }

  /** Changing pages in place leaves a table as full as it was. */
  lemma ChildNotEmptied(s: State, s1: State, c: Key)
    requires Inv(s) && Inv(s1) && c in s.tree && c in s1.tree && 1 <= c.level <= 3
    requires c.root in s.anchored && s1.anchored == s.anchored
    requires forall j :: j in s.tree ==> j in s1.tree
    ensures Empty(s1.mem, s1.tree[c].frame) ==> Empty(s.mem, s.tree[c].frame)
  {
    hide Inv;
    FilledTable(s, c);
    FilledTable(s1, c);
  }

  // ----- What the recursive methods use -----

  lemma NothingWalkedYet(s: State, k: Key, start: nat, end: nat, op: RangeOp)
    requires Inv(s)
    ensures Walked(s, s, k, 0, 0, start, end, op) && |PagesIn(s.tree, k, 0, 0, start, end)| == 0
  {
    NothingWalked(s, k, 0, start, end, op);
  }

  lemma WalkedNext(s: State, s1: State, s2: State, k: Key, i: nat, start: nat, end: nat, op: RangeOp)
    requires Inv(s) && Inv(s1) && Walked(s, s1, k, 0, i, start, end, op) && Walked(s1, s2, k, i, i + 1, start, end, op)
    ensures Walked(s, s2, k, 0, i + 1, start, end, op)
    ensures |PagesIn(s.tree, k, 0, i + 1, start, end)| ==
              |PagesIn(s.tree, k, 0, i, start, end)| + |PagesIn(s1.tree, k, i, i + 1, start, end)|
  {
    hide Inv;
    assert Inverse(s) && Inverse(s1) by { InverseOf(s); InverseOf(s1); }
    hide Visited, TablesKept, DataKept, PagesIn;
    WalkedThen(s, s1, s2, k, 0, i, i + 1, start, end, op);
    PagesThen(s, s1, k, 0, i, i + 1, start, end, op);
  }

  lemma InverseOf(s: State)
    requires Inv(s)
    ensures Inverse(s)
  {
  }

  lemma BytesStep(k: Key, i: nat, base: nat)
    requires 1 <= k.level <= 4 && base == k.index * Bytes(k.level)
    ensures base + i * Bytes(k.level - 1) == (k.index * 512 + i) * Bytes(k.level - 1)
    ensures base + i * Bytes(k.level - 1) + Bytes(k.level - 1) == (k.index * 512 + (i + 1)) * Bytes(k.level - 1)
  {
  }

  /** The private entry of a slot is the child of the table. */
  lemma SlotEntry(s: State, k: Key, i: nat)
    requires Inv(s) && k in s.tree && 1 <= k.level <= 4 && i < 512
    ensures s.tree[k].frame in s.mem && |s.mem[s.tree[k].frame]| == 512
    ensures Child(k, i) in s.tree <==> Private(s.mem[s.tree[k].frame][i], k.level - 1)
    ensures Child(k, i) in s.tree ==> s.tree[Child(k, i)] == s.mem[s.tree[k].frame][i] && Parent(Child(k, i)) == k
    ensures s.mem[s.tree[k].frame][i].present && s.mem[s.tree[k].frame][i].user ==> Child(k, i) in s.tree
  {
    assert SlotOk(s, k, i);
    assert Parent(Child(k, i)) == k;
    if Child(k, i) in s.tree { assert KeyOk(s, Child(k, i)); }
  }

  lemma NoneTouched(s: State, k: Key, i: nat, start: nat, end: nat, j: Key)
    requires Inv(s) && 1 <= k.level <= 4 && i < 512 && Child(k, i) !in s.tree && j in s.tree
    ensures !Touched(j, k, i, i + 1, start, end)
  {
    NoneBelow(s, k, i, j);
  }

  lemma VisitedRoots(s: State, s': State, k: Key, lo: nat, hi: nat, start: nat, end: nat, op: RangeOp)
    requires Walked(s, s', k, lo, hi, start, end, op)
    ensures s'.anchored == s.anchored && s'.roots == s.roots
    ensures forall j :: j in s.tree && j.level >= k.level ==> j in s'.tree && s'.tree[j] == s.tree[j]
  {
    VisitedAnchors(s, s', k, lo, hi, start, end, op);
  }

  // ----- Destroying what hangs from a table -----

  /** s' is s without anything that hangs from slots lo, ..., hi - 1 of k. */
  ghost predicate Gone(s: State, s': State, k: Key, lo: nat, hi: nat) {
    && s'.roots == s.roots && s'.anchored == s.anchored && s'.others == s.others
    && s'.mem.Keys == s.mem.Keys && s.free <= s'.free
    && (forall j :: j in s'.tree ==> j in s.tree && s'.tree[j] == s.tree[j])
    && (forall j :: j in s.tree ==> (j in s'.tree <==> !InSlots(j, k, lo, hi)))
    && (forall f :: NoTable(s, f) ==> f in s'.mem && s'.mem[f] == s.mem[f])
  }

  const ALL := 0x1_0000_0000_0000

  lemma NothingGone(s: State, k: Key)
    requires Inv(s)
    ensures Gone(s, s, k, 0, 0) && |PagesIn(s.tree, k, 0, 0, 0, ALL)| == 0
  {
    NothingWalked(s, k, 0, 0, ALL, Counting);
  }

  lemma GoneNext(s: State, s1: State, s2: State, k: Key, i: nat, hi: nat)
    requires Inv(s) && Inv(s1) && hi == i + 1 && Gone(s, s1, k, 0, i) && Gone(s1, s2, k, i, hi)
    ensures Gone(s, s2, k, 0, hi)
    ensures |PagesIn(s.tree, k, 0, hi, 0, ALL)| ==
            |PagesIn(s.tree, k, 0, i, 0, ALL)| + |PagesIn(s1.tree, k, i, hi, 0, ALL)|
  {
    hide InSlots, TreeOk, RootsOk, Partition, Inverse, PagesIn;
    SlotsSplit(k, 0, i, hi);
    forall f | NoTable(s, f) ensures NoTable(s1, f) { OwnersStay(s, s1, f); }
    GonePagesIn(s, s1, k, i, hi);
  }

  lemma GonePagesIn(s: State, s1: State, k: Key, i: nat, hi: nat)
    requires hi == i + 1 && Gone(s, s1, k, 0, i)
    ensures |PagesIn(s.tree, k, 0, hi, 0, ALL)| ==
            |PagesIn(s.tree, k, 0, i, 0, ALL)| + |PagesIn(s1.tree, k, i, hi, 0, ALL)|
  {
    hide InSlots, InRange, NoTable;
    SlotsSplit(k, 0, i, hi);
    var a, b := PagesIn(s.tree, k, 0, i, 0, ALL), PagesIn(s1.tree, k, i, hi, 0, ALL);
    assert PagesIn(s.tree, k, 0, hi, 0, ALL) == a + b;
    assert a !! b;
  }

  /** A slot without private entry has nothing to destroy. */
  lemma SlotGone(s: State, k: Key, i: nat, hi: nat)
    requires Inv(s) && 1 <= k.level <= 4 && i < 512 && hi == i + 1 && Child(k, i) !in s.tree
    ensures Gone(s, s, k, i, hi) && |PagesIn(s.tree, k, i, hi, 0, ALL)| == 0
  {
    forall j | j in s.tree ensures !InSlots(j, k, i, hi) { NoneBelow(s, k, i, j); }
    hide Inv, InSlots, InRange;
    assert PagesIn(s.tree, k, i, hi, 0, ALL) == {};
  }

  lemma ChildGone(s: State, s1: State, s2: State, k: Key, i: nat, hi: nat)
    requires Inv(s) && Inv(s1) && 1 <= k.level <= 4 && i < 512 && hi == i + 1 && Child(k, i) in s.tree
    requires if k.level >= 2 then Gone(s, s1, Child(k, i), 0, 512) else s1 == s
    requires Child(k, i) in s1.tree && IsTable(s1, k) && Parent(Child(k, i)) == k
    requires s2 == Freed(Unlinked(s1, Child(k, i)), s1.tree[Child(k, i)].frame)
    ensures Gone(s, s2, k, i, hi)
    ensures |PagesIn(s.tree, k, i, hi, 0, ALL)| ==
              if k.level >= 2 then |PagesIn(s.tree, Child(k, i), 0, 512, 0, ALL)| else 1
  {
    ChildSlots(k, i, hi);
    TreeIndex(s, Child(k, i));
    hide TreeOk, RootsOk, Gone, PagesIn, InSlots;
    ChildGoneCount(s, k, i, hi);
    ChildGoneTree(s, s1, s2, k, Child(k, i), i, hi);
  }

  lemma ChildGoneCount(s: State, k: Key, i: nat, hi: nat)
    requires 1 <= k.level && i < 512 && Child(k, i) in s.tree && (k.level == 1 ==> Child(k, i).index < USER_LIMIT)
    requires forall j: Key :: InSlots(j, k, i, hi) <==>
               j == Child(k, i) || (k.level >= 2 && InSlots(j, Child(k, i), 0, 512))
    ensures |PagesIn(s.tree, k, i, hi, 0, ALL)| ==
              if k.level >= 2 then |PagesIn(s.tree, Child(k, i), 0, 512, 0, ALL)| else 1
  {
    hide InSlots;
    var c := Child(k, i);
    if k.level >= 2 {
      assert PagesIn(s.tree, k, i, hi, 0, ALL) == PagesIn(s.tree, c, 0, 512, 0, ALL);
    } else {
      assert PagesIn(s.tree, k, i, hi, 0, ALL) == {c.index};
    }
  }

  lemma ChildGoneTree(s: State, s1: State, s2: State, k: Key, c: Key, i: nat, hi: nat)
    requires Inverse(s) && Partition(s1) && Inverse(s1) && 1 <= k.level && k.level == c.level + 1
    requires if k.level >= 2 then Gone(s, s1, c, 0, 512) else s1 == s
    requires c in s1.tree && IsTable(s1, k) && Parent(c) == k && s2 == Freed(Unlinked(s1, c), s1.tree[c].frame)
    requires forall j: Key :: InSlots(j, k, i, hi) <==> j == c || (k.level >= 2 && InSlots(j, c, 0, 512))
    ensures Gone(s, s2, k, i, hi)
  {
    hide InSlots;
    TableIsOwned(s1, k);
    forall f | NoTable(s, f) ensures f != s1.tree[k].frame { OwnersStay(s, s1, f); }
  }

  lemma ChildInSlots(j: Key, c: Key)
    requires c.level >= 1
    ensures Parent(j) == c ==> InSlots(j, c, 0, 512)
  {
  }

  lemma ChildAlone(s: State, s1: State, k: Key, i: nat)
    requires Inv(s) && Inv(s1) && 1 <= k.level <= 4 && i < 512 && Child(k, i) in s.tree
    requires if k.level >= 2 then Gone(s, s1, Child(k, i), 0, 512) else s1 == s
    requires k.level >= 2 || Child(k, i) in s1.tree
    ensures Child(k, i) in s1.tree && s1.tree[Child(k, i)] == s.tree[Child(k, i)] && NoChild(s1, Child(k, i))
  {
    var c := Child(k, i);
    forall j | j in s1.tree && j.level < 4 ensures Parent(j) != c {
      if c.level >= 1 { ChildInSlots(j, c); }
    }
  }

  // ----- From all slots of a root to its map of pages -----

  /** Every Key of a root hangs from it. */
  lemma {:induction false} InRoot(s: State, j: Key)
    requires Inv(s) && j in s.tree && j.level <= 3
    ensures InSlots(j, Key(j.root, 4, 0), 0, 512)
    decreases 4 - j.level
  {
    TreeIndex(s, j);
    assert KeyOk(s, j);
    if j.level < 3 { InRoot(s, Parent(j)); }
  }

  function InRangeMap(pages: PageMap, start: nat, end: nat, op: RangeOp): PageMap {
    map p | p in pages && (op == Unmapping ==> !InRange(p, start, end)) ::
      if op.Changing? && InRange(p, start, end) then FlaggedLeaf(pages[p].frame, op.flags) else pages[p]
  }

  /** The pages of a map that lie in a range. */
  function PagesBetween(pages: PageMap, start: nat, end: nat): set<nat> {
    set p | p in pages && InRange(p, start, end)
  }

  lemma TouchedPages(s: State, root: nat, start: nat, end: nat, p: nat)
    requires Inv(s) && Key(root, 0, p) in s.tree
    ensures Touched(Key(root, 0, p), Key(root, 4, 0), 0, 512, start, end) <==> InRange(p, start, end)
    ensures USER_FIRST <= p < USER_LIMIT
  {
    InRoot(s, Key(root, 0, p));
    TreeIndex(s, Key(root, 0, p));
  }

  lemma WalkedTreePages(s: State, s': State, root: nat, start: nat, end: nat, op: RangeOp)
    requires Inv(s) && Inv(s') && Visited(s, s', Key(root, 4, 0), 0, 512, start, end, op)
    ensures TreePages(s'.tree, root) == InRangeMap(TreePages(s.tree, root), start, end, op)
    ensures PagesIn(s.tree, Key(root, 4, 0), 0, 512, start, end) == PagesBetween(TreePages(s.tree, root), start, end)
  {
    hide Inv, InSlots, InRange, Touched;
    forall p | Key(root, 0, p) in s.tree
      ensures Touched(Key(root, 0, p), Key(root, 4, 0), 0, 512, start, end) <==> InRange(p, start, end)
    {
      TouchedPages(s, root, start, end, p);
    }
  }

  lemma WalkedPages(s: State, s': State, root: nat, start: nat, end: nat, op: RangeOp)
    requires Inv(s) && Inv(s') && root in s.roots && Walked(s, s', Key(root, 4, 0), 0, 512, start, end, op)
    ensures View(s'.mem, root) == InRangeMap(View(s.mem, root), start, end, op)
    ensures OthersKept(s, s', root)
    ensures PagesIn(s.tree, Key(root, 4, 0), 0, 512, start, end) == PagesBetween(View(s.mem, root), start, end)
  {
    hide Inv, View, Walk, TreePages, TablesKept, DataKept, Visited, InRangeMap, PagesIn, PagesBetween;
    VisitedAnchors(s, s', Key(root, 4, 0), 0, 512, start, end, op);
    ViewIsTree(s, root);
    ViewIsTree(s', root);
    WalkedTreePages(s, s', root, start, end, op);
    forall r | r in s.roots && r != root ensures View(s'.mem, r) == View(s.mem, r) {
      OtherTreesKept(s, s', root, r, start, end, op);
      SamePages(s, s', r);
    }
  }

  lemma OtherTreesKept(s: State, s': State, root: nat, r: nat, start: nat, end: nat, op: RangeOp)
    requires r != root && Visited(s, s', Key(root, 4, 0), 0, 512, start, end, op)
    ensures forall j: Key :: j.root == r ==>
              (j in s.tree <==> j in s'.tree) && (j in s.tree ==> s'.tree[j] == s.tree[j])
  {
    hide InRange;
  }

  /** No private table of the root is empty. */
  ghost predicate Filled(s: State, root: nat) {
    forall j :: j in s.tree && j.root == root && 1 <= j.level <= 3 ==> !Empty(s.mem, s.tree[j].frame)
  }

  lemma WalkedFilled(s: State, s': State, root: nat, r: nat, start: nat, end: nat, op: RangeOp)
    requires Inv(s) && Inv(s') && Walked(s, s', Key(root, 4, 0), 0, 512, start, end, op)
    ensures Filled(s, r) ==> Filled(s', r)
  {
    hide Inv, InSlots, InRange, Visited, DataKept, Empty;
    VisitedFrames(s, s', Key(root, 4, 0), 0, 512, start, end, op);
    if Filled(s, r) {
      forall j | j in s'.tree && j.root == r && 1 <= j.level <= 3 ensures !Empty(s'.mem, s'.tree[j].frame) {
        assert j in s.tree && s'.tree[j] == s.tree[j];
        if !InSlots(j, Key(root, 4, 0), 0, 512) { EmptySame(s.mem, s'.mem, s.tree[j].frame); }
      }
    }
  }

  lemma GonePages(s: State, s': State, root: nat)
    requires Inv(s) && Inv(s') && root in s.roots && Gone(s, s', Key(root, 4, 0), 0, 512)
    ensures forall j :: j in s'.tree && j.root == root ==> j == Key(root, 4, 0)
    ensures forall j :: j in s.tree && j.root != root ==> j in s'.tree && s'.tree[j] == s.tree[j]
  {
    forall j | j in s'.tree && j.root == root ensures j == Key(root, 4, 0) {
      assert KeyOk(s', j);
      if j.level <= 3 { InRoot(s, j); }
    }
  }

  predicate ValidRange(root: nat, start: nat, end: nat) {
    root != 0 && start % 0x1000 == 0 && end % 0x1000 == 0 && start < end && UserBounds(start, end - start)
  }

  lemma WalkedFree(s: State, s': State, k: Key, start: nat, end: nat, op: RangeOp)
    requires Walked(s, s', k, 0, 512, start, end, op)
    ensures s.free <= s'.free && (op != Unmapping ==> s'.free == s.free)
  {
    hide TablesKept, DataKept, InSlots, InRange;
  }

  lemma CountNext(s: State, k: Key, i: nat, hi: nat)
    requires Inv(s) && hi == i + 1
    ensures |PagesIn(s.tree, k, 0, hi, 0, ALL)| ==
            |PagesIn(s.tree, k, 0, i, 0, ALL)| + |PagesIn(s.tree, k, i, hi, 0, ALL)|
  {
    hide Inv, InSlots, InRange;
    SlotsSplit(k, 0, i, hi);
    var a, b := PagesIn(s.tree, k, 0, i, 0, ALL), PagesIn(s.tree, k, i, hi, 0, ALL);
    assert PagesIn(s.tree, k, 0, hi, 0, ALL) == a + b;
    assert a !! b;
  }

  lemma SlotCount(s: State, k: Key, i: nat, hi: nat)
    requires Inv(s) && 1 <= k.level <= 4 && i < 512 && hi == i + 1 && Child(k, i) in s.tree
    ensures |PagesIn(s.tree, k, i, hi, 0, ALL)| ==
              if k.level >= 2 then |PagesIn(s.tree, Child(k, i), 0, 512, 0, ALL)| else 1
  {
    ChildSlots(k, i, hi);
    TreeIndex(s, Child(k, i));
    ChildGoneCount(s, k, i, hi);
  }

  lemma GoneKeeps(s: State, s1: State, k: Key, i: nat)
    requires Inv(s) && Inv(s1) && 1 <= k.level <= 4 && i < 512 && k in s.tree
    requires if k.level >= 2 then Gone(s, s1, Child(k, i), 0, 512) else s1 == s
    ensures k in s1.tree && s1.tree[k] == s.tree[k] && s1.anchored == s.anchored
  {
  }

  lemma CountedPages(s: State, root: nat)
    requires Inv(s) && root in s.roots
    ensures PagesIn(s.tree, Key(root, 4, 0), 0, 512, 0, ALL) == View(s.mem, root).Keys
  {
    hide View, Walk, Inv;
    ViewIsTree(s, root);
    forall p | 0 <= p < USER_LIMIT && Key(root, 0, p) in s.tree
      ensures Touched(Key(root, 0, p), Key(root, 4, 0), 0, 512, 0, ALL)
    {
      TouchedPages(s, root, 0, ALL, p);
    }
  }

  /** The frames that a root reaches. */
  ghost function FramesOf(s: State, root: nat): set<nat> {
    set f | f in s.owner && s.owner[f].root == root
  }

  lemma Unanchor(s: State, root: nat)
    requires Inv(s)
    ensures Inv(s.(anchored := s.anchored - {root}))
  {
    var s' := s.(anchored := s.anchored - {root});
    forall k | k in s.tree ensures KeyOk(s', k) { assert KeyOk(s, k); }
    forall k, i | k in s.tree && k.level >= 1 && 0 <= i < 512 ensures SlotOk(s', k, i) { assert SlotOk(s, k, i); }
  }

  lemma FramesPartition(s: State, s': State, root: nat)
    requires Partition(s) && Inverse(s) && Partition(s') && Inverse(s')
    requires s'.mem.Keys == s.mem.Keys && s'.others == s.others
    requires forall k :: k in s'.tree <==> k in s.tree && k.root != root
    requires forall k :: k in s'.tree ==> s'.tree[k] == s.tree[k]
    ensures s'.free == s.free + FramesOf(s, root)
  {
    forall f ensures f in s'.owner <==> f in s.owner && s.owner[f].root != root {
      if f in s'.owner { assert s'.owner[f] in s.tree; }
      if f in s.owner && s.owner[f].root != root { assert s.owner[f] in s'.tree; }
    }
  }

  /** What is left when everything below a root and the root itself have gone. */
  lemma Destroyed(s: State, s': State, root: nat)
    requires Inv(s) && Inv(s') && root in s.roots
    requires s'.mem.Keys == s.mem.Keys && s'.others == s.others && s'.roots == s.roots - {root}
    requires forall k :: k in s'.tree <==> k in s.tree && k.root != root
    requires forall k :: k in s'.tree ==> s'.tree[k] == s.tree[k]
    ensures s'.free == s.free + FramesOf(s, root)
    ensures forall r :: r in s'.roots ==> View(s'.mem, r) == View(s.mem, r)
  {
    hide TreeOk, RootsOk, View, Walk;
    FramesPartition(s, s', root);
    hide Partition, Inverse;
    forall r | r in s'.roots ensures View(s'.mem, r) == View(s.mem, r) { SamePages(s, s', r); }
  }

  lemma ScratchWrite(s: State, f: nat, slot: nat, e: Pte)
    requires Inv(s) && f in s.others && f in s.mem && slot < |s.mem[f]|
    ensures Inv(s.(mem := Write(s.mem, f, slot, e)))
  {
    hide TreeOk, RootsOk;
    ContentsKeep(s, s.(mem := Write(s.mem, f, slot, e)), f);
  }

  lemma GoneFacts(s: State, s': State, root: nat)
    requires Inv(s) && Inv(s') && root in s.roots && Gone(s, s', Key(root, 4, 0), 0, 512)
    ensures s'.roots == s.roots && s'.anchored == s.anchored && s'.others == s.others && s'.mem.Keys == s.mem.Keys
    ensures forall j :: j in s'.tree && j.root == root ==> j == Key(root, 4, 0)
    ensures forall j :: j in s.tree && j.root != root ==> j in s'.tree
    ensures forall j :: j in s'.tree ==> j in s.tree && s'.tree[j] == s.tree[j]
  {
    GonePages(s, s', root);
  }

  lemma OthersInMemory(s: State, f: nat)
    requires Inv(s) && f in s.others
    ensures f in s.mem && |s.mem[f]| == 512
  {
  }

  lemma FreeFrames(s: State)
    requires Inv(s)
    ensures 0 !in s.free && s.free !! s.others && s.free <= s.mem.Keys
  {
  }

  lemma TwoFree(free: set<nat>, a: nat)
    requires a in free
    ensures free - {a} == {} <==> |free| < 2
  {
    assert |free| == |free - {a}| + 1;
  }

  lemma CreatedOwners(s1: State, s2: State, a: nat, b: nat)
    requires (forall f :: f in s1.owner ==> s1.owner[f].root != a) && s2 == Rooted(s1, a, b)
    ensures FramesOf(s2, a) == {a, b}
  {
  }

  lemma CreatedFrames(s0: State, s1: State, s2: State, a: nat, b: nat)
    requires Partition(s0) && (forall f :: f in s0.owner ==> s0.owner[f].root != a) && s2 == Rooted(s1, a, b)
    requires s1.owner == s0.owner && a in s0.free && b in s0.free && a != b
    requires s1.free == s0.free - {a, b} && s1.others == s0.others + {a, b}
    ensures s2.others == s0.others && s0.free == s2.free + FramesOf(s2, a) && |s2.free| == |s0.free| - 2
  {
    hide FramesOf;
    CreatedOwners(s1, s2, a, b);
    assert s2.free == s0.free - {a} - {b};
  }

  lemma Created(s0: State, s1: State, s2: State, a: nat, b: nat)
    requires Inv(s0) && Inv(s1) && Inv(s2) && s2 == Rooted(s1, a, b)
    requires s1.roots == s0.roots && s1.tree == s0.tree && s1.owner == s0.owner
    requires a in s0.free && b in s0.free && a != b && s1.free == s0.free - {a, b} && s1.others == s0.others + {a, b}
    requires RootFrames(s1.mem, a, b)
    ensures forall r :: r in s0.roots ==> r in s2.roots && View(s2.mem, r) == View(s0.mem, r)
    ensures a !in s0.roots && View(s2.mem, a) == map[] && Filled(s2, a) && s2.others == s0.others
    ensures s0.free == s2.free + FramesOf(s2, a) && |s2.free| == |s0.free| - 2
  {
    hide Inv, View, Walk, RootFrames, Filled, Rooted;
    NoKeyOf(s1, a);
    NoFrameOf(s0, a);
    CreatedFrames(s0, s1, s2, a, b);
    CreatedTree(s1, s2, a, b);
    forall r | r in s0.roots ensures View(s2.mem, r) == View(s0.mem, r) { SamePages(s0, s2, r); }
    ViewIsTree(s2, a);
  }

  lemma CreatedTree(s1: State, s2: State, a: nat, b: nat)
    requires s2 == Rooted(s1, a, b) && RootFrames(s1.mem, a, b) && forall k :: k in s1.tree ==> k.root != a
    ensures Filled(s2, a) && s2.roots == s1.roots + {a}
    ensures forall k :: k in s2.tree && k.root == a ==> k.level >= 3
    ensures forall k :: k in s1.tree ==> k in s2.tree && s2.tree[k] == s1.tree[k]
    ensures forall k :: k in s2.tree && k.root != a ==> k in s1.tree
  {
    assert Entry(s2.mem, b, 0).present;
  }

  lemma NoFrameOf(s: State, a: nat)
    requires Inv(s) && (forall k :: k in s.tree ==> k.root != a)
    ensures Partition(s) && forall f :: f in s.owner ==> s.owner[f].root != a
  {
  }

  /** Unmapping a page leaves no table empty that was not. */
  lemma ShrunkFilled(s: State, s': State, root: nat, va: nat, r: nat)
    requires Inv(s) && Inv(s') && Shrunk(s, s', root, va) && PathFilled(s', root, va) && s.anchored == s.roots
    requires Filled(s, r)
    ensures Filled(s', r)
  {
    hide Inv, Empty;
    forall j | j in s'.tree && j.root == r && 1 <= j.level <= 3 ensures !Empty(s'.mem, s'.tree[j].frame) {
      if j != KeyAt(root, va, j.level) {
        KeyRoot(s, j);
        FilledTable(s, j);
        FilledTable(s', j);
        if i: nat :| i < 512 && Child(j, i) in s.tree {
          if Child(j, i) !in s'.tree {
            PathParent(root, va, j, i);
          }
        }
      }
    }
  }

  lemma KeyRoot(s: State, j: Key)
    requires Inv(s) && j in s.tree
    ensures j.root in s.roots
  {
    assert KeyOk(s, j);
  }

  lemma PathParent(root: nat, va: nat, j: Key, i: nat)
    requires 1 <= j.level <= 3 && i < 512 && Child(j, i) == KeyAt(root, va, j.level - 1) && va < ALL
    ensures j == KeyAt(root, va, j.level)
  {
    KeyAtParent(root, va, j.level - 1);
    assert Parent(Child(j, i)) == j;
  }

  /** Mapping a page leaves no table empty that was not. */
  lemma MappedFilled(s0: State, s1: State, s2: State, root: nat, va: nat, e: Pte, r: nat)
    requires Inv(s0) && Inv(s2) && Grown(s0, s1, root, va) && UserAddress(va) && s0.anchored == s0.roots
    requires s2.roots == s0.roots && s2.anchored == s0.anchored
    requires s2.tree == s1.tree[KeyAt(root, va, 0) := e] && KeyAt(root, va, 1) in s1.tree
    requires Filled(s0, r)
    ensures Filled(s2, r)
  {
    hide Inv, Empty;
    PathTables(s2, root, va);
    forall j | j in s2.tree && j.root == r && 1 <= j.level <= 3 ensures !Empty(s2.mem, s2.tree[j].frame) {
      FilledTable(s2, j);
      if j in s0.tree {
        KeyRoot(s0, j);
        FilledTable(s0, j);
      } else {
        KeyAtParent(root, va, j.level - 1);
        var c := KeyAt(root, va, j.level - 1);
        assert c in s2.tree && Child(j, c.index % 512) == c;
      }
    }
  }

  lemma PathTables(s: State, root: nat, va: nat)
    requires Inv(s) && UserAddress(va) && KeyAt(root, va, 0) in s.tree
    ensures KeyAt(root, va, 1) in s.tree && KeyAt(root, va, 2) in s.tree && KeyAt(root, va, 3) in s.tree
  {
    hide Inv;
    forall l | 0 <= l < 3 ensures KeyAt(root, va, l) in s.tree ==> KeyAt(root, va, l + 1) in s.tree {
      KeyAtParent(root, va, l);
      if KeyAt(root, va, l) in s.tree { ParentInTree(s, KeyAt(root, va, l)); }
    }
    assert KeyAt(root, va, 0 + 1) in s.tree;
    assert KeyAt(root, va, 1 + 1) in s.tree;
    assert KeyAt(root, va, 2 + 1) in s.tree;
  }

  lemma SameTreesFilled(s: State, s': State, r: nat)
    requires Inv(s) && Inv(s') && s'.anchored == s.anchored && s.anchored == s.roots
    requires forall k :: k in s.tree <==> k in s'.tree
    requires Filled(s, r)
    ensures Filled(s', r)
  {
    hide Inv, Empty;
    forall j | j in s'.tree && j.root == r && 1 <= j.level <= 3 ensures !Empty(s'.mem, s'.tree[j].frame) {
      KeyRoot(s, j);
      FilledTable(s, j);
      FilledTable(s', j);
    }
  }

  /** No root is half built, and no private table anywhere is empty. */
  ghost predicate AllFilled(s: State) {
    s.anchored == s.roots && forall r :: r in s.roots ==> Filled(s, r)
  }

  lemma FilledPathOf(s: State, root: nat, va: nat)
    requires AllFilled(s) && root in s.roots
    ensures PathFilled(s, root, va)
  {
    hide Empty;
  }

  lemma AllFilledSame(s: State, s': State)
    requires Inv(s) && Inv(s') && s'.anchored == s.anchored && s'.roots == s.roots && AllFilled(s)
    requires forall k :: k in s.tree <==> k in s'.tree
    ensures AllFilled(s')
  {
    hide Inv, Filled;
    forall r | r in s.roots ensures Filled(s', r) { SameTreesFilled(s, s', r); }
  }

  lemma AllFilledShrunk(s: State, s': State, root: nat, va: nat)
    requires Inv(s) && Inv(s') && Shrunk(s, s', root, va) && PathFilled(s', root, va) && AllFilled(s)
    ensures AllFilled(s')
  {
    hide Inv, Filled, PathFilled;
    forall r | r in s.roots ensures Filled(s', r) { ShrunkFilled(s, s', root, va, r); }
  }

  lemma AllFilledMapped(s0: State, s1: State, s2: State, root: nat, va: nat, e: Pte)
    requires Inv(s0) && Inv(s2) && Grown(s0, s1, root, va) && UserAddress(va) && AllFilled(s0)
    requires s2.roots == s0.roots && s2.anchored == s0.anchored
    requires s2.tree == s1.tree[KeyAt(root, va, 0) := e] && KeyAt(root, va, 1) in s1.tree
    ensures AllFilled(s2)
  {
    hide Inv, Filled, Grown;
    forall r | r in s0.roots ensures Filled(s2, r) { MappedFilled(s0, s1, s2, root, va, e, r); }
  }

  /** Frames that hold data keep their contents. */
  ghost predicate DataSame(s: State, s': State) {
    forall f :: DataFrame(s, f) ==> f in s'.mem && s'.mem[f] == s.mem[f]
  }

  lemma DataSameFrom(s: State, s': State)
    requires Inv(s) && (forall f :: NoTable(s, f) ==> f in s'.mem && s'.mem[f] == s.mem[f])
    ensures DataSame(s, s')
  {
  }

  lemma ShrunkData(s: State, s': State, root: nat, va: nat)
    requires Shrunk(s, s', root, va)
    ensures DataSame(s, s') && SameFrames(s, s')
  {
  }

  lemma ShrunkRoots(s: State, s': State, root: nat, va: nat)
    requires Shrunk(s, s', root, va)
    ensures s'.roots == s.roots && s'.anchored == s.anchored
  {
  }

  lemma GrownFrames(s: State, s': State, root: nat, va: nat)
    requires Grown(s, s', root, va)
    ensures SameFrames(s, s')
  {
  }

  lemma RollbackData(s0: State, s1: State, s2: State, root: nat, va: nat)
    requires Grown(s0, s1, root, va) && DataSame(s1, s2)
    ensures DataSame(s0, s2)
  {
  }

  lemma MappedData(s0: State, s1: State, s2: State, root: nat, va: nat)
    requires Grown(s0, s1, root, va) && (forall g :: DataFrame(s1, g) ==> DataFrame(s2, g) && s2.mem[g] == s1.mem[g])
    ensures DataSame(s0, s2)
  {
  }

  lemma RangeData(s: State, s': State, k: Key, start: nat, end: nat, op: RangeOp)
    requires Inv(s) && op != Clearing && DataKept(s, s', k, 0, 512, start, end, op)
    ensures DataSame(s, s')
  {
    hide Inv, Touched;
  }

  lemma UnlinkNoTables(s: State, k: Key, f: nat)
    requires Inverse(s) && IsTable(s, Parent(k)) && k in s.tree && NoTable(s, f)
    ensures NoTable(Unlinked(s, k), f) && Unlinked(s, k).mem[f] == s.mem[f]
  {
    TableIsOwned(s, Parent(k));
  }

  lemma LinkNoTables(s: State, k: Key, e: Pte, f: nat)
    requires Inverse(s) && IsTable(s, Parent(k)) && k.level == 0 && NoTable(s, f)
    ensures NoTable(Linked(s, k, e), f) && Linked(s, k, e).mem[f] == s.mem[f]
  {
    TableIsOwned(s, Parent(k));
  }

  lemma ClearingKeepsMap(pages: PageMap, start: nat, end: nat)
    ensures InRangeMap(pages, start, end, Clearing) == pages
  {
  }

  ghost predicate KeysKept(tree: map<Key, Pte>, tree': map<Key, Pte>) {
    forall k :: k in tree ==> k in tree' && tree'[k] == tree[k]
  }

  lemma MappedKeys(s0: State, s1: State, s2: State, root: nat, va: nat, e: Pte)
    requires Grown(s0, s1, root, va) && KeyAt(root, va, 0) !in s0.tree && s2.tree == s1.tree[KeyAt(root, va, 0) := e]
    ensures KeysKept(s0.tree, s2.tree) && s1.others == s0.others && s1.mem.Keys == s0.mem.Keys
  {
  }

  /** A page has been mapped: its key and those of its tables are in the tree, and no others are new. */
  lemma MappedTree(s0: State, s1: State, s2: State, root: nat, va: nat, e: Pte)
    requires Grown(s0, s1, root, va) && Inv(s2) && UserAddress(va) && s2.tree == s1.tree[KeyAt(root, va, 0) := e]
    ensures forall k :: k in s2.tree <==> k in s0.tree || (k.level <= 3 && k == KeyAt(root, va, k.level))
  {
    hide Inv;
    forall l: nat | 1 <= l <= 3 ensures KeyAt(root, va, l) in s2.tree {
      if KeyAt(root, va, l) !in s2.tree { TablesAbove(s2, root, va, l, 0); }
    }
  }

  /** The frames under management, and those of other owners, are the same. */
  ghost predicate SameFrames(s: State, s': State) {
    s'.others == s.others && s'.mem.Keys == s.mem.Keys
  }

  lemma RollbackOthers(s0: State, s1: State, s2: State, root: nat, va: nat)
    requires Grown(s0, s1, root, va) && Shrunk(s1, s2, root, va)
    ensures s2.others == s0.others && s2.mem.Keys == s0.mem.Keys
  {
  }

  /** Filled tables are determined by the pages: no Key is there without a page below it. */
  lemma {:induction false} CanonicalKey(s: State, s': State, k: Key)
    requires Inv(s) && Inv(s') && AllFilled(s) && s'.anchored == s.anchored && s'.roots == s.roots
    requires forall j :: j in s.tree && j.level == 0 ==> j in s'.tree
    requires k in s.tree
    ensures k in s'.tree
    decreases k.level
  {
    hide Inv, Empty;
    KeyRoot(s, k);
    if k.level >= 4 {
      RootOnPath(s', k.root, 0);
      LevelBound(s, k);
    } else if k.level >= 1 {
      FilledTable(s, k);
      if k == Key(k.root, 3, 0) {
        AnchoredKey(s', k.root);
      } else {
        var i: nat :| i < 512 && Child(k, i) in s.tree;
        CanonicalKey(s, s', Child(k, i));
        ParentInTree(s', Child(k, i));
        ChildOfParent(k, i, Child(k, i));
      }
    }
  }

  lemma LevelBound(s: State, k: Key)
    requires Inv(s) && k in s.tree
    ensures k.level <= 4 && (k.level == 4 ==> k.index == 0)
  {
    assert KeyOk(s, k);
  }

  /** Keys of a filled tree survive the unmapping of a page that the tree does not have. */
  lemma {:induction false} ShrunkKeepsFilled(s0: State, s: State, s': State, root: nat, va: nat, k: Key)
    requires Inv(s0) && Inv(s') && AllFilled(s0) && UserAddress(va) && s'.anchored == s0.anchored
    requires KeysKept(s0.tree, s.tree) && Shrunk(s, s', root, va) && KeyAt(root, va, 0) !in s0.tree
    requires k in s0.tree
    ensures k in s'.tree && s'.tree[k] == s0.tree[k]
    decreases k.level
  {
    hide Inv, Empty;
    KeyRoot(s0, k);
    if k !in s'.tree {
      FilledTable(s0, k);
      if k == Key(k.root, 3, 0) {
        AnchoredKey(s', k.root);
      } else {
        var i: nat :| i < 512 && Child(k, i) in s0.tree;
        ShrunkKeepsFilled(s0, s, s', root, va, Child(k, i));
        ParentInTree(s', Child(k, i));
        ChildOfParent(k, i, Child(k, i));
      }
    }
  }

  /** Whatever was built and given back in between, the same pages in filled trees leave the
      same frames free. */
  lemma FreeRestored(s: State, s': State)
    requires Inv(s) && Inv(s') && AllFilled(s) && AllFilled(s') && s'.anchored == s.anchored && s'.roots == s.roots
    requires KeysKept(s.tree, s'.tree) && s'.others == s.others && s'.mem.Keys == s.mem.Keys
    requires forall j :: j in s'.tree && j.level == 0 ==> j in s.tree
    ensures s'.tree == s.tree && s'.free == s.free
  {
    hide TreeOk, RootsOk, AllFilled, Partition, Inverse;
    forall k | k in s'.tree ensures k in s.tree { CanonicalKey(s', s, k); }
    FreeFollowsTree(s, s');
  }

  lemma RootFramesFilled(mem: Memory, a: nat, b: nat, window: Pte, heap: Pte, framebuffer: Pte, low: Pte)
    requires a in mem && b in mem && a != b && mem[a] == ZeroFrame() && mem[b] == ZeroFrame()
    requires !window.user && !heap.user && !framebuffer.user && !low.user && low.present
    ensures RootFrames(Write(Write(Write(Write(Write(mem, a, 0, RootEntry(b)), a, 256, window), a, 384, heap), a, 385, framebuffer),
                             b, 0, low), a, b)
  {
  }
}
