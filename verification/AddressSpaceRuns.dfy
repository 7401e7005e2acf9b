/** Whole runs of the virtual-memory operations: what the methods of AddressSpace do to all
    roots together is a step over finite maps, and every run of such steps keeps the
    properties below. */
module AddressSpaceRuns {
  import opened PageTables
  import opened TableSteps
  import opened RangeWalk
  import opened AddressSpace

  /** The pages of every live root. */
  type Spaces = map<nat, PageMap>

  /** A request; the root 0 stands for a null pointer. */
  datatype Op =
    | OpCreate
    | OpDestroy(root: nat)
    | OpMap(root: nat, va: nat, flags: Flags)
    | OpUnmap(root: nat, va: nat)
    | OpProtect(root: nat, va: nat, flags: Flags)
    | OpReadOnly(root: nat, va: nat)
    | OpPrepare(root: nat, va: nat)
    | OpMove(dst: nat, src: nat, va: nat)
    | OpUnmapRange(root: nat, start: nat, end: nat)
    | OpChangeRange(root: nat, start: nat, end: nat, flags: Flags)
    | OpClearRange(root: nat, start: nat, end: nat)

  /** Requests name live roots, or none. */
  predicate Names(m: Spaces, op: Op) {
    match op
    case OpCreate => true
    case OpMove(dst, src, _) => (dst == 0 || dst in m) && (src == 0 || src in m)
    case _ => op.root == 0 || op.root in m
  }

  /** The page map after a request on one root that can fail only for want of memory. */
  ghost predicate PageStep1(pages: PageMap, op: Op, pages': PageMap) {
    match op
    case OpMap(_, va, f) =>
      if UserAddress(va) && va % 0x1000 == 0 && UserPermissions(f) && va / 0x1000 !in pages
      then pages' == pages || exists frame: nat :: pages' == pages[va / 0x1000 := FlaggedLeaf(frame, f)]
      else pages' == pages
    case OpUnmap(_, va) => pages' == if UserAddress(va) then pages - {va / 0x1000} else pages
    case OpProtect(_, va, f) =>
      pages' == if UserAddress(va) && va % 0x1000 == 0 && UserPermissions(f) && va / 0x1000 in pages
                then pages[va / 0x1000 := FlaggedLeaf(pages[va / 0x1000].frame, f)] else pages
    case OpReadOnly(_, va) =>
      pages' == if UserAddress(va) && va % 0x1000 == 0 && va / 0x1000 in pages && !pages[va / 0x1000].noaccess
                then pages[va / 0x1000 := pages[va / 0x1000].(write := false)] else pages
    case OpUnmapRange(root, start, end) =>
      pages' == if ValidRange(root, start, end) then InRangeMap(pages, start, end, Unmapping) else pages
    case OpChangeRange(root, start, end, f) =>
      pages' == if ValidRange(root, start, end) && UserPermissions(f) then InRangeMap(pages, start, end, Changing(f))
                else pages
    case _ => pages' == pages
  }

  /** One request against the maps of all roots. */
  ghost predicate Step(m: Spaces, op: Op, m': Spaces) {
    match op
    case OpCreate => m' == m || exists r: nat :: r !in m && m' == m[r := map[]]
    case OpDestroy(root) => m' == m - {root}
    case OpMove(dst, src, va) =>
      if va % 0x1000 == 0 && dst != src && dst in m && src in m && va / 0x1000 in m[src]
      then m' == m || m' == m[src := m[src] - {va / 0x1000}][dst := m[dst][va / 0x1000 := m[src][va / 0x1000]]]
      else m' == m
    case _ =>
      m'.Keys == m.Keys && forall r :: r in m && r in m' ==>
        if r == op.root then PageStep1(m[r], op, m'[r]) else m'[r] == m[r]
  }

  ghost function SpacesIn(s: State): Spaces {
    map r | r in s.roots :: View(s.mem, r)
  }

  /** A request for a new page that only a want of memory can refuse. */
  ghost predicate Mappable(s: State, root: nat, va: nat, f: Flags) {
    root in s.roots && UserAddress(va) && va % 0x1000 == 0 && UserPermissions(f) && va / 0x1000 !in View(s.mem, root)
  }

  /** A request to move a page that is there. */
  ghost predicate Movable(s: State, dst: nat, src: nat, va: nat) {
    && va % 0x1000 == 0 && dst != src && dst in s.roots && src in s.roots && UserAddress(va)
    && va / 0x1000 in View(s.mem, src)
  }

  /** When a request succeeds: a new root takes two frames, a new page one and one for each missing table, and a page
      moves when the target has the tables. */
  ghost predicate Effect(s: State, op: Op, s': State) {
    match op
    case OpCreate =>
      if |s.free| < 2 then s'.roots == s.roots && s'.free == s.free
      else s'.roots != s.roots && |s'.free| == |s.free| - 2
    case OpMap(root, va, f) =>
      Mappable(s, root, va, f) ==>
        var needed := 4 - Depth(s.tree, root, va);
        if |s.free| < needed then View(s'.mem, root) == View(s.mem, root)
        else
          && |s'.free| == |s.free| - needed
          && exists p :: p in s.free && View(s'.mem, root) == View(s.mem, root)[va / 0x1000 := FlaggedLeaf(p, f)]
    case OpMove(dst, src, va) =>
      if Movable(s, dst, src, va) && KeyAt(dst, va, 1) in s.tree then
        && View(s'.mem, src) == View(s.mem, src) - {va / 0x1000}
        && View(s'.mem, dst) == View(s.mem, dst)[va / 0x1000 := View(s.mem, src)[va / 0x1000]]
      else s' == s
    case OpPrepare(root, va) =>
      root in s.roots && UserAddress(va) && va % 0x1000 == 0 && |s.free| >= 3 - Depth(s.tree, root, va) ==>
        KeyAt(root, va, 1) in s'.tree
    case OpClearRange(root, start, end) =>
      ValidRange(root, start, end) ==> DataKept(s, s', Key(root, 4, 0), 0, 512, start, end, Clearing)
    case _ => true
  }

  /** One request against memory: the step on the maps, and when it succeeds. */
  ghost predicate Performed(s: State, op: Op, s': State) {
    Step(SpacesIn(s), op, SpacesIn(s')) && Effect(s, op, s')
  }

  /** Carries out a request on a single root. */
  method PerformOnRoot(m: PhysicalMemory, op: Op)
    requires m.Valid() && m.anchored == m.roots && !op.OpCreate? && !op.OpDestroy? && !op.OpMove?
    requires op.root == 0 || op.root in m.roots
    modifies m
    ensures m.Valid() && m.anchored == old(m.anchored) && m.roots == old(m.roots) && SameFrames(old(m.S()), m.S())
    ensures op.root == 0 ==> forall r :: r in m.roots ==> m.Pages(r) == old(m.Pages(r))
    ensures op.root != 0 ==>
              PageStep1(old(m.Pages(op.root)), op, m.Pages(op.root)) && OthersKept(old(m.S()), m.S(), op.root)
    ensures Effect(old(m.S()), op, m.S())
  {
    hide Inv, View, Walk, AllFilled, Filled, PathFilled, Depth, KeyAt, DataSame, Shrunk, DataKept, InRangeMap, KeysKept;
    RootsNotNull(m.S());
    match op
    case OpMap(root, va, f) =>
      var _ := m.Map(root, va, f);
    case OpUnmap(root, va) =>
      m.Unmap(root, va);
    case OpProtect(root, va, f) =>
      var _ := m.Protect(root, va, f);
    case OpReadOnly(root, va) =>
      var _ := m.ReadOnly(root, va);
    case OpPrepare(root, va) =>
      var _ := m.Prepare(root, va);
    case OpUnmapRange(root, start, end) =>
      m.UnmapRange(root, start, end);
    case OpChangeRange(root, start, end, f) =>
      m.ChangeRange(root, start, end, f);
    case OpClearRange(root, start, end) =>
      m.ClearRange(root, start, end);
  }

  /** Carries out one request; window, heap, framebuffer and low are the kernel's shared entries. */
  method Perform(m: PhysicalMemory, op: Op, window: Pte, heap: Pte, framebuffer: Pte, low: Pte) returns (created: nat)
    requires m.Valid() && m.anchored == m.roots && Names(SpacesIn(m.S()), op)
    requires !window.user && !heap.user && !framebuffer.user && !low.user && low.present
    modifies m
    ensures m.Valid() && m.anchored == m.roots && SameFrames(old(m.S()), m.S())
    ensures Performed(old(m.S()), op, m.S())
    ensures if op.OpCreate? && |old(m.free)| >= 2 then created != 0 && m.roots == old(m.roots) + {created} else created == 0
  {
    hide Inv, View, Walk, Step, Effect, PageStep1, OthersKept;
    created := 0;
    RootsNotNull(m.S());
    if op.OpCreate? {
      created := PerformCreate(m, window, heap, framebuffer, low);
    } else if op.OpDestroy? {
      PerformDestroy(m, op.root);
    } else if op.OpMove? {
      PerformMove(m, op);
    } else {
      PerformOnRoot(m, op);
      OnRootStep(old(m.S()), op, m.S());
    }
  }

  lemma OnRootStep(s: State, op: Op, s': State)
    requires !op.OpCreate? && !op.OpDestroy? && !op.OpMove? && s'.roots == s.roots && 0 !in s.roots
    requires op.root == 0 ==> forall r :: r in s.roots ==> View(s'.mem, r) == View(s.mem, r)
    requires op.root != 0 ==> PageStep1(View(s.mem, op.root), op, View(s'.mem, op.root)) && OthersKept(s, s', op.root)
    ensures Step(SpacesIn(s), op, SpacesIn(s'))
  {
    hide View, PageStep1;
  }

  method PerformCreate(m: PhysicalMemory, window: Pte, heap: Pte, framebuffer: Pte, low: Pte) returns (root: nat)
    requires m.Valid() && m.anchored == m.roots
    requires !window.user && !heap.user && !framebuffer.user && !low.user && low.present
    modifies m
    ensures m.Valid() && m.anchored == m.roots && SameFrames(old(m.S()), m.S())
    ensures Performed(old(m.S()), OpCreate, m.S())
    ensures if |old(m.free)| >= 2 then root != 0 && m.roots == old(m.roots) + {root} else root == 0
  {
    hide Inv, View, Walk, Filled, DataSame, FramesOf;
    ghost var before := SpacesIn(m.S());
    root := m.Create(window, heap, framebuffer, low);
    assert SpacesIn(m.S()) == if root == 0 then before else before[root := map[]];
  }

  method PerformDestroy(m: PhysicalMemory, root: nat)
    requires m.Valid() && m.anchored == m.roots && Names(SpacesIn(m.S()), OpDestroy(root))
    modifies m
    ensures m.Valid() && m.anchored == m.roots && SameFrames(old(m.S()), m.S())
    ensures Performed(old(m.S()), OpDestroy(root), m.S())
  {
    hide Inv, View, Walk, DataSame, FramesOf;
    RootsNotNull(m.S());
    m.Destroy(root);
  }

  method PerformMove(m: PhysicalMemory, op: Op)
    requires m.Valid() && m.anchored == m.roots && op.OpMove? && Names(SpacesIn(m.S()), op)
    modifies m
    ensures m.Valid() && m.anchored == m.roots && SameFrames(old(m.S()), m.S())
    ensures Performed(old(m.S()), op, m.S())
  {
    hide Inv, View, Walk, DataSame, KeyAt;
    RootsNotNull(m.S());
    var r := m.MovePage(op.dst, op.src, op.va);
  }

  lemma RootsNotNull(s: State)
    requires Inv(s)
    ensures 0 !in s.roots
  {
    AnchoredRoots(s);
  }

  /** trace records memory before and after each request of a run. */
  ghost predicate Run(trace: seq<State>, ops: seq<Op>) {
    && |trace| == |ops| + 1
    && forall i :: 0 <= i < |ops| ==> Performed(trace[i], ops[i], trace[i + 1])
  }

  predicate WriteOrExecute(pages: PageMap) {
    forall p :: p in pages ==> !(pages[p].write && pages[p].exec)
  }

  ghost predicate NoneWritableExecutable(m: Spaces) {
    forall r :: r in m ==> WriteOrExecute(m[r])
  }

  predicate AsksJit(op: Op) {
    match op
    case OpMap(_, _, f) => f.jit
    case OpProtect(_, _, f) => f.jit
    case OpChangeRange(_, _, _, f) => f.jit
    case _ => false
  }

  lemma StepWriteOrExecute(m: Spaces, op: Op, m': Spaces)
    requires Step(m, op, m') && !AsksJit(op) && NoneWritableExecutable(m)
    ensures NoneWritableExecutable(m')
  {
    forall r | r in m' ensures WriteOrExecute(m'[r]) {
      if r in m { assert WriteOrExecute(m[r]); }
      if op.OpMove? && op.src in m { assert WriteOrExecute(m[op.src]); }
      if op.OpMove? && op.dst in m { assert WriteOrExecute(m[op.dst]); }
    }
  }

  /** Over every run, a page that is writable and executable goes back to a request that
      passed the JIT flag. */
  lemma {:induction false} WritableExecutableNeedsJit(trace: seq<State>, ops: seq<Op>)
    requires Run(trace, ops) && NoneWritableExecutable(SpacesIn(trace[0]))
    requires !NoneWritableExecutable(SpacesIn(trace[|ops|]))
    ensures exists i :: 0 <= i < |ops| && AsksJit(ops[i])
  {
    hide Step, Effect, NoneWritableExecutable, SpacesIn;
    if ops == [] {
      assert false;
    } else {
      var last := |ops| - 1;
      if NoneWritableExecutable(SpacesIn(trace[last])) {
        assert Performed(trace[last], ops[last], trace[last + 1]);
        if !AsksJit(ops[last]) { StepWriteOrExecute(SpacesIn(trace[last]), ops[last], SpacesIn(trace[|ops|])); }
      } else {
        WritableExecutableNeedsJit(trace[..|ops|], ops[..last]);
        var i :| 0 <= i < last && AsksJit(ops[..last][i]);
        assert AsksJit(ops[i]);
      }
    }
  }

  /** No frame backs two pages, of one root or of two, and none of them is free. */
  lemma FramesApart(s: State, r: nat, p: nat, r': nat, p': nat)
    requires Inv(s) && r in s.roots && r' in s.roots && p in View(s.mem, r) && p' in View(s.mem, r')
    ensures View(s.mem, r)[p].frame !in s.free
    ensures View(s.mem, r)[p].frame == View(s.mem, r')[p'].frame ==> r == r' && p == p'
  {
    hide TreeOk, RootsOk, View, Walk;
    ViewIsTree(s, r);
    ViewIsTree(s, r');
  }

  /** Between two moments without live roots nothing has leaked and nothing was freed twice:
      the free frames are the same. */
  lemma NothingLeaks(s: State, s': State)
    requires Inv(s) && Inv(s') && SameFrames(s, s') && s.roots == {} && s'.roots == {}
    ensures s'.free == s.free
  {
    forall f ensures f !in s.owner { assert f in s.owner ==> KeyOk(s, s.owner[f]); }
    forall f ensures f !in s'.owner { assert f in s'.owner ==> KeyOk(s', s'.owner[f]); }
  }

  // ----- Whole runs -----

  /** The root of a handle; the null pointer when there is none. */
  function RootAt(live: seq<nat>, handle: nat): nat {
    if handle < |live| then live[handle] else 0
  }

  /** A request whose roots are handles, with the roots themselves. */
  function Resolved(op: Op, live: seq<nat>): Op {
    match op
    case OpCreate => op
    case OpDestroy(h) => OpDestroy(RootAt(live, h))
    case OpMap(h, va, f) => OpMap(RootAt(live, h), va, f)
    case OpUnmap(h, va) => OpUnmap(RootAt(live, h), va)
    case OpProtect(h, va, f) => OpProtect(RootAt(live, h), va, f)
    case OpReadOnly(h, va) => OpReadOnly(RootAt(live, h), va)
    case OpPrepare(h, va) => OpPrepare(RootAt(live, h), va)
    case OpMove(dst, src, va) => OpMove(RootAt(live, dst), RootAt(live, src), va)
    case OpUnmapRange(h, start, end) => OpUnmapRange(RootAt(live, h), start, end)
    case OpChangeRange(h, start, end, f) => OpChangeRange(RootAt(live, h), start, end, f)
    case OpClearRange(h, start, end) => OpClearRange(RootAt(live, h), start, end)
  }

  /** The handles after a root is gone. */
  function Without(live: seq<nat>, root: nat): (r: seq<nat>)
    ensures forall x :: x in r ==> x in live && x != root
  {
    if live == [] then []
    else if live[|live| - 1] == root then Without(live[..|live| - 1], root)
    else Without(live[..|live| - 1], root) + [live[|live| - 1]]
  }

  ghost predicate AllLive(live: seq<nat>, m: Spaces) { forall r :: r in live ==> r in m }

  lemma ResolvedNames(op: Op, live: seq<nat>, m: Spaces)
    requires AllLive(live, m)
    ensures Names(m, Resolved(op, live)) && AsksJit(Resolved(op, live)) == AsksJit(op)
  {
    forall h: nat ensures RootAt(live, h) == 0 || RootAt(live, h) in m { }
  }

  /** Only a destroyed root goes. */
  lemma StillLive(m: Spaces, op: Op, m': Spaces, r: nat)
    requires Step(m, op, m') && r in m && op != OpDestroy(r)
    ensures r in m'
  {
    hide PageStep1;
  }

  /** The handles after a request: a created root is added, a destroyed one goes. */
  ghost predicate HandlesAfter(live: seq<nat>, s: State, op: Op, s': State, live': seq<nat>) {
    match op
    case OpCreate =>
      if s'.roots == s.roots then live' == live
      else exists r :: r !in s.roots && s'.roots == s.roots + {r} && live' == live + [r]
    case OpDestroy(root) => live' == Without(live, root)
    case _ => live' == live
  }

  /** Request i is the one asked for, on the roots that its handles name then. */
  ghost predicate AsAsked(ops: seq<Op>, done: seq<Op>, trace: seq<State>, lives: seq<seq<nat>>, i: nat)
    requires i < |ops| && |done| == |ops| && |trace| == |ops| + 1 && |lives| == |ops| + 1
  {
    done[i] == Resolved(ops[i], lives[i]) && HandlesAfter(lives[i], trace[i], done[i], trace[i + 1], lives[i + 1])
  }

  ghost predicate AllAsAsked(ops: seq<Op>, done: seq<Op>, trace: seq<State>, lives: seq<seq<nat>>) {
    && |done| == |ops| && |trace| == |ops| + 1 && |lives| == |ops| + 1
    && forall i: nat :: i < |ops| ==> AsAsked(ops, done, trace, lives, i)
  }

  /** Any sequence of requests, each on the roots that its handles name then.  It is a run: the requests are those asked
      for, each is a step over the finite maps and succeeds exactly when memory allows; all frames are accounted for, so
      when no root lives before and after, the free frames are the same. */
  method PerformAll(m: PhysicalMemory, ops: seq<Op>, handles: seq<nat>, window: Pte, heap: Pte, framebuffer: Pte,
      low: Pte)
    returns (live: seq<nat>, ghost trace: seq<State>, ghost done: seq<Op>, ghost lives: seq<seq<nat>>)
    requires m.Valid() && m.anchored == m.roots && AllLive(handles, SpacesIn(m.S()))
    requires !window.user && !heap.user && !framebuffer.user && !low.user && low.present
    modifies m
    ensures m.Valid() && m.anchored == m.roots && SameFrames(old(m.S()), m.S()) && AllLive(live, SpacesIn(m.S()))
    ensures AllAsAsked(ops, done, trace, lives) && lives[0] == handles && lives[|ops|] == live
    ensures Run(trace, done) && trace[0] == old(m.S()) && trace[|ops|] == m.S()
    ensures old(m.roots) == {} && m.roots == {} ==> m.free == old(m.free)
    ensures old(m.roots) == {} && (forall i :: 0 <= i < |ops| ==> !AsksJit(ops[i])) ==>
              NoneWritableExecutable(SpacesIn(m.S()))
  {
    hide Inv, View, Walk, Performed, Names, FramesOf, SameFrames, Resolved, WriteOrExecute, AsksJit, HandlesAfter,
      AsAsked;
    live, trace, done, lives := handles, [m.S()], [], [handles];
    FramesSelf(m.S());
    assert ops[..0] == [];
    for i := 0 to |ops|
      invariant m.Valid() && m.anchored == m.roots && SameFrames(old(m.S()), m.S()) && AllLive(live, SpacesIn(m.S()))
      invariant |done| == i && Run(trace, done) && trace[0] == old(m.S()) && trace[i] == m.S()
      invariant AllAsAsked(ops[..i], done, trace, lives) && lives[0] == handles && lives[i] == live
      invariant forall j :: 0 <= j < i ==> AsksJit(done[j]) == AsksJit(ops[j])
    {
      ghost var s, was := m.S(), live;
      var op := Resolved(ops[i], live);
      ResolvedNames(ops[i], live, SpacesIn(s));
      var created := Perform(m, op, window, heap, framebuffer, low);
      FramesThen(old(m.S()), s, m.S());
      LiveAfter(s, op, m.S(), live, created);
      live := (if op.OpDestroy? then Without(live, op.root) else live) + if created != 0 then [created] else [];
      RunNext(trace, done, op, m.S());
      assert ops[..i + 1] == ops[..i] + [ops[i]];
      AskedNext(ops[..i], done, trace, lives, ops[i], op, m.S(), live);
      trace, done, lives := trace + [m.S()], done + [op], lives + [live];
    }
    assert ops[..|ops|] == ops;
    if old(m.roots) == {} && m.roots == {} { NothingLeaks(old(m.S()), m.S()); }
    if old(m.roots) == {} && !NoneWritableExecutable(SpacesIn(m.S())) { WritableExecutableNeedsJit(trace, done); }
  }

  /** What the handles become, and that they still name live roots. */
  lemma LiveAfter(s: State, op: Op, s': State, live: seq<nat>, created: nat)
    requires Inv(s) && Performed(s, op, s') && AllLive(live, SpacesIn(s))
    requires if op.OpCreate? && |s.free| >= 2 then created != 0 && s'.roots == s.roots + {created} else created == 0
    ensures
      var live' := (if op.OpDestroy? then Without(live, op.root) else live) + if created != 0 then [created] else [];
      AllLive(live', SpacesIn(s')) && HandlesAfter(live, s, op, s', live')
  {
    hide View, PageStep1, Inv;
    var live' := (if op.OpDestroy? then Without(live, op.root) else live) + if created != 0 then [created] else [];
    forall r | r in live && op != OpDestroy(r)
      ensures r in SpacesIn(s') { StillLive(SpacesIn(s), op, SpacesIn(s'), r); }
    if op.OpCreate? && created != 0 { assert created !in s.roots; }
  }

  lemma AskedNext(ops: seq<Op>, done: seq<Op>, trace: seq<State>, lives: seq<seq<nat>>, ask: Op, op: Op, s: State,
      live: seq<nat>)
    requires AllAsAsked(ops, done, trace, lives)
    requires op == Resolved(ask, lives[|ops|]) && HandlesAfter(lives[|ops|], trace[|ops|], op, s, live)
    ensures AllAsAsked(ops + [ask], done + [op], trace + [s], lives + [live])
  {
    hide Resolved, HandlesAfter;
    forall i: nat | i < |ops| + 1 ensures AsAsked(ops + [ask], done + [op], trace + [s], lives + [live], i) {
      if i < |ops| { assert AsAsked(ops, done, trace, lives, i); }
    }
  }

  lemma RunNext(trace: seq<State>, done: seq<Op>, op: Op, s: State)
    requires Run(trace, done) && Performed(trace[|done|], op, s)
    ensures Run(trace + [s], done + [op])
  {
    hide Performed;
  }

  lemma FramesSelf(s: State)
    ensures SameFrames(s, s)
  {
  }

  lemma FramesThen(s0: State, s1: State, s2: State)
    requires SameFrames(s0, s1) && SameFrames(s1, s2)
    ensures SameFrames(s0, s2)
  {
  }
}
