/** What creating, removing and moving nodes does to the paths of a tree (kernel/fs.c). */
module FsEdits {
  import opened Wrappers
  import opened FsTree

  /** descendant(): climbing at most steps parents from n meets a. */
  predicate Under(t: Tree, n: nat, a: nat, steps: nat)
    requires n < 512
    decreases steps
  {
    n == a || (n != 0 && steps > 0 && Under(t, t[n].parent, a, steps - 1))
  }

  /** The part of a path below node a. */
  function Below(t: Tree, n: nat, a: nat, steps: nat): string
    requires n < 512
    decreases steps
  {
    if n == a || n == 0 || steps == 0 then "" else Below(t, t[n].parent, a, steps - 1) + "/" + t[n].name
  }

  /** The names and parents of two trees differ at node x at most. */
  predicate SameBut(t: Tree, t': Tree, x: nat) {
    forall i :: 0 <= i < 512 && i != x ==> t'[i].parent == t[i].parent && t'[i].name == t[i].name
  }

  /** A path that avoids the changed node stays. */
  lemma {:induction false} AvoidsPath(t: Tree, t': Tree, x: nat, m: nat, k: nat)
    requires m < 512 && x != 0 && SameBut(t, t', x) && !Under(t, m, x, k)
    ensures PathFrom(t', m, k) == PathFrom(t, m, k) && !Under(t', m, x, k)
    decreases k
  {
    if m != 0 && k > 0 { AvoidsPath(t, t', x, t[m].parent, k - 1); }
  }

  /** A path through the changed node keeps what is below it. */
  lemma {:induction false} ThroughPath(t: Tree, t': Tree, x: nat, m: nat, k: nat, j: nat)
    requires m < 512 && 0 < x < 512 && SameBut(t, t', x) && Under(t, m, x, k) && PathFrom(t', x, j).Some?
    ensures PathFrom(t', m, k + j).Some? && PathFrom(t', m, k + j).value == PathFrom(t', x, j).value + Below(t, m, x, k)
    ensures Under(t', m, x, k)
    decreases k
  {
    if m == x {
      MoreSteps(t', x, j, k + j);
    } else {
      ThroughPath(t, t', x, t[m].parent, k - 1, j);
      Associates(PathFrom(t', x, j).value, Below(t, t[m].parent, x, k - 1), "/", t[m].name);
    }
  }

  lemma Associates(a: string, b: string, c: string, d: string)
    ensures a + b + c + d == a + (b + c + d)
  {
  }

  /** Membership in a subtree does not depend on the number of steps, once the root is reached. */
  lemma {:induction false} UnderSteps(t: Tree, m: nat, x: nat, k: nat, k': nat)
    requires m < 512 && k <= k' && PathFrom(t, m, k).Some?
    ensures Under(t, m, x, k) == Under(t, m, x, k')
    decreases k
  {
    if m != 0 { UnderSteps(t, t[m].parent, x, k - 1, k' - 1); }
  }

  /** In a well-formed tree the root is at most 95 steps away. */
  lemma Depth(t: Tree, m: nat)
    requires WellFormed(t) && Live(t, m)
    ensures PathFrom(t, m, 95).Some? && PathFrom(t, m, 95) == Path(t, m)
    ensures m != 0 ==> NodeOk(t, m)
  {
    hide ValidName;
    forall i | 0 < i < 512 && Live(t, i) ensures |t[i].name| > 0 && Live(t, t[i].parent) { NameNotEmpty(t, i); }
    PathShape(t, m);
    StepsByLength(t, m, 512);
    MoreSteps(t, m, |Path(t, m).value| / 2, 95);
  }

  lemma NameNotEmpty(t: Tree, i: nat)
    requires WellFormed(t) && 0 < i < 512 && Live(t, i)
    ensures |t[i].name| > 0 && Live(t, t[i].parent)
  {
    assert NodeOk(t, i);
  }

  /** A node that nobody has as parent is on no other path. */
  lemma {:induction false} NotOnPath(t: Tree, x: nat, m: nat, k: nat)
    requires WellFormed(t) && Live(t, m) && m != x && x != 0
    requires forall i :: 0 < i < 512 && Live(t, i) ==> t[i].parent != x
    ensures !Under(t, m, x, k)
    decreases k
  {
    hide WellFormed, NodeOk;
    if m != 0 && k > 0 {
      NodeIsOk(t, m);
      NotOnPath(t, x, t[m].parent, k - 1);
    }
  }

  // ----- Creating and removing -----

  function Created(t: Tree, i: nat, p: nat, name: string, kind: Kind, locked: bool): Tree
    requires i < 512 && p < 512
  {
    t[i := Node(kind, p, locked, 0, name)]
  }

  predicate CanCreate(t: Tree, i: nat, p: nat, name: string) {
    && 0 < i < 512 && t[i].kind == Unused && Live(t, p) && t[p].kind == Directory && Child(t, p, name) == 512
    && ValidName(name) && Path(t, p).Some? && |Path(t, p).value| + 1 + |name| <= PATH
  }

  lemma UnusedIsNoParent(t: Tree, i: nat)
    requires WellFormed(t) && 0 < i < 512 && t[i].kind == Unused
    ensures forall k :: 0 < k < 512 && Live(t, k) ==> t[k].parent != i
  {
    hide NodeOk;
    forall k | 0 < k < 512 && Live(t, k) ensures t[k].parent != i { NodeIsOk(t, k); }
  }

  /** A new node gets the path of its parent and its name; no other path changes. */
  lemma CreatedPaths(t: Tree, i: nat, p: nat, name: string, kind: Kind, locked: bool)
    requires WellFormed(t) && CanCreate(t, i, p, name)
    ensures
      var t' := Created(t, i, p, name, kind, locked);
      && Path(t', i) == Some(Path(t, p).value + "/" + name)
      && forall m :: 0 <= m < 512 && Live(t, m) ==> Path(t', m) == Path(t, m)
  {
    hide WellFormed, NodeOk, PathFrom, Under, Child;
    var t' := Created(t, i, p, name, kind, locked);
    UnusedIsNoParent(t, i);
    forall m | 0 <= m < 512 && Live(t, m) ensures Path(t', m) == Path(t, m) {
      NotOnPath(t, i, m, 512);
      AvoidsPath(t, t', i, m, 512);
    }
    Depth(t, p);
    NotOnPath(t, i, p, 95);
    AvoidsPath(t, t', i, p, 95);
    StepUp(t', i, 95);
    MoreSteps(t', i, 96, 512);
  }

  lemma StepUp(t: Tree, i: nat, k: nat)
    requires 0 < i < 512 && PathFrom(t, t[i].parent, k).Some?
    ensures PathFrom(t, i, k + 1) == Some(PathFrom(t, t[i].parent, k).value + "/" + t[i].name)
  {
  }

  lemma CreatedOk(t: Tree, i: nat, p: nat, name: string, kind: Kind, locked: bool)
    requires WellFormed(t) && CanCreate(t, i, p, name) && kind != Unused
    ensures WellFormed(Created(t, i, p, name, kind, locked))
  {
    hide Path, Child;
    var t' := Created(t, i, p, name, kind, locked);
    CreatedPaths(t, i, p, name, kind, locked);
    forall n | 0 < n < 512 && Live(t', n) ensures NodeOk(t', n) {
      if n != i { assert NodeOk(t, n); }
    }
    forall n, m | 0 < n < 512 && 0 < m < 512 && Live(t', n) && Live(t', m) ensures Distinct(t', n, m) {
      if n != i && m != i { assert Distinct(t, n, m); }
      if n != i { NotChild(t, p, name, n); }
      if m != i { NotChild(t, p, name, m); }
    }
  }

  /** child() found nothing. */
  lemma NotChild(t: Tree, p: nat, name: string, n: nat)
    requires Child(t, p, name) == 512 && 0 < n < 512 && Live(t, n)
    ensures t[n].parent != p || t[n].name != name
  {
  }

  function Removed(t: Tree, n: nat): Tree
    requires n < 512
  {
    t[n := UNUSED]
  }

  predicate Childless(t: Tree, n: nat) { forall i :: 0 < i < 512 && Live(t, i) ==> t[i].parent != n }

  /** Removing a node without children changes no other path. */
  lemma RemovedPaths(t: Tree, n: nat)
    requires WellFormed(t) && 0 < n < 512 && Childless(t, n)
    ensures WellFormed(Removed(t, n))
    ensures forall m :: 0 <= m < 512 && Live(t, m) && m != n ==> Path(Removed(t, n), m) == Path(t, m)
  {
    hide PathFrom, Under, ValidName;
    var t' := Removed(t, n);
    forall m | 0 <= m < 512 && Live(t, m) && m != n ensures Path(t', m) == Path(t, m) {
      NotOnPath(t, n, m, 512);
      AvoidsPath(t, t', n, m, 512);
    }
    forall m | 0 < m < 512 && Live(t', m) ensures NodeOk(t', m) { assert NodeOk(t, m); }
    forall i, j | 0 < i < 512 && 0 < j < 512 && Live(t', i) && Live(t', j) ensures Distinct(t', i, j) {
      assert Distinct(t, i, j);
    }
  }

  // ----- Moving -----

  function Moved(t: Tree, n: nat, p: nat, name: string): Tree
    requires n < 512 && p < 512
  {
    t[n := t[n].(parent := p, name := name)]
  }

  predicate CanMove(t: Tree, n: nat, p: nat, name: string) {
    && 0 < n < 512 && Live(t, n) && Live(t, p) && t[p].kind == Directory && !Under(t, p, n, 511)
    && (Child(t, p, name) == 512 || Child(t, p, name) == n) && ValidName(name)
  }

  /** Moving a node moves its subtree; all other paths stay. */
  lemma MovedPath(t: Tree, n: nat, p: nat, name: string, m: nat)
    requires WellFormed(t) && CanMove(t, n, p, name) && Live(t, m)
    ensures
      var t' := Moved(t, n, p, name);
      && (Under(t, m, n, 511) <==> Under(t', m, n, 511)) && Path(t', m).Some?
      && (Under(t, m, n, 511) ==> Path(t', m).value == Path(t, p).value + "/" + name + Below(t, m, n, 95))
      && (!Under(t, m, n, 511) ==> Path(t', m) == Path(t, m))
      && PathFrom(t', m, 191).Some?
  {
    hide WellFormed, NodeOk, PathFrom, Under, Below, Child;
    var t' := Moved(t, n, p, name);
    Depth(t, m);
    Depth(t, p);
    UnderSteps(t, m, n, 95, 511);
    UnderSteps(t, p, n, 95, 511);
    if Under(t, m, n, 95) {
      AvoidsPath(t, t', n, p, 95);
      StepUp(t', n, 95);
      ThroughPath(t, t', n, m, 95, 96);
      UnderMore(t', m, n, 95, 511);
      MoreSteps(t', m, 191, 512);
    } else {
      AvoidsPath(t, t', n, m, 95);
      UnderSteps(t', m, n, 95, 511);
      MoreSteps(t', m, 95, 191);
      MoreSteps(t', m, 95, 512);
    }
  }

  lemma {:induction false} UnderMore(t: Tree, m: nat, x: nat, k: nat, k': nat)
    requires m < 512 && k <= k' && Under(t, m, x, k)
    ensures Under(t, m, x, k')
    decreases k
  {
    if m != x { UnderMore(t, t[m].parent, x, k - 1, k' - 1); }
  }

  /** A move whose new paths all fit keeps the tree well formed. */
  lemma MovedOk(t: Tree, n: nat, p: nat, name: string)
    requires WellFormed(t) && CanMove(t, n, p, name)
    requires forall m :: 0 < m < 512 && Live(t, m) && Under(t, m, n, 511) ==>
               Path(Moved(t, n, p, name), m).Some? && |Path(Moved(t, n, p, name), m).value| <= PATH
    ensures WellFormed(Moved(t, n, p, name))
  {
    hide Path, Child, Under, Below, PathFrom;
    var t' := Moved(t, n, p, name);
    forall m | 0 < m < 512 && Live(t', m) ensures NodeOk(t', m) {
      MovedPath(t, n, p, name, m);
      assert NodeOk(t, m);
    }
    forall i, j | 0 < i < 512 && 0 < j < 512 && Live(t', i) && Live(t', j) ensures Distinct(t', i, j) {
      if i != n && j != n { assert Distinct(t, i, j); }
      if i != n { OnlyChild(t, p, name, n, i); }
      if j != n { OnlyChild(t, p, name, n, j); }
    }
  }

  lemma OnlyChild(t: Tree, p: nat, name: string, n: nat, i: nat)
    requires WellFormed(t) && 0 < n < 512 && Live(t, n) && 0 < i < 512 && Live(t, i) && i != n
    requires Child(t, p, name) == 512 || Child(t, p, name) == n
    ensures t[i].parent != p || t[i].name != name
  {
    hide NodeOk;
    if Child(t, p, name) == 512 { NotChild(t, p, name, i); }
    else if t[i].parent == p && t[i].name == name { ChildIs(t, i); }
  }

  /** Taking a move back restores the tree. */
  lemma MoveBack(t: Tree, n: nat, p: nat, name: string)
    requires n < 512 && p < 512
    ensures Moved(Moved(t, n, p, name), n, t[n].parent, t[n].name) == t
  {
  }
}
