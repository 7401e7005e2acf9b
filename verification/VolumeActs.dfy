/** What the operations of kernel/fs.c on paths, a commit and a restart do to the nodes and to what a crash may bring back. */
module VolumeActs {
  import opened Wrappers
  import opened FsTree
  import opened FsEdits
  import opened FsStart
  import opened FileTree
  import opened FsStream
  import opened FsExport
  import opened FsRoundTrip
  import opened FsVolume
  import opened PagedFile
  import FileData
  import VolumeExport

  type byte = FsStream.byte

  /** Requests, with what meets them: whether the disk is reliable, the sectors that cannot be read, the memory that is
      left, and which of the writes that were not flushed a loss of power keeps. */
  datatype Op =
    | Write(path: string, offset: nat, buf: seq<byte>, bad: set<nat>, room: FileData.Room)
    | Make(path: string, kind: Kind)
    | Delete(path: string)
    | Rename(path: string, to: string)
    | Replace(path: string, to: string)
    | Commit(reliable: bool, bad: set<nat>)
    | Restart(kept: nat -> bool)

  /** Paths are C strings. */
  predicate OpOk(op: Op) {
    match op
    case Write(path, _, _, _, _) => Plain(path)
    case Make(path, kind) => Plain(path) && (kind == File || kind == Directory)
    case Delete(path) => Plain(path)
    case Rename(path, to) => Plain(path) && Plain(to)
    case Replace(path, to) => Plain(path) && Plain(to)
    case Commit(reliable, bad) => reliable ==> bad == {}
    case Restart(_) => true
  }

  /** The nodes with their contents, and what a start may find on the disk. */
  datatype State = State(t: Tree, files: seq<seq<byte>>, may: set<set<Record>>)

  /** The only volume is /home. */
  const HOME: nat := 2

  ghost function Shown(s: State): set<Record>
    requires |s.files| == 512
  {
    Entries(s.t, s.files, HOME)
  }

  function Found(t: Tree, path: string): Result<nat> { Lookup(t, [HOME], 0, path) }

  function Target(t: Tree, path: string): (r: Result<Place>)
    ensures r.Ok? ==> r.value.parent < 512 && ValidName(r.value.name)
  {
    Parent(t, [HOME], 0, path)
  }

  function Overlaid(c: seq<byte>, offset: nat, buf: seq<byte>): seq<byte> {
    if buf == [] then c else Overlay(c, offset, buf)
  }

  /** The disk can be read, and there is memory for every page of a write. */
  predicate Ample(op: Op)
    requires op.Write?
  {
    op.buf == [] || (op.bad == {} && op.room.heap && (op.offset + |op.buf| - 1) / 4096 - op.offset / 4096 < op.room.frames)
  }

  /** The file that a write is for, and its size afterwards. */
  ghost predicate WriteAllowed(t: Tree, op: Op)
    requires op.Write?
  {
    && Found(t, op.path).Ok? && Found(t, op.path).value < 512
    && t[Found(t, op.path).value].kind == File && !t[Found(t, op.path).value].locked
    && (op.buf == [] || op.offset + |op.buf| <= FsStream.FILE_MAX)
  }

  ghost predicate Writes(op: Op, done: bool, s: State, s': State)
    requires op.Write? && |s.files| == 512
  {
    && s'.t == s.t && s'.may == s.may
    && (WriteAllowed(s.t, op) && Ample(op) ==> done)
    && (done ==>
          && WriteAllowed(s.t, op)
          && var n := Found(s.t, op.path).value; s'.files == s.files[n := Overlaid(s.files[n], op.offset, op.buf)])
    && (!done ==> s'.files == s.files)
  }

  ghost predicate Makes(op: Op, done: bool, s: State, s': State)
    requires op.Make? && |s.files| == 512
  {
    var at := Target(s.t, op.path);
    && s'.may == s.may && (done <==> at.Ok? && CreateAllowed(s.t, at.value))
    && (done ==>
          var i := FirstFree(s.t, 1);
          i < 512 && s'.t == Created(s.t, i, at.value.parent, at.value.name, op.kind, false) && s'.files == s.files[i := []])
    && (!done ==> s'.t == s.t && s'.files == s.files)
  }

  ghost predicate Deletes(op: Op, done: bool, s: State, s': State)
    requires op.Delete? && |s.files| == 512
  {
    var found := Found(s.t, op.path);
    && s'.may == s.may && (done <==> found.Ok? && found.value < 512 && RemoveAllowed(s.t, found.value, {}))
    && (done ==> s'.t == Removed(s.t, found.value) && s'.files == s.files[found.value := []])
    && (!done ==> s'.t == s.t && s'.files == s.files)
  }

  ghost predicate Renames(op: Op, done: bool, s: State, s': State)
    requires op.Rename? && |s.files| == 512
  {
    var found, at := Found(s.t, op.path), Target(s.t, op.to);
    && s'.may == s.may && s'.files == s.files
    && (done <==>
          && found.Ok? && found.value < 512 && at.Ok?
          && (op.to != "" && op.to[|op.to| - 1] == '/' ==> s.t[found.value].kind == Directory)
          && MoveAllowed(s.t, [HOME], found.value, at.value))
    && s'.t == if done then AfterMove(s.t, found.value, at.value) else s.t
  }

  ghost predicate Replaces(op: Op, done: bool, s: State, s': State)
    requires op.Replace? && |s.files| == 512
  {
    var found, at := Found(s.t, op.path), Target(s.t, op.to);
    && s'.may == s.may
    && (done <==>
          && found.Ok? && found.value < 512 && at.Ok? && (op.to != "" ==> op.to[|op.to| - 1] != '/')
          && ReplaceAllowed(s.t, [HOME], found.value, at.value))
    && (done ==>
          var other := Child(s.t, at.value.parent, at.value.name);
          && s'.t == AfterReplace(s.t, found.value, at.value)
          && s'.files == if other < 512 && other != found.value then s.files[other := []] else s.files)
    && (!done ==> s'.t == s.t && s'.files == s.files)
  }

  /** A successful commit leaves one thing to find; a failed one may have added what it was writing. */
  ghost predicate Commits(op: Op, done: bool, s: State, s': State, cap: nat)
    requires op.Commit? && |s.files| == 512
  {
    && s'.t == s.t && s'.files == s.files
    && (op.reliable ==> (done <==> VolumeExport.Total(s.t, s.files, HOME, 512) <= cap))
    && s'.may == if done then {Shown(s)} else s.may + {Shown(s)}
  }

  /** After a restart the volume shows something that the disk could hold, and the rest is as at every start. */
  ghost predicate Restarts(done: bool, s: State, s': State, apps: seq<string>) {
    && done && |s'.files| == 512 && Shown(s') in s.may && s'.may == {Shown(s')} && StartOnly(s'.t, apps)
  }

  ghost predicate Acts(op: Op, done: bool, s: State, s': State, cap: nat, apps: seq<string>)
    requires |s.files| == 512
  {
    match op
    case Write(_, _, _, _, _) => Writes(op, done, s, s')
    case Make(_, _) => Makes(op, done, s, s')
    case Delete(_) => Deletes(op, done, s, s')
    case Rename(_, _) => Renames(op, done, s, s')
    case Replace(_, _) => Replaces(op, done, s, s')
    case Commit(_, _) => Commits(op, done, s, s', cap)
    case Restart(_) => Restarts(done, s, s', apps)
  }

  /** A run: the state before each request, and the last one. */
  ghost predicate ActsRun(ops: seq<Op>, dones: seq<bool>, states: seq<State>, cap: nat, apps: seq<string>) {
    && |dones| == |ops| && |states| == |ops| + 1 && (forall i :: 0 <= i < |states| ==> |states[i].files| == 512)
    && forall i :: 0 <= i < |ops| ==> Acts(ops[i], dones[i], states[i], states[i + 1], cap, apps)
  }

  // ----- What every state is like -----

  /** The nodes of the start are there. */
  ghost predicate StartStays(t: Tree, apps: seq<string>) {
    |StartNodes(apps, 1)| <= 512 && forall k :: 0 <= k < |StartNodes(apps, 1)| ==> t[k] == StartNodes(apps, 1)[k]
  }

  /** ... and outside the volume nothing else is. */
  ghost predicate StartOnly(t: Tree, apps: seq<string>) {
    StartStays(t, apps) && forall n: nat :: n < 512 && Live(t, n) && !Inner(t, HOME, n) ==> n < |StartNodes(apps, 1)|
  }

  /** What a state needs when its tree is well formed and its volume is mounted. */
  ghost predicate StateKept(s: State, apps: seq<string>) {
    VolumeOk(s.t, s.files, HOME) && StartStays(s.t, apps)
  }

  ghost predicate StateOk(s: State, apps: seq<string>) {
    WellFormed(s.t) && VolumesOk(s.t, [HOME]) && StateKept(s, apps)
  }

  ghost predicate StatesOk(states: seq<State>,
      apps: seq<string>) { forall i :: 0 <= i < |states| ==> StateOk(states[i], apps) }

  lemma TargetPlain(t: Tree, path: string)
    requires Plain(path) && Target(t, path).Ok?
    ensures Plain(Target(t, path).value.name)
  {
    hide Lookup;
  }

  /** No node of the start can be moved or removed. */
  lemma StartHeld(t: Tree, apps: seq<string>, n: nat)
    requires Archive(apps) && StartStays(t, apps) && n < 512 && !t[n].locked && !t[t[n].parent].locked
    ensures n >= |StartNodes(apps, 1)|
  {
    hide StartNodes, INITIAL, Laid;
    var all := StartNodes(apps, 1);
    StartParts(apps, 1);
    if n < |all| {
      InitialTop(0);
      if n > 0 { StartLaid(apps, 1, n); }
      StartLocked(apps, n);
    }
  }

  lemma StartLocked(apps: seq<string>, k: nat)
    requires Archive(apps) && k < |StartNodes(apps, 1)|
    ensures
      var all := StartNodes(apps, 1);
      all[k].locked || (all[k].parent == 0 && all[0].locked)
  {
    hide StartNodes;
    StartParts(apps, 1);
  }

  // ----- Every operation keeps it -----

  /** The volume of a tree whose nodes all have plain names. */
  ghost predicate AllPlain(t: Tree) { forall n :: 0 < n < 512 && Live(t, n) ==> Plain(t[n].name) }

  lemma KeptParts(s: State, apps: seq<string>)
    requires StateKept(s, apps)
    ensures |s.files| == 512 && AllPlain(s.t) && s.t[HOME].kind == Directory && StartStays(s.t, apps)
    ensures forall n: nat :: Inner(s.t, HOME, n) ==> n < 512 && Storable(s.t, s.files, n)
  {
    hide Under;
  }

  lemma KeptFrom(s: State, apps: seq<string>)
    requires |s.files| == 512 && AllPlain(s.t) && s.t[HOME].kind == Directory && StartStays(s.t, apps)
    requires forall n: nat :: Inner(s.t, HOME, n) ==> n < 512 && Storable(s.t, s.files, n)
    ensures StateKept(s, apps)
  {
    hide Under, Storable, StartStays;
  }

  lemma WriteKeeps(op: Op, done: bool, s: State, s': State, apps: seq<string>)
    requires op.Write? && |s.files| == 512 && Writes(op, done, s, s') && StateKept(s, apps)
    ensures StateKept(s', apps)
  {
    hide Lookup, StartStays, AllPlain, Inner, Overlay, StateKept;
    KeptParts(s, apps);
    KeptFrom(s', apps);
  }

  lemma MakeKeeps(op: Op, done: bool, s: State, s': State, apps: seq<string>)
    requires op.Make? && |s.files| == 512 && Makes(op, done, s, s') && StateKept(s, apps) && OpOk(op) && Archive(apps)
    requires WellFormed(s.t)
    requires (done ==> CanCreate(s.t, FirstFree(s.t, 1), Target(s.t, op.path).value.parent, Target(s.t, op.path).value.name))
    ensures StateKept(s', apps)
  {
    hide Lookup, Inner, StateKept, WellFormed, Path, Child, Parent, Target, CreateAllowed, FirstFree, StartNodes, Plain;
    KeptParts(s, apps);
    StartMade(apps);
    if done {
      var i, at := FirstFree(s.t, 1), Target(s.t, op.path).value;
      TargetPlain(s.t, op.path);
      HomeLive(s, apps);
      CreatedInner(s.t, i, at.parent, at.name, op.kind, HOME);
    }
    KeptFrom(s', apps);
  }

  lemma HomeLive(s: State, apps: seq<string>)
    requires StateKept(s, apps)
    ensures Live(s.t, HOME)
  {
    hide Inner, StartStays;
  }

  lemma StartMade(apps: seq<string>)
    requires Archive(apps)
    ensures forall k :: 0 <= k < |StartNodes(apps, 1)| ==> StartNodes(apps, 1)[k].kind != Unused
  {
    hide StartNodes, INITIAL, Laid;
    var all := StartNodes(apps, 1);
    StartParts(apps, 1);
    InitialTop(0);
    forall k | 0 < k < |all| ensures all[k].kind != Unused { StartLaid(apps, 1, k); LaidKind(all, k); }
  }

  lemma DeleteKeeps(op: Op, done: bool, s: State, s': State, apps: seq<string>)
    requires op.Delete? && |s.files| == 512 && Deletes(op, done, s, s') && StateKept(s, apps) && Archive(apps)
    requires WellFormed(s.t) && VolumesOk(s.t, [HOME])
    ensures StateKept(s', apps)
  {
    hide Lookup, Inner, StateKept, WellFormed, Path, Found, StartNodes, Plain, Childless, VolumesOk;
    KeptParts(s, apps);
    if done {
      var n := Found(s.t, op.path).value;
      RootLocked(s.t);
      StartHeld(s.t, apps, n);
      RootHeld(s.t, HOME, n);
      RemovedInner(s.t, n, HOME);
    }
    KeptFrom(s', apps);
  }

  lemma RenameKeeps(op: Op, done: bool, s: State, s': State, apps: seq<string>)
    requires op.Rename? && |s.files| == 512 && Renames(op, done, s, s') && StateKept(s, apps) && OpOk(op)
    requires Archive(apps)
    requires WellFormed(s.t) && WellFormed(s'.t) && VolumesOk(s.t, [HOME])
    requires (done ==> Live(s.t, Found(s.t, op.path).value))
    ensures StateKept(s', apps)
  {
    hide Lookup, Inner, StateKept, WellFormed, Path, Found, Target, StartNodes, Plain, VolumesOk, Child, VolumeFor,
      Under, Fits, ValidName;
    KeptParts(s, apps);
    if done {
      var n, at := Found(s.t, op.path).value, Target(s.t, op.to).value;
      TargetPlain(s.t, op.to);
      StartHeld(s.t, apps, n);
      RenamedInner(s.t, HOME, n, at);
    }
    KeptFrom(s', apps);
  }

  lemma ReplaceKeepsState(op: Op, done: bool, s: State, s': State, apps: seq<string>)
    requires op.Replace? && |s.files| == 512 && Replaces(op, done, s, s') && StateKept(s, apps) && OpOk(op)
    requires Archive(apps)
    requires WellFormed(s.t) && VolumesOk(s.t, [HOME])
    ensures StateKept(s', apps)
  {
    hide Lookup, Inner, StateKept, WellFormed, Path, Found, Target, StartNodes, Plain, VolumesOk, VolumeFor, Under,
      ValidName, ChildFrom, Child;
    KeptParts(s, apps);
    if done {
      var n, at := Found(s.t, op.path).value, Target(s.t, op.to).value;
      var other := Child(s.t, at.parent, at.name);
      TargetPlain(s.t, op.to);
      StartHeld(s.t, apps, n);
      RootLocked(s.t);
      if other < 512 { ChildParent(s.t, at.parent, at.name); }
      if other < 512 && other != n { StartHeld(s.t, apps, other); }
      ReplacedInner(s.t, HOME, n, at);
    }
    KeptFrom(s', apps);
  }
}
