/** The life of tasks in kernel/task.c as functions on the task table: spawning, waiting, ending, stopping
    and reaping. */
module TaskProtocol {
  /** NV_TASK_MAX, and the last process number before they are reused from 2. */
  const TASKS: nat := 32
  const LAST_PID: nat := 0x7fff_ffff

  datatype RunState = Empty | Ready | Sleeping | Waiting | Zombie

  /** A slot of tasks[]; reply is what a waiting system call returns.  serial numbers the spawned tasks, since
      process numbers are reused. */
  datatype Task = Task(state: RunState, pid: nat, parent: nat, waitPid: nat, wake: nat, status: int,
                       collected: bool, reply: int, serial: nat)

  const NO_TASK: Task := Task(Empty, 0, 0, 0, 0, 0, false, 0, 0)

  /** The exit status of the task child was given to the task parent. */
  datatype Delivery = Delivery(parent: nat, child: nat, status: int)

  /** current is a slot, or -1 before the first task runs; spawned counts the tasks so far. */
  datatype System = System(tasks: seq<Task>, current: int, nextPid: nat, spawned: nat, deliveries: seq<Delivery>)

  predicate Sized(s: System) { |s.tasks| == 32 && -1 <= s.current < 32 }

  predicate Used(s: System, i: nat)
    requires Sized(s)
  {
    i < 32 && s.tasks[i].state != Empty
  }

  /** Used and not ended. */
  predicate Alive(s: System, i: nat)
    requires Sized(s)
  {
    Used(s, i) && s.tasks[i].state != Zombie
  }

  /** by_pid(): the lowest slot with that number from i on, or 32. */
  function ByPidFrom(s: System, pid: nat, i: nat): (r: nat)
    requires Sized(s) && i <= 32
    ensures i <= r <= 32 && (r < 32 ==> Used(s, r) && s.tasks[r].pid == pid)
    ensures forall k :: i <= k < r ==> !(Used(s, k) && s.tasks[k].pid == pid)
    decreases 32 - i
  {
    if i == 32 || (s.tasks[i].state != Empty && s.tasks[i].pid == pid) then i else ByPidFrom(s, pid, i + 1)
  }

  function ByPid(s: System, pid: nat): (r: nat)
    requires Sized(s)
    ensures r <= 32
  {
    ByPidFrom(s, pid, 0)
  }

  // ----- The invariant -----

  /** Waiting tasks have a child that will wake them. */
  predicate WaitsForChild(s: System, i: nat, c: nat)
    requires Sized(s) && i < 32
  {
    Alive(s, c) && s.tasks[c].pid == s.tasks[i].waitPid && s.tasks[c].parent == s.tasks[i].pid && !s.tasks[c].collected
  }

  predicate ParentIs(s: System, i: nat, p: nat)
    requires Sized(s) && i < 32
  {
    Alive(s, p) && s.tasks[p].pid == s.tasks[i].parent && p != i
  }

  ghost predicate TaskOk(s: System, i: nat)
    requires Sized(s) && i < 32
  {
    var t := s.tasks[i];
    && 1 <= t.pid <= LAST_PID && t.serial < s.spawned && (t.collected ==> t.state == Zombie)
    && (t.parent != 0 ==> exists p: nat :: ParentIs(s, i, p))
    && (t.state == Waiting ==> exists c: nat :: WaitsForChild(s, i, c))
  }

  predicate Different(s: System, i: nat, j: nat)
    requires Sized(s) && i < 32 && j < 32
  {
    (s.tasks[i].pid == s.tasks[j].pid || s.tasks[i].serial == s.tasks[j].serial) ==> i == j
  }

  /** A delivered task is gone or collected, and was delivered once. */
  ghost predicate DeliveredOnce(s: System)
    requires Sized(s)
  {
    && (forall d :: d in s.deliveries ==> d.child < s.spawned)
    && (forall i: nat, d :: Used(s, i) && d in s.deliveries && d.child == s.tasks[i].serial ==> s.tasks[i].collected)
    && (forall i, j :: 0 <= i < j < |s.deliveries| ==> s.deliveries[i].child != s.deliveries[j].child)
  }

  ghost predicate Inv(s: System) {
    && Sized(s) && 1 <= s.nextPid <= LAST_PID
    && (forall i: nat :: Used(s, i) ==> TaskOk(s, i))
    && (forall i: nat, j: nat :: Used(s, i) && Used(s, j) ==> Different(s, i, j))
    && (s.current >= 0 ==> Used(s, s.current))
    && DeliveredOnce(s)
  }

  lemma ByPidIs(s: System, i: nat)
    requires Inv(s) && Used(s, i)
    ensures ByPid(s, s.tasks[i].pid) == i
  {
    hide TaskOk, DeliveredOnce;
    var r := ByPid(s, s.tasks[i].pid);
    assert Different(s, r, i);
  }

  lemma InvTask(s: System, k: nat)
    requires Inv(s) && Used(s, k)
    ensures TaskOk(s, k)
  {
    hide TaskOk, DeliveredOnce, Different;
  }

  lemma InvDifferent(s: System, k: nat, j: nat)
    requires Inv(s) && Used(s, k) && Used(s, j)
    ensures Different(s, k, j)
  {
    hide TaskOk, DeliveredOnce, Different;
  }

  lemma InvSized(s: System)
    requires Inv(s)
    ensures Sized(s)
  {
    hide TaskOk, DeliveredOnce, Different;
  }

  // ----- Ending a task -----

  /** Orphans: the children of pid from slot i on lose their parent. */
  function Orphaned(tasks: seq<Task>, pid: nat): (r: seq<Task>)
    ensures |r| == |tasks|
    ensures forall i :: 0 <= i < |tasks| ==>
              r[i] == if tasks[i].state != Empty && tasks[i].parent == pid then tasks[i].(parent := 0) else tasks[i]
  {
    if tasks == [] then []
    else
      var n := |tasks| - 1;
      Orphaned(tasks[..n], pid) + [if tasks[n].state != Empty && tasks[n].parent == pid then tasks[n].(parent := 0) else tasks[n]]
  }

  /** finish_notify() after the zombie has been marked and its children orphaned. */
  function Wake(s: System, i: nat): System
    requires Sized(s) && i < 32
  {
    var t := s.tasks[i];
    var p := ByPid(s, t.parent);
    if p < 32 && s.tasks[p].state == Waiting && s.tasks[p].waitPid == t.pid then
      s.(tasks := s.tasks[p := s.tasks[p].(reply := t.status, state := Ready)][i := s.tasks[i].(collected := true)],
         deliveries := s.deliveries + [Delivery(s.tasks[p].serial, t.serial, t.status)])
    else s
  }

  /** finish() */
  function Finish(s: System, i: nat, status: int): (r: System)
    requires Sized(s) && i < 32
    ensures Sized(r)
  {
    if s.tasks[i].state == Zombie then s
    else
      var marked := s.tasks[i := s.tasks[i].(status := status, state := Zombie)];
      Wake(s.(tasks := Orphaned(marked, s.tasks[i].pid)), i)
  }

  /** After the mark and the orphaning. */
  function Ended(s: System, i: nat, status: int): (r: System)
    requires Sized(s) && i < 32
    ensures Sized(r)
  {
    s.(tasks := Orphaned(s.tasks[i := s.tasks[i].(status := status, state := Zombie)], s.tasks[i].pid))
  }

  /** What Ended leaves of another task. */
  lemma EndedTask(s: System, i: nat, status: int, k: nat)
    requires Inv(s) && Alive(s, i) && k < 32
    ensures
      var e := Ended(s, i, status).tasks[k];
      var t := s.tasks[k];
      && e == t.(state := e.state, status := e.status, parent := e.parent)
      && (k != i ==> e.state == t.state && e.status == t.status)
      && (k == i ==> e.state == Zombie && e.status == status)
      && e.parent == if Used(s, k) && t.parent == s.tasks[i].pid then 0 else t.parent
  {
  }

  /** Finish wakes the waiting parent p. */
  predicate Wakes(s: System, i: nat, p: nat)
    requires Sized(s) && i < 32
  {
    && Alive(s, p) && s.tasks[p].pid == s.tasks[i].parent && s.tasks[p].state == Waiting
    && s.tasks[p].waitPid == s.tasks[i].pid
  }

  /** Finish, slot by slot: the task ends, its children are orphaned, a waiting parent gets the status. */
  lemma FinishTasks(s: System, i: nat, status: int)
    requires Inv(s) && Alive(s, i)
    ensures
      var s' := Finish(s, i, status);
      var woken := exists p: nat :: Wakes(s, i, p);
      && (forall k: nat :: k < 32 && k != i ==>
            s'.tasks[k] == (if Wakes(s, i, k) then Ended(s, i, status).tasks[k].(state := Ready,
                reply := status) else Ended(s, i, status).tasks[k]))
      && s'.tasks[i] == Ended(s, i, status).tasks[i].(collected := woken)
      && s'.deliveries == (if woken then s.deliveries + [Delivery(s.tasks[ByPid(s, s.tasks[i].parent)].serial,
          s.tasks[i].serial, status)] else s.deliveries)
      && s' == s.(tasks := s'.tasks, deliveries := s'.deliveries)
  {
    hide Ended, Finish, Inv, TaskOk, Different, DeliveredOnce, ByPid, Wakes;
    InvSized(s);
    var e := Ended(s, i, status);
    forall k: nat | k < 32 { EndedTask(s, i, status, k); }
    EndedRest(s, i, status);
    EndedByPid(s, i, status, s.tasks[i].parent);
    EndedParent(s, i, status);
    FinishIs(s, i, status);
    OnlyParentWakes(s, i);
    WakesIs(s, i, ByPid(s, s.tasks[i].parent));
    InvTask(s, i);
    AliveNotCollected(s, i);
  }

  lemma WakesIs(s: System, i: nat, p: nat)
    requires Sized(s) && i < 32 && p == ByPid(s, s.tasks[i].parent)
    ensures Wakes(s, i, p) <==> p < 32 && s.tasks[p].state == Waiting && s.tasks[p].waitPid == s.tasks[i].pid
  {
  }

  lemma EndedRest(s: System, i: nat, status: int)
    requires Sized(s) && i < 32
    ensures Ended(s, i, status) == s.(tasks := Ended(s, i, status).tasks) && Sized(Ended(s, i, status))
  {
  }

  /** At most the parent is woken. */
  lemma OnlyParentWakes(s: System, i: nat)
    requires Inv(s) && Alive(s, i)
    ensures forall p: nat :: Wakes(s, i, p) ==> p == ByPid(s, s.tasks[i].parent)
    ensures (exists p: nat :: Wakes(s, i, p)) <==> Wakes(s, i, ByPid(s, s.tasks[i].parent))
    ensures !Wakes(s, i, i)
  {
    hide DeliveredOnce, TaskOk, Different, Ended;
    EndedParent(s, i, 0);
    forall p: nat | Wakes(s, i, p) ensures p == ByPid(s, s.tasks[i].parent) { ByPidIs(s, p); }
  }

  lemma FinishIs(s: System, i: nat, status: int)
    requires Sized(s) && Alive(s, i)
    ensures Finish(s, i, status) == Wake(Ended(s, i, status), i)
  {
  }

  /** by_pid() finds the same slot after the end of a task. */
  lemma EndedByPid(s: System, i: nat, status: int, pid: nat)
    requires Inv(s) && Alive(s, i)
    ensures ByPid(Ended(s, i, status), pid) == ByPid(s, pid)
  {
    hide Ended, TaskOk, DeliveredOnce;
    forall k: nat | k < 32 { EndedTask(s, i, status, k); }
    SamePids(s, Ended(s, i, status), pid, 0);
  }

  lemma {:induction false} SamePids(s: System, s': System, pid: nat, i: nat)
    requires Sized(s) && Sized(s') && i <= 32
    requires forall k: nat :: k < 32 ==>
               s'.tasks[k].pid == s.tasks[k].pid && (s'.tasks[k].state == Empty <==> s.tasks[k].state == Empty)
    ensures ByPidFrom(s', pid, i) == ByPidFrom(s, pid, i)
    decreases 32 - i
  {
    if i < 32 { SamePids(s, s', pid, i + 1); }
  }

  lemma EndedParent(s: System, i: nat, status: int)
    requires Inv(s) && Alive(s, i)
    ensures Ended(s, i, status).tasks[i].parent == s.tasks[i].parent && s.tasks[i].parent != s.tasks[i].pid
  {
    hide Ended, DeliveredOnce;
    EndedTask(s, i, status, i);
    assert TaskOk(s, i);
    if s.tasks[i].parent != 0 {
      var p: nat :| ParentIs(s, i, p);
      InvDifferent(s, i, p);
    }
    assert s.tasks[i].pid >= 1;
  }

  /** Ending a task keeps the invariant. */
  lemma FinishKeeps(s: System, i: nat, status: int)
    requires Inv(s) && Alive(s, i)
    ensures Inv(Finish(s, i, status))
  {
    hide Ended, Finish, DeliveredOnce, TaskOk, Different;
    var s' := Finish(s, i, status);
    FinishTasks(s, i, status);
    FinishSlots(s, i, status);
    forall k: nat | Used(s', k) ensures TaskOk(s', k) { FinishTaskOk(s, i, status, k); }
    forall k: nat, j: nat | Used(s', k) && Used(s', j) ensures Different(s', k, j) {
      assert Different(s, k, j);
      SameNames(s, s', k, j);
    }
    FinishDelivers(s, i, status);
  }

  lemma SameNames(s: System, s': System, k: nat, j: nat)
    requires Sized(s) && Sized(s') && k < 32 && j < 32 && Different(s, k, j)
    requires s'.tasks[k].pid == s.tasks[k].pid && s'.tasks[k].serial == s.tasks[k].serial
    requires s'.tasks[j].pid == s.tasks[j].pid && s'.tasks[j].serial == s.tasks[j].serial
    ensures Different(s', k, j)
  {
  }

  /** What Finish leaves of each slot. */
  lemma FinishSlots(s: System, i: nat, status: int)
    requires Inv(s) && Alive(s, i)
    ensures
      var s' := Finish(s, i, status);
      forall k: nat :: k < 32 ==>
        && s'.tasks[k].pid == s.tasks[k].pid && s'.tasks[k].serial == s.tasks[k].serial
        && s'.tasks[k].waitPid == s.tasks[k].waitPid
        && (Used(s', k) <==> Used(s, k)) && (Alive(s', k) <==> Alive(s, k) && k != i)
        && (s'.tasks[k].collected ==> s.tasks[k].collected || k == i)
        && (k != i ==> s'.tasks[k].collected == s.tasks[k].collected)
        && s'.tasks[k].parent == (if Used(s, k) && s.tasks[k].parent == s.tasks[i].pid then 0 else s.tasks[k].parent)
        && (s'.tasks[k].state == Waiting ==> s.tasks[k].state == Waiting && k != i && !Wakes(s, i, k))
  {
    hide Ended, Finish, DeliveredOnce, TaskOk, Different;
    FinishTasks(s, i, status);
    forall k: nat | k < 32 { EndedTask(s, i, status, k); }
  }

  lemma WakesIf(s: System, i: nat, k: nat, c: nat)
    requires Sized(s) && Alive(s, i) && Alive(s, k) && s.tasks[k].state == Waiting && WaitsForChild(s, k, c)
    ensures c == i ==> Wakes(s, i, k)
  {
  }

  lemma FinishTaskOk(s: System, i: nat, status: int, k: nat)
    requires Inv(s) && Alive(s, i) && Used(s, k)
    requires Finish(s, i, status).spawned == s.spawned
    ensures TaskOk(Finish(s, i, status), k)
  {
    hide Ended, Finish, DeliveredOnce, Inv;
    InvSized(s);
    var s' := Finish(s, i, status);
    InvTask(s, k);
    InvTask(s, i);
    FinishSlots(s, i, status);
    if s'.tasks[k].parent != 0 {
      var p: nat :| ParentIs(s, k, p);
      assert ParentIs(s', k, p);
    }
    if s'.tasks[k].state == Waiting {
      var c: nat :| WaitsForChild(s, k, c);
      WakesIf(s, i, k, c);
      if s.tasks[k].pid == s.tasks[i].pid { InvDifferent(s, k, i); }
      assert WaitsForChild(s', k, c);
    }
  }

  lemma FinishDelivers(s: System, i: nat, status: int)
    requires Inv(s) && Alive(s, i)
    ensures DeliveredOnce(Finish(s, i, status))
  {
    hide Ended, Finish, TaskOk, Different;
    var s' := Finish(s, i, status);
    InvTask(s, i);
    AliveNotCollected(s, i);
    FinishTasks(s, i, status);
    FinishSlots(s, i, status);
    forall k: nat, d | Used(s', k) && d in s'.deliveries && d.child == s'.tasks[k].serial
      ensures s'.tasks[k].collected
    {
      if d !in s.deliveries {
        InvDifferent(s, k, i);
        SameSerial(s, k, i);
      }
    }
  }

  lemma SameSerial(s: System, k: nat, i: nat)
    requires Sized(s) && k < 32 && i < 32 && Different(s, k, i) && s.tasks[k].serial == s.tasks[i].serial
    ensures k == i
  {
  }

  lemma AliveNotCollected(s: System, i: nat)
    requires Sized(s) && Alive(s, i) && TaskOk(s, i)
    ensures !s.tasks[i].collected && s.tasks[i].serial < s.spawned
  {
  }

  // ----- The other steps -----

  datatype WaitResult = NoChild | Status(value: int) | Blocked

  /** task_wait() of the current task. */
  function Wait(s: System, pid: nat): (System, WaitResult)
    requires Sized(s) && 0 <= s.current
  {
    var c, me := ByPid(s, pid), s.tasks[s.current];
    if c == 32 || s.tasks[c].parent != me.pid || s.tasks[c].collected then (s, NoChild)
    else if s.tasks[c].state == Zombie then
      (s.(tasks := s.tasks[c := s.tasks[c].(collected := true)],
          deliveries := s.deliveries + [Delivery(me.serial, s.tasks[c].serial, s.tasks[c].status)]),
       Status(s.tasks[c].status))
    else (s.(tasks := s.tasks[s.current := me.(waitPid := pid, state := Waiting)]), Blocked)
  }

  datatype StopResult = Stopped | NoTask | Denied

  /** task_stop() by the current task. */
  function Stop(s: System, pid: nat): (System, StopResult)
    requires Sized(s) && 0 <= s.current
  {
    var i := ByPid(s, pid);
    if i == 32 || s.tasks[i].state == Zombie then (s, NoTask)
    else if pid == 1 || i == s.current || (s.tasks[s.current].pid != 1 && s.tasks[i].parent != s.tasks[s.current].pid)
    then (s, Denied)
    else (Finish(s, i, 143), Stopped)
  }

  /** The status of a zombie has reached its parent, or has no one to go to. */
  predicate Reapable(s: System, i: nat)
    requires Sized(s) && i < 32
  {
    i != s.current && s.tasks[i].state == Zombie && (s.tasks[i].collected || s.tasks[i].parent == 0)
  }

  function ReapTo(s: System, i: nat): (r: seq<Task>)
    requires Sized(s) && i <= 32
    ensures |r| == i && forall k :: 0 <= k < i ==> r[k] == if Reapable(s, k) then NO_TASK else s.tasks[k]
  {
    if i == 0 then [] else ReapTo(s, i - 1) + [if Reapable(s, i - 1) then NO_TASK else s.tasks[i - 1]]
  }

  /** task_reap() */
  function Reap(s: System): System
    requires Sized(s)
  {
    s.(tasks := ReapTo(s, 32))
  }

  function TickTo(s: System, now: nat, i: nat): (r: seq<Task>)
    requires Sized(s) && i <= 32
    ensures |r| == i
    ensures forall k :: 0 <= k < i ==>
              r[k] == if s.tasks[k].state == Sleeping && now >= s.tasks[k].wake then s.tasks[k].(state := Ready) else s.tasks[k]
  {
    if i == 0 then []
    else TickTo(s, now, i - 1)
         + [if s.tasks[i - 1].state == Sleeping && now >= s.tasks[i - 1].wake then s.tasks[i - 1].(state := Ready) else s.tasks[i - 1]]
  }

  /** The number after pid. */
  function Successor(pid: nat): nat { if pid >= LAST_PID then 2 else pid + 1 }

  /** A free slot gets a new task; parent is a slot, or -1. */
  function Spawned(s: System, i: nat, pid: nat, parent: int): System
    requires Sized(s) && i < 32 && -1 <= parent < 32
  {
    s.(tasks := s.tasks[i := Task(Ready, pid, if parent == -1 then 0 else s.tasks[parent].pid, 0, 0, 0, false, 0, s.spawned)],
       nextPid := Successor(pid), spawned := s.spawned + 1)
  }

  /** Killed at the end of a session. */
  predicate Ends(s: System, i: nat, except: nat)
    requires Sized(s) && i < 32
  {
    Alive(s, i) && s.tasks[i].pid != 1 && s.tasks[i].pid != except
  }

  /** The loop of task_end_session(), from slot i on. */
  function EndFrom(s: System, except: nat, i: nat): (r: System)
    requires Sized(s) && i <= 32
    ensures Sized(r)
    decreases 32 - i
  {
    if i == 32 then s else EndFrom(if Ends(s, i, except) then Finish(s, i, 143) else s, except, i + 1)
  }

  /** Steps that end, start or wake no one: every task left is as it was, or no longer sleeping. */
  predicate CalmTask(s: System, s': System, k: nat)
    requires Sized(s) && Sized(s') && k < 32
  {
    var t, t' := s.tasks[k], s'.tasks[k];
    && (Used(s', k) ==> Used(s, k) && t'.pid == t.pid && t'.serial == t.serial && t'.parent == t.parent && t'.waitPid == t.waitPid
                        && t'.collected == t.collected && (t'.state == Zombie <==> t.state == Zombie)
                        && (t'.state == Waiting ==> t.state == Waiting))
    && (Alive(s, k) ==> Used(s', k))
  }

  ghost predicate Calm(s: System, s': System) {
    Sized(s) && Sized(s') && s'.spawned == s.spawned && s'.deliveries == s.deliveries
    && 1 <= s'.nextPid <= LAST_PID && forall k: nat :: k < 32 ==> CalmTask(s, s', k)
  }

  lemma CalmKeeps(s: System, s': System)
    requires Inv(s) && Calm(s, s') && (s'.current >= 0 ==> Used(s', s'.current))
    ensures Inv(s')
  {
    hide TaskOk, DeliveredOnce, Different;
    forall k: nat | Used(s', k) ensures TaskOk(s', k) { CalmTaskOk(s, s', k); }
    forall k: nat, j: nat | Used(s', k) && Used(s', j) ensures Different(s', k, j) {
      assert CalmTask(s, s', k) && CalmTask(s, s', j);
      InvDifferent(s, k, j);
      SameNames(s, s', k, j);
    }
    CalmDelivers(s, s');
  }

  lemma CalmTaskOk(s: System, s': System, k: nat)
    requires Inv(s) && Calm(s, s') && Used(s', k)
    ensures TaskOk(s', k)
  {
    hide Inv, DeliveredOnce, Different;
    assert CalmTask(s, s', k);
    InvTask(s, k);
    if s'.tasks[k].parent != 0 {
      var p: nat :| ParentIs(s, k, p);
      assert CalmTask(s, s', p);
      assert ParentIs(s', k, p);
    }
    if s'.tasks[k].state == Waiting {
      var c: nat :| WaitsForChild(s, k, c);
      assert CalmTask(s, s', c);
      assert WaitsForChild(s', k, c);
    }
  }

  lemma CalmDelivers(s: System, s': System)
    requires Inv(s) && Calm(s, s')
    ensures DeliveredOnce(s')
  {
    hide TaskOk, Different;
    forall k: nat, d | Used(s', k) && d in s'.deliveries && d.child == s'.tasks[k].serial
      ensures s'.tasks[k].collected
    {
      assert CalmTask(s, s', k);
    }
  }

  lemma ReapKeeps(s: System)
    requires Inv(s)
    ensures Inv(Reap(s)) && Calm(s, Reap(s))
  {
    hide Inv, DeliveredOnce, Different;
    InvSized(s);
    InvRest(s);
    var s' := Reap(s);
    forall k: nat | k < 32 ensures CalmTask(s, s', k) { if Used(s, k) { InvTask(s, k); } }
    CalmKeeps(s, s');
  }

  lemma InvRest(s: System)
    requires Inv(s)
    ensures 1 <= s.nextPid <= LAST_PID && (s.current >= 0 ==> Used(s, s.current))
  {
    hide TaskOk, DeliveredOnce, Different;
  }

  /** Waiting keeps the invariant. */
  lemma WaitKeeps(s: System, pid: nat)
    requires Inv(s) && 0 <= s.current && s.tasks[s.current].state == Ready
    ensures Inv(Wait(s, pid).0)
  {
    hide Inv, DeliveredOnce, Different;
    InvSized(s);
    var c := ByPid(s, pid);
    if c < 32 && s.tasks[c].parent == s.tasks[s.current].pid && !s.tasks[c].collected {
      InvTask(s, s.current);
      if s.tasks[c].state == Zombie { CollectKeeps(s, c); } else { BlockKeeps(s, c); }
    }
  }

  lemma CollectKeeps(s: System, c: nat)
    requires Inv(s) && 0 <= s.current && Used(s, c) && s.tasks[c].state == Zombie && !s.tasks[c].collected
    ensures Inv(s.(tasks := s.tasks[c := s.tasks[c].(collected := true)],
                   deliveries := s.deliveries + [Delivery(s.tasks[s.current].serial, s.tasks[c].serial, s.tasks[c].status)]))
  {
    hide Inv, Different, TaskOk, DeliveredOnce;
    InvSized(s);
    InvRest(s);
    var s' := s.(tasks := s.tasks[c := s.tasks[c].(collected := true)],
                 deliveries :=
                   s.deliveries + [Delivery(s.tasks[s.current].serial, s.tasks[c].serial, s.tasks[c].status)]);
    forall k: nat | Used(s', k) ensures TaskOk(s', k) { CollectTaskOk(s, s', c, k); }
    forall k: nat, j: nat | Used(s', k) && Used(s', j) ensures Different(s', k, j) {
      InvDifferent(s, k, j);
      SameNames(s, s', k, j);
    }
    CollectDelivers(s, s', c);
    MakesInv(s');
  }

  lemma MakesInv(s: System)
    requires Sized(s) && 1 <= s.nextPid <= LAST_PID && (s.current >= 0 ==> Used(s, s.current)) && DeliveredOnce(s)
    requires forall k: nat :: Used(s, k) ==> TaskOk(s, k)
    requires forall k: nat, j: nat :: Used(s, k) && Used(s, j) ==> Different(s, k, j)
    ensures Inv(s)
  {
    hide TaskOk, DeliveredOnce, Different;
  }

  lemma CollectTaskOk(s: System, s': System, c: nat, k: nat)
    requires Inv(s) && Sized(s) && Used(s, c) && s.tasks[c].state == Zombie && Used(s, k)
    requires s' == s.(tasks := s.tasks[c := s.tasks[c].(collected := true)], deliveries := s'.deliveries)
    ensures TaskOk(s', k)
  {
    hide Inv, Different, DeliveredOnce;
    InvTask(s, k);
    if s'.tasks[k].parent != 0 {
      var p: nat :| ParentIs(s, k, p);
      assert ParentIs(s', k, p);
    }
    if s'.tasks[k].state == Waiting {
      var d: nat :| WaitsForChild(s, k, d);
      assert WaitsForChild(s', k, d);
    }
  }

  lemma CollectDelivers(s: System, s': System, c: nat)
    requires Inv(s) && Sized(s) && 0 <= s.current && Used(s, c) && !s.tasks[c].collected
    requires s' == s.(tasks := s.tasks[c := s.tasks[c].(collected := true)],
                      deliveries := s.deliveries + [Delivery(s.tasks[s.current].serial, s.tasks[c].serial, s.tasks[c].status)])
    ensures DeliveredOnce(s')
  {
    hide Different, TaskOk;
    InvTask(s, c);
    TaskSerial(s, c);
    forall k: nat, d | Used(s', k) && d in s'.deliveries && d.child == s'.tasks[k].serial
      ensures s'.tasks[k].collected
    {
      if d !in s.deliveries {
        InvDifferent(s, k, c);
        SameSerial(s, k, c);
      }
    }
  }

  lemma TaskSerial(s: System, i: nat)
    requires Sized(s) && Used(s, i) && TaskOk(s, i)
    ensures s.tasks[i].serial < s.spawned && 1 <= s.tasks[i].pid
  {
  }

  lemma BlockKeeps(s: System, c: nat)
    requires Inv(s) && 0 <= s.current && s.tasks[s.current].state == Ready
    requires Alive(s, c) && s.tasks[c].parent == s.tasks[s.current].pid && !s.tasks[c].collected
    ensures Inv(s.(tasks := s.tasks[s.current := s.tasks[s.current].(waitPid := s.tasks[c].pid, state := Waiting)]))
  {
    hide Inv, Different, TaskOk, DeliveredOnce;
    InvSized(s);
    InvRest(s);
    var s' := s.(tasks := s.tasks[s.current := s.tasks[s.current].(waitPid := s.tasks[c].pid, state := Waiting)]);
    forall k: nat | Used(s', k) ensures TaskOk(s', k) { BlockTaskOk(s, s', c, k); }
    forall k: nat, j: nat | Used(s', k) && Used(s', j) ensures Different(s', k, j) {
      InvDifferent(s, k, j);
      SameNames(s, s', k, j);
    }
    BlockDelivers(s, s');
    MakesInv(s');
  }

  lemma BlockTaskOk(s: System, s': System, c: nat, k: nat)
    requires Inv(s) && Sized(s) && 0 <= s.current && s.tasks[s.current].state == Ready && Used(s, k)
    requires Alive(s, c) && s.tasks[c].parent == s.tasks[s.current].pid && !s.tasks[c].collected
    requires s' == s.(tasks := s.tasks[s.current := s.tasks[s.current].(waitPid := s.tasks[c].pid, state := Waiting)])
    ensures TaskOk(s', k)
  {
    hide Inv, Different, DeliveredOnce;
    InvTask(s, k);
    if s'.tasks[k].parent != 0 {
      var p: nat :| ParentIs(s, k, p);
      assert ParentIs(s', k, p);
    }
    if k == s.current {
      assert WaitsForChild(s', k, c);
    } else if s'.tasks[k].state == Waiting {
      var d: nat :| WaitsForChild(s, k, d);
      assert WaitsForChild(s', k, d);
    }
  }

  lemma BlockDelivers(s: System, s': System)
    requires Inv(s) && Sized(s') && s'.deliveries == s.deliveries && s'.spawned == s.spawned
    requires forall k: nat :: k < 32 ==> s'.tasks[k].serial == s.tasks[k].serial && s'.tasks[k].collected == s.tasks[k].collected
                                         && (Used(s', k) ==> Used(s, k))
    ensures DeliveredOnce(s')
  {
    hide TaskOk, Different;
  }

  lemma StopKeeps(s: System, pid: nat)
    requires Inv(s) && 0 <= s.current
    ensures Inv(Stop(s, pid).0)
  {
    hide Inv, Finish;
    InvSized(s);
    var i := ByPid(s, pid);
    if i < 32 && s.tasks[i].state != Zombie { FinishKeeps(s, i, 143); }
  }

  lemma {:induction false} EndKeeps(s: System, except: nat, i: nat)
    requires Inv(s) && i <= 32
    ensures Inv(EndFrom(s, except, i))
    decreases 32 - i
  {
    hide Inv, Finish;
    InvSized(s);
    if i < 32 {
      if Ends(s, i, except) { FinishKeeps(s, i, 143); }
      EndKeeps(if Ends(s, i, except) then Finish(s, i, 143) else s, except, i + 1);
    }
  }

  /** A spawned task keeps the invariant if its number is unused and its parent is alive. */
  lemma SpawnKeeps(s: System, i: nat, pid: nat, parent: int)
    requires Inv(s) && i < 32 && !Used(s, i) && 1 <= pid <= LAST_PID && ByPid(s, pid) == 32
    requires parent == -1 || (0 <= parent < 32 && Alive(s, parent))
    ensures Inv(Spawned(s, i, pid, parent))
  {
    hide Inv, Different, TaskOk, DeliveredOnce;
    InvSized(s);
    InvRest(s);
    var s' := Spawned(s, i, pid, parent);
    forall k: nat | Used(s', k) ensures TaskOk(s', k) { SpawnTaskOk(s, i, pid, parent, k); }
    forall k: nat, j: nat | Used(s', k) && Used(s', j) ensures Different(s', k, j) {
      if k != i { InvTask(s, k); TaskSerial(s, k); NotPid(s, pid, k); }
      if j != i { InvTask(s, j); TaskSerial(s, j); NotPid(s, pid, j); }
      if k != i && j != i { InvDifferent(s, k, j); SameNames(s, s', k, j); } else { NewDifferent(s, s', i, k, j); }
    }
    SpawnDelivers(s, i, pid, parent);
    MakesInv(s');
  }

  lemma NotPid(s: System, pid: nat, k: nat)
    requires Sized(s) && ByPid(s, pid) == 32 && Used(s, k)
    ensures s.tasks[k].pid != pid
  {
  }

  lemma NewDifferent(s: System, s': System, i: nat, k: nat, j: nat)
    requires Sized(s) && Sized(s') && i < 32 && k < 32 && j < 32 && (k == i || j == i)
    requires forall x: nat :: (x == k || x == j) && x != i ==>
               s'.tasks[x].pid != s'.tasks[i].pid && s'.tasks[x].serial != s'.tasks[i].serial
    ensures Different(s', k, j)
  {
  }

  lemma SpawnTaskOk(s: System, i: nat, pid: nat, parent: int, k: nat)
    requires Inv(s) && Sized(s) && i < 32 && !Used(s, i) && 1 <= pid <= LAST_PID && (Used(s, k) || k == i)
    requires parent == -1 || (0 <= parent < 32 && Alive(s, parent))
    ensures TaskOk(Spawned(s, i, pid, parent), k)
  {
    hide Inv, Different, DeliveredOnce;
    var s' := Spawned(s, i, pid, parent);
    if k == i {
      if parent != -1 { assert ParentIs(s', i, parent); }
    } else {
      InvTask(s, k);
      if s'.tasks[k].parent != 0 {
        var p: nat :| ParentIs(s, k, p);
        assert ParentIs(s', k, p);
      }
      if s'.tasks[k].state == Waiting {
        var d: nat :| WaitsForChild(s, k, d);
        assert WaitsForChild(s', k, d);
      }
    }
  }

  lemma SpawnDelivers(s: System, i: nat, pid: nat, parent: int)
    requires Inv(s) && Sized(s) && i < 32 && -1 <= parent < 32
    ensures DeliveredOnce(Spawned(s, i, pid, parent))
  {
    hide TaskOk, Different;
  }

  // ----- Runs -----

  datatype Event =
    | Spawn(slot: nat, pid: nat, parent: int)
    | WaitFor(pid: nat)
    | Exit(status: int)
    | StopTask(pid: nat)
    | EndSession(except: nat)
    | ReapZombies
    | Tick(now: nat)
    | Sleep(until: nat)
    | Switch(slot: nat)

  /** The current task is running. */
  predicate Running(s: System) { Sized(s) && 0 <= s.current && s.tasks[s.current].state == Ready }

  ghost predicate Enabled(s: System, e: Event) {
    Sized(s) &&
    match e
    case Spawn(i, pid, parent) =>
      i < 32 && !Used(s, i) && 1 <= pid <= LAST_PID && ByPid(s, pid) == 32
      && (parent == -1 || (0 <= parent < 32 && Alive(s, parent)))
    case Exit(_) => Running(s) && s.tasks[s.current].pid != 1
    case EndSession(_) => true
    case ReapZombies => true
    case Tick(_) => true
    case Switch(i) => i < 32 && s.tasks[i].state == Ready
    case _ => Running(s)
  }

  function Next(s: System, e: Event): System
    requires Sized(s)
    requires e.Spawn? ==> e.slot < 32 && -1 <= e.parent < 32
    requires e.Switch? ==> e.slot < 32
    requires e.WaitFor? || e.Exit? || e.StopTask? || e.Sleep? ==> 0 <= s.current
  {
    match e
    case Spawn(i, pid, parent) => Spawned(s, i, pid, parent)
    case WaitFor(pid) => Wait(s, pid).0
    case Exit(status) => Finish(s, s.current, status)
    case StopTask(pid) => Stop(s, pid).0
    case EndSession(except) => Reap(EndFrom(s, except, 0))
    case ReapZombies => Reap(s)
    case Tick(now) => s.(tasks := TickTo(s, now, 32))
    case Sleep(until) => s.(tasks := s.tasks[s.current := s.tasks[s.current].(wake := until, state := Sleeping)])
    case Switch(i) => s.(current := i)
  }

  lemma StepKeeps(s: System, e: Event)
    requires Inv(s) && Enabled(s, e)
    ensures Inv(Next(s, e))
  {
    hide Inv, Finish, TaskOk, Different, DeliveredOnce, EndFrom;
    InvSized(s);
    InvRest(s);
    match e
    case Spawn(i, pid, parent) => SpawnKeeps(s, i, pid, parent);
    case WaitFor(pid) => WaitKeeps(s, pid);
    case Exit(status) => FinishKeeps(s, s.current, status);
    case StopTask(pid) => StopKeeps(s, pid);
    case EndSession(except) =>
      EndKeeps(s, except, 0);
      ReapKeeps(EndFrom(s, except, 0));
    case ReapZombies => ReapKeeps(s);
    case Tick(now) =>
      var s' := Next(s, e);
      assert forall k: nat :: k < 32 ==> CalmTask(s, s', k);
      CalmKeeps(s, s');
    case Sleep(until) =>
      var s' := Next(s, e);
      assert forall k: nat :: k < 32 ==> CalmTask(s, s', k);
      CalmKeeps(s, s');
    case Switch(i) =>
      var s' := Next(s, e);
      assert forall k: nat :: k < 32 ==> CalmTask(s, s', k);
      CalmKeeps(s, s');
  }
}
