/** kernel/task.c on the task table in place. */
module Tasks {
  import opened TaskProtocol
  import opened TaskRuns

  // ----- Process numbers -----

  /** The k-th number after start. */
  function Nth(start: nat, k: nat): nat {
    if k == 0 then start else Successor(Nth(start, k - 1))
  }

  lemma {:induction false} NthValue(start: nat, k: nat)
    requires 1 <= start <= LAST_PID && k <= 64
    ensures Nth(start, k) == if start + k <= LAST_PID then start + k else start + k - LAST_PID + 1
  {
    if k > 0 { NthValue(start, k - 1); }
  }

  lemma {:induction false} BoundedSize(s: set<nat>, n: nat)
    requires forall x :: x in s ==> x < n
    ensures |s| <= n
    decreases n
  {
    if n > 0 {
      BoundedSize(s - {n - 1}, n - 1);
      if n - 1 in s { assert s == (s - {n - 1}) + {n - 1}; } else { assert s - {n - 1} == s; }
    } else {
      assert s == {};
    }
  }

  datatype SpawnResult = Pid(pid: nat) | NoSlot | Failed

  class Table {
    const tasks: array<Task>
    /** The slot of the running task, or -1. */
    var current: int
    var nextPid: nat
    /** How many tasks there have been, and which statuses were delivered; only for the statements. */
    var spawned: nat
    ghost var deliveries: seq<Delivery>

    ghost predicate Shape()
      reads this
    {
      tasks.Length == 32 && -1 <= current < 32
    }

    ghost function Sys(): (s: System)
      requires Shape()
      reads this, tasks
      ensures Sized(s)
    {
      System(tasks[..], current, nextPid, spawned, deliveries)
    }

    ghost predicate Valid()
      reads this, tasks
    {
      Shape() && Inv(Sys())
    }

    /** task_init() */
    constructor ()
      ensures Valid() && Initial(Sys()) && fresh(tasks)
    {
      tasks := new Task[32](_ => NO_TASK);
      current, nextPid, spawned, deliveries := -1, 1, 0, [];
      new;
      InitialInv(Sys());
    }

    /** by_pid() */
    method FindPid(pid: nat) returns (i: nat)
      requires Shape()
      ensures i == ByPid(Sys(), pid) && (i < 32 ==> Used(Sys(), i) && tasks[i].pid == pid)
    {
      for k := 0 to 32
        invariant ByPid(Sys(), pid) == ByPidFrom(Sys(), pid, k)
      {
        if tasks[k].state != Empty && tasks[k].pid == pid { return k; }
      }
      i := 32;
    }

    /** allocate_pid(): the first unused number from next_pid on; there is one among any 33. */
    method AllocatePid() returns (pid: nat)
      requires Valid()
      modifies this`nextPid
      ensures Valid() && Sys() == old(Sys()).(nextPid := Successor(pid))
      ensures 1 <= pid <= LAST_PID && ByPid(Sys(), pid) == 32
      ensures exists k: nat :: pid == Nth(old(nextPid), k) && forall j: nat :: j < k ==>
                ByPid(old(Sys()), Nth(old(nextPid), j)) < 32
    {
      hide Inv, ByPid, Nth;
      InvRest(Sys());
      NthNext(nextPid, 0);
      ghost var start, k, slots: set<nat> := nextPid, 0, {};
      ghost var s := Sys();
      while true
        invariant Shape() && Sys() == s.(nextPid := nextPid) && Inv(s)
        invariant nextPid == Nth(start, k) && 1 <= nextPid <= LAST_PID
        invariant |slots| == k && (forall c :: c in slots ==> c < 32)
        invariant forall c :: c in slots ==> exists j: nat :: j < k && s.tasks[c].pid == Nth(start, j)
        invariant forall j: nat :: j < k ==> ByPid(s, Nth(start, j)) < 32
        decreases 33 - k
      {
        BoundedSize(slots, 32);
        pid := nextPid;
        nextPid := if nextPid >= 0x7fff_ffff then 2 else nextPid + 1;
        var c := FindPid(pid);
        NextPidKeeps(s, nextPid);
        SameByPid(s, Sys(), pid);
        if c == 32 { return; }
        SlotIsNew(s, start, k, slots, c);
        NthNext(start, k);
        slots := slots + {c};
        k := k + 1;
        BoundedSize(slots, 32);
      }
    }

    /** task_reap() */
    method TaskReap()
      requires Valid()
      modifies tasks
      ensures Valid() && Sys() == Reap(old(Sys()))
    {
      hide Inv;
      ghost var s := Sys();
      for i := 0 to 32
        invariant forall k :: i <= k < 32 ==> tasks[k] == s.tasks[k]
        invariant forall k :: 0 <= k < i ==> tasks[k] == if Reapable(s, k) then NO_TASK else s.tasks[k]
      {
        if i == current || tasks[i].state != Zombie { continue; }
        if tasks[i].collected || tasks[i].parent == 0 { tasks[i] := NO_TASK; }
      }
      ReapKeeps(s);
      assert tasks[..] == ReapTo(s, 32);
    }

    /** spawn(); prepared and stacked say whether the image and the kernel stack could be had. */
    method Spawn(parent: int, prepared: bool, stacked: bool) returns (r: SpawnResult)
      requires Valid() && (parent == -1 || (0 <= parent < 32 && Alive(Sys(), parent)))
      modifies this`nextPid, this`spawned, tasks
      ensures Valid()
      ensures r.Pid? ==> exists i: nat :: Enabled(Reap(old(Sys())), TaskProtocol.Spawn(i, r.pid, parent))
                                          && Sys() == Spawned(Reap(old(Sys())), i, r.pid, parent)
      ensures r.NoSlot? <==> forall i: nat :: i < 32 ==> Used(Reap(old(Sys())), i)
      ensures !r.Pid? ==> Sys() == Reap(old(Sys()))
    {
      hide Inv, ByPid;
      ReapKeeps(Sys());
      ParentStays(Sys(), parent);
      TaskReap();
      ghost var s := Sys();
      var i := 0;
      while i < 32 && tasks[i].state != Empty
        invariant 0 <= i <= 32 && forall k: nat :: k < i ==> Used(s, k)
      {
        i := i + 1;
      }
      if i == 32 { return NoSlot; }
      if !prepared || !stacked {
        assert !Used(s, i);
        return Failed;
      }
      var pid := AllocatePid();
      SameByPid(s, Sys(), pid);
      SpawnKeeps(s, i, pid, parent);
      tasks[i] := Task(Ready, pid, if parent == -1 then 0 else tasks[parent].pid, 0, 0, 0, false, 0, spawned);
      spawned := spawned + 1;
      assert Enabled(s, TaskProtocol.Spawn(i, pid, parent));
      assert tasks[..] == Spawned(s, i, pid, parent).tasks;
      r := Pid(pid);
    }

    /** Marking a zombie and orphaning its children. */
    method EndTask(i: nat, status: int)
      requires Shape() && i < 32
      modifies tasks
      ensures Sys() == Ended(old(Sys()), i, status)
    {
      ghost var s := Sys();
      var pid := tasks[i].pid;
      tasks[i] := tasks[i].(status := status, state := Zombie);
      ghost var marked := tasks[..];
      assert marked == s.tasks[i := s.tasks[i].(status := status, state := Zombie)];
      for k := 0 to 32
        invariant forall j :: k <= j < 32 ==> tasks[j] == marked[j]
        invariant forall j :: 0 <= j < k ==> tasks[j] == Orphaned(marked, pid)[j]
      {
        if tasks[k].state != Empty && tasks[k].parent == pid { tasks[k] := tasks[k].(parent := 0); }
      }
      assert tasks[..] == Orphaned(marked, pid);
    }

    /** Giving the status to a parent that waits for it. */
    method WakeParent(i: nat)
      requires Shape() && i < 32 && tasks[i].state == Zombie
      modifies tasks, this`deliveries
      ensures Sys() == Wake(old(Sys()), i)
    {
      hide ByPid;
      var p := FindPid(tasks[i].parent);
      if p < 32 && tasks[p].state == Waiting && tasks[p].waitPid == tasks[i].pid {
        tasks[p] := tasks[p].(reply := tasks[i].status, state := Ready);
        tasks[i] := tasks[i].(collected := true);
        deliveries := deliveries + [Delivery(tasks[p].serial, tasks[i].serial, tasks[i].status)];
      }
    }

    /** finish_notify() through finish() */
    method FinishTask(i: nat, status: int)
      requires Valid() && Used(Sys(), i)
      modifies tasks, this`deliveries
      ensures Valid() && Sys() == Finish(old(Sys()), i, status)
    {
      hide Inv, ByPid, Ended, Wake, Finish;
      ghost var s := Sys();
      if tasks[i].state == Zombie { FinishTwice(s, i, status); return; }
      FinishKeeps(s, i, status);
      FinishIs(s, i, status);
      EndedTask(s, i, status, i);
      EndTask(i, status);
      WakeParent(i);
    }

    /** task_exit(); false where the kernel panics because the first process ends. */
    method TaskExit(status: int) returns (ok: bool)
      requires Valid() && Running(Sys())
      modifies tasks, this`deliveries
      ensures Valid() && ok == (old(Sys()).tasks[current].pid != 1)
      ensures Sys() == if ok then Next(old(Sys()), Exit(status)) else old(Sys())
    {
      hide Inv, Finish;
      if tasks[current].pid == 1 { return false; }
      FinishTask(current, status);
      ok := true;
    }

    /** task_wait() */
    method TaskWait(pid: nat) returns (r: WaitResult)
      requires Valid() && Running(Sys())
      modifies tasks, this`deliveries
      ensures Valid() && (Sys(), r) == Wait(old(Sys()), pid)
    {
      hide Inv, ByPid;
      ghost var s := Sys();
      WaitKeeps(s, pid);
      var c := FindPid(pid);
      if c == 32 || tasks[c].parent != tasks[current].pid || tasks[c].collected { return NoChild; }
      if tasks[c].state == Zombie {
        deliveries := deliveries + [Delivery(tasks[current].serial, tasks[c].serial, tasks[c].status)];
        tasks[c] := tasks[c].(collected := true);
        return Status(tasks[c].status);
      }
      tasks[current] := tasks[current].(waitPid := pid, state := Waiting);
      r := Blocked;
    }

    /** task_stop() */
    method TaskStop(pid: nat) returns (r: StopResult)
      requires Valid() && Running(Sys())
      modifies tasks, this`deliveries
      ensures Valid() && (Sys(), r) == Stop(old(Sys()), pid)
    {
      hide Inv, ByPid, Finish;
      ghost var s := Sys();
      var i := FindPid(pid);
      if i == 32 || tasks[i].state == Zombie { return NoTask; }
      if pid == 1 || i == current || (tasks[current].pid != 1 && tasks[i].parent != tasks[current].pid) {
        return Denied;
      }
      FinishTask(i, 143);
      r := Stopped;
    }

    /** task_end_session() */
    method TaskEndSession(except: nat)
      requires Valid()
      modifies tasks, this`deliveries
      ensures Valid() && Sys() == Next(old(Sys()), EndSession(except))
    {
      hide Inv, Finish;
      ghost var s := Sys();
      for i := 0 to 32
        invariant Valid() && EndFrom(s, except, 0) == EndFrom(Sys(), except, i)
      {
        if tasks[i].state != Empty && tasks[i].state != Zombie && tasks[i].pid != 1 && tasks[i].pid != except {
          FinishTask(i, 143);
        }
      }
      TaskReap();
    }

    /** task_tick() */
    method TaskTick(now: nat)
      requires Valid()
      modifies tasks
      ensures Valid() && Sys() == Next(old(Sys()), Tick(now))
    {
      hide Inv;
      ghost var s := Sys();
      for i := 0 to 32
        invariant forall k :: i <= k < 32 ==> tasks[k] == s.tasks[k]
        invariant forall k :: 0 <= k < i ==> tasks[k] == TickTo(s, now, 32)[k]
      {
        if tasks[i].state == Sleeping && now >= tasks[i].wake { tasks[i] := tasks[i].(state := Ready); }
      }
      assert tasks[..] == TickTo(s, now, 32);
      StepKeeps(s, Tick(now));
    }

    /** One round of schedule(): the first ready slot after the current one, or none when the processor idles. */
    method Schedule() returns (found: bool)
      requires Valid()
      modifies this`current, tasks
      ensures Valid()
      ensures found <==> exists i: nat :: i < 32 && Reap(old(Sys())).tasks[i].state == Ready
      ensures if found then 0 <= current && Enabled(Reap(old(Sys())), Switch(current)) && Sys() == Next(Reap(old(Sys())), Switch(current))
              else Sys() == Reap(old(Sys()))
      ensures found ==> exists k: nat :: 1 <= k < 33 && current == Round(LastRun(old(current)), k)
                          && forall j: nat :: 1 <= j < k ==> Reap(old(Sys())).tasks[Round(LastRun(old(current)), j)].state != Ready
    {
      hide Inv;
      TaskReap();
      ghost var s := Sys();
      var index := LastRun(current);
      for step := 1 to 33
        invariant Sys() == s
        invariant forall k: nat :: 1 <= k < step ==> s.tasks[Round(index, k)].state != Ready
      {
        var i := Round(index, step);
        if tasks[i].state == Ready {
          StepKeeps(s, Switch(i));
          current := i;
          return true;
        }
      }
      forall i: nat | i < 32 ensures s.tasks[i].state != Ready { RoundTrip(index, i); }
      found := false;
    }
  }

  lemma FinishTwice(s: System, i: nat, status: int)
    requires Sized(s) && i < 32 && s.tasks[i].state == Zombie
    ensures Finish(s, i, status) == s
  {
  }

  lemma NthNext(start: nat, k: nat)
    ensures Nth(start, 0) == start && Nth(start, k + 1) == Successor(Nth(start, k))
  {
  }

  lemma NextPidKeeps(s: System, next: nat)
    requires Inv(s) && 1 <= next <= LAST_PID
    ensures Inv(s.(nextPid := next))
  {
    hide TaskOk, DeliveredOnce, Different;
    var s' := s.(nextPid := next);
    assert forall k: nat :: k < 32 ==> CalmTask(s, s', k);
    CalmKeeps(s, s');
  }

  lemma SameByPid(s: System, s': System, pid: nat)
    requires Sized(s) && Sized(s') && s'.tasks == s.tasks
    ensures ByPid(s', pid) == ByPid(s, pid)
  {
    SamePids(s, s', pid, 0);
  }

  lemma SlotIsNew(s: System, start: nat, k: nat, slots: set<nat>, c: nat)
    requires Sized(s) && 1 <= start <= LAST_PID && k <= 32 && c == ByPid(s, Nth(start, k)) && c < 32
    requires forall x :: x in slots ==> x < 32 && exists j: nat :: j < k && s.tasks[x].pid == Nth(start, j)
    ensures c !in slots && s.tasks[c].pid == Nth(start, k)
  {
    forall j: nat | j < k ensures Nth(start, j) != Nth(start, k) {
      NthValue(start, j);
      NthValue(start, k);
    }
  }

  lemma ParentStays(s: System, parent: int)
    requires Inv(s) && (parent == -1 || (0 <= parent < 32 && Alive(s, parent)))
    ensures parent == -1 || Alive(Reap(s), parent)
  {
    hide Inv;
  }

  /** The slot that ran last, or the last slot before the first task runs. */
  function LastRun(current: int): nat { if current >= 0 then current else 31 }

  /** The k-th slot after index. */
  function Round(index: nat, k: nat): (i: nat)
    ensures i < 32
  {
    (index + k) % 32
  }

  lemma RoundTrip(index: nat, i: nat)
    requires index < 32 && i < 32
    ensures exists k: nat :: 1 <= k < 33 && Round(index, k) == i
  {
    var k := if i > index then i - index else i + 32 - index;
    assert 1 <= k < 33 && Round(index, k) == i;
  }
}
