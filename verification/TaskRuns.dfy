/** Whole runs of the task protocol of kernel/task.c: no wake-up and no status is lost. */
module TaskRuns {
  import opened TaskProtocol

  /** task_init() */
  predicate Initial(s: System) {
    |s.tasks| == 32 && (forall i :: 0 <= i < 32 ==> s.tasks[i] == NO_TASK) && s.current == -1 && s.nextPid == 1 && s.spawned == 0
    && s.deliveries == []
  }

  ghost predicate Run(run: seq<System>, events: seq<Event>) {
    && |run| == |events| + 1 && Initial(run[0])
    && forall i :: 0 <= i < |events| ==> Enabled(run[i], events[i]) && run[i + 1] == Next(run[i], events[i])
  }

  lemma InitialInv(s: System)
    requires Initial(s)
    ensures Inv(s)
  {
  }

  lemma {:induction false} RunInv(run: seq<System>, events: seq<Event>, i: nat)
    requires Run(run, events) && i < |run|
    ensures Inv(run[i])
    decreases i
  {
    hide Inv, Next, Enabled, Initial;
    if i == 0 {
      InitialInv(run[0]);
    } else {
      RunInv(run, events, i - 1);
      assert Enabled(run[i - 1], events[i - 1]);
      EnabledIs(run[i - 1], events[i - 1]);
      assert run[i - 1 + 1] == Next(run[i - 1], events[i - 1]);
      StepKeeps(run[i - 1], events[i - 1]);
    }
  }

  lemma EnabledIs(s: System, e: Event)
    requires Enabled(s, e)
    ensures Sized(s) && (e.Spawn? ==> e.slot < 32 && -1 <= e.parent < 32) && (e.Switch? ==> e.slot < 32)
    ensures e.WaitFor? || e.Exit? || e.StopTask? || e.Sleep? ==> 0 <= s.current
  {
  }

  /** No wake-up is lost: whoever waits has a child of its own that is neither ended nor collected, and the end
      of that child makes it ready with the child's status, however the child ends. */
  lemma NoLostWakeup(run: seq<System>, events: seq<Event>, i: nat, w: nat, status: int)
    requires Run(run, events) && i < |run| && Sized(run[i]) && w < 32 && run[i].tasks[w].state == Waiting
    ensures
      var s := run[i];
      var c := ByPid(s, s.tasks[w].waitPid);
      && c < 32 && WaitsForChild(s, w, c)
      && Finish(s, c, status).tasks[w].state == Ready && Finish(s, c, status).tasks[w].reply == status
      && Finish(s, c, status).deliveries == s.deliveries + [Delivery(s.tasks[w].serial, s.tasks[c].serial, status)]
  {
    hide Inv, Run, Finish, Ended, TaskOk, Different, DeliveredOnce, ByPid, Wakes;
    var s := run[i];
    RunInv(run, events, i);
    InvTask(s, w);
    TaskWaits(s, w);
    var c: nat :| WaitsForChild(s, w, c);
    ByPidIs(s, c);
    WakesIf(s, c, w, c);
    OnlyParentWakes(s, c);
    FinishTasks(s, c, status);
    EndedTask(s, c, status, w);
  }

  lemma TaskWaits(s: System, w: nat)
    requires Sized(s) && Used(s, w) && TaskOk(s, w) && s.tasks[w].state == Waiting
    ensures exists c: nat :: WaitsForChild(s, w, c)
  {
  }

  /** Each exit status reaches a parent at most once, in any run. */
  lemma StatusAtMostOnce(run: seq<System>, events: seq<Event>, i: nat, a: nat, b: nat)
    requires Run(run, events) && i < |run| && a < b < |run[i].deliveries|
    ensures run[i].deliveries[a].child != run[i].deliveries[b].child
  {
    hide Run, TaskOk, Different;
    RunInv(run, events, i);
  }

  /** Process numbers of occupied slots are unique. */
  lemma PidsUnique(run: seq<System>, events: seq<Event>, i: nat, j: nat, k: nat)
    requires Run(run, events) && i < |run| && Sized(run[i]) && Used(run[i], j) && Used(run[i], k)
        && run[i].tasks[j].pid == run[i].tasks[k].pid
    ensures j == k
  {
    hide Inv, Run, TaskOk, DeliveredOnce;
    RunInv(run, events, i);
    InvDifferent(run[i], j, k);
  }

  // ----- No status is lost -----

  /** An ended task whose parent has not heard of it. */
  predicate Unreported(s: System, c: nat)
    requires Sized(s)
  {
    c < 32 && s.tasks[c].state == Zombie && !s.tasks[c].collected && s.tasks[c].parent != 0
  }

  /** Its status stays until the parent waits for it or ends itself; reaping never drops it. */
  lemma StatusKept(s: System, e: Event, c: nat)
    requires Inv(s) && Enabled(s, e) && Unreported(s, c)
    ensures
      var s' := Next(s, e);
      && Sized(s') && s.deliveries <= s'.deliveries
      && (|| s'.tasks[c] == s.tasks[c]
          || s'.tasks[c].parent == 0
          || (e.WaitFor? && s'.deliveries == s.deliveries + [Delivery(s.tasks[s.current].serial, s.tasks[c].serial, s.tasks[c].status)]))
  {
    hide Inv, Finish, TaskOk, Different, DeliveredOnce, EndFrom, Ended;
    InvSized(s);
    InvRest(s);
    match e
    case Exit(status) => FinishKeepsZombie(s, s.current, status, c);
    case StopTask(pid) =>
      var i := ByPid(s, pid);
      if i < 32 && s.tasks[i].state != Zombie { FinishKeepsZombie(s, i, 143, c); }
    case EndSession(except) => EndKeepsZombie(s, except, 0, c);
    case WaitFor(pid) => WaitKeepsZombie(s, pid, c);
    case _ =>
  }

  lemma WaitKeepsZombie(s: System, pid: nat, c: nat)
    requires Inv(s) && Sized(s) && Unreported(s, c) && Running(s)
    ensures s.deliveries <= Wait(s, pid).0.deliveries
    ensures Wait(s, pid).0.tasks[c] == s.tasks[c]
            || Wait(s, pid).0.deliveries == s.deliveries + [Delivery(s.tasks[s.current].serial, s.tasks[c].serial, s.tasks[c].status)]
  {
    hide Inv, TaskOk, Different, DeliveredOnce;
  }

  lemma FinishKeepsZombie(s: System, i: nat, status: int, c: nat)
    requires Inv(s) && Sized(s) && Alive(s, i) && c < 32 && s.tasks[c].state == Zombie && !s.tasks[c].collected
    ensures
      var s' := Finish(s, i, status);
      && s'.tasks[c] == s.tasks[c].(parent := s'.tasks[c].parent)
      && (s'.tasks[c].parent == s.tasks[c].parent || s'.tasks[c].parent == 0)
      && s.deliveries <= s'.deliveries && s'.current == s.current
  {
    hide Inv, TaskOk, Different, DeliveredOnce, Ended, Finish;
    FinishTasks(s, i, status);
    EndedTask(s, i, status, c);
  }

  lemma {:induction false} EndKeepsZombie(s: System, except: nat, i: nat, c: nat)
    requires Inv(s) && Sized(s) && i <= 32 && c < 32 && s.tasks[c].state == Zombie && !s.tasks[c].collected
    ensures
      var s' := EndFrom(s, except, i);
      && s'.tasks[c] == s.tasks[c].(parent := s'.tasks[c].parent)
      && (s'.tasks[c].parent == s.tasks[c].parent || s'.tasks[c].parent == 0)
      && s.deliveries <= s'.deliveries && s'.current == s.current
    decreases 32 - i
  {
    hide Inv, TaskOk, Different, DeliveredOnce, Finish;
    if i < 32 {
      var s1 := if Ends(s, i, except) then Finish(s, i, 143) else s;
      if Ends(s, i, except) {
        FinishKeeps(s, i, 143);
        FinishKeepsZombie(s, i, 143, c);
      }
      EndKeepsZombie(s1, except, i + 1, c);
    }
  }

  /** Waiting for an ended child at once gives its status. */
  lemma WaitGetsStatus(s: System, c: nat)
    requires Inv(s) && Running(s) && Unreported(s, c) && s.tasks[c].parent == s.tasks[s.current].pid
    ensures Wait(s, s.tasks[c].pid).1 == Status(s.tasks[c].status)
    ensures Wait(s, s.tasks[c].pid).0.deliveries ==
              s.deliveries + [Delivery(s.tasks[s.current].serial, s.tasks[c].serial, s.tasks[c].status)]
    ensures Reapable(Wait(s, s.tasks[c].pid).0, c) || c == s.current
  {
    hide Inv, TaskOk, Different, DeliveredOnce;
    ByPidIs(s, c);
  }
}
