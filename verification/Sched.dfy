/**
 The scheduler code itself, on the task array it updates in place: the tick, the end of a task, suspend,
 resume, kill and the launch path. Every method is proved against the step of the scheduler on values,
 which carries the invariant and liveness.
 */
module SchedTable {
  import opened Bytes
  import opened SchedSpec

  /** What `exec_spawn` does: -16 while an aux task is runnable, -12 when the table is full. */
  function ExecSpawn(s: Sched, domain: u64, t: Task): (Sched, int)
    requires Inv(s) && t.state == Runnable
  {
    if exists i | 0 <= i < MAX_TASKS :: IsAux(s.tasks[i], Runnable) then var busy: int := -16; (s, busy)
    else
      var r := Registered(s, domain);
      var idx := FirstAux(r.tasks, 0);
      if idx < MAX_TASKS then (SpawnAt(r, idx, t), idx)
      else if r.count >= MAX_TASKS then var full: int := -12; (r, full)
      else (SpawnAt(r, r.count, t), r.count)
  }

  predicate IsAux(t: Task, state: State) {
    t.kstackTop == AUX_KSTACK && t.state == state
  }

  /** The implicit task becomes task 0 when nothing is registered yet. */
  function Registered(s: Sched, domain: u64): Sched
    requires |s.tasks| == MAX_TASKS
  {
    if s.count == 0
    then s.(tasks := s.tasks[0 := Implicit(domain)], count := 1, rsp0 := IMPLICIT_KSTACK)
    else s
  }

  const IMPLICIT_KSTACK: u64 := 0x38_0000

  function Implicit(domain: u64): Task {
    Task(0, IMPLICIT_KSTACK, Runnable, 0, false, false, domain, 0, 0, 0)
  }

  /** The first dead aux slot from i on, or the table size. */
  function FirstAux(ts: seq<Task>, i: nat): (r: nat)
    requires i <= |ts|
    ensures i <= r <= |ts|
    ensures r < |ts| ==> IsAux(ts[r], Dead)
    ensures forall j | i <= j < r :: !IsAux(ts[j], Dead)
    decreases |ts| - i
  {
    if i < |ts| && !IsAux(ts[i], Dead) then FirstAux(ts, i + 1) else i
  }

  /** A launch is a step of the scheduler on the table with the implicit task registered: a successful one takes a
      dead aux slot or a new one and touches no other task, a refused one changes nothing more. */
  lemma ExecSpawnIsStep(s: Sched, domain: u64, t: Task)
    requires Inv(s) && t.state == Runnable
    ensures var (r, rc) := ExecSpawn(s, domain, t);
            var b := Registered(s, domain);
            && Inv(b) && (s.count > 0 ==> b == s)
            && (s.count == 0 ==> b == Step(s, Grow(Implicit(domain))).(rsp0 := IMPLICIT_KSTACK))
            && (rc < 0 <==> r == b)
            && (rc >= 0 ==> rc < MAX_TASKS && (r == Step(b, Grow(t)) || r == Step(b, Revive(rc, t)))
                            && IsRunnable(r.tasks, rc) && r.tasks[rc] == t && !IsRunnable(b.tasks, rc))
  {
    var b := Registered(s, domain);
    var idx := FirstAux(b.tasks, 0);
    if idx < MAX_TASKS {
      assert b.tasks[idx].state != Empty;
    }
  }

  /** Task i runs on the aux kernel stack. */
  predicate OnAux(s: Sched, i: nat, st: State) {
    i < |s.tasks| && s.tasks[i].kstackTop == 0x3C_0000 && s.tasks[i].state == st
  }

  /** What a launch answers: -16 while an aux task is runnable; otherwise the lowest slot of a dead aux task, or else the
      next new slot of eight, or else -12; the slot then holds the task. */
  lemma SpawnIff(s: Sched, domain: u64, t: Task, r: Sched, rc: int, n: nat)
    requires Inv(s) && t.state == Runnable && (r, rc) == ExecSpawn(s, domain, t)
    requires n == if s.count == 0 then 1 else s.count
    ensures rc == -16 <==> exists i: nat :: OnAux(s, i, Runnable)
    ensures rc == -16 ==> r == s
    ensures rc == -12 <==> (forall i: nat :: !OnAux(s, i, Runnable) && !OnAux(s, i, Dead)) && n == 8
    ensures rc !in {-16, -12} ==>
              && 0 <= rc < 8 && r.tasks[rc] == t && r.cur == s.cur && r.count == (if rc < n then n else n + 1)
              && (if exists i: nat :: OnAux(s, i, Dead) then OnAux(s, rc, Dead) && forall i: nat | i < rc :: !OnAux(s, i, Dead)
                  else rc == n)
              && (forall i: nat | i < 8 && i != rc && (i > 0 || s.count > 0) :: r.tasks[i] == s.tasks[i])
    ensures s.count == 0 && rc != -16 ==>
              r.tasks[0] == Task(0, 0x38_0000, Runnable, 0, false, false, domain, 0, 0, 0) && r.rsp0 == 0x38_0000
  {
    var b := Registered(s, domain);
    var idx := FirstAux(b.tasks, 0);
    forall i: nat | i < 8
      ensures IsAux(s.tasks[i], Runnable) <==> OnAux(s, i, Runnable)
      ensures IsAux(b.tasks[i], Dead) <==> OnAux(s, i, Dead)
    {
    }
    if idx < 8 {
      assert OnAux(s, idx, Dead);
    }
  }

  /** The table after the first launch. */
  function Launched(a: Task): Sched {
    Start().(tasks := Start().tasks[0 := Implicit(0)][1 := a], count := 2, rsp0 := IMPLICIT_KSTACK)
  }

  lemma FirstLaunch(a: Task)
    requires a.state == Runnable
    ensures Inv(Start()) && ExecSpawn(Start(), 0, a) == (Launched(a), 1) && Inv(Launched(a)) && Coherent(Launched(a))
  {
    var s := Registered(Start(), 0);
    assert forall i | 0 <= i < MAX_TASKS :: !IsAux(s.tasks[i], Dead);
    assert FirstAux(s.tasks, 0) == MAX_TASKS;
    assert SpawnAt(s, 1, a).tasks == Launched(a).tasks;
  }

  /** From boot on: an aux task is launched, gets the processor and is killed; the next launch takes its slot, and the
      processor stays in the address space of the dead task. */
  lemma IncoherentExample(a: Task, b: Task, frame: u64, s2: Sched, s3: Sched)
    requires a.state == b.state == Runnable && a.kstackTop == b.kstackTop == AUX_KSTACK && SpaceOf(a) != SpaceOf(b)
    requires Inv(Launched(a)) && s2 == Step(Launched(a), Interrupt(true, frame, 0))
    requires Inv(s2) && s3 == Step(s2, KillTask(1)) && Inv(s3)
    ensures ExecSpawn(Start(), 0, a) == (Launched(a), 1) && Coherent(s3)
    ensures ExecSpawn(s3, 0, b).1 == 1 && Inv(ExecSpawn(s3, 0, b).0) && !Coherent(ExecSpawn(s3, 0, b).0)
  {
    FirstLaunch(a);
    assert Scan(Launched(a).tasks, 2, 1, 0) == 1;
    assert s2.cur == 1 && s2.space == SpaceOf(a) && s2.rsp0 == AUX_KSTACK && s2.count == 2;
    assert s3.tasks[1] == a.(state := Dead) && IsAux(s3.tasks[1], Dead);
    assert !IsAux(s3.tasks[0], Dead) && FirstAux(s3.tasks, 0) == FirstAux(s3.tasks, 1) == 1;
    assert forall i | 0 <= i < MAX_TASKS :: !IsAux(s3.tasks[i], Runnable);
  }

  class Scheduler {
    const tasks: array<Task>
    var count: nat
    var cur: nat
    var nextRsp: u64
    var rsp0: u64
    var space: Space
    var mustSwitch: bool
    var boundDomain: u64

    ghost function View(): Sched
      reads this, tasks
    {
      Sched(tasks[..], count, cur, nextRsp, rsp0, space, mustSwitch)
    }

    ghost predicate Valid()
      reads this, tasks
    {
      tasks.Length == MAX_TASKS && Inv(View())
    }

    constructor ()
      ensures Valid() && fresh(tasks) && View() == Start() && boundDomain == 0
    {
      tasks := new Task[MAX_TASKS](_ => VACANT);
      count, cur, nextRsp, rsp0, space, mustSwitch, boundDomain := 0, 0, 0, 0, Boot, false, 0;
    }

    /** The search loop shared by the tick and the crash path. */
    method FindNext() returns (next: nat)
      requires Valid() && count > 0
      ensures next == Next(View())
    {
      next := (cur + 1) % count;
      var guard: nat := 0;
      while tasks[next].state != Runnable && guard < count
        invariant next < count && guard <= count
        invariant Scan(tasks[..], count, (cur + 1) % count, 0) == Scan(tasks[..], count, next, guard)
        decreases count - guard
      {
        next := (next + 1) % count;
        guard := guard + 1;
      }
    }

    method SwitchCr3(cr3: u64)
      modifies `space
      ensures space == if cr3 == 0 then Boot else Own(cr3)
    {
      space := if cr3 == 0 then Boot else Own(cr3);
    }

    /** `fujo_tick_sched` */
    method TickSched(user: bool, frame: u64, userRsp: u64) returns (switched: bool)
      requires Valid()
      modifies this, tasks
      ensures Valid() && (View(), switched) == Tick(old(View()), user, frame, userRsp)
      ensures boundDomain == old(boundDomain)
    {
      StepInv(View(), Interrupt(user, frame, userRsp));
      if !user {
        return false;
      }
      DeliverSignal(userRsp);
      if count < 2 {
        return false;
      }
      switched := Preempt(frame);
    }

    /** The interrupted frame is kept, and the next runnable task takes over if there is another one. */
    method Preempt(frame: u64) returns (switched: bool)
      requires Valid() && count >= 2
      modifies this, tasks
      ensures boundDomain == old(boundDomain)
      ensures Inv(old(View())) && tasks.Length == MAX_TASKS
      ensures var e := Saved(old(View()), frame);
              (View(), switched) == if Next(e) != e.cur && e.tasks[Next(e)].state == Runnable
                                    then (SwitchTo(e, Next(e)), true) else (e, false)
    {
      tasks[cur] := tasks[cur].(savedRsp := frame);
      var next := FindNext();
      if next != cur && tasks[next].state == Runnable {
        cur := next;
        nextRsp := tasks[next].savedRsp;
        rsp0 := tasks[next].kstackTop;
        SwitchCr3(tasks[next].cr3);
        return true;
      }
      return false;
    }

    /** The bookkeeping of `maybe_deliver_signal`: pending becomes active when a handler can be entered. */
    method DeliverSignal(userRsp: u64)
      requires Valid()
      modifies tasks
      ensures View() == Delivered(old(View()), userRsp)
      ensures Valid()
    {
      if cur >= count {
        return;
      }
      var t := tasks[cur];
      if !t.sigPending || t.sigActive || t.sigHandler == 0 {
        return;
      }
      if userRsp < 0x80 {
        return;
      }
      tasks[cur] := t.(sigPending := false, sigActive := true);
    }

    /** `terminate_current_and_next` */
    method TerminateCurrentAndNext() returns (ok: bool)
      requires Valid()
      modifies this, tasks
      ensures Valid() && (View(), ok) == Terminate(old(View()))
      ensures boundDomain == old(boundDomain)
    {
      StepInv(View(), Crash);
      if count < 2 {
        return false;
      }
      tasks[cur] := tasks[cur].(state := Dead);
      var next := FindNext();
      if tasks[next].state == Runnable {
        cur := next;
        nextRsp := tasks[next].savedRsp;
        rsp0 := tasks[next].kstackTop;
        SwitchCr3(tasks[next].cr3);
        mustSwitch := true;
        return true;
      }
      return false;
    }

    /** `kill_task` */
    method KillById(id: nat) returns (rc: int)
      requires Valid()
      modifies tasks
      ensures Valid() && (View(), rc) == Kill(old(View()), id)
    {
      StepInv(View(), KillTask(id));
      if id < MAX_TASKS && tasks[id].state == Runnable {
        tasks[id] := tasks[id].(state := Dead);
        return 0;
      }
      return -1;
    }

    /** `task_suspend`: the current task is refused. */
    method SuspendById(id: nat) returns (rc: int)
      requires Valid()
      modifies tasks
      ensures Valid() && (View(), rc) == Suspend(old(View()), id)
    {
      StepInv(View(), SuspendTask(id));
      if id < MAX_TASKS && tasks[id].state == Runnable && id != cur {
        tasks[id] := tasks[id].(state := Suspended);
        return 0;
      }
      return -1;
    }

    /** `task_resume` */
    method ResumeById(id: nat) returns (rc: int)
      requires Valid()
      modifies tasks
      ensures Valid() && (View(), rc) == Resume(old(View()), id)
    {
      StepInv(View(), ResumeTask(id));
      if id < MAX_TASKS && tasks[id].state == Suspended {
        tasks[id] := tasks[id].(state := Runnable);
        return 0;
      }
      return -1;
    }

    method AuxRunning() returns (busy: bool)
      requires Valid()
      ensures busy <==> exists i | 0 <= i < MAX_TASKS :: IsAux(View().tasks[i], Runnable)
    {
      for i := 0 to MAX_TASKS
        invariant forall j | 0 <= j < i :: !IsAux(tasks[j], Runnable)
      {
        if tasks[i].kstackTop == AUX_KSTACK && tasks[i].state == Runnable {
          assert IsAux(View().tasks[i], Runnable);
          return true;
        }
      }
      return false;
    }

    method RegisterImplicit()
      requires Valid()
      modifies this, tasks
      ensures Valid() && View() == Registered(old(View()), boundDomain) && boundDomain == old(boundDomain)
    {
      if count == 0 {
        tasks[0] := Implicit(boundDomain);
        count := 1;
        rsp0 := IMPLICIT_KSTACK;
      }
    }

    method DeadAux() returns (idx: nat)
      requires Valid()
      ensures idx == FirstAux(View().tasks, 0)
    {
      idx := 0;
      while idx < MAX_TASKS && !(tasks[idx].kstackTop == AUX_KSTACK && tasks[idx].state == Dead)
        invariant idx <= MAX_TASKS && FirstAux(tasks[..], 0) == FirstAux(tasks[..], idx)
      {
        idx := idx + 1;
      }
    }

    /** `exec_spawn`: t is the new task, with its first frame and the address space `as_create` gave it. */
    method Spawn(t: Task) returns (rc: int)
      requires Valid() && t.state == Runnable && t.kstackTop == AUX_KSTACK
      modifies this, tasks
      ensures Valid() && (View(), rc) == ExecSpawn(old(View()), boundDomain, t)
      ensures boundDomain == old(boundDomain)
    {
      var busy := AuxRunning();
      if busy {
        return -16;
      }
      RegisterImplicit();
      var idx := DeadAux();
      if idx == MAX_TASKS {
        if count >= MAX_TASKS {
          return -12;
        }
        idx := count;
      }
      tasks[idx] := t;
      if idx >= count {
        count := idx + 1;
      }
      return idx;
    }
  }
}
