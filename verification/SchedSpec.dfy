/** The round-robin scheduler on values: the task table, its steps, and what every run of steps keeps. */
module SchedSpec {
  import opened Bytes

  const MAX_TASKS := 8
  const AUX_KSTACK: u64 := 0x3C_0000

  datatype State = Empty | Runnable | Suspended | Dead

  datatype Task = Task(savedRsp: u64, kstackTop: u64, state: State, sigHandler: u64, sigPending: bool, sigActive: bool,
                       domain: u64, cr3: u64, heap0: u64, heap1: u64)

  const VACANT := Task(0, 0, Empty, 0, false, false, 0, 0, 0, 0)

  /** The table, the current task, and what the interrupt stub and the processor have been given. */
  datatype Sched = Sched(tasks: seq<Task>, count: nat, cur: nat, nextRsp: u64, rsp0: u64, space: Space, mustSwitch: bool)

  /** What CR3 holds: the boot tables, or a task's own. */
  datatype Space = Boot | Own(cr3: u64)

  function SpaceOf(t: Task): Space {
    if t.cr3 == 0 then Boot else Own(t.cr3)
  }

  /** Exactly the first `count` slots are in use, and the current task is one of them and not a suspended one. */
  predicate Inv(s: Sched) {
    && |s.tasks| == MAX_TASKS && s.count <= MAX_TASKS
    && (forall i | 0 <= i < MAX_TASKS :: s.tasks[i].state == Empty <==> i >= s.count)
    && (if s.count == 0 then s.cur == 0 else s.cur < s.count && s.tasks[s.cur].state != Suspended)
  }

  /** The empty table at boot. */
  function Start(): Sched {
    Sched(seq(8, _ => VACANT), 0, 0, 0, 0, Boot, false)
  }

  lemma StartInv()
    ensures Inv(Start())
    ensures forall i | 0 <= i < 8 :: Start().tasks[i] == Task(0, 0, Empty, 0, false, false, 0, 0, 0, 0)
    ensures Start() == Sched(Start().tasks, 0, 0, 0, 0, Boot, false)
  {
  }

  predicate IsRunnable(ts: seq<Task>, i: nat) {
    i < |ts| && ts[i].state == Runnable
  }

  // ------------------------------------------------------------------ steps

  /** The search loop from slot `next` on, after `guard` slots. */
  function Scan(ts: seq<Task>, n: nat, next: nat, guard: nat): (r: nat)
    requires next < n <= |ts| && guard <= n
    ensures r < n
    decreases n - guard
  {
    if ts[next].state != Runnable && guard < n then Scan(ts, n, (next + 1) % n, guard + 1) else next
  }

  function SwitchTo(s: Sched, next: nat): Sched
    requires next < |s.tasks|
  {
    var t := s.tasks[next];
    s.(cur := next, nextRsp := t.savedRsp, rsp0 := t.kstackTop, space := SpaceOf(t))
  }

  predicate Delivers(t: Task, userRsp: u64) {
    t.sigPending && !t.sigActive && t.sigHandler != 0 && userRsp >= 0x80
  }

  function Update(s: Sched, i: nat, t: Task): Sched
    requires i < |s.tasks|
  {
    s.(tasks := s.tasks[i := t])
  }

  /** Signal bookkeeping for the interrupted task: pending becomes active when its handler can be entered. */
  function Delivered(s: Sched, userRsp: u64): (d: Sched)
    requires Inv(s)
    ensures Inv(d) && d.count == s.count && d.cur == s.cur
  {
    if s.cur < s.count && Delivers(s.tasks[s.cur], userRsp)
    then Update(s, s.cur, s.tasks[s.cur].(sigPending := false, sigActive := true)) else s
  }

  /** The interrupted task's frame is kept in its slot. */
  function Saved(d: Sched, frame: u64): (e: Sched)
    requires Inv(d) && d.count > 0
    ensures Inv(e) && e.count == d.count && e.cur == d.cur
  {
    Update(d, d.cur, d.tasks[d.cur].(savedRsp := frame))
  }

  function Next(s: Sched): (r: nat)
    requires Inv(s) && s.count > 0
    ensures r < s.count
  {
    Scan(s.tasks, s.count, (s.cur + 1) % s.count, 0)
  }

  /** The timer tick; `user` says that the interrupt came from user mode. True: the stub switches stacks. */
  function Tick(s: Sched, user: bool, frame: u64, userRsp: u64): (Sched, bool)
    requires Inv(s)
  {
    if !user then (s, false)
    else if s.count < 2 then (Delivered(s, userRsp), false)
    else
      var e := Saved(Delivered(s, userRsp), frame);
      if Next(e) != e.cur && e.tasks[Next(e)].state == Runnable then (SwitchTo(e, Next(e)), true) else (e, false)
  }

  /** `terminate_current_and_next` */
  function Terminate(s: Sched): (Sched, bool)
    requires Inv(s)
  {
    if s.count < 2 then (s, false)
    else
      var e := Update(s, s.cur, s.tasks[s.cur].(state := Dead));
      var next := Next(e);
      if e.tasks[next].state == Runnable then (SwitchTo(e, next).(mustSwitch := true), true) else (e, false)
  }

  function Kill(s: Sched, id: nat): (Sched, int) {
    if IsRunnable(s.tasks, id) then (Update(s, id, s.tasks[id].(state := Dead)), 0) else (s, -1)
  }

  function Suspend(s: Sched, id: nat): (Sched, int) {
    if IsRunnable(s.tasks, id) && id != s.cur then (Update(s, id, s.tasks[id].(state := Suspended)), 0) else (s, -1)
  }

  function Resume(s: Sched, id: nat): (Sched, int) {
    if id < |s.tasks| && s.tasks[id].state == Suspended then (Update(s, id, s.tasks[id].(state := Runnable)), 0) else (s, -1)
  }

  /** A new task: in a dead slot, or in the first free one. */
  function SpawnAt(s: Sched, idx: nat, t: Task): Sched
    requires idx < |s.tasks|
  {
    Update(s, idx, t).(count := if idx >= s.count then idx + 1 else s.count)
  }

  datatype Op = Interrupt(user: bool, frame: u64, userRsp: u64) | Crash | KillTask(id: nat) | SuspendTask(id: nat)
              | ResumeTask(id: nat) | Grow(t: Task) | Revive(idx: nat, t: Task)

  function Step(s: Sched, op: Op): (r: Sched)
    requires Inv(s)
  {
    match op
    case Interrupt(user, frame, userRsp) => Tick(s, user, frame, userRsp).0
    case Crash => Terminate(s).0
    case KillTask(id) => Kill(s, id).0
    case SuspendTask(id) => Suspend(s, id).0
    case ResumeTask(id) => Resume(s, id).0
    case Grow(t) => if s.count < MAX_TASKS && t.state == Runnable then SpawnAt(s, s.count, t) else s
    case Revive(idx, t) =>
      if idx < s.count && s.tasks[idx].state == Dead && t.state == Runnable then SpawnAt(s, idx, t) else s
  }

  lemma StepInv(s: Sched, op: Op)
    requires Inv(s)
    ensures Inv(Step(s, op))
  {
  }

  function Run(s: Sched, ops: seq<Op>): (r: Sched)
    requires Inv(s)
    ensures Inv(r)
    decreases |ops|
  {
    if ops == [] then s
    else
      StepInv(s, ops[0]);
      Run(Step(s, ops[0]), ops[1..])
  }

  // ------------------------------------------------------------------ the search

  /** The slot d places after cur, round a table of n. */
  function Ahead(cur: nat, d: nat, n: nat): (i: nat)
    requires cur < n && d <= n
    ensures i < n
  {
    if cur + d < n then cur + d else cur + d - n
  }

  /** How far t lies ahead of cur: between 1 and n. */
  function Dist(cur: nat, t: nat, n: nat): (d: nat)
    requires cur < n && t < n
    ensures 1 <= d <= n && Ahead(cur, d, n) == t && (d == n <==> t == cur)
  {
    if t > cur then t - cur else t + n - cur
  }

  predicate Waiting(ts: seq<Task>, cur: nat, n: nat, d: nat)
    requires cur < n <= |ts| && d <= n
  {
    ts[Ahead(cur, d, n)].state != Runnable
  }

  lemma {:induction false} ScanFinds(ts: seq<Task>, n: nat, cur: nat, d: nat, r: nat)
    requires cur < n <= |ts| && 1 <= d <= n + 1
    requires r == Scan(ts, n, if d <= n then Ahead(cur, d, n) else Ahead(cur, 1, n), d - 1)
    requires forall e | 1 <= e < d :: Waiting(ts, cur, n, e)
    ensures forall e | 1 <= e < Dist(cur, r, n) :: Waiting(ts, cur, n, e)
    ensures ts[r].state != Runnable ==> r == Ahead(cur, 1, n) && forall e | 1 <= e <= n :: Waiting(ts, cur, n, e)
    decreases n + 1 - d
  {
    if d <= n && Waiting(ts, cur, n, d) {
      var at := Ahead(cur, d, n);
      assert (at + 1) % n == if d < n then Ahead(cur, d + 1, n) else Ahead(cur, 1, n) by {
        Wrap(at, n);
      }
      ScanFinds(ts, n, cur, d + 1, r);
    }
  }

  lemma Wrap(at: nat, n: nat)
    requires at < n
    ensures (at + 1) % n == if at + 1 < n then at + 1 else 0
  {
    if at + 1 < n {
      assert (at + 1) % n == at + 1;
    }
  }

  /** The search finds the nearest runnable task ahead, the current one last; none is found only when there is none. */
  lemma NearestRunnable(ts: seq<Task>, n: nat, cur: nat, r: nat)
    requires cur < n <= |ts| && r == Scan(ts, n, (cur + 1) % n, 0)
    ensures forall i | 0 <= i < n && ts[i].state == Runnable :: ts[r].state == Runnable && Dist(cur, r, n) <= Dist(cur, i, n)
  {
    Wrap(cur, n);
    ScanFinds(ts, n, cur, 1, r);
    forall i | 0 <= i < n && ts[i].state == Runnable
      ensures ts[r].state == Runnable && Dist(cur, r, n) <= Dist(cur, i, n)
    {
      assert !Waiting(ts, cur, n, Dist(cur, i, n));
    }
  }

  // ------------------------------------------------------------------ safety of every switch

  /** A switch lands on another, runnable task, with that task's frame, kernel stack and address space. */
  predicate Landed(s: Sched, r: Sched) {
    && r.cur != s.cur && IsRunnable(r.tasks, r.cur)
    && r.nextRsp == r.tasks[r.cur].savedRsp
    && r.rsp0 == r.tasks[r.cur].kstackTop && r.space == SpaceOf(r.tasks[r.cur])
  }

  /** Round robin: no other runnable task comes before slot i, counting from the current one. */
  predicate NearestAhead(s: Sched, i: nat) {
    && |s.tasks| == MAX_TASKS && s.cur < s.count <= MAX_TASKS && i < s.count
    && forall j | 0 <= j < s.count && j != s.cur && s.tasks[j].state == Runnable :: Dist(s.cur, i, s.count) <= Dist(s.cur, j, s.count)
  }

  /** A tick switches exactly when it comes from user mode and another task is runnable; otherwise the task goes on. */
  lemma TickSwitches(s: Sched, user: bool, frame: u64, userRsp: u64)
    requires Inv(s)
    ensures var (r, switched) := Tick(s, user, frame, userRsp);
            && (switched <==> user && exists i | 0 <= i < s.count :: i != s.cur && s.tasks[i].state == Runnable)
            && (switched ==> Landed(s, r) && r.tasks[s.cur].savedRsp == frame && r.tasks[r.cur].savedRsp == s.tasks[r.cur].savedRsp)
            && (switched ==> NearestAhead(s, r.cur))
            && (!switched ==> r.cur == s.cur && r.rsp0 == s.rsp0 && r.space == s.space)
  {
    if user && s.count >= 2 {
      var e := Saved(Delivered(s, userRsp), frame);
      TickFrame(s, userRsp, frame, e);
      NearestRunnable(e.tasks, e.count, e.cur, Next(e));
    }
  }

  lemma TickFrame(s: Sched, userRsp: u64, frame: u64, e: Sched)
    requires Inv(s) && s.count > 0 && e == Saved(Delivered(s, userRsp), frame)
    ensures e.tasks[s.cur].savedRsp == frame && e.rsp0 == s.rsp0 && e.space == s.space
    ensures forall i | 0 <= i < MAX_TASKS :: e.tasks[i].state == s.tasks[i].state && (i != s.cur ==> e.tasks[i] == s.tasks[i])
  {
  }

  /** A crash is survived exactly when there are two tasks and another one is runnable. */
  lemma TerminateIff(s: Sched)
    requires Inv(s)
    ensures var (r, ok) := Terminate(s);
            && (ok <==> s.count >= 2 && exists i | 0 <= i < s.count :: i != s.cur && s.tasks[i].state == Runnable)
            && (ok ==> Landed(s, r) && r.mustSwitch && r.tasks[r.cur] == s.tasks[r.cur] && NearestAhead(s, r.cur))
            && (s.count >= 2 ==> r.tasks[s.cur].state == Dead)
            && (!ok ==> r.cur == s.cur && r.mustSwitch == s.mustSwitch)
  {
    if s.count >= 2 {
      var e := Update(s, s.cur, s.tasks[s.cur].(state := Dead));
      NearestRunnable(e.tasks, e.count, e.cur, Next(e));
      assert forall i | 0 <= i < s.count && i != s.cur :: e.tasks[i] == s.tasks[i];
    }
  }

  /** Suspending a task and resuming it changes nothing. */
  lemma SuspendResume(s: Sched, id: nat)
    requires Suspend(s, id).1 == 0
    ensures Resume(Suspend(s, id).0, id) == (s, 0)
  {
    assert s.tasks[id := s.tasks[id].(state := Suspended)][id := s.tasks[id]] == s.tasks;
  }

  predicate InState(s: Sched, id: nat, st: State) {
    id < |s.tasks| && s.tasks[id].state == st
  }

  /** Only the state of task id differs. */
  predicate NowIn(s: Sched, r: Sched, id: nat, st: State) {
    id < |s.tasks| && r == s.(tasks := s.tasks[id := s.tasks[id].(state := st)])
  }

  /** Kill, suspend and resume: 0 exactly when the task is in the right state (a suspended one is not the current one),
      which it then leaves for the new one; otherwise -1, and nothing changes. */
  lemma TaskControl(s: Sched, id: nat)
    requires Inv(s)
    ensures var (r, rc) := Kill(s, id);
            if InState(s, id, Runnable) then rc == 0 && NowIn(s, r, id, Dead) else rc == -1 && r == s
    ensures var (r, rc) := Suspend(s, id);
            if InState(s, id, Runnable) && id != s.cur then rc == 0 && NowIn(s, r, id, Suspended) else rc == -1 && r == s
    ensures var (r, rc) := Resume(s, id);
            if InState(s, id, Suspended) then rc == 0 && NowIn(s, r, id, Runnable) else rc == -1 && r == s
  {
  }

  /** A signal is delivered exactly when the current task has one pending, none active, a handler, and room on its stack;
      nothing else changes. */
  lemma DeliveryIff(s: Sched, userRsp: u64)
    requires Inv(s)
    ensures var t := s.tasks[s.cur];
            Delivered(s, userRsp) ==
            if s.count > 0 && t.sigPending && !t.sigActive && t.sigHandler != 0 && userRsp >= 128
            then s.(tasks := s.tasks[s.cur := t.(sigPending := false, sigActive := true)]) else s
  {
  }

  /** The processor runs on the current task's kernel stack and in its address space. */
  predicate Coherent(s: Sched)
    requires Inv(s)
  {
    s.count > 0 ==> s.rsp0 == s.tasks[s.cur].kstackTop && s.space == SpaceOf(s.tasks[s.cur])
  }

  /** Every step keeps that, except one that gives the dead current task's own slot away to a task with other ones. */
  lemma CoherentIff(s: Sched, op: Op)
    requires Inv(s) && Coherent(s) && s.count > 0
    ensures Inv(Step(s, op))
    ensures Coherent(Step(s, op)) <==>
            !(op.Revive? && op.idx == s.cur && s.tasks[s.cur].state == Dead && op.t.state == Runnable
              && (op.t.kstackTop != s.rsp0 || SpaceOf(op.t) != s.space))
  {
    StepInv(s, op);
    if op.Interrupt? {
      TickSwitches(s, op.user, op.frame, op.userRsp);
    } else if op.Crash? {
      TerminateIff(s);
    }
  }

  // ------------------------------------------------------------------ liveness

  predicate IsUserTick(op: Op) {
    op.Interrupt? && op.user
  }

  function UserTicks(ops: seq<Op>): nat {
    if ops == [] then 0 else (if IsUserTick(ops[0]) then 1 else 0) + UserTicks(ops[1..])
  }

  /** How many steps may add a slot to the table. */
  function Growth(ops: seq<Op>): nat {
    if ops == [] then 0 else (if ops[0].Grow? then 1 else 0) + Growth(ops[1..])
  }

  predicate StaysRunnable(s: Sched, ops: seq<Op>, t: nat)
    requires Inv(s)
    decreases |ops|
  {
    StepInvAll();
    IsRunnable(s.tasks, t) && (ops == [] || StaysRunnable(Step(s, ops[0]), ops[1..], t))
  }

  lemma StepInvAll()
    ensures forall s, op | Inv(s) :: Inv(Step(s, op))
  {
    forall s, op | Inv(s)
      ensures Inv(Step(s, op))
    {
      StepInv(s, op);
    }
  }

  /** One step towards t: a user tick brings the current task strictly closer, only a new slot can add one to the distance. */
  lemma Closer(s: Sched, op: Op, t: nat)
    requires Inv(s) && IsRunnable(s.tasks, t) && t != s.cur
    requires IsRunnable(Step(s, op).tasks, t) && Step(s, op).cur != t
    ensures t < s.count && t < Step(s, op).count && Step(s, op).cur < Step(s, op).count
    ensures Dist(Step(s, op).cur, t, Step(s, op).count) + (if IsUserTick(op) then 1 else 0)
         <= Dist(s.cur, t, s.count) + (if op.Grow? then 1 else 0)
  {
    StepInv(s, op);
    assert s.tasks[t].state != Empty;
    if op.Interrupt? && op.user {
      TickSwitches(s, op.user, op.frame, op.userRsp);
    } else if op.Crash? {
      TerminateIff(s);
    }
  }

  /**
   A task that stays runnable becomes the current one, whatever else happens meanwhile, as soon as there have been
   as many user-mode ticks as its distance (at most count - 1) and the slots added since.
   */
  lemma {:induction false} BecomesCurrent(s: Sched, ops: seq<Op>, t: nat) returns (k: nat)
    requires Inv(s) && StaysRunnable(s, ops, t)
    requires t != s.cur ==> t < s.count && UserTicks(ops) >= Dist(s.cur, t, s.count) + Growth(ops)
    ensures k <= |ops| && Run(s, ops[..k]).cur == t
    decreases |ops|
  {
    if t == s.cur {
      k := 0;
    } else {
      var next := Step(s, ops[0]);
      StepInv(s, ops[0]);
      if next.cur != t {
        Closer(s, ops[0], t);
      }
      var j := BecomesCurrent(next, ops[1..], t);
      k := j + 1;
      assert ops[..k][0] == ops[0] && ops[..k][1..] == ops[1..][..j];
    }
  }

  /** With a fixed table: within count - 1 user-mode ticks. */
  lemma Liveness(s: Sched, ops: seq<Op>, t: nat) returns (k: nat)
    requires Inv(s) && StaysRunnable(s, ops, t)
    requires Growth(ops) == 0 && UserTicks(ops) >= s.count - 1
    ensures k <= |ops| && Run(s, ops[..k]).cur == t
  {
    assert s.tasks[t].state != Empty;
    k := BecomesCurrent(s, ops, t);
  }

  // ------------------------------------------------------------------ each task gets its own frame back

  /** While another task is current, a task's saved frame stays, unless its slot is given to a new task. */
  lemma FrameKept(s: Sched, op: Op, t: nat)
    requires Inv(s) && t < s.count && t != s.cur && !(op.Revive? && op.idx == t)
    ensures t < |Step(s, op).tasks| && Step(s, op).tasks[t].savedRsp == s.tasks[t].savedRsp
    ensures t < Step(s, op).count
  {
  }

  predicate AwayUntil(s: Sched, ops: seq<Op>, t: nat)
    requires Inv(s)
    decreases |ops|
  {
    StepInvAll();
    ops == [] || (s.cur != t && !(ops[0].Revive? && ops[0].idx == t) && AwayUntil(Step(s, ops[0]), ops[1..], t))
  }

  lemma {:induction false} FrameKeptAll(s: Sched, ops: seq<Op>, t: nat)
    requires Inv(s) && t < s.count && AwayUntil(s, ops, t)
    ensures t < |Run(s, ops).tasks| && Run(s, ops).tasks[t].savedRsp == s.tasks[t].savedRsp
    decreases |ops|
  {
    if ops != [] {
      FrameKept(s, ops[0], t);
      StepInv(s, ops[0]);
      FrameKeptAll(Step(s, ops[0]), ops[1..], t);
    }
  }

  /** Interrupted with frame f, and away until it is switched to again, a task resumes on exactly frame f. */
  lemma ResumesWhereItStopped(s: Sched, f: u64, userRsp: u64, ops: seq<Op>, last: Op)
    requires Inv(s) && Tick(s, true, f, userRsp).1
    requires var away := Step(s, Interrupt(true, f, userRsp));
             && Inv(away) && AwayUntil(away, ops, s.cur)
             && Run(away, ops).cur != s.cur
             && (last.Interrupt? || last.Crash?) && Step(Run(away, ops), last).cur == s.cur
    ensures var away := Step(s, Interrupt(true, f, userRsp)); Step(Run(away, ops), last).nextRsp == f
  {
    var away := Step(s, Interrupt(true, f, userRsp));
    TickSwitches(s, true, f, userRsp);
    FrameKeptAll(away, ops, s.cur);
    var back := Run(away, ops);
    if last.Crash? {
      TerminateIff(back);
    } else {
      TickSwitches(back, last.user, last.frame, last.userRsp);
    }
  }
}
