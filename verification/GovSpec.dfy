/**
 AI governance on values: what a domain may do and how its permissions widen and are revoked, the
 settings with their ranges, the audit log and the counter of denials, and the quality ledger that
 decides who is admitted.
 */
module GovSpec {
  import opened Bytes
  import S = SchedSpec
  import T = SchedTable

  const N_CAP := 8
  const EXEC_SLOT := 6
  const DOM_MAX := 5
  const DUTIES := 8
  const ALL_ACTS: u64 := 0x7F
  const ACT_KILL := 1
  const ACT_ISOLATE := 2
  const ACT_LAUNCH := 3
  const ACT_SET_CFG := 4
  const ACT_RESUME := 5
  const ACT_ACK := 6
  const WIDEN_CONFIRM := 2

  datatype Grant = Grant(perm: u64, granted: bool)

  datatype Setting = Setting(key: u64, val: u64)

  datatype Domain = Domain(perm: u64, granted: bool, asMask: u64, irq: bool)

  datatype Rec = Rec(ts: u64, action: u64, subject: u64, result: u64)

  /** One duty of the quality ledger: hits and samples of the window, and how often in a row it was high when asked. */
  datatype Duty = Duty(hit: nat, total: nat, upRun: nat)

  datatype Gov = Gov(grants: seq<Grant>, cfg: seq<Setting>, doms: seq<Domain>, ledger: seq<Duty>,
                     log: seq<Rec>, denies: nat, sched: S.Sched, bound: u64, pending: u64)

  predicate Shaped(g: Gov) {
    && |g.grants| == N_CAP && |g.cfg| == 8 && |g.doms| == DOM_MAX && |g.ledger| == DUTIES && S.Inv(g.sched)
  }

  /** At boot nothing is granted but domain 0, nothing is set, and no sample is in. */
  function Start(): Gov {
    Gov(seq(8, _ => Grant(0, false)), seq(8, _ => Setting(0, 0)),
        [Domain(0, true, 3, true)] + seq(4, _ => Domain(0, false, 0, false)), seq(8, _ => Duty(0, 0, 0)),
        [], 0, S.Start(), 0, 0)
  }

  // ------------------------------------------------------------------ authority

  function CurDomain(g: Gov): u64
    requires Shaped(g)
  {
    if g.sched.tasks[g.sched.cur].state != S.Empty then g.sched.tasks[g.sched.cur].domain else g.bound
  }

  /** The act bits of a domain; domain 0 is the global exec slot. */
  function DomainPerm(g: Gov, d: u64): Grant
    requires Shaped(g)
  {
    if d >= DOM_MAX then Grant(0, false)
    else if d == 0 then g.grants[EXEC_SLOT]
    else Grant(g.doms[d].perm, g.doms[d].granted)
  }

  predicate Authorized(g: Gov, act: u64)
    requires Shaped(g)
  {
    1 <= act <= 8 && DomainPerm(g, CurDomain(g)).granted && TestBit(DomainPerm(g, CurDomain(g)).perm, act - 1)
  }

  // ------------------------------------------------------------------ configuration

  function CfgMax(key: u64): u64 {
    if key == 2 then 1 else 100
  }

  /** The thresholds `cfg_set` compares with: the stored value, or its own default. */
  function TauLowSeen(g: Gov): u64
    requires Shaped(g)
  {
    if g.cfg[7].key == 8 then g.cfg[7].val else 30
  }

  function TauHighSeen(g: Gov): u64
    requires Shaped(g)
  {
    if g.cfg[6].key == 7 then g.cfg[6].val else 70
  }

  function CfgSet(g: Gov, key: u64, val: u64): (Gov, int)
    requires Shaped(g)
  {
    if key == 0 || key > 8 || val > CfgMax(key)
       || (key == 7 && val <= TauLowSeen(g)) || (key == 8 && val >= TauHighSeen(g))
    then (g, -22)
    else (g.(cfg := g.cfg[key - 1 := Setting(key, val)]), 0)
  }

  function CfgDefault(key: u64): nat {
    if key == 1 then 50 else if key == 7 then 46 else if key == 8 then 35 else 0
  }

  function CfgGet(g: Gov, key: u64): int
    requires Shaped(g)
  {
    if key == 0 || key > 8 then -22
    else if g.cfg[key - 1].key == key then g.cfg[key - 1].val
    else CfgDefault(key)
  }

  // ------------------------------------------------------------------ the audit log

  function Note(g: Gov, now: u64, action: u64, subject: u64, result: u64): Gov {
    g.(log := g.log + [Rec(now, action, subject, result)])
  }

  function NoteExec(g: Gov, now: u64, act: u64, result: u64): Gov {
    Note(g, now, 2, act, result).(denies := g.denies + if result == 1 then 1 else 0)
  }

  // ------------------------------------------------------------------ actions

  /** What an action does once it is authorised. */
  function Act(g: Gov, act: u64, a0: u64, a1: u64): (Gov, int)
    requires Shaped(g)
  {
    if act == ACT_KILL then var (s, rc) := S.Kill(g.sched, a0); (g.(sched := s), rc)
    else if act == ACT_ISOLATE then var (s, rc) := S.Suspend(g.sched, a0); (g.(sched := s), rc)
    else if act == ACT_RESUME then var (s, rc) := S.Resume(g.sched, a0); (g.(sched := s), rc)
    else if act == ACT_SET_CFG then CfgSet(g, a0, a1)
    else if act == ACT_ACK then (g.(pending := 0), 0)
    else (g, -22)
  }

  /** `fujo_cap_exec` */
  function CapExec(g: Gov, now: u64, act: u64, a0: u64, a1: u64): (Gov, int)
    requires Shaped(g)
  {
    if !Authorized(g, act) then (NoteExec(g, now, act, 1), -1)
    else
      var (r, rc) := Act(g, act, a0, a1);
      (NoteExec(r, now, act, if rc == 0 then 0 else 1), rc)
  }

  /** Whether the domain may launch at this entry. */
  predicate EntryOk(g: Gov, entry: u64)
    requires Shaped(g)
  {
    var d := CurDomain(g);
    if 0x40_0000 <= entry < 0xC0_0000 then d == 0 || (d < DOM_MAX && TestBit(g.doms[d].asMask, 0))
    else if 0x100_0000 <= entry < 0x108_0000 then d == 0 || (d < DOM_MAX && TestBit(g.doms[d].asMask, 1))
    else false
  }

  /** The system call `cap_exec`: it launches itself, and passes every other action on; t is the task a launch makes. */
  function SysExec(g: Gov, now: u64, act: u64, a0: u64, a1: u64, t: S.Task): (Gov, int)
    requires Shaped(g) && t.state == S.Runnable
  {
    if !Authorized(g, act) || (act == ACT_LAUNCH && !EntryOk(g, a0)) then (NoteExec(g, now, act, 1), -1)
    else
      var (r, rc) := if act == ACT_LAUNCH then
                       var (s, code) := T.ExecSpawn(g.sched, g.bound, t);
                       (g.(sched := s), code)
                     else CapExec(g, now, act, a0, a1);
      (NoteExec(r, now, act, if rc == 0 then 0 else 1), rc)
  }

  // ------------------------------------------------------------------ grants and domains

  function SlotOf(idx: u64): nat {
    Min(idx, N_CAP - 1)
  }

  function CapGrant(g: Gov, idx: u64, perm: u64): Gov
    requires Shaped(g)
  {
    g.(grants := g.grants[SlotOf(idx) := Grant(perm, true)])
  }

  /** q & p == q */
  predicate Within(q: nat, p: nat) {
    q == 0 || (q % 2 <= p % 2 && Within(q / 2, p / 2))
  }

  function CapCheck(g: Gov, now: u64, idx: u64, perm: u64): (Gov, int)
    requires Shaped(g)
  {
    var i := SlotOf(idx);
    if g.grants[i].granted && Within(perm, g.grants[i].perm) then (g, 0)
    else (Note(g, now, 1, i, 1).(denies := g.denies + 1), -1)
  }

  function FreeDom(doms: seq<Domain>, i: nat): (r: nat)
    requires i <= |doms|
    ensures i <= r <= |doms| && (r < |doms| ==> !doms[r].granted)
    ensures forall j | i <= j < r :: doms[j].granted
    decreases |doms| - i
  {
    if i < |doms| && doms[i].granted then FreeDom(doms, i + 1) else i
  }

  function DomCreate(g: Gov, now: u64, perm: u64, asMask: u64, irq: bool): (Gov, int)
    requires Shaped(g)
  {
    var i := FreeDom(g.doms, 1);
    if i == DOM_MAX then var none: int := -17; (g, none)
    else (Note(g.(doms := g.doms[i := Domain(perm % 128, true, asMask % 4, irq)]), now, 3, i, 0), i)
  }

  function DomRevoke(g: Gov, now: u64, id: u64): (Gov, int)
    requires Shaped(g)
  {
    if id == 0 || id >= DOM_MAX then (g, -22)
    else (Note(g.(doms := g.doms[id := g.doms[id].(granted := false)]), now, 3, id, 1), 0)
  }

  /** `dom_adjust`: any nonempty permission also grants the domain, even a revoked one. */
  function DomAdjust(g: Gov, now: u64, id: u64, perm: u64): (Gov, int)
    requires Shaped(g)
  {
    if id == 0 || id >= DOM_MAX then (g, -22)
    else
      var d := g.doms[id];
      (Note(g.(doms := g.doms[id := d.(perm := perm % 128, granted := d.granted || perm != 0)]), now, 3, id, 2), 0)
  }

  // ------------------------------------------------------------------ the quality ledger

  /** One more sample: any nonzero mark counts while the window fills, only odd ones once it is full. */
  function Feed(q: Duty, mark: u64): Duty {
    if q.total < 64 then q.(total := q.total + 1, hit := if mark != 0 then q.hit + 1 else q.hit)
    else q.(hit := (q.hit * 63 + mark % 2 * 64) / 64)
  }

  function Rate(q: Duty): nat {
    if q.total == 0 then 50 else q.hit * 100 / q.total
  }

  /** The rating from which a duty counts as high. */
  function HighMark(g: Gov): int
    requires Shaped(g)
  {
    if CfgGet(g, 7) > 1 then CfgGet(g, 7) else 1
  }

  /** How often in a row the duty has been high when asked, this time included. */
  function UpRun(g: Gov, duty: u64): nat
    requires Shaped(g) && 1 <= duty <= DUTIES
  {
    if Rate(g.ledger[duty - 1]) >= HighMark(g) then g.ledger[duty - 1].upRun + 1 else 0
  }

  function Asked(g: Gov, duty: u64): Gov
    requires Shaped(g) && 1 <= duty <= DUTIES
  {
    g.(ledger := g.ledger[duty - 1 := g.ledger[duty - 1].(upRun := UpRun(g, duty))])
  }

  /** 0: keep, 1: widen the current domain, 2: shrink it, -22: no such duty. */
  function Admit(g: Gov, now: u64, duty: u64): (Gov, int)
    requires Shaped(g)
  {
    if !(1 <= duty <= DUTIES) then (g, -22) else
    var r := Asked(g, duty);
    var cur := CurDomain(g);
    if UpRun(g, duty) >= WIDEN_CONFIRM then
      if 1 <= cur < DOM_MAX then (DomAdjust(r, now, cur, ALL_ACTS).0, 1) else (r, 0)
    else if Rate(g.ledger[duty - 1]) < CfgGet(g, 8) && CfgGet(g, 8) > 0 && 1 <= cur < DOM_MAX then
      (DomAdjust(r, now, cur, 32).0, 2)
    else (r, 0)
  }

  // ------------------------------------------------------------------ runs

  datatype Op = Exec(act: u64, a0: u64, a1: u64) | Syscall(act: u64, a0: u64, a1: u64, t: S.Task)
              | GiveCap(idx: u64, perm: u64) | CheckCap(idx: u64, perm: u64) | LogEntry(action: u64, subject: u64)
              | BoxEntry(action: u64, subject: u64, result: u64) | Configure(key: u64, val: u64)
              | NewDomain(perm: u64, asMask: u64, irq: bool) | Revoke(id: u64) | Bind(id: u64)
              | Grade(duty: u64, mark: u64) | AskAdmit(duty: u64) | Tasks(op: S.Op)

  function BindTo(g: Gov, id: u64): Gov
    requires Shaped(g)
  {
    var t := g.sched.tasks[g.sched.cur];
    if t.state != S.Empty then g.(sched := S.Update(g.sched, g.sched.cur, t.(domain := id))) else g.(bound := id)
  }

  /** One call at time `now`; box entries are the ones of actions 9 and 10. */
  function Step(g: Gov, now: u64, op: Op): Gov
    requires Shaped(g)
  {
    match op
    case Exec(act, a0, a1) => CapExec(g, now, act, a0, a1).0
    case Syscall(act, a0, a1, t) => if t.state == S.Runnable then SysExec(g, now, act, a0, a1, t).0 else g
    case GiveCap(idx, perm) => CapGrant(g, idx, perm)
    case CheckCap(idx, perm) => CapCheck(g, now, idx, perm).0
    case LogEntry(action, subject) => Note(g, now, action, subject, 0)
    case BoxEntry(action, subject, result) => if action == 9 || action == 10 then Note(g, now, action, subject, result) else g
    case Configure(key, val) => CfgSet(g, key, val).0
    case NewDomain(perm, asMask, irq) => DomCreate(g, now, perm, asMask, irq).0
    case Revoke(id) => DomRevoke(g, now, id).0
    case Bind(id) => BindTo(g, id)
    case Grade(duty, mark) => if 1 <= duty <= DUTIES then g.(ledger := g.ledger[duty - 1 := Feed(g.ledger[duty - 1], mark)]) else g
    case AskAdmit(duty) => Admit(g, now, duty).0
    case Tasks(sop) => g.(sched := S.Step(g.sched, sop))
  }
}
