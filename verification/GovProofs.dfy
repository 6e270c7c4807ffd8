/** What governance keeps over every run: audit, thresholds, revocation, and trust. */
module GovProofs {
  import opened Bytes
  import opened GovSpec
  import S = SchedSpec
  import T = SchedTable

  // ------------------------------------------------------------------ invariants

  /** A record of a refused or failed exec, or of a refused check. */
  predicate IsDenial(r: Rec) {
    (r.action == 1 || r.action == 2) && r.result == 1
  }

  function Denials(log: seq<Rec>): nat {
    if log == [] then 0 else Denials(log[..|log| - 1]) + if IsDenial(log[|log| - 1]) then 1 else 0
  }

  lemma DenialsSnoc(log: seq<Rec>, r: Rec)
    ensures Denials(log + [r]) == Denials(log) + if IsDenial(r) then 1 else 0
  {
    assert (log + [r])[..|log|] == log;
  }

  /** A configuration slot is unset or holds its own key and a value of its domain. */
  predicate SettingOk(cfg: seq<Setting>, i: nat)
    requires i < |cfg|
  {
    cfg[i].key == 0 || (cfg[i].key == i + 1 && cfg[i].val <= CfgMax(i + 1))
  }

  predicate TauOk(cfg: seq<Setting>)
    requires |cfg| == 8
  {
    cfg[6].key == 7 && cfg[7].key == 8 ==> cfg[6].val > cfg[7].val
  }

  predicate DutyOk(q: Duty) {
    q.hit <= q.total <= 64
  }

  predicate CfgInv(cfg: seq<Setting>) {
    |cfg| == 8 && (forall i | 0 <= i < 8 :: SettingOk(cfg, i)) && TauOk(cfg)
      && (cfg[6].key == 7 ==> cfg[6].val > 30 || cfg[7].key == 8) && (cfg[7].key == 8 ==> cfg[7].val < 70 || cfg[6].key == 7)
  }

  /** The counter of denials is the number of denials on record; settings and ledger are in range. */
  predicate Inv(g: Gov) {
    && Shaped(g) && g.denies == Denials(g.log) && CfgInv(g.cfg)
    && (forall d | 0 <= d < DUTIES :: DutyOk(g.ledger[d]))
  }

  lemma StartInv()
    ensures Inv(Start())
  {
  }

  lemma FeedOk(q: Duty, mark: u64)
    requires DutyOk(q)
    ensures DutyOk(Feed(q, mark)) && Rate(q) <= 100
  {
    if q.total > 0 {
      assert q.hit * 100 <= q.total * 100;
      RateBound(q.hit, q.total);
    }
  }

  lemma RateBound(h: nat, t: nat)
    requires h <= t && t > 0
    ensures h * 100 / t <= 100
  {
    var q := h * 100 / t;
    assert (q - 100) * t <= 0 by {
      assert q * t <= h * 100 <= 100 * t;
    }
    assert q > 100 ==> (q - 100) * t > 0;
  }

  lemma NoteOk(g: Gov, now: u64, action: u64, subject: u64, result: u64)
    requires Inv(g) && !IsDenial(Rec(now, action, subject, result))
    ensures Inv(Note(g, now, action, subject, result))
  {
    DenialsSnoc(g.log, Rec(now, action, subject, result));
  }

  lemma NoteExecOk(g: Gov, now: u64, act: u64, result: u64)
    requires Inv(g)
    ensures Inv(NoteExec(g, now, act, result))
  {
    DenialsSnoc(g.log, Rec(now, 2, act, result));
  }

  lemma CfgSetOk(g: Gov, key: u64, val: u64)
    requires Inv(g)
    ensures Inv(CfgSet(g, key, val).0) && CfgSet(g, key, val).0.log == g.log
  {
    var r := CfgSet(g, key, val).0;
    forall i | 0 <= i < 8
      ensures SettingOk(r.cfg, i)
    {
      assert SettingOk(g.cfg, i);
    }
  }

  lemma ActOk(g: Gov, act: u64, a0: u64, a1: u64)
    requires Inv(g)
    ensures Inv(Act(g, act, a0, a1).0) && Act(g, act, a0, a1).0.log == g.log
  {
    if act == ACT_KILL {
      S.StepInv(g.sched, S.KillTask(a0));
    } else if act == ACT_ISOLATE {
      S.StepInv(g.sched, S.SuspendTask(a0));
    } else if act == ACT_RESUME {
      S.StepInv(g.sched, S.ResumeTask(a0));
    } else if act == ACT_SET_CFG {
      CfgSetOk(g, a0, a1);
    }
  }

  lemma CapExecOk(g: Gov, now: u64, act: u64, a0: u64, a1: u64)
    requires Inv(g)
    ensures Inv(CapExec(g, now, act, a0, a1).0)
  {
    if Authorized(g, act) {
      ActOk(g, act, a0, a1);
      var (r, rc) := Act(g, act, a0, a1);
      NoteExecOk(r, now, act, if rc == 0 then 0 else 1);
    } else {
      NoteExecOk(g, now, act, 1);
    }
  }

  lemma SpawnOk(g: Gov, t: S.Task)
    requires Inv(g) && t.state == S.Runnable
    ensures Inv(g.(sched := T.ExecSpawn(g.sched, g.bound, t).0))
  {
    var s := T.Registered(g.sched, g.bound);
    assert S.Inv(s);
    var idx := T.FirstAux(s.tasks, 0);
    if idx < S.MAX_TASKS {
      assert s.tasks[idx].state != S.Empty;
    }
  }

  lemma SysExecOk(g: Gov, now: u64, act: u64, a0: u64, a1: u64, t: S.Task)
    requires Inv(g) && t.state == S.Runnable
    ensures Inv(SysExec(g, now, act, a0, a1, t).0)
  {
    if !Authorized(g, act) || (act == ACT_LAUNCH && !EntryOk(g, a0)) {
      NoteExecOk(g, now, act, 1);
    } else if act == ACT_LAUNCH {
      SpawnOk(g, t);
      var (s, code) := T.ExecSpawn(g.sched, g.bound, t);
      NoteExecOk(g.(sched := s), now, act, if code == 0 then 0 else 1);
    } else {
      CapExecOk(g, now, act, a0, a1);
      var (r, rc) := CapExec(g, now, act, a0, a1);
      NoteExecOk(r, now, act, if rc == 0 then 0 else 1);
    }
  }

  lemma AdjustOk(g: Gov, now: u64, id: u64, perm: u64)
    requires Inv(g)
    ensures Inv(DomAdjust(g, now, id, perm).0)
  {
    DenialsSnoc(g.log, Rec(now, 3, id, 2));
  }

  lemma AdmitOk(g: Gov, now: u64, duty: u64)
    requires Inv(g) && 1 <= duty <= DUTIES
    ensures Inv(Admit(g, now, duty).0)
  {
    var r := Asked(g, duty);
    assert Inv(r);
    AdjustOk(r, now, CurDomain(g), ALL_ACTS);
    AdjustOk(r, now, CurDomain(g), 32);
  }

  lemma CheckOk(g: Gov, now: u64, idx: u64, perm: u64)
    requires Inv(g)
    ensures Inv(CapCheck(g, now, idx, perm).0) && Inv(CapGrant(g, idx, perm))
  {
    DenialsSnoc(g.log, Rec(now, 1, SlotOf(idx), 1));
  }

  lemma DomainsOk(g: Gov, now: u64, id: u64, perm: u64, asMask: u64, irq: bool)
    requires Inv(g)
    ensures Inv(DomCreate(g, now, perm, asMask, irq).0) && Inv(DomRevoke(g, now, id).0)
  {
    DenialsSnoc(g.log, Rec(now, 3, FreeDom(g.doms, 1), 0));
    DenialsSnoc(g.log, Rec(now, 3, id, 1));
  }

  lemma BindOk(g: Gov, id: u64)
    requires Inv(g)
    ensures Inv(BindTo(g, id))
  {
  }

  lemma GradeOk(g: Gov, duty: u64, mark: u64)
    requires Inv(g) && 1 <= duty <= DUTIES
    ensures Inv(g.(ledger := g.ledger[duty - 1 := Feed(g.ledger[duty - 1], mark)]))
  {
    FeedOk(g.ledger[duty - 1], mark);
  }

  lemma StepOk(g: Gov, now: u64, op: Op)
    requires Inv(g)
    ensures Inv(Step(g, now, op))
  {
    match op
    case Exec(act, a0, a1) => CapExecOk(g, now, act, a0, a1);
    case Syscall(act, a0, a1, t) =>
      if t.state == S.Runnable {
        SysExecOk(g, now, act, a0, a1, t);
      }
    case GiveCap(idx, perm) => CheckOk(g, now, idx, perm);
    case CheckCap(idx, perm) => CheckOk(g, now, idx, perm);
    case LogEntry(action, subject) => NoteOk(g, now, action, subject, 0);
    case BoxEntry(action, subject, result) =>
      if action == 9 || action == 10 {
        NoteOk(g, now, action, subject, result);
      }
    case Configure(key, val) => CfgSetOk(g, key, val);
    case NewDomain(perm, asMask, irq) => DomainsOk(g, now, 0, perm, asMask, irq);
    case Revoke(id) => DomainsOk(g, now, id, 0, 0, false);
    case Bind(id) => BindOk(g, id);
    case Grade(duty, mark) =>
      if 1 <= duty <= DUTIES {
        GradeOk(g, duty, mark);
      }
    case AskAdmit(duty) =>
      if 1 <= duty <= DUTIES {
        AdmitOk(g, now, duty);
      }
    case Tasks(sop) => S.StepInv(g.sched, sop);
  }

  datatype Timed = Timed(now: u64, op: Op)

  function Run(g: Gov, ops: seq<Timed>): (r: Gov)
    requires Inv(g)
    ensures Inv(r)
    decreases |ops|
  {
    if ops == [] then g
    else
      StepOk(g, ops[0].now, ops[0].op);
      Run(Step(g, ops[0].now, ops[0].op), ops[1..])
  }

  /** Over every run the denial counter equals the denials ever logged, and stored tau_high stays above stored tau_low. */
  lemma RunKeepsTrail(g: Gov, ops: seq<Timed>)
    requires Inv(g)
    ensures var r := Run(g, ops);
            && r.denies == Denials(r.log)
            && (r.cfg[6].key == 7 && r.cfg[7].key == 8 ==> r.cfg[6].val > r.cfg[7].val)
            && forall key: u64 | 1 <= key <= 8 :: 0 <= CfgGet(r, key) <= 100
  {
    var r := Run(g, ops);
    forall key: u64 | 1 <= key <= 8
      ensures 0 <= CfgGet(r, key) <= 100
    {
      assert SettingOk(r.cfg, key - 1);
    }
  }

  /** Once set, a key stays set: so the stored order of the thresholds, once both are set, holds forever. */
  lemma {:induction false} KeysStay(g: Gov, ops: seq<Timed>, key: u64)
    requires Inv(g) && 1 <= key <= 8 && g.cfg[key - 1].key == key
    ensures Run(g, ops).cfg[key - 1].key == key
    decreases |ops|
  {
    if ops != [] {
      StepOk(g, ops[0].now, ops[0].op);
      KeyStays(g, ops[0].now, ops[0].op, key);
      KeysStay(Step(g, ops[0].now, ops[0].op), ops[1..], key);
    }
  }

  lemma KeyStays(g: Gov, now: u64, op: Op, key: u64)
    requires Inv(g) && 1 <= key <= 8 && g.cfg[key - 1].key == key
    ensures |Step(g, now, op).cfg| == 8 && Step(g, now, op).cfg[key - 1].key == key
  {
  }

  /** The thresholds in force are what `fujo_cfg_get` reads, whose defaults differ from those `cfg_set` assumes. */
  lemma EffectiveOrderIff(g: Gov)
    requires Inv(g)
    ensures CfgGet(g, 7) > CfgGet(g, 8) <==>
            !(g.cfg[6].key == 7 && g.cfg[7].key != 8 && g.cfg[6].val <= 35)
            && !(g.cfg[6].key != 7 && g.cfg[7].key == 8 && g.cfg[7].val >= 46)
  {
    assert SettingOk(g.cfg, 6) && SettingOk(g.cfg, 7);
  }

  /** Setting tau_low to 60 first is accepted, and puts the thresholds in force in the wrong order. */
  lemma DefaultsDisagree(g: Gov)
    requires Inv(g) && g.cfg[6].key == 0 && g.cfg[7].key == 0
    ensures CfgSet(g, 8, 60).1 == 0 && CfgGet(CfgSet(g, 8, 60).0, 7) < CfgGet(CfgSet(g, 8, 60).0, 8)
  {
  }

  // ------------------------------------------------------------------ every exec is on record

  predicate Unchanged(g: Gov, r: Gov) {
    r == g.(log := r.log, denies := r.denies)
  }

  /** One exec record for each call, a denial exactly on failure; nothing changes without the act bit of the current domain. */
  lemma ExecRecorded(g: Gov, now: u64, act: u64, a0: u64, a1: u64)
    requires Inv(g)
    ensures var (r, rc) := CapExec(g, now, act, a0, a1);
            && r.log == g.log + [Rec(now, 2, act, if rc == 0 then 0 else 1)]
            && r.denies == g.denies + (if rc == 0 then 0 else 1)
            && (!Authorized(g, act) ==> rc == -1 && Unchanged(g, r))
            && (rc != 0 ==> Unchanged(g, r))
            && r.grants == g.grants && r.doms == g.doms && r.ledger == g.ledger && r.bound == g.bound
  {
    ActOk(g, act, a0, a1);
  }

  /** The system call writes one record when it refuses or launches, and two when it passes the action on. */
  lemma SyscallRecorded(g: Gov, now: u64, act: u64, a0: u64, a1: u64, t: S.Task)
    requires Inv(g) && t.state == S.Runnable
    ensures var (r, rc) := SysExec(g, now, act, a0, a1, t);
            var rec := Rec(now, 2, act, if rc == 0 then 0 else 1);
            && r.log == g.log + (if Authorized(g, act) && act != ACT_LAUNCH then [rec, rec] else [rec])
            && (!Authorized(g, act) || (act == ACT_LAUNCH && !EntryOk(g, a0)) ==> rc == -1 && Unchanged(g, r))
  {
    if Authorized(g, act) && act != ACT_LAUNCH {
      ExecRecorded(g, now, act, a0, a1);
      var (r, rc) := CapExec(g, now, act, a0, a1);
      var rec := Rec(now, 2, act, if rc == 0 then 0 else 1);
      assert g.log + [rec] + [rec] == g.log + [rec, rec];
    }
  }

  /** No aux task runs, and a dead aux slot behind the first or a new slot is there once the implicit task is registered. */
  predicate LaunchFindsLaterSlot(g: Gov)
    requires Shaped(g)
  {
    var r := T.Registered(g.sched, g.bound);
    var idx := T.FirstAux(r.tasks, 0);
    && (forall i | 0 <= i < S.MAX_TASKS :: !T.IsAux(g.sched.tasks[i], S.Runnable))
    && (0 < idx < S.MAX_TASKS || (idx == S.MAX_TASKS && r.count < S.MAX_TASKS))
  }

  /** A launch that succeeds returns the new task's slot, and in any slot but the first it is recorded, and counted, as a
      denial: exactly when the table has such a slot for it. */
  lemma LaunchCountedAsDenial(g: Gov, now: u64, entry: u64, t: S.Task)
    requires Inv(g) && t.state == S.Runnable && Authorized(g, ACT_LAUNCH) && EntryOk(g, entry)
    ensures var (r, rc) := SysExec(g, now, ACT_LAUNCH, entry, 0, t);
            && (LaunchFindsLaterSlot(g) <==> rc > 0)
            && (rc > 0 ==> r.denies == g.denies + 1 && r.log == g.log + [Rec(now, 2, ACT_LAUNCH, 1)]
                           && S.IsRunnable(r.sched.tasks, rc))
  {
    SpawnOk(g, t);
  }

  /** From boot on: the exec slot is granted the launching act, and the first launch succeeds, in slot 1, and is
      counted as a denial. */
  lemma FirstLaunchDenied(g: Gov, t: S.Task)
    requires Inv(Start()) && g == Step(Start(), 0, GiveCap(EXEC_SLOT, 4)) && t.state == S.Runnable
    ensures Inv(g) && g.denies == 0
    ensures var (r, rc) := SysExec(g, 1, ACT_LAUNCH, 0x40_0000, 0, t); rc == 1 && r.denies == 1
  {
    StepOk(Start(), 0, GiveCap(EXEC_SLOT, 4));
    assert TestBit(4, 2);
    assert Authorized(g, ACT_LAUNCH) && EntryOk(g, 0x40_0000);
    T.FirstLaunch(t);
    LaunchCountedAsDenial(g, 1, 0x40_0000, t);
  }

  // ------------------------------------------------------------------ reading the log

  /** The newest n records, oldest first. */
  function Newest(log: seq<Rec>, n: nat): seq<Rec>
    requires n <= |log|
  {
    log[|log| - n..]
  }

  // ------------------------------------------------------------------ revocation

  /** Whether a step may grant domain id again: creating one, or adjusting the current one while it is that domain. */
  predicate MayRegrant(g: Gov, op: Op, id: u64)
    requires Shaped(g)
  {
    op.NewDomain? || (op.AskAdmit? && CurDomain(g) == id)
  }

  /** A revoked domain is refused every act, and stays so over every step that neither creates nor re-admits it. */
  lemma RevokedStays(g: Gov, now: u64, op: Op, id: u64)
    requires Inv(g) && 1 <= id < DOM_MAX && !g.doms[id].granted && !MayRegrant(g, op, id)
    ensures |Step(g, now, op).doms| == DOM_MAX && !Step(g, now, op).doms[id].granted
    ensures CurDomain(g) == id ==> forall act :: !Authorized(g, act)
  {
  }

  predicate NeverRegrants(g: Gov, ops: seq<Timed>, id: u64)
    requires Inv(g)
    decreases |ops|
  {
    ops == [] || (!MayRegrant(g, ops[0].op, id)
                  && (StepOk(g, ops[0].now, ops[0].op); NeverRegrants(Step(g, ops[0].now, ops[0].op), ops[1..], id)))
  }

  lemma {:induction false} RevokedForGood(g: Gov, ops: seq<Timed>, id: u64, act: u64)
    requires Inv(g) && 1 <= id < DOM_MAX && !g.doms[id].granted && NeverRegrants(g, ops, id)
    ensures !Run(g, ops).doms[id].granted
    ensures CurDomain(Run(g, ops)) == id ==> !Authorized(Run(g, ops), act)
    decreases |ops|
  {
    if ops != [] {
      StepOk(g, ops[0].now, ops[0].op);
      RevokedStays(g, ops[0].now, ops[0].op, id);
      RevokedForGood(Step(g, ops[0].now, ops[0].op), ops[1..], id, act);
    }
  }

  /** Re-admission does grant a revoked domain again: exactly when the question is asked in that domain, and the duty is
      rated high for the second time in a row or below a positive low mark. */
  lemma AdmitRegrantsIff(g: Gov, now: u64, duty: u64, id: u64)
    requires Inv(g) && 1 <= duty <= DUTIES && 1 <= id < DOM_MAX && !g.doms[id].granted
    ensures Admit(g, now, duty).0.doms[id].granted <==>
            CurDomain(g) == id
            && (UpRun(g, duty) >= WIDEN_CONFIRM || (Rate(g.ledger[duty - 1]) < CfgGet(g, 8) && CfgGet(g, 8) > 0))
  {
  }

  lemma RunCons(g: Gov, ops: seq<Timed>, rest: seq<Timed>)
    requires Inv(g) && ops != [] && ops[1..] == rest
    ensures Inv(Step(g, ops[0].now, ops[0].op)) && Run(g, ops) == Run(Step(g, ops[0].now, ops[0].op), rest)
  {
    StepOk(g, ops[0].now, ops[0].op);
  }

  /** Domain 1 runs, and a duty without samples was high at the last n questions. */
  predicate Unsampled(g: Gov, duty: u64, n: nat)
    requires Shaped(g) && 1 <= duty <= DUTIES
  {
    CurDomain(g) == 1 && g.ledger[duty - 1] == Duty(0, 0, n) && g.cfg[6].key == g.cfg[7].key == 0
  }

  lemma FirstQuestion(g: Gov, now: u64, duty: u64)
    requires Inv(g) && 1 <= duty <= DUTIES && Unsampled(g, duty, 0)
    ensures Shaped(Admit(g, now, duty).0) && Unsampled(Admit(g, now, duty).0, duty, 1)
  {
    assert UpRun(g, duty) == 1 && Admit(g, now, duty).0 == Asked(g, duty);
  }

  lemma SecondQuestion(g: Gov, now: u64, duty: u64, act: u64)
    requires Inv(g) && 1 <= duty <= DUTIES && 1 <= act <= 7 && Unsampled(g, duty, 1)
    ensures Shaped(Admit(g, now, duty).0) && Authorized(Admit(g, now, duty).0, act)
  {
    var r := Admit(g, now, duty).0;
    assert UpRun(g, duty) == 2 && r.doms[1].perm == ALL_ACTS && r.doms[1].granted && CurDomain(r) == 1;
    AllActs(act);
  }

  /** Two questions in a row about a duty that never had a sample widen the current domain. */
  lemma TwoQuestions(g: Gov, duty: u64, act: u64, d: Timed)
    requires Inv(g) && 1 <= duty <= DUTIES && 1 <= act <= 7 && d.op == AskAdmit(duty) && Unsampled(g, duty, 0)
    ensures Authorized(Run(g, [d, d]), act)
  {
    FirstQuestion(g, d.now, duty);
    RunCons(g, [d, d], [d]);
    SecondQuestion(Step(g, d.now, d.op), d.now, duty, act);
    RunCons(Step(g, d.now, d.op), [d], []);
  }

  /** From boot on a domain is created, bound and revoked. */
  lemma BootRevoked(g: Gov, duty: u64, ops: seq<Timed>)
    requires 1 <= duty <= DUTIES && ops == [Timed(0, NewDomain(0, 0, false)), Timed(1, Bind(1)), Timed(2, Revoke(1))]
    requires Inv(Start()) && g == Run(Start(), ops)
    ensures Unsampled(g, duty, 0) && !g.doms[1].granted
  {
    RunCons(Start(), ops, ops[1..]);
    var g1 := Step(Start(), 0, ops[0].op);
    assert g1.doms[1] == Domain(0, true, 0, false);
    RunCons(g1, ops[1..], ops[2..]);
    var g2 := Step(g1, 1, ops[1].op);
    assert g2 == g1.(bound := 1);
    RunCons(g2, ops[2..], []);
  }

  /** And then it takes two questions to let it do everything again, although not one sample was ever fed. */
  lemma RevokedComesBack(duty: u64, act: u64, ops: seq<Timed>, d: Timed)
    requires 1 <= duty <= DUTIES && 1 <= act <= 7
    requires ops == [Timed(0, NewDomain(0, 0, false)), Timed(1, Bind(1)), Timed(2, Revoke(1))]
    requires d == Timed(3, AskAdmit(duty))
    ensures Inv(Start()) && !Authorized(Run(Start(), ops), act) && Authorized(Run(Start(), ops + [d, d]), act)
  {
    StartInv();
    BootRevoked(Run(Start(), ops), duty, ops);
    RunAppend(Start(), ops, [d, d]);
    TwoQuestions(Run(Start(), ops), duty, act, d);
  }

  lemma {:induction false} RunAppend(g: Gov, ops: seq<Timed>, more: seq<Timed>)
    requires Inv(g)
    ensures Run(g, ops + more) == Run(Run(g, ops), more)
    decreases |ops|
  {
    if ops == [] {
      assert ops + more == more;
    } else {
      StepOk(g, ops[0].now, ops[0].op);
      assert (ops + more)[1..] == ops[1..] + more;
      RunAppend(Step(g, ops[0].now, ops[0].op), ops[1..], more);
    }
  }

  lemma AllActs(act: u64)
    requires 1 <= act <= 7
    ensures TestBit(ALL_ACTS, act - 1)
  {
    assert TestBit(127, 0) && TestBit(127, 1) && TestBit(127, 2) && TestBit(127, 3);
    assert TestBit(127, 4) && TestBit(127, 5) && TestBit(127, 6);
  }

  // ------------------------------------------------------------------ trust rises slowly and falls at once

  predicate High(g: Gov, duty: u64)
    requires Shaped(g) && 1 <= duty <= DUTIES
  {
    Rate(g.ledger[duty - 1]) >= CfgGet(g, 7) && Rate(g.ledger[duty - 1]) >= 1
  }

  /** Asked twice: a domain is widened only if the duty is rated high now and was at the question before. */
  lemma {:induction false} WidenNeedsTwo(g: Gov, now: u64, duty: u64, ops: seq<Timed>, later: u64, r: Gov)
    requires Inv(g) && 1 <= duty <= DUTIES
    requires forall o <- ops :: o.op != AskAdmit(duty)
    requires Inv(Admit(g, now, duty).0) && r == Run(Admit(g, now, duty).0, ops)
    ensures Admit(r, later, duty).1 == 1 ==> High(r, duty) && High(g, duty)
  {
    var a := Admit(g, now, duty).0;
    UpRunKept(a, ops, duty);
  }

  lemma {:induction false} UpRunKept(g: Gov, ops: seq<Timed>, duty: u64)
    requires Inv(g) && 1 <= duty <= DUTIES && forall o <- ops :: o.op != AskAdmit(duty)
    ensures Run(g, ops).ledger[duty - 1].upRun == g.ledger[duty - 1].upRun
    decreases |ops|
  {
    if ops != [] {
      StepOk(g, ops[0].now, ops[0].op);
      UpRunStep(g, ops[0].now, ops[0].op, duty);
      UpRunKept(Step(g, ops[0].now, ops[0].op), ops[1..], duty);
    }
  }

  lemma UpRunStep(g: Gov, now: u64, op: Op, duty: u64)
    requires Inv(g) && 1 <= duty <= DUTIES && op != AskAdmit(duty)
    ensures |Step(g, now, op).ledger| == DUTIES
    ensures Step(g, now, op).ledger[duty - 1].upRun == g.ledger[duty - 1].upRun
  {
    match op
    case Exec(act, a0, a1) => ActOk(g, act, a0, a1);
    case Syscall(act, a0, a1, t) => ActOk(g, act, a0, a1);
    case AskAdmit(other) => assert other != duty;
    case _ =>
  }

  /** The first low rating shrinks the domain at once, down to the acknowledging act. */
  lemma LowShrinksAtOnce(g: Gov, now: u64, duty: u64)
    requires Inv(g) && 1 <= duty <= DUTIES && 1 <= CurDomain(g) < DOM_MAX
    requires Rate(g.ledger[duty - 1]) < CfgGet(g, 8) && CfgGet(g, 7) > CfgGet(g, 8)
    ensures var (r, code) := Admit(g, now, duty);
            code == 2 && r.doms[CurDomain(g)].perm == 32 && r.ledger[duty - 1].upRun == 0
  {
  }

  /** With a full window a hit no longer raises a nonzero count and a miss lowers it by one: lost trust stays lost. */
  lemma FullWindow(q: Duty, mark: u64)
    requires DutyOk(q) && q.total == 64 && q.hit > 0
    ensures Feed(q, mark).hit == if mark % 2 == 1 then q.hit else q.hit - 1
  {
  }

  function Feeds(q: Duty, marks: seq<u64>): Duty
    decreases |marks|
  {
    if marks == [] then q else Feeds(Feed(q, marks[0]), marks[1..])
  }

  /** So from a full window on the rating never rises again, whatever is fed, but from zero to one. */
  lemma {:induction false} RatingNeverRises(q: Duty, marks: seq<u64>)
    requires DutyOk(q) && q.total == 64
    ensures DutyOk(Feeds(q, marks)) && Feeds(q, marks).total == 64
    ensures Feeds(q, marks).hit <= if q.hit == 0 then 1 else q.hit
    decreases |marks|
  {
    if marks != [] {
      FeedOk(q, marks[0]);
      if q.hit > 0 {
        FullWindow(q, marks[0]);
      }
      RatingNeverRises(Feed(q, marks[0]), marks[1..]);
    }
  }
}
