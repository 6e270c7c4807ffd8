/**
 The governance code itself, on the tables it updates in place and the scheduler it acts on:
 permissions, domains, settings, the audit ring, the counter of denials and the quality ledger. Each
 method is proved against the step of governance on values.
 */
module Governance {
  import opened Bytes
  import opened GovSpec
  import opened Ring
  import GovProofs
  import S = SchedSpec
  import T = SchedTable

  const N_AUD := 32

  /** Where the ring keeps the i-th of the newest n records. */
  lemma NewestSlot(slots: seq<Rec>, log: seq<Rec>, n: nat, i: nat)
    requires Holds(slots, log, N_AUD) && i < n <= Min(N_AUD, |log|)
    ensures slots[(|log| + N_AUD - n + i) % N_AUD] == log[|log| - n + i]
  {
    var at: nat := |log| - n + i;
    assert (|log| + N_AUD - n + i) % N_AUD == at % N_AUD;
  }

  class Governor {
    const grants: array<Grant>
    const cfg: array<Setting>
    const doms: array<Domain>
    const ledger: array<Duty>
    const aud: array<Rec>
    const sched: T.Scheduler
    var audNum: nat
    var denies: nat
    var pending: u64
    ghost var log: seq<Rec>

    ghost predicate Valid()
      reads this, grants, cfg, doms, ledger, aud, sched, sched.tasks
    {
      && grants.Length == N_CAP && cfg.Length == 8 && doms.Length == DOM_MAX && ledger.Length == DUTIES
      && aud.Length == N_AUD && sched.Valid()
      && audNum == |log| && Holds(aud[..], log, N_AUD)
    }

    ghost function View(): Gov
      reads this, grants, cfg, doms, ledger, sched, sched.tasks
    {
      Gov(grants[..], cfg[..], doms[..], ledger[..], log, denies, sched.View(), sched.boundDomain, pending)
    }

    constructor (scheduler: T.Scheduler)
      requires scheduler.Valid()
      ensures Valid() && sched == scheduler && GovProofs.Inv(View())
      ensures View() == Start().(sched := scheduler.View(), bound := scheduler.boundDomain)
      ensures fresh(grants) && fresh(cfg) && fresh(doms) && fresh(ledger) && fresh(aud)
    {
      grants := new Grant[N_CAP](_ => Grant(0, false));
      cfg := new Setting[8](_ => Setting(0, 0));
      doms := new Domain[DOM_MAX](i => if i == 0 then Domain(0, true, 3, true) else Domain(0, false, 0, false));
      ledger := new Duty[DUTIES](_ => Duty(0, 0, 0));
      aud := new Rec[N_AUD](_ => Rec(0, 0, 0, 0));
      sched := scheduler;
      audNum, denies, pending := 0, 0, 0;
      log := [];
      new;
      GovProofs.StartInv();
      assert View() == Start().(sched := scheduler.View(), bound := scheduler.boundDomain);
    }

    // ---------------------------------------------------------------- audit

    /** `aud_note` */
    method AudNote(now: u64, action: u64, subject: u64, result: u64)
      requires Valid()
      modifies this, aud
      ensures Valid() && View() == Note(old(View()), now, action, subject, result)
    {
      var e := Rec(now, action, subject, result);
      HoldsPush(aud[..], log, N_AUD, e);
      aud[audNum % N_AUD] := e;
      audNum := audNum + 1;
      log := log + [e];
    }

    /** `aud_exec` */
    method AudExec(now: u64, act: u64, result: u64)
      requires Valid()
      modifies this, aud
      ensures Valid() && View() == NoteExec(old(View()), now, act, result)
    {
      AudNote(now, 2, act, result);
      if result == 1 {
        denies := denies + 1;
      }
    }

    /** `fujo_aud_read`: the newest records that fit, oldest first. */
    method AudRead(cap: nat) returns (rc: int, out: seq<Rec>)
      requires Valid()
      ensures var n := Min(Min(cap / 32, 32), |log|); rc == n && out == GovProofs.Newest(log, n)
    {
      var n := Min(Min(cap / 32, N_AUD), audNum);
      out := [];
      for i := 0 to n
        invariant out == log[|log| - n..][..i]
      {
        var idx := (audNum + N_AUD - n + i) % N_AUD;
        NewestSlot(aud[..], log, n, i);
        out := out + [aud[idx]];
      }
      return n, out;
    }

    // ---------------------------------------------------------------- authority

    /** `current_domain_id` */
    method CurrentDomain() returns (d: u64)
      requires Valid()
      ensures d == CurDomain(View())
    {
      var t := sched.tasks[sched.cur];
      return if t.state != S.Empty then t.domain else sched.boundDomain;
    }

    /** `exec_authorized` */
    method ExecAuthorized(act: u64) returns (ok: bool)
      requires Valid()
      ensures ok == Authorized(View(), act)
    {
      if act == 0 || act > 8 {
        return false;
      }
      var d := CurrentDomain();
      if d >= DOM_MAX {
        return false;
      }
      if d == 0 {
        return grants[EXEC_SLOT].granted && TestBit(grants[EXEC_SLOT].perm, act - 1);
      }
      return doms[d].granted && TestBit(doms[d].perm, act - 1);
    }

    // ---------------------------------------------------------------- configuration

    /** `cfg_set` */
    method SetKey(key: u64, val: u64) returns (rc: int)
      requires Valid()
      modifies cfg
      ensures Valid() && (View(), rc) == CfgSet(old(View()), key, val)
    {
      if key == 0 || key > 8 {
        return -22;
      }
      var max: u64 := if key == 2 then 1 else 100;
      if val > max {
        return -22;
      }
      if key == 7 {
        var tauLow := if cfg[7].key == 8 then cfg[7].val else 30;
        if val <= tauLow {
          return -22;
        }
      }
      if key == 8 {
        var tauHigh := if cfg[6].key == 7 then cfg[6].val else 70;
        if val >= tauHigh {
          return -22;
        }
      }
      cfg[key - 1] := Setting(key, val);
      return 0;
    }

    /** `fujo_cfg_get` */
    method GetKey(key: u64) returns (r: int)
      requires Valid()
      ensures r == CfgGet(View(), key)
    {
      var default := match key
                     case 1 => 50
                     case 7 => 46
                     case 8 => 35
                     case _ => 0;
      if key == 0 || key > 8 {
        return -22;
      }
      return if cfg[key - 1].key == key then cfg[key - 1].val else default;
    }

    // ---------------------------------------------------------------- actions

    /** `fujo_cap_exec` */
    method Execute(now: u64, act: u64, a0: u64, a1: u64) returns (rc: int)
      requires Valid()
      modifies this, cfg, aud, sched.tasks
      ensures Valid() && (View(), rc) == CapExec(old(View()), now, act, a0, a1)
    {
      var ok := ExecAuthorized(act);
      if !ok {
        AudExec(now, act, 1);
        return -1;
      }
      rc := Dispatch(act, a0, a1);
      AudExec(now, act, if rc == 0 then 0 else 1);
    }

    method Dispatch(act: u64, a0: u64, a1: u64) returns (rc: int)
      requires Valid()
      modifies `pending, cfg, sched.tasks
      ensures Valid() && (View(), rc) == Act(old(View()), act, a0, a1)
    {
      if act == ACT_KILL {
        rc := sched.KillById(a0);
      } else if act == ACT_ISOLATE {
        rc := sched.SuspendById(a0);
      } else if act == ACT_RESUME {
        rc := sched.ResumeById(a0);
      } else if act == ACT_SET_CFG {
        rc := SetKey(a0, a1);
      } else if act == ACT_ACK {
        pending := 0;
        rc := 0;
      } else {
        rc := -22;
      }
    }

    /** The system call `cap_exec`; t is the task that a launch would start. */
    method SystemExec(now: u64, act: u64, a0: u64, a1: u64, t: S.Task) returns (rc: int)
      requires Valid() && t.state == S.Runnable && t.kstackTop == S.AUX_KSTACK
      modifies this, cfg, aud, sched, sched.tasks
      ensures Valid() && (View(), rc) == SysExec(old(View()), now, act, a0, a1, t)
    {
      var ok := ExecAuthorized(act);
      if !ok {
        AudExec(now, act, 1);
        return -1;
      }
      if act == ACT_LAUNCH {
        var allowed := LaunchEntryOk(a0);
        if !allowed {
          AudExec(now, act, 1);
          return -1;
        }
        rc := sched.Spawn(t);
      } else {
        rc := Execute(now, act, a0, a1);
      }
      AudExec(now, act, if rc == 0 then 0 else 1);
    }

    /** `launch_entry_ok` */
    method LaunchEntryOk(entry: u64) returns (ok: bool)
      requires Valid()
      requires CurDomain(View()) < DOM_MAX
      ensures ok == EntryOk(View(), entry)
    {
      var d := CurrentDomain();
      var region := if 0x40_0000 <= entry < 0xC0_0000 then 1 else if 0x100_0000 <= entry < 0x108_0000 then 2 else 0;
      if region == 0 {
        return false;
      }
      if d == 0 {
        return true;
      }
      return TestBit(doms[d].asMask, region - 1);
    }

    // ---------------------------------------------------------------- grants and domains

    /** `fujo_cap_grant` */
    method GrantSlot(idx: u64, perm: u64)
      requires Valid()
      modifies grants
      ensures Valid() && View() == CapGrant(old(View()), idx, perm)
    {
      var i := Min(idx, N_CAP - 1);
      grants[i] := Grant(perm, true);
    }

    /** `fujo_cap_check`: a refusal is counted and logged. */
    method CheckSlot(now: u64, idx: u64, perm: u64) returns (rc: int)
      requires Valid()
      modifies this, aud
      ensures Valid() && (View(), rc) == CapCheck(old(View()), now, idx, perm)
    {
      var i := Min(idx, N_CAP - 1);
      if grants[i].granted && Within(perm, grants[i].perm) {
        return 0;
      }
      denies := denies + 1;
      AudNote(now, 1, i, 1);
      return -1;
    }

    /** `fujo_dom_create` */
    method CreateDomain(now: u64, perm: u64, asMask: u64, irq: bool) returns (rc: int)
      requires Valid()
      modifies this, doms, aud
      ensures Valid() && (View(), rc) == DomCreate(old(View()), now, perm, asMask, irq)
    {
      var i: nat := 1;
      while i < DOM_MAX && doms[i].granted
        invariant 1 <= i <= DOM_MAX && FreeDom(doms[..], 1) == FreeDom(doms[..], i)
      {
        i := i + 1;
      }
      if i == DOM_MAX {
        return -17;
      }
      doms[i] := Domain(perm % 128, true, asMask % 4, irq);
      AudNote(now, 3, i, 0);
      return i;
    }

    /** `fujo_dom_revoke` */
    method RevokeDomain(now: u64, id: u64) returns (rc: int)
      requires Valid()
      modifies this, doms, aud
      ensures Valid() && (View(), rc) == DomRevoke(old(View()), now, id)
    {
      if id == 0 || id >= DOM_MAX {
        return -22;
      }
      doms[id] := doms[id].(granted := false);
      AudNote(now, 3, id, 1);
      return 0;
    }

    /** `dom_adjust` */
    method AdjustDomain(now: u64, id: u64, perm: u64) returns (rc: int)
      requires Valid()
      modifies this, doms, aud
      ensures Valid() && (View(), rc) == DomAdjust(old(View()), now, id, perm)
    {
      if id == 0 || id >= DOM_MAX {
        return -22;
      }
      doms[id] := doms[id].(perm := perm % 128);
      if perm != 0 {
        doms[id] := doms[id].(granted := true);
      }
      assert doms[..] == old(doms[..])[id := doms[id]];
      AudNote(now, 3, id, 2);
      return 0;
    }

    // ---------------------------------------------------------------- the quality ledger

    /** `fujo_qual_feed` */
    method FeedDuty(duty: u64, mark: u64) returns (rc: int)
      requires Valid()
      modifies ledger
      ensures Valid()
      ensures if 1 <= duty <= 8
              then rc == 0 && View() == old(View()).(ledger := old(ledger[..])[duty - 1 := Feed(old(ledger[duty - 1]), mark)])
              else rc == -22 && View() == old(View())
    {
      if duty == 0 || duty > DUTIES {
        return -22;
      }
      var q := ledger[duty - 1];
      if q.total < 64 {
        q := q.(total := q.total + 1);
        if mark != 0 {
          q := q.(hit := q.hit + 1);
        }
      } else {
        q := q.(hit := (q.hit * 63 + mark % 2 * 64) / 64);
      }
      ledger[duty - 1] := q;
      return 0;
    }

    /** `fujo_dom_admit`: the rating, the verdict, and the new bits of a domain that was adjusted. Without a duty of
        that number or a user address for the answer nothing happens. */
    method AdmitDomain(now: u64, duty: u64, inWindow: bool) returns (rate: nat, code: int, perm: u64)
      requires Valid()
      modifies this, doms, ledger, aud
      ensures Valid() && (View(), code) == if inWindow then Admit(old(View()), now, duty) else (old(View()), -22)
      ensures code != -22 ==> 1 <= duty <= 8 && rate == Rate(old(ledger[duty - 1]))
      ensures perm == if code == 1 then ALL_ACTS else if code == 2 then 32 else 0
    {
      rate, code, perm := 0, -22, 0;
      if duty == 0 || duty > DUTIES || !inWindow {
        return;
      }
      var d := duty - 1;
      rate := if ledger[d].total == 0 then 50 else ledger[d].hit * 100 / ledger[d].total;
      var tHigh := GetKey(7);
      var tLow := GetKey(8);
      tHigh := if tHigh > 1 then tHigh else 1;
      var cur := CurrentDomain();
      var up := CountUp(duty, rate, tHigh);
      code, perm := Judge(now, up, rate, tLow, cur);
    }

    /** Widen after two high ratings in a row, shrink on a low one. */
    method Judge(now: u64, up: nat, rate: nat, tLow: int, cur: u64) returns (code: int, perm: u64)
      requires Valid()
      modifies this, doms, aud
      ensures Valid() && perm == if code == 1 then ALL_ACTS else if code == 2 then 32 else 0
      ensures (View(), code)
           == if !(1 <= cur < DOM_MAX) then (old(View()), 0)
              else if up >= WIDEN_CONFIRM then (DomAdjust(old(View()), now, cur, ALL_ACTS).0, 1)
              else if rate < tLow && tLow > 0 then (DomAdjust(old(View()), now, cur, 32).0, 2)
              else (old(View()), 0)
    {
      code, perm := 0, 0;
      if up >= WIDEN_CONFIRM {
        if cur >= 1 && cur < DOM_MAX {
          var rc := AdjustDomain(now, cur, ALL_ACTS);
          code := 1;
          perm := doms[cur].perm;
        }
      } else if rate < tLow && tLow > 0 {
        if cur >= 1 && cur < DOM_MAX {
          var rc := AdjustDomain(now, cur, 32);
          code := 2;
          perm := doms[cur].perm;
        }
      }
    }

    /** One more high rating in a row, or none. */
    method CountUp(duty: u64, rate: nat, tHigh: int) returns (up: nat)
      requires Valid() && 1 <= duty <= DUTIES && rate == Rate(ledger[duty - 1]) && tHigh == HighMark(View())
      modifies ledger
      ensures Valid() && View() == Asked(old(View()), duty) && up == UpRun(old(View()), duty)
    {
      var d := duty - 1;
      if rate >= tHigh {
        ledger[d] := ledger[d].(upRun := ledger[d].upRun + 1);
      } else {
        ledger[d] := ledger[d].(upRun := 0);
      }
      return ledger[d].upRun;
    }
  }
}
