/** What an authorised action does to the tasks and the settings, and who is authorised. */
module GovActs {
  import opened Bytes
  import opened GovSpec
  import opened GovProofs
  import S = SchedSpec
  import T = SchedTable

  /** Only the state of task id differs, and the records. */
  predicate NowIn(g: Gov, r: Gov, id: nat, st: S.State) {
    S.NowIn(g.sched, r.sched, id, st) && r == g.(sched := r.sched, log := r.log, denies := r.denies)
  }

  /** Kill, isolate and resume: 0 exactly when the task is in the right state, which it then leaves for the new one;
      otherwise -1, and nothing changes. */
  lemma TaskActs(g: Gov, now: u64, id: u64, a1: u64)
    requires Inv(g)
    ensures Authorized(g, 1) ==>
              var (r, rc) := CapExec(g, now, 1, id, a1);
              if S.InState(g.sched, id, S.Runnable) then rc == 0 && NowIn(g, r, id, S.Dead) else rc == -1 && Unchanged(g, r)
    ensures Authorized(g, 2) ==>
              var (r, rc) := CapExec(g, now, 2, id, a1);
              if S.InState(g.sched, id, S.Runnable) && id != g.sched.cur then rc == 0 && NowIn(g, r, id, S.Suspended)
              else rc == -1 && Unchanged(g, r)
    ensures Authorized(g, 5) ==>
              var (r, rc) := CapExec(g, now, 5, id, a1);
              if S.InState(g.sched, id, S.Suspended) then rc == 0 && NowIn(g, r, id, S.Runnable) else rc == -1 && Unchanged(g, r)
  {
  }

  /** Acknowledging clears the pending anomaly; every other act is unknown here. */
  lemma OtherActs(g: Gov, now: u64, act: u64, a0: u64, a1: u64)
    requires Inv(g) && Authorized(g, act)
    ensures act == 6 ==> var (r, rc) := CapExec(g, now, 6, a0, a1);
                         rc == 0 && r == g.(pending := 0, log := r.log, denies := r.denies)
    ensures act in {3, 7, 8} ==> CapExec(g, now, act, a0, a1).1 == -22 && Unchanged(g, CapExec(g, now, act, a0, a1).0)
  {
  }

  /** A threshold that was set, or what is assumed for one that was not. */
  function Stored(g: Gov, key: u64, default: u64): u64
    requires Shaped(g) && 1 <= key <= 8
  {
    if g.cfg[key - 1].key == key then g.cfg[key - 1].val else default
  }

  /** A setting is accepted exactly in its range and, for the two thresholds, on the right side of the other one. */
  lemma SettingIff(g: Gov, now: u64, key: u64, val: u64)
    requires Inv(g) && Authorized(g, 4)
    ensures var (r, rc) := CapExec(g, now, 4, key, val);
            && (rc == 0 <==> 1 <= key <= 8 && val <= (if key == 2 then 1 else 100)
                             && (key == 7 ==> val > Stored(g, 8, 30)) && (key == 8 ==> val < Stored(g, 7, 70)))
            && (rc != 0 ==> rc == -22 && Unchanged(g, r))
            && (rc == 0 ==> CfgGet(r, key) == val && r == g.(cfg := r.cfg, log := r.log, denies := r.denies)
                            && forall k: u64 | k != key :: CfgGet(r, k) == CfgGet(g, k))
  {
  }

  /** What is read back: the value set last, else 50, 46 and 35 for keys 1, 7 and 8 and zero for the others. */
  lemma ReadSetting(g: Gov, key: u64)
    requires Inv(g)
    ensures CfgGet(g, key) == if !(1 <= key <= 8) then -22
                              else Stored(g, key, if key == 1 then 50 else if key == 7 then 46 else if key == 8 then 35 else 0)
  {
  }

  // ------------------------------------------------------------------ who is authorised

  /** The act bits of the current task's domain: the exec slot's for domain 0, none outside the table. */
  lemma AuthorizedIff(g: Gov, act: u64, d: u64)
    requires Inv(g) && d == if g.sched.count == 0 then g.bound else g.sched.tasks[g.sched.cur].domain
    ensures Authorized(g, act) <==>
            && 1 <= act <= 8 && d < 5
            && (if d == 0 then g.grants[6].granted && TestBit(g.grants[6].perm, act - 1)
                else g.doms[d].granted && TestBit(g.doms[d].perm, act - 1))
  {
  }

  lemma {:induction false} WithinBit(q: nat, p: nat, k: nat)
    requires Within(q, p) && TestBit(q, k)
    ensures TestBit(p, k)
    decreases k
  {
    if q == 0 {
      ZeroBits(k);
    } else if k > 0 {
      WithinBit(q / 2, p / 2, k - 1);
    }
  }

  lemma {:induction false} MissingBit(q: nat, p: nat) returns (k: nat)
    requires !Within(q, p)
    ensures TestBit(q, k) && !TestBit(p, k)
  {
    if q % 2 > p % 2 {
      k := 0;
    } else {
      var j := MissingBit(q / 2, p / 2);
      k := j + 1;
    }
  }

  lemma {:induction false} ZeroBits(k: nat)
    ensures !TestBit(0, k)
  {
    if k > 0 {
      ZeroBits(k - 1);
    }
  }

  /** Every bit of q is one of p. */
  lemma WithinIff(q: nat, p: nat)
    ensures Within(q, p) <==> forall k: nat :: TestBit(q, k) ==> TestBit(p, k)
  {
    if Within(q, p) {
      forall k: nat | TestBit(q, k)
        ensures TestBit(p, k)
      {
        WithinBit(q, p, k);
      }
    } else {
      var k := MissingBit(q, p);
    }
  }

  /** A check of slot idx (7 for any above) passes exactly when it is granted and has every bit asked for; a refusal is
      counted and recorded. */
  lemma CheckIff(g: Gov, now: u64, idx: u64, perm: u64)
    requires Inv(g)
    ensures var i := if idx < 8 then idx else 7;
            var (r, rc) := CapCheck(g, now, idx, perm);
            && (rc == 0 <==> g.grants[i].granted && forall k: nat :: TestBit(perm, k) ==> TestBit(g.grants[i].perm, k))
            && (rc == 0 ==> r == g)
            && (rc != 0 ==> rc == -1 && r == g.(log := g.log + [Rec(now, 1, i, 1)], denies := g.denies + 1))
  {
    WithinIff(perm, g.grants[if idx < 8 then idx else 7].perm);
  }

  /** So what was granted last decides: a check after a grant passes exactly for the bits granted. */
  lemma GrantThenCheck(g: Gov, now: u64, idx: u64, perm: u64, asked: u64)
    requires Inv(g) && Inv(CapGrant(g, idx, perm))
    ensures CapCheck(CapGrant(g, idx, perm), now, idx, asked).1 == 0 <==> forall k: nat :: TestBit(asked, k) ==> TestBit(perm, k)
  {
    CheckIff(CapGrant(g, idx, perm), now, idx, asked);
  }

  /** At boot no act is authorised, every setting reads as its default, only the system's domain is there, no sample and
      no record is in, and no task runs. */
  lemma BootState(act: u64, key: u64)
    ensures Inv(Start()) && !Authorized(Start(), act)
    ensures CfgGet(Start(), key) == if key == 1 then 50 else if key == 7 then 46 else if key == 8 then 35
                                    else if 2 <= key <= 6 then 0 else -22
    ensures forall d | 0 < d < 5 :: Start().doms[d] == Domain(0, false, 0, false)
    ensures Start().doms[0] == Domain(0, true, 3, true)
    ensures forall i | 0 <= i < 8 :: Start().ledger[i] == Duty(0, 0, 0) && Start().grants[i] == Grant(0, false)
    ensures Start().log == [] && Start().denies == 0 && Start().bound == 0 && Start().pending == 0 && Start().sched.count == 0
  {
    StartInv();
  }

  /** A new domain: in the lowest ungranted slot from 1 on, with the seven act bits and two region bits asked for; -17 when
      all four are granted. */
  lemma NewDomainIff(g: Gov, now: u64, perm: u64, asMask: u64, irq: bool)
    requires Inv(g)
    ensures var (r, rc) := DomCreate(g, now, perm, asMask, irq);
            && (rc == -17 <==> forall d | 1 <= d <= 4 :: g.doms[d].granted)
            && (rc == -17 ==> r == g)
            && (rc != -17 ==> 1 <= rc <= 4 && !g.doms[rc].granted && (forall d | 1 <= d < rc :: g.doms[d].granted)
                              && r == g.(doms := g.doms[rc := Domain(perm % 128, true, asMask % 4, irq)],
                                         log := g.log + [Rec(now, 3, rc, 0)]))
  {
    var i := FreeDom(g.doms, 1);
    assert i < 5 ==> !g.doms[i].granted;
  }

  /** Revoking and adjusting: only domains 1 to 4 can be; revoking takes the grant away, adjusting sets the seven act bits
      and grants unless nothing was asked for. */
  lemma DomainChanges(g: Gov, now: u64, id: u64, perm: u64)
    requires Inv(g)
    ensures DomRevoke(g, now, id)
         == if 1 <= id <= 4 then (g.(doms := g.doms[id := g.doms[id].(granted := false)], log := g.log + [Rec(now, 3, id, 1)]), 0)
            else (g, -22)
    ensures DomAdjust(g, now, id, perm)
         == if 1 <= id <= 4 then
              (g.(doms := g.doms[id := g.doms[id].(perm := perm % 128, granted := g.doms[id].granted || perm != 0)],
                  log := g.log + [Rec(now, 3, id, 2)]), 0)
            else (g, -22)
  {
  }

  /** Where a launch may begin: two windows of addresses, each behind its region bit outside domain 0. */
  lemma EntryIff(g: Gov, entry: u64, d: u64)
    requires Inv(g) && d == CurDomain(g) && d < 5
    ensures EntryOk(g, entry) <==>
            || (0x40_0000 <= entry < 0xC0_0000 && (d == 0 || g.doms[d].asMask % 2 == 1))
            || (0x100_0000 <= entry < 0x108_0000 && (d == 0 || g.doms[d].asMask / 2 % 2 == 1))
  {
    assert TestBit(g.doms[d].asMask, 1) <==> TestBit(g.doms[d].asMask / 2, 0);
  }

  /** Re-admission: asked about a duty from 1 to 8, outside domain 0 and inside the table; two high ratings in a row widen
      to all seven acts, a rating below a positive low mark shrinks to the acknowledgement alone. */
  lemma AdmitIff(g: Gov, now: u64, duty: u64)
    requires Inv(g) && 1 <= duty <= 8
    ensures var q, cur := g.ledger[duty - 1], CurDomain(g);
            var high := Rate(q) >= (if CfgGet(g, 7) > 1 then CfgGet(g, 7) else 1);
            var low := Rate(q) < CfgGet(g, 8) && CfgGet(g, 8) > 0;
            var (r, code) := Admit(g, now, duty);
            && r.ledger == g.ledger[duty - 1 := q.(upRun := if high then q.upRun + 1 else 0)]
            && code == (if !(1 <= cur <= 4) then 0 else if high && q.upRun >= 1 then 1 else if low && !(high && q.upRun >= 1) then 2 else 0)
            && (code == 1 ==> r.doms[cur].perm == 127 && r.doms[cur].granted)
            && (code == 2 ==> r.doms[cur].perm == 32 && r.doms[cur].granted)
            && (code == 0 ==> r.doms == g.doms && r.log == g.log)
            && (code != 0 ==> r.log == g.log + [Rec(now, 3, cur, 2)])
            && r.grants == g.grants && r.cfg == g.cfg && r.sched == g.sched && r.denies == g.denies
  {
  }

  /** Binding a domain to the current task, or to the task yet to be registered. */
  lemma BindMeans(g: Gov, id: u64)
    requires Inv(g)
    ensures Shaped(BindTo(g, id)) && CurDomain(BindTo(g, id)) == id
    ensures g.sched.count == 0 ==> BindTo(g, id) == g.(bound := id)
    ensures g.sched.count > 0 ==>
              BindTo(g, id) == g.(sched := g.sched.(tasks := g.sched.tasks[g.sched.cur := g.sched.tasks[g.sched.cur].(domain := id)]))
  {
  }

  // ------------------------------------------------------------------ the quality ledger

  function FeedAll(q: Duty, marks: seq<u64>): Duty {
    if marks == [] then q else Feed(FeedAll(q, marks[..|marks| - 1]), marks[|marks| - 1])
  }

  function CountNonzero(marks: seq<u64>): (n: nat)
    ensures n <= |marks|
  {
    if marks == [] then 0
    else CountNonzero(marks[..|marks| - 1]) + if marks[|marks| - 1] != 0 then 1 else 0
  }

  /** While the window of 64 fills, every nonzero mark is a hit, and the rating is their share in per cent. */
  lemma {:induction false} FillingWindow(marks: seq<u64>, up: nat)
    requires |marks| <= 64
    ensures FeedAll(Duty(0, 0, up), marks) == Duty(CountNonzero(marks), |marks|, up)
    ensures Rate(FeedAll(Duty(0, 0, up), marks)) == if marks == [] then 50 else CountNonzero(marks) * 100 / |marks|
  {
    if marks != [] {
      FillingWindow(marks[..|marks| - 1], up);
    }
  }

  /** Once it is full, only odd marks are hits, each sample weighs one 64th, and fractions are dropped. */
  lemma FullWindowMark(q: Duty, mark: u64)
    requires q.total >= 64
    ensures var r := Feed(q, mark);
            && r.total == q.total && r.upRun == q.upRun
            && 64 * r.hit <= 63 * q.hit + (if mark % 2 == 1 then 64 else 0) < 64 * r.hit + 64
  {
  }
}
