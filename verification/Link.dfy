/** The reply link of the kernel's AI channel: request snapshot, line assembly, and the rejection of stale replies. */
module Link {
  import opened Bytes
  import opened Text
  import opened EventLog

  /** "FJAI:RSP " */
  const RSP: seq<byte> := [0x46, 0x4A, 0x41, 0x49, 0x3A, 0x52, 0x53, 0x50, 0x20]
  /** "TTL=" */
  const TTL: seq<byte> := [0x54, 0x54, 0x4C, 0x3D]
  const LINE_ROOM := 94
  const SPIN_MAX := 120_000_000
  const TIMEOUT := 600
  /** Window, exit and anomaly events: bits 2, 3 and 4. */
  const CRIT_MASK: u64 := 0x1C

  /** One round of the wait loop: the byte that was there, the clock, and everything logged by then. */
  datatype Poll = Poll(input: Option<byte>, now: u64, log: seq<Event>)

  datatype Snapshot = Snapshot(valid: bool, t0: u64, evw: nat, crit: u64)

  datatype Outcome = Accepted(line: seq<byte>) | StaleEvent | StaleTtl | TimedOut | Pending

  // ------------------------------------------------------------------ what a reply line says

  /** `line_seq_ok`: the digits after the head, in 64 bits. */
  predicate SeqOk(line: seq<byte>, seqNo: u64) {
    HasPrefix(line, RSP) && FoldDigits(line, 9, 0) == seqNo
  }

  /** `parse_ttl`: the digits after the first "TTL=". */
  function ParseTtl(line: seq<byte>): Option<u64> {
    var at := FindFrom(line, TTL, 0);
    if at.None? then None else Some(FoldDigits(line, at.value + 4, 0))
  }

  /** The number a line carries is its decimal digits, modulo 2^64. */
  lemma SeqOkIff(line: seq<byte>, seqNo: u64)
    ensures SeqOk(line, seqNo) <==> HasPrefix(line, RSP) && Decimal(line[9..DigitsEnd(line, 9)]) % WRAP == seqNo
  {
    if HasPrefix(line, RSP) {
      assert line[9..9] == [];
      FoldIsDecimal(line, 9, 9);
    }
  }

  // ------------------------------------------------------------------ the wait

  /** The check of a matching line against the snapshot. */
  function Judge(line: seq<byte>, snap: Snapshot, p: Poll): Outcome {
    if !snap.valid then Accepted(line)
    else
      var ttl := ParseTtl(line).GetOr(WRAP - 1);
      if DeltaCritical(p.log, snap.evw, snap.crit) > 0 then StaleEvent
      else if ttl != WRAP - 1 && (p.now - snap.t0) % WRAP > ttl then StaleTtl
      else Accepted(line)
  }

  function Extend(line: seq<byte>, b: Option<byte>): (r: seq<byte>) {
    if b.None? then line
    else if b.value == NL then []
    else if |line| < LINE_ROOM then line + [b.value]
    else line
  }

  /** `wait_rsp` from a round on: the line begun, the rounds spun so far. */
  function Await(seqNo: u64, snap: Snapshot, start: u64, line: seq<byte>, spin: nat, polls: seq<Poll>): Outcome
    decreases |polls|
  {
    if polls == [] then Pending
    else
      var p := polls[0];
      if p.input == Some(NL) then
        if SeqOk(line, seqNo) then Judge(line, snap, p) else Await(seqNo, snap, start, [], spin, polls[1..])
      else if spin + 1 > SPIN_MAX || (p.now - start) % WRAP > TIMEOUT then TimedOut
      else Await(seqNo, snap, start, Extend(line, p.input), spin + 1, polls[1..])
  }

  /** The unfinished line after some rounds that started with `line`. */
  function Current(line: seq<byte>, polls: seq<Poll>): seq<byte>
    decreases |polls|
  {
    if polls == [] then line else Current(Extend(line, polls[0].input), polls[1..])
  }

  /** Round k completes a line that answers the request. */
  predicate Answers(seqNo: u64, line: seq<byte>, polls: seq<Poll>, k: nat)
    requires k < |polls|
  {
    polls[k].input == Some(NL) && SeqOk(Current(line, polls[..k]), seqNo)
  }

  /** The verdict is that on the first line with the right number: earlier lines are passed over. */
  lemma {:induction false} FirstAnswerDecides(seqNo: u64, snap: Snapshot, start: u64, line: seq<byte>, spin: nat, polls: seq<Poll>)
      returns (k: nat)
    requires Await(seqNo, snap, start, line, spin, polls) !in {Pending, TimedOut}
    ensures k < |polls| && Answers(seqNo, line, polls, k)
    ensures forall j: nat | j < k :: !Answers(seqNo, line, polls, j)
    ensures Await(seqNo, snap, start, line, spin, polls) == Judge(Current(line, polls[..k]), snap, polls[k])
    decreases |polls|
  {
    var p := polls[0];
    assert polls[..0] == [];
    if p.input == Some(NL) && SeqOk(line, seqNo) {
      k := 0;
    } else {
      var next := Extend(line, p.input);
      var j := FirstAnswerDecides(seqNo, snap, start, next, if p.input == Some(NL) then spin else spin + 1, polls[1..]);
      k := j + 1;
      forall i: nat | i < |polls| - 1
        ensures Answers(seqNo, line, polls, i + 1) <==> Answers(seqNo, next, polls[1..], i)
      {
        assert polls[..i + 1][1..] == polls[1..][..i];
      }
      assert polls[..k][1..] == polls[1..][..j];
      forall i: nat | i < k
        ensures !Answers(seqNo, line, polls, i)
      {
        if i > 0 {
          assert !Answers(seqNo, next, polls[1..], i - 1);
          assert Answers(seqNo, line, polls, (i - 1) + 1) <==> Answers(seqNo, next, polls[1..], i - 1);
        }
      }
    }
  }

  /** Without an answer the wait ends in a timeout or is still going on. */
  lemma {:induction false} NoAnswer(seqNo: u64, snap: Snapshot, start: u64, line: seq<byte>, spin: nat, polls: seq<Poll>)
    requires forall j: nat | j < |polls| :: !Answers(seqNo, line, polls, j)
    ensures Await(seqNo, snap, start, line, spin, polls) in {Pending, TimedOut}
    decreases |polls|
  {
    if polls != [] {
      var p := polls[0];
      assert polls[..0] == [];
      assert !Answers(seqNo, line, polls, 0);
      var next := Extend(line, p.input);
      forall j: nat | j < |polls| - 1
        ensures !Answers(seqNo, next, polls[1..], j)
      {
        assert polls[..j + 1][1..] == polls[1..][..j];
        assert !Answers(seqNo, line, polls, j + 1);
      }
      NoAnswer(seqNo, snap, start, next, if p.input == Some(NL) then spin else spin + 1, polls[1..]);
    }
  }

  // ------------------------------------------------------------------ freshness

  lemma CriticalKinds(kind: byte)
    ensures Critical(CRIT_MASK, kind) <==> kind in {3, 4, 5}
  {
    if 1 <= kind <= 64 {
      if kind > 5 {
        assert TestBit(CRIT_MASK, kind - 1) == TestBit(14, kind - 2) == TestBit(7, kind - 3) == TestBit(3, kind - 4)
            == TestBit(1, kind - 5) == TestBit(0, kind - 6);
        NoBits(kind - 6);
      }
    }
  }

  lemma {:induction false} NoBits(k: nat)
    ensures !TestBit(0, k)
  {
    if k > 0 {
      NoBits(k - 1);
    }
  }

  /** The verdict on a matching line: accepted exactly when it is still fresh. */
  predicate Fresh(line: seq<byte>, t0: u64, since: seq<Event>, now: u64) {
    && (forall e <- since :: e.kind !in {3, 4, 5})
    && (ParseTtl(line) in {None, Some(WRAP - 1)} || (now - t0) % WRAP <= ParseTtl(line).value)
  }

  /**
   A reply to a request made when `before` had been logged: while at most 128 events followed, the first line with
   the request's number is accepted exactly when no window, exit or anomaly event has come and its lifetime lasts.
   */
  lemma AcceptedIffFresh(line: seq<byte>, t0: u64, before: seq<Event>, since: seq<Event>, p: Poll)
    requires p.log == before + since && |since| <= RING
    ensures Judge(line, Snapshot(true, t0, |before|, CRIT_MASK), p) == Accepted(line) <==> Fresh(line, t0, since, p.now)
  {
    DeltaExact(p.log, |before|, CRIT_MASK);
    forall i | |before| <= i < |p.log|
      ensures p.log[i] == since[i - |before|] && (Critical(CRIT_MASK, p.log[i].kind) <==> p.log[i].kind in {3, 4, 5})
    {
      CriticalKinds(p.log[i].kind);
    }
    assert forall e <- since :: exists k :: 0 <= k < |since| && since[k] == e;
    assert forall k | 0 <= k < |since| :: since[k] == p.log[|before| + k];
  }

  /** Whatever is accepted carries the right number, is within its lifetime, and no critical event was logged since the request. */
  lemma AcceptedIsFresh(seqNo: u64, t0: u64, before: seq<Event>, start: u64, polls: seq<Poll>, line: seq<byte>)
      returns (k: nat, since: seq<Event>)
    requires Await(seqNo, Snapshot(true, t0, |before|, CRIT_MASK), start, [], 0, polls) == Accepted(line)
    requires forall p <- polls :: before <= p.log && |p.log| <= |before| + RING
    ensures k < |polls| && polls[k].log == before + since
    ensures line == Current([], polls[..k]) && SeqOk(line, seqNo) && Fresh(line, t0, since, polls[k].now)
  {
    var snap := Snapshot(true, t0, |before|, CRIT_MASK);
    k := FirstAnswerDecides(seqNo, snap, start, [], 0, polls);
    var p := polls[k];
    assert p in polls;
    since := p.log[|before|..];
    assert p.log == before + since;
    AcceptedIffFresh(Current([], polls[..k]), t0, before, since, p);
  }

  // ------------------------------------------------------------------ the code

  method LineSeqOk(line: seq<byte>, seqNo: u64) returns (ok: bool)
    ensures ok == SeqOk(line, seqNo)
  {
    if !HasPrefix(line, RSP) {
      return false;
    }
    var s := ScanDigits(line, 9);
    return s == seqNo;
  }

  method ScanDigits(line: seq<byte>, from: nat) returns (v: u64)
    requires from <= |line|
    ensures v == FoldDigits(line, from, 0)
  {
    v := 0;
    var j := from;
    while j < |line| && 0x30 <= line[j] <= 0x39
      invariant from <= j <= |line| && FoldDigits(line, from, 0) == FoldDigits(line, j, v)
    {
      v := (v * 10 + (line[j] - 0x30)) % WRAP;
      j := j + 1;
    }
  }

  method FindTtl(line: seq<byte>) returns (r: Option<u64>)
    ensures r == ParseTtl(line)
  {
    var i: nat := 0;
    while i + 4 <= |line|
      invariant FindFrom(line, TTL, 0) == FindFrom(line, TTL, i)
    {
      if line[i..i + 4] == TTL {
        var v := ScanDigits(line, i + 4);
        return Some(v);
      }
      i := i + 1;
    }
    NotFound(line, i);
    return None;
  }

  lemma NotFound(line: seq<byte>, i: nat)
    requires i + 4 > |line|
    ensures FindFrom(line, TTL, i) == None
  {
    var r := FindFrom(line, TTL, i);
    assert r.Some? ==> OccursAt(line, TTL, r.value);
  }

  class Session {
    var snapValid: bool
    var snapT0: u64
    var snapEvw: nat
    var snapCrit: u64
    var snapReason: nat

    constructor ()
      ensures !snapValid && snapReason == 0
    {
      snapValid, snapT0, snapEvw, snapCrit, snapReason := false, 0, 0, 0, 0;
    }

    function Snap(): Snapshot
      reads this
    {
      Snapshot(snapValid, snapT0, snapEvw, snapCrit)
    }

    /** The snapshot part of `shm_write_req`. */
    method TakeSnapshot(now: u64, evw: nat)
      modifies this
      ensures Snap() == Snapshot(true, now, evw, CRIT_MASK) && snapReason == 0
    {
      snapT0 := now;
      snapEvw := evw;
      snapCrit := CRIT_MASK;
      snapValid := true;
      snapReason := 0;
    }

    method ClearSnapshot()
      modifies `snapValid, `snapReason
      ensures !snapValid && snapReason == 0
    {
      snapValid := false;
      snapReason := 0;
    }

    /** `wait_rsp` over the rounds that happen; the snapshot is used up by whatever ends the wait. */
    method WaitRsp(seqNo: u64, start: u64, polls: seq<Poll>) returns (r: Outcome)
      modifies `snapValid, `snapReason
      ensures r == Await(seqNo, old(Snap()), start, [], 0, polls)
      ensures r == Pending ==> snapValid == old(snapValid) && snapReason == old(snapReason)
      ensures r != Pending ==> !snapValid
      ensures snapReason == match r
                            case StaleEvent => 1
                            case StaleTtl => 2
                            case TimedOut => 0
                            case Accepted(_) => if old(snapValid) then 0 else old(snapReason)
                            case Pending => old(snapReason)
    {
      var line: seq<byte> := [];
      var spin: nat := 0;
      ghost var snap := Snap();
      for i := 0 to |polls|
        invariant Snap() == snap && snapReason == old(snapReason)
        invariant |line| <= LINE_ROOM
        invariant Await(seqNo, snap, start, [], 0, polls) == Await(seqNo, snap, start, line, spin, polls[i..])
      {
        var p := polls[i];
        assert polls[i..][0] == p && polls[i..][1..] == polls[i + 1..];
        if p.input.Some? {
          if p.input.value == NL {
            var ok := LineSeqOk(line, seqNo);
            if ok {
              r := Settle(line, p);
              return;
            }
            line := [];
            continue;
          }
          if |line| < LINE_ROOM {
            line := line + [p.input.value];
          }
        }
        spin := spin + 1;
        if spin > SPIN_MAX || (p.now - start) % WRAP > TIMEOUT {
          ClearSnapshot();
          return TimedOut;
        }
      }
      return Pending;
    }

    /** The consistency check on a line with the right number. */
    method Settle(line: seq<byte>, p: Poll) returns (r: Outcome)
      modifies `snapValid, `snapReason
      ensures r == Judge(line, old(Snap()), p) && !snapValid
      ensures snapReason == if r == StaleEvent then 1 else if r == StaleTtl then 2 else if old(snapValid) then 0 else old(snapReason)
    {
      if snapValid {
        var crit := DeltaCritical(p.log, snapEvw, snapCrit);
        var el := (p.now - snapT0) % WRAP;
        var declared := FindTtl(line);
        var ttl := declared.GetOr(WRAP - 1);
        if crit > 0 {
          ClearSnapshot();
          snapReason := 1;
          return StaleEvent;
        }
        if ttl != WRAP - 1 && el > ttl {
          ClearSnapshot();
          snapReason := 2;
          return StaleTtl;
        }
        ClearSnapshot();
      }
      return Accepted(line);
    }
  }
}
