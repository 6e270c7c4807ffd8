/** The perception channel on values: the unbounded event log, one subscription, and the stream it delivers. */
module EventLog {
  import opened Bytes

  const RING := 128
  const RECORD := 40

  datatype Event = Event(ts: u64, kind: byte, pid: u64, a: u64, b: u64)

  /** `mask & (1 << ((kind & 63) - 1)) != 0` in wrapping arithmetic: kind 0 falls on bit 63. */
  predicate Passes(mask: u64, kind: byte) {
    TestBit(mask, (kind % 64 + 63) % 64)
  }

  /** Everything ever logged, the read cursor, and the subscription mask. */
  datatype Channel = Channel(log: seq<Event>, cursor: nat, mask: u64)

  predicate Ok(s: Channel) {
    s.cursor <= |s.log| <= s.cursor + RING
  }

  function Push(s: Channel, e: Event): (r: Channel)
    requires Ok(s)
    ensures Ok(r)
  {
    var w := |s.log| + 1;
    Channel(s.log + [e], if w - s.cursor > RING then w - RING else s.cursor, s.mask)
  }

  function Subscribe(s: Channel, mask: u64): (r: Channel)
    ensures Ok(r)
  {
    Channel(s.log, |s.log|, mask)
  }

  /** What one read takes from position c on: the new cursor, the positions delivered, and the one it may drop. */
  datatype Taken = Taken(cursor: nat, out: seq<nat>, dropped: Option<nat>)

  function Take(log: seq<Event>, c: nat, mask: u64, room: nat): (t: Taken)
    requires c <= |log|
    decreases |log| - c
  {
    if c == |log| then Taken(c, [], None)
    else if !Passes(mask, log[c].kind) then Take(log, c + 1, mask, room)
    else if room == 0 then Taken(c + 1, [], Some(c))
    else
      var t := Take(log, c + 1, mask, room - 1);
      t.(out := [c] + t.out)
  }

  predicate Increasing(s: seq<nat>) {
    forall i, j | 0 <= i < j < |s| :: s[i] < s[j]
  }

  /** How many of the events from c on the mask lets through. */
  function Matching(log: seq<Event>, c: nat, mask: u64): (n: nat)
    requires c <= |log|
    ensures n <= |log| - c
    decreases |log| - c
  {
    if c == |log| then 0 else (if Passes(mask, log[c].kind) then 1 else 0) + Matching(log, c + 1, mask)
  }

  /** A read delivers matching positions in order, each once; only when more match than there is room is one lost. */
  lemma {:induction false} TakeMeaning(log: seq<Event>, c: nat, mask: u64, room: nat, t: Taken)
    requires c <= |log| && t == Take(log, c, mask, room)
    ensures c <= t.cursor <= |log|
    ensures Increasing(t.out) && forall i <- t.out :: c <= i < t.cursor && Passes(mask, log[i].kind)
    ensures forall i | c <= i < t.cursor && Passes(mask, log[i].kind) :: i in t.out || t.dropped == Some(i)
    ensures t.dropped.Some? ==> t.dropped.value !in t.out && c <= t.dropped.value && t.cursor == t.dropped.value + 1
    ensures t.dropped.Some? <==> Matching(log, c, mask) > room
    ensures t.dropped.None? ==> t.cursor == |log|
    ensures |t.out| == Min(room, Matching(log, c, mask))
    decreases |log| - c
  {
    if c < |log| {
      if !Passes(mask, log[c].kind) {
        TakeMeaning(log, c + 1, mask, room, t);
      } else if room > 0 {
        var u := Take(log, c + 1, mask, room - 1);
        TakeMeaning(log, c + 1, mask, room - 1, u);
        InFront(c, u.out, t.out);
      }
    }
  }

  lemma InFront(c: nat, u: seq<nat>, out: seq<nat>)
    requires out == [c] + u && Increasing(u) && forall i <- u :: c < i
    ensures Increasing(out) && c in out && (forall i <- out :: i == c || i in u) && forall i <- u :: i in out
  {
    assert out[0] == c;
    assert forall k | 1 <= k < |out| :: out[k] == u[k - 1] && out[k] in u;
    forall i | i in u
      ensures i in out
    {
      var k :| 0 <= k < |u| && u[k] == i;
      assert out[k + 1] == i;
    }
  }

  // ------------------------------------------------------------------ the delivered stream

  datatype Op = Log(e: Event) | Watch(mask: u64) | Fetch(room: nat)

  /** The channel with what has been delivered and dropped since the subscription, as log positions. */
  datatype Stream = Stream(ch: Channel, since: nat, out: seq<nat>, dropped: seq<nat>)

  function Step(s: Stream, op: Op): Stream
    requires Ok(s.ch)
  {
    match op
    case Log(e) => s.(ch := Push(s.ch, e))
    case Watch(mask) => Stream(Subscribe(s.ch, mask), |s.ch.log|, [], [])
    case Fetch(room) =>
      var t := Take(s.ch.log, s.ch.cursor, s.ch.mask, room);
      Stream(s.ch.(cursor := t.cursor), s.since, s.out + t.out, s.dropped + if t.dropped.Some? then [t.dropped.value] else [])
  }

  /** Position i was passed over without being delivered only because 128 newer events came, or a read dropped it. */
  predicate Accounted(s: Stream, i: nat)
    requires i < |s.ch.log|
  {
    Passes(s.ch.mask, s.ch.log[i].kind) ==> i in s.out || i + RING < |s.ch.log| || i in s.dropped
  }

  /** In order, without duplicates, matching, and complete but for what is accounted for. */
  predicate Faithful(s: Stream) {
    && Ok(s.ch) && s.since <= s.ch.cursor
    && Increasing(s.out)
    && (forall i <- s.out :: s.since <= i < s.ch.cursor && Passes(s.ch.mask, s.ch.log[i].kind) && i !in s.dropped)
    && (forall i <- s.dropped :: s.since <= i < s.ch.cursor)
    && (forall i | s.since <= i < s.ch.cursor :: Accounted(s, i))
  }

  lemma LogFaithful(s: Stream, e: Event)
    requires Faithful(s)
    ensures Faithful(Step(s, Log(e)))
  {
    var r := Step(s, Log(e));
    forall i | r.since <= i < r.ch.cursor
      ensures Accounted(r, i)
    {
      assert r.ch.log[i] == s.ch.log[i];
      if i < s.ch.cursor {
        assert Accounted(s, i);
      }
    }
  }

  lemma FetchFaithful(s: Stream, room: nat)
    requires Faithful(s)
    ensures Faithful(Step(s, Fetch(room)))
    ensures room >= RING ==> Step(s, Fetch(room)).dropped == s.dropped
  {
    var r := Step(s, Fetch(room));
    var t := Take(s.ch.log, s.ch.cursor, s.ch.mask, room);
    TakeMeaning(s.ch.log, s.ch.cursor, s.ch.mask, room, t);
    Follows(s.out, t.out, s.ch.cursor, r.out);
    var d := if t.dropped.Some? then [t.dropped.value] else [];
    assert forall i <- r.dropped :: i in s.dropped || t.dropped == Some(i);
    assert forall i <- s.dropped :: i in r.dropped;
    assert t.dropped.Some? ==> d[0] in r.dropped;
    forall i | r.since <= i < r.ch.cursor
      ensures Accounted(r, i)
    {
      if i < s.ch.cursor {
        assert Accounted(s, i);
      }
    }
  }

  lemma Follows(a: seq<nat>, b: seq<nat>, m: nat, c: seq<nat>)
    requires Increasing(a) && Increasing(b) && c == a + b
    requires (forall i <- a :: i < m) && forall i <- b :: m <= i
    ensures Increasing(c) && (forall i <- c :: i in a || i in b) && (forall i <- a :: i in c) && forall i <- b :: i in c
  {
    assert forall k | 0 <= k < |a| :: c[k] == a[k] && c[k] in a;
    assert forall k | |a| <= k < |c| :: c[k] == b[k - |a|] && c[k] in b;
    forall i | i in b
      ensures i in c
    {
      var k :| 0 <= k < |b| && b[k] == i;
      assert c[|a| + k] == i;
    }
  }

  lemma StepFaithful(s: Stream, op: Op)
    requires Faithful(s)
    ensures Faithful(Step(s, op))
    ensures (op.Fetch? ==> op.room >= RING) ==> Step(s, op).dropped == s.dropped || Step(s, op).dropped == []
  {
    match op
    case Log(e) => LogFaithful(s, e);
    case Watch(mask) =>
    case Fetch(room) => FetchFaithful(s, room);
  }

  function Run(s: Stream, ops: seq<Op>): (r: Stream)
    requires Faithful(s)
    ensures Faithful(r)
    decreases |ops|
  {
    if ops == [] then s
    else
      StepFaithful(s, ops[0]);
      Run(Step(s, ops[0]), ops[1..])
  }

  /** With buffers of at least 128 records, nothing is missed but events more than 128 behind. */
  lemma {:induction false} RunComplete(s: Stream, ops: seq<Op>)
    requires Faithful(s) && s.dropped == []
    requires forall op <- ops :: op.Fetch? ==> op.room >= RING
    ensures var r := Run(s, ops);
            && Increasing(r.out) && r.dropped == []
            && (forall i <- r.out :: r.since <= i < r.ch.cursor && Passes(r.ch.mask, r.ch.log[i].kind))
            && (forall i | r.since <= i < r.ch.cursor && Passes(r.ch.mask, r.ch.log[i].kind) :: i in r.out || i + RING < |r.ch.log|)
    decreases |ops|
  {
    if ops == [] {
      forall i | s.since <= i < s.ch.cursor && Passes(s.ch.mask, s.ch.log[i].kind)
        ensures i in s.out || i + RING < |s.ch.log|
      {
        assert Accounted(s, i);
      }
    } else {
      assert ops[0] in ops;
      StepFaithful(s, ops[0]);
      RunComplete(Step(s, ops[0]), ops[1..]);
    }
  }

  /** A mask admits kind k, from 1 to 64, by its bit k - 1, and kind 0 by bit 63; the two top bits of a kind are ignored. */
  lemma {:induction false} MaskAdmits(mask: u64, kind: byte)
    ensures Passes(mask, kind) <==> mask / Pow2((kind as int + 63) % 64) % 2 == 1
  {
    assert (kind % 64 + 63) % 64 == (kind as int + 63) % 64;
    BitValue(mask, (kind as int + 63) % 64);
  }

  /** A subscription delivers what is logged from then on and its mask admits, and nothing older. */
  lemma SubscribeMeans(s: Channel, mask: u64, later: seq<Event>, room: nat)
    requires |later| <= 128 <= room
    ensures Subscribe(s, mask) == Channel(s.log, |s.log|, mask)
    ensures var t := Take(s.log + later, |s.log|, mask, room);
            forall i: nat :: i in t.out <==> |s.log| <= i < |s.log| + |later| && Passes(mask, later[i - |s.log|].kind)
  {
    var log := s.log + later;
    var t := Take(log, |s.log|, mask, room);
    TakeMeaning(log, |s.log|, mask, room, t);
    assert forall i | |s.log| <= i < |log| :: log[i] == later[i - |s.log|];
    assert Matching(log, |s.log|, mask) <= |log| - |s.log| <= 128;
  }

  // ------------------------------------------------------------------ critical events since a snapshot

  /** The kernel's test of a kind against a mask of critical kinds. */
  predicate Critical(mask: u64, kind: byte) {
    1 <= kind <= 64 && TestBit(mask, kind - 1)
  }

  function CountCritical(log: seq<Event>, from: nat, mask: u64): (n: nat)
    requires from <= |log|
    ensures n == 0 <==> forall i | from <= i < |log| :: !Critical(mask, log[i].kind)
    decreases |log| - from
  {
    if from == |log| then 0
    else (if Critical(mask, log[from].kind) then 1 else 0) + CountCritical(log, from + 1, mask)
  }

  /** `ev_delta_critical`: the events since `from`, as far back as the ring remembers. */
  function DeltaCritical(log: seq<Event>, from: nat, mask: u64): nat {
    if |log| <= from then 0
    else CountCritical(log, if |log| - from > RING then |log| - RING else from, mask)
  }

  /** A mask names kind k, from 1 to 64, as critical by its bit k - 1. */
  lemma CriticalIff(mask: u64, kind: byte)
    ensures Critical(mask, kind) <==> 1 <= kind <= 64 && mask / Pow2(kind - 1) % 2 == 1
  {
    if 1 <= kind <= 64 {
      BitValue(mask, kind - 1);
    }
  }

  /** The critical events from position `from` on. */
  function CriticalSince(log: seq<Event>, from: nat, mask: u64): set<nat> {
    set i: nat | from <= i < |log| && Critical(mask, log[i].kind)
  }

  lemma {:induction false} CountMeans(log: seq<Event>, from: nat, mask: u64)
    requires from <= |log|
    ensures CountCritical(log, from, mask) == |CriticalSince(log, from, mask)|
    decreases |log| - from
  {
    if from < |log| {
      CountMeans(log, from + 1, mask);
      if Critical(mask, log[from].kind) {
        assert CriticalSince(log, from, mask) == CriticalSince(log, from + 1, mask) + {from};
      } else {
        assert CriticalSince(log, from, mask) == CriticalSince(log, from + 1, mask);
      }
    }
  }

  /** What is counted are the critical events from `from` on that are among the newest 128. */
  lemma DeltaCounts(log: seq<Event>, from: nat, mask: u64)
    ensures DeltaCritical(log, from, mask)
         == |CriticalSince(log, if |log| <= from + 128 then from else |log| - 128, mask)|
  {
    if |log| <= from {
      assert CriticalSince(log, from, mask) == {};
    } else {
      CountMeans(log, if |log| - from > RING then |log| - RING else from, mask);
    }
  }

  /** While at most 128 events followed the snapshot, zero means that none of them was critical. */
  lemma DeltaExact(log: seq<Event>, from: nat, mask: u64)
    requires |log| <= from + RING
    ensures DeltaCritical(log, from, mask) == 0 <==> forall i | from <= i < |log| :: !Critical(mask, log[i].kind)
  {
  }

  /** In general zero says so exactly of the newest 128. */
  lemma DeltaIff(log: seq<Event>, from: nat, mask: u64)
    ensures DeltaCritical(log, from, mask) == 0 <==>
            forall i | from <= i < |log| && i + RING >= |log| :: !Critical(mask, log[i].kind)
  {
  }
}
