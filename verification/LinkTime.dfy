/** When the wait for a reply ends, and with what, told on the rounds of the wait alone. */
module LinkTime {
  import opened Bytes
  import opened Text
  import opened EventLog
  import opened Link

  /** How many of the rounds end no line. */
  function Spins(polls: seq<Poll>): (n: nat)
    ensures n <= |polls|
  {
    if polls == [] then 0
    else Spins(polls[..|polls| - 1]) + if polls[|polls| - 1].input == Some(10) then 0 else 1
  }

  /** Round k ends no line, and is more than 600 ticks after the start or the 120,000,001st of its kind (s of them
      happened before). */
  predicate Expires(start: u64, s: nat, polls: seq<Poll>, k: nat)
    requires k < |polls|
  {
    && polls[k].input != Some(10)
    && ((polls[k].now - start) % 0x1_0000_0000_0000_0000 > 600 || s + Spins(polls[..k + 1]) > 120_000_000)
  }

  /** Round k ends the wait: it answers the request or runs out of time. */
  predicate Ends(seqNo: u64, start: u64, line: seq<byte>, s: nat, polls: seq<Poll>, k: nat)
    requires k < |polls|
  {
    Answers(seqNo, line, polls, k) || Expires(start, s, polls, k)
  }

  lemma SpinsFirst(polls: seq<Poll>)
    requires polls != []
    ensures Spins(polls) == (if polls[0].input == Some(10) then 0 else 1) + Spins(polls[1..])
  {
    if |polls| == 1 {
      assert polls[1..] == [] && polls[..0] == [];
    } else {
      SpinsFirst(polls[..|polls| - 1]);
      assert polls[..|polls| - 1][1..] == polls[1..][..|polls| - 2];
    }
  }

  /** One round later: the same questions about the rest. */
  lemma Shifted(seqNo: u64, start: u64, line: seq<byte>, s: nat, polls: seq<Poll>, k: nat)
    requires polls != [] && k < |polls| - 1
    ensures var next, s' := Extend(line, polls[0].input), if polls[0].input == Some(NL) then s else s + 1;
            && (Answers(seqNo, line, polls, k + 1) <==> Answers(seqNo, next, polls[1..], k))
            && (Expires(start, s, polls, k + 1) <==> Expires(start, s', polls[1..], k))
            && Current(line, polls[..k + 1]) == Current(next, polls[1..][..k])
  {
    assert polls[..k + 1][1..] == polls[1..][..k];
    SpinsFirst(polls[..k + 2]);
    assert polls[..k + 2][1..] == polls[1..][..k + 1];
  }

  /** The outcome of the wait: decided by the first round that ends it. */
  lemma {:induction false} FirstEndDecides(seqNo: u64, snap: Snapshot, start: u64, line: seq<byte>, s: nat, polls: seq<Poll>, k: nat)
    requires k <= |polls| && forall j: nat | j < k :: !Ends(seqNo, start, line, s, polls, j)
    ensures k == |polls| ==> Await(seqNo, snap, start, line, s, polls) == Pending
    ensures k < |polls| && Expires(start, s, polls, k) ==> Await(seqNo, snap, start, line, s, polls) == TimedOut
    ensures k < |polls| && Answers(seqNo, line, polls, k) ==>
              Await(seqNo, snap, start, line, s, polls) == Judge(Current(line, polls[..k]), snap, polls[k])
    decreases |polls|
  {
    if polls != [] {
      SpinsFirst(polls[..1]);
      assert polls[..1][1..] == [] && polls[..0] == [];
      if k > 0 {
        assert !Ends(seqNo, start, line, s, polls, 0);
        var next, s' := Extend(line, polls[0].input), if polls[0].input == Some(NL) then s else s + 1;
        forall j: nat | j < |polls| - 1
          ensures Ends(seqNo, start, next, s', polls[1..], j) <==> Ends(seqNo, start, line, s, polls, j + 1)
        {
          Shifted(seqNo, start, line, s, polls, j);
        }
        if k < |polls| {
          Shifted(seqNo, start, line, s, polls, k - 1);
        }
        FirstEndDecides(seqNo, snap, start, next, s', polls[1..], k - 1);
      }
    }
  }

  /** The first round that ends the wait, or the number of rounds. */
  function FirstEnd(seqNo: u64, start: u64, polls: seq<Poll>, k: nat): (r: nat)
    requires k <= |polls|
    ensures k <= r <= |polls| && (r < |polls| ==> Ends(seqNo, start, [], 0, polls, r))
    ensures forall j: nat | k <= j < r :: !Ends(seqNo, start, [], 0, polls, j)
    decreases |polls| - k
  {
    if k == |polls| || Ends(seqNo, start, [], 0, polls, k) then k else FirstEnd(seqNo, start, polls, k + 1)
  }

  /** The wait gives up exactly when a round runs out of time with no answer before it. */
  lemma TimedOutIff(seqNo: u64, snap: Snapshot, start: u64, polls: seq<Poll>)
    ensures Await(seqNo, snap, start, [], 0, polls) == TimedOut <==>
            exists k: nat :: k < |polls| && Expires(start, 0, polls, k) && forall j: nat | j < k :: !Answers(seqNo, [], polls, j)
  {
    var e := FirstEnd(seqNo, start, polls, 0);
    FirstEndDecides(seqNo, snap, start, [], 0, polls, e);
    if e < |polls| && Expires(start, 0, polls, e) {
      forall j: nat | j < e
        ensures !Answers(seqNo, [], polls, j)
      {
        assert !Ends(seqNo, start, [], 0, polls, j);
      }
    } else {
      forall k: nat | k < |polls| && Expires(start, 0, polls, k)
        ensures exists j: nat :: j < k && Answers(seqNo, [], polls, j)
      {
        assert Ends(seqNo, start, [], 0, polls, k);
        assert e < k && Answers(seqNo, [], polls, e);
      }
    }
  }

  /** It goes on exactly as long as no round has answered or run out of time. */
  lemma PendingIff(seqNo: u64, snap: Snapshot, start: u64, polls: seq<Poll>)
    ensures Await(seqNo, snap, start, [], 0, polls) == Pending <==>
            forall k: nat | k < |polls| :: !Answers(seqNo, [], polls, k) && !Expires(start, 0, polls, k)
  {
    var e := FirstEnd(seqNo, start, polls, 0);
    FirstEndDecides(seqNo, snap, start, [], 0, polls, e);
    if e < |polls| {
      assert Ends(seqNo, start, [], 0, polls, e);
    } else {
      forall k: nat | k < |polls|
        ensures !Answers(seqNo, [], polls, k) && !Expires(start, 0, polls, k)
      {
        assert !Ends(seqNo, start, [], 0, polls, k);
      }
    }
  }

  // ------------------------------------------------------------------ a reply in time

  /** The bytes that arrive in some rounds. */
  function Typed(polls: seq<Poll>): seq<byte> {
    if polls == [] then []
    else Typed(polls[..|polls| - 1]) + Byte(polls[|polls| - 1])
  }

  function Byte(p: Poll): (s: seq<byte>)
    ensures |s| <= 1
  {
    if p.input.Some? then [p.input.value] else []
  }

  /** Without a newline the line begun grows by what arrives, up to 94 bytes. */
  lemma {:induction false} LineOf(line: seq<byte>, polls: seq<Poll>)
    requires |line| <= 94 && forall p <- polls :: p.input != Some(10)
    ensures Current(line, polls) == (line + Typed(polls))[..Min(94, |line + Typed(polls)|)]
    decreases |polls|
  {
    if polls != [] {
      var next := Extend(line, polls[0].input);
      assert polls[0] in polls;
      TypedFirst(polls);
      LineOf(next, polls[1..]);
      Grown(line, Byte(polls[0]), Typed(polls[1..]), Typed(polls), next);
    }
  }

  lemma Grown(line: seq<byte>, b: seq<byte>, rest: seq<byte>, all: seq<byte>, next: seq<byte>)
    requires |line| <= 94 && |b| <= 1 && all == b + rest && next == if |line| < 94 then line + b else line
    ensures (next + rest)[..Min(94, |next + rest|)] == (line + all)[..Min(94, |line + all|)]
  {
  }

  lemma {:induction false} TypedFirst(polls: seq<Poll>)
    requires polls != []
    ensures Typed(polls) == Byte(polls[0]) + Typed(polls[1..])
  {
    if |polls| == 1 {
      assert polls[1..] == [] && polls[..0] == [];
    } else {
      var front, rest := polls[..|polls| - 1], polls[1..];
      TypedFirst(front);
      assert front[1..] == rest[..|rest| - 1];
      Regroup(Byte(front[0]), Typed(front[1..]), Byte(polls[|polls| - 1]));
    }
  }

  lemma Regroup(a: seq<byte>, b: seq<byte>, c: seq<byte>)
    ensures (a + b) + c == a + (b + c)
  {
  }

  /** The rounds are all within 600 ticks of the start, and fewer than the wait allows. */
  predicate InTime(start: u64, polls: seq<Poll>) {
    |polls| <= 120_000_000 && forall p <- polls :: (p.now - start) % 0x1_0000_0000_0000_0000 <= 600
  }

  /** A line "FJAI:RSP n ..." of up to 94 bytes, typed in time, is judged as it was typed. */
  lemma TimelyReply(snap: Snapshot, start: u64, typing: seq<Poll>, last: Poll, line: seq<byte>, n: nat, rest: seq<byte>)
    requires InTime(start, typing) && (forall p <- typing :: p.input != Some(10)) && last.input == Some(10)
    requires Typed(typing) == line && |line| <= 94
    requires line == [0x46, 0x4A, 0x41, 0x49, 0x3A, 0x52, 0x53, 0x50, 0x20] + Dec(n) + rest && !StartsWithDigit(rest)
    ensures Await(n % 0x1_0000_0000_0000_0000, snap, start, [], 0, typing + [last]) == Judge(line, snap, last)
  {
    var polls, k, seqNo := typing + [last], |typing|, n % 0x1_0000_0000_0000_0000;
    assert polls[..k] == typing;
    LineOf([], typing);
    assert [] + line == line && line[..|line|] == line;
    Numbered(line, n, rest);
    assert Answers(seqNo, [], polls, k);
    NothingEnds(seqNo, start, typing, polls);
    FirstEndDecides(seqNo, snap, start, [], 0, polls, k);
  }

  lemma NothingEnds(seqNo: u64, start: u64, typing: seq<Poll>, polls: seq<Poll>)
    requires typing <= polls && InTime(start, typing) && forall p <- typing :: p.input != Some(10)
    ensures forall j: nat | j < |typing| :: !Ends(seqNo, start, [], 0, polls, j)
  {
    forall j: nat | j < |typing|
      ensures !Ends(seqNo, start, [], 0, polls, j)
    {
      assert polls[j] == typing[j] && typing[j] in typing;
    }
  }

  lemma Numbered(line: seq<byte>, n: nat, rest: seq<byte>)
    requires line == [0x46, 0x4A, 0x41, 0x49, 0x3A, 0x52, 0x53, 0x50, 0x20] + Dec(n) + rest && !StartsWithDigit(rest)
    ensures SeqOk(line, n % 0x1_0000_0000_0000_0000)
  {
    assert line[0..9] == RSP;
    assert line[9..] == Dec(n) + rest;
    DecimalBehind(line, 9, n, rest);
  }

  /** The lifetime that a line declares: the number behind the first "TTL=". */
  lemma Lifetime(line: seq<byte>, pre: seq<byte>, n: nat, rest: seq<byte>)
    requires line == pre + [0x54, 0x54, 0x4C, 0x3D] + Dec(n) + rest && !StartsWithDigit(rest)
    requires forall i: nat | i < |pre| :: !OccursAt(line, [0x54, 0x54, 0x4C, 0x3D], i)
    ensures ParseTtl(line) == Some(n % 0x1_0000_0000_0000_0000)
  {
    Behind(line, pre, TTL, Dec(n), rest);
    FoundFirst(line, TTL, |pre|);
    DecimalBehind(line, |pre| + 4, n, rest);
  }

  lemma Behind(line: seq<byte>, pre: seq<byte>, mark: seq<byte>, digits: seq<byte>, rest: seq<byte>)
    requires line == pre + mark + digits + rest
    ensures OccursAt(line, mark, |pre|) && line[|pre| + |mark|..] == digits + rest
  {
  }

  /** Why a matching line is refused: a critical event among the newest 128 comes first, then the lifetime; without a
      snapshot nothing is refused. */
  lemma RefusalIff(line: seq<byte>, snap: Snapshot, p: Poll)
    requires snap.crit == 0x1C
    ensures var critical := exists i :: snap.evw <= i < |p.log| && i + 128 >= |p.log| && p.log[i].kind in {3, 4, 5};
            var late := ParseTtl(line) !in {None, Some(0xFFFF_FFFF_FFFF_FFFF)}
                        && (p.now - snap.t0) % 0x1_0000_0000_0000_0000 > ParseTtl(line).value;
            Judge(line, snap, p) == if snap.valid && critical then StaleEvent
                                    else if snap.valid && late then StaleTtl
                                    else Accepted(line)
  {
    DeltaIff(p.log, snap.evw, snap.crit);
    forall i | snap.evw <= i < |p.log|
      ensures Critical(0x1C, p.log[i].kind) <==> p.log[i].kind in {3, 4, 5}
    {
      CriticalKinds(p.log[i].kind);
    }
  }
}
