/**
 The BOX-BRIDGE code itself: the kernel's receive loop, gate and provider slot, and the host's sending
 loop. The loops are proved against the protocol on values; the slot keeps counters, audit records and
 the last product that passed.
 */
module Box {
  import opened Bytes
  import opened Text
  import opened BoxProtocol
  import BoxProofs

  // ------------------------------------------------------------------ line helpers

  /** `tok`: the k-th word of a line. */
  method FindWord(line: seq<byte>, k: nat) returns (r: Option<Span>)
    ensures r == Tok(line, k)
  {
    var i: nat := 0;
    var cur: nat := 0;
    while i < |line|
      invariant i <= |line| && cur <= k && Tok(line, k) == TokFrom(line, i, k - cur)
      decreases |line| - i
    {
      ghost var from := i;
      while i < |line| && IsBlank(line[i])
        invariant from <= i <= |line| && SkipBlanks(line, from) == SkipBlanks(line, i)
      {
        i := i + 1;
      }
      if i >= |line| {
        break;
      }
      var s := i;
      while i < |line| && !IsBlank(line[i])
        invariant s <= i <= |line| && WordEnd(line, s) == WordEnd(line, i) && (i == s ==> !IsBlank(line[s]))
      {
        i := i + 1;
      }
      if cur == k {
        return Some(Span(s, i - s));
      }
      cur := cur + 1;
    }
    return None;
  }

  /** `parse_num` */
  method ParseDigits(t: seq<byte>) returns (r: Option<u64>)
    ensures r == ParseNum(t)
  {
    if t == [] {
      return None;
    }
    var v: u64 := 0;
    for i := 0 to |t|
      invariant ParseNum(t) == ParseFrom(t, i, v)
    {
      if t[i] < 0x30 || t[i] > 0x39 {
        return None;
      }
      if v * 10 >= WRAP || v * 10 + (t[i] - 0x30) >= WRAP {
        return None;
      }
      v := v * 10 + (t[i] - 0x30);
    }
    return Some(v);
  }

  method IsPrintable(d: seq<byte>) returns (ok: bool)
    ensures ok == AsciiOk(d)
  {
    for i := 0 to |d|
      invariant forall c <- d[..i] :: (c >= 0x20 || c == 10 || c == 13 || c == 9) && c <= 0x7E
    {
      if (d[i] < 0x20 && d[i] != 10 && d[i] != 13 && d[i] != 9) || d[i] > 0x7E {
        assert d[i] in d;
        return false;
      }
      assert d[..i + 1] == d[..i] + [d[i]];
    }
    assert d[..|d|] == d;
    return true;
  }

  /** `contains_sub` for a nonempty pattern. */
  method FindPattern(d: seq<byte>, pat: seq<byte>) returns (found: bool)
    requires pat != []
    ensures found == Contains(d, pat)
  {
    if |d| < |pat| {
      return false;
    }
    for i := 0 to |d| - |pat| + 1
      invariant forall j: nat | j < i :: !OccursAt(d, pat, j)
    {
      if d[i..i + |pat|] == pat {
        assert OccursAt(d, pat, i);
        return true;
      }
    }
    return false;
  }

  /** The hexadecimal decoding of one block: the loop stops at the first character that is no digit. */
  method DecodeBlock(d: seq<byte>, n: nat) returns (r: Option<seq<byte>>)
    requires n * 2 == |d|
    ensures r == UnHex(d)
  {
    var block: seq<byte> := [];
    assert d[0..] == d;
    JoinedUnit(block, UnHex(d));
    for i := 0 to n
      invariant UnHex(d) == Joined(block, UnHex(d[i * 2..]))
    {
      var hi := HexV(d[i * 2]);
      var lo := HexV(d[i * 2 + 1]);
      UnHexStep(d, i);
      if hi.None? || lo.None? {
        return None;
      }
      JoinedAssoc(block, [hi.value * 16 + lo.value], UnHex(d[(i + 1) * 2..]));
      block := block + [hi.value * 16 + lo.value];
    }
    assert UnHex(d[n * 2..]) == Some([]);
    JoinedUnit(block, UnHex(d));
    return Some(block);
  }

  function Joined(a: seq<byte>, b: Option<seq<byte>>): Option<seq<byte>> {
    if b.None? then None else Some(a + b.value)
  }

  lemma JoinedUnit(a: seq<byte>, b: Option<seq<byte>>)
    ensures Joined(a, Some([])) == Some(a) && Joined([], b) == b
  {
    assert a + [] == a;
    if b.Some? {
      assert [] + b.value == b.value;
    }
  }

  lemma JoinedAssoc(a: seq<byte>, b: seq<byte>, c: Option<seq<byte>>)
    ensures Joined(a, Joined(b, c)) == Joined(a + b, c)
  {
    if c.Some? {
      Assoc(a, b, c.value);
    }
  }

  lemma UnHexStep(d: seq<byte>, i: nat)
    requires |d| % 2 == 0 && i * 2 + 2 <= |d|
    ensures var hi, lo := HexV(d[i * 2]), HexV(d[i * 2 + 1]);
            UnHex(d[i * 2..]) == if hi.Some? && lo.Some?
                                 then Joined([hi.value * 16 + lo.value], UnHex(d[(i + 1) * 2..]))
                                 else None
  {
    assert d[i * 2..][2..] == d[(i + 1) * 2..];
  }

  // ------------------------------------------------------------------ the host

  /** The sending loop of `serve_transport`. */
  method Serve(seqNo: nat, prod: seq<byte>) returns (wire: seq<byte>)
    ensures wire == Sent(seqNo, prod)
  {
    wire := RSP + Dec(seqNo) + [BLANK, 0x31] + [NL];
    var off: nat := 0;
    while off < |prod|
      invariant off <= |prod| && wire + Tail(seqNo, prod, off) == Sent(seqNo, prod)
    {
      var chunk := prod[off..Min(off + DATA_MAX, |prod|)];
      var line := DATA + Dec(seqNo) + [BLANK] + Dec(off) + [BLANK] + Dec(|chunk|) + [BLANK] + HexOf(chunk) + [NL];
      Assoc(wire, DataLine(seqNo, off, chunk) + [NL], Tail(seqNo, prod, off + |chunk|));
      wire := wire + line;
      off := off + |chunk|;
    }
    wire := wire + (END + Dec(seqNo) + [NL]);
  }

  lemma Assoc(a: seq<byte>, b: seq<byte>, c: seq<byte>)
    ensures a + (b + c) == (a + b) + c
  {
  }

  // ------------------------------------------------------------------ the kernel

  datatype Audit = Audit(action: nat, subject: nat, result: nat)

  datatype Grade = Grade(duty: nat, ok: bool)

  /** The audit records of one session with verdict rc. */
  function AuditsOf(verb: nat, rc: int): seq<Audit> {
    if rc == -4 then [Audit(9, verb, 1)]
    else if rc == -2 then [Audit(10, verb, 1)]
    else if rc == -3 then [Audit(10, verb, 2)]
    else [Audit(10, verb, 0), Audit(9, verb, 0)]
  }

  /** The quality records: duty 7 is delivery, duty 8 the schema. */
  function FeedsOf(rc: int): seq<Grade> {
    if rc == -4 || rc == -2 then [Grade(7, false)]
    else if rc == -3 then [Grade(7, true), Grade(8, false)]
    else [Grade(7, true), Grade(8, true)]
  }

  /** What the records of a session say: delivery is graded on every session, good when the product got past the gate; the
      schema is graded only then, good when it held; the product's fate is audited unless the time ran out, and the call
      itself when the time ran out or it succeeded. */
  lemma RecordsMean(verb: nat, rc: int)
    requires rc in {0, -2, -3, -4}
    ensures forall ok: bool :: Grade(7, ok) in FeedsOf(rc) <==> ok == (rc in {0, -3})
    ensures forall ok: bool :: Grade(8, ok) in FeedsOf(rc) <==> rc in {0, -3} && ok == (rc == 0)
    ensures |FeedsOf(rc)| == if rc in {0, -3} then 2 else 1
    ensures forall r: nat :: Audit(10, verb, r) in AuditsOf(verb, rc) <==>
              (rc == 0 && r == 0) || (rc == -2 && r == 1) || (rc == -3 && r == 2)
    ensures forall r: nat :: Audit(9, verb, r) in AuditsOf(verb, rc) <==> (rc == 0 && r == 0) || (rc == -4 && r == 1)
    ensures |AuditsOf(verb, rc)| == if rc == 0 then 2 else 1
  {
  }

  class Bridge {
    const buf: array<byte>
    const arg: array<byte>
    var bufN: nat
    var argN: nat
    var seqNo: u64
    var up: bool
    var hit: nat
    var total: nat
    var schema: nat
    var lastRc: int
    var audits: seq<Audit>
    var feeds: seq<Grade>
    ghost var verbOf: nat

    /** The counters agree, and what can be read back has passed the gate of the last session's verb. */
    ghost predicate Valid()
      reads this, buf, arg
    {
      && buf.Length == BUF_MAX && arg.Length == ARG_MAX + 1 && buf != arg
      && bufN <= BUF_MAX && argN <= ARG_MAX
      && hit == schema <= total
      && BoxProofs.Gated(verbOf, buf[..bufN])
    }

    ghost function Contents(): seq<byte>
      reads this, buf
      requires bufN <= buf.Length
    {
      buf[..bufN]
    }

    constructor ()
      ensures Valid() && fresh(buf) && fresh(arg)
      ensures bufN == 0 && total == 0 && hit == 0 && audits == [] && feeds == [] && !up
    {
      buf := new byte[BUF_MAX];
      arg := new byte[ARG_MAX + 1];
      bufN, argN, seqNo, up := 0, 0, 0, false;
      hit, total, schema, lastRc := 0, 0, 0, 0;
      audits, feeds := [], [];
      verbOf := 0;
    }

    /** `schema_ok` on the received product. */
    method CheckSchema(verb: nat) returns (ok: bool)
      requires bufN <= buf.Length && argN <= arg.Length
      ensures ok == SchemaOk(verb, buf[..bufN], arg[..argN])
    {
      var d := buf[..bufN];
      if verb == VERB_HASH {
        return |d| == 64 && forall i | 0 <= i < |d| :: HexV(d[i]).Some?;
      } else if verb == VERB_INFO {
        return |d| >= 4;
      } else if verb == VERB_SIZE {
        return |d| <= 20 && |d| > 0 && forall i | 0 <= i < |d| :: 0x30 <= d[i] <= 0x39;
      } else if verb == VERB_ECHO {
        return |d| == argN && d == arg[..argN];
      } else if verb == VERB_PDF {
        if |d| < 8 || d[..5] != [0x25, 0x50, 0x44, 0x46, 0x2D] {
          return false;
        }
        ok := FindPattern(d, [0x25, 0x25, 0x45, 0x4F, 0x46]);
      } else if verb == VERB_FB {
        return |d| == FB_LEN && d[0] == 0x42 && d[1] == 0x4D
            && FromLE(d[0x02..0x06]) == FB_LEN && FromLE(d[0x0A..0x0E]) == 54
            && FromLE(d[0x12..0x16]) == 32 && FromLE(d[0x16..0x1A]) == 24 && FromLE(d[0x1C..0x1E]) == 24;
      } else {
        return false;
      }
    }

    /** A DATA line with its five words found: the block goes into the buffer or the session is spoilt. */
    method TakeData(verb: nat, l: seq<byte>, k: Span, k2: Span, k3: Span, ghost rx: Rx) returns (spoilt: bool)
      requires bufN <= buf.Length == BUF_MAX && rx.buf == buf[..bufN]
      requires Tok(l, 2) == Some(k) && Tok(l, 3) == Some(k2) && Tok(l, 4) == Some(k3)
      modifies buf, `bufN
      ensures bufN <= BUF_MAX && buf[..bufN] == Accept(rx, Payload(verb, l)).buf
      ensures Accept(rx, Payload(verb, l)).bad == (rx.bad || spoilt)
    {
      var offWord := ParseDigits(Slice(l, k));
      var nWord := ParseDigits(Slice(l, k2));
      var off := offWord.GetOr(WRAP - 1);
      var n: nat := nWord.GetOr(0);
      var d := l[k3.start..];
      ghost var c := Payload(verb, l);
      if off == bufN && n <= DATA_MAX && n * 2 == |d| && bufN + n <= BUF_MAX {
        var block := DecodeBlock(d, n);
        var ok := false;
        if block.Some? {
          var printable := IsPrintable(block.value);
          ok := (verb == VERB_FB || printable) && !ExecMagic(block.value);
        }
        assert c == if ok then Some(Chunk(off, block.value)) else None;
        if ok {
          StoreBlock(block.value);
          spoilt := false;
        } else {
          spoilt := true;
        }
      } else {
        spoilt := true;
      }
    }

    method StoreBlock(block: seq<byte>)
      requires bufN + |block| <= buf.Length
      modifies buf, `bufN
      ensures bufN == old(bufN) + |block| && buf[..bufN] == old(buf[..bufN]) + block
    {
      for i := 0 to |block|
        invariant bufN == old(bufN) && buf[..bufN] == old(buf[..bufN]) && buf[bufN..bufN + i] == block[..i]
      {
        buf[bufN + i] := block[i];
      }
      bufN := bufN + |block|;
      assert buf[..bufN] == old(buf[..bufN]) + block[..|block|];
    }

    /** One complete line; `was` is the provider's mark from before the session. */
    method TakeLine(verb: nat, l: seq<byte>, ghost rx: Rx, ghost was: bool) returns (spoilt: bool, done: bool)
      requires bufN <= buf.Length == BUF_MAX && rx.buf == buf[..bufN] && !rx.done && up == (was || rx.up)
      modifies buf, `bufN, `up
      ensures bufN <= BUF_MAX && buf[..bufN] == LineStep(rx, verb, l).buf && up == (was || LineStep(rx, verb, l).up)
      ensures LineStep(rx, verb, l).bad == (rx.bad || spoilt) && LineStep(rx, verb, l).done == done
    {
      spoilt, done := false, false;
      if HasPrefix(l, RSP) {
        var k := FindWord(l, 2);
        if k.Some? {
          var st := ParseDigits(Slice(l, k.value));
          if st.GetOr(0) == 1 {
            up := true;
          }
        }
      } else if HasPrefix(l, DATA) {
        spoilt := TakeDataLine(verb, l, rx);
      } else if HasPrefix(l, END) {
        done := true;
      }
    }

    /** A DATA line; with fewer than five words it is passed over. */
    method TakeDataLine(verb: nat, l: seq<byte>, ghost rx: Rx) returns (spoilt: bool)
      requires bufN <= buf.Length == BUF_MAX && rx.buf == buf[..bufN]
      modifies buf, `bufN
      ensures bufN <= BUF_MAX
      ensures var next := if Tok(l, 4).Some? then Accept(rx, Payload(verb, l)) else rx;
              buf[..bufN] == next.buf && next.bad == (rx.bad || spoilt)
    {
      spoilt := false;
      ghost var five := Tok(l, 4).Some?;
      if five {
        TokFewer(l, 0, 2, 4);
        TokFewer(l, 0, 3, 4);
      }
      var k := FindWord(l, 2);
      if k.Some? {
        var k2 := FindWord(l, 3);
        if k2.Some? {
          var k3 := FindWord(l, 4);
          if k3.Some? {
            spoilt := TakeData(verb, l, k.value, k2.value, k3.value, rx);
          }
        }
      }
    }

    /** The receive loop over the bytes that arrive before the time limit. */
    method Await(verb: nat, arrivals: seq<byte>) returns (gateBad: bool, done: bool)
      requires buf.Length == BUF_MAX && bufN == 0
      modifies buf, `bufN, `up
      ensures var r := Receive(verb, arrivals);
              && bufN <= BUF_MAX && buf[..bufN] == r.buf && gateBad == r.bad && done == r.done && up == (old(up) || r.up)
    {
      var line := new byte[LINE_MAX];
      var ln: nat := 0;
      gateBad, done := false, false;
      ghost var was := up;
      ghost var rx := START;
      var i := 0;
      assert arrivals[0..] == arrivals && line[..0] == [];
      while !done && i < |arrivals|
        modifies buf, `bufN, `up, line
        invariant i <= |arrivals| && ln <= LINE_MAX && bufN <= BUF_MAX
        invariant rx.buf == buf[..bufN] && rx.bad == gateBad && rx.done == done && up == (was || rx.up)
        invariant Receive(verb, arrivals) == Feed(Assembler(line[..ln], rx), verb, arrivals[i..]).rx
      {
        var b := arrivals[i];
        assert arrivals[i..][0] == b && arrivals[i..][1..] == arrivals[i + 1..];
        if b == NL {
          var l := line[..ln];
          var spoilt, ended := TakeLine(verb, l, rx, was);
          rx := LineStep(rx, verb, l);
          gateBad := gateBad || spoilt;
          done := ended;
          ln := 0;
          assert line[..0] == [];
        } else if ln < LINE_MAX {
          ghost var before := line[..ln];
          line[ln] := b;
          ln := ln + 1;
          assert line[..ln] == before + [b];
        }
        i := i + 1;
      }
    }

    /** `fujo_box_run`: `authorised` is the act-7 grant, `inWindow` the check of the argument's address. */
    method Run(verb: nat, argument: seq<byte>, inWindow: bool, authorised: bool, arrivals: seq<byte>) returns (rc: int)
      requires Valid()
      modifies this, buf, arg
      ensures Valid()
      ensures rc == if verb == 0 || verb > 6 || |argument| > 128 then -22
                    else if argument != [] && !inWindow then -14
                    else if !authorised then -1
                    else Verdict(verb, argument, Receive(verb, arrivals))
      ensures rc in {-22, -14, -1} ==>
                && Contents() == old(Contents()) && total == old(total) && hit == old(hit) && up == old(up)
                && lastRc == old(lastRc) && feeds == old(feeds) && seqNo == old(seqNo)
                && audits == old(audits) + if rc == -1 then [Audit(9, verb, 1)] else []
      ensures rc !in {-22, -14, -1} ==>
                && Contents() == (if rc == -2 then [] else Receive(verb, arrivals).buf)
                && total == old(total) + 1 && hit == old(hit) + (if rc == 0 then 1 else 0)
                && up == (rc != -4 && (old(up) || Receive(verb, arrivals).up))
                && lastRc == rc && seqNo == (old(seqNo) + 1) % WRAP
                && audits == old(audits) + AuditsOf(verb, rc) && feeds == old(feeds) + FeedsOf(rc)
    {
      if verb == 0 || verb > 6 || |argument| > ARG_MAX {
        assert old(audits) + [] == old(audits);
        return -22;
      }
      if argument != [] && !inWindow {
        assert old(audits) + [] == old(audits);
        return -14;
      }
      if !authorised {
        audits := audits + [Audit(9, verb, 1)];
        return -1;
      }
      total := total + 1;
      bufN := 0;
      StoreArgument(argument);
      seqNo := (seqNo + 1) % WRAP;
      var gateBad, done := Await(verb, arrivals);
      verbOf := verb;
      BoxProofs.ReceiveGated(verb, arrivals);
      rc := Judge(verb, argument, gateBad, done, Receive(verb, arrivals));
    }

    method StoreArgument(argument: seq<byte>)
      requires |argument| < arg.Length
      modifies arg, `argN
      ensures argN == |argument| && arg[..argN] == argument
    {
      argN := |argument|;
      for i := 0 to |argument|
        invariant arg[..i] == argument[..i] && argN == |argument|
      {
        arg[i] := argument[i];
      }
      if argN < ARG_MAX {
        arg[argN] := 0;
      }
    }

    /** The verdict logic after the loop, with its counters, audit and quality records. */
    method Judge(verb: nat, argument: seq<byte>, gateBad: bool, done: bool, ghost r: Rx) returns (rc: int)
      requires bufN <= buf.Length == BUF_MAX && argN <= ARG_MAX < arg.Length && arg[..argN] == argument
      requires buf[..bufN] == r.buf && gateBad == r.bad && done == r.done
      modifies `up, `lastRc, `audits, `feeds, `bufN, `hit, `schema
      ensures rc == Verdict(verb, argument, r) && rc in {0, -2, -3, -4}
      ensures bufN == (if rc == -2 then 0 else old(bufN)) && lastRc == rc && up == (rc != -4 && old(up))
      ensures hit == old(hit) + (if rc == 0 then 1 else 0) && schema == old(schema) + (if rc == 0 then 1 else 0)
      ensures audits == old(audits) + AuditsOf(verb, rc) && feeds == old(feeds) + FeedsOf(rc)
    {
      if !done {
        up := false;
        lastRc := -4;
        audits := audits + [Audit(9, verb, 1)];
        feeds := feeds + [Grade(7, false)];
        return -4;
      }
      if gateBad || bufN == 0 {
        audits := audits + [Audit(10, verb, 1)];
        bufN := 0;
        lastRc := -2;
        feeds := feeds + [Grade(7, false)];
        return -2;
      }
      var ok := CheckSchema(verb);
      if !ok {
        audits := audits + [Audit(10, verb, 2)];
        lastRc := -3;
        feeds := feeds + [Grade(7, true)];
        feeds := feeds + [Grade(8, false)];
        return -3;
      }
      audits := audits + [Audit(10, verb, 0)];
      lastRc := 0;
      schema := schema + 1;
      hit := hit + 1;
      feeds := feeds + [Grade(7, true)];
      feeds := feeds + [Grade(8, true)];
      audits := audits + [Audit(9, verb, 0)];
      return 0;
    }

    /** `fujo_box_result`: as much of the product as the caller has room for. */
    method Result(inWindow: bool, cap: nat) returns (rc: int, out: seq<byte>)
      requires Valid()
      ensures if !inWindow then rc == -14 && out == [] else rc == |out| && out == Contents()[..Min(cap, bufN)]
    {
      if !inWindow {
        return -14, [];
      }
      var n := Min(cap, bufN);
      out := [];
      for i := 0 to n
        invariant out == buf[..i]
      {
        out := out + [buf[i]];
      }
      return n, out;
    }
  }
}
