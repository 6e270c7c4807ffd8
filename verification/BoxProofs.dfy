/** BOX-BRIDGE: the receiver's verdict on any byte stream, and the round trip of the host's sender. */
module BoxProofs {
  import opened Bytes
  import opened Text
  import opened BoxProtocol

  // ------------------------------------------------------------------ bytes to lines

  /** Assembling bytes and acting on each newline is acting on the lines of the stream. */
  lemma {:induction false} FeedIsLines(line: seq<byte>, rx: Rx, verb: nat, bs: seq<byte>)
    requires !rx.done
    ensures Feed(Assembler(line, rx), verb, bs).rx == RunLines(rx, verb, LinesFrom(line, LINE_MAX, bs))
    decreases bs
  {
    if bs != [] {
      var rest := bs[1..];
      if bs[0] == NL {
        var next := LineStep(rx, verb, line);
        RunFirst(rx, verb, line, LinesFrom([], LINE_MAX, rest));
        if !next.done {
          FeedIsLines([], next, verb, rest);
        }
      } else {
        FeedIsLines(if |line| < LINE_MAX then line + [bs[0]] else line, rx, verb, rest);
      }
    }
  }

  lemma RunFirst(rx: Rx, verb: nat, l: seq<byte>, rest: seq<Line>)
    requires !rx.done
    ensures RunLines(rx, verb, [Line(l)] + rest) == RunLines(LineStep(rx, verb, l), verb, rest)
  {
    assert ([Line(l)] + rest)[1..] == rest;
  }

  lemma ReceiveIsLines(verb: nat, bs: seq<byte>)
    ensures Receive(verb, bs) == RunLines(START, verb, LinesFrom([], LINE_MAX, bs))
  {
    FeedIsLines([], START, verb, bs);
  }

  // ------------------------------------------------------------------ what a run of lines amounts to

  lemma Prefixes(l: seq<byte>)
    ensures HasPrefix(l, END) ==> !HasPrefix(l, RSP) && !HasPrefix(l, DATA)
    ensures HasPrefix(l, DATA) ==> !HasPrefix(l, RSP)
  {
    if |l| >= 10 {
      assert HasPrefix(l, END) ==> l[6] == l[0..10][6] == 0x45;
      assert HasPrefix(l, RSP) ==> l[6] == l[0..10][6] == 0x52;
      assert HasPrefix(l, DATA) ==> l[6] == l[0..11][6] == 0x44;
    }
  }

  lemma StepMeaning(rx: Rx, verb: nat, l: seq<byte>, next: Rx)
    requires !rx.done && next == LineStep(rx, verb, l)
    ensures next.done == IsEnd(l)
    ensures IsData(l) ==> next == Accept(rx, Payload(verb, l))
    ensures !IsData(l) ==> next.buf == rx.buf && next.bad == rx.bad
  {
    Prefixes(l);
  }

  /** A run ends exactly when an END line comes, and what it holds is decided by the DATA lines before it. */
  lemma {:induction false} RunMeaning(rx: Rx, verb: nat, lines: seq<Line>, r: Rx, cs: seq<Option<Chunk>>)
    requires !rx.done && |rx.buf| <= BUF_MAX
    requires r == RunLines(rx, verb, lines) && cs == Chunks(verb, Seen(lines))
    ensures r.done <==> HasEnd(lines)
    ensures r.bad <==> rx.bad || !InOrder(cs, |rx.buf|)
    ensures !r.bad ==> r.buf == rx.buf + Whole(cs)
    decreases |lines|
  {
    if lines != [] {
      var l, rest := lines[0].text, lines[1..];
      var next := LineStep(rx, verb, l);
      StepMeaning(rx, verb, l, next);
      if IsEnd(l) {
        assert lines[0] in lines;
      } else {
        assert lines == [lines[0]] + rest;
        var later := Chunks(verb, Seen(rest));
        ChunksFirst(verb, lines[0], Seen(rest), cs, later);
        if IsData(l) {
          AcceptMeaning(rx, Payload(verb, l), next, cs, later);
        }
        RunMeaning(next, verb, rest, r, later);
      }
    }
  }

  lemma ChunksFirst(verb: nat, l: Line, rest: seq<Line>, cs: seq<Option<Chunk>>, later: seq<Option<Chunk>>)
    requires cs == Chunks(verb, [l] + rest) && later == Chunks(verb, rest)
    ensures cs == if IsData(l.text) then [Payload(verb, l.text)] + later else later
  {
    assert ([l] + rest)[1..] == rest;
  }

  lemma AcceptMeaning(rx: Rx, c: Option<Chunk>, next: Rx, cs: seq<Option<Chunk>>, rest: seq<Option<Chunk>>)
    requires |rx.buf| <= BUF_MAX && cs == [c] + rest && next == Accept(rx, c)
    ensures |next.buf| <= BUF_MAX
    ensures rx.bad || !InOrder(cs, |rx.buf|) <==> next.bad || !InOrder(rest, |next.buf|)
    ensures !next.bad ==> rx.buf + Whole(cs) == next.buf + Whole(rest)
  {
    assert cs[1..] == rest;
  }

  /** In order means: every block is there, and its offset is the number of bytes in the blocks before it. */
  lemma {:induction false} InOrderIff(cs: seq<Option<Chunk>>, at: nat)
    requires at <= BUF_MAX
    ensures InOrder(cs, at) <==>
            forall i: nat | i < |cs| ::
              cs[i].Some? && cs[i].value.off == at + |Whole(cs[..i])| && cs[i].value.off + |cs[i].value.data| <= BUF_MAX
    decreases |cs|
  {
    if cs != [] {
      var rest := cs[1..];
      assert Whole(cs[..0]) == [];
      forall i: nat | i < |rest|
        ensures rest[i] == cs[i + 1]
        ensures cs[0].Some? ==> |Whole(cs[..i + 1])| == |cs[0].value.data| + |Whole(rest[..i])|
      {
        assert cs[..i + 1][1..] == rest[..i];
      }
      if cs[0].Some? && cs[0].value.off == at && at + |cs[0].value.data| <= BUF_MAX {
        InOrderIff(rest, at + |cs[0].value.data|);
        assert forall i: nat | 0 < i < |cs| :: cs[i] == rest[i - 1];
        assert forall i: nat | i < |rest| :: rest[i] == cs[i + 1];
      } else {
        assert !(cs[0].Some? && cs[0].value.off == at + |Whole(cs[..0])| && cs[0].value.off + |cs[0].value.data| <= BUF_MAX);
      }
    }
  }

  /** The verdict on every byte stream, told from its lines alone. */
  lemma VerdictIff(verb: nat, arg: seq<byte>, bs: seq<byte>, lines: seq<Line>, cs: seq<Option<Chunk>>)
    requires lines == LinesFrom([], LINE_MAX, bs) && cs == Chunks(verb, Seen(lines))
    ensures Verdict(verb, arg, Receive(verb, bs)) ==
            if !HasEnd(lines) then -4
            else if !InOrder(cs, 0) || Whole(cs) == [] then -2
            else if !SchemaOk(verb, Whole(cs), arg) then -3
            else 0
    ensures Verdict(verb, arg, Receive(verb, bs)) in {0, -3} ==> Receive(verb, bs).buf == Whole(cs)
  {
    ReceiveIsLines(verb, bs);
    RunMeaning(START, verb, lines, Receive(verb, bs), cs);
    assert [] + Whole(cs) == Whole(cs);
  }

  /** A DATA line that is unreadable, ungated, or not where the ones before it end quarantines the session. */
  lemma MisplacedBlockRefused(verb: nat, arg: seq<byte>, bs: seq<byte>, lines: seq<Line>, cs: seq<Option<Chunk>>, i: nat)
    requires lines == LinesFrom([], LINE_MAX, bs) && cs == Chunks(verb, Seen(lines)) && HasEnd(lines)
    requires i < |cs| && (cs[i].None? || cs[i].value.off != |Whole(cs[..i])|)
    ensures Verdict(verb, arg, Receive(verb, bs)) == -2
  {
    InOrderIff(cs, 0);
    VerdictIff(verb, arg, bs, lines, cs);
  }

  /** The buffer always consists of gated blocks, whatever arrives and whatever the verdict. */
  ghost predicate Gated(verb: nat, b: seq<byte>)
    decreases |b|
  {
    b == [] || exists m | 0 <= m < |b| :: Gated(verb, b[..m]) && |b| - m <= DATA_MAX && GateOk(verb, b[m..])
  }

  lemma GatedAppend(verb: nat, b: seq<byte>, d: seq<byte>)
    requires Gated(verb, b) && 0 < |d| <= DATA_MAX && GateOk(verb, d)
    ensures Gated(verb, b + d)
  {
    assert (b + d)[..|b|] == b && (b + d)[|b|..] == d;
  }

  lemma {:induction false} RunGated(rx: Rx, verb: nat, lines: seq<Line>)
    requires Gated(verb, rx.buf) && |rx.buf| <= BUF_MAX
    ensures Gated(verb, RunLines(rx, verb, lines).buf) && |RunLines(rx, verb, lines).buf| <= BUF_MAX
    decreases |lines|
  {
    if lines != [] && !rx.done {
      var l := lines[0].text;
      var next := LineStep(rx, verb, l);
      StepMeaning(rx, verb, l, next);
      if IsData(l) {
        AcceptGated(rx, verb, Payload(verb, l));
      }
      RunGated(next, verb, lines[1..]);
    }
  }

  lemma AcceptGated(rx: Rx, verb: nat, c: Option<Chunk>)
    requires Gated(verb, rx.buf) && |rx.buf| <= BUF_MAX
    requires c.Some? ==> 0 < |c.value.data| <= DATA_MAX && GateOk(verb, c.value.data)
    ensures Gated(verb, Accept(rx, c).buf) && |Accept(rx, c).buf| <= BUF_MAX
  {
    if c.Some? {
      GatedAppend(verb, rx.buf, c.value.data);
    }
  }

  lemma ReceiveGated(verb: nat, bs: seq<byte>)
    ensures Gated(verb, Receive(verb, bs).buf) && |Receive(verb, bs).buf| <= BUF_MAX
  {
    ReceiveIsLines(verb, bs);
    RunGated(START, verb, LinesFrom([], LINE_MAX, bs));
  }

  // ------------------------------------------------------------------ the sender's lines

  lemma DecWord(n: nat)
    ensures IsWord(Dec(n)) && NL !in Dec(n)
  {
    var s := Dec(n);
    forall c | c in s
      ensures !IsBlank(c) && c != NL
    {
      var k :| 0 <= k < |s| && s[k] == c;
      assert IsDigit(s[k]);
    }
  }

  lemma HexWord(d: seq<byte>)
    ensures d != [] ==> IsWord(HexOf(d))
    ensures NL !in HexOf(d)
  {
    var s := HexOf(d);
    forall c | c in s
      ensures !IsBlank(c) && c != NL
    {
      var k :| 0 <= k < |s| && s[k] == c;
      HexIsWord(d, k);
    }
  }

  const DATA_WORD: seq<byte> := [0x46, 0x4A, 0x42, 0x4F, 0x58, 0x3A, 0x44, 0x41, 0x54, 0x41]
  const RSP_WORD: seq<byte> := [0x46, 0x4A, 0x42, 0x4F, 0x58, 0x3A, 0x52, 0x53, 0x50]

  lemma TwoWords(l: seq<byte>, i: nat, w: seq<byte>, v: seq<byte>)
    requires i <= |l| && IsWord(w) && IsWord(v) && l[i..] == w + [BLANK] + v
    ensures i + |w| < |l| && TokFrom(l, i, 0) == Some(Span(i, |w|)) && l[i..i + |w|] == w
    ensures TokFrom(l, i, 1) == Some(Span(i + |w| + 1, |v|)) && l[i + |w| + 1..] == v
  {
    TokStep(l, i, w, v, 0);
    TokLast(l, i + |w| + 1, v);
  }

  /** Words two, three and four of a line of five words. */
  lemma FiveWords(l: seq<byte>, w0: seq<byte>, w1: seq<byte>, w2: seq<byte>, w3: seq<byte>, w4: seq<byte>,
                  l1: seq<byte>, l2: seq<byte>, l3: seq<byte>)
    requires IsWord(w0) && IsWord(w1) && IsWord(w2) && IsWord(w3) && IsWord(w4)
    requires l == w0 + [BLANK] + l1 && l1 == w1 + [BLANK] + l2 && l2 == w2 + [BLANK] + l3 && l3 == w3 + [BLANK] + w4
    ensures Tok(l, 4).Some? && l[Tok(l, 4).value.start..] == w4
    ensures WordAt(l, 2) == w2 && WordAt(l, 3) == w3
  {
    assert l[0..] == l;
    var i := |w0| + 1;
    TokTail(l, 0, i, w0, l1, 1);
    TokTail(l, 0, i, w0, l1, 2);
    TokTail(l, 0, i, w0, l1, 3);
    FourWords(l, i, w1, w2, w3, w4, l2, l3);
  }

  lemma TokTail(l: seq<byte>, i: nat, j: nat, w: seq<byte>, rest: seq<byte>, k: nat)
    requires i <= |l| && IsWord(w) && l[i..] == w + [BLANK] + rest && j == i + |w| + 1
    ensures j <= |l| && l[j..] == rest && TokFrom(l, i, k + 1) == TokFrom(l, j, k)
  {
    TokStep(l, i, w, rest, k);
  }

  lemma FourWords(l: seq<byte>, i: nat, w1: seq<byte>, w2: seq<byte>, w3: seq<byte>, w4: seq<byte>, l2: seq<byte>, l3: seq<byte>)
    requires IsWord(w1) && IsWord(w2) && IsWord(w3) && IsWord(w4) && i <= |l|
    requires l[i..] == w1 + [BLANK] + l2 && l2 == w2 + [BLANK] + l3 && l3 == w3 + [BLANK] + w4
    ensures TokFrom(l, i, 1).Some? && Slice(l, TokFrom(l, i, 1).value) == w2
    ensures TokFrom(l, i, 2).Some? && Slice(l, TokFrom(l, i, 2).value) == w3
    ensures TokFrom(l, i, 3).Some? && l[TokFrom(l, i, 3).value.start..] == w4
  {
    var j := i + |w1| + 1;
    TokTail(l, i, j, w1, l2, 0);
    TokTail(l, i, j, w1, l2, 1);
    TokTail(l, i, j, w1, l2, 2);
    ThreeWords(l, j, w2, w3, w4, l3);
  }

  lemma ThreeWords(l: seq<byte>, i: nat, w2: seq<byte>, w3: seq<byte>, w4: seq<byte>, l3: seq<byte>)
    requires IsWord(w2) && IsWord(w3) && IsWord(w4) && i <= |l| && l[i..] == w2 + [BLANK] + l3 && l3 == w3 + [BLANK] + w4
    ensures TokFrom(l, i, 0).Some? && Slice(l, TokFrom(l, i, 0).value) == w2
    ensures TokFrom(l, i, 1).Some? && Slice(l, TokFrom(l, i, 1).value) == w3
    ensures TokFrom(l, i, 2).Some? && l[TokFrom(l, i, 2).value.start..] == w4
  {
    var j := i + |w2| + 1;
    TokTail(l, i, j, w2, l3, 0);
    TokTail(l, i, j, w2, l3, 1);
    TokStep(l, i, w2, l3, 0);
    TwoWords(l, j, w3, w4);
  }

  lemma Nested(l: seq<byte>, w0: seq<byte>, w1: seq<byte>, w2: seq<byte>, w3: seq<byte>, w4: seq<byte>)
    requires l == w0 + [BLANK] + w1 + [BLANK] + w2 + [BLANK] + w3 + [BLANK] + w4
    ensures l == w0 + [BLANK] + (w1 + [BLANK] + (w2 + [BLANK] + (w3 + [BLANK] + w4)))
  {
  }

  /** The receiver reads from a sender's DATA line exactly the block it was made from, or refuses it at the gate. */
  lemma DataLineRead(verb: nat, seqNo: nat, off: u64, block: seq<byte>, l: seq<byte>)
    requires 0 < |block| <= DATA_MAX && l == DataLine(seqNo, off, block)
    ensures HasPrefix(l, DATA) && Tok(l, 4).Some?
    ensures Payload(verb, l) == if GateOk(verb, block) then Some(Chunk(off, block)) else None
  {
    DecWord(seqNo);
    DecWord(off);
    DecWord(|block|);
    HexWord(block);
    assert DATA == DATA_WORD + [BLANK];
    Nested(l, DATA_WORD, Dec(seqNo), Dec(off), Dec(|block|), HexOf(block));
    var l3 := Dec(|block|) + [BLANK] + HexOf(block);
    var l2 := Dec(off) + [BLANK] + l3;
    FiveWords(l, DATA_WORD, Dec(seqNo), Dec(off), Dec(|block|), HexOf(block), Dec(seqNo) + [BLANK] + l2, l2, l3);
    assert l[0..11] == DATA;
    ParsePrinted(off);
    ParsePrinted(|block|);
    UnHexOfHex(block);
  }

  lemma Pow10Values()
    ensures Pow10(2) == 100 && Pow10(4) == 10_000 && Pow10(20) == 100_000_000_000_000_000_000
  {
    assert Pow10(8) == 100_000_000;
    assert Pow10(14) == 100_000_000_000_000;
  }

  lemma DataLineShape(seqNo: u64, off: nat, block: seq<byte>, l: seq<byte>)
    requires l == DataLine(seqNo, off, block) && |block| <= DATA_MAX
    ensures NL !in l && HasPrefix(l, DATA)
    ensures off <= BUF_MAX ==> |l| <= LINE_MAX
  {
    DecWord(seqNo);
    DecWord(off);
    DecWord(|block|);
    HexWord(block);
    assert l[0..11] == DATA;
    Pow10Values();
    DecLength(seqNo, 20);
    DecLength(|block|, 2);
    if off <= BUF_MAX {
      DecLength(off, 4);
    }
  }

  lemma RspLineStep(rx: Rx, verb: nat, seqNo: u64, l: seq<byte>)
    requires l == RspLine(seqNo)
    ensures NL !in l && |l| <= LINE_MAX && LineStep(rx, verb, l) == rx.(up := true)
  {
    DecWord(seqNo);
    Pow10Values();
    DecLength(seqNo, 20);
    RspWords(l, Dec(seqNo));
    assert l[0..10] == RSP;
    assert Dec(1) == [0x31];
    ParsePrinted(1);
  }

  lemma RspWords(l: seq<byte>, w: seq<byte>)
    requires IsWord(w) && l == RSP + w + [BLANK, 0x31]
    ensures Tok(l, 2).Some? && Slice(l, Tok(l, 2).value) == [0x31]
  {
    var rest := w + [BLANK] + [0x31];
    SplitRsp(l, w, rest);
    TokStep(l, 0, RSP_WORD, rest, 1);
    TwoWords(l, 10, w, [0x31]);
  }

  lemma SplitRsp(l: seq<byte>, w: seq<byte>, rest: seq<byte>)
    requires l == RSP + w + [BLANK, 0x31] && rest == w + [BLANK] + [0x31]
    ensures l[0..] == RSP_WORD + [BLANK] + rest
  {
    assert RSP == RSP_WORD + [BLANK];
  }

  lemma EndLineStep(rx: Rx, verb: nat, seqNo: u64, l: seq<byte>)
    requires l == EndLine(seqNo)
    ensures NL !in l && |l| <= LINE_MAX && LineStep(rx, verb, l) == rx.(done := true)
  {
    DecWord(seqNo);
    Pow10Values();
    DecLength(seqNo, 20);
    assert l[0..10] == END;
    Prefixes(l);
  }

  // ------------------------------------------------------------------ the round trip

  /** A product gets through when it fits the buffer and each of its 64-byte blocks passes the gate. */
  predicate Passes(verb: nat, prod: seq<byte>, off: nat)
    requires off <= |prod|
    decreases |prod| - off
  {
    off == |prod| || (GateOk(verb, Block(prod, off)) && off + |Block(prod, off)| <= BUF_MAX
                      && Passes(verb, prod, off + |Block(prod, off)|))
  }

  lemma Received(rx: Rx, verb: nat, l: seq<byte>, rest: seq<byte>)
    requires !rx.done && NL !in l
    ensures RunLines(rx, verb, LinesFrom([], LINE_MAX, l + [NL] + rest))
         == RunLines(LineStep(rx, verb, Cut(l, LINE_MAX)), verb, LinesFrom([], LINE_MAX, rest))
  {
    NextLine([], LINE_MAX, l, rest);
    assert [] + l == l;
    RunFirst(rx, verb, Cut(l, LINE_MAX), LinesFrom([], LINE_MAX, rest));
  }

  lemma CutPrefix(l: seq<byte>)
    requires HasPrefix(l, DATA)
    ensures HasPrefix(Cut(l, LINE_MAX), DATA)
  {
    assert Cut(l, LINE_MAX)[0..11] == l[0..11];
  }

  lemma EndReceived(rx: Rx, verb: nat, seqNo: u64)
    requires !rx.done
    ensures RunLines(rx, verb, LinesFrom([], LINE_MAX, EndLine(seqNo) + [NL])) == rx.(done := true)
  {
    var l := EndLine(seqNo);
    EndLineStep(rx, verb, seqNo, l);
    assert Cut(l, LINE_MAX) == l;
    assert l + [NL] == l + [NL] + [];
    Received(rx, verb, l, []);
  }

  /** Once a session is spoilt it stays so, and the END line still ends it. */
  lemma {:induction false} SpoiltTail(rx: Rx, verb: nat, seqNo: u64, prod: seq<byte>, off: nat, r: Rx)
    requires !rx.done && rx.bad && off <= |prod|
    requires r == RunLines(rx, verb, LinesFrom([], LINE_MAX, Tail(seqNo, prod, off)))
    ensures r.done && r.bad && r.up == rx.up
    decreases |prod| - off
  {
    if off == |prod| {
      EndReceived(rx, verb, seqNo);
    } else {
      var block := Block(prod, off);
      var l := DataLine(seqNo, off, block);
      DataLineShape(seqNo, off, block, l);
      CutPrefix(l);
      Prefixes(Cut(l, LINE_MAX));
      Received(rx, verb, l, Tail(seqNo, prod, off + |block|));
      SpoiltTail(LineStep(rx, verb, Cut(l, LINE_MAX)), verb, seqNo, prod, off + |block|, r);
    }
  }

  lemma {:induction false} TailReceived(rx: Rx, verb: nat, seqNo: u64, prod: seq<byte>, off: nat, r: Rx)
    requires !rx.done && !rx.bad && off <= |prod| && off <= BUF_MAX && rx.buf == prod[..off]
    requires r == RunLines(rx, verb, LinesFrom([], LINE_MAX, Tail(seqNo, prod, off)))
    ensures r.done && r.up == rx.up && (r.bad <==> !Passes(verb, prod, off))
    ensures !r.bad ==> r.buf == prod
    decreases |prod| - off
  {
    if off == |prod| {
      EndReceived(rx, verb, seqNo);
    } else {
      var n := |Block(prod, off)|;
      var next := TailStep(rx, verb, seqNo, prod, off, r);
      if next.bad {
        SpoiltTail(next, verb, seqNo, prod, off + n, r);
      } else {
        TailReceived(next, verb, seqNo, prod, off + n, r);
      }
    }
  }

  /** One DATA line of the sender: its block is taken, or the session is spoilt. */
  lemma TailStep(rx: Rx, verb: nat, seqNo: u64, prod: seq<byte>, off: nat, r: Rx) returns (next: Rx)
    requires !rx.done && !rx.bad && off < |prod| && off <= BUF_MAX && rx.buf == prod[..off]
    requires r == RunLines(rx, verb, LinesFrom([], LINE_MAX, Tail(seqNo, prod, off)))
    ensures off + |Block(prod, off)| <= |prod| && !next.done && next.up == rx.up
    ensures next.bad <==> !(GateOk(verb, Block(prod, off)) && off + |Block(prod, off)| <= BUF_MAX)
    ensures !next.bad ==> next.buf == prod[..off + |Block(prod, off)|]
    ensures r == RunLines(next, verb, LinesFrom([], LINE_MAX, Tail(seqNo, prod, off + |Block(prod, off)|)))
  {
    var block := Block(prod, off);
    next := Accept(rx, if GateOk(verb, block) then Some(Chunk(off, block)) else None);
    Grown(prod, off, block);
    BlockReceived(rx, verb, seqNo, off, block, Tail(seqNo, prod, off + |block|), next);
  }

  lemma Grown(prod: seq<byte>, off: nat, block: seq<byte>)
    requires off + |block| <= |prod| && block == prod[off..off + |block|]
    ensures prod[..off] + block == prod[..off + |block|]
  {
  }

  lemma BlockReceived(rx: Rx, verb: nat, seqNo: u64, off: nat, block: seq<byte>, rest: seq<byte>, next: Rx)
    requires !rx.done && 0 < |block| <= DATA_MAX && off <= BUF_MAX
    requires next == Accept(rx, if GateOk(verb, block) then Some(Chunk(off, block)) else None)
    ensures RunLines(rx, verb, LinesFrom([], LINE_MAX, DataLine(seqNo, off, block) + [NL] + rest))
         == RunLines(next, verb, LinesFrom([], LINE_MAX, rest))
  {
    var l := DataLine(seqNo, off, block);
    DataLineShape(seqNo, off, block, l);
    assert Cut(l, LINE_MAX) == l;
    Received(rx, verb, l, rest);
    DataLineStep(rx, verb, seqNo, off, block, l, next);
  }

  lemma DataLineStep(rx: Rx, verb: nat, seqNo: u64, off: nat, block: seq<byte>, l: seq<byte>, next: Rx)
    requires l == DataLine(seqNo, off, block) && 0 < |block| <= DATA_MAX && off <= BUF_MAX
    requires next == Accept(rx, if GateOk(verb, block) then Some(Chunk(off, block)) else None)
    ensures LineStep(rx, verb, l) == next
  {
    DataLineRead(verb, seqNo, off, block, l);
    Prefixes(l);
  }

  /** The transport delivers every product whose blocks pass the gate, whole, and quarantines every other. */
  lemma Transport(verb: nat, seqNo: u64, prod: seq<byte>, r: Rx)
    requires r == Receive(verb, Sent(seqNo, prod))
    ensures r.done && r.up && (r.bad <==> !Passes(verb, prod, 0))
    ensures Passes(verb, prod, 0) ==> r.buf == prod
  {
    var l := RspLine(seqNo);
    RspLineStep(START, verb, seqNo, l);
    assert Cut(l, LINE_MAX) == l;
    Received(START, verb, l, Tail(seqNo, prod, 0));
    ReceiveIsLines(verb, Sent(seqNo, prod));
    TailReceived(START.(up := true), verb, seqNo, prod, 0, r);
  }

  /** What passing means: at most 3072 bytes, and the block at every multiple of 64 passes the gate. */
  lemma {:induction false} PassesIff(verb: nat, prod: seq<byte>, off: nat)
    requires off <= |prod| && (off % 64 == 0 || off == |prod|) && off <= BUF_MAX
    ensures Passes(verb, prod, off) <==>
            |prod| <= BUF_MAX && forall k | off <= k < |prod| && k % DATA_MAX == 0 :: GateOk(verb, Block(prod, k))
    decreases |prod| - off
  {
    if off < |prod| {
      var next := off + |Block(prod, off)|;
      if GateOk(verb, Block(prod, off)) && next <= BUF_MAX {
        PassesIff(verb, prod, next);
        forall k | off <= k < |prod| && k % DATA_MAX == 0
          ensures k == off || k >= next
        {
          if k > off {
            NextBlock(off, k);
          }
        }
      }
    }
  }

  lemma NextBlock(off: nat, k: nat)
    requires off % 64 == 0 && k % 64 == 0 && off < k
    ensures k >= off + 64
  {
  }

  /** The verdict on everything the sender can send: the round trip and its exact limits. */
  lemma SentVerdict(verb: nat, arg: seq<byte>, seqNo: u64, prod: seq<byte>)
    ensures Verdict(verb, arg, Receive(verb, Sent(seqNo, prod))) ==
            if prod == [] || |prod| > BUF_MAX || (exists k | 0 <= k < |prod| && k % DATA_MAX == 0 :: !GateOk(verb, Block(prod, k)))
            then -2
            else if !SchemaOk(verb, prod, arg) then -3
            else 0
  {
    Transport(verb, seqNo, prod, Receive(verb, Sent(seqNo, prod)));
    PassesIff(verb, prod, 0);
  }

  /** The number of the request does not matter: a reply to any other request is received just the same. */
  lemma SequenceIgnored(verb: nat, arg: seq<byte>, prod: seq<byte>, seqNo: u64, other: u64)
    ensures var r, s := Receive(verb, Sent(seqNo, prod)), Receive(verb, Sent(other, prod));
            && Verdict(verb, arg, r) == Verdict(verb, arg, s)
            && (Verdict(verb, arg, r) == 0 || Verdict(verb, arg, r) == -3 ==> r.buf == s.buf == prod)
  {
    SentVerdict(verb, arg, seqNo, prod);
    SentVerdict(verb, arg, other, prod);
    Transport(verb, seqNo, prod, Receive(verb, Sent(seqNo, prod)));
    Transport(verb, other, prod, Receive(verb, Sent(other, prod)));
  }
}
