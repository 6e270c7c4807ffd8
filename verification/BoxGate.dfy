/** What the gate of BOX-BRIDGE keeps out: the head of an executable, unless the blocks of a stream split it. */
module BoxGate {
  import opened Bytes
  import opened Text
  import opened BoxProtocol
  import opened BoxProofs

  const ELF: seq<byte> := [0x7F, 0x45, 0x4C, 0x46]

  /** Every block that could be read has passed the gate. */
  predicate BlocksGated(verb: nat, cs: seq<Option<Chunk>>) {
    forall i | 0 <= i < |cs| && cs[i].Some? :: cs[i].value.data != [] && GateOk(verb, cs[i].value.data)
  }

  lemma {:induction false} ChunksGated(verb: nat, lines: seq<Line>)
    ensures BlocksGated(verb, Chunks(verb, lines))
  {
    if lines != [] {
      ChunksGated(verb, lines[1..]);
    }
  }

  /** The first block is a lone "M" before a "Z", or a part of the ELF head that the next ones complete. */
  predicate HeadSplit(first: seq<byte>, rest: seq<byte>) {
    || (first == [0x4D] && rest != [] && rest[0] == 0x5A)
    || (|first| < 4 && HasPrefix(first + rest, ELF))
  }

  /** Behind a gated first block the whole begins like an executable exactly when that block splits the head. */
  lemma HeadSplitIff(verb: nat, first: seq<byte>, rest: seq<byte>)
    requires first != [] && GateOk(verb, first)
    ensures ExecMagic(first + rest) <==> HeadSplit(first, rest)
    ensures verb != VERB_FB ==> (ExecMagic(first + rest) <==> first == [0x4D] && rest != [] && rest[0] == 0x5A)
  {
    var d := first + rest;
    assert d[0] == first[0];
    if |first| >= 2 {
      assert d[..2] == first[..2];
      assert HasPrefix(d, [0x4D, 0x5A]) <==> HasPrefix(first, [0x4D, 0x5A]);
    } else {
      assert first == [d[0]];
      assert |d| >= 2 ==> d[0..2] == [d[0], d[1]] && d[1] == rest[0];
    }
    if |first| >= 4 {
      assert d[..4] == first[..4];
      assert HasPrefix(d, ELF) <==> HasPrefix(first, ELF);
    }
    if HasPrefix(d, ELF) {
      assert d[0] == d[0..4][0] == 0x7F;
      assert first[0] in first;
    }
  }

  /** Whatever stream gets past the gate: the product begins like an executable exactly when its first block splits
      the head. */
  lemma ReceivedHeadIff(verb: nat, arg: seq<byte>, bs: seq<byte>, lines: seq<Line>, cs: seq<Option<Chunk>>)
    requires lines == LinesFrom([], LINE_MAX, bs) && cs == Chunks(verb, Seen(lines))
    requires Verdict(verb, arg, Receive(verb, bs)) in {0, -3}
    ensures cs != [] && cs[0].Some?
    ensures ExecMagic(Receive(verb, bs).buf) <==> HeadSplit(cs[0].value.data, Whole(cs[1..]))
  {
    VerdictIff(verb, arg, bs, lines, cs);
    ChunksGated(verb, Seen(lines));
    assert cs != [];
    HeadSplitIff(verb, cs[0].value.data, Whole(cs[1..]));
  }

  /** The host's blocks never split a head: no product that it gets through begins like an executable. */
  lemma SentHasNoHead(verb: nat, arg: seq<byte>, seqNo: u64, prod: seq<byte>)
    requires Verdict(verb, arg, Receive(verb, Sent(seqNo, prod))) in {0, -3}
    ensures Receive(verb, Sent(seqNo, prod)).buf == prod && !ExecMagic(prod)
  {
    SentVerdict(verb, arg, seqNo, prod);
    Transport(verb, seqNo, prod, Receive(verb, Sent(seqNo, prod)));
    var first := Block(prod, 0);
    assert GateOk(verb, first);
    assert prod == first + prod[|first|..];
    HeadSplitIff(verb, first, prod[|first|..]);
  }

  /** A stream of two blocks of one byte each that is accepted and begins like an executable. */
  lemma SplitHeadExample(seqNo: u64, bs: seq<byte>, product: seq<byte>)
    requires product == [0x4D, 0x5A]
    requires bs == DataLine(seqNo, 0, [0x4D]) + [NL] + (DataLine(seqNo, 1, [0x5A]) + [NL] + (EndLine(seqNo) + [NL]))
    ensures Receive(VERB_ECHO, bs).buf == product && ExecMagic(product)
    ensures Verdict(VERB_ECHO, product, Receive(VERB_ECHO, bs)) == 0
  {
    var end := EndLine(seqNo) + [NL];
    var one := Rx([0x4D], false, false, false);
    var two := Rx(product, false, false, false);
    ReceiveIsLines(VERB_ECHO, bs);
    assert GateOk(VERB_ECHO, [0x4D]) && GateOk(VERB_ECHO, [0x5A]);
    assert [0x4D] + [0x5A] == product && [] + [0x4D] == [0x4D];
    BlockReceived(START, VERB_ECHO, seqNo, 0, [0x4D], DataLine(seqNo, 1, [0x5A]) + [NL] + end, one);
    BlockReceived(one, VERB_ECHO, seqNo, 1, [0x5A], end, two);
    EndReceived(two, VERB_ECHO, seqNo);
  }
}
