/**
 The lines of BOX-BRIDGE byte by byte: what the host sends for a product, what a DATA line of any sender
 carries, which digits spell which bytes, and which lines of a stream count the provider as up. The blocks
 themselves are judged elsewhere.
 */
module BoxWire {
  import opened Bytes
  import opened Text
  import opened BoxProtocol
  import opened BoxProofs
  import opened BoxSchema

  /** "FJBOX:" */
  const TAG: seq<byte> := [0x46, 0x4A, 0x42, 0x4F, 0x58, 0x3A]

  /** The host's answer with a product of up to 64 bytes: RSP with the number and status 1, one DATA line with number,
      offset, length and lowercase hexadecimal digits, END with the number. */
  lemma OneBlockSent(seqNo: nat, p: seq<byte>)
    requires 1 <= |p| <= 64
    ensures Sent(seqNo, p)
         == TAG + [0x52, 0x53, 0x50, 0x20] + Dec(seqNo) + [0x20, 0x31, 0x0A]
            + (TAG + [0x44, 0x41, 0x54, 0x41, 0x20] + Dec(seqNo) + [0x20] + [0x30] + [0x20] + Dec(|p|) + [0x20] + HexOf(p) + [0x0A]
               + (TAG + [0x45, 0x4E, 0x44, 0x20] + Dec(seqNo) + [0x0A]))
  {
    assert Block(p, 0) == p;
    assert Tail(seqNo, p, |p|) == EndLine(seqNo) + [NL];
    assert TAG + [0x52, 0x53, 0x50, 0x20] == RSP && TAG + [0x44, 0x41, 0x54, 0x41, 0x20] == DATA;
    assert TAG + [0x45, 0x4E, 0x44, 0x20] == END && Dec(0) == [0x30];
    assert RSP + Dec(seqNo) + [BLANK, 0x31] + [NL] == RSP + Dec(seqNo) + [0x20, 0x31, 0x0A];
  }

  /** A longer product is the same with one DATA line for each 64 bytes, at its offset. */
  lemma NextBlockSent(seqNo: nat, p: seq<byte>, off: nat)
    requires off < |p|
    ensures var n := if |p| - off < 64 then |p| - off else 64;
            Tail(seqNo, p, off) == TAG + [0x44, 0x41, 0x54, 0x41, 0x20] + Dec(seqNo) + [0x20] + Dec(off) + [0x20] + Dec(n)
                                   + [0x20] + HexOf(p[off..off + n]) + [0x0A] + Tail(seqNo, p, off + n)
  {
    assert TAG + [0x44, 0x41, 0x54, 0x41, 0x20] == DATA;
  }

  /** The digits of a hexadecimal string are lowercase, high half first. */
  lemma {:induction false} HexDigits(d: seq<byte>, i: nat)
    requires i < |d|
    ensures var hi, lo := d[i] / 16, d[i] % 16;
            && HexOf(d)[2 * i] == (if hi < 10 then 0x30 + hi else 0x57 + hi)
            && HexOf(d)[2 * i + 1] == (if lo < 10 then 0x30 + lo else 0x57 + lo)
  {
    if i > 0 {
      HexDigits(d[1..], i - 1);
      assert HexOf(d)[2 * i] == HexOf(d[1..])[2 * i - 2] && HexOf(d)[2 * i + 1] == HexOf(d[1..])[2 * i - 1];
    }
  }

  /** The value of a hexadecimal digit, in either case. */
  predicate DigitIs(c: byte, v: nat) {
    (v < 10 && c == 0x30 + v) || (10 <= v < 16 && (c == 0x37 + v || c == 0x57 + v))
  }

  /** Digits 2i and 2i + 1 of s stand for byte i of d, the high half first. */
  predicate PairIs(s: seq<byte>, d: seq<byte>, i: nat) {
    i < |d| && 2 * i + 1 < |s| && DigitIs(s[2 * i], d[i] / 16) && DigitIs(s[2 * i + 1], d[i] % 16)
  }

  /** Two digits for each byte; anything else is refused. */
  lemma {:induction false} UnHexIff(s: seq<byte>, d: seq<byte>)
    requires |s| == 2 * |d|
    ensures UnHex(s) == Some(d) <==> forall i: nat | i < |d| :: PairIs(s, d, i)
  {
    if d != [] {
      var s', d' := s[2..], d[1..];
      UnHexIff(s', d');
      FirstPair(s[0], s[1], d[0]);
      assert UnHex(s) == Some(d) <==> PairIs(s, d, 0) && UnHex(s') == Some(d') by {
        assert [d[0]] + d' == d;
      }
      forall i: nat
        ensures PairIs(s, d, i + 1) <==> PairIs(s', d', i)
      {
      }
      assert forall i: nat | 0 < i < |d| :: PairIs(s, d, i) <==> PairIs(s', d', i - 1);
      assert forall i: nat | i < |d'| :: PairIs(s', d', i) <==> PairIs(s, d, i + 1);
    }
  }

  lemma FirstPair(a: byte, b: byte, v: byte)
    ensures HexV(a).Some? && HexV(b).Some? && HexV(a).value * 16 + HexV(b).value == v <==> DigitIs(a, v / 16) && DigitIs(b, v % 16)
  {
  }

  /** Words are what blanks and tabs separate. */
  lemma WordIff(w: seq<byte>)
    ensures IsWord(w) <==> |w| > 0 && forall i | 0 <= i < |w| :: w[i] != 0x20 && w[i] != 9
  {
    assert forall i | 0 <= i < |w| :: w[i] in w;
  }

  /** The offset a word stands for: its number, or the largest one when it is none. */
  function OffsetIn(w: seq<byte>): nat {
    if AllDigits(w) && Decimal(w) < 0x1_0000_0000_0000_0000 then Decimal(w) else 0xFFFF_FFFF_FFFF_FFFF
  }

  /** What a DATA line of anyone's carries: the block that its digits spell, when the length in front of them is right, at
      most 64, and the block is clean; nothing otherwise. */
  lemma AnyDataLine(verb: nat, l: seq<byte>, w1: seq<byte>, w2: seq<byte>, w3: seq<byte>, w4: seq<byte>, off: u64, d: seq<byte>)
    requires IsWord(w1) && IsWord(w2) && IsWord(w3) && IsWord(w4)
    requires l == [0x46, 0x4A, 0x42, 0x4F, 0x58, 0x3A, 0x44, 0x41, 0x54, 0x41] + [0x20] + w1 + [0x20] + w2 + [0x20] + w3 + [0x20] + w4
    ensures HasPrefix(l, DATA) && Tok(l, 4).Some?
    ensures Payload(verb, l) == Some(Chunk(off, d)) <==>
            && off == OffsetIn(w2) && AllDigits(w3) && Decimal(w3) == |d| && 1 <= |d| <= 64
            && |w4| == 2 * |d| && (forall i: nat | i < |d| :: PairIs(w4, d, i)) && Clean(verb, d)
  {
    var w0: seq<byte> := [0x46, 0x4A, 0x42, 0x4F, 0x58, 0x3A, 0x44, 0x41, 0x54, 0x41];
    FirstWord(w0);
    Head(l, w0, w1, w2, w3, w4);
    DataWords(l, w0, w1, w2, w3, w4);
    PayloadIff(verb, l, w2, w3, w4, off, d);
  }

  lemma FirstWord(w0: seq<byte>)
    requires w0 == [0x46, 0x4A, 0x42, 0x4F, 0x58, 0x3A, 0x44, 0x41, 0x54, 0x41]
    ensures IsWord(w0) && w0 + [BLANK] == DATA
  {
  }

  lemma Head(l: seq<byte>, w0: seq<byte>, w1: seq<byte>, w2: seq<byte>, w3: seq<byte>, w4: seq<byte>)
    requires l == w0 + [BLANK] + w1 + [BLANK] + w2 + [BLANK] + w3 + [BLANK] + w4
    ensures HasPrefix(l, w0 + [BLANK])
  {
  }

  lemma DataWords(l: seq<byte>, w0: seq<byte>, w1: seq<byte>, w2: seq<byte>, w3: seq<byte>, w4: seq<byte>)
    requires IsWord(w0) && IsWord(w1) && IsWord(w2) && IsWord(w3) && IsWord(w4)
    requires l == w0 + [BLANK] + w1 + [BLANK] + w2 + [BLANK] + w3 + [BLANK] + w4
    ensures Tok(l, 4).Some? && l[Tok(l, 4).value.start..] == w4 && WordAt(l, 2) == w2 && WordAt(l, 3) == w3
  {
    Nested(l, w0, w1, w2, w3, w4);
    var l3 := w3 + [BLANK] + w4;
    var l2 := w2 + [BLANK] + l3;
    FiveWords(l, w0, w1, w2, w3, w4, w1 + [BLANK] + l2, l2, l3);
  }

  lemma PayloadIff(verb: nat, l: seq<byte>, w2: seq<byte>, w3: seq<byte>, w4: seq<byte>, off: u64, d: seq<byte>)
    requires Tok(l, 4).Some? && l[Tok(l, 4).value.start..] == w4 && WordAt(l, 2) == w2 && WordAt(l, 3) == w3
    requires IsWord(w2) && IsWord(w3) && IsWord(w4)
    ensures Payload(verb, l) == Some(Chunk(off, d)) <==>
            && off == OffsetIn(w2) && AllDigits(w3) && Decimal(w3) == |d| && 1 <= |d| <= 64
            && |w4| == 2 * |d| && (forall i: nat | i < |d| :: PairIs(w4, d, i)) && Clean(verb, d)
  {
    OffsetIs(w2);
    PayloadOf(verb, l, w2, w3, w4, off, d);
    NumberIff(w3, |d|);
  }

  lemma NumberIff(w: seq<byte>, n: nat)
    requires IsWord(w)
    ensures 1 <= n <= 64 ==> (ParseNum(w).GetOr(0) == n <==> AllDigits(w) && Decimal(w) == n)
  {
    ParseNumIff(w);
  }

  lemma OffsetIs(w: seq<byte>)
    requires IsWord(w)
    ensures ParseNum(w).GetOr(0xFFFF_FFFF_FFFF_FFFF) == OffsetIn(w)
  {
    ParseNumIff(w);
  }

  lemma PayloadOf(verb: nat, l: seq<byte>, w2: seq<byte>, w3: seq<byte>, w4: seq<byte>, off: u64, d: seq<byte>)
    requires Tok(l, 4).Some? && l[Tok(l, 4).value.start..] == w4 && WordAt(l, 2) == w2 && WordAt(l, 3) == w3
    ensures Payload(verb, l) == Some(Chunk(off, d)) <==>
            && off == ParseNum(w2).GetOr(0xFFFF_FFFF_FFFF_FFFF) && ParseNum(w3).GetOr(0) == |d| && 1 <= |d| <= 64
            && |w4| == 2 * |d| && (forall i: nat | i < |d| :: PairIs(w4, d, i)) && Clean(verb, d)
  {
    GateIff(verb, d);
    if |w4| == 2 * |d| {
      UnHexIff(w4, d);
    }
  }

  // ------------------------------------------------------------------ lines of any stream

  /** A line that reports the provider up: its third word is a numeral of value 1. */
  predicate SaysUp(l: seq<byte>) {
    && HasPrefix(l, [0x46, 0x4A, 0x42, 0x4F, 0x58, 0x3A, 0x52, 0x53, 0x50, 0x20]) && Tok(l, 2).Some?
    && AllDigits(Slice(l, Tok(l, 2).value)) && Decimal(Slice(l, Tok(l, 2).value)) == 1
  }

  /** Lines are cut at 256 bytes, and the provider counts as up exactly when a line before the END line says so. */
  lemma UpIff(verb: nat, bs: seq<byte>, lines: seq<Line>)
    requires lines == LinesFrom([], 256, bs)
    ensures Receive(verb, bs) == RunLines(START, verb, lines)
    ensures Receive(verb, bs).up <==> exists l <- Seen(lines) :: SaysUp(l.text)
  {
    ReceiveIsLines(verb, bs);
    RunUp(START, verb, lines);
  }

  lemma {:induction false} RunUp(rx: Rx, verb: nat, lines: seq<Line>)
    requires !rx.done
    ensures RunLines(rx, verb, lines).up <==> rx.up || exists l <- Seen(lines) :: SaysUp(l.text)
    decreases |lines|
  {
    if lines != [] {
      var l := lines[0].text;
      var next := LineStep(rx, verb, l);
      LineUp(rx, verb, l, next);
      StepMeaning(rx, verb, l, next);
      if !IsEnd(l) {
        RunUp(next, verb, lines[1..]);
        assert Seen(lines) == [lines[0]] + Seen(lines[1..]);
        assert lines[0] in Seen(lines);
        assert forall x <- Seen(lines[1..]) :: x in Seen(lines);
      }
    }
  }

  lemma LineUp(rx: Rx, verb: nat, l: seq<byte>, next: Rx)
    requires next == LineStep(rx, verb, l)
    ensures next.up <==> rx.up || SaysUp(l)
  {
    if Tok(l, 2).Some? {
      ParseNumIff(Slice(l, Tok(l, 2).value));
      if Slice(l, Tok(l, 2).value) == [] {
        assert Decimal(Slice(l, Tok(l, 2).value)) == 0;
      }
    }
  }
}
