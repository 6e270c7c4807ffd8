/**
 BOX-BRIDGE on values: the words and numbers of the reply lines, what the kernel's gate lets through for
 each verb, the receiver's state and its verdict at the end of a session, and what the host's sender
 puts on the wire.
 */
module BoxProtocol {
  import opened Bytes
  import opened Text

  const RSP: seq<byte> := [0x46, 0x4A, 0x42, 0x4F, 0x58, 0x3A, 0x52, 0x53, 0x50, 0x20]
  const DATA: seq<byte> := [0x46, 0x4A, 0x42, 0x4F, 0x58, 0x3A, 0x44, 0x41, 0x54, 0x41, 0x20]
  const END: seq<byte> := [0x46, 0x4A, 0x42, 0x4F, 0x58, 0x3A, 0x45, 0x4E, 0x44, 0x20]
  const LINE_MAX := 256
  const DATA_MAX := 64
  const BUF_MAX := 3072
  const ARG_MAX := 128
  const VERB_HASH := 1
  const VERB_INFO := 2
  const VERB_SIZE := 3
  const VERB_ECHO := 4
  const VERB_PDF := 5
  const VERB_FB := 6
  /** A 32 x 24 RGB24 bitmap: 54 header bytes and three bytes for each pixel. */
  const FB_LEN := 2358

  // ------------------------------------------------------------------ the gate

  predicate AsciiOk(d: seq<byte>) {
    forall c <- d :: (c >= 0x20 || c == 10 || c == 13 || c == 9) && c <= 0x7E
  }

  /** The head of an ELF or PE image. */
  predicate ExecMagic(d: seq<byte>) {
    HasPrefix(d, [0x7F, 0x45, 0x4C, 0x46]) || HasPrefix(d, [0x4D, 0x5A])
  }

  predicate GateOk(verb: nat, d: seq<byte>) {
    (verb == VERB_FB || AsciiOk(d)) && !ExecMagic(d)
  }

  predicate IsHex(d: seq<byte>) {
    forall c <- d :: HexV(c).Some?
  }

  predicate Contains(d: seq<byte>, pat: seq<byte>) {
    exists i: nat | i <= |d| :: OccursAt(d, pat, i)
  }

  predicate SchemaOk(verb: nat, d: seq<byte>, arg: seq<byte>) {
    if verb == VERB_HASH then |d| == 64 && IsHex(d)
    else if verb == VERB_INFO then |d| >= 4
    else if verb == VERB_SIZE then 0 < |d| <= 20 && AllDigits(d)
    else if verb == VERB_ECHO then d == arg
    else if verb == VERB_PDF then
      |d| >= 8 && d[..5] == [0x25, 0x50, 0x44, 0x46, 0x2D] && Contains(d, [0x25, 0x25, 0x45, 0x4F, 0x46])
    else if verb == VERB_FB then
      && |d| == FB_LEN && d[0] == 0x42 && d[1] == 0x4D
      && FromLE(d[0x02..0x06]) == FB_LEN && FromLE(d[0x0A..0x0E]) == 54
      && FromLE(d[0x12..0x16]) == 32 && FromLE(d[0x16..0x1A]) == 24 && FromLE(d[0x1C..0x1E]) == 24
    else false
  }

  // ------------------------------------------------------------------ the receiver, line by line

  datatype Chunk = Chunk(off: u64, data: seq<byte>)

  /** The receiver's state between lines. */
  datatype Rx = Rx(buf: seq<byte>, bad: bool, up: bool, done: bool)

  const START := Rx([], false, false, false)

  /** A DATA line that the receiver looks into: it has at least five words. */
  predicate IsData(l: seq<byte>) {
    HasPrefix(l, DATA) && Tok(l, 4).Some?
  }

  predicate IsEnd(l: seq<byte>) {
    HasPrefix(l, END)
  }

  function WordAt(l: seq<byte>, k: nat): seq<byte>
    requires Tok(l, 4).Some? && k <= 4
  {
    TokFewer(l, 0, k, 4);
    Slice(l, Tok(l, k).value)
  }

  /** The block a DATA line carries, when its length, its digits and its bytes pass; an unreadable offset is u64::MAX. */
  function Payload(verb: nat, l: seq<byte>): (c: Option<Chunk>)
    requires Tok(l, 4).Some?
    ensures c.Some? ==> 0 < |c.value.data| <= DATA_MAX && GateOk(verb, c.value.data)
  {
    var off := ParseNum(WordAt(l, 2)).GetOr(WRAP - 1);
    var n := ParseNum(WordAt(l, 3)).GetOr(0);
    var d := l[Tok(l, 4).value.start..];
    if n > DATA_MAX || n * 2 != |d| then None
    else
      var block := UnHex(d);
      if block.Some? && GateOk(verb, block.value) then Some(Chunk(off, block.value)) else None
  }

  /** A block is taken when it continues the buffer and fits; anything else spoils the session. */
  function Accept(rx: Rx, c: Option<Chunk>): Rx {
    if c.Some? && c.value.off == |rx.buf| && |rx.buf| + |c.value.data| <= BUF_MAX
    then rx.(buf := rx.buf + c.value.data)
    else rx.(bad := true)
  }

  function LineStep(rx: Rx, verb: nat, l: seq<byte>): Rx {
    if HasPrefix(l, RSP) then
      if Tok(l, 2).Some? && ParseNum(Slice(l, Tok(l, 2).value)) == Some(1) then rx.(up := true) else rx
    else if HasPrefix(l, DATA) then
      if Tok(l, 4).Some? then Accept(rx, Payload(verb, l)) else rx
    else if HasPrefix(l, END) then rx.(done := true)
    else rx
  }

  function RunLines(rx: Rx, verb: nat, lines: seq<Line>): Rx
    decreases |lines|
  {
    if lines == [] || rx.done then rx else RunLines(LineStep(rx, verb, lines[0].text), verb, lines[1..])
  }

  // ------------------------------------------------------------------ the receiver, byte by byte

  datatype Assembler = Assembler(line: seq<byte>, rx: Rx)

  function ByteStep(a: Assembler, verb: nat, b: byte): Assembler {
    if b == NL then Assembler([], LineStep(a.rx, verb, a.line))
    else if |a.line| < LINE_MAX then a.(line := a.line + [b])
    else a
  }

  /** The receive loop over the bytes that arrive in time; it stops at the END line. */
  function Feed(a: Assembler, verb: nat, bs: seq<byte>): Assembler
    decreases bs
  {
    if bs == [] || a.rx.done then a else Feed(ByteStep(a, verb, bs[0]), verb, bs[1..])
  }

  function Receive(verb: nat, bs: seq<byte>): Rx {
    Feed(Assembler([], START), verb, bs).rx
  }

  /** -4: no END in time; -2: quarantined or empty; -3: the schema does not hold; 0: accepted. */
  function Verdict(verb: nat, arg: seq<byte>, rx: Rx): int {
    if !rx.done then -4
    else if rx.bad || rx.buf == [] then -2
    else if !SchemaOk(verb, rx.buf, arg) then -3
    else 0
  }

  // ------------------------------------------------------------------ what the lines say, without any state

  /** The lines up to the first END line. */
  function Seen(lines: seq<Line>): seq<Line> {
    if lines == [] || IsEnd(lines[0].text) then [] else [lines[0]] + Seen(lines[1..])
  }

  predicate HasEnd(lines: seq<Line>) {
    exists l <- lines :: IsEnd(l.text)
  }

  function Chunks(verb: nat, lines: seq<Line>): seq<Option<Chunk>> {
    if lines == [] then []
    else (if IsData(lines[0].text) then [Payload(verb, lines[0].text)] else []) + Chunks(verb, lines[1..])
  }

  /** All blocks present, each at the place where the ones before it end, and none past the buffer. */
  predicate InOrder(cs: seq<Option<Chunk>>, at: nat) {
    cs == [] || (cs[0].Some? && cs[0].value.off == at && at + |cs[0].value.data| <= BUF_MAX
                 && InOrder(cs[1..], at + |cs[0].value.data|))
  }

  function Whole(cs: seq<Option<Chunk>>): seq<byte> {
    if cs == [] then [] else (if cs[0].Some? then cs[0].value.data else []) + Whole(cs[1..])
  }

  // ------------------------------------------------------------------ the sender

  function RspLine(seqNo: nat): seq<byte> {
    RSP + Dec(seqNo) + [BLANK, 0x31]
  }

  function DataLine(seqNo: nat, off: nat, block: seq<byte>): seq<byte> {
    DATA + Dec(seqNo) + [BLANK] + Dec(off) + [BLANK] + Dec(|block|) + [BLANK] + HexOf(block)
  }

  function EndLine(seqNo: nat): seq<byte> {
    END + Dec(seqNo)
  }

  function Block(prod: seq<byte>, off: nat): (b: seq<byte>)
    requires off < |prod|
    ensures 0 < |b| <= DATA_MAX && off + |b| <= |prod|
  {
    prod[off..Min(off + DATA_MAX, |prod|)]
  }

  /** The DATA lines from offset off on, and the END line. */
  function Tail(seqNo: nat, prod: seq<byte>, off: nat): seq<byte>
    requires off <= |prod|
    decreases |prod| - off
  {
    if off == |prod| then EndLine(seqNo) + [NL]
    else DataLine(seqNo, off, Block(prod, off)) + [NL] + Tail(seqNo, prod, off + |Block(prod, off)|)
  }

  /** Everything `serve_transport` sends for one product. */
  function Sent(seqNo: nat, prod: seq<byte>): seq<byte> {
    RspLine(seqNo) + [NL] + Tail(seqNo, prod, 0)
  }
}
