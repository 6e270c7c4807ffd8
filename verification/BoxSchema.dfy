/** Which products BOX-BRIDGE accepts, verb by verb, told on their bytes. */
module BoxSchema {
  import opened Bytes
  import opened Text
  import opened BoxProtocol
  import opened BoxProofs

  // ------------------------------------------------------------------ what gets past the gate

  /** Tab, newline, carriage return, and the printable characters. */
  predicate TextByte(c: byte) {
    c in {9, 10, 13} || 0x20 <= c <= 0x7E
  }

  /** A block begins neither like an ELF nor like a PE image, and is text unless a picture is asked for. */
  predicate Clean(verb: nat, d: seq<byte>) {
    && (verb == 6 || forall i | 0 <= i < |d| :: TextByte(d[i]))
    && !(|d| >= 4 && d[0] == 0x7F && d[1] == 0x45 && d[2] == 0x4C && d[3] == 0x46)
    && !(|d| >= 2 && d[0] == 0x4D && d[1] == 0x5A)
  }

  /** Between 1 and 3072 bytes, clean from every multiple of 64 on. */
  predicate Passable(verb: nat, p: seq<byte>) {
    1 <= |p| <= 3072 && forall k | 0 <= k < |p| && k % 64 == 0 :: Clean(verb, p[k..Min(k + 64, |p|)])
  }

  lemma GateIff(verb: nat, d: seq<byte>)
    ensures GateOk(verb, d) <==> Clean(verb, d)
  {
    HeadIff(d, [0x7F, 0x45, 0x4C, 0x46]);
    HeadIff(d, [0x4D, 0x5A]);
    if AsciiOk(d) {
      assert forall i | 0 <= i < |d| :: d[i] in d;
    }
  }

  lemma HeadIff(d: seq<byte>, head: seq<byte>)
    ensures HasPrefix(d, head) <==> |head| <= |d| && forall i | 0 <= i < |head| :: d[i] == head[i]
  {
    if HasPrefix(d, head) {
      assert forall i | 0 <= i < |head| :: d[0..|head|][i] == head[i];
    }
  }

  /** Quarantined, or decided by the schema. */
  lemma SchemaDecides(verb: nat, arg: seq<byte>, seqNo: u64, p: seq<byte>)
    ensures Verdict(verb, arg, Receive(verb, Sent(seqNo, p))) ==
            if !Passable(verb, p) then -2 else if SchemaOk(verb, p, arg) then 0 else -3
  {
    SentVerdict(verb, arg, seqNo, p);
    BlocksClean(verb, p);
  }

  predicate SomeUnclean(verb: nat, p: seq<byte>) {
    exists k | 0 <= k < |p| && k % DATA_MAX == 0 :: !GateOk(verb, Block(p, k))
  }

  lemma BlocksClean(verb: nat, p: seq<byte>)
    ensures Passable(verb, p) <==> 1 <= |p| <= 3072 && !SomeUnclean(verb, p)
  {
    if SomeUnclean(verb, p) {
      var k :| 0 <= k < |p| && k % DATA_MAX == 0 && !GateOk(verb, Block(p, k));
      GateIff(verb, Block(p, k));
      assert !Clean(verb, p[k..Min(k + 64, |p|)]);
    } else {
      forall k | 0 <= k < |p| && k % 64 == 0
        ensures Clean(verb, p[k..Min(k + 64, |p|)])
      {
        GateIff(verb, Block(p, k));
      }
    }
  }

  // ------------------------------------------------------------------ the schemas

  predicate HexByte(c: byte) {
    0x30 <= c <= 0x39 || 0x41 <= c <= 0x46 || 0x61 <= c <= 0x66
  }

  /** Verb 1: exactly 64 hexadecimal digits; these always get past the gate. */
  lemma HashVerdict(arg: seq<byte>, seqNo: u64, p: seq<byte>)
    ensures Passable(1, p) ==> Verdict(1, arg, Receive(1, Sent(seqNo, p))) in {0, -3}
    ensures Verdict(1, arg, Receive(1, Sent(seqNo, p))) == 0 <==> |p| == 64 && forall i | 0 <= i < 64 :: HexByte(p[i])
  {
    SchemaDecides(1, arg, seqNo, p);
    assert forall i | 0 <= i < |p| :: p[i] in p;
    assert IsHex(p) <==> forall i | 0 <= i < |p| :: HexByte(p[i]);
    if |p| == 64 {
      assert p[0..64] == p;
    }
  }

  /** Verb 2: four bytes or more. */
  lemma InfoVerdict(arg: seq<byte>, seqNo: u64, p: seq<byte>)
    requires Passable(2, p)
    ensures Verdict(2, arg, Receive(2, Sent(seqNo, p))) == if |p| >= 4 then 0 else -3
  {
    SchemaDecides(2, arg, seqNo, p);
  }

  /** Verb 3: one to twenty decimal digits; these always get past the gate. */
  lemma SizeVerdict(arg: seq<byte>, seqNo: u64, p: seq<byte>)
    ensures Passable(3, p) ==> Verdict(3, arg, Receive(3, Sent(seqNo, p))) in {0, -3}
    ensures Verdict(3, arg, Receive(3, Sent(seqNo, p))) == 0 <==>
            1 <= |p| <= 20 && forall i | 0 <= i < |p| :: 0x30 <= p[i] <= 0x39
  {
    SchemaDecides(3, arg, seqNo, p);
    if 1 <= |p| <= 20 {
      assert p[0..|p|] == p;
    }
  }

  /** So the size of every argument is accepted as the host prints it. */
  lemma SizeAccepted(arg: seq<byte>, seqNo: u64, n: nat)
    requires n < 100_000_000_000_000_000_000
    ensures Verdict(3, arg, Receive(3, Sent(seqNo, Dec(n)))) == 0
  {
    Pow10Values();
    DecLength(n, 20);
    SizeVerdict(arg, seqNo, Dec(n));
    assert forall i | 0 <= i < |Dec(n)| :: IsDigit(Dec(n)[i]);
  }

  /** Verb 4: the argument itself. */
  lemma EchoVerdict(arg: seq<byte>, seqNo: u64, p: seq<byte>)
    requires Passable(4, p)
    ensures Verdict(4, arg, Receive(4, Sent(seqNo, p))) == if p == arg then 0 else -3
  {
    SchemaDecides(4, arg, seqNo, p);
  }

  /** "%%EOF" at position i */
  predicate EofAt(p: seq<byte>, i: nat) {
    i + 5 <= |p| && p[i] == p[i + 1] == 0x25 && p[i + 2] == 0x45 && p[i + 3] == 0x4F && p[i + 4] == 0x46
  }

  lemma EofIff(p: seq<byte>, eof: seq<byte>, i: nat)
    requires eof == [0x25, 0x25, 0x45, 0x4F, 0x46]
    ensures OccursAt(p, eof, i) <==> EofAt(p, i)
  {
    if i + 5 <= |p| {
      assert p[i..i + 5] == [p[i], p[i + 1], p[i + 2], p[i + 3], p[i + 4]];
    }
  }

  /** Verb 5: at least eight bytes that begin with "%PDF-" and have "%%EOF" in them. */
  lemma PdfVerdict(arg: seq<byte>, seqNo: u64, p: seq<byte>)
    requires Passable(5, p)
    ensures Verdict(5, arg, Receive(5, Sent(seqNo, p))) ==
            if |p| >= 8 && p[..5] == [0x25, 0x50, 0x44, 0x46, 0x2D] && exists i: nat :: EofAt(p, i) then 0 else -3
  {
    SchemaDecides(5, arg, seqNo, p);
    var eof: seq<byte> := [0x25, 0x25, 0x45, 0x4F, 0x46];
    forall i: nat
      ensures OccursAt(p, eof, i) <==> EofAt(p, i)
    {
      EofIff(p, eof, i);
    }
    if exists i: nat :: EofAt(p, i) {
      var i: nat :| EofAt(p, i);
      assert i <= |p| && OccursAt(p, eof, i);
    }
  }

  /** Verb 6: a bitmap of 2358 bytes whose header says so, with the pixels at byte 54, 32 wide, 24 high, 24 bits each. */
  predicate Picture(p: seq<byte>) {
    && |p| == 2358 && p[0] == 0x42 && p[1] == 0x4D
    && p[0x02..0x06] == LE(2358, 4) && p[0x0A..0x0E] == LE(54, 4)
    && p[0x12..0x16] == LE(32, 4) && p[0x16..0x1A] == LE(24, 4) && p[0x1C..0x1E] == LE(24, 2)
  }

  lemma PictureVerdict(arg: seq<byte>, seqNo: u64, p: seq<byte>)
    requires Passable(6, p)
    ensures Verdict(6, arg, Receive(6, Sent(seqNo, p))) == if Picture(p) then 0 else -3
  {
    SchemaDecides(6, arg, seqNo, p);
    if |p| == 2358 {
      FieldIs(p[0x02..0x06], 2358, 4);
      FieldIs(p[0x0A..0x0E], 54, 4);
      FieldIs(p[0x12..0x16], 32, 4);
      FieldIs(p[0x16..0x1A], 24, 4);
      FieldIs(p[0x1C..0x1E], 24, 2);
    }
  }

  lemma FieldIs(f: seq<byte>, v: nat, n: nat)
    requires |f| == n && n in {2, 4} && v < 0x1_0000
    ensures FromLE(f) == v <==> f == LE(v, n)
  {
    RadixValues();
    LEofFromLE(f);
    FromLEofLE(v, n);
  }

  /** No verb but these six is ever accepted. */
  lemma OtherVerdict(verb: nat, arg: seq<byte>, seqNo: u64, p: seq<byte>)
    requires !(1 <= verb <= 6)
    ensures Verdict(verb, arg, Receive(verb, Sent(seqNo, p))) == if Passable(verb, p) then -3 else -2
  {
    SchemaDecides(verb, arg, seqNo, p);
  }

  // ------------------------------------------------------------------ the host's own bitmap

  function ChannelByte(x: nat, y: nat, channel: nat): byte {
    if channel == 0 then (x * 7 + y * 3) % 256
    else if channel == 1 then (y * 9 + x * 5) % 256
    else (x + y) * 5 % 256
  }

  /** Byte o of the pixels that the host draws: three for each of 32 pixels in each of 24 rows. */
  function PixelByte(o: nat): byte {
    ChannelByte(o / 3 % 32, o / 96, o % 3)
  }

  function HostBitmap(): (p: seq<byte>)
    ensures |p| == 2358
  {
    BitmapHeader() + Pixels()
  }

  function Pixels(): (s: seq<byte>)
    ensures |s| == 2304
  {
    seq(2304, o requires 0 <= o < 2304 => PixelByte(o))
  }

  function BitmapHeader(): (h: seq<byte>)
    ensures |h| == 54
  {
    [0x42, 0x4D] + LE(2358, 4) + LE(0, 4) + LE(54, 4) + LE(40, 4) + LE(32, 4) + LE(24, 4) + LE(1, 2) + LE(24, 2)
    + [0, 0, 0, 0, 0, 0, 0, 0, 0, 0, 0, 0, 0, 0, 0, 0, 0, 0, 0, 0, 0, 0, 0, 0]
  }

  lemma PixelAt(o: nat, x: nat, y: nat, channel: nat)
    requires x < 32 && channel < 3 && o == 96 * y + 3 * x + channel
    ensures PixelByte(o) == ChannelByte(x, y, channel)
  {
    assert o / 3 == 32 * y + x && o / 96 == o / 3 / 32;
  }

  lemma HeadValues(q: nat)
    requires q < 12
    ensures ChannelByte(3, 2 * q, 1) == 18 * q + 15 && ChannelByte(24, 2 * q, 2) == 10 * q + 120
    ensures ChannelByte(14, 2 * q + 1, 0) == 6 * q + 101
  {
  }

  /** The pixel byte at which a block begins: three blocks cover two rows. */
  lemma HeadByte(q: nat, r: nat, o: nat)
    requires q < 12 && r < 3 && o == 192 * q + 64 * r + 10
    ensures PixelByte(o) != 0x4D && PixelByte(o) != 0x7F
  {
    HeadValues(q);
    if r == 0 {
      PixelAt(o, 3, 2 * q, 1);
    } else if r == 1 {
      PixelAt(o, 24, 2 * q, 2);
    } else {
      PixelAt(o, 14, 2 * q + 1, 0);
    }
  }

  /** What the host sends for verb 6 is accepted. */
  lemma HostBitmapAccepted(arg: seq<byte>, seqNo: u64)
    ensures Verdict(6, arg, Receive(6, Sent(seqNo, HostBitmap()))) == 0
  {
    HostBitmapClean(HostBitmap());
    HostBitmapPicture(HostBitmap(), BitmapHeader());
    PictureVerdict(arg, seqNo, HostBitmap());
  }

  lemma HostBitmapClean(p: seq<byte>)
    requires p == HostBitmap()
    ensures Passable(6, p)
  {
    HeaderFields(BitmapHeader());
    assert p[0] == BitmapHeader()[0];
    forall k | 0 <= k < |p| && k % 64 == 0
      ensures Clean(6, p[k..Min(k + 64, |p|)])
    {
      if k > 0 {
        BlockHead(k);
      }
      HeadOf(p, k, Min(k + 64, |p|));
    }
  }

  /** The byte at which a block begins is neither the first of "MZ" nor that of an ELF head. */
  lemma BlockHead(k: nat)
    requires 0 < k < 2358 && k % 64 == 0
    ensures HostBitmap()[k] != 0x4D && HostBitmap()[k] != 0x7F
  {
    var q, r := ThirdOf(k);
    HeadByte(q, r, k - 54);
    PixelIn(k - 54);
  }

  lemma ThirdOf(k: nat) returns (q: nat, r: nat)
    requires 0 < k < 2358 && k % 64 == 0
    ensures q < 12 && r < 3 && k - 54 == 192 * q + 64 * r + 10
  {
    var j := k / 64 - 1;
    q, r := j / 3, j % 3;
    assert j == 3 * q + r && k == 64 * j + 64;
  }

  lemma PixelIn(o: nat)
    requires o < 2304
    ensures HostBitmap()[54 + o] == PixelByte(o)
  {
    assert HostBitmap()[54 + o] == Pixels()[o];
  }

  lemma HeadOf(p: seq<byte>, k: nat, end: nat)
    requires k < end <= |p| && |p| >= 2 && p[k] != 0x4D && p[k] != 0x7F
    ensures Clean(6, p[k..end])
  {
    assert p[k..end][0] == p[k];
  }

  lemma HostBitmapPicture(p: seq<byte>, h: seq<byte>)
    requires p == HostBitmap() && h == BitmapHeader()
    ensures Picture(p)
  {
    HeaderFields(h);
    assert p[..54] == h;
    assert p[0] == h[0] && p[1] == h[1];
    assert p[0x02..0x06] == h[0x02..0x06] && p[0x0A..0x0E] == h[0x0A..0x0E] && p[0x12..0x16] == h[0x12..0x16];
    assert p[0x16..0x1A] == h[0x16..0x1A] && p[0x1C..0x1E] == h[0x1C..0x1E];
  }

  lemma HeaderFields(h: seq<byte>)
    requires h == BitmapHeader()
    ensures h[0] == 0x42 && h[1] == 0x4D && h[0x02..0x06] == LE(2358, 4) && h[0x0A..0x0E] == LE(54, 4)
    ensures h[0x12..0x16] == LE(32, 4) && h[0x16..0x1A] == LE(24, 4) && h[0x1C..0x1E] == LE(24, 2)
  {
    var zeros: seq<byte> := [0, 0, 0, 0, 0, 0, 0, 0, 0, 0, 0, 0, 0, 0, 0, 0, 0, 0, 0, 0, 0, 0, 0, 0];
    Fields(h, [0x42, 0x4D], LE(2358, 4), LE(0, 4), LE(54, 4), LE(40, 4), LE(32, 4), LE(24, 4), LE(1, 2), LE(24, 2), zeros);
    assert h[0] == h[..2][0] && h[1] == h[..2][1];
  }

  lemma Fields(h: seq<byte>, a: seq<byte>, b: seq<byte>, c: seq<byte>, d: seq<byte>, e: seq<byte>, f: seq<byte>,
               g: seq<byte>, i: seq<byte>, j: seq<byte>, rest: seq<byte>)
    requires h == a + b + c + d + e + f + g + i + j + rest && |a| == |i| == |j| == 2
    requires |b| == |c| == |d| == |e| == |f| == |g| == 4
    ensures h[..2] == a && h[0x02..0x06] == b && h[0x0A..0x0E] == d && h[0x12..0x16] == f && h[0x16..0x1A] == g
    ensures h[0x1C..0x1E] == j
  {
  }
}
