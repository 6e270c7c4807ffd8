/**
 A FUJR container byte by byte: the fields of its header and of each section entry, where the parts lie
 and what fills the room between them, and the hash of the sections told by its rounds, bit by bit, down
 to a known string.
 */
module FujrBytes {
  import opened Bytes
  import Fnv
  import opened FujrLayout
  import FujrProofs

  /** Exclusive or, bit by bit. */
  lemma {:induction false} XorBits(a: nat, b: nat, k: nat)
    ensures TestBit(Fnv.Xor(a, b), k) <==> TestBit(a, k) != TestBit(b, k)
  {
    if k > 0 {
      Fnv.XorHalves(a, b);
      XorBits(a / 2, b / 2, k - 1);
    } else {
      Fnv.XorHalves(a, b);
    }
  }

  /** FNV-1a: from 0x811C9DC5 on, each byte is or-ed in exclusively and the result multiplied by 16777619 in 32 bits. */
  lemma HashRounds(s: seq<byte>, b: byte)
    ensures Fnv.Hash([]) == 0x811C9DC5
    ensures Fnv.Hash(s + [b]) == Fnv.Xor(Fnv.Hash(s), b) * 16777619 % 0x1_0000_0000
  {
    assert (s + [b])[..|s|] == s;
  }

  /** The hash of "a". */
  lemma HashOfA()
    ensures Fnv.Hash([0x61]) == 0xE40C292C
  {
    HashRounds([], 0x61);
    assert [] + [0x61] == [0x61];
    assert Fnv.Xor(0x204_7277, 1) == 0x204_7276;
    assert Fnv.Xor(0x408E_4EE, 0x3) == 0x408E_4ED;
    assert Fnv.Xor(0x811C_9DC, 0x6) == 0x811C_9DA;
    assert Fnv.Xor(0x811C_9DC5, 0x61) == 0x811C_9DA4;
  }

  /** The 64 header bytes: "FUJR", version 0.1, number of sections, where the payload starts, length of the file, identity,
      flags, manifest index, the two architectures, source format, zeros. */
  lemma HeaderBytes(parts: seq<RunPart>, m: RunMeta, b: seq<byte>)
    requires Fits(parts) && b == WriteRun(parts, m)
    ensures |b| >= 64 + 32 * |parts|
    ensures b[0..4] == [0x46, 0x55, 0x4A, 0x52] && b[4..8] == [0, 0, 1, 0] && b[8..12] == LE(|parts|, 4)
    ensures b[12..20] == LE(64 + 32 * |parts|, 8) && b[20..28] == LE(|b|, 8) && b[28..44] == m.uid
    ensures b[44..48] == LE(m.flags, 4) && b[48..52] == LE(m.manifestIndex, 4) && b[52..54] == LE(m.targetArch, 2)
    ensures b[54..56] == LE(m.baseArch, 2) && b[56..60] == LE(m.sourceFormat, 4) && b[60..64] == [0, 0, 0, 0]
  {
    var n := |parts|;
    var start, end := HeaderStart(n, Head(n), Total(parts)), HeaderEnd(m);
    var rest := Table(Sections(parts)) + Payload(Head(n), parts);
    Three(b, start, m.uid, end, Table(Sections(parts)), Payload(Head(n), parts));
    StartFields(start, n, Head(n), Total(parts));
    EndFields(end, m);
    Within(b, 0, start);
    Within(b, 44, end);
  }

  lemma Three(b: seq<byte>, s: seq<byte>, u: seq<byte>, e: seq<byte>, t: seq<byte>, p: seq<byte>)
    requires b == s + u + e + t + p && |s| == 28 && |u| == 16 && |e| == 20
    ensures b[0..28] == s && b[28..44] == u && b[44..64] == e && b[64..64 + |t|] == t && b[64 + |t|..] == p
  {
  }

  lemma Within(b: seq<byte>, at: nat, f: seq<byte>)
    requires at + |f| <= |b| && b[at..at + |f|] == f
    ensures forall i, j | 0 <= i <= j <= |f| :: b[at + i..at + j] == f[i..j]
  {
    forall i, j | 0 <= i <= j <= |f|
      ensures b[at + i..at + j] == f[i..j]
    {
      FujrProofs.Sub(b, f, at, i, j);
    }
  }

  lemma StartFields(s: seq<byte>, count: u32, headerSize: u64, total: u64)
    requires s == HeaderStart(count, headerSize, total)
    ensures s[0..4] == [0x46, 0x55, 0x4A, 0x52] && s[4..8] == [0, 0, 1, 0] && s[8..12] == LE(count, 4)
    ensures s[12..20] == LE(headerSize, 8) && s[20..28] == LE(total, 8)
  {
    assert LE(0, 2) == [0, 0] && LE(1, 2) == [1, 0];
    SixFields(s, MAGIC, [0, 0], [1, 0], LE(count, 4), LE(headerSize, 8), LE(total, 8));
  }

  lemma SixFields(s: seq<byte>, a: seq<byte>, b: seq<byte>, c: seq<byte>, d: seq<byte>, e: seq<byte>, f: seq<byte>)
    requires s == a + b + c + d + e + f && |a| == |d| == 4 && |b| == |c| == 2 && |e| == |f| == 8
    ensures s[0..4] == a && s[4..8] == b + c && s[8..12] == d && s[12..20] == e && s[20..28] == f
  {
  }

  lemma EndFields(s: seq<byte>, m: RunMeta)
    requires s == HeaderEnd(m)
    ensures s[0..4] == LE(m.flags, 4) && s[4..8] == LE(m.manifestIndex, 4) && s[8..10] == LE(m.targetArch, 2)
    ensures s[10..12] == LE(m.baseArch, 2) && s[12..16] == LE(m.sourceFormat, 4) && s[16..20] == [0, 0, 0, 0]
  {
    assert LE(0, 4) == [0, 0, 0, 0];
  }

  /** When the header is in order: 64 bytes or more, the magic, the size of the head, the length of the file, and room for
      the table. */
  lemma GoodHeaderIff(b: seq<byte>)
    ensures HeaderFault(b).None? <==>
            && |b| >= 64 && b[0..4] == [0x46, 0x55, 0x4A, 0x52]
            && FromLE(b[12..20]) == 64 + 32 * FromLE(b[8..12]) && FromLE(b[20..28]) == |b|
            && 64 + 32 * FromLE(b[8..12]) <= |b|
  {
  }

  /** The 32 bytes of section i: tag, flags, where it lies, its size, its hash, zeros. */
  lemma EntryBytes(parts: seq<RunPart>, m: RunMeta, b: seq<byte>, i: nat, at: nat)
    requires Fits(parts) && b == WriteRun(parts, m) && i < |parts| && at == 64 + 32 * i
    ensures at + 32 <= |b|
    ensures var p := parts[i];
            && b[at..at + 4] == LE(p.tag, 4) && b[at + 4..at + 8] == LE(p.flags, 4)
            && b[at + 8..at + 16] == LE(OffsetOf(64 + 32 * |parts|, parts, i), 8) && b[at + 16..at + 24] == LE(|p.data|, 8)
            && b[at + 24..at + 28] == LE(Fnv.Hash(p.data), 4) && b[at + 28..at + 32] == [0, 0, 0, 0]
  {
    var n, ss := |parts|, Sections(parts);
    Three(b, HeaderStart(n, Head(n), Total(parts)), m.uid, HeaderEnd(m), Table(ss), Payload(Head(n), parts));
    FujrProofs.TableEntry(ss, i);
    FujrProofs.Sub(b, Table(ss), 64, 32 * i, 32 * (i + 1));
    SectionFields(ss[i], EncodeSection(ss[i]));
    Within(b, at, EncodeSection(ss[i]));
  }

  lemma SectionFields(s: Section, e: seq<byte>)
    requires e == EncodeSection(s)
    ensures e[0..4] == LE(s.tag, 4) && e[4..8] == LE(s.flags, 4) && e[8..16] == LE(s.offset, 8) && e[16..24] == LE(s.size, 8)
    ensures e[24..28] == LE(s.hash, 4) && e[28..32] == [0, 0, 0, 0]
  {
    assert LE(0, 4) == [0, 0, 0, 0];
    FujrProofs.Fields(e, LE(s.tag, 4), LE(s.flags, 4), LE(s.offset, 8), LE(s.size, 8), LE(s.hash, 4), LE(0, 4));
  }

  /** The first part lies right behind the table, each other one at the first multiple of 4096 behind the one before it, and
      the file ends on one. */
  lemma PlaceOf(head: nat, parts: seq<RunPart>, i: nat)
    requires i <= |parts|
    ensures i == 0 ==> OffsetOf(head, parts, i) == head
    ensures i > 0 ==> var end := OffsetOf(head, parts, i - 1) + |parts[i - 1].data|;
                      OffsetOf(head, parts, i) % 4096 == 0 && end <= OffsetOf(head, parts, i) < end + 4096
  {
    if i > 0 {
      assert parts[..i][..i - 1] == parts[..i - 1];
    } else {
      assert parts[..0] == [];
    }
  }

  /** What fills the room between a part and the next one, or the end of the file, is zeros. */
  lemma {:induction false} PaddingZero(head: nat, parts: seq<RunPart>, i: nat, p: nat)
    requires i < |parts|
    requires OffsetOf(head, parts, i) + |parts[i].data| <= p < OffsetOf(head, parts, i + 1)
    ensures p - head < |Payload(head, parts)| && Payload(head, parts)[p - head] == 0
    decreases |parts|
  {
    var n := |parts| - 1;
    assert parts[..|parts|] == parts;
    if i < n {
      assert parts[..n][..i] == parts[..i] && parts[..n][..i + 1] == parts[..i + 1];
      PaddingZero(head, parts[..n], i, p);
    }
  }
}
