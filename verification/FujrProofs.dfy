/** What the two readers make of a container: round trip, agreement, and the rejection of any altered byte. */
module FujrProofs {
  import opened Bytes
  import opened FujrLayout
  import Fnv

  // ------------------------------------------------------------------ round trip

  /** A slice of a slice. */
  lemma Sub(b: seq<byte>, t: seq<byte>, lo: nat, i: nat, j: nat)
    requires lo + |t| <= |b| && t == b[lo..lo + |t|] && i <= j <= |t|
    ensures b[lo + i..lo + j] == t[i..j]
  {
    forall k | 0 <= k < j - i
      ensures b[lo + i..lo + j][k] == t[i..j][k]
    {
      assert t[i + k] == b[lo + i + k];
    }
  }

  /** Six fields laid end to end are found again at their places. */
  lemma Fields(h: seq<byte>, f0: seq<byte>, f1: seq<byte>, f2: seq<byte>, f3: seq<byte>, f4: seq<byte>, f5: seq<byte>)
    requires h == f0 + f1 + f2 + f3 + f4 + f5
    ensures var i1 := |f0|; var i2 := i1 + |f1|; var i3 := i2 + |f2|; var i4 := i3 + |f3|; var i5 := i4 + |f4|;
            && h[0..i1] == f0 && h[i1..i2] == f1 && h[i2..i3] == f2 && h[i3..i4] == f3 && h[i4..i5] == f4
            && h[i5..i5 + |f5|] == f5
  {
  }

  lemma SectionRoundTrip(s: Section)
    ensures DecodeSection(EncodeSection(s)) == s
  {
    RadixValues();
    var e := EncodeSection(s);
    Fields(e, LE(s.tag, 4), LE(s.flags, 4), LE(s.offset, 8), LE(s.size, 8), LE(s.hash, 4), LE(0, 4));
    FromLEofLE(s.tag, 4);
    FromLEofLE(s.flags, 4);
    FromLEofLE(s.offset, 8);
    FromLEofLE(s.size, 8);
    FromLEofLE(s.hash, 4);
  }

  lemma {:induction false} TableEntry(ss: seq<Section>, i: nat)
    requires i < |ss|
    ensures Table(ss)[32 * i..32 * (i + 1)] == EncodeSection(ss[i])
  {
    var n := |ss| - 1;
    if i < n {
      TableEntry(ss[..n], i);
    }
    Appended(Table(ss[..n]), EncodeSection(ss[n]), 32 * i);
  }

  lemma Appended(t: seq<byte>, e: seq<byte>, at: nat)
    requires |e| == 32 && at <= |t|
    ensures at == |t| ==> (t + e)[at..at + 32] == e
    ensures at + 32 <= |t| ==> (t + e)[at..at + 32] == t[at..at + 32]
  {
  }

  lemma EntrySlice(b: seq<byte>, t: seq<byte>, i: nat)
    requires 64 + |t| <= |b| && t == b[64..64 + |t|] && 32 * (i + 1) <= |t|
    ensures b[Head(i)..Head(i + 1)] == t[32 * i..32 * (i + 1)]
  {
    Sub(b, t, 64, 32 * i, 32 * (i + 1));
  }

  lemma EntryReadBack(b: seq<byte>, ss: seq<Section>, i: nat, t: seq<byte>, e: seq<byte>)
    requires Head(|ss|) <= |b| && b[64..Head(|ss|)] == t && |t| == 32 * |ss|
    requires i < |ss| && t[32 * i..32 * (i + 1)] == e && |e| == 32 && DecodeSection(e) == ss[i]
    ensures EntryAt(b, i) == ss[i]
  {
    EntrySlice(b, t, i);
  }

  lemma TableReadBack(b: seq<byte>, ss: seq<Section>)
    requires Head(|ss|) <= |b| && b[64..Head(|ss|)] == Table(ss)
    ensures TableAt(b, |ss|) == ss
  {
    forall i | 0 <= i < |ss|
      ensures EntryAt(b, i) == ss[i]
    {
      TableEntry(ss, i);
      SectionRoundTrip(ss[i]);
      EntryReadBack(b, ss, i, Table(ss), EncodeSection(ss[i]));
    }
  }

  lemma {:induction false} PayloadPart(head: nat, parts: seq<RunPart>, i: nat)
    requires i < |parts|
    ensures OffsetOf(head, parts, i) + |parts[i].data| <= head + |Payload(head, parts)|
    ensures Payload(head, parts)[OffsetOf(head, parts, i) - head..][..|parts[i].data|] == parts[i].data
    decreases |parts|
  {
    var n := |parts| - 1;
    assert parts[..|parts|] == parts;
    OffsetsGrow(head, parts, i, |parts|);
    var before := Payload(head, parts[..n]);
    var pad := Zeros(PadLen(head + |before + parts[n].data|));
    assert Payload(head, parts) == before + parts[n].data + pad;
    if i < n {
      PayloadPart(head, parts[..n], i);
      assert parts[..n][..i] == parts[..i];
      Within(before, parts[n].data, pad, OffsetOf(head, parts, i) - head, |parts[i].data|);
    } else {
      Behind(before, parts[n].data, pad);
    }
  }

  lemma Behind(before: seq<byte>, d: seq<byte>, pad: seq<byte>)
    ensures (before + d + pad)[|before|..][..|d|] == d
  {
  }

  lemma Within(s: seq<byte>, t: seq<byte>, u: seq<byte>, at: nat, n: nat)
    requires at + n <= |s|
    ensures (s + t + u)[at..][..n] == s[at..][..n]
  {
  }

  lemma HeaderStartReadBack(b: seq<byte>, h: seq<byte>, count: u32, headerSize: u64, total: u64)
    requires |b| >= 28 && b[..28] == h == HeaderStart(count, headerSize, total)
    ensures b[0..4] == MAGIC && U16At(b, 4) == 0 && U16At(b, 6) == 1 && U32At(b, 8) == count
    ensures U64At(b, 12) == headerSize && U64At(b, 20) == total
  {
    RadixValues();
    HeaderStartFields(b, h, LE(0, 2), LE(1, 2), LE(count, 4), LE(headerSize, 8), LE(total, 8));
    FromLEofLE(0, 2);
    FromLEofLE(1, 2);
    FromLEofLE(count, 4);
    FromLEofLE(headerSize, 8);
    FromLEofLE(total, 8);
  }

  lemma HeaderStartFields(b: seq<byte>, h: seq<byte>, f1: seq<byte>, f2: seq<byte>, f3: seq<byte>, f4: seq<byte>, f5: seq<byte>)
    requires |b| >= 28 && b[..28] == h == MAGIC + f1 + f2 + f3 + f4 + f5
    requires |f1| == 2 && |f2| == 2 && |f3| == 4 && |f4| == 8 && |f5| == 8
    ensures b[0..4] == MAGIC && b[4..6] == f1 && b[6..8] == f2 && b[8..12] == f3 && b[12..20] == f4 && b[20..28] == f5
  {
    Fields(h, MAGIC, f1, f2, f3, f4, f5);
    Sub(b, h, 0, 0, 4);
    Sub(b, h, 0, 4, 6);
    Sub(b, h, 0, 6, 8);
    Sub(b, h, 0, 8, 12);
    Sub(b, h, 0, 12, 20);
    Sub(b, h, 0, 20, 28);
  }

  lemma HeaderEndReadBack(b: seq<byte>, h: seq<byte>, m: RunMeta)
    requires |b| >= HEADER_SIZE && b[44..HEADER_SIZE] == h == HeaderEnd(m)
    ensures U32At(b, 44) == m.flags && U32At(b, 48) == m.manifestIndex
    ensures U16At(b, 52) == m.targetArch && U16At(b, 54) == m.baseArch && U32At(b, 56) == m.sourceFormat
  {
    RadixValues();
    Fields(h, LE(m.flags, 4), LE(m.manifestIndex, 4), LE(m.targetArch, 2), LE(m.baseArch, 2), LE(m.sourceFormat, 4), LE(0, 4));
    Sub(b, h, 44, 0, 4);
    Sub(b, h, 44, 4, 8);
    Sub(b, h, 44, 8, 10);
    Sub(b, h, 44, 10, 12);
    Sub(b, h, 44, 12, 16);
    FromLEofLE(m.flags, 4);
    FromLEofLE(m.manifestIndex, 4);
    FromLEofLE(m.targetArch, 2);
    FromLEofLE(m.baseArch, 2);
    FromLEofLE(m.sourceFormat, 4);
  }

  /** The payload area of a written container. */
  lemma PayloadAt(parts: seq<RunPart>, m: RunMeta, b: seq<byte>)
    requires Fits(parts) && b == WriteRun(parts, m)
    ensures b[Head(|parts|)..] == Payload(Head(|parts|), parts)
    ensures b[64..Head(|parts|)] == Table(Sections(parts))
    ensures b[..HEADER_SIZE] == Header(|parts|, Head(|parts|), Total(parts), m)
  {
  }

  /** Every part lies in the file where its section says, with the tag and flags it was given. */
  lemma PartInPlace(parts: seq<RunPart>, m: RunMeta, b: seq<byte>, i: nat, s: Section)
    requires Fits(parts) && b == WriteRun(parts, m) && i < |parts| && s == Sections(parts)[i]
    ensures s.tag == parts[i].tag && s.flags == parts[i].flags
    ensures s.offset + s.size <= |b| && b[s.offset..s.offset + s.size] == parts[i].data
    ensures Sound(b, Head(|parts|), s)
  {
    assert s == SectionOf(parts, i);
    PayloadAt(parts, m, b);
    InPayload(b, Head(|parts|), Payload(Head(|parts|), parts), parts, i);
  }

  lemma InPayload(b: seq<byte>, head: nat, body: seq<byte>, parts: seq<RunPart>, i: nat)
    requires head <= |b| && b[head..] == body == Payload(head, parts) && i < |parts|
    ensures var at := OffsetOf(head, parts, i);
            at + |parts[i].data| <= |b| && b[at..at + |parts[i].data|] == parts[i].data
  {
    PayloadPart(head, parts, i);
    var at := OffsetOf(head, parts, i);
    var n := |parts[i].data|;
    assert b[at..at + n] == body[at - head..][..n];
  }

  function WrittenInfo(parts: seq<RunPart>, m: RunMeta): RunInfo
    requires Fits(parts)
  {
    RunInfo(0, 1, |parts|, Total(parts), m, Sections(parts))
  }

  lemma InfoReadBack(parts: seq<RunPart>, m: RunMeta, b: seq<byte>)
    requires Fits(parts) && b == WriteRun(parts, m)
    ensures HeaderFault(b) == None
    ensures InfoAt(b) == WrittenInfo(parts, m)
  {
    PayloadAt(parts, m, b);
    var n: u32 := |parts|;
    HeaderParts(b, HeaderStart(n, Head(n), Total(parts)), m.uid, HeaderEnd(m));
    HeaderStartReadBack(b, HeaderStart(n, Head(n), Total(parts)), n, Head(n), Total(parts));
    HeaderEndReadBack(b, HeaderEnd(m), m);
    TableReadBack(b, Sections(parts));
  }

  lemma HeaderParts(b: seq<byte>, start: seq<byte>, uid: Uid, end: seq<byte>)
    requires |start| == 28 && |end| == 20 && |b| >= HEADER_SIZE && b[..HEADER_SIZE] == start + uid + end
    ensures b[..28] == start && b[28..44] == uid && b[44..HEADER_SIZE] == end
  {
    var h := b[..HEADER_SIZE];
    assert h[..28] == start && h[28..44] == uid && h[44..] == end;
  }

  /** The reader accepts exactly the files with a good header whose every section is sound. */
  lemma AcceptsIff(b: seq<byte>)
    ensures ReadRun(b).Read? <==>
            HeaderFault(b).None? && forall s <- InfoAt(b).sections :: Sound(b, Head(U32At(b, 8)), s)
    ensures ReadRun(b).Read? ==> ReadRun(b).info == InfoAt(b)
  {
    if HeaderFault(b).None? {
      FirstFaultIff(b, Head(U32At(b, 8)), InfoAt(b).sections, 0);
    }
  }

  lemma {:induction false} FirstFaultIff(b: seq<byte>, head: nat, ss: seq<Section>, i: nat)
    requires i <= |ss| && |b| < WORD
    ensures FirstFault(b, head, ss, i).None? <==> forall k | i <= k < |ss| :: Sound(b, head, ss[k])
    ensures FirstFault(b, head, ss, i).Some? ==> !FirstFault(b, head, ss, i).value.Read?
    decreases |ss| - i
  {
    if i < |ss| {
      FirstFaultIff(b, head, ss, i + 1);
      FaultIff(b, head, ss, i);
    }
  }

  lemma FaultIff(b: seq<byte>, head: nat, ss: seq<Section>, i: nat)
    requires i < |ss| && |b| < WORD
    ensures Fault(b, head, ss, i).None? <==> Sound(b, head, ss[i])
  {
    var s := ss[i];
    if s.offset + s.size < WORD {
      assert WrappedEnd(s) == s.offset + s.size;
    } else {
      assert WrappedEnd(s) == s.offset + s.size - WORD < s.offset;
    }
  }

  /** Writing and reading back returns every field of the metadata and one section for each part. */
  lemma RoundTrip(parts: seq<RunPart>, m: RunMeta, b: seq<byte>)
    requires Fits(parts) && b == WriteRun(parts, m)
    ensures ReadRun(b) == Read(WrittenInfo(parts, m))
  {
    InfoReadBack(parts, m, b);
    forall s | s in Sections(parts)
      ensures Sound(b, Head(|parts|), s)
    {
      var i :| 0 <= i < |parts| && Sections(parts)[i] == s;
      PartInPlace(parts, m, b, i, s);
    }
    AcceptsIff(b);
  }

  lemma SectionsDisjoint(parts: seq<RunPart>, i: nat, j: nat)
    requires Fits(parts) && i < j < |parts|
    ensures Sections(parts)[i].offset + Sections(parts)[i].size <= Sections(parts)[j].offset
  {
    OffsetsGrow(Head(|parts|), parts, i, j);
  }

  /** Sections after the first start on a 4096-byte boundary; the first one starts right behind the table. */
  lemma Alignment(parts: seq<RunPart>, i: nat)
    requires Fits(parts) && i < |parts|
    ensures SectionOf(parts, i).offset == Head(|parts|) || SectionOf(parts, i).offset % ALIGN == 0
    ensures i == 0 ==> SectionOf(parts, i).offset == Head(|parts|)
    ensures i > 0 ==> SectionOf(parts, i).offset % ALIGN == 0
  {
    if i > 0 {
      OffsetsGrow(Head(|parts|), parts, i - 1, i);
    }
  }

  /** `section_data` returns the bytes of the first section with the tag. */
  lemma {:induction false} SectionDataFound(b: seq<byte>, info: RunInfo, tag: u32, i: nat, k: nat)
    requires forall s <- info.sections :: s.offset + s.size <= |b|
    requires i <= k < |info.sections| && info.sections[k].tag == tag
    requires forall j | i <= j < k :: info.sections[j].tag != tag
    ensures info.sections[k].offset + info.sections[k].size <= |b|
    ensures SectionData(b, info, tag, i) == Some(b[info.sections[k].offset..info.sections[k].offset + info.sections[k].size])
    decreases k - i
  {
    if i < k {
      SectionDataFound(b, info, tag, i + 1, k);
    }
  }

  // ------------------------------------------------------------------ the two readers agree

  lemma {:induction false} LoadAllSound(b: seq<byte>, ss: seq<Section>, i: nat)
    requires i <= |ss| && |b| < WORD
    requires forall k | i <= k < |ss| :: Sound(b, 0, ss[k])
    ensures LoadFrom(b, ss, i) == LoadFrom(b, ss, |ss|)
    decreases |ss| - i
  {
    if i < |ss| {
      assert Sound(b, 0, ss[i]);
      LoadAllSound(b, ss, i + 1);
    }
  }

  /** The kernel takes from an accepted container exactly what its section list offers. */
  lemma ReadersAgree(b: seq<byte>)
    requires ReadRun(b).Read?
    ensures var found := GatherAll(ReadRun(b).info.sections);
            Load(b) == if found.exec.None? then Rejected else Loaded(found)
  {
    AcceptsIff(b);
    var ss := InfoAt(b).sections;
    forall k | 0 <= k < |ss|
      ensures Sound(b, 0, ss[k])
    {
      assert Sound(b, Head(U32At(b, 8)), ss[k]);
    }
    LoadAllSound(b, ss, 0);
  }

  /** Conversely: what the kernel loads, `read_run` accepts as soon as its own header and table checks pass. */
  lemma LoadedThenRead(b: seq<byte>)
    requires Load(b).Loaded? && HeaderFault(b).None?
    requires forall s <- InfoAt(b).sections :: s.offset >= Head(U32At(b, 8))
    ensures ReadRun(b).Read?
  {
    var ss := InfoAt(b).sections;
    LoadedSound(b, ss, 0);
    forall s | s in ss
      ensures Sound(b, Head(U32At(b, 8)), s)
    {
      var k :| 0 <= k < |ss| && ss[k] == s;
      assert Sound(b, 0, ss[k]);
    }
    AcceptsIff(b);
  }

  lemma {:induction false} LoadedSound(b: seq<byte>, ss: seq<Section>, i: nat)
    requires i <= |ss| && LoadFrom(b, ss, i).Loaded?
    ensures forall k | i <= k < |ss| :: Sound(b, 0, ss[k]) && WrappedEnd(ss[k]) == ss[k].offset + ss[k].size
    decreases |ss| - i
  {
    if i < |ss| {
      LoadedSound(b, ss, i + 1);
      assert LoadFault(b, ss[i]).None?;
      assert WrappedEnd(ss[i]) == ss[i].offset + ss[i].size;
    }
  }

  predicate LastTagged(ss: seq<Section>, tag: u32, k: nat) {
    k < |ss| && ss[k].tag == tag && forall j | k < j < |ss| :: ss[j].tag != tag
  }

  predicate NoneTagged(ss: seq<Section>, tag: u32) {
    forall s <- ss :: s.tag != tag
  }

  /** The DATA sections of ss, in order. */
  function DataSections(ss: seq<Section>): seq<Section> {
    if ss == [] then []
    else DataSections(ss[..|ss| - 1]) + if ss[|ss| - 1].tag == 5 then [ss[|ss| - 1]] else []
  }

  /** The loader keeps the last EMBED (tag 4), the last MANIFEST (1) and the first eight DATA sections (5). */
  lemma {:induction false} Gathered(ss: seq<Section>)
    ensures var f := GatherAll(ss);
            && (f.exec.None? ==> NoneTagged(ss, 4))
            && (f.exec.Some? ==> exists k: nat :: LastTagged(ss, 4, k) && ss[k] == f.exec.value)
            && (f.manifest.None? ==> NoneTagged(ss, 1))
            && (f.manifest.Some? ==> exists k: nat :: LastTagged(ss, 1, k) && ss[k] == f.manifest.value)
            && f.data == DataSections(ss)[..Min(8, |DataSections(ss)|)]
  {
    if ss != [] {
      var n := |ss| - 1;
      var s := ss[n];
      var g := GatherAll(ss[..n]);
      Gathered(ss[..n]);
      LastStep(ss, TAG_EMBED, g.exec, GatherAll(ss).exec);
      LastStep(ss, TAG_MANIFEST, g.manifest, GatherAll(ss).manifest);
      var d := DataSections(ss[..n]);
      if s.tag == TAG_DATA && |d| < MAX_RES {
        assert d[..|d|] == d && (d + [s])[..|d| + 1] == d + [s];
      }
    }
  }

  lemma LastStep(ss: seq<Section>, tag: u32, before: Option<Section>, after: Option<Section>)
    requires |ss| > 0
    requires var t := ss[..|ss| - 1];
             && (before.None? ==> NoneTagged(t, tag))
             && (before.Some? ==> exists k: nat :: LastTagged(t, tag, k) && t[k] == before.value)
    requires after == if ss[|ss| - 1].tag == tag then Some(ss[|ss| - 1]) else before
    ensures after.None? ==> NoneTagged(ss, tag)
    ensures after.Some? ==> exists k: nat :: LastTagged(ss, tag, k) && ss[k] == after.value
  {
    var n := |ss| - 1;
    var t := ss[..n];
    assert ss == t + [ss[n]];
    if ss[n].tag == tag {
      assert LastTagged(ss, tag, n) && ss[n] == after.value;
    } else if before.Some? {
      var k: nat :| LastTagged(t, tag, k) && t[k] == before.value;
      assert LastTagged(ss, tag, k) && ss[k] == after.value;
    }
  }

  lemma LastUnique(ss: seq<Section>, tag: u32, j: nat, k: nat)
    requires LastTagged(ss, tag, j) && LastTagged(ss, tag, k)
    ensures j == k
  {
  }

  /** The kernel extracts from a written container exactly the bytes of its last EMBED part. */
  lemma KernelRoundTrip(parts: seq<RunPart>, m: RunMeta, b: seq<byte>, k: nat, s: Section)
    requires Fits(parts) && b == WriteRun(parts, m)
    requires k < |parts| && parts[k].tag == 4 && s == Sections(parts)[k]
    requires forall j | k < j < |parts| :: parts[j].tag != 4
    ensures Load(b).Loaded? && Load(b).found.exec == Some(s)
    ensures s.offset + s.size <= |b| && b[s.offset..s.offset + s.size] == parts[k].data
  {
    RoundTrip(parts, m, b);
    PartInPlace(parts, m, b, k, s);
    ReadersAgree(b);
    LastEmbed(Sections(parts), k);
  }

  lemma LastEmbed(ss: seq<Section>, k: nat)
    requires LastTagged(ss, TAG_EMBED, k)
    ensures GatherAll(ss).exec == Some(ss[k])
  {
    Gathered(ss);
    assert ss[k] in ss;
    var j: nat :| LastTagged(ss, TAG_EMBED, j) && ss[j] == GatherAll(ss).exec.value;
    LastUnique(ss, TAG_EMBED, j, k);
  }

  // ------------------------------------------------------------------ altered bytes

  /** Altering a byte behind the table leaves header and table as they read. */
  lemma TableKept(b: seq<byte>, p: nat, v: byte)
    requires HEADER_SIZE <= |b| && Head(U32At(b, 8)) <= p < |b|
    ensures var c := b[p := v];
            && c[0..4] == b[0..4] && U32At(c, 8) == U32At(b, 8)
            && TableAt(c, U32At(b, 8)) == TableAt(b, U32At(b, 8))
            && HeaderFault(c) == HeaderFault(b) && InfoAt(c) == InfoAt(b)
  {
    var c := b[p := v];
    var n := U32At(b, 8);
    assert forall i, j | 0 <= i <= j <= Head(n) :: c[i..j] == b[i..j];
    forall k | 0 <= k < n
      ensures EntryAt(c, k) == EntryAt(b, k)
    {
      assert c[Head(k)..Head(k + 1)] == b[Head(k)..Head(k + 1)];
    }
  }

  predicate Covers(s: Section, p: nat) {
    s.offset <= p < s.offset + s.size
  }

  /** A sound section stays sound, or fails on its hash, and it does fail when the altered byte is its own. */
  lemma AlteredSection(b: seq<byte>, head: nat, s: Section, p: nat, v: byte)
    requires p < |b| && v != b[p] && Sound(b, head, s)
    ensures Fnv.Hash(b[p := v][s.offset..s.offset + s.size]) == s.hash <==> !Covers(s, p)
  {
    var before := b[s.offset..s.offset + s.size];
    var after := b[p := v][s.offset..s.offset + s.size];
    if Covers(s, p) {
      assert after == before[p - s.offset := v];
      Fnv.OneByteChange(before, p - s.offset, v);
    } else {
      assert after == before;
    }
  }

  lemma {:induction false} AlteredFault(b: seq<byte>, head: nat, ss: seq<Section>, i: nat, k: nat, p: nat, v: byte)
    requires i <= k < |ss| && |b| < WORD && p < |b| && v != b[p]
    requires forall s <- ss :: Sound(b, head, s)
    requires Covers(ss[k], p) && forall j | i <= j < k :: !Covers(ss[j], p)
    ensures FirstFault(b[p := v], head, ss, i) == Some(Refused(HashMismatch(k)))
    decreases k - i
  {
    AlteredSection(b, head, ss[i], p, v);
    assert WrappedEnd(ss[i]) == ss[i].offset + ss[i].size;
    if i < k {
      AlteredFault(b, head, ss, i + 1, k, p, v);
    }
  }

  function FirstCover(ss: seq<Section>, p: nat, k: nat): (i: nat)
    requires k < |ss| && Covers(ss[k], p)
    ensures i <= k && Covers(ss[i], p) && forall j | 0 <= j < i :: !Covers(ss[j], p)
  {
    if j :| 0 <= j < k && Covers(ss[j], p) then FirstCover(ss, p, j) else k
  }

  /** `read_run` refuses every alteration of one byte of section data, naming the first section that holds it. */
  lemma TamperRefused(b: seq<byte>, k: nat, p: nat, v: byte)
    requires ReadRun(b).Read? && k < |ReadRun(b).info.sections|
    requires Covers(ReadRun(b).info.sections[k], p)
    requires p < |b| ==> v != b[p]
    ensures p < |b|
    ensures exists i: nat | i <= k :: ReadRun(b[p := v]) == Refused(HashMismatch(i))
  {
    AcceptsIff(b);
    var ss := InfoAt(b).sections;
    var head := Head(U32At(b, 8));
    assert Sound(b, head, ss[k]);
    TableKept(b, p, v);
    var i := FirstCover(ss, p, k);
    AlteredFault(b, head, ss, 0, i, p, v);
    assert ReadRun(b[p := v]) == Refused(HashMismatch(i));
  }

  lemma {:induction false} AlteredLoad(b: seq<byte>, ss: seq<Section>, i: nat, k: nat, p: nat, v: byte)
    requires i <= k < |ss| && p < |b| && v != b[p]
    requires forall j | i <= j < |ss| :: Sound(b, 0, ss[j]) && WrappedEnd(ss[j]) == ss[j].offset + ss[j].size
    requires Covers(ss[k], p)
    ensures LoadFrom(b[p := v], ss, i) == Rejected
    decreases k - i
  {
    assert Sound(b, 0, ss[i]);
    AlteredSection(b, 0, ss[i], p, v);
    if i < k {
      AlteredLoad(b, ss, i + 1, k, p, v);
    }
  }

  /** A byte that the kernel's loader reads neither as a field of the header nor in the table. */
  predicate Unread(n: nat, p: nat) {
    4 <= p < 8 || 12 <= p < HEADER_SIZE || p >= Head(n)
  }

  lemma UnreadKept(b: seq<byte>, p: nat, v: byte)
    requires HEADER_SIZE <= |b| && Head(U32At(b, 8)) <= |b| && p < |b| && Unread(U32At(b, 8), p)
    ensures var c := b[p := v];
            c[0..4] == b[0..4] && U32At(c, 8) == U32At(b, 8) && TableAt(c, U32At(b, 8)) == TableAt(b, U32At(b, 8))
  {
    var c := b[p := v];
    assert c[0..4] == b[0..4] && c[8..12] == b[8..12];
    forall k | 0 <= k < U32At(b, 8)
      ensures EntryAt(c, k) == EntryAt(b, k)
    {
      assert c[Head(k)..Head(k + 1)] == b[Head(k)..Head(k + 1)];
    }
  }

  /** The kernel rejects every alteration of one byte of section data that it reads neither as a field of the header
      nor in the table. */
  lemma TamperRejected(b: seq<byte>, k: nat, p: nat, v: byte)
    requires Load(b).Loaded? && k < U32At(b, 8)
    requires Covers(EntryAt(b, k), p) && Unread(U32At(b, 8), p)
    requires p < |b| ==> v != b[p]
    ensures p < |b| && Load(b[p := v]) == Rejected
  {
    var ss := TableAt(b, U32At(b, 8));
    LoadedSound(b, ss, 0);
    assert Sound(b, 0, ss[k]);
    UnreadKept(b, p, v);
    AlteredLoad(b, ss, 0, k, p, v);
  }

  predicate TableInside(b: seq<byte>) {
    |b| >= HEADER_SIZE && b[0..4] == MAGIC && Head(U32At(b, 8)) <= |b|
  }

  predicate AllSound(b: seq<byte>, ss: seq<Section>) {
    forall k | 0 <= k < |ss| :: Sound(b, 0, ss[k])
  }

  lemma LoadFromIff(b: seq<byte>, ss: seq<Section>)
    requires |b| < WORD
    ensures LoadFrom(b, ss, 0).Loaded? <==> GatherAll(ss).exec.Some? && AllSound(b, ss)
  {
    if AllSound(b, ss) {
      LoadAllSound(b, ss, 0);
    }
    if LoadFrom(b, ss, 0).Loaded? {
      LoadedSound(b, ss, 0);
      LoadAllSound(b, ss, 0);
    }
  }

  /** The kernel loads exactly the modules with their table inside, an EMBED section, and sound sections only. */
  lemma LoadedIff(b: seq<byte>)
    requires |b| < WORD
    ensures Load(b).Loaded? <==>
            && TableInside(b) && GatherAll(TableAt(b, U32At(b, 8))).exec.Some? && AllSound(b, TableAt(b, U32At(b, 8)))
  {
    if TableInside(b) {
      LoadFromIff(b, TableAt(b, U32At(b, 8)));
    }
  }

  /** Entry k after an alteration at p: one that is as it was must not cover p, any other must be sound. */
  predicate EntryStands(c: seq<byte>, ss: seq<Section>, tt: seq<Section>, p: nat, k: nat)
    requires k < |tt|
  {
    if k < |ss| && tt[k] == ss[k] then !Covers(ss[k], p) else Sound(c, 0, tt[k])
  }

  lemma SoundAfter(b: seq<byte>, c: seq<byte>, ss: seq<Section>, tt: seq<Section>, p: nat, v: byte, k: nat)
    requires AllSound(b, ss) && p < |b| && v != b[p] && c == b[p := v] && k < |tt|
    ensures Sound(c, 0, tt[k]) <==> EntryStands(c, ss, tt, p, k)
  {
    if k < |ss| && tt[k] == ss[k] {
      AlteredSection(b, 0, ss[k], p, v);
    }
  }

  /** Every entry of the altered module stands. */
  predicate AllStand(c: seq<byte>, ss: seq<Section>, tt: seq<Section>, p: nat) {
    forall k | 0 <= k < |tt| :: EntryStands(c, ss, tt, p, k)
  }

  lemma AllSoundAfter(b: seq<byte>, c: seq<byte>, ss: seq<Section>, tt: seq<Section>, p: nat, v: byte)
    requires AllSound(b, ss) && p < |b| && v != b[p] && c == b[p := v]
    ensures AllSound(c, tt) <==> AllStand(c, ss, tt, p)
  {
    forall k | 0 <= k < |tt|
      ensures Sound(c, 0, tt[k]) <==> EntryStands(c, ss, tt, p, k)
    {
      SoundAfter(b, c, ss, tt, p, v, k);
    }
  }

  /** Exactly when a loaded module still loads with one byte altered, wherever that byte lies: the magic stays, the
      table stays inside and offers an EMBED section, and every entry stands. */
  lemma TamperLoadedIff(b: seq<byte>, p: nat, v: byte, c: seq<byte>)
    requires Load(b).Loaded? && p < |b| < WORD && v != b[p] && c == b[p := v]
    ensures Load(c).Loaded? <==>
            && TableInside(c) && GatherAll(TableAt(c, U32At(c, 8))).exec.Some?
            && AllStand(c, TableAt(b, U32At(b, 8)), TableAt(c, U32At(c, 8)), p)
  {
    LoadedIff(b);
    LoadedIff(c);
    if TableInside(c) {
      AllSoundAfter(b, c, TableAt(b, U32At(b, 8)), TableAt(c, U32At(c, 8)), p, v);
    }
  }

  /** So a module does not load once a byte is altered that a section covers whose own entry and place in the table
      are left alone. */
  lemma TamperNotLoaded(b: seq<byte>, p: nat, v: byte, c: seq<byte>, k: nat)
    requires Load(b).Loaded? && p < |b| < WORD && v != b[p] && c == b[p := v]
    requires k < U32At(b, 8) && Covers(EntryAt(b, k), p)
    requires TableInside(c) && k < U32At(c, 8) ==> EntryAt(c, k) == EntryAt(b, k)
    requires TableInside(c) ==> k < U32At(c, 8)
    ensures !Load(c).Loaded?
  {
    TamperLoadedIff(b, p, v, c);
    assert TableInside(c) ==> !EntryStands(c, TableAt(b, U32At(b, 8)), TableAt(c, U32At(c, 8)), p, k);
  }

  /** The only section of the container below: one byte, on the low byte of its own offset field or behind the table. */
  function TinySection(at: byte): Section {
    Section(TAG_EMBED, 0, at, 1, Fnv.Hash([72]))
  }

  function BeforeOffset(): (b: seq<byte>)
    ensures |b| == 72 && b[0..4] == MAGIC && b[8..12] == LE(1, 4) && b[64..] == LE(TAG_EMBED, 4) + LE(0, 4)
  {
    MAGIC + LE(0, 4) + LE(1, 4) + Zeros(52) + (LE(TAG_EMBED, 4) + LE(0, 4))
  }

  function AfterOffset(): (b: seq<byte>)
    ensures |b| == 28 && b[..23] == LE(0, 7) + LE(1, 8) + LE(Fnv.Hash([72]), 4) + LE(0, 4) && b[27] == 72
  {
    LE(0, 7) + LE(1, 8) + LE(Fnv.Hash([72]), 4) + LE(0, 4) + Zeros(4) + [72]
  }

  function Tiny(at: byte): (b: seq<byte>) {
    BeforeOffset() + [at] + AfterOffset()
  }

  lemma TinyEntry(at: byte)
    ensures Tiny(at)[64..96] == EncodeSection(TinySection(at))
  {
    var s := TinySection(at);
    assert LE(at, 8) == [at] + LE(0, 7);
    Regroup(LE(TAG_EMBED, 4), LE(0, 4), [at], LE(0, 7), LE(1, 8), LE(s.hash, 4), LE(0, 4));
    Middle(BeforeOffset(), at, AfterOffset());
  }

  lemma Regroup(a: seq<byte>, b: seq<byte>, c: seq<byte>, d: seq<byte>, e: seq<byte>, f: seq<byte>, g: seq<byte>)
    ensures a + b + (c + d) + e + f + g == (a + b) + c + (d + e + f + g)
  {
  }

  lemma Middle(before: seq<byte>, at: byte, after: seq<byte>)
    requires |before| == 72 && |after| == 28
    ensures (before + [at] + after)[64..96] == before[64..] + [at] + after[..23]
  {
  }

  lemma TinyLoads(at: byte, b: seq<byte>)
    requires (at == 72 || at == 100) && b == Tiny(at)
    ensures U32At(b, 8) == 1 && EntryAt(b, 0) == TinySection(at) && Load(b).Loaded?
  {
    RadixValues();
    FromLEofLE(1, 4);
    assert b[0..4] == BeforeOffset()[0..4] && b[8..12] == BeforeOffset()[8..12];
    assert U32At(b, 8) == 1;
    var s := TinySection(at);
    TinyEntry(at);
    SectionRoundTrip(s);
    assert EntryAt(b, 0) == s;
    assert b[100] == AfterOffset()[27];
    TinyOutcome(b, TableAt(b, 1), s);
  }

  lemma TinyOutcome(b: seq<byte>, ss: seq<Section>, s: Section)
    requires ss == [s] && s.tag == TAG_EMBED && Sound(b, 0, s) && |b| < WORD
    ensures LoadFrom(b, ss, 0).Loaded?
  {
    LoadAllSound(b, ss, 0);
  }

  lemma Replace(before: seq<byte>, x: byte, y: byte, after: seq<byte>)
    requires |before| == 72
    ensures (before + [x] + after)[72] == x && (before + [x] + after)[72 := y] == before + [y] + after
  {
  }

  /** A section may cover its own table entry, and then one byte can change unnoticed. */
  lemma TamperInsideTable(b: seq<byte>, c: seq<byte>)
    requires b == Tiny(72) && c == Tiny(100)
    ensures Load(b).Loaded? && U32At(b, 8) == 1 && Covers(EntryAt(b, 0), 72)
    ensures |b| == 101 && b[72] != 100 && c == b[72 := 100] && Load(c).Loaded?
  {
    TinyLoads(72, b);
    TinyLoads(100, c);
    Replace(BeforeOffset(), 72, 100, AfterOffset());
  }
}
