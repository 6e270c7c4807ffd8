/** The container code itself: the writer with its back-patching, `read_run`, and the kernel's section scan. */
module Fujr {
  import opened Bytes
  import opened FujrLayout
  import Fnv
  import FujrProofs

  // ------------------------------------------------------------------ write_run

  /** The table entry as first written, before its offset is known. */
  function Unplaced(parts: seq<RunPart>, i: nat): Section
    requires i < |parts| && Fits(parts)
  {
    SectionOf(parts, i).(offset := 0)
  }

  /** The table while the offsets of the first k sections have been filled in. */
  function Patched(parts: seq<RunPart>, k: nat): (ss: seq<Section>)
    requires k <= |parts| && Fits(parts)
  {
    seq(|parts|, i requires 0 <= i < |parts| => if i < k then SectionOf(parts, i) else Unplaced(parts, i))
  }

  method WriteHeader(parts: seq<RunPart>, m: RunMeta) returns (out: seq<byte>)
    requires Fits(parts)
    ensures out == Header(|parts|, Head(|parts|), 0, m)
  {
    var n: u32 := |parts|;
    out := MAGIC;
    out := out + LE(0, 2);
    out := out + LE(1, 2);
    out := out + LE(n, 4);
    var headerSize: u64 := Head(n);
    out := out + LE(headerSize, 8);
    out := out + LE(0, 8);
    assert out == HeaderStart(n, headerSize, 0);
    out := out + m.uid;
    var end := LE(m.flags, 4);
    end := end + LE(m.manifestIndex, 4);
    end := end + LE(m.targetArch, 2);
    end := end + LE(m.baseArch, 2);
    end := end + LE(m.sourceFormat, 4);
    end := end + LE(0, 4);
    out := out + end;
  }

  method WriteTable(header: seq<byte>, parts: seq<RunPart>) returns (out: seq<byte>)
    requires Fits(parts) && |header| == HEADER_SIZE
    ensures out == header + Table(Patched(parts, 0)) && |out| == Head(|parts|)
  {
    ghost var ss := Patched(parts, 0);
    out := header;
    for i := 0 to |parts|
      invariant out == header + Table(ss[..i])
    {
      FujrLayout.OffsetsGrow(Head(|parts|), parts, i, |parts|);
      var hash := Fnv.Fnv1a(parts[i].data);
      var entry := LE(parts[i].tag, 4) + LE(parts[i].flags, 4);
      entry := entry + LE(0, 8);
      entry := entry + LE(|parts[i].data|, 8);
      entry := entry + LE(hash, 4);
      entry := entry + LE(0, 4);
      AppendEntry(ss, i, header, entry);
      out := out + entry;
    }
    assert ss[..|parts|] == ss;
  }

  lemma AppendEntry(ss: seq<Section>, i: nat, header: seq<byte>, entry: seq<byte>)
    requires i < |ss| && entry == EncodeSection(ss[i])
    ensures header + Table(ss[..i]) + entry == header + Table(ss[..i + 1])
  {
    assert ss[..i + 1][..i] == ss[..i];
  }

  method WritePayload(front: seq<byte>, parts: seq<RunPart>, ghost head: nat) returns (out: seq<byte>, offsets: seq<nat>)
    requires head == |front|
    ensures out == front + Payload(head, parts)
    ensures |offsets| == |parts| && forall i | 0 <= i < |parts| :: offsets[i] == OffsetOf(head, parts, i)
  {
    out := front;
    offsets := [];
    for i := 0 to |parts|
      invariant out == front + Payload(head, parts[..i])
      invariant |offsets| == i && forall j | 0 <= j < i :: offsets[j] == OffsetOf(head, parts, j)
    {
      offsets := offsets + [|out|];
      out := out + parts[i].data;
      ghost var body := Payload(head, parts[..i]) + parts[i].data;
      assert parts[..i + 1][..i] == parts[..i];
      var unpadded := out;
      assert unpadded == front + body;
      out := PadUp(unpadded);
      assert out == front + (body + Zeros(PadLen(head + |body|)));
    }
    assert parts[..|parts|] == parts;
  }

  method PadUp(unpadded: seq<byte>) returns (out: seq<byte>)
    ensures out == unpadded + Zeros(PadLen(|unpadded|))
  {
    out := unpadded;
    ghost var k := 0;
    while |out| % ALIGN != 0
      invariant k <= PadLen(|unpadded|) && out == unpadded + Zeros(k)
      decreases PadLen(|unpadded|) - k
    {
      PadPending(|unpadded|, k);
      out := out + [0];
      k := k + 1;
    }
    PadUnique(|unpadded|, k);
  }

  lemma PadPending(n: nat, k: nat)
    requires (n + k) % ALIGN != 0 && k <= PadLen(n)
    ensures k < PadLen(n)
  {
  }

  lemma PadUnique(n: nat, k: nat)
    requires (n + k) % ALIGN == 0 && k <= PadLen(n)
    ensures k == PadLen(n)
  {
  }

  /** The loop that fills in the offsets, entry by entry. */
  method PatchOffsets(written: seq<byte>, parts: seq<RunPart>, offsets: seq<nat>,
                      ghost header: seq<byte>, ghost payload: seq<byte>)
    returns (out: seq<byte>)
    requires Fits(parts) && |header| == HEADER_SIZE && written == header + Table(Patched(parts, 0)) + payload
    requires |offsets| == |parts|
    requires forall i | 0 <= i < |parts| :: offsets[i] == OffsetOf(Head(|parts|), parts, i)
    ensures out == header + Table(Sections(parts)) + payload
  {
    out := written;
    ghost var t := Table(Patched(parts, 0));
    for i := 0 to |parts|
      invariant t == Table(Patched(parts, i)) && |t| == 32 * |parts| && out == header + t + payload
    {
      ghost var before := t;
      assert offsets[i] == SectionOf(parts, i).offset;
      out, t := PatchOffset(out, i, offsets[i], header, t, payload);
      PatchOne(parts, i, before, offsets[i], t);
    }
    AllPatched(parts);
  }

  lemma AllPatched(parts: seq<RunPart>)
    requires Fits(parts)
    ensures Patched(parts, |parts|) == Sections(parts)
  {
  }

  /** The offset field of entry i is overwritten. */
  method PatchOffset(written: seq<byte>, i: nat, offset: u64, ghost header: seq<byte>, ghost t: seq<byte>,
                     ghost payload: seq<byte>)
    returns (out: seq<byte>, ghost patched: seq<byte>)
    requires |header| == HEADER_SIZE && written == header + t + payload && 32 * i + 32 <= |t|
    ensures patched == t[..32 * i + 8] + LE(offset, 8) + t[32 * i + 16..]
    ensures out == header + patched + payload
  {
    var field, base := LE(offset, 8), 64 + i * 32;
    out := written[..base + 8] + field + written[base + 16..];
    patched := t[..32 * i + 8] + field + t[32 * i + 16..];
    PatchBytes(header, t, payload, 32 * i, field, patched);
  }

  lemma PatchedStep(parts: seq<RunPart>, i: nat)
    requires Fits(parts) && i < |parts|
    ensures var ss := Patched(parts, i); var s := SectionOf(parts, i);
            |ss| == |parts| && ss[i] == s.(offset := 0) && Patched(parts, i + 1) == ss[i := s]
  {
  }

  lemma PatchOne(parts: seq<RunPart>, i: nat, t: seq<byte>, offset: u64, patched: seq<byte>)
    requires Fits(parts) && i < |parts| && t == Table(Patched(parts, i)) && offset == SectionOf(parts, i).offset
    requires |t| == 32 * |parts| && patched == t[..32 * i + 8] + LE(offset, 8) + t[32 * i + 16..]
    ensures patched == Table(Patched(parts, i + 1))
  {
    PatchedStep(parts, i);
    PatchedTable(Patched(parts, i), i, SectionOf(parts, i), t, LE(offset, 8));
  }

  lemma PatchedTable(ss: seq<Section>, i: nat, s: Section, t: seq<byte>, off: seq<byte>)
    requires i < |ss| && ss[i] == s.(offset := 0) && t == Table(ss) && off == LE(s.offset, 8)
    ensures Table(ss[i := s]) == t[..32 * i + 8] + off + t[32 * i + 16..]
  {
    TableUpdate(ss, i, s);
    PatchEntry(s);
    FujrProofs.TableEntry(ss, i);
    Splice(t, 32 * i, EncodeSection(ss[i]), off);
  }

  lemma Splice(t: seq<byte>, at: nat, e: seq<byte>, off: seq<byte>)
    requires at + 32 <= |t| && t[at..at + 32] == e && |off| == 8
    ensures t[..at] + (e[..8] + off + e[16..]) + t[at + 32..] == t[..at + 8] + off + t[at + 16..]
  {
  }

  lemma PatchBytes(header: seq<byte>, t: seq<byte>, payload: seq<byte>, at: nat, off: seq<byte>, patched: seq<byte>)
    requires |header| == 64 && at + 32 <= |t| && |off| == 8 && patched == t[..at + 8] + off + t[at + 16..]
    ensures var w := header + t + payload;
            w[..64 + at + 8] + off + w[64 + at + 16..] == header + patched + payload
  {
    var w := header + t + payload;
    assert w[..64 + at + 8] == header + t[..at + 8];
    assert w[64 + at + 16..] == t[at + 16..] + payload;
  }

  lemma PatchEntry(s: Section)
    ensures var e := EncodeSection(s.(offset := 0)); e[..8] + LE(s.offset, 8) + e[16..] == EncodeSection(s)
  {
    Middle(LE(s.tag, 4), LE(s.flags, 4), LE(0, 8), LE(s.offset, 8), LE(s.size, 8), LE(s.hash, 4), LE(0, 4));
  }

  lemma Middle(a: seq<byte>, b: seq<byte>, c: seq<byte>, d: seq<byte>, e: seq<byte>, f: seq<byte>, g: seq<byte>)
    requires |a| == 4 && |b| == 4 && |c| == 8 && |d| == 8
    ensures var before := a + b + c + e + f + g; before[..8] + d + before[16..] == a + b + d + e + f + g
  {
  }

  lemma {:induction false} TableUpdate(ss: seq<Section>, i: nat, s: Section)
    requires i < |ss|
    ensures Table(ss[i := s]) == Table(ss)[..32 * i] + EncodeSection(s) + Table(ss)[32 * (i + 1)..]
  {
    var n := |ss| - 1;
    var front := Table(ss[..n]);
    if i < n {
      TableUpdate(ss[..n], i, s);
      assert ss[i := s][..n] == ss[..n][i := s];
      Carry(front, EncodeSection(ss[n]), 32 * i, EncodeSection(s));
    } else {
      assert ss[i := s][..n] == ss[..n];
      Carry(front, EncodeSection(ss[n]), 32 * n, EncodeSection(s));
    }
  }

  lemma Carry(t: seq<byte>, last: seq<byte>, at: nat, e: seq<byte>)
    requires |last| == 32 && |e| == 32 && at <= |t|
    ensures at + 32 <= |t| ==> t[..at] + e + t[at + 32..] + last == (t + last)[..at] + e + (t + last)[at + 32..]
    ensures at == |t| ==> t + e == (t + last)[..at] + e + (t + last)[at + 32..]
  {
  }

  /** `write_run` (release build): header and table with placeholders, payload, then the back-patching. */
  method Write(parts: seq<RunPart>, m: RunMeta) returns (out: seq<byte>)
    requires Fits(parts)
    ensures out == WriteRun(parts, m)
  {
    var header := WriteHeader(parts, m);
    out := WriteBody(header, parts);
    out := PatchTotal(out, header, Table(Sections(parts)), Payload(Head(|parts|), parts), parts, m);
  }

  method WriteBody(header: seq<byte>, parts: seq<RunPart>) returns (out: seq<byte>)
    requires Fits(parts) && |header| == HEADER_SIZE
    ensures out == header + Table(Sections(parts)) + Payload(Head(|parts|), parts)
  {
    var front := WriteTable(header, parts);
    var written, offsets := WritePayload(front, parts, Head(|parts|));
    out := PatchOffsets(written, parts, offsets, header, Payload(Head(|parts|), parts));
  }

  method PatchTotal(written: seq<byte>, ghost header: seq<byte>, ghost table: seq<byte>, ghost payload: seq<byte>,
                    ghost parts: seq<RunPart>, ghost m: RunMeta)
    returns (out: seq<byte>)
    requires Fits(parts) && header == Header(|parts|, Head(|parts|), 0, m) && table == Table(Sections(parts))
    requires payload == Payload(Head(|parts|), parts) && written == header + table + payload
    ensures out == WriteRun(parts, m)
  {
    assert |written| == Total(parts) by { assert parts[..|parts|] == parts; }
    var field := LE(|written|, 8);
    TotalPatched(written, header, table, payload, parts, m, field);
    out := written[..20] + field + written[28..];
  }

  lemma TotalPatched(written: seq<byte>, header: seq<byte>, table: seq<byte>, payload: seq<byte>,
                     parts: seq<RunPart>, m: RunMeta, field: seq<byte>)
    requires Fits(parts) && header == Header(|parts|, Head(|parts|), 0, m) && table == Table(Sections(parts))
    requires payload == Payload(Head(|parts|), parts) && written == header + table + payload
    requires field == LE(Total(parts), 8)
    ensures |written| >= 28 && written[..20] + field + written[28..] == WriteRun(parts, m)
  {
    var n: u32 := |parts|;
    var start := HeaderStart(n, Head(n), 0);
    LastField(MAGIC + LE(0, 2) + LE(1, 2) + LE(n, 4) + LE(Head(n), 8), LE(0, 8), start, field);
    ReplaceField(written, start, m.uid, HeaderEnd(m), table, payload, field);
  }

  lemma LastField(a: seq<byte>, z: seq<byte>, start: seq<byte>, t: seq<byte>)
    requires |a| == 20 && |z| == 8 && |t| == 8 && start == a + z
    ensures start[..20] + t == a + t
  {
  }

  lemma ReplaceField(out: seq<byte>, start: seq<byte>, uid: seq<byte>, end: seq<byte>, table: seq<byte>, payload: seq<byte>,
                     field: seq<byte>)
    requires |start| == 28 && |field| == 8 && out == start + uid + end + table + payload
    ensures out[..20] + field + out[28..] == (start[..20] + field) + uid + end + table + payload
  {
  }

  // ------------------------------------------------------------------ read_run

  /** `read_run`. */
  method Parse(b: seq<byte>) returns (r: ReadOutcome)
    ensures r == ReadRun(b)
  {
    if |b| < HEADER_SIZE {
      return Refused(TooSmall);
    }
    if b[0..4] != MAGIC {
      return Refused(BadMagic);
    }
    var count := U32At(b, 8);
    var headerSize := U64At(b, 12);
    var total := U64At(b, 20);
    var expected := 64 + 32 * count;
    if headerSize != expected {
      return Refused(HeaderSize);
    }
    if total != |b| {
      return Refused(TotalSize);
    }
    if count * 32 + HEADER_SIZE > |b| {
      return Refused(TableOverrun);
    }
    var sections := [];
    for i := 0 to count
      invariant |sections| == i && forall k | 0 <= k < i :: sections[k] == EntryAt(b, k)
    {
      sections := sections + [EntryAt(b, i)];
    }
    assert sections == TableAt(b, count);
    var objection := CheckSections(b, expected, sections);
    if objection.Some? {
      return objection.value;
    }
    return Read(RunInfo(U16At(b, 4), U16At(b, 6), count, total,
                        RunMeta(b[28..44], U16At(b, 52), U16At(b, 54), U32At(b, 56), U32At(b, 44), U32At(b, 48)),
                        sections));
  }

  method CheckSections(b: seq<byte>, expected: nat, sections: seq<Section>) returns (r: Option<ReadOutcome>)
    ensures r == FirstFault(b, expected, sections, 0)
  {
    for i := 0 to |sections|
      invariant FirstFault(b, expected, sections, 0) == FirstFault(b, expected, sections, i)
    {
      var s := sections[i];
      var end := (s.offset + s.size) % WORD;
      if s.offset < expected || end > |b| {
        return Some(Refused(OutOfBounds(i)));
      }
      if end < s.offset {
        return Some(Panicked);
      }
      var h := Fnv.Fnv1a(b[s.offset..end]);
      if h != s.hash {
        return Some(Refused(HashMismatch(i)));
      }
    }
    return None;
  }

  // ------------------------------------------------------------------ the kernel

  /** `fujr::load`: scan the table, check each hash, remember EMBED, MANIFEST and up to eight DATA sections. */
  method LoadModule(b: seq<byte>) returns (r: LoadOutcome)
    ensures r == Load(b)
  {
    if |b| < HEADER_SIZE || b[0..4] != MAGIC {
      return Rejected;
    }
    var count := U32At(b, 8);
    if |b| < Head(count) {
      return Rejected;
    }
    r := ScanSections(b, count, TableAt(b, count));
  }

  /** The table entry at index i, read from the module. */
  method ReadEntry(b: seq<byte>, count: nat, i: nat, ghost ss: seq<Section>) returns (s: Section)
    requires Head(count) <= |b| && i < count && ss == TableAt(b, count)
    ensures s == ss[i]
  {
    s := EntryAt(b, i);
  }

  method CheckSection(b: seq<byte>, s: Section) returns (objection: Option<LoadOutcome>)
    ensures objection == LoadFault(b, s)
  {
    var end := (s.offset + s.size) % WORD;
    if end > |b| {
      return Some(Rejected);
    }
    if s.offset + s.size >= WORD {
      return Some(Strayed);
    }
    var h := Fnv.Fnv1a(b[s.offset..end]);
    return if h != s.hash then Some(Rejected) else None;
  }

  method ScanSections(b: seq<byte>, count: nat, ghost ss: seq<Section>) returns (r: LoadOutcome)
    requires Head(count) <= |b| && ss == TableAt(b, count)
    ensures r == LoadFrom(b, ss, 0)
  {
    var exec: Option<Section>, manifest: Option<Section>, data: seq<Section> := None, None, [];
    for i := 0 to count
      invariant LoadFrom(b, ss, 0) == LoadFrom(b, ss, i)
      invariant Found(exec, manifest, data) == GatherAll(ss[..i])
    {
      var s := ReadEntry(b, count, i, ss);
      var objection := CheckSection(b, s);
      if objection.Some? {
        return objection.value;
      }
      if s.tag == TAG_EMBED {
        exec := Some(s);
      } else if s.tag == TAG_MANIFEST {
        manifest := Some(s);
      } else if s.tag == TAG_DATA && |data| < MAX_RES {
        data := data + [s];
      }
      assert ss[i] == s && ss[..i + 1][..i] == ss[..i];
    }
    assert ss[..count] == ss;
    if exec.None? {
      return Rejected;
    }
    return Loaded(Found(exec, manifest, data));
  }
}
