/**
 The FUJR (`.run`) container on values: header, section table and payload as the writer lays them out,
 what the command-line reader and the kernel's loader check and in which order, and what each of them
 takes from the file.
 */
module FujrLayout {
  import opened Bytes
  import Fnv

  const MAGIC: seq<byte> := [0x46, 0x55, 0x4A, 0x52]
  const HEADER_SIZE := 64
  const ALIGN := 4096
  const TAG_MANIFEST: u32 := 1
  const TAG_EMBED: u32 := 4
  const TAG_DATA: u32 := 5
  const MAX_RES := 8
  const WORD := 0x1_0000_0000_0000_0000

  type Uid = s: seq<byte> | |s| == 16 witness [0, 0, 0, 0, 0, 0, 0, 0, 0, 0, 0, 0, 0, 0, 0, 0]

  datatype RunPart = RunPart(tag: u32, flags: u32, data: seq<byte>)

  datatype RunMeta = RunMeta(uid: Uid, targetArch: u16, baseArch: u16, sourceFormat: u32,
                             flags: u32, manifestIndex: u32)

  datatype Section = Section(tag: u32, flags: u32, offset: u64, size: u64, hash: u32)

  datatype RunInfo = RunInfo(major: u16, minor: u16, count: u32, total: u64, meta: RunMeta, sections: seq<Section>)

  datatype ReadError = TooSmall | BadMagic | HeaderSize | TotalSize | TableOverrun
                     | OutOfBounds(index: nat) | HashMismatch(index: nat)

  /** What `read_run` does: it answers, refuses, or panics on a slice whose start lies behind its end. */
  datatype ReadOutcome = Read(info: RunInfo) | Refused(error: ReadError) | Panicked

  // ------------------------------------------------------------------ writing

  function Zeros(n: nat): (s: seq<byte>) {
    seq(n, i => 0)
  }

  /** How many zero bytes bring n to the next multiple of 4096. */
  function PadLen(n: nat): (k: nat)
    ensures (n + k) % ALIGN == 0 && k < ALIGN
  {
    (ALIGN - n % ALIGN) % ALIGN
  }

  function EncodeSection(s: Section): (e: seq<byte>)
    ensures |e| == 32
  {
    LE(s.tag, 4) + LE(s.flags, 4) + LE(s.offset, 8) + LE(s.size, 8) + LE(s.hash, 4) + LE(0, 4)
  }

  function DecodeSection(e: seq<byte>): Section
    requires |e| == 32
  {
    RadixValues();
    Section(FromLE(e[0..4]), FromLE(e[4..8]), FromLE(e[8..16]), FromLE(e[16..24]), FromLE(e[24..28]))
  }

  function Table(ss: seq<Section>): (t: seq<byte>)
    ensures |t| == 32 * |ss|
  {
    if ss == [] then [] else Table(ss[..|ss| - 1]) + EncodeSection(ss[|ss| - 1])
  }

  /** Header bytes 0 to 27: magic, version 0.1, the counts and sizes. */
  function HeaderStart(count: u32, headerSize: u64, total: u64): (h: seq<byte>)
    ensures |h| == 28
  {
    MAGIC + LE(0, 2) + LE(1, 2) + LE(count, 4) + LE(headerSize, 8) + LE(total, 8)
  }

  /** Header bytes 44 to 63. */
  function HeaderEnd(m: RunMeta): (h: seq<byte>)
    ensures |h| == 20
  {
    LE(m.flags, 4) + LE(m.manifestIndex, 4) + LE(m.targetArch, 2) + LE(m.baseArch, 2) + LE(m.sourceFormat, 4) + LE(0, 4)
  }

  function Header(count: u32, headerSize: u64, total: u64, m: RunMeta): (h: seq<byte>)
    ensures |h| == HEADER_SIZE
  {
    HeaderStart(count, headerSize, total) + m.uid + HeaderEnd(m)
  }

  /** Where the payload of a container of n sections starts: the 64-byte header and 32 bytes for each entry. */
  function Head(n: nat): nat {
    64 + 32 * n
  }

  /** The payload area of a file whose payload starts at byte `head`: each part padded to the alignment. */
  function Payload(head: nat, parts: seq<RunPart>): seq<byte> {
    if parts == [] then []
    else
      var body := Payload(head, parts[..|parts| - 1]) + parts[|parts| - 1].data;
      body + Zeros(PadLen(head + |body|))
  }

  /** Where part i starts in the file. */
  function OffsetOf(head: nat, parts: seq<RunPart>, i: nat): nat
    requires i <= |parts|
  {
    head + |Payload(head, parts[..i])|
  }

  /** The writer's inputs as its 32-bit count and 64-bit sizes can hold them. */
  predicate Fits(parts: seq<RunPart>) {
    && |parts| < 0x1_0000_0000
    && OffsetOf(Head(|parts|), parts, |parts|) < WORD
  }

  lemma {:induction false} OffsetsGrow(head: nat, parts: seq<RunPart>, i: nat, j: nat)
    requires i < j <= |parts|
    ensures OffsetOf(head, parts, i) + |parts[i].data| <= OffsetOf(head, parts, j)
    ensures OffsetOf(head, parts, j) % ALIGN == 0
    decreases j
  {
    var p := parts[..j];
    assert p[..|p| - 1] == parts[..j - 1];
    if i < j - 1 {
      OffsetsGrow(head, parts, i, j - 1);
    }
  }

  function SectionOf(parts: seq<RunPart>, i: nat): (s: Section)
    requires i < |parts| && Fits(parts)
  {
    OffsetsGrow(Head(|parts|), parts, i, |parts|);
    Section(parts[i].tag, parts[i].flags, OffsetOf(Head(|parts|), parts, i), |parts[i].data|, Fnv.Hash(parts[i].data))
  }

  function Sections(parts: seq<RunPart>): seq<Section>
    requires Fits(parts)
  {
    seq(|parts|, i requires 0 <= i < |parts| => SectionOf(parts, i))
  }

  /** The file's length. */
  function Total(parts: seq<RunPart>): u64
    requires Fits(parts)
  {
    OffsetOf(Head(|parts|), parts, |parts|)
  }

  /** The container `write_run` produces (release build). */
  function WriteRun(parts: seq<RunPart>, m: RunMeta): (b: seq<byte>)
    requires Fits(parts)
    ensures |b| == Total(parts)
  {
    assert parts[..|parts|] == parts;
    var head := Head(|parts|);
    Header(|parts|, head, Total(parts), m) + Table(Sections(parts)) + Payload(head, parts)
  }

  // ------------------------------------------------------------------ reading

  function U16At(b: seq<byte>, i: nat): u16
    requires i + 2 <= |b|
  {
    RadixValues();
    FromLE(b[i..i + 2])
  }

  function U32At(b: seq<byte>, i: nat): u32
    requires i + 4 <= |b|
  {
    RadixValues();
    FromLE(b[i..i + 4])
  }

  function U64At(b: seq<byte>, i: nat): u64
    requires i + 8 <= |b|
  {
    RadixValues();
    FromLE(b[i..i + 8])
  }

  function EntryAt(b: seq<byte>, i: nat): Section
    requires Head(i + 1) <= |b|
  {
    DecodeSection(b[Head(i)..Head(i + 1)])
  }

  function TableAt(b: seq<byte>, n: nat): (ss: seq<Section>)
    requires Head(n) <= |b|
  {
    seq(n, i requires 0 <= i < n => EntryAt(b, i))
  }

  function InfoAt(b: seq<byte>): RunInfo
    requires |b| >= HEADER_SIZE && Head(U32At(b, 8)) <= |b|
  {
    RunInfo(U16At(b, 4), U16At(b, 6), U32At(b, 8), U64At(b, 20),
            RunMeta(b[28..44], U16At(b, 52), U16At(b, 54), U32At(b, 56), U32At(b, 44), U32At(b, 48)),
            TableAt(b, U32At(b, 8)))
  }

  /** The end of a section in 64-bit arithmetic, which wraps in the release build. */
  function WrappedEnd(s: Section): u64 {
    (s.offset + s.size) % WORD
  }

  /** The section lies behind the first `head` bytes, inside the file, and its bytes hash as recorded. */
  predicate Sound(b: seq<byte>, head: nat, s: Section) {
    && head <= s.offset
    && s.offset + s.size <= |b|
    && Fnv.Hash(b[s.offset..s.offset + s.size]) == s.hash
  }

  /** The verdict on one section; None lets the loop go on. */
  function Fault(b: seq<byte>, head: nat, ss: seq<Section>, i: nat): Option<ReadOutcome>
    requires i < |ss|
  {
    var s := ss[i];
    var end := WrappedEnd(s);
    if s.offset < head || end > |b| then Some(Refused(OutOfBounds(i)))
    else if end < s.offset then Some(Panicked)
    else if Fnv.Hash(b[s.offset..end]) != s.hash then Some(Refused(HashMismatch(i)))
    else None
  }

  /** The first objection to sections i, i + 1, ... */
  function FirstFault(b: seq<byte>, head: nat, ss: seq<Section>, i: nat): Option<ReadOutcome>
    requires i <= |ss|
    decreases |ss| - i
  {
    if i == |ss| then None
    else if Fault(b, head, ss, i).Some? then Fault(b, head, ss, i)
    else FirstFault(b, head, ss, i + 1)
  }

  function HeaderFault(b: seq<byte>): Option<ReadError> {
    if |b| < HEADER_SIZE then Some(TooSmall)
    else if b[0..4] != MAGIC then Some(BadMagic)
    else if U64At(b, 12) != Head(U32At(b, 8)) then Some(HeaderSize)
    else if U64At(b, 20) != |b| then Some(TotalSize)
    else if Head(U32At(b, 8)) > |b| then Some(TableOverrun)
    else None
  }

  function ReadRun(b: seq<byte>): ReadOutcome {
    if HeaderFault(b).Some? then Refused(HeaderFault(b).value)
    else
      var info := InfoAt(b);
      var fault := FirstFault(b, Head(info.count), info.sections, 0);
      if fault.Some? then fault.value else Read(info)
  }

  function SectionData(b: seq<byte>, info: RunInfo, tag: u32, i: nat): Option<seq<byte>>
    requires i <= |info.sections|
    requires forall s <- info.sections :: s.offset + s.size <= |b|
    decreases |info.sections| - i
  {
    if i == |info.sections| then None
    else
      var s := info.sections[i];
      if s.tag == tag then Some(b[s.offset..s.offset + s.size]) else SectionData(b, info, tag, i + 1)
  }

  // ------------------------------------------------------------------ the kernel's reader

  /** What the kernel loader has gathered from the sections seen so far (offsets are relative to the module). */
  datatype Found = Found(exec: Option<Section>, manifest: Option<Section>, data: seq<Section>)

  const NOTHING := Found(None, None, [])

  function Gather(f: Found, s: Section): Found {
    if s.tag == TAG_EMBED then f.(exec := Some(s))
    else if s.tag == TAG_MANIFEST then f.(manifest := Some(s))
    else if s.tag == TAG_DATA && |f.data| < MAX_RES then f.(data := f.data + [s])
    else f
  }

  function GatherAll(ss: seq<Section>): Found {
    if ss == [] then NOTHING else Gather(GatherAll(ss[..|ss| - 1]), ss[|ss| - 1])
  }

  /** Loaded, refused, or reading outside the module because offset + size wrapped. */
  datatype LoadOutcome = Loaded(found: Found) | Rejected | Strayed

  function LoadFault(b: seq<byte>, s: Section): Option<LoadOutcome> {
    if WrappedEnd(s) > |b| then Some(Rejected)
    else if s.offset + s.size >= WORD then Some(Strayed)
    else if Fnv.Hash(b[s.offset..s.offset + s.size]) != s.hash then Some(Rejected)
    else None
  }

  function LoadFrom(b: seq<byte>, ss: seq<Section>, i: nat): LoadOutcome
    requires i <= |ss|
    decreases |ss| - i
  {
    if i == |ss| then
      var found := GatherAll(ss);
      if found.exec.None? then Rejected else Loaded(found)
    else if LoadFault(b, ss[i]).Some? then LoadFault(b, ss[i]).value
    else LoadFrom(b, ss, i + 1)
  }

  /** `fujr::load` on a module of |b| bytes. */
  function Load(b: seq<byte>): LoadOutcome {
    if |b| < HEADER_SIZE || b[0..4] != MAGIC || Head(U32At(b, 8)) > |b| then Rejected
    else LoadFrom(b, TableAt(b, U32At(b, 8)), 0)
  }
}
