/** Containers that the two readers mishandle: exactly which ones, an example, and the version that neither reads. */
module FujrFaults {
  import opened Bytes
  import opened FujrLayout
  import opened FujrProofs
  import Fnv

  /** In 64 bits the section's end wraps around to a place inside the file. */
  predicate Wraps(b: seq<byte>, s: Section) {
    WORD <= s.offset + s.size <= WORD + |b|
  }

  /** Section k is the first that is not sound; it begins behind the first `head` bytes, and its end wraps. */
  predicate WrapsFirst(b: seq<byte>, head: nat, ss: seq<Section>, i: nat, k: nat)
    requires k < |ss|
  {
    && ss[k].offset >= head && Wraps(b, ss[k])
    && forall j | i <= j < k :: Sound(b, head, ss[j])
  }

  predicate SomeWraps(b: seq<byte>, head: nat, ss: seq<Section>, i: nat) {
    exists k | i <= k < |ss| :: WrapsFirst(b, head, ss, i, k)
  }

  lemma SomeWrapsStep(b: seq<byte>, head: nat, ss: seq<Section>, i: nat)
    requires i < |ss| && |b| < WORD
    ensures SomeWraps(b, head, ss, i) <==>
            WrapsFirst(b, head, ss, i, i) || (Sound(b, head, ss[i]) && SomeWraps(b, head, ss, i + 1))
  {
    if k :| i <= k < |ss| && WrapsFirst(b, head, ss, i, k) {
      assert k > i ==> WrapsFirst(b, head, ss, i + 1, k);
    }
    if Sound(b, head, ss[i]) && SomeWraps(b, head, ss, i + 1) {
      var k :| i + 1 <= k < |ss| && WrapsFirst(b, head, ss, i + 1, k);
      assert WrapsFirst(b, head, ss, i, k);
    }
  }

  lemma {:induction false} FaultPanicsIff(b: seq<byte>, head: nat, ss: seq<Section>, i: nat)
    requires i <= |ss| && |b| < WORD
    ensures FirstFault(b, head, ss, i) == Some(Panicked) <==> SomeWraps(b, head, ss, i)
    decreases |ss| - i
  {
    if i < |ss| {
      FaultPanicsIff(b, head, ss, i + 1);
      SomeWrapsStep(b, head, ss, i);
      FaultIff(b, head, ss, i);
      PanicsHere(b, head, ss, i);
    }
  }

  lemma PanicsHere(b: seq<byte>, head: nat, ss: seq<Section>, i: nat)
    requires i < |ss| && |b| < WORD
    ensures Fault(b, head, ss, i) == Some(Panicked) <==> ss[i].offset >= head && Wraps(b, ss[i])
    ensures Wraps(b, ss[i]) ==> !Sound(b, head, ss[i])
  {
    var s := ss[i];
    if s.offset + s.size < WORD {
      assert WrappedEnd(s) == s.offset + s.size;
    } else {
      assert WrappedEnd(s) == s.offset + s.size - WORD < s.offset;
    }
  }

  /** `read_run` panics exactly on the files with a good header whose first unsound section wraps. */
  lemma ReadPanicsIff(b: seq<byte>)
    ensures ReadRun(b) == Panicked <==>
            HeaderFault(b).None?
            && SomeWraps(b, Head(U32At(b, 8)), InfoAt(b).sections, 0)
  {
    if HeaderFault(b).None? {
      FaultPanicsIff(b, Head(U32At(b, 8)), InfoAt(b).sections, 0);
    }
  }

  lemma {:induction false} LoadStraysFromIff(b: seq<byte>, ss: seq<Section>, i: nat)
    requires i <= |ss| && |b| < WORD
    ensures LoadFrom(b, ss, i) == Strayed <==> SomeWraps(b, 0, ss, i)
    decreases |ss| - i
  {
    if i < |ss| {
      LoadStraysFromIff(b, ss, i + 1);
      SomeWrapsStep(b, 0, ss, i);
      StraysHere(b, ss[i]);
    }
  }

  lemma StraysHere(b: seq<byte>, s: Section)
    requires |b| < WORD
    ensures LoadFault(b, s) == Some(Strayed) <==> Wraps(b, s)
    ensures LoadFault(b, s).None? <==> Sound(b, 0, s)
  {
    if s.offset + s.size < WORD {
      assert WrappedEnd(s) == s.offset + s.size;
    } else {
      assert WrappedEnd(s) == s.offset + s.size - WORD;
    }
  }

  /** The kernel reads outside the module exactly when the table is inside it and its first unsound section wraps. */
  lemma LoadStraysIff(b: seq<byte>)
    requires |b| < WORD
    ensures Load(b) == Strayed <==>
            |b| >= HEADER_SIZE && b[0..4] == MAGIC && Head(U32At(b, 8)) <= |b|
            && SomeWraps(b, 0, TableAt(b, U32At(b, 8)), 0)
  {
    if |b| >= HEADER_SIZE && b[0..4] == MAGIC && Head(U32At(b, 8)) <= |b| {
      LoadStraysFromIff(b, TableAt(b, U32At(b, 8)), 0);
    }
  }

  // ------------------------------------------------------------------ an example for both

  /** One section of one byte at the last address there is. */
  function LastByte(): Section {
    Section(TAG_EMBED, 0, WORD - 1, 1, 0)
  }

  function Wrapping(m: RunMeta): (b: seq<byte>)
    ensures |b| == 96
  {
    Header(1, 96, 96, m) + EncodeSection(LastByte())
  }

  /** A file of 96 bytes makes `read_run` panic and the kernel's loader read outside the module. */
  lemma WrappingExample(m: RunMeta, b: seq<byte>)
    requires b == Wrapping(m)
    ensures ReadRun(b) == Panicked && Load(b) == Strayed
  {
    WrappingRead(m, b);
    var s := LastByte();
    assert WrapsFirst(b, 96, [s], 0, 0) && WrapsFirst(b, 0, [s], 0, 0);
    ReadPanicsIff(b);
    LoadStraysIff(b);
  }

  /** How its header and table read. */
  lemma WrappingRead(m: RunMeta, b: seq<byte>)
    requires b == Wrapping(m)
    ensures b[0..4] == MAGIC && U32At(b, 8) == 1 && HeaderFault(b).None?
    ensures TableAt(b, 1) == [LastByte()] && InfoAt(b).sections == [LastByte()]
  {
    var s := LastByte();
    assert b[..HEADER_SIZE] == Header(1, 96, 96, m) && b[64..96] == EncodeSection(s);
    HeaderParts(b, HeaderStart(1, 96, 96), m.uid, HeaderEnd(m));
    HeaderStartReadBack(b, HeaderStart(1, 96, 96), 1, 96, 96);
    SectionRoundTrip(s);
    assert Head(0) == 64 && Head(1) == 96;
    assert TableAt(b, 1) == [s];
  }

  // ------------------------------------------------------------------ the version

  /** Whatever stands in the version fields of an accepted container, it is accepted, with that version and otherwise
      the same information; the kernel takes the same from it. */
  lemma VersionIgnored(b: seq<byte>, p: nat, v: byte)
    requires ReadRun(b).Read? && 4 <= p < 8
    ensures |b| >= HEADER_SIZE && ReadRun(b[p := v]).Read? && Load(b[p := v]) == Load(b)
    ensures ReadRun(b[p := v]).info
         == ReadRun(b).info.(major := U16At(b[p := v], 4), minor := U16At(b[p := v], 6))
    ensures p < 6 && v != 0 ==> ReadRun(b[p := v]).info.major != 0
  {
    var c := b[p := v];
    AcceptsIff(b);
    VersionRest(b, p, v);
    var head := Head(U32At(b, 8));
    forall s | s in InfoAt(b).sections
      ensures Sound(c, head, s)
    {
      assert Sound(b, head, s);
      assert c[s.offset..s.offset + s.size] == b[s.offset..s.offset + s.size];
    }
    AcceptsIff(c);
    ReadersAgree(b);
    ReadersAgree(c);
    if p < 6 && v != 0 {
      MajorNonzero(c, p);
    }
  }

  /** Header and table but for the version fields. */
  lemma VersionRest(b: seq<byte>, p: nat, v: byte)
    requires HeaderFault(b).None? && 4 <= p < 8
    ensures var c := b[p := v];
            && HeaderFault(c).None? && U32At(c, 8) == U32At(b, 8)
            && InfoAt(c) == InfoAt(b).(major := U16At(c, 4), minor := U16At(c, 6))
  {
    var c := b[p := v];
    assert c[0..4] == b[0..4];
    assert forall i, j | 8 <= i <= j <= |b| :: c[i..j] == b[i..j];
    assert TableAt(c, U32At(b, 8)) == TableAt(b, U32At(b, 8)) by {
      forall k: nat | k < U32At(b, 8)
        ensures EntryAt(c, k) == EntryAt(b, k)
      {
        assert c[Head(k)..Head(k + 1)] == b[Head(k)..Head(k + 1)];
      }
    }
  }

  lemma MajorNonzero(c: seq<byte>, p: nat)
    requires |c| >= 6 && 4 <= p < 6 && c[p] != 0
    ensures U16At(c, 4) != 0
  {
    var f := c[4..6];
    assert f[p - 4] == c[p];
    assert FromLE(f) == f[0] + 256 * FromLE(f[1..]);
    assert FromLE(f[1..]) == f[1] + 256 * FromLE(f[1..][1..]);
  }
}
