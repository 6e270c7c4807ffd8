/** What the assembler's output is: laid out as sized, jumping where its labels are, counted as written. */
module AsmProofs {
  import opened Bytes
  import opened AsmCode
  import opened AsmSource
  import opened AsmLayout

  // ------------------------------------------------------------------ layout

  lemma {:induction false} FlattenSlice(cs: seq<Chunk>, k: nat)
    requires k < |cs|
    ensures StartsAt(Flatten(cs), |Flatten(cs[..k])|, cs[k].bytes)
  {
    var n := |cs| - 1;
    if k < n {
      FlattenSlice(cs[..n], k);
      assert cs[..n][..k] == cs[..k];
      Longer(Flatten(cs[..n]), cs[n].bytes, |Flatten(cs[..k])|, cs[k].bytes);
    }
  }

  lemma Longer(b: seq<byte>, more: seq<byte>, i: nat, e: seq<byte>)
    requires StartsAt(b, i, e)
    ensures StartsAt(b + more, i, e)
  {
    assert (b + more)[i..i + |e|] == b[i..i + |e|];
  }

  lemma {:induction false} FlattenLength(ss: seq<Stmt>, cs: seq<Chunk>, k: nat)
    requires |cs| == |ss| && k <= |ss| && forall i | 0 <= i < |ss| :: |cs[i].bytes| == Size(ss[i].item)
    ensures |Flatten(cs[..k])| == Offset(ss, k)
  {
    if k > 0 {
      FlattenLength(ss, cs, k - 1);
      assert cs[..k][..k - 1] == cs[..k - 1];
    }
  }

  lemma {:induction false} ChunkSizes(ss: seq<Stmt>, t: Labels)
    requires |t.at| == MAX_LABELS
    ensures forall i | 0 <= i < |ss| :: |Chunks(ss, t)[i].bytes| == Size(ss[i].item)
  {
  }

  /** Both passes agree: the bytes of statement k stand exactly where pass one placed it. */
  lemma {:induction false} InPlace(ss: seq<Stmt>, k: nat, t: Labels, code: seq<byte>, e: seq<byte>)
    requires k < |ss| && |t.at| == MAX_LABELS && code == Output(ss, t) && e == ItemBytes(ss[k].item, Offset(ss, k), t)
    ensures |code| == Offset(ss, |ss|)
    ensures StartsAt(code, Offset(ss, k), e) && Offset(ss, k) + |e| == Offset(ss, k + 1)
  {
    var cs := Chunks(ss, t);
    ChunkSizes(ss, t);
    FlattenLength(ss, cs, k);
    FlattenLength(ss, cs, |ss|);
    assert cs[..|ss|] == cs;
    FlattenSlice(cs, k);
  }

  lemma {:induction false} OffsetsGrow(ss: seq<Stmt>, k: nat, n: nat)
    requires k <= n <= |ss|
    ensures Offset(ss, k) <= Offset(ss, n)
    decreases n
  {
    if k < n {
      OffsetsGrow(ss, k, n - 1);
    }
  }

  // ------------------------------------------------------------------ labels

  predicate LastDefinition(ss: seq<Stmt>, v: nat, d: nat) {
    d < |ss| && ss[d].defines == v && forall i | d < i < |ss| :: ss[i].defines != v
  }

  /** A label's offset is the one its last definition records; undefined means that no line defines it. */
  lemma {:induction false} LabelOffsetIff(ss: seq<Stmt>, n: nat, v: nat)
    requires n <= |ss| && forall i | n <= i < |ss| :: ss[i].defines != v
    ensures LabelOffset(ss, n, v) == LabelOffset(ss, |ss|, v)
    ensures LabelOffset(ss, n, v).None? <==> forall i | 0 <= i < |ss| :: ss[i].defines != v
    ensures LabelOffset(ss, n, v).Some? <==> exists d: nat :: LastDefinition(ss, v, d)
    ensures forall d: nat | LastDefinition(ss, v, d) :: LabelOffset(ss, n, v) == Some(Recorded(ss, d))
    decreases n
  {
    Skips(ss, n, v);
    if n > 0 {
      if ss[n - 1].defines == v {
        assert LastDefinition(ss, v, n - 1);
      } else {
        LabelOffsetIff(ss, n - 1, v);
      }
    }
  }

  lemma {:induction false} Skips(ss: seq<Stmt>, n: nat, v: nat)
    requires n <= |ss| && forall i | n <= i < |ss| :: ss[i].defines != v
    ensures LabelOffset(ss, n, v) == LabelOffset(ss, |ss|, v)
    decreases |ss| - n
  {
    if n < |ss| {
      Skips(ss, n + 1, v);
    }
  }

  /** A label marks the place where its line begins exactly when the line is bare or what it holds takes no space. */
  lemma MarksItsLineIff(ss: seq<Stmt>, d: nat)
    requires d < |ss|
    ensures Recorded(ss, d) == Offset(ss, d) <==> ss[d].bare || Size(ss[d].item) == 0
  {
  }

  lemma {:induction false} HighestCovers(ss: seq<Stmt>, n: nat, v: nat)
    requires v < n && LabelOffset(ss, |ss|, v).Some?
    ensures v < Highest(ss, n)
    decreases n
  {
    if LabelOffset(ss, |ss|, n - 1).None? {
      HighestCovers(ss, n - 1, v);
    }
  }

  // ------------------------------------------------------------------ jumps

  /** A 32-bit displacement as the processor adds it. */
  predicate FitsI32(v: int) {
    -0x8000_0000 <= v < 0x8000_0000
  }

  function Signed(rel: u32): int {
    if rel < 0x8000_0000 then rel else rel - CAST
  }

  lemma SignedBack(distance: int, rel: u32)
    requires rel == distance % CAST
    ensures Signed(rel) == distance <==> FitsI32(distance)
  {
  }

  lemma {:induction false} LabelInTable(ss: seq<Stmt>, stale: seq<nat>, v: nat, d: nat, t: Labels)
    requires |stale| == MAX_LABELS && v < MAX_LABELS && LastDefinition(ss, v, d) && t == Table(ss, stale)
    ensures v < t.n && t.at[v] == Recorded(ss, d)
  {
    LabelOffsetIff(ss, |ss|, v);
    HighestCovers(ss, MAX_LABELS, v);
  }

  lemma {:induction false} Near(ss: seq<Stmt>, k: nat, d: nat)
    requires k < |ss| && d < |ss| && Offset(ss, |ss|) < 0x8000_0000
    ensures Reaches(ss, k, d)
  {
    OffsetsGrow(ss, d, |ss|);
    OffsetsGrow(ss, d + 1, |ss|);
    OffsetsGrow(ss, k + 1, |ss|);
  }

  /** A jump at statement k with displacement rel leads to what statement d defines. */
  predicate Leads(ss: seq<Stmt>, k: nat, d: nat, rel: u32)
    requires k < |ss| && d < |ss|
  {
    Offset(ss, k + 1) + Signed(rel) == Recorded(ss, d)
  }

  /** The distance from the end of statement k to what statement d defines fits 32 bits. */
  predicate Reaches(ss: seq<Stmt>, k: nat, d: nat)
    requires k < |ss| && d < |ss|
  {
    FitsI32(Recorded(ss, d) - Offset(ss, k + 1))
  }

  /** The displacement of a jump to a defined label leads from the jump's end to the label's offset, if 32 bits hold it. */
  lemma {:induction false} Displacement(ss: seq<Stmt>, stale: seq<nat>, k: nat, j: Branch, v: nat, d: nat, rel: u32)
    requires |stale| == MAX_LABELS && k < |ss|
    requires ss[k].item == Code(ToLabel(j, v)) && v < MAX_LABELS && LastDefinition(ss, v, d)
    requires rel == RelOf(j, v, Offset(ss, k), Table(ss, stale))
    ensures Leads(ss, k, d, rel) <==> Reaches(ss, k, d)
    ensures Offset(ss, |ss|) < 0x8000_0000 ==> Reaches(ss, k, d)
  {
    LabelInTable(ss, stale, v, d, Table(ss, stale));
    if Offset(ss, |ss|) < 0x8000_0000 {
      Near(ss, k, d);
    }
    SignedBack(Recorded(ss, d) - Offset(ss, k + 1), rel);
  }

  /** Every jump to a defined label reads back as a jump, which lands on the label's offset exactly when the distance
      fits 32 bits; it always does in a program of less than 2^31 bytes. */
  lemma {:induction false} JumpLands(ss: seq<Stmt>, stale: seq<nat>, k: nat, j: Branch, v: nat, d: nat, code: seq<byte>) returns (rel: u32)
    requires |stale| == MAX_LABELS && k < |ss| && code == Output(ss, Table(ss, stale))
    requires ss[k].item == Code(ToLabel(j, v)) && v < MAX_LABELS && LastDefinition(ss, v, d)
    ensures Offset(ss, k) <= |code| && Decode(code, Offset(ss, k)) == Some(Jump(j, rel))
    ensures Leads(ss, k, d, rel) <==> Reaches(ss, k, d)
    ensures |code| < 0x8000_0000 ==> Leads(ss, k, d, rel)
  {
    rel := RelOf(j, v, Offset(ss, k), Table(ss, stale));
    JumpReads(ss, Table(ss, stale), Offset(ss, k), k, j, v, rel, code);
    Displacement(ss, stale, k, j, v, d, rel);
  }

  lemma {:induction false} JumpReads(ss: seq<Stmt>, t: Labels, pc: nat, k: nat, j: Branch, v: nat, rel: u32, code: seq<byte>)
    requires |t.at| == MAX_LABELS && k < |ss| && code == Output(ss, t) && pc == Offset(ss, k)
    requires ss[k].item == Code(ToLabel(j, v)) && rel == RelOf(j, v, pc, t)
    ensures pc <= |code| == Offset(ss, |ss|) && Decode(code, pc) == Some(Jump(j, rel))
  {
    InPlace(ss, k, t, code, Encode(Jump(j, rel)));
    DecodeEncoded(code, pc, Jump(j, rel), Encode(Jump(j, rel)));
  }

  // ------------------------------------------------------------------ counting

  predicate OnlyCode(ss: seq<Stmt>) {
    forall k | 0 <= k < |ss| :: !ss[k].item.Data? && Sizable(ss[k].item)
  }

  /** The instructions written from statement k on, up to and including the first ret. */
  function CountFrom(ss: seq<Stmt>, k: nat): nat
    requires k <= |ss|
    decreases |ss| - k
  {
    if k == |ss| then 0
    else if !ss[k].item.Code? then CountFrom(ss, k + 1)
    else if ss[k].item.p == Fixed(Ret) then 1
    else 1 + CountFrom(ss, k + 1)
  }

  /** Statement k, if it is an instruction, has its bytes between its offset and the next. */
  predicate Sits(ss: seq<Stmt>, t: Labels, code: seq<byte>, k: nat)
    requires k < |ss| && |t.at| == MAX_LABELS
  {
    ss[k].item.Code? && Sizable(ss[k].item) ==>
      var e := Encode(Resolve(ss[k].item.p, Offset(ss, k), t));
      StartsAt(code, Offset(ss, k), e) && Offset(ss, k) + |e| == Offset(ss, k + 1)
  }

  lemma {:induction false} AllSit(ss: seq<Stmt>, t: Labels, code: seq<byte>)
    requires |t.at| == MAX_LABELS && code == Output(ss, t)
    ensures |code| == Offset(ss, |ss|) && forall k | 0 <= k < |ss| :: Sits(ss, t, code, k)
  {
    ChunkSizes(ss, t);
    FlattenLength(ss, Chunks(ss, t), |ss|);
    assert Chunks(ss, t)[..|ss|] == Chunks(ss, t);
    forall k | 0 <= k < |ss|
      ensures Sits(ss, t, code, k)
    {
      InPlace(ss, k, t, code, ItemBytes(ss[k].item, Offset(ss, k), t));
    }
  }

  lemma StepOver(b: seq<byte>, i: nat, insn: Insn, e: seq<byte>)
    requires e == Encode(insn) && StartsAt(b, i, e)
    ensures VerifyFrom(b, i) == if insn == Ret then 1 else 1 + VerifyFrom(b, i + |e|)
  {
    StepOverEncoded(b, i, insn, e);
  }

  lemma {:induction false} VerifyStep(ss: seq<Stmt>, t: Labels, code: seq<byte>, k: nat)
    requires |t.at| == MAX_LABELS && k < |ss| && Sits(ss, t, code, k) && ss[k].item.Code? && Sizable(ss[k].item)
    ensures VerifyFrom(code, Offset(ss, k)) == if ss[k].item.p == Fixed(Ret) then 1 else 1 + VerifyFrom(code, Offset(ss, k + 1))
  {
    var insn := Resolve(ss[k].item.p, Offset(ss, k), t);
    StepOver(code, Offset(ss, k), insn, Encode(insn));
  }

  /** On a program without data the length decoder counts exactly the instructions up to the first ret. */
  lemma {:induction false} VerifyCounts(ss: seq<Stmt>, t: Labels, code: seq<byte>, k: nat)
    requires |t.at| == MAX_LABELS && OnlyCode(ss) && k <= |ss| && |code| == Offset(ss, |ss|)
    requires forall i | 0 <= i < |ss| :: Sits(ss, t, code, i)
    ensures VerifyFrom(code, Offset(ss, k)) == CountFrom(ss, k)
    decreases |ss| - k
  {
    if k < |ss| {
      VerifyCounts(ss, t, code, k + 1);
      if ss[k].item.Code? {
        assert Sits(ss, t, code, k);
        VerifyStep(ss, t, code, k);
      } else {
        assert Offset(ss, k + 1) == Offset(ss, k);
      }
    }
  }

  /** Assembling and verifying, together. */
  lemma {:induction false} AssembledCount(ss: seq<Stmt>, stale: seq<nat>, cap: nat)
    requires |stale| == MAX_LABELS && Assemble(ss, stale, cap).Done?
    requires forall k | 0 <= k < |ss| :: !ss[k].item.Data?
    ensures VerifyFrom(Assemble(ss, stale, cap).code, 0) == CountFrom(ss, 0)
  {
    var t := Table(ss, stale);
    NoneBad(ss, 0);
    AllSit(ss, t, Output(ss, t));
    VerifyCounts(ss, t, Output(ss, t), 0);
  }

  lemma {:induction false} NoneBad(ss: seq<Stmt>, k: nat)
    requires k <= |ss| && FirstBad(ss, k).None?
    ensures forall i | k <= i < |ss| :: Sizable(ss[i].item)
    decreases |ss| - k
  {
    if k < |ss| {
      NoneBad(ss, k + 1);
    }
  }

  /** A jump of statement k below the highest defined label goes to a label that the program defines. */
  predicate Closed(ss: seq<Stmt>, k: nat)
    requires k < |ss|
  {
    ss[k].item.Code? && ss[k].item.p.ToLabel? && 0 <= ss[k].item.p.number < Highest(ss, MAX_LABELS)
    ==> LabelOffset(ss, |ss|, ss[k].item.p.number).Some?
  }

  /** The output is the same for all contents that earlier programs may have left in the label table. */
  ghost predicate IndependentOfTable(ss: seq<Stmt>) {
    forall s1: seq<nat>, s2: seq<nat> | |s1| == MAX_LABELS && |s2| == MAX_LABELS ::
      Output(ss, Table(ss, s1)) == Output(ss, Table(ss, s2))
  }

  /** The output depends on nothing but the program exactly when every jump below the highest label that it defines
      goes to a label that it defines. */
  lemma {:induction false} NoStaleLabelsIff(ss: seq<Stmt>)
    ensures IndependentOfTable(ss) <==> forall k | 0 <= k < |ss| :: Closed(ss, k)
  {
    if forall k | 0 <= k < |ss| :: Closed(ss, k) {
      forall s1: seq<nat>, s2: seq<nat> | |s1| == MAX_LABELS && |s2| == MAX_LABELS
        ensures Output(ss, Table(ss, s1)) == Output(ss, Table(ss, s2))
      {
        NoStaleLabels(ss, s1, s2);
      }
    } else {
      var k :| 0 <= k < |ss| && !Closed(ss, k);
      var s1, s2 := StaleLabel(ss, k);
    }
  }

  lemma {:induction false} NoStaleLabels(ss: seq<Stmt>, s1: seq<nat>, s2: seq<nat>)
    requires |s1| == MAX_LABELS && |s2| == MAX_LABELS && forall k | 0 <= k < |ss| :: Closed(ss, k)
    ensures Output(ss, Table(ss, s1)) == Output(ss, Table(ss, s2))
  {
    forall k | 0 <= k < |ss|
      ensures Chunks(ss, Table(ss, s1))[k] == Chunks(ss, Table(ss, s2))[k]
    {
      assert Closed(ss, k);
      HighestBound(ss, MAX_LABELS);
      SameRel(ss, ss[k].item, Offset(ss, k), Table(ss, s1), Table(ss, s2));
    }
    assert Chunks(ss, Table(ss, s1)) == Chunks(ss, Table(ss, s2));
  }

  lemma {:induction false} HighestBound(ss: seq<Stmt>, v: nat)
    ensures Highest(ss, v) <= v
  {
    if v > 0 {
      HighestBound(ss, v - 1);
    }
  }

  /** Two tables that differ at an undefined label give two displacements to a jump that goes there. */
  lemma {:induction false} StaleLabel(ss: seq<Stmt>, k: nat) returns (s1: seq<nat>, s2: seq<nat>)
    requires k < |ss| && !Closed(ss, k)
    ensures |s1| == MAX_LABELS && |s2| == MAX_LABELS && Output(ss, Table(ss, s1)) != Output(ss, Table(ss, s2))
  {
    var p := ss[k].item.p;
    HighestBound(ss, MAX_LABELS);
    s1 := seq(16, _ => 0);
    s2 := s1[p.number := 1];
    var t1, t2 := Table(ss, s1), Table(ss, s2);
    assert t1.at[p.number] == 0 && t2.at[p.number] == 1;
    var e1, e2 := ItemBytes(ss[k].item, Offset(ss, k), t1), ItemBytes(ss[k].item, Offset(ss, k), t2);
    InPlace(ss, k, t1, Output(ss, t1), e1);
    InPlace(ss, k, t2, Output(ss, t2), e2);
    OtherBytes(p, Offset(ss, k), t1, t2);
  }

  lemma OtherBytes(p: Parsed, pc: nat, t: Labels, u: Labels)
    requires |t.at| == MAX_LABELS && |u.at| == MAX_LABELS && t.n == u.n
    requires p.ToLabel? && 0 <= p.number < MAX_LABELS && p.number < t.n && t.at[p.number] == 0 && u.at[p.number] == 1
    ensures ItemBytes(Code(p), pc, t) != ItemBytes(Code(p), pc, u)
  {
    NextDiffers(pc + BranchSize(p.j));
    if ItemBytes(Code(p), pc, t) == ItemBytes(Code(p), pc, u) {
      EncodeInjective(Resolve(p, pc, t), Resolve(p, pc, u));
    }
  }

  lemma NextDiffers(end: nat)
    ensures (0 - end) % CAST != (1 - end) % CAST
  {
  }

  /** L1: jmp L0 */
  function StaleProgram(): seq<Stmt> {
    [Stmt(1, true, Nothing), Stmt(-1, true, Code(ToLabel(Jmp, 0)))]
  }

  /** This program assembles, and its output depends on what an earlier program left at label 0. */
  lemma StaleExample() returns (s1: seq<nat>, s2: seq<nat>)
    ensures |s1| == MAX_LABELS && |s2| == MAX_LABELS
    ensures var o1, o2 := Assemble(StaleProgram(), s1, 64), Assemble(StaleProgram(), s2, 64);
            o1.Done? && o2.Done? && o1.code != o2.code
  {
    var ss := StaleProgram();
    assert LabelOffset(ss, 2, 1) == Some(0) && LabelOffset(ss, 2, 0) == None;
    HighestCovers(ss, MAX_LABELS, 1);
    assert !Closed(ss, 1);
    s1, s2 := StaleLabel(ss, 1);
    assert FirstBad(ss, 0) == FirstBad(ss, 1) == FirstBad(ss, 2) == None;
  }

  lemma SameRel(ss: seq<Stmt>, i: Item, pc: nat, t: Labels, u: Labels)
    requires |t.at| == MAX_LABELS && |u.at| == MAX_LABELS && t.n == u.n
    requires i.Code? && i.p.ToLabel? && 0 <= i.p.number < MAX_LABELS && i.p.number < t.n ==>
               t.at[i.p.number] == u.at[i.p.number]
    ensures ItemBytes(i, pc, t) == ItemBytes(i, pc, u)
  {
  }

  // ------------------------------------------------------------------ the output buffer

  /** What assembles has the length that pass one computes, so it fits the buffer exactly when that length does. */
  lemma {:induction false} OutputFitsIff(ss: seq<Stmt>, stale: seq<nat>, cap: nat)
    requires |stale| == MAX_LABELS && Assemble(ss, stale, cap).Done?
    ensures |Assemble(ss, stale, cap).code| == Offset(ss, |ss|)
    ensures |Assemble(ss, stale, cap).code| <= cap <==> Offset(ss, |ss|) <= cap
  {
    AllSit(ss, Table(ss, stale), Output(ss, Table(ss, stale)));
  }

  /** n lines that each hold a nop. */
  function Nops(n: nat): (ss: seq<Stmt>)
    ensures |ss| == n
  {
    seq(n, _ => Stmt(-1, false, Code(Fixed(Nop))))
  }

  lemma {:induction false} NopsSized(n: nat, k: nat)
    requires k <= n
    ensures Offset(Nops(n), k) == k
  {
    if k > 0 {
      NopsSized(n, k - 1);
    }
  }

  lemma {:induction false} NopsSizable(n: nat, k: nat)
    requires k <= n
    ensures FirstBad(Nops(n), k) == None
    decreases n - k
  {
    if k < n {
      NopsSizable(n, k + 1);
    }
  }

  /** 65 nops overrun a buffer of 64 bytes, and so does any larger number of them a larger buffer that it exceeds. */
  lemma OverrunExample(n: nat, cap: nat, stale: seq<nat>)
    requires 64 <= cap < n && |stale| == MAX_LABELS
    ensures Assemble(Nops(n), stale, cap).Done? && |Assemble(Nops(n), stale, cap).code| == n > cap
  {
    NopsSizable(n, 0);
    NopsSized(n, n);
    OutputFitsIff(Nops(n), stale, cap);
  }
}
