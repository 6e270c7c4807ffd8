/**
 The assembler's code: `emit_insn`, and the two scanning passes over the label table it keeps. The first
 pass measures each line and notes labels, the second one emits into the output buffer; both are proved
 against the listing on values.
 */
module Asm {
  import opened Bytes
  import opened AsmCode
  import opened AsmSource
  import opened AsmLayout
  import AsmProofs

  /** What `emit_insn` does: it writes bytes, or says no, or indexes an empty operand. */
  datatype Emitted = Wrote(bytes: seq<byte>) | Refused | Crashed

  function EmittedOf(p: Parsed, pc: nat, t: Labels): Emitted
    requires |t.at| == MAX_LABELS
  {
    match p
    case Unsupported => Refused
    case Panics => Crashed
    case _ => Wrote(Encode(Resolve(p, pc, t)))
  }

  /** `emit_insn` */
  method EmitInsn(op: string, args: seq<Tok>, pc: nat, t: Labels) returns (r: Emitted)
    requires |t.at| == MAX_LABELS
    ensures r == EmittedOf(Parse(op, args), pc, t)
  {
    if op == "nop" {
      return Wrote([0x90]);
    }
    if op == "ret" {
      return Wrote([0xC3]);
    }
    if op == "int3" {
      return Wrote([0xCC]);
    }
    if op == "syscall" {
      return Wrote([0x0F, 0x05]);
    }
    if op == "mov" {
      if |args| == 2 {
        r := EmitMov(args);
        return;
      }
      return Refused;
    }
    if AluOf(op).Some? {
      r := EmitAlu(AluOf(op).value, args);
      return;
    }
    if |args| != 1 {
      return Refused;
    }
    if BranchOf(op).Some? {
      r := EmitBranch(BranchOf(op).value, args[0].text, pc, t);
      return;
    }
    r := EmitUnary(op, args[0].text);
  }

  method EmitMov(args: seq<Tok>) returns (r: Emitted)
    requires |args| == 2
    ensures forall pc, t: Labels | |t.at| == MAX_LABELS :: r == EmittedOf(ParseMov(args), pc, t)
  {
    var rd := RegOf(args[0].text);
    var src := args[1].text;
    if src == "" {
      return Crashed;
    }
    var isImm := IsDigit(src[0]) || src[0] == '$' || src[0] == '-';
    if rd.Some? {
      if isImm {
        var v := ParseNum(src);
        return Wrote([0x48, 0xB8 + rd.value] + LE(v, 8));
      } else if RegOf(src).Some? {
        return Wrote([0x48, 0x89, 0xC0 + rd.value + RegOf(src).value * 8]);
      }
    }
    return Refused;
  }

  method EmitAlu(a: Alu, args: seq<Tok>) returns (r: Emitted)
    ensures forall pc, t: Labels | |t.at| == MAX_LABELS :: r == EmittedOf(ParseAlu(a, args), pc, t)
  {
    var rrOp := AluOpcode(a);
    if |args| == 2 {
      var rd := RegOf(args[0].text);
      if rd.Some? {
        var rs := RegOf(args[1].text);
        if rs.Some? {
          return Wrote([0x48, rrOp, 0xC0 + rd.value + rs.value * 8]);
        }
        var digit := AluDigit(a);
        return Wrote([0x48, 0x83, 0xC0 + rd.value + digit * 8, ParseNum(args[1].text) % 256]);
      }
    }
    return Refused;
  }

  method EmitUnary(op: string, text: string) returns (r: Emitted)
    ensures forall pc, t: Labels | |t.at| == MAX_LABELS :: r == EmittedOf(ParseUnary(op, text), pc, t)
  {
    var rd := RegOf(text);
    if (op == "inc" || op == "dec") && rd.Some? {
      var n: nat := rd.value;
      var m: byte := if op[0] == 'i' then 0xC0 + n else 0xC8 + n;
      return Wrote([0x48, 0xFF, m]);
    }
    if (op == "push" || op == "pop") && rd.Some? {
      var n: nat := rd.value;
      var b: byte := if op[0] == 'p' && op[2] == 's' then 0x50 + n else 0x58 + n;
      return Wrote([b]);
    }
    return Refused;
  }

  method EmitBranch(j: Branch, name: string, pc: nat, t: Labels) returns (r: Emitted)
    requires |t.at| == MAX_LABELS
    ensures r == EmittedOf(ToLabel(j, LabelNo(name)), pc, t)
  {
    var num := -1;
    if |name| >= 2 && name[0] == 'L' {
      num := LabelFold(name, 1, 0);
    }
    var rel: u32 := 0;
    if num >= 0 && num < MAX_LABELS && num < t.n {
      var sizeAfter := if j == Jmp then 5 else 6;
      rel := (t.at[num] - (pc + sizeAfter)) % CAST;
    }
    if j == Jmp {
      return Wrote([0xE9] + LE(rel, 4));
    }
    return Wrote([0x0F, if j == Je then 0x84 else 0x85] + LE(rel, 4));
  }

  /** Splitting the label off a line. */
  method SplitLine(l: SrcLine, curLabel: int) returns (found: int, body: seq<Tok>)
    requires !(0 <= curLabel < MAX_LABELS)
    ensures body == Body(l)
    ensures 0 <= LabelOf(l) < MAX_LABELS ==> found == LabelOf(l)
    ensures !(0 <= LabelOf(l) < MAX_LABELS) ==> !(0 <= found < MAX_LABELS)
  {
    found := curLabel;
    body := l.toks;
    if |l.toks| >= 1 && |l.toks[0].text| >= 2 && l.toks[0].text[|l.toks[0].text| - 1] == ':' {
      var nm := l.toks[0].text[..|l.toks[0].text| - 1];
      if |nm| >= 2 && nm[0] == 'L' {
        found := LabelFold(nm, 1, 0);
      }
      body := l.toks[1..];
    }
  }

  /** The size of what a line holds, by emitting it: None is a refusal or a crash. */
  method MeasureBody(body: seq<Tok>, pc: nat, t: Labels, ghost item: Item) returns (size: Option<nat>, crashed: bool)
    requires body != [] && |t.at| == MAX_LABELS && item == ItemOfBody(body)
    ensures Sizable(item) ==> size == Some(Size(item))
    ensures !Sizable(item) ==> size.None? && crashed == item.p.Panics?
  {
    crashed := false;
    var op := body[0].text;
    if op == ".byte" || op == ".quad" || op == ".word" || op == ".text" {
      var sz := if op == ".byte" then 1 else if op == ".word" then 2 else 8;
      return Some(if op != ".text" && |body| >= 2 then sz else 0), false;
    }
    var e := EmitInsn(op, body[1..], pc, t);
    EmittedSize(Parse(op, body[1..]), pc, t);
    match e
    case Wrote(bytes) => return Some(|bytes|), false;
    case Refused => return None, false;
    case Crashed => return None, true;
  }

  lemma EmittedSize(p: Parsed, pc: nat, t: Labels)
    requires |t.at| == MAX_LABELS
    ensures var e := EmittedOf(p, pc, t);
            && (e.Wrote? <==> p.Fixed? || p.ToLabel?) && (e.Crashed? <==> p.Panics?)
            && (e.Wrote? ==> |e.bytes| == Length(p) && e.bytes == ItemBytes(Code(p), pc, t))
  {
  }

  /** The bytes of what a line holds. */
  method EmitBody(body: seq<Tok>, pc: nat, t: Labels, ghost item: Item) returns (bytes: seq<byte>)
    requires body != [] && |t.at| == MAX_LABELS && item == ItemOfBody(body) && Sizable(item)
    ensures bytes == ItemBytes(item, pc, t)
  {
    var op := body[0].text;
    if op == ".text" {
      return [];
    }
    if op == ".byte" || op == ".word" || op == ".quad" {
      if |body| >= 2 {
        var v := ParseNum(body[1].text);
        var sz := if op == ".byte" then 1 else if op == ".word" then 2 else 8;
        return LE(v, sz);
      }
      return [];
    }
    var e := EmitInsn(op, body[1..], pc, t);
    EmittedSize(Parse(op, body[1..]), pc, t);
    return e.bytes;
  }

  datatype Scan = Scanned | Rejected(panics: bool)

  class Assembler {
    const labelAt: array<nat>
    var labelN: nat

    ghost predicate Valid()
      reads this, labelAt
    {
      labelAt.Length == MAX_LABELS
    }

    constructor ()
      ensures Valid() && fresh(labelAt) && labelN == 0
    {
      labelAt := new nat[MAX_LABELS](_ => 0);
      labelN := 0;
    }

    /** Pass one: sizes every line and notes where each label comes to stand. */
    method PassOne(lines: seq<SrcLine>, ghost ss: seq<Stmt>, off: array<nat>, seen: array<bool>) returns (r: Scan)
      requires Valid() && ss == Stmts(lines) && off.Length == MAX_LABELS && seen.Length == MAX_LABELS
      requires off != labelAt && forall v | 0 <= v < MAX_LABELS :: !seen[v]
      modifies off, seen
      ensures Valid()
      ensures r.Scanned? <==> FirstBad(ss, 0).None?
      ensures r.Rejected? ==> r.panics == FirstBad(ss, 0).value.Panics?
      ensures r.Scanned? ==> forall v | 0 <= v < MAX_LABELS :: Noted(ss, |ss|, v, seen[v], off[v])
    {
      var pc: nat := 0;
      var curLabel := -1;
      var stale := Labels(labelAt[..], labelN);
      for k := 0 to |lines|
        modifies off, seen
        invariant pc == Offset(ss, k) && !(0 <= curLabel < MAX_LABELS)
        invariant FirstBad(ss, 0) == FirstBad(ss, k)
        invariant forall v | 0 <= v < MAX_LABELS :: Noted(ss, k, v, seen[v], off[v])
      {
        var size, crashed;
        curLabel, size, crashed := MeasureLine(lines[k], curLabel, pc, stale, ss[k]);
        if size.None? {
          return Rejected(crashed);
        }
        pc := pc + size.value;
        curLabel := NoteLabel(curLabel, pc, ss, k, off, seen);
      }
      return Scanned;
    }

    /** The label that a line defines comes to stand behind what the line holds. */
    static method NoteLabel(num: int, pc: nat, ghost ss: seq<Stmt>, ghost k: nat, off: array<nat>, seen: array<bool>)
      returns (curLabel: int)
      requires off.Length == MAX_LABELS && seen.Length == MAX_LABELS && k < |ss| && pc == Offset(ss, k + 1)
      requires ss[k].bare ==> Size(ss[k].item) == 0
      requires if 0 <= ss[k].defines < MAX_LABELS then num == ss[k].defines else !(0 <= num < MAX_LABELS)
      requires forall v | 0 <= v < MAX_LABELS :: Noted(ss, k, v, seen[v], off[v])
      modifies off, seen
      ensures forall v | 0 <= v < MAX_LABELS :: Noted(ss, k + 1, v, seen[v], off[v])
      ensures !(0 <= curLabel < MAX_LABELS)
    {
      curLabel := num;
      NotedNext(ss, k, pc);
      if 0 <= curLabel < MAX_LABELS {
        seen[curLabel] := true;
        off[curLabel] := pc;
        curLabel := -1;
      }
    }

    /** The label a line defines, or none in range, and the size of what it holds. */
    static method MeasureLine(l: SrcLine, curLabel: int, pc: nat, t: Labels, ghost s: Stmt)
      returns (found: int, size: Option<nat>, crashed: bool)
      requires !(0 <= curLabel < MAX_LABELS) && |t.at| == MAX_LABELS && s == StmtOf(l)
      ensures if 0 <= s.defines < MAX_LABELS then found == s.defines else !(0 <= found < MAX_LABELS)
      ensures Sizable(s.item) ==> size == Some(Size(s.item))
      ensures !Sizable(s.item) ==> size.None? && crashed == s.item.p.Panics?
      ensures s.bare ==> Size(s.item) == 0
    {
      var body;
      found, body := SplitLine(l, curLabel);
      size, crashed := Some(0), false;
      if body != [] {
        size, crashed := MeasureBody(body, pc, t, ItemOfBody(body));
      }
    }

    /** Pass two: the bytes, with the labels that pass one noted. */
    method PassTwo(lines: seq<SrcLine>, ghost ss: seq<Stmt>, t: Labels) returns (out: seq<byte>)
      requires ss == Stmts(lines) && |t.at| == MAX_LABELS && forall k | 0 <= k < |ss| :: Sizable(ss[k].item)
      ensures out == Output(ss, t)
    {
      var pc: nat := 0;
      ghost var cs := Chunks(ss, t);
      out := [];
      for k := 0 to |lines|
        invariant pc == Offset(ss, k) && out == Flatten(cs[..k])
      {
        var bytes := EmitLine(lines[k], pc, t, ss[k]);
        NextChunk(ss, t, k, cs, bytes);
        out := out + bytes;
        pc := pc + |bytes|;
      }
      assert cs[..|lines|] == cs;
    }

    /** The bytes of one line; a label takes none. */
    static method EmitLine(l: SrcLine, pc: nat, t: Labels, ghost s: Stmt) returns (bytes: seq<byte>)
      requires |t.at| == MAX_LABELS && s == StmtOf(l) && Sizable(s.item)
      ensures bytes == ItemBytes(s.item, pc, t)
    {
      var none, body := SplitLine(l, -1);
      bytes := [];
      if body != [] {
        bytes := EmitBody(body, pc, t, ItemOfBody(body));
      }
    }

    /** The label table between the passes: noted labels replace what was there. */
    method StoreLabels(ghost ss: seq<Stmt>, off: array<nat>, seen: array<bool>)
      requires Valid() && off.Length == MAX_LABELS && seen.Length == MAX_LABELS && off != labelAt
      requires forall v | 0 <= v < MAX_LABELS :: Noted(ss, |ss|, v, seen[v], off[v])
      modifies this, labelAt
      ensures Valid() && Labels(labelAt[..], labelN) == Table(ss, old(labelAt[..]))
    {
      labelN := 0;
      for i := 0 to MAX_LABELS
        modifies this, labelAt
        invariant labelN == Highest(ss, i)
        invariant forall v | 0 <= v < i :: labelAt[v] == LabelOffset(ss, |ss|, v).GetOr(old(labelAt[v]))
        invariant forall v | i <= v < MAX_LABELS :: labelAt[v] == old(labelAt[v])
      {
        assert Noted(ss, |ss|, i, seen[i], off[i]);
        if seen[i] {
          labelAt[i] := off[i];
          if i + 1 > labelN {
            labelN := i + 1;
          }
        }
        AsmProofs.HighestBound(ss, i);
      }
      assert labelAt[..] == Table(ss, old(labelAt[..])).at;
    }

    /** `fujo_asm_assemble` on tokenised lines. */
    method Run(lines: seq<SrcLine>, cap: nat) returns (r: Outcome)
      requires Valid()
      modifies this, labelAt
      ensures Valid() && r == Assemble(Stmts(lines), old(labelAt[..]), cap)
      ensures r.Done? ==> Labels(labelAt[..], labelN) == Table(Stmts(lines), old(labelAt[..]))
      ensures !r.Done? ==> labelAt[..] == old(labelAt[..]) && labelN == old(labelN)
    {
      ghost var ss := Stmts(lines);
      var off := new nat[MAX_LABELS](_ => 0);
      var seen := new bool[MAX_LABELS](_ => false);
      var scan := PassOne(lines, ss, off, seen);
      if scan.Rejected? {
        return if scan.panics then Panicked else Fails(-22);
      }
      if cap < 64 {
        return Fails(-14);
      }
      StoreLabels(ss, off, seen);
      AsmProofs.NoneBad(ss, 0);
      var code := PassTwo(lines, ss, Labels(labelAt[..], labelN));
      return Done(code);
    }
  }

  /** The pass-one arrays describe label v after the first n statements. */
  ghost predicate Noted(ss: seq<Stmt>, n: nat, v: nat, seen: bool, off: nat)
    requires n <= |ss|
  {
    LabelOffset(ss, n, v) == if seen then Some(off) else None
  }

  /** What the arrays have to say after statement k: its own label stands at the next offset, the others where they were. */
  lemma {:induction false} NotedNext(ss: seq<Stmt>, k: nat, pc: nat)
    requires k < |ss| && pc == Offset(ss, k + 1) && (ss[k].bare ==> Size(ss[k].item) == 0)
    ensures forall v: nat, seen: bool, off: nat | v != ss[k].defines && Noted(ss, k, v, seen, off) :: Noted(ss, k + 1, v, seen, off)
    ensures ss[k].defines >= 0 ==> Noted(ss, k + 1, ss[k].defines, true, pc)
  {
  }

  lemma {:induction false} NextChunk(ss: seq<Stmt>, t: Labels, k: nat, cs: seq<Chunk>, bytes: seq<byte>)
    requires k < |ss| && |t.at| == MAX_LABELS && cs == Chunks(ss, t) && bytes == ItemBytes(ss[k].item, Offset(ss, k), t)
    ensures Flatten(cs[..k + 1]) == Flatten(cs[..k]) + bytes && Offset(ss, k + 1) == Offset(ss, k) + |bytes|
  {
    ChunkAt(ss, t, k);
    FlattenNext(cs, k, bytes);
  }

  lemma {:induction false} ChunkAt(ss: seq<Stmt>, t: Labels, k: nat)
    requires k < |ss| && |t.at| == MAX_LABELS
    ensures Chunks(ss, t)[k].bytes == ItemBytes(ss[k].item, Offset(ss, k), t)
  {
  }

  lemma {:induction false} FlattenNext(cs: seq<Chunk>, k: nat, bytes: seq<byte>)
    requires k < |cs| && cs[k].bytes == bytes
    ensures Flatten(cs[..k + 1]) == Flatten(cs[..k]) + bytes
  {
    assert cs[..k + 1][..k] == cs[..k];
  }
}
