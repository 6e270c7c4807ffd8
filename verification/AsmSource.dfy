/**
 Tokenised assembler source on values: operands, registers and numbers as the parser reads them, what a
 line stands for, with the errors it can have, and the data directives with the bytes each of them
 takes.
 */
module AsmSource {
  import opened Bytes
  import opened AsmCode

  const MAX_LABELS := 16
  const WORD := 0x1_0000_0000_0000_0000
  const HALF := 0x8000_0000_0000_0000
  const CAST := 0x1_0000_0000

  datatype Tok = Tok(text: string)

  /** A line without its comment: at most four words, trailing commas removed. */
  datatype SrcLine = SrcLine(toks: seq<Tok>)

  // ------------------------------------------------------------------ operands

  predicate IsDigit(c: char) {
    '0' <= c <= '9'
  }

  function HexValue(c: char): nat {
    if IsDigit(c) then c as int - '0' as int
    else if 'a' <= c <= 'f' then c as int - 'a' as int + 10
    else if 'A' <= c <= 'F' then c as int - 'A' as int + 10
    else 0
  }

  function HexFold(t: string, i: nat, v: u64): u64
    requires i <= |t|
    decreases |t| - i
  {
    if i == |t| then v else HexFold(t, i + 1, (v * 16 + HexValue(t[i])) % WORD)
  }

  function DecFold(t: string, i: nat, v: u64): u64
    requires i <= |t|
    decreases |t| - i
  {
    if i == |t| then v
    else DecFold(t, i + 1, if IsDigit(t[i]) then (v * 10 + (t[i] as int - '0' as int)) % WORD else v)
  }

  function Dollar(t: string): string {
    if t != "" && t[0] == '$' then t[1..] else t
  }

  /** `parse_num`: wraps around in 64 bits, and passes over what is no digit. */
  function ParseNum(tok: string): u64 {
    var t := Dollar(tok);
    var neg := t != "" && t[0] == '-';
    var d := if neg then t[1..] else t;
    var v := if |d| >= 2 && d[0] == '0' && (d[1] == 'x' || d[1] == 'X') then HexFold(d, 2, 0) else DecFold(d, 0, 0);
    if neg then (WORD - v) % WORD else v
  }

  function RegOf(t: string): Option<reg> {
    if t == "rax" then Some(0) else if t == "rcx" then Some(1) else if t == "rdx" then Some(2) else if t == "rbx" then Some(3)
    else if t == "rsp" then Some(4) else if t == "rbp" then Some(5) else if t == "rsi" then Some(6) else if t == "rdi" then Some(7)
    else None
  }

  function WrapI64(v: int): int {
    (v + HALF) % WORD - HALF
  }

  function LabelFold(t: string, i: nat, v: int): int
    requires i <= |t|
    decreases |t| - i
  {
    if i == |t| then v
    else LabelFold(t, i + 1, if IsDigit(t[i]) then WrapI64(v * 10 + (t[i] as int - '0' as int)) else v)
  }

  /** The number of a label name such as L3; -1 for any other name. */
  function LabelNo(name: string): int {
    if |name| >= 2 && name[0] == 'L' then LabelFold(name, 1, 0) else -1
  }

  // ------------------------------------------------------------------ statements

  /** What an operation and its operands mean; a `mov` with an empty second operand makes the code panic. */
  datatype Parsed = Fixed(insn: Insn) | ToLabel(j: Branch, number: int) | Unsupported | Panics

  function AluOf(op: string): Option<Alu> {
    if op == "add" then Some(Add) else if op == "sub" then Some(Sub) else if op == "xor" then Some(Xor)
    else if op == "cmp" then Some(Cmp) else None
  }

  function BranchOf(op: string): Option<Branch> {
    if op == "jmp" then Some(Jmp) else if op == "je" then Some(Je) else if op == "jne" then Some(Jne) else None
  }

  function ParseMov(args: seq<Tok>): Parsed
    requires |args| == 2
  {
    var s := args[1].text;
    if s == "" then Panics
    else if RegOf(args[0].text).None? then Unsupported
    else if IsDigit(s[0]) || s[0] == '$' || s[0] == '-' then Fixed(MovImm(RegOf(args[0].text).value, ParseNum(s)))
    else if RegOf(s).Some? then Fixed(MovReg(RegOf(args[0].text).value, RegOf(s).value))
    else Unsupported
  }

  function ParseAlu(a: Alu, args: seq<Tok>): Parsed {
    if |args| != 2 || RegOf(args[0].text).None? then Unsupported
    else if RegOf(args[1].text).Some? then Fixed(AluReg(a, RegOf(args[0].text).value, RegOf(args[1].text).value))
    else Fixed(AluImm(a, RegOf(args[0].text).value, ParseNum(args[1].text) % 256))
  }

  function ParseUnary(op: string, t: string): Parsed {
    if RegOf(t).None? then Unsupported
    else if op == "inc" then Fixed(Inc(RegOf(t).value))
    else if op == "dec" then Fixed(Dec(RegOf(t).value))
    else if op == "push" then Fixed(Push(RegOf(t).value))
    else if op == "pop" then Fixed(Pop(RegOf(t).value))
    else Unsupported
  }

  function Parse(op: string, args: seq<Tok>): Parsed {
    if op == "nop" then Fixed(Nop)
    else if op == "ret" then Fixed(Ret)
    else if op == "int3" then Fixed(Int3)
    else if op == "syscall" then Fixed(Syscall)
    else if op == "mov" then if |args| == 2 then ParseMov(args) else Unsupported
    else if AluOf(op).Some? then ParseAlu(AluOf(op).value, args)
    else if |args| != 1 then Unsupported
    else if BranchOf(op).Some? then ToLabel(BranchOf(op).value, LabelNo(args[0].text))
    else ParseUnary(op, args[0].text)
  }

  /** The bytes a statement takes, known without any label. */
  function Length(p: Parsed): (n: nat)
    ensures p.Fixed? || p.ToLabel? ==> n > 0
  {
    match p
    case Fixed(i) => |Encode(i)|
    case ToLabel(j, _) => BranchSize(j)
    case _ => 0
  }

  // ------------------------------------------------------------------ lines

  predicate HasLabel(l: SrcLine) {
    |l.toks| >= 1 && |l.toks[0].text| >= 2 && l.toks[0].text[|l.toks[0].text| - 1] == ':'
  }

  /** The number of the label a line defines; outside 0..15 there is none to record. */
  function LabelOf(l: SrcLine): int {
    if HasLabel(l) then LabelNo(l.toks[0].text[..|l.toks[0].text| - 1]) else -1
  }

  function Body(l: SrcLine): seq<Tok> {
    if HasLabel(l) then l.toks[1..] else l.toks
  }

  datatype Item = Nothing | Data(size: nat, value: u64) | Code(p: Parsed)

  function DataSize(op: string): nat {
    if op == ".byte" then 1 else if op == ".word" then 2 else 8
  }

  predicate IsData(op: string) {
    op == ".byte" || op == ".word" || op == ".quad"
  }

  /** What a nonempty body holds. */
  function ItemOfBody(b: seq<Tok>): Item
    requires b != []
  {
    if b[0].text == ".text" then Nothing
    else if IsData(b[0].text) then if |b| >= 2 then Data(DataSize(b[0].text), ParseNum(b[1].text)) else Nothing
    else Code(Parse(b[0].text, b[1..]))
  }

  function ItemOf(l: SrcLine): Item {
    if Body(l) == [] then Nothing else ItemOfBody(Body(l))
  }

  /** A line as the passes see it: the label it defines, whether it holds anything else, and what that is. */
  datatype Stmt = Stmt(defines: int, bare: bool, item: Item)

  function StmtOf(l: SrcLine): Stmt {
    Stmt(LabelOf(l), Body(l) == [], ItemOf(l))
  }

  function Stmts(lines: seq<SrcLine>): (s: seq<Stmt>) {
    seq(|lines|, i requires 0 <= i < |lines| => StmtOf(lines[i]))
  }
}
