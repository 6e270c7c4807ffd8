/** The assembler's instructions, their bytes (Intel SDM volume 2, section 2.1), and how they are read back. */
module AsmCode {
  import opened Bytes

  type reg = r: nat | r < 8

  datatype Alu = Add | Sub | Xor | Cmp

  datatype Branch = Jmp | Je | Jne

  datatype Insn = Nop | Ret | Int3 | Syscall | MovImm(r: reg, v: u64) | MovReg(r: reg, s: reg)
                | AluReg(alu: Alu, r: reg, s: reg) | AluImm(alu: Alu, r: reg, imm: byte)
                | Inc(r: reg) | Dec(r: reg) | Push(r: reg) | Pop(r: reg) | Jump(j: Branch, rel: u32)

  function AluOpcode(a: Alu): byte {
    match a case Add => 0x01 case Sub => 0x29 case Xor => 0x31 case Cmp => 0x39
  }

  /** The /digit of the immediate form. */
  function AluDigit(a: Alu): nat {
    match a case Add => 0 case Sub => 5 case Xor => 6 case Cmp => 7
  }

  function BranchSize(j: Branch): nat {
    if j == Jmp then 5 else 6
  }

  function Encode(i: Insn): (b: seq<byte>)
    ensures |b| > 0
  {
    match i
    case Nop => [0x90]
    case Ret => [0xC3]
    case Int3 => [0xCC]
    case Syscall => [0x0F, 0x05]
    case MovImm(r, v) => [0x48, 0xB8 + r] + LE(v, 8)
    case MovReg(r, s) => [0x48, 0x89, 0xC0 + r + s * 8]
    case AluReg(a, r, s) => [0x48, AluOpcode(a), 0xC0 + r + s * 8]
    case AluImm(a, r, imm) => [0x48, 0x83, 0xC0 + r + AluDigit(a) * 8, imm]
    case Inc(r) => [0x48, 0xFF, 0xC0 + r]
    case Dec(r) => [0x48, 0xFF, 0xC8 + r]
    case Push(r) => [0x50 + r]
    case Pop(r) => [0x58 + r]
    case Jump(j, rel) => (if j == Jmp then [0xE9] else [0x0F, if j == Je then 0x84 else 0x85]) + LE(rel, 4)
  }

  /** ModRM with both operands registers: reg field and rm field. */
  function RegField(m: byte): reg {
    m / 8 % 8
  }

  function RmField(m: byte): reg {
    m % 8
  }

  predicate Direct(m: byte) {
    m >= 0xC0
  }

  /** The instruction that starts at position i, as the processor's manual reads these opcodes. */
  function Decode(b: seq<byte>, i: nat): Option<Insn>
    requires i <= |b|
  {
    RadixValues();
    var n := |b| - i;
    if n == 0 then None
    else if b[i] == 0x90 then Some(Nop)
    else if b[i] == 0xC3 then Some(Ret)
    else if b[i] == 0xCC then Some(Int3)
    else if 0x50 <= b[i] <= 0x57 then Some(Push(b[i] - 0x50))
    else if 0x58 <= b[i] <= 0x5F then Some(Pop(b[i] - 0x58))
    else if b[i] == 0xE9 then if n >= 5 then Some(Jump(Jmp, FromLE(b[i + 1..i + 5]))) else None
    else if n < 2 then None
    else if b[i] == 0x0F then
      if b[i + 1] == 0x05 then Some(Syscall)
      else if (b[i + 1] == 0x84 || b[i + 1] == 0x85) && n >= 6 then
        Some(Jump(if b[i + 1] == 0x84 then Je else Jne, FromLE(b[i + 2..i + 6])))
      else None
    else if b[i] != 0x48 then None
    else if 0xB8 <= b[i + 1] <= 0xBF then if n >= 10 then Some(MovImm(b[i + 1] - 0xB8, FromLE(b[i + 2..i + 10]))) else None
    else if n < 3 || !Direct(b[i + 2]) then None
    else DecodeRm(b[i + 1], b[i + 2], if n >= 4 then Some(b[i + 3]) else None)
  }

  function DecodeRm(op: byte, m: byte, imm: Option<byte>): Option<Insn> {
    if op == 0x89 then Some(MovReg(RmField(m), RegField(m)))
    else if op == 0x01 then Some(AluReg(Add, RmField(m), RegField(m)))
    else if op == 0x29 then Some(AluReg(Sub, RmField(m), RegField(m)))
    else if op == 0x31 then Some(AluReg(Xor, RmField(m), RegField(m)))
    else if op == 0x39 then Some(AluReg(Cmp, RmField(m), RegField(m)))
    else if op == 0xFF then
      if RegField(m) == 0 then Some(Inc(RmField(m))) else if RegField(m) == 1 then Some(Dec(RmField(m))) else None
    else if op == 0x83 && imm.Some? then
      if RegField(m) == 0 then Some(AluImm(Add, RmField(m), imm.value))
      else if RegField(m) == 5 then Some(AluImm(Sub, RmField(m), imm.value))
      else if RegField(m) == 6 then Some(AluImm(Xor, RmField(m), imm.value))
      else if RegField(m) == 7 then Some(AluImm(Cmp, RmField(m), imm.value))
      else None
    else None
  }

  predicate StartsAt(b: seq<byte>, i: nat, e: seq<byte>) {
    i + |e| <= |b| && b[i..i + |e|] == e
  }

  lemma At(b: seq<byte>, i: nat, e: seq<byte>, k: nat)
    requires StartsAt(b, i, e) && k < |e|
    ensures b[i + k] == e[k]
  {
    assert b[i..i + |e|][k] == b[i + k];
  }

  lemma ModRm(m: byte, d: nat, r: reg)
    requires d < 8 && m == 0xC0 + r + d * 8
    ensures Direct(m) && RegField(m) == d && RmField(m) == r
  {
  }

  /** Every instruction reads back, wherever its bytes stand and whatever follows. */
  lemma DecodeEncoded(b: seq<byte>, i: nat, insn: Insn, e: seq<byte>)
    requires e == Encode(insn) && StartsAt(b, i, e)
    ensures Decode(b, i) == Some(insn)
  {
    At(b, i, e, 0);
    match insn
    case Nop =>
    case Ret =>
    case Int3 =>
    case Syscall => At(b, i, e, 1);
    case Push(r) =>
    case Pop(r) =>
    case MovImm(r, v) => DecodeMovImm(b, i, r, v, e);
    case MovReg(r, s) =>
      ReadRm(b, i, e);
      ModRm(e[2], s, r);
    case AluReg(a, r, s) =>
      ReadRm(b, i, e);
      ModRm(e[2], s, r);
    case AluImm(a, r, imm) =>
      ReadRm(b, i, e);
      At(b, i, e, 3);
      ModRm(e[2], AluDigit(a), r);
    case Inc(r) =>
      ReadRm(b, i, e);
      ModRm(e[2], 0, r);
    case Dec(r) =>
      ReadRm(b, i, e);
      ModRm(e[2], 1, r);
    case Jump(j, rel) => DecodeJump(b, i, j, rel, e);
  }

  lemma ReadRm(b: seq<byte>, i: nat, e: seq<byte>)
    requires StartsAt(b, i, e) && |e| >= 3
    ensures i + 3 <= |b| && b[i] == e[0] && b[i + 1] == e[1] && b[i + 2] == e[2]
  {
    At(b, i, e, 0);
    At(b, i, e, 1);
    At(b, i, e, 2);
  }

  lemma DecodeMovImm(b: seq<byte>, i: nat, r: reg, v: u64, e: seq<byte>)
    requires e == [0x48, 0xB8 + r] + LE(v, 8) && StartsAt(b, i, e)
    ensures Decode(b, i) == Some(MovImm(r, v))
  {
    RadixValues();
    At(b, i, e, 0);
    At(b, i, e, 1);
    Tail(b, i, e, [0x48, 0xB8 + r], LE(v, 8));
    FromLEofLE(v, 8);
  }

  lemma DecodeJump(b: seq<byte>, i: nat, j: Branch, rel: u32, e: seq<byte>)
    requires e == Encode(Jump(j, rel)) && StartsAt(b, i, e)
    ensures Decode(b, i) == Some(Jump(j, rel))
    ensures var k := BranchSize(j) - 4; i + k + 4 <= |b| && FromLE(b[i + k..i + k + 4]) == rel
  {
    RadixValues();
    At(b, i, e, 0);
    At(b, i, e, 1);
    var head := if j == Jmp then [0xE9] else [0x0F, if j == Je then 0x84 else 0x85];
    Tail(b, i, e, head, LE(rel, 4));
    FromLEofLE(rel, 4);
  }

  lemma Tail(b: seq<byte>, i: nat, e: seq<byte>, head: seq<byte>, rest: seq<byte>)
    requires StartsAt(b, i, e) && e == head + rest
    ensures i + |head| + |rest| <= |b| && b[i + |head|..i + |head| + |rest|] == rest
  {
    assert b[i + |head|..i + |head| + |rest|] == b[i..i + |e|][|head|..];
  }

  /** Two instructions with the same bytes are the same instruction. */
  lemma EncodeInjective(x: Insn, y: Insn)
    requires Encode(x) == Encode(y)
    ensures x == y
  {
    DecodeEncoded(Encode(x), 0, x, Encode(x));
    DecodeEncoded(Encode(y), 0, y, Encode(y));
  }

  // ------------------------------------------------------------------ the length decoder

  /** How far `fujo_asm_verify` steps over the instruction at i; None where it stops. */
  function StepLength(b: seq<byte>, i: nat): (n: Option<nat>)
    requires i < |b|
    ensures n.Some? ==> n.value > 0
  {
    var op := b[i];
    var m: byte := if i + 1 < |b| then b[i + 1] else 0;
    if op == 0x90 || op == 0xC3 || op == 0xCC || 0x50 <= op <= 0x5F then Some(1)
    else if op == 0x0F && i + 1 < |b| && m == 0x05 then Some(2)
    else if op == 0x48 then
      if m / 8 * 8 == 0xB8 then Some(10)
      else if m in {0x89, 0x01, 0x29, 0x31, 0x39} then Some(3)
      else if m == 0x83 then Some(4)
      else if m == 0xFF then Some(3)
      else None
    else if op == 0xE9 then Some(5)
    else if op == 0x0F && i + 1 < |b| && (m == 0x84 || m == 0x85) then Some(6)
    else None
  }

  /** The instructions `fujo_asm_verify` counts from i on. */
  function VerifyFrom(b: seq<byte>, i: nat): nat
    decreases |b| - i
  {
    if i >= |b| || StepLength(b, i).None? then 0
    else if b[i] == 0xC3 then 1
    else 1 + VerifyFrom(b, i + StepLength(b, i).value)
  }

  lemma StepOverEncoded(b: seq<byte>, i: nat, insn: Insn, e: seq<byte>)
    requires e == Encode(insn) && StartsAt(b, i, e)
    ensures i < |b| && StepLength(b, i) == Some(|e|) && (b[i] == 0xC3 <==> insn == Ret)
  {
    At(b, i, e, 0);
    if |e| > 1 {
      At(b, i, e, 1);
    }
  }

  /** `fujo_asm_verify` */
  method Verify(b: seq<byte>) returns (count: nat)
    ensures count == VerifyFrom(b, 0)
  {
    count := 0;
    var i: nat := 0;
    while i < |b|
      invariant VerifyFrom(b, 0) == count + VerifyFrom(b, i)
      decreases |b| - i
    {
      var op := b[i];
      var m: byte := if i + 1 < |b| then b[i + 1] else 0;
      if op == 0x90 || op == 0xC3 || op == 0xCC || 0x50 <= op <= 0x57 || 0x58 <= op <= 0x5F {
        count := count + 1;
        if op == 0xC3 {
          return;
        }
        i := i + 1;
      } else if op == 0x0F && i + 1 < |b| && m == 0x05 {
        count := count + 1;
        i := i + 2;
      } else if op == 0x48 {
        if m / 8 * 8 == 0xB8 {
          count := count + 1;
          i := i + 10;
        } else if m == 0x89 || m == 0x01 || m == 0x29 || m == 0x31 || m == 0x39 {
          count := count + 1;
          i := i + 3;
        } else if m == 0x83 {
          count := count + 1;
          i := i + 4;
        } else if m == 0xFF {
          count := count + 1;
          i := i + 3;
        } else {
          return;
        }
      } else if op == 0xE9 {
        count := count + 1;
        i := i + 5;
      } else if op == 0x0F && i + 1 < |b| && (m == 0x84 || m == 0x85) {
        count := count + 1;
        i := i + 6;
      } else {
        return;
      }
    }
  }
}
