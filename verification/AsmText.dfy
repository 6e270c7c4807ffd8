/**
 Source lines and the bytes they become, form by form (Intel SDM volume 2): operands, registers and numbers
 as a programmer writes them, data directives, labels and jumps, the ways a program fails, and how the
 length decoder steps over any bytes.
 */
module AsmText {
  import opened Bytes
  import opened AsmCode
  import opened AsmSource
  import opened AsmLayout

  function Line(words: seq<string>): SrcLine {
    SrcLine(seq(|words|, k requires 0 <= k < |words| => Tok(words[k])))
  }

  /** The bytes that a line stands for on its own; a jump has none, because they depend on its label. */
  function Emitted(words: seq<string>): Option<seq<byte>> {
    match ItemOf(Line(words))
    case Nothing => Some([])
    case Data(n, v) => Some(LE(v, n))
    case Code(p) => if p.Fixed? then Some(Encode(p.insn)) else None
  }

  /** And which the program of that line alone becomes. */
  lemma Alone(words: seq<string>, stale: seq<nat>, cap: nat)
    requires Emitted(words).Some? && |stale| == 16 && cap >= 64
    ensures Assemble([StmtOf(Line(words))], stale, cap) == Done(Emitted(words).value)
  {
    OneStatement([StmtOf(Line(words))], stale, cap);
  }

  lemma OneStatement(ss: seq<Stmt>, stale: seq<nat>, cap: nat)
    requires |ss| == 1 && |stale| == 16 && cap >= 64 && Sizable(ss[0].item)
    ensures Assemble(ss, stale, cap) == Done(ItemBytes(ss[0].item, 0, Table(ss, stale)))
  {
    var t := Table(ss, stale);
    assert FirstBad(ss, 1) == None;
    assert Chunks(ss, t) == [Chunk(ItemBytes(ss[0].item, 0, t))];
    Single(ItemBytes(ss[0].item, 0, t));
  }

  lemma Single(b: seq<byte>)
    ensures Flatten([Chunk(b)]) == b
  {
    assert [Chunk(b)][..0] == [];
    assert [] + b == b;
  }

  // ------------------------------------------------------------------ registers

  /** The eight register names, in the order of their numbers. */
  lemma RegisterNames(s: string, r: nat)
    requires r < 8
    ensures RegOf(s) == Some(r) <==> s == ["rax", "rcx", "rdx", "rbx", "rsp", "rbp", "rsi", "rdi"][r]
  {
  }

  lemma NoOperands()
    ensures Emitted(["nop"]) == Some([0x90]) && Emitted(["ret"]) == Some([0xC3]) && Emitted(["int3"]) == Some([0xCC])
    ensures Emitted(["syscall"]) == Some([0x0F, 0x05])
  {
  }

  /** A word that is neither a directive nor a label definition. */
  predicate Plain(op: string) {
    op != "" && op[0] != '.' && op[|op| - 1] != ':'
  }

  lemma ItemWith(op: string, args: seq<string>)
    requires Plain(op)
    ensures ItemOf(Line([op] + args)) == Code(Parse(op, Line(args).toks))
  {
    var l := Line([op] + args);
    assert l.toks[0] == Tok(op) && !HasLabel(l);
    assert l.toks[1..] == Line(args).toks;
    assert op != ".text" && !IsData(op);
  }

  lemma WithOne(op: string, a: string, i: Insn)
    requires Plain(op) && Parse(op, [Tok(a)]) == Fixed(i)
    ensures Emitted([op, a]) == Some(Encode(i))
  {
    assert [op] + [a] == [op, a] && Line([a]).toks == [Tok(a)];
    ItemWith(op, [a]);
  }

  lemma WithTwo(op: string, a: string, b: string, i: Insn)
    requires Plain(op) && Parse(op, [Tok(a), Tok(b)]) == Fixed(i)
    ensures Emitted([op, a, b]) == Some(Encode(i))
  {
    assert [op] + [a, b] == [op, a, b] && Line([a, b]).toks == [Tok(a), Tok(b)];
    ItemWith(op, [a, b]);
  }

  /** With one register, whose number sits in the low bits of the last byte. */
  lemma OneRegister(a: string, r: reg)
    requires RegOf(a) == Some(r)
    ensures Emitted(["inc", a]) == Some([0x48, 0xFF, 0xC0 + r]) && Emitted(["dec", a]) == Some([0x48, 0xFF, 0xC8 + r])
  {
    WithOne("inc", a, Inc(r));
    WithOne("dec", a, Dec(r));
  }

  lemma StackRegister(a: string, r: reg)
    requires RegOf(a) == Some(r)
    ensures Emitted(["push", a]) == Some([0x50 + r]) && Emitted(["pop", a]) == Some([0x58 + r])
  {
    WithOne("push", a, Push(r));
    WithOne("pop", a, Pop(r));
  }

  /** With two registers: the opcode, then two ones, the second register and the first in three bits each. */
  lemma MovRegister(a: string, b: string, r: reg, s: reg)
    requires RegOf(a) == Some(r) && RegOf(b) == Some(s)
    ensures Emitted(["mov", a, b]) == Some([0x48, 0x89, 0xC0 + 8 * s + r])
  {
    assert b != "" && !IsDigit(b[0]) && b[0] != '$' && b[0] != '-';
    WithTwo("mov", a, b, MovReg(r, s));
  }

  predicate RegisterForm(op: string, code: byte) {
    (op == "add" && code == 0x01) || (op == "sub" && code == 0x29) || (op == "xor" && code == 0x31) || (op == "cmp" && code == 0x39)
  }

  lemma AluRegister(op: string, code: byte, a: string, b: string, r: reg, s: reg)
    requires RegisterForm(op, code) && RegOf(a) == Some(r) && RegOf(b) == Some(s)
    ensures Emitted([op, a, b]) == Some([0x48, code, 0xC0 + 8 * s + r])
  {
    AluOp(op);
    AluCode(op, code);
    AluParsed(AluOf(op).value, a, b, r, s);
    AluWords(op, AluOf(op).value, a, b);
  }

  lemma AluCode(op: string, code: byte)
    requires RegisterForm(op, code)
    ensures AluOf(op).Some? && AluOpcode(AluOf(op).value) == code
  {
  }

  lemma AluParsed(alu: Alu, a: string, b: string, r: reg, s: reg)
    requires RegOf(a) == Some(r) && RegOf(b) == Some(s)
    ensures ParseAlu(alu, [Tok(a), Tok(b)]) == Fixed(AluReg(alu, r, s))
    ensures Encode(AluReg(alu, r, s)) == [0x48, AluOpcode(alu), 0xC0 + 8 * s + r]
  {
  }

  lemma AluOp(op: string)
    requires op == "add" || op == "sub" || op == "xor" || op == "cmp"
    ensures Plain(op) && AluOf(op).Some? && forall args :: Parse(op, args) == ParseAlu(AluOf(op).value, args)
  {
  }

  lemma AluWords(op: string, alu: Alu, a: string, b: string)
    requires Plain(op) && (forall args :: Parse(op, args) == ParseAlu(alu, args)) && ParseAlu(alu, [Tok(a), Tok(b)]).Fixed?
    ensures Emitted([op, a, b]) == Some(Encode(ParseAlu(alu, [Tok(a), Tok(b)]).insn))
  {
    WithTwo(op, a, b, ParseAlu(alu, [Tok(a), Tok(b)]).insn);
  }

  // ------------------------------------------------------------------ numbers

  /** n in decimal digits. */
  function Digits(n: nat): (s: string)
    ensures s != "" && forall c <- s :: '0' <= c <= '9'
  {
    if n < 10 then [(n + 48) as char] else Digits(n / 10) + [(n % 10 + 48) as char]
  }

  lemma {:induction false} DecFoldAppend(t: string, u: string, i: nat, v: u64, w: u64)
    requires i <= |t| && w == DecFold(t, i, v)
    ensures DecFold(t + u, i, v) == DecFold(t + u, |t|, w)
    decreases |t| - i
  {
    if i < |t| {
      assert (t + u)[i] == t[i];
      DecFoldAppend(t, u, i + 1, if IsDigit(t[i]) then (v * 10 + (t[i] as int - '0' as int)) % WORD else v, w);
    }
  }

  lemma {:induction false} DigitsRead(n: nat)
    ensures DecFold(Digits(n), 0, 0) == n % 0x1_0000_0000_0000_0000
  {
    var t := Digits(n);
    if n >= 10 {
      var f, d := Digits(n / 10), (n % 10 + 48) as char;
      DigitsRead(n / 10);
      DecFoldAppend(f, [d], 0, 0, (n / 10) % WORD);
      assert t == f + [d] && t[|f|] == d && IsDigit(d);
      assert DecFold(t, |f| + 1, (((n / 10) % WORD) * 10 + n % 10) % WORD) == (((n / 10) % WORD) * 10 + n % 10) % WORD;
      Carry(n / 10, n % 10);
    } else {
      assert IsDigit(t[0]) && DecFold(t, 1, n % WORD) == n % WORD;
    }
  }

  lemma Carry(q: nat, d: nat)
    ensures ((q % WORD) * 10 + d) % WORD == (10 * q + d) % WORD
  {
    var k := q / WORD;
    assert 10 * q + d == WORD * (10 * k) + ((q % WORD) * 10 + d);
    Multiple((q % WORD) * 10 + d, 10 * k);
  }

  lemma {:induction false} Multiple(x: nat, k: nat)
    ensures (WORD * k + x) % WORD == x % WORD
  {
    if k > 0 {
      Multiple(x, k - 1);
      assert WORD * k + x == (WORD * (k - 1) + x) + WORD;
    }
  }

  /** A decimal number, with or without a dollar sign, stands for its value in 64 bits, behind a minus sign for the negative
      one; none of them is a register. */
  lemma Numbers(n: nat)
    ensures ParseNum(Digits(n)) == n % 0x1_0000_0000_0000_0000 && ParseNum("$" + Digits(n)) == n % 0x1_0000_0000_0000_0000
    ensures (ParseNum("-" + Digits(n)) + n) % 0x1_0000_0000_0000_0000 == 0
    ensures RegOf(Digits(n)) == RegOf("$" + Digits(n)) == RegOf("-" + Digits(n)) == None
  {
    var t := Digits(n);
    DigitsRead(n);
    DigitsOnly(t);
    Signed(t);
    Negated(n, n % WORD);
  }

  lemma DigitsOnly(t: string)
    requires t != "" && forall c <- t :: '0' <= c <= '9'
    ensures '0' <= t[0] <= '9' && (|t| >= 2 ==> '0' <= t[1] <= '9')
  {
    assert t[0] in t;
    assert |t| >= 2 ==> t[1] in t;
  }

  lemma Signed(t: string)
    requires t != "" && '0' <= t[0] <= '9' && (|t| >= 2 ==> '0' <= t[1] <= '9')
    ensures ParseNum(t) == DecFold(t, 0, 0) && ParseNum("$" + t) == DecFold(t, 0, 0)
    ensures ParseNum("-" + t) == (WORD - DecFold(t, 0, 0)) % WORD
    ensures RegOf(t) == RegOf("$" + t) == RegOf("-" + t) == None
  {
    Unsigned(t, t);
    Unsigned("$" + t, t);
    Minus("-" + t, t);
  }

  lemma Unsigned(s: string, t: string)
    requires t != "" && '0' <= t[0] <= '9' && (|t| >= 2 ==> '0' <= t[1] <= '9') && (s == t || s == "$" + t)
    ensures ParseNum(s) == DecFold(t, 0, 0) && RegOf(s) == None
  {
    assert Dollar(s) == t;
    NoRegister(s);
  }

  lemma Minus(s: string, t: string)
    requires t != "" && '0' <= t[0] <= '9' && (|t| >= 2 ==> '0' <= t[1] <= '9') && s == "-" + t
    ensures ParseNum(s) == (WORD - DecFold(t, 0, 0)) % WORD && RegOf(s) == None
  {
    assert Dollar(s) == s && s[1..] == t;
    NoRegister(s);
  }

  lemma NoRegister(s: string)
    requires s != "" && s[0] != 'r'
    ensures RegOf(s) == None
  {
  }

  lemma Negated(n: nat, v: u64)
    requires v == n % WORD
    ensures ((WORD - v) % WORD + n) % WORD == 0
  {
    var k := n / WORD;
    assert n == WORD * k + v;
    if v == 0 {
      Multiple(0, k);
    } else {
      assert (WORD - v) % WORD + n == WORD * (k + 1) + 0;
      Multiple(0, k + 1);
    }
  }

  // ------------------------------------------------------------------ immediate operands and data

  /** A word that is read as a number. */
  predicate NumberWord(n: string) {
    n != "" && (n[0] == '$' || n[0] == '-' || '0' <= n[0] <= '9')
  }

  /** A register and a number: `mov` takes all its eight bytes. */
  lemma MovNumber(a: string, n: string, r: reg)
    requires RegOf(a) == Some(r) && NumberWord(n)
    ensures Emitted(["mov", a, n]) == Some([0x48, 0xB8 + r] + LE(ParseNum(n), 8))
  {
    WithTwo("mov", a, n, MovImm(r, ParseNum(n)));
  }

  /** The last bits of the forms with a byte. */
  predicate ByteForm(op: string, base: byte) {
    (op == "add" && base == 0xC0) || (op == "sub" && base == 0xE8) || (op == "xor" && base == 0xF0) || (op == "cmp" && base == 0xF8)
  }

  /** The others take the lowest byte. */
  lemma AluNumber(op: string, base: byte, a: string, n: string, r: reg)
    requires ByteForm(op, base) && base + r < 256 && RegOf(a) == Some(r) && NumberWord(n)
    ensures Emitted([op, a, n]) == Some([0x48, 0x83, base + r, ParseNum(n) % 256])
  {
    AluOp(op);
    AluBase(op, base);
    NumberParsed(AluOf(op).value, base, a, n, r);
    AluWords(op, AluOf(op).value, a, n);
  }

  lemma AluBase(op: string, base: byte)
    requires ByteForm(op, base)
    ensures AluOf(op).Some? && 0xC0 + AluDigit(AluOf(op).value) * 8 == base
  {
  }

  lemma NumberParsed(alu: Alu, base: byte, a: string, n: string, r: reg)
    requires RegOf(a) == Some(r) && NumberWord(n) && 0xC0 + AluDigit(alu) * 8 == base && base + r < 256
    ensures ParseAlu(alu, [Tok(a), Tok(n)]) == Fixed(AluImm(alu, r, ParseNum(n) % 256))
    ensures Encode(AluImm(alu, r, ParseNum(n) % 256)) == [0x48, 0x83, base + r, ParseNum(n) % 256]
  {
    NoRegister(n);
  }

  /** One, two or eight bytes of data. */
  lemma DataLines(n: string, v: u64)
    requires ParseNum(n) == v
    ensures Emitted([".byte", n]) == Some(LE(v, 1)) && Emitted([".word", n]) == Some(LE(v, 2))
    ensures Emitted([".quad", n]) == Some(LE(v, 8)) && Emitted([".text"]) == Some([])
  {
    DataLine(".byte", n);
    DataLine(".word", n);
    DataLine(".quad", n);
  }

  lemma DataLine(op: string, n: string)
    requires op == ".byte" || op == ".word" || op == ".quad"
    ensures ItemOf(Line([op, n])) == Data(DataSize(op), ParseNum(n))
  {
    var l := Line([op, n]);
    assert !HasLabel(l) && l.toks[0] == Tok(op) && l.toks[1] == Tok(n);
  }

  /** The distance to a label, in 32 bits, behind the opcode of the jump. */
  lemma JumpBytes(rel: u32)
    ensures Encode(Jump(Jmp, rel)) == [0xE9] + LE(rel, 4) && Encode(Jump(Je, rel)) == [0x0F, 0x84] + LE(rel, 4)
    ensures Encode(Jump(Jne, rel)) == [0x0F, 0x85] + LE(rel, 4)
  {
  }

  /** "L" and a number name a label, with a colon they define it. */
  lemma LabelLines(n: nat, name: string)
    requires n < 16 && name == "L" + Digits(n)
    ensures LabelNo(name) == n && StmtOf(Line([name + ":"])) == Stmt(n, true, Nothing)
    ensures ItemOf(Line(["jmp", name])) == Code(ToLabel(Jmp, n)) && ItemOf(Line(["je", name])) == Code(ToLabel(Je, n))
    ensures ItemOf(Line(["jne", name])) == Code(ToLabel(Jne, n))
  {
    LabelNumber(n, name);
    DefinesLabel(name, n);
    JumpsTo(name, n);
  }

  lemma DefinesLabel(name: string, n: nat)
    requires |name| >= 2 && LabelNo(name) == n
    ensures StmtOf(Line([name + ":"])) == Stmt(n, true, Nothing)
  {
    var l := Line([name + ":"]);
    var w := name + ":";
    assert l.toks == [Tok(w)] && w[|w| - 1] == ':' && w[..|w| - 1] == name;
    assert HasLabel(l) && Body(l) == [];
  }

  lemma JumpsTo(name: string, n: nat)
    requires LabelNo(name) == n
    ensures ItemOf(Line(["jmp", name])) == Code(ToLabel(Jmp, n)) && ItemOf(Line(["je", name])) == Code(ToLabel(Je, n))
    ensures ItemOf(Line(["jne", name])) == Code(ToLabel(Jne, n))
  {
    assert Line([name]).toks == [Tok(name)];
    assert ["jmp"] + [name] == ["jmp", name] && ["je"] + [name] == ["je", name] && ["jne"] + [name] == ["jne", name];
    ItemWith("jmp", [name]);
    ItemWith("je", [name]);
    ItemWith("jne", [name]);
    JumpParse(name);
  }

  lemma JumpParse(name: string)
    ensures Parse("jmp", [Tok(name)]) == ToLabel(Jmp, LabelNo(name)) && Parse("je", [Tok(name)]) == ToLabel(Je, LabelNo(name))
    ensures Parse("jne", [Tok(name)]) == ToLabel(Jne, LabelNo(name))
  {
  }

  lemma LabelNumber(n: nat, name: string)
    requires n < 16 && name == "L" + Digits(n)
    ensures |name| >= 2 && LabelNo(name) == n
  {
    var k := |name|;
    if n < 10 {
      assert name == ['L', (n + 48) as char] && LabelFold(name, 2, n) == n;
    } else {
      assert name == ['L', '1', (n - 10 + 48) as char] && LabelFold(name, 3, n) == n;
      assert LabelFold(name, 2, 1) == n;
    }
  }

  /** A first word of two characters or more that ends in a colon defines a label, by the name in front of the colon, and the
      rest of the line is what is assembled; any other line is assembled as it stands. */
  lemma LabelIff(w: string, rest: seq<string>, l: SrcLine)
    requires l == Line([w] + rest)
    ensures var defines := |w| >= 2 && w[|w| - 1] == ':';
            && LabelOf(l) == (if defines then LabelNo(w[..|w| - 1]) else -1)
            && Body(l) == Line(if defines then rest else [w] + rest).toks
  {
    assert l.toks[0] == Tok(w);
    assert l.toks[1..] == Line(rest).toks;
  }

  /** The distance of a jump: from its end to the label, in 32 bits, and zero for a number that the table does not reach. */
  lemma DistanceIff(j: Branch, number: int, pc: nat, t: Labels)
    requires |t.at| == 16
    ensures RelOf(j, number, pc, t)
         == if number < 0 || number >= 16 || number >= t.n then 0
            else (t.at[number] - pc - (if j == Jmp then 5 else 6)) % 0x1_0000_0000
  {
  }

  /** How a program fails: by the first line that cannot be sized, with a panic for a `mov` whose second operand is empty and
      -22 for any other; with -14 when all can but there is room for fewer than 64 bytes. */
  lemma OutcomeIff(ss: seq<Stmt>, stale: seq<nat>, cap: nat, k: nat)
    requires |stale| == 16 && k <= |ss| && (forall i: nat | i < k :: Sizable(ss[i].item)) && (k < |ss| ==> !Sizable(ss[k].item))
    ensures k < |ss| ==> Assemble(ss, stale, cap) == if ss[k].item.p == Panics then Panicked else Fails(-22)
    ensures k == |ss| && cap < 64 ==> Assemble(ss, stale, cap) == Fails(-14)
    ensures k == |ss| && cap >= 64 ==> Assemble(ss, stale, cap).Done?
  {
    FirstUnsizable(ss, 0, k);
  }

  lemma {:induction false} FirstUnsizable(ss: seq<Stmt>, i: nat, k: nat)
    requires i <= k <= |ss| && (forall j: nat | i <= j < k :: Sizable(ss[j].item)) && (k < |ss| ==> !Sizable(ss[k].item))
    ensures FirstBad(ss, i) == if k < |ss| then Some(ss[k].item.p) else None
    decreases k - i
  {
    if i < k {
      FirstUnsizable(ss, i + 1, k);
    }
  }

  /** What cannot be sized: an operation or a form of operands that is not known, and that one `mov`. */
  lemma EmptyOperand(a: string)
    ensures ItemOf(Line(["mov", a, ""])) == Code(Panics) && !Sizable(Code(Panics)) && !Sizable(Code(Unsupported))
  {
    assert ["mov"] + [a, ""] == ["mov", a, ""];
    assert Line([a, ""]).toks == [Tok(a), Tok("")];
    ItemWith("mov", [a, ""]);
  }

  // ------------------------------------------------------------------ the length decoder on any bytes

  /** The byte behind position i; zero at the end. */
  function NextByte(b: seq<byte>, i: nat): byte {
    if i + 1 < |b| then b[i + 1] else 0
  }

  /** How far the length decoder steps, told from the first two bytes, and where it stops. */
  lemma StepIff(b: seq<byte>, i: nat)
    requires i < |b|
    ensures var op, m, n := b[i], NextByte(b, i), StepLength(b, i);
            && (n == Some(1) <==> op in {0x90, 0xC3, 0xCC} || 0x50 <= op <= 0x5F)
            && (n == Some(2) <==> op == 0x0F && m == 0x05)
            && (n == Some(3) <==> op == 0x48 && m in {0x01, 0x29, 0x31, 0x39, 0x89, 0xFF})
            && (n == Some(4) <==> op == 0x48 && m == 0x83)
            && (n == Some(5) <==> op == 0xE9)
            && (n == Some(6) <==> op == 0x0F && m in {0x84, 0x85})
            && (n == Some(10) <==> op == 0x48 && 0xB8 <= m <= 0xBF)
            && n in {None, Some(1), Some(2), Some(3), Some(4), Some(5), Some(6), Some(10)}
  {
  }
}
