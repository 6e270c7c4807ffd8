/** Rule distillation on values: the reference semantics, the FJRU v1 bytecode, and the kernel's rule tables. */
module RuleBook {
  import opened Bytes
  import opened Text

  /** Text and needles: ASCII, where Python's characters and the kernel's bytes are the same numbers. */
  type ascii = x: int | 0 <= x < 128

  const SPACE := 0x20

  function SkipSpaces(text: seq<int>, j: nat): (r: nat)
    requires j <= |text|
    ensures j <= r <= |text|
    decreases |text| - j
  {
    if j < |text| && text[j] == SPACE then SkipSpaces(text, j + 1) else j
  }

  /** The digits right after the needle, spaces skipped. */
  function ParamDigits(text: seq<int>, j: nat): (s: seq<int>)
    requires j <= |text|
    ensures forall k | 0 <= k < |s| :: IsDigit(s[k])
  {
    var a := SkipSpaces(text, j);
    text[a..DigitsEnd(text, a)]
  }

  // ---- tools/distill_rules.py ----

  datatype Rule = Rule(duty: int, needle: seq<int>, value: int, a0: int, a1: int, conf: int, param: int)

  datatype Hit = Hit(value: int, a0: int, a1: int, conf: int)

  datatype Case = Case(duty: int, text: seq<ascii>, value: int, a0: int, a1: int)

  predicate Applies(r: Rule, text: seq<int>, duty: int) {
    (r.duty == 0 || r.duty == duty) && FindFrom(text, r.needle, 0).Some?
  }

  function RuleHit(r: Rule, text: seq<int>, duty: int): Hit
    requires Applies(r, text, duty)
  {
    var digits := ParamDigits(text, FindFrom(text, r.needle, 0).value + |r.needle|);
    Hit(r.value, if r.param != 0 && digits != [] then Decimal(digits) else r.a0, r.a1, r.conf)
  }

  /** The reference semantics: the first rule of the book that applies. */
  function FirstHit(rules: seq<Rule>, text: seq<int>, duty: int): Option<Hit> {
    if rules == [] then None
    else if Applies(rules[0], text, duty) then Some(RuleHit(rules[0], text, duty))
    else FirstHit(rules[1..], text, duty)
  }

  predicate IsByte(x: int) {
    0 <= x < 256
  }

  /** What the compiler accepts: ASCII needles of 1 to 40 characters, byte-sized fields. */
  predicate Compilable(r: Rule) {
    && 0 < |r.needle| <= 40 && (forall k | 0 <= k < |r.needle| :: 0 <= r.needle[k] < 128)
    && IsByte(r.value) && IsByte(r.a0) && IsByte(r.a1) && IsByte(r.conf) && IsByte(r.param) && IsByte(r.duty)
  }

  predicate AllCompilable(rules: seq<Rule>) {
    forall i | 0 <= i < |rules| :: Compilable(rules[i])
  }

  predicate CompilableBook(rules: seq<Rule>) {
    |rules| < 0x1_0000 && AllCompilable(rules)
  }

  function EncodeRule(r: Rule): (s: seq<byte>)
    requires Compilable(r)
    ensures |s| == 7 + |r.needle|
  {
    [|r.needle|] + seq(|r.needle|, k requires 0 <= k < |r.needle| => r.needle[k])
    + [r.value, r.a0, r.a1, r.conf, r.param, r.duty]
  }

  function EncodeBody(rules: seq<Rule>): (s: seq<byte>)
    requires AllCompilable(rules)
  {
    if rules == [] then [] else EncodeRule(rules[0]) + EncodeBody(rules[1..])
  }

  /** Magic "FJRU", version 1, count, and six zero bytes: entries start at 0x10. */
  function Header(count: u16): (s: seq<byte>)
    ensures |s| == 16
  {
    [0x46, 0x4A, 0x52, 0x55] + LE(1, 4) + LE(count, 2) + LE(0, 2) + LE(0, 4)
  }

  /** `compile_fjru`; None stands for its exceptions. */
  function Compile(rules: seq<Rule>): Option<seq<byte>> {
    if CompilableBook(rules) then Some(Header(|rules|) + EncodeBody(rules)) else None
  }

  // ---- kernel/src/ai.rs ----

  const RULE_MAX := 64
  const NL_MAX := 40
  const META := 6

  datatype KRule = KRule(needle: seq<byte>, value: byte, a0: byte, a1: byte, conf: byte, param: byte, duty: byte)

  /** Whether an entry can be read at pos: a nonempty needle and its six fields inside the buffer. */
  predicate EntryAt(b: seq<byte>, pos: nat) {
    pos + 1 + META <= |b| && pos + 1 + Min(b[pos], NL_MAX) + META <= |b| && b[pos] != 0
  }

  function EntryLen(b: seq<byte>, pos: nat): nat
    requires EntryAt(b, pos)
  {
    1 + Min(b[pos], NL_MAX) + META
  }

  function ReadEntry(b: seq<byte>, pos: nat): KRule
    requires EntryAt(b, pos)
  {
    var q := pos + 1 + Min(b[pos], NL_MAX);
    KRule(b[pos + 1..q], b[q], b[q + 1], b[q + 2], b[q + 3], b[q + 4], b[q + 5])
  }

  /** The entries that the loader takes from pos on, at most `room` of them. */
  function ReadEntries(b: seq<byte>, pos: nat, room: nat): (t: seq<KRule>)
    ensures |t| <= room
    decreases room
  {
    if room > 0 && EntryAt(b, pos)
    then [ReadEntry(b, pos)] + ReadEntries(b, pos + EntryLen(b, pos), room - 1)
    else []
  }

  /** The table that `fujo_rules_load` installs; None stands for -22. */
  function LoadTable(b: seq<byte>): (t: Option<seq<KRule>>)
    ensures t.Some? ==> |t.value| <= RULE_MAX
  {
    if |b| < 0x10 || |b| > 0x2000 then None
    else if b[..4] != [0x46, 0x4A, 0x52, 0x55] || b[4..8] != LE(1, 4) then None
    else Some(ReadEntries(b, 0x10, Min(FromLE(b[8..10]), RULE_MAX)))
  }

  predicate KApplies(r: KRule, text: seq<byte>, duty: u64) {
    (r.duty == 0 || r.duty == duty) && r.needle != [] && FindFrom(text, r.needle, 0).Some?
  }

  function KRuleHit(r: KRule, text: seq<byte>, duty: u64): Hit
    requires KApplies(r, text, duty)
  {
    var j := SkipSpaces(text, FindFrom(text, r.needle, 0).value + |r.needle|);
    var saw := r.param != 0 && j < |text| && IsDigit(text[j]);
    Hit(r.value, if saw then FoldDigits(text, j, 0) else r.a0, r.a1, r.conf)
  }

  /** `rules_match` on a table. */
  function Match(table: seq<KRule>, text: seq<byte>, duty: u64): Option<Hit> {
    if table == [] then None
    else if KApplies(table[0], text, duty) then Some(KRuleHit(table[0], text, duty))
    else Match(table[1..], text, duty)
  }

  // ---- the compiler is correct ----

  function Lower(r: Rule): KRule
    requires Compilable(r)
  {
    KRule(seq(|r.needle|, k requires 0 <= k < |r.needle| => r.needle[k]),
          r.value, r.a0, r.a1, r.conf, r.param, r.duty)
  }

  function LowerAll(rules: seq<Rule>): (t: seq<KRule>)
    requires AllCompilable(rules)
    ensures |t| == |rules|
  {
    seq(|rules|, i requires 0 <= i < |rules| => Lower(rules[i]))
  }

  lemma ReadEncodedRule(b: seq<byte>, pos: nat, r: Rule)
    requires Compilable(r) && pos + 7 + |r.needle| <= |b| && b[pos..pos + 7 + |r.needle|] == EncodeRule(r)
    ensures EntryAt(b, pos) && EntryLen(b, pos) == 7 + |r.needle| && ReadEntry(b, pos) == Lower(r)
  {
    var e, n := EncodeRule(r), |r.needle|;
    assert forall k | 0 <= k < 7 + n :: b[pos + k] == b[pos..pos + 7 + n][k] == e[k];
    assert e[0] == n && b[pos] == e[0];
    assert b[pos + 1..pos + 1 + n] == e[1..1 + n] == Lower(r).needle;
    assert b[pos + 1 + n] == e[1 + n] && b[pos + 2 + n] == e[2 + n] && b[pos + 3 + n] == e[3 + n];
    assert b[pos + 4 + n] == e[4 + n] && b[pos + 5 + n] == e[5 + n] && b[pos + 6 + n] == e[6 + n];
  }

  /** The first entry of an encoded body, and where the rest of the body starts. */
  lemma ReadFirst(b: seq<byte>, pos: nat, rules: seq<Rule>)
    requires AllCompilable(rules) && rules != [] && pos <= |b| && b[pos..] == EncodeBody(rules)
    ensures EntryAt(b, pos) && ReadEntry(b, pos) == Lower(rules[0])
    ensures pos + EntryLen(b, pos) <= |b| && b[pos + EntryLen(b, pos)..] == EncodeBody(rules[1..])
  {
    var n := 7 + |rules[0].needle|;
    assert b[pos..pos + n] == b[pos..][..n];
    assert b[pos + n..] == b[pos..][n..];
    ReadEncodedRule(b, pos, rules[0]);
  }

  /** Reading an encoded body gives back its rules, as many as there is room for. */
  lemma {:induction false} ReadEncodedBody(b: seq<byte>, pos: nat, rules: seq<Rule>, room: nat)
    requires AllCompilable(rules) && pos <= |b| && b[pos..] == EncodeBody(rules) && room <= |rules|
    ensures ReadEntries(b, pos, room) == LowerAll(rules)[..room]
    decreases room
  {
    if room > 0 {
      ReadFirst(b, pos, rules);
      var q := pos + EntryLen(b, pos);
      ReadEncodedBody(b, q, rules[1..], room - 1);
      LowerSplit(rules, room);
      ReadStep(b, pos, room, Lower(rules[0]), q);
    }
  }

  lemma ReadStep(b: seq<byte>, pos: nat, room: nat, e: KRule, q: nat)
    requires room > 0 && EntryAt(b, pos) && e == ReadEntry(b, pos) && q == pos + EntryLen(b, pos)
    ensures ReadEntries(b, pos, room) == [e] + ReadEntries(b, q, room - 1)
  {
  }

  lemma LowerSplit(rules: seq<Rule>, room: nat)
    requires AllCompilable(rules) && 0 < room <= |rules|
    ensures LowerAll(rules)[..room] == [Lower(rules[0])] + LowerAll(rules[1..])[..room - 1]
  {
  }

  lemma HeaderFields(count: u16, b: seq<byte>, h: seq<byte>, body: seq<byte>)
    requires h == Header(count) && b == h + body
    ensures b[..4] == [0x46, 0x4A, 0x52, 0x55] && b[4..8] == LE(1, 4) && b[8..10] == LE(count, 2) && b[16..] == body
    ensures b[10..12] == LE(0, 2) && b[12..16] == LE(0, 4)
  {
    Parts(b, [0x46, 0x4A, 0x52, 0x55], LE(1, 4), LE(count, 2), LE(0, 2), LE(0, 4), body);
  }

  lemma Parts(b: seq<byte>, f0: seq<byte>, f1: seq<byte>, f2: seq<byte>, f3: seq<byte>, f4: seq<byte>, body: seq<byte>)
    requires b == f0 + f1 + f2 + f3 + f4 + body && |f0| == 4 && |f1| == 4 && |f2| == 2 && |f3| == 2 && |f4| == 4
    ensures b[..4] == f0 && b[4..8] == f1 && b[8..10] == f2 && b[10..12] == f3 && b[12..16] == f4 && b[16..] == body
  {
  }

  /** Loading compiled bytes installs exactly the first 64 rules; books over 8 KiB are refused. */
  lemma LoadCompiled(rules: seq<Rule>)
    requires CompilableBook(rules)
    ensures var b := Compile(rules).value;
            LoadTable(b) == if |b| <= 0x2000 then Some(LowerAll(rules[..Min(|rules|, RULE_MAX)])) else None
  {
    var b := Compile(rules).value;
    HeaderFields(|rules|, b, Header(|rules|), EncodeBody(rules));
    RadixValues();
    FromLEofLE(|rules|, 2);
    var n := Min(|rules|, RULE_MAX);
    ReadEncodedBody(b, 16, rules, n);
    assert LowerAll(rules)[..n] == LowerAll(rules[..n]);
  }

  /** Up to 64 rules always fit the loader's buffer. */
  lemma {:induction false} BodyFits(rules: seq<Rule>)
    requires AllCompilable(rules)
    ensures |EncodeBody(rules)| <= 47 * |rules|
  {
    if rules != [] {
      BodyFits(rules[1..]);
    }
  }

  /** A hit as the kernel reports it: its parameter in 64 bits. */
  function Wrapped(h: Option<Hit>): Option<Hit> {
    match h
    case None => None
    case Some(x) => Some(x.(a0 := x.a0 % WRAP))
  }

  lemma HitAgrees(r: Rule, text: seq<byte>, duty: u64)
    requires Compilable(r)
    ensures KApplies(Lower(r), text, duty) <==> Applies(r, text, duty)
    ensures Applies(r, text, duty) ==>
              Some(KRuleHit(Lower(r), text, duty)) == Wrapped(Some(RuleHit(r, text, duty)))
  {
    assert Lower(r).needle == r.needle;
    if Applies(r, text, duty) {
      var j := SkipSpaces(text, FindFrom(text, r.needle, 0).value + |r.needle|);
      assert text[j..j] == [];
      FoldIsDecimal(text, j, j);
    }
  }

  /** Matching the lowered book is the reference semantics, for every text and duty. */
  lemma {:induction false} MatchAgrees(rules: seq<Rule>, text: seq<byte>, duty: u64)
    requires AllCompilable(rules)
    ensures Match(LowerAll(rules), text, duty) == Wrapped(FirstHit(rules, text, duty))
  {
    if rules != [] {
      HitAgrees(rules[0], text, duty);
      assert LowerAll(rules)[0] == Lower(rules[0]) && LowerAll(rules)[1..] == LowerAll(rules[1..]);
      MatchAgrees(rules[1..], text, duty);
    }
  }

  /** The rules that the kernel's table has room for. */
  function Loaded(rules: seq<Rule>): (r: seq<Rule>) {
    rules[..Min(|rules|, RULE_MAX)]
  }

  /** Compiler correctness: compile, load, match is the reference semantics of the first 64 rules, with the parameter
      in 64 bits. Books of up to 64 rules always load. */
  lemma CompilerCorrect(rules: seq<Rule>, text: seq<ascii>, duty: u64)
    requires CompilableBook(rules)
    ensures |rules| <= RULE_MAX ==> |Compile(rules).value| <= 0x2000
    ensures LoadTable(Compile(rules).value).Some? <==> |Compile(rules).value| <= 0x2000
    ensures LoadTable(Compile(rules).value).Some? ==>
              Match(LoadTable(Compile(rules).value).value, text, duty) == Wrapped(FirstHit(Loaded(rules), text, duty))
  {
    BodyFits(rules);
    LoadCompiled(rules);
    MatchAgrees(Loaded(rules), text, duty);
  }

  /** The kernel's answer is the answer of the whole book exactly when the parsed parameter fits 64 bits, and a rule
      in the table applies or none of the book does. */
  lemma ExactIff(rules: seq<Rule>, text: seq<ascii>, duty: u64)
    requires CompilableBook(rules) && LoadTable(Compile(rules).value).Some?
    ensures var h := FirstHit(rules, text, duty);
            Match(LoadTable(Compile(rules).value).value, text, duty) == h <==>
            (h.Some? ==> h.value.a0 < WRAP) && (FirstHit(Loaded(rules), text, duty).Some? || h.None?)
  {
    CompilerCorrect(rules, text, duty);
    HitNonNegative(rules, text, duty);
    WrappedIff(FirstHit(rules, text, duty));
    PrefixDecides(rules, |Loaded(rules)|, text, duty);
  }

  /** A rule that applies among the first n is the one that the whole book answers with. */
  lemma {:induction false} PrefixDecides(rules: seq<Rule>, n: nat, text: seq<int>, duty: int)
    requires n <= |rules|
    ensures FirstHit(rules[..n], text, duty).Some? ==> FirstHit(rules, text, duty) == FirstHit(rules[..n], text, duty)
    decreases n
  {
    if n > 0 {
      assert rules[..n][1..] == rules[1..][..n - 1];
      PrefixDecides(rules[1..], n - 1, text, duty);
    }
  }

  lemma WrappedIff(h: Option<Hit>)
    requires h.Some? ==> h.value.a0 >= 0
    ensures Wrapped(h) == h <==> (h.Some? ==> h.value.a0 < WRAP)
  {
    if h.Some? {
      assert h.value.a0 % WRAP == h.value.a0 <==> h.value.a0 < WRAP;
    }
  }

  lemma {:induction false} HitNonNegative(rules: seq<Rule>, text: seq<int>, duty: int)
    requires AllCompilable(rules)
    ensures FirstHit(rules, text, duty).Some? ==> FirstHit(rules, text, duty).value.a0 >= 0
  {
    if rules != [] {
      HitNonNegative(rules[1..], text, duty);
    }
  }

  /** `simulate` counts a case as kept when the book answers it as recorded. */
  predicate Kept(h: Option<Hit>, c: Case) {
    h.Some? && h.value.value == c.value && h.value.a0 == c.a0 && h.value.a1 == c.a1
  }

  function CountCovered(rules: seq<Rule>, cases: seq<Case>): (n: nat)
    ensures n <= |cases|
  {
    if cases == [] then 0
    else
      var c := cases[|cases| - 1];
      CountCovered(rules, cases[..|cases| - 1]) + (if FirstHit(rules, c.text, c.duty).Some? then 1 else 0)
  }

  function CountKept(rules: seq<Rule>, cases: seq<Case>): (n: nat)
    ensures n <= |cases|
  {
    if cases == [] then 0
    else
      var c := cases[|cases| - 1];
      CountKept(rules, cases[..|cases| - 1]) + (if Kept(FirstHit(rules, c.text, c.duty), c) then 1 else 0)
  }

  lemma {:induction false} AllKept(rules: seq<Rule>, cases: seq<Case>, i: nat)
    requires CountKept(rules, cases) == |cases| && i < |cases|
    ensures Kept(FirstHit(rules, cases[i].text, cases[i].duty), cases[i])
  {
    if i < |cases| - 1 {
      AllKept(rules, cases[..|cases| - 1], i);
    }
  }

  /** A book is only emitted at full fidelity; the kernel then answers a training case as recorded exactly when one of
      the first 64 rules applies and the recorded parameter fits 64 bits. */
  lemma EmittedBookIsFaithful(rules: seq<Rule>, cases: seq<Case>, i: nat)
    requires CompilableBook(rules) && LoadTable(Compile(rules).value).Some? && CountKept(rules, cases) == |cases|
    requires i < |cases| && 0 <= cases[i].duty < WRAP
    ensures var c := cases[i];
            Kept(Match(LoadTable(Compile(rules).value).value, c.text, c.duty), c) <==>
            c.a0 < WRAP && FirstHit(Loaded(rules), c.text, c.duty).Some?
  {
    var c := cases[i];
    CompilerCorrect(rules, c.text, c.duty);
    AllKept(rules, cases, i);
    PrefixDecides(rules, |Loaded(rules)|, c.text, c.duty);
    HitNonNegative(rules, c.text, c.duty);
    WrappedIff(FirstHit(rules, c.text, c.duty));
  }
}
