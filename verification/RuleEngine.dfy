/** The loops of the rule compiler and of the kernel's rule engine, against the functions of RuleBook. */
module RuleEngine {
  import opened Bytes
  import opened Text
  import opened RuleBook

  // ---- tools/distill_rules.py ----

  lemma {:induction false} EncodeBodySnoc(rules: seq<Rule>, r: Rule)
    requires AllCompilable(rules) && Compilable(r)
    ensures EncodeBody(rules + [r]) == EncodeBody(rules) + EncodeRule(r)
  {
    if rules == [] {
      assert [r][1..] == [];
    } else {
      EncodeBodySnoc(rules[1..], r);
      assert (rules + [r])[1..] == rules[1..] + [r];
    }
  }

  /** `compile_fjru`: None is an exception. */
  method CompileFjru(rules: seq<Rule>) returns (r: Option<seq<byte>>)
    ensures r == Compile(rules)
  {
    if |rules| >= 0x1_0000 {
      return None;
    }
    var hdr := [0x46, 0x4A, 0x52, 0x55] + LE(1, 4) + LE(|rules|, 2) + LE(0, 2) + LE(0, 4);
    var body: seq<byte> := [];
    for i := 0 to |rules|
      invariant AllCompilable(rules[..i]) && body == EncodeBody(rules[..i])
    {
      var rule := rules[i];
      var ascii := IsAscii(rule.needle);
      if !(ascii && 0 < |rule.needle| <= 40) {
        return None;
      }
      if !(IsByte(rule.value) && IsByte(rule.a0) && IsByte(rule.a1) && IsByte(rule.conf) && IsByte(rule.param)
           && IsByte(rule.duty)) {
        return None;
      }
      EncodeBodySnoc(rules[..i], rule);
      assert rules[..i + 1] == rules[..i] + [rule];
      body := body + EncodeRule(rule);
    }
    assert rules[..|rules|] == rules;
    return Some(hdr + body);
  }

  method IsAscii(needle: seq<int>) returns (ok: bool)
    ensures ok <==> forall k | 0 <= k < |needle| :: 0 <= needle[k] < 128
  {
    for i := 0 to |needle|
      invariant forall k | 0 <= k < i :: 0 <= needle[k] < 128
    {
      if !(0 <= needle[i] < 128) {
        return false;
      }
    }
    return true;
  }

  /** The parameter scan of `simulate`. */
  method ScanParam(text: seq<int>, start: nat) returns (s: seq<int>)
    requires start <= |text|
    ensures s == ParamDigits(text, start)
  {
    var j := start;
    while j < |text| && text[j] == SPACE
      invariant start <= j <= |text| && SkipSpaces(text, start) == SkipSpaces(text, j)
    {
      j := j + 1;
    }
    ghost var a := j;
    s := [];
    while j < |text| && IsDigit(text[j])
      invariant a <= j <= |text| && s == text[a..j] && DigitsEnd(text, a) == DigitsEnd(text, j)
    {
      s := s + [text[j]];
      j := j + 1;
    }
  }

  /** The rule loop of `simulate` for one case. */
  method SimulateCase(rules: seq<Rule>, text: seq<int>, duty: int) returns (hit: Option<Hit>)
    ensures hit == FirstHit(rules, text, duty)
  {
    for i := 0 to |rules|
      invariant FirstHit(rules, text, duty) == FirstHit(rules[i..], text, duty)
    {
      var r := rules[i];
      assert rules[i..][0] == r && rules[i..][1..] == rules[i + 1..];
      if !(r.duty == 0 || r.duty == duty) {
        continue;
      }
      var pos := FindFrom(text, r.needle, 0);
      if pos.None? {
        continue;
      }
      var a0 := r.a0;
      if r.param != 0 {
        var s := ScanParam(text, pos.value + |r.needle|);
        a0 := if s != [] then Decimal(s) else a0;
      }
      return Some(Hit(r.value, a0, r.a1, r.conf));
    }
    return None;
  }

  /** `simulate`, as the two counts behind its percentages. */
  method Simulate(rules: seq<Rule>, cases: seq<Case>) returns (covered: nat, kept: nat)
    ensures covered == CountCovered(rules, cases) && kept == CountKept(rules, cases)
  {
    covered, kept := 0, 0;
    for i := 0 to |cases|
      invariant covered == CountCovered(rules, cases[..i]) && kept == CountKept(rules, cases[..i])
    {
      var c := cases[i];
      assert cases[..i + 1][..i] == cases[..i];
      var hit := SimulateCase(rules, c.text, c.duty);
      if hit.Some? {
        covered := covered + 1;
        if hit.value.value == c.value && hit.value.a0 == c.a0 && hit.value.a1 == c.a1 {
          kept := kept + 1;
        }
      }
    }
    assert cases[..|cases|] == cases;
  }

  // ---- kernel/src/ai.rs ----

  /** `find_sub`: the lowest occurrence; an empty needle occurs nowhere. */
  method FindSub(text: seq<byte>, needle: seq<byte>) returns (r: Option<nat>)
    ensures r == if needle == [] then None else FindFrom(text, needle, 0)
  {
    if |needle| == 0 || |needle| > |text| {
      return None;
    }
    for i := 0 to |text| - |needle| + 1
      invariant FindFrom(text, needle, 0) == FindFrom(text, needle, i)
    {
      var ok := true;
      for k := 0 to |needle|
        invariant ok && forall j | 0 <= j < k :: text[i + j] == needle[j]
      {
        if text[i + k] != needle[k] {
          assert text[i..i + |needle|][k] != needle[k];
          ok := false;
          break;
        }
      }
      if ok {
        assert text[i..i + |needle|] == needle;
        return Some(i);
      }
    }
    return None;
  }

  /** A slot of the static tables: a 40-byte needle buffer, of which the first len bytes count. */
  datatype Slot = Slot(needle: seq<byte>, len: byte, value: byte, a0: byte, a1: byte, conf: byte, param: byte, duty: byte)

  lemma Regroup<T>(s: seq<T>, x: T, t: seq<T>)
    ensures s + ([x] + t) == s + [x] + t
  {
  }

  /** One entry moves from the unread part of the book to the table. */
  lemma Advance(all: seq<KRule>, before: seq<KRule>, e: KRule, b: seq<byte>, pos: nat, room: nat)
    requires room > 0 && EntryAt(b, pos) && e == ReadEntry(b, pos)
    requires all == before + ReadEntries(b, pos, room)
    ensures all == before + [e] + ReadEntries(b, pos + EntryLen(b, pos), room - 1)
  {
    Regroup(before, e, ReadEntries(b, pos + EntryLen(b, pos), room - 1));
  }

  predicate SlotOk(s: Slot) {
    |s.needle| == NL_MAX && s.len <= NL_MAX
  }

  function RuleOf(s: Slot): KRule
    requires SlotOk(s)
  {
    KRule(s.needle[..s.len], s.value, s.a0, s.a1, s.conf, s.param, s.duty)
  }

  function TableOf(slots: seq<Slot>): (t: seq<KRule>)
    requires forall i | 0 <= i < |slots| :: SlotOk(slots[i])
    ensures |t| == |slots|
  {
    seq(|slots|, i requires 0 <= i < |slots| => RuleOf(slots[i]))
  }

  class Engine {
    const slots: array<Slot>
    var n: nat
    var hits: u64

    ghost predicate Valid()
      reads this, slots
    {
      slots.Length == RULE_MAX && n <= RULE_MAX && forall i | 0 <= i < RULE_MAX :: SlotOk(slots[i])
    }

    /** The rules in force. */
    ghost function Table(): seq<KRule>
      requires Valid()
      reads this, slots
    {
      TableOf(slots[..n])
    }

    constructor ()
      ensures Valid() && n == 0 && fresh(slots)
    {
      slots := new Slot[RULE_MAX](_ => Slot(seq(NL_MAX, _ => 0), 0, 0, 0, 0, 0, 0, 0));
      n := 0;
      hits := 0;
    }

    /** Copies entry pos into slot k; bytes of the needle buffer past its length keep what they held. */
    method StoreEntry(b: seq<byte>, pos: nat, k: nat) returns (next: nat)
      requires Valid() && EntryAt(b, pos) && k < RULE_MAX
      modifies slots
      ensures Valid() && next == pos + EntryLen(b, pos)
      ensures TableOf(slots[..k + 1]) == old(TableOf(slots[..k])) + [ReadEntry(b, pos)]
    {
      var nl := Min(b[pos], NL_MAX);
      var needle := slots[k].needle;
      for j := 0 to nl
        invariant |needle| == NL_MAX && needle[..j] == b[pos + 1..pos + 1 + j]
      {
        needle := needle[j := b[pos + 1 + j]];
      }
      var q := pos + 1 + nl;
      slots[k] := Slot(needle, nl, b[q], b[q + 1], b[q + 2], b[q + 3], b[q + 4], b[q + 5]);
      assert RuleOf(slots[k]) == ReadEntry(b, pos);
      assert slots[..k + 1] == old(slots[..k]) + [slots[k]];
      next := q + META;
    }

    /** `fujo_rules_load`: the number of rules taken, or -22 with nothing changed. */
    method Load(ptr: u64, b: seq<byte>) returns (rc: int)
      requires Valid()
      modifies this, slots
      ensures Valid()
      ensures var t := if 0x40_0000 <= ptr < 0x80_0000 then LoadTable(b) else None;
              if t.None? then rc == -22 && Table() == old(Table()) && hits == old(hits)
              else rc == |t.value| && Table() == t.value && hits == 0
    {
      if !(0x40_0000 <= ptr < 0x80_0000) || |b| < 0x10 || |b| > 0x2000 {
        return -22;
      }
      var count := Min(FromLE(b[8..10]), RULE_MAX);
      if b[..4] != [0x46, 0x4A, 0x52, 0x55] || b[4..8] != LE(1, 4) {
        return -22;
      }
      n := LoadEntries(b, count);
      hits := 0;
      return n;
    }

    /** The entry loop of `fujo_rules_load`. */
    method LoadEntries(b: seq<byte>, count: nat) returns (k: nat)
      requires Valid() && count <= RULE_MAX
      modifies slots
      ensures Valid() && k <= RULE_MAX && TableOf(slots[..k]) == ReadEntries(b, 0x10, count)
    {
      var pos: nat := 0x10;
      k := 0;
      ghost var all, taken := ReadEntries(b, 0x10, count), TableOf(slots[..0]);
      assert taken == [];
      while k < count && EntryAt(b, pos)
        invariant Valid() && k <= count
        invariant taken == TableOf(slots[..k]) && all == taken + ReadEntries(b, pos, count - k)
      {
        Advance(all, taken, ReadEntry(b, pos), b, pos, count - k);
        taken := taken + [ReadEntry(b, pos)];
        pos := StoreEntry(b, pos, k);
        k := k + 1;
      }
    }

    /** `rules_match`: the first rule of the table that applies, and one more hit counted when there is one. */
    method RulesMatch(text: seq<byte>, duty: u64) returns (r: Option<Hit>)
      requires Valid()
      modifies `hits
      ensures r == Match(Table(), text, duty)
      ensures hits == if r.Some? then (old(hits) + 1) % WRAP else old(hits)
    {
      ghost var table := Table();
      for i := 0 to n
        invariant hits == old(hits) && Match(table, text, duty) == Match(table[i..], text, duty)
      {
        var s := slots[i];
        assert table[i..][0] == RuleOf(s) && table[i..][1..] == table[i + 1..];
        if s.duty != 0 && s.duty != duty {
          continue;
        }
        if s.len == 0 {
          continue;
        }
        var pos := FindSub(text, s.needle[..s.len]);
        if pos.Some? {
          hits := (hits + 1) % WRAP;
          var a0: u64 := s.a0;
          if s.param != 0 {
            a0 := ParseParam(text, pos.value + s.len, a0);
          }
          return Some(Hit(s.value, a0, s.a1, s.conf));
        }
      }
      return None;
    }

    /** The digit scan of `rules_match`: the default stays when no digit follows. */
    static method ParseParam(text: seq<byte>, start: nat, default: u64) returns (a0: u64)
      requires start <= |text|
      ensures var j := SkipSpaces(text, start);
              a0 == if j < |text| && IsDigit(text[j]) then FoldDigits(text, j, 0) else default
    {
      var j := start;
      while j < |text| && text[j] == SPACE
        invariant start <= j <= |text| && SkipSpaces(text, start) == SkipSpaces(text, j)
      {
        j := j + 1;
      }
      ghost var a := j;
      var v: u64, saw := 0, false;
      while j < |text| && IsDigit(text[j])
        invariant a <= j <= |text| && (saw <==> j > a)
        invariant j > a ==> IsDigit(text[a])
        invariant FoldDigits(text, a, 0) == FoldDigits(text, j, v)
      {
        v := (v * 10 + (text[j] - 0x30)) % WRAP;
        saw := true;
        j := j + 1;
      }
      return if saw then v else default;
    }
  }
}
