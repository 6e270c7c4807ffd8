/**
 The FJRU v1 file byte by byte: what the compiler writes for a book and which books it refuses, and what
 the kernel's loader makes of any buffer, told from the positions of its bytes, well-formed or not. The
 meaning of the rules is not needed for it.
 */
module RuleWire {
  import opened Bytes
  import opened Text
  import opened RuleBook

  /** Where rule i starts in a compiled book. */
  function StartOf(rules: seq<Rule>, i: nat): nat
    requires i <= |rules|
  {
    if i == 0 then 16 else StartOf(rules, i - 1) + 7 + |rules[i - 1].needle|
  }

  lemma {:induction false} BodySplit(rules: seq<Rule>, i: nat)
    requires AllCompilable(rules) && i <= |rules|
    ensures EncodeBody(rules) == EncodeBody(rules[..i]) + EncodeBody(rules[i..])
    ensures 16 + |EncodeBody(rules[..i])| == StartOf(rules, i)
    decreases i
  {
    if i == 0 {
      assert rules[..0] == [] && rules[0..] == rules;
    } else {
      BodySplit(rules, i - 1);
      BodySnoc(rules[..i - 1], rules[i - 1]);
      assert rules[..i] == rules[..i - 1] + [rules[i - 1]];
      assert rules[i - 1..][1..] == rules[i..] && rules[i - 1..][0] == rules[i - 1];
      Assoc(EncodeBody(rules[..i - 1]), EncodeRule(rules[i - 1]), EncodeBody(rules[i..]));
    }
  }

  lemma Assoc(a: seq<byte>, b: seq<byte>, c: seq<byte>)
    ensures a + (b + c) == (a + b) + c
  {
  }

  lemma {:induction false} BodySnoc(rules: seq<Rule>, r: Rule)
    requires AllCompilable(rules) && Compilable(r)
    ensures AllCompilable(rules + [r]) && EncodeBody(rules + [r]) == EncodeBody(rules) + EncodeRule(r)
  {
    if rules == [] {
      assert [r][1..] == [] && rules + [r] == [r];
    } else {
      BodySnoc(rules[1..], r);
      assert (rules + [r])[0] == rules[0] && (rules + [r])[1..] == rules[1..] + [r];
      Assoc(EncodeRule(rules[0]), EncodeBody(rules[1..]), EncodeRule(r));
    }
  }

  /** The header: "FJRU", version 1, the number of rules, zeros. */
  lemma HeaderBytes(rules: seq<Rule>, b: seq<byte>)
    requires CompilableBook(rules) && b == Compile(rules).value
    ensures |b| >= 16 && b[..8] == [0x46, 0x4A, 0x52, 0x55, 1, 0, 0, 0] && b[8..10] == LE(|rules|, 2)
    ensures b[10..16] == [0, 0, 0, 0, 0, 0]
  {
    HeaderFields(|rules|, b, RuleBook.Header(|rules|), EncodeBody(rules));
    SmallLE();
    Halves(b);
    Zeros(b);
  }

  lemma SmallLE()
    ensures LE(1, 4) == [1, 0, 0, 0] && LE(0, 2) == [0, 0] && LE(0, 4) == [0, 0, 0, 0]
  {
  }

  lemma Zeros(b: seq<byte>)
    requires |b| >= 16 && b[10..12] == [0, 0] && b[12..16] == [0, 0, 0, 0]
    ensures b[10..16] == [0, 0, 0, 0, 0, 0]
  {
    assert b[10..16] == b[10..12] + b[12..16];
  }

  /** Rule i: the length of its needle, the needle, value, two arguments, confidence, parameter flag and duty. */
  lemma RuleBytes(rules: seq<Rule>, b: seq<byte>, i: nat, p: nat, n: nat)
    requires CompilableBook(rules) && b == Compile(rules).value
    requires i < |rules| && p == StartOf(rules, i) && n == |rules[i].needle|
    ensures p + 7 + n <= |b| && b[p] == n && b[p + 1..p + 1 + n] == rules[i].needle
    ensures var r := rules[i];
            && b[p + 1 + n] == r.value && b[p + 2 + n] == r.a0 && b[p + 3 + n] == r.a1
            && b[p + 4 + n] == r.conf && b[p + 5 + n] == r.param && b[p + 6 + n] == r.duty
  {
    var e := EncodeRule(rules[i]);
    RuleIn(rules, b, i, p, e);
    EntryBytes(rules[i], e);
    Middle(b, p, e, n);
    Single(b, p, e);
    assert b[p + 1 + n] == e[1 + n] && b[p + 2 + n] == e[2 + n] && b[p + 3 + n] == e[3 + n];
    assert b[p + 4 + n] == e[4 + n] && b[p + 5 + n] == e[5 + n] && b[p + 6 + n] == e[6 + n];
  }

  lemma Single(b: seq<byte>, p: nat, e: seq<byte>)
    requires p + |e| <= |b| && b[p..p + |e|] == e
    ensures forall k | p <= k < p + |e| :: b[k] == e[k - p]
  {
    assert forall k | p <= k < p + |e| :: b[k] == b[p..p + |e|][k - p];
  }

  lemma RuleIn(rules: seq<Rule>, b: seq<byte>, i: nat, p: nat, e: seq<byte>)
    requires CompilableBook(rules) && b == Compile(rules).value
    requires i < |rules| && p == StartOf(rules, i) && e == EncodeRule(rules[i])
    ensures p + |e| <= |b| && b[p..p + |e|] == e
  {
    BodySplit(rules, i);
    var head, front, tail := RuleBook.Header(|rules|), EncodeBody(rules[..i]), EncodeBody(rules[i + 1..]);
    assert rules[i..][1..] == rules[i + 1..] && rules[i..][0] == rules[i];
    Placed(b, head, front, e, tail, p);
  }

  lemma Placed(b: seq<byte>, head: seq<byte>, front: seq<byte>, e: seq<byte>, tail: seq<byte>, p: nat)
    requires b == head + (front + (e + tail)) && p == |head| + |front|
    ensures p + |e| <= |b| && b[p..p + |e|] == e
  {
  }

  lemma Middle(b: seq<byte>, p: nat, e: seq<byte>, n: nat)
    requires p + |e| <= |b| && b[p..p + |e|] == e && n < |e|
    ensures b[p + 1..p + 1 + n] == e[1..1 + n]
  {
    Single(b, p, e);
    var w := b[p + 1..p + 1 + n];
    assert forall k | 0 <= k < n :: w[k] == b[p + 1 + k] == e[1 + k];
  }

  lemma EntryBytes(r: Rule, e: seq<byte>)
    requires Compilable(r) && e == EncodeRule(r)
    ensures var n := |r.needle|;
            && |e| == 7 + n && e[0] == n && e[1..1 + n] == r.needle
            && e[1 + n] == r.value && e[2 + n] == r.a0 && e[3 + n] == r.a1
            && e[4 + n] == r.conf && e[5 + n] == r.param && e[6 + n] == r.duty
  {
  }

  /** What the compiler refuses: more than 65535 rules, a needle that is empty, longer than 40 or not ASCII, and a field
      that is no byte. */
  lemma CompilesIff(rules: seq<Rule>)
    ensures Compile(rules).Some? <==>
            |rules| <= 65535 && forall i | 0 <= i < |rules| ::
              var r := rules[i];
              && 1 <= |r.needle| <= 40 && (forall k | 0 <= k < |r.needle| :: 0 <= r.needle[k] <= 127)
              && forall f <- [r.value, r.a0, r.a1, r.conf, r.param, r.duty] :: 0 <= f <= 255
  {
    forall i | 0 <= i < |rules|
      ensures Compilable(rules[i]) <==>
              var r := rules[i];
              && 1 <= |r.needle| <= 40 && (forall k | 0 <= k < |r.needle| :: 0 <= r.needle[k] <= 127)
              && forall f <- [r.value, r.a0, r.a1, r.conf, r.param, r.duty] :: 0 <= f <= 255
    {
      FieldsOk(rules[i]);
    }
  }

  lemma FieldsOk(r: Rule)
    ensures (forall f <- [r.value, r.a0, r.a1, r.conf, r.param, r.duty] :: 0 <= f <= 255) <==>
            0 <= r.value <= 255 && 0 <= r.a0 <= 255 && 0 <= r.a1 <= 255 && 0 <= r.conf <= 255 && 0 <= r.param <= 255
            && 0 <= r.duty <= 255
  {
    var s := [r.value, r.a0, r.a1, r.conf, r.param, r.duty];
    assert s[0] in s && s[1] in s && s[2] in s && s[3] in s && s[4] in s && s[5] in s;
  }

  // ------------------------------------------------------------------ what the kernel reads from any buffer

  /** An entry at p: a length byte that is not zero, a needle of at most 40 bytes, and six fields inside the buffer. */
  predicate EntryFits(b: seq<byte>, p: nat) {
    p + 7 <= |b| && b[p] > 0 && p + 7 + (if b[p] <= 40 then b[p] else 40) <= |b|
  }

  /** Where the entry behind the one at p starts. */
  function After(b: seq<byte>, p: nat): nat {
    p + 7 + if p < |b| && b[p] <= 40 then b[p] else 40
  }

  /** Where the i-th entry starts. */
  function EntryStart(b: seq<byte>, p: nat, i: nat): nat {
    if i == 0 then p else After(b, EntryStart(b, p, i - 1))
  }

  lemma {:induction false} EntryStartLater(b: seq<byte>, p: nat, i: nat)
    ensures EntryStart(b, p, i + 1) == EntryStart(b, After(b, p), i)
  {
    if i > 0 {
      EntryStartLater(b, p, i - 1);
    }
  }

  /** The entry at p as the kernel's tables hold it. */
  predicate Holds(b: seq<byte>, p: nat, r: KRule) {
    && EntryFits(b, p)
    && var n := if b[p] <= 40 then b[p] else 40;
       && r.needle == b[p + 1..p + 1 + n]
       && r.value == b[p + 1 + n] && r.a0 == b[p + 2 + n] && r.a1 == b[p + 3 + n]
       && r.conf == b[p + 4 + n] && r.param == b[p + 5 + n] && r.duty == b[p + 6 + n]
  }

  lemma {:induction false} EntriesRead(b: seq<byte>, p: nat, room: nat, t: seq<KRule>)
    requires t == ReadEntries(b, p, room)
    ensures |t| <= room && forall i | 0 <= i < |t| :: Holds(b, EntryStart(b, p, i), t[i])
    ensures |t| < room ==> !EntryFits(b, EntryStart(b, p, |t|))
    decreases room
  {
    if room > 0 && EntryAt(b, p) {
      var rest := ReadEntries(b, p + EntryLen(b, p), room - 1);
      assert After(b, p) == p + EntryLen(b, p);
      EntriesRead(b, After(b, p), room - 1, rest);
      forall i | 0 <= i < |t|
        ensures Holds(b, EntryStart(b, p, i), t[i])
      {
        if i > 0 {
          EntryStartLater(b, p, i - 1);
          assert t[i] == rest[i - 1];
        }
      }
      EntryStartLater(b, p, |rest|);
    }
  }

  /** Loading any buffer: refused unless it has 16 to 8192 bytes and begins with the magic and version 1; otherwise the
      table has the entries from byte 16 on, as many as the header counts, up to 64, and up to the first unfit one. */
  lemma LoadMeaning(b: seq<byte>, t: Option<seq<KRule>>, n: nat)
    requires t == LoadTable(b) && (|b| >= 16 ==> n == Min(b[8] as int + 256 * b[9] as int, 64))
    ensures t.Some? <==> 16 <= |b| <= 8192 && b[..8] == [0x46, 0x4A, 0x52, 0x55, 1, 0, 0, 0]
    ensures t.Some? ==> |t.value| <= n && forall i | 0 <= i < |t.value| :: Holds(b, EntryStart(b, 16, i), t.value[i])
    ensures t.Some? && |t.value| < n ==> !EntryFits(b, EntryStart(b, 16, |t.value|))
  {
    SmallLE();
    if |b| >= 16 {
      Halves(b);
      Count(b[8..10]);
      if t.Some? {
        EntriesRead(b, 16, n, t.value);
      }
    }
  }

  lemma Count(s: seq<byte>)
    requires |s| == 2
    ensures FromLE(s) == s[0] as int + 256 * s[1] as int
  {
    assert FromLE(s[1..]) == s[1] as int + 256 * FromLE(s[1..][1..]);
    assert s[1..][1..] == [];
  }

  lemma Halves(b: seq<byte>)
    requires |b| >= 16
    ensures b[..8] == [0x46, 0x4A, 0x52, 0x55, 1, 0, 0, 0] <==> b[..4] == [0x46, 0x4A, 0x52, 0x55] && b[4..8] == [1, 0, 0, 0]
  {
    assert b[..8] == b[..4] + b[4..8];
    if b[..8] == [0x46, 0x4A, 0x52, 0x55, 1, 0, 0, 0] {
      assert b[..4] == b[..8][..4] && b[4..8] == b[..8][4..];
    }
  }
}
