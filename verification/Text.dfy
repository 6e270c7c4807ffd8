/**
 Byte strings as the line protocols use them: digits and the numbers they stand for, words between
 blanks, hexadecimal, lines and the search for a substring, each with the loop that scans it.
 */
module Text {
  import opened Bytes

  const WRAP := 0x1_0000_0000_0000_0000

  // ------------------------------------------------------------------ searching

  predicate OccursAt(text: seq<int>, needle: seq<int>, i: nat) {
    i + |needle| <= |text| && text[i..i + |needle|] == needle
  }

  /** The lowest position at or after i where needle occurs. */
  function FindFrom(text: seq<int>, needle: seq<int>, i: nat): (r: Option<nat>)
    ensures r.Some? ==> i <= r.value && OccursAt(text, needle, r.value)
    ensures r.Some? ==> forall j: nat | i <= j < r.value :: !OccursAt(text, needle, j)
    ensures r.None? ==> forall j: nat | i <= j :: !OccursAt(text, needle, j)
    decreases |text| - i
  {
    if i > |text| then None
    else if OccursAt(text, needle, i) then Some(i)
    else FindFrom(text, needle, i + 1)
  }

  lemma FoundFirst(text: seq<int>, needle: seq<int>, p: nat)
    requires OccursAt(text, needle, p) && forall i: nat | i < p :: !OccursAt(text, needle, i)
    ensures FindFrom(text, needle, 0) == Some(p)
  {
    assert FindFrom(text, needle, 0).Some?;
  }

  predicate HasPrefix(l: seq<int>, p: seq<int>) {
    OccursAt(l, p, 0)
  }

  // ------------------------------------------------------------------ decimal numbers

  predicate IsDigit(c: int) {
    0x30 <= c <= 0x39
  }

  function DigitsEnd(text: seq<int>, j: nat): (r: nat)
    requires j <= |text|
    ensures j <= r <= |text|
    ensures forall k | j <= k < r :: IsDigit(text[k])
    decreases |text| - j
  {
    if j < |text| && IsDigit(text[j]) then DigitsEnd(text, j + 1) else j
  }

  /** The number a string of digits denotes. */
  function Decimal(s: seq<int>): (v: nat)
    requires forall k | 0 <= k < |s| :: IsDigit(s[k])
  {
    if s == [] then 0
    else
      assert IsDigit(s[|s| - 1]);
      10 * Decimal(s[..|s| - 1]) + (s[|s| - 1] - 0x30)
  }

  predicate AllDigits(s: seq<int>) {
    forall k | 0 <= k < |s| :: IsDigit(s[k])
  }

  /** The kernel's running value of a digit run, in 64 bits. */
  function FoldDigits(text: seq<int>, j: nat, v: u64): u64
    requires j <= |text|
    decreases |text| - j
  {
    if j < |text| && IsDigit(text[j]) then FoldDigits(text, j + 1, (v * 10 + (text[j] - 0x30)) % WRAP) else v
  }

  /** The kernel's 64-bit accumulation is the decimal value modulo 2^64. */
  lemma {:induction false} FoldIsDecimal(text: seq<int>, j: nat, k: nat)
    requires j <= k <= |text| && forall i | j <= i < k :: IsDigit(text[i])
    ensures FoldDigits(text, k, Decimal(text[j..k]) % WRAP) == Decimal(text[j..DigitsEnd(text, k)]) % WRAP
    decreases |text| - k
  {
    if k < |text| && IsDigit(text[k]) {
      var v := Decimal(text[j..k]);
      assert text[j..k + 1][..k - j] == text[j..k];
      assert Decimal(text[j..k + 1]) == 10 * v + (text[k] - 0x30);
      WrapStep(v, text[k] - 0x30);
      FoldIsDecimal(text, j, k + 1);
    }
  }

  lemma WrapStep(v: nat, d: nat)
    ensures ((v % WRAP) * 10 + d) % WRAP == (10 * v + d) % WRAP
  {
    var q := v / WRAP;
    assert 10 * v + d == WRAP * (10 * q) + ((v % WRAP) * 10 + d);
    AddMultiple((v % WRAP) * 10 + d, 10 * q);
  }

  lemma {:induction false} AddMultiple(x: nat, q: nat)
    ensures (WRAP * q + x) % WRAP == x % WRAP
  {
    if q > 0 {
      AddMultiple(x, q - 1);
      assert WRAP * q + x == (WRAP * (q - 1) + x) + WRAP;
    }
  }

  /** Decimal digits of n (`%d`, and the kernel's number printer). */
  function Dec(n: nat): (s: seq<byte>)
    ensures AllDigits(s) && s != []
  {
    if n < 10 then [0x30 + n] else Dec(n / 10) + [0x30 + n % 10]
  }

  lemma {:induction false} DecimalOfDec(n: nat)
    ensures Decimal(Dec(n)) == n
  {
    if n < 10 {
      assert Dec(n)[..0] == [];
    } else {
      DecimalOfDec(n / 10);
      assert Dec(n)[..|Dec(n)| - 1] == Dec(n / 10);
    }
  }

  predicate StartsWithDigit(s: seq<int>) {
    s != [] && 0x30 <= s[0] <= 0x39
  }

  lemma {:induction false} DigitsTo(text: seq<int>, a: nat, b: nat)
    requires a <= b <= |text| && (forall k | a <= k < b :: IsDigit(text[k])) && (b < |text| ==> !IsDigit(text[b]))
    ensures DigitsEnd(text, a) == b
    decreases b - a
  {
    if a < b {
      DigitsTo(text, a + 1, b);
    }
  }

  /** Where the number n is written and no digit follows it, its digits are found and have its value. */
  lemma DecimalBehind(text: seq<int>, b: nat, n: nat, rest: seq<int>)
    requires b <= |text| && text[b..] == Dec(n) + rest && !StartsWithDigit(rest)
    ensures b < |text| && 0x30 <= text[b] <= 0x39
    ensures text[b..DigitsEnd(text, b)] == Dec(n) && Decimal(text[b..DigitsEnd(text, b)]) == n
    ensures FoldDigits(text, b, 0) == n % 0x1_0000_0000_0000_0000
  {
    var d := Dec(n);
    DigitsBehind(text, b, d, rest);
    DigitsTo(text, b, b + |d|);
    DecimalOfDec(n);
    FoldValue(text, b, b + |d|, d);
  }

  lemma FoldValue(text: seq<int>, b: nat, e: nat, d: seq<int>)
    requires b <= e <= |text| && DigitsEnd(text, b) == e && text[b..e] == d && AllDigits(d)
    ensures FoldDigits(text, b, 0) == Decimal(d) % WRAP
  {
    assert text[b..b] == [];
    FoldIsDecimal(text, b, b);
  }

  lemma DigitsBehind(text: seq<int>, b: nat, digits: seq<int>, rest: seq<int>)
    requires b <= |text| && text[b..] == digits + rest && AllDigits(digits) && !StartsWithDigit(rest)
    ensures b + |digits| <= |text| && text[b..b + |digits|] == digits
    ensures forall k | b <= k < b + |digits| :: IsDigit(text[k])
    ensures b + |digits| < |text| ==> !IsDigit(text[b + |digits|])
  {
    var d := |digits|;
    assert text[b..b + d] == text[b..][..d];
    assert forall k | b <= k < b + d :: text[k] == text[b..][k - b] == digits[k - b] && IsDigit(digits[k - b]);
    if b + d < |text| {
      assert text[b + d] == text[b..][d] == rest[0];
    }
  }

  function Pow10(k: nat): nat {
    if k == 0 then 1 else 10 * Pow10(k - 1)
  }

  lemma {:induction false} DecLength(n: nat, k: nat)
    requires n < Pow10(k) && k > 0
    ensures |Dec(n)| <= k
  {
    if n >= 10 {
      assert k > 1;
      DecLength(n / 10, k - 1);
    }
  }

  /** Checked accumulation (`checked_mul(10)?.checked_add(d)?`) over t[i..]. */
  function ParseFrom(t: seq<byte>, i: nat, v: u64): Option<u64>
    requires i <= |t|
    decreases |t| - i
  {
    if i == |t| then Some(v)
    else if !IsDigit(t[i]) || v * 10 + (t[i] - 0x30) >= WRAP then None
    else ParseFrom(t, i + 1, v * 10 + (t[i] - 0x30))
  }

  function ParseNum(t: seq<byte>): Option<u64> {
    if t == [] then None else ParseFrom(t, 0, 0)
  }

  lemma {:induction false} DecimalGrows(t: seq<byte>, i: nat, j: nat)
    requires AllDigits(t) && i <= j <= |t|
    ensures Decimal(t[..i]) <= Decimal(t[..j])
    decreases j
  {
    if i < j {
      DecimalGrows(t, i, j - 1);
      assert t[..j][..j - 1] == t[..j - 1];
    }
  }

  lemma {:induction false} ParseFromIff(t: seq<byte>, i: nat, v: u64)
    requires i <= |t| && AllDigits(t[..i]) && v == Decimal(t[..i])
    ensures ParseFrom(t, i, v) == if AllDigits(t) && Decimal(t) < WRAP then Some(Decimal(t)) else None
    decreases |t| - i
  {
    if i == |t| {
      assert t[..i] == t;
    } else if IsDigit(t[i]) {
      assert t[..i + 1][..i] == t[..i];
      var w := v * 10 + (t[i] - 0x30);
      assert Decimal(t[..i + 1]) == w;
      if w < WRAP {
        ParseFromIff(t, i + 1, w);
      } else if AllDigits(t) {
        DecimalGrows(t, i + 1, |t|);
        assert t[..|t|] == t;
      }
    }
  }

  /** `parse_num` accepts exactly the nonempty digit strings below 2^64, and returns their value. */
  lemma ParseNumIff(t: seq<byte>)
    ensures ParseNum(t) == if t != [] && AllDigits(t) && Decimal(t) < WRAP then Some(Decimal(t)) else None
  {
    if t != [] {
      assert t[..0] == [];
      ParseFromIff(t, 0, 0);
    }
  }

  lemma ParsePrinted(n: u64)
    ensures ParseNum(Dec(n)) == Some(n)
  {
    ParseNumIff(Dec(n));
    DecimalOfDec(n);
  }

  // ------------------------------------------------------------------ words

  const BLANK := 0x20
  const TAB := 9

  predicate IsBlank(c: int) {
    c == BLANK || c == TAB
  }

  datatype Span = Span(start: nat, len: nat)

  function SkipBlanks(l: seq<byte>, i: nat): (r: nat)
    requires i <= |l|
    ensures i <= r <= |l| && (r < |l| ==> !IsBlank(l[r]))
    decreases |l| - i
  {
    if i < |l| && IsBlank(l[i]) then SkipBlanks(l, i + 1) else i
  }

  function WordEnd(l: seq<byte>, i: nat): (r: nat)
    requires i <= |l|
    ensures i <= r <= |l|
    decreases |l| - i
  {
    if i < |l| && !IsBlank(l[i]) then WordEnd(l, i + 1) else i
  }

  /** The k-th word of l at or after position i. */
  function TokFrom(l: seq<byte>, i: nat, k: nat): (r: Option<Span>)
    requires i <= |l|
    ensures r.Some? ==> r.value.start + r.value.len <= |l| && r.value.start < |l| && !IsBlank(l[r.value.start])
    decreases k
  {
    var s := SkipBlanks(l, i);
    if s == |l| then None
    else if k == 0 then Some(Span(s, WordEnd(l, s) - s))
    else TokFrom(l, WordEnd(l, s), k - 1)
  }

  function Tok(l: seq<byte>, k: nat): (r: Option<Span>)
    ensures r.Some? ==> r.value.start + r.value.len <= |l| && r.value.start < |l| && !IsBlank(l[r.value.start])
  {
    TokFrom(l, 0, k)
  }

  function Slice(l: seq<byte>, s: Span): seq<byte>
    requires s.start + s.len <= |l|
  {
    l[s.start..s.start + s.len]
  }

  lemma {:induction false} TokFewer(l: seq<byte>, i: nat, j: nat, k: nat)
    requires i <= |l| && j <= k && TokFrom(l, i, k).Some?
    ensures TokFrom(l, i, j).Some?
    decreases k
  {
    if j > 0 {
      TokFewer(l, WordEnd(l, SkipBlanks(l, i)), j - 1, k - 1);
    }
  }

  predicate IsWord(w: seq<byte>) {
    w != [] && forall c <- w :: !IsBlank(c)
  }

  lemma {:induction false} WordEndAt(l: seq<byte>, i: nat, n: nat)
    requires i + n <= |l| && (forall k | i <= k < i + n :: !IsBlank(l[k]))
    requires i + n == |l| || IsBlank(l[i + n])
    ensures WordEnd(l, i) == i + n
    decreases n
  {
    if n > 0 {
      WordEndAt(l, i + 1, n - 1);
    }
  }

  lemma WordHere(l: seq<byte>, i: nat, w: seq<byte>)
    requires IsWord(w) && i + |w| <= |l| && l[i..i + |w|] == w && (i + |w| == |l| || IsBlank(l[i + |w|]))
    ensures SkipBlanks(l, i) == i && WordEnd(l, i) == i + |w|
  {
    forall j | i <= j < i + |w|
      ensures !IsBlank(l[j])
    {
      assert l[j] == w[j - i];
    }
    WordEndAt(l, i, |w|);
  }

  lemma Rest(l: seq<byte>, i: nat, w: seq<byte>, rest: seq<byte>)
    requires i <= |l| && l[i..] == w + rest
    ensures i + |w| <= |l| && l[i..i + |w|] == w && l[i + |w|..] == rest
  {
    assert l[i..i + |w|] == l[i..][..|w|];
    assert l[i + |w|..] == l[i..][|w|..];
  }

  /** Where a word and a blank start, word 0 is that word and the later words are those of the rest. */
  lemma TokStep(l: seq<byte>, i: nat, w: seq<byte>, rest: seq<byte>, k: nat)
    requires i <= |l| && IsWord(w) && l[i..] == w + [BLANK] + rest
    ensures i + |w| < |l| && l[i + |w| + 1..] == rest
    ensures TokFrom(l, i, 0) == Some(Span(i, |w|)) && l[i..i + |w|] == w
    ensures TokFrom(l, i, k + 1) == TokFrom(l, i + |w| + 1, k)
  {
    BlankAfter(l, i, w, rest);
    WordHere(l, i, w);
    SkipOne(l, i + |w|, k);
  }

  lemma BlankAfter(l: seq<byte>, i: nat, w: seq<byte>, rest: seq<byte>)
    requires i <= |l| && l[i..] == w + [BLANK] + rest
    ensures i + |w| < |l| && l[i..i + |w|] == w && l[i + |w|] == BLANK && l[i + |w| + 1..] == rest
  {
    assert w + [BLANK] + rest == w + ([BLANK] + rest);
    Rest(l, i, w, [BLANK] + rest);
    Rest(l, i + |w|, [BLANK], rest);
    assert l[i + |w|..][0] == BLANK;
  }

  lemma TokLast(l: seq<byte>, i: nat, w: seq<byte>)
    requires i <= |l| && IsWord(w) && l[i..] == w
    ensures TokFrom(l, i, 0) == Some(Span(i, |w|)) && i + |w| == |l|
  {
    assert w + [] == w;
    Rest(l, i, w, []);
    WordHere(l, i, w);
  }

  lemma SkipOne(l: seq<byte>, i: nat, k: nat)
    requires i < |l| && IsBlank(l[i])
    ensures TokFrom(l, i, k) == TokFrom(l, i + 1, k)
  {
    assert SkipBlanks(l, i) == SkipBlanks(l, i + 1);
  }

  // ------------------------------------------------------------------ lines

  const NL: byte := 10

  datatype Line = Line(text: seq<byte>)

  /** The complete lines of a byte stream, each cut off after `room` bytes; cur is the line begun so far. */
  function LinesFrom(cur: seq<byte>, room: nat, bs: seq<byte>): (ls: seq<Line>)
    decreases bs
  {
    if bs == [] then []
    else if bs[0] == NL then [Line(cur)] + LinesFrom([], room, bs[1..])
    else LinesFrom(if |cur| < room then cur + [bs[0]] else cur, room, bs[1..])
  }

  function Cut(l: seq<byte>, room: nat): seq<byte> {
    l[..Min(room, |l|)]
  }

  lemma {:induction false} NextLine(cur: seq<byte>, room: nat, l: seq<byte>, rest: seq<byte>)
    requires NL !in l && |cur| <= room
    ensures LinesFrom(cur, room, l + [NL] + rest) == [Line(Cut(cur + l, room))] + LinesFrom([], room, rest)
    decreases l
  {
    var bs := l + [NL] + rest;
    if l == [] {
      assert bs[1..] == rest && cur + l == cur;
    } else {
      var next := if |cur| < room then cur + [l[0]] else cur;
      assert bs[1..] == l[1..] + [NL] + rest;
      NextLine(next, room, l[1..], rest);
      assert Cut(next + l[1..], room) == Cut(cur + l, room);
    }
  }

  // ------------------------------------------------------------------ hexadecimal

  function HexDigit(v: nat): byte
    requires v < 16
  {
    if v < 10 then 0x30 + v else 0x61 + (v - 10)
  }

  /** `bytes.hex()` */
  function HexOf(d: seq<byte>): (s: seq<byte>)
    ensures |s| == 2 * |d|
  {
    if d == [] then [] else [HexDigit(d[0] / 16), HexDigit(d[0] % 16)] + HexOf(d[1..])
  }

  function HexV(c: byte): (r: Option<nat>)
    ensures r.Some? ==> r.value < 16
  {
    if 0x30 <= c <= 0x39 then Some(c - 0x30)
    else if 0x61 <= c <= 0x66 then Some(c - 0x61 + 10)
    else if 0x41 <= c <= 0x46 then Some(c - 0x41 + 10)
    else None
  }

  /** The bytes a string of digit pairs stands for; None as soon as a character is no digit. */
  function UnHex(s: seq<byte>): (r: Option<seq<byte>>)
    requires |s| % 2 == 0
    ensures r.Some? ==> |r.value| == |s| / 2
  {
    if s == [] then Some([])
    else
      var rest := UnHex(s[2..]);
      if HexV(s[0]).Some? && HexV(s[1]).Some? && rest.Some? then
        Some([HexV(s[0]).value * 16 + HexV(s[1]).value] + rest.value)
      else None
  }

  lemma {:induction false} UnHexOfHex(d: seq<byte>)
    ensures UnHex(HexOf(d)) == Some(d)
  {
    if d != [] {
      UnHexOfHex(d[1..]);
      assert HexOf(d)[2..] == HexOf(d[1..]);
      assert HexV(HexOf(d)[0]) == Some(d[0] / 16) && HexV(HexOf(d)[1]) == Some(d[0] % 16);
      assert [d[0]] + d[1..] == d;
    }
  }

  lemma {:induction false} HexIsWord(d: seq<byte>, k: nat)
    requires k < 2 * |d|
    ensures !IsBlank(HexOf(d)[k]) && HexOf(d)[k] != NL
  {
    if k < 2 {
      assert HexOf(d)[k] == HexDigit(if k == 0 then d[0] / 16 else d[0] % 16);
    } else {
      HexIsWord(d[1..], k - 2);
      assert HexOf(d)[k] == HexOf(d[1..])[k - 2];
    }
  }
}
