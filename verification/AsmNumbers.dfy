/**
 The values of hexadecimal operands and of label numbers, however long: operands count modulo 2^64, label
 numbers as signed 64-bit numbers, and a name that is no label has no number. Both are read digit by
 digit in the code.
 */
module AsmNumbers {
  import opened Bytes
  import opened AsmSource
  import opened AsmText

  // ------------------------------------------------------------------ hexadecimal operands

  /** The hexadecimal digit for v, in either case. */
  function HexChar(v: nat, upper: bool): char
    requires v < 16
  {
    if upper then "0123456789ABCDEF"[v] else "0123456789abcdef"[v]
  }

  lemma HexCharValue(v: nat, upper: bool)
    requires v < 16
    ensures HexValue(HexChar(v, upper)) == v
  {
  }

  /** Only hexadecimal digits count for anything. */
  lemma OtherIsZero(c: char)
    ensures HexValue(c) < 16 && (HexValue(c) == 0 || c in {HexChar(HexValue(c), true), HexChar(HexValue(c), false)})
  {
  }

  function HexText(n: nat, upper: bool): (s: string)
    ensures s != ""
  {
    if n < 16 then [HexChar(n, upper)] else HexText(n / 16, upper) + [HexChar(n % 16, upper)]
  }

  lemma {:induction false} HexFoldAppend(t: string, u: string, i: nat, v: u64, w: u64)
    requires i <= |t| && w == HexFold(t, i, v)
    ensures HexFold(t + u, i, v) == HexFold(t + u, |t|, w)
    decreases |t| - i
  {
    if i < |t| {
      assert (t + u)[i] == t[i];
      HexFoldAppend(t, u, i + 1, (v * 16 + HexValue(t[i])) % WORD, w);
    }
  }

  lemma {:induction false} HexRead(pre: string, n: nat, upper: bool)
    ensures HexFold(pre + HexText(n, upper), |pre|, 0) == n % 0x1_0000_0000_0000_0000
  {
    var t := pre + HexText(n, upper);
    if n >= 16 {
      var f, c := HexText(n / 16, upper), HexChar(n % 16, upper);
      HexRead(pre, n / 16, upper);
      HexFoldAppend(pre + f, [c], |pre|, 0, (n / 16) % WORD);
      assert t == pre + f + [c] && t[|pre + f|] == c;
      HexCharValue(n % 16, upper);
      LastDigit(t, |pre + f|, (n / 16) % WORD, n % 16);
      Carry16(n / 16, n % 16);
    } else {
      HexCharValue(n, upper);
      assert t[|pre|] == HexChar(n, upper);
      LastDigit(t, |pre|, 0, n);
    }
  }

  lemma LastDigit(t: string, i: nat, v: u64, d: nat)
    requires |t| == i + 1 && HexValue(t[i]) == d
    ensures HexFold(t, i, v) == (v * 16 + d) % WORD
  {
    assert HexFold(t, i + 1, (v * 16 + d) % WORD) == (v * 16 + d) % WORD;
  }

  lemma Carry16(q: nat, d: nat)
    requires d < 16
    ensures ((q % WORD) * 16 + d) % WORD == (16 * q + d) % WORD
  {
    var k := q / WORD;
    assert 16 * q + d == WORD * (16 * k) + ((q % WORD) * 16 + d);
    Multiple((q % WORD) * 16 + d, 16 * k);
  }

  /** "0x" or "0X" and hexadecimal digits stand for their value in 64 bits, with or without a dollar sign in front. */
  lemma HexNumbers(n: nat, upper: bool)
    ensures ParseNum("0x" + HexText(n, upper)) == n % 0x1_0000_0000_0000_0000
    ensures ParseNum("0X" + HexText(n, upper)) == n % 0x1_0000_0000_0000_0000
    ensures ParseNum("$0x" + HexText(n, upper)) == n % 0x1_0000_0000_0000_0000
    ensures (ParseNum("-0x" + HexText(n, upper)) + n) % 0x1_0000_0000_0000_0000 == 0
  {
    var t := HexText(n, upper);
    HexRead("0x", n, upper);
    HexRead("0X", n, upper);
    Marked("0x" + t);
    Marked("0X" + t);
    assert "$" + ("0x" + t) == "$0x" + t && "-" + ("0x" + t) == "-0x" + t;
    Negated(n, n % WORD);
  }

  lemma Marked(d: string)
    requires |d| >= 2 && d[0] == '0' && (d[1] == 'x' || d[1] == 'X')
    ensures ParseNum(d) == HexFold(d, 2, 0) && ParseNum("$" + d) == HexFold(d, 2, 0)
    ensures ParseNum("-" + d) == (WORD - HexFold(d, 2, 0)) % WORD
  {
    assert ("$" + d)[1..] == d && ("-" + d)[1..] == d;
    assert Dollar(d) == d && Dollar("$" + d) == d && Dollar("-" + d) == "-" + d;
  }

  // ------------------------------------------------------------------ label numbers

  /** n in 64 bits, read as a signed number. */
  function Signed64(n: nat): int {
    var m := n % 0x1_0000_0000_0000_0000;
    if m < 0x8000_0000_0000_0000 then m else m - 0x1_0000_0000_0000_0000
  }

  lemma {:induction false} MultipleInt(x: int, k: nat)
    ensures (x + WORD * k) % WORD == x % WORD
  {
    if k > 0 {
      MultipleInt(x, k - 1);
      assert x + WORD * k == (x + WORD * (k - 1)) + WORD;
    }
  }

  /** Wrapping after each digit comes to the same as wrapping once. */
  lemma SignedStep(q: nat, d: nat)
    requires d < 10
    ensures WrapI64(Signed64(q) * 10 + d) == Signed64(10 * q + d)
  {
    var k: nat := (q - Signed64(q)) / WORD;
    assert q == Signed64(q) + WORD * k by {
      assert q == WORD * (q / WORD) + q % WORD;
    }
    var x := Signed64(q) * 10 + d;
    assert 10 * q + d == x + WORD * (10 * k);
    MultipleInt(x, 10 * k);
    MultipleInt(x + HALF, 10 * k);
    assert (10 * q + d + HALF) % WORD == (x + HALF) % WORD;
    HalfTurn(10 * q + d);
  }

  lemma HalfTurn(n: nat)
    ensures (n + HALF) % WORD - HALF == Signed64(n)
  {
    var m := n % WORD;
    MultipleInt(m + HALF, n / WORD);
    assert n + HALF == m + HALF + WORD * (n / WORD);
  }

  lemma {:induction false} LabelFoldAppend(t: string, u: string, i: nat, v: int, w: int)
    requires i <= |t| && w == LabelFold(t, i, v)
    ensures LabelFold(t + u, i, v) == LabelFold(t + u, |t|, w)
    decreases |t| - i
  {
    if i < |t| {
      assert (t + u)[i] == t[i];
      LabelFoldAppend(t, u, i + 1, if IsDigit(t[i]) then WrapI64(v * 10 + (t[i] as int - '0' as int)) else v, w);
    }
  }

  lemma LastLabelDigit(t: string, i: nat, v: int, d: nat)
    requires |t| == i + 1 && d < 10 && t[i] == (d + 48) as char
    ensures LabelFold(t, i, v) == WrapI64(v * 10 + d)
  {
    assert IsDigit(t[i]) && LabelFold(t, i + 1, WrapI64(v * 10 + d)) == WrapI64(v * 10 + d);
  }

  lemma {:induction false} LabelRead(n: nat)
    ensures LabelFold("L" + Digits(n), 1, 0) == Signed64(n)
  {
    var t := "L" + Digits(n);
    if n >= 10 {
      var f, c := "L" + Digits(n / 10), (n % 10 + 48) as char;
      LabelRead(n / 10);
      LabelFoldAppend(f, [c], 1, 0, Signed64(n / 10));
      assert t == f + [c] && t[|f|] == c;
      LastLabelDigit(t, |f|, Signed64(n / 10), n % 10);
      SignedStep(n / 10, n % 10);
    } else {
      assert t[1] == (n + 48) as char;
      LastLabelDigit(t, 1, 0, n);
      SignedStep(0, n);
    }
  }

  /** The number behind an "L" wraps in 64 signed bits, so label 18446744073709551619 is label 3; a name without the "L", or
      without anything behind it, has no number. */
  lemma LabelNumbers(n: nat, name: string)
    ensures LabelNo("L" + Digits(n)) == Signed64(n)
    ensures |name| < 2 || name[0] != 'L' ==> LabelNo(name) == -1
  {
    LabelRead(n);
    assert ("L" + Digits(n))[0] == 'L';
  }
}
