/**
 Bytes, machine words and their little-endian encoding, shared by every on-disk and on-wire format, and
 single bits of a byte, set and cleared as the frame and cluster bitmaps do it.
 */
module Bytes {

  type byte = x: int | 0 <= x < 256

  type u16 = x: int | 0 <= x < 0x1_0000

  type u32 = x: int | 0 <= x < 0x1_0000_0000

  type u64 = x: int | 0 <= x < 0x1_0000_0000_0000_0000

  datatype Option<+T> = None | Some(value: T) {
    function GetOr(default: T): T {
      if None? then default else value
    }
  }

  function Min(a: nat, b: nat): nat {
    if a <= b then a else b
  }

  /** 256 to the power n: the number of values that n bytes can hold. */
  function Radix(n: nat): (r: nat)
    ensures r >= 1
  {
    if n == 0 then 1 else 256 * Radix(n - 1)
  }

  /** The n low-order bytes of v, least significant first (Rust's `to_le_bytes`). */
  function LE(v: nat, n: nat): (s: seq<byte>)
    ensures |s| == n
  {
    if n == 0 then [] else [v % 256] + LE(v / 256, n - 1)
  }

  /** The number whose little-endian digits are s (Rust's `from_le_bytes`). */
  function FromLE(s: seq<byte>): (v: nat)
    ensures v < Radix(|s|)
  {
    if s == [] then 0 else s[0] + 256 * FromLE(s[1..])
  }

  lemma {:induction false} FromLEofLE(v: nat, n: nat)
    requires v < Radix(n)
    ensures FromLE(LE(v, n)) == v
  {
    if n > 0 {
      FromLEofLE(v / 256, n - 1);
      assert LE(v, n)[1..] == LE(v / 256, n - 1);
    }
  }

  lemma {:induction false} LEofFromLE(s: seq<byte>)
    ensures LE(FromLE(s), |s|) == s
  {
    if s != [] {
      var v := FromLE(s);
      assert v % 256 == s[0] && v / 256 == FromLE(s[1..]);
      LEofFromLE(s[1..]);
      assert LE(v, |s|) == [s[0]] + s[1..];
    }
  }

  lemma RadixValues()
    ensures Radix(1) == 0x100 && Radix(2) == 0x1_0000
    ensures Radix(4) == 0x1_0000_0000 && Radix(8) == 0x1_0000_0000_0000_0000
  {
    assert Radix(3) == 0x100_0000;
    assert Radix(5) == 0x100_0000_0000;
    assert Radix(6) == 0x1_0000_0000_0000;
    assert Radix(7) == 0x100_0000_0000_0000;
  }

  function Pow2(n: nat): (r: nat)
    ensures r >= 1
  {
    if n == 0 then 1 else 2 * Pow2(n - 1)
  }

  /** Bit k of b: `b & (1 << k) != 0`. */
  predicate TestBit(b: nat, k: nat) {
    if k == 0 then b % 2 == 1 else TestBit(b / 2, k - 1)
  }

  /** Bit k is the k-th binary digit. */
  lemma {:induction false} BitValue(b: nat, k: nat)
    ensures TestBit(b, k) <==> b / Pow2(k) % 2 == 1
  {
    if k > 0 {
      BitValue(b / 2, k - 1);
      DivDiv(b, Pow2(k - 1));
    }
  }

  lemma DivDiv(b: nat, m: nat)
    requires m >= 1
    ensures b / (2 * m) == b / 2 / m
  {
    var q := b / 2 / m;
    var r := b / 2 - q * m;
    assert b == 2 * m * q + (2 * r + b % 2) && 2 * r + b % 2 < 2 * m;
    Quotient(b, 2 * m, q, 2 * r + b % 2);
  }

  lemma Quotient(b: nat, m: nat, q: nat, r: nat)
    requires b == m * q + r && r < m
    ensures b / m == q
  {
    var p := b / m;
    assert m * p <= b < m * p + m;
    if p > q {
      Product(m, q + 1, p);
    } else if p < q {
      Product(m, p + 1, q);
    }
  }

  lemma {:induction false} Product(m: nat, a: nat, b: nat)
    requires a <= b
    ensures m * a <= m * b
  {
    if a < b {
      Product(m, a, b - 1);
      assert m * b == m * (b - 1) + m;
    }
  }

  /** `b | (1 << k)` on a word of w bits. */
  function OrBit(b: nat, k: nat, w: nat): (r: nat)
    requires b < Pow2(w) && k < w
    ensures r < Pow2(w)
  {
    if k == 0 then b - b % 2 + 1 else 2 * OrBit(b / 2, k - 1, w - 1) + b % 2
  }

  /** `b & !(1 << k)` */
  function ClearBit(b: nat, k: nat): (r: nat)
    ensures r <= b
  {
    if k == 0 then b - b % 2 else 2 * ClearBit(b / 2, k - 1) + b % 2
  }

  lemma {:induction false} OrBitBits(b: nat, k: nat, w: nat, j: nat)
    requires b < Pow2(w) && k < w
    ensures TestBit(OrBit(b, k, w), j) <==> j == k || TestBit(b, j)
  {
    if k > 0 && j > 0 {
      OrBitBits(b / 2, k - 1, w - 1, j - 1);
    }
  }

  lemma {:induction false} ClearBitBits(b: nat, k: nat, j: nat)
    ensures TestBit(ClearBit(b, k), j) <==> j != k && TestBit(b, j)
  {
    if k > 0 && j > 0 {
      ClearBitBits(b / 2, k - 1, j - 1);
    }
  }

  /** A row of bytes read as a bitmap: bit c lives in byte c / 8. */
  predicate BitAt(bm: seq<byte>, c: nat)
    requires c < 8 * |bm|
  {
    TestBit(bm[c / 8], c % 8)
  }

  lemma BytePow2()
    ensures Pow2(8) == 256
  {
    assert Pow2(4) == 16;
  }

  function SetBitAt(bm: seq<byte>, c: nat): (r: seq<byte>)
    requires c < 8 * |bm|
    ensures |r| == |bm|
    ensures forall d: nat | d < 8 * |bm| :: BitAt(r, d) <==> d == c || BitAt(bm, d)
  {
    BytePow2();
    var r := bm[c / 8 := OrBit(bm[c / 8], c % 8, 8)];
    assert forall d: nat | d < 8 * |bm| :: BitAt(r, d) <==> d == c || BitAt(bm, d) by {
      forall d: nat | d < 8 * |bm|
        ensures BitAt(r, d) <==> d == c || BitAt(bm, d)
      {
        OrBitBits(bm[c / 8], c % 8, 8, d % 8);
      }
    }
    r
  }

  function ClearBitAt(bm: seq<byte>, c: nat): (r: seq<byte>)
    requires c < 8 * |bm|
    ensures |r| == |bm|
    ensures forall d: nat | d < 8 * |bm| :: BitAt(r, d) <==> d != c && BitAt(bm, d)
  {
    var r := bm[c / 8 := ClearBit(bm[c / 8], c % 8)];
    assert forall d: nat | d < 8 * |bm| :: BitAt(r, d) <==> d != c && BitAt(bm, d) by {
      forall d: nat | d < 8 * |bm|
        ensures BitAt(r, d) <==> d != c && BitAt(bm, d)
      {
        ClearBitBits(bm[c / 8], c % 8, d % 8);
      }
    }
    r
  }
}
