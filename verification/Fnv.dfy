/** FNV-1a on 32 bits: each step is a bijection, so a change of one byte always changes the hash. */
module Fnv {
  import opened Bytes

  const BASIS: u32 := 0x811C_9DC5
  const PRIME := 0x0100_0193
  /** The inverse of the prime modulo 2^32: PRIME * INVERSE == 3513497 * 2^32 + 1. */
  const INVERSE := 0x359C_449B
  const MOD := 0x1_0000_0000

  /** Bitwise exclusive or. */
  function Xor(a: nat, b: nat): nat
    decreases a + b
  {
    if a == 0 then b
    else if b == 0 then a
    else 2 * Xor(a / 2, b / 2) + (a % 2 + b % 2) % 2
  }

  lemma {:induction false} XorCancel(a: nat, b: nat)
    ensures Xor(Xor(a, b), b) == a
    decreases a + b
  {
    if a == 0 {
      XorSelf(b);
    } else if b != 0 {
      XorCancel(a / 2, b / 2);
      XorHalves(Xor(a, b), b);
      XorHalves(a, b);
    }
  }

  lemma {:induction false} XorSelf(a: nat)
    ensures Xor(a, a) == 0
  {
    if a != 0 {
      XorSelf(a / 2);
    }
  }

  lemma XorHalves(a: nat, b: nat)
    ensures Xor(a, b) / 2 == Xor(a / 2, b / 2) && Xor(a, b) % 2 == (a % 2 + b % 2) % 2
  {
  }

  lemma {:induction false} XorBelow(a: nat, b: nat, n: nat)
    requires a < Pow2(n) && b < Pow2(n)
    ensures Xor(a, b) < Pow2(n)
  {
    if n > 0 {
      XorBelow(a / 2, b / 2, n - 1);
      XorHalves(a, b);
    }
  }

  lemma Pow32()
    ensures Pow2(32) == MOD
  {
    assert Pow2(8) == 256 by { BytePow2(); }
    assert Pow2(16) == 0x1_0000 by { assert Pow2(12) == 0x1000; }
    assert Pow2(24) == 0x100_0000 by { assert Pow2(20) == 0x10_0000; }
    assert Pow2(28) == 0x1000_0000;
  }

  /** Multiplication by the prime can be undone, because the prime is odd. */
  lemma Unmul(x: u32)
    ensures ((x * PRIME) % MOD) * INVERSE % MOD == x
  {
    var q := (x * PRIME) / MOD;
    var z := (x * PRIME) % MOD;
    var k := x * 3513497 - q * INVERSE;
    assert z * INVERSE == x + MOD * k by {
      assert z == x * PRIME - MOD * q;
      assert z * INVERSE == x * PRIME * INVERSE - MOD * q * INVERSE;
      assert PRIME * INVERSE == 3513497 * MOD + 1;
      assert x * PRIME * INVERSE == x * (3513497 * MOD + 1);
    }
    Residue(x, k);
  }

  lemma Residue(x: u32, k: int)
    ensures (x + MOD * k) % MOD == x
  {
  }

  /** One round of the hash. */
  function Step(h: u32, b: byte): (r: u32) {
    Xor(h, b) * PRIME % MOD
  }

  lemma StepInjective(h: u32, k: u32, b: byte, c: byte)
    requires Step(h, b) == Step(k, c)
    ensures h == k <==> b == c
  {
    Pow32();
    BytePow2();
    BelowWord(b);
    BelowWord(c);
    XorBelow(h, b, 32);
    XorBelow(k, c, 32);
    Unmul(Xor(h, b));
    Unmul(Xor(k, c));
    assert Xor(h, b) == Xor(k, c);
    XorCancel(h, b);
    XorCancel(k, c);
    XorSymmetric(h, b);
    XorSymmetric(k, c);
    XorCancel(b, h);
    XorCancel(c, k);
  }

  lemma BelowWord(b: byte)
    ensures b < Pow2(32)
  {
    Pow32();
  }

  lemma {:induction false} XorSymmetric(a: nat, b: nat)
    ensures Xor(a, b) == Xor(b, a)
    decreases a + b
  {
    if a != 0 && b != 0 {
      XorSymmetric(a / 2, b / 2);
    }
  }

  /** The hash continued from state h over the bytes of s. */
  function From(h: u32, s: seq<byte>): (r: u32) {
    if s == [] then h else Step(From(h, s[..|s| - 1]), s[|s| - 1])
  }

  function Hash(s: seq<byte>): u32 {
    From(BASIS, s)
  }

  lemma {:induction false} FromInjective(h: u32, k: u32, s: seq<byte>)
    requires h != k
    ensures From(h, s) != From(k, s)
  {
    if s != [] {
      var n := |s| - 1;
      FromInjective(h, k, s[..n]);
      if From(h, s) == From(k, s) {
        StepInjective(From(h, s[..n]), From(k, s[..n]), s[n], s[n]);
      }
    }
  }

  lemma {:induction false} FromSplit(h: u32, a: seq<byte>, b: seq<byte>)
    ensures From(h, a + b) == From(From(h, a), b)
  {
    if b == [] {
      assert a + b == a;
    } else {
      var n := |b| - 1;
      FromSplit(h, a, b[..n]);
      assert (a + b)[..|a + b| - 1] == a + b[..n];
    }
  }

  /** Changing any single byte changes the hash. */
  lemma OneByteChange(s: seq<byte>, i: nat, v: byte)
    requires i < |s| && v != s[i]
    ensures Hash(s[i := v]) != Hash(s)
  {
    var t := s[i := v];
    var h := From(BASIS, s[..i]);
    assert s == s[..i] + [s[i]] + s[i + 1..];
    assert t == s[..i] + [v] + s[i + 1..];
    FromSplit(BASIS, s[..i] + [s[i]], s[i + 1..]);
    FromSplit(BASIS, s[..i] + [v], s[i + 1..]);
    assert (s[..i] + [s[i]])[..i] == s[..i] == (s[..i] + [v])[..i];
    if Step(h, v) == Step(h, s[i]) {
      StepInjective(h, h, v, s[i]);
    }
    FromInjective(Step(h, v), Step(h, s[i]), s[i + 1..]);
  }

  method Fnv1a(data: seq<byte>) returns (h: u32)
    ensures h == Hash(data)
  {
    h := BASIS;
    for i := 0 to |data|
      invariant h == Hash(data[..i])
    {
      assert data[..i + 1][..i] == data[..i];
      var mixed := Xor(h, data[i]);
      h := mixed * PRIME % MOD;
    }
    assert data[..|data|] == data;
  }
}
