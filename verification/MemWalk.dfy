/**
 The page walk in plain numbers: which bits of an entry name the page, pages of 4 KiB, 2 MiB and 1 GiB,
 tables outside RAM, and the two shared pages, which every space that has them maps at their own physical
 addresses.
 */
module MemWalk {
  import opened Bytes
  import opened MemLayout
  import opened MemSpaces

  /** An entry names the page in its bits 12 to 51; the bits above and below are something else. */
  lemma EntryPage(e: u64, hi: nat, pn: nat, lo: nat)
    requires pn < 0x100_0000_0000 && lo < 4096 && e == hi * 0x10_0000_0000_0000 + pn * 4096 + lo
    ensures Pfn(e) == pn && (Present(e) <==> lo % 2 == 1) && (Large(e) <==> lo / 128 % 2 == 1)
  {
    assert e / 4096 == hi * 0x100_0000_0000 + pn;
    assert e == 2 * (hi * 0x8_0000_0000_0000 + pn * 2048) + lo;
    assert e / 128 == 2 * (hi * 0x1000_0000_0000 + pn * 16) + lo / 128;
  }

  lemma {:induction false} OrBits(a: nat, b: nat, k: nat)
    ensures TestBit(BitOr(a, b), k) <==> TestBit(a, k) || TestBit(b, k)
  {
    OrHalves(a, b);
    if k > 0 {
      OrBits(a / 2, b / 2, k - 1);
    }
  }

  lemma OrHalves(a: nat, b: nat)
    ensures BitOr(a, b) / 2 == BitOr(a / 2, b / 2) && (BitOr(a, b) % 2 == 1 <==> a % 2 == 1 || b % 2 == 1)
  {
  }

  /** Or-ing an offset into a base aligned to its width adds it. */
  lemma {:induction false} OrAdds(a: nat, b: nat, w: nat)
    requires b < Pow2(w)
    ensures BitOr(a * Pow2(w), b) == a * Pow2(w) + b
    decreases w
  {
    if w == 0 {
      assert b == 0;
    } else if a > 0 && b > 0 {
      var x := a * Pow2(w - 1);
      assert Pow2(w) == 2 * Pow2(w - 1);
      assert a * Pow2(w) == 2 * x;
      Doubled(x, b);
      OrAdds(a, b / 2, w - 1);
    }
  }

  lemma Doubled(x: nat, b: nat)
    requires x > 0 && b > 0
    ensures BitOr(2 * x, b) == 2 * BitOr(x, b / 2) + b % 2
  {
    assert 2 * x / 2 == x && 2 * x % 2 == 0;
  }

  lemma Widths()
    ensures Pow2(21) == 0x20_0000 && Pow2(30) == 0x4000_0000
  {
    BytePow2();
    assert Pow2(12) == 4096;
    assert Pow2(16) == 65536;
    assert Pow2(20) == 0x10_0000;
    assert Pow2(24) == 0x100_0000;
    assert Pow2(28) == 0x1000_0000;
  }

  lemma Joined(n: nat, gig: nat, meg: nat)
    requires gig < 0x4000_0000 && meg < 0x20_0000
    ensures BitOr(0x4000_0000 * n, gig) == 0x4000_0000 * n + gig && BitOr(0x20_0000 * n, meg) == 0x20_0000 * n + meg
  {
    Widths();
    OrAdds(n, gig, 30);
    OrAdds(n, meg, 21);
  }

  /** A large entry of the third level, on a base aligned to 1 GiB, maps the gigabyte around va. */
  lemma GigabytePage(ram: Ram, root: nat, va: u64, e4: u64, e3: u64, n: nat)
    requires e4 == Word(ram, root, Index4(va)) && e4 % 2 == 1
    requires e3 == Word(ram, Pfn(e4), Index3(va)) && e3 % 2 == 1 && e3 / 128 % 2 == 1 && Pfn(e3) == 0x4_0000 * n
    ensures VirtToPhys(ram, root, va) == Some(0x4000_0000 * n + va % 0x4000_0000)
  {
    Joined(n, va % 0x4000_0000, va % 0x20_0000);
    assert Pfn(e3) * 4096 == 0x4000_0000 * n;
  }

  /** A large entry of the second level, on a base aligned to 2 MiB, maps the two megabytes around va. */
  lemma MegabytePage(ram: Ram, root: nat, va: u64, e4: u64, e3: u64, e2: u64, n: nat)
    requires e4 == Word(ram, root, Index4(va)) && e4 % 2 == 1
    requires e3 == Word(ram, Pfn(e4), Index3(va)) && e3 % 2 == 1 && e3 / 128 % 2 == 0
    requires e2 == Word(ram, Pfn(e3), Index2(va)) && e2 % 2 == 1 && e2 / 128 % 2 == 1 && Pfn(e2) == 512 * n
    ensures VirtToPhys(ram, root, va) == Some(0x20_0000 * n + va % 0x20_0000)
  {
    Joined(n, va % 0x4000_0000, va % 0x20_0000);
    assert Pfn(e2) * 4096 == 0x20_0000 * n;
  }

  /** A 4 KiB page: all four levels present, none of them large. */
  lemma SmallPage(ram: Ram, root: nat, va: u64, e4: u64, e3: u64, e2: u64, e1: u64)
    requires e4 == Word(ram, root, Index4(va)) && e4 % 2 == 1
    requires e3 == Word(ram, Pfn(e4), Index3(va)) && e3 % 2 == 1 && e3 / 128 % 2 == 0
    requires e2 == Word(ram, Pfn(e3), Index2(va)) && e2 % 2 == 1 && e2 / 128 % 2 == 0
    requires e1 == Word(ram, Pfn(e2), Index1(va)) && e1 % 2 == 1
    ensures VirtToPhys(ram, root, va) == Some(Pfn(e1) * 4096 + va % 4096)
  {
  }

  /** A table outside the 128 MiB of RAM has no entries. */
  lemma OutsideRam(ram: Ram, root: nat, va: u64)
    ensures root >= 0x8000 ==> VirtToPhys(ram, root, va) == None
    ensures forall pn: nat, i: nat | pn >= 0x8000 && i < 512 :: Word(ram, pn, i) % 2 == 0
  {
  }

  /** The shared page and the box page are mapped at their own physical addresses, in every space that has them. */
  lemma SharedAtHome(ram: Ram, b: Boot, owner: map<nat, Role>, sp: Space, i: nat, off: nat)
    requires SpaceOk(ram, b, owner, sp, i) && off < 4096
    ensures SlotAt(ram, b, sp, 512) == Shared ==>
              VirtToPhys(ram, RootPage(b, sp), 0xA0_0000 + off) == Some(0xA0_0000 + off)
    ensures SlotAt(ram, b, sp, 528) == Boxed ==>
              VirtToPhys(ram, RootPage(b, sp), 0xA1_0000 + off) == Some(0xA1_0000 + off)
  {
    WalkHeap(ram, b, owner, sp, i, 512, off);
    WalkHeap(ram, b, owner, sp, i, 528, off);
  }
}
