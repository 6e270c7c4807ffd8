/**
 Physical memory as pages of 64-bit words, page-table entries, and the 4-level walk
 (Intel SDM Vol. 3A, section 4.5).
 */
module MemLayout {
  import opened Bytes

  /** Physical page numbers: 128 MiB of RAM; frames are handed out from 16 MiB upwards. */
  const RAM_PAGES := 0x8000
  const POOL := 0x1000
  const FRAME_PAGES := 0x7000
  const BITMAP_LEN := 3584
  /** The walk sees the low 48 bits of an address. */
  const VA_SPAN := 0x1_0000_0000_0000
  const HEAP_BASE := 0x80_0000
  const HEAP_LEN := 0x40_0000
  const HEAP_PAGES := 1024
  /** The pinned shared-memory page 0xA00000 and the box page 0xA10000. */
  const SHM := 0xA00
  const BOX := 0xA10

  datatype RawPage = Page(words: seq<u64>)

  type Page = p: RawPage | |p.words| == 512 witness Page(seq(512, _ => 0))

  type Ram = r: seq<Page> | |r| == 0x8000 witness seq(0x8000, _ => Page(seq(512, _ => 0)))

  function ZeroPage(): Page {
    Page(seq(512, _ => 0))
  }

  // ---- entries ----

  /** `e & 1` */
  predicate Present(e: u64) {
    e % 2 == 1
  }

  /** `e & 0x80` */
  predicate Large(e: u64) {
    (e / 128) % 2 == 1
  }

  /** The page number in `e & 0x000F_FFFF_FFFF_F000`. */
  function Pfn(e: u64): nat {
    (e / 4096) % 0x100_0000_0000
  }

  /** `frame | flags` for a page-aligned frame address. */
  function Pte(pn: nat, flags: nat): u64
    requires pn < 0x100_0000_0000 && flags < 4096
  {
    pn * 4096 + flags
  }

  lemma Halve(a: nat, b: nat)
    ensures (2 * a + b) % 2 == b % 2
  {
  }

  lemma PteFields(pn: nat, flags: nat)
    requires pn < 0x100_0000_0000 && flags < 4096
    ensures Pfn(Pte(pn, flags)) == pn
    ensures Present(Pte(pn, flags)) <==> flags % 2 == 1
    ensures Large(Pte(pn, flags)) <==> (flags / 128) % 2 == 1
  {
    assert Pte(pn, flags) / 4096 == pn;
    Halve(2048 * pn, flags);
    assert Pte(pn, flags) / 128 == 32 * pn + flags / 128;
    Halve(16 * pn, flags / 128);
  }

  /** A table read; what lies outside RAM reads as not present. */
  function Word(ram: Ram, pn: nat, i: nat): u64
    requires i < 512
  {
    if pn < RAM_PAGES then ram[pn].words[i] else 0
  }

  function Poke(ram: Ram, pn: nat, i: nat, w: u64): Ram
    requires pn < RAM_PAGES && i < 512
  {
    ram[pn := Page(ram[pn].words[i := w])]
  }

  // ---- the walk ----

  /** The j-th base-512 digit of a virtual page number: `(va >> (12 + 9 * j)) & 0x1FF`. */
  function Digit(vpn: nat, j: nat): (d: nat)
    ensures d < 512
  {
    if j == 0 then vpn % 512 else Digit(vpn / 512, j - 1)
  }

  function Index4(va: u64): (i: nat) ensures i < 512 { Digit(va / 4096, 3) }

  function Index3(va: u64): (i: nat) ensures i < 512 { Digit(va / 4096, 2) }

  function Index2(va: u64): (i: nat) ensures i < 512 { Digit(va / 4096, 1) }

  function Index1(va: u64): (i: nat) ensures i < 512 { Digit(va / 4096, 0) }

  /** The digits spelled out. */
  lemma IndexValues(va: u64)
    ensures var n := va / 4096;
            && Index1(va) == n % 512 && Index2(va) == n / 512 % 512
            && Index3(va) == n / 512 / 512 % 512 && Index4(va) == n / 512 / 512 / 512 % 512
  {
    var n := va / 4096;
    assert Digit(n, 1) == Digit(n / 512, 0);
    assert Digit(n, 2) == Digit(n / 512, 1) == Digit(n / 512 / 512, 0);
    assert Digit(n, 3) == Digit(n / 512, 2) == Digit(n / 512 / 512, 1) == Digit(n / 512 / 512 / 512, 0);
  }

  /** Bitwise or. */
  function BitOr(a: nat, b: nat): nat
    decreases a + b
  {
    if a == 0 then b
    else if b == 0 then a
    else 2 * BitOr(a / 2, b / 2) + (if a % 2 == 1 || b % 2 == 1 then 1 else 0)
  }

  /** Or-ing flags into a page offset leaves an offset, odd when the flags are. */
  lemma {:induction false} OrFlags(a: nat, b: nat, w: nat)
    requires a < Pow2(w) && b < Pow2(w)
    ensures BitOr(a, b) < Pow2(w)
    ensures b % 2 == 1 ==> BitOr(a, b) % 2 == 1
  {
    if w > 0 {
      assert Pow2(w) == 2 * Pow2(w - 1);
      OrFlags(a / 2, b / 2, w - 1);
    }
  }

  /** `virt_to_phys`: the physical address behind va in the address space rooted at page `root`. */
  function VirtToPhys(ram: Ram, root: nat, va: u64): Option<nat> {
    var e4 := Word(ram, root, Index4(va));
    if !Present(e4) then None
    else
      var e3 := Word(ram, Pfn(e4), Index3(va));
      if !Present(e3) then None
      else if Large(e3) then Some(BitOr(Pfn(e3) * 4096, va % 0x4000_0000))
      else
        var e2 := Word(ram, Pfn(e3), Index2(va));
        if !Present(e2) then None
        else if Large(e2) then Some(BitOr(Pfn(e2) * 4096, va % 0x20_0000))
        else
          var e1 := Word(ram, Pfn(e2), Index1(va));
          if !Present(e1) then None else Some(Pfn(e1) * 4096 + va % 4096)
  }
}
