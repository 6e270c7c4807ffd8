/**
 `alloc_frames_kernel` and `map_phys_identity`, on frames and page-table words changed in place. The
 mapper links a missing table, then fills entries page by page, and is proved against the walk that the
 processor makes of the same words.
 */
module MemMapper {
  import opened Bytes
  import opened MemLayout
  import opened MemIdentity
  import opened MemBoot

  /** P | RW | bit 7; `map_phys_identity` writes 0x83. */
  const IDENTITY_FLAGS := 0x83
  const PHYS_LIMIT := 0x1000_0000_0000

  predicate FramesFree(bm: seq<byte>, i: nat, n: nat)
    requires |bm| == BITMAP_LEN
  {
    i + n <= FRAME_PAGES && forall f: nat | i <= f < i + n :: !BitAt(bm, f)
  }

  predicate InPool(p: nat) {
    POOL <= p < RAM_PAGES
  }

  /** `base | 0x83` in the bits below the page number. */
  function Flags(base: u64): (f: nat)
    ensures f < 4096 && f % 2 == 1
  {
    BytePow2();
    assert Pow2(12) == 4096;
    OrFlags(base % 4096, IDENTITY_FLAGS, 12);
    BitOr(base % 4096, IDENTITY_FLAGS)
  }

  /** `(base >> 30) & 0x3` is the walk's index exactly when that index is below 4. */
  lemma PdptIndex(base: u64)
    ensures Index3(base) == (base / 0x4000_0000) % 4 <==> Index3(base) < 4
  {
    MaskedSlot(base);
  }

  /** The entry of the k-th page after base, within one page table: what `FillNext` writes. */
  lemma LaterEntry(ram: Ram, root: nat, base: u64, pn: nat, k: nat, pt: nat, next: nat, i: nat, flags: nat)
    requires pn == base / 4096 && pn + k < VPN_SPAN && ServedBy(ram, root, pn, pt)
    requires next == base + 4096 * k && i == Index1(base) + k < 512 && flags == Flags(base)
    ensures next < VA_SPAN && next / 4096 == pn + k && ServedBy(ram, root, pn + k, pt)
    ensures i == Index1(next) && flags == Flags(next)
  {
    LaterPage(ram, root, base, pn, k, pt);
    LaterIndex(base, k, next, i, flags);
  }

  lemma LaterIndex(base: u64, k: nat, next: u64, i: nat, flags: nat)
    requires next == base + 4096 * k < VA_SPAN && i == Index1(base) + k < 512 && flags == Flags(base)
    ensures i == Index1(next) && flags == Flags(next)
  {
    PageAfter(base, k);
    IndexValues(base);
    IndexValues(base + 4096 * k);
    assert (base + 4096 * k) % 4096 == base % 4096;
  }

  /** A page-aligned address has just the flags 0x83 or-ed in: present, writable, bit 7. */
  lemma AlignedFlags(base: u64)
    requires base % 4096 == 0
    ensures Flags(base) == 0x83
  {
  }

  /** n entries of table pt, from entry i on, name the pages from pn on. */
  ghost predicate Filled(ram: Ram, pt: nat, i: nat, pn: nat, flags: nat, n: nat)
    requires i + n <= 512 && pn + n <= VPN_SPAN && flags < 4096
  {
    forall j: nat | i <= j < i + n :: Word(ram, pt, j) == Pte(pn + j - i, flags)
  }

  lemma FilledStep(ram: Ram, ram': Ram, pt: nat, i: nat, pn: nat, flags: nat, n: nat)
    requires i + n < 512 && pn + n < VPN_SPAN && flags < 4096 && pt < RAM_PAGES
    requires Filled(ram, pt, i, pn, flags, n) && ram' == Poke(ram, pt, i + n, Pte(pn + n, flags))
    ensures Filled(ram', pt, i, pn, flags, n + 1)
  {
    forall j: nat | i <= j < i + n + 1
      ensures Word(ram', pt, j) == Pte(pn + j - i, flags)
    {
      assert j != i + n ==> Word(ram', pt, j) == Word(ram, pt, j);
    }
  }

  /** Mapping the page at 256 GiB on the boot tables leaves 256 GiB unmapped and moves address 0 there. */
  lemma HighAddressLost(ram: Ram, h0: nat, h1: nat, va: u64)
    requires Booted(ram, h0, h1) && va == 0x40_0000_0000
    ensures Index3(va) == 256 && VirtToPhys(ram, PML4, va) == None
    ensures Translation(ram, PML4, va / 4096, 1, va) == None
    ensures Translation(ram, PML4, va / 4096, 1, 0) == Some(va)
  {
    IndexValues(va);
    assert Index4(va) == 0 && Index3(va) == 256;
    BootWord(ram, h0, h1, PML4, 0);
    BootWord(ram, h0, h1, PDPT, 256);
    SelfMappedIff(ram, PML4, va / 4096, 1, va);
    TranslationStep(ram, PML4, va / 4096, 0, 0);
  }

  class Mapper {
    const ram: array<Page>
    const frameBitmap: array<byte>
    /** The page that CR3 names. */
    const root: nat
    ghost var role: map<nat, Node>

    /** The tables form a tree, and those in the pool are marked used. */
    ghost predicate Valid()
      reads this, ram, frameBitmap
    {
      && ram.Length == RAM_PAGES && frameBitmap.Length == BITMAP_LEN
      && Tree(ram[..], root, role)
      && forall p | p in role && InPool(p) :: BitAt(frameBitmap[..], p - POOL)
    }

    /** The boot tables as `demand_zero_init` leaves them, with a pool of free frames. */
    constructor (memory: array<Page>, h0: nat, h1: nat)
      requires memory.Length == RAM_PAGES && Booted(memory[..], h0, h1)
      ensures Valid() && ram == memory && fresh(frameBitmap) && root == PML4
      ensures forall va: u64 :: SmallPath(ram[..], root, va)
    {
      ram, root := memory, PML4;
      frameBitmap := new byte[BITMAP_LEN](_ => 0);
      role := BootRoles(h0, h1);
      new;
      BootTree(ram[..], h0, h1);
      forall va: u64
        ensures SmallPath(ram[..], root, va)
      {
        BootSmall(ram[..], h0, h1, va);
      }
    }

    /** No address translates differently, and no path gained a large page. */
    twostate predicate SameTranslations()
      requires ram.Length == RAM_PAGES
      reads ram
    {
      && (forall va: u64 :: VirtToPhys(ram[..], root, va) == VirtToPhys(old(ram[..]), root, va))
      && (forall va: u64 | SmallPath(old(ram[..]), root, va) :: SmallPath(ram[..], root, va))
    }

    /** `alloc_frames_kernel`: the lowest run of n free frames, marked and zeroed. */
    method AllocFrames(n: nat) returns (r: Option<nat>)
      requires Valid()
      modifies ram, frameBitmap
      ensures Valid() && SameTranslations()
      ensures r.None? ==> ram[..] == old(ram[..]) && frameBitmap[..] == old(frameBitmap[..])
      ensures r.None? <==> n == 0 || forall i: nat :: !FramesFree(old(frameBitmap[..]), i, n)
      ensures r.Some? ==>
                && POOL <= r.value && FramesFree(old(frameBitmap[..]), r.value - POOL, n)
                && (forall p: nat | r.value <= p < r.value + n :: p !in role)
                && (forall i: nat | i < r.value - POOL :: !FramesFree(old(frameBitmap[..]), i, n))
                && (forall f: nat | f < FRAME_PAGES ::
                      BitAt(frameBitmap[..], f) <==> BitAt(old(frameBitmap[..]), f) || r.value <= POOL + f < r.value + n)
                && (forall p: nat | p < RAM_PAGES ::
                      ram[p] == if r.value <= p < r.value + n then ZeroPage() else old(ram[p]))
    {
      if n == 0 || n > FRAME_PAGES {
        return None;
      }
      var i := 0;
      while i + n <= FRAME_PAGES
        invariant Valid() && ram[..] == old(ram[..]) && frameBitmap[..] == old(frameBitmap[..])
        invariant forall j: nat | j < i :: !FramesFree(frameBitmap[..], j, n)
      {
        var free := ScanRun(i, n);
        if free {
          forall p: nat | POOL + i <= p < POOL + i + n
            ensures p !in role
          {
            assert !BitAt(frameBitmap[..], p - POOL);
          }
          TakeRun(i, n);
          return Some(POOL + i);
        }
        i := i + 1;
      }
      return None;
    }

    method ScanRun(i: nat, n: nat) returns (free: bool)
      requires frameBitmap.Length == BITMAP_LEN && i + n <= FRAME_PAGES
      ensures free <==> FramesFree(frameBitmap[..], i, n)
    {
      for j := 0 to n
        invariant forall f: nat | i <= f < i + j :: !BitAt(frameBitmap[..], f)
      {
        if TestBit(frameBitmap[(i + j) / 8], (i + j) % 8) {
          assert BitAt(frameBitmap[..], i + j);
          return false;
        }
      }
      return true;
    }

    method MarkRun(i: nat, n: nat)
      requires frameBitmap.Length == BITMAP_LEN && i + n <= FRAME_PAGES
      modifies frameBitmap
      ensures forall f: nat | f < FRAME_PAGES ::
                BitAt(frameBitmap[..], f) <==> BitAt(old(frameBitmap[..]), f) || i <= f < i + n
    {
      BytePow2();
      for j := 0 to n
        invariant forall f: nat | f < FRAME_PAGES ::
                    BitAt(frameBitmap[..], f) <==> BitAt(old(frameBitmap[..]), f) || i <= f < i + j
      {
        ghost var before := frameBitmap[..];
        frameBitmap[(i + j) / 8] := OrBit(frameBitmap[(i + j) / 8], (i + j) % 8, 8);
        assert frameBitmap[..] == SetBitAt(before, i + j);
      }
    }

    method ZeroPageAt(p: nat)
      requires ram.Length == RAM_PAGES && p < RAM_PAGES
      modifies ram
      ensures ram[..] == old(ram[..])[p := ZeroPage()]
    {
      for k := 0 to 512
        invariant ram[..] == old(ram[..])[p := ram[p]]
        invariant forall j | 0 <= j < k :: ram[p].words[j] == 0
      {
        ram[p] := Page(ram[p].words[k := 0]);
      }
      assert ram[p].words == ZeroPage().words;
    }

    method TakeRun(i: nat, n: nat)
      requires Valid() && i + n <= FRAME_PAGES && FramesFree(frameBitmap[..], i, n)
      requires forall p: nat | POOL + i <= p < POOL + i + n :: p !in role
      modifies ram, frameBitmap
      ensures Valid() && SameTranslations()
      ensures forall f: nat | f < FRAME_PAGES ::
                BitAt(frameBitmap[..], f) <==> BitAt(old(frameBitmap[..]), f) || i <= f < i + n
      ensures forall p: nat | p < RAM_PAGES ::
                ram[p] == if POOL + i <= p < POOL + i + n then ZeroPage() else old(ram[p])
    {
      MarkRun(i, n);
      ghost var marked := frameBitmap[..];
      for j := 0 to n
        modifies ram
        invariant frameBitmap[..] == marked
        invariant Tree(ram[..], root, role) && SameTranslations()
        invariant forall p: nat | p < RAM_PAGES ::
                    ram[p] == if POOL + i <= p < POOL + i + j then ZeroPage() else old(ram[p])
      {
        ghost var before := ram[..];
        ZeroPageAt(POOL + i + j);
        OutsideTree(before, ram[..], root, role, POOL + i + j);
        forall va: u64
          ensures VirtToPhys(ram[..], root, va) == VirtToPhys(before, root, va)
          ensures SmallPath(ram[..], root, va) == SmallPath(before, root, va)
        {
          OutsideWalk(before, ram[..], root, role, POOL + i + j, va);
        }
      }
    }

    /** One level of the path: the table behind entry a of p, created over count frames when absent. */
    method EnsureEntry(p: nat, a: nat, count: nat) returns (r: Option<nat>)
      requires Valid() && p in role && a < 512 && !role[p].Pt? && count > 0
      requires Present(Word(ram[..], p, a)) ==> role[p].Root? || !Large(Word(ram[..], p, a))
      modifies ram, frameBitmap, `role
      ensures Valid() && SameTranslations()
      ensures forall q | q in old(role) :: q in role && role[q] == old(role)[q]
      ensures forall q: nat, b: nat | q in old(role) && b < 512 && !(q == p && a == b) ::
                Word(ram[..], q, b) == Word(old(ram[..]), q, b)
      ensures r.None? ==> forall i: nat :: !FramesFree(frameBitmap[..], i, count)
      ensures r.Some? ==>
                && r.value in role && role[r.value] == Child(role[p], a)
                && Present(Word(ram[..], p, a)) && Pfn(Word(ram[..], p, a)) == r.value
                && (role[p].Root? || !Large(Word(ram[..], p, a)))
    {
      assert LinkOk(ram[..], role, p, a);
      if Present(Word(ram[..], p, a)) {
        return Some(Pfn(Word(ram[..], p, a)));
      }
      var t := AllocFrames(count);
      if t.None? {
        return None;
      }
      r := t;
      LinkTable(p, a, t.value);
    }

    method LinkTable(p: nat, a: nat, t: nat)
      requires Valid() && p in role && a < 512 && !role[p].Pt? && !Present(Word(ram[..], p, a))
      requires InPool(t) && t !in role && ram[t] == ZeroPage() && BitAt(frameBitmap[..], t - POOL)
      modifies ram, `role
      ensures Valid() && SameTranslations()
      ensures role == old(role)[t := Child(old(role)[p], a)]
      ensures ram[..] == Poke(old(ram[..]), p, a, Pte(t, 3))
      ensures Word(ram[..], p, a) == Pte(t, 3) && Present(Pte(t, 3)) && !Large(Pte(t, 3)) && Pfn(Pte(t, 3)) == t
    {
      ghost var before := ram[..];
      ram[p] := Page(ram[p].words[a := Pte(t, 3)]);
      assert ram[..] == Poke(before, p, a, Pte(t, 3));
      LinkTree(before, ram[..], root, role, p, a, t);
      forall va: u64
        ensures VirtToPhys(ram[..], root, va) == VirtToPhys(before, root, va)
        ensures SmallPath(before, root, va) ==> SmallPath(ram[..], root, va)
      {
        LinkWalk(before, ram[..], root, role, p, a, t, va);
      }
      role := role[t := Child(role[p], a)];
      PteFields(t, 3);
    }

    /** The page table of base, with the levels above it created where they are absent. The PDPT index is cut
        to two bits; m is an address of the page whose entry that is. */
    method EnsurePt(base: u64, ghost m: u64) returns (r: Option<nat>)
      requires Valid() && base / 4096 < VPN_SPAN && m / 4096 == Masked(base / 4096) && SmallPath(ram[..], root, m)
      modifies ram, frameBitmap, `role
      ensures Valid() && SameTranslations()
      ensures r.Some? ==> PtOf(ram[..], root, m) == r && r.value in role
      ensures r.None? ==> forall i: nat :: !FramesFree(frameBitmap[..], i, 2)
    {
      MaskedIndices(base, m);
      MaskedSlot(base);
      var pdpt := EnsureEntry(root, Index4(base), 2);
      if pdpt.None? {
        return None;
      }
      var pd := EnsureEntry(pdpt.value, (base / 0x4000_0000) % 4, 2);
      if pd.None? {
        return None;
      }
      r := EnsureEntry(pd.value, Index2(base), 1);
      if r.None? {
        forall i: nat
          ensures !FramesFree(frameBitmap[..], i, 2)
        {
          assert !FramesFree(frameBitmap[..], i, 1);
        }
      }
    }

    /** Since `start`, n pages from page `first` on have been entered. */
    ghost predicate Entered(start: Ram, first: nat, n: nat)
      requires ram.Length == RAM_PAGES
      reads this, ram
    {
      forall v: u64 | v < VA_SPAN :: VirtToPhys(ram[..], root, v) == Translation(start, root, first, n, v)
    }

    /** The tables above the entries are those of `before`. */
    ghost predicate SameTables(before: Ram)
      requires ram.Length == RAM_PAGES
      reads this, ram
    {
      && (forall va: u64 :: PtOf(ram[..], root, va) == PtOf(before, root, va))
      && forall va: u64 :: SmallPath(ram[..], root, va) == SmallPath(before, root, va)
    }

    /** The entry of base, which is in page n of the range; `tables` has the same tables. */
    method FillEntry(ghost start: Ram, ghost tables: Ram, ghost first: nat, ghost n: nat, pt: nat, base: u64,
                     ghost i: nat, ghost flags: nat)
      requires Valid() && SameTables(tables) && ServedBy(tables, root, first + n, pt) && pt in role
      requires base / 4096 == first + n < VPN_SPAN && Entered(start, first, n) && i == Index1(base) && flags == Flags(base)
      modifies ram
      ensures Valid() && Entered(start, first, n + 1) && SameTables(tables)
      ensures ram[..] == Poke(old(ram[..]), pt, i, Pte(first + n, flags))
    {
      ghost var before, m := ram[..], 4096 * Masked(first + n);
      ram[pt] := Page(ram[pt].words[Index1(base) := Pte(base / 4096, Flags(base))]);
      forall va: u64
        ensures Tree(ram[..], root, role)
        ensures PtOf(ram[..], root, va) == PtOf(before, root, va)
        ensures SmallPath(ram[..], root, va) == SmallPath(before, root, va)
        ensures va < VA_SPAN ==> VirtToPhys(ram[..], root, va) == Translation(start, root, first, n + 1, va)
      {
        EntryWalk(before, ram[..], root, role, start, first, n, pt, base, m, Flags(base), va);
      }
      EntryWalk(before, ram[..], root, role, start, first, n, pt, base, m, Flags(base), 0);
    }

    /** The inner loop: entries for the pages from base on, within one page table. */
    method FillPt(ghost start: Ram, ghost first: nat, ghost done: nat, pt: nat, base: u64, n: nat)
      requires Valid() && ServedBy(ram[..], root, first + done, pt) && pt in role
      requires base / 4096 == first + done && first + done + n <= VPN_SPAN
      requires Index1(base) + n <= 512 && Entered(start, first, done)
      modifies ram
      ensures Valid() && Entered(start, first, done + n) && SameTables(old(ram[..]))
      ensures Filled(ram[..], pt, Index1(base), base / 4096, Flags(base), n)
    {
      ghost var before := ram[..];
      for k := 0 to n
        invariant Valid() && Entered(start, first, done + k) && SameTables(before)
        invariant Filled(ram[..], pt, Index1(base), base / 4096, Flags(base), k)
      {
        ghost var here := ram[..];
        FillNext(start, before, first, done, k, pt, base);
        FilledStep(here, ram[..], pt, Index1(base), base / 4096, Flags(base), k);
      }
    }

    /** The entry of the k-th page after base. */
    method FillNext(ghost start: Ram, ghost tables: Ram, ghost first: nat, ghost done: nat, k: nat, pt: nat, base: u64)
      requires Valid() && SameTables(tables) && ServedBy(tables, root, first + done, pt) && pt in role
      requires base / 4096 == first + done && first + done + k < VPN_SPAN && Index1(base) + k < 512
      requires Entered(start, first, done + k)
      modifies ram
      ensures Valid() && Entered(start, first, done + k + 1) && SameTables(tables)
      ensures ram[..] == Poke(old(ram[..]), pt, Index1(base) + k, Pte(first + done + k, Flags(base)))
    {
      var next := base + 4096 * k;
      ghost var n, i, flags := done + k, Index1(base) + k, Flags(base);
      LaterEntry(tables, root, base, first + done, k, pt, next, i, flags);
      assert first + n == first + done + k;
      FillEntry(start, tables, first, n, pt, next, i, flags);
    }

    /** `map_phys_identity` on a range without large pages on the paths that it follows. The first `done` pages
        have been entered, all of them exactly when the answer is true; what that makes of the translation of any
        address is `Translation`, and an entered page translates to itself exactly when `KeepsItself` holds of it
        beforehand. False below the limit means that the pool has no two adjacent free frames. */
    method MapPhysIdentity(phys: u64, nPages: nat) returns (ok: bool, ghost done: nat)
      requires Valid() && phys / 4096 + nPages <= VPN_SPAN
      requires PathsSmall(ram[..], root, phys / 4096, phys / 4096 + nPages)
      modifies ram, frameBitmap, `role
      ensures Valid() && done <= nPages && (ok <==> done == nPages)
      ensures Entered(old(ram[..]), phys / 4096, done)
      ensures forall va: u64 | phys / 4096 <= va / 4096 < phys / 4096 + done ::
                VirtToPhys(ram[..], root, va) == Some(va) <==> KeepsItself(old(ram[..]), root, phys / 4096, done, va)
      ensures !ok && phys < 0x1000_0000_0000 ==> forall i: nat :: !FramesFree(frameBitmap[..], i, 2)
    {
      ok, done := false, 0;
      ghost var start := ram[..];
      if nPages == 0 {
        ok := true;
      } else if phys < PHYS_LIMIT {
        ok, done := MapPages(phys, nPages);
      }
      RangeSelfMappedIff(start, ram[..], root, phys / 4096, done);
    }

    /** The outer loop, one page table a round. */
    method MapPages(phys: u64, nPages: nat) returns (ok: bool, ghost done: nat)
      requires Valid() && phys / 4096 + nPages <= VPN_SPAN
      requires PathsSmall(ram[..], root, phys / 4096, phys / 4096 + nPages)
      modifies ram, frameBitmap, `role
      ensures Valid() && done <= nPages && (ok <==> done == nPages)
      ensures Entered(old(ram[..]), phys / 4096, done)
      ensures !ok ==> forall i: nat :: !FramesFree(frameBitmap[..], i, 2)
    {
      done := 0;
      var base: nat := phys;
      var left := nPages;
      ghost var start, first := ram[..], phys / 4096;
      while left > 0
        invariant done + left == nPages && base / 4096 == first + done
        invariant Valid() && Entered(start, first, done) && PathsSmall(ram[..], root, first, first + nPages)
      {
        PageBound(base);
        var n := MapTable(start, first, nPages, done, base, left);
        if n == 0 {
          return false, done;
        }
        PageAfter(base, n);
        base, left, done := base + 4096 * n, left - n, done + n;
      }
      return true, done;
    }

    /** The pages that share a page table with base, as many as are left; none when the table cannot be made. */
    method MapTable(ghost start: Ram, ghost first: nat, ghost nPages: nat, ghost done: nat, base: u64, left: nat)
      returns (n: nat)
      requires Valid() && first + nPages <= VPN_SPAN && done + left == nPages && left > 0
      requires base / 4096 == first + done && Entered(start, first, done)
      requires PathsSmall(ram[..], root, first, first + nPages)
      modifies ram, frameBitmap, `role
      ensures Valid() && n <= left && Entered(start, first, done + n) && PathsSmall(ram[..], root, first, first + nPages)
      ensures n == 0 ==> forall i: nat :: !FramesFree(frameBitmap[..], i, 2)
    {
      assert SmallPath(ram[..], root, 4096 * Masked(base / 4096));
      var pt := EnsurePt(base, 4096 * Masked(base / 4096));
      if pt.None? {
        return 0;
      }
      n := Min(512 - Index1(base), left);
      FillPt(start, first, done, pt.value, base, n);
    }
  }
}
