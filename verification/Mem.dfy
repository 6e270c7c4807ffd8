/**
 The memory manager: frame bitmap and page-table words changed in place by address-space creation, fork
 copy, demand-zero and unmap. The methods keep the ownership of frames and are proved against the model
 of one private heap per task and the shared page.
 */
module Mem {
  import opened Bytes
  import opened MemLayout
  import opened MemSpaces
  import opened MemHeaps
  import opened MemProofs
  import opened MemBoot

  class MemoryManager {
    const ram: array<Page>
    const frameBitmap: array<byte>
    const boot: Boot
    /** The (cr3, heap0, heap1) of the task table; entry 0 is the system itself. */
    var spaces: seq<Space>
    /** Who holds each frame of the pool. */
    ghost var owner: map<nat, Role>

    ghost predicate Valid()
      reads this, ram, frameBitmap
    {
      && ram.Length == RAM_PAGES && frameBitmap.Length == BITMAP_LEN
      && Inv(ram[..], boot, spaces, owner)
      && forall f: nat | f < FRAME_PAGES :: BitAt(frameBitmap[..], f) <==> POOL + f in owner
    }

    ghost function Abs(): Heaps
      requires ram.Length == RAM_PAGES
      reads this, ram
    {
      AbsOf(ram[..], boot, spaces)
    }

    /** The number of free frames in the pool. */
    ghost function Free(): nat
      reads this
    {
      |FreeSet(owner)|
    }

    /** The boot stub's tables, completed by `demand_zero_init`: the system's own space and a pool of free frames. */
    constructor (memory: array<Page>, h0: nat, h1: nat)
      requires memory.Length == RAM_PAGES && Stub(memory[..], h0, h1)
      modifies memory
      ensures Valid() && ram == memory && fresh(frameBitmap) && Booted(ram[..], h0, h1)
      ensures boot == Boot(PML4, h0, h1) && spaces == [Space(0, 0, 0)] && Free() == 0x7000
      ensures Abs() == Heaps([FreshHeap()], old(memory[SHM]), old(memory[BOX]))
    {
      ram, boot := memory, Boot(PML4, h0, h1);
      frameBitmap := new byte[BITMAP_LEN](_ => 0);
      spaces, owner := [Space(0, 0, 0)], map[];
      new;
      DemandZeroInit(h0, h1);
      BootInv(ram[..], h0, h1);
      NothingMarked(frameBitmap[..]);
      WholePool();
    }

    /** `demand_zero_init` */
    method DemandZeroInit(h0: nat, h1: nat)
      requires ram.Length == RAM_PAGES && Stub(ram[..], h0, h1)
      modifies ram
      ensures Booted(ram[..], h0, h1) && ram[SHM] == old(ram[SHM]) && ram[BOX] == old(ram[BOX])
    {
      StubChain(ram[..], h0, h1);
      var pd := Pfn(Word(ram[..], Pfn(Word(ram[..], PML4, 0)), 0));
      PokeWord(pd, 4, Pte(h0, 7));
      PokeWord(pd, 5, Pte(h1, 7));
      PokeWord(h1, 0, Pte(SHM, 7));
      PokeWord(h1, 16, Pte(BOX, 7));
    }

    method ZeroFrame(p: nat)
      requires ram.Length == RAM_PAGES && p < RAM_PAGES
      modifies ram
      ensures ram[..] == old(ram[..])[p := ZeroPage()]
    {
      for k := 0 to 512
        invariant ram[..] == old(ram[..])[p := ram[p]]
        invariant forall j | 0 <= j < k :: ram[p].words[j] == 0
      {
        ram[p] := Page(ram[p].words[k := 0]);
      }
      assert ram[p].words == ZeroPage().words;
    }

    /** `frame_alloc_zero`: the lowest free frame, marked and zeroed. */
    method FrameAllocZero() returns (r: Option<nat>)
      requires Valid()
      modifies ram, frameBitmap, `owner
      ensures Valid() && Abs() == old(Abs())
      ensures r.None? <==> old(Free()) == 0
      ensures Free() == old(Free()) - if r.Some? then 1 else 0
      ensures r.None? ==> owner == old(owner) && ram[..] == old(ram[..])
      ensures r.Some? ==>
                && 0x1000 <= r.value < 0x8000 && r.value !in old(owner) && owner == old(owner)[r.value := Kernel]
                && (forall q: nat | 0x1000 <= q < r.value :: q in old(owner))
                && ram[..] == old(ram[..])[r.value := ZeroPage()]
    {
      BytePow2();
      for i := 0 to FRAME_PAGES
        invariant Valid() && ram[..] == old(ram[..]) && owner == old(owner)
        invariant forall q: nat | POOL <= q < POOL + i :: q in owner
      {
        if !TestBit(frameBitmap[i / 8], i % 8) {
          assert !BitAt(frameBitmap[..], i);
          ghost var before := frameBitmap[..];
          frameBitmap[i / 8] := OrBit(frameBitmap[i / 8], i % 8, 8);
          assert frameBitmap[..] == SetBitAt(before, i);
          var p := POOL + i;
          ZeroFrame(p);
          KernelFrame(old(ram[..]), boot, spaces, owner, p);
          owner := owner[p := Kernel];
          UnmappedFrameUpdate(old(ram[..]), ram[..], boot, spaces, owner, p);
          OneLessFree(old(owner), p, Kernel);
          return Some(p);
        }
        assert BitAt(frameBitmap[..], i);
      }
      NoneFreeIff(owner);
      return None;
    }

    /** `frame_free`: clears the bit of a pool frame, ignores every other address. */
    method FrameFree(p: nat)
      requires frameBitmap.Length == BITMAP_LEN
      modifies frameBitmap
      ensures forall f: nat | f < FRAME_PAGES ::
                BitAt(frameBitmap[..], f) <==> BitAt(old(frameBitmap[..]), f) && POOL + f != p
    {
      if p < POOL || p >= RAM_PAGES {
        return;
      }
      var i := p - POOL;
      BytePow2();
      ghost var before := frameBitmap[..];
      frameBitmap[i / 8] := ClearBit(frameBitmap[i / 8], i % 8);
      assert frameBitmap[..] == ClearBitAt(before, i);
    }

    /** Writes entry k of the heap tables of space i. */
    method WritePte(i: nat, k: nat, e: u64, ghost owner': map<nat, Role>)
      requires ram.Length == RAM_PAGES && Inv(ram[..], boot, spaces, owner)
      requires i < |spaces| && k < HEAP_PAGES && OwnersKept(owner, owner', i, k) && PteOk(owner', i, k, e)
      modifies ram, `owner
      ensures owner == owner' && Inv(ram[..], boot, spaces, owner)
      ensures Abs() == SetSlot(old(Abs()), i, k, SlotOf(old(ram[..]), e))
    {
      ghost var before := ram[..];
      TablePageRange(ram[..], boot, spaces, owner, i, k);
      var t := TablePage(boot, spaces[i], k);
      ram[t] := Page(ram[t].words[k % 512 := e]);
      assert ram[..] == Poke(before, t, k % 512, e);
      SlotUpdate(before, ram[..], boot, spaces, owner, owner', i, k, e);
      owner := owner';
    }

    /** `demand_zero`: a fault at va in space i. */
    method DemandZero(i: nat, va: u64) returns (ok: bool)
      requires Valid() && i < |spaces|
      modifies ram, frameBitmap, `owner
      ensures Valid()
      ensures var k := (va - 0x80_0000) / 4096;
              if 0x80_0000 <= va < 0xC0_0000 && old(Free()) > 0
              then ok == (old(Abs()).heaps[i].slots[k] == Unmapped) && Abs() == Touch(old(Abs()), i, k)
              else !ok && Abs() == old(Abs())
      ensures Free() == old(Free()) - if ok then 1 else 0
      ensures ok ==> 0x80_0000 <= va < 0xC0_0000
                     && HeapPte(ram[..], boot, spaces[i], (va - 0x80_0000) / 4096) % 4096 == 7
    {
      if va < HEAP_BASE || va >= HEAP_BASE + HEAP_LEN {
        return false;
      }
      var k := (va - HEAP_BASE) / 4096;
      TablePageRange(ram[..], boot, spaces, owner, i, k);
      UnmappedIff(ram[..], boot, spaces, owner, i, k);
      if Present(HeapPte(ram[..], boot, spaces[i], k)) {
        return false;
      }
      var p := FrameAllocZero();
      if p.None? {
        return false;
      }
      PteFields(p.value, 7);
      SameFree(owner, owner[p.value := HeapPage(i, k)]);
      WritePte(i, k, Pte(p.value, 7), owner[p.value := HeapPage(i, k)]);
      UserEntries(ram[..], boot, spaces, owner, i, k);
      UnmappedIff(ram[..], boot, spaces, owner, i, k);
      return true;
    }

    /** `frame_copy_page`: 512 words. */
    method CopyPage(dst: nat, src: nat)
      requires ram.Length == RAM_PAGES && dst < RAM_PAGES && src < RAM_PAGES && dst != src
      modifies ram
      ensures ram[..] == old(ram[..])[dst := old(ram[src])]
    {
      for k := 0 to 512
        invariant ram[..] == old(ram[..])[dst := ram[dst]]
        invariant forall j | 0 <= j < k :: ram[dst].words[j] == ram[src].words[j]
      {
        ram[dst] := Page(ram[dst].words[k := ram[src].words[k]]);
      }
      assert ram[dst].words == old(ram[src]).words;
    }

    method PokeWord(p: nat, k: nat, w: u64)
      requires ram.Length == RAM_PAGES && p < RAM_PAGES && k < 512
      modifies ram
      ensures ram[..] == Poke(old(ram[..]), p, k, w)
    {
      ram[p] := Page(ram[p].words[k := w]);
    }

    /** Fills the five frames of a new space from the boot chain. */
    method FillSpace(sp: Space, pdpt: nat, pd: nat)
      requires ram.Length == RAM_PAGES && FiveFrames(sp.cr3, pdpt, pd, sp.heap0, sp.heap1)
      requires InPool(sp.cr3) && InPool(pdpt) && InPool(pd) && InPool(sp.heap0) && InPool(sp.heap1)
      requires ram[sp.heap0] == ZeroPage() && ram[sp.heap1] == ZeroPage()
      requires var p1 := Pfn(Word(ram[..], boot.cr3, 0));
               boot.cr3 < POOL && p1 < POOL && Pfn(Word(ram[..], p1, 0)) < POOL
      modifies ram
      ensures FreshSpace(ram[..], sp, pdpt, pd) && Copied(ram[..], boot.cr3, sp, pdpt, pd)
      ensures forall q: nat | q < RAM_PAGES && q !in [sp.cr3, pdpt, pd, sp.heap0, sp.heap1] :: ram[q] == old(ram[q])
    {
      ghost var start := ram[..];
      CopyChain(sp, pdpt, pd);
      LinkSpace(sp, pdpt, pd);
      BootKept(start, ram[..], boot.cr3, sp, pdpt, pd);
    }

    /** Copies of the three upper tables of the boot chain. */
    method CopyChain(sp: Space, pdpt: nat, pd: nat)
      requires ram.Length == RAM_PAGES && sp.cr3 != pdpt && pdpt != pd && pd != sp.cr3
      requires InPool(sp.cr3) && InPool(pdpt) && InPool(pd)
      requires var p1 := Pfn(Word(ram[..], boot.cr3, 0));
               boot.cr3 < POOL && p1 < POOL && Pfn(Word(ram[..], p1, 0)) < POOL
      modifies ram
      ensures var p1 := Pfn(Word(old(ram[..]), boot.cr3, 0));
              && ram[sp.cr3] == old(ram[boot.cr3]) && ram[pdpt] == old(ram[p1])
              && ram[pd] == old(ram[Pfn(Word(ram[..], p1, 0))])
      ensures forall q: nat | q < RAM_PAGES && q != sp.cr3 && q != pdpt && q != pd :: ram[q] == old(ram[q])
    {
      var bpp := Pfn(Word(ram[..], boot.cr3, 0));
      var bpd := Pfn(Word(ram[..], bpp, 0));
      CopyPage(sp.cr3, boot.cr3);
      CopyPage(pdpt, bpp);
      CopyPage(pd, bpd);
    }

    /** The six links of a new chain. */
    method LinkSpace(sp: Space, pdpt: nat, pd: nat)
      requires ram.Length == RAM_PAGES && FiveFrames(sp.cr3, pdpt, pd, sp.heap0, sp.heap1)
      requires InPool(sp.cr3) && InPool(pdpt) && InPool(pd) && InPool(sp.heap0) && InPool(sp.heap1)
      requires ram[sp.heap0] == ZeroPage() && ram[sp.heap1] == ZeroPage()
      modifies ram
      ensures FreshSpace(ram[..], sp, pdpt, pd)
      ensures ram[sp.cr3].words == old(ram[sp.cr3]).words[0 := Pte(pdpt, 7)]
      ensures ram[pdpt].words == old(ram[pdpt]).words[0 := Pte(pd, 7)]
      ensures ram[pd].words == old(ram[pd]).words[4 := Pte(sp.heap0, 7)][5 := Pte(sp.heap1, 7)]
      ensures forall q: nat | q < RAM_PAGES && q !in [sp.cr3, pdpt, pd, sp.heap0, sp.heap1] :: ram[q] == old(ram[q])
    {
      PokeWord(sp.cr3, 0, Pte(pdpt, 7));
      PokeWord(pdpt, 0, Pte(pd, 7));
      PokeWord(pd, 4, Pte(sp.heap0, 7));
      PokeWord(pd, 5, Pte(sp.heap1, 7));
      PokeWord(sp.heap0, 0, 0);
      assert ram[sp.heap0].words == ZeroPage().words;
      PokeWord(sp.heap1, 0, Pte(SHM, 7));
      PokeWord(sp.heap1, 16, Pte(BOX, 7));
    }

    /** `as_create`: a private chain around two empty heap tables. It succeeds with at least five free frames;
        with fewer it takes the ones there are, and they are lost. */
    method AsCreate() returns (r: Option<Space>)
      requires Valid()
      modifies ram, frameBitmap, `owner, `spaces
      ensures Valid()
      ensures r.Some? <==> old(Free()) >= 5
      ensures Free() == if r.Some? then old(Free()) - 5 else 0
      ensures r.None? ==> spaces == old(spaces) && Abs() == old(Abs())
      ensures r.Some? ==> spaces == old(spaces) + [r.value] && Abs() == Spawn(old(Abs()))
      ensures r.Some? ==> forall va: u64 | !(0x80_0000 <= va % 0x1_0000_0000_0000 < 0xC0_0000) ::
                            VirtToPhys(ram[..], r.value.cr3, va) == VirtToPhys(ram[..], boot.cr3, va)
    {
      var pm4 := FrameAllocZero();
      var pp := FrameAllocZero();
      var pd := FrameAllocZero();
      var h0 := FrameAllocZero();
      var h1 := FrameAllocZero();
      if pm4.None? || pp.None? || pd.None? || h0.None? || h1.None? {
        return None;
      }
      r := Some(Space(pm4.value, h0.value, h1.value));
      InstallSpace(r.value, pp.value, pd.value);
    }

    method InstallSpace(sp: Space, pdpt: nat, pd: nat)
      requires Valid() && FiveFrames(sp.cr3, pdpt, pd, sp.heap0, sp.heap1)
      requires forall p | p in [sp.cr3, pdpt, pd, sp.heap0, sp.heap1] :: InPool(p) && p in owner && owner[p] == Kernel
      requires InPool(sp.heap0) && InPool(sp.heap1)
      requires ram[sp.heap0] == ZeroPage() && ram[sp.heap1] == ZeroPage()
      modifies ram, `owner, `spaces
      ensures Valid() && spaces == old(spaces) + [sp] && Abs() == Spawn(old(Abs())) && Free() == old(Free())
      ensures forall va: u64 | !(HEAP_BASE <= va % VA_SPAN < HEAP_BASE + HEAP_LEN) ::
                VirtToPhys(ram[..], sp.cr3, va) == VirtToPhys(ram[..], boot.cr3, va)
    {
      ghost var before := ram[..];
      assert SpaceOk(ram[..], boot, owner, spaces[0], 0);
      FillSpace(sp, pdpt, pd);
      UnmappedFramesUpdate(before, ram[..], boot, spaces, owner, [sp.cr3, pdpt, pd, sp.heap0, sp.heap1]);
      AddSpace(ram[..], boot, spaces, owner, sp, pdpt, pd);
      SameFree(owner, NewOwners(owner, |spaces|, sp, pdpt, pd));
      owner := NewOwners(owner, |spaces|, sp, pdpt, pd);
      spaces := spaces + [sp];
      assert SpaceOk(ram[..], boot, owner, spaces[0], 0);
      forall va: u64 | !(HEAP_BASE <= va % VA_SPAN < HEAP_BASE + HEAP_LEN)
        ensures VirtToPhys(ram[..], sp.cr3, va) == VirtToPhys(ram[..], boot.cr3, va)
      {
        KernelMapShared(ram[..], boot, sp, pdpt, pd, va);
      }
    }

    /** One page of `as_copy_heap`: share the pinned page, copy any other; skipped when frames run out. */
    method CopyHeapPage(dst: nat, src: nat, k: nat)
      requires Valid() && dst < |spaces| && src < |spaces| && k < HEAP_PAGES
      modifies ram, frameBitmap, `owner
      ensures Valid()
      ensures var s := old(Abs());
              var v := s.heaps[src].slots[k];
              if NeedsFrame(v) && old(Free()) == 0 then Abs() == s && Free() == 0
              else Abs() == SetSlot(s, dst, k, CopySlot(s, v, s.heaps[dst].slots[k]))
                   && Free() == old(Free()) - if NeedsFrame(v) then 1 else 0
    {
      var e := HeapPte(ram[..], boot, spaces[src], k);
      assert SpaceOk(ram[..], boot, owner, spaces[src], src) && PteOk(owner, src, k, e);
      assert Abs().heaps[src].slots[k] == SlotOf(ram[..], e);
      if !Present(e) {
        SetSlotSame(Abs(), dst, k);
        return;
      }
      if Pfn(e) == SHM {
        WritePte(dst, k, e, owner);
        return;
      }
      BackingIsData(ram[..], boot, spaces, owner, src, k);
      PrivateCopy(dst, k, Pfn(e));
    }

    /** Entry k of dst gets a frame of its own with the contents of page p. */
    method PrivateCopy(dst: nat, k: nat, p: nat)
      requires Valid() && dst < |spaces| && k < HEAP_PAGES && DataPage(owner, p)
      requires InPool(p) ==> p in owner
      modifies ram, frameBitmap, `owner
      ensures Valid()
      ensures if old(Free()) == 0 then Abs() == old(Abs()) && Free() == 0
              else Abs() == SetSlot(old(Abs()), dst, k, Private(old(ram[p]))) && Free() == old(Free()) - 1
    {
      var np := FrameAllocZero();
      if np.None? {
        return;
      }
      ghost var before := ram[..];
      CopyPage(np.value, p);
      UnmappedFrameUpdate(before, ram[..], boot, spaces, owner, np.value);
      assert ram[np.value] == old(ram[p]);
      PteFields(np.value, 7);
      SameFree(owner, owner[np.value := HeapPage(dst, k)]);
      WritePte(dst, k, Pte(np.value, 7), owner[np.value := HeapPage(dst, k)]);
    }

    /** `as_copy_heap`: the mapped pages of src appear in dst, as far as the frames go. Into a
        heap of its own without private pages, as fork does it, the copy is complete exactly when there is one for
        every mapped page other than the shared one. */
    method AsCopyHeap(dst: nat, src: nat)
      requires Valid() && dst < |spaces| && src < |spaces|
      modifies ram, frameBitmap, `owner
      ensures Valid() && Abs() == CopyWith(old(Abs()), dst, src, old(Free()))
      ensures Free() == LeftOver(old(Abs()).heaps[src], HEAP_PAGES, old(Free()))
      ensures dst != src && NoPrivate(old(Abs()), dst) ==>
                (Abs() == CopyHeap(old(Abs()), dst, src) <==> Needed(old(Abs()).heaps[src], HEAP_PAGES) <= old(Free()))
    {
      ghost var s, free := Abs(), Free();
      AbsWellFormed(ram[..], boot, spaces, owner);
      assert Copying(s, free, dst, src, 0);
      for t := 0 to 2
        invariant Copying(s, free, dst, src, 512 * t)
      {
        CopyTable(s, free, dst, src, t);
      }
      CopyStateDone(s, Abs(), dst, src, free);
    }

    /** The entries of one heap table. */
    method CopyTable(ghost s: Heaps, ghost free: nat, dst: nat, src: nat, t: nat)
      requires Copying(s, free, dst, src, 512 * t) && t < 2
      modifies ram, frameBitmap, `owner
      ensures Copying(s, free, dst, src, 512 * (t + 1))
    {
      for i := 0 to 512
        invariant Copying(s, free, dst, src, 512 * t + i)
      {
        CopyNext(s, free, dst, src, 512 * t + i);
      }
    }

    /** A copy that began in s with `free` frames has dealt with n pages. */
    ghost predicate Copying(s: Heaps, free: nat, dst: nat, src: nat, n: nat)
      reads this, ram, frameBitmap
    {
      && Valid() && dst < |spaces| && src < |spaces|
      && CopyState(s, Abs(), dst, src, free, n)
      && Free() == LeftOver(s.heaps[src], n, free)
    }

    method CopyNext(ghost s: Heaps, ghost free: nat, dst: nat, src: nat, k: nat)
      requires Copying(s, free, dst, src, k) && k < HEAP_PAGES
      modifies ram, frameBitmap, `owner
      ensures Copying(s, free, dst, src, k + 1)
    {
      ghost var u := Abs();
      CopyHeapPage(dst, src, k);
      SetSlotSame(u, dst, k);
      CopyStateStep(s, u, Abs(), dst, src, free, k);
    }

    /** The heap part of `fork_current`: a new space holding a copy of the parent's heap. The child has all that
        its parent had exactly when five frames are free and one more for every page to copy. */
    method Fork(parent: nat) returns (r: Option<Space>)
      requires Valid() && parent < |spaces|
      modifies ram, frameBitmap, `owner, `spaces
      ensures Valid() && WellFormed(old(Abs())) && |old(Abs()).heaps| == old(|spaces|)
      ensures r.Some? <==> old(Free()) >= 5
      ensures r.None? ==> spaces == old(spaces) && Abs() == old(Abs()) && Free() == 0
      ensures r.Some? ==> spaces == old(spaces) + [r.value] && Abs() == ForkWith(old(Abs()), parent, old(Free()) - 5)
                          && Free() == LeftOver(old(Abs()).heaps[parent], HEAP_PAGES, old(Free()) - 5)
      ensures r.Some? && Abs() == MemHeaps.Fork(old(Abs()), parent) <==>
              old(Free()) >= 5 + Needed(old(Abs()).heaps[parent], HEAP_PAGES)
    {
      AbsWellFormed(ram[..], boot, spaces, owner);
      r := AsCreate();
      if r.Some? {
        AsCopyHeap(|spaces| - 1, parent);
        ForkCompleteIff(old(Abs()), parent, old(Free()) - 5);
      }
    }

    /** Clears entry k of space i and returns a pool frame behind it to the pool. */
    method UnmapPage(i: nat, k: nat)
      requires Valid() && i < |spaces| && k < HEAP_PAGES
      modifies ram, frameBitmap, `owner
      ensures Valid() && Abs() == SetSlot(old(Abs()), i, k, Unmapped)
      ensures var e := HeapPte(old(ram[..]), boot, spaces[i], k);
              owner == if Present(e) && InPool(Pfn(e)) then old(owner) - {Pfn(e)} else old(owner)
    {
      TablePageRange(ram[..], boot, spaces, owner, i, k);
      UnmappedIff(ram[..], boot, spaces, owner, i, k);
      var e := HeapPte(ram[..], boot, spaces[i], k);
      assert SpaceOk(ram[..], boot, owner, spaces[i], i) && PteOk(owner, i, k, e);
      if !Present(e) {
        SetSlotSame(Abs(), i, k);
        return;
      }
      if Pfn(e) != SHM {
        FrameFree(Pfn(e));
      }
      WritePte(i, k, 0, if InPool(Pfn(e)) then owner - {Pfn(e)} else owner);
    }

    /** `fujo_munmap`: the pages of [addr, addr + len) disappear; requests outside the heap do nothing.
        The sum wraps at 2^64. */
    method Munmap(i: nat, addr: u64, len: u64)
      requires Valid() && i < |spaces|
      modifies ram, frameBitmap, `owner
      ensures Valid() && owner.Keys <= old(owner.Keys)
      ensures var end := (addr + len) % 0x1_0000_0000_0000_0000;
              Abs() == if addr % 4096 != 0 || addr < 0x80_0000 || end > 0xC0_0000 || end <= addr then old(Abs())
                       else Unmap(old(Abs()), i, (addr - 0x80_0000) / 4096, (end - 0x80_0000 + 4095) / 4096)
    {
      var end := (addr + len) % 0x1_0000_0000_0000_0000;
      if addr % 4096 != 0 || addr < HEAP_BASE || end > HEAP_BASE + HEAP_LEN {
        return;
      }
      if addr < end {
        UnmapPages(i, (addr - HEAP_BASE) / 4096, addr, end);
      }
    }

    /** The page loop of `fujo_munmap`, from page lo at va on. */
    method UnmapPages(i: nat, ghost lo: nat, addr: nat, end: nat)
      requires Valid() && i < |spaces|
      requires addr == HEAP_BASE + 4096 * lo && addr < end <= HEAP_BASE + HEAP_LEN
      modifies ram, frameBitmap, `owner
      ensures Valid() && owner.Keys <= old(owner.Keys)
      ensures Abs() == Unmap(old(Abs()), i, lo, (end - HEAP_BASE + 4095) / 4096)
    {
      AbsWellFormed(ram[..], boot, spaces, owner);
      UnmapNothing(Abs(), i, lo);
      var va := addr;
      ghost var k := lo;
      while va < end
        invariant va == HEAP_BASE + 4096 * k && lo <= k && va < end + 4096
        invariant Valid() && owner.Keys <= old(owner.Keys)
        invariant Abs() == Unmap(old(Abs()), i, lo, k)
      {
        assert (va - HEAP_BASE) / 4096 == k;
        UnmapPage(i, (va - HEAP_BASE) / 4096);
        UnmapStep(old(Abs()), i, lo, k);
        va := va + 4096;
        k := k + 1;
      }
    }

    /** A user store through the page tables (aligned 8-byte words). */
    method UserStore(i: nat, k: nat, w: nat, v: u64) returns (ok: bool)
      requires Valid() && i < |spaces| && k < HEAP_PAGES && w < 512
      modifies ram
      ensures Valid() && ok == (old(Abs()).heaps[i].slots[k] != Unmapped)
      ensures Abs() == Store(old(Abs()), i, k, w, v)
    {
      assert SpaceOk(ram[..], boot, owner, spaces[i], i);
      ghost var e := HeapPte(ram[..], boot, spaces[i], k);
      WalkHeap(ram[..], boot, owner, spaces[i], i, k, 8 * w);
      UnmappedIff(ram[..], boot, spaces, owner, i, k);
      var p := VirtToPhys(ram[..], RootPage(boot, spaces[i]), HEAP_BASE + k * 4096 + 8 * w);
      if p.None? {
        return false;
      }
      BackingIsData(ram[..], boot, spaces, owner, i, k);
      assert p.value / 4096 == Pfn(e) && (p.value % 4096) / 8 == w;
      ghost var page := Page(ram[Pfn(e)].words[w := v]);
      if Pfn(e) == SHM || Pfn(e) == BOX {
        PinnedUpdate(ram[..], boot, spaces, owner, Pfn(e), page);
      } else {
        FrameUpdate(ram[..], boot, spaces, owner, i, k, page);
      }
      PokeWord(p.value / 4096, (p.value % 4096) / 8, v);
      return true;
    }

    /** A user load through the page tables. */
    method UserLoad(i: nat, k: nat, w: nat) returns (r: Option<u64>)
      requires Valid() && i < |spaces| && k < HEAP_PAGES && w < 512
      ensures r == Load(Abs(), i, k, w)
    {
      assert SpaceOk(ram[..], boot, owner, spaces[i], i);
      ghost var e := HeapPte(ram[..], boot, spaces[i], k);
      WalkHeap(ram[..], boot, owner, spaces[i], i, k, 8 * w);
      UnmappedIff(ram[..], boot, spaces, owner, i, k);
      var p := VirtToPhys(ram[..], RootPage(boot, spaces[i]), HEAP_BASE + k * 4096 + 8 * w);
      if p.None? {
        return None;
      }
      BackingIsData(ram[..], boot, spaces, owner, i, k);
      assert p.value / 4096 == Pfn(e) && (p.value % 4096) / 8 == w;
      return Some(ram[p.value / 4096].words[(p.value % 4096) / 8]);
    }
  }
}
