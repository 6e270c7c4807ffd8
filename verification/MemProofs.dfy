/** How single changes of page-table words and frames look from the heaps they implement. */
module MemProofs {
  import opened Bytes
  import opened MemLayout
  import opened MemSpaces
  import opened MemHeaps

  /** A frame nobody maps can change without any heap noticing. */
  lemma UnmappedFrameUpdate(ram: Ram, ram': Ram, b: Boot, spaces: seq<Space>, owner: map<nat, Role>, p: nat)
    requires Inv(ram, b, spaces, owner) && InPool(p) && SameBut(ram, ram', p)
    requires p !in owner || owner[p] == Kernel
    ensures Inv(ram', b, spaces, owner)
    ensures AbsOf(ram', b, spaces) == AbsOf(ram, b, spaces)
  {
    DataUpdate(ram, ram', b, spaces, owner, p);
    forall i: nat, k: nat | i < |spaces| && k < HEAP_PAGES
      ensures SlotAt(ram', b, spaces[i], k) == SlotAt(ram, b, spaces[i], k)
    {
      assert SpaceOk(ram, b, owner, spaces[i], i);
      assert PteOk(owner, i, k, HeapPte(ram, b, spaces[i], k));
    }
    SlotsDetermine(ram, ram', b, spaces);
  }

  lemma UnmappedFramesUpdate(ram: Ram, ram': Ram, b: Boot, spaces: seq<Space>, owner: map<nat, Role>, ps: seq<nat>)
    requires Inv(ram, b, spaces, owner)
    requires forall p | p in ps :: InPool(p) && p in owner && owner[p] == Kernel
    requires forall q: nat | q < RAM_PAGES && q !in ps :: ram'[q] == ram[q]
    ensures Inv(ram', b, spaces, owner)
    ensures AbsOf(ram', b, spaces) == AbsOf(ram, b, spaces)
    decreases |ps|
  {
    if ps == [] {
      assert ram' == ram;
    } else {
      assert ps[0] in ps;
      var mid := ram[ps[0] := ram'[ps[0]]];
      UnmappedFrameUpdate(ram, mid, b, spaces, owner, ps[0]);
      UnmappedFramesUpdate(mid, ram', b, spaces, owner, ps[1..]);
    }
  }

  lemma SlotsDetermine(ram: Ram, ram': Ram, b: Boot, spaces: seq<Space>)
    requires ram'[SHM] == ram[SHM] && ram'[BOX] == ram[BOX]
    requires forall i: nat, k: nat | i < |spaces| && k < HEAP_PAGES ::
               SlotAt(ram', b, spaces[i], k) == SlotAt(ram, b, spaces[i], k)
    ensures AbsOf(ram', b, spaces) == AbsOf(ram, b, spaces)
  {
    forall i | 0 <= i < |spaces|
      ensures HeapOf(ram', b, spaces[i]) == HeapOf(ram, b, spaces[i])
    {
      assert HeapOf(ram', b, spaces[i]).slots == HeapOf(ram, b, spaces[i]).slots;
    }
  }

  /** Giving a frame without heap entries another owner is invisible. */
  lemma KernelFrame(ram: Ram, b: Boot, spaces: seq<Space>, owner: map<nat, Role>, p: nat)
    requires Inv(ram, b, spaces, owner) && InPool(p) && p !in owner
    ensures Inv(ram, b, spaces, owner[p := Kernel])
  {
    forall i: nat | i < |spaces|
      ensures SpaceOk(ram, b, owner[p := Kernel], spaces[i], i)
    {
      assert SpaceOk(ram, b, owner, spaces[i], i);
      forall k: nat | k < HEAP_PAGES
        ensures PteOk(owner[p := Kernel], i, k, HeapPte(ram, b, spaces[i], k))
      {
        assert PteOk(owner, i, k, HeapPte(ram, b, spaces[i], k));
      }
    }
  }

  lemma AbsSet(ram: Ram, ram': Ram, b: Boot, spaces: seq<Space>, i: nat, k: nat, v: Slot)
    requires ram'[SHM] == ram[SHM] && ram'[BOX] == ram[BOX] && i < |spaces| && k < HEAP_PAGES
    requires forall j: nat, l: nat | j < |spaces| && l < HEAP_PAGES ::
               SlotAt(ram', b, spaces[j], l) == if j == i && l == k then v else SlotAt(ram, b, spaces[j], l)
    ensures AbsOf(ram', b, spaces) == SetSlot(AbsOf(ram, b, spaces), i, k, v)
  {
    var s', t := AbsOf(ram', b, spaces), SetSlot(AbsOf(ram, b, spaces), i, k, v);
    forall j | 0 <= j < |spaces|
      ensures s'.heaps[j] == t.heaps[j]
    {
      assert s'.heaps[j].slots == t.heaps[j].slots;
    }
    assert s'.heaps == t.heaps;
  }

  /** One heap entry changes: exactly one slot of one heap changes with it. */
  lemma SlotUpdate(ram: Ram, ram': Ram, b: Boot, spaces: seq<Space>, owner: map<nat, Role>, owner': map<nat, Role>,
                   i: nat, k: nat, e: u64)
    requires Inv(ram, b, spaces, owner) && i < |spaces| && k < HEAP_PAGES
    requires OwnersKept(owner, owner', i, k) && PteOk(owner', i, k, e)
    requires TablePage(b, spaces[i], k) < RAM_PAGES
    requires ram' == Poke(ram, TablePage(b, spaces[i], k), k % 512, e)
    ensures Inv(ram', b, spaces, owner')
    ensures AbsOf(ram', b, spaces) == SetSlot(AbsOf(ram, b, spaces), i, k, SlotOf(ram, e))
  {
    PteUpdate(ram, ram', b, spaces, owner, owner', i, k, e);
    TablePageRange(ram, b, spaces, owner, i, k);
    TablePageRange(ram', b, spaces, owner', i, k);
    forall j: nat, l: nat | j < |spaces| && l < HEAP_PAGES
      ensures SlotAt(ram', b, spaces[j], l)
           == if j == i && l == k then SlotOf(ram, e) else SlotAt(ram, b, spaces[j], l)
    {
      if Present(HeapPte(ram', b, spaces[j], l)) { BackingIsData(ram', b, spaces, owner', j, l); }
    }
    AbsSet(ram, ram', b, spaces, i, k, SlotOf(ram, e));
  }

  /** The frame behind a private page changes: exactly that slot changes. */
  lemma FrameUpdate(ram: Ram, b: Boot, spaces: seq<Space>, owner: map<nat, Role>, i: nat, k: nat, page: Page)
    requires Inv(ram, b, spaces, owner) && i < |spaces| && k < HEAP_PAGES
    requires SlotAt(ram, b, spaces[i], k).Private?
    ensures var ram' := ram[Pfn(HeapPte(ram, b, spaces[i], k)) := page];
            && Inv(ram', b, spaces, owner)
            && AbsOf(ram', b, spaces) == SetSlot(AbsOf(ram, b, spaces), i, k, Private(page))
  {
    var p := Pfn(HeapPte(ram, b, spaces[i], k));
    var ram' := ram[p := page];
    BackingIsData(ram, b, spaces, owner, i, k);
    DataUpdate(ram, ram', b, spaces, owner, p);
    forall j: nat, l: nat | j < |spaces| && l < HEAP_PAGES
      ensures SlotAt(ram', b, spaces[j], l) == if j == i && l == k then Private(page) else SlotAt(ram, b, spaces[j], l)
    {
      FramesExclusive(ram, b, spaces, owner, i, k, j, l);
    }
    AbsSet(ram, ram', b, spaces, i, k, Private(page));
  }

  /** A pinned page changes: only the shared component of the machine changes. */
  lemma PinnedUpdate(ram: Ram, b: Boot, spaces: seq<Space>, owner: map<nat, Role>, p: nat, page: Page)
    requires Inv(ram, b, spaces, owner) && (p == SHM || p == BOX)
    ensures Inv(ram[p := page], b, spaces, owner)
    ensures AbsOf(ram[p := page], b, spaces)
         == if p == SHM then AbsOf(ram, b, spaces).(shm := page) else AbsOf(ram, b, spaces).(box := page)
  {
    var ram' := ram[p := page];
    DataUpdate(ram, ram', b, spaces, owner, p);
    forall i | 0 <= i < |spaces|
      ensures HeapOf(ram', b, spaces[i]) == HeapOf(ram, b, spaces[i])
    {
      assert HeapOf(ram', b, spaces[i]).slots == HeapOf(ram, b, spaces[i]).slots;
    }
    assert AbsOf(ram', b, spaces).heaps == AbsOf(ram, b, spaces).heaps;
  }

  /** The heaps that the tables implement are well formed. */
  lemma AbsWellFormed(ram: Ram, b: Boot, spaces: seq<Space>, owner: map<nat, Role>)
    requires Inv(ram, b, spaces, owner)
    ensures WellFormed(AbsOf(ram, b, spaces)) && |AbsOf(ram, b, spaces).heaps| == |spaces|
  {
    forall i: nat, k: nat | i < |spaces| && k < HEAP_PAGES
      ensures PteOk(owner, i, k, HeapPte(ram, b, spaces[i], k))
    {
      assert SpaceOk(ram, b, owner, spaces[i], i);
    }
  }

  lemma UnmappedIff(ram: Ram, b: Boot, spaces: seq<Space>, owner: map<nat, Role>, i: nat, k: nat)
    requires Inv(ram, b, spaces, owner) && i < |spaces| && k < HEAP_PAGES
    ensures Present(HeapPte(ram, b, spaces[i], k)) <==> AbsOf(ram, b, spaces).heaps[i].slots[k] != Unmapped
  {
    assert SpaceOk(ram, b, owner, spaces[i], i);
    assert PteOk(owner, i, k, HeapPte(ram, b, spaces[i], k));
  }

  /** The five frames of `as_create` become a space of their own. */
  lemma AddSpace(ram: Ram, b: Boot, spaces: seq<Space>, owner: map<nat, Role>, sp: Space, pdpt: nat, pd: nat)
    requires Inv(ram, b, spaces, owner) && FreshSpace(ram, sp, pdpt, pd)
    requires FiveFrames(sp.cr3, pdpt, pd, sp.heap0, sp.heap1)
    requires forall p | p in [sp.cr3, pdpt, pd, sp.heap0, sp.heap1] :: p in owner && owner[p] == Kernel
    ensures Inv(ram, b, spaces + [sp], NewOwners(owner, |spaces|, sp, pdpt, pd))
    ensures AbsOf(ram, b, spaces + [sp]) == Spawn(AbsOf(ram, b, spaces))
  {
    var n, owner' := |spaces|, NewOwners(owner, |spaces|, sp, pdpt, pd);
    NewSpaceOk(ram, b, owner, n, sp, pdpt, pd);
    forall j: nat | j < n
      ensures SpaceOk(ram, b, owner', spaces[j], j)
    {
      OwnersStep(ram, b, owner, owner', n, 0, spaces[j], j);
    }
    forall k | 0 <= k < HEAP_PAGES
      ensures HeapOf(ram, b, sp).slots[k] == FreshHeap().slots[k]
    {
      PteFields(SHM, 7);
      PteFields(BOX, 7);
    }
    assert HeapOf(ram, b, sp).slots == FreshHeap().slots;
    assert AbsOf(ram, b, spaces + [sp]).heaps == AbsOf(ram, b, spaces).heaps + [HeapOf(ram, b, sp)];
  }

  /** The three tables that `as_create` copies from the boot chain, with the private links in place. */
  ghost predicate Copied(ram: Ram, root: nat, sp: Space, pdpt: nat, pd: nat) {
    var bootPdpt := Pfn(Word(ram, root, 0));
    var bootPd := Pfn(Word(ram, bootPdpt, 0));
    && root < RAM_PAGES && bootPdpt < RAM_PAGES && bootPd < RAM_PAGES
    && sp.cr3 < RAM_PAGES && pdpt < RAM_PAGES && pd < RAM_PAGES && sp.heap0 < RAM_PAGES && sp.heap1 < RAM_PAGES
    && ram[sp.cr3].words == ram[root].words[0 := Pte(pdpt, 7)]
    && ram[pdpt].words == ram[bootPdpt].words[0 := Pte(pd, 7)]
    && ram[pd].words == ram[bootPd].words[4 := Pte(sp.heap0, 7)][5 := Pte(sp.heap1, 7)]
  }

  /** The boot chain lies below the pool, so it is the same after the frames of a new space are filled. */
  lemma BootKept(start: Ram, ram: Ram, root: nat, sp: Space, pdpt: nat, pd: nat)
    requires var bpp := Pfn(Word(start, root, 0));
             var bpd := Pfn(Word(start, bpp, 0));
             && root < POOL && bpp < POOL && bpd < POOL
             && InPool(sp.cr3) && InPool(pdpt) && InPool(pd) && InPool(sp.heap0) && InPool(sp.heap1)
             && ram[sp.cr3].words == start[root].words[0 := Pte(pdpt, 7)]
             && ram[pdpt].words == start[bpp].words[0 := Pte(pd, 7)]
             && ram[pd].words == start[bpd].words[4 := Pte(sp.heap0, 7)][5 := Pte(sp.heap1, 7)]
    requires forall q: nat | q < POOL :: ram[q] == start[q]
    ensures Copied(ram, root, sp, pdpt, pd)
  {
  }

  /** Three base-512 digits are (0, 0, d) exactly when the number is d modulo 512 cubed. */
  lemma LowDigits(n: nat)
    ensures n % 512 + 512 * ((n / 512) % 512) + 0x4_0000 * ((n / 512 / 512) % 512) == n % 0x800_0000
  {
    var q := n / 512;
    var p := q / 512;
    var o := p / 512;
    assert n == 512 * q + n % 512 && q == 512 * p + q % 512 && p == 512 * o + p % 512;
    assert n == 0x800_0000 * o + (0x4_0000 * (p % 512) + 512 * (q % 512) + n % 512);
  }

  lemma LowPages(t: nat, q: nat, r: nat)
    requires q < 0x800_0000 && r < 0x20_0000
    ensures ((0x1_0000_0000_0000 * t + 0x20_0000 * q + r) / 0x20_0000) % 0x800_0000 == q
  {
    assert 0x1_0000_0000_0000 * t + 0x20_0000 * q + r == 0x20_0000 * (0x800_0000 * t + q) + r;
    assert (0x20_0000 * (0x800_0000 * t + q) + r) / 0x20_0000 == 0x800_0000 * t + q;
  }

  /** The walk looks at the low 48 bits; the window is what PD[4] and PD[5] of the first chain cover. */
  lemma WindowIndices(va: u64)
    ensures Index4(va) == 0 && Index3(va) == 0 && (Index2(va) == 4 || Index2(va) == 5) <==>
            HEAP_BASE <= va % VA_SPAN < HEAP_BASE + HEAP_LEN
  {
    var n := va / 4096;
    IndexValues(va);
    LowDigits(n / 512);
    var x := va % VA_SPAN;
    LowPages(va / VA_SPAN, x / 0x20_0000, x % 0x20_0000);
    assert n / 512 == va / 0x20_0000;
    assert HEAP_BASE <= x < HEAP_BASE + HEAP_LEN <==> 4 <= x / 0x20_0000 < 6;
  }

  /** Outside its heap window a new space translates every address as the boot tables do. */
  lemma KernelMapShared(ram: Ram, b: Boot, sp: Space, pdpt: nat, pd: nat, va: u64)
    requires Copied(ram, b.cr3, sp, pdpt, pd) && Chain(ram, b.cr3, b.heap0, b.heap1)
    requires !(HEAP_BASE <= va % VA_SPAN < HEAP_BASE + HEAP_LEN)
    ensures VirtToPhys(ram, sp.cr3, va) == VirtToPhys(ram, b.cr3, va)
  {
    PteFields(pdpt, 7);
    PteFields(pd, 7);
    WindowIndices(va);
    assert Word(ram, sp.cr3, 0) == Pte(pdpt, 7) && Word(ram, pdpt, 0) == Pte(pd, 7);
    if Index4(va) == 0 {
      if Index3(va) == 0 {
        assert Word(ram, pd, Index2(va)) == Word(ram, Pfn(Word(ram, Pfn(Word(ram, b.cr3, 0)), 0)), Index2(va));
      } else {
        assert Word(ram, pdpt, Index3(va)) == Word(ram, Pfn(Word(ram, b.cr3, 0)), Index3(va));
      }
    } else {
      assert Word(ram, sp.cr3, Index4(va)) == Word(ram, b.cr3, Index4(va));
    }
  }

  lemma SetSlotSame(s: Heaps, i: nat, k: nat)
    requires i < |s.heaps| && k < |s.heaps[i].slots|
    ensures SetSlot(s, i, k, s.heaps[i].slots[k]) == s
  {
    assert s.heaps[i].slots[k := s.heaps[i].slots[k]] == s.heaps[i].slots;
    assert s.heaps[i := Heap(s.heaps[i].slots)] == s.heaps;
  }

  /** Copying src to dst with `free` frames at first turned s into t and has dealt with n pages. */
  ghost predicate CopyState(s: Heaps, t: Heaps, dst: nat, src: nat, free: nat, n: nat) {
    && dst < |s.heaps| && src < |s.heaps| && |t.heaps| == |s.heaps| && n <= HEAP_PAGES
    && |s.heaps[dst].slots| == |s.heaps[src].slots| == |t.heaps[dst].slots| == HEAP_PAGES
    && t == s.(heaps := s.heaps[dst := t.heaps[dst]])
    && (forall k | 0 <= k < n :: t.heaps[dst].slots[k] == CopiedSlot(s, dst, src, free, k))
    && forall k | n <= k < HEAP_PAGES :: t.heaps[dst].slots[k] == s.heaps[dst].slots[k]
  }

  /** The frames left of `free` after the first n pages. */
  ghost function LeftOver(h: Heap, n: nat, free: nat): nat
    requires n <= |h.slots|
  {
    if Needed(h, n) <= free then free - Needed(h, n) else 0
  }

  lemma CopyStateStep(s: Heaps, t: Heaps, u: Heaps, dst: nat, src: nat, free: nat, k: nat)
    requires CopyState(s, t, dst, src, free, k) && k < HEAP_PAGES
    requires u == SetSlot(t, dst, k, CopiedSlot(s, dst, src, free, k))
    ensures CopyState(s, u, dst, src, free, k + 1)
  {
    assert u.heaps == s.heaps[dst := u.heaps[dst]];
  }

  lemma CopyStateDone(s: Heaps, t: Heaps, dst: nat, src: nat, free: nat)
    requires CopyState(s, t, dst, src, free, HEAP_PAGES)
    ensures t == CopyWith(s, dst, src, free)
    ensures dst != src && NoPrivate(s, dst) ==>
              (t == CopyHeap(s, dst, src) <==> Needed(s.heaps[src], HEAP_PAGES) <= free)
  {
    assert t.heaps[dst].slots == CopyWith(s, dst, src, free).heaps[dst].slots;
    if dst != src && NoPrivate(s, dst) {
      CopyCompleteIff(s, dst, src, free);
    }
  }

  /** The frames of the pool that nobody holds. */
  ghost function FreeSet(owner: map<nat, Role>): set<nat> {
    set p: nat | POOL <= p < RAM_PAGES && p !in owner
  }

  /** Frames that change hands are no more and no less. */
  lemma SameFree(owner: map<nat, Role>, owner': map<nat, Role>)
    requires owner.Keys == owner'.Keys
    ensures FreeSet(owner') == FreeSet(owner)
  {
  }

  lemma OneLessFree(owner: map<nat, Role>, p: nat, r: Role)
    requires InPool(p) && p !in owner
    ensures |FreeSet(owner)| > 0 && |FreeSet(owner[p := r])| == |FreeSet(owner)| - 1
  {
    assert FreeSet(owner) == FreeSet(owner[p := r]) + {p};
  }

  lemma NoneFreeIff(owner: map<nat, Role>)
    ensures |FreeSet(owner)| == 0 <==> forall p: nat | InPool(p) :: p in owner
  {
    if p: nat :| InPool(p) && p !in owner {
      assert p in FreeSet(owner);
    }
    if |FreeSet(owner)| > 0 {
      var p :| p in FreeSet(owner);
      assert InPool(p);
    }
  }

  lemma UnmapNothing(s: Heaps, i: nat, lo: nat)
    requires i < |s.heaps| && |s.heaps[i].slots| == HEAP_PAGES
    ensures Unmap(s, i, lo, lo) == s
  {
    assert Unmap(s, i, lo, lo).heaps[i].slots == s.heaps[i].slots;
    assert Unmap(s, i, lo, lo).heaps == s.heaps;
  }

  lemma UnmapStep(s: Heaps, i: nat, lo: nat, k: nat)
    requires i < |s.heaps| && |s.heaps[i].slots| == HEAP_PAGES && lo <= k < HEAP_PAGES
    ensures SetSlot(Unmap(s, i, lo, k), i, k, Unmapped) == Unmap(s, i, lo, k + 1)
  {
    var t, u := SetSlot(Unmap(s, i, lo, k), i, k, Unmapped), Unmap(s, i, lo, k + 1);
    assert t.heaps[i].slots == u.heaps[i].slots;
    assert t.heaps == u.heaps;
  }
}
