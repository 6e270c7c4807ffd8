/** The boot stub's page tables and `demand_zero_init`: where both memory classes start. */
module MemBoot {
  import opened Bytes
  import opened MemLayout
  import opened MemSpaces
  import opened MemHeaps
  import opened MemIdentity
  import opened MemProofs

  /** The upper tables of `gen_stub32.py`. */
  const PML4 := 0x102
  const PDPT := 0x103
  const PD := 0x104
  const PT := 0x108
  const PD3 := 0x129
  const PT3 := 0x12A
  const PDPT1 := 0x12C
  const PD1 := 0x12D
  const PT1 := 0x12E
  /** Where the kernel image begins. */
  const IMAGE := 0x200

  predicate Upper(p: nat) {
    p == PML4 || p == PDPT || p == PD || p == PD3 || p == PDPT1 || p == PD1
  }

  /** The table that word j of upper table p links, a page table of 4 KiB pages or a table above one. */
  function StubTarget(p: nat, j: nat): (t: Option<nat>)
    ensures t.Some? ==> t.value < IMAGE
  {
    if p == PML4 then if j == 0 then Some(PDPT) else if j == 1 then Some(PDPT1) else None
    else if p == PDPT then if j == 0 then Some(PD) else if j == 3 then Some(PD3) else None
    else if p == PD && j < 32 then Some(PT + j)
    else if p == PD3 && 488 <= j < 490 then Some(PT3 + j - 488)
    else if p == PDPT1 && j == 0 then Some(PD1)
    else if p == PD1 && j < 5 then Some(PT1 + j)
    else None
  }

  /** After `demand_zero_init`, PD[4] and PD[5] name the heap tables. */
  function BootTarget(h0: nat, h1: nat, p: nat, j: nat): (t: Option<nat>)
    requires h0 < POOL && h1 < POOL
    ensures t.Some? ==> t.value < POOL
  {
    if p == PD && j == 4 then Some(h0) else if p == PD && j == 5 then Some(h1) else StubTarget(p, j)
  }

  function LinkTo(t: Option<nat>): u64
    requires t.Some? ==> t.value < POOL
  {
    if t.Some? then Pte(t.value, 7) else 0
  }

  /** The state before `demand_zero_init`: the stub's tables, and two empty heap tables in the kernel's image. */
  ghost predicate Stub(ram: Ram, h0: nat, h1: nat) {
    && (forall p: nat, j: nat | Upper(p) && j < 512 :: Word(ram, p, j) == LinkTo(StubTarget(p, j)))
    && HeapTables(h0, h1) && ram[h0] == ZeroPage() && ram[h1] == ZeroPage()
  }

  ghost predicate HeapTables(h0: nat, h1: nat) {
    IMAGE <= h0 < POOL && IMAGE <= h1 < POOL && h0 != h1 && LowPage(h0) && LowPage(h1)
  }

  /** There is such a state. */
  ghost function StubRam(): Ram {
    seq(0x8000, p requires 0 <= p < 0x8000 => Page(seq(512, j requires 0 <= j < 512 => LinkTo(StubTarget(p, j)))))
  }

  lemma StubRamIsStub(h0: nat, h1: nat)
    requires HeapTables(h0, h1)
    ensures Stub(StubRam(), h0, h1)
  {
    assert StubRam()[h0].words == ZeroPage().words && StubRam()[h1].words == ZeroPage().words;
  }

  /** The state after `demand_zero_init`, with the two shared pages pinned. */
  ghost predicate Booted(ram: Ram, h0: nat, h1: nat) {
    && HeapTables(h0, h1)
    && (forall p: nat, j: nat | Upper(p) && j < 512 :: Word(ram, p, j) == LinkTo(BootTarget(h0, h1, p, j)))
    && ram[h0] == ZeroPage() && ram[h1] == Page(ZeroPage().words[0 := Pte(SHM, 7)][16 := Pte(BOX, 7)])
  }

  /** The chain that `demand_zero_init` follows from CR3. */
  lemma StubChain(ram: Ram, h0: nat, h1: nat)
    requires Stub(ram, h0, h1)
    ensures Pfn(Word(ram, PML4, 0)) == PDPT && Pfn(Word(ram, PDPT, 0)) == PD
  {
    PteFields(PDPT, 7);
    PteFields(PD, 7);
  }

  /** The system's own heap is right at boot, with every frame of the pool free. */
  lemma BootInv(ram: Ram, h0: nat, h1: nat)
    requires Booted(ram, h0, h1)
    ensures Inv(ram, Boot(PML4, h0, h1), [Space(0, 0, 0)], map[])
    ensures AbsOf(ram, Boot(PML4, h0, h1), [Space(0, 0, 0)]) == Heaps([FreshHeap()], ram[SHM], ram[BOX])
  {
    var b, sp, spaces := Boot(PML4, h0, h1), Space(0, 0, 0), [Space(0, 0, 0)];
    PteFields(PDPT, 7);
    PteFields(PD, 7);
    PteFields(h0, 7);
    PteFields(h1, 7);
    PteFields(SHM, 7);
    PteFields(BOX, 7);
    assert TablesOk(ram, b, map[], sp, 0);
    assert forall k: nat | k < HEAP_PAGES ::
        HeapPte(ram, b, sp, k) == if k == 512 then Pte(SHM, 7) else if k == 528 then Pte(BOX, 7) else 0;
    assert SpaceOk(ram, b, map[], sp, 0);
    assert HeapOf(ram, b, sp).slots == FreshHeap().slots;
    assert AbsOf(ram, b, spaces).heaps == [FreshHeap()];
  }

  predicate BootTable(h0: nat, h1: nat, p: nat) {
    Upper(p) || p == h0 || p == h1 || PT <= p < PT + 32 || PT3 <= p < PT3 + 2 || PT1 <= p < PT1 + 5
  }

  /** Where each table of the boot state hangs. */
  function RoleAt(h0: nat, h1: nat, p: nat): Node {
    if p == PML4 then Root
    else if p == PDPT then Pdpt(0)
    else if p == PDPT1 then Pdpt(1)
    else if p == PD then Pd(0, 0)
    else if p == PD3 then Pd(0, 3)
    else if p == PD1 then Pd(1, 0)
    else if p == h0 then Pt(0, 0, 4)
    else if p == h1 then Pt(0, 0, 5)
    else if PT3 <= p < PT3 + 2 then Pt(0, 3, 488 + p - PT3)
    else if PT1 <= p < PT1 + 5 then Pt(1, 0, p - PT1)
    else Pt(0, 0, if p >= PT then p - PT else 0)
  }

  ghost function BootRoles(h0: nat, h1: nat): map<nat, Node> {
    map p: nat | p < POOL && BootTable(h0, h1, p) :: RoleAt(h0, h1, p)
  }

  lemma TargetRole(h0: nat, h1: nat, p: nat, j: nat)
    requires HeapTables(h0, h1) && Upper(p) && j < 512 && BootTarget(h0, h1, p, j).Some?
    ensures var t := BootTarget(h0, h1, p, j).value;
            BootTable(h0, h1, t) && RoleAt(h0, h1, t) == Child(RoleAt(h0, h1, p), j)
  {
  }

  lemma BootWord(ram: Ram, h0: nat, h1: nat, p: nat, j: nat)
    requires Booted(ram, h0, h1) && Upper(p) && j < 512
    ensures var t, w := BootTarget(h0, h1, p, j), Word(ram, p, j);
            && (Present(w) <==> t.Some?) && !Large(w) && (t.Some? ==> Pfn(w) == t.value)
  {
    if BootTarget(h0, h1, p, j).Some? {
      PteFields(BootTarget(h0, h1, p, j).value, 7);
    }
  }

  lemma BootLink(ram: Ram, h0: nat, h1: nat, p: nat, j: nat)
    requires Booted(ram, h0, h1) && BootTable(h0, h1, p) && p < POOL && j < 512
    ensures LinkOk(ram, BootRoles(h0, h1), p, j)
  {
    if Upper(p) {
      BootWord(ram, h0, h1, p, j);
      if BootTarget(h0, h1, p, j).Some? {
        TargetRole(h0, h1, p, j);
      }
    }
  }

  /** The boot tables form a tree, and none of them lies in the pool. */
  lemma BootTree(ram: Ram, h0: nat, h1: nat)
    requires Booted(ram, h0, h1)
    ensures Tree(ram, PML4, BootRoles(h0, h1))
  {
    forall p, a: nat | p in BootRoles(h0, h1) && a < 512
      ensures LinkOk(ram, BootRoles(h0, h1), p, a)
    {
      BootLink(ram, h0, h1, p, a);
    }
  }

  /** No large page is in the boot tables. */
  lemma BootSmall(ram: Ram, h0: nat, h1: nat, va: u64)
    requires Booted(ram, h0, h1)
    ensures SmallPath(ram, PML4, va)
  {
    BootWord(ram, h0, h1, PML4, Index4(va));
    var t := BootTarget(h0, h1, PML4, Index4(va));
    if t.Some? {
      BootWord(ram, h0, h1, t.value, Index3(va));
      var u := BootTarget(h0, h1, t.value, Index3(va));
      if u.Some? {
        BootWord(ram, h0, h1, u.value, Index2(va));
      }
    }
  }

  lemma NothingMarked(bm: seq<byte>)
    requires |bm| == BITMAP_LEN && forall i | 0 <= i < |bm| :: bm[i] == 0
    ensures forall f: nat | f < FRAME_PAGES :: !BitAt(bm, f)
  {
    forall f: nat | f < FRAME_PAGES
      ensures !BitAt(bm, f)
    {
      ZeroBits(f % 8);
    }
  }

  lemma {:induction false} ZeroBits(k: nat)
    ensures !TestBit(0, k)
  {
    if k > 0 {
      ZeroBits(k - 1);
    }
  }

  /** At first the whole pool is free. */
  lemma WholePool()
    ensures |FreeSet(map[])| == FRAME_PAGES
  {
    PoolSize(FRAME_PAGES);
    assert FreeSet(map[]) == set p: nat | p < POOL + FRAME_PAGES && InPool(p);
  }

  lemma {:induction false} PoolSize(n: nat)
    requires n <= FRAME_PAGES
    ensures |set p: nat | p < POOL + n && InPool(p)| == n
  {
    if n > 0 {
      PoolSize(n - 1);
      assert (set p: nat | p < POOL + n && InPool(p)) == (set p: nat | p < POOL + (n - 1) && InPool(p)) + {POOL + n - 1};
    } else {
      assert (set p: nat | p < POOL + n && InPool(p)) == {};
    }
  }
}
