/** Address spaces on values: private heaps, frames with one owner, and what changing a word or a frame does. */
module MemSpaces {
  import opened Bytes
  import opened MemLayout

  /** As kept in the task table: page numbers, 0 for the system's own tables. */
  datatype Space = Space(cr3: nat, heap0: nat, heap1: nat)

  /** The boot page tables and the two static heap tables inside the kernel image. */
  datatype Boot = Boot(cr3: nat, heap0: nat, heap1: nat)

  /** What a frame of the pool is used for. */
  datatype Role = Table(space: nat, level: nat) | HeapPage(space: nat, page: nat) | Kernel

  datatype Slot = Unmapped | Shared | Boxed | Private(page: Page)

  function RootPage(b: Boot, sp: Space): nat {
    if sp.cr3 == 0 then b.cr3 else sp.cr3
  }

  /** `heap_table`: the table that holds the entry of heap page k. */
  function TablePage(b: Boot, sp: Space, k: nat): nat {
    if k < 512 then if sp.heap0 == 0 then b.heap0 else sp.heap0
    else if sp.heap1 == 0 then b.heap1 else sp.heap1
  }

  function HeapPte(ram: Ram, b: Boot, sp: Space, k: nat): u64 {
    Word(ram, TablePage(b, sp, k), k % 512)
  }

  function SlotOf(ram: Ram, e: u64): Slot {
    if !Present(e) then Unmapped
    else if Pfn(e) == SHM then Shared
    else if Pfn(e) == BOX then Boxed
    else if Pfn(e) < RAM_PAGES then Private(ram[Pfn(e)])
    else Unmapped
  }

  function SlotAt(ram: Ram, b: Boot, sp: Space, k: nat): Slot {
    SlotOf(ram, HeapPte(ram, b, sp, k))
  }

  // ---- the invariant ----

  predicate InPool(p: nat) {
    POOL <= p < RAM_PAGES
  }

  /** Pages that never hold a page table of the heap part: free or data frames, and the pinned pages. */
  ghost predicate DataPage(owner: map<nat, Role>, p: nat) {
    p == SHM || p == BOX || (InPool(p) && (p !in owner || !owner[p].Table?))
  }

  ghost predicate LowPage(p: nat) {
    p < POOL && p != SHM && p != BOX
  }

  /** PML4[0] -> PDPT[0] -> PD[4], PD[5] lead to the two heap tables. */
  ghost predicate Chain(ram: Ram, root: nat, t0: nat, t1: nat) {
    var e4 := Word(ram, root, 0);
    var e3 := Word(ram, Pfn(e4), 0);
    var e24, e25 := Word(ram, Pfn(e3), 4), Word(ram, Pfn(e3), 5);
    && Present(e4) && Present(e3) && !Large(e3)
    && Present(e24) && !Large(e24) && Pfn(e24) == t0
    && Present(e25) && !Large(e25) && Pfn(e25) == t1
  }

  /** A page of the table tree of space i. */
  ghost predicate IsTable(owner: map<nat, Role>, i: nat, level: nat, p: nat) {
    if i == 0 then LowPage(p) else InPool(p) && p in owner && owner[p] == Table(i, level)
  }

  ghost predicate TablesOk(ram: Ram, b: Boot, owner: map<nat, Role>, sp: Space, i: nat) {
    var root := RootPage(b, sp);
    var pdpt := Pfn(Word(ram, root, 0));
    && (i == 0 <==> sp == Space(0, 0, 0)) && (i > 0 ==> sp.cr3 != 0 && sp.heap0 != 0 && sp.heap1 != 0)
    && TablePage(b, sp, 0) != TablePage(b, sp, 512)
    && Chain(ram, root, TablePage(b, sp, 0), TablePage(b, sp, 512))
    && IsTable(owner, i, 0, root) && IsTable(owner, i, 1, pdpt) && IsTable(owner, i, 2, Pfn(Word(ram, pdpt, 0)))
    && IsTable(owner, i, 3, TablePage(b, sp, 0)) && IsTable(owner, i, 4, TablePage(b, sp, 512))
    && root != TablePage(b, sp, 0) && root != TablePage(b, sp, 512)
    && pdpt != TablePage(b, sp, 0) && pdpt != TablePage(b, sp, 512)
    && Pfn(Word(ram, pdpt, 0)) != TablePage(b, sp, 0) && Pfn(Word(ram, pdpt, 0)) != TablePage(b, sp, 512)
  }

  /** A heap entry is absent, or a present, writable user entry that pins a shared page at its own address or names a
      frame that belongs to it alone. */
  ghost predicate PteOk(owner: map<nat, Role>, i: nat, k: nat, e: u64) {
    Present(e) ==> e == Pfn(e) * 4096 + 7 && PageOk(owner, i, k, e)
  }

  ghost predicate PageOk(owner: map<nat, Role>, i: nat, k: nat, e: u64) {
    || (Pfn(e) == SHM && k == 512) || (Pfn(e) == BOX && k == 528)
    || (InPool(Pfn(e)) && Pfn(e) in owner && owner[Pfn(e)] == HeapPage(i, k))
  }

  ghost predicate SpaceOk(ram: Ram, b: Boot, owner: map<nat, Role>, sp: Space, i: nat) {
    && TablesOk(ram, b, owner, sp, i)
    && forall k: nat | k < HEAP_PAGES :: PteOk(owner, i, k, HeapPte(ram, b, sp, k))
  }

  ghost predicate Inv(ram: Ram, b: Boot, spaces: seq<Space>, owner: map<nat, Role>) {
    && |spaces| > 0
    && (forall p | p in owner :: InPool(p))
    && forall i: nat | i < |spaces| :: SpaceOk(ram, b, owner, spaces[i], i)
  }

  /** Every entry of every heap, however it came about, is present for users and writable, with no other flag. */
  lemma UserEntries(ram: Ram, b: Boot, spaces: seq<Space>, owner: map<nat, Role>, i: nat, k: nat)
    requires Inv(ram, b, spaces, owner) && i < |spaces| && k < HEAP_PAGES
    ensures var e := HeapPte(ram, b, spaces[i], k); e % 2 == 1 ==> e % 4096 == 7
  {
    assert SpaceOk(ram, b, owner, spaces[i], i);
    assert PteOk(owner, i, k, HeapPte(ram, b, spaces[i], k));
  }

  /** No pool frame sits in two heap entries, and none that sits in one is marked free. */
  lemma FramesExclusive(ram: Ram, b: Boot, spaces: seq<Space>, owner: map<nat, Role>,
                        i: nat, k: nat, j: nat, l: nat)
    requires Inv(ram, b, spaces, owner) && i < |spaces| && j < |spaces| && k < HEAP_PAGES && l < HEAP_PAGES
    requires var e := HeapPte(ram, b, spaces[i], k); Present(e) && InPool(Pfn(e))
    ensures Pfn(HeapPte(ram, b, spaces[i], k)) in owner
    ensures var f := HeapPte(ram, b, spaces[j], l);
            Present(f) && Pfn(f) == Pfn(HeapPte(ram, b, spaces[i], k)) ==> i == j && k == l
  {
    assert SpaceOk(ram, b, owner, spaces[i], i) && SpaceOk(ram, b, owner, spaces[j], j);
    assert PteOk(owner, i, k, HeapPte(ram, b, spaces[i], k));
    assert PteOk(owner, j, l, HeapPte(ram, b, spaces[j], l));
  }

  lemma HeapIndices(va: u64, k: nat, off: nat)
    requires va == HEAP_BASE + k * 4096 + off && k < HEAP_PAGES && off < 4096
    ensures Index4(va) == 0 && Index3(va) == 0 && Index2(va) == 4 + k / 512 && Index1(va) == k % 512
    ensures va % 4096 == off
  {
    assert va / 4096 == 2048 + k;
    IndexValues(va);
    assert (2048 + k) % 512 == k % 512 && (2048 + k) / 512 == 4 + k / 512;
  }

  /** The hardware walk of a heap address ends in the entry that `heap_table` finds. */
  lemma WalkHeap(ram: Ram, b: Boot, owner: map<nat, Role>, sp: Space, i: nat, k: nat, off: nat)
    requires SpaceOk(ram, b, owner, sp, i) && k < HEAP_PAGES && off < 4096
    ensures var e := HeapPte(ram, b, sp, k);
            VirtToPhys(ram, RootPage(b, sp), 0x80_0000 + k * 4096 + off)
            == if Present(e) then Some(Pfn(e) * 4096 + off) else None
  {
    HeapIndices(HEAP_BASE + k * 4096 + off, k, off);
    assert TablePage(b, sp, k) == TablePage(b, sp, if k < 512 then 0 else 512);
  }

  // ---- frames: a page that is no table changes ----

  ghost predicate SameBut(ram: Ram, ram': Ram, p: nat) {
    forall q: nat | q < RAM_PAGES && q != p :: ram'[q] == ram[q]
  }

  /** Changing a data page leaves every table as it was; only slots backed by that page see it. */
  lemma DataUpdate(ram: Ram, ram': Ram, b: Boot, spaces: seq<Space>, owner: map<nat, Role>, p: nat)
    requires Inv(ram, b, spaces, owner) && DataPage(owner, p) && SameBut(ram, ram', p)
    ensures Inv(ram', b, spaces, owner)
    ensures forall i: nat, k: nat | i < |spaces| && k < HEAP_PAGES ::
              HeapPte(ram', b, spaces[i], k) == HeapPte(ram, b, spaces[i], k)
  {
    forall i: nat | i < |spaces|
      ensures SpaceOk(ram', b, owner, spaces[i], i)
      ensures forall k: nat | k < HEAP_PAGES :: HeapPte(ram', b, spaces[i], k) == HeapPte(ram, b, spaces[i], k)
    {
      TablesSame(ram, ram', b, owner, spaces[i], i, p);
    }
  }

  lemma TablesSame(ram: Ram, ram': Ram, b: Boot, owner: map<nat, Role>, sp: Space, i: nat, p: nat)
    requires SpaceOk(ram, b, owner, sp, i) && SameBut(ram, ram', p)
    requires forall level: nat | level < 5 :: !IsTable(owner, i, level, p)
    ensures SpaceOk(ram', b, owner, sp, i)
    ensures forall k: nat | k < HEAP_PAGES :: HeapPte(ram', b, sp, k) == HeapPte(ram, b, sp, k)
  {
    assert !IsTable(owner, i, 0, p) && !IsTable(owner, i, 1, p) && !IsTable(owner, i, 2, p);
    assert !IsTable(owner, i, 3, p) && !IsTable(owner, i, 4, p);
    assert forall k: nat | k < 512 :: TablePage(b, sp, k) == TablePage(b, sp, 0);
    assert forall k: nat | k >= 512 :: TablePage(b, sp, k) == TablePage(b, sp, 512);
    var root := RootPage(b, sp);
    var pdpt := Pfn(Word(ram, root, 0));
    assert ram'[root] == ram[root] && ram'[pdpt] == ram[pdpt];
    assert ram'[Pfn(Word(ram, pdpt, 0))] == ram[Pfn(Word(ram, pdpt, 0))];
    forall k: nat | k < HEAP_PAGES
      ensures HeapPte(ram', b, sp, k) == HeapPte(ram, b, sp, k) && PteOk(owner, i, k, HeapPte(ram', b, sp, k))
    {
      assert PteOk(owner, i, k, HeapPte(ram, b, sp, k));
    }
  }

  // ---- entries: one word of a heap table changes ----

  /** Owned frames keep their owner, except that entry k of space i may gain or lose frames. */
  ghost predicate OwnersKept(owner: map<nat, Role>, owner': map<nat, Role>, i: nat, k: nat) {
    && (forall p | p in owner' :: InPool(p))
    && forall p | p in owner && owner[p] != HeapPage(i, k) && owner[p] != Kernel :: p in owner' && owner'[p] == owner[p]
  }

  lemma OwnersStep(ram: Ram, b: Boot, owner: map<nat, Role>, owner': map<nat, Role>, i: nat, k: nat, sp: Space, j: nat)
    requires SpaceOk(ram, b, owner, sp, j) && OwnersKept(owner, owner', i, k) && j != i
    ensures SpaceOk(ram, b, owner', sp, j)
  {
    forall l: nat | l < HEAP_PAGES
      ensures PteOk(owner', j, l, HeapPte(ram, b, sp, l))
    {
      assert PteOk(owner, j, l, HeapPte(ram, b, sp, l));
    }
  }

  /** The tables of the space whose entry changes: its own walk and its other entries stay. */
  lemma OwnPteUpdate(ram: Ram, ram': Ram, b: Boot, owner: map<nat, Role>, owner': map<nat, Role>,
                     sp: Space, i: nat, k: nat, e: u64)
    requires SpaceOk(ram, b, owner, sp, i) && OwnersKept(owner, owner', i, k) && k < HEAP_PAGES
    requires PteOk(owner', i, k, e) && TablePage(b, sp, k) < RAM_PAGES
    requires ram' == Poke(ram, TablePage(b, sp, k), k % 512, e)
    ensures SpaceOk(ram', b, owner', sp, i)
    ensures forall l: nat | l < HEAP_PAGES ::
              HeapPte(ram', b, sp, l) == if l == k then e else HeapPte(ram, b, sp, l)
  {
    assert TablePage(b, sp, k) == TablePage(b, sp, if k < 512 then 0 else 512);
    var root := RootPage(b, sp);
    var pdpt := Pfn(Word(ram, root, 0));
    assert ram'[root] == ram[root] && ram'[pdpt] == ram[pdpt];
    assert ram'[Pfn(Word(ram, pdpt, 0))] == ram[Pfn(Word(ram, pdpt, 0))];
    forall l: nat | l < HEAP_PAGES
      ensures HeapPte(ram', b, sp, l) == if l == k then e else HeapPte(ram, b, sp, l)
      ensures PteOk(owner', i, l, HeapPte(ram', b, sp, l))
    {
      assert PteOk(owner, i, l, HeapPte(ram, b, sp, l));
      assert TablePage(b, sp, l) == TablePage(b, sp, if l < 512 then 0 else 512);
    }
  }

  lemma PteUpdate(ram: Ram, ram': Ram, b: Boot, spaces: seq<Space>, owner: map<nat, Role>, owner': map<nat, Role>,
                  i: nat, k: nat, e: u64)
    requires Inv(ram, b, spaces, owner) && i < |spaces| && k < HEAP_PAGES
    requires OwnersKept(owner, owner', i, k) && PteOk(owner', i, k, e)
    requires TablePage(b, spaces[i], k) < RAM_PAGES
    requires ram' == Poke(ram, TablePage(b, spaces[i], k), k % 512, e)
    ensures Inv(ram', b, spaces, owner')
    ensures forall j: nat, l: nat | j < |spaces| && l < HEAP_PAGES ::
              HeapPte(ram', b, spaces[j], l) == if j == i && l == k then e else HeapPte(ram, b, spaces[j], l)
  {
    var p := TablePage(b, spaces[i], k);
    assert SpaceOk(ram, b, owner, spaces[i], i);
    assert IsTable(owner, i, if k < 512 then 3 else 4, p);
    forall j: nat | j < |spaces|
      ensures SpaceOk(ram', b, owner', spaces[j], j)
      ensures forall l: nat | l < HEAP_PAGES ::
                HeapPte(ram', b, spaces[j], l) == if j == i && l == k then e else HeapPte(ram, b, spaces[j], l)
    {
      if j == i {
        OwnPteUpdate(ram, ram', b, owner, owner', spaces[i], i, k, e);
      } else {
        TablesSame(ram, ram', b, owner, spaces[j], j, p);
        OwnersStep(ram', b, owner, owner', i, k, spaces[j], j);
      }
    }
  }

  /** Table pages are in RAM and are never the pinned pages or a frame that backs heap memory. */
  lemma TablePageRange(ram: Ram, b: Boot, spaces: seq<Space>, owner: map<nat, Role>, i: nat, k: nat)
    requires Inv(ram, b, spaces, owner) && i < |spaces| && k < HEAP_PAGES
    ensures TablePage(b, spaces[i], k) < RAM_PAGES && !DataPage(owner, TablePage(b, spaces[i], k))
  {
    assert SpaceOk(ram, b, owner, spaces[i], i);
    assert IsTable(owner, i, if k < 512 then 3 else 4, TablePage(b, spaces[i], k));
  }

  /** What backs a present heap entry is a data page. */
  lemma BackingIsData(ram: Ram, b: Boot, spaces: seq<Space>, owner: map<nat, Role>, i: nat, k: nat)
    requires Inv(ram, b, spaces, owner) && i < |spaces| && k < HEAP_PAGES
    requires Present(HeapPte(ram, b, spaces[i], k))
    ensures DataPage(owner, Pfn(HeapPte(ram, b, spaces[i], k)))
  {
    assert SpaceOk(ram, b, owner, spaces[i], i);
    assert PteOk(owner, i, k, HeapPte(ram, b, spaces[i], k));
  }

  // ---- a new space ----

  predicate FiveFrames(a: nat, b: nat, c: nat, d: nat, e: nat) {
    a != b && a != c && a != d && a != e && b != c && b != d && b != e && c != d && c != e && d != e
  }

  /** What `as_create` leaves in its five frames. */
  ghost predicate FreshSpace(ram: Ram, sp: Space, pdpt: nat, pd: nat) {
    && InPool(sp.cr3) && InPool(pdpt) && InPool(pd) && InPool(sp.heap0) && InPool(sp.heap1)
    && ram[sp.cr3].words[0] == Pte(pdpt, 7) && ram[pdpt].words[0] == Pte(pd, 7)
    && ram[pd].words[4] == Pte(sp.heap0, 7) && ram[pd].words[5] == Pte(sp.heap1, 7)
    && ram[sp.heap0] == ZeroPage()
    && ram[sp.heap1] == Page(ZeroPage().words[0 := Pte(SHM, 7)][16 := Pte(BOX, 7)])
  }

  function NewOwners(owner: map<nat, Role>, n: nat, sp: Space, pdpt: nat, pd: nat): map<nat, Role> {
    owner[sp.cr3 := Table(n, 0)][pdpt := Table(n, 1)][pd := Table(n, 2)][sp.heap0 := Table(n, 3)][sp.heap1 := Table(n, 4)]
  }

  lemma NewSpaceOk(ram: Ram, b: Boot, owner: map<nat, Role>, n: nat, sp: Space, pdpt: nat, pd: nat)
    requires n > 0 && FreshSpace(ram, sp, pdpt, pd) && FiveFrames(sp.cr3, pdpt, pd, sp.heap0, sp.heap1)
    ensures SpaceOk(ram, b, NewOwners(owner, n, sp, pdpt, pd), sp, n)
    ensures forall k: nat | k < HEAP_PAGES ::
              HeapPte(ram, b, sp, k) == if k == 512 then Pte(SHM, 7) else if k == 528 then Pte(BOX, 7) else 0
  {
    NewTablesOk(ram, b, NewOwners(owner, n, sp, pdpt, pd), sp, n, pdpt, pd);
    NewEntries(ram, b, sp, pdpt, pd);
    PteFields(SHM, 7);
    PteFields(BOX, 7);
  }

  lemma NewTablesOk(ram: Ram, b: Boot, owner: map<nat, Role>, sp: Space, n: nat, pdpt: nat, pd: nat)
    requires n > 0 && FreshSpace(ram, sp, pdpt, pd) && FiveFrames(sp.cr3, pdpt, pd, sp.heap0, sp.heap1)
    requires {sp.cr3, pdpt, pd, sp.heap0, sp.heap1} <= owner.Keys
    requires owner[sp.cr3] == Table(n, 0) && owner[pdpt] == Table(n, 1) && owner[pd] == Table(n, 2)
    requires owner[sp.heap0] == Table(n, 3) && owner[sp.heap1] == Table(n, 4)
    ensures TablesOk(ram, b, owner, sp, n)
  {
    PteFields(pdpt, 7);
    PteFields(pd, 7);
    PteFields(sp.heap0, 7);
    PteFields(sp.heap1, 7);
  }

  lemma NewEntries(ram: Ram, b: Boot, sp: Space, pdpt: nat, pd: nat)
    requires FreshSpace(ram, sp, pdpt, pd)
    ensures forall k: nat | k < HEAP_PAGES ::
              HeapPte(ram, b, sp, k) == if k == 512 then Pte(SHM, 7) else if k == 528 then Pte(BOX, 7) else 0
  {
  }
}
