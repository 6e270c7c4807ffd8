/** The machine that the page tables refine: one private heap per space plus two shared pages. */
module MemHeaps {
  import opened Bytes
  import opened MemLayout
  import opened MemSpaces

  datatype Heap = Heap(slots: seq<Slot>)

  datatype Heaps = Heaps(heaps: seq<Heap>, shm: Page, box: Page)

  ghost function HeapOf(ram: Ram, b: Boot, sp: Space): Heap {
    Heap(seq(HEAP_PAGES, k requires 0 <= k < HEAP_PAGES => SlotAt(ram, b, sp, k)))
  }

  ghost function AbsOf(ram: Ram, b: Boot, spaces: seq<Space>): Heaps {
    Heaps(seq(|spaces|, i requires 0 <= i < |spaces| => HeapOf(ram, b, spaces[i])), ram[SHM], ram[BOX])
  }

  /** The shared pages are only ever mapped at their own addresses. */
  ghost predicate Pinned(h: Heap) {
    && |h.slots| == HEAP_PAGES
    && forall k | 0 <= k < HEAP_PAGES ::
         (h.slots[k] == Shared ==> k == 512) && (h.slots[k] == Boxed ==> k == 528)
  }

  ghost predicate WellFormed(s: Heaps) {
    forall i | 0 <= i < |s.heaps| :: Pinned(s.heaps[i])
  }

  // ---- the operations ----

  ghost function SetSlot(s: Heaps, i: nat, k: nat, v: Slot): Heaps
    requires i < |s.heaps| && k < |s.heaps[i].slots|
  {
    s.(heaps := s.heaps[i := Heap(s.heaps[i].slots[k := v])])
  }

  /** First touch of an unmapped page: it appears, zeroed. */
  ghost function Touch(s: Heaps, i: nat, k: nat): Heaps
    requires i < |s.heaps| && k < |s.heaps[i].slots|
  {
    if s.heaps[i].slots[k] == Unmapped then SetSlot(s, i, k, Private(ZeroPage())) else s
  }

  ghost function Unmap(s: Heaps, i: nat, lo: nat, hi: nat): Heaps
    requires i < |s.heaps| && |s.heaps[i].slots| == HEAP_PAGES
  {
    s.(heaps := s.heaps[i := Heap(seq(HEAP_PAGES, k requires 0 <= k < HEAP_PAGES =>
        if lo <= k < hi then Unmapped else s.heaps[i].slots[k]))])
  }

  /** A store through the page tables; to an unmapped page it faults and changes nothing. */
  ghost function Store(s: Heaps, i: nat, k: nat, w: nat, v: u64): Heaps
    requires i < |s.heaps| && k < |s.heaps[i].slots| && w < 512
  {
    match s.heaps[i].slots[k]
    case Unmapped => s
    case Shared => s.(shm := Page(s.shm.words[w := v]))
    case Boxed => s.(box := Page(s.box.words[w := v]))
    case Private(page) => SetSlot(s, i, k, Private(Page(page.words[w := v])))
  }

  ghost function Load(s: Heaps, i: nat, k: nat, w: nat): Option<u64>
    requires i < |s.heaps| && k < |s.heaps[i].slots| && w < 512
  {
    match s.heaps[i].slots[k]
    case Unmapped => None
    case Shared => Some(s.shm.words[w])
    case Boxed => Some(s.box.words[w])
    case Private(page) => Some(page.words[w])
  }

  ghost function FreshHeap(): Heap {
    Heap(seq(HEAP_PAGES, k => if k == 512 then Shared else if k == 528 then Boxed else Unmapped))
  }

  ghost function Spawn(s: Heaps): Heaps {
    s.(heaps := s.heaps + [FreshHeap()])
  }

  /** What fork makes of one page: the shared page stays shared, the box page becomes a copy. */
  ghost function CopySlot(s: Heaps, src: Slot, dst: Slot): Slot {
    match src
    case Unmapped => dst
    case Shared => Shared
    case Boxed => Private(s.box)
    case Private(page) => Private(page)
  }

  ghost function CopyHeap(s: Heaps, dst: nat, src: nat): Heaps
    requires dst < |s.heaps| && src < |s.heaps|
    requires |s.heaps[dst].slots| == HEAP_PAGES && |s.heaps[src].slots| == HEAP_PAGES
  {
    s.(heaps := s.heaps[dst := Heap(seq(HEAP_PAGES, k requires 0 <= k < HEAP_PAGES =>
        CopySlot(s, s.heaps[src].slots[k], s.heaps[dst].slots[k])))])
  }

  /** A page that fork copies into a frame of its own. */
  predicate NeedsFrame(v: Slot) {
    v.Boxed? || v.Private?
  }

  /** How many of the first n pages fork copies. */
  ghost function Needed(h: Heap, n: nat): nat
    requires n <= |h.slots|
  {
    if n == 0 then 0 else Needed(h, n - 1) + if NeedsFrame(h.slots[n - 1]) then 1 else 0
  }

  /** With `free` frames left, the copied pages get one each in order, and the rest are passed over. */
  ghost function CopiedSlot(s: Heaps, dst: nat, src: nat, free: nat, k: nat): Slot
    requires dst < |s.heaps| && src < |s.heaps| && k < |s.heaps[dst].slots| && k < |s.heaps[src].slots|
  {
    var v := s.heaps[src].slots[k];
    if NeedsFrame(v) && Needed(s.heaps[src], k) >= free then s.heaps[dst].slots[k]
    else CopySlot(s, v, s.heaps[dst].slots[k])
  }

  ghost function CopyWith(s: Heaps, dst: nat, src: nat, free: nat): Heaps
    requires dst < |s.heaps| && src < |s.heaps|
    requires |s.heaps[dst].slots| == HEAP_PAGES && |s.heaps[src].slots| == HEAP_PAGES
  {
    s.(heaps := s.heaps[dst := Heap(seq(HEAP_PAGES, k requires 0 <= k < HEAP_PAGES => CopiedSlot(s, dst, src, free, k)))])
  }

  ghost function Fork(s: Heaps, parent: nat): Heaps
    requires WellFormed(s) && parent < |s.heaps|
  {
    CopyHeap(Spawn(s), |s.heaps|, parent)
  }

  /** Fork when `free` frames are left once the tables of the child are made. */
  ghost function ForkWith(s: Heaps, parent: nat, free: nat): Heaps
    requires WellFormed(s) && parent < |s.heaps|
  {
    CopyWith(Spawn(s), |s.heaps|, parent, free)
  }

  lemma {:induction false} NeededGrows(h: Heap, m: nat, n: nat)
    requires m <= n <= |h.slots|
    ensures Needed(h, m) <= Needed(h, n)
    decreases n
  {
    if m < n {
      NeededGrows(h, m, n - 1);
    }
  }

  /** When more pages need frames than there are, one of them finds none. */
  lemma {:induction false} Starved(h: Heap, n: nat, free: nat) returns (k: nat)
    requires n <= |h.slots| && Needed(h, n) > free
    ensures k < n && NeedsFrame(h.slots[k]) && Needed(h, k) >= free
  {
    if Needed(h, n - 1) > free {
      k := Starved(h, n - 1, free);
    } else {
      k := n - 1;
    }
  }

  /** Space i maps no page of its own. */
  ghost predicate NoPrivate(s: Heaps, i: nat)
    requires i < |s.heaps| && |s.heaps[i].slots| == HEAP_PAGES
  {
    forall k | 0 <= k < HEAP_PAGES :: !s.heaps[i].slots[k].Private?
  }

  /** The copy is complete exactly when there is a frame for every page that needs one. */
  lemma CopyCompleteIff(s: Heaps, dst: nat, src: nat, free: nat)
    requires dst < |s.heaps| && src < |s.heaps| && dst != src
    requires |s.heaps[dst].slots| == HEAP_PAGES && |s.heaps[src].slots| == HEAP_PAGES
    requires NoPrivate(s, dst)
    ensures CopyWith(s, dst, src, free) == CopyHeap(s, dst, src) <==> Needed(s.heaps[src], HEAP_PAGES) <= free
  {
    var h := s.heaps[src];
    var some, all := CopyWith(s, dst, src, free), CopyHeap(s, dst, src);
    if Needed(h, HEAP_PAGES) <= free {
      forall k | 0 <= k < HEAP_PAGES
        ensures some.heaps[dst].slots[k] == all.heaps[dst].slots[k]
      {
        NeededGrows(h, k + 1, HEAP_PAGES);
      }
      assert some.heaps[dst].slots == all.heaps[dst].slots;
    } else {
      var k := Starved(h, HEAP_PAGES, free);
      assert some.heaps[dst].slots[k] != all.heaps[dst].slots[k];
    }
  }

  lemma ForkCompleteIff(s: Heaps, parent: nat, free: nat)
    requires WellFormed(s) && parent < |s.heaps|
    ensures ForkWith(s, parent, free) == Fork(s, parent) <==> Needed(s.heaps[parent], HEAP_PAGES) <= free
  {
    CopyCompleteIff(Spawn(s), |s.heaps|, parent, free);
  }

  /** With no frame left after its tables, a child lacks a page that its parent reads. */
  lemma ForkMissesPage(s: Heaps, w: nat)
    requires s == Heaps([Heap(FreshHeap().slots[0 := Private(ZeroPage())])], ZeroPage(), ZeroPage()) && w < 512
    ensures WellFormed(s) && Load(s, 0, 0, w) == Some(0) && Load(ForkWith(s, 0, 0), 1, 0, w) == None
  {
  }

  // ---- runs ----

  datatype Op =
    | DoTouch(space: nat, page: nat)
    | DoUnmap(space: nat, lo: nat, hi: nat)
    | DoStore(space: nat, page: nat, word: nat, value: u64)
    | DoSpawn
    | DoFork(space: nat, free: nat)

  ghost predicate Legal(s: Heaps, op: Op) {
    match op
    case DoTouch(i, k) => i < |s.heaps| && k < HEAP_PAGES
    case DoUnmap(i, _, _) => i < |s.heaps|
    case DoStore(i, k, w, _) => i < |s.heaps| && k < HEAP_PAGES && w < 512
    case DoSpawn => true
    case DoFork(i, _) => i < |s.heaps|
  }

  ghost function Step(s: Heaps, op: Op): (t: Heaps)
    requires WellFormed(s) && Legal(s, op)
    ensures WellFormed(t) && |t.heaps| >= |s.heaps|
  {
    match op
    case DoTouch(i, k) => Touch(s, i, k)
    case DoUnmap(i, lo, hi) => Unmap(s, i, lo, hi)
    case DoStore(i, k, w, v) => Store(s, i, k, w, v)
    case DoSpawn => Spawn(s)
    case DoFork(i, free) => ForkWith(s, i, free)
  }

  /** Illegal requests are ignored, as the kernel does with addresses outside the heap. */
  ghost function Run(s: Heaps, ops: seq<Op>): (t: Heaps)
    requires WellFormed(s)
    ensures WellFormed(t) && |t.heaps| >= |s.heaps|
    decreases |ops|
  {
    if ops == [] then s
    else Run(if Legal(s, ops[0]) then Step(s, ops[0]) else s, ops[1..])
  }

  /** Operation op acts on behalf of space i. */
  predicate ActsAs(op: Op, i: nat) {
    match op
    case DoTouch(j, _) => i == j
    case DoUnmap(j, _, _) => i == j
    case DoStore(j, _, _, _) => i == j
    case DoSpawn => false
    case DoFork(_, _) => false
  }

  /** Isolation: whatever the others do, a space's private pages and its mappings do not change. */
  lemma {:induction false} Isolation(s: Heaps, ops: seq<Op>, i: nat)
    requires WellFormed(s) && i < |s.heaps|
    requires forall op | op in ops :: !ActsAs(op, i)
    ensures Run(s, ops).heaps[i] == s.heaps[i]
    decreases |ops|
  {
    if ops != [] {
      assert !ActsAs(ops[0], i);
      Isolation(if Legal(s, ops[0]) then Step(s, ops[0]) else s, ops[1..], i);
    }
  }

  /** The operations of a run that act on behalf of space i. */
  function OwnOps(ops: seq<Op>, i: nat): (own: seq<Op>) {
    if ops == [] then []
    else if ActsAs(ops[0], i) then [ops[0]] + OwnOps(ops[1..], i)
    else OwnOps(ops[1..], i)
  }

  /** Noninterference: a run leaves a space with the mappings and private pages that its own operations alone
      give it, whatever the shared pages hold and whatever other spaces there are. */
  lemma {:induction false} Noninterference(s: Heaps, t: Heaps, ops: seq<Op>, i: nat)
    requires WellFormed(s) && WellFormed(t) && i < |s.heaps| && i < |t.heaps| && s.heaps[i] == t.heaps[i]
    ensures Run(s, ops).heaps[i] == Run(t, OwnOps(ops, i)).heaps[i]
    decreases |ops|
  {
    if ops != [] {
      var s' := if Legal(s, ops[0]) then Step(s, ops[0]) else s;
      if ActsAs(ops[0], i) {
        var t' := if Legal(t, ops[0]) then Step(t, ops[0]) else t;
        assert s'.heaps[i] == t'.heaps[i];
        assert OwnOps(ops, i)[1..] == OwnOps(ops[1..], i);
        Noninterference(s', t', ops[1..], i);
      } else {
        Noninterference(s', t, ops[1..], i);
      }
    }
  }

  /** Later writes by others show in a space only through the shared and box pages. */
  lemma LoadStable(s: Heaps, ops: seq<Op>, i: nat, k: nat, w: nat)
    requires WellFormed(s) && i < |s.heaps| && k < HEAP_PAGES && w < 512
    requires forall op | op in ops :: !ActsAs(op, i)
    requires s.heaps[i].slots[k] != Shared && s.heaps[i].slots[k] != Boxed
    ensures Load(Run(s, ops), i, k, w) == Load(s, i, k, w)
  {
    Isolation(s, ops, i);
  }

  /** A forked child reads exactly what its parent had, and forking does not disturb the parent. */
  lemma ForkReads(s: Heaps, parent: nat, k: nat, w: nat)
    requires WellFormed(s) && parent < |s.heaps| && k < HEAP_PAGES && w < 512
    requires s.heaps[parent].slots[k] != Unmapped
    ensures Load(Fork(s, parent), |s.heaps|, k, w) == Load(s, parent, k, w)
    ensures Load(Fork(s, parent), parent, k, w) == Load(s, parent, k, w)
  {
  }

  /** After a fork, stores on either side stay on that side, except through the shared page:
      even the box page is no longer common to both. */
  lemma ForkSeparates(s: Heaps, parent: nat, a: nat, b: nat, k: nat, w: nat, v: u64, l: nat, x: nat)
    requires WellFormed(s) && parent < |s.heaps| && k < HEAP_PAGES && l < HEAP_PAGES && w < 512 && x < 512
    requires (a == parent && b == |s.heaps|) || (a == |s.heaps| && b == parent)
    ensures Load(Store(Fork(s, parent), a, k, w, v), b, l, x) == Load(Fork(s, parent), b, l, x)
            || (Fork(s, parent).heaps[a].slots[k] == Shared && Fork(s, parent).heaps[b].slots[l] == Shared && w == x)
  {
    var f := Fork(s, parent);
    assert f.heaps[parent] == s.heaps[parent] && Pinned(s.heaps[parent]);
    assert f.heaps[|s.heaps|].slots[l] == CopySlot(s, s.heaps[parent].slots[l], FreshHeap().slots[l]);
    assert f.heaps[|s.heaps|].slots[k] == CopySlot(s, s.heaps[parent].slots[k], FreshHeap().slots[k]);
  }

  /** The pinned page is not exempt from unmapping: once unmapped, the next touch finds a private zero page. */
  lemma UnmapDetachesShared(s: Heaps, i: nat, w: nat)
    requires WellFormed(s) && i < |s.heaps| && w < 512
    ensures Load(Touch(Unmap(s, i, 512, 513), i, 512), i, 512, w) == Some(0)
  {
  }
}
