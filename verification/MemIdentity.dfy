/** Identity mapping of physical ranges through the 4-level tables, growing them where they are absent. */
module MemIdentity {
  import opened Bytes
  import opened MemLayout

  /** Where a table page hangs in the tree. */
  datatype Node = Root | Pdpt(i4: nat) | Pd(i4: nat, i3: nat) | Pt(i4: nat, i3: nat, i2: nat)

  function Child(n: Node, a: nat): Node {
    match n
    case Root => Pdpt(a)
    case Pdpt(i4) => Pd(i4, a)
    case Pd(i4, i3) => Pt(i4, i3, a)
    case Pt(_, _, _) => n
  }

  /** Entry a of table p leads to the table that belongs there. */
  ghost predicate LinkOk(ram: Ram, role: map<nat, Node>, p: nat, a: nat)
    requires p in role && a < 512
  {
    var w := Word(ram, p, a);
    !role[p].Pt? && Present(w) && (role[p].Root? || !Large(w)) ==>
      Pfn(w) in role && role[Pfn(w)] == Child(role[p], a)
  }

  /** The tables form a tree: each has one role, which says where it hangs. */
  ghost predicate Tree(ram: Ram, root: nat, role: map<nat, Node>) {
    && root in role && role[root] == Root
    && (forall p | p in role :: p < RAM_PAGES)
    && forall p, a: nat | p in role && a < 512 :: LinkOk(ram, role, p, a)
  }

  /** The word at (table of role n, index a) is one that the walk of va may read. */
  predicate Through(n: Node, a: nat, va: u64) {
    match n
    case Root => Index4(va) == a
    case Pdpt(i4) => Index4(va) == i4 && Index3(va) == a
    case Pd(i4, i3) => Index4(va) == i4 && Index3(va) == i3 && Index2(va) == a
    case Pt(i4, i3, i2) => Index4(va) == i4 && Index3(va) == i3 && Index2(va) == i2 && Index1(va) == a
  }

  /** The page table that serves va, when the whole path is there and made of small pages. */
  function PtOf(ram: Ram, root: nat, va: u64): Option<nat> {
    var e4 := Word(ram, root, Index4(va));
    var e3 := Word(ram, Pfn(e4), Index3(va));
    var e2 := Word(ram, Pfn(e3), Index2(va));
    if Present(e4) && Present(e3) && !Large(e3) && Present(e2) && !Large(e2) then Some(Pfn(e2)) else None
  }

  /** No large page on the path of va, as far as the path goes. */
  predicate SmallPath(ram: Ram, root: nat, va: u64) {
    var e4 := Word(ram, root, Index4(va));
    var e3 := Word(ram, Pfn(e4), Index3(va));
    var e2 := Word(ram, Pfn(e3), Index2(va));
    Present(e4) && Present(e3) ==> !Large(e3) && (Present(e2) ==> !Large(e2))
  }

  /** The roles of the pages that the walk of va reads. */
  lemma WalkRoles(ram: Ram, root: nat, role: map<nat, Node>, va: u64)
    requires Tree(ram, root, role)
    ensures var e4 := Word(ram, root, Index4(va));
            Present(e4) ==>
              && Pfn(e4) in role && role[Pfn(e4)] == Pdpt(Index4(va))
              && var e3 := Word(ram, Pfn(e4), Index3(va));
                 Present(e3) && !Large(e3) ==>
                   && Pfn(e3) in role && role[Pfn(e3)] == Pd(Index4(va), Index3(va))
                   && var e2 := Word(ram, Pfn(e3), Index2(va));
                      Present(e2) && !Large(e2) ==>
                        Pfn(e2) in role && role[Pfn(e2)] == Pt(Index4(va), Index3(va), Index2(va))
  {
    var e4 := Word(ram, root, Index4(va));
    assert LinkOk(ram, role, root, Index4(va));
    if Present(e4) {
      assert LinkOk(ram, role, Pfn(e4), Index3(va));
      var e3 := Word(ram, Pfn(e4), Index3(va));
      if Present(e3) && !Large(e3) {
        assert LinkOk(ram, role, Pfn(e3), Index2(va));
      }
    }
  }

  /** A page outside the tree can change freely. */
  lemma OutsideWalk(ram: Ram, ram': Ram, root: nat, role: map<nat, Node>, p: nat, va: u64)
    requires Tree(ram, root, role) && p !in role
    requires forall q: nat | q < RAM_PAGES && q != p :: ram'[q] == ram[q]
    ensures VirtToPhys(ram', root, va) == VirtToPhys(ram, root, va)
    ensures SmallPath(ram', root, va) == SmallPath(ram, root, va)
  {
    WalkRoles(ram, root, role, va);
  }

  lemma OutsideTree(ram: Ram, ram': Ram, root: nat, role: map<nat, Node>, p: nat)
    requires Tree(ram, root, role) && p !in role
    requires forall q: nat | q < RAM_PAGES && q != p :: ram'[q] == ram[q]
    ensures Tree(ram', root, role)
  {
    forall q, a: nat | q in role && a < 512
      ensures LinkOk(ram', role, q, a)
    {
      assert LinkOk(ram, role, q, a) && ram'[q] == ram[q];
    }
  }

  /** A word changes in a table; walks that do not read it are unaffected. */
  lemma PokeElsewhere(ram: Ram, root: nat, role: map<nat, Node>, p: nat, a: nat, w: u64, va: u64)
    requires Tree(ram, root, role) && p in role && a < 512 && !Through(role[p], a, va)
    ensures VirtToPhys(Poke(ram, p, a, w), root, va) == VirtToPhys(ram, root, va)
    ensures SmallPath(Poke(ram, p, a, w), root, va) == SmallPath(ram, root, va)
  {
    WalkRoles(ram, root, role, va);
  }

  /** An absent entry comes to name an empty table: no address translates differently. */
  lemma LinkWalk(ram: Ram, ram': Ram, root: nat, role: map<nat, Node>, p: nat, a: nat, t: nat, va: u64)
    requires Tree(ram, root, role) && p in role && a < 512 && !role[p].Pt? && !Present(Word(ram, p, a))
    requires t !in role && t < RAM_PAGES && ram[t] == ZeroPage() && ram' == Poke(ram, p, a, Pte(t, 3))
    ensures VirtToPhys(ram', root, va) == VirtToPhys(ram, root, va)
    ensures SmallPath(ram, root, va) ==> SmallPath(ram', root, va)
  {
    if Through(role[p], a, va) {
      match role[p]
      case Root => LinkAtRoot(ram, ram', root, role, p, a, t, va);
      case Pdpt(_) => LinkAtPdpt(ram, ram', root, role, p, a, t, va);
      case Pd(_, _) => LinkAtPd(ram, ram', root, role, p, a, t, va);
    } else {
      PokeElsewhere(ram, root, role, p, a, Pte(t, 3), va);
    }
  }

  lemma LinkAtRoot(ram: Ram, ram': Ram, root: nat, role: map<nat, Node>, p: nat, a: nat, t: nat, va: u64)
    requires Tree(ram, root, role) && p in role && a < 512 && !Present(Word(ram, p, a))
    requires t !in role && t < RAM_PAGES && ram[t] == ZeroPage() && ram' == Poke(ram, p, a, Pte(t, 3))
    requires role[p] == Root && Index4(va) == a
    ensures VirtToPhys(ram', root, va) == VirtToPhys(ram, root, va)
    ensures SmallPath(ram, root, va) ==> SmallPath(ram', root, va)
  {
    if p == root {
      PteFields(t, 3);
      LinkInRoot(ram, ram', root, t, va, Pte(t, 3));
    } else {
      WalkRoles(ram, root, role, va);
      assert ReadsSame(ram, ram', root, va);
    }
  }

  lemma LinkAtPdpt(ram: Ram, ram': Ram, root: nat, role: map<nat, Node>, p: nat, a: nat, t: nat, va: u64)
    requires Tree(ram, root, role) && p in role && a < 512 && !Present(Word(ram, p, a))
    requires t !in role && t < RAM_PAGES && ram[t] == ZeroPage() && ram' == Poke(ram, p, a, Pte(t, 3))
    requires role[p] == Pdpt(Index4(va)) && Index3(va) == a
    ensures VirtToPhys(ram', root, va) == VirtToPhys(ram, root, va)
    ensures SmallPath(ram, root, va) ==> SmallPath(ram', root, va)
  {
    WalkRoles(ram, root, role, va);
    var e4 := Word(ram, root, Index4(va));
    if Present(e4) && Pfn(e4) == p {
      PteFields(t, 3);
      LinkInPdpt(ram, ram', root, p, t, va, Pte(t, 3));
    } else {
      assert ReadsSame(ram, ram', root, va);
    }
  }

  lemma LinkInRoot(ram: Ram, ram': Ram, root: nat, t: nat, va: u64, w: u64)
    requires Present(w) && Pfn(w) == t && root < RAM_PAGES && t < RAM_PAGES && root != t && ram[t] == ZeroPage()
    requires ram' == Poke(ram, root, Index4(va), w) && !Present(Word(ram, root, Index4(va)))
    ensures VirtToPhys(ram', root, va) == VirtToPhys(ram, root, va) == None
    ensures SmallPath(ram', root, va)
  {
    assert Word(ram', t, Index3(va)) == 0;
  }

  lemma LinkInPdpt(ram: Ram, ram': Ram, root: nat, p: nat, t: nat, va: u64, w: u64)
    requires Present(w) && !Large(w) && Pfn(w) == t
    requires var e4 := Word(ram, root, Index4(va));
             && p < RAM_PAGES && t < RAM_PAGES && p != t && ram' == Poke(ram, p, Index3(va), w)
             && Present(e4) && Pfn(e4) == p && !Present(Word(ram, p, Index3(va)))
             && Word(ram', root, Index4(va)) == e4 && ram[t] == ZeroPage()
    ensures VirtToPhys(ram', root, va) == VirtToPhys(ram, root, va) == None
    ensures SmallPath(ram', root, va)
  {
    assert Word(ram', t, Index2(va)) == 0;
  }

  lemma LinkAtPd(ram: Ram, ram': Ram, root: nat, role: map<nat, Node>, p: nat, a: nat, t: nat, va: u64)
    requires Tree(ram, root, role) && p in role && a < 512 && !Present(Word(ram, p, a))
    requires t !in role && t < RAM_PAGES && ram[t] == ZeroPage() && ram' == Poke(ram, p, a, Pte(t, 3))
    requires role[p] == Pd(Index4(va), Index3(va)) && Index2(va) == a
    ensures VirtToPhys(ram', root, va) == VirtToPhys(ram, root, va)
    ensures SmallPath(ram, root, va) ==> SmallPath(ram', root, va)
  {
    WalkRoles(ram, root, role, va);
    var e4 := Word(ram, root, Index4(va));
    var e3 := Word(ram, Pfn(e4), Index3(va));
    if Present(e4) && Present(e3) && !Large(e3) && Pfn(e3) == p {
      PteFields(t, 3);
      LinkInPd(ram, ram', root, p, t, va, Pte(t, 3));
    } else {
      assert ReadsSame(ram, ram', root, va);
    }
  }

  /** The walk of va reads the same words. */
  ghost predicate ReadsSame(ram: Ram, ram': Ram, root: nat, va: u64) {
    var e4 := Word(ram, root, Index4(va));
    var e3 := Word(ram, Pfn(e4), Index3(va));
    var e2 := Word(ram, Pfn(e3), Index2(va));
    && Word(ram', root, Index4(va)) == e4
    && (Present(e4) ==> Word(ram', Pfn(e4), Index3(va)) == e3)
    && (Present(e4) && Present(e3) && !Large(e3) ==> Word(ram', Pfn(e3), Index2(va)) == e2)
    && (Present(e4) && Present(e3) && !Large(e3) && Present(e2) && !Large(e2) ==>
          Word(ram', Pfn(e2), Index1(va)) == Word(ram, Pfn(e2), Index1(va)))
  }

  lemma LinkInPd(ram: Ram, ram': Ram, root: nat, p: nat, t: nat, va: u64, w: u64)
    requires Present(w) && !Large(w) && Pfn(w) == t
    requires var e4 := Word(ram, root, Index4(va));
             var e3 := Word(ram, Pfn(e4), Index3(va));
             && p < RAM_PAGES && t < RAM_PAGES && p != t && ram' == Poke(ram, p, Index2(va), w)
             && Present(e4) && Present(e3) && !Large(e3) && Pfn(e3) == p && !Present(Word(ram, p, Index2(va)))
             && Word(ram', root, Index4(va)) == e4 && Word(ram', Pfn(e4), Index3(va)) == e3 && ram[t] == ZeroPage()
    ensures VirtToPhys(ram', root, va) == VirtToPhys(ram, root, va) == None
    ensures SmallPath(ram', root, va)
  {
    assert Word(ram', t, Index1(va)) == 0;
  }

  lemma LinkTree(ram: Ram, ram': Ram, root: nat, role: map<nat, Node>, p: nat, a: nat, t: nat)
    requires Tree(ram, root, role) && p in role && a < 512 && !role[p].Pt?
    requires t !in role && t < RAM_PAGES && ram[t] == ZeroPage() && ram' == Poke(ram, p, a, Pte(t, 3))
    ensures Tree(ram', root, role[t := Child(role[p], a)])
  {
    PteFields(t, 3);
    var role' := role[t := Child(role[p], a)];
    forall q, j: nat | q in role' && j < 512
      ensures LinkOk(ram', role', q, j)
    {
      if q == t {
        assert Word(ram', t, j) == 0;
      } else {
        assert LinkOk(ram, role, q, j);
      }
    }
  }

  /** A page-table entry is written: only the addresses of that page translate differently. */
  lemma LeafWalk(ram: Ram, ram': Ram, root: nat, role: map<nat, Node>, base: u64, p: nat, pn: nat, flags: nat,
                 va: u64)
    requires Tree(ram, root, role) && PtOf(ram, root, base) == Some(p) && p in role && pn < 0x100_0000_0000
    requires flags < 4096 && flags % 2 == 1
    requires ram' == Poke(ram, p, Index1(base), Pte(pn, flags))
    ensures Tree(ram', root, role)
    ensures SmallPath(ram', root, va) == SmallPath(ram, root, va)
    ensures PtOf(ram', root, va) == PtOf(ram, root, va)
    ensures VirtToPhys(ram', root, va)
         == if SameIndices(va, base) then Some(pn * 4096 + va % 4096) else VirtToPhys(ram, root, va)
  {
    PteFields(pn, flags);
    WalkRoles(ram, root, role, base);
    LeafTree(ram, root, role, p, Index1(base), Pte(pn, flags));
    if SameIndices(va, base) {
      assert Word(ram', p, Index1(va)) == Pte(pn, flags);
    } else {
      PokeElsewhere(ram, root, role, p, Index1(base), Pte(pn, flags), va);
    }
    LeafTables(ram, root, role, p, Index1(base), Pte(pn, flags), va);
  }

  /** An entry of a page table links nothing: the tree and the tables of every walk stay. */
  lemma LeafTree(ram: Ram, root: nat, role: map<nat, Node>, p: nat, a: nat, w: u64)
    requires Tree(ram, root, role) && p in role && role[p].Pt? && a < 512
    ensures Tree(Poke(ram, p, a, w), root, role)
  {
    forall q, j: nat | q in role && j < 512
      ensures LinkOk(Poke(ram, p, a, w), role, q, j)
    {
      assert LinkOk(ram, role, q, j);
    }
  }

  lemma LeafTables(ram: Ram, root: nat, role: map<nat, Node>, p: nat, a: nat, w: u64, va: u64)
    requires Tree(ram, root, role) && p in role && role[p].Pt? && a < 512
    ensures SmallPath(Poke(ram, p, a, w), root, va) == SmallPath(ram, root, va)
    ensures PtOf(Poke(ram, p, a, w), root, va) == PtOf(ram, root, va)
  {
    WalkRoles(ram, root, role, va);
  }

  predicate SameIndices(va: u64, vb: u64) {
    Index4(va) == Index4(vb) && Index3(va) == Index3(vb) && Index2(va) == Index2(vb) && Index1(va) == Index1(vb)
  }

  // ---- indices of 48-bit addresses ----

  function Digits(n: nat): (d: (nat, nat, nat, nat))
    ensures d.0 < 512 && d.1 < 512 && d.2 < 512
    ensures n == d.0 + 512 * d.1 + 0x4_0000 * d.2 + 0x800_0000 * d.3
  {
    var q := n / 512;
    var p := q / 512;
    (n % 512, q % 512, p % 512, p / 512)
  }

  lemma IndexDigits(va: u64)
    requires va < VA_SPAN
    ensures Digits(va / 4096) == (Index1(va), Index2(va), Index3(va), Index4(va))
  {
    IndexValues(va);
    assert va / 4096 / 512 / 512 / 512 < 512;
  }

  lemma SamePage(va: u64, vb: u64)
    requires va < VA_SPAN && vb < VA_SPAN
    ensures SameIndices(va, vb) <==> va / 4096 == vb / 4096
  {
    IndexDigits(va);
    IndexDigits(vb);
  }

  /** The k-th page after base, within one page table. */
  lemma NextPages(base: u64, k: nat)
    requires Index1(base) + k < 512 && base + 4096 * k < VA_SPAN
    ensures var va := base + 4096 * k;
            && Index1(va) == Index1(base) + k
            && Index2(va) == Index2(base) && Index3(va) == Index3(base) && Index4(va) == Index4(base)
  {
    IndexDigits(base);
    IndexDigits(base + 4096 * k);
    assert (base + 4096 * k) / 4096 == base / 4096 + k;
    var d, e := Digits(base / 4096), Digits(base / 4096 + k);
    UniqueDigits(d.0 + k, d.1, d.2, d.3, e.0, e.1, e.2, e.3);
  }

  lemma UniqueDigits(a0: nat, a1: nat, a2: nat, a3: nat, b0: nat, b1: nat, b2: nat, b3: nat)
    requires a0 < 512 && a1 < 512 && a2 < 512 && b0 < 512 && b1 < 512 && b2 < 512
    requires a0 + 512 * a1 + 0x4_0000 * a2 + 0x800_0000 * a3 == b0 + 512 * b1 + 0x4_0000 * b2 + 0x800_0000 * b3
    ensures a0 == b0 && a1 == b1 && a2 == b2 && a3 == b3
  {
    assert a3 == b3;
    assert a2 == b2;
    assert a1 == b1;
  }

  // ---- the index cut to two bits ----

  const VPN_SPAN := 0x10_0000_0000

  /** The page whose entry `map_phys_identity` writes for page pn: the PDPT index keeps its two low bits only. */
  function Masked(pn: nat): (m: nat)
    ensures m <= pn && m % 0x10_0000 == pn % 0x10_0000
  {
    pn - (pn / 0x4_0000 % 512) / 4 * 0x10_0000
  }

  /** The PDPT index of page pn is below 4. */
  predicate LowSlot(pn: nat) {
    pn / 0x4_0000 % 512 < 4
  }

  lemma PageIndices(va: u64)
    requires va / 4096 < VPN_SPAN
    ensures Digits(va / 4096) == (Index1(va), Index2(va), Index3(va), Index4(va)) && va < VA_SPAN
    ensures Index3(va) == va / 4096 / 0x4_0000 % 512 && (Index3(va) < 4 <==> LowSlot(va / 4096))
  {
    IndexDigits(va);
    IndexValues(va);
    assert va / 4096 / 512 / 512 == va / 4096 / 0x4_0000;
  }

  lemma MaskedIndices(va: u64, m: u64)
    requires va / 4096 < VPN_SPAN && m / 4096 == Masked(va / 4096)
    ensures Index1(m) == Index1(va) && Index2(m) == Index2(va) && Index3(m) == Index3(va) % 4 && Index4(m) == Index4(va)
  {
    PageIndices(va);
    PageIndices(m);
    var d, e := Digits(va / 4096), Digits(m / 4096);
    assert m / 4096 == va / 4096 - d.2 / 4 * 0x10_0000;
    UniqueDigits(d.0, d.1, d.2 % 4, d.3, e.0, e.1, e.2, e.3);
  }

  /** `(va >> 30) & 0x3` */
  lemma MaskedSlot(va: u64)
    ensures (va / 0x4000_0000) % 4 == Index3(va) % 4
  {
    IndexValues(va);
    assert va / 4096 / 512 / 512 == va / 0x4000_0000;
    Quarter(va / 0x4000_0000);
  }

  lemma Quarter(x: nat)
    ensures x % 512 % 4 == x % 4
  {
  }

  /** The entry for page pn is one of page table pt. */
  ghost predicate ServedBy(ram: Ram, root: nat, pn: nat, pt: nat) {
    pn < VPN_SPAN && PtOf(ram, root, 4096 * Masked(pn)) == Some(pt)
  }

  /** The k-th page after the one of va, within one page table, has its entry in the same table. */
  lemma LaterPage(ram: Ram, root: nat, va: u64, pn: nat, k: nat, pt: nat)
    requires pn == va / 4096 && Index1(va) + k < 512 && pn + k < VPN_SPAN && ServedBy(ram, root, pn, pt)
    ensures va + 4096 * k < VA_SPAN && (va + 4096 * k) / 4096 == pn + k && ServedBy(ram, root, pn + k, pt)
  {
    PageAfter(va, k);
    PageBound(va + 4096 * k);
    NextPages(va, k);
    MaskedIndices(va, 4096 * Masked(pn));
    MaskedIndices(va + 4096 * k, 4096 * Masked(pn + k));
  }

  lemma PageBound(base: nat)
    requires base / 4096 < VPN_SPAN
    ensures base < VA_SPAN
  {
  }

  lemma PageAfter(base: nat, k: nat)
    ensures (base + 4096 * k) / 4096 == base / 4096 + k
  {
  }

  /** No large page on the paths that lead to the entries of the pages [first, last). */
  ghost predicate PathsSmall(ram: Ram, root: nat, first: nat, last: nat) {
    forall va: u64, pn: nat | first <= pn < last && va == 4096 * Masked(pn) :: SmallPath(ram, root, va)
  }

  /** Whether each of the first n pages from page `first` on has its entry at page pn. */
  function Landings(first: nat, n: nat, pn: nat): (hits: seq<bool>)
    ensures |hits| == n
  {
    seq(n, k requires 0 <= k < n => Masked(first + k) == pn)
  }

  function LastHit(hits: seq<bool>): (k: Option<nat>)
    ensures k.Some? ==> k.value < |hits| && hits[k.value] && forall j | k.value < j < |hits| :: !hits[j]
    ensures k.None? ==> forall j | 0 <= j < |hits| :: !hits[j]
  {
    if hits == [] then None
    else if hits[|hits| - 1] then Some(|hits| - 1)
    else LastHit(hits[..|hits| - 1])
  }

  /** The translation of v once n pages from page `first` on are mapped: the last one whose entry is at the page of
      v decides. */
  function Translation(start: Ram, root: nat, first: nat, n: nat, v: u64): Option<nat> {
    var k := LastHit(Landings(first, n, v / 4096));
    if k.Some? then Some(4096 * (first + k.value) + v % 4096) else VirtToPhys(start, root, v)
  }

  /** One page more. */
  lemma TranslationStep(start: Ram, root: nat, first: nat, n: nat, v: u64)
    ensures Translation(start, root, first, n + 1, v)
         == if Masked(first + n) == v / 4096 then Some(4096 * (first + n) + v % 4096)
            else Translation(start, root, first, n, v)
  {
    LastLanding(first, n, v / 4096);
  }

  lemma LastLanding(first: nat, n: nat, pn: nat)
    ensures LastHit(Landings(first, n + 1, pn)) == if Masked(first + n) == pn then Some(n) else LastHit(Landings(first, n, pn))
  {
    var longer, hits := Landings(first, n + 1, pn), Landings(first, n, pn);
    forall k | 0 <= k < n
      ensures longer[k] == hits[k]
    {
    }
    HitStep(longer, hits);
  }

  lemma HitStep(longer: seq<bool>, hits: seq<bool>)
    requires |longer| == |hits| + 1 && forall k | 0 <= k < |hits| :: longer[k] == hits[k]
    ensures LastHit(longer) == if longer[|hits|] then Some(|hits|) else LastHit(hits)
  {
    assert longer[..|hits|] == hits;
  }

  /** Entering page n of the range: one more page of `Translation`, and the same tables as before. */
  lemma EntryWalk(ram: Ram, ram': Ram, root: nat, role: map<nat, Node>, start: Ram, first: nat, n: nat, pt: nat,
                  base: u64, m: u64, flags: nat, va: u64)
    requires Tree(ram, root, role) && PtOf(ram, root, m) == Some(pt) && pt in role
    requires base / 4096 == first + n < VPN_SPAN && m / 4096 == Masked(first + n)
    requires flags < 4096 && flags % 2 == 1 && ram' == Poke(ram, pt, Index1(base), Pte(first + n, flags))
    requires va < VA_SPAN ==> VirtToPhys(ram, root, va) == Translation(start, root, first, n, va)
    ensures Tree(ram', root, role)
    ensures PtOf(ram', root, va) == PtOf(ram, root, va) && SmallPath(ram', root, va) == SmallPath(ram, root, va)
    ensures va < VA_SPAN ==> VirtToPhys(ram', root, va) == Translation(start, root, first, n + 1, va)
  {
    MaskedIndices(base, m);
    LeafWalk(ram, ram', root, role, m, pt, first + n, flags, va);
    if va < VA_SPAN {
      SamePage(va, m);
      TranslationStep(start, root, first, n, va);
    }
  }

  lemma Missed(start: Ram, root: nat, first: nat, n: nat, v: u64)
    requires forall pn: nat | first <= pn < first + n :: Masked(pn) != v / 4096
    ensures Translation(start, root, first, n, v) == VirtToPhys(start, root, v)
  {
    var pn := first + LastHit(Landings(first, n, v / 4096)).GetOr(0);
    assert Masked(pn) <= pn;
  }

  /** A page with its entry at the page of v leaves v with its own address or that of a later such page. */
  lemma Landed(start: Ram, root: nat, first: nat, n: nat, v: u64, k: nat) returns (j: nat)
    requires k < n && Masked(first + k) == v / 4096
    ensures k <= j < n && Masked(first + j) == v / 4096
    ensures Translation(start, root, first, n, v) == Some(4096 * (first + j) + v % 4096)
  {
    assert Landings(first, n, v / 4096)[k];
    j := LastHit(Landings(first, n, v / 4096)).value;
  }

  /** The page 4 GiB above a page with a PDPT index below 4 has its entry in the same place; it is the next one. */
  lemma NextAlias(pn: nat)
    requires LowSlot(pn)
    ensures Masked(pn) == pn && Masked(pn + 0x10_0000) == pn && !LowSlot(pn + 0x10_0000)
  {
    assert (pn + 0x10_0000) / 0x4_0000 == pn / 0x4_0000 + 4;
  }

  lemma AliasesApart(a: nat, b: nat)
    requires a < b && Masked(a) == Masked(b)
    ensures b >= a + 0x10_0000
  {
    assert a % 0x10_0000 == b % 0x10_0000;
  }

  lemma SelfMappedLow(start: Ram, root: nat, first: nat, n: nat, va: u64, pn: nat)
    requires pn == va / 4096 && first <= pn < first + n && LowSlot(pn)
    ensures Translation(start, root, first, n, va) == Some(va) <==> pn + 0x10_0000 >= first + n
  {
    NextAlias(pn);
    var j := Landed(start, root, first, n, va, pn - first);
    if first + j > pn {
      AliasesApart(pn, first + j);
    }
    if pn + 0x10_0000 < first + n {
      var i := Landed(start, root, first, n, va, pn + 0x10_0000 - first);
    }
  }

  /** An address with a PDPT index below 4 whose next alias lies behind the range, or one with a higher index that
      translated to itself before. */
  predicate KeepsItself(start: Ram, root: nat, first: nat, n: nat, va: u64) {
    if Index3(va) < 4 then va / 4096 + 0x10_0000 >= first + n else VirtToPhys(start, root, va) == Some(va)
  }

  /** Exactly these addresses of the range come to translate to themselves. */
  lemma SelfMappedIff(start: Ram, root: nat, first: nat, n: nat, va: u64)
    requires first <= va / 4096 < first + n <= VPN_SPAN
    ensures Translation(start, root, first, n, va) == Some(va) <==> KeepsItself(start, root, first, n, va)
  {
    PageIndices(va);
    if Index3(va) < 4 {
      SelfMappedLow(start, root, first, n, va, va / 4096);
    } else {
      forall pn: nat | first <= pn < first + n
        ensures Masked(pn) != va / 4096
      {
        MaskedLow(pn);
      }
      Missed(start, root, first, n, va);
    }
  }

  /** Every entry that the mapper writes is under one of the first four PDPT slots. */
  lemma MaskedLow(pn: nat)
    ensures LowSlot(Masked(pn))
  {
    var q := pn / 0x4_0000;
    SlotsBelow(pn, q % 512 / 4 * 4);
    LowBits(q);
  }

  lemma SlotsBelow(pn: nat, t: nat)
    requires t <= pn / 0x4_0000
    ensures (pn - 0x4_0000 * t) / 0x4_0000 == pn / 0x4_0000 - t
  {
  }

  lemma LowBits(q: nat)
    ensures (q - q % 512 / 4 * 4) % 512 < 4
  {
    var r := q % 512;
    assert q - r / 4 * 4 == 512 * (q / 512) + r % 4;
  }

  /** So, of a memory in which the range has been entered: each of its addresses, and the range as a whole. */
  lemma RangeSelfMappedIff(start: Ram, now: Ram, root: nat, first: nat, n: nat)
    requires first + n <= VPN_SPAN
    requires forall v: u64 | v < VA_SPAN :: VirtToPhys(now, root, v) == Translation(start, root, first, n, v)
    ensures forall va: u64 | first <= va / 4096 < first + n ::
              VirtToPhys(now, root, va) == Some(va) <==> KeepsItself(start, root, first, n, va)
    ensures (forall va: u64 | first <= va / 4096 < first + n :: VirtToPhys(now, root, va) == Some(va)) <==>
            (forall va: u64 | first <= va / 4096 < first + n :: KeepsItself(start, root, first, n, va))
  {
    forall va: u64 | first <= va / 4096 < first + n
      ensures VirtToPhys(now, root, va) == Some(va) <==> KeepsItself(start, root, first, n, va)
    {
      PageBound(va);
      SelfMappedIff(start, root, first, n, va);
    }
  }

  /** With every PDPT index below 4 the range is mapped to itself and nothing else changes. */
  lemma LowRange(start: Ram, root: nat, first: nat, n: nat, v: u64)
    requires first + n <= VPN_SPAN && v / 4096 < VPN_SPAN
    requires forall pn: nat | first <= pn < first + n :: LowSlot(pn)
    ensures Translation(start, root, first, n, v)
         == if first <= v / 4096 < first + n then Some(v) else VirtToPhys(start, root, v)
  {
    var pn := v / 4096;
    PageIndices(v);
    if first <= pn < first + n {
      NextAlias(pn);
      SelfMappedIff(start, root, first, n, v);
    } else {
      forall q: nat | first <= q < first + n
        ensures Masked(q) != pn
      {
        NextAlias(q);
      }
      Missed(start, root, first, n, v);
    }
  }
}
