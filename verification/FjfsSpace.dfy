/** What FJFS writes cost: no cluster is ever given back, so a run has boundedly many durable writes. */
module FjfsSpace {
  import opened Bytes
  import opened FjfsLayout
  import opened FjfsProofs

  /** The clusters that a bitmap calls free. */
  ghost function FreeIn(bm: Sector): set<nat> {
    set c: nat | c < TOTAL_CLUSTERS && !BitAt(bm.bytes, c)
  }

  lemma {:induction false} SubsetSize(a: set<nat>, b: set<nat>)
    requires a <= b
    ensures |a| <= |b|
  {
    if a != {} {
      var x :| x in a;
      SubsetSize(a - {x}, b - {x});
    }
  }

  /** Marking a free run of n clusters takes n from the free ones. */
  lemma {:induction false} MarkUses(bm: Sector, i: nat, n: nat)
    requires RunFree(bm, i, n)
    ensures |FreeIn(MarkRun(bm, i, n))| + n == |FreeIn(bm)|
  {
    if n > 0 {
      MarkUses(bm, i, n - 1);
      var c := i + n - 1;
      assert !BitAt(bm.bytes, c);
      assert FreeIn(MarkRun(bm, i, n - 1)) == FreeIn(MarkRun(bm, i, n)) + {c};
    }
  }

  lemma MoreMarked(a: Sector, b: Sector)
    requires Subset(a, b)
    ensures |FreeIn(b)| <= |FreeIn(a)|
  {
    assert FreeIn(b) <= FreeIn(a);
    SubsetSize(FreeIn(b), FreeIn(a));
  }

  /** The bitmap in memory after a write: a run is taken when there is one, and a full directory does not give it back. */
  lemma WriteUses(v: Vol, name: seq<byte>, data: seq<byte>)
    requires Inv(v)
    ensures var o, c := WriteFile(v, name, data), Clusters(|data|);
            && (1 <= |data| <= MAX_FILE && HasRun(v.bitmap, c) ==>
                  c >= 1 && |FreeIn(o.vol.bitmap)| + c == |FreeIn(v.bitmap)|)
            && (!(1 <= |data| <= MAX_FILE && HasRun(v.bitmap, c)) ==> !o.ok && o.vol == v)
  {
    var c := Clusters(|data|);
    FirstFitIff(v.bitmap, c);
    if 1 <= |data| <= MAX_FILE && HasRun(v.bitmap, c) {
      MarkUses(v.bitmap, FirstFit(v.bitmap, c).value, c);
    }
  }

  /** A successful write, cut anywhere: the bitmap on the medium is memory's new one or the old one, and the new one
      once the entry is there; the superblock is not touched. */
  lemma CutSuccess(v: Vol, n: Name, data: seq<byte>, first: nat, p: seq<SectorWrite>)
    requires Inv(v) && 0 < |data| <= MAX_FILE && RunFree(v.bitmap, first, Clusters(|data|))
    requires SlotFor(v.root, n).Some? && p <= WriteAt(v, n, data, first).plan
    ensures InRange(v.disk, p)
    ensures var d, bm := Apply(v.disk, p), MarkRun(v.bitmap, first, Clusters(|data|));
            && d[0] == v.disk[0] && (d[1] == bm || d[1] == v.disk[1])
            && (|p| >= CommitPoint(|data|, SlotFor(v.root, n).value) ==> d[1] == bm)
  {
    var s := SlotFor(v.root, n).value;
    var e := NewEntry(v.root[s], n, |data|, first);
    var bm := MarkRun(v.bitmap, first, Clusters(|data|));
    PlanStages(v.disk, bm, v.root[s := e], first, data, p);
    TornStages(v, bm, v.root[s := e], data, s, e, |p|);
  }

  /** A write into a full directory leaves the tables on the medium alone. */
  lemma CutFull(v: Vol, data: seq<byte>, first: nat, p: seq<SectorWrite>)
    requires Inv(v) && first + Clusters(|data|) <= TOTAL_CLUSTERS && p <= DataPlan(first, data, 4 * Clusters(|data|))
    ensures InRange(v.disk, p) && Apply(v.disk, p)[0] == v.disk[0] && Apply(v.disk, p)[1] == v.disk[1]
  {
    ApplyFrame(v.disk, p, 0);
    ApplyFrame(v.disk, p, 1);
  }

  /** The same for every write that is cut. */
  lemma CutBitmap(v: Vol, name: seq<byte>, data: seq<byte>, k: nat, d: seq<Sector>)
    requires Inv(v) && d == Cut(v, name, data, k)
    ensures d[0] == v.disk[0] && (d[1] == WriteFile(v, name, data).vol.bitmap || d[1] == v.disk[1])
    ensures Commits(v, name, data, k) ==> d[1] == WriteFile(v, name, data).vol.bitmap
  {
    var o := WriteFile(v, name, data);
    var p := if k <= |o.plan| then o.plan[..k] else o.plan;
    if o.plan != [] {
      var first := FirstFit(v.bitmap, Clusters(|data|)).value;
      if o.ok {
        CutSuccess(v, FmtName(name), data, first, p);
      } else {
        CutFull(v, data, first, p);
      }
    }
  }

  ghost function Cost(v: Vol, e: Event): nat
    requires Inv(v)
  {
    if Durable(v, e) then Clusters(|e.data|) else 0
  }

  /** A durable write takes its clusters from the medium's free ones, and no step gives any back. */
  lemma StepUses(v: Vol, e: Event)
    requires Inv(v)
    ensures Inv(Step(v, e)) && |FreeIn(Step(v, e).disk[1])| + Cost(v, e) <= |FreeIn(v.disk[1])|
    ensures Durable(v, e) ==> Cost(v, e) >= 1
  {
    StepRefines(v, e, NoName());
    MoreMarked(v.disk[1], v.bitmap);
    match e
    case Write(name, data) =>
      WriteUses(v, name, data);
      var o := WriteFile(v, name, data);
      WholePlan(v, name, data);
      CutBitmap(v, name, data, |o.plan|, o.vol.disk);
    case PowerCut(name, data, k) =>
      WriteUses(v, name, data);
      CutBitmap(v, name, data, k, Cut(v, name, data, k));
      assert Mount(Cut(v, name, data, k)).disk == Cut(v, name, data, k);
    case Remount =>
  }

  /** A write that is not cut is durable exactly when it succeeds. */
  lemma WholePlan(v: Vol, name: seq<byte>, data: seq<byte>)
    requires Inv(v)
    ensures var o := WriteFile(v, name, data);
            Cut(v, name, data, |o.plan|) == o.vol.disk && (o.ok ==> Commits(v, name, data, |o.plan|))
  {
    var o := WriteFile(v, name, data);
    assert o.plan[..|o.plan|] == o.plan;
  }

  ghost function RunCost(v: Vol, es: seq<Event>): nat
    requires Inv(v)
  {
    if es == [] then 0
    else RunCost(v, es[..|es| - 1]) + Cost(Exec(v, es[..|es| - 1]), es[|es| - 1])
  }

  ghost function DurableWrites(v: Vol, es: seq<Event>): nat
    requires Inv(v)
  {
    if es == [] then 0
    else DurableWrites(v, es[..|es| - 1]) + if Durable(Exec(v, es[..|es| - 1]), es[|es| - 1]) then 1 else 0
  }

  /** Over every run of writes, power cuts and remounts: the durable writes, overwriting ones too, share the clusters
      that the medium called free at the start, so there are at most that many of them. */
  lemma {:induction false} RunSpace(v: Vol, es: seq<Event>)
    requires Inv(v)
    ensures RunCost(v, es) + |FreeIn(Exec(v, es).disk[1])| <= |FreeIn(v.disk[1])|
    ensures DurableWrites(v, es) <= RunCost(v, es)
  {
    if es != [] {
      RunSpace(v, es[..|es| - 1]);
      StepUses(Exec(v, es[..|es| - 1]), es[|es| - 1]);
    }
  }

  /** At most one for each of the 2048 clusters of a volume. */
  lemma FewWrites(v: Vol, es: seq<Event>)
    requires Inv(v)
    ensures DurableWrites(v, es) <= TOTAL_CLUSTERS
  {
    RunSpace(v, es);
    RangeSize(TOTAL_CLUSTERS);
    SubsetSize(FreeIn(v.disk[1]), set c: nat | c < TOTAL_CLUSTERS && InVolume(c));
  }

  predicate InVolume(c: nat) {
    c < TOTAL_CLUSTERS
  }

  lemma {:induction false} RangeSize(n: nat)
    requires n <= TOTAL_CLUSTERS
    ensures |set c: nat | c < n && InVolume(c)| == n
  {
    if n > 0 {
      RangeSize(n - 1);
      assert (set c: nat | c < n && InVolume(c)) == (set c: nat | c < n - 1 && InVolume(c)) + {n - 1};
    } else {
      assert (set c: nat | c < n && InVolume(c)) == {};
    }
  }
}
