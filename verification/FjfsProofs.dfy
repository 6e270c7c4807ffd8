/** What FJFS promises: it refines a map from truncated names to contents, and every write is crash-atomic. */
module FjfsProofs {
  import opened Bytes
  import opened FjfsLayout

  /** Entry e owns whole clusters inside the volume, all marked in bm. */
  ghost predicate EntryOk(e: DirEntry, bm: Sector) {
    && e.size <= MAX_FILE
    && e.firstCluster + Clusters(e.size) <= TOTAL_CLUSTERS
    && forall c: nat | e.firstCluster <= c < e.firstCluster + Clusters(e.size) :: BitAt(bm.bytes, c)
  }

  ghost predicate Disjoint(e: DirEntry, f: DirEntry) {
    || e.firstCluster + Clusters(e.size) <= f.firstCluster
    || f.firstCluster + Clusters(f.size) <= e.firstCluster
  }

  /** Used slots form a prefix, carry distinct names and own disjoint marked runs; free slots have no name. */
  ghost predicate RootOk(root: Root, bm: Sector) {
    && (forall i | 0 <= i < 32 && root[i].size == 0 :: root[i].name == NoName())
    && (forall i, j | 0 <= i < j < 32 && root[j].size > 0 :: root[i].size > 0)
    && (forall i | 0 <= i < 32 && root[i].size > 0 :: EntryOk(root[i], bm))
    && (forall i, j | 0 <= i < j < 32 && root[i].size > 0 && root[j].size > 0 ::
          root[i].name != root[j].name && Disjoint(root[i], root[j]))
  }

  ghost predicate Subset(a: Sector, b: Sector) {
    forall c: nat | c < TOTAL_CLUSTERS :: BitAt(a.bytes, c) ==> BitAt(b.bytes, c)
  }

  /** Memory bitmap covers disk bitmap covers the clusters of the root directory. */
  ghost predicate Inv(v: Vol) {
    && |v.disk| >= MIN_SECTORS
    && HasMagic(v.disk)
    && v.root == RootOf(v.disk)
    && RootOk(v.root, v.disk[1])
    && Subset(v.disk[1], v.bitmap)
  }

  /** What `read_file` finds under a formatted name. */
  ghost function Read(v: Vol, n: Name): Option<seq<byte>>
    requires Inv(v)
  {
    match FindUsed(v.root, n, 0)
    case None => None
    case Some(i) => Some(Content(v.disk, v.root[i]))
  }

  ghost predicate DistinctNames(root: Root) {
    forall i, j | 0 <= i < j < 32 && root[i].size > 0 && root[j].size > 0 :: root[i].name != root[j].name
  }

  /** With distinct names the entry found is the only one with that name. */
  lemma FindUsedUnique(root: Root, n: Name, i: nat)
    requires DistinctNames(root) && i < 32 && root[i].size > 0 && root[i].name == n
    ensures FindUsed(root, n, 0) == Some(i)
  {
    assert FindUsed(root, n, 0).Some?;
  }

  // ---- the data phase: no file's bytes move ----

  /** Two media agree on the data area outside the sectors of clusters [first, first + n). */
  ghost predicate SameOutside(d: seq<Sector>, e: seq<Sector>, first: nat, n: nat) {
    && |d| == |e| >= MIN_SECTORS
    && forall lba: nat | 4 <= lba < |d| && !(DATA_LBA + 4 * first <= lba < DATA_LBA + 4 * (first + n)) ::
         d[lba] == e[lba]
  }

  /** A used entry's contents survive writes to clusters that its bitmap calls free. */
  lemma ContentFrame(d: seq<Sector>, e: seq<Sector>, entry: DirEntry, bm: Sector, mem: Sector, first: nat, n: nat)
    requires SameOutside(d, e, first, n)
    requires EntryOk(entry, bm) && entry.size > 0 && Subset(bm, mem) && RunFree(mem, first, n) && n > 0
    ensures entry.firstCluster + Clusters(entry.size) <= first || first + n <= entry.firstCluster
    ensures Content(d, entry) == Content(e, entry)
  {
    var fc, k := entry.firstCluster, Clusters(entry.size);
    var c := if fc <= first then first else fc;
    assert c < TOTAL_CLUSTERS ==> BitAt(bm.bytes, c) ==> BitAt(mem.bytes, c);
    forall i | 0 <= i < entry.size
      ensures d[DATA_LBA + 4 * fc + i / 512] == e[DATA_LBA + 4 * fc + i / 512]
    {
    }
  }

  /** The clusters of e hold the sectors of data. */
  ghost predicate Holds(d: seq<Sector>, e: DirEntry, data: seq<byte>) {
    && |d| >= MIN_SECTORS && e.firstCluster + Clusters(|data|) <= TOTAL_CLUSTERS
    && forall i: nat | i < 4 * Clusters(|data|) ::
         d[DATA_LBA + 4 * e.firstCluster + i] == DataSector(data, i)
  }

  /** After the data phase the fresh clusters hold exactly the data. */
  lemma FreshContent(d: seq<Sector>, e: DirEntry, data: seq<byte>)
    requires 0 < |data| <= MAX_FILE && e.size == |data| && Holds(d, e, data)
    ensures Content(d, e) == data
  {
    forall i | 0 <= i < |data|
      ensures Content(d, e)[i] == data[i]
    {
      assert i / 512 < 4 * Clusters(|data|);
      assert d[DATA_LBA + 4 * e.firstCluster + i / 512] == DataSector(data, i / 512);
      assert 512 * (i / 512) + i % 512 == i;
    }
  }

  // ---- one write, stopped after any sector ----

  /** Index in the plan just after the root sector that holds slot s reached the medium. */
  function CommitPoint(size: nat, s: nat): nat {
    4 * Clusters(size) + 2 + s / 16
  }

  /** The data phase leaves every sector outside the fresh run alone. */
  lemma DataStage(disk: seq<Sector>, first: nat, data: seq<byte>, k: nat)
    requires |disk| >= MIN_SECTORS && first + Clusters(|data|) <= TOTAL_CLUSTERS && k <= 4 * Clusters(|data|)
    ensures var p := DataPlan(first, data, k);
            && InRange(disk, p)
            && SameOutside(disk, Apply(disk, p), first, Clusters(|data|))
            && Apply(disk, p)[..4] == disk[..4]
  {
    var p := DataPlan(first, data, k);
    forall lba: nat | lba < |disk| && !(DATA_LBA + 4 * first <= lba < DATA_LBA + 4 * (first + Clusters(|data|)))
      ensures Apply(disk, p)[lba] == disk[lba]
    {
      ApplyFrame(disk, p, lba);
    }
  }

  lemma DataHit(disk: seq<Sector>, first: nat, data: seq<byte>, t: nat, i: nat)
    requires InRange(disk, DataPlan(first, data, t)) && i < t && DATA_LBA + 4 * first + i < |disk|
    ensures Apply(disk, DataPlan(first, data, t))[DATA_LBA + 4 * first + i] == DataSector(data, i)
  {
    ApplyHit(disk, DataPlan(first, data, t), i);
  }

  lemma DataDone(disk: seq<Sector>, e: DirEntry, data: seq<byte>, t: nat, d: seq<Sector>)
    requires |disk| >= MIN_SECTORS && e.firstCluster + Clusters(|data|) <= TOTAL_CLUSTERS
    requires t == 4 * Clusters(|data|) && InRange(disk, DataPlan(e.firstCluster, data, t))
    requires d == Apply(disk, DataPlan(e.firstCluster, data, t))
    ensures Holds(d, e, data)
  {
    forall i: nat | i < t
      ensures d[DATA_LBA + 4 * e.firstCluster + i] == DataSector(data, i)
    {
      DataHit(disk, e.firstCluster, data, t, i);
    }
  }

  /** The medium d after the first j writes of the bitmap and the two root sectors. */
  ghost function MetaDone(d: seq<Sector>, bm: Sector, root: Root, j: nat): (r: seq<Sector>)
    requires |d| >= MIN_SECTORS
    ensures |r| == |d|
  {
    if j == 0 then d
    else if j == 1 then d[1 := bm]
    else if j == 2 then d[1 := bm][2 := EncodeSector(root[..16])]
    else d[1 := bm][2 := EncodeSector(root[..16])][3 := EncodeSector(root[16..])]
  }

  /** The medium after k sector writes of a successful plan, phase by phase. */
  ghost function Staged(disk: seq<Sector>, bm: Sector, root: Root, first: nat, data: seq<byte>, k: nat): seq<Sector>
    requires |disk| >= MIN_SECTORS && first + Clusters(|data|) <= TOTAL_CLUSTERS
  {
    var t := 4 * Clusters(|data|);
    var i := if k <= t then k else t;
    DataStage(disk, first, data, i);
    MetaDone(Apply(disk, DataPlan(first, data, i)), bm, root, k - i)
  }

  lemma DataPlanPrefix(first: nat, data: seq<byte>, t: nat, k: nat)
    requires k <= t
    ensures DataPlan(first, data, t)[..k] == DataPlan(first, data, k)
  {
  }

  lemma {:induction false} PlanStages(disk: seq<Sector>, bm: Sector, root: Root, first: nat, data: seq<byte>,
                                      p: seq<SectorWrite>)
    requires |disk| >= MIN_SECTORS && first + Clusters(|data|) <= TOTAL_CLUSTERS
    requires p <= FilePlan(bm, root, first, data)
    ensures InRange(disk, p) && Apply(disk, p) == Staged(disk, bm, root, first, data, |p|)
  {
    var t, k := 4 * Clusters(|data|), |p|;
    if k <= t {
      DataPlanPrefix(first, data, t, k);
      assert p == DataPlan(first, data, t)[..k];
      DataStage(disk, first, data, k);
    } else {
      PlanStages(disk, bm, root, first, data, p[..k - 1]);
      assert p[k - 1] == MetaPlan(bm, root)[k - 1 - t];
    }
  }

  /** Rewriting slot s touches one of the two root sectors, so the directory flips at that sector. */
  lemma RootFlips(d: seq<Sector>, root': Root, s: nat, e: DirEntry)
    requires |d| >= MIN_SECTORS && s < 32 && root' == RootOf(d)[s := e]
    ensures var half := d[2 := EncodeSector(root'[..16])];
            && RootOf(half) == (if s < 16 then root' else RootOf(d))
            && RootOf(half[3 := EncodeSector(root'[16..])]) == root'
  {
    SectorRoundTrip(root'[..16]);
    SectorRoundTrip(root'[16..]);
    var root := RootOf(d);
    assert root[..16] == DecodeSector(d[2]) && root[16..] == DecodeSector(d[3]);
    assert if s < 16 then root'[16..] == root[16..] else root'[..16] == root[..16];
    assert root' == root'[..16] + root'[16..];
  }

  /** The slot that `write_file` picks is the file's own, or the first free one. */
  lemma SlotChoice(root: Root, bm: Sector, n: Name)
    requires RootOk(root, bm)
    ensures match SlotFor(root, n)
            case None => (forall i | 0 <= i < 32 :: root[i].size > 0 && root[i].name != n)
            case Some(s) =>
              && (forall i | 0 <= i < 32 && i != s && root[i].size > 0 :: root[i].name != n)
              && (forall i | 0 <= i < s :: root[i].size > 0)
              && (root[s].size > 0 ==> root[s].name == n)
  {
    match FindName(root, n, 0)
    case None =>
    case Some(s) =>
      assert root[s].size == 0 ==> forall i | 0 <= i < s :: root[i].size > 0 by {
        forall i | 0 <= i < s && root[s].size == 0
          ensures root[i].size > 0
        {
          assert root[i].name != root[s].name;
        }
      }
  }

  /** A fresh run is disjoint from every file on the medium, whose clusters stay marked. */
  lemma FreshRun(f: DirEntry, e: DirEntry, disk1: Sector, mem: Sector)
    requires EntryOk(f, disk1) && f.size > 0 && Subset(disk1, mem)
    requires 0 < e.size <= MAX_FILE && RunFree(mem, e.firstCluster, Clusters(e.size))
    ensures var bm := MarkRun(mem, e.firstCluster, Clusters(e.size));
            EntryOk(f, bm) && EntryOk(e, bm) && Disjoint(f, e) && Disjoint(e, f)
  {
    var c := if f.firstCluster <= e.firstCluster then e.firstCluster else f.firstCluster;
    assert c < TOTAL_CLUSTERS ==> BitAt(disk1.bytes, c) ==> BitAt(mem.bytes, c);
    forall d: nat | f.firstCluster <= d < f.firstCluster + Clusters(f.size)
      ensures BitAt(MarkRun(mem, e.firstCluster, Clusters(e.size)).bytes, d)
    {
      assert BitAt(disk1.bytes, d);
    }
  }

  /** Filling the chosen slot keeps the directory well formed if the new entry is. */
  lemma RootUpdate(root: Root, disk1: Sector, bm: Sector, n: Name, s: nat, e: DirEntry)
    requires RootOk(root, disk1) && SlotFor(root, n) == Some(s)
    requires e.name == n && e.size > 0 && EntryOk(e, bm)
    requires forall i | 0 <= i < 32 && root[i].size > 0 ::
               EntryOk(root[i], bm) && Disjoint(root[i], e) && Disjoint(e, root[i])
    ensures RootOk(root[s := e], bm)
  {
    SlotChoice(root, disk1, n);
    var root' := root[s := e];
    forall i, j | 0 <= i < j < 32 && root'[j].size > 0
      ensures root'[i].size > 0
    {
      if j == s { assert root[i].size > 0; }
    }
    forall i, j | 0 <= i < j < 32 && root'[i].size > 0 && root'[j].size > 0
      ensures root'[i].name != root'[j].name && Disjoint(root'[i], root'[j])
    {
      if i != s && j != s { assert root[i].name != root[j].name; }
    }
  }

  lemma RootOkStep(root: Root, disk1: Sector, mem: Sector, n: Name, s: nat, e: DirEntry)
    requires RootOk(root, disk1) && Subset(disk1, mem) && SlotFor(root, n) == Some(s)
    requires e.name == n && 0 < e.size <= MAX_FILE && RunFree(mem, e.firstCluster, Clusters(e.size))
    ensures RootOk(root[s := e], MarkRun(mem, e.firstCluster, Clusters(e.size)))
  {
    var bm := MarkRun(mem, e.firstCluster, Clusters(e.size));
    assert EntryOk(e, bm);
    forall i | 0 <= i < 32 && root[i].size > 0
      ensures EntryOk(root[i], bm) && Disjoint(root[i], e) && Disjoint(e, root[i])
    {
      FreshRun(root[i], e, disk1, mem);
    }
    RootUpdate(root, disk1, bm, n, s, e);
  }

  /** A directory that did not change reads as before, whatever happened in free clusters. */
  lemma ReadKept(v: Vol, w: Vol, m: Name, first: nat, n: nat)
    requires Inv(v) && Inv(w) && n > 0
    requires SameOutside(v.disk, w.disk, first, n) && RunFree(v.bitmap, first, n)
    requires FindUsed(w.root, m, 0) == FindUsed(v.root, m, 0)
    requires FindUsed(v.root, m, 0).Some? ==> var i := FindUsed(v.root, m, 0).value; w.root[i] == v.root[i]
    ensures Read(w, m) == Read(v, m)
  {
    match FindUsed(v.root, m, 0)
    case None =>
    case Some(i) => ContentFrame(v.disk, w.disk, v.root[i], v.disk[1], v.bitmap, first, n);
  }

  /** The new entry answers for its name; every other name still leads where it led. */
  lemma FindUsedAfter(root: Root, n: Name, s: nat, e: DirEntry, m: Name)
    requires s < 32 && DistinctNames(root[s := e]) && (root[s].size > 0 ==> root[s].name == n)
    requires e.name == n && e.size > 0
    ensures FindUsed(root[s := e], m, 0) == if m == n then Some(s) else FindUsed(root, m, 0)
    ensures m != n && FindUsed(root, m, 0).Some? ==> FindUsed(root, m, 0).value != s
  {
    var root' := root[s := e];
    if m == n {
      FindUsedUnique(root', n, s);
    } else if FindUsed(root, m, 0).Some? {
      FindUsedUnique(root', m, FindUsed(root, m, 0).value);
    } else {
      assert forall j | 0 <= j < 32 :: root'[j].name != m || root'[j].size == 0;
    }
  }

  /** Once the new directory is on the medium the file reads as new and every other file as before. */
  lemma ReadCommitted(v: Vol, w: Vol, m: Name, n: Name, s: nat, e: DirEntry, data: seq<byte>)
    requires Inv(v) && Inv(w) && SlotFor(v.root, n) == Some(s) && w.root == v.root[s := e]
    requires 0 < |data| <= MAX_FILE && e.name == n && e.size == |data|
    requires RunFree(v.bitmap, e.firstCluster, Clusters(|data|))
    requires SameOutside(v.disk, w.disk, e.firstCluster, Clusters(|data|))
    requires Holds(w.disk, e, data)
    ensures Read(w, m) == if m == n then Some(data) else Read(v, m)
  {
    SlotChoice(v.root, v.disk[1], n);
    FindUsedAfter(v.root, n, s, e, m);
    if m == n {
      FreshContent(w.disk, e, data);
    } else {
      ReadKept(v, w, m, e.firstCluster, Clusters(|data|));
    }
  }

  lemma MonotoneRoot(root: Root, disk1: Sector, mem: Sector, first: nat, n: nat)
    requires RootOk(root, disk1) && Subset(disk1, mem) && first + n <= TOTAL_CLUSTERS
    ensures RootOk(root, MarkRun(mem, first, n))
    ensures Subset(mem, MarkRun(mem, first, n))
  {
    var bm := MarkRun(mem, first, n);
    forall i | 0 <= i < 32 && root[i].size > 0
      ensures EntryOk(root[i], bm)
    {
      assert EntryOk(root[i], disk1);
      forall c: nat | root[i].firstCluster <= c < root[i].firstCluster + Clusters(root[i].size)
        ensures BitAt(bm.bytes, c)
      {
        assert BitAt(disk1.bytes, c);
      }
    }
  }

  /** What mounting sees of a medium on which a write was cut: the new directory, or still the old one. */
  ghost predicate Torn(v: Vol, d: seq<Sector>, bm: Sector, s: nat, e: DirEntry, data: seq<byte>, committed: bool) {
    && s < 32 && |v.disk| >= MIN_SECTORS
    && SameOutside(v.disk, d, e.firstCluster, Clusters(|data|))
    && d[0] == v.disk[0]
    && (if committed then d[1] == bm && RootOf(d) == v.root[s := e] && Holds(d, e, data)
        else (d[1] == bm || d[1] == v.disk[1]) && RootOf(d) == v.root)
  }

  lemma TornData(v: Vol, bm: Sector, data: seq<byte>, s: nat, e: DirEntry, k: nat)
    requires |v.disk| >= MIN_SECTORS && v.root == RootOf(v.disk) && s < 32 && k <= 4 * Clusters(|data|)
    requires e.firstCluster + Clusters(|data|) <= TOTAL_CLUSTERS
    ensures var p := DataPlan(e.firstCluster, data, k);
            && InRange(v.disk, p) && Torn(v, Apply(v.disk, p), bm, s, e, data, false)
            && Apply(v.disk, p)[1] == v.disk[1]
  {
    DataStage(v.disk, e.firstCluster, data, k);
    var d := Apply(v.disk, DataPlan(e.firstCluster, data, k));
    assert d[0] == d[..4][0] && d[1] == d[..4][1] && d[2] == d[..4][2] && d[3] == d[..4][3];
  }

  lemma MetaFrame(disk: seq<Sector>, d: seq<Sector>, bm: Sector, root: Root, e: DirEntry, data: seq<byte>, j: nat)
    requires SameOutside(disk, d, e.firstCluster, Clusters(|data|)) && Holds(d, e, data)
    ensures SameOutside(disk, MetaDone(d, bm, root, j), e.firstCluster, Clusters(|data|))
    ensures Holds(MetaDone(d, bm, root, j), e, data)
    ensures MetaDone(d, bm, root, j)[0] == d[0]
    ensures MetaDone(d, bm, root, j)[1] == if j == 0 then d[1] else bm
  {
    var r := MetaDone(d, bm, root, j);
    assert forall lba | 4 <= lba < |d| :: r[lba] == d[lba];
  }

  lemma TornMeta(v: Vol, d: seq<Sector>, bm: Sector, root': Root, data: seq<byte>, s: nat, e: DirEntry, j: nat)
    requires Torn(v, d, bm, s, e, data, false) && Holds(d, e, data) && d[1] == v.disk[1]
    requires root' == v.root[s := e]
    ensures Torn(v, MetaDone(d, bm, root', j), bm, s, e, data, j >= 2 + s / 16)
  {
    MetaFrame(v.disk, d, bm, root', e, data, j);
    if j > 0 { RootFlips(d[1 := bm], root', s, e); }
  }

  lemma TornStages(v: Vol, bm: Sector, root': Root, data: seq<byte>, s: nat, e: DirEntry, k: nat)
    requires |v.disk| >= MIN_SECTORS && v.root == RootOf(v.disk) && s < 32 && root' == v.root[s := e]
    requires e.firstCluster + Clusters(|data|) <= TOTAL_CLUSTERS
    ensures Torn(v, Staged(v.disk, bm, root', e.firstCluster, data, k), bm, s, e, data,
                 k >= CommitPoint(|data|, s))
  {
    var t := 4 * Clusters(|data|);
    if k <= t {
      TornData(v, bm, data, s, e, k);
    } else {
      TornData(v, bm, data, s, e, t);
      var d := Apply(v.disk, DataPlan(e.firstCluster, data, t));
      DataDone(v.disk, e, data, t, d);
      TornMeta(v, d, bm, root', data, s, e, k - t);
    }
  }

  lemma TornInv(v: Vol, d: seq<Sector>, bm: Sector, n: Name, s: nat, e: DirEntry, data: seq<byte>, c: bool)
    requires Inv(v) && Torn(v, d, bm, s, e, data, c) && SlotFor(v.root, n) == Some(s)
    requires RunFree(v.bitmap, e.firstCluster, Clusters(e.size))
    requires bm == MarkRun(v.bitmap, e.firstCluster, Clusters(e.size))
    requires e.name == n && e.size == |data| && 0 < e.size <= MAX_FILE
    ensures Inv(Mount(d)) && Mount(d).disk == d && Mount(d).root == RootOf(d)
  {
    MonotoneRoot(v.root, v.disk[1], v.bitmap, e.firstCluster, Clusters(e.size));
    RootOkStep(v.root, v.disk[1], v.bitmap, n, s, e);
  }

  lemma TornRead(v: Vol, d: seq<Sector>, bm: Sector, n: Name, s: nat, e: DirEntry, data: seq<byte>, c: bool, m: Name)
    requires Inv(v) && Torn(v, d, bm, s, e, data, c) && SlotFor(v.root, n) == Some(s)
    requires RunFree(v.bitmap, e.firstCluster, Clusters(e.size))
    requires bm == MarkRun(v.bitmap, e.firstCluster, Clusters(e.size))
    requires e.name == n && e.size == |data| && 0 < e.size <= MAX_FILE
    ensures Inv(Mount(d))
    ensures Read(Mount(d), m) == if m == n && c then Some(data) else Read(v, m)
  {
    TornInv(v, d, bm, n, s, e, data, c);
    if c {
      ReadCommitted(v, Mount(d), m, n, s, e, data);
    } else {
      ReadKept(v, Mount(d), m, e.firstCluster, Clusters(|data|));
    }
  }

  /** A successful write, cut anywhere. */
  lemma CrashOnSuccess(v: Vol, n: Name, data: seq<byte>, first: nat, p: seq<SectorWrite>, m: Name)
    requires Inv(v) && 0 < |data| <= MAX_FILE && RunFree(v.bitmap, first, Clusters(|data|))
    requires SlotFor(v.root, n).Some? && p <= WriteAt(v, n, data, first).plan
    ensures InRange(v.disk, p) && Inv(Mount(Apply(v.disk, p)))
    ensures Read(Mount(Apply(v.disk, p)), m)
         == if m == n && |p| >= CommitPoint(|data|, SlotFor(v.root, n).value) then Some(data) else Read(v, m)
  {
    var s := SlotFor(v.root, n).value;
    var e := NewEntry(v.root[s], n, |data|, first);
    var bm := MarkRun(v.bitmap, first, Clusters(|data|));
    PlanStages(v.disk, bm, v.root[s := e], first, data, p);
    TornStages(v, bm, v.root[s := e], data, s, e, |p|);
    TornRead(v, Apply(v.disk, p), bm, n, s, e, data, |p| >= CommitPoint(|data|, s), m);
  }

  /** A write that finds the directory full only scribbles on free clusters. */
  lemma CrashOnFullRoot(v: Vol, data: seq<byte>, first: nat, p: seq<SectorWrite>, m: Name)
    requires Inv(v) && 0 < |data| <= MAX_FILE && RunFree(v.bitmap, first, Clusters(|data|))
    requires p <= DataPlan(first, data, 4 * Clusters(|data|))
    ensures InRange(v.disk, p) && Inv(Mount(Apply(v.disk, p)))
    ensures Read(Mount(Apply(v.disk, p)), m) == Read(v, m)
  {
    var c := Clusters(|data|);
    forall lba: nat | lba < |v.disk| && !(DATA_LBA + 4 * first <= lba < DATA_LBA + 4 * (first + c))
      ensures Apply(v.disk, p)[lba] == v.disk[lba]
    {
      ApplyFrame(v.disk, p, lba);
    }
    var d := Apply(v.disk, p);
    assert SameOutside(v.disk, d, first, c);
    assert d[0] == v.disk[0] && d[1] == v.disk[1] && d[2] == v.disk[2] && d[3] == v.disk[3];
    SameMeta(v, d, first, c, m);
  }

  lemma SameMeta(v: Vol, d: seq<Sector>, first: nat, n: nat, m: Name)
    requires Inv(v) && SameOutside(v.disk, d, first, n) && RunFree(v.bitmap, first, n) && n > 0
    requires d[0] == v.disk[0] && d[1] == v.disk[1] && d[2] == v.disk[2] && d[3] == v.disk[3]
    ensures Inv(Mount(d)) && Read(Mount(d), m) == Read(v, m)
  {
    assert Mount(d) == Vol(d, v.disk[1], v.root);
    ReadKept(v, Mount(d), m, first, n);
  }

  // ---- the theorems ----

  /** FJFS refines a map from truncated names to contents: a write changes its own key or nothing. */
  lemma WriteRefinesMap(v: Vol, name: seq<byte>, data: seq<byte>, m: Name)
    requires Inv(v)
    ensures var o := WriteFile(v, name, data);
            && Inv(o.vol)
            && Read(o.vol, m) == if o.ok && m == FmtName(name) then Some(data) else Read(v, m)
  {
    var o := WriteFile(v, name, data);
    if o.plan != [] {
      var first := FirstFit(v.bitmap, Clusters(|data|)).value;
      if o.ok {
        CrashOnSuccess(v, FmtName(name), data, first, o.plan, m);
        WrittenVolume(v, FmtName(name), data, first);
        ReadInMemory(o.vol, m);
      } else {
        CrashOnFullRoot(v, data, first, o.plan, m);
        FullRootVolume(v, data, first);
        ReadInMemory(o.vol, m);
      }
    }
  }

  /** A volume whose tables match its medium reads as it would after mounting that medium. */
  lemma ReadInMemory(w: Vol, m: Name)
    requires |w.disk| >= MIN_SECTORS && Inv(Mount(w.disk)) && HasMagic(w.disk)
    requires RootOf(w.disk) == w.root && Subset(w.disk[1], w.bitmap)
    ensures Inv(w) && Read(w, m) == Read(Mount(w.disk), m)
  {
    assert Mount(w.disk).disk == w.disk && Mount(w.disk).root == w.root;
  }

  lemma FullRootVolume(v: Vol, data: seq<byte>, first: nat)
    requires Inv(v) && 0 < |data| <= MAX_FILE && RunFree(v.bitmap, first, Clusters(|data|))
    ensures var d := Apply(v.disk, DataPlan(first, data, 4 * Clusters(|data|)));
            && HasMagic(d) && RootOf(d) == v.root
            && Subset(d[1], MarkRun(v.bitmap, first, Clusters(|data|)))
  {
    DataStage(v.disk, first, data, 4 * Clusters(|data|));
    var d := Apply(v.disk, DataPlan(first, data, 4 * Clusters(|data|)));
    assert d[0] == d[..4][0] && d[1] == d[..4][1] && d[2] == d[..4][2] && d[3] == d[..4][3];
    MonotoneRoot(v.root, v.disk[1], v.bitmap, first, Clusters(|data|));
  }

  /** After a full write the medium's tables are the ones in memory. */
  lemma WrittenVolume(v: Vol, n: Name, data: seq<byte>, first: nat)
    requires Inv(v) && 0 < |data| <= MAX_FILE && RunFree(v.bitmap, first, Clusters(|data|))
    requires SlotFor(v.root, n).Some?
    ensures var o := WriteAt(v, n, data, first);
            && o.vol.disk[1] == o.vol.bitmap && RootOf(o.vol.disk) == o.vol.root && HasMagic(o.vol.disk)
  {
    var o, s := WriteAt(v, n, data, first), SlotFor(v.root, n).value;
    var e := NewEntry(v.root[s], n, |data|, first);
    PlanStages(v.disk, o.vol.bitmap, o.vol.root, first, data, o.plan);
    TornStages(v, o.vol.bitmap, o.vol.root, data, s, e, |o.plan|);
  }

  ghost predicate HasRun(bm: Sector, n: nat) {
    exists i: nat :: i < TOTAL_CLUSTERS && RunFree(bm, i, n)
  }

  /** `alloc_runs` fails only when no run of n free clusters exists. */
  lemma FirstFitIff(bm: Sector, n: nat)
    ensures FirstFit(bm, n).Some? <==> HasRun(bm, n)
  {
    if HasRun(bm, n) {
      assert FirstFitFrom(bm, n, 0).Some?;
    }
  }

  /** The directory has room for a file that it already lists, or for any file in a free slot. */
  ghost predicate HasRoom(root: Root, n: Name) {
    FindUsed(root, n, 0).Some? || exists s: nat :: s < 32 && root[s].size == 0
  }

  lemma SlotIff(root: Root, disk1: Sector, n: Name)
    requires RootOk(root, disk1)
    ensures SlotFor(root, n).Some? <==> HasRoom(root, n)
  {
    SlotChoice(root, disk1, n);
  }

  /** Exactly when a write succeeds. */
  lemma WriteSucceedsIff(v: Vol, name: seq<byte>, data: seq<byte>)
    requires Inv(v)
    ensures WriteFile(v, name, data).ok <==>
            1 <= |data| <= MAX_FILE && HasRun(v.bitmap, Clusters(|data|)) && HasRoom(v.root, FmtName(name))
  {
    SlotIff(v.root, v.disk[1], FmtName(name));
    FirstFitIff(v.bitmap, Clusters(|data|));
  }

  /** The event that makes a write durable: its root sector reaching the medium. */
  ghost predicate Commits(v: Vol, name: seq<byte>, data: seq<byte>, k: nat)
    requires Inv(v)
  {
    && WriteFile(v, name, data).ok
    && k >= CommitPoint(|data|, SlotFor(v.root, FmtName(name)).value)
  }

  /** The medium when power fails after k sector writes of a write. */
  ghost function Cut(v: Vol, name: seq<byte>, data: seq<byte>, k: nat): (d: seq<Sector>)
    requires |v.disk| >= MIN_SECTORS
    ensures |d| == |v.disk|
  {
    var p := WriteFile(v, name, data).plan;
    Apply(v.disk, if k <= |p| then p[..k] else p)
  }

  /** Crash atomicity: cut a write after any k sectors and mount again; every other file is untouched
      and the written one is wholly new or wholly as it was. */
  lemma CrashAtomicity(v: Vol, name: seq<byte>, data: seq<byte>, k: nat, m: Name)
    requires Inv(v)
    ensures Inv(Mount(Cut(v, name, data, k)))
    ensures Read(Mount(Cut(v, name, data, k)), m)
         == if m == FmtName(name) && Commits(v, name, data, k) then Some(data) else Read(v, m)
  {
    var o := WriteFile(v, name, data);
    var p := if k <= |o.plan| then o.plan[..k] else o.plan;
    if o.plan == [] {
      Remounts(v, m);
    } else {
      var first := FirstFit(v.bitmap, Clusters(|data|)).value;
      if o.ok {
        CrashOnSuccess(v, FmtName(name), data, first, p, m);
      } else {
        CrashOnFullRoot(v, data, first, p, m);
      }
    }
  }

  // ---- mounting and formatting ----

  lemma {:induction false} FormatStages(disk: seq<Sector>, k: nat)
    requires |disk| >= MIN_SECTORS && k <= 9
    ensures InRange(disk, FormatPlan()[..k])
    ensures var d := Apply(disk, FormatPlan()[..k]);
            && d[8..] == disk[8..]
            && (forall i: nat | i < 8 :: d[i] == if k == 9 && i == 0 then Superblock()
                                                 else if i < k then Blank() else disk[i])
  {
    if k > 0 {
      FormatStages(disk, k - 1);
      assert FormatPlan()[..k][..k - 1] == FormatPlan()[..k - 1];
    }
  }

  ghost function Formatted(disk: seq<Sector>): seq<Sector>
    requires |disk| >= MIN_SECTORS
  {
    [Superblock()] + seq(7, _ => Blank()) + disk[8..]
  }

  lemma FormatPlanEffect(disk: seq<Sector>)
    requires |disk| >= MIN_SECTORS
    ensures InRange(disk, FormatPlan()[..9])
    ensures Apply(disk, FormatPlan()[..9]) == Formatted(disk)
  {
    FormatStages(disk, 9);
    Assembled(disk, Apply(disk, FormatPlan()[..9]));
  }

  lemma Assembled(disk: seq<Sector>, d: seq<Sector>)
    requires |disk| == |d| >= MIN_SECTORS && d[8..] == disk[8..]
    requires forall i: nat | i < 8 :: d[i] == if i == 0 then Superblock() else Blank()
    ensures d == Formatted(disk)
  {
    assert d == d[..8] + d[8..];
    assert d[..8] == [Superblock()] + seq(7, _ => Blank());
  }

  lemma MountForeign(disk: seq<Sector>)
    requires |disk| >= MIN_SECTORS && !HasMagic(disk)
    ensures Mount(disk) == Vol(Formatted(disk), Blank(), RootOf(Formatted(disk)))
  {
    FormatPlanEffect(disk);
    assert FormatPlan()[..9] == FormatPlan();
  }

  /** Mounting a foreign medium formats it: an empty volume, with the data area left as it was. */
  lemma MountFormats(disk: seq<Sector>, m: Name)
    requires |disk| >= MIN_SECTORS && !HasMagic(disk)
    ensures Inv(Mount(disk)) && Read(Mount(disk), m) == None
    ensures Mount(disk).disk[8..] == disk[8..]
  {
    MountForeign(disk);
    BlankRoot();
    assert forall i | 0 <= i < 32 :: Mount(disk).root[i] == DecodeEntry(seq(32, _ => 0));
  }

  lemma BlankRoot()
    ensures var e := DecodeEntry(seq(32, _ => 0)); e.size == 0 && e.name == NoName()
    ensures DecodeSector(Blank()) == seq(16, _ => DecodeEntry(seq(32, _ => 0)))
  {
    var z: seq<byte> := seq(32, _ => 0);
    assert z[16..20] == LE(0, 4);
    FromLEofLE(0, 4);
    forall j | 0 <= j < 16
      ensures DecodeSector(Blank())[j] == DecodeEntry(z)
    {
      assert Blank().bytes[32 * j..32 * j + 32] == z;
    }
  }

  /** Until the superblock lands, a medium under formatting is still foreign. */
  lemma FormatCut(disk: seq<Sector>, k: nat)
    requires |disk| >= MIN_SECTORS && !HasMagic(disk) && k < 9
    ensures InRange(disk, FormatPlan()[..k])
    ensures var d := Apply(disk, FormatPlan()[..k]); !HasMagic(d) && d[8..] == disk[8..]
  {
    FormatStages(disk, k);
    assert Blank().bytes[..4][0] == 0;
  }

  lemma FormattedMounts(disk: seq<Sector>)
    requires |disk| >= MIN_SECTORS
    ensures Mount(Formatted(disk)) == Vol(Formatted(disk), Blank(), RootOf(Formatted(disk)))
  {
    assert Formatted(disk)[0] == Superblock();
  }

  /** Formatting may be cut anywhere: the next mount ends in the same volume. */
  lemma FormatRestartable(disk: seq<Sector>, d: seq<Sector>, k: nat)
    requires |disk| >= MIN_SECTORS && !HasMagic(disk) && k <= 9
    requires InRange(disk, FormatPlan()[..k]) && d == Apply(disk, FormatPlan()[..k])
    ensures Mount(d) == Mount(disk)
  {
    MountForeign(disk);
    if k == 9 {
      FormatPlanEffect(disk);
      FormattedMounts(disk);
    } else {
      FormatCut(disk, k);
      MountForeign(d);
    }
  }

  lemma Remounts(v: Vol, m: Name)
    requires Inv(v)
    ensures Inv(Mount(v.disk)) && Read(Mount(v.disk), m) == Read(v, m)
  {
    assert Mount(v.disk).disk == v.disk;
  }

  // ---- whole runs ----

  datatype Event =
    | Write(name: seq<byte>, data: seq<byte>)
    | PowerCut(name: seq<byte>, data: seq<byte>, k: nat) // during a write, after k sectors; then mount
    | Remount

  ghost function Step(v: Vol, e: Event): Vol
    requires Inv(v)
  {
    match e
    case Write(name, data) => WriteFile(v, name, data).vol
    case PowerCut(name, data, k) => Mount(Cut(v, name, data, k))
    case Remount => Mount(v.disk)
  }

  ghost predicate Durable(v: Vol, e: Event)
    requires Inv(v)
  {
    match e
    case Write(name, data) => WriteFile(v, name, data).ok
    case PowerCut(name, data, k) => Commits(v, name, data, k)
    case Remount => false
  }

  lemma StepRefines(v: Vol, e: Event, m: Name)
    requires Inv(v)
    ensures Inv(Step(v, e))
    ensures Read(Step(v, e), m) == if Durable(v, e) && m == FmtName(e.name) then Some(e.data) else Read(v, m)
  {
    match e
    case Write(name, data) => WriteRefinesMap(v, name, data, m);
    case PowerCut(name, data, k) => CrashAtomicity(v, name, data, k, m);
    case Remount => Remounts(v, m);
  }

  ghost function Exec(v: Vol, es: seq<Event>): (w: Vol)
    requires Inv(v)
    ensures Inv(w)
  {
    if es == [] then v
    else
      var u := Exec(v, es[..|es| - 1]);
      StepRefines(u, es[|es| - 1], NoName());
      Step(u, es[|es| - 1])
  }

  /** The data of the last durable write to m, or what m held at the start. */
  ghost function LastDurable(v: Vol, es: seq<Event>, m: Name): Option<seq<byte>>
    requires Inv(v)
  {
    if es == [] then Read(v, m)
    else
      var e := es[|es| - 1];
      if Durable(Exec(v, es[..|es| - 1]), e) && m == FmtName(e.name) then Some(e.data)
      else LastDurable(v, es[..|es| - 1], m)
  }

  /** Over every run of writes, power cuts and remounts, a file reads as its last durable write. */
  lemma {:induction false} RunRefinesMap(v: Vol, es: seq<Event>, m: Name)
    requires Inv(v)
    ensures Read(Exec(v, es), m) == LastDurable(v, es, m)
  {
    if es != [] {
      RunRefinesMap(v, es[..|es| - 1], m);
      StepRefines(Exec(v, es[..|es| - 1]), es[|es| - 1], m);
    }
  }
}
