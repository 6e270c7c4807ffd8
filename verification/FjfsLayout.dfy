/**
 The FJFS v0 volume on values: sectors, the directory layout, and the sector writes that
 mounting and `write_file` perform, in order.
 */
module FjfsLayout {
  import opened Bytes

  const CLUSTER_SECTORS := 4
  const CLUSTER_SIZE := 2048
  const TOTAL_CLUSTERS := 2048
  const DATA_LBA := 4
  const MAX_FILE := 65536
  /** Cluster 2047 ends on LBA 8195, past the 8192 sectors of a 4 MiB volume. */
  const MIN_SECTORS := 8196

  datatype Block = Block(bytes: seq<byte>)

  type Sector = s: Block | |s.bytes| == 512 witness Block(seq(512, _ => 0))

  type Name = s: seq<byte> | |s| == 16 witness seq(16, _ => 0)

  type Pad = s: seq<byte> | |s| == 7 witness seq(7, _ => 0)

  datatype DirEntry = DirEntry(name: Name, size: u32, firstCluster: u32, attr: byte, pad: Pad)

  type Root = r: seq<DirEntry> | |r| == 32
    witness seq(32, _ => DirEntry(seq(16, _ => 0), 0, 0, 0, seq(7, _ => 0)))

  /** The name of a slot that was never written. */
  function NoName(): Name {
    seq(16, _ => 0)
  }

  datatype SectorWrite = SectorWrite(lba: nat, data: Sector)

  /** The medium and the two tables that the driver keeps in memory. */
  datatype Vol = Vol(disk: seq<Sector>, bitmap: Sector, root: Root)

  // ---- the medium ----

  predicate InRange(disk: seq<Sector>, ws: seq<SectorWrite>) {
    forall i | 0 <= i < |ws| :: ws[i].lba < |disk|
  }

  function Apply(disk: seq<Sector>, ws: seq<SectorWrite>): (r: seq<Sector>)
    requires InRange(disk, ws)
    ensures |r| == |disk|
  {
    if ws == [] then disk
    else
      var last := ws[|ws| - 1];
      Apply(disk, ws[..|ws| - 1])[last.lba := last.data]
  }

  lemma Apply1(d: seq<Sector>, a: SectorWrite)
    requires a.lba < |d|
    ensures InRange(d, [a]) && Apply(d, [a]) == d[a.lba := a.data]
  {
    assert [a][..0] == [];
  }

  /** Consecutive sectors, as one transfer writes them. */
  function SegWrites(lba: nat, data: seq<Sector>): seq<SectorWrite> {
    seq(|data|, i requires 0 <= i < |data| => SectorWrite(lba + i, data[i]))
  }

  lemma {:induction false} ApplyAppend(disk: seq<Sector>, a: seq<SectorWrite>, b: seq<SectorWrite>)
    requires InRange(disk, a) && InRange(disk, b)
    ensures InRange(disk, a + b)
    ensures Apply(disk, a + b) == Apply(Apply(disk, a), b)
  {
    if b == [] {
      assert a + b == a;
    } else {
      ApplyAppend(disk, a, b[..|b| - 1]);
      assert (a + b)[..|a + b| - 1] == a + b[..|b| - 1];
    }
  }

  /** Sectors no write names keep their contents. */
  lemma {:induction false} ApplyFrame(disk: seq<Sector>, ws: seq<SectorWrite>, lba: nat)
    requires InRange(disk, ws) && lba < |disk|
    requires forall i | 0 <= i < |ws| :: ws[i].lba != lba
    ensures Apply(disk, ws)[lba] == disk[lba]
  {
    if ws != [] {
      ApplyFrame(disk, ws[..|ws| - 1], lba);
    }
  }

  /** A sector written once holds what was written. */
  lemma {:induction false} ApplyHit(disk: seq<Sector>, ws: seq<SectorWrite>, i: nat)
    requires InRange(disk, ws) && i < |ws|
    requires forall j | i < j < |ws| :: ws[j].lba != ws[i].lba
    ensures Apply(disk, ws)[ws[i].lba] == ws[i].data
  {
    if i < |ws| - 1 {
      ApplyHit(disk, ws[..|ws| - 1], i);
    }
  }

  // ---- directory entries: name[16] size[4] first_cluster[4] attr[1] pad[7] ----

  function EncodeEntry(e: DirEntry): (s: seq<byte>)
    ensures |s| == 32
  {
    e.name + LE(e.size, 4) + LE(e.firstCluster, 4) + [e.attr] + e.pad
  }

  function DecodeEntry(s: seq<byte>): (e: DirEntry)
    requires |s| == 32
  {
    RadixValues();
    DirEntry(s[..16], FromLE(s[16..20]), FromLE(s[20..24]), s[24], s[25..])
  }

  lemma EntryRoundTrip(e: DirEntry)
    ensures DecodeEntry(EncodeEntry(e)) == e
  {
    RadixValues();
    FromLEofLE(e.size, 4);
    FromLEofLE(e.firstCluster, 4);
    var s := EncodeEntry(e);
    assert s[..16] == e.name && s[16..20] == LE(e.size, 4) && s[20..24] == LE(e.firstCluster, 4);
    assert s[24] == e.attr && s[25..] == e.pad;
  }

  /** Sixteen entries fill one sector. */
  function EncodeSector(es: seq<DirEntry>): (s: Sector)
    requires |es| == 16
  {
    Block(seq(512, i requires 0 <= i < 512 => EncodeEntry(es[i / 32])[i % 32]))
  }

  function DecodeSector(s: Sector): (es: seq<DirEntry>)
    ensures |es| == 16
  {
    seq(16, j requires 0 <= j < 16 => DecodeEntry(s.bytes[32 * j..32 * j + 32]))
  }

  lemma SectorRoundTrip(es: seq<DirEntry>)
    requires |es| == 16
    ensures DecodeSector(EncodeSector(es)) == es
  {
    var s := EncodeSector(es);
    forall j | 0 <= j < 16
      ensures DecodeSector(s)[j] == es[j]
    {
      assert s.bytes[32 * j..32 * j + 32] == EncodeEntry(es[j]);
      EntryRoundTrip(es[j]);
    }
  }

  function RootOf(disk: seq<Sector>): Root
    requires |disk| >= MIN_SECTORS
  {
    DecodeSector(disk[2]) + DecodeSector(disk[3])
  }

  // ---- names ----

  function NameLen(n: seq<byte>): (k: nat)
    ensures k <= |n| && k <= 15
    ensures forall i | 0 <= i < k :: n[i] != 0
    ensures k == |n| || k == 15 || n[k] == 0
  {
    if n == [] || n[0] == 0 then 0
    else
      var k := NameLen(n[1..]);
      assert forall i | 0 < i < k + 1 :: n[i] == n[1..][i - 1];
      if k == 15 then 15 else k + 1
  }

  /** At most 15 bytes, cut at the first NUL, padded with NULs to 16. */
  function FmtName(n: seq<byte>): Name {
    n[..NameLen(n)] + seq(16 - NameLen(n), _ => 0)
  }

  lemma FmtNameShape(a: seq<byte>)
    ensures var f, k := FmtName(a), NameLen(a);
            f[..k] == a[..k] && f[k] == 0 && forall i | 0 <= i < k :: f[i] != 0
  {
  }

  /** Two names denote the same file exactly when their truncations agree. */
  lemma FmtNameInjective(a: seq<byte>, b: seq<byte>)
    ensures FmtName(a) == FmtName(b) <==> a[..NameLen(a)] == b[..NameLen(b)]
  {
    FmtNameShape(a);
    FmtNameShape(b);
    if FmtName(a) == FmtName(b) {
      assert NameLen(a) == NameLen(b);
    }
  }

  // ---- first-fit allocation of runs of clusters ----

  predicate RunFree(bm: Sector, i: nat, n: nat) {
    i + n <= TOTAL_CLUSTERS && forall c: nat | i <= c < i + n :: !BitAt(bm.bytes, c)
  }

  function FirstFitFrom(bm: Sector, n: nat, i: nat): (r: Option<nat>)
    ensures r.Some? ==> i <= r.value < TOTAL_CLUSTERS && RunFree(bm, r.value, n)
    ensures r.Some? ==> forall j: nat | i <= j < r.value :: !RunFree(bm, j, n)
    ensures r.None? ==> forall j: nat | i <= j < TOTAL_CLUSTERS :: !RunFree(bm, j, n)
    decreases TOTAL_CLUSTERS - i
  {
    if i >= TOTAL_CLUSTERS then None
    else if RunFree(bm, i, n) then Some(i)
    else FirstFitFrom(bm, n, i + 1)
  }

  function FirstFit(bm: Sector, n: nat): Option<nat> {
    FirstFitFrom(bm, n, 0)
  }

  function MarkRun(bm: Sector, i: nat, n: nat): (r: Sector)
    requires i + n <= TOTAL_CLUSTERS
    ensures forall c: nat | c < 4096 :: BitAt(r.bytes, c) <==> i <= c < i + n || BitAt(bm.bytes, c)
  {
    if n == 0 then bm else Block(SetBitAt(MarkRun(bm, i, n - 1).bytes, i + n - 1))
  }

  // ---- files ----

  function Clusters(size: nat): nat {
    (size + CLUSTER_SIZE - 1) / CLUSTER_SIZE
  }

  function DataSector(data: seq<byte>, t: nat): Sector {
    Block(seq(512, i requires 0 <= i < 512 => if 512 * t + i < |data| then data[512 * t + i] else 0))
  }

  /** The sectors of the first t sectors' worth of data, starting at cluster `first`. */
  function DataPlan(first: nat, data: seq<byte>, t: nat): (p: seq<SectorWrite>)
    ensures |p| == t
  {
    seq(t, i requires 0 <= i < t =>
      SectorWrite(DATA_LBA + CLUSTER_SECTORS * first + i, DataSector(data, i)))
  }

  /** First entry at or after i that satisfies the search of `write_file` or `lookup`. */
  function FindName(root: Root, n: Name, i: nat): (r: Option<nat>)
    ensures r.Some? ==> i <= r.value < 32 && root[r.value].name == n
    ensures r.Some? ==> forall j | i <= j < r.value :: root[j].name != n
    ensures r.None? ==> forall j | i <= j < 32 :: root[j].name != n
    decreases 32 - i
  {
    if i >= 32 then None else if root[i].name == n then Some(i) else FindName(root, n, i + 1)
  }

  function FindFree(root: Root, i: nat): (r: Option<nat>)
    ensures r.Some? ==> i <= r.value < 32 && root[r.value].size == 0
    ensures r.Some? ==> forall j | i <= j < r.value :: root[j].size > 0
    ensures r.None? ==> forall j | i <= j < 32 :: root[j].size > 0
    decreases 32 - i
  {
    if i >= 32 then None else if root[i].size == 0 then Some(i) else FindFree(root, i + 1)
  }

  function FindUsed(root: Root, n: Name, i: nat): (r: Option<nat>)
    ensures r.Some? ==> i <= r.value < 32 && root[r.value].name == n && root[r.value].size > 0
    ensures r.Some? ==> forall j | i <= j < r.value :: root[j].name != n || root[j].size == 0
    ensures r.None? ==> forall j | i <= j < 32 :: root[j].name != n || root[j].size == 0
    decreases 32 - i
  {
    if i >= 32 then None
    else if root[i].name == n && root[i].size > 0 then Some(i)
    else FindUsed(root, n, i + 1)
  }

  function SlotFor(root: Root, n: Name): Option<nat> {
    match FindName(root, n, 0)
    case Some(s) => Some(s)
    case None => FindFree(root, 0)
  }

  /** `lookup` and `read_file` without a length limit. */
  function Content(disk: seq<Sector>, e: DirEntry): seq<byte>
    requires DATA_LBA + CLUSTER_SECTORS * (e.firstCluster + Clusters(e.size)) <= |disk|
  {
    seq(e.size, i requires 0 <= i < e.size =>
      disk[DATA_LBA + CLUSTER_SECTORS * e.firstCluster + i / 512].bytes[i % 512])
  }

  // ---- write_file: data, then bitmap, then root ----

  datatype WriteOutcome = WriteOutcome(ok: bool, vol: Vol, plan: seq<SectorWrite>)

  function NewEntry(old_: DirEntry, n: Name, size: u32, first: u32): DirEntry {
    DirEntry(n, size, first, 0, old_.pad)
  }

  function MetaPlan(bm: Sector, root: Root): seq<SectorWrite> {
    [SectorWrite(1, bm), SectorWrite(2, EncodeSector(root[..16])), SectorWrite(3, EncodeSector(root[16..]))]
  }

  /** Everything that a successful write sends to the medium, in order. */
  function FilePlan(bm: Sector, root: Root, first: nat, data: seq<byte>): (p: seq<SectorWrite>)
    requires first + Clusters(|data|) <= TOTAL_CLUSTERS
    ensures forall i | 0 <= i < |p| :: p[i].lba < MIN_SECTORS
  {
    DataPlan(first, data, CLUSTER_SECTORS * Clusters(|data|)) + MetaPlan(bm, root)
  }

  function WriteAt(v: Vol, n: Name, data: seq<byte>, first: nat): (o: WriteOutcome)
    requires |v.disk| >= MIN_SECTORS && |data| <= MAX_FILE
    requires first + Clusters(|data|) <= TOTAL_CLUSTERS
    ensures InRange(v.disk, o.plan)
    ensures o.vol.disk == Apply(v.disk, o.plan)
  {
    var bm := MarkRun(v.bitmap, first, Clusters(|data|));
    match SlotFor(v.root, n)
    case None =>
      var plan := DataPlan(first, data, CLUSTER_SECTORS * Clusters(|data|));
      WriteOutcome(false, Vol(Apply(v.disk, plan), bm, v.root), plan)
    case Some(s) =>
      var root := v.root[s := NewEntry(v.root[s], n, |data|, first)];
      var plan := FilePlan(bm, root, first, data);
      WriteOutcome(true, Vol(Apply(v.disk, plan), bm, root), plan)
  }

  function WriteFile(v: Vol, name: seq<byte>, data: seq<byte>): (o: WriteOutcome)
    requires |v.disk| >= MIN_SECTORS
    ensures InRange(v.disk, o.plan)
    ensures o.vol.disk == Apply(v.disk, o.plan)
  {
    if |data| == 0 || |data| > MAX_FILE then WriteOutcome(false, v, [])
    else
      match FirstFit(v.bitmap, Clusters(|data|))
      case None => WriteOutcome(false, v, [])
      case Some(first) => WriteAt(v, FmtName(name), data, first)
  }

  // ---- mounting ----

  predicate HasMagic(disk: seq<Sector>)
    requires |disk| >= MIN_SECTORS
  {
    disk[0].bytes[..4] == [0x46, 0x4A, 0x46, 0x53] // "FJFS"
  }

  function Blank(): Sector {
    Block(seq(512, _ => 0))
  }

  /** "FJFS01", the cluster count, and the LBAs of the bitmap and the root directory. */
  function Superblock(): Sector {
    Block([0x46, 0x4A, 0x46, 0x53, 0x30, 0x31, 0, 0, 0x00, 0x08, 0x00, 0, 1, 0, 0, 0, 2] + seq(495, _ => 0))
  }

  function FormatPlan(): (p: seq<SectorWrite>)
    ensures |p| == 9
  {
    seq(8, i requires 0 <= i < 8 => SectorWrite(i, Blank())) + [SectorWrite(0, Superblock())]
  }

  function MountPlan(disk: seq<Sector>): (p: seq<SectorWrite>)
    requires |disk| >= MIN_SECTORS
    ensures InRange(disk, p)
  {
    if HasMagic(disk) then [] else FormatPlan()
  }

  function Mount(disk: seq<Sector>): (v: Vol)
    requires |disk| >= MIN_SECTORS
    ensures |v.disk| == |disk|
  {
    var d := Apply(disk, MountPlan(disk));
    Vol(d, d[1], RootOf(d))
  }
}
