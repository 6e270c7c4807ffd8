/**
 The FJFS driver: the bitmap and root tables in memory changed in place, and every sector write recorded
 in the order in which it reaches the medium. Mounting, lookup, reading and `write_file` are proved
 against the volume on values and its list of writes.
 */
module Fjfs {
  import opened Bytes
  import opened FjfsLayout
  import opened FjfsProofs

  lemma StoredOutcome(v: Vol, n: Name, data: seq<byte>, first: nat, s: nat, bm: Sector, root: Root)
    requires |v.disk| >= MIN_SECTORS && |data| <= MAX_FILE && first + Clusters(|data|) <= TOTAL_CLUSTERS
    requires SlotFor(v.root, n) == Some(s) && bm == MarkRun(v.bitmap, first, Clusters(|data|))
    requires root == v.root[s := NewEntry(v.root[s], n, |data|, first)]
    ensures var dp, mp := DataPlan(first, data, 4 * Clusters(|data|)), MetaPlan(bm, root);
            && InRange(v.disk, dp) && InRange(Apply(v.disk, dp), mp)
            && WriteAt(v, n, data, first)
               == WriteOutcome(true, Vol(Apply(Apply(v.disk, dp), mp), bm, root), dp + mp)
  {
    DataStage(v.disk, first, data, 4 * Clusters(|data|));
    ApplyAppend(v.disk, DataPlan(first, data, 4 * Clusters(|data|)), MetaPlan(bm, root));
  }

  lemma FullOutcome(v: Vol, n: Name, data: seq<byte>, first: nat, bm: Sector)
    requires |v.disk| >= MIN_SECTORS && |data| <= MAX_FILE && first + Clusters(|data|) <= TOTAL_CLUSTERS
    requires SlotFor(v.root, n).None? && bm == MarkRun(v.bitmap, first, Clusters(|data|))
    ensures var dp := DataPlan(first, data, 4 * Clusters(|data|));
            && InRange(v.disk, dp)
            && WriteAt(v, n, data, first) == WriteOutcome(false, Vol(Apply(v.disk, dp), bm, v.root), dp)
  {
  }

  class Volume {
    /** The drive: single-sector transfers that do not fail. */
    const sectors: array<Sector>
    const sector0: array<byte>
    const bitmap: array<byte>
    const root: array<DirEntry>
    /** Every sector write so far, oldest first. */
    ghost var journal: seq<SectorWrite>

    ghost predicate Valid()
      reads this
    {
      && sectors.Length >= MIN_SECTORS
      && sector0.Length == 512 && bitmap.Length == 512 && root.Length == 32
      && sector0 != bitmap
    }

    ghost function Abs(): (v: Vol)
      requires Valid()
      reads this, sectors, bitmap, root
    {
      Vol(sectors[..], Block(bitmap[..]), root[..])
    }

    constructor (image: seq<Sector>)
      requires |image| >= MIN_SECTORS
      ensures Valid() && fresh(sectors) && fresh(sector0) && fresh(bitmap) && fresh(root)
      ensures sectors[..] == image && journal == []
    {
      sectors := new Sector[|image|](i requires 0 <= i < |image| => image[i]);
      sector0 := new byte[512](_ => 0);
      bitmap := new byte[512](_ => 0);
      root := new DirEntry[32](_ => DirEntry(NoName(), 0, 0, 0, seq(7, _ => 0)));
      journal := [];
    }

    /** `wr_seg`: consecutive sectors, one at a time. */
    method WrSeg(lba: nat, data: seq<Sector>)
      requires Valid() && lba + |data| <= sectors.Length
      modifies sectors, `journal
      ensures journal == old(journal) + SegWrites(lba, data)
      ensures InRange(old(sectors[..]), SegWrites(lba, data))
      ensures sectors[..] == Apply(old(sectors[..]), SegWrites(lba, data))
    {
      ghost var disk := sectors[..];
      for k := 0 to |data|
        invariant journal == old(journal) + SegWrites(lba, data[..k])
        invariant InRange(disk, SegWrites(lba, data[..k]))
        invariant sectors[..] == Apply(disk, SegWrites(lba, data[..k]))
      {
        ghost var ws, ws' := SegWrites(lba, data[..k]), SegWrites(lba, data[..k + 1]);
        assert ws' == ws + [SectorWrite(lba + k, data[k])] && ws'[..k] == ws;
        sectors[lba + k] := data[k];
        journal := journal + [SectorWrite(lba + k, data[k])];
      }
      assert data[..|data|] == data;
    }

    /** One sector written: the step that a crash can separate from the next. */
    method WrSector(lba: nat, data: Sector)
      requires Valid() && lba < sectors.Length
      modifies sectors, `journal
      ensures journal == old(journal) + [SectorWrite(lba, data)]
      ensures sectors[..] == old(sectors[..])[lba := data]
    {
      WrSeg(lba, [data]);
      assert SegWrites(lba, [data]) == [SectorWrite(lba, data)];
      Apply1(old(sectors[..]), SectorWrite(lba, data));
    }

    method ClearSector0()
      requires Valid()
      modifies sector0
      ensures Block(sector0[..]) == Blank()
    {
      for i := 0 to 512
        invariant forall k | 0 <= k < i :: sector0[k] == 0
      {
        sector0[i] := 0;
      }
    }

    method FillMagic()
      requires Valid()
      modifies sector0
      ensures sector0[..6] == [0x46, 0x4A, 0x46, 0x53, 0x30, 0x31]
      ensures forall k | 6 <= k < 512 :: sector0[k] == old(sector0[k])
    {
      sector0[0], sector0[1], sector0[2], sector0[3] := 0x46, 0x4A, 0x46, 0x53;
      sector0[4], sector0[5] := 0x30, 0x31;
    }

    method FillSuperblock()
      requires Valid()
      modifies sector0
      ensures Block(sector0[..]) == Superblock()
    {
      ClearSector0();
      assert forall k | 0 <= k < 512 :: sector0[k] == Block(sector0[..]).bytes[k] == 0;
      FillMagic();
      sector0[8] := TOTAL_CLUSTERS % 256;
      sector0[9] := (TOTAL_CLUSTERS / 256) % 256;
      sector0[10] := (TOTAL_CLUSTERS / 65536) % 256;
      sector0[12] := 1;
      sector0[16] := 2;
      forall k | 0 <= k < 512
        ensures sector0[k] == Superblock().bytes[k]
      {
        if k < 6 { assert sector0[k] == sector0[..6][k]; }
      }
    }

    method Format()
      requires Valid()
      modifies sectors, sector0, `journal
      ensures journal == old(journal) + FormatPlan()
      ensures InRange(old(sectors[..]), FormatPlan()) && sectors[..] == Apply(old(sectors[..]), FormatPlan())
    {
      ghost var disk, plan := sectors[..], FormatPlan();
      for lba := 0 to 8
        invariant journal == old(journal) + plan[..lba]
        invariant InRange(disk, plan[..lba]) && sectors[..] == Apply(disk, plan[..lba])
      {
        ClearSector0();
        WrSector(lba, Block(sector0[..]));
        assert plan[..lba + 1][..lba] == plan[..lba];
      }
      FillSuperblock();
      WrSector(0, Block(sector0[..]));
      assert plan == plan[..8] + [SectorWrite(0, Superblock())];
      assert plan[..|plan| - 1] == plan[..8];
    }

    /** Both tables are copied from the medium as they are. */
    method LoadTables()
      requires Valid()
      modifies bitmap, root
      ensures Block(bitmap[..]) == sectors[1] && root[..] == RootOf(sectors[..])
    {
      forall i | 0 <= i < 512 {
        bitmap[i] := sectors[1].bytes[i];
      }
      assert bitmap[..] == sectors[1].bytes;
      var entries := DecodeSector(sectors[2]) + DecodeSector(sectors[3]);
      forall i | 0 <= i < 32 {
        root[i] := entries[i];
      }
      assert root[..] == entries;
    }

    /** `init`: format a medium without the magic, then load the bitmap and the root directory. */
    method Init()
      requires Valid()
      modifies sectors, sector0, bitmap, root, `journal
      ensures Abs() == Mount(old(sectors[..]))
      ensures journal == old(journal) + MountPlan(old(sectors[..]))
    {
      var raw := sectors[0].bytes;
      assert raw[..4] == [raw[0], raw[1], raw[2], raw[3]];
      if !(raw[0] == 0x46 && raw[1] == 0x4A && raw[2] == 0x46 && raw[3] == 0x53) {
        Format();
      }
      LoadTables();
    }

    /** `lookup`: the size and first cluster of the first used entry with this name. */
    method Lookup(name: seq<byte>) returns (r: Option<(u32, u32)>)
      requires Valid()
      ensures var i := FindUsed(root[..], FmtName(name), 0);
              r == if i.Some? then Some((root[i.value].size, root[i.value].firstCluster)) else None
    {
      var n := FmtName(name);
      for i := 0 to 32
        invariant FindUsed(root[..], n, 0) == FindUsed(root[..], n, i)
      {
        if root[i].name == n && root[i].size > 0 {
          return Some((root[i].size, root[i].firstCluster));
        }
      }
      return None;
    }

    /** `alloc_runs`: claim the lowest run of n free clusters. */
    method AllocRuns(n: nat) returns (r: Option<nat>)
      requires Valid()
      modifies bitmap
      ensures r == FirstFit(old(Abs()).bitmap, n)
      ensures Block(bitmap[..]) == if r.Some? then MarkRun(old(Abs()).bitmap, r.value, n) else old(Abs()).bitmap
    {
      ghost var bm := Block(bitmap[..]);
      var i := 0;
      while i < TOTAL_CLUSTERS
        invariant i <= TOTAL_CLUSTERS && Block(bitmap[..]) == bm
        invariant FirstFit(bm, n) == FirstFitFrom(bm, n, i)
      {
        var free := IsRunFree(i, n);
        if free {
          MarkClusters(i, n);
          return Some(i);
        }
        i := i + 1;
      }
      return None;
    }

    /** The inner scan of `alloc_runs`, cut short at the first used cluster. */
    method IsRunFree(i: nat, n: nat) returns (free: bool)
      requires Valid() && i < TOTAL_CLUSTERS
      ensures free <==> RunFree(Abs().bitmap, i, n)
    {
      var j := 0;
      while j < n && i + j < TOTAL_CLUSTERS
        invariant j <= n && i + j <= TOTAL_CLUSTERS
        invariant forall c: nat | i <= c < i + j :: !BitAt(bitmap[..], c)
      {
        if TestBit(bitmap[(i + j) / 8], (i + j) % 8) {
          assert BitAt(bitmap[..], i + j);
          return false;
        }
        j := j + 1;
      }
      return j == n;
    }

    method MarkClusters(first: nat, n: nat)
      requires Valid() && first + n <= TOTAL_CLUSTERS
      modifies bitmap
      ensures Block(bitmap[..]) == MarkRun(old(Abs()).bitmap, first, n)
    {
      ghost var bm := Block(bitmap[..]);
      BytePow2();
      for k := 0 to n
        invariant Block(bitmap[..]) == MarkRun(bm, first, k)
      {
        var c := first + k;
        ghost var before := bitmap[..];
        bitmap[c / 8] := OrBit(bitmap[c / 8], c % 8, 8);
        assert bitmap[..] == SetBitAt(before, c);
      }
    }

    /** The buffer of one sector's worth of data from offset 512 * t, zero-filled past the end. */
    method FillBuffer(data: seq<byte>, t: nat) returns (buf: array<byte>)
      ensures fresh(buf) && buf.Length == 512 && Block(buf[..]) == DataSector(data, t)
    {
      buf := new byte[512];
      for i := 0 to 512
        invariant forall k | 0 <= k < i :: buf[k] == DataSector(data, t).bytes[k]
      {
        buf[i] := if 512 * t + i < |data| then data[512 * t + i] else 0;
      }
    }

    /** Since journal j and medium disk, exactly the writes ws happened. */
    ghost predicate Wrote(j: seq<SectorWrite>, disk: seq<Sector>, ws: seq<SectorWrite>)
      reads this, sectors
    {
      journal == j + ws && InRange(disk, ws) && sectors[..] == Apply(disk, ws)
    }

    /** The data loop of `write_file`, cluster by cluster and sector by sector. */
    method WriteData(first: nat, data: seq<byte>)
      requires Valid() && first + Clusters(|data|) <= TOTAL_CLUSTERS
      modifies sectors, `journal
      ensures Wrote(old(journal), old(sectors[..]), DataPlan(first, data, 4 * Clusters(|data|)))
    {
      for c := 0 to Clusters(|data|)
        invariant Wrote(old(journal), old(sectors[..]), DataPlan(first, data, 4 * c))
      {
        for s := 0 to CLUSTER_SECTORS
          invariant Wrote(old(journal), old(sectors[..]), DataPlan(first, data, 4 * c + s))
        {
          WriteDataSector(old(journal), old(sectors[..]), first, data, 4 * c + s);
        }
      }
    }

    method WriteDataSector(ghost j: seq<SectorWrite>, ghost disk: seq<Sector>, first: nat, data: seq<byte>, t: nat)
      requires Valid() && DATA_LBA + 4 * first + t < sectors.Length
      requires Wrote(j, disk, DataPlan(first, data, t))
      modifies sectors, `journal
      ensures Wrote(j, disk, DataPlan(first, data, t + 1))
    {
      var buf := FillBuffer(data, t);
      WrSector(DATA_LBA + 4 * first + t, Block(buf[..]));
      assert DataPlan(first, data, t + 1)[..t] == DataPlan(first, data, t);
      assert DataPlan(first, data, t + 1) == DataPlan(first, data, t) + [DataPlan(first, data, t + 1)[t]];
    }

    /** The slot search of `write_file`: the file's own name first, then a free slot. */
    method FindSlot(n: Name) returns (slot: Option<nat>)
      requires Valid()
      ensures slot == SlotFor(root[..], n)
    {
      for i := 0 to 32
        invariant FindName(root[..], n, 0) == FindName(root[..], n, i)
      {
        if root[i].name == n {
          return Some(i);
        }
      }
      for i := 0 to 32
        invariant FindFree(root[..], 0) == FindFree(root[..], i)
      {
        if root[i].size == 0 {
          return Some(i);
        }
      }
      return None;
    }

    /** `flush_bitmap` then `flush_root`. */
    method FlushTables()
      requires Valid()
      modifies sectors, `journal
      ensures Wrote(old(journal), old(sectors[..]), MetaPlan(Block(bitmap[..]), root[..]))
    {
      ghost var disk, plan := sectors[..], MetaPlan(Block(bitmap[..]), root[..]);
      var entries := root[..];
      WrSector(1, Block(bitmap[..]));
      var halves := [EncodeSector(entries[..16]), EncodeSector(entries[16..])];
      WrSeg(2, halves);
      assert SegWrites(2, halves) == plan[1..];
      assert plan == [plan[0]] + plan[1..];
      Apply1(disk, plan[0]);
      ApplyAppend(disk, [plan[0]], plan[1..]);
    }

    /** Data, slot, tables: what `write_file` does once its clusters are claimed. */
    method WriteAtRun(ghost v: Vol, n: Name, data: seq<byte>, first: nat) returns (ok: bool)
      requires Valid() && |data| <= MAX_FILE && first + Clusters(|data|) <= TOTAL_CLUSTERS
      requires Abs() == v.(bitmap := MarkRun(v.bitmap, first, Clusters(|data|)))
      modifies sectors, root, `journal
      ensures var o := WriteAt(v, n, data, first);
              ok == o.ok && Abs() == o.vol && journal == old(journal) + o.plan
    {
      WriteData(first, data);
      var slot := FindSlot(n);
      if slot.None? {
        FullOutcome(v, n, data, first, Block(bitmap[..]));
        return false;
      }
      StoreEntry(v, n, data, first, slot.value, old(journal));
      return true;
    }

    /** The new entry, and both tables to the medium. */
    method StoreEntry(ghost v: Vol, n: Name, data: seq<byte>, first: nat, slot: nat, ghost before: seq<SectorWrite>)
      requires Valid() && |v.disk| >= MIN_SECTORS && |data| <= MAX_FILE && first + Clusters(|data|) <= TOTAL_CLUSTERS
      requires SlotFor(v.root, n) == Some(slot)
      requires var dp := DataPlan(first, data, 4 * Clusters(|data|));
               InRange(v.disk, dp) && journal == before + dp
               && Abs() == Vol(Apply(v.disk, dp), MarkRun(v.bitmap, first, Clusters(|data|)), v.root)
      modifies sectors, root, `journal
      ensures var o := WriteAt(v, n, data, first);
              o.ok && Abs() == o.vol && journal == before + o.plan
    {
      root[slot] := NewEntry(root[slot], n, |data|, first);
      FlushTables();
      StoredOutcome(v, n, data, first, slot, Block(bitmap[..]), root[..]);
    }

    /** `write_file`: data, then bitmap, then directory. */
    method WriteFile(name: seq<byte>, data: seq<byte>) returns (ok: bool)
      requires Valid()
      modifies sectors, bitmap, root, `journal
      ensures var o := FjfsLayout.WriteFile(old(Abs()), name, data);
              ok == o.ok && Abs() == o.vol && journal == old(journal) + o.plan
    {
      if |data| == 0 || |data| > MAX_FILE {
        return false;
      }
      var first := AllocRuns((|data| + CLUSTER_SIZE - 1) / CLUSTER_SIZE);
      if first.None? {
        return false;
      }
      ok := WriteAtRun(old(Abs()), FmtName(name), data, first.value);
    }

    /** `read_file`: at most max bytes into the caller's buffer. */
    method ReadFile(name: seq<byte>, buf: array<byte>, max: nat) returns (n: nat)
      requires Valid() && Inv(Abs())
      requires buf.Length >= max && buf != bitmap && buf != sector0
      modifies buf
      ensures match Read(old(Abs()), FmtName(name))
              case None => n == 0 && buf[..] == old(buf[..])
              case Some(d) =>
                && n == Min(|d|, max)
                && buf[..] == d[..n] + old(buf[..])[n..]
    {
      var e := Lookup(name);
      if e.None? {
        return 0;
      }
      var (size, first) := e.value;
      ghost var entry := root[FindUsed(root[..], FmtName(name), 0).value];
      assert EntryOk(entry, sectors[1]);
      n := Min(size, max);
      CopyFile(size, first, buf, n, Content(sectors[..], entry));
    }

    /** The cluster and sector loops of `read_file`. */
    method CopyFile(size: nat, first: nat, buf: array<byte>, n: nat, ghost d: seq<byte>)
      requires Valid() && DATA_LBA + 4 * (first + Clusters(size)) <= sectors.Length && |d| == size
      requires forall i | 0 <= i < size :: d[i] == sectors[DATA_LBA + 4 * first + i / 512].bytes[i % 512]
      requires n <= size && n <= buf.Length && buf != bitmap && buf != sector0
      modifies buf
      ensures buf[..] == d[..n] + old(buf[..])[n..]
    {
      ghost var was := buf[..];
      var off := 0;
      for c := 0 to (size + CLUSTER_SIZE - 1) / CLUSTER_SIZE
        invariant off == Min(512 * (4 * c), n)
        invariant buf[..] == d[..off] + was[off..]
      {
        for s := 0 to CLUSTER_SECTORS
          invariant off == Min(512 * (4 * c + s), n)
          invariant buf[..] == d[..off] + was[off..]
        {
          off := CopyOne(4 * c + s, first, buf, n, d, was);
        }
      }
    }

    method CopyOne(t: nat, first: nat, buf: array<byte>, n: nat, ghost d: seq<byte>, ghost was: seq<byte>)
      returns (off: nat)
      requires Valid() && DATA_LBA + 4 * first + t < sectors.Length && n <= |d|
      requires forall i | 0 <= i < n && i / 512 == t :: d[i] == sectors[DATA_LBA + 4 * first + t].bytes[i % 512]
      requires n <= buf.Length == |was| && buf != bitmap && buf != sector0
      requires buf[..] == d[..Min(512 * t, n)] + was[Min(512 * t, n)..]
      modifies buf
      ensures off == Min(512 * (t + 1), n) && buf[..] == d[..off] + was[off..]
    {
      off := CopySector(sectors[DATA_LBA + 4 * first + t], buf, 512 * t, n, d, was);
    }

    /** The innermost loop of `read_file`: one sector, up to n bytes in all. */
    static method CopySector(sector: Sector, buf: array<byte>, base: nat, n: nat, ghost d: seq<byte>, ghost was: seq<byte>)
      returns (off: nat)
      requires n <= buf.Length == |was| && n <= |d|
      requires forall i | base <= i < n && i < base + 512 :: d[i] == sector.bytes[i - base]
      requires buf[..] == d[..Min(base, n)] + was[Min(base, n)..]
      modifies buf
      ensures off == Min(base + 512, n) && buf[..] == d[..off] + was[off..]
    {
      off := Min(base, n);
      for i := 0 to 512
        invariant off == Min(base + i, n)
        invariant buf[..] == d[..off] + was[off..]
      {
        if off < n {
          buf[off] := sector.bytes[i];
          off := off + 1;
        }
      }
    }
  }
}
