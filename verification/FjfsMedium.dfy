/** What FJFS finds and leaves on the medium, in plain numbers and bytes. */
module FjfsMedium {
  import opened Bytes
  import opened FjfsLayout
  import opened FjfsProofs
  import opened FjfsSpace

  // ------------------------------------------------------------------ room

  /** How many 2 KiB clusters a file takes. */
  lemma ClusterCount(size: nat, c: nat)
    ensures c == Clusters(size) <==> 2048 * c < size + 2048 && size <= 2048 * c
  {
  }

  /** A medium with the magic is mounted as it is, with its own bitmap and directory. */
  lemma MountKeeps(d: seq<Sector>)
    requires |d| >= 8196 && d[0].bytes[..4] == [0x46, 0x4A, 0x46, 0x53]
    ensures Mount(d) == Vol(d, d[1], RootOf(d))
  {
    assert Apply(d, []) == d;
  }

  /** Consecutive clusters that the bitmap sector calls free. */
  ghost predicate FreeRun(bm: Sector, n: nat) {
    exists i: nat :: i < 2048 && i + n <= 2048 && FreeAt(bm, i, n)
  }

  ghost predicate FreeAt(bm: Sector, i: nat, n: nat)
    requires i + n <= 2048
  {
    forall c: nat | i <= c < i + n :: !BitAt(bm.bytes, c)
  }

  lemma FreeRunIff(bm: Sector, n: nat)
    ensures HasRun(bm, n) <==> FreeRun(bm, n)
  {
    if HasRun(bm, n) {
      var i: nat :| i < TOTAL_CLUSTERS && RunFree(bm, i, n);
      assert FreeAt(bm, i, n);
    }
    if FreeRun(bm, n) {
      var i: nat :| i < 2048 && i + n <= 2048 && FreeAt(bm, i, n);
      assert RunFree(bm, i, n);
    }
  }

  /** After mounting, a write succeeds exactly when the bitmap and the directory on the medium have room for it. */
  lemma RoomAfterMount(v: Vol, name: seq<byte>, data: seq<byte>)
    requires Inv(v)
    ensures WriteFile(Mount(v.disk), name, data).ok <==>
            1 <= |data| <= 65536 && FreeRun(v.disk[1], Clusters(|data|)) && HasRoom(v.root, FmtName(name))
  {
    Remounts(v, FmtName(name));
    MountKeeps(v.disk);
    WriteSucceedsIff(Mount(v.disk), name, data);
    FreeRunIff(v.disk[1], Clusters(|data|));
  }

  /** The same after a power cut during any write: what counts is the bitmap that the cut left. */
  lemma RoomAfterCut(v: Vol, cutName: seq<byte>, cutData: seq<byte>, k: nat, d: seq<Sector>, name: seq<byte>, data: seq<byte>)
    requires Inv(v) && d == Cut(v, cutName, cutData, k)
    ensures WriteFile(Mount(d), name, data).ok <==>
            1 <= |data| <= 65536 && FreeRun(d[1], Clusters(|data|)) && HasRoom(RootOf(d), FmtName(name))
  {
    CrashAtomicity(v, cutName, cutData, k, FmtName(name));
    CutBitmap(v, cutName, cutData, k, d);
    MountKeeps(d);
    WriteSucceedsIff(Mount(d), name, data);
    FreeRunIff(d[1], Clusters(|data|));
  }

  // ------------------------------------------------------------------ bytes

  /** The 32 bytes of directory slot s: sectors 2 and 3 hold sixteen each. */
  function RawEntry(d: seq<Sector>, s: nat): (r: seq<byte>)
    requires |d| >= 8196 && s < 32
    ensures |r| == 32
  {
    d[2 + s / 16].bytes[32 * (s % 16)..32 * (s % 16) + 32]
  }

  lemma EncodeDecoded(raw: seq<byte>)
    requires |raw| == 32
    ensures EncodeEntry(DecodeEntry(raw)) == raw
  {
    RadixValues();
    LEofFromLE(raw[16..20]);
    LEofFromLE(raw[20..24]);
    assert raw == raw[..16] + raw[16..20] + raw[20..24] + [raw[24]] + raw[25..];
  }

  lemma RawDecodes(d: seq<Sector>, s: nat)
    requires |d| >= 8196 && s < 32
    ensures RootOf(d)[s] == DecodeEntry(RawEntry(d, s)) && EncodeEntry(RootOf(d)[s]) == RawEntry(d, s)
  {
    EncodeDecoded(RawEntry(d, s));
  }

  /** A volume's directory is what the 32-byte slots of the medium say: name, size, first cluster. */
  lemma SlotFields(v: Vol, s: nat)
    requires Inv(v) && s < 32
    ensures var raw, e := RawEntry(v.disk, s), v.root[s];
            e.name == raw[..16] && raw[16..20] == LE(e.size, 4) && raw[20..24] == LE(e.firstCluster, 4)
  {
    RawDecodes(v.disk, s);
    LEofFromLE(RawEntry(v.disk, s)[16..20]);
    LEofFromLE(RawEntry(v.disk, s)[20..24]);
  }

  /** From cluster `first` on the medium has the data, and zeros up to the end of the last cluster. */
  predicate BytesAt(d: seq<Sector>, first: nat, data: seq<byte>)
    requires 4 + 4 * (first + Clusters(|data|)) <= |d|
  {
    forall i: nat | i < 2048 * Clusters(|data|) ::
      d[4 + 4 * first + i / 512].bytes[i % 512] == if i < |data| then data[i] else 0
  }

  /** A successful write on the medium: one slot is rewritten, the data lies in the clusters that it names, LBA
      4 + 4 * cluster on, padded with zeros, and the bitmap in sector 1 has them marked. */
  lemma WriteOnMedium(v: Vol, name: seq<byte>, data: seq<byte>, d: seq<Sector>) returns (s: nat, first: nat)
    requires Inv(v) && WriteFile(v, name, data).ok && d == WriteFile(v, name, data).vol.disk
    ensures s < 32 && first + Clusters(|data|) <= 2048
    ensures RawEntry(d, s) == FmtName(name) + LE(|data|, 4) + LE(first, 4) + [0] + RawEntry(v.disk, s)[25..]
    ensures forall j: nat | j < 32 && j != s :: RawEntry(d, j) == RawEntry(v.disk, j)
    ensures BytesAt(d, first, data)
    ensures forall c: nat | c < 2048 :: BitAt(d[1].bytes, c) <==> first <= c < first + Clusters(|data|) || BitAt(v.bitmap.bytes, c)
    ensures d[0] == v.disk[0]
  {
    var n := FmtName(name);
    first := FirstFit(v.bitmap, Clusters(|data|)).value;
    s := SlotFor(v.root, n).value;
    var e := NewEntry(v.root[s], n, |data|, first);
    Written(v, n, data, first, s, e, WriteAt(v, n, data, first).plan, d);
    HeldBytes(d, e, data);
    SlotsRewritten(v, d, s, e);
  }

  /** One slot of the directory is rewritten, the others keep their bytes. */
  lemma SlotsRewritten(v: Vol, d: seq<Sector>, s: nat, e: DirEntry)
    requires Inv(v) && |d| >= 8196 && s < 32 && RootOf(d) == v.root[s := e]
    ensures RawEntry(d, s) == EncodeEntry(e)
    ensures forall j: nat | j < 32 && j != s :: RawEntry(d, j) == RawEntry(v.disk, j)
    ensures RawEntry(v.disk, s)[25..] == v.root[s].pad
  {
    forall j: nat | j < 32
      ensures RawEntry(d, j) == EncodeEntry(RootOf(d)[j]) && RawEntry(v.disk, j) == EncodeEntry(v.root[j])
    {
      RawDecodes(d, j);
      RawDecodes(v.disk, j);
    }
    RawDecodes(v.disk, s);
  }

  /** The medium after all writes of a successful plan. */
  lemma Written(v: Vol, n: Name, data: seq<byte>, first: nat, s: nat, e: DirEntry, p: seq<SectorWrite>, d: seq<Sector>)
    requires Inv(v) && 0 < |data| <= MAX_FILE && RunFree(v.bitmap, first, Clusters(|data|))
    requires SlotFor(v.root, n) == Some(s) && p == WriteAt(v, n, data, first).plan && e == NewEntry(v.root[s], n, |data|, first)
    requires InRange(v.disk, p) && d == Apply(v.disk, p)
    ensures s < 32 && Holds(d, e, data) && RootOf(d) == v.root[s := e] && d[0] == v.disk[0]
    ensures d[1] == MarkRun(v.bitmap, first, Clusters(|data|))
  {
    var bm := MarkRun(v.bitmap, first, Clusters(|data|));
    PlanStages(v.disk, bm, v.root[s := e], first, data, p);
    TornStages(v, bm, v.root[s := e], data, s, e, |p|);
  }

  lemma HeldBytes(d: seq<Sector>, e: DirEntry, data: seq<byte>)
    requires Holds(d, e, data)
    ensures BytesAt(d, e.firstCluster, data)
  {
    forall i: nat | i < 2048 * Clusters(|data|)
      ensures d[4 + 4 * e.firstCluster + i / 512].bytes[i % 512] == if i < |data| then data[i] else 0
    {
      var t := i / 512;
      assert t < 4 * Clusters(|data|);
      assert d[DATA_LBA + 4 * e.firstCluster + t] == DataSector(data, t);
      assert 512 * t + i % 512 == i;
    }
  }

  // ------------------------------------------------------------------ names and the superblock

  /** Names of up to 15 bytes are padded with NULs; a longer one keeps 15 bytes, and everything from a NUL on is cut. */
  lemma NameBytes(n: seq<byte>, tail: seq<byte>, pad: seq<byte>)
    requires 0 !in n && |n| <= 15 && (tail == [] || tail[0] == 0 || |n| == 15)
    requires |n| + |pad| == 16 && forall i | 0 <= i < |pad| :: pad[i] == 0
    ensures FmtName(n + tail) == n + pad
  {
    NameEnds(n, tail);
    assert (n + tail)[..|n|] == n;
  }

  lemma NameEnds(n: seq<byte>, tail: seq<byte>)
    requires 0 !in n && |n| <= 15 && (tail == [] || tail[0] == 0 || |n| == 15)
    ensures NameLen(n + tail) == |n|
  {
    var k := NameLen(n + tail);
    assert forall i | 0 <= i < |n| :: (n + tail)[i] == n[i] && n[i] in n;
    assert k < |n| ==> (n + tail)[k] == n[k];
    assert tail != [] ==> (n + tail)[|n|] == tail[0];
  }

  /** A formatted medium: "FJFS01", 2048 clusters, bitmap in sector 1, directory from sector 2 on, and zeros. */
  lemma FormattedBytes(d: seq<Sector>)
    requires |d| >= 8196 && d[0].bytes[..4] != [0x46, 0x4A, 0x46, 0x53]
    ensures Mount(d).disk[0].bytes[..8] == [0x46, 0x4A, 0x46, 0x53, 0x30, 0x31, 0, 0]
    ensures Mount(d).disk[0].bytes[8..12] == LE(2048, 4) && Mount(d).disk[0].bytes[12..16] == LE(1, 4)
    ensures Mount(d).disk[0].bytes[16] == 2 && forall i | 17 <= i < 512 :: Mount(d).disk[0].bytes[i] == 0
    ensures forall lba, i | 1 <= lba < 8 && 0 <= i < 512 :: Mount(d).disk[lba].bytes[i] == 0
    ensures Mount(d).disk[8..] == d[8..] && Mount(d).bitmap == Mount(d).disk[1]
  {
    MountForeign(d);
    SuperblockBytes(Superblock().bytes);
    assert forall lba | 1 <= lba < 8 :: Mount(d).disk[lba] == Blank();
    assert Formatted(d)[8..] == d[8..];
  }

  lemma SuperblockBytes(b: seq<byte>)
    requires b == Superblock().bytes
    ensures |b| == 512 && b[..8] == [0x46, 0x4A, 0x46, 0x53, 0x30, 0x31, 0, 0] && b[16] == 2
    ensures b[8..12] == LE(2048, 4) && b[12..16] == LE(1, 4) && forall i | 17 <= i < 512 :: b[i] == 0
  {
    assert LE(2048, 4) == [0, 8, 0, 0] && LE(1, 4) == [1, 0, 0, 0];
  }
}
