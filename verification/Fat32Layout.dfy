/**
 * Where a FAT32 volume keeps things: the mount geometry, the table entries inside the FAT
 * sectors, and the sectors of each cluster.  A disk is a list of 512-byte sectors; `View`
 * reads a FAT and a list of clusters out of it, and the lemmas say what one sector write
 * does to that view.
 */
module Fat32Layout {
  import opened Bytes

  const EOC_MIN: nat := 0x0FFF_FFF8
  const EOC_MAX: nat := 0x0FFF_FFFF
  const FREE: nat := 0

  type Sectors = seq<seq<byte>>

  datatype Option<+T> = None | Some(value: T)

  /** The boot-sector fields that mounting reads. */
  datatype Boot = Boot(
    bytesPerSector: nat, sectorsPerCluster: nat, reserved: nat, numFats: nat,
    rootEntryCount: nat, fatSize16: nat, totalSectors32: nat, fatSize32: nat, rootCluster: nat)

  datatype Geometry = Geometry(
    fatOffset: nat, fatSize: nat, numFats: nat, dataOffset: nat, spc: nat,
    total: nat, root: nat)
  {
    /** Bytes in one cluster. */
    function ClusterSize(): nat { 512 * spc }
    /** One more than the largest cluster number. */
    function Limit(): nat { total + 2 }
  }

  predicate BootFields(b: Boot)
  {
    && b.sectorsPerCluster < 0x100 && b.reserved < 0x1_0000 && b.numFats < 0x100
    && b.totalSectors32 < 0x1_0000_0000 && b.fatSize32 < 0x1_0000_0000 && b.rootCluster < 0x1_0000_0000
  }

  /** The geometry `fat32_mount` computes, in 32-bit unsigned arithmetic. */
  function MountGeometry(b: Boot): Option<Geometry>
    requires BootFields(b) && b.sectorsPerCluster > 0
  {
    if b.bytesPerSector != 512 then None
    else if b.fatSize16 != 0 || b.rootEntryCount != 0 then None
    else
      var dataOffset := (b.reserved + b.numFats * b.fatSize32) % 0x1_0000_0000;
      var dataSectors := (b.totalSectors32 - dataOffset) % 0x1_0000_0000;
      Some(Geometry(b.reserved, b.fatSize32, b.numFats, dataOffset, b.sectorsPerCluster,
                    dataSectors / b.sectorsPerCluster, b.rootCluster))
  }

  /** First data sector and number of clusters, without 32-bit wrap-around. */
  function DataStart(b: Boot): nat { b.reserved + b.numFats * b.fatSize32 }

  function ClusterCount(b: Boot): nat
    requires b.sectorsPerCluster > 0 && DataStart(b) <= b.totalSectors32
  {
    (b.totalSectors32 - DataStart(b)) / b.sectorsPerCluster
  }

  /** A boot sector a formatter would write: what it promises about a device of `device` sectors. */
  predicate SoundBoot(b: Boot, device: nat)
  {
    && BootFields(b)
    && b.bytesPerSector == 512 && b.fatSize16 == 0 && b.rootEntryCount == 0
    && b.sectorsPerCluster > 0 && b.reserved > 0 && b.numFats > 0
    && DataStart(b) <= b.totalSectors32 <= device
    && ClusterCount(b) + 2 <= 128 * b.fatSize32
    && ClusterCount(b) + 2 <= EOC_MIN
    && 2 <= b.rootCluster < ClusterCount(b) + 2
  }

  ghost predicate Sound(g: Geometry, device: nat)
  {
    && g.spc > 0 && g.fatOffset > 0 && g.numFats > 0
    && g.fatOffset + g.numFats * g.fatSize == g.dataOffset
    && g.dataOffset + g.total * g.spc <= device
    && g.dataOffset + g.total * g.spc < 0x1_0000_0000
    && g.Limit() <= 128 * g.fatSize
    && g.Limit() <= EOC_MIN
    && 2 <= g.root < g.Limit()
  }

  lemma DivTimes(a: nat, k: nat)
    requires k > 0
    ensures a / k * k <= a
  {
  }

  lemma NoWrap(b: Boot)
    requires BootFields(b) && b.sectorsPerCluster > 0 && DataStart(b) <= b.totalSectors32
    requires b.bytesPerSector == 512 && b.fatSize16 == 0 && b.rootEntryCount == 0
    ensures MountGeometry(b) == Some(Geometry(b.reserved, b.fatSize32, b.numFats, DataStart(b),
                                              b.sectorsPerCluster, ClusterCount(b), b.rootCluster))
  {
    var start, sectors := DataStart(b), b.totalSectors32 - DataStart(b);
    assert start % 0x1_0000_0000 == start && sectors % 0x1_0000_0000 == sectors;
  }

  /** Mounting a soundly formatted volume yields a sound geometry: no 32-bit step wraps, and
      the last cluster ends inside the volume. */
  lemma MountSound(b: Boot, device: nat)
    requires SoundBoot(b, device)
    ensures MountGeometry(b).Some? && Sound(MountGeometry(b).value, device)
    ensures MountGeometry(b).value.dataOffset + MountGeometry(b).value.total * b.sectorsPerCluster
            <= b.totalSectors32
  {
    hide MountGeometry, ClusterCount;
    NoWrap(b);
    CountFits(b);
  }

  lemma CountFits(b: Boot)
    requires b.sectorsPerCluster > 0 && DataStart(b) <= b.totalSectors32
    ensures DataStart(b) + ClusterCount(b) * b.sectorsPerCluster <= b.totalSectors32
  {
    DivTimes(b.totalSectors32 - DataStart(b), b.sectorsPerCluster);
  }

  /** Mounting is refused exactly for sectors of another size and for volumes with FAT12 or FAT16 fields. */
  lemma MountRefused(b: Boot)
    requires BootFields(b) && b.sectorsPerCluster > 0
    ensures MountGeometry(b).None? <==> b.bytesPerSector != 512 || b.fatSize16 != 0 || b.rootEntryCount != 0
  {
  }

  /** The data area starts behind all FAT copies and has as many clusters as fit in the volume. */
  lemma CountLargest(b: Boot, n: nat)
    requires b.sectorsPerCluster > 0 && DataStart(b) <= b.totalSectors32
    ensures b.reserved + b.numFats * b.fatSize32 + n * b.sectorsPerCluster <= b.totalSectors32 <==> n <= ClusterCount(b)
  {
    Largest(b.totalSectors32 - DataStart(b), b.sectorsPerCluster, n);
  }

  lemma Largest(a: nat, k: nat, n: nat)
    requires k > 0
    ensures n * k <= a <==> n <= a / k
  {
    var q := a / k;
    assert a == q * k + a % k;
    if n <= q {
      assert q * k == n * k + (q - n) * k;
      NotNegative(q - n, k);
    } else {
      assert n * k == q * k + k + (n - q - 1) * k;
      NotNegative(n - q - 1, k);
    }
  }

  lemma NotNegative(a: nat, b: nat)
    ensures a * b >= 0
  {
  }

  ghost predicate InRange(g: Geometry, c: int) { 2 <= c < g.Limit() }

  /** `fat32_cluster_to_sector`. */
  function ClusterStart(g: Geometry, c: nat): (s: nat)
  {
    if c < 2 then 0 else g.dataOffset + (c - 2) * g.spc
  }

  function FatSector(g: Geometry, c: nat): nat { g.fatOffset + c * 4 / 512 }

  function FatByte(c: nat): nat { c * 4 % 512 }

  /** Cluster 2 is the first of the data area, and each next one follows; entry `c` of the table is at 4 * c. */
  lemma Places(g: Geometry, c: nat)
    ensures ClusterStart(g, 2) == g.dataOffset
    ensures c >= 2 ==> ClusterStart(g, c + 1) == ClusterStart(g, c) + g.spc
    ensures 512 * FatSector(g, c) + FatByte(c) == 512 * g.fatOffset + 4 * c && FatByte(c) < 512
  {
    if c >= 2 {
      Distribute(c - 2, 1, g.spc);
    }
  }

  ghost predicate WellSized(s: Sectors)
  {
    forall i :: 0 <= i < |s| ==> |s[i]| == 512
  }

  ghost predicate Fits(g: Geometry, s: Sectors) { WellSized(s) && Sound(g, |s|) }

  /** Cluster ranges lie inside the volume and after every FAT copy. */
  lemma ClusterBounds(g: Geometry, device: nat, c: nat)
    requires Sound(g, device) && InRange(g, c)
    ensures g.dataOffset <= ClusterStart(g, c)
    ensures ClusterStart(g, c) + g.spc <= device
    ensures g.fatOffset + g.fatSize <= g.dataOffset
    ensures g.numFats > 1 ==> g.fatOffset + 2 * g.fatSize <= g.dataOffset
  {
    Distribute(c - 2, 1, g.spc);
    MulMono(c - 1, g.total, g.spc);
    MulMono(0, c - 2, g.spc);
    MulMono(1, g.numFats, g.fatSize);
    MulOrder(2, g.numFats, g.fatSize);
  }

  lemma MulMono(a: nat, b: nat, k: nat)
    requires a <= b
    ensures a * k <= b * k
  {
  }

  lemma MulOrder(a: nat, b: nat, k: nat)
    ensures a <= b ==> a * k <= b * k
  {
    if a <= b { MulMono(a, b, k); }
  }

  /** Different clusters occupy disjoint sector ranges. */
  lemma ClustersDisjoint(g: Geometry, device: nat, c1: nat, c2: nat, i: nat, j: nat)
    requires Sound(g, device) && InRange(g, c1) && InRange(g, c2)
    requires i < g.spc && j < g.spc
    ensures ClusterStart(g, c1) + i == ClusterStart(g, c2) + j ==> c1 == c2 && i == j
  {
    if c1 < c2 {
      MulMono(c1 - 1, c2 - 2, g.spc);
      assert (c1 - 2) * g.spc + g.spc == (c1 - 1) * g.spc;
    } else if c2 < c1 {
      MulMono(c2 - 1, c1 - 2, g.spc);
      assert (c2 - 2) * g.spc + g.spc == (c2 - 1) * g.spc;
    }
  }

  /** A table entry lies inside one sector of the first FAT, and entries of different
      clusters share no byte. */
  lemma FatEntryPlace(g: Geometry, device: nat, c1: nat, c2: nat)
    requires Sound(g, device) && InRange(g, c1) && InRange(g, c2)
    ensures g.fatOffset <= FatSector(g, c1) < g.fatOffset + g.fatSize <= g.dataOffset
    ensures FatByte(c1) + 4 <= 512
    ensures c1 != c2 && FatSector(g, c1) == FatSector(g, c2)
            ==> FatByte(c1) + 4 <= FatByte(c2) || FatByte(c2) + 4 <= FatByte(c1)
  {
    ClusterBounds(g, device, c1);
    EntryWord(c1, g.fatSize);
    EntryWord(c2, g.fatSize);
  }

  /** Sector and byte of a table entry of 4 bytes. */
  lemma EntryWord(c: nat, n: nat)
    requires c < 128 * n
    ensures c * 4 / 512 == c / 128 < n && c * 4 % 512 == 4 * (c % 128)
    ensures c == c / 128 * 128 + c % 128
  {
    var q, r := c / 128, c % 128;
    assert c * 4 == q * 512 + 4 * r;
  }

  /** The raw 32-bit table entry of a cluster, in the first FAT. */
  function FatRaw(g: Geometry, s: Sectors, c: nat): nat
    requires FatSector(g, c) < |s| && |s[FatSector(g, c)]| == 512 && FatByte(c) + 4 <= 512
  {
    Le32(s[FatSector(g, c)][FatByte(c)..FatByte(c) + 4])
  }

  ghost function FatAt(g: Geometry, s: Sectors, c: nat): (v: nat)
    requires Fits(g, s)
    ensures v < 0x1000_0000
  {
    if !InRange(g, c) then FREE
    else
      FatEntryPlace(g, |s|, c, c);
      ClusterBounds(g, |s|, c);
      FatRaw(g, s, c) % 0x1000_0000
  }

  ghost function ClusterAt(g: Geometry, s: Sectors, c: nat): (b: seq<byte>)
    requires Fits(g, s)
    ensures InRange(g, c) ==> |b| == g.ClusterSize()
  {
    if !InRange(g, c) then []
    else
      ClusterBounds(g, |s|, c);
      var parts := s[ClusterStart(g, c)..ClusterStart(g, c) + g.spc];
      FlatLen(parts, 512);
      Flat(parts)
  }

  /** A table entry is 28 bits of four bytes, least significant first. */
  lemma FatBytes(g: Geometry, s: Sectors, c: nat)
    requires Fits(g, s) && InRange(g, c)
    ensures FatSector(g, c) < |s| && FatByte(c) + 4 <= |s[FatSector(g, c)]|
    ensures var x, at := s[FatSector(g, c)], FatByte(c);
            FatAt(g, s, c) ==
              (x[at] as int + 0x100 * x[at + 1] as int + 0x1_0000 * x[at + 2] as int + 0x100_0000 * x[at + 3] as int) % 0x1000_0000
  {
    FatEntryPlace(g, |s|, c, c);
    ClusterBounds(g, |s|, c);
  }

  /** Byte `k` of a cluster is byte `k % 512` of its sector `k / 512`. */
  lemma ClusterBytes(g: Geometry, s: Sectors, c: nat, k: nat)
    requires Fits(g, s) && InRange(g, c) && k < g.ClusterSize()
    ensures ClusterStart(g, c) + k / 512 < |s| && |s[ClusterStart(g, c) + k / 512]| == 512
    ensures ClusterAt(g, s, c)[k] == s[ClusterStart(g, c) + k / 512][k % 512]
  {
    hide Flat;
    ClusterBounds(g, |s|, c);
    var parts := s[ClusterStart(g, c)..ClusterStart(g, c) + g.spc];
    FlatLen(parts, 512);
    FlatAt(parts, k / 512, 512, k % 512);
  }

  /** What the driver sees of a disk: 28-bit table entries and cluster contents, both indexed
      by cluster number. */
  datatype Disk = Disk(fat: seq<nat>, clus: seq<seq<byte>>)

  ghost predicate DiskShape(g: Geometry, d: Disk)
  {
    && |d.fat| == g.Limit() && |d.clus| == g.Limit()
    && (forall c :: InRange(g, c) ==> d.fat[c] < 0x1000_0000)
    && (forall c :: InRange(g, c) ==> |d.clus[c]| == g.ClusterSize())
  }

  lemma ShapeSizes(g: Geometry, disk: Disk)
    requires DiskShape(g, disk)
    ensures |disk.fat| == |disk.clus| == g.Limit()
    ensures forall c :: InRange(g, c) ==> |disk.clus[c]| == g.ClusterSize()
  {
  }

  ghost function View(g: Geometry, s: Sectors): (d: Disk)
    requires Fits(g, s)
    ensures DiskShape(g, d)
  {
    Disk(seq(g.Limit(), c requires 0 <= c => FatAt(g, s, c)),
         seq(g.Limit(), c requires 0 <= c => ClusterAt(g, s, c)))
  }

  lemma ViewAt(g: Geometry, s: Sectors, c: nat)
    requires Fits(g, s) && InRange(g, c)
    ensures View(g, s).fat[c] == FatAt(g, s, c)
    ensures View(g, s).clus[c] == ClusterAt(g, s, c)
  {
  }

  lemma ViewExt(g: Geometry, s: Sectors, d: Disk)
    requires Fits(g, s)
    requires |d.fat| == g.Limit() && |d.clus| == g.Limit()
    requires forall c :: 0 <= c < g.Limit() ==> d.fat[c] == FatAt(g, s, c)
    requires forall c :: 0 <= c < g.Limit() ==> d.clus[c] == ClusterAt(g, s, c)
    ensures View(g, s) == d
  {
    assert View(g, s).fat == d.fat;
    assert View(g, s).clus == d.clus;
  }

  /** The sector `fat32_set_fat_entry` writes back: one entry's low 28 bits replaced, its top
      four bits and every other byte kept. */
  function PatchEntry(b: seq<byte>, off: nat, value: nat): (r: seq<byte>)
    requires |b| == 512 && off + 4 <= 512
    ensures |r| == 512
    ensures Le32(r[off..off + 4]) % 0x1000_0000 == value % 0x1000_0000
    ensures Le32(r[off..off + 4]) / 0x1000_0000 == Le32(b[off..off + 4]) / 0x1000_0000
    ensures r[..off] == b[..off] && r[off + 4..] == b[off + 4..]
  {
    var old32 := Le32(b[off..off + 4]);
    var r := Splice(b, off, ToLe32(old32 - old32 % 0x1000_0000 + value % 0x1000_0000));
    assert r[off..off + 4] == ToLe32(old32 - old32 % 0x1000_0000 + value % 0x1000_0000);
    r
  }

  lemma PatchOther(b: seq<byte>, off: nat, value: nat, off2: nat)
    requires |b| == 512 && off + 4 <= 512 && off2 + 4 <= 512
    requires off + 4 <= off2 || off2 + 4 <= off
    ensures PatchEntry(b, off, value)[off2..off2 + 4] == b[off2..off2 + 4]
  {
    var r := PatchEntry(b, off, value);
    var x, y := r[off2..off2 + 4], b[off2..off2 + 4];
    forall k | 0 <= k < 4
      ensures x[k] == y[k]
    {
      if off + 4 <= off2 {
        assert r[off + 4..][off2 + k - off - 4] == b[off + 4..][off2 + k - off - 4];
      } else {
        assert r[..off][off2 + k] == b[..off][off2 + k];
      }
    }
  }

  /** A sector other than the one of the entry does not matter to it. */
  lemma FatAtSame(g: Geometry, s: Sectors, k: nat, x: seq<byte>, c: nat)
    requires Fits(g, s) && k < |s| && |x| == 512 && InRange(g, c) && FatSector(g, c) != k
    ensures FatAt(g, s[k := x], c) == FatAt(g, s, c)
  {
    hide Le32, FatSector, FatByte, FatAt;
    FatAtIs(g, s, c);
    FatAtIs(g, s[k := x], c);
  }

  /** Writing a sector outside the first FAT leaves every table entry as it was. */
  lemma FatUntouched(g: Geometry, s: Sectors, k: nat, x: seq<byte>)
    requires Fits(g, s) && k < |s| && |x| == 512
    requires k < g.fatOffset || g.fatOffset + g.fatSize <= k
    ensures forall c :: FatAt(g, s[k := x], c) == FatAt(g, s, c)
  {
    hide FatSector, FatAt;
    forall c: nat
      ensures FatAt(g, s[k := x], c) == FatAt(g, s, c)
    {
      if InRange(g, c) {
        FatEntryPlace(g, |s|, c, c);
        FatAtSame(g, s, k, x, c);
      } else {
        NoCluster(g, s, c);
        NoCluster(g, s[k := x], c);
      }
    }
  }

  /** Writing a sector before the data area leaves every cluster as it was. */
  lemma DataUntouched(g: Geometry, s: Sectors, k: nat, x: seq<byte>)
    requires Fits(g, s) && k < |s| && |x| == 512 && k < g.dataOffset
    ensures forall c :: ClusterAt(g, s[k := x], c) == ClusterAt(g, s, c)
  {
    forall c: nat | InRange(g, c)
      ensures ClusterAt(g, s[k := x], c) == ClusterAt(g, s, c)
    {
      ClusterBounds(g, |s|, c);
      assert s[k := x][ClusterStart(g, c)..ClusterStart(g, c) + g.spc]
          == s[ClusterStart(g, c)..ClusterStart(g, c) + g.spc];
    }
  }

  /** Writing the patched sector back changes exactly one 28-bit table entry. */
  lemma PatchView(g: Geometry, s: Sectors, c: nat, value: nat)
    requires Fits(g, s) && InRange(g, c)
    ensures FatSector(g, c) < |s| && FatByte(c) + 4 <= 512
    ensures var k := FatSector(g, c);
            var s' := s[k := PatchEntry(s[k], FatByte(c), value)];
            Fits(g, s') && View(g, s') == View(g, s).(fat := View(g, s).fat[c := value % 0x1000_0000])
  {
    hide FatAt, ClusterAt, PatchEntry, FatSector, FatByte, Le32;
    FatEntryPlace(g, |s|, c, c);
    ClusterBounds(g, |s|, c);
    var k := FatSector(g, c);
    var s' := s[k := PatchEntry(s[k], FatByte(c), value)];
    DataUntouched(g, s, k, s'[k]);
    hide Sound;
    var d := View(g, s).(fat := View(g, s).fat[c := value % 0x1000_0000]);
    forall c2: nat | c2 < g.Limit()
      ensures d.fat[c2] == FatAt(g, s', c2)
    {
      PatchAt(g, s, c, value, c2);
    }
    ViewExt(g, s', d);
  }

  lemma PatchAt(g: Geometry, s: Sectors, c: nat, value: nat, c2: nat)
    requires Fits(g, s) && InRange(g, c)
    ensures FatSector(g, c) < |s| && FatByte(c) + 4 <= 512
    ensures var k := FatSector(g, c);
            var s' := s[k := PatchEntry(s[k], FatByte(c), value)];
            Fits(g, s') && FatAt(g, s', c2) == if c2 == c then value % 0x1000_0000 else FatAt(g, s, c2)
  {
    hide FatSector, FatByte, PatchEntry, Le32, FatAt;
    FatEntryPlace(g, |s|, c, c);
    ClusterBounds(g, |s|, c);
    var k := FatSector(g, c);
    var s' := s[k := PatchEntry(s[k], FatByte(c), value)];
    if c2 == c {
      FatAtIs(g, s', c);
    } else if InRange(g, c2) {
      FatEntryPlace(g, |s|, c, c2);
      FatEntryPlace(g, |s|, c2, c);
      if FatSector(g, c2) == k {
        PatchOther(s[k], FatByte(c), value, FatByte(c2));
        FatAtIs(g, s, c2);
        FatAtIs(g, s', c2);
      } else {
        FatAtSame(g, s, k, s'[k], c2);
      }
    } else {
      NoCluster(g, s, c2);
      NoCluster(g, s', c2);
    }
  }

  lemma FatAtIs(g: Geometry, s: Sectors, c: nat)
    requires Fits(g, s) && InRange(g, c)
    ensures FatSector(g, c) < |s| && |s[FatSector(g, c)]| == 512 && FatByte(c) + 4 <= 512
    ensures FatAt(g, s, c) == Le32(s[FatSector(g, c)][FatByte(c)..FatByte(c) + 4]) % 0x1000_0000
  {
    hide FatSector, FatByte, Le32;
    FatEntryPlace(g, |s|, c, c);
    ClusterBounds(g, |s|, c);
  }

  /** Writing any sector of the second FAT changes nothing the driver reads. */
  lemma BackupView(g: Geometry, s: Sectors, k: nat, x: seq<byte>)
    requires Fits(g, s) && |x| == 512 && g.numFats > 1
    requires g.fatOffset + g.fatSize <= k < g.fatOffset + 2 * g.fatSize
    ensures k < |s| && Fits(g, s[k := x]) && View(g, s[k := x]) == View(g, s)
  {
    ClusterBounds(g, |s|, g.root);
    FatUntouched(g, s, k, x);
    DataUntouched(g, s, k, x);
    ViewExt(g, s[k := x], View(g, s));
  }

  /** The sectors of a cluster, as a list. */
  ghost function ClusterSectors(g: Geometry, s: Sectors, c: nat): (parts: seq<seq<byte>>)
    requires Fits(g, s) && InRange(g, c)
    ensures |parts| == g.spc && AllLen(parts, 512) && Flat(parts) == ClusterAt(g, s, c)
  {
    ClusterBounds(g, |s|, c);
    s[ClusterStart(g, c)..ClusterStart(g, c) + g.spc]
  }

  lemma SectorWriteSame(g: Geometry, s: Sectors, c: nat, i: nat, x: seq<byte>)
    requires Fits(g, s) && InRange(g, c) && i < g.spc && |x| == 512
    ensures ClusterStart(g, c) + i < |s| && i * 512 + 512 <= g.ClusterSize()
    ensures ClusterAt(g, s[ClusterStart(g, c) + i := x], c) == Splice(ClusterAt(g, s, c), i * 512, x)
  {
    ClusterBounds(g, |s|, c);
    var parts := ClusterSectors(g, s, c);
    FlatUpdate(parts, i, 512, x);
    assert ClusterSectors(g, s[ClusterStart(g, c) + i := x], c) == parts[i := x];
  }

  lemma SectorWriteOther(g: Geometry, s: Sectors, c: nat, i: nat, x: seq<byte>, c2: nat)
    requires Fits(g, s) && InRange(g, c) && InRange(g, c2) && c != c2 && i < g.spc && |x| == 512
    ensures ClusterStart(g, c) + i < |s|
    ensures ClusterAt(g, s[ClusterStart(g, c) + i := x], c2) == ClusterAt(g, s, c2)
  {
    ClusterBounds(g, |s|, c);
    ClusterBounds(g, |s|, c2);
    var a := ClusterStart(g, c2);
    if a <= ClusterStart(g, c) + i < a + g.spc {
      ClustersDisjoint(g, |s|, c, c2, i, ClusterStart(g, c) + i - a);
    }
    assert ClusterSectors(g, s[ClusterStart(g, c) + i := x], c2) == ClusterSectors(g, s, c2);
  }

  lemma NoCluster(g: Geometry, s: Sectors, c: nat)
    requires Fits(g, s) && !InRange(g, c)
    ensures ClusterAt(g, s, c) == [] && FatAt(g, s, c) == FREE
  {
  }

  /** Writing the i-th sector of a cluster overwrites 512 bytes of that cluster only. */
  lemma SectorView(g: Geometry, s: Sectors, c: nat, i: nat, x: seq<byte>)
    requires Fits(g, s) && InRange(g, c) && i < g.spc && |x| == 512
    ensures ClusterStart(g, c) + i < |s| && i * 512 + 512 <= g.ClusterSize()
    ensures var s' := s[ClusterStart(g, c) + i := x];
            var d := View(g, s);
            Fits(g, s') && View(g, s') == d.(clus := d.clus[c := Splice(d.clus[c], i * 512, x)])
  {
    hide FatAt, ClusterAt, Splice, ClusterStart;
    ClusterBounds(g, |s|, c);
    var k := ClusterStart(g, c) + i;
    FatUntouched(g, s, k, x);
    SectorWriteSame(g, s, c, i, x);
    hide Sound;
    var d := View(g, s).(clus := View(g, s).clus[c := Splice(View(g, s).clus[c], i * 512, x)]);
    forall c2: nat | c2 < g.Limit()
      ensures d.clus[c2] == ClusterAt(g, s[k := x], c2)
    {
      if InRange(g, c2) {
        if c2 != c { SectorWriteOther(g, s, c, i, x, c2); }
      } else {
        NoCluster(g, s, c2);
        NoCluster(g, s[k := x], c2);
      }
    }
    ViewExt(g, s[k := x], d);
  }

  /** The two FAT copies hold the same sectors. */
  ghost predicate CopiesAgree(g: Geometry, s: Sectors)
    requires Fits(g, s)
  {
    ClusterBounds(g, |s|, g.root);
    g.numFats > 1 ==>
      s[g.fatOffset..g.fatOffset + g.fatSize] == s[g.fatOffset + g.fatSize..g.fatOffset + 2 * g.fatSize]
  }

  /** Writing one sector at the same place of both copies keeps them equal. */
  lemma MirroredWrite(g: Geometry, s: Sectors, k: nat, x: seq<byte>)
    requires Fits(g, s) && CopiesAgree(g, s) && |x| == 512
    requires g.fatOffset <= k < g.fatOffset + g.fatSize
    ensures k + (if g.numFats > 1 then g.fatSize else 0) < |s|
    ensures var s' := if g.numFats > 1 then s[k := x][k + g.fatSize := x] else s[k := x];
            Fits(g, s') && CopiesAgree(g, s')
  {
    ClusterBounds(g, |s|, g.root);
  }

  /** Writing in the data area leaves both copies alone. */
  lemma CopiesKept(g: Geometry, s: Sectors, k: nat, x: seq<byte>)
    requires Fits(g, s) && CopiesAgree(g, s) && |x| == 512 && g.dataOffset <= k < |s|
    ensures CopiesAgree(g, s[k := x])
  {
    ClusterBounds(g, |s|, g.root);
    var s' := s[k := x];
    assert s'[g.fatOffset..g.fatOffset + g.fatSize] == s[g.fatOffset..g.fatOffset + g.fatSize];
    if g.numFats > 1 {
      assert s'[g.fatOffset + g.fatSize..g.fatOffset + 2 * g.fatSize]
          == s[g.fatOffset + g.fatSize..g.fatOffset + 2 * g.fatSize];
    }
  }
}
