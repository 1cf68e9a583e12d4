/** The mounted volume: sector I/O, table entries, clusters, cluster allocation and freeing. */
module Fat32Volume {
  import opened Bytes
  import opened Fat32Layout
  import opened Fat32Chain
  import opened Fat32State
  import opened Fat32Abs

  /** Sector list `s` reads as `d`. */
  ghost predicate Shows(g: Geometry, s: Sectors, d: Disk)
  {
    Fits(g, s) && View(g, s) == d
  }

  /** The first `j` sectors of a cluster write have reached the disk. */
  ghost function Torn(g: Geometry, was: seq<byte>, now: seq<byte>, j: nat): (b: seq<byte>)
    requires |was| == |now| == g.ClusterSize() && j <= g.spc
    ensures |b| == g.ClusterSize()
  {
    now[..512 * j] + was[512 * j..]
  }

  /** One more sector of a cluster write, on the bytes. */
  lemma TornSplice(g: Geometry, was: seq<byte>, now: seq<byte>, i: nat)
    requires |was| == |now| == g.ClusterSize() && i < g.spc
    ensures i * 512 + 512 <= |now|
    ensures Splice(Torn(g, was, now, i), i * 512, now[i * 512..i * 512 + 512])
            == Torn(g, was, now, i + 1)
  {
    var l := Splice(Torn(g, was, now, i), i * 512, now[i * 512..i * 512 + 512]);
    var r := Torn(g, was, now, i + 1);
    assert l[..i * 512] == r[..i * 512];
    assert l[i * 512..i * 512 + 512] == r[i * 512..i * 512 + 512];
    assert l[i * 512 + 512..] == r[i * 512 + 512..];
  }

  /** The disk with one cluster torn at sector `j`. */
  ghost function TornDisk(g: Geometry, d: Disk, c: nat, now: seq<byte>, j: nat): Disk
    requires DiskShape(g, d) && InRange(g, c) && |now| == g.ClusterSize() && j <= g.spc
  {
    d.(clus := d.clus[c := Torn(g, d.clus[c], now, j)])
  }

  /** Every state since `from` shows `d` with cluster `c` torn somewhere between `d` and `now`. */
  ghost predicate TornSince(g: Geometry, trace: seq<Sectors>, from: nat, d: Disk, c: nat, now: seq<byte>)
    requires DiskShape(g, d) && InRange(g, c) && |now| == g.ClusterSize()
  {
    from <= |trace| && forall k :: from <= k < |trace| ==>
      exists j :: 0 <= j <= g.spc && Shows(g, trace[k], TornDisk(g, d, c, now, j))
  }

  /** The sectors show `d` with some of the clusters that a walk from `start` meets freed, the first one included. */
  ghost predicate PartFreed(g: Geometry, s: Sectors, d: Disk, start: nat, some: set<nat>)
  {
    start in some && some <= Reach(d.fat, start) && Shows(g, s, d.(fat := Freed(d.fat, some)))
  }

  ghost predicate HalfFreed(g: Geometry, s: Sectors, d: Disk, start: nat)
  {
    exists some: set<nat> :: PartFreed(g, s, d, start, some)
  }

  ghost predicate FreedSince(g: Geometry, trace: seq<Sectors>, from: nat, d: Disk, start: nat)
  {
    from <= |trace| && forall k :: from <= k < |trace| ==> HalfFreed(g, trace[k], d, start)
  }

  lemma FreedNone(g: Geometry, trace: seq<Sectors>, d: Disk, start: nat)
    ensures FreedSince(g, trace, |trace|, d, start)
  {
  }

  lemma FreedMore(g: Geometry, trace: seq<Sectors>, trace': seq<Sectors>, from: nat, d: Disk, start: nat, some: set<nat>)
    requires FreedSince(g, trace, from, d, start) && trace <= trace' && start in some && some <= Reach(d.fat, start)
    requires forall k :: |trace| <= k < |trace'| ==> Shows(g, trace'[k], d.(fat := Freed(d.fat, some)))
    ensures FreedSince(g, trace', from, d, start)
  {
    hide Shows, Reach, Freed;
    forall k | from <= k < |trace'|
      ensures HalfFreed(g, trace'[k], d, start)
    {
      if k >= |trace| {
        assert PartFreed(g, trace'[k], d, start, some);
      } else {
        assert trace'[k] == trace[k] && HalfFreed(g, trace[k], d, start);
      }
    }
  }

  lemma TornEnds(g: Geometry, d: Disk, c: nat, now: seq<byte>)
    requires DiskShape(g, d) && InRange(g, c) && |now| == g.ClusterSize()
    ensures TornDisk(g, d, c, now, 0) == d
    ensures TornDisk(g, d, c, now, g.spc) == d.(clus := d.clus[c := now])
  {
    assert Torn(g, d.clus[c], now, 0) == d.clus[c];
    assert Torn(g, d.clus[c], now, g.spc) == now;
  }

  /** One more sector of a cluster write, on the disk. */
  lemma TornStep(g: Geometry, s: Sectors, d: Disk, c: nat, now: seq<byte>, i: nat)
    requires DiskShape(g, d) && InRange(g, c) && |now| == g.ClusterSize() && i < g.spc
    requires Shows(g, s, TornDisk(g, d, c, now, i)) && CopiesAgree(g, s)
    ensures ClusterStart(g, c) + i < |s| && i * 512 + 512 <= |now|
    ensures var s' := s[ClusterStart(g, c) + i := now[i * 512..i * 512 + 512]];
            Shows(g, s', TornDisk(g, d, c, now, i + 1)) && CopiesAgree(g, s')
  {
    TornSplice(g, d.clus[c], now, i);
    SectorView(g, s, c, i, now[i * 512..i * 512 + 512]);
    ClusterBounds(g, |s|, c);
    CopiesKept(g, s, ClusterStart(g, c) + i, now[i * 512..i * 512 + 512]);
  }

  /** The sector a table update writes to both copies. */
  ghost function EntrySector(g: Geometry, s: Sectors, c: nat, value: nat): (x: seq<byte>)
    requires Fits(g, s) && InRange(g, c)
    ensures FatSector(g, c) < |s| && FatByte(c) + 4 <= 512
    ensures x == PatchEntry(s[FatSector(g, c)], FatByte(c), value)
  {
    ClusterBounds(g, |s|, c);
    FatEntryPlace(g, |s|, c, c);
    PatchEntry(s[FatSector(g, c)], FatByte(c), value)
  }

  ghost function UpdatedView(g: Geometry, s: Sectors, c: nat, value: nat): Disk
    requires Fits(g, s) && InRange(g, c)
  {
    View(g, s).(fat := View(g, s).fat[c := value % 0x1000_0000])
  }

  /** After the primary write the updated table already shows. */
  lemma PrimaryWritten(g: Geometry, s: Sectors, c: nat, value: nat)
    requires Fits(g, s) && InRange(g, c)
    ensures FatSector(g, c) < |s| && |s[FatSector(g, c)]| == 512 && FatByte(c) + 4 <= 512
    ensures g.numFats >= 1
    ensures Shows(g, s[FatSector(g, c) := EntrySector(g, s, c, value)],
                  UpdatedView(g, s, c, value))
    ensures CopiesAgree(g, s) && g.numFats == 1 ==>
              CopiesAgree(g, s[FatSector(g, c) := EntrySector(g, s, c, value)])
  {
    ClusterBounds(g, |s|, c);
    FatEntryPlace(g, |s|, c, c);
    PatchView(g, s, c, value);
  }

  /** The backup write changes nothing the driver reads and makes the copies agree again. */
  lemma BackupWritten(g: Geometry, s: Sectors, c: nat, value: nat)
    requires Fits(g, s) && CopiesAgree(g, s) && InRange(g, c) && g.numFats > 1
    ensures FatSector(g, c) + g.fatSize < |s|
    ensures var x := EntrySector(g, s, c, value);
            var s2 := s[FatSector(g, c) := x][FatSector(g, c) + g.fatSize := x];
            CopiesAgree(g, s2) &&
            Shows(g, s2, UpdatedView(g, s, c, value))
  {
    hide View, EntrySector, UpdatedView, PatchEntry;
    var x := EntrySector(g, s, c, value);
    PrimaryWritten(g, s, c, value);
    FatEntryPlace(g, |s|, c, c);
    MirroredWrite(g, s, FatSector(g, c), x);
    BackupView(g, s[FatSector(g, c) := x], FatSector(g, c) + g.fatSize, x);
  }

  /**
   * `trace` is the history of disk states, one per sector write; stopping the machine leaves one
   * of them behind.  `cache` is the optional in-memory copy of the FAT (empty when there is none).
   * `fs` is the structure the disk holds while the volume is mounted.
   */
  class Volume {
    const g: Geometry
    var sectors: Sectors
    var cache: seq<nat>
    ghost var disk: Disk
    ghost var trace: seq<Sectors>
    ghost var fs: Fs

    ghost predicate Valid()
      reads this`sectors, this`cache, this`disk
      ensures Valid() ==> DiskShape(g, disk) && g.Limit() <= EOC_MIN && InRange(g, g.root) && g.spc > 0
    {
      && Fits(g, sectors)
      && CopiesAgree(g, sectors)
      && disk == View(g, sectors)
      && forall c :: InRange(g, c) && c < |cache| ==> cache[c] == disk.fat[c]
    }

    /** Between operations: consistent, nothing leaked, nothing unnamed. */
    ghost predicate Mounted()
      reads this
    {
      Valid() && Consistent(g, disk, fs) && NoLeak(g, disk.fat, fs) && fs.pending == {}
    }

    /** The file system the volume holds. */
    ghost function Files(): map<nat, Obj>
      reads this`disk, this`fs
    {
      Abs(g, disk, fs)
    }

    constructor (geometry: Geometry, contents: Sectors, ghost structure: Fs)
      requires Fits(geometry, contents) && CopiesAgree(geometry, contents)
      ensures Valid() && g == geometry && sectors == contents && cache == [] && trace == [] && fs == structure
    {
      g := geometry;
      sectors := contents;
      cache := [];
      disk := View(geometry, contents);
      trace := [];
      fs := structure;
    }

    method BlkRead(lba: nat) returns (ok: bool, buf: seq<byte>)
      ensures ok <==> lba < |sectors|
      ensures ok ==> buf == sectors[lba]
    {
      ok := lba < |sectors|;
      buf := if ok then sectors[lba] else [];
    }

    method BlkWrite(lba: nat, buf: seq<byte>) returns (ok: bool)
      modifies this`sectors, this`trace
      ensures ok <==> lba < |old(sectors)|
      ensures ok ==> sectors == old(sectors)[lba := buf] && trace == old(trace) + [sectors]
      ensures !ok ==> sectors == old(sectors) && trace == old(trace)
    {
      ok := lba < |sectors|;
      if ok {
        sectors := sectors[lba := buf];
        trace := trace + [sectors];
      }
    }

    method GetNext(cluster: nat) returns (next: nat)
      requires Valid()
      ensures next == NextOf(disk.fat, cluster)
    {
      if cluster < 2 || cluster >= g.total + 2 {
        return EOC_MAX;
      }
      if cluster < |cache| {
        return cache[cluster] % 0x1000_0000;
      }
      hide View, CopiesAgree;
      ViewAt(g, sectors, cluster);
      ClusterBounds(g, |sectors|, cluster);
      FatEntryPlace(g, |sectors|, cluster, cluster);
      var ok, buf := BlkRead(g.fatOffset + cluster * 4 / 512);
      if !ok {
        return EOC_MAX;
      }
      var off := cluster * 4 % 512;
      next := Le32(buf[off..off + 4]) % 0x1000_0000;
    }

    /** Read the table sector, patch it, write it to the first FAT and then to the second. */
    method StoreEntry(cluster: nat, value: nat) returns (rc: int)
      requires Fits(g, sectors) && CopiesAgree(g, sectors) && InRange(g, cluster)
      modifies this`sectors, this`trace
      ensures rc == 0 && |sectors| == |old(sectors)|
      ensures Shows(g, sectors, UpdatedView(g, old(sectors), cluster, value)) && CopiesAgree(g, sectors)
      ensures old(trace) <= trace
      ensures forall k :: |old(trace)| <= k < |trace| ==>
                Shows(g, trace[k], UpdatedView(g, old(sectors), cluster, value))
    {
      hide View, Sound, WellSized, PatchEntry, FatSector, FatByte, CopiesAgree, UpdatedView;
      PrimaryWritten(g, sectors, cluster, value);
      ghost var was := sectors;
      var lba := FatSector(g, cluster);
      var ok, buf := BlkRead(lba);
      if !ok {
        return -1;
      }
      buf := PatchEntry(buf, FatByte(cluster), value);
      ok := BlkWrite(lba, buf);
      if !ok {
        return -1;
      }
      if g.numFats > 1 {
        BackupWritten(g, was, cluster, value);
        var _ := BlkWrite(lba + g.fatSize, buf);
      }
      rc := 0;
    }

    /** Both copies of the table get the new entry, primary first; the view changes in one place. */
    method SetFatEntry(cluster: nat, value: nat) returns (rc: int)
      requires Valid()
      modifies this`sectors, this`cache, this`disk, this`trace
      ensures Valid() && |sectors| == |old(sectors)| && |cache| == |old(cache)|
      ensures InRange(g, cluster) ==>
                rc == 0 && disk == old(disk).(fat := old(disk).fat[cluster := value % 0x1000_0000])
      ensures !InRange(g, cluster) ==> rc == -1 && sectors == old(sectors) && disk == old(disk)
      ensures old(trace) <= trace
      ensures forall k :: |old(trace)| <= k < |trace| ==> Shows(g, trace[k], disk)
    {
      hide View, Sound, WellSized, CopiesAgree;
      if cluster < 2 || cluster >= g.total + 2 {
        return -1;
      }
      if cluster < |cache| {
        cache := cache[cluster := value % 0x1000_0000];
      }
      rc := StoreEntry(cluster, value);
      disk := disk.(fat := disk.fat[cluster := value % 0x1000_0000]);
    }

    method ReadCluster(cluster: nat) returns (rc: int, buf: seq<byte>)
      requires Valid()
      ensures InRange(g, cluster) ==> rc == 0 && buf == disk.clus[cluster]
      ensures cluster < 2 ==> rc == -1
    {
      hide View, FatAt, CopiesAgree;
      buf := [];
      var sector := ClusterStart(g, cluster);
      if cluster < 2 {
        return -1, [];
      }
      ghost var parts := [];
      if InRange(g, cluster) {
        ClusterBounds(g, |sectors|, cluster);
        ViewAt(g, sectors, cluster);
        parts := ClusterSectors(g, sectors, cluster);
      }
      var i := 0;
      while i < g.spc
        invariant 0 <= i <= g.spc
        invariant InRange(g, cluster) ==> buf == Flat(parts[..i])
      {
        var ok, piece := BlkRead(sector + i);
        if !ok {
          return -1, buf;
        }
        buf := buf + piece;
        if InRange(g, cluster) {
          assert parts[..i + 1] == parts[..i] + [parts[i]];
          FlatAppend(parts[..i], [parts[i]]);
          FlatOne(parts[i]);
        }
        i := i + 1;
      }
      assert InRange(g, cluster) ==> parts[..i] == parts;
      rc := 0;
    }

    /** The cluster's sectors are written one by one; every state in between is a torn cluster. */
    method WriteCluster(cluster: nat, buf: seq<byte>) returns (rc: int)
      requires Valid() && cluster < g.Limit() && |buf| == g.ClusterSize()
      modifies this`sectors, this`cache, this`disk, this`trace
      ensures Valid() && |sectors| == |old(sectors)| && cache == old(cache)
      ensures cluster < 2 ==> rc == -1 && sectors == old(sectors) && disk == old(disk) && trace == old(trace)
      ensures InRange(g, cluster) ==> rc == 0 && disk == old(disk).(clus := old(disk).clus[cluster := buf])
      ensures old(trace) <= trace
      ensures InRange(g, cluster) ==> TornSince(g, trace, |old(trace)|, old(disk), cluster, buf)
    {
      hide View, Sound, WellSized, ClusterStart, CopiesAgree, TornDisk;
      var sector := ClusterStart(g, cluster);
      if cluster < 2 {
        return -1;
      }
      var i := 0;
      ghost var was := disk;
      TornEnds(g, was, cluster, buf);
      while i < g.spc
        invariant 0 <= i <= g.spc
        invariant Fits(g, sectors) && CopiesAgree(g, sectors)
        invariant Shows(g, sectors, TornDisk(g, was, cluster, buf, i))
        invariant |sectors| == |old(sectors)| && cache == old(cache) && disk == was
        invariant old(trace) <= trace
        invariant TornSince(g, trace, |old(trace)|, was, cluster, buf)
      {
        TornStep(g, sectors, was, cluster, buf, i);
        var ok := BlkWrite(sector + i, buf[i * 512..i * 512 + 512]);
        if !ok {
          return -1;
        }
        i := i + 1;
      }
      disk := disk.(clus := disk.clus[cluster := buf]);
      rc := 0;
    }

    /** The lowest free cluster, marked as the end of a chain; 0 exactly when none is free. */
    method AllocCluster() returns (c: nat)
      requires Valid()
      modifies this`sectors, this`cache, this`disk, this`trace
      ensures Valid() && |sectors| == |old(sectors)|
      ensures c == 0 ==> disk == old(disk) && trace == old(trace) && forall x :: InRange(g, x) ==> disk.fat[x] != FREE
      ensures c != 0 ==> InRange(g, c) && old(disk).fat[c] == FREE
      ensures c != 0 ==> forall x :: 2 <= x < c ==> old(disk).fat[x] != FREE
      ensures c != 0 ==> disk == old(disk).(fat := old(disk).fat[c := EOC_MAX])
      ensures old(trace) <= trace
      ensures forall k :: |old(trace)| <= k < |trace| ==> Shows(g, trace[k], disk)
    {
      hide Volume.Valid;
      var cluster := 2;
      while cluster < g.total + 2
        invariant 2 <= cluster <= g.Limit()
        invariant Valid() && sectors == old(sectors) && disk == old(disk) && trace == old(trace)
        invariant forall x :: 2 <= x < cluster ==> disk.fat[x] != FREE
      {
        var entry := GetNext(cluster);
        if entry == FREE {
          var _ := SetFatEntry(cluster, EOC_MAX);
          return cluster;
        }
        cluster := cluster + 1;
      }
      return 0;
    }

    method FreeCluster(cluster: nat)
      requires Valid()
      modifies this`sectors, this`cache, this`disk, this`trace
      ensures Valid() && |sectors| == |old(sectors)|
      ensures InRange(g, cluster) ==> disk == old(disk).(fat := old(disk).fat[cluster := FREE])
      ensures !InRange(g, cluster) ==> disk == old(disk) && trace == old(trace)
      ensures old(trace) <= trace
      ensures forall k :: |old(trace)| <= k < |trace| ==> Shows(g, trace[k], disk)
    {
      if cluster < 2 || cluster >= g.total + 2 {
        return;
      }
      var _ := SetFatEntry(cluster, FREE);
    }

    /**
     * On every table, the loop stops and frees exactly the in-range clusters met from the start, the
     * start itself first.
     */
    method FreeChain(start: nat)
      requires Valid()
      modifies this`sectors, this`cache, this`disk, this`trace
      ensures Valid() && |sectors| == |old(sectors)|
      ensures disk == old(disk).(fat := Freed(old(disk).fat, Reach(old(disk).fat, start)))
      ensures old(trace) <= trace
      ensures InRange(g, start) ==> FreedSince(g, trace, |old(trace)|, old(disk), start)
    {
      hide Volume.Valid, FreedSince, Freed, NonFree, WalkTo, Reach, Shows;
      ghost var fat0 := disk.fat;
      ghost var v: set<nat> := {};
      FreedStart(fat0, start);
      ghost var steps: nat := 0;
      FreedNone(g, trace, old(disk), start);
      var cluster: nat := start;
      while cluster >= 2 && cluster < EOC_MIN
        invariant Valid() && |sectors| == |old(sectors)|
        invariant old(trace) <= trace
        invariant InRange(g, start) ==> FreedSince(g, trace, |old(trace)|, old(disk), start)
        invariant disk == old(disk).(fat := Freed(fat0, v))
        invariant cluster == FREE || WalkTo(fat0, start, steps, cluster)
        invariant InRange(g, start) ==> start in v || start == cluster
        invariant forall x :: x in v ==> InRange(g, x) && Meets(fat0, start, x)
        invariant forall x :: x in v && InRange(g, NextOf(fat0, x)) ==>
                    NextOf(fat0, x) in v || NextOf(fat0, x) == cluster
        decreases NonFree(disk.fat), if Walkable(cluster) then 1 else 0
      {
        ghost var before, trace0 := disk.fat, trace;
        var next := GetNext(cluster);
        FreeCluster(cluster);
        WalkStep(fat0, start, steps, cluster);
        if InRange(g, cluster) {
          FreedOne(fat0, v, cluster);
          FewerNonFree(before, cluster);
          v := v + {cluster};
          SomeReach(fat0, start, v);
          if InRange(g, start) {
            FreedMore(g, trace0, trace, |old(trace)|, old(disk), start, v);
          }
        }
        steps := steps + 1;
        cluster := next;
      }
      ReachIs(fat0, start, v);
    }
  }
}
