/** Removing files and empty directories. */
module Fat32Remove {
  import opened Bytes
  import opened Fat32Layout
  import opened Fat32Chain
  import opened Fat32Name
  import opened Fat32Dir
  import opened Fat32State
  import opened Fat32Moves
  import opened Fat32Free
  import opened Fat32Quota
  import opened Fat32Abs
  import opened Fat32Volume
  import opened Fat32Scan
  import opened Fat32Tree
  import opened Fat32Reading
  import opened Fat32Crash

  /** The disk with chain `h` freed and its slot erased. */
  ghost function RemovedDisk(disk: Disk, c: nat, i: nat, s: Slot, h: nat): Disk
    requires c < |disk.clus| && 32 * i + 32 <= |disk.clus[c]| && IsSlot(s)
  {
    Disk(Freed(disk.fat, Reach(disk.fat, h)), SlotDisk(disk, c, i, Erased(s)).clus)
  }

  ghost function RemovedFs(f: Fs, d: nat, p: nat, h: nat): Fs
    requires d in f.slots && p < |f.slots[d]| && IsSlot(f.slots[d][p]) && h in f.chains
  {
    Dropped(Detached(f, d, p, h), h)
  }

  /** The folder entry and the object a removal takes away. */
  ghost function Without(m: map<nat, Obj>, dir: nat, entries: map<Name, nat>, name: Name, h: nat): map<nat, Obj>
  {
    (m - {h})[dir := Folder(entries - {name})]
  }

  /** Erasing the slot and freeing the chain, in either order. */
  lemma RemoveMove(g: Geometry, disk: Disk, f: Fs, d: nat, j: nat, i: nat, h: nat)
    requires Consistent(g, disk, f) && NoLeak(g, disk.fat, f) && f.pending == {} && g.Limit() <= EOC_MIN
    requires At(g, f, d, j, i) && CanDetach(f, d, j * PerCluster(g) + i, h)
    ensures h in f.chains && f.chains[d][j] < |disk.clus| && 32 * i + 32 <= |disk.clus[f.chains[d][j]]|
    ensures var disk' := RemovedDisk(disk, f.chains[d][j], i, f.slots[d][j * PerCluster(g) + i], h);
            var f' := RemovedFs(f, d, j * PerCluster(g) + i, h);
            && Consistent(g, disk', f') && f'.pending == {}
            && |disk'.fat| == g.Limit() && NoLeak(g, disk'.fat, f')
            && (Tidy(f.slots) ==>
                  && Abs(g, disk', f') == Without(Abs(g, disk, f), d, DirMap(f.slots[d]),
                                                  SlotName(f.slots[d][j * PerCluster(g) + i]), h)
                  && Tidy(f'.slots))
  {
    hide Consistent, Abs, Tidy, DirMap, SlotName, SlotFirst, IsLive, Erased, NoneLive;
    var p := j * PerCluster(g) + i;
    DetachMove(g, disk, f, d, j, i, h);
    var disk1 := SlotDisk(disk, f.chains[d][j], i, Erased(f.slots[d][p]));
    var f1 := Detached(f, d, p, h);
    HeadFacts(g, disk, f);
    HeadFacts(g, disk1, f1);
    FreeMove(g, disk1, f1, h);
    AbsFree(g, disk1, f1, h);
    if Tidy(f.slots) {
      AbsDetach(g, disk, f, d, j, i, h);
    }
  }

  /** Marking a slot deleted overwrites its first byte. */
  lemma EraseByte(buf: seq<byte>, i: nat)
    requires i < |ClusterSlots(buf)|
    ensures 32 * i + 32 <= |buf|
    ensures buf[32 * i := DELETED as byte] == Splice(buf, 32 * i, Erased(ClusterSlots(buf)[i]))
  {
  }

  /** The slot an unlink scan found is a file's. */
  lemma UnlinkFound(g: Geometry, disk: Disk, f: Fs, dir: nat, name: Name, j: nat, i: nat)
    requires Consistent(g, disk, f) && dir in f.slots && dir in f.chains && j < |f.chains[dir]| && i < PerCluster(g)
    requires ScanHit(f.slots[dir], UnlinkName(name), j * PerCluster(g) + i)
    ensures var p := j * PerCluster(g) + i;
            && At(g, f, dir, j, i) && Named(f.slots[dir][p], name)
            && SlotFirst(f.slots[dir][p]) !in f.slots && CanDetach(f, dir, p, SlotFirst(f.slots[dir][p]))
            && f.chains[dir][j] < |disk.clus| && i < |ClusterSlots(disk.clus[f.chains[dir][j]])|
            && ClusterSlots(disk.clus[f.chains[dir][j]])[i] == f.slots[dir][p]
  {
    hide Consistent, Entries, ClusterSlots, DirSlots, SlotFirst, SlotName, TailOk, Readable;
    var p := j * PerCluster(g) + i;
    DirFacts(g, disk, f, dir);
    PlainHits(f, dir, p, UnlinkName(name));
    EntryAt(f, dir, p);
    SlotPlace(g, disk, f.chains[dir], j, i);
  }

  /** With unique names, the slot named `n` is the one the map reads. */
  lemma UniqueFind(slots: seq<Slot>, n: Name, p: nat)
    requires Unique(slots) && p < |slots| && Named(slots[p], n)
    ensures n in DirMap(slots) && DirMap(slots)[n] == SlotFirst(slots[p]) && Find(slots, n) == p
  {
    hide DirMap, SlotName, SlotFirst;
    FindIs(slots, n, p);
    MapAt(slots, n);
  }

  /** `name` reads as a file in this folder. */
  ghost predicate FileNamed(f: Fs, dir: nat, name: Name)
    requires dir in f.slots
  {
    name in DirMap(f.slots[dir]) && DirMap(f.slots[dir])[name] !in f.slots
  }

  lemma UnlinkMissing(f: Fs, dir: nat, name: Name)
    requires Entries(f.slots, f.owner) && dir in f.slots
    requires forall k :: 0 <= k < |f.slots[dir]| ==> IsSlot(f.slots[dir][k]) && !Hits(UnlinkName(name), f.slots[dir][k])
    ensures !FileNamed(f, dir, name)
  {
    hide DirMap, SlotName, SlotFirst, Hits, Entries;
    MapAt(f.slots[dir], name);
    var p := Find(f.slots[dir], name);
    if p >= 0 {
      PlainHits(f, dir, p, UnlinkName(name));
      EntryAt(f, dir, p);
    }
  }

  // ---------------------------------------------------------------- stopping in the middle

  /** Every state since `from` has part of the chain freed and the slot still there, or the removal done. */
  ghost predicate RemovalStops(g: Geometry, trace: seq<Sectors>, from: nat, disk: Disk, h: nat, disk': Disk)
  {
    from <= |trace| && forall k :: from <= k < |trace| ==> HalfFreed(g, trace[k], disk, h) || Shows(g, trace[k], disk')
  }

  /** Freeing clusters of `h` leaves the folder that names it as it was. */
  lemma FolderStays(g: Geometry, disk: Disk, f: Fs, d: nat, h: nat, some: set<nat>)
    requires Consistent(g, disk, f) && d in f.slots && h in f.chains && d != h && some <= Clusters(f.chains[h])
    ensures d in f.chains && IsChain(g, Freed(disk.fat, some), d, f.chains[d])
    ensures DirSlots(disk.(fat := Freed(disk.fat, some)), f.chains[d]) == f.slots[d]
  {
    hide Entries, Owners, Sizes, Spots, DirSlots, TailOk, Heads, Readable;
    DirFacts(g, disk, f, d);
    DroppedLinks(g, disk.fat, f.chains, f.spot, h, some);
    assert IsChain(g, Freed(disk.fat, some), d, (f.chains - {h})[d]);
    FatFrame(disk, Freed(disk.fat, some), f.chains[d]);
  }

  /**
   * A disk on which a removal stopped half way: no structure that has the folder reads it as
   * consistent, because the slot names a free cluster; erasing that slot makes it consistent, with
   * everything but the removed object as it was and at worst leaked clusters.
   */
  lemma HalfRemoved(g: Geometry, s: Sectors, disk: Disk, f: Fs, d: nat, j: nat, i: nat, h: nat)
    requires Consistent(g, disk, f) && g.Limit() <= EOC_MIN && f.pending == {}
    requires At(g, f, d, j, i) && CanDetach(f, d, j * PerCluster(g) + i, h) && HalfFreed(g, s, disk, h)
    ensures Fits(g, s) && Unreadable(g, View(g, s), d)
    ensures h in f.chains && f.chains[d][j] < |View(g, s).clus| && 32 * i + 32 <= |View(g, s).clus[f.chains[d][j]]|
    ensures var p := j * PerCluster(g) + i;
            var disk' := SlotDisk(View(g, s), f.chains[d][j], i, Erased(f.slots[d][p]));
            && Consistent(g, disk', RemovedFs(f, d, p, h))
            && (Tidy(f.slots) ==>
                  Abs(g, disk', RemovedFs(f, d, p, h)) ==
                  Without(Abs(g, disk, f), d, DirMap(f.slots[d]), SlotName(f.slots[d][p]), h))
  {
    hide Consistent, Abs, Tidy, DirMap, DirSlots, SlotName, SlotFirst, IsLive, Erased, Unreadable, View, Reach, Fits;
    var p := j * PerCluster(g) + i;
    var some :| PartFreed(g, s, disk, h, some);
    Detachable(g, disk, f, d, p, h);
    ReachChain(g, disk.fat, h, f.chains[h]);
    FolderStays(g, disk, f, d, h, some);
    NamesFree(g, View(g, s), d, f.chains[d], p);
    DetachMove(g, disk, f, d, j, i, h);
    var disk1, f1 := SlotDisk(disk, f.chains[d][j], i, Erased(f.slots[d][p])), Detached(f, d, p, h);
    HeadFacts(g, disk1, f1);
    PartFreeMove(g, disk1, f1, h, some);
    AbsFat(g, disk1, f1, disk1.(fat := Freed(disk.fat, some)), Dropped(f1, h));
    if Tidy(f.slots) {
      AbsDetach(g, disk, f, d, j, i, h);
    }
  }

  lemma Detachable(g: Geometry, disk: Disk, f: Fs, d: nat, p: nat, h: nat)
    requires Consistent(g, disk, f) && CanDetach(f, d, p, h)
    ensures h in f.chains && IsChain(g, disk.fat, h, f.chains[h]) && h < |disk.fat| && |disk.fat| == g.Limit()
    ensures d in f.slots && p < |f.slots[d]| && IsSlot(f.slots[d][p]) && IsLive(f.slots[d][p]) && SlotFirst(f.slots[d][p]) == h
    ensures d != h
  {
    hide Consistent, Entries, Readable, DirSlots, SlotFirst, TailOk;
    DirFacts(g, disk, f, d);
    EntryAt(f, d, p);
    OwnedChain(g, disk, f, h);
  }

  /** The states of a removal: those of the freeing loop, then the slot's cluster before and after. */
  lemma RemovalTrace(g: Geometry, trace: seq<Sectors>, from: nat, mid: nat, disk: Disk, h: nat, c: nat, i: nat, x: Slot)
    requires DiskShape(g, disk) && InRange(g, c) && i < PerCluster(g) && IsSlot(x) && 32 * i + 32 <= g.ClusterSize()
    requires mid <= |trace| && FreedSince(g, trace[..mid], from, disk, h) && h in Reach(disk.fat, h)
    requires var disk1 := disk.(fat := Freed(disk.fat, Reach(disk.fat, h)));
             DiskShape(g, disk1) && TornSince(g, trace, mid, disk1, c, Splice(disk.clus[c], 32 * i, x))
    ensures var disk1 := disk.(fat := Freed(disk.fat, Reach(disk.fat, h)));
            RemovalStops(g, trace, from, disk, h, SlotDisk(disk1, c, i, x))
  {
    hide Shows, Reach, Torn, Splice, HalfFreed;
    var disk1 := disk.(fat := Freed(disk.fat, Reach(disk.fat, h)));
    var now := Splice(disk.clus[c], 32 * i, x);
    forall k | from <= k < |trace|
      ensures HalfFreed(g, trace[k], disk, h) || Shows(g, trace[k], SlotDisk(disk1, c, i, x))
    {
      if k < mid {
        assert trace[..mid][k] == trace[k];
      } else {
        var q :| 0 <= q <= g.spc && Shows(g, trace[k], TornDisk(g, disk1, c, now, q));
        TornSlot(g, disk.clus[c], i, x, q);
        if Torn(g, disk.clus[c], now, q) != now {
          assert disk1.clus[c := disk1.clus[c]] == disk1.clus;
          FreedAll(g, trace[k], disk, h);
        }
      }
    }
  }

  lemma FreedAll(g: Geometry, s: Sectors, disk: Disk, h: nat)
    requires h in Reach(disk.fat, h) && Shows(g, s, disk.(fat := Freed(disk.fat, Reach(disk.fat, h))))
    ensures HalfFreed(g, s, disk, h)
  {
    assert PartFreed(g, s, disk, h, Reach(disk.fat, h));
  }

  /** Freeing what the walk from a head meets. */
  lemma ReachCount(g: Geometry, disk: Disk, f: Fs, h: nat)
    requires Consistent(g, disk, f) && h in f.chains && g.Limit() <= EOC_MIN
    ensures FreeCount(g, Freed(disk.fat, Reach(disk.fat, h))) == FreeCount(g, disk.fat) + |f.chains[h]|
  {
    hide Consistent, FreeCount, Reach;
    ChainInside(g, disk, f, h);
    ReachChain(g, disk.fat, h, f.chains[h]);
    CountFreed(g, disk.fat, h, f.chains[h]);
  }

  /** What a removal that freed chain `h` and erased its slot leaves behind. */
  ghost predicate Removed(v: Volume, dir: nat, p: nat, h: nat, disk0: Disk, f0: Fs, from: nat)
    reads v
    requires dir in f0.slots && p < |f0.slots[dir]| && IsSlot(f0.slots[dir][p])
  {
    && v.Mounted() && h in f0.chains && FreeCount(v.g, v.disk.fat) == FreeCount(v.g, disk0.fat) + |f0.chains[h]|
    && RemovalStops(v.g, v.trace, from, disk0, h, v.disk) && QuotaOf(v.fs) == AfterRemove(QuotaOf(f0), dir, h)
    && (Tidy(f0.slots) ==>
          && Tidy(v.fs.slots)
          && v.Files() == Without(Abs(v.g, disk0, f0), dir, DirMap(f0.slots[dir]), SlotName(f0.slots[dir][p]), h))
  }

  /** Erase the slot of an object whose chain has just been freed. */
  method EraseSlot(v: Volume, dir: nat, cluster: nat, i: nat, buf: seq<byte>,
                   ghost j: nat, ghost h: nat, ghost disk0: Disk, ghost f0: Fs, ghost from: nat)
    requires v.Valid() && Consistent(v.g, disk0, f0) && NoLeak(v.g, disk0.fat, f0) && f0.pending == {}
    requires At(v.g, f0, dir, j, i) && CanDetach(f0, dir, j * PerCluster(v.g) + i, h)
    requires v.disk == disk0.(fat := Freed(disk0.fat, Reach(disk0.fat, h))) && FreedSince(v.g, v.trace, from, disk0, h)
    requires cluster == f0.chains[dir][j] && InRange(v.g, cluster) && cluster < |disk0.clus| && buf == disk0.clus[cluster]
    requires i < |ClusterSlots(buf)| && ClusterSlots(buf)[i] == f0.slots[dir][j * PerCluster(v.g) + i]
    modifies v
    ensures Removed(v, dir, j * PerCluster(v.g) + i, h, disk0, f0, from)
  {
    hide Volume.Valid, Consistent, Abs, Tidy, ClusterSlots, DirMap, SlotFirst, SlotName, Without, RemovedFs, NoLeak, FreeCount, Reach, RemovalStops, FreedSince, TornSince, CanDetach, Erased, Splice, DiskShape, Freed, QuotaOf, AfterRemove;
    ghost var g, trace0, p := v.g, v.trace, j * PerCluster(v.g) + i;
    ghost var x := Erased(f0.slots[dir][p]);
    EraseFacts(g, disk0, f0, dir, j, i, h);
    EraseByte(buf, i);
    var _ := v.WriteCluster(cluster, buf[32 * i := DELETED as byte]);
    assert v.trace[..|trace0|] == trace0;
    RemovalTrace(g, v.trace, from, |trace0|, disk0, h, cluster, i, x);
    v.fs := RemovedFs(f0, dir, p, h);
  }

  /** All that erasing the slot relies on. */
  lemma EraseFacts(g: Geometry, disk: Disk, f: Fs, d: nat, j: nat, i: nat, h: nat)
    requires Consistent(g, disk, f) && NoLeak(g, disk.fat, f) && f.pending == {} && g.Limit() <= EOC_MIN
    requires At(g, f, d, j, i) && CanDetach(f, d, j * PerCluster(g) + i, h)
    ensures var c, p := f.chains[d][j], j * PerCluster(g) + i;
            && DiskShape(g, disk) && InRange(g, c) && h in Reach(disk.fat, h)
            && c < |disk.clus| && |disk.clus[c]| == g.ClusterSize() && 32 * i + 32 <= |disk.clus[c]| && h in f.chains
            && IsSlot(f.slots[d][p])
            && var disk' := SlotDisk(disk.(fat := Freed(disk.fat, Reach(disk.fat, h))), c, i, Erased(f.slots[d][p]));
               var f' := RemovedFs(f, d, p, h);
            && Consistent(g, disk', f') && f'.pending == {} && NoLeak(g, disk'.fat, f')
            && FreeCount(g, disk'.fat) == FreeCount(g, disk.fat) + |f.chains[h]|
            && QuotaOf(f') == AfterRemove(QuotaOf(f), d, h)
            && (Tidy(f.slots) ==>
                  && Abs(g, disk', f') == Without(Abs(g, disk, f), d, DirMap(f.slots[d]), SlotName(f.slots[d][p]), h)
                  && Tidy(f'.slots))
  {
    hide Consistent, Abs, Tidy, DirMap, SlotFirst, SlotName, Without, NoLeak, FreeCount, Reach, Erased, Splice, QuotaOf, AfterRemove, Detached, Dropped, IsLive, ClusterSlots, DiskShape, NoneLive, IsChain, Owners, Heads;
    var p := j * PerCluster(g) + i;
    RemoveMove(g, disk, f, d, j, i, h);
    HeadFacts(g, disk, f);
    ShapeSizes(g, disk);
    InChain(g, disk, f, d, j);
    Detachable(g, disk, f, d, p, h);
    DetachedQuota(f, d, p, h);
    ReachCount(g, disk, f, h);
    FromHead(g, disk.fat, h, f.chains[h]);
    RemovedIs(disk, f.chains[d][j], i, f.slots[d][p], h);
  }

  lemma InChain(g: Geometry, disk: Disk, f: Fs, d: nat, j: nat)
    requires Consistent(g, disk, f) && d in f.chains && j < |f.chains[d]|
    ensures InRange(g, f.chains[d][j])
  {
    hide Consistent;
    ChainInside(g, disk, f, d);
  }

  lemma FromHead(g: Geometry, fat: seq<nat>, h: nat, ch: seq<nat>)
    requires |fat| == g.Limit() && g.Limit() <= EOC_MIN && IsChain(g, fat, h, ch)
    ensures h in Reach(fat, h)
  {
    ReachChain(g, fat, h, ch);
  }

  /**
   * `fat32_unlink`.  It succeeds exactly when the folder has a file of that name; then exactly
   * that name and that file are gone and its clusters are free.
   */
  method Unlink(v: Volume, dir: nat, name: Name) returns (rc: int)
    requires v.Mounted() && dir in v.fs.slots
    modifies v
    ensures v.Mounted() && (rc == 0 || rc == -1)
    ensures FileNamed(old(v.fs), dir, name) ==> rc == 0
    ensures rc == -1 ==> v.disk == old(v.disk) && v.fs == old(v.fs) && v.trace == old(v.trace)
    ensures Tidy(old(v.fs).slots) ==> Tidy(v.fs.slots)
    ensures Tidy(old(v.fs).slots) && rc == 0 ==>
              var m := DirMap(old(v.fs).slots[dir]);
              FileNamed(old(v.fs), dir, name) && v.Files() == Without(old(v.Files()), dir, m, name, m[name])
    ensures Tidy(old(v.fs).slots) && rc == 0 ==>
              var h := DirMap(old(v.fs).slots[dir])[name];
              && h in old(v.fs).chains
              && FreeCount(v.g, v.disk.fat) == FreeCount(v.g, old(v.disk).fat) + |old(v.fs).chains[h]|
              && RemovalStops(v.g, v.trace, |old(v.trace)|, old(v.disk), h, v.disk)
              && QuotaOf(v.fs) == AfterRemove(QuotaOf(old(v.fs)), dir, h)
  {
    hide Volume.Valid, Consistent, Abs, Tidy, ClusterSlots, DirMap, DirSlots, Entries, Hits, Readable, TailOk, SlotFirst, SlotName, Without, CanDetach, ScanHit, NoLeak, FreeCount, Reach, RemovalStops, FreedSince, FileNamed, QuotaOf, AfterRemove;
    ghost var g, disk0, f0 := v.g, v.disk, v.fs;
    DirFacts(g, disk0, f0, dir);
    var hit, cluster, i, buf;
    ghost var j;
    hit, cluster, i, buf, j := ScanDir(v, dir, UnlinkName(name), f0.chains[dir], f0.slots[dir]);
    if !hit {
      UnlinkMissing(f0, dir, name);
      return -1;
    }
    ghost var p := j * PerCluster(g) + i;
    UnlinkFound(g, disk0, f0, dir, name, j, i);
    SlotBytesAt(buf, i);
    var first := SlotFirst(buf[32 * i..32 * i + 32]);
    Detachable(g, disk0, f0, dir, p, first);
    HeadInRange(g, disk0, f0, first);
    if Tidy(f0.slots) {
      UnlinkTidy(f0, dir, name, p);
    }
    if first >= 2 {
      v.FreeChain(first);
    }
    EraseSlot(v, dir, cluster, i, buf, j, first, disk0, f0, |old(v.trace)|);
    rc := 0;
  }

  lemma HeadInRange(g: Geometry, disk: Disk, f: Fs, h: nat)
    requires Consistent(g, disk, f) && h in f.chains
    ensures InRange(g, h) && h >= 2
  {
    hide Consistent;
    ChainInside(g, disk, f, h);
  }

  lemma RemovedIs(disk: Disk, c: nat, i: nat, s: Slot, h: nat)
    requires c < |disk.clus| && 32 * i + 32 <= |disk.clus[c]| && IsSlot(s)
    ensures RemovedDisk(disk, c, i, s, h) ==
            Disk(Freed(disk.fat, Reach(disk.fat, h)), disk.clus[c := Splice(disk.clus[c], 32 * i, Erased(s))])
  {
  }

  lemma UnlinkTidy(f: Fs, dir: nat, name: Name, p: nat)
    requires Tidy(f.slots) && dir in f.slots && p < |f.slots[dir]| && Named(f.slots[dir][p], name)
    requires SlotFirst(f.slots[dir][p]) !in f.slots
    ensures FileNamed(f, dir, name) && DirMap(f.slots[dir])[name] == SlotFirst(f.slots[dir][p])
    ensures SlotName(f.slots[dir][p]) == name
  {
    hide DirMap, SlotName, SlotFirst;
    UniqueFind(f.slots[dir], name, p);
  }

  /** `name` reads as an empty directory in this folder. */
  ghost predicate EmptyDirNamed(f: Fs, dir: nat, name: Name)
    requires dir in f.slots
  {
    && name in DirMap(f.slots[dir]) && DirMap(f.slots[dir])[name] in f.slots
    && DirMap(f.slots[DirMap(f.slots[dir])[name]]) == map[]
  }

  /** A folder is empty exactly when no slot is live. */
  lemma EmptyIsNoneLive(slots: seq<Slot>)
    requires forall k :: 0 <= k < |slots| ==> IsSlot(slots[k])
    ensures DirMap(slots) == map[] <==> NoneLive(slots)
  {
    hide SlotName, SlotFirst;
    if !NoneLive(slots) {
      var k :| 0 <= k < |slots| && IsLive(slots[k]);
      assert SlotName(slots[k]) in Names(slots);
    }
  }

  /** What the emptiness scan decides. */
  lemma AnyEntryScan(f: Fs, h: nat)
    requires Entries(f.slots, f.owner) && h in f.slots
    ensures (forall k :: 0 <= k < |f.slots[h]| ==> IsSlot(f.slots[h][k]) && !Hits(AnyEntry, f.slots[h][k]))
            <==> DirMap(f.slots[h]) == map[]
    ensures DirMap(f.slots[h]) == map[] ==> NoneLive(f.slots[h])
  {
    hide Entries, DirMap, Hits, IsLive;
    forall k | 0 <= k < |f.slots[h]|
      ensures IsSlot(f.slots[h][k]) && (Hits(AnyEntry, f.slots[h][k]) <==> IsLive(f.slots[h][k]))
    {
      PlainHits(f, h, k, AnyEntry);
    }
    EmptyIsNoneLive(f.slots[h]);
  }

  /** Freeing another chain leaves a directory readable. */
  lemma StillReadable(g: Geometry, disk: Disk, f: Fs, d: nat, h: nat)
    requires Consistent(g, disk, f) && d in f.slots && h in f.chains && d != h && g.Limit() <= EOC_MIN
    ensures d in f.chains && Readable(g, disk.(fat := Freed(disk.fat, Reach(disk.fat, h))), f.chains[d], f.slots[d])
  {
    hide Entries, Owners, Sizes, Spots, DirSlots, TailOk, Heads;
    DirFacts(g, disk, f, d);
    ChainInside(g, disk, f, h);
    ReachChain(g, disk.fat, h, f.chains[h]);
    DroppedLinks(g, disk.fat, f.chains, f.spot, h, Clusters(f.chains[h]));
    var fat' := Freed(disk.fat, Clusters(f.chains[h]));
    assert IsChain(g, fat', d, (f.chains - {h})[d]);
    FatFrame(disk, fat', f.chains[d]);
  }

  /** Both scans of `fat32_rmdir` find the slot that names the target. */
  lemma RmdirFound(g: Geometry, disk: Disk, f: Fs, dir: nat, name: Name, j: nat, i: nat)
    requires Consistent(g, disk, f) && dir in f.slots && dir in f.chains && j < |f.chains[dir]| && i < PerCluster(g)
    requires name in DirMap(f.slots[dir]) && ScanHit(f.slots[dir], RmdirName(name), j * PerCluster(g) + i)
    ensures var p := j * PerCluster(g) + i;
            && At(g, f, dir, j, i) && Named(f.slots[dir][p], name) && SlotName(f.slots[dir][p]) == name
            && SlotFirst(f.slots[dir][p]) == DirMap(f.slots[dir])[name]
            && f.chains[dir][j] < |disk.clus| && i < |ClusterSlots(disk.clus[f.chains[dir][j]])|
            && ClusterSlots(disk.clus[f.chains[dir][j]])[i] == f.slots[dir][p]
  {
    hide Consistent, Entries, ClusterSlots, DirSlots, SlotFirst, SlotName, TailOk, Readable, DirMap, Hits;
    var p := j * PerCluster(g) + i;
    DirFacts(g, disk, f, dir);
    forall k | 0 <= k <= p
      ensures Hits(RmdirName(name), f.slots[dir][k]) <==> Named(f.slots[dir][k], name)
    {
      PlainHits(f, dir, k, RmdirName(name));
    }
    FindIs(f.slots[dir], name, p);
    MapAt(f.slots[dir], name);
    SlotPlace(g, disk, f.chains[dir], j, i);
  }

  lemma RmdirNotMissing(f: Fs, dir: nat, name: Name)
    requires Entries(f.slots, f.owner) && dir in f.slots
    ensures (forall k :: 0 <= k < |f.slots[dir]| ==> IsSlot(f.slots[dir][k]) && !Hits(RmdirName(name), f.slots[dir][k]))
            ==> name !in DirMap(f.slots[dir])
  {
    hide DirMap, SlotName, SlotFirst, Hits, Entries;
    MapAt(f.slots[dir], name);
    var p := Find(f.slots[dir], name);
    if p >= 0 {
      PlainHits(f, dir, p, RmdirName(name));
    }
  }

  lemma TargetFacts(g: Geometry, disk: Disk, f: Fs, dir: nat, name: Name)
    requires Consistent(g, disk, f) && dir in f.slots && EmptyDirNamed(f, dir, name)
    ensures var h := DirMap(f.slots[dir])[name];
            h in f.chains && h != dir && NoneLive(f.slots[h])
  {
    hide ChainLinks, Owners, Sizes, Spots, DirSlots, DirMap;
    AnyEntryScan(f, DirMap(f.slots[dir])[name]);
  }

  /**
   * `fat32_rmdir`.  It succeeds exactly when the folder has an empty directory of that name; then
   * exactly that name and that directory are gone.
   */
  method Rmdir(v: Volume, dir: nat, name: Name) returns (rc: int)
    requires v.Mounted() && dir in v.fs.slots
    modifies v
    ensures v.Mounted() && (rc == 0 || rc == -1)
    ensures rc == 0 <==> EmptyDirNamed(old(v.fs), dir, name)
    ensures rc == -1 ==> v.disk == old(v.disk) && v.fs == old(v.fs) && v.trace == old(v.trace)
    ensures Tidy(old(v.fs).slots) ==> Tidy(v.fs.slots)
    ensures Tidy(old(v.fs).slots) && rc == 0 ==>
              var m := DirMap(old(v.fs).slots[dir]);
              v.Files() == Without(old(v.Files()), dir, m, name, m[name])
    ensures Tidy(old(v.fs).slots) && rc == 0 ==>
              var h := DirMap(old(v.fs).slots[dir])[name];
              && h in old(v.fs).chains
              && FreeCount(v.g, v.disk.fat) == FreeCount(v.g, old(v.disk).fat) + |old(v.fs).chains[h]|
              && RemovalStops(v.g, v.trace, |old(v.trace)|, old(v.disk), h, v.disk)
              && QuotaOf(v.fs) == AfterRemove(QuotaOf(old(v.fs)), dir, h)
  {
    hide Volume.Valid, Consistent, Abs, Tidy, ClusterSlots, DirMap, DirSlots, Entries, Hits, Readable, TailOk, SlotFirst, SlotName, Without, ScanHit, NoLeak, NoneLive, IsLive, FreeCount, Reach, RemovalStops, FreedSince, QuotaOf, AfterRemove;
    ghost var g, disk0, f0 := v.g, v.disk, v.fs;
    var target := Lookup(v, dir, name);
    if target.None? || !target.value.isDir {
      return -1;
    }
    var h := target.value.first;
    DirFacts(g, disk0, f0, h);
    var hit, cluster, i, buf;
    ghost var j;
    hit, cluster, i, buf, j := ScanDir(v, h, AnyEntry, f0.chains[h], f0.slots[h]);
    AnyEntryScan(f0, h);
    if hit {
      HitIsHit(f0.slots[h], AnyEntry, j * PerCluster(g) + i);
      return -1;
    }
    TargetFacts(g, disk0, f0, dir, name);
    StillReadable(g, disk0, f0, dir, h);
    DirFacts(g, disk0, f0, dir);
    HeadInRange(g, disk0, f0, h);
    v.FreeChain(h);
    hit, cluster, i, buf, j := ScanDir(v, dir, RmdirName(name), f0.chains[dir], f0.slots[dir]);
    RmdirNotMissing(f0, dir, name);
    if !hit {
      return -1;
    }
    ghost var p := j * PerCluster(g) + i;
    RmdirFound(g, disk0, f0, dir, name, j, i);
    EraseSlot(v, dir, cluster, i, buf, j, h, disk0, f0, |old(v.trace)|);
    rc := 0;
  }

  lemma HitIsHit(slots: seq<Slot>, w: Filter, p: int)
    requires ScanHit(slots, w, p)
    ensures 0 <= p < |slots| && IsSlot(slots[p]) && Hits(w, slots[p])
  {
  }
}
