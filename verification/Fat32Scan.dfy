/** Scanning a directory's slots along its cluster chain: lookup, and the scans inside the other operations. */
module Fat32Scan {
  import opened Bytes
  import opened Fat32Layout
  import opened Fat32Chain
  import opened Fat32Name
  import opened Fat32Dir
  import opened Fat32State
  import opened Fat32Moves
  import opened Fat32Abs
  import opened Fat32Volume

  /** What each scan of the driver looks for. */
  datatype Filter =
    | LookupName(name: Name)
    | UnlinkName(name: Name)
    | RmdirName(name: Name)
    | AnyEntry
    | Unused

  predicate Hits(w: Filter, s: Slot)
    requires IsSlot(s)
  {
    match w
    case LookupName(n) => IsLive(s) && Attr(s) != ATTR_LFN && !HasVolumeBit(s) && SlotName(s) == n
    case UnlinkName(n) => IsLive(s) && Attr(s) != ATTR_LFN && !HasDirBit(s) && SlotName(s) == n
    case RmdirName(n) => IsLive(s) && Attr(s) != ATTR_LFN && SlotName(s) == n
    case AnyEntry => IsLive(s) && Attr(s) != ATTR_LFN && !HasVolumeBit(s)
    case Unused => !IsLive(s)
  }

  /** A never-used slot ends every scan but the one for an unused slot. */
  predicate Stops(w: Filter, s: Slot)
    requires IsSlot(s)
  {
    !w.Unused? && IsEnd(s)
  }

  predicate Passes(w: Filter, s: Slot)
    requires IsSlot(s)
  {
    !Hits(w, s) && !Stops(w, s)
  }

  datatype ScanResult = Hit(index: nat) | Stop(index: nat) | Next

  /** The loop over the slots of one cluster. */
  method ScanCluster(buf: seq<byte>, w: Filter) returns (r: ScanResult)
    ensures r.Hit? ==> r.index < |ClusterSlots(buf)| && Hits(w, ClusterSlots(buf)[r.index])
    ensures r.Stop? ==> r.index < |ClusterSlots(buf)| && Stops(w, ClusterSlots(buf)[r.index])
    ensures forall k :: 0 <= k < (if r.Next? then |ClusterSlots(buf)| else r.index) ==>
              Passes(w, ClusterSlots(buf)[k])
  {
    hide ClusterSlots, From83, Attr, HasDirBit, HasVolumeBit;
    var n := |buf| / 32;
    ghost var slots := ClusterSlots(buf);
    var i := 0;
    while i < n
      invariant 0 <= i <= n
      invariant forall k :: 0 <= k < i ==> Passes(w, slots[k])
    {
      SlotBytesAt(buf, i);
      var s := buf[32 * i..32 * i + 32];
      if w.Unused? {
        if s[0] == 0 || s[0] == DELETED {
          return Hit(i);
        }
      } else {
        if s[0] == 0 {
          return Stop(i);
        }
        if s[0] != DELETED && Attr(s) != ATTR_LFN {
          var skip := if w.UnlinkName? then HasDirBit(s) else !w.RmdirName? && HasVolumeBit(s);
          if !skip {
            if w.AnyEntry? {
              return Hit(i);
            }
            var name := NameFrom83(s[..11]);
            if name == w.name {
              return Hit(i);
            }
          }
        }
      }
      i := i + 1;
    }
    return Next;
  }

  /** The slots of the `j`-th cluster are a window of the directory's list. */
  lemma ClusterWindow(g: Geometry, disk: Disk, ch: seq<nat>, j: nat)
    requires DiskShape(g, disk) && (forall k :: 0 <= k < |ch| ==> InRange(g, ch[k])) && j < |ch|
    ensures j * PerCluster(g) + PerCluster(g) <= |DirSlots(disk, ch)| == |ch| * PerCluster(g)
    ensures |ClusterSlots(disk.clus[ch[j]])| == PerCluster(g)
    ensures DirSlots(disk, ch)[j * PerCluster(g)..j * PerCluster(g) + PerCluster(g)] == ClusterSlots(disk.clus[ch[j]])
    ensures (j + 1) * PerCluster(g) == j * PerCluster(g) + PerCluster(g)
  {
    PartsLen(g, disk, ch);
    FlatSplit(SlotParts(disk, ch), j, PerCluster(g));
    Distribute(j, 1, PerCluster(g));
  }

  lemma DirFacts(g: Geometry, disk: Disk, f: Fs, d: nat)
    requires Consistent(g, disk, f) && d in f.slots
    ensures d in f.chains && IsChain(g, disk.fat, d, f.chains[d])
    ensures DiskShape(g, disk) && f.slots[d] == DirSlots(disk, f.chains[d])
    ensures TailOk(f.slots[d]) && Entries(f.slots, f.owner)
    ensures Readable(g, disk, f.chains[d], f.slots[d])
  {
    hide Entries, Owners, Sizes, Spots;
    ChainInside(g, disk, f, d);
  }

  /** Once a scan has stopped at a never-used slot, nothing later can match. */
  lemma StopIsFinal(slots: seq<Slot>, w: Filter, p: nat)
    requires TailOk(slots) && p < |slots| && Stops(w, slots[p])
    requires forall k :: 0 <= k < p ==> !Hits(w, slots[k])
    ensures forall k :: 0 <= k < |slots| ==> !Hits(w, slots[k])
  {
    forall k | p < k < |slots| ensures !Hits(w, slots[k]) { assert IsEnd(slots[k]); }
  }

  lemma WindowPasses(slots: seq<Slot>, base: nat, part: seq<Slot>, w: Filter, n: nat)
    requires forall i :: 0 <= i < |slots| ==> IsSlot(slots[i])
    requires base + |part| <= |slots| && slots[base..base + |part|] == part && n <= |part|
    requires forall k :: 0 <= k < n ==> IsSlot(part[k]) && Passes(w, part[k])
    requires forall k :: 0 <= k < base ==> Passes(w, slots[k])
    ensures forall k :: 0 <= k < base + n ==> Passes(w, slots[k])
  {
    forall k | base <= k < base + n ensures Passes(w, slots[k]) { assert slots[k] == part[k - base]; }
  }

  /** A directory the scans can read: its chain and its slot list. */
  ghost predicate Readable(g: Geometry, disk: Disk, ch: seq<nat>, slots: seq<Slot>)
  {
    && DiskShape(g, disk) && |ch| > 0 && IsChain(g, disk.fat, ch[0], ch)
    && slots == DirSlots(disk, ch) && TailOk(slots)
  }

  /** The loop along the chain. */
  method ScanDir(v: Volume, first: nat, w: Filter, ghost ch: seq<nat>, ghost slots: seq<Slot>)
    returns (hit: bool, cluster: nat, index: nat, buf: seq<byte>, ghost j: nat)
    requires v.Valid() && Readable(v.g, v.disk, ch, slots) && ch[0] == first && !w.Unused?
    ensures hit ==> j < |ch| && index < PerCluster(v.g) && 0 <= j * PerCluster(v.g) + index
    ensures hit ==> cluster == ch[j] && InRange(v.g, cluster) && buf == v.disk.clus[cluster]
    ensures hit ==> ScanHit(slots, w, j * PerCluster(v.g) + index)
    ensures !hit ==> forall k :: 0 <= k < |slots| ==> IsSlot(slots[k]) && !Hits(w, slots[k])
  {
    hide Volume.Valid, DirSlots, ClusterSlots, Hits, Stops;
    ghost var g, disk := v.g, v.disk;
    cluster := first;
    hit, index := false, 0;
    buf := [];
    j := 0;
    while cluster >= 2 && cluster < EOC_MIN
      invariant !hit && 0 <= j <= |ch| && j * PerCluster(g) <= |slots|
      invariant j < |ch| ==> cluster == ch[j]
      invariant j == |ch| ==> cluster >= EOC_MIN && j * PerCluster(g) == |slots|
      invariant forall k :: 0 <= k < j * PerCluster(g) ==> Passes(w, slots[k])
      decreases |ch| - j
    {
      var rc;
      rc, buf := v.ReadCluster(cluster);
      if rc != 0 {
        return;
      }
      ClusterWindow(g, disk, ch, j);
      var r := ScanCluster(buf, w);
      ghost var n := if r.Next? then PerCluster(g) else r.index;
      WindowPasses(slots, j * PerCluster(g), ClusterSlots(buf), w, n);
      match r {
        case Hit(i) =>
          assert slots[j * PerCluster(g) + i] == ClusterSlots(buf)[i];
          return true, cluster, i, buf, j;
        case Stop(i) =>
          assert slots[j * PerCluster(g) + i] == ClusterSlots(buf)[i];
          StopIsFinal(slots, w, j * PerCluster(g) + i);
          return;
        case Next =>
      }
      cluster := v.GetNext(cluster);
      j := j + 1;
    }
  }

  lemma ReadableFacts(g: Geometry, disk: Disk, ch: seq<nat>, slots: seq<Slot>)
    requires Readable(g, disk, ch, slots)
    ensures DiskShape(g, disk) && slots == DirSlots(disk, ch) && (forall k :: 0 <= k < |ch| ==> InRange(g, ch[k]))
  {
  }

  /** `p` is the first match, with no never-used slot before it. */
  ghost predicate ScanHit(slots: seq<Slot>, w: Filter, p: int)
  {
    && 0 <= p < |slots| && (forall k :: 0 <= k <= p ==> IsSlot(slots[k]))
    && Hits(w, slots[p]) && forall k :: 0 <= k < p ==> Passes(w, slots[k])
  }
}
