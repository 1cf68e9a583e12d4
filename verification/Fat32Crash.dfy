/** Disk states a machine may stop in while a file is being written. */
module Fat32Crash {
  import opened Bytes
  import opened Fat32Layout
  import opened Fat32Chain
  import opened Fat32Dir
  import opened Fat32State
  import opened Fat32Moves
  import opened Fat32Abs
  import opened Fat32Volume
  import opened Fat32File

  /** The write in progress: the file, the range it may change, and the file system before it. */
  datatype Job = Job(before: map<nat, Obj>, h: nat, offset: nat, count: nat)

  /** Outside the range, `now` has the bytes of `was` as far as both go. */
  ghost predicate AgreeOutside(was: seq<byte>, now: seq<byte>, lo: nat, hi: nat)
  {
    forall k :: 0 <= k < |was| && k < |now| && !(lo <= k < hi) ==> now[k] == was[k]
  }

  /**
   * Read as `f`, the disk is consistent (it may have leaked clusters), every other object is as
   * before, and the file has its old or its final size and its old bytes outside the range.
   */
  ghost predicate SafeAs(g: Geometry, d: Disk, f: Fs, w: Job, last: nat)
  {
    && Consistent(g, d, f)
    && w.h in w.before && w.before[w.h].File?
    && w.h in f.owner && w.h !in f.slots
    && Abs(g, d, f) - {w.h} == w.before - {w.h}
    && var now := Content(d, f, w.h);
       && (|now| == |w.before[w.h].bytes| || |now| == last)
       && AgreeOutside(w.before[w.h].bytes, now, w.offset, w.offset + w.count)
  }

  ghost predicate Safe(g: Geometry, s: Sectors, w: Job, last: nat)
  {
    Fits(g, s) && exists f: Fs :: SafeAs(g, View(g, s), f, w, last)
  }

  lemma ShowsSafe(g: Geometry, s: Sectors, d: Disk, f: Fs, w: Job, last: nat)
    requires Shows(g, s, d) && SafeAs(g, d, f, w, last)
    ensures Safe(g, s, w, last)
  {
  }

  /** The old size is acceptable whatever the final size is. */
  lemma OldSizeSafe(g: Geometry, s: Sectors, w: Job, last: nat)
    requires w.h in w.before && w.before[w.h].File? && Safe(g, s, w, |w.before[w.h].bytes|)
    ensures Safe(g, s, w, last)
  {
    hide Consistent, Content, Abs, View, Fits;
    var f :| SafeAs(g, View(g, s), f, w, |w.before[w.h].bytes|);
    assert SafeAs(g, View(g, s), f, w, last);
  }

  /** The same file system is as safe. */
  lemma SameAbsSafe(g: Geometry, d: Disk, f: Fs, d': Disk, f': Fs, w: Job, last: nat)
    requires SafeAs(g, d, f, w, last) && Consistent(g, d', f') && Abs(g, d', f') == Abs(g, d, f)
    requires f'.owner == f.owner && f'.slots.Keys == f.slots.Keys
    ensures SafeAs(g, d', f', w, last)
  {
    hide Consistent, Content;
    AbsAt(g, d, f, w.h);
    AbsAt(g, d', f', w.h);
  }

  /** The cluster of a file under a cursor, and its place. */
  lemma FileCluster(g: Geometry, d: Disk, f: Fs, h: nat, j: nat)
    requires Consistent(g, d, f) && h in f.owner && h in f.chains && h !in f.slots && j < |f.chains[h]|
    ensures DiskShape(g, d) && NoRepeat(f.chains[h])
    ensures forall k :: 0 <= k < |f.chains[h]| ==> InRange(g, f.chains[h][k])
    ensures f.chains[h][j] in f.spot && f.spot[f.chains[h][j]].head == h
  {
    ChainInside(g, d, f, h);
  }

  /** Writing one cluster of a file: the file keeps its bytes outside the changed part. */
  lemma WriteContentAgrees(g: Geometry, d: Disk, f: Fs, h: nat, j: nat, x: seq<byte>, lo: nat, hi: nat,
                           was: seq<byte>, a: nat, b: nat)
    requires Consistent(g, d, f) && h in f.owner && h in f.chains && h !in f.slots && j < |f.chains[h]|
    requires InRange(g, f.chains[h][j]) && f.chains[h][j] < |d.clus| && |x| == |d.clus[f.chains[h][j]]| == g.ClusterSize()
    requires Consistent(g, d.(clus := d.clus[f.chains[h][j] := x]), f)
    requires AgreeOutside(d.clus[f.chains[h][j]], x, lo, hi)
    requires a <= j * g.ClusterSize() + lo && j * g.ClusterSize() + hi <= b
    requires AgreeOutside(was, Content(d, f, h), a, b)
    ensures AgreeOutside(was, Content(d.(clus := d.clus[f.chains[h][j] := x]), f, h), a, b)
    ensures |Content(d.(clus := d.clus[f.chains[h][j] := x]), f, h)| == |Content(d, f, h)|
  {
    hide Consistent, Content, ChainBytes, AgreeOutside, Splice;
    var d' := d.(clus := d.clus[f.chains[h][j] := x]);
    FileCluster(g, d, f, h, j);
    var all, all' := ChainBytes(d, f.chains[h]), ChainBytes(d', f.chains[h]);
    FileWriteBytes(g, d, f.chains[h], j, x);
    ContentIs(g, d, f, h);
    ContentIs(g, d', f, h);
    ByteWindow(g, d, f.chains[h], j);
    var base := j * g.ClusterSize();
    SpliceAgrees(all, base, d.clus[f.chains[h][j]], x, lo, hi);
    PrefixAgrees(was, all, all', FileSize(f.slots, f.owner, h), a, b, base + lo, base + hi);
  }

  /** Writing inside the file and inside the range is safe. */
  lemma WriteSafe(g: Geometry, d: Disk, f: Fs, w: Job, last: nat, j: nat, x: seq<byte>, lo: nat, hi: nat)
    requires SafeAs(g, d, f, w, last) && w.h in f.chains && j < |f.chains[w.h]|
    requires InRange(g, f.chains[w.h][j]) && f.chains[w.h][j] < |d.clus|
    requires |x| == |d.clus[f.chains[w.h][j]]| == g.ClusterSize()
    requires AgreeOutside(d.clus[f.chains[w.h][j]], x, lo, hi)
    requires w.offset <= j * g.ClusterSize() + lo && j * g.ClusterSize() + hi <= w.offset + w.count
    ensures SafeAs(g, d.(clus := d.clus[f.chains[w.h][j] := x]), f, w, last)
  {
    hide Consistent, Content, AgreeOutside, Abs;
    var c, d' := f.chains[w.h][j], d.(clus := d.clus[f.chains[w.h][j] := x]);
    FileCluster(g, d, f, w.h, j);
    WriteMove(g, d, f, c, x);
    OthersKept(g, d, f, w.h, c, x);
    WriteContentAgrees(g, d, f, w.h, j, x, lo, hi, w.before[w.h].bytes, w.offset, w.offset + w.count);
  }

  lemma SpliceAgrees(all: seq<byte>, base: nat, was: seq<byte>, x: seq<byte>, lo: nat, hi: nat)
    requires |was| == |x| && base + |was| <= |all| && all[base..base + |was|] == was && AgreeOutside(was, x, lo, hi)
    ensures AgreeOutside(all, Splice(all, base, x), base + lo, base + hi)
  {
    var r := Splice(all, base, x);
    forall k | 0 <= k < |all| && !(base + lo <= k < base + hi)
      ensures r[k] == all[k]
    {
      if base <= k < base + |x| { assert all[base..base + |was|][k - base] == was[k - base]; }
    }
  }

  lemma PrefixAgrees(was: seq<byte>, all: seq<byte>, all': seq<byte>, size: nat, lo: nat, hi: nat, a: nat, b: nat)
    requires |all'| == |all| && size <= |all| && lo <= a && b <= hi
    requires AgreeOutside(was, all[..size], lo, hi) && AgreeOutside(all, all', a, b)
    ensures AgreeOutside(was, all'[..size], lo, hi)
  {
    forall k | 0 <= k < |was| && k < size && !(lo <= k < hi)
      ensures all'[..size][k] == was[k]
    {
      assert all[..size][k] == was[k];
    }
  }

  /** Replacing a cluster of a chain overwrites its range of the chain's bytes. */
  lemma FileWriteBytes(g: Geometry, d: Disk, ch: seq<nat>, j: nat, x: seq<byte>)
    requires DiskShape(g, d) && (forall k :: 0 <= k < |ch| ==> InRange(g, ch[k])) && NoRepeat(ch)
    requires j < |ch| && |x| == g.ClusterSize()
    ensures j * g.ClusterSize() + g.ClusterSize() <= |ChainBytes(d, ch)|
    ensures ChainBytes(d.(clus := d.clus[ch[j] := x]), ch) == Splice(ChainBytes(d, ch), j * g.ClusterSize(), x)
  {
    PartsLen(g, d, ch);
    assert Parts(d.(clus := d.clus[ch[j] := x]), ch) == Parts(d, ch)[j := x];
    FlatUpdate(Parts(d, ch), j, g.ClusterSize(), x);
  }

  /** Writing a cluster of file `h` leaves every other object. */
  lemma OthersKept(g: Geometry, d: Disk, f: Fs, h: nat, c: nat, x: seq<byte>)
    requires Consistent(g, d, f) && InRange(g, c) && |x| == g.ClusterSize() && c < |d.clus|
    requires Consistent(g, d.(clus := d.clus[c := x]), f)
    requires h in f.owner && h !in f.slots && c in f.spot && f.spot[c].head == h
    ensures Abs(g, d.(clus := d.clus[c := x]), f) - {h} == Abs(g, d, f) - {h}
  {
    hide Consistent, DirMap, Content, DiskShape, Owners;
    HeadFacts(g, d, f);
    forall k | k in f.owner.Keys + {g.root} && k != h
      ensures ObjAt(d.(clus := d.clus[c := x]), f, k) == ObjAt(d, f, k)
    {
      if k !in f.slots { WriteContent(g, d, f, c, x, k); }
    }
  }

  lemma TornAgrees(g: Geometry, was: seq<byte>, now: seq<byte>, q: nat, lo: nat, hi: nat)
    requires |was| == |now| == g.ClusterSize() && q <= g.spc && AgreeOutside(was, now, lo, hi)
    ensures AgreeOutside(was, Torn(g, was, now, q), lo, hi)
  {
  }

  /** A torn write that changes one slot shows the old cluster or the new one. */
  lemma TornSlot(g: Geometry, was: seq<byte>, i: nat, x: Slot, q: nat)
    requires |was| == g.ClusterSize() && i < PerCluster(g) && IsSlot(x) && q <= g.spc
    ensures 32 * i + 32 <= |was|
    ensures var now := Splice(was, 32 * i, x);
            Torn(g, was, now, q) == was || Torn(g, was, now, q) == now
  {
    var now := Splice(was, 32 * i, x);
    if i / 16 < q {
      assert now[512 * q..] == was[512 * q..];
      assert Torn(g, was, now, q) == now;
    } else {
      assert now[..512 * q] == was[..512 * q];
      assert Torn(g, was, now, q) == was;
    }
  }
}
