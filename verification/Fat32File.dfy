/** Reading files, and the pieces a file write is made of. */
module Fat32File {
  import opened Bytes
  import opened Fat32Layout
  import opened Fat32Chain
  import opened Fat32Dir
  import opened Fat32State
  import opened Fat32Moves
  import opened Fat32Abs
  import opened Fat32Volume
  import opened Fat32Scan
  import opened Fat32Tree

  /** An open file: its node matches its slot and its in-memory size fits its chain. */
  ghost predicate OpenFile(g: Geometry, f: Fs, n: Node)
  {
    && NodeOk(g, f, n) && !n.isDir && n.first in f.chains
    && n.size <= |f.chains[n.first]| * g.ClusterSize()
  }

  /** All bytes of the chain of `h`. */
  ghost function Whole(disk: Disk, f: Fs, h: nat): seq<byte>
  {
    if h in f.chains then ChainBytes(disk, f.chains[h]) else []
  }

  /** The bytes an open file reads: its chain up to the in-memory size. */
  ghost function NodeBytes(disk: Disk, f: Fs, n: Node): (b: seq<byte>)
  {
    var all := Whole(disk, f, n.first);
    if n.size <= |all| then all[..n.size] else all
  }

  lemma NodeFits(g: Geometry, disk: Disk, f: Fs, n: Node)
    requires Consistent(g, disk, f) && OpenFile(g, f, n)
    ensures DiskShape(g, disk) && IsChain(g, disk.fat, n.first, f.chains[n.first])
    ensures forall i :: 0 <= i < |f.chains[n.first]| ==> InRange(g, f.chains[n.first][i]) && f.chains[n.first][i] < |disk.clus|
    ensures |ChainBytes(disk, f.chains[n.first])| == |f.chains[n.first]| * g.ClusterSize()
    ensures n.size <= |ChainBytes(disk, f.chains[n.first])|
  {
    hide ChainBytes;
    ChainInside(g, disk, f, n.first);
    HeadFacts(g, disk, f);
    hide Consistent;
    PartsLen(g, disk, f.chains[n.first]);
  }

  /** The bytes of the `j`-th cluster are a window of the chain's. */
  lemma ByteWindow(g: Geometry, disk: Disk, ch: seq<nat>, j: nat)
    requires DiskShape(g, disk) && (forall k :: 0 <= k < |ch| ==> InRange(g, ch[k])) && j < |ch|
    ensures |ChainBytes(disk, ch)| == |ch| * g.ClusterSize()
    ensures j * g.ClusterSize() + g.ClusterSize() <= |ChainBytes(disk, ch)|
    ensures ChainBytes(disk, ch)[j * g.ClusterSize()..j * g.ClusterSize() + g.ClusterSize()] == disk.clus[ch[j]]
    ensures (j + 1) * g.ClusterSize() == j * g.ClusterSize() + g.ClusterSize()
  {
    PartsLen(g, disk, ch);
    FlatSplit(Parts(disk, ch), j, g.ClusterSize());
    Distribute(j, 1, g.ClusterSize());
  }

  /** Where a walk along chain `ch` stands after `j` links. */
  ghost predicate Cursor(fat: seq<nat>, ch: seq<nat>, j: nat, cluster: nat)
  {
    && j <= |ch| && (j < |ch| ==> cluster == ch[j]) && (j == |ch| ==> cluster >= EOC_MIN)
  }

  lemma CursorStep(g: Geometry, fat: seq<nat>, ch: seq<nat>, j: nat)
    requires |fat| == g.Limit() && |ch| > 0 && IsChain(g, fat, ch[0], ch) && j < |ch|
    ensures Cursor(fat, ch, j + 1, NextOf(fat, ch[j]))
  {
  }

  lemma QuotientInside(offset: nat, size: nat, k: nat, n: nat)
    requires k > 0 && offset < size <= n * k
    ensures 0 <= offset / k < n && offset == offset / k * k + offset % k
  {
    MulOrder(n, offset / k, k);
  }

  lemma SubWindow<T>(all: seq<T>, base: nat, part: seq<T>, lo: nat, hi: nat)
    requires base + |part| <= |all| && all[base..base + |part|] == part && lo <= hi <= |part|
    ensures all[base + lo..base + hi] == part[lo..hi]
  {
    var l, r := all[base + lo..base + hi], part[lo..hi];
    forall k | 0 <= k < hi - lo
      ensures l[k] == r[k]
    {
      assert all[base..base + |part|][lo + k] == all[base + lo + k];
    }
  }

  /** Skip `k` clusters of the chain. */
  method SkipClusters(v: Volume, first: nat, k: nat, ghost ch: seq<nat>) returns (cluster: nat)
    requires v.Valid() && |ch| > 0 && first == ch[0] && |v.disk.fat| == v.g.Limit() && IsChain(v.g, v.disk.fat, first, ch) && k < |ch|
    ensures cluster == ch[k]
  {
    hide Volume.Valid;
    cluster := first;
    var i := 0;
    while i < k && cluster >= 2 && cluster < EOC_MIN
      invariant 0 <= i <= k && Cursor(v.disk.fat, ch, i, cluster)
    {
      CursorStep(v.g, v.disk.fat, ch, i);
      cluster := v.GetNext(cluster);
      i := i + 1;
    }
  }

  /** One more piece of the slice, out of the `j`-th cluster. */
  lemma ReadStep(g: Geometry, disk: Disk, ch: seq<nat>, j: nat, off: nat, got: nat, at: nat, take: nat)
    requires DiskShape(g, disk) && (forall k :: 0 <= k < |ch| ==> InRange(g, ch[k])) && j < |ch|
    requires off + got == j * g.ClusterSize() + at && at + take <= g.ClusterSize()
    ensures off + got + take <= |ChainBytes(disk, ch)|
    ensures ChainBytes(disk, ch)[off..off + got + take]
            == ChainBytes(disk, ch)[off..off + got] + disk.clus[ch[j]][at..at + take]
    ensures at + take == g.ClusterSize() ==> off + got + take == (j + 1) * g.ClusterSize()
  {
    hide ChainBytes;
    ByteWindow(g, disk, ch, j);
    var all := ChainBytes(disk, ch);
    SubWindow(all, j * g.ClusterSize(), disk.clus[ch[j]], at, at + take);
    assert all[off..off + got + take] == all[off..off + got] + all[off + got..off + got + take];
  }

  /** `buf` is what of the slice from `off` on has been read. */
  ghost predicate SliceAt(all: seq<byte>, off: nat, buf: seq<byte>)
  {
    off + |buf| <= |all| && buf == all[off..off + |buf|]
  }

  /** One round of the loop: the piece read, and where the next one starts. */
  lemma ReadRound(g: Geometry, disk: Disk, ch: seq<nat>, j: nat, off: nat, buf: seq<byte>, at: nat, take: nat, want: nat)
    requires DiskShape(g, disk) && (forall k :: 0 <= k < |ch| ==> InRange(g, ch[k])) && j < |ch|
    requires off + |buf| == j * g.ClusterSize() + at && at < g.ClusterSize() && |buf| < want
    requires take == if g.ClusterSize() - at > want - |buf| then want - |buf| else g.ClusterSize() - at
    requires SliceAt(ChainBytes(disk, ch), off, buf) && off + want <= |ch| * g.ClusterSize()
    ensures at + take <= |disk.clus[ch[j]]|
    ensures SliceAt(ChainBytes(disk, ch), off, buf + disk.clus[ch[j]][at..at + take])
    ensures |buf| + take <= want && (|buf| + take < want ==> off + |buf| + take == (j + 1) * g.ClusterSize())
    ensures j + 1 == |ch| ==> |buf| + take == want
  {
    hide ChainBytes, Geometry.ClusterSize;
    ReadStep(g, disk, ch, j, off, |buf|, at, take);
    ShapeSizes(g, disk);
  }

  /** `fat32_read`: exactly the requested slice, cut at the end of the file. */
  method Read(v: Volume, n: Node, count: nat, offset: nat) returns (buf: seq<byte>)
    requires v.Mounted() && OpenFile(v.g, v.fs, n)
    ensures offset >= n.size ==> buf == []
    ensures n.size == |NodeBytes(v.disk, v.fs, n)|
    ensures offset < n.size ==>
              buf == NodeBytes(v.disk, v.fs, n)[offset..if offset + count > n.size then n.size else offset + count]
  {
    hide Volume.Valid, Consistent, ChainBytes, IsChain, NodeOk, DiskShape, Geometry.ClusterSize, SliceAt;
    buf := [];
    ghost var g, disk, ch := v.g, v.disk, v.fs.chains[n.first];
    NodeFits(g, disk, v.fs, n);
    if offset >= n.size {
      return;
    }
    ShapeSizes(g, disk);
    ChainRange(g, disk.fat, n.first, ch);
    var want := if offset + count > n.size then n.size - offset else count;
    var cs := v.g.ClusterSize();
    QuotientInside(offset, n.size, cs, |ch|);
    var byteOffset := offset % cs;
    ghost var j: nat := offset / cs;
    var cluster: nat := SkipClusters(v, n.first, offset / cs, ch);
    ghost var all := ChainBytes(disk, ch);
    SliceNone(all, offset);
    while |buf| < want && cluster >= 2 && cluster < EOC_MIN
      invariant |buf| <= want && Cursor(disk.fat, ch, j, cluster) && 0 <= byteOffset < cs
      invariant |buf| < want ==> offset + |buf| == j * cs + byteOffset
      invariant SliceAt(all, offset, buf)
      invariant j == |ch| ==> |buf| == want
      decreases want - |buf|
    {
      var rc, piece := v.ReadCluster(cluster);
      if rc != 0 {
        return;
      }
      var take := if cs - byteOffset > want - |buf| then want - |buf| else cs - byteOffset;
      ReadRound(g, disk, ch, j, offset, buf, byteOffset, take, want);
      buf := buf + piece[byteOffset..byteOffset + take];
      byteOffset := 0;
      CursorStep(g, disk.fat, ch, j);
      cluster := v.GetNext(cluster);
      j := j + 1;
    }
    SliceIs(all, offset, buf, n.size);
  }

  lemma SliceNone(all: seq<byte>, off: nat)
    requires off <= |all|
    ensures SliceAt(all, off, [])
  {
  }

  lemma SliceIs(all: seq<byte>, off: nat, buf: seq<byte>, size: nat)
    requires SliceAt(all, off, buf) && off + |buf| <= size <= |all|
    ensures buf == all[..size][off..off + |buf|]
  {
  }

  lemma ChainRange(g: Geometry, fat: seq<nat>, h: nat, ch: seq<nat>)
    requires |fat| == g.Limit() && IsChain(g, fat, h, ch)
    ensures |ch| > 0 && ch[0] == h && (forall k :: 0 <= k < |ch| ==> InRange(g, ch[k]))
  {
  }
}
