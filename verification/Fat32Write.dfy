/** Writing files. */
module Fat32Write {
  import opened Numbers
  import opened Bytes
  import opened Fat32Layout
  import opened Fat32Chain
  import opened Fat32Dir
  import opened Fat32State
  import opened Fat32Moves
  import opened Fat32Abs
  import opened Fat32Volume
  import opened Fat32Scan
  import opened Fat32Tree
  import opened Fat32Free
  import opened Fat32Quota
  import opened Fat32Create
  import opened Fat32File
  import opened Fat32Crash
  import opened Fat32Reading

  /** Only the chain of `h` may have grown; names, slots and all other places are as before. */
  ghost predicate SameFrame(f0: Fs, f1: Fs, h: nat)
  {
    && f1.owner == f0.owner && f1.slots.Keys == f0.slots.Keys && f1.pending == f0.pending
    && f1.chains.Keys == f0.chains.Keys && h in f0.chains && f0.chains[h] <= f1.chains[h]
    && (forall k :: k in f0.chains && k != h ==> f1.chains[k] == f0.chains[k])
    && (forall c :: c in f0.spot ==> c in f1.spot && f1.spot[c] == f0.spot[c])
  }

  ghost function ExtendedFs(f: Fs, h: nat, n: nat): Fs
    requires h in f.chains
  {
    f.(chains := f.chains[h := f.chains[h] + [n]], spot := f.spot[n := Place(h, |f.chains[h]|)])
  }

  ghost function ExtendedDisk(disk: Disk, f: Fs, h: nat, n: nat): Disk
    requires n < |disk.fat| && h in f.chains && |f.chains[h]| > 0 && Last(f, h) < |disk.fat|
  {
    disk.(fat := disk.fat[n := EOC_MAX][Last(f, h) := n])
  }

  /** Marking a free cluster and linking it behind a file, step by step. */
  lemma ExtendMove(g: Geometry, disk: Disk, f: Fs, h: nat, n: nat)
    requires Consistent(g, disk, f) && NoLeak(g, disk.fat, f) && g.Limit() <= EOC_MIN
    requires h in f.owner && h !in f.slots && InRange(g, n) && disk.fat[n] == FREE
    ensures |disk.fat| == |disk.clus| == g.Limit()
    ensures n !in f.chains && n !in f.spot && h in f.chains && |f.chains[h]| > 0 && InRange(g, Last(f, h)) && n != Last(f, h)
    ensures Consistent(g, disk.(fat := disk.fat[n := EOC_MAX]), NewChain(f, n))
    ensures Abs(g, disk.(fat := disk.fat[n := EOC_MAX]), NewChain(f, n)) == Abs(g, disk, f)
    ensures Consistent(g, ExtendedDisk(disk, f, h, n), ExtendedFs(f, h, n))
    ensures Abs(g, ExtendedDisk(disk, f, h, n), ExtendedFs(f, h, n)) == Abs(g, disk, f)
    ensures NoLeak(g, ExtendedDisk(disk, f, h, n).fat, ExtendedFs(f, h, n))
  {
    hide Consistent, Abs, ClusterSlots;
    AllocMove(g, disk, f, n);
    AbsAlloc(g, disk, f, n);
    HeadFacts(g, disk, f);
    ChainInside(g, disk, f, h);
    var disk2, f2 := disk.(fat := disk.fat[n := EOC_MAX]), NewChain(f, n);
    AbsLink(g, disk2, f2, h, n);
    LinkNoLeak(g, disk2, f2, h, n);
    LinkedIsExtended(disk2, f, h, n);
  }

  lemma LinkedIsExtended(disk: Disk, f: Fs, h: nat, n: nat)
    requires n !in f.chains && n !in f.pending && h in f.chains && h !in f.slots && n != h && n < |disk.clus|
    ensures Linked(disk, NewChain(f, n), h, n) == ExtendedFs(f, h, n)
  {
    assert f.chains[n := [n]] - {n} == f.chains;
    assert f.pending + {n} - {n} == f.pending;
  }

  lemma ExtendBytes(g: Geometry, disk: Disk, f: Fs, h: nat, n: nat)
    requires DiskShape(g, disk) && h in f.chains && |f.chains[h]| > 0 && InRange(g, n)
    requires forall k :: 0 <= k < |f.chains[h]| ==> InRange(g, f.chains[h][k])
    ensures ChainBytes(ExtendedDisk(disk, f, h, n), f.chains[h] + [n]) == ChainBytes(disk, f.chains[h]) + disk.clus[n]
  {
    ChainAppend(disk, f.chains[h], n);
    FatFrame(disk, ExtendedDisk(disk, f, h, n).fat, f.chains[h] + [n]);
  }

  lemma ExtendFrame(f0: Fs, f: Fs, h: nat, n: nat)
    requires SameFrame(f0, f, h) && h in f.chains && n !in f.spot
    ensures SameFrame(f0, ExtendedFs(f, h, n), h)
  {
  }

  /** In the middle of a write: consistent, nothing leaked, nothing else changed. */
  ghost predicate Writing(v: Volume, w: Job)
    reads v
  {
    && v.Valid() && NoLeak(v.g, v.disk.fat, v.fs) && v.fs.pending == {} && w.h in v.fs.chains
    && w.h in w.before && w.before[w.h].File?
    && SafeAs(v.g, v.disk, v.fs, w, |w.before[w.h].bytes|)
  }

  /** Every disk state since `n` is one the machine may stop in. */
  ghost predicate SafeSince(v: Volume, n: nat, w: Job, last: nat)
    reads v
  {
    n <= |v.trace| && forall k :: n <= k < |v.trace| ==> Safe(v.g, v.trace[k], w, last)
  }

  /** The clusters a file has and could still get. */
  ghost function Stock(g: Geometry, fat: seq<nat>, f: Fs, h: nat): nat
  {
    (if h in f.chains then |f.chains[h]| else 0) + FreeCount(g, fat)
  }

  lemma ExtendStock(g: Geometry, disk: Disk, f: Fs, h: nat, n: nat)
    requires Consistent(g, disk, f) && h in f.chains && FreeAt(g, disk.fat, n)
    ensures |f.chains[h]| > 0 && Last(f, h) < |disk.fat|
    ensures Stock(g, ExtendedDisk(disk, f, h, n).fat, ExtendedFs(f, h, n), h) == Stock(g, disk.fat, f, h)
  {
    hide Consistent, FreeCount;
    HeadFacts(g, disk, f);
    ChainInside(g, disk, f, h);
    CountTaken(g, disk.fat, n, Last(f, h));
  }

  /** Allocate a cluster and link it behind the file's last one. */
  method AppendCluster(v: Volume, prev: nat, ghost w: Job, ghost n0: nat) returns (n: nat)
    requires Writing(v, w) && |v.fs.chains[w.h]| > 0 && prev == Last(v.fs, w.h)
    requires SafeSince(v, n0, w, |w.before[w.h].bytes|)
    modifies v
    ensures Writing(v, w) && SafeSince(v, n0, w, |w.before[w.h].bytes|) && old(v.trace) <= v.trace
    ensures Abs(v.g, v.disk, v.fs) == old(Abs(v.g, v.disk, v.fs))
    ensures n == 0 ==> v.disk == old(v.disk) && v.fs == old(v.fs) && NoneFree(v.g, v.disk.fat)
    ensures n != 0 ==> InRange(v.g, n) && n !in old(v.fs).spot && v.fs == ExtendedFs(old(v.fs), w.h, n)
    ensures n != 0 ==> Last(old(v.fs), w.h) < |v.disk.fat| && n < |v.disk.fat|
    ensures n != 0 ==> v.disk == ExtendedDisk(old(v.disk), old(v.fs), w.h, n)
    ensures Stock(v.g, v.disk.fat, v.fs, w.h) == old(Stock(v.g, v.disk.fat, v.fs, w.h))
  {
    hide Volume.Valid, Consistent, Abs, Content, Fits, View, Shows, AgreeOutside, SafeAs, Safe, Stock;
    ghost var g, disk0, f0, last := v.g, v.disk, v.fs, |w.before[w.h].bytes|;
    SafeFacts(g, disk0, f0, w, last);
    n := v.AllocCluster();
    if n == 0 {
      return;
    }
    ExtendMove(g, disk0, f0, w.h, n);
    ExtendStock(g, disk0, f0, w.h, n);
    SameAbsSafe(g, disk0, f0, v.disk, NewChain(f0, n), w, last);
    ShownSafe(v, |old(v.trace)|, v.disk, NewChain(f0, n), w, last);
    ghost var before := v.trace;
    assert SafeSince(v, n0, w, last);
    var _ := v.SetFatEntry(prev, n);
    v.fs := ExtendedFs(f0, w.h, n);
    SameAbsSafe(g, disk0, f0, v.disk, v.fs, w, last);
    ShownSafe(v, |before|, v.disk, v.fs, w, last);
  }

  lemma SafeFacts(g: Geometry, d: Disk, f: Fs, w: Job, last: nat)
    requires SafeAs(g, d, f, w, last)
    ensures Consistent(g, d, f) && w.h in f.owner && w.h !in f.slots && w.h in w.before && w.before[w.h].File?
  {
  }

  /** States that all show one safe disk are safe. */
  lemma ShownSafe(v: Volume, from: nat, d: Disk, f: Fs, w: Job, last: nat)
    requires from <= |v.trace| && SafeAs(v.g, d, f, w, last)
    requires forall k :: from <= k < |v.trace| ==> Shows(v.g, v.trace[k], d)
    ensures forall k :: from <= k < |v.trace| ==> Safe(v.g, v.trace[k], w, last)
  {
    hide SafeAs, Safe, Shows;
    forall k | from <= k < |v.trace|
      ensures Safe(v.g, v.trace[k], w, last)
    {
      ShowsSafe(v.g, v.trace[k], d, f, w, last);
    }
  }

  // ---------------------------------------------------------------- the data

  /** `cur` is `was`, possibly longer, with `data` stored at `at`. */
  ghost predicate Stored(was: seq<byte>, cur: seq<byte>, at: nat, data: seq<byte>)
  {
    && |was| <= |cur| && (data != [] ==> at + |data| <= |cur|)
    && (forall k :: 0 <= k < |data| && at + k < |cur| ==> cur[at + k] == data[k])
    && (forall k :: 0 <= k < |was| && !(at <= k < at + |data|) ==> cur[k] == was[k])
  }

  lemma StoredMore(was: seq<byte>, cur: seq<byte>, at: nat, data: seq<byte>, piece: seq<byte>)
    requires Stored(was, cur, at, data) && at + |data| + |piece| <= |cur|
    ensures Stored(was, Splice(cur, at + |data|, piece), at, data + piece)
  {
  }

  lemma StoredLonger(was: seq<byte>, cur: seq<byte>, at: nat, data: seq<byte>, more: seq<byte>)
    requires Stored(was, cur, at, data)
    ensures Stored(was, cur + more, at, data)
  {
  }

  /** Splicing into a cluster is splicing into the chain. */
  lemma SpliceInside(all: seq<byte>, base: nat, part: seq<byte>, lo: nat, piece: seq<byte>)
    requires base + |part| <= |all| && all[base..base + |part|] == part && lo + |piece| <= |part|
    ensures Splice(all, base, Splice(part, lo, piece)) == Splice(all, base + lo, piece)
  {
    var l, r := Splice(all, base, Splice(part, lo, piece)), Splice(all, base + lo, piece);
    forall k | 0 <= k < |all|
      ensures l[k] == r[k]
    {
      if base <= k < base + |part| { assert all[base..base + |part|][k - base] == part[k - base]; }
    }
  }

  lemma SpliceOutside(part: seq<byte>, lo: nat, piece: seq<byte>)
    requires lo + |piece| <= |part|
    ensures AgreeOutside(part, Splice(part, lo, piece), lo, lo + |piece|)
  {
  }

  /** Store one piece into the `j`-th cluster of the file. */
  method StorePiece(v: Volume, cluster: nat, cbuf: seq<byte>, lo: nat, piece: seq<byte>,
                    ghost w: Job, ghost n0: nat, ghost j: nat)
    requires Writing(v, w) && SafeSince(v, n0, w, |w.before[w.h].bytes|)
    requires j < |v.fs.chains[w.h]| && cluster == v.fs.chains[w.h][j] && InRange(v.g, cluster)
    requires lo + |piece| <= v.g.ClusterSize()
    requires |v.disk.clus[cluster]| == v.g.ClusterSize() && cbuf == Splice(v.disk.clus[cluster], lo, piece)
    requires w.offset <= j * v.g.ClusterSize() + lo
    requires j * v.g.ClusterSize() + lo + |piece| <= w.offset + w.count
    requires forall k :: 0 <= k < |v.fs.chains[w.h]| ==> v.fs.chains[w.h][k] < |v.disk.clus|
    modifies v
    ensures Writing(v, w) && SafeSince(v, n0, w, |w.before[w.h].bytes|) && old(v.trace) <= v.trace
    ensures v.fs == old(v.fs) && v.disk.fat == old(v.disk).fat && |v.disk.clus| == |old(v.disk).clus|
    ensures 0 <= j * v.g.ClusterSize() + lo
         && j * v.g.ClusterSize() + lo + |piece| <= |ChainBytes(old(v.disk), v.fs.chains[w.h])|
    ensures ChainBytes(v.disk, v.fs.chains[w.h])
            == Splice(ChainBytes(old(v.disk), v.fs.chains[w.h]), j * v.g.ClusterSize() + lo, piece)
  {
    hide Volume.Valid, Consistent, Abs, Content, Fits, View, Shows, AgreeOutside, SafeAs, Safe, ChainBytes, Splice, TornSince;
    ghost var g, disk0, f, last := v.g, v.disk, v.fs, |w.before[w.h].bytes|;
    ghost var ch, was := f.chains[w.h], disk0.clus[cluster];
    SafeFacts(g, disk0, f, w, last);
    FileCluster(g, disk0, f, w.h, j);
    FileWriteBytes(g, disk0, ch, j, cbuf);
    ByteWindow(g, disk0, ch, j);
    SpliceInside(ChainBytes(disk0, ch), j * g.ClusterSize(), was, lo, piece);
    SpliceOutside(was, lo, piece);
    WriteSafe(g, disk0, f, w, last, j, cbuf, lo, lo + |piece|);
    var _ := v.WriteCluster(cluster, cbuf);
    TornSafe(v, |old(v.trace)|, disk0, f, w, last, j, cbuf, lo, lo + |piece|);
  }

  /** Every torn state of a write inside the range is safe. */
  lemma TornSafe(v: Volume, from: nat, d: Disk, f: Fs, w: Job, last: nat, j: nat, x: seq<byte>, lo: nat, hi: nat)
    requires from <= |v.trace| && SafeAs(v.g, d, f, w, last) && w.h in f.chains && j < |f.chains[w.h]|
    requires DiskShape(v.g, d) && InRange(v.g, f.chains[w.h][j]) && |x| == v.g.ClusterSize()
    requires AgreeOutside(d.clus[f.chains[w.h][j]], x, lo, hi)
    requires w.offset <= j * v.g.ClusterSize() + lo && j * v.g.ClusterSize() + hi <= w.offset + w.count
    requires TornSince(v.g, v.trace, from, d, f.chains[w.h][j], x)
    ensures forall k :: from <= k < |v.trace| ==> Safe(v.g, v.trace[k], w, last)
  {
    hide SafeAs, Safe, Shows, AgreeOutside, Torn;
    var c := f.chains[w.h][j];
    forall k | from <= k < |v.trace|
      ensures Safe(v.g, v.trace[k], w, last)
    {
      var q :| 0 <= q <= v.g.spc && Shows(v.g, v.trace[k], TornDisk(v.g, d, c, x, q));
      TornAgrees(v.g, d.clus[c], x, q, lo, hi);
      WriteSafe(v.g, d, f, w, last, j, Torn(v.g, d.clus[c], x, q), lo, hi);
      ShowsSafe(v.g, v.trace[k], TornDisk(v.g, d, c, x, q), f, w, last);
    }
  }

  // ---------------------------------------------------------------- walking and growing

  lemma WholeFits(g: Geometry, disk: Disk, f: Fs, h: nat)
    requires Consistent(g, disk, f) && h in f.chains
    ensures DiskShape(g, disk) && |f.chains[h]| > 0 && f.chains[h][0] == h && IsChain(g, disk.fat, h, f.chains[h])
    ensures forall k :: 0 <= k < |f.chains[h]| ==> InRange(g, f.chains[h][k]) && f.chains[h][k] < |disk.clus|
    ensures |ChainBytes(disk, f.chains[h])| == |f.chains[h]| * g.ClusterSize()
  {
    hide ChainBytes;
    ChainInside(g, disk, f, h);
    HeadFacts(g, disk, f);
    hide Consistent;
    PartsLen(g, disk, f.chains[h]);
  }

  /** What a write has done so far: `done` bytes stored, only the chain grown. */
  ghost predicate Progress(v: Volume, w: Job, n0: nat, f0: Fs, was: seq<byte>, done: seq<byte>)
    reads v
  {
    && Writing(v, w) && SafeSince(v, n0, w, |w.before[w.h].bytes|)
    && SameFrame(f0, v.fs, w.h) && v.fs.slots == f0.slots
    && Consistent(v.g, v.disk, v.fs)
    && Stored(was, Whole(v.disk, v.fs, w.h), w.offset, done)
  }

  lemma ProgressFacts(v: Volume, w: Job, n0: nat, f0: Fs, was: seq<byte>, done: seq<byte>)
    requires Progress(v, w, n0, f0, was, done)
    ensures v.Valid() && Consistent(v.g, v.disk, v.fs) && w.h in v.fs.chains
    ensures Stored(was, Whole(v.disk, v.fs, w.h), w.offset, done)
  {
    hide Volume.Valid, Consistent, Stored, SafeAs, SafeSince, SameFrame, NoLeak;
  }

  /** A position in the file's chain and the cluster before it. */
  ghost predicate At2(fat: seq<nat>, ch: seq<nat>, j: nat, cluster: nat, prev: nat)
  {
    Cursor(fat, ch, j, cluster) && prev == (if j > 0 then ch[j - 1] else 0)
  }

  /** Lengthen the file by one cluster when the walk has run off its end. */
  method Extend(v: Volume, prev: nat, ghost w: Job, ghost n0: nat, ghost f0: Fs, ghost was: seq<byte>, ghost done: seq<byte>)
    returns (n: nat)
    requires Progress(v, w, n0, f0, was, done) && |v.fs.chains[w.h]| > 0 && prev == Last(v.fs, w.h)
    modifies v
    ensures Progress(v, w, n0, f0, was, done) && Abs(v.g, v.disk, v.fs) == old(Abs(v.g, v.disk, v.fs))
    ensures n == 0 ==> v.disk == old(v.disk) && v.fs == old(v.fs) && NoneFree(v.g, v.disk.fat)
    ensures n != 0 ==> InRange(v.g, n) && v.fs.chains[w.h] == old(v.fs).chains[w.h] + [n]
    ensures Stock(v.g, v.disk.fat, v.fs, w.h) == old(Stock(v.g, v.disk.fat, v.fs, w.h))
  {
    hide Volume.Valid, Consistent, ChainBytes, NoneFree, Stored, SameFrame, SafeSince, SafeAs, NoLeak, Abs, Stock;
    ghost var disk0, f1 := v.disk, v.fs;
    WholeFits(v.g, disk0, f1, w.h);
    n := AppendCluster(v, prev, w, n0);
    if n != 0 {
      SafeFacts(v.g, v.disk, v.fs, w, |w.before[w.h].bytes|);
      ExtendFrame(f0, f1, w.h, n);
      ExtendBytes(v.g, disk0, f1, w.h, n);
      StoredLonger(was, ChainBytes(disk0, f1.chains[w.h]), w.offset, done, disk0.clus[n]);
    }
  }

  /** The loop that walks to the cluster of the offset, growing a file that is too short. */
  method SeekCluster(v: Volume, first: nat, k: nat, ghost w: Job, ghost n0: nat, ghost f0: Fs, ghost was: seq<byte>)
    returns (ok: bool, cluster: nat, prev: nat)
    requires Progress(v, w, n0, f0, was, []) && first == w.h && v.fs == f0 && Abs(v.g, v.disk, v.fs) == w.before
    modifies v
    ensures Progress(v, w, n0, f0, was, []) && Abs(v.g, v.disk, v.fs) == w.before
    ensures ok ==> At2(v.disk.fat, v.fs.chains[w.h], k, cluster, prev)
    ensures !ok ==> NoneFree(v.g, v.disk.fat) && |f0.chains[w.h]| < k
    ensures k <= |f0.chains[w.h]| ==> ok && v.disk == old(v.disk) && v.fs == f0
    ensures Stock(v.g, v.disk.fat, v.fs, w.h) == old(Stock(v.g, v.disk.fat, v.fs, w.h))
    ensures ok <==> k <= Stock(v.g, v.disk.fat, v.fs, w.h)
    ensures ok ==> |v.fs.chains[w.h]| == Max(|f0.chains[w.h]|, k)
  {
    hide Volume.Valid, Consistent, ChainBytes, NoneFree, Stored, SameFrame, SafeSince, SafeAs, NoLeak, IsChain, Abs, FreeCount;
    WholeFits(v.g, v.disk, v.fs, w.h);
    cluster := first;
    prev := 0;
    var i := 0;
    while i < k
      invariant 0 <= i <= k && Progress(v, w, n0, f0, was, []) && Abs(v.g, v.disk, v.fs) == w.before
      invariant At2(v.disk.fat, v.fs.chains[w.h], i, cluster, prev)
      invariant i > 0 || |v.fs.chains[w.h]| > 0
      invariant i <= |f0.chains[w.h]| ==> v.disk == old(v.disk) && v.fs == f0
      invariant Stock(v.g, v.disk.fat, v.fs, w.h) == old(Stock(v.g, v.disk.fat, v.fs, w.h))
      invariant |v.fs.chains[w.h]| == Max(|f0.chains[w.h]|, i)
    {
      WholeFits(v.g, v.disk, v.fs, w.h);
      if cluster >= EOC_MIN {
        var n := Extend(v, prev, w, n0, f0, was, []);
        if n == 0 {
          CountNone(v.g, v.disk.fat);
          return false, cluster, prev;
        }
        cluster := n;
        WholeFits(v.g, v.disk, v.fs, w.h);
      }
      prev := cluster;
      if cluster >= 2 && cluster < EOC_MIN {
        CursorStep(v.g, v.disk.fat, v.fs.chains[w.h], i);
        cluster := v.GetNext(cluster);
      }
      i := i + 1;
    }
    ok := true;
  }

  // ---------------------------------------------------------------- the data loop

  /** The buffer about to be written is the cluster with the piece stored in it. */
  lemma FilledBuffer(was: seq<byte>, cbuf: seq<byte>, lo: nat, piece: seq<byte>)
    requires |cbuf| == |was| && lo + |piece| <= |was|
    requires cbuf == was || (lo == 0 && |piece| == |was|)
    ensures Splice(cbuf, lo, piece) == Splice(was, lo, piece)
  {
  }

  /** One round of the data loop on the `j`-th cluster, which exists. */
  method StoreRound(v: Volume, cluster: nat, cbuf0: seq<byte>, lo: nat, buf: seq<byte>, done: nat,
                    ghost w: Job, ghost n0: nat, ghost f0: Fs, ghost was: seq<byte>, ghost j: nat)
    returns (cbuf: seq<byte>, take: nat)
    requires w.count == |buf| && done < |buf| && Progress(v, w, n0, f0, was, buf[..done])
    requires j < |v.fs.chains[w.h]| && cluster == v.fs.chains[w.h][j] && lo < v.g.ClusterSize()
    requires w.offset + done == j * v.g.ClusterSize() + lo && |cbuf0| == v.g.ClusterSize()
    modifies v
    ensures 0 < take && done + take <= |buf| && |cbuf| == v.g.ClusterSize()
    ensures Progress(v, w, n0, f0, was, buf[..done + take]) && v.fs == old(v.fs) && v.disk.fat == old(v.disk).fat
    ensures done + take < |buf| ==> w.offset + done + take == (j + 1) * v.g.ClusterSize()
  {
    hide Volume.Valid, Consistent, ChainBytes, Stored, SameFrame, SafeSince, SafeAs, NoLeak, IsChain, Splice, DiskShape;
    ghost var disk0 := v.disk;
    WholeFits(v.g, disk0, v.fs, w.h);
    ShapeSizes(v.g, disk0);
    var cs := v.g.ClusterSize();
    Distribute(j, 1, v.g.ClusterSize());
    cbuf := cbuf0;
    if lo != 0 || |buf| - done < cs {
      var rc;
      rc, cbuf := v.ReadCluster(cluster);
    }
    take := if cs - lo > |buf| - done then |buf| - done else cs - lo;
    var piece := buf[done..done + take];
    FilledBuffer(disk0.clus[cluster], cbuf, lo, piece);
    cbuf := Splice(cbuf, lo, piece);
    StorePiece(v, cluster, cbuf, lo, piece, w, n0, j);
    SafeFacts(v.g, v.disk, v.fs, w, |w.before[w.h].bytes|);
    StoredMore(was, ChainBytes(disk0, v.fs.chains[w.h]), w.offset, buf[..done], piece);
    assert buf[..done] + piece == buf[..done + take];
  }

  /** How many bytes fit from `offset` on into `stock` clusters. */
  function Room(stock: nat, cs: nat, offset: nat): nat
  {
    if stock * cs > offset then stock * cs - offset else 0
  }

  /** There is room exactly when the cluster of the offset is there or can be had. */
  lemma RoomWhen(stock: nat, cs: nat, offset: nat)
    requires cs > 0
    ensures Room(stock, cs, offset) > 0 <==> ClusterOf(offset, cs) < stock
  {
    Quotient(offset, cs);
    ByQuotient(stock, cs, offset, ClusterOf(offset, cs));
  }

  lemma Quotient(offset: nat, cs: nat)
    requires cs > 0
    ensures ClusterOf(offset, cs) * cs <= offset < ClusterOf(offset, cs) * cs + cs
  {
  }

  lemma ByQuotient(stock: nat, cs: nat, offset: nat, q: nat)
    requires q * cs <= offset < q * cs + cs
    ensures Room(stock, cs, offset) > 0 <==> q < stock
  {
    Distribute(q, 1, cs);
    MulOrder(stock, q, cs);
    MulOrder(q + 1, stock, cs);
  }

  /** The clusters that many bytes take. */
  function ClustersFor(bytes: nat, cs: nat): nat
    requires cs > 0
  {
    (bytes + cs - 1) / cs
  }

  /** The length of a chain of `len` clusters after a write that stored `done` bytes at `offset`. */
  function FinalLen(len: nat, cs: nat, offset: nat, done: nat): nat
    requires cs > 0
  {
    Max(len, if done > 0 then ClustersFor(offset + done, cs) else offset / cs)
  }

  /** The least number of clusters that hold the bytes. */
  lemma ClustersForIs(bytes: nat, cs: nat, n: nat)
    requires cs > 0
    ensures bytes <= n * cs <==> ClustersFor(bytes, cs) <= n
  {
    var q := ClustersFor(bytes, cs);
    CeilBounds(bytes, cs);
    MulOrder(q, n, cs);
    MulOrder(n + 1, q, cs);
    Distribute(n, 1, cs);
  }

  lemma CeilBounds(bytes: nat, cs: nat)
    requires cs > 0
    ensures bytes <= ClustersFor(bytes, cs) * cs < bytes + cs
  {
  }

  /** No cluster was added before a byte went into the one before it. */
  ghost predicate Snug(len0: nat, len: nat, cs: nat, end: nat)
  {
    len0 <= len && (len == len0 || (len - 1) * cs < end)
  }

  lemma SnugIs(len0: nat, len: nat, cs: nat, end: nat)
    requires cs > 0 && Snug(len0, len, cs, end) && end <= len * cs
    ensures len == Max(len0, ClustersFor(end, cs))
  {
    hide ClustersFor;
    ClustersForIs(end, cs, len);
    if len > 0 {
      ClustersForIs(end, cs, len - 1);
    }
  }

  lemma SnugMore(len0: nat, len: nat, cs: nat, end: nat, end': nat)
    requires Snug(len0, len, cs, end) && end <= end'
    ensures Snug(len0, len, cs, end')
  {
  }

  lemma SnugGrown(len0: nat, j: nat, cs: nat, end: nat)
    requires len0 <= j && j * cs < end
    ensures Snug(len0, j + 1, cs, end)
  {
  }

  /** The two parts of a write together: the walk to the offset, then the data. */
  lemma LenTwice(len0: nat, cs: nat, offset: nat, done: nat, len: nat)
    requires cs > 0
    requires len == if done == 0 then Max(len0, offset / cs) else Max(Max(len0, offset / cs), ClustersFor(offset + done, cs))
    ensures len == FinalLen(len0, cs, offset, done)
  {
    hide ClustersFor;
    if done > 0 {
      ClustersForIs(offset + done, cs, offset / cs);
      Quotient(offset, cs);
    }
  }

  /** When all bytes are stored they fit. */
  lemma AllFit(g: Geometry, disk: Disk, f: Fs, h: nat, was: seq<byte>, offset: nat, data: seq<byte>)
    requires Consistent(g, disk, f) && h in f.chains && Stored(was, Whole(disk, f, h), offset, data)
    ensures |data| <= Room(Stock(g, disk.fat, f, h), g.ClusterSize(), offset)
  {
    hide Consistent, ChainBytes, FreeCount;
    WholeFits(g, disk, f, h);
    Distribute(|f.chains[h]|, FreeCount(g, disk.fat), g.ClusterSize());
  }

  /** When the last cluster is full and none is left, what was stored is all the room. */
  lemma NoneLeft(g: Geometry, fat: seq<nat>, f: Fs, h: nat, offset: nat, done: nat, lo: nat)
    requires NoneFree(g, fat) && h in f.chains && offset + done == |f.chains[h]| * g.ClusterSize() + lo
    requires done > 0 ==> lo == 0
    ensures done == Room(Stock(g, fat, f, h), g.ClusterSize(), offset)
  {
    CountNone(g, fat);
  }

  lemma SnugStart(len: nat, cs: nat, end: nat)
    ensures Snug(len, len, cs, end)
  {
  }

  /** One round of the data loop, in cluster `j`, which was added if it was not there. */
  lemma SnugNext(len0: nat, len1: nat, len: nat, j: nat, cs: nat, end: nat, lo: nat, take: nat)
    requires Snug(len0, len1, cs, end) && end == j * cs + lo && take > 0 && (len == len1 || (len == j + 1 && len1 == j))
    ensures Snug(len0, len, cs, end + take)
  {
    if len == len1 {
      SnugMore(len0, len, cs, end, end + take);
    } else {
      SnugGrown(len0, j, cs, end + take);
    }
  }

  lemma SnugEnd(g: Geometry, disk: Disk, f: Fs, h: nat, was: seq<byte>, offset: nat, data: seq<byte>, len0: nat)
    requires Consistent(g, disk, f) && h in f.chains && data != [] && Stored(was, Whole(disk, f, h), offset, data)
    requires Snug(len0, |f.chains[h]|, g.ClusterSize(), offset + |data|)
    ensures g.ClusterSize() > 0 && |f.chains[h]| == Max(len0, ClustersFor(offset + |data|, g.ClusterSize()))
  {
    hide Consistent, ChainBytes, Snug, ClustersFor, IsChain, DiskShape;
    WholeFits(g, disk, f, h);
    PositiveSize(g, disk, f);
    SnugIs(len0, |f.chains[h]|, g.ClusterSize(), offset + |data|);
  }

  lemma PositiveSize(g: Geometry, disk: Disk, f: Fs)
    requires Consistent(g, disk, f)
    ensures g.ClusterSize() > 0
  {
    hide ChainLinks, Spots, Entries, Owners, Tails, SlotBytes, Sizes, Heads;
  }

  /** The data loop: every byte is stored, or no free cluster is left; so as many as there is room for. */
  method StoreAll(v: Volume, cluster0: nat, prev0: nat, lo: nat, buf: seq<byte>,
                  ghost w: Job, ghost n0: nat, ghost f0: Fs, ghost was: seq<byte>, ghost j0: nat)
    returns (done: nat)
    requires Progress(v, w, n0, f0, was, []) && w.count == |buf| && At2(v.disk.fat, v.fs.chains[w.h], j0, cluster0, prev0)
    requires lo < v.g.ClusterSize() && w.offset == j0 * v.g.ClusterSize() + lo
    modifies v
    ensures done <= |buf| && Progress(v, w, n0, f0, was, buf[..done])
    ensures done < |buf| ==> NoneFree(v.g, v.disk.fat)
    ensures Stock(v.g, v.disk.fat, v.fs, w.h) == old(Stock(v.g, v.disk.fat, v.fs, w.h))
    ensures done == Min(|buf|, Room(Stock(v.g, v.disk.fat, v.fs, w.h), v.g.ClusterSize(), w.offset))
    ensures done == 0 ==> v.fs.chains == old(v.fs).chains
    ensures done > 0 ==>
              && v.g.ClusterSize() > 0
              && |v.fs.chains[w.h]| == Max(old(|v.fs.chains[w.h]|), ClustersFor(w.offset + done, v.g.ClusterSize()))
  {
    hide Volume.Valid, Consistent, ChainBytes, NoneFree, Stored, IsChain, Abs, Stock, Room, Progress, Geometry.ClusterSize, DiskShape, Snug, ClustersFor;
    ProgressFacts(v, w, n0, f0, was, []);
    ghost var len0, cs := |v.fs.chains[w.h]|, v.g.ClusterSize();
    SnugStart(len0, cs, w.offset);
    var cluster: nat, prev: nat, byteOffset: nat := cluster0, prev0, lo;
    var cbuf := Zeros(v.g.ClusterSize());
    ghost var j: nat := j0;
    done := 0;
    assert buf[..0] == [];
    while done < |buf|
      invariant 0 <= done <= |buf| && Progress(v, w, n0, f0, was, buf[..done]) && w.h in v.fs.chains
      invariant At2(v.disk.fat, v.fs.chains[w.h], j, cluster, prev)
      invariant byteOffset < v.g.ClusterSize() && |cbuf| == v.g.ClusterSize()
      invariant done < |buf| ==> w.offset + done == j * v.g.ClusterSize() + byteOffset
      invariant Stock(v.g, v.disk.fat, v.fs, w.h) == old(Stock(v.g, v.disk.fat, v.fs, w.h))
      invariant done > 0 ==> byteOffset == 0
      invariant done == 0 ==> v.fs.chains == old(v.fs).chains
      invariant Snug(len0, |v.fs.chains[w.h]|, cs, w.offset + done)
    {
      ghost var len1 := |v.fs.chains[w.h]|;
      ProgressFacts(v, w, n0, f0, was, buf[..done]);
      WholeFits(v.g, v.disk, v.fs, w.h);
      if cluster >= EOC_MIN {
        var n := Extend(v, prev, w, n0, f0, was, buf[..done]);
        ProgressFacts(v, w, n0, f0, was, buf[..done]);
        if n == 0 {
          NoneLeft(v.g, v.disk.fat, v.fs, w.h, w.offset, done, byteOffset);
          if done > 0 {
            SnugEnd(v.g, v.disk, v.fs, w.h, was, w.offset, buf[..done], len0);
          }
          return;
        }
        cluster := n;
        WholeFits(v.g, v.disk, v.fs, w.h);
      }
      var take;
      cbuf, take := StoreRound(v, cluster, cbuf, byteOffset, buf, done, w, n0, f0, was, j);
      SnugNext(len0, len1, |v.fs.chains[w.h]|, j, cs, w.offset + done, byteOffset, take);
      done := done + take;
      byteOffset := 0;
      prev := cluster;
      ProgressFacts(v, w, n0, f0, was, buf[..done]);
      WholeFits(v.g, v.disk, v.fs, w.h);
      ShapeSizes(v.g, v.disk);
      CursorStep(v.g, v.disk.fat, v.fs.chains[w.h], j);
      cluster := v.GetNext(cluster);
      j := j + 1;
    }
    assert buf[..done] == buf;
    ProgressFacts(v, w, n0, f0, was, buf);
    if done > 0 {
      SnugEnd(v.g, v.disk, v.fs, w.h, was, w.offset, buf, len0);
    }
    AllFit(v.g, v.disk, v.fs, w.h, was, w.offset, buf);
  }

  // ---------------------------------------------------------------- the directory entry

  /** The slot `fat32_update_dir_entry` stores: 32-bit size, same first cluster. */
  function UpdatedSlot(s: Slot, n: Node): (x: Slot)
    requires IsSlot(s) && n.first < 0x1_0000_0000
    ensures IsSlot(x) && x[..11] == s[..11] && x[0] == s[0] && Attr(x) == Attr(s)
    ensures SlotFirst(x) == n.first && SlotSize(x) == n.size % 0x1_0000_0000
  {
    Resized(s, n.first, n.size % 0x1_0000_0000)
  }

  /** The chain positions and the slot a node stands for. */
  lemma NodePlace(g: Geometry, disk: Disk, f: Fs, n: Node)
    requires Consistent(g, disk, f) && g.Limit() <= EOC_MIN && NodeOk(g, f, n)
    ensures var d := f.owner[n.first].head;
            var j := f.spot[n.dirCluster].index;
            && OwnerOk(f.slots, n.first, f.owner[n.first])
            && d in f.chains && j < |f.chains[d]| && f.chains[d][j] == n.dirCluster
            && (forall k :: 0 <= k < |f.chains[d]| ==> InRange(g, f.chains[d][k]))
            && n.first in f.chains && n.first < 0x1_0000_0000
  {
    hide SlotFirst, IsLive, Entries, Tails, Sizes, SlotBytes, OwnerOk;
    OwnerAt(f.slots, f.owner, n.first);
    OwnerSlots(f.slots, n.first, f.owner[n.first]);
    ChainInside(g, disk, f, n.first);
    ChainInside(g, disk, f, f.owner[n.first].head);
  }

  lemma OwnerSlots(slots: Tree, h: nat, p: Place)
    requires OwnerOk(slots, h, p)
    ensures p.head in slots
  {
  }

  /** Where the slot of an open file is. */
  lemma NodeSlot(g: Geometry, disk: Disk, f: Fs, n: Node)
    requires Consistent(g, disk, f) && g.Limit() <= EOC_MIN && NodeOk(g, f, n)
    ensures var d := f.owner[n.first].head;
            var j := f.spot[n.dirCluster].index;
            var p := j * PerCluster(g) + n.dirOffset;
            && At(g, f, d, j, n.dirOffset) && f.chains[d][j] == n.dirCluster && InRange(g, n.dirCluster)
            && n.first in f.chains && n.first < 0x1_0000_0000 && f.owner[n.first] == Place(d, p)
            && IsSlot(f.slots[d][p]) && IsLive(f.slots[d][p]) && SlotFirst(f.slots[d][p]) == n.first
            && DiskShape(g, disk) && n.dirOffset < |ClusterSlots(disk.clus[n.dirCluster])|
            && ClusterSlots(disk.clus[n.dirCluster])[n.dirOffset] == f.slots[d][p]
  {
    hide SlotFirst, IsLive, DirSlots, ClusterSlots, Consistent, TailOk, Readable, Entries, DiskShape, IsChain;
    NodePlace(g, disk, f, n);
    var d := f.owner[n.first].head;
    var j := f.spot[n.dirCluster].index;
    DirFacts(g, disk, f, d);
    SlotPlace(g, disk, f.chains[d], j, n.dirOffset);
  }

  /** A recorded size beyond the chain is not consistent. */
  lemma Overhang(g: Geometry, d: Disk, f: Fs, dir: nat, p: nat, x: Slot, h: nat)
    requires dir in f.slots && p < |f.slots[dir]| && IsSlot(x) && h in f.owner && f.owner[h] == Place(dir, p)
    requires h !in f.slots && h in f.chains
    ensures Consistent(g, d, ResizedFs(f, dir, p, x)) ==> SlotSize(x) <= |f.chains[h]| * g.ClusterSize()
  {
    hide SlotSize, Consistent;
    if Consistent(g, d, ResizedFs(f, dir, p, x)) {
      SizeFits(g, d, ResizedFs(f, dir, p, x), h);
      HeadFacts(g, d, ResizedFs(f, dir, p, x));
    }
  }

  ghost function NewFs(g: Geometry, f: Fs, n: Node): Fs
    requires NodeOk(g, f, n) && f.owner[n.first].head in f.slots && n.first < 0x1_0000_0000
    requires f.owner[n.first].index < |f.slots[f.owner[n.first].head]|
    requires IsSlot(f.slots[f.owner[n.first].head][f.owner[n.first].index])
  {
    var p := f.owner[n.first];
    ResizedFs(f, p.head, p.index, UpdatedSlot(f.slots[p.head][p.index], n))
  }

  /** Recording a size the chain backs, on the abstract file system. */
  lemma UpdateMove(g: Geometry, disk: Disk, f: Fs, n: Node)
    requires Consistent(g, disk, f) && g.Limit() <= EOC_MIN && NodeOk(g, f, n) && !n.isDir && n.first in f.chains
    requires n.size % 0x1_0000_0000 <= |f.chains[n.first]| * g.ClusterSize()
    ensures DiskShape(g, disk) && InRange(g, n.dirCluster) && n.dirOffset < |ClusterSlots(disk.clus[n.dirCluster])|
    ensures n.first < 0x1_0000_0000 && OwnerOk(f.slots, n.first, f.owner[n.first])
    ensures var x := UpdatedSlot(ClusterSlots(disk.clus[n.dirCluster])[n.dirOffset], n);
            && 32 * n.dirOffset + 32 <= |disk.clus[n.dirCluster]|
            && var disk' := SlotDisk(disk, n.dirCluster, n.dirOffset, x);
            && Consistent(g, disk', NewFs(g, f, n))
            && n.size % 0x1_0000_0000 <= |Whole(disk, f, n.first)|
            && Abs(g, disk', NewFs(g, f, n)) ==
               Abs(g, disk, f)[n.first := File(Whole(disk, f, n.first)[..n.size % 0x1_0000_0000])]
            && (Tidy(f.slots) ==> Tidy(NewFs(g, f, n).slots))
  {
    hide Consistent, Abs, Tidy, ClusterSlots, SlotFirst, SlotSize, IsLive, Attr, ChainBytes, UpdatedSlot, Owners;
    NodeSlot(g, disk, f, n);
    HeadFacts(g, disk, f);
    OwnerAt(f.slots, f.owner, n.first);
    var d, j := f.owner[n.first].head, f.spot[n.dirCluster].index;
    var p := j * PerCluster(g) + n.dirOffset;
    AbsResize(g, disk, f, d, j, n.dirOffset, UpdatedSlot(f.slots[d][p], n), n.first);
  }

  lemma UpdatedSafe(g: Geometry, d: Disk, f: Fs, d': Disk, f': Fs, w: Job, size: nat)
    requires w.h in w.before && w.before[w.h].File? && SafeAs(g, d, f, w, |w.before[w.h].bytes|)
    requires w.h in f.chains && Consistent(g, d', f') && f'.owner == f.owner && f'.slots.Keys == f.slots.Keys
    requires size <= |Whole(d, f, w.h)|
    requires Abs(g, d', f') == Abs(g, d, f)[w.h := File(Whole(d, f, w.h)[..size])]
    ensures SafeAs(g, d', f', w, size)
  {
    hide Consistent, Content, Abs;
    AbsAt(g, d', f', w.h);
    ContentIs(g, d, f, w.h);
    var all := Whole(d, f, w.h);
    assert Content(d', f', w.h) == all[..size];
    var was, now := w.before[w.h].bytes, all[..size];
    forall k | 0 <= k < |was| && k < |now| && !(w.offset <= k < w.offset + w.count)
      ensures now[k] == was[k]
    {
      assert Content(d, f, w.h)[k] == was[k];
    }
  }

  /** States of a one-slot cluster write show the disk before or the disk after. */
  lemma SlotWriteSafe(v: Volume, from: nat, d: Disk, f: Fs, f': Fs, c: nat, i: nat, x: Slot, w: Job, size: nat)
    requires DiskShape(v.g, d) && InRange(v.g, c) && i < PerCluster(v.g) && IsSlot(x) && 32 * i + 32 <= v.g.ClusterSize()
    requires w.h in w.before && w.before[w.h].File? && SafeAs(v.g, d, f, w, |w.before[w.h].bytes|)
    requires SafeAs(v.g, SlotDisk(d, c, i, x), f', w, size)
    requires TornSince(v.g, v.trace, from, d, c, Splice(d.clus[c], 32 * i, x))
    ensures from <= |v.trace| && forall k :: from <= k < |v.trace| ==> Safe(v.g, v.trace[k], w, size)
  {
    hide SafeAs, Safe, Shows, Torn;
    var now := Splice(d.clus[c], 32 * i, x);
    forall k | from <= k < |v.trace|
      ensures Safe(v.g, v.trace[k], w, size)
    {
      var q :| 0 <= q <= v.g.spc && Shows(v.g, v.trace[k], TornDisk(v.g, d, c, now, q));
      TornSlot(v.g, d.clus[c], i, x, q);
      if Torn(v.g, d.clus[c], now, q) == now {
        ShowsSafe(v.g, v.trace[k], SlotDisk(d, c, i, x), f', w, size);
      } else {
        assert d.clus[c := d.clus[c]] == d.clus;
        ShowsSafe(v.g, v.trace[k], d, f, w, |w.before[w.h].bytes|);
        OldSizeSafe(v.g, v.trace[k], w, size);
      }
    }
  }

  /** What recording the size leaves behind. */
  ghost predicate Recorded(v: Volume, n: Node, w: Job, n0: nat, abs1: map<nat, Obj>, all: seq<byte>, tidy: bool)
    reads v
  {
    var size := n.size % 0x1_0000_0000;
    && v.Mounted() && SafeSince(v, n0, w, size) && size <= |all|
    && v.Files() == abs1[n.first := File(all[..size])]
    && (tidy ==> Tidy(v.fs.slots))
  }

  /** A directory cluster is no part of a file. */
  lemma SlotApart(g: Geometry, disk: Disk, f: Fs, n: Node, i: nat, x: Slot)
    requires Consistent(g, disk, f) && NodeOk(g, f, n) && n.first in f.chains && !n.isDir
    requires n.dirCluster < |disk.clus| && 32 * i + 32 <= |disk.clus[n.dirCluster]| && IsSlot(x)
    ensures forall k :: 0 <= k < |f.chains[n.first]| ==> f.chains[n.first][k] < |disk.clus|
    ensures ChainBytes(SlotDisk(disk, n.dirCluster, i, x), f.chains[n.first]) == ChainBytes(disk, f.chains[n.first])
  {
    hide ChainBytes, Splice, Entries, Tails, Sizes;
    OwnerAt(f.slots, f.owner, n.first);
    WholeFits(g, disk, f, n.first);
    OneChain(f.chains, f.spot, n.dirCluster, n.first);
    ChainFrame(disk, n.dirCluster, Splice(disk.clus[n.dirCluster], 32 * i, x), f.chains[n.first]);
  }

  ghost predicate Backed(g: Geometry, f: Fs, n: Node)
  {
    n.first in f.chains && n.size % 0x1_0000_0000 <= |f.chains[n.first]| * g.ClusterSize()
  }

  /** A recorded size that no cluster backs is one in every reading. */
  lemma OverhangShows(g: Geometry, disk: Disk, f: Fs, n: Node, x: Slot)
    requires Consistent(g, disk, f) && g.Limit() <= EOC_MIN && NodeOk(g, f, n) && !n.isDir && n.first in f.chains
    requires DiskShape(g, disk) && InRange(g, n.dirCluster) && n.dirOffset < |ClusterSlots(disk.clus[n.dirCluster])|
    requires n.first < 0x1_0000_0000 && 32 * n.dirOffset + 32 <= |disk.clus[n.dirCluster]|
    requires x == UpdatedSlot(ClusterSlots(disk.clus[n.dirCluster])[n.dirOffset], n) && !Backed(g, f, n)
    ensures Unreadable(g, SlotDisk(disk, n.dirCluster, n.dirOffset, x), f.owner[n.first].head)
  {
    hide Consistent, ClusterSlots, DirSlots, SlotFirst, SlotSize, IsLive, Attr, UpdatedSlot, DiskShape, IsChain, Splice, Unreadable;
    var d, j := f.owner[n.first].head, f.spot[n.dirCluster].index;
    NodeSlot(g, disk, f, n);
    var ch, p := f.chains[d], j * PerCluster(g) + n.dirOffset;
    NodeFolder(g, disk, f, n);
    ShapeSizes(g, disk);
    UpdatedLive(f.slots[d][p], n);
    SlotStore(g, disk, ch, j, n.dirOffset, x);
    OwnedChain(g, disk, f, n.first);
    TooLong(g, SlotDisk(disk, n.dirCluster, n.dirOffset, x), d, ch, p, f.chains[n.first]);
  }

  lemma NodeFolder(g: Geometry, disk: Disk, f: Fs, n: Node)
    requires Consistent(g, disk, f) && g.Limit() <= EOC_MIN && NodeOk(g, f, n) && !n.isDir && n.first in f.chains
    ensures var d, p := f.owner[n.first].head, f.owner[n.first].index;
            && d in f.slots && d in f.chains && IsChain(g, disk.fat, d, f.chains[d]) && NoRepeat(f.chains[d])
            && (forall k :: 0 <= k < |f.chains[d]| ==> InRange(g, f.chains[d][k]))
            && p < |f.slots[d]| && IsSlot(f.slots[d][p]) && Attr(f.slots[d][p]) != ATTR_DIRECTORY
            && f.slots[d] == DirSlots(disk, f.chains[d])
  {
    hide Consistent, DirSlots, SlotFirst, SlotSize, IsLive, Attr, Entries, Readable, TailOk;
    NodeSlot(g, disk, f, n);
    var d, p := f.owner[n.first].head, f.owner[n.first].index;
    DirFacts(g, disk, f, d);
    ChainInside(g, disk, f, d);
    EntryAt(f, d, p);
  }

  lemma UpdatedLive(s: Slot, n: Node)
    requires IsSlot(s) && IsLive(s) && n.first < 0x1_0000_0000
    ensures IsLive(UpdatedSlot(s, n))
  {
  }

  /** Everything about the disk with the new size recorded, backed by the chain or not. */
  lemma UpdateFacts(g: Geometry, disk: Disk, f: Fs, n: Node, x: Slot, w: Job)
    requires Consistent(g, disk, f) && g.Limit() <= EOC_MIN && NodeOk(g, f, n) && !n.isDir && n.first in f.chains
    requires |disk.fat| == g.Limit() && NoLeak(g, disk.fat, f) && n.first == w.h
    requires w.h in w.before && w.before[w.h].File? && SafeAs(g, disk, f, w, |w.before[w.h].bytes|)
    requires DiskShape(g, disk) && InRange(g, n.dirCluster) && n.dirOffset < |ClusterSlots(disk.clus[n.dirCluster])|
    requires n.first < 0x1_0000_0000 && OwnerOk(f.slots, n.first, f.owner[n.first])
    requires x == UpdatedSlot(ClusterSlots(disk.clus[n.dirCluster])[n.dirOffset], n)
    requires ClusterSlots(disk.clus[n.dirCluster])[n.dirOffset] == f.slots[f.owner[n.first].head][f.owner[n.first].index]
    ensures 32 * n.dirOffset + 32 <= |disk.clus[n.dirCluster]|
    ensures forall k :: 0 <= k < |f.chains[n.first]| ==> f.chains[n.first][k] < |disk.clus|
    ensures var disk' := SlotDisk(disk, n.dirCluster, n.dirOffset, x);
            var f' := NewFs(g, f, n);
            && ChainBytes(disk', f.chains[n.first]) == ChainBytes(disk, f.chains[n.first])
            && NoLeak(g, disk'.fat, f')
            && (Consistent(g, disk', f') <==> Backed(g, f, n))
            && (!Backed(g, f, n) ==> Unreadable(g, disk', f.owner[n.first].head))
            && (Backed(g, f, n) ==>
                  && n.size % 0x1_0000_0000 <= |Whole(disk, f, n.first)|
                  && Abs(g, disk', f') ==
                     Abs(g, disk, f)[n.first := File(Whole(disk, f, n.first)[..n.size % 0x1_0000_0000])]
                  && (Tidy(f.slots) ==> Tidy(f'.slots))
                  && SafeAs(g, disk', f', w, n.size % 0x1_0000_0000))
  {
    hide Consistent, Abs, Tidy, ClusterSlots, SlotFirst, SlotSize, IsLive, Attr, ChainBytes, UpdatedSlot, SafeAs, DiskShape, Unreadable;
    ShapeSizes(g, disk);
    SlotBytesAt(disk.clus[n.dirCluster], n.dirOffset);
    SlotApart(g, disk, f, n, n.dirOffset, x);
    var p := f.owner[n.first];
    var disk' := SlotDisk(disk, n.dirCluster, n.dirOffset, x);
    Overhang(g, disk', f, p.head, p.index, x, n.first);
    if Backed(g, f, n) {
      UpdateMove(g, disk, f, n);
      UpdatedSafe(g, disk, f, disk', NewFs(g, f, n), w, n.size % 0x1_0000_0000);
    } else {
      OverhangShows(g, disk, f, n, x);
    }
  }

  /** A new size changes no quota. */
  lemma UpdateQuota(g: Geometry, f: Fs, n: Node)
    requires NodeOk(g, f, n) && f.owner[n.first].head in f.slots && n.first < 0x1_0000_0000
    requires f.owner[n.first].index < |f.slots[f.owner[n.first].head]|
    requires var s := f.slots[f.owner[n.first].head][f.owner[n.first].index]; IsSlot(s) && IsLive(s)
    ensures QuotaOf(NewFs(g, f, n)) == QuotaOf(f)
  {
    hide QuotaOf, IsLive, SlotFirst, SlotSize, Attr, UpdatedSlot;
    var p := f.owner[n.first];
    UpdatedLive(f.slots[p.head][p.index], n);
    ResizedQuota(f, p.head, p.index, UpdatedSlot(f.slots[p.head][p.index], n));
  }

  /** `fat32_update_dir_entry`. */
  method UpdateEntry(v: Volume, n: Node, ghost w: Job, ghost n0: nat) returns (rc: int)
    requires Writing(v, w) && SafeSince(v, n0, w, |w.before[w.h].bytes|)
    requires n.first == w.h && NodeOk(v.g, v.fs, n) && !n.isDir && Consistent(v.g, v.disk, v.fs)
    modifies v
    ensures v.Valid() && rc == 0 && v.disk.fat == old(v.disk).fat && old(v.trace) <= v.trace
    ensures v.fs.chains == old(v.fs).chains && v.fs.spot == old(v.fs).spot && v.fs.owner == old(v.fs).owner
    ensures v.fs.pending == {} && v.fs.slots.Keys == old(v.fs).slots.Keys
    ensures v.Mounted() <==> Backed(v.g, v.fs, n)
    ensures !v.Mounted() ==> Unreadable(v.g, v.disk, v.fs.owner[n.first].head)
    ensures v.Mounted() ==>
              Recorded(v, n, w, n0, old(Abs(v.g, v.disk, v.fs)), old(Whole(v.disk, v.fs, w.h)), Tidy(old(v.fs).slots))
    ensures v.Mounted() ==> Whole(v.disk, v.fs, w.h) == old(Whole(v.disk, v.fs, w.h))
    ensures QuotaOf(v.fs) == QuotaOf(old(v.fs))
  {
    hide QuotaOf;
    hide Volume.Valid, Consistent, Abs, Tidy, ClusterSlots, SlotFirst, SlotSize, IsLive, Attr, ChainBytes, UpdatedSlot, SafeAs, Safe, NoLeak, TornSince, Splice, Backed, DiskShape, Unreadable;
    ghost var g, disk0, f0 := v.g, v.disk, v.fs;
    NodeSlot(g, disk0, f0, n);
    ShapeSizes(g, disk0);
    var r, buf := v.ReadCluster(n.dirCluster);
    SlotBytesAt(buf, n.dirOffset);
    var x := UpdatedSlot(buf[32 * n.dirOffset..32 * n.dirOffset + 32], n);
    UpdateFacts(g, disk0, f0, n, x, w);
    var _ := v.WriteCluster(n.dirCluster, Splice(buf, 32 * n.dirOffset, x));
    v.fs := NewFs(g, f0, n);
    UpdateQuota(g, f0, n);
    if Backed(g, f0, n) {
      SlotWriteSafe(v, |old(v.trace)|, disk0, f0, v.fs, n.dirCluster, n.dirOffset, x, w, n.size % 0x1_0000_0000);
      TraceSafe(v, old(v.trace), n0, w, n.size % 0x1_0000_0000);
    }
    BackedSame(g, f0, v.fs, n);
    rc := 0;
  }

  lemma BackedSame(g: Geometry, f: Fs, f': Fs, n: Node)
    requires n.first in f.chains && f'.chains == f.chains
    ensures Backed(g, f', n) == Backed(g, f, n)
  {
  }

  /** Earlier states stay safe whatever the final size. */
  lemma TraceSafe(v: Volume, before: seq<Sectors>, n0: nat, w: Job, size: nat)
    requires w.h in w.before && w.before[w.h].File? && before <= v.trace && n0 <= |before|
    requires forall k :: n0 <= k < |before| ==> Safe(v.g, before[k], w, |w.before[w.h].bytes|)
    requires forall k :: |before| <= k < |v.trace| ==> Safe(v.g, v.trace[k], w, size)
    ensures SafeSince(v, n0, w, size)
  {
    hide Safe;
    forall k | n0 <= k < |v.trace|
      ensures Safe(v.g, v.trace[k], w, size)
    {
      if k < |before| { OldSizeSafe(v.g, before[k], w, size); }
    }
  }

  // ---------------------------------------------------------------- fat32_write

  /** What a write returns when it does not fail: the node with its size raised. */
  function Raised(n: Node, offset: nat, done: nat): Node
  {
    if offset + done > n.size then n.(size := offset + done) else n
  }

  /** The file after `data` was written at `offset`: overwritten, and longer if need be. */
  function Overwritten(was: seq<byte>, offset: nat, data: seq<byte>): (r: seq<byte>)
    requires offset <= |was|
    ensures |r| == if offset + |data| > |was| then offset + |data| else |was|
  {
    was[..offset] + data + if offset + |data| < |was| then was[offset + |data|..] else []
  }

  /** `now` is `was` with `data` written at `pos`, at or below its end. */
  ghost predicate WroteAt(was: seq<byte>, now: seq<byte>, pos: nat, data: seq<byte>)
  {
    pos <= |was| && now == Overwritten(was, pos, data)
  }

  /** The part of a file that a 32-bit size can record. */
  function Recorded32(b: seq<byte>): seq<byte> { b[..|b| % 0x1_0000_0000] }

  lemma StoredIsOverwritten(all0: seq<byte>, all1: seq<byte>, size: nat, offset: nat, data: seq<byte>)
    requires Stored(all0, all1, offset, data) && offset <= size <= |all0|
    ensures var size' := if offset + |data| > size then offset + |data| else size;
            size' <= |all1| && all1[..size'] == Overwritten(all0[..size], offset, data)
  {
  }

  /** An open file is the file whose slot it came from. */
  lemma StartWriting(v: Volume, n: Node, w: Job)
    requires v.Mounted() && OpenFile(v.g, v.fs, n)
    requires w.before == v.Files() && w.h == n.first
    ensures w.h in w.before && w.before[w.h].File? && Writing(v, w) && SafeSince(v, |v.trace|, w, |w.before[w.h].bytes|)
    ensures SameFrame(v.fs, v.fs, w.h) && Stored(Whole(v.disk, v.fs, w.h), Whole(v.disk, v.fs, w.h), w.offset, [])
  {
    hide Volume.Valid, Consistent, Content, Abs;
    AbsAt(v.g, v.disk, v.fs, w.h);
  }

  lemma NodeStays(g: Geometry, f0: Fs, f1: Fs, h: nat, n: Node)
    requires SameFrame(f0, f1, h) && NodeOk(g, f0, n)
    ensures NodeOk(g, f1, n)
  {
  }

  /** What a write that stored `data` and recorded the size of `n'` leaves behind. */
  ghost predicate Written(v: Volume, n': Node, data: seq<byte>, w: Job, n0: nat, f0: Fs, was: seq<byte>)
    reads v
  {
    && v.Mounted() && w.h in v.fs.chains
    && var all := Whole(v.disk, v.fs, w.h);
       var size := n'.size % 0x1_0000_0000;
       && size <= |all| && Stored(was, all, w.offset, data)
       && v.Files() == w.before[w.h := File(all[..size])]
       && (Tidy(f0.slots) ==> Tidy(v.fs.slots))
       && SafeSince(v, n0, w, size)
  }

  lemma SameAt(m1: map<nat, Obj>, m2: map<nat, Obj>, h: nat, x: Obj)
    requires m1 - {h} == m2 - {h}
    ensures m1[h := x] == m2[h := x]
  {
    forall k | k in m1 && k != h
      ensures k in m2 && m1[k] == m2[k]
    {
      assert k in m1 - {h} && (m1 - {h})[k] == m1[k];
    }
    forall k | k in m2 && k != h
      ensures k in m1
    {
      assert k in m2 - {h};
    }
  }

  lemma SafeOthers(g: Geometry, d: Disk, f: Fs, w: Job, last: nat)
    requires SafeAs(g, d, f, w, last)
    ensures Consistent(g, d, f) && Abs(g, d, f) - {w.h} == w.before - {w.h}
  {
  }

  /** Only the chain of the file grew. */
  lemma GrownLen(f0: Fs, f1: Fs, h: nat)
    requires SameFrame(f0, f1, h) && f1.slots == f0.slots
    ensures QuotaOf(f1) == Relength(QuotaOf(f0), h, |f1.chains[h]|)
  {
    hide QuotaOf;
    LongerQuota(f0, f1, h);
  }

  lemma FrameStays(f0: Fs, f1: Fs, f2: Fs, h: nat)
    requires SameFrame(f0, f1, h)
    requires f2.chains == f1.chains && f2.spot == f1.spot && f2.owner == f1.owner
    requires f2.pending == f1.pending && f2.slots.Keys == f1.slots.Keys
    ensures SameFrame(f0, f2, h)
  {
  }

  /** Record the size and be done. */
  method Finish(v: Volume, n: Node, buf: seq<byte>, done: nat, ghost w: Job, ghost n0: nat, ghost f0: Fs, ghost was: seq<byte>)
    requires done <= |buf| && Progress(v, w, n0, f0, was, buf[..done])
    requires n.first == w.h && NodeOk(v.g, f0, n) && !n.isDir
    modifies v
    ensures v.Valid() && SameFrame(f0, v.fs, w.h) && v.disk.fat == old(v.disk).fat && old(v.trace) <= v.trace
    ensures w.h in v.fs.chains && v.fs.chains == old(v.fs).chains
    ensures v.Mounted() <==> Backed(v.g, v.fs, n)
    ensures !v.Mounted() ==> w.h in v.fs.owner && Unreadable(v.g, v.disk, v.fs.owner[w.h].head)
    ensures v.Mounted() ==> Written(v, n, buf[..done], w, n0, f0, was)
    ensures QuotaOf(v.fs) == QuotaOf(old(v.fs))
  {
    hide QuotaOf;
    hide Volume.Valid, Consistent, Abs, Tidy, ChainBytes, SafeAs, Safe, NoLeak, Stored, Backed, NoneFree, SafeSince, SameFrame, NodeOk, Unreadable;
    ghost var f1, all := v.fs, Whole(v.disk, v.fs, w.h);
    ghost var abs1 := Abs(v.g, v.disk, v.fs);
    NodeStays(v.g, f0, f1, w.h, n);
    SafeOthers(v.g, v.disk, f1, w, |w.before[w.h].bytes|);
    var _ := UpdateEntry(v, n, w, n0);
    FrameStays(f0, f1, v.fs, w.h);
    if v.Mounted() {
      SameAt(abs1, w.before, w.h, File(all[..n.size % 0x1_0000_0000]));
    }
  }

  lemma SafeAnySize(v: Volume, n0: nat, w: Job, size: nat)
    requires w.h in w.before && w.before[w.h].File? && SafeSince(v, n0, w, |w.before[w.h].bytes|)
    ensures SafeSince(v, n0, w, size)
  {
    hide Safe;
    TraceSafe(v, v.trace, n0, w, size);
  }

  /** Enough clusters back the size unless nothing was written beyond the end. */
  lemma BackedWhen(g: Geometry, disk: Disk, f: Fs, n: Node, offset: nat, data: seq<byte>, was: seq<byte>)
    requires Consistent(g, disk, f) && n.first in f.chains && n.size <= |was|
    requires Stored(was, Whole(disk, f, n.first), offset, data)
    ensures offset <= n.size || data != [] ==> Backed(g, f, Raised(n, offset, |data|))
  {
    hide Consistent, ChainBytes;
    WholeFits(g, disk, f, n.first);
  }

  /** The index of the cluster an offset is in. */
  ghost function ClusterOf(offset: nat, cs: nat): nat
    requires cs > 0
  {
    offset / cs
  }

  /**
   * Whether the size on disk ends up backed, seen before the call.  The file has `size` bytes in
   * `len` clusters, and could have `stock` of them.  It fails to be backed only beyond the end of the
   * file, when no byte can be stored and the clusters that the walk adds do not reach the offset.
   */
  ghost predicate SizeBacked(size: nat, len: nat, stock: nat, cs: nat, offset: nat, count: nat)
    requires cs > 0
  {
    var q := ClusterOf(offset, cs);
    || offset <= size || q > stock || (count > 0 && q < stock) || offset % 0x1_0000_0000 <= Max(len, q) * cs
  }

  lemma BeyondAll(size: nat, len: nat, stock: nat, cs: nat, offset: nat, count: nat)
    requires cs > 0 && ClusterOf(offset, cs) > stock
    ensures SizeBacked(size, len, stock, cs, offset, count)
  {
  }

  lemma BackedIs(g: Geometry, f: Fs, n: Node, offset: nat, done: nat, len: nat, stock: nat, count: nat)
    requires g.ClusterSize() > 0 && n.first in f.chains && ClusterOf(offset, g.ClusterSize()) <= stock
    requires done == Min(count, Room(stock, g.ClusterSize(), offset))
    requires done == 0 ==> |f.chains[n.first]| == Max(len, ClusterOf(offset, g.ClusterSize()))
    requires offset <= n.size || done > 0 ==> Backed(g, f, Raised(n, offset, done))
    ensures Backed(g, f, Raised(n, offset, done)) <==> SizeBacked(n.size, len, stock, g.ClusterSize(), offset, count)
  {
    hide Room, ClusterOf;
    RoomWhen(stock, g.ClusterSize(), offset);
  }

  /**
   * Writing nothing just behind the only cluster of a file records a size that no cluster backs: no
   * structure that has the folder reads the disk as consistent, and none at all if it is the root.
   */
  method WriteNothing(v: Volume, n: Node) returns (r: int, n': Node)
    requires v.Mounted() && OpenFile(v.g, v.fs, n) && |v.fs.chains[n.first]| == 1
    requires 0 < v.g.ClusterSize() < 0xFFFF_FFFF
    modifies v
    ensures r == 0 && n'.size == v.g.ClusterSize() + 1 && !v.Mounted()
    ensures n.first in v.fs.owner && Unreadable(v.g, v.disk, v.fs.owner[n.first].head)
    ensures v.fs.owner == old(v.fs.owner)
    ensures v.fs.owner[n.first].head == v.g.root ==> forall f: Fs :: !Consistent(v.g, v.disk, f)
  {
    hide Unreadable, Stock, Room, SizeBacked, ClusterOf, FinalLen, QuotaOf, Relength, IsChain;
    hide Volume.Valid, Consistent, Abs, Tidy, ChainBytes, SafeAs, Safe, NoLeak, Stored, Backed, NoneFree, SafeSince, SameFrame, NodeOk, Written, FreeCount;
    var cs := v.g.ClusterSize();
    NodeFits(v.g, v.disk, v.fs, n);
    ghost var f0 := v.fs;
    StockMore(v.g, v.disk.fat, f0, n.first);
    BehindOnly(n.size, Stock(v.g, v.disk.fat, f0, n.first), cs);
    r, n' := Write(v, n, [], cs + 1);
    FrameOwner(f0, v.fs, n.first);
    if v.fs.owner[n.first].head == v.g.root {
      UnreadableRoot(v.g, v.disk);
    }
  }

  lemma FrameOwner(f0: Fs, f1: Fs, h: nat)
    requires SameFrame(f0, f1, h)
    ensures f1.owner == f0.owner
  {
  }

  lemma StockMore(g: Geometry, fat: seq<nat>, f: Fs, h: nat)
    requires h in f.chains
    ensures Stock(g, fat, f, h) >= |f.chains[h]|
  {
  }

  /** One byte behind the only cluster, writing nothing: no failure, and nothing backs the size. */
  lemma BehindOnly(size: nat, stock: nat, cs: nat)
    requires 1 < cs < 0xFFFF_FFFF && size <= 1 * cs && stock >= 1
    ensures cs + 1 < 0x1_0000_0000 * cs && ClusterOf(cs + 1, cs) <= stock && !SizeBacked(size, 1, stock, cs, cs + 1, 0)
  {
    JustBehind(cs);
  }

  lemma JustBehind(cs: nat)
    requires cs > 1
    ensures (cs + 1) / cs == 1 && cs + 1 < 0x1_0000_0000 * cs
  {
    assert cs + 1 == 1 * cs + 1;
    MulOrder(2, (cs + 1) / cs, cs);
  }

  /**
   * `fat32_write`.  The bytes go to `offset`, as many as there is room for in the clusters the file
   * has and those that are free; it fails exactly when the offset is beyond these.  The volume stays
   * mounted exactly under the condition above.
   */
  method Write(v: Volume, n: Node, buf: seq<byte>, offset: nat) returns (r: int, n': Node)
    requires v.Mounted() && OpenFile(v.g, v.fs, n)
    requires offset < 0x1_0000_0000 * v.g.ClusterSize()
    modifies v
    ensures -1 <= r <= |buf| && v.Valid() && SameFrame(old(v.fs), v.fs, n.first) && n.first in v.fs.chains
    ensures r < |buf| ==> NoneFree(v.g, v.disk.fat)
    ensures n' == if r == -1 then n else Raised(n, offset, r)
    ensures r == -1 ==> offset > n.size && v.Mounted() && v.Files() == old(v.Files())
    ensures r >= 0 ==> (v.Mounted() <==> Backed(v.g, v.fs, n'))
    ensures offset <= n.size || r != 0 ==> v.Mounted()
    ensures !v.Mounted() ==> n.first in v.fs.owner && Unreadable(v.g, v.disk, v.fs.owner[n.first].head)
    ensures Stock(v.g, v.disk.fat, v.fs, n.first) == old(Stock(v.g, v.disk.fat, v.fs, n.first))
    ensures var cs, stock := v.g.ClusterSize(), old(Stock(v.g, v.disk.fat, v.fs, n.first));
            && cs > 0 && (r == -1 <==> ClusterOf(offset, cs) > stock)
            && (r >= 0 ==> r == Min(|buf|, Room(stock, cs, offset)))
            && (v.Mounted() <==> SizeBacked(n.size, old(|v.fs.chains[n.first]|), stock, cs, offset, |buf|))
    ensures r >= 0 && v.Mounted() ==>
              Written(v, n', buf[..r], Job(old(v.Files()), n.first, offset, |buf|), old(|v.trace|), old(v.fs),
                      old(Whole(v.disk, v.fs, n.first)))
    ensures r == -1 ==>
              SafeSince(v, old(|v.trace|), Job(old(v.Files()), n.first, offset, |buf|), n'.size % 0x1_0000_0000)
    ensures r >= 0 ==> |v.fs.chains[n.first]| == FinalLen(old(|v.fs.chains[n.first]|), v.g.ClusterSize(), offset, r)
    ensures QuotaOf(v.fs) == Relength(QuotaOf(old(v.fs)), n.first, |v.fs.chains[n.first]|)
  {
    hide QuotaOf, FinalLen, ClustersFor;
    hide Volume.Valid, Consistent, Abs, Tidy, ChainBytes, SafeAs, Safe, NoLeak, Stored, Backed, NoneFree, SafeSince, SameFrame, NodeOk, Written, Stock, Room, SizeBacked, Unreadable;
    ghost var g, f0, n0 := v.g, v.fs, |v.trace|;
    ghost var stock := Stock(g, v.disk.fat, f0, n.first);
    ghost var w := Job(v.Files(), n.first, offset, |buf|);
    ghost var was := Whole(v.disk, f0, n.first);
    StartWriting(v, n, w);
    var cs := v.g.ClusterSize();
    var skip := offset / cs % 0x1_0000_0000;
    WholeFits(g, v.disk, f0, n.first);
    SplitOffset(offset, cs, n.size, |f0.chains[n.first]|);
    var ok, cluster, prev := SeekCluster(v, n.first, skip, w, n0, f0, was);
    if !ok {
      SafeAnySize(v, n0, w, n.size % 0x1_0000_0000);
      GrownLen(f0, v.fs, n.first);
      BeyondAll(n.size, |f0.chains[n.first]|, stock, cs, offset, |buf|);
      r, n' := -1, n;
      return;
    }
    var done := StoreAll(v, cluster, prev, offset % cs, buf, w, n0, f0, was, skip);
    n' := Raised(n, offset, done);
    LenTwice(|f0.chains[n.first]|, cs, offset, done, |v.fs.chains[n.first]|);
    GrownLen(f0, v.fs, n.first);
    RaisedOk(g, f0, n, offset, done);
    BackedWhen(g, v.disk, v.fs, n, offset, buf[..done], was);
    BackedSame(g, v.fs, v.fs, n');
    BackedIs(g, v.fs, n, offset, done, |f0.chains[n.first]|, stock, |buf|);
    ghost var f1 := v.fs;
    Finish(v, n', buf, done, w, n0, f0, was);
    BackedSame(g, f1, v.fs, n');
    StockSame(g, v.disk.fat, f1, v.fs, n.first);
    r := done;
  }

  lemma StockSame(g: Geometry, fat: seq<nat>, f: Fs, f': Fs, h: nat)
    requires f'.chains == f.chains
    ensures Stock(g, fat, f', h) == Stock(g, fat, f, h)
  {
  }

  lemma RaisedOk(g: Geometry, f: Fs, n: Node, offset: nat, done: nat)
    requires NodeOk(g, f, n)
    ensures NodeOk(g, f, Raised(n, offset, done))
  {
  }

  lemma SplitOffset(offset: nat, cs: nat, size: nat, n: nat)
    requires cs > 0 && size <= n * cs && offset < 0x1_0000_0000 * cs
    ensures offset == offset / cs * cs + offset % cs && 0 <= offset / cs < 0x1_0000_0000
    ensures offset <= size ==> offset / cs <= n
  {
    var q := offset / cs;
    MulOrder(0x1_0000_0000, q, cs);
    MulOrder(n + 1, q, cs);
    Distribute(n, 1, cs);
  }
}
