/** The shell's `copy_file`. */
module ShellCopy {
  import opened Numbers
  import opened Bytes
  import opened Fat32Layout
  import opened Fat32Name
  import opened Fat32Dir
  import opened Fat32State
  import opened Fat32Abs
  import opened Fat32Volume
  import opened Fat32Tree
  import opened Fat32Free
  import opened Fat32Create
  import opened Fat32Remove
  import opened Fat32File
  import opened Fat32Write
  import opened Fat32Run
  import opened V = Vfs

  const SOURCE := Flags(ReadOnly, false, false, false)
  const TARGET := Flags(WriteOnly, true, true, false)

  /** The head a name leads to. */
  ghost function HeadOf(f: Fs, dir: nat, name: Name): Option<nat>
  {
    if dir in f.slots && name in DirMap(f.slots[dir]) then Some(DirMap(f.slots[dir])[name]) else None
  }

  /** A node whose file is known to hold `s`, at the node's size, reads `s`. */
  lemma ReadsAs(g: Geometry, disk: Disk, f: Fs, n: Node, s: seq<byte>)
    requires Consistent(g, disk, f) && OpenFile(g, f, n) && n.size == |s|
    requires n.first in Abs(g, disk, f) && Abs(g, disk, f)[n.first] == File(s)
    ensures NodeBytes(disk, f, n) == s
  {
    hide Consistent, Content, ChainBytes, FileSize, NodeOk;
    HeadFacts(g, disk, f);
    AbsAt(g, disk, f, n.first);
    NodeOwner(g, f, n);
    ContentIs(g, disk, f, n.first);
    NodeFits(g, disk, f, n);
  }

  lemma NodeOwner(g: Geometry, f: Fs, n: Node)
    requires NodeOk(g, f, n) && !n.isDir
    ensures n.first in f.owner && n.first !in f.slots
  {
  }

  lemma KeptOpen(g: Geometry, f0: Fs, f1: Fs, n: Node)
    requires NodesKept(f0, f1) && OpenFile(g, f0, n)
    ensures OpenFile(g, f1, n)
  {
  }

  lemma FrameOpen(g: Geometry, f0: Fs, f1: Fs, h: nat, n: Node)
    requires SameFrame(f0, f1, h) && OpenFile(g, f0, n) && n.first != h
    ensures OpenFile(g, f1, n)
  {
  }

  /** The copy so far: `k` bytes of `s` are in the target, in memory and, from the first one on, on disk. */
  ghost predicate Copying(fs: Vfs, sfd: int, dfd: int, src: Node, t: nat, s: seq<byte>, k: nat, base: map<nat, Obj>)
    reads fs, fs.vol
  {
    CopyingAt(fs, sfd, dfd, src, k, t, s, k, base)
  }

  /** The same with the source read up to `pos`. */
  ghost predicate CopyingAt(fs: Vfs, sfd: int, dfd: int, src: Node, pos: nat, t: nat, s: seq<byte>, k: nat, base: map<nat, Obj>)
    reads fs, fs.vol
  {
    && fs.Valid() && sfd != dfd && fs.Live(sfd) && fs.Live(dfd) && k <= |s| < 0x1_0000_0000
    && fs.fds[sfd].value == OpenRec(src, pos, SOURCE) && src.first != t && src.size == |s|
    && fs.fds[dfd].value.node.first == t && fs.fds[dfd].value.node.size == k
    && fs.fds[dfd].value.offset == k && fs.fds[dfd].value.flags == TARGET
    && fs.BytesOf(sfd) == s && fs.BytesOf(dfd) == s[..k]
    && src.first in base && base[src.first] == File(s) && t in base
    && fs.vol.Files() == if k == 0 then base else base[t := File(s[..k])]
  }

  /** Only the object `t`, a file, may differ. */
  ghost predicate OthersKept(base: map<nat, Obj>, m: map<nat, Obj>, t: nat)
  {
    m.Keys == base.Keys && t in m && m[t].File? && forall h :: h in base && h != t ==> m[h] == base[h]
  }

  lemma AppendChunk(s: seq<byte>, k: nat, e: nat, now: seq<byte>)
    requires k <= e <= |s| && WroteAt(s[..k], now, k, s[k..e])
    ensures now == s[..e]
  {
    assert s[..e] == s[..k] + s[k..e];
  }

  /** One round: read a chunk, write it; `more` says whether there was one and all of it fitted. */
  method CopyChunk(fs: Vfs, sfd: int, dfd: int, ghost src: Node, ghost t: nat, ghost s: seq<byte>, ghost k: nat, ghost base: map<nat, Obj>)
    returns (more: bool, short: bool, ghost k': nat)
    requires Copying(fs, sfd, dfd, src, t, s, k, base)
    modifies fs`fds, fs.vol
    ensures fs.Valid() && |fs.fds| == |old(fs.fds)|
    ensures forall i :: 0 <= i < |fs.fds| && i != sfd && i != dfd ==> fs.fds[i] == old(fs.fds)[i]
    ensures fs.IsOpen(sfd) && fs.IsOpen(dfd) && old(fs.vol.fs).slots.Keys == fs.vol.fs.slots.Keys
    ensures !short ==> k' <= |s| && Copying(fs, sfd, dfd, src, t, s, k', base)
    ensures Tidy(old(fs.vol.fs).slots) ==> Tidy(fs.vol.fs.slots)
    ensures short ==> NoneFree(fs.vol.g, fs.vol.disk.fat) && OthersKept(base, fs.vol.Files(), t)
    ensures fs.StockOf(dfd) == old(fs.StockOf(dfd))
    ensures short ==> |s| > fs.StockOf(dfd) * fs.vol.g.ClusterSize()
    ensures !short && k <= fs.StockOf(dfd) * fs.vol.g.ClusterSize() ==> k' <= fs.StockOf(dfd) * fs.vol.g.ClusterSize()
    ensures !more ==> !short && k' == k == |s|
    ensures more && !short ==> k < k'
  {
    hide Volume.Mounted, Abs, Tidy, NodeBytes, OpenFile, NoneFree, OthersKept, Stock;
    var chunk := fs.Read(sfd, 4096);
    short, k' := false, k;
    if chunk.None? || chunk.value == [] {
      more := false;
      return;
    }
    more := true;
    k' := k + |chunk.value|;
    short := WriteChunk(fs, sfd, dfd, chunk.value, src, t, s, k, base);
  }

  /** The writing half of a round. */
  method WriteChunk(fs: Vfs, sfd: int, dfd: int, chunk: seq<byte>, ghost src: Node, ghost t: nat, ghost s: seq<byte>, ghost k: nat, ghost base: map<nat, Obj>)
    returns (short: bool)
    requires CopyingAt(fs, sfd, dfd, src, k + |chunk|, t, s, k, base)
    requires chunk != [] && k + |chunk| <= |s| && chunk == s[k..k + |chunk|]
    modifies fs`fds, fs.vol
    ensures fs.Valid() && |fs.fds| == |old(fs.fds)|
    ensures forall i :: 0 <= i < |fs.fds| && i != dfd ==> fs.fds[i] == old(fs.fds)[i]
    ensures fs.IsOpen(sfd) && fs.IsOpen(dfd) && old(fs.vol.fs).slots.Keys == fs.vol.fs.slots.Keys
    ensures !short ==> Copying(fs, sfd, dfd, src, t, s, k + |chunk|, base)
    ensures Tidy(old(fs.vol.fs).slots) ==> Tidy(fs.vol.fs.slots)
    ensures short ==> NoneFree(fs.vol.g, fs.vol.disk.fat) && OthersKept(base, fs.vol.Files(), t)
    ensures fs.StockOf(dfd) == old(fs.StockOf(dfd))
    ensures short ==> |s| > fs.StockOf(dfd) * fs.vol.g.ClusterSize()
    ensures !short ==> k + |chunk| <= fs.StockOf(dfd) * fs.vol.g.ClusterSize()
  {
    hide Volume.Mounted, Abs, Tidy, NodeBytes, OpenFile, WroteAt, NoneFree, SameFrame, Stock, Room, Recorded32, OthersKept, Raised;
    ghost var f0, m0 := fs.vol.fs, fs.vol.Files();
    MountedSpc(fs.vol);
    FitsOffset(fs.vol.g, k);
    var n := fs.Write(dfd, chunk);
    FrameKeys(f0, fs.vol.fs, t);
    ChunkRoom(fs.StockOf(dfd), fs.vol.g.ClusterSize(), k, |chunk|, n);
    RaisedTo(old(fs.fds[dfd].value.node), k, n);
    ChunkWritten(base, m0, s, k, n, t, chunk, fs.BytesOf(dfd), fs.vol.Files());
    short := n != |chunk|;
    if !short {
      FrameOpen(fs.vol.g, f0, fs.vol.fs, t, src);
      StillReads(fs.vol, src, s);
    }
  }

  lemma MountedSpc(vol: Volume)
    requires vol.Mounted()
    ensures vol.g.spc > 0
  {
    hide Consistent, NoLeak;
  }

  lemma RaisedTo(n: Node, k: nat, done: nat)
    requires n.size == k
    ensures Raised(n, k, done).size == k + done && Raised(n, k, done).first == n.first
  {
  }

  /** The target after a chunk, or a part of it, was written behind the `k` bytes it had. */
  lemma ChunkWritten(base: map<nat, Obj>, m0: map<nat, Obj>, s: seq<byte>, k: nat, n: nat, t: nat, chunk: seq<byte>, now: seq<byte>, m1: map<nat, Obj>)
    requires k + |chunk| <= |s| < 0x1_0000_0000 && n <= |chunk| && chunk == s[k..k + |chunk|] && chunk != [] && t in base
    requires m0 == if k == 0 then base else base[t := File(s[..k])]
    requires WroteAt(s[..k], now, k, chunk[..n]) && m1 == m0[t := File(Recorded32(now))]
    ensures n == |chunk| ==> now == s[..k + n] && m1 == base[t := File(s[..k + n])]
    ensures OthersKept(base, m1, t)
  {
    assert chunk[..n] == s[k..k + n];
    AppendChunk(s, k, k + n, now);
    assert Recorded32(s[..k + n]) == s[..k + n];
  }

  lemma StillReads(vol: Volume, src: Node, s: seq<byte>)
    requires vol.Mounted() && OpenFile(vol.g, vol.fs, src) && src.size == |s|
    requires src.first in vol.Files() && vol.Files()[src.first] == File(s)
    ensures NodeBytes(vol.disk, vol.fs, src) == s
  {
    hide Consistent, Abs;
    ReadsAs(vol.g, vol.disk, vol.fs, src, s);
  }

  /** A chunk is cut short exactly when it does not fit. */
  lemma ChunkRoom(stock: nat, cs: nat, k: nat, len: nat, n: int)
    requires n == Min(len, Room(stock, cs, k)) && len > 0
    ensures n < len ==> stock * cs < k + len
    ensures n == len ==> k + len <= stock * cs
  {
  }

  lemma FrameKeys(f0: Fs, f1: Fs, h: nat)
    requires SameFrame(f0, f1, h)
    ensures f1.slots.Keys == f0.slots.Keys
  {
  }

  ghost predicate TwoFree(fds: seq<Option<OpenRec>>)
  {
    exists i, j :: 0 <= i < j < |fds| && fds[i].None? && fds[j].None?
  }

  lemma TwoIsOne(fds: seq<Option<OpenRec>>)
    ensures TwoFree(fds) ==> FreeFd(fds)
  {
  }

  lemma OneLess(fds: seq<Option<OpenRec>>, i: nat, rec: Option<OpenRec>)
    requires i < |fds| && fds[i].None? && rec.Some?
    ensures FreeFd(fds[i := rec]) <==> TwoFree(fds)
  {
    var less := fds[i := rec];
    if FreeFd(less) {
      var j :| 0 <= j < |less| && less[j].None?;
      assert fds[j].None? && fds[i].None?;
      assert if i < j then 0 <= i < j < |fds| else 0 <= j < i < |fds|;
    }
    if TwoFree(fds) {
      var a, b :| 0 <= a < b < |fds| && fds[a].None? && fds[b].None?;
      assert if a == i then less[b].None? else less[a].None?;
    }
  }

  /** Both files can be opened. */
  ghost predicate CanCopy(fds: seq<Option<OpenRec>>, g: Geometry, fat: seq<nat>, f: Fs,
                          srcDir: nat, srcName: Name, dstDir: nat, dstName: Name)
  {
    TwoFree(fds) && CanOpen(g, fat, f, srcDir, srcName, false) && CanOpen(g, fat, f, dstDir, dstName, true)
  }

  /**
   * What is left when not both files could be opened: nothing changed, except that with one free
   * descriptor a target that was not there has been created and stays behind, empty.
   */
  ghost predicate Unopened(fds: seq<Option<OpenRec>>, g: Geometry, fat: seq<nat>, f: Fs, srcDir: nat, srcName: Name,
                           dstDir: nat, dstName: Name, m: map<nat, Obj>, m': map<nat, Obj>, t: nat)
  {
    m' == if FreeFd(fds) && CanOpen(g, fat, f, srcDir, srcName, false) && CanOpen(g, fat, f, dstDir, dstName, true)
             && dstDir in f.slots && dstName !in DirMap(f.slots[dstDir])
          then WithNew(m, dstDir, DirMap(f.slots[dstDir]), dstName, t, false) else m
  }

  /** The folder `dir` leads to `t` by that name. */
  ghost predicate TargetIn(m: map<nat, Obj>, dir: nat, name: Name, t: nat)
  {
    dir in m && m[dir].Folder? && name in m[dir].entries && m[dir].entries[name] == t && dir != t
  }

  lemma TargetEntry(fs: Vfs, dir: nat, name: Name, fd: int)
    requires fs.Valid() && fs.Opened(dir, name, TARGET, fd)
    ensures TargetIn(fs.vol.Files(), dir, name, fs.fds[fd].value.node.first)
  {
    hide Volume.Valid, Consistent, NoLeak, Abs, DirMap, NodeBytes, OpenFile;
    FolderIsDir(fs.vol.g, fs.vol.disk, fs.vol.fs, dir);
  }

  lemma CopyingBase(fs: Vfs, sfd: int, dfd: int, src: Node, t: nat, s: seq<byte>, base: map<nat, Obj>)
    requires Copying(fs, sfd, dfd, src, t, s, 0, base)
    ensures fs.vol.Files() == base
  {
  }

  lemma SlotsKept(f0: Fs, f1: Fs)
    requires NodesKept(f0, f1)
    ensures f0.slots.Keys <= f1.slots.Keys
  {
  }

  lemma FitsOffset(g: Geometry, k: nat)
    requires g.spc > 0 && k < 0x1_0000_0000
    ensures k < 0x1_0000_0000 * g.ClusterSize()
  {
  }

  /** The file system once both files are open: the target is there. */
  ghost function WithTarget(m: map<nat, Obj>, f: Fs, dir: nat, name: Name, t: nat): map<nat, Obj>
    requires dir in f.slots
  {
    if name in DirMap(f.slots[dir]) then m else WithNew(m, dir, DirMap(f.slots[dir]), name, t, false)
  }

  /** Both descriptors are open and nothing has been copied. */
  lemma StartCopy(fs: Vfs, sfd: int, dfd: int, g: Geometry, f0: Fs, m0: map<nat, Obj>, src: Node, s: seq<byte>,
                  dir: nat, name: Name, t: nat)
    requires fs.Valid() && sfd != dfd && fs.IsOpen(sfd) && fs.fds[sfd].value == OpenRec(src, 0, SOURCE)
    requires fs.vol.g == g && NodesKept(f0, fs.vol.fs) && OpenFile(g, f0, src) && src.size == |s| < 0x1_0000_0000
    requires fs.Opened(dir, name, TARGET, dfd) && fs.fds[dfd].value.node.first == t && src.first != t
    requires dir in f0.slots && src.first in m0 && m0[src.first] == File(s) && (t in f0.owner ==> t in m0)
    requires name !in DirMap(f0.slots[dir]) ==> fs.vol.Files() == WithNew(m0, dir, DirMap(f0.slots[dir]), name, t, false)
    requires name in DirMap(f0.slots[dir]) ==> fs.vol.Files() == m0
    requires src.first != dir
    ensures Copying(fs, sfd, dfd, src, t, s, 0, WithTarget(m0, f0, dir, name, t))
  {
    hide Volume.Valid, Consistent, Abs, NoLeak, NodeBytes, NodeOk, DirMap, NodesKept;
    KeptOpen(g, f0, fs.vol.fs, src);
    ReadsAs(g, fs.vol.disk, fs.vol.fs, src, s);
    EmptyNode(fs.vol.disk, fs.vol.fs, fs.fds[dfd].value.node);
  }

  lemma EmptyNode(disk: Disk, f: Fs, n: Node)
    requires n.size == 0
    ensures NodeBytes(disk, f, n) == []
  {
  }

  /**
   * `copy_file` on names in directories.  When it returns 0, the target is there and, unless the
   * source is empty, holds exactly the source's bytes; every other object is as before.  With an
   * empty source the target keeps what it held, because truncation never reaches the disk.
   */
  method CopyFile(fs: Vfs, srcDir: nat, srcName: Name, dstDir: nat, dstName: Name) returns (rc: int, ghost t: nat)
    requires fs.Valid() && srcDir in fs.vol.fs.slots && dstDir in fs.vol.fs.slots
    requires IsCString(srcName) && IsCString(dstName) && Canonical(dstName)
    requires srcName != [] ==> srcName[0] != DELETED
    requires HeadOf(fs.vol.fs, srcDir, srcName).Some? ==>
               HeadOf(fs.vol.fs, srcDir, srcName) != HeadOf(fs.vol.fs, dstDir, dstName)
    modifies fs`fds, fs.vol
    ensures fs.Valid() && (rc == 0 || rc == -1)
    ensures rc == 0 ==>
              var h := HeadOf(old(fs.vol.fs), srcDir, srcName);
              && h.Some? && h.value in old(fs.vol.Files()) && old(fs.vol.Files())[h.value].File?
              && var s := old(fs.vol.Files())[h.value].bytes;
                 var base := WithTarget(old(fs.vol.Files()), old(fs.vol.fs), dstDir, dstName, t);
                 && t in base && fs.fds == old(fs.fds)
                 && fs.vol.Files() == (if s == [] then base else base[t := File(s)])
                 && (fs.vol.Files()[t] == File(s) <==> s != [] || base[t] == File([]))
    ensures !CanCopy(old(fs.fds), fs.vol.g, old(fs.vol.disk).fat, old(fs.vol.fs), srcDir, srcName, dstDir, dstName) ==>
              && rc == -1 && fs.fds == old(fs.fds)
              && Unopened(old(fs.fds), fs.vol.g, old(fs.vol.disk).fat, old(fs.vol.fs), srcDir, srcName, dstDir, dstName,
                          old(fs.vol.Files()), fs.vol.Files(), t)
    ensures CanCopy(old(fs.fds), fs.vol.g, old(fs.vol.disk).fat, old(fs.vol.fs), srcDir, srcName, dstDir, dstName) ==>
              var h := HeadOf(old(fs.vol.fs), srcDir, srcName);
              && h.Some? && h.value in old(fs.vol.Files()) && old(fs.vol.Files())[h.value].File?
              && (rc == 0 <==>
                    |old(fs.vol.Files())[h.value].bytes|
                    <= OpenStock(fs.vol.g, old(fs.vol.disk).fat, old(fs.vol.fs), dstDir, dstName) * fs.vol.g.ClusterSize())
    ensures Tidy(old(fs.vol.fs).slots) && rc == -1
            && CanCopy(old(fs.fds), fs.vol.g, old(fs.vol.disk).fat, old(fs.vol.fs), srcDir, srcName, dstDir, dstName) ==>
              GivenUp(WithTarget(old(fs.vol.Files()), old(fs.vol.fs), dstDir, dstName, t), fs.vol.Files(), dstDir, dstName, t)
  {
    hide Volume.Mounted, Abs, NodeBytes, DirMap, Canonical, OpenFile, WithNew, WithTarget, Copying, CanCopy, Tidy, NoneFree, HeadOf, Unopened, OpenStock, Vfs.StockOf;
    ghost var fds0, f0, m0 := fs.fds, fs.vol.fs, fs.vol.Files();
    ghost var src, s;
    var sfd, dfd;
    sfd, dfd, src, s, t := OpenBoth(fs, srcDir, srcName, dstDir, dstName);
    if dfd < 0 {
      return -1, t;
    }
    var short := CopyLoop(fs, sfd, dfd, src, t, s, WithTarget(m0, f0, dstDir, dstName, t));
    var _ := fs.Close(sfd);
    var _ := fs.Close(dfd);
    if short {
      GiveUp(fs, dstDir, dstName, t, WithTarget(m0, f0, dstDir, dstName, t));
      return -1, t;
    }
    assert fs.fds == fds0;
    rc := 0;
  }

  /** What is left when the copy was given up: the target is gone, every other object is as before. */
  ghost predicate GivenUp(base: map<nat, Obj>, m: map<nat, Obj>, dir: nat, name: Name, t: nat)
  {
    dir in base && base[dir].Folder? && m == Without(base, dir, base[dir].entries, name, t)
  }

  /** Removing the target after a short write. */
  method GiveUp(fs: Vfs, dir: nat, name: Name, ghost t: nat, ghost base: map<nat, Obj>)
    requires fs.Valid() && dir in fs.vol.fs.slots && OthersKept(base, fs.vol.Files(), t) && TargetIn(base, dir, name, t)
    modifies fs.vol
    ensures fs.Valid() && fs.fds == old(fs.fds)
    ensures Tidy(old(fs.vol.fs).slots) ==> GivenUp(base, fs.vol.Files(), dir, name, t)
  {
    hide Volume.Valid, Consistent, NoLeak, Abs, Tidy, DirMap, FileNamed, Without;
    ghost var m := fs.vol.Files();
    NamedKinds(fs.vol.g, fs.vol.disk, fs.vol.fs, dir, name);
    var _ := Unlink(fs.vol, dir, name);
    if Tidy(old(fs.vol.fs).slots) {
      SameWithout(base, m, dir, name, t);
    }
  }

  lemma SameWithout(base: map<nat, Obj>, m: map<nat, Obj>, dir: nat, name: Name, t: nat)
    requires OthersKept(base, m, t) && dir != t && dir in base && base[dir].Folder?
    ensures Without(m, dir, base[dir].entries, name, t) == Without(base, dir, base[dir].entries, name, t)
  {
  }

  /** The opening half: both descriptors, or neither. */
  method OpenBoth(fs: Vfs, srcDir: nat, srcName: Name, dstDir: nat, dstName: Name)
    returns (sfd: int, dfd: int, ghost src: Node, ghost s: seq<byte>, ghost t: nat)
    requires fs.Valid() && srcDir in fs.vol.fs.slots && dstDir in fs.vol.fs.slots
    requires IsCString(srcName) && IsCString(dstName) && Canonical(dstName)
    requires srcName != [] ==> srcName[0] != DELETED
    requires HeadOf(fs.vol.fs, srcDir, srcName).Some? ==>
               HeadOf(fs.vol.fs, srcDir, srcName) != HeadOf(fs.vol.fs, dstDir, dstName)
    modifies fs`fds, fs.vol
    ensures fs.Valid() && old(fs.vol.fs).slots.Keys <= fs.vol.fs.slots.Keys
    ensures dfd < 0 ==>
              && fs.fds == old(fs.fds)
              && Unopened(old(fs.fds), fs.vol.g, old(fs.vol.disk).fat, old(fs.vol.fs), srcDir, srcName, dstDir, dstName,
                          old(fs.vol.Files()), fs.vol.Files(), t)
    ensures dfd >= 0 <==> CanCopy(old(fs.fds), fs.vol.g, old(fs.vol.disk).fat, old(fs.vol.fs), srcDir, srcName, dstDir, dstName)
    ensures Tidy(old(fs.vol.fs).slots) ==> Tidy(fs.vol.fs.slots)
    ensures dfd >= 0 ==>
              fs.StockOf(dfd) == OpenStock(fs.vol.g, old(fs.vol.disk).fat, old(fs.vol.fs), dstDir, dstName)
    ensures dfd >= 0 ==> TargetIn(WithTarget(old(fs.vol.Files()), old(fs.vol.fs), dstDir, dstName, t), dstDir, dstName, t)
    ensures dfd >= 0 ==>
              && HeadOf(old(fs.vol.fs), srcDir, srcName) == Some(src.first)
              && src.first in old(fs.vol.Files()) && old(fs.vol.Files())[src.first] == File(s)
              && Copying(fs, sfd, dfd, src, t, s, 0, WithTarget(old(fs.vol.Files()), old(fs.vol.fs), dstDir, dstName, t))
    ensures dfd >= 0 ==>
              && 0 <= sfd < |fs.fds| && 0 <= dfd < |fs.fds| == |old(fs.fds)|
              && old(fs.fds)[sfd].None? && old(fs.fds)[dfd].None?
              && fs.fds == old(fs.fds)[sfd := fs.fds[sfd]][dfd := fs.fds[dfd]]
  {
    hide Volume.Mounted, Abs, Tidy, NodeBytes, NodeOk, DirMap, NodesKept, Canonical, OpenFile, WithNew, WithTarget, Copying, CanOpen, TargetIn, TwoFree, FreeFd, OpenStock, Vfs.StockOf;
    hide IsCString, Consistent, FreeCount;
    t, s, src, dfd := 0, [], Node([], false, 0, 0, 0, 0), -1;
    ghost var f0, m0 := fs.vol.fs, fs.vol.Files();
    CanonicalMark(dstName);
    KeptSame(f0);
    TwoIsOne(fs.fds);
    sfd, t := fs.Open(srcDir, srcName, SOURCE);
    if sfd < 0 {
      return;
    }
    OneLess(old(fs.fds), sfd, fs.fds[sfd]);
    src := fs.fds[sfd].value.node;
    s := m0[src.first].bytes;
    dfd, t := fs.Open(dstDir, dstName, TARGET);
    SlotsKept(f0, fs.vol.fs);
    if dfd < 0 {
      var _ := fs.Close(sfd);
      return;
    }
    t := fs.fds[dfd].value.node.first;
    OpenApart(fs.vol.g, fs.vol.fs, f0, src, dstDir, t);
    StartCopy(fs, sfd, dfd, fs.vol.g, f0, m0, src, s, dstDir, dstName, t);
    TargetEntry(fs, dstDir, dstName, dfd);
    CopyingBase(fs, sfd, dfd, src, t, s, WithTarget(m0, f0, dstDir, dstName, t));
  }

  /** The loop: it ends, either because a write came up short or with all of the source copied. */
  method CopyLoop(fs: Vfs, sfd: int, dfd: int, ghost src: Node, ghost t: nat, ghost s: seq<byte>, ghost base: map<nat, Obj>)
    returns (short: bool)
    requires Copying(fs, sfd, dfd, src, t, s, 0, base)
    modifies fs`fds, fs.vol
    ensures fs.Valid() && |fs.fds| == |old(fs.fds)| && fs.IsOpen(sfd) && fs.IsOpen(dfd)
    ensures forall i :: 0 <= i < |fs.fds| && i != sfd && i != dfd ==> fs.fds[i] == old(fs.fds)[i]
    ensures old(fs.vol.fs).slots.Keys == fs.vol.fs.slots.Keys
    ensures Tidy(old(fs.vol.fs).slots) ==> Tidy(fs.vol.fs.slots)
    ensures short ==> NoneFree(fs.vol.g, fs.vol.disk.fat) && OthersKept(base, fs.vol.Files(), t)
    ensures short <==> |s| > old(fs.StockOf(dfd)) * fs.vol.g.ClusterSize()
    ensures !short ==> t in base && fs.vol.Files() == if s == [] then base else base[t := File(s)]
  {
    hide Volume.Mounted, Abs, NodeBytes, OpenFile, Tidy, NoneFree, OthersKept, Vfs.StockOf;
    ghost var k := 0;
    var more := true;
    while more
      invariant Copying(fs, sfd, dfd, src, t, s, k, base) && |fs.fds| == |old(fs.fds)|
      invariant forall i :: 0 <= i < |fs.fds| && i != sfd && i != dfd ==> fs.fds[i] == old(fs.fds)[i]
      invariant old(fs.vol.fs).slots.Keys == fs.vol.fs.slots.Keys
      invariant Tidy(old(fs.vol.fs).slots) ==> Tidy(fs.vol.fs.slots)
      invariant fs.StockOf(dfd) == old(fs.StockOf(dfd)) && k <= fs.StockOf(dfd) * fs.vol.g.ClusterSize()
      invariant !more ==> k == |s|
      decreases |s| - k, more
    {
      more, short, k := CopyChunk(fs, sfd, dfd, src, t, s, k, base);
      if short {
        return;
      }
    }
    assert s[..k] == s;
    short := false;
  }

  lemma CanonicalMark(n: Name)
    requires Canonical(n)
    ensures n != [] ==> n[0] != DELETED
  {
  }

  /** A source file is neither the target nor a directory. */
  lemma OpenApart(g: Geometry, f: Fs, f0: Fs, n: Node, dir: nat, t: nat)
    requires OpenFile(g, f0, n) && dir in f0.slots && NodesKept(f0, f)
    ensures n.first != dir && n.first in f0.owner && dir in f.slots && f0.slots.Keys <= f.slots.Keys
  {
  }
}
