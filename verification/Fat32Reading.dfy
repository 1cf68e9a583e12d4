/** What a disk says by itself: facts that hold of every structure it can be read as. */
module Fat32Reading {
  import opened Bytes
  import opened Fat32Layout
  import opened Fat32Chain
  import opened Fat32Dir
  import opened Fat32State
  import opened Fat32Moves
  import opened Fat32Abs
  import opened Fat32Scan
  import opened Fat32Tree

  /** The table leaves no choice: a head has at most one chain. */
  lemma OneReading(g: Geometry, fat: seq<nat>, h: nat, a: seq<nat>, b: seq<nat>)
    requires IsChain(g, fat, h, a) && IsChain(g, fat, h, b) && g.Limit() <= EOC_MIN
    ensures a == b
  {
    var n := if |a| < |b| then |a| else |b|;
    SamePrefix(g, fat, h, a, b, n);
    assert a[n - 1] == a[..n][n - 1] == b[..n][n - 1] == b[n - 1];
    LastLink(g, fat, h, a, n - 1);
    LastLink(g, fat, h, b, n - 1);
    assert a[..n] == a && b[..n] == b;
  }

  /** Exactly the last cluster of a chain has an end mark. */
  lemma LastLink(g: Geometry, fat: seq<nat>, h: nat, ch: seq<nat>, i: nat)
    requires IsChain(g, fat, h, ch) && i < |ch| && g.Limit() <= EOC_MIN
    ensures fat[ch[i]] >= EOC_MIN <==> i == |ch| - 1
  {
    if i < |ch| - 1 {
      assert fat[ch[i]] == ch[i + 1] && InRange(g, ch[i + 1]);
    }
  }

  lemma {:induction false} SamePrefix(g: Geometry, fat: seq<nat>, h: nat, a: seq<nat>, b: seq<nat>, n: nat)
    requires IsChain(g, fat, h, a) && IsChain(g, fat, h, b) && n <= |a| && n <= |b|
    ensures a[..n] == b[..n]
  {
    if n > 0 {
      SamePrefix(g, fat, h, a, b, n - 1);
      if n > 1 {
        assert a[n - 2] == a[..n - 1][n - 2] && b[n - 2] == b[..n - 1][n - 2];
      }
      assert a[..n] == a[..n - 1] + [a[n - 1]] && b[..n] == b[..n - 1] + [b[n - 1]];
    }
  }

  /** A live slot of a folder names a chain that backs its size, in every reading that has the folder. */
  lemma SlotTells(g: Geometry, disk: Disk, f: Fs, d: nat, ch: seq<nat>, p: nat)
    requires Consistent(g, disk, f) && d in f.slots && g.Limit() <= EOC_MIN
    requires IsChain(g, disk.fat, d, ch) && p < |DirSlots(disk, ch)|
    requires var s := DirSlots(disk, ch)[p]; IsSlot(s) && IsLive(s)
    ensures var s := DirSlots(disk, ch)[p];
            var h := SlotFirst(s);
            && h in f.chains && IsChain(g, disk.fat, h, f.chains[h])
            && (Attr(s) != ATTR_DIRECTORY ==> SlotSize(s) <= |f.chains[h]| * g.ClusterSize())
  {
    hide Consistent, DirSlots, IsChain, SlotFirst, SlotSize, Attr, IsLive, Entries, TailOk, Readable;
    DirFacts(g, disk, f, d);
    OneReading(g, disk.fat, d, ch, f.chains[d]);
    EntryAt(f, d, p);
    var h := SlotFirst(f.slots[d][p]);
    OwnedChain(g, disk, f, h);
    if h !in f.slots {
      SizeFits(g, disk, f, h);
    }
  }

  lemma OwnedChain(g: Geometry, disk: Disk, f: Fs, h: nat)
    requires Consistent(g, disk, f) && h in f.owner
    ensures h in f.chains && IsChain(g, disk.fat, h, f.chains[h])
  {
    hide Entries, Owners, Tails, Sizes, SlotBytes, Spots, IsChain;
  }

  /** No structure that has the folder reads the disk as consistent. */
  ghost predicate Unreadable(g: Geometry, disk: Disk, folder: nat)
  {
    forall f: Fs :: folder in f.slots ==> !Consistent(g, disk, f)
  }

  /** The root is a folder in every reading, so then there is none at all. */
  lemma UnreadableRoot(g: Geometry, disk: Disk)
    requires Unreadable(g, disk, g.root)
    ensures forall f: Fs :: !Consistent(g, disk, f)
  {
    hide ChainLinks, Spots, Entries, Owners, Tails, SlotBytes, Sizes;
  }

  /** A slot that records more than the chain of its file backs. */
  lemma TooLong(g: Geometry, disk: Disk, d: nat, ch: seq<nat>, p: nat, chain: seq<nat>)
    requires g.Limit() <= EOC_MIN && IsChain(g, disk.fat, d, ch) && p < |DirSlots(disk, ch)|
    requires var s := DirSlots(disk, ch)[p];
             && IsSlot(s) && IsLive(s) && Attr(s) != ATTR_DIRECTORY
             && IsChain(g, disk.fat, SlotFirst(s), chain) && SlotSize(s) > |chain| * g.ClusterSize()
    ensures Unreadable(g, disk, d)
  {
    hide Consistent, DirSlots, IsChain, SlotFirst, SlotSize, Attr, IsLive;
    forall f: Fs | d in f.slots
      ensures !Consistent(g, disk, f)
    {
      if Consistent(g, disk, f) {
        SlotTells(g, disk, f, d, ch, p);
        OneReading(g, disk.fat, SlotFirst(DirSlots(disk, ch)[p]), chain, f.chains[SlotFirst(DirSlots(disk, ch)[p])]);
        assert false;
      }
    }
  }

  /** A slot that names a free cluster. */
  lemma NamesFree(g: Geometry, disk: Disk, d: nat, ch: seq<nat>, p: nat)
    requires g.Limit() <= EOC_MIN && IsChain(g, disk.fat, d, ch) && p < |DirSlots(disk, ch)|
    requires var s := DirSlots(disk, ch)[p];
             IsSlot(s) && IsLive(s) && SlotFirst(s) < |disk.fat| && disk.fat[SlotFirst(s)] == FREE
    ensures Unreadable(g, disk, d)
  {
    hide Consistent, DirSlots, IsChain, SlotFirst, SlotSize, Attr, IsLive;
    forall f: Fs | d in f.slots
      ensures !Consistent(g, disk, f)
    {
      if Consistent(g, disk, f) {
        SlotTells(g, disk, f, d, ch, p);
        HeadUsed(g, disk.fat, SlotFirst(DirSlots(disk, ch)[p]), f.chains[SlotFirst(DirSlots(disk, ch)[p])]);
        assert false;
      }
    }
  }

  lemma HeadUsed(g: Geometry, fat: seq<nat>, h: nat, ch: seq<nat>)
    requires IsChain(g, fat, h, ch)
    ensures h < |fat| && fat[h] != FREE
  {
    assert |ch| > 1 ==> fat[ch[0]] == ch[1] && InRange(g, ch[1]);
  }

  // ---------------------------------------------------------------- a directory that grows

  /** Read as `f`, the disk is consistent and holds this file system; clusters may be leaked. */
  ghost predicate ReadsBy(g: Geometry, disk: Disk, f: Fs, m: map<nat, Obj>)
  {
    Consistent(g, disk, f) && Abs(g, disk, f) == m
  }

  ghost predicate Reads(g: Geometry, disk: Disk, m: map<nat, Obj>)
  {
    exists f: Fs :: ReadsBy(g, disk, f, m)
  }

  ghost predicate ReadsAs(g: Geometry, s: Sectors, m: map<nat, Obj>)
  {
    Fits(g, s) && Reads(g, View(g, s), m)
  }

  /** A folder of the file system is one in every reading. */
  lemma SameFolders(g: Geometry, disk: Disk, f: Fs, disk': Disk, f': Fs, d: nat)
    requires Consistent(g, disk, f) && ReadsBy(g, disk', f', Abs(g, disk, f))
    ensures d in f.slots ==> d in f'.slots
    ensures d in f'.owner ==> d in f.owner
  {
    hide Consistent, DirMap, Content, Abs, Owners, DiskShape;
    HeadFacts(g, disk, f);
    HeadFacts(g, disk', f');
    if d in f.slots {
      AbsAt(g, disk, f, d);
      AbsAt(g, disk', f', d);
    }
    assert d in f'.owner ==> d in Abs(g, disk', f');
  }

  /** The disk once the unnamed cluster `n` hangs behind folder `dir`. */
  ghost function Hung(disk: Disk, f: Fs, dir: nat, n: nat): Disk
    requires dir in f.chains && |f.chains[dir]| > 0 && Last(f, dir) < |disk.fat|
  {
    disk.(fat := disk.fat[Last(f, dir) := n])
  }

  ghost predicate CanHang(g: Geometry, disk: Disk, f: Fs, dir: nat, n: nat)
  {
    && Consistent(g, disk, f) && g.Limit() <= EOC_MIN && dir in f.slots && dir in f.chains
    && n in f.pending && n in f.chains && f.chains[n] == [n] && dir != n && n < |disk.clus|
    && |f.chains[dir]| > 0 && Last(f, dir) < |disk.fat|
  }

  ghost function HungChain(f: Fs, dir: nat, n: nat, d: nat): seq<nat>
    requires d in f.chains
  {
    if d == dir then f.chains[d] + [n] else f.chains[d]
  }

  lemma HungLinks(g: Geometry, disk: Disk, f: Fs, dir: nat, n: nat, d: nat)
    requires CanHang(g, disk, f, dir, n) && d in f.slots
    ensures d in f.chains && IsChain(g, Hung(disk, f, dir, n).fat, d, HungChain(f, dir, n, d))
  {
    hide Entries, Owners, Sizes, SlotBytes, Tails, IsChain;
    LongerLinks(g, disk.fat, f.chains, f.spot, dir, n);
    assert HungChain(f, dir, n, d) == Longer(f.chains, dir, n)[d];
  }

  /** The slot lists of the folders, in every reading that has them. */
  lemma HungSlots(g: Geometry, disk: Disk, f: Fs, dir: nat, n: nat, f': Fs, d: nat)
    requires CanHang(g, disk, f, dir, n) && Consistent(g, Hung(disk, f, dir, n), f') && d in f.slots && d in f'.slots
    ensures f'.slots[d] == if d == dir then f.slots[d] + ClusterSlots(disk.clus[n]) else f.slots[d]
    ensures TailOk(f'.slots[d]) && Entries(f'.slots, f'.owner)
  {
    hide Consistent, Entries, DirSlots, ClusterSlots, TailOk, Readable, IsChain, DiskShape;
    var disk' := Hung(disk, f, dir, n);
    HungLinks(g, disk, f, dir, n, d);
    DirFacts(g, disk, f, d);
    DirFacts(g, disk', f', d);
    OneReading(g, disk'.fat, d, HungChain(f, dir, n, d), f'.chains[d]);
    FatFrame(disk, disk'.fat, HungChain(f, dir, n, d));
    ChainAppend(disk, f.chains[dir], n);
  }

  /** No slot of the cluster behind the folder is live if the file system is to stay as it was. */
  lemma StaleDead(g: Geometry, disk: Disk, f: Fs, dir: nat, n: nat, f': Fs, i: nat)
    requires CanHang(g, disk, f, dir, n) && ReadsBy(g, Hung(disk, f, dir, n), f', Abs(g, disk, f))
    requires i < |ClusterSlots(disk.clus[n])|
    ensures IsSlot(ClusterSlots(disk.clus[n])[i]) && !IsLive(ClusterSlots(disk.clus[n])[i])
  {
    hide Consistent, Abs, Entries, SlotFirst, ClusterSlots, TailOk, Attr;
    var disk', more := Hung(disk, f, dir, n), ClusterSlots(disk.clus[n]);
    SameFolders(g, disk, f, disk', f', dir);
    HungSlots(g, disk, f, dir, n, f', dir);
    var q := |f.slots[dir]| + i;
    EntryAt(f', dir, q);
    assert f'.slots[dir][q] == more[i];
    if IsLive(more[i]) {
      StaleOwner(g, disk, f, dir, n, f', SlotFirst(more[i]));
    }
  }

  /** What was named before is named by the same slot. */
  lemma StaleOwner(g: Geometry, disk: Disk, f: Fs, dir: nat, n: nat, f': Fs, h: nat)
    requires CanHang(g, disk, f, dir, n) && ReadsBy(g, Hung(disk, f, dir, n), f', Abs(g, disk, f)) && h in f'.owner
    ensures h in f.owner && f'.owner[h] == f.owner[h] && f.owner[h].head in f.slots
    ensures f.owner[h].index < |f.slots[f.owner[h].head]|
  {
    hide Consistent, Abs, Entries, SlotFirst, ClusterSlots, TailOk, Attr, IsLive;
    var disk' := Hung(disk, f, dir, n);
    SameFolders(g, disk, f, disk', f', h);
    HeadFacts(g, disk, f);
    OwnerAt(f.slots, f.owner, h);
    var p := f.owner[h];
    SameFolders(g, disk, f, disk', f', p.head);
    HungSlots(g, disk, f, dir, n, f', p.head);
    EntryAt(f', p.head, p.index);
    assert f'.slots[p.head][p.index] == f.slots[p.head][p.index];
  }

  /**
   * With a cluster that was not blanked behind a folder, the disk reads as the file system before
   * exactly when no slot in it is live and nothing follows an end mark.
   */
  lemma StaleReads(g: Geometry, disk: Disk, f: Fs, dir: nat, n: nat)
    requires CanHang(g, disk, f, dir, n)
    ensures Reads(g, Hung(disk, f, dir, n), Abs(g, disk, f)) <==> Harmless(f.slots[dir], ClusterSlots(disk.clus[n]))
  {
    hide Consistent, Abs, ClusterSlots, TailOk, Tidy, Entries, Linked, IsLive;
    var disk', more := Hung(disk, f, dir, n), ClusterSlots(disk.clus[n]);
    if Harmless(f.slots[dir], more) {
      AbsLink(g, disk, f, dir, n);
      assert ReadsBy(g, disk', Linked(disk, f, dir, n), Abs(g, disk, f));
    }
    if Reads(g, disk', Abs(g, disk, f)) {
      var f' :| ReadsBy(g, disk', f', Abs(g, disk, f));
      SameFolders(g, disk, f, disk', f', dir);
      HungSlots(g, disk, f, dir, n, f', dir);
      forall i | 0 <= i < |more|
        ensures IsSlot(more[i]) && !IsLive(more[i])
      {
        StaleDead(g, disk, f, dir, n, f', i);
      }
    }
  }
}
