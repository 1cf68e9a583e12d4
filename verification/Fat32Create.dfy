/** Creating files and directories. */
module Fat32Create {
  import opened Bytes
  import opened Fat32Layout
  import opened Fat32Chain
  import opened Fat32Name
  import opened Fat32Dir
  import opened Fat32State
  import opened Fat32Moves
  import opened Fat32Free
  import opened Fat32Quota
  import opened Fat32Abs
  import opened Fat32Volume
  import opened Fat32Scan
  import opened Fat32Tree
  import opened Fat32Reading
  import opened Fat32Crash

  /** `fat32_is_valid_name`: non-empty, at most 255 bytes, none of \ / : * ? " < > | */
  predicate ValidName(n: Name)
  {
    && 0 < |n| <= 255
    && forall i :: 0 <= i < |n| ==> n[i] !in {0x5C, 0x2F, 0x3A, 0x2A, 0x3F, 0x22, 0x3C, 0x3E, 0x7C}
  }

  /** A name is refused exactly when it is empty, too long or has one of nine characters. */
  lemma ValidNameIs(n: Name)
    ensures ValidName(n) <==>
              && 1 <= |n| < 256
              && forall i, k :: 0 <= i < |n| && 0 <= k < 9 ==> n[i] as int != "\\/:*?\"<>|"[k] as int
  {
    if ValidName(n) {
      forall i, k | 0 <= i < |n| && 0 <= k < 9
        ensures n[i] as int != "\\/:*?\"<>|"[k] as int
      {
        assert n[i] !in {0x5C, 0x2F, 0x3A, 0x2A, 0x3F, 0x22, 0x3C, 0x3E, 0x7C};
      }
    }
    if forall i, k :: 0 <= i < |n| && 0 <= k < 9 ==> n[i] as int != "\\/:*?\"<>|"[k] as int {
      forall i | 0 <= i < |n|
        ensures n[i] !in {0x5C, 0x2F, 0x3A, 0x2A, 0x3F, 0x22, 0x3C, 0x3E, 0x7C}
      {
        NineCharacters(n, i);
      }
    }
  }

  lemma NineCharacters(n: Name, i: nat)
    requires i < |n| && forall k :: 0 <= k < 9 ==> n[i] as int != "\\/:*?\"<>|"[k] as int
    ensures n[i] !in {0x5C, 0x2F, 0x3A, 0x2A, 0x3F, 0x22, 0x3C, 0x3E, 0x7C}
  {
    var s := "\\/:*?\"<>|";
    assert s[0] == 0x5C as char && s[1] == 0x2F as char && s[2] == 0x3A as char && s[3] == 0x2A as char;
    assert s[4] == 0x3F as char && s[5] == 0x22 as char && s[6] == 0x3C as char && s[7] == 0x3E as char && s[8] == 0x7C as char;
  }

  /**
   * The slot that names `c` is in `dir`, and these are its bytes: the name in capitals in the two parts
   * of the field, 0x10 for a directory and 0 for a file, the cluster in two halves, and size 0.
   */
  ghost predicate SlotWritten(f: Fs, dir: nat, name: Name, isDir: bool, c: nat)
  {
    && c in f.owner && f.owner[c].head == dir && OwnerOk(f.slots, c, f.owner[c])
    && var s := f.slots[dir][f.owner[c].index];
       && FieldOf(s, name) && s[11] == (if isDir then 0x10 else 0)
       && s[26] as int + 0x100 * s[27] as int + 0x1_0000 * s[20] as int + 0x100_0000 * s[21] as int == c
       && s[28] == s[29] == s[30] == s[31] == 0
  }

  ghost predicate FieldOf(s: Slot, name: Name)
    requires IsSlot(s)
  {
    var d := LastDot(name);
    var base := if d < 0 then |name| else d;
    && (forall i :: 0 <= i < 8 ==> if i < base then Capital(name[i], s[i]) else s[i] == 0x20)
    && forall i :: 8 <= i < 11 ==>
         if d >= 0 && d + 1 + (i - 8) < |name| then Capital(name[d + 1 + (i - 8)], s[i]) else s[i] == 0x20
  }

  lemma EntryBytes(name: Name, isDir: bool, c: nat)
    requires c < 0x1_0000_0000
    ensures var s := EntrySlot(name, isDir, c);
            && FieldOf(s, name) && s[11] == (if isDir then 0x10 else 0)
            && s[26] as int + 0x100 * s[27] as int + 0x1_0000 * s[20] as int + 0x100_0000 * s[21] as int == c
            && s[28] == s[29] == s[30] == s[31] == 0
  {
    hide To83, LastDot, NewSlot, From83;
    var s := EntrySlot(name, isDir, c);
    NewSlotBytes(To83(name), isDir, c);
    SlotFields(s);
    assert s[28..32][0] == 0 && s[28..32][1] == 0 && s[28..32][2] == 0 && s[28..32][3] == 0;
    forall i | 0 <= i < 11
      ensures s[i] == To83(name)[i]
    {
      FieldBytes(name, i);
    }
    forall i | 0 <= i < 8 { FieldBytes(name, i); }
    forall i | 8 <= i < 11 { FieldBytes(name, i); }
  }

  lemma AttachedWritten(f: Fs, dir: nat, p: nat, c: nat, blank: seq<Slot>, name: Name, isDir: bool)
    requires dir in f.slots && p < |f.slots[dir]| && c < 0x1_0000_0000 && c != dir
    requires IsLive(EntrySlot(name, isDir, c))
    ensures SlotWritten(Attached(f, dir, p, EntrySlot(name, isDir, c), c, blank), dir, name, isDir, c)
  {
    hide To83, LastDot, NewSlot, From83, FieldOf, IsLive, SlotFirst, SlotSize;
    EntryBytes(name, isDir, c);
  }

  /** Inside a creation: everything is consistent and `c` is one blank cluster nobody names yet. */
  ghost predicate Making(v: Volume, c: nat)
    reads v
  {
    && v.Valid() && Consistent(v.g, v.disk, v.fs) && NoLeak(v.g, v.disk.fat, v.fs)
    && v.fs.pending == {c} && c in v.fs.chains && v.fs.chains[c] == [c]
    && InRange(v.g, c) && v.disk.clus[c] == Zeros(v.g.ClusterSize())
  }

  // ---------------------------------------------------------------- stopping in the middle

  /** The cluster just linked behind the folder: stale or half blanked, it must be harmless. */
  ghost predicate GrowsBy(g: Geometry, s: Sectors, m: map<nat, Obj>, dir: nat, ch: seq<nat>, slots: seq<Slot>, n: nat)
    requires Fits(g, s)
  {
    && n < |View(g, s).clus| && IsChain(g, View(g, s).fat, dir, ch + [n])
    && (ReadsAs(g, s, m) <==> Harmless(slots, ClusterSlots(View(g, s).clus[n])))
  }

  ghost predicate Growing(g: Geometry, s: Sectors, m: map<nat, Obj>, dir: nat, ch: seq<nat>, slots: seq<Slot>)
  {
    Fits(g, s) && exists n: nat :: GrowsBy(g, s, m, dir, ch, slots, n)
  }

  /**
   * A disk on which a creation may stop: it reads as the file system before or after, or the folder
   * was full and is being lengthened.
   */
  ghost predicate CreateStop(g: Geometry, s: Sectors, m: map<nat, Obj>, m': map<nat, Obj>, dir: nat, ch: seq<nat>, slots: seq<Slot>)
  {
    ReadsAs(g, s, m) || ReadsAs(g, s, m') || (AllLive(slots, |slots|) && Growing(g, s, m, dir, ch, slots))
  }

  ghost predicate CreateStops(g: Geometry, trace: seq<Sectors>, from: nat, m: map<nat, Obj>, m': map<nat, Obj>,
                              dir: nat, ch: seq<nat>, slots: seq<Slot>)
  {
    from <= |trace| && forall k :: from <= k < |trace| ==> CreateStop(g, trace[k], m, m', dir, ch, slots)
  }

  ghost predicate AllRead(g: Geometry, trace: seq<Sectors>, from: nat, m: map<nat, Obj>)
  {
    from <= |trace| && forall k :: from <= k < |trace| ==> ReadsAs(g, trace[k], m)
  }

  lemma ReadsShown(g: Geometry, trace: seq<Sectors>, from: nat, d: Disk, f: Fs, m: map<nat, Obj>)
    requires ReadsBy(g, d, f, m) && from <= |trace| && forall k :: from <= k < |trace| ==> Shows(g, trace[k], d)
    ensures AllRead(g, trace, from, m)
  {
    hide ReadsBy;
    assert Reads(g, d, m);
  }

  /** A torn write to a cluster that no name leads to. */
  lemma ReadsTorn(g: Geometry, trace: seq<Sectors>, from: nat, d: Disk, f: Fs, c: nat, now: seq<byte>, m: map<nat, Obj>)
    requires DiskShape(g, d) && InRange(g, c) && |now| == g.ClusterSize() && TornSince(g, trace, from, d, c, now)
    requires ReadsBy(g, d, f, m) && (c in f.spot ==> f.spot[c].head in f.pending)
    ensures AllRead(g, trace, from, m)
  {
    hide Consistent, Abs, View, Fits, Torn, DiskShape;
    forall k | from <= k < |trace|
      ensures ReadsAs(g, trace[k], m)
    {
      var j :| 0 <= j <= g.spc && Shows(g, trace[k], TornDisk(g, d, c, now, j));
      ShapeSizes(g, d);
      AbsWrite(g, d, f, c, Torn(g, d.clus[c], now, j));
      assert ReadsBy(g, TornDisk(g, d, c, now, j), f, m);
    }
  }

  ghost predicate EitherRead(g: Geometry, trace: seq<Sectors>, from: nat, m: map<nat, Obj>, m': map<nat, Obj>)
  {
    from <= |trace| && forall k :: from <= k < |trace| ==> ReadsAs(g, trace[k], m) || ReadsAs(g, trace[k], m')
  }

  /** The write of a cluster in which one slot changes shows the disk before or the disk after. */
  lemma ReadsSlot(g: Geometry, trace: seq<Sectors>, from: nat, d: Disk, f: Fs, f': Fs, c: nat, i: nat, x: Slot,
                  m: map<nat, Obj>, m': map<nat, Obj>)
    requires DiskShape(g, d) && InRange(g, c) && i < PerCluster(g) && IsSlot(x) && 32 * i + 32 <= g.ClusterSize()
    requires ReadsBy(g, d, f, m) && ReadsBy(g, SlotDisk(d, c, i, x), f', m')
    requires TornSince(g, trace, from, d, c, Splice(d.clus[c], 32 * i, x))
    ensures EitherRead(g, trace, from, m, m')
  {
    hide ReadsBy, View, Fits, Torn;
    var now := Splice(d.clus[c], 32 * i, x);
    assert Reads(g, d, m) && Reads(g, SlotDisk(d, c, i, x), m');
    forall k | from <= k < |trace|
      ensures ReadsAs(g, trace[k], m) || ReadsAs(g, trace[k], m')
    {
      var q :| 0 <= q <= g.spc && Shows(g, trace[k], TornDisk(g, d, c, now, q));
      TornSlot(g, d.clus[c], i, x, q);
      assert d.clus[c := d.clus[c]] == d.clus;
    }
  }

  lemma StopsEither(g: Geometry, trace: seq<Sectors>, from: nat, m: map<nat, Obj>, m': map<nat, Obj>, dir: nat, ch: seq<nat>, slots: seq<Slot>)
    requires EitherRead(g, trace, from, m, m')
    ensures CreateStops(g, trace, from, m, m', dir, ch, slots)
  {
    hide ReadsAs, Growing, AllLive;
  }

  lemma AllReadMore(g: Geometry, trace: seq<Sectors>, trace': seq<Sectors>, from: nat, m: map<nat, Obj>)
    requires AllRead(g, trace, from, m) && trace <= trace' && AllRead(g, trace', |trace|, m)
    ensures AllRead(g, trace', from, m)
  {
    hide ReadsAs;
    forall k | from <= k < |trace'|
      ensures ReadsAs(g, trace'[k], m)
    {
      if k < |trace| {
        assert trace'[k] == trace[k];
      }
    }
  }

  lemma StopsRead(g: Geometry, trace: seq<Sectors>, from: nat, m: map<nat, Obj>, m': map<nat, Obj>, dir: nat, ch: seq<nat>, slots: seq<Slot>)
    ensures AllRead(g, trace, from, m) ==> CreateStops(g, trace, from, m, m', dir, ch, slots)
  {
    hide ReadsAs, Growing, AllLive;
  }

  lemma StopsMore(g: Geometry, trace: seq<Sectors>, trace': seq<Sectors>, from: nat, m: map<nat, Obj>, m': map<nat, Obj>,
                  dir: nat, ch: seq<nat>, slots: seq<Slot>)
    requires CreateStops(g, trace, from, m, m, dir, ch, slots) && trace <= trace'
    requires CreateStops(g, trace', |trace|, m, m', dir, ch, slots)
    ensures CreateStops(g, trace', from, m, m', dir, ch, slots)
  {
    hide ReadsAs, Growing, AllLive;
    forall k | from <= k < |trace'|
      ensures CreateStop(g, trace'[k], m, m', dir, ch, slots)
    {
      if k < |trace| {
        assert trace'[k] == trace[k] && CreateStop(g, trace[k], m, m, dir, ch, slots);
      }
    }
  }

  /** Allocate a cluster and blank it. */
  method NewBlank(v: Volume) returns (c: nat)
    requires v.Mounted()
    modifies v
    ensures c == 0 ==> v.Mounted() && v.disk == old(v.disk) && v.fs == old(v.fs) && NoneFree(v.g, v.disk.fat)
    ensures c != 0 ==> Making(v, c) && old(v.disk).fat[c] == FREE
    ensures c != 0 ==> c !in old(v.fs).chains && c !in old(v.fs).spot && v.fs.slots == old(v.fs).slots
    ensures c != 0 ==> v.fs == NewChain(old(v.fs), c) && v.disk.fat == old(v.disk).fat[c := EOC_MAX]
    ensures c != 0 ==> Abs(v.g, v.disk, v.fs) == old(v.Files())
    ensures old(v.trace) <= v.trace && AllRead(v.g, v.trace, |old(v.trace)|, old(v.Files()))
  {
    hide Volume.Valid, Consistent, Abs, NewChain, TornSince, AllRead, Shows, NoLeak, Zeros;
    ghost var disk0, f0, trace0, m := v.disk, v.fs, v.trace, v.Files();
    NothingYet(v.g, trace0, m);
    c := v.AllocCluster();
    if c == 0 {
      return;
    }
    AllocMove(v.g, disk0, f0, c);
    AbsAlloc(v.g, disk0, f0, c);
    v.fs := NewChain(f0, c);
    ghost var disk1, trace1 := v.disk, v.trace;
    ReadsShown(v.g, trace1, |trace0|, disk1, v.fs, m);
    NewChainAt(f0, c);
    AbsWrite(v.g, disk1, v.fs, c, Zeros(v.g.ClusterSize()));
    var _ := v.WriteCluster(c, Zeros(v.g.ClusterSize()));
    ReadsTorn(v.g, v.trace, |trace1|, disk1, v.fs, c, Zeros(v.g.ClusterSize()), m);
    AllReadMore(v.g, trace1, v.trace, |trace0|, m);
  }

  lemma NothingYet(g: Geometry, trace: seq<Sectors>, m: map<nat, Obj>)
    ensures AllRead(g, trace, |trace|, m)
  {
  }

  lemma NewChainAt(f: Fs, c: nat)
    ensures var f' := NewChain(f, c);
            c in f'.chains && f'.chains[c] == [c] && f'.pending == f.pending + {c}
            && c in f'.spot && f'.spot[c].head == c && f'.slots == f.slots && f'.owner == f.owner
            && forall k :: k in f'.chains && k != c ==> k in f.chains && f.chains[k] == f'.chains[k]
  {
  }

  /** Give up a creation: the cluster goes back, and the table is what it was. */
  method Abandon(v: Volume, c: nat, ghost f0: Fs)
    requires Making(v, c) && v.fs == NewChain(f0, c) && c !in f0.chains && c !in f0.spot && f0.pending == {}
    modifies v
    ensures v.Mounted() && v.fs == f0 && v.disk.fat == old(v.disk).fat[c := FREE]
    ensures v.Files() == old(Abs(v.g, v.disk, v.fs))
    ensures old(v.trace) <= v.trace && AllRead(v.g, v.trace, |old(v.trace)|, v.Files())
  {
    hide Volume.Valid, Consistent, Abs, AllRead, Shows;
    FreeMove(v.g, v.disk, v.fs, c);
    AbsFree(v.g, v.disk, v.fs, c);
    ChainInside(v.g, v.disk, v.fs, c);
    ReachChain(v.g, v.disk.fat, c, [c]);
    assert Freed(v.disk.fat, Clusters([c])) == v.disk.fat[c := FREE];
    assert Dropped(v.fs, c) == f0 by {
      assert (f0.chains[c := [c]]) - {c} == f0.chains;
      assert Clusters([c]) == {c};
      assert (f0.spot[c := Place(c, 0)]) - {c} == f0.spot;
      assert f0.pending + {c} - {c} == f0.pending;
    }
    ghost var trace0 := v.trace;
    v.FreeCluster(c);
    v.fs := f0;
    ReadsShown(v.g, v.trace, |trace0|, v.disk, v.fs, v.Files());
  }

  /** The structure after directory `dir` has gained the blank cluster `n`. */
  ghost function Grown(f: Fs, dir: nat, n: nat, blank: seq<byte>): (r: Fs)
    requires dir in f.chains && dir in f.slots && n != dir
  {
    f.(chains := f.chains[dir := f.chains[dir] + [n]],
       spot := f.spot[n := Place(dir, |f.chains[dir]|)],
       slots := f.slots[dir := f.slots[dir] + ClusterSlots(blank)])
  }

  ghost function GrownDisk(g: Geometry, disk: Disk, f: Fs, dir: nat, n: nat): Disk
    requires n < |disk.fat| == |disk.clus| && dir in f.chains && |f.chains[dir]| > 0 && Last(f, dir) < |disk.fat|
  {
    Disk(disk.fat[n := EOC_MAX][Last(f, dir) := n], disk.clus[n := Zeros(g.ClusterSize())])
  }

  /** Marking `n`, linking it behind the directory and blanking it, taken together. */
  lemma GrowMove(g: Geometry, disk: Disk, f: Fs, dir: nat, n: nat)
    requires Consistent(g, disk, f) && NoLeak(g, disk.fat, f) && g.Limit() <= EOC_MIN
    requires InRange(g, n) && disk.fat[n] == FREE && dir in f.slots
    ensures |disk.fat| == |disk.clus| == g.Limit() && |Zeros(g.ClusterSize())| == g.ClusterSize()
    ensures n !in f.chains && n !in f.spot && dir in f.chains && |f.chains[dir]| > 0 && n != dir && InRange(g, Last(f, dir))
    ensures Consistent(g, GrownDisk(g, disk, f, dir, n), Grown(f, dir, n, Zeros(g.ClusterSize())))
    ensures |GrownDisk(g, disk, f, dir, n).fat| == g.Limit()
    ensures NoLeak(g, GrownDisk(g, disk, f, dir, n).fat, Grown(f, dir, n, Zeros(g.ClusterSize())))
    ensures Abs(g, GrownDisk(g, disk, f, dir, n), Grown(f, dir, n, Zeros(g.ClusterSize()))) == Abs(g, disk, f)
    ensures Tidy(f.slots) ==> Tidy(Grown(f, dir, n, Zeros(g.ClusterSize())).slots)
  {
    hide Consistent, Abs, Tidy, ClusterSlots;
    var blank := Zeros(g.ClusterSize());
    AllocMove(g, disk, f, n);
    AbsAlloc(g, disk, f, n);
    HeadFacts(g, disk, f);
    ChainInside(g, disk, f, dir);
    var disk2, f2 := disk.(fat := disk.fat[n := EOC_MAX]), NewChain(f, n);
    AbsWrite(g, disk2, f2, n, blank);
    var disk3 := disk2.(clus := disk2.clus[n := blank]);
    BlankSlots(g.ClusterSize());
    DirFacts(g, disk, f, dir);
    BlankHarmless(f.slots[dir], ClusterSlots(blank));
    AbsLink(g, disk3, f2, dir, n);
    LinkNoLeak(g, disk3, f2, dir, n);
    LinkedIsGrown(disk3, f, dir, n, blank);
  }

  lemma LinkedIsGrown(disk: Disk, f: Fs, dir: nat, n: nat, blank: seq<byte>)
    requires n !in f.chains && n !in f.pending && dir in f.chains && dir in f.slots && n != dir
    requires n < |disk.clus| && disk.clus[n] == blank
    ensures Linked(disk, NewChain(f, n), dir, n) == Grown(f, dir, n, blank)
  {
    hide ClusterSlots;
    assert f.chains[n := [n]] - {n} == f.chains;
    assert f.pending + {n} - {n} == f.pending;
  }

  /** Once the cluster hangs behind the folder, its bytes decide what the disk reads as. */
  lemma GrowingShown(g: Geometry, s: Sectors, d: Disk, f: Fs, dir: nat, n: nat, m: map<nat, Obj>)
    requires CanHang(g, d, f, dir, n) && Abs(g, d, f) == m && Shows(g, s, Hung(d, f, dir, n))
    ensures Growing(g, s, m, dir, f.chains[dir], f.slots[dir])
  {
    hide Consistent, Abs, View, Fits, Harmless, Reads, ClusterSlots, IsChain;
    StaleReads(g, d, f, dir, n);
    HungLinks(g, d, f, dir, n, dir);
    assert GrowsBy(g, s, m, dir, f.chains[dir], f.slots[dir], n);
  }

  lemma GrowingTorn(g: Geometry, trace: seq<Sectors>, from: nat, d: Disk, f: Fs, dir: nat, n: nat, now: seq<byte>, m: map<nat, Obj>)
    requires CanHang(g, d, f, dir, n) && Abs(g, d, f) == m && AllLive(f.slots[dir], |f.slots[dir]|)
    requires InRange(g, n) && |now| == g.ClusterSize() && n in f.spot && f.spot[n].head in f.pending
    requires DiskShape(g, Hung(d, f, dir, n)) && TornSince(g, trace, from, Hung(d, f, dir, n), n, now)
    ensures CreateStops(g, trace, from, m, m, dir, f.chains[dir], f.slots[dir])
  {
    hide Consistent, Abs, Shows, Torn, DiskShape, Growing, ReadsAs, AllLive, Last;
    ShapeSizes(g, Hung(d, f, dir, n));
    forall k | from <= k < |trace|
      ensures CreateStop(g, trace[k], m, m, dir, f.chains[dir], f.slots[dir])
    {
      var j :| 0 <= j <= g.spc && Shows(g, trace[k], TornDisk(g, Hung(d, f, dir, n), n, now, j));
      var x := Torn(g, d.clus[n], now, j);
      AbsWrite(g, d, f, n, x);
      GrowingShown(g, trace[k], d.(clus := d.clus[n := x]), f, dir, n, m);
    }
  }

  lemma GrowingLinked(g: Geometry, trace: seq<Sectors>, from: nat, d: Disk, f: Fs, dir: nat, n: nat, m: map<nat, Obj>)
    requires CanHang(g, d, f, dir, n) && Abs(g, d, f) == m && AllLive(f.slots[dir], |f.slots[dir]|) && from <= |trace|
    requires forall k :: from <= k < |trace| ==> Shows(g, trace[k], Hung(d, f, dir, n))
    ensures CreateStops(g, trace, from, m, m, dir, f.chains[dir], f.slots[dir])
  {
    hide Consistent, Abs, Shows, Growing, ReadsAs, AllLive, Last, Hung;
    forall k | from <= k < |trace|
      ensures CreateStop(g, trace[k], m, m, dir, f.chains[dir], f.slots[dir])
    {
      GrowingShown(g, trace[k], d, f, dir, n, m);
    }
  }

  /** The three writes that lengthen a folder: mark, link, blank. */
  lemma GrowTrace(g: Geometry, trace1: seq<Sectors>, trace2: seq<Sectors>, trace3: seq<Sectors>, trace4: seq<Sectors>,
                  d: Disk, f: Fs, dir: nat, n: nat, m: map<nat, Obj>, now: seq<byte>)
    requires CanHang(g, d, f, dir, n) && Abs(g, d, f) == m && AllLive(f.slots[dir], |f.slots[dir]|)
    requires InRange(g, n) && |now| == g.ClusterSize() && n in f.spot && f.spot[n].head in f.pending
    requires trace1 <= trace2 <= trace3 <= trace4
    requires forall k :: |trace1| <= k < |trace2| ==> Shows(g, trace2[k], d)
    requires forall k :: |trace2| <= k < |trace3| ==> Shows(g, trace3[k], Hung(d, f, dir, n))
    requires DiskShape(g, Hung(d, f, dir, n)) && TornSince(g, trace4, |trace3|, Hung(d, f, dir, n), n, now)
    ensures CreateStops(g, trace4, |trace1|, m, m, dir, f.chains[dir], f.slots[dir])
  {
    hide CanHang, Consistent, Abs, Shows, Torn, DiskShape, CreateStops, AllLive, Last, Hung, AllRead, TornSince;
    Hanging(g, d, f, dir, n);
    ReadsShown(g, trace2, |trace1|, d, f, m);
    StopsRead(g, trace2, |trace1|, m, m, dir, f.chains[dir], f.slots[dir]);
    GrowingLinked(g, trace3, |trace2|, d, f, dir, n, m);
    StopsMore(g, trace2, trace3, |trace1|, m, m, dir, f.chains[dir], f.slots[dir]);
    GrowingTorn(g, trace4, |trace3|, d, f, dir, n, now, m);
    StopsMore(g, trace3, trace4, |trace1|, m, m, dir, f.chains[dir], f.slots[dir]);
  }

  lemma Hanging(g: Geometry, d: Disk, f: Fs, dir: nat, n: nat)
    requires CanHang(g, d, f, dir, n)
    ensures Consistent(g, d, f) && dir in f.chains && dir in f.slots
  {
  }

  /** Append a blank cluster to the directory being filled. */
  method GrowDir(v: Volume, dir: nat, cluster: nat, c: nat) returns (n: nat)
    requires Making(v, c) && dir in v.fs.slots && dir in v.fs.chains && |v.fs.chains[dir]| > 0
    requires cluster == Last(v.fs, dir) && AllLive(v.fs.slots[dir], |v.fs.slots[dir]|)
    modifies v
    ensures Making(v, c) && Abs(v.g, v.disk, v.fs) == old(Abs(v.g, v.disk, v.fs))
    ensures n == 0 ==> v.disk == old(v.disk) && v.fs == old(v.fs) && NoneFree(v.g, v.disk.fat)
    ensures n != 0 ==> InRange(v.g, n) && old(v.disk).fat[n] == FREE && n != dir
    ensures n != 0 ==> v.disk.clus[n] == Zeros(v.g.ClusterSize())
    ensures n != 0 ==> v.fs == Grown(old(v.fs), dir, n, Zeros(v.g.ClusterSize()))
    ensures n != 0 ==> NodesKept(old(v.fs), v.fs)
    ensures n != 0 ==> FreeCount(v.g, v.disk.fat) + 1 == FreeCount(v.g, old(v.disk).fat)
    ensures Tidy(old(v.fs).slots) ==> Tidy(v.fs.slots)
    ensures n == 0 ==> v.trace == old(v.trace)
    ensures old(v.trace) <= v.trace
    ensures n != 0 ==>
              var m := old(Abs(v.g, v.disk, v.fs));
              CreateStops(v.g, v.trace, |old(v.trace)|, m, m, dir, old(v.fs).chains[dir], old(v.fs).slots[dir])
  {
    hide Volume.Valid, Consistent, Abs, Tidy, NoLeak, DiskShape, NodesKept, FreeCount, CreateStops, TornSince, Shows, CanHang, AllLive, NewChain, Grown, Zeros;
    ghost var disk1, f1, trace1 := v.disk, v.fs, v.trace;
    n := v.AllocCluster();
    if n == 0 {
      return;
    }
    ghost var disk2, trace2 := v.disk, v.trace;
    GrowFacts(v.g, disk1, f1, dir, n, c);
    HangFacts(v.g, disk1, f1, dir, n);
    var _ := v.SetFatEntry(cluster, n);
    ghost var trace3 := v.trace;
    var _ := v.WriteCluster(n, Zeros(v.g.ClusterSize()));
    GrowTrace(v.g, trace1, trace2, trace3, v.trace, disk2, NewChain(f1, n), dir, n, Abs(v.g, disk1, f1), Zeros(v.g.ClusterSize()));
    v.fs := Grown(f1, dir, n, Zeros(v.g.ClusterSize()));
  }

  /** All that lengthening a folder during a creation relies on. */
  lemma GrowFacts(g: Geometry, disk: Disk, f: Fs, dir: nat, n: nat, c: nat)
    requires Consistent(g, disk, f) && NoLeak(g, disk.fat, f) && g.Limit() <= EOC_MIN && DiskShape(g, disk)
    requires InRange(g, n) && disk.fat[n] == FREE && dir in f.slots
    requires f.pending == {c} && c in f.chains && f.chains[c] == [c]
    ensures |disk.fat| == |disk.clus| == g.Limit() && |Zeros(g.ClusterSize())| == g.ClusterSize()
    ensures dir in f.chains && |f.chains[dir]| > 0 && n != dir && n != c && InRange(g, Last(f, dir))
    ensures var disk' := GrownDisk(g, disk, f, dir, n);
            var f' := Grown(f, dir, n, Zeros(g.ClusterSize()));
            && Consistent(g, disk', f') && NoLeak(g, disk'.fat, f') && Abs(g, disk', f') == Abs(g, disk, f)
            && f'.pending == {c} && c in f'.chains && f'.chains[c] == [c]
            && (Tidy(f.slots) ==> Tidy(f'.slots)) && NodesKept(f, f')
            && FreeCount(g, disk'.fat) + 1 == FreeCount(g, disk.fat)
  {
    hide Consistent, Abs, Tidy, ClusterSlots, NoLeak, DiskShape, NodesKept, FreeCount, Owners, Entries;
    HeadFacts(g, disk, f);
    ChainInside(g, disk, f, c);
    ShapeSizes(g, disk);
    GrowMove(g, disk, f, dir, n);
    GrownKept(f, dir, n, Zeros(g.ClusterSize()));
    ChainInside(g, disk, f, dir);
    CountTaken(g, disk.fat, n, Last(f, dir));
    NotPending(g, disk, f, dir, c);
  }

  /** A marked cluster may be hung behind a folder. */
  lemma HangFacts(g: Geometry, disk: Disk, f: Fs, dir: nat, n: nat)
    requires Consistent(g, disk, f) && NoLeak(g, disk.fat, f) && g.Limit() <= EOC_MIN
    requires InRange(g, n) && n < |disk.fat| && disk.fat[n] == FREE && dir in f.slots && n != dir
    ensures var disk2, f2 := disk.(fat := disk.fat[n := EOC_MAX]), NewChain(f, n);
            && CanHang(g, disk2, f2, dir, n) && Abs(g, disk2, f2) == Abs(g, disk, f)
            && n in f2.spot && f2.spot[n].head in f2.pending
            && dir in f.chains && f2.chains[dir] == f.chains[dir] && f2.slots == f.slots
  {
    hide Consistent, Abs, Entries, DirSlots, TailOk, Readable;
    AllocMove(g, disk, f, n);
    AbsAlloc(g, disk, f, n);
    DirFacts(g, disk, f, dir);
    ShapeSizes(g, disk);
  }

  /** A directory that gains a blank cluster gains its slots. */
  lemma GrownQuota(g: Geometry, f: Fs, dir: nat, n: nat)
    requires dir in f.chains && dir in f.slots && n != dir
    ensures QuotaOf(Grown(f, dir, n, Zeros(g.ClusterSize()))) == Lengthened(QuotaOf(f), dir, PerCluster(g))
  {
    hide Vacancies, Zeros, ClusterSlots;
    var blank := ClusterSlots(Zeros(g.ClusterSize()));
    BlankCount(g);
    UnusedAdd(f.slots[dir], blank);
    var q, r := QuotaOf(Grown(f, dir, n, Zeros(g.ClusterSize()))), Lengthened(QuotaOf(f), dir, PerCluster(g));
    assert q.lens == r.lens;
    assert q.unused == r.unused;
  }

  lemma BlankCount(g: Geometry)
    ensures Vacancies(ClusterSlots(Zeros(g.ClusterSize()))) == |ClusterSlots(Zeros(g.ClusterSize()))| == PerCluster(g)
  {
    hide Vacancies;
    BlankSlots(g.ClusterSize());
    UnusedBlank(ClusterSlots(Zeros(g.ClusterSize())));
  }

  lemma BlankSlots(n: nat)
    ensures forall i :: 0 <= i < |ClusterSlots(Zeros(n))| ==> IsSlot(ClusterSlots(Zeros(n))[i]) && IsEnd(ClusterSlots(Zeros(n))[i])
  {
    ZeroSlots(n);
  }

  lemma NewChainKept(f: Fs, c: nat)
    requires c !in f.spot && c !in f.chains
    ensures NodesKept(f, NewChain(f, c))
  {
  }

  lemma GrownKept(f: Fs, dir: nat, n: nat, blank: seq<byte>)
    requires dir in f.chains && dir in f.slots && n != dir && n !in f.spot
    ensures NodesKept(f, Grown(f, dir, n, blank))
  {
    hide ClusterSlots;
  }

  lemma AttachedKept(f: Fs, d: nat, p: nat, x: Slot, c: nat, blank: seq<Slot>)
    requires d in f.slots && p < |f.slots[d]| && IsSlot(x) && c !in f.owner
    ensures NodesKept(f, Attached(f, d, p, x, c, blank))
  {
    hide Attr;
  }

  lemma ResizedKept(f: Fs, d: nat, p: nat, x: Slot)
    requires d in f.slots && p < |f.slots[d]|
    ensures NodesKept(f, ResizedFs(f, d, p, x))
  {
  }

  /** The slot `fat32_create` stores for a name. */
  function EntrySlot(name: Name, isDir: bool, c: nat): (x: Slot)
    requires c < 0x1_0000_0000
    ensures IsSlot(x) && x[..11] == To83(name) && SlotName(x) == From83(To83(name))
    ensures Attr(x) in {0, ATTR_DIRECTORY} && (Attr(x) == ATTR_DIRECTORY <==> isDir)
    ensures SlotFirst(x) == c && SlotSize(x) == 0
  {
    NewSlot(To83(name), isDir, c)
  }

  /** A slot reads as live unless the name starts with the deleted mark. */
  lemma EntryIsLive(name: Name, isDir: bool, c: nat)
    requires c < 0x1_0000_0000 && IsCString(name) && name != []
    ensures name[0] != DELETED ==> IsLive(EntrySlot(name, isDir, c))
    ensures name[0] == DELETED ==> IsDeleted(EntrySlot(name, isDir, c))
  {
    FirstByte(name);
    var x := EntrySlot(name, isDir, c);
    assert x[0] == x[..11][0] == To83(name)[0];
  }

  /** The folder entry and the empty object a creation adds. */
  ghost function WithNew(m: map<nat, Obj>, dir: nat, entries: map<Name, nat>, name: Name, c: nat, isDir: bool): map<nat, Obj>
  {
    m[dir := Folder(entries[name := c])][c := if isDir then Folder(map[]) else File([])]
  }

  ghost predicate RoomAt(slots: seq<Slot>, p: int)
  {
    && 0 <= p < |slots| && IsSlot(slots[p]) && !IsLive(slots[p])
    && forall k :: 0 <= k < p ==> IsSlot(slots[k]) && IsLive(slots[k])
  }

  lemma PlaceMove(g: Geometry, disk: Disk, f: Fs, dir: nat, j: nat, i: nat, x: Slot, c: nat)
    requires Consistent(g, disk, f) && NoLeak(g, disk.fat, f) && At(g, f, dir, j, i)
    requires RoomAt(f.slots[dir], j * PerCluster(g) + i)
    requires f.pending == {c} && c in f.chains && f.chains[c] == [c] && c < |disk.clus|
    requires disk.clus[c] == Zeros(g.ClusterSize())
    requires IsSlot(x) && Attr(x) in {0, ATTR_DIRECTORY} && SlotFirst(x) == c && SlotSize(x) == 0 && IsLive(x)
    ensures f.chains[dir][j] < |disk.clus| && 32 * i + 32 <= g.ClusterSize() == |disk.clus[f.chains[dir][j]]|
    ensures var disk' := SlotDisk(disk, f.chains[dir][j], i, x);
            var f' := Attached(f, dir, j * PerCluster(g) + i, x, c, ClusterSlots(disk.clus[c]));
            && Consistent(g, disk', f') && NoLeak(g, disk'.fat, f') && f'.pending == {}
            && (SlotName(x) !in DirMap(f.slots[dir]) ==>
                  && Abs(g, disk', f') == WithNew(Abs(g, disk, f), dir, DirMap(f.slots[dir]), SlotName(x), c,
                                                  Attr(x) == ATTR_DIRECTORY)
                  && (Tidy(f.slots) ==> Tidy(f'.slots)))
  {
    hide Consistent, Abs, Tidy, ClusterSlots, DirMap, SlotName, SlotFirst, SlotSize, Attr, IsLive, DiskShape;
    var p := j * PerCluster(g) + i;
    BlankSlots(g.ClusterSize());
    forall k | 0 <= k < p ensures !IsEnd(f.slots[dir][k]) { LiveNotEnd(f.slots[dir][k]); }
    AttachMove(g, disk, f, dir, j, i, x, c);
    if SlotName(x) !in DirMap(f.slots[dir]) {
      AbsAttach(g, disk, f, dir, j, i, x, c);
      if Tidy(f.slots) {
        AttachTidy(f, dir, p, x, c, ClusterSlots(disk.clus[c]));
      }
    }
  }

  /** Fill the slot and write the directory cluster back. */
  method PlaceEntry(v: Volume, dir: nat, cluster: nat, i: nat, buf: seq<byte>, name: Name, isDir: bool, c: nat,
                    ghost j: nat)
    requires Making(v, c) && At(v.g, v.fs, dir, j, i) && RoomAt(v.fs.slots[dir], j * PerCluster(v.g) + i)
    requires InRange(v.g, cluster) && cluster == v.fs.chains[dir][j] && buf == v.disk.clus[cluster]
    requires IsCString(name) && name != []
    modifies v
    ensures v.Valid() && Consistent(v.g, v.disk, v.fs) && NodesKept(old(v.fs), v.fs)
    ensures v.disk.fat == old(v.disk).fat && v.fs.chains == old(v.fs).chains
    ensures name[0] == DELETED ==> v.fs.pending == {c}
    ensures name[0] != DELETED ==> v.Mounted()
    ensures var n := From83(To83(name));
            var m := DirMap(old(v.fs).slots[dir]);
            name[0] != DELETED && n !in m ==>
              && v.Files() == WithNew(old(Abs(v.g, v.disk, v.fs)), dir, m, n, c, isDir)
              && (Tidy(old(v.fs).slots) ==> Tidy(v.fs.slots))
    ensures old(v.trace) <= v.trace && EitherRead(v.g, v.trace, |old(v.trace)|, old(Abs(v.g, v.disk, v.fs)), v.Files())
    ensures name[0] != DELETED ==> QuotaOf(v.fs) == AfterTake(QuotaOf(old(v.fs)), dir, c, isDir, PerCluster(v.g))
    ensures name[0] != DELETED ==> SlotWritten(v.fs, dir, name, isDir, c)
  {
    hide SlotWritten;
    hide EitherRead, TornSince, QuotaOf, AfterTake, Zeros;
    hide Volume.Valid, Consistent, Abs, Tidy, ClusterSlots, DirMap, SlotName, SlotFirst, SlotSize, Attr, IsLive, DiskShape, WithNew, RoomAt, Attached, NoLeak, To83, From83, Splice, NewSlot, NodesKept;
    ghost var disk1, f1, p := v.disk, v.fs, j * PerCluster(v.g) + i;
    HeadFacts(v.g, disk1, f1);
    var field := NameTo83(name);
    var x := NewSlot(field, isDir, c);
    EntryIsLive(name, isDir, c);
    if name[0] != DELETED {
      PlaceMove(v.g, disk1, f1, dir, j, i, x, c);
      PlaceQuota(v.g, disk1, f1, dir, p, x, c);
      AttachedKept(f1, dir, p, x, c, ClusterSlots(disk1.clus[c]));
      NotPending(v.g, disk1, f1, dir, c);
      AttachedWritten(f1, dir, p, c, ClusterSlots(disk1.clus[c]), name, isDir);
    } else {
      NoEndBefore(f1.slots[dir], p);
      ScarMove(v.g, disk1, f1, dir, j, i, x);
      ResizedKept(f1, dir, p, x);
    }
    var _ := v.WriteCluster(cluster, Splice(buf, 32 * i, x));
    v.fs := if name[0] != DELETED then Attached(f1, dir, p, x, c, ClusterSlots(disk1.clus[c])) else ResizedFs(f1, dir, p, x);
    AttachedChains(f1, dir, p, x, c, ClusterSlots(disk1.clus[c]));
    ReadsSlot(v.g, v.trace, |old(v.trace)|, disk1, f1, v.fs, cluster, i, x, Abs(v.g, disk1, f1), v.Files());
  }

  lemma PlaceQuota(g: Geometry, disk: Disk, f: Fs, dir: nat, p: nat, x: Slot, c: nat)
    requires Consistent(g, disk, f) && dir in f.slots && RoomAt(f.slots[dir], p) && IsSlot(x) && IsLive(x) && c in f.pending
    requires c < |disk.clus| && disk.clus[c] == Zeros(g.ClusterSize())
    ensures QuotaOf(Attached(f, dir, p, x, c, ClusterSlots(disk.clus[c]))) ==
              AfterTake(QuotaOf(f), dir, c, Attr(x) == ATTR_DIRECTORY, PerCluster(g))
  {
    hide Consistent, ClusterSlots, Attr, IsLive, Attached, QuotaOf, AfterTake, Zeros, Vacancies;
    NotPending(g, disk, f, dir, c);
    BlankSlots(g.ClusterSize());
    BlankCount(g);
    NoEndBefore(f.slots[dir], p);
    AttachedQuota(f, dir, p, x, c, ClusterSlots(disk.clus[c]));
  }

  lemma AttachedChains(f: Fs, d: nat, p: nat, x: Slot, c: nat, blank: seq<Slot>)
    requires d in f.slots && p < |f.slots[d]| && IsSlot(x)
    ensures Attached(f, d, p, x, c, blank).chains == ResizedFs(f, d, p, x).chains == f.chains
  {
  }

  lemma NoEndBefore(slots: seq<Slot>, p: nat)
    requires RoomAt(slots, p)
    ensures IsSlot(slots[p]) && !IsLive(slots[p])
    ensures forall k :: 0 <= k < p ==> IsSlot(slots[k]) && !IsEnd(slots[k])
  {
  }

  /** Too little space: no free cluster, or only one when the directory must grow as well. */
  ghost predicate Full(g: Geometry, fat: seq<nat>, slots: seq<Slot>)
  {
    || NoneFree(g, fat)
    || (AllLive(slots, |slots|) && forall x, y :: FreeAt(g, fat, x) && FreeAt(g, fat, y) ==> x == y)
  }

  lemma AllLiveWindow(slots: seq<Slot>, base: nat, part: seq<Slot>, n: nat)
    requires AllLive(slots, base) && base + |part| <= |slots| && slots[base..base + |part|] == part && n <= |part|
    requires forall k :: 0 <= k < n ==> IsSlot(part[k]) && Passes(Unused, part[k])
    ensures AllLive(slots, base + n)
  {
    forall k | base <= k < base + n ensures IsSlot(slots[k]) && IsLive(slots[k]) { assert slots[k] == part[k - base]; }
  }

  /** One round of that loop: read a cluster and look for an unused slot in it. */
  method SeekUnused(v: Volume, dir: nat, cluster: nat, ghost j: nat) returns (hit: bool, i: nat, buf: seq<byte>)
    requires v.Valid() && Consistent(v.g, v.disk, v.fs) && dir in v.fs.slots && dir in v.fs.chains
    requires j < |v.fs.chains[dir]| && cluster == v.fs.chains[dir][j]
    requires InRange(v.g, cluster) && cluster < |v.disk.clus|
    requires AllLive(v.fs.slots[dir], j * PerCluster(v.g))
    ensures hit ==> At(v.g, v.fs, dir, j, i) && RoomAt(v.fs.slots[dir], j * PerCluster(v.g) + i)
    ensures hit ==> buf == v.disk.clus[cluster] && !AllLive(v.fs.slots[dir], |v.fs.slots[dir]|)
    ensures !hit ==> AllLive(v.fs.slots[dir], j * PerCluster(v.g) + PerCluster(v.g))
    ensures !hit ==> v.disk.clus[cluster] != Zeros(v.g.ClusterSize())
  {
    hide Volume.Valid, Consistent, ClusterSlots, DirSlots, Entries, Hits, AllLive, TailOk;
    DirFacts(v.g, v.disk, v.fs, dir);
    ghost var slots, base := v.fs.slots[dir], j * PerCluster(v.g);
    i := 0;
    var r;
    r, buf := v.ReadCluster(cluster);
    ClusterWindow(v.g, v.disk, v.fs.chains[dir], j);
    var scan := ScanCluster(buf, Unused);
    NotStopped(buf, scan);
    AllLiveWindow(slots, base, ClusterSlots(buf), if scan.Next? then PerCluster(v.g) else scan.index);
    BlankHits(v.g, buf);
    hit := scan.Hit?;
    if hit {
      i := scan.index;
      RoomFound(slots, base, ClusterSlots(buf), i);
    }
  }

  /** The loop of `fat32_create`: find the first unused slot, growing the directory if there is none. */
  method EnterName(v: Volume, dir: nat, name: Name, isDir: bool, c: nat, ghost f0: Fs) returns (rc: int)
    requires Making(v, c) && dir in v.fs.slots && IsCString(name) && name != []
    requires v.fs == NewChain(f0, c) && c !in f0.chains && c !in f0.spot && f0.pending == {}
    requires From83(To83(name)) == name ==> name !in DirMap(v.fs.slots[dir])
    modifies v
    ensures rc == 0 || rc == -1
    ensures rc == -1 ==> v.Mounted() && v.fs == f0 && v.disk.fat == old(v.disk).fat[c := FREE]
    ensures rc == -1 ==> v.Files() == old(Abs(v.g, v.disk, v.fs))
    ensures rc == -1 <==> NoneFree(v.g, old(v.disk).fat) && AllLive(f0.slots[dir], |f0.slots[dir]|)
    ensures rc == 0 ==> v.Valid() && Consistent(v.g, v.disk, v.fs) && NodesKept(f0, v.fs)
    ensures rc == 0 ==> c in v.fs.chains && v.fs.chains[c] == [c]
    ensures rc == 0 ==> FreeCount(v.g, v.disk.fat) + Growth(f0.slots[dir]) == FreeCount(v.g, old(v.disk).fat)
    ensures rc == 0 ==> (name[0] != DELETED ==> v.Mounted()) && (name[0] == DELETED ==> v.fs.pending == {c})
    ensures rc == 0 && From83(To83(name)) == name && name[0] != DELETED ==>
              && v.Files() == WithNew(old(Abs(v.g, v.disk, v.fs)), dir, DirMap(f0.slots[dir]), name, c, isDir)
              && (Tidy(f0.slots) ==> Tidy(v.fs.slots))
    ensures old(v.trace) <= v.trace && dir in f0.chains
    ensures CreateStops(v.g, v.trace, |old(v.trace)|, old(Abs(v.g, v.disk, v.fs)), v.Files(), dir, f0.chains[dir], f0.slots[dir])
    ensures rc == 0 && name[0] != DELETED ==> QuotaOf(v.fs) == AfterMake(QuotaOf(f0), dir, c, isDir, PerCluster(v.g))
    ensures rc == 0 && name[0] != DELETED ==> SlotWritten(v.fs, dir, name, isDir, c)
  {
    hide SlotWritten;
    hide QuotaOf, AfterTake, Lengthened, WithBlank;
    hide CreateStops, EitherRead, AllRead, Zeros, NewChain, IsChain, DiskShape, Readable;
    hide Volume.Valid, Consistent, Abs, Tidy, ClusterSlots, DirMap, DirSlots, WithNew, Entries, Hits, From83, To83, AllLive, TailOk, Grown, NodesKept, NoLeak, RoomAt, FreeCount;
    ghost var g, disk1, f1, abs1 := v.g, v.disk, v.fs, Abs(v.g, v.disk, v.fs);
    DirFacts(g, disk1, f1, dir);
    NoneYet(f1.slots[dir]);
    NewChainKept(f0, c);
    NewChainAt(f0, c);
    BlankQuota(f0, c);
    FullQuota(f0, dir);
    ghost var q1 := QuotaOf(f1);
    NotPending(g, disk1, f1, dir, c);
    ghost var trace1, ch0, slots0 := v.trace, f0.chains[dir], f0.slots[dir];
    NothingYet(g, trace1, abs1);
    StopsRead(g, trace1, |trace1|, abs1, abs1, dir, ch0, slots0);
    ChainCursor(g, disk1.fat, dir, f1.chains[dir], 0);
    ShapeSizes(g, disk1);
    var cluster := dir;
    ghost var j := 0;
    ghost var grown := false;
    while cluster >= 2 && cluster < EOC_MIN
      invariant Making(v, c) && Abs(v.g, v.disk, v.fs) == abs1 && dir in v.fs.slots && dir in v.fs.chains
      invariant 0 <= j < |v.fs.chains[dir]| && cluster == v.fs.chains[dir][j] && InRange(g, cluster)
      invariant |v.disk.clus| == g.Limit()
      invariant AllLive(v.fs.slots[dir], j * PerCluster(g))
      invariant Tidy(f1.slots) ==> Tidy(v.fs.slots)
      invariant NodesKept(f0, v.fs)
      invariant trace1 <= v.trace && CreateStops(g, v.trace, |trace1|, abs1, abs1, dir, ch0, slots0)
      invariant DirMap(v.fs.slots[dir]) == DirMap(f1.slots[dir])
      invariant !grown ==> v.fs == f1 && v.disk == disk1
      invariant grown ==> QuotaOf(v.fs) == Lengthened(q1, dir, PerCluster(g))
      invariant grown ==> AllLive(f1.slots[dir], |f1.slots[dir]|) && FreeCount(g, v.disk.fat) + 1 == FreeCount(g, disk1.fat)
      invariant grown ==> v.disk.clus[cluster] == Zeros(g.ClusterSize()) && !NoneFree(g, disk1.fat)
      decreases !grown, |v.fs.chains[dir]| - j
    {
      DirFacts(g, v.disk, v.fs, dir);
      ShapeSizes(g, v.disk);
      ghost var ch := v.fs.chains[dir];
      var hit, i, buf := SeekUnused(v, dir, cluster, j);
      if hit {
        ghost var f2, trace2 := v.fs, v.trace;
        PlaceEntry(v, dir, cluster, i, buf, name, isDir, c, j);
        StopsEither(g, v.trace, |trace2|, abs1, v.Files(), dir, ch0, slots0);
        StopsMore(g, trace2, v.trace, |trace1|, abs1, v.Files(), dir, ch0, slots0);
        KeptTwice(f0, f2, v.fs);
        return 0;
      }
      var next := v.GetNext(cluster);
      ChainCursor(g, v.disk.fat, dir, ch, j);
      if next >= EOC_MIN {
        ghost var disk2, trace2 := v.disk, v.trace;
        LastCluster(g, disk2, dir, ch, v.fs.slots[dir], j);
        var n := GrowDir(v, dir, cluster, c);
        if n == 0 {
          Abandon(v, c, f0);
          StopsRead(g, v.trace, |trace2|, abs1, v.Files(), dir, ch0, slots0);
          StopsMore(g, trace2, v.trace, |trace1|, abs1, v.Files(), dir, ch0, slots0);
          return -1;
        }
        StopsMore(g, trace2, v.trace, |trace1|, abs1, abs1, dir, ch0, slots0);
        ShapeSizes(g, v.disk);
        GrownFacts(g, disk2, f1, dir, n, j);
        GrownQuota(g, f1, dir, n);
        KeptTwice(f0, f1, v.fs);
        grown := true;
        cluster := n;
      } else {
        cluster := next;
      }
      j := j + 1;
    }
    return -1;
  }

  lemma FullQuota(f: Fs, dir: nat)
    requires dir in f.slots
    ensures UnusedIn(QuotaOf(f), dir) == 0 <==> AllLive(f.slots[dir], |f.slots[dir]|)
  {
    hide Vacancies, AllLive;
    UnusedNone(f.slots[dir]);
  }

  /** One step along a chain. */
  lemma ChainCursor(g: Geometry, fat: seq<nat>, h: nat, ch: seq<nat>, j: nat)
    requires IsChain(g, fat, h, ch) && (j == 0 || j < |ch|) && g.Limit() <= EOC_MIN
    ensures j < |ch| && ch[0] == h && InRange(g, ch[j]) && ch[j] < |fat|
    ensures NextOf(fat, ch[j]) >= EOC_MIN <==> j == |ch| - 1
    ensures j < |ch| - 1 ==> NextOf(fat, ch[j]) == ch[j + 1] && InRange(g, ch[j + 1])
  {
    LastLink(g, fat, h, ch, j);
  }

  lemma NotPending(g: Geometry, disk: Disk, f: Fs, dir: nat, c: nat)
    requires Consistent(g, disk, f) && dir in f.slots && c in f.pending
    ensures dir != c
  {
    hide Consistent;
    HeadFacts(g, disk, f);
  }

  /** The clusters a directory needs for one more slot. */
  ghost function Growth(slots: seq<Slot>): nat { if AllLive(slots, |slots|) then 1 else 0 }

  lemma NoneIsFull(g: Geometry, fat: seq<nat>, slots: seq<Slot>)
    requires NoneFree(g, fat)
    ensures Full(g, fat, slots)
  {
  }

  /** There is too little space exactly when fewer clusters are free than the creation takes. */
  lemma FullIs(g: Geometry, fat: seq<nat>, slots: seq<Slot>)
    ensures Full(g, fat, slots) <==> FreeCount(g, fat) < 1 + Growth(slots)
  {
    hide AllLive, FreeCount;
    CountNone(g, fat);
    CountTwo(g, fat);
  }

  lemma CanonicalStart(name: Name)
    requires name != []
    ensures Canonical(name) ==> name[0] != DELETED
  {
  }

  /** After the first allocation, what is left decides whether the volume was full. */
  lemma FullAfter(g: Geometry, fat: seq<nat>, slots: seq<Slot>, c: nat)
    requires |fat| == g.Limit() && InRange(g, c) && fat[c] == FREE
    ensures Full(g, fat, slots) <==> NoneFree(g, fat[c := EOC_MAX]) && AllLive(slots, |slots|)
  {
    if Full(g, fat, slots) {
      forall x | InRange(g, x) ensures fat[c := EOC_MAX][x] != FREE { assert FreeAt(g, fat, c) && (FreeAt(g, fat, x) ==> x == c); }
    }
    if NoneFree(g, fat[c := EOC_MAX]) {
      forall x | InRange(g, x) && fat[x] == FREE ensures x == c { assert fat[c := EOC_MAX][x] != FREE; }
    }
  }

  lemma NoneYet(slots: seq<Slot>)
    ensures AllLive(slots, 0)
  {
  }

  lemma RoomFound(slots: seq<Slot>, base: nat, part: seq<Slot>, i: nat)
    requires AllLive(slots, base + i) && i < |part| && base + |part| <= |slots|
    requires slots[base..base + |part|] == part && IsSlot(part[i]) && Hits(Unused, part[i])
    ensures RoomAt(slots, base + i) && !AllLive(slots, |slots|)
  {
    assert slots[base + i] == part[i];
  }

  lemma NotStopped(buf: seq<byte>, r: ScanResult)
    requires r.Stop? ==> r.index < |ClusterSlots(buf)| && Stops(Unused, ClusterSlots(buf)[r.index])
    ensures !r.Stop?
  {
  }

  /** A blank cluster offers its first slot. */
  lemma BlankHits(g: Geometry, buf: seq<byte>)
    requires g.spc > 0
    ensures buf == Zeros(g.ClusterSize()) ==> |ClusterSlots(buf)| > 0 && Hits(Unused, ClusterSlots(buf)[0])
  {
    ZeroSlots(g.ClusterSize());
  }

  lemma LastCluster(g: Geometry, disk: Disk, dir: nat, ch: seq<nat>, slots: seq<Slot>, j: nat)
    requires DiskShape(g, disk) && IsChain(g, disk.fat, dir, ch)
    requires slots == DirSlots(disk, ch) && j == |ch| - 1
    ensures |slots| == j * PerCluster(g) + PerCluster(g)
  {
    hide DirSlots;
    PartsLen(g, disk, ch);
    Distribute(j, 1, PerCluster(g));
  }

  lemma GrownFacts(g: Geometry, disk: Disk, f: Fs, dir: nat, n: nat, j: nat)
    requires DiskShape(g, disk) && dir in f.chains && dir in f.slots && n != dir
    requires IsChain(g, disk.fat, dir, f.chains[dir])
    requires f.slots[dir] == DirSlots(disk, f.chains[dir]) && j == |f.chains[dir]| - 1
    requires AllLive(f.slots[dir], j * PerCluster(g) + PerCluster(g))
    ensures var f' := Grown(f, dir, n, Zeros(g.ClusterSize()));
            && dir in f'.slots && dir in f'.chains && f'.chains[dir] == f.chains[dir] + [n]
            && AllLive(f'.slots[dir], (j + 1) * PerCluster(g))
            && DirMap(f'.slots[dir]) == DirMap(f.slots[dir])
  {
    hide DirMap, DirSlots, ClusterSlots, IsLive;
    PartsLen(g, disk, f.chains[dir]);
    Distribute(j, 1, PerCluster(g));
    BlankSlots(g.ClusterSize());
    BlankHarmless([], ClusterSlots(Zeros(g.ClusterSize())));
    GrowNames(f.slots[dir], ClusterSlots(Zeros(g.ClusterSize())));
  }

  /**
   * Create a file or, for `fat32_mkdir`, a directory.  It succeeds exactly when the name is
   * acceptable, not yet present and there is space; a failure leaves the table and the file
   * system as they were; for a canonical name success adds exactly that name and one empty object.
   */
  method Create(v: Volume, dir: nat, name: Name, isDir: bool) returns (rc: int, ghost made: nat)
    requires v.Mounted() && dir in v.fs.slots && IsCString(name)
    modifies v
    ensures rc == 0 || rc == -1
    ensures rc == 0 <==>
              ValidName(name) && name !in DirMap(old(v.fs).slots[dir])
              && !Full(v.g, old(v.disk).fat, old(v.fs).slots[dir])
    ensures rc == -1 ==> v.Mounted() && v.disk.fat == old(v.disk).fat && v.fs == old(v.fs)
    ensures rc == -1 ==> v.Files() == old(v.Files())
    ensures rc == 0 ==> made !in old(v.fs).chains && v.Valid() && Consistent(v.g, v.disk, v.fs)
    ensures rc == 0 ==> NodesKept(old(v.fs), v.fs)
    ensures rc == 0 ==> made in v.fs.chains && v.fs.chains[made] == [made]
    ensures rc == 0 ==> FreeCount(v.g, v.disk.fat) + 1 + Growth(old(v.fs).slots[dir]) == FreeCount(v.g, old(v.disk).fat)
    ensures rc == 0 ==> (name[0] != DELETED ==> v.Mounted()) && (name[0] == DELETED ==> v.fs.pending == {made})
    ensures rc == 0 && Canonical(name) ==>
              v.Files() == WithNew(old(v.Files()), dir, DirMap(old(v.fs).slots[dir]), name, made, isDir)
    ensures rc == 0 && Canonical(name) && Tidy(old(v.fs).slots) ==> Tidy(v.fs.slots)
    ensures old(v.trace) <= v.trace && dir in old(v.fs).chains
    ensures CreateStops(v.g, v.trace, |old(v.trace)|, old(v.Files()), v.Files(), dir, old(v.fs).chains[dir], old(v.fs).slots[dir])
    ensures rc == 0 && name[0] != DELETED ==> QuotaOf(v.fs) == AfterMake(QuotaOf(old(v.fs)), dir, made, isDir, PerCluster(v.g))
    ensures rc == 0 && name[0] != DELETED ==> SlotWritten(v.fs, dir, name, isDir, made)
  {
    hide SlotWritten;
    hide QuotaOf, AfterMake;
    hide Volume.Valid, Consistent, Abs, Tidy, DirMap, WithNew, NewChain, Canonical, From83, To83, AllLive, NodesKept, FreeCount, CreateStops, AllRead, Full, NoneFree, NoLeak, Entries, IsChain, TailOk, Readable, DirSlots, DiskShape, Growth;
    made := 0;
    ghost var g, disk0, f0 := v.g, v.disk, v.fs;
    DirFacts(g, disk0, f0, dir);
    ghost var m, trace0 := v.Files(), v.trace;
    NothingYet(g, trace0, m);
    StopsRead(g, trace0, |trace0|, m, m, dir, f0.chains[dir], f0.slots[dir]);
    if !ValidName(name) {
      return -1, 0;
    }
    var existing := Lookup(v, dir, name);
    if existing.Some? {
      return -1, 0;
    }
    var c := NewBlank(v);
    StopsRead(g, v.trace, |trace0|, m, m, dir, f0.chains[dir], f0.slots[dir]);
    if c == 0 {
      NoneIsFull(g, disk0.fat, f0.slots[dir]);
      return -1, 0;
    }
    ghost var trace1 := v.trace;
    NewChainAt(f0, c);
    ShapeSizes(g, disk0);
    RoundTrip(name);
    CanonicalStart(name);
    FullAfter(g, disk0.fat, f0.slots[dir], c);
    CountMarked(g, disk0.fat, c);
    rc := EnterName(v, dir, name, isDir, c, f0);
    StopsMore(g, trace1, v.trace, |trace0|, m, v.Files(), dir, f0.chains[dir], f0.slots[dir]);
    made := c;
  }
}