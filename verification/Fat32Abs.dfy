/** The file system a consistent volume stands for: folders of names and files of bytes. */
module Fat32Abs {
  import opened Bytes
  import opened Fat32Layout
  import opened Fat32Chain
  import opened Fat32Dir
  import opened Fat32State
  import opened Fat32Moves

  type Name = seq<byte>

  datatype Obj = Folder(entries: map<Name, nat>) | File(bytes: seq<byte>)

  /** A live slot that reads as `n`. */
  ghost predicate Named(s: Slot, n: Name) { IsSlot(s) && IsLive(s) && SlotName(s) == n }

  /** The first slot that reads as `n`, or -1. */
  ghost function Find(slots: seq<Slot>, n: Name): (p: int)
    ensures -1 <= p < |slots|
    ensures p >= 0 ==> Named(slots[p], n) && forall k :: 0 <= k < p ==> !Named(slots[k], n)
    ensures p < 0 ==> forall k :: 0 <= k < |slots| ==> !Named(slots[k], n)
  {
    if slots == [] then -1
    else
      var p := Find(slots[..|slots| - 1], n);
      if p >= 0 then p else if Named(slots[|slots| - 1], n) then |slots| - 1 else -1
  }

  ghost function Names(slots: seq<Slot>): set<Name>
  {
    set p | 0 <= p < |slots| && IsSlot(slots[p]) && IsLive(slots[p]) :: SlotName(slots[p])
  }

  lemma InNames(slots: seq<Slot>, n: Name)
    ensures n in Names(slots) <==> Find(slots, n) >= 0
  {
  }

  /** Name to head, as lookup sees it: the first slot wins. */
  ghost function DirMap(slots: seq<Slot>): (m: map<Name, nat>)
    ensures m.Keys == Names(slots)
  {
    map n | n in Names(slots) :: InNames(slots, n); SlotFirst(slots[Find(slots, n)])
  }

  ghost predicate LiveSlot(s: Slot) { IsSlot(s) && IsLive(s) }

  /** No two live slots read the same. */
  ghost predicate Unique(slots: seq<Slot>)
  {
    forall i, j :: 0 <= i < j < |slots| && LiveSlot(slots[i]) && LiveSlot(slots[j]) ==>
      SlotName(slots[i]) != SlotName(slots[j])
  }

  ghost predicate Tidy(slots: Tree) { forall d :: d in slots ==> Unique(slots[d]) }

  /** The bytes of a file: its chain up to its recorded size. */
  ghost function Content(disk: Disk, f: Fs, h: nat): (b: seq<byte>)
  {
    var all := if h in f.chains then ChainBytes(disk, f.chains[h]) else [];
    var size := FileSize(f.slots, f.owner, h);
    if size <= |all| then all[..size] else all
  }

  ghost function ObjAt(disk: Disk, f: Fs, h: nat): Obj
  {
    if h in f.slots then Folder(DirMap(f.slots[h])) else File(Content(disk, f, h))
  }

  /** Head to object, for every head that has a name (and the root). */
  ghost function Abs(g: Geometry, disk: Disk, f: Fs): (m: map<nat, Obj>)
    ensures m.Keys == f.owner.Keys + {g.root}
  {
    map h | h in f.owner.Keys + {g.root} :: ObjAt(disk, f, h)
  }

  /** The bookkeeping part of consistency. */
  lemma HeadFacts(g: Geometry, disk: Disk, f: Fs)
    requires Consistent(g, disk, f)
    ensures Heads(g, f) && DiskShape(g, disk) && Owners(f.slots, f.owner)
  {
  }

  /** The table does not matter to a file's bytes. */
  lemma FatContent(disk: Disk, f: Fs, disk': Disk, f': Fs, h: nat)
    requires disk'.clus == disk.clus && f'.owner == f.owner && f'.slots == f.slots
    requires h in f.chains && h in f'.chains && f'.chains[h] == f.chains[h]
    ensures Content(disk, f, h) == Content(disk', f', h)
  {
    hide ChainBytes, FileSize;
    FatFrame(disk, disk'.fat, f.chains[h]);
    assert disk' == disk.(fat := disk'.fat);
  }

  /** A change of table and unnamed chains alone leaves the file system as it was. */
  lemma AbsFat(g: Geometry, disk: Disk, f: Fs, disk': Disk, f': Fs)
    requires Consistent(g, disk, f) && Consistent(g, disk', f') && disk'.clus == disk.clus
    requires f'.owner == f.owner && f'.slots == f.slots
    requires forall h :: h in f.owner && h in f.chains && h in f'.chains ==> f'.chains[h] == f.chains[h]
    ensures Abs(g, disk', f') == Abs(g, disk, f)
  {
    hide Consistent, DirMap, Content, DiskShape, Owners;
    HeadFacts(g, disk, f);
    HeadFacts(g, disk', f');
    forall h | h in f.owner.Keys + {g.root}
      ensures ObjAt(disk', f', h) == ObjAt(disk, f, h)
    {
      if h !in f.slots { FatContent(disk, f, disk', f', h); }
    }
  }

  lemma AbsAlloc(g: Geometry, disk: Disk, f: Fs, c: nat)
    requires Consistent(g, disk, f) && InRange(g, c) && disk.fat[c] == FREE
    ensures Consistent(g, disk.(fat := disk.fat[c := EOC_MAX]), NewChain(f, c))
    ensures Abs(g, disk.(fat := disk.fat[c := EOC_MAX]), NewChain(f, c)) == Abs(g, disk, f)
  {
    hide Consistent, Abs;
    HeadFacts(g, disk, f);
    AllocMove(g, disk, f, c);
    AbsFat(g, disk, f, disk.(fat := disk.fat[c := EOC_MAX]), NewChain(f, c));
  }

  lemma AbsFree(g: Geometry, disk: Disk, f: Fs, h: nat)
    requires Consistent(g, disk, f) && g.Limit() <= EOC_MIN && h in f.pending && h in f.chains
    ensures Consistent(g, disk.(fat := Freed(disk.fat, Reach(disk.fat, h))), Dropped(f, h))
    ensures Abs(g, disk.(fat := Freed(disk.fat, Reach(disk.fat, h))), Dropped(f, h)) == Abs(g, disk, f)
  {
    hide Consistent, Abs;
    FreeMove(g, disk, f, h);
    AbsFat(g, disk, f, disk.(fat := Freed(disk.fat, Reach(disk.fat, h))), Dropped(f, h));
  }

  /** Writing a cluster outside a file's chain leaves its bytes. */
  lemma WriteContent(g: Geometry, disk: Disk, f: Fs, c: nat, x: seq<byte>, h: nat)
    requires Consistent(g, disk, f) && c < |disk.clus| && h in f.chains && (c !in f.spot || f.spot[c].head != h)
    ensures Content(disk.(clus := disk.clus[c := x]), f, h) == Content(disk, f, h)
  {
    hide Consistent, ChainBytes, FileSize;
    NotInChain(g, disk, f, c, h);
    ChainFrame(disk, c, x, f.chains[h]);
  }

  /** Writing a cluster of no named chain leaves the file system as it was. */
  lemma AbsWrite(g: Geometry, disk: Disk, f: Fs, c: nat, x: seq<byte>)
    requires Consistent(g, disk, f) && InRange(g, c) && |x| == g.ClusterSize()
    requires c in f.spot ==> f.spot[c].head in f.pending
    ensures Consistent(g, disk.(clus := disk.clus[c := x]), f)
    ensures Abs(g, disk.(clus := disk.clus[c := x]), f) == Abs(g, disk, f)
  {
    hide Consistent, DirMap, Content, DiskShape, Owners;
    HeadFacts(g, disk, f);
    WriteMove(g, disk, f, c, x);
    forall h | h in f.owner.Keys + {g.root}
      ensures ObjAt(disk.(clus := disk.clus[c := x]), f, h) == ObjAt(disk, f, h)
    {
      if h !in f.slots { WriteContent(g, disk, f, c, x, h); }
    }
  }

  // ---------------------------------------------------------------- lengthening

  /** Find picks out the first match. */
  lemma FindIs(slots: seq<Slot>, n: Name, p: int)
    requires -1 <= p < |slots|
    requires p >= 0 ==> Named(slots[p], n)
    requires forall k :: 0 <= k < (if p >= 0 then p else |slots|) ==> !Named(slots[k], n)
    ensures Find(slots, n) == p
  {
    hide Named;
  }

  lemma MapIs(slots: seq<Slot>, m: map<Name, nat>)
    requires forall n :: n in m <==> Find(slots, n) >= 0
    requires forall n :: n in m ==> Named(slots[Find(slots, n)], n) && m[n] == SlotFirst(slots[Find(slots, n)])
    ensures DirMap(slots) == m
  {
    hide Find, Named, SlotFirst;
    forall n
      ensures n in Names(slots) <==> n in m
    {
      InNames(slots, n);
    }
    assert DirMap(slots).Keys == m.Keys;
  }

  lemma MapAt(slots: seq<Slot>, n: Name)
    ensures n in DirMap(slots) <==> Find(slots, n) >= 0
    ensures n in DirMap(slots) ==> Named(slots[Find(slots, n)], n) && DirMap(slots)[n] == SlotFirst(slots[Find(slots, n)])
  {
    InNames(slots, n);
  }

  lemma GrowNames(slots: seq<Slot>, more: seq<Slot>)
    requires NoneLive(more)
    ensures DirMap(slots + more) == DirMap(slots)
    ensures Unique(slots) ==> Unique(slots + more)
  {
    hide SlotName, SlotFirst, DirMap;
    var all := slots + more;
    forall n
      ensures Find(all, n) == Find(slots, n)
      ensures n in DirMap(slots) <==> Find(slots, n) >= 0
      ensures n in DirMap(slots) ==> Named(slots[Find(slots, n)], n) && DirMap(slots)[n] == SlotFirst(slots[Find(slots, n)])
    {
      FindIs(all, n, Find(slots, n));
      MapAt(slots, n);
    }
    MapIs(all, DirMap(slots));
  }

  /** Content is a prefix of the chain; equal prefixes are equal contents. */
  lemma ContentIs(g: Geometry, disk: Disk, f: Fs, h: nat)
    requires Consistent(g, disk, f) && h in f.owner && h !in f.slots && h in f.chains
    ensures IsChain(g, disk.fat, h, f.chains[h]) && DiskShape(g, disk) && Owners(f.slots, f.owner)
    ensures |ChainBytes(disk, f.chains[h])| == |f.chains[h]| * g.ClusterSize()
    ensures FileSize(f.slots, f.owner, h) <= |ChainBytes(disk, f.chains[h])|
    ensures Content(disk, f, h) == ChainBytes(disk, f.chains[h])[..FileSize(f.slots, f.owner, h)]
  {
    hide Consistent, ChainBytes, FileSize, Owners;
    HeadFacts(g, disk, f);
    ChainInside(g, disk, f, h);
    PartsLen(g, disk, f.chains[h]);
    SizeFits(g, disk, f, h);
  }

  lemma LinkContent(g: Geometry, disk: Disk, f: Fs, h: nat, c: nat, k: nat)
    requires Consistent(g, disk, f) && h in f.chains && c in f.pending && h != c && c < |disk.clus|
    requires |f.chains[h]| > 0 && Last(f, h) < |disk.fat|
    requires Consistent(g, disk.(fat := disk.fat[Last(f, h) := c]), Linked(disk, f, h, c))
    requires k in f.owner && k !in f.slots
    ensures k !in Linked(disk, f, h, c).slots
    ensures Content(disk.(fat := disk.fat[Last(f, h) := c]), Linked(disk, f, h, c), k) == Content(disk, f, k)
  {
    hide Consistent, ChainBytes, Content, IsChain, FileSize, ClusterSlots;
    HeadFacts(g, disk, f);
    var disk', f' := disk.(fat := disk.fat[Last(f, h) := c]), Linked(disk, f, h, c);
    HeadFacts(g, disk', f');
    ContentIs(g, disk, f, k);
    ContentIs(g, disk', f', k);
    ChainInside(g, disk, f, k);
    LinkSize(disk, f, h, c, k);
    LinkBytes(g, disk, f, h, c, k);
  }

  lemma LinkSize(disk: Disk, f: Fs, h: nat, c: nat, k: nat)
    requires h in f.chains && c < |disk.clus|
    requires Owners(f.slots, f.owner) && Owners(Linked(disk, f, h, c).slots, f.owner) && k in f.owner
    ensures FileSize(Linked(disk, f, h, c).slots, f.owner, k) == FileSize(f.slots, f.owner, k)
  {
    OwnerAt(f.slots, f.owner, k);
  }

  lemma LinkBytes(g: Geometry, disk: Disk, f: Fs, h: nat, c: nat, k: nat)
    requires h in f.chains && c < |disk.clus| && k in f.chains && k != c
    requires |f.chains[h]| > 0 && Last(f, h) < |disk.fat|
    ensures ChainBytes(disk, f.chains[k]) <= ChainBytes(disk.(fat := disk.fat[Last(f, h) := c]), Longer(f.chains, h, c)[k])
  {
    FatFrame(disk, disk.fat[Last(f, h) := c], Longer(f.chains, h, c)[k]);
    if k == h {
      ChainAppend(disk, f.chains[k], c);
    }
  }

  lemma SizeFits(g: Geometry, disk: Disk, f: Fs, h: nat)
    requires Consistent(g, disk, f) && h in f.owner && h !in f.slots
    ensures h in f.chains && FileSize(f.slots, f.owner, h) <= |f.chains[h]| * g.ClusterSize()
  {
  }

  lemma AbsLink(g: Geometry, disk: Disk, f: Fs, h: nat, c: nat)
    requires Consistent(g, disk, f) && g.Limit() <= EOC_MIN
    requires h in f.chains && c in f.pending && h != c && f.chains[c] == [c]
    requires h in f.slots && c < |disk.clus| ==> Harmless(f.slots[h], ClusterSlots(disk.clus[c]))
    ensures |f.chains[h]| > 0 && InRange(g, Last(f, h)) && InRange(g, c)
    ensures Consistent(g, disk.(fat := disk.fat[Last(f, h) := c]), Linked(disk, f, h, c))
    ensures Abs(g, disk.(fat := disk.fat[Last(f, h) := c]), Linked(disk, f, h, c)) == Abs(g, disk, f)
    ensures Tidy(f.slots) ==> Tidy(Linked(disk, f, h, c).slots)
  {
    hide Consistent, DirMap, Content, Owners, ClusterSlots, Unique;
    LinkMove(g, disk, f, h, c);
    HeadFacts(g, disk, f);
    var disk', f' := disk.(fat := disk.fat[Last(f, h) := c]), Linked(disk, f, h, c);
    if h in f.slots {
      GrowNames(f.slots[h], ClusterSlots(disk.clus[c]));
    }
    forall k | k in f.owner.Keys + {g.root}
      ensures ObjAt(disk', f', k) == ObjAt(disk, f, k)
    {
      if k !in f.slots { LinkContent(g, disk, f, h, c, k); }
    }
  }

  // ---------------------------------------------------------------- naming and forgetting

  lemma AttachNames(slots: seq<Slot>, p: nat, x: Slot)
    requires p < |slots| && IsSlot(slots[p]) && !IsLive(slots[p])
    requires IsSlot(x) && IsLive(x) && SlotName(x) !in DirMap(slots)
    ensures DirMap(slots[p := x]) == DirMap(slots)[SlotName(x) := SlotFirst(x)]
  {
    hide SlotName, SlotFirst, IsLive, DirMap;
    var all := slots[p := x];
    forall n
      ensures Find(all, n) == if n == SlotName(x) then p else Find(slots, n)
      ensures n in DirMap(slots) <==> Find(slots, n) >= 0
      ensures n in DirMap(slots) ==> Named(slots[Find(slots, n)], n) && DirMap(slots)[n] == SlotFirst(slots[Find(slots, n)])
    {
      MapAt(slots, n);
      FindIs(all, n, if n == SlotName(x) then p else Find(slots, n));
    }
    MapIs(all, DirMap(slots)[SlotName(x) := SlotFirst(x)]);
  }

  lemma AttachUnique(slots: seq<Slot>, p: nat, x: Slot)
    requires p < |slots| && IsSlot(x) && SlotName(x) !in DirMap(slots) && Unique(slots)
    ensures Unique(slots[p := x])
  {
    hide SlotName, IsLive;
    MapAt(slots, SlotName(x));
    forall k | 0 <= k < |slots| && LiveSlot(slots[k])
      ensures SlotName(slots[k]) != SlotName(x)
    {
      assert !Named(slots[k], SlotName(x));
    }
  }

  lemma DetachNames(slots: seq<Slot>, p: nat)
    requires p < |slots| && IsSlot(slots[p]) && IsLive(slots[p]) && Unique(slots)
    ensures DirMap(slots[p := Erased(slots[p])]) == DirMap(slots) - {SlotName(slots[p])}
    ensures Unique(slots[p := Erased(slots[p])])
  {
    hide SlotName, SlotFirst, IsLive, DirMap, Erased;
    var all, m := slots[p := Erased(slots[p])], SlotName(slots[p]);
    forall n
      ensures Find(all, n) == if n == m then -1 else Find(slots, n)
      ensures n in DirMap(slots) <==> Find(slots, n) >= 0
      ensures n in DirMap(slots) ==> Named(slots[Find(slots, n)], n) && DirMap(slots)[n] == SlotFirst(slots[Find(slots, n)])
    {
      MapAt(slots, n);
      FindIs(all, n, if n == m then -1 else Find(slots, n));
    }
    MapIs(all, DirMap(slots) - {m});
  }

  lemma ResizeNames(slots: seq<Slot>, p: nat, x: Slot)
    requires p < |slots| && IsSlot(slots[p]) && IsLive(slots[p])
    requires IsSlot(x) && x[..11] == slots[p][..11] && x[0] == slots[p][0] && SlotFirst(x) == SlotFirst(slots[p])
    ensures DirMap(slots[p := x]) == DirMap(slots)
    ensures Unique(slots) ==> Unique(slots[p := x])
  {
    var all := slots[p := x];
    assert SlotName(x) == SlotName(slots[p]) && IsLive(x);
    hide SlotFirst, SlotName, IsLive, DirMap;
    forall n
      ensures Find(all, n) == Find(slots, n)
      ensures n in DirMap(slots) <==> Find(slots, n) >= 0
      ensures n in DirMap(slots) ==> Named(slots[Find(slots, n)], n) && DirMap(slots)[n] == SlotFirst(slots[Find(slots, n)])
    {
      MapAt(slots, n);
      FindIs(all, n, Find(slots, n));
    }
    MapIs(all, DirMap(slots));
  }

  /** Storing a directory slot leaves the bytes of every file. */
  lemma StoreContent(g: Geometry, disk: Disk, f: Fs, d: nat, j: nat, i: nat, x: Slot, f': Fs, k: nat)
    requires Consistent(g, disk, f) && d in f.slots && d in f.chains && j < |f.chains[d]|
    requires f.chains[d][j] < |disk.clus| && 32 * i + 32 <= |disk.clus[f.chains[d][j]]| && IsSlot(x)
    requires f'.chains == f.chains && k in f.chains && k != d
    requires FileSize(f'.slots, f'.owner, k) == FileSize(f.slots, f.owner, k)
    ensures Content(SlotDisk(disk, f.chains[d][j], i, x), f', k) == Content(disk, f, k)
  {
    hide Consistent, ChainBytes, FileSize, Splice;
    ChainInside(g, disk, f, d);
    NotInChain(g, disk, f, f.chains[d][j], k);
    ChainFrame(disk, f.chains[d][j], Splice(disk.clus[f.chains[d][j]], 32 * i, x), f.chains[k]);
  }

  /** A map that gives every named head its object is the abstraction. */
  lemma AbsIs(g: Geometry, disk: Disk, f: Fs, m: map<nat, Obj>)
    requires Consistent(g, disk, f)
    requires m.Keys == f.owner.Keys + {g.root}
    requires forall k :: k in m ==> m[k] == ObjAt(disk, f, k)
    ensures Abs(g, disk, f) == m
  {
    hide Consistent, ObjAt;
  }

  lemma AbsAt(g: Geometry, disk: Disk, f: Fs, k: nat)
    requires Consistent(g, disk, f) && k in f.owner.Keys + {g.root}
    ensures Abs(g, disk, f)[k] == ObjAt(disk, f, k)
  {
  }

  lemma AttachObj(g: Geometry, disk: Disk, f: Fs, d: nat, j: nat, i: nat, x: Slot, c: nat, k: nat)
    requires Consistent(g, disk, f) && At(g, f, d, j, i) && CanAttach(g, disk, f, d, j * PerCluster(g) + i, x, c)
    requires f.chains[d][j] < |disk.clus| && 32 * i + 32 <= |disk.clus[f.chains[d][j]]|
    requires Consistent(g, SlotDisk(disk, f.chains[d][j], i, x),
                        Attached(f, d, j * PerCluster(g) + i, x, c, ClusterSlots(disk.clus[c])))
    requires k in f.owner.Keys + {g.root} && k != c && k != d
    ensures ObjAt(SlotDisk(disk, f.chains[d][j], i, x),
                  Attached(f, d, j * PerCluster(g) + i, x, c, ClusterSlots(disk.clus[c])), k)
            == ObjAt(disk, f, k)
  {
    hide Consistent, DirMap, Content, ClusterSlots, SlotFirst, SlotSize, IsLive, Attr, FileSize, Owners, DiskShape;
    var p := j * PerCluster(g) + i;
    var f' := Attached(f, d, p, x, c, ClusterSlots(disk.clus[c]));
    HeadFacts(g, disk, f);
    HeadFacts(g, SlotDisk(disk, f.chains[d][j], i, x), f');
    if k !in f.slots {
      AttachedSize(f, d, p, x, c, ClusterSlots(disk.clus[c]), k);
      StoreContent(g, disk, f, d, j, i, x, f', k);
    }
  }

  ghost function NewObj(x: Slot): Obj
    requires IsSlot(x)
  {
    if Attr(x) == ATTR_DIRECTORY then Folder(map[]) else File([])
  }

  lemma AttachNew(g: Geometry, disk: Disk, f: Fs, d: nat, p: nat, x: Slot, c: nat, blank: seq<Slot>)
    requires d in f.slots && p < |f.slots[d]| && IsSlot(x) && SlotSize(x) == 0 && c !in f.slots && c != d
    requires Consistent(g, disk, Attached(f, d, p, x, c, blank))
    requires forall k :: 0 <= k < |blank| ==> IsSlot(blank[k]) && IsEnd(blank[k])
    ensures ObjAt(disk, Attached(f, d, p, x, c, blank), c) == NewObj(x)
  {
    hide Consistent, DirMap, Attr, SlotSize;
    NoNames(blank);
    HeadFacts(g, disk, Attached(f, d, p, x, c, blank));
    OwnerAt(Attached(f, d, p, x, c, blank).slots, Attached(f, d, p, x, c, blank).owner, c);
  }

  lemma AttachFolder(g: Geometry, disk: Disk, f: Fs, d: nat, p: nat, x: Slot, c: nat, disk': Disk)
    requires CanAttach(g, disk, f, d, p, x, c) && SlotName(x) !in DirMap(f.slots[d]) && c !in f.slots && c != d
    requires Consistent(g, disk', Attached(f, d, p, x, c, ClusterSlots(disk.clus[c])))
    ensures ObjAt(disk', Attached(f, d, p, x, c, ClusterSlots(disk.clus[c])), d)
            == Folder(DirMap(f.slots[d])[SlotName(x) := c])
    ensures ObjAt(disk', Attached(f, d, p, x, c, ClusterSlots(disk.clus[c])), c) == NewObj(x)
  {
    hide Consistent, DirMap, Content, SlotName, SlotFirst, SlotSize, IsLive, Attr, NewObj, ClusterSlots;
    AttachNames(f.slots[d], p, x);
    AttachNew(g, disk', f, d, p, x, c, ClusterSlots(disk.clus[c]));
  }

  lemma CanAttachFacts(g: Geometry, disk: Disk, f: Fs, d: nat, p: nat, x: Slot, c: nat)
    requires CanAttach(g, disk, f, d, p, x, c)
    ensures d in f.slots && p < |f.slots[d]| && IsSlot(x) && c in f.pending && c < |disk.clus|
  {
  }

  /** The heads before and after naming `c`. */
  lemma AttachKeys(g: Geometry, disk: Disk, f: Fs, d: nat, p: nat, x: Slot, c: nat, blank: seq<Slot>)
    requires Consistent(g, disk, f) && d in f.slots && p < |f.slots[d]| && IsSlot(x) && c in f.pending
    ensures Attached(f, d, p, x, c, blank).owner.Keys == f.owner.Keys + {c}
    ensures c != d && c !in f.slots && c !in f.owner && c != g.root && d in f.owner.Keys + {g.root}
  {
    hide Consistent, Attr, Owners, DiskShape;
    HeadFacts(g, disk, f);
  }

  /** Naming a blank chain adds one entry to one folder, and one empty object. */
  lemma AbsAttach(g: Geometry, disk: Disk, f: Fs, d: nat, j: nat, i: nat, x: Slot, c: nat)
    requires Consistent(g, disk, f) && At(g, f, d, j, i) && CanAttach(g, disk, f, d, j * PerCluster(g) + i, x, c)
    requires SlotName(x) !in DirMap(f.slots[d])
    ensures InRange(g, f.chains[d][j]) && f.chains[d][j] < |disk.clus|
    ensures 32 * i + 32 <= g.ClusterSize() == |disk.clus[f.chains[d][j]]|
    ensures var disk' := SlotDisk(disk, f.chains[d][j], i, x);
            var f' := Attached(f, d, j * PerCluster(g) + i, x, c, ClusterSlots(disk.clus[c]));
            && Consistent(g, disk', f')
            && Abs(g, disk', f') ==
               Abs(g, disk, f)[d := Folder(DirMap(f.slots[d])[SlotName(x) := c])][c := NewObj(x)]
  {
    hide Consistent, DirMap, ObjAt, ClusterSlots, SlotName, DiskShape, NewObj, Abs, CanAttach, Attached, Splice, SlotDisk;
    var p := j * PerCluster(g) + i;
    CanAttachFacts(g, disk, f, d, p, x, c);
    var f' := Attached(f, d, p, x, c, ClusterSlots(disk.clus[c]));
    AttachMove(g, disk, f, d, j, i, x, c);
    var disk' := SlotDisk(disk, f.chains[d][j], i, x);
    AttachKeys(g, disk, f, d, p, x, c, ClusterSlots(disk.clus[c]));
    AttachFolder(g, disk, f, d, p, x, c, disk');
    var m := Abs(g, disk, f)[d := Folder(DirMap(f.slots[d])[SlotName(x) := c])][c := NewObj(x)];
    forall k | k in m
      ensures m[k] == ObjAt(disk', f', k)
    {
      if k != c && k != d {
        AbsAt(g, disk, f, k);
        AttachObj(g, disk, f, d, j, i, x, c, k);
      }
    }
    AbsIs(g, disk', f', m);
  }

  lemma AttachTidy(f: Fs, d: nat, p: nat, x: Slot, c: nat, blank: seq<Slot>)
    requires d in f.slots && p < |f.slots[d]| && IsSlot(x)
    requires SlotName(x) !in DirMap(f.slots[d]) && Tidy(f.slots)
    requires forall k :: 0 <= k < |blank| ==> IsSlot(blank[k]) && IsEnd(blank[k])
    ensures Tidy(Attached(f, d, p, x, c, blank).slots)
  {
    hide DirMap, Unique, SlotName, Attr;
    AttachUnique(f.slots[d], p, x);
    NoNames(blank);
  }

  lemma NoNames(slots: seq<Slot>)
    requires forall k :: 0 <= k < |slots| ==> IsSlot(slots[k]) && IsEnd(slots[k])
    ensures DirMap(slots) == map[] && Unique(slots)
  {
  }

  lemma AttachedSize(f: Fs, d: nat, p: nat, x: Slot, c: nat, blank: seq<Slot>, k: nat)
    requires d in f.slots && p < |f.slots[d]| && IsSlot(f.slots[d][p]) && !IsLive(f.slots[d][p]) && IsSlot(x)
    requires Owners(f.slots, f.owner) && k in f.owner && k != c && c !in f.slots
    requires Owners(Attached(f, d, p, x, c, blank).slots, Attached(f, d, p, x, c, blank).owner)
    ensures FileSize(Attached(f, d, p, x, c, blank).slots, Attached(f, d, p, x, c, blank).owner, k)
            == FileSize(f.slots, f.owner, k)
  {
    OwnerAt(f.slots, f.owner, k);
  }

  lemma DetachObj(g: Geometry, disk: Disk, f: Fs, d: nat, j: nat, i: nat, h: nat, k: nat)
    requires Consistent(g, disk, f) && At(g, f, d, j, i) && CanDetach(f, d, j * PerCluster(g) + i, h)
    requires f.chains[d][j] < |disk.clus| && 32 * i + 32 <= |disk.clus[f.chains[d][j]]|
    requires Consistent(g, SlotDisk(disk, f.chains[d][j], i, Erased(f.slots[d][j * PerCluster(g) + i])),
                        Detached(f, d, j * PerCluster(g) + i, h))
    requires k in f.owner.Keys + {g.root} && k != h && k != d
    ensures ObjAt(SlotDisk(disk, f.chains[d][j], i, Erased(f.slots[d][j * PerCluster(g) + i])),
                  Detached(f, d, j * PerCluster(g) + i, h), k)
            == ObjAt(disk, f, k)
  {
    hide Consistent, DirMap, Content, SlotFirst, SlotSize, IsLive, Erased;
    var p := j * PerCluster(g) + i;
    var x := Erased(f.slots[d][p]);
    HeadFacts(g, disk, f);
    HeadFacts(g, SlotDisk(disk, f.chains[d][j], i, x), Detached(f, d, p, h));
    if k !in f.slots {
      DetachedSize(f, d, p, h, k);
      StoreContent(g, disk, f, d, j, i, x, Detached(f, d, p, h), k);
    }
  }

  /** Erasing a slot removes one entry from one folder, and the object it named. */
  lemma AbsDetach(g: Geometry, disk: Disk, f: Fs, d: nat, j: nat, i: nat, h: nat)
    requires Consistent(g, disk, f) && At(g, f, d, j, i) && CanDetach(f, d, j * PerCluster(g) + i, h)
    requires Tidy(f.slots)
    ensures InRange(g, f.chains[d][j]) && f.chains[d][j] < |disk.clus|
    ensures 32 * i + 32 <= g.ClusterSize() == |disk.clus[f.chains[d][j]]|
    ensures var s := f.slots[d][j * PerCluster(g) + i];
            var disk' := SlotDisk(disk, f.chains[d][j], i, Erased(s));
            var f' := Detached(f, d, j * PerCluster(g) + i, h);
            && Consistent(g, disk', f')
            && Abs(g, disk', f') == (Abs(g, disk, f) - {h})[d := Folder(DirMap(f.slots[d]) - {SlotName(s)})]
            && Tidy(f'.slots)
  {
    hide Consistent, DirMap, Content, ClusterSlots, Unique, SlotName, SlotFirst, SlotSize, IsLive, Attr, DiskShape, Erased, Abs, Owners, Splice, SlotDisk;
    var p := j * PerCluster(g) + i;
    var x := Erased(f.slots[d][p]);
    var f' := Detached(f, d, p, h);
    DetachMove(g, disk, f, d, j, i, h);
    var disk' := SlotDisk(disk, f.chains[d][j], i, x);
    HeadFacts(g, disk, f);
    HeadFacts(g, disk', f');
    DetachNames(f.slots[d], p);
    var m := (Abs(g, disk, f) - {h})[d := Folder(DirMap(f.slots[d]) - {SlotName(f.slots[d][p])})];
    forall k | k in m
      ensures m[k] == ObjAt(disk', f', k)
    {
      if k != d {
        AbsAt(g, disk, f, k);
        DetachObj(g, disk, f, d, j, i, h, k);
      }
    }
    AbsIs(g, disk', f', m);
  }

  lemma DetachedSize(f: Fs, d: nat, p: nat, h: nat, k: nat)
    requires d in f.slots && p < |f.slots[d]| && IsSlot(f.slots[d][p]) && SlotFirst(f.slots[d][p]) == h
    requires Owners(f.slots, f.owner) && k in f.owner && k != h
    requires Owners(Detached(f, d, p, h).slots, Detached(f, d, p, h).owner)
    ensures FileSize(Detached(f, d, p, h).slots, Detached(f, d, p, h).owner, k) == FileSize(f.slots, f.owner, k)
  {
    OwnerAt(f.slots, f.owner, k);
  }

  /** Changing a file's recorded size changes that file alone. */
  lemma AbsResize(g: Geometry, disk: Disk, f: Fs, d: nat, j: nat, i: nat, x: Slot, h: nat)
    requires Consistent(g, disk, f) && At(g, f, d, j, i) && CanResize(g, f, d, j * PerCluster(g) + i, x)
    requires h in f.owner && h !in f.slots && h in f.chains && SlotFirst(x) == h
    ensures InRange(g, f.chains[d][j]) && f.chains[d][j] < |disk.clus|
    ensures 32 * i + 32 <= g.ClusterSize() == |disk.clus[f.chains[d][j]]|
    ensures forall k :: 0 <= k < |f.chains[h]| ==> f.chains[h][k] < |disk.clus|
    ensures SlotSize(x) <= |ChainBytes(disk, f.chains[h])|
    ensures var disk' := SlotDisk(disk, f.chains[d][j], i, x);
            var f' := ResizedFs(f, d, j * PerCluster(g) + i, x);
            && Consistent(g, disk', f')
            && Abs(g, disk', f') == Abs(g, disk, f)[h := File(ChainBytes(disk, f.chains[h])[..SlotSize(x)])]
            && (Tidy(f.slots) ==> Tidy(f'.slots))
  {
    hide Consistent, DirMap, Content, ClusterSlots, Unique, SlotName, SlotFirst, SlotSize, IsLive, Attr, DiskShape, ChainBytes, Abs, Owners, Splice, SlotDisk;
    var p := j * PerCluster(g) + i;
    var f' := ResizedFs(f, d, p, x);
    ResizeMove(g, disk, f, d, j, i, x);
    var disk' := SlotDisk(disk, f.chains[d][j], i, x);
    HeadFacts(g, disk, f);
    HeadFacts(g, disk', f');
    ResizeNames(f.slots[d], p, x);
    ContentIs(g, disk, f, h);
    ContentIs(g, disk', f', h);
    ResizedContent(g, disk, f, d, j, i, x, h);
    var m := Abs(g, disk, f)[h := File(ChainBytes(disk, f.chains[h])[..SlotSize(x)])];
    forall k | k in m
      ensures m[k] == ObjAt(disk', f', k)
    {
      if k != h {
        AbsAt(g, disk, f, k);
        if k !in f.slots {
          ResizedSize(f, d, p, x, k);
          StoreContent(g, disk, f, d, j, i, x, f', k);
        }
      }
    }
    AbsIs(g, disk', f', m);
  }

  lemma ResizedSize(f: Fs, d: nat, p: nat, x: Slot, k: nat)
    requires d in f.slots && p < |f.slots[d]| && IsSlot(f.slots[d][p]) && SlotFirst(f.slots[d][p]) != k
    requires Owners(f.slots, f.owner) && k in f.owner && Owners(ResizedFs(f, d, p, x).slots, f.owner)
    ensures FileSize(ResizedFs(f, d, p, x).slots, f.owner, k) == FileSize(f.slots, f.owner, k)
  {
    OwnerAt(f.slots, f.owner, k);
  }

  lemma ResizedContent(g: Geometry, disk: Disk, f: Fs, d: nat, j: nat, i: nat, x: Slot, h: nat)
    requires Consistent(g, disk, f) && At(g, f, d, j, i) && CanResize(g, f, d, j * PerCluster(g) + i, x)
    requires f.chains[d][j] < |disk.clus| && 32 * i + 32 <= |disk.clus[f.chains[d][j]]|
    requires h in f.owner && h !in f.slots && h in f.chains && SlotFirst(x) == h
    requires Owners(ResizedFs(f, d, j * PerCluster(g) + i, x).slots, f.owner)
    ensures forall k :: 0 <= k < |f.chains[h]| ==> f.chains[h][k] < |disk.clus|
    ensures ChainBytes(SlotDisk(disk, f.chains[d][j], i, x), f.chains[h]) == ChainBytes(disk, f.chains[h])
    ensures FileSize(ResizedFs(f, d, j * PerCluster(g) + i, x).slots, f.owner, h) == SlotSize(x)
  {
    hide ChainBytes, Splice, SlotSize, SlotFirst, IsLive, ChainLinks, Owners, Tails, Sizes, SlotBytes, Attr;
    var p := j * PerCluster(g) + i;
    ChainInside(g, disk, f, d);
    ChainInside(g, disk, f, h);
    OneChain(f.chains, f.spot, f.chains[d][j], h);
    ChainFrame(disk, f.chains[d][j], Splice(disk.clus[f.chains[d][j]], 32 * i, x), f.chains[h]);
    hide Spots;
    assert EntryOk(f.slots, f.owner, d, p, f.slots[d][p]);
    OwnerAt(ResizedFs(f, d, p, x).slots, f.owner, h);
  }
}
