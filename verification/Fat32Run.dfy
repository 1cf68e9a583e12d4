/** Whole runs of the driver from a freshly formatted volume. */
module Fat32Run {
  import opened Numbers
  import opened Bytes
  import opened Fat32Layout
  import opened Fat32Chain
  import opened Fat32Name
  import opened Fat32Dir
  import opened Fat32State
  import opened Fat32Moves
  import opened Fat32Abs
  import opened Fat32Volume
  import opened Fat32Scan
  import opened Fat32Tree
  import opened Fat32Free
  import opened Fat32Quota
  import opened Fat32Create
  import opened Fat32Remove
  import opened Fat32File
  import opened Fat32Write

  // ---------------------------------------------------------------- snapshots

  /**
   * The file system and what decides about space: how many clusters are free, how many each object
   * has, and how many slots of each folder are unused.
   */
  datatype Snap = Snap(files: map<nat, Obj>, free: nat, quota: Quota)

  ghost function SnapOf(g: Geometry, disk: Disk, f: Fs): Snap
  {
    Snap(Abs(g, disk, f), FreeCount(g, disk.fat), QuotaOf(f))
  }

  function FreshSnap(g: Geometry): Snap
    requires g.total > 0
  {
    Snap(map[g.root := Folder(map[])], g.total - 1, Quota(map[g.root := 1], map[g.root := PerCluster(g)]))
  }

  // ---------------------------------------------------------------- a fresh volume

  /** As a formatter leaves it: one blank root cluster, everything else free. */
  ghost predicate Fresh(g: Geometry, d: Disk)
  {
    && DiskShape(g, d) && InRange(g, g.root) && g.spc > 0
    && d.fat[g.root] >= EOC_MIN && d.clus[g.root] == Zeros(g.ClusterSize())
    && forall c :: InRange(g, c) && c != g.root ==> d.fat[c] == FREE
  }

  ghost function FreshFs(g: Geometry): Fs
  {
    Fs(map[g.root := [g.root]], map[g.root := Place(g.root, 0)],
       map[g.root := ClusterSlots(Zeros(g.ClusterSize()))], map[], {})
  }

  /** A blank directory that stands alone. */
  lemma BlankTree(g: Geometry, slots: Tree, blank: seq<Slot>, chains: Chains)
    requires slots == map[g.root := blank]
    requires forall i :: 0 <= i < |blank| ==> IsSlot(blank[i]) && IsEnd(blank[i])
    ensures Entries(slots, map[]) && Owners(slots, map[]) && Tails(slots) && Sizes(g, slots, map[], chains) && Tidy(slots)
    ensures DirMap(blank) == map[]
  {
    hide DirMap, Unique, IsLive;
    forall i | 0 <= i < |blank| ensures !IsLive(blank[i]) { EndNotLive(blank[i]); }
    NoNames(blank);
  }

  lemma FreshChain(g: Geometry, d: Disk)
    requires Fresh(g, d)
    ensures var f := FreshFs(g);
            ChainLinks(g, d.fat, f.chains) && Spots(f.chains, f.spot) && Heads(g, f) && NoLeak(g, d.fat, f)
    ensures SlotBytes(d, FreshFs(g).slots, FreshFs(g).chains)
  {
    hide ClusterSlots, Zeros;
    var blank := ClusterSlots(Zeros(g.ClusterSize()));
    assert SlotParts(d, [g.root]) == [blank];
    FlatOne(blank);
    assert IsChain(g, d.fat, g.root, [g.root]);
  }

  lemma FreshIsMounted(g: Geometry, d: Disk)
    requires Fresh(g, d)
    ensures Consistent(g, d, FreshFs(g)) && NoLeak(g, d.fat, FreshFs(g)) && Tidy(FreshFs(g).slots)
    ensures Abs(g, d, FreshFs(g)) == map[g.root := Folder(map[])]
  {
    hide DirMap, Zeros, ClusterSlots, IsEnd, Entries, Owners, Tails, Sizes, Tidy, ChainLinks, Spots, Heads, NoLeak, SlotBytes, DiskShape;
    var f := FreshFs(g);
    BlankSlots(g.ClusterSize());
    BlankTree(g, f.slots, ClusterSlots(Zeros(g.ClusterSize())), f.chains);
    FreshChain(g, d);
    assert Consistent(g, d, f);
    hide Consistent;
    AbsIs(g, d, f, map[g.root := Folder(map[])]);
  }

  /** The clusters below `n`. */
  ghost function Below(n: nat): (r: set<nat>)
    requires n >= 2
    ensures |r| == n - 2 && forall x :: x in r <==> 2 <= x < n
  {
    if n == 2 then {} else Below(n - 1) + {n - 1}
  }

  lemma FreshCount(g: Geometry, d: Disk)
    requires Fresh(g, d)
    ensures g.total > 0 && FreeCount(g, d.fat) == g.total - 1
  {
    assert FreeSet(g, d.fat) == Below(g.Limit()) - {g.root};
  }

  lemma OneQuota(f: Fs, h: nat, slots: seq<Slot>)
    requires f.chains == map[h := [h]] && f.slots == map[h := slots]
    ensures QuotaOf(f) == Quota(map[h := 1], map[h := Vacancies(slots)])
  {
    hide Vacancies;
    assert QuotaOf(f).lens == map[h := 1];
    assert QuotaOf(f).unused == map[h := Vacancies(slots)];
  }

  /** The snapshot of a fresh volume: an empty root of one cluster, all its slots unused. */
  lemma FreshIs(g: Geometry, d: Disk)
    requires Fresh(g, d)
    ensures g.total > 0 && SnapOf(g, d, FreshFs(g)) == FreshSnap(g)
  {
    hide Abs, Fresh, FreeCount, ClusterSlots, QuotaOf, Vacancies, Zeros, Geometry.ClusterSize;
    FreshIsMounted(g, d);
    FreshCount(g, d);
    BlankCount(g);
    OneQuota(FreshFs(g), g.root, ClusterSlots(Zeros(g.ClusterSize())));
  }

  /** Mount a freshly formatted volume. */
  method MountFresh(b: Boot, sectors: Sectors) returns (v: Volume)
    requires SoundBoot(b, |sectors|) && WellSized(sectors)
    requires MountGeometry(b).Some? ==>
               && Fits(MountGeometry(b).value, sectors) && CopiesAgree(MountGeometry(b).value, sectors)
               && Fresh(MountGeometry(b).value, View(MountGeometry(b).value, sectors))
    ensures fresh(v) && v.Mounted() && Tidy(v.fs.slots)
    ensures v.Files() == map[v.g.root := Folder(map[])] && v.sectors == sectors
    ensures v.g.total > 0 && SnapOf(v.g, v.disk, v.fs) == FreshSnap(v.g)
  {
    hide Consistent, Fresh, View, CopiesAgree, SnapOf, FreshSnap;
    MountSound(b, |sectors|);
    var g := MountGeometry(b).value;
    FreshIsMounted(g, View(g, sectors));
    FreshIs(g, View(g, sectors));
    v := new Volume(g, sectors, FreshFs(g));
  }

  // ---------------------------------------------------------------- paths

  /** Follow names from `h`. */
  ghost function Follow(m: map<nat, Obj>, h: nat, path: seq<Name>): Option<nat>
    decreases path
  {
    if h !in m then None
    else if path == [] then Some(h)
    else if m[h].Folder? && path[0] in m[h].entries then Follow(m, m[h].entries[path[0]], path[1..])
    else None
  }

  /** The directory at the end of a path. */
  ghost function FolderAt(m: map<nat, Obj>, root: nat, path: seq<Name>): Option<nat>
  {
    var r := Follow(m, root, path);
    if r.Some? && r.value in m && m[r.value].Folder? then r else None
  }

  lemma FolderIsDir(g: Geometry, disk: Disk, f: Fs, h: nat)
    requires Consistent(g, disk, f)
    ensures h in Abs(g, disk, f) <==> h in f.owner.Keys + {g.root}
    ensures h in f.slots ==> h in Abs(g, disk, f) && Abs(g, disk, f)[h] == Folder(DirMap(f.slots[h]))
    ensures h in Abs(g, disk, f) && Abs(g, disk, f)[h].Folder? ==> h in f.slots
  {
    hide Consistent, DirMap, Content;
    HeadFacts(g, disk, f);
    if h in f.owner.Keys + {g.root} { AbsAt(g, disk, f, h); }
  }

  /** Walk a path with lookups, as path resolution does, to a directory. */
  method Resolve(v: Volume, path: seq<Name>) returns (r: Option<nat>)
    requires v.Mounted()
    ensures r == FolderAt(v.Files(), v.g.root, path)
    ensures r.Some? ==> r.value in v.fs.slots
  {
    hide Volume.Valid, Consistent, Abs, DirMap, Owners;
    HeadFacts(v.g, v.disk, v.fs);
    ghost var m := v.Files();
    var h := v.g.root;
    var i := 0;
    FolderIsDir(v.g, v.disk, v.fs, h);
    while i < |path|
      invariant 0 <= i <= |path| && h in v.fs.slots && h in m && m[h].Folder?
      invariant Follow(m, v.g.root, path) == Follow(m, h, path[i..])
    {
      FolderIsDir(v.g, v.disk, v.fs, h);
      var n := Lookup(v, h, path[i]);
      assert path[i..][0] == path[i] && path[i..][1..] == path[i + 1..];
      if n.None? {
        return None;
      }
      FolderIsDir(v.g, v.disk, v.fs, n.value.first);
      if !n.value.isDir {
        FileEnds(m, n.value.first, path[i + 1..]);
        return None;
      }
      h := n.value.first;
      i := i + 1;
      FolderIsDir(v.g, v.disk, v.fs, h);
    }
    assert path[i..] == [];
    r := Some(h);
  }

  /** No path leads through a file to a folder. */
  lemma FileEnds(m: map<nat, Obj>, h: nat, path: seq<Name>)
    requires h in m && m[h].File?
    ensures Follow(m, h, path) == if path == [] then Some(h) else None
  {
  }

  // ---------------------------------------------------------------- runs

  datatype Op =
    | MakeFile(path: seq<Name>, name: Name)
    | MakeDir(path: seq<Name>, name: Name)
    | RemoveFile(path: seq<Name>, name: Name)
    | RemoveDir(path: seq<Name>, name: Name)
    | Store(path: seq<Name>, name: Name, data: seq<byte>, offset: nat)

  /**
   * What one operation does to the file system and to the space.  It is determined by the snapshot
   * before, except for the head a new object gets.
   */
  ghost predicate AbsStep(g: Geometry, s: Snap, op: Op, s': Snap)
  {
    var m := s.files;
    match FolderAt(m, g.root, op.path)
    case None => s' == s
    case Some(d) =>
      && d in m && m[d].Folder?
      && match op
         case MakeFile(_, n) => MakeStep(g, s, d, n, false, s')
         case MakeDir(_, n) => MakeStep(g, s, d, n, true, s')
         case RemoveFile(_, n) => if IsFile(m, d, n) then RemoveStep(s, d, n, m[d].entries[n], s') else s' == s
         case RemoveDir(_, n) => if IsEmptyDir(m, d, n) then RemoveStep(s, d, n, m[d].entries[n], s') else s' == s
         case Store(_, n, data, offset) =>
           if IsFile(m, d, n) && offset <= |m[m[d].entries[n]].bytes| then
             g.ClusterSize() > 0 && StoreStep(s, m[d].entries[n], g.ClusterSize(), data, offset, s')
           else s' == s
  }

  ghost predicate IsFile(m: map<nat, Obj>, d: nat, n: Name)
    requires d in m && m[d].Folder?
  {
    n in m[d].entries && m[d].entries[n] in m && m[m[d].entries[n]].File?
  }

  ghost predicate IsEmptyDir(m: map<nat, Obj>, d: nat, n: Name)
    requires d in m && m[d].Folder?
  {
    n in m[d].entries && m[d].entries[n] in m && m[m[d].entries[n]] == Folder(map[])
  }

  /** The clusters a new name in a folder takes: its own, and one more when no slot of the folder is unused. */
  function Need(s: Snap, d: nat): nat { if UnusedIn(s.quota, d) == 0 then 2 else 1 }

  /** The snapshot with one more name, for an object with head `c`. */
  ghost function Made(g: Geometry, s: Snap, d: nat, n: Name, isDir: bool, c: nat): Snap
    requires d in s.files && s.files[d].Folder? && Need(s, d) <= s.free
  {
    Snap(WithNew(s.files, d, s.files[d].entries, n, c, isDir), s.free - Need(s, d),
         AfterMake(s.quota, d, c, isDir, PerCluster(g)))
  }

  ghost predicate Unknown(s: Snap, c: nat) { c !in s.files && c !in s.quota.lens }

  /** A new name in a folder; nothing for a bad or taken name or too few clusters. */
  ghost predicate MakeStep(g: Geometry, s: Snap, d: nat, n: Name, isDir: bool, s': Snap)
    requires d in s.files && s.files[d].Folder?
  {
    if n in s.files[d].entries || !ValidName(n) || s.free < Need(s, d) then s' == s
    else exists c :: Unknown(s, c) && s' == Made(g, s, d, n, isDir, c)
  }

  /** A name and its object gone, the clusters of the object free and one more slot of the folder unused. */
  ghost predicate RemoveStep(s: Snap, d: nat, n: Name, h: nat, s': Snap)
    requires d in s.files && s.files[d].Folder?
  {
    s' == Snap(Without(s.files, d, s.files[d].entries, n, h), s.free + LenOf(s.quota, h), AfterRemove(s.quota, d, h))
  }

  /**
   * A file overwritten by as much of the data as its own and the free clusters hold; sizes are
   * recorded in 32 bits; it then has the clusters that hold the data, or those it had if they are
   * more, and what it gains is no longer free.
   */
  ghost predicate StoreStep(s: Snap, h: nat, cs: nat, data: seq<byte>, offset: nat, s': Snap)
    requires h in s.files && s.files[h].File? && offset <= |s.files[h].bytes| && cs > 0
  {
    var stock := LenOf(s.quota, h) + s.free;
    var r := Min(|data|, Room(stock, cs, offset));
    var len := FinalLen(LenOf(s.quota, h), cs, offset, r);
    && s'.files == s.files[h := File(Recorded32(Overwritten(s.files[h].bytes, offset, data[..r])))]
    && s'.free == stock - len && s'.quota == Relength(s.quota, h, len)
  }

  /** Two outcomes of an operation differ at most in the head of the object it makes. */
  ghost predicate SameButHead(g: Geometry, s: Snap, op: Op, s1: Snap, s2: Snap)
  {
    s1 != s2 ==>
      && (op.MakeFile? || op.MakeDir?)
      && var d := FolderAt(s.files, g.root, op.path);
      && d.Some? && d.value in s.files && s.files[d.value].Folder? && Need(s, d.value) <= s.free
      && exists c1, c2 ::
           && Unknown(s, c1) && s1 == Made(g, s, d.value, op.name, op.MakeDir?, c1)
           && Unknown(s, c2) && s2 == Made(g, s, d.value, op.name, op.MakeDir?, c2)
  }

  /** The snapshot before decides the snapshot after, up to the head of a new object. */
  lemma Determined(g: Geometry, s: Snap, op: Op, s1: Snap, s2: Snap)
    requires AbsStep(g, s, op, s1) && AbsStep(g, s, op, s2)
    ensures SameButHead(g, s, op, s1, s2)
  {
    hide FolderAt, Without, WithNew, AfterMake, AfterRemove, Need, Room, FinalLen, Overwritten, Made, Unknown, ValidName;
  }

  /** Names are C strings, and a name to create does not start with the deleted mark. */
  predicate SaneOp(op: Op)
  {
    IsCString(op.name) && (op.MakeFile? || op.MakeDir? ==> op.name == [] || op.name[0] != DELETED)
  }

  predicate CanonicalOp(op: Op) { op.MakeFile? || op.MakeDir? ==> Canonical(op.name) }

  /** One operation kept the volume mounted and, for canonical names, did what it should. */
  twostate predicate Good(v: Volume, op: Op)
    reads v
    requires old(v.Mounted())
  {
    && v.Mounted()
    && (old(Tidy(v.fs.slots)) && CanonicalOp(op) ==>
          Tidy(v.fs.slots)
          && AbsStep(v.g, SnapOf(v.g, old(v.disk), old(v.fs)), op, SnapOf(v.g, v.disk, v.fs)))
  }

  method DoMake(v: Volume, op: Op)
    requires v.Mounted() && SaneOp(op) && (op.MakeFile? || op.MakeDir?)
    modifies v
    ensures Good(v, op)
  {
    hide Volume.Valid, Consistent, Abs, DirMap, Tidy, Canonical, WithNew, NoLeak, Full, ValidName, FolderAt, FreeCount, AllLive;
    hide QuotaOf, AfterMake, Growth;
    ghost var m := v.Files();
    ghost var s0 := SnapOf(v.g, v.disk, v.fs);
    var d := Resolve(v, op.path);
    if d.None? {
      return;
    }
    FolderIsDir(v.g, v.disk, v.fs, d.value);
    HeadFacts(v.g, v.disk, v.fs);
    ghost var f0 := v.fs;
    var rc;
    ghost var made;
    FullIs(v.g, v.disk.fat, v.fs.slots[d.value]);
    GrowthIs(v.fs, d.value);
    KnownIs(v.fs);
    rc, made := Create(v, d.value, op.name, op.MakeDir?);
    if rc == 0 {
      NameNotEmpty(op.name);
      if CanonicalOp(op) {
        assert Unknown(s0, made);
        assert SnapOf(v.g, v.disk, v.fs) == Made(v.g, s0, d.value, op.name, op.MakeDir?, made);
        assert MakeStep(v.g, s0, d.value, op.name, op.MakeDir?, SnapOf(v.g, v.disk, v.fs));
      }
    } else {
      assert SnapOf(v.g, v.disk, v.fs) == s0;
    }
  }

  lemma GrowthIs(f: Fs, d: nat)
    requires d in f.slots
    ensures Growth(f.slots[d]) == if UnusedIn(QuotaOf(f), d) == 0 then 1 else 0
  {
    hide AllLive;
    UnusedNone(f.slots[d]);
  }

  /** What the quota says of the chains. */
  lemma KnownIs(f: Fs)
    ensures QuotaOf(f).lens.Keys == f.chains.Keys
    ensures forall h :: h in f.chains ==> LenOf(QuotaOf(f), h) == |f.chains[h]|
  {
  }

  lemma NameNotEmpty(n: Name)
    ensures ValidName(n) ==> n != []
  {
  }

  method DoRemoveFile(v: Volume, op: Op)
    requires v.Mounted() && SaneOp(op) && op.RemoveFile?
    modifies v
    ensures Good(v, op)
  {
    hide Volume.Valid, Consistent, Abs, DirMap, Tidy, Without, NoLeak, FolderAt, FreeCount, QuotaOf, AfterRemove, IsFile, IsEmptyDir, FileNamed, EmptyDirNamed;
    var d := Resolve(v, op.path);
    if d.None? {
      return;
    }
    FolderIsDir(v.g, v.disk, v.fs, d.value);
    NamedKinds(v.g, v.disk, v.fs, d.value, op.name);
    KnownIs(v.fs);
    var rc := Unlink(v, d.value, op.name);
  }

  method DoRemoveDir(v: Volume, op: Op)
    requires v.Mounted() && SaneOp(op) && op.RemoveDir?
    modifies v
    ensures Good(v, op)
  {
    hide Volume.Valid, Consistent, Abs, DirMap, Tidy, Without, NoLeak, FolderAt, FreeCount, QuotaOf, AfterRemove, IsFile, IsEmptyDir, FileNamed, EmptyDirNamed;
    var d := Resolve(v, op.path);
    if d.None? {
      return;
    }
    FolderIsDir(v.g, v.disk, v.fs, d.value);
    NamedKinds(v.g, v.disk, v.fs, d.value, op.name);
    KnownIs(v.fs);
    var rc := Rmdir(v, d.value, op.name);
  }

  /** Every entry leads to an object. */
  lemma EntryIsObj(g: Geometry, disk: Disk, f: Fs, d: nat, n: Name)
    requires Consistent(g, disk, f) && d in f.slots && n in DirMap(f.slots[d])
    ensures DirMap(f.slots[d])[n] in f.owner
  {
    hide DirMap, SlotFirst, SlotName, ChainLinks, Spots, SlotBytes, Sizes, Tails, Owners;
    MapAt(f.slots[d], n);
    EntryAt(f, d, Find(f.slots[d], n));
  }

  /** What a name is, on the disk and in the file system. */
  lemma NamedKinds(g: Geometry, disk: Disk, f: Fs, d: nat, n: Name)
    requires Consistent(g, disk, f) && d in f.slots
    ensures var m := Abs(g, disk, f);
            && d in m && m[d] == Folder(DirMap(f.slots[d]))
            && (IsFile(m, d, n) <==> FileNamed(f, d, n)) && (IsEmptyDir(m, d, n) <==> EmptyDirNamed(f, d, n))
  {
    hide Consistent, DirMap, Abs;
    FolderIsDir(g, disk, f, d);
    if n in DirMap(f.slots[d]) {
      EntryIsObj(g, disk, f, d, n);
      FolderIsDir(g, disk, f, DirMap(f.slots[d])[n]);
    }
  }

  /** A node fresh from lookup opens the file its slot records. */
  lemma NodeOpens(g: Geometry, disk: Disk, f: Fs, d: nat, name: Name, n: Node)
    requires Consistent(g, disk, f) && NodeOk(g, f, n) && !n.isDir && d in f.slots
    requires Answers(f, d, name, n)
    ensures OpenFile(g, f, n) && n.size < 0x1_0000_0000
    ensures n.first in Abs(g, disk, f) && Abs(g, disk, f)[n.first] == File(NodeBytes(disk, f, n))
  {
    hide Consistent, Content, ChainBytes, DirMap, SlotFirst;
    HeadFacts(g, disk, f);
    ContentIs(g, disk, f, n.first);
    AbsAt(g, disk, f, n.first);
    FileSizeBound(f, n.first);
  }

  lemma FileSizeBound(f: Fs, h: nat)
    requires Owners(f.slots, f.owner) && h in f.owner
    ensures FileSize(f.slots, f.owner, h) < 0x1_0000_0000
  {
    OwnerAt(f.slots, f.owner, h);
  }

  method DoStore(v: Volume, op: Op)
    requires v.Mounted() && SaneOp(op) && op.Store?
    modifies v
    ensures Good(v, op)
  {
    hide Volume.Valid, Consistent, Abs, DirMap, Tidy, NoLeak, FolderAt, NodeOk, NodeBytes, Whole, Stored, Overwritten, SafeSince, NoneFree, FreeCount, QuotaOf, FinalLen, Room, SizeBacked, Stock;
    var d := Resolve(v, op.path);
    if d.None? {
      return;
    }
    FolderIsDir(v.g, v.disk, v.fs, d.value);
    var node := Lookup(v, d.value, op.name);
    NamedKinds(v.g, v.disk, v.fs, d.value, op.name);
    if node.Some? {
      NodeKind(v.g, v.fs, node.value);
    }
    if node.Some? && !node.value.isDir {
      NodeOpens(v.g, v.disk, v.fs, d.value, op.name, node.value);
      NodeIsPrefix(v.g, v.disk, v.fs, node.value);
    }
    if node.None? || node.value.isDir || op.offset > node.value.size {
      return;
    }
    StoreAt(v, node.value, op.data, op.offset);
  }

  /** Write to an open file at or below its end. */
  method StoreAt(v: Volume, n: Node, data: seq<byte>, offset: nat)
    requires v.Mounted() && OpenFile(v.g, v.fs, n) && offset <= n.size < 0x1_0000_0000
    requires n.first in v.Files() && v.Files()[n.first] == File(NodeBytes(v.disk, v.fs, n)) && |NodeBytes(v.disk, v.fs, n)| == n.size
    modifies v
    ensures v.Mounted() && (Tidy(old(v.fs).slots) ==> Tidy(v.fs.slots)) && v.g.ClusterSize() > 0
    ensures StoreStep(SnapOf(v.g, old(v.disk), old(v.fs)), n.first, v.g.ClusterSize(), data, offset, SnapOf(v.g, v.disk, v.fs))
  {
    hide Volume.Valid, Consistent, Abs, Tidy, NoLeak, NodeOk, NodeBytes, Whole, Stored, Overwritten, SafeSince, NoneFree, Room, SizeBacked, Stock, SnapOf, StoreStep, FinalLen, QuotaOf, FreeCount;
    ghost var was := Whole(v.disk, v.fs, n.first);
    ghost var disk0, f0 := v.disk, v.fs;
    NodeIsPrefix(v.g, v.disk, v.fs, n);
    StockIs(v.g, disk0, f0, n.first);
    var r, n' := Write(v, n, data, offset);
    StoredIsOverwritten(was, Whole(v.disk, v.fs, n.first), n.size, offset, data[..r]);
    StockIs(v.g, v.disk, v.fs, n.first);
    StoredStep(SnapOf(v.g, disk0, f0), n.first, v.g.ClusterSize(), data, offset, r, Whole(v.disk, v.fs, n.first), SnapOf(v.g, v.disk, v.fs), n'.size);
  }

  lemma NodeKind(g: Geometry, f: Fs, n: Node)
    requires NodeOk(g, f, n)
    ensures n.isDir <==> n.first in f.slots
  {
  }

  lemma NodeIsPrefix(g: Geometry, disk: Disk, f: Fs, n: Node)
    requires Consistent(g, disk, f) && OpenFile(g, f, n)
    ensures n.size <= |Whole(disk, f, n.first)|
    ensures NodeBytes(disk, f, n) == Whole(disk, f, n.first)[..n.size]
  {
    hide Consistent, ChainBytes;
    NodeFits(g, disk, f, n);
  }

  /** The clusters a file has and could get, in the snapshot. */
  lemma StockIs(g: Geometry, disk: Disk, f: Fs, h: nat)
    ensures var s := SnapOf(g, disk, f);
            && s.files == Abs(g, disk, f) && s.quota == QuotaOf(f)
            && (h in f.chains ==>
                  Stock(g, disk.fat, f, h) == LenOf(s.quota, h) + s.free && LenOf(s.quota, h) == |f.chains[h]|)
  {
    hide Abs, Vacancies, FreeCount;
  }

  lemma StoredStep(s: Snap, h: nat, cs: nat, data: seq<byte>, offset: nat, r: nat, all: seq<byte>, s': Snap, size: nat)
    requires h in s.files && s.files[h].File? && offset <= |s.files[h].bytes| && size <= |all| && cs > 0
    requires r == Min(|data|, Room(LenOf(s.quota, h) + s.free, cs, offset))
    requires s'.free + LenOf(s'.quota, h) == s.free + LenOf(s.quota, h)
    requires LenOf(s'.quota, h) == FinalLen(LenOf(s.quota, h), cs, offset, r)
    requires s'.quota == Relength(s.quota, h, LenOf(s'.quota, h))
    requires all[..size] == Overwritten(s.files[h].bytes, offset, data[..r])
    requires s'.files == s.files[h := File(all[..size % 0x1_0000_0000])]
    ensures StoreStep(s, h, cs, data, offset, s')
  {
    hide Overwritten, Room, FinalLen;
    var b := Overwritten(s.files[h].bytes, offset, data[..r]);
    assert b[..|b| % 0x1_0000_0000] == all[..size % 0x1_0000_0000];
  }

  method Step(v: Volume, op: Op)
    requires v.Mounted() && SaneOp(op)
    modifies v
    ensures Good(v, op)
  {
    hide Volume.Valid, Consistent, Abs, Tidy, NoLeak, AbsStep, FreeCount, QuotaOf;
    match op {
      case MakeFile(_, _) => DoMake(v, op);
      case MakeDir(_, _) => DoMake(v, op);
      case RemoveFile(_, _) => DoRemoveFile(v, op);
      case RemoveDir(_, _) => DoRemoveDir(v, op);
      case Store(_, _, _, _) => DoStore(v, op);
    }
  }

  /** A run of the abstract file system. */
  ghost predicate AbsRun(g: Geometry, ops: seq<Op>, states: seq<Snap>)
  {
    && |states| == |ops| + 1
    && forall i :: 0 <= i < |ops| ==> AbsStep(g, states[i], ops[i], states[i + 1])
  }

  /**
   * Every run keeps the volume consistent with nothing leaked, and a run that creates only
   * canonical names is a run of the abstract file system from what the volume held to what it holds.
   */
  method Run(v: Volume, ops: seq<Op>) returns (ghost states: seq<Snap>)
    requires v.Mounted() && forall i :: 0 <= i < |ops| ==> SaneOp(ops[i])
    modifies v
    ensures v.Mounted() && |states| == |ops| + 1
    ensures states[0] == SnapOf(v.g, old(v.disk), old(v.fs)) && states[|ops|] == SnapOf(v.g, v.disk, v.fs)
    ensures Tidy(old(v.fs).slots) && (forall i :: 0 <= i < |ops| ==> CanonicalOp(ops[i])) ==>
              Tidy(v.fs.slots) && AbsRun(v.g, ops, states)
  {
    hide Volume.Valid, Consistent, Tidy, NoLeak, AbsStep, SnapOf;
    states := [SnapOf(v.g, v.disk, v.fs)];
    ghost var canonical := Tidy(v.fs.slots) && forall i :: 0 <= i < |ops| ==> CanonicalOp(ops[i]);
    for i := 0 to |ops|
      invariant v.Mounted() && |states| == i + 1
      invariant states[0] == SnapOf(v.g, old(v.disk), old(v.fs)) && states[i] == SnapOf(v.g, v.disk, v.fs)
      invariant canonical ==> Tidy(v.fs.slots)
      invariant canonical ==> forall k :: 0 <= k < i ==> AbsStep(v.g, states[k], ops[k], states[k + 1])
    {
      Step(v, ops[i]);
      states := states + [SnapOf(v.g, v.disk, v.fs)];
    }
  }
}
