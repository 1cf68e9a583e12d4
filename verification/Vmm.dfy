/** The virtual memory manager: page tables in frames taken from the page allocator. */
module Vmm {
  import opened P = Pmm
  import opened FrameReach
  import opened PageWalk

  /** The tables that boot.s builds. */
  function BootTables(k: Boot): Tables
  {
    Stored(Stored(Stored(Stored(
      map[k.p4 := Blank(), k.p3 := Blank(), k.p2 := seq(512, i requires i >= 0 => i * 0x20_0000 + 0x83)],
      k.p4, 0, k.p3 * 4096 + 3), k.p4, 511, k.p3 * 4096 + 3),
      k.p3, 0, k.p2 * 4096 + 3), k.p3, 510, k.p2 * 4096 + 3)
  }

  ghost predicate BootFrames(k: Boot)
  {
    k.p4 != 0 && k.p3 != 0 && k.p2 != 0 && k.p4 != k.p3 && k.p4 != k.p2 && k.p3 != k.p2
  }

  ghost function BootHomes(k: Boot): Homes
  {
    map[k.p4 := Top, k.p3 := Level3(0), k.p2 := Level2(0, 0)]
  }

  lemma BootShape(k: Boot)
    requires BootFrames(k)
    ensures Shape(k, BootTables(k), BootHomes(k)) && BootTables(k).Keys == {k.p4, k.p3, k.p2}
  {
    LinkPlain(k.p3, k.p3 * 4096 + 3);
    LinkPlain(k.p2, k.p2 * 4096 + 3);
  }

  // ---- The window --------------------------------------------------------------------------

  /** The path of page `k` of the window at 0xFFFFFFFFC0000000. */
  function WindowPath(k: nat): Path
  {
    Path(511, 511, k / 512, k % 512)
  }

  function WindowPage(virt: nat): nat
  {
    if virt < 0xFFFF_FFFF_C000_0000 then 0 else (virt - 0xFFFF_FFFF_C000_0000) / 4096
  }

  lemma InWindow(virt: nat)
    requires 0xFFFF_FFFF_C000_0000 <= virt < 0x1_0000_0000_0000_0000
    ensures PathOf(virt) == WindowPath(WindowPage(virt)) && !AtBoot(PathOf(virt)) && WindowPage(virt) < 262144
  {
    var x: nat := virt - 0xFFFF_FFFF_C000_0000;
    assert virt / 0x1000 == 0xF_FFFF_FFFC_0000 + x / 0x1000;
    assert virt / 0x20_0000 == 0x7FF_FFFF_FE00 + x / 0x20_0000;
    assert virt / 0x4000_0000 == 0x3_FFFF_FFFF;
    assert virt / 0x80_0000_0000 == 0x1FF_FFFF;
    assert x / 0x20_0000 == x / 0x1000 / 512;
  }

  lemma WindowApart(j: nat, k: nat)
    ensures Same(WindowPath(j), WindowPath(k)) <==> j == k
  {
  }

  /** The kernel reaches a frame through its fixed offset exactly when it lies in the first gigabyte. */
  lemma DirectMap(frame: nat)
    requires frame < 1048576
    ensures var virt := (frame * 4096 + 0xFFFF_FFFF_8000_0000) % 0x1_0000_0000_0000_0000;
            AtBoot(PathOf(virt)) && virt % 0x4000_0000 == frame * 4096 <==> frame < 262144
  {
    var sum := frame * 4096 + 0xFFFF_FFFF_8000_0000;
    if frame < 262144 {
      assert sum % 0x1_0000_0000_0000_0000 == sum;
      assert sum / 0x4000_0000 == 0x3_FFFF_FFFE;
      assert sum / 0x80_0000_0000 == 0x1FF_FFFF;
    } else {
      assert (sum % 0x1_0000_0000_0000_0000) % 0x4000_0000 < 0x4000_0000 <= frame * 4096;
    }
  }

  // ---- Tables and frames -------------------------------------------------------------------

  /** The tables missing on the way from a directory, from a level-3 table, from the top. */
  ghost function MissingPt(tables: Tables, y: nat, c: nat): nat
  {
    if Down(tables, y, c) == 0 then 1 else 0
  }

  ghost function MissingDir(tables: Tables, x: nat, b: nat, c: nat): nat
  {
    if Down(tables, x, b) == 0 then 2 else MissingPt(tables, Down(tables, x, b), c)
  }

  ghost function Missing(tables: Tables, root: nat, p: Path): nat
  {
    if Down(tables, root, p.a) == 0 then 3 else MissingDir(tables, Down(tables, root, p.a), p.b, p.c)
  }

  lemma StillDown(tables: Tables, tables': Tables, t: nat, i: nat)
    requires Extends(tables, tables') && Down(tables, t, i) != 0
    ensures Down(tables', t, i) == Down(tables, t, i)
  {
  }

  /** The directory on a path; 0 for none. */
  function Dir(tables: Tables, root: nat, p: Path): nat
  {
    Down(tables, Down(tables, root, p.a), p.b)
  }

  /** The page tables of the same directory, but for the one on the path, are as before. */
  ghost predicate Beside(root: nat, tables: Tables, tables': Tables, p: Path)
  {
    forall q: Path :: q.a == p.a && q.b == p.b && q.c != p.c ==> Pt(tables', root, q) == Pt(tables, root, q)
  }

  /** How many of the page tables `lo` to `hi` of the window are missing. */
  function Absent(tables: Tables, root: nat, lo: nat, hi: nat): nat
    decreases hi - lo
  {
    if lo >= hi then 0 else (if Pt(tables, root, WindowPath(512 * lo)) == 0 then 1 else 0) + Absent(tables, root, lo + 1, hi)
  }

  /** The tables missing for `pages` pages of the window from page `n` on: a directory and page tables. */
  function Needed(tables: Tables, root: nat, n: nat, pages: nat): nat
  {
    if pages == 0 then 0 else
      (if Dir(tables, root, WindowPath(n)) == 0 then 1 else 0) + Absent(tables, root, n / 512, (n + pages + 511) / 512)
  }

  lemma {:induction false} AbsentAtMost(tables: Tables, root: nat, lo: nat, hi: nat)
    ensures Absent(tables, root, lo, hi) <= if lo < hi then hi - lo else 0
    decreases hi - lo
  {
    hide Pt;
    if lo < hi { AbsentAtMost(tables, root, lo + 1, hi); }
  }

  /** At most the directory and every page table of the range. */
  lemma NeededAtMost(tables: Tables, root: nat, n: nat, pages: nat)
    ensures pages > 0 ==> Needed(tables, root, n, pages) <= 1 + (n + pages + 511) / 512 - n / 512
  {
    hide Pt, Dir;
    AbsentAtMost(tables, root, n / 512, (n + pages + 511) / 512);
  }

  lemma {:induction false} AbsentSame(tables: Tables, tables': Tables, root: nat, p: Path, lo: nat, hi: nat)
    requires p.a == 511 && p.b == 511 && Beside(root, tables, tables', p) && p.c < lo
    ensures Absent(tables', root, lo, hi) == Absent(tables, root, lo, hi)
    decreases hi - lo
  {
    hide Pt;
    if lo < hi {
      assert WindowPath(512 * lo).c == lo;
      AbsentSame(tables, tables', root, p, lo + 1, hi);
    }
  }

  /** What a page of the window misses: the directory, the page table, or none. */
  lemma MissingIs(k: Boot, tables: Tables, homes: Homes, j: nat)
    requires Shape(k, tables, homes)
    ensures Missing(tables, k.p4, WindowPath(j)) ==
            (if Dir(tables, k.p4, WindowPath(j)) == 0 then 1 else 0) + if Pt(tables, k.p4, WindowPath(j)) == 0 then 1 else 0
    ensures Dir(tables, k.p4, WindowPath(j)) == 0 ==> Pt(tables, k.p4, WindowPath(j)) == 0
  {
    hide SlotsOk;
    LinkPlain(k.p3, tables[k.p4][511]);
    assert Down(tables, k.p4, 511) == k.p3;
  }

  /** Page `j` mapped: its missing tables are there, and those of the other pages are missing as before. */
  lemma NeededNext(k: Boot, tables: Tables, homes: Homes, tables': Tables, homes': Homes, j: nat, m: nat)
    requires Shape(k, tables, homes) && Shape(k, tables', homes') && m > 0
    requires Beside(k.p4, tables, tables', WindowPath(j)) && Pt(tables', k.p4, WindowPath(j)) != 0
    ensures Needed(tables, k.p4, j, m) == Missing(tables, k.p4, WindowPath(j)) + Needed(tables', k.p4, j + 1, m - 1)
  {
    hide Shape, Pt, Dir, Missing, Beside;
    MissingIs(k, tables, homes, j);
    MissingIs(k, tables', homes', j);
    var c, hi := j / 512, (j + m + 511) / 512;
    GroupPt(tables, k.p4, j);
    GroupPt(tables', k.p4, j);
    AbsentSame(tables, tables', k.p4, WindowPath(j), c + 1, hi);
    OneDir(tables', k.p4, j);
    GroupOf(j, m);
  }

  lemma MissingNeeded(k: Boot, tables: Tables, homes: Homes, j: nat, m: nat)
    requires Shape(k, tables, homes) && m > 0
    ensures Missing(tables, k.p4, WindowPath(j)) <= Needed(tables, k.p4, j, m)
  {
    hide Shape, Pt, Dir, Missing;
    MissingIs(k, tables, homes, j);
    GroupPt(tables, k.p4, j);
    GroupOf(j, m);
  }

  lemma GroupPt(tables: Tables, root: nat, j: nat)
    ensures Pt(tables, root, WindowPath(512 * (j / 512))) == Pt(tables, root, WindowPath(j))
  {
    hide Down;
    assert 512 * (j / 512) / 512 == j / 512;
  }

  lemma OneDir(tables: Tables, root: nat, j: nat)
    ensures Dir(tables, root, WindowPath(j + 1)) == Dir(tables, root, WindowPath(j))
  {
  }

  lemma GroupOf(j: nat, m: nat)
    requires m > 0
    ensures j / 512 < (j + m + 511) / 512 && (m == 1 ==> (j + m + 511) / 512 == j / 512 + 1)
    ensures (j + 1) / 512 == j / 512 || (j + 1) / 512 == j / 512 + 1
  {
  }

  lemma PageAfter(next: nat, i: nat)
    requires 0xFFFF_FFFF_C000_0000 <= next
    ensures WindowPage(next + i * 4096) == WindowPage(next) + i
  {
  }

  lemma StoredPt(k: Boot, tables: Tables, homes: Homes, p: Path, e: nat)
    requires Shape(k, tables, homes) && Pt(tables, k.p4, p) != 0 && p.d < 512
    ensures Pt(Stored(tables, Pt(tables, k.p4, p), p.d, e), k.p4, p) == Pt(tables, k.p4, p)
  {
    PtHome(k, tables, homes, p);
    StorePt(k, tables, homes, Pt(tables, k.p4, p), p.d, e, p);
  }

  lemma StoredBeside(k: Boot, tables0: Tables, tables: Tables, homes: Homes, p: Path, e: nat)
    requires Shape(k, tables, homes) && Pt(tables, k.p4, p) != 0 && p.d < 512 && Beside(k.p4, tables0, tables, p)
    ensures Beside(k.p4, tables0, Stored(tables, Pt(tables, k.p4, p), p.d, e), p)
  {
    hide Pt, Shape;
    PtHome(k, tables, homes, p);
    forall q: Path | q.a == p.a && q.b == p.b && q.c != p.c
      ensures Pt(Stored(tables, Pt(tables, k.p4, p), p.d, e), k.p4, q) == Pt(tables0, k.p4, q)
    {
      StorePt(k, tables, homes, Pt(tables, k.p4, p), p.d, e, q);
    }
  }

  lemma OnlyTablesNone(used: set<nat>, keys: set<nat>)
    requires keys <= used
    ensures OnlyTables(used, keys, used, keys)
  {
  }

  /** Between two states only table frames were taken. */
  ghost predicate OnlyTables(used0: set<nat>, keys0: set<nat>, used: set<nat>, keys: set<nat>)
  {
    keys0 <= keys && used == used0 + keys && keys * used0 == keys0
  }

  lemma OnlyTablesTwice(used0: set<nat>, keys0: set<nat>, used1: set<nat>, keys1: set<nat>, used2: set<nat>, keys2: set<nat>)
    requires OnlyTables(used0, keys0, used1, keys1) && OnlyTables(used1, keys1, used2, keys2)
    ensures OnlyTables(used0, keys0, used2, keys2)
  {
    assert keys2 * used0 == keys2 * used1 * used0;
  }

  ghost predicate HomesKept(homes: Homes, homes': Homes)
  {
    forall t :: t in homes ==> t in homes' && homes'[t] == homes[t]
  }

  /** Below page `n` of the window exactly the pages of `data` are mapped, each to its frame. */
  ghost predicate Mapped(tables: Tables, p4: nat, n: nat, data: map<nat, nat>)
  {
    && (forall k :: k in data ==> k < n)
    && forall k: nat :: k < n ==> PageIs(Entry(tables, p4, WindowPath(k)), k, data)
  }

  ghost predicate PageIs(e: nat, k: nat, data: map<nat, nat>)
  {
    if k in data then Present(e) && e / 4096 == data[k] else e == 0
  }

  ghost predicate Injective(data: map<nat, nat>)
  {
    forall j, k :: j in data && k in data && data[j] == data[k] ==> j == k
  }

  /** Used frames are reserved frames, tables and data frames, and these are apart. */
  ghost predicate Frames(k: Boot, total: nat, reserved: set<nat>, keys: set<nat>, data: map<nat, nat>, used: set<nat>)
  {
    && used == reserved + keys + data.Values && keys * reserved == {k.p4, k.p3, k.p2} <= keys
    && 0 in reserved && Injective(data) && data.Values !! reserved && data.Values !! keys
    && forall f :: f in data.Values ==> f < total
  }

  /** All these frames lie in the first gigabyte. */
  ghost predicate Reached(keys: set<nat>)
  {
    forall t :: t in keys ==> t < 262144
  }

  /** What an entry says, bit by bit: present, the flags, the address from bit 12 on. */
  ghost predicate EntryBits(e: nat, phys: nat, flags: nat)
  {
    && (forall k: nat :: HasBit(e, k) <==> k == 0 || HasBit(flags, k) || (k >= 12 && HasBit(phys, k)))
    && (flags < 4096 ==> e == phys - phys % 4096 + flags + 1 - flags % 2)
  }

  lemma PteIs(phys: nat, flags: nat)
    ensures EntryBits(Pte(phys, flags), phys, flags)
  {
    hide Pte, HasBit;
    forall k: nat
      ensures HasBit(Pte(phys, flags), k) <==> k == 0 || HasBit(flags, k) || (k >= 12 && HasBit(phys, k))
    {
      PteBits(phys, flags, k);
    }
    if flags < 4096 {
      PteValue(phys, flags);
    }
  }

  lemma ChangedEntry(p4: nat, tables: Tables, tables': Tables, p: Path, e: nat)
    requires OneChanged(p4, tables, tables', p, e)
    ensures Entry(tables', p4, p) == e
  {
    hide Entry;
    assert Same(p, p);
  }

  /** The entry of a present page with these flags: bit 1 is the write bit. */
  function Leaf(frame: nat, flags: nat): nat { 4096 * frame + flags + 1 - flags % 2 }

  predicate Writable(e: nat) { e / 2 % 2 == 1 }

  lemma LeafIs(frame: nat, flags: nat)
    requires flags < 4096
    ensures var e := Leaf(frame, flags);
            Present(e) && e / 4096 == frame && e % 4096 == flags + 1 - flags % 2 && (Writable(e) <==> Writable(flags))
  {
    var low: nat := flags + 1 - flags % 2;
    assert low < 4096 && low / 2 == flags / 2;
    assert Leaf(frame, flags) / 2 == 2048 * frame + flags / 2;
  }

  /** Pages `n` to `n + i` of the window have leaf entries for consecutive frames; the others are as before. */
  ghost predicate Filled(tables0: Tables, tables: Tables, p4: nat, n: nat, s: nat, i: nat, flags: nat)
  {
    forall k: nat :: Entry(tables, p4, WindowPath(k)) ==
      if n <= k < n + i then Leaf(s + (k - n), flags) else Entry(tables0, p4, WindowPath(k))
  }

  lemma PlacedFilled(tables0: Tables, tables: Tables, p4: nat, n: nat, s: nat, i: nat, flags: nat)
    requires Placed(tables0, tables, p4, n, s, i, flags) && flags < 4096
    ensures Filled(tables0, tables, p4, n, s, i, flags)
  {
    hide Entry, Pte, WindowPath;
    forall k: nat
      ensures Entry(tables, p4, WindowPath(k)) ==
              if n <= k < n + i then Leaf(s + (k - n), flags) else Entry(tables0, p4, WindowPath(k))
    {
      if n <= k < n + i {
        PteValue(s * 4096 + (k - n) * 4096, flags);
        assert s * 4096 + (k - n) * 4096 == 4096 * (s + (k - n));
      }
    }
  }

  /** Once the lowest run of pages was taken, the next `m` tables lie in the first gigabyte. */
  ghost predicate ReachedAfter(used: set<nat>, total: nat, pages: nat, m: nat)
  {
    forall r: nat :: Lowest(used, total, pages, r) ==> Served(used + Range(r, pages), total, m)
  }

  lemma ReachedAt(used: set<nat>, total: nat, pages: nat, m: nat, r: nat)
    requires ReachedAfter(used, total, pages, m) && Lowest(used, total, pages, r)
    ensures Served(used + Range(r, pages), total, m) && FreeRun(used, r, pages) && r + pages <= total
  {
    hide Served, Range, FreeRun;
  }

  class Vmm {
    const boot: Boot
    const pmm: Pmm
    var tables: Tables
    var next: nat
    ghost var homes: Homes
    ghost var data: map<nat, nat>
    ghost const reserved: set<nat>

    ghost predicate Valid()
      reads this, pmm, pmm.bitmap
    {
      && pmm.Valid() && 0 in pmm.used
      && Shape(boot, tables, homes) && tables.Keys <= pmm.used && Reached(tables.Keys)
    }

    /** Every mapping below `next` belongs to one data frame, and every used frame is accounted for. */
    ghost predicate Owned()
      reads this, pmm, pmm.bitmap
    {
      && Valid() && 0xFFFF_FFFF_C000_0000 <= next < 0x1_0000_0000_0000_0000 && next % 4096 == 0
      && Mapped(tables, boot.p4, WindowPage(next), data)
      && Frames(boot, pmm.totalPages, reserved, tables.Keys, data, pmm.used)
    }

    /** The state after boot: the kernel's pages are reserved and hold the boot tables. */
    constructor (k: Boot, allocator: Pmm)
      requires allocator.Valid() && BootFrames(k) && {0, k.p4, k.p3, k.p2} <= allocator.used
      requires Reached({k.p4, k.p3, k.p2})
      ensures Owned() && pmm == allocator && boot == k && data == map[] && reserved == pmm.used
      ensures tables == BootTables(k) && next == 0xFFFF_FFFF_C000_0000
    {
      hide Pmm.Valid, BootTables, BootHomes, BootFrames, Shape, Mapped, Frames, Reached;
      boot, pmm, next := k, allocator, 0xFFFF_FFFF_C000_0000;
      tables, homes := BootTables(k), BootHomes(k);
      data, reserved := map[], allocator.used;
      BootShape(k);
      BootFramesOwned(k, BootTables(k), allocator.totalPages, allocator.used);
    }

    /**
     * The step from one table to the next that `get_pte` takes three times.  A new table is one the
     * kernel can reach, and `spare` more are.
     */
    method Descend(t: nat, i: nat, create: bool, ghost spare: nat) returns (u: nat)
      requires Valid() && t in tables && t != boot.p2 && !homes[t].Level1? && i < 512
      requires create ==> Served(pmm.used, pmm.totalPages, if Down(tables, t, i) == 0 then spare + 1 else spare)
      modifies `tables, `homes, pmm, pmm.bitmap
      ensures Valid() && pmm.totalPages == old(pmm.totalPages) && HomesKept(old(homes), homes)
      ensures SameMap(boot.p4, old(tables), tables) && Extends(old(tables), tables)
      ensures OnlyTables(old(pmm.used), old(tables).Keys, pmm.used, tables.Keys)
      ensures u == Down(tables, t, i) && (u != 0 ==> u in tables && homes[u] == Below(homes[t], i))
      ensures !create || u == 0 || Down(old(tables), t, i) != 0 ==>
                tables == old(tables) && homes == old(homes) && pmm.used == old(pmm.used)
      ensures u != 0 && Down(old(tables), t, i) == 0 ==> forall j :: Down(tables, u, j) == 0
      ensures forall j: nat :: j != i ==> Down(tables, t, j) == Down(old(tables), t, j)
      ensures create && u == 0 ==> NoRun(pmm.used, pmm.totalPages, 1)
      ensures create && u != 0 ==> Served(pmm.used, pmm.totalPages, spare)
    {
      hide Pmm.Valid, Shape, NoRun, Lowest, Served, Down, Extends, SameMap, OnlyTables, HomesKept, BitOr, Grown, Stored, Blank, Below;
      NoneBelow(boot, tables, homes);
      StayFacts(tables, homes, boot.p4, pmm.used);
      SlotFacts(boot, tables, homes, t, i);
      if !Present(tables[t][i]) {
        if !create {
          return 0;
        }
        var page := pmm.Alloc();
        if page == 0 {
          return 0;
        }
        OrOffset(page, 3);
        u := page / 4096;
        ServedNext(old(pmm.used), pmm.totalPages, spare, u);
        GrowFacts(boot, tables, homes, t, i, u, old(pmm.used));
        GrownIs(tables, t, i, u, BitOr(page, 3));
        homes := homes[u := Below(homes[t], i)];
        tables := tables[u := Blank()];
        tables := Stored(tables, t, i, BitOr(page, 3));
        return;
      }
      u := tables[t][i] / 4096;
    }

    /** The first two steps of `get_pte`, down to the page directory. */
    method Directory(virt: nat, create: bool, ghost spare: nat) returns (y: nat)
      requires Valid() && !AtBoot(PathOf(virt))
      requires create ==> Served(pmm.used, pmm.totalPages, Missing(tables, boot.p4, PathOf(virt)) + spare)
      modifies `tables, `homes, pmm, pmm.bitmap
      ensures Valid() && pmm.totalPages == old(pmm.totalPages)
      ensures SameMap(boot.p4, old(tables), tables)
      ensures OnlyTables(old(pmm.used), old(tables).Keys, pmm.used, tables.Keys)
      ensures y == Down(tables, Down(tables, boot.p4, PathOf(virt).a), PathOf(virt).b)
      ensures y != 0 ==> y in tables && y in homes && homes[y].Level2? && y != boot.p2
      ensures !create ==> tables == old(tables) && homes == old(homes) && pmm.used == old(pmm.used)
      ensures create && y == 0 ==> NoRun(pmm.used, pmm.totalPages, 1)
      ensures create && y != 0 ==> Served(pmm.used, pmm.totalPages, MissingPt(tables, y, PathOf(virt).c) + spare)
      ensures y != 0 ==> forall c: nat :: Down(tables, y, c) == Down(old(tables), Dir(old(tables), boot.p4, PathOf(virt)), c)
    {
      hide Pmm.Valid, Shape, Down, Entry, NoRun, OnlyTables, SameMap, Served, Extends, Reached;
      ghost var s0, u0, p := tables, pmm.used, PathOf(virt);
      NoneBelow(boot, tables, homes);
      ghost var m := Missing(tables, boot.p4, p) - (if Down(tables, boot.p4, p.a) == 0 then 1 else 0) + spare;
      var x := Descend(boot.p4, virt / 0x80_0000_0000 % 512, create, m);
      NoneBelow(boot, tables, homes);
      if x == 0 {
        return 0;
      }
      ghost var s1, u1 := tables, pmm.used;
      assert MissingDir(tables, x, p.b, p.c) + spare == m;
      m := MissingDir(tables, x, p.b, p.c) - (if Down(tables, x, p.b) == 0 then 1 else 0) + spare;
      y := Descend(x, virt / 0x4000_0000 % 512, create, m);
      NoneBelow(boot, tables, homes);
      StillDown(s1, tables, boot.p4, p.a);
      SameTwice(boot.p4, s0, s1, tables);
      OnlyTablesTwice(u0, s0.Keys, u1, s1.Keys, pmm.used, tables.Keys);
    }

    /**
     * `get_pte`: the place of a page's entry, creating missing tables if asked to.  Succeed or fail,
     * it changes no translation, and it fails to create only when no free page is left.
     */
    method GetPte(virt: nat, create: bool, ghost spare: nat) returns (t: nat, i: nat)
      requires Valid() && !AtBoot(PathOf(virt))
      requires create ==> Served(pmm.used, pmm.totalPages, Missing(tables, boot.p4, PathOf(virt)) + spare)
      modifies `tables, `homes, pmm, pmm.bitmap
      ensures Valid() && pmm.totalPages == old(pmm.totalPages)
      ensures SameMap(boot.p4, old(tables), tables)
      ensures OnlyTables(old(pmm.used), old(tables).Keys, pmm.used, tables.Keys)
      ensures t == Pt(tables, boot.p4, PathOf(virt)) && (t != 0 ==> t in tables && i == PathOf(virt).d < |tables[t]| == 512)
      ensures !create ==> tables == old(tables) && homes == old(homes) && pmm.used == old(pmm.used)
      ensures create && t == 0 ==> NoRun(pmm.used, pmm.totalPages, 1)
      ensures create && t != 0 ==> Served(pmm.used, pmm.totalPages, spare)
      ensures t != 0 ==> Beside(boot.p4, old(tables), tables, PathOf(virt))
    {
      hide Pmm.Valid, Shape, Down, Entry, NoRun, OnlyTables, SameMap, Served, Missing, Extends, Reached, HomesKept, AtBoot;
      ghost var s0, u0, p := tables, pmm.used, PathOf(virt);
      var y := Directory(virt, create, spare);
      NoneBelow(boot, tables, homes);
      if y == 0 {
        return 0, 0;
      }
      ghost var s1, u1 := tables, pmm.used;
      ghost var x := Down(tables, boot.p4, p.a);
      t := Descend(y, virt / 0x20_0000 % 512, create, spare);
      i := virt / 0x1000 % 512;
      NoneBelow(boot, tables, homes);
      StillDown(s1, tables, boot.p4, p.a);
      StillDown(s1, tables, x, p.b);
      SameTwice(boot.p4, s0, s1, tables);
      OnlyTablesTwice(u0, s0.Keys, u1, s1.Keys, pmm.used, tables.Keys);
    }

    /** Find the entry's place and fill it, as `vmm_map` and the loop of `vmm_alloc` do. */
    method MapPage(virt: nat, phys: nat, flags: nat, ghost spare: nat) returns (ok: bool)
      requires Valid() && !AtBoot(PathOf(virt))
      requires Served(pmm.used, pmm.totalPages, Missing(tables, boot.p4, PathOf(virt)) + spare)
      modifies `tables, `homes, pmm, pmm.bitmap
      ensures Valid() && pmm.totalPages == old(pmm.totalPages)
      ensures OnlyTables(old(pmm.used), old(tables).Keys, pmm.used, tables.Keys)
      ensures ok ==> OneChanged(boot.p4, old(tables), tables, PathOf(virt), Pte(phys, flags))
      ensures ok ==> Pt(tables, boot.p4, PathOf(virt)) != 0 && Served(pmm.used, pmm.totalPages, spare)
      ensures ok ==> Beside(boot.p4, old(tables), tables, PathOf(virt))
      ensures !ok ==> SameMap(boot.p4, old(tables), tables) && NoRun(pmm.used, pmm.totalPages, 1)
    {
      hide Pmm.Valid, Shape, Pt, Entry, NoRun, OnlyTables, BitOr, Served, Missing, Reached, Beside;
      var t, i := GetPte(virt, true, spare);
      ok := t != 0;
      if !ok {
        return;
      }
      ghost var keys := tables.Keys;
      StoreMap(boot, tables, homes, PathOf(virt), Pte(phys, flags));
      StoredPt(boot, tables, homes, PathOf(virt), Pte(phys, flags));
      StoredBeside(boot, old(tables), tables, homes, PathOf(virt), Pte(phys, flags));
      tables := Stored(tables, t, i, Pte(phys, flags));
      assert tables.Keys == keys;
    }

    /** `vmm_map`: one page of the flat map changes, or none when no free page is left for a table. */
    method Map(virt: nat, phys: nat, flags: nat) returns (ghost ok: bool)
      requires Valid() && !AtBoot(PathOf(virt))
      requires Served(pmm.used, pmm.totalPages, Missing(tables, boot.p4, PathOf(virt)))
      modifies `tables, `homes, pmm, pmm.bitmap
      ensures Valid() && OnlyTables(old(pmm.used), old(tables).Keys, pmm.used, tables.Keys)
      ensures ok ==> OneChanged(boot.p4, old(tables), tables, PathOf(virt), Pte(phys, flags))
      ensures !ok ==> SameMap(boot.p4, old(tables), tables) && NoRun(pmm.used, pmm.totalPages, 1)
      ensures ok ==> EntryBits(Entry(tables, boot.p4, PathOf(virt)), phys, flags)
    {
      hide Pmm.Valid, Shape, Pt, Entry, Served, Missing, NoRun, OnlyTables, OneChanged, SameMap, Reached, Pte, AtBoot, PathOf, EntryBits;
      ok := MapPage(virt, phys, flags, 0);
      if ok {
        ChangedEntry(boot.p4, old(tables), tables, PathOf(virt), Pte(phys, flags));
        PteIs(phys, flags);
      }
    }

    /** `vmm_unmap`: the page's entry is 0 afterwards; nothing else changes. */
    method Unmap(virt: nat)
      requires Valid() && !AtBoot(PathOf(virt))
      modifies `tables, `homes, pmm, pmm.bitmap
      ensures Valid() && pmm.used == old(pmm.used) && tables.Keys == old(tables).Keys
      ensures OneChanged(boot.p4, old(tables), tables, PathOf(virt), 0)
    {
      hide Pmm.Valid, Pt, Entry, NoRun, OnlyTables;
      ghost var p := PathOf(virt);
      var t, i := GetPte(virt, false, 0);
      if t == 0 {
        UnmappedAlready(boot, tables, homes, p);
        return;
      }
      StoreMap(boot, tables, homes, p, 0);
      tables := Stored(tables, t, i, 0);
    }

    /** `vmm_get_phys`: the entry's frame and the page offset, or 0 for an unmapped page. */
    method GetPhys(virt: nat) returns (phys: nat)
      requires Valid() && !AtBoot(PathOf(virt))
      modifies `tables, `homes, pmm, pmm.bitmap
      ensures Valid() && tables == old(tables) && homes == old(homes) && pmm.used == old(pmm.used)
      ensures phys == PhysOf(Entry(tables, boot.p4, PathOf(virt)), virt)
      ensures var e := Entry(tables, boot.p4, PathOf(virt));
              phys == if e % 2 == 1 then e - e % 4096 + virt % 4096 else 0
    {
      hide Pmm.Valid, Pt, NoRun, OnlyTables, BitOr, SlotsOk;
      var t, i := GetPte(virt, false, 0);
      if t == 0 || !Present(tables[t][i]) {
        return 0;
      }
      phys := BitOr(tables[t][i] - tables[t][i] % 4096, virt % 4096);
      OrOffset(tables[t][i] - tables[t][i] % 4096, virt % 4096);
    }

    /**
     * `paging_get_phys`, the second walker: it gives what `vmm_get_phys` gives wherever no huge entry
     * is on the path, and the low 30 bits of the address in the gigabytes boot maps.
     */
    method PagingGetPhys(virt: nat) returns (phys: nat)
      requires Valid()
      ensures !AtBoot(PathOf(virt)) ==> phys == PhysOf(Entry(tables, boot.p4, PathOf(virt)), virt)
      ensures AtBoot(PathOf(virt)) ==> phys == virt % 0x4000_0000
    {
      hide Pmm.Valid, Shape, BitOr, Down, Huge, Present;
      ghost var p := PathOf(virt);
      var p4, p3, p2, p1 := virt / 0x80_0000_0000 % 512, virt / 0x4000_0000 % 512, virt / 0x20_0000 % 512, virt / 0x1000 % 512;
      NoneBelow(boot, tables, homes);
      BootWay(boot, tables, homes, p);
      SlotFacts(boot, tables, homes, boot.p4, p4);
      if !Present(tables[boot.p4][p4]) {
        return 0;
      }
      var pdpt := tables[boot.p4][p4] / 4096;
      SlotFacts(boot, tables, homes, pdpt, p3);
      if !Present(tables[pdpt][p3]) {
        return 0;
      }
      if Huge(tables[pdpt][p3]) {
        return;
      }
      var pd := tables[pdpt][p3] / 4096;
      if AtBoot(p) {
        BootEntry(boot, tables, homes, p2, virt);
      } else {
        SlotFacts(boot, tables, homes, pd, p2);
      }
      if !Present(tables[pd][p2]) {
        return 0;
      }
      if Huge(tables[pd][p2]) {
        phys := BitOr(tables[pd][p2] - tables[pd][p2] % 0x20_0000, virt % 0x20_0000);
        return;
      }
      var pt := tables[pd][p2] / 4096;
      if !Present(tables[pt][p1]) {
        return 0;
      }
      phys := BitOr(tables[pt][p1] - tables[pt][p1] % 4096, virt % 4096);
      OrOffset(tables[pt][p1] - tables[pt][p1] % 4096, virt % 4096);
    }

    /** The mapping loop of `vmm_alloc`. */
    method MapRun(s: nat, pages: nat, flags: nat) returns (ok: bool, ghost done: nat)
      requires Valid() && 0xFFFF_FFFF_C000_0000 <= next && next + pages * 4096 < 0x1_0000_0000_0000_0000
      requires Served(pmm.used, pmm.totalPages, Needed(tables, boot.p4, WindowPage(next), pages))
      modifies `tables, `homes, pmm, pmm.bitmap
      ensures Valid() && pmm.totalPages == old(pmm.totalPages)
      ensures OnlyTables(old(pmm.used), old(tables).Keys, pmm.used, tables.Keys)
      ensures Placed(old(tables), tables, boot.p4, WindowPage(next), s, done, flags)
      ensures done <= pages && (ok <==> done == pages)
      ensures !ok ==> NoRun(pmm.used, pmm.totalPages, 1)
    {
      hide Pmm.Valid, Shape, NoRun, SameMap, OneChanged, Entry, Pte, Placed, AtBoot, PathOf, Served, Missing, Pt, Reached, WindowPath, WindowPage, OnlyTables, Needed, Beside;
      ghost var n := WindowPage(next);
      var i := 0;
      PlacedNone(tables, boot.p4, n, s, flags);
      OnlyTablesNone(pmm.used, tables.Keys);
      while i < pages
        invariant i <= pages && Valid() && pmm.totalPages == old(pmm.totalPages)
        invariant OnlyTables(old(pmm.used), old(tables).Keys, pmm.used, tables.Keys)
        invariant Placed(old(tables), tables, boot.p4, n, s, i, flags)
        invariant Served(pmm.used, pmm.totalPages, Needed(tables, boot.p4, n + i, pages - i))
      {
        ghost var used1, tables1, homes1 := pmm.used, tables, homes;
        InWindow(next + i * 4096);
        PageAfter(next, i);
        MissingNeeded(boot, tables, homes, n + i, pages - i);
        ghost var spare := Needed(tables, boot.p4, n + i, pages - i) - Missing(tables, boot.p4, WindowPath(n + i));
        ok := MapPage(next + i * 4096, s * 4096 + i * 4096, flags, spare);
        OnlyTablesTwice(old(pmm.used), old(tables).Keys, used1, tables1.Keys, pmm.used, tables.Keys);
        if !ok {
          PlacedFail(old(tables), tables1, tables, boot.p4, n, s, i, flags);
          done := i;
          return;
        }
        PlacedNext(old(tables), tables1, tables, boot.p4, n, s, i, flags);
        NeededNext(boot, tables1, homes1, tables, homes, n + i, pages - i);
        i := i + 1;
      }
      ok, done := true, i;
    }

    /** The tables that `pages` more pages need will lie in the first gigabyte, as far as there are frames. */
    ghost predicate TablesReached(pages: nat)
      reads this, pmm
    {
      ReachedAfter(pmm.used, pmm.totalPages, pages, Needed(tables, boot.p4, WindowPage(next), pages))
    }

    /** Whether they will, decided from the bitmap. */
    method CanReach(pages: nat) returns (yes: bool)
      requires Owned()
      ensures yes <==> TablesReached(pages)
    {
      hide Pmm.Valid, Shape, Mapped, Frames, Served, Lowest, Range, Absent, Dir, Reached;
      yes := RunReached(pmm, pages, Needed(tables, boot.p4, WindowPage(next), pages));
    }

    /**
     * `vmm_alloc`: fresh pages at the end of the window, mapped to the lowest run `s` of free frames;
     * or NULL, when frames run out, even part-way.  Then every mapping below `next` and every data
     * frame is as before, but the first `done` pages from `next` on stay mapped to frames that have
     * been freed.
     */
    method Alloc(pages: nat, flags: nat) returns (virt: nat, ghost s: nat, ghost done: nat)
      requires Owned() && flags < 4096
      requires pages <= pmm.totalPages ==> next + pages * 4096 < 0x1_0000_0000_0000_0000
      requires TablesReached(pages)
      modifies `tables, `homes, `data, `next, pmm, pmm.bitmap
      ensures Owned() && pmm.totalPages == old(pmm.totalPages)
      ensures virt == 0 ==> data == old(data) && next == old(next)
      ensures pages == 0 ==> virt == 0
      ensures virt == 0 ==>
                || pages == 0 || NoRun(old(pmm.used), pmm.totalPages, pages)
                || (Lowest(old(pmm.used), pmm.totalPages, pages, s)
                    && NoRun(pmm.used + Range(s, pages), pmm.totalPages, 1))
      ensures Filled(old(tables), tables, boot.p4, WindowPage(old(next)), s, done, flags)
      ensures virt == 0 ==> done == 0 || (done < pages && Range(s, pages) !! pmm.used)
      ensures virt != 0 ==>
                && virt == old(next) && next == virt + pages * 4096 && done == pages
                && Lowest(old(pmm.used), pmm.totalPages, pages, s)
                && data == Extended(old(data), WindowPage(virt), s, pages)
    {
      hide Pmm.Valid, Shape, NoRun, Mapped, Frames, OnlyTables, Placed, Range, Touched, Extended, FreeRun, Reached, Served, Needed, Filled, Leaf, WindowPath, Lowest, ReachedAfter;
      virt, s, done := 0, 0, 0;
      PlacedNone(tables, boot.p4, WindowPage(next), s, flags);
      PlacedFilled(tables, tables, boot.p4, WindowPage(next), s, 0, flags);
      ghost var used0, tables0, n := pmm.used, tables, WindowPage(next);
      PmmFacts(pmm);
      var phys := pmm.AllocPages(pages);
      ZeroReserved(boot, pmm.totalPages, reserved, tables.Keys, data, used0);
      if phys == 0 {
        ZeroNotFree(pmm.totalPages, used0, pages);
        return;
      }
      s := phys / 4096;
      ReachedAt(used0, pmm.totalPages, pages, Needed(tables, boot.p4, n, pages), s);
      assert tables.Keys <= pmm.used && 0 in pmm.used;
      var ok;
      ok, done := MapRun(phys / 4096, pages, flags);
      PlacedFilled(tables0, tables, boot.p4, n, s, done, flags);
      if !ok {
        ghost var used1 := pmm.used;
        pmm.FreePages(phys, pages);
        FailFrames(boot, pmm.totalPages, reserved, tables0.Keys, data, used0, s, pages, used1, tables.Keys, pmm.used);
        PlacedMapped(tables0, tables, boot.p4, n, s, done, flags, data);
        virt := 0;
        return;
      }
      virt := next;
      MappedBelow(tables0, boot.p4, n, data);
      AllocFrames(boot, pmm.totalPages, reserved, tables0.Keys, data, used0, n, s, pages, pmm.used, tables.Keys);
      PlacedMapped(tables0, tables, boot.p4, n, s, pages, flags, data);
      next := next + pages * 4096;
      data := Extended(data, n, s, pages);
    }

    /** One round of `vmm_free`. */
    method FreeOne(virt: nat)
      requires Owned() && 0xFFFF_FFFF_C000_0000 <= virt < next
      modifies `tables, `homes, `data, pmm, pmm.bitmap
      ensures Owned() && pmm.totalPages == old(pmm.totalPages) && data == old(data) - {WindowPage(virt)}
      ensures Spared(old(tables), tables, boot.p4, Range(WindowPage(virt), 1))
    {
      hide Pmm.Valid, Shape, NoRun, Mapped, Frames, OnlyTables, Pt, AtBoot, PathOf, Present, Same, Spared, Range;
      ghost var k := WindowPage(virt);
      InWindow(virt);
      SparedSame(tables, boot.p4, Range(k, 1));
      var t, i := GetPte(virt, false, 0);
      EntryAt(boot, tables, homes, PathOf(virt), k, WindowPage(next), data);
      if t != 0 && Present(tables[t][i]) {
        var phys := tables[t][i] - tables[t][i] % 4096;
        FreeFrames(boot, pmm.totalPages, reserved, tables.Keys, data, pmm.used, k);
        FreeMapped(boot, tables, homes, k, WindowPage(next), data);
        pmm.Free(phys);
        ghost var keys := tables.Keys;
        StoreSpares(boot, tables, homes, k);
        tables := Stored(tables, t, i, 0);
        assert tables.Keys == keys;
        data := data - {k};
      }
    }

    /** `vmm_free` on pages below `next`: exactly these pages are unmapped and their frames freed. */
    method Free(virt: nat, pages: nat)
      requires Owned() && 0xFFFF_FFFF_C000_0000 <= virt && virt + pages * 4096 <= next
      modifies `tables, `homes, `data, pmm, pmm.bitmap
      ensures Owned() && pmm.totalPages == old(pmm.totalPages)
      ensures data == old(data) - Range(WindowPage(virt), pages)
      ensures Spared(old(tables), tables, boot.p4, Range(WindowPage(virt), pages))
    {
      hide Owned, Range, Spared;
      var i := 0;
      RangeGrows(WindowPage(virt), 0);
      SparedSame(tables, boot.p4, Range(WindowPage(virt), 0));
      while i < pages
        invariant i <= pages && Owned() && pmm.totalPages == old(pmm.totalPages)
        invariant data == old(data) - Range(WindowPage(virt), i)
        invariant Spared(old(tables), tables, boot.p4, Range(WindowPage(virt), i))
      {
        RangeGrows(WindowPage(virt), i);
        assert WindowPage(virt + i * 4096) == WindowPage(virt) + i;
        ghost var tables1 := tables;
        FreeOne(virt + i * 4096);
        RangeGrows(WindowPage(virt) + i, 0);
        assert Range(WindowPage(virt) + i, 1) == {WindowPage(virt) + i};
        SparedTwice(old(tables), tables1, tables, boot.p4, Range(WindowPage(virt), i), Range(WindowPage(virt) + i, 1));
        i := i + 1;
      }
    }
  }

  /** The entries of all pages of the window outside `pages` are as before. */
  ghost predicate Spared(tables0: Tables, tables: Tables, p4: nat, pages: set<nat>)
  {
    forall k: nat :: k !in pages ==> Entry(tables, p4, WindowPath(k)) == Entry(tables0, p4, WindowPath(k))
  }

  lemma SparedSame(tables: Tables, p4: nat, pages: set<nat>)
    ensures Spared(tables, tables, p4, pages)
  {
  }

  lemma SparedTwice(tables0: Tables, tables1: Tables, tables2: Tables, p4: nat, a: set<nat>, b: set<nat>)
    requires Spared(tables0, tables1, p4, a) && Spared(tables1, tables2, p4, b)
    ensures Spared(tables0, tables2, p4, a + b)
  {
    hide Entry, WindowPath;
  }

  lemma StoreSpares(k: Boot, tables: Tables, homes: Homes, j: nat)
    requires Shape(k, tables, homes) && Pt(tables, k.p4, WindowPath(j)) != 0
    ensures Spared(tables, Stored(tables, Pt(tables, k.p4, WindowPath(j)), j % 512, 0), k.p4, Range(j, 1))
  {
    hide Shape, Pt, Entry, Same;
    StoreMap(k, tables, homes, WindowPath(j), 0);
    forall i: nat | i !in Range(j, 1)
      ensures Entry(Stored(tables, Pt(tables, k.p4, WindowPath(j)), j % 512, 0), k.p4, WindowPath(i)) ==
              Entry(tables, k.p4, WindowPath(i))
    {
      WindowApart(j, i);
      assert i != j;
    }
  }

  lemma RangeGrows(start: nat, i: nat)
    ensures Range(start, i + 1) == Range(start, i) + {start + i} && Range(start, 0) == {}
  {
  }

  lemma BootFramesOwned(k: Boot, tables: Tables, total: nat, used: set<nat>)
    requires tables.Keys == {k.p4, k.p3, k.p2} && {0, k.p4, k.p3, k.p2} <= used
    ensures Mapped(tables, k.p4, 0, map[]) && Frames(k, total, used, tables.Keys, map[], used) && tables.Keys <= used && 0 in used
  {
    var none: map<nat, nat> := map[];
    assert none.Values == {};
  }

  // ---- Filling the window ------------------------------------------------------------------

  /** Pages `n` to `n + i` of the window are mapped to consecutive frames, all others are as before. */
  ghost predicate Placed(tables0: Tables, tables: Tables, p4: nat, n: nat, s: nat, i: nat, flags: nat)
  {
    forall k: nat :: Entry(tables, p4, WindowPath(k)) ==
      if n <= k < n + i then Pte(s * 4096 + (k - n) * 4096, flags) else Entry(tables0, p4, WindowPath(k))
  }

  lemma PlacedNone(tables: Tables, p4: nat, n: nat, s: nat, flags: nat)
    ensures Placed(tables, tables, p4, n, s, 0, flags)
  {
  }

  lemma PlacedFail(tables0: Tables, tables1: Tables, tables: Tables, p4: nat, n: nat, s: nat, i: nat, flags: nat)
    requires Placed(tables0, tables1, p4, n, s, i, flags) && SameMap(p4, tables1, tables)
    ensures Placed(tables0, tables, p4, n, s, i, flags)
  {
    hide Entry;
  }

  lemma PlacedNext(tables0: Tables, tables1: Tables, tables: Tables, p4: nat, n: nat, s: nat, i: nat, flags: nat)
    requires Placed(tables0, tables1, p4, n, s, i, flags)
    requires OneChanged(p4, tables1, tables, WindowPath(n + i), Pte(s * 4096 + i * 4096, flags))
    ensures Placed(tables0, tables, p4, n, s, i + 1, flags)
  {
    hide Entry, Pte, Same;
    forall k: nat
      ensures Entry(tables, p4, WindowPath(k)) ==
              if k == n + i then Pte(s * 4096 + i * 4096, flags) else Entry(tables1, p4, WindowPath(k))
    {
      WindowApart(n + i, k);
    }
  }

  /** The data map with `pages` new pages. */
  ghost function Extended(data: map<nat, nat>, n: nat, s: nat, pages: nat): map<nat, nat>
  {
    map k: nat | k in data.Keys + Range(n, pages) :: if k in Range(n, pages) then s + k - n else data[k]
  }

  lemma PlacedMapped(tables0: Tables, tables: Tables, p4: nat, n: nat, s: nat, i: nat, flags: nat, data: map<nat, nat>)
    requires Mapped(tables0, p4, n, data) && Placed(tables0, tables, p4, n, s, i, flags) && flags < 4096
    ensures Mapped(tables, p4, n, data) && Mapped(tables, p4, n + i, Extended(data, n, s, i))
  {
    hide Entry, Pte, Present;
    forall k: nat | k < n + i
      ensures PageIs(Entry(tables, p4, WindowPath(k)), k, Extended(data, n, s, i))
    {
      if k >= n {
        PteFrame(s * 4096 + (k - n) * 4096, flags);
      } else {
        assert PageIs(Entry(tables0, p4, WindowPath(k)), k, data);
      }
    }
    forall k: nat | k < n
      ensures PageIs(Entry(tables, p4, WindowPath(k)), k, data)
    {
      assert PageIs(Entry(tables0, p4, WindowPath(k)), k, data);
    }
  }

  lemma PmmFacts(pmm: Pmm)
    requires pmm.Valid()
    ensures pmm.totalPages <= 1048576 && pmm.usedPages == |pmm.used|
  {
  }

  lemma MappedBelow(tables: Tables, p4: nat, n: nat, data: map<nat, nat>)
    requires Mapped(tables, p4, n, data)
    ensures forall j :: j in data ==> j < n
  {
  }

  lemma ZeroReserved(k: Boot, total: nat, reserved: set<nat>, keys: set<nat>, data: map<nat, nat>, used: set<nat>)
    requires Frames(k, total, reserved, keys, data, used)
    ensures 0 in used
  {
  }

  lemma ZeroNotFree(total: nat, used: set<nat>, pages: nat)
    requires 0 in used
    ensures pages > 0 ==> !Lowest(used, total, pages, 0)
  {
  }

  lemma ExtendedValues(data: map<nat, nat>, n: nat, s: nat, pages: nat)
    requires forall k :: k in data ==> k < n
    ensures Extended(data, n, s, pages).Values == data.Values + Range(s, pages)
  {
    var more := Extended(data, n, s, pages);
    forall f | f in data.Values + Range(s, pages)
      ensures f in more.Values
    {
      if f in Range(s, pages) {
        assert more[n + f - s] == f;
      } else {
        var k :| k in data && data[k] == f;
        assert more[k] == f;
      }
    }
  }

  lemma AllocFrames(k: Boot, total: nat, reserved: set<nat>, keys0: set<nat>, data: map<nat, nat>, used0: set<nat>,
                    n: nat, s: nat, pages: nat, used: set<nat>, keys: set<nat>)
    requires Frames(k, total, reserved, keys0, data, used0) && (forall j :: j in data ==> j < n)
    requires FreeRun(used0, s, pages) && s + pages <= total
    requires OnlyTables(used0 + Range(s, pages), keys0, used, keys)
    ensures Frames(k, total, reserved, keys, Extended(data, n, s, pages), used)
  {
    var more := Extended(data, n, s, pages);
    ExtendedValues(data, n, s, pages);
    TablesApart(k, total, reserved, keys0, data, used0, s, pages, used, keys);
    forall i, j | i in more && j in more && more[i] == more[j]
      ensures i == j
    {
      RunApart(data, used0, n, s, pages, i, j);
    }
  }

  lemma RunApart(data: map<nat, nat>, used0: set<nat>, n: nat, s: nat, pages: nat, i: nat, j: nat)
    requires Injective(data) && data.Values <= used0 && FreeRun(used0, s, pages) && (forall k :: k in data ==> k < n)
    requires var more := Extended(data, n, s, pages); i in more && j in more && more[i] == more[j]
    ensures i == j
  {
    assert i in data ==> data[i] in used0;
    assert j in data ==> data[j] in used0;
  }

  lemma TablesApart(k: Boot, total: nat, reserved: set<nat>, keys0: set<nat>, data: map<nat, nat>, used0: set<nat>,
                    s: nat, pages: nat, used: set<nat>, keys: set<nat>)
    requires Frames(k, total, reserved, keys0, data, used0) && FreeRun(used0, s, pages)
    requires OnlyTables(used0 + Range(s, pages), keys0, used, keys)
    ensures used == reserved + keys + (data.Values + Range(s, pages)) && keys * reserved == {k.p4, k.p3, k.p2} <= keys
    ensures data.Values + Range(s, pages) !! reserved && data.Values + Range(s, pages) !! keys
    ensures Range(s, pages) !! used0
  {
    var u := used0 + Range(s, pages);
    assert keys * reserved == keys * u * reserved;
    assert (data.Values + Range(s, pages)) * keys == (data.Values + Range(s, pages)) * (keys * u);
  }

  lemma FailFrames(k: Boot, total: nat, reserved: set<nat>, keys0: set<nat>, data: map<nat, nat>, used0: set<nat>,
                   s: nat, pages: nat, used1: set<nat>, keys: set<nat>, used: set<nat>)
    requires Frames(k, total, reserved, keys0, data, used0) && FreeRun(used0, s, pages) && s + pages <= total <= 1048576
    requires OnlyTables(used0 + Range(s, pages), keys0, used1, keys) && used == used1 - Touched(s * 4096, pages, total)
    ensures Frames(k, total, reserved, keys, data, used) && keys <= used && 0 in used && used1 == used + Range(s, pages)
    ensures Range(s, pages) !! used
  {
    TouchedRange(s, pages, total);
    TablesApart(k, total, reserved, keys0, data, used0, s, pages, used1, keys);
    assert 0 in used0 && 0 !in Range(s, pages);
    assert used == used1 - Range(s, pages);
  }

  // ---- Freeing -----------------------------------------------------------------------------

  lemma EntryAt(k: Boot, tables: Tables, homes: Homes, p: Path, j: nat, n: nat, data: map<nat, nat>)
    requires Shape(k, tables, homes) && p == WindowPath(j) && j < n && Mapped(tables, k.p4, n, data)
    ensures var t := Pt(tables, k.p4, p);
            && PageIs(if t == 0 then 0 else Entry(tables, k.p4, p), j, data) && !Present(0)
            && (t != 0 ==> t in tables && |tables[t]| == 512 && Entry(tables, k.p4, p) == tables[t][p.d])
  {
    PtHome(k, tables, homes, p);
  }

  lemma FreeFrames(b: Boot, total: nat, reserved: set<nat>, keys: set<nat>, data: map<nat, nat>, used: set<nat>, k: nat)
    requires Frames(b, total, reserved, keys, data, used) && k in data
    ensures data[k] != 0 && data[k] < total && data[k] !in keys && data[k] in used
    ensures Frames(b, total, reserved, keys, data - {k}, used - {data[k]})
  {
    var less := data - {k};
    assert data[k] in data.Values;
    forall f | f in data.Values && f != data[k]
      ensures f in less.Values
    {
      var j :| j in data && data[j] == f;
      assert less[j] == f;
    }
    assert less.Values == data.Values - {data[k]};
  }

  lemma FreeMapped(b: Boot, tables: Tables, homes: Homes, k: nat, n: nat, data: map<nat, nat>)
    requires Shape(b, tables, homes) && Mapped(tables, b.p4, n, data) && k < n && Pt(tables, b.p4, WindowPath(k)) != 0
    ensures var tables' := Stored(tables, Pt(tables, b.p4, WindowPath(k)), k % 512, 0);
            Shape(b, tables', homes) && Mapped(tables', b.p4, n, data - {k})
  {
    hide Shape, Entry, Pt, Same, Present;
    var tables' := Stored(tables, Pt(tables, b.p4, WindowPath(k)), k % 512, 0);
    StoreMap(b, tables, homes, WindowPath(k), 0);
    forall j: nat | j < n
      ensures PageIs(Entry(tables', b.p4, WindowPath(j)), j, data - {k})
    {
      WindowApart(k, j);
      assert PageIs(Entry(tables, b.p4, WindowPath(j)), j, data);
    }
  }

  /** What an entry makes of an address. */
  function PhysOf(e: nat, virt: nat): nat
  {
    if Present(e) then e / 4096 * 4096 + virt % 4096 else 0
  }

  /** Reading a mapping back gives the mapped page exactly when the flags set no foreign frame bit. */
  lemma ReadBack(phys: nat, flags: nat, virt: nat)
    ensures PhysOf(Pte(phys, flags), virt) == phys - phys % 4096 + virt % 4096
            <==> BitOr(phys / 4096, flags / 4096) == phys / 4096
    ensures flags < 4096 ==> PhysOf(Pte(phys, flags), virt) == phys - phys % 4096 + virt % 4096
  {
    hide Pte, BitOr;
    PteFrame(phys, flags);
  }

  lemma UnmappedAlready(k: Boot, tables: Tables, homes: Homes, p: Path)
    requires Shape(k, tables, homes) && Pt(tables, k.p4, p) == 0
    ensures OneChanged(k.p4, tables, tables, p, 0)
  {
    forall q
      ensures Entry(tables, k.p4, q) == if Same(p, q) then 0 else Entry(tables, k.p4, q)
    {
      if Same(p, q) {
        SamePt(k, tables, homes, p, q);
      }
    }
  }

  /** The boot gigabytes are reached through p3 and p2. */
  lemma BootWay(k: Boot, tables: Tables, homes: Homes, p: Path)
    requires Shape(k, tables, homes)
    ensures k.p4 in tables && k.p3 in tables && k.p3 in homes && homes[k.p3] == Level3(0)
    ensures |tables[k.p4]| == |tables[k.p3]| == 512
    ensures AtBoot(p) ==>
              && p.a < 512 && p.b < 512
              && tables[k.p4][p.a] == k.p3 * 4096 + 3 && Present(tables[k.p4][p.a])
              && tables[k.p3][p.b] == k.p2 * 4096 + 3 && Present(tables[k.p3][p.b]) && !Huge(tables[k.p3][p.b])
  {
    LinkPlain(k.p3, k.p3 * 4096 + 3);
    LinkPlain(k.p2, k.p2 * 4096 + 3);
  }

  lemma BootEntry(k: Boot, tables: Tables, homes: Homes, i: nat, virt: nat)
    requires Shape(k, tables, homes) && i == virt / 0x20_0000 % 512
    ensures k.p2 in tables && |tables[k.p2]| == 512
    ensures var e := tables[k.p2][i];
            && e == i * 0x20_0000 + 0x83 && Present(e) && Huge(e)
            && BitOr(e - e % 0x20_0000, virt % 0x20_0000) == virt % 0x4000_0000
  {
    hide BitOr;
    assert SlotOk(k, tables, homes, k.p2, i);
    BootHuge(i);
    OrBig(i, virt % 0x20_0000);
  }

  lemma NoneBelow(k: Boot, tables: Tables, homes: Homes)
    requires Shape(k, tables, homes)
    ensures 0 !in tables && !Present(0) && forall i :: Down(tables, 0, i) == 0
    ensures k.p4 in tables && k.p4 in homes && homes[k.p4] == Top
    ensures k.p2 in tables && k.p2 in homes && homes[k.p2] == Level2(0, 0)
    ensures homes.Keys == tables.Keys && forall t :: t in tables ==> |tables[t]| == 512
  {
  }

  lemma SameTwice(p4: nat, s0: Tables, s1: Tables, s2: Tables)
    requires SameMap(p4, s0, s1) && SameMap(p4, s1, s2)
    ensures SameMap(p4, s0, s2)
  {
  }

  lemma SlotFacts(k: Boot, tables: Tables, homes: Homes, t: nat, i: nat)
    requires Shape(k, tables, homes) && t in tables && t in homes && t != k.p2 && !homes[t].Level1? && i < 512
    ensures |tables[t]| == 512 && t in homes
    ensures Present(tables[t][i]) ==>
              var u := tables[t][i] / 4096;
              && Down(tables, t, i) == u && u in tables && u in homes && homes[u] == Below(homes[t], i) && !Huge(tables[t][i])
    ensures !Present(tables[t][i]) ==> Down(tables, t, i) == 0
  {
    assert SlotOk(k, tables, homes, t, i);
    if tables[t][i] != 0 {
      LinkIs(tables[t][i]);
    }
  }

  /** All that a new table `u` below slot `i` of `t` changes. */
  lemma GrowFacts(k: Boot, tables: Tables, homes: Homes, t: nat, i: nat, u: nat, used: set<nat>)
    requires CanGrow(k, tables, homes, t, i, u) && tables.Keys <= used && u !in used
    ensures var tables', homes' := Grown(tables, t, i, u), homes[u := Below(homes[t], i)];
            && Shape(k, tables', homes') && HomesKept(homes, homes') && tables'.Keys == tables.Keys + {u}
            && SameMap(k.p4, tables, tables') && Extends(tables, tables')
            && OnlyTables(used, tables.Keys, used + {u}, tables'.Keys)
            && Down(tables', t, i) == u && (forall j :: Down(tables', u, j) == 0)
            && forall j: nat :: j != i ==> Down(tables', t, j) == Down(tables, t, j)
  {
    hide Shape, SameMap, Extends;
    GrowShape(k, tables, homes, t, i, u);
    GrowMap(k, tables, homes, t, i, u);
    GrowExtends(k, tables, homes, t, i, u);
    NoneBelow(k, tables, homes);
  }

  lemma GrownIs(tables: Tables, t: nat, i: nat, u: nat, e: nat)
    requires e == u * 4096 + 3
    ensures Stored(tables[u := Blank()], t, i, e) == Grown(tables, t, i, u)
  {
  }

  lemma StayFacts(tables: Tables, homes: Homes, p4: nat, used: set<nat>)
    requires tables.Keys <= used
    ensures HomesKept(homes, homes) && SameMap(p4, tables, tables) && Extends(tables, tables)
    ensures OnlyTables(used, tables.Keys, used, tables.Keys)
  {
  }

  // ---- Runs --------------------------------------------------------------------------------

  lemma {:induction false} ValuesSize(data: map<nat, nat>)
    requires Injective(data)
    ensures |data.Values| == |data|
    decreases |data|
  {
    if data == map[] {
      assert data.Values == {};
    } else {
      var k :| k in data;
      var less := data - {k};
      assert less.Keys == data.Keys - {k};
      ValuesSize(less);
      ValuesLess(data, k);
    }
  }

  lemma ValuesLess(data: map<nat, nat>, k: nat)
    requires Injective(data) && k in data
    ensures (data - {k}).Values == data.Values - {data[k]} && data[k] in data.Values
  {
    var less := data - {k};
    assert data[k] in data.Values;
    forall f | f in data.Values && f != data[k]
      ensures f in less.Values
    {
      var j :| j in data && data[j] == f;
      assert less[j] == f;
    }
  }

  /** The count of used pages: the reserved ones, the tables beyond the three of boot, the mapped pages. */
  lemma Accounting(k: Boot, total: nat, reserved: set<nat>, keys: set<nat>, data: map<nat, nat>, used: set<nat>)
    requires BootFrames(k) && Frames(k, total, reserved, keys, data, used)
    ensures |used| == |reserved| + (|keys| - 3) + |data|
  {
    ValuesSize(data);
    var three := {k.p4, k.p3, k.p2};
    var grown := keys - three;
    ThreeFrames(k);
    UnionSize(grown, three);
    assert keys == grown + three;
    UnionSize(reserved, grown);
    UnionSize(reserved + grown, data.Values);
    assert used == reserved + grown + data.Values;
  }

  /** So a run that has handed out the window up to page `n` has used at most this many pages. */
  lemma UsedAtMost(k: Boot, tables: Tables, n: nat, total: nat, reserved: set<nat>, data: map<nat, nat>, used: set<nat>)
    requires BootFrames(k) && Frames(k, total, reserved, tables.Keys, data, used) && Mapped(tables, k.p4, n, data)
    ensures |used| <= |reserved| + (|tables| - 3) + n
  {
    hide Frames, Mapped;
    Accounting(k, total, reserved, tables.Keys, data, used);
    MappedBelow(tables, k.p4, n, data);
    RangeSize(0, n);
    LeftOver(data.Keys, Range(0, n));
    assert data.Keys - Range(0, n) == {};
    assert |tables.Keys| == |tables| && |data.Keys| == |data|;
  }

  lemma UnionSize(a: set<nat>, b: set<nat>)
    requires a !! b
    ensures |a + b| == |a| + |b|
  {
  }

  lemma ThreeFrames(k: Boot)
    requires BootFrames(k)
    ensures |{k.p4, k.p3, k.p2}| == 3
  {
  }

  datatype Op = AllocOp(pages: nat, flags: nat) | FreeOp(virt: nat, pages: nat)

  /**
   * Before the window is exhausted, and while the tables needed find frames in the first gigabyte; for
   * frees, pages below `next`.
   */
  ghost predicate InReach(vmm: Vmm, op: Op)
    reads vmm, vmm.pmm
  {
    match op
    case AllocOp(pages, flags) =>
      flags < 4096 && (pages <= vmm.pmm.totalPages ==> vmm.next + pages * 4096 < 0x1_0000_0000_0000_0000)
      && vmm.TablesReached(pages)
    case FreeOp(virt, pages) => 0xFFFF_FFFF_C000_0000 <= virt && virt + pages * 4096 <= vmm.next
  }

  /**
   * Every run of allocations and frees in reach, failures included, keeps the mapping below `next`
   * one-to-one and the count of used pages exact.
   */
  method Run(vmm: Vmm, ops: seq<Op>) returns (ghost log: map<nat, nat>)
    requires vmm.Owned() && BootFrames(vmm.boot)
    modifies vmm, vmm.pmm, vmm.pmm.bitmap
    ensures vmm.Owned() && Injective(vmm.data)
    ensures vmm.pmm.usedPages == |vmm.reserved| + (|vmm.tables| - 3) + |vmm.data|
    ensures forall k: nat :: k < WindowPage(vmm.next) ==>
              var e := Entry(vmm.tables, vmm.boot.p4, WindowPath(k));
              && (Present(e) <==> k in vmm.data)
              && (k in vmm.data ==> e / 4096 == vmm.data[k] && e / 4096 in vmm.pmm.used && e / 4096 !in vmm.tables)
    ensures Logged(old(vmm.tables), old(vmm.data), vmm.tables, vmm.data, vmm.boot.p4, ops, log)
  {
    hide Vmm.Owned, Effect, Logged, Injective, WindowPage, Entry, Present, InReach, Range, NextLog, KeepsEntries, Carries;
    log := map[];
    ghost var tables0, data0 := vmm.tables, vmm.data;
    NoLog(vmm.tables, vmm.data, vmm.boot.p4, ops);
    for i := 0 to |ops|
      invariant vmm.Owned() && Logged(tables0, data0, vmm.tables, vmm.data, vmm.boot.p4, ops, log)
    {
      ghost var tables1, next1, data1 := vmm.tables, vmm.next, vmm.data;
      DataBelow(vmm);
      var virt := StepPages(vmm, ops[i]);
      LogNext(tables0, data0, tables1, next1, data1, vmm.tables, vmm.data, vmm.boot.p4, ops, i, virt, log);
      log := NextLog(log, ops, i, virt);
    }
    Conclude(vmm);
  }

  /**
   * Where the mapped pages come from: `log` names the call that allocated a page, and the page has
   * the flags of that call; a page that is not in it was there before and has the entry it had.
   */
  ghost predicate Logged(tables0: Tables, data0: map<nat, nat>, tables: Tables, data: map<nat, nat>, p4: nat, ops: seq<Op>, log: map<nat, nat>)
  {
    forall k: nat :: k in data ==>
      if k in log then log[k] < |ops| && ops[log[k]].AllocOp? && EntryHas(Entry(tables, p4, WindowPath(k)), ops[log[k]].flags)
      else k in data0 && Entry(tables, p4, WindowPath(k)) == Entry(tables0, p4, WindowPath(k))
  }

  ghost function NextLog(log: map<nat, nat>, ops: seq<Op>, i: nat, virt: nat): map<nat, nat>
    requires i < |ops|
  {
    if virt == 0 || ops[i].FreeOp? then log
    else map k | k in log.Keys + Range(WindowPage(virt), ops[i].pages) ::
           if k in Range(WindowPage(virt), ops[i].pages) then i else log[k]
  }

  lemma NoLog(tables: Tables, data: map<nat, nat>, p4: nat, ops: seq<Op>)
    ensures Logged(tables, data, tables, data, p4, ops, map[])
  {
  }

  lemma DataBelow(vmm: Vmm)
    requires vmm.Owned()
    ensures AllBelow(vmm.data, vmm.next)
  {
  }

  ghost predicate AllBelow(data: map<nat, nat>, next: nat)
  {
    forall k :: k in data ==> k < WindowPage(next)
  }

  /** Which pages a call adds. */
  method StepPages(vmm: Vmm, op: Op) returns (virt: nat)
    requires vmm.Owned()
    modifies vmm, vmm.pmm, vmm.pmm.bitmap
    ensures vmm.Owned()
    ensures virt != 0 ==>
              && op.AllocOp? && vmm.data.Keys == old(vmm.data).Keys + Range(WindowPage(virt), op.pages)
              && virt == old(vmm.next) && Carries(vmm.tables, vmm.boot.p4, WindowPage(virt), op.pages, op.flags)
    ensures virt == 0 ==> vmm.data.Keys <= old(vmm.data).Keys
    ensures KeepsEntries(old(vmm.tables), old(vmm.next), old(vmm.data), vmm.tables, vmm.data, vmm.boot.p4)
  {
    hide Vmm.Owned, Carries, KeepsEntries, Lowest, NoRun, InReach, Range, WindowPage;
    var _, at := Step(vmm, op);
    virt := at;
  }

  lemma LogNext(tables0: Tables, data0: map<nat, nat>, tables1: Tables, next1: nat, data1: map<nat, nat>,
                tables: Tables, data: map<nat, nat>, p4: nat, ops: seq<Op>, i: nat, virt: nat, log: map<nat, nat>)
    requires i < |ops| && Logged(tables0, data0, tables1, data1, p4, ops, log) && AllBelow(data1, next1)
    requires KeepsEntries(tables1, next1, data1, tables, data, p4)
    requires virt == 0 ==> data.Keys <= data1.Keys
    requires virt != 0 ==>
               && ops[i].AllocOp? && virt == next1 && data.Keys == data1.Keys + Range(WindowPage(virt), ops[i].pages)
               && Carries(tables, p4, WindowPage(virt), ops[i].pages, ops[i].flags)
    ensures Logged(tables0, data0, tables, data, p4, ops, NextLog(log, ops, i, virt))
  {
    hide Entry, WindowPath, WindowPage, EntryHas;
    var log' := NextLog(log, ops, i, virt);
    forall k: nat | k in data
      ensures if k in log' then
                log'[k] < |ops| && ops[log'[k]].AllocOp? && EntryHas(Entry(tables, p4, WindowPath(k)), ops[log'[k]].flags)
              else k in data0 && Entry(tables, p4, WindowPath(k)) == Entry(tables0, p4, WindowPath(k))
    {
      if k in data1 {
        assert k < WindowPage(next1);
      }
    }
  }

  /** The pages from `n` on are mapped with these flags. */
  ghost predicate Carries(tables: Tables, p4: nat, n: nat, pages: nat, flags: nat)
  {
    forall k: nat :: n <= k < n + pages ==> EntryHas(Entry(tables, p4, WindowPath(k)), flags)
  }

  /** Present, the flags in the low twelve bits, and so writable exactly when the flags say so. */
  ghost predicate EntryHas(e: nat, flags: nat)
  {
    Present(e) && e % 4096 == flags + 1 - flags % 2 && (Writable(e) <==> Writable(flags))
  }

  /** Pages that were mapped before and still are have the entry they had. */
  ghost predicate KeepsEntries(tables0: Tables, next0: nat, data0: map<nat, nat>, tables: Tables, data: map<nat, nat>, p4: nat)
  {
    forall k: nat :: k in data0 && k in data && k < WindowPage(next0) ==>
      Entry(tables, p4, WindowPath(k)) == Entry(tables0, p4, WindowPath(k))
  }

  lemma EntriesKept(tables: Tables, next: nat, data: map<nat, nat>, p4: nat)
    ensures KeepsEntries(tables, next, data, tables, data, p4)
  {
  }

  lemma FilledCarries(tables: Tables, data: map<nat, nat>, p4: nat, tables0: Tables, next0: nat, data0: map<nat, nat>,
                      s: nat, done: nat, flags: nat)
    requires Filled(tables0, tables, p4, WindowPage(next0), s, done, flags) && flags < 4096
    ensures Carries(tables, p4, WindowPage(next0), done, flags) && KeepsEntries(tables0, next0, data0, tables, data, p4)
  {
    hide Entry, Leaf, WindowPath, WindowPage, Present, Writable;
    var n := WindowPage(next0);
    forall k: nat | n <= k < n + done
      ensures EntryHas(Entry(tables, p4, WindowPath(k)), flags)
    {
      LeafIs(s + (k - n), flags);
    }
  }

  lemma SparedKeeps(tables: Tables, data: map<nat, nat>, p4: nat, tables0: Tables, next0: nat, data0: map<nat, nat>, n: nat, pages: nat)
    requires Spared(tables0, tables, p4, Range(n, pages)) && data == data0 - Range(n, pages)
    ensures KeepsEntries(tables0, next0, data0, tables, data, p4)
  {
    hide Entry, WindowPath, WindowPage, Range;
  }

  /**
   * What a call did.  An allocation gave pages at the next address on the lowest free run, with its
   * flags; or it ran out of frames, and nothing but tables changed.  A free took exactly its pages away.
   */
  twostate predicate Effect(vmm: Vmm, op: Op, made: bool, virt: nat)
    reads vmm, vmm.pmm
  {
    && (virt != 0 ==>
          && op.AllocOp? && made && 0 < op.pages && op.flags < 4096
          && virt == old(vmm.next) && vmm.next == virt + op.pages * 4096
          && Carries(vmm.tables, vmm.boot.p4, WindowPage(virt), op.pages, op.flags)
          && exists s: nat ::
               && Lowest(old(vmm.pmm.used), vmm.pmm.totalPages, op.pages, s)
               && vmm.data == Extended(old(vmm.data), WindowPage(virt), s, op.pages))
    && (virt == 0 ==> vmm.next == old(vmm.next))
    && (made && op.AllocOp? && virt == 0 ==>
          || op.pages == 0 || NoRun(old(vmm.pmm.used), vmm.pmm.totalPages, op.pages)
          || exists s: nat ::
               && Lowest(old(vmm.pmm.used), vmm.pmm.totalPages, op.pages, s)
               && NoRun(vmm.pmm.used + Range(s, op.pages), vmm.pmm.totalPages, 1))
    && (virt == 0 && (!made || op.AllocOp?) ==> vmm.data == old(vmm.data))
    && (made && op.FreeOp? ==> virt == 0 && vmm.data == old(vmm.data) - Range(WindowPage(op.virt), op.pages))
    && KeepsEntries(old(vmm.tables), old(vmm.next), old(vmm.data), vmm.tables, vmm.data, vmm.boot.p4)
  }

  method StepAlloc(vmm: Vmm, op: Op) returns (made: bool, virt: nat)
    requires vmm.Owned() && op.AllocOp?
    modifies vmm, vmm.pmm, vmm.pmm.bitmap
    ensures vmm.Owned() && (made <==> old(InReach(vmm, op)))
    ensures Effect(vmm, op, made, virt)
  {
    hide Vmm.Owned, Vmm.TablesReached, Extended, Lowest, Range, NoRun, WindowPage, Filled, Carries, KeepsEntries;
    made, virt := false, 0;
    var pages, flags := op.pages, op.flags;
    ghost var tables0, next0, data0 := vmm.tables, vmm.next, vmm.data;
    EntriesKept(tables0, next0, data0, vmm.boot.p4);
    var reached := vmm.CanReach(pages);
    if reached && flags < 4096 && (pages <= vmm.pmm.totalPages ==> vmm.next + pages * 4096 < 0x1_0000_0000_0000_0000) {
      made := true;
      ghost var s, done;
      virt, s, done := vmm.Alloc(pages, flags);
      FilledCarries(vmm.tables, vmm.data, vmm.boot.p4, tables0, next0, data0, s, done, flags);
    }
  }

  method StepFree(vmm: Vmm, op: Op) returns (made: bool)
    requires vmm.Owned() && op.FreeOp?
    modifies vmm, vmm.pmm, vmm.pmm.bitmap
    ensures vmm.Owned() && (made <==> old(InReach(vmm, op)))
    ensures Effect(vmm, op, made, 0)
  {
    hide Vmm.Owned, Vmm.TablesReached, Extended, Lowest, Range, NoRun, WindowPage, Spared, Carries, KeepsEntries;
    made := false;
    var from, pages := op.virt, op.pages;
    ghost var tables0, data0 := vmm.tables, vmm.data;
    EntriesKept(tables0, vmm.next, data0, vmm.boot.p4);
    if 0xFFFF_FFFF_C000_0000 <= from && from + pages * 4096 <= vmm.next {
      made := true;
      vmm.Free(from, pages);
      SparedKeeps(vmm.tables, vmm.data, vmm.boot.p4, tables0, vmm.next, data0, WindowPage(from), pages);
    }
  }

  /** One call; one out of reach is not made. */
  method Step(vmm: Vmm, op: Op) returns (made: bool, virt: nat)
    requires vmm.Owned()
    modifies vmm, vmm.pmm, vmm.pmm.bitmap
    ensures vmm.Owned() && (made <==> old(InReach(vmm, op)))
    ensures Effect(vmm, op, made, virt)
  {
    hide Vmm.Owned, Effect, InReach;
    match op {
      case AllocOp(_, _) =>
        made, virt := StepAlloc(vmm, op);
      case FreeOp(_, _) =>
        made := StepFree(vmm, op);
        virt := 0;
    }
  }

  lemma OwnedFacts(vmm: Vmm)
    requires vmm.Owned()
    ensures vmm.pmm.Valid() && vmm.pmm.usedPages == |vmm.pmm.used|
    ensures 0xFFFF_FFFF_C000_0000 <= vmm.next < 0x1_0000_0000_0000_0000 && vmm.next % 4096 == 0
  {
  }

  lemma Conclude(vmm: Vmm)
    requires vmm.Owned() && BootFrames(vmm.boot)
    ensures Injective(vmm.data)
    ensures vmm.pmm.usedPages == |vmm.reserved| + (|vmm.tables| - 3) + |vmm.data|
    ensures forall k: nat :: k < WindowPage(vmm.next) ==>
              var e := Entry(vmm.tables, vmm.boot.p4, WindowPath(k));
              && (Present(e) <==> k in vmm.data)
              && (k in vmm.data ==> e / 4096 == vmm.data[k] && e / 4096 in vmm.pmm.used && e / 4096 !in vmm.tables)
  {
    hide Shape, Marked, Entry, Mapped, Frames, Present;
    Accounting(vmm.boot, vmm.pmm.totalPages, vmm.reserved, vmm.tables.Keys, vmm.data, vmm.pmm.used);
    assert |vmm.tables| == |vmm.tables.Keys|;
    FrameFacts(vmm.boot, vmm.pmm.totalPages, vmm.reserved, vmm.tables.Keys, vmm.data, vmm.pmm.used);
    forall k: nat | k < WindowPage(vmm.next)
      ensures var e := Entry(vmm.tables, vmm.boot.p4, WindowPath(k));
              && (Present(e) <==> k in vmm.data)
              && (k in vmm.data ==> e / 4096 == vmm.data[k] && e / 4096 in vmm.pmm.used && e / 4096 !in vmm.tables)
    {
      PageAt(vmm.tables, vmm.boot.p4, WindowPage(vmm.next), vmm.data, k);
    }
  }

  lemma FrameFacts(b: Boot, total: nat, reserved: set<nat>, keys: set<nat>, data: map<nat, nat>, used: set<nat>)
    requires Frames(b, total, reserved, keys, data, used)
    ensures Injective(data) && forall k :: k in data ==> data[k] in used && data[k] !in keys
  {
    assert forall k :: k in data ==> data[k] in data.Values;
  }

  lemma PageAt(tables: Tables, p4: nat, n: nat, data: map<nat, nat>, k: nat)
    requires Mapped(tables, p4, n, data) && k < n
    ensures PageIs(Entry(tables, p4, WindowPath(k)), k, data) && !Present(0)
  {
  }
}
