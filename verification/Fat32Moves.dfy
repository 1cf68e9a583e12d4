/** The elementary moves between consistent volumes. */
module Fat32Moves {
  import opened Bytes
  import opened Fat32Layout
  import opened Fat32Chain
  import opened Fat32Dir
  import opened Fat32State

  lemma ChainInside(g: Geometry, disk: Disk, f: Fs, h: nat)
    requires Consistent(g, disk, f) && h in f.chains
    ensures IsChain(g, disk.fat, h, f.chains[h]) && NoRepeat(f.chains[h])
    ensures forall i :: 0 <= i < |f.chains[h]| ==> f.chains[h][i] in f.spot && f.spot[f.chains[h][i]] == Place(h, i)
  {
    hide Entries, Owners, Tails, SlotBytes, Sizes, DiskShape;
    var ch := f.chains[h];
    forall i, j | 0 <= i < j < |ch|
      ensures ch[i] != ch[j]
    {
      assert f.spot[ch[i]] == Place(h, i) && f.spot[ch[j]] == Place(h, j);
    }
  }

  /** A cluster with a place is in range and not marked free; so is every head. */
  lemma PlacedIsUsed(g: Geometry, fat: seq<nat>, chains: Chains, spot: map<nat, Place>, c: nat)
    requires |fat| == g.Limit() && ChainLinks(g, fat, chains) && Spots(chains, spot)
    ensures c in spot ==> InRange(g, c) && fat[c] != FREE
    ensures c in chains ==> c in spot
  {
    if c in spot {
      var p := spot[c];
      var ch := chains[p.head];
      assert IsChain(g, fat, p.head, ch);
      if p.index < |ch| - 1 {
        assert fat[ch[p.index]] == ch[p.index + 1];
      }
    }
    if c in chains {
      assert IsChain(g, fat, c, chains[c]) && chains[c][0] == c;
    }
  }

  /** Entries outside a chain do not matter to it. */
  lemma ChainKept(g: Geometry, fat: seq<nat>, h: nat, ch: seq<nat>, c: nat, v: nat)
    requires |fat| == g.Limit() && IsChain(g, fat, h, ch) && c < |fat| && c !in ch
    ensures IsChain(g, fat[c := v], h, ch)
  {
  }

  // ---------------------------------------------------------------- a new chain

  ghost function NewChain(f: Fs, c: nat): Fs
  {
    f.(chains := f.chains[c := [c]], spot := f.spot[c := Place(c, 0)], pending := f.pending + {c})
  }

  lemma NewChainLinks(g: Geometry, fat: seq<nat>, chains: Chains, spot: map<nat, Place>, c: nat)
    requires |fat| == g.Limit() && ChainLinks(g, fat, chains) && Spots(chains, spot)
    requires InRange(g, c) && fat[c] == FREE
    ensures c !in spot && c !in chains
    ensures ChainLinks(g, fat[c := EOC_MAX], chains[c := [c]])
    ensures Spots(chains[c := [c]], spot[c := Place(c, 0)])
  {
    PlacedIsUsed(g, fat, chains, spot, c);
    NewSpot(chains, spot, c);
    hide Spots;
    forall h | h in chains
      ensures IsChain(g, fat[c := EOC_MAX], h, chains[h])
    {
      assert IsChain(g, fat, h, chains[h]);
      hide IsChain;
      forall i | 0 <= i < |chains[h]| ensures chains[h][i] in spot { SpotAt(chains, spot, h, i); }
      ChainKept(g, fat, h, chains[h], c, EOC_MAX);
    }
  }

  lemma NewSpot(chains: Chains, spot: map<nat, Place>, c: nat)
    requires Spots(chains, spot) && c !in spot && c !in chains
    ensures Spots(chains[c := [c]], spot[c := Place(c, 0)])
  {
  }

  /** Slot lists do not depend on the table. */
  lemma SlotBytesFat(g: Geometry, disk: Disk, fat: seq<nat>, slots: Tree, chains: Chains, chains': Chains)
    requires DiskShape(g, disk) && DiskShape(g, disk.(fat := fat))
    requires ChainLinks(g, disk.fat, chains) && ChainLinks(g, fat, chains')
    requires slots.Keys <= chains.Keys && slots.Keys <= chains'.Keys
    requires forall d :: d in slots ==> chains'[d] == chains[d]
    requires SlotBytes(disk, slots, chains)
    ensures SlotBytes(disk.(fat := fat), slots, chains')
  {
    forall d | d in slots
      ensures slots[d] == DirSlots(disk.(fat := fat), chains'[d])
    {
      assert IsChain(g, disk.fat, d, chains[d]);
      FatFrame(disk, fat, chains[d]);
    }
  }

  lemma AllocMove(g: Geometry, disk: Disk, f: Fs, c: nat)
    requires Consistent(g, disk, f) && InRange(g, c) && disk.fat[c] == FREE
    ensures c !in f.spot && c !in f.chains
    ensures Consistent(g, disk.(fat := disk.fat[c := EOC_MAX]), NewChain(f, c))
    ensures NoLeak(g, disk.fat, f) ==> NoLeak(g, disk.fat[c := EOC_MAX], NewChain(f, c))
  {
    hide ChainLinks, Spots, Entries, Owners, Tails, SlotBytes;
    NewChainLinks(g, disk.fat, f.chains, f.spot, c);
    SlotBytesFat(g, disk, disk.fat[c := EOC_MAX], f.slots, f.chains, NewChain(f, c).chains);
  }

  // ---------------------------------------------------------------- writing a non-directory cluster

  lemma SlotBytesWrite(g: Geometry, disk: Disk, slots: Tree, chains: Chains, c: nat, x: seq<byte>)
    requires DiskShape(g, disk) && ChainLinks(g, disk.fat, chains) && slots.Keys <= chains.Keys
    requires InRange(g, c) && |x| == g.ClusterSize()
    requires forall d :: d in slots ==> c !in chains[d]
    requires SlotBytes(disk, slots, chains)
    ensures SlotBytes(disk.(clus := disk.clus[c := x]), slots, chains)
  {
    forall d | d in slots
      ensures slots[d] == DirSlots(disk.(clus := disk.clus[c := x]), chains[d])
    {
      assert IsChain(g, disk.fat, d, chains[d]);
      ChainFrame(disk, c, x, chains[d]);
    }
  }

  /** A cluster belongs to at most one chain. */
  lemma OneChain(chains: Chains, spot: map<nat, Place>, c: nat, h: nat)
    requires Spots(chains, spot) && h in chains
    requires c !in spot || spot[c].head != h
    ensures c !in chains[h]
  {
    forall i | 0 <= i < |chains[h]| ensures chains[h][i] != c { SpotAt(chains, spot, h, i); }
  }

  lemma NotInChain(g: Geometry, disk: Disk, f: Fs, c: nat, h: nat)
    requires Consistent(g, disk, f) && h in f.chains && (c !in f.spot || f.spot[c].head != h)
    ensures c !in f.chains[h]
  {
    OneChain(f.chains, f.spot, c, h);
  }

  /** Bytes of free clusters, of unnamed chains and of files are no part of the structure. */
  lemma WriteMove(g: Geometry, disk: Disk, f: Fs, c: nat, x: seq<byte>)
    requires Consistent(g, disk, f) && InRange(g, c) && |x| == g.ClusterSize()
    requires c in f.spot ==> f.spot[c].head !in f.slots
    ensures Consistent(g, disk.(clus := disk.clus[c := x]), f)
  {
    hide ChainLinks, Spots, Entries, Owners, Tails, SlotBytes, Sizes;
    forall d | d in f.slots ensures c !in f.chains[d] { OneChain(f.chains, f.spot, c, d); }
    SlotBytesWrite(g, disk, f.slots, f.chains, c, x);
  }

  // ---------------------------------------------------------------- lengthening a chain

  ghost function Longer(chains: Chains, h: nat, c: nat): Chains
    requires h in chains
  {
    (chains - {c})[h := chains[h] + [c]]
  }

  /** Chain `h` takes over the unnamed one-cluster chain `c`; a directory gains its slots. */
  ghost function Linked(disk: Disk, f: Fs, h: nat, c: nat): Fs
    requires h in f.chains && c < |disk.clus|
  {
    f.(chains := Longer(f.chains, h, c),
       spot := f.spot[c := Place(h, |f.chains[h]|)],
       slots := if h in f.slots then f.slots[h := f.slots[h] + ClusterSlots(disk.clus[c])] else f.slots,
       pending := f.pending - {c})
  }

  lemma LongerLinks(g: Geometry, fat: seq<nat>, chains: Chains, spot: map<nat, Place>, h: nat, c: nat)
    requires |fat| == g.Limit() && ChainLinks(g, fat, chains) && Spots(chains, spot)
    requires h in chains && c in chains && h != c && chains[c] == [c]
    ensures var last := chains[h][|chains[h]| - 1];
            InRange(g, last) && ChainLinks(g, fat[last := c], Longer(chains, h, c))
    ensures Spots(Longer(chains, h, c), spot[c := Place(h, |chains[h]|)])
  {
    assert IsChain(g, fat, h, chains[h]) && IsChain(g, fat, c, chains[c]);
    var last := chains[h][|chains[h]| - 1];
    assert spot[chains[c][0]] == Place(c, 0);
    OneChain(chains, spot, c, h);
    LongerSpots(chains, spot, h, c);
    LongerChain(g, fat, chains, spot, h, c);
    hide Spots, IsChain;
    forall k | k in Longer(chains, h, c)
      ensures IsChain(g, fat[last := c], k, Longer(chains, h, c)[k])
    {
      if k != h {
        assert IsChain(g, fat, k, chains[k]);
        LastSpot(chains, spot, h);
        OneChain(chains, spot, last, k);
        ChainKept(g, fat, k, chains[k], last, c);
      }
    }
  }

  /** The lengthened chain itself. */
  lemma LongerChain(g: Geometry, fat: seq<nat>, chains: Chains, spot: map<nat, Place>, h: nat, c: nat)
    requires Spots(chains, spot) && h in chains && c in chains && h != c
    requires IsChain(g, fat, h, chains[h]) && IsChain(g, fat, c, [c]) && c !in chains[h]
    ensures IsChain(g, fat[chains[h][|chains[h]| - 1] := c], h, chains[h] + [c])
  {
    hide Spots;
    var ch := chains[h];
    LastSpot(chains, spot, h);
    forall i | 0 <= i < |ch| - 1 ensures ch[i] != ch[|ch| - 1] { SpotAt(chains, spot, h, i); }
  }

  lemma SpotAt(chains: Chains, spot: map<nat, Place>, h: nat, i: nat)
    requires Spots(chains, spot) && h in chains && i < |chains[h]|
    ensures chains[h][i] in spot && spot[chains[h][i]] == Place(h, i)
  {
  }

  lemma LastSpot(chains: Chains, spot: map<nat, Place>, h: nat)
    requires Spots(chains, spot) && h in chains && |chains[h]| > 0
    ensures chains[h][|chains[h]| - 1] in spot
    ensures spot[chains[h][|chains[h]| - 1]] == Place(h, |chains[h]| - 1)
  {
  }

  lemma LongerSpots(chains: Chains, spot: map<nat, Place>, h: nat, c: nat)
    requires Spots(chains, spot)
    requires h in chains && c in chains && h != c && chains[c] == [c]
    ensures Spots(Longer(chains, h, c), spot[c := Place(h, |chains[h]|)])
  {
    var chains', spot' := Longer(chains, h, c), spot[c := Place(h, |chains[h]|)];
    assert spot[chains[c][0]] == Place(c, 0);
    forall k, i | k in chains' && 0 <= i < |chains'[k]|
      ensures chains'[k][i] in spot' && spot'[chains'[k][i]] == Place(k, i)
    {
      if k != h || i < |chains[h]| {
        assert chains'[k][i] == chains[k][i];
        assert spot[chains[k][i]] == Place(k, i);
      }
    }
    forall x | x in spot'
      ensures spot'[x].head in chains' && spot'[x].index < |chains'[spot'[x].head]|
           && chains'[spot'[x].head][spot'[x].index] == x
    {
      if x != c { assert spot[x].head != c; }
    }
  }

  lemma LongerSizes(g: Geometry, slots: Tree, slots': Tree, owner: map<nat, Place>, chains: Chains, h: nat, c: nat)
    requires Owners(slots, owner) && owner.Keys <= chains.Keys && Sizes(g, slots, owner, chains)
    requires Owners(slots', owner) && slots'.Keys == slots.Keys
    requires h in chains && c in chains && c !in owner
    requires forall k :: k in owner ==>
               slots'[owner[k].head][owner[k].index] == slots[owner[k].head][owner[k].index]
    ensures owner.Keys <= Longer(chains, h, c).Keys && Sizes(g, slots', owner, Longer(chains, h, c))
  {
    hide Owners;
    forall k | k in owner && k !in slots'
      ensures OwnerOk(slots', k, owner[k])
      ensures SlotSize(slots'[owner[k].head][owner[k].index]) <= |Longer(chains, h, c)[k]| * g.ClusterSize()
    {
      OwnerAt(slots, owner, k);
      OwnerAt(slots', owner, k);
      Distribute(|chains[k]|, 1, g.ClusterSize());
    }
  }

  lemma OwnerAt(slots: Tree, owner: map<nat, Place>, h: nat)
    requires Owners(slots, owner) && h in owner
    ensures OwnerOk(slots, h, owner[h])
  {
  }

  /** Slots that may stand behind others: none is live, and nothing follows an end mark. */
  ghost predicate Harmless(slots: seq<Slot>, more: seq<Slot>)
  {
    NoneLive(more) && TailOk(slots + more)
  }

  lemma BlankHarmless(slots: seq<Slot>, more: seq<Slot>)
    requires TailOk(slots) && forall i :: 0 <= i < |more| ==> IsSlot(more[i]) && IsEnd(more[i])
    ensures Harmless(slots, more)
  {
  }

  /** A directory that gains only such slots stays well formed. */
  lemma GrownTree(slots: Tree, owner: map<nat, Place>, d: nat, more: seq<Slot>)
    requires Entries(slots, owner) && Owners(slots, owner) && Tails(slots) && d in slots
    requires Harmless(slots[d], more)
    ensures Entries(slots[d := slots[d] + more], owner)
    ensures Owners(slots[d := slots[d] + more], owner)
    ensures Tails(slots[d := slots[d] + more])
  {
    var slots' := slots[d := slots[d] + more];
    forall e, i | e in slots' && 0 <= i < |slots'[e]|
      ensures IsSlot(slots'[e][i]) && (IsLive(slots'[e][i]) ==> EntryOk(slots', owner, e, i, slots'[e][i]))
    {
      if e != d || i < |slots[d]| { assert slots'[e][i] == slots[e][i]; }
    }
    forall h | h in owner
      ensures OwnerOk(slots', h, owner[h])
    {
      assert OwnerOk(slots, h, owner[h]);
    }
    assert TailOk(slots[d]);
    assert TailOk(slots[d] + more);
  }

  lemma LinkedSlotBytes(g: Geometry, disk: Disk, fat': seq<nat>, slots: Tree, chains: Chains, h: nat, c: nat)
    requires DiskShape(g, disk) && DiskShape(g, disk.(fat := fat'))
    requires ChainLinks(g, disk.fat, chains) && slots.Keys <= chains.Keys && SlotBytes(disk, slots, chains)
    requires h in chains && InRange(g, c) && c !in slots
    requires ChainLinks(g, fat', Longer(chains, h, c))
    ensures var slots' := if h in slots then slots[h := slots[h] + ClusterSlots(disk.clus[c])] else slots;
            slots'.Keys <= Longer(chains, h, c).Keys
            && SlotBytes(disk.(fat := fat'), slots', Longer(chains, h, c))
  {
    hide DirSlots, ClusterSlots;
    var slots' := if h in slots then slots[h := slots[h] + ClusterSlots(disk.clus[c])] else slots;
    forall d | d in slots'
      ensures slots'[d] == DirSlots(disk.(fat := fat'), Longer(chains, h, c)[d])
    {
      assert IsChain(g, disk.fat, d, chains[d]);
      if d == h {
        ChainAppend(disk, chains[h], c);
      }
      assert IsChain(g, fat', d, Longer(chains, h, c)[d]);
      FatFrame(disk, fat', Longer(chains, h, c)[d]);
    }
  }

  lemma FatShape(g: Geometry, disk: Disk, c: nat, v: nat)
    requires DiskShape(g, disk) && InRange(g, c) && v < 0x1000_0000
    ensures DiskShape(g, disk.(fat := disk.fat[c := v]))
  {
  }

  ghost function Last(f: Fs, h: nat): nat
    requires h in f.chains && |f.chains[h]| > 0
  {
    f.chains[h][|f.chains[h]| - 1]
  }

  lemma SameOwners(slots: Tree, owner: map<nat, Place>, d: nat, more: seq<Slot>, k: nat)
    requires Owners(slots, owner) && k in owner && d in slots
    ensures OwnerOk(slots, k, owner[k])
    ensures slots[d := slots[d] + more][owner[k].head][owner[k].index] == slots[owner[k].head][owner[k].index]
  {
  }

  lemma LinkedSizes(g: Geometry, disk: Disk, f: Fs, h: nat, c: nat)
    requires Consistent(g, disk, f) && h in f.chains && c in f.pending && c < |disk.clus|
    requires Owners(Linked(disk, f, h, c).slots, f.owner)
    ensures f.owner.Keys <= Longer(f.chains, h, c).Keys
    ensures Sizes(g, Linked(disk, f, h, c).slots, f.owner, Longer(f.chains, h, c))
  {
    hide ChainLinks, Spots, Entries, Tails, Owners, SlotBytes, Sizes, ClusterSlots, DiskShape;
    var f' := Linked(disk, f, h, c);
    forall k | k in f.owner
      ensures OwnerOk(f.slots, k, f.owner[k])
           && f'.slots[f.owner[k].head][f.owner[k].index] == f.slots[f.owner[k].head][f.owner[k].index]
    {
      OwnerAt(f.slots, f.owner, k);
      if h in f.slots {
        SameOwners(f.slots, f.owner, h, ClusterSlots(disk.clus[c]), k);
      }
    }
    LongerSizes(g, f.slots, f'.slots, f.owner, f.chains, h, c);
  }

  lemma LinkMove(g: Geometry, disk: Disk, f: Fs, h: nat, c: nat)
    requires Consistent(g, disk, f) && g.Limit() <= EOC_MIN
    requires h in f.chains && c in f.pending && h != c && f.chains[c] == [c]
    requires h in f.slots && c < |disk.clus| ==> Harmless(f.slots[h], ClusterSlots(disk.clus[c]))
    ensures |f.chains[h]| > 0 && InRange(g, Last(f, h)) && InRange(g, c)
    ensures Consistent(g, disk.(fat := disk.fat[Last(f, h) := c]), Linked(disk, f, h, c))
  {
    hide ChainLinks, Spots, Entries, Tails, Owners, SlotBytes, Sizes, ClusterSlots, Harmless;
    ChainInside(g, disk, f, h);
    ChainInside(g, disk, f, c);
    LongerLinks(g, disk.fat, f.chains, f.spot, h, c);
    FatShape(g, disk, Last(f, h), c);
    LinkedSlotBytes(g, disk, disk.fat[Last(f, h) := c], f.slots, f.chains, h, c);
    if h in f.slots {
      GrownTree(f.slots, f.owner, h, ClusterSlots(disk.clus[c]));
    }
    LinkedSizes(g, disk, f, h, c);
  }

  lemma LinkNoLeak(g: Geometry, disk: Disk, f: Fs, h: nat, c: nat)
    requires Consistent(g, disk, f) && NoLeak(g, disk.fat, f)
    requires h in f.chains && c in f.pending && h != c && c < |disk.clus|
    ensures |f.chains[h]| > 0 && InRange(g, Last(f, h))
    ensures NoLeak(g, disk.fat[Last(f, h) := c], Linked(disk, f, h, c))
  {
    hide ChainLinks, Spots, Entries, Tails, Owners, SlotBytes, Sizes, ClusterSlots;
    ChainInside(g, disk, f, h);
    LastSpot(f.chains, f.spot, h);
  }

  // ---------------------------------------------------------------- storing a slot

  ghost function SetSlot(slots: Tree, d: nat, p: nat, x: Slot): (r: Tree)
    requires d in slots && p < |slots[d]|
    ensures r.Keys == slots.Keys
  {
    slots[d := slots[d][p := x]]
  }

  /** The disk after slot `i` of cluster `c` is overwritten. */
  ghost function SlotDisk(disk: Disk, c: nat, i: nat, x: Slot): Disk
    requires c < |disk.clus| && 32 * i + 32 <= |disk.clus[c]| && IsSlot(x)
  {
    disk.(clus := disk.clus[c := Splice(disk.clus[c], 32 * i, x)])
  }

  lemma StoredSlotBytes(g: Geometry, disk: Disk, slots: Tree, chains: Chains, spot: map<nat, Place>,
                        d: nat, j: nat, i: nat, x: Slot)
    requires DiskShape(g, disk) && ChainLinks(g, disk.fat, chains) && Spots(chains, spot)
    requires slots.Keys <= chains.Keys && SlotBytes(disk, slots, chains)
    requires d in slots && j < |chains[d]| && i < PerCluster(g) && IsSlot(x)
    ensures InRange(g, chains[d][j]) && 32 * i + 32 <= g.ClusterSize()
    ensures 0 <= j * PerCluster(g) + i < |slots[d]|
    ensures DiskShape(g, SlotDisk(disk, chains[d][j], i, x))
    ensures SlotBytes(SlotDisk(disk, chains[d][j], i, x), SetSlot(slots, d, j * PerCluster(g) + i, x), chains)
  {
    hide DirSlots, ClusterSlots, Spots, Splice;
    assert IsChain(g, disk.fat, d, chains[d]);
    SpotsApart(chains, spot, d);
    SlotStore(g, disk, chains[d], j, i, x);
    SpotAt(chains, spot, d, j);
    var disk' := SlotDisk(disk, chains[d][j], i, x);
    forall e | e in slots && e != d
      ensures slots[e] == DirSlots(disk', chains[e])
    {
      assert IsChain(g, disk.fat, e, chains[e]);
      OneChain(chains, spot, chains[d][j], e);
      ChainFrame(disk, chains[d][j], Splice(disk.clus[chains[d][j]], 32 * i, x), chains[e]);
    }
  }

  lemma SpotsApart(chains: Chains, spot: map<nat, Place>, d: nat)
    requires Spots(chains, spot) && d in chains
    ensures NoRepeat(chains[d])
  {
    hide Spots;
    forall a, b | 0 <= a < b < |chains[d]|
      ensures chains[d][a] != chains[d][b]
    {
      SpotAt(chains, spot, d, a);
      SpotAt(chains, spot, d, b);
    }
  }

  /** Slot `i` of the `j`-th cluster of directory `d` exists. */
  ghost predicate At(g: Geometry, f: Fs, d: nat, j: nat, i: nat)
  {
    && d in f.slots && d in f.chains && j < |f.chains[d]| && i < PerCluster(g)
    && 0 <= j * PerCluster(g) + i < |f.slots[d]|
  }

  // ---------------------------------------------------------------- naming a head

  /** Slot `p` is the first unused one, and `x` names the unnamed, blank one-cluster chain `c`. */
  ghost predicate CanAttach(g: Geometry, disk: Disk, f: Fs, d: nat, p: nat, x: Slot, c: nat)
  {
    && d in f.slots && p < |f.slots[d]| && IsSlot(f.slots[d][p]) && !IsLive(f.slots[d][p])
    && (forall k :: 0 <= k < p ==> IsSlot(f.slots[d][k]) && !IsEnd(f.slots[d][k]))
    && IsSlot(x) && IsLive(x) && Attr(x) in {0, ATTR_DIRECTORY} && SlotFirst(x) == c && SlotSize(x) == 0
    && c in f.pending && c in f.chains && f.chains[c] == [c] && c < |disk.clus|
    && (forall k :: 0 <= k < |ClusterSlots(disk.clus[c])| ==> IsEnd(ClusterSlots(disk.clus[c])[k]))
  }

  ghost function Attached(f: Fs, d: nat, p: nat, x: Slot, c: nat, blank: seq<Slot>): Fs
    requires d in f.slots && p < |f.slots[d]| && IsSlot(x)
  {
    var slots := SetSlot(f.slots, d, p, x);
    f.(slots := if Attr(x) == ATTR_DIRECTORY then slots[c := blank] else slots,
       owner := f.owner[c := Place(d, p)],
       pending := f.pending - {c})
  }

  lemma AttachTree(f: Fs, d: nat, p: nat, x: Slot, c: nat, blank: seq<Slot>)
    requires Entries(f.slots, f.owner) && Owners(f.slots, f.owner) && Tails(f.slots)
    requires d in f.slots && p < |f.slots[d]| && IsSlot(f.slots[d][p]) && !IsLive(f.slots[d][p])
    requires forall k :: 0 <= k < p ==> IsSlot(f.slots[d][k]) && !IsEnd(f.slots[d][k])
    requires IsSlot(x) && IsLive(x) && Attr(x) in {0, ATTR_DIRECTORY} && SlotFirst(x) == c
    requires c !in f.owner && c !in f.slots
    requires forall k :: 0 <= k < |blank| ==> IsSlot(blank[k]) && IsEnd(blank[k])
    ensures var f' := Attached(f, d, p, x, c, blank);
            Entries(f'.slots, f'.owner) && Owners(f'.slots, f'.owner) && Tails(f'.slots)
  {
    hide Entries, Owners, Tails, Attached, SlotFirst, Attr, IsLive;
    AttachEntries(f, d, p, x, c, blank);
    AttachOwners(f, d, p, x, c, blank);
    AttachTails(f, d, p, x, c, blank);
  }

  lemma AttachEntries(f: Fs, d: nat, p: nat, x: Slot, c: nat, blank: seq<Slot>)
    requires Entries(f.slots, f.owner) && d in f.slots && p < |f.slots[d]|
    requires IsSlot(x) && Attr(x) in {0, ATTR_DIRECTORY} && SlotFirst(x) == c && c !in f.owner && c !in f.slots
    requires forall k :: 0 <= k < |blank| ==> IsSlot(blank[k]) && IsEnd(blank[k])
    ensures Entries(Attached(f, d, p, x, c, blank).slots, Attached(f, d, p, x, c, blank).owner)
  {
    hide SlotFirst, Attr, IsLive;
    var f' := Attached(f, d, p, x, c, blank);
    forall e, i | e in f'.slots && 0 <= i < |f'.slots[e]|
      ensures IsSlot(f'.slots[e][i])
      ensures IsLive(f'.slots[e][i]) ==> EntryOk(f'.slots, f'.owner, e, i, f'.slots[e][i])
    {
      if e in f.slots && !(e == d && i == p) {
        assert f'.slots[e][i] == f.slots[e][i];
      } else if e !in f.slots {
        EndNotLive(blank[i]);
      }
    }
  }

  lemma AttachOwners(f: Fs, d: nat, p: nat, x: Slot, c: nat, blank: seq<Slot>)
    requires Owners(f.slots, f.owner) && d in f.slots && p < |f.slots[d]| && IsSlot(f.slots[d][p]) && !IsLive(f.slots[d][p])
    requires IsSlot(x) && IsLive(x) && SlotFirst(x) == c && c !in f.owner && c !in f.slots
    ensures Owners(Attached(f, d, p, x, c, blank).slots, Attached(f, d, p, x, c, blank).owner)
  {
    hide SlotFirst, Attr, IsLive;
    var f' := Attached(f, d, p, x, c, blank);
    forall h | h in f'.owner
      ensures OwnerOk(f'.slots, h, f'.owner[h])
    {
      if h != c { assert OwnerOk(f.slots, h, f.owner[h]); }
    }
  }

  lemma AttachTails(f: Fs, d: nat, p: nat, x: Slot, c: nat, blank: seq<Slot>)
    requires Tails(f.slots) && d in f.slots && p < |f.slots[d]| && c !in f.slots && IsSlot(x) && IsLive(x)
    requires forall k :: 0 <= k < p ==> IsSlot(f.slots[d][k]) && !IsEnd(f.slots[d][k])
    requires forall k :: 0 <= k < |blank| ==> IsSlot(blank[k]) && IsEnd(blank[k])
    ensures Tails(Attached(f, d, p, x, c, blank).slots)
  {
    hide SlotFirst, Attr, IsLive;
    LiveNotEnd(x);
    assert TailOk(f.slots[d]);
    assert TailOk(f.slots[d][p := x]);
    assert TailOk(blank);
  }

  lemma EndNotLive(s: Slot)
    requires IsSlot(s) && IsEnd(s)
    ensures !IsLive(s)
  {
  }

  lemma LiveNotEnd(s: Slot)
    requires IsSlot(s) && IsLive(s)
    ensures !IsEnd(s)
  {
  }

  lemma AttachSizes(g: Geometry, f: Fs, d: nat, p: nat, x: Slot, c: nat, blank: seq<Slot>)
    requires Owners(f.slots, f.owner) && f.owner.Keys <= f.chains.Keys && Sizes(g, f.slots, f.owner, f.chains)
    requires d in f.slots && p < |f.slots[d]| && IsSlot(f.slots[d][p]) && !IsLive(f.slots[d][p])
    requires IsSlot(x) && SlotSize(x) == 0 && c !in f.owner && c !in f.slots && c in f.chains
    requires Owners(Attached(f, d, p, x, c, blank).slots, Attached(f, d, p, x, c, blank).owner)
    ensures Sizes(g, Attached(f, d, p, x, c, blank).slots, Attached(f, d, p, x, c, blank).owner, f.chains)
  {
    hide SlotSize, IsLive, SlotFirst;
    var f' := Attached(f, d, p, x, c, blank);
    forall h | h in f'.owner && h !in f'.slots
      ensures OwnerOk(f'.slots, h, f'.owner[h])
           && SlotSize(f'.slots[f'.owner[h].head][f'.owner[h].index]) <= |f.chains[h]| * g.ClusterSize()
    {
      OwnerAt(f'.slots, f'.owner, h);
      if h != c {
        OwnerAt(f.slots, f.owner, h);
      }
    }
  }

  lemma AttachMove(g: Geometry, disk: Disk, f: Fs, d: nat, j: nat, i: nat, x: Slot, c: nat)
    requires Consistent(g, disk, f) && At(g, f, d, j, i) && CanAttach(g, disk, f, d, j * PerCluster(g) + i, x, c)
    ensures InRange(g, f.chains[d][j]) && f.chains[d][j] < |disk.clus|
    ensures 32 * i + 32 <= g.ClusterSize() == |disk.clus[f.chains[d][j]]|
    ensures Consistent(g, SlotDisk(disk, f.chains[d][j], i, x),
                       Attached(f, d, j * PerCluster(g) + i, x, c, ClusterSlots(disk.clus[c])))
  {
    hide ChainLinks, Spots, Entries, Tails, Owners, SlotBytes, Sizes, ClusterSlots, SlotFirst, SlotSize, IsLive, Attr;
    var p := j * PerCluster(g) + i;
    var blank := ClusterSlots(disk.clus[c]);
    var f' := Attached(f, d, p, x, c, blank);
    StoredSlotBytes(g, disk, f.slots, f.chains, f.spot, d, j, i, x);
    var disk' := SlotDisk(disk, f.chains[d][j], i, x);
    AttachTree(f, d, p, x, c, blank);
    AttachSizes(g, f, d, p, x, c, blank);
    NewDirBytes(g, disk, f, d, j, c);
    AddDirBytes(g, disk', SetSlot(f.slots, d, p, x), f.chains, c, blank);
  }

  /** The one cluster of an unnamed chain is not touched by a store into a directory. */
  lemma NewDirBytes(g: Geometry, disk: Disk, f: Fs, d: nat, j: nat, c: nat)
    requires Consistent(g, disk, f) && d in f.slots && d in f.chains && j < |f.chains[d]|
    requires c in f.pending && f.chains[c] == [c]
    ensures InRange(g, c) && c != f.chains[d][j] && c != d && c !in f.slots
  {
    hide Entries, Tails, Owners, SlotBytes, Sizes, DirSlots;
    assert f.chains[c][0] in f.spot;
    assert f.spot[f.chains[d][j]] == Place(d, j);
    assert IsChain(g, disk.fat, c, f.chains[c]);
  }

  lemma AddDirBytes(g: Geometry, disk: Disk, slots: Tree, chains: Chains, c: nat, blank: seq<Slot>)
    requires DiskShape(g, disk) && ChainLinks(g, disk.fat, chains) && slots.Keys <= chains.Keys
    requires SlotBytes(disk, slots, chains)
    requires c in chains && chains[c] == [c] && InRange(g, c) && blank == ClusterSlots(disk.clus[c])
    ensures SlotBytes(disk, slots[c := blank], chains)
  {
    assert SlotParts(disk, [c]) == [ClusterSlots(disk.clus[c])];
    FlatOne(ClusterSlots(disk.clus[c]));
  }

  // ---------------------------------------------------------------- forgetting a head

  ghost function Detached(f: Fs, d: nat, p: nat, h: nat): Fs
    requires d in f.slots && p < |f.slots[d]| && IsSlot(f.slots[d][p])
  {
    f.(slots := SetSlot(f.slots, d, p, Erased(f.slots[d][p])) - {h},
       owner := f.owner - {h},
       pending := f.pending + {h})
  }

  ghost predicate NoneLive(s: seq<Slot>)
  {
    forall i :: 0 <= i < |s| ==> IsSlot(s[i]) && !IsLive(s[i])
  }

  /** Slot `p` names `h`, a file or an empty directory. */
  ghost predicate CanDetach(f: Fs, d: nat, p: nat, h: nat)
  {
    && d in f.slots && p < |f.slots[d]| && IsSlot(f.slots[d][p]) && IsLive(f.slots[d][p])
    && SlotFirst(f.slots[d][p]) == h
    && (h in f.slots ==> NoneLive(f.slots[h]))
  }

  lemma DetachTree(f: Fs, d: nat, p: nat, h: nat)
    requires Entries(f.slots, f.owner) && Owners(f.slots, f.owner) && Tails(f.slots)
    requires d in f.slots && p < |f.slots[d]|
    requires IsSlot(f.slots[d][p]) && IsLive(f.slots[d][p]) && SlotFirst(f.slots[d][p]) == h
    requires h in f.slots ==> NoneLive(f.slots[h])
    ensures var f' := Detached(f, d, p, h);
            Entries(f'.slots, f'.owner) && Owners(f'.slots, f'.owner) && Tails(f'.slots)
    ensures h in f.owner
  {
    hide Entries, Owners, Tails, Detached, SlotFirst, Attr, IsLive, NoneLive;
    DetachEntries(f, d, p, h);
    DetachOwners(f, d, p, h);
    DetachTails(f, d, p, h);
  }

  lemma DetachEntries(f: Fs, d: nat, p: nat, h: nat)
    requires Entries(f.slots, f.owner) && d in f.slots && p < |f.slots[d]|
    requires IsSlot(f.slots[d][p]) && IsLive(f.slots[d][p]) && SlotFirst(f.slots[d][p]) == h
    ensures Entries(Detached(f, d, p, h).slots, Detached(f, d, p, h).owner) && h in f.owner && f.owner[h] == Place(d, p)
  {
    hide SlotFirst, Attr, IsLive;
    var f' := Detached(f, d, p, h);
    ErasedDead(f.slots[d][p]);
    assert EntryOk(f.slots, f.owner, d, p, f.slots[d][p]);
    forall e, i | e in f'.slots && 0 <= i < |f'.slots[e]|
      ensures IsSlot(f'.slots[e][i])
      ensures IsLive(f'.slots[e][i]) ==> EntryOk(f'.slots, f'.owner, e, i, f'.slots[e][i])
    {
      if e != d || i != p {
        assert f'.slots[e][i] == f.slots[e][i];
      }
    }
  }

  lemma ErasedDead(s: Slot)
    requires IsSlot(s)
    ensures IsSlot(Erased(s)) && !IsLive(Erased(s)) && !IsEnd(Erased(s))
  {
  }

  lemma DetachOwners(f: Fs, d: nat, p: nat, h: nat)
    requires Owners(f.slots, f.owner) && d in f.slots && p < |f.slots[d]| && IsSlot(f.slots[d][p])
    requires SlotFirst(f.slots[d][p]) == h && (h in f.slots ==> NoneLive(f.slots[h]))
    ensures Owners(Detached(f, d, p, h).slots, Detached(f, d, p, h).owner)
  {
    hide SlotFirst, Attr, IsLive;
    var f' := Detached(f, d, p, h);
    forall k | k in f'.owner
      ensures OwnerOk(f'.slots, k, f'.owner[k])
    {
      assert OwnerOk(f.slots, k, f.owner[k]);
    }
  }

  lemma DetachTails(f: Fs, d: nat, p: nat, h: nat)
    requires Tails(f.slots) && d in f.slots && p < |f.slots[d]| && IsSlot(f.slots[d][p]) && IsLive(f.slots[d][p])
    ensures Tails(Detached(f, d, p, h).slots)
  {
    hide SlotFirst, Attr, IsLive, Erased;
    LiveNotEnd(f.slots[d][p]);
    ErasedDead(f.slots[d][p]);
    assert TailOk(f.slots[d]);
    assert TailOk(f.slots[d][p := Erased(f.slots[d][p])]);
  }

  lemma DetachSizes(g: Geometry, f: Fs, d: nat, p: nat, h: nat)
    requires Owners(f.slots, f.owner) && f.owner.Keys <= f.chains.Keys && Sizes(g, f.slots, f.owner, f.chains)
    requires d in f.slots && p < |f.slots[d]| && IsSlot(f.slots[d][p]) && SlotFirst(f.slots[d][p]) == h
    requires Owners(Detached(f, d, p, h).slots, Detached(f, d, p, h).owner)
    ensures Sizes(g, Detached(f, d, p, h).slots, Detached(f, d, p, h).owner, f.chains)
  {
    hide SlotSize, IsLive, SlotFirst;
    var f' := Detached(f, d, p, h);
    forall k | k in f'.owner && k !in f'.slots
      ensures OwnerOk(f'.slots, k, f'.owner[k])
           && SlotSize(f'.slots[f'.owner[k].head][f'.owner[k].index]) <= |f.chains[k]| * g.ClusterSize()
    {
      OwnerAt(f'.slots, f'.owner, k);
      OwnerAt(f.slots, f.owner, k);
    }
  }

  lemma LessDirBytes(g: Geometry, disk: Disk, slots: Tree, chains: Chains, h: nat)
    requires DiskShape(g, disk) && ChainLinks(g, disk.fat, chains) && slots.Keys <= chains.Keys
    requires SlotBytes(disk, slots, chains)
    ensures SlotBytes(disk, slots - {h}, chains)
  {
  }

  lemma DetachMove(g: Geometry, disk: Disk, f: Fs, d: nat, j: nat, i: nat, h: nat)
    requires Consistent(g, disk, f) && At(g, f, d, j, i) && CanDetach(f, d, j * PerCluster(g) + i, h)
    ensures InRange(g, f.chains[d][j]) && f.chains[d][j] < |disk.clus|
    ensures 32 * i + 32 <= g.ClusterSize() == |disk.clus[f.chains[d][j]]|
    ensures h in f.owner && h in f.chains && h != g.root
    ensures Consistent(g, SlotDisk(disk, f.chains[d][j], i, Erased(f.slots[d][j * PerCluster(g) + i])),
                       Detached(f, d, j * PerCluster(g) + i, h))
  {
    hide ChainLinks, Spots, Entries, Tails, Owners, SlotBytes, Sizes, ClusterSlots, SlotFirst, SlotSize, IsLive, Attr;
    var p := j * PerCluster(g) + i;
    var x := Erased(f.slots[d][p]);
    StoredSlotBytes(g, disk, f.slots, f.chains, f.spot, d, j, i, x);
    DetachTree(f, d, p, h);
    DetachSizes(g, f, d, p, h);
    LessDirBytes(g, SlotDisk(disk, f.chains[d][j], i, x), SetSlot(f.slots, d, p, x), f.chains, h);
  }

  // ---------------------------------------------------------------- resizing a file

  ghost function ResizedFs(f: Fs, d: nat, p: nat, x: Slot): Fs
    requires d in f.slots && p < |f.slots[d]|
  {
    f.(slots := SetSlot(f.slots, d, p, x))
  }

  /** `x` differs from slot `p` at most in its size, which fits the chain it names. */
  ghost predicate CanResize(g: Geometry, f: Fs, d: nat, p: nat, x: Slot)
  {
    && d in f.slots && p < |f.slots[d]| && IsSlot(f.slots[d][p]) && IsSlot(x)
    && var s := f.slots[d][p];
       && IsLive(s) && x[..11] == s[..11] && x[0] == s[0] && Attr(x) == Attr(s)
       && SlotFirst(x) == SlotFirst(s) && SlotFirst(s) in f.chains
       && SlotSize(x) <= |f.chains[SlotFirst(s)]| * g.ClusterSize()
  }

  lemma ResizeTree(f: Fs, d: nat, p: nat, x: Slot)
    requires Entries(f.slots, f.owner) && Owners(f.slots, f.owner) && Tails(f.slots)
    requires d in f.slots && p < |f.slots[d]| && IsSlot(f.slots[d][p]) && IsLive(f.slots[d][p])
    requires IsSlot(x) && x[0] == f.slots[d][p][0]
    requires Attr(x) == Attr(f.slots[d][p]) && SlotFirst(x) == SlotFirst(f.slots[d][p])
    ensures var slots := SetSlot(f.slots, d, p, x);
            Entries(slots, f.owner) && Owners(slots, f.owner) && Tails(slots)
  {
    hide SlotFirst, Attr;
    var slots := SetSlot(f.slots, d, p, x);
    forall e, i | e in slots && 0 <= i < |slots[e]|
      ensures IsSlot(slots[e][i])
      ensures IsLive(slots[e][i]) ==> EntryOk(slots, f.owner, e, i, slots[e][i])
    {
      assert IsLive(f.slots[e][i]) ==> EntryOk(f.slots, f.owner, e, i, f.slots[e][i]);
    }
    forall k | k in f.owner
      ensures OwnerOk(slots, k, f.owner[k])
    {
      assert OwnerOk(f.slots, k, f.owner[k]);
    }
    assert TailOk(f.slots[d]);
    assert TailOk(f.slots[d][p := x]);
  }

  lemma ResizeSizes(g: Geometry, f: Fs, d: nat, p: nat, x: Slot)
    requires Entries(f.slots, f.owner) && Owners(f.slots, f.owner)
    requires f.owner.Keys <= f.chains.Keys && Sizes(g, f.slots, f.owner, f.chains)
    requires d in f.slots && p < |f.slots[d]| && IsSlot(f.slots[d][p]) && IsLive(f.slots[d][p]) && IsSlot(x)
    requires SlotFirst(f.slots[d][p]) in f.chains
    requires SlotSize(x) <= |f.chains[SlotFirst(f.slots[d][p])]| * g.ClusterSize()
    requires Owners(SetSlot(f.slots, d, p, x), f.owner)
    ensures Sizes(g, SetSlot(f.slots, d, p, x), f.owner, f.chains)
  {
    hide SlotSize, IsLive, SlotFirst, Attr;
    var slots := SetSlot(f.slots, d, p, x);
    forall k | k in f.owner && k !in slots
      ensures OwnerOk(slots, k, f.owner[k])
           && SlotSize(slots[f.owner[k].head][f.owner[k].index]) <= |f.chains[k]| * g.ClusterSize()
    {
      OwnerAt(slots, f.owner, k);
      OwnerAt(f.slots, f.owner, k);
    }
  }

  lemma ResizeMove(g: Geometry, disk: Disk, f: Fs, d: nat, j: nat, i: nat, x: Slot)
    requires Consistent(g, disk, f) && At(g, f, d, j, i) && CanResize(g, f, d, j * PerCluster(g) + i, x)
    ensures InRange(g, f.chains[d][j]) && f.chains[d][j] < |disk.clus|
    ensures 32 * i + 32 <= g.ClusterSize() == |disk.clus[f.chains[d][j]]|
    ensures Consistent(g, SlotDisk(disk, f.chains[d][j], i, x), ResizedFs(f, d, j * PerCluster(g) + i, x))
  {
    hide ChainLinks, Spots, Entries, Tails, Owners, SlotBytes, Sizes, ClusterSlots, SlotFirst, SlotSize, IsLive, Attr;
    var p := j * PerCluster(g) + i;
    StoredSlotBytes(g, disk, f.slots, f.chains, f.spot, d, j, i, x);
    ResizeTree(f, d, p, x);
    ResizeSizes(g, f, d, p, x);
  }

  // ---------------------------------------------------------------- freeing an unnamed chain

  ghost function Clusters(ch: seq<nat>): set<nat> { set i | 0 <= i < |ch| :: ch[i] }

  lemma {:induction false} WalkChain(g: Geometry, fat: seq<nat>, h: nat, ch: seq<nat>, i: nat)
    requires |fat| == g.Limit() && g.Limit() <= EOC_MIN && IsChain(g, fat, h, ch) && i < |ch|
    ensures WalkTo(fat, h, i, ch[i])
  {
    if i > 0 {
      WalkChain(g, fat, h, ch, i - 1);
      WalkStep(fat, h, i - 1, ch[i - 1]);
      assert fat[ch[i - 1]] == ch[i];
    }
  }

  /** Walking a well-formed chain meets exactly its clusters. */
  lemma ReachChain(g: Geometry, fat: seq<nat>, h: nat, ch: seq<nat>)
    requires |fat| == g.Limit() && g.Limit() <= EOC_MIN && IsChain(g, fat, h, ch)
    ensures Reach(fat, h) == Clusters(ch)
  {
    forall x | x in Clusters(ch)
      ensures 2 <= x < |fat| && Meets(fat, h, x)
      ensures 2 <= NextOf(fat, x) < |fat| ==> NextOf(fat, x) in Clusters(ch)
    {
      var i :| 0 <= i < |ch| && ch[i] == x;
      WalkChain(g, fat, h, ch, i);
      if i < |ch| - 1 { assert fat[ch[i]] == ch[i + 1] && ch[i + 1] in Clusters(ch); }
    }
    assert ch[0] in Clusters(ch);
    ReachIs(fat, h, Clusters(ch));
  }

  ghost function Dropped(f: Fs, h: nat): Fs
    requires h in f.chains
  {
    f.(chains := f.chains - {h}, spot := f.spot - Clusters(f.chains[h]), pending := f.pending - {h})
  }

  /** Freeing clusters of one chain leaves the others, and their places. */
  lemma DroppedLinks(g: Geometry, fat: seq<nat>, chains: Chains, spot: map<nat, Place>, h: nat, some: set<nat>)
    requires |fat| == g.Limit() && ChainLinks(g, fat, chains) && Spots(chains, spot) && h in chains
    requires some <= Clusters(chains[h])
    ensures ChainLinks(g, Freed(fat, some), chains - {h})
    ensures Spots(chains - {h}, spot - Clusters(chains[h]))
  {
    var v := Clusters(chains[h]);
    forall c | c in v
      ensures c in spot && spot[c].head == h
    {
      var i :| 0 <= i < |chains[h]| && chains[h][i] == c;
      SpotAt(chains, spot, h, i);
    }
    forall k, i | k in chains && k != h && 0 <= i < |chains[k]|
      ensures chains[k][i] !in v
    {
      SpotAt(chains, spot, k, i);
    }
    forall k | k in chains && k != h
      ensures IsChain(g, Freed(fat, some), k, chains[k])
    {
      assert IsChain(g, fat, k, chains[k]);
    }
    forall c | c in spot && c !in v
      ensures spot[c].head != h
    {
      assert chains[spot[c].head][spot[c].index] == c;
    }
  }

  lemma FreeMove(g: Geometry, disk: Disk, f: Fs, h: nat)
    requires Consistent(g, disk, f) && g.Limit() <= EOC_MIN && h in f.pending
    ensures Consistent(g, disk.(fat := Freed(disk.fat, Reach(disk.fat, h))), Dropped(f, h))
    ensures NoLeak(g, disk.fat, f) ==>
              NoLeak(g, Freed(disk.fat, Reach(disk.fat, h)), Dropped(f, h))
  {
    hide ChainLinks, Spots, Entries, Tails, Owners, SlotBytes, Sizes;
    ChainInside(g, disk, f, h);
    ReachChain(g, disk.fat, h, f.chains[h]);
    PartFreeMove(g, disk, f, h, Clusters(f.chains[h]));
  }

  /** Freeing some clusters of an unnamed chain: what is left of it is leaked. */
  lemma PartFreeMove(g: Geometry, disk: Disk, f: Fs, h: nat, some: set<nat>)
    requires Consistent(g, disk, f) && h in f.pending && h in f.chains && some <= Clusters(f.chains[h])
    ensures Consistent(g, disk.(fat := Freed(disk.fat, some)), Dropped(f, h))
  {
    hide ChainLinks, Spots, Entries, Tails, Owners, SlotBytes, Sizes;
    DroppedLinks(g, disk.fat, f.chains, f.spot, h, some);
    SlotBytesFat(g, disk, Freed(disk.fat, some), f.slots, f.chains, f.chains - {h});
    DroppedSizes(g, f.slots, f.owner, f.chains, h);
  }

  lemma DroppedSizes(g: Geometry, slots: Tree, owner: map<nat, Place>, chains: Chains, h: nat)
    requires Owners(slots, owner) && owner.Keys <= chains.Keys && Sizes(g, slots, owner, chains) && h !in owner
    ensures Sizes(g, slots, owner, chains - {h})
  {
  }

  // ---------------------------------------------------------------- a slot that reads as deleted

  /** Filling an unused slot with one that reads as deleted names nothing. */
  lemma ScarTree(g: Geometry, f: Fs, d: nat, p: nat, x: Slot)
    requires Entries(f.slots, f.owner) && Owners(f.slots, f.owner) && Tails(f.slots)
    requires d in f.slots && p < |f.slots[d]| && IsSlot(f.slots[d][p]) && !IsLive(f.slots[d][p])
    requires forall k :: 0 <= k < p ==> IsSlot(f.slots[d][k]) && !IsEnd(f.slots[d][k])
    requires IsSlot(x) && IsDeleted(x)
    requires f.owner.Keys <= f.chains.Keys && Sizes(g, f.slots, f.owner, f.chains)
    ensures var slots := SetSlot(f.slots, d, p, x);
            Entries(slots, f.owner) && Owners(slots, f.owner) && Tails(slots) && Sizes(g, slots, f.owner, f.chains)
  {
    hide SlotFirst, Attr, SlotSize;
    var slots := SetSlot(f.slots, d, p, x);
    forall e, i | e in slots && 0 <= i < |slots[e]|
      ensures IsSlot(slots[e][i])
      ensures IsLive(slots[e][i]) ==> EntryOk(slots, f.owner, e, i, slots[e][i])
    {
      if e != d || i != p { assert slots[e][i] == f.slots[e][i]; }
    }
    forall k | k in f.owner
      ensures OwnerOk(slots, k, f.owner[k])
      ensures slots[f.owner[k].head][f.owner[k].index] == f.slots[f.owner[k].head][f.owner[k].index]
    {
      assert OwnerOk(f.slots, k, f.owner[k]);
    }
    assert TailOk(f.slots[d]);
    assert TailOk(f.slots[d][p := x]);
  }

  lemma ScarMove(g: Geometry, disk: Disk, f: Fs, d: nat, j: nat, i: nat, x: Slot)
    requires Consistent(g, disk, f) && At(g, f, d, j, i)
    requires var p := j * PerCluster(g) + i;
             IsSlot(f.slots[d][p]) && !IsLive(f.slots[d][p])
             && forall k :: 0 <= k < p ==> IsSlot(f.slots[d][k]) && !IsEnd(f.slots[d][k])
    requires IsSlot(x) && IsDeleted(x)
    ensures InRange(g, f.chains[d][j]) && f.chains[d][j] < |disk.clus|
    ensures 32 * i + 32 <= g.ClusterSize() == |disk.clus[f.chains[d][j]]|
    ensures Consistent(g, SlotDisk(disk, f.chains[d][j], i, x), ResizedFs(f, d, j * PerCluster(g) + i, x))
  {
    hide ChainLinks, Spots, Entries, Tails, Owners, SlotBytes, Sizes, IsLive;
    StoredSlotBytes(g, disk, f.slots, f.chains, f.spot, d, j, i, x);
    ScarTree(g, f, d, j * PerCluster(g) + i, x);
  }
}
