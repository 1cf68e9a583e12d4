/** What a consistent FAT32 volume is, and how chains of clusters read as bytes and as slots. */
module Fat32State {
  import opened Bytes
  import opened Fat32Layout
  import opened Fat32Chain
  import opened Fat32Dir

  /** Position `index` in the chain or slot list that starts at cluster `head`. */
  datatype Place = Place(head: nat, index: nat)

  /**
   * The structure read off a disk.  A head is the first cluster of a file or directory.
   * `chains` gives its clusters in order and `spot` finds a cluster in the chains; `slots` holds
   * the slot list of every directory and `owner` finds the live slot that names a head.  `pending`
   * are the heads no slot names, which exist only inside an operation.
   */
  datatype Fs = Fs(
    chains: map<nat, seq<nat>>, spot: map<nat, Place>,
    slots: map<nat, seq<Slot>>, owner: map<nat, Place>, pending: set<nat>)

  // ---------------------------------------------------------------- consistency

  /** In range, linked in order, ended by an end-of-chain mark. */
  ghost predicate IsChain(g: Geometry, fat: seq<nat>, h: nat, ch: seq<nat>)
  {
    && |fat| == g.Limit() && |ch| > 0 && ch[0] == h
    && (forall i :: 0 <= i < |ch| ==> InRange(g, ch[i]))
    && (forall i :: 0 <= i < |ch| - 1 ==> fat[ch[i]] == ch[i + 1])
    && fat[ch[|ch| - 1]] >= EOC_MIN
  }

  type Chains = map<nat, seq<nat>>
  type Tree = map<nat, seq<Slot>>

  ghost predicate ChainLinks(g: Geometry, fat: seq<nat>, chains: Chains)
  {
    forall h :: h in chains ==> IsChain(g, fat, h, chains[h])
  }

  /** Every cluster of every chain has one place: chains are acyclic and pairwise disjoint. */
  ghost predicate Spots(chains: Chains, spot: map<nat, Place>)
  {
    && (forall h, i :: h in chains && 0 <= i < |chains[h]| ==>
          chains[h][i] in spot && spot[chains[h][i]] == Place(h, i))
    && (forall c :: c in spot ==>
          spot[c].head in chains && spot[c].index < |chains[spot[c].head]|
          && chains[spot[c].head][spot[c].index] == c)
  }

  /** Every cluster marked used belongs to a chain. */
  ghost predicate NoLeak(g: Geometry, fat: seq<nat>, f: Fs)
  {
    |fat| == g.Limit() && forall c :: InRange(g, c) && fat[c] != FREE ==> c in f.spot
  }

  ghost predicate Heads(g: Geometry, f: Fs)
  {
    && f.chains.Keys == f.owner.Keys + {g.root} + f.pending
    && g.root !in f.owner && g.root !in f.pending && g.root in f.slots
    && f.pending !! f.owner.Keys
    && f.slots.Keys <= f.owner.Keys + {g.root}
  }

  /** A live slot names a head, is the only one to do so, and is marked as a directory
      exactly when the head is one. */
  ghost predicate EntryOk(slots: Tree, owner: map<nat, Place>, d: nat, i: nat, s: Slot)
    requires IsSlot(s)
  {
    && Attr(s) in {0, ATTR_DIRECTORY}
    && SlotFirst(s) in owner && owner[SlotFirst(s)] == Place(d, i)
    && (Attr(s) == ATTR_DIRECTORY <==> SlotFirst(s) in slots)
  }

  ghost predicate Entries(slots: Tree, owner: map<nat, Place>)
  {
    forall d, i :: d in slots && 0 <= i < |slots[d]| ==>
      IsSlot(slots[d][i]) && (IsLive(slots[d][i]) ==> EntryOk(slots, owner, d, i, slots[d][i]))
  }

  /** Place `p` holds a live slot that names `h`. */
  ghost predicate OwnerOk(slots: Tree, h: nat, p: Place)
  {
    && p.head in slots && p.index < |slots[p.head]|
    && var s := slots[p.head][p.index];
       IsSlot(s) && IsLive(s) && SlotFirst(s) == h
  }

  ghost predicate Owners(slots: Tree, owner: map<nat, Place>)
  {
    forall h :: h in owner ==> OwnerOk(slots, h, owner[h])
  }

  /** Everything after the first never-used slot is never-used. */
  ghost predicate TailOk(s: seq<Slot>)
  {
    && (forall i :: 0 <= i < |s| ==> IsSlot(s[i]))
    && (forall i, j :: 0 <= i < j < |s| && IsEnd(s[i]) ==> IsEnd(s[j]))
  }

  ghost predicate Tails(slots: Tree) { forall d :: d in slots ==> TailOk(slots[d]) }

  /** The clusters of a chain, as a list of pieces. */
  ghost function Parts(disk: Disk, ch: seq<nat>): (r: seq<seq<byte>>)
    ensures |r| == |ch|
  {
    seq(|ch|, i requires 0 <= i < |ch| => if ch[i] < |disk.clus| then disk.clus[ch[i]] else [])
  }

  /** All bytes of a chain. */
  ghost function ChainBytes(disk: Disk, ch: seq<nat>): seq<byte>
  {
    Flat(Parts(disk, ch))
  }

  ghost function SlotParts(disk: Disk, ch: seq<nat>): (r: seq<seq<Slot>>)
    ensures |r| == |ch|
  {
    seq(|ch|, i requires 0 <= i < |ch| => if ch[i] < |disk.clus| then ClusterSlots(disk.clus[ch[i]]) else [])
  }

  /** The slot list of a directory chain. */
  ghost function DirSlots(disk: Disk, ch: seq<nat>): seq<Slot>
  {
    Flat(SlotParts(disk, ch))
  }

  ghost predicate SlotBytes(disk: Disk, slots: Tree, chains: Chains)
  {
    forall d :: d in slots ==> d in chains && slots[d] == DirSlots(disk, chains[d])
  }

  /** The size recorded in the slot that names `h`. */
  ghost function FileSize(slots: Tree, owner: map<nat, Place>, h: nat): nat
  {
    if h in owner && OwnerOk(slots, h, owner[h]) then SlotSize(slots[owner[h].head][owner[h].index]) else 0
  }

  /** A file's recorded size fits in its chain. */
  ghost predicate Sizes(g: Geometry, slots: Tree, owner: map<nat, Place>, chains: Chains)
  {
    forall h :: h in owner && h !in slots ==>
      h in chains && FileSize(slots, owner, h) <= |chains[h]| * g.ClusterSize()
  }

  ghost predicate Consistent(g: Geometry, disk: Disk, f: Fs)
  {
    && g.spc > 0
    && DiskShape(g, disk)
    && ChainLinks(g, disk.fat, f.chains)
    && Spots(f.chains, f.spot)
    && Heads(g, f)
    && Entries(f.slots, f.owner)
    && Owners(f.slots, f.owner)
    && Tails(f.slots)
    && SlotBytes(disk, f.slots, f.chains)
    && Sizes(g, f.slots, f.owner, f.chains)
  }

  /** Slots per cluster. */
  function PerCluster(g: Geometry): nat { 16 * g.spc }

  // ---------------------------------------------------------------- reading chains

  lemma PartsLen(g: Geometry, disk: Disk, ch: seq<nat>)
    requires DiskShape(g, disk) && forall i :: 0 <= i < |ch| ==> InRange(g, ch[i])
    ensures AllLen(Parts(disk, ch), g.ClusterSize())
    ensures AllLen(SlotParts(disk, ch), PerCluster(g))
    ensures |ChainBytes(disk, ch)| == |ch| * g.ClusterSize()
    ensures |DirSlots(disk, ch)| == |ch| * PerCluster(g)
  {
    FlatLen(Parts(disk, ch), g.ClusterSize());
    FlatLen(SlotParts(disk, ch), PerCluster(g));
  }

  /** Slot `i` of the `j`-th cluster is slot `j * per + i` of the directory. */
  lemma SlotPlace(g: Geometry, disk: Disk, ch: seq<nat>, j: nat, i: nat)
    requires DiskShape(g, disk) && forall k :: 0 <= k < |ch| ==> InRange(g, ch[k])
    requires j < |ch| && i < PerCluster(g)
    ensures 0 <= j * PerCluster(g) + i < |DirSlots(disk, ch)|
    ensures i < |ClusterSlots(disk.clus[ch[j]])|
    ensures DirSlots(disk, ch)[j * PerCluster(g) + i] == ClusterSlots(disk.clus[ch[j]])[i]
  {
    PartsLen(g, disk, ch);
    FlatAt(SlotParts(disk, ch), j, PerCluster(g), i);
  }

  /** Clusters outside a chain do not matter to it. */
  lemma ChainFrame(disk: Disk, c: nat, x: seq<byte>, ch: seq<nat>)
    requires c < |disk.clus| && c !in ch
    ensures Parts(disk.(clus := disk.clus[c := x]), ch) == Parts(disk, ch)
    ensures SlotParts(disk.(clus := disk.clus[c := x]), ch) == SlotParts(disk, ch)
    ensures ChainBytes(disk.(clus := disk.clus[c := x]), ch) == ChainBytes(disk, ch)
    ensures DirSlots(disk.(clus := disk.clus[c := x]), ch) == DirSlots(disk, ch)
  {
  }

  /** The table does not matter to the contents of a chain. */
  lemma FatFrame(disk: Disk, fat: seq<nat>, ch: seq<nat>)
    ensures ChainBytes(disk.(fat := fat), ch) == ChainBytes(disk, ch)
    ensures DirSlots(disk.(fat := fat), ch) == DirSlots(disk, ch)
  {
    assert Parts(disk.(fat := fat), ch) == Parts(disk, ch);
    assert SlotParts(disk.(fat := fat), ch) == SlotParts(disk, ch);
  }

  /** Appending a cluster to a chain appends its bytes and its slots. */
  lemma ChainAppend(disk: Disk, ch: seq<nat>, c: nat)
    requires c < |disk.clus|
    ensures ChainBytes(disk, ch + [c]) == ChainBytes(disk, ch) + disk.clus[c]
    ensures DirSlots(disk, ch + [c]) == DirSlots(disk, ch) + ClusterSlots(disk.clus[c])
  {
    assert Parts(disk, ch + [c]) == Parts(disk, ch) + [disk.clus[c]];
    assert SlotParts(disk, ch + [c]) == SlotParts(disk, ch) + [ClusterSlots(disk.clus[c])];
    FlatAppend(Parts(disk, ch), [disk.clus[c]]);
    FlatAppend(SlotParts(disk, ch), [ClusterSlots(disk.clus[c])]);
    FlatOne(disk.clus[c]);
    FlatOne(ClusterSlots(disk.clus[c]));
  }

  ghost predicate NoRepeat(ch: seq<nat>) { forall i, j :: 0 <= i < j < |ch| ==> ch[i] != ch[j] }

  /** Storing a slot into the `j`-th cluster of a directory replaces that slot of its list. */
  lemma SlotStore(g: Geometry, disk: Disk, ch: seq<nat>, j: nat, i: nat, x: Slot)
    requires DiskShape(g, disk) && forall k :: 0 <= k < |ch| ==> InRange(g, ch[k])
    requires NoRepeat(ch) && j < |ch| && i < PerCluster(g) && IsSlot(x)
    ensures 32 * i + 32 <= g.ClusterSize()
    ensures 0 <= j * PerCluster(g) + i < |DirSlots(disk, ch)|
    ensures DirSlots(disk.(clus := disk.clus[ch[j] := Splice(disk.clus[ch[j]], 32 * i, x)]), ch)
            == DirSlots(disk, ch)[j * PerCluster(g) + i := x]
  {
    hide ClusterSlots, Splice, DirSlots;
    var b := disk.clus[ch[j]];
    SlotPlace(g, disk, ch, j, i);
    PartsLen(g, disk, ch);
    var b' := Splice(b, 32 * i, x);
    SlotSplice(b, i, x);
    SlotFlat(g, disk, ch, j, b');
    UpdateInside(DirSlots(disk, ch), j * PerCluster(g), ClusterSlots(b), i, x);
  }

  lemma SlotStoreParts(disk: Disk, ch: seq<nat>, j: nat, x: seq<byte>)
    requires NoRepeat(ch) && j < |ch| && forall k :: 0 <= k < |ch| ==> ch[k] < |disk.clus|
    ensures SlotParts(disk.(clus := disk.clus[ch[j] := x]), ch) == SlotParts(disk, ch)[j := ClusterSlots(x)]
  {
    hide ClusterSlots;
  }

  /** One cluster's slots inside the list, and the list with them replaced. */
  lemma SlotFlat(g: Geometry, disk: Disk, ch: seq<nat>, j: nat, x: seq<byte>)
    requires DiskShape(g, disk) && forall k :: 0 <= k < |ch| ==> InRange(g, ch[k])
    requires NoRepeat(ch) && j < |ch| && |x| == g.ClusterSize()
    ensures |ClusterSlots(disk.clus[ch[j]])| == PerCluster(g) && 0 <= j * PerCluster(g)
    ensures j * PerCluster(g) + PerCluster(g) <= |DirSlots(disk, ch)|
    ensures DirSlots(disk, ch)[j * PerCluster(g)..j * PerCluster(g) + PerCluster(g)] == ClusterSlots(disk.clus[ch[j]])
    ensures DirSlots(disk.(clus := disk.clus[ch[j] := x]), ch)
            == Splice(DirSlots(disk, ch), j * PerCluster(g), ClusterSlots(x))
  {
    PartsLen(g, disk, ch);
    SlotStoreParts(disk, ch, j, x);
    FlatUpdate(SlotParts(disk, ch), j, PerCluster(g), ClusterSlots(x));
    FlatSplit(SlotParts(disk, ch), j, PerCluster(g));
  }

  lemma UpdateInside<T>(all: seq<T>, off: nat, part: seq<T>, i: nat, x: T)
    requires off + |part| <= |all| && i < |part| && all[off..off + |part|] == part
    ensures Splice(all, off, part[i := x]) == all[off + i := x]
  {
    var l, r := Splice(all, off, part[i := x]), all[off + i := x];
    forall k | 0 <= k < |all|
      ensures l[k] == r[k]
    {
      if off <= k < off + |part| { assert all[off..off + |part|][k - off] == part[k - off]; }
    }
  }
}
