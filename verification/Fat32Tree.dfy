/** Looking up names, and what a node found that way stands for. */
module Fat32Tree {
  import opened Bytes
  import opened Fat32Layout
  import opened Fat32Chain
  import opened Fat32Name
  import opened Fat32Dir
  import opened Fat32State
  import opened Fat32Moves
  import opened Fat32Abs
  import opened Fat32Volume
  import opened Fat32Scan

  /** An in-memory node: what lookup copies out of a slot, and where the slot is. */
  datatype Node = Node(name: Name, isDir: bool, size: nat, first: nat, dirCluster: nat, dirOffset: nat)

  /** The node still matches the slot that names its head. */
  ghost predicate NodeOk(g: Geometry, f: Fs, n: Node)
  {
    && n.first in f.owner && n.dirCluster in f.spot
    && f.spot[n.dirCluster].head == f.owner[n.first].head
    && n.dirOffset < PerCluster(g)
    && f.owner[n.first].index == f.spot[n.dirCluster].index * PerCluster(g) + n.dirOffset
    && (n.isDir <==> n.first in f.slots)
  }

  /** Every named head keeps its slot and its kind, every placed cluster its place, every file its chain. */
  ghost predicate NodesKept(f0: Fs, f1: Fs)
  {
    && f0.slots.Keys <= f1.slots.Keys
    && (forall k :: k in f0.owner ==>
          k in f1.owner && f1.owner[k] == f0.owner[k] && (k in f1.slots <==> k in f0.slots))
    && (forall c :: c in f0.spot ==> c in f1.spot && f1.spot[c] == f0.spot[c])
    && (forall k :: k in f0.owner && k !in f0.slots && k in f0.chains ==> k in f1.chains && f1.chains[k] == f0.chains[k])
  }

  lemma KeptSame(f: Fs)
    ensures NodesKept(f, f)
  {
  }

  lemma KeptTwice(f0: Fs, f1: Fs, f2: Fs)
    requires NodesKept(f0, f1) && NodesKept(f1, f2)
    ensures NodesKept(f0, f2)
  {
  }

  /** On a volume this driver made, the attribute filters only tell files from directories. */
  lemma PlainHits(f: Fs, d: nat, k: nat, w: Filter)
    requires Entries(f.slots, f.owner) && d in f.slots && k < |f.slots[d]|
    ensures IsSlot(f.slots[d][k])
    ensures w.LookupName? || w.RmdirName? ==> (Hits(w, f.slots[d][k]) <==> Named(f.slots[d][k], w.name))
    ensures w.UnlinkName? ==>
              (Hits(w, f.slots[d][k]) <==> Named(f.slots[d][k], w.name) && Attr(f.slots[d][k]) == 0)
    ensures w.AnyEntry? ==> (Hits(w, f.slots[d][k]) <==> IsLive(f.slots[d][k]))
  {
    hide SlotName, SlotFirst;
    var s := f.slots[d][k];
    if IsLive(s) { assert EntryOk(f.slots, f.owner, d, k, s); }
  }

  /** The slot a scan by name found is the one that lookup's map reads. */
  lemma FoundIs(f: Fs, d: nat, n: Name, p: nat)
    requires Entries(f.slots, f.owner) && d in f.slots
    requires ScanHit(f.slots[d], LookupName(n), p)
    ensures Find(f.slots[d], n) == p && n in DirMap(f.slots[d]) && DirMap(f.slots[d])[n] == SlotFirst(f.slots[d][p])
    ensures EntryOk(f.slots, f.owner, d, p, f.slots[d][p]) && IsLive(f.slots[d][p])
  {
    hide Entries, DirMap, SlotName, SlotFirst, Attr, Hits;
    forall k | 0 <= k <= p
      ensures Hits(LookupName(n), f.slots[d][k]) <==> Named(f.slots[d][k], n)
    {
      PlainHits(f, d, k, LookupName(n));
    }
    FindIs(f.slots[d], n, p);
    MapAt(f.slots[d], n);
    EntryAt(f, d, p);
  }

  lemma EntryAt(f: Fs, d: nat, p: nat)
    requires Entries(f.slots, f.owner) && d in f.slots && p < |f.slots[d]|
    ensures IsSlot(f.slots[d][p])
    ensures IsLive(f.slots[d][p]) ==> EntryOk(f.slots, f.owner, d, p, f.slots[d][p])
  {
  }

  lemma NotFound(f: Fs, d: nat, n: Name)
    requires Entries(f.slots, f.owner) && d in f.slots
    requires forall k :: 0 <= k < |f.slots[d]| ==> IsSlot(f.slots[d][k]) && !Hits(LookupName(n), f.slots[d][k])
    ensures n !in DirMap(f.slots[d])
  {
    hide Entries, DirMap, SlotName, SlotFirst, Attr, Hits;
    forall k | 0 <= k < |f.slots[d]|
      ensures !Named(f.slots[d][k], n)
    {
      PlainHits(f, d, k, LookupName(n));
    }
    FindIs(f.slots[d], n, -1);
    MapAt(f.slots[d], n);
  }

  function NodeOf(s: Slot, name: Name, cluster: nat, index: nat): Node
    requires IsSlot(s)
  {
    Node(name, HasDirBit(s), SlotSize(s), SlotFirst(s), cluster, index)
  }

  lemma NodeMade(g: Geometry, disk: Disk, f: Fs, d: nat, j: nat, i: nat, name: Name)
    requires Consistent(g, disk, f) && At(g, f, d, j, i)
    requires var s := f.slots[d][j * PerCluster(g) + i];
             IsSlot(s) && EntryOk(f.slots, f.owner, d, j * PerCluster(g) + i, s)
    ensures NodeOk(g, f, NodeOf(f.slots[d][j * PerCluster(g) + i], name, f.chains[d][j], i))
  {
    hide Entries, SlotFirst, DirSlots, Owners, Sizes, SlotBytes, Tails, Spots, ChainLinks, DiskShape, IsChain, Consistent;
    ChainInside(g, disk, f, d);
  }

  /** What is known of the node made from the slot that a lookup scan found. */
  ghost predicate Answers(f: Fs, dir: nat, name: Name, n: Node)
  {
    && dir in f.slots && name in DirMap(f.slots[dir]) && n.first == DirMap(f.slots[dir])[name] && n.name == name
    && n.first in f.owner && f.owner[n.first].head == dir
    && (!n.isDir ==> n.size == FileSize(f.slots, f.owner, n.first))
  }

  lemma FoundNode(g: Geometry, disk: Disk, f: Fs, dir: nat, name: Name, j: nat, i: nat, s: Slot)
    requires Consistent(g, disk, f) && At(g, f, dir, j, i)
    requires ScanHit(f.slots[dir], LookupName(name), j * PerCluster(g) + i)
    requires IsSlot(s) && s == f.slots[dir][j * PerCluster(g) + i]
    ensures NodeOk(g, f, NodeOf(s, name, f.chains[dir][j], i))
    ensures Answers(f, dir, name, NodeOf(s, name, f.chains[dir][j], i))
  {
    hide Consistent, DirMap, Entries, DirSlots, Hits, NodeOk, Readable, TailOk, SlotFirst, SlotSize, DiskShape;
    DirFacts(g, disk, f, dir);
    HeadFacts(g, disk, f);
    FoundIs(f, dir, name, j * PerCluster(g) + i);
    NodeMade(g, disk, f, dir, j, i, name);
  }

  /** Lookup answers by the folder's map, and the node it returns matches its slot. */
  method Lookup(v: Volume, dir: nat, name: Name) returns (r: Option<Node>)
    requires v.Mounted() && dir in v.fs.slots
    ensures r.Some? <==> name in DirMap(v.fs.slots[dir])
    ensures r.Some? ==> Answers(v.fs, dir, name, r.value) && NodeOk(v.g, v.fs, r.value)
  {
    hide Volume.Valid, Consistent, DirMap, Entries, ClusterSlots, DirSlots, Hits, NodeOk, Readable, TailOk, Owners, NodeOf, ScanHit;
    var hit, cluster, i, buf;
    ghost var j;
    DirFacts(v.g, v.disk, v.fs, dir);
    hit, cluster, i, buf, j := ScanDir(v, dir, LookupName(name), v.fs.chains[dir], v.fs.slots[dir]);
    if !hit {
      NotFound(v.fs, dir, name);
      return None;
    }
    ReadableFacts(v.g, v.disk, v.fs.chains[dir], v.fs.slots[dir]);
    SlotPlace(v.g, v.disk, v.fs.chains[dir], j, i);
    SlotBytesAt(buf, i);
    var s := buf[32 * i..32 * i + 32];
    FoundNode(v.g, v.disk, v.fs, dir, name, j, i, s);
    r := Some(NodeOf(s, name, cluster, i));
  }
}
