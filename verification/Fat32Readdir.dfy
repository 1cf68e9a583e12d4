/** Listing a directory in pieces. */
module Fat32Readdir {
  import opened Numbers
  import opened Bytes
  import opened Fat32Layout
  import opened Fat32Chain
  import opened Fat32Name
  import opened Fat32Dir
  import opened Fat32State
  import opened Fat32Moves
  import opened Fat32Abs
  import opened Fat32Volume
  import opened Fat32Scan
  import opened Fat32Tree

  datatype Dirent = Dirent(ino: nat, off: nat, isDir: bool, name: Name)

  function DirentOf(s: Slot, index: nat): Dirent
    requires IsSlot(s)
  {
    Dirent(SlotFirst(s), index + 1, HasDirBit(s), SlotName(s))
  }

  ghost predicate Slots(slots: seq<Slot>) { forall k :: 0 <= k < |slots| ==> IsSlot(slots[k]) }

  /** The entries of the live slots from `a` on, in slot order. */
  ghost function ListFrom(slots: seq<Slot>, a: nat): (r: seq<Dirent>)
    requires Slots(slots)
    decreases |slots| - a
  {
    if a >= |slots| then []
    else (if IsLive(slots[a]) then [DirentOf(slots[a], a)] else []) + ListFrom(slots, a + 1)
  }

  /** Nothing is live from a never-used slot on. */
  lemma {:induction false} EndOfList(slots: seq<Slot>, a: nat)
    requires TailOk(slots)
    ensures Slots(slots)
    ensures a < |slots| && IsEnd(slots[a]) ==> ListFrom(slots, a) == []
    decreases |slots| - a
  {
    hide DirentOf;
    if a < |slots| && IsEnd(slots[a]) {
      EndNotLive(slots[a]);
      EndOfList(slots, a + 1);
    }
  }

  /** How far a listing call has come: what it has and what is left make up what was asked for. */
  ghost predicate Listed(slots: seq<Slot>, start: nat, p: nat, out: seq<Dirent>, offset0: nat, offset: nat)
  {
    && Slots(slots)
    && out + ListFrom(slots, Max(p, start)) == ListFrom(slots, start)
    && (out == [] ==> offset == offset0)
    && (out != [] ==> offset % 32 == 0 && start <= offset / 32
                      && ListFrom(slots, offset / 32) == ListFrom(slots, Max(p, start)))
  }

  lemma ListedSkip(slots: seq<Slot>, start: nat, p: nat, out: seq<Dirent>, offset0: nat, offset: nat)
    requires Listed(slots, start, p, out, offset0, offset) && p < |slots|
    requires p < start || !IsLive(slots[p])
    ensures Listed(slots, start, p + 1, out, offset0, offset)
  {
  }

  lemma ListedTake(slots: seq<Slot>, start: nat, p: nat, out: seq<Dirent>, offset0: nat, offset: nat)
    requires Listed(slots, start, p, out, offset0, offset) && start <= p < |slots| && IsLive(slots[p])
    ensures Listed(slots, start, p + 1, out + [DirentOf(slots[p], p)], offset0, (p + 1) * 32)
  {
    hide DirentOf;
    assert ListFrom(slots, p) == [DirentOf(slots[p], p)] + ListFrom(slots, p + 1);
    assert out + ListFrom(slots, p) == (out + [DirentOf(slots[p], p)]) + ListFrom(slots, p + 1);
  }

  /** The loop over one cluster whose slots are `slots[base..]`. */
  method ListCluster(buf: seq<byte>, start: nat, base: nat, count: nat, out0: seq<Dirent>, off0: nat,
                     ghost slots: seq<Slot>, ghost offset0: nat)
    returns (out: seq<Dirent>, off: nat, ended: bool)
    requires base + |ClusterSlots(buf)| <= |slots| && slots[base..base + |ClusterSlots(buf)|] == ClusterSlots(buf)
    requires Listed(slots, start, base, out0, offset0, off0) && |out0| < count && TailOk(slots)
    requires forall k :: 0 <= k < |slots| && IsLive(slots[k]) ==> Attr(slots[k]) != ATTR_LFN && !HasVolumeBit(slots[k])
    ensures |out| <= count
    ensures ended ==> out == ListFrom(slots, start) && Listed(slots, start, |slots|, out, offset0, off)
    ensures !ended && |out| < count ==> Listed(slots, start, base + |ClusterSlots(buf)|, out, offset0, off)
    ensures !ended && |out| == count ==> exists p :: Listed(slots, start, p, out, offset0, off)
  {
    hide Listed, DirentOf, ListFrom, ClusterSlots, Attr, HasVolumeBit;
    out, off := out0, off0;
    var n := |buf| / 32;
    var i := 0;
    var current := base;
    while i < n && |out| < count
      invariant 0 <= i <= n == |ClusterSlots(buf)| && current == base + i && |out| <= count
      invariant Listed(slots, start, current, out, offset0, off)
    {
      SlotBytesAt(buf, i);
      var s := buf[32 * i..32 * i + 32];
      assert s == slots[current];
      if s[0] == 0 {
        ListedEnd(slots, start, current, out, offset0, off);
        ended := true;
        return;
      }
      if s[0] == DELETED || Attr(s) == ATTR_LFN || HasVolumeBit(s) || current < start {
        ListedSkip(slots, start, current, out, offset0, off);
      } else {
        ListedTake(slots, start, current, out, offset0, off);
        out := out + [DirentOf(s, current)];
        off := (current + 1) * 32;
      }
      current := current + 1;
      i := i + 1;
    }
    ended := false;
  }

  lemma ListedEnd(slots: seq<Slot>, start: nat, p: nat, out: seq<Dirent>, offset0: nat, offset: nat)
    requires Listed(slots, start, p, out, offset0, offset) && p < |slots| && TailOk(slots) && IsEnd(slots[p])
    ensures out == ListFrom(slots, start) && Listed(slots, start, |slots|, out, offset0, offset)
  {
    hide DirentOf;
    EndOfList(slots, p);
    if p < start < |slots| { assert IsEnd(slots[start]); }
    EndOfList(slots, Max(p, start));
    assert ListFrom(slots, Max(|slots|, start)) == [];
  }

  /** What a call with room for `count` entries returns, and where the next call goes on. */
  ghost predicate ListStep(slots: seq<Slot>, offset: nat, count: nat, out: seq<Dirent>, offset': nat)
    requires Slots(slots)
  {
    var all := ListFrom(slots, offset / 32);
    && out == all[..if |all| < count then |all| else count]
    && ListFrom(slots, offset' / 32) == all[|out|..]
  }

  lemma ListedIsStep(slots: seq<Slot>, p: nat, out: seq<Dirent>, offset: nat, offset': nat, count: nat)
    requires Listed(slots, offset / 32, p, out, offset, offset') && |out| <= count
    requires |out| < count ==> out == ListFrom(slots, offset / 32)
    ensures ListStep(slots, offset, count, out, offset')
  {
    hide DirentOf;
    var all := ListFrom(slots, offset / 32);
    assert all == out + ListFrom(slots, Max(p, offset / 32));
    assert all[..|out|] == out;
    assert all[|out|..] == ListFrom(slots, Max(p, offset / 32));
  }

  lemma PlainAttrs(f: Fs, d: nat)
    requires Entries(f.slots, f.owner) && d in f.slots
    ensures forall k :: 0 <= k < |f.slots[d]| ==> IsSlot(f.slots[d][k])
    ensures forall k :: 0 <= k < |f.slots[d]| && IsLive(f.slots[d][k]) ==>
              Attr(f.slots[d][k]) != ATTR_LFN && !HasVolumeBit(f.slots[d][k])
  {
    forall k | 0 <= k < |f.slots[d]| && IsSlot(f.slots[d][k]) && IsLive(f.slots[d][k])
      ensures Attr(f.slots[d][k]) != ATTR_LFN && !HasVolumeBit(f.slots[d][k])
    {
      EntryAt(f, d, k);
    }
  }

  /** The loops of `fat32_readdir`. */
  method ReadEntries(v: Volume, dir: nat, count: nat, offset: nat) returns (out: seq<Dirent>, offset': nat)
    requires v.Mounted() && dir in v.fs.slots
    ensures Slots(v.fs.slots[dir]) && (count > 0 ==> ListStep(v.fs.slots[dir], offset, count, out, offset'))
    ensures count == 0 ==> out == [] && offset' == offset
  {
    hide Volume.Valid, Consistent, DirSlots, ClusterSlots, Entries, Listed, ListStep, ListFrom, Readable, Attr, HasVolumeBit;
    ghost var g, disk, slots := v.g, v.disk, v.fs.slots[dir];
    DirFacts(g, disk, v.fs, dir);
    PlainAttrs(v.fs, dir);
    ghost var ch := v.fs.chains[dir];
    out, offset' := [], offset;
    var cluster := dir;
    var start := offset / 32;
    var base := 0;
    ghost var j := 0;
    ListedStart(slots, start, offset);
    while cluster >= 2 && cluster < EOC_MIN && |out| < count
      invariant 0 <= j <= |ch| && base == j * PerCluster(g) && base <= |slots|
      invariant j < |ch| ==> cluster == ch[j]
      invariant j == |ch| ==> cluster >= EOC_MIN && base == |slots|
      invariant |out| <= count
      invariant |out| < count ==> Listed(slots, start, base, out, offset, offset')
      invariant |out| == count && count > 0 ==> exists p :: Listed(slots, start, p, out, offset, offset')
      invariant count == 0 ==> out == [] && offset' == offset
      decreases |ch| - j
    {
      var rc, buf := v.ReadCluster(cluster);
      ClusterWindow(g, disk, ch, j);
      var ended;
      out, offset', ended := ListCluster(buf, start, base, count, out, offset', slots, offset);
      if ended {
        ListedIsStep(slots, |slots|, out, offset, offset', count);
        return;
      }
      base := base + |buf| / 32;
      cluster := v.GetNext(cluster);
      j := j + 1;
    }
    if |out| < count {
      ListedAll(slots, start, base, out, offset, offset');
      ListedIsStep(slots, base, out, offset, offset', count);
    } else if count > 0 {
      ghost var p :| Listed(slots, start, p, out, offset, offset');
      ListedIsStep(slots, p, out, offset, offset', count);
    }
  }

  lemma ListedStart(slots: seq<Slot>, start: nat, offset: nat)
    requires Slots(slots)
    ensures Listed(slots, start, 0, [], offset, offset)
  {
  }

  lemma ListedAll(slots: seq<Slot>, start: nat, p: nat, out: seq<Dirent>, offset: nat, offset': nat)
    requires Listed(slots, start, p, out, offset, offset') && p == |slots|
    ensures out == ListFrom(slots, start)
  {
  }

  /** The listing holds exactly the live slots. */
  lemma {:induction false} ListComplete(slots: seq<Slot>, a: nat, e: Dirent)
    requires Slots(slots)
    ensures e in ListFrom(slots, a) <==>
            exists k :: a <= k < |slots| && IsLive(slots[k]) && e == DirentOf(slots[k], k)
    decreases |slots| - a
  {
    hide DirentOf, IsLive, ListFrom;
    ListHead(slots, a, e);
    if a < |slots| {
      ListComplete(slots, a + 1, e);
      if IsLive(slots[a]) && e == DirentOf(slots[a], a) {
        assert e in ListFrom(slots, a);
      } else {
        assert e in ListFrom(slots, a) <==> e in ListFrom(slots, a + 1);
      }
    }
  }

  lemma ListHead(slots: seq<Slot>, a: nat, e: Dirent)
    requires Slots(slots)
    ensures a >= |slots| ==> e !in ListFrom(slots, a)
    ensures a < |slots| ==>
              (e in ListFrom(slots, a) <==> (IsLive(slots[a]) && e == DirentOf(slots[a], a)) || e in ListFrom(slots, a + 1))
  {
    hide DirentOf, IsLive;
  }

  /** ... each once, in slot order. */
  lemma {:induction false} ListOrdered(slots: seq<Slot>, a: nat)
    requires Slots(slots)
    ensures forall i :: 0 <= i < |ListFrom(slots, a)| ==> ListFrom(slots, a)[i].off > a
    ensures forall i, j :: 0 <= i < j < |ListFrom(slots, a)| ==> ListFrom(slots, a)[i].off < ListFrom(slots, a)[j].off
    decreases |slots| - a
  {
    hide SlotFirst, SlotName, HasDirBit, IsLive;
    if a < |slots| {
      ListOrdered(slots, a + 1);
    }
  }

  /** Lookup finds a name exactly when the listing shows it. */
  lemma ListedNames(slots: seq<Slot>, n: Name)
    requires Slots(slots)
    ensures n in DirMap(slots) <==> exists e :: e in ListFrom(slots, 0) && e.name == n
  {
    hide DirMap, ListFrom, SlotName, SlotFirst;
    MapAt(slots, n);
    var p := Find(slots, n);
    if p >= 0 {
      ListComplete(slots, 0, DirentOf(slots[p], p));
      assert DirentOf(slots[p], p) in ListFrom(slots, 0) && DirentOf(slots[p], p).name == n;
    }
    forall e | e in ListFrom(slots, 0) && e.name == n
      ensures p >= 0
    {
      ListComplete(slots, 0, e);
      var k :| 0 <= k < |slots| && IsLive(slots[k]) && e == DirentOf(slots[k], k);
      assert Named(slots[k], n);
    }
  }

  // ---- What the entries say ----------------------------------------------------------------

  /**
   * The entry tells the truth about one live slot of the directory: where it is, and the name, the
   * head and the kind of the object it names, as the file system has them.
   */
  ghost predicate Truthful(slots: seq<Slot>, m: map<nat, Obj>, e: Dirent)
  {
    && 1 <= e.off <= |slots| && Named(slots[e.off - 1], e.name)
    && e.ino in m && (e.isDir <==> m[e.ino].Folder?)
    && (Unique(slots) ==> e.name in DirMap(slots) && e.ino == DirMap(slots)[e.name])
  }

  ghost predicate AllTruthful(slots: seq<Slot>, m: map<nat, Obj>, out: seq<Dirent>)
  {
    forall i :: 0 <= i < |out| ==> Truthful(slots, m, out[i])
  }

  /** The head and kind that a live slot of a mounted volume records. */
  lemma SlotTells(g: Geometry, disk: Disk, f: Fs, d: nat, k: nat)
    requires Consistent(g, disk, f) && d in f.slots && k < |f.slots[d]|
    requires IsSlot(f.slots[d][k]) && IsLive(f.slots[d][k])
    ensures var s, m := f.slots[d][k], Abs(g, disk, f);
            SlotFirst(s) in m && (HasDirBit(s) <==> m[SlotFirst(s)].Folder?)
  {
    hide Consistent, DirMap, Content, SlotFirst, Abs, Entries, TailOk, DirSlots, Readable;
    DirFacts(g, disk, f, d);
    EntryAt(f, d, k);
    AbsAt(g, disk, f, SlotFirst(f.slots[d][k]));
  }

  lemma DirentTruthful(g: Geometry, disk: Disk, f: Fs, d: nat, e: Dirent)
    requires Consistent(g, disk, f) && d in f.slots && Slots(f.slots[d]) && e in ListFrom(f.slots[d], 0)
    ensures Truthful(f.slots[d], Abs(g, disk, f), e)
  {
    hide Consistent, DirMap, ListFrom, SlotFirst, SlotName, Abs, IsLive, HasDirBit, Unique;
    var slots := f.slots[d];
    ListComplete(slots, 0, e);
    var k :| 0 <= k < |slots| && IsLive(slots[k]) && e == DirentOf(slots[k], k);
    SlotTells(g, disk, f, d, k);
    if Unique(slots) {
      MapAt(slots, e.name);
      OneNamed(slots, k, e.name);
    }
  }

  /** Where names are not repeated, the first slot with a name is any slot with it. */
  lemma OneNamed(slots: seq<Slot>, k: nat, n: Name)
    requires k < |slots| && Named(slots[k], n)
    ensures Unique(slots) ==> Find(slots, n) == k
  {
    hide SlotName, IsLive;
  }

  lemma {:induction false} ListTail(slots: seq<Slot>, a: nat, b: nat, e: Dirent)
    requires Slots(slots) && a <= b && e in ListFrom(slots, b)
    ensures e in ListFrom(slots, a)
  {
    hide DirentOf, IsLive, ListFrom;
    ListComplete(slots, b, e);
    ListComplete(slots, a, e);
  }

  /** Whatever part of the listing a call returns. */
  lemma StepTruthful(g: Geometry, disk: Disk, f: Fs, d: nat, offset: nat, count: nat, out: seq<Dirent>, offset': nat)
    requires Consistent(g, disk, f) && d in f.slots && Slots(f.slots[d]) && ListStep(f.slots[d], offset, count, out, offset')
    ensures AllTruthful(f.slots[d], Abs(g, disk, f), out)
  {
    hide Consistent, ListFrom, Truthful, Slots;
    forall i | 0 <= i < |out|
      ensures Truthful(f.slots[d], Abs(g, disk, f), out[i])
    {
      assert out[i] in ListFrom(f.slots[d], offset / 32);
      ListTail(f.slots[d], 0, offset / 32, out[i]);
      DirentTruthful(g, disk, f, d, out[i]);
    }
  }

  lemma NoneTruthful(slots: seq<Slot>, m: map<nat, Obj>)
    ensures AllTruthful(slots, m, [])
  {
  }

  /** `fat32_readdir` with room for `count` entries: the next part of the listing, and all of it true. */
  method Readdir(v: Volume, dir: nat, count: nat, offset: nat) returns (out: seq<Dirent>, offset': nat)
    requires v.Mounted() && dir in v.fs.slots
    ensures Slots(v.fs.slots[dir]) && (count > 0 ==> ListStep(v.fs.slots[dir], offset, count, out, offset'))
    ensures count == 0 ==> out == [] && offset' == offset
    ensures AllTruthful(v.fs.slots[dir], v.Files(), out)
  {
    hide Volume.Valid, Consistent, ListStep, Slots, AllTruthful, Abs, NoLeak;
    out, offset' := ReadEntries(v, dir, count, offset);
    NoneTruthful(v.fs.slots[dir], v.Files());
    if count > 0 {
      StepTruthful(v.g, v.disk, v.fs, dir, offset, count, out, offset');
    }
  }

  /**
   * Successive calls, whatever their sizes: the results concatenate to the listing from the start,
   * and the first empty result means that everything has been listed.
   */
  method ListAll(v: Volume, dir: nat, counts: seq<nat>) returns (out: seq<Dirent>, finished: bool)
    requires v.Mounted() && dir in v.fs.slots && forall i :: 0 <= i < |counts| ==> counts[i] > 0
    ensures Slots(v.fs.slots[dir]) && out <= ListFrom(v.fs.slots[dir], 0)
    ensures finished ==> out == ListFrom(v.fs.slots[dir], 0)
    ensures |counts| > |ListFrom(v.fs.slots[dir], 0)| ==> finished
  {
    hide Volume.Valid, Consistent, ListFrom, Entries;
    out, finished := [], false;
    var offset := 0;
    var i := 0;
    DirFacts(v.g, v.disk, v.fs, dir);
    ghost var slots := v.fs.slots[dir];
    ghost var all := ListFrom(slots, 0);
    while i < |counts|
      invariant 0 <= i <= |counts| && !finished && i <= |out| && offset >= 0
      invariant out + ListFrom(slots, offset / 32) == all
    {
      var piece, next := Readdir(v, dir, counts[i], offset);
      assert ListFrom(slots, offset / 32) == piece + ListFrom(slots, next / 32);
      if piece == [] {
        finished := true;
        return;
      }
      assert out + (piece + ListFrom(slots, next / 32)) == (out + piece) + ListFrom(slots, next / 32);
      out := out + piece;
      offset := next;
      i := i + 1;
    }
  }
}
