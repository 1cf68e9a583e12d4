/** Directory slots: 32-byte records, the slots of a cluster, and the slot list of a directory. */
module Fat32Dir {
  import opened Bytes
  import opened Fat32Layout
  import opened Fat32Name

  type Slot = seq<byte>

  const ATTR_LFN: nat := 0x0F
  const ATTR_DIRECTORY: nat := 0x10
  const DELETED: nat := 0xE5

  predicate IsSlot(s: Slot) { |s| == 32 }

  predicate IsEnd(s: Slot) requires IsSlot(s) { s[0] == 0 }

  predicate IsDeleted(s: Slot) requires IsSlot(s) { s[0] == DELETED }

  predicate IsLive(s: Slot) requires IsSlot(s) { !IsEnd(s) && !IsDeleted(s) }

  function Attr(s: Slot): nat requires IsSlot(s) { s[11] }

  predicate HasDirBit(s: Slot) requires IsSlot(s) { Attr(s) / 16 % 2 == 1 }

  predicate HasVolumeBit(s: Slot) requires IsSlot(s) { Attr(s) / 8 % 2 == 1 }

  function SlotName(s: Slot): seq<byte> requires IsSlot(s) { From83(s[..11]) }

  function SlotFirst(s: Slot): (c: nat)
    requires IsSlot(s)
    ensures c < 0x1_0000_0000
  {
    0x1_0000 * Le16(s[20..22]) + Le16(s[26..28])
  }

  function SlotSize(s: Slot): (n: nat)
    requires IsSlot(s)
    ensures n < 0x1_0000_0000
  {
    Le32(s[28..32])
  }

  /** The slot `fat32_create` fills in: zeroed, then name, attribute, first cluster and the
      encoding of time 0 (time 0x0000, date 0x7820). */
  function NewSlot(field: seq<byte>, isDir: bool, first: nat): (s: Slot)
    requires |field| == 11 && first < 0x1_0000_0000
    ensures IsSlot(s) && s[..11] == field && s[0] == field[0]
    ensures Attr(s) == (if isDir then ATTR_DIRECTORY else 0)
    ensures SlotFirst(s) == first && SlotSize(s) == 0
  {
    var attr: byte := if isDir then 0x10 else 0;
    var s := field + [attr, 0, 0, 0, 0, 0x20, 0x78, 0x20, 0x78]
           + ToLe16(first / 0x1_0000) + [0, 0, 0x20, 0x78] + ToLe16(first % 0x1_0000) + [0, 0, 0, 0];
    assert s[20..22] == ToLe16(first / 0x1_0000);
    assert s[26..28] == ToLe16(first % 0x1_0000);
    assert s[28..32] == [0, 0, 0, 0];
    assert s[..11] == field;
    s
  }

  /** The slot with its first name byte overwritten by 0xE5. */
  function Erased(s: Slot): (r: Slot)
    requires IsSlot(s)
    ensures IsSlot(r) && IsDeleted(r) && !IsLive(r) && !IsEnd(r)
  {
    [DELETED as byte] + s[1..]
  }

  /** The slot with size and first cluster overwritten (`fat32_update_dir_entry`). */
  function Resized(s: Slot, first: nat, size: nat): (r: Slot)
    requires IsSlot(s) && first < 0x1_0000_0000 && size < 0x1_0000_0000
    ensures IsSlot(r) && r[..11] == s[..11] && r[0] == s[0] && Attr(r) == Attr(s)
    ensures SlotFirst(r) == first && SlotSize(r) == size
  {
    var r := s[..20] + ToLe16(first / 0x1_0000) + s[22..26] + ToLe16(first % 0x1_0000) + ToLe32(size);
    assert r[20..22] == ToLe16(first / 0x1_0000);
    assert r[26..28] == ToLe16(first % 0x1_0000);
    assert r[28..32] == ToLe32(size);
    r
  }

  // ---- The bytes of a slot -----------------------------------------------------------------

  /** Where a slot has its first cluster, in two halves, and its size, least significant byte first. */
  lemma SlotFields(s: Slot)
    requires IsSlot(s)
    ensures SlotFirst(s) == s[26] as int + 0x100 * s[27] as int + 0x1_0000 * s[20] as int + 0x100_0000 * s[21] as int
    ensures SlotSize(s) == s[28] as int + 0x100 * s[29] as int + 0x1_0000 * s[30] as int + 0x100_0000 * s[31] as int
    ensures IsLive(s) <==> s[0] != 0 && s[0] != 0xE5
  {
  }

  /** A new slot: the name, 0x10 for a directory and 0 for a file, no size, and no bit of its own elsewhere. */
  lemma NewSlotBytes(field: seq<byte>, isDir: bool, first: nat)
    requires |field| == 11 && first < 0x1_0000_0000
    ensures var s := NewSlot(field, isDir, first);
            && (forall i :: 0 <= i < 11 ==> s[i] == field[i]) && s[11] == (if isDir then 0x10 else 0)
            && s[12..20] == [0, 0, 0, 0, 0x20, 0x78, 0x20, 0x78] && s[22..26] == [0, 0, 0x20, 0x78]
            && s[28..32] == [0, 0, 0, 0]
  {
  }

  /** Erasing a slot changes its first byte, recording a size the cluster and size fields. */
  lemma SlotChanges(s: Slot, first: nat, size: nat, i: nat)
    requires IsSlot(s) && first < 0x1_0000_0000 && size < 0x1_0000_0000 && i < 32
    ensures Erased(s)[i] == if i == 0 then 0xE5 else s[i]
    ensures i < 20 || i == 22 || i == 23 || i == 24 || i == 25 ==> Resized(s, first, size)[i] == s[i]
  {
  }

  /** The slots of one cluster. */
  function ClusterSlots(b: seq<byte>): (r: seq<Slot>)
    ensures |r| == |b| / 32
    ensures forall i :: 0 <= i < |r| ==> IsSlot(r[i])
  {
    seq(|b| / 32, i requires 0 <= i < |b| / 32 => b[32 * i..32 * i + 32])
  }

  lemma SlotBytesAt(b: seq<byte>, i: nat)
    requires i < |ClusterSlots(b)|
    ensures 32 * i + 32 <= |b| && ClusterSlots(b)[i] == b[32 * i..32 * i + 32]
  {
  }

  /** Overwriting 32 bytes at slot `i` replaces that slot and no other. */
  lemma SlotSplice(b: seq<byte>, i: nat, x: Slot)
    requires i < |b| / 32 && IsSlot(x)
    ensures ClusterSlots(Splice(b, 32 * i, x)) == ClusterSlots(b)[i := x]
  {
    var r := Splice(b, 32 * i, x);
    forall j | 0 <= j < |b| / 32
      ensures ClusterSlots(r)[j] == ClusterSlots(b)[i := x][j]
    {
      assert r[32 * j..32 * j + 32] == if i == j then x else b[32 * j..32 * j + 32];
    }
  }

  function Zeros(n: nat): (b: seq<byte>)
    ensures |b| == n && forall i :: 0 <= i < n ==> b[i] == 0
  {
    seq(n, _ => 0)
  }

  lemma ZeroSlots(n: nat)
    ensures forall i :: 0 <= i < n / 32 ==> IsEnd(ClusterSlots(Zeros(n))[i])
  {
  }
}
