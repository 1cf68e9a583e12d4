/** Runs of the heap under a client that keeps its pointers in slots. */
module HeapRun {
  import opened Bytes
  import opened HeapList
  import opened HeapForeign
  import opened H = Heap

  datatype Op =
    | MallocOp(slot: nat, size: nat, grants: seq<nat>)
    | ReallocOp(slot: nat, size: nat, grants: seq<nat>)
    | FreeOp(slot: nat)
    | StoreOp(slot: nat, offset: nat, value: byte)
    | OthersOp(addr: nat, value: byte)

  /** What the client has: a pointer, the block behind it and the bytes it stored there. */
  datatype Slot = Slot(ptr: nat, block: Block, stored: map<nat, byte>)

  const EMPTY := Slot(0, Block(0, 0, false), map[])

  ghost predicate Holds(live: set<Block>, rs: seq<Region>, mem: Memory, s: Slot)
  {
    s.ptr != 0 ==>
      && s.block in live && s.block.addr + 40 == s.ptr && !s.block.free
      && (s.stored != map[] ==> Lies(s.block, rs))
      && forall k :: k in s.stored ==> k < s.block.size && Peek(mem, s.ptr + k) == s.stored[k]
  }

  /**
   * No two slots share a block, and every slot reads back what was stored last.  Bytes are recorded
   * only in blocks that lie in memory the heap was given: elsewhere others may write.
   */
  ghost predicate Client(live: set<Block>, rs: seq<Region>, mem: Memory, slots: seq<Slot>)
  {
    && (forall s :: 0 <= s < |slots| ==> Holds(live, rs, mem, slots[s]))
    && forall s, t :: 0 <= s < t < |slots| && slots[s].ptr != 0 && slots[t].ptr != 0 ==> slots[s].block != slots[t].block
  }

  ghost predicate Pointers(ptrs: seq<nat>, slots: seq<Slot>)
  {
    |ptrs| == |slots| && forall s :: 0 <= s < |ptrs| ==> ptrs[s] == slots[s].ptr
  }

  lemma {:induction false} HoldsAfter(live: set<Block>, rs: seq<Region>, mem: Memory, live': set<Block>, rs': seq<Region>, mem': Memory, s: Slot)
    requires Wider(rs, rs') && Holds(live, rs, mem, s) && (s.ptr != 0 ==> s.block in live' && Kept(s.block, mem, mem'))
    ensures Holds(live', rs', mem', s)
  {
  }

  /** A new block in an empty slot. */
  lemma ClientGets(live: set<Block>, rs: seq<Region>, mem: Memory, live': set<Block>, rs': seq<Region>, mem': Memory, slots: seq<Slot>, i: nat, got: Block, ptr: nat)
    requires Client(live, rs, mem, slots) && Wider(rs, rs') && i < |slots| && slots[i].ptr == 0 && ptr != 0
    requires Granted(live, live', got, ptr) && Undisturbed(live, mem, mem')
    ensures Client(live', rs', mem', slots[i := Slot(ptr, got, map[])])
  {
    hide Holds, Kept;
    var after := slots[i := Slot(ptr, got, map[])];
    forall s | 0 <= s < |after|
      ensures Holds(live', rs', mem', after[s])
    {
      if s == i {
        Fresh(live', rs', mem', got, ptr);
      } else {
        SlotLive(live, rs, mem, slots[s]);
        HoldsAfter(live, rs, mem, live', rs', mem', slots[s]);
      }
    }
    forall s, t | 0 <= s < t < |after| && after[s].ptr != 0 && after[t].ptr != 0
      ensures after[s].block != after[t].block
    {
      SlotLive(live, rs, mem, slots[s]);
      SlotLive(live, rs, mem, slots[t]);
    }
  }

  lemma Fresh(live: set<Block>, rs: seq<Region>, mem: Memory, got: Block, ptr: nat)
    requires got in live && got.addr + 40 == ptr && !got.free
    ensures Holds(live, rs, mem, Slot(ptr, got, map[]))
  {
  }

  lemma SlotLive(live: set<Block>, rs: seq<Region>, mem: Memory, s: Slot)
    requires Holds(live, rs, mem, s)
    ensures s.ptr != 0 ==> s.block in live && s.block.addr + 40 == s.ptr && !s.block.free
  {
  }

  /** Nothing live was disturbed. */
  lemma ClientStays(live: set<Block>, rs: seq<Region>, mem: Memory, live': set<Block>, rs': seq<Region>, mem': Memory, slots: seq<Slot>)
    requires Client(live, rs, mem, slots) && Wider(rs, rs') && live <= live' && Undisturbed(live, mem, mem')
    ensures Client(live', rs', mem', slots)
  {
    hide Holds, Kept;
    forall s | 0 <= s < |slots|
      ensures Holds(live', rs', mem', slots[s])
    {
      SlotLive(live, rs, mem, slots[s]);
      HoldsAfter(live, rs, mem, live', rs', mem', slots[s]);
    }
  }

  /** The block of one slot was given back. */
  lemma ClientGives(live: set<Block>, rs: seq<Region>, mem: Memory, slots: seq<Slot>, i: nat)
    requires Client(live, rs, mem, slots) && i < |slots| && slots[i].ptr != 0
    ensures Client(live - {slots[i].block}, rs, mem, slots[i := EMPTY])
  {
    hide Kept;
    var b := slots[i].block;
    var after := slots[i := EMPTY];
    assert !b.free;
    forall s | 0 <= s < |after|
      ensures Holds(live - {b}, rs, mem, after[s])
    {
      if s != i {
        assert Holds(live, rs, mem, slots[s]);
        assert slots[s].ptr != 0 ==> slots[s].block != b;
      }
    }
  }

  /** The block of one slot moved, with its bytes. */
  lemma ClientMoves(live: set<Block>, rs: seq<Region>, mem: Memory, live': set<Block>, rs': seq<Region>, mem': Memory, slots: seq<Slot>, i: nat, got: Block, ptr: nat)
    requires Client(live, rs, mem, slots) && Wider(rs, rs') && i < |slots| && slots[i].ptr != 0 && ptr != 0
    requires var b := slots[i].block;
             && got.addr + 40 == ptr && !got.free && b.size <= got.size && live' == live - {b} + {got}
             && (got == b || got !in live) && Undisturbed(live - {b}, mem, mem')
             && Moved(mem, mem', slots[i].ptr, ptr, b.size)
    ensures Client(live', rs', mem', slots[i := MovedSlot(slots[i], rs', got, ptr)])
  {
    hide Kept;
    var b := slots[i].block;
    var after := slots[i := MovedSlot(slots[i], rs', got, ptr)];
    assert Holds(live, rs, mem, slots[i]);
    forall s | 0 <= s < |after|
      ensures Holds(live', rs', mem', after[s])
    {
      if s == i {
        MovedHolds(live', rs, rs', mem, mem', slots[i], got, ptr);
      } else {
        assert Holds(live, rs, mem, slots[s]);
        assert slots[s].ptr != 0 ==> slots[s].block != b;
        HoldsAfter(live, rs, mem, live', rs', mem', slots[s]);
      }
    }
    forall s, t | 0 <= s < t < |after| && after[s].ptr != 0 && after[t].ptr != 0
      ensures after[s].block != after[t].block
    {
      assert Holds(live, rs, mem, slots[s]) && Holds(live, rs, mem, slots[t]);
    }
  }

  /** A slot whose block moved: what was recorded moves along, if it arrives in the heap's memory. */
  ghost function MovedSlot(s: Slot, rs: seq<Region>, got: Block, ptr: nat): Slot
  {
    Slot(ptr, got, if Lies(got, rs) then s.stored else map[])
  }

  lemma MovedHolds(live: set<Block>, rs: seq<Region>, rs': seq<Region>, mem: Memory, mem': Memory, s: Slot, got: Block, ptr: nat)
    requires Holds({s.block}, rs, mem, s) && s.ptr != 0 && got in live && got.addr + 40 == ptr && !got.free
    requires s.block.size <= got.size && Moved(mem, mem', s.ptr, ptr, s.block.size)
    ensures Holds(live, rs', mem', MovedSlot(s, rs', got, ptr))
  {
    forall k | k in s.stored
      ensures Peek(mem', ptr + k) == s.stored[k]
    {
      var x := ptr + k;
      assert Peek(mem', x) == Peek(mem, s.ptr + x - ptr);
    }
  }

  /** The slot after one byte was stored through it. */
  ghost function StoredSlot(s: Slot, rs: seq<Region>, k: nat, v: byte): Slot
  {
    if Lies(s.block, rs) then s.(stored := s.stored[k := v]) else s
  }

  /** One byte stored through a slot. */
  lemma ClientStores(bs: seq<Block>, rs: seq<Region>, mem: Memory, slots: seq<Slot>, i: nat, k: nat, v: byte)
    requires Sound(bs) && Client(Live(bs), rs, mem, slots) && i < |slots| && slots[i].ptr != 0 && k < slots[i].block.size
    ensures Client(Live(bs), rs, Poked(mem, slots[i].ptr + k, v), slots[i := StoredSlot(slots[i], rs, k, v)])
  {
    hide Peek, Poked, Live, Sound, Lies;
    var live, mem' := Live(bs), Poked(mem, slots[i].ptr + k, v);
    var after := slots[i := StoredSlot(slots[i], rs, k, v)];
    PokedAll(mem, slots[i].ptr + k, v);
    assert Holds(live, rs, mem, slots[i]);
    forall s | 0 <= s < |after|
      ensures Holds(live, rs, mem', after[s])
    {
      assert Holds(live, rs, mem, slots[s]);
      if s != i && slots[s].ptr != 0 {
        SoundApartLive(bs, slots[s].block, slots[i].block);
      }
    }
  }

  /** What others store outside the memory of the heap does not matter to what the slots hold. */
  lemma OthersStore(live: set<Block>, rs: seq<Region>, mem: Memory, slots: seq<Slot>, a: nat, v: byte)
    requires Client(live, rs, mem, slots) && Outside(rs, a)
    ensures Client(live, rs, Poked(mem, a, v), slots)
  {
    hide Peek, Poked;
    PokedAll(mem, a, v);
    forall s | 0 <= s < |slots|
      ensures Holds(live, rs, Poked(mem, a, v), slots[s])
    {
      assert Holds(live, rs, mem, slots[s]);
      if slots[s].ptr != 0 && slots[s].stored != map[] {
        var k :| 0 <= k < |rs| && LiesIn(slots[s].block, rs[k]);
      }
    }
  }

  /** All that lay in the regions still does. */
  ghost predicate Wider(rs: seq<Region>, rs': seq<Region>)
  {
    forall b :: Lies(b, rs) ==> Lies(b, rs')
  }

  // ---- Steps and runs ----------------------------------------------------------------------

  /** Between two calls: the list, the memory it was given, and what the client holds. */
  datatype World = World(blocks: seq<Block>, regions: seq<Region>, slots: seq<Slot>)

  ghost predicate Good(heap: Heap, ptrs: seq<nat>, regions: seq<Region>, slots: seq<Slot>)
    reads heap
  {
    && heap.Valid() && heap.regions == regions && Pointers(ptrs, slots)
    && Client(Live(heap.blocks), regions, heap.mem, slots)
  }

  ghost function PtrsOf(slots: seq<Slot>): seq<nat>
  {
    seq(|slots|, s requires 0 <= s < |slots| => slots[s].ptr)
  }

  /** The call is made, and if it gives a block back, the free neighbours of that block touch it by then. */
  ghost predicate Clean(w: World, op: Op)
  {
    (op.FreeOp? || op.ReallocOp?) && Allowed(op, PtrsOf(w.slots), w.regions) ==>
      forall i :: 0 <= i < |w.blocks| && w.blocks[i] == w.slots[op.slot].block ==> GivesCleanly(w.blocks, i, op)
  }

  ghost predicate GivesCleanly(bs: seq<Block>, i: nat, op: Op)
    requires i < |bs|
  {
    match op
    case FreeOp(_) => NeighboursTouch(bs, i)
    case ReallocOp(_, size, grants) => ReallocTouch(bs, i, size, grants)
    case _ => true
  }

  /** Somebody else's store, outside the memory of the heap, that changes a header of the list. */
  ghost predicate Hit(w: World, op: Op)
  {
    op.OthersOp? && Outside(w.regions, op.addr) && Strikes(w.blocks, op.addr, op.value)
  }

  /** What a call makes of one slot. */
  ghost predicate SlotAfter(w: World, op: Op, rs': seq<Region>, s: Slot, s': Slot)
  {
    match op
    case MallocOp(_, _, _) => s' == s || (s.ptr == 0 && s'.stored == map[])
    case ReallocOp(_, _, _) => s' == s || s' == MovedSlot(s, rs', s'.block, s'.ptr)
    case FreeOp(_) => s' == if s.ptr != 0 then EMPTY else s
    case StoreOp(_, k, v) => s' == if s.ptr != 0 && k < s.block.size then StoredSlot(s, w.regions, k, v) else s
    case OthersOp(_, _) => s' == s
  }

  /** Only the slot of the call changes, and what is recorded in it follows the call. */
  ghost predicate Recorded(w: World, op: Op, w': World)
  {
    && |w'.slots| == |w.slots|
    && forall s :: 0 <= s < |w.slots| ==>
         if !op.OthersOp? && s == op.slot then SlotAfter(w, op, w'.regions, w.slots[s], w'.slots[s])
         else w'.slots[s] == w.slots[s]
  }

  /** Block `i` is the one in slot `s`. */
  ghost predicate HeldAt(w: World, s: nat, i: nat)
  {
    s < |w.slots| && i < |w.blocks| && w.blocks[i] == w.slots[s].block
  }

  /** What a call makes of the list, its memory and the pointer; one a client may not make does nothing. */
  ghost predicate Acts(w: World, op: Op, w': World)
  {
    if !Allowed(op, PtrsOf(w.slots), w.regions) then w'.blocks == w.blocks && w'.regions == w.regions
    else match op
      case MallocOp(s, size, grants) =>
        && s < |w'.slots| && w'.slots[s].ptr == MallocPtr(w.blocks, size, grants)
        && w'.blocks == MallocBlocks(w.blocks, size, grants)
        && w'.regions == MallocRegions(w.blocks, w.regions, size, grants)
      case ReallocOp(s, size, grants) =>
        s < |w'.slots| && exists i ::
          && HeldAt(w, s, i)
          && var p := ReallocPtr(w.blocks, i, size, grants);
          && w'.slots[s].ptr == (if p == 0 then w.slots[s].ptr else p)
          && w'.blocks == ReallocBlocks(w.blocks, i, size, grants)
          && w'.regions == ReallocRegions(w.blocks, w.regions, i, size, grants)
      case FreeOp(s) =>
        w'.regions == w.regions && exists i :: HeldAt(w, s, i) && w'.blocks == Freed(w.blocks, i)
      case StoreOp(_, _, _) => w'.blocks == w.blocks && w'.regions == w.regions
      case OthersOp(_, _) => w'.blocks == w.blocks && w'.regions == w.regions
  }

  lemma PtrsAre(ptrs: seq<nat>, slots: seq<Slot>)
    requires Pointers(ptrs, slots)
    ensures PtrsOf(slots) == ptrs
  {
  }

  /** What a call does to the slots, to the list and its shape, and to the fit in memory. */
  ghost predicate Shaped(w: World, op: Op, w': World)
  {
    && Recorded(w, op, w') && Acts(w, op, w')
    && FormKept(w.blocks, w'.blocks, Touching(w.blocks, op))
    && (Fitted(w.blocks, w.regions) ==>
          (Housed(w'.blocks, w'.regions) <==> Clean(w, op)) && (Clean(w, op) ==> Fitted(w'.blocks, w'.regions)))
  }

  method DoMalloc(heap: Heap, ptrs: seq<nat>, regions: seq<Region>, ghost slots: seq<Slot>, op: Op)
    returns (ptrs': seq<nat>, regions': seq<Region>, ghost slots': seq<Slot>)
    requires Good(heap, ptrs, regions, slots) && op.MallocOp? && op.slot < |ptrs| && ptrs[op.slot] == 0
    requires op.size <= 0x1_0000_0000_0000_0000 - 48 && GrantsOk(Top(regions), Pages(Align(op.size)), op.grants)
    modifies heap
    ensures Good(heap, ptrs', regions', slots') && |ptrs'| == |ptrs|
    ensures Shaped(World(old(heap.blocks), regions, slots), op, World(heap.blocks, regions', slots'))
  {
    hide Heap.Valid, Client, Live, Undisturbed, Granted, FormKept, Contiguous, Allocated, GrantsOk, Pages, Align, FirstFit, Fitted, Housed, Wider, Given, Clean;
    hide MallocPtr, MallocBlocks, MallocRegions;
    ValidSound(heap);
    CleanAlways(World(heap.blocks, regions, slots), op);
    var size, grants := op.size, op.grants;
    SmallAlign(size);
    GivenWider(regions, Pages(Align(size)), grants);
    var ptr, rest;
    ghost var at, got;
    ptr, rest, at, got := heap.Malloc(size, grants);
    if size > 0 {
      FirstFitFacts(old(heap.blocks), Align(size), at);
    }
    MallocShape(old(heap.blocks), heap.blocks, size, at, grants, Top(regions));
    MallocIs(old(heap.blocks), regions, size, grants, at, ptr, heap.blocks, heap.regions);
    PtrsAre(ptrs, slots);
    FittedHoused(heap.blocks, heap.regions);
    ptrs', slots' := ptrs, slots;
    regions' := if rest == grants || grants == [] then regions else Given(regions, grants[0], Pages(Align(size)) * 4096);
    if ptr == 0 {
      ClientStays(Live(old(heap.blocks)), regions, old(heap.mem), Live(heap.blocks), regions', heap.mem, slots);
    } else {
      ClientGets(Live(old(heap.blocks)), regions, old(heap.mem), Live(heap.blocks), regions', heap.mem, slots, op.slot, got, ptr);
      ptrs', slots' := ptrs[op.slot := ptr], slots[op.slot := Slot(ptr, got, map[])];
    }
  }

  lemma GivenWider(rs: seq<Region>, pages: nat, grants: seq<nat>)
    requires Separate(rs) && GrantsOk(Top(rs), pages, grants)
    ensures Wider(rs, rs) && (!NoGrant(grants) ==> Wider(rs, Given(rs, grants[0], pages * 4096)))
  {
    if !NoGrant(grants) {
      GivenSeparate(rs, grants[0], pages * 4096);
    }
  }

  method DoRealloc(heap: Heap, ptrs: seq<nat>, regions: seq<Region>, ghost slots: seq<Slot>, op: Op)
    returns (ptrs': seq<nat>, regions': seq<Region>, ghost slots': seq<Slot>)
    requires Good(heap, ptrs, regions, slots) && op.ReallocOp? && op.slot < |ptrs| && ptrs[op.slot] != 0
    requires 0 < op.size <= 0x1_0000_0000_0000_0000 - 48 && GrantsOk(Top(regions), Pages(Align(op.size)), op.grants)
    modifies heap
    ensures Good(heap, ptrs', regions', slots') && |ptrs'| == |ptrs|
    ensures Shaped(World(old(heap.blocks), regions, slots), op, World(heap.blocks, regions', slots'))
  {
    hide Heap.Valid, Live, Undisturbed, FormKept, Contiguous, Freed, GrantsOk, Pages, Align, Moved, Holds, Fitted, Housed, Wider, Given, ReallocTouch, Clean;
    hide ReallocPtr, ReallocBlocks, ReallocRegions;
    ValidSound(heap);
    PtrsAre(ptrs, slots);
    var size, grants := op.size, op.grants;
    GivenWider(regions, Pages(Align(size)), grants);
    ghost var b := slots[op.slot].block;
    SlotLive(Live(heap.blocks), regions, heap.mem, slots[op.slot]);
    ghost var i := Find(heap.blocks, b);
    CleanIs(World(heap.blocks, regions, slots), op, ptrs, i);
    assert HeldAt(World(heap.blocks, regions, slots), op.slot, i);
    var ptr, rest;
    ghost var got;
    ptr, rest, got := heap.Realloc(ptrs[op.slot], size, grants, i);
    ptrs', slots' := ptrs, slots;
    regions' := if rest == grants || grants == [] then regions else Given(regions, grants[0], Pages(Align(size)) * 4096);
    if ptr == 0 {
      ClientStays(Live(old(heap.blocks)), regions, old(heap.mem), Live(heap.blocks), regions', heap.mem, slots);
    } else {
      LiveNotFree(heap.blocks, got);
      ClientMoves(Live(old(heap.blocks)), regions, old(heap.mem), Live(heap.blocks), regions', heap.mem, slots, op.slot, got, ptr);
      ptrs', slots' := ptrs[op.slot := ptr], slots[op.slot := MovedSlot(slots[op.slot], regions', got, ptr)];
    }
  }

  method DoFree(heap: Heap, ptrs: seq<nat>, regions: seq<Region>, ghost slots: seq<Slot>, op: Op)
    returns (ptrs': seq<nat>, ghost slots': seq<Slot>)
    requires Good(heap, ptrs, regions, slots) && op.FreeOp? && op.slot < |ptrs| && ptrs[op.slot] != 0
    modifies heap
    ensures Good(heap, ptrs', regions, slots') && |ptrs'| == |ptrs|
    ensures Shaped(World(old(heap.blocks), regions, slots), op, World(heap.blocks, regions, slots'))
  {
    hide Heap.Valid, Live, FormKept, Freed, Holds, Fitted, Housed, NeighboursTouch, Clean;
    ValidSound(heap);
    SlotLive(Live(heap.blocks), regions, heap.mem, slots[op.slot]);
    ghost var i := Find(heap.blocks, slots[op.slot].block);
    assert HeldAt(World(heap.blocks, regions, slots), op.slot, i);
    PtrsAre(ptrs, slots);
    FreeForm(heap.blocks, i, true);
    CleanIs(World(heap.blocks, regions, slots), op, ptrs, i);
    ClientGives(Live(heap.blocks), regions, heap.mem, slots, op.slot);
    heap.Free(ptrs[op.slot], i);
    ptrs', slots' := ptrs[op.slot := 0], slots[op.slot := EMPTY];
  }

  /** Of all that is in the list, the block in the slot decides. */
  lemma CleanIs(w: World, op: Op, ptrs: seq<nat>, i: nat)
    requires Sound(w.blocks) && Pointers(ptrs, w.slots) && (op.FreeOp? || op.ReallocOp?) && Allowed(op, ptrs, w.regions)
    requires i < |w.blocks| && w.blocks[i] == w.slots[op.slot].block
    ensures Clean(w, op) <==> GivesCleanly(w.blocks, i, op)
  {
    hide GivesCleanly, Sound, GrantsOk;
    assert PtrsOf(w.slots) == ptrs;
    forall j | 0 <= j < |w.blocks| && w.blocks[j] == w.blocks[i]
      ensures j == i
    {
      SoundApart(w.blocks, i, j);
    }
  }

  method DoStore(heap: Heap, ptrs: seq<nat>, ghost regions: seq<Region>, ghost slots: seq<Slot>, op: Op)
    returns (ghost slots': seq<Slot>)
    requires Good(heap, ptrs, regions, slots) && op.StoreOp? && op.slot < |ptrs| && ptrs[op.slot] != 0
    modifies heap`mem
    ensures Good(heap, ptrs, regions, slots') && |slots'| == |slots|
    ensures slots' == slots[op.slot := if op.offset < slots[op.slot].block.size then
                                         StoredSlot(slots[op.slot], regions, op.offset, op.value) else slots[op.slot]]
  {
    hide Client, Live, Holds, Linked, Sound, Total, Taken, Poked, Separate, StoredSlot;
    slots' := slots;
    SlotOwns(Live(heap.blocks), regions, heap.mem, slots, op.slot);
    ghost var i := Find(heap.blocks, slots[op.slot].block);
    var _, size := heap.SizeAt(ptrs[op.slot] - 40, i);
    if op.offset < size {
      ClientStores(heap.blocks, regions, heap.mem, slots, op.slot, op.offset, op.value);
      SamePointer(slots[op.slot], regions, op.offset, op.value);
      heap.mem := Poked(heap.mem, ptrs[op.slot] + op.offset, op.value);
      slots' := slots[op.slot := StoredSlot(slots[op.slot], regions, op.offset, op.value)];
    }
  }

  lemma SamePointer(s: Slot, rs: seq<Region>, k: nat, v: byte)
    ensures StoredSlot(s, rs, k, v).ptr == s.ptr
  {
  }

  lemma SlotOwns(live: set<Block>, rs: seq<Region>, mem: Memory, slots: seq<Slot>, i: nat)
    requires Client(live, rs, mem, slots) && i < |slots| && slots[i].ptr != 0
    ensures slots[i].block in live && slots[i].block.addr + 40 == slots[i].ptr
  {
    assert Holds(live, rs, mem, slots[i]);
  }

  lemma ValidSound(heap: Heap)
    requires heap.Valid()
    ensures Sound(heap.blocks) && heap.blocks != [] && Separate(heap.regions)
    ensures End(heap.blocks[|heap.blocks| - 1]) <= Top(heap.regions)
  {
  }

  lemma LiveNotFree(bs: seq<Block>, b: Block)
    requires b in Live(bs)
    ensures !b.free
  {
  }

  /** The call gets no new pages, or pages that start where the heap ends. */
  ghost predicate Touching(bs: seq<Block>, op: Op)
  {
    op.MallocOp? || op.ReallocOp? ==> Contiguous(bs, op.grants)
  }

  /** Calls that a client may make: on a slot that is there and in the right state. */
  predicate Allowed(op: Op, ptrs: seq<nat>, regions: seq<Region>)
  {
    match op
    case MallocOp(slot, size, grants) =>
      && slot < |ptrs| && ptrs[slot] == 0 && size <= 0x1_0000_0000_0000_0000 - 48
      && GrantsOk(Top(regions), Pages(Align(size)), grants)
    case ReallocOp(slot, size, grants) =>
      && slot < |ptrs| && ptrs[slot] != 0 && 0 < size <= 0x1_0000_0000_0000_0000 - 48
      && GrantsOk(Top(regions), Pages(Align(size)), grants)
    case FreeOp(slot) => slot < |ptrs| && ptrs[slot] != 0
    case StoreOp(slot, _, _) => slot < |ptrs| && ptrs[slot] != 0
    case OthersOp(addr, _) => Outside(regions, addr)
  }

  /**
   * One call; one that a client may not make is skipped.  The list is lost exactly when somebody
   * else's store hits it.
   */
  method Step(heap: Heap, ptrs: seq<nat>, regions: seq<Region>, ghost slots: seq<Slot>, op: Op)
    returns (ptrs': seq<nat>, regions': seq<Region>, ghost slots': seq<Slot>, lost: bool)
    requires Good(heap, ptrs, regions, slots)
    modifies heap
    ensures lost <==> Hit(World(old(heap.blocks), regions, slots), op)
    ensures lost ==> heap.blocks == old(heap.blocks) && !Linked(heap.headers, heap.blocks)
    ensures !lost ==> Good(heap, ptrs', regions', slots') && |ptrs'| == |ptrs|
    ensures !lost ==> Shaped(World(old(heap.blocks), regions, slots), op, World(heap.blocks, regions', slots'))
  {
    hide Heap.Valid, Live, Client, FormKept, Contiguous, GrantsOk, Pages, Align, Fitted, Housed, Clean, Poked, Outside, Strikes, Linked;
    ptrs', regions', slots', lost := ptrs, regions, slots, false;
    FormSame(heap.blocks, Touching(heap.blocks, op));
    FittedHoused(heap.blocks, regions);
    CleanAlways(World(heap.blocks, regions, slots), op);
    PtrsAre(ptrs, slots);
    if !Allowed(op, ptrs, regions) {
      Skipped(World(heap.blocks, regions, slots), op, ptrs);
      return;
    }
    match op {
      case MallocOp(_, _, _) => ptrs', regions', slots' := DoMalloc(heap, ptrs, regions, slots, op);
      case ReallocOp(_, _, _) => ptrs', regions', slots' := DoRealloc(heap, ptrs, regions, slots, op);
      case FreeOp(_) => ptrs', slots' := DoFree(heap, ptrs, regions, slots, op);
      case StoreOp(_, _, _) => slots' := DoStore(heap, ptrs, regions, slots, op);
      case OthersOp(addr, value) => lost := DoOthers(heap, ptrs, regions, slots, addr, value);
    }
  }

  lemma Skipped(w: World, op: Op, ptrs: seq<nat>)
    requires Pointers(ptrs, w.slots) && !Allowed(op, ptrs, w.regions)
    ensures Recorded(w, op, w) && Acts(w, op, w) && Clean(w, op) && !Hit(w, op)
  {
    assert PtrsOf(w.slots) == ptrs;
  }

  /** Whether a store would change a header, decided by a walk along the list before it happens. */
  method WouldStrike(heap: Heap, addr: nat, value: byte) returns (yes: bool)
    requires heap.Valid()
    ensures yes <==> Strikes(heap.blocks, addr, value)
  {
    hide Sound, Linked, Total, Taken, Separate, HeaderByte, Padding;
    yes := false;
    var current := heap.start;
    ghost var i := 0;
    SoundStart(heap.blocks);
    H.NextKnown(heap.headers, heap.blocks, 0);
    while current != 0
      invariant i <= |heap.blocks| && current == if i < |heap.blocks| then heap.blocks[i].addr else 0
      invariant current == 0 <==> i == |heap.blocks|
      invariant yes <==> exists j :: 0 <= j < i && StrikesAt(heap.blocks, j, addr, value)
      decreases |heap.blocks| - i
    {
      H.NextKnown(heap.headers, heap.blocks, i);
      if current <= addr < current + 40 && !Padding(addr - current) && HeaderByte(heap.headers[current], addr - current) != value {
        assert StrikesAt(heap.blocks, i, addr, value);
        yes := true;
      }
      current, i := heap.headers[current].next, i + 1;
    }
  }

  /** Somebody else's store: the bytes recorded stay, and the list unless a header is changed. */
  method DoOthers(heap: Heap, ghost ptrs: seq<nat>, ghost regions: seq<Region>, ghost slots: seq<Slot>, addr: nat, value: byte)
    returns (lost: bool)
    requires Good(heap, ptrs, regions, slots) && Outside(regions, addr)
    modifies heap`mem, heap`headers
    ensures Linked(heap.headers, heap.blocks) <==> !lost
    ensures lost <==> Strikes(heap.blocks, addr, value)
    ensures !lost ==> Good(heap, ptrs, regions, slots)
  {
    hide Client, Live, Linked, Sound, Total, Taken, Poked, Separate, Strikes, Overwritten;
    OthersStore(Live(heap.blocks), regions, heap.mem, slots, addr, value);
    StrikesUnlinks(heap.headers, heap.blocks, addr, value);
    lost := WouldStrike(heap, addr, value);
    heap.mem := Poked(heap.mem, addr, value);
    heap.headers := Overwritten(heap.headers, addr, value);
  }

  /** A run that got as far as `trace` shows, and what it made of the fit in memory. */
  ghost predicate IsTrace(trace: seq<World>, ops: seq<Op>)
  {
    |trace| > 0 && |trace| <= |ops| + 1 && forall k :: 0 <= k < |trace| - 1 ==> Shaped(trace[k], ops[k], trace[k + 1])
  }

  ghost predicate AllHoused(trace: seq<World>)
  {
    forall k :: 0 <= k < |trace| ==> Housed(trace[k].blocks, trace[k].regions)
  }

  ghost predicate AllClean(trace: seq<World>, ops: seq<Op>)
  {
    forall k :: 0 <= k < |trace| - 1 && k < |ops| ==> Clean(trace[k], ops[k])
  }

  /**
   * All blocks stay inside the memory the heap was given exactly when every block given back has
   * touching free neighbours; then they fill it, and nobody's store outside it hits the list.
   */
  lemma {:induction false} StaysInside(trace: seq<World>, ops: seq<Op>)
    requires IsTrace(trace, ops) && Fitted(trace[0].blocks, trace[0].regions)
    ensures AllHoused(trace) <==> AllClean(trace, ops)
    ensures AllClean(trace, ops) ==> Fitted(trace[|trace| - 1].blocks, trace[|trace| - 1].regions)
    ensures AllClean(trace, ops) ==> forall k :: 0 <= k < |trace| && k < |ops| ==> !Hit(trace[k], ops[k])
    decreases |trace|
  {
    hide Fitted, Housed, Clean, FormKept, Hit;
    var n := |trace| - 1;
    FittedHoused(trace[n].blocks, trace[n].regions);
    if n < |ops| {
      HousedNotHit(trace[n], ops[n]);
    }
    if n > 0 {
      var less := trace[..n];
      StaysInside(less, ops);
      assert Shaped(trace[n - 1], ops[n - 1], trace[n]);
      assert less[n - 1] == trace[n - 1];
      assert trace == less + [trace[n]];
      HousedMore(less, trace[n]);
      CleanMore(less, trace[n], ops);
    }
  }

  lemma HousedNotHit(w: World, op: Op)
    ensures Housed(w.blocks, w.regions) ==> !Hit(w, op)
  {
    hide Housed, Outside, Strikes;
    if Housed(w.blocks, w.regions) && op.OthersOp? && Outside(w.regions, op.addr) {
      HousedUnstruck(w.blocks, w.regions, op.addr, op.value);
    }
  }

  /** New pages always started where the heap ended. */
  ghost predicate AllTouching(trace: seq<World>, ops: seq<Op>)
  {
    forall k :: 0 <= k < |trace| && k < |ops| ==> Touching(trace[k].blocks, ops[k])
  }

  lemma TouchingMore(trace: seq<World>, ops: seq<Op>, w: World, op: Op)
    requires |trace| == |ops| + 1
    ensures AllTouching(trace + [w], ops + [op]) <==> AllTouching(trace, ops) && Touching(trace[|ops|].blocks, op)
  {
    var more, all := trace + [w], ops + [op];
    assert forall k :: 0 <= k < |ops| ==> all[k] == ops[k] && more[k] == trace[k];
    assert all[|ops|] == op && more[|ops|] == trace[|ops|];
  }

  lemma ShapedMore(trace: seq<World>, ops: seq<Op>, w: World, op: Op)
    requires |trace| == |ops| + 1 && IsTrace(trace, ops) && Shaped(trace[|ops|], op, w)
    ensures IsTrace(trace + [w], ops + [op])
    ensures Packed(trace[|ops|].blocks) ==> Packed(w.blocks)
    ensures Tiled(trace[|ops|].blocks) && Touching(trace[|ops|].blocks, op) ==> Tiled(w.blocks)
  {
    hide Shaped;
    var more, all := trace + [w], ops + [op];
    assert forall k :: 0 <= k < |ops| ==> all[k] == ops[k] && more[k] == trace[k];
    FormOf(trace[|ops|], op, w);
  }

  lemma FormOf(w: World, op: Op, w': World)
    requires Shaped(w, op, w')
    ensures FormKept(w.blocks, w'.blocks, Touching(w.blocks, op))
    ensures Packed(w.blocks) ==> Packed(w'.blocks)
    ensures Tiled(w.blocks) && Touching(w.blocks, op) ==> Tiled(w'.blocks)
  {
  }

  lemma HousedMore(trace: seq<World>, w: World)
    ensures AllHoused(trace + [w]) <==> AllHoused(trace) && Housed(w.blocks, w.regions)
  {
    assert (trace + [w])[|trace|] == w;
    assert forall k :: 0 <= k < |trace| ==> (trace + [w])[k] == trace[k];
  }

  lemma CleanMore(trace: seq<World>, w: World, ops: seq<Op>)
    requires 0 < |trace| <= |ops|
    ensures AllClean(trace + [w], ops) <==> AllClean(trace, ops) && Clean(trace[|trace| - 1], ops[|trace| - 1])
  {
    assert (trace + [w])[|trace| - 1] == trace[|trace| - 1];
    assert forall k :: 0 <= k < |trace| ==> (trace + [w])[k] == trace[k];
  }

  lemma CleanAlways(w: World, op: Op)
    ensures !op.FreeOp? && !op.ReallocOp? ==> Clean(w, op)
  {
  }

  /** A run that has made the calls `done`, none of which hit the list. */
  ghost predicate Traced(trace: seq<World>, done: seq<Op>)
  {
    && |trace| == |done| + 1 && IsTrace(trace, done)
    && (forall k :: 0 <= k < |trace| ==> Sound(trace[k].blocks) && Packed(trace[k].blocks))
    && (forall k :: 0 <= k < |done| ==> !Hit(trace[k], done[k]))
    && (AllTouching(trace, done) ==> Tiled(trace[|done|].blocks))
  }

  /** It is now where the trace ends. */
  ghost predicate Running(heap: Heap, ptrs: seq<nat>, regions: seq<Region>, slots: seq<Slot>, trace: seq<World>, done: seq<Op>)
    reads heap
  {
    Good(heap, ptrs, regions, slots) && Traced(trace, done) && trace[|done|] == World(heap.blocks, regions, slots)
  }

  /** What a run from a fitted heap comes to. */
  ghost predicate Ended(heap: Heap, ptrs: seq<nat>, regions: seq<Region>, slots: seq<Slot>, trace: seq<World>, ops: seq<Op>, lost: bool)
    reads heap
  {
    && IsTrace(trace, ops) && trace[|trace| - 1].blocks == heap.blocks && heap.blocks != []
    && (forall k :: 0 <= k < |trace| ==> Sound(trace[k].blocks) && Packed(trace[k].blocks))
    && (forall k :: 0 <= k < |trace| - 1 ==> !Hit(trace[k], ops[k]))
    && (!lost ==>
          && |trace| == |ops| + 1 && trace[|ops|] == World(heap.blocks, regions, slots)
          && Good(heap, ptrs, regions, slots)
          && heap.total == Total(heap.blocks) && heap.used == 40 + Taken(heap.blocks) <= heap.total + 40)
    && (lost ==> |trace| <= |ops| && Hit(trace[|trace| - 1], ops[|trace| - 1]) && !Linked(heap.headers, heap.blocks))
    && (AllTouching(trace, ops) ==>
          Tiled(heap.blocks) && End(heap.blocks[|heap.blocks| - 1]) == heap.blocks[0].addr + Total(heap.blocks))
    && (AllHoused(trace) <==> AllClean(trace, ops))
    && (AllClean(trace, ops) ==> !lost && Fitted(heap.blocks, regions))
  }

  lemma TracedMore(trace: seq<World>, done: seq<Op>, w: World, op: Op)
    requires Traced(trace, done) && !Hit(trace[|done|], op) && Shaped(trace[|done|], op, w) && Sound(w.blocks)
    ensures Traced(trace + [w], done + [op])
  {
    hide IsTrace, AllTouching, Sound, Packed, Tiled, Hit, Shaped, Touching;
    TouchingMore(trace, done, w, op);
    ShapedMore(trace, done, w, op);
    var more, all := trace + [w], done + [op];
    assert forall k :: 0 <= k < |done| ==> all[k] == done[k] && more[k] == trace[k];
    assert more[|done|] == trace[|done|] && all[|done|] == op && more[|done| + 1] == w;
  }

  /** The next call of a run. */
  method Advance(heap: Heap, ptrs: seq<nat>, regions: seq<Region>, ghost slots: seq<Slot>, op: Op,
                 ghost trace: seq<World>, ghost done: seq<Op>)
    returns (ptrs': seq<nat>, regions': seq<Region>, ghost slots': seq<Slot>, lost: bool, ghost trace': seq<World>)
    requires Running(heap, ptrs, regions, slots, trace, done)
    modifies heap
    ensures |ptrs'| == |ptrs|
    ensures lost <==> Hit(trace[|done|], op)
    ensures lost ==> heap.blocks == old(heap.blocks) && !Linked(heap.headers, heap.blocks) && trace' == trace
    ensures !lost ==> trace' == trace + [World(heap.blocks, regions', slots')]
    ensures !lost ==> Running(heap, ptrs', regions', slots', trace', done + [op]) && Acts(trace[|done|], op, trace'[|done| + 1])
  {
    hide Heap.Valid, Client, Live, Traced, Hit, Linked, Shaped, Acts, Sound;
    TracedLength(trace, done);
    ptrs', regions', slots', lost := Step(heap, ptrs, regions, slots, op);
    if lost {
      return ptrs, regions', slots', true, trace;
    }
    ValidSound(heap);
    ghost var w := World(heap.blocks, regions', slots');
    TracedMore(trace, done, w, op);
    ShapedActs(trace[|done|], op, w);
    trace' := trace + [w];
  }

  lemma TracedLength(trace: seq<World>, done: seq<Op>)
    requires Traced(trace, done)
    ensures |trace| == |done| + 1
  {
  }

  lemma ShapedActs(w: World, op: Op, w': World)
    requires Shaped(w, op, w')
    ensures Acts(w, op, w')
  {
  }

  /** A run stops after the calls `done` of `ops`, at the end or at a store that hits the list. */
  lemma Ends(heap: Heap, ptrs: seq<nat>, regions: seq<Region>, slots: seq<Slot>, trace: seq<World>, done: seq<Op>, ops: seq<Op>, lost: bool)
    requires Traced(trace, done) && done <= ops && trace[|done|].blocks == heap.blocks
    requires Fitted(trace[0].blocks, trace[0].regions)
    requires !lost ==> done == ops && Running(heap, ptrs, regions, slots, trace, done)
    requires lost ==> |done| < |ops| && Hit(trace[|done|], ops[|done|]) && !Linked(heap.headers, heap.blocks)
    ensures Ended(heap, ptrs, regions, slots, trace, ops, lost)
  {
    hide Heap.Valid, Client, Live, Packed, Tiled, Sound, Touching, Fitted, Clean, AllTouching, AllClean, AllHoused, IsTrace, Hit, Linked, Shaped;
    assert done == ops[..|done|];
    TraceOf(trace, ops, |done|);
    StaysInside(trace, ops);
    SoundStart(heap.blocks);
    if !lost {
      Counters(heap);
    }
    if AllTouching(trace, ops) {
      TiledTotal(heap.blocks);
    }
  }

  lemma Starts(w: World)
    requires Sound(w.blocks) && Packed(w.blocks) && Tiled(w.blocks)
    ensures Traced([w], [])
  {
  }

  /**
   * Every run from a fresh heap, with others free to write outside the heap's memory between the
   * calls.  Until one of their stores hits a header: each call does what `Acts` says, the list is well
   * linked, the counters are exact, no two neighbours are free, every slot reads back what was stored
   * in it, as far as its block lay in the heap's memory, and the blocks tile the heap as long as new
   * pages touch it.  All blocks stay in the heap's memory exactly when blocks are given back with
   * touching free neighbours only; then no store of others hits the list.
   */
  method Run(heap: Heap, n: nat, ops: seq<Op>, regions0: seq<Region>)
    returns (ptrs: seq<nat>, regions: seq<Region>, ghost slots: seq<Slot>, ghost trace: seq<World>, lost: bool)
    requires heap.Valid() && Packed(heap.blocks) && Tiled(heap.blocks) && heap.regions == regions0
    requires Fitted(heap.blocks, heap.regions)
    modifies heap
    ensures Ended(heap, ptrs, regions, slots, trace, ops, lost)
    ensures trace[0] == World(old(heap.blocks), regions0, seq(n, _ => EMPTY))
  {
    hide Heap.Valid, Client, Live, Packed, Tiled, Sound, Fitted, Traced, Hit, Linked, Acts, Ended;
    ghost var w := World(heap.blocks, regions0, seq(n, _ => EMPTY));
    ptrs, regions, slots, lost := seq(n, _ => 0), regions0, w.slots, false;
    trace := [w];
    NobodyYet(Live(heap.blocks), regions, heap.mem, slots);
    ValidSound(heap);
    Starts(w);
    assert ops[..0] == [];
    var k := 0;
    while k < |ops|
      invariant 0 <= k <= |ops| && |trace| == k + 1 && trace[0] == w
      invariant Running(heap, ptrs, regions, slots, trace, ops[..k])
    {
      ptrs, regions, slots, lost, trace := Advance(heap, ptrs, regions, slots, ops[k], trace, ops[..k]);
      if lost {
        break;
      }
      assert ops[..k + 1] == ops[..k] + [ops[k]];
      k := k + 1;
    }
    Ends(heap, ptrs, regions, slots, trace, ops[..k], ops, lost);
  }

  lemma TraceOf(trace: seq<World>, ops: seq<Op>, k: nat)
    requires k <= |ops| && |trace| == k + 1 && IsTrace(trace, ops[..k])
    ensures IsTrace(trace, ops) && (AllTouching(trace, ops) ==> AllTouching(trace, ops[..k]))
  {
    hide Shaped, Touching;
    assert forall j :: 0 <= j < k ==> ops[..k][j] == ops[j];
  }

  lemma NobodyYet(live: set<Block>, rs: seq<Region>, mem: Memory, slots: seq<Slot>)
    requires forall s :: 0 <= s < |slots| ==> slots[s] == EMPTY
    ensures Client(live, rs, mem, slots)
  {
  }

  lemma Counters(heap: Heap)
    requires heap.Valid()
    ensures heap.total == Total(heap.blocks) && heap.used == 40 + Taken(heap.blocks) <= heap.total + 40
    ensures heap.blocks != [] && heap.start == heap.blocks[0].addr
  {
    TakenAtMost(heap.blocks);
  }

  // ---- Where arenas do not touch -----------------------------------------------------------

  /** `coalesce` looks at the list only: across a gap the merged block runs past its arena. */
  lemma MergeAcrossGap()
    ensures var bs := [Block(0x10_0000, 262104, false), Block(0x100_0000, 4056, true)];
            && Sound(bs) && Freed(bs, 0) == [Block(0x10_0000, 266200, true)]
            && End(bs[0]) < End(Freed(bs, 0)[0]) < bs[1].addr
            && !Housed(Freed(bs, 0), [Region(0x10_0000, End(bs[0])), Region(bs[1].addr, End(bs[1]))])
  {
    var bs := [Block(0x10_0000, 262104, false), Block(0x100_0000, 4056, true)];
    SetFreeSeq(bs, 0, true);
    AbsorbSeq(SetFree(bs, 0, true), 0);
    assert MergedNext(SetFree(bs, 0, true), 0) == [Block(0x10_0000, 266200, true)];
    var rs := [Region(0x10_0000, End(bs[0])), Region(bs[1].addr, End(bs[1]))];
    assert rs[0].hi < rs[1].lo;
    SticksOut(Block(0x10_0000, 266200, true), rs, 0);
    assert !Lies(Freed(bs, 0)[0], rs);
  }

  /**
   * Giving back both blocks of two arenas, the second one first, and taking 262112 bytes leaves a
   * header between the arenas, where one byte stored by somebody else unlinks the list.
   */
  lemma StrayHeader()
    ensures var bs := [Block(0x10_0000, 262104, false), Block(0x100_0000, 4056, false)];
            var rs := [Region(0x10_0000, 0x14_0000), Region(0x100_0000, 0x100_1000)];
            var after := Allocated(Freed(Freed(bs, 1), 0), 0, 262112);
            && Fitted(bs, rs) && Outside(rs, 0x14_0008)
            && after == [Block(0x10_0000, 262112, false), Block(0x14_0008, 4048, true)]
            && forall hs :: Linked(hs, after) ==> !Linked(Overwritten(hs, 0x14_0008, 0), after)
  {
    var bs := [Block(0x10_0000, 262104, false), Block(0x100_0000, 4056, false)];
    var rs := [Region(0x10_0000, 0x14_0000), Region(0x100_0000, 0x100_1000)];
    TwoArenas(bs, rs);
    StrayBlocks(bs);
    var after := [Block(0x10_0000, 262112, false), Block(0x14_0008, 4048, true)];
    assert HeaderOf(after, 1).magic == MAGIC && ByteOf(MAGIC, 0) == 0x50;
    assert StrikesAt(after, 1, 0x14_0008, 0);
    hide Linked, Freed, Allocated, Fitted;
    forall hs | Linked(hs, after)
      ensures !Linked(Overwritten(hs, 0x14_0008, 0), after)
    {
      StrikesUnlinks(hs, after, 0x14_0008, 0);
    }
  }

  lemma TwoArenas(bs: seq<Block>, rs: seq<Region>)
    requires bs == [Block(0x10_0000, 262104, false), Block(0x100_0000, 4056, false)]
    requires rs == [Region(0x10_0000, 0x14_0000), Region(0x100_0000, 0x100_1000)]
    ensures Fitted(bs, rs) && Outside(rs, 0x14_0008)
  {
    assert LiesIn(bs[0], rs[0]) && End(bs[0]) == rs[0].hi && LiesIn(bs[1], rs[1]);
    assert EndsRegion(bs[0], rs) && Lies(bs[0], rs) && Lies(bs[1], rs);
    assert Seam(bs[0], bs[1], rs);
  }

  lemma StrayBlocks(bs: seq<Block>)
    requires bs == [Block(0x10_0000, 262104, false), Block(0x100_0000, 4056, false)]
    ensures Freed(bs, 1) == [Block(0x10_0000, 262104, false), Block(0x100_0000, 4056, true)]
    ensures Freed(Freed(bs, 1), 0) == [Block(0x10_0000, 266200, true)]
    ensures Allocated(Freed(Freed(bs, 1), 0), 0, 262112) == [Block(0x10_0000, 262112, false), Block(0x14_0008, 4048, true)]
  {
    SetFreeSeq(bs, 1, true);
    var one := Freed(bs, 1);
    assert one == [Block(0x10_0000, 262104, false), Block(0x100_0000, 4056, true)];
    SetFreeSeq(one, 0, true);
    AbsorbSeq(SetFree(one, 0, true), 0);
    var merged := [Block(0x10_0000, 266200, true)];
    assert MergedNext(SetFree(one, 0, true), 0) == merged;
    SplitSeq(merged, 0, 262112);
    SetFreeSeq(Split(merged, 0, 262112), 0, false);
  }
}
