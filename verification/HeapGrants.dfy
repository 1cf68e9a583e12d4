/** The heap on the virtual memory manager: what `vmm_alloc` gives it, with other callers in between. */
module HeapGrants {
  import opened HeapList
  import H = Heap
  import R = HeapRun
  import V = Vmm
  import W = PageWalk

  /** Other callers allocate and free pages. */
  method Others(vmm: V.Vmm, ops: seq<V.Op>)
    requires vmm.Owned()
    modifies vmm, vmm.pmm, vmm.pmm.bitmap
    ensures vmm.Owned() && old(vmm.next) <= vmm.next
  {
    hide V.Vmm.Owned;
    for i := 0 to |ops|
      invariant vmm.Owned() && old(vmm.next) <= vmm.next
    {
      var _, _ := V.Step(vmm, ops[i]);
    }
  }

  /** `expand_heap` asks for writable pages once; out of reach counts as NULL. */
  method AskOnce(vmm: V.Vmm, pages: nat) returns (grant: nat)
    requires vmm.Owned()
    modifies vmm, vmm.pmm, vmm.pmm.bitmap
    ensures vmm.Owned() && old(vmm.next) <= vmm.next
    ensures grant != 0 ==> pages > 0 && grant == old(vmm.next) && grant % 4096 == 0 && vmm.next == grant + pages * 4096
    ensures 0xFFFF_FFFF_C000_0000 <= old(vmm.next) && vmm.next < 0x1_0000_0000_0000_0000
    ensures grant != 0 ==>
              forall k: nat :: V.WindowPage(grant) <= k < V.WindowPage(grant) + pages ==>
                V.Writable(W.Entry(vmm.tables, vmm.boot.p4, V.WindowPath(k)))
  {
    hide V.Vmm.Owned, V.WindowPage, V.WindowPath, W.Entry;
    V.OwnedFacts(vmm);
    var _, virt := V.Step(vmm, V.AllocOp(pages, 2));
    V.OwnedFacts(vmm);
    grant := virt;
  }

  /**
   * The answers to `expand_heap`, asked again and again for `pages` pages, with others active before
   * each question.  As long as the heap's memory ends below the next address, they are as the heap
   * needs them, and the next address stays above them.
   */
  method Ask(vmm: V.Vmm, pages: nat, between: seq<seq<V.Op>>, top: nat) returns (grants: seq<nat>)
    requires vmm.Owned() && top <= vmm.next
    modifies vmm, vmm.pmm, vmm.pmm.bitmap
    ensures vmm.Owned() && old(vmm.next) <= vmm.next && H.GrantsOk(top, pages, grants)
    ensures forall i :: 0 <= i < |grants| && grants[i] != 0 ==> grants[i] + pages * 4096 <= vmm.next
    decreases |between|
  {
    hide V.Vmm.Owned;
    if between == [] {
      return [];
    }
    Others(vmm, between[0]);
    var grant := AskOnce(vmm, pages);
    if grant == 0 {
      return [0];
    }
    var rest := Ask(vmm, pages, between[1..], grant + pages * 4096);
    grants := [grant] + rest;
    assert grants[1..] == rest;
  }

  // ---- Runs --------------------------------------------------------------------------------

  /** What others do first, and a call whose answers from `vmm_alloc` are still open. */
  datatype Call = Call(others: seq<V.Op>, op: R.Op)

  /** The call with these answers. */
  function With(op: R.Op, grants: seq<nat>): R.Op
  {
    if op.MallocOp? || op.ReallocOp? then op.(grants := grants) else op
  }

  /** No block of the list is large enough for the call, which may be made and needs one. */
  ghost predicate Starved(w: R.World, op: R.Op)
  {
    && (op.MallocOp? || op.ReallocOp?) && R.Allowed(With(op, []), R.PtrsOf(w.slots), w.regions) && op.size > 0
    && H.FitAt(w.blocks, H.Align(op.size)) == |w.blocks|
    && (op.ReallocOp? ==> op.slot < |w.slots| && w.slots[op.slot].block.size < op.size)
  }

  /**
   * `vmm_alloc` is asked once, and exactly when no block is large enough; its answer lies in the
   * window below `next`, and never makes a call one that the heap cannot serve.
   */
  ghost predicate Answered(w: R.World, op: R.Op, op': R.Op, next: nat)
  {
    if Starved(w, op) then
      exists g: nat ::
        && op' == With(op, [g]) && R.Allowed(op', R.PtrsOf(w.slots), w.regions)
        && (g != 0 ==> 0xFFFF_FFFF_C000_0000 <= g && g + H.Pages(H.Align(op.size)) * 4096 <= next)
    else op' == With(op, [])
  }

  lemma AnsweredLater(w: R.World, op: R.Op, op': R.Op, next: nat, next': nat)
    requires Answered(w, op, op', next) && next <= next'
    ensures Answered(w, op, op', next')
  {
    hide Starved, R.Allowed;
  }

  /** Whether the search of `malloc` fails. */
  method NoFit(heap: H.Heap, size: nat) returns (none: bool)
    requires heap.Valid()
    ensures none <==> H.FitAt(heap.blocks, H.Align(size)) == |heap.blocks|
  {
    hide H.Heap.Valid, H.FirstFit, H.Fits, H.Align;
    var a, _, i := heap.FindFit(H.Align(size));
    H.OneFirstFit(heap.blocks, H.Align(size), i, H.FitAt(heap.blocks, H.Align(size)));
    none := a == 0;
  }

  /**
   * `malloc` on top of `vmm_alloc`: the memory of the heap stays below the next address, whatever
   * others do, and new pages never touch memory that ends below the window, such as the initial array.
   */
  method Malloc(heap: H.Heap, vmm: V.Vmm, size: nat, others: seq<V.Op>) returns (ptr: nat)
    requires heap.Valid() && vmm.Owned() && Top(heap.regions) <= vmm.next
    requires size <= 0x1_0000_0000_0000_0000 - 48
    modifies heap, vmm, vmm.pmm, vmm.pmm.bitmap
    ensures heap.Valid() && vmm.Owned() && Top(heap.regions) <= vmm.next
    ensures Fitted(old(heap.blocks), old(heap.regions)) ==> Fitted(heap.blocks, heap.regions)
    ensures heap.regions != old(heap.regions) ==> ptr != 0 && 0xFFFF_FFFF_C000_0000 < ptr < vmm.next
    ensures Top(old(heap.regions)) < 0xFFFF_FFFF_C000_0000 && heap.regions != old(heap.regions) ==>
              |heap.regions| == |old(heap.regions)| + 1 && old(heap.regions) <= heap.regions
  {
    hide V.Vmm.Owned, H.Heap.Valid, H.Align, H.Pages, H.Fits, Fitted, H.FitAt;
    Others(vmm, others);
    var grants := [];
    if size > 0 {
      var none := NoFit(heap, size);
      if none {
        var grant := AskOnce(vmm, H.Pages(H.Align(size)));
        grants := [grant];
      }
    }
    H.SmallAlign(size);
    var p, _, _, _ := heap.Malloc(size, grants);
    ptr := p;
  }

  /** Whether a call needs new pages. */
  method Starves(heap: H.Heap, ptrs: seq<nat>, regions: seq<Region>, ghost slots: seq<R.Slot>, op: R.Op) returns (yes: bool)
    requires R.Good(heap, ptrs, regions, slots)
    ensures yes <==> Starved(R.World(heap.blocks, regions, slots), op)
  {
    hide H.Heap.Valid, H.FirstFit, H.Fits, H.Align, H.Pages, R.Client, Live, H.FitAt, H.GrantsOk;
    R.PtrsAre(ptrs, slots);
    yes := false;
    if (op.MallocOp? || op.ReallocOp?) && op.size > 0 && R.Allowed(With(op, []), ptrs, regions) {
      yes := NoFit(heap, op.size);
      if yes && op.ReallocOp? {
        R.SlotOwns(Live(heap.blocks), regions, heap.mem, slots, op.slot);
        ghost var i := H.Find(heap.blocks, slots[op.slot].block);
        var _, held := heap.SizeAt(ptrs[op.slot] - 40, i);
        yes := held < op.size;
      }
    }
  }

  lemma OneGrant(top: nat, pages: nat, g: nat)
    requires g != 0 ==> pages > 0 && top <= g && g % 4096 == 0 && g + pages * 4096 <= 0x1_0000_0000_0000_0000
    ensures H.GrantsOk(top, pages, [g])
  {
    assert [g][1..] == [];
  }

  /** Ask for what the call needs. */
  method Answer(heap: H.Heap, vmm: V.Vmm, ptrs: seq<nat>, regions: seq<Region>, ghost slots: seq<R.Slot>, op: R.Op)
    returns (op': R.Op)
    requires R.Good(heap, ptrs, regions, slots) && vmm.Owned() && Top(regions) <= vmm.next
    modifies vmm, vmm.pmm, vmm.pmm.bitmap
    ensures vmm.Owned() && old(vmm.next) <= vmm.next
    ensures Answered(R.World(heap.blocks, regions, slots), op, op', vmm.next)
  {
    hide H.Heap.Valid, H.Align, H.Pages, R.Client, Live, V.Vmm.Owned, H.FitAt, H.GrantsOk;
    var starved := Starves(heap, ptrs, regions, slots, op);
    op' := With(op, []);
    if starved {
      var pages := H.Pages(H.Align(op.size));
      var g := AskOnce(vmm, pages);
      OneGrant(Top(regions), pages, g);
      op' := With(op, [g]);
    }
  }

  /** The memory of the heap grows by what was granted at most. */
  lemma Grows(w: R.World, op: R.Op, op': R.Op, next: nat, w': R.World, first: seq<Region>)
    requires Answered(w, op, op', next) && R.Acts(w, op', w') && Top(w.regions) <= next
    requires first <= w.regions && first != [] && Top(first) < 0xFFFF_FFFF_C000_0000
    requires forall k :: |first| <= k < |w.regions| ==> 0xFFFF_FFFF_C000_0000 <= w.regions[k].lo
    ensures Top(w'.regions) <= next && first <= w'.regions
    ensures forall k :: |first| <= k < |w'.regions| ==> 0xFFFF_FFFF_C000_0000 <= w'.regions[k].lo
  {
    hide Starved, H.FitAt, H.Align, H.Pages, R.Allowed, H.MallocPtr, H.MallocBlocks, H.ReallocPtr, H.ReallocBlocks, Freed;
  }

  /**
   * Every run of the heap on the manager, with others allocating and freeing pages before each call
   * and writing outside the heap's memory.  The calls with the answers `vmm_alloc` gives are a run of
   * the heap, and end as such a run does.  The memory of the heap stays below the next address; it
   * is the initial array, which new pages never touch, and memory in the window.
   */
  method Run(heap: H.Heap, vmm: V.Vmm, n: nat, calls: seq<Call>, first: seq<Region>)
    returns (ptrs: seq<nat>, regions: seq<Region>, ghost slots: seq<R.Slot>, ghost trace: seq<R.World>,
             ghost ops: seq<R.Op>, lost: bool)
    requires heap.Valid() && Packed(heap.blocks) && Tiled(heap.blocks) && Fitted(heap.blocks, heap.regions)
    requires vmm.Owned() && heap.regions == first && Top(first) < 0xFFFF_FFFF_C000_0000
    modifies heap, vmm, vmm.pmm, vmm.pmm.bitmap
    ensures vmm.Owned() && R.Ended(heap, ptrs, regions, slots, trace, ops, lost)
    ensures trace[0] == R.World(old(heap.blocks), first, seq(n, _ => R.EMPTY))
    ensures |ops| <= |calls| && (!lost ==> |ops| == |calls|) && |ops| <= |trace|
    ensures forall k :: 0 <= k < |ops| ==> Answered(trace[k], calls[k].op, ops[k], vmm.next)
    ensures !lost ==> first <= regions && Top(regions) <= vmm.next
    ensures !lost ==> forall k :: |first| <= k < |regions| ==> 0xFFFF_FFFF_C000_0000 <= regions[k].lo
  {
    hide H.Heap.Valid, R.Client, Live, Packed, Tiled, Sound, Fitted, R.Traced, R.Hit, Linked, R.Acts, R.Ended, V.Vmm.Owned, Answered;
    ghost var w := R.World(heap.blocks, first, seq(n, _ => R.EMPTY));
    ptrs, regions, slots, lost := seq(n, _ => 0), first, w.slots, false;
    trace, ops := [w], [];
    R.NobodyYet(Live(heap.blocks), regions, heap.mem, slots);
    R.ValidSound(heap);
    R.Starts(w);
    V.OwnedFacts(vmm);
    ghost var done: seq<R.Op> := [];
    var k := 0;
    while k < |calls|
      invariant 0 <= k <= |calls| && |trace| == k + 1 && trace[0] == w && |ops| == k && done == ops && !lost
      invariant R.Running(heap, ptrs, regions, slots, trace, ops) && vmm.Owned()
      invariant forall j :: 0 <= j < k ==> Answered(trace[j], calls[j].op, ops[j], vmm.next)
      invariant first <= regions && Top(regions) <= vmm.next
      invariant forall j :: |first| <= j < |regions| ==> 0xFFFF_FFFF_C000_0000 <= regions[j].lo
    {
      ghost var next0 := vmm.next;
      Others(vmm, calls[k].others);
      var op := Answer(heap, vmm, ptrs, regions, slots, calls[k].op);
      ghost var trace0 := trace;
      forall j | 0 <= j < k
        ensures Answered(trace0[j], calls[j].op, ops[j], vmm.next)
      {
        AnsweredLater(trace0[j], calls[j].op, ops[j], next0, vmm.next);
      }
      ops := ops + [op];
      ptrs, regions, slots, lost, trace := R.Advance(heap, ptrs, regions, slots, op, trace, done);
      if lost {
        break;
      }
      Grows(trace0[k], calls[k].op, op, vmm.next, trace[k + 1], first);
      done := ops;
      k := k + 1;
    }
    R.Ends(heap, ptrs, regions, slots, trace, done, ops, lost);
  }
}
