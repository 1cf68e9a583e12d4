/** The physical page allocator: a first-fit bitmap with a running count. */
module Pmm {
  const U64 := 0x1_0000_0000_0000_0000

  // ---- Bits --------------------------------------------------------------------------------

  function And(a: bv32, b: bv32): bv32
  {
    a & b
  }

  function Or(a: bv32, b: bv32): bv32
  {
    a | b
  }

  function Not(a: bv32): bv32
  {
    !a
  }

  function Mask(k: bv5): bv32
  {
    1 << k
  }

  lemma SetOwn(w: bv32, a: bv32)
    ensures And(Or(w, a), a) == a
  {
  }

  lemma ClearOwn(w: bv32, a: bv32)
    ensures And(And(w, Not(a)), a) == 0
  {
  }

  lemma SetOther(w: bv32, a: bv32, b: bv32)
    requires And(a, b) == 0
    ensures And(Or(w, a), b) == And(w, b)
  {
  }

  lemma ClearOther(w: bv32, a: bv32, b: bv32)
    requires And(a, b) == 0
    ensures And(And(w, Not(a)), b) == And(w, b)
  {
  }

  lemma MasksApart(j: bv5, k: bv5)
    requires j != k
    ensures And(Mask(j), Mask(k)) == 0
  {
  }

  lemma MaskNonZero(k: bv5)
    ensures Mask(k) != 0
  {
  }

  predicate Bit(w: bv32, k: bv5)
  {
    And(w, Mask(k)) != 0
  }

  function WithBit(w: bv32, k: bv5): bv32
  {
    Or(w, Mask(k))
  }

  function WithoutBit(w: bv32, k: bv5): bv32
  {
    And(w, Not(Mask(k)))
  }

  /** Setting or clearing one bit of a word changes that bit and no other. */
  lemma OneBit(w: bv32, j: bv5, k: bv5)
    ensures Bit(WithBit(w, j), k) <==> j == k || Bit(w, k)
    ensures Bit(WithoutBit(w, j), k) <==> j != k && Bit(w, k)
  {
    hide And, Or, Not, Mask;
    MaskNonZero(j);
    if j == k {
      SetOwn(w, Mask(j));
      ClearOwn(w, Mask(j));
    } else {
      MasksApart(j, k);
      SetOther(w, Mask(j), Mask(k));
      ClearOther(w, Mask(j), Mask(k));
    }
  }

  /** The place of a page in its word. */
  function Place(bit: nat): bv5
  {
    (bit % 32) as bv5
  }

  lemma PlaceBack(bit: nat)
    ensures Place(bit) as nat == bit % 32
  {
    Small(bit % 32);
  }

  lemma Small(k: nat)
    requires k < 32
    ensures (k as bv5) as nat == k
  {
  }

  /** Bit `i` of the whole bitmap. */
  ghost predicate Test(words: seq<bv32>, i: nat)
    requires i < 32 * |words|
  {
    Bit(words[i / 32], Place(i))
  }

  /** The pages marked used. */
  ghost function Marked(words: seq<bv32>): set<nat>
  {
    set i: nat | i < 32 * |words| && Test(words, i)
  }

  lemma SetTest(words: seq<bv32>, b: nat, i: nat)
    requires b < 32 * |words| && i < 32 * |words|
    ensures Test(words[b / 32 := WithBit(words[b / 32], Place(b))], i) <==> i == b || Test(words, i)
    ensures Test(words[b / 32 := WithoutBit(words[b / 32], Place(b))], i) <==> i != b && Test(words, i)
  {
    hide Bit, WithBit, WithoutBit, Place;
    PlaceBack(b);
    PlaceBack(i);
    OneBit(words[b / 32], Place(b), Place(i));
  }

  lemma SetMarks(words: seq<bv32>, b: nat)
    requires b < 32 * |words|
    ensures Marked(words[b / 32 := WithBit(words[b / 32], Place(b))]) == Marked(words) + {b}
    ensures Marked(words[b / 32 := WithoutBit(words[b / 32], Place(b))]) == Marked(words) - {b}
  {
    hide Test, WithBit, WithoutBit;
    forall i: nat | i < 32 * |words|
      ensures Test(words[b / 32 := WithBit(words[b / 32], Place(b))], i) <==> i == b || Test(words, i)
      ensures Test(words[b / 32 := WithoutBit(words[b / 32], Place(b))], i) <==> i != b && Test(words, i)
    {
      SetTest(words, b, i);
    }
  }

  lemma ClearMarks(words: seq<bv32>)
    requires forall i :: 0 <= i < |words| ==> words[i] == 0
    ensures Marked(words) == {}
  {
  }

  // ---- What a run of free pages is ---------------------------------------------------------

  ghost predicate FreeRun(used: set<nat>, start: nat, count: nat)
  {
    forall p: nat :: start <= p < start + count ==> p !in used
  }

  /** `start` is the lowest start of `count` free pages below `total`. */
  ghost predicate Lowest(used: set<nat>, total: nat, count: nat, start: nat)
  {
    && start + count <= total && FreeRun(used, start, count)
    && forall s: nat :: s < start ==> !FreeRun(used, s, count)
  }

  ghost predicate NoRun(used: set<nat>, total: nat, count: nat)
  {
    forall s: nat :: s + count <= total ==> !FreeRun(used, s, count)
  }

  predicate Within(p: nat, start: nat, count: nat)
  {
    start <= p < start + count
  }

  function Range(start: nat, count: nat): set<nat>
  {
    set p: nat | p < start + count && Within(p, start, count)
  }

  /** The pages that freeing `count` pages from address `addr` on concerns; 64-bit addresses wrap. */
  function Touched(addr: nat, count: nat, total: nat): set<nat>
  {
    if count == 0 then {} else
      var a := (addr + (count - 1) * 4096) % U64;
      Touched(addr, count - 1, total) + if a == 0 || a / 4096 >= total then {} else {a / 4096}
  }

  /** They are the pages in range of the addresses, one page apart, that are not 0. */
  lemma {:induction false} TouchedIs(addr: nat, count: nat, total: nat, p: nat)
    ensures p in Touched(addr, count, total) <==>
            p < total && exists i: nat :: i < count && 0 < At(addr, i) && At(addr, i) / 4096 == p
    decreases count
  {
    if count > 0 {
      TouchedIs(addr, count - 1, total, p);
      assert At(addr, count - 1) == (addr + (count - 1) * 4096) % U64;
      if p in Touched(addr, count - 1, total) {
        var i: nat :| i < count - 1 && 0 < At(addr, i) && At(addr, i) / 4096 == p;
        assert i < count && 0 < At(addr, i) && At(addr, i) / 4096 == p;
      }
    }
  }

  lemma {:induction false} TouchedRange(start: nat, count: nat, total: nat)
    requires start + count <= total <= 1048576
    ensures Touched(start * 4096, count, total) == Range(start, count) - {0}
  {
    if count > 0 {
      TouchedRange(start, count - 1, total);
      var p := start + count - 1;
      assert start * 4096 + (count - 1) * 4096 == p * 4096;
      NoWrap(p);
      TakeNext({}, start, count - 1);
      assert Range(start, count) - {0} == (Range(start, count - 1) - {0}) + ({p} - {0});
    }
  }

  lemma NoWrap(p: nat)
    requires p < 1048576
    ensures p * 4096 % 0x1_0000_0000_0000_0000 == p * 4096
  {
  }

  lemma TakeNext(used: set<nat>, start: nat, i: nat)
    ensures used + Range(start, i + 1) == used + Range(start, i) + {start + i}
    ensures start + i !in Range(start, i) && Range(start, 0) == {}
  {
  }

  lemma {:induction false} RangeSize(start: nat, count: nat)
    ensures |Range(start, count)| == count
  {
    if count > 0 {
      RangeSize(start, count - 1);
      assert Range(start, count) == Range(start, count - 1) + {start + count - 1};
    } else {
      assert Range(start, count) == {};
    }
  }

  class Pmm {
    const bitmap: array<bv32>
    var totalPages: nat
    var usedPages: nat
    ghost var used: set<nat>

    /** The count is the number of set bits. */
    ghost predicate Valid()
      reads this, bitmap
    {
      && bitmap.Length == 32768 && totalPages <= 1048576
      && used == Marked(bitmap[..]) && usedPages == |used|
    }

    constructor ()
      ensures Valid() && used == {} && totalPages == 0 && fresh(bitmap)
    {
      bitmap := new bv32[32768](_ => 0);
      totalPages, usedPages, used := 0, 0, {};
      new;
      ClearMarks(bitmap[..]);
    }

    method BitmapSet(bit: nat)
      requires bitmap.Length == 32768 && used == Marked(bitmap[..]) && bit < 1048576
      modifies bitmap, `used
      ensures used == Marked(bitmap[..]) == old(used) + {bit}
    {
      hide Marked, WithBit, WithoutBit;
      SetMarks(bitmap[..], bit);
      bitmap[bit / 32] := WithBit(bitmap[bit / 32], Place(bit));
      assert bitmap[..] == old(bitmap[..])[bit / 32 := WithBit(old(bitmap[..])[bit / 32], Place(bit))];
      used := used + {bit};
    }

    method BitmapClear(bit: nat)
      requires bitmap.Length == 32768 && used == Marked(bitmap[..]) && bit < 1048576
      modifies bitmap, `used
      ensures used == Marked(bitmap[..]) == old(used) - {bit}
    {
      hide Marked, WithBit, WithoutBit;
      SetMarks(bitmap[..], bit);
      bitmap[bit / 32] := WithoutBit(bitmap[bit / 32], Place(bit));
      assert bitmap[..] == old(bitmap[..])[bit / 32 := WithoutBit(old(bitmap[..])[bit / 32], Place(bit))];
      used := used - {bit};
    }

    method BitmapTest(bit: nat) returns (taken: bool)
      requires Valid() && bit < 1048576
      ensures taken <==> bit in used
    {
      hide Bit;
      taken := Bit(bitmap[bit / 32], Place(bit));
      assert taken == Test(bitmap[..], bit);
    }

    method Mark(bit: nat)
      requires Valid() && bit < 1048576 && bit !in used
      modifies bitmap, `used, `usedPages
      ensures Valid() && used == old(used) + {bit}
    {
      hide Marked;
      BitmapSet(bit);
      usedPages := usedPages + 1;
    }

    /** `find_free_page`: the lowest free page, or -1 exactly when there is none. */
    method FindFreePage() returns (page: int)
      requires Valid()
      ensures page == -1 <==> NoRun(used, totalPages, 1)
      ensures page != -1 ==> 0 <= page && Lowest(used, totalPages, 1, page)
    {
      hide Marked;
      var i := 0;
      while i < totalPages
        invariant i <= totalPages && forall p: nat :: p < i ==> p in used
      {
        var taken := BitmapTest(i);
        if !taken {
          assert FreeRun(used, i, 1);
          forall s: nat | s < i
            ensures !FreeRun(used, s, 1)
          {
            assert s in used;
          }
          return i;
        }
        i := i + 1;
      }
      forall s: nat | s + 1 <= totalPages
        ensures !FreeRun(used, s, 1)
      {
        assert s in used;
      }
      return -1;
    }

    /** `find_free_pages`: the lowest start of `count` free pages, or -1 exactly when there is none. */
    method FindFreePages(count: nat) returns (start: int)
      requires Valid()
      ensures start == -1 <==> count == 0 || NoRun(used, totalPages, count)
      ensures start != -1 ==> 0 <= start && Lowest(used, totalPages, count, start)
    {
      hide Marked;
      var found, i := 0, 0;
      start := 0;
      while i < totalPages
        invariant 0 <= found <= i <= totalPages && (count > 0 ==> found < count)
        invariant found > 0 ==> start == i - found
        invariant FreeRun(used, i - found, found)
        invariant i - found > 0 ==> i - found - 1 in used
        invariant count > 0 ==> forall s: nat :: s + count <= i ==> !FreeRun(used, s, count)
      {
        var taken := BitmapTest(i);
        if !taken {
          if found == 0 {
            start := i;
          }
          found := found + 1;
          if found == count {
            assert FreeRun(used, start, count);
            return;
          }
          assert i + 1 - found > 0 ==> i + 1 - found - 1 in used;
        } else {
          found := 0;
        }
        i := i + 1;
      }
      start := -1;
    }

    method ClearBitmap()
      modifies bitmap
      ensures Marked(bitmap[..]) == {}
    {
      var j := 0;
      while j < bitmap.Length
        invariant j <= bitmap.Length && forall i :: 0 <= i < j ==> bitmap[i] == 0
      {
        bitmap[j] := 0;
        j := j + 1;
      }
      ClearMarks(bitmap[..]);
    }

    /** `pmm_init`: only the low megabyte and the kernel are used. */
    method Init(memSize: nat, kernelEnd: nat)
      requires bitmap.Length == 32768 && kernelEnd <= 1048576 * 4096
      modifies this, bitmap
      ensures Valid() && used == Range(0, KernelPages(kernelEnd))
      ensures totalPages == if memSize / 4096 > 1048576 then 1048576 else memSize / 4096
    {
      hide Marked;
      totalPages := memSize / 4096;
      if totalPages > 1048576 {
        totalPages := 1048576;
      }
      ClearBitmap();
      usedPages, used := 0, {};
      var kernelPages := (kernelEnd + 4096 - 1) / 4096;
      if kernelPages < 256 {
        kernelPages := 256;
      }
      var i := 0;
      while i < kernelPages
        invariant i <= kernelPages && Valid() && used == Range(0, i)
        invariant totalPages == if memSize / 4096 > 1048576 then 1048576 else memSize / 4096
      {
        Mark(i);
        i := i + 1;
        assert Range(0, i) == Range(0, i - 1) + {i - 1};
      }
    }

    /** `pmm_alloc`: NULL and nothing changed when all pages are used; else the lowest free page. */
    method Alloc() returns (addr: nat)
      requires Valid()
      modifies this, bitmap
      ensures Valid() && totalPages == old(totalPages)
      ensures NoRun(old(used), totalPages, 1) ==> addr == 0 && used == old(used)
      ensures !NoRun(old(used), totalPages, 1) ==>
                && addr % 4096 == 0 && Lowest(old(used), totalPages, 1, addr / 4096)
                && used == old(used) + {addr / 4096} && addr / 4096 !in old(used)
    {
      hide Marked;
      var page := FindFreePage();
      if page == -1 {
        return 0;
      }
      assert page !in used;
      Mark(page);
      addr := page * 4096;
    }

    /** `pmm_alloc_pages`: like `pmm_alloc` for a run of pages; NULL for no pages at all. */
    method AllocPages(count: nat) returns (addr: nat)
      requires Valid()
      modifies this, bitmap
      ensures Valid() && totalPages == old(totalPages)
      ensures count == 0 || NoRun(old(used), totalPages, count) ==> addr == 0 && used == old(used)
      ensures count > 0 && !NoRun(old(used), totalPages, count) ==>
                && addr % 4096 == 0 && Lowest(old(used), totalPages, count, addr / 4096)
                && used == old(used) + Range(addr / 4096, count)
    {
      hide Valid, FreeRun, NoRun;
      if count == 0 {
        return 0;
      }
      if count == 1 {
        addr := Alloc();
        assert Range(addr / 4096, 1) == {addr / 4096};
        return;
      }
      var start := FindFreePages(count);
      if start == -1 {
        return 0;
      }
      Take(start, count);
      addr := start * 4096;
    }

    /** The marking loop of `pmm_alloc_pages`. */
    method Take(start: nat, count: nat)
      requires Valid() && start + count <= totalPages && FreeRun(used, start, count)
      modifies this, bitmap
      ensures Valid() && totalPages == old(totalPages) && used == old(used) + Range(start, count)
    {
      hide Marked, Range;
      TakeNext(used, start, 0);
      assert used + Range(start, 0) == used;
      var i := 0;
      while i < count
        invariant i <= count && Valid() && totalPages == old(totalPages)
        invariant used == old(used) + Range(start, i)
      {
        TakeNext(old(used), start, i);
        Mark(start + i);
        i := i + 1;
      }
    }

    /** `pmm_free`: nothing for NULL, an address out of range or a free page. */
    method Free(addr: nat)
      requires Valid()
      modifies this, bitmap
      ensures Valid() && totalPages == old(totalPages)
      ensures used == if addr == 0 || addr / 4096 >= totalPages then old(used) else old(used) - {addr / 4096}
    {
      hide Marked;
      if addr == 0 {
        return;
      }
      var page := addr / 4096;
      if page >= totalPages {
        return;
      }
      var taken := BitmapTest(page);
      if !taken {
        return;
      }
      BitmapClear(page);
      usedPages := usedPages - 1;
    }

    /** `pmm_free_pages`. */
    method FreePages(addr: nat, count: nat)
      requires Valid()
      modifies this, bitmap
      ensures Valid() && totalPages == old(totalPages)
      ensures used == old(used) - Touched(addr, count, totalPages)
    {
      hide Valid;
      var i := 0;
      while i < count
        invariant i <= count && Valid() && totalPages == old(totalPages)
        invariant used == old(used) - Touched(addr, i, totalPages)
      {
        Free((addr + i * 4096) % U64);
        i := i + 1;
      }
    }

    /** `pmm_get_used_memory` and `pmm_get_free_memory`, the latter modulo the word size. */
    method Memory() returns (inUse: nat, available: nat)
      requires Valid()
      ensures inUse == 4096 * |used|
      ensures used <= Range(0, totalPages) ==> available == 4096 * |Range(0, totalPages) - used|
    {
      inUse := usedPages * 4096;
      available := (totalPages - usedPages) * 4096 % U64;
      if used <= Range(0, totalPages) {
        FreeSize(used, totalPages);
      }
    }
  }

  function KernelPages(kernelEnd: nat): nat
  {
    if kernelEnd <= 256 * 4096 then 256 else (kernelEnd + 4095) / 4096
  }

  /** The fewest pages that hold the first megabyte and the kernel. */
  lemma KernelPagesIs(kernelEnd: nat, p: nat)
    ensures KernelPages(kernelEnd) <= p <==> 0x10_0000 <= p * 4096 && kernelEnd <= p * 4096
  {
  }

  lemma FreeSize(used: set<nat>, total: nat)
    requires used <= Range(0, total)
    ensures |Range(0, total) - used| == total - |used|
  {
    RangeSize(0, total);
    assert used + (Range(0, total) - used) == Range(0, total);
  }

  // ---- Runs --------------------------------------------------------------------------------

  /** `pmm_alloc` and `pmm_free` are the one-page cases. */
  datatype Op = Take(count: nat) | Give(addr: nat, count: nat)

  /** One call as a relation between the sets of used pages. */
  ghost predicate Moves(total: nat, u: set<nat>, op: Op, addr: nat, u': set<nat>)
  {
    match op
    case Take(n) =>
      if n == 0 || NoRun(u, total, n) then addr == 0 && u' == u
      else addr % 4096 == 0 && Lowest(u, total, n, addr / 4096) && u' == u + Range(addr / 4096, n)
    case Give(a, n) => u' == u - Touched(a, n, total)
  }

  /** Some address of the range lies strictly inside the first page. */
  ghost predicate InsidePageZero(addr: nat, count: nat)
  {
    exists i: nat :: i < count && 0 < At(addr, i) < 4096
  }

  function At(addr: nat, i: nat): nat
  {
    (addr + i * 4096) % U64
  }

  lemma {:induction false} TouchedZero(addr: nat, count: nat, total: nat)
    requires total > 0
    ensures 0 in Touched(addr, count, total) <==> InsidePageZero(addr, count)
  {
    if count > 0 {
      TouchedZero(addr, count - 1, total);
      assert At(addr, count - 1) == (addr + (count - 1) * 4096) % U64;
      if InsidePageZero(addr, count - 1) {
        var i: nat :| i < count - 1 && 0 < At(addr, i) < 4096;
        assert i < count && 0 < At(addr, i) < 4096;
      }
    }
  }

  /** Page-aligned frees leave page 0 alone. */
  lemma AlignedMissesZero(addr: nat, count: nat)
    requires addr % 4096 == 0
    ensures !InsidePageZero(addr, count)
  {
    forall i: nat | i < count
      ensures At(addr, i) % 4096 == 0
    {
      assert U64 == 4096 * 0x10_0000_0000_0000;
      AlignedMod(addr + i * 4096);
    }
  }

  lemma AlignedMod(x: nat)
    requires x % 4096 == 0
    ensures x % 0x1_0000_0000_0000_0000 % 4096 == 0
  {
  }

  /** The states and results of a run of calls. */
  ghost predicate IsRun(total: nat, ops: seq<Op>, addrs: seq<nat>, states: seq<set<nat>>)
  {
    && |states| == |ops| + 1 && |addrs| == |ops|
    && forall i :: 0 <= i < |ops| ==> Moves(total, states[i], ops[i], addrs[i], states[i + 1])
  }

  ghost predicate FreesZero(op: Op)
  {
    op.Give? && InsidePageZero(op.addr, op.count)
  }

  ghost predicate HoldsZero(states: seq<set<nat>>)
  {
    forall i :: 0 <= i < |states| ==> 0 in states[i]
  }

  ghost predicate SparesZero(ops: seq<Op>)
  {
    forall i :: 0 <= i < |ops| ==> !FreesZero(ops[i])
  }

  lemma HoldsMore(states: seq<set<nat>>, u: set<nat>)
    ensures HoldsZero(states + [u]) <==> HoldsZero(states) && 0 in u
  {
    assert (states + [u])[|states|] == u;
    assert forall i :: 0 <= i < |states| ==> (states + [u])[i] == states[i];
  }

  lemma SparesMore(ops: seq<Op>, op: Op)
    ensures SparesZero(ops + [op]) <==> SparesZero(ops) && !FreesZero(op)
  {
    assert (ops + [op])[|ops|] == op;
    assert forall i :: 0 <= i < |ops| ==> (ops + [op])[i] == ops[i];
  }

  /** Page 0 stays used throughout a run exactly when no call frees an address inside it. */
  lemma {:induction false} PageZero(total: nat, ops: seq<Op>, addrs: seq<nat>, states: seq<set<nat>>)
    requires total > 0 && IsRun(total, ops, addrs, states) && 0 in states[0]
    ensures HoldsZero(states) <==> SparesZero(ops)
    decreases |ops|
  {
    hide InsidePageZero, Touched;
    if |ops| > 0 {
      var n := |ops| - 1;
      PageZero(total, ops[..n], addrs[..n], states[..n + 1]);
      assert ops == ops[..n] + [ops[n]] && states == states[..n + 1] + [states[n + 1]];
      HoldsMore(states[..n + 1], states[n + 1]);
      SparesMore(ops[..n], ops[n]);
      assert Moves(total, states[n], ops[n], addrs[n], states[n + 1]);
      if ops[n].Give? {
        TouchedZero(ops[n].addr, ops[n].count, total);
      }
    }
  }

  /** While page 0 is used, no call hands it out, and NULL means failure. */
  lemma NeverZero(total: nat, u: set<nat>, n: nat, addr: nat, u': set<nat>)
    requires 0 in u && Moves(total, u, Take(n), addr, u')
    ensures addr == 0 <==> n == 0 || NoRun(u, total, n)
    ensures addr != 0 ==> 0 !in Range(addr / 4096, n)
  {
    if n > 0 && !NoRun(u, total, n) {
      assert FreeRun(u, addr / 4096, n);
      assert addr / 4096 !in u;
    }
  }

  /** `pmm_free_pages` undoes a successful `pmm_alloc_pages` bit for bit, unless that gave out page 0. */
  lemma FreeUndoes(total: nat, u: set<nat>, n: nat, addr: nat, u': set<nat>)
    requires total <= 1048576 && n > 0 && !NoRun(u, total, n) && Moves(total, u, Take(n), addr, u')
    ensures u' - Touched(addr, n, total) == u <==> addr != 0
  {
    var s := addr / 4096;
    TouchedRange(s, n, total);
    assert FreeRun(u, s, n);
    assert s in u' && s !in u;
    if s != 0 {
      assert u' - Touched(addr, n, total) == u;
    }
  }

  /** Every run of calls keeps the count equal to the number of set bits. */
  method Run(pmm: Pmm, ops: seq<Op>) returns (addrs: seq<nat>, ghost states: seq<set<nat>>)
    requires pmm.Valid()
    modifies pmm, pmm.bitmap
    ensures pmm.Valid() && pmm.totalPages == old(pmm.totalPages)
    ensures IsRun(pmm.totalPages, ops, addrs, states) && states[0] == old(pmm.used) && states[|ops|] == pmm.used
  {
    hide Pmm.Valid, NoRun, Lowest;
    addrs, states := [], [pmm.used];
    for i := 0 to |ops|
      invariant pmm.Valid() && pmm.totalPages == old(pmm.totalPages)
      invariant IsRun(pmm.totalPages, ops[..i], addrs, states) && states[0] == old(pmm.used) && states[i] == pmm.used
    {
      var addr: nat := 0;
      match ops[i] {
        case Take(n) => addr := pmm.AllocPages(n);
        case Give(a, n) => pmm.FreePages(a, n);
      }
      addrs, states := addrs + [addr], states + [pmm.used];
      assert ops[..i + 1] == ops[..i] + [ops[i]];
    }
    assert ops[..|ops|] == ops;
  }
}
