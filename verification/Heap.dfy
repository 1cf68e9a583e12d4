/** The kernel heap: a first-fit list of blocks, split, merged and extended in place. */
module Heap {
  import opened Bytes
  import opened HeapList

  // ---- Sizes -------------------------------------------------------------------------------

  /** Rounding up to 16 bytes, in 64 bits. */
  function Align(size: nat): nat
  {
    (size + 15) % 0x1_0000_0000_0000_0000 / 16 * 16
  }

  /** Pages for a block of `n` bytes and its header, in 64 bits. */
  function Pages(n: nat): nat
  {
    (n + 40 + 4095) % 0x1_0000_0000_0000_0000 / 4096
  }

  /** The rounded size is large enough exactly when rounding does not wrap. */
  lemma AlignFits(size: nat)
    requires size < 0x1_0000_0000_0000_0000
    ensures size <= Align(size) <==> size <= 0x1_0000_0000_0000_0000 - 16
    ensures Align(size) % 16 == 0 && Align(size) <= 0x1_0000_0000_0000_0000 - 16
    ensures Align(Align(size)) == Align(size) && (size > 0x1_0000_0000_0000_0000 - 16 ==> Align(size) == 0)
    ensures size <= 0x1_0000_0000_0000_0000 - 48 ==> Align(size) <= 0x1_0000_0000_0000_0000 - 48
  {
    AlignValue(size);
    var n := Align(size);
    hide Align;
    RoundUp(size);
    Sixteens(n);
    AlignValue(n);
  }

  lemma AlignValue(size: nat)
    requires size < 0x1_0000_0000_0000_0000
    ensures Align(size) == if size <= 0x1_0000_0000_0000_0000 - 16 then (size + 15) / 16 * 16 else 0
  {
    Wrap(size + 15);
  }

  lemma RoundUp(size: nat)
    ensures size <= (size + 15) / 16 * 16 <= size + 15 && (size + 15) / 16 * 16 % 16 == 0
  {
  }

  lemma Wrap(x: nat)
    requires x < 0x1_0000_0000_0000_0000 + 0x1_0000_0000_0000_0000
    ensures x % 0x1_0000_0000_0000_0000 ==
            if x < 0x1_0000_0000_0000_0000 then x else x - 0x1_0000_0000_0000_0000
  {
  }

  lemma Sixteens(x: nat)
    requires x % 16 == 0
    ensures (x + 15) / 16 * 16 == x && x % 8 == 0
  {
  }

  /** The pages are enough exactly when counting them does not wrap. */
  lemma PagesFit(n: nat)
    requires n < 0x1_0000_0000_0000_0000
    ensures n + 40 <= Pages(n) * 4096 <==> n <= 0x1_0000_0000_0000_0000 - 4136
  {
    Wrap(n + 40 + 4095);
  }

  /** They are the fewest that are. */
  lemma PagesFewest(n: nat, p: nat)
    requires n <= 0x1_0000_0000_0000_0000 - 4136
    ensures n + 40 <= p * 4096 <==> Pages(n) <= p
  {
    Wrap(n + 40 + 4095);
  }

  /** The rounded size is the least multiple of 16 that is large enough. */
  lemma AlignLeast(size: nat, k: nat)
    requires size <= 0x1_0000_0000_0000_0000 - 16
    ensures Align(size) % 16 == 0 && (size <= 16 * k <==> Align(size) <= 16 * k)
  {
    AlignValue(size);
  }

  /** Between the sizes whose pages are enough and those that ask for one page, no page is asked for. */
  lemma PagesNone(n: nat)
    requires n % 16 == 0 && n < 0x1_0000_0000_0000_0000
    ensures 0x1_0000_0000_0000_0000 - 4136 < n <= 0x1_0000_0000_0000_0000 - 48 ==> Pages(n) == 0
    ensures 0x1_0000_0000_0000_0000 - 48 < n ==> Pages(n) == 1
  {
    Wrap(n + 40 + 4095);
    Sixteenths(n);
  }

  lemma Sixteenths(n: nat)
    requires n % 16 == 0
    ensures n > 0x1_0000_0000_0000_0000 - 48 ==> n >= 0x1_0000_0000_0000_0000 - 32
  {
  }

  // ---- Bytes -------------------------------------------------------------------------------

  type Memory = map<nat, byte>

  function Peek(mem: Memory, a: nat): byte
  {
    if a in mem then mem[a] else 0
  }

  /** What is left of memory after a header is written at `a`. */
  function Erase(mem: Memory, a: nat): Memory
  {
    map x | x in mem && !(a <= x < a + 40) :: mem[x]
  }

  /** The block's payload is as before. */
  ghost predicate Kept(b: Block, mem: Memory, mem': Memory)
  {
    forall x: nat :: b.addr + 40 <= x < End(b) ==> Peek(mem', x) == Peek(mem, x)
  }

  /** The `n` bytes that were at `src` are at `dst`. */
  ghost predicate Moved(mem: Memory, mem': Memory, src: nat, dst: nat, n: nat)
  {
    forall x: nat :: dst <= x < dst + n ==> Peek(mem', x) == Peek(mem, src + x - dst)
  }

  ghost predicate KeptOutside(mem: Memory, mem': Memory, dst: nat, n: nat)
  {
    forall x: nat :: !(dst <= x < dst + n) ==> Peek(mem', x) == Peek(mem, x)
  }

  function Poked(mem: Memory, a: nat, v: byte): Memory
  {
    mem[a := v]
  }

  lemma PokedAt(mem: Memory, a: nat, v: byte, x: nat)
    ensures Peek(Poked(mem, a, v), x) == if x == a then v else Peek(mem, x)
  {
    if x == a {
      assert a in Poked(mem, a, v);
    }
  }

  lemma PokedAll(mem: Memory, a: nat, v: byte)
    ensures forall x: nat :: Peek(Poked(mem, a, v), x) == if x == a then v else Peek(mem, x)
  {
    hide Peek, Poked;
    forall x: nat
      ensures Peek(Poked(mem, a, v), x) == if x == a then v else Peek(mem, x)
    {
      PokedAt(mem, a, v, x);
    }
  }

  /** Every live payload is as before. */
  ghost predicate Undisturbed(live: set<Block>, mem: Memory, mem': Memory)
  {
    forall b :: b in live ==> Kept(b, mem, mem')
  }

  lemma EraseKeeps(bs: seq<Block>, i: nat, mem: Memory, a: nat)
    requires Sound(bs) && i < |bs| && bs[i].free && bs[i].addr <= a && a + 40 <= End(bs[i])
    ensures Undisturbed(Live(bs), mem, Erase(mem, a))
  {
    forall b | b in Live(bs)
      ensures Kept(b, mem, Erase(mem, a))
    {
      assert bs[i] in bs;
      LiveApart(bs, b, bs[i]);
    }
  }

  lemma FreshKeeps(bs: seq<Block>, mem: Memory, a: nat)
    requires Sound(bs) && End(bs[|bs| - 1]) <= a
    ensures Undisturbed(Live(bs), mem, Erase(mem, a))
  {
    forall b | b in Live(bs)
      ensures Kept(b, mem, Erase(mem, a))
    {
      var i :| 0 <= i < |bs| && bs[i] == b;
      assert i < |bs| - 1 ==> End(bs[i]) <= bs[|bs| - 1].addr;
    }
  }

  // ---- First fit ---------------------------------------------------------------------------

  predicate Fits(b: Block, n: nat)
  {
    b.free && b.size >= n
  }

  /** `i` is the first block that fits, or the length when none does. */
  ghost predicate FirstFit(bs: seq<Block>, n: nat, i: nat)
  {
    && i <= |bs| && (i < |bs| ==> Fits(bs[i], n))
    && forall j :: 0 <= j < i ==> !Fits(bs[j], n)
  }

  /** The addresses `vmm_alloc` will give, in turn: NULL, or whole pages above the heap. */
  predicate GrantsOk(end: nat, pages: nat, grants: seq<nat>)
    decreases |grants|
  {
    grants != [] && grants[0] != 0 ==>
      && pages > 0 && end <= grants[0] && grants[0] % 4096 == 0
      && grants[0] + pages * 4096 <= 0x1_0000_0000_0000_0000
      && GrantsOk(grants[0] + pages * 4096, pages, grants[1..])
  }

  function Arena(g: nat, pages: nat): Block
  {
    Block(g, if pages > 0 then pages * 4096 - 40 else 0, true)
  }

  class Heap {
    var headers: Headers
    var start: nat
    var total: nat
    var used: nat
    var mem: Memory
    ghost var blocks: seq<Block>
    ghost var regions: seq<Region>

    /** The list is well linked and the counters are exact. */
    ghost predicate Valid()
      reads this
    {
      && Sound(blocks) && Linked(headers, blocks) && start == blocks[0].addr > 40
      && total == Total(blocks) && used == 40 + Taken(blocks)
      && Separate(regions) && End(blocks[|blocks| - 1]) <= Top(regions)
    }

    /** `heap_init`: one free block in the initial array. */
    constructor (base: nat)
      requires base % 16 == 0 && 40 < base && base + 262144 <= 0x1_0000_0000_0000_0000
      ensures Valid() && Tiled(blocks) && Packed(blocks) && blocks == [Block(base, 262144 - 40, true)]
      ensures regions == [Region(base, base + 262144)] && Fitted(blocks, regions)
    {
      hide Sound, Linked, Total, Taken, Separate, Fitted, Tiled, Packed;
      start := base;
      headers := map[base := Header(MAGIC, 262144 - 40, 1, 0, 0)];
      total, used := 262144, 40;
      mem := map[];
      blocks := [Block(base, 262144 - 40, true)];
      regions := [Region(base, base + 262144)];
      OneBlock(Block(base, 262144 - 40, true));
    }

    /** The split in `malloc`: what is left over becomes a free block behind. */
    method SplitBlock(a: nat, n: nat, ghost i: nat)
      requires Valid() && i < |blocks| && blocks[i].addr == a && blocks[i].free
      requires n + 40 <= blocks[i].size && n % 8 == 0
      modifies `headers, `mem, `blocks
      ensures Valid() && blocks == Split(old(blocks), i, n)
      ensures Undisturbed(Live(old(blocks)), old(mem), mem)
    {
      hide Sound, Linked, Total, Taken, Split, Live, Undisturbed, Separate;
      NextKnown(headers, blocks, i);
      SplitSeq(blocks, i, n);
      SplitSound(blocks, i, n);
      SplitLinked(headers, blocks, i, n);
      SplitSums(blocks, i, n);
      SplitEnd(blocks, i, n);
      EraseKeeps(blocks, i, mem, a + 40 + n);
      var b := a + 40 + n;
      mem := Erase(mem, b);
      headers := headers[b := Header(MAGIC, headers[a].size - n - 40, 1, headers[a].next, a)];
      if headers[a].next != 0 {
        headers := headers[headers[a].next := headers[headers[a].next].(prev := b)];
      }
      headers := headers[a := headers[a].(next := b, size := n)];
      assert headers == SplitHeaders(old(headers), a, n);
      blocks := Split(blocks, i, n);
    }

    /** The taking half of `malloc`, on the block it found. */
    method Take(a: nat, n: nat, ghost i: nat) returns (ptr: nat)
      requires Valid() && i < |blocks| && blocks[i].addr == a && Fits(blocks[i], n) && n % 8 == 0
      modifies `headers, `mem, `blocks, `used
      ensures Valid() && blocks == Allocated(old(blocks), i, n) && ptr == a + 40
      ensures Undisturbed(Live(old(blocks)), old(mem), mem)
    {
      hide Sound, Linked, Total, Taken, Split, SetFree, Live, Undisturbed, Separate, Allocated;
      TakeFacts(blocks, i, n);
      LinkIs(headers, blocks, i);
      KeptSame(Live(blocks), mem);
      if headers[a].size >= n + 40 + 64 {
        SplitBlock(a, n, i);
      }
      SetLinked(headers, blocks, i, false);
      LinkIs(headers, blocks, i);
      headers := headers[a := headers[a].(free := 0)];
      used := used + headers[a].size + 40;
      blocks := SetFree(blocks, i, false);
      ptr := a + 40;
    }

    /** `coalesce`: merge with the next block, then with the previous one, where these are free. */
    method Coalesce(a: nat, ghost i: nat)
      requires Valid() && i < |blocks| && blocks[i].addr == a && blocks[i].free
      modifies `headers, `blocks
      ensures Valid() && blocks == Coalesced(old(blocks), i)
    {
      hide Sound, Linked, Total, Taken, Absorb, Separate;
      NextKnown(headers, blocks, i);
      if headers[a].next != 0 && headers[headers[a].next].free != 0 {
        MergeNext(a, i);
      }
      NextKnown(headers, blocks, i);
      if headers[a].prev != 0 && headers[headers[a].prev].free != 0 {
        MergePrev(a, i);
      }
    }

    method MergeNext(a: nat, ghost i: nat)
      requires Valid() && i + 1 < |blocks| && blocks[i].addr == a && blocks[i].free && blocks[i + 1].free
      modifies `headers, `blocks
      ensures Valid() && blocks == Absorb(old(blocks), i) && i < |blocks| && blocks[i].addr == a && blocks[i].free
    {
      hide Sound, Linked, Total, Taken, Absorb, Separate;
      Absorption(headers, blocks, i);
      var next := headers[a].next;
      headers := headers[a := headers[a].(size := headers[a].size + 40 + headers[next].size)];
      headers := headers[a := headers[a].(next := headers[next].next)];
      if headers[a].next != 0 {
        headers := headers[headers[a].next := headers[headers[a].next].(prev := a)];
      }
      assert headers == AbsorbHeaders(old(headers), a);
      blocks := Absorb(blocks, i);
    }

    method MergePrev(a: nat, ghost i: nat)
      requires Valid() && 0 < i < |blocks| && blocks[i].addr == a && blocks[i].free && blocks[i - 1].free
      modifies `headers, `blocks
      ensures Valid() && blocks == Absorb(old(blocks), i - 1)
    {
      hide Sound, Linked, Total, Taken, Absorb, Separate;
      Absorption(headers, blocks, i - 1);
      var prev := headers[a].prev;
      headers := headers[prev := headers[prev].(size := headers[prev].size + 40 + headers[a].size)];
      headers := headers[prev := headers[prev].(next := headers[a].next)];
      if headers[a].next != 0 {
        headers := headers[headers[a].next := headers[headers[a].next].(prev := prev)];
      }
      assert headers == AbsorbHeaders(old(headers), prev);
      blocks := Absorb(blocks, i - 1);
    }

    /** The walk to the end of the list. */
    method Last() returns (current: nat)
      requires Valid()
      ensures blocks != [] && current == blocks[|blocks| - 1].addr && current in headers
    {
      hide Sound, Linked, Total, Taken;
      current := start;
      ghost var k := 0;
      SoundStart(blocks);
      NextKnown(headers, blocks, k);
      while headers[current].next != 0
        invariant k < |blocks| && current == blocks[k].addr && LinkAt(headers, blocks, k)
        decreases |blocks| - k
      {
        NextKnown(headers, blocks, k);
        current, k := headers[current].next, k + 1;
      }
      NextKnown(headers, blocks, k);
    }

    /** `expand_heap`: whole pages become a new last block, or nothing changes. */
    method Expand(needed: nat, grant: nat) returns (ok: bool)
      requires Valid() && needed < 0x1_0000_0000_0000_0000
      requires GrantsOk(Top(regions), Pages(needed), [grant])
      modifies this
      ensures Valid() && (ok <==> grant != 0)
      ensures blocks == if ok then old(blocks) + [Arena(grant, Pages(needed))] else old(blocks)
      ensures regions == if ok then Given(old(regions), grant, Pages(needed) * 4096) else old(regions)
      ensures Undisturbed(Live(old(blocks)), old(mem), mem)
    {
      hide Sound, Linked, Total, Taken, Live, Undisturbed, Separate, Given;
      KeptSame(Live(blocks), mem);
      var pages := (needed + 40 + 4095) % 0x1_0000_0000_0000_0000 / 4096;
      if grant == 0 {
        return false;
      }
      FreshKeeps(blocks, mem, grant);
      mem := Erase(mem, grant);
      var current := Last();
      PageEights(grant, pages);
      GivenSeparate(regions, grant, pages * 4096);
      Appending(headers, blocks, Arena(grant, pages));
      AppendWrites(headers, grant, pages * 4096 - 40, current);
      headers := headers[grant := Header(MAGIC, pages * 4096 - 40, 1, 0, 0)];
      headers := headers[current := headers[current].(next := grant)];
      headers := headers[grant := headers[grant].(prev := current)];
      total := total + pages * 4096;
      blocks := blocks + [Arena(grant, pages)];
      regions := Given(regions, grant, pages * 4096);
      ok := true;
    }

    /** The search in `malloc`: the first free block that is large enough; corruption is never seen. */
    method FindFit(n: nat) returns (a: nat, corrupt: bool, ghost i: nat)
      requires Valid()
      ensures !corrupt && FirstFit(blocks, n, i) && a == if i < |blocks| then blocks[i].addr else 0
      ensures a == 0 <==> i == |blocks|
    {
      hide Sound, Linked, Total, Taken;
      var current := start;
      a, corrupt, i := 0, false, 0;
      SoundStart(blocks);
      NextKnown(headers, blocks, 0);
      while current != 0
        invariant i <= |blocks| && forall j :: 0 <= j < i ==> !Fits(blocks[j], n)
        invariant current == if i < |blocks| then blocks[i].addr else 0
        invariant current == 0 <==> i == |blocks|
        decreases |blocks| - i
      {
        NextKnown(headers, blocks, i);
        if headers[current].magic != MAGIC {
          corrupt := true;
          return;
        }
        if headers[current].free != 0 && headers[current].size >= n {
          return current, false, i;
        }
        current, i := headers[current].next, i + 1;
      }
    }

    /**
     * `malloc`: the first block that fits; new pages only when none does, and then from these pages
     * without asking again.  Only when the page count wraps to one, it asks for page after page until
     * it is refused, and fails.  `got` is the block handed out.
     */
    method Malloc(size: nat, grants: seq<nat>) returns (ptr: nat, rest: seq<nat>, ghost i: nat, ghost got: Block)
      requires Valid() && size < 0x1_0000_0000_0000_0000
      requires GrantsOk(Top(regions), Pages(Align(size)), grants)
      modifies this
      ensures Fitted(old(blocks), old(regions)) ==> Fitted(blocks, regions)
      ensures |rest| <= |grants| && (rest == grants ==> regions == old(regions))
      ensures Valid() && Undisturbed(Live(old(blocks)), old(mem), mem)
      ensures ptr == 0 ==> Live(blocks) == Live(old(blocks))
      ensures ptr != 0 ==> Granted(Live(old(blocks)), Live(blocks), got, ptr) && Align(size) <= got.size
      ensures size == 0 ==> ptr == 0 && blocks == old(blocks) && rest == grants
      ensures size > 0 ==> FirstFit(old(blocks), Align(size), i)
      ensures size > 0 && i < |old(blocks)| ==>
                ptr == old(blocks)[i].addr + 40 && blocks == Allocated(old(blocks), i, Align(size)) && rest == grants
      ensures size > 0 && i == |old(blocks)| && NoGrant(grants) ==> ptr == 0 && blocks == old(blocks) && rest == grants
      ensures size > 0 && i == |old(blocks)| && !NoGrant(grants) && 0 < Align(size) <= 0x1_0000_0000_0000_0000 - 48 ==>
                && ptr == grants[0] + 40 && rest == grants[1..]
                && blocks == Allocated(Expanded(old(blocks), grants[0], Align(size)), i, Align(size))
                && regions == Given(old(regions), grants[0], Pages(Align(size)) * 4096)
      ensures size > 0 && i == |old(blocks)| && !NoGrant(grants) && Align(size) == 0 ==>
                ptr == 0 && rest == grants[1..] && blocks == Expanded(old(blocks), grants[0], 0)
      ensures size > 0 && Align(size) > 0x1_0000_0000_0000_0000 - 48 ==>
                && ptr == 0 && NoGrant(rest) && rest == Refused(grants)
                && blocks == Paged(old(blocks), grants) && regions == PagedRegions(old(regions), grants)
      decreases |grants|
    {
      hide Sound, Linked, Total, Taken, Allocated, Live, Kept, Undisturbed, FirstFit, Align, Pages, Granted, Expanded, GrantsOk, Fitted, Given, Fits, Paged, PagedRegions, Refused;
      rest, i, got := grants, 0, Block(0, 0, false);
      KeptSame(Live(blocks), mem);
      if size == 0 {
        return 0, rest, i, got;
      }
      var n := (size + 15) % 0x1_0000_0000_0000_0000 / 16 * 16;
      AlignIs(size, n);
      var a, corrupt;
      a, corrupt, i := FindFit(n);
      ptr := 0;
      if corrupt {
        return;
      }
      FirstFitFacts(blocks, n, i);
      NoneSoLarge(blocks, n, i);
      PagesNone(n);
      PagedStep(blocks, regions, grants);
      if a != 0 {
        got := GotBlock(blocks, i, n);
        GotFresh(blocks, i, n);
        if Fitted(blocks, regions) {
          AllocatedFitted(blocks, regions, i, n);
        }
        ptr := Take(a, n, i);
        return ptr, rest, i, got;
      }
      var grant := if grants == [] then 0 else grants[0];
      SoundStart(blocks);
      GrantNow(Top(regions), Pages(n), grants, grant);
      ghost var bs, rs, live, mem0 := blocks, regions, Live(blocks), mem;
      var ok := Expand(n, grant);
      if !ok {
        return 0, grants, i, got;
      }
      rest := grants[1..];
      ExpandedLive(bs, grant, n);
      GrantNext(rs, Pages(n), grants);
      ExpandFitted(bs, rs, grant, n);
      ghost var k;
      ghost var mem1 := mem;
      ptr, rest, k, got := Malloc(n, rest);
      ExpandedFit(bs, grant, n, k);
      KeptTwice(live, mem0, mem1, mem);
    }

    /** `free`: nothing for NULL or a free block; else that block alone stops being live. */
    method Free(ptr: nat, ghost i: nat)
      requires Valid() && (ptr == 0 || (i < |blocks| && blocks[i].addr + 40 == ptr))
      modifies `headers, `blocks, `used
      ensures Valid()
      ensures ptr == 0 || old(blocks)[i].free ==> blocks == old(blocks) && headers == old(headers)
      ensures ptr != 0 && !old(blocks)[i].free ==>
                blocks == Freed(old(blocks), i) && Live(blocks) == Live(old(blocks)) - {old(blocks)[i]}
      ensures ptr != 0 && !old(blocks)[i].free && Fitted(old(blocks), regions) ==>
                && (Housed(blocks, regions) <==> NeighboursTouch(old(blocks), i))
                && (Housed(blocks, regions) ==> Fitted(blocks, regions))
    {
      hide Sound, Linked, Total, Taken, SetFree, Live, Freed, Coalesced, Fitted, Housed, NeighboursTouch, Separate;
      if ptr == 0 {
        return;
      }
      var a: nat := ptr - 40;
      LinkIs(headers, blocks, i);
      if headers[a].magic != MAGIC {
        return;
      }
      if headers[a].free != 0 {
        return;
      }
      FreeFacts(blocks, i);
      SetLinked(headers, blocks, i, true);
      if Fitted(blocks, regions) {
        FreedFitted(blocks, regions, i);
      }
      headers := headers[a := headers[a].(free := 1)];
      used := used - (headers[a].size + 40);
      blocks := SetFree(blocks, i, true);
      Coalesce(a, i);
    }

    /** `memcpy` between ranges that do not overlap. */
    method Memcpy(dst: nat, src: nat, n: nat)
      requires dst + n <= src || src + n <= dst
      modifies `mem
      ensures Moved(old(mem), mem, src, dst, n) && KeptOutside(old(mem), mem, dst, n)
    {
      hide Peek, Poked;
      var k := 0;
      while k < n
        invariant k <= n
        invariant Moved(old(mem), mem, src, dst, k) && KeptOutside(old(mem), mem, dst, k)
      {
        assert Peek(mem, src + k) == Peek(old(mem), src + k);
        PokedAll(mem, dst + k, Peek(mem, src + k));
        mem := Poked(mem, dst + k, Peek(mem, src + k));
        k := k + 1;
      }
    }

    /** The header of a live block. */
    method SizeAt(a: nat, ghost i: nat) returns (magic: nat, size: nat)
      requires Valid() && i < |blocks| && blocks[i].addr == a
      ensures magic == MAGIC && size == blocks[i].size
    {
      hide Sound, Linked, Total, Taken, Separate;
      LinkIs(headers, blocks, i);
      magic, size := headers[a].magic, headers[a].size;
    }

    /** What a call to `realloc` did to the memory of the heap. */
    twostate predicate RegionsKept(size: nat, grants: seq<nat>, rest: seq<nat>)
      reads this
    {
      && (Fitted(old(blocks), old(regions)) && Housed(blocks, regions) ==> Fitted(blocks, regions))
      && (rest == grants ==> regions == old(regions))
      && (rest != grants && size <= 0x1_0000_0000_0000_0000 - 48 ==>
            !NoGrant(grants) && regions == Given(old(regions), grants[0], Pages(Align(size)) * 4096))
      && (size <= 0x1_0000_0000_0000_0000 - 48 ==> FormKept(old(blocks), blocks, Contiguous(old(blocks), grants)))
    }

    /** The moving half of `realloc`: a larger block, the old bytes in it, the old block freed. */
    method Relocate(ptr: nat, size: nat, grants: seq<nat>, ghost i: nat)
      returns (newPtr: nat, rest: seq<nat>, ghost got: Block)
      requires Valid() && 0 < size <= 0x1_0000_0000_0000_0000 - 16
      requires GrantsOk(Top(regions), Pages(Align(size)), grants)
      requires i < |blocks| && blocks[i].addr + 40 == ptr && !blocks[i].free && blocks[i].size < size
      modifies this
      ensures Valid() && RegionsKept(size, grants, rest)
      ensures size <= 0x1_0000_0000_0000_0000 - 48 && Fitted(old(blocks), old(regions)) ==>
                (Housed(blocks, regions) <==> ReallocTouch(old(blocks), i, size, grants))
      ensures newPtr != 0 ==> Replaced(old(blocks)[i], old(blocks), old(mem), blocks, mem, ptr, newPtr, size, got)
      ensures newPtr == 0 ==> Live(blocks) == Live(old(blocks)) && Undisturbed(Live(old(blocks)), old(mem), mem)
      ensures size <= 0x1_0000_0000_0000_0000 - 48 ==>
                && newPtr == ReallocPtr(old(blocks), i, size, grants) && blocks == ReallocBlocks(old(blocks), i, size, grants)
                && regions == ReallocRegions(old(blocks), old(regions), i, size, grants)
    {
      hide MallocPtr, MallocBlocks, MallocRegions, FitAt, Shifted;
      hide Sound, Linked, Total, Taken, Separate, Live, Kept, Undisturbed, FirstFit, Align, Pages, Expanded, GrantsOk, Freed, Allocated, FormKept, Contiguous, Fitted, Housed, Given, NeighboursTouch, ReallocTouch;
      ghost var contiguous := Contiguous(blocks, grants);
      ghost var b, live, mem0 := blocks[i], Live(blocks), mem;
      AlignFits(size);
      SmallAlign(size);
      LiveBlock(blocks, i);
      ghost var at;
      newPtr, rest, at, got := Malloc(size, grants);
      FirstFitFacts(old(blocks), Align(size), at);
      MallocShape(old(blocks), blocks, size, at, grants, Top(old(regions)));
      if size <= 0x1_0000_0000_0000_0000 - 48 {
        MallocIs(old(blocks), old(regions), size, grants, at, newPtr, blocks, regions);
        OneFirstFit(old(blocks), Align(size), at, FitAt(old(blocks), Align(size)));
      }
      ghost var bs := blocks;
      if newPtr == 0 {
        FittedHoused(blocks, regions);
        if size <= 0x1_0000_0000_0000_0000 - 48 {
          NothingMoves(old(blocks), size, grants, i);
        }
        return;
      }
      ghost var i' := Find(blocks, b);
      ghost var mem1 := mem;
      SoundApartLive(blocks, b, got);
      var _, old' := SizeAt(ptr - 40, i');
      Memcpy(newPtr, ptr, old');
      CopyKeeps(blocks, live, b, got, mem0, mem1, mem);
      FreeForm(blocks, i', contiguous);
      if size <= 0x1_0000_0000_0000_0000 - 48 {
        MallocTouches(old(blocks), blocks, size, at, grants, i, i');
      }
      Free(ptr, i');
      if size <= 0x1_0000_0000_0000_0000 - 48 {
        FormTwice(old(blocks), bs, blocks, contiguous);
      }
      assert Live(blocks) == live - {b} + {got};
    }

    /**
     * `realloc` of NULL or a live block: on success the old bytes are at the new place, which is
     * large enough, and no other live block is disturbed; on failure nothing live changes.
     */
    method Realloc(ptr: nat, size: nat, grants: seq<nat>, ghost i: nat)
      returns (newPtr: nat, rest: seq<nat>, ghost got: Block)
      requires Valid() && size <= 0x1_0000_0000_0000_0000 - 16
      requires GrantsOk(Top(regions), Pages(Align(size)), grants)
      requires ptr == 0 || (i < |blocks| && blocks[i].addr + 40 == ptr && !blocks[i].free)
      modifies this
      ensures Valid() && RegionsKept(size, grants, rest)
      ensures ptr == 0 && newPtr != 0 ==> Granted(Live(old(blocks)), Live(blocks), got, newPtr) && size <= got.size
      ensures ptr == 0 ==> Undisturbed(Live(old(blocks)), old(mem), mem)
      ensures ptr != 0 && 0 < size <= 0x1_0000_0000_0000_0000 - 48 ==>
                && newPtr == ReallocPtr(old(blocks), i, size, grants) && blocks == ReallocBlocks(old(blocks), i, size, grants)
                && regions == ReallocRegions(old(blocks), old(regions), i, size, grants)
      ensures ptr != 0 && newPtr != 0 ==>
                Replaced(old(blocks)[i], old(blocks), old(mem), blocks, mem, ptr, newPtr, size, got)
      ensures ptr != 0 && newPtr == 0 && size > 0 ==>
                Live(blocks) == Live(old(blocks)) && Undisturbed(Live(old(blocks)), old(mem), mem)
      ensures ptr != 0 && size == 0 ==> newPtr == 0 && blocks == Freed(old(blocks), i) && mem == old(mem)
      ensures size <= 0x1_0000_0000_0000_0000 - 48 && Fitted(old(blocks), old(regions)) ==>
                (Housed(blocks, regions) <==> ptr == 0 || ReallocTouch(old(blocks), i, size, grants))
    {
      hide Sound, Linked, Total, Taken, Separate, Live, Kept, Undisturbed, FirstFit, Align, Pages, Expanded, GrantsOk, Freed, Allocated, FormKept, Contiguous, Fitted, Housed, Given, NeighboursTouch, Moved, StillTouch, MallocPtr, MallocBlocks, MallocRegions, FitAt, Shifted;
      rest, got := grants, Block(0, 0, false);
      SoundStart(blocks);
      FormSame(blocks, Contiguous(blocks, grants));
      AlignFits(size);
      SmallAlign(size);
      if ptr == 0 {
        ghost var at;
        newPtr, rest, at, got := Malloc(size, grants);
        if size > 0 {
          FirstFitFacts(old(blocks), Align(size), at);
        }
        MallocShape(old(blocks), blocks, size, at, grants, Top(old(regions)));
        FittedHoused(blocks, regions);
        return;
      }
      if size == 0 {
        FreeForm(blocks, i, Contiguous(blocks, grants));
        Free(ptr, i);
        return 0, rest, got;
      }
      newPtr := 0;
      var magic, held := SizeAt(ptr - 40, i);
      if magic != MAGIC {
        return;
      }
      if held >= size {
        FittedHoused(blocks, regions);
        LiveBlock(blocks, i);
        KeptSame(Live(blocks) - {blocks[i]}, mem);
        Unmoved(mem, ptr, blocks[i].size);
        return ptr, rest, blocks[i];
      }
      newPtr, rest, got := Relocate(ptr, size, grants, i);
    }

    /** `heap_get_free`: the free bytes less one header, wrapping exactly when no block is free. */
    method GetFree() returns (r: nat)
      requires Valid()
      ensures total <= 0x1_0000_0000_0000_0000 && used < 0x1_0000_0000_0000_0000
      ensures (exists i :: 0 <= i < |blocks| && blocks[i].free) ==> r == Total(blocks) - Taken(blocks) - 40
      ensures (forall i :: 0 <= i < |blocks| ==> !blocks[i].free) ==> r == 0x1_0000_0000_0000_0000 - 40
    {
      TotalFits(blocks);
      TakenAtMost(blocks);
      assert End(blocks[|blocks| - 1]) <= 0x1_0000_0000_0000_0000;
      r := (total - used) % 0x1_0000_0000_0000_0000;
    }
  }

  // ---- The shape of the list ---------------------------------------------------------------

  /** No two neighbours become free, and a list without gaps stays without gaps. */
  ghost predicate FormKept(bs: seq<Block>, bs': seq<Block>, contiguous: bool)
  {
    (Packed(bs) ==> Packed(bs')) && (Tiled(bs) && contiguous ==> Tiled(bs'))
  }

  /** New pages, if any, start where the heap ends. */
  ghost predicate Contiguous(bs: seq<Block>, grants: seq<nat>)
  {
    NoGrant(grants) || (bs != [] && grants[0] == End(bs[|bs| - 1]))
  }

  lemma FormSame(bs: seq<Block>, contiguous: bool)
    ensures FormKept(bs, bs, contiguous)
  {
  }

  lemma FormTwice(bs0: seq<Block>, bs1: seq<Block>, bs2: seq<Block>, contiguous: bool)
    requires FormKept(bs0, bs1, contiguous) && FormKept(bs1, bs2, contiguous)
    ensures FormKept(bs0, bs2, contiguous)
  {
  }

  lemma FreeForm(bs: seq<Block>, i: nat, contiguous: bool)
    requires Sound(bs) && i < |bs|
    ensures FormKept(bs, Freed(bs, i), contiguous)
  {
    hide Packed, Tiled, Freed;
    FreedSound(bs, i);
    if Packed(bs) {
      FreedPacked(bs, i);
    }
  }

  lemma TakeForm(bs: seq<Block>, i: nat, n: nat, contiguous: bool)
    requires Sound(bs) && i < |bs| && Fits(bs[i], n) && n % 8 == 0
    ensures FormKept(bs, Allocated(bs, i, n), contiguous)
  {
    hide Packed, Tiled, Allocated;
    AllocatedSound(bs, i, n);
    if Packed(bs) {
      AllocatedPacked(bs, i, n);
    }
  }

  lemma ArenaFits(end: nat, g: nat, n: nat)
    requires 0 < n <= 0x1_0000_0000_0000_0000 - 4136 && 40 <= end <= g
    requires g % 4096 == 0 && g + Pages(n) * 4096 <= 0x1_0000_0000_0000_0000
    ensures var b := Arena(g, Pages(n)); b.addr == g && b.free && n <= b.size && Aligned([b])
  {
    hide Pages;
    PagesFit(n);
    ArenaAligned(g, Pages(n));
  }

  lemma ArenaAligned(g: nat, pages: nat)
    requires 0 < g && g % 4096 == 0 && 0 < pages && g + pages * 4096 <= 0x1_0000_0000_0000_0000
    ensures Aligned([Arena(g, pages)])
  {
    var b := Arena(g, pages);
    PageEights(g, pages);
    assert [b][0] == b;
  }

  lemma PageEights(g: nat, pages: nat)
    requires g % 4096 == 0 && 0 < pages
    ensures g % 8 == 0 && (pages * 4096 - 40) % 8 == 0
  {
    Eights(g / 4096 * 512);
    Eights(pages * 512 - 5);
  }

  lemma Eights(x: nat)
    ensures 8 * x % 8 == 0
  {
  }

  lemma ExpandForm(bs: seq<Block>, g: nat, n: nat, contiguous: bool)
    requires Sound(bs) && n % 8 == 0 && 0 < n <= 0x1_0000_0000_0000_0000 - 4136
    requires End(bs[|bs| - 1]) <= g && g % 4096 == 0 && g + Pages(n) * 4096 <= 0x1_0000_0000_0000_0000
    requires contiguous ==> g == End(bs[|bs| - 1])
    ensures var more := Expanded(bs, g, n);
            |more| == |bs| + 1 && Fits(more[|bs|], n) && FormKept(bs, Allocated(more, |bs|, n), contiguous)
  {
    hide Sound, Packed, Tiled, Allocated, Pages, Aligned, Arena;
    var b := Arena(g, Pages(n));
    var more := Expanded(bs, g, n);
    SoundStart(bs);
    ArenaFits(End(bs[|bs| - 1]), g, n);
    assert more[|bs|] == b;
    AppendSound(bs, b);
    AllocatedSound(more, |bs|, n);
    if Packed(bs) {
      GrownPacked(bs, b, n);
    }
  }

  /** The outcome of `malloc`, as its contract states it, keeps the shape. */
  lemma MallocForm(bs: seq<Block>, bs': seq<Block>, size: nat, i: nat, grants: seq<nat>, top: nat)
    requires Sound(bs) && 0 < size <= 0x1_0000_0000_0000_0000 - 48
    requires bs != [] && End(bs[|bs| - 1]) <= top && GrantsOk(top, Pages(Align(size)), grants) && FirstFit(bs, Align(size), i)
    requires i < |bs| ==> bs' == Allocated(bs, i, Align(size))
    requires i == |bs| && NoGrant(grants) ==> bs' == bs
    requires i == |bs| && !NoGrant(grants) ==>
               bs' == Allocated(Expanded(bs, grants[0], Align(size)), i, Align(size))
    ensures FormKept(bs, bs', Contiguous(bs, grants))
  {
    hide Packed, Tiled, Allocated, Pages, Sound, FormKept;
    var n := Align(size);
    AlignSmall(size);
    AlignSixteen(size);
    PagesNone(n);
    if i < |bs| {
      TakeForm(bs, i, n, Contiguous(bs, grants));
    } else if NoGrant(grants) {
      FormSame(bs, Contiguous(bs, grants));
    } else {
      ExpandForm(bs, grants[0], n, Contiguous(bs, grants));
    }
  }

  lemma MallocShape(bs: seq<Block>, bs': seq<Block>, size: nat, i: nat, grants: seq<nat>, top: nat)
    requires Sound(bs) && bs != [] && End(bs[|bs| - 1]) <= top && GrantsOk(top, Pages(Align(size)), grants)
    requires size == 0 ==> bs' == bs
    requires size > 0 ==> FirstFit(bs, Align(size), i)
    requires size > 0 && i < |bs| ==> bs' == Allocated(bs, i, Align(size))
    requires size > 0 && i == |bs| && NoGrant(grants) ==> bs' == bs
    requires size > 0 && i == |bs| && !NoGrant(grants) && 0 < Align(size) <= 0x1_0000_0000_0000_0000 - 48 ==>
               bs' == Allocated(Expanded(bs, grants[0], Align(size)), i, Align(size))
    ensures size <= 0x1_0000_0000_0000_0000 - 48 ==> FormKept(bs, bs', Contiguous(bs, grants))
  {
    hide Sound, Packed, Tiled, Allocated, Pages, Align, Expanded, FormKept, Contiguous, FirstFit, GrantsOk;
    if size == 0 {
      FormSame(bs, Contiguous(bs, grants));
    } else if size <= 0x1_0000_0000_0000_0000 - 48 {
      AlignSmall(size);
      MallocForm(bs, bs', size, i, grants, top);
    }
  }

  lemma AlignSmall(size: nat)
    requires 0 < size <= 0x1_0000_0000_0000_0000 - 48
    ensures 0 < Align(size) <= 0x1_0000_0000_0000_0000 - 48 && Align(size) % 8 == 0 && size <= Align(size)
  {
    hide Align;
    AlignFits(size);
    Sixteens(Align(size));
  }

  lemma AlignSixteen(size: nat)
    ensures Align(size) % 16 == 0 && Align(size) < 0x1_0000_0000_0000_0000
  {
  }

  /** The live block `b` gave way to `got`, which is large enough and holds its bytes; the others stayed. */
  ghost predicate Replaced(b: Block, bs: seq<Block>, mem: Memory, bs': seq<Block>, mem': Memory,
                           ptr: nat, ptr': nat, size: nat, got: Block)
  {
    && got in Live(bs') && got.addr + 40 == ptr' && size <= got.size && b.size <= got.size
    && Live(bs') == Live(bs) - {b} + {got} && (got == b || got !in Live(bs))
    && Undisturbed(Live(bs) - {b}, mem, mem') && Moved(mem, mem', ptr, ptr', b.size)
  }

  lemma Unmoved(mem: Memory, a: nat, n: nat)
    ensures Moved(mem, mem, a, a, n)
  {
  }

  lemma SmallAlign(size: nat)
    ensures 0 < size <= 0x1_0000_0000_0000_0000 - 48 ==> 0 < Align(size) <= 0x1_0000_0000_0000_0000 - 48
  {
    if 0 < size <= 0x1_0000_0000_0000_0000 - 48 {
      AlignSmall(size);
    }
  }

  lemma FittedHoused(bs: seq<Block>, rs: seq<Region>)
    ensures Fitted(bs, rs) ==> Housed(bs, rs)
  {
  }

  // ---- A block about to be given back, while another is taken ------------------------------

  /** Where block `i` is after block `k` was taken. */
  ghost function Shifted(bs: seq<Block>, k: nat, n: nat, i: nat): nat
  {
    if k < i && k < |bs| && bs[k].size >= n + 104 then i + 1 else i
  }

  /** The list neighbours of block `i` that are still free once block `k` was taken touch it. */
  ghost predicate StillTouch(bs: seq<Block>, i: nat, k: nat, n: nat)
    requires i < |bs|
  {
    && (i + 1 < |bs| && bs[i + 1].free && k != i + 1 ==> End(bs[i]) == bs[i + 1].addr)
    && (0 < i && bs[i - 1].free && !(k == i - 1 && bs[i - 1].size < n + 104) ==> End(bs[i - 1]) == bs[i].addr)
  }

  /** `realloc` leaves block `i` where it is, or finds its remaining free neighbours touching. */
  ghost predicate ReallocTouch(bs: seq<Block>, i: nat, size: nat, grants: seq<nat>)
    requires i < |bs|
  {
    if size == 0 then NeighboursTouch(bs, i) else
      size <= bs[i].size
      || forall k: nat :: FirstFit(bs, Align(size), k) && (k < |bs| || !NoGrant(grants)) ==> StillTouch(bs, i, k, Align(size))
  }

  lemma OneFirstFit(bs: seq<Block>, n: nat, j: nat, k: nat)
    requires FirstFit(bs, n, j) && FirstFit(bs, n, k)
    ensures j == k
  {
  }

  /** What taking block `k` makes of the neighbours of the live block `i`. */
  lemma TakeTouches(bs: seq<Block>, k: nat, n: nat, i: nat)
    requires i < |bs| && k < |bs| && !bs[i].free && Fits(bs[k], n)
    ensures var r, j := Allocated(bs, k, n), Shifted(bs, k, n, i);
            j < |r| && r[j] == bs[i] && (NeighboursTouch(r, j) <==> StillTouch(bs, i, k, n))
  {
    hide Split, SetFree;
    if bs[k].size >= n + 104 {
      SplitSeq(bs, k, n);
      SetFreeSeq(Split(bs, k, n), k, false);
    } else {
      SetFreeSeq(bs, k, false);
    }
  }

  lemma ExpandTouches(bs: seq<Block>, b: Block, n: nat, i: nat)
    requires i < |bs| && !bs[i].free
    ensures var r := Allocated(bs + [b], |bs|, n);
            i < |r| && r[i] == bs[i] && (NeighboursTouch(r, i) <==> StillTouch(bs, i, |bs|, n))
  {
    hide Split, SetFree;
    var more := bs + [b];
    if b.size >= n + 104 {
      SplitSeq(more, |bs|, n);
      SetFreeSeq(Split(more, |bs|, n), |bs|, false);
    } else {
      SetFreeSeq(more, |bs|, false);
    }
  }

  /** What a `malloc` that succeeds makes of the neighbours of a live block. */
  lemma MallocTouches(bs: seq<Block>, bs': seq<Block>, size: nat, k: nat, grants: seq<nat>, i: nat, i': nat)
    requires Sound(bs') && 0 < size <= 0x1_0000_0000_0000_0000 - 48 && FirstFit(bs, Align(size), k)
    requires k < |bs| ==> bs' == Allocated(bs, k, Align(size))
    requires k == |bs| ==> !NoGrant(grants) && bs' == Allocated(Expanded(bs, grants[0], Align(size)), k, Align(size))
    requires i < |bs| && !bs[i].free && i' < |bs'| && bs'[i'] == bs[i] && bs[i].size < size
    ensures NeighboursTouch(bs', i') <==> ReallocTouch(bs, i, size, grants)
    ensures i' == Shifted(bs, k, Align(size), i)
  {
    hide NeighboursTouch, StillTouch, Allocated, Align, Pages, FirstFit;
    FirstFitFacts(bs, Align(size), k);
    if k < |bs| {
      TakeTouches(bs, k, Align(size), i);
      SoundApart(bs', i', Shifted(bs, k, Align(size), i));
    } else {
      ExpandTouches(bs, Arena(grants[0], Pages(Align(size))), Align(size), i);
      SoundApart(bs', i', i);
    }
    forall j: nat | FirstFit(bs, Align(size), j)
      ensures j == k
    {
      OneFirstFit(bs, Align(size), j, k);
    }
  }

  /** A `malloc` that fails moves nothing. */
  lemma NothingMoves(bs: seq<Block>, size: nat, grants: seq<nat>, i: nat)
    requires i < |bs| && size > 0 && FirstFit(bs, Align(size), |bs|) && NoGrant(grants)
    ensures ReallocTouch(bs, i, size, grants)
  {
    hide Align, FirstFit;
    forall j: nat | FirstFit(bs, Align(size), j)
      ensures j == |bs|
    {
      OneFirstFit(bs, Align(size), j, |bs|);
    }
  }

  lemma SoundOrdered(bs: seq<Block>)
    requires Sound(bs)
    ensures Ordered(bs)
  {
  }

  lemma LiveBlock(bs: seq<Block>, i: nat)
    requires i < |bs| && !bs[i].free
    ensures bs[i] in Live(bs)
  {
  }

  /** Where a live block is in the list. */
  lemma Find(bs: seq<Block>, b: Block) returns (i: nat)
    requires b in Live(bs)
    ensures i < |bs| && bs[i] == b && !b.free
  {
    i :| 0 <= i < |bs| && bs[i] == b;
  }

  lemma SoundApartLive(bs: seq<Block>, a: Block, b: Block)
    requires Sound(bs) && a in Live(bs) && b in Live(bs) && a != b
    ensures End(a) <= b.addr || End(b) <= a.addr
  {
    LiveApart(bs, a, b);
  }

  /** Copying into a fresh block disturbs no older one. */
  lemma CopyKeeps(bs: seq<Block>, live: set<Block>, b: Block, got: Block, mem0: Memory, mem1: Memory, mem2: Memory)
    requires Sound(bs) && Live(bs) == live + {got} && got !in live && b in live && b.size <= got.size
    requires Undisturbed(live, mem0, mem1)
    requires Moved(mem1, mem2, b.addr + 40, got.addr + 40, b.size) && KeptOutside(mem1, mem2, got.addr + 40, b.size)
    ensures Undisturbed(live - {b}, mem0, mem2)
    ensures Moved(mem0, mem2, b.addr + 40, got.addr + 40, b.size)
  {
    forall c | c in live - {b}
      ensures Kept(c, mem0, mem2)
    {
      LiveApart(bs, c, got);
      assert Kept(c, mem0, mem1);
    }
    assert Kept(b, mem0, mem1);
  }

  predicate NoGrant(grants: seq<nat>)
  {
    grants == [] || grants[0] == 0
  }

  // ---- What a call makes of the list -------------------------------------------------------

  /** Where the search stops. */
  ghost function FitAt(bs: seq<Block>, n: nat): (k: nat)
    ensures FirstFit(bs, n, k)
  {
    if bs == [] || Fits(bs[0], n) then 0 else 1 + FitAt(bs[1..], n)
  }

  /** What `malloc` returns: the first block that fits, or one in new pages, or NULL when there are none. */
  ghost function MallocPtr(bs: seq<Block>, size: nat, grants: seq<nat>): nat
  {
    if size == 0 then 0 else
      var k := FitAt(bs, Align(size));
      if k < |bs| then bs[k].addr + 40 else if NoGrant(grants) then 0 else grants[0] + 40
  }

  ghost function MallocBlocks(bs: seq<Block>, size: nat, grants: seq<nat>): seq<Block>
  {
    if size == 0 then bs else
      var n, k := Align(size), FitAt(bs, Align(size));
      if k < |bs| then Allocated(bs, k, n)
      else if NoGrant(grants) then bs else Allocated(Expanded(bs, grants[0], n), k, n)
  }

  ghost function MallocRegions(bs: seq<Block>, rs: seq<Region>, size: nat, grants: seq<nat>): seq<Region>
  {
    if size == 0 || FitAt(bs, Align(size)) < |bs| || NoGrant(grants) then rs
    else Given(rs, grants[0], Pages(Align(size)) * 4096)
  }

  /** What `realloc` returns for block `i`: the block itself when it is large enough. */
  ghost function ReallocPtr(bs: seq<Block>, i: nat, size: nat, grants: seq<nat>): nat
    requires i < |bs|
  {
    if size <= bs[i].size then bs[i].addr + 40 else MallocPtr(bs, size, grants)
  }

  /** The list after `realloc`: a block taken, and then block `i`, wherever it is by now, given back. */
  ghost function ReallocBlocks(bs: seq<Block>, i: nat, size: nat, grants: seq<nat>): seq<Block>
    requires i < |bs|
  {
    if size <= bs[i].size || MallocPtr(bs, size, grants) == 0 then bs
    else
      var mid, j := MallocBlocks(bs, size, grants), Shifted(bs, FitAt(bs, Align(size)), Align(size), i);
      if j < |mid| then Freed(mid, j) else mid
  }

  ghost function ReallocRegions(bs: seq<Block>, rs: seq<Region>, i: nat, size: nat, grants: seq<nat>): seq<Region>
    requires i < |bs|
  {
    if size <= bs[i].size then rs else MallocRegions(bs, rs, size, grants)
  }

  /** The outcome of `malloc`, as its contract states it, said at once. */
  lemma MallocIs(bs: seq<Block>, rs: seq<Region>, size: nat, grants: seq<nat>, i: nat,
                 ptr: nat, bs': seq<Block>, rs': seq<Region>)
    requires size == 0 ==> ptr == 0 && bs' == bs && rs' == rs
    requires size > 0 ==> FirstFit(bs, Align(size), i)
    requires size > 0 && i < |bs| ==> ptr == bs[i].addr + 40 && bs' == Allocated(bs, i, Align(size)) && rs' == rs
    requires size > 0 && i == |bs| && NoGrant(grants) ==> ptr == 0 && bs' == bs && rs' == rs
    requires size > 0 && i == |bs| && !NoGrant(grants) ==>
               && ptr == grants[0] + 40 && bs' == Allocated(Expanded(bs, grants[0], Align(size)), i, Align(size))
               && rs' == Given(rs, grants[0], Pages(Align(size)) * 4096)
    ensures ptr == MallocPtr(bs, size, grants) && bs' == MallocBlocks(bs, size, grants)
    ensures rs' == MallocRegions(bs, rs, size, grants)
  {
    hide Align, Allocated, Expanded, Given, Pages, FirstFit;
    if size > 0 {
      FirstFitFacts(bs, Align(size), i);
      OneFirstFit(bs, Align(size), i, FitAt(bs, Align(size)));
    }
  }

  // ---- Asking for page after page ----------------------------------------------------------

  /** The answers from the first NULL on. */
  function Refused(grants: seq<nat>): (r: seq<nat>)
    ensures NoGrant(r)
  {
    if NoGrant(grants) then grants else Refused(grants[1..])
  }

  /** One page after the other becomes a block. */
  function Paged(bs: seq<Block>, grants: seq<nat>): seq<Block>
    decreases |grants|
  {
    if NoGrant(grants) then bs else Paged(bs + [Arena(grants[0], 1)], grants[1..])
  }

  function PagedRegions(rs: seq<Region>, grants: seq<nat>): seq<Region>
    decreases |grants|
  {
    if NoGrant(grants) then rs else PagedRegions(Given(rs, grants[0], 4096), grants[1..])
  }

  lemma PagedStep(bs: seq<Block>, rs: seq<Region>, grants: seq<nat>)
    ensures NoGrant(grants) ==> Paged(bs, grants) == bs && PagedRegions(rs, grants) == rs && Refused(grants) == grants
    ensures !NoGrant(grants) ==>
              && Paged(bs, grants) == Paged(bs + [Arena(grants[0], 1)], grants[1..])
              && PagedRegions(rs, grants) == PagedRegions(Given(rs, grants[0], 4096), grants[1..])
              && Refused(grants) == Refused(grants[1..])
  {
  }

  lemma {:induction false} PagedStart(bs: seq<Block>, grants: seq<nat>)
    ensures bs <= Paged(bs, grants) && (NoGrant(grants) <==> |Paged(bs, grants)| == |bs|)
    decreases |grants|
  {
    if !NoGrant(grants) {
      PagedStart(bs + [Arena(grants[0], 1)], grants[1..]);
    }
  }

  /**
   * These blocks are not merged: no two free neighbours are left exactly when no page was given, or
   * one behind a block in use.
   */
  lemma PagedPacked(bs: seq<Block>, grants: seq<nat>)
    requires bs != []
    ensures Packed(Paged(bs, grants)) <==>
            Packed(bs) && (NoGrant(grants) || (NoGrant(grants[1..]) && !bs[|bs| - 1].free))
  {
    if !NoGrant(grants) {
      var more := bs + [Arena(grants[0], 1)];
      PackedMore(bs, Arena(grants[0], 1));
      PagedStart(more, grants[1..]);
      var all := Paged(bs, grants);
      if Packed(all) {
        assert forall j :: 0 <= j < |more| ==> all[j] == more[j];
        assert Packed(more);
      }
      if !NoGrant(grants[1..]) {
        var two := more + [Arena(grants[1..][0], 1)];
        PagedStart(two, grants[1..][1..]);
        assert all[|bs|] == two[|bs|] && all[|bs| + 1] == two[|bs| + 1];
      }
    }
  }

  lemma PackedMore(bs: seq<Block>, b: Block)
    requires bs != [] && b.free
    ensures Packed(bs + [b]) <==> Packed(bs) && !bs[|bs| - 1].free
  {
    var more := bs + [b];
    assert more[|bs| - 1] == bs[|bs| - 1] && more[|bs|] == b;
    if Packed(more) {
      forall i | 0 <= i < |bs| - 1
        ensures !(bs[i].free && bs[i + 1].free)
      {
        assert !(more[i].free && more[i + 1].free);
      }
    }
  }

  /** No block is as large as the sizes whose page count wraps to one. */
  lemma NoneSoLarge(bs: seq<Block>, n: nat, i: nat)
    requires Sound(bs) && i <= |bs| && (i < |bs| ==> Fits(bs[i], n))
    ensures n > 0x1_0000_0000_0000_0000 - 48 ==> i == |bs|
  {
  }

  ghost function Expanded(bs: seq<Block>, g: nat, n: nat): seq<Block>
  {
    bs + [Arena(g, Pages(n))]
  }

  /** One block more is live: it was not before, and it is the one at `ptr`. */
  ghost predicate Granted(live: set<Block>, live': set<Block>, got: Block, ptr: nat)
  {
    got !in live && !got.free && got.addr + 40 == ptr && live' == live + {got}
  }

  ghost function GotBlock(bs: seq<Block>, i: nat, n: nat): Block
    requires i < |bs|
  {
    Block(bs[i].addr, if bs[i].size >= n + 104 then n else bs[i].size, false)
  }

  lemma AlignIs(size: nat, n: nat)
    requires n == (size + 15) % 0x1_0000_0000_0000_0000 / 16 * 16 && size < 0x1_0000_0000_0000_0000
    ensures Align(size) == n == Align(n) && n < 0x1_0000_0000_0000_0000 && n % 8 == 0 && n % 16 == 0
  {
    assert Align(size) == n;
    hide Align;
    AlignFits(size);
    Sixteens(n);
  }

  lemma FirstFitFacts(bs: seq<Block>, n: nat, i: nat)
    requires FirstFit(bs, n, i)
    ensures i <= |bs| && (i < |bs| ==> Fits(bs[i], n))
  {
  }

  lemma GotFresh(bs: seq<Block>, i: nat, n: nat)
    requires Sound(bs) && i < |bs| && Fits(bs[i], n)
    ensures Granted(Live(bs), Live(Allocated(bs, i, n)), GotBlock(bs, i, n), bs[i].addr + 40) && GotBlock(bs, i, n).size >= n
  {
    AllocatedLive(bs, i, n);
    NotLiveAt(bs, i, GotBlock(bs, i, n));
  }

  lemma NotLiveAt(bs: seq<Block>, i: nat, b: Block)
    requires Ordered(bs) && i < |bs| && bs[i].free && b.addr == bs[i].addr
    ensures b !in Live(bs)
  {
    forall j | 0 <= j < |bs|
      ensures bs[j] != b || bs[j].free
    {
      Apart(bs, i, j);
    }
  }

  lemma GrantNow(end: nat, pages: nat, grants: seq<nat>, grant: nat)
    requires GrantsOk(end, pages, grants) && grant == if grants == [] then 0 else grants[0]
    ensures GrantsOk(end, pages, [grant])
  {
    assert [grant][1..] == [];
  }

  lemma GrantNext(rs: seq<Region>, pages: nat, grants: seq<nat>)
    requires GrantsOk(Top(rs), pages, grants) && !NoGrant(grants)
    ensures pages > 0 && Top(rs) <= grants[0] && GrantsOk(Top(Given(rs, grants[0], pages * 4096)), pages, grants[1..])
  {
  }

  lemma ExpandFitted(bs: seq<Block>, rs: seq<Region>, g: nat, n: nat)
    requires Sound(bs) && Pages(n) > 0 && Top(rs) <= g
    ensures Fitted(bs, rs) ==> Fitted(Expanded(bs, g, n), Given(rs, g, Pages(n) * 4096))
  {
    hide Pages, Fitted;
    if Fitted(bs, rs) {
      AppendFitted(bs, rs, Arena(g, Pages(n)));
    }
  }

  lemma ExpandedLive(bs: seq<Block>, g: nat, n: nat)
    ensures Live(Expanded(bs, g, n)) == Live(bs) && Expanded(bs, g, n) == bs + [Arena(g, Pages(n))]
  {
    LiveAdd(bs, [Arena(g, Pages(n))]);
    NoneLive([Arena(g, Pages(n))]);
  }

  /** After new pages are added, they are where the search stops. */
  lemma ExpandedFit(bs: seq<Block>, g: nat, n: nat, k: nat)
    requires FirstFit(bs, n, |bs|) && n < 0x1_0000_0000_0000_0000 && (n > 0 ==> FirstFit(Expanded(bs, g, n), n, k))
    requires n % 16 == 0 && Pages(n) > 0
    ensures 0 < n <= 0x1_0000_0000_0000_0000 - 48 ==> k == |bs| < |Expanded(bs, g, n)| && Expanded(bs, g, n)[k].addr == g
  {
    hide Pages;
    var more := Expanded(bs, g, n);
    assert |more| == |bs| + 1 && more[|bs|] == Arena(g, Pages(n));
    if 0 < n <= 0x1_0000_0000_0000_0000 - 48 {
      PagesNone(n);
      PagesFit(n);
      assert Fits(more[|bs|], n);
      assert forall j :: 0 <= j < |bs| ==> more[j] == bs[j];
    }
  }

  lemma KeptTwice(live: set<Block>, mem0: Memory, mem1: Memory, mem2: Memory)
    requires Undisturbed(live, mem0, mem1) && Undisturbed(live, mem1, mem2)
    ensures Undisturbed(live, mem0, mem2)
  {
    forall b | b in live
      ensures Kept(b, mem0, mem2)
    {
      assert Kept(b, mem0, mem1) && Kept(b, mem1, mem2);
    }
  }

  /** A heap of one free block. */
  lemma OneBlock(b: Block)
    requires b.addr % 8 == 0 && b.size % 8 == 0 && 0 < b.addr && b.free && End(b) <= 0x1_0000_0000_0000_0000
    ensures var bs, rs := [b], [Region(b.addr, End(b))];
            && Sound(bs) && Tiled(bs) && Packed(bs) && Separate(rs) && Fitted(bs, rs)
            && Linked(map[b.addr := Header(MAGIC, b.size, 1, 0, 0)], bs)
            && Total(bs) == b.size + 40 && Taken(bs) == 0
  {
    var bs, rs := [b], [Region(b.addr, End(b))];
    OneSum(b);
    assert bs[0] == b && |bs| == 1 && rs[0] == Region(b.addr, End(b)) && |rs| == 1;
    assert LiesIn(b, rs[0]);
    assert LinkAt(map[b.addr := Header(MAGIC, b.size, 1, 0, 0)], bs, 0);
  }

  lemma SoundStart(bs: seq<Block>)
    requires Sound(bs)
    ensures |bs| > 0
  {
  }

  lemma SplitEnd(bs: seq<Block>, i: nat, n: nat)
    requires i < |bs| && n + 40 <= bs[i].size
    ensures var r := Split(bs, i, n); |r| > 0 && End(r[|r| - 1]) == End(bs[|bs| - 1])
  {
    SplitSeq(bs, i, n);
  }

  lemma AbsorbEnd(bs: seq<Block>, i: nat)
    requires Sound(bs) && i + 1 < |bs|
    ensures var r := Absorb(bs, i); |r| > 0 && End(r[|r| - 1]) <= End(bs[|bs| - 1])
  {
    AbsorbSeq(bs, i);
  }

  /** Everything that `coalesce` relies on when it merges blocks `i` and `i + 1`. */
  lemma Absorption(hs: Headers, bs: seq<Block>, i: nat)
    requires Sound(bs) && Linked(hs, bs) && i + 1 < |bs| && bs[i].free && bs[i + 1].free
    ensures Sound(Absorb(bs, i)) && Linked(AbsorbHeaders(hs, bs[i].addr), Absorb(bs, i))
    ensures Total(Absorb(bs, i)) == Total(bs) && Taken(Absorb(bs, i)) == Taken(bs)
    ensures |Absorb(bs, i)| == |bs| - 1 && Absorb(bs, i)[i] == Merge(bs[i], bs[i + 1]) && Absorb(bs, i)[0].addr == bs[0].addr
    ensures LinkAt(hs, bs, i) && LinkAt(hs, bs, i + 1) && bs[i].addr != bs[i + 1].addr
    ensures End(Absorb(bs, i)[|bs| - 2]) <= End(bs[|bs| - 1])
    ensures NextOf(bs, i + 1) != 0 ==>
              i + 2 < |bs| && LinkAt(hs, bs, i + 2) && bs[i].addr != bs[i + 2].addr && bs[i + 1].addr != bs[i + 2].addr
  {
    hide Sound, Linked, Absorb, Total, Taken;
    AbsorbSound(bs, i);
    AbsorbLinked(hs, bs, i);
    AbsorbSums(bs, i);
    AbsorbSeq(bs, i);
    AbsorbEnd(bs, i);
    LinkIs(hs, bs, i);
    LinkIs(hs, bs, i + 1);
    SoundApart(bs, i, i + 1);
    if i + 2 < |bs| {
      LinkIs(hs, bs, i + 2);
      SoundApart(bs, i, i + 2);
      SoundApart(bs, i + 1, i + 2);
    }
  }

  lemma SoundApart(bs: seq<Block>, i: nat, j: nat)
    requires Sound(bs) && i < |bs| && j < |bs|
    ensures bs[i].addr == bs[j].addr <==> i == j
  {
    Apart(bs, i, j);
  }

  /** Everything that `expand_heap` relies on when it appends a block. */
  lemma Appending(hs: Headers, bs: seq<Block>, b: Block)
    requires Sound(bs) && Linked(hs, bs) && b.free && b.addr % 8 == 0 && b.size % 8 == 0
    requires End(bs[|bs| - 1]) <= b.addr && End(b) <= 0x1_0000_0000_0000_0000
    ensures bs != [] && Sound(bs + [b]) && Total(bs + [b]) == Total(bs) + b.size + 40 && Taken(bs + [b]) == Taken(bs)
    ensures var last := bs[|bs| - 1].addr;
            && last in hs && last < b.addr
            && Linked(hs[b.addr := Header(MAGIC, b.size, Flag(b.free), 0, last)][last := hs[last].(next := b.addr)], bs + [b])
  {
    assert Aligned([b]);
    AppendSound(bs, b);
    AppendLinked(hs, bs, b);
    SumsAdd(bs, [b]);
    OneSum(b);
  }

  lemma AppendWrites(hs: Headers, g: nat, size: nat, last: nat)
    requires last in hs && last != g
    ensures var hs1 := hs[g := Header(MAGIC, size, 1, 0, 0)];
            var hs2 := hs1[last := hs1[last].(next := g)];
            hs2[g := hs2[g].(prev := last)] == hs[g := Header(MAGIC, size, 1, 0, last)][last := hs[last].(next := g)]
  {
  }

  /** All that the taking half of `malloc` relies on. */
  lemma TakeFacts(bs: seq<Block>, i: nat, n: nat)
    requires Sound(bs) && i < |bs| && Fits(bs[i], n) && n % 8 == 0
    ensures var cut := if bs[i].size >= n + 104 then Split(bs, i, n) else bs;
            var r := Allocated(bs, i, n);
            && i < |cut| && cut[i].addr == bs[i].addr && cut[i].free && r == SetFree(cut, i, false)
            && Sound(r) && Total(r) == Total(bs) && Taken(r) == Taken(bs) + cut[i].size + 40
            && r[0].addr == bs[0].addr && End(r[|r| - 1]) == End(bs[|bs| - 1])
  {
    hide Sound, Total, Taken, Split, SetFree;
    SoundStart(bs);
    AllocatedSound(bs, i, n);
    AllocatedSums(bs, i, n);
    if bs[i].size >= n + 104 {
      SplitSeq(bs, i, n);
      SetFreeSeq(Split(bs, i, n), i, false);
    } else {
      SetFreeSeq(bs, i, false);
    }
    SoundStart(Allocated(bs, i, n));
  }

  /** All that `free` relies on before it merges. */
  lemma FreeFacts(bs: seq<Block>, i: nat)
    requires Sound(bs) && i < |bs| && !bs[i].free
    ensures var r := SetFree(bs, i, true);
            && |r| == |bs| && r[i] == bs[i].(free := true) && r[0].addr == bs[0].addr && End(r[|r| - 1]) == End(bs[|bs| - 1])
            && Sound(r) && Total(r) == Total(bs) && Taken(r) == Taken(bs) - (bs[i].size + 40)
            && Freed(bs, i) == Coalesced(r, i) && Live(Freed(bs, i)) == Live(bs) - {bs[i]}
  {
    hide Sound, Total, Taken, SetFree, Coalesced, Live;
    SetFreeSound(bs, i, true);
    SetFreeSums(bs, i, true);
    SetFreeSeq(bs, i, true);
    SoundOrdered(bs);
    FreedLive(bs, i);
  }

  lemma KeptSame(live: set<Block>, mem: Memory)
    ensures Undisturbed(live, mem, mem)
  {
  }

  lemma NextKnown(hs: Headers, bs: seq<Block>, i: nat)
    requires Linked(hs, bs) && Sound(bs) && i < |bs|
    ensures LinkAt(hs, bs, i) && (hs[bs[i].addr].next != 0 ==> i + 1 < |bs| && LinkAt(hs, bs, i + 1) && bs[i + 1].addr != bs[i].addr)
    ensures hs[bs[i].addr].next == 0 ==> i + 1 == |bs|
    ensures hs[bs[i].addr].prev != 0 ==> 0 < i && LinkAt(hs, bs, i - 1)
    ensures hs[bs[i].addr].prev == 0 ==> i == 0
  {
    assert LinkAt(hs, bs, i);
    if i + 1 < |bs| {
      assert LinkAt(hs, bs, i + 1);
    }
    if i > 0 {
      assert LinkAt(hs, bs, i - 1);
    }
  }

  lemma LinkIs(hs: Headers, bs: seq<Block>, i: nat)
    requires Linked(hs, bs) && i < |bs|
    ensures LinkAt(hs, bs, i)
  {
  }
}
