/**
 * The heap's blocks as a sequence, in list order: what splitting, merging and appending do to the
 * sizes, to the addresses and to the doubly linked headers.
 */
module HeapList {
  const MAGIC := 0x4845_4150

  datatype Block = Block(addr: nat, size: nat, free: bool)

  /** The header in memory; address 0 is NULL.  It occupies 40 bytes, and `free` is a C flag. */
  datatype Header = Header(magic: nat, size: nat, free: nat, next: nat, prev: nat)

  function Flag(free: bool): nat
  {
    if free then 1 else 0
  }

  function End(b: Block): nat
  {
    b.addr + 40 + b.size
  }

  // ---- Sizes -------------------------------------------------------------------------------

  ghost function Total(bs: seq<Block>): nat
  {
    if bs == [] then 0 else bs[0].size + 40 + Total(bs[1..])
  }

  ghost function Taken(bs: seq<Block>): nat
  {
    if bs == [] then 0 else (if bs[0].free then 0 else bs[0].size + 40) + Taken(bs[1..])
  }

  lemma {:induction false} SumsAdd(a: seq<Block>, b: seq<Block>)
    ensures Total(a + b) == Total(a) + Total(b) && Taken(a + b) == Taken(a) + Taken(b)
  {
    if a == [] {
      assert a + b == b;
    } else {
      assert (a + b)[1..] == a[1..] + b;
      SumsAdd(a[1..], b);
    }
  }

  /** `k` blocks from `i` on replaced by `mid`. */
  ghost function Replace(bs: seq<Block>, i: nat, k: nat, mid: seq<Block>): seq<Block>
    requires i + k <= |bs|
  {
    bs[..i] + mid + bs[i + k..]
  }

  lemma ReplaceSums(bs: seq<Block>, i: nat, k: nat, mid: seq<Block>)
    requires i + k <= |bs|
    ensures Total(Replace(bs, i, k, mid)) == Total(bs) - Total(bs[i..i + k]) + Total(mid)
    ensures Taken(Replace(bs, i, k, mid)) == Taken(bs) - Taken(bs[i..i + k]) + Taken(mid)
  {
    hide Total, Taken;
    SumsThree(bs[..i], mid, bs[i + k..]);
    SumsThree(bs[..i], bs[i..i + k], bs[i + k..]);
    assert bs == bs[..i] + bs[i..i + k] + bs[i + k..];
  }

  lemma SumsThree(a: seq<Block>, b: seq<Block>, c: seq<Block>)
    ensures Total(a + b + c) == Total(a) + Total(b) + Total(c) && Taken(a + b + c) == Taken(a) + Taken(b) + Taken(c)
  {
    hide Total, Taken;
    SumsAdd(a + b, c);
    SumsAdd(a, b);
  }

  lemma {:induction false} TakenAtMost(bs: seq<Block>)
    ensures Taken(bs) == Total(bs) || Taken(bs) + 40 <= Total(bs)
    ensures Taken(bs) == Total(bs) <==> forall i :: 0 <= i < |bs| ==> !bs[i].free
  {
    if bs != [] {
      TakenAtMost(bs[1..]);
      assert forall i :: 1 <= i < |bs| ==> bs[i] == bs[1..][i - 1];
      assert (forall i :: 0 <= i < |bs| ==> !bs[i].free) <==> !bs[0].free && forall i :: 0 <= i < |bs[1..]| ==> !bs[1..][i].free;
    }
  }

  // ---- Addresses ---------------------------------------------------------------------------

  ghost predicate Ordered(bs: seq<Block>)
  {
    forall i, j :: 0 <= i < j < |bs| ==> End(bs[i]) <= bs[j].addr
  }

  ghost predicate Aligned(bs: seq<Block>)
  {
    forall i :: 0 <= i < |bs| ==> bs[i].addr % 8 == 0 && bs[i].size % 8 == 0 && 0 < bs[i].addr && End(bs[i]) <= 0x1_0000_0000_0000_0000
  }

  /** Every block starts where the one before it ends. */
  ghost predicate Tiled(bs: seq<Block>)
  {
    forall i :: 0 <= i < |bs| - 1 ==> End(bs[i]) == bs[i + 1].addr
  }

  /** No two neighbours are both free. */
  ghost predicate Packed(bs: seq<Block>)
  {
    forall i :: 0 <= i < |bs| - 1 ==> !(bs[i].free && bs[i + 1].free)
  }

  ghost predicate Spans(mid: seq<Block>, lo: nat, hi: nat)
  {
    && Ordered(mid) && Aligned(mid)
    && forall i :: 0 <= i < |mid| ==> lo <= mid[i].addr && End(mid[i]) <= hi
  }

  lemma ReplaceAt(bs: seq<Block>, i: nat, k: nat, mid: seq<Block>)
    requires i + k <= |bs|
    ensures var r := Replace(bs, i, k, mid);
            && |r| == |bs| - k + |mid|
            && (forall x :: 0 <= x < i ==> r[x] == bs[x])
            && (forall x :: i <= x < i + |mid| ==> r[x] == mid[x - i])
            && forall x :: i + |mid| <= x < |r| ==> r[x] == bs[x - |mid| + k]
  {
  }

  lemma ReplaceOrdered(bs: seq<Block>, i: nat, k: nat, mid: seq<Block>)
    requires 0 < k && i + k <= |bs| && Ordered(bs) && Aligned(bs) && Spans(mid, bs[i].addr, End(bs[i + k - 1]))
    ensures Ordered(Replace(bs, i, k, mid)) && Aligned(Replace(bs, i, k, mid))
  {
    hide Replace;
    var r := Replace(bs, i, k, mid);
    var m := |mid|;
    ReplaceAt(bs, i, k, mid);
    forall x, y | 0 <= x < y < |r|
      ensures End(r[x]) <= r[y].addr
    {
      assert i <= x < i + m ==> r[x] == mid[x - i];
      assert i <= y < i + m ==> r[y] == mid[y - i];
      assert x >= i + m ==> r[x] == bs[x - m + k];
      assert y >= i + m ==> r[y] == bs[y - m + k];
    }
    forall x | 0 <= x < |r|
      ensures r[x].addr % 8 == 0 && r[x].size % 8 == 0 && 0 < r[x].addr && End(r[x]) <= 0x1_0000_0000_0000_0000
    {
      assert i <= x < i + m ==> r[x] == mid[x - i];
      assert x >= i + m ==> r[x] == bs[x - m + k];
    }
  }

  /** A tiled list covers exactly the bytes from its first block on. */
  lemma {:induction false} TiledTotal(bs: seq<Block>)
    requires Tiled(bs) && bs != []
    ensures End(bs[|bs| - 1]) == bs[0].addr + Total(bs)
    decreases |bs|
  {
    if |bs| > 1 {
      assert forall i :: 0 <= i < |bs[1..]| ==> bs[1..][i] == bs[i + 1];
      TiledTotal(bs[1..]);
    } else {
      assert bs[1..] == [];
    }
  }

  lemma ReplaceTiled(bs: seq<Block>, i: nat, k: nat, mid: seq<Block>)
    requires 0 < k && i + k <= |bs| && Tiled(bs) && Tiled(mid) && mid != []
    requires mid[0].addr == bs[i].addr && End(mid[|mid| - 1]) == End(bs[i + k - 1])
    ensures Tiled(Replace(bs, i, k, mid))
  {
    var r := Replace(bs, i, k, mid);
    var m := |mid|;
    forall x | 0 <= x < |r| - 1
      ensures End(r[x]) == r[x + 1].addr
    {
      assert i <= x < i + m ==> r[x] == mid[x - i];
      assert i <= x + 1 < i + m ==> r[x + 1] == mid[x + 1 - i];
      assert x >= i + m ==> r[x] == bs[x - m + k];
      assert x + 1 >= i + m ==> r[x + 1] == bs[x + 1 - m + k];
    }
  }

  /** The blocks fit between the first address and the last. */
  lemma {:induction false} TotalFits(bs: seq<Block>)
    requires Ordered(bs) && bs != []
    ensures bs[0].addr + Total(bs) <= End(bs[|bs| - 1])
    decreases |bs|
  {
    if |bs| > 1 {
      assert forall i :: 0 <= i < |bs[1..]| ==> bs[1..][i] == bs[i + 1];
      TotalFits(bs[1..]);
    } else {
      assert bs[1..] == [];
    }
  }

  // ---- The four changes --------------------------------------------------------------------

  ghost function SetFree(bs: seq<Block>, i: nat, free: bool): seq<Block>
    requires i < |bs|
  {
    Replace(bs, i, 1, [bs[i].(free := free)])
  }

  ghost function Split(bs: seq<Block>, i: nat, n: nat): seq<Block>
    requires i < |bs| && n + 40 <= bs[i].size
  {
    var b := bs[i];
    Replace(bs, i, 1, [b.(size := n), Block(b.addr + 40 + n, b.size - n - 40, true)])
  }

  function Merge(a: Block, b: Block): Block
  {
    a.(size := a.size + 40 + b.size)
  }

  ghost function Absorb(bs: seq<Block>, i: nat): seq<Block>
    requires i + 1 < |bs|
  {
    Replace(bs, i, 2, [Merge(bs[i], bs[i + 1])])
  }

  lemma SetFreeSeq(bs: seq<Block>, i: nat, free: bool)
    requires i < |bs|
    ensures SetFree(bs, i, free) == bs[i := bs[i].(free := free)]
  {
  }

  lemma SplitSeq(bs: seq<Block>, i: nat, n: nat)
    requires i < |bs| && n + 40 <= bs[i].size
    ensures var r := Split(bs, i, n);
            && |r| == |bs| + 1 && r[i] == bs[i].(size := n)
            && r[i + 1] == Block(bs[i].addr + 40 + n, bs[i].size - n - 40, true)
            && (forall j :: 0 <= j < i ==> r[j] == bs[j]) && forall j :: i + 2 <= j < |r| ==> r[j] == bs[j - 1]
  {
  }

  lemma AbsorbSeq(bs: seq<Block>, i: nat)
    requires i + 1 < |bs|
    ensures var r := Absorb(bs, i);
            && |r| == |bs| - 1 && r[i] == Merge(bs[i], bs[i + 1])
            && (forall j :: 0 <= j < i ==> r[j] == bs[j]) && forall j :: i + 1 <= j < |r| ==> r[j] == bs[j + 1]
  {
  }

  /** What every change keeps. */
  ghost predicate Sound(bs: seq<Block>)
  {
    bs != [] && Ordered(bs) && Aligned(bs)
  }

  lemma SetFreeSound(bs: seq<Block>, i: nat, free: bool)
    requires i < |bs| && Sound(bs)
    ensures Sound(SetFree(bs, i, free)) && (Tiled(bs) ==> Tiled(SetFree(bs, i, free)))
  {
    var mid := [bs[i].(free := free)];
    assert Spans(mid, bs[i].addr, End(bs[i]));
    ReplaceOrdered(bs, i, 1, mid);
    if Tiled(bs) {
      ReplaceTiled(bs, i, 1, mid);
    }
  }

  lemma AlignedAt(bs: seq<Block>, i: nat)
    requires Aligned(bs) && i < |bs|
    ensures bs[i].addr % 8 == 0 && bs[i].size % 8 == 0 && 0 < bs[i].addr && End(bs[i]) <= 0x1_0000_0000_0000_0000
  {
  }

  /** The two halves of a split fill the block. */
  lemma Halves(b: Block, n: nat)
    requires b.addr % 8 == 0 && b.size % 8 == 0 && 0 < b.addr && End(b) <= 0x1_0000_0000_0000_0000
    requires n + 40 <= b.size && n % 8 == 0
    ensures var mid := [b.(size := n), Block(b.addr + 40 + n, b.size - n - 40, true)];
            Spans(mid, b.addr, End(b)) && Tiled(mid) && End(mid[1]) == End(b)
  {
    var x, y := b.(size := n), Block(b.addr + 40 + n, b.size - n - 40, true);
    var mid := [x, y];
    assert y.addr % 8 == 0 && y.size % 8 == 0;
    assert mid[0] == x && mid[1] == y && |mid| == 2;
  }

  lemma SplitSound(bs: seq<Block>, i: nat, n: nat)
    requires i < |bs| && n + 40 <= bs[i].size && n % 8 == 0 && Sound(bs)
    ensures Sound(Split(bs, i, n)) && (Tiled(bs) ==> Tiled(Split(bs, i, n)))
  {
    hide Ordered, Aligned, Tiled, Spans, Replace;
    var b := bs[i];
    var mid := [b.(size := n), Block(b.addr + 40 + n, b.size - n - 40, true)];
    AlignedAt(bs, i);
    Halves(b, n);
    SplitSeq(bs, i, n);
    ReplaceOrdered(bs, i, 1, mid);
    if Tiled(bs) {
      ReplaceTiled(bs, i, 1, mid);
    }
  }

  lemma MergedSpans(a: Block, b: Block)
    requires a.addr % 8 == 0 && a.size % 8 == 0 && b.size % 8 == 0 && 0 < a.addr
    requires End(a) <= b.addr && End(b) <= 0x1_0000_0000_0000_0000
    ensures Spans([Merge(a, b)], a.addr, End(b))
  {
    var m := Merge(a, b);
    assert m.size % 8 == 0 && [m][0] == m;
  }

  /** Merging list neighbours stays between them, and covers just them exactly when they touch. */
  lemma AbsorbSound(bs: seq<Block>, i: nat)
    requires i + 1 < |bs| && Sound(bs)
    ensures Sound(Absorb(bs, i)) && (Tiled(bs) ==> Tiled(Absorb(bs, i)))
    ensures End(Merge(bs[i], bs[i + 1])) == End(bs[i + 1]) <==> End(bs[i]) == bs[i + 1].addr
  {
    hide Aligned, Spans, Replace;
    var mid := [Merge(bs[i], bs[i + 1])];
    AlignedAt(bs, i);
    AlignedAt(bs, i + 1);
    assert End(bs[i]) <= bs[i + 1].addr;
    MergedSpans(bs[i], bs[i + 1]);
    AbsorbSeq(bs, i);
    ReplaceOrdered(bs, i, 2, mid);
    if Tiled(bs) {
      ReplaceTiled(bs, i, 2, mid);
    }
  }

  lemma AppendSound(bs: seq<Block>, b: Block)
    requires Sound(bs) && End(bs[|bs| - 1]) <= b.addr && Aligned([b])
    ensures Sound(bs + [b]) && (Tiled(bs) && End(bs[|bs| - 1]) == b.addr ==> Tiled(bs + [b]))
  {
    forall i | 0 <= i < |bs|
      ensures End(bs[i]) <= b.addr
    {
      if i < |bs| - 1 {
        assert End(bs[i]) <= bs[|bs| - 1].addr;
      }
    }
    assert [b][0] == b;
  }

  // ---- Links -------------------------------------------------------------------------------

  type Headers = map<nat, Header>

  function NextOf(bs: seq<Block>, i: nat): nat
  {
    if i + 1 < |bs| then bs[i + 1].addr else 0
  }

  function PrevOf(bs: seq<Block>, i: nat): nat
  {
    if 0 < i <= |bs| then bs[i - 1].addr else 0
  }

  ghost predicate LinkAt(hs: Headers, bs: seq<Block>, i: nat)
    requires i < |bs|
  {
    bs[i].addr in hs && hs[bs[i].addr] == HeaderOf(bs, i)
  }

  /** The header that block `i` of the list has. */
  function HeaderOf(bs: seq<Block>, i: nat): Header
    requires i < |bs|
  {
    Header(MAGIC, bs[i].size, Flag(bs[i].free), NextOf(bs, i), PrevOf(bs, i))
  }

  /** The headers are a doubly linked list of the blocks: `next` and `prev` are inverse. */
  ghost predicate Linked(hs: Headers, bs: seq<Block>)
  {
    forall i :: 0 <= i < |bs| ==> LinkAt(hs, bs, i)
  }

  lemma Apart(bs: seq<Block>, i: nat, j: nat)
    requires Ordered(bs) && i < |bs| && j < |bs|
    ensures bs[i].addr == bs[j].addr <==> i == j
  {
    if i < j {
      assert End(bs[i]) <= bs[j].addr;
    } else if j < i {
      assert End(bs[j]) <= bs[i].addr;
    }
  }

  lemma SetLinked(hs: Headers, bs: seq<Block>, i: nat, free: bool)
    requires i < |bs| && Sound(bs) && Linked(hs, bs)
    ensures bs[i].addr in hs && Linked(hs[bs[i].addr := hs[bs[i].addr].(free := Flag(free))], SetFree(bs, i, free))
  {
    hide Ordered, Aligned, SetFree;
    assert LinkAt(hs, bs, i);
    SetFreeSeq(bs, i, free);
    var r := SetFree(bs, i, free);
    var hs' := hs[bs[i].addr := hs[bs[i].addr].(free := Flag(free))];
    forall j | 0 <= j < |r|
      ensures LinkAt(hs', r, j)
    {
      assert LinkAt(hs, bs, j);
      Apart(bs, i, j);
    }
  }

  /** The header writes of the split in `malloc`. */
  function SplitHeaders(hs: Headers, a: nat, n: nat): Headers
  {
    if a !in hs then hs else
      var c := hs[a];
      var b := a + 40 + n;
      var hs1 := hs[b := Header(MAGIC, if c.size >= n + 40 then c.size - n - 40 else 0, 1, c.next, a)];
      var hs2 := if c.next != 0 && c.next in hs1 then hs1[c.next := hs1[c.next].(prev := b)] else hs1;
      hs2[a := c.(next := b, size := n)]
  }

  lemma SplitLinked(hs: Headers, bs: seq<Block>, i: nat, n: nat)
    requires i < |bs| && n + 40 <= bs[i].size && Sound(bs) && Linked(hs, bs)
    ensures Linked(SplitHeaders(hs, bs[i].addr, n), Split(bs, i, n))
  {
    hide LinkAt, SplitHeaders, Split;
    SplitSeq(bs, i, n);
    forall j | 0 <= j < |bs| + 1
      ensures LinkAt(SplitHeaders(hs, bs[i].addr, n), Split(bs, i, n), j)
    {
      SplitLinkAt(hs, bs, i, n, j);
    }
  }

  lemma SplitLinkAt(hs: Headers, bs: seq<Block>, i: nat, n: nat, j: nat)
    requires i < |bs| && n + 40 <= bs[i].size && Sound(bs) && Linked(hs, bs) && j <= |bs|
    ensures |Split(bs, i, n)| == |bs| + 1 && LinkAt(SplitHeaders(hs, bs[i].addr, n), Split(bs, i, n), j)
  {
    hide Split, Ordered, Aligned;
    SplitSeq(bs, i, n);
    var b := bs[i].addr + 40 + n;
    assert LinkAt(hs, bs, i);
    NewApart(bs, i, b);
    AlignedAt(bs, i);
    if i + 1 < |bs| {
      assert LinkAt(hs, bs, i + 1);
      Apart(bs, i, i + 1);
      AlignedAt(bs, i + 1);
    }
    if j < i {
      assert LinkAt(hs, bs, j);
      Apart(bs, i, j);
      if i + 1 < |bs| {
        Apart(bs, i + 1, j);
      }
    } else if j >= i + 2 {
      assert LinkAt(hs, bs, j - 1);
      Apart(bs, i, j - 1);
      Apart(bs, i + 1, j - 1);
    }
  }

  lemma NewApart(bs: seq<Block>, i: nat, b: nat)
    requires Ordered(bs) && i < |bs| && bs[i].addr < b < End(bs[i])
    ensures forall j :: 0 <= j < |bs| ==> bs[j].addr != b
  {
    forall j | 0 <= j < |bs|
      ensures bs[j].addr != b
    {
      if j < i {
        assert End(bs[j]) <= bs[i].addr;
      } else if i < j {
        assert End(bs[i]) <= bs[j].addr;
      }
    }
  }

  /** The header writes of one merge in `coalesce`: the block at `a` takes in the one after it. */
  function AbsorbHeaders(hs: Headers, a: nat): Headers
  {
    if a !in hs || hs[a].next !in hs then hs else
      var c, d := hs[a], hs[hs[a].next];
      var hs1 := hs[a := c.(size := c.size + 40 + d.size, next := d.next)];
      if d.next != 0 && d.next in hs1 then hs1[d.next := hs1[d.next].(prev := a)] else hs1
  }

  lemma AbsorbLinked(hs: Headers, bs: seq<Block>, i: nat)
    requires i + 1 < |bs| && Sound(bs) && Linked(hs, bs)
    ensures Linked(AbsorbHeaders(hs, bs[i].addr), Absorb(bs, i))
  {
    hide LinkAt, AbsorbHeaders, Absorb;
    AbsorbSeq(bs, i);
    forall j | 0 <= j < |bs| - 1
      ensures LinkAt(AbsorbHeaders(hs, bs[i].addr), Absorb(bs, i), j)
    {
      AbsorbLinkAt(hs, bs, i, j);
    }
  }

  lemma AbsorbLinkAt(hs: Headers, bs: seq<Block>, i: nat, j: nat)
    requires i + 1 < |bs| && Sound(bs) && Linked(hs, bs) && j < |bs| - 1
    ensures |Absorb(bs, i)| == |bs| - 1 && LinkAt(AbsorbHeaders(hs, bs[i].addr), Absorb(bs, i), j)
  {
    hide Absorb, Ordered, Aligned;
    AbsorbSeq(bs, i);
    assert LinkAt(hs, bs, i) && LinkAt(hs, bs, i + 1);
    if i + 2 < |bs| {
      assert LinkAt(hs, bs, i + 2);
      Apart(bs, i, i + 2);
      AlignedAt(bs, i + 2);
    }
    if j < i {
      assert LinkAt(hs, bs, j);
      Apart(bs, i, j);
      if i + 2 < |bs| {
        Apart(bs, i + 2, j);
      }
    } else if j > i {
      assert LinkAt(hs, bs, j + 1);
      Apart(bs, i, j + 1);
      Apart(bs, i + 2, j + 1);
    }
  }

  /** The header writes of `expand_heap`: a new last block. */
  lemma AppendLinked(hs: Headers, bs: seq<Block>, b: Block)
    requires Sound(bs) && End(bs[|bs| - 1]) <= b.addr && b.addr > 0 && Linked(hs, bs)
    ensures var last := bs[|bs| - 1].addr;
            && last in hs
            && Linked(hs[b.addr := Header(MAGIC, b.size, Flag(b.free), 0, last)][last := hs[last].(next := b.addr)], bs + [b])
  {
    var n := |bs| - 1;
    var last := bs[n].addr;
    assert LinkAt(hs, bs, n);
    var hs' := hs[b.addr := Header(MAGIC, b.size, Flag(b.free), 0, last)][last := hs[last].(next := b.addr)];
    var r := bs + [b];
    forall j | 0 <= j < |r|
      ensures LinkAt(hs', r, j)
    {
      if j < |bs| {
        assert LinkAt(hs, bs, j);
        Apart(bs, n, j);
        assert j < n ==> End(bs[j]) <= bs[n].addr;
      }
    }
  }

  // ---- Allocating and freeing --------------------------------------------------------------

  /** What `malloc` makes of the block it takes: split when 64 bytes and a header are left over. */
  ghost function Allocated(bs: seq<Block>, i: nat, n: nat): seq<Block>
  {
    if i >= |bs| then bs else SetFree(if bs[i].size >= n + 104 then Split(bs, i, n) else bs, i, false)
  }

  /** What `coalesce` makes of block `i` and its neighbours. */
  ghost function MergedNext(bs: seq<Block>, i: nat): seq<Block>
    requires i < |bs|
  {
    if i + 1 < |bs| && bs[i + 1].free then Absorb(bs, i) else bs
  }

  ghost function MergedPrev(bs: seq<Block>, i: nat): seq<Block>
    requires i < |bs|
  {
    if 0 < i && bs[i - 1].free then Absorb(bs, i - 1) else bs
  }

  ghost function Coalesced(bs: seq<Block>, i: nat): seq<Block>
    requires i < |bs|
  {
    MergedPrev(MergedNext(bs, i), i)
  }

  ghost function Freed(bs: seq<Block>, i: nat): seq<Block>
    requires i < |bs|
  {
    Coalesced(SetFree(bs, i, true), i)
  }

  /**
   * The list after an allocation: the block in use, and behind it a free one with what is left, if
   * that is a header and at least 64 bytes.
   */
  lemma AllocatedIs(bs: seq<Block>, i: nat, n: nat)
    requires i < |bs| && n <= bs[i].size
    ensures var a, size := bs[i].addr, bs[i].size;
            Allocated(bs, i, n) ==
              bs[..i]
              + (if size - n >= 40 + 64 then [Block(a, n, false), Block(a + 40 + n, size - n - 40, true)]
                 else [Block(a, size, false)])
              + bs[i + 1..]
  {
    if bs[i].size >= n + 104 {
      SplitSeq(bs, i, n);
      SetFreeSeq(Split(bs, i, n), i, false);
    }
  }

  /** The list after a free: one free block in place of the block and its free neighbours, headers included. */
  lemma FreedIs(bs: seq<Block>, i: nat)
    requires i < |bs|
    ensures var lo := if 0 < i && bs[i - 1].free then i - 1 else i;
            var hi := if i + 1 < |bs| && bs[i + 1].free then i + 1 else i;
            var size := bs[i].size + (if lo < i then bs[lo].size + 40 else 0) + (if hi > i then bs[hi].size + 40 else 0);
            Freed(bs, i) == bs[..lo] + [Block(bs[lo].addr, size, true)] + bs[hi + 1..]
  {
    hide Absorb, SetFree;
    var s := SetFree(bs, i, true);
    SetFreeSeq(bs, i, true);
    var m := MergedNext(s, i);
    if i + 1 < |bs| && bs[i + 1].free {
      AbsorbSeq(s, i);
    }
    assert m == bs[..i] + [m[i]] + bs[if i + 1 < |bs| && bs[i + 1].free then i + 2 else i + 1..];
    if 0 < i && bs[i - 1].free {
      AbsorbSeq(m, i - 1);
    }
  }

  lemma AllocatedSound(bs: seq<Block>, i: nat, n: nat)
    requires i < |bs| && n <= bs[i].size && n % 8 == 0 && Sound(bs)
    ensures Sound(Allocated(bs, i, n)) && (Tiled(bs) ==> Tiled(Allocated(bs, i, n)))
  {
    hide Sound, Tiled, SetFree, Split;
    if bs[i].size >= n + 104 {
      SplitSeq(bs, i, n);
      SplitSound(bs, i, n);
      SetFreeSound(Split(bs, i, n), i, false);
    } else {
      SetFreeSound(bs, i, false);
    }
  }

  lemma CoalescedSound(bs: seq<Block>, i: nat)
    requires i < |bs| && Sound(bs)
    ensures Sound(Coalesced(bs, i)) && (Tiled(bs) ==> Tiled(Coalesced(bs, i)))
  {
    hide Sound, Tiled, Absorb;
    if i + 1 < |bs| && bs[i + 1].free {
      AbsorbSeq(bs, i);
      AbsorbSound(bs, i);
    }
    var next := MergedNext(bs, i);
    if 0 < i && next[i - 1].free {
      AbsorbSound(next, i - 1);
    }
  }

  lemma FreedSound(bs: seq<Block>, i: nat)
    requires i < |bs| && Sound(bs)
    ensures Sound(Freed(bs, i)) && (Tiled(bs) ==> Tiled(Freed(bs, i)))
  {
    hide Sound, Tiled, Coalesced;
    SetFreeSeq(bs, i, true);
    SetFreeSound(bs, i, true);
    CoalescedSound(SetFree(bs, i, true), i);
  }

  lemma SetFreeSums(bs: seq<Block>, i: nat, free: bool)
    requires i < |bs|
    ensures Total(SetFree(bs, i, free)) == Total(bs)
    ensures Taken(SetFree(bs, i, free)) ==
              Taken(bs) - (if bs[i].free then 0 else bs[i].size + 40) + if free then 0 else bs[i].size + 40
  {
    hide Replace;
    ReplaceSums(bs, i, 1, [bs[i].(free := free)]);
    OneSum(bs[i]);
    OneSum(bs[i].(free := free));
    assert bs[i..i + 1] == [bs[i]];
  }

  lemma OneSum(b: Block)
    ensures Total([b]) == b.size + 40 && Taken([b]) == if b.free then 0 else b.size + 40
  {
    assert [b][1..] == [];
  }

  lemma TwoSum(a: Block, b: Block)
    ensures Total([a, b]) == a.size + 40 + b.size + 40 && Taken([a, b]) == Taken([a]) + Taken([b])
  {
    assert [a, b] == [a] + [b];
    SumsAdd([a], [b]);
    OneSum(a);
    OneSum(b);
  }

  lemma SplitSums(bs: seq<Block>, i: nat, n: nat)
    requires i < |bs| && n + 40 <= bs[i].size && bs[i].free
    ensures Total(Split(bs, i, n)) == Total(bs) && Taken(Split(bs, i, n)) == Taken(bs)
  {
    hide Replace, Total, Taken;
    var b := bs[i];
    var x, y := b.(size := n), Block(b.addr + 40 + n, b.size - n - 40, true);
    ReplaceSums(bs, i, 1, [x, y]);
    TwoSum(x, y);
    OneSum(x);
    OneSum(y);
    OneSum(b);
    assert bs[i..i + 1] == [b];
  }

  lemma AbsorbSums(bs: seq<Block>, i: nat)
    requires i + 1 < |bs| && bs[i].free && bs[i + 1].free
    ensures Total(Absorb(bs, i)) == Total(bs) && Taken(Absorb(bs, i)) == Taken(bs)
  {
    hide Replace, Total, Taken;
    var x, y := bs[i], bs[i + 1];
    ReplaceSums(bs, i, 2, [Merge(x, y)]);
    TwoSum(x, y);
    OneSum(x);
    OneSum(y);
    OneSum(Merge(x, y));
    assert bs[i..i + 2] == [x, y];
  }

  /** Allocation moves the block it takes from free to used and conserves the total. */
  lemma AllocatedSums(bs: seq<Block>, i: nat, n: nat)
    requires i < |bs| && n <= bs[i].size && bs[i].free
    ensures var r := Allocated(bs, i, n);
            && |r| > i && r[i].addr == bs[i].addr && n <= r[i].size && !r[i].free
            && Total(r) == Total(bs) && Taken(r) == Taken(bs) + r[i].size + 40
            && r[i].size == if bs[i].size >= n + 104 then n else bs[i].size
  {
    hide Total, Taken, Split, SetFree;
    if bs[i].size >= n + 104 {
      SplitSeq(bs, i, n);
      SplitSums(bs, i, n);
      SetFreeSums(Split(bs, i, n), i, false);
      SetFreeSeq(Split(bs, i, n), i, false);
    } else {
      SetFreeSums(bs, i, false);
      SetFreeSeq(bs, i, false);
    }
  }

  // ---- No two neighbours free --------------------------------------------------------------

  lemma AllocatedPacked(bs: seq<Block>, i: nat, n: nat)
    requires i < |bs| && n <= bs[i].size && bs[i].free && Packed(bs)
    ensures Packed(Allocated(bs, i, n))
  {
    hide Split, SetFree;
    if bs[i].size >= n + 104 {
      SplitSeq(bs, i, n);
      SetFreeSeq(Split(bs, i, n), i, false);
    } else {
      SetFreeSeq(bs, i, false);
    }
  }

  /** The last block may be followed by a fresh free one once it is about to be taken. */
  lemma GrownPacked(bs: seq<Block>, b: Block, n: nat)
    requires n <= b.size && b.free && Packed(bs)
    ensures Packed(Allocated(bs + [b], |bs|, n))
  {
    hide Split, SetFree;
    var more := bs + [b];
    if b.size >= n + 104 {
      SplitSeq(more, |bs|, n);
      SetFreeSeq(Split(more, |bs|, n), |bs|, false);
    } else {
      SetFreeSeq(more, |bs|, false);
    }
  }

  /** Freeing merges with both neighbours, so none of the new neighbours are both free. */
  lemma FreedPacked(bs: seq<Block>, i: nat)
    requires i < |bs| && Packed(bs)
    ensures Packed(Freed(bs, i))
  {
    hide Absorb, SetFree;
    SetFreeSeq(bs, i, true);
    var set' := SetFree(bs, i, true);
    if i + 1 < |bs| && bs[i + 1].free {
      AbsorbSeq(set', i);
    }
    var next := MergedNext(set', i);
    if 0 < i && next[i - 1].free {
      AbsorbSeq(next, i - 1);
    }
  }

  // ---- The live blocks ---------------------------------------------------------------------

  ghost function Live(bs: seq<Block>): set<Block>
  {
    set b | b in bs && !b.free
  }

  lemma ReplaceLive(bs: seq<Block>, i: nat, k: nat, mid: seq<Block>)
    requires i + k <= |bs|
    ensures Live(Replace(bs, i, k, mid)) == Live(bs[..i]) + Live(mid) + Live(bs[i + k..])
    ensures Live(bs) == Live(bs[..i]) + Live(bs[i..i + k]) + Live(bs[i + k..])
  {
    LiveAdd(bs[..i] + mid, bs[i + k..]);
    LiveAdd(bs[..i], mid);
    LiveAdd(bs[..i] + bs[i..i + k], bs[i + k..]);
    LiveAdd(bs[..i], bs[i..i + k]);
    assert bs == bs[..i] + bs[i..i + k] + bs[i + k..];
  }

  lemma LiveAdd(a: seq<Block>, b: seq<Block>)
    ensures Live(a + b) == Live(a) + Live(b)
  {
  }

  lemma NoneLive(mid: seq<Block>)
    requires forall j :: 0 <= j < |mid| ==> mid[j].free
    ensures Live(mid) == {}
  {
  }

  lemma SplitLive(bs: seq<Block>, i: nat, n: nat)
    requires i < |bs| && n + 40 <= bs[i].size && bs[i].free
    ensures Live(Split(bs, i, n)) == Live(bs)
  {
    hide Replace, Live;
    var b := bs[i];
    var mid := [b.(size := n), Block(b.addr + 40 + n, b.size - n - 40, true)];
    ReplaceLive(bs, i, 1, mid);
    NoneLive(mid);
    NoneLive(bs[i..i + 1]);
  }

  lemma AbsorbLive(bs: seq<Block>, i: nat)
    requires i + 1 < |bs| && bs[i].free && bs[i + 1].free
    ensures Live(Absorb(bs, i)) == Live(bs)
  {
    hide Replace, Live;
    var mid := [Merge(bs[i], bs[i + 1])];
    ReplaceLive(bs, i, 2, mid);
    NoneLive(mid);
    NoneLive(bs[i..i + 2]);
  }

  lemma TakeLive(bs: seq<Block>, i: nat)
    requires i < |bs| && bs[i].free
    ensures Live(SetFree(bs, i, false)) == Live(bs) + {bs[i].(free := false)}
  {
    SetFreeSeq(bs, i, false);
    var r := bs[i := bs[i].(free := false)];
    assert r[i] in r;
    forall b | b in Live(bs)
      ensures b in Live(r)
    {
      var j :| 0 <= j < |bs| && bs[j] == b;
      assert r[j] == b;
    }
  }

  lemma GiveLive(bs: seq<Block>, i: nat)
    requires i < |bs| && Ordered(bs) && !bs[i].free
    ensures Live(SetFree(bs, i, true)) == Live(bs) - {bs[i]}
  {
    hide Ordered;
    SetFreeSeq(bs, i, true);
    var r := bs[i := bs[i].(free := true)];
    forall b | b in Live(bs) && b != bs[i]
      ensures b in Live(r)
    {
      var j :| 0 <= j < |bs| && bs[j] == b;
      assert r[j] == b;
    }
    forall b | b in Live(r)
      ensures b in Live(bs) && b != bs[i]
    {
      var j :| 0 <= j < |r| && r[j] == b;
      assert b == bs[j];
      Apart(bs, i, j);
    }
  }

  /** Allocation adds one live block; freeing takes one away. */
  lemma AllocatedLive(bs: seq<Block>, i: nat, n: nat)
    requires i < |bs| && n <= bs[i].size && bs[i].free
    ensures var size := if bs[i].size >= n + 104 then n else bs[i].size;
            Live(Allocated(bs, i, n)) == Live(bs) + {Block(bs[i].addr, size, false)}
  {
    hide Live, Split, SetFree;
    if bs[i].size >= n + 104 {
      SplitSeq(bs, i, n);
      SplitLive(bs, i, n);
      TakeLive(Split(bs, i, n), i);
    } else {
      TakeLive(bs, i);
    }
  }

  lemma FreedLive(bs: seq<Block>, i: nat)
    requires i < |bs| && Ordered(bs) && !bs[i].free
    ensures Live(Freed(bs, i)) == Live(bs) - {bs[i]}
  {
    hide Live, Absorb, SetFree, Ordered;
    GiveLive(bs, i);
    SetFreeSeq(bs, i, true);
    var set' := SetFree(bs, i, true);
    if i + 1 < |bs| && bs[i + 1].free {
      AbsorbSeq(set', i);
      AbsorbLive(set', i);
    }
    var next := MergedNext(set', i);
    if 0 < i && next[i - 1].free {
      AbsorbLive(next, i - 1);
    }
  }

  /** Live payloads never overlap, one another or any header. */
  lemma LiveApart(bs: seq<Block>, a: Block, b: Block)
    requires Sound(bs) && a in Live(bs) && b in bs && a != b
    ensures End(a) <= b.addr || End(b) <= a.addr
  {
    var i :| 0 <= i < |bs| && bs[i] == a;
    var j :| 0 <= j < |bs| && bs[j] == b;
    assert i < j || j < i;
  }

  // ---- The memory the heap was given -------------------------------------------------------

  /** Addresses from `lo` up to `hi`. */
  datatype Region = Region(lo: nat, hi: nat)

  /** Regions are apart: memory that touches is one region. */
  ghost predicate Separate(rs: seq<Region>)
  {
    && rs != [] && (forall k :: 0 <= k < |rs| ==> rs[k].lo < rs[k].hi)
    && forall k, l :: 0 <= k < l < |rs| ==> rs[k].hi < rs[l].lo
  }

  function Top(rs: seq<Region>): nat
  {
    if rs == [] then 0 else rs[|rs| - 1].hi
  }

  /** New memory at or above all there is. */
  function Given(rs: seq<Region>, lo: nat, len: nat): seq<Region>
  {
    if rs != [] && lo == Top(rs) then rs[|rs| - 1 := Region(rs[|rs| - 1].lo, lo + len)] else rs + [Region(lo, lo + len)]
  }

  ghost predicate LiesIn(b: Block, r: Region)
  {
    r.lo <= b.addr && End(b) <= r.hi
  }

  /** The whole block, header and payload, is in memory the heap was given. */
  ghost predicate Lies(b: Block, rs: seq<Region>)
  {
    exists k :: 0 <= k < |rs| && LiesIn(b, rs[k])
  }

  ghost predicate Housed(bs: seq<Block>, rs: seq<Region>)
  {
    forall i :: 0 <= i < |bs| ==> Lies(bs[i], rs)
  }

  ghost predicate EndsRegion(b: Block, rs: seq<Region>)
  {
    exists k :: 0 <= k < |rs| && LiesIn(b, rs[k]) && End(b) == rs[k].hi
  }

  /** Neighbours touch, or the first of them ends its region. */
  ghost predicate Seam(a: Block, b: Block, rs: seq<Region>)
  {
    End(a) == b.addr || EndsRegion(a, rs)
  }

  /** The blocks fill the regions: all lie in them, without holes. */
  ghost predicate Fitted(bs: seq<Block>, rs: seq<Region>)
  {
    && bs != [] && Separate(rs) && Housed(bs, rs) && End(bs[|bs| - 1]) == Top(rs)
    && forall i :: 0 <= i < |bs| - 1 ==> Seam(bs[i], bs[i + 1], rs)
  }

  ghost predicate Seamless(mid: seq<Block>)
  {
    forall i :: 0 <= i < |mid| - 1 ==> End(mid[i]) == mid[i + 1].addr
  }

  lemma ReplaceFitted(bs: seq<Block>, rs: seq<Region>, i: nat, k: nat, mid: seq<Block>)
    requires 0 < k && i + k <= |bs| && Fitted(bs, rs) && mid != [] && Housed(mid, rs) && Seamless(mid)
    requires mid[0].addr == bs[i].addr && End(mid[|mid| - 1]) == End(bs[i + k - 1])
    requires EndsRegion(bs[i + k - 1], rs) ==> EndsRegion(mid[|mid| - 1], rs)
    ensures Fitted(Replace(bs, i, k, mid), rs)
  {
    hide Replace, Lies, EndsRegion, Separate;
    var r := Replace(bs, i, k, mid);
    var m := |mid|;
    ReplaceAt(bs, i, k, mid);
    forall x | 0 <= x < |r|
      ensures Lies(r[x], rs)
    {
      assert i <= x < i + m ==> r[x] == mid[x - i];
      assert x >= i + m ==> r[x] == bs[x - m + k];
    }
    forall x | 0 <= x < |r| - 1
      ensures Seam(r[x], r[x + 1], rs)
    {
      assert i <= x < i + m ==> r[x] == mid[x - i];
      assert i <= x + 1 < i + m ==> r[x + 1] == mid[x + 1 - i];
      assert x >= i + m ==> r[x] == bs[x - m + k];
      assert x + 1 >= i + m ==> r[x + 1] == bs[x + 1 - m + k];
      assert x == i + m - 1 ==> Seam(bs[i + k - 1], bs[i + k], rs);
    }
  }

  /** A part of a block that ends where it ends lies in the same region. */
  lemma PartLies(b: Block, c: Block, rs: seq<Region>)
    requires b.addr <= c.addr && End(c) <= End(b)
    ensures Lies(b, rs) ==> Lies(c, rs)
    ensures End(c) == End(b) && EndsRegion(b, rs) ==> EndsRegion(c, rs)
  {
    if Lies(b, rs) {
      var k :| 0 <= k < |rs| && LiesIn(b, rs[k]);
      assert LiesIn(c, rs[k]);
    }
    if EndsRegion(b, rs) && End(c) == End(b) {
      var k :| 0 <= k < |rs| && LiesIn(b, rs[k]) && End(b) == rs[k].hi;
      assert LiesIn(c, rs[k]);
    }
  }

  lemma SetFreeFitted(bs: seq<Block>, rs: seq<Region>, i: nat, free: bool)
    requires i < |bs| && Fitted(bs, rs)
    ensures Fitted(SetFree(bs, i, free), rs)
  {
    var mid := [bs[i].(free := free)];
    PartLies(bs[i], mid[0], rs);
    ReplaceFitted(bs, rs, i, 1, mid);
  }

  lemma SplitFitted(bs: seq<Block>, rs: seq<Region>, i: nat, n: nat)
    requires i < |bs| && n + 40 <= bs[i].size && Fitted(bs, rs)
    ensures Fitted(Split(bs, i, n), rs)
  {
    hide Replace, Lies, EndsRegion, Separate;
    var b := bs[i];
    var x, y := b.(size := n), Block(b.addr + 40 + n, b.size - n - 40, true);
    PartLies(b, x, rs);
    PartLies(b, y, rs);
    var mid := [x, y];
    assert mid[0] == x && mid[1] == y;
    ReplaceFitted(bs, rs, i, 1, mid);
  }

  lemma AllocatedFitted(bs: seq<Block>, rs: seq<Region>, i: nat, n: nat)
    requires Fitted(bs, rs)
    ensures Fitted(Allocated(bs, i, n), rs)
  {
    hide Fitted, SetFree, Split;
    if i < |bs| {
      if bs[i].size >= n + 104 {
        SplitSeq(bs, i, n);
        SplitFitted(bs, rs, i, n);
        SetFreeFitted(Split(bs, i, n), rs, i, false);
      } else {
        SetFreeFitted(bs, rs, i, false);
      }
    }
  }

  /** A block that starts in a region and ends behind it lies in none. */
  lemma SticksOut(b: Block, rs: seq<Region>, k: nat)
    requires Separate(rs) && k < |rs| && rs[k].lo <= b.addr < rs[k].hi < End(b)
    ensures !Lies(b, rs)
  {
    forall l | 0 <= l < |rs|
      ensures !LiesIn(b, rs[l])
    {
      if l < k {
        assert rs[l].hi < rs[k].lo;
      } else if k < l {
        assert rs[k].hi < rs[l].lo;
      }
    }
  }

  lemma OneRegion(a: Block, b: Block, rs: seq<Region>, k: nat, l: nat)
    requires Separate(rs) && k < |rs| && l < |rs| && LiesIn(a, rs[k]) && LiesIn(b, rs[l]) && End(a) == b.addr
    ensures k == l && (forall m :: 0 <= m < |rs| && LiesIn(b, rs[m]) ==> m == k)
  {
    RegionOf(a, b, rs, k, l);
    forall m | 0 <= m < |rs| && LiesIn(b, rs[m])
      ensures m == k
    {
      RegionOf(a, b, rs, k, m);
    }
  }

  lemma RegionOf(a: Block, b: Block, rs: seq<Region>, k: nat, l: nat)
    requires Separate(rs) && k < |rs| && l < |rs| && LiesIn(a, rs[k]) && LiesIn(b, rs[l]) && End(a) == b.addr
    ensures k == l
  {
  }

  /** Touching blocks of two regions do not exist, so they can be merged. */
  lemma MergeLies(a: Block, b: Block, rs: seq<Region>)
    requires Separate(rs) && Lies(a, rs) && Lies(b, rs) && End(a) == b.addr
    ensures Lies(Merge(a, b), rs) && (EndsRegion(b, rs) ==> EndsRegion(Merge(a, b), rs))
  {
    var k :| 0 <= k < |rs| && LiesIn(a, rs[k]);
    var l :| 0 <= l < |rs| && LiesIn(b, rs[l]);
    OneRegion(a, b, rs, k, l);
    hide Separate;
    assert LiesIn(Merge(a, b), rs[k]);
  }

  /** Merging over the end of a region leaves it; so does taking such a block in. */
  lemma MergeLeaves(a: Block, b: Block, rs: seq<Region>)
    requires Separate(rs) && EndsRegion(a, rs)
    ensures !Lies(Merge(a, b), rs)
  {
    var k :| 0 <= k < |rs| && LiesIn(a, rs[k]) && End(a) == rs[k].hi;
    SticksOut(Merge(a, b), rs, k);
  }

  lemma MergeOutside(a: Block, b: Block, c: Block, rs: seq<Region>)
    requires Separate(rs) && EndsRegion(b, rs) && Lies(a, rs) && End(a) == b.addr
    ensures !Lies(Merge(a, Merge(b, c)), rs)
  {
    EndLies(b, rs);
    MergeLies(a, b, rs);
    var k :| 0 <= k < |rs| && LiesIn(Merge(a, b), rs[k]) && End(Merge(a, b)) == rs[k].hi;
    SticksOut(Merge(a, Merge(b, c)), rs, k);
  }

  lemma EndLies(b: Block, rs: seq<Region>)
    requires EndsRegion(b, rs)
    ensures Lies(b, rs)
  {
  }

  lemma AbsorbFitted(bs: seq<Block>, rs: seq<Region>, i: nat)
    requires i + 1 < |bs| && Fitted(bs, rs) && End(bs[i]) == bs[i + 1].addr
    ensures Fitted(Absorb(bs, i), rs)
  {
    hide Replace, Lies, EndsRegion, Separate;
    var mid := [Merge(bs[i], bs[i + 1])];
    MergeLies(bs[i], bs[i + 1], rs);
    assert mid[0] == Merge(bs[i], bs[i + 1]);
    ReplaceFitted(bs, rs, i, 2, mid);
  }

  lemma AbsorbLeaves(bs: seq<Block>, rs: seq<Region>, i: nat)
    requires i + 1 < |bs| && Fitted(bs, rs) && End(bs[i]) != bs[i + 1].addr
    ensures EndsRegion(bs[i], rs) && |Absorb(bs, i)| == |bs| - 1 && !Lies(Absorb(bs, i)[i], rs)
  {
    hide Absorb, EndsRegion, Lies, Separate;
    AbsorbSeq(bs, i);
    assert Seam(bs[i], bs[i + 1], rs);
    MergeLeaves(bs[i], bs[i + 1], rs);
  }

  /** The free list neighbours of block `i` touch it. */
  ghost predicate NeighboursTouch(bs: seq<Block>, i: nat)
    requires i < |bs|
  {
    && (i + 1 < |bs| && bs[i + 1].free ==> End(bs[i]) == bs[i + 1].addr)
    && (0 < i && bs[i - 1].free ==> End(bs[i - 1]) == bs[i].addr)
  }

  /** After a free every block lies in the heap's memory exactly when the free neighbours touched. */
  lemma FreedFitted(bs: seq<Block>, rs: seq<Region>, i: nat)
    requires i < |bs| && Fitted(bs, rs)
    ensures NeighboursTouch(bs, i) ==> Fitted(Freed(bs, i), rs)
    ensures Housed(Freed(bs, i), rs) <==> NeighboursTouch(bs, i)
  {
    hide SetFree, Absorb, Fitted, Lies, Separate;
    SetFreeSeq(bs, i, true);
    SetFreeFitted(bs, rs, i, true);
    var set' := SetFree(bs, i, true);
    if i + 1 < |bs| && bs[i + 1].free && End(bs[i]) != bs[i + 1].addr {
      NextLeaves(set', rs, i);
    } else {
      if i + 1 < |bs| && bs[i + 1].free {
        AbsorbSeq(set', i);
        AbsorbFitted(set', rs, i);
      }
      PrevFitted(MergedNext(set', i), rs, i);
    }
  }

  lemma PrevFitted(bs: seq<Block>, rs: seq<Region>, i: nat)
    requires i < |bs| && Fitted(bs, rs)
    ensures var touch := 0 < i && bs[i - 1].free ==> End(bs[i - 1]) == bs[i].addr;
            && (touch ==> Fitted(MergedPrev(bs, i), rs) && Housed(MergedPrev(bs, i), rs))
            && (!touch ==> !Housed(MergedPrev(bs, i), rs))
  {
    hide Absorb, Lies, Separate, Seam;
    if 0 < i && bs[i - 1].free {
      AbsorbSeq(bs, i - 1);
      if End(bs[i - 1]) == bs[i].addr {
        AbsorbFitted(bs, rs, i - 1);
      } else {
        AbsorbLeaves(bs, rs, i - 1);
      }
    }
  }

  lemma NextLeaves(bs: seq<Block>, rs: seq<Region>, i: nat)
    requires i + 1 < |bs| && Fitted(bs, rs) && bs[i + 1].free && End(bs[i]) != bs[i + 1].addr
    ensures !Housed(Coalesced(bs, i), rs)
  {
    hide Absorb, Lies, Separate, EndsRegion;
    AbsorbSeq(bs, i);
    AbsorbLeaves(bs, rs, i);
    var next := Absorb(bs, i);
    if 0 < i && bs[i - 1].free {
      AbsorbSeq(next, i - 1);
      assert Seam(bs[i - 1], bs[i], rs);
      if End(bs[i - 1]) == bs[i].addr {
        MergeOutside(bs[i - 1], bs[i], bs[i + 1], rs);
      } else {
        MergeLeaves(bs[i - 1], next[i], rs);
      }
      assert !Lies(Absorb(next, i - 1)[i - 1], rs);
    }
  }

  lemma GivenSeparate(rs: seq<Region>, lo: nat, len: nat)
    requires Separate(rs) && Top(rs) <= lo && len > 0
    ensures Separate(Given(rs, lo, len)) && Top(Given(rs, lo, len)) == lo + len
    ensures forall b :: Lies(b, rs) ==> Lies(b, Given(rs, lo, len))
  {
    var rs' := Given(rs, lo, len);
    forall b | Lies(b, rs)
      ensures Lies(b, rs')
    {
      var k :| 0 <= k < |rs| && LiesIn(b, rs[k]);
      assert LiesIn(b, rs'[k]);
    }
    assert forall k :: 0 <= k < |rs| - 1 ==> rs[k].hi < rs[|rs| - 1].lo;
  }

  lemma AppendFitted(bs: seq<Block>, rs: seq<Region>, b: Block)
    requires Fitted(bs, rs) && Ordered(bs) && Top(rs) <= b.addr
    ensures Fitted(bs + [b], Given(rs, b.addr, b.size + 40))
  {
    hide Seam, Lies, Separate, Given;
    var rs' := Given(rs, b.addr, b.size + 40);
    var n := |bs| - 1;
    GivenSeparate(rs, b.addr, b.size + 40);
    GivenLies(rs, b);
    var more := bs + [b];
    forall i | 0 <= i < |more| - 1
      ensures Seam(more[i], more[i + 1], rs')
    {
      if i < n {
        assert Seam(bs[i], bs[i + 1], rs);
        SeamKept(bs, rs, i, b);
      } else {
        LastSeam(bs, rs, b);
      }
    }
  }

  lemma GivenLies(rs: seq<Region>, b: Block)
    requires Separate(rs) && Top(rs) <= b.addr
    ensures Lies(b, Given(rs, b.addr, b.size + 40))
  {
    var rs' := Given(rs, b.addr, b.size + 40);
    assert LiesIn(b, rs'[|rs'| - 1]);
  }

  lemma BelowTop(rs: seq<Region>, k: nat)
    requires Separate(rs) && k < |rs|
    ensures rs[k].hi <= Top(rs) && (rs[k].hi == Top(rs) ==> k == |rs| - 1)
  {
    if k < |rs| - 1 {
      assert rs[k].hi < rs[|rs| - 1].lo;
    }
  }

  lemma SeamKept(bs: seq<Block>, rs: seq<Region>, i: nat, b: Block)
    requires Fitted(bs, rs) && Ordered(bs) && Top(rs) <= b.addr && i + 1 < |bs| && Seam(bs[i], bs[i + 1], rs)
    ensures Seam(bs[i], bs[i + 1], Given(rs, b.addr, b.size + 40))
  {
    hide Separate;
    if End(bs[i]) != bs[i + 1].addr {
      var k :| 0 <= k < |rs| && LiesIn(bs[i], rs[k]) && End(bs[i]) == rs[k].hi;
      var l :| 0 <= l < |rs| && LiesIn(bs[i + 1], rs[l]);
      BelowTop(rs, k);
      BelowTop(rs, l);
      var rs' := Given(rs, b.addr, b.size + 40);
      assert rs'[k] == rs[k];
    }
  }

  lemma LastSeam(bs: seq<Block>, rs: seq<Region>, b: Block)
    requires Fitted(bs, rs) && Top(rs) <= b.addr
    ensures Seam(bs[|bs| - 1], b, Given(rs, b.addr, b.size + 40))
  {
    hide Separate;
    var last := bs[|bs| - 1];
    if b.addr != Top(rs) {
      var l :| 0 <= l < |rs| && LiesIn(last, rs[l]);
      BelowTop(rs, l);
      var rs' := Given(rs, b.addr, b.size + 40);
      assert rs'[l] == rs[l];
    }
  }
}
