/**
 * The kernel writes a page table through a fixed offset that covers the first gigabyte of memory:
 * when the frames the page allocator gives lie there.
 */
module FrameReach {
  import opened Numbers
  import opened P = Pmm

  /** The free frames of the first gigabyte, and those above it. */
  ghost function LowFree(used: set<nat>, total: nat): set<nat>
  {
    Range(0, Min(total, 262144)) - used
  }

  ghost predicate HighFree(used: set<nat>, total: nat)
  {
    exists f: nat :: 262144 <= f < total && f !in used
  }

  /** The next `m` pages that `pmm_alloc` gives lie in the first gigabyte, as far as it gives any. */
  ghost predicate Served(used: set<nat>, total: nat, m: nat)
    decreases m
  {
    m == 0 || forall p: nat :: Lowest(used, total, 1, p) ==> p < 262144 && Served(used + {p}, total, m - 1)
  }

  /** That is so exactly when enough low frames are free, or no high one is. */
  lemma {:induction false} ServedIs(used: set<nat>, total: nat, m: nat)
    ensures Served(used, total, m) <==> m <= |LowFree(used, total)| || !HighFree(used, total)
    decreases m
  {
    hide LowFree, HighFree, Lowest;
    if m > 0 {
      SomeLowest(used, total);
      forall p: nat | Lowest(used, total, 1, p)
        ensures p < 262144 ==> |LowFree(used + {p}, total)| == |LowFree(used, total)| - 1
        ensures p < 262144 ==> (HighFree(used + {p}, total) <==> HighFree(used, total))
        ensures p >= 262144 ==> LowFree(used, total) == {} && HighFree(used, total)
        ensures Served(used + {p}, total, m - 1) <==> m - 1 <= |LowFree(used + {p}, total)| || !HighFree(used + {p}, total)
      {
        LowestTaken(used, total, p);
        ServedIs(used + {p}, total, m - 1);
      }
    }
  }

  /** There is a lowest free page unless all are used. */
  lemma SomeLowest(used: set<nat>, total: nat)
    ensures HighFree(used, total) || LowFree(used, total) != {} ==> exists p: nat :: Lowest(used, total, 1, p)
    ensures forall p, q :: Lowest(used, total, 1, p) && Lowest(used, total, 1, q) ==> p == q
  {
    hide Lowest;
    var p := 0;
    while p < total && p in used
      invariant p <= total && forall q: nat :: q < p ==> q in used
    {
      p := p + 1;
    }
    if p < total {
      LowestIs(used, total, p);
    }
    forall p, q | Lowest(used, total, 1, p) && Lowest(used, total, 1, q)
      ensures p == q
    {
      LowestIs(used, total, p);
      LowestIs(used, total, q);
    }
  }

  lemma LowestIs(used: set<nat>, total: nat, p: nat)
    ensures Lowest(used, total, 1, p) <==> p < total && p !in used && forall q: nat :: q < p ==> q in used
  {
    assert FreeRun(used, p, 1) <==> p !in used;
    forall q: nat
      ensures FreeRun(used, q, 1) <==> q !in used
    {
      assert FreeRun(used, q, 1) ==> q + 0 !in used;
    }
  }

  lemma LowestTaken(used: set<nat>, total: nat, p: nat)
    requires Lowest(used, total, 1, p)
    ensures p < 262144 ==> |LowFree(used + {p}, total)| == |LowFree(used, total)| - 1
    ensures p < 262144 ==> (HighFree(used + {p}, total) <==> HighFree(used, total))
    ensures p >= 262144 ==> LowFree(used, total) == {} && HighFree(used, total)
  {
    hide Lowest;
    LowestIs(used, total, p);
    if p < 262144 {
      assert LowFree(used + {p}, total) == LowFree(used, total) - {p} && p in LowFree(used, total);
    }
  }

  /** The table that `pmm_alloc` gives is reached exactly when a low frame is free. */
  lemma TableInReach(used: set<nat>, total: nat, p: nat)
    requires Lowest(used, total, 1, p)
    ensures p < 262144 <==> LowFree(used, total) != {}
  {
    hide Lowest;
    LowestIs(used, total, p);
    assert p < 262144 ==> p in LowFree(used, total);
  }

  lemma ServedNext(used: set<nat>, total: nat, m: nat, p: nat)
    requires Served(used, total, m + 1) && Lowest(used, total, 1, p)
    ensures p < 262144 && Served(used + {p}, total, m)
  {
    hide Lowest;
  }

  /** Memory of one gigabyte, or few used pages, are enough. */
  lemma ServedWhen(used: set<nat>, total: nat, m: nat)
    requires total <= 262144 || |used| + m <= 262144
    ensures Served(used, total, m)
  {
    hide Served;
    ServedIs(used, total, m);
    if HighFree(used, total) {
      RangeSize(0, 262144);
      LeftOver(Range(0, 262144), used);
    }
  }

  /** The same once a run of pages was taken. */
  lemma RunServed(used: set<nat>, total: nat, pages: nat, m: nat)
    requires pages <= total ==> total <= 262144 || |used| + pages + m <= 262144
    ensures forall s: nat :: Lowest(used, total, pages, s) ==> Served(used + Range(s, pages), total, m)
  {
    hide Served, Range;
    forall s: nat | Lowest(used, total, pages, s)
      ensures Served(used + Range(s, pages), total, m)
    {
      RangeSize(s, pages);
      AtMost(used, Range(s, pages));
      ServedWhen(used + Range(s, pages), total, m);
    }
  }

  lemma FreeNext(used: set<nat>, i: nat)
    ensures |LowFree(used, i + 1)| == |LowFree(used, i)| + if i < 262144 && i !in used then 1 else 0
    ensures HighFree(used, i + 1) <==> HighFree(used, i) || (i >= 262144 && i !in used)
  {
    if i < 262144 && i !in used {
      assert LowFree(used, i + 1) == LowFree(used, i) + {i};
    } else {
      assert LowFree(used, i + 1) == LowFree(used, i);
    }
  }

  /** What would be free, low and high, once the run of pages was taken. */
  method FreeBeside(pmm: Pmm, s: nat, pages: nat) returns (low: nat, high: bool)
    requires pmm.Valid()
    ensures low == |LowFree(pmm.used + Range(s, pages), pmm.totalPages)|
    ensures high <==> HighFree(pmm.used + Range(s, pages), pmm.totalPages)
  {
    hide LowFree, HighFree, Marked;
    low, high := 0, false;
    ghost var used := pmm.used + Range(s, pages);
    NoneFreeYet(used);
    for i := 0 to pmm.totalPages
      invariant low == |LowFree(used, i)| && (high <==> HighFree(used, i))
    {
      FreeNext(used, i);
      var taken := pmm.BitmapTest(i);
      if !taken && !Within(i, s, pages) {
        if i < 262144 {
          low := low + 1;
        } else {
          high := true;
        }
      }
    }
  }

  lemma NoneFreeYet(used: set<nat>)
    ensures LowFree(used, 0) == {} && !HighFree(used, 0)
  {
  }

  /** Decide, before a run of pages is taken, whether the `m` tables after it will be reached. */
  method RunReached(pmm: Pmm, pages: nat, m: nat) returns (yes: bool)
    requires pmm.Valid() && (pages == 0 ==> m == 0)
    ensures yes <==> forall r: nat :: Lowest(pmm.used, pmm.totalPages, pages, r) ==> Served(pmm.used + Range(r, pages), pmm.totalPages, m)
  {
    hide Pmm.Valid, Range, Lowest;
    if pages == 0 {
      return true;
    }
    var s := pmm.FindFreePages(pages);
    if s == -1 {
      NoLowest(pmm.used, pmm.totalPages, pages);
      return true;
    }
    var low, high := FreeBeside(pmm, s, pages);
    yes := m <= low || !high;
    hide Served;
    ServedIs(pmm.used + Range(s, pages), pmm.totalPages, m);
    forall r: nat | Lowest(pmm.used, pmm.totalPages, pages, r)
      ensures r == s
    {
      LowestOnce(pmm.used, pmm.totalPages, pages, r, s);
    }
  }

  lemma NoLowest(used: set<nat>, total: nat, pages: nat)
    requires NoRun(used, total, pages)
    ensures forall r: nat :: !Lowest(used, total, pages, r)
  {
  }

  lemma LowestOnce(used: set<nat>, total: nat, pages: nat, r: nat, s: nat)
    requires Lowest(used, total, pages, r) && Lowest(used, total, pages, s)
    ensures r == s
  {
  }

  lemma AtMost(a: set<nat>, b: set<nat>)
    ensures |a + b| <= |a| + |b|
  {
    assert |a + b| == |a| + |b| - |a * b|;
  }

  lemma {:induction false} LeftOver(a: set<nat>, b: set<nat>)
    ensures |a - b| >= |a| - |b|
    decreases b
  {
    if b != {} {
      var x :| x in b;
      LeftOver(a, b - {x});
      assert a - b == (a - (b - {x})) - {x};
    } else {
      assert a - b == a;
    }
  }
}
