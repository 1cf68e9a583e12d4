/** Counting the free clusters of a table. */
module Fat32Free {
  import opened Fat32Layout
  import opened Fat32Chain
  import opened Fat32State
  import opened Fat32Moves

  ghost predicate NoneFree(g: Geometry, fat: seq<nat>)
  {
    forall x :: InRange(g, x) && x < |fat| ==> fat[x] != FREE
  }

  ghost predicate FreeAt(g: Geometry, fat: seq<nat>, x: int) { InRange(g, x) && x < |fat| && fat[x] == FREE }

  /** How many clusters are free. */
  ghost function FreeCount(g: Geometry, fat: seq<nat>): nat { |FreeSet(g, fat)| }

  ghost function FreeSet(g: Geometry, fat: seq<nat>): set<nat> { set x: nat | x < |fat| && FreeAt(g, fat, x) }

  lemma CountNone(g: Geometry, fat: seq<nat>)
    ensures NoneFree(g, fat) <==> FreeCount(g, fat) == 0
  {
    if NoneFree(g, fat) {
      assert FreeSet(g, fat) == {};
    } else {
      var x :| InRange(g, x) && x < |fat| && fat[x] == FREE;
      assert x in FreeSet(g, fat);
    }
  }

  /** Marking a free cluster and linking it behind a used one takes one from the count. */
  lemma CountTaken(g: Geometry, fat: seq<nat>, n: nat, last: nat)
    requires FreeAt(g, fat, n) && last < |fat| && fat[last] != FREE
    ensures FreeCount(g, fat) == FreeCount(g, fat[n := EOC_MAX][last := n]) + 1
  {
    var after := fat[n := EOC_MAX][last := n];
    assert n in FreeSet(g, fat);
    assert FreeSet(g, after) == FreeSet(g, fat) - {n};
  }

  lemma CountMarked(g: Geometry, fat: seq<nat>, n: nat)
    requires FreeAt(g, fat, n)
    ensures FreeCount(g, fat) == FreeCount(g, fat[n := EOC_MAX]) + 1
  {
    assert n in FreeSet(g, fat);
    assert FreeSet(g, fat[n := EOC_MAX]) == FreeSet(g, fat) - {n};
  }

  /** Two free clusters are there exactly when the count says so. */
  lemma CountTwo(g: Geometry, fat: seq<nat>)
    ensures FreeCount(g, fat) <= 1 <==> forall x, y :: FreeAt(g, fat, x) && FreeAt(g, fat, y) ==> x == y
  {
    var free := FreeSet(g, fat);
    if FreeCount(g, fat) <= 1 {
      forall x, y | FreeAt(g, fat, x) && FreeAt(g, fat, y)
        ensures x == y
      {
        assert x in free && y in free;
        assert |free - {x}| == |free| - 1 && (y != x ==> y in free - {x});
      }
    } else {
      var x :| x in free;
      assert |free - {x}| == |free| - 1;
      var y :| y in free - {x};
      assert FreeAt(g, fat, x) && FreeAt(g, fat, y);
    }
  }

  /** Freeing a chain adds its length to the count. */
  lemma CountFreed(g: Geometry, fat: seq<nat>, h: nat, ch: seq<nat>)
    requires IsChain(g, fat, h, ch) && NoRepeat(ch)
    ensures FreeCount(g, Freed(fat, Clusters(ch))) == FreeCount(g, fat) + |ch|
  {
    DistinctSize(ch);
    assert FreeSet(g, Freed(fat, Clusters(ch))) == FreeSet(g, fat) + Clusters(ch);
    forall i | 0 <= i < |ch|
      ensures fat[ch[i]] != FREE
    {
      assert i < |ch| - 1 ==> fat[ch[i]] == ch[i + 1] && InRange(g, ch[i + 1]);
    }
    assert FreeSet(g, fat) !! Clusters(ch);
  }

  lemma {:induction false} DistinctSize(ch: seq<nat>)
    requires NoRepeat(ch)
    ensures |Clusters(ch)| == |ch|
    decreases |ch|
  {
    if ch == [] {
      assert Clusters(ch) == {};
    } else {
      var n := |ch| - 1;
      DistinctSize(ch[..n]);
      assert Clusters(ch) == Clusters(ch[..n]) + {ch[n]};
      assert ch[n] !in Clusters(ch[..n]);
    }
  }
}
