/**
 * Cluster chains inside a table of next-pointers, for arbitrary tables (cyclic, rho-shaped and
 * dangling ones included) and for the well-formed ones.
 */
module Fat32Chain {
  import opened Fat32Layout

  /** `fat32_get_next_cluster` on the table. */
  function NextOf(fat: seq<nat>, c: nat): nat
  {
    if 2 <= c < |fat| then fat[c] else EOC_MAX
  }

  /** The guard of every chain-walking loop. */
  predicate Walkable(c: nat) { 2 <= c < EOC_MIN }

  /** Following `k` links from `s` leads to `c`. */
  ghost predicate WalkTo(fat: seq<nat>, s: nat, k: nat, c: nat)
    decreases k
  {
    if k == 0 then s == c else Walkable(s) && WalkTo(fat, NextOf(fat, s), k - 1, c)
  }

  ghost predicate Meets(fat: seq<nat>, s: nat, c: nat)
  {
    exists k: nat :: WalkTo(fat, s, k, c)
  }

  /** The in-range clusters that a walk from `s` meets. */
  ghost function Reach(fat: seq<nat>, s: nat): set<nat>
  {
    set c | 2 <= c < |fat| && Meets(fat, s, c)
  }

  /** The table with a set of entries freed. */
  ghost function Freed(fat: seq<nat>, v: set<nat>): (r: seq<nat>)
    ensures |r| == |fat|
    ensures forall c :: 0 <= c < |fat| ==> r[c] == if c in v then FREE else fat[c]
  {
    seq(|fat|, c requires 0 <= c < |fat| => if c in v then FREE else fat[c])
  }

  /** The entries in range that are not free: the measure of the freeing loop. */
  ghost function NonFree(fat: seq<nat>): set<nat>
  {
    set c | 2 <= c < |fat| && fat[c] != FREE
  }

  lemma FreedStart(fat: seq<nat>, s: nat)
    ensures Freed(fat, {}) == fat && WalkTo(fat, s, 0, s)
  {
  }

  lemma FreedOne(fat: seq<nat>, v: set<nat>, c: nat)
    requires c < |fat|
    ensures Freed(fat, v)[c := FREE] == Freed(fat, v + {c})
  {
  }

  /** Freeing an entry that was not free makes the measure smaller. */
  lemma FewerNonFree(fat: seq<nat>, c: nat)
    requires 2 <= c < |fat|
    ensures fat[c] != FREE ==> NonFree(fat[c := FREE]) < NonFree(fat)
    ensures fat[c] == FREE ==> fat[c := FREE] == fat
  {
    assert fat[c] != FREE ==> c in NonFree(fat) && c !in NonFree(fat[c := FREE]);
  }

  lemma SomeReach(fat: seq<nat>, s: nat, v: set<nat>)
    requires forall x :: x in v ==> 2 <= x < |fat| && Meets(fat, s, x)
    ensures v <= Reach(fat, s)
  {
  }

  /** One more link at the end of a walk. */
  lemma {:induction false} WalkStep(fat: seq<nat>, s: nat, k: nat, c: nat)
    requires WalkTo(fat, s, k, c) && Walkable(c)
    ensures WalkTo(fat, s, k + 1, NextOf(fat, c))
    decreases k
  {
    if k == 0 {
      assert WalkTo(fat, NextOf(fat, s), 0, NextOf(fat, c));
    } else {
      WalkStep(fat, NextOf(fat, s), k - 1, c);
    }
  }

  /** A set closed under the links, containing where the walk starts, contains all it meets. */
  lemma {:induction false} WalkStaysInside(fat: seq<nat>, v: set<nat>, s: nat, k: nat, c: nat)
    requires |fat| <= EOC_MIN
    requires WalkTo(fat, s, k, c) && 2 <= c < |fat|
    requires 2 <= s < |fat| ==> s in v
    requires forall x :: x in v ==> 2 <= x < |fat| && (2 <= NextOf(fat, x) < |fat| ==> NextOf(fat, x) in v)
    ensures c in v
    decreases k
  {
    if k > 0 {
      WalkStaysInside(fat, v, NextOf(fat, s), k - 1, c);
    }
  }

  lemma ReachIs(fat: seq<nat>, s: nat, v: set<nat>)
    requires |fat| <= EOC_MIN
    requires 2 <= s < |fat| ==> s in v
    requires forall x :: x in v ==> 2 <= x < |fat| && (2 <= NextOf(fat, x) < |fat| ==> NextOf(fat, x) in v)
    requires forall x :: x in v ==> Meets(fat, s, x)
    ensures v == Reach(fat, s)
  {
    forall c | c in Reach(fat, s)
      ensures c in v
    {
      var k: nat :| WalkTo(fat, s, k, c);
      WalkStaysInside(fat, v, s, k, c);
    }
  }
}
