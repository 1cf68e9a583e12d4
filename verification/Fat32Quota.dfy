/** The clusters every object has and the unused slots every directory has. */
module Fat32Quota {
  import opened Bytes
  import opened Fat32Layout
  import opened Fat32Chain
  import opened Fat32Dir
  import opened Fat32State
  import opened Fat32Moves

  ghost predicate AllLive(slots: seq<Slot>, n: int)
  {
    0 <= n <= |slots| && forall k :: 0 <= k < n ==> IsSlot(slots[k]) && IsLive(slots[k])
  }

  // ---------------------------------------------------------------- unused slots

  ghost function Vacant(s: Slot): nat { if IsSlot(s) && IsLive(s) then 0 else 1 }

  /** How many slots of a directory are unused. */
  ghost function Vacancies(slots: seq<Slot>): nat
  {
    if slots == [] then 0 else Vacant(slots[0]) + Vacancies(slots[1..])
  }

  lemma {:induction false} UnusedAdd(a: seq<Slot>, b: seq<Slot>)
    ensures Vacancies(a + b) == Vacancies(a) + Vacancies(b)
  {
    if a == [] {
      assert a + b == b;
    } else {
      assert (a + b)[1..] == a[1..] + b;
      UnusedAdd(a[1..], b);
    }
  }

  /** Overwriting one slot. */
  lemma UnusedSet(slots: seq<Slot>, p: nat, x: Slot)
    requires p < |slots|
    ensures Vacancies(slots[p := x]) == Vacancies(slots) - Vacant(slots[p]) + Vacant(x)
  {
    hide Vacant;
    UnusedAround(slots, p);
    UnusedAround(slots[p := x], p);
    assert slots[p := x][..p] == slots[..p] && slots[p := x][p + 1..] == slots[p + 1..];
  }

  lemma UnusedAround(slots: seq<Slot>, p: nat)
    requires p < |slots|
    ensures Vacancies(slots) == Vacancies(slots[..p]) + Vacant(slots[p]) + Vacancies(slots[p + 1..])
  {
    hide Vacant;
    var tail := slots[p..];
    assert slots == slots[..p] + tail;
    UnusedAdd(slots[..p], tail);
    assert tail[0] == slots[p] && tail[1..] == slots[p + 1..];
  }

  /** None is unused exactly when all are live. */
  lemma {:induction false} UnusedNone(slots: seq<Slot>)
    ensures Vacancies(slots) == 0 <==> AllLive(slots, |slots|)
  {
    hide IsLive;
    if slots != [] {
      UnusedNone(slots[1..]);
      assert forall k :: 1 <= k < |slots| ==> slots[k] == slots[1..][k - 1];
      assert AllLive(slots, |slots|) <==> Vacant(slots[0]) == 0 && AllLive(slots[1..], |slots| - 1);
    }
  }

  lemma {:induction false} UnusedBlank(slots: seq<Slot>)
    requires forall k :: 0 <= k < |slots| ==> IsSlot(slots[k]) && IsEnd(slots[k])
    ensures Vacancies(slots) == |slots|
  {
    if slots != [] {
      UnusedBlank(slots[1..]);
    }
  }

  // ---------------------------------------------------------------- all objects

  datatype Quota = Quota(lens: map<nat, nat>, unused: map<nat, nat>)

  ghost function QuotaOf(f: Fs): Quota
  {
    Quota(map h | h in f.chains :: |f.chains[h]|, map d | d in f.slots :: Vacancies(f.slots[d]))
  }

  /** The unused slots of a directory; 0 where there is none. */
  function UnusedIn(q: Quota, d: nat): nat { if d in q.unused then q.unused[d] else 0 }

  function LenOf(q: Quota, h: nat): nat { if h in q.lens then q.lens[h] else 0 }

  /** The chain of `h` with another length. */
  function Relength(q: Quota, h: nat, len: nat): Quota { q.(lens := q.lens[h := len]) }

  /** A blank chain of one cluster more. */
  function WithBlank(q: Quota, c: nat): Quota { Relength(q, c, 1) }

  /** Directory `d` one cluster longer, with `per` blank slots more. */
  function Lengthened(q: Quota, d: nat, per: nat): Quota
  {
    Quota(q.lens[d := LenOf(q, d) + 1], q.unused[d := UnusedIn(q, d) + per])
  }

  /** A slot of `d` taken for `c`, which has `per` slots of its own if it is a directory. */
  function AfterTake(q: Quota, d: nat, c: nat, isDir: bool, per: nat): Quota
  {
    var unused := q.unused[d := if UnusedIn(q, d) > 0 then UnusedIn(q, d) - 1 else 0];
    q.(unused := if isDir then unused[c := per] else unused)
  }

  /** What a creation makes of it: the directory grows when it has no unused slot. */
  function AfterMake(q: Quota, d: nat, c: nat, isDir: bool, per: nat): Quota
  {
    var q' := WithBlank(q, c);
    AfterTake(if UnusedIn(q, d) == 0 then Lengthened(q', d, per) else q', d, c, isDir, per)
  }

  /** What a removal makes of it. */
  function AfterRemove(q: Quota, d: nat, h: nat): Quota
  {
    Quota(q.lens - {h}, (q.unused - {h})[d := UnusedIn(q, d) + 1])
  }

  lemma BlankQuota(f: Fs, c: nat)
    ensures QuotaOf(NewChain(f, c)) == WithBlank(QuotaOf(f), c)
  {
    var q, r := QuotaOf(NewChain(f, c)), WithBlank(QuotaOf(f), c);
    assert q.lens == r.lens;
  }

  lemma AttachedQuota(f: Fs, d: nat, p: nat, x: Slot, c: nat, blank: seq<Slot>)
    requires d in f.slots && p < |f.slots[d]| && IsSlot(f.slots[d][p]) && !IsLive(f.slots[d][p]) && c != d
    requires IsSlot(x) && IsLive(x) && forall k :: 0 <= k < |blank| ==> IsSlot(blank[k]) && IsEnd(blank[k])
    ensures QuotaOf(Attached(f, d, p, x, c, blank)) == AfterTake(QuotaOf(f), d, c, Attr(x) == ATTR_DIRECTORY, |blank|)
  {
    hide Vacancies, Attr, IsLive, IsEnd;
    UnusedSet(f.slots[d], p, x);
    UnusedBlank(blank);
    assert Vacant(f.slots[d][p]) == 1 && Vacant(x) == 0;
    var q, r := QuotaOf(Attached(f, d, p, x, c, blank)), AfterTake(QuotaOf(f), d, c, Attr(x) == ATTR_DIRECTORY, |blank|);
    assert q.lens == r.lens;
    assert q.unused == r.unused;
  }

  lemma DetachedQuota(f: Fs, d: nat, p: nat, h: nat)
    requires d in f.slots && p < |f.slots[d]| && IsSlot(f.slots[d][p]) && IsLive(f.slots[d][p]) && h in f.chains && h != d
    ensures QuotaOf(Dropped(Detached(f, d, p, h), h)) == AfterRemove(QuotaOf(f), d, h)
  {
    hide Vacancies, IsLive, Erased;
    var x := Erased(f.slots[d][p]);
    ErasedDead(f.slots[d][p]);
    UnusedSet(f.slots[d], p, x);
    assert Vacant(f.slots[d][p]) == 0 && Vacant(x) == 1;
    var q, r := QuotaOf(Dropped(Detached(f, d, p, h), h)), AfterRemove(QuotaOf(f), d, h);
    assert q.lens == r.lens;
    assert q.unused == r.unused;
  }

  lemma ResizedQuota(f: Fs, d: nat, p: nat, x: Slot)
    requires d in f.slots && p < |f.slots[d]| && IsSlot(f.slots[d][p]) && IsSlot(x)
    requires IsLive(f.slots[d][p]) <==> IsLive(x)
    ensures QuotaOf(ResizedFs(f, d, p, x)) == QuotaOf(f)
  {
    hide Vacancies, IsLive;
    UnusedSet(f.slots[d], p, x);
    assert QuotaOf(ResizedFs(f, d, p, x)).unused == QuotaOf(f).unused;
  }

  /** A chain that changes its length changes nothing else. */
  lemma LongerQuota(f: Fs, f': Fs, h: nat)
    requires f'.slots == f.slots && f'.chains.Keys == f.chains.Keys && h in f.chains
    requires forall k :: k in f.chains && k != h ==> f'.chains[k] == f.chains[k]
    ensures QuotaOf(f') == Relength(QuotaOf(f), h, |f'.chains[h]|)
  {
    hide Vacancies;
    assert QuotaOf(f').lens == QuotaOf(f).lens[h := |f'.chains[h]|];
  }
}
