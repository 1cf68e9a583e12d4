/**
 * Four-level page tables as data: table entries, the path of an address, the walk, and the shape
 * every reachable set of tables has (section 4.5 of the Intel SDM, volume 3A).
 */
module PageWalk {
  // ---- Entries -----------------------------------------------------------------------------

  /** Bitwise or. */
  function BitOr(a: nat, b: nat): nat
    decreases a + b
  {
    if a == 0 then b else if b == 0 then a else
      2 * BitOr(a / 2, b / 2) + if a % 2 == 1 || b % 2 == 1 then 1 else 0
  }

  lemma OrHalves(a: nat, b: nat)
    ensures BitOr(a, b) / 2 == BitOr(a / 2, b / 2)
    ensures BitOr(a, b) % 2 == if a % 2 == 1 || b % 2 == 1 then 1 else 0
  {
  }

  lemma OrSixteenths(a: nat, b: nat)
    ensures BitOr(a, b) / 16 == BitOr(a / 16, b / 16)
  {
    hide BitOr;
    OrHalves(a, b);
    OrHalves(a / 2, b / 2);
    OrHalves(a / 4, b / 4);
    OrHalves(a / 8, b / 8);
  }

  /** Or works on the page number apart from the offset. */
  lemma OrPage(a: nat, b: nat)
    ensures BitOr(a, b) / 4096 == BitOr(a / 4096, b / 4096)
  {
    hide BitOr;
    OrSixteenths(a, b);
    OrSixteenths(a / 16, b / 16);
    OrSixteenths(a / 16 / 16, b / 16 / 16);
    Sixteens(a);
    Sixteens(b);
    Sixteens(BitOr(a, b));
  }

  lemma Sixteens(x: nat)
    ensures x / 16 / 16 / 16 == x / 4096
  {
  }

  /** No bit is set in both. */
  predicate Disjoint(a: nat, b: nat)
  {
    a == 0 || b == 0 || ((a % 2 == 0 || b % 2 == 0) && Disjoint(a / 2, b / 2))
  }

  lemma {:induction false} OrDisjoint(a: nat, b: nat)
    requires Disjoint(a, b)
    ensures BitOr(a, b) == a + b
  {
    if a != 0 && b != 0 {
      OrDisjoint(a / 2, b / 2);
    }
  }

  lemma ShiftDisjoint(x: nat, b: nat)
    requires Disjoint(x, b / 16)
    ensures Disjoint(16 * x, b)
  {
    hide Disjoint;
    DoubleDisjoint(x, b / 8);
    DoubleDisjoint(2 * x, b / 4);
    DoubleDisjoint(4 * x, b / 2);
    DoubleDisjoint(8 * x, b);
  }

  lemma DoubleDisjoint(x: nat, b: nat)
    requires Disjoint(x, b / 2)
    ensures Disjoint(2 * x, b)
  {
  }

  /** On a page address, or-ing in a page offset adds it. */
  lemma OrOffset(a: nat, b: nat)
    requires a % 4096 == 0 && b < 4096
    ensures BitOr(a, b) == a + b
  {
    hide Disjoint, BitOr;
    var x := a / 4096;
    assert Disjoint(x, b / 4096) by {
      NoneDisjoint(x);
    }
    ShiftDisjoint(x, b / 256);
    ShiftDisjoint(16 * x, b / 16);
    ShiftDisjoint(256 * x, b);
    OrDisjoint(a, b);
  }

  /** The same for a 2 MiB page. */
  lemma OrBig(x: nat, b: nat)
    requires b < 0x20_0000
    ensures BitOr(x * 0x20_0000, b) == x * 0x20_0000 + b
  {
    hide Disjoint, BitOr;
    assert Disjoint(2 * x, b / 0x10_0000) by {
      EvenDisjoint(x, b / 0x10_0000);
    }
    ShiftDisjoint(2 * x, b / 0x1_0000);
    ShiftDisjoint(0x20 * x, b / 0x1000);
    ShiftDisjoint(0x200 * x, b / 0x100);
    ShiftDisjoint(0x2000 * x, b / 0x10);
    ShiftDisjoint(0x2_0000 * x, b);
    OrDisjoint(x * 0x20_0000, b);
  }

  lemma EvenDisjoint(x: nat, b: nat)
    requires b < 2
    ensures Disjoint(2 * x, b)
  {
  }

  lemma NoneDisjoint(x: nat)
    ensures Disjoint(x, 0)
  {
  }

  predicate Present(e: nat)
  {
    e % 2 == 1
  }

  predicate Huge(e: nat)
  {
    e / 128 % 2 == 1
  }

  /** The entry `vmm_map` stores. */
  function Pte(phys: nat, flags: nat): nat
  {
    BitOr(BitOr(phys - phys % 4096, flags), 1)
  }

  /** It is present, and names the frame exactly when the flags put no foreign bit above the offset. */
  lemma PteFrame(phys: nat, flags: nat)
    ensures Present(Pte(phys, flags)) && Pte(phys, flags) / 4096 == BitOr(phys / 4096, flags / 4096)
    ensures flags < 4096 ==> Pte(phys, flags) / 4096 == phys / 4096
  {
    hide BitOr;
    var base: nat := phys - phys % 4096;
    var x := BitOr(base, flags);
    assert base / 4096 == phys / 4096;
    OrPage(base, flags);
    OrPresent(x);
    OrNone(phys / 4096);
  }

  // ---- Single bits -------------------------------------------------------------------------

  /** Bit `k` is set. */
  predicate HasBit(x: nat, k: nat)
  {
    if k == 0 then x % 2 == 1 else HasBit(x / 2, k - 1)
  }

  /** Or, bit by bit. */
  lemma {:induction false} OrBit(a: nat, b: nat, k: nat)
    ensures HasBit(BitOr(a, b), k) <==> HasBit(a, k) || HasBit(b, k)
    decreases k
  {
    hide BitOr;
    OrHalves(a, b);
    if k > 0 {
      OrBit(a / 2, b / 2, k - 1);
    }
  }

  lemma {:induction false} OneBitOf(k: nat)
    ensures HasBit(1, k) <==> k == 0
  {
    if k > 0 {
      NoBits(k - 1);
    }
  }

  lemma {:induction false} NoBits(k: nat)
    ensures !HasBit(0, k)
  {
    if k > 0 {
      NoBits(k - 1);
    }
  }

  lemma ShiftBits(x: nat, k: nat)
    ensures HasBit(16 * x, k) <==> k >= 4 && HasBit(x, k - 4)
    ensures k >= 4 ==> HasBit(x, k) == HasBit(x / 16, k - 4)
  {
    hide HasBit;
    DoubleBit(8 * x, k);
    if k >= 1 { DoubleBit(4 * x, k - 1); }
    if k >= 2 { DoubleBit(2 * x, k - 2); }
    if k >= 3 { DoubleBit(x, k - 3); }
    if k >= 4 {
      HalfBit(x, k);
      HalfBit(x / 2, k - 1);
      HalfBit(x / 4, k - 2);
      HalfBit(x / 8, k - 3);
    }
  }

  lemma DoubleBit(x: nat, k: nat)
    ensures HasBit(2 * x, k) <==> k >= 1 && HasBit(x, k - 1)
  {
  }

  lemma HalfBit(x: nat, k: nat)
    requires k >= 1
    ensures HasBit(x, k) == HasBit(x / 2, k - 1)
  {
  }

  /** Clearing the low twelve bits. */
  lemma PageBits(x: nat, k: nat)
    ensures HasBit(4096 * (x / 4096), k) <==> k >= 12 && HasBit(x, k)
  {
    hide HasBit;
    var y := x / 4096;
    ShiftBits(256 * y, k);
    if k >= 4 { ShiftBits(16 * y, k - 4); }
    if k >= 8 { ShiftBits(y, k - 8); }
    Sixteens(x);
    ShiftBits(x, k);
    if k >= 4 { ShiftBits(x / 16, k - 4); }
    if k >= 8 { ShiftBits(x / 16 / 16, k - 8); }
  }

  /** Every bit of an entry: the present bit, the flags, and from bit 12 on the address. */
  lemma PteBits(phys: nat, flags: nat, k: nat)
    ensures HasBit(Pte(phys, flags), k) <==> k == 0 || HasBit(flags, k) || (k >= 12 && HasBit(phys, k))
  {
    hide BitOr, HasBit;
    var base: nat := phys - phys % 4096;
    PageBase(phys);
    OrBit(BitOr(base, flags), 1, k);
    OrBit(base, flags, k);
    PageBits(phys, k);
    OneBitOf(k);
  }

  /** With flags below 4096: the frame, the flags, and the present bit if they do not have it. */
  lemma PteValue(phys: nat, flags: nat)
    requires flags < 4096
    ensures Pte(phys, flags) == phys - phys % 4096 + flags + 1 - flags % 2
  {
    hide BitOr;
    PageBase(phys);
    var q := phys / 4096;
    OrOffset(4096 * q, flags);
    OrOne(4096 * q + flags);
    Parity(2048 * q, flags);
  }

  lemma PageBase(x: nat)
    ensures x - x % 4096 == 4096 * (x / 4096)
  {
  }

  lemma Parity(a: nat, b: nat)
    ensures (2 * a + b) % 2 == b % 2
  {
  }

  lemma OrOne(x: nat)
    ensures BitOr(x, 1) == x + 1 - x % 2
  {
    OrHalves(x, 1);
    OrNone(x / 2);
  }

  lemma OrPresent(x: nat)
    ensures Present(BitOr(x, 1)) && BitOr(x, 1) / 4096 == x / 4096
  {
    hide BitOr;
    OrHalves(x, 1);
    OrPage(x, 1);
    OrNone(x / 4096);
  }

  lemma OrNone(a: nat)
    ensures BitOr(a, 0) == a
  {
  }

  // ---- Paths -------------------------------------------------------------------------------

  /** The four table indices of an address; bits 48 and up are ignored. */
  datatype Path = Path(a: nat, b: nat, c: nat, d: nat)

  function PathOf(virt: nat): Path
  {
    Path(virt / 0x80_0000_0000 % 512, virt / 0x4000_0000 % 512, virt / 0x20_0000 % 512, virt / 0x1000 % 512)
  }

  /** Addresses have the same path exactly when they are in the same page of the 48-bit space. */
  lemma PathIsPage(v: nat, w: nat)
    ensures PathOf(v) == PathOf(w) <==> v / 4096 % 0x10_0000_0000 == w / 4096 % 0x10_0000_0000
  {
    hide PathOf;
    PageNumber(v);
    PageNumber(w);
    var p, q := PathOf(v), PathOf(w);
    OneDigit((p.a * 512 + p.b) * 512 + p.c, p.d, (q.a * 512 + q.b) * 512 + q.c, q.d);
    OneDigit(p.a * 512 + p.b, p.c, q.a * 512 + q.b, q.c);
    OneDigit(p.a, p.b, q.a, q.b);
  }

  /** Numbers in base 512 are equal exactly when their digits are. */
  lemma OneDigit(x: nat, a: nat, y: nat, b: nat)
    requires a < 512 && b < 512
    ensures x * 512 + a == y * 512 + b <==> x == y && a == b
  {
  }

  lemma PageNumber(v: nat)
    ensures var p := PathOf(v);
            && p.a < 512 && p.b < 512 && p.c < 512 && p.d < 512
            && v / 4096 % 0x10_0000_0000 == ((p.a * 512 + p.b) * 512 + p.c) * 512 + p.d
  {
    var x := v / 4096;
    Nested(v);
    LowOfFour(x);
    LowOfThree(x / 512);
    LowOfTwo(x / 512 / 512);
  }

  /** Dividing step by step. */
  lemma Nested(v: nat)
    ensures v / 0x1000 == v / 4096 && v / 0x20_0000 == v / 4096 / 512
    ensures v / 0x4000_0000 == v / 4096 / 512 / 512 && v / 0x80_0000_0000 == v / 4096 / 512 / 512 / 512
  {
  }

  /** The lowest digit of a number of four, three and two digits. */
  lemma LowOfFour(x: nat)
    ensures x % 0x10_0000_0000 == x / 512 % 0x800_0000 * 512 + x % 512
  {
    var q := x / 512;
    assert x == q / 0x800_0000 * 0x10_0000_0000 + (q % 0x800_0000 * 512 + x % 512);
  }

  lemma LowOfThree(x: nat)
    ensures x % 0x800_0000 == x / 512 % 0x4_0000 * 512 + x % 512
  {
    var q := x / 512;
    assert x == q / 0x4_0000 * 0x800_0000 + (q % 0x4_0000 * 512 + x % 512);
  }

  lemma LowOfTwo(x: nat)
    ensures x % 0x4_0000 == x / 512 % 512 * 512 + x % 512
  {
    var q := x / 512;
    assert x == q / 512 * 0x4_0000 + (q % 512 * 512 + x % 512);
  }

  /** The boot tables share p3 between p4[0] and p4[511], and p2 between p3[0] and p3[510]. */
  function FoldA(a: nat): nat
  {
    if a == 511 then 0 else a
  }

  function FoldB(a: nat, b: nat): nat
  {
    if FoldA(a) == 0 && b == 510 then 0 else b
  }

  /** The address lies in one of the gigabytes that boot maps with 2 MiB pages. */
  predicate AtBoot(p: Path)
  {
    FoldA(p.a) == 0 && FoldB(p.a, p.b) == 0
  }

  /** The same page, up to the sharing of boot tables. */
  predicate Same(p: Path, q: Path)
  {
    FoldA(p.a) == FoldA(q.a) && FoldB(p.a, p.b) == FoldB(q.a, q.b) && p.c == q.c && p.d == q.d
  }

  // ---- The walk ----------------------------------------------------------------------------

  type Tables = map<nat, seq<nat>>

  /** The frame of the table below slot `i` of table `t`; 0 for none. */
  function Down(tables: Tables, t: nat, i: nat): nat
  {
    if t in tables && i < |tables[t]| && Present(tables[t][i]) && !Huge(tables[t][i]) then tables[t][i] / 4096 else 0
  }

  /** The frame of the last-level table on a path; 0 for none. */
  function Pt(tables: Tables, root: nat, p: Path): nat
  {
    Down(tables, Down(tables, Down(tables, root, p.a), p.b), p.c)
  }

  /** The flat page map: the entry of every page, 0 where there is no table. */
  ghost function Entry(tables: Tables, root: nat, p: Path): nat
  {
    var t := Pt(tables, root, p);
    if t in tables && p.d < |tables[t]| then tables[t][p.d] else 0
  }

  /** The same flat page map. */
  ghost predicate SameMap(root: nat, tables: Tables, tables': Tables)
  {
    forall q :: Entry(tables', root, q) == Entry(tables, root, q)
  }

  /** The flat page map with one page changed. */
  ghost predicate OneChanged(root: nat, tables: Tables, tables': Tables, p: Path, e: nat)
  {
    forall q :: Entry(tables', root, q) == if Same(p, q) then e else Entry(tables, root, q)
  }

  // ---- Reachable tables --------------------------------------------------------------------

  datatype Boot = Boot(p4: nat, p3: nat, p2: nat)

  /** Where a table hangs, up to sharing. */
  datatype Home = Top | Level3(a: nat) | Level2(a: nat, b: nat) | Level1(a: nat, b: nat, c: nat)

  function Below(h: Home, i: nat): Home
  {
    match h
    case Top => Level3(FoldA(i))
    case Level3(a) => Level2(a, FoldB(a, i))
    case Level2(a, b) => Level1(a, b, i)
    case Level1(a, b, c) => h
  }

  type Homes = map<nat, Home>

  ghost predicate SlotOk(k: Boot, tables: Tables, homes: Homes, t: nat, i: nat)
    requires t in tables && t in homes && i < |tables[t]|
  {
    var e := tables[t][i];
    if t == k.p2 then e == i * 0x20_0000 + 0x83
    else if homes[t].Level1? then true
    else e == 0 || (e % 4096 == 3 && e / 4096 in tables && e / 4096 in homes && homes[e / 4096] == Below(homes[t], i))
  }

  ghost predicate Sized(tables: Tables, homes: Homes)
  {
    && 0 !in tables && homes.Keys == tables.Keys
    && forall t :: t in tables ==> |tables[t]| == 512
  }

  ghost predicate BootKept(k: Boot, tables: Tables, homes: Homes)
    requires Sized(tables, homes)
  {
    && k.p4 in tables && k.p3 in tables && k.p2 in tables
    && homes[k.p4] == Top && homes[k.p3] == Level3(0) && homes[k.p2] == Level2(0, 0)
    && tables[k.p4][0] == tables[k.p4][511] == k.p3 * 4096 + 3
    && tables[k.p3][0] == tables[k.p3][510] == k.p2 * 4096 + 3
    && forall t :: t in homes ==>
         && (homes[t] == Top ==> t == k.p4) && (homes[t] == Level3(0) ==> t == k.p3)
         && (homes[t] == Level2(0, 0) ==> t == k.p2)
  }

  ghost predicate SlotsOk(k: Boot, tables: Tables, homes: Homes)
    requires Sized(tables, homes)
  {
    forall t, i :: t in tables && 0 <= i < 512 ==> SlotOk(k, tables, homes, t, i)
  }

  ghost predicate Shape(k: Boot, tables: Tables, homes: Homes)
  {
    Sized(tables, homes) && BootKept(k, tables, homes) && SlotsOk(k, tables, homes)
  }

  lemma BootHuge(i: nat)
    ensures Present(i * 0x20_0000 + 0x83) && Huge(i * 0x20_0000 + 0x83)
  {
    Odd(i * 0x10_0000 + 0x41);
    OddAbove(i * 0x2000);
  }

  lemma Odd(x: nat)
    ensures Present(2 * x + 1)
  {
  }

  lemma OddAbove(x: nat)
    ensures Huge((2 * x + 1) * 128 + 3)
  {
  }

  lemma LinkPlain(u: nat, e: nat)
    requires e == u * 4096 + 3
    ensures Present(e) && !Huge(e) && e / 4096 == u && e % 4096 == 3
  {
    assert e / 128 == u * 32;
  }

  lemma LinkIs(e: nat)
    requires e % 4096 == 3
    ensures Present(e) && !Huge(e)
  {
    assert e == e / 4096 * 4096 + 3;
    LinkPlain(e / 4096, e);
  }

  /** A step down leads to the table that hangs there. */
  lemma DownHome(k: Boot, tables: Tables, homes: Homes, t: nat, i: nat)
    requires Shape(k, tables, homes) && (t in tables ==> !homes[t].Level1?)
    ensures var u := Down(tables, t, i);
            u == 0 || (t in tables && i < 512 && t != k.p2 && u in tables && homes[u] == Below(homes[t], i))
  {
    if t in tables && i < 512 {
      assert SlotOk(k, tables, homes, t, i);
      BootHuge(i);
    }
  }

  /** Every last-level table on a path hangs at that path, which is not a boot path. */
  lemma PtHome(k: Boot, tables: Tables, homes: Homes, p: Path)
    requires Shape(k, tables, homes)
    ensures var t := Pt(tables, k.p4, p);
            t == 0 || (t in tables && homes[t] == Level1(FoldA(p.a), FoldB(p.a, p.b), p.c) && !AtBoot(p))
  {
    hide Down, SlotsOk;
    var x := Down(tables, k.p4, p.a);
    DownHome(k, tables, homes, k.p4, p.a);
    var y := Down(tables, x, p.b);
    DownHome(k, tables, homes, x, p.b);
    DownHome(k, tables, homes, y, p.c);
  }

  /** Pages that share boot tables share the walk. */
  lemma SamePt(k: Boot, tables: Tables, homes: Homes, p: Path, q: Path)
    requires Shape(k, tables, homes) && Same(p, q)
    ensures Pt(tables, k.p4, p) == Pt(tables, k.p4, q)
  {
    LinkPlain(k.p3, tables[k.p4][0]);
    LinkPlain(k.p2, tables[k.p3][0]);
    assert Down(tables, k.p4, p.a) == Down(tables, k.p4, q.a);
    assert Down(tables, k.p4, 0) == k.p3;
  }

  // ---- Changes to the tables ---------------------------------------------------------------

  function Blank(): seq<nat>
  {
    seq(512, _ => 0)
  }

  /** A fresh zeroed table `u` linked at slot `i` of `t`. */
  function Grown(tables: Tables, t: nat, i: nat, u: nat): Tables
  {
    Stored(tables[u := Blank()], t, i, u * 4096 + 3)
  }

  ghost predicate CanGrow(k: Boot, tables: Tables, homes: Homes, t: nat, i: nat, u: nat)
  {
    && Shape(k, tables, homes) && t in tables && i < 512 && u != 0 && u !in tables
    && t != k.p2 && !homes[t].Level1? && !Present(tables[t][i])
  }

  lemma GrowShape(k: Boot, tables: Tables, homes: Homes, t: nat, i: nat, u: nat)
    requires CanGrow(k, tables, homes, t, i, u)
    ensures Shape(k, Grown(tables, t, i, u), homes[u := Below(homes[t], i)])
  {
    hide Present;
    var tables', homes' := Grown(tables, t, i, u), homes[u := Below(homes[t], i)];
    LinkPlain(u, u * 4096 + 3);
    LinkPlain(k.p3, k.p3 * 4096 + 3);
    LinkPlain(k.p2, k.p2 * 4096 + 3);
    forall x, j | x in tables' && 0 <= j < 512
      ensures SlotOk(k, tables', homes', x, j)
    {
      if x != u {
        assert SlotOk(k, tables, homes, x, j);
      }
    }
  }

  /** The new walk is the old one, or the old one ended and the new one is at the empty table. */
  lemma GrowDown(k: Boot, tables: Tables, homes: Homes, t: nat, i: nat, u: nat, x: nat, x': nat, j: nat)
    requires CanGrow(k, tables, homes, t, i, u) && (x == 0 || x in tables) && (x' == x || (x == 0 && x' == u))
    ensures var tables' := Grown(tables, t, i, u);
            Down(tables', x', j) == Down(tables, x, j) || (Down(tables, x, j) == 0 && Down(tables', x', j) == u)
    ensures x' == x && (x != t || j != i) ==> Down(Grown(tables, t, i, u), x', j) == Down(tables, x, j)
  {
    LinkPlain(u, u * 4096 + 3);
  }

  /** Growing a table changes no translation at all. */
  lemma GrowMap(k: Boot, tables: Tables, homes: Homes, t: nat, i: nat, u: nat)
    requires CanGrow(k, tables, homes, t, i, u)
    ensures SameMap(k.p4, tables, Grown(tables, t, i, u))
  {
    forall q
      ensures Entry(Grown(tables, t, i, u), k.p4, q) == Entry(tables, k.p4, q)
    {
      GrowEntry(k, tables, homes, t, i, u, q);
    }
  }

  lemma GrowEntry(k: Boot, tables: Tables, homes: Homes, t: nat, i: nat, u: nat, q: Path)
    requires CanGrow(k, tables, homes, t, i, u)
    ensures Entry(Grown(tables, t, i, u), k.p4, q) == Entry(tables, k.p4, q)
  {
    hide Down, SlotsOk;
    var tables' := Grown(tables, t, i, u);
    var x, x' := Down(tables, k.p4, q.a), Down(tables', k.p4, q.a);
    GrowDown(k, tables, homes, t, i, u, k.p4, k.p4, q.a);
    DownHome(k, tables, homes, k.p4, q.a);
    var y, y' := Down(tables, x, q.b), Down(tables', x', q.b);
    GrowDown(k, tables, homes, t, i, u, x, x', q.b);
    DownHome(k, tables, homes, x, q.b);
    GrowDown(k, tables, homes, t, i, u, y, y', q.c);
    PtHome(k, tables, homes, q);
  }

  /** Everything that hung somewhere still hangs there. */
  ghost predicate Extends(tables: Tables, tables': Tables)
  {
    forall x, j :: Down(tables, x, j) != 0 ==> Down(tables', x, j) == Down(tables, x, j)
  }

  lemma GrowExtends(k: Boot, tables: Tables, homes: Homes, t: nat, i: nat, u: nat)
    requires CanGrow(k, tables, homes, t, i, u)
    ensures Extends(tables, Grown(tables, t, i, u)) && Down(Grown(tables, t, i, u), t, i) == u
  {
    LinkPlain(u, u * 4096 + 3);
  }

  /** One entry overwritten. */
  function Stored(tables: Tables, t: nat, i: nat, e: nat): Tables
  {
    if t in tables && i < |tables[t]| then
      var page: seq<nat> := tables[t][i := e];
      tables[t := page]
    else tables
  }

  /** Writing an entry of the last-level table on a path changes that page of the flat map and no other. */
  lemma StoreMap(k: Boot, tables: Tables, homes: Homes, p: Path, e: nat)
    requires Shape(k, tables, homes) && Pt(tables, k.p4, p) != 0 && p.d < 512
    ensures var t := Pt(tables, k.p4, p);
            && t in tables && |tables[t]| == 512
            && var tables' := Stored(tables, t, p.d, e);
               Shape(k, tables', homes) && OneChanged(k.p4, tables, tables', p, e)
  {
    PtHome(k, tables, homes, p);
    var t := Pt(tables, k.p4, p);
    var tables' := Stored(tables, t, p.d, e);
    StoreShape(k, tables, homes, t, p.d, e);
    forall q
      ensures Entry(tables', k.p4, q) == if Same(p, q) then e else Entry(tables, k.p4, q)
    {
      StoreEntry(k, tables, homes, p, e, q);
    }
  }

  lemma StoreShape(k: Boot, tables: Tables, homes: Homes, t: nat, i: nat, e: nat)
    requires Shape(k, tables, homes) && t in tables && homes[t].Level1? && i < 512
    ensures Shape(k, Stored(tables, t, i, e), homes)
  {
    var tables' := Stored(tables, t, i, e);
    forall x, j | x in tables' && 0 <= j < 512
      ensures SlotOk(k, tables', homes, x, j)
    {
      assert SlotOk(k, tables, homes, x, j);
    }
  }

  lemma StorePt(k: Boot, tables: Tables, homes: Homes, t: nat, i: nat, e: nat, q: Path)
    requires Shape(k, tables, homes) && t in tables && homes[t].Level1? && i < 512
    ensures Pt(Stored(tables, t, i, e), k.p4, q) == Pt(tables, k.p4, q)
  {
    hide SlotsOk, Present, Huge;
    var x := Down(tables, k.p4, q.a);
    DownHome(k, tables, homes, k.p4, q.a);
    var y := Down(tables, x, q.b);
    DownHome(k, tables, homes, x, q.b);
  }

  lemma StoreEntry(k: Boot, tables: Tables, homes: Homes, p: Path, e: nat, q: Path)
    requires Shape(k, tables, homes) && Pt(tables, k.p4, p) in tables && p.d < 512
    ensures var t := Pt(tables, k.p4, p);
            && |tables[t]| == 512
            && Entry(Stored(tables, t, p.d, e), k.p4, q) == if Same(p, q) then e else Entry(tables, k.p4, q)
  {
    hide SlotsOk, Pt;
    var t := Pt(tables, k.p4, p);
    PtHome(k, tables, homes, p);
    PtHome(k, tables, homes, q);
    StorePt(k, tables, homes, t, p.d, e, q);
    if Same(p, q) {
      SamePt(k, tables, homes, p, q);
    }
  }
}
