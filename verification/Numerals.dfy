/** Numerals: digits of a number, the loop that produces them, and reading them back. */
module Numerals {
  // ---- Numerals ----------------------------------------------------------------------------

  predicate Base(b: nat)
  {
    b == 8 || b == 10 || b == 16
  }

  function DigitChar(d: nat, upper: bool): int
  {
    if d < 10 then '0' as int + d else (if upper then 'A' as int else 'a' as int) + (d - 10)
  }

  /** What a digit stands for; -1 for any other character. */
  function DigitValue(c: int): int
  {
    if '0' as int <= c <= '9' as int then c - '0' as int
    else if 'a' as int <= c <= 'f' as int then c - 'a' as int + 10
    else if 'A' as int <= c <= 'F' as int then c - 'A' as int + 10
    else -1
  }

  /** The digits of a positive number, most significant first; none for 0. */
  function Digits(n: nat, base: nat, upper: bool): seq<int>
    requires Base(base)
  {
    if n == 0 then [] else Digits(n / base, base, upper) + [DigitChar(n % base, upper)]
  }

  function Numeral(n: nat, base: nat, upper: bool): seq<int>
    requires Base(base)
  {
    if n == 0 then ['0' as int] else Digits(n, base, upper)
  }

  /** The number a string of digits stands for, or -1. */
  function Value(cs: seq<int>, base: nat): int
  {
    if cs == [] then 0
    else
      var high, d := Value(cs[..|cs| - 1], base), DigitValue(cs[|cs| - 1]);
      if high < 0 || d < 0 || d >= base then -1 else high * base + d
  }

  lemma DigitBack(d: nat, upper: bool)
    requires d < 16
    ensures DigitValue(DigitChar(d, upper)) == d
  {
  }

  /** Reading a numeral back gives the number. */
  lemma {:induction false} NumeralValue(n: nat, base: nat, upper: bool)
    requires Base(base)
    ensures Value(Numeral(n, base, upper), base) == n && Numeral(n, base, upper) != []
  {
    if n == 0 {
      assert ['0' as int][..0] == [];
    } else {
      DigitsValue(n, base, upper);
    }
  }

  lemma {:induction false} DigitsValue(n: nat, base: nat, upper: bool)
    requires Base(base)
    ensures Value(Digits(n, base, upper), base) == n
  {
    hide Value, DigitChar;
    if n == 0 {
      ValueNone(base);
    } else {
      DivBack(n, base);
      DigitsValue(n / base, base, upper);
      ValueNext(Digits(n / base, base, upper), n, base, upper);
    }
  }

  lemma ValueNone(base: nat)
    ensures Value([], base) == 0
  {
  }

  /** One digit more. */
  lemma ValueNext(cs: seq<int>, n: nat, base: nat, upper: bool)
    requires Base(base) && Value(cs, base) == n / base
    ensures Value(cs + [DigitChar(n % base, upper)], base) == n
  {
    hide DigitChar, DigitValue;
    var d := n % base;
    DivBack(n, base);
    DigitBack(d, upper);
    var all := cs + [DigitChar(d, upper)];
    assert all[..|all| - 1] == cs && all[|all| - 1] == DigitChar(d, upper);
  }

  lemma DivBack(n: nat, base: nat)
    requires Base(base)
    ensures n / base * base + n % base == n && 0 <= n / base && n % base < base <= 16 && (n > 0 ==> n / base < n)
  {
  }

  // ---- What a numeral is -------------------------------------------------------------------

  /** The digit characters, in order. */
  lemma DigitTable(d: nat, upper: bool)
    requires d < 16
    ensures DigitChar(d, upper) == (if upper then "0123456789ABCDEF" else "0123456789abcdef")[d] as int
    ensures DigitValue("0123456789ABCDEF"[d] as int) == DigitValue("0123456789abcdef"[d] as int) == d
  {
  }

  /** A digit character, with letters of one case only. */
  predicate DigitOf(c: int, upper: bool)
  {
    '0' as int <= c <= '9' as int || (if upper then 'A' as int <= c <= 'F' as int else 'a' as int <= c <= 'f' as int)
  }

  predicate AllDigits(cs: seq<int>, upper: bool)
  {
    forall i :: 0 <= i < |cs| ==> DigitOf(cs[i], upper)
  }

  /** `cs` writes `n` in `base`: digits of one case, no leading zero but for 0 itself, and they read as `n`. */
  predicate IsNumeral(cs: seq<int>, n: nat, base: nat, upper: bool)
  {
    cs != [] && (|cs| > 1 ==> cs[0] != '0' as int) && AllDigits(cs, upper) && Value(cs, base) == n
  }

  /** A sign, if need be, and the absolute value. */
  predicate IsSigned(cs: seq<int>, n: int)
  {
    if n < 0 then cs != [] && cs[0] == '-' as int && IsNumeral(cs[1..], -n, 10, false) else IsNumeral(cs, n, 10, false)
  }

  lemma {:induction false} DigitsWrite(n: nat, base: nat, upper: bool)
    requires Base(base)
    ensures AllDigits(Digits(n, base, upper), upper)
    ensures n > 0 ==> Digits(n, base, upper) != [] && Digits(n, base, upper)[0] != '0' as int
  {
    if n > 0 {
      DivBack(n, base);
      DigitsWrite(n / base, base, upper);
    }
  }

  /** The numeral of a number writes it. */
  lemma NumeralWrites(n: nat, base: nat, upper: bool)
    requires Base(base)
    ensures IsNumeral(Numeral(n, base, upper), n, base, upper)
  {
    hide Value, Digits, DigitChar;
    NumeralValue(n, base, upper);
    DigitsWrite(n, base, upper);
  }

  lemma {:induction false} LeadingDigit(cs: seq<int>, base: nat)
    requires cs != [] && cs[0] != '0' as int && Value(cs, base) >= 0
    ensures Value(cs, base) > 0
    decreases |cs|
  {
    if |cs| > 1 {
      LeadingDigit(cs[..|cs| - 1], base);
      Positive(Value(cs[..|cs| - 1], base), base);
    }
  }

  lemma Positive(a: nat, b: nat)
    requires a > 0 && b > 0
    ensures a * b > 0
  {
  }

  lemma LastDigit(cs: seq<int>, base: nat, upper: bool)
    requires cs != [] && AllDigits(cs, upper) && Value(cs, base) >= 0 && Base(base)
    ensures Value(cs[..|cs| - 1], base) == Value(cs, base) / base && AllDigits(cs[..|cs| - 1], upper)
    ensures DigitValue(cs[|cs| - 1]) == Value(cs, base) % base
  {
    Remainder(Value(cs[..|cs| - 1], base), DigitValue(cs[|cs| - 1]), base);
  }

  lemma Remainder(q: nat, r: nat, base: nat)
    requires Base(base) && r < base
    ensures (q * base + r) / base == q && (q * base + r) % base == r
  {
  }

  lemma OneDigit(c: int, d: int, upper: bool)
    requires DigitOf(c, upper) && DigitOf(d, upper) && DigitValue(c) == DigitValue(d)
    ensures c == d
  {
  }

  /** A number is written in one way only, and so it is with a given number of digits. */
  lemma {:induction false} OneText(a: seq<int>, b: seq<int>, base: nat, upper: bool)
    requires AllDigits(a, upper) && AllDigits(b, upper) && Value(a, base) == Value(b, base) >= 0 && Base(base)
    requires |a| == |b| || (a != [] && b != [] && (|a| > 1 ==> a[0] != '0' as int) && (|b| > 1 ==> b[0] != '0' as int))
    ensures a == b
    decreases |a|
  {
    if a != [] && b != [] {
      hide Value, DigitOf, DigitValue;
      LastDigit(a, base, upper);
      LastDigit(b, base, upper);
      OneDigit(a[|a| - 1], b[|b| - 1], upper);
      var a', b' := a[..|a| - 1], b[..|b| - 1];
      ValueNone(base);
      if |a| > 1 && |a| != |b| { LeadingDigit(a', base); }
      if |b| > 1 && |a| != |b| { LeadingDigit(b', base); }
      OneText(a', b', base, upper);
      assert a == a' + [a[|a| - 1]] && b == b' + [b[|b| - 1]];
    }
  }

  /** Fixed-width hexadecimal is lower case. */
  lemma {:induction false} HexDigits(n: nat, k: nat)
    ensures AllDigits(HexFixed(n, k), false)
  {
    if k > 0 {
      HexDigits(n / 16, k - 1);
    }
  }

  // ---- How long a numeral is ---------------------------------------------------------------

  function Pow8(k: nat): nat
  {
    if k == 0 then 1 else 8 * Pow8(k - 1)
  }

  lemma {:induction false} DigitsLength(n: nat, base: nat, upper: bool, k: nat)
    requires Base(base) && n < Pow8(k)
    ensures |Digits(n, base, upper)| <= k
    decreases k
  {
    if n > 0 && k > 0 {
      assert n / base <= n / 8;
      DigitsLength(n / base, base, upper, k - 1);
    }
  }

  lemma Pow8Of20()
    ensures Pow8(20) == 0x1000_0000_0000_0000
  {
    assert Pow8(2) == 64;
    assert Pow8(4) == 0x1000;
    assert Pow8(6) == 0x4_0000;
    assert Pow8(8) == 0x100_0000;
    assert Pow8(10) == 0x4000_0000;
    assert Pow8(12) == 0x10_0000_0000;
    assert Pow8(14) == 0x400_0000_0000;
    assert Pow8(16) == 0x1_0000_0000_0000;
    assert Pow8(18) == 0x40_0000_0000_0000;
  }

  lemma Pow8Of22()
    ensures Pow8(22) == 0x4_0000_0000_0000_0000
  {
    Pow8Of20();
  }

  /** A 64-bit number needs at most 22 digits. */
  lemma NumeralLength(n: nat, base: nat, upper: bool)
    requires Base(base) && n < 0x1_0000_0000_0000_0000
    ensures 1 <= |Numeral(n, base, upper)| <= 22
  {
    hide Pow8;
    Pow8Of22();
    DigitsLength(n, base, upper, 22);
    NumeralValue(n, base, upper);
  }

  function Reversed(cs: seq<int>): seq<int>
  {
    if cs == [] then [] else Reversed(cs[1..]) + [cs[0]]
  }

  lemma {:induction false} ReversedMore(cs: seq<int>, c: int)
    ensures Reversed(cs + [c]) == [c] + Reversed(cs)
  {
    if cs == [] {
      assert [c][1..] == [];
    } else {
      assert (cs + [c])[1..] == cs[1..] + [c];
      ReversedMore(cs[1..], c);
    }
  }

  lemma ReversedOne(c: int)
    ensures Reversed([c]) == [c] && Reversed([]) == []
  {
    assert [c][1..] == [];
  }

  lemma DigitsStep(n: nat, base: nat, upper: bool, low: seq<int>)
    requires Base(base) && n > 0
    ensures Digits(n, base, upper) + low == Digits(n / base, base, upper) + ([DigitChar(n % base, upper)] + low)
    ensures |Digits(n, base, upper)| == |Digits(n / base, base, upper)| + 1
  {
  }

  /** The digit loop: least significant first, in at most 22 cells. */
  method DigitLoop(num: nat, base: nat, upper: bool) returns (buffer: array<int>, i: nat)
    requires Base(base) && num < 0x1_0000_0000_0000_0000
    ensures fresh(buffer) && buffer.Length == 64 && i <= 22 && Reversed(buffer[..i]) == Numeral(num, base, upper)
  {
    hide Pow8, DigitChar, Reversed;
    buffer := new int[64];
    i := 0;
    NumeralLength(num, base, upper);
    if num == 0 {
      buffer[0] := '0' as int;
      i := 1;
      assert buffer[..1] == ['0' as int];
      ReversedOne('0' as int);
    } else {
      var n: nat := num;
      ghost var ds: seq<int> := [];
      ReversedOne(0);
      assert Digits(num, base, upper) == Digits(n, base, upper) + Reversed(ds);
      while n > 0
        invariant i == |ds| <= 22 && buffer[..i] == ds
        invariant Digits(num, base, upper) == Digits(n, base, upper) + Reversed(ds)
        invariant |Digits(n, base, upper)| + i == |Digits(num, base, upper)|
      {
        var d := DigitChar(n % base, upper);
        ReversedMore(ds, d);
        DigitsStep(n, base, upper, Reversed(ds));
        buffer[i] := d;
        ds := ds + [d];
        n, i := n / base, i + 1;
      }
      assert Digits(0, base, upper) + Reversed(ds) == Reversed(ds);
    }
  }

  // ---- Fixed-width hexadecimal -------------------------------------------------------------

  /** `n >> (4 * k)`. */
  function Shr4(n: nat, k: nat): nat
  {
    if k == 0 then n else Shr4(n, k - 1) / 16
  }

  function HexFixed(n: nat, k: nat): seq<int>
  {
    if k == 0 then [] else HexFixed(n / 16, k - 1) + [DigitChar(n % 16, false)]
  }

  lemma {:induction false} ShrCommutes(n: nat, k: nat)
    ensures Shr4(n / 16, k) == Shr4(n, k + 1)
  {
    if k > 0 {
      ShrCommutes(n, k - 1);
    }
  }

  /** All digits of a pointer: reading them back gives it. */
  lemma {:induction false} HexValue(n: nat, k: nat)
    requires Shr4(n, k) == 0
    ensures |HexFixed(n, k)| == k && Value(HexFixed(n, k), 16) == n
  {
    if k > 0 {
      ShrCommutes(n, k - 1);
      HexValue(n / 16, k - 1);
      ValueNext(HexFixed(n / 16, k - 1), n, 16, false);
    }
  }

  lemma PointerShift(n: nat)
    requires n < 0x1_0000_0000_0000_0000
    ensures Shr4(n, 16) == 0
  {
    hide Shr4;
    ShrZero(n);
    ShrBound(n, 0, 0x100_0000_0000_0000);
    ShrBound(n, 2, 0x1_0000_0000_0000);
    ShrBound(n, 4, 0x100_0000_0000);
    ShrBound(n, 6, 0x1_0000_0000);
    ShrBound(n, 8, 0x100_0000);
    ShrBound(n, 10, 0x1_0000);
    ShrBound(n, 12, 0x100);
    ShrBound(n, 14, 1);
  }

  lemma ShrZero(n: nat)
    ensures Shr4(n, 0) == n
  {
  }

  lemma ShrBound(n: nat, k: nat, b: nat)
    requires Shr4(n, k) < 256 * b
    ensures Shr4(n, k + 2) < b
  {
    assert Shr4(n, k + 1) == Shr4(n, k) / 16;
  }

  // ---- Signed decimal ----------------------------------------------------------------------

  function Decimal(n: int): seq<int>
  {
    if n < 0 then ['-' as int] + Numeral(-n, 10, false) else Numeral(n, 10, false)
  }

  /** Reading a signed numeral back gives the number. */
  lemma DecimalValue(n: int)
    ensures n >= 0 ==> Value(Decimal(n), 10) == n
    ensures n < 0 ==> Decimal(n) != [] && Decimal(n)[0] == '-' as int && Value(Decimal(n)[1..], 10) == -n
  {
    hide Value, Numeral;
    if n < 0 {
      NumeralValue(-n, 10, false);
      assert Decimal(n)[1..] == Numeral(-n, 10, false);
    } else {
      NumeralValue(n, 10, false);
    }
  }

  /** The signed numeral of a number writes it. */
  lemma DecimalWrites(n: int)
    ensures IsSigned(Decimal(n), n)
  {
    hide Value, Numeral, IsNumeral;
    NumeralWrites(if n < 0 then -n else n, 10, false);
    if n < 0 {
      assert Decimal(n)[1..] == Numeral(-n, 10, false);
    }
  }

  /** With its sign, a 64-bit signed number takes at most 22 digit cells. */
  lemma SignedLength(n: nat)
    requires n <= 0x8000_0000_0000_0000
    ensures 1 <= |Numeral(n, 10, false)| <= 21
  {
    hide Pow8;
    NumeralValue(n, 10, false);
    Pow8Of20();
    if n > 0 {
      DigitsLength(n / 10, 10, false, 20);
    }
  }
}
