/** The bounded formatter: `vsnprintf`. */
module Format {
  import opened Numbers
  import opened Numerals
  import opened FormatPieces

  // ---- Directives --------------------------------------------------------------------------

  function First(args: seq<Arg>): Arg
  {
    if args == [] then Word(0) else args[0]
  }

  function Rest(args: seq<Arg>): seq<Arg>
  {
    if args == [] then [] else args[1..]
  }

  function Bits(a: Arg): nat
  {
    if a.Word? then a.bits % 0x1_0000_0000_0000_0000 else 0
  }

  /** The word as an unsigned number of 64 or 32 bits. */
  function Unsigned(a: Arg, wide: bool): (n: nat)
    ensures n < 0x1_0000_0000_0000_0000
  {
    if wide then Bits(a) else Bits(a) % 0x1_0000_0000
  }

  /** The word as a signed number of 64 or 32 bits. */
  function Signed(a: Arg, wide: bool): int
  {
    var n := Unsigned(a, wide);
    if wide then (if n < 0x8000_0000_0000_0000 then n else n - 0x1_0000_0000_0000_0000)
    else (if n < 0x8000_0000 then n else n - 0x1_0000_0000)
  }

  function AfterFlags(f: seq<int>): (r: seq<int>)
    ensures |r| <= |f|
  {
    if f != [] && (f[0] == '-' as int || f[0] == '0' as int) then AfterFlags(f[1..]) else f
  }

  function AfterDigits(f: seq<int>): (r: seq<int>)
    ensures |r| <= |f|
  {
    if f != [] && IsDigit(f[0]) then AfterDigits(f[1..]) else f
  }

  function Number(f: seq<int>, high: nat): nat
  {
    if f != [] && IsDigit(f[0]) then Number(f[1..], high * 10 + (f[0] - '0' as int)) else high
  }

  /** A position in a format, the arguments left, and what is known of the directive so far. */
  datatype Spot = Spot(f: seq<int>, args: seq<Arg>, precision: int, wide: bool, ok: bool)

  function AfterWidth(s: Spot): (r: Spot)
    ensures |r.f| <= |s.f|
  {
    if s.f != [] && IsDigit(s.f[0]) then s.(f := AfterDigits(s.f))
    else if s.f != [] && s.f[0] == '*' as int then
      s.(f := s.f[1..], args := Rest(s.args), ok := s.ok && s.args != [] && s.args[0].Word?)
    else s
  }

  function AfterPrecision(s: Spot): (r: Spot)
    ensures |r.f| <= |s.f|
  {
    if s.f == [] || s.f[0] != '.' as int then s
    else
      var g := s.f[1..];
      if g != [] && IsDigit(g[0]) then s.(f := AfterDigits(g), precision := Number(g, 0))
      else if g != [] && g[0] == '*' as int then
        s.(f := g[1..], args := Rest(s.args), precision := Signed(First(s.args), false),
           ok := s.ok && s.args != [] && s.args[0].Word?)
      else s.(f := g, precision := 0)
  }

  function AfterLength(s: Spot): (r: Spot)
    ensures |r.f| <= |s.f|
  {
    if s.f == [] then s
    else if s.f[0] == 'l' as int then
      s.(f := if |s.f| > 1 && s.f[1] == 'l' as int then s.f[2..] else s.f[1..], wide := true)
    else if s.f[0] == 'h' as int then
      s.(f := if |s.f| > 1 && s.f[1] == 'h' as int then s.f[2..] else s.f[1..])
    else if s.f[0] == 'z' as int || s.f[0] == 't' as int then s.(f := s.f[1..], wide := true)
    else s
  }

  /** The directive that follows a percent sign, up to its conversion character. */
  function Directive(f: seq<int>, args: seq<Arg>): (r: Spot)
    ensures |r.f| <= |f|
  {
    AfterLength(AfterPrecision(AfterWidth(Spot(AfterFlags(f), args, -1, false, true))))
  }

  predicate TakesArg(c: int)
  {
    c == 'c' as int || c == 's' as int || c == 'd' as int || c == 'i' as int || c == 'p' as int || Radix(c) != 0
  }

  function Radix(c: int): nat
  {
    if c == 'o' as int then 8 else if c == 'u' as int then 10
    else if c == 'x' as int || c == 'X' as int then 16 else 0
  }

  /** A string, cut to the precision if there is one. */
  function Clip(cs: seq<int>, precision: int): seq<int>
  {
    if 0 <= precision < |cs| then cs[..precision] else cs
  }

  function NullText(): seq<int>
  {
    ['(' as int, 'n' as int, 'u' as int, 'l' as int, 'l' as int, ')' as int]
  }

  /** What a conversion prints. */
  function Converted(c: int, precision: int, wide: bool, a: Arg): seq<int>
  {
    if c == 'c' as int then [Bits(a) % 256]
    else if c == 's' as int then Clip(if a.Text? then a.chars else NullText(), precision)
    else if c == 'd' as int || c == 'i' as int then Decimal(Signed(a, wide))
    else if Radix(c) != 0 then Numeral(Unsigned(a, wide), Radix(c), c == 'X' as int)
    else if c == 'p' as int then ['0' as int, 'x' as int] + HexFixed(Bits(a), 16)
    else [c]
  }

  /** The whole output, without a limit. */
  function Expand(f: seq<int>, args: seq<Arg>): seq<int>
    decreases |f|
  {
    if f == [] then []
    else if f[0] != '%' as int then [f[0]] + Expand(f[1..], args)
    else
      var d := Directive(f[1..], args);
      if d.f == [] then []
      else
        Converted(d.f[0], d.precision, d.wide, First(d.args))
        + Expand(d.f[1..], if TakesArg(d.f[0]) then Rest(d.args) else d.args)
  }

  /** Every directive is finished and has the arguments it needs. */
  predicate Complete(f: seq<int>, args: seq<Arg>)
    decreases |f|
  {
    if f == [] then true
    else if f[0] != '%' as int then Complete(f[1..], args)
    else
      var d := Directive(f[1..], args);
      && d.ok && d.f != []
      && (TakesArg(d.f[0]) ==> d.args != [] && Fitting(d.f[0], d.args[0]))
      && Complete(d.f[1..], if TakesArg(d.f[0]) then Rest(d.args) else d.args)
  }

  predicate Fitting(c: int, a: Arg)
  {
    if c == 's' as int then a.Text? || a.bits == 0 else a.Word?
  }

  /** Every numeric conversion reads back as its argument. */
  lemma ConvertedValue(c: int, precision: int, wide: bool, a: Arg)
    ensures Radix(c) != 0 ==>
              var cs := Converted(c, precision, wide, a);
              Value(cs, Radix(c)) == Unsigned(a, wide) && 1 <= |cs| <= 22
    ensures c == 'd' as int || c == 'i' as int ==>
              var cs, n := Converted(c, precision, wide, a), Signed(a, wide);
              && (n >= 0 ==> Value(cs, 10) == n && 1 <= |cs| <= 22)
              && (n < 0 ==> 2 <= |cs| <= 22 && cs[0] == '-' as int && Value(cs[1..], 10) == -n)
    ensures c == 'p' as int ==>
              var cs := Converted(c, precision, wide, a);
              |cs| == 18 && Value(cs[2..], 16) == Bits(a)
  {
    hide Numeral, HexFixed, Value;
    if Radix(c) != 0 {
      NumeralValue(Unsigned(a, wide), Radix(c), c == 'X' as int);
      NumeralLength(Unsigned(a, wide), Radix(c), c == 'X' as int);
    } else if c == 'p' as int {
      PointerShift(Bits(a));
      HexValue(Bits(a), 16);
      assert Converted(c, precision, wide, a)[2..] == HexFixed(Bits(a), 16);
    } else if c == 'd' as int || c == 'i' as int {
      var n := Signed(a, wide);
      DecimalValue(n);
      SignedLength(if n < 0 then -n else n);
    }
  }

  // ---- Reading a directive -----------------------------------------------------------------

  lemma {:induction false} FlagsRead(flags: seq<int>, t: seq<int>)
    requires (forall i :: 0 <= i < |flags| ==> IsFlag(flags[i])) && t != [] && !IsFlag(t[0])
    ensures AfterFlags(flags + t) == t
    decreases |flags|
  {
    if flags == [] {
      assert flags + t == t;
    } else {
      assert (flags + t)[1..] == flags[1..] + t;
      FlagsRead(flags[1..], t);
    }
  }

  lemma DigitValueNext(cs: seq<int>, c: int)
    requires IsDigit(c) && Value(cs, 10) >= 0
    ensures Value(cs + [c], 10) == Value(cs, 10) * 10 + (c - '0' as int)
  {
    var all := cs + [c];
    assert all[..|all| - 1] == cs;
  }

  /** Digits are read as the number they write, however many were read before. */
  lemma {:induction false} DigitsRead(before: seq<int>, ds: seq<int>, t: seq<int>)
    requires (forall i :: 0 <= i < |ds| ==> IsDigit(ds[i])) && t != [] && !IsDigit(t[0]) && Value(before, 10) >= 0
    ensures AfterDigits(ds + t) == t && Number(ds + t, Value(before, 10)) == Value(before + ds, 10)
    decreases |ds|
  {
    hide Value;
    if ds == [] {
      assert ds + t == t && before + ds == before;
    } else {
      assert (ds + t)[1..] == ds[1..] + t;
      DigitValueNext(before, ds[0]);
      DigitsRead(before + [ds[0]], ds[1..], t);
      assert before + [ds[0]] + ds[1..] == before + ds;
    }
  }

  lemma NumberRead(ds: seq<int>, t: seq<int>)
    requires DigitText(ds) && t != [] && !IsDigit(t[0])
    ensures AfterDigits(ds + t) == t && Number(ds + t, 0) == Value(ds, 10)
  {
    hide Value;
    ValueNone(10);
    DigitsRead([], ds, t);
    assert [] + ds == ds;
  }

  lemma WidthRead(s: Spot, a: Amount, t: seq<int>)
    requires s.f == AmountText(a) + t && t != [] && AmountOk(a, t[0])
    ensures var r := AfterWidth(s);
            && r.f == t && r.precision == s.precision && r.wide == s.wide
            && r.args == (if a.Star? then Rest(s.args) else s.args)
            && (r.ok <==> s.ok && (a.Star? ==> s.args != [] && s.args[0].Word?))
  {
    hide AfterDigits;
    match a {
      case Absent => assert s.f == t;
      case Given(ds) => NumberRead(ds, t);
      case Star => assert s.f[1..] == t;
    }
  }

  lemma DotRead(s: Spot, a: Amount, t: seq<int>)
    requires s.f == ['.' as int] + AmountText(a) + t && t != [] && AmountOk(a, t[0])
    ensures var r := AfterPrecision(s);
            && r.f == t && r.wide == s.wide && r.args == (if a.Star? then Rest(s.args) else s.args)
            && (r.ok <==> s.ok && (a.Star? ==> s.args != [] && s.args[0].Word?))
            && r.precision == match a
                 case Absent => 0
                 case Given(ds) => Value(ds, 10)
                 case Star => Signed(First(s.args), false)
  {
    hide AfterDigits, Number, Value, Signed;
    var g := s.f[1..];
    assert g == AmountText(a) + t;
    match a {
      case Absent => assert g == t;
      case Given(ds) => NumberRead(ds, t);
      case Star => assert g[1..] == t;
    }
  }

  lemma LengthRead(s: Spot, m: Length, t: seq<int>)
    requires s.f == LengthText(m) + t && t != [] && LengthOk(m, t[0])
    ensures AfterLength(s) == s.(f := t, wide := s.wide || Modulus(m) == 0x1_0000_0000_0000_0000)
  {
    match m {
      case NoLength => assert s.f == t;
      case HH => assert s.f[2..] == t;
      case LL => assert s.f[2..] == t;
      case _ => assert s.f[1..] == t && (t != [] ==> s.f[1] == t[0]);
    }
  }

  predicate StarsFit(p: Piece, args: seq<Arg>)
  {
    Stars(p) <= |args| && forall i :: 0 <= i < Stars(p) ==> args[i].Word?
  }

  /** The parts of a directive, one behind the other. */
  lemma SpecParts(p: Piece, rest: seq<int>)
    requires p.Spec?
    ensures p.flags + WidthText(p) + rest == p.flags + (WidthText(p) + rest)
    ensures WidthText(p) + rest == AmountText(p.width) + (DotText(p) + rest)
    ensures DotText(p) + rest == (if p.dot then ['.' as int] + AmountText(p.precision) else []) + (EndText(p) + rest)
    ensures !p.dot ==> DotText(p) + rest == EndText(p) + rest
    ensures EndText(p) + rest == LengthText(p.length) + ([p.conv] + rest)
    ensures (WidthText(p) + rest)[0] == WidthText(p)[0] && (DotText(p) + rest)[0] == DotText(p)[0]
    ensures (EndText(p) + rest)[0] == EndText(p)[0]
  {
    hide AmountText, LengthText;
  }

  /** What stands behind the percent sign of a directive is read as that directive. */
  lemma SpecRead(p: Piece, rest: seq<int>, args: seq<Arg>)
    requires p.Spec? && Legal(p)
    ensures var d := Directive(p.flags + WidthText(p) + rest, args);
            && d.f == [p.conv] + rest && (d.wide <==> Modulus(p.length) == 0x1_0000_0000_0000_0000)
            && (d.ok <==> StarsFit(p, args))
            && (StarsFit(p, args) ==> d.args == args[Stars(p)..])
            && (Fit(p, args) ==> d.precision == Precision(p, args))
  {
    hide AfterWidth, AfterPrecision, AfterLength, Value, AmountText, LengthText, AmountOk, LengthOk, AfterFlags,
         WidthText, DotText, EndText, Precision, Fit, StarsFit, Stars, Modulus, IsFlag, Signed, Rest, First;
    SpecParts(p, rest);
    FlagsRead(p.flags, WidthText(p) + rest);
    var s := Spot(WidthText(p) + rest, args, -1, false, true);
    WidthRead(s, p.width, DotText(p) + rest);
    var s1 := AfterWidth(s);
    var s2 := AfterPrecision(s1);
    if p.dot {
      DotRead(s1, p.precision, EndText(p) + rest);
    } else {
      NoDot(s1);
    }
    LengthRead(s2, p.length, [p.conv] + rest);
    StarsRead(p, args, s2.args, s2.ok, s2.precision);
  }

  /** The arguments that stars take, and the precision. */
  lemma StarsRead(p: Piece, args: seq<Arg>, left: seq<Arg>, ok: bool, precision: int)
    requires p.Spec?
    requires var args1 := if p.width.Star? then Rest(args) else args;
             && left == (if p.dot && p.precision.Star? then Rest(args1) else args1)
             && (ok <==> (p.width.Star? ==> args != [] && args[0].Word?)
                         && (p.dot && p.precision.Star? ==> args1 != [] && args1[0].Word?))
             && precision == (if !p.dot then -1 else match p.precision
                                case Absent => 0
                                case Given(ds) => Value(ds, 10)
                                case Star => Signed(First(args1), false))
    ensures ok <==> StarsFit(p, args)
    ensures StarsFit(p, args) ==> left == args[Stars(p)..]
    ensures Fit(p, args) ==> precision == Precision(p, args)
  {
    hide Value, Signed, AsSigned;
    if p.dot && p.precision.Star? && StarsFit(p, args) {
      WordValue(args[Stars(p) - 1], NoLength);
    }
  }

  lemma NoDot(s: Spot)
    requires s.f != [] && s.f[0] != '.' as int
    ensures AfterPrecision(s) == s
  {
  }

  // ---- Every format is made of pieces ------------------------------------------------------

  lemma {:induction false} FlagsSplit(f: seq<int>) returns (flags: seq<int>)
    ensures f == flags + AfterFlags(f) && forall i :: 0 <= i < |flags| ==> IsFlag(flags[i])
    ensures AfterFlags(f) != [] ==> !IsFlag(AfterFlags(f)[0])
    decreases |f|
  {
    flags := [];
    if f != [] && IsFlag(f[0]) {
      var more := FlagsSplit(f[1..]);
      flags := [f[0]] + more;
    }
  }

  lemma {:induction false} DigitsSplit(f: seq<int>) returns (ds: seq<int>)
    ensures f == ds + AfterDigits(f) && forall i :: 0 <= i < |ds| ==> IsDigit(ds[i])
    ensures AfterDigits(f) != [] ==> !IsDigit(AfterDigits(f)[0])
    ensures f != [] && IsDigit(f[0]) ==> ds != []
    decreases |f|
  {
    ds := [];
    if f != [] && IsDigit(f[0]) {
      var more := DigitsSplit(f[1..]);
      ds := [f[0]] + more;
    }
  }

  lemma WidthSplit(s: Spot) returns (a: Amount)
    ensures var t := AfterWidth(s).f; s.f == AmountText(a) + t && (t != [] ==> AmountOk(a, t[0]))
  {
    a := Absent;
    if s.f != [] && IsDigit(s.f[0]) {
      var ds := DigitsSplit(s.f);
      a := Given(ds);
    } else if s.f != [] && s.f[0] == '*' as int {
      a := Star;
    }
  }

  lemma DotSplit(s: Spot) returns (dot: bool, a: Amount)
    ensures var t := AfterPrecision(s).f;
            && s.f == (if dot then ['.' as int] + AmountText(a) else []) + t
            && (t != [] ==> if dot then AmountOk(a, t[0]) else a.Absent? && t[0] != '.' as int)
  {
    hide Number, Signed;
    dot, a := false, Absent;
    if s.f != [] && s.f[0] == '.' as int {
      dot := true;
      var g := s.f[1..];
      if g != [] && IsDigit(g[0]) {
        var ds := DigitsSplit(g);
        a := Given(ds);
      } else if g != [] && g[0] == '*' as int {
        a := Star;
      }
    }
  }

  lemma LengthSplit(s: Spot) returns (m: Length)
    ensures var t := AfterLength(s).f; s.f == LengthText(m) + t && (t != [] ==> LengthOk(m, t[0]))
  {
    m := NoLength;
    if s.f != [] {
      var c, twice := s.f[0], |s.f| > 1 && s.f[1] == s.f[0];
      if c == 'l' as int {
        m := if twice then LL else L;
      } else if c == 'h' as int {
        m := if twice then HH else H;
      } else if c == 'z' as int {
        m := Z;
      } else if c == 't' as int {
        m := T;
      }
    }
  }

  /** Whatever stands behind a percent sign is a directive, as far as it is finished. */
  lemma SpecOf(f: seq<int>, args: seq<Arg>) returns (p: Piece)
    requires Directive(f, args).f != []
    ensures p.Spec? && Legal(p) && f == p.flags + WidthText(p) + Directive(f, args).f[1..]
  {
    hide AfterWidth, AfterPrecision, AfterLength, AmountText, LengthText, AmountOk, LengthOk, AfterFlags, IsFlag,
         WidthText, DotText, EndText;
    var s := Spot(AfterFlags(f), args, -1, false, true);
    var s1 := AfterWidth(s);
    var s2 := AfterPrecision(s1);
    var t := AfterLength(s2).f;
    var flags := FlagsSplit(f);
    var width := WidthSplit(s);
    var dot, precision := DotSplit(s1);
    var length := LengthSplit(s2);
    p := Spec(flags, width, dot, precision, length, t[0]);
    var rest := t[1..];
    assert t == [t[0]] + rest;
    SpecParts(p, rest);
    assert s2.f == EndText(p) + rest;
    assert s1.f == DotText(p) + rest;
    assert s.f == WidthText(p) + rest;
    assert f == flags + (WidthText(p) + rest);
  }

  /** Every complete format is written by some pieces. */
  lemma {:induction false} PiecesOf(f: seq<int>, args: seq<Arg>) returns (ps: seq<Piece>)
    requires Complete(f, args)
    ensures AllLegal(ps) && FormatText(ps) == f
    decreases |f|
  {
    hide Directive, WidthText, Legal;
    if f == [] {
      ps := [];
    } else if f[0] != '%' as int {
      var more := PiecesOf(f[1..], args);
      ps := [Plain(f[0])] + more;
      PlainLegal(f[0]);
      assert ps[1..] == more;
      assert f == [f[0]] + f[1..];
    } else {
      var d := Directive(f[1..], args);
      var p := SpecOf(f[1..], args);
      var more := PiecesOf(d.f[1..], if TakesArg(d.f[0]) then Rest(d.args) else d.args);
      ps := [p] + more;
      assert ps[1..] == more;
      assert f == ['%' as int] + f[1..];
      assert PieceText(p) + d.f[1..] == f;
    }
  }

  lemma PlainLegal(c: int)
    requires c != '%' as int
    ensures Legal(Plain(c)) && PieceText(Plain(c)) == [c]
  {
  }

  // ---- What the output means ---------------------------------------------------------------

  /** The value of a word, signed and unsigned. */
  lemma WordValue(a: Arg, m: Length)
    requires a.Word?
    ensures var wide := Modulus(m) == 0x1_0000_0000_0000_0000;
            && Unsigned(a, wide) == a.bits % Modulus(m) && Signed(a, wide) == AsSigned(a.bits, Modulus(m))
            && Bits(a) == a.bits % 0x1_0000_0000_0000_0000 && Bits(a) % 256 == a.bits % 256
  {
    LowBits(a.bits);
  }

  lemma LowBits(x: nat)
    ensures x % 0x1_0000_0000_0000_0000 % 0x1_0000_0000 == x % 0x1_0000_0000
    ensures x % 0x1_0000_0000_0000_0000 % 256 == x % 256
  {
    var q, r := x / 0x1_0000_0000_0000_0000, x % 0x1_0000_0000_0000_0000;
    Low32(q * 0x1_0000_0000, r);
    Low8(q * 0x100_0000_0000_0000, r);
  }

  lemma Low32(y: nat, r: nat)
    ensures (y * 0x1_0000_0000 + r) % 0x1_0000_0000 == r % 0x1_0000_0000
  {
  }

  lemma Low8(y: nat, r: nat)
    ensures (y * 256 + r) % 256 == r % 256
  {
  }

  /** The conversions print what they should. */
  lemma ConvertedPrints(p: Piece, args: seq<Arg>)
    requires p.Spec? && Fit(p, args)
    ensures var a := if Stars(p) < |args| then args[Stars(p)] else Word(0);
            Prints(p, args, Converted(p.conv, Precision(p, args), Modulus(p.length) == 0x1_0000_0000_0000_0000, a))
  {
    hide Value, Numeral, HexFixed, IsNumeral, IsSigned, Decimal, Precision, AllDigits, AsSigned, Signed, Unsigned;
    if Converts(p.conv) {
      var a, wide := args[Stars(p)], Modulus(p.length) == 0x1_0000_0000_0000_0000;
      if a.Word? {
        WordValue(a, p.length);
      }
      if p.conv == 's' as int {
        assert TextOf(Word(0)) == NullText();
      } else if p.conv == 'd' as int || p.conv == 'i' as int {
        DecimalWrites(Signed(a, wide));
      } else if p.conv == 'p' as int {
        PointerShift(Bits(a));
        HexValue(Bits(a), 16);
        HexDigits(Bits(a), 16);
        assert (['0' as int, 'x' as int] + HexFixed(Bits(a), 16))[2..] == HexFixed(Bits(a), 16);
      } else if p.conv != 'c' as int {
        NumeralWrites(Unsigned(a, wide), Radix(p.conv), p.conv == 'X' as int);
      }
    }
  }

  /** One directive at the head of a format. */
  lemma SpecStep(p: Piece, f: seq<int>, args: seq<Arg>)
    requires p.Spec? && Legal(p)
    ensures Complete(PieceText(p) + f, args) <==> Fit(p, args) && Complete(f, args[Taken(p)..])
    ensures Fit(p, args) ==>
              exists cs :: Prints(p, args, cs) && Expand(PieceText(p) + f, args) == cs + Expand(f, args[Taken(p)..])
  {
    hide Directive, Converted, Prints, Legal, Precision, WidthText;
    var all := PieceText(p) + f;
    SpecRead(p, f, args);
    assert all[1..] == p.flags + WidthText(p) + f;
    var d := Directive(all[1..], args);
    assert d.f[1..] == f;
    if Fit(p, args) {
      ConvertedPrints(p, args);
      var cs := Converted(p.conv, Precision(p, args), d.wide, First(d.args));
      assert Prints(p, args, cs);
      assert Expand(all, args) == cs + Expand(f, args[Taken(p)..]);
    }
  }

  lemma PlainHead(p: Piece, f: seq<int>, args: seq<Arg>)
    requires p.Plain? && Legal(p)
    ensures Complete(PieceText(p) + f, args) <==> Complete(f, args)
    ensures Expand(PieceText(p) + f, args) == [p.c] + Expand(f, args)
  {
    assert (PieceText(p) + f)[1..] == f;
  }

  /** A format is complete exactly when its pieces have their arguments, and then its output is what they print. */
  lemma {:induction false} ExpandPrints(ps: seq<Piece>, args: seq<Arg>)
    requires AllLegal(ps)
    ensures Complete(FormatText(ps), args) <==> AllFit(ps, args)
    ensures AllFit(ps, args) ==> AllPrint(ps, args, Expand(FormatText(ps), args))
    decreases |ps|
  {
    hide Complete, Expand, Legal, PieceText, Prints;
    if ps == [] {
      NothingWritten(args);
    } else {
      var p, more := ps[0], ps[1..];
      var f := FormatText(more);
      assert ps == [p] + more;
      if p.Spec? {
        SpecStep(p, f, args);
      } else {
        PlainHead(p, f, args);
        PlainPrints(p, args);
      }
      if Fit(p, args) {
        var rest := args[Taken(p)..];
        ExpandPrints(more, rest);
        if AllFit(more, rest) {
          var cs :| Prints(p, args, cs) && Expand(PieceText(p) + f, args) == cs + Expand(f, rest);
          AllPrintMore(p, more, args, cs, Expand(f, rest));
        }
      }
    }
  }

  lemma NothingWritten(args: seq<Arg>)
    ensures Complete([], args) && Expand([], args) == []
  {
  }

  lemma PlainPrints(p: Piece, args: seq<Arg>)
    requires p.Plain?
    ensures Fit(p, args) && Taken(p) == 0 && Prints(p, args, [p.c]) && args[0..] == args
  {
  }

  /** `out` is what the format means: some pieces write it, and whichever do print just that. */
  ghost predicate Means(f: seq<int>, args: seq<Arg>, out: seq<int>)
  {
    && (exists ps :: AllLegal(ps) && FormatText(ps) == f)
    && forall ps :: AllLegal(ps) && FormatText(ps) == f ==> AllFit(ps, args) && AllPrint(ps, args, out)
  }

  lemma ExpandMeans(f: seq<int>, args: seq<Arg>)
    requires Complete(f, args)
    ensures Means(f, args, Expand(f, args))
  {
    hide Complete, Expand, AllLegal, FormatText, AllFit, AllPrint;
    var qs := PiecesOf(f, args);
    forall ps | AllLegal(ps) && FormatText(ps) == f
      ensures AllFit(ps, args) && AllPrint(ps, args, Expand(f, args))
    {
      ExpandPrints(ps, args);
    }
  }

  // ---- The formatter -----------------------------------------------------------------------

  /** The state behind `sprintf_putchar`: a buffer of `size` cells, or none. */
  class Formatter {
    const buffer: array?<int>
    const size: nat
    ghost const before: seq<int>
    var pos: nat
    ghost var out: seq<int>

    /** The buffer holds as much of the output as fits before the last cell. */
    ghost predicate Valid()
      reads this, if buffer == null then {} else {buffer}
    {
      && size > 0
      && (buffer != null ==>
            && size <= buffer.Length == |before| && pos == Min(|out|, size - 1)
            && buffer[..pos] == out[..pos] && buffer[pos..] == before[pos..])
    }

    constructor (str: array?<int>, n: nat)
      requires n > 0 && (str != null ==> n <= str.Length)
      ensures Valid() && buffer == str && size == n && out == [] && (str != null ==> before == old(str[..]))
    {
      buffer, size, pos, out := str, n, 0, [];
      before := if str == null then [] else str[..];
    }

    /** `sprintf_putchar`. */
    method Putc(c: int)
      requires Valid()
      modifies this, if buffer == null then {} else {buffer}
      ensures Valid() && out == old(out) + [c]
    {
      out := out + [c];
      if buffer != null && pos < size - 1 {
        buffer[pos] := c;
        pos := pos + 1;
      }
    }

    /** The loop of `%s`: up to the end or the precision. */
    method PutText(cs: seq<int>, precision: int) returns (len: nat)
      requires Valid()
      modifies this, if buffer == null then {} else {buffer}
      ensures Valid() && out == old(out) + Clip(cs, precision) && len == |Clip(cs, precision)|
    {
      hide Valid;
      len := 0;
      while len < |cs| && (precision < 0 || len < precision)
        invariant len <= |cs| && (precision >= 0 ==> len <= precision)
        invariant Valid() && out == old(out) + cs[..len]
      {
        Putc(cs[len]);
        len := len + 1;
      }
      assert cs[..len] == Clip(cs, precision);
    }

    /** A loop that prints a digit buffer from its end. */
    method PutReversed(digits: array<int>, n: nat) returns (count: nat)
      requires Valid() && n <= digits.Length && digits != buffer
      modifies this, if buffer == null then {} else {buffer}
      ensures Valid() && out == old(out) + Reversed(digits[..n]) && count == |Reversed(digits[..n])|
    {
      hide Valid, Reversed;
      ghost var ds := digits[..];
      var i := n;
      count := 0;
      ReversedOne(0);
      assert old(out) + Reversed(ds[..n]) == out + Reversed(ds[..i]);
      while i > 0
        invariant i <= n && Valid() && digits[..] == ds && count + |old(out)| == |out|
        invariant old(out) + Reversed(ds[..n]) == out + Reversed(ds[..i])
      {
        i := i - 1;
        assert ds[..i + 1] == ds[..i] + [ds[i]];
        ReversedMore(ds[..i], ds[i]);
        Putc(digits[i]);
        count := count + 1;
      }
      assert digits[..n] == ds[..n] && ds[..0] == [];
    }

    method PutUnsigned(num: nat, base: nat, upper: bool) returns (count: nat)
      requires Valid() && Base(base) && num < 0x1_0000_0000_0000_0000
      modifies this, if buffer == null then {} else {buffer}
      ensures Valid() && out == old(out) + Numeral(num, base, upper) && count == |Numeral(num, base, upper)|
    {
      hide Numeral, Reversed;
      var digits, i := DigitLoop(num, base, upper);
      count := PutReversed(digits, i);
    }

    method PutSigned(num: int) returns (count: nat)
      requires Valid() && -0x1_0000_0000_0000_0000 < num < 0x1_0000_0000_0000_0000
      modifies this, if buffer == null then {} else {buffer}
      ensures Valid() && out == old(out) + Decimal(num) && count == |Decimal(num)|
    {
      hide Numeral, Reversed;
      var digits, i := DigitLoop(if num < 0 then -num else num, 10, false);
      if num < 0 {
        ReversedMore(digits[..i], '-' as int);
        ghost var ds := digits[..i];
        digits[i] := '-' as int;
        i := i + 1;
        assert digits[..i] == ds + ['-' as int];
      }
      count := PutReversed(digits, i);
    }

    method PutPointer(num: nat) returns (count: nat)
      requires Valid() && num < 0x1_0000_0000_0000_0000
      modifies this, if buffer == null then {} else {buffer}
      ensures Valid() && out == old(out) + (['0' as int, 'x' as int] + HexFixed(num, 16)) && count == 18
    {
      hide Valid, DigitChar;
      Putc('0' as int);
      Putc('x' as int);
      PointerShift(num);
      var digits: seq<int>, j := [], 0;
      while j < 16
        invariant j <= 16 && |digits| == j && digits == HexFixed(Shr4(num, 16 - j), j)
      {
        var digit := Shr4(num, 15 - j) % 16;
        digits := digits + [DigitChar(digit, false)];
        j := j + 1;
      }
      count := PutText(digits, -1);
      count := count + 2;
    }

    /** The conversions, and how many characters each one counts. */
    method PutConverted(c: int, precision: int, wide: bool, a: Arg) returns (count: nat)
      requires Valid()
      modifies this, if buffer == null then {} else {buffer}
      ensures Valid() && out == old(out) + Converted(c, precision, wide, a) && count == |Converted(c, precision, wide, a)|
    {
      hide Valid, Numeral, HexFixed, Decimal;
      if c == 'c' as int {
        Putc(Bits(a) % 256);
        count := 1;
      } else if c == 's' as int {
        count := PutText(if a.Text? then a.chars else NullText(), precision);
      } else if c == 'd' as int || c == 'i' as int {
        count := PutSigned(Signed(a, wide));
      } else if c == 'u' as int || c == 'x' as int || c == 'X' as int || c == 'o' as int {
        count := PutUnsigned(Unsigned(a, wide), Radix(c), c == 'X' as int);
      } else if c == 'p' as int {
        count := PutPointer(Bits(a));
        PointerShift(Bits(a));
        HexValue(Bits(a), 16);
      } else {
        Putc(c);
        count := 1;
      }
    }

    /** `vprintf_internal` on a complete format: the whole output is sent, and counted. */
    method Vprintf(format: seq<int>, args: seq<Arg>) returns (count: nat)
      requires Valid() && Complete(format, args)
      modifies this, if buffer == null then {} else {buffer}
      ensures Valid() && out == old(out) + Expand(format, args) && count == |Expand(format, args)|
    {
      hide Valid, Converted, Directive, TakesArg, Expand, Complete;
      count := 0;
      var f, rest := format, args;
      ghost var sent: seq<int> := [];
      assert Expand(format, args) == sent + Expand(f, rest);
      while f != []
        invariant Valid() && Complete(f, rest) && out == old(out) + sent && count == |sent|
        invariant Expand(format, args) == sent + Expand(f, rest)
        decreases |f|
      {
        var c := f[0];
        if c != '%' as int {
          PlainStep(f, rest);
          Putc(c);
          count, f := count + 1, f[1..];
          sent := sent + [c];
          continue;
        }
        DirectiveStep(f, rest);
        var d := Scan(f[1..], rest);
        var n := PutConverted(d.f[0], d.precision, d.wide, First(d.args));
        count := count + n;
        sent := sent + Converted(d.f[0], d.precision, d.wide, First(d.args));
        f, rest := d.f[1..], if TakesArg(d.f[0]) then Rest(d.args) else d.args;
      }
      NothingLeft(rest);
      assert sent + [] == sent;
    }
  }

  lemma PlainStep(f: seq<int>, args: seq<Arg>)
    requires f != [] && f[0] != '%' as int && Complete(f, args)
    ensures Complete(f[1..], args) && Expand(f, args) == [f[0]] + Expand(f[1..], args)
  {
  }

  lemma DirectiveStep(f: seq<int>, args: seq<Arg>)
    requires f != [] && f[0] == '%' as int && Complete(f, args)
    ensures var d := Directive(f[1..], args);
            && d.f != [] && |d.f| < |f|
            && var rest := if TakesArg(d.f[0]) then Rest(d.args) else d.args;
               && Complete(d.f[1..], rest)
               && Expand(f, args) == Converted(d.f[0], d.precision, d.wide, First(d.args)) + Expand(d.f[1..], rest)
  {
    hide Converted, TakesArg, Fitting;
    assert |Directive(f[1..], args).f| <= |f[1..]|;
  }

  lemma NothingLeft(args: seq<Arg>)
    ensures Expand([], args) == []
  {
  }

  method SkipDigits(f: seq<int>) returns (g: seq<int>, value: nat)
    ensures g == AfterDigits(f) && value == Number(f, 0)
  {
    g, value := f, 0;
    while g != [] && IsDigit(g[0])
      invariant AfterDigits(g) == AfterDigits(f) && Number(g, value) == Number(f, 0)
      decreases |g|
    {
      value := value * 10 + (g[0] - '0' as int);
      g := g[1..];
    }
  }

  /** The parsing of flags, width, precision and length modifiers. */
  method Scan(f: seq<int>, args: seq<Arg>) returns (d: Spot)
    ensures d == Directive(f, args)
  {
    hide Number, AfterDigits;
    var g := f;
    while g != [] && (g[0] == '-' as int || g[0] == '0' as int)
      invariant AfterFlags(g) == AfterFlags(f)
      decreases |g|
    {
      g := g[1..];
    }
    d := Spot(g, args, -1, false, true);
    d := ScanWidth(d);
    d := ScanPrecision(d);
    d := ScanLength(d);
  }

  method ScanWidth(s: Spot) returns (d: Spot)
    ensures d == AfterWidth(s)
  {
    d := s;
    if s.f != [] && IsDigit(s.f[0]) {
      var g, _ := SkipDigits(s.f);
      d := d.(f := g);
    } else if s.f != [] && s.f[0] == '*' as int {
      d := d.(f := s.f[1..], args := Rest(s.args), ok := s.ok && s.args != [] && s.args[0].Word?);
    }
  }

  method ScanPrecision(s: Spot) returns (d: Spot)
    ensures d == AfterPrecision(s)
  {
    d := s;
    if s.f != [] && s.f[0] == '.' as int {
      d := d.(f := s.f[1..], precision := 0);
      if d.f != [] && IsDigit(d.f[0]) {
        var g, value := SkipDigits(d.f);
        d := d.(f := g, precision := value);
      } else if d.f != [] && d.f[0] == '*' as int {
        d := d.(f := d.f[1..], args := Rest(s.args), precision := Signed(First(s.args), false),
                ok := s.ok && s.args != [] && s.args[0].Word?);
      }
    }
  }

  method ScanLength(s: Spot) returns (d: Spot)
    ensures d == AfterLength(s)
  {
    d := s;
    if s.f == [] {
      return;
    }
    if s.f[0] == 'l' as int {
      d := d.(f := d.f[1..], wide := true);
      if d.f != [] && d.f[0] == 'l' as int {
        d := d.(f := d.f[1..]);
      }
    } else if s.f[0] == 'h' as int {
      d := d.(f := d.f[1..]);
      if d.f != [] && d.f[0] == 'h' as int {
        d := d.(f := d.f[1..]);
      }
    } else if s.f[0] == 'z' as int || s.f[0] == 't' as int {
      d := d.(f := d.f[1..], wide := true);
    }
  }

  /**
   * `vsnprintf`: as much of the whole output as fits, then 0; the rest of the buffer is untouched,
   * and the result is the length of the whole output.
   */
  method Vsnprintf(str: array?<int>, size: nat, format: seq<int>, args: seq<Arg>) returns (result: nat)
    requires Complete(format, args) && (str != null ==> size <= str.Length)
    modifies if str == null then {} else {str}
    ensures size == 0 ==> result == 0 && (str != null ==> str[..] == old(str[..]))
    ensures size > 0 ==> result == |Expand(format, args)|
    ensures Means(format, args, Expand(format, args))
    ensures size > 0 && str != null ==>
              var whole := Expand(format, args);
              var m := Min(|whole|, size - 1);
              str[..m] == whole[..m] && str[m] == 0 && str[m + 1..] == old(str[m + 1..])
  {
    hide Expand, Complete, Means;
    ExpandMeans(format, args);
    if size == 0 {
      return 0;
    }
    var state := new Formatter(str, size);
    result := state.Vprintf(format, args);
    if str != null {
      assert state.out == Expand(format, args);
      str[if state.pos < size then state.pos else size - 1] := 0;
    }
  }
}
