/** What a format means: its pieces, how they are written, and what each one prints. */
module FormatPieces {
  import opened Numerals

  /** An argument: a machine word, or a pointer to a string without its terminator. */
  datatype Arg = Word(bits: nat) | Text(chars: seq<int>)

  datatype Amount = Absent | Given(digits: seq<int>) | Star

  datatype Length = NoLength | H | HH | L | LL | Z | T

  /** A character that stands for itself, or a directive. */
  datatype Piece =
    | Plain(c: int)
    | Spec(flags: seq<int>, width: Amount, dot: bool, precision: Amount, length: Length, conv: int)

  // ---- How it is written -------------------------------------------------------------------

  function AmountText(a: Amount): seq<int>
  {
    match a
    case Absent => []
    case Given(digits) => digits
    case Star => ['*' as int]
  }

  function LengthText(m: Length): seq<int>
  {
    match m
    case NoLength => []
    case H => ['h' as int]
    case HH => ['h' as int, 'h' as int]
    case L => ['l' as int]
    case LL => ['l' as int, 'l' as int]
    case Z => ['z' as int]
    case T => ['t' as int]
  }

  function EndText(p: Piece): (t: seq<int>)
    requires p.Spec?
    ensures t != []
  {
    LengthText(p.length) + [p.conv]
  }

  function DotText(p: Piece): (t: seq<int>)
    requires p.Spec?
    ensures t != []
  {
    (if p.dot then ['.' as int] + AmountText(p.precision) else []) + EndText(p)
  }

  function WidthText(p: Piece): (t: seq<int>)
    requires p.Spec?
    ensures t != []
  {
    AmountText(p.width) + DotText(p)
  }

  function PieceText(p: Piece): (t: seq<int>)
    ensures t != []
  {
    if p.Plain? then [p.c] else ['%' as int] + p.flags + WidthText(p)
  }

  function FormatText(ps: seq<Piece>): seq<int>
  {
    if ps == [] then [] else PieceText(ps[0]) + FormatText(ps[1..])
  }

  // ---- Which pieces there are --------------------------------------------------------------

  predicate IsDigit(c: int)
  {
    '0' as int <= c <= '9' as int
  }

  predicate IsFlag(c: int)
  {
    c == '-' as int || c == '0' as int
  }

  predicate DigitText(ds: seq<int>)
  {
    ds != [] && forall i :: 0 <= i < |ds| ==> IsDigit(ds[i])
  }

  /** The character behind an amount is no part of it. */
  predicate AmountOk(a: Amount, next: int)
  {
    match a
    case Absent => !IsDigit(next) && next != '*' as int
    case Given(digits) => DigitText(digits) && !IsDigit(next)
    case Star => true
  }

  predicate LengthOk(m: Length, next: int)
  {
    match m
    case NoLength => next != 'l' as int && next != 'h' as int && next != 'z' as int && next != 't' as int
    case H => next != 'h' as int
    case L => next != 'l' as int
    case _ => true
  }

  /** Each part ends where the next one starts; any character may be the conversion that does. */
  predicate Legal(p: Piece)
  {
    if p.Plain? then p.c != '%' as int
    else
      && (forall i :: 0 <= i < |p.flags| ==> IsFlag(p.flags[i])) && !IsFlag(WidthText(p)[0])
      && AmountOk(p.width, DotText(p)[0])
      && (if p.dot then AmountOk(p.precision, EndText(p)[0]) else p.precision.Absent? && EndText(p)[0] != '.' as int)
      && LengthOk(p.length, p.conv)
  }

  predicate AllLegal(ps: seq<Piece>)
  {
    forall i :: 0 <= i < |ps| ==> Legal(ps[i])
  }

  // ---- What it prints ----------------------------------------------------------------------

  predicate Converts(c: int)
  {
    || c == 'c' as int || c == 's' as int || c == 'p' as int || c == 'd' as int || c == 'i' as int
    || c == 'u' as int || c == 'o' as int || c == 'x' as int || c == 'X' as int
  }

  /** The arguments a directive takes: one for each star, and one for its conversion. */
  function Stars(p: Piece): nat
  {
    if p.Plain? then 0 else (if p.width.Star? then 1 else 0) + if p.dot && p.precision.Star? then 1 else 0
  }

  function Taken(p: Piece): nat
  {
    if p.Plain? then 0 else Stars(p) + if Converts(p.conv) then 1 else 0
  }

  /** The values that fit in a word of the length: 64 bits with l, ll, z and t, else 32. */
  function Modulus(m: Length): nat
  {
    if m == L || m == LL || m == Z || m == T then 0x1_0000_0000_0000_0000 else 0x1_0000_0000
  }

  /** Two's complement. */
  function AsSigned(bits: nat, m: nat): (n: int)
    requires m == 0x1_0000_0000 || m == 0x1_0000_0000_0000_0000
    ensures 0 <= 2 * n + m < 2 * m && (bits - n) % m == 0
  {
    if bits % m < m / 2 then bits % m else bits % m - m
  }

  /** The arguments are there and of the kind the directive takes. */
  predicate Fit(p: Piece, args: seq<Arg>)
  {
    && Taken(p) <= |args|
    && (forall i :: 0 <= i < Stars(p) ==> args[i].Word?)
    && (Stars(p) < Taken(p) ==>
          var a := args[Stars(p)];
          if p.conv == 's' as int then a.Text? || a.bits == 0 else a.Word?)
  }

  predicate AllFit(ps: seq<Piece>, args: seq<Arg>)
  {
    ps == [] || (Fit(ps[0], args) && AllFit(ps[1..], args[Taken(ps[0])..]))
  }

  /** The precision; negative for none. */
  function Precision(p: Piece, args: seq<Arg>): int
    requires p.Spec? && Fit(p, args)
  {
    if !p.dot then -1
    else match p.precision
      case Absent => 0
      case Given(digits) => Value(digits, 10)
      case Star => AsSigned(args[Stars(p) - 1].bits, 0x1_0000_0000)
  }

  /** A NULL string is shown as "(null)". */
  function TextOf(a: Arg): seq<int>
  {
    if a.Text? then a.chars else seq(6, i requires 0 <= i < 6 => "(null)"[i] as int)
  }

  /** `cs` is what the piece prints, told from the values of its arguments. */
  predicate Prints(p: Piece, args: seq<Arg>, cs: seq<int>)
    requires Fit(p, args)
  {
    if p.Plain? then cs == [p.c]
    else if !Converts(p.conv) then cs == [p.conv]
    else
      var a, m := args[Stars(p)], Modulus(p.length);
      if p.conv == 's' as int then
        var text, most := TextOf(a), Precision(p, args);
        cs == if 0 <= most < |text| then text[..most] else text
      else if p.conv == 'c' as int then cs == [a.bits % 256]
      else if p.conv == 'd' as int || p.conv == 'i' as int then IsSigned(cs, AsSigned(a.bits, m))
      else if p.conv == 'u' as int then IsNumeral(cs, a.bits % m, 10, false)
      else if p.conv == 'o' as int then IsNumeral(cs, a.bits % m, 8, false)
      else if p.conv == 'x' as int then IsNumeral(cs, a.bits % m, 16, false)
      else if p.conv == 'X' as int then IsNumeral(cs, a.bits % m, 16, true)
      else
        && |cs| == 18 && cs[0] == '0' as int && cs[1] == 'x' as int && AllDigits(cs[2..], false)
        && Value(cs[2..], 16) == a.bits % 0x1_0000_0000_0000_0000
  }

  /** `out` is what the pieces print, one after the other, each with its own arguments. */
  ghost predicate AllPrint(ps: seq<Piece>, args: seq<Arg>, out: seq<int>)
    requires AllFit(ps, args)
  {
    if ps == [] then out == []
    else exists k :: 0 <= k <= |out| && Prints(ps[0], args, out[..k]) && AllPrint(ps[1..], args[Taken(ps[0])..], out[k..])
  }

  lemma SameSigned(a: seq<int>, b: seq<int>, n: int)
    requires IsSigned(a, n) && IsSigned(b, n)
    ensures a == b
  {
    hide Value, AllDigits;
    if n < 0 {
      OneText(a[1..], b[1..], 10, false);
      assert a == [a[0]] + a[1..] && b == [b[0]] + b[1..];
    } else {
      OneText(a, b, 10, false);
    }
  }

  /** That says all: a piece prints one thing only. */
  lemma PrintsOne(p: Piece, args: seq<Arg>, a: seq<int>, b: seq<int>)
    requires Fit(p, args) && Prints(p, args, a) && Prints(p, args, b)
    ensures a == b
  {
    hide Value, AllDigits, IsSigned, AsSigned, Precision, TextOf;
    if p.Spec? && Converts(p.conv) && p.conv != 's' as int && p.conv != 'c' as int {
      var n := args[Stars(p)].bits % Modulus(p.length);
      if p.conv == 'd' as int || p.conv == 'i' as int {
        SameSigned(a, b, AsSigned(args[Stars(p)].bits, Modulus(p.length)));
      } else if p.conv == 'p' as int {
        OneText(a[2..], b[2..], 16, false);
        assert a == a[..2] + a[2..] && b == b[..2] + b[2..] && a[..2] == b[..2];
      } else {
        OneText(a, b, if p.conv == 'u' as int then 10 else if p.conv == 'o' as int then 8 else 16, p.conv == 'X' as int);
      }
    }
  }

  lemma {:induction false} AllPrintOne(ps: seq<Piece>, args: seq<Arg>, a: seq<int>, b: seq<int>)
    requires AllFit(ps, args) && AllPrint(ps, args, a) && AllPrint(ps, args, b)
    ensures a == b
    decreases |ps|
  {
    hide Prints, Taken;
    if ps != [] {
      var rest := args[Taken(ps[0])..];
      var j :| 0 <= j <= |a| && Prints(ps[0], args, a[..j]) && AllPrint(ps[1..], rest, a[j..]);
      var k :| 0 <= k <= |b| && Prints(ps[0], args, b[..k]) && AllPrint(ps[1..], rest, b[k..]);
      PrintsOne(ps[0], args, a[..j], b[..k]);
      AllPrintOne(ps[1..], rest, a[j..], b[k..]);
      assert a == a[..j] + a[j..] && b == b[..k] + b[k..];
    }
  }

  lemma AllPrintMore(p: Piece, ps: seq<Piece>, args: seq<Arg>, cs: seq<int>, out: seq<int>)
    requires Fit(p, args) && AllFit(ps, args[Taken(p)..])
    requires Prints(p, args, cs) && AllPrint(ps, args[Taken(p)..], out)
    ensures AllFit([p] + ps, args) && AllPrint([p] + ps, args, cs + out)
  {
    hide Prints, Fit, Taken;
    var all, text := [p] + ps, cs + out;
    assert all[0] == p && all[1..] == ps;
    assert text[..|cs|] == cs && text[|cs|..] == out;
  }
}
