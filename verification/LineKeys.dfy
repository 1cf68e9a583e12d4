/** What the keys of the line editor mean, and the codes they send. */
module LineKeys {
  /** A key that is taken as it is, the arrows, backspace, and anything the editor ignores. */
  datatype Stroke = Char(c: int) | Left | Right | Back | Noise(codes: seq<int>)

  /** The line on both sides of the cursor. */
  datatype Line = Line(left: seq<int>, right: seq<int>)

  const NEW_LINE := Line([], [])

  /** The codes of a key: ESC [ D and ESC [ C for the arrows. */
  function Codes(k: Stroke): seq<int>
  {
    match k
    case Char(c) => [c]
    case Left => [0x1B, 0x5B, 0x44]
    case Right => [0x1B, 0x5B, 0x43]
    case Back => [8]
    case Noise(codes) => codes
  }

  /** Printable characters; what is ignored is another escape sequence or another control code. */
  predicate Proper(k: Stroke)
  {
    match k
    case Char(c) => 32 <= c <= 126
    case Noise(codes) =>
      || (|codes| == 1 && !(32 <= codes[0] <= 126) && codes[0] !in {0x1B, 8, 10, 13})
      || (|codes| == 2 && codes[0] == 0x1B && codes[1] != 0x5B)
      || (|codes| == 3 && codes[0] == 0x1B && codes[1] == 0x5B && codes[2] !in {0x43, 0x44})
    case _ => true
  }

  predicate AllProper(ks: seq<Stroke>)
  {
    forall i :: 0 <= i < |ks| ==> Proper(ks[i])
  }

  function AllCodes(ks: seq<Stroke>): seq<int>
  {
    if ks == [] then [] else Codes(ks[0]) + AllCodes(ks[1..])
  }

  /** What follows the strokes: nothing, an escape sequence that is not finished, or Enter and anything. */
  predicate Ending(tail: seq<int>)
  {
    tail == [] || tail == [0x1B] || tail == [0x1B, 0x5B] || Entered(tail)
  }

  predicate Entered(tail: seq<int>)
  {
    tail != [] && (tail[0] == 10 || tail[0] == 13)
  }

  /** What a key makes of a line that has room for `room` characters. */
  function Stroked(l: Line, k: Stroke, room: nat): Line
  {
    var m, n := |l.left|, |l.right|;
    match k
    case Char(c) => if m + n < room then Line(l.left + [c], l.right) else l
    case Left => if m > 0 then Line(l.left[..m - 1], [l.left[m - 1]] + l.right) else l
    case Right => if n > 0 then Line(l.left + [l.right[0]], l.right[1..]) else l
    case Back => if m > 0 then Line(l.left[..m - 1], l.right) else l
    case Noise(_) => l
  }

  function AllStroked(l: Line, ks: seq<Stroke>, room: nat): Line
    decreases |ks|
  {
    if ks == [] then l else AllStroked(Stroked(l, ks[0], room), ks[1..], room)
  }

  lemma {:induction false} StrokedAdd(l: Line, a: seq<Stroke>, b: seq<Stroke>, room: nat)
    ensures AllStroked(l, a + b, room) == AllStroked(AllStroked(l, a, room), b, room)
    decreases |a|
  {
    hide Stroked;
    if a == [] {
      assert a + b == b;
    } else {
      assert (a + b)[1..] == a[1..] + b;
      StrokedAdd(Stroked(l, a[0], room), a[1..], b, room);
    }
  }

  lemma StrokedOne(l: Line, k: Stroke, room: nat)
    ensures AllStroked(l, [k], room) == Stroked(l, k, room)
  {
    assert [k][1..] == [];
  }

  // ---- What that comes to ------------------------------------------------------------------

  function Typed(s: seq<int>): seq<Stroke>
  {
    seq(|s|, i requires 0 <= i < |s| => Char(s[i]))
  }

  function Lefts(n: nat): seq<Stroke>
  {
    seq(n, _ => Left)
  }

  /** Typing with room to spare puts the text before the cursor. */
  lemma {:induction false} TypedText(l: Line, s: seq<int>, room: nat)
    requires |l.left| + |l.right| + |s| <= room
    ensures AllStroked(l, Typed(s), room) == Line(l.left + s, l.right)
    decreases |s|
  {
    if s == [] {
      assert l.left + s == l.left;
    } else {
      assert Typed(s)[1..] == Typed(s[1..]);
      TypedText(Stroked(l, Char(s[0]), room), s[1..], room);
      assert l.left + [s[0]] + s[1..] == l.left + s;
    }
  }

  /** As many steps to the left move the cursor that far. */
  lemma {:induction false} LeftMoves(l: Line, n: nat, room: nat)
    requires n <= |l.left|
    ensures var k := |l.left| - n; AllStroked(l, Lefts(n), room) == Line(l.left[..k], l.left[k..] + l.right)
    decreases n
  {
    if n == 0 {
      assert l.left[|l.left|..] + l.right == l.right;
    } else {
      assert Lefts(n)[1..] == Lefts(n - 1);
      var l' := Stroked(l, Left, room);
      LeftMoves(l', n - 1, room);
      var k := |l.left| - n;
      assert l'.left[..k] == l.left[..k];
      assert l'.left[k..] + l'.right == l.left[k..] + l.right;
    }
  }

  /** Typing `s`, moving `n` to the left and pressing one more key. */
  lemma InTheMiddle(s: seq<int>, n: nat, k: Stroke, room: nat)
    requires n <= |s| <= room
    ensures var at := |s| - n;
            var l := AllStroked(NEW_LINE, Typed(s) + Lefts(n) + [k], room);
            && (k.Char? && |s| < room ==> l == Line(s[..at] + [k.c], s[at..]))
            && (k.Char? && |s| == room ==> l == Line(s[..at], s[at..]))
            && (k.Back? && at > 0 ==> l == Line(s[..at - 1], s[at..]))
            && (k.Back? && at == 0 ==> l == Line([], s))
            && (k.Right? && n > 0 ==> l == Line(s[..at + 1], s[at + 1..]))
            && (k.Noise? ==> l == Line(s[..at], s[at..]))
  {
    hide Stroked, AllStroked, Typed, Lefts;
    TypedText(NEW_LINE, s, room);
    assert [] + s == s;
    LeftMoves(Line(s, []), n, room);
    assert s[|s| - n..] + [] == s[|s| - n..];
    StrokedAdd(NEW_LINE, Typed(s), Lefts(n), room);
    StrokedAdd(NEW_LINE, Typed(s) + Lefts(n), [k], room);
    StrokedOne(Line(s[..|s| - n], s[|s| - n..]), k, room);
    OneMore(s, |s| - n, k, room);
  }

  lemma OneMore(s: seq<int>, at: nat, k: Stroke, room: nat)
    requires at <= |s| <= room
    ensures var l := Stroked(Line(s[..at], s[at..]), k, room);
            && (k.Char? && |s| < room ==> l == Line(s[..at] + [k.c], s[at..]))
            && (k.Char? && |s| == room ==> l == Line(s[..at], s[at..]))
            && (k.Back? && at > 0 ==> l == Line(s[..at - 1], s[at..]))
            && (k.Back? && at == 0 ==> l == Line([], s))
            && (k.Right? && at < |s| ==> l == Line(s[..at + 1], s[at + 1..]))
            && (k.Noise? ==> l == Line(s[..at], s[at..]))
  {
    if k.Back? && at > 0 { assert s[..at][..at - 1] == s[..at - 1]; }
    if k.Right? && at < |s| { assert s[..at] + [s[at]] == s[..at + 1] && s[at..][1..] == s[at + 1..]; }
  }

  /** The arrows undo each other where they move at all. */
  lemma ArrowsUndo(l: Line, room: nat)
    ensures l.left != [] ==> Stroked(Stroked(l, Left, room), Right, room) == l
    ensures l.right != [] ==> Stroked(Stroked(l, Right, room), Left, room) == l
    ensures l.left == [] ==> Stroked(l, Left, room) == l
    ensures l.right == [] ==> Stroked(l, Right, room) == l
  {
  }

  /** Backspace undoes a character that found room. */
  lemma BackUndoes(l: Line, c: int, room: nat)
    requires |l.left| + |l.right| < room
    ensures Stroked(Stroked(l, Char(c), room), Back, room) == l
  {
    assert (l.left + [c])[..|l.left|] == l.left;
  }

  // ---- Every sequence of codes is a sequence of keys ---------------------------------------

  /** The first key of a sequence that goes on. */
  function FirstKey(keys: seq<int>): (k: Stroke)
    requires !Ending(keys)
    ensures Proper(k) && Codes(k) <= keys && Codes(k) != []
  {
    if keys[0] == 0x1B then
      if keys[1] != 0x5B then Noise(keys[..2])
      else if keys[2] == 0x44 then Left
      else if keys[2] == 0x43 then Right
      else Noise(keys[..3])
    else if keys[0] == 8 then Back
    else if 32 <= keys[0] <= 126 then Char(keys[0])
    else Noise(keys[..1])
  }

  lemma {:induction false} StrokesOf(keys: seq<int>) returns (ks: seq<Stroke>, tail: seq<int>)
    ensures AllProper(ks) && Ending(tail) && keys == AllCodes(ks) + tail
    decreases |keys|
  {
    hide Codes, Proper, Ending;
    ks, tail := [], keys;
    if !Ending(keys) {
      var k := FirstKey(keys);
      var rest := keys[|Codes(k)|..];
      var more, end := StrokesOf(rest);
      ks, tail := [k] + more, end;
      assert ks[1..] == more;
      assert keys == Codes(k) + rest;
    }
  }
}
