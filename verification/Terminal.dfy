/** The text screen and `putchar`: 25 rows of 80 cells and a position. */
module Terminal {
  const NEWLINE := 10
  const RETURN := 13
  const TAB := 9
  const BACK := 8
  const SPACE := 32

  datatype Term = Term(x: nat, y: nat, cells: seq<seq<int>>)

  predicate OnScreen(t: Term)
  {
    t.x < 80 && t.y < 25 && |t.cells| == 25 && forall r :: 0 <= r < 25 ==> |t.cells[r]| == 80
  }

  function BlankRow(): seq<int>
  {
    seq(80, _ => SPACE)
  }

  function Newline(t: Term): Term
  {
    if t.y + 1 >= 25 && |t.cells| > 0 then Term(0, 24, t.cells[1..] + [BlankRow()]) else Term(0, t.y + 1, t.cells)
  }

  function Advance(t: Term): Term
  {
    if t.x + 1 >= 80 then Newline(t) else t.(x := t.x + 1)
  }

  function Written(t: Term, c: int): Term
  {
    if t.y < |t.cells| && t.x < |t.cells[t.y]| then t.(cells := t.cells[t.y := t.cells[t.y][t.x := c]]) else t
  }

  function Spaces(t: Term, n: nat): Term
  {
    if n == 0 then t else Advance(Written(Spaces(t, n - 1), SPACE))
  }

  /** What one character does to the screen. */
  function Put(t: Term, c: int): Term
  {
    if c == NEWLINE then Newline(t)
    else if c == RETURN then t.(x := 0)
    else if c == TAB then Spaces(t, 4 - t.x % 4)
    else if c == BACK then (if t.x > 0 then t.(x := t.x - 1) else t)
    else Advance(Written(t, c))
  }

  function PutAll(t: Term, cs: seq<int>): Term
  {
    if cs == [] then t else Put(PutAll(t, cs[..|cs| - 1]), cs[|cs| - 1])
  }

  lemma {:induction false} PutAllAdd(t: Term, a: seq<int>, b: seq<int>)
    ensures PutAll(t, a + b) == PutAll(PutAll(t, a), b)
    decreases |b|
  {
    if b == [] {
      assert a + b == a;
    } else {
      var n := |b| - 1;
      assert (a + b)[..|a + b| - 1] == a + b[..n];
      PutAllAdd(t, a, b[..n]);
    }
  }

  lemma PutAllOne(t: Term, a: seq<int>, c: int)
    ensures PutAll(t, a + [c]) == Put(PutAll(t, a), c) && PutAll(t, [c]) == Put(t, c) && PutAll(t, []) == t
  {
    assert (a + [c])[..|a|] == a;
    assert [c][..0] == [];
  }

  lemma {:induction false} SpacesOnScreen(t: Term, n: nat)
    requires OnScreen(t)
    ensures OnScreen(Spaces(t, n))
  {
    if n > 0 {
      SpacesOnScreen(t, n - 1);
    }
  }

  lemma PutOnScreen(t: Term, c: int)
    requires OnScreen(t)
    ensures OnScreen(Put(t, c))
  {
    if c == TAB {
      SpacesOnScreen(t, 4 - t.x % 4);
    }
  }

  // ---- What that means for cells and position ----------------------------------------------

  /** Row `y` has the cells `cs` from column `x` on; all other cells are as before. */
  ghost predicate Shows(t: Term, t': Term, x: nat, y: nat, cs: seq<int>)
    requires OnScreen(t) && OnScreen(t')
  {
    forall r, i :: 0 <= r < 25 && 0 <= i < 80 ==>
      t'.cells[r][i] == if r == y && x <= i < x + |cs| then cs[i - x] else t.cells[r][i]
  }

  /** The screen one line on: the first column of the next row, or of the last one after everything moved up. */
  ghost predicate NextLine(t: Term, t': Term)
    requires OnScreen(t) && OnScreen(t')
  {
    && t'.x == 0
    && (t.y < 24 ==> t'.y == t.y + 1 && t'.cells == t.cells)
    && (t.y == 24 ==>
          && t'.y == 24 && (forall r :: 0 <= r < 24 ==> t'.cells[r] == t.cells[r + 1])
          && forall i :: 0 <= i < 80 ==> t'.cells[24][i] == 32)
  }

  lemma NewlineIs(t: Term)
    requires OnScreen(t)
    ensures OnScreen(Newline(t)) && NextLine(t, Newline(t))
  {
  }

  /** Position keys: newline, carriage return and backspace change no cell of the text. */
  lemma MoveIs(t: Term)
    requires OnScreen(t)
    ensures OnScreen(Put(t, 10)) && NextLine(t, Put(t, 10))
    ensures Put(t, 13) == Term(0, t.y, t.cells)
    ensures Put(t, 8) == Term(if t.x > 0 then t.x - 1 else 0, t.y, t.cells)
  {
    NewlineIs(t);
  }

  /** Any other character is written where the cursor is, which then steps on, to the next line at the end of a row. */
  lemma CharIs(t: Term, c: int)
    requires OnScreen(t) && c != 8 && c != 9 && c != 10 && c != 13
    ensures var w := Term(t.x, t.y, t.cells[t.y := t.cells[t.y][t.x := c]]);
            && OnScreen(w) && Shows(t, w, t.x, t.y, [c]) && OnScreen(Put(t, c))
            && (t.x < 79 ==> Put(t, c) == w.(x := t.x + 1))
            && (t.x == 79 ==> NextLine(w, Put(t, c)))
  {
    NewlineIs(Written(t, c));
  }

  /** Spaces that stay left of the last column. */
  lemma {:induction false} SpacesAre(t: Term, n: nat)
    requires OnScreen(t) && t.x + n < 80
    ensures OnScreen(Spaces(t, n)) && Spaces(t, n).x == t.x + n && Spaces(t, n).y == t.y
    ensures Shows(t, Spaces(t, n), t.x, t.y, seq(n, _ => 32))
    decreases n
  {
    if n > 0 {
      SpacesAre(t, n - 1);
    }
  }

  lemma SpaceMore(t: Term, n: nat)
    requires OnScreen(t) && t.x + n < 80
    ensures var w := Written(Spaces(t, n), SPACE);
            OnScreen(w) && w.x == t.x + n && w.y == t.y && Shows(t, w, t.x, t.y, seq(n + 1, _ => 32))
  {
    SpacesAre(t, n);
  }

  lemma Screen(t: Term)
    requires OnScreen(t)
    ensures t.x < 80 && t.y < 25
  {
  }

  /** A tab blanks up to the next multiple of four, which is the next line behind the last one. */
  lemma TabIs(t: Term)
    requires OnScreen(t)
    ensures var stop := t.x / 4 * 4 + 4;
            && OnScreen(Put(t, 9)) && t.x < stop <= 80
            && (stop < 80 ==>
                  Put(t, 9).x == stop && Put(t, 9).y == t.y && Shows(t, Put(t, 9), t.x, t.y, seq(stop - t.x, _ => 32)))
            && (stop == 80 ==>
                  exists w :: OnScreen(w) && w.y == t.y && Shows(t, w, t.x, t.y, seq(80 - t.x, _ => 32)) && NextLine(w, Put(t, 9)))
  {
    hide Newline, Shows, OnScreen;
    var n := 4 - t.x % 4;
    Screen(t);
    if t.x + n < 80 {
      SpacesAre(t, n);
    } else {
      var w := Written(Spaces(t, n - 1), SPACE);
      SpaceMore(t, n - 1);
      NewlineIs(w);
      assert Put(t, 9) == Advance(w);
    }
  }

  class Terminal {
    var x: nat
    var y: nat
    var cells: seq<seq<int>>

    function State(): Term
      reads this
    {
      Term(x, y, cells)
    }

    constructor ()
      ensures OnScreen(State())
    {
      x, y, cells := 0, 0, seq(25, _ => BlankRow());
    }

    /** `vga_scroll_up`: every row moves up one, and the last is blank. */
    method ScrollUp()
      requires |cells| == 25
      modifies `cells
      ensures cells == old(cells)[1..] + [BlankRow()]
    {
      var r := 0;
      while r < 24
        invariant r <= 24 && |cells| == 25
        invariant forall j :: 0 <= j < r ==> cells[j] == old(cells)[j + 1]
        invariant forall j :: r <= j < 25 ==> cells[j] == old(cells)[j]
      {
        cells := cells[r := cells[r + 1]];
        r := r + 1;
      }
      cells := cells[24 := BlankRow()];
    }

    method NewLine()
      requires OnScreen(State())
      modifies this
      ensures State() == Newline(old(State()))
    {
      x := 0;
      y := y + 1;
      if y >= 25 {
        ScrollUp();
        y := 24;
      }
    }

    method Cell(c: int)
      requires OnScreen(State())
      modifies this
      ensures State() == Advance(Written(old(State()), c)) && OnScreen(State())
    {
      cells := cells[y := cells[y][x := c]];
      if x + 1 >= 80 {
        NewLine();
      } else {
        x := x + 1;
      }
    }

    /** `putchar`. */
    method Putchar(c: int)
      requires OnScreen(State())
      modifies this
      ensures State() == Put(old(State()), c) && OnScreen(State())
    {
      PutOnScreen(State(), c);
      if c == NEWLINE {
        NewLine();
      } else if c == RETURN {
        x := 0;
      } else if c == TAB {
        var n, i := 4 - x % 4, 0;
        while i < n
          invariant i <= n && State() == Spaces(old(State()), i) && OnScreen(State())
        {
          Cell(SPACE);
          i := i + 1;
        }
      } else if c == BACK {
        if x > 0 {
          x := x - 1;
        }
      } else {
        Cell(c);
      }
    }
  }
}
