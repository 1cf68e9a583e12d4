/** The line editor behind `fgets`. */
module LineEditor {
  import opened Numbers
  import K = LineKeys
  import opened T = Terminal

  // ---- The editor as a pure machine --------------------------------------------------------

  /** A line, the cursor in it, the longest it has been, and whether Enter was pressed. */
  datatype Ed = Ed(text: seq<int>, cursor: nat, peak: nat, done: bool)

  const EMPTY := Ed([], 0, 0, false)

  predicate Printable(c: int)
  {
    32 <= c <= 126
  }

  predicate Sane(ed: Ed, limit: nat)
  {
    ed.cursor <= |ed.text| <= ed.peak <= limit && forall i :: 0 <= i < |ed.text| ==> Printable(ed.text[i])
  }

  function Arrow(ed: Ed, c: int): Ed
  {
    if c == 'D' as int && ed.cursor > 0 then ed.(cursor := ed.cursor - 1)
    else if c == 'C' as int && ed.cursor < |ed.text| then ed.(cursor := ed.cursor + 1)
    else ed
  }

  /** Any key but Escape and Enter. */
  function Press(ed: Ed, c: int, limit: nat): Ed
  {
    if ed.cursor > |ed.text| then ed
    else if c == BACK then
      if ed.cursor == 0 then ed
      else ed.(text := ed.text[..ed.cursor - 1] + ed.text[ed.cursor..], cursor := ed.cursor - 1)
    else if Printable(c) && |ed.text| < limit then
      Ed(ed.text[..ed.cursor] + [c] + ed.text[ed.cursor..], ed.cursor + 1, Max(ed.peak, |ed.text| + 1), ed.done)
    else ed
  }

  /** The editor after a sequence of key codes; an unfinished escape sequence waits for more. */
  function Edit(ed: Ed, keys: seq<int>, limit: nat): Ed
    decreases |keys|
  {
    if keys == [] || ed.done then ed
    else if keys[0] == 0x1B then
      if |keys| == 1 then ed
      else if keys[1] != '[' as int then Edit(ed, keys[2..], limit)
      else if |keys| == 2 then ed
      else Edit(Arrow(ed, keys[2]), keys[3..], limit)
    else if keys[0] == NEWLINE || keys[0] == RETURN then ed.(done := true)
    else Edit(Press(ed, keys[0], limit), keys[1..], limit)
  }

  lemma PressSane(ed: Ed, c: int, limit: nat)
    requires Sane(ed, limit)
    ensures Sane(Press(ed, c, limit), limit) && ed.peak <= Press(ed, c, limit).peak
  {
  }

  lemma {:induction false} EditSane(ed: Ed, keys: seq<int>, limit: nat)
    requires Sane(ed, limit)
    ensures Sane(Edit(ed, keys, limit), limit)
    decreases |keys|
  {
    if keys == [] || ed.done {
    } else if keys[0] == 0x1B {
      if |keys| > 1 && keys[1] != '[' as int {
        EditSane(ed, keys[2..], limit);
      } else if |keys| > 2 {
        EditSane(Arrow(ed, keys[2]), keys[3..], limit);
      }
    } else if keys[0] != NEWLINE && keys[0] != RETURN {
      PressSane(ed, keys[0], limit);
      EditSane(Press(ed, keys[0], limit), keys[1..], limit);
    }
  }

  // ---- What the keys mean ------------------------------------------------------------------

  /** The line on both sides of the cursor. */
  function LineOf(ed: Ed): K.Line
    requires ed.cursor <= |ed.text|
  {
    K.Line(ed.text[..ed.cursor], ed.text[ed.cursor..])
  }

  /** How the codes of one key are taken. */
  lemma CodesEdit(ed: Ed, k: K.Stroke, rest: seq<int>, limit: nat)
    requires K.Proper(k) && !ed.done && ed.cursor <= |ed.text|
    ensures Edit(ed, K.Codes(k) + rest, limit) == Edit(Stroke(ed, k, limit), rest, limit)
  {
    hide Arrow, Press;
    var keys := K.Codes(k) + rest;
    match k {
      case Char(c) => assert keys[1..] == rest;
      case Back => assert keys[1..] == rest;
      case Left => assert keys[3..] == rest;
      case Right => assert keys[3..] == rest;
      case Noise(codes) =>
        assert keys[|codes|..] == rest;
        NoiseEdit(ed, codes, limit);
    }
  }

  function Stroke(ed: Ed, k: K.Stroke, limit: nat): Ed
  {
    match k
    case Char(c) => Press(ed, c, limit)
    case Back => Press(ed, 8, limit)
    case Left => Arrow(ed, 0x44)
    case Right => Arrow(ed, 0x43)
    case Noise(_) => ed
  }

  lemma NoiseEdit(ed: Ed, codes: seq<int>, limit: nat)
    requires K.Proper(K.Noise(codes)) && ed.cursor <= |ed.text|
    ensures |codes| == 1 ==> Press(ed, codes[0], limit) == ed
    ensures |codes| == 3 ==> Arrow(ed, codes[2]) == ed
  {
  }

  /** One key: its codes are taken together, and change the line as they should. */
  lemma StrokeEdit(ed: Ed, k: K.Stroke, rest: seq<int>, limit: nat) returns (ed': Ed)
    requires K.Proper(k) && ed.cursor <= |ed.text| && !ed.done
    ensures Edit(ed, K.Codes(k) + rest, limit) == Edit(ed', rest, limit)
    ensures ed'.cursor <= |ed'.text| && !ed'.done && LineOf(ed') == K.Stroked(LineOf(ed), k, limit)
  {
    hide Edit, Press, Arrow;
    CodesEdit(ed, k, rest, limit);
    ed' := Stroke(ed, k, limit);
    match k {
      case Char(c) => PressLine(ed, c, limit);
      case Back => PressLine(ed, 8, limit);
      case Left => ArrowLine(ed, 0x44);
      case Right => ArrowLine(ed, 0x43);
      case Noise(_) =>
    }
  }

  lemma PressLine(ed: Ed, c: int, limit: nat)
    requires ed.cursor <= |ed.text|
    ensures var ed' := Press(ed, c, limit);
            && ed'.cursor <= |ed'.text| && ed'.done == ed.done
            && (32 <= c <= 126 && |ed.text| < limit ==>
                  ed'.text[..ed'.cursor] == ed.text[..ed.cursor] + [c] && ed'.text[ed'.cursor..] == ed.text[ed.cursor..])
            && (c == 8 && ed.cursor > 0 ==>
                  ed'.text[..ed'.cursor] == ed.text[..ed.cursor - 1] && ed'.text[ed'.cursor..] == ed.text[ed.cursor..])
            && (!(32 <= c <= 126 && |ed.text| < limit) && !(c == 8 && ed.cursor > 0) ==> ed' == ed)
  {
  }

  lemma ArrowLine(ed: Ed, c: int)
    requires ed.cursor <= |ed.text|
    ensures var ed' := Arrow(ed, c);
            && ed'.text == ed.text && ed'.done == ed.done
            && ed'.cursor == if c == 0x44 && ed.cursor > 0 then ed.cursor - 1
                             else if c == 0x43 && ed.cursor < |ed.text| then ed.cursor + 1 else ed.cursor
  {
  }

  /** Any keys, and what may follow them: the line is the one the keys make. */
  lemma {:induction false} EditStrokes(ed: Ed, ks: seq<K.Stroke>, tail: seq<int>, limit: nat)
    requires K.AllProper(ks) && K.Ending(tail) && ed.cursor <= |ed.text| && !ed.done
    ensures var r := Edit(ed, K.AllCodes(ks) + tail, limit);
            && r.cursor <= |r.text| && LineOf(r) == K.AllStroked(LineOf(ed), ks, limit)
            && (r.done <==> K.Entered(tail))
    decreases |ks|
  {
    hide K.Stroked, K.Codes, K.Proper, LineOf;
    if ks == [] {
      assert K.AllCodes(ks) + tail == tail;
      SameLine(ed);
    } else {
      var rest := K.AllCodes(ks[1..]) + tail;
      assert K.AllCodes(ks) + tail == K.Codes(ks[0]) + rest;
      var ed' := StrokeEdit(ed, ks[0], rest, limit);
      EditStrokes(ed', ks[1..], tail, limit);
    }
  }

  lemma SameLine(ed: Ed)
    requires ed.cursor <= |ed.text|
    ensures LineOf(ed.(done := true)) == LineOf(ed)
  {
  }

  /** The editor's state after these codes, told from the keys they come from. */
  ghost predicate Keyed(keys: seq<int>, room: nat, ed: Ed)
  {
    && (exists ks, tail :: K.AllProper(ks) && K.Ending(tail) && keys == K.AllCodes(ks) + tail)
    && forall ks, tail :: K.AllProper(ks) && K.Ending(tail) && keys == K.AllCodes(ks) + tail ==>
         var l := K.AllStroked(K.NEW_LINE, ks, room);
         ed.text == l.left + l.right && ed.cursor == |l.left| && (ed.done <==> K.Entered(tail))
  }

  /** Every sequence of codes is keys, and the editor does what they say. */
  lemma EditKeyed(keys: seq<int>, room: nat)
    ensures Keyed(keys, room, Edit(EMPTY, keys, room))
  {
    hide Edit, K.AllStroked, K.AllProper, K.Ending, K.AllCodes, K.Entered;
    var ks0, tail0 := K.StrokesOf(keys);
    assert LineOf(EMPTY) == K.NEW_LINE;
    forall ks, tail | K.AllProper(ks) && K.Ending(tail) && keys == K.AllCodes(ks) + tail
      ensures var l, ed := K.AllStroked(K.NEW_LINE, ks, room), Edit(EMPTY, keys, room);
              ed.text == l.left + l.right && ed.cursor == |l.left| && (ed.done <==> K.Entered(tail))
    {
      EditStrokes(EMPTY, ks, tail, room);
      var ed := Edit(EMPTY, keys, room);
      assert ed.text == ed.text[..ed.cursor] + ed.text[ed.cursor..];
    }
  }

  // ---- What is sent to the screen ----------------------------------------------------------

  function Backs(n: nat): seq<int>
  {
    seq(n, _ => BACK)
  }

  function EchoArrow(ed: Ed, c: int): seq<int>
  {
    if c == 'D' as int && ed.cursor > 0 then [BACK]
    else if c == 'C' as int && ed.cursor < |ed.text| then [ed.text[ed.cursor]]
    else []
  }

  function EchoPress(ed: Ed, c: int, limit: nat): seq<int>
  {
    if ed.cursor > |ed.text| then []
    else
      var tail := ed.text[ed.cursor..];
      if c == BACK then
        if ed.cursor == 0 then [] else [BACK] + tail + [SPACE] + Backs(|tail| + 1)
      else if Printable(c) && |ed.text| < limit then [c] + tail + Backs(|tail|)
      else []
  }

  function Output(ed: Ed, keys: seq<int>, limit: nat): seq<int>
    decreases |keys|
  {
    if keys == [] || ed.done then []
    else if keys[0] == 0x1B then
      if |keys| == 1 then []
      else if keys[1] != '[' as int then Output(ed, keys[2..], limit)
      else if |keys| == 2 then []
      else EchoArrow(ed, keys[2]) + Output(Arrow(ed, keys[2]), keys[3..], limit)
    else if keys[0] == NEWLINE || keys[0] == RETURN then [NEWLINE]
    else EchoPress(ed, keys[0], limit) + Output(Press(ed, keys[0], limit), keys[1..], limit)
  }

  // ---- Screen and line in step -------------------------------------------------------------

  /** The row with the line in it; cells the line has left are blank, the rest is untouched. */
  ghost function RowOf(row: seq<int>, start: nat, ed: Ed): seq<int>
  {
    if start + ed.peak > |row| || ed.peak < |ed.text| then row else
      row[..start] + ed.text + seq(ed.peak - |ed.text|, _ => SPACE) + row[start + ed.peak..]
  }

  /** The screen shows the line at column `t0.x` of row `t0.y`, with the cursor in its place. */
  ghost predicate InStep(t0: Term, t: Term, ed: Ed)
    requires OnScreen(t0)
  {
    && OnScreen(t) && t.y == t0.y && t.x == t0.x + ed.cursor
    && t.cells == t0.cells[t0.y := RowOf(t0.cells[t0.y], t0.x, ed)]
  }

  /** Characters at one place of the current row. */
  ghost function Overwrite(t: Term, cs: seq<int>): Term
    requires OnScreen(t)
  {
    if t.x + |cs| > 80 then t else
      var row := t.cells[t.y];
      Term(t.x + |cs|, t.y, t.cells[t.y := row[..t.x] + cs + row[t.x + |cs|..]])
  }

  ghost predicate Plain(cs: seq<int>)
  {
    forall i :: 0 <= i < |cs| ==> Printable(cs[i])
  }

  lemma {:induction false} PutPlain(t: Term, cs: seq<int>)
    requires OnScreen(t) && Plain(cs) && t.x + |cs| <= 79
    ensures PutAll(t, cs) == Overwrite(t, cs) && OnScreen(Overwrite(t, cs))
    decreases |cs|
  {
    if cs == [] {
      var row := t.cells[t.y];
      assert row[..t.x] + [] + row[t.x..] == row;
      assert t.cells[t.y := row] == t.cells;
    } else {
      var n := |cs| - 1;
      PutPlain(t, cs[..n]);
      PutNext(t, cs[..n], cs[n]);
      assert cs == cs[..n] + [cs[n]];
    }
  }

  lemma PutNext(t: Term, cs: seq<int>, c: int)
    requires OnScreen(t) && t.x + |cs| + 1 <= 79 && OnScreen(Overwrite(t, cs)) && Printable(c)
    ensures Put(Overwrite(t, cs), c) == Overwrite(t, cs + [c]) && OnScreen(Overwrite(t, cs + [c]))
  {
    var row := t.cells[t.y];
    var a := row[..t.x] + cs + row[t.x + |cs|..];
    var b := row[..t.x] + (cs + [c]) + row[t.x + |cs| + 1..];
    assert a[t.x + |cs| := c] == b;
    assert t.cells[t.y := a][t.y := b] == t.cells[t.y := b];
  }

  lemma {:induction false} PutBacks(t: Term, n: nat)
    requires OnScreen(t) && n <= t.x
    ensures PutAll(t, Backs(n)) == t.(x := t.x - n)
  {
    if n > 0 {
      PutBacks(t, n - 1);
      assert Backs(n) == Backs(n - 1) + [BACK];
      PutAllOne(t, Backs(n - 1), BACK);
    }
  }

  lemma RowAt(row: seq<int>, start: nat, ed: Ed)
    requires |row| == 80 && start + ed.peak <= 79 && |ed.text| <= ed.peak
    ensures var r := RowOf(row, start, ed);
            && |r| == 80
            && (forall i :: 0 <= i < start ==> r[i] == row[i])
            && (forall i :: start <= i < start + |ed.text| ==> r[i] == ed.text[i - start])
            && (forall i :: start + |ed.text| <= i < start + ed.peak ==> r[i] == SPACE)
            && forall i :: start + ed.peak <= i < 80 ==> r[i] == row[i]
  {
  }

  /** Printing the changed part of the line over the old one gives the new one. */
  lemma RowChange(row: seq<int>, start: nat, ed: Ed, ed': Ed, at: nat, cs: seq<int>)
    requires |row| == 80 && start + ed'.peak <= 79 && |ed.text| <= ed.peak <= ed'.peak && |ed'.text| <= ed'.peak
    requires at <= |ed.text| && at <= |ed'.text| && ed.text[..at] == ed'.text[..at]
    requires at + |cs| == Max(|ed.text|, |ed'.text|) && ed'.peak == Max(ed.peak, at + |cs|)
    requires forall i :: 0 <= i < |cs| ==> cs[i] == if at + i < |ed'.text| then ed'.text[at + i] else SPACE
    ensures var r := RowOf(row, start, ed);
            |r| == 80 && r[..start + at] + cs + r[start + at + |cs|..] == RowOf(row, start, ed')
  {
    hide RowOf;
    RowAt(row, start, ed);
    RowAt(row, start, ed');
    var r, r' := RowOf(row, start, ed), RowOf(row, start, ed');
    var new' := r[..start + at] + cs + r[start + at + |cs|..];
    forall i | 0 <= i < 80
      ensures new'[i] == r'[i]
    {
      if start <= i < start + at {
        assert ed.text[..at][i - start] == ed'.text[..at][i - start];
      } else if start + at <= i < start + at + |cs| {
        assert new'[i] == cs[i - start - at];
      }
    }
  }

  /** Print over the line from `at` on, then step back to the new cursor. */
  lemma Redraw(t0: Term, t: Term, ed: Ed, ed': Ed, at: nat, cs: seq<int>, backs: nat)
    requires OnScreen(t0) && InStep(t0, t, ed.(cursor := at)) && Plain(cs) && t0.x + ed'.peak <= 79
    requires |ed.text| <= ed.peak <= ed'.peak && |ed'.text| <= ed'.peak
    requires at <= |ed.text| && at <= |ed'.text| && ed.text[..at] == ed'.text[..at]
    requires at + |cs| == Max(|ed.text|, |ed'.text|) && ed'.peak == Max(ed.peak, at + |cs|)
    requires forall i :: 0 <= i < |cs| ==> cs[i] == if at + i < |ed'.text| then ed'.text[at + i] else SPACE
    requires backs <= at + |cs| && ed'.cursor == at + |cs| - backs
    ensures InStep(t0, PutAll(t, cs + Backs(backs)), ed')
  {
    hide RowOf, Put, PutAll, Backs, Overwrite;
    var row := t0.cells[t0.y];
    PutAllAdd(t, cs, Backs(backs));
    PutPlain(t, cs);
    SameRow(row, t0.x, ed, at);
    RowChange(row, t0.x, ed, ed', at, cs);
    OverwriteIs(t0, t, cs, RowOf(row, t0.x, ed), RowOf(row, t0.x, ed'));
    PutBacks(Overwrite(t, cs), backs);
  }

  /** Printing over one row of the screen. */
  lemma OverwriteIs(t0: Term, t: Term, cs: seq<int>, was: seq<int>, now: seq<int>)
    requires OnScreen(t0) && OnScreen(t) && t.y == t0.y && t.cells == t0.cells[t0.y := was] && t.x + |cs| <= 79
    requires |was| == 80 && was[..t.x] + cs + was[t.x + |cs|..] == now
    ensures Overwrite(t, cs) == Term(t.x + |cs|, t0.y, t0.cells[t0.y := now])
  {
    assert t.cells[t.y] == was;
    assert t0.cells[t0.y := was][t0.y := now] == t0.cells[t0.y := now];
  }

  lemma SameRow(row: seq<int>, start: nat, ed: Ed, at: nat)
    ensures RowOf(row, start, ed.(cursor := at)) == RowOf(row, start, ed)
  {
  }

  lemma PressInStep(t0: Term, t: Term, ed: Ed, c: int, limit: nat)
    requires OnScreen(t0) && Sane(ed, limit) && InStep(t0, t, ed) && t0.x + Press(ed, c, limit).peak <= 79
    ensures InStep(t0, PutAll(t, EchoPress(ed, c, limit)), Press(ed, c, limit))
  {
    hide RowOf, Put, PutAll, InStep, Backs;
    PutAllOne(t, [], 0);
    var tail := ed.text[ed.cursor..];
    var ed' := Press(ed, c, limit);
    if c == BACK && ed.cursor > 0 {
      var cs := tail + [SPACE];
      var at := ed.cursor - 1;
      assert EchoPress(ed, c, limit) == [BACK] + (cs + Backs(|tail| + 1));
      PutAllAdd(t, [BACK], cs + Backs(|tail| + 1));
      PutAllOne(t, [], BACK);
      StepBack(t0, t, ed);
      Redraw(t0, Put(t, BACK), ed, ed', at, cs, |tail| + 1);
    } else if c != BACK && Printable(c) && |ed.text| < limit {
      var cs := [c] + tail;
      assert EchoPress(ed, c, limit) == cs + Backs(|tail|);
      assert ed == ed.(cursor := ed.cursor);
      Redraw(t0, t, ed, ed', ed.cursor, cs, |tail|);
    }
  }

  lemma StepBack(t0: Term, t: Term, ed: Ed)
    requires OnScreen(t0) && InStep(t0, t, ed) && ed.cursor > 0
    ensures InStep(t0, Put(t, BACK), ed.(cursor := ed.cursor - 1))
  {
    hide RowOf;
    SameRow(t0.cells[t0.y], t0.x, ed, ed.cursor - 1);
  }

  lemma ArrowInStep(t0: Term, t: Term, ed: Ed, c: int, limit: nat)
    requires OnScreen(t0) && Sane(ed, limit) && InStep(t0, t, ed) && t0.x + ed.peak <= 79
    ensures InStep(t0, PutAll(t, EchoArrow(ed, c)), Arrow(ed, c))
  {
    hide RowOf, Put, PutAll, InStep, Backs;
    PutAllOne(t, [], 0);
    if c == 'D' as int && ed.cursor > 0 {
      PutAllOne(t, [], BACK);
      StepBack(t0, t, ed);
    } else if c == 'C' as int && ed.cursor < |ed.text| {
      PutAllOne(t, [], ed.text[ed.cursor]);
      StepOver(t0, t, ed);
    }
  }

  lemma StepOver(t0: Term, t: Term, ed: Ed)
    requires OnScreen(t0) && InStep(t0, t, ed) && ed.cursor < |ed.text| <= ed.peak && t0.x + ed.peak <= 79
    requires Printable(ed.text[ed.cursor])
    ensures InStep(t0, Put(t, ed.text[ed.cursor]), ed.(cursor := ed.cursor + 1))
  {
    hide RowOf;
    var row := t0.cells[t0.y];
    SameRow(row, t0.x, ed, ed.cursor + 1);
    RowAt(row, t0.x, ed);
    var shown := t.cells[t.y];
    assert shown == RowOf(row, t0.x, ed);
    assert shown[t.x] == ed.text[ed.cursor];
    assert shown[t.x := ed.text[ed.cursor]] == shown;
    assert t.cells[t.y := shown] == t.cells;
  }

  /** The screen the editor means: one line down once Enter was pressed. */
  ghost function Picture(t0: Term, ed: Ed): Term
    requires OnScreen(t0)
  {
    var shown := Term(t0.x + ed.cursor, t0.y, t0.cells[t0.y := RowOf(t0.cells[t0.y], t0.x, ed)]);
    if ed.done then Newline(shown) else shown
  }

  lemma {:induction false} PeakGrows(ed: Ed, keys: seq<int>, limit: nat)
    ensures ed.peak <= Edit(ed, keys, limit).peak
    decreases |keys|
  {
    if keys == [] || ed.done {
    } else if keys[0] == 0x1B {
      if |keys| > 1 && keys[1] != '[' as int {
        PeakGrows(ed, keys[2..], limit);
      } else if |keys| > 2 {
        PeakGrows(Arrow(ed, keys[2]), keys[3..], limit);
      }
    } else if keys[0] != NEWLINE && keys[0] != RETURN {
      PeakGrows(Press(ed, keys[0], limit), keys[1..], limit);
    }
  }

  /** As long as the line has never reached past column 79, screen and line are in step. */
  lemma {:induction false} EditInStep(t0: Term, t: Term, ed: Ed, keys: seq<int>, limit: nat)
    requires OnScreen(t0) && Sane(ed, limit) && !ed.done && InStep(t0, t, ed)
    requires t0.x + Edit(ed, keys, limit).peak <= 79
    ensures PutAll(t, Output(ed, keys, limit)) == Picture(t0, Edit(ed, keys, limit))
    decreases |keys|
  {
    hide RowOf, PutAll, Sane, Press, Arrow, EchoPress, EchoArrow, Newline;
    PutAllOne(t, [], NEWLINE);
    if keys == [] {
    } else if keys[0] == 0x1B {
      if |keys| > 1 && keys[1] != '[' as int {
        EditInStep(t0, t, ed, keys[2..], limit);
      } else if |keys| > 2 {
        var ed' := Arrow(ed, keys[2]);
        PeakGrows(ed', keys[3..], limit);
        ArrowKeeps(ed, keys[2], limit);
        ArrowInStep(t0, t, ed, keys[2], limit);
        PutAllAdd(t, EchoArrow(ed, keys[2]), Output(ed', keys[3..], limit));
        EditInStep(t0, PutAll(t, EchoArrow(ed, keys[2])), ed', keys[3..], limit);
      }
    } else if keys[0] == NEWLINE || keys[0] == RETURN {
      assert Output(ed, keys, limit) == [NEWLINE];
      DoneRow(t0.cells[t0.y], t0.x, ed);
      assert PutAll(t, [NEWLINE]) == Newline(t);
    } else {
      var ed' := Press(ed, keys[0], limit);
      PeakGrows(ed', keys[1..], limit);
      PressSane(ed, keys[0], limit);
      PressKeeps(ed, keys[0], limit);
      PressInStep(t0, t, ed, keys[0], limit);
      PutAllAdd(t, EchoPress(ed, keys[0], limit), Output(ed', keys[1..], limit));
      EditInStep(t0, PutAll(t, EchoPress(ed, keys[0], limit)), ed', keys[1..], limit);
    }
  }

  lemma ArrowKeeps(ed: Ed, c: int, limit: nat)
    requires Sane(ed, limit)
    ensures Sane(Arrow(ed, c), limit) && Arrow(ed, c).done == ed.done && Arrow(ed, c).peak == ed.peak
  {
  }

  lemma PressKeeps(ed: Ed, c: int, limit: nat)
    ensures Press(ed, c, limit).done == ed.done
  {
  }

  lemma DoneRow(row: seq<int>, start: nat, ed: Ed)
    ensures RowOf(row, start, ed.(done := true)) == RowOf(row, start, ed)
  {
  }

  lemma StartInStep(t0: Term)
    requires OnScreen(t0)
    ensures InStep(t0, t0, EMPTY) && Sane(EMPTY, 0)
  {
    var row := t0.cells[t0.y];
    assert row[..t0.x] + [] + seq(0, _ => SPACE) + row[t0.x..] == row;
    assert t0.cells[t0.y := row] == t0.cells;
  }

  /** The screen is right after these keys. */
  ghost predicate Right(t0: Term, keys: seq<int>, limit: nat)
    requires OnScreen(t0)
  {
    PutAll(t0, Output(EMPTY, keys, limit)) == Picture(t0, Edit(EMPTY, keys, limit))
  }

  /** Every sequence of keys leaves the screen right exactly when the whole buffer fits in the row. */
  lemma AlwaysRight(t0: Term, limit: nat)
    requires OnScreen(t0)
    ensures (forall keys :: Right(t0, keys, limit)) <==> t0.x + limit <= 79
  {
    hide RowOf, PutAll, Edit, Output, Picture;
    StartInStep(t0);
    if t0.x + limit <= 79 {
      forall keys
        ensures Right(t0, keys, limit)
      {
        EditSane(EMPTY, keys, limit);
        EditInStep(t0, t0, EMPTY, keys, limit);
      }
    } else {
      Overflows(t0, limit);
    }
  }

  function Letters(n: nat): seq<int>
  {
    seq(n, _ => 'a' as int)
  }

  lemma {:induction false} Typing(m: nat, n: nat, limit: nat)
    requires m + n <= limit
    ensures Edit(Ed(Letters(m), m, m, false), Letters(n), limit) == Ed(Letters(m + n), m + n, m + n, false)
    ensures Output(Ed(Letters(m), m, m, false), Letters(n), limit) == Letters(n)
    decreases n
  {
    if n > 0 {
      var ed := Ed(Letters(m), m, m, false);
      assert Letters(n)[1..] == Letters(n - 1) && Letters(n)[0] == 'a' as int;
      assert Press(ed, 'a' as int, limit) == Ed(Letters(m + 1), m + 1, m + 1, false) by {
        assert Letters(m)[..m] + ['a' as int] + Letters(m)[m..] == Letters(m + 1);
      }
      assert EchoPress(ed, 'a' as int, limit) == ['a' as int];
      Typing(m + 1, n - 1, limit);
      assert ['a' as int] + Letters(n - 1) == Letters(n);
    }
  }

  /** A line that fills the row leaves the screen's cursor on the next one. */
  lemma Overflows(t0: Term, limit: nat)
    requires OnScreen(t0) && t0.x + limit >= 80
    ensures !Right(t0, Letters(80 - t0.x), limit)
  {
    hide RowOf, PutAll, Edit, Output;
    var n: nat := 80 - t0.x;
    Typing(0, n, limit);
    assert Letters(0) == [] && Ed(Letters(0), 0, 0, false) == EMPTY;
    assert Letters(n) == Letters(n - 1) + ['a' as int];
    PutAllOne(t0, Letters(n - 1), 'a' as int);
    PutPlain(t0, Letters(n - 1));
  }

  // ---- `fgets` -----------------------------------------------------------------------------

  method Print(term: Terminal, s: array<int>, lo: nat, hi: nat)
    requires OnScreen(term.State()) && lo <= hi <= s.Length
    modifies term
    ensures OnScreen(term.State()) && term.State() == PutAll(old(term.State()), s[lo..hi])
  {
    hide Put, OnScreen, PutAll;
    PutAllOne(term.State(), [], 0);
    assert s[lo..lo] == [];
    for i := lo to hi
      invariant OnScreen(term.State()) && term.State() == PutAll(old(term.State()), s[lo..i])
    {
      PutAllOne(old(term.State()), s[lo..i], s[i]);
      assert s[lo..i + 1] == s[lo..i] + [s[i]];
      term.Putchar(s[i]);
    }
  }

  method BackUp(term: Terminal, n: nat)
    requires OnScreen(term.State())
    modifies term
    ensures OnScreen(term.State()) && term.State() == PutAll(old(term.State()), Backs(n))
  {
    hide Put, OnScreen, PutAll;
    PutAllOne(term.State(), [], 0);
    assert Backs(0) == [];
    for i := 0 to n
      invariant OnScreen(term.State()) && term.State() == PutAll(old(term.State()), Backs(i))
    {
      PutAllOne(old(term.State()), Backs(i), BACK);
      assert Backs(i + 1) == Backs(i) + [BACK];
      term.Putchar(BACK);
    }
  }

  /** Close the gap at `at` in the first `len` cells. */
  method CloseGap(s: array<int>, at: nat, len: nat)
    requires at < len <= s.Length
    modifies s
    ensures s[..len - 1] == old(s[..at]) + old(s[at + 1..len])
  {
    var i := at;
    while i < len - 1
      invariant at <= i <= len - 1
      invariant forall j :: 0 <= j < s.Length ==> s[j] == if at <= j < i then old(s[j + 1]) else old(s[j])
    {
      s[i] := s[i + 1];
      i := i + 1;
    }
  }

  /** Open a gap at `at` and fill it. */
  method OpenGap(s: array<int>, at: nat, len: nat, c: int)
    requires at <= len < s.Length
    modifies s
    ensures s[..len + 1] == old(s[..at]) + [c] + old(s[at..len])
  {
    var i := len;
    while i > at
      invariant at <= i <= len
      invariant forall j :: 0 <= j < s.Length ==> s[j] == if i < j <= len then old(s[j - 1]) else old(s[j])
    {
      s[i] := s[i - 1];
      i := i - 1;
    }
    s[at] := c;
  }

  /** Backspace in the middle of a line. */
  method Erase(term: Terminal, s: array<int>, cursor: nat, len: nat, ghost ed: Ed, ghost limit: nat)
    requires OnScreen(term.State()) && limit < s.Length && Sane(ed, limit) && 0 < cursor == ed.cursor
    requires len == |ed.text| && s[..len] == ed.text
    modifies term, s
    ensures OnScreen(term.State()) && term.State() == PutAll(old(term.State()), EchoPress(ed, BACK, limit))
    ensures s[..len - 1] == Press(ed, BACK, limit).text
  {
    hide Put, OnScreen, PutAll, Backs;
    ghost var t0, tail := term.State(), ed.text[cursor..];
    assert old(s[..cursor - 1]) == ed.text[..cursor - 1] && old(s[cursor..len]) == tail;
    CloseGap(s, cursor - 1, len);
    ghost var text := Press(ed, BACK, limit).text;
    assert s[..len - 1] == text;
    PutAllOne(t0, [], BACK);
    term.Putchar(BACK);
    assert s[cursor - 1..len - 1] == s[..len - 1][cursor - 1..] == tail;
    Print(term, s, cursor - 1, len - 1);
    PutAllAdd(t0, [BACK], tail);
    term.Putchar(SPACE);
    PutAllOne(t0, [BACK] + tail, SPACE);
    PutAllAdd(t0, [BACK] + tail + [SPACE], Backs(|tail| + 1));
    BackUp(term, len - 1 - (cursor - 1) + 1);
  }

  /** Any other key that is taken. */
  method Type(term: Terminal, s: array<int>, cursor: nat, len: nat, c: int, ghost ed: Ed, ghost limit: nat)
    requires OnScreen(term.State()) && limit < s.Length && Sane(ed, limit) && cursor == ed.cursor
    requires Printable(c) && len == |ed.text| < limit && s[..len] == ed.text
    modifies term, s
    ensures OnScreen(term.State()) && term.State() == PutAll(old(term.State()), EchoPress(ed, c, limit))
    ensures s[..len + 1] == Press(ed, c, limit).text
  {
    hide Put, OnScreen, PutAll, Backs;
    ghost var t0, tail := term.State(), ed.text[cursor..];
    assert old(s[..cursor]) == ed.text[..cursor] && old(s[cursor..len]) == tail;
    OpenGap(s, cursor, len, c);
    ghost var text := Press(ed, c, limit).text;
    assert s[..len + 1] == text;
    assert s[cursor..len + 1] == s[..len + 1][cursor..] == [c] + tail;
    Print(term, s, cursor, len + 1);
    PutAllAdd(t0, [c] + tail, Backs(|tail|));
    BackUp(term, len + 1 - (cursor + 1));
  }

  /** Any key but Escape and Enter. */
  method Key(term: Terminal, s: array<int>, cursor: nat, len: nat, c: int, limit: nat, ghost ed: Ed)
    returns (cursor': nat, len': nat)
    requires OnScreen(term.State()) && limit < s.Length && Sane(ed, limit) && cursor == ed.cursor
    requires len == |ed.text| && s[..len] == ed.text
    modifies term, s
    ensures OnScreen(term.State()) && term.State() == PutAll(old(term.State()), EchoPress(ed, c, limit))
    ensures var ed' := Press(ed, c, limit); cursor' == ed'.cursor && len' == |ed'.text| <= limit && s[..len'] == ed'.text
  {
    hide Put, OnScreen, PutAll, EchoPress, Press;
    cursor', len' := cursor, len;
    PressSane(ed, c, limit);
    PressCases(ed, c, limit);
    PutAllOne(term.State(), [], 0);
    if c == BACK {
      if cursor > 0 {
        Erase(term, s, cursor, len, ed, limit);
        len', cursor' := len - 1, cursor - 1;
      }
    } else if 32 <= c <= 126 && len < limit {
      Type(term, s, cursor, len, c, ed, limit);
      len', cursor' := len + 1, cursor + 1;
    }
  }

  /** An arrow key. */
  method Move(term: Terminal, s: array<int>, cursor: nat, len: nat, c: int, ghost ed: Ed) returns (cursor': nat)
    requires OnScreen(term.State()) && len == |ed.text| <= s.Length && cursor == ed.cursor <= len && s[..len] == ed.text
    modifies term
    ensures OnScreen(term.State()) && term.State() == PutAll(old(term.State()), EchoArrow(ed, c))
    ensures cursor' == Arrow(ed, c).cursor
  {
    hide Put, OnScreen, PutAll;
    cursor' := cursor;
    PutAllOne(term.State(), [], BACK);
    if c == 'D' as int {
      if cursor > 0 {
        cursor' := cursor - 1;
        term.Putchar(BACK);
      }
    } else if c == 'C' as int {
      if cursor < len {
        assert s[cursor] == s[..len][cursor];
        PutAllOne(term.State(), [], s[cursor]);
        term.Putchar(s[cursor]);
        cursor' := cursor + 1;
      }
    }
  }

  /**
   * `fgets` on the key codes that have arrived: it is the pure editor with room for `size - 1`
   * characters, it sends its output to the screen, and it ends the text with 0 on Enter.
   */
  method Fgets(term: Terminal, s: array?<int>, size: int, keys: seq<int>) returns (ok: bool, done: bool)
    requires OnScreen(term.State()) && (s != null && size > 0 ==> size <= s.Length)
    modifies term, if s == null then {} else {s}
    ensures ok <==> s != null && size > 0
    ensures !ok ==> term.State() == old(term.State())
    ensures ok ==>
              var ed := Edit(EMPTY, keys, size - 1);
              && ed.cursor <= |ed.text| <= size - 1 && s[..|ed.text|] == ed.text
              && done == ed.done && (done ==> s[|ed.text|] == 0)
              && term.State() == PutAll(old(term.State()), Output(EMPTY, keys, size - 1))
              && Keyed(keys, size - 1, ed)
  {
    hide Keyed;
    hide Put, OnScreen, PutAll, EchoPress, EchoArrow, Press, Arrow;
    ok, done := s != null && size > 0, false;
    if !ok {
      return;
    }
    ghost var t0, limit: nat, ed, out := term.State(), size - 1, EMPTY, [];
    EditKeyed(keys, limit);
    var len, cursor, k := 0, 0, 0;
    PutAllOne(t0, [], 0);
    while k < |keys|
      invariant k <= |keys| && OnScreen(term.State()) && term.State() == PutAll(t0, out)
      invariant Sane(ed, limit) && !ed.done && len == |ed.text| && cursor == ed.cursor && s[..len] == ed.text
      invariant Edit(EMPTY, keys, limit) == Edit(ed, keys[k..], limit)
      invariant Output(EMPTY, keys, limit) == out + Output(ed, keys[k..], limit)
      decreases |keys| - k
    {
      var c := keys[k];
      assert out + [] == out;
      if c == 0x1B {
        if k + 1 == |keys| {
          return;
        }
        if keys[k + 1] != '[' as int {
          assert keys[k..][2..] == keys[k + 2..];
          k := k + 2;
          continue;
        }
        if k + 2 == |keys| {
          return;
        }
        assert keys[k..][3..] == keys[k + 3..];
        cursor := Move(term, s, cursor, len, keys[k + 2], ed);
        PutAllAdd(t0, out, EchoArrow(ed, keys[k + 2]));
        ArrowKeeps(ed, keys[k + 2], limit);
        ArrowText(ed, keys[k + 2]);
        out := out + EchoArrow(ed, keys[k + 2]);
        ed := Arrow(ed, keys[k + 2]);
        k := k + 3;
        continue;
      }
      if c == NEWLINE || c == RETURN {
        assert Output(ed, keys[k..], limit) == [NEWLINE];
        PutAllOne(t0, out, NEWLINE);
        s[len] := 0;
        term.Putchar(NEWLINE);
        done := true;
        return;
      }
      assert keys[k..][1..] == keys[k + 1..];
      PressSane(ed, c, limit);
      PressKeeps(ed, c, limit);
      PutAllAdd(t0, out, EchoPress(ed, c, limit));
      cursor, len := Key(term, s, cursor, len, c, size - 1, ed);
      out := out + EchoPress(ed, c, limit);
      ed := Press(ed, c, limit);
      k := k + 1;
    }
    assert out + [] == out;
  }

  lemma ArrowText(ed: Ed, c: int)
    ensures Arrow(ed, c).text == ed.text
  {
  }

  lemma PressCases(ed: Ed, c: int, limit: nat)
    requires Sane(ed, limit)
    ensures c == BACK && ed.cursor > 0 ==>
              |Press(ed, c, limit).text| == |ed.text| - 1 && Press(ed, c, limit).cursor == ed.cursor - 1
    ensures c != BACK && Printable(c) && |ed.text| < limit ==>
              |Press(ed, c, limit).text| == |ed.text| + 1 && Press(ed, c, limit).cursor == ed.cursor + 1
    ensures !(c == BACK && ed.cursor > 0) && !(c != BACK && Printable(c) && |ed.text| < limit) ==>
              Press(ed, c, limit) == ed && EchoPress(ed, c, limit) == []
  {
  }
}
