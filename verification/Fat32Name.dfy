/** 8.3 directory names: packing a name into the 11-byte field and reading it back. */
module Fat32Name {
  import opened Bytes

  const SPACE: byte := 0x20
  const DOT: byte := 0x2E

  /** A C string: no NUL inside. */
  predicate IsCString(n: seq<byte>) { forall i :: 0 <= i < |n| ==> n[i] != 0 }

  function Upper(c: byte): byte { if 0x61 <= c <= 0x7A then c - 0x20 else c }

  function Lower(c: byte): byte { if 0x41 <= c <= 0x5A then c + 0x20 else c }

  predicate Printable(c: byte) { 0x21 <= c <= 0x7E }

  /** strrchr(name, '.'), as an index; -1 when there is no dot. */
  function LastDot(n: seq<byte>): (d: int)
    ensures -1 <= d < |n|
    ensures d >= 0 ==> n[d] == DOT
    ensures forall i :: d < i < |n| ==> n[i] != DOT
  {
    if n == [] then -1
    else if n[|n| - 1] == DOT then |n| - 1
    else LastDot(n[..|n| - 1])
  }

  /** At most `k` upper-cased bytes, padded with spaces to exactly `k`. */
  function Padded(s: seq<byte>, k: nat): (r: seq<byte>)
    ensures |r| == k
    ensures forall i :: 0 <= i < k ==> r[i] == if i < |s| then Upper(s[i]) else SPACE
  {
    seq(k, i requires 0 <= i => if i < |s| then Upper(s[i]) else SPACE)
  }

  /** The field `fat32_name_to_83` builds. */
  function To83(n: seq<byte>): (f: seq<byte>)
    ensures |f| == 11
  {
    var d := LastDot(n);
    if d < 0 then Padded(n, 8) + Padded([], 3) else Padded(n[..d], 8) + Padded(n[d + 1..], 3)
  }

  /** What one part of a field reads as: up to the first blank, unprintable bytes skipped. */
  function Part(f: seq<byte>): (r: seq<byte>)
    ensures |r| <= |f|
    ensures forall i :: 0 <= i < |r| ==> Printable(r[i]) && !(0x41 <= r[i] <= 0x5A)
  {
    if f == [] || f[0] == SPACE || f[0] == 0 then []
    else if !Printable(f[0]) then Part(f[1..])
    else [Lower(f[0])] + Part(f[1..])
  }

  /** The name `fat32_83_to_name` reads out of a field. */
  function From83(f: seq<byte>): (n: seq<byte>)
    requires |f| == 11
    ensures |n| <= 12
    ensures forall i :: 0 <= i < |n| ==> Printable(n[i]) && !(0x41 <= n[i] <= 0x5A)
  {
    var base, ext := Part(f[..8]), Part(f[8..]);
    if ext == [] then base else base + [DOT] + ext
  }

  /** The names that survive the trip through a directory slot. */
  predicate Canonical(n: seq<byte>)
  {
    && (forall i :: 0 <= i < |n| ==> Printable(n[i]) && !(0x41 <= n[i] <= 0x5A))
    && var d := LastDot(n);
       if d < 0 then |n| <= 8 else d <= 8 && 1 <= |n| - d - 1 <= 3
  }

  lemma {:induction false} PartOfPadded(s: seq<byte>, k: nat)
    requires |s| <= k
    requires forall i :: 0 <= i < |s| ==> Printable(s[i]) && !(0x41 <= s[i] <= 0x5A)
    ensures Part(Padded(s, k)) == s
  {
    if s != [] {
      assert Padded(s, k)[1..] == Padded(s[1..], k - 1);
      PartOfPadded(s[1..], k - 1);
      assert Lower(Upper(s[0])) == s[0];
    }
  }

  /** A part cannot come back longer than what was packed. */
  lemma {:induction false} PartBound(s: seq<byte>, k: nat)
    ensures |Part(Padded(s, k))| <= |s|
  {
    if k > 0 && s != [] {
      assert Padded(s, k)[1..] == Padded(s[1..], k - 1);
      PartBound(s[1..], k - 1);
    }
  }

  /** The two parts a name is packed from. */
  function Base(n: seq<byte>): seq<byte> { if LastDot(n) < 0 then n else n[..LastDot(n)] }

  function Ext(n: seq<byte>): seq<byte> { if LastDot(n) < 0 then [] else n[LastDot(n) + 1..] }

  lemma ReadBack(n: seq<byte>)
    ensures To83(n) == Padded(Base(n), 8) + Padded(Ext(n), 3)
    ensures To83(n)[..8] == Padded(Base(n), 8) && To83(n)[8..] == Padded(Ext(n), 3)
  {
  }

  lemma CanonicalReturns(n: seq<byte>)
    requires Canonical(n)
    ensures From83(To83(n)) == n
  {
    hide Part, Padded, To83;
    ReadBack(n);
    PartOfPadded(Base(n), 8);
    PartOfPadded(Ext(n), 3);
    if LastDot(n) >= 0 {
      assert n == Base(n) + [DOT] + Ext(n);
    }
  }

  lemma OnlyCanonicalReturns(n: seq<byte>)
    requires From83(To83(n)) == n
    ensures Canonical(n)
  {
    hide Part, Padded, To83, LastDot;
    ReadBack(n);
    PartBound(Base(n), 8);
    PartBound(Ext(n), 3);
    FromParts(To83(n));
  }

  /** The length of what a field reads as. */
  lemma FromParts(f: seq<byte>)
    requires |f| == 11
    ensures var base, ext := Part(f[..8]), Part(f[8..]);
            |base| <= 8 && |ext| <= 3 && |From83(f)| == |base| + if ext == [] then 0 else 1 + |ext|
  {
    hide Part;
  }

  /** A name survives packing and reading back exactly when it is canonical. */
  lemma RoundTrip(n: seq<byte>)
    ensures From83(To83(n)) == n <==> Canonical(n)
  {
    if Canonical(n) {
      CanonicalReturns(n);
    }
    if From83(To83(n)) == n {
      OnlyCanonicalReturns(n);
    }
  }

  /** Canonical names have distinct fields. */
  lemma DistinctFields(m: seq<byte>, n: seq<byte>)
    requires Canonical(m) && Canonical(n) && To83(m) == To83(n)
    ensures m == n
  {
    RoundTrip(m);
    RoundTrip(n);
  }

  /** When the slot made for a name would read as free (0x00) or deleted (0xE5). */
  lemma FirstByte(n: seq<byte>)
    requires IsCString(n) && n != []
    ensures To83(n)[0] != 0
    ensures To83(n)[0] == 0xE5 <==> n[0] == 0xE5
  {
    var d := LastDot(n);
    var base := if d < 0 then n else n[..d];
    assert To83(n)[0] == Padded(base, 8)[0];
  }

  // ---- The bytes of a field ----------------------------------------------------------------

  /** A letter of the name in upper case, any other byte as it is. */
  ghost predicate Capital(c: byte, u: byte)
  {
    u == if 0x61 <= c <= 0x7A then c - 0x20 else c
  }

  /**
   * Byte by byte: eight positions for what stands before the last dot, three for what stands behind
   * it, each filled with the letters made capitals and then with blanks; what does not fit is dropped.
   */
  lemma FieldBytes(n: seq<byte>, i: nat)
    requires i < 11
    ensures var d := LastDot(n);
            var base := if d < 0 then |n| else d;
            && (i < 8 && i < base ==> Capital(n[i], To83(n)[i]))
            && (i < 8 && i >= base ==> To83(n)[i] == 0x20)
            && (i >= 8 && d >= 0 && d + 1 + (i - 8) < |n| ==> Capital(n[d + 1 + (i - 8)], To83(n)[i]))
            && (i >= 8 && (d < 0 || d + 1 + (i - 8) >= |n|) ==> To83(n)[i] == 0x20)
  {
    hide To83, LastDot;
    ReadBack(n);
    if i < 8 {
      assert To83(n)[i] == To83(n)[..8][i];
    } else {
      assert To83(n)[i] == To83(n)[8..][i - 8];
    }
  }

  /** A field has no small letters. */
  lemma NoSmallLetters(n: seq<byte>, i: nat)
    requires i < 11
    ensures !(0x61 <= To83(n)[i] <= 0x7A)
  {
    hide To83, LastDot;
    FieldBytes(n, i);
  }

  /** The same byte, or the same letter in the other case. */
  ghost predicate SameLetter(a: byte, b: byte)
  {
    || a == b
    || (0x41 <= a <= 0x5A && b == a + 0x20)
    || (0x41 <= b <= 0x5A && a == b + 0x20)
  }

  lemma {:induction false} SameDot(m: seq<byte>, n: seq<byte>)
    requires |m| == |n| && forall i :: 0 <= i < |n| ==> SameLetter(m[i], n[i])
    ensures LastDot(m) == LastDot(n)
  {
    if n != [] {
      SameDot(m[..|m| - 1], n[..|n| - 1]);
    }
  }

  /** Names that differ in the case of letters only have one field. */
  lemma CaseBlind(m: seq<byte>, n: seq<byte>)
    requires |m| == |n| && forall i :: 0 <= i < |n| ==> SameLetter(m[i], n[i])
    ensures To83(m) == To83(n)
  {
    hide To83, LastDot;
    SameDot(m, n);
    forall i | 0 <= i < 11
      ensures To83(m)[i] == To83(n)[i]
    {
      FieldBytes(m, i);
      FieldBytes(n, i);
    }
  }

  /** How a part of a field is read: to the first blank or 0, leaving out what is not printable, capitals made small. */
  lemma PartReads(c: byte, rest: seq<byte>)
    ensures Part([]) == []
    ensures c == 0x20 || c == 0 ==> Part([c] + rest) == []
    ensures c != 0x20 && c != 0 && (c < 0x21 || c > 0x7E) ==> Part([c] + rest) == Part(rest)
    ensures 0x41 <= c <= 0x5A ==> Part([c] + rest) == [c + 0x20] + Part(rest)
    ensures 0x21 <= c <= 0x7E && !(0x41 <= c <= 0x5A) ==> Part([c] + rest) == [c] + Part(rest)
  {
    assert ([c] + rest)[1..] == rest;
  }

  /** The name is the first part, and a dot and the second part unless that is empty. */
  lemma NameReads(f: seq<byte>)
    requires |f| == 11
    ensures From83(f) == Part(f[..8]) + if Part(f[8..]) == [] then [] else [0x2E] + Part(f[8..])
  {
    hide Part;
  }

  /** Either loop of `fat32_name_to_83`: upper-case at most `k` bytes into a blank stretch. */
  method CopyUpper(f: seq<byte>, at: nat, src: seq<byte>, k: nat) returns (r: seq<byte>)
    requires at + k <= |f| && forall i :: at <= i < at + k ==> f[i] == SPACE
    ensures r == f[..at] + Padded(src, k) + f[at + k..]
  {
    r := f;
    var i := 0;
    while i < k && i < |src|
      invariant 0 <= i <= k && i <= |src| && |r| == |f|
      invariant forall j :: 0 <= j < |f| ==> r[j] == if at <= j < at + i then Upper(src[j - at]) else f[j]
    {
      r := r[at + i := if 0x61 <= src[i] <= 0x7A then src[i] - 0x61 + 0x41 else src[i]];
      i := i + 1;
    }
  }

  method NameTo83(name: seq<byte>) returns (f: seq<byte>)
    ensures f == To83(name)
  {
    hide To83, Padded, LastDot;
    var blank := BlankField();
    var dot := LastDot(name);
    f := CopyUpper(blank, 0, if dot >= 0 then name[..dot] else name, 8);
    BaseDone(blank, Padded(Base(name), 8), f);
    if dot >= 0 {
      f := CopyUpper(f, 8, name[dot + 1..], 3);
    }
    FieldDone(name, blank, f);
  }

  function BlankField(): (f: seq<byte>)
    ensures |f| == 11 && forall i :: 0 <= i < 11 ==> f[i] == SPACE
  {
    seq(11, _ => SPACE)
  }

  lemma BaseDone(blank: seq<byte>, b: seq<byte>, f: seq<byte>)
    requires |blank| == 11 && |b| == 8 && f == blank[..0] + b + blank[8..]
    ensures f == b + blank[8..] && |f| == 11 && f[..8] == b && f[11..] == []
    ensures forall i :: 8 <= i < 11 ==> f[i] == blank[i]
  {
  }

  /** The two stretches of a blank field, filled one after the other. */
  lemma FieldDone(name: seq<byte>, blank: seq<byte>, f: seq<byte>)
    requires |blank| == 11 && forall i :: 0 <= i < 11 ==> blank[i] == SPACE
    requires f == Padded(Base(name), 8) + (if LastDot(name) >= 0 then Padded(Ext(name), 3) + [] else blank[8..])
    ensures f == To83(name)
  {
    hide LastDot, To83;
    ReadBack(name);
    assert LastDot(name) < 0 ==> blank[8..] == Padded([], 3);
  }

  /** Either loop of `fat32_83_to_name`: stop at a blank, skip unprintable bytes, lower the rest. */
  method ReadPart(f: seq<byte>) returns (r: seq<byte>)
    ensures r == Part(f)
  {
    hide Part;
    r := [];
    var i := 0;
    PartStart(f);
    while i < |f|
      invariant 0 <= i <= |f|
      invariant r + Part(f[i..]) == Part(f)
    {
      var c := f[i];
      PartStep(f, i, r);
      if c == SPACE || c == 0 {
        break;
      }
      i := i + 1;
      if c < 0x21 || c > 0x7E {
        continue;
      }
      var low: byte := if 0x41 <= c <= 0x5A then c - 0x41 + 0x61 else c;
      r := r + [low];
    }
    PartEnd(f);
  }

  lemma PartStart(f: seq<byte>)
    ensures [] + Part(f[0..]) == Part(f)
  {
    assert f[0..] == f;
  }

  lemma PartEnd(f: seq<byte>)
    ensures forall r: seq<byte> :: r + Part(f[|f|..]) == r
  {
    assert f[|f|..] == [];
  }

  /** One round of the loop, after `r` was read. */
  lemma PartStep(f: seq<byte>, i: nat, r: seq<byte>)
    requires i < |f|
    ensures r + Part(f[i..]) ==
              if f[i] == SPACE || f[i] == 0 then r
              else if !Printable(f[i]) then r + Part(f[i + 1..])
              else (r + [Lower(f[i])]) + Part(f[i + 1..])
  {
    assert f[i..][0] == f[i] && f[i..][1..] == f[i + 1..];
  }

  method NameFrom83(f: seq<byte>) returns (name: seq<byte>)
    requires |f| == 11
    ensures name == From83(f)
  {
    name := ReadPart(f[..8]);
    var ext := ReadPart(f[8..]);
    if ext != [] {
      name := name + [DOT] + ext;
    }
  }
}
