/** Bytes, little-endian words and the flattening of equal-sized pieces into one byte string. */
module Bytes {

  type byte = b: nat | b < 256


  /** The 32-bit little-endian word stored in four bytes. */
  function Le32(b: seq<byte>): (v: nat)
    requires |b| == 4
    ensures v < 0x1_0000_0000
  {
    b[0] as int + 0x100 * b[1] as int + 0x1_0000 * b[2] as int + 0x100_0000 * b[3] as int
  }

  function ToLe32(v: nat): (b: seq<byte>)
    requires v < 0x1_0000_0000
    ensures |b| == 4 && Le32(b) == v
  {
    ToLe16(v % 0x1_0000) + ToLe16(v / 0x1_0000)
  }

  /** The 16-bit little-endian word stored in two bytes. */
  function Le16(b: seq<byte>): (v: nat)
    requires |b| == 2
    ensures v < 0x1_0000
  {
    b[0] as int + 0x100 * b[1] as int
  }

  function ToLe16(v: nat): (b: seq<byte>)
    requires v < 0x1_0000
    ensures |b| == 2 && Le16(b) == v
  {
    [v % 0x100, v / 0x100]
  }

  /** `b` with the bytes from `off` on overwritten by `x` (memcpy into a buffer). */
  function Splice<T>(b: seq<T>, off: nat, x: seq<T>): (r: seq<T>)
    requires off + |x| <= |b|
    ensures |r| == |b|
    ensures forall i :: 0 <= i < |b| ==> r[i] == if off <= i < off + |x| then x[i - off] else b[i]
  {
    b[..off] + x + b[off + |x|..]
  }

  /** Concatenation of a list of pieces. */
  function Flat<T>(parts: seq<seq<T>>): (r: seq<T>)
  {
    if parts == [] then [] else parts[0] + Flat(parts[1..])
  }

  ghost predicate AllLen<T>(parts: seq<seq<T>>, k: nat)
  {
    forall i :: 0 <= i < |parts| ==> |parts[i]| == k
  }

  lemma {:induction false} FlatAppend<T>(a: seq<seq<T>>, b: seq<seq<T>>)
    ensures Flat(a + b) == Flat(a) + Flat(b)
  {
    if a == [] {
      assert a + b == b;
    } else {
      assert (a + b)[1..] == a[1..] + b;
      FlatAppend(a[1..], b);
    }
  }

  lemma FlatOne<T>(x: seq<T>)
    ensures Flat([x]) == x
  {
    assert Flat([x]) == x + Flat([x][1..]) == x;
  }

  lemma Distribute(a: int, b: int, k: int)
    ensures (a + b) * k == a * k + b * k
  {
  }

  lemma {:induction false} FlatLen<T>(parts: seq<seq<T>>, k: nat)
    requires AllLen(parts, k)
    ensures |Flat(parts)| == |parts| * k
  {
    if parts == [] {
    } else {
      FlatLen(parts[1..], k);
      Distribute(1, |parts| - 1, k);
    }
  }

  /** Flattening around one piece: what precedes it, the piece, what follows it. */
  lemma FlatAround<T>(parts: seq<seq<T>>, j: nat)
    requires j < |parts|
    ensures Flat(parts) == Flat(parts[..j]) + parts[j] + Flat(parts[j + 1..])
  {
    hide Flat;
    Around(parts, j);
    FlatThree(parts[..j], parts[j], parts[j + 1..]);
  }

  lemma Around<T>(parts: seq<T>, j: nat)
    requires j < |parts|
    ensures parts == parts[..j] + [parts[j]] + parts[j + 1..]
  {
  }

  lemma FlatThree<T>(a: seq<seq<T>>, b: seq<T>, c: seq<seq<T>>)
    ensures Flat(a + [b] + c) == Flat(a) + b + Flat(c)
  {
    hide Flat;
    calc {
      Flat(a + [b] + c);
    == { FlatAppend(a + [b], c); }
      Flat(a + [b]) + Flat(c);
    == { FlatAppend(a, [b]); FlatOne(b); }
      Flat(a) + b + Flat(c);
    }
  }

  lemma FlatSplit<T>(parts: seq<seq<T>>, j: nat, k: nat)
    requires AllLen(parts, k) && j < |parts|
    ensures Flat(parts) == Flat(parts[..j]) + parts[j] + Flat(parts[j + 1..])
    ensures |Flat(parts[..j])| == j * k
    ensures |Flat(parts)| == |parts| * k
    ensures j * k + k <= |parts| * k
    ensures Flat(parts)[j * k..j * k + k] == parts[j]
  {
    hide Flat;
    FlatAround(parts, j);
    FlatLen(parts[..j], k);
    FlatLen(parts, k);
    Middle(Flat(parts[..j]), parts[j], Flat(parts[j + 1..]));
  }

  lemma Middle<T>(a: seq<T>, b: seq<T>, c: seq<T>)
    ensures |a + b + c| == |a| + |b| + |c| && (a + b + c)[|a|..|a| + |b|] == b
  {
  }

  /** Replacing one piece overwrites exactly its range of the flattened string. */
  lemma FlatUpdate<T>(parts: seq<seq<T>>, j: nat, k: nat, x: seq<T>)
    requires AllLen(parts, k) && j < |parts| && |x| == k
    ensures j * k + k <= |Flat(parts)|
    ensures Flat(parts[j := x]) == Splice(Flat(parts), j * k, x)
  {
    hide Flat;
    FlatSplit(parts, j, k);
    FlatSplit(parts[j := x], j, k);
    assert parts[j := x][..j] == parts[..j];
    assert parts[j := x][j + 1..] == parts[j + 1..];
  }

  /** Position j*k + r of the flattened string lies in piece j at r. */
  lemma FlatAt<T>(parts: seq<seq<T>>, j: nat, k: nat, r: nat)
    requires AllLen(parts, k) && j < |parts| && r < k
    ensures 0 <= j * k + r < |Flat(parts)|
    ensures Flat(parts)[j * k + r] == parts[j][r]
  {
    FlatSplit(parts, j, k);
  }
}
