/** What a byte stored by somebody else does to the headers of the heap. */
module HeapForeign {
  import opened Bytes
  import opened HeapList

  // ---- One header --------------------------------------------------------------------------

  /** Byte `k` of a little-endian word. */
  function ByteOf(x: nat, k: nat): byte
  {
    if k == 0 then x % 256 else ByteOf(x / 256, k - 1)
  }

  /** The word after its byte `k` was overwritten. */
  function WithByte(x: nat, k: nat, v: byte): nat
  {
    if k == 0 then x / 256 * 256 + v else WithByte(x / 256, k - 1, v) * 256 + x % 256
  }

  /** That byte reads back, the others are as before, and the word changes exactly when the byte does. */
  lemma {:induction false} WithByteIs(x: nat, k: nat, v: byte)
    ensures forall j: nat :: ByteOf(WithByte(x, k, v), j) == if j == k then v else ByteOf(x, j)
    ensures WithByte(x, k, v) == x <==> v == ByteOf(x, k)
  {
    var y := WithByte(x, k, v);
    if k > 0 {
      WithByteIs(x / 256, k - 1, v);
      assert y / 256 == WithByte(x / 256, k - 1, v) && y % 256 == x % 256;
    } else {
      assert y / 256 == x / 256;
    }
  }

  predicate Padding(k: nat)
  {
    4 <= k < 8 || 20 <= k < 24
  }

  /** Byte `k` of the 40 a header occupies; padding holds nothing. */
  function HeaderByte(h: Header, k: nat): byte
  {
    if k < 4 then ByteOf(h.magic, k)
    else if 8 <= k < 16 then ByteOf(h.size, k - 8)
    else if 16 <= k < 20 then ByteOf(h.free, k - 16)
    else if 24 <= k < 32 then ByteOf(h.next, k - 24)
    else if 32 <= k < 40 then ByteOf(h.prev, k - 32)
    else 0
  }

  /** The number that bytes stand for, least significant first. */
  function Word(bytes: seq<byte>): nat
  {
    if bytes == [] then 0 else bytes[0] as nat + 256 * Word(bytes[1..])
  }

  function Room(n: nat): (m: nat)
    ensures m > 0
  {
    if n == 0 then 1 else 256 * Room(n - 1)
  }

  function BytesOf(x: nat, n: nat): seq<byte>
  {
    seq(n, k requires 0 <= k < n => ByteOf(x, k))
  }

  lemma {:induction false} WordOf(x: nat, n: nat)
    requires x < Room(n)
    ensures Word(BytesOf(x, n)) == x
    decreases n
  {
    if n > 0 {
      var bytes := BytesOf(x, n);
      assert bytes[1..] == BytesOf(x / 256, n - 1);
      WordOf(x / 256, n - 1);
    }
  }

  /** The 40 bytes of a header. */
  function HeaderBytes(h: Header): (b: seq<byte>)
    ensures |b| == 40
  {
    seq(40, k requires 0 <= k < 40 => HeaderByte(h, k))
  }

  /** Where its fields lie: 4 bytes of magic at 0, 8 of size at 8, 4 of the flag at 16, the links at 24 and 32. */
  lemma HeaderLayout(h: Header)
    requires h.magic < 0x1_0000_0000 && h.free < 0x1_0000_0000 && h.size < 0x1_0000_0000_0000_0000
    requires h.next < 0x1_0000_0000_0000_0000 && h.prev < 0x1_0000_0000_0000_0000
    ensures var b := HeaderBytes(h);
            && Word(b[0..4]) == h.magic && Word(b[8..16]) == h.size && Word(b[16..20]) == h.free
            && Word(b[24..32]) == h.next && Word(b[32..40]) == h.prev
  {
    hide Word, ByteOf;
    var b := HeaderBytes(h);
    RoomIs();
    assert b[0..4] == BytesOf(h.magic, 4) && b[8..16] == BytesOf(h.size, 8) && b[16..20] == BytesOf(h.free, 4);
    assert b[24..32] == BytesOf(h.next, 8) && b[32..40] == BytesOf(h.prev, 8);
    WordOf(h.magic, 4);
    WordOf(h.size, 8);
    WordOf(h.free, 4);
    WordOf(h.next, 8);
    WordOf(h.prev, 8);
  }

  lemma RoomIs()
    ensures Room(4) == 0x1_0000_0000 && Room(8) == 0x1_0000_0000_0000_0000
  {
    assert Room(2) == 0x1_0000;
    assert Room(4) == 0x1_0000_0000;
    assert Room(6) == 0x1_0000_0000_0000;
  }

  /** The header after byte `k` was overwritten. */
  function Struck(h: Header, k: nat, v: byte): Header
  {
    if k < 4 then h.(magic := WithByte(h.magic, k, v))
    else if 8 <= k < 16 then h.(size := WithByte(h.size, k - 8, v))
    else if 16 <= k < 20 then h.(free := WithByte(h.free, k - 16, v))
    else if 24 <= k < 32 then h.(next := WithByte(h.next, k - 24, v))
    else if 32 <= k < 40 then h.(prev := WithByte(h.prev, k - 32, v))
    else h
  }

  lemma StruckIs(h: Header, k: nat, v: byte)
    requires k < 40
    ensures Struck(h, k, v) == h <==> Padding(k) || HeaderByte(h, k) == v
  {
    hide ByteOf, WithByte;
    if k < 4 {
      WithByteIs(h.magic, k, v);
    } else if 8 <= k < 16 {
      WithByteIs(h.size, k - 8, v);
    } else if 16 <= k < 20 {
      WithByteIs(h.free, k - 16, v);
    } else if 24 <= k < 32 {
      WithByteIs(h.next, k - 24, v);
    } else if 32 <= k {
      WithByteIs(h.prev, k - 32, v);
    }
  }

  // ---- The list ----------------------------------------------------------------------------

  /** All headers, those that are no longer in the list included, after a byte was stored at `a`. */
  function Overwritten(hs: Headers, a: nat, v: byte): Headers
  {
    map x | x in hs :: if x <= a < x + 40 then Struck(hs[x], a - x, v) else hs[x]
  }

  /** The byte lies in the header of block `i` and is not the one that is there. */
  predicate StrikesAt(bs: seq<Block>, i: nat, a: nat, v: byte)
    requires i < |bs|
  {
    var x := bs[i].addr;
    x <= a < x + 40 && !Padding(a - x) && HeaderByte(HeaderOf(bs, i), a - x) != v
  }

  predicate Strikes(bs: seq<Block>, a: nat, v: byte)
  {
    exists i :: 0 <= i < |bs| && StrikesAt(bs, i, a, v)
  }

  /** A store leaves the list linked exactly when it changes no byte of a header in the list. */
  lemma StrikesUnlinks(hs: Headers, bs: seq<Block>, a: nat, v: byte)
    requires Linked(hs, bs)
    ensures Linked(Overwritten(hs, a, v), bs) <==> !Strikes(bs, a, v)
  {
    hide Struck, HeaderByte, HeaderOf, Padding;
    forall i | 0 <= i < |bs|
      ensures LinkAt(Overwritten(hs, a, v), bs, i) <==> !StrikesAt(bs, i, a, v)
    {
      assert LinkAt(hs, bs, i);
      var x := bs[i].addr;
      if x <= a < x + 40 {
        StruckIs(hs[x], a - x, v);
      }
    }
  }

  /** No region has the address. */
  predicate Outside(rs: seq<Region>, a: nat)
  {
    forall k :: 0 <= k < |rs| ==> !(rs[k].lo <= a < rs[k].hi)
  }

  /** While all blocks lie in the memory of the heap, stores outside it strike no header. */
  lemma HousedUnstruck(bs: seq<Block>, rs: seq<Region>, a: nat, v: byte)
    requires Housed(bs, rs) && Outside(rs, a)
    ensures !Strikes(bs, a, v)
  {
    hide HeaderByte, Padding;
    forall i | 0 <= i < |bs|
      ensures !StrikesAt(bs, i, a, v)
    {
      assert Lies(bs[i], rs);
      var k :| 0 <= k < |rs| && LiesIn(bs[i], rs[k]);
    }
  }
}
