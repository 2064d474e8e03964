/** Fixed-width machine integers and their little-endian images, as ctypes lays
    them out in host memory on the Windows/x86 machine the cifX driver runs on. */
module Bytes {

  type Byte = b: int | 0 <= b < 0x100
  type U16 = x: int | 0 <= x < 0x1_0000
  type U32 = x: int | 0 <= x < 0x1_0000_0000
  type Int32 = x: int | -0x8000_0000 <= x < 0x8000_0000

  /** What a ctypes `c_uint16` field stores when it is assigned the Python int `x`:
      the low 16 bits, with no overflow check. */
  function ToU16(x: int): (r: U16)
    ensures (x - r) % 0x1_0000 == 0
    ensures 0 <= x < 0x1_0000 ==> r == x
  {
    x % 0x1_0000
  }

  /** `ctypes.c_int32(x).value`: the low 32 bits of `x` read as two's complement. */
  function ToInt32(x: int): (r: Int32)
    ensures (x - r) % 0x1_0000_0000 == 0
    ensures -0x8000_0000 <= x < 0x8000_0000 ==> r == x
  {
    var low := x % 0x1_0000_0000;
    if low < 0x8000_0000 then low else low - 0x1_0000_0000
  }

  /** The two bytes of a uint16, low byte first. */
  function Le16(x: U16): (b: seq<Byte>)
    ensures |b| == 2 && b[0] + 0x100 * (b[1] as int) == x
  {
    [x % 0x100, x / 0x100]
  }

  /** The four bytes of a uint32, low byte first. */
  function Le32(x: U32): (b: seq<Byte>)
    ensures |b| == 4
    ensures b[0] + 0x100 * (b[1] as int) + 0x1_0000 * (b[2] as int) + 0x100_0000 * (b[3] as int) == x
  {
    Le16(x % 0x1_0000) + Le16(x / 0x1_0000)
  }

  /** The uint16 stored at byte offset `off`; it is the value whose image those two bytes are. */
  function ReadLe16(b: seq<Byte>, off: nat): (x: U16)
    requires off + 2 <= |b|
    ensures Le16(x) == b[off..off + 2]
  {
    var x := b[off] + 0x100 * (b[off + 1] as int);
    assert x % 0x100 == b[off] && x / 0x100 == b[off + 1];
    x
  }

  /** The uint32 stored at byte offset `off`; it is the value whose image those four bytes are. */
  function ReadLe32(b: seq<Byte>, off: nat): (x: U32)
    requires off + 4 <= |b|
    ensures Le32(x) == b[off..off + 4]
  {
    var lo := ReadLe16(b, off);
    var hi := ReadLe16(b, off + 2);
    var x := lo + 0x1_0000 * hi;
    assert x % 0x1_0000 == lo && x / 0x1_0000 == hi;
    assert b[off..off + 4] == b[off..off + 2] + b[off + 2..off + 4];
    x
  }

  /** The bytes at `off` are the image of `x` exactly when `x` is what is read there. */
  lemma ReadLe16Is(b: seq<Byte>, off: nat, x: U16)
    requires off + 2 <= |b| && b[off..off + 2] == Le16(x)
    ensures ReadLe16(b, off) == x
  {
    assert Le16(ReadLe16(b, off)) == Le16(x);
  }

  lemma ReadLe32Is(b: seq<Byte>, off: nat, x: U32)
    requires off + 4 <= |b| && b[off..off + 4] == Le32(x)
    ensures ReadLe32(b, off) == x
  {
    assert Le32(ReadLe32(b, off)) == Le32(x);
  }

  lemma ReadLe16OfLe16(x: U16, pre: seq<Byte>, post: seq<Byte>)
    ensures ReadLe16(pre + Le16(x) + post, |pre|) == x
  {
  }

  lemma ReadLe32OfLe32(x: U32, pre: seq<Byte>, post: seq<Byte>)
    ensures ReadLe32(pre + Le32(x) + post, |pre|) == x
  {
  }

  /** The memory image of an array of uint16: each element in turn, no padding. */
  function PackWords(ws: seq<U16>): (b: seq<Byte>)
    ensures |b| == 2 * |ws|
  {
    if ws == [] then [] else Le16(ws[0]) + PackWords(ws[1..])
  }

  lemma {:induction false} PackWordsAppend(a: seq<U16>, c: seq<U16>)
    ensures PackWords(a + c) == PackWords(a) + PackWords(c)
  {
    if a != [] {
      assert (a + c)[0] == a[0] && (a + c)[1..] == a[1..] + c;
      PackWordsAppend(a[1..], c);
      calc {
        PackWords(a + c);
        Le16(a[0]) + PackWords(a[1..] + c);
        Le16(a[0]) + (PackWords(a[1..]) + PackWords(c));
        PackWords(a) + PackWords(c);
      }
    } else {
      assert a + c == c;
    }
  }

  /** The image of the first `m` elements is the first `2m` bytes of the image. */
  lemma PackWordsPrefix(ws: seq<U16>, m: nat)
    requires m <= |ws|
    ensures PackWords(ws)[..2 * m] == PackWords(ws[..m])
  {
    assert ws == ws[..m] + ws[m..];
    PackWordsAppend(ws[..m], ws[m..]);
  }

  /** The i-th element of a packed array sits at byte offset 2i. */
  lemma {:induction false} PackWordsAt(ws: seq<U16>, i: nat)
    requires i < |ws|
    ensures PackWords(ws)[2 * i..2 * i + 2] == Le16(ws[i])
    ensures ReadLe16(PackWords(ws), 2 * i) == ws[i]
  {
    if i == 0 {
      assert PackWords(ws)[..2] == Le16(ws[0]);
    } else {
      PackWordsAt(ws[1..], i - 1);
      assert PackWords(ws)[2 * i..2 * i + 2] == PackWords(ws[1..])[2 * (i - 1)..2 * (i - 1) + 2];
    }
    ReadLe16OfLe16(ws[i], PackWords(ws)[..2 * i], PackWords(ws)[2 * i + 2..]);
    assert PackWords(ws) == PackWords(ws)[..2 * i] + Le16(ws[i]) + PackWords(ws)[2 * i + 2..];
  }

  /** `n` consecutive uint16 read from `b`, the first at element index `first` (byte offset 2*first). */
  function WordsAt(b: seq<Byte>, first: nat, n: nat): (ws: seq<U16>)
    requires 2 * (first + n) <= |b|
    ensures |ws| == n
  {
    seq<U16>(n, k requires 0 <= k < n => ReadLe16(b, 2 * (first + k)))
  }

  /** The k-th word read is the one whose image sits at byte offset 2*(first+k). */
  lemma WordsAtElem(b: seq<Byte>, first: nat, n: nat, k: nat)
    requires 2 * (first + n) <= |b| && k < n
    ensures WordsAt(b, first, n)[k] == ReadLe16(b, 2 * (first + k))
    ensures Le16(WordsAt(b, first, n)[k]) == b[2 * (first + k)..2 * (first + k) + 2]
  {
  }

  /** Words read from the first `m` bytes depend on those bytes only. */
  lemma WordsAtPrefix(b: seq<Byte>, c: seq<Byte>, m: nat, first: nat, n: nat)
    requires m <= |b| && m <= |c| && b[..m] == c[..m] && 2 * (first + n) <= m
    ensures WordsAt(b, first, n) == WordsAt(c, first, n)
  {
    forall k | 0 <= k < n ensures WordsAt(b, first, n)[k] == WordsAt(c, first, n)[k] {
      var off := 2 * (first + k);
      assert b[off] == b[..m][off] == c[..m][off] == c[off];
      assert b[off + 1] == b[..m][off + 1] == c[..m][off + 1] == c[off + 1];
      assert b[off..off + 2] == c[off..off + 2];
      WordsAtElem(b, first, n, k);
      WordsAtElem(c, first, n, k);
      assert Le16(WordsAt(b, first, n)[k]) == Le16(WordsAt(c, first, n)[k]);
    }
  }

  /** Words read from `b` are `ws[first..first + n]` when each one is. */
  lemma WordsAtAre(b: seq<Byte>, first: nat, n: nat, ws: seq<U16>)
    requires 2 * (first + n) <= |b| && first + n <= |ws|
    requires forall i :: first <= i < first + n ==> ReadLe16(b, 2 * i) == ws[i]
    ensures WordsAt(b, first, n) == ws[first..first + n]
  {
    forall k | 0 <= k < n
      ensures WordsAt(b, first, n)[k] == ws[first..first + n][k]
    {
      WordsAtElem(b, first, n, k);
      assert ReadLe16(b, 2 * (first + k)) == ws[first + k];
    }
  }

  /** Reading back a packed array returns the array. */
  lemma PackedWordsAt(ws: seq<U16>, first: nat, n: nat)
    requires first + n <= |ws|
    ensures WordsAt(PackWords(ws), first, n) == ws[first..first + n]
  {
    forall i | first <= i < first + n
      ensures ReadLe16(PackWords(ws), 2 * i) == ws[i]
    {
      PackWordsAt(ws, i);
    }
    WordsAtAre(PackWords(ws), first, n, ws);
  }

  function Zeros(n: nat): (z: seq<Byte>)
    ensures |z| == n && forall i :: 0 <= i < n ==> z[i] == 0
  {
    seq<Byte>(n, _ => 0)
  }

  /** The `len` bytes of a device memory area starting at `offset`, reading zero past its end. */
  function Window(area: seq<Byte>, offset: nat, len: nat): (w: seq<Byte>)
    ensures |w| == len
    ensures offset + len <= |area| ==> w == area[offset..offset + len]
  {
    seq<Byte>(len, i requires 0 <= i < len => if offset + i < |area| then area[offset + i] else 0)
  }
}
