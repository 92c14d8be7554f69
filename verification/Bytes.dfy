/** Bytes, bits and little-endian words: the raw material of every on-disk structure. */
module Bytes {

  type byte = x: int | 0 <= x < 256
  type u16 = x: int | 0 <= x < 0x1_0000
  type u32 = x: int | 0 <= x < 0x1_0000_0000

  const BLOCK_SIZE: nat := 512

  type Block = b: seq<byte> | |b| == BLOCK_SIZE witness Zeros(512)

  function Zeros(n: nat): (s: seq<byte>)
    ensures |s| == n
    ensures forall i | 0 <= i < n :: s[i] == 0
  {
    seq(n, _ => 0)
  }

  // ---------------------------------------------------------------- bits

  function SetBv(x: bv8, k: bv8): bv8
    requires k < 8
  {
    x | (1 << k)
  }

  function ClearBv(x: bv8, k: bv8): bv8
    requires k < 8
  {
    x & !(1 << k)
  }

  predicate TestBv(x: bv8, k: bv8)
    requires k < 8
  {
    x & (1 << k) != 0
  }

  lemma SetBvTest(x: bv8, i: bv8, j: bv8)
    requires i < 8 && j < 8
    ensures TestBv(SetBv(x, i), j) == (i == j || TestBv(x, j))
  {
    if i == j {
    } else {
      assert (1 << i) & (1 << j) == 0 as bv8;
    }
  }

  lemma ClearBvTest(x: bv8, i: bv8, j: bv8)
    requires i < 8 && j < 8
    ensures TestBv(ClearBv(x, i), j) == (i != j && TestBv(x, j))
  {
    if i == j {
    } else {
      assert (1 << i) & (1 << j) == 0 as bv8;
    }
  }

  lemma BvThroughInt(x: bv8)
    ensures (x as int) as bv8 == x
  {}

  lemma {:induction false} ByteThroughBv(x: byte)
    ensures (x as bv8) as int == x
  {
    if x > 0 {
      ByteThroughBv(x - 1);
      var y := (x - 1) as bv8;
      assert (y + 1) as int == x;
    }
  }

  lemma SmallIndexThroughBv(i: nat)
    requires i < 8
    ensures (i as bv8) < 8 && (i as bv8) as int == i
  {
    if i == 0 {
    } else if i == 1 {
    } else if i == 2 {
    } else if i == 3 {
    } else if i == 4 {
    } else if i == 5 {
    } else if i == 6 {
    } else {
    }
  }

  lemma BitIndexInjective(i: nat, j: nat)
    requires i < 8 && j < 8
    ensures i as bv8 < 8 && j as bv8 < 8
    ensures i as bv8 == j as bv8 <==> i == j
  {
    SmallIndexThroughBv(i);
    SmallIndexThroughBv(j);
  }

  function SetByteBit(b: byte, k: nat): byte
    requires k < 8
  {
    BitIndexInjective(k, k);
    SetBv(b as bv8, k as bv8) as int
  }

  function ClearByteBit(b: byte, k: nat): byte
    requires k < 8
  {
    BitIndexInjective(k, k);
    ClearBv(b as bv8, k as bv8) as int
  }

  predicate ByteBit(b: byte, k: nat)
    requires k < 8
  {
    BitIndexInjective(k, k);
    TestBv(b as bv8, k as bv8)
  }

  lemma SetByteBitTest(b: byte, i: nat, j: nat)
    requires i < 8 && j < 8
    ensures ByteBit(SetByteBit(b, i), j) == (i == j || ByteBit(b, j))
  {
    BitIndexInjective(i, j);
    SetBvTest(b as bv8, i as bv8, j as bv8);
    BvThroughInt(SetBv(b as bv8, i as bv8));
  }

  lemma ClearByteBitTest(b: byte, i: nat, j: nat)
    requires i < 8 && j < 8
    ensures ByteBit(ClearByteBit(b, i), j) == (i != j && ByteBit(b, j))
  {
    BitIndexInjective(i, j);
    ClearBvTest(b as bv8, i as bv8, j as bv8);
    BvThroughInt(ClearBv(b as bv8, i as bv8));
  }

  lemma ZeroByteBit(k: nat)
    requires k < 8
    ensures !ByteBit(0, k)
  {
    BitIndexInjective(k, k);
  }

  /** `test_bit`: is bit `bit` of the bitmap set? */
  predicate TestBit(buf: seq<byte>, bit: nat)
    requires bit < 8 * |buf|
  {
    ByteBit(buf[bit / 8], bit % 8)
  }

  /** `set_bit`: exactly one bit of the bitmap becomes 1. */
  function SetBit(buf: seq<byte>, bit: nat): (r: seq<byte>)
    requires bit < 8 * |buf|
    ensures |r| == |buf|
    ensures forall j | 0 <= j < 8 * |buf| :: TestBit(r, j) == (j == bit || TestBit(buf, j))
  {
    var r := buf[bit / 8 := SetByteBit(buf[bit / 8], bit % 8)];
    assert forall j | 0 <= j < 8 * |buf| :: TestBit(r, j) == (j == bit || TestBit(buf, j)) by {
      forall j | 0 <= j < 8 * |buf| ensures TestBit(r, j) == (j == bit || TestBit(buf, j)) {
        SetByteBitTest(buf[bit / 8], bit % 8, j % 8);
      }
    }
    r
  }

  /** `clear_bit`: exactly one bit of the bitmap becomes 0. */
  function ClearBit(buf: seq<byte>, bit: nat): (r: seq<byte>)
    requires bit < 8 * |buf|
    ensures |r| == |buf|
    ensures forall j | 0 <= j < 8 * |buf| :: TestBit(r, j) == (j != bit && TestBit(buf, j))
  {
    var r := buf[bit / 8 := ClearByteBit(buf[bit / 8], bit % 8)];
    assert forall j | 0 <= j < 8 * |buf| :: TestBit(r, j) == (j != bit && TestBit(buf, j)) by {
      forall j | 0 <= j < 8 * |buf| ensures TestBit(r, j) == (j != bit && TestBit(buf, j)) {
        ClearByteBitTest(buf[bit / 8], bit % 8, j % 8);
      }
    }
    r
  }

  lemma ZeroBitmap(n: nat, bit: nat)
    requires bit < 8 * n
    ensures !TestBit(Zeros(n), bit)
  {
    ZeroByteBit(bit % 8);
  }

  /** Two bytes with the same eight bits are the same byte. */
  lemma ByteExtensional(a: byte, b: byte)
    requires forall k | 0 <= k < 8 :: ByteBit(a, k) == ByteBit(b, k)
    ensures a == b
  {
    assert ByteBit(a, 0) == ByteBit(b, 0) && ByteBit(a, 1) == ByteBit(b, 1);
    assert ByteBit(a, 2) == ByteBit(b, 2) && ByteBit(a, 3) == ByteBit(b, 3);
    assert ByteBit(a, 4) == ByteBit(b, 4) && ByteBit(a, 5) == ByteBit(b, 5);
    assert ByteBit(a, 6) == ByteBit(b, 6) && ByteBit(a, 7) == ByteBit(b, 7);
    BvExtensional(a as bv8, b as bv8);
    ByteThroughBv(a);
    ByteThroughBv(b);
  }

  lemma BvExtensional(x: bv8, y: bv8)
    requires TestBv(x, 0) == TestBv(y, 0) && TestBv(x, 1) == TestBv(y, 1)
    requires TestBv(x, 2) == TestBv(y, 2) && TestBv(x, 3) == TestBv(y, 3)
    requires TestBv(x, 4) == TestBv(y, 4) && TestBv(x, 5) == TestBv(y, 5)
    requires TestBv(x, 6) == TestBv(y, 6) && TestBv(x, 7) == TestBv(y, 7)
    ensures x == y
  {}

  /** A bitmap is determined by its bits. */
  lemma BitmapExtensional(a: seq<byte>, b: seq<byte>)
    requires |a| == |b|
    requires forall j | 0 <= j < 8 * |a| :: TestBit(a, j) == TestBit(b, j)
    ensures a == b
  {
    forall i | 0 <= i < |a| ensures a[i] == b[i] {
      forall k | 0 <= k < 8 ensures ByteBit(a[i], k) == ByteBit(b[i], k) {
        assert TestBit(a, 8 * i + k) == TestBit(b, 8 * i + k);
      }
      ByteExtensional(a[i], b[i]);
    }
  }

  // ---------------------------------------------------------------- byte ranges

  /** `memcpy(buf + off, s, |s|)`. */
  function Splice(buf: seq<byte>, off: nat, s: seq<byte>): (r: seq<byte>)
    requires off + |s| <= |buf|
    ensures |r| == |buf|
    ensures forall i | 0 <= i < |buf| :: r[i] == if off <= i < off + |s| then s[i - off] else buf[i]
  {
    buf[..off] + s + buf[off + |s|..]
  }

  function Le32(v: u32): (s: seq<byte>)
    ensures |s| == 4
  {
    [v % 256, v / 256 % 256, v / 65536 % 256, v / 16777216]
  }

  function Le16(v: u16): (s: seq<byte>)
    ensures |s| == 2
  {
    [v % 256, v / 256]
  }

  function Get32(buf: seq<byte>, off: nat): u32
    requires off + 4 <= |buf|
  {
    (buf[off] as int) + 256 * (buf[off + 1] as int) + 65536 * (buf[off + 2] as int) + 16777216 * (buf[off + 3] as int)
  }

  function Get16(buf: seq<byte>, off: nat): u16
    requires off + 2 <= |buf|
  {
    (buf[off] as int) + 256 * (buf[off + 1] as int)
  }

  lemma Le32Value(v: u32)
    ensures v % 256 + 256 * (v / 256 % 256) + 65536 * (v / 65536 % 256) + 16777216 * (v / 16777216) == v
  {
    assert v / 65536 == v / 256 / 256 && v / 16777216 == v / 256 / 256 / 256;
  }

  lemma SliceOfSlice(buf: seq<byte>, off: nat, len: nat, at: nat, n: nat)
    requires off + len <= |buf| && at + n <= len
    ensures buf[off..off + len][at..at + n] == buf[off + at..off + at + n]
  {
    var l, r := buf[off..off + len][at..at + n], buf[off + at..off + at + n];
    assert |l| == |r|;
    forall i | 0 <= i < n ensures l[i] == r[i] {
      assert l[i] == buf[off..off + len][at + i] == buf[off + at + i];
    }
  }

  lemma SpliceSlice(buf: seq<byte>, off: nat, s: seq<byte>)
    requires off + |s| <= |buf|
    ensures Splice(buf, off, s)[off..off + |s|] == s
  {}

  lemma Get32OfLe32(buf: seq<byte>, off: nat, v: u32)
    requires off + 4 <= |buf|
    requires buf[off..off + 4] == Le32(v)
    ensures Get32(buf, off) == v
  {
    Le32Value(v);
    var s := buf[off..off + 4];
    assert s[0] == buf[off] && s[1] == buf[off + 1] && s[2] == buf[off + 2] && s[3] == buf[off + 3];
  }

  lemma Get16OfLe16(buf: seq<byte>, off: nat, v: u16)
    requires off + 2 <= |buf|
    requires buf[off..off + 2] == Le16(v)
    ensures Get16(buf, off) == v
  {
    var s := buf[off..off + 2];
    assert s[0] == buf[off] && s[1] == buf[off + 1];
  }

  // ---------------------------------------------------------------- words

  /** A packed struct of 32-bit words as the bytes it occupies. */
  function WordBytes(ws: seq<u32>): (r: seq<byte>)
    ensures |r| == 4 * |ws|
  {
    seq(4 * |ws|, i requires 0 <= i < 4 * |ws| => Le32(ws[i / 4])[i % 4])
  }

  /** The `n` words stored at byte offset `off`. */
  function WordsAt(buf: seq<byte>, off: nat, n: nat): (r: seq<u32>)
    requires off + 4 * n <= |buf|
    ensures |r| == n
  {
    seq(n, k requires 0 <= k < n => Get32(buf, off + 4 * k))
  }

  lemma WordBytesSlice(ws: seq<u32>, k: nat)
    requires k < |ws|
    ensures WordBytes(ws)[4 * k..4 * k + 4] == Le32(ws[k])
  {
    assert 4 * k / 4 == k && (4 * k + 1) / 4 == k && (4 * k + 2) / 4 == k && (4 * k + 3) / 4 == k;
  }

  lemma WordRoundTrip(buf: seq<byte>, off: nat, ws: seq<u32>, k: nat)
    requires off + 4 * |ws| <= |buf| && k < |ws|
    requires buf[off..off + 4 * |ws|] == WordBytes(ws)
    ensures Get32(buf, off + 4 * k) == ws[k]
  {
    WordBytesSlice(ws, k);
    SliceOfSlice(buf, off, 4 * |ws|, 4 * k, 4);
    Get32OfLe32(buf, off + 4 * k, ws[k]);
  }

  /** Reading back a struct that was copied into a buffer. */
  lemma WordsRoundTrip(buf: seq<byte>, off: nat, ws: seq<u32>)
    requires off + 4 * |ws| <= |buf|
    requires buf[off..off + 4 * |ws|] == WordBytes(ws)
    ensures WordsAt(buf, off, |ws|) == ws
  {
    forall k | 0 <= k < |ws| ensures Get32(buf, off + 4 * k) == ws[k] {
      WordRoundTrip(buf, off, ws, k);
    }
  }

  lemma Get32Tells(buf: seq<byte>, other: seq<byte>, off: nat)
    requires off + 4 <= |buf| && off + 4 <= |other| && Get32(buf, off) == Get32(other, off)
    ensures buf[off] == other[off] && buf[off + 1] == other[off + 1]
    ensures buf[off + 2] == other[off + 2] && buf[off + 3] == other[off + 3]
  {
    var a, b, c, d: int := buf[off], buf[off + 1], buf[off + 2], buf[off + 3];
    var x, y, z, w: int := other[off], other[off + 1], other[off + 2], other[off + 3];
    DigitTells(a, x, b + 256 * (c + 256 * d), y + 256 * (z + 256 * w));
    DigitTells(b, y, c + 256 * d, z + 256 * w);
    DigitTells(c, z, d, w);
  }

  lemma DigitTells(a: byte, b: byte, r: int, s: int)
    requires a + 256 * r == b + 256 * s
    ensures a == b && r == s
  {}

  /** Stored words determine the bytes they are stored in. */
  lemma WordsTell(buf: seq<byte>, other: seq<byte>, off: nat, n: nat, k: nat, j: nat)
    requires off + 4 * n <= |buf| && |buf| == |other| && k < n && j < 4
    requires WordsAt(buf, off, n) == WordsAt(other, off, n)
    ensures buf[off + 4 * k + j] == other[off + 4 * k + j]
  {
    assert WordsAt(buf, off, n)[k] == WordsAt(other, off, n)[k];
    Get32Tells(buf, other, off + 4 * k);
  }

  /** Words outside the copied range keep their value. */
  lemma WordsFrame(buf: seq<byte>, other: seq<byte>, off: nat, n: nat)
    requires |buf| == |other| && off + 4 * n <= |buf|
    requires forall i | off <= i < off + 4 * n :: buf[i] == other[i]
    ensures WordsAt(buf, off, n) == WordsAt(other, off, n)
  {
    forall k | 0 <= k < n ensures WordsAt(buf, off, n)[k] == WordsAt(other, off, n)[k] {}
  }
}
