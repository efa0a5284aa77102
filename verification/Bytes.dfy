/** Bytes, fixed-width integers and their big- and little-endian layouts, as the
    stream and chunk code reads and writes them one byte at a time. */
module Bytes {

  type byte = x: int | 0 <= x < 256

  datatype Option<+T> = None | Some(value: T)

  const TWO_8 := 0x100
  const TWO_16 := 0x1_0000
  const TWO_24 := 0x100_0000
  const TWO_31 := 0x8000_0000
  const TWO_32 := 0x1_0000_0000

  function Min(a: int, b: int): int {
    if a < b then a else b
  }

  // ----- Two's complement -----

  function AsInt8(u: byte): int {
    if u < 128 then u else u - TWO_8
  }

  function AsInt16(u: int): int
    requires 0 <= u < TWO_16
  {
    if u < 0x8000 then u else u - TWO_16
  }

  function AsInt32(u: int): int
    requires 0 <= u < TWO_32
  {
    if u < TWO_31 then u else u - TWO_32
  }

  /** Addition of two 32-bit signed values, wrapping. */
  function AddInt32(a: int, b: int): int {
    AsInt32((a + b) % TWO_32)
  }

  predicate IsInt8(v: int) { -128 <= v < 128 }

  predicate IsInt32(v: int) { -TWO_31 <= v < TWO_31 }

  // ----- Byte order -----

  function Pow256(n: nat): (r: nat)
    ensures r > 0
  {
    if n == 0 then 1 else 256 * Pow256(n - 1)
  }

  function BigEndian(v: nat, n: nat): (s: seq<byte>)
    ensures |s| == n
  {
    if n == 0 then [] else BigEndian(v / 256, n - 1) + [v % 256]
  }

  function FromBigEndian(s: seq<byte>): nat {
    if s == [] then 0 else FromBigEndian(s[..|s| - 1]) * 256 + s[|s| - 1]
  }

  function Reverse(s: seq<byte>): (r: seq<byte>)
    ensures |r| == |s|
  {
    if s == [] then [] else Reverse(s[1..]) + [s[0]]
  }

  function LittleEndian(v: nat, n: nat): (s: seq<byte>)
    ensures |s| == n
  {
    Reverse(BigEndian(v, n))
  }

  function FromLittleEndian(s: seq<byte>): nat {
    FromBigEndian(Reverse(s))
  }

  lemma {:induction false} ReverseAppend(s: seq<byte>, x: byte)
    ensures Reverse(s + [x]) == [x] + Reverse(s)
  {
    if s == [] {
    } else {
      assert (s + [x])[1..] == s[1..] + [x];
      ReverseAppend(s[1..], x);
    }
  }

  lemma {:induction false} ReverseTwice(s: seq<byte>)
    ensures Reverse(Reverse(s)) == s
  {
    if s == [] {
    } else {
      ReverseAppend(Reverse(s[1..]), s[0]);
      ReverseTwice(s[1..]);
    }
  }

  lemma HighPart(v: nat, p: nat)
    requires v < 256 * p
    ensures v / 256 < p && v == v / 256 * 256 + v % 256
  {}

  lemma LastByte(s: seq<byte>, x: byte)
    ensures FromBigEndian(s + [x]) == FromBigEndian(s) * 256 + x
  {
    assert (s + [x])[..|s|] == s;
  }

  lemma {:induction false} BigEndianRoundTrip(v: nat, n: nat)
    requires v < Pow256(n)
    ensures FromBigEndian(BigEndian(v, n)) == v
  {
    if n > 0 {
      var high, low := v / 256, v % 256;
      assert BigEndian(v, n) == BigEndian(high, n - 1) + [low] && v < 256 * Pow256(n - 1);
      hide BigEndian, FromBigEndian, Pow256;
      HighPart(v, Pow256(n - 1));
      BigEndianRoundTrip(high, n - 1);
      LastByte(BigEndian(high, n - 1), low);
    }
  }

  lemma {:induction false} FromBigEndianBound(s: seq<byte>)
    ensures FromBigEndian(s) < Pow256(|s|)
  {
    if s == [] {
    } else {
      FromBigEndianBound(s[..|s| - 1]);
    }
  }

  /** Every byte string is the big-endian layout of the number it reads as. */
  lemma {:induction false} BigEndianOnto(s: seq<byte>)
    ensures BigEndian(FromBigEndian(s), |s|) == s
  {
    if s == [] {
    } else {
      BigEndianOnto(s[..|s| - 1]);
      assert s == s[..|s| - 1] + [s[|s| - 1]];
    }
  }

  lemma Powers()
    ensures Pow256(1) == TWO_8
    ensures Pow256(2) == TWO_16
    ensures Pow256(3) == TWO_24
    ensures Pow256(4) == TWO_32
    ensures Pow256(8) == TWO_32 * TWO_32
  {
    assert Pow256(4) == TWO_32;
    assert Pow256(6) == 256 * 256 * TWO_32;
  }

  /** A 32-bit signed value survives being laid out and read back in either byte order. */
  lemma Int32RoundTrip(v: int)
    requires IsInt32(v)
    ensures FromBigEndian(BigEndian(v % TWO_32, 4)) == v % TWO_32
    ensures FromLittleEndian(LittleEndian(v % TWO_32, 4)) == v % TWO_32
    ensures AsInt32(v % TWO_32) == v
  {
    Powers();
    BigEndianRoundTrip(v % TWO_32, 4);
    ReverseTwice(BigEndian(v % TWO_32, 4));
  }

  lemma FromBigEndianBounds(s: seq<byte>)
    ensures |s| == 2 ==> FromBigEndian(s) < TWO_16
    ensures |s| == 3 ==> FromBigEndian(s) < TWO_24
    ensures |s| == 4 ==> FromBigEndian(s) < TWO_32 && FromLittleEndian(s) < TWO_32
  {
    Powers();
    FromBigEndianBound(s);
    FromBigEndianBound(Reverse(s));
  }

  // ----- Which byte is where -----

  lemma DivideTwice(v: nat, p: nat)
    requires p > 0
    ensures v / 256 / p == v / (256 * p)
  {
    var q, r := v / 256, v % 256;
    var q', r' := q / p, q % p;
    assert v == 256 * (p * q' + r') + r == (256 * p) * q' + (256 * r' + r);
    assert 256 * r' + r < 256 * p;
    Quotient(v, 256 * p, q', 256 * r' + r);
  }

  lemma Quotient(v: nat, d: nat, q: nat, r: nat)
    requires d > 0 && v == d * q + r && r < d
    ensures v / d == q
  {
    var q', r' := v / d, v % d;
    assert d * q' + r' == d * q + r;
    if q' > q {
      OneMore(d, q', q);
    } else if q' < q {
      OneMore(d, q, q');
    }
  }

  lemma OneMore(d: nat, a: nat, b: nat)
    requires a > b
    ensures d * a >= d * b + d
  {
    assert d * a == d * b + d * (a - b);
    assert d * (a - b) == d + d * (a - b - 1);
  }

  /** Big-endian: the byte at i counts 256 to the number of bytes after it. */
  lemma {:induction false} BigEndianAt(v: nat, n: nat, i: nat)
    requires i < n
    ensures BigEndian(v, n)[i] == v / Pow256(n - 1 - i) % 256
  {
    if i < n - 1 {
      BigEndianAt(v / 256, n - 1, i);
      hide BigEndian;
      DivideTwice(v, Pow256(n - 2 - i));
    }
  }

  lemma {:induction false} ReverseAt(s: seq<byte>, i: nat)
    requires i < |s|
    ensures Reverse(s)[i] == s[|s| - 1 - i]
  {
    if i < |s| - 1 {
      ReverseAt(s[1..], i);
    }
  }

  /** Little-endian: the byte at i counts 256 to the number of bytes before it. */
  lemma LittleEndianAt(v: nat, n: nat, i: nat)
    requires i < n
    ensures LittleEndian(v, n)[i] == v / Pow256(i) % 256
  {
    ReverseAt(BigEndian(v, n), i);
    BigEndianAt(v, n, n - 1 - i);
  }

  /** The big-endian numbers of two, three and four bytes, and the little-endian one of four. */
  lemma FourBytes(a: byte, b: byte, c: byte, d: byte)
    ensures FromBigEndian([c, d]) == Weighted(0, 0, c, d)
    ensures FromBigEndian([b, c, d]) == Weighted(0, b, c, d)
    ensures FromBigEndian([a, b, c, d]) == Weighted(a, b, c, d)
  {
    LastByte([], a);
    LastByte([], b);
    LastByte([], c);
    LastByte([a], b);
    LastByte([b], c);
    LastByte([c], d);
    LastByte([a, b], c);
    LastByte([b, c], d);
    LastByte([a, b, c], d);
    assert [a] == [] + [a] && [b] == [] + [b] && [c] == [] + [c];
    assert [a, b] == [a] + [b] && [b, c] == [b] + [c] && [c, d] == [c] + [d];
    assert [a, b, c] == [a, b] + [c] && [b, c, d] == [b, c] + [d] && [a, b, c, d] == [a, b, c] + [d];
    hide FromBigEndian;
  }

  lemma FourBytesLittle(a: byte, b: byte, c: byte, d: byte)
    ensures FromLittleEndian([a, b, c, d]) == Weighted(d, c, b, a)
  {
    var s := [a, b, c, d];
    forall i | 0 <= i < 4 ensures Reverse(s)[i] == s[3 - i] {
      ReverseAt(s, i);
    }
    assert Reverse(s) == [d, c, b, a];
    FourBytes(d, c, b, a);
  }

  function Weighted(a: int, b: int, c: int, d: int): int {
    16777216 * a + 65536 * b + 256 * c + d
  }

  /** Two's complement: the value of the given width that differs by a multiple of its range. */
  lemma Wraps(v: int)
    ensures IsInt8(v) ==> AsInt8(v % TWO_8) == v
    ensures -0x8000 <= v < 0x8000 ==> AsInt16(v % TWO_16) == v
    ensures IsInt32(v) ==> AsInt32(v % TWO_32) == v
    ensures IsInt32(AsInt32(v % TWO_32)) && (AsInt32(v % TWO_32) - v) % TWO_32 == 0
  {}

  // ----- Reads at an offset -----

  function U16At(b: seq<byte>, p: nat): (v: int)
    requires p + 2 <= |b|
    ensures 0 <= v < TWO_16
  {
    FromBigEndianBounds(b[p..p + 2]);
    FromBigEndian(b[p..p + 2])
  }

  function U24At(b: seq<byte>, p: nat): (v: int)
    requires p + 3 <= |b|
    ensures 0 <= v < TWO_24
  {
    FromBigEndianBounds(b[p..p + 3]);
    FromBigEndian(b[p..p + 3])
  }

  function Int32At(b: seq<byte>, p: nat): (v: int)
    requires p + 4 <= |b|
    ensures IsInt32(v)
  {
    FromBigEndianBounds(b[p..p + 4]);
    AsInt32(FromBigEndian(b[p..p + 4]))
  }

  function LittleInt32At(b: seq<byte>, p: nat): (v: int)
    requires p + 4 <= |b|
    ensures IsInt32(v)
  {
    FromBigEndianBounds(b[p..p + 4]);
    AsInt32(FromLittleEndian(b[p..p + 4]))
  }
}
