/** Bytes and the fixed-width integer layouts shared by the codecs. */
module Bytes {
  type byte = x: int | 0 <= x < 256

  const TWO_16: int := 0x1_0000
  const TWO_32: int := 0x1_0000_0000
  const TWO_64: int := 0x1_0000_0000_0000_0000

  /** The two bytes of `v mod 2^16`, most significant first. */
  function Be16(v: nat): (s: seq<byte>)
    ensures |s| == 2
  {
    [v / 0x100 % 0x100, v % 0x100]
  }

  /** The four bytes of `v mod 2^32`, most significant first. */
  function Be32(v: nat): (s: seq<byte>)
    ensures |s| == 4
  {
    Be16(v / TWO_16) + Be16(v)
  }

  /** The eight bytes of `v mod 2^64`, most significant first. */
  function Be64(v: nat): (s: seq<byte>)
    ensures |s| == 8
  {
    Be32(v / TWO_32) + Be32(v)
  }

  /** The two bytes of `v mod 2^16`, least significant first. */
  function Le16(v: nat): (s: seq<byte>)
    ensures |s| == 2
  {
    [v % 0x100, v / 0x100 % 0x100]
  }

  /** The four bytes of `v mod 2^32`, least significant first. */
  function Le32(v: nat): (s: seq<byte>)
    ensures |s| == 4
  {
    Le16(v) + Le16(v / TWO_16)
  }

  function GetBe16(b: seq<byte>, off: nat): (v: nat)
    requires off + 2 <= |b|
    ensures v < TWO_16
  {
    0x100 * (b[off] as int) + b[off + 1] as int
  }

  function GetBe32(b: seq<byte>, off: nat): (v: nat)
    requires off + 4 <= |b|
    ensures v < TWO_32
  {
    TWO_16 * GetBe16(b, off) + GetBe16(b, off + 2)
  }

  function GetBe64(b: seq<byte>, off: nat): (v: nat)
    requires off + 8 <= |b|
    ensures v < TWO_64
  {
    TWO_32 * GetBe32(b, off) + GetBe32(b, off + 4)
  }

  function GetLe16(b: seq<byte>, off: nat): (v: nat)
    requires off + 2 <= |b|
    ensures v < TWO_16
  {
    b[off] as int + 0x100 * (b[off + 1] as int)
  }

  function GetLe32(b: seq<byte>, off: nat): (v: nat)
    requires off + 4 <= |b|
    ensures v < TWO_32
  {
    GetLe16(b, off) + TWO_16 * GetLe16(b, off + 2)
  }

  /** Reading back what was laid down at `off` gives the value modulo the width. */
  lemma TwoDigits(v: nat)
    ensures Be16(v) == [v / 0x100 % 0x100, v % 0x100] && 0x100 * (v / 0x100 % 0x100) + v % 0x100 == v % TWO_16
  {
  }

  lemma ReadBe16(b: seq<byte>, off: nat, v: nat)
    requires off + 2 <= |b| && b[off..off + 2] == Be16(v)
    ensures GetBe16(b, off) == v % TWO_16
  {
    var s := b[off..off + 2];
    assert b[off] == s[0] && b[off + 1] == s[1];
    TwoDigits(v);
    hide Be16;
  }

  lemma ReadBe32(b: seq<byte>, off: nat, v: nat)
    requires off + 4 <= |b| && b[off..off + 4] == Be32(v)
    ensures GetBe32(b, off) == v % TWO_32
  {
    assert b[off..off + 2] == b[off..off + 4][..2] == Be16(v / TWO_16);
    assert b[off + 2..off + 4] == b[off..off + 4][2..] == Be16(v);
    ReadBe16(b, off, v / TWO_16);
    ReadBe16(b, off + 2, v);
    hide Be16, GetBe16;
    SplitMod(v, TWO_16, TWO_16);
  }

  lemma ReadBe64(b: seq<byte>, off: nat, v: nat)
    requires off + 8 <= |b| && b[off..off + 8] == Be64(v)
    ensures GetBe64(b, off) == v % TWO_64
  {
    assert b[off..off + 4] == b[off..off + 8][..4] == Be32(v / TWO_32);
    assert b[off + 4..off + 8] == b[off..off + 8][4..] == Be32(v);
    ReadBe32(b, off, v / TWO_32);
    ReadBe32(b, off + 4, v);
    hide Be32, GetBe32;
    SplitMod(v, TWO_32, TWO_32);
  }

  /** A value modulo `lo * hi` is its low digit plus `lo` times its next digit. */
  lemma SplitMod(v: nat, lo: nat, hi: nat)
    requires lo > 0 && hi > 0
    ensures lo * hi > 0 && v % (lo * hi) == lo * (v / lo % hi) + v % lo
  {
    var q, r := v / lo, v % lo;
    var q', d := q / hi, q % hi;
    DigitBound(lo, hi, d, r);
    Distribute(lo, hi, q', d);
    ModUnique(v, lo * hi, q', lo * d + r);
  }

  lemma Distribute(lo: int, hi: int, q: int, d: int)
    ensures lo * (hi * q + d) == (lo * hi) * q + lo * d
  {
    assert lo * (hi * q) == (lo * hi) * q;
  }

  lemma DigitBound(lo: nat, hi: nat, d: nat, r: nat)
    requires d < hi && r < lo
    ensures lo * hi > 0 && lo * d + r < lo * hi
  {
    assert lo * (d + 1) <= lo * hi;
  }

  lemma ModUnique(v: int, m: nat, q: int, r: nat)
    requires m > 0 && r < m && v == m * q + r
    ensures v / m == q && v % m == r
  {
    var e := v / m - q;
    assert m * e == r - v % m;
    MultipleSize(m, e);
  }

  lemma MultipleSize(m: int, e: int)
    requires m > 0
    ensures e >= 1 ==> m * e >= m
    ensures e <= -1 ==> m * e <= -m
  {
  }

  lemma ReadLe16(b: seq<byte>, off: nat, v: nat)
    requires off + 2 <= |b| && b[off..off + 2] == Le16(v)
    ensures GetLe16(b, off) == v % TWO_16
  {
    assert Le16(v) == [v % 0x100, v / 0x100 % 0x100];
    var s := b[off..off + 2];
    assert b[off] == s[0] && b[off + 1] == s[1];
    TwoDigits(v);
    hide Le16;
  }

  lemma ReadLe32(b: seq<byte>, off: nat, v: nat)
    requires off + 4 <= |b| && b[off..off + 4] == Le32(v)
    ensures GetLe32(b, off) == v % TWO_32
  {
    assert b[off..off + 2] == b[off..off + 4][..2] == Le16(v);
    assert b[off + 2..off + 4] == b[off..off + 4][2..] == Le16(v / TWO_16);
    ReadLe16(b, off, v);
    ReadLe16(b, off + 2, v / TWO_16);
    hide Le16, GetLe16;
    SplitMod(v, TWO_16, TWO_16);
  }

  /** A run of `n` zero bytes. */
  function Zeros(n: nat): (s: seq<byte>)
    ensures |s| == n
  {
    seq(n, _ => 0)
  }
}
