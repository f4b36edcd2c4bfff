/**
 * Network byte order scalars as the daemon puts them on the wire.
 * Integer widths of the C++ types are explicit subset types; every encoder
 * has a decoder, and the round trips are proved in both directions.
 */
module Wire {

  /** One octet of a buffer (BYTE). */
  type Byte = b: int | 0 <= b < 0x100
  /** WORD: unsigned 16 bits. */
  type Word = w: int | 0 <= w < 0x1_0000
  /** DWORD: unsigned 32 bits. */
  type Dword = d: int | 0 <= d < 0x1_0000_0000
  /** uint64_t. */
  type Qword = q: int | 0 <= q < 0x1_0000_0000_0000_0000
  /** int: signed 32 bits, two's complement. */
  type Int32 = i: int | -0x8000_0000 <= i < 0x8000_0000
  /** int64_t. */
  type Int64 = i: int | -0x8000_0000_0000_0000 <= i < 0x8000_0000_0000_0000

  const TWO32: int := 0x1_0000_0000
  const TWO64: int := 0x1_0000_0000_0000_0000
  /** UINT_MAX / UINT32 maximum. */
  const DWORD_MAX: Dword := 0xFFFF_FFFF
  /** UINT64_MAX. */
  const QWORD_MAX: Qword := 0xFFFF_FFFF_FFFF_FFFF

  /** Conversion of an integer to `int`: keep the low 32 bits, read them signed. */
  function ToInt32(x: int): (r: Int32)
    ensures (r - x) % TWO32 == 0
    ensures -0x8000_0000 <= x < 0x8000_0000 ==> r == x
  {
    var u := x % TWO32;
    if u < 0x8000_0000 then u else u - TWO32
  }

  /** Bit pattern of a signed `int` as an unsigned DWORD (what htonl sees). */
  function Int32Bits(i: Int32): (d: Dword)
    ensures i >= 0 ==> d == i
    ensures i < 0 ==> d == i + TWO32
  {
    i % TWO32
  }

  /** uint64_t addition, wrapping at 2^64. */
  function Add64(a: Qword, b: Qword): (r: Qword)
    ensures a + b < TWO64 ==> r == a + b
    ensures a + b >= TWO64 ==> r == a + b - TWO64
  {
    (a + b) % TWO64
  }

  /** uint64_t subtraction, wrapping at 2^64 (a later timestamp minus an earlier one is the distance). */
  function Sub64(a: Qword, b: Qword): (r: Qword)
    ensures b <= a ==> r == a - b
    ensures a < b ==> r == a - b + TWO64
  {
    (a - b) % TWO64
  }

  /** uint64_t division by a positive divisor: never above the dividend. */
  function Div64(a: Qword, b: int): (q: Qword)
    requires b >= 1
    ensures q <= a
    ensures b == 1 ==> q == a
  {
    DivAtMost(a, b);
    a / b
  }

  lemma DivAtMost(a: nat, b: int)
    requires b >= 1
    ensures 0 <= a / b <= a
  {
    var q := a / b;
    assert a == q * b + a % b;
    MulSigns(q, b);
  }

  lemma MulSigns(q: int, b: int)
    requires b >= 1
    ensures q >= 1 ==> q * b >= q
    ensures q <= -1 ==> q * b <= -b
  {
    assert q * b == q * (b - 1) + q;
    assert q * b == (q + 1) * b - b;
    if q >= 1 {
      assert q * (b - 1) >= 0;
    } else if q <= -1 {
      assert (q + 1) * b <= 0;
    }
  }


  // ---------------------------------------------------------------------
  // Big-endian (network order) words and dwords: htons / htonl.
  // ---------------------------------------------------------------------

  function WordBytes(w: Word): (r: seq<Byte>)
    ensures |r| == 2
  {
    [w / 0x100, w % 0x100]
  }

  function WordOf(b: seq<Byte>): (w: Word)
    requires |b| == 2
  {
    (b[0] as int) * 0x100 + b[1]
  }

  lemma WordRoundTrip(w: Word)
    ensures WordOf(WordBytes(w)) == w
  {
  }

  lemma WordBytesOf(b: seq<Byte>)
    requires |b| == 2
    ensures WordBytes(WordOf(b)) == b
  {
  }

  /** htonl: most significant byte first. */
  function DwordBytes(d: Dword): (r: seq<Byte>)
    ensures |r| == 4
  {
    WordBytes(d / 0x1_0000) + WordBytes(d % 0x1_0000)
  }

  function DwordOf(b: seq<Byte>): (d: Dword)
    requires |b| == 4
  {
    WordOf(b[..2]) * 0x1_0000 + WordOf(b[2..])
  }

  lemma DwordRoundTrip(d: Dword)
    ensures DwordOf(DwordBytes(d)) == d
  {
    var hi, lo := d / 0x1_0000, d % 0x1_0000;
    assert DwordBytes(d)[..2] == WordBytes(hi);
    assert DwordBytes(d)[2..] == WordBytes(lo);
    WordRoundTrip(hi);
    WordRoundTrip(lo);
  }

  lemma DwordBytesOf(b: seq<Byte>)
    requires |b| == 4
    ensures DwordBytes(DwordOf(b)) == b
  {
    var hi, lo := WordOf(b[..2]), WordOf(b[2..]);
    var d := DwordOf(b);
    assert d / 0x1_0000 == hi && d % 0x1_0000 == lo;
    WordBytesOf(b[..2]);
    WordBytesOf(b[2..]);
    assert b == b[..2] + b[2..];
  }

  /** The first byte on the wire is the most significant one. */
  lemma DwordBytesBigEndian(d: Dword)
    ensures DwordBytes(d) == [d / 0x100_0000, (d / 0x1_0000) % 0x100, (d / 0x100) % 0x100, d % 0x100]
  {
    var hi, lo := d / 0x1_0000, d % 0x1_0000;
    var a, c := hi / 0x100, hi % 0x100;
    var e, f := lo / 0x100, lo % 0x100;
    DivUnique(d, a, c * 0x1_0000 + lo, 0x100_0000);
    DivUnique(d, a * 0x100 + c, lo, 0x1_0000);
    DivUnique(d, hi * 0x100 + e, f, 0x100);
    DivUnique(hi * 0x100 + e, hi, e, 0x100);
  }

  /** Euclidean division is determined by quotient and remainder. */
  lemma DivUnique(x: int, q: int, r: int, m: int)
    requires m > 0 && 0 <= r < m && x == q * m + r
    ensures x / m == q && x % m == r
  {
    var qq, rr := x / m, x % m;
    assert (q - qq) * m == rr - r;
    if q > qq {
      MulAtLeast(q - qq, m);
    } else if q < qq {
      MulAtLeast(qq - q, m);
    }
  }

  lemma MulAtLeast(a: int, m: int)
    requires a >= 1 && m > 0
    ensures a * m >= m
  {
    assert a * m == (a - 1) * m + m;
    assert (a - 1) * m >= 0;
  }

  // ---------------------------------------------------------------------
  // Signed int on the wire.
  // ---------------------------------------------------------------------

  function IntBytes(i: Int32): (r: seq<Byte>)
    ensures |r| == 4
  {
    DwordBytes(Int32Bits(i))
  }

  /** ntohl read as `int`. */
  function IntOf(b: seq<Byte>): (i: Int32)
    requires |b| == 4
  {
    ToInt32(DwordOf(b))
  }

  lemma IntRoundTrip(i: Int32)
    ensures IntOf(IntBytes(i)) == i
  {
    DwordRoundTrip(Int32Bits(i));
  }

  // ---------------------------------------------------------------------
  // The one little-endian dword (MySQL handshake framing).
  // ---------------------------------------------------------------------

  /** Least significant byte first. */
  function LsbDwordBytes(d: Dword): (r: seq<Byte>)
    ensures |r| == 4
  {
    [d % 0x100, (d / 0x100) % 0x100, (d / 0x1_0000) % 0x100, d / 0x100_0000]
  }

  function LsbDwordOf(b: seq<Byte>): (d: Dword)
    requires |b| == 4
  {
    (b[0] as int) + (b[1] as int) * 0x100 + (b[2] as int) * 0x1_0000 + (b[3] as int) * 0x100_0000
  }

  lemma LsbDwordRoundTrip(d: Dword)
    ensures LsbDwordOf(LsbDwordBytes(d)) == d
  {
    var b0, r0 := d % 0x100, d / 0x100;
    var b1, r1 := r0 % 0x100, r0 / 0x100;
    var b2, b3 := r1 % 0x100, r1 / 0x100;
    assert r0 / 0x100 == d / 0x1_0000;
    assert r1 / 0x100 == d / 0x100_0000;
    assert d == b0 + 0x100 * (b1 + 0x100 * (b2 + 0x100 * b3));
  }

  /** The little-endian path is the big-endian one read backwards. */
  lemma LsbIsReversedDword(d: Dword)
    ensures LsbDwordBytes(d) == [DwordBytes(d)[3], DwordBytes(d)[2], DwordBytes(d)[1], DwordBytes(d)[0]]
  {
    DwordBytesBigEndian(d);
  }

  // ---------------------------------------------------------------------
  // 64-bit values: high dword first, then low dword.
  // ---------------------------------------------------------------------

  function QwordBytes(q: Qword): (r: seq<Byte>)
    ensures |r| == 8
  {
    DwordBytes(q / TWO32) + DwordBytes(q % TWO32)
  }

  function QwordOf(b: seq<Byte>): (q: Qword)
    requires |b| == 8
  {
    DwordOf(b[..4]) * TWO32 + DwordOf(b[4..])
  }

  lemma QwordRoundTrip(q: Qword)
    ensures QwordOf(QwordBytes(q)) == q
  {
    var hi, lo := q / TWO32, q % TWO32;
    assert QwordBytes(q)[..4] == DwordBytes(hi);
    assert QwordBytes(q)[4..] == DwordBytes(lo);
    DwordRoundTrip(hi);
    DwordRoundTrip(lo);
  }

  /** SendUint64(int64_t): the value is reinterpreted as uint64_t. */
  function Int64Bits(i: Int64): (q: Qword)
    ensures i >= 0 ==> q == i
    ensures i < 0 ==> q == i + TWO64
  {
    i % TWO64
  }

  // ---------------------------------------------------------------------
  // SendAsDword: Min(Max(v, 0), UINT_MAX).
  // ---------------------------------------------------------------------

  function ClampToDword(v: Int64): (r: Dword)
    ensures 0 <= v <= DWORD_MAX ==> r == v
    ensures v < 0 ==> r == 0
    ensures v > DWORD_MAX ==> r == DWORD_MAX
  {
    if v < 0 then 0 else if v > DWORD_MAX then DWORD_MAX else v
  }

  /** Clamping is monotone: a larger value never sends a smaller dword. */
  lemma ClampMonotone(a: Int64, b: Int64)
    requires a <= b
    ensures ClampToDword(a) <= ClampToDword(b)
  {
  }
}
