/**
 Network-order integers on byte strings (common/EndianTransfer.h). A byte is a
 `char`, as in the source; only its low eight bits take part in arithmetic.
 */
module Endian {

  type Bytes = string

  const TWO31: int := 0x8000_0000
  const TWO32: int := 0x1_0000_0000
  const TWO63: int := 0x8000_0000_0000_0000
  const TWO64: int := 0x1_0000_0000_0000_0000

  function Pow256(k: nat): (p: nat)
    ensures p > 0
  {
    if k == 0 then 1 else 256 * Pow256(k - 1)
  }

  /** The `k` low-order bytes of `n`, most significant first. */
  function BigEndian(k: nat, n: nat): (b: Bytes)
    ensures |b| == k
    ensures forall i :: 0 <= i < k ==> b[i] as int < 256
    decreases k, n
  {
    if k == 0 then [] else BigEndian(k - 1, n / 256) + [(n % 256) as char]
  }

  function FromBigEndian(b: Bytes): (n: nat)
    ensures n < Pow256(|b|)
  {
    if b == [] then 0
    else FromBigEndian(b[..|b| - 1]) * 256 + b[|b| - 1] as int % 256
  }

  lemma AppendByte(front: Bytes, low: nat)
    requires low < 256
    ensures FromBigEndian(front + [low as char]) == FromBigEndian(front) * 256 + low
  {
    assert (front + [low as char])[..|front|] == front;
  }

  lemma HighBytes(k: nat, n: nat)
    requires k > 0 && n < Pow256(k)
    ensures n / 256 < Pow256(k - 1) && n == n / 256 * 256 + n % 256
  {
  }

  lemma {:induction false} DecodeEncode(k: nat, n: nat)
    requires n < Pow256(k)
    ensures FromBigEndian(BigEndian(k, n)) == n
  {
    if k > 0 {
      var high, low := n / 256, n % 256;
      HighBytes(k, n);
      DecodeEncode(k - 1, high);
      AppendByte(BigEndian(k - 1, high), low);
      assert BigEndian(k, n) == BigEndian(k - 1, high) + [low as char];
    }
  }

  lemma {:induction false} EncodeDecode(b: Bytes)
    requires forall i :: 0 <= i < |b| ==> b[i] as int < 256
    ensures BigEndian(|b|, FromBigEndian(b)) == b
  {
    if b != [] {
      var front, last, n := b[..|b| - 1], b[|b| - 1], FromBigEndian(b);
      EncodeDecode(front);
      assert n / 256 == FromBigEndian(front) && n % 256 == last as int;
      assert b == front + [last];
    }
  }

  lemma DivideTwice(n: nat, p: nat)
    requires p > 0
    ensures n / 256 / p == n / (256 * p)
  {
    var q, r, s := n / 256 / p, n / 256 % p, n % 256;
    assert n == 256 * (q * p + r) + s;
    assert 256 * (q * p + r) == q * (256 * p) + 256 * r;
    QuotientUnique(n, 256 * p, q, 256 * r + s);
  }

  lemma MultipleFar(d: int, p: nat)
    ensures d > 0 ==> d * p >= p
    ensures d < 0 ==> d * p <= -(p as int)
  {
  }

  lemma QuotientUnique(n: nat, p: nat, q: nat, r: nat)
    requires r < p && n == q * p + r
    ensures n / p == q && n % p == r
  {
    var d := n / p - q;
    assert d * p == r - n % p;
    MultipleFar(d, p);
  }

  /** Most significant byte first: where each byte of a number goes. */
  lemma {:induction false} BigEndianAt(k: nat, n: nat, i: nat)
    requires i < k
    ensures BigEndian(k, n)[i] as int == n / Pow256(k - 1 - i) % 256
    decreases k
  {
    if i < k - 1 {
      BigEndianAt(k - 1, n / 256, i);
      DivideTwice(n, Pow256(k - 2 - i));
    }
  }

  lemma LastByte(b: Bytes)
    requires b != []
    ensures var n := FromBigEndian(b); n / 256 == FromBigEndian(b[..|b| - 1]) && n % 256 == b[|b| - 1] as int % 256
  {
  }

  /** And where each byte of a text counts. */
  lemma {:induction false} FromBigEndianAt(b: Bytes, i: nat)
    requires i < |b|
    ensures FromBigEndian(b) / Pow256(|b| - 1 - i) % 256 == b[i] as int % 256
    decreases |b|
  {
    LastByte(b);
    if i < |b| - 1 {
      FromBigEndianAt(b[..|b| - 1], i);
      DivideTwice(FromBigEndian(b), Pow256(|b| - 2 - i));
    }
  }

  /** Conversion to `int32_t`: two's complement reading of a 32-bit pattern. */
  function AsInt32(n: nat): (x: int)
    requires n < TWO32
    ensures -TWO31 <= x < TWO31 && (x - n) % TWO32 == 0
  {
    if n < TWO31 then n else n - TWO32
  }

  function AsInt16(n: nat): (x: int)
    requires n < 0x1_0000
    ensures -0x8000 <= x < 0x8000 && (x - n) % 0x1_0000 == 0
  {
    if n < 0x8000 then n else n - 0x1_0000
  }

  lemma PowersOf256()
    ensures Pow256(1) == 0x100 && Pow256(2) == 0x1_0000
    ensures Pow256(4) == TWO32 && Pow256(8) == TWO64
  {
    assert Pow256(1) == 0x100;
    assert Pow256(2) == 0x1_0000;
    assert Pow256(3) == 0x100_0000;
    assert Pow256(4) == TWO32;
    assert Pow256(5) == 256 * TWO32;
    assert Pow256(6) == 0x1_0000 * TWO32;
    assert Pow256(7) == 0x100_0000 * TWO32;
    assert Pow256(8) == TWO64;
  }

  /** A 32-bit field holding any integer, truncated as a C cast truncates it. */
  function Field32(x: int): (b: Bytes)
    ensures |b| == 4
  {
    BigEndian(4, x % TWO32)
  }

  function Field16(x: int): (b: Bytes)
    ensures |b| == 2
  {
    BigEndian(2, x % 0x1_0000)
  }

  function Field64(n: nat): (b: Bytes)
    requires n < TWO64
    ensures |b| == 8
  {
    BigEndian(8, n)
  }

  function Int32Of(b: Bytes): int
    requires |b| == 4
  {
    PowersOf256();
    AsInt32(FromBigEndian(b))
  }

  function Int16Of(b: Bytes): int
    requires |b| == 2
  {
    PowersOf256();
    AsInt16(FromBigEndian(b))
  }

  function UInt64Of(b: Bytes): (n: nat)
    requires |b| == 8
    ensures n < TWO64
  {
    PowersOf256();
    FromBigEndian(b)
  }

  /** Cutting to 32 bits and reading them as signed. */
  lemma Cut32(x: int)
    ensures (AsInt32(x % TWO32) - x) % TWO32 == 0
    ensures -TWO31 <= x < TWO31 ==> AsInt32(x % TWO32) == x
  {
  }

  lemma Cut16(x: int)
    requires -0x8000 <= x < 0x8000
    ensures AsInt16(x % 0x1_0000) == x
  {
  }

  /** The bytes of a field on the wire, the most significant first. */
  lemma FieldBytes(x: int, i: nat)
    ensures i < 2 ==> Field16(x)[i] as int == x % 0x1_0000 / Pow256(1 - i) % 256
    ensures i < 4 ==> Field32(x)[i] as int == x % TWO32 / Pow256(3 - i) % 256
    ensures i < 8 && 0 <= x < TWO64 ==> Field64(x)[i] as int == x / Pow256(7 - i) % 256
  {
    if i < 2 { BigEndianAt(2, x % 0x1_0000, i); }
    if i < 4 { BigEndianAt(4, x % TWO32, i); }
    if i < 8 && 0 <= x < TWO64 { BigEndianAt(8, x, i); }
  }

  lemma PatternOf16(b: Bytes)
    requires |b| == 2
    ensures Int16Of(b) % 0x1_0000 == FromBigEndian(b)
  {
    PowersOf256();
  }

  lemma PatternOf32(b: Bytes)
    requires |b| == 4
    ensures Int32Of(b) % TWO32 == FromBigEndian(b)
  {
    PowersOf256();
  }

  /** What is read has, cut to its width, the bytes it was read from, in the same order. */
  lemma FieldsRead(b: Bytes, i: nat)
    requires i < |b|
    ensures |b| == 2 ==> Int16Of(b) % 0x1_0000 / Pow256(1 - i) % 256 == b[i] as int % 256
    ensures |b| == 4 ==> Int32Of(b) % TWO32 / Pow256(3 - i) % 256 == b[i] as int % 256
    ensures |b| == 8 ==> UInt64Of(b) / Pow256(7 - i) % 256 == b[i] as int % 256
  {
    FromBigEndianAt(b, i);
    if |b| == 2 { PatternOf16(b); }
    if |b| == 4 { PatternOf32(b); }
  }

  lemma Field32RoundTrip(x: int)
    ensures (Int32Of(Field32(x)) - x) % TWO32 == 0
    ensures -TWO31 <= x < TWO31 ==> Int32Of(Field32(x)) == x
  {
    assert Pow256(4) == TWO32 by { PowersOf256(); }
    DecodeEncode(4, x % TWO32);
    Cut32(x);
  }

  lemma Field16RoundTrip(x: int)
    requires -0x8000 <= x < 0x8000
    ensures Int16Of(Field16(x)) == x
  {
    assert Pow256(2) == 0x1_0000 by { PowersOf256(); }
    DecodeEncode(2, x % 0x1_0000);
    Cut16(x);
  }

  lemma Field64RoundTrip(n: nat)
    requires n < TWO64
    ensures UInt64Of(Field64(n)) == n
  {
    PowersOf256();
    DecodeEncode(8, n);
  }
}
