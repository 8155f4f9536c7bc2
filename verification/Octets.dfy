/** Byte strings, the big-endian integers written into them, and the optional values
    the source returns where a lookup or a parse can fail. */
module Octets {

  newtype byte = x: int | 0 <= x < 256

  type Bytes = seq<byte>

  datatype Option<+T> = None | Some(value: T)

  const TWO_32: nat := 0x1_0000_0000
  const TWO_63: nat := 0x8000_0000_0000_0000
  const TWO_64: nat := 0x1_0000_0000_0000_0000

  /** 256 to the power `width`: how many values fit in `width` bytes. */
  function Span(width: nat): (r: nat)
    ensures r > 0
  {
    if width == 0 then 1 else 256 * Span(width - 1)
  }

  /** `n` as `width` big-endian bytes; higher bits are dropped, as the source's casts do. */
  function BigEndian(n: nat, width: nat): (r: Bytes)
    ensures |r| == width
  {
    if width == 0 then [] else BigEndian(n / 256, width - 1) + [(n % 256) as byte]
  }

  function ReadBigEndian(s: Bytes): nat
  {
    if s == [] then 0 else 256 * ReadBigEndian(s[..|s| - 1]) + s[|s| - 1] as nat
  }

  lemma {:induction false} BigEndianRoundTrip(n: nat, width: nat)
    requires n < Span(width)
    ensures ReadBigEndian(BigEndian(n, width)) == n
  {
    if width > 0 {
      var s := BigEndian(n, width);
      assert s[..|s| - 1] == BigEndian(n / 256, width - 1);
      BigEndianRoundTrip(n / 256, width - 1);
    }
  }

  /** Two different numbers that fit in `width` bytes have different encodings. */
  lemma BigEndianInjective(m: nat, n: nat, width: nat)
    requires m < Span(width) && n < Span(width)
    requires BigEndian(m, width) == BigEndian(n, width)
    ensures m == n
  {
    BigEndianRoundTrip(m, width);
    BigEndianRoundTrip(n, width);
  }

  lemma SpanValues()
    ensures Span(1) == 256 && Span(2) == 65536 && Span(4) == TWO_32 && Span(8) == TWO_64
  {
    assert Span(3) == 256 * Span(2);
    assert Span(5) == 256 * Span(4);
    assert Span(6) == 256 * Span(5);
    assert Span(7) == 256 * Span(6);
  }

  /** Exclusive or of the low `bits` bits of two numbers. */
  function Xor(a: nat, b: nat, bits: nat): nat
  {
    if bits == 0 then 0
    else (a % 2 + b % 2) % 2 + 2 * Xor(a / 2, b / 2, bits - 1)
  }

  function PowerOfTwo(bits: nat): (r: nat)
    ensures r > 0
  {
    if bits == 0 then 1 else 2 * PowerOfTwo(bits - 1)
  }

  lemma {:induction false} XorBounded(a: nat, b: nat, bits: nat)
    ensures Xor(a, b, bits) < PowerOfTwo(bits)
  {
    if bits > 0 {
      XorBounded(a / 2, b / 2, bits - 1);
    }
  }

  lemma ParityCancels(u: nat, v: nat)
    requires u < 2 && v < 2
    ensures (u + (u + v) % 2) % 2 == v
  {
  }

  lemma HalfOf(low: nat, half: nat)
    requires low < 2
    ensures (low + 2 * half) % 2 == low && (low + 2 * half) / 2 == half
  {
  }

  /** Xor with the same number twice gives back the low bits: xor is its own inverse. */
  lemma {:induction false} XorCancels(a: nat, b: nat, bits: nat)
    requires b < PowerOfTwo(bits)
    ensures Xor(a, Xor(a, b, bits), bits) == b
  {
    if bits > 0 {
      XorCancels(a / 2, b / 2, bits - 1);
      ParityCancels(a % 2, b % 2);
      HalfOf((a % 2 + b % 2) % 2, Xor(a / 2, b / 2, bits - 1));
    }
  }

  function XorByte(a: byte, b: byte): byte
  {
    XorBounded(a as nat, b as nat, 8);
    Xor(a as nat, b as nat, 8) as byte
  }

  lemma XorByteInjective(a: byte, b: byte, c: byte)
    requires XorByte(a, b) == XorByte(a, c)
    ensures b == c
  {
    XorCancels(a as nat, b as nat, 8);
    XorCancels(a as nat, c as nat, 8);
  }

  /** Lexicographic order on byte strings, as `std::lexicographical_compare` and `memcmp` give it. */
  predicate Less(a: Bytes, b: Bytes)
  {
    b != [] && (a == [] || a[0] < b[0] || (a[0] == b[0] && Less(a[1..], b[1..])))
  }

  lemma {:induction false} LessIrreflexive(a: Bytes)
    ensures !Less(a, a)
  {
    if a != [] {
      LessIrreflexive(a[1..]);
    }
  }

  lemma {:induction false} LessTransitive(a: Bytes, b: Bytes, c: Bytes)
    requires Less(a, b) && Less(b, c)
    ensures Less(a, c)
  {
    if a != [] && a[0] == b[0] == c[0] {
      LessTransitive(a[1..], b[1..], c[1..]);
    }
  }

  lemma {:induction false} LessTotal(a: Bytes, b: Bytes)
    ensures a == b || Less(a, b) || Less(b, a)
  {
    if a != [] && b != [] && a[0] == b[0] {
      LessTotal(a[1..], b[1..]);
      assert a == [a[0]] + a[1..] && b == [b[0]] + b[1..];
    }
  }
}
