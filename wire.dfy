/**
 * Fixed-width big-endian unsigned integers on a byte stream, as the archive
 * index writes them (DataHelper.writeLong / DataHelper.readLong), and the
 * Java integer casts the reader applies to what it reads.
 */
module Wire {
  import opened Wrappers

  type byte = x: int | 0 <= x < 256

  const INT_MIN: int := -0x8000_0000
  const INT_MAX: int := 0x7FFF_FFFF
  const LONG_MIN: int := -0x8000_0000_0000_0000
  const LONG_MAX: int := 0x7FFF_FFFF_FFFF_FFFF

  /** Java `int` and `long`. */
  type int32 = x: int | INT_MIN <= x <= INT_MAX
  type int64 = x: int | LONG_MIN <= x <= LONG_MAX

  /** Why a stream operation failed. */
  datatype Fault =
    | OutOfRange     // a value does not fit the width it is written at
    | ShortField     // fewer bytes left than a fixed-width integer needs
    | ShortScope     // fewer than 32 bytes left for a channel scope
    | ShortUri       // fewer bytes left than a URI's length prefix declares
    | NullScope      // a channel whose scope was never set is written
    | NegativeCount  // a u32 element count that is negative as a Java int

  function Pow256(w: nat): (p: nat)
    ensures p >= 1
  {
    if w == 0 then 1 else 256 * Pow256(w - 1)
  }

  lemma Pow256Table()
    ensures Pow256(1) == 0x100 && Pow256(2) == 0x1_0000 && Pow256(4) == 0x1_0000_0000
    ensures Pow256(8) == 0x1_0000_0000_0000_0000
  {
    assert Pow256(1) == 0x100;
    assert Pow256(2) == 0x1_0000;
    assert Pow256(3) == 0x100_0000;
    assert Pow256(4) == 0x1_0000_0000;
    assert Pow256(5) == 0x100_0000_0000;
    assert Pow256(6) == 0x1_0000_0000_0000;
    assert Pow256(7) == 0x100_0000_0000_0000;
  }

  /** The w-byte big-endian digits of v (v mod 256^w). */
  function BigEndian(w: nat, v: nat): (s: seq<byte>)
    ensures |s| == w
  {
    if w == 0 then [] else BigEndian(w - 1, v / 256) + [v % 256]
  }

  /** The unsigned value of big-endian digits. */
  function Unsigned(s: seq<byte>): (v: nat)
    ensures v < Pow256(|s|)
  {
    if s == [] then 0 else Unsigned(s[..|s| - 1]) * 256 + s[|s| - 1]
  }

  lemma {:induction false} UnsignedBigEndian(w: nat, v: nat)
    requires v < Pow256(w)
    ensures Unsigned(BigEndian(w, v)) == v
  {
    if w > 0 {
      var s := BigEndian(w, v);
      assert s[..w - 1] == BigEndian(w - 1, v / 256);
      UnsignedBigEndian(w - 1, v / 256);
    }
  }

  /** Every w-byte string is the encoding of its own value. */
  lemma {:induction false} BigEndianUnsigned(s: seq<byte>)
    ensures BigEndian(|s|, Unsigned(s)) == s
  {
    if s != [] {
      var w := |s|;
      var v := Unsigned(s);
      assert v / 256 == Unsigned(s[..w - 1]) && v % 256 == s[w - 1];
      BigEndianUnsigned(s[..w - 1]);
      assert s == s[..w - 1] + [s[w - 1]];
    }
  }

  /** writeLong(out, w, v): fails unless 0 <= v < 256^w. */
  function WriteLong(w: nat, v: int): (r: Result<seq<byte>, Fault>)
    ensures r.Success? <==> 0 <= v < Pow256(w)
    ensures r.Success? ==> |r.value| == w && Unsigned(r.value) == v
    ensures r.Failure? ==> r.error == OutOfRange
  {
    if 0 <= v < Pow256(w) then
      UnsignedBigEndian(w, v);
      Success(BigEndian(w, v))
    else
      Failure(OutOfRange)
  }

  /** readLong(in, w): the unsigned value of the next w bytes, and the rest of the stream. */
  function ReadLong(w: nat, s: seq<byte>): (r: Result<(nat, seq<byte>), Fault>)
    ensures r.Success? <==> |s| >= w
    ensures r.Success? ==> r.value.0 < Pow256(w) && r.value.1 == s[w..]
    ensures r.Failure? ==> r.error == ShortField
  {
    if |s| < w then Failure(ShortField) else Success((Unsigned(s[..w]), s[w..]))
  }

  lemma ReadWriteLong(w: nat, v: int, t: seq<byte>)
    requires 0 <= v < Pow256(w)
    ensures WriteLong(w, v).Success?
    ensures ReadLong(w, WriteLong(w, v).value + t) == Success((v, t))
  {
    var e := WriteLong(w, v).value;
    assert (e + t)[..w] == e;
    assert (e + t)[w..] == t;
  }

  /** Reading a field only looks at its own bytes: more input behind it changes only the rest. */
  lemma ReadLongExtends(w: nat, s: seq<byte>, t: seq<byte>)
    requires ReadLong(w, s).Success?
    ensures ReadLong(w, s + t) == Success((ReadLong(w, s).value.0, ReadLong(w, s).value.1 + t))
  {
    assert (s + t)[..w] == s[..w];
    assert (s + t)[w..] == s[w..] + t;
  }

  /** Sequence identities, proved apart from any context that would make them costly. */
  lemma HeadTail<T>(s: seq<T>)
    requires s != []
    ensures [s[0]] + s[1..] == s
  {
  }

  lemma AppendEmpty<T>(s: seq<T>)
    ensures s + [] == s
  {
  }

  lemma PrefixSuffix<T>(s: seq<T>, i: nat)
    requires i <= |s|
    ensures s[..i] + s[i..] == s
  {
  }

  lemma Assoc<T>(a: seq<T>, b: seq<T>, c: seq<T>)
    ensures a + b + c == a + (b + c)
  {
  }

  lemma Assoc4<T>(a: seq<T>, b: seq<T>, c: seq<T>, d: seq<T>)
    ensures a + b + c + d == a + (b + (c + d))
  {
  }

  /** Two's-complement wrap-around to a Java int. */
  function WrapInt(x: int): (r: int32)
    ensures (r - x) % 0x1_0000_0000 == 0
    ensures INT_MIN <= x <= INT_MAX ==> r == x
  {
    var u := x % 0x1_0000_0000;
    if u <= INT_MAX then u else u - 0x1_0000_0000
  }

  /** Two's-complement wrap-around to a Java long. */
  function WrapLong(x: int): (r: int64)
    ensures (r - x) % 0x1_0000_0000_0000_0000 == 0
    ensures LONG_MIN <= x <= LONG_MAX ==> r == x
  {
    var u := x % 0x1_0000_0000_0000_0000;
    if u <= LONG_MAX then u else u - 0x1_0000_0000_0000_0000
  }

  /** `(long)` of an unsigned 8-byte value: values past LONG_MAX turn negative. */
  function LongOfUnsigned(v: nat): (r: int64)
    requires v < 0x1_0000_0000_0000_0000
    ensures v <= LONG_MAX ==> r == v
    ensures r - v == 0 || r - v == -0x1_0000_0000_0000_0000
  {
    if v <= LONG_MAX then v else v - 0x1_0000_0000_0000_0000
  }

  /** `(int)` of an unsigned 4-byte value: values past INT_MAX turn negative. */
  function IntOfUnsigned(v: nat): (r: int32)
    requires v < 0x1_0000_0000
    ensures v <= INT_MAX ==> r == v
    ensures r - v == 0 || r - v == -0x1_0000_0000
  {
    if v <= INT_MAX then v else v - 0x1_0000_0000
  }

  /**
   * Java's `/` by a positive divisor: the quotient is truncated toward zero,
   * so it lies on the same side of zero as a and within one divisor of a.
   */
  function JavaDiv(a: int, b: int): (q: int)
    requires b > 0
    ensures a >= 0 ==> 0 <= q && q * b <= a < q * b + b
    ensures a < 0 ==> q <= 0 && q * b - b < a <= q * b
  {
    if a >= 0 then
      DivBounds(a, b);
      a / b
    else
      DivBounds(-a, b);
      NegTimes((-a) / b, b);
      -((-a) / b)
  }

  /** Euclidean division of a non-negative number: b * (a / b) is the multiple of b just at or below a. */
  lemma DivBounds(a: int, b: int)
    requires a >= 0 && b > 0
    ensures 0 <= a / b && (a / b) * b <= a < (a / b) * b + b
  {
    var q, r := a / b, a % b;
    assert a == q * b + r;
  }

  lemma NegTimes(x: int, b: int)
    ensures (-x) * b == -(x * b)
  {
  }
}
