/** Flag words (a Java `int` seen as 32 bits) and the counting loops that fill their coded fields. */
module Bits {

  function Pow2(n: nat): (p: nat)
    ensures p >= 1
  {
    if n == 0 then 1 else 2 * Pow2(n - 1)
  }

  ghost predicate IsPow2(p: int) {
    exists n: nat :: p == Pow2(n)
  }

  /** How often k can be halved while it is above one: floor(log2 k) for k >= 1, else 0. */
  function Log2Floor(k: int): nat
    decreases k
  {
    if k <= 1 then 0 else 1 + Log2Floor(k / 2)
  }

  /** How often k can be halved while it is positive: the number of binary digits of k. */
  function BitLength(k: int): nat
    decreases k
  {
    if k <= 0 then 0 else 1 + BitLength(k / 2)
  }

  lemma {:induction false} Log2FloorBounds(k: int)
    requires k >= 1
    ensures Pow2(Log2Floor(k)) <= k < 2 * Pow2(Log2Floor(k))
  {
    if k > 1 {
      Log2FloorBounds(k / 2);
    }
  }

  lemma {:induction false} Log2FloorBelow(k: int, n: nat)
    requires k < Pow2(n)
    ensures Log2Floor(k) < n || (n == 0 && Log2Floor(k) == 0)
  {
    if k > 1 {
      assert n > 0;
      Log2FloorBelow(k / 2, n - 1);
    }
  }

  lemma {:induction false} Log2FloorAtLeast(k: int, n: nat)
    requires Pow2(n) <= k
    ensures n <= Log2Floor(k)
  {
    if n > 0 {
      assert Pow2(n - 1) <= k / 2;
      Log2FloorAtLeast(k / 2, n - 1);
    }
  }

  lemma {:induction false} Log2FloorOfPow2(n: nat)
    ensures Log2Floor(Pow2(n)) == n
  {
    if n > 0 {
      assert Pow2(n) / 2 == Pow2(n - 1);
      Log2FloorOfPow2(n - 1);
    }
  }

  lemma {:induction false} BitLengthBounds(k: int)
    requires k >= 0
    ensures k < Pow2(BitLength(k))
    ensures k > 0 ==> Pow2(BitLength(k) - 1) <= k
  {
    if k > 0 {
      BitLengthBounds(k / 2);
    }
  }

  lemma {:induction false} BitLengthBelow(k: int, n: nat)
    requires k < Pow2(n)
    ensures BitLength(k) <= n
  {
    if k > 0 {
      assert n > 0;
      BitLengthBelow(k / 2, n - 1);
    }
  }

  lemma {:induction false} Pow2Monotone(a: nat, b: nat)
    requires a <= b
    ensures Pow2(a) <= Pow2(b)
  {
    if a < b {
      Pow2Monotone(a, b - 1);
    }
  }

  lemma {:induction false} Pow2Add(a: nat, b: nat)
    ensures Pow2(a + b) == Pow2(a) * Pow2(b)
  {
    if b > 0 {
      Pow2Add(a, b - 1);
    }
  }

  lemma {:induction false} Log2FloorUnique(k: int, n: nat)
    requires Pow2(n) <= k < 2 * Pow2(n)
    ensures Log2Floor(k) == n
  {
    if n > 0 {
      assert Pow2(n - 1) <= k / 2 < 2 * Pow2(n - 1);
      Log2FloorUnique(k / 2, n - 1);
    }
  }

  lemma Pow2Table()
    ensures Pow2(4) == 0x10 && Pow2(5) == 0x20 && Pow2(15) == 0x8000 && Pow2(16) == 0x1_0000
    ensures Pow2(17) == 0x2_0000 && Pow2(26) == 0x400_0000 && Pow2(27) == 0x800_0000
    ensures Pow2(30) == 0x4000_0000 && Pow2(31) == 0x8000_0000 && Pow2(51) == 0x8_0000_0000_0000
  {
    assert Pow2(1) == 2 && Pow2(2) == 4 && Pow2(3) == 8 && Pow2(4) == 16 && Pow2(5) == 32;
    Pow2Add(5, 5);
    Pow2Add(10, 5);
    Pow2Add(15, 1);
    Pow2Add(16, 1);
    Pow2Add(16, 10);
    Pow2Add(26, 1);
    Pow2Add(26, 4);
    Pow2Add(30, 1);
    Pow2Add(26, 25);
    Pow2Add(10, 15);
  }

  lemma Pow2AtMost15(n: nat)
    requires n <= 15
    ensures Pow2(n) <= 0x8000
  {
    Pow2Monotone(n, 15);
    Pow2Table();
  }

  lemma Pow2AtMost17(n: nat)
    requires n <= 17
    ensures Pow2(n) <= 0x2_0000
  {
    Pow2Monotone(n, 17);
    Pow2Table();
  }

  lemma Pow2AtMost30(n: nat)
    requires n <= 30
    ensures Pow2(n) <= 0x4000_0000
  {
    Pow2Monotone(n, 30);
    Pow2Table();
  }

  /** Halving a Java int while it is above one takes at most 30 steps; from k / 32, at most 25. */
  lemma Log2FloorOfInt(k: int)
    requires k <= 0x7FFF_FFFF
    ensures Log2Floor(k) <= 30 && Log2Floor(k / 32) <= 25
  {
    Pow2Table();
    Log2FloorBelow(k, 31);
    Log2FloorBelow(k / 32, 26);
  }

  lemma BitLengthBelow51(k: int)
    requires k < 0x8_0000_0000_0000
    ensures BitLength(k) <= 51
  {
    Pow2Table();
    BitLengthBelow(k, 51);
  }

  /** `(f & ~mask) | (on ? mask : 0)`: the boolean flag setter. */
  function Set(f: bv32, mask: bv32, on: bool): (r: bv32)
    ensures (r & !mask) == (f & !mask)
    ensures (r & mask) == (if on then mask else 0)
  {
    if on then (f & !mask) | mask else f & !mask
  }

  /** `(f & mask) != 0`: the boolean flag getter. */
  predicate Has(f: bv32, mask: bv32) {
    (f & mask) != 0
  }

  /** Setting one flag leaves every bit group disjoint from it as it was. */
  lemma SetKeepsOthers(f: bv32, mask: bv32, on: bool, other: bv32)
    requires (mask & other) == 0
    ensures (Set(f, mask, on) & other) == (f & other)
  {
    KeepOutside(Set(f, mask, on), f, mask, other);
  }

  lemma KeepOutside(r: bv32, f: bv32, mask: bv32, other: bv32)
    requires (mask & other) == 0
    requires (r & !mask) == (f & !mask)
    ensures (r & other) == (f & other)
  {
  }

  /** The getter of a flag just set reads back what was set. */
  lemma SetThenHas(f: bv32, mask: bv32, on: bool)
    requires mask != 0
    ensures Has(Set(f, mask, on), mask) == on
  {
  }

  /** A small number as a flag word. */
  function Word(n: nat): (w: bv32)
    requires n < 256
    ensures w < 256
  {
    ByteWord(n as bv8)
  }

  /** A flag word below 256 as a number. */
  function Num(w: bv32): (n: nat)
    requires w < 256
    ensures n < 256
  {
    BitsOfByte(w as bv8)
  }

  function ByteWord(b: bv8): (w: bv32)
    ensures w < 256
  {
    b as bv32
  }

  function BitsOfByte(b: bv8): (n: nat)
    ensures n < 256
  {
    b as int
  }

  lemma NumWord(n: nat)
    requires n < 256
    ensures Num(Word(n)) == n
  {
    IntByteInt(n);
    ByteWordByte(n as bv8);
  }

  lemma WordNum(w: bv32)
    requires w < 256
    ensures Word(Num(w)) == w
  {
    WordByteWord(w);
    ByteIntByte(w as bv8);
  }

  lemma IntByteInt(n: nat)
    requires n < 256
    ensures (n as bv8) as int == n
  {
    assert n % 256 == n;
  }

  lemma ByteIntByte(b: bv8)
    ensures (b as int) as bv8 == b
  {
  }

  lemma ByteWordByte(b: bv8)
    ensures (b as bv32) as bv8 == b
  {
  }

  lemma WordByteWord(w: bv32)
    requires w < 256
    ensures (w as bv8) as bv32 == w
  {
  }

  /** A 16-bit flag word as a number, through its two bytes. */
  function Num16(w: bv32): (n: nat)
    requires w < 0x1_0000
    ensures n < 0x1_0000
  {
    Num(w >> 8) * 256 + Num(w & 0xFF)
  }

  /** A number below 2^16 as a flag word, through its two bytes. */
  function Word16(n: nat): (w: bv32)
    requires n < 0x1_0000
    ensures w < 0x1_0000
  {
    (Word(n / 256) << 8) | Word(n % 256)
  }

  lemma Word16Num16(w: bv32)
    requires w < 0x1_0000
    ensures Word16(Num16(w)) == w
  {
    var hi, lo := Num(w >> 8), Num(w & 0xFF);
    assert Num16(w) / 256 == hi && Num16(w) % 256 == lo;
    WordNum(w >> 8);
    WordNum(w & 0xFF);
    Reassemble(w);
  }

  lemma Reassemble(w: bv32)
    requires w < 0x1_0000
    ensures ((w >> 8) << 8) | (w & 0xFF) == w
  {
  }

  lemma Num16Word16(n: nat)
    requires n < 0x1_0000
    ensures Num16(Word16(n)) == n
  {
    var hi, lo := Word(n / 256), Word(n % 256);
    Split(hi, lo);
    NumWord(n / 256);
    NumWord(n % 256);
  }

  lemma Split(hi: bv32, lo: bv32)
    requires hi < 256 && lo < 256
    ensures ((hi << 8) | lo) >> 8 == hi
    ensures ((hi << 8) | lo) & 0xFF == lo
  {
  }
}
