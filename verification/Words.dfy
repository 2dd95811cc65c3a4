/** Machine words: unsigned 8-, 32- and 64-bit values, their signed reading, and the
    bitwise operations the generated code relies on. */
module Words {
  import Arith

  const TWO_31 := 0x8000_0000
  const TWO_32 := 0x1_0000_0000
  const TWO_63 := 0x8000_0000_0000_0000
  const TWO_64 := 0x1_0000_0000_0000_0000

  type byte = x: int | 0 <= x < 256
  type u32 = x: int | 0 <= x < 0x1_0000_0000
  type u64 = x: int | 0 <= x < 0x1_0000_0000_0000_0000
  type i64 = x: int | -0x8000_0000_0000_0000 <= x < 0x8000_0000_0000_0000

  function ToU32(x: int): u32 { x % 0x1_0000_0000 }

  function ToU64(x: int): u64 { x % 0x1_0000_0000_0000_0000 }

  /** Two's complement reading of a 64-bit register. */
  function Signed(x: u64): i64 {
    if x < 0x8000_0000_0000_0000 then x else x - 0x1_0000_0000_0000_0000
  }

  /** Two's complement wrap-around of an unbounded integer to 64 bits. */
  function Wrap(x: int): i64 { Signed(ToU64(x)) }

  /** Sign extension of a 32-bit immediate or displacement. */
  function SignExt32(x: u32): int {
    if x < 0x8000_0000 then x else x - 0x1_0000_0000
  }

  /** A count cut to a C int: the low 32 bits, read as a signed number. */
  function AsInt(n: nat): int { SignExt32(ToU32(n)) }

  /** It is the count exactly below 2^31. */
  lemma AsIntExact(n: nat)
    ensures AsInt(n) == n <==> n < TWO_31
  {
  }

  /** Little-endian bytes of a 32-bit word. */
  function LE32(x: u32): (bs: seq<byte>)
    ensures |bs| == 4
  {
    [x % 256, x / 256 % 256, x / 65536 % 256, x / 16777216]
  }

  function FromLE32(b0: byte, b1: byte, b2: byte, b3: byte): u32 {
    b0 + 256 * b1 + 65536 * b2 + 16777216 * b3
  }

  lemma LE32RoundTrip(x: u32)
    ensures var bs := LE32(x); FromLE32(bs[0], bs[1], bs[2], bs[3]) == x
  {
    assert x / 65536 == x / 256 / 256 && x / 16777216 == x / 65536 / 256;
  }

  function BitAnd(a: nat, b: nat): nat {
    if a == 0 || b == 0 then 0 else 2 * BitAnd(a / 2, b / 2) + (a % 2) * (b % 2)
  }

  function BitOr(a: nat, b: nat): nat
    decreases a + b
  {
    if a == 0 && b == 0 then 0
    else 2 * BitOr(a / 2, b / 2) + (if a % 2 == 1 || b % 2 == 1 then 1 else 0)
  }

  lemma BitAndBound(a: nat, b: nat)
    ensures BitAnd(a, b) <= a && BitAnd(a, b) <= b
  {
  }

  lemma {:induction false} BitOrBound(a: nat, b: nat, m: nat)
    requires a < Pow2(m) && b < Pow2(m)
    ensures BitOr(a, b) < Pow2(m)
  {
    if m > 0 && (a != 0 || b != 0) { BitOrBound(a / 2, b / 2, m - 1); }
  }

  function Pow2(m: nat): (r: nat)
    ensures r >= 1
  {
    if m == 0 then 1 else 2 * Pow2(m - 1)
  }

  lemma BitAndStep(a: nat, b: nat)
    ensures BitAnd(a, b) == 2 * BitAnd(a / 2, b / 2) + (a % 2) * (b % 2)
  {
  }

  // ---- powers of two and masks ----

  lemma Power32()
    ensures Pow2(32) == TWO_32
  {
    assert Pow2(8) == 256;
    PowAdd(8, 8);
    PowAdd(16, 16);
  }

  lemma {:induction false} PowAdd(m: nat, n: nat)
    ensures Pow2(m + n) == Pow2(m) * Pow2(n)
  {
    if n > 0 { PowAdd(m, n - 1); }
  }

  /** A mask of `n` bits sees only the low `n` bits. */
  lemma {:induction false} LowBits(x: nat, y: nat, n: nat)
    requires y < Pow2(n)
    ensures BitAnd(x, y) == BitAnd(x % Pow2(n), y)
  {
    if n > 0 {
      LowBits(x / 2, y / 2, n - 1);
      Halves(x, Pow2(n - 1));
      BitAndStep(x, y);
      BitAndStep(x % Pow2(n), y);
      hide BitAnd;
    }
  }

  lemma Halves(x: nat, h: nat)
    requires h > 0
    ensures x % (2 * h) / 2 == x / 2 % h && x % (2 * h) % 2 == x % 2
  {
    var q := x / 2;
    var r := 2 * (q % h) + x % 2;
    assert q == h * (q / h) + q % h;
    assert x == 2 * q + x % 2 == 2 * h * (q / h) + r;
    Arith.ModUnique(x, 2 * h, q / h, r);
  }

  /** What a mask leaves is what its complement takes away. */
  lemma {:induction false} Complement(x: nat, m: nat, n: nat)
    requires x < Pow2(n) && m < Pow2(n)
    ensures BitAnd(x, Pow2(n) - 1 - m) == x - BitAnd(x, m)
  {
    if n > 0 {
      Complement(x / 2, m / 2, n - 1);
      var c := Pow2(n) - 1 - m;
      assert c / 2 == Pow2(n - 1) - 1 - m / 2 && c % 2 == 1 - m % 2;
      BitAndStep(x, c);
      BitAndStep(x, m);
      assert (x % 2) * (c % 2) == x % 2 - (x % 2) * (m % 2);
      hide BitAnd;
    }
  }

  /** The low `k` bits are the remainder by 2^k. */
  lemma {:induction false} Remainder(x: nat, k: nat)
    ensures BitAnd(x, Pow2(k) - 1) == x % Pow2(k)
  {
    if k > 0 {
      Remainder(x / 2, k - 1);
      RemainderStep(x, Pow2(k - 1));
    }
  }

  lemma RemainderStep(x: nat, h: nat)
    requires h > 0 && BitAnd(x / 2, h - 1) == x / 2 % h
    ensures BitAnd(x, 2 * h - 1) == x % (2 * h)
  {
    hide BitAnd;
    BitAndStep(x, 2 * h - 1);
    assert (2 * h - 1) / 2 == h - 1 && (2 * h - 1) % 2 == 1;
    Halves(x, h);
    var r := x % (2 * h);
    assert r == 2 * (r / 2) + r % 2;
  }
}
