/** Machine words of the C code as mathematical integers: the 32-bit `int` of the
    key identifier, its unsigned bit pattern, and the 16-bit `code` field of a
    kernel input event. Bitwise AND and OR are defined bit by bit on naturals. */
module Words {

  const TWO_16: int := 0x1_0000
  const TWO_31: int := 0x8000_0000
  const TWO_32: int := 0x1_0000_0000

  /** A C `int` (32-bit, two's complement). */
  type int32 = x: int | -0x8000_0000 <= x < 0x8000_0000

  /** The bit pattern of a 32-bit value, read as unsigned. */
  type word = x: int | 0 <= x < 0x1_0000_0000

  /** A C `__u16`, the type of `input_event.type` and `input_event.code`. */
  type u16 = x: int | 0 <= x < 0x1_0000

  /** The bit pattern of a signed 32-bit value. */
  function Unsigned(x: int32): (w: word)
    ensures x >= 0 ==> w == x
    ensures x < 0 ==> w == x + TWO_32
  {
    x % TWO_32
  }

  /** The signed 32-bit value with a given bit pattern. */
  function Signed(w: word): (x: int32)
    ensures Unsigned(x) == w
    ensures w < TWO_31 ==> x == w
  {
    if w < TWO_31 then w else w - TWO_32
  }

  /** Assigning an `int` to a `__u16` field keeps the low 16 bits. */
  function Truncate16(x: int): (r: u16)
    ensures 0 <= x < TWO_16 ==> r == x
    ensures (r - x) % TWO_16 == 0
  {
    x % TWO_16
  }

  /** Bitwise AND of two naturals. */
  function BitAnd(a: nat, b: nat): (r: nat)
    ensures r <= a && r <= b
    decreases a
  {
    if a == 0 || b == 0 then 0
    else 2 * BitAnd(a / 2, b / 2) + (if a % 2 == 1 && b % 2 == 1 then 1 else 0)
  }

  /** Bitwise OR of two naturals. */
  function BitOr(a: nat, b: nat): (r: nat)
    ensures a <= r && b <= r && r <= a + b
    decreases a + b
  {
    if a == 0 then b
    else if b == 0 then a
    else 2 * BitOr(a / 2, b / 2) + (if a % 2 == 1 || b % 2 == 1 then 1 else 0)
  }

  /** Two to the power n. */
  function Pow2(n: nat): (p: nat)
    ensures p >= 1
  {
    if n == 0 then 1 else 2 * Pow2(n - 1)
  }

  lemma {:induction false} BitAndIdempotent(a: nat, m: nat)
    ensures BitAnd(BitAnd(a, m), m) == BitAnd(a, m)
    decreases a
  {
    if a != 0 && m != 0 {
      var r' := BitAnd(a / 2, m / 2);
      var bit := if a % 2 == 1 && m % 2 == 1 then 1 else 0;
      var r := 2 * r' + bit;
      assert BitAnd(a, m) == r;
      assert r / 2 == r' && r % 2 == bit;
      BitAndIdempotent(a / 2, m / 2);
    }
  }

  lemma {:induction false} BitAndAssociative(a: nat, b: nat, c: nat)
    ensures BitAnd(BitAnd(a, b), c) == BitAnd(a, BitAnd(b, c))
    decreases a
  {
    if a != 0 && b != 0 && c != 0 {
      var ab := BitAnd(a, b);
      var bc := BitAnd(b, c);
      assert ab / 2 == BitAnd(a / 2, b / 2) && ab % 2 == (if a % 2 == 1 && b % 2 == 1 then 1 else 0);
      assert bc / 2 == BitAnd(b / 2, c / 2) && bc % 2 == (if b % 2 == 1 && c % 2 == 1 then 1 else 0);
      BitAndAssociative(a / 2, b / 2, c / 2);
    }
  }

  lemma {:induction false} BitAndDistributesOverOr(a: nat, b: nat, c: nat)
    ensures BitAnd(BitOr(a, b), c) == BitOr(BitAnd(a, c), BitAnd(b, c))
    decreases a + b
  {
    if a != 0 && b != 0 && c != 0 {
      var ab := BitOr(a, b);
      var ac := BitAnd(a, c);
      var bc := BitAnd(b, c);
      Halves(ab, BitOr(a / 2, b / 2), if a % 2 == 1 || b % 2 == 1 then 1 else 0);
      Halves(ac, BitAnd(a / 2, c / 2), if a % 2 == 1 && c % 2 == 1 then 1 else 0);
      Halves(bc, BitAnd(b / 2, c / 2), if b % 2 == 1 && c % 2 == 1 then 1 else 0);
      BitAndDistributesOverOr(a / 2, b / 2, c / 2);
    }
  }

  /** The halves of a number written as twice q plus a bit. */
  lemma Halves(r: nat, q: nat, bit: int)
    requires (bit == 0 || bit == 1) && r == 2 * q + bit
    ensures r / 2 == q && r % 2 == bit
  {
  }

  /** OR-ing in a nonzero pattern leaves every one of its bits set. */
  lemma {:induction false} BitOrAbsorbed(a: nat, b: nat)
    ensures BitAnd(BitOr(a, b), b) == b
    decreases a + b
  {
    if a != 0 && b != 0 {
      var ab := BitOr(a, b);
      assert ab / 2 == BitOr(a / 2, b / 2) && ab % 2 == (if a % 2 == 1 || b % 2 == 1 then 1 else 0);
      BitOrAbsorbed(a / 2, b / 2);
    } else if a == 0 && b != 0 {
      BitAndSelf(b);
    }
  }

  lemma {:induction false} BitAndSelf(a: nat)
    ensures BitAnd(a, a) == a
    decreases a
  {
    if a != 0 {
      BitAndSelf(a / 2);
    }
  }

  lemma {:induction false} BitAndCommutative(a: nat, b: nat)
    ensures BitAnd(a, b) == BitAnd(b, a)
    decreases a
  {
    if a != 0 && b != 0 {
      BitAndCommutative(a / 2, b / 2);
    }
  }

  /** Masking a by m keeps only bits that both a and m have. */
  lemma BitAndWithin(a: nat, m: nat)
    ensures BitAnd(BitAnd(a, m), m) == BitAnd(a, m)
    ensures BitAnd(BitAnd(a, m), a) == BitAnd(a, m)
  {
    BitAndIdempotent(a, m);
    BitAndCommutative(BitAnd(a, m), a);
    BitAndAssociative(a, a, m);
    BitAndSelf(a);
  }

  lemma {:induction false} BitOrBound(a: nat, b: nat, n: nat)
    requires a < Pow2(n) && b < Pow2(n)
    ensures BitOr(a, b) < Pow2(n)
    decreases n
  {
    if a != 0 && b != 0 {
      BitOrBound(a / 2, b / 2, n - 1);
    }
  }

  lemma {:induction false} Pow2Of32()
    ensures Pow2(32) == TWO_32
  {
    assert Pow2(8) == 0x100;
    assert Pow2(16) == 0x1_0000;
    assert Pow2(24) == 0x100_0000;
  }
}
