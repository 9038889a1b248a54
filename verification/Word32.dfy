/** Unsigned 32-bit words as naturals, with the C operators the cache code applies to them.
    Words that are only ever masked and shifted are `bv32` elsewhere; the words of this
    module are also counters, addresses and sizes. */
module Word32 {

  const WORD: nat := 0x1_0000_0000

  type Word = x: nat | x < WORD
  type Byte = b: nat | b < 256

  /** Reduction modulo 2^32: the value a `uint32_t` holds after an operation. */
  function Wrap(x: int): Word {
    x % WORD
  }

  /** The value of the same 32 bits read as an `int32_t`. */
  function AsInt32(x: Word): int {
    if x < 0x8000_0000 then x else x - WORD
  }

  function Pow2(k: nat): (p: nat)
    ensures 0 < p
  {
    if k == 0 then 1 else 2 * Pow2(k - 1)
  }

  /** Bitwise conjunction, by binary digits. */
  function And(x: nat, y: nat): nat {
    if x == 0 || y == 0 then 0
    else (if x % 2 == 1 && y % 2 == 1 then 1 else 0) + 2 * And(x / 2, y / 2)
  }

  /** Bitwise disjunction, by binary digits. */
  function Or(x: nat, y: nat): nat {
    if x == 0 then y
    else if y == 0 then x
    else (if x % 2 == 1 || y % 2 == 1 then 1 else 0) + 2 * Or(x / 2, y / 2)
  }

  function Shl(x: Word, k: nat): Word
    decreases k
  {
    if k == 0 then x else Shl(Wrap(2 * x), k - 1)
  }

  function Shr(x: nat, k: nat): nat
    decreases k
  {
    if k == 0 then x else Shr(x / 2, k - 1)
  }

  /** A mask of w ones whose lowest stands at bit p. */
  function Mask(p: nat, w: nat): nat {
    if p > 0 then 2 * Mask(p - 1, w)
    else if w > 0 then 1 + 2 * Mask(0, w - 1)
    else 0
  }

  lemma DoubleProduct(f: nat, b: nat)
    ensures f * (2 * b) == 2 * (f * b)
  {}

  lemma {:induction false} MaskIsProduct(p: nat, w: nat)
    ensures Mask(p, w) == (Pow2(w) - 1) * Pow2(p)
  {
    if p > 0 {
      MaskIsProduct(p - 1, w);
      DoubleProduct(Pow2(w) - 1, Pow2(p - 1));
    } else if w > 0 {
      MaskIsProduct(0, w - 1);
    } else {
    }
  }

  lemma MulSmall(b: int, d: int)
    requires -b < b * d < b
    ensures d == 0
  {}

  lemma QuotientIs(x: nat, b: nat, q: int, r: int)
    requires 0 <= r < b && x == b * q + r
    ensures x / b == q && x % b == r
  {
    assert x == b * (x / b) + x % b;
    var d := x / b - q;
    assert b * d == r - x % b;
    var c: int := b;
    assert -c < b * d < b;
    MulSmall(b, d);
  }

  lemma DivDiv(x: nat, b: nat)
    requires 0 < b
    ensures x / (2 * b) == x / 2 / b
  {
    var q, r := x / (2 * b), x % (2 * b);
    assert x == 2 * (b * q) + r;
    assert x / 2 == b * q + r / 2;
    QuotientIs(x / 2, b, q, r / 2);
  }

  lemma {:induction false} ShrDivides(x: nat, k: nat)
    ensures Shr(x, k) == x / Pow2(k)
    decreases k
  {
    if k == 0 {
    } else {
      ShrDivides(x / 2, k - 1);
      DivDiv(x, Pow2(k - 1));
    }
  }

  lemma WrapTimes(x: nat, b: nat)
    ensures x % WORD * b % WORD == x * b % WORD
  {
    var q := x / WORD;
    var y := x % WORD * b;
    assert x * b == WORD * (q * b) + y by { assert x == WORD * q + x % WORD; }
    QuotientIs(x * b, WORD, q * b + y / WORD, y % WORD);
  }

  lemma DoubledFactor(x: nat, b: nat)
    ensures x * (2 * b) == 2 * x * b
  {}

  lemma {:induction false} ShlMultiplies(x: Word, k: nat)
    ensures Shl(x, k) == x * Pow2(k) % WORD
    decreases k
  {
    if k == 0 {
    } else {
      ShlMultiplies(Wrap(2 * x), k - 1);
      WrapTimes(2 * x, Pow2(k - 1));
      DoubledFactor(x, Pow2(k - 1));
    }
  }

  lemma ModDouble(x: nat, b: nat)
    requires 0 < b
    ensures x % (2 * b) == x % 2 + 2 * (x / 2 % b)
  {
    var q, r := x / 2 / b, x / 2 % b;
    assert x / 2 == b * q + r;
    assert x == (2 * b) * q + (2 * r + x % 2);
    QuotientIs(x, 2 * b, q, 2 * r + x % 2);
  }

  lemma AndOdd(x: nat, m: nat)
    ensures And(x, 1 + 2 * m) == x % 2 + 2 * And(x / 2, m)
  {}

  lemma {:induction false} AndLowMask(x: nat, w: nat)
    ensures And(x, Mask(0, w)) == x % Pow2(w)
  {
    if w > 0 {
      AndLowMask(x / 2, w - 1);
      ModDouble(x, Pow2(w - 1));
      AndOdd(x, Mask(0, w - 1));
    } else {
      assert x % 1 == 0;
    }
  }

  lemma AndDouble(x: nat, m: nat)
    ensures And(x, 2 * m) == 2 * And(x / 2, m)
  {}

  /** Masking with a contiguous mask keeps exactly the field under it. */
  lemma {:induction false} AndMask(x: nat, p: nat, w: nat)
    ensures And(x, Mask(p, w)) == (x / Pow2(p) % Pow2(w)) * Pow2(p)
  {
    if p > 0 {
      AndMask(x / 2, p - 1, w);
      DivDiv(x, Pow2(p - 1));
      AndDouble(x, Mask(p - 1, w));
      DoubleProduct(x / 2 / Pow2(p - 1) % Pow2(w), Pow2(p - 1));
    } else {
      AndLowMask(x, w);
    }
  }

  /** A disjunction whose operands occupy different digits is a sum. */
  lemma {:induction false} OrDisjoint(low: nat, high: nat, p: nat)
    requires low < Pow2(p)
    ensures Or(low, high * Pow2(p)) == low + high * Pow2(p)
  {
    if p == 0 {
    } else {
      OrDisjoint(low / 2, high, p - 1);
      DoubleProduct(high, Pow2(p - 1));
    }
  }

  lemma {:induction false} OrCommutes(x: nat, y: nat)
    ensures Or(x, y) == Or(y, x)
  {
    if x == 0 || y == 0 {
    } else {
      OrCommutes(x / 2, y / 2);
    }
  }

  lemma Pow2Of32()
    ensures Pow2(32) == WORD
  {
    assert Pow2(10) == 0x400;
    assert Pow2(20) == 0x10_0000;
    assert Pow2(30) == 0x4000_0000;
  }

  lemma ModOfMod(x: nat, b: nat, c: nat)
    requires 0 < b && 0 < c
    ensures x % (b * c) % b == x % b
  {
    var q, r := x / (b * c), x % (b * c);
    assert x == b * (c * q) + r;
    QuotientIs(x, b, c * q + r / b, r % b);
  }

  lemma {:induction false} Pow2Adds(m: nat, n: nat)
    ensures Pow2(m) * Pow2(n) == Pow2(m + n)
  {
    if m == 0 {
    } else {
      Pow2Adds(m - 1, n);
    }
  }

  lemma MulLess(r: nat, b: nat, c: nat)
    requires r < b && 0 < c
    ensures 0 <= r * c < b * c
  {}

  lemma Distribute(b: nat, q: nat, r: nat, c: nat)
    ensures (b * q + r) * c == (b * c) * q + r * c
  {}

  lemma ScaledModulo(x: nat, b: nat, c: nat)
    requires 0 < b && 0 < c
    ensures x * c % (b * c) == x % b * c
  {
    var q, r := x / b, x % b;
    assert x * c == (b * c) * q + r * c by {
      assert x == b * q + r;
      Distribute(b, q, r, c);
    }
    MulLess(r, b, c);
    QuotientIs(x * c, b * c, q, r * c);
  }

  lemma ProductOver(f: nat, b: nat)
    requires 0 < b
    ensures f * b / b == f
  {
    QuotientIs(f * b, b, f, 0);
  }

  lemma SmallMod(x: nat, b: nat)
    requires x < b
    ensures x % b == x
  {}

  // ---- single bits ----

  /** Bit i of x. */
  predicate BitAt(x: nat, i: nat)
    decreases i
  {
    if i == 0 then x % 2 == 1 else BitAt(x / 2, i - 1)
  }

  function BitValue(x: nat, i: nat): nat {
    if BitAt(x, i) then 1 else 0
  }

  lemma {:induction false} BitOfShr(x: nat, k: nat, i: nat)
    ensures BitAt(Shr(x, k), i) <==> BitAt(x, k + i)
    decreases k
  {
    if k == 0 {
    } else {
      BitOfShr(x / 2, k - 1, i);
    }
  }

  lemma {:induction false} BitOfZero(i: nat)
    ensures !BitAt(0, i)
  {
    if i == 0 {
    } else {
      BitOfZero(i - 1);
    }
  }

  lemma {:induction false} BitAbove(x: nat, n: nat, i: nat)
    requires x < Pow2(n) && n <= i
    ensures !BitAt(x, i)
    decreases i
  {
    if n == 0 {
      BitOfZero(i);
    } else {
      assert x / 2 < Pow2(n - 1);
      BitAbove(x / 2, n - 1, i - 1);
    }
  }

  lemma {:induction false} BitOfModulo(x: nat, n: nat, i: nat)
    requires i < n
    ensures BitAt(x % Pow2(n), i) <==> BitAt(x, i)
    decreases n
  {
    ModDouble(x, Pow2(n - 1));
    if i == 0 {
    } else {
      assert x % Pow2(n) / 2 == x / 2 % Pow2(n - 1);
      BitOfModulo(x / 2, n - 1, i - 1);
    }
  }

  lemma {:induction false} SameBits(x: nat, y: nat, n: nat)
    requires x < Pow2(n) && y < Pow2(n)
    requires forall i: nat | i < n :: BitAt(x, i) <==> BitAt(y, i)
    ensures x == y
  {
    if n == 0 {
    } else {
      forall i: nat | i < n - 1 ensures BitAt(x / 2, i) <==> BitAt(y / 2, i) {
        assert BitAt(x, i + 1) <==> BitAt(y, i + 1);
      }
      SameBits(x / 2, y / 2, n - 1);
      assert BitAt(x, 0) <==> BitAt(y, 0);
    }
  }

  lemma OrDigits(x: nat, y: nat)
    requires x > 0 && y > 0
    ensures Or(x, y) % 2 == 1 <==> x % 2 == 1 || y % 2 == 1
    ensures Or(x, y) / 2 == Or(x / 2, y / 2)
  {
    QuotientIs(Or(x, y), 2, Or(x / 2, y / 2), if x % 2 == 1 || y % 2 == 1 then 1 else 0);
  }

  lemma {:induction false} BitOfOr(x: nat, y: nat, i: nat)
    ensures BitAt(Or(x, y), i) <==> BitAt(x, i) || BitAt(y, i)
    decreases i
  {
    if x == 0 || y == 0 {
      BitOfZero(i);
    } else if i == 0 {
      OrDigits(x, y);
    } else {
      OrDigits(x, y);
      BitOfOr(x / 2, y / 2, i - 1);
    }
  }

  lemma AndDigits(x: nat, y: nat)
    requires x > 0 && y > 0
    ensures And(x, y) % 2 == 1 <==> x % 2 == 1 && y % 2 == 1
    ensures And(x, y) / 2 == And(x / 2, y / 2)
  {
    QuotientIs(And(x, y), 2, And(x / 2, y / 2), if x % 2 == 1 && y % 2 == 1 then 1 else 0);
  }

  lemma {:induction false} BitOfAnd(x: nat, y: nat, i: nat)
    ensures BitAt(And(x, y), i) <==> BitAt(x, i) && BitAt(y, i)
    decreases i
  {
    if x == 0 || y == 0 {
      BitOfZero(i);
    } else if i == 0 {
      AndDigits(x, y);
    } else {
      AndDigits(x, y);
      BitOfAnd(x / 2, y / 2, i - 1);
    }
  }

  /** The complement of y among n bits. */
  function Complement(y: nat, n: nat): nat
    requires y < Pow2(n)
  {
    Pow2(n) - 1 - y
  }

  lemma {:induction false} BitOfComplement(y: nat, n: nat, i: nat)
    requires y < Pow2(n) && i < n
    ensures BitAt(Complement(y, n), i) <==> !BitAt(y, i)
    decreases n
  {
    assert Complement(y, n) / 2 == Complement(y / 2, n - 1);
    if i == 0 {
    } else {
      BitOfComplement(y / 2, n - 1, i - 1);
    }
  }

  lemma {:induction false} BitOfPow2(k: nat, i: nat)
    ensures BitAt(Pow2(k), i) <==> i == k
  {
    if i == 0 {
    } else if k == 0 {
      BitOfZero(i - 1);
    } else {
      BitOfPow2(k - 1, i - 1);
    }
  }

  lemma {:induction false} BelowPow2(x: nat, y: nat, n: nat)
    requires x < Pow2(n) && y < Pow2(n)
    ensures Or(x, y) < Pow2(n) && And(x, y) < Pow2(n)
  {
    if x == 0 || y == 0 {
    } else {
      BelowPow2(x / 2, y / 2, n - 1);
    }
  }

  lemma {:induction false} Pow2Grows(m: nat, n: nat)
    requires m < n
    ensures Pow2(m) < Pow2(n)
  {
    if m + 1 >= n {
    } else {
      Pow2Grows(m, n - 1);
    }
  }

  lemma {:induction false} ShlOne(k: nat)
    requires k < 32
    ensures Shl(1, k) == Pow2(k)
  {
    ShlMultiplies(1, k);
    Pow2Of32();
    Pow2Grows(k, 32);
    SmallMod(Pow2(k), WORD);
  }

  /** Masking with a single bit tests it. */
  lemma {:induction false} TestBit(x: nat, k: nat)
    ensures And(x, Pow2(k)) == if BitAt(x, k) then Pow2(k) else 0
  {
    if x == 0 {
      BitOfZero(k);
    } else if k == 0 {
      assert And(x / 2, 0) == 0;
    } else {
      TestBit(x / 2, k - 1);
    }
  }
}
