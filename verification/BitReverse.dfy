/** The portable `__RBIT` loop, `__CLZ` and `POSITION_VAL`. */
module BitReverse {
  import opened Word32

  /** The low n bits of v in reverse order. */
  function Rev(v: nat, n: nat): nat {
    if n == 0 then 0 else 2 * Rev(v, n - 1) + BitValue(v, n - 1)
  }

  lemma {:induction false} RevBits(v: nat, n: nat)
    ensures Rev(v, n) < Pow2(n)
    ensures forall i: nat | i < n :: BitAt(Rev(v, n), i) <==> BitAt(v, n - 1 - i)
  {
    if n == 0 {
    } else {
      RevBits(v, n - 1);
      forall i: nat | i < n ensures BitAt(Rev(v, n), i) <==> BitAt(v, n - 1 - i) {
        assert Rev(v, n) / 2 == Rev(v, n - 1);
        if i > 0 {
          assert BitAt(Rev(v, n), i) <==> BitAt(Rev(v, n - 1), i - 1);
        }
      }
    }
  }

  /** Reversing a word twice gives it back. */
  lemma RevTwice(v: Word)
    ensures Rev(Rev(v, 32), 32) == v
  {
    var r := Rev(v, 32);
    RevBits(v, 32);
    RevBits(r, 32);
    assert Pow2(32) == WORD by { Pow2Of32(); }
    forall i: nat | i < 32 ensures BitAt(Rev(r, 32), i) <==> BitAt(v, i) {
      assert BitAt(r, 31 - i) <==> BitAt(v, 31 - (31 - i));
    }
    SameBits(Rev(r, 32), v, 32);
  }

  /** Above the highest set bit, reversing more bits only appends zeros. */
  lemma {:induction false} RevOfZeros(v: nat, n: nat, m: nat)
    requires n <= m && Shr(v, n) == 0
    ensures Rev(v, m) == Rev(v, n) * Pow2(m - n)
    decreases m
  {
    if n >= m {
    } else {
      RevOfZeros(v, n, m - 1);
      BitOfShr(v, n, m - 1 - n);
      BitOfZero(m - 1 - n);
      DoubleProduct(Rev(v, n), Pow2(m - 1 - n));
    }
  }

  lemma {:induction false} ShrStep(v: nat, k: nat)
    ensures Shr(v, k) / 2 == Shr(v, k + 1)
    ensures Shr(v, k) % 2 == BitValue(v, k)
    decreases k
  {
    if k == 0 {
    } else {
      ShrStep(v / 2, k - 1);
    }
  }

  lemma OrLowBit(y: nat, b: nat)
    requires y % 2 == 0 && b < 2
    ensures Or(y, b) == y + b
  {}

  lemma HalfWrapped(result: Word, n: nat)
    requires n <= 31
    ensures Wrap(2 * result) / 2 % Pow2(n) == result % Pow2(n)
  {
    assert Wrap(2 * result) / 2 == result % 0x8000_0000;
    var c := Pow2(31 - n);
    assert Pow2(n) * c == 0x8000_0000 by {
      Pow2Of32();
      Pow2Adds(n, 31 - n);
    }
    ModOfMod(result, Pow2(n), c);
  }

  lemma RoundModulo(result: Word, b: nat, k: nat)
    requires b < 2 && k < 31
    ensures Or(Wrap(2 * result), b) < WORD
    ensures Or(Wrap(2 * result), b) % Pow2(k + 2) == 2 * (result % Pow2(k + 1)) + b
  {
    var y := Wrap(2 * result);
    assert y % 2 == 0;
    assert Or(y, b) == y + b by { OrLowBit(y, b); }
    ModDouble(y + b, Pow2(k + 1));
    assert (y + b) / 2 == y / 2 && (y + b) % 2 == b;
    assert y / 2 % Pow2(k + 1) == result % Pow2(k + 1) by { HalfWrapped(result, k + 1); }
  }

  /** The final shift drops the bits above those already reversed. */
  lemma ShiftIntoPlace(result: Word, n: nat)
    requires n <= 32
    ensures Shl(result, 32 - n) == result % Pow2(n) * Pow2(32 - n)
  {
    ShlMultiplies(result, 32 - n);
    Pow2Adds(n, 32 - n);
    Pow2Of32();
    ScaledModulo(result, Pow2(n), Pow2(32 - n));
  }

  lemma ShrOnce(x: nat)
    ensures Shr(x, 1) == x / 2
  {}

  lemma ShlOnce(x: Word)
    ensures Shl(x, 1) == Wrap(2 * x)
  {}

  lemma LowBit(x: nat)
    ensures And(x, 1) == x % 2
  {}

  /** One round: the next bit of the input joins the reversed ones. */
  lemma Round(v: Word, k: nat, result: Word)
    requires k < 31 && result % Pow2(k + 1) == Rev(v, k + 1)
    ensures Or(Shl(result, 1), And(Shr(v, k + 1), 1)) < WORD
    ensures Or(Shl(result, 1), And(Shr(v, k + 1), 1)) % Pow2(k + 2) == Rev(v, k + 2)
  {
    var bit := BitValue(v, k + 1);
    assert And(Shr(v, k + 1), 1) == bit by {
      LowBit(Shr(v, k + 1));
      ShrStep(v, k + 1);
    }
    ShlOnce(result);
    RoundModulo(result, bit, k);
  }

  lemma NothingBeyondBit31(v: Word)
    ensures Shr(v, 32) == 0
  {
    ShrDivides(v, 32);
    Pow2Of32();
    QuotientIs(v, WORD, 0, v);
  }

  lemma RoundsLeft(v: Word, k: nat)
    requires k <= 31 && Shr(v, k + 1) != 0
    ensures k < 31 && Shr(Shr(v, k + 1), 1) == Shr(v, k + 2) < Shr(v, k + 1)
  {
    if k == 31 { NothingBeyondBit31(v); }
    ShrStep(v, k + 1);
    ShrOnce(Shr(v, k + 1));
  }

  lemma FirstBit(v: Word)
    ensures v % Pow2(1) == Rev(v, 1) && Shr(v, 1) == v / 2
  {}

  /** When no higher bit is left, the final shift completes the reversal. */
  lemma LastShift(v: Word, k: nat, result: Word)
    requires k <= 31 && Shr(v, k + 1) == 0 && result % Pow2(k + 1) == Rev(v, k + 1)
    ensures Shl(result, 31 - k) == Rev(v, 32)
  {
    RevOfZeros(v, k + 1, 32);
    ShiftIntoPlace(result, k + 1);
  }

  /** The portable `__RBIT` loop. It stops as soon as no higher bit of the input is set, and the
      final shift makes up for the rounds it did not take. */
  method RBIT(v: Word) returns (result: Word)
    ensures result == Rev(v, 32)
    ensures forall i: nat | i < 32 :: BitAt(result, i) <==> BitAt(v, 31 - i)
  {
    var s := 4 * 8 - 1;
    var value := v;
    result := v;
    ghost var k := 0;
    value := Shr(value, 1);
    FirstBit(v);
    while value != 0
      invariant k <= 31 && s == 31 - k
      invariant value == Shr(v, k + 1)
      invariant result % Pow2(k + 1) == Rev(v, k + 1)
      decreases value
    {
      RoundsLeft(v, k);
      Round(v, k, result);
      result := Shl(result, 1);
      result := Or(result, And(value, 1));
      s := s - 1;
      value := Shr(value, 1);
      k := k + 1;
    }
    LastShift(v, k, result);
    result := Shl(result, s);
    RevBits(v, 32);
  }

  // ---- leading zeros, lowest set bit ----

  /** The number of binary digits of v. */
  function Digits(v: nat): nat {
    if v == 0 then 0 else 1 + Digits(v / 2)
  }

  /** `__builtin_clz` of a nonzero word, and 32 for zero. */
  function CLZ(v: Word): int {
    if v == 0 then 32 else 32 - Digits(v)
  }

  lemma {:induction false} DigitsBound(v: nat, n: nat)
    requires v < Pow2(n)
    ensures Digits(v) <= n
    decreases n
  {
    if v == 0 {
    } else {
      DigitsBound(v / 2, n - 1);
    }
  }

  /** The highest of the digits is a one, and there is nothing above it. */
  lemma {:induction false} TopDigit(v: nat)
    requires v > 0
    ensures BitAt(v, Digits(v) - 1) && forall i: nat | i >= Digits(v) :: !BitAt(v, i)
  {
    if v == 1 {
      assert Digits(0) == 0;
      forall i: nat | i >= 1 ensures !BitAt(1, i) { BitOfZero(i - 1); }
    } else {
      TopDigit(v / 2);
      forall i: nat | i >= Digits(v) ensures !BitAt(v, i) {
        assert !BitAt(v / 2, i - 1);
      }
    }
  }

  /** CLZ counts the zeros above the highest set bit. */
  lemma LeadingZeros(v: Word)
    ensures v == 0 ==> CLZ(v) == 32
    ensures v != 0 ==> && 0 <= CLZ(v) < 32 && BitAt(v, 31 - CLZ(v))
                       && forall i: nat | 31 - CLZ(v) < i < 32 :: !BitAt(v, i)
  {
    if v != 0 {
      Pow2Of32();
      DigitsBound(v, 32);
      TopDigit(v);
    }
  }

  lemma {:induction false} RevOfZero(n: nat)
    ensures Rev(0, n) == 0
  {
    if n == 0 {
    } else {
      RevOfZero(n - 1);
      BitOfZero(n - 1);
    }
  }

  /** POSITION_VAL: the index of the lowest set bit, 32 if there is none. */
  method PositionVal(v: Word) returns (n: nat)
    ensures v == 0 <==> n == 32
    ensures v != 0 ==> n < 32 && BitAt(v, n) && forall i: nat | i < n :: !BitAt(v, i)
  {
    var r := RBIT(v);
    LeadingZeros(r);
    RevTwice(v);
    if r == 0 {
      RevOfZero(32);
    } else {
      var top := 31 - CLZ(r);
      assert BitAt(r, top) <==> BitAt(v, 31 - top);
      forall i: nat | i < 31 - top ensures !BitAt(v, i) {
        assert BitAt(r, 31 - i) <==> BitAt(v, 31 - (31 - i));
      }
      if v == 0 { BitOfZero(31 - top); }
    }
    n := CLZ(r);
  }

  // ---- rotation ----

  lemma BitOfDoubled(x: Word, k: nat, i: nat)
    requires 0 < k <= i < 32
    ensures BitAt(Wrap(2 * x), i - (k - 1)) <==> BitAt(x, i - k)
  {
    Pow2Of32();
    BitOfModulo(2 * x, 32, i - k + 1);
    assert 2 * x / 2 == x;
  }

  lemma {:induction false} BitOfShl(x: Word, k: nat, i: nat)
    requires i < 32
    ensures BitAt(Shl(x, k), i) <==> k <= i && BitAt(x, i - k)
    decreases k
  {
    if k == 0 {
    } else {
      var y := Wrap(2 * x);
      BitOfShl(y, k - 1, i);
      if k <= i {
        BitOfDoubled(x, k, i);
      } else if k - 1 == i {
        assert !BitAt(y, 0);
      }
    }
  }

  lemma ShrFits(x: Word, k: nat)
    ensures Shr(x, k) <= x
    decreases k
  {
    if k == 0 {
    } else {
      ShrFits(x / 2, k - 1);
    }
  }

  /** The bit of the operand that a rotation by k puts at position i. */
  function Turned(i: nat, k: nat): (j: nat)
    requires i < 32 && k < 32
    ensures j < 32
  {
    if i + k < 32 then i + k else i + k - 32
  }

  lemma Halves(x: Word, k: nat)
    requires 0 < k < 32
    ensures Or(Shr(x, k), Shl(x, 32 - k)) < WORD
  {
    Pow2Of32();
    ShrFits(x, k);
    BelowPow2(Shr(x, k), Shl(x, 32 - k), 32);
  }

  /** `__ROR` */
  function ROR(op1: Word, op2: Word): Word {
    var k := op2 % 32;
    if k == 0 then op1
    else
      Halves(op1, k);
      Or(Shr(op1, k), Shl(op1, 32 - k))
  }

  lemma RorBits(op1: Word, op2: Word, i: nat)
    requires i < 32
    ensures BitAt(ROR(op1, op2), i) <==> BitAt(op1, Turned(i, op2 % 32))
  {
    var k := op2 % 32;
    if k > 0 {
      BitOfOr(Shr(op1, k), Shl(op1, 32 - k), i);
      BitOfShr(op1, k, i);
      BitOfShl(op1, 32 - k, i);
      if k + i >= 32 {
        Pow2Of32();
        BitAbove(op1, 32, k + i);
      }
    }
  }

  lemma TurnedTwice(i: nat, a: Word, b: Word)
    requires i < 32
    ensures Turned(Turned(i, b % 32), a % 32) == Turned(i, Wrap(a + b) % 32)
  {
    ModOfMod(a + b, 32, 0x800_0000);
    var p, q := a % 32, b % 32;
    QuotientIs(a + b, 32, a / 32 + b / 32 + (p + q) / 32, (p + q) % 32);
    assert Wrap(a + b) % 32 == if p + q < 32 then p + q else p + q - 32;
  }

  /** Rotations add up, also when the sum of the two amounts wraps. */
  lemma RotationsAdd(x: Word, a: Word, b: Word)
    ensures ROR(ROR(x, a), b) == ROR(x, Wrap(a + b))
  {
    var y, z := ROR(ROR(x, a), b), ROR(x, Wrap(a + b));
    forall i: nat | i < 32 ensures BitAt(y, i) <==> BitAt(z, i) {
      RorBits(ROR(x, a), b, i);
      RorBits(x, a, Turned(i, b % 32));
      RorBits(x, Wrap(a + b), i);
      TurnedTwice(i, a, b);
    }
    Pow2Of32();
    SameBits(y, z, 32);
  }
}
