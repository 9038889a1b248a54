/** The words the cache maintenance registers receive: how a set and a way are packed into one, and
    how CCSIDR gives the geometry. */
module Registers {
  import opened Word32
  import opened CacheModel

  datatype Target = DataLine(op: Op) | InstructionLine
  /** One store: DCISW, DCCSW or DCCISW, or DCIMVAC, DCCMVAC, DCCIMVAC or ICIMVAU, or CCR, of which
      only the bit that turns the data cache on matters here. */
  datatype RegWrite = SetWay(op: Op, word: Word) | ByAddress(target: Target, addr: Word) | Ccr(dc: bool)

  // ---- set/way words ----

  const SET_POS: nat := 5
  const SET_MSK: Word := 0x3FE0
  const WAY_POS: nat := 30
  const WAY_MSK: Word := 0xC000_0000
  const NUMSETS_POS: nat := 13
  const NUMSETS_MSK: Word := 0x0FFF_E000
  const ASSOCIATIVITY_POS: nat := 3
  const ASSOCIATIVITY_MSK: Word := 0x1FF8

  /** The word that names the set modulo 512 in bits 13..5 and the way modulo 4 in bits 31..30. */
  function SetWayWord(sets: Word, ways: Word): Word {
    sets % 512 * 32 + ways % 4 * 0x4000_0000
  }

  /** The slot the hardware takes a set/way word to name: a 9-bit set and a 2-bit way. */
  function SlotOf(word: Word): Slot {
    Slot(word / 32 % 512, word / 0x4000_0000)
  }

  /** Bits 27..13 of CCSIDR hold the number of sets minus one, bits 12..3 the number of ways
      minus one. */
  function CcsidrSets(x: Word): nat {
    x / 0x2000 % 0x8000
  }

  function CcsidrWays(x: Word): nat {
    x / 8 % 0x400
  }

  lemma PowersOfTwo()
    ensures Pow2(2) == 4 && Pow2(3) == 8 && Pow2(5) == 32 && Pow2(9) == 512 && Pow2(10) == 0x400
    ensures Pow2(13) == 0x2000 && Pow2(15) == 0x8000 && Pow2(30) == 0x4000_0000
  {
    assert Pow2(5) == 32;
    assert Pow2(10) == 0x400;
    assert Pow2(15) == 0x8000;
    assert Pow2(20) == 0x10_0000;
    assert Pow2(25) == 0x200_0000;
  }

  lemma Masks()
    ensures SET_MSK == Mask(SET_POS, 9) && WAY_MSK == Mask(WAY_POS, 2)
    ensures NUMSETS_MSK == Mask(NUMSETS_POS, 15) && ASSOCIATIVITY_MSK == Mask(ASSOCIATIVITY_POS, 10)
  {
    PowersOfTwo();
    MaskIsProduct(SET_POS, 9);
    MaskIsProduct(WAY_POS, 2);
    MaskIsProduct(NUMSETS_POS, 15);
    MaskIsProduct(ASSOCIATIVITY_POS, 10);
  }

  lemma FieldUnderMask(x: nat, p: nat, w: nat, m: nat, b: nat, c: nat)
    requires m == Mask(p, w) && b == Pow2(p) && c == Pow2(w)
    ensures And(x, m) == x / b % c * b
    ensures Shr(And(x, m), p) == x / b % c
  {
    AndMask(x, p, w);
    ShrDivides(And(x, m), p);
    QuotientIs(x / b % c * b, b, x / b % c, 0);
  }

  /** Bit i of a field is bit p + i of the word. */
  lemma FieldBits(x: nat, p: nat, w: nat, n: nat)
    requires n == x / Pow2(p) % Pow2(w)
    ensures n < Pow2(w) && forall i: nat | i < w :: BitAt(n, i) <==> BitAt(x, p + i)
  {
    ShrDivides(x, p);
    forall i: nat | i < w ensures BitAt(n, i) <==> BitAt(x, p + i) {
      BitOfModulo(x / Pow2(p), w, i);
      BitOfShr(x, p, i);
    }
  }

  method MaskSets(x: Word) returns (n: nat)
    ensures n == CcsidrSets(x) < 0x8000
    ensures forall i: nat | i < 15 :: BitAt(n, i) <==> BitAt(x, 13 + i)
  {
    FieldBits(x, 13, 15, CcsidrSets(x)) by { PowersOfTwo(); }
    Masks();
    PowersOfTwo();
    FieldUnderMask(x, NUMSETS_POS, 15, NUMSETS_MSK, 0x2000, 0x8000);
    n := Shr(And(x, NUMSETS_MSK), NUMSETS_POS);
  }

  method MaskWays(x: Word) returns (n: nat)
    ensures n == CcsidrWays(x) < 0x400
    ensures forall i: nat | i < 10 :: BitAt(n, i) <==> BitAt(x, 3 + i)
  {
    FieldBits(x, 3, 10, CcsidrWays(x)) by { PowersOfTwo(); }
    Masks();
    PowersOfTwo();
    FieldUnderMask(x, ASSOCIATIVITY_POS, 10, ASSOCIATIVITY_MSK, 8, 0x400);
    n := Shr(And(x, ASSOCIATIVITY_MSK), ASSOCIATIVITY_POS);
  }

  lemma ShiftedField(x: Word)
    ensures x * 32 % WORD / 32 % 512 == x % 512
    ensures x * 0x4000_0000 % WORD / 0x4000_0000 % 4 == x % 4
  {
    var r := x % 0x800_0000;
    QuotientIs(x * 32, WORD, x / 0x800_0000, r * 32);
    QuotientIs(r * 32, 32, r, 0);
    QuotientIs(x, 512, 0x4_0000 * (x / 0x800_0000) + r / 512, r % 512);
    QuotientIs(x * 0x4000_0000, WORD, x / 4, x % 4 * 0x4000_0000);
  }

  lemma SetField(sets: Word)
    ensures And(Shl(sets, SET_POS), SET_MSK) == sets % 512 * 32
  {
    Masks();
    PowersOfTwo();
    ShlMultiplies(sets, SET_POS);
    FieldUnderMask(Shl(sets, SET_POS), SET_POS, 9, SET_MSK, 32, 512);
    ShiftedField(sets);
  }

  lemma WayField(ways: Word)
    ensures And(Shl(ways, WAY_POS), WAY_MSK) == ways % 4 * 0x4000_0000
  {
    Masks();
    PowersOfTwo();
    ShlMultiplies(ways, WAY_POS);
    FieldUnderMask(Shl(ways, WAY_POS), WAY_POS, 2, WAY_MSK, 0x4000_0000, 4);
    ShiftedField(ways);
  }

  lemma FieldsOfSum(s: nat, w: nat)
    requires s < 512 && w < 4
    ensures (s * 32 + w * 0x4000_0000) / 32 % 512 == s
    ensures (s * 32 + w * 0x4000_0000) / 0x4000_0000 == w
  {
    QuotientIs(s * 32 + w * 0x4000_0000, 32, s + w * 0x200_0000, 0);
    QuotientIs(s + w * 0x200_0000, 512, w * 0x1_0000, s);
  }

  /** A set/way word names the set and the way it was made from, as far as its fields reach. */
  lemma SetWayWordDecodes(sets: Word, ways: Word)
    ensures SlotOf(SetWayWord(sets, ways)) == Slot(sets % 512, ways % 4)
  {
    FieldsOfSum(sets % 512, ways % 4);
  }

  lemma ReducedFieldBits(x: nat, p: nat, w: nat, n: nat)
    requires n % Pow2(w) == x / Pow2(p) % Pow2(w)
    ensures forall i: nat | i < w :: BitAt(x, p + i) <==> BitAt(n, i)
  {
    FieldBits(x, p, w, n % Pow2(w));
    forall i: nat | i < w ensures BitAt(x, p + i) <==> BitAt(n, i) {
      assert BitAt(n % Pow2(w), i) <==> BitAt(x, p + i);
      BitOfModulo(n, w, i);
    }
  }

  /** Bits 13..5 are the low bits of the set, bits 31..30 those of the way, and the others are 0. */
  lemma SetWayWordBits(sets: Word, ways: Word)
    ensures var word := SetWayWord(sets, ways);
            && (forall i: nat | i < 9 :: BitAt(word, 5 + i) <==> BitAt(sets, i))
            && (forall i: nat | i < 2 :: BitAt(word, 30 + i) <==> BitAt(ways, i))
            && word % 32 == 0 && word / 0x4000 % 0x1_0000 == 0
  {
    var s, w, word := sets % 512, ways % 4, SetWayWord(sets, ways);
    FieldsOfSum(s, w);
    PowersOfTwo();
    ReducedFieldBits(word, 5, 9, sets);
    ReducedFieldBits(word, 30, 2, ways);
    QuotientIs(word, 32, s + w * 0x200_0000, 0);
    QuotientIs(word, 0x4000, w * 0x1_0000, s * 32);
  }

  /** The shifts and masks of the nest build that word, for any value of the counters. */
  method PackSetWay(sets: Word, ways: Word) returns (word: Word)
    ensures word == SetWayWord(sets, ways)
    ensures forall i: nat | i < 9 :: BitAt(word, 5 + i) <==> BitAt(sets, i)
    ensures forall i: nat | i < 2 :: BitAt(word, 30 + i) <==> BitAt(ways, i)
    ensures word % 32 == 0 && word / 0x4000 % 0x1_0000 == 0
  {
    SetWayWordBits(sets, ways);
    SetField(sets);
    WayField(ways);
    PowersOfTwo();
    OrDisjoint(sets % 512 * 32, ways % 4, WAY_POS);
    word := Or(And(Shl(sets, SET_POS), SET_MSK), And(Shl(ways, WAY_POS), WAY_MSK));
  }
}
