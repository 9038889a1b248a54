/** Interrupt priorities: how a priority word is split into a preemption priority and a
    subpriority (section B1.5.4 of the ARMv7-M Architecture Reference Manual). */
module Priority {
  import opened Word32

  /** The number of priority bits the device implements, `__NVIC_PRIO_BITS`. */
  type PrioBits = n: nat | 1 <= n <= 8 witness 1

  function PreemptBits(bits: PrioBits, group: Word): nat {
    var g := group % 8;
    if Wrap(7 - g) > bits then bits else Wrap(7 - g)
  }

  /** `g - 7` wraps below zero and the sum with `bits` wraps back. */
  function SubBits(bits: PrioBits, group: Word): nat {
    var g := group % 8;
    if Wrap(g + bits) < 7 then 0 else Wrap(Wrap(g - 7) + bits)
  }

  function LowMask(n: nat): Word
    requires n <= 8
  {
    Wrap(Shl(1, n) - 1)
  }

  /** A sum that wrapped below zero wraps back, and the others do not wrap. */
  lemma FieldsWrap(g: nat, bits: nat)
    requires g < 8 && bits <= 8
    ensures Wrap(7 - g) == 7 - g && Wrap(g + bits) == g + bits
    ensures 7 <= g + bits ==> Wrap(Wrap(g - 7) + bits) == g + bits - 7
  {
    if g < 7 {
      assert Wrap(g - 7) == g - 7 + WORD;
      if 7 <= g + bits {
        QuotientIs(g - 7 + WORD + bits, WORD, 1, g + bits - 7);
      }
    }
  }

  /** The preemption field has the bits above the binary point that the group sets, as far as they
      are implemented, and the subpriority field has the other implemented bits. */
  lemma Widths(bits: PrioBits, group: Word)
    ensures PreemptBits(bits, group) == if 7 - group % 8 < bits then 7 - group % 8 else bits
    ensures PreemptBits(bits, group) + SubBits(bits, group) == bits
    ensures PreemptBits(bits, group) <= 7
  {
    FieldsWrap(group % 8, bits);
  }

  lemma {:induction false} AndFits(x: nat, m: nat)
    ensures And(x, m) <= m && And(x, m) <= x
  {
    if x == 0 || m == 0 {
    } else {
      AndFits(x / 2, m / 2);
    }
  }

  function EncodePriority(bits: PrioBits, group: Word, preempt: Word, sub: Word): nat {
    Widths(bits, group);
    AndFits(preempt, LowMask(PreemptBits(bits, group)));
    Or(Shl(And(preempt, LowMask(PreemptBits(bits, group))), SubBits(bits, group)),
       And(sub, LowMask(SubBits(bits, group))))
  }

  function DecodePriority(bits: PrioBits, priority: nat, group: Word): (nat, nat) {
    Widths(bits, group);
    (And(Shr(priority, SubBits(bits, group)), LowMask(PreemptBits(bits, group))),
     And(priority, LowMask(SubBits(bits, group))))
  }

  // ---- two fields in one number: the arithmetic ----

  lemma MulAtMost(x: nat, y: nat, b: nat)
    requires x <= y
    ensures x * b <= y * b
  {}

  lemma PairFits(p: nat, s: nat, a: nat, b: nat)
    requires p < a && s < b
    ensures p * b + s < a * b
  {
    MulAtMost(p + 1, a, b);
  }

  lemma PairSplits(p: nat, s: nat, a: nat, b: nat)
    requires p < a && s < b
    ensures (p * b + s) / b == p && (p * b + s) % b == s
    ensures (p * b + s) / b % a == p
  {
    QuotientIs(p * b + s, b, p, s);
    QuotientIs(p, a, 0, p);
  }

  lemma PairOf(x: nat, a: nat, b: nat)
    requires 0 < b && x < a * b
    ensures 0 <= x / b < a && x / b * b + x % b == x
    ensures x / b % a == x / b
  {
    var q := x / b;
    assert x == b * q + x % b;
    if q >= a {
      MulAtMost(a, q, b);
    }
    QuotientIs(q, a, 0, q);
  }

  lemma PairOrders(p1: nat, s1: nat, p2: nat, s2: nat, b: nat)
    requires s1 < b && s2 < b
    ensures p1 * b + s1 < p2 * b + s2 <==> p1 < p2 || (p1 == p2 && s1 < s2)
  {
    if p1 < p2 { MulAtMost(p1 + 1, p2, b); }
    if p2 < p1 { MulAtMost(p2 + 1, p1, b); }
  }

  lemma Pow2Small(n: nat)
    requires n <= 8
    ensures Pow2(n) <= 256
  {
    Pow2Adds(n, 8 - n);
    assert Pow2(8) == 256;
    MulAtMost(1, Pow2(8 - n), Pow2(n));
  }

  // ---- the masks and shifts of the two functions ----

  lemma LowMaskIs(n: nat)
    requires n <= 8
    ensures LowMask(n) == Mask(0, n) == Pow2(n) - 1
  {
    Pow2Small(n);
    MaskIsProduct(0, n);
    ShlMultiplies(1, n);
    SmallMod(Pow2(n), WORD);
    SmallMod(Pow2(n) - 1, WORD);
  }

  lemma FieldOf(x: nat, n: nat)
    requires n <= 8
    ensures And(x, LowMask(n)) == x % Pow2(n)
  {
    LowMaskIs(n);
    AndLowMask(x, n);
  }

  lemma FieldBound(x: nat, n: nat)
    requires n <= 8
    ensures x % Pow2(n) < Pow2(n) <= 256
  {
    Pow2Small(n);
  }

  lemma SmallProduct(x: nat, p: nat)
    requires x < 256 && p <= 256
    ensures x * p < WORD
  {
    MulAtMost(p, 256, x);
  }

  lemma SmallShift(x: Word, s: nat)
    requires x < 256 && s <= 8
    ensures Shl(x, s) == x * Pow2(s)
  {
    ShlMultiplies(x, s);
    Pow2Small(s);
    SmallProduct(x, Pow2(s));
    SmallMod(x * Pow2(s), WORD);
  }

  lemma PackIs(x: Word, y: Word, p: nat, s: nat)
    requires p <= 8 && s <= 8
    ensures And(x, LowMask(p)) < WORD
    ensures Or(Shl(And(x, LowMask(p)), s), And(y, LowMask(s))) == x % Pow2(p) * Pow2(s) + y % Pow2(s)
  {
    FieldOf(x, p);
    FieldOf(y, s);
    FieldBound(x, p);
    FieldBound(y, s);
    SmallShift(x % Pow2(p), s);
    OrDisjoint(y % Pow2(s), x % Pow2(p), s);
    OrCommutes(y % Pow2(s), x % Pow2(p) * Pow2(s));
  }

  /** The encoding is the preemption field above the subpriority field. */
  lemma EncodeIs(bits: PrioBits, group: Word, preempt: Word, sub: Word)
    ensures var p, s := PreemptBits(bits, group), SubBits(bits, group);
            EncodePriority(bits, group, preempt, sub) == preempt % Pow2(p) * Pow2(s) + sub % Pow2(s)
  {
    Widths(bits, group);
    PackIs(preempt, sub, PreemptBits(bits, group), SubBits(bits, group));
  }

  lemma DecodeIs(bits: PrioBits, priority: nat, group: Word)
    ensures var p, s := PreemptBits(bits, group), SubBits(bits, group);
            DecodePriority(bits, priority, group) == (priority / Pow2(s) % Pow2(p), priority % Pow2(s))
  {
    Widths(bits, group);
    var p, s := PreemptBits(bits, group), SubBits(bits, group);
    ShrDivides(priority, s);
    FieldOf(Shr(priority, s), p);
    FieldOf(priority, s);
  }

  lemma FieldWeights(bits: PrioBits, group: Word)
    ensures Pow2(PreemptBits(bits, group)) * Pow2(SubBits(bits, group)) == Pow2(bits) <= 256
  {
    Widths(bits, group);
    Pow2Adds(PreemptBits(bits, group), SubBits(bits, group));
    Pow2Small(bits);
  }

  // ---- the laws of the encoding ----

  /** An encoded priority uses only implemented bits. */
  lemma EncodeBelow(bits: PrioBits, group: Word, preempt: Word, sub: Word)
    ensures EncodePriority(bits, group, preempt, sub) < Pow2(bits) <= 256
  {
    EncodeIs(bits, group, preempt, sub);
    FieldWeights(bits, group);
    var a, b := Pow2(PreemptBits(bits, group)), Pow2(SubBits(bits, group));
    PairFits(preempt % a, sub % b, a, b);
  }

  lemma DecodePair(bits: PrioBits, group: Word, e: Word, p: nat, s: nat)
    requires p < Pow2(PreemptBits(bits, group)) && s < Pow2(SubBits(bits, group))
    requires e == p * Pow2(SubBits(bits, group)) + s
    ensures DecodePriority(bits, e, group) == (p, s)
  {
    DecodeIs(bits, e, group);
    PairSplits(p, s, Pow2(PreemptBits(bits, group)), Pow2(SubBits(bits, group)));
  }

  /** Decoding an encoded pair recovers both values as far as their fields are wide. */
  lemma DecodeEncode(bits: PrioBits, group: Word, preempt: Word, sub: Word)
    ensures EncodePriority(bits, group, preempt, sub) < WORD
    ensures DecodePriority(bits, EncodePriority(bits, group, preempt, sub), group)
         == (preempt % Pow2(PreemptBits(bits, group)), sub % Pow2(SubBits(bits, group)))
  {
    EncodeBelow(bits, group, preempt, sub);
    EncodeIs(bits, group, preempt, sub);
    DecodePair(bits, group, EncodePriority(bits, group, preempt, sub),
               preempt % Pow2(PreemptBits(bits, group)), sub % Pow2(SubBits(bits, group)));
  }

  /** Every priority is the encoding of what it decodes to. */
  lemma EncodeDecode(bits: PrioBits, group: Word, priority: Word)
    requires priority < Pow2(bits)
    ensures var (p, s) := DecodePriority(bits, priority, group);
            p < WORD && s < WORD && EncodePriority(bits, group, p, s) == priority
  {
    var a, b := Pow2(PreemptBits(bits, group)), Pow2(SubBits(bits, group));
    FieldWeights(bits, group);
    DecodeIs(bits, priority, group);
    PairOf(priority, a, b);
    Widths(bits, group);
    FieldBound(priority, SubBits(bits, group));
    FieldBound(priority, PreemptBits(bits, group));
    SmallMod(priority % b, b);
    EncodeIs(bits, group, priority / b, priority % b);
  }

  /** Encodings compare as the pairs do, each value reduced to its field: first by preemption
      priority, then by subpriority. */
  lemma EncodeOrders(bits: PrioBits, group: Word, p1: Word, s1: Word, p2: Word, s2: Word)
    ensures var a, b := Pow2(PreemptBits(bits, group)), Pow2(SubBits(bits, group));
            EncodePriority(bits, group, p1, s1) < EncodePriority(bits, group, p2, s2)
            <==> p1 % a < p2 % a || (p1 % a == p2 % a && s1 % b < s2 % b)
  {
    var a, b := Pow2(PreemptBits(bits, group)), Pow2(SubBits(bits, group));
    EncodeIs(bits, group, p1, s1);
    EncodeIs(bits, group, p2, s2);
    PairOrders(p1 % a, s1 % b, p2 % a, s2 % b, b);
  }

  // ---- the priority registers ----

  /** The byte __NVIC_SetPriority stores: the priority in the implemented, topmost bits. */
  function PriorityByte(bits: PrioBits, priority: Word): nat {
    And(Shl(priority, 8 - bits), 0xFF)
  }

  function BytePriority(bits: PrioBits, byte: nat): nat {
    Shr(byte, 8 - bits)
  }

  lemma ByteField(x: nat)
    ensures And(x, 0xFF) == x % 256
  {
    assert Pow2(8) == 256;
    MaskIsProduct(0, 8);
    AndLowMask(x, 8);
  }

  lemma TopBits(x: nat, a: nat, c: nat)
    requires 0 < a && 0 < c && a * c == 256
    ensures x * c % WORD % 256 == x % a * c < 256
  {
    ModOfMod(x * c, 256, 0x100_0000);
    ScaledModulo(x, a, c);
    MulLess(x % a, a, c);
  }

  lemma PriorityByteIs(bits: PrioBits, priority: Word)
    ensures PriorityByte(bits, priority) == priority % Pow2(bits) * Pow2(8 - bits) < 256
  {
    ByteField(Shl(priority, 8 - bits));
    ShlMultiplies(priority, 8 - bits);
    Pow2Adds(bits, 8 - bits);
    assert Pow2(8) == 256;
    TopBits(priority, Pow2(bits), Pow2(8 - bits));
  }

  /** What is stored is the priority reduced to the implemented bits, in the topmost bits of its
      byte, and it reads back so. */
  lemma StoredPriority(bits: PrioBits, priority: Word)
    ensures PriorityByte(bits, priority) == priority % Pow2(bits) * Pow2(8 - bits) < 256
    ensures BytePriority(bits, PriorityByte(bits, priority)) == priority % Pow2(bits)
  {
    PriorityByteIs(bits, priority);
    ShrDivides(PriorityByte(bits, priority), 8 - bits);
    ProductOver(priority % Pow2(bits), Pow2(8 - bits));
  }

  // ---- what the hardware makes of a stored byte ----

  // The group decides which bits of a byte decide preemption: those above bit group % 8.

  lemma Regroup(c: nat, s: nat, q: nat, r: nat)
    ensures (s * q + r) * c == c * s * q + r * c
  {}

  /** If the point stands among the implemented bits, the group priority is the first component. */
  lemma PointInside(v: nat, c: nat, s: nat, m: nat)
    requires m == c * s && c > 0 && s > 0
    ensures v * c / m == v / s
  {
    var q, r := v / s, v % s;
    assert v == s * q + r;
    MulLess(r, s, c);
    Regroup(c, s, q, r);
    QuotientIs(v * c, m, q, r * c);
  }

  /** Otherwise the group priority is the whole priority, further up. */
  lemma PointBelow(v: nat, c: nat, d: nat, m: nat)
    requires c == m * d && m > 0
    ensures v * c / m == v * d
  {
    assert v * c == m * (v * d);
    QuotientIs(v * c, m, v * d, 0);
  }

  lemma ScaleOrders(x: nat, y: nat, d: nat)
    requires d > 0
    ensures x * d < y * d <==> x < y
  {
    if x < y { MulAtMost(x + 1, y, d); }
    if y <= x { MulAtMost(y, x, d); }
  }

  /** A priority below 2 to the implemented bits and its first component. */
  lemma FirstComponent(bits: PrioBits, group: Word, v: nat)
    requires v < Pow2(bits)
    ensures DecodePriority(bits, v, group).0 == v / Pow2(SubBits(bits, group))
  {
    DecodeIs(bits, v, group);
    FieldWeights(bits, group);
    PairOf(v, Pow2(PreemptBits(bits, group)), Pow2(SubBits(bits, group)));
  }

  /** How far up the group priority stands, when some bits above the point are not implemented. */
  function Gap(bits: PrioBits, group: Word): nat {
    if group % 8 + bits < 7 then 7 - bits - group % 8 else 0
  }

  lemma Weights(bits: PrioBits, group: Word)
    ensures var a, b, c, m := Pow2(Gap(bits, group)), Pow2(SubBits(bits, group)), Pow2(8 - bits), Pow2(group % 8 + 1);
            if group % 8 + bits < 7 then b == 1 && c == m * a else a == 1 && m == c * b
  {
    var g := group % 8;
    Widths(bits, group);
    if g + bits < 7 {
      Pow2Adds(g + 1, Gap(bits, group));
    } else {
      Pow2Adds(8 - bits, SubBits(bits, group));
    }
  }

  lemma GroupOfScaled(bits: PrioBits, group: Word, v: nat)
    ensures v * Pow2(8 - bits) / Pow2(group % 8 + 1) == v / Pow2(SubBits(bits, group)) * Pow2(Gap(bits, group))
  {
    Weights(bits, group);
    if group % 8 + bits < 7 {
      PointBelow(v, Pow2(8 - bits), Pow2(Gap(bits, group)), Pow2(group % 8 + 1));
    } else {
      PointInside(v, Pow2(8 - bits), Pow2(SubBits(bits, group)), Pow2(group % 8 + 1));
    }
  }

  /** The group priority of a stored priority is its first component, moved up by the gap. */
  lemma GroupPriorityIs(bits: PrioBits, group: Word, priority: Word)
    ensures var byte := PriorityByte(bits, priority);
            byte / Pow2(group % 8 + 1)
            == DecodePriority(bits, BytePriority(bits, byte), group).0 * Pow2(Gap(bits, group))
  {
    var v := priority % Pow2(bits);
    StoredPriority(bits, priority);
    FirstComponent(bits, group, v);
    GroupOfScaled(bits, group, v);
  }

  /** One stored priority preempts another for the hardware exactly when its first component is the
      lower one. */
  lemma PreemptsIff(bits: PrioBits, group: Word, x: Word, y: Word)
    ensures var b, c := PriorityByte(bits, x), PriorityByte(bits, y);
            b / Pow2(group % 8 + 1) < c / Pow2(group % 8 + 1)
            <==> DecodePriority(bits, BytePriority(bits, b), group).0
                 < DecodePriority(bits, BytePriority(bits, c), group).0
  {
    GroupPriorityIs(bits, group, x);
    GroupPriorityIs(bits, group, y);
    ScaleOrders(DecodePriority(bits, BytePriority(bits, PriorityByte(bits, x)), group).0,
                DecodePriority(bits, BytePriority(bits, PriorityByte(bits, y)), group).0,
                Pow2(Gap(bits, group)));
  }

  /** Encoding a pair, storing it, reading it back and decoding it gives the pair as far as the
      two fields of the group are wide, for every group and every number of implemented bits. */
  lemma StoredPairDecodes(bits: PrioBits, group: Word, preempt: Word, sub: Word)
    ensures EncodePriority(bits, group, preempt, sub) < WORD
    ensures var byte := PriorityByte(bits, EncodePriority(bits, group, preempt, sub));
            DecodePriority(bits, BytePriority(bits, byte), group)
            == (preempt % Pow2(PreemptBits(bits, group)), sub % Pow2(SubBits(bits, group)))
  {
    EncodeBelow(bits, group, preempt, sub);
    DecodeEncode(bits, group, preempt, sub);
    StoredPriority(bits, EncodePriority(bits, group, preempt, sub));
    SmallMod(EncodePriority(bits, group, preempt, sub), Pow2(bits));
  }

  /** So of two encoded pairs that are stored, the one with the lower preemption priority, reduced
      to min(7 - group, bits) bits, preempts. */
  lemma PairPreemptsIff(bits: PrioBits, group: Word, p1: Word, s1: Word, p2: Word, s2: Word)
    ensures EncodePriority(bits, group, p1, s1) < WORD && EncodePriority(bits, group, p2, s2) < WORD
    ensures var b, c := PriorityByte(bits, EncodePriority(bits, group, p1, s1)),
                        PriorityByte(bits, EncodePriority(bits, group, p2, s2));
            var w: nat := if 7 - group % 8 < bits then 7 - group % 8 else bits;
            b / Pow2(group % 8 + 1) < c / Pow2(group % 8 + 1) <==> p1 % Pow2(w) < p2 % Pow2(w)
  {
    StoredPairDecodes(bits, group, p1, s1);
    StoredPairDecodes(bits, group, p2, s2);
    PreemptsIff(bits, group, EncodePriority(bits, group, p1, s1), EncodePriority(bits, group, p2, s2));
    Widths(bits, group);
  }

}
