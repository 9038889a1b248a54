/** The interrupt controller: packed enable and pending words with write-1-to-set and
    write-1-to-clear registers, and the priority bytes (section B3.4 of the ARMv7-M Architecture
    Reference Manual). */
module Nvic {
  import opened Word32
  import opened Priority

  /** Interrupt numbers: device interrupts from 0, system exceptions below. */
  type IRQn = i: int | -16 <= i < 240
  /** Eight words of 32 interrupts each. */
  type Bank = b: seq<Word> | |b| == 8 witness [0, 0, 0, 0, 0, 0, 0, 0]

  /** A word after a store to its write-1-to-set register. */
  function Raised(w: Word, ones: Word): Word {
    Pow2Of32();
    BelowPow2(w, ones, 32);
    Or(w, ones)
  }

  /** A word after a store to its write-1-to-clear register. */
  function Cleared(w: Word, ones: Word): Word {
    Pow2Of32();
    BelowPow2(w, Complement(ones, 32), 32);
    And(w, Complement(ones, 32))
  }

  /** The interrupts whose bit is set. */
  ghost function Members(bank: Bank): set<nat> {
    set i: nat | i < 256 && BitAt(bank[i / 32], i % 32)
  }

  function Pow2Word(k: nat): Word
    requires k < 32
  {
    Pow2Of32();
    Pow2Grows(k, 32);
    Pow2(k)
  }

  function RaiseBank(bank: Bank, irq: IRQn): Bank {
    if irq < 0 then bank else bank[irq / 32 := Raised(bank[irq / 32], Pow2Word(irq % 32))]
  }

  function ClearBank(bank: Bank, irq: IRQn): Bank {
    if irq < 0 then bank else bank[irq / 32 := Cleared(bank[irq / 32], Pow2Word(irq % 32))]
  }

  lemma RaisedBits(w: Word, k: nat, i: nat)
    requires k < 32 && i < 32
    ensures BitAt(Raised(w, Pow2Word(k)), i) <==> i == k || BitAt(w, i)
  {
    BitOfOr(w, Pow2(k), i);
    BitOfPow2(k, i);
  }

  lemma ClearedBits(w: Word, k: nat, i: nat)
    requires k < 32 && i < 32
    ensures BitAt(Cleared(w, Pow2Word(k)), i) <==> i != k && BitAt(w, i)
  {
    Pow2Of32();
    BitOfAnd(w, Complement(Pow2Word(k), 32), i);
    BitOfComplement(Pow2Word(k), 32, i);
    BitOfPow2(k, i);
  }

  /** Raising adds exactly the interrupt, and nothing for a negative number. */
  lemma RaiseAdds(bank: Bank, irq: IRQn)
    ensures Members(RaiseBank(bank, irq)) == if irq < 0 then Members(bank) else Members(bank) + {irq}
  {
    if irq >= 0 {
      forall i: nat | i < 256
        ensures i in Members(RaiseBank(bank, irq)) <==> i == irq || i in Members(bank)
      {
        RaisedBits(bank[irq / 32], irq % 32, i % 32);
      }
    }
  }

  /** Clearing removes exactly the interrupt, and nothing for a negative number. */
  lemma ClearRemoves(bank: Bank, irq: IRQn)
    ensures Members(ClearBank(bank, irq)) == if irq < 0 then Members(bank) else Members(bank) - {irq}
  {
    if irq >= 0 {
      forall i: nat | i < 256
        ensures i in Members(ClearBank(bank, irq)) <==> i != irq && i in Members(bank)
      {
        ClearedBits(bank[irq / 32], irq % 32, i % 32);
      }
    }
  }

  /** The same bit by bit: interrupt 32 * w + b is bit b of word w. */
  lemma RaiseBit(bank: Bank, irq: IRQn, w: nat, b: nat)
    requires w < 8 && b < 32
    ensures BitAt(RaiseBank(bank, irq)[w], b) <==> irq == 32 * w + b || BitAt(bank[w], b)
  {
    if irq >= 0 {
      RaisedBits(bank[irq / 32], irq % 32, b);
    }
  }

  lemma ClearBit(bank: Bank, irq: IRQn, w: nat, b: nat)
    requires w < 8 && b < 32
    ensures BitAt(ClearBank(bank, irq)[w], b) <==> irq != 32 * w + b && BitAt(bank[w], b)
  {
    if irq >= 0 {
      ClearedBits(bank[irq / 32], irq % 32, b);
    }
  }

  // ---- sequences of calls ----

  datatype Call = EnableIRQ(irq: IRQn) | DisableIRQ(irq: IRQn) | SetPendingIRQ(irq: IRQn) | ClearPendingIRQ(irq: IRQn)
  datatype Banks = Banks(enabled: Bank, pending: Bank)
  datatype Sets = Sets(enabled: set<nat>, pending: set<nat>)

  function Do(b: Banks, c: Call): Banks {
    match c
    case EnableIRQ(irq) => b.(enabled := RaiseBank(b.enabled, irq))
    case DisableIRQ(irq) => b.(enabled := ClearBank(b.enabled, irq))
    case SetPendingIRQ(irq) => b.(pending := RaiseBank(b.pending, irq))
    case ClearPendingIRQ(irq) => b.(pending := ClearBank(b.pending, irq))
  }

  function DoAll(b: Banks, cs: seq<Call>): Banks {
    if cs == [] then b else Do(DoAll(b, cs[..|cs| - 1]), cs[|cs| - 1])
  }

  function SetDo(s: Sets, c: Call): Sets {
    if c.irq < 0 then s
    else match c
      case EnableIRQ(irq) => s.(enabled := s.enabled + {irq})
      case DisableIRQ(irq) => s.(enabled := s.enabled - {irq})
      case SetPendingIRQ(irq) => s.(pending := s.pending + {irq})
      case ClearPendingIRQ(irq) => s.(pending := s.pending - {irq})
  }

  function SetDoAll(s: Sets, cs: seq<Call>): Sets {
    if cs == [] then s else SetDo(SetDoAll(s, cs[..|cs| - 1]), cs[|cs| - 1])
  }

  ghost function Abstract(b: Banks): Sets {
    Sets(Members(b.enabled), Members(b.pending))
  }

  /** After any sequence of calls the packed words stand for exactly the sets of interrupts that
      the same calls make of plain sets. */
  lemma {:induction false} CallsActOnSets(b: Banks, cs: seq<Call>)
    ensures Abstract(DoAll(b, cs)) == SetDoAll(Abstract(b), cs)
    decreases cs
  {
    if cs == [] {
    } else {
      var n := |cs| - 1;
      CallsActOnSets(b, cs[..n]);
      var t := DoAll(b, cs[..n]);
      RaiseAdds(t.enabled, cs[n].irq);
      RaiseAdds(t.pending, cs[n].irq);
      ClearRemoves(t.enabled, cs[n].irq);
      ClearRemoves(t.pending, cs[n].irq);
    }
  }

  /** The word index and the bit the functions compute from an interrupt number. */
  lemma IrqIndex(irq: nat)
    requires irq < 240
    ensures Shr(irq, 5) == irq / 32 < 8 && And(irq, 0x1F) == irq % 32
    ensures Shl(1, And(irq, 0x1F)) == Pow2Word(irq % 32)
  {
    assert Pow2(5) == 32;
    ShrDivides(irq, 5);
    MaskIsProduct(0, 5);
    AndLowMask(irq, 5);
    ShlOne(irq % 32);
  }

  class Controller {
    const bits: PrioBits
    /** The enable and pending state behind ISER/ICER and ISPR/ICPR. */
    const enabled: array<Word>
    const pending: array<Word>
    const ip: array<Byte>
    const shpr: array<Byte>

    constructor (bits: PrioBits)
      ensures Valid() && this.bits == bits
      ensures fresh(enabled) && fresh(pending) && fresh(ip) && fresh(shpr)
    {
      this.bits := bits;
      enabled := new Word[8](_ => 0);
      pending := new Word[8](_ => 0);
      ip := new Byte[240](_ => 0);
      shpr := new Byte[12](_ => 0);
    }

    ghost predicate Valid() {
      && enabled.Length == 8 && pending.Length == 8 && enabled != pending
      && ip.Length == 240 && shpr.Length == 12 && ip != shpr
    }

    ghost function State(): Banks
      requires Valid()
      reads enabled, pending
    {
      Banks(enabled[..], pending[..])
    }

    method EnableIRQ(irq: IRQn)
      requires Valid()
      modifies enabled
      ensures State() == Do(old(State()), Call.EnableIRQ(irq))
      ensures forall w: nat, b: nat | w < 8 && b < 32 ::
                BitAt(enabled[w], b) <==> irq == 32 * w + b || BitAt(old(enabled[w]), b)
    {
      ghost var bank := enabled[..];
      forall w: nat, b: nat | w < 8 && b < 32
        ensures BitAt(RaiseBank(bank, irq)[w], b) <==> irq == 32 * w + b || BitAt(bank[w], b)
      {
        RaiseBit(bank, irq, w, b);
      }
      if irq >= 0 {
        IrqIndex(irq);
        var w: Word := Shl(1, And(irq, 0x1F));
        enabled[Shr(irq, 5)] := Raised(enabled[Shr(irq, 5)], w);
      }
    }

    method DisableIRQ(irq: IRQn)
      requires Valid()
      modifies enabled
      ensures State() == Do(old(State()), Call.DisableIRQ(irq))
      ensures forall w: nat, b: nat | w < 8 && b < 32 ::
                BitAt(enabled[w], b) <==> irq != 32 * w + b && BitAt(old(enabled[w]), b)
    {
      ghost var bank := enabled[..];
      forall w: nat, b: nat | w < 8 && b < 32
        ensures BitAt(ClearBank(bank, irq)[w], b) <==> irq != 32 * w + b && BitAt(bank[w], b)
      {
        ClearBit(bank, irq, w, b);
      }
      if irq >= 0 {
        IrqIndex(irq);
        var w: Word := Shl(1, And(irq, 0x1F));
        enabled[Shr(irq, 5)] := Cleared(enabled[Shr(irq, 5)], w);
      }
    }

    method SetPendingIRQ(irq: IRQn)
      requires Valid()
      modifies pending
      ensures State() == Do(old(State()), Call.SetPendingIRQ(irq))
      ensures forall w: nat, b: nat | w < 8 && b < 32 ::
                BitAt(pending[w], b) <==> irq == 32 * w + b || BitAt(old(pending[w]), b)
    {
      ghost var bank := pending[..];
      forall w: nat, b: nat | w < 8 && b < 32
        ensures BitAt(RaiseBank(bank, irq)[w], b) <==> irq == 32 * w + b || BitAt(bank[w], b)
      {
        RaiseBit(bank, irq, w, b);
      }
      if irq >= 0 {
        IrqIndex(irq);
        var w: Word := Shl(1, And(irq, 0x1F));
        pending[Shr(irq, 5)] := Raised(pending[Shr(irq, 5)], w);
      }
    }

    method ClearPendingIRQ(irq: IRQn)
      requires Valid()
      modifies pending
      ensures State() == Do(old(State()), Call.ClearPendingIRQ(irq))
      ensures forall w: nat, b: nat | w < 8 && b < 32 ::
                BitAt(pending[w], b) <==> irq != 32 * w + b && BitAt(old(pending[w]), b)
    {
      ghost var bank := pending[..];
      forall w: nat, b: nat | w < 8 && b < 32
        ensures BitAt(ClearBank(bank, irq)[w], b) <==> irq != 32 * w + b && BitAt(bank[w], b)
      {
        ClearBit(bank, irq, w, b);
      }
      if irq >= 0 {
        IrqIndex(irq);
        var w: Word := Shl(1, And(irq, 0x1F));
        pending[Shr(irq, 5)] := Cleared(pending[Shr(irq, 5)], w);
      }
    }

    method GetEnableIRQ(irq: IRQn) returns (r: Word)
      requires Valid()
      ensures r == if irq in Abstract(State()).enabled then 1 else 0
      ensures r == if irq >= 0 && BitAt(enabled[irq / 32], irq % 32) then 1 else 0
    {
      if irq >= 0 {
        IrqIndex(irq);
        TestBit(enabled[irq / 32], irq % 32);
        r := if And(enabled[Shr(irq, 5)], Shl(1, And(irq, 0x1F))) != 0 then 1 else 0;
      } else {
        r := 0;
      }
    }

    method GetPendingIRQ(irq: IRQn) returns (r: Word)
      requires Valid()
      ensures r == if irq in Abstract(State()).pending then 1 else 0
      ensures r == if irq >= 0 && BitAt(pending[irq / 32], irq % 32) then 1 else 0
    {
      if irq >= 0 {
        IrqIndex(irq);
        TestBit(pending[irq / 32], irq % 32);
        r := if And(pending[Shr(irq, 5)], Shl(1, And(irq, 0x1F))) != 0 then 1 else 0;
      } else {
        r := 0;
      }
    }

    // ---- priorities ----

    /** Device interrupts and the system exceptions from -12 on have a priority byte. */
    static predicate HasPriority(irq: IRQn) {
      -12 <= irq
    }

    /** What __NVIC_GetPriority returns. */
    function PriorityOf(irq: IRQn): nat
      requires Valid() && HasPriority(irq)
      reads ip, shpr
    {
      BytePriority(bits, if irq >= 0 then ip[irq] else shpr[irq + 12])
    }

    /** The index `((uint32_t)IRQn & 0xF) - 4` of a system exception. */
    lemma ExceptionIndex(irq: IRQn)
      requires -12 <= irq < 0
      ensures And(Wrap(irq), 0xF) - 4 == irq + 12
    {
      assert Pow2(4) == 16;
      MaskIsProduct(0, 4);
      AndLowMask(Wrap(irq), 4);
    }

    method SetPriority(irq: IRQn, priority: Word)
      requires Valid() && HasPriority(irq)
      modifies ip, shpr
      ensures PriorityOf(irq) == priority % Pow2(bits)
      ensures (if irq >= 0 then ip[irq] else shpr[irq + 12]) == priority % Pow2(bits) * Pow2(8 - bits)
      ensures forall i: IRQn | HasPriority(i) && i != irq :: PriorityOf(i) == old(PriorityOf(i))
      ensures if irq >= 0 then ip[..] == old(ip[..])[irq := PriorityByte(bits, priority)] && shpr[..] == old(shpr[..])
              else ip[..] == old(ip[..]) && shpr[..] == old(shpr[..])[irq + 12 := PriorityByte(bits, priority)]
    {
      StoredPriority(bits, priority);
      PriorityByteIs(bits, priority);
      if irq >= 0 {
        ip[irq] := PriorityByte(bits, priority);
      } else {
        ExceptionIndex(irq);
        shpr[And(Wrap(irq), 0xF) - 4] := PriorityByte(bits, priority);
      }
    }

    method GetPriority(irq: IRQn) returns (priority: nat)
      requires Valid() && HasPriority(irq)
      ensures priority == PriorityOf(irq)
      ensures priority == (if irq >= 0 then ip[irq] else shpr[irq + 12]) / Pow2(8 - bits)
    {
      ShrDivides(if irq >= 0 then ip[irq] else shpr[irq + 12], 8 - bits);
      if irq >= 0 {
        priority := BytePriority(bits, ip[irq]);
      } else {
        ExceptionIndex(irq);
        priority := BytePriority(bits, shpr[And(Wrap(irq), 0xF) - 4]);
      }
    }
  }
}
