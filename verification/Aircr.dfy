/** The application interrupt and reset control register: priority grouping and system reset
    (section B3.2 of the ARMv7-M Architecture Reference Manual). */
module Aircr {

  const VECTKEY: bv32 := 0x5FA
  const VECTKEY_POS: nat := 16
  const VECTKEY_MSK: bv32 := 0xFFFF_0000
  const PRIGROUP_POS: nat := 8
  const PRIGROUP_MSK: bv32 := 0x700
  const SYSRESETREQ_MSK: bv32 := 4
  /** What the key field reads as. */
  const VECTKEYSTAT: bv32 := 0xFA05_0000

  function Group(aircr: bv32): bv32 {
    (aircr & PRIGROUP_MSK) >> PRIGROUP_POS
  }

  lemma GroupIs(aircr: bv32)
    ensures Group(aircr) == (aircr >> 8) & 7
  {}

  /** A store takes effect only with the right key; the key itself does not stick. */
  function Stored(aircr: bv32, word: bv32): bv32 {
    if word >> VECTKEY_POS == VECTKEY then VECTKEYSTAT | (word & 0xFFFF) else aircr
  }

  function GroupingWord(aircr: bv32, group: bv32): bv32 {
    (aircr & !(VECTKEY_MSK | PRIGROUP_MSK)) | (VECTKEY << VECTKEY_POS) | ((group & 7) << PRIGROUP_POS)
  }

  function ResetWord(aircr: bv32): bv32 {
    (VECTKEY << VECTKEY_POS) | (aircr & PRIGROUP_MSK) | SYSRESETREQ_MSK
  }

  /** The register always reads with the key status in its upper half. */
  predicate Readable(aircr: bv32) {
    aircr & VECTKEY_MSK == VECTKEYSTAT
  }

  const OTHERS: bv32 := 0xF8FF

  /** The two words bit by bit: the key in bits 31..16, the group in bits 10..8, the reset request
      in bit 2. */
  lemma GroupingWordIs(aircr: bv32, group: bv32)
    ensures GroupingWord(aircr, group) == 0x05FA_0000 | (aircr & 0xF8FF) | ((group & 7) << 8)
  {}

  lemma ResetWordIs(aircr: bv32)
    ensures ResetWord(aircr) == 0x05FA_0004 | (aircr & 0x0700)
  {}

  lemma KeyIs(word: bv32)
    ensures word >> VECTKEY_POS == VECTKEY <==> word & 0xFFFF_0000 == 0x05FA_0000
  {}

  /** A word without the key changes nothing; with it, the lower half is stored. */
  lemma StoredIs(aircr: bv32, word: bv32)
    ensures Stored(aircr, word)
         == if word & 0xFFFF_0000 == 0x05FA_0000 then 0xFA05_0000 | (word & 0xFFFF) else aircr
  {
    KeyIs(word);
  }

  lemma LowerHalves(aircr: bv32, group: bv32)
    ensures (0x05FA_0000 | (aircr & 0xF8FF) | ((group & 7) << 8)) & 0xFFFF_0000 == 0x05FA_0000
    ensures (0x05FA_0000 | (aircr & 0xF8FF) | ((group & 7) << 8)) & 0xFFFF == (aircr & 0xF8FF) | ((group & 7) << 8)
    ensures (0x05FA_0004 | (aircr & 0x0700)) & 0xFFFF_0000 == 0x05FA_0000
    ensures (0x05FA_0004 | (aircr & 0x0700)) & 0xFFFF == 4 | (aircr & 0x0700)
  {}

  /** What the register reads after each of them. */
  lemma AfterStores(aircr: bv32, group: bv32)
    ensures Stored(aircr, GroupingWord(aircr, group)) == 0xFA05_0000 | ((aircr & 0xF8FF) | ((group & 7) << 8))
    ensures Stored(aircr, ResetWord(aircr)) == 0xFA05_0000 | (4 | (aircr & 0x0700))
  {
    GroupingWordIs(aircr, group);
    ResetWordIs(aircr);
    StoredIs(aircr, GroupingWord(aircr, group));
    StoredIs(aircr, ResetWord(aircr));
    LowerHalves(aircr, group);
  }

  lemma GroupingWordHasKey(aircr: bv32, group: bv32)
    ensures GroupingWord(aircr, group) >> VECTKEY_POS == VECTKEY
  {}

  lemma GroupingWordFields(aircr: bv32, group: bv32)
    ensures var low := GroupingWord(aircr, group) & 0xFFFF;
            low & PRIGROUP_MSK == (group & 7) << PRIGROUP_POS && low & OTHERS == aircr & OTHERS
  {}

  lemma GroupInPlace(group: bv32)
    ensures ((group & 7) << PRIGROUP_POS) >> PRIGROUP_POS == group & 7
  {}

  lemma KeyStatus(low: bv32)
    requires low <= 0xFFFF
    ensures (VECTKEYSTAT | low) & VECTKEY_MSK == VECTKEYSTAT
    ensures (VECTKEYSTAT | low) & PRIGROUP_MSK == low & PRIGROUP_MSK
    ensures (VECTKEYSTAT | low) & OTHERS == low & OTHERS
  {}

  /** One setting puts its group in force and touches no other bit. */
  lemma OneSetting(aircr: bv32, group: bv32)
    ensures var next := Stored(aircr, GroupingWord(aircr, group));
            Readable(next) && Group(next) == group & 7 && next & OTHERS == aircr & OTHERS
  {
    GroupingWordHasKey(aircr, group);
    GroupingWordFields(aircr, group);
    GroupInPlace(group);
    KeyStatus(GroupingWord(aircr, group) & 0xFFFF);
  }

  function SetAll(aircr: bv32, groups: seq<bv32>): bv32 {
    if groups == [] then aircr
    else
      var before := SetAll(aircr, groups[..|groups| - 1]);
      Stored(before, GroupingWord(before, groups[|groups| - 1]))
  }

  /** After any sequence of settings the last one is in force and no other bit has changed. */
  lemma {:induction false} LastSettingHolds(aircr: bv32, groups: seq<bv32>)
    ensures var after := SetAll(aircr, groups);
            && (groups != [] ==> Readable(after)) && after & OTHERS == aircr & OTHERS
            && Group(after) == if groups == [] then Group(aircr) else groups[|groups| - 1] & 7
    decreases groups
  {
    if groups == [] {
    } else {
      LastSettingHolds(aircr, groups[..|groups| - 1]);
      OneSetting(SetAll(aircr, groups[..|groups| - 1]), groups[|groups| - 1]);
    }
  }

  /** The reset word is accepted, requests the reset and leaves the group as it was. */
  lemma ResetIsAccepted(aircr: bv32)
    ensures var next := Stored(aircr, ResetWord(aircr));
            next & SYSRESETREQ_MSK != 0 && Group(next) == Group(aircr)
            && next & !(VECTKEY_MSK | PRIGROUP_MSK | SYSRESETREQ_MSK) == 0
  {}

  class Register {
    var aircr: bv32

    method Store(word: bv32)
      modifies this
      ensures aircr == Stored(old(aircr), word)
    {
      if word >> VECTKEY_POS == VECTKEY {
        aircr := VECTKEYSTAT | (word & 0xFFFF);
      }
    }

    /** Reads the register, replaces the key and the group, and writes it back. */
    method ReplaceGroup(group: bv32)
      modifies this
      ensures aircr == Stored(old(aircr), GroupingWord(old(aircr), group))
    {
      var regValue := aircr;
      regValue := regValue & !(VECTKEY_MSK | PRIGROUP_MSK);
      regValue := regValue | (VECTKEY << VECTKEY_POS) | ((group & 7) << PRIGROUP_POS);
      Store(regValue);
    }

    method SetPriorityGrouping(group: bv32)
      modifies this
      ensures aircr == Stored(old(aircr), GroupingWord(old(aircr), group))
      ensures aircr == 0xFA05_0000 | ((old(aircr) & 0xF8FF) | ((group & 7) << 8))
      ensures Readable(aircr) && Group(aircr) == group & 7 && aircr & OTHERS == old(aircr) & OTHERS
    {
      AfterStores(aircr, group);
      OneSetting(aircr, group);
      ReplaceGroup(group);
    }

    method GetPriorityGrouping() returns (group: bv32)
      ensures group == Group(aircr) == (aircr >> 8) & 7
    {
      GroupIs(aircr);
      group := (aircr & PRIGROUP_MSK) >> PRIGROUP_POS;
    }

    /** Up to the endless loop that waits for the reset. */
    method SystemReset()
      modifies this
      ensures aircr == 0xFA05_0000 | (4 | (old(aircr) & 0x0700))
      ensures aircr & SYSRESETREQ_MSK != 0 && Group(aircr) == Group(old(aircr))
      ensures aircr & !(VECTKEY_MSK | PRIGROUP_MSK | SYSRESETREQ_MSK) == 0
    {
      ResetIsAccepted(aircr);
      AfterStores(aircr, 0);
      Store((VECTKEY << VECTKEY_POS) | (aircr & PRIGROUP_MSK) | SYSRESETREQ_MSK);
    }
  }
}
