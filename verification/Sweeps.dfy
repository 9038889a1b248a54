/** What the set/way nest and the by-address loop do to the cache and to main memory. */
module Sweeps {
  import opened Word32
  import opened CacheModel
  import opened Registers
  import opened Traces
  import opened Maintenance

  type Int32 = x: int | -0x8000_0000 <= x < 0x8000_0000

  /** Maintenance of every slot in the order of the set/way nest. */
  function SweepAll(op: Op, hw: Hw): Hw {
    ApplySlots(op, hw, Sweep(hw.sets, hw.ways))
  }

  /** Maintenance of every line of a block in the order of the by-address loop. */
  function SweepRange(op: Op, hw: Hw, addr: Word, dsize: Int32): Hw {
    if dsize <= 0 then hw else ApplyLines(op, hw, LineRun(addr, LineCount(addr, dsize)))
  }

  /** The register writes of a call by address: one for each 32 bytes from addr on, as many as it
      takes to get past the last byte. */
  function BlockWrites(t: Target, addr: Word, dsize: Int32): (ws: seq<RegWrite>)
    ensures |ws| == if dsize <= 0 then 0 else (addr % 32 + dsize + 31) / 32
    ensures forall k | 0 <= k < |ws| :: ws[k] == ByAddress(t, (addr + 32 * k) % 0x1_0000_0000)
  {
    if dsize <= 0 then [] else AddressWrites(t, addr, LineCount(addr, dsize))
  }

  ghost function AllSlots(hw: Hw): set<Slot> {
    hw.cache.Keys
  }

  /** The lines a call by address selects: those with a byte of the block, none if dsize <= 0. */
  ghost function Block(addr: Word, dsize: Int32): set<LineNo> {
    set l: LineNo | 0 <= l < LINES && 0 < dsize && Touches(addr, dsize, l)
  }

  /** The set/way nest selects every slot, whatever its order. */
  lemma SweepAllMaintains(op: Op, hw: Hw)
    requires Shaped(hw) && Tagged(hw)
    ensures Maintained(op, hw, AllSlots(hw), SweepAll(op, hw))
  {
    SweepExact(hw.sets, hw.ways);
    SlotsMaintained(op, hw, Sweep(hw.sets, hw.ways));
    assert Elements(Sweep(hw.sets, hw.ways)) == AllSlots(hw);
  }

  /** A call by address selects the slots that hold a line of the block. */
  lemma SweepRangeMaintains(op: Op, hw: Hw, addr: Word, dsize: Int32)
    requires Shaped(hw) && Tagged(hw)
    ensures Maintained(op, hw, Holders(hw, Block(addr, dsize)), SweepRange(op, hw, addr, dsize))
  {
    if dsize > 0 {
      var run := LineRun(addr, LineCount(addr, dsize));
      RunCoversExactly(addr, dsize);
      LinesMaintained(op, hw, run);
      assert Elements(run) == Block(addr, dsize);
    } else {
      LinesMaintained(op, hw, []);
      assert Elements<LineNo>([]) == Block(addr, dsize);
    }
  }

  /** A cache in which nothing is valid. */
  ghost predicate Empty(hw: Hw) {
    forall p | p in hw.cache :: !hw.cache[p].valid
  }

  lemma SameShape(hw: Hw, r: Hw)
    requires Shaped(hw) && r.sets == hw.sets && r.ways == hw.ways && r.cache.Keys == hw.cache.Keys
    ensures Shaped(r)
  {}

  lemma SweepAllKeepsShape(op: Op, hw: Hw)
    requires Shaped(hw)
    ensures var r := SweepAll(op, hw); Shaped(r) && r.sets == hw.sets && r.ways == hw.ways
  {
    SlotsKeepShape(op, hw, Sweep(hw.sets, hw.ways));
    SameShape(hw, SweepAll(op, hw));
  }

  /** Invalidating all slots empties the cache, whatever it held; without cleaning, main memory keeps
      its contents. */
  lemma SweepAllEmpties(op: Op, hw: Hw)
    requires Shaped(hw) && op != Clean
    ensures Empty(SweepAll(op, hw)) && (op == Invalidate ==> SweepAll(op, hw).mem == hw.mem)
  {
    SlotsInvalidated(op, hw, Sweep(hw.sets, hw.ways));
    SweepAllKeepsShape(op, hw);
    SweepExact(hw.sets, hw.ways);
  }

  /** On a cache that fits the register fields the writes of the nest are the sweep. */
  lemma SweepPerformed(op: Op, hw: Hw)
    requires hw.sets <= 512 && hw.ways <= 4
    ensures Perform(hw, SweepWrites(op, hw.sets, hw.ways)) == SweepAll(op, hw)
  {
    SweepWritesName(op, hw.sets, hw.ways);
    PerformNamed(op, hw, SweepWrites(op, hw.sets, hw.ways), Sweep(hw.sets, hw.ways));
  }
}
