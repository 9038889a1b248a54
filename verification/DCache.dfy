/** The SCB_* data cache functions. Each is proved to make exactly the register writes of its
    loops, to leave the hardware in the state those writes produce, and so to be a step of the
    machine whose runs `Coherence` is about. */
module DCache {
  import opened Word32
  import opened CacheModel
  import opened Registers
  import opened Traces
  import opened Sweeps
  import opened Maintenance
  import Coherence
  import OpenRuns

  /** One round of the by-address loop on the wrapped address and the wrapped remaining size:
      the sign test stops it exactly when nothing is left. */
  lemma WrapSteps(addr: Word, k: nat, left: int)
    requires 0 < left < 0x8000_0020
    ensures Wrap(Wrap(addr + LINE_SIZE * k) + LINE_SIZE) == Wrap(addr + LINE_SIZE * (k + 1))
    ensures LINE_SIZE < left ==> Wrap(AsInt32(left) - LINE_SIZE) == left - LINE_SIZE < 0x8000_0000
    ensures AsInt32(Wrap(AsInt32(left) - LINE_SIZE)) > 0 <==> LINE_SIZE < left
  {
    QuotientIs(addr + LINE_SIZE * (k + 1), WORD,
               (addr + LINE_SIZE * k) / WORD + (Wrap(addr + LINE_SIZE * k) + LINE_SIZE) / WORD,
               Wrap(Wrap(addr + LINE_SIZE * k) + LINE_SIZE));
  }

  /** The by-address loop before its round k: what is left of the block, and the variables that
      follow it modulo 2^32. */
  predicate AtRound(addr: Word, size: nat, k: nat, left: int, opAddr: Word, opSize: int) {
    && 0 < left < 0x8000_0020
    && left == size + addr % LINE_SIZE - LINE_SIZE * k
    && opSize == AsInt32(left)
    && opAddr == Wrap(addr + LINE_SIZE * k)
  }

  lemma FirstRound(addr: Word, dsize: Int32)
    requires 0 < dsize
    ensures AtRound(addr, dsize, 0, dsize + addr % LINE_SIZE, addr, AsInt32(Wrap(dsize + addr % LINE_SIZE)))
  {}

  lemma NextRound(addr: Word, size: nat, k: nat, left: int, opAddr: Word, opSize: int)
    requires AtRound(addr, size, k, left, opAddr, opSize)
    ensures var opSize' := AsInt32(Wrap(opSize - LINE_SIZE));
            if opSize' <= 0 then k + 1 == LineCount(addr, size)
            else AtRound(addr, size, k + 1, left - LINE_SIZE, Wrap(opAddr + LINE_SIZE), opSize')
  {
    WrapSteps(addr, k, left);
    if left <= LINE_SIZE {
      QuotientIs(addr % LINE_SIZE + size + LINE_SIZE - 1, LINE_SIZE, k + 1, left - 1);
    }
  }

  /** A set's words done after what came before, for a nest that must write the words of whole. */
  lemma NestStep(op: Op, s: Word, ways: nat, before: seq<RegWrite>, after: seq<RegWrite>, whole: seq<RegWrite>)
    requires ways <= WORD && before + SweepWrites(op, s + 1, ways) == whole
    requires after == before + WayWrites(op, s, ways)
    ensures after + SweepWrites(op, s, ways) == whole
    ensures s == 0 ==> after == whole
    ensures s > 0 ==> Wrap(s - 1) + 1 == s
  {
    SetsLeft(op, s, ways, before);
  }

  lemma WritesJoin(a: seq<RegWrite>, b: seq<RegWrite>, c: seq<RegWrite>)
    ensures a + b + c == a + (b + c)
  {}

  const DC: bv32 := 1 << 16

  lemma DcSet(ccr: bv32)
    ensures ccr | DC == ccr | 0x1_0000 && (ccr | DC) & 0x1_0000 != 0
  {}

  lemma DcClear(ccr: bv32)
    ensures ccr & !DC == ccr & 0xFFFE_FFFF && (ccr & !DC) & 0x1_0000 == 0
  {}

  class Scb {
    var ccr: bv32
    var csselr: Word
    var hw: Hw
    /** What CCSIDR reads when CSSELR selects the level 1 data cache, and otherwise. */
    const dataSizeId: Word
    const otherSizeId: Word
    /** Every store to a maintenance register or to CCR so far, in order, and the state they
        started from. */
    ghost var log: seq<RegWrite>
    ghost var start: Hw
    ghost var startOn: bool

    /** A cache of any contents that CCSIDR describes, with no write made yet. */
    constructor (hw: Hw, ccr: bv32, csselr: Word, dataSizeId: Word, otherSizeId: Word)
      requires Shaped(hw) && hw.sets <= 512 && hw.ways <= 4
      requires hw.sets == CcsidrSets(dataSizeId) + 1 && hw.ways == CcsidrWays(dataSizeId) + 1
      ensures Valid() && this.hw == hw && this.ccr == ccr && this.csselr == csselr
      ensures this.dataSizeId == dataSizeId && this.otherSizeId == otherSizeId
      ensures start == hw && startOn == On() && log == []
    {
      this.hw, this.ccr, this.csselr := hw, ccr, csselr;
      this.dataSizeId, this.otherSizeId := dataSizeId, otherSizeId;
      start, startOn, log := hw, ccr & 0x1_0000 != 0, [];
    }

    function Ccsidr(): Word
      reads this`csselr
    {
      if csselr == 0 then dataSizeId else otherSizeId
    }

    /** Bit 16 of CCR turns the data cache on. */
    predicate On()
      reads this`ccr
    {
      ccr & 0x1_0000 != 0
    }

    /** The state of the machine, given what software keeps track of: whether the cache has been
        set up since power-up, and which lines the bus master owns. */
    ghost function Machine(settled: bool, dma: set<LineNo>): Coherence.Sys
      reads this`ccr, this`hw
    {
      Coherence.Sys(On(), settled, hw, dma)
    }

    ghost predicate Replayed()
      reads this`ccr, this`hw, this`log, this`start, this`startOn
    {
      hw == Perform(start, log) && On() == OnAfter(startOn, log)
    }

    /** CCSIDR describes the cache, which fits the set and way fields of the registers. */
    ghost predicate Valid()
      reads this`ccr, this`hw, this`log, this`start, this`startOn
    {
      && Replayed()
      && Shaped(hw) && hw.sets <= 512 && hw.ways <= 4
      && hw.sets == CcsidrSets(dataSizeId) + 1
      && hw.ways == CcsidrWays(dataSizeId) + 1
    }

    /** The writes of the nest over this cache, one for each slot. */
    ghost function AllWrites(op: Op): seq<RegWrite>
      requires Valid()
      reads this`ccr, this`hw, this`log, this`start, this`startOn
    {
      SweepWrites(op, hw.sets, hw.ways)
    }

    /** A store to CCR. */
    method StoreCcr(word: bv32)
      requires Replayed()
      modifies this`ccr, this`log
      ensures Replayed() && ccr == word && log == old(log) + [Ccr(word & 0x1_0000 != 0)]
    {
      ccr := word;
      PerformSnoc(start, log, Ccr(word & 0x1_0000 != 0));
      log := log + [Ccr(word & 0x1_0000 != 0)];
    }

    method SetDc()
      requires Replayed()
      modifies this`ccr, this`log
      ensures Replayed() && On() && ccr == old(ccr) | 0x1_0000 && log == old(log) + [Ccr(true)]
    {
      DcSet(ccr);
      StoreCcr(ccr | DC);
    }

    method ClearDc()
      requires Replayed()
      modifies this`ccr, this`log
      ensures Replayed() && !On() && ccr == old(ccr) & 0xFFFE_FFFF && log == old(log) + [Ccr(false)]
    {
      DcClear(ccr);
      StoreCcr(ccr & !DC);
    }

    method Write(w: RegWrite)
      requires Replayed() && !w.Ccr?
      modifies this`hw, this`log
      ensures Replayed() && log == old(log) + [w]
    {
      hw := Perform1(hw, w);
      PerformSnoc(start, log, w);
      log := log + [w];
    }

    /** Both counters of the nest are decremented after their test, so each loop also runs for
        zero and leaves its counter at 2^32 - 1. The invariants say that what is done and what is
        left make up the whole. */
    method RunWays(op: Op, sets: Word, lastWay: Word, ghost ways: nat)
      requires Replayed() && ways == lastWay + 1
      modifies this`hw, this`log
      ensures Replayed() && log == old(log) + WayWrites(op, sets, ways)
    {
      ghost var whole := log + WayWrites(op, sets, ways);
      ghost var left := ways;
      var way: Word := lastWay;
      while true
        invariant Replayed() && left == way + 1
        invariant log + WayWrites(op, sets, left) == whole
        decreases way
      {
        WaysLeft(op, sets, way, log);
        var word := PackSetWay(sets, way);
        Write(SetWay(op, word));
        left := left - 1;
        var tested := way;
        way := Wrap(way - 1);
        if tested == 0 { break; }
      }
    }

    method RunNest(op: Op, lastSet: Word, lastWay: Word, ghost n: nat, ghost ways: nat)
      requires Replayed() && n == lastSet + 1 && ways == lastWay + 1
      modifies this`hw, this`log
      ensures Replayed() && log == old(log) + SweepWrites(op, n, ways)
    {
      ghost var whole := log + SweepWrites(op, n, ways);
      ghost var left := n;
      var sets: Word := lastSet;
      while true
        invariant Replayed() && left == sets + 1
        invariant log + SweepWrites(op, left, ways) == whole
        decreases sets
      {
        ghost var before := log;
        RunWays(op, sets, lastWay, ways);
        NestStep(op, sets, ways, before, log, whole);
        left := left - 1;
        var tested := sets;
        sets := Wrap(sets - 1);
        if tested == 0 { break; }
      }
    }

    /** On the cache that CCSIDR describes the nest maintains every slot. */
    method MaintainAllSlots(op: Op, ccsidr: Word)
      requires Valid() && ccsidr == dataSizeId
      modifies this`hw, this`log
      ensures Valid() && hw == SweepAll(op, old(hw)) && log == old(log) + AllWrites(op)
    {
      SweepPerformed(op, hw);
      SweepAllKeepsShape(op, hw);
      PerformAppend(start, log, AllWrites(op));
      var lastSet := MaskSets(ccsidr);
      var lastWay := MaskWays(ccsidr);
      RunNest(op, lastSet, lastWay, hw.sets, hw.ways);
    }

    method InvalidateAllSlots(ccsidr: Word)
      requires Valid() && ccsidr == dataSizeId
      modifies this`hw, this`log
      ensures Valid() && hw == SweepAll(Invalidate, old(hw)) && log == old(log) + old(AllWrites(Invalidate))
      ensures hw.mem == old(hw.mem) && Empty(hw)
    {
      SweepAllEmpties(Invalidate, hw);
      MaintainAllSlots(Invalidate, ccsidr);
    }

    method InvalidateDCache()
      requires Valid()
      modifies this`ccr, this`csselr, this`hw, this`log
      ensures Valid() && ccr == old(ccr) && csselr == 0
      ensures hw == SweepAll(Invalidate, old(hw)) && log == old(log) + AllWrites(Invalidate)
      ensures hw.mem == old(hw.mem) && Empty(hw)
      ensures log == old(log) + OpenRuns.CallWrites(old(On()), old(hw), Coherence.InvalidateAll)
      ensures forall settled: bool, dma: set<LineNo> ::
                Machine(true, dma) == Coherence.Step(old(Machine(settled, dma)), Coherence.InvalidateAll)
    {
      csselr := 0;
      var ccsidr := Ccsidr();
      InvalidateAllSlots(ccsidr);
    }

    method CleanDCache()
      requires Valid()
      modifies this`ccr, this`csselr, this`hw, this`log
      ensures Valid() && ccr == old(ccr) && csselr == 0
      ensures hw == SweepAll(Clean, old(hw)) && log == old(log) + AllWrites(Clean)
      ensures log == old(log) + OpenRuns.CallWrites(old(On()), old(hw), Coherence.MaintainAll(false))
      ensures forall settled: bool, dma: set<LineNo> ::
                Machine(settled, dma)
                == Coherence.Step(old(Machine(settled, dma)), Coherence.MaintainAll(false))
    {
      csselr := 0;
      var ccsidr := Ccsidr();
      MaintainAllSlots(Clean, ccsidr);
    }

    method CleanInvalidateDCache()
      requires Valid()
      modifies this`ccr, this`csselr, this`hw, this`log
      ensures Valid() && ccr == old(ccr) && csselr == 0
      ensures hw == SweepAll(CleanInvalidate, old(hw)) && log == old(log) + AllWrites(CleanInvalidate)
      ensures log == old(log) + OpenRuns.CallWrites(old(On()), old(hw), Coherence.MaintainAll(true))
      ensures forall settled: bool, dma: set<LineNo> ::
                Machine(settled, dma)
                == Coherence.Step(old(Machine(settled, dma)), Coherence.MaintainAll(true))
    {
      csselr := 0;
      var ccsidr := Ccsidr();
      MaintainAllSlots(CleanInvalidate, ccsidr);
    }

    /** Turning the cache on starts from an empty one; it does nothing if the cache is on already.
        The store that turns it on comes after those of the nest. */
    method EnableDCache()
      requires Valid()
      modifies this`ccr, this`csselr, this`hw, this`log
      ensures Valid() && On()
      ensures old(On()) ==> hw == old(hw) && log == old(log) && ccr == old(ccr) && csselr == old(csselr)
      ensures !old(On()) ==>
                && csselr == 0 && ccr == old(ccr) | 0x1_0000
                && hw == SweepAll(Invalidate, old(hw)) && log == old(log) + old(AllWrites(Invalidate)) + [Ccr(true)]
                && hw.mem == old(hw.mem) && Empty(hw)
      ensures log == old(log) + OpenRuns.CallWrites(old(On()), old(hw), Coherence.Enable)
      ensures forall settled: bool, dma: set<LineNo> ::
                Machine(settled || !old(On()), dma) == Coherence.Step(old(Machine(settled, dma)), Coherence.Enable)
    {
      if ccr & DC != 0 { return; }
      WritesJoin(log, AllWrites(Invalidate), [Ccr(true)]);
      csselr := 0;
      var ccsidr := Ccsidr();
      InvalidateAllSlots(ccsidr);
      SetDc();
    }

    /** The store that turns the cache off comes before those of the nest. */
    method DisableDCache()
      requires Valid()
      modifies this`ccr, this`csselr, this`hw, this`log
      ensures Valid() && !On() && csselr == 0 && ccr == old(ccr) & 0xFFFE_FFFF
      ensures hw == SweepAll(CleanInvalidate, old(hw))
      ensures log == old(log) + [Ccr(false)] + old(AllWrites(CleanInvalidate))
      ensures log == old(log) + OpenRuns.CallWrites(old(On()), old(hw), Coherence.Disable)
      ensures forall settled: bool, dma: set<LineNo> ::
                Machine(settled, dma) == Coherence.Step(old(Machine(settled, dma)), Coherence.Disable)
    {
      WritesJoin(log, [Ccr(false)], AllWrites(CleanInvalidate));
      csselr := 0;
      ClearDc();
      var ccsidr := Ccsidr();
      MaintainAllSlots(CleanInvalidate, ccsidr);
    }

    /** The loop shared by the four calls by address. The remaining size is kept in 32 bits: its
        sum with the offset of addr may wrap to a negative number, and the first subtraction then
        wraps it back. */
    method MaintainLines(t: Target, addr: Word, dsize: Int32)
      requires Replayed()
      modifies this`hw, this`log
      ensures Replayed()
      ensures log == old(log) + BlockWrites(t, addr, dsize)
    {
      if dsize > 0 {
        ghost var before, k := log, 0;
        ghost var left := dsize + addr % LINE_SIZE;
        var opSize := AsInt32(Wrap(dsize + addr % LINE_SIZE));
        var opAddr: Word := addr;
        FirstRound(addr, dsize);
        while true
          invariant AtRound(addr, dsize, k, left, opAddr, opSize)
          invariant Replayed() && log == before + AddressWrites(t, addr, k)
          decreases left
        {
          RoundWritten(t, addr, k, before, log);
          NextRound(addr, dsize, k, left, opAddr, opSize);
          Write(ByAddress(t, opAddr));
          opAddr := Wrap(opAddr + LINE_SIZE);
          opSize := AsInt32(Wrap(opSize - LINE_SIZE));
          k := k + 1;
          if opSize <= 0 { break; }
          left := left - LINE_SIZE;
        }
      }
    }

    lemma RangePerformed(op: Op, addr: Word, dsize: Int32)
      requires Valid()
      ensures Perform(start, log + BlockWrites(DataLine(op), addr, dsize)) == SweepRange(op, hw, addr, dsize)
      ensures var r := SweepRange(op, hw, addr, dsize);
              Shaped(r) && r.sets == hw.sets && r.ways == hw.ways
    {
      PerformAppend(start, log, BlockWrites(DataLine(op), addr, dsize));
      if dsize > 0 {
        var n := LineCount(addr, dsize);
        PerformRun(op, hw, addr, n);
        LinesKeepShape(op, hw, LineRun(addr, n));
        SameShape(hw, SweepRange(op, hw, addr, dsize));
      }
    }

    method InvalidateDCacheByAddr(addr: Word, dsize: Int32)
      requires Valid()
      modifies this`hw, this`log
      ensures Valid() && hw == SweepRange(Invalidate, old(hw), addr, dsize)
      ensures log == old(log) + BlockWrites(DataLine(Invalidate), addr, dsize)
      ensures log == old(log) + OpenRuns.CallWrites(old(On()), old(hw), Coherence.Take(addr, dsize))
      ensures forall settled: bool, dma: set<LineNo> ::
                Machine(settled, dma - Block(addr, dsize))
                == Coherence.Step(old(Machine(settled, dma)), Coherence.Take(addr, dsize))
    {
      RangePerformed(Invalidate, addr, dsize);
      MaintainLines(DataLine(Invalidate), addr, dsize);
    }

    method CleanDCacheByAddr(addr: Word, dsize: Int32)
      requires Valid()
      modifies this`hw, this`log
      ensures Valid() && hw == SweepRange(Clean, old(hw), addr, dsize)
      ensures log == old(log) + BlockWrites(DataLine(Clean), addr, dsize)
      ensures log == old(log) + OpenRuns.CallWrites(old(On()), old(hw), Coherence.MaintainRange(false, addr, dsize))
      ensures forall settled: bool, dma: set<LineNo> ::
                Machine(settled, dma)
                == Coherence.Step(old(Machine(settled, dma)), Coherence.MaintainRange(false, addr, dsize))
      ensures forall settled: bool, dma: set<LineNo> ::
                Machine(settled, dma + Block(addr, dsize))
                == Coherence.Step(old(Machine(settled, dma)), Coherence.Give(false, addr, dsize))
    {
      RangePerformed(Clean, addr, dsize);
      MaintainLines(DataLine(Clean), addr, dsize);
    }

    method CleanInvalidateDCacheByAddr(addr: Word, dsize: Int32)
      requires Valid()
      modifies this`hw, this`log
      ensures Valid() && hw == SweepRange(CleanInvalidate, old(hw), addr, dsize)
      ensures log == old(log) + BlockWrites(DataLine(CleanInvalidate), addr, dsize)
      ensures log == old(log) + OpenRuns.CallWrites(old(On()), old(hw), Coherence.MaintainRange(true, addr, dsize))
      ensures forall settled: bool, dma: set<LineNo> ::
                Machine(settled, dma)
                == Coherence.Step(old(Machine(settled, dma)), Coherence.MaintainRange(true, addr, dsize))
      ensures forall settled: bool, dma: set<LineNo> ::
                Machine(settled, dma + Block(addr, dsize))
                == Coherence.Step(old(Machine(settled, dma)), Coherence.Give(true, addr, dsize))
    {
      RangePerformed(CleanInvalidate, addr, dsize);
      MaintainLines(DataLine(CleanInvalidate), addr, dsize);
    }

    /** The instruction cache is not modelled: the data side is untouched, and the same lines are
        named to ICIMVAU. */
    method InvalidateICacheByAddr(addr: Word, isize: Int32)
      requires Valid()
      modifies this`hw, this`log
      ensures Valid() && hw == old(hw)
      ensures log == old(log) + BlockWrites(InstructionLine, addr, isize)
    {
      PerformAppend(start, log, BlockWrites(InstructionLine, addr, isize));
      if isize > 0 {
        PerformInstructionRun(hw, addr, LineCount(addr, isize));
      }
      MaintainLines(InstructionLine, addr, isize);
    }

  }
}
