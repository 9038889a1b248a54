/** When the cleaning functions keep what the CPU sees, in every state: also in those no disciplined
    run reaches, and in the power-up cache, which may hold one line in several ways. */
module Views {
  import opened Word32
  import opened CacheModel
  import opened Traces
  import opened Maintenance
  import opened Sweeps
  import opened HandOff
  import opened Coherence

  /** What main memory holds of line l once the slots ps have been cleaned in order, with no
      assumption on the cache: the data of the last dirty slot among them that holds l. */
  function Drained(hw: Hw, ps: seq<Slot>, l: LineNo): Line {
    if ps == [] then hw.mem[l]
    else
      var p := ps[|ps| - 1];
      if Holds(hw, p, l) && hw.cache[p].dirty then hw.cache[p].data else Drained(hw, ps[..|ps| - 1], l)
  }

  lemma {:induction false} SlotsElsewhere(op: Op, hw: Hw, ps: seq<Slot>, p: Slot)
    requires p !in ps && p in hw.cache
    ensures p in ApplySlots(op, hw, ps).cache && ApplySlots(op, hw, ps).cache[p] == hw.cache[p]
  {
    if ps == [] {
    } else {
      SlotsElsewhere(op, hw, ps[..|ps| - 1], p);
    }
  }

  /** Cleaning distinct slots in order drains them, whatever the cache holds. */
  lemma {:induction false} SlotsDrain(op: Op, hw: Hw, ps: seq<Slot>, l: LineNo)
    requires op != Invalidate && NoRepeats(ps)
    ensures ApplySlots(op, hw, ps).mem[l] == Drained(hw, ps, l)
  {
    if ps == [] {
    } else {
      var n := |ps| - 1;
      var p, b := ps[n], ApplySlots(op, hw, ps[..n]);
      SlotsDrain(op, hw, ps[..n], l);
      SlotsKeepShape(op, hw, ps[..n]);
      assert p in b.cache <==> p in hw.cache by {
        assert p in b.cache.Keys <==> p in hw.cache.Keys;
      }
      if p in hw.cache {
        SlotsElsewhere(op, hw, ps[..n], p);
      }
    }
  }

  /** A whole-cache cleaning function leaves in main memory what draining every slot leaves. */
  lemma WholeDrains(inv: bool, hw: Hw, l: LineNo)
    ensures SweepAll(CleaningOp(inv), hw).mem[l] == Drained(hw, Sweep(hw.sets, hw.ways), l)
  {
    SweepExact(hw.sets, hw.ways);
    SlotsDrain(CleaningOp(inv), hw, Sweep(hw.sets, hw.ways), l);
  }

  /** With no line in two ways, draining writes back the one dirty holder. */
  lemma DrainedWhenTagged(hw: Hw, l: LineNo)
    requires Shaped(hw) && Tagged(hw)
    ensures Drained(hw, Sweep(hw.sets, hw.ways), l) == if DirtyLine(hw, l) then Latest(hw, l) else hw.mem[l]
  {
    WholeDrains(false, hw, l);
    SweepAllMaintains(Clean, hw);
    HolderInBlock(hw, {}, l);
    if Lookup(hw, l).Some? {
      LookupFinds(hw, l, Lookup(hw, l).value);
    }
  }

  /** No dirty entry differs from main memory of its line. */
  ghost predicate DirtyAgrees(hw: Hw) {
    forall p | p in hw.cache && hw.cache[p].valid && hw.cache[p].dirty :: hw.cache[p].data == hw.mem[hw.cache[p].line]
  }

  lemma {:induction false} AgreeingDrain(hw: Hw, ps: seq<Slot>, l: LineNo)
    requires DirtyAgrees(hw)
    ensures Drained(hw, ps, l) == hw.mem[l]
  {
    if ps == [] {
    } else {
      AgreeingDrain(hw, ps[..|ps| - 1], l);
    }
  }

  /** Every line drains to what main memory held of it. */
  ghost predicate DrainsToMemory(hw: Hw) {
    forall l: LineNo :: Drained(hw, Sweep(hw.sets, hw.ways), l) == hw.mem[l]
  }

  lemma AgreeingDrains(hw: Hw)
    requires DirtyAgrees(hw)
    ensures DrainsToMemory(hw)
  {
    forall l: LineNo ensures Drained(hw, Sweep(hw.sets, hw.ways), l) == hw.mem[l] {
      AgreeingDrain(hw, Sweep(hw.sets, hw.ways), l);
    }
  }

  lemma {:induction false} ScanSame(a: Hw, b: Hw, l: LineNo, n: nat)
    requires b.sets == a.sets && forall q :: Holds(b, q, l) <==> Holds(a, q, l)
    ensures Scan(b, l, n) == Scan(a, l, n)
  {
    if n == 0 {
    } else {
      ScanSame(a, b, l, n - 1);
    }
  }

  // ---- whole-cache functions ----

  /** With the cache off, in any state, cleaning all slots leaves main memory, which is what the CPU
      sees, as it was exactly when every line drains to what memory held. */
  lemma WholeKeepsMemoryIff(inv: bool, a: Hw)
    ensures SweepAll(CleaningOp(inv), a).mem == a.mem <==> DrainsToMemory(a)
  {
    var b := SweepAll(CleaningOp(inv), a);
    forall l: LineNo ensures b.mem[l] == Drained(a, Sweep(a.sets, a.ways), l) {
      WholeDrains(inv, a, l);
    }
    if DrainsToMemory(a) {
      assert forall l: LineNo :: b.mem[l] == a.mem[l];
    }
  }

  /** Cleaning all slots, in any state, leaves a cached access that hits seeing what it saw. */
  lemma CleanKeepsHits(a: Hw, l: LineNo)
    ensures var b := SweepAll(Clean, a);
            Lookup(b, l) == Lookup(a, l) && (Lookup(a, l).Some? ==> Latest(b, l) == Latest(a, l))
  {
    var ps, b := Sweep(a.sets, a.ways), SweepAll(Clean, a);
    SlotsKeepShape(Clean, a, ps);
    forall q ensures Holds(b, q, l) <==> Holds(a, q, l) {
      assert q in b.cache.Keys <==> q in a.cache.Keys;
      if q in a.cache {
        SlotsCleaned(a, ps, q);
      }
    }
    ScanSame(a, b, l, a.ways);
    if Lookup(a, l).Some? {
      SlotsCleaned(a, ps, Lookup(a, l).value);
    }
  }

  /** What the CPU sees of a line after a whole-cache cleaning function. */
  lemma WholeView(on: bool, inv: bool, a: Hw, l: LineNo)
    requires Shaped(a)
    ensures View(on, SweepAll(CleaningOp(inv), a), l)
         == if on && !inv && Lookup(a, l).Some? then Latest(a, l) else Drained(a, Sweep(a.sets, a.ways), l)
  {
    WholeDrains(inv, a, l);
    if inv {
      SweepAllKeepsShape(CleanInvalidate, a);
      SweepAllEmpties(CleanInvalidate, a);
      EmptyLookup(SweepAll(CleanInvalidate, a), l);
    } else {
      CleanKeepsHits(a, l);
    }
  }

  /** SCB_CleanDCache and SCB_CleanInvalidateDCache keep what the CPU sees of every line exactly
      when each line drains to it, or is one that a cached access hits and that is not invalidated. */
  lemma WholeKeepsViewIff(on: bool, inv: bool, a: Hw)
    requires Shaped(a)
    ensures (forall l: LineNo :: View(on, SweepAll(CleaningOp(inv), a), l) == View(on, a, l))
       <==> (forall l: LineNo :: (on && !inv && Lookup(a, l).Some?)
                                 || Drained(a, Sweep(a.sets, a.ways), l) == View(on, a, l))
  {
    forall l: LineNo
      ensures View(on, SweepAll(CleaningOp(inv), a), l)
           == if on && !inv && Lookup(a, l).Some? then Latest(a, l) else Drained(a, Sweep(a.sets, a.ways), l)
    {
      WholeView(on, inv, a, l);
    }
  }

  /** SCB_DisableDCache keeps what the CPU sees of every line exactly when each line drains to it. */
  lemma DisableKeepsViewIff(on: bool, a: Hw)
    requires Shaped(a)
    ensures (forall l: LineNo :: View(false, SweepAll(CleanInvalidate, a), l) == View(on, a, l))
       <==> (forall l: LineNo :: Drained(a, Sweep(a.sets, a.ways), l) == View(on, a, l))
  {
    forall l: LineNo
      ensures View(false, SweepAll(CleanInvalidate, a), l) == Drained(a, Sweep(a.sets, a.ways), l)
    {
      WholeView(false, true, a, l);
    }
  }

  /** With no line in two ways the condition on a line comes to this: with the cache on it is not
      stale, and with the cache off it is not dirty with other data than main memory holds. */
  lemma DrainedIsViewIff(on: bool, a: Hw, l: LineNo)
    requires Shaped(a) && Tagged(a)
    ensures Drained(a, Sweep(a.sets, a.ways), l) == View(on, a, l)
       <==> if on then !Stale(a, l) else DirtyLine(a, l) ==> Latest(a, l) == a.mem[l]
  {
    DrainedWhenTagged(a, l);
  }

  /** So with the cache on and no line in two ways SCB_CleanDCache always keeps what the CPU sees,
      and SCB_CleanInvalidateDCache does exactly when no line is stale. */
  lemma WholeKeepsViewWhenTaggedIff(on: bool, inv: bool, a: Hw)
    requires Shaped(a) && Tagged(a)
    ensures (forall l: LineNo :: View(on, SweepAll(CleaningOp(inv), a), l) == View(on, a, l))
       <==> (forall l: LineNo :: if on then inv ==> !Stale(a, l) else DirtyLine(a, l) ==> Latest(a, l) == a.mem[l])
  {
    WholeKeepsViewIff(on, inv, a);
    forall l: LineNo
      ensures Drained(a, Sweep(a.sets, a.ways), l) == View(on, a, l)
         <==> if on then !Stale(a, l) else DirtyLine(a, l) ==> Latest(a, l) == a.mem[l]
    {
      DrainedIsViewIff(on, a, l);
    }
  }

  /** SCB_InvalidateDCache keeps what the CPU sees with the cache off; with the cache on, exactly when
      every line found agrees with main memory. SCB_EnableDCache always does. */
  lemma InvalidateAllKeepsViewIff(on: bool, a: Hw)
    requires Shaped(a)
    ensures (forall l: LineNo :: View(on, SweepAll(Invalidate, a), l) == View(on, a, l))
       <==> (on ==> forall l: LineNo :: Latest(a, l) == a.mem[l])
    ensures forall l: LineNo :: View(true, SweepAll(Invalidate, a), l) == View(false, a, l)
  {
    var b := SweepAll(Invalidate, a);
    SweepAllEmpties(Invalidate, a);
    SweepAllKeepsShape(Invalidate, a);
    forall l: LineNo ensures View(on, b, l) == a.mem[l] && View(true, b, l) == a.mem[l] {
      EmptyLookup(b, l);
    }
  }

  // ---- calls by address ----

  /** States a and b agree on all that concerns line l: its memory, its holders, their contents. */
  ghost predicate SameFor(a: Hw, b: Hw, l: LineNo) {
    && b.sets == a.sets && b.ways == a.ways && b.mem[l] == a.mem[l]
    && (forall q :: Holds(b, q, l) <==> Holds(a, q, l))
    && (forall q | Holds(a, q, l) :: b.cache[q] == a.cache[q])
  }

  /** What a cached access sees of line l once the slot that look-up finds has been cleaned and
      invalidated: the holder in the next lower way if there is one, else main memory. */
  function Uncovered(a: Hw, l: LineNo): Line {
    match Lookup(a, l)
    case None => a.mem[l]
    case Some(p) =>
      match Scan(a, l, p.way)
      case Some(q) => a.cache[q].data
      case None => if a.cache[p].dirty then a.cache[p].data else a.mem[l]
  }

  lemma SameViews(a: Hw, b: Hw, l: LineNo)
    requires SameFor(a, b, l)
    ensures Lookup(b, l) == Lookup(a, l) && Latest(b, l) == Latest(a, l)
    ensures Uncovered(b, l) == Uncovered(a, l) && DirtyLine(b, l) == DirtyLine(a, l)
  {
    ScanSame(a, b, l, a.ways);
    if Lookup(a, l).Some? {
      ScanSame(a, b, l, Lookup(a, l).value.way);
    }
  }

  /** Maintenance of one line concerns no other line. */
  lemma OtherLine(op: Op, a: Hw, k: LineNo, l: LineNo)
    requires l != k
    ensures SameFor(a, ApplyLine(op, a, k), l)
  {}

  /** Look-up stops at the highest way that holds the line. */
  lemma {:induction false} ScanStops(a: Hw, l: LineNo, n: nat)
    ensures match Scan(a, l, n)
            case Some(p) =>
              && p.index == l % a.sets && p.way < n
              && forall w: nat | p.way < w < n :: !Holds(a, Slot(l % a.sets, w), l)
            case None => true
  {
    if n == 0 {
    } else {
      ScanStops(a, l, n - 1);
    }
  }

  lemma {:induction false} ScanBelow(a: Hw, b: Hw, l: LineNo, p: Slot, n: nat)
    requires b.sets == a.sets && n <= p.way
    requires forall q | q != p :: Holds(b, q, l) <==> Holds(a, q, l)
    ensures Scan(b, l, n) == Scan(a, l, n)
  {
    if n == 0 {
    } else {
      ScanBelow(a, b, l, p, n - 1);
    }
  }

  lemma {:induction false} ScanPast(a: Hw, b: Hw, l: LineNo, p: Slot, n: nat)
    requires b.sets == a.sets && p.index == l % a.sets && p.way <= n
    requires forall q | q != p :: Holds(b, q, l) <==> Holds(a, q, l)
    requires forall w: nat | p.way <= w < n :: !Holds(b, Slot(l % a.sets, w), l)
    ensures Scan(b, l, n) == Scan(a, l, p.way)
  {
    if n == p.way {
      ScanBelow(a, b, l, p, n);
    } else {
      ScanPast(a, b, l, p, n - 1);
    }
  }

  /** Cleaning one line by address, whatever the cache holds. */
  lemma ThisLine(inv: bool, a: Hw, l: LineNo)
    ensures var b := ApplyLine(CleaningOp(inv), a, l);
            && b.mem[l] == (if DirtyLine(a, l) then Latest(a, l) else a.mem[l])
            && Latest(b, l) == if inv then Uncovered(a, l) else Latest(a, l)
  {
    var b := ApplyLine(CleaningOp(inv), a, l);
    match Lookup(a, l) {
      case None =>
      case Some(p) =>
        ScanStops(a, l, a.ways);
        if inv {
          ScanPast(a, b, l, p, a.ways);
        } else {
          ScanSame(a, b, l, a.ways);
        }
    }
  }

  /** Cleaning distinct lines by address treats each of them by itself, whatever the cache holds. */
  lemma {:induction false} LinesDrain(inv: bool, hw: Hw, ls: seq<LineNo>, l: LineNo)
    requires NoRepeats(ls)
    ensures var b := ApplyLines(CleaningOp(inv), hw, ls);
            if l in ls then
              && b.mem[l] == (if DirtyLine(hw, l) then Latest(hw, l) else hw.mem[l])
              && Latest(b, l) == (if inv then Uncovered(hw, l) else Latest(hw, l))
            else SameFor(hw, b, l)
  {
    if ls == [] {
    } else {
      var op, n := CleaningOp(inv), |ls| - 1;
      var k, b := ls[n], ApplyLines(op, hw, ls[..n]);
      assert ls == ls[..n] + [k];
      LinesDrain(inv, hw, ls[..n], l);
      if l == k {
        assert l !in ls[..n];
        SameViews(hw, b, l);
        ThisLine(inv, b, l);
      } else {
        OtherLine(op, b, k, l);
        SameViews(b, ApplyLine(op, b, k), l);
      }
    }
  }

  lemma RangeDrains(inv: bool, a: Hw, addr: Word, n: Int32, l: LineNo)
    ensures var b := SweepRange(CleaningOp(inv), a, addr, n);
            && b.mem[l] == (if l in Block(addr, n) && DirtyLine(a, l) then Latest(a, l) else a.mem[l])
            && Latest(b, l) == (if l in Block(addr, n) && inv then Uncovered(a, l) else Latest(a, l))
  {
    if n > 0 {
      RunCoversExactly(addr, n);
      LinesDrain(inv, a, LineRun(addr, LineCount(addr, n)), l);
      if l !in Block(addr, n) {
        SameViews(a, SweepRange(CleaningOp(inv), a, addr, n), l);
      }
    }
  }

  /** SCB_CleanDCache_by_Addr and SCB_CleanInvalidateDCache_by_Addr, in any state, keep what the CPU
      sees of every line exactly when, on the lines of the block, invalidation uncovers nothing new
      (cache on), or the dirty data found agree with main memory (cache off). */
  lemma RangeKeepsViewIff(on: bool, inv: bool, a: Hw, addr: Word, n: Int32)
    ensures (forall l: LineNo :: View(on, SweepRange(CleaningOp(inv), a, addr, n), l) == View(on, a, l))
       <==> (forall l: LineNo | l in Block(addr, n) ::
               if on then inv ==> Uncovered(a, l) == Latest(a, l) else DirtyLine(a, l) ==> Latest(a, l) == a.mem[l])
  {
    var b := SweepRange(CleaningOp(inv), a, addr, n);
    forall l: LineNo
      ensures View(on, b, l) == View(on, a, l)
         <==> (l in Block(addr, n) ==>
                 if on then inv ==> Uncovered(a, l) == Latest(a, l)
                 else DirtyLine(a, l) ==> Latest(a, l) == a.mem[l])
    {
      RangeDrains(inv, a, addr, n, l);
    }
  }

  /** With no line in two ways, invalidation uncovers something new exactly of a stale line. */
  lemma UncoveredIsLatestIff(a: Hw, l: LineNo)
    requires Shaped(a) && Tagged(a)
    ensures Uncovered(a, l) == Latest(a, l) <==> !Stale(a, l)
  {
    match Lookup(a, l) {
      case None =>
      case Some(p) =>
        ScanStops(a, l, p.way);
        LookupFinds(a, l, p);
    }
  }

  // ---- before the cache is set up ----

  /** Before the cache has been enabled or invalidated, SCB_CleanDCache and
      SCB_CleanInvalidateDCache keep the machine coherent exactly when every line drains to what
      memory held. */
  lemma CleaningUnsettledIff(s: Sys, inv: bool, flat: Memory)
    requires Coherent(s, flat) && !s.settled
    ensures Coherent(Step(s, MaintainAll(inv)), flat) <==> DrainsToMemory(s.hw)
  {
    WholeKeepsMemoryIff(inv, s.hw);
    SweepAllKeepsShape(CleaningOp(inv), s.hw);
  }

  /** So does SCB_DisableDCache. */
  lemma DisableUnsettledIff(s: Sys, flat: Memory)
    requires Coherent(s, flat) && !s.settled
    ensures Coherent(Step(s, Disable), flat) <==> DrainsToMemory(s.hw)
  {
    WholeKeepsMemoryIff(true, s.hw);
    SweepAllKeepsShape(CleanInvalidate, s.hw);
  }

  lemma RangeKeepsMemoryIff(inv: bool, a: Hw, addr: Word, n: Int32)
    ensures SweepRange(CleaningOp(inv), a, addr, n).mem == a.mem
       <==> (forall l: LineNo | l in Block(addr, n) :: DirtyLine(a, l) ==> Latest(a, l) == a.mem[l])
  {
    var b := SweepRange(CleaningOp(inv), a, addr, n);
    forall l: LineNo
      ensures b.mem[l] == if l in Block(addr, n) && DirtyLine(a, l) then Latest(a, l) else a.mem[l]
    {
      RangeDrains(inv, a, addr, n, l);
    }
    if forall l: LineNo | l in Block(addr, n) :: DirtyLine(a, l) ==> Latest(a, l) == a.mem[l] {
      assert forall l: LineNo :: b.mem[l] == a.mem[l];
    }
  }

  lemma RangeKeepsShape(op: Op, hw: Hw, addr: Word, n: Int32)
    requires Shaped(hw)
    ensures Shaped(SweepRange(op, hw, addr, n))
  {
    if n > 0 {
      LinesKeepShape(op, hw, LineRun(addr, LineCount(addr, n)));
      SameShape(hw, SweepRange(op, hw, addr, n));
    }
  }

  /** So does a cleaning call by address, exactly when the dirty data it finds agree with memory. */
  lemma RangeCleaningUnsettledIff(s: Sys, inv: bool, addr: Word, n: Int32, flat: Memory)
    requires Coherent(s, flat) && !s.settled
    ensures Coherent(Step(s, MaintainRange(inv, addr, n)), flat)
       <==> (forall l: LineNo | l in Block(addr, n) :: DirtyLine(s.hw, l) ==> Latest(s.hw, l) == s.hw.mem[l])
  {
    RangeKeepsMemoryIff(inv, s.hw, addr, n);
    RangeKeepsShape(CleaningOp(inv), s.hw, addr, n);
  }

  const ONES: Line := seq(LINE_SIZE, _ => 1)
  const ZEROS: Memory := seq<Line>(LINES, _ => ZERO_LINE)

  /** One slot, valid and dirty, over a memory of zeros. */
  const DIRTY_AT_POWER_UP: Hw := Hw(1, 1, ZEROS, map[Slot(0, 0) := Entry(true, true, 0, ONES)])

  lemma PowerUpWritesBack(inv: bool)
    ensures Shaped(DIRTY_AT_POWER_UP)
    ensures SweepAll(CleaningOp(inv), DIRTY_AT_POWER_UP).mem[0] == ONES
    ensures SweepRange(CleaningOp(inv), DIRTY_AT_POWER_UP, 0, 32).mem[0] == ONES
  {
    var hw := DIRTY_AT_POWER_UP;
    LookupFinds(hw, 0, Slot(0, 0));
    WholeDrains(inv, hw, 0);
    DrainedWhenTagged(hw, 0);
    RangeDrains(inv, hw, 0, 32, 0);
    BlockHasItsBytes(0, 32, 0);
  }

  /** A power-up state that fails the conditions: cleaning before enabling, the whole cache or a
      block, changes what the CPU loads. */
  lemma CleaningBeforeEnableCorrupts(inv: bool)
    ensures var s := Sys(false, false, DIRTY_AT_POWER_UP, {});
            && Coherent(s, s.hw.mem)
            && Output(Step(s, MaintainAll(inv)), Load(0)) != Output(s, Load(0))
            && Output(Step(s, MaintainRange(inv, 0, 32)), Load(0)) != Output(s, Load(0))
  {
    PowerUpWritesBack(inv);
    assert ONES[0] != ZERO_LINE[0];
  }

  /** With a line in two ways it is not enough that the copy look-up finds agrees with memory: the
      nest writes back both, and the one in the lower way last. */
  lemma DuplicatesDrainInOrder()
    ensures var hw := Hw(1, 2, ZEROS, map[Slot(0, 0) := Entry(true, true, 0, ONES),
                                          Slot(0, 1) := Entry(true, true, 0, ZERO_LINE)]);
            && Shaped(hw) && !Tagged(hw)
            && (forall l: LineNo :: DirtyLine(hw, l) ==> Latest(hw, l) == hw.mem[l])
            && SweepAll(CleanInvalidate, hw).mem[0] != hw.mem[0]
  {
    var hw := Hw(1, 2, ZEROS, map[Slot(0, 0) := Entry(true, true, 0, ONES),
                                  Slot(0, 1) := Entry(true, true, 0, ZERO_LINE)]);
    assert Holds(hw, Slot(0, 0), 0) && Holds(hw, Slot(0, 1), 0);
    WholeDrains(true, hw, 0);
    assert Sweep(1, 2) == [Slot(0, 1), Slot(0, 0)] by {
      assert WaySlots(0, 2) == [Slot(0, 1)] + WaySlots(0, 1);
    }
    assert ONES[0] != ZERO_LINE[0];
  }
}
