/** SCB_EnableDCache, SCB_InvalidateDCache and SCB_DisableDCache while the machine does not stand
    still. Their nests run with the cache off, so nothing is filled or evicted, but the CPU and the
    bus master go on. */
module Switching {
  import opened Word32
  import opened CacheModel
  import opened Registers
  import opened Traces
  import opened Maintenance
  import opened Sweeps
  import opened HandOff
  import opened Coherence
  import opened Interleaving

  ghost predicate NoNewLines(a: Hw, b: Hw) {
    forall p | p in b.cache && b.cache[p].valid :: p in a.cache && a.cache[p].valid
  }

  /** The slot that a set/way write names holds nothing. */
  ghost predicate Emptied(hw: Hw, w: RegWrite) {
    w.SetWay? && SlotOf(w.word) in hw.cache ==> !hw.cache[SlotOf(w.word)].valid
  }

  lemma WriteEmpties(op: Op, a: Hw, p: Slot)
    requires op != Clean
    ensures var b := Apply(op, a, p);
            NoNewLines(a, b) && (p in b.cache ==> !b.cache[p].valid)
  {}

  lemma OffFillsNothing(s: Sys, e: Event)
    requires !s.on && !IsCall(e) && Permitted(s, e)
    ensures NoNewLines(s.hw, Step(s, e).hw)
  {}

  lemma NothingHeld(hw: Hw, op: Op)
    requires Shaped(hw) && Fits(hw)
    requires forall w | w in SweepWrites(op, hw.sets, hw.ways) :: Emptied(hw, w)
    ensures Empty(hw)
  {
    forall p | p in hw.cache ensures !hw.cache[p].valid {
      SweepReachesAll(op, hw.sets, hw.ways, p);
      var ws := SweepWrites(op, hw.sets, hw.ways);
      var k :| 0 <= k < |ws| && ws[k].SetWay? && SlotOf(ws[k].word) == p;
      assert Emptied(hw, ws[k]);
    }
  }

  /** An empty cache over the flat memory is coherent, on or off. */
  lemma EmptyIsCoherent(t: Sys, flat: Memory)
    requires Shaped(t.hw) && Empty(t.hw) && t.hw.mem == flat && t.settled
    ensures Coherent(t, flat)
  {
    EmptyLookup(t.hw, 0);
    forall l: LineNo ensures LineCoherent(t.hw, t.dma, flat, l) {
      EmptyLookup(t.hw, l);
    }
  }

  // ---- SCB_EnableDCache and SCB_InvalidateDCache ----

  lemma OffIsCurrent(s: Sys, flat: Memory)
    requires Coherent(s, flat) && !s.on
    ensures s.hw.mem == flat
  {
    if s.settled {
      forall l: LineNo ensures s.hw.mem[l] == flat[l] {
        EmptyLookup(s.hw, l);
        assert LineCoherent(s.hw, s.dma, flat, l);
      }
    }
  }

  lemma OffWrite(s: Sys, p: Slot, flat: Memory)
    requires Coherent(s, flat) && !s.on
    ensures var t := s.(hw := Apply(Invalidate, s.hw, p)); Coherent(t, flat)
  {
    var t := s.(hw := Apply(Invalidate, s.hw, p));
    OffIsCurrent(s, flat);
    if s.settled {
      EmptyIsCoherent(t, flat);
    }
  }

  lemma {:induction false} EmptyingRun(s: Sys, call: Event, ms: seq<Micro>, flat: Memory)
    requires Coherent(s, flat) && !s.on && MicroAllowed(s, call, ms)
    requires forall w | w in Written(ms) :: w.SetWay? && w.op == Invalidate
    ensures var t := MicroRun(s, ms);
            && Coherent(t, FlatMicro(flat, ms)) && SameFrame(s, t) && NoNewLines(s.hw, t.hw)
            && forall w | w in Written(ms) :: Emptied(t.hw, w)
    ensures MicroOutputs(s, ms) == FlatMicroOutputs(flat, ms)
    decreases ms
  {
    if ms == [] {
    } else {
      var u := MicroStep(s, ms[0]);
      match ms[0] {
        case Register(w) =>
          assert w in Written(ms);
          WriteFrame(s, w);
          WriteEmpties(Invalidate, s.hw, SlotOf(w.word));
          OffWrite(s, SlotOf(w.word), flat);
          EmptyingRun(u, call, ms[1..], flat);
        case Background(e) =>
          BackgroundKeeps(s, e, flat);
          OffFillsNothing(s, e);
          EmptyingRun(u, call, ms[1..], FlatStep(flat, e));
      }
    }
  }

  /** SCB_EnableDCache of a cache that is off, or SCB_InvalidateDCache, interleaved, from power-up or
      later: the cache ends empty and main memory current, so that it may be turned on. */
  lemma EmptyingInterleaved(s: Sys, call: Event, ms: seq<Micro>, flat: Memory)
    requires Coherent(s, flat) && !s.on && Fits(s.hw) && MicroAllowed(s, call, ms)
    requires Written(ms) == SweepWrites(Invalidate, s.hw.sets, s.hw.ways)
    ensures var t, m := MicroRun(s, ms), FlatMicro(flat, ms);
            && SameFrame(s, t) && Empty(t.hw) && t.hw.mem == m
            && forall on :: Coherent(t.(on := on, settled := true), m)
    ensures MicroOutputs(s, ms) == FlatMicroOutputs(flat, ms)
  {
    var t, m := MicroRun(s, ms), FlatMicro(flat, ms);
    SweepWritesAre(Invalidate, s.hw.sets, s.hw.ways);
    EmptyingRun(s, call, ms, flat);
    NothingHeld(t.hw, Invalidate);
    OffIsCurrent(t, m);
    forall on ensures Coherent(t.(on := on, settled := true), m) {
      EmptyIsCoherent(t.(on := on, settled := true), m);
    }
  }

  // ---- SCB_DisableDCache ----

  /** Line l is current in main memory once it has been cleaned, and is none of the bus master's if
      it has to be. */
  predicate LineDrains(hw: Hw, dma: set<LineNo>, flat: Memory, l: LineNo) {
    match Lookup(hw, l)
    case Some(p) => if hw.cache[p].dirty then l !in dma && hw.cache[p].data == flat[l] else hw.mem[l] == flat[l]
    case None => hw.mem[l] == flat[l]
  }

  /** The machine between the clearing of DC and the end of the nest. */
  ghost predicate Clearing(s: Sys, flat: Memory) {
    && !s.on && Shaped(s.hw) && Tagged(s.hw)
    && forall l: LineNo :: LineDrains(s.hw, s.dma, flat, l)
  }

  lemma ClearingStarts(s: Sys, flat: Memory)
    requires Coherent(s, flat) && s.settled
    ensures Clearing(s.(on := false), flat)
  {
    forall l: LineNo ensures LineDrains(s.hw, s.dma, flat, l) {
      assert LineCoherent(s.hw, s.dma, flat, l);
    }
  }

  lemma ClearingWrite(s: Sys, p: Slot, flat: Memory)
    requires Clearing(s, flat)
    ensures Clearing(s.(hw := Apply(CleanInvalidate, s.hw, p)), flat)
  {
    var h := Apply(CleanInvalidate, s.hw, p);
    MaintainSingle(CleanInvalidate, s.hw, p);
    MaintainedTagged(CleanInvalidate, s.hw, {p}, h);
    forall l: LineNo ensures LineDrains(h, s.dma, flat, l) {
      assert LineDrains(s.hw, s.dma, flat, l);
      LookupAfter(CleanInvalidate, s.hw, {p}, h, l);
      if Lookup(s.hw, l).Some? {
        LookupFinds(s.hw, l, Lookup(s.hw, l).value);
      }
    }
  }

  /** A store that goes to main memory behind the cache that is being cleared. */
  lemma ClearingPoke(s: Sys, a: Word, v: Byte, flat: Memory)
    requires Clearing(s, flat)
    ensures Clearing(s.(hw := s.hw.(mem := Poke(s.hw.mem, a, v))), Poke(flat, a, v))
       <==> (DirtyLine(s.hw, LineOf(a)) ==> Peek(flat, a) == v)
  {
    var h, m, line := s.hw.(mem := Poke(s.hw.mem, a, v)), Poke(flat, a, v), LineOf(a);
    MemoryOnly(s.hw, h);
    assert LineDrains(s.hw, s.dma, flat, line);
    assert m[line][a % LINE_SIZE] == v;
    if DirtyLine(s.hw, line) ==> Peek(flat, a) == v {
      forall l: LineNo ensures LineDrains(h, s.dma, m, l) {
        assert LineDrains(s.hw, s.dma, flat, l);
        if DirtyLine(s.hw, line) {
          assert PokeLine(flat[line], a, v) == flat[line];
        }
      }
    } else {
      assert !LineDrains(h, s.dma, m, line);
    }
  }

  /** While SCB_DisableDCache clears the cache, a CPU store does what it should in the end exactly
      when its line is not dirty or already held that byte. */
  lemma ClearingStoreIff(s: Sys, a: Word, v: Byte, through: bool, flat: Memory)
    requires Clearing(s, flat)
    ensures Clearing(Step(s, Store(a, v, through)), Poke(flat, a, v))
       <==> (DirtyLine(s.hw, LineOf(a)) ==> Peek(flat, a) == v)
  {
    ClearingPoke(s, a, v, flat);
  }

  /** A CPU load returns what it should exactly when its line is not dirty or memory has the byte. */
  lemma ClearingLoadIff(s: Sys, a: Word, flat: Memory)
    requires Clearing(s, flat)
    ensures Output(s, Load(a)) == FlatOutput(flat, Load(a))
       <==> (DirtyLine(s.hw, LineOf(a)) ==> Peek(s.hw.mem, a) == Peek(flat, a))
  {
    assert LineDrains(s.hw, s.dma, flat, LineOf(a));
  }

  /** So a CPU load of a line that is not dirty, or a read by the bus master, is right. */
  lemma ClearingReads(s: Sys, e: Event, flat: Memory)
    requires Clearing(s, flat) && Passes(s, Disable, e)
    ensures Output(s, e) == FlatOutput(flat, e)
  {
    if e.Load? {
      ClearingLoadIff(s, e.addr, flat);
    } else if e.MasterRead? {
      assert LineDrains(s.hw, s.dma, flat, LineOf(e.addr));
    }
  }

  lemma ClearingStep(s: Sys, e: Event, flat: Memory)
    requires Clearing(s, flat) && Passes(s, Disable, e)
    ensures Clearing(Step(s, e), FlatStep(flat, e))
  {
    if e.Store? || e.MasterWrite? {
      assert LineDrains(s.hw, s.dma, flat, LineOf(e.addr));
      ClearingPoke(s, e.addr, e.v, flat);
    }
  }

  lemma {:induction false} ClearingRun(s: Sys, ms: seq<Micro>, flat: Memory)
    requires Clearing(s, flat) && MicroAllowed(s, Disable, ms)
    requires forall w | w in Written(ms) :: w.SetWay? && w.op == CleanInvalidate
    ensures var t := MicroRun(s, ms);
            && Clearing(t, FlatMicro(flat, ms)) && SameFrame(s, t) && NoNewLines(s.hw, t.hw)
            && forall w | w in Written(ms) :: Emptied(t.hw, w)
    ensures MicroOutputs(s, ms) == FlatMicroOutputs(flat, ms)
    decreases ms
  {
    if ms == [] {
    } else {
      var u := MicroStep(s, ms[0]);
      match ms[0] {
        case Register(w) =>
          assert w in Written(ms);
          WriteFrame(s, w);
          WriteEmpties(CleanInvalidate, s.hw, SlotOf(w.word));
          ClearingWrite(s, SlotOf(w.word), flat);
          ClearingRun(u, ms[1..], flat);
        case Background(e) =>
          ClearingReads(s, e, flat);
          ClearingStep(s, e, flat);
          BackgroundFrame(s, e);
          OffFillsNothing(s, e);
          ClearingRun(u, ms[1..], FlatStep(flat, e));
      }
    }
  }

  /** SCB_DisableDCache, interleaved with CPU accesses to lines that are not dirty and with the bus
      master's: the cache ends empty and main memory is the flat memory. */
  lemma DisableInterleaved(s: Sys, ms: seq<Micro>, flat: Memory)
    requires Coherent(s, flat) && s.settled && Fits(s.hw) && MicroAllowed(s.(on := false), Disable, ms)
    requires Written(ms) == SweepWrites(CleanInvalidate, s.hw.sets, s.hw.ways)
    ensures var t, m := MicroRun(s.(on := false), ms), FlatMicro(flat, ms);
            && Coherent(t, m) && SameFrame(s.(on := false), t) && Empty(t.hw) && t.hw.mem == m
    ensures MicroOutputs(s.(on := false), ms) == FlatMicroOutputs(flat, ms)
  {
    var t, m := MicroRun(s.(on := false), ms), FlatMicro(flat, ms);
    SweepWritesAre(CleanInvalidate, s.hw.sets, s.hw.ways);
    ClearingStarts(s, flat);
    ClearingRun(s.(on := false), ms, flat);
    NothingHeld(t.hw, CleanInvalidate);
    forall l: LineNo ensures t.hw.mem[l] == m[l] {
      assert LineDrains(t.hw, t.dma, m, l);
      EmptyLookup(t.hw, l);
    }
    EmptyIsCoherent(t, m);
  }
}
