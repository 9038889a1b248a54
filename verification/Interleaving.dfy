/** The SCB functions while the machine does not stand still: between any two of their register
    writes the cache may fill, evict and write back lines, and the CPU and the bus master may read
    and write. */
module Interleaving {
  import opened Word32
  import opened CacheModel
  import opened Registers
  import opened Traces
  import opened Maintenance
  import opened Sweeps
  import opened HandOff
  import opened Coherence

  datatype Micro = Register(w: RegWrite) | Background(e: Event)

  predicate IsCall(e: Event) {
    e.Enable? || e.Disable? || e.InvalidateAll? || e.MaintainAll? || e.MaintainRange? || e.Give? || e.Take?
  }

  /** A store that may leave its line dirty. */
  predicate Dirties(e: Event) {
    e.Store? && !e.through
  }

  /** What may happen during a call, besides what the discipline asks for. A block on its way to the
      bus master is not made dirty again, and one on its way back is no longer written by the bus
      master. Once SCB_DisableDCache has cleared DC the cache is off and may hold what memory does
      not: the CPU then keeps away from dirty lines. */
  ghost predicate Passes(s: Sys, call: Event, e: Event) {
    && !IsCall(e) && Permitted(s, e)
    && match call
       case Give(_, a, n) => Dirties(e) ==> LineOf(e.addr) !in Block(a, n)
       case Take(a, n) => e.MasterWrite? ==> LineOf(e.addr) !in Block(a, n)
       case Disable => !s.on && (e.Load? || e.Store?) ==> !DirtyLine(s.hw, LineOf(e.addr))
       case _ => true
  }

  /** Turning the cache on makes what it holds count from then on. */
  ghost function RegisterStep(s: Sys, w: RegWrite): Sys {
    match w
    case Ccr(dc) => s.(on := dc, settled := s.settled || dc)
    case _ => s.(hw := Perform1(s.hw, w))
  }

  ghost function MicroStep(s: Sys, m: Micro): Sys {
    match m
    case Register(w) => RegisterStep(s, w)
    case Background(e) => Step(s, e)
  }

  ghost function MicroRun(s: Sys, ms: seq<Micro>): Sys
    decreases ms
  {
    if ms == [] then s else MicroRun(MicroStep(s, ms[0]), ms[1..])
  }

  ghost predicate MicroAllowed(s: Sys, call: Event, ms: seq<Micro>)
    decreases ms
  {
    ms != [] ==>
      (ms[0].Background? ==> Passes(s, call, ms[0].e)) && MicroAllowed(MicroStep(s, ms[0]), call, ms[1..])
  }

  function FlatMicroStep(flat: Memory, m: Micro): Memory {
    match m
    case Register(_) => flat
    case Background(e) => FlatStep(flat, e)
  }

  function FlatMicro(flat: Memory, ms: seq<Micro>): Memory
    decreases ms
  {
    if ms == [] then flat else FlatMicro(FlatMicroStep(flat, ms[0]), ms[1..])
  }

  /** The register writes among the steps, in order. */
  function Written(ms: seq<Micro>): seq<RegWrite> {
    if ms == [] then []
    else (if ms[0].Register? then [ms[0].w] else []) + Written(ms[1..])
  }

  ghost function DirtiedBy(m: Micro): set<LineNo> {
    if m.Background? && Dirties(m.e) then {LineOf(m.e.addr)} else {}
  }

  /** The lines that stores among the steps may leave dirty. */
  ghost function Dirtied(ms: seq<Micro>): set<LineNo> {
    if ms == [] then {} else DirtiedBy(ms[0]) + Dirtied(ms[1..])
  }

  ghost function MicroOutput(s: Sys, m: Micro): Option<Byte> {
    match m
    case Register(_) => None
    case Background(e) => Output(s, e)
  }

  ghost function MicroOutputs(s: Sys, ms: seq<Micro>): seq<Option<Byte>>
    decreases ms
  {
    if ms == [] then [] else [MicroOutput(s, ms[0])] + MicroOutputs(MicroStep(s, ms[0]), ms[1..])
  }

  function FlatMicroOutput(flat: Memory, m: Micro): Option<Byte> {
    match m
    case Register(_) => None
    case Background(e) => FlatOutput(flat, e)
  }

  function FlatMicroOutputs(flat: Memory, ms: seq<Micro>): seq<Option<Byte>>
    decreases ms
  {
    if ms == [] then []
    else [FlatMicroOutput(flat, ms[0])] + FlatMicroOutputs(FlatMicroStep(flat, ms[0]), ms[1..])
  }

  ghost predicate SameFrame(s: Sys, t: Sys) {
    && t.on == s.on && t.settled == s.settled && t.dma == s.dma
    && t.hw.sets == s.hw.sets && t.hw.ways == s.hw.ways && t.hw.cache.Keys == s.hw.cache.Keys
  }

  lemma BackgroundFrame(s: Sys, e: Event)
    requires !IsCall(e) && Permitted(s, e)
    ensures SameFrame(s, Step(s, e))
  {}

  lemma WriteFrame(s: Sys, w: RegWrite)
    requires !w.Ccr?
    ensures SameFrame(s, MicroStep(s, Register(w)))
  {}

  // ---- one step of a cleaning call ----

  ghost predicate DirtySlot(hw: Hw, p: Slot) {
    p in hw.cache && hw.cache[p].valid && hw.cache[p].dirty
  }

  /** Every dirty slot of b was dirty in a with the same line, or holds a line of ls. */
  ghost predicate DirtOnly(a: Hw, b: Hw, ls: set<LineNo>) {
    forall p | DirtySlot(b, p) ::
      b.cache[p].line in ls || (DirtySlot(a, p) && a.cache[p].line == b.cache[p].line)
  }

  lemma BackgroundDirt(s: Sys, e: Event)
    requires !IsCall(e) && Permitted(s, e)
    ensures DirtOnly(s.hw, Step(s, e).hw, DirtiedBy(Background(e)))
  {}

  predicate Cleans(w: RegWrite, op: Op) {
    op != Invalidate &&
    match w
    case SetWay(o, _) => o == op
    case ByAddress(t, _) => t == DataLine(op)
    case Ccr(_) => false
  }

  /** What a cleaning write is for: its slot, or its line, is not dirty, but for lines of ls. */
  ghost predicate Done(hw: Hw, w: RegWrite, ls: set<LineNo>) {
    match w
    case SetWay(_, word) => DirtySlot(hw, SlotOf(word)) ==> hw.cache[SlotOf(word)].line in ls
    case ByAddress(_, a) => DirtyLine(hw, LineOf(a)) ==> LineOf(a) in ls
    case Ccr(_) => true
  }

  lemma DoneStays(a: Hw, b: Hw, w: RegWrite, ls: set<LineNo>)
    requires Shaped(a) && Tagged(a) && Shaped(b) && Tagged(b)
    requires DirtOnly(a, b, ls) && Done(a, w, {})
    ensures Done(b, w, ls)
  {
    if w.ByAddress? && DirtyLine(b, LineOf(w.addr)) {
      LookupFinds(a, LineOf(w.addr), Lookup(b, LineOf(w.addr)).value);
    }
  }

  lemma SlotCleaned(s: Sys, op: Op, p: Slot, flat: Memory)
    requires Coherent(s, flat) && s.settled && op != Invalidate
    ensures var t := s.(hw := Apply(op, s.hw, p));
            Coherent(t, flat) && DirtOnly(s.hw, t.hw, {}) && !DirtySlot(t.hw, p)
  {
    MaintainSingle(op, s.hw, p);
    CleaningKeepsCoherence(op, s.hw, {p}, Apply(op, s.hw, p), s.dma, flat);
  }

  lemma LineCleaned(op: Op, a: Hw, l: LineNo)
    requires Shaped(a) && Tagged(a) && op != Invalidate
    ensures !DirtyLine(ApplyLine(op, a, l), l)
  {
    if Lookup(a, l).Some? {
      var p := Lookup(a, l).value;
      MaintainSingle(op, a, p);
      LookupAfter(op, a, {p}, Apply(op, a, p), l);
    }
  }

  lemma CleaningWrite(s: Sys, w: RegWrite, op: Op, flat: Memory)
    requires Coherent(s, flat) && s.settled && Cleans(w, op)
    ensures var t := MicroStep(s, Register(w));
            Coherent(t, flat) && SameFrame(s, t) && DirtOnly(s.hw, t.hw, {}) && Done(t.hw, w, {})
  {
    WriteFrame(s, w);
    match w {
      case SetWay(_, word) =>
        SlotCleaned(s, op, SlotOf(word), flat);
      case ByAddress(_, a) =>
        LineCleaned(op, s.hw, LineOf(a));
        if Lookup(s.hw, LineOf(a)).Some? {
          SlotCleaned(s, op, Lookup(s.hw, LineOf(a)).value, flat);
        }
    }
  }

  lemma BackgroundKeeps(s: Sys, e: Event, flat: Memory)
    requires Coherent(s, flat) && !IsCall(e) && Permitted(s, e)
    ensures var t := Step(s, e);
            Coherent(t, FlatStep(flat, e)) && SameFrame(s, t) && DirtOnly(s.hw, t.hw, DirtiedBy(Background(e)))
    ensures Output(s, e) == FlatOutput(flat, e)
  {
    OutputsAgree(s, e, flat);
    StepKeepsCoherence(s, e, flat);
    BackgroundFrame(s, e);
    BackgroundDirt(s, e);
  }

  lemma CleaningStep(s: Sys, call: Event, op: Op, m: Micro, flat: Memory)
    requires Coherent(s, flat) && s.settled
    requires match m case Register(w) => Cleans(w, op) case Background(e) => Passes(s, call, e)
    ensures var u := MicroStep(s, m);
            && Coherent(u, FlatMicroStep(flat, m)) && SameFrame(s, u)
            && DirtOnly(s.hw, u.hw, DirtiedBy(m)) && (m.Register? ==> Done(u.hw, m.w, {}))
    ensures MicroOutput(s, m) == FlatMicroOutput(flat, m)
  {
    match m {
      case Register(w) => CleaningWrite(s, w, op, flat);
      case Background(e) => BackgroundKeeps(s, e, flat);
    }
  }

  // ---- cleaning calls ----

  /** However cleaning writes are interleaved with what passes, the machine stays coherent, every
      read agrees with the flat memory, and what was cleaned stays clean, but for lines that are
      stored to meanwhile. */
  lemma {:induction false} CleaningRun(s: Sys, call: Event, op: Op, ms: seq<Micro>, flat: Memory)
    requires Coherent(s, flat) && s.settled && MicroAllowed(s, call, ms)
    requires forall w | w in Written(ms) :: Cleans(w, op)
    ensures var t := MicroRun(s, ms);
            && Coherent(t, FlatMicro(flat, ms)) && SameFrame(s, t)
            && DirtOnly(s.hw, t.hw, Dirtied(ms))
            && forall w | w in Written(ms) :: Done(t.hw, w, Dirtied(ms))
    ensures MicroOutputs(s, ms) == FlatMicroOutputs(flat, ms)
    decreases ms
  {
    if ms == [] {
    } else {
      var m, u := ms[0], MicroStep(s, ms[0]);
      assert m.Register? ==> m.w in Written(ms);
      CleaningStep(s, call, op, m, flat);
      CleaningRun(u, call, op, ms[1..], FlatMicroStep(flat, m));
      if m.Register? {
        DoneStays(u.hw, MicroRun(s, ms).hw, m.w, Dirtied(ms[1..]));
      }
    }
  }

  ghost predicate Fits(hw: Hw) {
    hw.sets <= 512 && hw.ways <= 4
  }

  lemma SweepWritesAre(op: Op, n: nat, ways: nat)
    requires n <= 512 && ways <= 4
    ensures forall w | w in SweepWrites(op, n, ways) :: w.SetWay? && w.op == op
  {
    SweepWritesName(op, n, ways);
  }

  lemma CleanExcept(hw: Hw, op: Op, ls: set<LineNo>, l: LineNo)
    requires Shaped(hw) && Tagged(hw) && Fits(hw)
    requires forall w | w in SweepWrites(op, hw.sets, hw.ways) :: Done(hw, w, ls)
    ensures DirtyLine(hw, l) ==> l in ls
  {
    if Lookup(hw, l).Some? {
      var p := Lookup(hw, l).value;
      SweepReachesAll(op, hw.sets, hw.ways, p);
      var ws := SweepWrites(op, hw.sets, hw.ways);
      var k :| 0 <= k < |ws| && ws[k].SetWay? && SlotOf(ws[k].word) == p;
      assert Done(hw, ws[k], ls);
    }
  }

  lemma CleanIsCurrent(s: Sys, flat: Memory, l: LineNo)
    requires Coherent(s, flat) && s.settled && !DirtyLine(s.hw, l)
    ensures s.hw.mem[l] == flat[l]
  {
    assert LineCoherent(s.hw, s.dma, flat, l);
  }

  /** SCB_CleanDCache and SCB_CleanInvalidateDCache, interleaved in any way with what passes: at the
      end main memory holds the flat memory on every line not stored to meanwhile. */
  lemma WholeCleaningInterleaved(s: Sys, inv: bool, ms: seq<Micro>, flat: Memory)
    requires Coherent(s, flat) && s.settled && Fits(s.hw) && MicroAllowed(s, MaintainAll(inv), ms)
    requires Written(ms) == SweepWrites(CleaningOp(inv), s.hw.sets, s.hw.ways)
    ensures var t, m := MicroRun(s, ms), FlatMicro(flat, ms);
            && Coherent(t, m) && SameFrame(s, t)
            && forall l: LineNo | l !in Dirtied(ms) :: !DirtyLine(t.hw, l) && t.hw.mem[l] == m[l]
    ensures MicroOutputs(s, ms) == FlatMicroOutputs(flat, ms)
  {
    var op, t, m := CleaningOp(inv), MicroRun(s, ms), FlatMicro(flat, ms);
    SweepWritesAre(op, s.hw.sets, s.hw.ways);
    CleaningRun(s, MaintainAll(inv), op, ms, flat);
    forall l: LineNo | l !in Dirtied(ms) ensures !DirtyLine(t.hw, l) && t.hw.mem[l] == m[l] {
      CleanExcept(t.hw, op, Dirtied(ms), l);
      CleanIsCurrent(t, m, l);
    }
  }

  lemma BlockWritesAre(t: Target, addr: Word, n: Int32)
    ensures forall w | w in BlockWrites(t, addr, n) ::
              w.ByAddress? && w.target == t && LineOf(w.addr) in Block(addr, n)
    ensures forall l | l in Block(addr, n) ::
              exists w :: w in BlockWrites(t, addr, n) && w.ByAddress? && LineOf(w.addr) == l
  {
    if n > 0 {
      var ws, run := BlockWrites(t, addr, n), LineRun(addr, LineCount(addr, n));
      RunCoversExactly(addr, n);
      forall k | 0 <= k < |ws| ensures LineOf(ws[k].addr) in Block(addr, n) {
        assert LineOf(ws[k].addr) == run[k] && run[k] in run;
      }
      forall l | l in Block(addr, n)
        ensures exists w :: w in BlockWrites(t, addr, n) && w.ByAddress? && LineOf(w.addr) == l
      {
        var k :| 0 <= k < |run| && run[k] == l;
        assert ws[k] in ws && LineOf(ws[k].addr) == l;
      }
    }
  }

  /** SCB_CleanDCache_by_Addr and SCB_CleanInvalidateDCache_by_Addr, interleaved: at the end no line
      of the block is dirty, and main memory holds the flat memory there, but for lines stored to
      meanwhile. */
  lemma RangeCleaningInterleaved(s: Sys, call: Event, inv: bool, addr: Word, n: Int32, ms: seq<Micro>, flat: Memory)
    requires Coherent(s, flat) && s.settled && MicroAllowed(s, call, ms)
    requires Written(ms) == BlockWrites(DataLine(CleaningOp(inv)), addr, n)
    ensures var t, m := MicroRun(s, ms), FlatMicro(flat, ms);
            && Coherent(t, m) && SameFrame(s, t)
            && forall l | l in Block(addr, n) - Dirtied(ms) :: !DirtyLine(t.hw, l) && t.hw.mem[l] == m[l]
    ensures MicroOutputs(s, ms) == FlatMicroOutputs(flat, ms)
  {
    var op, t, m := CleaningOp(inv), MicroRun(s, ms), FlatMicro(flat, ms);
    BlockWritesAre(DataLine(op), addr, n);
    CleaningRun(s, call, op, ms, flat);
    forall l | l in Block(addr, n) - Dirtied(ms) ensures !DirtyLine(t.hw, l) && t.hw.mem[l] == m[l] {
      var w :| w in Written(ms) && w.ByAddress? && LineOf(w.addr) == l;
      assert Done(t.hw, w, Dirtied(ms));
      CleanIsCurrent(t, m, l);
    }
  }

  lemma {:induction false} GivenNotDirtied(s: Sys, call: Event, ms: seq<Micro>)
    requires call.Give? && MicroAllowed(s, call, ms)
    ensures Dirtied(ms) !! Block(call.addr, call.size)
    decreases ms
  {
    if ms == [] {
    } else {
      GivenNotDirtied(MicroStep(s, ms[0]), call, ms[1..]);
    }
  }

  /** A block so cleaned may be handed to the bus master. */
  lemma GiveInterleaved(s: Sys, inv: bool, addr: Word, n: Int32, ms: seq<Micro>, flat: Memory)
    requires Coherent(s, flat) && s.settled && MicroAllowed(s, Give(inv, addr, n), ms)
    requires Written(ms) == BlockWrites(DataLine(CleaningOp(inv)), addr, n)
    ensures var t := MicroRun(s, ms);
            Coherent(t.(dma := s.dma + Block(addr, n)), FlatMicro(flat, ms)) && SameFrame(s, t)
    ensures MicroOutputs(s, ms) == FlatMicroOutputs(flat, ms)
  {
    var t, m := MicroRun(s, ms), FlatMicro(flat, ms);
    RangeCleaningInterleaved(s, Give(inv, addr, n), inv, addr, n, ms, flat);
    GivenNotDirtied(s, Give(inv, addr, n), ms);
    forall l: LineNo ensures LineCoherent(t.hw, s.dma + Block(addr, n), m, l) {
      assert LineCoherent(t.hw, t.dma, m, l);
      assert l in Block(addr, n) ==> l in Block(addr, n) - Dirtied(ms);
    }
  }

  // ---- taking a block back ----

  /** Look-up of line l does not find anything but what main memory holds. */
  ghost predicate Fresh(hw: Hw, l: LineNo) {
    match Lookup(hw, l)
    case Some(p) => hw.cache[p].data == hw.mem[l]
    case None => true
  }

  /** Invalidating a line that the bus master owns loses nothing. */
  lemma InvalidatingWrite(s: Sys, a: Word, flat: Memory)
    requires Coherent(s, flat) && s.settled && LineOf(a) in s.dma
    ensures var t := MicroStep(s, Register(ByAddress(DataLine(Invalidate), a)));
            && Coherent(t, flat) && Fresh(t.hw, LineOf(a))
            && forall l: LineNo | Fresh(s.hw, l) :: Fresh(t.hw, l)
  {
    var t := MicroStep(s, Register(ByAddress(DataLine(Invalidate), a)));
    match Lookup(s.hw, LineOf(a)) {
      case None =>
      case Some(p) =>
        LookupFinds(s.hw, LineOf(a), p);
        MaintainSingle(Invalidate, s.hw, p);
        MaintainedTagged(Invalidate, s.hw, {p}, t.hw);
        forall l: LineNo
          ensures LineCoherent(t.hw, s.dma, flat, l) && (Fresh(s.hw, l) ==> Fresh(t.hw, l))
          ensures l == LineOf(a) ==> Lookup(t.hw, l).None?
        {
          assert LineCoherent(s.hw, s.dma, flat, l);
          LookupAfter(Invalidate, s.hw, {p}, t.hw, l);
          if Lookup(s.hw, l).Some? {
            LookupFinds(s.hw, l, Lookup(s.hw, l).value);
          }
        }
    }
  }

  lemma FillKeepsFresh(hw: Hw, p: Slot, k: LineNo, l: LineNo)
    requires Shaped(hw) && Tagged(hw) && Fresh(hw, l)
    requires p in hw.cache && p.index == k % hw.sets && Lookup(hw, k).None?
    ensures Fresh(FillSlot(hw, p, k), l)
  {
    var h := Apply(CleanInvalidate, hw, p);
    MaintainSingle(CleanInvalidate, hw, p);
    MaintainedTagged(CleanInvalidate, hw, {p}, h);
    LookupAfter(CleanInvalidate, hw, {p}, h, k);
    LookupAfter(CleanInvalidate, hw, {p}, h, l);
    PutLookup(h, p, Entry(true, false, k, h.mem[k]), FillSlot(hw, p, k), l);
    if Lookup(h, l).Some? {
      LookupFinds(h, l, Lookup(h, l).value);
    }
  }

  lemma StoreKeepsFresh(s: Sys, a: Word, v: Byte, through: bool, l: LineNo)
    requires Shaped(s.hw) && Tagged(s.hw) && Fresh(s.hw, l) && LineOf(a) != l
    ensures Fresh(StoreByte(s, a, v, through), l)
  {
    var h := StoreByte(s, a, v, through);
    match if s.on then Lookup(s.hw, LineOf(a)) else None {
      case Some(p) =>
        LookupFinds(s.hw, LineOf(a), p);
        PutLookup(s.hw, p, h.cache[p], h, l);
        if Lookup(s.hw, l).Some? {
          LookupFinds(s.hw, l, Lookup(s.hw, l).value);
        }
      case None => MemoryOnly(s.hw, h);
    }
  }

  /** A line stays fresh through whatever passes, unless it is written to. */
  lemma FreshStays(s: Sys, e: Event, l: LineNo)
    requires Shaped(s.hw) && Tagged(s.hw) && Fresh(s.hw, l) && !IsCall(e) && Permitted(s, e)
    requires e.Store? || e.MasterWrite? ==> LineOf(e.addr) != l
    ensures Fresh(Step(s, e).hw, l)
  {
    match e {
      case Fill(p, k) => FillKeepsFresh(s.hw, p, k, l);
      case Store(a, v, through) => StoreKeepsFresh(s, a, v, through, l);
      case MasterWrite(_, _) => MemoryOnly(s.hw, Step(s, e).hw);
      case Evict(p) =>
        MaintainSingle(CleanInvalidate, s.hw, p);
        LookupAfter(CleanInvalidate, s.hw, {p}, Step(s, e).hw, l);
      case WriteBack(p) =>
        MaintainSingle(Clean, s.hw, p);
        LookupAfter(Clean, s.hw, {p}, Step(s, e).hw, l);
      case _ =>
    }
  }

  lemma {:induction false} InvalidatingRun(s: Sys, call: Event, ms: seq<Micro>, flat: Memory)
    requires Coherent(s, flat) && s.settled && call.Take? && MicroAllowed(s, call, ms)
    requires Block(call.addr, call.size) <= s.dma
    requires forall w | w in Written(ms) ::
               w.ByAddress? && w.target == DataLine(Invalidate) && LineOf(w.addr) in Block(call.addr, call.size)
    ensures var t := MicroRun(s, ms);
            && Coherent(t, FlatMicro(flat, ms)) && SameFrame(s, t)
            && (forall l | l in Block(call.addr, call.size) && Fresh(s.hw, l) :: Fresh(t.hw, l))
            && (forall w | w in Written(ms) :: Fresh(t.hw, LineOf(w.addr)))
    ensures MicroOutputs(s, ms) == FlatMicroOutputs(flat, ms)
    decreases ms
  {
    if ms == [] {
    } else {
      var u := MicroStep(s, ms[0]);
      match ms[0] {
        case Register(w) =>
          assert w in Written(ms);
          WriteFrame(s, w);
          InvalidatingWrite(s, w.addr, flat);
          InvalidatingRun(u, call, ms[1..], flat);
        case Background(e) =>
          BackgroundKeeps(s, e, flat);
          InvalidatingRun(u, call, ms[1..], FlatStep(flat, e));
          forall l | l in Block(call.addr, call.size) && Fresh(s.hw, l) ensures Fresh(u.hw, l) {
            FreshStays(s, e, l);
          }
      }
    }
  }

  /** SCB_InvalidateDCache_by_Addr on a block the bus master owns and has finished with, interleaved:
      although lines of the block may be filled again before the call ends, the CPU may have the
      block back and sees the flat memory there. */
  lemma TakeInterleaved(s: Sys, addr: Word, n: Int32, ms: seq<Micro>, flat: Memory)
    requires Coherent(s, flat) && s.settled && MicroAllowed(s, Take(addr, n), ms)
    requires Block(addr, n) <= s.dma && Written(ms) == BlockWrites(DataLine(Invalidate), addr, n)
    ensures var t, m := MicroRun(s, ms), FlatMicro(flat, ms);
            && Coherent(t.(dma := s.dma - Block(addr, n)), m) && SameFrame(s, t)
            && forall l | l in Block(addr, n) :: Latest(t.hw, l) == m[l]
    ensures MicroOutputs(s, ms) == FlatMicroOutputs(flat, ms)
  {
    var t, m := MicroRun(s, ms), FlatMicro(flat, ms);
    BlockWritesAre(DataLine(Invalidate), addr, n);
    InvalidatingRun(s, Take(addr, n), ms, flat);
    forall l: LineNo
      ensures LineCoherent(t.hw, s.dma - Block(addr, n), m, l)
      ensures l in Block(addr, n) ==> Latest(t.hw, l) == m[l]
    {
      assert LineCoherent(t.hw, t.dma, m, l);
      if l in Block(addr, n) {
        var w :| w in Written(ms) && w.ByAddress? && LineOf(w.addr) == l;
        assert Fresh(t.hw, l);
      }
    }
  }
}
