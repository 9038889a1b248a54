/** Whole runs of a CPU, its data cache and a bus master that share one memory. The cache fills,
    evicts and writes back lines whenever it likes; software calls the SCB_* functions. */
module Coherence {
  import opened Word32
  import opened CacheModel
  import opened Maintenance
  import opened Sweeps
  import opened HandOff

  /** `dma` is the set of lines handed to the bus master. `settled` records that the cache has
      been enabled or invalidated since power-up, before which it may hold anything. */
  datatype Sys = Sys(on: bool, settled: bool, hw: Hw, dma: set<LineNo>)

  datatype Event =
    | Load(addr: Word)
    | Store(addr: Word, v: Byte, through: bool)
    | Fill(slot: Slot, line: LineNo)
    | Evict(slot: Slot)
    | WriteBack(slot: Slot)
    | Enable
    | Disable
    | InvalidateAll
    | MaintainAll(invalidate: bool)
    | MaintainRange(invalidate: bool, addr: Word, size: Int32)
    | Give(invalidate: bool, addr: Word, size: Int32)
    | Take(addr: Word, size: Int32)
    | MasterRead(addr: Word)
    | MasterWrite(addr: Word, v: Byte)

  function CleaningOp(invalidate: bool): Op {
    if invalidate then CleanInvalidate else Clean
  }

  /** A store that hits updates the line, and main memory too under a write-through policy;
      a store that misses goes to main memory. */
  function StoreByte(s: Sys, a: Word, v: Byte, through: bool): Hw {
    var hw := s.hw;
    match if s.on then Lookup(hw, LineOf(a)) else None
    case Some(p) =>
      var e := hw.cache[p];
      hw.(mem := if through then Poke(hw.mem, a, v) else hw.mem,
          cache := hw.cache[p := e.(data := PokeLine(e.data, a, v), dirty := e.dirty || !through)])
    case None => hw.(mem := Poke(hw.mem, a, v))
  }

  /** A line fill evicts what the slot held and reads the line from main memory. */
  function FillSlot(hw: Hw, p: Slot, l: LineNo): Hw {
    var h := Apply(CleanInvalidate, hw, p);
    h.(cache := h.cache[p := Entry(true, false, l, h.mem[l])])
  }

  ghost function Step(s: Sys, e: Event): Sys {
    match e
    case Load(_) => s
    case Store(a, v, through) => s.(hw := StoreByte(s, a, v, through))
    case Fill(p, l) => s.(hw := FillSlot(s.hw, p, l))
    case Evict(p) => s.(hw := Apply(CleanInvalidate, s.hw, p))
    case WriteBack(p) => s.(hw := Apply(Clean, s.hw, p))
    case Enable => if s.on then s else s.(on := true, settled := true, hw := SweepAll(Invalidate, s.hw))
    case Disable => s.(on := false, hw := SweepAll(CleanInvalidate, s.hw))
    case InvalidateAll => s.(settled := true, hw := SweepAll(Invalidate, s.hw))
    case MaintainAll(inv) => s.(hw := SweepAll(CleaningOp(inv), s.hw))
    case MaintainRange(inv, a, n) => s.(hw := SweepRange(CleaningOp(inv), s.hw, a, n))
    case Give(inv, a, n) => s.(hw := SweepRange(CleaningOp(inv), s.hw, a, n), dma := s.dma + Block(a, n))
    case Take(a, n) => s.(hw := SweepRange(Invalidate, s.hw, a, n), dma := s.dma - Block(a, n))
    case MasterRead(_) => s
    case MasterWrite(a, v) => s.(hw := s.hw.(mem := Poke(s.hw.mem, a, v)))
  }

  function Output(s: Sys, e: Event): Option<Byte> {
    match e
    case Load(a) => Some(ViewByte(s.on, s.hw, a))
    case MasterRead(a) => Some(Peek(s.hw.mem, a))
    case _ => None
  }

  /** The discipline: neither side touches a line the other owns, a block is taken back only when
      all its lines were handed over, invalidate-only calls are made on the whole cache only
      while it is off, and cleaning calls only once it has been enabled or invalidated.
      Hardware activity needs the cache to be on. */
  ghost predicate Permitted(s: Sys, e: Event) {
    match e
    case Load(a) => LineOf(a) !in s.dma
    case Store(a, _, _) => LineOf(a) !in s.dma
    case Fill(p, l) => s.on && p in s.hw.cache && p.index == l % s.hw.sets && Lookup(s.hw, l).None?
    case Evict(_) => s.on
    case WriteBack(_) => s.on
    case Enable => true
    case Disable => s.settled
    case InvalidateAll => !s.on
    case MaintainAll(_) => s.settled
    case MaintainRange(_, _, _) => s.settled
    case Give(_, _, _) => s.settled
    case Take(a, n) => s.settled && Block(a, n) <= s.dma
    case MasterRead(a) => LineOf(a) in s.dma
    case MasterWrite(a, _) => LineOf(a) in s.dma
  }

  // ---- the reference: one flat memory ----

  function FlatStep(m: Memory, e: Event): Memory {
    match e
    case Store(a, v, _) => Poke(m, a, v)
    case MasterWrite(a, v) => Poke(m, a, v)
    case _ => m
  }

  function FlatOutput(m: Memory, e: Event): Option<Byte> {
    match e
    case Load(a) => Some(Peek(m, a))
    case MasterRead(a) => Some(Peek(m, a))
    case _ => None
  }

  // ---- the invariant ----

  /** The latest contents of line l are where its owner will look, and nothing can overwrite them. */
  predicate LineCoherent(hw: Hw, dma: set<LineNo>, flat: Memory, l: LineNo) {
    match Lookup(hw, l)
    case None => hw.mem[l] == flat[l]
    case Some(p) =>
      && (!hw.cache[p].dirty ==> hw.mem[l] == flat[l])
      && (l in dma ==> !hw.cache[p].dirty)
      && (l !in dma ==> hw.cache[p].data == flat[l])
  }

  ghost predicate AllCoherent(hw: Hw, dma: set<LineNo>, flat: Memory) {
    forall l: LineNo :: LineCoherent(hw, dma, flat, l)
  }

  ghost predicate Coherent(s: Sys, flat: Memory) {
    && Shaped(s.hw)
    && (s.on ==> s.settled)
    && (!s.settled ==> s.hw.mem == flat)
    && (s.settled ==> Tagged(s.hw) && AllCoherent(s.hw, s.dma, flat))
    && (s.settled && !s.on ==> Empty(s.hw))
  }

  lemma EmptyLookup(hw: Hw, l: LineNo)
    requires Shaped(hw) && Empty(hw)
    ensures Tagged(hw) && Lookup(hw, l).None?
  {}

  /** Cleaning, with or without invalidation, of any set of slots keeps every line coherent. */
  lemma CleaningKeepsCoherence(op: Op, a: Hw, sel: set<Slot>, b: Hw, dma: set<LineNo>, flat: Memory)
    requires Shaped(a) && Tagged(a) && AllCoherent(a, dma, flat)
    requires op != Invalidate && Maintained(op, a, sel, b)
    ensures Shaped(b) && Tagged(b) && AllCoherent(b, dma, flat)
  {
    MaintainedTagged(op, a, sel, b);
    forall l: LineNo ensures LineCoherent(b, dma, flat, l) {
      assert LineCoherent(a, dma, flat, l);
      LookupAfter(op, a, sel, b, l);
      if Lookup(a, l).Some? {
        LookupFinds(a, l, Lookup(a, l).value);
      }
    }
  }

  lemma MaintainSingle(op: Op, a: Hw, p: Slot)
    requires Shaped(a) && Tagged(a)
    ensures Maintained(op, a, {p}, Apply(op, a, p))
  {
    assert Maintained(op, a, {}, a);
    MaintainOne(op, a, {}, a, p);
    assert {} + {p} == {p};
  }

  lemma EmptyStaysEmpty(op: Op, a: Hw, sel: set<Slot>, b: Hw)
    requires Empty(a) && Maintained(op, a, sel, b)
    ensures Empty(b)
  {}

  /** Handing a block to the bus master: it is no longer dirty anywhere. */
  lemma GiveKeepsCoherence(inv: bool, a: Hw, addr: Word, n: Int32, dma: set<LineNo>, flat: Memory)
    requires Shaped(a) && Tagged(a) && AllCoherent(a, dma, flat)
    ensures var b := SweepRange(CleaningOp(inv), a, addr, n);
            Shaped(b) && Tagged(b) && AllCoherent(b, dma + Block(addr, n), flat)
  {
    var op := CleaningOp(inv);
    var b := SweepRange(op, a, addr, n);
    SweepRangeMaintains(op, a, addr, n);
    CleaningKeepsCoherence(op, a, Holders(a, Block(addr, n)), b, dma, flat);
    forall l: LineNo ensures LineCoherent(b, dma + Block(addr, n), flat, l) {
      assert LineCoherent(b, dma, flat, l);
      RangeEffect(op, a, addr, n, l);
    }
  }

  /** Taking a block back: the CPU will see what main memory holds. */
  lemma TakeKeepsCoherence(a: Hw, addr: Word, n: Int32, dma: set<LineNo>, flat: Memory)
    requires Shaped(a) && Tagged(a) && AllCoherent(a, dma, flat)
    requires Block(addr, n) <= dma
    ensures var b := SweepRange(Invalidate, a, addr, n);
            Shaped(b) && Tagged(b) && AllCoherent(b, dma - Block(addr, n), flat)
  {
    var b := SweepRange(Invalidate, a, addr, n);
    SweepRangeMaintains(Invalidate, a, addr, n);
    MaintainedTagged(Invalidate, a, Holders(a, Block(addr, n)), b);
    forall l: LineNo ensures LineCoherent(b, dma - Block(addr, n), flat, l) {
      assert LineCoherent(a, dma, flat, l);
      RangeEffect(Invalidate, a, addr, n, l);
      LookupAfter(Invalidate, a, Holders(a, Block(addr, n)), b, l);
      HolderInBlock(a, Block(addr, n), l);
    }
  }

  /** Replacing the contents of a slot whose line is already held, or of a free slot in the right
      set by a line held nowhere, keeps look-ups of other lines. */
  lemma PutLookup(a: Hw, p: Slot, e: Entry, b: Hw, l: LineNo)
    requires Shaped(a) && Tagged(a) && p in a.cache && e.valid && p.index == e.line % a.sets
    requires b.sets == a.sets && b.ways == a.ways && b.cache == a.cache[p := e]
    requires Lookup(a, e.line) == if a.cache[p].valid then Some(p) else None
    ensures Shaped(b) && Tagged(b)
    ensures Lookup(b, l) == if l == e.line then Some(p) else Lookup(a, l)
  {
    forall q | q in a.cache && a.cache[q].valid && a.cache[q].line == e.line ensures q == p {
      LookupFinds(a, e.line, q);
    }
    if a.cache[p].valid {
      LookupFinds(a, e.line, p);
    }
    assert Tagged(b);
    LookupFinds(b, e.line, p);
    if l != e.line {
      if Lookup(a, l).Some? {
        LookupFinds(a, l, Lookup(a, l).value);
        LookupFinds(b, l, Lookup(a, l).value);
      }
      if Lookup(b, l).Some? {
        LookupFinds(a, l, Lookup(b, l).value);
        LookupFinds(b, l, Lookup(b, l).value);
      }
    }
  }

  lemma FillKeepsCoherence(a: Hw, p: Slot, l: LineNo, dma: set<LineNo>, flat: Memory)
    requires Shaped(a) && Tagged(a) && AllCoherent(a, dma, flat)
    requires p in a.cache && p.index == l % a.sets && Lookup(a, l).None?
    ensures var b := FillSlot(a, p, l); Shaped(b) && Tagged(b) && AllCoherent(b, dma, flat)
  {
    var h := Apply(CleanInvalidate, a, p);
    var b := FillSlot(a, p, l);
    MaintainSingle(CleanInvalidate, a, p);
    CleaningKeepsCoherence(CleanInvalidate, a, {p}, h, dma, flat);
    LookupAfter(CleanInvalidate, a, {p}, h, l);
    PutLookup(h, p, Entry(true, false, l, h.mem[l]), b, l);
    forall k: LineNo ensures LineCoherent(b, dma, flat, k) {
      assert LineCoherent(h, dma, flat, k);
      PutLookup(h, p, Entry(true, false, l, h.mem[l]), b, k);
      if Lookup(h, k).Some? {
        LookupFinds(h, k, Lookup(h, k).value);
      }
    }
  }

  lemma {:induction false} SameScan(a: Hw, b: Hw, l: LineNo, n: nat)
    requires b.sets == a.sets && b.cache == a.cache
    ensures Scan(b, l, n) == Scan(a, l, n)
  {
    if n == 0 {
    } else {
      SameScan(a, b, l, n - 1);
    }
  }

  lemma MemoryOnly(a: Hw, b: Hw)
    requires b.sets == a.sets && b.ways == a.ways && b.cache == a.cache
    requires Shaped(a)
    ensures Shaped(b) && (Tagged(a) ==> Tagged(b))
    ensures forall l: LineNo :: Lookup(b, l) == Lookup(a, l)
  {
    forall l: LineNo ensures Lookup(b, l) == Lookup(a, l) {
      SameScan(a, b, l, a.ways);
    }
  }

  lemma StoreKeepsCoherence(s: Sys, a: Word, v: Byte, through: bool, flat: Memory)
    requires Coherent(s, flat) && s.on && LineOf(a) !in s.dma
    ensures var h := StoreByte(s, a, v, through);
            Shaped(h) && Tagged(h) && AllCoherent(h, s.dma, Poke(flat, a, v))
  {
    var hw, h := s.hw, StoreByte(s, a, v, through);
    var line := LineOf(a);
    assert LineCoherent(hw, s.dma, flat, line);
    match Lookup(hw, line) {
      case Some(p) =>
        LookupFinds(hw, line, p);
        forall k: LineNo ensures Tagged(h) && Shaped(h) && LineCoherent(h, s.dma, Poke(flat, a, v), k) {
          assert LineCoherent(hw, s.dma, flat, k);
          PutLookup(hw, p, h.cache[p], h, k);
          if Lookup(hw, k).Some? {
            LookupFinds(hw, k, Lookup(hw, k).value);
          }
        }
        assert LineCoherent(h, s.dma, Poke(flat, a, v), line);
      case None =>
        MemoryOnly(hw, h);
        forall k: LineNo ensures LineCoherent(h, s.dma, Poke(flat, a, v), k) {
          assert LineCoherent(hw, s.dma, flat, k);
        }
    }
  }

  lemma MemoryWriteKeepsCoherence(hw: Hw, a: Word, v: Byte, dma: set<LineNo>, flat: Memory)
    requires Shaped(hw) && Tagged(hw) && AllCoherent(hw, dma, flat)
    requires LineOf(a) in dma || Lookup(hw, LineOf(a)).None?
    ensures var h := hw.(mem := Poke(hw.mem, a, v));
            Shaped(h) && Tagged(h) && AllCoherent(h, dma, Poke(flat, a, v))
  {
    var h := hw.(mem := Poke(hw.mem, a, v));
    MemoryOnly(hw, h);
    forall k: LineNo ensures LineCoherent(h, dma, Poke(flat, a, v), k) {
      assert LineCoherent(hw, dma, flat, k);
      assert LineCoherent(hw, dma, flat, LineOf(a));
    }
  }

  // ---- one step, and every run ----

  lemma WholeCleaningKeepsCoherence(op: Op, s: Sys, flat: Memory)
    requires Coherent(s, flat) && s.settled && op != Invalidate
    ensures var h := SweepAll(op, s.hw);
            && Shaped(h) && Tagged(h) && AllCoherent(h, s.dma, flat)
            && (!s.on || op == CleanInvalidate ==> Empty(h))
  {
    SweepAllMaintains(op, s.hw);
    CleaningKeepsCoherence(op, s.hw, AllSlots(s.hw), SweepAll(op, s.hw), s.dma, flat);
    if !s.on {
      EmptyStaysEmpty(op, s.hw, AllSlots(s.hw), SweepAll(op, s.hw));
    }
    assert forall p :: p in SweepAll(op, s.hw).cache.Keys <==> p in SweepAll(op, s.hw).cache;
  }

  lemma InvalidatingAllKeepsCoherence(s: Sys, flat: Memory)
    requires Coherent(s, flat) && !s.on
    ensures var h := SweepAll(Invalidate, s.hw);
            && Shaped(h) && Tagged(h) && Empty(h) && h.mem == flat && AllCoherent(h, s.dma, flat)
  {
    var h := SweepAll(Invalidate, s.hw);
    SweepAllEmpties(Invalidate, s.hw);
    SweepAllKeepsShape(Invalidate, s.hw);
    forall l: LineNo ensures h.mem[l] == flat[l] && Tagged(h) && LineCoherent(h, s.dma, flat, l) {
      EmptyLookup(h, l);
      if s.settled {
        EmptyLookup(s.hw, l);
        assert LineCoherent(s.hw, s.dma, flat, l);
      }
    }
    EmptyLookup(h, 0);
    assert h.mem == flat;
  }

  lemma RangeCleaningKeepsCoherence(inv: bool, s: Sys, addr: Word, n: Int32, flat: Memory)
    requires Coherent(s, flat) && s.settled
    ensures var h := SweepRange(CleaningOp(inv), s.hw, addr, n);
            && Shaped(h) && Tagged(h) && AllCoherent(h, s.dma, flat) && (!s.on ==> Empty(h))
  {
    var op := CleaningOp(inv);
    var sel := Holders(s.hw, Block(addr, n));
    SweepRangeMaintains(op, s.hw, addr, n);
    CleaningKeepsCoherence(op, s.hw, sel, SweepRange(op, s.hw, addr, n), s.dma, flat);
    if !s.on {
      EmptyStaysEmpty(op, s.hw, sel, SweepRange(op, s.hw, addr, n));
    }
  }

  lemma HardwareKeepsCoherence(s: Sys, e: Event, flat: Memory)
    requires Coherent(s, flat) && Permitted(s, e) && (e.Fill? || e.Evict? || e.WriteBack?)
    ensures Coherent(Step(s, e), flat)
  {
    match e {
      case Fill(p, l) => FillKeepsCoherence(s.hw, p, l, s.dma, flat);
      case Evict(p) =>
        MaintainSingle(CleanInvalidate, s.hw, p);
        CleaningKeepsCoherence(CleanInvalidate, s.hw, {p}, Step(s, e).hw, s.dma, flat);
      case WriteBack(p) =>
        MaintainSingle(Clean, s.hw, p);
        CleaningKeepsCoherence(Clean, s.hw, {p}, Step(s, e).hw, s.dma, flat);
    }
  }

  lemma AccessKeepsCoherence(s: Sys, e: Event, flat: Memory)
    requires Coherent(s, flat) && Permitted(s, e) && (e.Store? || e.MasterWrite?)
    ensures Coherent(Step(s, e), FlatStep(flat, e))
  {
    if e.Store? && s.on {
      StoreKeepsCoherence(s, e.addr, e.v, e.through, flat);
    } else {
      var h := s.hw.(mem := Poke(s.hw.mem, e.addr, e.v));
      MemoryOnly(s.hw, h);
      if s.settled {
        if !s.on {
          EmptyLookup(s.hw, LineOf(e.addr));
        }
        MemoryWriteKeepsCoherence(s.hw, e.addr, e.v, s.dma, flat);
      }
    }
  }

  lemma TransferKeepsCoherence(s: Sys, e: Event, flat: Memory)
    requires Coherent(s, flat) && Permitted(s, e) && (e.Give? || e.Take?)
    ensures Coherent(Step(s, e), flat)
  {
    match e {
      case Give(inv, a, n) =>
        GiveKeepsCoherence(inv, s.hw, a, n, s.dma, flat);
        RangeCleaningKeepsCoherence(inv, s, a, n, flat);
      case Take(a, n) =>
        TakeKeepsCoherence(s.hw, a, n, s.dma, flat);
        SweepRangeMaintains(Invalidate, s.hw, a, n);
        if !s.on {
          EmptyStaysEmpty(Invalidate, s.hw, Holders(s.hw, Block(a, n)), Step(s, e).hw);
        }
    }
  }

  /** Every permitted step keeps the machine coherent with the flat memory. */
  lemma StepKeepsCoherence(s: Sys, e: Event, flat: Memory)
    requires Coherent(s, flat) && Permitted(s, e)
    ensures Coherent(Step(s, e), FlatStep(flat, e))
  {
    match e {
      case Load(_) =>
      case MasterRead(_) =>
      case Store(_, _, _) => AccessKeepsCoherence(s, e, flat);
      case MasterWrite(_, _) => AccessKeepsCoherence(s, e, flat);
      case Fill(_, _) => HardwareKeepsCoherence(s, e, flat);
      case Evict(_) => HardwareKeepsCoherence(s, e, flat);
      case WriteBack(_) => HardwareKeepsCoherence(s, e, flat);
      case Enable => if !s.on { InvalidatingAllKeepsCoherence(s, flat); }
      case InvalidateAll => InvalidatingAllKeepsCoherence(s, flat);
      case Disable => WholeCleaningKeepsCoherence(CleanInvalidate, s, flat);
      case MaintainAll(inv) => WholeCleaningKeepsCoherence(CleaningOp(inv), s, flat);
      case MaintainRange(inv, a, n) => RangeCleaningKeepsCoherence(inv, s, a, n, flat);
      case Give(_, _, _) => TransferKeepsCoherence(s, e, flat);
      case Take(_, _) => TransferKeepsCoherence(s, e, flat);
    }
  }

  /** In a coherent state each side reads, from the lines it owns, what the flat memory holds. */
  lemma OutputsAgree(s: Sys, e: Event, flat: Memory)
    requires Coherent(s, flat) && Permitted(s, e)
    ensures Output(s, e) == FlatOutput(flat, e)
  {
    if (e.Load? || e.MasterRead?) && s.settled {
      assert LineCoherent(s.hw, s.dma, flat, LineOf(e.addr));
      if !s.on {
        EmptyLookup(s.hw, LineOf(e.addr));
      }
    }
  }

  ghost predicate Allowed(s: Sys, es: seq<Event>)
    decreases es
  {
    es != [] ==> Permitted(s, es[0]) && Allowed(Step(s, es[0]), es[1..])
  }

  ghost function Outputs(s: Sys, es: seq<Event>): seq<Option<Byte>>
    decreases es
  {
    if es == [] then [] else [Output(s, es[0])] + Outputs(Step(s, es[0]), es[1..])
  }

  ghost function Final(s: Sys, es: seq<Event>): Sys
    decreases es
  {
    if es == [] then s else Final(Step(s, es[0]), es[1..])
  }

  ghost function FlatOutputs(m: Memory, es: seq<Event>): seq<Option<Byte>>
    decreases es
  {
    if es == [] then [] else [FlatOutput(m, es[0])] + FlatOutputs(FlatStep(m, es[0]), es[1..])
  }

  ghost function FlatFinal(m: Memory, es: seq<Event>): Memory
    decreases es
  {
    if es == [] then m else FlatFinal(FlatStep(m, es[0]), es[1..])
  }

  /** Over every run that keeps the discipline, every CPU load and every read by the bus master
      returns what one flat memory would have returned. */
  lemma {:induction false} RunsAgreeWithFlatMemory(s: Sys, es: seq<Event>, flat: Memory)
    requires Coherent(s, flat) && Allowed(s, es)
    ensures Outputs(s, es) == FlatOutputs(flat, es)
    ensures Coherent(Final(s, es), FlatFinal(flat, es))
    decreases es
  {
    if es == [] {
    } else {
      OutputsAgree(s, es[0], flat);
      StepKeepsCoherence(s, es[0], flat);
      RunsAgreeWithFlatMemory(Step(s, es[0]), es[1..], FlatStep(flat, es[0]));
    }
  }

  /** At power-up the cache is off and may hold anything, even duplicate and dirty lines. */
  lemma RunsFromPowerUp(hw: Hw, es: seq<Event>)
    requires Shaped(hw) && Allowed(Sys(false, false, hw, {}), es)
    ensures Outputs(Sys(false, false, hw, {}), es) == FlatOutputs(hw.mem, es)
  {
    RunsAgreeWithFlatMemory(Sys(false, false, hw, {}), es, hw.mem);
  }

  /** After SCB_DisableDCache at the end of any such run main memory is the flat memory: what the
      CPU saw of its own lines, and what the bus master saw of the others. */
  lemma DisableLeavesMemoryCurrent(s: Sys, es: seq<Event>, flat: Memory)
    requires Coherent(s, flat) && Allowed(s, es) && Final(s, es).settled
    ensures Step(Final(s, es), Disable).hw.mem == FlatFinal(flat, es)
  {
    RunsAgreeWithFlatMemory(s, es, flat);
    var t, m := Final(s, es), FlatFinal(flat, es);
    StepKeepsCoherence(t, Disable, m);
    var u := Step(t, Disable);
    forall l: LineNo ensures u.hw.mem[l] == m[l] {
      EmptyLookup(u.hw, l);
      assert LineCoherent(u.hw, u.dma, m, l);
    }
  }

  /** The byte last stored at x by either side, or what was there before. */
  function LastStored(before: Byte, es: seq<Event>, x: Word): Byte
    decreases es
  {
    if es == [] then before
    else
      var e := es[0];
      LastStored(if (e.Store? || e.MasterWrite?) && e.addr == x then e.v else before, es[1..], x)
  }

  lemma {:induction false} FlatHoldsLastStored(m: Memory, es: seq<Event>, x: Word)
    ensures Peek(FlatFinal(m, es), x) == LastStored(Peek(m, x), es, x)
    decreases es
  {
    if es == [] {
    } else {
      var e := es[0];
      if e.Store? || e.MasterWrite? {
        PokePeek(m, e.addr, e.v, x);
      }
      FlatHoldsLastStored(FlatStep(m, e), es[1..], x);
    }
  }

  /** After any permitted run, a CPU load or a bus master read of x returns the byte last stored at x
      by either side. */
  lemma ReadsReturnLastStored(s: Sys, es: seq<Event>, e: Event, flat: Memory)
    requires Coherent(s, flat) && Allowed(s, es)
    requires Permitted(Final(s, es), e) && (e.Load? || e.MasterRead?)
    ensures Output(Final(s, es), e) == Some(LastStored(Peek(flat, e.addr), es, e.addr))
  {
    RunsAgreeWithFlatMemory(s, es, flat);
    OutputsAgree(Final(s, es), e, FlatFinal(flat, es));
    FlatHoldsLastStored(flat, es, e.addr);
  }
}
