/** Whole runs in which no SCB call is a single step: every call is its register writes, one by one,
    with whatever passes in between. */
module OpenRuns {
  import opened Word32
  import opened CacheModel
  import opened Registers
  import opened Traces
  import opened Sweeps
  import opened Coherence
  import opened Interleaving
  import opened Switching
  import Views

  datatype Action = Happens(e: Event) | Call(call: Event, ms: seq<Micro>)

  /** The register writes of a call, in order. */
  function CallWrites(on: bool, hw: Hw, call: Event): seq<RegWrite>
    requires hw.sets <= 512 && hw.ways <= 4
  {
    match call
    case Enable => if on then [] else SweepWrites(Invalidate, hw.sets, hw.ways) + [Ccr(true)]
    case Disable => [Ccr(false)] + SweepWrites(CleanInvalidate, hw.sets, hw.ways)
    case InvalidateAll => SweepWrites(Invalidate, hw.sets, hw.ways)
    case MaintainAll(inv) => SweepWrites(CleaningOp(inv), hw.sets, hw.ways)
    case MaintainRange(inv, a, n) => BlockWrites(DataLine(CleaningOp(inv)), a, n)
    case Give(inv, a, n) => BlockWrites(DataLine(CleaningOp(inv)), a, n)
    case Take(a, n) => BlockWrites(DataLine(Invalidate), a, n)
    case _ => []
  }

  /** What software takes note of when a call has returned. */
  ghost function End(t: Sys, call: Event): Sys {
    match call
    case InvalidateAll => t.(settled := true)
    case Give(_, a, n) => t.(dma := t.dma + Block(a, n))
    case Take(a, n) => t.(dma := t.dma - Block(a, n))
    case _ => t
  }

  ghost function Act(s: Sys, x: Action): Sys {
    match x
    case Happens(e) => Step(s, e)
    case Call(call, ms) => End(MicroRun(s, ms), call)
  }

  ghost predicate MayAct(s: Sys, x: Action)
    requires Fits(s.hw)
  {
    match x
    case Happens(e) => !IsCall(e) && Permitted(s, e)
    case Call(call, ms) =>
      && IsCall(call) && Permitted(s, call)
      && Written(ms) == CallWrites(s.on, s.hw, call) && MicroAllowed(s, call, ms)
  }

  ghost function ActOutputs(s: Sys, x: Action): seq<Option<Byte>> {
    match x
    case Happens(e) => [Output(s, e)]
    case Call(call, ms) => MicroOutputs(s, ms)
  }

  function FlatAct(flat: Memory, x: Action): Memory {
    match x
    case Happens(e) => FlatStep(flat, e)
    case Call(_, ms) => FlatMicro(flat, ms)
  }

  function FlatActOutputs(flat: Memory, x: Action): seq<Option<Byte>> {
    match x
    case Happens(e) => [FlatOutput(flat, e)]
    case Call(_, ms) => FlatMicroOutputs(flat, ms)
  }

  // ---- a call without anything in between ----

  lemma {:induction false} OnAfterAppend(on: bool, a: seq<RegWrite>, b: seq<RegWrite>)
    ensures OnAfter(on, a + b) == OnAfter(OnAfter(on, a), b)
  {
    if b == [] {
      assert a + b == a;
    } else {
      assert (a + b)[..|a + b| - 1] == a + b[..|b| - 1];
      OnAfterAppend(on, a, b[..|b| - 1]);
    }
  }

  lemma RegisterStepIs(s: Sys, w: RegWrite)
    ensures RegisterStep(s, w)
         == s.(on := OnAfter(s.on, [w]), settled := s.settled || w == Ccr(true), hw := Perform(s.hw, [w]))
  {
    assert [w][..0] == [];
  }

  lemma {:induction false} QuietRun(s: Sys, ms: seq<Micro>)
    requires forall m | m in ms :: m.Register?
    ensures var ws := Written(ms);
            MicroRun(s, ms)
            == s.(on := OnAfter(s.on, ws), settled := s.settled || Ccr(true) in ws, hw := Perform(s.hw, ws))
    decreases ms
  {
    if ms == [] {
    } else {
      var w, rest := ms[0].w, Written(ms[1..]);
      QuietRun(MicroStep(s, ms[0]), ms[1..]);
      RegisterStepIs(s, w);
      PerformAppend(s.hw, [w], rest);
      OnAfterAppend(s.on, [w], rest);
    }
  }

  predicate NoCcr(ws: seq<RegWrite>) {
    forall w | w in ws :: !w.Ccr?
  }

  lemma {:induction false} OnStays(on: bool, ws: seq<RegWrite>)
    requires NoCcr(ws)
    ensures OnAfter(on, ws) == on
  {
    if ws == [] {
    } else {
      OnStays(on, ws[..|ws| - 1]);
    }
  }

  lemma SweepOn(op: Op, hw: Hw, on: bool)
    requires Fits(hw)
    ensures NoCcr(SweepWrites(op, hw.sets, hw.ways)) && OnAfter(on, SweepWrites(op, hw.sets, hw.ways)) == on
    ensures Perform(hw, SweepWrites(op, hw.sets, hw.ways)) == SweepAll(op, hw)
  {
    SweepPerformed(op, hw);
    SweepWritesAre(op, hw.sets, hw.ways);
    OnStays(on, SweepWrites(op, hw.sets, hw.ways));
  }

  lemma BlockOn(op: Op, hw: Hw, addr: Word, n: Int32, on: bool)
    ensures var ws := BlockWrites(DataLine(op), addr, n); NoCcr(ws) && OnAfter(on, ws) == on
    ensures Perform(hw, BlockWrites(DataLine(op), addr, n)) == SweepRange(op, hw, addr, n)
  {
    if n > 0 {
      PerformRun(op, hw, addr, LineCount(addr, n));
    }
    BlockWritesAre(DataLine(op), addr, n);
    OnStays(on, BlockWrites(DataLine(op), addr, n));
  }

  lemma EnableOn(hw: Hw)
    requires Fits(hw)
    ensures var ws := CallWrites(false, hw, Enable);
            OnAfter(false, ws) && Ccr(true) in ws && Perform(hw, ws) == SweepAll(Invalidate, hw)
  {
    var ws := SweepWrites(Invalidate, hw.sets, hw.ways);
    SweepOn(Invalidate, hw, false);
    PerformSnoc(hw, ws, Ccr(true));
    OnAfterAppend(false, ws, [Ccr(true)]);
  }

  lemma DisableOff(on: bool, hw: Hw)
    requires Fits(hw)
    ensures var ws := CallWrites(on, hw, Disable);
            !OnAfter(on, ws) && Ccr(true) !in ws && Perform(hw, ws) == SweepAll(CleanInvalidate, hw)
  {
    var ws := SweepWrites(CleanInvalidate, hw.sets, hw.ways);
    SweepOn(CleanInvalidate, hw, false);
    RegisterStepIs(Sys(on, true, hw, {}), Ccr(false));
    PerformAppend(hw, [Ccr(false)], ws);
    OnAfterAppend(on, [Ccr(false)], ws);
  }

  /** If nothing passes in between, an opened call is the single step. */
  lemma QuietCallIsStep(s: Sys, call: Event, ms: seq<Micro>, flat: Memory)
    requires Coherent(s, flat) && Fits(s.hw) && IsCall(call)
    requires Written(ms) == CallWrites(s.on, s.hw, call) && forall m | m in ms :: m.Register?
    ensures Act(s, Call(call, ms)) == Step(s, call)
  {
    QuietRun(s, ms);
    match call {
      case Enable => if !s.on { EnableOn(s.hw); }
      case Disable => DisableOff(s.on, s.hw);
      case InvalidateAll => SweepOn(Invalidate, s.hw, s.on);
      case MaintainAll(inv) => SweepOn(CleaningOp(inv), s.hw, s.on);
      case MaintainRange(inv, a, n) => BlockOn(CleaningOp(inv), s.hw, a, n, s.on);
      case Give(inv, a, n) => BlockOn(CleaningOp(inv), s.hw, a, n, s.on);
      case Take(a, n) => BlockOn(Invalidate, s.hw, a, n, s.on);
    }
  }

  // ---- what comes before and after one register write ----

  lemma PrefixTail<T>(s: seq<T>, i: nat)
    requires 0 < i <= |s|
    ensures s[..i][0] == s[0] && s[..i][1..] == s[1..][..i - 1] && s[1..][i - 1..] == s[i..]
  {}

  lemma {:induction false} RunSplit(s: Sys, call: Event, ms: seq<Micro>, i: nat)
    requires i <= |ms|
    ensures var u := MicroRun(s, ms[..i]);
            && MicroRun(s, ms) == MicroRun(u, ms[i..])
            && (MicroAllowed(s, call, ms) <==> MicroAllowed(s, call, ms[..i]) && MicroAllowed(u, call, ms[i..]))
    decreases ms
  {
    if i == 0 {
      assert ms[..0] == [] && ms[0..] == ms;
    } else {
      RunSplit(MicroStep(s, ms[0]), call, ms[1..], i - 1);
      PrefixTail(ms, i);
    }
  }

  lemma {:induction false} FlatSplit(flat: Memory, ms: seq<Micro>, i: nat)
    requires i <= |ms|
    ensures FlatMicro(flat, ms) == FlatMicro(FlatMicro(flat, ms[..i]), ms[i..])
    decreases ms
  {
    if i == 0 {
      assert ms[..0] == [] && ms[0..] == ms;
    } else {
      FlatSplit(FlatMicroStep(flat, ms[0]), ms[1..], i - 1);
      PrefixTail(ms, i);
    }
  }

  lemma {:induction false} FlatOutputsSplit(flat: Memory, ms: seq<Micro>, i: nat)
    requires i <= |ms|
    ensures FlatMicroOutputs(flat, ms)
         == FlatMicroOutputs(flat, ms[..i]) + FlatMicroOutputs(FlatMicro(flat, ms[..i]), ms[i..])
    decreases ms
  {
    if i == 0 {
      assert ms[..0] == [] && ms[0..] == ms;
    } else {
      FlatOutputsSplit(FlatMicroStep(flat, ms[0]), ms[1..], i - 1);
      PrefixTail(ms, i);
    }
  }

  lemma {:induction false} OutputsSplit(s: Sys, ms: seq<Micro>, i: nat)
    requires i <= |ms|
    ensures MicroOutputs(s, ms) == MicroOutputs(s, ms[..i]) + MicroOutputs(MicroRun(s, ms[..i]), ms[i..])
    decreases ms
  {
    if i == 0 {
      assert ms[..0] == [] && ms[0..] == ms;
    } else {
      OutputsSplit(MicroStep(s, ms[0]), ms[1..], i - 1);
      PrefixTail(ms, i);
    }
  }

  /** The step that makes the register write after those of a. */
  lemma {:induction false} WrittenAt(ms: seq<Micro>, a: seq<RegWrite>, w: RegWrite, b: seq<RegWrite>)
    returns (i: nat)
    requires Written(ms) == a + [w] + b
    ensures i < |ms| && ms[i] == Register(w) && Written(ms[..i]) == a && Written(ms[i + 1..]) == b
    decreases ms
  {
    var rest := Written(ms[1..]);
    if ms[0].Register? && a == [] {
      assert [ms[0].w] + rest == [w] + b;
      assert ([ms[0].w] + rest)[1..] == ([w] + b)[1..];
      assert ([ms[0].w] + rest)[1..] == rest && ([w] + b)[1..] == b;
      i := 0;
    } else {
      var a' := if ms[0].Register? then a[1..] else a;
      assert rest == a' + [w] + b by {
        if ms[0].Register? {
          assert [ms[0].w] + rest == [a[0]] + (a' + [w] + b);
          assert ([ms[0].w] + rest)[1..] == ([a[0]] + (a' + [w] + b))[1..];
        }
      }
      var k := WrittenAt(ms[1..], a', w, b);
      i := k + 1;
      assert ms[..i][1..] == ms[1..][..k] && ms[1..][k + 1..] == ms[i + 1..];
    }
  }

  /** SCB_EnableDCache of a cache that is off: it is on, and the CPU sees through it, only from the
      store to CCR on, when it holds nothing. */
  lemma EnableInterleaved(s: Sys, ms: seq<Micro>, flat: Memory)
    requires Coherent(s, flat) && !s.on && Fits(s.hw) && MicroAllowed(s, Enable, ms)
    requires Written(ms) == CallWrites(false, s.hw, Enable)
    ensures var t := MicroRun(s, ms); t.on && Coherent(t, FlatMicro(flat, ms)) && Fits(t.hw)
    ensures MicroOutputs(s, ms) == FlatMicroOutputs(flat, ms)
  {
    var ws := SweepWrites(Invalidate, s.hw.sets, s.hw.ways);
    assert ws + [Ccr(true)] + [] == ws + [Ccr(true)];
    var i := WrittenAt(ms, ws, Ccr(true), []);
    RunSplit(s, Enable, ms, i);
    FlatSplit(flat, ms, i);
    FlatOutputsSplit(flat, ms, i);
    OutputsSplit(s, ms, i);
    EmptyingInterleaved(s, Enable, ms[..i], flat);
    var u, m, rest := MicroRun(s, ms[..i]), FlatMicro(flat, ms[..i]), ms[i..];
    assert rest[1..] == ms[i + 1..];
    var v := MicroStep(u, rest[0]);
    assert Coherent(v, m);
    CleaningRun(v, Enable, Clean, rest[1..], m);
  }

  /** SCB_DisableDCache: the cache is off from the store to CCR on, and then cleared. */
  lemma DisablingInterleaved(s: Sys, ms: seq<Micro>, flat: Memory)
    requires Coherent(s, flat) && s.settled && Fits(s.hw) && MicroAllowed(s, Disable, ms)
    requires Written(ms) == CallWrites(s.on, s.hw, Disable)
    ensures var t, m := MicroRun(s, ms), FlatMicro(flat, ms);
            && !t.on && Coherent(t, m) && Fits(t.hw) && Empty(t.hw) && t.hw.mem == m
    ensures MicroOutputs(s, ms) == FlatMicroOutputs(flat, ms)
  {
    var ws := SweepWrites(CleanInvalidate, s.hw.sets, s.hw.ways);
    assert [] + [Ccr(false)] + ws == [Ccr(false)] + ws;
    var i := WrittenAt(ms, [], Ccr(false), ws);
    RunSplit(s, Disable, ms, i);
    FlatSplit(flat, ms, i);
    FlatOutputsSplit(flat, ms, i);
    OutputsSplit(s, ms, i);
    CleaningRun(s, Disable, Clean, ms[..i], flat);
    var u, m, rest := MicroRun(s, ms[..i]), FlatMicro(flat, ms[..i]), ms[i..];
    assert rest[1..] == ms[i + 1..];
    assert MicroStep(u, rest[0]) == u.(on := false);
    DisableInterleaved(u, rest[1..], m);
  }

  /** The order of the stores in SCB_EnableDCache matters. If the store to CCR came before the nest,
      the CPU would see what the cache held at power-up, and the cache could write it back. */
  lemma EnableBeforeNestCorrupts()
    ensures var s := Sys(false, false, Views.DIRTY_AT_POWER_UP, {});
            var t := RegisterStep(s, Ccr(true));
            && Coherent(s, s.hw.mem)
            && Output(t, Load(0)) != Output(s, Load(0))
            && Permitted(t, WriteBack(Slot(0, 0))) && Step(t, WriteBack(Slot(0, 0))).hw.mem != s.hw.mem
  {
    var hw := Views.DIRTY_AT_POWER_UP;
    Views.PowerUpWritesBack(false);
    LookupFinds(hw, 0, Slot(0, 0));
    assert Apply(Clean, hw, Slot(0, 0)).mem[0] == Views.ONES;
    assert Views.ONES[0] != ZERO_LINE[0];
  }

  // ---- every run ----

  /** Each SCB function keeps the machine coherent, whatever passes between its register writes. */
  lemma CallKeepsCoherence(s: Sys, call: Event, ms: seq<Micro>, flat: Memory)
    requires Coherent(s, flat) && Fits(s.hw) && MayAct(s, Call(call, ms))
    ensures var t := Act(s, Call(call, ms)); Coherent(t, FlatMicro(flat, ms)) && Fits(t.hw)
    ensures MicroOutputs(s, ms) == FlatMicroOutputs(flat, ms)
  {
    match call {
      case Enable =>
        if s.on {
          CleaningRun(s, call, Clean, ms, flat);
        } else {
          EnableInterleaved(s, ms, flat);
        }
      case InvalidateAll => EmptyingInterleaved(s, call, ms, flat);
      case Disable => DisablingInterleaved(s, ms, flat);
      case MaintainAll(inv) => WholeCleaningInterleaved(s, inv, ms, flat);
      case MaintainRange(inv, a, n) => RangeCleaningInterleaved(s, call, inv, a, n, ms, flat);
      case Give(inv, a, n) => GiveInterleaved(s, inv, a, n, ms, flat);
      case Take(a, n) => TakeInterleaved(s, a, n, ms, flat);
    }
  }

  lemma ActionKeepsCoherence(s: Sys, x: Action, flat: Memory)
    requires Coherent(s, flat) && Fits(s.hw) && MayAct(s, x)
    ensures Coherent(Act(s, x), FlatAct(flat, x)) && Fits(Act(s, x).hw)
    ensures ActOutputs(s, x) == FlatActOutputs(flat, x)
  {
    match x {
      case Happens(e) =>
        OutputsAgree(s, e, flat);
        StepKeepsCoherence(s, e, flat);
        BackgroundFrame(s, e);
      case Call(call, ms) => CallKeepsCoherence(s, call, ms, flat);
    }
  }

  ghost predicate MayRun(s: Sys, xs: seq<Action>)
    decreases xs
  {
    xs != [] ==> Fits(s.hw) && MayAct(s, xs[0]) && MayRun(Act(s, xs[0]), xs[1..])
  }

  ghost function RunOutputs(s: Sys, xs: seq<Action>): seq<Option<Byte>>
    decreases xs
  {
    if xs == [] then [] else ActOutputs(s, xs[0]) + RunOutputs(Act(s, xs[0]), xs[1..])
  }

  ghost function RunEnd(s: Sys, xs: seq<Action>): Sys
    decreases xs
  {
    if xs == [] then s else RunEnd(Act(s, xs[0]), xs[1..])
  }

  function FlatRunOutputs(flat: Memory, xs: seq<Action>): seq<Option<Byte>>
    decreases xs
  {
    if xs == [] then [] else FlatActOutputs(flat, xs[0]) + FlatRunOutputs(FlatAct(flat, xs[0]), xs[1..])
  }

  function FlatRunEnd(flat: Memory, xs: seq<Action>): Memory
    decreases xs
  {
    if xs == [] then flat else FlatRunEnd(FlatAct(flat, xs[0]), xs[1..])
  }

  /** Over every run in which calls follow one another and are open to what passes, every CPU load
      and every read by the bus master, also one made during a call, returns what one flat memory
      would have returned. */
  lemma {:induction false} OpenRunsAgreeWithFlatMemory(s: Sys, xs: seq<Action>, flat: Memory)
    requires Coherent(s, flat) && MayRun(s, xs)
    ensures RunOutputs(s, xs) == FlatRunOutputs(flat, xs)
    ensures Coherent(RunEnd(s, xs), FlatRunEnd(flat, xs))
    decreases xs
  {
    if xs == [] {
    } else {
      ActionKeepsCoherence(s, xs[0], flat);
      OpenRunsAgreeWithFlatMemory(Act(s, xs[0]), xs[1..], FlatAct(flat, xs[0]));
    }
  }

  /** And from power-up, when the cache may hold anything. */
  lemma OpenRunsFromPowerUp(hw: Hw, xs: seq<Action>)
    requires Shaped(hw) && MayRun(Sys(false, false, hw, {}), xs)
    ensures RunOutputs(Sys(false, false, hw, {}), xs) == FlatRunOutputs(hw.mem, xs)
  {
    OpenRunsAgreeWithFlatMemory(Sys(false, false, hw, {}), xs, hw.mem);
  }
}
