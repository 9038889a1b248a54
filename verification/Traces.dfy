/** The register writes the two families of loops make, and which slots and lines they name. */
module Traces {
  import opened Word32
  import opened CacheModel
  import opened Registers

  /** The cache and main memory after one register write. Writes to ICIMVAU and to CCR leave them
      alone. */
  function Perform1(hw: Hw, w: RegWrite): Hw {
    match w
    case SetWay(op, word) => Apply(op, hw, SlotOf(word))
    case ByAddress(DataLine(op), a) => ApplyLine(op, hw, LineOf(a))
    case ByAddress(InstructionLine, _) => hw
    case Ccr(_) => hw
  }

  function Perform(hw: Hw, ws: seq<RegWrite>): Hw {
    if ws == [] then hw else Perform1(Perform(hw, ws[..|ws| - 1]), ws[|ws| - 1])
  }

  /** Whether the data cache is on after a sequence of register writes. */
  function OnAfter(on: bool, ws: seq<RegWrite>): bool {
    if ws == [] then on
    else match ws[|ws| - 1]
      case Ccr(dc) => dc
      case _ => OnAfter(on, ws[..|ws| - 1])
  }

  // ---- the set/way nests ----

  function SetWayWrite(op: Op, s: Word, w: Word): RegWrite {
    SetWay(op, SetWayWord(s, w))
  }

  /** The writes for ways n - 1 down to 0 of set s. */
  function WayWrites(op: Op, s: Word, n: nat): seq<RegWrite>
    requires n <= WORD
  {
    if n == 0 then [] else [SetWayWrite(op, s, n - 1)] + WayWrites(op, s, n - 1)
  }

  /** The writes for sets n - 1 down to 0, each over all its ways. */
  function SweepWrites(op: Op, n: nat, ways: nat): seq<RegWrite>
    requires n <= WORD && ways <= WORD
  {
    if n == 0 then [] else WayWrites(op, n - 1, ways) + SweepWrites(op, n - 1, ways)
  }

  function WaySlots(s: nat, n: nat): (ps: seq<Slot>)
    ensures |ps| == n
  {
    if n == 0 then [] else [Slot(s, n - 1)] + WaySlots(s, n - 1)
  }

  /** Every slot of n sets of the given number of ways, in descending order. */
  function Sweep(n: nat, ways: nat): seq<Slot> {
    if n == 0 then [] else WaySlots(n - 1, ways) + Sweep(n - 1, ways)
  }

  ghost predicate NoRepeats<T(!new)>(s: seq<T>) {
    forall i, j | 0 <= i < j < |s| :: s[i] != s[j]
  }

  lemma NoRepeatsConcat<T(!new)>(a: seq<T>, b: seq<T>)
    requires NoRepeats(a) && NoRepeats(b)
    requires forall x | x in a :: x !in b
    ensures NoRepeats(a + b)
  {
    var s := a + b;
    forall i, j | 0 <= i < j < |s| ensures s[i] != s[j] {
      if i < |a| <= j {
        assert s[i] in a && s[j] in b;
      }
    }
  }

  lemma {:induction false} WaySlotsHold(s: nat, n: nat, p: Slot)
    ensures p in WaySlots(s, n) <==> p.index == s && p.way < n
  {
    if n == 0 {
    } else {
      WaySlotsHold(s, n - 1, p);
      assert WaySlots(s, n) == [Slot(s, n - 1)] + WaySlots(s, n - 1);
    }
  }

  lemma {:induction false} WaySlotsOnce(s: nat, n: nat)
    ensures NoRepeats(WaySlots(s, n))
  {
    if n == 0 {
    } else {
      WaySlotsOnce(s, n - 1);
      WaySlotsHold(s, n - 1, Slot(s, n - 1));
      NoRepeatsConcat([Slot(s, n - 1)], WaySlots(s, n - 1));
    }
  }

  lemma WaySlotsExact(s: nat, n: nat)
    ensures NoRepeats(WaySlots(s, n))
    ensures forall p :: p in WaySlots(s, n) <==> p.index == s && p.way < n
  {
    WaySlotsOnce(s, n);
    forall p ensures p in WaySlots(s, n) <==> p.index == s && p.way < n {
      WaySlotsHold(s, n, p);
    }
  }

  lemma ProductStep(n: nat, ways: nat)
    requires n > 0
    ensures n * ways == ways + (n - 1) * ways
  {}

  lemma {:induction false} SweepLength(n: nat, ways: nat)
    ensures |Sweep(n, ways)| == n * ways
  {
    if n == 0 {
    } else {
      SweepLength(n - 1, ways);
      ProductStep(n, ways);
    }
  }

  lemma {:induction false} SweepSlots(n: nat, ways: nat)
    ensures forall p :: p in Sweep(n, ways) <==> p.index < n && p.way < ways
    ensures NoRepeats(Sweep(n, ways))
  {
    if n == 0 {
    } else {
      SweepSlots(n - 1, ways);
      WaySlotsExact(n - 1, ways);
      NoRepeatsConcat(WaySlots(n - 1, ways), Sweep(n - 1, ways));
    }
  }

  /** A sweep names each slot of the geometry exactly once, and nothing else. */
  lemma SweepExact(n: nat, ways: nat)
    ensures |Sweep(n, ways)| == n * ways && NoRepeats(Sweep(n, ways))
    ensures forall p :: p in Sweep(n, ways) <==> p.index < n && p.way < ways
  {
    SweepLength(n, ways);
    SweepSlots(n, ways);
  }

  // ---- what the written words name ----

  /** The writes ws name the slots ps, one for one. */
  ghost predicate Names(op: Op, ws: seq<RegWrite>, ps: seq<Slot>) {
    && |ws| == |ps|
    && forall k | 0 <= k < |ws| :: ws[k].SetWay? && ws[k].op == op && SlotOf(ws[k].word) == ps[k]
  }

  lemma NamesConcat(op: Op, ws: seq<RegWrite>, ps: seq<Slot>, ws': seq<RegWrite>, ps': seq<Slot>)
    requires Names(op, ws, ps) && Names(op, ws', ps')
    ensures Names(op, ws + ws', ps + ps')
  {}

  lemma WordNames(op: Op, word: Word, p: Slot)
    requires SlotOf(word) == p
    ensures Names(op, [SetWay(op, word)], [p])
  {}

  lemma OneWriteNames(op: Op, s: Word, w: Word)
    requires s < 512 && w < 4
    ensures Names(op, [SetWayWrite(op, s, w)], [Slot(s, w)])
  {
    SetWayWordDecodes(s, w);
    WordNames(op, SetWayWord(s, w), Slot(s, w));
  }

  lemma {:induction false} WayWritesName(op: Op, s: Word, n: nat)
    requires s < 512 && n <= 4
    ensures Names(op, WayWrites(op, s, n), WaySlots(s, n))
  {
    if n == 0 {
    } else {
      WayWritesName(op, s, n - 1);
      OneWriteNames(op, s, n - 1);
      NamesConcat(op, [SetWayWrite(op, s, n - 1)], [Slot(s, n - 1)], WayWrites(op, s, n - 1), WaySlots(s, n - 1));
    }
  }

  /** Within 512 sets and 4 ways every write of the nest names its own slot. */
  lemma {:induction false} SweepWritesName(op: Op, n: nat, ways: nat)
    requires n <= 512 && ways <= 4
    ensures Names(op, SweepWrites(op, n, ways), Sweep(n, ways))
  {
    if n == 0 {
    } else {
      SweepWritesName(op, n - 1, ways);
      WayWritesName(op, n - 1, ways);
      NamesConcat(op, WayWrites(op, n - 1, ways), WaySlots(n - 1, ways),
                  SweepWrites(op, n - 1, ways), Sweep(n - 1, ways));
    }
  }

  lemma {:induction false} PerformNamed(op: Op, hw: Hw, ws: seq<RegWrite>, ps: seq<Slot>)
    requires Names(op, ws, ps)
    ensures Perform(hw, ws) == ApplySlots(op, hw, ps)
  {
    if ws == [] {
    } else {
      var n := |ws| - 1;
      PerformNamed(op, hw, ws[..n], ps[..n]);
    }
  }

  /** Some write of ws names slot p. */
  ghost predicate Reaches(ws: seq<RegWrite>, p: Slot) {
    exists k :: 0 <= k < |ws| && ws[k].SetWay? && SlotOf(ws[k].word) == p
  }

  lemma {:induction false} ReachedFitsFields(op: Op, n: nat, ways: nat, p: Slot)
    requires n <= WORD && ways <= WORD
    requires Reaches(SweepWrites(op, n, ways), p)
    ensures p.index < 512 && p.way < 4
  {
    var ws := SweepWrites(op, n, ways);
    var k :| 0 <= k < |ws| && ws[k].SetWay? && SlotOf(ws[k].word) == p;
  }

  lemma SweepReachesAll(op: Op, n: nat, ways: nat, p: Slot)
    requires n <= 512 && ways <= 4 && p.index < n && p.way < ways
    ensures Reaches(SweepWrites(op, n, ways), p)
  {
    SweepWritesName(op, n, ways);
    SweepSlots(n, ways);
    var ps := Sweep(n, ways);
    var k :| 0 <= k < |ps| && ps[k] == p;
    assert SlotOf(SweepWrites(op, n, ways)[k].word) == p;
  }

  /** The nest reaches every slot of the geometry CCSIDR describes if and only if there are at
      most 512 sets and 4 ways: the set and way fields of the words are 9 and 2 bits wide. */
  lemma SweepReachesAllIff(op: Op, n: nat, ways: nat)
    requires 0 < n <= WORD && 0 < ways <= WORD
    ensures (forall p: Slot | p.index < n && p.way < ways :: Reaches(SweepWrites(op, n, ways), p))
            <==> n <= 512 && ways <= 4
  {
    if n <= 512 && ways <= 4 {
      forall p: Slot | p.index < n && p.way < ways ensures Reaches(SweepWrites(op, n, ways), p) {
        SweepReachesAll(op, n, ways, p);
      }
    } else {
      var p := if n > 512 then Slot(512, 0) else Slot(0, 4);
      if Reaches(SweepWrites(op, n, ways), p) {
        ReachedFitsFields(op, n, ways, p);
      }
    }
  }

  // ---- the by-address loops ----

  /** How many lines a by-address loop visits: the lines between the one that holds addr and
      the one that holds the last byte. */
  function LineCount(addr: Word, size: nat): nat {
    (addr % LINE_SIZE + size + LINE_SIZE - 1) / LINE_SIZE
  }

  function AddressWrites(t: Target, addr: Word, count: nat): seq<RegWrite> {
    seq(count, k requires 0 <= k => ByAddress(t, Wrap(addr + LINE_SIZE * k)))
  }

  /** One more write of a by-address loop, after the writes made before the loop. */
  lemma RoundWritten(t: Target, addr: Word, k: nat, before: seq<RegWrite>, log: seq<RegWrite>)
    requires log == before + AddressWrites(t, addr, k)
    ensures log + [ByAddress(t, Wrap(addr + LINE_SIZE * k))] == before + AddressWrites(t, addr, k + 1)
  {
    assert AddressWrites(t, addr, k + 1) == AddressWrites(t, addr, k) + [ByAddress(t, Wrap(addr + LINE_SIZE * k))];
  }

  lemma {:induction false} PerformSnoc(hw: Hw, ws: seq<RegWrite>, w: RegWrite)
    ensures Perform(hw, ws + [w]) == Perform1(Perform(hw, ws), w)
  {}

  lemma {:induction false} PerformAppend(hw: Hw, ws: seq<RegWrite>, ws': seq<RegWrite>)
    ensures Perform(hw, ws + ws') == Perform(Perform(hw, ws), ws')
  {
    if ws' == [] {
      assert ws + ws' == ws;
    } else {
      var n := |ws'| - 1;
      PerformAppend(hw, ws, ws'[..n]);
      PerformSnoc(hw, ws + ws'[..n], ws'[n]);
      assert ws + ws' == ws + ws'[..n] + [ws'[n]];
    }
  }

  lemma WrapPrevious(x: Word)
    requires 0 < x
    ensures Wrap(x - 1) == x - 1
  {}

  /** What is left of a nest from way w of set s on: the write for w, then the rest. */
  lemma WaysLeft(op: Op, s: Word, w: Word, log: seq<RegWrite>)
    ensures log + WayWrites(op, s, w + 1) == log + [SetWayWrite(op, s, w)] + WayWrites(op, s, w)
    ensures w > 0 ==> Wrap(w - 1) + 1 == w
  {
    if w > 0 { WrapPrevious(w); }
  }

  lemma SetsLeft(op: Op, s: Word, ways: nat, log: seq<RegWrite>)
    requires ways <= WORD
    ensures log + SweepWrites(op, s + 1, ways) == log + WayWrites(op, s, ways) + SweepWrites(op, s, ways)
    ensures s > 0 ==> Wrap(s - 1) + 1 == s
  {
    if s > 0 { WrapPrevious(s); }
  }

  /** The lines from the one holding addr upwards; line numbers wrap at the top of the address space. */
  function LineRun(addr: Word, count: nat): seq<LineNo> {
    seq(count, k requires 0 <= k => LineOf(Wrap(addr + LINE_SIZE * k)))
  }

  predicate ByteOnLine(addr: Word, j: nat, l: LineNo) {
    LineOf(Wrap(addr + j)) == l
  }

  /** Line l contains a byte of the size bytes at addr. */
  ghost predicate Touches(addr: Word, size: nat, l: LineNo) {
    exists j: nat :: j < size && ByteOnLine(addr, j, l)
  }

  lemma RunLine(addr: Word, k: nat)
    ensures LineOf(Wrap(addr + LINE_SIZE * k)) == (addr / LINE_SIZE + k) % LINES
  {}

  lemma ByteLine(addr: Word, j: nat)
    ensures LineOf(Wrap(addr + j)) == (addr / LINE_SIZE + (addr % LINE_SIZE + j) / LINE_SIZE) % LINES
  {
    var line := addr / LINE_SIZE + (addr % LINE_SIZE + j) / LINE_SIZE;
    QuotientIs(addr + j, LINE_SIZE, line, (addr % LINE_SIZE + j) % LINE_SIZE);
    QuotientIs(addr + j, WORD, line / LINES, LINE_SIZE * (line % LINES) + (addr + j) % LINE_SIZE);
    QuotientIs(Wrap(addr + j), LINE_SIZE, line % LINES, (addr + j) % LINE_SIZE);
  }

  lemma RunIsTouched(addr: Word, size: nat, k: nat)
    requires 0 < size && k < LineCount(addr, size)
    ensures Touches(addr, size, LineRun(addr, LineCount(addr, size))[k])
  {
    var j := if k == 0 then 0 else LINE_SIZE * k - addr % LINE_SIZE;
    RunLine(addr, k);
    ByteLine(addr, j);
    assert (addr % LINE_SIZE + j) / LINE_SIZE == k;
    assert ByteOnLine(addr, j, LineRun(addr, LineCount(addr, size))[k]);
  }

  lemma TouchedIsRun(addr: Word, size: nat, l: LineNo)
    requires Touches(addr, size, l)
    ensures l in LineRun(addr, LineCount(addr, size))
  {
    var j: nat :| j < size && ByteOnLine(addr, j, l);
    ByteLine(addr, j);
    var k := (addr % LINE_SIZE + j) / LINE_SIZE;
    RunLine(addr, k);
    assert LineRun(addr, LineCount(addr, size))[k] == l;
  }

  lemma DistinctModulo(base: nat, i: nat, j: nat)
    requires i < j < i + LINES
    ensures (base + i) % LINES != (base + j) % LINES
  {}

  /** A by-address loop visits exactly the lines that contain a byte of the block, each once,
      although it never aligns the address it advances. */
  lemma RunCoversExactly(addr: Word, size: nat)
    requires 0 < size < 0x8000_0000
    ensures forall l: LineNo :: l in LineRun(addr, LineCount(addr, size)) <==> Touches(addr, size, l)
    ensures NoRepeats(LineRun(addr, LineCount(addr, size)))
  {
    var n := LineCount(addr, size);
    var run := LineRun(addr, n);
    forall l: LineNo ensures l in run <==> Touches(addr, size, l) {
      if l in run {
        var k :| 0 <= k < n && run[k] == l;
        RunIsTouched(addr, size, k);
      }
      if Touches(addr, size, l) {
        TouchedIsRun(addr, size, l);
      }
    }
    forall i, j | 0 <= i < j < n ensures run[i] != run[j] {
      RunLine(addr, i);
      RunLine(addr, j);
      DistinctModulo(addr / LINE_SIZE, i, j);
    }
  }

  /** The last line is that of the last byte. */
  lemma RunEnds(addr: Word, size: nat)
    requires 0 < size && addr + size <= WORD
    ensures LineOf(addr) + LineCount(addr, size) - 1 == LineOf(addr + size - 1)
  {
    var last := addr % LINE_SIZE + size - 1;
    QuotientIs(last + LINE_SIZE, LINE_SIZE, last / LINE_SIZE + 1, last % LINE_SIZE);
    QuotientIs(addr + size - 1, LINE_SIZE, addr / LINE_SIZE + last / LINE_SIZE, last % LINE_SIZE);
  }

  lemma SmallModulo(x: nat, b: nat)
    requires x < b
    ensures x % b == x
  {}

  /** Away from the top of the address space the lines come in ascending order, from the line of
      the first byte to the line of the last. */
  lemma RunAscends(addr: Word, size: nat)
    requires 0 < size < 0x8000_0000 && addr + size <= WORD
    ensures var n := LineCount(addr, size);
            && LineOf(addr) + n - 1 == LineOf(addr + size - 1)
            && forall k: nat | k < n :: LineRun(addr, n)[k] == LineOf(addr) + k
  {
    var n := LineCount(addr, size);
    RunEnds(addr, size);
    forall k: nat | k < n ensures LineRun(addr, n)[k] == LineOf(addr) + k {
      RunLine(addr, k);
      SmallModulo(LineOf(addr) + k, LINES);
    }
  }

  lemma {:induction false} PerformRun(op: Op, hw: Hw, addr: Word, count: nat)
    ensures Perform(hw, AddressWrites(DataLine(op), addr, count)) == ApplyLines(op, hw, LineRun(addr, count))
  {
    if count == 0 {
    } else {
      PerformRun(op, hw, addr, count - 1);
      assert AddressWrites(DataLine(op), addr, count)[..count - 1] == AddressWrites(DataLine(op), addr, count - 1);
      assert LineRun(addr, count)[..count - 1] == LineRun(addr, count - 1);
    }
  }

  lemma {:induction false} PerformInstructionRun(hw: Hw, addr: Word, count: nat)
    ensures Perform(hw, AddressWrites(InstructionLine, addr, count)) == hw
  {
    if count == 0 {
    } else {
      PerformInstructionRun(hw, addr, count - 1);
      assert AddressWrites(InstructionLine, addr, count)[..count - 1]
          == AddressWrites(InstructionLine, addr, count - 1);
    }
  }
}
