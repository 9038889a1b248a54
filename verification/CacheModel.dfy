/** A set-associative write-back data cache in front of main memory, and what the
    maintenance registers of the System Control Block do to it
    (section B2.2 of the ARMv7-M Architecture Reference Manual). */
module CacheModel {
  import opened Word32

  const LINE_SIZE: nat := 32
  const LINES: nat := 0x800_0000

  type Line = s: seq<Byte> | |s| == LINE_SIZE witness seq(LINE_SIZE, _ => 0)
  const ZERO_LINE: Line := seq(LINE_SIZE, _ => 0)
  /** The number of a 32-byte line: bits 31..5 of an address. */
  type LineNo = l: nat | l < LINES
  type Memory = m: seq<Line> | |m| == LINES witness seq<Line>(LINES, _ => ZERO_LINE)
  type Count = n: nat | 0 < n witness 1

  datatype Option<+T> = None | Some(value: T)

  datatype Slot = Slot(index: nat, way: nat)
  /** `line` is the tag together with the set index, so it names the line held. */
  datatype Entry = Entry(valid: bool, dirty: bool, line: LineNo, data: Line)
  datatype Hw = Hw(sets: Count, ways: Count, mem: Memory, cache: map<Slot, Entry>)

  function LineOf(a: Word): LineNo {
    a / LINE_SIZE
  }

  function Peek(m: Memory, a: Word): Byte {
    m[LineOf(a)][a % LINE_SIZE]
  }

  function PokeLine(d: Line, a: Word, v: Byte): Line {
    d[a % LINE_SIZE := v]
  }

  function Poke(m: Memory, a: Word, v: Byte): Memory {
    m[LineOf(a) := PokeLine(m[LineOf(a)], a, v)]
  }

  /** A memory of lines is a memory of bytes. */
  lemma PokePeek(m: Memory, a: Word, v: Byte, b: Word)
    ensures Peek(Poke(m, a, v), b) == if a == b then v else Peek(m, b)
  {}

  // ---- the cache ----

  ghost predicate Shaped(hw: Hw) {
    forall p :: p in hw.cache <==> p.index < hw.sets && p.way < hw.ways
  }

  predicate Holds(hw: Hw, p: Slot, l: LineNo) {
    p in hw.cache && hw.cache[p].valid && hw.cache[p].line == l
  }

  /** A line is held only in the set its number selects, and in one way of it. */
  ghost predicate Tagged(hw: Hw) {
    && (forall p | p in hw.cache && hw.cache[p].valid :: p.index == hw.cache[p].line % hw.sets)
    && (forall p, q | p in hw.cache && q in hw.cache && hw.cache[p].valid && hw.cache[q].valid
                      && hw.cache[p].line == hw.cache[q].line :: p == q)
  }

  /** Compares the tags of ways `n - 1` down to 0 of the set that line l selects. */
  function Scan(hw: Hw, l: LineNo, n: nat): (r: Option<Slot>)
    ensures r.Some? ==> Holds(hw, r.value, l)
    ensures r.None? ==> forall w: nat | w < n :: !Holds(hw, Slot(l % hw.sets, w), l)
  {
    if n == 0 then None
    else if Holds(hw, Slot(l % hw.sets, n - 1), l) then Some(Slot(l % hw.sets, n - 1))
    else Scan(hw, l, n - 1)
  }

  function Lookup(hw: Hw, l: LineNo): Option<Slot> {
    Scan(hw, l, hw.ways)
  }

  /** The look-up finds a line exactly when some slot holds it. */
  lemma LookupFinds(hw: Hw, l: LineNo, p: Slot)
    requires Shaped(hw) && Tagged(hw)
    ensures Lookup(hw, l) == Some(p) <==> Holds(hw, p, l)
  {}

  /** What a cached access to line l sees. */
  function Latest(hw: Hw, l: LineNo): Line {
    match Lookup(hw, l)
    case Some(p) => hw.cache[p].data
    case None => hw.mem[l]
  }

  /** What the CPU sees of line l, with the data cache on or off. */
  function View(on: bool, hw: Hw, l: LineNo): Line {
    if on then Latest(hw, l) else hw.mem[l]
  }

  // ---- maintenance of one slot, of one line ----

  datatype Op = Clean | Invalidate | CleanInvalidate

  function Effect(op: Op, e: Entry): Entry {
    if !e.valid then e
    else match op
      case Clean => e.(dirty := false)
      case Invalidate => e.(valid := false)
      case CleanInvalidate => e.(dirty := false, valid := false)
  }

  predicate WritesBack(op: Op, e: Entry) {
    op != Invalidate && e.valid && e.dirty
  }

  function Apply(op: Op, hw: Hw, p: Slot): Hw {
    if p !in hw.cache then hw
    else
      var e := hw.cache[p];
      hw.(mem := if WritesBack(op, e) then hw.mem[e.line := e.data] else hw.mem,
          cache := hw.cache[p := Effect(op, e)])
  }

  function ApplyLine(op: Op, hw: Hw, l: LineNo): Hw {
    match Lookup(hw, l)
    case Some(p) => Apply(op, hw, p)
    case None => hw
  }

  function ApplySlots(op: Op, hw: Hw, ps: seq<Slot>): Hw {
    if ps == [] then hw
    else Apply(op, ApplySlots(op, hw, ps[..|ps| - 1]), ps[|ps| - 1])
  }

  function ApplyLines(op: Op, hw: Hw, ls: seq<LineNo>): Hw {
    if ls == [] then hw
    else ApplyLine(op, ApplyLines(op, hw, ls[..|ls| - 1]), ls[|ls| - 1])
  }
}
