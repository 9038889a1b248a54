/** What the maintenance functions guarantee to a CPU and to a bus master that reads and writes
    main memory behind the cache. */
module HandOff {
  import opened Word32
  import opened CacheModel
  import opened Traces
  import opened Maintenance
  import opened Sweeps

  /** A line held clean although main memory has moved on. */
  ghost predicate Stale(hw: Hw, l: LineNo) {
    match Lookup(hw, l)
    case Some(p) => !hw.cache[p].dirty && hw.cache[p].data != hw.mem[l]
    case None => false
  }

  ghost predicate DirtyLine(hw: Hw, l: LineNo) {
    match Lookup(hw, l)
    case Some(p) => hw.cache[p].dirty
    case None => false
  }

  function ViewByte(on: bool, hw: Hw, a: Word): Byte {
    View(on, hw, LineOf(a))[a % LINE_SIZE]
  }

  /** Address a lies in the size bytes at addr, which may run over the top of the address space. */
  predicate InBlock(addr: Word, size: nat, a: Word) {
    Wrap(a - addr) < size
  }

  /** A byte of the block handed to a call by address; there is none if dsize is not positive. */
  predicate Selected(addr: Word, dsize: Int32, a: Word) {
    0 < dsize && InBlock(addr, dsize, a)
  }

  lemma BlockHasItsBytes(addr: Word, dsize: Int32, a: Word)
    requires Selected(addr, dsize, a)
    ensures LineOf(a) in Block(addr, dsize)
  {
    var j := Wrap(a - addr);
    assert Wrap(addr + j) == a;
    assert ByteOnLine(addr, j, LineOf(a));
  }

  lemma HolderInBlock(hw: Hw, ls: set<LineNo>, l: LineNo)
    requires Shaped(hw) && Tagged(hw)
    ensures match Lookup(hw, l) case Some(p) => p in Holders(hw, ls) <==> l in ls case None => true
  {}

  /** Line by line effect of a call by address. */
  lemma RangeEffect(op: Op, a: Hw, addr: Word, dsize: Int32, l: LineNo)
    requires Shaped(a) && Tagged(a)
    ensures var b := SweepRange(op, a, addr, dsize);
            && Shaped(b) && Tagged(b)
            && (l !in Block(addr, dsize) ==>
                  (b.mem[l] == a.mem[l] && Latest(b, l) == Latest(a, l) && DirtyLine(b, l) == DirtyLine(a, l)))
            && (l in Block(addr, dsize) ==> (
                  && b.mem[l] == (if op != Invalidate && DirtyLine(a, l) then Latest(a, l) else a.mem[l])
                  && Latest(b, l) == (if op == Clean then Latest(a, l) else b.mem[l])
                  && (op != Clean ==> Lookup(b, l).None?)
                  && (op == Clean ==> !DirtyLine(b, l))))
  {
    var b := SweepRange(op, a, addr, dsize);
    var sel := Holders(a, Block(addr, dsize));
    SweepRangeMaintains(op, a, addr, dsize);
    MaintainedTagged(op, a, sel, b);
    LookupAfter(op, a, sel, b, l);
    HolderInBlock(a, Block(addr, dsize), l);
  }

  /** Cleaning a block never changes what a cached access sees, anywhere; and main memory then
      holds what the CPU sees of the block exactly when no line of the block was stale. */
  lemma CleanHandsOver(a: Hw, addr: Word, dsize: Int32)
    requires Shaped(a) && Tagged(a)
    ensures var b := SweepRange(Clean, a, addr, dsize);
            && (forall l: LineNo :: Latest(b, l) == Latest(a, l))
            && (forall l: LineNo | l !in Block(addr, dsize) :: b.mem[l] == a.mem[l])
            && ((forall l: LineNo | l in Block(addr, dsize) :: b.mem[l] == Latest(b, l))
                <==> (forall l: LineNo | l in Block(addr, dsize) :: !Stale(a, l)))
    ensures var b := SweepRange(Clean, a, addr, dsize);
            (forall l: LineNo | l in Block(addr, dsize) :: !Stale(a, l)) ==>
              forall x: Word | Selected(addr, dsize, x) :: Peek(b.mem, x) == ViewByte(true, a, x)
  {
    forall l: LineNo
      ensures var b := SweepRange(Clean, a, addr, dsize);
              && Latest(b, l) == Latest(a, l)
              && (l !in Block(addr, dsize) ==> b.mem[l] == a.mem[l])
              && (l in Block(addr, dsize) ==> (b.mem[l] == Latest(b, l) <==> !Stale(a, l)))
    {
      RangeEffect(Clean, a, addr, dsize, l);
    }
    forall x: Word | Selected(addr, dsize, x) ensures LineOf(x) in Block(addr, dsize) {
      BlockHasItsBytes(addr, dsize, x);
    }
  }

  /** Invalidating a block makes the CPU see main memory there, leaves main memory alone, and
      leaves every line that has no byte of the block as the CPU saw it. */
  lemma InvalidateTakesBack(on: bool, a: Hw, addr: Word, dsize: Int32)
    requires Shaped(a) && Tagged(a)
    ensures var b := SweepRange(Invalidate, a, addr, dsize);
            && b.mem == a.mem
            && (forall l: LineNo | l in Block(addr, dsize) :: View(on, b, l) == a.mem[l])
            && (forall l: LineNo | l !in Block(addr, dsize) :: View(on, b, l) == View(on, a, l))
            && (forall x: Word | Selected(addr, dsize, x) :: ViewByte(on, b, x) == Peek(a.mem, x))
  {
    var b := SweepRange(Invalidate, a, addr, dsize);
    forall l: LineNo
      ensures b.mem[l] == a.mem[l]
      ensures View(on, b, l) == if l in Block(addr, dsize) then a.mem[l] else View(on, a, l)
    {
      RangeEffect(Invalidate, a, addr, dsize, l);
    }
    assert b.mem == a.mem;
    forall x: Word | Selected(addr, dsize, x) ensures View(on, b, LineOf(x)) == a.mem[LineOf(x)] {
      BlockHasItsBytes(addr, dsize, x);
    }
  }

  /** Bytes beside an unaligned block share its end lines. Invalidation keeps them all as the CPU
      saw them exactly when main memory already held them. */
  lemma InvalidateSparesNeighboursIff(a: Hw, addr: Word, dsize: Int32)
    requires Shaped(a) && Tagged(a)
    ensures (forall x: Word | !Selected(addr, dsize, x) ::
               ViewByte(true, SweepRange(Invalidate, a, addr, dsize), x) == ViewByte(true, a, x))
       <==> (forall x: Word | !Selected(addr, dsize, x) && LineOf(x) in Block(addr, dsize) ::
               ViewByte(true, a, x) == Peek(a.mem, x))
  {
    InvalidateTakesBack(true, a, addr, dsize);
    var b := SweepRange(Invalidate, a, addr, dsize);
    forall x: Word
      ensures ViewByte(true, b, x) == if LineOf(x) in Block(addr, dsize) then Peek(a.mem, x) else ViewByte(true, a, x)
    {
      var l := LineOf(x);
      assert View(true, b, l) == if l in Block(addr, dsize) then a.mem[l] else View(true, a, l);
    }
  }

  lemma AlignedByteLine(addr: Word, j: nat)
    requires addr % LINE_SIZE == 0
    ensures LineOf(Wrap(addr + j)) == (addr / LINE_SIZE + j / LINE_SIZE) % LINES
  {
    ByteLine(addr, j);
  }

  /** Where one byte of a line is inside a whole number of lines, every byte of it is. */
  lemma LineInside(j: nat, r: nat, size: nat)
    requires j < size && size % LINE_SIZE == 0 && r < LINE_SIZE
    ensures LINE_SIZE * (j / LINE_SIZE) + r < size
  {}

  lemma WrapDifference(x: Word, addr: Word, i: nat, q: nat)
    requires x == addr + i - WORD * q && i < WORD
    ensures Wrap(x - addr) == i
  {}

  /** In a block that starts on a line boundary, byte x of the k-th line is byte 32k + x mod 32. */
  lemma OffsetInBlock(addr: Word, k: nat, x: Word)
    requires addr % LINE_SIZE == 0 && k < 0x400_0000
    requires LineOf(x) == (addr / LINE_SIZE + k) % LINES
    ensures Wrap(x - addr) == LINE_SIZE * k + x % LINE_SIZE
  {
    var q := (addr / LINE_SIZE + k) / LINES;
    var i := LINE_SIZE * k + x % LINE_SIZE;
    assert x == addr + i - WORD * q;
    WrapDifference(x, addr, i, q);
  }

  /** A line-aligned block owns every byte of its lines. */
  lemma AlignedBlockOwnsItsLines(addr: Word, dsize: Int32, x: Word)
    requires addr % LINE_SIZE == 0 && dsize % LINE_SIZE == 0
    requires LineOf(x) in Block(addr, dsize)
    ensures Selected(addr, dsize, x)
  {
    var j: nat :| j < dsize && ByteOnLine(addr, j, LineOf(x));
    AlignedByteLine(addr, j);
    OffsetInBlock(addr, j / LINE_SIZE, x);
    LineInside(j, x % LINE_SIZE, dsize);
  }
}
