/** The maintenance functions agree with one another. */
module Agreement {
  import opened Word32
  import opened CacheModel
  import opened Traces
  import opened Maintenance
  import opened Sweeps
  import opened HandOff

  lemma CleanThenInvalidate(a: Hw, sel: set<Slot>, b: Hw, c: Hw)
    requires Shaped(a) && Tagged(a)
    requires Maintained(Clean, a, sel, b) && Maintained(Invalidate, b, sel, c)
    ensures Maintained(CleanInvalidate, a, sel, c)
  {}

  /** SCB_CleanInvalidateDCache has the effect of SCB_CleanDCache and then SCB_InvalidateDCache. */
  lemma CleanInvalidateIsCleanThenInvalidate(hw: Hw)
    requires Shaped(hw) && Tagged(hw)
    ensures SweepAll(CleanInvalidate, hw) == SweepAll(Invalidate, SweepAll(Clean, hw))
  {
    var b := SweepAll(Clean, hw);
    SweepAllMaintains(Clean, hw);
    MaintainedTagged(Clean, hw, AllSlots(hw), b);
    SweepAllMaintains(Invalidate, b);
    SweepAllMaintains(CleanInvalidate, hw);
    CleanThenInvalidate(hw, AllSlots(hw), b, SweepAll(Invalidate, b));
    MaintainedIsFunctional(CleanInvalidate, hw, AllSlots(hw),
                           SweepAll(CleanInvalidate, hw), SweepAll(Invalidate, b));
  }

  /** The same holds of the calls by address on any block. */
  lemma RangeCleanInvalidateIsCleanThenInvalidate(hw: Hw, addr: Word, dsize: Int32)
    requires Shaped(hw) && Tagged(hw)
    ensures SweepRange(CleanInvalidate, hw, addr, dsize)
         == SweepRange(Invalidate, SweepRange(Clean, hw, addr, dsize), addr, dsize)
  {
    var b := SweepRange(Clean, hw, addr, dsize);
    var sel := Holders(hw, Block(addr, dsize));
    SweepRangeMaintains(Clean, hw, addr, dsize);
    MaintainedTagged(Clean, hw, sel, b);
    SweepRangeMaintains(Invalidate, b, addr, dsize);
    assert Holders(b, Block(addr, dsize)) == sel;
    SweepRangeMaintains(CleanInvalidate, hw, addr, dsize);
    CleanThenInvalidate(hw, sel, b, SweepRange(Invalidate, b, addr, dsize));
    MaintainedIsFunctional(CleanInvalidate, hw, sel,
                           SweepRange(CleanInvalidate, hw, addr, dsize), SweepRange(Invalidate, b, addr, dsize));
  }

  lemma MaintainTwiceMemory(op: Op, a: Hw, ls: set<LineNo>, b: Hw, ls': set<LineNo>, c: Hw, l: LineNo)
    requires Shaped(a) && Tagged(a)
    requires Maintained(op, a, Holders(a, ls), b) && Maintained(op, b, Holders(b, ls'), c)
    ensures c.mem[l] == MemAfter(op, a, Holders(a, ls + ls'), l)
  {
    LookupAfter(op, a, Holders(a, ls), b, l);
    MaintainedTagged(op, a, Holders(a, ls), b);
    HolderInBlock(a, ls, l);
    HolderInBlock(a, ls + ls', l);
    HolderInBlock(b, ls', l);
  }

  /** Two calls by address in a row maintain what either selects. */
  lemma MaintainTwice(op: Op, a: Hw, ls: set<LineNo>, b: Hw, ls': set<LineNo>, c: Hw)
    requires Shaped(a) && Tagged(a)
    requires Maintained(op, a, Holders(a, ls), b) && Maintained(op, b, Holders(b, ls'), c)
    ensures Maintained(op, a, Holders(a, ls + ls'), c)
  {
    var sel := Holders(a, ls + ls');
    forall p | p in a.cache
      ensures c.cache[p] == if p in sel then Effect(op, a.cache[p]) else a.cache[p]
    {
      assert p in Holders(a, ls) <==> a.cache[p].valid && a.cache[p].line in ls;
      assert p in Holders(b, ls') <==> b.cache[p].valid && b.cache[p].line in ls';
    }
    forall l: LineNo ensures c.mem[l] == MemAfter(op, a, sel, l) {
      MaintainTwiceMemory(op, a, ls, b, ls', c, l);
    }
  }

  lemma WrapAgain(addr: Word, n: nat, j: nat)
    ensures Wrap(Wrap(addr + n) + j) == Wrap(addr + (n + j))
  {}

  lemma WholeInParts(addr: Word, n: Int32, m: Int32, l: LineNo)
    requires 0 <= n && 0 <= m && n + m < 0x8000_0000
    requires l in Block(addr, n + m)
    ensures l in Block(addr, n) || l in Block(Wrap(addr + n), m)
  {
    var j: nat :| j < n + m && ByteOnLine(addr, j, l);
    if j >= n {
      WrapAgain(addr, n, j - n);
      assert ByteOnLine(Wrap(addr + n), j - n, l);
    }
  }

  lemma PartsInWhole(addr: Word, n: Int32, m: Int32, l: LineNo)
    requires 0 <= n && 0 <= m && n + m < 0x8000_0000
    requires l in Block(addr, n) || l in Block(Wrap(addr + n), m)
    ensures l in Block(addr, n + m)
  {
    if l in Block(addr, n) {
      var j: nat :| j < n && ByteOnLine(addr, j, l);
      assert j < n + m;
    } else {
      var j: nat :| j < m && ByteOnLine(Wrap(addr + n), j, l);
      WrapAgain(addr, n, j);
      assert ByteOnLine(addr, n + j, l);
    }
  }

  lemma BlockSplits(addr: Word, n: Int32, m: Int32)
    requires 0 <= n && 0 <= m && n + m < 0x8000_0000
    ensures Block(addr, n + m) == Block(addr, n) + Block(Wrap(addr + n), m)
  {
    var whole, parts := Block(addr, n + m), Block(addr, n) + Block(Wrap(addr + n), m);
    forall l: LineNo | l in whole ensures l in parts {
      WholeInParts(addr, n, m, l);
    }
    forall l: LineNo | l in parts ensures l in whole {
      PartsInWhole(addr, n, m, l);
    }
  }

  /** Maintaining a block is maintaining its two parts, wherever it is cut: a line that both
      parts share is maintained twice to no further effect. */
  lemma RangeSplits(op: Op, hw: Hw, addr: Word, n: Int32, m: Int32)
    requires Shaped(hw) && Tagged(hw)
    requires 0 <= n && 0 <= m && n + m < 0x8000_0000
    ensures SweepRange(op, hw, addr, n + m) == SweepRange(op, SweepRange(op, hw, addr, n), Wrap(addr + n), m)
  {
    var b := SweepRange(op, hw, addr, n);
    SweepRangeMaintains(op, hw, addr, n + m);
    SweepRangeMaintains(op, hw, addr, n);
    MaintainedTagged(op, hw, Holders(hw, Block(addr, n)), b);
    SweepRangeMaintains(op, b, Wrap(addr + n), m);
    MaintainTwice(op, hw, Block(addr, n), b, Block(Wrap(addr + n), m), SweepRange(op, b, Wrap(addr + n), m));
    BlockSplits(addr, n, m);
    MaintainedIsFunctional(op, hw, Holders(hw, Block(addr, n + m)),
                           SweepRange(op, hw, addr, n + m), SweepRange(op, b, Wrap(addr + n), m));
  }

  // ---- the whole cache against a family of blocks ----

  datatype Range = Range(addr: Word, size: Int32)

  function SweepRanges(op: Op, hw: Hw, rs: seq<Range>): Hw {
    if rs == [] then hw
    else SweepRange(op, SweepRanges(op, hw, rs[..|rs| - 1]), rs[|rs| - 1].addr, rs[|rs| - 1].size)
  }

  ghost function Blocks(rs: seq<Range>): set<LineNo> {
    if rs == [] then {}
    else Blocks(rs[..|rs| - 1]) + Block(rs[|rs| - 1].addr, rs[|rs| - 1].size)
  }

  lemma {:induction false} RangesMaintain(op: Op, hw: Hw, rs: seq<Range>)
    requires Shaped(hw) && Tagged(hw)
    ensures Maintained(op, hw, Holders(hw, Blocks(rs)), SweepRanges(op, hw, rs))
  {
    if rs == [] {
      assert Holders(hw, {}) == {};
    } else {
      var n := |rs| - 1;
      RangesMaintain(op, hw, rs[..n]);
      var b := SweepRanges(op, hw, rs[..n]);
      MaintainedTagged(op, hw, Holders(hw, Blocks(rs[..n])), b);
      SweepRangeMaintains(op, b, rs[n].addr, rs[n].size);
      MaintainTwice(op, hw, Blocks(rs[..n]), b, Block(rs[n].addr, rs[n].size), SweepRanges(op, hw, rs));
    }
  }

  /** A whole-cache function and its by-address counterpart, called on any family of blocks that
      between them meet every line held, end in the same state. */
  lemma WholeAgreesWithRanges(op: Op, hw: Hw, rs: seq<Range>)
    requires Shaped(hw) && Tagged(hw)
    requires forall p | p in hw.cache && hw.cache[p].valid :: hw.cache[p].line in Blocks(rs)
    ensures SweepRanges(op, hw, rs) == SweepAll(op, hw)
  {
    var b := SweepRanges(op, hw, rs);
    RangesMaintain(op, hw, rs);
    SweepAllMaintains(op, hw);
    assert Maintained(op, hw, AllSlots(hw), b) by {
      forall l: LineNo ensures b.mem[l] == MemAfter(op, hw, AllSlots(hw), l) {
        HolderInBlock(hw, Blocks(rs), l);
      }
    }
    MaintainedIsFunctional(op, hw, AllSlots(hw), b, SweepAll(op, hw));
  }
}
