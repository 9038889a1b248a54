/** The joint effect of a whole sequence of maintenance writes, stated without an order:
    which slots were selected decides the final state. */
module Maintenance {
  import opened CacheModel

  /** What main memory holds of line l once the slots of sel have been maintained. */
  function MemAfter(op: Op, a: Hw, sel: set<Slot>, l: LineNo): Line {
    match Lookup(a, l)
    case Some(p) => if p in sel && WritesBack(op, a.cache[p]) then a.cache[p].data else a.mem[l]
    case None => a.mem[l]
  }

  /** State b is state a with exactly the slots of sel maintained. */
  ghost predicate Maintained(op: Op, a: Hw, sel: set<Slot>, b: Hw) {
    && b.sets == a.sets && b.ways == a.ways
    && b.cache.Keys == a.cache.Keys
    && (forall p | p in a.cache :: b.cache[p] == if p in sel then Effect(op, a.cache[p]) else a.cache[p])
    && (forall l: LineNo :: b.mem[l] == MemAfter(op, a, sel, l))
  }

  ghost function Elements<T>(s: seq<T>): set<T> {
    set x | x in s
  }

  ghost function Holders(hw: Hw, ls: set<LineNo>): set<Slot> {
    set p | p in hw.cache && hw.cache[p].valid && hw.cache[p].line in ls
  }

  /** `Maintained` determines the resulting state. */
  lemma MaintainedIsFunctional(op: Op, a: Hw, sel: set<Slot>, b: Hw, c: Hw)
    requires Maintained(op, a, sel, b) && Maintained(op, a, sel, c)
    ensures b == c
  {}

  lemma MaintainedTagged(op: Op, a: Hw, sel: set<Slot>, b: Hw)
    requires Shaped(a) && Tagged(a) && Maintained(op, a, sel, b)
    ensures Shaped(b) && Tagged(b)
  {}

  /** A line is found after maintenance unless its slot was selected for invalidation. */
  lemma LookupAfter(op: Op, a: Hw, sel: set<Slot>, b: Hw, l: LineNo)
    requires Shaped(a) && Tagged(a) && Maintained(op, a, sel, b)
    ensures Lookup(b, l) == match Lookup(a, l)
                            case Some(p) => if p in sel && op != Clean then None else Some(p)
                            case None => None
  {
    MaintainedTagged(op, a, sel, b);
    match Lookup(a, l) {
      case Some(p) =>
        LookupFinds(a, l, p);
        LookupFinds(b, l, p);
        if Lookup(b, l).Some? {
          LookupFinds(a, l, Lookup(b, l).value);
        }
      case None =>
        if Lookup(b, l).Some? {
          LookupFinds(a, l, Lookup(b, l).value);
        }
    }
  }

  lemma MaintainOneMemory(op: Op, a: Hw, sel: set<Slot>, b: Hw, p: Slot, l: LineNo)
    requires Shaped(a) && Tagged(a) && Maintained(op, a, sel, b)
    ensures Apply(op, b, p).mem[l] == MemAfter(op, a, sel + {p}, l)
  {
    if p in a.cache {
      LookupFinds(a, l, p);
    }
  }

  /** One more slot. */
  lemma MaintainOne(op: Op, a: Hw, sel: set<Slot>, b: Hw, p: Slot)
    requires Shaped(a) && Tagged(a) && Maintained(op, a, sel, b)
    ensures Maintained(op, a, sel + {p}, Apply(op, b, p))
  {
    forall l: LineNo ensures Apply(op, b, p).mem[l] == MemAfter(op, a, sel + {p}, l) {
      MaintainOneMemory(op, a, sel, b, p, l);
    }
  }

  /** Set/way maintenance of a sequence of slots maintains exactly those slots. */
  lemma {:induction false} SlotsMaintained(op: Op, hw: Hw, ps: seq<Slot>)
    requires Shaped(hw) && Tagged(hw)
    ensures Maintained(op, hw, Elements(ps), ApplySlots(op, hw, ps))
  {
    var sel := Elements(ps);
    if ps == [] {
      assert sel == {};
    } else {
      var n := |ps| - 1;
      SlotsMaintained(op, hw, ps[..n]);
      MaintainOne(op, hw, Elements(ps[..n]), ApplySlots(op, hw, ps[..n]), ps[n]);
      assert ps == ps[..n] + [ps[n]];
      assert sel == Elements(ps[..n]) + {ps[n]};
    }
  }

  lemma HoldersOfOneMore(hw: Hw, ls: set<LineNo>, l: LineNo)
    requires Shaped(hw) && Tagged(hw)
    ensures Holders(hw, ls + {l})
         == match Lookup(hw, l) case Some(p) => Holders(hw, ls) + {p} case None => Holders(hw, ls)
  {
    forall p ensures Holds(hw, p, l) <==> Lookup(hw, l) == Some(p) {
      LookupFinds(hw, l, p);
    }
  }

  /** Maintenance by address of a sequence of lines maintains exactly the slots holding them. */
  lemma {:induction false} LinesMaintained(op: Op, hw: Hw, ls: seq<LineNo>)
    requires Shaped(hw) && Tagged(hw)
    ensures Maintained(op, hw, Holders(hw, Elements(ls)), ApplyLines(op, hw, ls))
  {
    var sel := Holders(hw, Elements(ls));
    if ls == [] {
      assert sel == {};
    } else {
      var n := |ls| - 1;
      var l := ls[n];
      LinesMaintained(op, hw, ls[..n]);
      var before := Holders(hw, Elements(ls[..n]));
      assert ls == ls[..n] + [l];
      assert Elements(ls) == Elements(ls[..n]) + {l};
      var b := ApplyLines(op, hw, ls[..n]);
      LookupAfter(op, hw, before, b, l);
      HoldersOfOneMore(hw, Elements(ls[..n]), l);
      match Lookup(hw, l) {
        case Some(p) => MaintainOne(op, hw, before, b, p);
        case None =>
      }
    }
  }

  /** Maintenance never changes the geometry or the set of slots, tagged or not. */
  lemma {:induction false} SlotsKeepShape(op: Op, hw: Hw, ps: seq<Slot>)
    ensures var r := ApplySlots(op, hw, ps); r.sets == hw.sets && r.ways == hw.ways && r.cache.Keys == hw.cache.Keys
  {
    if ps == [] {
    } else {
      SlotsKeepShape(op, hw, ps[..|ps| - 1]);
    }
  }

  lemma {:induction false} LinesKeepShape(op: Op, hw: Hw, ls: seq<LineNo>)
    ensures var r := ApplyLines(op, hw, ls); r.sets == hw.sets && r.ways == hw.ways && r.cache.Keys == hw.cache.Keys
  {
    if ls == [] {
    } else {
      LinesKeepShape(op, hw, ls[..|ls| - 1]);
    }
  }

  /** Invalidation needs no invariant: whatever the cache holds, every slot named ends invalid, and
      memory keeps its contents unless the slots are cleaned as well. */
  lemma {:induction false} SlotsInvalidated(op: Op, hw: Hw, ps: seq<Slot>)
    requires op != Clean
    ensures var r := ApplySlots(op, hw, ps);
            && (op == Invalidate ==> r.mem == hw.mem)
            && forall p | p in r.cache && p in ps :: !r.cache[p].valid
  {
    if ps == [] {
    } else {
      var n := |ps| - 1;
      SlotsInvalidated(op, hw, ps[..n]);
      assert ps == ps[..n] + [ps[n]];
    }
  }

  /** Nor does cleaning: it changes neither which slots hold a line nor the data they hold. */
  lemma {:induction false} SlotsCleaned(hw: Hw, ps: seq<Slot>, p: Slot)
    requires p in hw.cache
    ensures var r := ApplySlots(Clean, hw, ps);
            && p in r.cache && r.cache[p].valid == hw.cache[p].valid
            && r.cache[p].line == hw.cache[p].line && r.cache[p].data == hw.cache[p].data
  {
    if ps == [] {
    } else {
      SlotsCleaned(hw, ps[..|ps| - 1], p);
    }
  }
}
