/** `SysTick_Config` and the timer it starts (section B3.3 of the ARMv7-M Architecture Reference
    Manual). */
module SysTick {
  import opened Word32
  import opened Priority
  import opened Nvic

  const RELOAD_MSK: Word := 0xFF_FFFF
  const ENABLE: bv32 := 1
  const TICKINT: bv32 := 2
  const CLKSOURCE: bv32 := 4

  /** `fired` counts the interrupts the timer has requested. */
  datatype Timer = Timer(load: nat, val: nat, ctrl: bv32, fired: nat)

  /** One counter step: from 0 the timer reloads, and on counting to 0 it requests its interrupt. */
  function Tick(t: Timer): Timer {
    if t.ctrl & ENABLE == 0 then t
    else if t.val == 0 then t.(val := t.load)
    else t.(val := t.val - 1,
            fired := t.fired + if t.val == 1 && t.ctrl & TICKINT != 0 then 1 else 0)
  }

  function Ticks(t: Timer, n: nat): Timer {
    if n == 0 then t else Tick(Ticks(t, n - 1))
  }

  /** The timer right after a successful call. */
  predicate Started(t: Timer, ticks: Word) {
    1 <= ticks <= 0x100_0000 && t.load == ticks - 1 && t.val == 0 && t.ctrl == 7
  }

  /** The control word: clock source, interrupt and counter on. */
  lemma CtrlBits()
    ensures CLKSOURCE | TICKINT | ENABLE == 7 && 7 & ENABLE != 0 && 7 & TICKINT != 0
  {}

  lemma NextMultiple(n: nat, d: nat)
    requires 0 < d
    ensures if n % d == d - 1 then (n + 1) % d == 0 && (n + 1) / d == n / d + 1
            else (n + 1) % d == n % d + 1 && (n + 1) / d == n / d
  {
    var q, r := n / d, n % d;
    assert n == d * q + r;
    if r == d - 1 {
      assert n + 1 == d * (q + 1);
      QuotientIs(n + 1, d, q + 1, 0);
    } else {
      QuotientIs(n + 1, d, q, r + 1);
    }
  }

  /** Where the counter stands after n steps, and how often it has fired. With a reload value of zero
      it stays at zero and never fires. */
  lemma {:induction false} CounterAfter(t: Timer, ticks: Word, n: nat)
    requires Started(t, ticks)
    ensures var u := Ticks(t, n);
            && u.load == t.load && u.ctrl == t.ctrl
            && u.val == (if n % ticks == 0 then 0 else ticks - n % ticks)
            && u.fired == t.fired + (if ticks == 1 then 0 else n / ticks)
  {
    if n == 0 {
      QuotientIs(0, ticks, 0, 0);
    } else {
      CounterAfter(t, ticks, n - 1);
      NextMultiple(n - 1, ticks);
      CtrlBits();
    }
  }

  /** Step n requests an interrupt. */
  predicate FiresAt(t: Timer, n: nat) {
    n > 0 && Ticks(t, n).fired > Ticks(t, n - 1).fired
  }

  /** The k-th interrupt comes after exactly k * ticks steps, for every k, if and only if ticks is
      at least two: with ticks == 1 the call succeeds and the timer never fires. */
  lemma PeriodicIff(t: Timer, ticks: Word)
    requires Started(t, ticks)
    ensures (forall n: nat :: Ticks(t, n).fired == t.fired + n / ticks && (FiresAt(t, n) <==> n > 0 && n % ticks == 0))
       <==> 2 <= ticks
  {
    if 2 <= ticks {
      forall n: nat ensures Ticks(t, n).fired == t.fired + n / ticks && (FiresAt(t, n) <==> n > 0 && n % ticks == 0) {
        CounterAfter(t, ticks, n);
        if n > 0 {
          CounterAfter(t, ticks, n - 1);
          NextMultiple(n - 1, ticks);
        }
      }
    } else {
      CounterAfter(t, 1, 1);
      assert Ticks(t, 1).fired == t.fired && 1 / ticks == 1;
    }
  }

  /** The priority the timer gets is the numerically highest, hence the least urgent. */
  lemma LowestPriority(bits: PrioBits)
    ensures Wrap(Shl(1, bits) - 1) == Pow2(bits) - 1
    ensures (Pow2(bits) - 1) % Pow2(bits) == Pow2(bits) - 1
  {
    ShlOne(bits);
    Pow2Small(bits);
    SmallMod(Pow2(bits) - 1, WORD);
    SmallMod(Pow2(bits) - 1, Pow2(bits));
  }

  /** The wrapped test rejects zero together with the values too large for the reload field. */
  lemma ReloadFits(ticks: Word)
    ensures Wrap(ticks - 1) <= RELOAD_MSK <==> 1 <= ticks <= 0x100_0000
    ensures 1 <= ticks ==> Wrap(ticks - 1) == ticks - 1
  {}

  /** One store of SysTick_Config: LOAD, the priority of the timer, VAL or CTRL. */
  datatype RegWrite = SetLoad(n: Word) | SetPriority(n: Word) | SetVal(n: Word) | SetCtrl(ctrl: bv32)

  /** A store to VAL clears the counter, whatever is stored. */
  function Write(t: Timer, w: RegWrite): Timer {
    match w
    case SetLoad(n) => t.(load := n)
    case SetPriority(_) => t
    case SetVal(_) => t.(val := 0)
    case SetCtrl(ctrl) => t.(ctrl := ctrl)
  }

  class Unit {
    var timer: Timer
    const nvic: Controller
    /** Every store so far, in order. */
    ghost var log: seq<RegWrite>

    constructor (nvic: Controller)
      ensures this.nvic == nvic && timer == Timer(0, 0, 0, 0) && log == []
    {
      this.nvic := nvic;
      timer := Timer(0, 0, 0, 0);
      log := [];
    }

    method Store(w: RegWrite)
      requires nvic.Valid()
      modifies this`timer, this`log, nvic.shpr, nvic.ip
      ensures timer == Write(old(timer), w) && log == old(log) + [w]
      ensures nvic.ip[..] == old(nvic.ip[..]) && nvic.shpr[..11] == old(nvic.shpr[..11])
      ensures w.SetPriority? ==> nvic.PriorityOf(-1) == w.n % Pow2(nvic.bits)
      ensures !w.SetPriority? ==> nvic.shpr[..] == old(nvic.shpr[..])
    {
      match w {
        case SetPriority(n) => nvic.SetPriority(-1, n);
        case _ => timer := Write(timer, w);
      }
      log := log + [w];
    }

    /** Programs the reload value, the priority, the counter and the control register, in this
        order, or reports that the reload value is impossible. */
    method Config(ticks: Word) returns (r: Word)
      requires nvic.Valid()
      modifies this`timer, this`log, nvic.shpr, nvic.ip
      ensures r == 0 <==> 1 <= ticks <= 0x100_0000
      ensures r == 0 ==> Started(timer, ticks) && timer == Timer(ticks - 1, 0, 7, old(timer.fired))
      ensures r == 0 ==>
                log == old(log) + [SetLoad(ticks - 1), SetPriority(Wrap(Shl(1, nvic.bits) - 1)), SetVal(0), SetCtrl(7)]
      ensures r == 0 ==> nvic.PriorityOf(-1) == Pow2(nvic.bits) - 1
      ensures r == 0 ==> nvic.ip[..] == old(nvic.ip[..]) && nvic.shpr[..11] == old(nvic.shpr[..11])
      ensures r != 0 ==> r == 1 && timer == old(timer) && log == old(log)
      ensures r != 0 ==> nvic.ip[..] == old(nvic.ip[..]) && nvic.shpr[..] == old(nvic.shpr[..])
    {
      ReloadFits(ticks);
      if Wrap(ticks - 1) > RELOAD_MSK { return 1; }
      CtrlBits();
      LowestPriority(nvic.bits);
      Store(SetLoad(Wrap(ticks - 1)));
      Store(SetPriority(Wrap(Shl(1, nvic.bits) - 1)));
      Store(SetVal(0));
      Store(SetCtrl(CLKSOURCE | TICKINT | ENABLE));
      return 0;
    }
  }
}
