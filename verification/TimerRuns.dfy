/**
  Whole runs of the notifier: the clock and all its timers, under any interleaving of ticks
  with operations on timers.
 */
module TimerRuns {
  import opened TimerModel
  import opened TimerArithmetic
  import opened TimerExactness

  datatype System<!K> = System(clk: Clock, timers: map<K, Timer>)

  /** `Deliver` pops a timer from the notify list and runs its timeout processing. */
  datatype Event<K> =
    | LowResTick
    | HighResTick
    | Start(id: K, interval: int, d: nat)
    | Stop(id: K)
    | Deliver(id: K, d: nat)

  function Step<K>(sys: System<K>, e: Event<K>): (sys': System<K>)
    requires ValidCursors(sys.clk)
    ensures sys'.clk == ClockStep(sys.clk, e) && sys'.timers.Keys == sys.timers.Keys
  {
    match e
    case LowResTick => System(LowClock(sys.clk), map k | k in sys.timers :: LowTick(sys.timers[k], sys.clk))
    case HighResTick => System(HighClock(sys.clk), map k | k in sys.timers :: HighTick(sys.timers[k], sys.clk))
    case Start(id, interval, d) =>
      if id !in sys.timers then sys
      else sys.(timers := sys.timers[id := Add(sys.timers[id].(interval := interval), sys.clk, d)])
    case Stop(id) =>
      if id !in sys.timers then sys
      else sys.(timers := sys.timers[id := Remove(sys.timers[id])])
    case Deliver(id, d) =>
      if id !in sys.timers || sys.timers[id].place != Notify then sys
      else sys.(timers := sys.timers[id := TimeOut(sys.timers[id], sys.clk, d)])
  }

  function Run<K>(sys: System<K>, es: seq<Event<K>>): (sys': System<K>)
    requires ValidCursors(sys.clk)
    ensures ValidCursors(sys'.clk) && sys'.timers.Keys == sys.timers.Keys
    decreases |es|
  {
    if es == [] then sys else Run(Step(sys, es[0]), es[1..])
  }

  ghost predicate LeavesAlone<K>(es: seq<Event<K>>, id: K) {
    forall i :: 0 <= i < |es| ==> es[i].LowResTick? || es[i].HighResTick? || es[i].id != id
  }

  // ----- one timer along a run that leaves it alone

  function ClockStep<K>(clk: Clock, e: Event<K>): (clk': Clock)
    requires ValidCursors(clk)
    ensures ValidCursors(clk')
  {
    match e
    case LowResTick => LowClock(clk)
    case HighResTick => HighClock(clk)
    case _ => clk
  }

  function TimerStep<K>(t: Timer, clk: Clock, e: Event<K>): Timer
    requires ValidCursors(clk)
  {
    match e
    case LowResTick => LowTick(t, clk)
    case HighResTick => HighTick(t, clk)
    case _ => t
  }

  function ClockRun<K>(clk: Clock, es: seq<Event<K>>): (clk': Clock)
    requires ValidCursors(clk)
    ensures ValidCursors(clk')
    decreases |es|
  {
    if es == [] then clk else ClockRun(ClockStep(clk, es[0]), es[1..])
  }

  function TimerRun<K>(t: Timer, clk: Clock, es: seq<Event<K>>): Timer
    requires ValidCursors(clk)
    decreases |es|
  {
    if es == [] then t else TimerRun(TimerStep(t, clk, es[0]), ClockStep(clk, es[0]), es[1..])
  }

  /** Adding, stopping and delivering other timers never changes what happens to this one. */
  lemma {:induction false} TimersAreIndependent<K>(sys: System<K>, es: seq<Event<K>>, id: K)
    requires ValidCursors(sys.clk) && id in sys.timers && LeavesAlone(es, id)
    ensures Run(sys, es).timers[id] == TimerRun(sys.timers[id], sys.clk, es)
    ensures Run(sys, es).clk == ClockRun(sys.clk, es)
    decreases |es|
  {
    if es != [] {
      assert es[0].LowResTick? || es[0].HighResTick? || es[0].id != id;
      TimersAreIndependent(Step(sys, es[0]), es[1..], id);
    }
  }

  lemma {:induction false} RunsCompose<K>(t: Timer, clk: Clock, es: seq<Event<K>>, es': seq<Event<K>>)
    requires ValidCursors(clk)
    ensures TimerRun(t, clk, es + es') == TimerRun(TimerRun(t, clk, es), ClockRun(clk, es), es')
    ensures ClockRun(clk, es + es') == ClockRun(ClockRun(clk, es), es')
    decreases |es|
  {
    if es == [] {
      assert es + es' == es';
    } else {
      assert (es + es')[1..] == es[1..] + es';
      RunsCompose(TimerStep(t, clk, es[0]), ClockStep(clk, es[0]), es[1..], es');
    }
  }

  // ----- what is counted along a run

  /** Low-resolution ticks while the timer is in wheels 1 to 6. */
  function LowTicks<K>(t: Timer, clk: Clock, es: seq<Event<K>>): nat
    requires ValidCursors(clk)
    decreases |es|
  {
    if es == [] then 0
    else (if es[0].LowResTick? && InHigherWheel(t) then 1 else 0)
         + LowTicks(TimerStep(t, clk, es[0]), ClockStep(clk, es[0]), es[1..])
  }

  /** High-resolution ticks while the timer is in wheel 0. */
  function HighTicks<K>(t: Timer, clk: Clock, es: seq<Event<K>>): nat
    requires ValidCursors(clk)
    decreases |es|
  {
    if es == [] then 0
    else (if es[0].HighResTick? && InWheel0(t) then 1 else 0)
         + HighTicks(TimerStep(t, clk, es[0]), ClockStep(clk, es[0]), es[1..])
  }

  function Slip<K>(t: Timer, clk: Clock, e: Event<K>): nat
    requires ValidCursors(clk)
  {
    match e
    case LowResTick => LowSlip(t, clk)
    case HighResTick => HighSlip(t, clk)
    case _ => 0
  }

  function Slips<K>(t: Timer, clk: Clock, es: seq<Event<K>>): nat
    requires ValidCursors(clk)
    decreases |es|
  {
    if es == [] then 0
    else Slip(t, clk, es[0]) + Slips(TimerStep(t, clk, es[0]), ClockStep(clk, es[0]), es[1..])
  }

  function CountLow<K>(es: seq<Event<K>>): nat {
    if es == [] then 0 else (if es[0].LowResTick? then 1 else 0) + CountLow(es[1..])
  }

  function CountHigh<K>(es: seq<Event<K>>): nat {
    if es == [] then 0 else (if es[0].HighResTick? then 1 else 0) + CountHigh(es[1..])
  }

  // ----- conservation over a run

  /** Time counted plus time slipped plus time left is constant. */
  lemma {:induction false} RunConserves<K>(t: Timer, clk: Clock, es: seq<Event<K>>)
    requires ValidCursors(clk) && Linked(t)
    ensures var end := TimerRun(t, clk, es);
            && Linked(end)
            && 64 * LowTicks(t, clk, es) + HighTicks(t, clk, es) + Slips(t, clk, es) + Remaining(end, ClockRun(clk, es))
            == Remaining(t, clk)
    decreases |es|
  {
    if es != [] {
      LowTickConserves(t, clk);
      HighTickConserves(t, clk);
      RunConserves(TimerStep(t, clk, es[0]), ClockStep(clk, es[0]), es[1..]);
    }
  }

  lemma {:induction false} FittingRunNeverSlips<K>(t: Timer, clk: Clock, es: seq<Event<K>>)
    requires ValidCursors(clk) && Linked(t) && Fits(t)
    ensures Slips(t, clk, es) == 0
    decreases |es|
  {
    if es != [] {
      LowTickConserves(t, clk);
      HighTickConserves(t, clk);
      FittingTimerNeverSlips(t, clk);
      FittingRunNeverSlips(TimerStep(t, clk, es[0]), ClockStep(clk, es[0]), es[1..]);
    }
  }

  /** Time is left exactly while the timer is in a wheel. */
  lemma RemainingIsPositiveInAWheel(t: Timer, clk: Clock)
    requires ValidCursors(clk) && Linked(t)
    ensures InWheel0(t) ==> Remaining(t, clk) >= 1 + AfterSlot(t) >= 1
    ensures InHigherWheel(t) ==> Remaining(t, clk) >= 64 + AfterSlot(t) >= 64
  {
    if t.place.InSlot? {
      ShlMonotone(1, TicksLeft(t.place.slot, clk.cursors[t.place.wheel]), t.place.wheel);
      ShlOfOneIsRes(t.place.wheel);
      if InHigherWheel(t) {
        OffsetStep(t.place.wheel, clk.counter);
      }
    }
  }

  ghost predicate IsListed(t: Timer) {
    t.active && t.place != Nowhere
  }

  lemma TickKeepsTimerListed(t: Timer, clk: Clock)
    requires ValidCursors(clk) && Linked(t) && IsListed(t)
    ensures IsListed(LowTick(t, clk)) && IsListed(HighTick(t, clk))
  {
    if ExpiresOnLowTick(t, clk) { ReinsertionLosesOnlyTheSlip(Expire(t), LowClock(clk)); }
    if ExpiresOnHighTick(t, clk) { ReinsertionLosesOnlyTheSlip(Expire(t), HighClock(clk)); }
  }

  /** A timer that is active and left alone stays in a list. */
  lemma {:induction false} RunKeepsTimerListed<K>(t: Timer, clk: Clock, es: seq<Event<K>>)
    requires ValidCursors(clk) && Linked(t) && IsListed(t)
    ensures IsListed(TimerRun(t, clk, es))
    decreases |es|
  {
    if es != [] {
      LowTickConserves(t, clk);
      HighTickConserves(t, clk);
      TickKeepsTimerListed(t, clk);
      RunKeepsTimerListed(TimerStep(t, clk, es[0]), ClockStep(clk, es[0]), es[1..]);
    }
  }

  // ----- the two phases of a cascade

  /** How many events of the run pass before the timer leaves wheels 1 to 6. */
  function PhaseChange<K>(t: Timer, clk: Clock, es: seq<Event<K>>): (k: nat)
    requires ValidCursors(clk)
    ensures k <= |es|
    decreases |es|
  {
    if es == [] || !InHigherWheel(t) then 0
    else 1 + PhaseChange(TimerStep(t, clk, es[0]), ClockStep(clk, es[0]), es[1..])
  }

  /** In wheel 0 for the last time, or already on the notify list. */
  predicate Settled(t: Timer) {
    t.place == Notify || (InWheel0(t) && t.extra == 0)
  }

  lemma TickTowardsSettled(t: Timer, clk: Clock)
    requires ValidCursors(clk) && Linked(t) && (InHigherWheel(t) || Settled(t))
    ensures InHigherWheel(LowTick(t, clk)) || Settled(LowTick(t, clk))
    ensures Settled(t) ==> LowTick(t, clk) == t && Settled(HighTick(t, clk))
    ensures InHigherWheel(t) ==> HighTick(t, clk) == t
  {
    if ExpiresOnLowTick(t, clk) { ReinsertionLosesOnlyTheSlip(Expire(t), LowClock(clk)); }
    if ExpiresOnHighTick(t, clk) { ReinsertionLosesOnlyTheSlip(Expire(t), HighClock(clk)); }
  }

  lemma {:induction false} NotifiedStays<K>(t: Timer, clk: Clock, es: seq<Event<K>>)
    requires ValidCursors(clk) && t.place == Notify
    ensures TimerRun(t, clk, es) == t
    decreases |es|
  {
    if es != [] {
      NotifiedStays(t, ClockStep(clk, es[0]), es[1..]);
    }
  }

  lemma {:induction false} SettledRun<K>(t: Timer, clk: Clock, es: seq<Event<K>>)
    requires ValidCursors(clk) && Linked(t) && Settled(t)
    ensures Settled(TimerRun(t, clk, es))
    ensures LowTicks(t, clk, es) == 0
    ensures TimerRun(t, clk, es).place != Notify ==> HighTicks(t, clk, es) == CountHigh(es)
    decreases |es|
  {
    if t.place == Notify {
      NotifiedStays(t, clk, es);
    }
    if es != [] {
      TickTowardsSettled(t, clk);
      LowTickConserves(t, clk);
      HighTickConserves(t, clk);
      SettledRun(TimerStep(t, clk, es[0]), ClockStep(clk, es[0]), es[1..]);
    }
  }

  lemma SettledTicksAreFew<K>(t: Timer, clk: Clock, es: seq<Event<K>>)
    requires ValidCursors(clk) && Linked(t) && Settled(t)
    ensures HighTicks(t, clk, es) <= 64
  {
    RunConserves(t, clk, es);
    RemainingIsPositiveInAWheel(TimerRun(t, clk, es), ClockRun(clk, es));
    assert Remaining(t, clk) <= 64;
  }

  /**
    First every low-resolution tick counts and no high-resolution tick does; from the phase
    change on no low-resolution tick counts, and at most 64 high-resolution ticks do.
   */
  lemma {:induction false} TicksComeInTwoPhases<K>(t: Timer, clk: Clock, es: seq<Event<K>>)
    requires ValidCursors(clk) && Linked(t) && (InHigherWheel(t) || Settled(t))
    ensures var k := PhaseChange(t, clk, es);
            && LowTicks(t, clk, es) == CountLow(es[..k])
            && HighTicks(t, clk, es) == HighTicks(TimerRun(t, clk, es[..k]), ClockRun(clk, es[..k]), es[k..]) <= 64
            && (InHigherWheel(TimerRun(t, clk, es)) ==> k == |es|)
            && (InHigherWheel(TimerRun(t, clk, es)) || Settled(TimerRun(t, clk, es)))
    decreases |es|
  {
    var k := PhaseChange(t, clk, es);
    if es == [] {
    } else if InHigherWheel(t) {
      TickTowardsSettled(t, clk);
      LowTickConserves(t, clk);
      TicksComeInTwoPhases(TimerStep(t, clk, es[0]), ClockStep(clk, es[0]), es[1..]);
      assert es[..k][1..] == es[1..][..k - 1];
      assert es[k..] == es[1..][k - 1..];
    } else {
      SettledRun(t, clk, es);
      SettledTicksAreFew(t, clk, es);
      assert es[0..] == es;
    }
  }

  // ----- adding a timer

  /** What the caller knows before the call: the timer is stopped or in a list, and the sum is in range. */
  ghost predicate CanStart(t: Timer, clk: Clock, interval: int, d: nat) {
    && ValidCursors(clk)
    && (t.active <==> t.place != Nowhere)
    && 0 < interval <= MAX_TIMEOUT
    && interval + d + Offset(WheelFor(interval), clk.counter) <= MAX_TIMEOUT
  }

  /** Right after addTimer the time left is the interval plus the elapsed correction. */
  lemma AddedTimerHasItsIntervalLeft(t: Timer, clk: Clock, interval: int, d: nat)
    requires CanStart(t, clk, interval, d)
    ensures var t' := Add(t.(interval := interval), clk, d);
            && Linked(t') && IsListed(t') && t'.place.InSlot? && t'.place.wheel == WheelFor(interval)
            && t'.timeout == interval && t'.extra == d + Offset(WheelFor(interval), clk.counter)
            && t'.place.slot == SlotIdx(WheelFor(interval), interval, clk.cursors[WheelFor(interval)])
            && Remaining(t', clk) == interval + d
  {
    var t0 := t.(interval := interval);
    LinkingLosesOnlyTheOffset(Remove(Adjust(t0, clk, d)), clk);
    PlacementIsTotal(interval);
    if KeepsSlot(t0, clk) {
      KeepingTheSlotIsReinserting(t, clk, interval, d);
      UnsignedInRange(interval + d + Offset(WheelFor(interval), clk.counter));
    }
  }

  /** In a wheel, with so much time left, unless the sum with what the wheel has run ahead is out of range. */
  ghost predicate IsLeft(t: Timer, clk: Clock, left: int)
    requires ValidCursors(clk)
  {
    left + Offset(WheelFor(t.interval), clk.counter) <= MAX_TIMEOUT ==>
      && t.active && t.place.InSlot? && t.place.wheel == WheelFor(t.interval) && Linked(t)
      && Remaining(t, clk) == left
  }

  /** A timer just added has its interval left, and what the clock is ahead of the tick that its wheel counts. */
  ghost predicate HasTimeLeft(t: Timer, clk: Clock, now: int, lowTime: int, highEnabled: bool, highTime: int)
    requires ValidCursors(clk)
  {
    && (t.interval > 64 && (t.timerType == Precise || t.interval < 4096) ==>
      IsLeft(t, clk, t.interval + if now > lowTime then (now - lowTime) / NSECS_PER_MSEC else 0))
    && (t.interval >= 4096 && t.timerType != Precise ==> IsLeft(t, clk, t.interval))
    && (0 < t.interval <= 64 ==>
      IsLeft(t, clk, t.interval + if highEnabled && now > highTime then (now - highTime) / NSECS_PER_MSEC else 0))
  }

  lemma TimeLeftByClocks(t: Timer, clk: Clock, now: int, lowTime: int, highEnabled: bool, highTime: int)
    requires ValidCursors(clk) && (t.active <==> t.place != Nowhere)
    ensures HasTimeLeft(Add(t, clk, Correction(t.timerType, t.interval, highEnabled, Elapsed(now, lowTime),
                                               Elapsed(now, highTime))), clk, now, lowTime, highEnabled, highTime)
  {
    var d := Correction(t.timerType, t.interval, highEnabled, Elapsed(now, lowTime), Elapsed(now, highTime));
    if t.interval > 0 && t.interval + d + Offset(WheelFor(t.interval), clk.counter) <= MAX_TIMEOUT {
      AddedTimerHasItsIntervalLeft(t, clk, t.interval, d);
      assert t.(interval := t.interval) == t;
    }
  }

  /** A timer that is single shot or of 0 ms has stopped, and any other has started again with its whole interval. */
  ghost predicate IsAfterTimeout(t: Timer, clk: Clock, now: int, lowTime: int, highEnabled: bool, highTime: int)
    requires ValidCursors(clk)
  {
    && (t.active <==> !t.singleShot && t.interval != 0)
    && (if t.active then HasTimeLeft(t, clk, now, lowTime, highEnabled, highTime) else t.place == Nowhere)
  }

  /** The early return leaves the timer exactly as removing and inserting it again would, unless the sum is cut. */
  lemma KeepingTheSlotIsReinserting(t: Timer, clk: Clock, interval: int, d: nat)
    requires ValidCursors(clk) && 0 < interval <= MAX_TIMEOUT
    requires KeepsSlot(t.(interval := interval), clk)
    ensures var a := Adjust(t.(interval := interval), clk, d);
            AddAdjusted(Remove(a), clk) == a <==> AsUnsigned64(interval + a.extra) <= MAX_TIMEOUT || a.extra == 0
  {
    PlacementIsTotal(interval);
  }

  // ----- the one place where time can be lost

  function SlipOfDrop(afterSlot: int, dropTime: int): nat {
    if afterSlot > 0 then Low(dropTime, WheelFor(afterSlot)) else 0
  }

  /** Where on the time line, in milliseconds, the timer drops out of the slot it is in. */
  function DropTime(t: Timer, clk: Clock): int
    requires ValidCursors(clk) && Linked(t) && t.place.InSlot?
  {
    64 * clk.counter + Remaining(t, clk) - AfterSlot(t)
  }

  lemma FirstDropSlips(t: Timer, clk: Clock)
    requires ValidCursors(clk) && Linked(t) && ExpiresOnLowTick(t, clk)
    ensures LowSlip(t, clk) == SlipOfDrop(AfterSlot(t), DropTime(t, clk))
    ensures Linked(LowTick(t, clk)) && Fits(LowTick(t, clk))
  {
    ExpiringTimerIsDue(t, clk);
    ReinsertionLosesOnlyTheSlip(Expire(t), LowClock(clk));
  }

  lemma DropTimeIsFixed<K>(t: Timer, clk: Clock, e: Event<K>)
    requires ValidCursors(clk) && Linked(t) && InHigherWheel(t)
    requires e.LowResTick? ==> !ExpiresOnLowTick(t, clk)
    ensures TimerStep(t, clk, e) == t && Slip(t, clk, e) == 0
    ensures DropTime(t, ClockStep(clk, e)) == DropTime(t, clk)
  {
    LowTickConserves(t, clk);
    HighTickConserves(t, clk);
  }

  /** Whatever a run slips, it slips when the timer drops out of its first slot; before that the timer is unchanged. */
  lemma {:induction false} OnlyTheFirstDropSlips<K>(t: Timer, clk: Clock, es: seq<Event<K>>)
    requires ValidCursors(clk) && Linked(t) && InHigherWheel(t)
    ensures (Slips(t, clk, es) == 0 && TimerRun(t, clk, es) == t)
         || Slips(t, clk, es) == SlipOfDrop(AfterSlot(t), DropTime(t, clk))
    ensures !InHigherWheel(TimerRun(t, clk, es)) ==> Slips(t, clk, es) == SlipOfDrop(AfterSlot(t), DropTime(t, clk))
    decreases |es|
  {
    if es != [] {
      var clk' := ClockStep(clk, es[0]);
      if es[0].LowResTick? && ExpiresOnLowTick(t, clk) {
        FirstDropSlips(t, clk);
        FittingRunNeverSlips(LowTick(t, clk), clk', es[1..]);
      } else {
        DropTimeIsFixed(t, clk, es[0]);
        OnlyTheFirstDropSlips(t, clk', es[1..]);
      }
    }
  }

  /** What is left of the timeout when a timer being added will drop out of its first slot. */
  function LeftAtDrop(interval: int, d: nat, counter: nat): int {
    Low(interval, WheelFor(interval)) + d + Offset(WheelFor(interval), counter)
  }

  /** The time an addTimer call loses; all of it is known when the call is made. */
  function LossOf(interval: int, d: nat, counter: nat): nat {
    var w := WheelFor(interval);
    SlipOfDrop(LeftAtDrop(interval, d, counter), 64 * counter - Offset(w, counter) + Shl(Shr(interval, w), w))
  }

  lemma {:induction false} LowOfShl(k: int, w: nat)
    ensures Low(Shl(k, w), w) == 0
    decreases w
  {
    if w > 0 {
      LowOfShl(k, w - 1);
    }
  }

  lemma PeriodStartIsAligned(x: nat, k: int, i: nat, w: nat)
    requires i <= w
    ensures Low(x - Low(x, w) + Shl(k, w), i) == 0
  {
    ShiftsAndMaskRecompose(x, w);
    ShlAdds(Shr(x, w), k, w);
    LowOfShl(Shr(x, w) + k, w);
    AlignedBelow(Shl(Shr(x, w) + k, w), i, w);
  }

  /** A loss is less than what is left at the drop. */
  lemma SlipIsLessThanWhatIsLeft(afterSlot: int, dropTime: int)
    requires 0 <= afterSlot <= MAX_TIMEOUT
    ensures SlipOfDrop(afterSlot, dropTime) <= afterSlot
  {
    if afterSlot > 0 {
      PlacementIsTotal(afterSlot);
    }
  }

  /** Nothing is lost while what is left at the first drop fits in the wheel dropped from. */
  lemma NoLossWhenItFits(interval: int, d: nat, counter: nat)
    requires 64 < interval <= MAX_TIMEOUT
    requires LeftAtDrop(interval, d, counter) <= 64 * Res(WheelFor(interval))
    ensures LossOf(interval, d, counter) == 0
  {
    var w, e := WheelFor(interval), LeftAtDrop(interval, d, counter);
    ResValues();
    ResMonotone(w, 6);
    if e > 0 {
      WheelForIsLeast(e, w);
      PeriodStartIsAligned(64 * counter, Shr(interval, w), WheelFor(e), w);
    }
  }

  /** A correction of at most 4033 ms never loses anything. */
  lemma NoLossUpTo4033(interval: int, d: nat, counter: nat)
    requires 64 < interval <= MAX_TIMEOUT && d <= 4033
    ensures LossOf(interval, d, counter) == 0
  {
    var w := WheelFor(interval);
    PlacementIsTotal(interval);
    ResMonotone(1, w);
    ResValues();
    OffsetStep(w, counter);
    NoLossWhenItFits(interval, d, counter);
  }

  /** One millisecond more can make a timer 64 ms early: 127 ms, added 4034 ms after the last tick. */
  lemma LossAt4034()
    ensures LossOf(127, 4034, 0) == 64
  {
    ResValues();
    WheelForBrackets(127);
    WheelForIsLeast(127, 1);
    PlacementIsTotal(127);
    assert LeftAtDrop(127, 4034, 0) == 4097;
    WheelForIsLeast(4097, 2);
    WheelForBrackets(4097);
    assert WheelFor(4097) == 2 by {
      if WheelFor(4097) < 2 { ResMonotone(WheelFor(4097), 1); }
    }
  }

  // ----- the main theorems

  /** The timer right after addTimer. */
  function Started<K>(sys: System<K>, id: K, interval: int, d: nat): Timer
    requires ValidCursors(sys.clk) && id in sys.timers
  {
    Step(sys, Start(id, interval, d)).timers[id]
  }

  /** The timer after addTimer and the run `es`. */
  function After<K>(sys: System<K>, id: K, interval: int, d: nat, es: seq<Event<K>>): Timer
    requires ValidCursors(sys.clk) && id in sys.timers
  {
    Run(Step(sys, Start(id, interval, d)), es).timers[id]
  }

  /**
    A timer with interval t > 64 and correction d, left alone, reaches the notify list after
    exactly N low-resolution ticks followed by M high-resolution ticks, with
    64N + M = t + d - loss and M <= 64: neither earlier nor later.
   */
  lemma LongTimerFiresOnTime<K>(sys: System<K>, id: K, interval: int, d: nat, es: seq<Event<K>>)
    requires id in sys.timers && CanStart(sys.timers[id], sys.clk, interval, d)
    requires interval > 64 && LeavesAlone(es, id)
    ensures var t, end := Started(sys, id, interval, d), After(sys, id, interval, d, es);
            var loss, k := LossOf(interval, d, sys.clk.counter), PhaseChange(t, sys.clk, es);
            var N, M := LowTicks(t, sys.clk, es), HighTicks(t, sys.clk, es);
            && N == CountLow(es[..k])
            && M == HighTicks(TimerRun(t, sys.clk, es[..k]), ClockRun(sys.clk, es[..k]), es[k..]) <= 64
            && (end.place == Notify <==> 64 * N + M == interval + d - loss)
            && (end.place != Notify ==> end.place.InSlot? && 64 * N + M < interval + d - loss)
  {
    var t, clk := Started(sys, id, interval, d), sys.clk;
    var end := TimerRun(t, clk, es);
    AddedTimerHasItsIntervalLeft(sys.timers[id], clk, interval, d);
    TimersAreIndependent(Step(sys, Start(id, interval, d)), es, id);
    PlacementIsTotal(interval);
    RunConserves(t, clk, es);
    RunKeepsTimerListed(t, clk, es);
    TicksComeInTwoPhases(t, clk, es);
    OnlyTheFirstDropSlips(t, clk, es);
    SlipIsTheLoss(t, clk, interval, d);
    SlipIsLessThanWhatIsLeft(AfterSlot(t), DropTime(t, clk));
    RemainingIsPositiveInAWheel(end, ClockRun(clk, es));
  }

  lemma SlipIsTheLoss(t: Timer, clk: Clock, interval: int, d: nat)
    requires ValidCursors(clk) && Linked(t) && t.place.InSlot? && t.place.wheel == WheelFor(interval)
    requires t.timeout == interval && t.extra == d + Offset(WheelFor(interval), clk.counter)
    requires Remaining(t, clk) == interval + d
    ensures SlipOfDrop(AfterSlot(t), DropTime(t, clk)) == LossOf(interval, d, clk.counter)
  {
    ShiftsAndMaskRecompose(interval, WheelFor(interval));
  }

  /** Such a timer is on the notify list once enough ticks of each kind have passed. */
  lemma LongTimerDoesFire<K>(sys: System<K>, id: K, interval: int, d: nat, lows: seq<Event<K>>, highs: seq<Event<K>>)
    requires id in sys.timers && CanStart(sys.timers[id], sys.clk, interval, d)
    requires interval > 64 && LeavesAlone(lows, id) && LeavesAlone(highs, id)
    requires 64 * CountLow(lows) >= interval + d && CountHigh(highs) >= 64
    ensures After(sys, id, interval, d, lows + highs).place == Notify
  {
    var t, clk := Started(sys, id, interval, d), sys.clk;
    AddedTimerHasItsIntervalLeft(sys.timers[id], clk, interval, d);
    TimersAreIndependent(Step(sys, Start(id, interval, d)), lows + highs, id);
    RunsCompose(t, clk, lows, highs);
    PlacementIsTotal(interval);
    RunConserves(t, clk, lows);
    TicksComeInTwoPhases(t, clk, lows);
    assert lows[..|lows|] == lows;
    var mid, clk' := TimerRun(t, clk, lows), ClockRun(clk, lows);
    RemainingIsPositiveInAWheel(mid, clk');
    SettledRun(mid, clk', highs);
    RunConserves(mid, clk', highs);
    RemainingIsPositiveInAWheel(TimerRun(mid, clk', highs), ClockRun(clk', highs));
    assert Remaining(mid, clk') <= 64;
  }

  // ----- timers of at most 64 ms

  /** Right after addTimer, such a timer is in wheel 0 with the whole correction left for after its slot. */
  lemma ShortTimerIsAdded(t: Timer, clk: Clock, interval: int, d: nat)
    requires CanStart(t, clk, interval, d) && interval <= 64
    ensures var t' := Add(t.(interval := interval), clk, d);
            && Linked(t') && IsListed(t') && InWheel0(t') && AfterSlot(t') == t'.extra == d && t'.timeout == interval
            && TicksLeft(t'.place.slot, clk.cursors[0]) == interval && Remaining(t', clk) == interval + d
  {
    AddedTimerHasItsIntervalLeft(t, clk, interval, d);
    PlacementIsTotal(interval);
  }

  /** How many events of the run pass before the timer drops out of the slot of wheel 0 it is in. */
  function FirstDrop<K>(t: Timer, clk: Clock, es: seq<Event<K>>): (k: nat)
    requires ValidCursors(clk)
    ensures k <= |es|
    decreases |es|
  {
    if es == [] || (es[0].HighResTick? && ExpiresOnHighTick(t, clk)) then 0
    else 1 + FirstDrop(t, ClockStep(clk, es[0]), es[1..])
  }

  /**
    In every run a timer in wheel 0 slips nothing before it drops out of its slot, and then the part of the
    current period that has gone by in the wheel its remainder goes to.
   */
  lemma {:induction false} WheelZeroSlipsAtItsFirstDrop<K>(t: Timer, clk: Clock, es: seq<Event<K>>)
    requires ValidCursors(clk) && Linked(t) && InWheel0(t)
    ensures var k := FirstDrop(t, clk, es);
            Slips(t, clk, es) == if k == |es| then 0 else SlipAt(AfterSlot(t), ClockRun(clk, es[..k]).counter)
    decreases |es|
  {
    if es != [] {
      var clk' := ClockStep(clk, es[0]);
      if es[0].HighResTick? && ExpiresOnHighTick(t, clk) {
        ReinsertionLosesOnlyTheSlip(Expire(t), HighClock(clk));
        assert es[..0] == [];
        FittingRunNeverSlips(HighTick(t, clk), clk', es[1..]);
      } else {
        WheelZeroSlipsAtItsFirstDrop(t, clk', es[1..]);
        var k := FirstDrop(t, clk, es);
        assert es[..k][1..] == es[1..][..k - 1];
      }
    }
  }

  /**
    A timer of at most 64 ms, left alone, is on the notify list exactly when the ticks counted are the interval and
    the correction less what has slipped; nothing slips if the correction is at most 4096 ms.
   */
  lemma ShortTimerFiresOnTime<K>(sys: System<K>, id: K, interval: int, d: nat, es: seq<Event<K>>)
    requires id in sys.timers && CanStart(sys.timers[id], sys.clk, interval, d)
    requires interval <= 64 && LeavesAlone(es, id)
    ensures var t, end := Started(sys, id, interval, d), After(sys, id, interval, d, es);
            var elapsed, k := 64 * LowTicks(t, sys.clk, es) + HighTicks(t, sys.clk, es), FirstDrop(t, sys.clk, es);
            var loss := if k == |es| then 0 else SlipAt(d, ClockRun(sys.clk, es[..k]).counter);
            && (end.place == Notify <==> elapsed == interval + d - loss)
            && (end.place != Notify ==> end.place.InSlot? && elapsed < interval + d - loss)
            && (d <= 4096 ==> loss == 0)
            && (d == 0 ==> LowTicks(t, sys.clk, es) == 0)
  {
    var t, clk := Started(sys, id, interval, d), sys.clk;
    ShortTimerIsAdded(sys.timers[id], clk, interval, d);
    TimersAreIndependent(Step(sys, Start(id, interval, d)), es, id);
    ResValues();
    RunConserves(t, clk, es);
    WheelZeroSlipsAtItsFirstDrop(t, clk, es);
    if d <= 4096 {
      FittingRunNeverSlips(t, clk, es);
    }
    RunKeepsTimerListed(t, clk, es);
    if d == 0 {
      SettledRun(t, clk, es);
    }
    RemainingIsPositiveInAWheel(TimerRun(t, clk, es), ClockRun(clk, es));
  }

  function HighResTicks<K>(n: nat): (es: seq<Event<K>>)
    ensures |es| == n && forall i :: 0 <= i < n ==> es[i] == HighResTick
  {
    seq(n, i => HighResTick)
  }

  /** As many high-resolution ticks as a timer in wheel 0 has left make it drop, and slip what its remainder slips. */
  lemma {:induction false} DropsAfterItsTicks<K>(t: Timer, clk: Clock)
    requires ValidCursors(clk) && Linked(t) && InWheel0(t)
    ensures Slips(t, clk, HighResTicks<K>(TicksLeft(t.place.slot, clk.cursors[0]))) == SlipAt(AfterSlot(t), clk.counter)
    decreases TicksLeft(t.place.slot, clk.cursors[0])
  {
    var n := TicksLeft(t.place.slot, clk.cursors[0]);
    var es, more := HighResTicks<K>(n), HighResTicks<K>(n - 1);
    assert es[1..] == more;
    TicksLeftStep(t.place.slot, clk.cursors[0]);
    if ExpiresOnHighTick(t, clk) {
      assert more == [];
    } else {
      DropsAfterItsTicks<K>(t, HighClock(clk));
    }
  }

  /**
    A run that makes a timer with a correction above 4096 ms early: possibly one low-resolution tick, then its
    ticks.
   */
  function EarlyRun<K>(interval: nat, d: nat, counter: nat): seq<Event<K>> {
    (if Offset(WheelFor(d), counter) == 0 then [LowResTick] else []) + HighResTicks(interval)
  }

  /** A wheel above wheel 1 is inside its period before a low-resolution tick or after it. */
  lemma InsidePeriodBeforeOrAfter(d: nat, counter: nat)
    requires 4096 < d <= MAX_TIMEOUT
    ensures Offset(WheelFor(d), counter) == 0 ==> Offset(WheelFor(d), counter + 1) > 0
  {
    var w := WheelFor(d);
    PlacementIsTotal(d);
    ResValues();
    assert w != 0 && w != 1;
    OffsetStep(w, counter);
    ResMonotone(2, w);
  }

  lemma SlipsAfterLowTick<K>(t: Timer, clk: Clock, ticks: seq<Event<K>>)
    requires ValidCursors(clk) && InWheel0(t)
    ensures Slips(t, clk, [LowResTick] + ticks) == Slips(t, LowClock(clk), ticks)
  {
    var es := [LowResTick] + ticks;
    assert es[0] == LowResTick && es[1..] == ticks;
  }

  lemma EarlyRunAfterLowTickSlips<K>(t: Timer, clk: Clock, interval: nat, d: nat)
    requires ValidCursors(clk) && Linked(t) && InWheel0(t) && 4096 < d <= MAX_TIMEOUT && AfterSlot(t) == d
    requires TicksLeft(t.place.slot, clk.cursors[0]) == interval && Offset(WheelFor(d), clk.counter) == 0
    ensures Slips(t, clk, [LowResTick] + HighResTicks<K>(interval)) > 0
  {
    InsidePeriodBeforeOrAfter(d, clk.counter);
    DropsAfterItsTicks<K>(t, LowClock(clk));
    SlipsAfterLowTick(t, clk, HighResTicks<K>(interval));
  }

  lemma EarlyRunAtOnceSlips<K>(t: Timer, clk: Clock, interval: nat, d: nat)
    requires ValidCursors(clk) && Linked(t) && InWheel0(t) && d > 0 && AfterSlot(t) == d
    requires TicksLeft(t.place.slot, clk.cursors[0]) == interval && Offset(WheelFor(d), clk.counter) > 0
    ensures Slips(t, clk, HighResTicks<K>(interval)) > 0
  {
    DropsAfterItsTicks<K>(t, clk);
  }

  lemma EarlyRunSlips<K>(t: Timer, clk: Clock, interval: nat, d: nat)
    requires ValidCursors(clk) && Linked(t) && InWheel0(t) && 4096 < d <= MAX_TIMEOUT && AfterSlot(t) == d
    requires TicksLeft(t.place.slot, clk.cursors[0]) == interval
    ensures Slips(t, clk, EarlyRun<K>(interval, d, clk.counter)) > 0
  {
    if Offset(WheelFor(d), clk.counter) == 0 {
      EarlyRunAfterLowTickSlips<K>(t, clk, interval, d);
    } else {
      EarlyRunAtOnceSlips<K>(t, clk, interval, d);
      assert [] + HighResTicks<K>(interval) == HighResTicks<K>(interval);
    }
  }

  /** A timer of at most 64 ms is exact in every run if and only if its correction is at most 4096 ms. */
  lemma ShortTimerIsExactExactlyUpTo4096<K>(sys: System<K>, id: K, interval: int, d: nat)
    requires id in sys.timers && CanStart(sys.timers[id], sys.clk, interval, d) && interval <= 64
    ensures (forall es: seq<Event<K>> :: Slips(Started(sys, id, interval, d), sys.clk, es) == 0) <==> d <= 4096
  {
    var t, clk := Started(sys, id, interval, d), sys.clk;
    ShortTimerIsAdded(sys.timers[id], clk, interval, d);
    ResValues();
    if d <= 4096 {
      forall es: seq<Event<K>> ensures Slips(t, clk, es) == 0 {
        FittingRunNeverSlips(t, clk, es);
      }
    } else {
      EarlyRunSlips<K>(t, clk, interval, d);
    }
  }

  /**
    In clock time: with the correction taken from `now` and the nominal time of the last tick,
    the nominal instant of the notification is the interval after `now`, less the loss and less
    under a millisecond.
   */
  lemma NominalFiringInstant<K>(sys: System<K>, id: K, interval: int, lowTime: int, now: int, es: seq<Event<K>>)
    requires now >= lowTime && interval > 64
    requires id in sys.timers && CanStart(sys.timers[id], sys.clk, interval, Elapsed(now, lowTime))
    requires LeavesAlone(es, id) && After(sys, id, interval, Elapsed(now, lowTime), es).place == Notify
    ensures var t := Started(sys, id, interval, Elapsed(now, lowTime));
            var length := interval - LossOf(interval, Elapsed(now, lowTime), sys.clk.counter);
            var instant := lowTime + NSECS_PER_MSEC * (64 * LowTicks(t, sys.clk, es) + HighTicks(t, sys.clk, es));
            now + NSECS_PER_MSEC * (length - 1) < instant <= now + NSECS_PER_MSEC * length
  {
    LongTimerFiresOnTime(sys, id, interval, Elapsed(now, lowTime), es);
  }

  // ----- how often a timer is inserted

  predicate Reinserted<K>(t: Timer, clk: Clock, e: Event<K>)
    requires ValidCursors(clk)
  {
    && ((e.LowResTick? && ExpiresOnLowTick(t, clk)) || (e.HighResTick? && ExpiresOnHighTick(t, clk)))
    && AfterSlot(t) > 0
  }

  /** Re-insertions into a wheel along the run. */
  function Reinsertions<K>(t: Timer, clk: Clock, es: seq<Event<K>>): nat
    requires ValidCursors(clk)
    decreases |es|
  {
    if es == [] then 0
    else (if Reinserted(t, clk, es[0]) then 1 else 0)
         + Reinsertions(TimerStep(t, clk, es[0]), ClockStep(clk, es[0]), es[1..])
  }

  function Height(t: Timer): nat {
    if !t.place.InSlot? then 0 else if t.extra > 0 then 7 else t.place.wheel
  }

  lemma DropLowersHeight<K>(t: Timer, clk: Clock, e: Event<K>)
    requires ValidCursors(clk) && Linked(t)
    ensures Height(TimerStep(t, clk, e)) <= Height(t)
    ensures Reinserted(t, clk, e) ==> Height(TimerStep(t, clk, e)) < Height(t)
  {
    if ExpiresOnLowTick(t, clk) { ReinsertionLosesOnlyTheSlip(Expire(t), LowClock(clk)); }
    if ExpiresOnHighTick(t, clk) { ReinsertionLosesOnlyTheSlip(Expire(t), HighClock(clk)); }
    if Reinserted(t, clk, e) && t.extra == 0 {
      WheelForIsLeast(AfterSlot(t), t.place.wheel - 1);
    }
  }

  /** After the first re-insertion the wheel index only falls, so seven re-insertions are the most. */
  lemma {:induction false} AtMostSevenReinsertions<K>(t: Timer, clk: Clock, es: seq<Event<K>>)
    requires ValidCursors(clk) && Linked(t)
    ensures Reinsertions(t, clk, es) <= Height(t) <= 7
    decreases |es|
  {
    if es != [] {
      LowTickConserves(t, clk);
      HighTickConserves(t, clk);
      DropLowersHeight(t, clk, es[0]);
      AtMostSevenReinsertions(TimerStep(t, clk, es[0]), ClockStep(clk, es[0]), es[1..]);
    }
  }

  // ----- outside the range

  /**
    A timer is left active but in no list if and only if its interval is negative or above 2^42 ms, unless
    the restart keeps it in its slot.
   */
  lemma LostExactlyOutsideTheRange(t: Timer, clk: Clock, interval: int, d: nat)
    requires ValidCursors(clk) && (t.active <==> t.place != Nowhere)
    requires -0x8000_0000_0000_0000 <= interval < 0x8000_0000_0000_0000
    ensures var t0 := t.(interval := interval);
            var t' := Add(t0, clk, d);
            && t'.active
            && (t'.place == Nowhere <==> (interval < 0 || interval > MAX_TIMEOUT) && !KeepsSlot(t0, clk))
  {
    if !KeepsSlot(t.(interval := interval), clk) {
      ResValues();
      if 0 < interval <= MAX_TIMEOUT {
        PlacementIsTotal(interval);
      } else if interval > MAX_TIMEOUT {
        ResMonotone(WheelFor(interval), 6);
      }
    }
  }

  /** A restart from 2^42 ms with twice that keeps its slot. */
  lemma KeptSlotOutsideTheRange()
    ensures var t := Timer(true, InSlot(6, 63), MAX_TIMEOUT, MAX_TIMEOUT, 0, false, Precise);
            KeepsSlot(t.(interval := 2 * MAX_TIMEOUT), Clock(0, [0, 0, 0, 0, 0, 0, 0]))
  {
    assert WheelFor(2 * MAX_TIMEOUT) == 6 by {
      assert Log2(2 * MAX_TIMEOUT - 1) >= 36 by {
        Log2IsAtLeast36(2 * MAX_TIMEOUT - 1);
      }
      CountrZeroOfBitFloor(2 * MAX_TIMEOUT - 1);
    }
    assert Shr(2 * MAX_TIMEOUT, 6) == 128;
  }

  lemma Log2IsAtLeast36(x: nat)
    requires x >= 0x10_0000_0000
    ensures Log2(x) >= 36
  {
    Log2Div64(x);
    Log2Div64(x / 64);
    Log2Div64(x / 64 / 64);
    Log2Div64(x / 64 / 64 / 64);
    Log2Div64(x / 64 / 64 / 64 / 64);
    Log2Div64(x / 64 / 64 / 64 / 64 / 64);
  }

  /**
    A sum above 2^42 ms is cut: the timer then loses the whole extra timeout. A restart that keeps its slot is not
    cut: it has the interval and the correction left, unless what is left after its slot is itself above 2^42 ms;
    then it is in no list once it drops.
   */
  lemma ClampedTimerLosesItsExtra(t: Timer, clk: Clock, interval: int, d: nat)
    requires ValidCursors(clk) && (t.active <==> t.place != Nowhere) && 0 < interval <= MAX_TIMEOUT
    requires MAX_TIMEOUT < interval + d + Offset(WheelFor(interval), clk.counter) < TWO_TO_THE_64
    ensures var t0 := t.(interval := interval);
            var t' := Add(t0, clk, d);
            && t'.place == InSlot(WheelFor(interval),
              SlotIdx(WheelFor(interval), interval, clk.cursors[WheelFor(interval)]))
            && (!KeepsSlot(t0, clk) ==>
              Linked(t') && Remaining(t', clk) == interval - Offset(WheelFor(interval), clk.counter))
            && (KeepsSlot(t0, clk) && AfterSlot(t') <= MAX_TIMEOUT ==> Linked(t') && Remaining(t', clk) == interval + d)
            && (KeepsSlot(t0, clk) && AfterSlot(t') > MAX_TIMEOUT ==> Reinsert(Expire(t'), clk).place == Nowhere)
  {
    if KeepsSlot(t.(interval := interval), clk) {
      KeptTimerIsNotCut(t.(interval := interval), clk, d);
    } else {
      CutTimerHasNoExtra(t.(interval := interval), clk, d);
    }
  }

  lemma CutTimerHasNoExtra(t: Timer, clk: Clock, d: nat)
    requires ValidCursors(clk) && (t.active <==> t.place != Nowhere) && 0 < t.interval <= MAX_TIMEOUT &&
      !KeepsSlot(t, clk)
    requires MAX_TIMEOUT < t.interval + d + Offset(WheelFor(t.interval), clk.counter) < TWO_TO_THE_64
    ensures var w, t' := WheelFor(t.interval), Add(t, clk, d);
      && t'.place == InSlot(w, SlotIdx(w, t.interval, clk.cursors[w]))
      && Linked(t') && Remaining(t', clk) == t.interval - Offset(w, clk.counter)
  {
    var w, t' := WheelFor(t.interval), Add(t, clk, d);
    UnsignedInRange(t.interval + d + Offset(w, clk.counter));
    PlacementIsTotal(t.interval);
    assert t'.timeout == t.interval && t'.extra == 0 && t'.place == InSlot(w, SlotIdx(w, t.interval, clk.cursors[w]));
    SlotMatchesTimeout(w, t.interval, clk.cursors[w]);
    LowAtMost(t.interval, w);
  }

  lemma KeptTimerIsNotCut(t: Timer, clk: Clock, d: nat)
    requires ValidCursors(clk) && 0 < t.interval <= MAX_TIMEOUT && KeepsSlot(t, clk)
    ensures var t' := Add(t, clk, d);
      && t'.place == t.place
      && (AfterSlot(t') <= MAX_TIMEOUT ==> Linked(t') && Remaining(t', clk) == t.interval + d)
      && (AfterSlot(t') > MAX_TIMEOUT ==> Reinsert(Expire(t'), clk).place == Nowhere)
  {
    var w, t' := WheelFor(t.interval), Add(t, clk, d);
    PlacementIsTotal(t.interval);
    SlotMatchesTimeout(w, t.interval, clk.cursors[w]);
    if AfterSlot(t') > MAX_TIMEOUT {
      TooLongIsNotLinked(Expire(t'), clk);
    }
  }

  lemma TooLongIsNotLinked(t: Timer, clk: Clock)
    requires ValidCursors(clk) && t.place == Nowhere && MAX_TIMEOUT < t.timeout + t.extra
    ensures Reinsert(t, clk).place == Nowhere
  {
    var a := t.timeout + t.extra;
    assert !CanAdd(WheelFor(a), a) by {
      ResValues();
      ResMonotone(WheelFor(a), 6);
    }
  }
}
