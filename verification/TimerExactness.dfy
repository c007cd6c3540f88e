/**
  No time is gained or lost through the cascade of the wheels, stated for one timer and for
  every run of the whole notifier.
 */
module TimerExactness {
  import opened TimerModel
  import opened TimerArithmetic

  /** The timer's position and timeouts are ones the notifier can produce. */
  ghost predicate Linked(t: Timer) {
    t.place.InSlot? ==>
      && t.place.wheel <= 6 && t.place.slot < 64
      && 0 <= t.timeout && 0 <= t.extra
      && AfterSlot(t) <= MAX_TIMEOUT
  }

  /** The time left for a timer once it has dropped out of the slot it is in. */
  function AfterSlot(t: Timer): int
    requires t.place.InSlot?
  {
    Low(t.timeout, t.place.wheel) + t.extra
  }

  /** Ticks of the wheel until the timer drops out of it. */
  function TicksLeft(slot: nat, cursor: nat): (k: nat)
    ensures 1 <= k <= 64
  {
    (slot - cursor) % 64 + 1
  }

  /** The part of the current period of wheel `w` that has gone by. */
  function Offset(w: nat, counter: nat): nat {
    Low(64 * counter, w)
  }

  /** Milliseconds until the timer reaches the notify list. */
  function Remaining(t: Timer, clk: Clock): int
    requires ValidCursors(clk) && Linked(t)
  {
    if t.place.InSlot? then
      Shl(TicksLeft(t.place.slot, clk.cursors[t.place.wheel]), t.place.wheel)
      - Offset(t.place.wheel, clk.counter) + AfterSlot(t)
    else
      0
  }

  // ----- the clock

  lemma OffsetStep(w: nat, c: nat)
    requires w >= 1
    ensures if Low(c + 1, w - 1) == 0 then Offset(w, c) == Res(w) - 64 && Offset(w, c + 1) == 0
            else Offset(w, c + 1) == Offset(w, c) + 64
  {
    LowStep(c, w - 1);
    assert 64 * c / 64 == c && 64 * (c + 1) / 64 == c + 1;
  }

  lemma TicksLeftStep(slot: nat, cursor: nat)
    requires slot < 64 && cursor < 64
    ensures slot == cursor ==> TicksLeft(slot, cursor) == 1
    ensures slot != cursor ==> TicksLeft(slot, Bump(cursor)) == TicksLeft(slot, cursor) - 1
  {
  }

  // ----- linking a timer

  lemma SlotMatchesTimeout(w: nat, timeout: int, cursor: nat)
    requires CanAdd(w, timeout) && cursor < 64
    ensures Shl(TicksLeft(SlotIdx(w, timeout, cursor), cursor), w) + Low(timeout, w) == timeout
  {
    ShrOfAddable(timeout, w);
    assert TicksLeft(SlotIdx(w, timeout, cursor), cursor) == Shr(timeout, w);
    ShiftsAndMaskRecompose(timeout, w);
  }

  /** What addAdjustedTimer does with a timer in range that is in no list. */
  lemma LinkingLosesOnlyTheOffset(t: Timer, clk: Clock)
    requires ValidCursors(clk) && t.place == Nowhere
    requires 0 <= t.timeout && 0 <= t.extra && t.timeout + t.extra <= MAX_TIMEOUT
    ensures var t' := AddAdjusted(t, clk);
            && Linked(t') && t'.active && t'.place != Nowhere
            && t'.timeout == t.timeout && t'.extra == t.extra
            && (t'.place == Notify <==> t.timeout == 0)
            && (t.timeout > 0 ==>
                  && t'.place.InSlot? && t'.place.wheel == WheelFor(t.timeout)
                  && Remaining(t', clk) == t.timeout + t.extra - Offset(WheelFor(t.timeout), clk.counter))
  {
    if t.timeout > 0 {
      PlacementIsTotal(t.timeout);
      UnsignedInRange(t.timeout + t.extra);
      var w := WheelFor(t.timeout);
      SlotMatchesTimeout(w, t.timeout, clk.cursors[w]);
      LowAtMost(t.timeout, w);
    }
  }

  // ----- one tick

  /** The time a re-insertion loses: the wheel chosen is not at the start of its period. */
  function SlipAt(afterSlot: int, counter: nat): nat {
    if afterSlot > 0 then Offset(WheelFor(afterSlot), counter) else 0
  }

  function LowSlip(t: Timer, clk: Clock): nat
    requires ValidCursors(clk)
  {
    if ExpiresOnLowTick(t, clk) then SlipAt(AfterSlot(t), clk.counter + 1) else 0
  }

  function HighSlip(t: Timer, clk: Clock): nat
    requires ValidCursors(clk)
  {
    if ExpiresOnHighTick(t, clk) then SlipAt(AfterSlot(t), clk.counter) else 0
  }

  predicate InWheel0(t: Timer) { t.place.InSlot? && t.place.wheel == 0 }
  predicate InHigherWheel(t: Timer) { t.place.InSlot? && t.place.wheel > 0 }

  /** A low-resolution tick lowers the remaining time of every timer in wheels 1 to 6 by 64 and the slip. */
  lemma LowTickConserves(t: Timer, clk: Clock)
    requires ValidCursors(clk) && Linked(t)
    ensures Linked(LowTick(t, clk))
    ensures Remaining(LowTick(t, clk), LowClock(clk)) + LowSlip(t, clk)
         == Remaining(t, clk) - if InHigherWheel(t) then 64 else 0
  {
    if ExpiresOnLowTick(t, clk) {
      CascadeConserves(t, clk);
    } else if InHigherWheel(t) {
      StayingTimerComesCloser(t, clk);
    } else {
      Wheel1IsAlwaysAligned(clk.counter);
      Wheel1IsAlwaysAligned(clk.counter + 1);
    }
  }

  lemma CascadeConserves(t: Timer, clk: Clock)
    requires ValidCursors(clk) && Linked(t) && ExpiresOnLowTick(t, clk)
    ensures Linked(LowTick(t, clk))
    ensures Remaining(LowTick(t, clk), LowClock(clk)) + LowSlip(t, clk) == Remaining(t, clk) - 64
  {
    ExpiringTimerIsDue(t, clk);
    ReinsertionLosesOnlyTheSlip(Expire(t), LowClock(clk));
  }

  lemma ExpiringTimerIsDue(t: Timer, clk: Clock)
    requires ValidCursors(clk) && Linked(t)
    ensures ExpiresOnLowTick(t, clk) ==> Remaining(t, clk) == 64 + AfterSlot(t)
    ensures ExpiresOnHighTick(t, clk) ==> Remaining(t, clk) == 1 + AfterSlot(t)
  {
    if ExpiresOnLowTick(t, clk) {
      TicksExactlyAtMultiples(clk.counter + 1, t.place.wheel);
      OffsetStep(t.place.wheel, clk.counter);
      ShlOfOneIsRes(t.place.wheel);
    }
  }

  lemma StayingTimerComesCloser(t: Timer, clk: Clock)
    requires ValidCursors(clk) && Linked(t) && InHigherWheel(t) && !ExpiresOnLowTick(t, clk)
    ensures Remaining(t, LowClock(clk)) == Remaining(t, clk) - 64
  {
    var w, s := t.place.wheel, t.place.slot;
    var k := TicksLeft(s, clk.cursors[w]);
    TicksExactlyAtMultiples(clk.counter + 1, w);
    OffsetStep(w, clk.counter);
    if w <= LargestWheelToTick(clk.counter + 1) {
      TicksLeftStep(s, clk.cursors[w]);
      assert TicksLeft(s, LowClock(clk).cursors[w]) == k - 1;
      ShlAdds(k - 1, 1, w);
      ShlOfOneIsRes(w);
    } else {
      assert TicksLeft(s, LowClock(clk).cursors[w]) == k;
    }
  }

  lemma ReinsertionLosesOnlyTheSlip(t: Timer, clk: Clock)
    requires ValidCursors(clk) && t.place == Nowhere
    requires 0 <= t.timeout && 0 <= t.extra && t.timeout + t.extra <= MAX_TIMEOUT
    ensures var t' := Reinsert(t, clk);
            && Linked(t') && t'.active && t'.place != Nowhere
            && t'.timeout == t.timeout + t.extra && t'.extra == 0
            && (t'.place == Notify <==> t.timeout + t.extra == 0)
            && (t.timeout + t.extra > 0 ==> t'.place.InSlot? && t'.place.wheel == WheelFor(t.timeout + t.extra))
            && Remaining(t', clk) == t.timeout + t.extra - SlipAt(t.timeout + t.extra, clk.counter)
  {
    var a := t.(timeout := t.timeout + t.extra, extra := 0);
    LinkingLosesOnlyTheOffset(a, clk);
    assert Reinsert(t, clk) == AddAdjusted(a, clk);
  }

  /** A high-resolution tick lowers the remaining time of every timer in wheel 0 by one and the slip. */
  lemma HighTickConserves(t: Timer, clk: Clock)
    requires ValidCursors(clk) && Linked(t)
    ensures Linked(HighTick(t, clk))
    ensures Remaining(HighTick(t, clk), HighClock(clk)) + HighSlip(t, clk)
         == Remaining(t, clk) - if InWheel0(t) then 1 else 0
  {
    if ExpiresOnHighTick(t, clk) {
      ExpiringTimerIsDue(t, clk);
      ReinsertionLosesOnlyTheSlip(Expire(t), HighClock(clk));
    } else if InWheel0(t) {
      TicksLeftStep(t.place.slot, clk.cursors[0]);
    }
  }

  // ----- when nothing slips

  /** What is left after the slot fits in the same wheel (in wheel 1 for a timer in wheel 0). */
  predicate Fits(t: Timer) {
    t.place.InSlot? ==> AfterSlot(t) <= 64 * Res(if t.place.wheel > 1 then t.place.wheel else 1)
  }

  lemma Wheel1IsAlwaysAligned(c: nat)
    ensures Offset(0, c) == 0 && Offset(1, c) == 0
  {
    assert Low(64 * c, 1) == 64 * c % 64 + 64 * Low(c, 0);
  }

  /** A timer that fits never slips, and fits again after it has been moved down. */
  lemma FittingTimerNeverSlips(t: Timer, clk: Clock)
    requires ValidCursors(clk) && Linked(t) && Fits(t)
    ensures LowSlip(t, clk) == 0 && HighSlip(t, clk) == 0
    ensures Fits(LowTick(t, clk)) && Fits(HighTick(t, clk))
  {
    if ExpiresOnLowTick(t, clk) {
      FittingTimerCascadesAligned(t, clk);
    }
    if ExpiresOnHighTick(t, clk) {
      ReinsertionLosesOnlyTheSlip(Expire(t), HighClock(clk));
      if AfterSlot(t) > 0 {
        WheelForIsLeast(AfterSlot(t), 1);
        Wheel1IsAlwaysAligned(clk.counter);
      }
    }
  }

  lemma FittingTimerCascadesAligned(t: Timer, clk: Clock)
    requires ValidCursors(clk) && Linked(t) && Fits(t) && ExpiresOnLowTick(t, clk)
    ensures LowSlip(t, clk) == 0 && Fits(LowTick(t, clk))
  {
    var w, e := t.place.wheel, AfterSlot(t);
    TicksExactlyAtMultiples(clk.counter + 1, w);
    OffsetStep(w, clk.counter);
    ReinsertionLosesOnlyTheSlip(Expire(t), LowClock(clk));
    if e > 0 {
      WheelForIsLeast(e, w);
      AlignedBelow(64 * (clk.counter + 1), WheelFor(e), w);
    }
  }
}
