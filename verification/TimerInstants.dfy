/**
  When the timers of a notifier are notified, in terms of its clocks: what Start leaves, joined to the runs after it.
 */
module TimerInstants {
  import opened TimerModel
  import opened TimerArithmetic
  import opened TimerExactness
  import opened TimerRuns
  import opened TimerWheels
  import opened TimerNotifiers

  /** What a call of Start at `now` has left, with the ticker as it was then. */
  ghost predicate IsJustStarted(n: TimerNotifier, before: System<TimerPrivate>, t: TimerPrivate, interval: int,
      now: int, wasHigh: bool, since: int)
    reads n, n.wheels, n.home.Keys
  {
    && n.Valid() && t in n.home && t.interval == interval
    && ValidCursors(before.clk) && t in before.timers && before.timers[t].timerType == t.timerType
    && HasTimeLeft(n.ValueOf(t), n.clk, now, n.lowTime, wasHigh, since)
    && exists d: nat :: IsStartedFrom(n.Abs(), before, t, interval, d)
  }

  ghost predicate IsStartedFrom(after: System<TimerPrivate>, before: System<TimerPrivate>, t: TimerPrivate,
      interval: int, d: nat)
  {
    && ValidCursors(before.clk) && t in before.timers && CanStart(before.timers[t], before.clk, interval, d)
    && after == Step(before, Event.Start(t, interval, d))
  }

  /** Start leaves a timer like that. */
  method StartTimer(n: TimerNotifier, t: TimerPrivate, interval: int, now: int)
    requires n.Valid() && t in n.home && !n.IsLost(t)
    requires CanStart(n.ValueOf(t), n.clk, interval, Correction(t.timerType, interval, n.highEnabled,
                                                                Elapsed(now, n.lowTime), Elapsed(now, n.highTime)))
    modifies n`highTime, n`highEnabled, n`eventIsSet, n`toNotify, n`lists, n`home
    modifies n.wheels`count, n.wheels`slots, t`interval, t`active, t`wheel, t`slot, t`timeout, t`extra
    ensures IsJustStarted(n, old(n.Abs()), t, interval, now, old(n.highEnabled), old(n.highTime))
    ensures n.TickerFollows(now)
  {
    ghost var d, before := Correction(t.timerType, interval, n.highEnabled, Elapsed(now, n.lowTime),
      Elapsed(now, n.highTime)), n.Abs();
    n.Start(t, interval, now);
    assert IsStartedFrom(n.Abs(), before, t, interval, d);
  }

  /** The milliseconds of ticks that a timer of this notifier counts along a run. */
  ghost function Ticked(n: TimerNotifier, t: TimerPrivate, es: seq<Event<TimerPrivate>>): nat
    requires n.Valid() && t in n.home
    reads n, n.wheels, n.home.Keys
  {
    64 * LowTicks(n.ValueOf(t), n.clk, es) + HighTicks(n.ValueOf(t), n.clk, es)
  }

  /** So many milliseconds after `now`, less under one. */
  predicate IsAfter(instant: int, now: int, milliseconds: int) {
    now + NSECS_PER_MSEC * (milliseconds - 1) < instant <= now + NSECS_PER_MSEC * milliseconds
  }

  /** The correction that the run model takes is what the time left says. */
  lemma CorrectionOf(n: TimerNotifier, before: System<TimerPrivate>, t: TimerPrivate, interval: int, now: int,
      wasHigh: bool, since: int) returns (d: nat)
    requires IsJustStarted(n, before, t, interval, now, wasHigh, since)
    ensures IsStartedFrom(n.Abs(), before, t, interval, d) && n.clk == before.clk
    ensures n.ValueOf(t) == Started(before, t, interval, d)
    ensures Linked(n.ValueOf(t)) && Remaining(n.ValueOf(t), n.clk) == interval + d
  {
    d :| IsStartedFrom(n.Abs(), before, t, interval, d);
    AddedTimerHasItsIntervalLeft(before.timers[t], before.clk, interval, d);
  }

  /**
    A timer above 64 ms that counts from the clock's reading is nominally notified the interval after the call, less
    the loss and less under a millisecond; `ahead` are the whole milliseconds since the last low-resolution tick.
   */
  lemma LongTimerInstant(n: TimerNotifier, before: System<TimerPrivate>, t: TimerPrivate, interval: int, now: int,
      wasHigh: bool, since: int, es: seq<Event<TimerPrivate>>, ahead: nat) returns (instant: int, loss: nat)
    requires IsJustStarted(n, before, t, interval, now, wasHigh, since) && LeavesAlone(es, t)
    requires interval > 64 && (t.timerType == Precise || interval < 4096)
    requires NSECS_PER_MSEC * ahead <= now - n.lowTime < NSECS_PER_MSEC * (ahead + 1)
    requires interval + ahead + Offset(WheelFor(interval), n.clk.counter) <= MAX_TIMEOUT
    requires Run(n.Abs(), es).timers[t].place == Notify
    ensures instant == n.lowTime + NSECS_PER_MSEC * Ticked(n, t, es) && loss == LossOf(interval, ahead, n.clk.counter)
    ensures IsAfter(instant, now, interval - loss)
  {
    var d := CorrectionOf(n, before, t, interval, now, wasHigh, since);
    WholeMilliseconds(now - n.lowTime, ahead);
    assert d == ahead;
    LongTimerTicks(n, before, t, interval, ahead, es);
    loss, instant := LossOf(interval, ahead, n.clk.counter), n.lowTime + NSECS_PER_MSEC * Ticked(n, t, es);
    InstantAfterTicks(n.lowTime, now, interval - loss, Ticked(n, t, es), ahead);
  }

  lemma WholeMilliseconds(nanoseconds: int, ahead: nat)
    requires NSECS_PER_MSEC * ahead <= nanoseconds < NSECS_PER_MSEC * (ahead + 1)
    ensures nanoseconds / NSECS_PER_MSEC == ahead
  {
  }

  lemma LongTimerTicks(n: TimerNotifier, before: System<TimerPrivate>, t: TimerPrivate, interval: int, d: nat,
      es: seq<Event<TimerPrivate>>)
    requires n.Valid() && t in n.home && IsStartedFrom(n.Abs(), before, t, interval, d) && LeavesAlone(es, t)
    requires interval > 64 && Run(n.Abs(), es).timers[t].place == Notify
    ensures Ticked(n, t, es) == interval + d - LossOf(interval, d, n.clk.counter)
  {
    LongTimerFiresOnTime(before, t, interval, d, es);
  }

  lemma InstantAfterTicks(since: int, now: int, length: int, ticked: nat, ahead: nat)
    requires NSECS_PER_MSEC * ahead <= now - since < NSECS_PER_MSEC * (ahead + 1) && ticked == length + ahead
    ensures IsAfter(since + NSECS_PER_MSEC * ticked, now, length)
  {
  }

  /** A coarse timer of 4096 ms or more counts from the last low-resolution tick before the call. */
  lemma CoarseTimerInstant(n: TimerNotifier, before: System<TimerPrivate>, t: TimerPrivate, interval: int, now: int,
      wasHigh: bool, since: int, es: seq<Event<TimerPrivate>>)
    requires IsJustStarted(n, before, t, interval, now, wasHigh, since) && LeavesAlone(es, t)
    requires interval >= 4096 && t.timerType != Precise
    requires interval + Offset(WheelFor(interval), n.clk.counter) <= MAX_TIMEOUT
    requires Run(n.Abs(), es).timers[t].place == Notify
    ensures Ticked(n, t, es) == interval
  {
    var d := CorrectionOf(n, before, t, interval, now, wasHigh, since);
    assert d == 0;
    LongTimerTicks(n, before, t, interval, d, es);
    NoLossUpTo4033(interval, d, n.clk.counter);
  }

  /**
    A timer of at most 64 ms is notified the interval after the call, less under a millisecond, unless the last
    high-resolution tick is more than 4096 ms ago; with the ticker off it counts from the call.
   */
  lemma ShortTimerInstant(n: TimerNotifier, before: System<TimerPrivate>, t: TimerPrivate, interval: int, now: int,
      wasHigh: bool, since: int, es: seq<Event<TimerPrivate>>)
    requires IsJustStarted(n, before, t, interval, now, wasHigh, since) && LeavesAlone(es, t)
    requires 0 < interval <= 64 && Run(n.Abs(), es).timers[t].place == Notify
    ensures wasHigh && 0 <= now - since < 4097 * NSECS_PER_MSEC ==>
      IsAfter(since + NSECS_PER_MSEC * Ticked(n, t, es), now, interval)
    ensures !wasHigh ==> Ticked(n, t, es) == interval
  {
    var d := CorrectionOf(n, before, t, interval, now, wasHigh, since);
    PlacementIsTotal(interval);
    ResValues();
    if (wasHigh && 0 <= now - since < 4097 * NSECS_PER_MSEC) || !wasHigh {
      assert d == if wasHigh then (now - since) / NSECS_PER_MSEC else 0;
      ShortTimerFiresOnTime(before, t, interval, d, es);
    }
  }
}
