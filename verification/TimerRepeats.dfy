/**
  What a timeout makes of a timer, and repeating timers over runs that notify them each time they are listed.
 */
module TimerRepeats {
  import opened TimerModel
  import opened TimerArithmetic
  import opened TimerExactness
  import opened TimerRuns

  ghost predicate HasSameSettings(a: Timer, b: Timer) {
    a.interval == b.interval && a.singleShot == b.singleShot && a.timerType == b.timerType
  }

  /** The sum that the wheels take stays below their maximum. */
  ghost predicate IsInRange(interval: int, d: nat, clk: Clock) {
    interval + d + Offset(WheelFor(interval), clk.counter) <= MAX_TIMEOUT
  }

  /** A timeout stops single-shot timers and those of 0 ms for good; any other timer starts again. */
  lemma DeliveredTimer<K>(sys: System<K>, id: K, d: nat)
    requires ValidCursors(sys.clk) && id in sys.timers && sys.timers[id].place == Notify
    ensures var t, t' := sys.timers[id], Step(sys, Deliver(id, d)).timers[id];
      && (t'.active <==> !t.singleShot && t.interval != 0)
      && (!t'.active ==> t'.place == Nowhere)
      && HasSameSettings(t', t)
      && (t'.active && 0 < t.interval && IsInRange(t.interval, d, sys.clk) ==>
        && t'.place.InSlot? && t'.place.wheel == WheelFor(t.interval)
        && Linked(t') && Remaining(t', sys.clk) == t.interval + d)
    ensures forall k :: k in sys.timers && k != id ==> Step(sys, Deliver(id, d)).timers[k] == sys.timers[k]
  {
    var t := sys.timers[id];
    var fired := t.(active := false, place := Nowhere);
    if !t.singleShot && t.interval > 0 && IsInRange(t.interval, d, sys.clk) {
      AddedTimerHasItsIntervalLeft(fired, sys.clk, t.interval, d);
      assert fired.(interval := t.interval) == fired;
    }
  }

  lemma {:induction false} RunKeepsSettings<K>(t: Timer, clk: Clock, es: seq<Event<K>>)
    requires ValidCursors(clk)
    ensures HasSameSettings(TimerRun(t, clk, es), t)
    decreases |es|
  {
    if es != [] {
      RunKeepsSettings(TimerStep(t, clk, es[0]), ClockStep(clk, es[0]), es[1..]);
    }
  }

  /** A listed timer that repeats, with an interval in range. */
  ghost predicate IsDue<K>(sys: System<K>, id: K, d: nat) {
    && ValidCursors(sys.clk) && id in sys.timers
    && var t := sys.timers[id];
      && t.active && t.place == Notify && !t.singleShot && t.interval > 0
      && IsInRange(t.interval, d, sys.clk)
  }

  /** One round of a repeating timer: it times out, with this correction, and is then left alone. */
  datatype Round<!K> = Round(d: nat, es: seq<Event<K>>)

  ghost function AfterRound<K>(sys: System<K>, id: K, r: Round<K>): (sys': System<K>)
    requires ValidCursors(sys.clk)
    ensures ValidCursors(sys'.clk) && sys'.timers.Keys == sys.timers.Keys
  {
    Run(Step(sys, Deliver(id, r.d)), r.es)
  }

  /** The ticks that the timer has counted in the round, in milliseconds. */
  ghost function Counted<K>(sys: System<K>, id: K, r: Round<K>): nat
    requires IsDue(sys, id, r.d)
  {
    var t := Step(sys, Deliver(id, r.d)).timers[id];
    64 * LowTicks(t, sys.clk, r.es) + HighTicks(t, sys.clk, r.es)
  }

  /** The ticks it has to count. */
  ghost function ToCount<K>(sys: System<K>, id: K, r: Round<K>): int
    requires IsDue(sys, id, r.d)
  {
    var t, interval := Step(sys, Deliver(id, r.d)).timers[id], sys.timers[id].interval;
    interval + r.d - (
      if interval > 64 then LossOf(interval, r.d, sys.clk.counter)
      else
        var k := FirstDrop(t, sys.clk, r.es);
        if k == |r.es| then 0 else SlipAt(r.d, ClockRun(sys.clk, r.es[..k]).counter))
  }

  /** A timeout of a timer that is due is a start of the timer that it stops. */
  lemma DeliveryIsAStart<K>(sys: System<K>, id: K, d: nat)
    requires IsDue(sys, id, d)
    ensures var t := sys.timers[id];
      var stopped := sys.(timers := sys.timers[id := t.(active := false, place := Nowhere)]);
      && CanStart(stopped.timers[id], sys.clk, t.interval, d)
      && Step(stopped, Start(id, t.interval, d)) == Step(sys, Deliver(id, d))
  {
    var t := sys.timers[id];
    var fired := t.(active := false, place := Nowhere);
    assert fired.(interval := t.interval) == fired;
    assert sys.timers[id := fired][id := Add(fired, sys.clk, d)] == sys.timers[id := Add(fired, sys.clk, d)];
  }

  /** After each timeout a repeating timer stays active, and is listed again exactly when its count is reached. */
  lemma {:induction false} RoundIsOnTime<K>(sys: System<K>, id: K, r: Round<K>)
    requires IsDue(sys, id, r.d) && LeavesAlone(r.es, id)
    ensures var t := AfterRound(sys, id, r).timers[id];
      && t.active && t.place != Nowhere && HasSameSettings(t, sys.timers[id])
      && (t.place == Notify <==> Counted(sys, id, r) == ToCount(sys, id, r))
      && (t.place != Notify ==> Counted(sys, id, r) < ToCount(sys, id, r))
  {
    var t, clk, d := sys.timers[id], sys.clk, r.d;
    var stopped := sys.(timers := sys.timers[id := t.(active := false, place := Nowhere)]);
    DeliveryIsAStart(sys, id, d);
    DeliveredTimer(sys, id, d);
    var s := Step(sys, Deliver(id, d)).timers[id];
    TimersAreIndependent(Step(sys, Deliver(id, d)), r.es, id);
    RunKeepsSettings(s, clk, r.es);
    RunKeepsTimerListed(s, clk, r.es);
    if t.interval > 64 {
      LongTimerFiresOnTime(stopped, id, t.interval, d, r.es);
    } else {
      ShortTimerFiresOnTime(stopped, id, t.interval, d, r.es);
    }
  }

  /** Each round goes on until the timer has counted what it has to. */
  ghost predicate AreFullRounds<K>(sys: System<K>, id: K, rounds: seq<Round<K>>)
    requires ValidCursors(sys.clk)
    decreases |rounds|
  {
    rounds != [] ==>
      var r := rounds[0];
      && IsDue(sys, id, r.d) && LeavesAlone(r.es, id) && Counted(sys, id, r) == ToCount(sys, id, r)
      && AreFullRounds(AfterRound(sys, id, r), id, rounds[1..])
  }

  ghost function AfterRounds<K>(sys: System<K>, id: K, rounds: seq<Round<K>>): (sys': System<K>)
    requires ValidCursors(sys.clk)
    ensures ValidCursors(sys'.clk) && sys'.timers.Keys == sys.timers.Keys
    decreases |rounds|
  {
    if rounds == [] then sys else AfterRounds(AfterRound(sys, id, rounds[0]), id, rounds[1..])
  }

  /** A repeating timer repeats for as many rounds as there are. */
  lemma {:induction false} RepeatingTimerRepeats<K>(sys: System<K>, id: K, rounds: seq<Round<K>>)
    requires ValidCursors(sys.clk) && AreFullRounds(sys, id, rounds) && rounds != []
    ensures var t := AfterRounds(sys, id, rounds).timers[id];
      t.active && t.place == Notify && HasSameSettings(t, sys.timers[id])
    decreases |rounds|
  {
    var sys' := AfterRound(sys, id, rounds[0]);
    RoundIsOnTime(sys, id, rounds[0]);
    if |rounds| > 1 {
      RepeatingTimerRepeats(sys', id, rounds[1..]);
    } else {
      assert AfterRounds(sys', id, []) == sys';
    }
  }
}
