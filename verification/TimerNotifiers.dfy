/**
  TimerNotifier: the seven wheels, the notify list and the tick handlers. `now` is the one
  reading of the steady clock that an operation makes.
 */
module TimerNotifiers {
  import opened Sequences
  import opened TimerModel
  import opened TimerExactness
  import opened TimerPlaces
  import opened TimerRuns
  import opened TimerWheels

  lemma AddAdjustedActivates(v: Timer, clk: Clock)
    requires ValidCursors(clk)
    ensures AddAdjusted(v.(active := true), clk) == AddAdjusted(v, clk)
    ensures v.timeout == 0 ==> AddAdjusted(v, clk) == v.(active := true, place := Notify)
  {
  }

  class TimerNotifier {
    const wheels: seq<TimerWheel>
    var counter: nat
    var lowTime: int
    var highTime: int
    var highEnabled: bool
    var toNotify: seq<TimerPrivate>
    var eventIsSet: bool
    var isNotifying: bool
    ghost var home: map<TimerPrivate, Place>  // where each timer of this notifier is
    ghost var lists: Slots<TimerPrivate>      // the slots of all wheels
    ghost var clk: Clock                      // the tick counter with the cursors of all wheels

    ghost predicate WheelAgrees(i: nat)
      requires |wheels| == 7 && |lists| == 7 && |clk.cursors| == 7 && i < 7
      reads this`lists, this`clk, wheels
    {
      wheels[i].index == i && wheels[i].Valid() && wheels[i].slots == lists[i] && wheels[i].idxNext == clk.cursors[i]
    }

    ghost predicate WheelsAgree()
      reads this`counter, this`lists, this`clk, wheels
    {
      && |wheels| == 7 && |lists| == 7 && ValidCursors(clk) && clk.counter == counter
      && forall i {:trigger WheelAgrees(i)} :: 0 <= i < 7 ==> WheelAgrees(i)
    }

    /** The timer's own fields name the place `p`. */
    ghost predicate IsAt(t: TimerPrivate, p: Place)
      requires |wheels| == 7
      reads t`active, t`wheel, t`slot
    {
      match p
      case InSlot(w, s) => w < 7 && t.active && t.wheel == wheels[w] && t.slot == s
      case Notify => t.active && t.wheel == null && t.slot == 0
      case Nowhere => t.wheel == null && t.slot == 0
    }

    ghost predicate TimersAgree()
      requires |wheels| == 7
      reads this`home, home.Keys`active, home.Keys`wheel, home.Keys`slot
    {
      forall t :: t in home ==> IsAt(t, home[t])
    }

    /** What the links keep at every instant, also while timers are on their way between lists. */
    ghost predicate Consistent()
      reads this`counter, this`lists, this`clk, this`home, this`toNotify, this`eventIsSet, this`isNotifying
      reads wheels, home.Keys`active, home.Keys`wheel, home.Keys`slot
    {
      && WheelsAgree()
      && TimersAgree()
      && Partition(lists, toNotify, home)
      && (toNotify != [] ==> eventIsSet || isNotifying)
    }

    ghost function ValueOf(t: TimerPrivate): Timer
      requires t in home
      reads this`home, t
    {
      Timer(t.active, home[t], t.interval, t.timeout, t.extra, t.singleShot, t.timerType)
    }

    /** Active, but in no list: the timer never fires, and nothing may be done with it any more. */
    ghost predicate IsLost(t: TimerPrivate)
      requires t in home
      reads this`home, t`active
    {
      t.active && home[t] == Nowhere
    }

    /** The high-resolution ticker runs exactly while wheel 0 holds a timer. */
    ghost predicate TickerAgrees()
      requires |wheels| == 7
      reads this`highEnabled, wheels
    {
      highEnabled <==> wheels[0].count != 0
    }

    /** What holds between operations. */
    ghost predicate Valid()
      reads this, wheels, home.Keys
    {
      Consistent() && TickerAgrees()
    }

    ghost predicate Is(t: TimerPrivate, v: Timer)
      reads this`home, t
    {
      t in home && ValueOf(t) == v
    }

    /** The values of all timers of this notifier. */
    ghost predicate Are(values: map<TimerPrivate, Timer>)
      reads this`home, home.Keys, values.Keys
    {
      values.Keys == home.Keys && forall t {:trigger Is(t, values[t])} :: t in values ==> Is(t, values[t])
    }

    /** The notifier as the system whose runs are studied in TimerRuns. */
    ghost function Abs(): System<TimerPrivate>
      reads this`clk, this`home, home.Keys
    {
      System(clk, map t | t in home :: ValueOf(t))
    }

    lemma AbsIs(timers: map<TimerPrivate, Timer>)
      requires Are(timers)
      ensures Abs() == System(clk, timers)
    {
      forall t | t in timers
        ensures ValueOf(t) == timers[t]
      {
        assert Is(t, timers[t]);
      }
    }

    lemma AreAbs()
      ensures Are(Abs().timers)
    {
    }

    lemma OnlyOneChanged(before: System<TimerPrivate>, t: TimerPrivate)
      requires t in home && home.Keys == before.timers.Keys && clk == before.clk
      requires forall x {:trigger Is(x, before.timers[x])} :: x in before.timers && x != t ==> Is(x, before.timers[x])
      ensures Abs() == System(before.clk, before.timers[t := ValueOf(t)])
    {
      var timers := before.timers[t := ValueOf(t)];
      forall x | x in timers
        ensures Is(x, timers[x])
      {
        assert x != t ==> Is(x, before.timers[x]);
      }
      AbsIs(timers);
    }

    constructor (now: int)
      ensures Valid() && home == map[] && counter == 0 && lowTime == now && !highEnabled && !isNotifying
      ensures clk == Clock(0, [0, 0, 0, 0, 0, 0, 0])
    {
      var ws := TimerWheel.Seven();
      wheels := ws;
      counter, lowTime, highTime, highEnabled := 0, now, 0, false;
      toNotify, eventIsSet, isNotifying := [], false, false;
      home := map[];
      lists := seq(7, _ => seq(64, _ => []));
      clk := Clock(0, [0, 0, 0, 0, 0, 0, 0]);
      new;
      assert forall i :: 0 <= i < 7 ==> WheelAgrees(i);
    }

    /** A new timer of this notifier. */
    method CreateTimer() returns (t: TimerPrivate)
      requires Valid()
      modifies this`home
      ensures Valid() && fresh(t) && home == old(home)[t := Nowhere]
    {
      t := new TimerPrivate();
      RegisterInPartition(lists, toNotify, home, t);
      home := home[t := Nowhere];
    }

    /** The ticker's time changes only when the ticker is switched on, and is then the clock's reading. */
    twostate predicate TickerFollows(now: int)
      reads this`highTime, this`highEnabled
    {
      && (highTime == old(highTime) || highTime == now)
      && (highEnabled && !old(highEnabled) ==> highTime == now)
    }

    method SetHighResolutionClockTickerEnabled(enabled: bool, now: int)
      modifies this`highTime, this`highEnabled
      ensures highEnabled == enabled
      ensures highTime == if enabled && !old(highEnabled) then now else old(highTime)
    {
      if enabled && !highEnabled {
        highTime := now;
      }
      highEnabled := enabled;
    }

    /** The ticker runs exactly while wheel 0 holds a timer. */
    method UpdateTicker(now: int)
      requires Consistent()
      modifies this`highTime, this`highEnabled
      ensures Valid() && TickerFollows(now)
    {
      assert WheelAgrees(0);
      SetHighResolutionClockTickerEnabled(!wheels[0].IsEmpty(), now);
    }

    method TriggerTimerWhenControlReturnsToEventLoop(t: TimerPrivate)
      requires Consistent() && t in home && home[t] == Nowhere && t.active
      modifies this`eventIsSet, this`toNotify, this`home, t`wheel, t`slot
      ensures Consistent() && eventIsSet
      ensures home == old(home)[t := Notify] && toNotify == [t] + old(toNotify)
    {
      eventIsSet := true;
      t.wheel := null;
      t.slot := 0;
      LinkForNotify(lists, toNotify, home, t);
      toNotify := [t] + toNotify;
      home := home[t := Notify];
    }

    method LinkIntoWheel(t: TimerPrivate, w: nat)
      requires Consistent() && t in home && home[t] == Nowhere && t.active && w < 7
      modifies this`lists, this`home, wheels`count, wheels`slots, t`wheel, t`slot
      ensures Consistent()
      ensures home ==
        if CanAdd(w, t.timeout) then old(home)[t := InSlot(w, SlotIdx(w, t.timeout, clk.cursors[w]))] else old(home)
    {
      ghost var s := SlotIdx(w, t.timeout, clk.cursors[w]);
      LinkInSlot(lists, toNotify, home, t, w, s);
      assert WheelAgrees(w);
      var ok := wheels[w].AddTimer(t);
      if ok {
        lists := SlotUpdate(lists, w, s, [t] + lists[w][s]);
        home := home[t := InSlot(w, s)];
      }
      forall i | 0 <= i < 7
        ensures WheelAgrees(i)
      {
        assert old(WheelAgrees(i));
      }
    }

    method UnlinkFromWheel(t: TimerPrivate)
      requires Consistent() && t in home && home[t].InSlot?
      modifies this`lists, this`home, wheels`count, wheels`slots, t`active, t`wheel, t`slot
      ensures Consistent() && home == old(home)[t := Nowhere] && !t.active
    {
      ghost var w, s := home[t].wheel, home[t].slot;
      TimerPlaces.UnlinkFromSlot(lists, toNotify, home, t);
      assert IsAt(t, home[t]) && WheelAgrees(w);
      t.active := false;
      var ok := t.wheel.RemoveTimer(t);
      lists := SlotUpdate(lists, w, s, Without(lists[w][s], t));
      home := home[t := Nowhere];
      forall i | 0 <= i < 7
        ensures WheelAgrees(i)
      {
        assert old(WheelAgrees(i));
      }
    }

    method UnlinkFromNotifyList(t: TimerPrivate)
      requires Consistent() && t in home && home[t] == Notify
      modifies this`toNotify, this`home, t`active
      ensures Consistent() && home == old(home)[t := Nowhere] && !t.active
      ensures t in old(toNotify) && toNotify == Without(old(toNotify), t)
    {
      UnlinkFromNotify(lists, toNotify, home, t);
      t.active := false;
      toNotify := TakeOut(toNotify, t);
      home := home[t := Nowhere];
    }

    method Activate(t: TimerPrivate)
      requires Consistent() && t in home && home[t] == Nowhere
      modifies t`active
      ensures Consistent() && t.active
    {
      t.active := true;
    }

    /** The wheel may refuse the timer, and the ticker is set all the same. */
    method AddToWheel(t: TimerPrivate, w: nat, now: int)
      requires Consistent() && t in home && home[t] == Nowhere && t.active && w < 7
      modifies this`highTime, this`highEnabled, this`lists, this`home, wheels`count, wheels`slots, t`wheel, t`slot
      ensures Consistent() && TickerAgrees() && TickerFollows(now)
      ensures home ==
        if CanAdd(w, t.timeout) then old(home)[t := InSlot(w, SlotIdx(w, t.timeout, clk.cursors[w]))] else old(home)
    {
      LinkIntoWheel(t, w);
      SetHighResolutionClockTickerEnabled(!wheels[0].IsEmpty(), now);
    }

    method AddAdjustedTimer(t: TimerPrivate, now: int)
      requires Consistent() && t in home && home[t] == Nowhere
      modifies this`highTime, this`highEnabled, this`eventIsSet, this`toNotify, this`lists, this`home
      modifies wheels`count, wheels`slots, t`active, t`wheel, t`slot, t`extra
      ensures Consistent() && t in home && home == old(home)[t := home[t]]
      ensures ValueOf(t) == AddAdjusted(old(ValueOf(t)), clk)
      ensures toNotify == if t.timeout == 0 then [t] + old(toNotify) else old(toNotify)
      ensures TickerFollows(now)
      ensures t.timeout == 0 ==> highEnabled == old(highEnabled) && wheels[0].count == old(wheels[0].count)
      ensures t.timeout != 0 ==> TickerAgrees()
    {
      AddAdjustedActivates(ValueOf(t), clk);
      Activate(t);
      if t.timeout == 0 {
        TriggerTimerWhenControlReturnsToEventLoop(t);
        return;
      }
      LinkAdjustedTimer(t, now);
    }

    /** A sum above the maximum costs the extra timeout; then the timer goes to its wheel. */
    method LinkAdjustedTimer(t: TimerPrivate, now: int)
      requires Consistent() && t in home && home[t] == Nowhere && t.active && t.timeout != 0
      modifies this`highTime, this`highEnabled, this`lists, this`home
      modifies wheels`count, wheels`slots, t`wheel, t`slot, t`extra
      ensures Consistent() && TickerAgrees() && t in home && home == old(home)[t := home[t]] && TickerFollows(now)
      ensures ValueOf(t) == AddAdjusted(old(ValueOf(t)), clk)
    {
      CutExtraTimeout(t);
      AddToWheel(t, WheelFor(t.timeout), now);
    }

    method CutExtraTimeout(t: TimerPrivate)
      modifies t`extra
      ensures t.extra == if AsUnsigned64(t.timeout + old(t.extra)) > MAX_TIMEOUT then 0 else old(t.extra)
    {
      if AsUnsigned64(t.timeout + t.extra) > MAX_TIMEOUT {
        t.extra := 0;
      }
    }

    lemma ListedByPlace(t: TimerPrivate)
      requires Consistent() && t in home
      ensures t in toNotify <==> home[t] == Notify
    {
      assert Listed(lists, toNotify, home, t);
    }

    method RemoveTimer(t: TimerPrivate, now: int)
      requires Valid() && t in home && !IsLost(t)
      modifies this`highTime, this`highEnabled, this`toNotify, this`lists, this`home
      modifies wheels`count, wheels`slots, t`active, t`wheel, t`slot
      ensures Valid() && home == old(home)[t := Nowhere] && TickerFollows(now)
      ensures ValueOf(t) == Remove(old(ValueOf(t))) && toNotify == WithoutOne(old(toNotify), t) && !t.active
    {
      assert IsAt(t, home[t]);
      ListedByPlace(t);
      if !t.active {
        assert home == home[t := Nowhere];
        return;
      }
      if t.wheel != null {
        UnlinkFromWheel(t);
        UpdateTicker(now);
      } else {
        UnlinkFromNotifyList(t);
      }
    }

    /** The time since the last tick that the timer's wheel counts. */
    method SetExtraTimeoutToElapsed(t: TimerPrivate, now: int)
      requires t.timeout > 0
      modifies t`extra
      ensures t.extra == Correction(t.timerType, t.timeout, highEnabled, Elapsed(now, lowTime), Elapsed(now, highTime))
    {
      t.extra := 0;
      if t.timerType == Precise || t.timeout < 4096 {
        if t.timeout > 64 {
          if now > lowTime {
            t.extra := (now - lowTime) / NSECS_PER_MSEC;
          }
        } else if highEnabled {
          if now > highTime {
            t.extra := (now - highTime) / NSECS_PER_MSEC;
          }
        }
      }
    }

    /** True when the timer already is in the slot of the wheel. */
    predicate IsInSlot(t: TimerPrivate, w: nat)
      requires w < |wheels|
      reads t, wheels[w]
    {
      t.active && t.wheel == wheels[w] && wheels[w].GetSlotIdx(t.timeout) == t.slot
    }

    lemma InSlotByPlace(t: TimerPrivate, w: nat)
      requires Consistent() && t in home && w < 7
      ensures IsInSlot(t, w) <==> t.active && home[t] == InSlot(w, SlotIdx(w, t.timeout, clk.cursors[w]))
    {
      assert WheelAgrees(w) && IsAt(t, home[t]);
      assert home[t].InSlot? ==> home[t].wheel < 7 && WheelAgrees(home[t].wheel);
    }

    /** Sets timeout and extra timeout; tells whether the timer already is where it would be moved. */
    method AdjustTimer(t: TimerPrivate, now: int, ghost d: nat) returns (keepsSlot: bool)
      requires Valid() && t in home
      requires d == Correction(t.timerType, t.interval, highEnabled, Elapsed(now, lowTime), Elapsed(now, highTime))
      modifies t`timeout, t`extra
      ensures ValueOf(t) == Adjust(old(ValueOf(t)), clk, d)
      ensures keepsSlot <==> KeepsSlot(old(ValueOf(t)), clk)
    {
      keepsSlot := false;
      t.extra := 0;
      t.timeout := t.interval;
      if t.timeout > 0 {
        SetExtraTimeoutToElapsed(t, now);
        var w := WheelFor(t.timeout);
        t.extra := t.extra + Low(64 * counter, w);
        InSlotByPlace(t, w);
        keepsSlot := IsInSlot(t, w);
      }
    }

    method MoveTimer(t: TimerPrivate, now: int)
      requires Valid() && t in home && !IsLost(t)
      modifies this`highTime, this`highEnabled, this`eventIsSet, this`toNotify, this`lists, this`home
      modifies wheels`count, wheels`slots, t`active, t`wheel, t`slot, t`extra
      ensures Valid() && t in home && home == old(home)[t := home[t]]
      ensures ValueOf(t) == AddAdjusted(Remove(old(ValueOf(t))), clk)
      ensures toNotify == (if t.timeout == 0 then [t] else []) + WithoutOne(old(toNotify), t)
      ensures TickerFollows(now)
    {
      RemoveTimer(t, now);
      AddAdjustedTimer(t, now);
    }

    method AddTimer(t: TimerPrivate, now: int)
      requires Valid() && t in home && !IsLost(t)
      modifies this`highTime, this`highEnabled, this`eventIsSet, this`toNotify, this`lists, this`home
      modifies wheels`count, wheels`slots, t`active, t`wheel, t`slot, t`timeout, t`extra
      ensures Valid() && t in home && home == old(home)[t := home[t]]
      ensures var d := Correction(t.timerType, t.interval, old(highEnabled), Elapsed(now, lowTime),
        Elapsed(now, old(highTime)));
              ValueOf(t) == Add(old(ValueOf(t)), clk, d)
      ensures toNotify == (if t.interval == 0 then [t] else []) + WithoutOne(old(toNotify), t)
      ensures TickerFollows(now) && HasTimeLeft(ValueOf(t), clk, now, lowTime, old(highEnabled), old(highTime))
    {
      ghost var d := Correction(t.timerType, t.interval, highEnabled, Elapsed(now, lowTime), Elapsed(now, highTime));
      assert IsAt(t, home[t]);
      TimeLeftByClocks(ValueOf(t), clk, now, lowTime, highEnabled, highTime);
      AdjustAndMove(t, now, d);
    }

    method AdjustAndMove(t: TimerPrivate, now: int, ghost d: nat)
      requires Valid() && t in home && !IsLost(t)
      requires d == Correction(t.timerType, t.interval, highEnabled, Elapsed(now, lowTime), Elapsed(now, highTime))
      modifies this`highTime, this`highEnabled, this`eventIsSet, this`toNotify, this`lists, this`home
      modifies wheels`count, wheels`slots, t`active, t`wheel, t`slot, t`timeout, t`extra
      ensures Valid() && t in home && home == old(home)[t := home[t]] && ValueOf(t) == Add(old(ValueOf(t)), clk, d)
      ensures toNotify == (if t.interval == 0 then [t] else []) + WithoutOne(old(toNotify), t)
      ensures TickerFollows(now)
    {
      ListedByPlace(t);
      var keepsSlot := AdjustTimer(t, now, d);
      if keepsSlot {
        assert home == home[t := home[t]];
        return;
      }
      MoveTimer(t, now);
    }

    /** start: the interval is set and the timer added. */
    method Start(t: TimerPrivate, interval: int, now: int)
      requires Valid() && t in home && !IsLost(t)
      modifies this`highTime, this`highEnabled, this`eventIsSet, this`toNotify, this`lists, this`home
      modifies wheels`count, wheels`slots, t`interval, t`active, t`wheel, t`slot, t`timeout, t`extra
      ensures Valid()
      ensures var d := Correction(t.timerType, interval, old(highEnabled), Elapsed(now, lowTime),
        Elapsed(now, old(highTime)));
              Abs() == Step(old(Abs()), Event.Start(t, interval, d))
      ensures toNotify == (if interval == 0 then [t] else []) + WithoutOne(old(toNotify), t)
      ensures home.Keys == old(home.Keys) && t.interval == interval
      ensures TickerFollows(now) && HasTimeLeft(ValueOf(t), clk, now, lowTime, old(highEnabled), old(highTime))
    {
      ghost var before := Abs();
      StoreInterval(t, interval);
      AddTimer(t, now);
      forall x | x in before.timers && x != t
        ensures Is(x, before.timers[x])
      {
        assert old(ValueOf(x)) == ValueOf(x);
      }
      OnlyOneChanged(before, t);
    }

    method StoreInterval(t: TimerPrivate, interval: int)
      requires Valid() && t in home
      modifies t`interval
      ensures Valid() && ValueOf(t) == old(ValueOf(t)).(interval := interval)
    {
      t.interval := interval;
    }

    method Stop(t: TimerPrivate, now: int)
      requires Valid() && t in home && !IsLost(t)
      modifies this`highTime, this`highEnabled, this`toNotify, this`lists, this`home
      modifies wheels`count, wheels`slots, t`active, t`wheel, t`slot
      ensures Valid()
      ensures Abs() == Step(old(Abs()), Event.Stop(t)) && toNotify == WithoutOne(old(toNotify), t)
      ensures home == old(home)[t := Nowhere] && !t.active && TickerFollows(now)
    {
      ghost var before := Abs();
      RemoveTimer(t, now);
      forall x | x in before.timers && x != t
        ensures Is(x, before.timers[x])
      {
        assert old(ValueOf(x)) == ValueOf(x);
      }
      OnlyOneChanged(before, t);
    }

    method SetInterval(t: TimerPrivate, interval: int, now: int)
      requires Valid() && t in home && !IsLost(t)
      modifies this`highTime, this`highEnabled, this`eventIsSet, this`toNotify, this`lists, this`home
      modifies wheels`count, wheels`slots, t`interval, t`active, t`wheel, t`slot, t`timeout, t`extra
      ensures Valid()
      ensures old(t.active) ==>
                var d := Correction(t.timerType, interval, old(highEnabled), Elapsed(now, lowTime),
                  Elapsed(now, old(highTime)));
                Abs() == Step(old(Abs()), Event.Start(t, interval, d))
      ensures !old(t.active) ==> home == old(home) && ValueOf(t) == old(ValueOf(t)).(interval := interval)
    {
      if t.active {
        Start(t, interval, now);
      } else {
        StoreInterval(t, interval);
      }
    }

    // ----- ticks

    method TickWheel(w: nat) returns (expired: seq<TimerPrivate>)
      requires Consistent() && w < 7
      modifies this`clk, this`lists, this`home, wheels, home.Keys`wheel, home.Keys`slot, home.Keys`timeout
      ensures Consistent() && Distinct(expired)
      ensures clk == old(clk).(cursors := old(clk).cursors[w := Bump(old(clk).cursors[w])])
      ensures home == Vacate(old(home), w, old(clk).cursors[w])
      ensures forall t :: t in expired <==> t in home && old(home)[t] == InSlot(w, old(clk).cursors[w])
      ensures forall t :: t in home ==> t.timeout == if t in expired then Low(old(t.timeout), w) else old(t.timeout)
    {
      ghost var s := clk.cursors[w];
      assert WheelAgrees(w);
      EmptySlot(lists, toNotify, home, w, s);
      expired := wheels[w].Tick();
      lists := SlotUpdate(lists, w, s, []);
      clk := clk.(cursors := clk.cursors[w := Bump(s)]);
      home := Vacate(home, w, s);
      forall i | 0 <= i < 7
        ensures WheelAgrees(i)
      {
        assert old(WheelAgrees(i));
      }
    }

    method TickWheelOf(w: nat, ghost before: map<TimerPrivate, Timer>) returns (expired: seq<TimerPrivate>)
      requires Consistent() && Are(before) && w < 7
      modifies this`clk, this`lists, this`home, wheels, home.Keys`wheel, home.Keys`slot, home.Keys`timeout
      ensures Consistent() && Distinct(expired) && home.Keys == old(home).Keys
      ensures clk == old(clk).(cursors := old(clk).cursors[w := Bump(old(clk).cursors[w])])
      ensures Are(SlotExpired(before, InSlot(w, old(clk).cursors[w])))
      ensures forall t :: t in expired <==> t in before && before[t].place == InSlot(w, old(clk).cursors[w])
    {
      ghost var p := InSlot(w, clk.cursors[w]);
      forall t | t in before
        ensures home[t] == before[t].place
      {
        assert Is(t, before[t]);
      }
      expired := TickWheel(w);
      forall t | t in before
        ensures Is(t, SlotExpired(before, p)[t])
      {
        assert old(Is(t, before[t]));
      }
    }

    method ReinsertTimer(t: TimerPrivate, now: int, ghost v: Timer)
      requires Consistent() && Is(t, v) && v.place == Nowhere
      modifies this`highTime, this`highEnabled, this`eventIsSet, this`toNotify, this`lists, this`home
      modifies wheels`count, wheels`slots, t
      ensures Consistent() && t in home && home == old(home)[t := home[t]]
      ensures Is(t, Reinsert(v, clk)) && TickerFollows(now)
    {
      t.timeout := t.timeout + t.extra;
      t.extra := 0;
      AddAdjustedTimer(t, now);
    }

    method ReinsertOneOf(t: TimerPrivate, now: int, ghost before: map<TimerPrivate, Timer>)
      requires Consistent() && Are(before) && t in before && before[t].place == Nowhere
      modifies this`highTime, this`highEnabled, this`eventIsSet, this`toNotify, this`lists, this`home
      modifies wheels`count, wheels`slots, t
      ensures Consistent() && home.Keys == old(home).Keys && Are(before[t := Reinsert(before[t], clk)])
      ensures TickerFollows(now)
    {
      assert Is(t, before[t]);
      ReinsertTimer(t, now, before[t]);
      ghost var after := before[t := Reinsert(before[t], clk)];
      forall x | x in after
        ensures Is(x, after[x])
      {
        assert old(Is(x, before[x]));
      }
    }

    method ProcessExpiredTimers(expired: seq<TimerPrivate>, now: int, ghost before: map<TimerPrivate, Timer>)
      requires Consistent() && Distinct(expired) && Are(before)
      requires forall t :: t in expired ==> t in before && before[t].place == Nowhere
      modifies this`highTime, this`highEnabled, this`eventIsSet, this`toNotify, this`lists, this`home
      modifies wheels`count, wheels`slots, expired
      ensures Consistent() && home.Keys == old(home).Keys && Are(AfterReinsertion(before, expired, clk))
      ensures TickerFollows(now)
    {
      assert AfterReinsertion(before, expired[..0], clk) == before;
      for i := 0 to |expired|
        invariant Consistent() && home.Keys == old(home).Keys && Are(AfterReinsertion(before, expired[..i], clk))
        invariant TickerFollows(now)
      {
        OneMoreReinserted(before, expired, i, clk);
        ReinsertOneOf(expired[i], now, AfterReinsertion(before, expired[..i], clk));
      }
      assert expired[..|expired|] == expired;
    }

    ghost function CursorsAfterTicks(clk: Clock, i: nat, largest: nat): seq<nat>
      requires ValidCursors(clk)
    {
      seq(7, j requires 0 <= j < 7 => if i < j <= largest then Bump(clk.cursors[j]) else clk.cursors[j])
    }

    method TickWheels(largest: nat, ghost before: map<TimerPrivate, Timer>) returns (expired: seq<TimerPrivate>)
      requires Consistent() && Are(before) && largest <= 6
      modifies this`clk, this`lists, this`home, wheels, home.Keys`wheel, home.Keys`slot, home.Keys`timeout
      ensures Consistent() && Distinct(expired) && home.Keys == old(home).Keys
      ensures clk == Clock(counter, CursorsAfterTicks(old(clk), 0, largest))
      ensures Are(WheelsExpired(before, old(clk), 0, largest))
      ensures forall t :: t in expired <==> t in before && DropsOut(before[t], old(clk), 0, largest)
    {
      expired := [];
      var i: nat := largest;
      ghost var clk0 := clk;
      assert CursorsAfterTicks(clk0, largest, largest) == clk0.cursors;
      assert WheelsExpired(before, clk0, largest, largest) == before;
      while i > 0
        invariant i <= largest && Consistent() && Distinct(expired) && home.Keys == old(home).Keys
        invariant clk == Clock(counter, CursorsAfterTicks(clk0, i, largest))
        invariant Are(WheelsExpired(before, clk0, i, largest))
        invariant forall t :: t in expired <==> t in before && DropsOut(before[t], clk0, i, largest)
      {
        var tmp := TickOneWheel(i, largest, clk0, before, expired);
        i, expired := i - 1, tmp + expired;
      }
    }

    method TickOneWheel(i: nat, ghost largest: nat, ghost clk0: Clock, ghost before: map<TimerPrivate, Timer>,
        ghost expired: seq<TimerPrivate>)
      returns (tmp: seq<TimerPrivate>)
      requires Consistent() && Distinct(expired) && 0 < i <= largest <= 6 && ValidCursors(clk0)
      requires clk == Clock(counter, CursorsAfterTicks(clk0, i, largest))
      requires Are(WheelsExpired(before, clk0, i, largest))
      requires forall t :: t in expired <==> t in before && DropsOut(before[t], clk0, i, largest)
      modifies this`clk, this`lists, this`home, wheels, home.Keys`wheel, home.Keys`slot, home.Keys`timeout
      ensures Consistent() && Distinct(tmp + expired) && home.Keys == old(home).Keys
      ensures clk == Clock(counter, CursorsAfterTicks(clk0, i - 1, largest))
      ensures Are(WheelsExpired(before, clk0, i - 1, largest))
      ensures forall t :: t in tmp + expired <==> t in before && DropsOut(before[t], clk0, i - 1, largest)
    {
      assert CursorsAfterTicks(clk0, i - 1, largest) == clk.cursors[i := Bump(clk.cursors[i])];
      OneMoreWheelExpired(before, clk0, i, largest);
      tmp := TickWheelOf(i, WheelsExpired(before, clk0, i, largest));
      ConcatDistinct(tmp, expired);
    }

    /** All wheels up to `largest` tick before any expired timer is linked again. */
    method TickAndReinsert(largest: nat, now: int, ghost before: map<TimerPrivate, Timer>)
      requires Consistent() && Are(before) && largest <= 6
      modifies this`highTime, this`highEnabled, this`eventIsSet, this`toNotify
      modifies this`clk, this`lists, this`home, wheels, home.Keys
      ensures Consistent() && home.Keys == old(home).Keys
      ensures clk == Clock(counter, CursorsAfterTicks(old(clk), 0, largest))
      ensures Are(Cascaded(before, old(clk), largest, clk)) && TickerFollows(now)
    {
      ghost var clk0 := clk;
      var expired := TickWheels(largest, before);
      ProcessExpiredTimers(expired, now, WheelsExpired(before, clk0, 0, largest));
      CascadedByWheels(before, clk0, largest, clk, expired);
    }

    method OnLowResolutionTick(now: int)
      requires Valid()
      modifies this, wheels, home.Keys
      ensures Valid() && lowTime == old(lowTime) + 64 * NSECS_PER_MSEC && TickerFollows(now)
      ensures Abs() == Step(old(Abs()), Event.LowResTick)
    {
      ghost var sys := Abs();
      AreAbs();
      TickLowResolution(now, sys.timers);
      AbsIs(LowTicked(sys.timers, sys.clk));
      assert LowTicked(sys.timers, sys.clk) == Step(sys, Event.LowResTick).timers;
    }

    method TickLowResolution(now: int, ghost before: map<TimerPrivate, Timer>)
      requires Valid() && Are(before)
      modifies this, wheels, home.Keys
      ensures Valid() && clk == LowClock(old(clk)) && Are(LowTicked(before, old(clk)))
      ensures lowTime == old(lowTime) + 64 * NSECS_PER_MSEC && TickerFollows(now)
    {
      lowTime := lowTime + 64 * NSECS_PER_MSEC;
      TickHigherWheelsAndReinsert(now, before);
      UpdateTicker(now);
    }

    method TickHigherWheelsAndReinsert(now: int, ghost before: map<TimerPrivate, Timer>)
      requires Consistent() && Are(before)
      modifies this`highTime, this`highEnabled, this`eventIsSet, this`toNotify
      modifies this`counter, this`clk, this`lists, this`home, wheels, home.Keys
      ensures Consistent() && home.Keys == old(home).Keys && clk == LowClock(old(clk))
      ensures Are(LowTicked(before, old(clk))) && TickerFollows(now)
    {
      ghost var clk0 := clk;
      AdvanceCounter();
      var largest := LargestWheelToTick(counter);
      CascadedIsLowTicked(before, clk0);
      TickAndReinsert(largest, now, before);
      assert clk == LowClock(clk0);
    }

    method AdvanceCounter()
      requires Consistent()
      modifies this`counter, this`clk
      ensures Consistent() && counter == old(counter) + 1 && clk == old(clk).(counter := counter)
    {
      counter := counter + 1;
      clk := clk.(counter := counter);
      forall i | 0 <= i < 7
        ensures WheelAgrees(i)
      {
        assert old(WheelAgrees(i));
      }
    }

    method OnHighResolutionTick(now: int)
      requires Valid()
      modifies this, wheels, home.Keys
      ensures Valid() && lowTime == old(lowTime) && (highTime == old(highTime) + NSECS_PER_MSEC || highTime == now)
      ensures highEnabled && !old(highEnabled) ==> highTime == now
      ensures Abs() == Step(old(Abs()), Event.HighResTick)
    {
      ghost var sys := Abs();
      AreAbs();
      TickHighResolution(now, sys.timers);
      AbsIs(HighTicked(sys.timers, sys.clk));
      assert HighTicked(sys.timers, sys.clk) == Step(sys, Event.HighResTick).timers;
    }

    method TickHighResolution(now: int, ghost before: map<TimerPrivate, Timer>)
      requires Valid() && Are(before)
      modifies this, wheels, home.Keys
      ensures Valid() && clk == HighClock(old(clk)) && Are(HighTicked(before, old(clk)))
      ensures lowTime == old(lowTime) && (highTime == old(highTime) + NSECS_PER_MSEC || highTime == now)
      ensures highEnabled && !old(highEnabled) ==> highTime == now
    {
      highTime := highTime + NSECS_PER_MSEC;
      TickWheel0AndReinsert(now, before);
      UpdateTicker(now);
    }

    method TickWheel0AndReinsert(now: int, ghost before: map<TimerPrivate, Timer>)
      requires Consistent() && Are(before)
      modifies this`highTime, this`highEnabled, this`eventIsSet, this`toNotify
      modifies this`clk, this`lists, this`home, wheels, home.Keys
      ensures Consistent() && home.Keys == old(home).Keys && clk == HighClock(old(clk))
      ensures Are(HighTicked(before, old(clk))) && TickerFollows(now)
    {
      ghost var clk0 := clk;
      var expired := TickWheelOf(0, before);
      assert clk == HighClock(clk0);
      ProcessExpiredTimers(expired, now, SlotExpired(before, InSlot(0, clk0.cursors[0])));
      HighTickedBySlot(before, clk0, expired);
    }

    /** onEvent: the wakeup is consumed; a drain that is already running is not entered again. */
    method BeginNotifyTimers() returns (drains: bool)
      requires Valid()
      modifies this`eventIsSet, this`isNotifying
      ensures Valid() && isNotifying && drains == !old(isNotifying) && !eventIsSet
    {
      eventIsSet := false;
      drains := !isNotifying;
      isNotifying := true;
    }

    /** One turn of the drain: the first timer of the notify list stops, and starts again unless it is single shot. */
    method NotifyNextTimer(now: int) returns (t: TimerPrivate)
      requires Valid() && isNotifying && toNotify != []
      modifies this`highTime, this`highEnabled, this`eventIsSet, this`toNotify, this`lists, this`home
      modifies wheels`count, wheels`slots, toNotify[..1]`active, toNotify[..1]`wheel, toNotify[..1]`slot
      modifies toNotify[..1]`timeout, toNotify[..1]`extra
      ensures Valid() && t == old(toNotify)[0] && t in old(home) && old(home)[t] == Notify
      ensures var d := Correction(t.timerType, t.interval, old(highEnabled), Elapsed(now, lowTime),
        Elapsed(now, old(highTime)));
              Abs() == Step(old(Abs()), Deliver(t, d))
      ensures toNotify == old(toNotify)[1..] && home.Keys == old(home.Keys)
      ensures TickerFollows(now) && IsAfterTimeout(ValueOf(t), clk, now, lowTime, old(highEnabled), old(highTime))
    {
      t := toNotify[0];
      DeliverTimer(t, now);
    }

    method DeliverTimer(t: TimerPrivate, now: int)
      requires Valid() && toNotify != [] && t == toNotify[0]
      modifies this`highTime, this`highEnabled, this`eventIsSet, this`toNotify, this`lists, this`home
      modifies wheels`count, wheels`slots, t`active, t`wheel, t`slot, t`timeout, t`extra
      ensures Valid() && t in old(home) && old(home)[t] == Notify
      ensures var d := Correction(t.timerType, t.interval, old(highEnabled), Elapsed(now, lowTime),
        Elapsed(now, old(highTime)));
              Abs() == Step(old(Abs()), Deliver(t, d))
      ensures toNotify == old(toNotify)[1..] && home.Keys == old(home.Keys)
      ensures TickerFollows(now) && IsAfterTimeout(ValueOf(t), clk, now, lowTime, old(highEnabled), old(highTime))
    {
      ghost var before := Abs();
      ProcessTimeout(t, now);
      forall x | x in before.timers && x != t
        ensures Is(x, before.timers[x])
      {
        assert old(ValueOf(x)) == ValueOf(x);
      }
      OnlyOneChanged(before, t);
    }

    method ProcessTimeout(t: TimerPrivate, now: int)
      requires Valid() && toNotify != [] && t == toNotify[0]
      modifies this`highTime, this`highEnabled, this`eventIsSet, this`toNotify, this`lists, this`home
      modifies wheels`count, wheels`slots, t`active, t`wheel, t`slot, t`timeout, t`extra
      ensures Valid() && t in old(home) && old(home)[t] == Notify && t in home && home == old(home)[t := home[t]]
      ensures var d := Correction(t.timerType, t.interval, old(highEnabled), Elapsed(now, lowTime),
        Elapsed(now, old(highTime)));
              ValueOf(t) == TimeOut(old(ValueOf(t)), clk, d)
      ensures toNotify == old(toNotify)[1..]
      ensures TickerFollows(now) && IsAfterTimeout(ValueOf(t), clk, now, lowTime, old(highEnabled), old(highTime))
    {
      ghost var d := Correction(t.timerType, t.interval, highEnabled, Elapsed(now, lowTime), Elapsed(now, highTime));
      PopFirstTimer(t);
      RestartTimer(t, now, ValueOf(t), d);
    }

    method RestartTimer(t: TimerPrivate, now: int, ghost fired: Timer, ghost d: nat)
      requires Valid() && t in home && !t.active && ValueOf(t) == fired
      requires d == Correction(t.timerType, t.interval, highEnabled, Elapsed(now, lowTime), Elapsed(now, highTime))
      modifies this`highTime, this`highEnabled, this`eventIsSet, this`toNotify, this`lists, this`home
      modifies wheels`count, wheels`slots, t`active, t`wheel, t`slot, t`timeout, t`extra
      ensures Valid() && t in home && home == old(home)[t := home[t]]
      ensures ValueOf(t) == if fired.singleShot || fired.interval == 0 then fired else Add(fired, clk, d)
      ensures toNotify == old(toNotify)
      ensures TickerFollows(now) && IsAfterTimeout(ValueOf(t), clk, now, lowTime, old(highEnabled), old(highTime))
    {
      if !t.IsSingleShot() {
        AddTimer(t, now);
      } else {
        assert home == home[t := home[t]];
      }
    }

    method PopFirstTimer(t: TimerPrivate)
      requires Valid() && toNotify != [] && t == toNotify[0]
      modifies this`toNotify, this`home, t`active
      ensures Valid() && t in old(home) && old(home)[t] == Notify && home == old(home)[t := Nowhere]
      ensures toNotify == old(toNotify)[1..] && t in home
      ensures ValueOf(t) == old(ValueOf(t)).(active := false, place := Nowhere)
    {
      PopFirstNotify(lists, toNotify, home);
      toNotify := toNotify[1..];
      t.active := false;
      home := home[t := Nowhere];
    }

    method EndNotifyTimers()
      requires Valid() && isNotifying && toNotify == []
      modifies this`isNotifying
      ensures Valid() && !isNotifying
    {
      isNotifying := false;
    }
  }

  /** True when the timer is in the slot that one of the wheels `i + 1` to `largest` empties. */
  ghost predicate DropsOut(t: Timer, clk: Clock, i: nat, largest: nat)
    requires ValidCursors(clk) && largest < 7
  {
    t.place.InSlot? && i < t.place.wheel <= largest && t.place.slot == clk.cursors[t.place.wheel]
  }

  ghost function SlotExpired<K>(before: map<K, Timer>, p: Place): map<K, Timer>
    requires p.InSlot?
  {
    map t | t in before :: if before[t].place == p then Expire(before[t]) else before[t]
  }

  ghost function WheelsExpired<K>(before: map<K, Timer>, clk: Clock, i: nat, largest: nat): map<K, Timer>
    requires ValidCursors(clk) && largest < 7
  {
    map t | t in before :: if DropsOut(before[t], clk, i, largest) then Expire(before[t]) else before[t]
  }

  lemma OneMoreWheelExpired<K>(before: map<K, Timer>, clk: Clock, i: nat, largest: nat)
    requires ValidCursors(clk) && 0 < i <= largest < 7
    ensures SlotExpired(WheelsExpired(before, clk, i, largest), InSlot(i, clk.cursors[i]))
         == WheelsExpired(before, clk, i - 1, largest)
  {
  }

  ghost function AfterReinsertion<K>(before: map<K, Timer>, expired: seq<K>, clk: Clock): map<K, Timer>
    requires ValidCursors(clk)
  {
    map t | t in before :: if t in expired then Reinsert(before[t], clk) else before[t]
  }

  lemma OneMoreReinserted<K>(before: map<K, Timer>, expired: seq<K>, i: nat, clk: Clock)
    requires ValidCursors(clk) && Distinct(expired) && i < |expired| && expired[i] in before
    ensures var some, t := AfterReinsertion(before, expired[..i], clk), expired[i];
      some[t] == before[t] && some[t := Reinsert(before[t], clk)] == AfterReinsertion(before, expired[..i + 1], clk)
  {
    assert expired[..i + 1] == expired[..i] + [expired[i]];
  }

  ghost function Cascaded<K>(before: map<K, Timer>, clk0: Clock, largest: nat, clk: Clock): map<K, Timer>
    requires ValidCursors(clk0) && ValidCursors(clk) && largest < 7
  {
    map t | t in before :: if DropsOut(before[t], clk0, 0, largest) then Reinsert(Expire(before[t]), clk) else before[t]
  }

  lemma CascadedByWheels<K>(before: map<K, Timer>, clk0: Clock, largest: nat, clk: Clock, expired: seq<K>)
    requires ValidCursors(clk0) && ValidCursors(clk) && largest < 7
    requires forall t :: t in expired <==> t in before && DropsOut(before[t], clk0, 0, largest)
    ensures AfterReinsertion(WheelsExpired(before, clk0, 0, largest), expired, clk)
         == Cascaded(before, clk0, largest, clk)
  {
  }

  ghost function LowTicked<K>(before: map<K, Timer>, clk: Clock): map<K, Timer>
    requires ValidCursors(clk)
  {
    map t | t in before :: LowTick(before[t], clk)
  }

  ghost function HighTicked<K>(before: map<K, Timer>, clk: Clock): map<K, Timer>
    requires ValidCursors(clk)
  {
    map t | t in before :: HighTick(before[t], clk)
  }

  lemma CascadedIsLowTicked<K>(before: map<K, Timer>, clk: Clock)
    requires ValidCursors(clk)
    ensures Cascaded(before, clk.(counter := clk.counter + 1), LargestWheelToTick(clk.counter + 1), LowClock(clk))
      == LowTicked(before, clk)
  {
  }

  lemma HighTickedBySlot<K>(before: map<K, Timer>, clk: Clock, expired: seq<K>)
    requires ValidCursors(clk)
    requires forall t :: t in expired <==> t in before && before[t].place == InSlot(0, clk.cursors[0])
    ensures AfterReinsertion(SlotExpired(before, InSlot(0, clk.cursors[0])), expired, HighClock(clk))
      == HighTicked(before, clk)
  {
  }
}
