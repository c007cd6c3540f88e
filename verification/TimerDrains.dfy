/**
  notifyTimers: the timers of the notify list time out one after the other, while their slots start and stop timers.
 */
module TimerDrains {
  import opened Sequences
  import opened TimerModel
  import opened TimerPlaces
  import opened TimerRuns
  import opened TimerWheels
  import opened TimerNotifiers

  // ---------- The notify list along a run ----------

  /** The system, and its notify list in order. */
  datatype Listing<!K> = Listing(system: System<K>, listed: seq<K>)

  /** Start and stop are not carried out for a timer that is active but in no list. */
  ghost predicate IsHeeded<K>(sys: System<K>, e: Event<K>) {
    (e.Start? || e.Stop?) && e.id in sys.timers ==>
      !(sys.timers[e.id].active && sys.timers[e.id].place == Nowhere)
  }

  /** Stopped timers leave the list, timers of 0 ms come to its front, and a timeout takes the first one. */
  ghost function ListedNext<K>(listed: seq<K>, e: Event<K>): seq<K> {
    match e
    case Start(t, interval, _) => (if interval == 0 then [t] else []) + WithoutOne(listed, t)
    case Stop(t) => WithoutOne(listed, t)
    case Deliver(_, _) => if listed == [] then [] else listed[1..]
    case _ => listed
  }

  ghost function Next<K>(before: Listing<K>, e: Event<K>): (after: Listing<K>)
    requires ValidCursors(before.system.clk)
    ensures ValidCursors(after.system.clk)
  {
    if IsHeeded(before.system, e)
    then Listing(Step(before.system, e), ListedNext(before.listed, e))
    else before
  }

  ghost function After<K>(before: Listing<K>, es: seq<Event<K>>): (after: Listing<K>)
    requires ValidCursors(before.system.clk)
    ensures ValidCursors(after.system.clk)
  {
    if es == [] then before else Next(After(before, es[..|es| - 1]), es[|es| - 1])
  }

  /** These events lead from one state to the other. */
  ghost predicate Leads<K>(before: Listing<K>, es: seq<Event<K>>, after: Listing<K>) {
    ValidCursors(before.system.clk) && After(before, es) == after
  }

  lemma AfterOneMore<K>(before: Listing<K>, es: seq<Event<K>>, e: Event<K>)
    requires ValidCursors(before.system.clk)
    ensures After(before, es + [e]) == Next(After(before, es), e)
  {
    assert (es + [e])[..|es|] == es;
  }

  lemma LeadsOneMore<K>(before: Listing<K>, es: seq<Event<K>>, middle: Listing<K>, e: Event<K>, after: Listing<K>)
    requires Leads(before, es, middle) && after == Next(middle, e)
    ensures Leads(before, es + [e], after)
  {
    AfterOneMore(before, es, e);
  }

  lemma {:induction false} AfterGoesOn<K>(before: Listing<K>, es: seq<Event<K>>, more: seq<Event<K>>)
    requires ValidCursors(before.system.clk)
    ensures After(before, es + more) == After(After(before, es), more)
    decreases |more|
  {
    if more == [] {
      assert es + more == es;
    } else {
      var init, last := more[..|more| - 1], more[|more| - 1];
      AfterGoesOn(before, es, init);
      assert (es + more)[..|es + more| - 1] == es + init && (es + more)[|es + more| - 1] == last;
    }
  }

  /** The events that are carried out. */
  ghost function Heeded<K>(before: Listing<K>, es: seq<Event<K>>): seq<Event<K>>
    requires ValidCursors(before.system.clk)
  {
    if es == [] then [] else
      var init, last := es[..|es| - 1], es[|es| - 1];
      Heeded(before, init) + (if IsHeeded(After(before, init).system, last) then [last] else [])
  }

  /** They are a run of the system, to which the theorems on runs apply. */
  lemma {:induction false} HeededIsRun<K>(before: Listing<K>, es: seq<Event<K>>)
    requires ValidCursors(before.system.clk)
    ensures After(before, es).system == Run(before.system, Heeded(before, es))
  {
    if es != [] {
      var init, last := es[..|es| - 1], es[|es| - 1];
      HeededIsRun(before, init);
      if IsHeeded(After(before, init).system, last) {
        RunOneMore(before.system, Heeded(before, init), last);
      } else {
        assert Heeded(before, init) + [] == Heeded(before, init);
      }
    }
  }

  lemma RunOneMore<K>(sys: System<K>, es: seq<Event<K>>, e: Event<K>)
    requires ValidCursors(sys.clk)
    ensures Run(sys, es + [e]) == Step(Run(sys, es), e)
  {
    RunGoesOn(sys, es, [e]);
    assert [e][1..] == [];
  }

  lemma {:induction false} RunGoesOn<K>(sys: System<K>, es: seq<Event<K>>, more: seq<Event<K>>)
    requires ValidCursors(sys.clk)
    ensures Run(sys, es + more) == Run(Run(sys, es), more)
    decreases |es|
  {
    if es == [] {
      assert es + more == more;
    } else {
      assert (es + more)[1..] == es[1..] + more;
      RunGoesOn(Step(sys, es[0]), es[1..], more);
    }
  }

  // ---------- Turns ----------

  /** What a timer's slot does: `now` is the clock's reading at the call. */
  datatype SlotCall =
    | Starting(timer: TimerPrivate, interval: int, now: int)
    | Stopping(timer: TimerPrivate, now: int)

  /** What the slot of a turn does; later slots than there are in the script do nothing. */
  function SlotOf(slots: seq<seq<SlotCall>>, turn: nat): seq<SlotCall> {
    if turn < |slots| then slots[turn] else []
  }

  function SlotsLeft(slots: seq<seq<SlotCall>>, turn: nat): nat {
    if turn < |slots| then |slots| - turn else 0
  }

  ghost function CallsBefore(slots: seq<seq<SlotCall>>, turn: nat): seq<SlotCall> {
    if turn == 0 then [] else CallsBefore(slots, turn - 1) + SlotOf(slots, turn - 1)
  }

  /** The slots speak only of these timers. */
  ghost predicate AreCallsOn(calls: seq<SlotCall>, timers: set<TimerPrivate>) {
    forall i :: 0 <= i < |calls| ==> calls[i].timer in timers
  }

  ghost predicate SpeakOf(slots: seq<seq<SlotCall>>, timers: set<TimerPrivate>) {
    forall turn: nat {:trigger SlotOf(slots, turn)} :: AreCallsOn(SlotOf(slots, turn), timers)
  }

  ghost predicate IsEventOf(e: Event<TimerPrivate>, c: SlotCall) {
    match c
    case Starting(t, interval, _) => e.Start? && e.id == t && e.interval == interval
    case Stopping(t, _) => e == Event.Stop(t)
  }

  ghost predicate AreEventsOf(es: seq<Event<TimerPrivate>>, calls: seq<SlotCall>) {
    |es| == |calls| && forall i :: 0 <= i < |es| ==> IsEventOf(es[i], calls[i])
  }

  /** A turn: the first timer of the list times out, and its slot makes its calls. */
  ghost predicate IsTurn(es: seq<Event<TimerPrivate>>, listed: seq<TimerPrivate>, t: TimerPrivate,
      calls: seq<SlotCall>) {
    && listed != [] && listed[0] == t
    && es != [] && es[0].Deliver? && es[0].id == t && AreEventsOf(es[1..], calls)
  }

  /** All events of some turns. */
  ghost function AllOf<K>(turns: seq<seq<Event<K>>>): seq<Event<K>> {
    if turns == [] then [] else AllOf(turns[..|turns| - 1]) + turns[|turns| - 1]
  }

  lemma AllGoesOn<K>(turns: seq<seq<Event<K>>>, more: seq<Event<K>>)
    ensures AllOf(turns + [more]) == AllOf(turns) + more
  {
    assert (turns + [more])[..|turns|] == turns;
  }

  ghost predicate IsTurnAt(before: Listing<TimerPrivate>, turns: seq<seq<Event<TimerPrivate>>>,
      slots: seq<seq<SlotCall>>, timedOut: seq<TimerPrivate>, k: nat)
    requires ValidCursors(before.system.clk) && k < |turns| == |timedOut|
  {
    IsTurn(turns[k], After(before, AllOf(turns[..k])).listed, timedOut[k], SlotOf(slots, k))
  }

  /** The turns of a drain, each at the timer that is first when it comes. */
  ghost predicate AreTurns(before: Listing<TimerPrivate>, turns: seq<seq<Event<TimerPrivate>>>,
      slots: seq<seq<SlotCall>>, timedOut: seq<TimerPrivate>)
    requires ValidCursors(before.system.clk)
  {
    && |turns| == |timedOut|
    && forall k: nat {:trigger IsTurnAt(before, turns, slots, timedOut, k)} :: k < |turns| ==>
      IsTurnAt(before, turns, slots, timedOut, k)
  }

  lemma TurnsOfPrefix(before: Listing<TimerPrivate>, turns: seq<seq<Event<TimerPrivate>>>,
      slots: seq<seq<SlotCall>>, timedOut: seq<TimerPrivate>, n: nat)
    requires ValidCursors(before.system.clk) && AreTurns(before, turns, slots, timedOut) && n <= |turns|
    ensures AreTurns(before, turns[..n], slots, timedOut[..n])
  {
    forall k: nat | k < n ensures IsTurnAt(before, turns[..n], slots, timedOut[..n], k) {
      assert IsTurnAt(before, turns, slots, timedOut, k) && turns[..n][..k] == turns[..k];
    }
  }

  lemma NoTurnsYet(before: Listing<TimerPrivate>, slots: seq<seq<SlotCall>>)
    requires ValidCursors(before.system.clk)
    ensures Leads(before, AllOf([]), before) && AreTurns(before, [], slots, [])
  {
  }

  lemma TurnOfMore(before: Listing<TimerPrivate>, turns: seq<seq<Event<TimerPrivate>>>, slots: seq<seq<SlotCall>>,
      timedOut: seq<TimerPrivate>, more: seq<Event<TimerPrivate>>, t: TimerPrivate, k: nat)
    requires ValidCursors(before.system.clk) && AreTurns(before, turns, slots, timedOut) && k <= |turns|
    requires IsTurn(more, After(before, AllOf(turns)).listed, t, SlotOf(slots, |turns|))
    ensures IsTurnAt(before, turns + [more], slots, timedOut + [t], k)
  {
    if k < |turns| {
      assert IsTurnAt(before, turns, slots, timedOut, k);
      assert (turns + [more])[..k] == turns[..k];
    } else {
      assert (turns + [more])[..k] == turns;
    }
  }

  /** One turn more. */
  lemma TurnsGoOn(before: Listing<TimerPrivate>, turns: seq<seq<Event<TimerPrivate>>>, slots: seq<seq<SlotCall>>,
      timedOut: seq<TimerPrivate>, middle: Listing<TimerPrivate>, more: seq<Event<TimerPrivate>>, t: TimerPrivate)
    requires Leads(before, AllOf(turns), middle) && AreTurns(before, turns, slots, timedOut)
    requires IsTurn(more, middle.listed, t, SlotOf(slots, |turns|))
    ensures AreTurns(before, turns + [more], slots, timedOut + [t])
  {
    forall k: nat | k <= |turns| ensures IsTurnAt(before, turns + [more], slots, timedOut + [t], k) {
      TurnOfMore(before, turns, slots, timedOut, more, t, k);
    }
  }

  lemma TurnLeadsOn(before: Listing<TimerPrivate>, turns: seq<seq<Event<TimerPrivate>>>,
      middle: Listing<TimerPrivate>, more: seq<Event<TimerPrivate>>, after: Listing<TimerPrivate>)
    requires Leads(before, AllOf(turns), middle) && Leads(middle, more, after)
    ensures Leads(before, AllOf(turns + [more]), after)
  {
    AllGoesOn(turns, more);
    AfterGoesOn(before, AllOf(turns), more);
  }

  // ---------- Who times out ----------

  predicate StartsAtOnce(c: SlotCall) {
    c.Starting? && c.interval == 0
  }

  ghost predicate NoneStartsAtOnce(calls: seq<SlotCall>) {
    forall i :: 0 <= i < |calls| ==> !StartsAtOnce(calls[i])
  }

  ghost predicate IsUntouched(calls: seq<SlotCall>, t: TimerPrivate) {
    forall i :: 0 <= i < |calls| ==> calls[i].timer != t
  }

  ghost predicate IsLeftIn(listed: seq<TimerPrivate>, calls: seq<SlotCall>, t: TimerPrivate) {
    IsUntouched(calls, t) ==> t in listed
  }

  /**
    The timers that have timed out, followed by those that are still to: without calls, all that were listed at first.
    Calls that start no timer of 0 ms only take timers out; and a timer that no call is about stays.
   */
  ghost predicate IsLeft(listed: seq<TimerPrivate>, all: seq<TimerPrivate>, calls: seq<SlotCall>) {
    && (calls == [] ==> listed == all)
    && (NoneStartsAtOnce(calls) ==> IsSubsequence(listed, all))
    && (forall t {:trigger IsLeftIn(listed, calls, t)} :: t in all ==> IsLeftIn(listed, calls, t))
  }

  lemma WithoutOneIsSubsequence<T>(done: seq<T>, list: seq<T>, t: T, all: seq<T>)
    requires IsSubsequence(done + list, all)
    ensures IsSubsequence(done + WithoutOne(list, t), all)
  {
    if t in list {
      var k := IndexOf(list, t);
      SubsequenceWithout(done + list, all, |done| + k);
      CutBehind(done, list, k);
    }
  }

  lemma CutBehind<T>(a: seq<T>, b: seq<T>, k: nat)
    requires k < |b|
    ensures (a + b)[..|a| + k] + (a + b)[|a| + k + 1..] == a + (b[..k] + b[k + 1..])
  {
    assert (a + b)[..|a| + k] == a + b[..k] && (a + b)[|a| + k + 1..] == b[k + 1..];
  }

  lemma WithoutOneMembers<T>(list: seq<T>, t: T, x: T)
    requires x in list && x != t
    ensures x in WithoutOne(list, t)
  {
    if t in list {
      var j, k := IndexOf(list, x), IndexOf(list, t);
      assert Without(list, t)[if j < k then j else j - 1] == x;
    }
  }

  lemma LeftAfterCall(done: seq<TimerPrivate>, list: seq<TimerPrivate>, front: seq<TimerPrivate>,
      all: seq<TimerPrivate>, calls: seq<SlotCall>, c: SlotCall)
    requires IsLeft(done + list, all, calls) && (!StartsAtOnce(c) ==> front == [])
    ensures IsLeft(done + (front + WithoutOne(list, c.timer)), all, calls + [c])
  {
    var t, after, more := c.timer, done + (front + WithoutOne(list, c.timer)), calls + [c];
    assert forall i :: 0 <= i < |calls| ==> more[i] == calls[i];
    if NoneStartsAtOnce(more) {
      assert !StartsAtOnce(more[|calls|]);
      WithoutOneIsSubsequence(done, list, t, all);
      assert front + WithoutOne(list, t) == WithoutOne(list, t);
    }
    forall x | x in all ensures IsLeftIn(after, more, x) {
      assert IsLeftIn(done + list, calls, x) && more[|calls|].timer == t;
      if x in list && x != t {
        WithoutOneMembers(list, t, x);
      }
    }
  }

  lemma LeftAfterEvent(before: Listing<TimerPrivate>, e: Event<TimerPrivate>, done: seq<TimerPrivate>,
      all: seq<TimerPrivate>, calls: seq<SlotCall>, c: SlotCall)
    requires ValidCursors(before.system.clk) && IsEventOf(e, c) && IsLeft(done + before.listed, all, calls)
    ensures IsLeft(done + Next(before, e).listed, all, calls + [c])
  {
    if IsHeeded(before.system, e) {
      LeftAfterCall(done, before.listed, if StartsAtOnce(c) then [c.timer] else [], all, calls, c);
      assert [] + WithoutOne(before.listed, c.timer) == WithoutOne(before.listed, c.timer);
    } else {
      LeftAfterNothing(done + before.listed, all, calls, c);
    }
  }

  lemma LeftAfterNothing(listed: seq<TimerPrivate>, all: seq<TimerPrivate>, calls: seq<SlotCall>, c: SlotCall)
    requires IsLeft(listed, all, calls)
    ensures IsLeft(listed, all, calls + [c])
  {
    var more := calls + [c];
    assert forall i :: 0 <= i < |calls| ==> more[i] == calls[i];
    forall x | x in all ensures IsLeftIn(listed, more, x) {
      assert IsLeftIn(listed, calls, x);
    }
  }

  lemma {:induction false} LeftAfterCalls(before: Listing<TimerPrivate>, es: seq<Event<TimerPrivate>>,
      calls: seq<SlotCall>, done: seq<TimerPrivate>, all: seq<TimerPrivate>, made: seq<SlotCall>)
    requires ValidCursors(before.system.clk) && AreEventsOf(es, calls) && IsLeft(done + before.listed, all, made)
    ensures IsLeft(done + After(before, es).listed, all, made + calls)
    decreases |es|
  {
    if es == [] {
      assert made + calls == made;
    } else {
      var last := |es| - 1;
      LeftAfterCalls(before, es[..last], calls[..last], done, all, made);
      assert IsEventOf(es[last], calls[last]);
      LeftAfterEvent(After(before, es[..last]), es[last], done, all, made + calls[..last], calls[last]);
      assert made + calls[..last] + [calls[last]] == made + calls;
    }
  }

  /** A turn at the first timer: what is left when it has timed out, and what the calls then make of it. */
  lemma TurnApart(before: Listing<TimerPrivate>, es: seq<Event<TimerPrivate>>, done: seq<TimerPrivate>)
    requires ValidCursors(before.system.clk) && es != [] && es[0].Deliver? && before.listed != []
    ensures var out := Next(before, es[0]);
      After(before, es) == After(out, es[1..]) && done + [before.listed[0]] + out.listed == done + before.listed
  {
    AfterOneMore(before, [], es[0]);
    AfterGoesOn(before, [es[0]], es[1..]);
    assert es == [es[0]] + es[1..] && [] + [es[0]] == [es[0]];
  }

  lemma LeftAfterTurn(before: Listing<TimerPrivate>, es: seq<Event<TimerPrivate>>, t: TimerPrivate,
      calls: seq<SlotCall>, done: seq<TimerPrivate>, all: seq<TimerPrivate>, made: seq<SlotCall>)
    requires ValidCursors(before.system.clk) && IsTurn(es, before.listed, t, calls)
    requires IsLeft(done + before.listed, all, made)
    ensures IsLeft(done + [t] + After(before, es).listed, all, made + calls)
  {
    TurnApart(before, es, done);
    LeftAfterCalls(Next(before, es[0]), es[1..], calls, done + [t], all, made);
  }

  lemma TurnsApart(before: Listing<TimerPrivate>, turns: seq<seq<Event<TimerPrivate>>>, timedOut: seq<TimerPrivate>)
    requires ValidCursors(before.system.clk) && turns != [] && |turns| == |timedOut|
    ensures var last := |turns| - 1;
      && timedOut == timedOut[..last] + [timedOut[last]]
      && After(before, AllOf(turns)) == After(After(before, AllOf(turns[..last])), turns[last])
  {
    AfterGoesOn(before, AllOf(turns[..|turns| - 1]), turns[|turns| - 1]);
  }

  /**
    Along a drain the timers that have timed out and those still listed are the ones listed at first, but for what the
    slots have done.
   */
  lemma {:induction false} LeftAlongDrain(before: Listing<TimerPrivate>, turns: seq<seq<Event<TimerPrivate>>>,
      slots: seq<seq<SlotCall>>, timedOut: seq<TimerPrivate>)
    requires ValidCursors(before.system.clk) && AreTurns(before, turns, slots, timedOut)
    ensures IsLeft(timedOut + After(before, AllOf(turns)).listed, before.listed, CallsBefore(slots, |turns|))
    decreases |turns|
  {
    var all := before.listed;
    if turns == [] {
      assert timedOut + all == all;
      SubsequenceIsReflexive(all);
    } else {
      var last := |turns| - 1;
      var init, middle := timedOut[..last], After(before, AllOf(turns[..last]));
      TurnsApart(before, turns, timedOut);
      TurnsOfPrefix(before, turns, slots, timedOut, last);
      assert IsTurnAt(before, turns, slots, timedOut, last);
      LeftAlongDrain(before, turns[..last], slots, init);
      LeftAfterTurn(middle, turns[last], timedOut[last], SlotOf(slots, last), init, all, CallsBefore(slots, last));
    }
  }

  /** Once nothing is listed any more, these are the timers that have timed out. */
  lemma LeftAfterDrain(before: Listing<TimerPrivate>, turns: seq<seq<Event<TimerPrivate>>>,
      slots: seq<seq<SlotCall>>, timedOut: seq<TimerPrivate>, after: Listing<TimerPrivate>)
    requires Leads(before, AllOf(turns), after) && AreTurns(before, turns, slots, timedOut) && after.listed == []
    ensures IsLeft(timedOut, before.listed, CallsBefore(slots, |timedOut|))
  {
    LeftAlongDrain(before, turns, slots, timedOut);
    assert timedOut + after.listed == timedOut;
  }

  // ---------- The drain ----------

  ghost function ListingOf(n: TimerNotifier): Listing<TimerPrivate>
    reads n`clk, n`home, n`toNotify, n.home.Keys
  {
    Listing(n.Abs(), n.toNotify)
  }

  lemma HeededUnlessLost(n: TimerNotifier, e: Event<TimerPrivate>)
    requires n.Valid() && (e.Start? || e.Stop?) && e.id in n.home
    ensures IsHeeded(n.Abs(), e) <==> !n.IsLost(e.id)
    ensures n.IsLost(e.id) <==> e.id.active && e.id.wheel == null && e.id !in n.toNotify
  {
    n.ListedByPlace(e.id);
    assert n.IsAt(e.id, n.home[e.id]);
  }

  /** One call of a slot; a timer that is active but in no list is left alone. */
  method MakeCall(n: TimerNotifier, c: SlotCall) returns (ghost e: Event<TimerPrivate>)
    requires n.Valid() && c.timer in n.home
    modifies n`highTime, n`highEnabled, n`eventIsSet, n`toNotify, n`lists, n`home
    modifies n.wheels`count, n.wheels`slots
    modifies c.timer`interval, c.timer`active, c.timer`wheel, c.timer`slot, c.timer`timeout, c.timer`extra
    ensures n.Valid() && n.home.Keys == old(n.home.Keys) && IsEventOf(e, c)
    ensures ListingOf(n) == Next(old(ListingOf(n)), e)
  {
    var t := c.timer;
    e := if c.Stopping? then Event.Stop(t) else Event.Start(t, c.interval, 0);
    HeededUnlessLost(n, e);
    if t.active && t.wheel == null && t !in n.toNotify {
      return;
    }
    if c.Stopping? {
      n.Stop(t, c.now);
    } else {
      e := MakeStart(n, t, c.interval, c.now);
    }
  }

  method MakeStart(n: TimerNotifier, t: TimerPrivate, interval: int, now: int) returns (ghost e: Event<TimerPrivate>)
    requires n.Valid() && t in n.home && !n.IsLost(t)
    modifies n`highTime, n`highEnabled, n`eventIsSet, n`toNotify, n`lists, n`home
    modifies n.wheels`count, n.wheels`slots
    modifies t`interval, t`active, t`wheel, t`slot, t`timeout, t`extra
    ensures n.Valid() && n.home.Keys == old(n.home.Keys) && e.Start? && e.id == t && e.interval == interval
    ensures ListingOf(n) == Next(old(ListingOf(n)), e)
  {
    e := Event.Start(t, interval, Correction(t.timerType, interval, n.highEnabled, Elapsed(now, n.lowTime),
                                             Elapsed(now, n.highTime)));
    HeededUnlessLost(n, e);
    n.Start(t, interval, now);
  }

  lemma EventsGoOn(es: seq<Event<TimerPrivate>>, e: Event<TimerPrivate>, calls: seq<SlotCall>, k: nat)
    requires k < |calls| && AreEventsOf(es, calls[..k]) && IsEventOf(e, calls[k])
    ensures AreEventsOf(es + [e], calls[..k + 1]) && calls[..|calls|] == calls
  {
  }

  /** The slot of the timer that has just timed out. */
  method MakeCalls(n: TimerNotifier, calls: seq<SlotCall>) returns (ghost es: seq<Event<TimerPrivate>>)
    requires n.Valid() && AreCallsOn(calls, n.home.Keys)
    modifies n`highTime, n`highEnabled, n`eventIsSet, n`toNotify, n`lists, n`home
    modifies n.wheels`count, n.wheels`slots, n.home.Keys
    ensures n.Valid() && n.home.Keys == old(n.home.Keys) && AreEventsOf(es, calls)
    ensures Leads(old(ListingOf(n)), es, ListingOf(n))
  {
    es := [];
    ghost var before := ListingOf(n);
    for k := 0 to |calls|
      invariant n.Valid() && n.home.Keys == old(n.home.Keys) && AreEventsOf(es, calls[..k])
      invariant Leads(before, es, ListingOf(n))
    {
      ghost var middle := ListingOf(n);
      ghost var e := MakeCall(n, calls[k]);
      LeadsOneMore(before, es, middle, e, ListingOf(n));
      EventsGoOn(es, e, calls, k);
      es := es + [e];
    }
  }

  /** One turn of the drain: a timer times out, and then its slot is called. */
  method TakeTurn(n: TimerNotifier, now: int, calls: seq<SlotCall>)
    returns (t: TimerPrivate, ghost es: seq<Event<TimerPrivate>>)
    requires n.Valid() && n.isNotifying && n.toNotify != [] && AreCallsOn(calls, n.home.Keys)
    modifies n`highTime, n`highEnabled, n`eventIsSet, n`toNotify, n`lists, n`home
    modifies n.wheels`count, n.wheels`slots, n.home.Keys
    ensures n.Valid() && n.home.Keys == old(n.home.Keys) && IsTurn(es, old(n.toNotify), t, calls)
    ensures Leads(old(ListingOf(n)), es, ListingOf(n))
    ensures calls == [] ==> |n.toNotify| == |old(n.toNotify)| - 1
  {
    ghost var before := ListingOf(n);
    t := n.NotifyNextTimer(now);
    ghost var e := Deliver(t, Correction(t.timerType, t.interval, old(n.highEnabled), Elapsed(now, n.lowTime),
        Elapsed(now, old(n.highTime))));
    assert ListingOf(n) == Next(before, e);
    ghost var more := MakeCalls(n, calls);
    es := [e] + more;
    TurnApart(before, es, []);
    assert es[1..] == more;
  }

  /** The turn that comes next. */
  method TakeNextTurn(n: TimerNotifier, now: int, slots: seq<seq<SlotCall>>, timedOut: seq<TimerPrivate>,
      ghost before: Listing<TimerPrivate>, ghost turns: seq<seq<Event<TimerPrivate>>>)
    returns (t: TimerPrivate, ghost more: seq<Event<TimerPrivate>>)
    requires n.Valid() && n.isNotifying && n.toNotify != [] && SpeakOf(slots, n.home.Keys)
    requires Leads(before, AllOf(turns), ListingOf(n)) && AreTurns(before, turns, slots, timedOut)
    modifies n`highTime, n`highEnabled, n`eventIsSet, n`toNotify, n`lists, n`home
    modifies n.wheels`count, n.wheels`slots, n.home.Keys
    ensures n.Valid() && n.home.Keys == old(n.home.Keys)
    ensures Leads(before, AllOf(turns + [more]), ListingOf(n))
    ensures AreTurns(before, turns + [more], slots, timedOut + [t])
    ensures |timedOut| < |slots| || |n.toNotify| < |old(n.toNotify)|
  {
    ghost var middle := ListingOf(n);
    t, more := TakeTurn(n, now, SlotOf(slots, |timedOut|));
    TurnsGoOn(before, turns, slots, timedOut, middle, more, t);
    TurnLeadsOn(before, turns, middle, more, ListingOf(n));
  }

  /** The loop of a drain: it ends, as each turn either uses up a slot's calls or takes one timer out. */
  method NotifyListed(n: TimerNotifier, clock: nat -> int, slots: seq<seq<SlotCall>>)
    returns (timedOut: seq<TimerPrivate>, ghost turns: seq<seq<Event<TimerPrivate>>>)
    requires n.Valid() && n.isNotifying
    requires SpeakOf(slots, n.home.Keys)
    modifies n`highTime, n`highEnabled, n`eventIsSet, n`toNotify, n`lists, n`home
    modifies n.wheels`count, n.wheels`slots, n.home.Keys
    ensures n.Valid() && n.toNotify == []
    ensures Leads(old(ListingOf(n)), AllOf(turns), ListingOf(n))
    ensures AreTurns(old(ListingOf(n)), turns, slots, timedOut)
  {
    timedOut, turns := [], [];
    ghost var before, timers := ListingOf(n), n.home.Keys;
    NoTurnsYet(before, slots);
    while n.toNotify != []
      invariant n.Valid() && n.isNotifying && n.home.Keys == timers
      invariant Leads(before, AllOf(turns), ListingOf(n)) && AreTurns(before, turns, slots, timedOut)
      decreases SlotsLeft(slots, |timedOut|), |n.toNotify|
    {
      var t;
      ghost var more;
      t, more := TakeNextTurn(n, clock(|timedOut|), slots, timedOut, before, turns);
      turns, timedOut := turns + [more], timedOut + [t];
    }
  }

  /**
    A drain ends, whatever the slots do: then nothing is listed any more. If no slot starts a timer of 0 ms, only timers
    listed at first time out, each at most once and in order; without calls, all of them do. A timer that no call is
    about times out in any case. The notifier then is where the run of these events leads.
   */
  method NotifyTimers(n: TimerNotifier, clock: nat -> int, slots: seq<seq<SlotCall>>)
    returns (timedOut: seq<TimerPrivate>, ghost turns: seq<seq<Event<TimerPrivate>>>)
    requires n.Valid()
    requires SpeakOf(slots, n.home.Keys)
    modifies n`highTime, n`highEnabled, n`eventIsSet, n`toNotify, n`lists, n`home, n`isNotifying
    modifies n.wheels`count, n.wheels`slots, n.home.Keys
    ensures n.Valid() && Leads(old(ListingOf(n)), AllOf(turns), ListingOf(n))
    ensures old(n.isNotifying) ==> turns == [] && n.isNotifying
    ensures !old(n.isNotifying) ==>
      && !n.isNotifying && n.toNotify == []
      && AreTurns(old(ListingOf(n)), turns, slots, timedOut)
      && IsLeft(timedOut, old(n.toNotify), CallsBefore(slots, |timedOut|))
  {
    timedOut, turns := [], [];
    ghost var before := ListingOf(n);
    var drains := n.BeginNotifyTimers();
    if drains {
      timedOut, turns := NotifyListed(n, clock, slots);
      LeftAfterDrain(before, turns, slots, timedOut, ListingOf(n));
      n.EndNotifyTimers();
    }
  }
}
