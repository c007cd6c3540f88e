/**
  Posted events and their delivery: two intrusive lists of event sources, one being filled and one being drained,
  where a callback may post and remove any events while the draining goes on.
 */
module ReadyEvents {
  import opened Options
  import opened Sequences

  // ---------- What should be delivered ----------

  /** What happened to the sources, oldest first. */
  datatype Event<S> = Posted(source: S, events: bv32) | Removed(source: S) | Delivered(source: S, events: bv32)

  function Merged(before: Option<bv32>, events: bv32): bv32 {
    if before.Some? then before.value | events else events
  }

  /** What is pending for a source after one more event. */
  ghost function PendingNext<S>(before: Option<bv32>, e: Event<S>, s: S): Option<bv32> {
    if e.source != s then before else if e.Posted? then Some(Merged(before, e.events)) else None
  }

  /** The events posted for a source since its last delivery or removal, if any. */
  ghost function Pending<S>(history: seq<Event<S>>, s: S): Option<bv32> {
    if history == [] then None else PendingNext(Pending(history[..|history| - 1], s), history[|history| - 1], s)
  }

  /** Everything delivered was what was pending. */
  ghost predicate IsHonest<S>(history: seq<Event<S>>) {
    forall i {:trigger history[i]} :: 0 <= i < |history| && history[i].Delivered? ==>
      Pending(history[..i], history[i].source) == Some(history[i].events)
  }

  /** The sources events were delivered to, in order. */
  ghost function DeliveredTo<S>(history: seq<Event<S>>): seq<S> {
    if history == [] then [] else
      DeliveredTo(history[..|history| - 1])
        + (if history[|history| - 1].Delivered? then [history[|history| - 1].source] else [])
  }

  // ---------- What is delivered is the union of what was posted ----------

  predicate Has(events: bv32, bits: bv32) {
    events & bits != 0
  }

  /** The j-th of the first n events posts for a source, and none after it delivers to the source or removes it. */
  ghost predicate IsWaiting<S>(history: seq<Event<S>>, s: S, n: nat, j: nat)
    requires n <= |history|
  {
    && j < n && history[j].Posted? && history[j].source == s
    && forall k :: j < k < n && history[k].source == s ==> history[k].Posted?
  }

  ghost predicate IsPosted<S>(history: seq<Event<S>>, s: S, n: nat, bits: bv32)
    requires n <= |history|
  {
    exists j: nat :: IsWaiting(history, s, n, j) && Has(history[j].events, bits)
  }

  /** Some posts wait after the first n events, and the mask has exactly the bits that one of them has. */
  ghost predicate IsUnionOfPosts<S>(history: seq<Event<S>>, s: S, n: nat, events: bv32)
    requires n <= |history|
  {
    && (exists j: nat :: IsWaiting(history, s, n, j))
    && forall bits: bv32 {:trigger IsPosted(history, s, n, bits)} ::
      Has(events, bits) <==> IsPosted(history, s, n, bits)
  }

  lemma WaitingNext<S>(history: seq<Event<S>>, s: S, n: nat, j: nat)
    requires n < |history|
    ensures IsWaiting(history, s, n + 1, j) <==>
      if history[n].source != s then IsWaiting(history, s, n, j)
      else history[n].Posted? && (j == n || IsWaiting(history, s, n, j))
  {
  }

  lemma MaskOfUnion(a: bv32, b: bv32, bits: bv32)
    ensures (a | b) & bits == (a & bits) | (b & bits)
  {
  }

  lemma UnionIsNothing(a: bv32, b: bv32)
    ensures a | b == 0 <==> a == 0 && b == 0
  {
  }

  lemma UnionHas(union: bv32, a: bv32, b: bv32, bits: bv32)
    requires union == a | b
    ensures Has(union, bits) <==> Has(a, bits) || Has(b, bits)
  {
    MaskOfUnion(a, b, bits);
    UnionIsNothing(a & bits, b & bits);
  }

  /** Exactly the sources with a waiting post have something pending, and it is the union of these posts. */
  lemma {:induction false} PendingIsUnion<S>(history: seq<Event<S>>, s: S, n: nat)
    requires n <= |history|
    ensures Pending(history[..n], s).None? <==> forall j: nat :: !IsWaiting(history, s, n, j)
    ensures Pending(history[..n], s).Some? ==> IsUnionOfPosts(history, s, n, Pending(history[..n], s).value)
    decreases n
  {
    if n > 0 {
      var m := n - 1;
      PendingIsUnion(history, s, m);
      assert history[..n] == history[..m] + [history[m]];
      PendingAfter(history[..m], history[m], s);
      forall j: nat ensures IsWaiting(history, s, n, j) <==>
        if history[m].source != s then IsWaiting(history, s, m, j)
        else history[m].Posted? && (j == m || IsWaiting(history, s, m, j))
      {
        WaitingNext(history, s, m, j);
      }
      if history[m].source != s {
        UnionStays(history, s, m, Pending(history[..m], s));
      } else if history[m].Posted? {
        assert IsWaiting(history, s, n, m);
        UnionGoesOn(history, s, m, Pending(history[..m], s));
      }
    }
  }

  lemma UnionStays<S>(history: seq<Event<S>>, s: S, m: nat, before: Option<bv32>)
    requires m < |history| && history[m].source != s
    requires before.Some? ==> IsUnionOfPosts(history, s, m, before.value)
    ensures before.Some? ==> IsUnionOfPosts(history, s, m + 1, before.value)
  {
    forall j: nat ensures IsWaiting(history, s, m + 1, j) <==> IsWaiting(history, s, m, j) {
      WaitingNext(history, s, m, j);
    }
    forall bits: bv32 ensures IsPosted(history, s, m + 1, bits) <==> IsPosted(history, s, m, bits) {
      assert before.Some? ==> (Has(before.value, bits) <==> IsPosted(history, s, m, bits));
      if j: nat :| IsWaiting(history, s, m, j) && Has(history[j].events, bits) {
        assert IsWaiting(history, s, m + 1, j);
      }
    }
    if before.Some? {
      var j: nat :| IsWaiting(history, s, m, j);
      assert IsWaiting(history, s, m + 1, j);
      forall bits: bv32 ensures Has(before.value, bits) <==> IsPosted(history, s, m + 1, bits) {
        assert IsPosted(history, s, m + 1, bits) <==> IsPosted(history, s, m, bits);
      }
    }
  }

  lemma UnionGoesOn<S>(history: seq<Event<S>>, s: S, m: nat, before: Option<bv32>)
    requires m < |history| && history[m].source == s && history[m].Posted?
    requires before.None? ==> forall j: nat :: !IsWaiting(history, s, m, j)
    requires before.Some? ==> IsUnionOfPosts(history, s, m, before.value)
    ensures IsUnionOfPosts(history, s, m + 1, Merged(before, history[m].events))
  {
    var events := Merged(before, history[m].events);
    assert IsWaiting(history, s, m + 1, m);
    forall bits: bv32 ensures Has(events, bits) <==> IsPosted(history, s, m + 1, bits) {
      assert before.Some? ==> (Has(before.value, bits) <==> IsPosted(history, s, m, bits));
      PostedNext(history, s, m, bits);
      MergedHas(before, history[m].events, bits);
    }
  }

  lemma PostedNext<S>(history: seq<Event<S>>, s: S, m: nat, bits: bv32)
    requires m < |history| && history[m].source == s && history[m].Posted?
    ensures IsPosted(history, s, m + 1, bits) <==> IsPosted(history, s, m, bits) || Has(history[m].events, bits)
  {
    forall j: nat ensures IsWaiting(history, s, m + 1, j) <==> j == m || IsWaiting(history, s, m, j) {
      WaitingNext(history, s, m, j);
    }
    assert IsWaiting(history, s, m + 1, m);
    if j: nat :| IsWaiting(history, s, m, j) && Has(history[j].events, bits) {
      assert IsWaiting(history, s, m + 1, j);
    }
  }

  lemma MergedHas(before: Option<bv32>, events: bv32, bits: bv32)
    ensures Has(Merged(before, events), bits) <==> (before.Some? && Has(before.value, bits)) || Has(events, bits)
  {
    match before
    case None =>
    case Some(mask) => UnionHas(Merged(Some(mask), events), mask, events, bits);
  }

  /** Every delivery is the union of the posts since the source was last delivered to or removed. */
  lemma {:induction false} DeliveredIsUnion<S>(history: seq<Event<S>>, i: nat)
    requires IsHonest(history) && i < |history| && history[i].Delivered?
    ensures IsUnionOfPosts(history, history[i].source, i, history[i].events)
  {
    PendingIsUnion(history, history[i].source, i);
  }

  lemma PendingAfter<S>(history: seq<Event<S>>, e: Event<S>, s: S)
    ensures Pending(history + [e], s) == PendingNext(Pending(history, s), e, s)
  {
    assert (history + [e])[..|history|] == history;
  }

  lemma HonestAfter<S>(history: seq<Event<S>>, e: Event<S>)
    requires IsHonest(history) && (e.Delivered? ==> Pending(history, e.source) == Some(e.events))
    ensures IsHonest(history + [e])
  {
    var h := history + [e];
    forall i | 0 <= i < |h| && h[i].Delivered? ensures Pending(h[..i], h[i].source) == Some(h[i].events) {
      if i < |history| {
        assert h[i] == history[i] && h[..i] == history[..i];
      } else {
        assert h[..i] == history;
      }
    }
  }

  lemma DeliveredToAfter<S>(history: seq<Event<S>>, e: Event<S>)
    ensures DeliveredTo(history + [e]) == DeliveredTo(history) + (if e.Delivered? then [e.source] else [])
  {
    assert (history + [e])[..|history|] == history;
  }

  /** The first delivery to a source, or removal of it. */
  ghost function Settling<S>(log: seq<Event<S>>, s: S): Option<Event<S>> {
    if log == [] then None else
      var before, last := Settling(log[..|log| - 1], s), log[|log| - 1];
      if before.Some? then before else if last.source == s && !last.Posted? then Some(last) else None
  }

  lemma SettlingAfter<S>(log: seq<Event<S>>, e: Event<S>, s: S)
    ensures Settling(log + [e], s) ==
      if Settling(log, s).Some? then Settling(log, s) else if e.source == s && !e.Posted? then Some(e) else None
  {
    assert (log + [e])[..|log|] == log;
  }

  lemma LastApart<T>(a: seq<T>, b: seq<T>)
    requires b != []
    ensures a + b == (a + b[..|b| - 1]) + [b[|b| - 1]]
    ensures forall x :: x in b <==> x in b[..|b| - 1] || x == b[|b| - 1]
  {
    assert b == b[..|b| - 1] + [b[|b| - 1]];
  }

  lemma {:induction false} SettlingAfterRemovals<S>(log: seq<Event<S>>, more: seq<Event<S>>, s: S)
    requires forall i :: 0 <= i < |more| ==> !more[i].Delivered?
    ensures Settling(log + more, s) ==
      if Settling(log, s).Some? then Settling(log, s) else if Removed(s) in more then Some(Removed(s)) else None
    decreases |more|
  {
    if more == [] {
      assert log + more == log;
    } else {
      var init, e := more[..|more| - 1], more[|more| - 1];
      SettlingAfterRemovals(log, init, s);
      LastApart(log, more);
      SettlingAfter(log + init, e, s);
    }
  }

  lemma {:induction false} NothingDelivered<S>(log: seq<Event<S>>, more: seq<Event<S>>)
    requires forall i :: 0 <= i < |more| ==> !more[i].Delivered?
    ensures DeliveredTo(log + more) == DeliveredTo(log)
    decreases |more|
  {
    if more == [] {
      assert log + more == log;
    } else {
      var last := |more| - 1;
      NothingDelivered(log, more[..last]);
      assert log + more == (log + more[..last]) + [more[last]];
      DeliveredToAfter(log + more[..last], more[last]);
    }
  }

  // ---------- The lists ----------

  class EpollEventSource {
    var next: EpollEventSource?
    var previous: EpollEventSource?
    var postedEventTypes: bv32
    var isInReadyList: bool

    constructor ()
      ensures !isInReadyList && postedEventTypes == 0
    {
      next, previous, postedEventTypes, isInReadyList := null, null, 0, false;
    }
  }

  ghost function First(l: seq<EpollEventSource>): EpollEventSource? {
    if l == [] then null else l[0]
  }

  /** The sources are linked in both directions, in this order. */
  ghost predicate IsList(l: seq<EpollEventSource>)
    reads l`next, l`previous
  {
    && (forall i {:trigger l[i].next} :: 0 <= i < |l| ==> l[i].next == if i + 1 < |l| then l[i + 1] else null)
    && (forall i {:trigger l[i].previous} :: 0 <= i < |l| ==> l[i].previous == if i > 0 then l[i - 1] else null)
  }

  datatype Op = Post(source: EpollEventSource, events: bv32) | Remove(source: EpollEventSource)

  class EpollReadyEventSourceRegistrar {
    var readyEvents: EpollEventSource?
    var eventsBeingTriggered: EpollEventSource?
    var eventIsSet: bool
    ghost const sources: set<EpollEventSource>
    ghost var ready: seq<EpollEventSource>
    ghost var triggered: seq<EpollEventSource>
    ghost var history: seq<Event<EpollEventSource>>

    ghost predicate Valid()
      reads this, sources
    {
      Linked() && Tracked() && (ready != [] ==> eventIsSet)
    }

    ghost predicate Tracked()
      reads this`ready, this`triggered, this`history, sources`isInReadyList, sources`postedEventTypes
    {
      IsHonest(history) && forall s {:trigger IsTracked(s)} :: s in sources ==> IsTracked(s)
    }

    /** Both lists are well linked and share no source. */
    ghost predicate Linked()
      reads this`readyEvents, this`eventsBeingTriggered, this`ready, this`triggered, sources`next, sources`previous
    {
      && (forall s :: s in ready ==> s in sources && s !in triggered)
      && (forall s :: s in triggered ==> s in sources)
      && Distinct(ready) && Distinct(triggered)
      && readyEvents == First(ready) && IsList(ready) && eventsBeingTriggered == First(triggered) && IsList(triggered)
    }

    /** A source is in a list exactly when events are pending for it, and its mask is all of them. */
    ghost predicate IsTracked(s: EpollEventSource)
      reads this`ready, this`triggered, this`history, s`isInReadyList, s`postedEventTypes
    {
      && (s.isInReadyList <==> s in ready || s in triggered)
      && Pending(history, s) == (if s.isInReadyList then Some(s.postedEventTypes) else None)
    }

    constructor (sources: set<EpollEventSource>)
      requires forall s :: s in sources ==> !s.isInReadyList
      ensures Valid() && this.sources == sources && ready == triggered == [] && history == []
    {
      readyEvents, eventsBeingTriggered, eventIsSet := null, null, false;
      this.sources := sources;
      ready, triggered, history := [], [], [];
    }

    method AddReadyEvent(source: EpollEventSource, events: bv32)
      requires Valid() && source in sources
      modifies this`readyEvents, this`eventIsSet, this`ready, this`history
      modifies sources
      ensures Valid() && history == old(history) + [Posted(source, events)]
      ensures ready == if old(source.isInReadyList) then old(ready) else [source] + old(ready)
      ensures source.isInReadyList && IsUnionOfPosts(history, source, |history|, source.postedEventTypes)
    {
      assert IsTracked(source);
      if !source.isInReadyList {
        AddNew(source, events);
      } else {
        AddMore(source, events);
      }
      PostedIsUnion(source);
    }

    /** A source is in a list exactly when posts for it wait, and its mask is their union. */
    lemma PostedIsUnion(s: EpollEventSource)
      requires Tracked() && s in sources
      ensures s.isInReadyList <==> exists j: nat :: IsWaiting(history, s, |history|, j)
      ensures s.isInReadyList ==> IsUnionOfPosts(history, s, |history|, s.postedEventTypes)
    {
      assert IsTracked(s);
      PendingIsUnion(history, s, |history|);
      assert history[..|history|] == history;
    }

    method AddNew(source: EpollEventSource, events: bv32)
      requires Linked() && Tracked() && source in sources && !source.isInReadyList
      modifies this`readyEvents, this`eventIsSet, this`ready, this`history, source`isInReadyList
      modifies source`postedEventTypes, sources`next, sources`previous
      ensures Linked() && Tracked() && eventIsSet && history == old(history) + [Posted(source, events)]
      ensures ready == [source] + old(ready) && source.isInReadyList
    {
      assert IsTracked(source);
      source.isInReadyList := true;
      source.postedEventTypes := events;
      eventIsSet := true;
      PushFront(source);
      forall s | s in sources && s != source ensures IsTracked(s) {
        assert old(IsTracked(s));
      }
      RecordPost(source, events);
    }

    method AddMore(source: EpollEventSource, events: bv32)
      requires Tracked() && source in sources && source.isInReadyList
      modifies this`history, source`postedEventTypes
      ensures Tracked() && history == old(history) + [Posted(source, events)] && source.isInReadyList
    {
      assert IsTracked(source);
      source.postedEventTypes := Merged(Some(source.postedEventTypes), events);
      forall s | s in sources && s != source ensures IsTracked(s) {
        assert old(IsTracked(s));
      }
      RecordPost(source, events);
    }

    ghost method RecordPost(source: EpollEventSource, events: bv32)
      requires IsHonest(history) && source in sources && source.isInReadyList &&
        (source in ready || source in triggered)
      requires source.postedEventTypes == Merged(Pending(history, source), events)
      requires forall s {:trigger IsTracked(s)} :: s in sources && s != source ==> IsTracked(s)
      modifies this`history
      ensures Tracked() && history == old(history) + [Posted(source, events)]
    {
      Record(Posted(source, events));
      forall s | s in sources ensures IsTracked(s) {
        assert s != source ==> old(IsTracked(s));
      }
    }

    ghost method Record(e: Event<EpollEventSource>)
      requires IsHonest(history) && (e.Delivered? ==> Pending(history, e.source) == Some(e.events))
      modifies this`history
      ensures IsHonest(history) && history == old(history) + [e]
      ensures forall s {:trigger Pending(history, s)} :: s in sources ==>
        Pending(history, s) == PendingNext(old(Pending(history, s)), e, s)
    {
      HonestAfter(history, e);
      forall s ensures Pending(history + [e], s) == PendingNext(Pending(history, s), e, s) {
        PendingAfter(history, e, s);
      }
      history := history + [e];
    }

    /** Links a source before the ready ones. */
    method PushFront(source: EpollEventSource)
      requires Linked() && source in sources && source !in ready && source !in triggered
      modifies this`readyEvents, this`ready, sources`next, sources`previous
      ensures Linked() && ready == [source] + old(ready)
    {
      ghost var l := [source] + ready;
      source.next := readyEvents;
      source.previous := null;
      if readyEvents != null {
        readyEvents.previous := source;
      }
      readyEvents := source;
      assert forall i {:trigger l[i].next} :: 0 <= i < |l| ==> l[i].next == if i + 1 < |l| then l[i + 1] else null;
      assert forall i {:trigger l[i].previous} :: 0 <= i < |l| ==> l[i].previous == if i > 0 then l[i - 1] else null;
      ready := l;
    }

    method RemoveReadyEvent(source: EpollEventSource)
      requires Valid() && source in sources
      modifies this`readyEvents, this`eventsBeingTriggered, this`ready, this`triggered, this`history, sources
      ensures Valid() && history == old(history) + [Removed(source)]
      ensures ready == if source in old(ready) then Without(old(ready), source) else old(ready)
      ensures triggered == if source in old(triggered) then Without(old(triggered), source) else old(triggered)
    {
      assert IsTracked(source);
      if source.isInReadyList {
        source.isInReadyList := false;
        source.postedEventTypes := 0;
        Unlink(source);
        forall s | s in sources && s != source ensures IsTracked(s) {
          assert old(IsTracked(s));
        }
      }
      RecordRemoval(source);
    }

    ghost method RecordRemoval(source: EpollEventSource)
      requires IsHonest(history) && source in sources && source !in ready && source !in triggered
      requires !source.isInReadyList
      requires forall s {:trigger IsTracked(s)} :: s in sources && s != source ==> IsTracked(s)
      modifies this`history
      ensures Tracked() && history == old(history) + [Removed(source)]
    {
      Record(Removed(source));
      forall s | s in sources ensures IsTracked(s) {
        assert s != source ==> old(IsTracked(s));
      }
    }

    /** Takes a source out of the list it is in. */
    method Unlink(source: EpollEventSource)
      requires Linked() && (source in ready || source in triggered)
      modifies this`readyEvents, this`eventsBeingTriggered, this`ready, this`triggered, sources`next, sources`previous
      ensures Linked()
      ensures ready == if source in old(ready) then Without(old(ready), source) else old(ready)
      ensures triggered == if source in old(triggered) then Without(old(triggered), source) else old(triggered)
      ensures source !in ready && source !in triggered
      ensures forall s :: s != source ==> (s in ready <==> s in old(ready)) && (s in triggered <==> s in old(triggered))
    {
      ghost var isReady := source in ready;
      ghost var l, other := if isReady then ready else triggered, if isReady then triggered else ready;
      WithoutKeepsOthers(l, source);
      UnlinkFrom(source, l, other, isReady);
      Forget(isReady, Without(l, source));
    }

    /** One list gets shorter; its links and its head are those of the shorter one already. */
    ghost method Forget(isReady: bool, left: seq<EpollEventSource>)
      requires forall s :: s in left ==> s in (if isReady then ready else triggered)
      requires forall s :: s in ready ==> s in sources && s !in triggered
      requires forall s :: s in triggered ==> s in sources
      requires Distinct(left) && IsList(left)
      requires if isReady then readyEvents == First(left) else eventsBeingTriggered == First(left)
      requires if isReady then Distinct(triggered) && IsList(triggered) && eventsBeingTriggered == First(triggered)
               else Distinct(ready) && IsList(ready) && readyEvents == First(ready)
      modifies this`ready, this`triggered
      ensures Linked()
      ensures if isReady then ready == left && triggered == old(triggered) else ready == old(ready) && triggered == left
    {
      if isReady {
        ready := left;
      } else {
        triggered := left;
      }
    }

    method UnlinkFrom(source: EpollEventSource, ghost l: seq<EpollEventSource>, ghost other: seq<EpollEventSource>,
        ghost isReady: bool)
      requires source in l && Distinct(l) && IsList(l) && IsList(other)
      requires forall s :: s in l ==> s in sources && s !in other
      requires readyEvents == First(if isReady then l else other)
      requires eventsBeingTriggered == First(if isReady then other else l)
      modifies this`readyEvents, this`eventsBeingTriggered, sources`next, sources`previous
      ensures IsList(Without(l, source)) && IsList(other)
      ensures readyEvents == First(if isReady then Without(l, source) else other)
      ensures eventsBeingTriggered == First(if isReady then other else Without(l, source))
    {
      Bridge(source, l, other);
      assert First(l) == l[0] && First(other) != source;
      AdvanceHeads(source);
    }

    method AdvanceHeads(source: EpollEventSource)
      modifies this`readyEvents, this`eventsBeingTriggered
      ensures readyEvents == if old(readyEvents) == source then source.next else old(readyEvents)
      ensures eventsBeingTriggered ==
        if old(readyEvents) != source && old(eventsBeingTriggered) == source then source.next
        else old(eventsBeingTriggered)
    {
      if readyEvents == source {
        readyEvents := readyEvents.next;
      } else if eventsBeingTriggered == source {
        eventsBeingTriggered := eventsBeingTriggered.next;
      }
    }

    /** The neighbours of a source are linked past it. */
    method Bridge(source: EpollEventSource, ghost l: seq<EpollEventSource>, ghost other: seq<EpollEventSource>)
      requires source in l && Distinct(l) && IsList(l) && IsList(other) &&
        (forall s :: s in l ==> s in sources && s !in other)
      modifies sources`next, sources`previous
      ensures IsList(Without(l, source)) && IsList(other)
      ensures source.next == old(source.next)
      ensures if l[0] == source then source.next == First(Without(l, source)) else l[0] == First(Without(l, source))
    {
      ghost var k, r := IndexOf(l, source), Without(l, source);
      WithoutMembers(l, source);
      assert l[k].next == (if k + 1 < |l| then l[k + 1] else null);
      assert l[k].previous == (if k > 0 then l[k - 1] else null);
      if source.previous != null {
        source.previous.next := source.next;
      }
      if source.next != null {
        source.next.previous := source.previous;
      }
      assert forall i {:trigger r[i].next} :: 0 <= i < |r| ==> r[i].next == if i + 1 < |r| then r[i + 1] else null;
      assert forall i {:trigger r[i].previous} :: 0 <= i < |r| ==> r[i].previous == if i > 0 then r[i - 1] else null;
    }

    /** What a callback does with the registrar: any posts and removals. */
    method Callback(ops: seq<Op>)
      requires Valid() && AreTargeted(ops)
      modifies this`readyEvents, this`eventsBeingTriggered, this`eventIsSet, this`ready, this`triggered, this`history
      modifies sources
      ensures Valid() && history == old(history) + EventsOf(ops)
      ensures |history| == |old(history)| + |ops| && forall i {:trigger ops[i]} :: 0 <= i < |ops| ==>
        history[|old(history)| + i] == match ops[i]
          case Post(source, events) => Posted(source, events)
          case Remove(source) => Removed(source)
      ensures IsSubsequence(triggered, old(triggered))
      ensures forall s :: s in triggered <==> s in old(triggered) && Remove(s) !in ops
    {
      SubsequenceIsReflexive(triggered);
      for i := 0 to |ops|
        invariant Valid() && history == old(history) + EventsOf(ops[..i])
        invariant IsSubsequence(triggered, old(triggered))
        invariant forall s :: s in triggered <==> s in old(triggered) && Remove(s) !in ops[..i]
      {
        ghost var before, t := history, triggered;
        assert ops[..i + 1] == ops[..i] + [ops[i]];
        match ops[i]
        case Post(source, events) =>
          AddReadyEvent(source, events);
        case Remove(source) =>
          RemoveReadyEvent(source);
          if source in t {
            WithoutMembers(t, source);
            SubsequenceWithout(t, old(triggered), IndexOf(t, source));
          }
        EventsOfMore(old(history), ops, i);
      }
      assert ops[..|ops|] == ops;
      EntriesOfOps(old(history), ops);
    }

    /** The first of the sources being drained gets what is pending for it. */
    method PopTriggered() returns (source: EpollEventSource, events: bv32)
      requires Valid() && triggered != []
      modifies this`eventsBeingTriggered, this`triggered, this`history, sources
      ensures Valid() && source == old(triggered)[0] && triggered == old(triggered)[1..]
      ensures history == old(history) + [Delivered(source, events)]
      ensures IsUnionOfPosts(old(history), source, |old(history)|, events)
    {
      source := eventsBeingTriggered;
      assert IsTracked(source);
      PostedIsUnion(source);
      UnlinkFirst(source);
      source.isInReadyList := false;
      events := source.postedEventTypes;
      source.postedEventTypes := 0;
      forall s | s in sources && s != source ensures IsTracked(s) {
        assert old(IsTracked(s));
      }
      RecordDelivery(source, events);
    }

    ghost method RecordDelivery(source: EpollEventSource, events: bv32)
      requires IsHonest(history) && source in sources && source !in ready && source !in triggered
      requires !source.isInReadyList && Pending(history, source) == Some(events)
      requires forall s {:trigger IsTracked(s)} :: s in sources && s != source ==> IsTracked(s)
      modifies this`history
      ensures Tracked() && history == old(history) + [Delivered(source, events)]
    {
      Record(Delivered(source, events));
      forall s | s in sources ensures IsTracked(s) {
        assert s != source ==> old(IsTracked(s));
      }
    }

    method UnlinkFirst(source: EpollEventSource)
      requires Linked() && triggered != [] && source == triggered[0]
      modifies this`eventsBeingTriggered, this`triggered, sources`previous
      ensures Linked() && triggered == old(triggered)[1..]
      ensures forall s :: s in triggered <==> s in old(triggered) && s != source
    {
      ghost var l := triggered[1..];
      assert triggered == [source] + l;
      DistinctParts([source], l);
      assert triggered[0].next == First(l);
      eventsBeingTriggered := eventsBeingTriggered.next;
      if eventsBeingTriggered != null {
        eventsBeingTriggered.previous := null;
      }
      assert forall i {:trigger l[i].next} :: 0 <= i < |l| ==>
        l[i] == triggered[i + 1] && l[i].next == if i + 1 < |l| then l[i + 1] else null;
      assert forall i {:trigger l[i].previous} :: 0 <= i < |l| ==>
        l[i] == triggered[i + 1] && l[i].previous == if i > 0 then l[i - 1] else null;
      triggered := l;
    }

    /**
      One drain, whatever the callbacks do: `script` says what each callback in turn does. Every source that was
      ready is delivered once, in order, unless a callback removes it first; what is posted for a source after its
      turn waits for the next drain. Each delivery is the union of what has been posted since the last delivery or
      removal, and is followed by what its callback does.
     */
    method OnEvent(isReadable: bool, script: seq<seq<Op>>)
      returns (ghost deliveries: seq<Event<EpollEventSource>>)
      requires Valid() && triggered == [] && forall i :: 0 <= i < |script| ==> AreTargeted(script[i])
      modifies this`readyEvents, this`eventsBeingTriggered, this`eventIsSet, this`ready, this`triggered, this`history
      modifies sources
      ensures Valid() && triggered == [] && old(history) <= history
      ensures forall i :: 0 <= i < |history| && history[i].Delivered? ==>
        IsUnionOfPosts(history, history[i].source, i, history[i].events)
      ensures history == old(history) + LogOf(deliveries, script) && AreDeliveries(deliveries)
      ensures !isReadable ==> deliveries == []
      ensures isReadable ==> IsDrain(history[|old(history)|..], old(ready), [])
    {
      deliveries := [];
      if isReadable {
        ghost var start, all := history, ready;
        StartDrain();
        DrainStarts(all);
        var k := 0;
        while eventsBeingTriggered != null
          invariant Valid() && start <= history && IsDrain(history[|start|..], all, triggered)
          invariant history == start + LogOf(deliveries, script) && AreDeliveries(deliveries) && k == |deliveries|
          decreases |triggered|
        {
          ghost var e := TriggerNext(OpsOf(script, k), start, all);
          LogOfMore(start, deliveries, e, script);
          deliveries := deliveries + [e];
          k := k + 1;
        }
      }
      DeliveredAreUnions(history);
    }

    /** The ready sources become the ones being drained. */
    method StartDrain()
      requires Valid() && triggered == []
      modifies this`readyEvents, this`eventsBeingTriggered, this`eventIsSet, this`ready, this`triggered
      ensures Valid() && ready == [] && triggered == old(ready) && !eventIsSet
    {
      eventIsSet := false;
      eventsBeingTriggered := readyEvents;
      readyEvents := null;
      triggered := ready;
      ready := [];
      forall s | s in sources ensures IsTracked(s) {
        assert old(IsTracked(s));
      }
    }

    method TriggerNext(ops: seq<Op>, ghost start: seq<Event<EpollEventSource>>, ghost all: seq<EpollEventSource>)
      returns (ghost e: Event<EpollEventSource>)
      requires Valid() && triggered != [] && AreTargeted(ops)
      requires start <= history && IsDrain(history[|start|..], all, triggered)
      modifies this`readyEvents, this`eventsBeingTriggered, this`eventIsSet, this`ready, this`triggered, this`history
      modifies sources
      ensures Valid() && |triggered| < |old(triggered)|
      ensures e.Delivered? && history == old(history) + [e] + EventsOf(ops)
      ensures start <= history && IsDrain(history[|start|..], all, triggered)
    {
      ghost var log, before, h := history[|start|..], triggered, history;
      var source, events := PopTriggered();
      Callback(ops);
      EventsOfRemovals(ops);
      SubsequenceIsShorter(triggered, before[1..]);
      DrainGoesOn(log, all, before, events, EventsOf(ops), triggered);
      e := Delivered(source, events);
      LogGoesOn(start, h, e, EventsOf(ops));
    }

    ghost predicate AreTargeted(ops: seq<Op>) {
      forall i :: 0 <= i < |ops| ==> ops[i].source in sources
    }
  }

  ghost function EventsOf(ops: seq<Op>): seq<Event<EpollEventSource>> {
    seq(|ops|, i requires 0 <= i < |ops| => if ops[i].Post? then Posted(ops[i].source, ops[i].events)
      else Removed(ops[i].source))
  }

  /** What the callback of a turn does; later callbacks than there are in the script do nothing. */
  function OpsOf(script: seq<seq<Op>>, turn: nat): seq<Op> {
    if turn < |script| then script[turn] else []
  }

  ghost predicate AreDeliveries<S>(events: seq<Event<S>>) {
    forall i :: 0 <= i < |events| ==> events[i].Delivered?
  }

  /** Deliveries, each followed by what its callback does. */
  ghost function LogOf(deliveries: seq<Event<EpollEventSource>>, script: seq<seq<Op>>): seq<Event<EpollEventSource>> {
    if deliveries == [] then [] else
      var last := |deliveries| - 1;
      LogOf(deliveries[..last], script) + [deliveries[last]] + EventsOf(OpsOf(script, last))
  }

  lemma LogOfMore(start: seq<Event<EpollEventSource>>, deliveries: seq<Event<EpollEventSource>>,
      e: Event<EpollEventSource>, script: seq<seq<Op>>)
    ensures start + LogOf(deliveries + [e], script)
      == start + LogOf(deliveries, script) + [e] + EventsOf(OpsOf(script, |deliveries|))
  {
    assert (deliveries + [e])[..|deliveries|] == deliveries;
  }

  lemma DeliveredAreUnions<S>(history: seq<Event<S>>)
    requires IsHonest(history)
    ensures forall i :: 0 <= i < |history| && history[i].Delivered? ==>
      IsUnionOfPosts(history, history[i].source, i, history[i].events)
  {
    forall i | 0 <= i < |history| && history[i].Delivered?
      ensures IsUnionOfPosts(history, history[i].source, i, history[i].events)
    {
      DeliveredIsUnion(history, i);
    }
  }

  /**
    How far a drain of these sources has got: the log so far, and the sources still to come. These are the ones neither
    delivered nor removed yet; of the others, those are delivered that were not removed first.
   */
  ghost predicate IsDrain<S>(log: seq<Event<S>>, all: seq<S>, triggered: seq<S>) {
    IsSubsequence(DeliveredTo(log) + triggered, all) && forall s :: s in all ==> IsInDrain(log, triggered, s)
  }

  ghost predicate IsInDrain<S>(log: seq<Event<S>>, triggered: seq<S>, s: S) {
    && (s in triggered <==> Settling(log, s) == None)
    && (s in DeliveredTo(log) <==> Settling(log, s).Some? && Settling(log, s).value.Delivered?)
  }

  lemma DrainStarts<S>(all: seq<S>)
    ensures IsDrain([], all, all)
  {
    SubsequenceIsReflexive(all);
    assert [] + all == all;
    assert DeliveredTo<S>([]) == [];
  }

  lemma {:induction false} DrainGoesOn<S>(log: seq<Event<S>>, all: seq<S>, before: seq<S>, events: bv32,
      more: seq<Event<S>>, after: seq<S>)
    requires IsDrain(log, all, before) && before != [] && Distinct(before) && IsSubsequence(after, before[1..])
    requires forall i :: 0 <= i < |more| ==> !more[i].Delivered?
    requires forall s :: s in after <==> s in before[1..] && Removed(s) !in more
    ensures IsDrain(log + [Delivered(before[0], events)] + more, all, after)
  {
    var e := Delivered(before[0], events);
    var end := log + [e] + more;
    DeliveredToAfter(log, e);
    NothingDelivered(log + [e], more);
    var d := DeliveredTo(log);
    assert d + before == (d + [before[0]]) + before[1..];
    SubsequenceAfterPrefix(d + [before[0]], after, before[1..]);
    SubsequenceIsTransitive(DeliveredTo(end) + after, d + before, all);
    forall s | s in all ensures IsInDrain(end, after, s) {
      assert IsInDrain(log, before, s);
      SourceGoesOn(log, before, events, more, after, s);
    }
  }

  lemma {:induction false} SourceGoesOn<S>(log: seq<Event<S>>, before: seq<S>, events: bv32, more: seq<Event<S>>,
      after: seq<S>, s: S)
    requires IsInDrain(log, before, s) && before != [] && Distinct(before)
    requires forall i :: 0 <= i < |more| ==> !more[i].Delivered?
    requires s in after <==> s in before[1..] && Removed(s) !in more
    ensures IsInDrain(log + [Delivered(before[0], events)] + more, after, s)
  {
    var e := Delivered(before[0], events);
    DeliveredToAfter(log, e);
    NothingDelivered(log + [e], more);
    SettlingAfter(log, e, s);
    SettlingAfterRemovals(log + [e], more, s);
    DistinctParts([before[0]], before[1..]);
    assert before == [before[0]] + before[1..];
  }

  /**
    A finished drain has delivered, exactly once, every source that was ready and was not removed before its turn, and
    nothing else.
   */
  lemma {:induction false} FinishedDrain<S>(log: seq<Event<S>>, all: seq<S>)
    requires IsDrain(log, all, []) && Distinct(all)
    ensures Distinct(DeliveredTo(log)) && forall s :: s in DeliveredTo(log) ==> s in all
    ensures forall s :: s in all ==>
      Settling(log, s).Some? && (s in DeliveredTo(log) <==> Settling(log, s).value.Delivered?)
  {
    assert DeliveredTo(log) + [] == DeliveredTo(log);
    SubsequenceIsDistinct(DeliveredTo(log), all);
    SubsequenceMembers(DeliveredTo(log), all);
    forall s | s in all
      ensures Settling(log, s).Some? && (s in DeliveredTo(log) <==> Settling(log, s).value.Delivered?)
    {
      assert IsInDrain(log, [], s);
    }
  }

  /** A source removed before its turn and posted again is not delivered in the same drain. */
  lemma {:induction false} RemovedSourceWaits<S>(log: seq<Event<S>>, all: seq<S>, s: S)
    requires IsDrain(log, all, []) && s in all && Settling(log, s) == Some(Removed(s))
    ensures s !in DeliveredTo(log)
  {
    assert IsInDrain(log, [], s);
  }

  lemma EventsOfRemovals(ops: seq<Op>)
    ensures forall s :: Remove(s) in ops <==> Removed(s) in EventsOf(ops)
  {
    forall s ensures Remove(s) in ops <==> Removed(s) in EventsOf(ops) {
      if Remove(s) in ops {
        var i :| 0 <= i < |ops| && ops[i] == Remove(s);
        assert EventsOf(ops)[i] == Removed(s);
      }
    }
  }

  lemma WithoutKeepsOthers<T>(s: seq<T>, x: T)
    requires x in s && Distinct(s)
    ensures Distinct(Without(s, x)) && forall y :: y in Without(s, x) <==> y in s && y != x
  {
    WithoutMembers(s, x);
  }

  lemma LogGoesOn<T>(start: seq<T>, h: seq<T>, e: T, more: seq<T>)
    requires start <= h
    ensures start <= (h + [e]) + more && ((h + [e]) + more)[|start|..] == h[|start|..] + [e] + more
  {
  }

  lemma EntriesOfOps(history: seq<Event<EpollEventSource>>, ops: seq<Op>)
    ensures var after := history + EventsOf(ops);
      |after| == |history| + |ops| && forall i {:trigger ops[i]} :: 0 <= i < |ops| ==>
        after[|history| + i] == match ops[i]
          case Post(source, events) => Posted(source, events)
          case Remove(source) => Removed(source)
  {
  }

  lemma EventsOfMore(history: seq<Event<EpollEventSource>>, ops: seq<Op>, i: nat)
    requires i < |ops|
    ensures history + EventsOf(ops[..i + 1]) == (history + EventsOf(ops[..i])) + EventsOf([ops[i]])
  {
    assert EventsOf(ops[..i + 1]) == EventsOf(ops[..i]) + EventsOf([ops[i]]);
  }
}
