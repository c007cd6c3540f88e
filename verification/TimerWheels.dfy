/**
  TimerPrivate and TimerWheel. A slot is the sequence its TimerList is proved to be.
 */
module TimerWheels {
  import opened Sequences
  import opened TimerModel

  class TimerPrivate {
    var wheel: TimerWheel?
    var slot: nat
    var interval: int
    var timeout: int
    var extra: int
    var singleShot: bool
    var active: bool
    var timerType: TimerType

    constructor ()
      ensures wheel == null && slot == 0 && !active
      ensures interval == 0 && timeout == 0 && extra == 0 && !singleShot && timerType == Coarse
    {
      wheel, slot, active := null, 0, false;
      interval, timeout, extra := 0, 0, 0;
      singleShot, timerType := false, Coarse;
    }

    predicate IsSingleShot()
      reads this
    {
      singleShot || interval == 0
    }
  }

  /** The wheel of resolution 2^(6 index) milliseconds. */
  class TimerWheel {
    const index: nat
    const resolution: nat
    const timeSpan: nat
    var idxNext: Cursor
    var count: nat
    var tickCount: nat
    var slots: seq<seq<TimerPrivate>>

    ghost predicate Valid()
      reads this
    {
      && resolution == Res(index) && timeSpan == 64 * Res(index)
      && |slots| == 64
      && count == Total(slots)
    }

    constructor (index: nat)
      ensures this.index == index && Valid()
      ensures idxNext == 0 && count == 0 && forall s :: 0 <= s < 64 ==> slots[s] == []
    {
      this.index := index;
      resolution, timeSpan := Res(index), 64 * Res(index);
      idxNext, count, tickCount := 0, 0, 0;
      slots := seq(64, _ => []);
      new;
      TotalIsZero(slots);
    }

    /** The wheels of a notifier. */
    static method Seven() returns (wheels: seq<TimerWheel>)
      ensures |wheels| == 7 && fresh(wheels)
      ensures forall i :: 0 <= i < 7 ==>
        wheels[i].index == i && wheels[i].Valid() && wheels[i].idxNext == 0 && wheels[i].count == 0
      ensures forall i :: 0 <= i < 7 ==> wheels[i].slots == seq(64, _ => [])
    {
      wheels := [];
      for i := 0 to 7
        invariant |wheels| == i && fresh(wheels)
        invariant forall j :: 0 <= j < i ==>
          wheels[j].index == j && wheels[j].Valid() && wheels[j].idxNext == 0 && wheels[j].count == 0
        invariant forall j :: 0 <= j < i ==> wheels[j].slots == seq(64, _ => [])
      {
        var wheel := new TimerWheel(i);
        wheels := wheels + [wheel];
      }
    }

    predicate IsEmpty()
      reads this
    {
      count == 0
    }

    predicate CanAdd(t: TimerPrivate)
      reads t
    {
      resolution <= t.timeout <= timeSpan
    }

    function GetSlotIdx(timeout: int): (s: nat)
      reads this
      ensures s < 64
    {
      SlotIdx(index, timeout, idxNext)
    }

    method AddTimer(t: TimerPrivate) returns (ok: bool)
      requires Valid() && forall s :: 0 <= s < 64 ==> t !in slots[s]
      modifies this`count, this`slots, t`wheel, t`slot
      ensures Valid()
      ensures ok <==> TimerModel.CanAdd(index, t.timeout)
      ensures !ok ==> slots == old(slots) && count == old(count) && t.wheel == old(t.wheel) && t.slot == old(t.slot)
      ensures ok ==>
                && t.wheel == this && t.slot == GetSlotIdx(t.timeout)
                && slots == old(slots)[t.slot := [t] + old(slots)[t.slot]]
    {
      if CanAdd(t) {
        count := count + 1;
        t.wheel := this;
        t.slot := GetSlotIdx(t.timeout);
        TotalUpdate(slots, t.slot, [t] + slots[t.slot]);
        slots := slots[t.slot := [t] + slots[t.slot]];
        ok := true;
      } else {
        ok := false;
      }
    }

    method RemoveTimer(t: TimerPrivate) returns (ok: bool)
      requires Valid()
      requires t.wheel == this ==> t.slot < 64 && t in slots[t.slot] && Distinct(slots[t.slot])
      modifies this`count, this`slots, t`wheel, t`slot
      ensures Valid()
      ensures ok <==> old(t.wheel) == this
      ensures !ok ==> slots == old(slots) && t.wheel == old(t.wheel) && t.slot == old(t.slot)
      ensures ok ==>
                && t.wheel == null && t.slot == 0
                && slots == old(slots)[old(t.slot) := Without(old(slots)[old(t.slot)], t)]
    {
      if t.wheel == this {
        WithoutMembers(slots[t.slot], t);
        var rest := TakeOut(slots[t.slot], t);
        TotalUpdate(slots, t.slot, rest);
        count := count - 1;
        slots := slots[t.slot := rest];
        t.wheel := null;
        t.slot := 0;
        ok := true;
      } else {
        ok := false;
      }
    }

    /** Empties the next slot; its timers keep the part of their timeouts below the resolution. */
    method Tick() returns (expired: seq<TimerPrivate>)
      requires Valid() && Distinct(slots[idxNext])
      modifies this`count, this`slots, this`idxNext, this`tickCount, slots[idxNext]`wheel, slots[idxNext]`slot
      modifies slots[idxNext]`timeout
      ensures Valid()
      ensures idxNext == Bump(old(idxNext)) && tickCount == old(tickCount) + 1
      ensures expired == old(slots[idxNext]) && slots == old(slots)[old(idxNext) := []]
      ensures forall t :: t in expired ==> t.wheel == null && t.slot == 0 && t.timeout == Low(old(t.timeout), index)
    {
      tickCount := tickCount + 1;
      expired := slots[idxNext];
      TotalUpdate(slots, idxNext, []);
      slots := slots[idxNext := []];
      idxNext := if idxNext + 1 == 64 then 0 else idxNext + 1;
      count := count - |expired|;
      for i := 0 to |expired|
        modifies expired`wheel, expired`slot, expired`timeout
        invariant forall j :: 0 <= j < i ==>
          expired[j].wheel == null && expired[j].slot == 0 && expired[j].timeout == Low(old(expired[j].timeout), index)
        invariant forall j :: i <= j < |expired| ==> expired[j].timeout == old(expired[j].timeout)
      {
        expired[i].wheel := null;
        expired[i].slot := 0;
        expired[i].timeout := Low(expired[i].timeout, index);
      }
    }
  }
}
