/**
  The partition of the timers among the 448 slots, the notify list and no list at all, as a
  relation between list contents and a map that gives each timer its place.
 */
module TimerPlaces {
  import opened Sequences
  import opened TimerModel

  type Slots<T> = seq<seq<seq<T>>>

  ghost predicate Shaped<T>(slots: Slots<T>) {
    |slots| == 7 && forall w :: 0 <= w < 7 ==> |slots[w]| == 64
  }

  /** The timer is in the list that `home` names. */
  ghost predicate Listed<T>(slots: Slots<T>, notify: seq<T>, home: map<T, Place>, t: T)
    requires t in home
  {
    match home[t]
    case InSlot(w, s) => w < |slots| && s < |slots[w]| && t in slots[w][s]
    case Notify => t in notify
    case Nowhere => true
  }

  /** The list holds each of its timers once, and only timers whose place it is. */
  ghost predicate Holds<T>(list: seq<T>, home: map<T, Place>, p: Place) {
    Distinct(list) && forall t :: t in list ==> t in home && home[t] == p
  }

  ghost predicate SlotHolds<T>(slots: Slots<T>, home: map<T, Place>, w: nat, s: nat)
    requires w < |slots| && s < |slots[w]|
  {
    Holds(slots[w][s], home, InSlot(w, s))
  }

  /** Every timer is in exactly the list that `home` names, once, and every list holds only its timers. */
  ghost predicate Partition<T>(slots: Slots<T>, notify: seq<T>, home: map<T, Place>) {
    && Shaped(slots)
    && (forall t {:trigger Listed(slots, notify, home, t)} :: t in home ==> Listed(slots, notify, home, t))
    && (forall w, s {:trigger SlotHolds(slots, home, w, s)} :: 0 <= w < 7 && 0 <= s < 64 ==>
      SlotHolds(slots, home, w, s))
    && Holds(notify, home, Notify)
  }

  function SlotUpdate<T>(slots: Slots<T>, w: nat, s: nat, list: seq<T>): Slots<T>
    requires w < |slots| && s < |slots[w]|
  {
    slots[w := slots[w][s := list]]
  }

  lemma RegisterInPartition<T>(slots: Slots<T>, notify: seq<T>, home: map<T, Place>, t: T)
    requires Partition(slots, notify, home) && t !in home
    ensures Partition(slots, notify, home[t := Nowhere])
  {
    var home' := home[t := Nowhere];
    forall i, j | 0 <= i < 7 && 0 <= j < 64
      ensures SlotHolds(slots, home', i, j)
    {
      assert SlotHolds(slots, home, i, j);
    }
    forall x | x in home
      ensures Listed(slots, notify, home', x)
    {
      assert Listed(slots, notify, home, x);
    }
  }

  lemma LinkInSlot<T>(slots: Slots<T>, notify: seq<T>, home: map<T, Place>, t: T, w: nat, s: nat)
    requires Partition(slots, notify, home) && t in home && home[t] == Nowhere && w < 7 && s < 64
    ensures Partition(SlotUpdate(slots, w, s, [t] + slots[w][s]), notify, home[t := InSlot(w, s)])
    ensures forall i :: 0 <= i < 64 ==> t !in slots[w][i]
  {
    var slots', home' := SlotUpdate(slots, w, s, [t] + slots[w][s]), home[t := InSlot(w, s)];
    forall i, j | 0 <= i < 7 && 0 <= j < 64
      ensures t !in slots[i][j] && SlotHolds(slots', home', i, j)
    {
      assert SlotHolds(slots, home, i, j);
    }
    forall x | x in home
      ensures Listed(slots', notify, home', x)
    {
      assert Listed(slots, notify, home, x);
    }
  }

  lemma UnlinkFromSlot<T>(slots: Slots<T>, notify: seq<T>, home: map<T, Place>, t: T)
    requires Partition(slots, notify, home) && t in home && home[t].InSlot?
    ensures var w, s := home[t].wheel, home[t].slot;
            && w < 7 && s < 64 && t in slots[w][s] && Distinct(slots[w][s])
            && Partition(SlotUpdate(slots, w, s, Without(slots[w][s], t)), notify, home[t := Nowhere])
  {
    var w, s := home[t].wheel, home[t].slot;
    assert Listed(slots, notify, home, t) && SlotHolds(slots, home, w, s);
    WithoutMembers(slots[w][s], t);
    var slots', home' := SlotUpdate(slots, w, s, Without(slots[w][s], t)), home[t := Nowhere];
    forall i, j | 0 <= i < 7 && 0 <= j < 64
      ensures SlotHolds(slots', home', i, j)
    {
      assert SlotHolds(slots, home, i, j);
    }
    forall x | x in home
      ensures Listed(slots', notify, home', x)
    {
      assert Listed(slots, notify, home, x);
    }
  }

  lemma LinkForNotify<T>(slots: Slots<T>, notify: seq<T>, home: map<T, Place>, t: T)
    requires Partition(slots, notify, home) && t in home && home[t] == Nowhere
    ensures Partition(slots, [t] + notify, home[t := Notify])
  {
    var home' := home[t := Notify];
    forall i, j | 0 <= i < 7 && 0 <= j < 64
      ensures SlotHolds(slots, home', i, j)
    {
      assert SlotHolds(slots, home, i, j);
    }
    forall x | x in home
      ensures Listed(slots, [t] + notify, home', x)
    {
      assert Listed(slots, notify, home, x);
    }
  }

  lemma UnlinkFromNotify<T>(slots: Slots<T>, notify: seq<T>, home: map<T, Place>, t: T)
    requires Partition(slots, notify, home) && t in home && home[t] == Notify
    ensures t in notify && Distinct(notify)
    ensures Partition(slots, Without(notify, t), home[t := Nowhere])
  {
    assert Listed(slots, notify, home, t);
    WithoutMembers(notify, t);
    var home' := home[t := Nowhere];
    forall i, j | 0 <= i < 7 && 0 <= j < 64
      ensures SlotHolds(slots, home', i, j)
    {
      assert SlotHolds(slots, home, i, j);
    }
    forall x | x in home
      ensures Listed(slots, Without(notify, t), home', x)
    {
      assert Listed(slots, notify, home, x);
    }
  }

  lemma PopFirstNotify<T>(slots: Slots<T>, notify: seq<T>, home: map<T, Place>)
    requires Partition(slots, notify, home) && notify != []
    ensures notify[0] in home && home[notify[0]] == Notify
    ensures Partition(slots, notify[1..], home[notify[0] := Nowhere])
  {
    var t := notify[0];
    assert t in notify;
    UnlinkFromNotify(slots, notify, home, t);
    assert IndexOf(notify, t) == 0 && Without(notify, t) == notify[1..];
  }

  /** What the partition means: a timer is in at most one of all lists, and is in none exactly when its place is
  none. */
  lemma InOneListOnly<T>(slots: Slots<T>, notify: seq<T>, home: map<T, Place>, t: T)
    requires Partition(slots, notify, home) && t in home
    ensures home[t] == Nowhere <==> t !in notify && forall w, s :: 0 <= w < 7 && 0 <= s < 64 ==> t !in slots[w][s]
    ensures t in notify ==> forall w, s :: 0 <= w < 7 && 0 <= s < 64 ==> t !in slots[w][s]
    ensures forall w, s, w', s' ::
      0 <= w < 7 && 0 <= s < 64 && 0 <= w' < 7 && 0 <= s' < 64 && t in slots[w][s] && t in slots[w'][s'] ==>
              w == w' && s == s'
  {
    assert Listed(slots, notify, home, t);
    forall w, s | 0 <= w < 7 && 0 <= s < 64 && t in slots[w][s]
      ensures home[t] == InSlot(w, s)
    {
      assert SlotHolds(slots, home, w, s);
    }
  }

  /** The places once a slot has been emptied. */
  ghost function Vacate<T>(home: map<T, Place>, w: nat, s: nat): map<T, Place> {
    map t | t in home :: if home[t] == InSlot(w, s) then Nowhere else home[t]
  }

  lemma EmptySlot<T>(slots: Slots<T>, notify: seq<T>, home: map<T, Place>, w: nat, s: nat)
    requires Partition(slots, notify, home) && w < 7 && s < 64
    ensures Partition(SlotUpdate(slots, w, s, []), notify, Vacate(home, w, s))
    ensures Distinct(slots[w][s])
    ensures forall t :: t in slots[w][s] <==> t in home && home[t] == InSlot(w, s)
  {
    assert SlotHolds(slots, home, w, s);
    var slots', home' := SlotUpdate(slots, w, s, []), Vacate(home, w, s);
    forall i, j | 0 <= i < 7 && 0 <= j < 64
      ensures SlotHolds(slots', home', i, j)
    {
      assert SlotHolds(slots, home, i, j);
    }
    forall x | x in home
      ensures Listed(slots', notify, home', x)
      ensures home[x] == InSlot(w, s) ==> x in slots[w][s]
    {
      assert Listed(slots, notify, home, x);
    }
  }
}
