/**
  The intrusive doubly linked TimerList, proved to be a sequence of timers. A list node is
  embedded in its timer, so a node stands for the timer it belongs to.
 */
module TimerLists {
  import opened Sequences

  class TimerListNode {
    var next: TimerListNode?
    var prev: TimerListNode?

    constructor ()
      ensures next == null && prev == null
    {
      next, prev := null, null;
    }
  }

  class TimerList {
    var head: TimerListNode?
    var tail: TimerListNode?
    var size: nat
    ghost var elems: seq<TimerListNode>

    ghost predicate Valid()
      reads this, elems`next, elems`prev
    {
      && size == |elems|
      && Distinct(elems)
      && (elems == [] ==> head == null && tail == null)
      && (elems != [] ==> head == elems[0] && tail == elems[|elems| - 1])
      && (forall i {:trigger elems[i].next} :: 0 <= i < |elems| ==>
        elems[i].next == if i + 1 < |elems| then elems[i + 1] else null)
      && (forall i {:trigger elems[i].prev} :: 0 <= i < |elems| ==>
        elems[i].prev == if i > 0 then elems[i - 1] else null)
    }

    constructor ()
      ensures Valid() && elems == []
    {
      head, tail, size, elems := null, null, 0, [];
    }

    predicate IsEmpty()
      reads this, elems`next, elems`prev
      requires Valid()
      ensures IsEmpty() <==> elems == []
    {
      size == 0
    }

    method Swap(other: TimerList)
      requires Valid() && other.Valid()
      modifies this, other
      ensures Valid() && other.Valid()
      ensures elems == old(other.elems) && other.elems == old(elems)
    {
      if this != other {
        var h, t, n := head, tail, size;
        head, tail, size := other.head, other.tail, other.size;
        other.head, other.tail, other.size := h, t, n;
        ghost var e := elems;
        elems := other.elems;
        other.elems := e;
      }
    }

    method PushFront(t: TimerListNode)
      requires Valid() && t !in elems
      modifies this, t`next, t`prev, elems`prev
      ensures Valid() && elems == [t] + old(elems)
    {
      t.next := head;
      t.prev := null;
      if size != 0 {
        head.prev := t;
        head := t;
      } else {
        head := t;
        tail := head;
      }
      size := size + 1;
      elems := [t] + elems;
    }

    /**
      Puts all timers of another list, in order, before the timers of this one; nothing happens with the list
      itself.
     */
    method PushFrontAll(timers: TimerList)
      requires Valid() && timers.Valid()
      requires timers != this ==> forall t :: t in timers.elems ==> t !in elems
      modifies this, timers, timers.elems`next, elems`prev
      ensures Valid() && timers.Valid()
      ensures timers == this ==> elems == old(elems)
      ensures timers != this ==> elems == old(timers.elems) + old(elems) && timers.elems == []
    {
      if this != timers {
        if timers.size == 0 {
          assert timers.elems + elems == elems;
        } else if size == 0 {
          assert timers.elems + elems == timers.elems;
          Swap(timers);
        } else {
          Splice(timers);
        }
      }
    }

    method Splice(timers: TimerList)
      requires Valid() && timers.Valid() && timers != this
      requires forall t :: t in timers.elems ==> t !in elems
      requires elems != [] && timers.elems != []
      modifies this, timers, timers.elems`next, elems`prev
      ensures Valid() && timers.Valid()
      ensures elems == old(timers.elems) + old(elems) && timers.elems == []
    {
      ghost var n, ab := |timers.elems|, timers.elems + elems;
      ConcatDistinct(timers.elems, elems);
      assert ab[n - 1] == timers.tail && ab[n] == head;
      timers.tail.next := head;
      head.prev := timers.tail;
      assert forall i {:trigger ab[i].next} :: 0 <= i < |ab| ==> ab[i].next == if i + 1 < |ab| then ab[i + 1] else null;
      assert forall i {:trigger ab[i].prev} :: 0 <= i < |ab| ==> ab[i].prev == if i > 0 then ab[i - 1] else null;
      head := timers.head;
      size := size + timers.size;
      elems := ab;
      timers.head := null;
      timers.tail := null;
      timers.size := 0;
      timers.elems := [];
    }

    method PopFirst() returns (t: TimerListNode?)
      requires Valid()
      modifies this, elems`next, elems`prev
      ensures Valid()
      ensures old(elems) == [] ==> t == null && elems == []
      ensures old(elems) != [] ==> t == old(elems)[0] && elems == old(elems)[1..] && t.next == null && t.prev == null
    {
      t := null;
      if size > 0 {
        t := head;
        head := head.next;
        t.next := null;
        t.prev := null;
        size := size - 1;
        elems := elems[1..];
        if size == 0 {
          head := null;
          tail := null;
        } else {
          head.prev := null;
        }
      }
    }

    method Remove(t: TimerListNode)
      requires Valid() && t in elems
      modifies this, elems`next, elems`prev
      ensures Valid()
      ensures elems == Without(old(elems), t)
      ensures t.next == null && t.prev == null
    {
      if head == t {
        assert IndexOf(elems, t) == 0 && Without(elems, t) == elems[1..];
        var _ := PopFirst();
      } else if tail == t {
        RemoveTail(t);
      } else {
        RemoveInner(t);
      }
    }

    // In both remaining cases the size stays positive, so the source's branch for an emptied list is dead.

    method RemoveTail(t: TimerListNode)
      requires Valid() && t in elems && head != t && tail == t
      modifies this, elems`next, elems`prev
      ensures Valid()
      ensures elems == Without(old(elems), t)
      ensures t.next == null && t.prev == null
    {
      ghost var n := |elems| - 1;
      assert elems[n] == t && elems[n].prev == elems[n - 1];
      assert IndexOf(elems, t) == n && Without(elems, t) == elems[..n];
      tail := tail.prev;
      tail.next := null;
      size := size - 1;
      if size == 0 {
        assert false;
      }
      t.next := null;
      t.prev := null;
      elems := elems[..n];
    }

    method RemoveInner(t: TimerListNode)
      requires Valid() && t in elems && head != t && tail != t
      modifies this, elems`next, elems`prev
      ensures Valid()
      ensures elems == Without(old(elems), t)
      ensures t.next == null && t.prev == null
    {
      ghost var k := IndexOf(elems, t);
      ghost var r := Without(elems, t);
      assert elems[k].next == elems[k + 1] && elems[k].prev == elems[k - 1];
      WithoutMembers(elems, t);
      t.prev.next := t.next;
      t.next.prev := t.prev;
      assert forall i {:trigger r[i].next} :: 0 <= i < |r| ==> r[i].next == if i + 1 < |r| then r[i + 1] else null;
      assert forall i {:trigger r[i].prev} :: 0 <= i < |r| ==> r[i].prev == if i > 0 then r[i - 1] else null;
      size := size - 1;
      if size == 0 {
        assert false;
      }
      t.next := null;
      t.prev := null;
      elems := r;
    }

    method Clear()
      requires Valid()
      modifies this, elems`next, elems`prev
      ensures Valid() && elems == []
    {
      while size != 0
        invariant Valid()
        invariant forall i :: 0 <= i < |elems| ==> elems[i] in old(elems)
        decreases size
      {
        var _ := PopFirst();
      }
    }
  }

  // ---------- Lists that share no node ----------

  /** The links of different lists never meet. */
  ghost predicate AreApart(a: TimerList, b: TimerList)
    reads a`elems, b`elems
  {
    a != b ==> forall t :: t in a.elems ==> t !in b.elems
  }

  /**
    A family of lists, such as the slots of all wheels and the notify list, each well linked and apart from the
    others.
   */
  ghost predicate IsFamily(lists: set<TimerList>, nodes: set<TimerListNode>)
    reads lists, nodes
  {
    && (forall l {:trigger IsOver(l, nodes)} :: l in lists ==> IsOver(l, nodes) && l.Valid())
    && (forall a, b {:trigger AreApart(a, b)} :: a in lists && b in lists ==> AreApart(a, b))
  }

  ghost predicate IsOver(l: TimerList, nodes: set<TimerListNode>)
    reads l`elems
  {
    forall t :: t in l.elems ==> t in nodes
  }

  /** A list stays well linked while neither it nor its nodes change. */
  twostate lemma StaysValid(l: TimerList)
    requires old(l.Valid()) && unchanged(l) && forall t :: t in l.elems ==> unchanged(t)
    ensures l.Valid()
  {
    forall i | 0 <= i < |l.elems|
      ensures l.elems[i].next == old(l.elems[i].next) && l.elems[i].prev == old(l.elems[i].prev)
    {
      assert l.elems[i] in l.elems;
    }
  }

  /** Pushing a timer that is in no list onto one list leaves the family apart and the other lists as they were. */
  method PushFrontInFamily(ghost lists: set<TimerList>, ghost nodes: set<TimerListNode>, l: TimerList, t: TimerListNode)
    requires IsFamily(lists, nodes) && l in lists && t in nodes && forall m :: m in lists ==> t !in m.elems
    modifies l, t`next, t`prev, l.elems`prev
    ensures IsFamily(lists, nodes) && l.elems == [t] + old(l.elems)
    ensures forall m :: m in lists && m != l ==> m.elems == old(m.elems)
  {
    assert IsOver(l, nodes);
    l.PushFront(t);
    forall m | m in lists ensures IsOver(m, nodes) && m.Valid() {
      assert old(IsOver(m, nodes)) && old(m.Valid()) && old(AreApart(m, l));
      if m != l {
        StaysValid(m);
      }
    }
    forall a, b | a in lists && b in lists ensures AreApart(a, b) {
      assert old(AreApart(a, b));
    }
  }

  /** Removing a timer from its list leaves the family apart and the other lists as they were; it is then in none. */
  method RemoveInFamily(ghost lists: set<TimerList>, ghost nodes: set<TimerListNode>, l: TimerList, t: TimerListNode)
    requires IsFamily(lists, nodes) && l in lists && t in l.elems
    modifies l, l.elems`next, l.elems`prev
    ensures IsFamily(lists, nodes) && l.elems == Without(old(l.elems), t)
    ensures forall m :: m in lists && m != l ==> m.elems == old(m.elems)
    ensures forall m :: m in lists ==> t !in m.elems
  {
    assert IsOver(l, nodes);
    WithoutMembers(l.elems, t);
    l.Remove(t);
    forall m | m in lists ensures IsOver(m, nodes) && m.Valid() && t !in m.elems {
      assert old(IsOver(m, nodes)) && old(m.Valid()) && old(AreApart(m, l));
      if m != l {
        StaysValid(m);
      }
    }
    forall a, b | a in lists && b in lists ensures AreApart(a, b) {
      assert old(AreApart(a, b));
    }
  }

  /** Moving all timers of one list in front of another leaves the family apart and the other lists as they were. */
  method PushFrontAllInFamily(ghost lists: set<TimerList>, ghost nodes: set<TimerListNode>, l: TimerList,
      timers: TimerList)
    requires IsFamily(lists, nodes) && l in lists && timers in lists && l != timers
    modifies l, timers, timers.elems`next, l.elems`prev
    ensures IsFamily(lists, nodes) && l.elems == old(timers.elems) + old(l.elems) && timers.elems == []
    ensures forall m :: m in lists && m != l && m != timers ==> m.elems == old(m.elems)
  {
    assert IsOver(l, nodes) && IsOver(timers, nodes) && AreApart(timers, l);
    l.PushFrontAll(timers);
    forall m | m in lists ensures IsOver(m, nodes) && m.Valid() {
      assert old(IsOver(m, nodes)) && old(m.Valid()) && old(AreApart(m, l)) && old(AreApart(m, timers));
      if m != l && m != timers {
        StaysValid(m);
      }
    }
    forall a, b | a in lists && b in lists ensures AreApart(a, b) {
      assert old(AreApart(a, b)) && old(AreApart(a, timers)) && old(AreApart(timers, b));
    }
  }
}
