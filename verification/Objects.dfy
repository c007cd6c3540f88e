/**
  Signals and slots: an object's list of connections, emission that tolerates anything its slots do, and the counts
  that every receiver keeps of its emitters.
 */
module Objects {
  import opened Options

  datatype Meta = Meta(signal: nat, slot: nat)

  /** A connection to a slot, with a receiver or context object if there is one; it is dead without its meta part. */
  datatype Connection = Connection(receiver: Object?, meta: Option<Meta>)

  /** What an emission shares with those nested in it, and its sender's destructor sets. */
  class Flag {
    ghost const owner: Object
    var isSet: bool

    constructor (ghost owner: Object)
      ensures this.owner == owner && !isSet
    {
      this.owner := owner;
      isSet := false;
    }
  }

  class Object {
    var connections: seq<Connection>
    var connectedEmitters: map<Object, nat>
    var isEmitting: bool
    var hasToCleanupConnections: bool
    var destroyed: Flag?

    constructor ()
      ensures connections == [] && connectedEmitters == map[]
      ensures !isEmitting && !hasToCleanupConnections && destroyed == null
    {
      connections, connectedEmitters := [], map[];
      isEmitting, hasToCleanupConnections, destroyed := false, false, null;
    }

    method AddEmitter(emitter: Object)
      modifies this`connectedEmitters
      ensures connectedEmitters == old(connectedEmitters)[emitter := old(CountOf(this, emitter)) + 1]
    {
      if emitter !in connectedEmitters {
        connectedEmitters := connectedEmitters[emitter := 0];
      }
      connectedEmitters := connectedEmitters[emitter := connectedEmitters[emitter] + 1];
    }

    method RemoveEmitter(emitter: Object)
      requires emitter in connectedEmitters ==> connectedEmitters[emitter] > 0
      modifies this`connectedEmitters
      ensures connectedEmitters ==
        if emitter in old(connectedEmitters) then
          WithCount(old(connectedEmitters), emitter, old(connectedEmitters)[emitter] - 1)
        else old(connectedEmitters)
    {
      if emitter in connectedEmitters {
        var n := connectedEmitters[emitter] - 1;
        connectedEmitters := if n == 0 then connectedEmitters - {emitter} else connectedEmitters[emitter := n];
      }
    }
  }

  /** A count of zero is not kept. */
  function WithCount(counts: map<Object, nat>, emitter: Object, n: nat): map<Object, nat> {
    if n == 0 then counts - {emitter} else counts[emitter := n]
  }

  function CountOf(r: Object, s: Object): nat
    reads r`connectedEmitters
  {
    if s in r.connectedEmitters then r.connectedEmitters[s] else 0
  }

  /** The number of live connections with a receiver. */
  function Mentions(connections: seq<Connection>, r: Object): nat {
    if connections == [] then 0
    else Mentions(connections[1..], r) + (if connections[0].meta.Some? && connections[0].receiver == r then 1 else 0)
  }

  lemma {:induction false} MentionsConcat(a: seq<Connection>, b: seq<Connection>, r: Object)
    ensures Mentions(a + b, r) == Mentions(a, r) + Mentions(b, r)
  {
    if a == [] {
      assert a + b == b;
    } else {
      MentionsConcat(a[1..], b, r);
      assert (a + b)[1..] == a[1..] + b;
    }
  }

  /** The receiver's count for the sender is the number of the sender's live connections to it. */
  ghost predicate IsBookkept(s: Object, r: Object)
    reads s`connections, r`connectedEmitters
  {
    CountOf(r, s) == Mentions(s.connections, r) && (s in r.connectedEmitters ==> r.connectedEmitters[s] > 0)
  }

  /** Live connections and emitter counts speak of objects that exist. */
  ghost predicate IsClosed(world: set<Object>, o: Object)
    reads o`connections, o`connectedEmitters
  {
    && (forall i :: 0 <= i < |o.connections| && o.connections[i].meta.Some? ==>
      o.connections[i].receiver == null || o.connections[i].receiver in world)
    && o.connectedEmitters.Keys <= world
  }

  /** Dead connections wait for an emission to end, and an emission has its flag. */
  ghost predicate IsClean(o: Object)
    reads o`connections, o`isEmitting, o`hasToCleanupConnections, o`destroyed
  {
    && (o.isEmitting <==> o.destroyed != null)
    && (forall i :: 0 <= i < |o.connections| && o.connections[i].meta.None? ==>
      o.isEmitting && o.hasToCleanupConnections)
  }

  /** As above, but for the one pair whose receiver has already forgotten the sender. */
  ghost predicate IsCounted(s: Object, r: Object, forgotten: Object?, forgetful: Object?)
    reads s`connections, r`connectedEmitters
  {
    if s == forgotten && r == forgetful then s !in r.connectedEmitters else IsBookkept(s, r)
  }

  ghost predicate IsRegistered(world: set<Object>, forgotten: Object?, forgetful: Object?)
    reads world`connections, world`connectedEmitters
  {
    && (forall s, r {:trigger IsCounted(s, r, forgotten, forgetful)} :: s in world && r in world ==>
      IsCounted(s, r, forgotten, forgetful))
    && (forall o {:trigger IsClosed(world, o)} :: o in world ==> IsClosed(world, o))
  }

  ghost predicate InvariantBut(world: set<Object>, forgotten: Object?, forgetful: Object?)
    reads world
  {
    IsRegistered(world, forgotten, forgetful) && forall o {:trigger IsClean(o)} :: o in world ==> IsClean(o)
  }

  ghost predicate Invariant(world: set<Object>)
    reads world
  {
    InvariantBut(world, null, null)
  }

  method Connect(ghost world: set<Object>, sender: Object, signal: nat, receiver: Object?, slot: nat)
    requires Invariant(world) && sender in world && (receiver == null || receiver in world)
    modifies sender`connections, world`connectedEmitters
    ensures Invariant(world)
    ensures sender.connections == [Connection(receiver, Some(Meta(signal, slot)))] + old(sender.connections)
  {
    ghost var before := sender.connections;
    sender.connections := [Connection(receiver, Some(Meta(signal, slot)))] + sender.connections;
    if receiver != null {
      receiver.AddEmitter(sender);
    }
    forall s, r | s in world && r in world ensures IsCounted(s, r, null, null) {
      assert old(IsCounted(s, r, null, null));
      assert sender.connections[1..] == before;
    }
    forall o | o in world ensures IsClosed(world, o) && IsClean(o) {
      assert old(IsClosed(world, o)) && old(IsClean(o));
    }
  }

  // ---------- Disconnecting ----------

  /** Zero and null stand for any signal, any slot, and any receiver. */
  predicate Matches(c: Connection, signal: nat, receiver: Object?, slot: nat) {
    && c.meta.Some?
    && (receiver == null || c.receiver == receiver)
    && (signal == 0 || c.meta.value.signal == signal)
    && (slot == 0 || c.meta.value.slot == slot)
  }

  function Killed(c: Connection): Connection {
    c.(meta := None)
  }

  /** The connections without the matching ones; or, while they are walked over, with the matching ones dead. */
  function Disconnected(connections: seq<Connection>, signal: nat, receiver: Object?, slot: nat,
      isEmitting: bool): seq<Connection> {
    if connections == [] then [] else
      var last := connections[|connections| - 1];
      Disconnected(connections[..|connections| - 1], signal, receiver, slot, isEmitting)
      + (if !Matches(last, signal, receiver, slot) then [last] else if isEmitting then [Killed(last)] else [])
  }

  /** Exactly the live connections of this signal, receiver and slot go, or die; zero and null stand for any. */
  lemma DisconnectedOne(c: Connection, signal: nat, receiver: Object?, slot: nat, isEmitting: bool)
    ensures Disconnected([c], signal, receiver, slot, isEmitting) ==
      if c.meta.Some? && (signal == 0 || signal == c.meta.value.signal) && (slot == 0 || slot == c.meta.value.slot)
        && (receiver == null || receiver == c.receiver)
      then (if isEmitting then [Connection(c.receiver, None)] else [])
      else [c]
  {
    assert [c][..0] == [];
  }

  /** Each on its own, in list order. */
  lemma {:induction false} DisconnectedConcat(a: seq<Connection>, b: seq<Connection>, signal: nat, receiver: Object?,
      slot: nat, isEmitting: bool)
    ensures Disconnected(a + b, signal, receiver, slot, isEmitting) ==
      Disconnected(a, signal, receiver, slot, isEmitting) + Disconnected(b, signal, receiver, slot, isEmitting)
    decreases |b|
  {
    if b == [] {
      assert a + b == a;
    } else {
      var init, last := b[..|b| - 1], b[|b| - 1];
      DisconnectedConcat(a, init, signal, receiver, slot, isEmitting);
      assert (a + b)[..|a + b| - 1] == a + init && (a + b)[|a + b| - 1] == last;
      var end := if !Matches(last, signal, receiver, slot) then [last] else if isEmitting then [Killed(last)] else [];
      var left, right := Disconnected(a, signal, receiver, slot, isEmitting),
        Disconnected(init, signal, receiver, slot, isEmitting);
      assert (left + right) + end == left + (right + end);
    }
  }

  lemma MentionsKilled(connections: seq<Connection>, i: nat, r: Object)
    requires i < |connections| && connections[i].meta.Some?
    ensures Mentions(connections[i := Killed(connections[i])], r)
      == Mentions(connections, r) - (if connections[i].receiver == r then 1 else 0)
  {
    var a, c, b := connections[..i], connections[i], connections[i + 1..];
    assert connections == a + ([c] + b) && connections[i := Killed(c)] == a + ([Killed(c)] + b);
    MentionsConcat(a, [c] + b, r);
    MentionsConcat(a, [Killed(c)] + b, r);
    assert ([c] + b)[1..] == b && ([Killed(c)] + b)[1..] == b;
  }

  lemma MentionsUnlinked(connections: seq<Connection>, i: nat, r: Object)
    requires i < |connections| && connections[i].meta.None?
    ensures Mentions(connections[..i] + connections[i + 1..], r) == Mentions(connections, r)
  {
    var a, c, b := connections[..i], connections[i], connections[i + 1..];
    assert connections == a + ([c] + b);
    MentionsConcat(a, [c] + b, r);
    MentionsConcat(a, b, r);
    assert ([c] + b)[1..] == b;
  }

  /** One live connection dies, and its receiver counts one less. */
  method Kill(ghost world: set<Object>, sender: Object, i: nat, ghost forgotten: Object?, ghost forgetful: Object?)
    requires IsRegistered(world, forgotten, forgetful) && sender in world
    requires i < |sender.connections| && sender.connections[i].meta.Some?
    modifies sender`connections, world`connectedEmitters
    ensures IsRegistered(world, forgotten, forgetful)
    ensures forall r :: r in world ==>
      old(r.connectedEmitters.Keys) - {sender} <= r.connectedEmitters.Keys <= old(r.connectedEmitters.Keys)
    ensures sender.connections == old(sender.connections)[i := Killed(old(sender.connections)[i])]
  {
    ghost var before := sender.connections;
    var receiver := sender.connections[i].receiver;
    assert IsClosed(world, sender);
    assert receiver != null ==> IsCounted(sender, receiver, forgotten, forgetful);
    sender.connections := sender.connections[i := Killed(sender.connections[i])];
    if receiver != null {
      receiver.RemoveEmitter(sender);
    }
    forall s, r | s in world && r in world ensures IsCounted(s, r, forgotten, forgetful) {
      assert old(IsCounted(s, r, forgotten, forgetful));
      if s == sender {
        MentionsKilled(before, i, r);
        assert r != receiver ==> CountOf(r, s) == old(CountOf(r, s));
      } else {
        assert CountOf(r, s) == old(CountOf(r, s));
      }
    }
    forall o | o in world ensures IsClosed(world, o) {
      assert old(IsClosed(world, o));
    }
  }

  /** A dead connection is unlinked. */
  method Unlink(ghost world: set<Object>, sender: Object, i: nat, ghost forgotten: Object?, ghost forgetful: Object?)
    requires IsRegistered(world, forgotten, forgetful) && sender in world
    requires i < |sender.connections| && sender.connections[i].meta.None?
    modifies sender`connections
    ensures IsRegistered(world, forgotten, forgetful)
    ensures sender.connections == old(sender.connections)[..i] + old(sender.connections)[i + 1..]
  {
    ghost var before := sender.connections;
    sender.connections := sender.connections[..i] + sender.connections[i + 1..];
    forall s, r | s in world && r in world ensures IsCounted(s, r, forgotten, forgetful) {
      assert old(IsCounted(s, r, forgotten, forgetful));
      MentionsUnlinked(before, i, r);
    }
    forall o | o in world ensures IsClosed(world, o) {
      assert old(IsClosed(world, o));
    }
  }

  /** One live connection goes; while its sender emits, it is left dead for the emission's end to unlink. */
  method DisconnectAt(ghost world: set<Object>, sender: Object, i: nat, ghost forgotten: Object?,
      ghost forgetful: Object?)
    requires InvariantBut(world, forgotten, forgetful) && sender in world
    requires i < |sender.connections| && sender.connections[i].meta.Some?
    modifies sender`connections, sender`hasToCleanupConnections, world`connectedEmitters
    ensures InvariantBut(world, forgotten, forgetful)
    ensures forall r :: r in world ==>
      old(r.connectedEmitters.Keys) - {sender} <= r.connectedEmitters.Keys <= old(r.connectedEmitters.Keys)
    ensures sender.connections ==
      if sender.isEmitting then old(sender.connections)[i := Killed(old(sender.connections)[i])]
      else old(sender.connections)[..i] + old(sender.connections)[i + 1..]
  {
    Kill(world, sender, i, forgotten, forgetful);
    if !sender.isEmitting {
      Unlink(world, sender, i, forgotten, forgetful);
    } else {
      sender.hasToCleanupConnections := true;
    }
    forall o | o in world ensures IsClean(o) {
      assert old(IsClean(o));
    }
  }

  /** How far a walk has got: the part before the current connection is done, the rest is as it was. */
  ghost predicate IsWalk(now: seq<Connection>, i: nat, all: seq<Connection>, j: nat, signal: nat, receiver: Object?,
      slot: nat, isEmitting: bool) {
    && j <= |all|
    && i == |Disconnected(all[..j], signal, receiver, slot, isEmitting)|
    && now == Disconnected(all[..j], signal, receiver, slot, isEmitting) + all[j..]
  }

  lemma WalkGoesOn(now: seq<Connection>, i: nat, all: seq<Connection>, j: nat, signal: nat, receiver: Object?,
      slot: nat, isEmitting: bool)
    requires j < |all| && IsWalk(now, i, all, j, signal, receiver, slot, isEmitting)
    ensures i < |now| && now[i] == all[j]
    ensures !Matches(all[j], signal, receiver, slot) ==>
      IsWalk(now, i + 1, all, j + 1, signal, receiver, slot, isEmitting)
    ensures Matches(all[j], signal, receiver, slot) && isEmitting ==>
      IsWalk(now[i := Killed(all[j])], i + 1, all, j + 1, signal, receiver, slot, isEmitting)
    ensures Matches(all[j], signal, receiver, slot) && !isEmitting ==>
      IsWalk(now[..i] + now[i + 1..], i, all, j + 1, signal, receiver, slot, isEmitting)
  {
    var done := Disconnected(all[..j], signal, receiver, slot, isEmitting);
    assert all[..j + 1][..j] == all[..j];
    assert now == done + ([all[j]] + all[j + 1..]);
  }

  /** The walk over a sender's list: matching connections go one after the other. */
  method Disconnect(ghost world: set<Object>, sender: Object, signal: nat, receiver: Object?, slot: nat,
      ghost forgotten: Object?, ghost forgetful: Object?)
    requires InvariantBut(world, forgotten, forgetful) && sender in world
    modifies sender`connections, sender`hasToCleanupConnections, world`connectedEmitters
    ensures InvariantBut(world, forgotten, forgetful)
    ensures sender.connections == Disconnected(old(sender.connections), signal, receiver, slot, sender.isEmitting)
    ensures forall r :: r in world ==>
      old(r.connectedEmitters.Keys) - {sender} <= r.connectedEmitters.Keys <= old(r.connectedEmitters.Keys)
  {
    ghost var all := sender.connections;
    ghost var j: nat := 0;
    var i: nat := 0;
    while i < |sender.connections|
      invariant InvariantBut(world, forgotten, forgetful)
      invariant IsWalk(sender.connections, i, all, j, signal, receiver, slot, sender.isEmitting)
      invariant forall r :: r in world ==>
        old(r.connectedEmitters.Keys) - {sender} <= r.connectedEmitters.Keys <= old(r.connectedEmitters.Keys)
      decreases |all| - j
    {
      i := DisconnectNext(world, sender, i, signal, receiver, slot, forgotten, forgetful, all, j);
      j := j + 1;
    }
    assert all[..j] == all;
  }

  method DisconnectNext(ghost world: set<Object>, sender: Object, i: nat, signal: nat, receiver: Object?, slot: nat,
      ghost forgotten: Object?, ghost forgetful: Object?, ghost all: seq<Connection>, ghost j: nat)
    returns (next: nat)
    requires InvariantBut(world, forgotten, forgetful) && sender in world && i < |sender.connections|
    requires IsWalk(sender.connections, i, all, j, signal, receiver, slot, sender.isEmitting)
    modifies sender`connections, sender`hasToCleanupConnections, world`connectedEmitters
    ensures InvariantBut(world, forgotten, forgetful)
    ensures j < |all| && IsWalk(sender.connections, next, all, j + 1, signal, receiver, slot, sender.isEmitting)
    ensures forall r :: r in world ==>
      old(r.connectedEmitters.Keys) - {sender} <= r.connectedEmitters.Keys <= old(r.connectedEmitters.Keys)
  {
    WalkGoesOn(sender.connections, i, all, j, signal, receiver, slot, sender.isEmitting);
    next := i + 1;
    if Matches(sender.connections[i], signal, receiver, slot) {
      DisconnectAt(world, sender, i, forgotten, forgetful);
      if !sender.isEmitting {
        next := i;
      }
    }
  }

  // ---------- Destruction ----------

  /** The connections once an object that receives from them is gone. */
  function WithoutReceiver(connections: seq<Connection>, r: Object, isEmitting: bool): seq<Connection> {
    Disconnected(connections, 0, r, 0, isEmitting)
  }

  lemma {:induction false} WithoutReceiverMentions(connections: seq<Connection>, r: Object, isEmitting: bool)
    ensures Mentions(WithoutReceiver(connections, r, isEmitting), r) == 0
    ensures Mentions(connections, r) == 0 ==> WithoutReceiver(connections, r, isEmitting) == connections
  {
    if connections != [] {
      var init, last := connections[..|connections| - 1], connections[|connections| - 1];
      WithoutReceiverMentions(init, r, isEmitting);
      assert connections == init + [last];
      MentionsConcat(init, [last], r);
      var end := if !Matches(last, 0, r, 0) then [last] else if isEmitting then [Killed(last)] else [];
      MentionsConcat(WithoutReceiver(init, r, isEmitting), end, r);
    }
  }

  /** All senders forget a receiver. */
  method ForgetReceiver(ghost world: set<Object>, o: Object)
    requires Invariant(world) && o in world
    modifies world`connections, world`hasToCleanupConnections, world`connectedEmitters
    ensures Invariant(world) && o.connectedEmitters == map[]
    ensures forall s :: s in world ==> s.connections == WithoutReceiver(old(s.connections), o, s.isEmitting)
  {
    forall s | s in world && s !in o.connectedEmitters
      ensures s.connections == WithoutReceiver(s.connections, o, s.isEmitting)
    {
      assert IsCounted(s, o, null, null);
      WithoutReceiverMentions(s.connections, o, s.isEmitting);
    }
    while o.connectedEmitters != map[]
      invariant Invariant(world)
      invariant forall s :: s in world ==>
        s.connections == (if s in o.connectedEmitters then old(s.connections)
          else WithoutReceiver(old(s.connections), o, s.isEmitting))
      decreases o.connectedEmitters.Keys
    {
      var emitter :| emitter in o.connectedEmitters;
      assert IsClosed(world, o);
      ForgetEmitter(world, o, emitter);
    }
  }

  method ForgetEmitter(ghost world: set<Object>, o: Object, emitter: Object)
    requires Invariant(world) && o in world && emitter in world && emitter in o.connectedEmitters
    modifies emitter`connections, emitter`hasToCleanupConnections, world`connectedEmitters
    ensures Invariant(world) && o.connectedEmitters.Keys == old(o.connectedEmitters.Keys) - {emitter}
    ensures emitter.connections == WithoutReceiver(old(emitter.connections), o, emitter.isEmitting)
  {
    EraseEmitter(world, o, emitter);
    Disconnect(world, emitter, 0, o, 0, emitter, o);
    WithoutReceiverMentions(old(emitter.connections), o, emitter.isEmitting);
    NothingForgotten(world, emitter, o);
  }

  /** The key goes before the connections do. */
  method EraseEmitter(ghost world: set<Object>, o: Object, emitter: Object)
    requires Invariant(world) && o in world
    modifies o`connectedEmitters
    ensures InvariantBut(world, emitter, o) && o.connectedEmitters == old(o.connectedEmitters) - {emitter}
  {
    o.connectedEmitters := o.connectedEmitters - {emitter};
    forall s, r | s in world && r in world ensures IsCounted(s, r, emitter, o) {
      assert old(IsCounted(s, r, null, null));
    }
    forall x | x in world ensures IsClosed(world, x) && IsClean(x) {
      assert old(IsClosed(world, x)) && old(IsClean(x));
    }
  }

  lemma NothingForgotten(world: set<Object>, forgotten: Object, forgetful: Object)
    requires InvariantBut(world, forgotten, forgetful) && Mentions(forgotten.connections, forgetful) == 0
    ensures Invariant(world)
  {
    forall s, r | s in world && r in world ensures IsCounted(s, r, null, null) {
      assert IsCounted(s, r, forgotten, forgetful);
    }
  }

  lemma {:induction false} MentionsMember(connections: seq<Connection>, k: nat, r: Object)
    requires k < |connections| && connections[k].meta.Some? && connections[k].receiver == r
    ensures Mentions(connections, r) > 0
  {
    if k > 0 {
      MentionsMember(connections[1..], k - 1, r);
    }
  }

  /**
    The rest of the world, while the receivers of a leaving object still count at most its live connections from the
    i-th on; dead ones make them count less.
   */
  ghost predicate IsLeaving(rest: set<Object>, o: Object, i: nat)
    requires i <= |o.connections|
    reads rest, o
  {
    && o.connectedEmitters == map[]
    && (forall s, r {:trigger IsBookkept(s, r)} :: s in rest && r in rest ==> IsBookkept(s, r))
    && (forall r {:trigger CountOf(r, o)} :: r in rest ==> IsCountedAtMost(r, o, Mentions(o.connections[i..], r)))
    && (forall x {:trigger IsClosed(rest + {o}, x)} :: x in rest ==> IsClosed(rest + {o}, x))
    && (forall x {:trigger IsClean(x)} :: x in rest ==> IsClean(x))
  }

  ghost predicate IsCountedAtMost(r: Object, o: Object, n: nat)
    reads r`connectedEmitters
  {
    CountOf(r, o) <= n && (o in r.connectedEmitters ==> r.connectedEmitters[o] > 0)
  }

  method ForgetOne(ghost rest: set<Object>, o: Object, i: nat)
    requires o !in rest && i < |o.connections| && IsLeaving(rest, o, i)
    requires o.connections[i].receiver == null || o.connections[i].receiver in rest + {o}
    modifies rest`connectedEmitters, o`connectedEmitters
    ensures IsLeaving(rest, o, i + 1)
  {
    var receiver := o.connections[i].receiver;
    assert o.connections[i..][1..] == o.connections[i + 1..];
    if receiver != null {
      assert receiver in rest ==> CountOf(receiver, o) <= Mentions(o.connections[i..], receiver);
      receiver.RemoveEmitter(o);
    }
    forall s, r | s in rest && r in rest ensures IsBookkept(s, r) {
      assert old(IsBookkept(s, r));
    }
    forall r | r in rest ensures IsCountedAtMost(r, o, Mentions(o.connections[i + 1..], r)) {
      assert old(CountOf(r, o)) <= Mentions(o.connections[i..], r);
    }
    forall x | x in rest ensures IsClosed(rest + {o}, x) {
      assert old(IsClosed(rest + {o}, x));
    }
  }

  lemma StartLeaving(rest: set<Object>, o: Object)
    requires Invariant(rest + {o}) && o !in rest && o.connectedEmitters == map[]
    ensures IsLeaving(rest, o, 0)
  {
    assert o.connections[0..] == o.connections;
    forall s, r | s in rest && r in rest ensures IsBookkept(s, r) {
      assert IsCounted(s, r, null, null);
    }
    forall r | r in rest ensures IsCountedAtMost(r, o, Mentions(o.connections, r)) {
      assert IsCounted(o, r, null, null);
    }
  }

  lemma EndLeaving(rest: set<Object>, o: Object)
    requires o !in rest && IsLeaving(rest, o, |o.connections|)
    requires forall s :: s in rest ==> Mentions(s.connections, o) == 0
    ensures Invariant(rest)
  {
    forall s, r | s in rest && r in rest ensures IsCounted(s, r, null, null) {
      assert IsBookkept(s, r);
    }
    forall x | x in rest ensures IsClosed(rest, x) {
      assert IsClosed(rest + {o}, x) && CountOf(x, o) == 0;
      forall i | 0 <= i < |x.connections| && x.connections[i].meta.Some? ensures x.connections[i].receiver != o {
        if x.connections[i].receiver == o {
          MentionsMember(x.connections, i, o);
        }
      }
    }
  }

  /** The receivers of a leaving object stop counting it; those of its dead connections are told again. */
  method ForgetSender(ghost rest: set<Object>, o: Object)
    requires o !in rest && IsLeaving(rest, o, 0) && CanBeDestroyed(rest + {o}, o)
    modifies rest`connectedEmitters, o`connectedEmitters
    ensures IsLeaving(rest, o, |o.connections|)
  {
    for i := 0 to |o.connections|
      invariant IsLeaving(rest, o, i)
    {
      ForgetOne(rest, o, i);
    }
  }

  /** The receiver of a connection, if it has one, exists. */
  predicate HasReceiverIn(world: set<Object>, c: Connection) {
    c.receiver == null || c.receiver in world
  }

  predicate HaveReceiversIn(world: set<Object>, connections: seq<Connection>) {
    forall i :: 0 <= i < |connections| ==> HasReceiverIn(world, connections[i])
  }

  /** The receivers that the destructor tells exist: those of live connections always do, those of dead ones may not. */
  predicate CanBeDestroyed(world: set<Object>, o: Object)
    reads o`connections
  {
    HaveReceiversIn(world, o.connections)
  }

  lemma IdleObjectsCanBeDestroyed(world: set<Object>, o: Object)
    requires Invariant(world) && o in world && !o.isEmitting
    ensures CanBeDestroyed(world, o)
  {
    assert IsClosed(world, o) && IsClean(o);
  }

  lemma {:induction false} WithoutReceiverKeepsReceivers(connections: seq<Connection>, r: Object, isEmitting: bool,
      world: set<Object>)
    requires HaveReceiversIn(world, connections)
    ensures HaveReceiversIn(world, WithoutReceiver(connections, r, isEmitting))
  {
    if connections != [] {
      var init, last := connections[..|connections| - 1], connections[|connections| - 1];
      forall i | 0 <= i < |init| ensures HasReceiverIn(world, init[i]) {
        assert HasReceiverIn(world, connections[i]);
      }
      WithoutReceiverKeepsReceivers(init, r, isEmitting, world);
      var left, before := WithoutReceiver(connections, r, isEmitting), WithoutReceiver(init, r, isEmitting);
      forall i | 0 <= i < |left| ensures HasReceiverIn(world, left[i]) {
        if i < |before| {
          assert left[i] == before[i];
        } else {
          assert HasReceiverIn(world, last) && (left[i] == last || left[i] == Killed(last));
        }
      }
    }
  }

  /** An object goes, also while it emits: nothing that stays mentions it any more. */
  method Destroy(ghost world: set<Object>, o: Object)
    requires Invariant(world) && o in world && CanBeDestroyed(world, o)
    modifies world`connections, world`hasToCleanupConnections, world`connectedEmitters
    modifies if o.destroyed == null then {} else {o.destroyed}
    ensures Invariant(world - {o})
    ensures forall s :: s in world ==> s.connections == WithoutReceiver(old(s.connections), o, s.isEmitting)
    ensures o.destroyed != null ==> o.destroyed.isSet
  {
    assert IsClean(o);
    if o.isEmitting {
      o.destroyed.isSet := true;
    }
    WithoutReceiverKeepsReceivers(o.connections, o, o.isEmitting, world);
    ForgetReceiver(world, o);
    ghost var rest := world - {o};
    assert world == rest + {o};
    StartLeaving(rest, o);
    ForgetSender(rest, o);
    forall s | s in rest ensures Mentions(s.connections, o) == 0 {
      WithoutReceiverMentions(old(s.connections), o, s.isEmitting);
    }
    EndLeaving(rest, o);
  }

  // ---------- Emission ----------

  /** What a slot does when it is called: connect, disconnect, emit again, destroy. */
  datatype Action =
    | Connecting(sender: Object, signal: nat, receiver: Object?, slot: nat)
    | Disconnecting(sender: Object, signal: nat, receiver: Object?, slot: nat)
    | Emitting(sender: Object, signal: nat, reactions: seq<Reaction>)
    | Destroying(target: Object)

  datatype Reaction = Reaction(actions: seq<Action>)

  /** Where a connection is in a list that has evolved from the one it had position `i` in. */
  function At(start: seq<Connection>, now: seq<Connection>, i: nat): Connection
    requires i < |start| <= |now|
  {
    now[|now| - |start| + i]
  }

  ghost predicate IsEvolvedAt(a: seq<Connection>, b: seq<Connection>, i: nat)
    requires i < |a| <= |b|
  {
    At(a, b, i) == a[i] || At(a, b, i) == Killed(a[i])
  }

  /** Connections are only added in front, and the others stay where they are, alive or dead. */
  ghost predicate IsEvolved(a: seq<Connection>, b: seq<Connection>) {
    |a| <= |b| && forall i: nat {:trigger IsEvolvedAt(a, b, i)} :: i < |a| ==> IsEvolvedAt(a, b, i)
  }

  lemma EvolvedIsTransitive(a: seq<Connection>, b: seq<Connection>, c: seq<Connection>)
    requires IsEvolved(a, b) && IsEvolved(b, c)
    ensures IsEvolved(a, c)
  {
    forall i: nat | i < |a| ensures IsEvolvedAt(a, c, i) {
      assert IsEvolvedAt(a, b, i) && IsEvolvedAt(b, c, |b| - |a| + i);
    }
  }

  lemma ConnectedIsEvolved(a: seq<Connection>, c: Connection)
    ensures IsEvolved(a, [c] + a)
  {
  }

  lemma {:induction false} DisconnectedIsEvolved(a: seq<Connection>, signal: nat, receiver: Object?, slot: nat)
    ensures |Disconnected(a, signal, receiver, slot, true)| == |a|
    ensures IsEvolved(a, Disconnected(a, signal, receiver, slot, true))
  {
    if a != [] {
      var init := a[..|a| - 1];
      DisconnectedIsEvolved(init, signal, receiver, slot);
      var left, now := Disconnected(init, signal, receiver, slot, true), Disconnected(a, signal, receiver, slot, true);
      forall i: nat | i < |a| ensures IsEvolvedAt(a, now, i) {
        assert i < |init| ==> IsEvolvedAt(init, left, i);
      }
    }
  }

  /** An object that was emitting: the connections it had, and the flag of its emission. */
  datatype Held = Held(connections: seq<Connection>, flag: Flag)

  ghost function Flags(before: map<Object, Held>): set<Flag> {
    set o | o in before :: before[o].flag
  }

  lemma FlagsOfUpdate(before: map<Object, Held>, o: Object, h: Held)
    ensures Flags(before[o := h]) <= Flags(before) + {h.flag}
  {
  }

  /**
    Objects that were emitting, as far as they still exist, still emit, with the same flag, and have lost no
    connection; the flag is set exactly if they do not exist any more.
   */
  ghost predicate IsHeld(o: Object, before: map<Object, Held>, world: set<Object>)
    reads o`isEmitting, o`connections, o`destroyed, if o in before then {before[o].flag} else {}
  {
    o in before ==>
      var flag := before[o].flag;
      && flag.owner == o && (flag.isSet <==> o !in world)
      && (o in world ==> o.isEmitting && o.destroyed == flag && IsEvolved(before[o].connections, o.connections))
  }

  /** Exactly the objects that were emitting, with the connections they had, are held. */
  ghost predicate IsKept(before: map<Object, Held>, world: set<Object>)
    reads world, before.Keys, Flags(before)
  {
    && (forall o {:trigger IsHeld(o, before, world)} :: o in before ==> IsHeld(o, before, world))
    && (forall o {:trigger IsSeen(o, before)} :: o in world ==> IsSeen(o, before))
  }

  ghost predicate IsSeen(o: Object, before: map<Object, Held>)
    reads o`isEmitting
  {
    o.isEmitting ==> o in before
  }

  /** A sender that emits names the receivers it named before, also once they are gone. */
  lemma {:induction false} EmittingSenderKeepsReceivers(connections: seq<Connection>, r: Object, world: set<Object>)
    ensures HaveReceiversIn(world, WithoutReceiver(connections, r, true)) <==> HaveReceiversIn(world, connections)
  {
    var left := WithoutReceiver(connections, r, true);
    DisconnectedIsEvolved(connections, 0, r, 0);
    forall i | 0 <= i < |connections|
      ensures HasReceiverIn(world, connections[i]) <==> HasReceiverIn(world, left[i])
    {
      assert IsEvolvedAt(connections, left, i);
    }
  }

  /** Once an object is gone, exactly those emitting senders that it received from can no longer be destroyed. */
  lemma {:induction false} DestroyedReceiverIsStillTold(connections: seq<Connection>, r: Object, world: set<Object>)
    requires r in world
    ensures HaveReceiversIn(world - {r}, WithoutReceiver(connections, r, true)) <==>
      HaveReceiversIn(world, connections) && forall i :: 0 <= i < |connections| ==> connections[i].receiver != r
  {
    EmittingSenderKeepsReceivers(connections, r, world - {r});
    if HaveReceiversIn(world - {r}, connections) {
      forall i | 0 <= i < |connections| ensures HasReceiverIn(world, connections[i]) && connections[i].receiver != r {
        assert HasReceiverIn(world - {r}, connections[i]);
      }
    }
    if HaveReceiversIn(world, connections) && forall i :: 0 <= i < |connections| ==> connections[i].receiver != r {
      forall i | 0 <= i < |connections| ensures HasReceiverIn(world - {r}, connections[i]) {
        assert HasReceiverIn(world, connections[i]);
      }
    }
  }

  method ConnectInSlot(world: set<Object>, sender: Object, signal: nat, receiver: Object?, slot: nat,
      ghost before: map<Object, Held>)
    requires Invariant(world) && IsKept(before, world) && sender in world && (receiver == null || receiver in world)
    modifies sender`connections, world`connectedEmitters
    ensures Invariant(world) && IsKept(before, world)
    ensures WorldOf(world) == AfterAction(old(WorldOf(world)), Connecting(sender, signal, receiver, slot))
  {
    Connect(world, sender, signal, receiver, slot);
    ConnectedIsEvolved(old(sender.connections), Connection(receiver, Some(Meta(signal, slot))));
    forall o | o in world ensures IsSeen(o, before) {
      assert old(IsSeen(o, before));
    }
    forall o | o in before ensures IsHeld(o, before, world) {
      assert old(IsHeld(o, before, world));
      if o == sender {
        EvolvedIsTransitive(before[o].connections, old(o.connections), o.connections);
      }
    }
  }

  method DisconnectInSlot(world: set<Object>, sender: Object, signal: nat, receiver: Object?, slot: nat,
      ghost before: map<Object, Held>)
    requires Invariant(world) && IsKept(before, world) && sender in world
    modifies sender`connections, sender`hasToCleanupConnections, world`connectedEmitters
    ensures Invariant(world) && IsKept(before, world)
    ensures WorldOf(world) == AfterAction(old(WorldOf(world)), Disconnecting(sender, signal, receiver, slot))
  {
    Disconnect(world, sender, signal, receiver, slot, null, null);
    DisconnectedIsEvolved(old(sender.connections), signal, receiver, slot);
    forall o | o in world ensures IsSeen(o, before) {
      assert old(IsSeen(o, before));
    }
    forall o | o in before ensures IsHeld(o, before, world) {
      assert old(IsHeld(o, before, world));
      if o == sender {
        EvolvedIsTransitive(before[o].connections, old(o.connections), o.connections);
      }
    }
  }

  lemma WithoutIsWorld(rest: set<Object>, o: Object, w: World)
    requires w.lists.Keys == rest + {o} && o !in rest && w.emitting <= w.lists.Keys
    requires forall s :: s in rest ==>
      s.connections == WithoutReceiver(w.lists[s], o, s in w.emitting) && (s.isEmitting <==> s in w.emitting)
    ensures WorldOf(rest) == Without(w, o)
  {
    assert WorldOf(rest).lists == Without(w, o).lists;
    assert WorldOf(rest).emitting == Without(w, o).emitting;
  }

  method DestroyInSlot(world: set<Object>, o: Object, ghost before: map<Object, Held>)
    returns (rest: set<Object>)
    requires Invariant(world) && IsKept(before, world) && o in world && CanBeDestroyed(world, o)
    modifies world`connections, world`hasToCleanupConnections, world`connectedEmitters, Flags(before)
    ensures rest == world - {o} && Invariant(rest) && IsKept(before, rest)
    ensures WorldOf(rest) == AfterAction(old(WorldOf(world)), Destroying(o))
  {
    ghost var w := WorldOf(world);
    rest := DestroyKept(world, o, before);
    WithoutIsWorld(rest, o, w);
  }

  method DestroyKept(world: set<Object>, o: Object, ghost before: map<Object, Held>)
    returns (rest: set<Object>)
    requires Invariant(world) && IsKept(before, world) && o in world && CanBeDestroyed(world, o)
    modifies world`connections, world`hasToCleanupConnections, world`connectedEmitters, Flags(before)
    ensures rest == world - {o} && Invariant(rest) && IsKept(before, rest)
    ensures forall s :: s in rest ==> s.connections == WithoutReceiver(old(s.connections), o, s.isEmitting)
  {
    assert IsSeen(o, before) && IsHeld(o, before, world) && IsClean(o);
    Destroy(world, o);
    rest := world - {o};
    forall x | x in rest ensures IsSeen(x, before) {
      assert old(IsSeen(x, before));
    }
    forall s | s in before ensures IsHeld(s, before, rest) {
      assert old(IsHeld(s, before, world));
      if s in rest {
        DisconnectedIsEvolved(old(s.connections), 0, o, 0);
        EvolvedIsTransitive(before[s].connections, old(s.connections), s.connections);
      }
    }
  }

  predicate Listens(c: Connection, signal: nat) {
    c.meta.Some? && c.meta.value.signal == signal
  }

  // ---------- What slots and emissions make of the objects ----------

  /** The objects there are, with their connections, and those of them that emit. */
  datatype World = World(lists: map<Object, seq<Connection>>, emitting: set<Object>)

  ghost function WorldOf(world: set<Object>): World
    reads world`connections, world`isEmitting
  {
    World(map o | o in world :: o.connections, set o | o in world && o.isEmitting)
  }

  function ListOf(w: World, o: Object): seq<Connection> {
    if o in w.lists then w.lists[o] else []
  }

  /** The connections that are not dead. */
  function Live(connections: seq<Connection>): seq<Connection> {
    if connections == [] then [] else
      var last := connections[|connections| - 1];
      Live(connections[..|connections| - 1]) + (if last.meta.Some? then [last] else [])
  }

  function Started(w: World, sender: Object): World {
    w.(emitting := w.emitting + {sender})
  }

  /** The outermost emission of a sender that still exists unlinks its dead connections. */
  function Finished(w: World, sender: Object, isFirstToEmit: bool): World {
    if sender in w.lists && isFirstToEmit
    then World(w.lists[sender := Live(w.lists[sender])], w.emitting - {sender})
    else w
  }

  function Without(w: World, o: Object): World {
    World(map s | s in w.lists && s != o :: WithoutReceiver(w.lists[s], o, s in w.emitting), w.emitting - {o})
  }

  /** What an action of a slot does, as far as the objects it speaks of exist. */
  ghost function AfterAction(w: World, action: Action): World
    decreases action, 4
  {
    match action
    case Connecting(sender, signal, receiver, slot) =>
      if sender in w.lists && (receiver == null || receiver in w.lists)
      then w.(lists := w.lists[sender := [Connection(receiver, Some(Meta(signal, slot)))] + w.lists[sender]])
      else w
    case Disconnecting(sender, signal, receiver, slot) =>
      if sender in w.lists
      then w.(lists :=
        w.lists[sender := Disconnected(w.lists[sender], signal, receiver, slot, sender in w.emitting)])
      else w
    case Emitting(sender, _, _) =>
      if sender in w.lists
      then Finished(AfterTurns(Started(w, sender), action, |w.lists[sender]|).world, sender, sender !in w.emitting)
      else w
    case Destroying(o) =>
      if o in w.lists && HaveReceiversIn(w.lists.Keys, w.lists[o]) then Without(w, o) else w
  }

  /** What the first n actions of a slot do. */
  ghost function AfterActions(w: World, reaction: Reaction, n: nat): World
    requires n <= |reaction.actions|
    decreases reaction, n
  {
    if n == 0 then w else AfterAction(AfterActions(w, reaction, n - 1), reaction.actions[n - 1])
  }

  /** The k-th call of a slot; later calls than there are in the script do nothing. */
  ghost function AfterCall(w: World, emitting: Action, k: nat): World
    requires emitting.Emitting?
    decreases emitting, 0
  {
    if k < |emitting.reactions|
    then AfterActions(w, emitting.reactions[k], |emitting.reactions[k].actions|)
    else w
  }

  /** What some turns of an emission have left, and how many slots they have called. */
  datatype Progress = Progress(world: World, calls: nat)

  ghost function AfterTurns(first: World, emitting: Action, n: nat): Progress
    requires emitting.Emitting?
    decreases emitting, 2, n
  {
    if n == 0 then Progress(first, 0) else
      AfterTurn(AfterTurns(first, emitting, n - 1), |ListOf(first, emitting.sender)|, emitting, n - 1)
  }

  /** The turn at the i-th connection, which is as far from the end of the list as at the start. */
  ghost function AfterTurn(before: Progress, size: nat, emitting: Action, i: nat): Progress
    requires emitting.Emitting?
    decreases emitting, 1
  {
    var now := ListOf(before.world, emitting.sender);
    if i < size <= |now| && Listens(now[|now| - size + i], emitting.signal)
    then Progress(AfterCall(before.world, emitting, before.calls), before.calls + 1)
    else before
  }

  // ---------- Slots that act on their sender ----------

  /** A sender's list after these actions: a connection in front for each that connects, dead ones for the others. */
  function OwnList(sender: Object, list: seq<Connection>, actions: seq<Action>, objects: set<Object>): seq<Connection> {
    if actions == [] then list else
      var before := OwnList(sender, list, actions[..|actions| - 1], objects);
      match actions[|actions| - 1]
      case Connecting(s, signal, receiver, slot) =>
        if s == sender && (receiver == null || receiver in objects)
        then [Connection(receiver, Some(Meta(signal, slot)))] + before
        else before
      case Disconnecting(s, signal, receiver, slot) =>
        if s != sender then before else
          seq(|before|, i requires 0 <= i < |before| =>
            var c := before[i];
            if c.meta.Some? && (signal == 0 || signal == c.meta.value.signal)
              && (slot == 0 || slot == c.meta.value.slot) && (receiver == null || receiver == c.receiver)
            then Connection(c.receiver, None)
            else c)
      case _ => before
  }

  predicate AreConnections(actions: seq<Action>) {
    forall i :: 0 <= i < |actions| ==> actions[i].Connecting? || actions[i].Disconnecting?
  }

  lemma {:induction false} DisconnectedAt(list: seq<Connection>, signal: nat, receiver: Object?, slot: nat, i: nat)
    requires i < |list|
    ensures |Disconnected(list, signal, receiver, slot, true)| == |list|
    ensures var c := list[i];
      Disconnected(list, signal, receiver, slot, true)[i] ==
        if c.meta.Some? && (signal == 0 || signal == c.meta.value.signal)
          && (slot == 0 || slot == c.meta.value.slot) && (receiver == null || receiver == c.receiver)
        then Connection(c.receiver, None)
        else c
    decreases |list|
  {
    var last := |list| - 1;
    if i < last {
      DisconnectedAt(list[..last], signal, receiver, slot, i);
    } else if last > 0 {
      DisconnectedAt(list[..last], signal, receiver, slot, 0);
    }
  }

  /** Connecting and disconnecting, any number of times, leaves an emitting object exactly this list. */
  lemma {:induction false} ActionsOnOwnList(w: World, sender: Object, reaction: Reaction, n: nat)
    requires sender in w.lists && sender in w.emitting && n <= |reaction.actions| && AreConnections(reaction.actions)
    ensures var after := AfterActions(w, reaction, n);
      && after.lists.Keys == w.lists.Keys && after.emitting == w.emitting
      && after.lists[sender] == OwnList(sender, w.lists[sender], reaction.actions[..n], w.lists.Keys)
    decreases n
  {
    if n > 0 {
      ActionsOnOwnList(w, sender, reaction, n - 1);
      assert reaction.actions[..n][..n - 1] == reaction.actions[..n - 1];
      var before := AfterActions(w, reaction, n - 1);
      OneActionOnOwnList(before, sender, reaction.actions[n - 1], w.lists[sender], reaction.actions[..n]);
    }
  }

  lemma OneActionOnOwnList(before: World, sender: Object, action: Action, list: seq<Connection>, actions: seq<Action>)
    requires sender in before.lists && sender in before.emitting && (action.Connecting? || action.Disconnecting?)
    requires actions != [] && actions[|actions| - 1] == action
    requires before.lists[sender] == OwnList(sender, list, actions[..|actions| - 1], before.lists.Keys)
    ensures var after := AfterAction(before, action);
      && after.lists.Keys == before.lists.Keys && after.emitting == before.emitting
      && after.lists[sender] == OwnList(sender, list, actions, before.lists.Keys)
  {
    if action.Disconnecting? && action.sender == sender {
      var now := before.lists[sender];
      if now != [] {
        DisconnectedAt(now, action.signal, action.receiver, action.slot, 0);
      }
      forall i: nat | i < |now|
        ensures Disconnected(now, action.signal, action.receiver, action.slot, true)[i]
          == OwnList(sender, list, actions, before.lists.Keys)[i]
      {
        DisconnectedAt(now, action.signal, action.receiver, action.slot, i);
      }
    }
  }

  // ---------- The turns of emissions ----------

  /**
    An emission's turn at one of its connections: how many emissions it is nested in, what there is at that moment, the
    connection, and whether its slot is called.
   */
  datatype Turn = Turn(depth: nat, sender: Object, world: World, connection: Connection, isCalled: bool) {
    /** The sender's list at that moment. */
    function Now(): seq<Connection> {
      ListOf(world, sender)
    }
  }

  /** All turns of all emissions, in the order in which they come; a turn is noted before its slot is called. */
  class EmissionLog {
    ghost var turns: seq<Turn>

    constructor ()
      ensures turns == []
    {
      turns := [];
    }
  }

  /** The turns since, of this emission and of those nested in it. */
  ghost predicate IsContinued(before: seq<Turn>, after: seq<Turn>, depth: nat) {
    before <= after && forall i :: |before| <= i < |after| ==> after[i].depth >= depth
  }

  /** The turns since of this emission itself. */
  ghost function OwnTurns(before: seq<Turn>, after: seq<Turn>, depth: nat): seq<Turn>
    decreases |after|
  {
    if |after| <= |before| then [] else
      var last := |after| - 1;
      OwnTurns(before, after[..last], depth) + (if after[last].depth == depth then [after[last]] else [])
  }

  lemma {:induction false} OwnTurnsGoOn(before: seq<Turn>, middle: seq<Turn>, after: seq<Turn>, depth: nat)
    requires before <= middle <= after
    ensures OwnTurns(before, after, depth) == OwnTurns(before, middle, depth) + OwnTurns(middle, after, depth)
    decreases |after|
  {
    if |after| > |middle| {
      OwnTurnsGoOn(before, middle, after[..|after| - 1], depth);
    } else {
      assert after == middle;
    }
  }

  lemma {:induction false} DeeperTurnsAreNotOwn(before: seq<Turn>, after: seq<Turn>, depth: nat)
    requires IsContinued(before, after, depth + 1)
    ensures OwnTurns(before, after, depth) == []
    decreases |after|
  {
    if |after| > |before| {
      DeeperTurnsAreNotOwn(before, after[..|after| - 1], depth);
    }
  }

  /** The positions of the connections whose slots are called. */
  ghost function CallsOf(turns: seq<Turn>): seq<nat> {
    if turns == [] then [] else
      var last := |turns| - 1;
      CallsOf(turns[..last]) + (if turns[last].isCalled then [last] else [])
  }

  /** The turn at the i-th connection takes it as it then is, and calls its slot if it is alive and listens. */
  ghost predicate IsTurn(t: Turn, i: nat, emitting: Action, first: World, depth: nat)
    requires emitting.Emitting?
  {
    var start := ListOf(first, emitting.sender);
    && t.depth == depth && t.sender == emitting.sender && t.sender in t.world.lists && t.sender in t.world.emitting
    && i < |start| && IsEvolved(start, t.Now()) && t.connection == At(start, t.Now(), i)
    && (t.isCalled <==> t.connection.meta.Some? && t.connection.meta.value.signal == emitting.signal)
  }

  /** From one turn to what comes after it: exactly what the slot does, if it is called, and it is the k-th called. */
  ghost predicate IsNext(t: Turn, k: nat, emitting: Action, w: World)
    requires emitting.Emitting?
  {
    && w == (if t.isCalled then AfterCall(t.world, emitting, k) else t.world)
    && (t.sender in w.lists ==> IsEvolved(t.Now(), ListOf(w, t.sender)))
  }

  ghost predicate FollowsAt(turns: seq<Turn>, emitting: Action, i: nat)
    requires 1 <= i < |turns| && emitting.Emitting?
  {
    IsNext(turns[i - 1], |CallsOf(turns[..i - 1])|, emitting, turns[i].world)
  }

  /** The turns of an emission, one for each connection there was at its start, in list order. */
  ghost predicate AreTurns(turns: seq<Turn>, emitting: Action, first: World, depth: nat)
    requires emitting.Emitting?
  {
    && (forall i: nat {:trigger IsTurn(turns[i], i, emitting, first, depth)} :: i < |turns| ==>
      IsTurn(turns[i], i, emitting, first, depth))
    && (turns != [] ==> turns[0].world == first)
    && (forall i: nat {:trigger FollowsAt(turns, emitting, i)} :: 1 <= i < |turns| ==> FollowsAt(turns, emitting, i))
  }

  /** What these turns have left. */
  ghost predicate IsAfter(turns: seq<Turn>, emitting: Action, first: World, w: World)
    requires emitting.Emitting?
  {
    if turns == [] then w == first else
      var last := |turns| - 1;
      IsNext(turns[last], |CallsOf(turns[..last])|, emitting, w)
  }

  lemma {:induction false} EvolvedBetweenTurns(turns: seq<Turn>, emitting: Action, first: World, depth: nat, j: nat,
      i: nat)
    requires emitting.Emitting? && AreTurns(turns, emitting, first, depth) && j <= i < |turns|
    ensures IsEvolved(turns[j].Now(), turns[i].Now())
  {
    var a, b := turns[j].Now(), turns[i].Now();
    if j == i {
      assert a == b;
    } else {
      EvolvedBetweenTurns(turns, emitting, first, depth, j, i - 1);
      assert FollowsAt(turns, emitting, i) && IsTurn(turns[i], i, emitting, first, depth);
      assert IsTurn(turns[i - 1], i - 1, emitting, first, depth);
      EvolvedIsTransitive(a, turns[i - 1].Now(), b);
    }
  }

  /** A connection that is dead in a list stays dead in every list that evolves from it. */
  lemma DeadStaysDead(start: seq<Connection>, a: seq<Connection>, b: seq<Connection>, i: nat)
    requires IsEvolved(start, a) && IsEvolved(a, b) && i < |start| && At(start, a, i).meta.None?
    ensures At(start, b, i).meta.None?
  {
    assert IsEvolvedAt(a, b, |a| - |start| + i);
  }

  /**
    A connection that a slot has disconnected before its turn, or whose receiver it has destroyed, is not called: if the
    connection is dead at any turn up to its own, its slot is not called.
   */
  lemma {:induction false} DisconnectedIsNotCalled(turns: seq<Turn>, emitting: Action, first: World, depth: nat,
      j: nat, i: nat)
    requires emitting.Emitting? && AreTurns(turns, emitting, first, depth) && j <= i < |turns|
    requires var start := ListOf(first, emitting.sender);
      i < |start| <= |turns[j].Now()| && At(start, turns[j].Now(), i).meta.None?
    ensures !turns[i].isCalled
  {
    assert IsTurn(turns[j], j, emitting, first, depth) && IsTurn(turns[i], i, emitting, first, depth);
    EvolvedBetweenTurns(turns, emitting, first, depth, j, i);
    DeadStaysDead(ListOf(first, emitting.sender), turns[j].Now(), turns[i].Now(), i);
  }

  lemma {:induction false} CallsAreInOrder(turns: seq<Turn>)
    ensures forall i: nat {:trigger i in CallsOf(turns)} :: i in CallsOf(turns) <==> i < |turns| && turns[i].isCalled
    ensures forall k, l :: 0 <= k < l < |CallsOf(turns)| ==> CallsOf(turns)[k] < CallsOf(turns)[l]
  {
    if turns != [] {
      var last := |turns| - 1;
      var calls, before := CallsOf(turns), CallsOf(turns[..last]);
      CallsAreInOrder(turns[..last]);
      forall k | 0 <= k < |before| ensures before[k] < last {
        assert before[k] in before;
      }
      assert calls == before + (if turns[last].isCalled then [last] else []);
      forall i: nat ensures i in calls <==> i < |turns| && turns[i].isCalled {
        assert i in calls <==> i in before || (i == last && turns[last].isCalled);
      }
    }
  }

  /**
    Of the connections there were when an emission started, one that was dead is not called, and one that is still
    alive when it ends is called exactly if it listens to the signal.
   */
  lemma {:induction false} SurvivorsAreCalled(turns: seq<Turn>, emitting: Action, first: World, end: World,
      depth: nat, i: nat)
    requires emitting.Emitting? && AreTurns(turns, emitting, first, depth) && IsAfter(turns, emitting, first, end)
    requires |turns| == |ListOf(first, emitting.sender)| && i < |turns| && emitting.sender in end.lists
    ensures var start, now := ListOf(first, emitting.sender), ListOf(end, emitting.sender);
      && (start[i].meta.None? ==> !turns[i].isCalled)
      && |start| <= |now|
      && (At(start, now, i).meta.Some? ==> (turns[i].isCalled <==> Listens(start[i], emitting.signal)))
  {
    var start, now, last := ListOf(first, emitting.sender), ListOf(end, emitting.sender), |turns| - 1;
    assert IsTurn(turns[i], i, emitting, first, depth) && IsTurn(turns[last], last, emitting, first, depth);
    assert IsEvolvedAt(start, turns[i].Now(), i);
    EvolvedBetweenTurns(turns, emitting, first, depth, i, last);
    EvolvedIsTransitive(turns[i].Now(), turns[last].Now(), now);
    if turns[i].connection.meta.None? {
      DeadStaysDead(start, turns[i].Now(), now, i);
    }
  }

  /** After a called turn whose slot connects and disconnects, the sender's list is what these actions make of it. */
  lemma CalledTurnActs(t: Turn, k: nat, emitting: Action, w: World)
    requires emitting.Emitting? && IsNext(t, k, emitting, w) && t.isCalled && k < |emitting.reactions|
    requires t.sender in t.world.lists && t.sender in t.world.emitting && AreConnections(emitting.reactions[k].actions)
    ensures ListOf(w, t.sender) == OwnList(t.sender, t.Now(), emitting.reactions[k].actions, t.world.lists.Keys)
  {
    var reaction := emitting.reactions[k];
    ActionsOnOwnList(t.world, t.sender, reaction, |reaction.actions|);
    assert reaction.actions[..|reaction.actions|] == reaction.actions;
  }

  lemma CallsOfMore(turns: seq<Turn>, t: Turn)
    ensures CallsOf(turns + [t]) == CallsOf(turns) + (if t.isCalled then [|turns|] else [])
  {
    assert (turns + [t])[..|turns|] == turns;
  }

  lemma AfterLastTurn(turns: seq<Turn>, t: Turn, emitting: Action, first: World, w: World)
    requires emitting.Emitting?
    ensures IsAfter(turns + [t], emitting, first, w) <==> IsNext(t, |CallsOf(turns)|, emitting, w)
  {
    assert (turns + [t])[..|turns|] == turns;
  }

  /** One turn more, at the next connection. */
  lemma {:induction false} WalkedOn(turns: seq<Turn>, t: Turn, emitting: Action, first: World, depth: nat)
    requires emitting.Emitting? && AreTurns(turns, emitting, first, depth)
    requires IsAfter(turns, emitting, first, t.world) && IsTurn(t, |turns|, emitting, first, depth)
    ensures AreTurns(turns + [t], emitting, first, depth)
  {
    var more := turns + [t];
    forall i: nat | i < |more| ensures IsTurn(more[i], i, emitting, first, depth) {
      assert i < |turns| ==> IsTurn(turns[i], i, emitting, first, depth);
    }
    forall i: nat | 1 <= i < |more| ensures FollowsAt(more, emitting, i) {
      assert more[..i - 1] == turns[..i - 1];
      assert i < |turns| ==> FollowsAt(turns, emitting, i);
    }
  }

  /** The turns of an emission are determined by what there is at its start. */
  lemma {:induction false} TurnsAreDetermined(turns: seq<Turn>, emitting: Action, first: World, depth: nat, i: nat)
    requires emitting.Emitting? && AreTurns(turns, emitting, first, depth) && i < |turns|
    ensures AfterTurns(first, emitting, i) == Progress(turns[i].world, |CallsOf(turns[..i])|)
    decreases i
  {
    if i > 0 {
      TurnsAreDetermined(turns, emitting, first, depth, i - 1);
      assert FollowsAt(turns, emitting, i) && IsTurn(turns[i - 1], i - 1, emitting, first, depth);
      assert turns[..i] == turns[..i - 1] + [turns[i - 1]];
      CallsOfMore(turns[..i - 1], turns[i - 1]);
    }
  }

  lemma {:induction false} AllTurnsAreDetermined(turns: seq<Turn>, emitting: Action, first: World, depth: nat,
      w: World)
    requires emitting.Emitting? && AreTurns(turns, emitting, first, depth) && IsAfter(turns, emitting, first, w)
    ensures AfterTurns(first, emitting, |turns|).world == w
  {
    if turns != [] {
      var last := |turns| - 1;
      TurnsAreDetermined(turns, emitting, first, depth, last);
      assert IsTurn(turns[last], last, emitting, first, depth);
    }
  }

  lemma {:induction false} NoTurnWithoutSender(first: World, emitting: Action, n: nat, m: nat)
    requires emitting.Emitting? && n <= m && emitting.sender !in AfterTurns(first, emitting, n).world.lists
    ensures AfterTurns(first, emitting, m) == AfterTurns(first, emitting, n)
    decreases m
  {
    if n < m {
      NoTurnWithoutSender(first, emitting, n, m - 1);
    }
  }

  /**
    What an emission makes of the objects is what its turns do one after the other, each of them nothing or exactly the
    actions of the next reaction, until there are none left or the sender is gone; and then the clean-up.
   */
  lemma {:induction false} EmissionIsItsTurns(turns: seq<Turn>, emitting: Action, w: World, depth: nat, end: World)
    requires emitting.Emitting? && emitting.sender in w.lists
    requires var first := Started(w, emitting.sender);
      AreTurns(turns, emitting, first, depth) && IsAfter(turns, emitting, first, end)
    requires |turns| == |w.lists[emitting.sender]| || emitting.sender !in end.lists
    requires |turns| <= |w.lists[emitting.sender]|
    ensures AfterAction(w, emitting) == Finished(end, emitting.sender, emitting.sender !in w.emitting)
  {
    var first := Started(w, emitting.sender);
    AllTurnsAreDetermined(turns, emitting, first, depth, end);
    if emitting.sender !in end.lists {
      NoTurnWithoutSender(first, emitting, |turns|, |w.lists[emitting.sender]|);
    }
  }

  /** Carries out what a slot does, as far as the objects it speaks of exist. */
  method Perform(world: set<Object>, reaction: Reaction, ghost before: map<Object, Held>, log: EmissionLog,
      ghost depth: nat) returns (rest: set<Object>)
    requires Invariant(world) && IsKept(before, world)
    modifies world`connections, world`connectedEmitters, world`isEmitting, world`hasToCleanupConnections
    modifies world`destroyed, Flags(before), log
    ensures rest <= world && Invariant(rest) && IsKept(before, rest) && IsContinued(old(log.turns), log.turns, depth)
    ensures WorldOf(rest) == AfterActions(old(WorldOf(world)), reaction, |reaction.actions|)
    decreases reaction, 0
  {
    rest := world;
    for i := 0 to |reaction.actions|
      invariant rest <= world && Invariant(rest) && IsKept(before, rest)
      invariant IsContinued(old(log.turns), log.turns, depth)
      invariant WorldOf(rest) == AfterActions(old(WorldOf(world)), reaction, i)
    {
      rest := PerformAction(rest, reaction.actions[i], before, log, depth);
    }
  }

  method PerformAction(world: set<Object>, action: Action, ghost before: map<Object, Held>, log: EmissionLog,
      ghost depth: nat)
    returns (rest: set<Object>)
    requires Invariant(world) && IsKept(before, world)
    modifies world`connections, world`connectedEmitters, world`isEmitting, world`hasToCleanupConnections
    modifies world`destroyed, Flags(before), log
    ensures rest <= world && Invariant(rest) && IsKept(before, rest) && IsContinued(old(log.turns), log.turns, depth)
    ensures WorldOf(rest) == AfterAction(old(WorldOf(world)), action)
    decreases action, 6
  {
    rest := world;
    match action
    case Connecting(sender, signal, receiver, slot) =>
      if sender in rest && (receiver == null || receiver in rest) {
        ConnectInSlot(rest, sender, signal, receiver, slot, before);
      }
    case Disconnecting(sender, signal, receiver, slot) =>
      if sender in rest {
        DisconnectInSlot(rest, sender, signal, receiver, slot, before);
      }
    case Emitting(sender, signal, reactions) =>
      if sender in rest {
        ghost var end;
        rest, end := EmitSignal(rest, action, before, log, depth);
      }
    case Destroying(o) =>
      if o in rest && CanBeDestroyed(rest, o) {
        rest := DestroyInSlot(rest, o, before);
      }
  }

  /** The outermost emission of a sender makes the flag that the nested ones use. */
  method StartEmitting(ghost world: set<Object>, sender: Object, ghost before: map<Object, Held>)
    returns (flag: Flag)
    requires Invariant(world) && IsKept(before, world) && sender in world
    modifies sender`isEmitting, sender`destroyed
    ensures Invariant(world) && sender.isEmitting && WorldOf(world) == Started(old(WorldOf(world)), sender)
    ensures IsKept(before[sender := Held(sender.connections, flag)], world)
    ensures if old(sender.isEmitting) then sender in before && flag == before[sender].flag else fresh(flag)
  {
    assert IsHeld(sender, before, world) && IsSeen(sender, before) && IsClean(sender);
    if sender.isEmitting {
      flag := sender.destroyed;
    } else {
      flag := new Flag(sender);
    }
    ghost var inner := before[sender := Held(sender.connections, flag)];
    forall o | o in inner && o != sender ensures IsHeld(o, inner, world) {
      assert IsHeld(o, before, world);
    }
    forall o | o in world && o != sender ensures IsSeen(o, inner) {
      assert IsSeen(o, before);
    }
    MarkEmitting(world, sender, flag);
    assert IsHeld(sender, inner, world) && IsSeen(sender, inner);
  }

  method MarkEmitting(ghost world: set<Object>, sender: Object, flag: Flag)
    requires Invariant(world) && sender in world
    modifies sender`isEmitting, sender`destroyed
    ensures Invariant(world) && sender.isEmitting && sender.destroyed == flag
  {
    sender.destroyed := flag;
    sender.isEmitting := true;
    forall o | o in world ensures IsClean(o) {
      assert old(IsClean(o));
    }
  }

  lemma KeptSinceStart(world: set<Object>, sender: Object, start: seq<Connection>, before: map<Object, Held>)
    requires sender in before && IsEvolved(before[sender].connections, start)
    requires IsKept(before[sender := Held(start, before[sender].flag)], world)
    ensures IsKept(before, world)
  {
    var inner := before[sender := Held(start, before[sender].flag)];
    forall o | o in world ensures IsSeen(o, before) {
      assert IsSeen(o, inner);
    }
    forall o | o in before ensures IsHeld(o, before, world) {
      assert IsHeld(o, inner, world);
      if o == sender && o in world {
        EvolvedIsTransitive(before[o].connections, start, o.connections);
      }
    }
  }

  /** What an emission whose sender is gone has kept of the others. */
  lemma KeptWithoutSender(world: set<Object>, sender: Object, h: Held, before: map<Object, Held>)
    requires sender !in world && IsKept(before[sender := h], world)
    requires sender in before ==> h.flag == before[sender].flag
    ensures IsKept(before, world)
  {
    var inner := before[sender := h];
    forall o | o in world ensures IsSeen(o, before) {
      assert IsSeen(o, inner);
    }
    forall o | o in before ensures IsHeld(o, before, world) {
      assert IsHeld(o, inner, world);
    }
  }

  lemma KeptFromNow(world: set<Object>, sender: Object, inner: map<Object, Held>)
    requires IsKept(inner, world) && sender in inner && sender in world
    ensures IsKept(inner[sender := Held(sender.connections, inner[sender].flag)], world)
  {
    var current := inner[sender := Held(sender.connections, inner[sender].flag)];
    assert IsHeld(sender, inner, world);
    forall o | o in current ensures IsHeld(o, current, world) {
      assert IsHeld(o, inner, world);
    }
    forall o | o in world ensures IsSeen(o, current) {
      assert IsSeen(o, inner);
    }
  }

  /** The turn is noted, and then the slot does what it does. */
  method React(world: set<Object>, sender: Object, c: Connection, emitting: Action, k: nat,
      ghost current: map<Object, Held>, log: EmissionLog, ghost depth: nat)
    returns (rest: set<Object>)
    requires Invariant(world) && IsKept(current, world) && emitting.Emitting?
    modifies world`connections, world`connectedEmitters, world`isEmitting, world`hasToCleanupConnections
    modifies world`destroyed, Flags(current), log
    ensures rest <= world && Invariant(rest) && IsKept(current, rest)
    ensures IsContinued(old(log.turns), log.turns, depth)
    ensures OwnTurns(old(log.turns), log.turns, depth) == [Turn(depth, sender, old(WorldOf(world)), c, true)]
    ensures WorldOf(rest) == AfterCall(old(WorldOf(world)), emitting, k)
    decreases emitting, 0
  {
    ghost var t := Turn(depth, sender, WorldOf(world), c, true);
    log.turns := log.turns + [t];
    ghost var called := log.turns;
    rest := world;
    if k < |emitting.reactions| {
      rest := Perform(world, emitting.reactions[k], current, log, depth + 1);
    }
    OneTurnAndDeeper(old(log.turns), called, log.turns, t);
  }

  /** A slot is called while its sender emits. */
  method CallSlot(world: set<Object>, sender: Object, c: Connection, emitting: Action, k: nat,
      ghost inner: map<Object, Held>, log: EmissionLog, ghost depth: nat)
    returns (rest: set<Object>)
    requires Invariant(world) && IsKept(inner, world) && sender in inner && sender in world && emitting.Emitting?
    modifies world`connections, world`connectedEmitters, world`isEmitting, world`hasToCleanupConnections
    modifies world`destroyed, Flags(inner), log
    ensures rest <= world && Invariant(rest) && IsKept(inner, rest)
    ensures sender in rest ==> IsEvolved(old(sender.connections), sender.connections)
    ensures IsContinued(old(log.turns), log.turns, depth)
    ensures OwnTurns(old(log.turns), log.turns, depth) == [Turn(depth, sender, old(WorldOf(world)), c, true)]
    ensures WorldOf(rest) == AfterCall(old(WorldOf(world)), emitting, k)
    decreases emitting, 1
  {
    ghost var now := sender.connections;
    ghost var current := inner[sender := Held(now, inner[sender].flag)];
    KeptFromNow(world, sender, inner);
    FlagsOfUpdate(inner, sender, current[sender]);
    assert IsHeld(sender, inner, world);
    rest := React(world, sender, c, emitting, k, current, log, depth);
    assert IsHeld(sender, current, rest);
    assert inner == current[sender := inner[sender]];
    KeptSinceStart(rest, sender, now, inner);
  }

  lemma OneTurnAndDeeper(before: seq<Turn>, called: seq<Turn>, after: seq<Turn>, t: Turn)
    requires called == before + [t] && IsContinued(called, after, t.depth + 1)
    ensures IsContinued(before, after, t.depth) && OwnTurns(before, after, t.depth) == [t]
  {
    OwnTurnsGoOn(before, called, after, t.depth);
    DeeperTurnsAreNotOwn(called, after, t.depth);
    assert called[..|before|] == before;
  }

  lemma UnlinkedDead(all: seq<Connection>, j: nat, now: seq<Connection>)
    requires j < |all| && now == Live(all[..j]) + all[j..]
    ensures var i := |Live(all[..j])|;
      && now[i] == all[j]
      && (if all[j].meta.Some? then now == Live(all[..j + 1]) + all[j + 1..] && |Live(all[..j + 1])| == i + 1
          else now[..i] + now[i + 1..] == Live(all[..j + 1]) + all[j + 1..] && |Live(all[..j + 1])| == i)
  {
    assert all[..j + 1][..j] == all[..j];
    assert now == Live(all[..j]) + ([all[j]] + all[j + 1..]);
  }

  /** Unlinks the dead connections of a sender. */
  method Cleanup(ghost world: set<Object>, sender: Object)
    requires IsRegistered(world, null, null) && sender in world
    modifies sender`connections
    ensures IsRegistered(world, null, null) && sender.connections == Live(old(sender.connections))
  {
    ghost var all := sender.connections;
    ghost var j: nat := 0;
    var i: nat := 0;
    while i < |sender.connections|
      invariant IsRegistered(world, null, null) && j <= |all|
      invariant i == |Live(all[..j])| && sender.connections == Live(all[..j]) + all[j..]
      decreases |all| - j
    {
      UnlinkedDead(all, j, sender.connections);
      if sender.connections[i].meta.None? {
        Unlink(world, sender, i, null, null);
      } else {
        i := i + 1;
      }
      j := j + 1;
    }
    assert all[..j] == all;
  }

  lemma LiveOne(c: Connection)
    ensures Live([c]) == if c.meta.None? then [] else [c]
  {
    assert [c][..0] == [];
  }

  /** Cleaning up takes exactly the dead connections, each on its own, and keeps the others in order. */
  lemma {:induction false} LiveConcat(a: seq<Connection>, b: seq<Connection>)
    ensures Live(a + b) == Live(a) + Live(b)
    decreases |b|
  {
    if b == [] {
      assert a + b == a;
    } else {
      var init, last := b[..|b| - 1], b[|b| - 1];
      LiveConcat(a, init);
      assert (a + b)[..|a + b| - 1] == a + init && (a + b)[|a + b| - 1] == last;
      var end := if last.meta.Some? then [last] else [];
      assert (Live(a) + Live(init)) + end == Live(a) + (Live(init) + end);
    }
  }

  lemma {:induction false} LiveHasNoDead(connections: seq<Connection>)
    ensures forall i :: 0 <= i < |Live(connections)| ==> Live(connections)[i].meta.Some?
    ensures (forall i :: 0 <= i < |connections| ==> connections[i].meta.Some?) ==> Live(connections) == connections
  {
    if connections != [] {
      LiveHasNoDead(connections[..|connections| - 1]);
    }
  }

  /** The outermost emission ends. */
  method StopEmitting(ghost world: set<Object>, sender: Object, ghost inner: map<Object, Held>,
      ghost before: map<Object, Held>)
    requires Invariant(world) && IsKept(inner, world) && sender in world && sender !in before
    requires inner.Keys == before.Keys + {sender}
    requires forall o :: o in before ==> before[o] == inner[o]
    modifies sender`isEmitting, sender`destroyed, sender`hasToCleanupConnections, sender`connections
    ensures Invariant(world) && IsKept(before, world)
    ensures !sender.isEmitting && sender.connections == Live(old(sender.connections))
  {
    FinishEmitting(world, sender);
    forall o | o in before ensures IsHeld(o, before, world) {
      assert old(IsHeld(o, inner, world));
    }
    forall o | o in world ensures IsSeen(o, before) {
      assert old(IsSeen(o, inner));
    }
  }

  method FinishEmitting(ghost world: set<Object>, sender: Object)
    requires Invariant(world) && sender in world
    modifies sender`isEmitting, sender`destroyed, sender`hasToCleanupConnections, sender`connections
    ensures Invariant(world) && !sender.isEmitting && sender.connections == Live(old(sender.connections))
  {
    assert IsClean(sender);
    sender.isEmitting := false;
    sender.destroyed := null;
    CleanupIfNecessary(world, sender);
    forall o | o in world ensures IsClean(o) {
      assert o != sender ==> old(IsClean(o));
    }
  }

  method CleanupIfNecessary(ghost world: set<Object>, sender: Object)
    requires IsRegistered(world, null, null) && sender in world
    requires !sender.isEmitting && sender.destroyed == null
    requires !sender.hasToCleanupConnections ==> forall i :: 0 <= i < |sender.connections| ==>
      sender.connections[i].meta.Some?
    modifies sender`hasToCleanupConnections, sender`connections
    ensures IsRegistered(world, null, null) && sender.connections == Live(old(sender.connections))
    ensures IsClean(sender)
  {
    LiveHasNoDead(sender.connections);
    if sender.hasToCleanupConnections {
      sender.hasToCleanupConnections := false;
      Cleanup(world, sender);
    }
  }

  /** One turn: the connection's slot is called if it listens to the signal. */
  method CallIfListening(world: set<Object>, sender: Object, c: Connection, emitting: Action, k: nat,
      ghost inner: map<Object, Held>, log: EmissionLog, ghost depth: nat)
    returns (rest: set<Object>)
    requires Invariant(world) && IsKept(inner, world) && sender in inner && sender in world && emitting.Emitting?
    modifies world`connections, world`connectedEmitters, world`isEmitting, world`hasToCleanupConnections
    modifies world`destroyed, Flags(inner), log
    ensures rest <= world && Invariant(rest) && IsKept(inner, rest)
    ensures IsContinued(old(log.turns), log.turns, depth)
    ensures var t := Turn(depth, sender, old(WorldOf(world)), c, Listens(c, emitting.signal));
      OwnTurns(old(log.turns), log.turns, depth) == [t] && IsNext(t, k, emitting, WorldOf(rest))
    decreases emitting, 2
  {
    assert IsHeld(sender, inner, world);
    rest := world;
    if Listens(c, emitting.signal) {
      rest := CallSlot(world, sender, c, emitting, k, inner, log, depth);
    } else {
      ghost var t := Turn(depth, sender, WorldOf(world), c, false);
      log.turns := log.turns + [t];
      OneTurnAndDeeper(old(log.turns), log.turns, log.turns, t);
    }
  }

  /**
    One turn of an emission: the walk's position is right however many connections have come in front or died.
   */
  method CallNext(world: set<Object>, sender: Object, remaining: nat, emitting: Action, k: nat,
      ghost inner: map<Object, Held>, ghost first: World, ghost turns: seq<Turn>, log: EmissionLog,
      ghost depth: nat)
    returns (rest: set<Object>, next: nat, ghost more: seq<Turn>)
    requires Invariant(world) && IsKept(inner, world) && sender in inner && sender in world
    requires emitting.Emitting? && sender == emitting.sender && k == |CallsOf(turns)|
    requires var start := ListOf(first, sender);
      0 < remaining && |turns| + remaining == |start| && IsEvolved(start, sender.connections)
    requires AreTurns(turns, emitting, first, depth) && IsAfter(turns, emitting, first, WorldOf(world))
    modifies world`connections, world`connectedEmitters, world`isEmitting, world`hasToCleanupConnections
    modifies world`destroyed, Flags(inner), log
    ensures rest <= world && Invariant(rest) && IsKept(inner, rest)
    ensures IsContinued(old(log.turns), log.turns, depth)
    ensures more == turns + OwnTurns(old(log.turns), log.turns, depth) && |more| == |turns| + 1
    ensures AreTurns(more, emitting, first, depth) && IsAfter(more, emitting, first, WorldOf(rest))
    ensures next == |CallsOf(more)| && (sender in rest ==> IsEvolved(ListOf(first, sender), sender.connections))
    decreases emitting, 3
  {
    assert IsHeld(sender, inner, world);
    ghost var now, start := sender.connections, ListOf(first, sender);
    var c := sender.connections[|sender.connections| - remaining];
    ghost var t := Turn(depth, sender, WorldOf(world), c, Listens(c, emitting.signal));
    assert c == At(start, now, |turns|);
    WalkedOn(turns, t, emitting, first, depth);
    rest := CallIfListening(world, sender, c, emitting, k, inner, log, depth);
    more := turns + [t];
    next := if Listens(c, emitting.signal) then k + 1 else k;
    CallsOfMore(turns, t);
    AfterLastTurn(turns, t, emitting, first, WorldOf(rest));
    if sender in rest {
      EvolvedIsTransitive(start, now, sender.connections);
    }
  }

  /** An emission ends; unless the flag is set, the outermost one of its sender unlinks the dead connections. */
  method EndEmission(ghost rest: set<Object>, sender: Object, isFirstToEmit: bool, flag: Flag,
      ghost start: seq<Connection>, ghost before: map<Object, Held>)
    requires Invariant(rest) && IsKept(before[sender := Held(start, flag)], rest)
    requires if isFirstToEmit then sender !in before
             else sender in before && flag == before[sender].flag && IsEvolved(before[sender].connections, start)
    modifies sender`isEmitting, sender`destroyed, sender`hasToCleanupConnections, sender`connections
    ensures Invariant(rest) && IsKept(before, rest)
    ensures WorldOf(rest) == Finished(old(WorldOf(rest)), sender, isFirstToEmit)
  {
    ghost var inner := before[sender := Held(start, flag)];
    assert IsHeld(sender, inner, rest);
    if flag.isSet {
      KeptWithoutSender(rest, sender, inner[sender], before);
    } else if isFirstToEmit {
      StopEmitting(rest, sender, inner, before);
    } else {
      KeptSinceStart(rest, sender, start, before);
    }
  }

  /**
    One emission, possibly within others: it takes the connections that were there at its start in list order, each as
    it is at its turn, and calls exactly those that listen to the signal and are then alive. The j-th call is followed
    by exactly the actions of the j-th reaction, and nothing else changes anything meanwhile. Nothing is unlinked before
    the outermost emission of the sender ends; then exactly the dead connections go. If a slot destroys the sender, its
    call is the last one of the emission and of those of the same sender around it.
   */
  method EmitSignal(world: set<Object>, emitting: Action, ghost before: map<Object, Held>, log: EmissionLog,
      ghost depth: nat)
    returns (rest: set<Object>, ghost end: World)
    requires Invariant(world) && IsKept(before, world) && emitting.Emitting? && emitting.sender in world
    modifies world`connections, world`connectedEmitters, world`isEmitting, world`hasToCleanupConnections
    modifies world`destroyed, Flags(before), log
    ensures rest <= world && Invariant(rest) && IsKept(before, rest)
    ensures IsContinued(old(log.turns), log.turns, depth)
    ensures var sender := emitting.sender;
      var first, turns := Started(old(WorldOf(world)), sender), OwnTurns(old(log.turns), log.turns, depth);
      && AreTurns(turns, emitting, first, depth) && IsAfter(turns, emitting, first, end)
      && (sender in end.lists ==> |turns| == |ListOf(first, sender)|)
      && |turns| <= |ListOf(first, sender)|
      && WorldOf(rest) == Finished(end, sender, !old(sender.isEmitting))
    ensures WorldOf(rest) == AfterAction(old(WorldOf(world)), emitting)
    decreases emitting, 5
  {
    var sender := emitting.sender;
    var isFirstToEmit := !sender.isEmitting;
    ghost var start, w := sender.connections, WorldOf(world);
    assert IsHeld(sender, before, world) && IsSeen(sender, before);
    var flag := StartEmitting(world, sender, before);
    ghost var inner := before[sender := Held(start, flag)];
    FlagsOfUpdate(before, sender, inner[sender]);
    ghost var turns;
    rest, turns := CallAll(world, sender, emitting, flag, inner, WorldOf(world), log, depth);
    end := WorldOf(rest);
    EmissionIsItsTurns(turns, emitting, w, depth, end);
    EndEmission(rest, sender, isFirstToEmit, flag, start, before);
  }

  /** All turns of an emission. */
  method CallAll(world: set<Object>, sender: Object, emitting: Action, flag: Flag, ghost inner: map<Object, Held>,
      ghost first: World, log: EmissionLog, ghost depth: nat)
    returns (rest: set<Object>, ghost turns: seq<Turn>)
    requires Invariant(world) && IsKept(inner, world) && emitting.Emitting? && sender == emitting.sender
    requires sender in inner && sender in world && inner[sender] == Held(sender.connections, flag)
    requires first == WorldOf(world)
    modifies world`connections, world`connectedEmitters, world`isEmitting, world`hasToCleanupConnections
    modifies world`destroyed, Flags(inner), log
    ensures rest <= world && Invariant(rest) && IsKept(inner, rest)
    ensures IsContinued(old(log.turns), log.turns, depth) && turns == OwnTurns(old(log.turns), log.turns, depth)
    ensures AreTurns(turns, emitting, first, depth) && IsAfter(turns, emitting, first, WorldOf(rest))
    ensures |turns| <= |ListOf(first, sender)| && (sender in rest ==> |turns| == |ListOf(first, sender)|)
    decreases emitting, 4
  {
    ghost var start := sender.connections;
    assert IsHeld(sender, inner, world) && ListOf(first, sender) == start;
    turns := [];
    var remaining: nat, k: nat := |sender.connections|, 0;
    rest := world;
    while remaining > 0 && !flag.isSet
      invariant flag.isSet <==> sender !in rest
      invariant rest <= world && Invariant(rest) && IsKept(inner, rest)
      invariant IsContinued(old(log.turns), log.turns, depth) && turns == OwnTurns(old(log.turns), log.turns, depth)
      invariant AreTurns(turns, emitting, first, depth) && IsAfter(turns, emitting, first, WorldOf(rest))
      invariant |turns| + remaining == |start| && k == |CallsOf(turns)|
      invariant sender in rest ==> IsEvolved(start, sender.connections)
      decreases remaining
    {
      ghost var soFar := log.turns;
      rest, k, turns := CallNext(rest, sender, remaining, emitting, k, inner, first, turns, log, depth);
      OwnTurnsGoOn(old(log.turns), soFar, log.turns, depth);
      assert IsHeld(sender, inner, rest);
      remaining := remaining - 1;
    }
  }

  /** A sender with one connection to a receiver starts to emit. */
  method StartOfEmission() returns (sender: Object, receiver: Object, flag: Flag)
    ensures fresh(sender) && fresh(receiver) && fresh(flag) && sender != receiver
    ensures Invariant({sender, receiver}) && CanBeDestroyed({sender, receiver}, receiver)
    ensures sender.connections == [Connection(receiver, Some(Meta(1, 1)))]
    ensures IsKept(map[sender := Held(sender.connections, flag)], {sender, receiver}) && sender.isEmitting
  {
    sender := new Object();
    receiver := new Object();
    ghost var both := {sender, receiver};
    Connect(both, sender, 1, receiver, 1);
    flag := StartEmitting(both, sender, map[]);
    ghost var h := Held(sender.connections, flag);
    assert map[][sender := h] == map[sender := h];
    IdleObjectsCanBeDestroyed(both, receiver);
  }

  /** The slot of that connection destroys the receiver. */
  method ReceiverIsDestroyed(sender: Object, receiver: Object, ghost flag: Flag) returns (rest: set<Object>)
    requires sender != receiver && Invariant({sender, receiver}) && CanBeDestroyed({sender, receiver}, receiver)
    requires sender.connections == [Connection(receiver, Some(Meta(1, 1)))] && sender.isEmitting
    requires IsKept(map[sender := Held(sender.connections, flag)], {sender, receiver})
    modifies sender, receiver, flag
    ensures rest == {sender} && Invariant(rest) && sender.isEmitting
    ensures sender.connections == WithoutReceiver(old(sender.connections), receiver, true)
  {
    var log := new EmissionLog();
    var both := {sender, receiver};
    ghost var inner, w := map[sender := Held(sender.connections, flag)], WorldOf(both);
    var emitting := Emitting(sender, 1, [Reaction([Destroying(receiver)])]);
    assert w.lists.Keys == both;
    OneActionCalled(w, emitting, Destroying(receiver));
    OneOfTwoDestroyed(w, sender, receiver);
    rest := CallSlot(both, sender, sender.connections[0], emitting, 0, inner, log, 0);
    assert rest == WorldOf(rest).lists.Keys;
    assert IsHeld(sender, inner, rest);
    assert sender.connections == WorldOf(rest).lists[sender];
  }

  /**
    An emission starts, and the slot that it calls destroys the receiver: the sender's own destruction, while it still
    emits, would tell that receiver.
   */
  method DestroyedReceiverExample() returns (sender: Object, rest: set<Object>)
    ensures rest == {sender} && Invariant(rest) && sender.isEmitting && !CanBeDestroyed(rest, sender)
  {
    var receiver, flag;
    sender, receiver, flag := StartOfEmission();
    ghost var connections := sender.connections;
    rest := ReceiverIsDestroyed(sender, receiver, flag);
    assert rest == {sender, receiver} - {receiver} && connections[0].receiver == receiver;
    DestroyedReceiverIsStillTold(connections, receiver, {sender, receiver});
  }

  lemma OneOfTwoDestroyed(w: World, sender: Object, receiver: Object)
    requires sender != receiver && w.lists.Keys == {sender, receiver}
    requires HaveReceiversIn(w.lists.Keys, w.lists[receiver])
    ensures var after := AfterAction(w, Destroying(receiver));
      && after.lists.Keys == {sender}
      && after.lists[sender] == WithoutReceiver(w.lists[sender], receiver, sender in w.emitting)
  {
  }

  lemma OneActionCalled(w: World, emitting: Action, action: Action)
    requires emitting.Emitting? && emitting.reactions == [Reaction([action])]
    ensures AfterCall(w, emitting, 0) == AfterAction(w, action)
  {
    assert AfterActions(w, Reaction([action]), 0) == w;
    assert Reaction([action]).actions[0] == action;
  }

  /** A slot that disconnects its own connection: it is called, and nothing is left. */
  lemma CalledSlotExample(s: Object)
    ensures var emitting := Emitting(s, 1, [Reaction([Disconnecting(s, 1, null, 0)])]);
      AfterAction(World(map[s := [Connection(null, Some(Meta(1, 1)))]], {}), emitting) == World(map[s := []], {})
  {
    var c := Connection(null, Some(Meta(1, 1)));
    var w, disconnecting := World(map[s := [c]], {}), Disconnecting(s, 1, null, 0);
    var emitting, first := Emitting(s, 1, [Reaction([disconnecting])]), Started(w, s);
    OneActionCalled(first, emitting, disconnecting);
    DisconnectedOne(c, 1, null, 0, true);
    var end := AfterAction(first, disconnecting);
    assert end == World(map[s := [Killed(c)]], {s});
    assert AfterTurns(first, emitting, 0) == Progress(first, 0);
    assert AfterTurns(first, emitting, 1) == Progress(end, 1);
    assert Live([Killed(c)]) == [] by {
      assert [Killed(c)][..0] == [];
    }
    assert Finished(end, s, true) == World(map[s := []], {});
    assert |w.lists[s]| == 1 && s !in w.emitting;
  }
}
