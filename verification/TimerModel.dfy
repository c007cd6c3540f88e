/**
  The timer arithmetic of TimerNotifier and TimerWheel as functions of one timer and of the
  clock (the low-resolution tick counter and the seven wheel cursors).

  Every shift and mask of the source is by a wheel's resolution exponent, a multiple of six, so
  the bit functions take the wheel index: Shl, Shr and Low shift left, shift right and keep the
  low bits of a number by six bits per wheel.
 */
module TimerModel {

  const MAX_TIMEOUT: nat := 0x400_0000_0000 // 2^42 milliseconds
  const TWO_TO_THE_64: nat := 0x1_0000_0000_0000_0000
  const NSECS_PER_MSEC: nat := 1_000_000

  const WHEEL_IDX_MAP: seq<nat> :=
    [0, 0, 0, 0, 0, 0] +
    [1, 1, 1, 1, 1, 1] +
    [2, 2, 2, 2, 2, 2] +
    [3, 3, 3, 3, 3, 3] +
    [4, 4, 4, 4, 4, 4] +
    [5, 5, 5, 5, 5, 5] +
    [6, 6, 6, 6, 6, 6, 6] + [6, 6, 6, 6, 6, 6, 6] + [6, 6, 6, 6, 6, 6, 6] + [6, 6, 6, 6, 6, 6, 6]

  datatype TimerType = Precise | Coarse | VeryCoarse

  /** Where a timer is linked: in no list, in the notify list, or in a slot of a wheel. */
  datatype Place = Nowhere | Notify | InSlot(wheel: nat, slot: nat)

  datatype Timer = Timer(
    active: bool, place: Place, interval: int, timeout: int, extra: int,
    singleShot: bool, timerType: TimerType)

  type Cursor = c: nat | c < 64

  datatype Clock = Clock(counter: nat, cursors: seq<nat>)

  ghost predicate ValidCursors(clk: Clock) {
    |clk.cursors| == 7 && forall i :: 0 <= i < 7 ==> clk.cursors[i] < 64
  }

  // ----- bit functions

  /** The resolution of wheel `i`: 2^(6i) milliseconds. */
  function Res(i: nat): (r: nat)
    ensures r >= 1
  {
    if i == 0 then 1 else 64 * Res(i - 1)
  }

  function Shl(k: int, i: nat): int
    decreases i
  {
    if i == 0 then k else 64 * Shl(k, i - 1)
  }

  function Shr(x: int, i: nat): int
    decreases i
  {
    if i == 0 then x else Shr(x / 64, i - 1)
  }

  function Low(x: int, i: nat): (m: int)
    ensures 0 <= m < Res(i)
    decreases i
  {
    if i == 0 then 0 else x % 64 + 64 * Low(x / 64, i - 1)
  }

  function BitFloor(x: nat): nat {
    if x < 2 then x else 2 * BitFloor(x / 2)
  }

  /** Number of trailing zero bits of a positive number. */
  function CountrZero(x: nat): nat
    requires x > 0
  {
    if x % 2 == 1 then 0 else 1 + CountrZero(x / 2)
  }

  function AsUnsigned64(x: int): int {
    x % TWO_TO_THE_64
  }

  /** The entry of the source's table for a bit position. */
  function WheelIdxOfBit(bit: nat): (w: nat)
    ensures w <= 6
  {
    if bit < 36 then bit / 6 else 6
  }

  /** The 64-entry literal of the source. */
  lemma WheelIdxMapEntries(bit: nat)
    requires bit < 64
    ensures WHEEL_IDX_MAP[bit] == WheelIdxOfBit(bit)
  {
  }

  lemma BitFloorPositive(x: nat)
    requires x > 0
    ensures BitFloor(x) > 0
  {
  }

  /** The wheel chosen for a timeout. */
  function WheelFor(timeout: int): (w: nat)
    ensures w <= 6
  {
    var x: nat := if AsUnsigned64(timeout - 1) > 1 then AsUnsigned64(timeout - 1) else 1;
    BitFloorPositive(x);
    WheelIdxOfBit(CountrZero(BitFloor(x)))
  }

  predicate CanAdd(w: nat, timeout: int) {
    Res(w) <= timeout <= 64 * Res(w)
  }

  function SlotIdx(w: nat, timeout: int, cursor: nat): (s: nat)
    ensures s < 64
  {
    (Shr(timeout, w) - 1 + cursor) % 64
  }

  /** The largest wheel that ticks when the tick counter becomes `counter`. */
  function LargestWheelToTick(counter: nat): (w: nat)
    requires counter > 0
    ensures w <= 6
  {
    WheelIdxOfBit(CountrZero(64 * counter))
  }

  // ----- operations on one timer

  function Elapsed(now: int, since: int): (ms: nat) {
    if now > since then (now - since) / NSECS_PER_MSEC else 0
  }

  /** The correction taken from the clocks when a timer with a positive timeout is added. */
  function Correction(timerType: TimerType, timeout: int, highResEnabled: bool, lowElapsed: nat,
      highElapsed: nat): nat {
    if timerType != Precise && timeout >= 4096 then 0
    else if timeout > 64 then lowElapsed
    else if highResEnabled then highElapsed
    else 0
  }

  function AddAdjusted(t: Timer, clk: Clock): Timer
    requires ValidCursors(clk)
  {
    var a := t.(active := true);
    if a.timeout == 0 then
      a.(place := Notify)
    else
      var b := if AsUnsigned64(a.timeout + a.extra) > MAX_TIMEOUT then a.(extra := 0) else a;
      var w := WheelFor(b.timeout);
      if CanAdd(w, b.timeout) then b.(place := InSlot(w, SlotIdx(w, b.timeout, clk.cursors[w]))) else b
  }

  function Remove(t: Timer): Timer {
    if t.active then t.(active := false, place := Nowhere) else t
  }

  /** Timeout and extra timeout as computed before the timer is linked. */
  function Adjust(t: Timer, clk: Clock, d: nat): Timer
  {
    if t.interval > 0 then
      t.(timeout := t.interval, extra := d + Low(64 * clk.counter, WheelFor(t.interval)))
    else
      t.(timeout := t.interval, extra := 0)
  }

  /** True when the timer already is in the slot it would be moved to. */
  predicate KeepsSlot(t: Timer, clk: Clock)
    requires ValidCursors(clk)
  {
    && t.interval > 0
    && t.active
    && var w := WheelFor(t.interval);
       t.place == InSlot(w, SlotIdx(w, t.interval, clk.cursors[w]))
  }

  function Add(t: Timer, clk: Clock, d: nat): Timer
    requires ValidCursors(clk)
  {
    if KeepsSlot(t, clk) then Adjust(t, clk, d) else AddAdjusted(Remove(Adjust(t, clk, d)), clk)
  }

  /** What TimerWheel::tick leaves of a timer it expires. */
  function Expire(t: Timer): Timer
    requires t.place.InSlot?
  {
    t.(timeout := Low(t.timeout, t.place.wheel), place := Nowhere)
  }

  /** What processExpiredTimers makes of an expired timer. */
  function Reinsert(t: Timer, clk: Clock): Timer
    requires ValidCursors(clk)
  {
    AddAdjusted(t.(timeout := t.timeout + t.extra, extra := 0), clk)
  }

  function Bump(cursor: nat): nat {
    if cursor + 1 == 64 then 0 else cursor + 1
  }

  function LowClock(clk: Clock): (clk': Clock)
    requires ValidCursors(clk)
    ensures ValidCursors(clk')
  {
    var largest := LargestWheelToTick(clk.counter + 1);
    Clock(clk.counter + 1,
          seq(7, i requires 0 <= i < 7 => if 1 <= i <= largest then Bump(clk.cursors[i]) else clk.cursors[i]))
  }

  function HighClock(clk: Clock): (clk': Clock)
    requires ValidCursors(clk)
    ensures ValidCursors(clk')
  {
    clk.(cursors := clk.cursors[0 := Bump(clk.cursors[0])])
  }

  predicate ExpiresOnLowTick(t: Timer, clk: Clock)
    requires ValidCursors(clk)
  {
    && t.place.InSlot?
    && 1 <= t.place.wheel <= LargestWheelToTick(clk.counter + 1)
    && t.place.slot == clk.cursors[t.place.wheel]
  }

  predicate ExpiresOnHighTick(t: Timer, clk: Clock)
    requires ValidCursors(clk)
  {
    t.place.InSlot? && t.place.wheel == 0 && t.place.slot == clk.cursors[0]
  }

  function LowTick(t: Timer, clk: Clock): Timer
    requires ValidCursors(clk)
  {
    if ExpiresOnLowTick(t, clk) then Reinsert(Expire(t), LowClock(clk)) else t
  }

  function HighTick(t: Timer, clk: Clock): Timer
    requires ValidCursors(clk)
  {
    if ExpiresOnHighTick(t, clk) then Reinsert(Expire(t), HighClock(clk)) else t
  }

  /** Timeout processing: the timer stops, and a repeating one is added again. */
  function TimeOut(t: Timer, clk: Clock, d: nat): Timer
    requires ValidCursors(clk)
  {
    var fired := t.(active := false, place := Nowhere);
    if t.singleShot || t.interval == 0 then fired else Add(fired, clk, d)
  }
}
