/**
  Facts about the bit functions: which wheel the log2 table picks, and which wheels tick.
 */
module TimerArithmetic {
  import opened TimerModel

  function Log2(x: nat): nat
    requires x > 0
  {
    if x == 1 then 0 else 1 + Log2(x / 2)
  }

  lemma {:induction false} CountrZeroOfBitFloor(x: nat)
    requires x > 0
    ensures BitFloor(x) > 0 && CountrZero(BitFloor(x)) == Log2(x)
  {
    if x > 1 {
      CountrZeroOfBitFloor(x / 2);
    }
  }

  lemma {:induction false} Log2Div64(x: nat)
    requires x >= 64
    ensures Log2(x) == 6 + Log2(x / 64)
  {
    assert x / 2 / 2 / 2 / 2 / 2 / 2 == x / 64;
    assert Log2(x) == 1 + Log2(x / 2);
    assert Log2(x / 2) == 1 + Log2(x / 2 / 2);
    assert Log2(x / 2 / 2) == 1 + Log2(x / 2 / 2 / 2);
    assert Log2(x / 2 / 2 / 2) == 1 + Log2(x / 2 / 2 / 2 / 2);
    assert Log2(x / 2 / 2 / 2 / 2) == 1 + Log2(x / 2 / 2 / 2 / 2 / 2);
    assert Log2(x / 2 / 2 / 2 / 2 / 2) == 1 + Log2(x / 2 / 2 / 2 / 2 / 2 / 2);
  }

  lemma Log2Below64(x: nat)
    requires 0 < x < 64
    ensures Log2(x) < 6
  {
    assert x > 1 ==> Log2(x) == 1 + Log2(x / 2);
    assert x > 3 ==> Log2(x / 2) == 1 + Log2(x / 2 / 2);
    assert x > 7 ==> Log2(x / 2 / 2) == 1 + Log2(x / 2 / 2 / 2);
    assert x > 15 ==> Log2(x / 2 / 2 / 2) == 1 + Log2(x / 2 / 2 / 2 / 2);
    assert x > 31 ==> Log2(x / 2 / 2 / 2 / 2) == 1 + Log2(x / 2 / 2 / 2 / 2 / 2);
  }

  /** The sixth part of the logarithm names the wheel whose resolution brackets `x`. */
  lemma {:induction false} Log2Brackets(x: nat)
    requires x > 0
    ensures Res(Log2(x) / 6) <= x < 64 * Res(Log2(x) / 6)
  {
    if x < 64 {
      Log2Below64(x);
    } else {
      Log2Div64(x);
      Log2Brackets(x / 64);
      assert Log2(x) / 6 == 1 + Log2(x / 64) / 6;
    }
  }

  lemma {:induction false} ResMonotone(i: nat, j: nat)
    requires i <= j
    ensures Res(i) <= Res(j)
  {
    if i < j {
      ResMonotone(i, j - 1);
    }
  }

  lemma ResValues()
    ensures Res(0) == 1 && Res(1) == 64 && Res(2) == 4096 && Res(3) == 0x4_0000
    ensures Res(4) == 0x100_0000 && Res(5) == 0x4000_0000 && Res(6) == 0x10_0000_0000
    ensures Res(7) == MAX_TIMEOUT
  {
    assert Res(1) == 64 * Res(0);
    assert Res(2) == 64 * Res(1);
    assert Res(3) == 64 * Res(2);
    assert Res(4) == 64 * Res(3);
    assert Res(5) == 64 * Res(4);
    assert Res(6) == 64 * Res(5);
    assert Res(7) == 64 * Res(6);
  }

  lemma {:induction false} LargerRes(i: nat, x: nat)
    requires Res(i) <= x < Res(7)
    ensures i < 7
  {
    if i >= 7 {
      ResMonotone(7, i);
    }
  }

  lemma UnsignedInRange(x: int)
    requires 0 <= x < TWO_TO_THE_64
    ensures AsUnsigned64(x) == x
  {
  }

  /** The table picks the wheel whose resolution brackets `timeout - 1`, for every timeout in range. */
  lemma WheelForBrackets(timeout: int)
    requires 1 <= timeout <= MAX_TIMEOUT
    ensures var x := if timeout > 2 then timeout - 1 else 1;
            Res(WheelFor(timeout)) <= x < 64 * Res(WheelFor(timeout))
  {
    var x := if timeout > 2 then timeout - 1 else 1;
    UnsignedInRange(timeout - 1);
    CountrZeroOfBitFloor(x);
    Log2Brackets(x);
    ResValues();
    LargerRes(Log2(x) / 6, x);
  }

  /** The insertion whose result addAdjustedTimer ignores cannot fail on a timeout in range. */
  lemma PlacementIsTotal(timeout: int)
    requires 1 <= timeout <= MAX_TIMEOUT
    ensures CanAdd(WheelFor(timeout), timeout)
    ensures timeout > 64 <==> WheelFor(timeout) > 0
  {
    WheelForBrackets(timeout);
    ResValues();
    if WheelFor(timeout) > 0 {
      ResMonotone(1, WheelFor(timeout));
    }
  }

  lemma {:induction false} WheelForIsLeast(timeout: int, i: nat)
    requires 1 <= timeout <= MAX_TIMEOUT
    requires timeout <= 64 * Res(i)
    ensures WheelFor(timeout) <= i
  {
    WheelForBrackets(timeout);
    if WheelFor(timeout) > i {
      ResMonotone(i + 1, WheelFor(timeout));
    }
  }

  // ----- shifts and masks

  lemma {:induction false} ShiftsAndMaskRecompose(x: int, i: nat)
    ensures x == Shl(Shr(x, i), i) + Low(x, i)
    decreases i
  {
    if i > 0 {
      ShiftsAndMaskRecompose(x / 64, i - 1);
    }
  }

  lemma {:induction false} ShlAdds(a: int, b: int, i: nat)
    ensures Shl(a + b, i) == Shl(a, i) + Shl(b, i)
    decreases i
  {
    if i > 0 {
      ShlAdds(a, b, i - 1);
    }
  }

  lemma {:induction false} ShlOfOneIsRes(i: nat)
    ensures Shl(1, i) == Res(i) && Shl(0, i) == 0
    decreases i
  {
    if i > 0 {
      ShlOfOneIsRes(i - 1);
    }
  }

  lemma {:induction false} ShlMonotone(a: int, b: int, i: nat)
    requires a <= b
    ensures Shl(a, i) <= Shl(b, i)
    decreases i
  {
    if i > 0 {
      ShlMonotone(a, b, i - 1);
    }
  }

  lemma {:induction false} ShrOfAddable(x: int, i: nat)
    requires Res(i) <= x <= 64 * Res(i)
    ensures 1 <= Shr(x, i) <= 64
    decreases i
  {
    if i > 0 {
      ShrOfAddable(x / 64, i - 1);
    }
  }

  lemma {:induction false} LowAtMost(x: nat, i: nat)
    ensures Low(x, i) <= x
    decreases i
  {
    if i > 0 {
      LowAtMost(x / 64, i - 1);
    }
  }

  lemma {:induction false} LowStep(c: nat, i: nat)
    ensures if Low(c + 1, i) == 0 then Low(c, i) == Res(i) - 1 else Low(c + 1, i) == Low(c, i) + 1
    decreases i
  {
    if i > 0 && c % 64 == 63 {
      assert (c + 1) / 64 == c / 64 + 1;
      LowStep(c / 64, i - 1);
    }
  }

  lemma {:induction false} AlignedBelow(x: int, i: nat, j: nat)
    requires i <= j && Low(x, j) == 0
    ensures Low(x, i) == 0
    decreases i
  {
    if i > 0 {
      AlignedBelow(x / 64, i - 1, j - 1);
    }
  }

  // ----- which wheels tick

  lemma {:induction false} CountrZeroTimes64(c: nat)
    requires c > 0
    ensures CountrZero(64 * c) == 6 + CountrZero(c)
  {
    assert 64 * c / 2 == 32 * c && 32 * c / 2 == 16 * c && 16 * c / 2 == 8 * c;
    assert 8 * c / 2 == 4 * c && 4 * c / 2 == 2 * c && 2 * c / 2 == c;
    assert CountrZero(64 * c) == 1 + CountrZero(32 * c);
    assert CountrZero(32 * c) == 1 + CountrZero(16 * c);
    assert CountrZero(16 * c) == 1 + CountrZero(8 * c);
    assert CountrZero(8 * c) == 1 + CountrZero(4 * c);
    assert CountrZero(4 * c) == 1 + CountrZero(2 * c);
    assert CountrZero(2 * c) == 1 + CountrZero(c);
  }

  lemma CountrZeroBelow3(c: nat)
    requires c > 0
    ensures if c % 8 != 0 then CountrZero(c) < 3 else CountrZero(c) == 3 + CountrZero(c / 8)
  {
    if c % 2 == 0 {
      assert CountrZero(c) == 1 + CountrZero(c / 2);
      if c / 2 % 2 == 0 {
        assert CountrZero(c / 2) == 1 + CountrZero(c / 2 / 2);
        assert c / 2 / 2 % 2 == 0 ==> CountrZero(c / 2 / 2) == 1 + CountrZero(c / 2 / 2 / 2);
      }
    }
  }

  lemma EighthIsNoMultiple(c: nat)
    requires c % 8 == 0 && c % 64 != 0
    ensures c / 8 > 0 && c / 8 % 8 != 0
  {
    var q := c / 8;
    var k, r := q / 8, q % 8;
    assert c == 8 * q == 64 * k + 8 * r;
  }

  lemma CountrZeroBelow6(c: nat)
    requires c > 0 && c % 64 != 0
    ensures CountrZero(c) < 6
  {
    CountrZeroBelow3(c);
    if c % 8 == 0 {
      EighthIsNoMultiple(c);
      CountrZeroBelow3(c / 8);
    }
  }

  lemma {:induction false} AlignedIffTrailingZeros(c: nat, j: nat)
    requires c > 0
    ensures Low(c, j) == 0 <==> CountrZero(c) >= 6 * j
  {
    if j > 0 {
      if c % 64 == 0 {
        CountrZeroTimes64(c / 64);
        AlignedIffTrailingZeros(c / 64, j - 1);
      } else {
        CountrZeroBelow6(c);
      }
    }
  }

  /** Wheel `i` ticks exactly when the tick counter is a multiple of its period. */
  lemma TicksExactlyAtMultiples(c: nat, i: nat)
    requires c > 0 && 1 <= i <= 6
    ensures i <= LargestWheelToTick(c) <==> Low(c, i - 1) == 0
  {
    CountrZeroTimes64(c);
    AlignedIffTrailingZeros(c, i - 1);
  }
}
