/**
 Instants are nanoseconds since the Unix epoch, durations are nanoseconds.
 The module covers the two pieces of clock arithmetic that slot generation relies on:
 the UTC day of an instant and the rounding of "three hours from now" to the slot grid.
 */
module Instants {
  const SECOND: int := 1_000_000_000
  const MINUTE: int := 60 * SECOND
  const HOUR: int := 60 * MINUTE
  const DAY: int := 24 * HOUR

  // The grid step of every slot listing.
  const SLOT_STEP: int := 15 * MINUTE

  lemma UnitsAreNanoseconds()
    ensures SECOND == 1_000_000_000 && MINUTE == 60_000_000_000 && HOUR == 3_600_000_000_000
    ensures DAY == 86_400_000_000_000 && SLOT_STEP == 900_000_000_000
  {
  }

  // Distance from the zero time (1 January of year 1, 00:00 UTC) to the Unix epoch.
  const UNIX_EPOCH: int := 719_162 * DAY

  /** The number of the UTC day that contains t. */
  function UtcDay(t: int): int {
    t / DAY
  }

  /** The remainder operator of Go: the result takes the sign of the dividend. */
  function GoRem(a: int, b: int): int
    requires b > 0
  {
    if a >= 0 then a % b else -((-a) % b)
  }

  /** Time.Truncate: rounds down to a multiple of d counted from the zero time. */
  function Truncate(t: int, d: int): int {
    if d <= 0 then t else t - (t + UNIX_EPOCH) % d
  }

  /** Tests divisibility counted from the Unix epoch, but truncates counted from the zero time. */
  function RoundUp(t: int, d: int): int
    requires d > 0
  {
    if GoRem(t, d) == 0 then t else Truncate(t + d, d)
  }

  /** r is the least multiple of d (counted from the Unix epoch) that is at or after t. */
  ghost predicate IsLeastMultipleFrom(r: int, t: int, d: int)
    requires d > 0
  {
    && r % d == 0
    && t <= r
    && forall m :: m % d == 0 && t <= m ==> r <= m
  }

  lemma ModShift(a: int, k: int, d: int)
    requires d > 0
    ensures (a + k * d) % d == a % d
  {
    var q := a / d + k;
    var r := a % d;
    assert a + k * d == q * d + r by {
      assert a == (a / d) * d + r;
      assert q * d == (a / d) * d + k * d;
    }
    QuotientUnique(a + k * d, d, q, r);
  }

  lemma QuotientUnique(x: int, d: int, q: int, r: int)
    requires d > 0
    requires x == q * d + r
    requires 0 <= r < d
    ensures x / d == q && x % d == r
  {
    var q', r' := x / d, x % d;
    assert x == q' * d + r';
    var k := q - q';
    assert k * d == r' - r;
    if k > 0 {
      ProductAtLeast(k, d);
    } else if k < 0 {
      ProductAtLeast(-k, d);
    }
  }

  lemma ProductAtLeast(k: int, d: int)
    requires k >= 1 && d > 0
    ensures k * d >= d && (-k) * d <= -d
  {
    assert k * d == (k - 1) * d + d;
    assert (k - 1) * d >= 0;
    assert (-k) * d == -(k * d);
  }

  lemma MultipleOf(x: int, d: int)
    requires d > 0
    ensures x % d == 0 <==> exists k :: x == k * d
  {
    if x % d == 0 {
      assert x == (x / d) * d;
    }
    if exists k :: x == k * d {
      var k :| x == k * d;
      QuotientUnique(x, d, k, 0);
    }
  }

  lemma GoRemZero(t: int, d: int)
    requires d > 0
    ensures GoRem(t, d) == 0 <==> t % d == 0
  {
    if t < 0 {
      MultipleOf(t, d);
      MultipleOf(-t, d);
      if t % d == 0 {
        var k :| t == k * d;
        assert -t == (-k) * d;
      }
      if (-t) % d == 0 {
        var k :| -t == k * d;
        assert t == (-k) * d;
      }
    }
  }

  lemma MultiplesAreSpaced(a: int, b: int, d: int)
    requires d > 0
    requires a % d == 0 && b % d == 0 && a < b
    ensures b - a >= d
  {
    MultipleOf(a, d);
    MultipleOf(b, d);
    var i :| a == i * d;
    var j :| b == j * d;
    var k := j - i;
    assert b - a == k * d;
    if k >= 1 {
      ProductAtLeast(k, d);
    } else if k <= -1 {
      ProductAtLeast(-k, d);
    }
  }

  lemma SumOfMultiples(a: int, b: int, d: int)
    requires d > 0
    requires b % d == 0
    ensures (a + b) % d == a % d && (a - b) % d == a % d
  {
    ModShift(a, b / d, d);
    ModShift(a, -(b / d), d);
    assert b == (b / d) * d;
    assert a - b == a + (-(b / d)) * d;
  }

  /** Rounding up lands on the least grid point at or after t exactly when t is already on the
      grid or the step divides the distance between the two origins the code mixes. */
  lemma RoundUpExact(t: int, d: int)
    requires d > 0
    ensures IsLeastMultipleFrom(RoundUp(t, d), t, d) <==> t % d == 0 || UNIX_EPOCH % d == 0
  {
    GoRemZero(t, d);
    if t % d != 0 {
      var x := t + d + UNIX_EPOCH;
      var r := RoundUp(t, d);
      assert r == t + d - x % d;
      assert r + UNIX_EPOCH == (x / d) * d;
      QuotientUnique(r + UNIX_EPOCH, d, x / d, 0);
      if UNIX_EPOCH % d == 0 {
        SumOfMultiples(r + UNIX_EPOCH, UNIX_EPOCH, d);
        assert r % d == 0;
        forall m | m % d == 0 && t <= m
          ensures r <= m
        {
          if m < r {
            MultiplesAreSpaced(m, r, d);
            assert false;
          }
        }
      } else {
        if r % d == 0 {
          SumOfMultiples(UNIX_EPOCH, r, d);
          assert false;
        }
      }
    }
  }

  /** For the step the service uses, the start of today's offer is always the least grid point. */
  lemma SlotStepRoundsUp(t: int)
    ensures IsLeastMultipleFrom(RoundUp(t, SLOT_STEP), t, SLOT_STEP)
  {
    RoundUpExact(t, SLOT_STEP);
  }

  /** A step for which rounding misses the Unix grid: seven minutes, one minute after the epoch. The
      service itself only passes fifteen minutes. */
  lemma SevenMinuteStepMissesGrid()
    ensures !IsLeastMultipleFrom(RoundUp(MINUTE, 7 * MINUTE), MINUTE, 7 * MINUTE)
  {
    RoundUpExact(MINUTE, 7 * MINUTE);
  }
}
