/** Tick deadlines on a rational grid anchored at an epoch, in milliseconds. */
module Deadline {
  import opened Prelude

  /** The offset of grid point `n`: the first millisecond at or after n / hz seconds. */
  function Grid(hz: nat, n: nat): nat
    requires 0 < hz
  {
    (1000 * n + hz - 1) / hz
  }

  /** The next deadline; unsigned 64-bit arithmetic wraps. A rate of zero divides by zero in the
      source. */
  function TickDeadline(epoch: int, now: int, hz: int): int
    requires 0 < hz
  {
    if hz > 1000 then now
    else
      var phase: int := ((now - epoch) % U64) % 1000;
      var slot: int := phase * hz / 1000 + 1;
      var offset: int := (slot * 1000 + hz - 1) / hz;
      (now + offset - phase) % U64
  }

  // -------------------------------------------------------------------------------------
  // The grid
  // -------------------------------------------------------------------------------------

  /** A grid point is a rounded-up quotient. */
  lemma GridIs(hz: nat, n: nat, g: nat)
    requires 0 < hz
    ensures g == Grid(hz, n) <==> 1000 * n <= hz * g < 1000 * n + hz
  {
    var x := 1000 * n + hz - 1;
    var q := Grid(hz, n);
    assert x == hz * q + x % hz;
    if 1000 * n <= hz * g < 1000 * n + hz { Quotient(hz, x, q, g); }
  }

  lemma {:induction false} Scaled(hz: nat, a: nat, b: nat)
    ensures a <= b ==> hz * a <= hz * b
    ensures a < b ==> hz * a + hz <= hz * b
    decreases b
  {
    if a < b {
      Scaled(hz, a, b - 1);
      assert hz * b == hz * (b - 1) + hz;
    }
  }

  lemma Quotient(hz: nat, x: nat, q: nat, g: nat)
    requires 0 < hz && hz * q <= x < hz * q + hz && hz * g <= x < hz * g + hz
    ensures q == g
  {
    Scaled(hz, q, g);
    Scaled(hz, g, q);
  }

  lemma GridZero(hz: nat)
    requires 0 < hz
    ensures Grid(hz, 0) == 0
  {
    GridIs(hz, 0, 0);
  }

  /** Up to a thousand ticks a second no two grid points coincide. */
  lemma GridRises(hz: nat, n: nat)
    requires 0 < hz <= 1000
    ensures Grid(hz, n) < Grid(hz, n + 1)
  {
    var a, b := Grid(hz, n), Grid(hz, n + 1);
    GridIs(hz, n, a);
    GridIs(hz, n + 1, b);
    Scaled(hz, b, a);
  }

  lemma {:induction false} GridMonotone(hz: nat, m: nat, n: nat)
    requires 0 < hz <= 1000 && m < n
    ensures Grid(hz, m) < Grid(hz, n)
    decreases n
  {
    GridRises(hz, n - 1);
    if m < n - 1 { GridMonotone(hz, m, n - 1); }
  }

  /** A second is exactly `hz` grid points. */
  lemma GridPeriod(hz: nat, n: nat)
    requires 0 < hz
    ensures Grid(hz, n + hz) == Grid(hz, n) + 1000
  {
    var g := Grid(hz, n);
    GridIs(hz, n, g);
    assert hz * (g + 1000) == hz * g + 1000 * hz && 1000 * (n + hz) == 1000 * n + 1000 * hz;
    GridIs(hz, n + hz, g + 1000);
  }

  lemma {:induction false} GridSeconds(hz: nat, n: nat, q: nat)
    requires 0 < hz
    ensures Grid(hz, n + q * hz) == Grid(hz, n) + 1000 * q
  {
    if q > 0 {
      GridSeconds(hz, n, q - 1);
      GridPeriod(hz, n + (q - 1) * hz);
      assert n + (q - 1) * hz + hz == n + q * hz;
    }
  }

  /** The ticks of the second `q` are exactly the grid points from q * hz up to (q + 1) * hz: no
      drift, whatever the rate. */
  lemma SecondHasHzTicks(hz: nat, q: nat, n: nat)
    requires 0 < hz <= 1000
    ensures 1000 * q <= Grid(hz, n) < 1000 * (q + 1) <==> q * hz <= n < (q + 1) * hz
  {
    GridZero(hz);
    GridSeconds(hz, 0, q);
    GridSeconds(hz, 0, q + 1);
    var lo, hi := q * hz, (q + 1) * hz;
    assert Grid(hz, lo) == 1000 * q && Grid(hz, hi) == 1000 * (q + 1);
    if n < lo { GridMonotone(hz, n, lo); }
    if lo < n { GridMonotone(hz, lo, n); }
    if n < hi { GridMonotone(hz, n, hi); }
    if hi < n { GridMonotone(hz, hi, n); }
  }

  // -------------------------------------------------------------------------------------
  // The deadline
  // -------------------------------------------------------------------------------------

  /** `n` is the first grid point after `t`. */
  ghost predicate NextAfter(hz: nat, t: nat, n: nat)
    requires 0 < hz
  {
    n > 0 && Grid(hz, n - 1) <= t < Grid(hz, n)
  }

  lemma SlotAfter(hz: nat, phase: nat, x: nat, slot: nat)
    requires 0 < hz <= 1000 && x == hz * phase && slot > 0 && 1000 * (slot - 1) <= x < 1000 * slot
    ensures NextAfter(hz, phase, slot) && Grid(hz, slot) <= phase + 1000
  {
    var a, b := Grid(hz, slot - 1), Grid(hz, slot);
    GridIs(hz, slot - 1, a);
    GridIs(hz, slot, b);
    hide Grid;
    Scaled(hz, phase, a);
    Scaled(hz, b, phase);
    Scaled(hz, phase + 1000, b);
    assert hz * (phase + 1000) == x + 1000 * hz;
  }

  lemma SlotBounds(hz: nat, phase: nat, slot: nat)
    requires 0 < hz <= 1000 && phase < 1000 && slot == phase * hz / 1000 + 1
    ensures NextAfter(hz, phase, slot) && Grid(hz, slot) <= phase + 1000
  {
    var x := phase * hz;
    assert x == hz * phase;
    SlotAfter(hz, phase, x, slot);
  }

  lemma NextShifts(hz: nat, phase: nat, slot: nat, q: nat)
    requires 0 < hz && NextAfter(hz, phase, slot)
    ensures NextAfter(hz, phase + 1000 * q, slot + q * hz)
    ensures Grid(hz, slot + q * hz) == Grid(hz, slot) + 1000 * q
  {
    GridSeconds(hz, slot, q);
    GridSeconds(hz, slot - 1, q);
    assert slot - 1 + q * hz == slot + q * hz - 1;
  }

  lemma Small64(x: nat)
    requires x < U64
    ensures x % U64 == x
  {
  }

  /** Without wrap-around the deadline is the grid point of the slot within the current second. */
  lemma DeadlineIs(epoch: nat, now: nat, hz: nat, phase: nat, slot: nat, offset: nat)
    requires 0 < hz <= 1000 && epoch <= now && now + 1000 < U64
    requires phase == (now - epoch) % 1000 && slot == phase * hz / 1000 + 1
    requires offset == Grid(hz, slot) && phase < offset <= phase + 1000
    ensures TickDeadline(epoch, now, hz) == now + offset - phase
  {
    assert slot * 1000 == 1000 * slot;
    Small64(now - epoch);
    Small64(now + offset - phase);
  }

  /** The deadline is the least grid point strictly after now: a late call skips the points it
      missed, and two calls before the same point agree on it. */
  lemma DeadlineIsNext(epoch: nat, now: nat, hz: nat) returns (n: nat)
    requires 0 < hz <= 1000 && epoch <= now && now + 1000 < U64
    ensures NextAfter(hz, now - epoch, n) && TickDeadline(epoch, now, hz) == epoch + Grid(hz, n)
  {
    var phase, q := (now - epoch) % 1000, (now - epoch) / 1000;
    var slot := phase * hz / 1000 + 1;
    hide Grid, TickDeadline;
    SlotBounds(hz, phase, slot);
    NextShifts(hz, phase, slot, q);
    DeadlineIs(epoch, now, hz, phase, slot, Grid(hz, slot));
    n := slot + q * hz;
  }

  lemma NextUnique(hz: nat, t: nat, m: nat, n: nat)
    requires 0 < hz <= 1000 && NextAfter(hz, t, m) && NextAfter(hz, t, n)
    ensures m == n
  {
    if m < n - 1 { GridMonotone(hz, m, n - 1); }
    if n < m - 1 { GridMonotone(hz, n, m - 1); }
  }

  /** The n-th deadline when each call is made on time. */
  function Nth(epoch: nat, hz: nat, n: nat): int
    requires 0 < hz
  {
    if n == 0 then epoch else TickDeadline(epoch, Nth(epoch, hz, n - 1), hz)
  }

  /** Called on time, the deadlines are epoch + ceil(1000 * n / hz) for every n: the rounding never
      accumulates. */
  lemma {:induction false} DeadlinesDoNotDrift(epoch: nat, hz: nat, n: nat)
    requires 0 < hz <= 1000 && epoch + Grid(hz, n) + 1000 < U64
    ensures Nth(epoch, hz, n) == epoch + Grid(hz, n)
  {
    GridZero(hz);
    if n > 0 {
      GridRises(hz, n - 1);
      DeadlinesDoNotDrift(epoch, hz, n - 1);
      var last := Nth(epoch, hz, n - 1);
      var m := DeadlineIsNext(epoch, last, hz);
      NextUnique(hz, last - epoch, m, n);
    }
  }
}
