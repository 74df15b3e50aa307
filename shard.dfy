/**
 * Shard calculator: the integer arithmetic the three host programs use to shape
 * their input before any unit is touched (padding a global size up to a multiple
 * of the unit count times the tasklet count, and cutting it into per-unit slices).
 */
module Shard {

  /** 2^32: the range of the C `uint32_t` / `unsigned int` values the hosts compute with. */
  const U32: nat := 0x1_0000_0000

  /** The value a 32-bit unsigned C expression yields for the mathematical value `x`. */
  function Wrap32(x: int): (r: nat)
    ensures r < U32
    ensures 0 <= x < U32 ==> r == x
    ensures (r - x) % U32 == 0
  {
    x % U32
  }

  /** Outcome of a size computation: a value, or the fatal division by a zero modulus. */
  datatype Result<T> = Ok(value: T) | DivisionByZero

  /**
   * The host's padding step, `if (n % m) n = n + (m - n % m);`, for a non-zero modulus `m`.
   */
  function PadUp(n: nat, m: nat): nat
    requires m > 0
  {
    if n % m != 0 then n + (m - n % m) else n
  }

  /** `PadUp(n, m)` is the least multiple of `m` that is at least `n`. */
  lemma PadUpIsLeastMultiple(n: nat, m: nat)
    requires m > 0
    ensures PadUp(n, m) % m == 0
    ensures n <= PadUp(n, m) < n + m
    ensures n % m == 0 ==> PadUp(n, m) == n
    ensures forall k: nat :: n <= k && k % m == 0 ==> PadUp(n, m) <= k
  {
    var q := n / m;
    assert n == q * m + n % m;
    if n % m != 0 {
      assert PadUp(n, m) == (q + 1) * m;
      MultipleMod(q + 1, m);
      forall k: nat | n <= k && k % m == 0
        ensures PadUp(n, m) <= k
      {
        var p := k / m;
        assert k == p * m;
        if p <= q {
          MulLeq(p, q, m);
          assert false;
        }
        MulLeq(q + 1, p, m);
      }
    } else {
      forall k: nat | n <= k && k % m == 0
        ensures PadUp(n, m) <= k
      {
      }
    }
  }

  /** A multiple of `m` leaves no remainder. */
  lemma MultipleMod(c: nat, m: nat)
    requires m > 0
    ensures (c * m) % m == 0
  {
    var x := c * m;
    assert x == c * m + 0;
    DivModUnique(x, m, c, 0);
  }

  /** Multiplication by a natural number is monotonic. */
  lemma MulLeq(a: nat, b: nat, m: nat)
    requires a <= b
    ensures a * m <= b * m
  {
    assert b * m == a * m + (b - a) * m;
  }

  /** Euclidean division has a unique quotient and remainder. */
  lemma DivModUnique(x: int, m: nat, q: int, r: int)
    requires m > 0 && 0 <= r < m && x == q * m + r
    ensures x / m == q && x % m == r
  {
    var q0, r0 := x / m, x % m;
    assert x == q0 * m + r0;
    if q0 < q {
      assert q * m == q0 * m + (q - q0) * m;
      MulLeq(1, q - q0, m);
      assert false;
    } else if q0 > q {
      assert q0 * m == q * m + (q0 - q) * m;
      MulLeq(1, q0 - q, m);
      assert false;
    }
  }

  /**
   * Cutting a padded size among `units` units: when the size is a multiple of
   * `units * grain`, every unit gets the same slice, the slices add up to the size,
   * and each slice is itself a multiple of `grain` (the per-unit tasklet and window
   * granularity).
   */
  lemma SliceOfPadded(size: nat, units: nat, grain: nat)
    requires units > 0 && grain > 0
    requires size % (units * grain) == 0
    ensures (size / units) * units == size
    ensures (size / units) % grain == 0
  {
    var c := size / (units * grain);
    assert size == c * (units * grain);
    assert size == (c * grain) * units + 0;
    DivModUnique(size, units, c * grain, 0);
    MultipleMod(c, grain);
  }
}
