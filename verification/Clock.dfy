/** Timestamps (`ptraf/src/clock.rs`): nanoseconds since the clock started. `Duration` is wider than
    64 bits, and `trunc` first casts to `u64`, so the cast is modelled as a remainder. */
module Clock {

  const U64: nat := 0x1_0000_0000_0000_0000

  /** `Timestamp::trunc`; a window that casts to zero would divide by zero. */
  function Trunc(ts: nat, window: nat): nat
    requires window % U64 != 0
  {
    var nanos := ts % U64;
    nanos - nanos % (window % U64)
  }

  /** `a.saturating_elapsed_since(b)` is the time from `a` to `b`, or zero. */
  function SaturatingElapsedSince(a: nat, b: nat): (r: nat)
    ensures a <= b ==> a + r == b
    ensures b <= a ==> r == 0
  {
    if a < b then b - a else 0
  }

  lemma MulOrder(a: nat, b: nat, w: nat)
    requires a < b
    ensures a * w + w <= b * w
  {
    assert b * w == a * w + (b - a) * w;
    assert (b - a) * w == (b - a - 1) * w + w;
  }

  /** Quotient and remainder are unique. */
  lemma DivUnique(x: nat, q: nat, r: nat, w: nat)
    requires 0 < w && r < w && x == q * w + r
    ensures x / w == q && x % w == r
  {
    var d := x / w;
    assert x == d * w + x % w;
    if d < q {
      MulOrder(d, q, w);
    } else if q < d {
      MulOrder(q, d, w);
    }
  }

  lemma ModStep(x: nat, w: nat)
    requires 0 < w && x % w == 0
    ensures (x + w) % w == 0
  {
    var q := x / w;
    assert (q + 1) * w == q * w + w;
    DivUnique(x + w, q + 1, 0, w);
  }

  /** Two aligned timestamps are a whole number of windows apart. */
  lemma AlignedGap(x: nat, y: nat, w: nat)
    requires 0 < w && x % w == 0 && y % w == 0 && x < y
    ensures x + w <= y
  {
    var p, q := x / w, y / w;
    assert x == p * w && y == q * w;
    if q < p {
      MulOrder(q, p, w);
    } else if p < q {
      MulOrder(p, q, w);
    }
  }

  /** `trunc` gives the start of the window that holds the timestamp, both cast to 64 bits: the unique aligned
      value within one window below it; it is idempotent on its own results. */
  lemma TruncIsWindowStart(ts: nat, window: nat)
    requires window % U64 != 0
    ensures var r, w := Trunc(ts, window), window % U64; r % w == 0 && r <= ts % U64 < r + w
    ensures Trunc(Trunc(ts, window), window) == Trunc(ts, window)
    ensures forall r: nat :: r % (window % U64) == 0 && r <= ts % U64 < r + window % U64 ==> r == Trunc(ts, window)
  {
    var n, w := ts % U64, window % U64;
    var r := Trunc(ts, window);
    DivUnique(r, n / w, 0, w);
    DivUnique(r % U64, n / w, 0, w);
    forall q: nat | q % w == 0 && q <= n < q + w ensures q == r {
      if q < r { AlignedGap(q, r, w); }
      if r < q { AlignedGap(r, q, w); }
    }
  }

  /** For a window that fits in 64 bits, as a store needs it. */
  lemma TruncInRange(ts: nat, window: nat)
    requires 0 < window < U64
    ensures var r := Trunc(ts, window); r % window == 0 && r <= ts % U64 < r + window
    ensures Trunc(Trunc(ts, window), window) == Trunc(ts, window)
  {
    assert window % U64 == window;
    TruncIsWindowStart(ts, window);
  }
}
