/** Shared value types and the fixed-width arithmetic the relay relies on. */
module Basics {

  datatype Option<+T> = None | Some(value: T)

  const U64_MAX: nat := 0xFFFF_FFFF_FFFF_FFFF
  const NS_PER_SECOND: nat := 1_000_000_000
  const SAMPLE_RATE_HZ: nat := 48_000
  const OPUS_FRAME_SAMPLES: nat := 960

  /** `u64::saturating_add`. */
  function SatAdd(a: nat, b: nat): nat {
    if a + b > U64_MAX then U64_MAX else a + b
  }

  /** `u64::saturating_mul`. */
  function SatMul(a: nat, b: nat): nat {
    if a * b > U64_MAX then U64_MAX else a * b
  }

  function Max(a: nat, b: nat): nat {
    if a < b then b else a
  }

  function Min(a: nat, b: nat): nat {
    if a < b then a else b
  }

  /** Duration of `frames` sample frames at 48 kHz, rounded down, as the relay computes it. */
  function FramesToNs(frames: nat): nat {
    SatMul(frames, NS_PER_SECOND) / SAMPLE_RATE_HZ
  }

  /** Until the multiplication saturates, one more sample frame always adds at least 20833 ns. */
  lemma FramesToNsStrict(a: nat, b: nat)
    requires a < b
    requires b * NS_PER_SECOND <= U64_MAX
    ensures FramesToNs(a) + 20_833 <= FramesToNs(b)
  {
    assert b * NS_PER_SECOND >= (a + 1) * NS_PER_SECOND;
    assert (a + 1) * NS_PER_SECOND == a * NS_PER_SECOND + NS_PER_SECOND;
    assert NS_PER_SECOND >= 20_833 * SAMPLE_RATE_HZ;
    DivGap(a * NS_PER_SECOND, b * NS_PER_SECOND);
  }

  lemma DivGap(x: nat, y: nat)
    requires x + 20_833 * SAMPLE_RATE_HZ <= y
    ensures x / SAMPLE_RATE_HZ + 20_833 <= y / SAMPLE_RATE_HZ
  {
  }

  /** Saturating addition keeps a strict order exactly while the smaller sum stays below the limit. */
  lemma SatAddStrict(t: nat, a: nat, b: nat)
    requires a < b
    ensures SatAdd(t, a) < SatAdd(t, b) <==> t + a < U64_MAX
  {
  }

  lemma {:induction false} MulCancel(a: nat, b: nat, c: nat)
    requires a * c < b * c
    ensures a < b
  {
  }

  lemma {:induction false} DivMonotone(a: nat, b: nat, d: nat)
    requires a <= b && d > 0
    ensures a / d <= b / d
  {
    assert a == d * (a / d) + a % d && b == d * (b / d) + b % d;
    assert (b / d + 1) * d == d * (b / d) + d && d * (a / d) == (a / d) * d;
    MulCancel(a / d, b / d + 1, d);
  }

  lemma {:induction false} ModUnique(n: nat, m: nat, q: nat, r: nat)
    requires m > 0 && r < m && n == m * q + r
    ensures n % m == r
  {
    var d := n / m;
    assert n == m * d + n % m;
    assert m * q == q * m && m * d == d * m;
    assert (d + 1) * m == d * m + m && (q + 1) * m == q * m + m;
    MulCancel(q, d + 1, m);
    MulCancel(d, q + 1, m);
  }
}
