/** The arithmetic helpers of the ODE plugin: `CLAMP_ON_RANGE` and the integer
    compositions inside `timeGetTime` and `GetMicroTime`. The clock reads
    themselves (`ftime`, `gettimeofday`) are not part of this model: the time
    fields they would fill in are parameters here. */
module PluginDefs {
  import opened Arith

  /** `CLAMP_ON_RANGE`, instantiated at `real`. The lower-bound test runs
      first, so an inverted range (`min > max`) is not rejected. */
  function Clamp(value: real, min: real, max: real): (r: real)
    ensures r == value || r == min || r == max
  {
    if value < min then min else if value > max then max else value
  }

  /** With a proper range the result always lies inside it. */
  lemma ClampInRange(value: real, min: real, max: real)
    requires min <= max
    ensures min <= Clamp(value, min, max) <= max
  {
  }

  /** A value already in range comes back unchanged. */
  lemma ClampKeepsInRange(value: real, min: real, max: real)
    requires min <= value <= max
    ensures Clamp(value, min, max) == value
  {
  }

  /** Clamping twice to a proper range is clamping once. */
  lemma ClampIdempotent(value: real, min: real, max: real)
    requires min <= max
    ensures Clamp(Clamp(value, min, max), min, max) == Clamp(value, min, max)
  {
    ClampInRange(value, min, max);
    ClampKeepsInRange(Clamp(value, min, max), min, max);
  }

  /** With an inverted range every value below `min` yields `min` (the
      first test wins) and every other value yields `max`; clamping is then
      no longer idempotent, because `min` itself is above `max`. */
  lemma ClampInvertedRange(value: real, min: real, max: real)
    requires min > max
    ensures value < min ==> Clamp(value, min, max) == min
    ensures value >= min ==> Clamp(value, min, max) == max
    ensures value < min ==> Clamp(Clamp(value, min, max), min, max) == max
  {
  }

  /** `timeGetTime`: `t.time * 1000 + t.millitm` computed in the signed
      64-bit `time_t`, then cast to `uint32_t`, which keeps the value
      modulo 2^32. */
  function MillisecondCount(seconds: int, millis: int): (r: nat)
    ensures r < Two32
  {
    (seconds * 1000 + millis) % Two32
  }

  /** `GetMicroTime` (POSIX branch): `tv_sec` cast to `uint64_t`, times
      1000000, plus `tv_usec`, all in unsigned 64-bit arithmetic. */
  function MicrosecondCount(seconds: int, micros: int): (r: nat)
    ensures r < Two64
  {
    (seconds * 1000000 + micros) % Two64
  }

  /** Wrapping modulo 2^64 first does not change the value modulo 2^32; so
      an overflow of the 64-bit product `t.time * 1000` (two's complement)
      does not change what `timeGetTime` returns. */
  lemma WrapTo32IgnoresWrapTo64(x: int)
    ensures (x % Two64) % Two32 == x % Two32
  {
    var q := x / Two64;
    var r := x % Two64;
    assert x == q * Two64 + r;
    var q2 := r / Two32;
    var r2 := r % Two32;
    assert r == q2 * Two32 + r2;
    assert Two64 == Two32 * Two32;
    assert x == (q * Two32 + q2) * Two32 + r2;
    DivModUnique(x, Two32, q * Two32 + q2, r2);
  }

  /** Within the 32-bit range, the millisecond count splits back into the
      seconds and milliseconds it was made from. */
  lemma MillisecondCountSplits(seconds: int, millis: int)
    requires 0 <= seconds && 0 <= millis < 1000
    requires seconds * 1000 + millis < Two32
    ensures MillisecondCount(seconds, millis) / 1000 == seconds
    ensures MillisecondCount(seconds, millis) % 1000 == millis
  {
    var x := seconds * 1000 + millis;
    DivModUnique(x, Two32, 0, x);
    DivModUnique(x, 1000, seconds, millis);
  }

  /** Within the 64-bit range, the microsecond count splits back into the
      seconds and microseconds it was made from. */
  lemma MicrosecondCountSplits(seconds: int, micros: int)
    requires 0 <= seconds && 0 <= micros < 1000000
    requires seconds * 1000000 + micros < Two64
    ensures MicrosecondCount(seconds, micros) / 1000000 == seconds
    ensures MicrosecondCount(seconds, micros) % 1000000 == micros
  {
    var x := seconds * 1000000 + micros;
    DivModUnique(x, Two64, 0, x);
    DivModUnique(x, 1000000, seconds, micros);
  }

  /** Before the 64-bit range is exhausted, a later `timeval` (ordered by
      seconds, then microseconds) gives a larger microsecond count. */
  lemma MicrosecondCountMonotonic(s1: int, u1: int, s2: int, u2: int)
    requires 0 <= s1 && 0 <= u1 < 1000000 && 0 <= s2 && 0 <= u2 < 1000000
    requires s2 * 1000000 + u2 < Two64
    requires s1 < s2 || (s1 == s2 && u1 < u2)
    ensures MicrosecondCount(s1, u1) < MicrosecondCount(s2, u2)
  {
    var x1, x2 := s1 * 1000000 + u1, s2 * 1000000 + u2;
    if s1 < s2 {
      assert s1 * 1000000 + 1000000 <= s2 * 1000000;
    }
    assert x1 < x2;
    DivModUnique(x1, Two64, 0, x1);
    DivModUnique(x2, Two64, 0, x2);
  }
}
