/** How long nothing has arrived: timeouts added up with saturation, as durations do; and counts of alerts. */
module Silence {

  /** The longest duration, in nanoseconds: the greatest 64-bit number of seconds and 999999999 nanoseconds. */
  const DURATION_MAX: nat := 18446744073709551615999999999

  function SaturatingAdd(a: nat, b: nat): nat {
    if a + b > DURATION_MAX then DURATION_MAX else a + b
  }

  /** The duration after `count` timeouts in a row, each added with saturation. */
  function Times(timeout: nat, count: nat): nat {
    if count == 0 then 0 else SaturatingAdd(Times(timeout, count - 1), timeout)
  }

  /** Saturating at every step is saturating once: the timeout times the count, or the longest duration. */
  lemma {:induction false} TimesIsProduct(timeout: nat, count: nat)
    ensures Times(timeout, count) == if timeout * count > DURATION_MAX then DURATION_MAX else timeout * count
  {
    if count > 0 {
      TimesIsProduct(timeout, count - 1);
      assert timeout * count == timeout * (count - 1) + timeout;
    }
  }

  /** The duration, but no longer than 18446744073709551615 seconds and 999999999 nanoseconds. */
  function Capped(duration: nat): nat {
    if duration > 18446744073709551615999999999 then 18446744073709551615999999999 else duration
  }

  /** In figures. */
  lemma {:induction false} TimesIsCapped(timeout: nat, count: nat)
    ensures Times(timeout, count) == Capped(timeout * count)
  {
    TimesIsProduct(timeout, count);
  }

  // Counting alerts

  function Count<T>(s: seq<T>, p: T -> bool): nat {
    if s == [] then 0 else Count(s[..|s| - 1], p) + if p(s[|s| - 1]) then 1 else 0
  }

  lemma {:induction false} CountAppend<T>(a: seq<T>, b: seq<T>, p: T -> bool)
    ensures Count(a + b, p) == Count(a, p) + Count(b, p)
    decreases |b|
  {
    if b == [] {
      assert a + b == a;
    } else {
      CountAppend(a, b[..|b| - 1], p);
      assert (a + b)[..|a + b| - 1] == a + b[..|b| - 1];
    }
  }
}
