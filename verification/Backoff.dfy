/** The retry delay of the outbound queue, in minutes. */
module Backoff {
  import opened Powers

  const DAY: nat := 1440

  /** The exponent is capped before the power is taken, the product after. */
  function Delay(attempts: int): nat {
    var base := if attempts <= 0 then 1 else Pow2(Min(attempts - 1, 10)) * 10;
    Min(base, DAY)
  }

  /** Capping the exponent never shows: for every attempt the delay is the plain capped exponential. */
  lemma DelayIsCappedExponential(attempts: int)
    requires attempts >= 1
    ensures Delay(attempts) == Min(10 * Pow2(attempts - 1), 1440)
  {
    if attempts - 1 > 10 {
      PowMonotone(10, attempts - 1);
      assert Pow2(10) == 1024;
    }
  }

  /** The 64-bit product cannot overflow. */
  lemma DelayFitsWord(attempts: int)
    ensures attempts >= 1 ==> Pow2(Min(attempts - 1, 10)) * 10 <= 10240
    ensures 1 <= Delay(attempts) <= 1440
    ensures attempts <= 0 ==> Delay(attempts) == 1
  {
    if attempts >= 1 {
      PowMonotone(Min(attempts - 1, 10), 10);
    }
    assert Pow2(10) == 1024;
  }

  lemma DelayMonotone(a: int, b: int)
    requires a <= b
    ensures Delay(a) <= Delay(b)
  {
    if a >= 1 {
      PowMonotone(Min(a - 1, 10), Min(b - 1, 10));
    } else if b >= 1 {
      assert Pow2(Min(b - 1, 10)) >= 1;
    }
  }

  /** The delays scheduled after failed attempts 1 to n. */
  function SumDelays(n: nat): nat {
    if n == 0 then 0 else SumDelays(n - 1) + Delay(n)
  }

  /** Eight doublings, then a day for every further attempt. */
  lemma {:induction false} SumDelaysClosedForm(n: nat)
    ensures n <= 8 ==> SumDelays(n) == 10 * (Pow2(n) - 1)
    ensures n >= 8 ==> SumDelays(n) == 2550 + 1440 * (n - 8)
  {
    if n == 0 {
    } else {
      SumDelaysClosedForm(n - 1);
      DelayIsCappedExponential(n);
      if n <= 8 {
        PowMonotone(n - 1, 7);
        assert Pow2(7) == 128 && Pow2(8) == 256;
      } else {
        PowMonotone(8, n - 1);
        assert Pow2(8) == 256;
      }
    }
  }
}
