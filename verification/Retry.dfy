/** The retry schedule: exponential backoff with a cap, over the reals. */
module Retry {
  import opened Numbers

  datatype RetrySchedule = RetrySchedule(
    initialDelay: real,
    backoffMultiplier: real,
    maxDelay: real,
    maxAttempts: nat)
  {
    /** What `Duration` can represent. */
    predicate Sensible() {
      0.0 <= initialDelay && 0.0 <= backoffMultiplier && 0.0 <= maxDelay
    }

    /** The delay before attempt `attempt`, counted from one. */
    function DelayForAttempt(attempt: nat): real {
      if attempt <= 1 then 0.0 else Min(Uncapped(attempt - 2), maxDelay)
    }

    function Uncapped(n: nat): real {
      initialDelay * Pow(backoffMultiplier, n)
    }

    predicate ShouldGiveUp(attempt: nat) {
      attempt >= maxAttempts
    }

    /** The most often a message is started. */
    function MaxStarts(): nat {
      if maxAttempts == 0 then 1 else maxAttempts
    }
  }

  function Pow(m: real, n: nat): real {
    if n == 0 then 1.0 else m * Pow(m, n - 1)
  }

  lemma MulMonotone(a: real, b: real, m: real)
    requires a <= b && 0.0 <= m
    ensures a * m <= b * m
  {
  }

  /** `n` waits of length `d`. */
  function Times(n: nat, d: real): real {
    n as real * d
  }

  lemma TimesMonotone(a: nat, b: nat, d: real)
    requires a <= b && 0.0 <= d
    ensures Times(a, d) <= Times(b, d)
  {
    MulMonotone(a as real, b as real, d);
  }

  lemma OneMore(n: nat, d: real)
    ensures Times(n + 1, d) == Times(n, d) + d
  {
  }

  lemma MulLess(a: real, b: real, m: real)
    requires a < b && 0.0 < m
    ensures a * m < b * m
  {
  }

  lemma {:induction false} PowNonNegative(m: real, n: nat)
    requires 0.0 <= m
    ensures 0.0 <= Pow(m, n)
  {
    if n > 0 {
      PowNonNegative(m, n - 1);
      MulMonotone(0.0, Pow(m, n - 1), m);
    }
  }

  /** The uncapped delay, one attempt on. */
  lemma Uncapped(s: RetrySchedule, n: nat)
    ensures s.Uncapped(n + 1) == s.Uncapped(n) * s.backoffMultiplier
  {
    var p := Pow(s.backoffMultiplier, n);
    assert Pow(s.backoffMultiplier, n + 1) == s.backoffMultiplier * p;
    assert s.initialDelay * (s.backoffMultiplier * p) == s.initialDelay * p * s.backoffMultiplier;
  }

  /** The wait after some failures: none after the first, and after the next the initial delay, which
      each further failure multiplies once more; never more than the cap. */
  lemma {:induction false} WaitAfter(s: RetrySchedule, failures: nat) returns (uncapped: seq<real>)
    requires 2 <= failures
    ensures s.DelayForAttempt(0) == s.DelayForAttempt(1) == 0.0
    ensures |uncapped| == failures - 1 && uncapped[0] == s.initialDelay
    ensures forall i :: 0 < i < |uncapped| ==> uncapped[i] == uncapped[i - 1] * s.backoffMultiplier
    ensures forall i :: 0 <= i < |uncapped| ==>
              s.DelayForAttempt(i + 2) == if uncapped[i] <= s.maxDelay then uncapped[i] else s.maxDelay
  {
    if failures == 2 {
      uncapped := [s.initialDelay];
      assert Pow(s.backoffMultiplier, 0) == 1.0;
    } else {
      var before := WaitAfter(s, failures - 1);
      Uncapped(s, failures - 3);
      uncapped := seq(failures - 1, i requires 0 <= i < failures - 1 => s.Uncapped(i));
      forall i | 0 <= i < failures - 2 ensures s.Uncapped(i + 1) == s.Uncapped(i) * s.backoffMultiplier { Uncapped(s, i); }
      assert Pow(s.backoffMultiplier, 0) == 1.0;
    }
  }

  predicate StepsUp(s: RetrySchedule, attempt: nat) {
    s.DelayForAttempt(attempt + 1) == Min(s.DelayForAttempt(attempt) * s.backoffMultiplier, s.maxDelay)
  }

  /** Capping after scaling is capping, scaling and capping again. */
  lemma CapStep(raw: real, m: real, cap: real)
    requires 0.0 <= cap && 0.0 < m && (1.0 <= m || raw <= cap)
    ensures Min(raw * m, cap) == Min(Min(raw, cap) * m, cap)
  {
    if raw > cap {
      MulMonotone(1.0, m, cap);
      MulMonotone(cap, raw, m);
    }
  }

  lemma StepsUpIf(s: RetrySchedule, attempt: nat)
    requires s.Sensible() && 0.0 < s.backoffMultiplier && 2 <= attempt
    requires 1.0 <= s.backoffMultiplier || s.Uncapped(attempt - 2) <= s.maxDelay
    ensures StepsUp(s, attempt)
  {
    Uncapped(s, attempt - 2);
    CapStep(s.Uncapped(attempt - 2), s.backoffMultiplier, s.maxDelay);
  }

  lemma StepsUpAtZero(s: RetrySchedule, attempt: nat)
    requires s.Sensible() && 2 <= attempt && (s.backoffMultiplier == 0.0 || s.maxDelay == 0.0)
    ensures StepsUp(s, attempt)
  {
    DelayBounded(s, attempt);
    DelayBounded(s, attempt + 1);
    Uncapped(s, attempt - 2);
    var d := s.DelayForAttempt(attempt);
    assert d == 0.0 || s.backoffMultiplier == 0.0;
    assert d * s.backoffMultiplier == 0.0;
    assert s.Uncapped(attempt - 2) * 0.0 == 0.0;
  }

  lemma {:induction false} PowShrinks(m: real, n: nat)
    requires 0.0 < m < 1.0
    ensures Pow(m, n) <= 1.0
  {
    if n > 0 {
      PowShrinks(m, n - 1);
      MulMonotone(Pow(m, n - 1), 1.0, m);
    }
  }

  lemma StepsUpWithin(s: RetrySchedule, attempt: nat)
    requires s.Sensible() && 0.0 < s.backoffMultiplier < 1.0 && s.initialDelay <= s.maxDelay && 2 <= attempt
    ensures StepsUp(s, attempt)
  {
    PowShrinks(s.backoffMultiplier, attempt - 2);
    MulMonotone(Pow(s.backoffMultiplier, attempt - 2), 1.0, s.initialDelay);
    StepsUpIf(s, attempt);
  }

  /** Capping a power is the same as stepping up from the capped delay before it, at every attempt,
      if and only if the multiplier does not shrink, the first delay is within the cap, or either
      the multiplier or the cap is zero. */
  lemma RecurrenceIff(s: RetrySchedule)
    requires s.Sensible()
    ensures (forall attempt: nat :: 2 <= attempt ==> StepsUp(s, attempt))
            <==> 1.0 <= s.backoffMultiplier || s.initialDelay <= s.maxDelay || s.backoffMultiplier == 0.0 || s.maxDelay == 0.0
  {
    if s.backoffMultiplier == 0.0 || s.maxDelay == 0.0 {
      forall attempt: nat | 2 <= attempt ensures StepsUp(s, attempt) { StepsUpAtZero(s, attempt); }
    } else if 1.0 <= s.backoffMultiplier {
      forall attempt: nat | 2 <= attempt ensures StepsUp(s, attempt) { StepsUpIf(s, attempt); }
    } else if s.initialDelay <= s.maxDelay {
      forall attempt: nat | 2 <= attempt ensures StepsUp(s, attempt) { StepsUpWithin(s, attempt); }
    } else {
      CappedTooSoon(s);
    }
  }

  lemma CappedTooSoon(s: RetrySchedule)
    requires s.Sensible() && 0.0 < s.maxDelay < s.initialDelay && 0.0 < s.backoffMultiplier < 1.0
    ensures !StepsUp(s, 2)
  {
    Uncapped(s, 0);
    assert s.Uncapped(0) == s.initialDelay by { assert Pow(s.backoffMultiplier, 0) == 1.0; }
    CapsDiffer(s.initialDelay, s.backoffMultiplier, s.maxDelay);
  }

  lemma CapsDiffer(raw: real, m: real, cap: real)
    requires 0.0 < cap < raw && 0.0 < m < 1.0
    ensures Min(raw * m, cap) != Min(Min(raw, cap) * m, cap)
  {
    MulLess(cap, raw, m);
    MulLess(m, 1.0, cap);
  }

  /** With a multiplier of at least one, delays never shrink, and once at the cap stay there. */
  lemma DelaysGrow(s: RetrySchedule, attempt: nat)
    requires s.Sensible() && 1.0 <= s.backoffMultiplier
    ensures 0.0 <= s.DelayForAttempt(attempt) <= s.DelayForAttempt(attempt + 1) <= s.maxDelay
    ensures 2 <= attempt && s.DelayForAttempt(attempt) == s.maxDelay ==> s.DelayForAttempt(attempt + 1) == s.maxDelay
  {
    DelayBounded(s, attempt);
    DelayBounded(s, attempt + 1);
    if 2 <= attempt {
      StepsUpIf(s, attempt);
      var d := s.DelayForAttempt(attempt);
      MulMonotone(1.0, s.backoffMultiplier, d);
    }
  }

  lemma DelayBounded(s: RetrySchedule, attempt: nat)
    requires s.Sensible()
    ensures 0.0 <= s.DelayForAttempt(attempt) <= s.maxDelay
  {
    if 2 <= attempt {
      PowNonNegative(s.backoffMultiplier, attempt - 2);
      MulMonotone(0.0, s.initialDelay, Pow(s.backoffMultiplier, attempt - 2));
    }
  }

  /** The waiting scheduled by the first `failures` failures. */
  function TotalWait(s: RetrySchedule, failures: nat): real {
    if failures == 0 then 0.0
    else TotalWait(s, failures - 1) + if s.ShouldGiveUp(failures) then 0.0 else s.DelayForAttempt(failures)
  }

  /** How many of the first `failures` failures are followed by a wait. */
  function Waits(s: RetrySchedule, failures: nat): nat
    requires 2 <= s.maxAttempts
  {
    if failures <= 1 then 0 else if failures < s.maxAttempts then failures - 1 else s.maxAttempts - 2
  }

  lemma {:induction false} WaitBounded(s: RetrySchedule, failures: nat)
    requires s.Sensible() && 2 <= s.maxAttempts
    ensures TotalWait(s, failures) <= Times(Waits(s, failures), s.maxDelay)
  {
    if failures > 0 {
      WaitBounded(s, failures - 1);
      DelayBounded(s, failures);
      if 1 < failures < s.maxAttempts {
        OneMore(Waits(s, failures - 1), s.maxDelay);
      } else {
        assert Waits(s, failures) == Waits(s, failures - 1);
      }
    }
  }

  /** However often a message fails, all its waits together are at most `maxAttempts - 2` times the cap. */
  lemma {:induction false} TotalWaitBounded(s: RetrySchedule, failures: nat)
    requires s.Sensible() && 2 <= s.maxAttempts
    ensures TotalWait(s, failures) <= Times(s.maxAttempts - 2, s.maxDelay)
  {
    WaitBounded(s, failures);
    TimesMonotone(Waits(s, failures), s.maxAttempts - 2, s.maxDelay);
  }
}
