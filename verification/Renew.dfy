/** When a certificate is renewed: the renewal test, the interval to the next check, and the loop that
    drives them, in exact arithmetic and with exact sleeps.  Instants and durations are in seconds. */
module Renew {

  const DEFAULT_THRESHOLD := 0.20
  const MINUTE := 60.0
  const HOUR := 3600.0

  function Effective(threshold: real): real {
    if threshold <= 0.0 || threshold >= 1.0 then DEFAULT_THRESHOLD else threshold
  }

  /** Whether less than the given fraction of the lifetime remains. */
  predicate Needed(notBefore: real, notAfter: real, now: real, threshold: real) {
    || now >= notAfter
    || notAfter - notBefore <= 0.0
    || (notAfter - now) / (notAfter - notBefore) < Effective(threshold)
  }

  /** A fraction of a lifetime. */
  function Part(lifetime: real, fraction: real): real {
    lifetime * fraction
  }

  /** The start of the renewal window; the fraction is used as given. */
  function WindowStart(notBefore: real, notAfter: real, threshold: real): real {
    notAfter - Part(notAfter - notBefore, threshold)
  }

  function NextCheck(notBefore: real, notAfter: real, now: real, threshold: real): real {
    if Needed(notBefore, notAfter, now, threshold) then 5.0 * MINUTE
    else
      var until := WindowStart(notBefore, notAfter, threshold) - now;
      if until < HOUR then (if until < MINUTE then MINUTE else until) else HOUR
  }

  // ---------------------------------------------------------------- what the test means

  lemma ProductIsPositive(a: real, b: real)
    requires a > 0.0 && b > 0.0
    ensures a * b > 0.0
  {
  }

  lemma Distributes(a: real, b: real, c: real)
    ensures (a - b) * c == a * c - b * c
  {
  }

  lemma QuotientBelow(a: real, b: real, c: real)
    requires b > 0.0
    ensures a / b < c <==> a < Part(b, c)
  {
    var q := a / b;
    assert q * b == a;
    Distributes(c, q, b);
    Distributes(q, c, b);
    if q < c {
      ProductIsPositive(c - q, b);
    } else if q > c {
      ProductIsPositive(q - c, b);
    }
  }

  lemma PartIsProper(lifetime: real, fraction: real)
    requires lifetime > 0.0 && 0.0 < fraction < 1.0
    ensures 0.0 < Part(lifetime, fraction) < lifetime
  {
    var part := Part(lifetime, fraction);
    assert part == lifetime * fraction;
    hide Part;
    ProductIsPositive(lifetime, fraction);
    if part >= lifetime {
      ProductIsPositive(lifetime, 1.0 - fraction);
    }
  }

  /** With a fraction strictly between zero and one, renewal is needed exactly after the start of the
      window. */
  lemma NeededMeaning(notBefore: real, notAfter: real, now: real, threshold: real)
    requires notBefore < notAfter && 0.0 < threshold < 1.0
    ensures WindowStart(notBefore, notAfter, threshold) == notAfter - (notAfter - notBefore) * threshold
    ensures Needed(notBefore, notAfter, now, threshold) <==> now > WindowStart(notBefore, notAfter, threshold)
    ensures notBefore < WindowStart(notBefore, notAfter, threshold) < notAfter
  {
    var lifetime := notAfter - notBefore;
    QuotientBelow(notAfter - now, lifetime, threshold);
    PartIsProper(lifetime, threshold);
    assert Part(lifetime, threshold) == lifetime * threshold;
    hide Part;
  }

  /** A certificate without a lifetime, or past it, always needs renewal. */
  lemma NeededAtTheEnd(notBefore: real, notAfter: real, now: real, threshold: real)
    requires notAfter <= notBefore || now >= notAfter
    ensures Needed(notBefore, notAfter, now, threshold)
  {
  }

  function Clamped(x: real, low: real, high: real): real {
    if x < low then low else if x > high then high else x
  }

  /** The interval to the next check: five minutes if renewal is needed, else until the start of the window,
      but at least a minute and at most an hour. */
  lemma IntervalMeaning(notBefore: real, notAfter: real, now: real, threshold: real)
    ensures NextCheck(notBefore, notAfter, now, threshold) ==
      if Needed(notBefore, notAfter, now, threshold) then 300.0
      else Clamped(notAfter - (notAfter - notBefore) * threshold - now, 60.0, 3600.0)
  {
    hide Needed;
    assert Part(notAfter - notBefore, threshold) == (notAfter - notBefore) * threshold;
  }

  /** With a fraction outside that range the two functions disagree on the window: the test uses the
      default fraction, the interval the fraction as given. */
  lemma WindowsDisagree(notBefore: real, notAfter: real, threshold: real)
    requires notBefore < notAfter && (threshold <= 0.0 || threshold >= 1.0)
    ensures
      var tested := notAfter - (notAfter - notBefore) * 0.20;
      var aimed := notAfter - (notAfter - notBefore) * threshold;
      && (forall now :: Needed(notBefore, notAfter, now, threshold) <==> now > tested)
      && (forall now :: now <= tested ==>
            NextCheck(notBefore, notAfter, now, threshold) == Clamped(aimed - now, 60.0, 3600.0))
      && tested != aimed
  {
    var lifetime := notAfter - notBefore;
    forall now
      ensures Needed(notBefore, notAfter, now, threshold) == Needed(notBefore, notAfter, now, DEFAULT_THRESHOLD)
    {
    }
    forall now
      ensures Needed(notBefore, notAfter, now, DEFAULT_THRESHOLD)
        <==> now > WindowStart(notBefore, notAfter, DEFAULT_THRESHOLD)
    {
      NeededMeaning(notBefore, notAfter, now, DEFAULT_THRESHOLD);
    }
    NeededMeaning(notBefore, notAfter, notBefore, DEFAULT_THRESHOLD);
    forall now | !Needed(notBefore, notAfter, now, threshold)
      ensures NextCheck(notBefore, notAfter, now, threshold)
        == Clamped(notAfter - lifetime * threshold - now, 60.0, 3600.0)
    {
      IntervalMeaning(notBefore, notAfter, now, threshold);
    }
    if threshold <= 0.0 {
      assert lifetime * (DEFAULT_THRESHOLD - threshold) > 0.0;
    } else {
      assert lifetime * (threshold - DEFAULT_THRESHOLD) > 0.0;
    }
  }

  // ---------------------------------------------------------------- the loop

  /** How many whole hours fit before the window, and what is left after them. */
  function WholeHours(until: real): nat
    requires until >= 0.0
  {
    (until / 3600.0).Floor
  }

  /** When a loop that starts at `until` seconds before the window first asks for renewal, counted from
      the start of the window: one minute after it, unless the hourly wake-ups come within its last
      minute. */
  function Overshoot(until: real): real
    requires until >= 0.0
  {
    var left := until - WholeHours(until) as real * 3600.0;
    if 0.0 < left < 60.0 then 60.0 - left else 60.0
  }

  /** The loop up to its first renewal attempt: it sleeps, wakes up, and tests. */
  method FirstAttempt(notBefore: real, notAfter: real, start: real, threshold: real)
    returns (at: real, wakeups: nat)
    requires notBefore < notAfter && 0.0 < threshold < 1.0
    ensures Needed(notBefore, notAfter, at, threshold)
    ensures var window := WindowStart(notBefore, notAfter, threshold);
      if Needed(notBefore, notAfter, start, threshold) then at == start + 300.0 && wakeups == 1
      else
        && start <= window
        && at == window + Overshoot(window - start)
        && WholeHours(window - start) + 1 <= wakeups <= WholeHours(window - start) + 2
  {
    hide Needed, WindowStart;
    ghost var window := WindowStart(notBefore, notAfter, threshold);
    NeededMeaning(notBefore, notAfter, start, threshold);
    ghost var hours := if start <= window then WholeHours(window - start) else 0;
    if start <= window {
      HoursFit(window - start);
    }
    at, wakeups := start, 0;
    while true
      invariant Needed(notBefore, notAfter, at, threshold) ==> wakeups == 0
      invariant at == start
        || (start < at <= window && wakeups <= hours && at == start + wakeups as real * HOUR)
        || (start < at == window && wakeups == hours + 1 && window - start - hours as real * HOUR >= MINUTE)
      invariant at == start ==> wakeups == 0
      decreases window - at
    {
      at := at + NextCheck(notBefore, notAfter, at, threshold);
      wakeups := wakeups + 1;
      NeededMeaning(notBefore, notAfter, at, threshold);
      if Needed(notBefore, notAfter, at, threshold) {
        return;
      }
    }
  }

  lemma HoursFit(until: real)
    requires until >= 0.0
    ensures WholeHours(until) as real * HOUR <= until < (WholeHours(until) + 1) as real * HOUR
  {
  }

  /** So the first attempt of a loop started before the window comes after its start and at most one
      minute later.  It is in time, whenever the loop was started, if and only if the window is longer
      than a minute. */
  lemma AttemptIsInTimeIff(notBefore: real, notAfter: real, threshold: real)
    requires notBefore < notAfter && 0.0 < threshold < 1.0
    ensures forall until :: until >= 0.0 ==> 0.0 < Overshoot(until) <= 60.0
    ensures
      (forall until :: until >= 0.0 ==>
         WindowStart(notBefore, notAfter, threshold) + Overshoot(until) < notAfter)
      <==> (notAfter - notBefore) * threshold > 60.0
  {
    assert Part(notAfter - notBefore, threshold) == (notAfter - notBefore) * threshold;
    hide Part;
    forall until | until >= 0.0 ensures 0.0 < Overshoot(until) <= MINUTE {
      HoursFit(until);
    }
    assert WholeHours(0.0) == 0;
    assert Overshoot(0.0) == MINUTE;
  }
}
