/** The retry loop of keep and daemon.  Times are real numbers of seconds. */
module Backoff {
  const MIN_WAIT := 0.5
  const MAX_WAIT := 60.0

  /** How long to sleep after a run of dt seconds. */
  function SleepAfter(wait: real, dt: real): real {
    if dt >= wait then 0.0
    else if dt < 1.0 then wait
    else wait / dt
  }

  /** The next backoff after a run of dt seconds. */
  function NextWait(wait: real, dt: real): real {
    if dt > MAX_WAIT then MIN_WAIT
    else if 4.0 * wait > MAX_WAIT then MAX_WAIT
    else 4.0 * wait
  }

  // ----- a run of the loop, as a function of how long each session lasted

  function WaitAfter(dts: seq<real>): real {
    if dts == [] then MIN_WAIT
    else NextWait(WaitAfter(dts[..|dts| - 1]), dts[|dts| - 1])
  }

  /** From the start of the last session to the start of the one after. */
  function Gap(wait: real, dt: real): real {
    dt + SleepAfter(wait, dt)
  }

  function Elapsed(dts: seq<real>): real {
    if dts == [] then 0.0
    else Elapsed(dts[..|dts| - 1]) + Gap(WaitAfter(dts[..|dts| - 1]), dts[|dts| - 1])
  }

  predicate NonNegative(dts: seq<real>) {
    forall k :: 0 <= k < |dts| ==> dts[k] >= 0.0
  }

  /** The sleep is the part of the backoff that goes with one second of the run, a run shorter than a second
  counting as one; and there is none after a run as long as the backoff. */
  lemma SleepTimesRun(wait: real, dt: real)
    requires wait > 0.0
    ensures SleepAfter(wait, dt) * (if dt < 1.0 then 1.0 else dt) == if dt < wait then wait else 0.0
  {
    if 1.0 <= dt < wait {
      var q := wait / dt;
      assert q * dt == wait;
    }
  }

  // ----- the backoff only takes five values

  predicate IsWait(wait: real) {
    wait == 0.5 || wait == 2.0 || wait == 8.0 || wait == 32.0 || wait == 60.0
  }

  lemma {:induction false} OnlyFiveWaits(dts: seq<real>)
    ensures IsWait(WaitAfter(dts))
  {
    if dts != [] {
      OnlyFiveWaits(dts[..|dts| - 1]);
    }
  }

  // ----- how long a gap can and must be

  lemma SquareNonNegative(x: real)
    ensures x * x >= 0.0
  {
  }

  lemma NonNegativeFactor(a: real, b: real)
    requires b > 0.0 && a * b >= 0.0
    ensures a >= 0.0
  {
  }

  /** For the sum of a number and what it divides out of a square: x + r*r/x >= 2r. */
  lemma SumAtLeastTwiceRoot(x: real, w: real, r: real)
    requires x > 0.0 && r >= 0.0 && r * r <= w
    ensures x + w / x >= 2.0 * r
  {
    SquareNonNegative(x - r);
    assert (x - r) * (x - r) == x * x - 2.0 * r * x + r * r;
    var q := w / x;
    assert q * x == w;
    NonNegativeFactor(x + q - 2.0 * r, x);
  }

  /** The last gap is shortest after a run of about the square root of the wait. */
  lemma GapAtLeast(wait: real, dt: real, r: real)
    requires dt >= 0.0 && r >= 0.0 && r * r <= wait && 2.0 * r <= wait
    ensures Gap(wait, dt) >= 2.0 * r
  {
    if 1.0 <= dt < wait {
      SumAtLeastTwiceRoot(dt, wait, r);
    }
  }

  /** A start never comes later than the end of the previous run, or wait + 1 seconds after its
  start, whichever is later; and no sleep is longer than the backoff, nor the backoff than a minute. */
  lemma GapAtMost(wait: real, dt: real)
    requires dt >= 0.0 && 0.0 < wait <= MAX_WAIT
    ensures 0.0 <= SleepAfter(wait, dt) <= wait
    ensures Gap(wait, dt) <= if dt >= wait + 1.0 then dt else wait + 1.0
  {
    if 1.0 <= dt < wait {
      var q := wait / dt;
      assert q * dt == wait;
      assert (dt - 1.0) * (dt - wait) <= 0.0;
      assert (dt - 1.0) * (dt - wait) == (dt + q - wait - 1.0) * dt;
      NonNegativeFactor(wait + 1.0 - dt - q, dt);
      assert (wait - q) * dt == wait * (dt - 1.0);
      NonNegativeFactor(wait - q, dt);
      NonNegativeFactor(q, dt);
    }
  }

  lemma EveryGapBounded(dts: seq<real>, dt: real)
    requires dt >= 0.0
    ensures var wait := WaitAfter(dts);
            && 0.0 <= SleepAfter(wait, dt) <= wait <= MAX_WAIT
            && Gap(wait, dt) <= if dt >= wait + 1.0 then dt else wait + 1.0
  {
    OnlyFiveWaits(dts);
    GapAtMost(WaitAfter(dts), dt);
  }

  // ----- the amortised rate of retries

  /** What the retries made so far have still to pay for, at an average of 15 seconds each. */
  function Potential(wait: real): real
    requires IsWait(wait)
  {
    if wait == 0.5 then 41.0
    else if wait == 2.0 then 26.5
    else if wait == 8.0 then 13.5
    else if wait == 32.0 then 4.0
    else 0.0
  }

  lemma StepPaysFor(wait: real, dt: real)
    requires IsWait(wait) && dt >= 0.0
    ensures IsWait(NextWait(wait, dt))
    ensures Gap(wait, dt) + Potential(wait) >= 15.0 + Potential(NextWait(wait, dt))
  {
    if dt > MAX_WAIT {
    } else if wait == 0.5 {
      GapAtLeast(wait, dt, 0.25);
    } else if wait == 2.0 {
      GapAtLeast(wait, dt, 1.0);
    } else if wait == 8.0 {
      GapAtLeast(wait, dt, 2.8);
    } else if wait == 32.0 {
      GapAtLeast(wait, dt, 5.6);
    } else {
      GapAtLeast(wait, dt, 7.7);
    }
  }

  lemma {:induction false} ElapsedWithPotential(dts: seq<real>)
    requires NonNegative(dts)
    ensures IsWait(WaitAfter(dts))
    ensures Elapsed(dts) >= 15.0 * (|dts| as real) - 41.0 + Potential(WaitAfter(dts))
  {
    if dts != [] {
      ElapsedWithPotential(dts[..|dts| - 1]);
      StepPaysFor(WaitAfter(dts[..|dts| - 1]), dts[|dts| - 1]);
    }
  }

  /** However long the sessions last, k of them take at least 15k - 41 seconds. */
  lemma {:induction false} RetryRate(dts: seq<real>)
    requires NonNegative(dts)
    ensures Elapsed(dts) >= 15.0 * (|dts| as real) - 41.0
  {
    ElapsedWithPotential(dts);
  }

  function Sum(dts: seq<real>): real {
    if dts == [] then 0.0 else Sum(dts[..|dts| - 1]) + dts[|dts| - 1]
  }

  /** And besides the sessions they take a minute each at most. */
  lemma {:induction false} ElapsedAtMost(dts: seq<real>)
    requires NonNegative(dts)
    ensures Sum(dts) <= Elapsed(dts) <= Sum(dts) + 60.0 * (|dts| as real)
  {
    if dts != [] {
      ElapsedAtMost(dts[..|dts| - 1]);
      EveryGapBounded(dts[..|dts| - 1], dts[|dts| - 1]);
    }
  }

  // ----- the backoff in closed form

  function PowerOfFour(n: nat): real {
    if n == 0 then 1.0 else 4.0 * PowerOfFour(n - 1)
  }

  /** n short runs in a row, at the start or after a reset. */
  predicate ShortRunsAfterReset(dts: seq<real>, n: nat) {
    && n <= |dts|
    && (forall k :: |dts| - n <= k < |dts| ==> dts[k] <= MAX_WAIT)
    && (n == |dts| || dts[|dts| - n - 1] > MAX_WAIT)
  }

  lemma {:induction false} ClosedForm(dts: seq<real>, n: nat)
    requires ShortRunsAfterReset(dts, n)
    ensures WaitAfter(dts) == if 0.5 * PowerOfFour(n) <= MAX_WAIT then 0.5 * PowerOfFour(n) else MAX_WAIT
  {
    if n > 0 {
      var before := dts[..|dts| - 1];
      assert n < |dts| ==> before[|before| - n] == dts[|dts| - n - 1];
      ClosedForm(before, n - 1);
    }
  }

  // ----- the loop itself

  /** persistent: sessions lasting dts, with the shutdown flag as it is seen by each loop test. It
  returns the backoff, how many sessions it ran and the time they and the sleeps took. */
  method Persistent(dts: seq<real>, shuttingDown: seq<bool>) returns (wait: real, ran: nat, elapsed: real)
    requires NonNegative(dts) && |shuttingDown| == |dts|
    ensures ran <= |dts|
    ensures forall k :: 0 <= k < ran ==> !shuttingDown[k]
    ensures ran < |dts| ==> shuttingDown[ran]
    ensures wait == WaitAfter(dts[..ran]) && elapsed == Elapsed(dts[..ran])
    ensures elapsed >= 15.0 * (ran as real) - 41.0
  {
    wait, ran, elapsed := MIN_WAIT, 0, 0.0;
    while ran < |dts| && !shuttingDown[ran]
      invariant ran <= |dts|
      invariant forall k :: 0 <= k < ran ==> !shuttingDown[k]
      invariant wait == WaitAfter(dts[..ran]) && elapsed == Elapsed(dts[..ran])
    {
      var dt := dts[ran];
      elapsed := elapsed + dt;
      var st := SleepAfter(wait, dt);
      if st > 0.0 {
        elapsed := elapsed + st;
      }
      assert st >= 0.0 by {
        EveryGapBounded(dts[..ran], dt);
      }
      wait := NextWait(wait, dt);
      assert dts[..ran + 1][..ran] == dts[..ran];
      ran := ran + 1;
    }
    RetryRate(dts[..ran]);
  }
}
