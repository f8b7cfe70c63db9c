/** The probe loop of scanner.go's RunVerifyScanner: several probes a resolver, with early exit. */
module ProbeLoop {

  function Passes(outcomes: seq<bool>): nat {
    if outcomes == [] then 0
    else Passes(outcomes[..|outcomes| - 1]) + if outcomes[|outcomes| - 1] then 1 else 0
  }

  lemma {:induction false} PassesSplit(outcomes: seq<bool>, k: nat)
    requires k <= |outcomes|
    ensures Passes(outcomes[..k]) <= Passes(outcomes) <= Passes(outcomes[..k]) + (|outcomes| - k)
    ensures Passes(outcomes) <= |outcomes|
  {
    if k < |outcomes| {
      PassesSplit(outcomes[..|outcomes| - 1], k);
      assert outcomes[..|outcomes| - 1][..k] == outcomes[..k];
    } else {
      assert outcomes[..k] == outcomes;
      if outcomes != [] {
        PassesSplit(outcomes[..|outcomes| - 1], |outcomes| - 1);
      }
    }
  }

  lemma NoPasses(outcomes: seq<bool>)
    ensures Passes(outcomes[..0]) == 0
  {
  }

  lemma PassesStep(outcomes: seq<bool>, k: nat)
    requires k < |outcomes|
    ensures Passes(outcomes[..k + 1]) == Passes(outcomes[..k]) + if outcomes[k] then 1 else 0
  {
    assert outcomes[..k + 1][..k] == outcomes[..k];
  }

  /** After `k` probes the verdict is open: enough passes may still come, or may still fail to. */
  predicate Undecided(outcomes: seq<bool>, k: nat, threshold: nat)
    requires k <= |outcomes|
  {
    Passes(outcomes[..k]) < threshold <= Passes(outcomes[..k]) + (|outcomes| - k)
  }

  /**
   The loop over one resolver. `outcomes[i]` is what probe `i` would give, `halts[i]` whether the
   stop flag or the deadline is seen before it. `ran` probes are sent.
   */
  method RunProbes(outcomes: seq<bool>, halts: seq<bool>, threshold: nat) returns (passed: nat, ran: nat)
    requires |halts| == |outcomes| && threshold > 0
    ensures ran <= |outcomes| && passed == Passes(outcomes[..ran])
    // Never a pass too few, even when cut short.
    ensures passed >= threshold ==> Passes(outcomes) >= threshold
    // Unless cut short, the verdict of all probes.
    ensures (ran < |outcomes| && halts[ran] && Undecided(outcomes, ran, threshold))
      || (passed >= threshold <==> Passes(outcomes) >= threshold)
    // No probe is sent once the verdict is certain, and none after a halt.
    ensures forall k :: 0 < k < ran && threshold <= |outcomes| ==> Undecided(outcomes, k, threshold)
    ensures forall k :: 0 <= k < ran ==> !halts[k]
  {
    hide Passes;
    NoPasses(outcomes);
    passed := 0;
    var maxFailures := |outcomes| - threshold;
    var failures := 0;
    ran := 0;
    while ran < |outcomes|
      invariant ran <= |outcomes| && passed == Passes(outcomes[..ran]) && failures == ran - passed
      invariant passed < threshold && (ran > 0 && failures > 0 ==> failures <= maxFailures)
      invariant forall k :: 0 < k < ran && threshold <= |outcomes| ==> Undecided(outcomes, k, threshold)
      invariant forall k :: 0 <= k < ran ==> !halts[k]
    {
      PassesSplit(outcomes, ran);
      if halts[ran] {
        return;
      }
      PassesStep(outcomes, ran);
      PassesSplit(outcomes, ran + 1);
      ran := ran + 1;
      if outcomes[ran - 1] {
        passed := passed + 1;
        if passed >= threshold {
          return;
        }
      } else {
        failures := failures + 1;
        if failures > maxFailures {
          return;
        }
      }
    }
    assert outcomes[..ran] == outcomes;
  }

  // ----- The numbers the loop runs with -----

  /** Go's integer division: towards zero. */
  function GoDiv(a: int, b: int): int
    requires b > 0
  {
    if a >= 0 then a / b else -((-a) / b)
  }

  function SettledCount(probeCount: int): (n: int)
    ensures n > 0
  {
    if probeCount <= 0 then 5 else probeCount
  }

  function SettledThreshold(timeoutMs: int, probeCount: int, passThreshold: int): (n: int)
    ensures n > 0
  {
    var wanted := if passThreshold <= 0 || passThreshold > SettledCount(probeCount) then 2 else passThreshold;
    var most := if GoDiv(timeoutMs, 200) < 1 then 1 else GoDiv(timeoutMs, 200);
    if wanted > most then most else wanted
  }

  function PerProbe(timeoutMs: int, threshold: int): int
    requires threshold > 0
  {
    if GoDiv(timeoutMs, threshold) < 200 then 200 else GoDiv(timeoutMs, threshold)
  }

  lemma TimesMonotone(x: int, y: int, b: nat)
    ensures x <= y ==> x * b <= y * b
  {
  }

  lemma DivAtLeast(a: nat, b: nat, q: nat)
    requires b > 0 && q * b <= a
    ensures a / b >= q
  {
    assert a < (a / b + 1) * b;
    TimesMonotone(a / b + 1, q, b);
  }

  /** The probes needed fit the resolver's time exactly when that time is 200 ms or more. */
  lemma NeededProbesFit(timeoutMs: int, probeCount: int, passThreshold: int)
    ensures var threshold := SettledThreshold(timeoutMs, probeCount, passThreshold);
      threshold * PerProbe(timeoutMs, threshold) <= timeoutMs <==> timeoutMs >= 200
  {
    var threshold := SettledThreshold(timeoutMs, probeCount, passThreshold);
    if timeoutMs >= 200 {
      assert threshold <= timeoutMs / 200;
      assert threshold * 200 <= timeoutMs;
      DivAtLeast(timeoutMs, threshold, 200);
      assert PerProbe(timeoutMs, threshold) == timeoutMs / threshold;
      assert threshold * (timeoutMs / threshold) <= timeoutMs;
    } else {
      assert threshold == 1;
    }
  }

  /** The numbers can ask for more passes than there are probes, in exactly this case. */
  predicate AsksTooMuch(timeoutMs: int, probeCount: int, passThreshold: int) {
    probeCount == 1 && passThreshold != 1 && timeoutMs >= 400
  }

  lemma ThresholdSettles(timeoutMs: int, probeCount: int, passThreshold: int)
    ensures var count := SettledCount(probeCount);
      var threshold := SettledThreshold(timeoutMs, probeCount, passThreshold);
      var wanted := if 1 <= passThreshold <= count then passThreshold else 2;
      if timeoutMs < 200 then threshold == 1
      else if 200 * wanted <= timeoutMs then threshold == wanted
      else 200 * threshold <= timeoutMs < 200 * (threshold + 1)
  {
  }

  lemma ProbesAreLong(timeoutMs: int, probeCount: int, passThreshold: int)
    ensures var threshold := SettledThreshold(timeoutMs, probeCount, passThreshold);
      timeoutMs >= 200 ==> timeoutMs < threshold * (PerProbe(timeoutMs, threshold) + 1)
  {
    var threshold := SettledThreshold(timeoutMs, probeCount, passThreshold);
    if timeoutMs >= 200 {
      assert timeoutMs < threshold * (timeoutMs / threshold + 1);
      if timeoutMs / threshold < 200 {
        TimesMonotone(timeoutMs / threshold + 1, 201, threshold);
      }
    }
  }

  lemma TooManyPassesIff(timeoutMs: int, probeCount: int, passThreshold: int)
    ensures SettledThreshold(timeoutMs, probeCount, passThreshold) > SettledCount(probeCount)
      <==> AsksTooMuch(timeoutMs, probeCount, passThreshold)
  {
  }

  /** The three numbers RunVerifyScanner settles on. */
  method Settle(timeoutMs: int, probeCount: int, passThreshold: int)
    returns (count: int, threshold: int, perProbeMs: int)
    ensures count == SettledCount(probeCount)
    ensures threshold == SettledThreshold(timeoutMs, probeCount, passThreshold)
    ensures perProbeMs == PerProbe(timeoutMs, threshold)
    // There is always something to probe for, and never less than 200 ms for it.
    ensures count > 0 && threshold > 0 && perProbeMs >= 200
    // The passes asked for fit the resolver's time, if that is long enough for one of them.
    ensures threshold * perProbeMs <= timeoutMs <==> timeoutMs >= 200
    // The number asked for is kept if it is in range and the time allows it; 2 stands in for one out of range.
    ensures 1 <= passThreshold <= count && 200 * passThreshold <= timeoutMs ==> threshold == passThreshold
    ensures !(1 <= passThreshold <= count) && timeoutMs >= 400 ==> threshold == 2
    // Otherwise it is the most the time allows, and one at least.
    ensures 200 <= timeoutMs < 200 * (if 1 <= passThreshold <= count then passThreshold else 2) ==>
      200 * threshold <= timeoutMs < 200 * (threshold + 1)
    ensures timeoutMs < 200 ==> threshold == 1 && perProbeMs == 200
    // Each probe has as long as the resolver's time gives it, and five are sent if nothing is asked for.
    ensures timeoutMs >= 200 ==> timeoutMs < threshold * (perProbeMs + 1)
    ensures count == if probeCount >= 1 then probeCount else 5
    // More passes than probes are asked for in one case.
    ensures threshold > count <==> AsksTooMuch(timeoutMs, probeCount, passThreshold)
  {
    NeededProbesFit(timeoutMs, probeCount, passThreshold);
    ThresholdSettles(timeoutMs, probeCount, passThreshold);
    ProbesAreLong(timeoutMs, probeCount, passThreshold);
    TooManyPassesIff(timeoutMs, probeCount, passThreshold);
    count, threshold := probeCount, passThreshold;
    if count <= 0 {
      count := 5;
    }
    if threshold <= 0 || threshold > count {
      threshold := 2;
    }
    var maxThreshold := GoDiv(timeoutMs, 200);
    if maxThreshold < 1 {
      maxThreshold := 1;
    }
    if threshold > maxThreshold {
      threshold := maxThreshold;
    }
    perProbeMs := GoDiv(timeoutMs, threshold);
    if perProbeMs < 200 {
      perProbeMs := 200;
    }
  }

  /** No outcome of the probes verifies a resolver exactly when the numbers ask too much. */
  lemma NobodyVerifiesIff(timeoutMs: int, probeCount: int, passThreshold: int)
    ensures var count, threshold := SettledCount(probeCount), SettledThreshold(timeoutMs, probeCount, passThreshold);
      (forall outcomes: seq<bool> :: |outcomes| == count ==> Passes(outcomes) < threshold)
      <==> AsksTooMuch(timeoutMs, probeCount, passThreshold)
  {
    var count, threshold := SettledCount(probeCount), SettledThreshold(timeoutMs, probeCount, passThreshold);
    TooManyPassesIff(timeoutMs, probeCount, passThreshold);
    if threshold > count {
      forall outcomes: seq<bool> | |outcomes| == count
        ensures Passes(outcomes) < threshold
      {
        PassesSplit(outcomes, 0);
      }
    } else {
      AllPass(count);
      assert |seq(count, _ => true)| == count;
    }
  }

  lemma {:induction false} AllPass(n: nat)
    ensures Passes(seq(n, _ => true)) == n
  {
    if n > 0 {
      AllPass(n - 1);
      assert seq(n, _ => true)[..n - 1] == seq(n - 1, _ => true);
    }
  }
}
