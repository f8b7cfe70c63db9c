/**
 When a full e2eChan costs a qualifying resolver its end-to-end test: the send in RunScanner does not
 wait, so a host that finds the buffer full is passed over.
 */
module ScanOverflow {
  import opened Bytes
  import opened ScanPipeline
  import opened ScanProgress

  /** What the caller can see beforehand; 6 is the highest score there is. */
  predicate CanRefuse(p: Params) {
    p.e2e && p.total > 200 && p.threshold <= 6 && p.concurrency > 0
  }

  // ----- A run that fills the buffer -----

  const BEST: Result := Result(Working, 6)

  lemma Extend(p: Params, run: seq<Action>, a: Action)
    requires Schedule(p, run) && Enabled(p, After(p, run), a)
    ensures Schedule(p, run + [a]) && After(p, run + [a]) == Apply(p, After(p, run), a)
  {
    hide Enabled, Apply;
    assert (run + [a])[..|run|] == run;
  }

  /** With no worker receiving, the first hosts fill the buffer and the others are refused. */
  predicate Offered(c: Channel, n: nat) {
    && !c.closed && c.overflow + |c.buffer| == n
    && |c.buffer| == if n < CAPACITY then n else CAPACITY
  }

  /** The first `n` resolvers have been scanned one after the other, all with the best result. */
  predicate Parked(p: Params, s: State, n: nat) {
    && |s.scanners| == p.total && n <= p.total
    && s.dispatch == Looking && s.spawned == n && !s.stopped
    && s.slots.permits == 0 && s.lists.mutex == None && Offered(s.channel, n)
  }

  /** The last resolver spawned, number `n`, is on its way and the only one that is. */
  predicate Underway(p: Params, s: State, n: nat) {
    && |s.scanners| == p.total && n < p.total
    && s.dispatch == Looking && s.spawned == n + 1 && !s.stopped
    && var sc := s.scanners[n];
    && sc.pc != NotStarted
    && (sc.pc !in {Started, Scanning} ==> sc.result == Some(BEST))
    && s.slots.permits == (if sc.pc in {Exiting, Gone} then 0 else 1)
    && s.lists.mutex == (if InLock(sc) then Some(n) else None)
    && Offered(s.channel, if sc.pc in {Unlocking, Releasing, Exiting, Gone} then n + 1 else n)
  }

  lemma Spawned(p: Params, run: seq<Action>, n: nat) returns (run': seq<Action>)
    requires Schedule(p, run) && Parked(p, After(p, run), n) && n < p.total && p.concurrency > 0
    ensures Schedule(p, run') && Underway(p, After(p, run'), n)
  {
    Extend(p, run, Dispatch);
    run' := run + [Dispatch];
    assert After(p, run').dispatch == Acquiring;
    Extend(p, run', Dispatch);
    run' := run' + [Dispatch];
    assert After(p, run').dispatch == Holding;
    Extend(p, run', Dispatch);
    run' := run' + [Dispatch];
  }

  lemma MovesOn(p: Params, s: State, n: nat)
    requires CanRefuse(p) && Underway(p, s, n) && s.scanners[n].pc != Gone
    ensures Enabled(p, s, Scan(n, BEST))
    ensures Underway(p, ScanStep(p, s, n, BEST), n)
    ensures ScanRank(ScanStep(p, s, n, BEST).scanners[n]) < ScanRank(s.scanners[n])
  {
  }

  lemma {:induction false} Scanned(p: Params, run: seq<Action>, n: nat) returns (run': seq<Action>)
    requires CanRefuse(p) && Schedule(p, run) && Underway(p, After(p, run), n)
    ensures Schedule(p, run') && Parked(p, After(p, run'), n + 1)
    decreases ScanRank(After(p, run).scanners[n])
  {
    hide ScanStep, Enabled, ScanRank;
    var s := After(p, run);
    if s.scanners[n].pc == Gone {
      return run;
    }
    MovesOn(p, s, n);
    Extend(p, run, Scan(n, BEST));
    run' := Scanned(p, run + [Scan(n, BEST)], n);
  }

  lemma ParkedAtStart(p: Params)
    ensures Schedule(p, []) && Parked(p, After(p, []), 0)
  {
  }

  lemma {:induction false} ScannedInTurn(p: Params, n: nat) returns (run: seq<Action>)
    requires CanRefuse(p) && n <= p.total
    ensures Schedule(p, run) && Parked(p, After(p, run), n)
  {
    hide Parked, Underway, Schedule, After;
    if n == 0 {
      ParkedAtStart(p);
      return [];
    }
    run := ScannedInTurn(p, n - 1);
    run := Spawned(p, run, n - 1);
    run := Scanned(p, run, n - 1);
  }

  lemma OverflowStays(p: Params, s: State, a: Action)
    requires Enabled(p, s, a) && a != Interrupt
    ensures Apply(p, s, a).channel.overflow >= s.channel.overflow && Apply(p, s, a).stopped == s.stopped
  {
  }

  /** Any run can be carried on to its end without an interrupt; no refusal is made good on the way. */
  lemma {:induction false} CarriedOn(p: Params, run: seq<Action>) returns (run': seq<Action>)
    requires Schedule(p, run) && p.concurrency > 0
    ensures run <= run' && Schedule(p, run') && After(p, run').dispatch == Finished
    ensures After(p, run').stopped == After(p, run).stopped
    ensures After(p, run').channel.overflow >= After(p, run).channel.overflow
    decreases 23 * p.total + p.Workers() + 7 - |run|
  {
    hide Enabled, Apply;
    var s := After(p, run);
    if s.dispatch == Finished {
      return run;
    }
    NeverBlocks(p, run);
    var a :| a != Interrupt && Enabled(p, s, a);
    Extend(p, run, a);
    RunsAreShort(p, run + [a]);
    OverflowStays(p, s, a);
    run' := CarriedOn(p, run + [a]);
  }

  // ----- No such run otherwise -----

  lemma {:induction false} DistinctIsShort(s: seq<nat>, n: nat)
    requires Distinct(s) && forall i :: 0 <= i < |s| ==> s[i] < n
    ensures |s| <= n
    decreases n
  {
    if k :| 0 <= k < |s| && s[k] == n - 1 {
      var without := s[..k] + s[k + 1..];
      assert forall i :: 0 <= i < |without| ==> without[i] == s[if i < k then i else i + 1];
      DistinctIsShort(without, n - 1);
    } else if s != [] {
      assert s[0] < n;
      DistinctIsShort(s, n - 1);
    }
  }

  lemma {:induction false} NoneSpawned(p: Params, run: seq<Action>)
    requires Schedule(p, run) && p.concurrency == 0
    ensures After(p, run).spawned == 0
  {
    hide Sum;
    if run != [] {
      NoneSpawned(p, run[..|run| - 1]);
      InvAlways(p, run[..|run| - 1]);
    }
  }

  lemma WhatIsListed(p: Params, s: State, h: nat)
    requires Inv(p, s) && h in s.lists.workingIPs
    ensures h < s.spawned <= p.total && p.threshold <= 6
  {
    hide Sum, Distinct, InvChannel, InvTests, InvHosts;
    assert Local(p, s.scanners[h], s.stopped);
  }

  lemma RefusedAreListed(p: Params, s: State)
    requires Inv(p, s) && s.channel.overflow > 0
    ensures p.e2e && |s.lists.workingIPs| > CAPACITY && Distinct(s.lists.workingIPs)
  {
    hide InvSlots, InvCounts, InvTests, InvHosts, Distinct;
  }

  /** Interrupted or not, no run refuses a host. */
  lemma NoneRefused(p: Params, run: seq<Action>)
    requires Schedule(p, run) && !CanRefuse(p)
    ensures After(p, run).channel.overflow == 0
  {
    hide Inv, Distinct;
    InvAlways(p, run);
    var s := After(p, run);
    if s.channel.overflow > 0 {
      RefusedAreListed(p, s);
      forall i | 0 <= i < |s.lists.workingIPs|
        ensures s.lists.workingIPs[i] < s.spawned <= p.total && p.threshold <= 6
      {
        WhatIsListed(p, s, s.lists.workingIPs[i]);
      }
      assert s.lists.workingIPs[0] < s.spawned;
      if p.concurrency == 0 {
        NoneSpawned(p, run);
      }
      DistinctIsShort(s.lists.workingIPs, p.total);
    }
  }

  /** A schedule that runs to the end without an interrupt. */
  predicate Complete(p: Params, run: seq<Action>) {
    Schedule(p, run) && After(p, run).dispatch == Finished && !After(p, run).stopped
  }

  /** For these arguments, and no others, a host can be refused, and then in a complete run too. */
  lemma RefusalIff(p: Params)
    ensures CanRefuse(p) <==> exists run :: Schedule(p, run) && After(p, run).channel.overflow > 0
    ensures CanRefuse(p) <==> exists run :: Complete(p, run) && After(p, run).channel.overflow > 0
  {
    hide Inv, Enabled, Apply;
    if CanRefuse(p) {
      var run := ScannedInTurn(p, p.total);
      var whole := CarriedOn(p, run);
      assert Complete(p, whole) && After(p, whole).channel.overflow > 0;
    } else {
      forall run | Schedule(p, run)
        ensures After(p, run).channel.overflow == 0
      {
        NoneRefused(p, run);
      }
    }
  }

  /** With end-to-end tests on, every complete run queues all hosts that qualify iff none can be refused. */
  lemma AllQueuedIff(p: Params)
    requires p.e2e
    ensures (forall run :: Complete(p, run) ==>
               |After(p, run).channel.sent| == |After(p, run).lists.workingIPs|)
      <==> p.total <= 200 || p.threshold > 6 || p.concurrency == 0
  {
    hide Inv, Enabled, Apply;
    RefusalIff(p);
    forall run | Complete(p, run)
      ensures |After(p, run).channel.sent| + After(p, run).channel.overflow == |After(p, run).lists.workingIPs|
    {
      FinishedIsComplete(p, run);
    }
  }
}
