/** What an interrupt still lets through: only what was already under way. */
module ScanInterrupt {
  import opened Bytes
  import opened ScanPipeline

  function UnderScan(sc: Scanner): nat {
    if sc.pc == Scanning then 1 else 0
  }

  function UnderOffer(sc: Scanner): nat {
    if sc.pc == Offering then 1 else 0
  }

  function UnderTest(w: Worker): nat {
    if w.Testing? then 1 else 0
  }

  /** Nothing but what is under way can still add to the three counts. */
  predicate NoMore(s: State, s': State) {
    && s'.stopped && s'.spawned == s.spawned && |s'.workers| == |s.workers|
    && s'.counts.scanned + Sum(s'.scanners, UnderScan) <= s.counts.scanned + Sum(s.scanners, UnderScan)
    && |s'.channel.sent| + Sum(s'.scanners, UnderOffer) <= |s.channel.sent| + Sum(s.scanners, UnderOffer)
    && s'.tests.tested + Sum(s'.workers, UnderTest) <= s.tests.tested + Sum(s.workers, UnderTest)
  }

  lemma StoppedStep(p: Params, s: State, a: Action)
    requires s.stopped && Enabled(p, s, a)
    ensures NoMore(s, Apply(p, s, a))
  {
    hide Sum, ScanLists, ScanSlots, DispatchSlots;
    match a
    case Scan(j, outcome) =>
      var x := NextScanner(p, s.scanners[j], s.stopped, outcome);
      SumUpdate(s.scanners, j, x, UnderScan);
      SumUpdate(s.scanners, j, x, UnderOffer);
    case Work(k, port, success) =>
      SumUpdate(s.workers, k, NextWorker(s.workers[k], s.channel, s.stopped, port, success), UnderTest);
    case _ =>
  }

  lemma {:induction false} StoppedRun(p: Params, run: seq<Action>, more: seq<Action>)
    requires Schedule(p, run + more)
    ensures Schedule(p, run)
    ensures After(p, run).stopped ==> NoMore(After(p, run), After(p, run + more))
    decreases |more|
  {
    hide Sum, Enabled, Apply;
    if more == [] {
      assert run + more == run;
    } else {
      var all, before := run + more, run + more[..|more| - 1];
      assert all[..|all| - 1] == before;
      StoppedRun(p, run, more[..|more| - 1]);
      if After(p, run).stopped {
        StoppedStep(p, After(p, before), all[|all| - 1]);
      }
    }
  }

  /** One scanner at most is about to send: it holds the mutex. */
  lemma OneOffer(p: Params, s: State)
    requires InvLists(p, s)
    ensures Sum(s.scanners, UnderOffer) <= 1
  {
    hide Sum;
    if s.lists.mutex == None {
      SumZero(s.scanners, UnderOffer);
    } else {
      var m := s.lists.mutex.value;
      var without := s.scanners[m := Scanner(Gone, None)];
      SumUpdate(s.scanners, m, Scanner(Gone, None), UnderOffer);
      assert forall j :: 0 <= j < |without| && j != m ==> !InLock(without[j]);
      SumZero(without, UnderOffer);
    }
  }

  /**
   From an interrupt on, in every continuation: no scan is started, at most `concurrency` more are
   counted, at most one more host is queued, and at most one more test a worker is counted.
   */
  lemma AfterInterrupt(p: Params, run: seq<Action>, more: seq<Action>)
    requires Schedule(p, run + more)
    ensures Schedule(p, run)
    ensures After(p, run).stopped ==>
      var s, s' := After(p, run), After(p, run + more);
      && s'.spawned == s.spawned
      && s'.counts.scanned <= s.counts.scanned + p.concurrency
      && |s'.channel.sent| <= |s.channel.sent| + 1
      && s'.tests.tested <= s.tests.tested + p.Workers()
  {
    hide Sum;
    StoppedRun(p, run, more);
    InvAlways(p, run);
    var s := After(p, run);
    SumBelow(s.scanners, UnderScan, Permit);
    OneOffer(p, s);
    TestsBound(s.workers);
  }

  lemma {:induction false} TestsBound(workers: seq<Worker>)
    ensures Sum(workers, UnderTest) <= |workers|
  {
    if workers != [] {
      TestsBound(workers[1..]);
    }
  }
}
