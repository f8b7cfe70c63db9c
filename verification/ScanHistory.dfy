/**
 What a scan reports, against what its schedule says happened: the outcomes that the steps of a run
 carried, gathered from the run alone.
 */
module ScanHistory {
  import opened Bytes
  import opened ScanPipeline

  // ----- The history of a run -----

  /** This step ends the scan of a resolver. */
  predicate EndsScan(s: State, a: Action) {
    a.Scan? && a.j < |s.scanners| && s.scanners[a.j].pc == Scanning
  }

  /** This step ends the end-to-end test of a host. */
  predicate EndsTest(s: State, a: Action) {
    a.Work? && a.k < |s.workers| && s.workers[a.k].Testing?
  }

  /** This step decides whether a host just received is tested at all. */
  predicate Decides(s: State, a: Action) {
    a.Work? && a.k < |s.workers| && s.workers[a.k].Got?
  }

  /** The outcome of every scan that has ended, by resolver. */
  function Found(p: Params, run: seq<Action>): map<nat, Result>
    requires Schedule(p, run)
  {
    if run == [] then map[]
    else
      var before, a := run[..|run| - 1], run[|run| - 1];
      if EndsScan(After(p, before), a) then Found(p, before)[a.j := a.outcome] else Found(p, before)
  }

  /** The outcome of every test that has ended, by host. */
  function Verdicts(p: Params, run: seq<Action>): map<nat, bool>
    requires Schedule(p, run)
  {
    if run == [] then map[]
    else
      var before, a := run[..|run| - 1], run[|run| - 1];
      var s := After(p, before);
      if EndsTest(s, a) then Verdicts(p, before)[s.workers[a.k].host := a.success] else Verdicts(p, before)
  }

  /** How many scans have ended with a status. */
  function Ended(p: Params, run: seq<Action>, status: Status): nat
    requires Schedule(p, run)
  {
    if run == [] then 0
    else
      var before, a := run[..|run| - 1], run[|run| - 1];
      Ended(p, before, status)
      + if EndsScan(After(p, before), a) && a.outcome.status == status then 1 else 0
  }

  /** How many tests have ended with a verdict. */
  function Tried(p: Params, run: seq<Action>, success: bool): nat
    requires Schedule(p, run)
  {
    if run == [] then 0
    else
      var before, a := run[..|run| - 1], run[|run| - 1];
      Tried(p, before, success) + if EndsTest(After(p, before), a) && a.success == success then 1 else 0
  }

  /** How many hosts have been given up: by a worker that saw the interrupt, or had no port. */
  function GivenUp(p: Params, run: seq<Action>): nat
    requires Schedule(p, run)
  {
    if run == [] then 0
    else
      var before, a := run[..|run| - 1], run[|run| - 1];
      var s := After(p, before);
      GivenUp(p, before) + if Decides(s, a) && (s.stopped || !a.port) then 1 else 0
  }

  // ----- Scans -----

  /** Every scanner has the result that its scan ended with. */
  ghost predicate Recorded(s: State, found: map<nat, Result>) {
    && (forall j :: j in found ==> j < |s.scanners|)
    && forall j: nat :: j < |s.scanners| ==>
         s.scanners[j].result == if j in found then Some(found[j]) else None
  }

  lemma RecordedStep(p: Params, s: State, a: Action, found: map<nat, Result>)
    requires InvCounts(p, s) && InvSlots(p, s) && Recorded(s, found) && Enabled(p, s, a)
    ensures Recorded(Apply(p, s, a), if EndsScan(s, a) then found[a.j := a.outcome] else found)
  {
    hide Sum, InvCounts, Local, ScanCounts, ScanLists, ScanChannel, ScanSlots, DispatchSlots, WorkTests;
    match a
    case Dispatch =>
    case Scan(j, outcome) => ScannerResult(p, s.scanners[j], s.stopped, outcome);
    case _ =>
  }

  lemma ScannerResult(p: Params, sc: Scanner, stopped: bool, outcome: Result)
    ensures NextScanner(p, sc, stopped, outcome).result == if sc.pc == Scanning then Some(outcome) else sc.result
  {
  }

  lemma {:induction false} ResultsAreOutcomes(p: Params, run: seq<Action>)
    requires Schedule(p, run)
    ensures Recorded(After(p, run), Found(p, run))
  {
    hide Enabled, Apply, Recorded, Inv, InvSlots, InvCounts, InvLists, InvChannel, InvTests, InvHosts, EndsScan;
    if run == [] {
      NothingRecorded(p);
    } else {
      var before := run[..|run| - 1];
      ResultsAreOutcomes(p, before);
      CountsHold(p, before);
      RecordedStep(p, After(p, before), run[|run| - 1], Found(p, before));
    }
  }

  lemma NothingRecorded(p: Params)
    ensures Recorded(Init(p), map[])
  {
  }

  lemma CountsHold(p: Params, run: seq<Action>)
    requires Schedule(p, run)
    ensures InvCounts(p, After(p, run)) && InvSlots(p, After(p, run))
  {
    InvAlways(p, run);
  }

  /** Tells whether a scanner's scan has ended with a status. */
  function EndedWith(status: Status): Scanner -> nat {
    (sc: Scanner) => if sc.result.Some? && sc.result.value.status == status then 1 else 0
  }

  lemma EndedStep(p: Params, s: State, a: Action, status: Status)
    requires InvCounts(p, s) && InvSlots(p, s) && Enabled(p, s, a)
    ensures Sum(Apply(p, s, a).scanners, EndedWith(status)) == Sum(s.scanners, EndedWith(status))
      + if EndsScan(s, a) && a.outcome.status == status then 1 else 0
  {
    hide Sum, InvCounts, ScanCounts, ScanLists, ScanChannel, ScanSlots, DispatchSlots, WorkTests, NextScanner;
    match a
    case Dispatch =>
      if Spawns(s) {
        SumUpdate(s.scanners, s.spawned, s.scanners[s.spawned].(pc := Started), EndedWith(status));
      }
    case Scan(j, outcome) =>
      ScannerIsLocal(p, s, j);
      ScannerResult(p, s.scanners[j], s.stopped, outcome);
      SumUpdate(s.scanners, j, NextScanner(p, s.scanners[j], s.stopped, outcome), EndedWith(status));
    case _ =>
  }

  lemma {:induction false} EndedIsSum(p: Params, run: seq<Action>, status: Status)
    requires Schedule(p, run)
    ensures Ended(p, run, status) == Sum(After(p, run).scanners, EndedWith(status))
  {
    hide Enabled, Apply, InvSlots, InvCounts, EndsScan, Sum;
    if run == [] {
      SumZero(Init(p).scanners, EndedWith(status));
    } else {
      var before := run[..|run| - 1];
      EndedIsSum(p, before, status);
      CountsHold(p, before);
      EndedStep(p, After(p, before), run[|run| - 1], status);
    }
  }

  // ----- Tests -----

  /** A worker about to report, and every result reported, has the verdict that the host's test ended with. */
  ghost predicate Judged(s: State, verdicts: map<nat, bool>) {
    && (forall k :: 0 <= k < |s.workers| && s.workers[k].Tested? ==>
          s.workers[k].host in verdicts && verdicts[s.workers[k].host] == s.workers[k].passed)
    && (forall i :: 0 <= i < |s.tests.results| ==>
          s.tests.results[i].0 in verdicts && verdicts[s.tests.results[i].0] == s.tests.results[i].1)
  }

  lemma JudgedStep(p: Params, s: State, a: Action, verdicts: map<nat, bool>)
    requires InvHosts(s) && Judged(s, verdicts) && Enabled(p, s, a)
    ensures Judged(Apply(p, s, a),
                   if EndsTest(s, a) then verdicts[s.workers[a.k].host := a.success] else verdicts)
  {
    hide Sum, ScanCounts, ScanLists, ScanSlots, DispatchSlots, ScanChannel, WorkStep, InvHosts;
    match a
    case Work(k, port, success) => JudgedByWork(s, k, port, success, verdicts);
    case _ =>
  }

  lemma JudgedByWork(s: State, k: nat, port: bool, success: bool, verdicts: map<nat, bool>)
    requires InvHosts(s) && Judged(s, verdicts) && k < |s.workers|
    ensures Judged(WorkStep(s, k, port, success),
                   if s.workers[k].Testing? then verdicts[s.workers[k].host := success] else verdicts)
  {
    var w := s.workers[k];
    if w.Testing? {
      assert Holds(w, w.host);
    }
  }

  lemma {:induction false} ResultsAreVerdicts(p: Params, run: seq<Action>)
    requires Schedule(p, run)
    ensures Judged(After(p, run), Verdicts(p, run))
  {
    hide Enabled, Apply, Judged, InvHosts, EndsTest;
    if run == [] {
      NothingJudged(p);
    } else {
      var before := run[..|run| - 1];
      ResultsAreVerdicts(p, before);
      HostsHold(p, before);
      JudgedStep(p, After(p, before), run[|run| - 1], Verdicts(p, before));
    }
  }

  lemma NothingJudged(p: Params)
    ensures Judged(Init(p), map[])
  {
  }

  lemma HostsHold(p: Params, run: seq<Action>)
    requires Schedule(p, run)
    ensures InvHosts(After(p, run)) && InvTests(p, After(p, run))
  {
    InvAlways(p, run);
  }

  /** Tells whether a worker has a verdict to report. */
  function Reporting(success: bool): Worker -> nat {
    (w: Worker) => if w.Tested? && w.passed == success then 1 else 0
  }

  function Reported(results: seq<(nat, bool)>, success: bool): nat {
    if results == [] then 0
    else Reported(results[..|results| - 1], success) + if results[|results| - 1].1 == success then 1 else 0
  }

  lemma ReportedAppend(results: seq<(nat, bool)>, r: (nat, bool), success: bool)
    ensures Reported(results + [r], success) == Reported(results, success) + if r.1 == success then 1 else 0
  {
    assert (results + [r])[..|results|] == results;
  }

  lemma TriedStep(p: Params, s: State, a: Action, success: bool)
    requires Enabled(p, s, a)
    ensures var s' := Apply(p, s, a);
      Reported(s'.tests.results, success) + Sum(s'.workers, Reporting(success))
      == Reported(s.tests.results, success) + Sum(s.workers, Reporting(success))
      + if EndsTest(s, a) && a.success == success then 1 else 0
  {
    hide Sum, ScanCounts, ScanLists, ScanSlots, DispatchSlots, ScanChannel, Reported;
    match a
    case Work(k, port, ok) =>
      var w := s.workers[k];
      SumUpdate(s.workers, k, NextWorker(w, s.channel, s.stopped, port, ok), Reporting(success));
      if w.Tested? {
        ReportedAppend(s.tests.results, (w.host, w.passed), success);
      }
    case _ =>
  }

  lemma {:induction false} TriedIsSum(p: Params, run: seq<Action>, success: bool)
    requires Schedule(p, run)
    ensures var s := After(p, run);
      Tried(p, run, success) == Reported(s.tests.results, success) + Sum(s.workers, Reporting(success))
  {
    hide Enabled, Apply, EndsTest, Sum;
    if run == [] {
      SumZero(Init(p).workers, Reporting(success));
    } else {
      var before := run[..|run| - 1];
      TriedIsSum(p, before, success);
      TriedStep(p, After(p, before), run[|run| - 1], success);
    }
  }

  lemma {:induction false} GivenUpIsDropped(p: Params, run: seq<Action>)
    requires Schedule(p, run)
    ensures GivenUp(p, run) == After(p, run).tests.dropped
  {
    hide Sum, ScanCounts, ScanLists, ScanSlots, DispatchSlots, ScanChannel;
    if run != [] {
      GivenUpIsDropped(p, run[..|run| - 1]);
    }
  }

  lemma {:induction false} PassesAreReported(results: seq<(nat, bool)>)
    ensures Passes(results) == Reported(results, true)
    ensures |results| == Reported(results, true) + Reported(results, false)
  {
    if results != [] {
      PassesAreReported(results[..|results| - 1]);
    }
  }

  // ----- What is reported -----

  lemma ListsHold(p: Params, run: seq<Action>)
    requires Schedule(p, run)
    ensures InvLists(p, After(p, run))
  {
    InvAlways(p, run);
  }

  /** A resolver is listed as compatible, or as working, only for the score its own scan came to. */
  lemma ListedAsFound(p: Params, run: seq<Action>, j: nat)
    requires Schedule(p, run)
    ensures var lists, found := After(p, run).lists, Found(p, run);
      && (j in lists.compatible ==> j in found && found[j].score > 0)
      && (j in lists.workingIPs ==> j in found && found[j].score > 0 && found[j].score >= p.threshold)
  {
    hide Schedule, After, Found, Distinct;
    ResultsAreOutcomes(p, run);
    ListsHold(p, run);
  }

  /** Every result reported is the verdict of its host's own test. */
  lemma ReportedAsJudged(p: Params, run: seq<Action>, i: nat)
    requires Schedule(p, run) && i < |After(p, run).tests.results|
    ensures var (h, ok) := After(p, run).tests.results[i]; h in Verdicts(p, run) && Verdicts(p, run)[h] == ok
  {
    hide Schedule, After, Verdicts;
    ResultsAreVerdicts(p, run);
  }

  lemma CountedAreEnded(p: Params, run: seq<Action>)
    requires Schedule(p, run)
    ensures var s := After(p, run);
      && s.counts.working <= Ended(p, run, Working) && s.counts.timeouts <= Ended(p, run, TimedOut)
      && s.counts.errors <= Ended(p, run, Errored)
      && ((forall j :: 0 <= j < |s.scanners| ==> s.scanners[j].pc != Counting) ==>
           && s.counts.working == Ended(p, run, Working) && s.counts.timeouts == Ended(p, run, TimedOut)
           && s.counts.errors == Ended(p, run, Errored))
  {
    hide Schedule, After, Ended, Sum, InvSlots, Local;
    CountsHold(p, run);
    EndedIsSum(p, run, Working);
    EndedIsSum(p, run, TimedOut);
    EndedIsSum(p, run, Errored);
    var scanners := After(p, run).scanners;
    SumBelow(scanners, CountedWorking, EndedWith(Working));
    SumBelow(scanners, CountedTimeout, EndedWith(TimedOut));
    SumBelow(scanners, CountedError, EndedWith(Errored));
    if forall j :: 0 <= j < |scanners| ==> scanners[j].pc != Counting {
      SumBelow(scanners, EndedWith(Working), CountedWorking);
      SumBelow(scanners, EndedWith(TimedOut), CountedTimeout);
      SumBelow(scanners, EndedWith(Errored), CountedError);
    }
  }

  /** At any moment the counters of tests are the tests that have ended, but for verdicts not yet reported. */
  lemma TestsAreTried(p: Params, run: seq<Action>)
    requires Schedule(p, run)
    ensures var s := After(p, run);
      && s.tests.tested == Tried(p, run, true) + Tried(p, run, false)
      && s.tests.passed <= Tried(p, run, true)
      && s.tests.dropped == GivenUp(p, run)
      && (Sum(s.workers, Unrecorded) == 0 ==> s.tests.passed == Tried(p, run, true))
  {
    hide Schedule, After, Tried, GivenUp, Sum, Passes, Reported;
    HostsHold(p, run);
    GivenUpIsDropped(p, run);
    TriedIsSum(p, run, true);
    TriedIsSum(p, run, false);
    var s := After(p, run);
    PassesAreReported(s.tests.results);
    ReportingAdds(s.workers);
  }

  lemma {:induction false} ReportingAdds(workers: seq<Worker>)
    ensures Sum(workers, Unrecorded) == Sum(workers, Reporting(true)) + Sum(workers, Reporting(false))
  {
    if workers != [] {
      ReportingAdds(workers[1..]);
    }
  }

  lemma AllHome(p: Params, run: seq<Action>)
    requires Schedule(p, run) && After(p, run).dispatch == Finished
    ensures var s := After(p, run);
      && Sum(s.workers, Unrecorded) == 0
      && (forall j :: 0 <= j < |s.scanners| ==> s.scanners[j].pc in {NotStarted, Gone})
      && (!s.stopped ==> forall j :: 0 <= j < |s.scanners| ==> s.scanners[j].pc == Gone)
      && |s.scanners| == p.total
  {
    hide Schedule, After, Sum;
    InvAlways(p, run);
    var s := After(p, run);
    AllBack(p, s);
    if p.e2e {
      WorkersBack(p, s);
    } else {
      SumZero(s.workers, Unrecorded);
    }
  }

  /**
   The report of a finished run: each status counted as often as a scan ended with it, and each test
   counted, passed or given up as often as that happened.
   */
  lemma FinalCounts(p: Params, run: seq<Action>)
    requires Schedule(p, run) && After(p, run).dispatch == Finished
    ensures var s := After(p, run);
      && s.counts.working == Ended(p, run, Working) && s.counts.timeouts == Ended(p, run, TimedOut)
      && s.counts.errors == Ended(p, run, Errored)
      && s.tests.passed == Tried(p, run, true)
      && s.tests.tested == Tried(p, run, true) + Tried(p, run, false)
      && s.tests.dropped == GivenUp(p, run)
  {
    hide Schedule, After, Ended, Tried, GivenUp, Sum;
    AllHome(p, run);
    CountedAreEnded(p, run);
    TestsAreTried(p, run);
  }

  /**
   An uninterrupted run that has finished has an outcome for every resolver, and lists as compatible
   and as working exactly those whose own outcome has the score for it.
   */
  lemma FinalLists(p: Params, run: seq<Action>)
    requires Schedule(p, run) && After(p, run).dispatch == Finished && !After(p, run).stopped
    ensures var lists, found := After(p, run).lists, Found(p, run);
      && (forall j: nat :: j in found <==> j < p.total)
      && (forall j: nat :: j in lists.compatible <==> j in found && found[j].score >= 1)
      && (forall j: nat :: j in lists.workingIPs <==>
            j in found && found[j].score >= 1 && found[j].score >= p.threshold)
  {
    hide Schedule, After, Found, Sum, Distinct, InvSlots;
    AllHome(p, run);
    CountsHold(p, run);
    ListsHold(p, run);
    ResultsAreOutcomes(p, run);
    var s := After(p, run);
    assert forall j :: 0 <= j < |s.scanners| ==> Local(p, s.scanners[j], s.stopped);
  }
}
