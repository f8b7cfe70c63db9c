/** No run of the scan pipeline blocks or goes on forever: every run can be completed, and soon is. */
module ScanProgress {
  import opened ScanPipeline

  // ----- Nothing blocks -----

  /** A step that does not wait for the user. */
  ghost predicate CanMove(p: Params, s: State) {
    exists a :: a != Interrupt && Enabled(p, s, a)
  }

  /** If a scanner is on its way, one can move: itself, or the holder of the mutex it waits for. */
  lemma ScannersMove(p: Params, s: State, j: nat)
    requires Inv(p, s) && j < |s.scanners| && s.scanners[j].pc !in {NotStarted, Gone}
    ensures CanMove(p, s)
  {
    var any := Result(TimedOut, 0);
    var mover := if s.lists.mutex.Some? then s.lists.mutex.value else j;
    assert s.lists.mutex.Some? ==> InLock(s.scanners[mover]);
    assert Enabled(p, s, Scan(mover, any));
  }

  lemma WorkersMove(p: Params, s: State)
    requires Inv(p, s) && s.channel.closed && s.tests.alive > 0
    ensures CanMove(p, s)
  {
    var k := SumPositive(s.workers, Alive);
    assert Enabled(p, s, Work(k, true, true));
  }

  lemma InvNeverBlocks(p: Params, s: State)
    requires Inv(p, s) && s.dispatch != Finished && (p.concurrency > 0 || p.total == 0)
    ensures CanMove(p, s)
  {
    if Enabled(p, s, Dispatch) {
    } else if s.dispatch == Acquiring {
      var j := SumPositive(s.scanners, Permit);
      ScannersMove(p, s, j);
    } else if s.dispatch == Waiting {
      var j := SumPositive(s.scanners, Live);
      ScannersMove(p, s, j);
    } else {
      WorkersMove(p, s);
    }
  }

  /**
   Who waits, in every run, and for what. A scanner waits while another is in the critical section; a
   worker while every host sent has been received and the channel is open; the dispatcher for a slot
   while as many scanners as `concurrency` hold one, then for all scanners, then for all workers.
   */
  lemma WaitsIff(p: Params, run: seq<Action>, j: nat, k: nat)
    requires Schedule(p, run)
    ensures var s := After(p, run);
      && (j < |s.scanners| && s.scanners[j].pc !in {NotStarted, Gone} ==>
           (Enabled(p, s, Scan(j, Result(TimedOut, 0))) <==>
            !(s.scanners[j].pc == Locking && exists i :: 0 <= i < |s.scanners| && InLock(s.scanners[i]))))
      && (k < |s.workers| && s.workers[k] == Idle ==>
           (Enabled(p, s, Work(k, true, true)) <==> !(s.channel.taken == s.channel.sent && !s.channel.closed)))
      && (k < |s.workers| && s.workers[k] !in {Idle, Done} ==> Enabled(p, s, Work(k, true, true)))
      && (!Enabled(p, s, Dispatch) <==>
           || s.dispatch == Finished
           || (s.dispatch == Acquiring && Sum(s.scanners, Permit) == p.concurrency)
           || (s.dispatch == Waiting && exists i :: 0 <= i < |s.scanners| && s.scanners[i].pc !in {NotStarted, Gone})
           || (s.dispatch == Draining && exists i :: 0 <= i < |s.workers| && s.workers[i] != Done))
  {
    hide *;
    InvAlways(p, run);
    var s := After(p, run);
    InvUnfolded(p, s);
    if j < |s.scanners| && s.scanners[j].pc !in {NotStarted, Gone} {
      ScannerWaits(p, s, j);
    }
    WorkerWaits(p, s, k);
    DispatcherWaits(p, s);
  }

  lemma InvUnfolded(p: Params, s: State)
    requires Inv(p, s)
    ensures InvSlots(p, s) && InvLists(p, s) && InvChannel(p, s) && InvTests(p, s)
  {
  }

  lemma WorkerWaits(p: Params, s: State, k: nat)
    requires InvChannel(p, s)
    ensures k < |s.workers| && s.workers[k] == Idle ==>
      (Enabled(p, s, Work(k, true, true)) <==> !(s.channel.taken == s.channel.sent && !s.channel.closed))
    ensures k < |s.workers| && s.workers[k] !in {Idle, Done} ==> Enabled(p, s, Work(k, true, true))
  {
    hide Distinct;
    if s.channel.buffer == [] {
      assert s.channel.taken + [] == s.channel.taken;
    }
  }

  lemma DispatcherWaits(p: Params, s: State)
    requires InvSlots(p, s) && InvTests(p, s)
    ensures !Enabled(p, s, Dispatch) <==>
      || s.dispatch == Finished
      || (s.dispatch == Acquiring && Sum(s.scanners, Permit) == p.concurrency)
      || (s.dispatch == Waiting && exists i :: 0 <= i < |s.scanners| && s.scanners[i].pc !in {NotStarted, Gone})
      || (s.dispatch == Draining && exists i :: 0 <= i < |s.workers| && s.workers[i] != Done)
  {
    hide Sum, Passes;
    if s.dispatch == Waiting {
      if s.slots.waitGroup > 0 {
        var i := SumPositive(s.scanners, Live);
      } else {
        forall i | 0 <= i < |s.scanners|
          ensures s.scanners[i].pc in {NotStarted, Gone}
        {
          SumAtLeast(s.scanners, i, Live);
        }
      }
    } else if s.dispatch == Draining {
      if s.tests.alive > 0 {
        var i := SumPositive(s.workers, Alive);
      } else {
        forall i | 0 <= i < |s.workers|
          ensures s.workers[i] == Done
        {
          SumAtLeast(s.workers, i, Alive);
        }
      }
    }
  }

  lemma ScannerWaits(p: Params, s: State, j: nat)
    requires InvLists(p, s) && j < |s.scanners| && s.scanners[j].pc !in {NotStarted, Gone}
    ensures Enabled(p, s, Scan(j, Result(TimedOut, 0))) <==>
      !(s.scanners[j].pc == Locking && exists i :: 0 <= i < |s.scanners| && InLock(s.scanners[i]))
  {
    hide Distinct;
    if s.lists.mutex.Some? {
      assert InLock(s.scanners[s.lists.mutex.value]);
    }
  }

  /** Whatever has happened, an unfinished run has a next step. */
  lemma NeverBlocks(p: Params, run: seq<Action>)
    requires Schedule(p, run) && After(p, run).dispatch != Finished
    requires p.concurrency > 0 || p.total == 0
    ensures CanMove(p, After(p, run))
  {
    InvAlways(p, run);
    InvNeverBlocks(p, After(p, run));
  }

  /** The condition is exact: with no semaphore slot and something to scan, the first send blocks for good. */
  lemma NoSlotBlocks(p: Params)
    requires p.concurrency == 0 && p.total > 0
    ensures Schedule(p, [Dispatch]) && !CanMove(p, After(p, [Dispatch]))
    ensures Schedule(p, [Dispatch, Interrupt]) && !CanMove(p, After(p, [Dispatch, Interrupt]))
  {
    var one, two := [Dispatch], [Dispatch, Interrupt];
    assert one[..0] == [] && two[..1] == one;
    assert After(p, []) == Init(p) && Schedule(p, one);
    assert After(p, one) == DispatchStep(p, Init(p)) && Enabled(p, After(p, one), Interrupt);
    StuckAcquiring(p, After(p, one));
    StuckAcquiring(p, After(p, two));
  }

  lemma StuckAcquiring(p: Params, s: State)
    requires p.concurrency == 0 && s.dispatch == Acquiring
    requires forall j :: 0 <= j < |s.scanners| ==> s.scanners[j].pc == NotStarted
    requires forall k :: 0 <= k < |s.workers| ==> s.workers[k] == Idle
    requires s.channel.buffer == [] && !s.channel.closed
    ensures !CanMove(p, s)
  {
  }

  // ----- Nothing goes on forever -----

  function ScanRank(sc: Scanner): nat {
    match sc.pc
    case NotStarted => 20
    case Started => 19
    case Scanning => 18
    case Counting => 17
    case Locking => 16
    case Checking => 15
    case Offering => 14
    case Unlocking => 3
    case Releasing => 2
    case Exiting => 1
    case Gone => 0
  }

  function WorkRank(w: Worker): nat {
    match w
    case Idle => 1
    case Got(_) => 5
    case Testing(_) => 4
    case Tested(_, _) => 3
    case Done => 0
  }

  function DispatchRank(s: State): nat {
    var left := if s.spawned < |s.scanners| then |s.scanners| - s.spawned else 0;
    match s.dispatch
    case Looking => 3 * left + 6
    case Acquiring => 3 * left + 5
    case Holding => 3 * left + 4
    case Waiting => 3
    case Closing => 2
    case Draining => 1
    case Finished => 0
  }

  /** Steps still to come, at most. A queued host stands for the worker steps it will cause. */
  function Rank(s: State): nat {
    DispatchRank(s) + Sum(s.scanners, ScanRank) + Sum(s.workers, WorkRank) + 5 * |s.channel.buffer|
    + if s.stopped then 0 else 1
  }

  lemma RankFallsByDispatch(p: Params, s: State)
    requires InvSlots(p, s) && Enabled(p, s, Dispatch)
    ensures Rank(DispatchStep(p, s)) < Rank(s)
  {
    hide Sum, DispatchSlots;
    if Spawns(s) {
      SumUpdate(s.scanners, s.spawned, s.scanners[s.spawned].(pc := Started), ScanRank);
    }
  }

  lemma ScannerRankFalls(p: Params, sc: Scanner, stopped: bool, outcome: Result, lists: Lists, c: Channel, j: nat)
    requires ScanEnabled(sc.pc, lists)
    ensures ScanRank(NextScanner(p, sc, stopped, outcome)) + 5 * |ScanChannel(c, j, sc.pc).buffer|
      < ScanRank(sc) + 5 * |c.buffer|
  {
  }

  lemma RankFallsByScan(p: Params, s: State, j: nat, outcome: Result)
    requires Enabled(p, s, Scan(j, outcome))
    ensures Rank(ScanStep(p, s, j, outcome)) < Rank(s)
  {
    hide Sum, ScanCounts, ScanLists, ScanSlots, NextScanner, ScanRank, ScanChannel;
    SumUpdate(s.scanners, j, NextScanner(p, s.scanners[j], s.stopped, outcome), ScanRank);
    ScannerRankFalls(p, s.scanners[j], s.stopped, outcome, s.lists, s.channel, j);
  }

  lemma WorkerRankFalls(w: Worker, c: Channel, stopped: bool, port: bool, success: bool)
    requires w != Done
    ensures WorkRank(NextWorker(w, c, stopped, port, success)) + 5 * |WorkChannel(w, c).buffer|
      < WorkRank(w) + 5 * |c.buffer|
  {
  }

  lemma RankFallsByWork(p: Params, s: State, k: nat, port: bool, success: bool)
    requires Enabled(p, s, Work(k, port, success))
    ensures Rank(WorkStep(s, k, port, success)) < Rank(s)
  {
    hide Sum, WorkTests, NextWorker, WorkRank, WorkChannel;
    SumUpdate(s.workers, k, NextWorker(s.workers[k], s.channel, s.stopped, port, success), WorkRank);
    WorkerRankFalls(s.workers[k], s.channel, s.stopped, port, success);
  }

  lemma RankFalls(p: Params, s: State, a: Action)
    requires InvSlots(p, s) && Enabled(p, s, a)
    ensures Rank(Apply(p, s, a)) < Rank(s)
  {
    hide Sum, DispatchStep, ScanStep, WorkStep, InvSlots;
    match a
    case Dispatch => RankFallsByDispatch(p, s);
    case Scan(j, outcome) => RankFallsByScan(p, s, j, outcome);
    case Work(k, port, success) => RankFallsByWork(p, s, k, port, success);
    case Interrupt =>
  }

  lemma {:induction false} RankBoundsRun(p: Params, run: seq<Action>)
    requires Schedule(p, run)
    ensures |run| + Rank(After(p, run)) <= Rank(Init(p))
  {
    hide Rank, Inv, Enabled, Apply;
    if run != [] {
      var before := run[..|run| - 1];
      RankBoundsRun(p, before);
      InvAlways(p, before);
      InvParts(p, After(p, before));
      RankFalls(p, After(p, before), run[|run| - 1]);
    }
  }

  lemma InvParts(p: Params, s: State)
    requires Inv(p, s)
    ensures InvSlots(p, s)
  {
  }

  lemma {:induction false} SumConstant<T>(s: seq<T>, f: T -> nat, c: nat)
    requires forall i :: 0 <= i < |s| ==> f(s[i]) == c
    ensures Sum(s, f) == c * |s|
  {
    if s != [] {
      SumConstant(s[1..], f, c);
    }
  }

  /** No run takes more than 23 steps a resolver, one a worker, and seven. */
  lemma RunsAreShort(p: Params, run: seq<Action>)
    requires Schedule(p, run)
    ensures |run| <= 23 * p.total + p.Workers() + 7
  {
    RankBoundsRun(p, run);
    SumConstant(Init(p).scanners, ScanRank, 20);
    SumConstant(Init(p).workers, WorkRank, 1);
  }

  /** So a run that is carried on as long as it can be ends in the Finished state. */
  lemma EveryRunFinishes(p: Params, run: seq<Action>)
    requires Schedule(p, run) && (p.concurrency > 0 || p.total == 0)
    requires !CanMove(p, After(p, run))
    ensures After(p, run).dispatch == Finished
  {
    if After(p, run).dispatch != Finished {
      NeverBlocks(p, run);
    }
  }
}
