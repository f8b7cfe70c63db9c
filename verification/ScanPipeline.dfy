/**
 The concurrent scan of scanner.go's RunScanner: a dispatcher bounded by a semaphore, one goroutine a
 resolver, a worker pool fed through a bounded channel, and an interrupt, as interleaved atomic steps.
 */
module ScanPipeline {
  import opened Bytes

  // ----- Sums over goroutines -----

  function Sum<T>(s: seq<T>, f: T -> nat): nat {
    if s == [] then 0 else f(s[0]) + Sum(s[1..], f)
  }

  lemma {:induction false} SumUpdate<T>(s: seq<T>, i: nat, x: T, f: T -> nat)
    requires i < |s|
    ensures Sum(s[i := x], f) + f(s[i]) == Sum(s, f) + f(x)
  {
    if i == 0 {
      assert s[0 := x][1..] == s[1..];
    } else {
      assert s[i := x][1..] == s[1..][i - 1 := x];
      SumUpdate(s[1..], i - 1, x, f);
    }
  }

  lemma {:induction false} SumZero<T>(s: seq<T>, f: T -> nat)
    requires forall i :: 0 <= i < |s| ==> f(s[i]) == 0
    ensures Sum(s, f) == 0
  {
    if s != [] {
      SumZero(s[1..], f);
    }
  }

  lemma {:induction false} SumPositive<T>(s: seq<T>, f: T -> nat) returns (i: nat)
    requires Sum(s, f) > 0
    ensures i < |s| && f(s[i]) > 0
  {
    if f(s[0]) > 0 {
      i := 0;
    } else {
      i := SumPositive(s[1..], f);
      i := i + 1;
    }
  }

  lemma {:induction false} SumAtLeast<T>(s: seq<T>, i: nat, f: T -> nat)
    requires i < |s|
    ensures Sum(s, f) >= f(s[i])
  {
    if i > 0 {
      SumAtLeast(s[1..], i - 1, f);
    }
  }

  lemma {:induction false} SumOnes<T>(s: seq<T>, f: T -> nat)
    requires forall i :: 0 <= i < |s| ==> f(s[i]) == 1
    ensures Sum(s, f) == |s|
  {
    if s != [] {
      SumOnes(s[1..], f);
    }
  }

  lemma {:induction false} SumBelow<T>(s: seq<T>, f: T -> nat, g: T -> nat)
    requires forall i :: 0 <= i < |s| ==> f(s[i]) <= g(s[i])
    ensures Sum(s, f) <= Sum(s, g)
  {
    if s != [] {
      SumBelow(s[1..], f, g);
    }
  }

  // ----- State -----

  const CAPACITY: nat := 200

  /** `threshold` is the score from which a resolver is tested end to end. */
  datatype Params = Params(total: nat, concurrency: nat, e2e: bool, e2eConcurrency: int, threshold: int) {
    function Workers(): nat {
      if !e2e then 0 else if e2eConcurrency <= 0 then 10 else e2eConcurrency
    }
  }

  datatype Status = Working | TimedOut | Errored

  /** What scanning one resolver gives; a score exists for working resolvers only. */
  datatype Result = Result(status: Status, score: nat)

  predicate Possible(r: Result) {
    r.score <= 6 && (r.status != Working ==> r.score == 0)
  }

  datatype DispatchPc = Looking | Acquiring | Holding | Waiting | Closing | Draining | Finished

  datatype ScanPc =
    | NotStarted | Started | Scanning | Counting | Locking
    | Checking | Offering | Unlocking | Releasing | Exiting | Gone

  datatype Scanner = Scanner(pc: ScanPc, result: Option<Result>)

  datatype Worker = Idle | Got(host: nat) | Testing(host: nat) | Tested(host: nat, passed: bool) | Done

  /** Occupied slots of the semaphore channel, and the scan wait group. */
  datatype Slots = Slots(permits: nat, waitGroup: nat)

  datatype Counts = Counts(scanned: nat, working: nat, timeouts: nat, errors: nat)

  /** The mutex mu, with the scanner that holds it, and the lists it protects. */
  datatype Lists = Lists(mutex: Option<nat>, compatible: seq<nat>, workingIPs: seq<nat>)

  /**
   e2eChan: its buffer, and whether it is closed. A send on the closed channel would be a panic.
   History: the hosts ever sent, those received, and how many sends the full buffer refused.
   */
  datatype Channel = Channel(buffer: seq<nat>, closed: bool, sentOnClosed: bool,
                             sent: seq<nat>, taken: seq<nat>, overflow: nat)

  /** End-to-end tests: workers not yet returned, tests counted and passed, results, hosts given up untested. */
  datatype Tests = Tests(alive: nat, tested: nat, passed: nat, results: seq<(nat, bool)>, dropped: nat)

  datatype State = State(
    dispatch: DispatchPc,
    spawned: nat,  // resolvers handed to a goroutine so far
    scanners: seq<Scanner>,
    workers: seq<Worker>,
    stopped: bool,
    slots: Slots,
    counts: Counts,
    lists: Lists,
    channel: Channel,
    tests: Tests
  )

  function Init(p: Params): State {
    State(Looking, 0, seq(p.total, _ => Scanner(NotStarted, None)), seq(p.Workers(), _ => Idle), false,
          Slots(0, 0), Counts(0, 0, 0, 0), Lists(None, [], []), Channel([], false, false, [], [], 0),
          Tests(p.Workers(), 0, 0, [], 0))
  }

  /** The pool has the workers asked for, ten if the number makes no sense, and none without end-to-end tests. */
  lemma PoolSize(p: Params)
    ensures p.e2e && p.e2eConcurrency >= 1 ==> |Init(p).workers| == p.e2eConcurrency
    ensures p.e2e && p.e2eConcurrency <= 0 ==> |Init(p).workers| == 10
    ensures !p.e2e ==> |Init(p).workers| == 0
  {
  }

  // ----- Steps -----

  /** One atomic step of one goroutine; the fields are what the outside world decides. */
  datatype Action =
    | Dispatch
    | Scan(j: nat, outcome: Result)
    | Work(k: nat, port: bool, success: bool)
    | Interrupt

  predicate Enabled(p: Params, s: State, a: Action) {
    match a
    case Dispatch =>
      (match s.dispatch
       case Acquiring => s.slots.permits < p.concurrency
       case Waiting => s.slots.waitGroup == 0
       case Draining => s.tests.alive == 0
       case Finished => false
       case _ => true)
    case Scan(j, outcome) =>
      j < |s.scanners| && Possible(outcome) && ScanEnabled(s.scanners[j].pc, s.lists)
    case Work(k, _, _) =>
      && k < |s.workers|
      && (match s.workers[k]
          case Idle => s.channel.buffer != [] || s.channel.closed
          case Done => false
          case _ => true)
    case Interrupt => !s.stopped
  }

  predicate ScanEnabled(pc: ScanPc, lists: Lists) {
    match pc
    case NotStarted => false
    case Locking => lists.mutex == None
    case Gone => false
    case _ => true
  }

  /** A counter that the source decrements; it is never zero when it does, as the invariant shows. */
  function Less(n: nat): nat {
    if n == 0 then 0 else n - 1
  }

  // The dispatcher. It spawns scanner number `spawned`, which InvSlots keeps in range.

  function DispatchNext(p: Params, s: State): DispatchPc {
    match s.dispatch
    case Looking => if s.spawned >= |s.scanners| || s.stopped then Waiting else Acquiring
    case Acquiring => Holding
    case Holding => if s.stopped then Waiting else Looking
    case Waiting => if p.e2e then Closing else Finished
    case Closing => Draining
    case Draining => Finished
    case Finished => Finished
  }

  function DispatchSlots(s: State): Slots {
    match s.dispatch
    case Looking =>
      if s.spawned >= |s.scanners| || s.stopped then s.slots
      else s.slots.(waitGroup := s.slots.waitGroup + 1)
    case Acquiring => s.slots.(permits := s.slots.permits + 1)
    case Holding => if s.stopped then Slots(Less(s.slots.permits), Less(s.slots.waitGroup)) else s.slots
    case _ => s.slots
  }

  predicate Spawns(s: State) {
    s.dispatch == Holding && !s.stopped && s.spawned < |s.scanners|
  }

  function DispatchStep(p: Params, s: State): State {
    s.(dispatch := DispatchNext(p, s),
       slots := DispatchSlots(s),
       spawned := if Spawns(s) then s.spawned + 1 else s.spawned,
       scanners := if Spawns(s) then s.scanners[s.spawned := s.scanners[s.spawned].(pc := Started)] else s.scanners,
       channel := if s.dispatch == Closing then s.channel.(closed := true) else s.channel)
  }

  // A scanner goroutine: what a step does to itself and to each shared object.

  function ScoreOf(sc: Scanner): nat {
    if sc.result.Some? then sc.result.value.score else 0
  }

  predicate Qualifies(p: Params, sc: Scanner) {
    ScoreOf(sc) > 0 && ScoreOf(sc) >= p.threshold
  }

  function NextScanner(p: Params, sc: Scanner, stopped: bool, outcome: Result): Scanner {
    match sc.pc
    case Started => sc.(pc := if stopped then Releasing else Scanning)
    case Scanning => Scanner(Counting, Some(outcome))
    case Counting => sc.(pc := if ScoreOf(sc) > 0 then Locking else Releasing)
    case Locking => sc.(pc := if Qualifies(p, sc) && p.e2e then Checking else Unlocking)
    case Checking => sc.(pc := if stopped then Unlocking else Offering)
    case Offering => sc.(pc := Unlocking)
    case Unlocking => sc.(pc := Releasing)
    case Releasing => sc.(pc := Exiting)
    case Exiting => sc.(pc := Gone)
    case _ => sc
  }

  function ScanSlots(slots: Slots, pc: ScanPc): Slots {
    if pc == Releasing then slots.(permits := Less(slots.permits))
    else if pc == Exiting then slots.(waitGroup := Less(slots.waitGroup))
    else slots
  }

  function ScanCounts(counts: Counts, sc: Scanner): Counts {
    if sc.pc == Scanning then counts.(scanned := counts.scanned + 1)
    else if sc.pc == Counting && sc.result.Some? then
      match sc.result.value.status
      case Working => counts.(working := counts.working + 1)
      case TimedOut => counts.(timeouts := counts.timeouts + 1)
      case Errored => counts.(errors := counts.errors + 1)
    else counts
  }

  function ScanLists(p: Params, lists: Lists, j: nat, sc: Scanner): Lists {
    if sc.pc == Locking then
      Lists(Some(j), lists.compatible + [j], lists.workingIPs + if Qualifies(p, sc) then [j] else [])
    else if sc.pc == Unlocking then lists.(mutex := None)
    else lists
  }

  function ScanChannel(c: Channel, j: nat, pc: ScanPc): Channel {
    if pc != Offering then c
    else if c.closed then c.(sentOnClosed := true)
    else if |c.buffer| < CAPACITY then c.(buffer := c.buffer + [j], sent := c.sent + [j])
    else c.(overflow := c.overflow + 1)
  }

  function ScanStep(p: Params, s: State, j: nat, outcome: Result): State
    requires j < |s.scanners|
  {
    var sc := s.scanners[j];
    s.(scanners := s.scanners[j := NextScanner(p, sc, s.stopped, outcome)],
       slots := ScanSlots(s.slots, sc.pc),
       counts := ScanCounts(s.counts, sc),
       lists := ScanLists(p, s.lists, j, sc),
       channel := ScanChannel(s.channel, j, sc.pc))
  }

  // An end-to-end worker.

  function NextWorker(w: Worker, c: Channel, stopped: bool, port: bool, success: bool): Worker {
    match w
    case Idle => if c.buffer != [] then Got(c.buffer[0]) else Done
    case Got(h) => if stopped || !port then Idle else Testing(h)
    case Testing(h) => Tested(h, success)  // a test that panics is counted like one that fails
    case Tested(_, _) => Idle
    case Done => Done
  }

  function WorkChannel(w: Worker, c: Channel): Channel {
    if w.Idle? && c.buffer != [] then c.(buffer := c.buffer[1..], taken := c.taken + [c.buffer[0]]) else c
  }

  function WorkTests(w: Worker, c: Channel, t: Tests, stopped: bool, port: bool): Tests {
    match w
    case Idle => if c.buffer != [] then t else t.(alive := Less(t.alive))
    case Got(h) => if stopped || !port then t.(dropped := t.dropped + 1) else t
    case Testing(h) => t.(tested := t.tested + 1)
    case Tested(h, ok) => t.(results := t.results + [(h, ok)], passed := t.passed + if ok then 1 else 0)
    case Done => t
  }

  function WorkStep(s: State, k: nat, port: bool, success: bool): State
    requires k < |s.workers|
  {
    var w := s.workers[k];
    s.(workers := s.workers[k := NextWorker(w, s.channel, s.stopped, port, success)],
       channel := WorkChannel(w, s.channel),
       tests := WorkTests(w, s.channel, s.tests, s.stopped, port))
  }

  function Apply(p: Params, s: State, a: Action): State
    requires Enabled(p, s, a)
  {
    match a
    case Dispatch => DispatchStep(p, s)
    case Scan(j, outcome) => ScanStep(p, s, j, outcome)
    case Work(k, port, success) => WorkStep(s, k, port, success)
    case Interrupt => s.(stopped := true)
  }

  /** A schedule whose every step could be taken when it was. */
  predicate Schedule(p: Params, run: seq<Action>)
    decreases |run|, 0
  {
    run == [] || (Schedule(p, run[..|run| - 1]) && Enabled(p, After(p, run[..|run| - 1]), run[|run| - 1]))
  }

  function After(p: Params, run: seq<Action>): State
    requires Schedule(p, run)
    decreases |run|, 1
  {
    if run == [] then Init(p) else Apply(p, After(p, run[..|run| - 1]), run[|run| - 1])
  }

  // ----- Invariant: semaphore, wait group, goroutines -----

  function Permit(sc: Scanner): nat {
    if sc.pc in {NotStarted, Exiting, Gone} then 0 else 1
  }

  function Live(sc: Scanner): nat {
    if sc.pc in {NotStarted, Gone} then 0 else 1
  }

  predicate InvSlots(p: Params, s: State) {
    && |s.scanners| == p.total && s.spawned <= p.total
    && (s.dispatch in {Acquiring, Holding} ==> s.spawned < p.total)
    && (forall j :: 0 <= j < p.total ==> (s.scanners[j].pc == NotStarted <==> j >= s.spawned))
    && s.slots.permits == Sum(s.scanners, Permit) + (if s.dispatch == Holding then 1 else 0)
    && s.slots.permits <= p.concurrency
    && s.slots.waitGroup == Sum(s.scanners, Live) + (if s.dispatch in {Acquiring, Holding} then 1 else 0)
    && (s.dispatch in {Closing, Draining, Finished} ==> s.slots.waitGroup == 0)
    && (s.channel.closed <==> p.e2e && s.dispatch in {Draining, Finished})
    && (s.dispatch in {Closing, Draining} ==> p.e2e)
    && !s.channel.sentOnClosed
  }

  lemma SlotsInit(p: Params)
    ensures InvSlots(p, Init(p))
  {
    SumZero(Init(p).scanners, Permit);
    SumZero(Init(p).scanners, Live);
  }

  lemma SlotsKeptByDispatch(p: Params, s: State)
    requires InvSlots(p, s) && Enabled(p, s, Dispatch)
    ensures InvSlots(p, DispatchStep(p, s))
  {
    if Spawns(s) {
      var x := s.scanners[s.spawned].(pc := Started);
      SumUpdate(s.scanners, s.spawned, x, Permit);
      SumUpdate(s.scanners, s.spawned, x, Live);
    }
  }

  lemma SlotsKeptByScan(p: Params, s: State, j: nat, outcome: Result)
    requires InvSlots(p, s) && Enabled(p, s, Scan(j, outcome))
    ensures InvSlots(p, ScanStep(p, s, j, outcome))
  {
    hide ScanCounts, ScanLists, Qualifies, Sum;
    var sc := s.scanners[j];
    var x := NextScanner(p, sc, s.stopped, outcome);
    SumAtLeast(s.scanners, j, Live);
    SumAtLeast(s.scanners, j, Permit);
    SumUpdate(s.scanners, j, x, Permit);
    SumUpdate(s.scanners, j, x, Live);
  }

  lemma SlotsKept(p: Params, s: State, a: Action)
    requires InvSlots(p, s) && Enabled(p, s, a)
    ensures InvSlots(p, Apply(p, s, a))
  {
    match a
    case Dispatch => SlotsKeptByDispatch(p, s);
    case Scan(j, outcome) => SlotsKeptByScan(p, s, j, outcome);
    case _ =>
  }

  // ----- Invariant: counters -----

  function HasResult(sc: Scanner): nat {
    if sc.result.Some? then 1 else 0
  }

  /** Counted under its status: its result is in and the second counter has been bumped. */
  function CountedAs(sc: Scanner, status: Status): nat {
    if sc.result.Some? && sc.pc != Counting && sc.result.value.status == status then 1 else 0
  }

  function CountedWorking(sc: Scanner): nat {
    CountedAs(sc, Working)
  }

  function CountedTimeout(sc: Scanner): nat {
    CountedAs(sc, TimedOut)
  }

  function CountedError(sc: Scanner): nat {
    CountedAs(sc, Errored)
  }

  predicate Local(p: Params, sc: Scanner, stopped: bool) {
    && (sc.result.Some? ==> Possible(sc.result.value))
    && (sc.pc in {NotStarted, Started, Scanning} ==> sc.result == None)
    && (sc.pc in {Counting, Locking, Checking, Offering, Unlocking} ==> sc.result.Some?)
    && (sc.pc in {Locking, Checking, Offering, Unlocking} ==> ScoreOf(sc) > 0)
    && (sc.pc in {Checking, Offering} ==> p.e2e && Qualifies(p, sc))
    && (!stopped && sc.pc in {Releasing, Exiting, Gone} ==> sc.result.Some?)
  }

  predicate InvCounts(p: Params, s: State) {
    && (forall j :: 0 <= j < |s.scanners| ==> Local(p, s.scanners[j], s.stopped))
    && s.counts.scanned == Sum(s.scanners, HasResult)
    && s.counts.working == Sum(s.scanners, CountedWorking)
    && s.counts.timeouts == Sum(s.scanners, CountedTimeout)
    && s.counts.errors == Sum(s.scanners, CountedError)
    && (!s.stopped && s.dispatch in {Waiting, Closing, Draining, Finished} ==> s.spawned == |s.scanners|)
  }

  lemma CountsInit(p: Params)
    ensures InvCounts(p, Init(p))
  {
    SumZero(Init(p).scanners, HasResult);
    SumZero(Init(p).scanners, CountedWorking);
    SumZero(Init(p).scanners, CountedTimeout);
    SumZero(Init(p).scanners, CountedError);
  }

  lemma CountsUpdate(scanners: seq<Scanner>, j: nat, x: Scanner)
    requires j < |scanners|
    ensures Sum(scanners[j := x], HasResult) + HasResult(scanners[j]) == Sum(scanners, HasResult) + HasResult(x)
    ensures Sum(scanners[j := x], CountedWorking) + CountedWorking(scanners[j])
      == Sum(scanners, CountedWorking) + CountedWorking(x)
    ensures Sum(scanners[j := x], CountedTimeout) + CountedTimeout(scanners[j])
      == Sum(scanners, CountedTimeout) + CountedTimeout(x)
    ensures Sum(scanners[j := x], CountedError) + CountedError(scanners[j])
      == Sum(scanners, CountedError) + CountedError(x)
  {
    SumUpdate(scanners, j, x, HasResult);
    SumUpdate(scanners, j, x, CountedWorking);
    SumUpdate(scanners, j, x, CountedTimeout);
    SumUpdate(scanners, j, x, CountedError);
  }

  lemma CountsKeptByDispatch(p: Params, s: State)
    requires InvSlots(p, s) && InvCounts(p, s) && Enabled(p, s, Dispatch)
    ensures InvCounts(p, DispatchStep(p, s))
  {
    hide Sum, DispatchSlots;
    if Spawns(s) {
      CountsUpdate(s.scanners, s.spawned, s.scanners[s.spawned].(pc := Started));
    }
  }

  lemma LocalKept(p: Params, sc: Scanner, stopped: bool, outcome: Result, lists: Lists)
    requires Local(p, sc, stopped) && Possible(outcome) && ScanEnabled(sc.pc, lists)
    ensures Local(p, NextScanner(p, sc, stopped, outcome), stopped)
  {
  }

  lemma LocalOnceStopped(p: Params, sc: Scanner, stopped: bool)
    requires Local(p, sc, stopped)
    ensures Local(p, sc, true)
  {
  }

  lemma CountsFollow(counts: Counts, p: Params, sc: Scanner, stopped: bool, outcome: Result, lists: Lists)
    requires Local(p, sc, stopped) && ScanEnabled(sc.pc, lists)
    ensures var x, after := NextScanner(p, sc, stopped, outcome), ScanCounts(counts, sc);
      && after.scanned + HasResult(sc) == counts.scanned + HasResult(x)
      && after.working + CountedWorking(sc) == counts.working + CountedWorking(x)
      && after.timeouts + CountedTimeout(sc) == counts.timeouts + CountedTimeout(x)
      && after.errors + CountedError(sc) == counts.errors + CountedError(x)
  {
  }

  lemma CountsKeptByScan(p: Params, s: State, j: nat, outcome: Result)
    requires InvCounts(p, s) && Enabled(p, s, Scan(j, outcome))
    ensures InvCounts(p, ScanStep(p, s, j, outcome))
  {
    hide Sum, Local, NextScanner, ScanLists, ScanChannel, ScanSlots, ScanCounts, HasResult;
    hide CountedWorking, CountedTimeout, CountedError;
    var sc := s.scanners[j];
    LocalKept(p, sc, s.stopped, outcome, s.lists);
    CountsFollow(s.counts, p, sc, s.stopped, outcome, s.lists);
    CountsUpdate(s.scanners, j, NextScanner(p, sc, s.stopped, outcome));
  }

  lemma CountsKept(p: Params, s: State, a: Action)
    requires InvSlots(p, s) && InvCounts(p, s) && Enabled(p, s, a)
    ensures InvCounts(p, Apply(p, s, a))
  {
    hide Sum, Local, DispatchStep, ScanStep, WorkChannel, WorkTests, NextWorker;
    match a
    case Dispatch => CountsKeptByDispatch(p, s);
    case Scan(j, outcome) => CountsKeptByScan(p, s, j, outcome);
    case Interrupt =>
      forall j | 0 <= j < |s.scanners|
        ensures Local(p, s.scanners[j], true)
      {
        LocalOnceStopped(p, s.scanners[j], s.stopped);
      }
    case _ =>
  }

  // ----- Invariant: the mutex and what it protects -----

  predicate InLock(sc: Scanner) {
    sc.pc in {Checking, Offering, Unlocking}
  }

  /** It has been through the critical section's first half. */
  predicate Listed(sc: Scanner) {
    ScoreOf(sc) > 0 && sc.pc in {Checking, Offering, Unlocking, Releasing, Exiting, Gone}
  }

  ghost predicate Distinct<T(!new)>(s: seq<T>) {
    forall i, j :: 0 <= i < j < |s| ==> s[i] != s[j]
  }

  lemma DistinctAppend<T(!new)>(s: seq<T>, x: T)
    requires Distinct(s) && x !in s
    ensures Distinct(s + [x])
  {
  }

  ghost predicate InvLists(p: Params, s: State) {
    && (forall j :: 0 <= j < |s.scanners| ==> (InLock(s.scanners[j]) <==> s.lists.mutex == Some(j)))
    && (s.lists.mutex.Some? ==> s.lists.mutex.value < |s.scanners|)
    && Distinct(s.lists.compatible) && Distinct(s.lists.workingIPs)
    && (forall j: nat :: j in s.lists.compatible <==> j < |s.scanners| && Listed(s.scanners[j]))
    && (forall j: nat :: j in s.lists.workingIPs <==>
          j < |s.scanners| && Listed(s.scanners[j]) && Qualifies(p, s.scanners[j]))
  }

  lemma ListsKept(p: Params, s: State, a: Action)
    requires InvCounts(p, s) && InvSlots(p, s) && InvLists(p, s) && Enabled(p, s, a)
    ensures InvLists(p, Apply(p, s, a))
  {
    hide Sum, ScanCounts, ScanChannel, WorkChannel, WorkTests, NextWorker, ScanSlots, DispatchSlots, Distinct;
    match a
    case Scan(j, outcome) => ListsKeptByScan(p, s, j, outcome);
    case _ =>
  }

  lemma ListsKeptByScan(p: Params, s: State, j: nat, outcome: Result)
    requires InvCounts(p, s) && InvLists(p, s) && Enabled(p, s, Scan(j, outcome))
    ensures InvLists(p, ScanStep(p, s, j, outcome))
  {
    hide Sum, ScanCounts, ScanChannel, ScanSlots, Distinct, InvLists, InvCounts;
    var sc, s' := s.scanners[j], ScanStep(p, s, j, outcome);
    ScannerIsLocal(p, s, j);
    if sc.pc == Locking {
      assert s.lists.workingIPs + [] == s.lists.workingIPs;
      ListsAfterLocking(p, s, s', j);
    } else {
      ListsAfterOther(p, s, s', j);
    }
  }

  lemma ScannerIsLocal(p: Params, s: State, j: nat)
    requires InvCounts(p, s) && j < |s.scanners|
    ensures Local(p, s.scanners[j], s.stopped)
  {
  }

  lemma ListsAfterLocking(p: Params, s: State, s': State, j: nat)
    requires InvLists(p, s) && j < |s.scanners| && s.scanners[j].pc == Locking && ScoreOf(s.scanners[j]) > 0
    requires s.lists.mutex == None
    requires |s'.scanners| == |s.scanners| && s'.scanners == s.scanners[j := s'.scanners[j]]
    requires InLock(s'.scanners[j]) && s'.scanners[j].result == s.scanners[j].result
    requires s'.lists.mutex == Some(j) && s'.lists.compatible == s.lists.compatible + [j]
    requires s'.lists.workingIPs ==
      if Qualifies(p, s.scanners[j]) then s.lists.workingIPs + [j] else s.lists.workingIPs
    ensures InvLists(p, s')
  {
    hide Distinct;
    assert j !in s.lists.compatible && j !in s.lists.workingIPs;
    DistinctAppend(s.lists.compatible, j);
    DistinctAppend(s.lists.workingIPs, j);
  }

  /** Any other step: the scanner is listed afterwards iff it was before. */
  lemma ListsAfterOther(p: Params, s: State, s': State, j: nat)
    requires InvLists(p, s) && j < |s.scanners|
    requires |s'.scanners| == |s.scanners| && s'.scanners == s.scanners[j := s'.scanners[j]]
    requires Listed(s'.scanners[j]) == Listed(s.scanners[j])
    requires Listed(s.scanners[j]) ==> s'.scanners[j].result == s.scanners[j].result
    requires s'.lists.compatible == s.lists.compatible && s'.lists.workingIPs == s.lists.workingIPs
    requires InLock(s'.scanners[j]) ==> InLock(s.scanners[j])
    requires s'.lists.mutex ==
      if InLock(s.scanners[j]) && !InLock(s'.scanners[j]) then None else s.lists.mutex
    ensures InvLists(p, s')
  {
    hide Distinct;
  }

  // ----- Invariant: the channel -----

  /** The holder of the mutex is between listing its host and offering it. */
  function MidOffer(s: State): nat {
    if s.lists.mutex.Some? && s.lists.mutex.value < |s.scanners|
       && s.scanners[s.lists.mutex.value].pc in {Checking, Offering} then 1 else 0
  }

  ghost predicate InvChannel(p: Params, s: State) {
    var c := s.channel;
    && c.sent == c.taken + c.buffer && |c.buffer| <= CAPACITY
    && Distinct(c.sent)
    && (forall j: nat :: j in c.sent ==>
          j in s.lists.workingIPs && j < |s.scanners| && s.scanners[j].pc !in {Checking, Offering})
    && (c.overflow > 0 ==> |c.sent| >= CAPACITY)
    && (!p.e2e ==> c.sent == [])
    // Every qualifying host is queued, refused, about to be offered, or given up after an interrupt.
    && (p.e2e ==> |s.lists.workingIPs| >= |c.sent| + c.overflow + MidOffer(s))
    && (p.e2e && !s.stopped ==> |s.lists.workingIPs| == |c.sent| + c.overflow + MidOffer(s))
  }

  lemma ChannelKept(p: Params, s: State, a: Action)
    requires InvSlots(p, s) && InvCounts(p, s) && InvLists(p, s) && InvChannel(p, s) && Enabled(p, s, a)
    ensures InvChannel(p, Apply(p, s, a))
  {
    hide Sum, WorkStep, ScanStep, InvCounts, InvLists, DispatchSlots, Distinct;
    match a
    case Dispatch => ChannelKeptByDispatch(p, s);
    case Scan(j, outcome) => ChannelKeptByScan(p, s, j, outcome);
    case Work(k, port, success) => ChannelKeptByWork(p, s, k, port, success);
    case Interrupt =>
  }

  lemma ChannelKeptByDispatch(p: Params, s: State)
    requires InvSlots(p, s) && InvLists(p, s) && InvChannel(p, s) && Enabled(p, s, Dispatch)
    ensures InvChannel(p, DispatchStep(p, s))
  {
    hide Sum, DispatchSlots, DispatchNext, Distinct;
  }

  lemma ChannelKeptByWork(p: Params, s: State, k: nat, port: bool, success: bool)
    requires InvChannel(p, s) && Enabled(p, s, Work(k, port, success))
    ensures InvChannel(p, WorkStep(s, k, port, success))
  {
    hide WorkTests, NextWorker, Distinct;
    if s.workers[k].Idle? && s.channel.buffer != [] {
      assert s.channel.taken + s.channel.buffer
        == (s.channel.taken + [s.channel.buffer[0]]) + s.channel.buffer[1..];
    }
  }

  lemma ChannelKeptByScan(p: Params, s: State, j: nat, outcome: Result)
    requires InvSlots(p, s) && InvCounts(p, s) && InvLists(p, s) && InvChannel(p, s)
    requires Enabled(p, s, Scan(j, outcome))
    ensures InvChannel(p, ScanStep(p, s, j, outcome))
  {
    hide Sum, ScanCounts, ScanSlots, Distinct;
    var sc := s.scanners[j];
    assert Local(p, sc, s.stopped);
    NotYetClosed(p, s, j);
    if sc.pc == Offering && |s.channel.buffer| < CAPACITY {
      DistinctAppend(s.channel.sent, j);
    }
  }

  /** A scanner that can take a step keeps the channel open: it is still in the wait group. */
  lemma NotYetClosed(p: Params, s: State, j: nat)
    requires InvSlots(p, s) && j < |s.scanners| && s.scanners[j].pc !in {NotStarted, Gone}
    ensures !s.channel.closed
  {
    SumAtLeast(s.scanners, j, Live);
  }

  // ----- Invariant: the workers -----

  function Alive(w: Worker): nat {
    if w.Done? then 0 else 1
  }

  function Untested(w: Worker): nat {
    if w.Got? || w.Testing? then 1 else 0
  }

  function Unrecorded(w: Worker): nat {
    if w.Tested? then 1 else 0
  }

  predicate Holds(w: Worker, h: nat) {
    (w.Got? || w.Testing? || w.Tested?) && w.host == h
  }

  function Passes(results: seq<(nat, bool)>): nat {
    if results == [] then 0
    else Passes(results[..|results| - 1]) + if results[|results| - 1].1 then 1 else 0
  }

  lemma PassesAppend(results: seq<(nat, bool)>, r: (nat, bool))
    ensures Passes(results + [r]) == Passes(results) + if r.1 then 1 else 0
  {
    assert (results + [r])[..|results|] == results;
  }

  lemma {:induction false} PassesBound(results: seq<(nat, bool)>)
    ensures Passes(results) <= |results|
  {
    if results != [] {
      PassesBound(results[..|results| - 1]);
    }
  }

  predicate InvTests(p: Params, s: State) {
    && |s.workers| == p.Workers()
    && s.tests.alive == Sum(s.workers, Alive)
    && |s.channel.taken| == s.tests.tested + s.tests.dropped + Sum(s.workers, Untested)
    && s.tests.tested == |s.tests.results| + Sum(s.workers, Unrecorded)
    && s.tests.passed == Passes(s.tests.results)
    && (forall k :: 0 <= k < |s.workers| && s.workers[k].Done? ==> s.channel.closed && s.channel.buffer == [])
    && (s.dispatch == Finished && p.e2e ==> s.tests.alive == 0)
  }

  lemma TestsInit(p: Params)
    ensures InvTests(p, Init(p))
  {
    SumOnes(Init(p).workers, Alive);
    SumZero(Init(p).workers, Untested);
    SumZero(Init(p).workers, Unrecorded);
  }

  lemma TestsKeptByWork(p: Params, s: State, k: nat, port: bool, success: bool)
    requires InvTests(p, s) && Enabled(p, s, Work(k, port, success))
    ensures InvTests(p, WorkStep(s, k, port, success))
  {
    hide Sum, Passes;
    var w, x := s.workers[k], NextWorker(s.workers[k], s.channel, s.stopped, port, success);
    SumAtLeast(s.workers, k, Alive);
    SumUpdate(s.workers, k, x, Alive);
    SumUpdate(s.workers, k, x, Untested);
    SumUpdate(s.workers, k, x, Unrecorded);
    if w.Tested? {
      PassesAppend(s.tests.results, (w.host, w.passed));
    }
  }

  lemma TestsKept(p: Params, s: State, a: Action)
    requires InvSlots(p, s) && InvTests(p, s) && Enabled(p, s, a)
    ensures InvTests(p, Apply(p, s, a))
  {
    hide Sum, ScanCounts, ScanSlots, ScanLists, DispatchSlots, Passes, WorkStep;
    match a
    case Scan(j, outcome) => NotYetClosed(p, s, j);
    case Work(k, port, success) => TestsKeptByWork(p, s, k, port, success);
    case _ =>
  }

  /** No host is in the hands of two workers, in the queue again, or reported twice. */
  ghost predicate InvHosts(s: State) {
    && (forall k, h :: 0 <= k < |s.workers| && Holds(s.workers[k], h) ==> h in s.channel.taken)
    && (forall k, k', h :: 0 <= k < k' < |s.workers| && Holds(s.workers[k], h) ==> !Holds(s.workers[k'], h))
    && (forall i :: 0 <= i < |s.tests.results| ==> s.tests.results[i].0 in s.channel.taken)
    && (forall i, k :: 0 <= i < |s.tests.results| && 0 <= k < |s.workers| ==>
          !Holds(s.workers[k], s.tests.results[i].0))
    && (forall i, i' :: 0 <= i < i' < |s.tests.results| ==> s.tests.results[i].0 != s.tests.results[i'].0)
  }

  /** The next host in the buffer has not been received before. */
  lemma NextIsNew(s: State)
    requires Distinct(s.channel.sent) && s.channel.sent == s.channel.taken + s.channel.buffer
    requires s.channel.buffer != []
    ensures s.channel.buffer[0] !in s.channel.taken
  {
    var sent, n := s.channel.sent, |s.channel.taken|;
    assert sent[n] == s.channel.buffer[0];
    assert forall i :: 0 <= i < n ==> sent[i] == s.channel.taken[i];
  }

  lemma HostsAfterTake(s: State, s': State, k: nat)
    requires InvHosts(s) && k < |s.workers| && s.workers[k] == Idle && s.channel.buffer != []
    requires s.channel.buffer[0] !in s.channel.taken
    requires s'.workers == s.workers[k := Got(s.channel.buffer[0])] && s'.tests.results == s.tests.results
    requires s'.channel.taken == s.channel.taken + [s.channel.buffer[0]]
    ensures InvHosts(s')
  {
  }

  /** A worker that keeps its host, or lets go of it. */
  lemma HostsAfterMove(s: State, s': State, k: nat, x: Worker)
    requires InvHosts(s) && k < |s.workers| && s'.workers == s.workers[k := x]
    requires forall h :: Holds(x, h) ==> Holds(s.workers[k], h)
    requires s'.channel.taken == s.channel.taken && s'.tests.results == s.tests.results
    ensures InvHosts(s')
  {
  }

  lemma HostsAfterRecord(s: State, s': State, k: nat, r: (nat, bool))
    requires InvHosts(s) && k < |s.workers| && Holds(s.workers[k], r.0)
    requires s'.workers == s.workers[k := Idle] && s'.tests.results == s.tests.results + [r]
    requires s'.channel.taken == s.channel.taken
    ensures InvHosts(s')
  {
  }

  lemma HostsKept(p: Params, s: State, a: Action)
    requires InvChannel(p, s) && InvHosts(s) && Enabled(p, s, a)
    ensures InvHosts(Apply(p, s, a))
  {
    hide Sum, ScanCounts, ScanSlots, ScanLists, DispatchSlots, Distinct, InvHosts;
    var s' := Apply(p, s, a);
    match a
    case Work(k, port, success) =>
      var w := s.workers[k];
      if w.Idle? && s.channel.buffer != [] {
        NextIsNew(s);
        HostsAfterTake(s, s', k);
      } else if w.Tested? {
        HostsAfterRecord(s, s', k, (w.host, w.passed));
      } else {
        HostsAfterMove(s, s', k, NextWorker(w, s.channel, s.stopped, port, success));
      }
    case _ => HostsUntouched(s, s');
  }

  lemma HostsUntouched(s: State, s': State)
    requires InvHosts(s) && s'.workers == s.workers
    requires s'.channel.taken == s.channel.taken && s'.tests.results == s.tests.results
    ensures InvHosts(s')
  {
  }

  // ----- Every run -----

  ghost predicate Inv(p: Params, s: State) {
    InvSlots(p, s) && InvCounts(p, s) && InvLists(p, s) && InvChannel(p, s) && InvTests(p, s) && InvHosts(s)
  }

  lemma InvInit(p: Params)
    ensures Inv(p, Init(p))
  {
    hide InvSlots, InvCounts, InvTests, Init;
    SlotsInit(p);
    CountsInit(p);
    TestsInit(p);
    EmptyInit(p);
  }

  lemma EmptyInit(p: Params)
    ensures InvLists(p, Init(p)) && InvChannel(p, Init(p)) && InvHosts(Init(p))
  {
    hide Sum;
  }

  lemma InvKept(p: Params, s: State, a: Action)
    requires Inv(p, s) && Enabled(p, s, a)
    ensures Inv(p, Apply(p, s, a))
  {
    hide InvSlots, InvCounts, InvLists, InvChannel, InvTests, InvHosts, Enabled, Apply;
    SlotsKept(p, s, a);
    CountsKept(p, s, a);
    ListsKept(p, s, a);
    ChannelKept(p, s, a);
    TestsKept(p, s, a);
    HostsKept(p, s, a);
  }

  lemma {:induction false} InvAlways(p: Params, run: seq<Action>)
    requires Schedule(p, run)
    ensures Inv(p, After(p, run))
  {
    hide Inv, Enabled, Apply;
    if run == [] {
      InvInit(p);
    } else {
      InvAlways(p, run[..|run| - 1]);
      InvKept(p, After(p, run[..|run| - 1]), run[|run| - 1]);
    }
  }

  lemma {:induction false} StatusesAddUp(scanners: seq<Scanner>)
    ensures Sum(scanners, CountedWorking) + Sum(scanners, CountedTimeout) + Sum(scanners, CountedError)
      <= Sum(scanners, HasResult) <= |scanners|
    ensures (forall j :: 0 <= j < |scanners| ==> scanners[j].pc != Counting) ==>
      Sum(scanners, CountedWorking) + Sum(scanners, CountedTimeout) + Sum(scanners, CountedError)
        == Sum(scanners, HasResult)
  {
    if scanners != [] {
      StatusesAddUp(scanners[1..]);
      assert forall j :: 0 <= j < |scanners| - 1 ==> scanners[1..][j] == scanners[j + 1];
    }
  }

  /** What no interleaving can break. */
  lemma AlwaysSafe(p: Params, run: seq<Action>)
    requires Schedule(p, run)
    ensures var s := After(p, run);
      // Bounded fan-out: at most `concurrency` slots taken, each scan holding one.
      && Sum(s.scanners, Permit) <= s.slots.permits <= p.concurrency
      && s.counts.working + s.counts.timeouts + s.counts.errors <= s.counts.scanned <= p.total
      && s.tests.passed <= s.tests.tested <= |s.channel.taken| <= |s.channel.sent|
      // Nothing is sent after the close, and the buffer keeps its bound.
      && !s.channel.sentOnClosed && |s.channel.buffer| <= CAPACITY
      // Hosts are queued at most once, only if they qualify, and tested at most once.
      && Distinct(s.channel.sent) && Distinct(s.channel.taken)
      && (forall h :: h in s.channel.sent ==> h in s.lists.workingIPs)
      && (forall i, i' :: 0 <= i < i' < |s.tests.results| ==> s.tests.results[i].0 != s.tests.results[i'].0)
      // The lists' mutex is held by one scanner at a time.
      && (forall j, j' :: 0 <= j < j' < |s.scanners| ==> !(InLock(s.scanners[j]) && InLock(s.scanners[j'])))
  {
    hide Sum;
    InvAlways(p, run);
    var s := After(p, run);
    StatusesAddUp(s.scanners);
    PassesBound(s.tests.results);
    assert forall i :: 0 <= i < |s.channel.taken| ==> s.channel.taken[i] == s.channel.sent[i];
  }

  /** What holds once RunScanner has everything back. */
  lemma FinishedIsComplete(p: Params, run: seq<Action>)
    requires Schedule(p, run) && After(p, run).dispatch == Finished
    ensures var s := After(p, run);
      && s.slots == Slots(0, 0) && s.lists.mutex == None
      && s.counts.working + s.counts.timeouts + s.counts.errors == s.counts.scanned
      && (p.e2e ==>
           && s.channel.buffer == [] && s.channel.taken == s.channel.sent
           && |s.channel.sent| == s.tests.tested + s.tests.dropped
           && s.tests.tested == |s.tests.results| && s.tests.passed == Passes(s.tests.results))
      && (!s.stopped ==> s.counts.scanned == p.total)
      && (!s.stopped && p.e2e ==> |s.lists.workingIPs| == |s.channel.sent| + s.channel.overflow)
      && (!s.stopped && p.e2e && |s.lists.workingIPs| <= CAPACITY ==> |s.lists.workingIPs| == |s.channel.sent|)
  {
    hide Sum, Passes;
    InvAlways(p, run);
    var s := After(p, run);
    AllBack(p, s);
    StatusesAddUp(s.scanners);
    if p.e2e {
      WorkersBack(p, s);
    }
    if !s.stopped {
      assert forall j :: 0 <= j < |s.scanners| ==> Local(p, s.scanners[j], s.stopped);
      SumOnes(s.scanners, HasResult);
    }
  }

  lemma AllBack(p: Params, s: State)
    requires Inv(p, s) && s.slots.waitGroup == 0
    ensures forall j :: 0 <= j < |s.scanners| ==> s.scanners[j].pc in {NotStarted, Gone}
    ensures Sum(s.scanners, Permit) == 0 && s.lists.mutex == None
  {
    hide Sum;
    forall j | 0 <= j < |s.scanners|
      ensures s.scanners[j].pc in {NotStarted, Gone}
    {
      SumAtLeast(s.scanners, j, Live);
    }
    SumZero(s.scanners, Permit);
  }

  lemma WorkersBack(p: Params, s: State)
    requires Inv(p, s) && s.tests.alive == 0 && p.Workers() > 0
    ensures s.channel.buffer == [] && Sum(s.workers, Untested) == 0 && Sum(s.workers, Unrecorded) == 0
  {
    hide Sum;
    forall k | 0 <= k < |s.workers|
      ensures s.workers[k].Done?
    {
      SumAtLeast(s.workers, k, Alive);
    }
    assert s.workers[0].Done?;
    SumZero(s.workers, Untested);
    SumZero(s.workers, Unrecorded);
  }
}