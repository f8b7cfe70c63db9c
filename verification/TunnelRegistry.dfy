/**
 The tunnel registry of slipnet_bridge.go: a map and a counter under one mutex, changed by exported
 calls and by the tunnels' own goroutines.
 */
module TunnelRegistry {
  import opened Bytes

  datatype Tunnel = Tunnel(kind: string, port: int)

  /** A tunnel's goroutine: not yet launched, waiting for its context, past that wait, returned. */
  datatype Phase = Unlaunched | Running | Leaving | Gone

  /** `cancelled` holds the tunnels whose context is done; `origin` what each id was started as. */
  datatype State = State(active: map<int, Tunnel>, counter: nat, cancelled: set<int>,
                         phases: map<int, Phase>, origin: map<int, Tunnel>)

  const EMPTY: State := State(map[], 0, {}, map[], map[])

  /** One critical section, or one step of a goroutine between two. */
  datatype Op =
    | Register(tunnel: Tunnel)
    | Launch(id: int)
    | StopAll
    | StopOne(id: int)
    | NoticeDone(id: int)
    | Panic(id: int)
    | Unregister(id: int)

  predicate In(s: State, id: int, phase: Phase) {
    id in s.phases && s.phases[id] == phase
  }

  predicate Enabled(s: State, op: Op) {
    match op
    case Launch(id) => In(s, id, Unlaunched)
    case NoticeDone(id) => In(s, id, Running) && id in s.cancelled
    case Panic(id) => In(s, id, Running)
    case Unregister(id) => In(s, id, Leaving)
    case _ => true
  }

  function Step(s: State, op: Op): State {
    match op
    case Register(t) =>
      var id := s.counter + 1;
      s.(counter := id, active := s.active[id := t], phases := s.phases[id := Unlaunched],
         origin := s.origin[id := t])
    case Launch(id) => s.(phases := s.phases[id := Running])
    case StopAll => s.(active := map[], cancelled := s.cancelled + s.active.Keys)
    case StopOne(id) =>
      if id in s.active then s.(active := s.active - {id}, cancelled := s.cancelled + {id}) else s
    case NoticeDone(id) => s.(phases := s.phases[id := Leaving])
    case Panic(id) => s.(phases := s.phases[id := Leaving])
    case Unregister(id) => s.(active := s.active - {id}, phases := s.phases[id := Gone])
  }

  // ----- The registry object -----

  /** The next key of a map iteration, whose order Go leaves open. */
  method PickOne<K>(keys: set<K>) returns (k: K)
    requires keys != {}
    ensures k in keys
  {
    k :| k in keys;
  }

  class Registry {
    var active: map<int, Tunnel>
    var counter: nat
    var cancelled: set<int>
    ghost var phases: map<int, Phase>
    ghost var origin: map<int, Tunnel>

    ghost function Abstract(): State
      reads this
    {
      State(active, counter, cancelled, phases, origin)
    }

    constructor ()
      ensures Abstract() == EMPTY
    {
      active, counter, cancelled := map[], 0, {};
      phases, origin := map[], map[];
    }

    /** The locked part of SlipNetStartDNSTunnel and SlipNetStartSlipstream. */
    method Start(tunnel: Tunnel) returns (id: int)
      modifies this
      ensures Abstract() == Step(old(Abstract()), Register(tunnel)) && id == counter
    {
      counter := counter + 1;
      id := counter;
      active := active[id := tunnel];
      phases, origin := phases[id := Unlaunched], origin[id := tunnel];
    }

    /** SlipNetStartDNSTunnel up to its return: a C int, or -1 and no change for a bad configuration. */
    method StartExported(config: Option<Tunnel>) returns (handle: int)
      modifies this
      ensures config == None ==> handle == -1 && Abstract() == old(Abstract())
      ensures config.Some? ==>
        && Abstract() == Step(Step(old(Abstract()), Register(config.value)), Launch(old(counter) + 1))
        && handle == Handle(old(counter) + 1)
    {
      if config == None {
        return -1;
      }
      var id := Start(config.value);
      phases := phases[id := Running];
      handle := Handle(id);
    }

    /** SlipNetStop. */
    method Stop()
      modifies this
      ensures Abstract() == Step(old(Abstract()), StopAll)
    {
      var todo := active.Keys;
      while todo != {}
        invariant todo <= old(active).Keys && active.Keys == todo
        invariant cancelled == old(cancelled) + (old(active).Keys - todo)
        invariant counter == old(counter) && phases == old(phases) && origin == old(origin)
        decreases todo
      {
        var id := PickOne(todo);
        cancelled := cancelled + {id};
        active := active - {id};
        todo := todo - {id};
      }
      assert active == map[];
    }

    /** SlipNetStopTunnel. */
    method StopTunnel(handle: int)
      modifies this
      ensures Abstract() == Step(old(Abstract()), StopOne(handle))
    {
      if handle in active {
        cancelled := cancelled + {handle};
        active := active - {handle};
      }
    }

    /** The deferred part of a tunnel's goroutine. */
    method Finish(id: int)
      requires Enabled(Abstract(), Unregister(id))
      modifies this
      ensures Abstract() == Step(old(Abstract()), Unregister(id))
    {
      active := active - {id};
      phases := phases[id := Gone];
    }
  }

  // ----- Every run -----

  predicate Schedule(run: seq<Op>)
    decreases |run|, 0
  {
    run == [] || (Schedule(run[..|run| - 1]) && Enabled(After(run[..|run| - 1]), run[|run| - 1]))
  }

  function After(run: seq<Op>): State
    requires Schedule(run)
    decreases |run|, 1
  {
    if run == [] then EMPTY else Step(After(run[..|run| - 1]), run[|run| - 1])
  }

  ghost predicate Inv(s: State) {
    && s.phases.Keys == s.origin.Keys
    && (forall id :: id in s.phases <==> 1 <= id <= s.counter)
    // A registered tunnel is one that was started, as it was started, not cancelled and not gone.
    && (forall id :: id in s.active ==>
          id in s.phases && s.active[id] == s.origin[id] && id !in s.cancelled && s.phases[id] != Gone)
    // A goroutine that still waits, or is about to, is registered or cancelled.
    && (forall id :: id in s.phases && s.phases[id] in {Unlaunched, Running} ==> id in s.active || id in s.cancelled)
    && (forall id :: id in s.cancelled ==> id in s.phases)
  }

  lemma InvKept(s: State, op: Op)
    requires Inv(s) && Enabled(s, op)
    ensures Inv(Step(s, op))
  {
    match op
    case StopAll =>
      assert forall id :: id in s.active.Keys <==> id in s.active;
    case _ =>
  }

  lemma {:induction false} InvAlways(run: seq<Op>)
    requires Schedule(run)
    ensures Inv(After(run))
  {
    if run != [] {
      InvAlways(run[..|run| - 1]);
      InvKept(After(run[..|run| - 1]), run[|run| - 1]);
    }
  }

  /** In every interleaving: a waiting goroutine can be stopped, a registered tunnel has not been. */
  lemma RegistryIsSound(run: seq<Op>, id: int)
    requires Schedule(run)
    ensures var s := After(run);
      && (In(s, id, Running) ==> id in s.active || id in s.cancelled)
      && (id in s.active ==> id !in s.cancelled && id in s.origin && s.active[id] == s.origin[id])
      && (In(s, id, Gone) ==> id !in s.active)
  {
    InvAlways(run);
  }

  /** How many tunnels a run started. */
  function Starts(run: seq<Op>): nat {
    if run == [] then 0 else Starts(run[..|run| - 1]) + if run[|run| - 1].Register? then 1 else 0
  }

  lemma {:induction false} CounterCounts(run: seq<Op>)
    requires Schedule(run)
    ensures After(run).counter == Starts(run)
  {
    if run != [] {
      CounterCounts(run[..|run| - 1]);
    }
  }

  lemma {:induction false} SchedulePrefix(run: seq<Op>, k: nat)
    requires Schedule(run) && k <= |run|
    ensures Schedule(run[..k])
    ensures Starts(run[..k]) <= Starts(run)
    ensures k < |run| && run[k].Register? ==> Starts(run[..k]) < Starts(run)
  {
    if k == |run| {
      assert run[..k] == run;
    } else {
      var before := run[..|run| - 1];
      SchedulePrefix(before, k);
      assert before[..k] == run[..k];
      if k < |before| {
        assert before[k] == run[k];
      } else {
        assert run[..k] == before;
      }
    }
  }

  /** Two starts of one run, whatever happens between them, get different ids. */
  lemma IdsAreNeverReused(run: seq<Op>, i: nat, j: nat)
    requires Schedule(run) && i < j < |run| && run[i].Register? && run[j].Register?
    ensures Schedule(run[..i]) && Schedule(run[..j])
    ensures After(run[..i]).counter + 1 < After(run[..j]).counter + 1
    ensures After(run[..j]).counter + 1 !in After(run[..j]).phases
  {
    SchedulePrefix(run, i);
    SchedulePrefix(run, j);
    assert run[..j][..i] == run[..i];
    SchedulePrefix(run[..j], i);
    CounterCounts(run[..i]);
    CounterCounts(run[..j]);
    InvAlways(run[..j]);
  }

  /** A start makes one new tunnel, as asked for, registered and not cancelled, and leaves the others alone. */
  lemma StartAddsOne(run: seq<Op>, t: Tunnel, other: int)
    requires Schedule(run) && other != Starts(run) + 1
    ensures var s, s', id := After(run), Step(After(run), Register(t)), Starts(run) + 1;
      && s'.counter == id && id in s'.active && s'.active[id] == t && id !in s'.cancelled && In(s', id, Unlaunched)
      && (other in s'.active <==> other in s.active)
      && (other in s.active ==> s'.active[other] == s.active[other])
      && (other in s'.cancelled <==> other in s.cancelled)
  {
    CounterCounts(run);
    InvAlways(run);
  }

  /** Stopping one tunnel cancels and removes it, and leaves every other as it was. */
  lemma StopTouchesOnlyItself(run: seq<Op>, id: int, other: int)
    requires Schedule(run) && other != id
    ensures var s, s' := After(run), Step(After(run), StopOne(id));
      && id !in s'.active && (id in s.active ==> id in s'.cancelled)
      && (id !in s.active ==> s' == s)
      && (other in s'.active <==> other in s.active)
      && (other in s.active ==> s'.active[other] == s.active[other] && other !in s'.cancelled)
      && (other in s'.cancelled <==> other in s.cancelled)
  {
    InvAlways(run);
  }

  /** A goroutine that ends takes away its own entry at most: every other tunnel stays as it was. */
  lemma FinishTouchesOnlyItself(run: seq<Op>, id: int, other: int)
    requires Schedule(run) && Enabled(After(run), Unregister(id)) && other != id
    ensures var s, s' := After(run), Step(After(run), Unregister(id));
      && (other in s'.active <==> other in s.active)
      && (other in s.active ==> s'.active[other] == s.active[other])
      && (id in s.active ==> id in s.origin && s.active[id] == s.origin[id])
      && id !in s'.active
  {
    InvAlways(run);
  }

  /** After SlipNetStop nothing is registered and every goroutine started before is free to end. */
  lemma StopReachesEveryone(run: seq<Op>, id: int)
    requires Schedule(run)
    ensures var s := Step(After(run), StopAll);
      && s.active == map[]
      && (In(s, id, Running) ==> Enabled(s, NoticeDone(id)))
      && (In(s, id, Unlaunched) ==> id in s.cancelled)
  {
    InvAlways(run);
    InvKept(After(run), StopAll);
  }

  // ----- Handles across the C boundary -----

  /** C.int(id): the low 32 bits, signed. */
  function Handle(id: nat): (h: int)
    ensures -0x8000_0000 <= h < 0x8000_0000 && (id - h) % 0x1_0000_0000 == 0
  {
    var low := id % 0x1_0000_0000;
    if low < 0x8000_0000 then low else low - 0x1_0000_0000
  }

  /** Stopping a registered tunnel by the handle its start returned works exactly for ids below 2^31. */
  lemma HandleStopsItsTunnel(run: seq<Op>, id: nat)
    requires Schedule(run) && id in After(run).active
    ensures id !in Step(After(run), StopOne(Handle(id))).active <==> id < 0x8000_0000
  {
  }

  /** A run of `n` starts and nothing else. */
  function Starting(t: Tunnel, n: nat): (run: seq<Op>)
    ensures |run| == n
  {
    seq(n, _ => Register(t))
  }

  lemma {:induction false} AllStarted(t: Tunnel, n: nat)
    ensures Schedule(Starting(t, n))
    ensures After(Starting(t, n)).counter == n
    ensures forall id :: id in After(Starting(t, n)).active <==> 1 <= id <= n
  {
    if n > 0 {
      AllStarted(t, n - 1);
      assert Starting(t, n)[..n - 1] == Starting(t, n - 1);
    }
  }

  /**
   Beyond that the handle of the last of `n` tunnels can name, and stop, one started before it: it does
   so exactly when the low 32 bits of `n` are positive as a C int.
   */
  lemma LateHandleNamesAnother(t: Tunnel, n: nat)
    requires n >= 0x1_0000_0000
    ensures Schedule(Starting(t, n)) && n in After(Starting(t, n)).active
    ensures var s, s' := After(Starting(t, n)), Step(After(Starting(t, n)), StopOne(Handle(n)));
      && n in s'.active
      && ((exists other :: other in s.active && other !in s'.active) <==> 0 < n % 0x1_0000_0000 < 0x8000_0000)
  {
    hide Starting;
    AllStarted(t, n);
    var s := After(Starting(t, n));
    assert Handle(n) in s.active ==> Handle(n) !in Step(s, StopOne(Handle(n))).active;
  }
}
