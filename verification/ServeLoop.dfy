/**
 Background scheduled turns of the serve loop. A lease whose item runs as a named agent starts a
 worker thread; the worker reports over a channel; the serve thread drains the channel, frees the
 occurrence's key and finalises it. Workers are numbered in spawn order.
 */
module ServeLoop {
  import opened Wrappers

  datatype Gate = NoGate | Skip | Fire | Broken

  datatype Runner = Orchestrator(turnOk: bool) | Registered | Unregistered

  /** A claimed occurrence, with what its item and its gate say. */
  datatype Lease = Lease(key: string, listed: bool, hasSession: bool, gate: Gate, runAs: Runner)

  datatype Done = Done(worker: nat, key: string, ok: bool)

  datatype State = State(
    inflight: set<string>,
    spawned: seq<string>,   // the key each worker was spawned for
    running: set<nat>,
    queue: seq<Done>,
    drained: seq<Done>,     // completions finalised by the drain
    direct: seq<string>     // keys finalised by the sweep itself
  )

  const Start := State({}, [], {}, [], [], [])

  datatype Event = Claim(lease: Lease) | Finish(worker: nat, ok: bool) | DrainOne

  predicate Fires(lease: Lease) {
    lease.listed && lease.hasSession && (lease.gate.NoGate? || lease.gate.Fire?)
  }

  /** The sweep finalises the occurrence itself: gated off, or an inline turn that ran. */
  predicate FinalisesInline(lease: Lease) {
    || (lease.listed && lease.hasSession && lease.gate.Skip?)
    || (Fires(lease) && lease.runAs.Orchestrator? && lease.runAs.turnOk)
  }

  function Spawn(s: State, key: string): State {
    s.(inflight := s.inflight + {key}, spawned := s.spawned + [key], running := s.running + {|s.spawned|})
  }

  function Step(s: State, e: Event): State {
    match e
    case Claim(lease) =>
      if FinalisesInline(lease) then s.(direct := s.direct + [lease.key])
      else if Fires(lease) && lease.runAs.Registered? && lease.key !in s.inflight then Spawn(s, lease.key)
      else s
    case Finish(w, ok) =>
      if w in s.running && w < |s.spawned| then
        s.(running := s.running - {w}, queue := s.queue + [Done(w, s.spawned[w], ok)])
      else s
    case DrainOne =>
      if s.queue == [] then s
      else
        var done := s.queue[0];
        s.(inflight := s.inflight - {done.key}, queue := s.queue[1..], drained := s.drained + [done])
  }

  /**
   Which leases do what. A worker is spawned exactly when the item is listed and has a session, has
   no gate or one that fired, names a registered agent, and has no turn in flight; the sweep
   finalises exactly when the gate skipped, or such an item ran inline and its turn went through.
   Nothing else changes anything: a broken gate or an unregistered agent leaves the lease to expire.
   */
  lemma {:induction false} ClaimMeans(s: State, lease: Lease)
    ensures var t := Step(s, Claim(lease));
            var runs := lease.listed && lease.hasSession && (lease.gate.NoGate? || lease.gate.Fire?);
            var spawns := runs && lease.runAs.Registered? && lease.key !in s.inflight;
            var settles := (lease.listed && lease.hasSession && lease.gate.Skip?) || (runs && lease.runAs == Orchestrator(true));
            t == State(
              s.inflight + (if spawns then {lease.key} else {}), s.spawned + (if spawns then [lease.key] else []),
              s.running + (if spawns then {|s.spawned|} else {}), s.queue, s.drained,
              s.direct + (if settles then [lease.key] else []))
  {
    assert s.inflight + {} == s.inflight && s.running + {} == s.running;
    assert s.spawned + [] == s.spawned && s.direct + [] == s.direct;
  }

  /** The leases claimed in a run, in order. */
  function Claimed(es: seq<Event>): seq<Lease> {
    if es == [] then []
    else
      var n := |es| - 1;
      Claimed(es[..n]) + if es[n].Claim? then [es[n].lease] else []
  }

  lemma {:induction false} ClaimedPush(es: seq<Event>, e: Event)
    ensures Claimed(es + [e]) == Claimed(es) + if e.Claim? then [e.lease] else []
  {
    assert (es + [e])[..|es|] == es;
  }

  function Run(s: State, es: seq<Event>): State {
    if es == [] then s else Step(Run(s, es[..|es| - 1]), es[|es| - 1])
  }

  lemma {:induction false} RunOne(s: State, es: seq<Event>, e: Event)
    ensures Run(s, es + [e]) == Step(Run(s, es), e)
  {
    assert (es + [e])[..|es|] == es;
  }

  // ---- the invariant ----

  ghost predicate Reports(s: State, log: seq<Done>) {
    && (forall i | 0 <= i < |log| :: log[i].worker < |s.spawned| && log[i].key == s.spawned[log[i].worker])
    && (forall i | 0 <= i < |log| :: log[i].worker !in s.running)
    && (forall i, j | 0 <= i < j < |log| :: log[i].worker != log[j].worker)
  }

  /** Every worker is running or has reported exactly once. */
  ghost predicate Accounted(s: State) {
    && Reports(s, s.drained + s.queue)
    && (forall w | w in s.running :: w < |s.spawned|)
    && (forall w: nat | w < |s.spawned| && w !in s.running :: Reported(s.drained + s.queue, w))
  }

  ghost predicate Reported(log: seq<Done>, w: nat) {
    exists i | 0 <= i < |log| :: log[i].worker == w
  }

  ghost predicate RunningKey(s: State, key: string) {
    exists w | w in s.running && w < |s.spawned| :: s.spawned[w] == key
  }

  ghost predicate QueuedKey(s: State, key: string) {
    exists i | 0 <= i < |s.queue| :: s.queue[i].key == key
  }

  /** No occurrence has two turns running or waiting to be drained. */
  ghost predicate OneTurnPerKey(s: State) {
    && (forall v, w | v in s.running && w in s.running && v < w < |s.spawned| :: s.spawned[v] != s.spawned[w])
    && (forall i, j | 0 <= i < j < |s.queue| :: s.queue[i].key != s.queue[j].key)
    && (forall i | 0 <= i < |s.queue| :: !RunningKey(s, s.queue[i].key))
  }

  ghost predicate Inv(s: State) {
    && Accounted(s)
    && OneTurnPerKey(s)
    && (forall k :: k in s.inflight <==> RunningKey(s, k) || QueuedKey(s, k))
  }

  lemma {:induction false} SpawnKeepsInv(s: State, key: string)
    requires Inv(s) && key !in s.inflight
    ensures Inv(Spawn(s, key))
  {
    var t := Spawn(s, key);
    var n := |s.spawned|;
    assert t.spawned[..n] == s.spawned && t.spawned[n] == key && n in t.running;
    forall k ensures RunningKey(t, k) <==> RunningKey(s, k) || k == key {
      if RunningKey(s, k) {
        var w :| w in s.running && w < n && s.spawned[w] == k;
        assert w in t.running && t.spawned[w] == k;
      }
    }
    forall k ensures QueuedKey(t, k) <==> QueuedKey(s, k) {}
  }

  lemma {:induction false} FinishKeepsInv(s: State, w: nat, ok: bool)
    requires Inv(s) && w in s.running && w < |s.spawned|
    ensures Inv(Step(s, Finish(w, ok)))
  {
    var t := Step(s, Finish(w, ok));
    var key := s.spawned[w];
    FinishKeepsAccounts(s, w, ok);
    forall k ensures QueuedKey(t, k) <==> QueuedKey(s, k) || k == key {
      assert t.queue[..|s.queue|] == s.queue && t.queue[|s.queue|].key == key;
    }
    assert RunningKey(s, key);
    forall k ensures RunningKey(t, k) <==> RunningKey(s, k) && k != key {
      if RunningKey(s, k) && k != key {
        var v :| v in s.running && v < |s.spawned| && s.spawned[v] == k;
        assert v in t.running;
      }
    }
  }

  lemma {:induction false} FinishKeepsAccounts(s: State, w: nat, ok: bool)
    requires Accounted(s) && w in s.running && w < |s.spawned|
    ensures Accounted(Step(s, Finish(w, ok)))
  {
    var t := Step(s, Finish(w, ok));
    var log, done := s.drained + s.queue, Done(w, s.spawned[w], ok);
    assert t.drained + t.queue == log + [done];
    ReportExtends(s, t, log, done);
    forall v: nat | v < |t.spawned| && v !in t.running ensures Reported(log + [done], v) {
      StillReported(log, done, v);
    }
  }

  lemma {:induction false} ReportExtends(s: State, t: State, log: seq<Done>, done: Done)
    requires Reports(s, log) && done.worker in s.running
    requires done.worker < |s.spawned| && done.key == s.spawned[done.worker]
    requires t.spawned == s.spawned && t.running == s.running - {done.worker}
    ensures Reports(t, log + [done])
  {
  }

  lemma {:induction false} StillReported(log: seq<Done>, done: Done, v: nat)
    requires Reported(log, v) || done.worker == v
    ensures Reported(log + [done], v)
  {
    if done.worker == v {
      assert (log + [done])[|log|].worker == v;
    } else {
      var i :| 0 <= i < |log| && log[i].worker == v;
      assert (log + [done])[i].worker == v;
    }
  }

  lemma {:induction false} DrainKeepsInv(s: State)
    requires Inv(s) && s.queue != []
    ensures Inv(Step(s, DrainOne))
  {
    var t := Step(s, DrainOne);
    assert t.drained + t.queue == s.drained + s.queue;
    var key := s.queue[0].key;
    assert QueuedKey(s, key);
    forall k ensures RunningKey(t, k) <==> RunningKey(s, k) {}
    forall k ensures QueuedKey(t, k) <==> QueuedKey(s, k) && k != key {
      if QueuedKey(s, k) && k != key {
        var i :| 0 <= i < |s.queue| && s.queue[i].key == k;
        assert t.queue[i - 1] == s.queue[i];
      }
    }
  }

  lemma {:induction false} StepKeepsInv(s: State, e: Event)
    requires Inv(s)
    ensures Inv(Step(s, e))
  {
    match e
    case Claim(lease) =>
      var t := Step(s, e);
      if t == Spawn(s, lease.key) && lease.key !in s.inflight {
        SpawnKeepsInv(s, lease.key);
      } else {
        assert t == s.(direct := t.direct);
        forall k ensures RunningKey(t, k) <==> RunningKey(s, k) {}
        forall k ensures QueuedKey(t, k) <==> QueuedKey(s, k) {}
      }
    case Finish(w, ok) =>
      if w in s.running { FinishKeepsInv(s, w, ok); }
    case DrainOne =>
      if s.queue != [] { DrainKeepsInv(s); }
  }

  /**
   In every interleaving of claims, worker completions and drains: the in-flight keys are exactly
   those of running workers and undrained completions, no key has two, and every worker ever
   spawned is running or has reported once.
   */
  lemma {:induction false} RunKeepsInv(es: seq<Event>)
    ensures Inv(Run(Start, es))
  {
    if es != [] {
      RunKeepsInv(es[..|es| - 1]);
      StepKeepsInv(Run(Start, es[..|es| - 1]), es[|es| - 1]);
    }
  }

  // ---- conservation ----

  function Keys(log: seq<Done>): seq<string> {
    seq(|log|, i requires 0 <= i < |log| => log[i].key)
  }

  /** Per key, turns spawned are turns drained plus the one in flight, if it is. */
  ghost predicate Balanced(s: State) {
    forall k :: multiset(s.spawned)[k] == multiset(Keys(s.drained))[k] + if k in s.inflight then 1 else 0
  }

  lemma {:induction false} StepKeepsBalance(s: State, e: Event)
    requires Inv(s) && Balanced(s)
    ensures Balanced(Step(s, e))
  {
    var t := Step(s, e);
    if e.DrainOne? && s.queue != [] {
      assert QueuedKey(s, s.queue[0].key);
      hide Step;
      DrainKeepsBalance(s);
    } else if t.spawned != s.spawned {
      SpawnKeepsBalance(s, e.lease.key);
    }
  }

  lemma {:induction false} DrainKeepsBalance(s: State)
    requires Balanced(s) && s.queue != [] && s.queue[0].key in s.inflight
    ensures Balanced(Step(s, DrainOne))
  {
    var done := s.queue[0];
    assert Keys(s.drained + [done]) == Keys(s.drained) + [done.key];
  }

  lemma {:induction false} SpawnKeepsBalance(s: State, key: string)
    requires Balanced(s) && key !in s.inflight
    ensures Balanced(Spawn(s, key))
  {
  }

  /** A key is never spawned again before its last turn was drained: spawns and drains of it alternate. */
  lemma {:induction false} SpawnsBalanceDrains(es: seq<Event>, key: string)
    ensures var s := Run(Start, es);
            multiset(s.spawned)[key] == multiset(Keys(s.drained))[key] + if key in s.inflight then 1 else 0
  {
    RunKeepsBalance(es);
  }

  lemma {:induction false} RunKeepsBalance(es: seq<Event>)
    ensures Balanced(Run(Start, es))
  {
    if es != [] {
      var n := |es| - 1;
      RunKeepsBalance(es[..n]);
      RunKeepsInv(es[..n]);
      StepKeepsBalance(Run(Start, es[..n]), es[n]);
    }
  }

  /** How often a key was finalised, by the drain and by the sweep. */
  function Finalised(s: State, key: string): nat {
    multiset(Keys(s.drained))[key] + multiset(s.direct)[key]
  }

  /** The scheduler never claims an occurrence it has finished: at each claim of the key, none was finalised yet. */
  ghost predicate ClaimedUnfinished(es: seq<Event>, key: string) {
    forall i | 0 <= i < |es| && es[i].Claim? && es[i].lease.key == key :: Finalised(Run(Start, es[..i]), key) == 0
  }

  /** Step `i` is the sweep finalising the key itself while a turn for it is in flight. */
  ghost predicate SettlesInFlight(es: seq<Event>, key: string, i: nat) {
    && i < |es| && es[i].Claim? && es[i].lease.key == key && FinalisesInline(es[i].lease)
    && key in Run(Start, es[..i]).inflight
  }

  ghost predicate SettledInFlight(es: seq<Event>, key: string) {
    exists i: nat :: SettlesInFlight(es, key, i)
  }

  /** Finalisations made, plus the one that the turn in flight is going to make. */
  ghost function Tally(s: State, key: string): nat {
    Finalised(s, key) + if key in s.inflight then 1 else 0
  }

  lemma {:induction false} TallyStep(s: State, e: Event, key: string)
    requires Inv(s)
    ensures Tally(Step(s, e), key) == Tally(s, key)
              + (if e.Claim? && e.lease.key == key
                    && (FinalisesInline(e.lease) || (Fires(e.lease) && e.lease.runAs.Registered? && key !in s.inflight)) then 1 else 0)
  {
    if e.DrainOne? && s.queue != [] {
      var done := s.queue[0];
      assert QueuedKey(s, done.key);
      assert Keys(s.drained + [done]) == Keys(s.drained) + [done.key];
    }
  }

  lemma {:induction false} PrefixCases(es: seq<Event>, key: string)
    requires es != []
    ensures var n := |es| - 1;
            SettledInFlight(es, key) <==> SettledInFlight(es[..n], key) || SettlesInFlight(es, key, n)
    ensures ClaimedUnfinished(es, key) ==> ClaimedUnfinished(es[..|es| - 1], key)
  {
    var n := |es| - 1;
    forall i | 0 <= i < n ensures es[..n][..i] == es[..i] && es[..n][i] == es[i] {}
    forall i: nat | i < n ensures SettlesInFlight(es[..n], key, i) <==> SettlesInFlight(es, key, i) {}
    if SettledInFlight(es[..n], key) {
      var i: nat :| SettlesInFlight(es[..n], key, i);
      assert SettlesInFlight(es, key, i);
    }
    if SettledInFlight(es, key) {
      var i: nat :| SettlesInFlight(es, key, i);
      assert i < n ==> SettlesInFlight(es[..n], key, i);
    }
  }

  lemma {:induction false} TallyOverRun(es: seq<Event>, key: string)
    requires ClaimedUnfinished(es, key)
    ensures Tally(Run(Start, es), key) <= 2
    ensures SettledInFlight(es, key) <==> Tally(Run(Start, es), key) == 2
  {
    if es != [] {
      var n := |es| - 1;
      PrefixCases(es, key);
      TallyOverRun(es[..n], key);
      RunKeepsInv(es[..n]);
      TallyStep(Run(Start, es[..n]), es[n], key);
    }
  }

  /**
   An occurrence is finalised more than once, then exactly twice, if and only if the sweep
   finalised it itself while its background turn was in flight.
   */
  lemma {:induction false} FinalisedOnceIffNeverSettledInFlight(es: seq<Event>, key: string)
    requires ClaimedUnfinished(es, key) && key !in Run(Start, es).inflight
    ensures Finalised(Run(Start, es), key) <= 1 <==> !SettledInFlight(es, key)
    ensures Finalised(Run(Start, es), key) <= 2
  {
    TallyOverRun(es, key);
  }

  /** Nothing is lost: an occurrence for which a turn was spawned has been finalised once nothing is in flight. */
  lemma {:induction false} SpawnedIsFinalised(es: seq<Event>, key: string)
    requires key in Run(Start, es).spawned && key !in Run(Start, es).inflight
    ensures Finalised(Run(Start, es), key) >= 1
  {
    SpawnsBalanceDrains(es, key);
    assert multiset(Run(Start, es).spawned)[key] > 0;
  }

  /**
   The gate is consulted before the in-flight guard, so an occurrence re-claimed while its turn is
   still running can be finalised twice: once by the skip and once by the drain.
   */
  lemma {:induction false} SkipFinalisesRunningTurn(key: string)
    ensures var fire := Lease(key, true, true, Fire, Registered);
            var es := [Claim(fire), Claim(fire.(gate := Skip)), Finish(0, true), DrainOne];
            && ClaimedUnfinished(es, key)
            && Finalised(Run(Start, es), key) == 2 && Run(Start, es).spawned == [key]
  {
    var fire := Lease(key, true, true, Fire, Registered);
    var es := [Claim(fire), Claim(fire.(gate := Skip)), Finish(0, true), DrainOne];
    RunFour(Start, es[0], es[1], es[2], es[3]);
    var s1 := Step(Start, es[0]);
    assert s1 == State({key}, [key], {0}, [], [], []);
    assert Step(s1, es[1]) == s1.(direct := [key]);
    assert Step(s1.(direct := [key]), es[2]) == State({key}, [key], {}, [Done(0, key, true)], [], [key]);
    assert Keys([Done(0, key, true)]) == [key];
    assert es[..0] == [] && es[..1] == [] + [es[0]];
    RunOne(Start, [], es[0]);
    assert Finalised(Start, key) == 0 && Finalised(s1, key) == 0;
  }

  lemma {:induction false} RunFour(s: State, a: Event, b: Event, c: Event, d: Event)
    ensures Run(s, [a, b, c, d]) == Step(Step(Step(Step(s, a), b), c), d)
  {
    assert [a, b, c, d] == [a, b, c] + [d] && [a, b, c] == [a, b] + [c] && [a, b] == [a] + [b] && [a] == [] + [a];
    RunOne(s, [], a);
    RunOne(s, [a], b);
    RunOne(s, [a, b], c);
    RunOne(s, [a, b, c], d);
  }

  /** Every spawned turn was drained, each exactly once. */
  ghost predicate AllDrainedOnce(s: State) {
    && (forall w: nat | w < |s.spawned| :: Reported(s.drained, w))
    && (forall i, j | 0 <= i < j < |s.drained| :: s.drained[i].worker != s.drained[j].worker)
  }

  lemma {:induction false} QuietMeansAllDrained(s: State)
    requires Inv(s) && s.running == {} && s.queue == []
    ensures s.inflight == {} && AllDrainedOnce(s)
  {
    assert s.drained + s.queue == s.drained;
    forall k ensures k !in s.inflight {
      assert !RunningKey(s, k) && !QueuedKey(s, k);
    }
  }

  // ---- the serve thread ----

  /** Workers that finish while the serve thread is between two of its own steps. */
  type Arrivals = seq<seq<(nat, bool)>>

  class Loop {
    var inflight: set<string>
    var spawned: seq<string>
    var running: set<nat>
    var queue: seq<Done>
    var drained: seq<Done>
    var direct: seq<string>
    ghost var events: seq<Event>

    function View(): State
      reads this
    {
      State(inflight, spawned, running, queue, drained, direct)
    }

    /** The state is that of the run recorded so far. */
    ghost predicate Valid()
      reads this
    {
      View() == Run(Start, events)
    }

    constructor ()
      ensures Valid() && events == []
    {
      inflight, spawned, running, queue, drained, direct, events := {}, [], {}, [], [], [], [];
    }

    ghost method Record(e: Event, before: State)
      requires before == Run(Start, events) && View() == Step(before, e)
      modifies this`events
      ensures Valid() && events == old(events) + [e]
      ensures Claimed(events) == Claimed(old(events)) + if e.Claim? then [e.lease] else []
    {
      ClaimedPush(events, e);
      RunOne(Start, events, e);
      events := events + [e];
    }

    /** A worker thread reports its turn. */
    method Report(worker: nat, ok: bool)
      requires Valid()
      modifies this
      ensures Valid() && events == old(events) + [Finish(worker, ok)] && Claimed(events) == Claimed(old(events))
      ensures running == old(running) - {worker} && spawned == old(spawned) && drained == old(drained)
    {
      ghost var before := View();
      RunKeepsInv(events);
      if worker in running {
        running := running - {worker};
        queue := queue + [Done(worker, spawned[worker], ok)];
      }
      Record(Finish(worker, ok), before);
    }

    method ReportAll(batch: seq<(nat, bool)>)
      requires Valid()
      modifies this
      ensures Valid() && old(events) <= events
      ensures Claimed(events) == Claimed(old(events))
      ensures running <= old(running) && spawned == old(spawned) && drained == old(drained)
    {
      for i := 0 to |batch|
        invariant Valid() && old(events) <= events && Claimed(events) == Claimed(old(events))
        invariant running <= old(running) && spawned == old(spawned) && drained == old(drained)
      {
        Report(batch[i].0, batch[i].1);
      }
    }

    method Meanwhile(arrivals: Arrivals, i: nat)
      requires Valid()
      modifies this
      ensures Valid() && old(events) <= events
      ensures Claimed(events) == Claimed(old(events))
      ensures running <= old(running) && spawned == old(spawned) && drained == old(drained)
    {
      if i < |arrivals| {
        ReportAll(arrivals[i]);
      }
    }

    /** One lease of the sweep. */
    method ClaimOne(lease: Lease)
      requires Valid()
      modifies this
      ensures Valid() && events == old(events) + [Claim(lease)] && Claimed(events) == Claimed(old(events)) + [lease]
      ensures var runs := lease.listed && lease.hasSession && (lease.gate.NoGate? || lease.gate.Fire?);
              var spawns := runs && lease.runAs.Registered? && lease.key !in old(inflight);
              var settles := (lease.listed && lease.hasSession && lease.gate.Skip?) || (runs && lease.runAs == Orchestrator(true));
              && spawned == old(spawned) + (if spawns then [lease.key] else [])
              && inflight == old(inflight) + (if spawns then {lease.key} else {})
              && running == old(running) + (if spawns then {|old(spawned)|} else {})
              && direct == old(direct) + (if settles then [lease.key] else [])
              && queue == old(queue) && drained == old(drained)
    {
      ClaimMeans(View(), lease);
      ghost var before := View();
      if lease.listed && lease.hasSession {
        match lease.gate {
          case Skip => direct := direct + [lease.key];
          case Broken =>
          case NoGate => FireTurn(lease);
          case Fire => FireTurn(lease);
        }
      }
      Record(Claim(lease), before);
    }

    method FireTurn(lease: Lease)
      requires Fires(lease)
      modifies this
      ensures View() == Step(old(View()), Claim(lease)) && events == old(events)
    {
      match lease.runAs {
        case Unregistered =>
        case Registered =>
          if lease.key in inflight {
            return;
          }
          inflight := inflight + {lease.key};
          running := running + {|spawned|};
          spawned := spawned + [lease.key];
        case Orchestrator(turnOk) =>
          if turnOk {
            direct := direct + [lease.key];
          }
      }
    }

    method SchedulerTick(leases: seq<Lease>, arrivals: Arrivals)
      requires Valid()
      modifies this
      ensures Valid() && old(events) <= events
      ensures Claimed(events) == Claimed(old(events)) + leases
    {
      for i := 0 to |leases|
        invariant Valid() && old(events) <= events && Claimed(events) == Claimed(old(events)) + leases[..i]
      {
        Meanwhile(arrivals, i);
        ClaimOne(leases[i]);
      }
      assert leases[..|leases|] == leases;
    }

    method DrainOneDone()
      requires Valid() && queue != []
      modifies this
      ensures Valid() && events == old(events) + [DrainOne] && Claimed(events) == Claimed(old(events))
      ensures running == old(running) && queue == old(queue)[1..] && spawned == old(spawned) && direct == old(direct)
      ensures drained == old(drained) + [old(queue)[0]] && inflight == old(inflight) - {old(queue)[0].key}
    {
      ghost var before := View();
      var done := queue[0];
      queue := queue[1..];
      inflight := inflight - {done.key};
      drained := drained + [done];
      Record(DrainOne, before);
    }

    /** Receive until the channel is empty; workers may report in between. */
    method DrainCompleted(arrivals: Arrivals)
      requires Valid()
      modifies this
      ensures Valid() && old(events) <= events
      ensures Claimed(events) == Claimed(old(events))
      ensures queue == [] && running <= old(running)
    {
      var i := 0;
      while queue != []
        invariant Valid() && old(events) <= events && running <= old(running) && Claimed(events) == Claimed(old(events))
        decreases |arrivals| - i, |queue|
      {
        DrainOneDone();
        if i < |arrivals| {
          Meanwhile(arrivals, i);
          i := i + 1;
        }
      }
    }

    /** An idle window: drain, then sweep when the interval has passed. */
    method Tick(due: bool, leases: seq<Lease>, arrivals: Arrivals, more: Arrivals)
      requires Valid()
      modifies this
      ensures Valid() && old(events) <= events
      ensures Claimed(events) == Claimed(old(events)) + if due then leases else []
    {
      DrainCompleted(arrivals);
      if due {
        SchedulerTick(leases, more);
      }
    }

    /** Join every worker in spawn order, then drain one last time: nothing is in flight, each turn was drained once. */
    method Shutdown(outcomes: seq<bool>, arrivals: Arrivals)
      requires Valid() && |outcomes| == |spawned|
      modifies this
      ensures Valid() && old(events) <= events
      ensures Claimed(events) == Claimed(old(events))
      ensures inflight == {} && running == {} && queue == [] && AllDrainedOnce(View())
    {
      RunKeepsInv(events);
      var n := |spawned|;
      for w := 0 to n
        invariant Valid() && old(events) <= events && |spawned| == n && Claimed(events) == Claimed(old(events))
        invariant forall v | v in running :: w <= v < n
      {
        Meanwhile(arrivals, w);
        Report(w, outcomes[w]);
      }
      DrainCompleted([]);
      RunKeepsInv(events);
      QuietMeansAllDrained(View());
    }
  }
}
