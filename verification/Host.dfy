/**
 The host's run-loop for one session: hydrate the watermark, enqueue the inbound row, make sure a
 container is up, poll `outbound.db`, mark what is new delivered, return this turn's rows.

 What the code does not determine (heartbeats, transient errors, timeouts, and everything other
 processes do between two host operations) arrives as a script.
 */
module Host {
  import opened Wrappers
  import opened Sequences
  import opened Session
  import opened Turn
  import opened Exchange
  import opened ExchangeInvariant
  import opened ExchangeTheorems
  import opened ExchangeTurn
  import opened Runner
  import opened HostPolls

  /** Four attempts with a pause after each transient failure, then a fifth whose outcome stands. */
  method RetryTransient(attempts: seq<Attempt>) returns (outcome: Attempt, calls: nat)
    ensures calls == Consumed(attempts)
    ensures outcome == AttemptAt(attempts, calls - 1)
    ensures outcome == Transient ==> calls == RETRIES + 1
  {
    for attempt := 0 to RETRIES
      invariant FirstSettled(attempts, RETRIES) >= attempt
    {
      FirstSettledAt(attempts, RETRIES, attempt);
      if AttemptAt(attempts, attempt) != Transient {
        return AttemptAt(attempts, attempt), attempt + 1;
      }
    }
    return AttemptAt(attempts, RETRIES), RETRIES + 1;
  }

  /** The turn that started in `s1` has run `body`, with seeded starts only if `strict`, and the host has not left it. */
  ghost predicate Polling(s1: State, body: seq<Event>, q: nat, strict: bool) {
    InTurn(Run(s1, body).host, q)
    && (body != [] ==> (strict ==> body[|body| - 1] != Boot(false)) && Polling(s1, body[..|body| - 1], q, strict))
  }

  lemma {:induction false} OtherKeepsHost(s: State, e: Event)
    requires IsOther(e)
    ensures Step(s, e).host == s.host
  {
  }

  lemma {:induction false} PollingExtends(s1: State, body: seq<Event>, e: Event, q: nat, strict: bool)
    requires Polling(s1, body, q, strict) && (strict ==> e != Boot(false))
    requires InTurn(Step(Run(s1, body), e).host, q)
    ensures Polling(s1, body + [e], q, strict) && Run(s1, body + [e]) == Step(Run(s1, body), e)
  {
    RunSplit(s1, body, e);
    assert (body + [e])[..|body|] == body;
  }

  lemma {:induction false} PollingAllAlong(s1: State, body: seq<Event>, q: nat, strict: bool)
    requires Polling(s1, body, q, strict)
    ensures strict ==> Seeded(body)
    ensures forall i | 0 <= i <= |body| :: InTurn(Run(s1, body[..i]).host, q)
  {
    hide Step, Run, InTurn;
    assert body[..|body|] == body;
    if body != [] {
      var init := body[..|body| - 1];
      PollingAllAlong(s1, init, q, strict);
      forall i | 0 <= i <= |body| ensures InTurn(Run(s1, body[..i]).host, q) {
        if i < |body| {
          assert init[..i] == body[..i];
        }
      }
    }
  }

  /** How one poll ends. */
  datatype PollResult = Again | Reply(rows: seq<OutRow>) | Fail(error: HostError)

  function ResultOf(out: PollResult): Result<seq<OutRow>, HostError>
    requires !out.Again?
  {
    if out.Reply? then Ok(out.rows) else Err(out.error)
  }

  class SessionHost {
    const db: SessionDb
    const container: Container
    var lastDeliveredSeq: nat
    var started: bool
    var spawned: bool
    ghost var returned: seq<OutRow>

    function View(): HostState
      reads this
    {
      if started then Idle(lastDeliveredSeq) else Cold
    }

    ghost function World(phase: HostState): State
      reads this, container, container.db
    {
      container.World(phase, returned)
    }

    ghost predicate Wired() {
      container.db == db
    }

    constructor (db: SessionDb, container: Container)
      requires container.db == db
      ensures this.db == db && this.container == container && Wired()
      ensures View() == Cold && !spawned && returned == []
    {
      this.db := db;
      this.container := container;
      lastDeliveredSeq, started, spawned, returned := 0, false, false, [];
    }

    /** A new host process for the same session: nothing in memory survives. */
    method Restart()
      requires Wired()
      modifies this
      ensures World(View()) == Step(old(World(View())), Event.Restart)
      ensures !spawned
    {
      lastDeliveredSeq, started, spawned := 0, false, false;
    }

    /** Create or migrate the session, then read the watermark back; both are retried. */
    method EnsureStarted(setup: seq<Attempt>, hydrate: seq<Attempt>) returns (ok: bool)
      requires Wired()
      modifies this
      ensures ok <==> old(started) || (Settles(setup) && Settles(hydrate))
      ensures ok ==> View() == Step(old(World(View())), Hydrate).host && started
      ensures !ok ==> View() == old(View())
      ensures returned == old(returned) && spawned == old(spawned)
    {
      if started {
        return true;
      }
      var ready, _ := RetryTransient(setup);
      if ready != Done {
        return false;
      }
      var read, _ := RetryTransient(hydrate);
      if read != Done {
        return false;
      }
      lastDeliveredSeq := db.MaxDeliveredSeq();
      started := true;
      return true;
    }

    /** Best-effort stop of a dead container, and forget its handle. */
    method ReapForRespawn(ghost phase: HostState)
      requires Wired()
      modifies this, container
      ensures World(phase) == Step(old(World(phase)), Die)
      ensures !spawned && lastDeliveredSeq == old(lastDeliveredSeq) && started == old(started) && returned == old(returned)
    {
      spawned := false;
      container.Die(phase, returned);
    }

    /** Let others run: the body of the turn grows by their steps. */
    method Interleave(es: seq<Event>, ghost phase: HostState, ghost s1: State, ghost body: seq<Event>, ghost q: nat, ghost strict: bool)
      returns (ghost body': seq<Event>)
      requires Wired() && OthersOnly(es) && (strict ==> Seeded(es)) && InTurn(phase, q)
      requires Polling(s1, body, q, strict) && World(phase) == Run(s1, body)
      modifies container, db
      ensures Polling(s1, body', q, strict) && World(phase) == Run(s1, body')
      ensures body' == body + es
    {
      hide Step, Run, Polling;
      body' := body;
      for i := 0 to |es|
        invariant Polling(s1, body', q, strict) && World(phase) == Run(s1, body')
        invariant body' == body + es[..i]
      {
        OtherKeepsHost(World(phase), es[i]);
        container.Act(es[i], phase, returned);
        PollingExtends(s1, body', es[i], q, strict);
        body' := body' + [es[i]];
      }
    }

    /** Mark one row delivered, retrying transient failures, and advance the watermark. */
    method MarkOne(unread: seq<OutRow>, k: nat, attempts: seq<Attempt>, q: nat, ghost s1: State, ghost body: seq<Event>, ghost strict: bool)
      returns (ok: bool, ghost body': seq<Event>)
      requires Wired() && k < |unread|
      requires Polling(s1, body, q, strict) && World(Marking(lastDeliveredSeq, q, unread, k)) == Run(s1, body)
      modifies this`lastDeliveredSeq, db
      ensures Polling(s1, body', q, strict)
      ensures World(Marking(lastDeliveredSeq, q, unread, if ok then k + 1 else k)) == Run(s1, body')
      ensures (ok <==> Settles(attempts)) && body' == body + if ok then [Mark] else []
    {
      var outcome, _ := RetryTransient(attempts);
      if outcome != Done {
        assert body + [] == body;
        return false, body;
      }
      var n := unread[k].seqNo;
      db.MarkDelivered(n);
      lastDeliveredSeq := if n > lastDeliveredSeq then n else lastDeliveredSeq;
      assert World(Marking(lastDeliveredSeq, q, unread, k + 1)) == Step(Run(s1, body), Mark);
      PollingExtends(s1, body, Mark, q, strict);
      return true, body + [Mark];
    }

    /**
     Mark a snapshot's new rows delivered one by one, advancing the watermark with each. A mark
     that keeps failing stops the loop: what is marked stays marked.
     */
    method MarkAll(unread: seq<OutRow>, poll: Poll, q: nat, ghost s1: State, ghost body: seq<Event>, ghost strict: bool)
      returns (ok: bool, ghost body': seq<Event>, ghost done: nat)
      requires Wired() && unread != []
      requires OthersDuring(poll) && (strict ==> SeededDuring(poll))
      requires Polling(s1, body, q, strict) && World(Marking(lastDeliveredSeq, q, unread, 0)) == Run(s1, body)
      modifies this`lastDeliveredSeq, container, db
      ensures done <= |unread| && (ok <==> done == |unread|)
      ensures ok <==> MarksSettle(poll, |unread|)
      ensures ok ==> body' == body + MarkSteps(poll, |unread|)
      ensures Polling(s1, body', q, strict) && World(Marking(lastDeliveredSeq, q, unread, done)) == Run(s1, body')
    {
      hide Step, Run, Polling, Settles;
      body', done := body, 0;
      for k := 0 to |unread|
        invariant done == k && MarksSettle(poll, k) && body' == body + MarkSteps(poll, k)
        invariant Polling(s1, body', q, strict) && World(Marking(lastDeliveredSeq, q, unread, done)) == Run(s1, body')
      {
        body' := Interleave(Meanwhile(poll, k), Marking(lastDeliveredSeq, q, unread, done), s1, body', q, strict);
        ok, body' := MarkOne(unread, k, MarkAttempts(poll, k), q, s1, body', strict);
        if !ok {
          return false, body', done;
        }
        done := done + 1;
      }
      ok := true;
    }

    /** Where a poll leaves the exchange: still waiting, about to give up, or about to return rows. */
    ghost predicate PollEnded(out: PollResult, q: nat, at: State)
      reads this, container, container.db
    {
      if out.Again? then World(Waiting(lastDeliveredSeq, q)) == at
      else
        && InTurn(at.host, q) && World(Idle(lastDeliveredSeq)) == Left(at, ResultOf(out))
        && (out.Reply? ==> ReadyToReturn(at) && out.rows == ExchangeTurn.Reply(at))
    }

    /** The rest of a poll that read something above the watermark. */
    method Deliver(unread: seq<OutRow>, poll: Poll, q: nat, ghost s1: State, ghost body: seq<Event>, ghost strict: bool)
      returns (out: PollResult, ghost body': seq<Event>)
      requires Wired() && started && unread != []
      requires OthersDuring(poll) && (strict ==> SeededDuring(poll))
      requires Polling(s1, body, q, strict) && World(Marking(lastDeliveredSeq, q, unread, 0)) == Run(s1, body)
      modifies this, container, db
      ensures started && Polling(s1, body', q, strict)
      ensures returned == old(returned) + if out.Reply? then out.rows else []
      ensures spawned == old(spawned)
      ensures PollEnded(out, q, Run(s1, body'))
      ensures out == Fail(SessionFailed) <==> !MarksSettle(poll, |unread|)
      ensures out.Reply? <==> MarksSettle(poll, |unread|) && RowsFor(unread, q) != []
      ensures out == Fail(TimedOut) <==> MarksSettle(poll, |unread|) && RowsFor(unread, q) == [] && poll.expired
      ensures out.Again? <==> MarksSettle(poll, |unread|) && RowsFor(unread, q) == [] && !poll.expired
      ensures out.Reply? ==> out.rows == RowsFor(unread, q)
      ensures out.Again? || out == Fail(TimedOut) ==>
                body' == body + MarkSteps(poll, |unread|) + [Finish] && Run(s1, body').host.Waiting?
    {
      var ok;
      ghost var done;
      ok, body', done := MarkAll(unread, poll, q, s1, body, strict);
      ghost var at := Run(s1, body');
      AllMarked(at, q, lastDeliveredSeq, unread, done);
      hide Step, Run, RowsFor, Polling, MarksSettle;
      if !ok {
        return Fail(SessionFailed), body';
      }
      var mine := RowsFor(unread, q);
      if mine != [] {
        returned := returned + mine;
        return PollResult.Reply(mine), body';
      }
      PollingExtends(s1, body', Finish, q, strict);
      body' := body' + [Finish];
      out := if poll.expired then Fail(TimedOut) else Again;
    }

    /** One iteration of the poll loop. */
    method PollOnce(poll: Poll, q: nat, ghost s1: State, ghost body: seq<Event>, ghost strict: bool)
      returns (out: PollResult, ghost body': seq<Event>)
      requires Wired() && started
      requires OthersDuring(poll) && (strict ==> SeededDuring(poll))
      requires Polling(s1, body, q, strict) && World(Waiting(lastDeliveredSeq, q)) == Run(s1, body)
      modifies this, container, db
      ensures started && Polling(s1, body', q, strict)
      ensures returned == old(returned) + if out.Reply? then out.rows else []
      ensures spawned <==> old(spawned) && !poll.stale
      ensures PollEnded(out, q, Run(s1, body'))
      ensures out.Again? <==> Quiet(Run(s1, body), poll, q) && !poll.expired
      ensures out.Again? ==> body' == body + QuietSteps(Run(s1, body), poll)
      ensures !out.Again? ==> EndsAt(Run(s1, body), poll, q, ResultOf(out))
      ensures out.Fail? && MarksSettle(poll, |Unread(Run(s1, body), poll)|) ==> Run(s1, body').host.Waiting?
    {
      ghost var w := Run(s1, body);
      assert w.host == Waiting(lastDeliveredSeq, q);
      PollCases(w, poll, q);
      if poll.stale {
        ReapForRespawn(Waiting(lastDeliveredSeq, q));
        PollingExtends(s1, body, Die, q, strict);
        return Fail(ContainerDied), body + [Die];
      }
      body' := Interleave(poll.before, Waiting(lastDeliveredSeq, q), s1, body, q, strict);
      RunConcat(s1, body, poll.before);
      QuietStepsOf(w, poll);
      hide Run, Step, RowsFor, Polling, MarksSettle, MarkSteps, Quiet, QuietSteps, EndsAt;
      if poll.read == Broken {
        return Fail(SessionFailed), body';
      }
      ghost var unread := Unread(w, poll);
      hide Unread, Above;
      ghost var steps;
      out, body', steps := ReadAndMark(poll, q, s1, body', strict, unread);
      assert unread == [] ==> body + poll.before + steps == body + poll.before;
      Assoc(body, poll.before, steps);
    }

    /** Read what is above the watermark and, if that is anything, mark it and look for our rows. */
    method ReadAndMark(poll: Poll, q: nat, ghost s1: State, ghost body: seq<Event>, ghost strict: bool, ghost unread: seq<OutRow>)
      returns (out: PollResult, ghost body': seq<Event>, ghost steps: seq<Event>)
      requires Wired() && started
      requires OthersDuring(poll) && (strict ==> SeededDuring(poll))
      requires Polling(s1, body, q, strict) && World(Waiting(lastDeliveredSeq, q)) == Run(s1, body)
      requires unread == if poll.read == Rows then Above(Run(s1, body).t.outbox, lastDeliveredSeq) else []
      modifies this, container, db
      ensures started && Polling(s1, body', q, strict)
      ensures returned == old(returned) + if out.Reply? then out.rows else []
      ensures spawned == old(spawned)
      ensures PollEnded(out, q, Run(s1, body'))
      ensures out == Fail(SessionFailed) <==> !MarksSettle(poll, |unread|)
      ensures out.Reply? <==> MarksSettle(poll, |unread|) && RowsFor(unread, q) != []
      ensures out == Fail(TimedOut) <==> MarksSettle(poll, |unread|) && RowsFor(unread, q) == [] && poll.expired
      ensures out.Again? <==> MarksSettle(poll, |unread|) && RowsFor(unread, q) == [] && !poll.expired
      ensures out.Reply? ==> out.rows == RowsFor(unread, q)
      ensures steps == if unread == [] then [] else [Snapshot] + MarkSteps(poll, |unread|) + [Finish]
      ensures out.Again? || out == Fail(TimedOut) ==> body' == body + steps && Run(s1, body').host.Waiting?
    {
      steps := [];
      var messages := if poll.read == Rows then db.outbox else [];
      var found := Above(messages, lastDeliveredSeq);
      assert found == unread;
      NoRows(q);
      SnapshotOf(Run(s1, body), q, lastDeliveredSeq, unread);
      hide Run, Step, RowsFor, Polling, MarkSteps, Above;
      if found == [] {
        assert body + [] == body;
        return if poll.expired then Fail(TimedOut) else Again, body, steps;
      }
      PollingExtends(s1, body, Snapshot, q, strict);
      out, body' := Deliver(found, poll, q, s1, body + [Snapshot], strict);
      steps := [Snapshot] + MarkSteps(poll, |unread|) + [Finish];
      Assoc(body, [Snapshot], MarkSteps(poll, |unread|));
      Assoc(body, [Snapshot] + MarkSteps(poll, |unread|), [Finish]);
    }

    /**
     One turn. Whatever happens, the exchange took the steps `es`, in which every container start
     was seeded if the script's are. If the turn returns Ok from a reachable state, its rows complete
     whole batches of its own row; and if the starts were seeded, they are what was still undelivered
     of the one batch for it. Which outcome the call has is settled by the script and the tables; and
     as long as no mark fails, a call that does not return Ok has delivered nothing of its own row.
     */
    method RunTurnKeyed(m: Message, key: Option<string>, script: Script)
      returns (r: Result<seq<OutRow>, HostError>, ghost es: seq<Event>)
      requires Wired() && Legal(script)
      modifies this, container, db
      ensures World(View()) == Run(old(World(View())), es)
      ensures SeededScript(script) ==> Seeded(es)
      ensures returned == old(returned) + if r.Ok? then r.value else []
      ensures !Opens(old(started), script) ==> r == Err(SessionFailed)
      ensures Opens(old(started), script) ==>
                && (r == Err(SpawnRefused) <==> !old(spawned) && script.spawnRefused)
                && (r != Err(SpawnRefused) ==>
                      EndsAs(Opened(old(World(View())), m, key), script.polls, Enqueue(old(db.View()), m, key).1, r))
      ensures r.Err? && NoMarkFails(script) && Core(old(World(View()))) ==>
                SameDelivered(old(db.View()), db.View(), Enqueue(old(db.View()), m, key).1)
      ensures r == Err(ContainerDied) ==> !spawned
      ensures r.Ok? && Core(old(World(View()))) ==> WholeBatches(old(World(View())), World(View()), m, key, r.value)
      ensures r.Ok? && Seeded(es) && Inv(old(World(View()))) ==> TurnReply(old(World(View())), World(View()), m, key, r.value)
    {
      ghost var s0, strict := World(View()), SeededScript(script);
      hide Step, Run, Enters, Core, Once, TurnReply, WholeBatches, SeededScript, Polling, EndsAs, NoMarkFails, SameDelivered, Opened;
      var q;
      q, es := Enter(m, key, script);
      SameIsSame(db.View(), Enqueue(s0.t, m, key).1);
      if q.None? {
        return Err(SessionFailed), es;
      }
      ghost var s1 := World(Waiting(lastDeliveredSeq, q.value));
      ghost var body;
      r, body := Turn(script, q.value, s1, strict);
      es := Leave(s0, m, key, body, r, q.value, s1, strict);
      OpenedIs(s0, m, key, q.value, s1);
      if r.Err? && NoMarkFails(script) && Core(s0) {
        UnansweredKeepsDelivered(s0, m, key, body, q.value, s1, strict);
      }
      if r.Ok? && Core(s0) {
        ReplyIsWholeBatches(s0, m, key, body, q.value, s1, strict);
      }
      if r.Ok? && Seeded(body) && Inv(s0) {
        ReplyIsRest(s0, m, key, body, q.value, s1, strict);
      }
    }

    /** Hydrate and enqueue: the row the turn waits for, or nothing when either failed. */
    method Enter(m: Message, key: Option<string>, script: Script) returns (q: Option<nat>, ghost es: seq<Event>)
      requires Wired()
      modifies this, db
      ensures returned == old(returned) && spawned == old(spawned)
      ensures q.Some? <==> Opens(old(started), script)
      ensures q.None? ==> db.View() == old(db.View())
      ensures q.Some? ==> started && Enters(old(World(View())), m, key, q.value, World(Waiting(lastDeliveredSeq, q.value)))
      ensures q.None? ==> World(View()) == Run(old(World(View())), es) && Seeded(es)
    {
      hide Enqueue, Enters, Run;
      ghost var s0 := World(View());
      RunBoth(s0);
      var ok := EnsureStarted(script.setup, script.hydrate);
      if !ok {
        return None, [];
      }
      var outcome, _ := RetryTransient(script.enqueue);
      if outcome != Done {
        return None, [Hydrate];
      }
      var row := db.EnqueueInboundKeyed(m, key);
      EntersFrom(s0, lastDeliveredSeq, m, key, World(Waiting(lastDeliveredSeq, row)), row);
      return Some(row), [];
    }

    /** From the enqueue to the return: make sure a container is up, then poll. */
    method Turn(script: Script, q: nat, ghost s1: State, ghost strict: bool)
      returns (r: Result<seq<OutRow>, HostError>, ghost body: seq<Event>)
      requires Wired() && Legal(script) && (strict ==> SeededScript(script)) && started && s1 == World(Waiting(lastDeliveredSeq, q))
      modifies this, container, db
      ensures started && Polling(s1, body, q, strict) && World(View()) == Left(Run(s1, body), r)
      ensures r.Ok? ==> ReadyToReturn(Run(s1, body)) && r.value == ExchangeTurn.Reply(Run(s1, body))
      ensures returned == old(returned) + if r.Ok? then r.value else []
      ensures r == Err(SpawnRefused) <==> !old(spawned) && script.spawnRefused
      ensures r != Err(SpawnRefused) ==> EndsAs(s1, script.polls, q, r)
      ensures spawned <==> r != Err(SpawnRefused) && r != Err(ContainerDied)
      ensures r.Err? && NoMarkFails(script) ==> Run(s1, body).host.Waiting?
    {
      body := [];
      TurnBegins(s1, q, strict);
      hide EndsAs, Run, Polling, Step, NoMarkFails, ReadyToReturn;
      if !spawned {
        if script.spawnRefused {
          return Err(SpawnRefused), body;
        }
        spawned := true;
      }
      r, body := PollUntil(script, q, s1, strict);
    }

    /** The poll loop. */
    method PollUntil(script: Script, q: nat, ghost s1: State, ghost strict: bool)
      returns (r: Result<seq<OutRow>, HostError>, ghost body: seq<Event>)
      requires Wired() && Legal(script) && (strict ==> SeededScript(script))
      requires started && spawned && s1 == World(Waiting(lastDeliveredSeq, q))
      modifies this, container, db
      ensures started && Ended(script, q, s1, strict, body, r) && World(View()) == Left(Run(s1, body), r)
      ensures returned == old(returned) + if r.Ok? then r.value else []
      ensures spawned <==> r != Err(ContainerDied)
    {
      hide Step, Run, EndsAt, Quiet, MarksSettle, QuietSteps, Reached, Polling, Unread, Ended;
      body := [];
      TurnBegins(s1, q, strict);
      FirstReached(s1, script.polls, q);
      var i := 0;
      while i < |script.polls|
        invariant 0 <= i <= |script.polls|
        invariant started && spawned && returned == old(returned)
        invariant Polling(s1, body, q, strict) && World(Waiting(lastDeliveredSeq, q)) == Run(s1, body)
        invariant Reached(s1, script.polls, q, i) && Run(s1, body) == StateAt(s1, script.polls, i)
      {
        ghost var before := body;
        var out;
        out, body := PollOnce(script.polls[i], q, s1, body, strict);
        if !out.Again? {
          PollEndsTurn(script, q, s1, i, before, body, strict, ResultOf(out));
          return ResultOf(out), body;
        }
        TurnGoesOn(script, q, s1, i, before, body);
        i := i + 1;
      }
      PollsRunOut(script, q, s1, body, strict);
      return Err(TimedOut), body;
    }
  }

  /** How a turn's polls have ended: by which poll, with what rows, and with the host still waiting unless a mark failed. */
  ghost predicate Ended(script: Script, q: nat, s1: State, strict: bool, body: seq<Event>, r: Result<seq<OutRow>, HostError>) {
    && Polling(s1, body, q, strict)
    && (r.Ok? ==> ReadyToReturn(Run(s1, body)) && r.value == ExchangeTurn.Reply(Run(s1, body)))
    && r != Err(SpawnRefused) && EndsAs(s1, script.polls, q, r)
    && (r.Err? && NoMarkFails(script) ==> Run(s1, body).host.Waiting?)
  }

  /** The session can be started and the row enqueued. */  lemma {:induction false} TurnBegins(s1: State, q: nat, strict: bool)
    requires InTurn(s1.host, q)
    ensures Polling(s1, [], q, strict) && Run(s1, []) == s1
  {
    hide Step;
  }

  lemma {:induction false} PollEndsTurn(script: Script, q: nat, s1: State, i: nat, before: seq<Event>, body: seq<Event>, strict: bool, r: Result<seq<OutRow>, HostError>)
    requires i < |script.polls| && Reached(s1, script.polls, q, i) && Run(s1, before) == StateAt(s1, script.polls, i)
    requires EndsAt(Run(s1, before), script.polls[i], q, r) && Polling(s1, body, q, strict)
    requires r.Ok? ==> ReadyToReturn(Run(s1, body)) && r.value == ExchangeTurn.Reply(Run(s1, body))
    requires r.Err? && MarksSettle(script.polls[i], |Unread(Run(s1, before), script.polls[i])|) ==> Run(s1, body).host.Waiting?
    ensures Ended(script, q, s1, strict, body, r) && (r == Err(ContainerDied) <==> script.polls[i].stale)
  {
    hide Run, EndsAs, Unread, MarksSettle, NoMarkFails, Reached, StateAt, Polling, ReadyToReturn;
    var at := Run(s1, before);
    EndsAtOnce(s1, script.polls, q, i, r);
    DiedIffStale(at, script.polls[i], q, r);
    NoMarkFailsHere(script, i, |Unread(at, script.polls[i])|);
  }

  lemma {:induction false} PollsRunOut(script: Script, q: nat, s1: State, body: seq<Event>, strict: bool)
    requires Polling(s1, body, q, strict) && Run(s1, body).host.Waiting? && Reached(s1, script.polls, q, |script.polls|)
    ensures Ended(script, q, s1, strict, body, Err(TimedOut))
  {
    hide Run, EndsAs, Reached, Polling;
    EndsWithoutAnswer(s1, script.polls, q);
  }

  lemma {:induction false} TurnGoesOn(script: Script, q: nat, s1: State, i: nat, before: seq<Event>, body: seq<Event>)
    requires i < |script.polls| && Reached(s1, script.polls, q, i) && Run(s1, before) == StateAt(s1, script.polls, i)
    requires Quiet(Run(s1, before), script.polls[i], q) && !script.polls[i].expired
    requires body == before + QuietSteps(Run(s1, before), script.polls[i])
    ensures Reached(s1, script.polls, q, i + 1) && Run(s1, body) == StateAt(s1, script.polls, i + 1)
    ensures !script.polls[i].stale
  {
    assert !script.polls[i].stale;
    hide Run, QuietSteps, Quiet, Reached, StateAt;
    RunConcat(s1, before, QuietSteps(Run(s1, before), script.polls[i]));
    NextReached(s1, script.polls, q, i);
  }

  /** The session can be started and the row enqueued. */
  predicate Opens(started: bool, script: Script) {
    (started || (Settles(script.setup) && Settles(script.hydrate))) && Settles(script.enqueue)
  }

  /** The state in which the turn's polls begin. */
  ghost function Opened(s0: State, m: Message, key: Option<string>): State {
    Step(Step(s0, Hydrate), Begin(m, key))
  }

  lemma {:induction false} RunBoth(s: State)
    ensures Run(s, []) == s && Run(s, [Hydrate]) == Step(s, Hydrate)
  {
    RunSplit(s, [], Hydrate);
    assert [] + [Hydrate] == [Hydrate];
  }

  lemma {:induction false} EntersFrom(s0: State, mark: nat, m: Message, key: Option<string>, s1: State, q: nat)
    requires s0.host.Cold? || s0.host.Idle?
    requires Step(s0, Hydrate).host == Idle(mark)
    requires s1 == s0.(t := Enqueue(s0.t, m, key).0, host := Waiting(mark, q)) && q == Enqueue(s0.t, m, key).1
    ensures Enters(s0, m, key, q, s1)
  {
    hide Enqueue;
  }

  lemma {:induction false} OpenedIs(s0: State, m: Message, key: Option<string>, q: nat, s1: State)
    requires Enters(s0, m, key, q, s1)
    ensures s1 == Opened(s0, m, key) && q == Enqueue(s0.t, m, key).1
  {
  }

  /** Of the rows of `q`, the same are delivered. */
  ghost predicate SameDelivered(before: Tables, after: Tables, q: nat) {
    forall row | row in after.outbox && row.inSeq == Some(q) :: row.seqNo in after.delivered <==> row.seqNo in before.delivered
  }

  lemma {:induction false} SameIsSame(t: Tables, q: nat)
    ensures SameDelivered(t, t, q)
  {
  }

  lemma {:induction false} DeliveredAt(t: Tables, i: nat)
    requires OutboxOk(t) && DeliveredOk(t) && i < |t.outbox|
    ensures t.outbox[i].seqNo in t.delivered <==> i < Covered(StoredMark(t))
  {
  }

  lemma {:induction false} MiddleHasNone(rows: seq<OutRow>, a: nat, b: nat, q: nat)
    requires a <= b <= |rows| && RowsFor(rows[..b], q) == RowsFor(rows[..a], q)
    ensures forall i | a <= i < b :: rows[i].inSeq != Some(q)
  {
    assert rows[..b] == rows[..a] + rows[a..b];
    RowsForConcat(rows[..a], rows[a..b], q);
    RowsForEmptyIff(rows[a..b], q);
    forall i | a <= i < b ensures rows[i].inSeq != Some(q) {
      assert rows[a..b][i - a] == rows[i];
    }
  }

  lemma {:induction false} SamePart(before: Tables, after: Tables, q: nat)
    requires OutboxOk(before) && DeliveredOk(before) && OutboxOk(after) && DeliveredOk(after)
    requires before.outbox <= after.outbox && StoredMark(before) <= StoredMark(after)
    requires RowsFor(after.outbox[..Covered(StoredMark(after))], q) == RowsFor(before.outbox[..Covered(StoredMark(before))], q)
    ensures SameDelivered(before, after, q)
  {
    var a, b := Covered(StoredMark(before)), Covered(StoredMark(after));
    assert after.outbox[..a] == before.outbox[..a];
    MiddleHasNone(after.outbox, a, b, q);
    forall row | row in after.outbox && row.inSeq == Some(q)
      ensures row.seqNo in after.delivered <==> row.seqNo in before.delivered
    {
      var i :| 0 <= i < |after.outbox| && after.outbox[i] == row;
      DeliveredAt(after, i);
      assert row.seqNo == 2 * i + 1;
    }
  }

  /** A turn that is still waiting has delivered nothing of its row. */
  lemma {:induction false} UnansweredKeepsDelivered(s0: State, m: Message, key: Option<string>, body: seq<Event>, q: nat, s1: State, strict: bool)
    requires Core(s0) && Enters(s0, m, key, q, s1) && Polling(s1, body, q, strict) && Run(s1, body).host.Waiting?
    ensures SameDelivered(s0.t, Run(s1, body).t, q)
  {
    var s := Step(s0, Hydrate);
    assert s.t == s0.t && s.host.Idle? && s1 == Step(s, Begin(m, key));
    StepKeepsCore(s0, Hydrate);
    EnqueueEvolves(s.t, m, key);
    assert s1.t.outbox == s.t.outbox && s1.t.delivered == s.t.delivered;
    SameDeliveredSameMark(s1.t, s.t);
    StillDeliveredBefore(s, m, key, body, q, strict);
    hide Run, Step, RowsFor, StoredMark, Polling, Enters;
    LogsOnlyGrow(s1, body);
    WatermarkNeverFalls(s1, body);
    SamePart(s0.t, Run(s1, body).t, q);
  }

  lemma {:induction false} StillDeliveredBefore(s: State, m: Message, key: Option<string>, body: seq<Event>, q: nat, strict: bool)
    requires Core(s) && s.host.Idle? && q == Enqueue(s.t, m, key).1
    requires Polling(Step(s, Begin(m, key)), body, q, strict) && Run(Step(s, Begin(m, key)), body).host.Waiting?
    ensures var at := Run(Step(s, Begin(m, key)), body);
            Core(at) && RowsFor(at.t.outbox[..Covered(StoredMark(at.t))], q) == RowsFor(s.t.outbox[..Covered(StoredMark(s.t))], q)
  {
    BeginOpensTurn(s, m, key);
    hide Run, Step, RowsFor, StoredMark, BatchAligned, InTurn;
    var s1 := Step(s, Begin(m, key));
    PollingAllAlong(s1, body, q, strict);
    RunKeepsTurn(s1, body, q, DeliveredFor(s, q), s.returned);
  }

  lemma {:induction false} SameDeliveredSameMark(a: Tables, b: Tables)
    requires a.delivered == b.delivered
    ensures StoredMark(a) == StoredMark(b)
  {
  }

  lemma {:induction false} NoRows(q: nat)
    ensures RowsFor([], q) == []
  {
  }

  lemma {:induction false} SnapshotOf(at: State, q: nat, mark: nat, unread: seq<OutRow>)
    requires at.host == Waiting(mark, q)
    ensures unread == Above(at.t.outbox, mark) && unread != [] ==> Step(at, Snapshot) == at.(host := Marking(mark, q, unread, 0))
  {
  }

  /** With all of a poll's rows marked, the poll can return ours, or else goes back to waiting. */
  lemma {:induction false} AllMarked(at: State, q: nat, mark: nat, unread: seq<OutRow>, done: nat)
    requires at.host == Marking(mark, q, unread, done)
    ensures InTurn(at.host, q)
    ensures done == |unread| && RowsFor(unread, q) != [] ==> ReadyToReturn(at) && ExchangeTurn.Reply(at) == RowsFor(unread, q)
    ensures done == |unread| && RowsFor(unread, q) == [] ==> Step(at, Finish) == at.(host := Waiting(mark, q))
  {
  }

  /** The state once the host has left the turn with `r`. */
  ghost function Left(at: State, r: Result<seq<OutRow>, HostError>): State
    requires !at.host.Cold?
  {
    at.(host := Idle(at.host.mark), returned := at.returned + if r.Ok? then r.value else [])
  }

  ghost predicate Enters(s0: State, m: Message, key: Option<string>, q: nat, s1: State) {
    s1 == Step(Step(s0, Hydrate), Begin(m, key)) && q == Enqueue(s0.t, m, key).1 && !s0.host.Waiting? && !s0.host.Marking?
  }

  /** The whole call as steps: hydrate, enqueue, the polls, and the step that leaves the turn. */
  lemma {:induction false} Leave(s0: State, m: Message, key: Option<string>, body: seq<Event>, r: Result<seq<OutRow>, HostError>, q: nat, s1: State, strict: bool)
    returns (es: seq<Event>)
    requires Enters(s0, m, key, q, s1) && Polling(s1, body, q, strict)
    requires r.Ok? ==> ReadyToReturn(Run(s1, body)) && r.value == ExchangeTurn.Reply(Run(s1, body))
    ensures Run(s0, es) == Left(Run(s1, body), r)
    ensures (strict ==> Seeded(es)) && (Seeded(es) ==> Seeded(body))
  {
    PollingAllAlong(s1, body, q, strict);
    var last := if r.Ok? then Finish else Abort;
    LastStep(Run(s1, body), r, q);
    var head := [Hydrate] + [Begin(m, key)];
    es := head + body + [last];
    Prologue(s0, m, key);
    RunConcat(s0, head, body);
    RunSplit(s0, head + body, last);
    forall i | 0 <= i < |body| ensures body[i] == es[2 + i] {}
  }

  lemma {:induction false} LastStep(at: State, r: Result<seq<OutRow>, HostError>, q: nat)
    requires InTurn(at.host, q)
    requires r.Ok? ==> ReadyToReturn(at) && r.value == ExchangeTurn.Reply(at)
    ensures Step(at, if r.Ok? then Finish else Abort) == Left(at, r)
  {
  }

  lemma {:induction false} Prologue(s0: State, m: Message, key: Option<string>)
    ensures Run(s0, [Hydrate] + [Begin(m, key)]) == Step(Step(s0, Hydrate), Begin(m, key))
  {
    RunSplit(s0, [], Hydrate);
    assert [] + [Hydrate] == [Hydrate];
    RunSplit(s0, [Hydrate], Begin(m, key));
  }

  /** The rows of inbound row `q` delivered before the call. */
  ghost function DeliveredBefore(t: Tables, q: nat): seq<OutRow>
    requires DeliveredOk(t)
  {
    RowsFor(t.outbox[..Covered(StoredMark(t))], q)
  }

  /** What a caller of `run_turn` may rely on when it returns Ok. */
  ghost predicate TurnReply(s0: State, s: State, m: Message, key: Option<string>, rows: seq<OutRow>)
    requires DeliveredOk(s0.t)
  {
    var q := Enqueue(s0.t, m, key).1;
    && rows != []
    && RowsFor(s.t.outbox, q) == DeliveredBefore(s0.t, q) + rows
    && (exists i :: 0 <= i < |s.commits| && s.commits[i].inSeq == q && s.commits[i].rows == RowsFor(s.t.outbox, q))
    && (key.None? ==> rows == RowsFor(s.t.outbox, q))
  }

  /** What holds of an Ok reply whatever container starts did: with what was delivered before, whole batches of its row. */
  ghost predicate WholeBatches(s0: State, s: State, m: Message, key: Option<string>, rows: seq<OutRow>)
    requires DeliveredOk(s0.t)
  {
    var q := Enqueue(s0.t, m, key).1;
    rows != [] && exists j :: 0 <= j <= |s.commits| && RowsFor(Flat(s.commits[..j]), q) == DeliveredBefore(s0.t, q) + rows
  }

  lemma {:induction false} FreshHasNothingDelivered(s: State, m: Message)
    requires Inv(s)
    ensures DeliveredBefore(s.t, Enqueue(s.t, m, None).1) == []
  {
    var q := Enqueue(s.t, m, None).1;
    AppendEvolves(s.t, m, None);
    AckedIffAnswered(s, q);
    RowsForEmptyIff(s.t.outbox, q);
    RowsForEmptyIff(s.t.outbox[..Covered(StoredMark(s.t))], q);
  }

  lemma {:induction false} PollingIsTurnRun(s0: State, m: Message, key: Option<string>, body: seq<Event>, q: nat, s1: State, strict: bool)
    requires Seeded(body) && Inv(s0) && Enters(s0, m, key, q, s1) && Polling(s1, body, q, strict)
    ensures Inv(Step(s0, Hydrate)) && TurnRun(Step(s0, Hydrate), m, key, body)
  {
    StepKeepsInv(s0, Hydrate);
    PollingAllAlong(s1, body, q, strict);
  }

  lemma {:induction false} ReplyIsWholeBatches(s0: State, m: Message, key: Option<string>, body: seq<Event>, q: nat, s1: State, strict: bool)
    requires Core(s0) && Enters(s0, m, key, q, s1) && Polling(s1, body, q, strict)
    requires ReadyToReturn(Run(s1, body))
    ensures var at := Run(s1, body);
            WholeBatches(s0, Left(at, Ok(ExchangeTurn.Reply(at))), m, key, ExchangeTurn.Reply(at))
  {
    hide Run, RowsFor;
    var s := Step(s0, Hydrate);
    StepKeepsCore(s0, Hydrate);
    PollingAllAlong(s1, body, q, strict);
    var j := TurnReturnsWholeBatches(s, m, key, body);
    assert DeliveredFor(s, q) == DeliveredBefore(s0.t, q);
  }

  lemma {:induction false} ReplyIsRest(s0: State, m: Message, key: Option<string>, body: seq<Event>, q: nat, s1: State, strict: bool)
    requires Seeded(body) && Inv(s0) && Enters(s0, m, key, q, s1) && Polling(s1, body, q, strict)
    requires ReadyToReturn(Run(s1, body))
    ensures var at := Run(s1, body);
            TurnReply(s0, Left(at, Ok(ExchangeTurn.Reply(at))), m, key, ExchangeTurn.Reply(at))
  {
    hide Run, RowsFor;
    var s := Step(s0, Hydrate);
    PollingIsTurnRun(s0, m, key, body, q, s1, strict);
    TurnReturnsUndelivered(s, m, key, body);
    assert DeliveredFor(s, q) == DeliveredBefore(s0.t, q);
    if key.None? {
      FreshHasNothingDelivered(s0, m);
    }
  }
}
