/**
 What one `run_turn` call returns, when it returns. An unkeyed turn then returns the whole batch
 committed for its inbound row; a keyed retry the part of the batch that was not already delivered,
 so it is whole exactly when none of it had been delivered at the call.
 */
module ExchangeTurn {
  import opened Wrappers
  import opened Session
  import opened Turn
  import opened Exchange
  import opened ExchangeInvariant
  import opened ExchangeTheorems

  predicate InTurn(host: HostState, q: nat) {
    (host.Waiting? || host.Marking?) && host.inSeq == q
  }

  /** The rows of inbound row `q` that had been delivered before the poll in progress. */
  ghost function DeliveredFor(s: State, q: nat): seq<OutRow>
    requires Core(s)
  {
    RowsFor(s.t.outbox[..Settled(s.t, s.host)], q)
  }

  /** The snapshot being marked ends between two batches. */
  ghost predicate BatchAligned(s: State)
    requires HostOk(s.t, s.host)
  {
    s.host.Marking? ==>
      exists j :: 0 <= j <= |s.commits| && |Flat(s.commits[..j])| == Settled(s.t, s.host) + |s.host.batch|
  }

  /** During a turn for `q` that has not returned, `before` stays the part of `q` delivered earlier. */
  ghost predicate TurnInv(s: State, q: nat, before: seq<OutRow>, returned: seq<OutRow>) {
    && Core(s) && InTurn(s.host, q) && BatchAligned(s)
    && DeliveredFor(s, q) == before
    && s.returned == returned
  }

  lemma {:induction false} FlatTake(commits: seq<Commit>, more: seq<Commit>)
    requires commits <= more
    ensures Flat(commits) <= Flat(more)
  {
    if |commits| < |more| {
      FlatTake(commits, more[..|more| - 1]);
    } else {
      assert commits == more;
    }
  }

  /** Steps of anyone but the host leave the turn where it is. */
  lemma {:induction false} OthersKeepTurn(s: State, s': State, q: nat, before: seq<OutRow>, returned: seq<OutRow>)
    requires TurnInv(s, q, before, returned) && Core(s')
    requires s'.host == s.host && s'.t.delivered == s.t.delivered && s'.returned == s.returned
    requires s.t.outbox <= s'.t.outbox && s.commits <= s'.commits
    ensures TurnInv(s', q, before, returned)
  {
    var b := Settled(s.t, s.host);
    assert s'.t.outbox[..b] == s.t.outbox[..b];
    if s.host.Marking? {
      var j :| 0 <= j <= |s.commits| && |Flat(s.commits[..j])| == b + |s.host.batch|;
      assert s'.commits[..j] == s.commits[..j];
    }
  }

  lemma {:induction false} AlignedAtEnd(s: State)
    requires HostOk(s.t, s.host) && s.host.Marking? && s.t.outbox == Flat(s.commits)
    requires Settled(s.t, s.host) + |s.host.batch| == |s.t.outbox|
    ensures BatchAligned(s)
  {
    assert s.commits[..|s.commits|] == s.commits;
  }

  lemma {:induction false} SnapshotKeepsTurn(s: State, q: nat, before: seq<OutRow>, returned: seq<OutRow>)
    requires TurnInv(s, q, before, returned) && s.host.Waiting?
    ensures TurnInv(TakeSnapshot(s), q, before, returned)
  {
    var s' := TakeSnapshot(s);
    if s' != s {
      SnapshotKeepsCore(s);
      StoredMarkIsOdd(s.t);
      AboveIsSuffix(s.t.outbox, s.host.mark, Covered(s.host.mark));
      assert Settled(s'.t, s'.host) == Settled(s.t, s.host);
      AlignedAtEnd(s');
    }
  }

  lemma {:induction false} MarkKeepsTurn(s: State, q: nat, before: seq<OutRow>, returned: seq<OutRow>)
    requires TurnInv(s, q, before, returned) && s.host.Marking? && s.host.done < |s.host.batch|
    ensures TurnInv(MarkNext(s), q, before, returned)
  {
    MarkKeepsCore(s);
    var s' := MarkNext(s);
    assert s'.host.batch == s.host.batch && s'.host.done == s.host.done + 1;
    var n := s.host.batch[s.host.done].seqNo;
    assert s.host.batch[s.host.done] == s.t.outbox[Covered(s.host.mark)];
    StoredMarkIsOdd(s.t);
    assert Covered(n) == Covered(s.host.mark) + 1;
    assert Settled(s'.t, s'.host) == Settled(s.t, s.host);
  }

  /** A poll that saw only backlog adds nothing of ours to what is delivered. */
  lemma {:induction false} BacklogSettles(s: State, q: nat)
    requires Core(s) && InTurn(s.host, q) && s.host.Marking? && s.host.done == |s.host.batch|
    requires RowsFor(s.host.batch, q) == []
    ensures var s' := FinishPoll(s);
      Core(s') && s'.host.Waiting? && s'.host.inSeq == q && s'.returned == s.returned && DeliveredFor(s', q) == DeliveredFor(s, q)
  {
    hide InboxOk, OutboxOk, CommitsOk, AcksOk, RunnerOk, DeliveredOk, RowsFor;
    FinishKeepsCore(s);
    FinishSettles(s);
    BacklogAddsNothing(s.t.outbox, Settled(s.t, s.host), s.host.batch, q);
  }

  lemma {:induction false} BacklogKeepsTurn(s: State, q: nat, before: seq<OutRow>, returned: seq<OutRow>)
    requires TurnInv(s, q, before, returned) && s.host.Marking? && s.host.done == |s.host.batch|
    requires RowsFor(s.host.batch, q) == []
    ensures TurnInv(FinishPoll(s), q, before, returned)
  {
    BacklogSettles(s, q);
  }

  lemma {:induction false} FinishSettles(s: State)
    requires HostOk(s.t, s.host) && s.host.Marking? && s.host.done == |s.host.batch|
    ensures FinishPoll(s).t == s.t && !FinishPoll(s).host.Marking?
    ensures Settled(s.t, FinishPoll(s).host) == Settled(s.t, s.host) + |s.host.batch|
  {
  }

  lemma {:induction false} BacklogAddsNothing(outbox: seq<OutRow>, b: nat, batch: seq<OutRow>, q: nat)
    requires b + |batch| <= |outbox| && outbox[b..b + |batch|] == batch
    requires RowsFor(batch, q) == []
    ensures RowsFor(outbox[..b + |batch|], q) == RowsFor(outbox[..b], q)
  {
    assert outbox[..b + |batch|] == outbox[..b] + batch;
    RowsForConcat(outbox[..b], batch, q);
  }

  lemma {:induction false} OtherStepKeepsTurn(s: State, e: Event, q: nat, before: seq<OutRow>, returned: seq<OutRow>)
    requires TurnInv(s, q, before, returned)
    requires !e.Snapshot? && !e.Mark? && !e.Finish? && !e.Begin? && !e.Hydrate? && !e.Abort? && !e.Restart?
    ensures TurnInv(Step(s, e), q, before, returned)
  {
    StepKeepsCore(s, e);
    LogsOnlyGrow(s, [e]);
    RunSplit(s, [], e);
    assert [] + [e] == [e];
    if e.Post? { EnqueueEvolves(s.t, e.m, e.key); }
    if e.PutMeta? { UpsertEvolves(s.t, e.k, e.m); }
    OthersKeepTurn(s, Step(s, e), q, before, returned);
  }

  lemma {:induction false} StepKeepsTurn(s: State, e: Event, q: nat, before: seq<OutRow>, returned: seq<OutRow>)
    requires TurnInv(s, q, before, returned) && InTurn(Step(s, e).host, q)
    ensures TurnInv(Step(s, e), q, before, returned)
  {
    match e
    case Snapshot => if s.host.Waiting? { SnapshotKeepsTurn(s, q, before, returned); }
    case Mark => if s.host.Marking? && s.host.done < |s.host.batch| { MarkKeepsTurn(s, q, before, returned); }
    case Finish => if s.host.Marking? && s.host.done == |s.host.batch| { BacklogKeepsTurn(s, q, before, returned); }
    case Begin(m, key) =>
    case Hydrate =>
    case Abort =>
    case Restart =>
    case _ => OtherStepKeepsTurn(s, e, q, before, returned);
  }

  lemma {:induction false} RunKeepsTurn(s: State, es: seq<Event>, q: nat, before: seq<OutRow>, returned: seq<OutRow>)
    requires TurnInv(s, q, before, returned)
    requires forall i | 0 <= i <= |es| :: InTurn(Run(s, es[..i]).host, q)
    ensures TurnInv(Run(s, es), q, before, returned)
  {
    if es != [] {
      var init := es[..|es| - 1];
      assert forall i | 0 <= i <= |init| :: init[..i] == es[..i];
      RunKeepsTurn(s, init, q, before, returned);
      assert es[..|es|] == es;
      StepKeepsTurn(Run(s, init), es[|es| - 1], q, before, returned);
    }
  }

  /** A log prefix that ends between two batches holds all of `q` or none of it. */
  lemma {:induction false} PrefixHoldsWholeBatch(commits: seq<Commit>, j: nat, q: nat)
    requires Tagged(commits) && DistinctTurns(commits) && j <= |commits|
    requires RowsFor(Flat(commits[..j]), q) != []
    ensures exists i :: 0 <= i < |commits| && commits[i].inSeq == q && commits[i].rows == RowsFor(Flat(commits), q)
    ensures RowsFor(Flat(commits[..j]), q) == RowsFor(Flat(commits), q)
  {
    if forall i | 0 <= i < j :: commits[..j][i].inSeq != q {
      RowsForNoCommit(commits[..j], q);
      assert false;
    }
    var i :| 0 <= i < j && commits[..j][i].inSeq == q;
    RowsForCommit(commits[..j], i);
    RowsForCommit(commits, i);
  }

  /** What has been read once the batch is marked: the delivered part of `q`, then the batch's part. */
  lemma {:induction false} ReadSoFar(s: State, q: nat) returns (j: nat)
    requires Core(s) && BatchAligned(s) && s.host.Marking? && s.host.done == |s.host.batch|
    ensures j <= |s.commits|
    ensures RowsFor(Flat(s.commits[..j]), q) == DeliveredFor(s, q) + RowsFor(s.host.batch, q)
  {
    hide InboxOk, OutboxOk, AcksOk, RunnerOk, DeliveredOk, ReturnedOk, RowsFor, Flat;
    var b, n := Settled(s.t, s.host), |s.host.batch|;
    j :| 0 <= j <= |s.commits| && |Flat(s.commits[..j])| == b + n;
    FlatTake(s.commits[..j], s.commits);
    assert Flat(s.commits[..j]) == s.t.outbox[..b + n] == s.t.outbox[..b] + s.host.batch;
    RowsForConcat(s.t.outbox[..b], s.host.batch, q);
  }

  /** The poll that ends a turn returns what is left of the one batch committed for it. */
  lemma {:induction false} FinishReturnsRest(s: State, q: nat)
    requires Inv(s) && BatchAligned(s) && s.host.Marking? && s.host.done == |s.host.batch|
    requires RowsFor(s.host.batch, q) != []
    ensures RowsFor(s.t.outbox, q) == DeliveredFor(s, q) + RowsFor(s.host.batch, q)
    ensures exists i :: 0 <= i < |s.commits| && s.commits[i].inSeq == q && s.commits[i].rows == RowsFor(s.t.outbox, q)
  {
    var j := ReadSoFar(s, q);
    assert s.t.outbox == Flat(s.commits);
    PrefixHoldsWholeBatch(s.commits, j, q);
  }

  /** A turn: the call's enqueue, then whatever happens while the host is still in the turn. */
  ghost predicate TurnRun(s: State, m: Message, key: Option<string>, es: seq<Event>) {
    && Inv(s) && s.host.Idle? && Seeded(es)
    && forall i | 0 <= i <= |es| :: InTurn(Run(Step(s, Begin(m, key)), es[..i]).host, Enqueue(s.t, m, key).1)
  }

  /** The turn's poll is about to return Ok. */
  ghost predicate ReadyToReturn(s: State) {
    s.host.Marking? && s.host.done == |s.host.batch| && RowsFor(s.host.batch, s.host.inSeq) != []
  }

  /** The rows `run_turn` hands back when the poll in `s` finishes. */
  ghost function Reply(s: State): seq<OutRow>
    requires s.host.Marking?
  {
    RowsFor(s.host.batch, s.host.inSeq)
  }

  lemma {:induction false} FinishReplies(s: State, q: nat, before: seq<OutRow>, returned: seq<OutRow>)
    requires TurnInv(s, q, before, returned) && Once(s) && ReadyToReturn(s)
    ensures RowsFor(s.t.outbox, q) == before + Reply(s)
    ensures exists i :: 0 <= i < |s.commits| && s.commits[i].inSeq == q && s.commits[i].rows == RowsFor(s.t.outbox, q)
    ensures Step(s, Finish).returned == returned + Reply(s)
  {
    FinishReturnsRest(s, q);
  }

  lemma {:induction false} BeginOpensTurn(s: State, m: Message, key: Option<string>)
    requires Core(s) && s.host.Idle?
    ensures var q := Enqueue(s.t, m, key).1; TurnInv(Step(s, Begin(m, key)), q, DeliveredFor(s, q), s.returned)
  {
    StepKeepsCore(s, Begin(m, key));
    EnqueueEvolves(s.t, m, key);
  }

  /**
   However commits, other enqueues, container crashes and backlog interleave: the reply of a
   turn is the one batch committed for its inbound row minus the rows delivered before the call.
   */
  lemma {:induction false} TurnReturnsUndelivered(s: State, m: Message, key: Option<string>, es: seq<Event>)
    requires TurnRun(s, m, key, es)
    requires ReadyToReturn(Run(Step(s, Begin(m, key)), es))
    ensures var s' := Run(Step(s, Begin(m, key)), es);
            var q := Enqueue(s.t, m, key).1;
      && RowsFor(s'.t.outbox, q) == DeliveredFor(s, q) + Reply(s')
      && (exists i :: 0 <= i < |s'.commits| && s'.commits[i].inSeq == q && s'.commits[i].rows == RowsFor(s'.t.outbox, q))
      && Step(s', Finish).returned == s.returned + Reply(s')
  {
    var s1 := Step(s, Begin(m, key));
    var q := Enqueue(s.t, m, key).1;
    BeginOpensTurn(s, m, key);
    RunKeepsTurn(s1, es, q, DeliveredFor(s, q), s.returned);
    StepKeepsInv(s, Begin(m, key));
    RunKeepsInv(s1, es);
    FinishReplies(Run(s1, es), q, DeliveredFor(s, q), s.returned);
  }

  /** The host stays in the call's turn along `es`, whatever else happens, unseeded container starts included. */
  ghost predicate AnyTurnRun(s: State, m: Message, key: Option<string>, es: seq<Event>) {
    && Core(s) && s.host.Idle?
    && forall i | 0 <= i <= |es| :: InTurn(Run(Step(s, Begin(m, key)), es[..i]).host, Enqueue(s.t, m, key).1)
  }

  /**
   Even when unseeded starts can answer a row twice, a reply is never part of a batch and never
   another turn's rows: together with what was delivered before the call it is every batch of the
   call's row among the first so many commits.
   */
  lemma {:induction false} TurnReturnsWholeBatches(s: State, m: Message, key: Option<string>, es: seq<Event>) returns (j: nat)
    requires AnyTurnRun(s, m, key, es)
    requires ReadyToReturn(Run(Step(s, Begin(m, key)), es))
    ensures var s' := Run(Step(s, Begin(m, key)), es);
            var q := Enqueue(s.t, m, key).1;
      && j <= |s'.commits| && RowsFor(Flat(s'.commits[..j]), q) == DeliveredFor(s, q) + Reply(s')
      && Reply(s') != [] && Step(s', Finish).returned == s.returned + Reply(s')
  {
    var s1 := Step(s, Begin(m, key));
    var q := Enqueue(s.t, m, key).1;
    BeginOpensTurn(s, m, key);
    FinishAdds(Run(s1, es));
    hide Step, Run, RowsFor, Core, DeliveredFor, BatchAligned, Enqueue;
    RunKeepsTurn(s1, es, q, DeliveredFor(s, q), s.returned);
    j := ReadSoFar(Run(s1, es), q);
  }

  lemma {:induction false} FinishAdds(s: State)
    requires ReadyToReturn(s)
    ensures Reply(s) != [] && Step(s, Finish).returned == s.returned + Reply(s)
  {
    hide RowsFor;
  }

  /** No row of inbound row `q` has been delivered: what a caller can look up before a keyed retry. */
  ghost predicate NoneDelivered(t: Tables, q: nat) {
    forall i | 0 <= i < |t.outbox| && t.outbox[i].inSeq == Some(q) :: t.outbox[i].seqNo !in t.delivered
  }

  lemma {:induction false} NoneDeliveredIffEmpty(s: State, q: nat)
    requires Inv(s) && !s.host.Marking?
    ensures NoneDelivered(s.t, q) <==> DeliveredFor(s, q) == []
  {
    var d := Settled(s.t, s.host);
    forall i | 0 <= i < |s.t.outbox| ensures s.t.outbox[i].seqNo in s.t.delivered <==> i < d {
    }
    RowsForEmptyIff(s.t.outbox[..d], q);
    assert forall i | 0 <= i < d :: s.t.outbox[..d][i] == s.t.outbox[i];
  }

  lemma {:induction false} RowsForEmptyIff(rows: seq<OutRow>, q: nat)
    ensures RowsFor(rows, q) == [] <==> forall i | 0 <= i < |rows| :: rows[i].inSeq != Some(q)
  {
    if rows != [] {
      RowsForEmptyIff(rows[..|rows| - 1], q);
    }
  }

  /** A turn's reply is the complete committed batch if and only if none of it was delivered before the call. */
  lemma {:induction false} TurnIsWholeIffNoneDelivered(s: State, m: Message, key: Option<string>, es: seq<Event>)
    requires TurnRun(s, m, key, es)
    requires ReadyToReturn(Run(Step(s, Begin(m, key)), es))
    ensures var s' := Run(Step(s, Begin(m, key)), es);
            var q := Enqueue(s.t, m, key).1;
            Reply(s') == RowsFor(s'.t.outbox, q) <==> NoneDelivered(s.t, q)
  {
    TurnReturnsUndelivered(s, m, key, es);
    NoneDeliveredIffEmpty(s, Enqueue(s.t, m, key).1);
  }

  /** An unkeyed turn enqueues a fresh row, so its reply is always the whole batch, never another turn's rows. */
  lemma {:induction false} UnkeyedTurnIsWhole(s: State, m: Message, es: seq<Event>)
    requires TurnRun(s, m, None, es)
    requires ReadyToReturn(Run(Step(s, Begin(m, None)), es))
    ensures var s' := Run(Step(s, Begin(m, None)), es);
      exists i :: 0 <= i < |s'.commits| && s'.commits[i].inSeq == Enqueue(s.t, m, None).1 && s'.commits[i].rows == Reply(s')
  {
    var q := Enqueue(s.t, m, None).1;
    AppendEvolves(s.t, m, None);
    AckedIffAnswered(s, q);
    RowsForEmptyIff(s.t.outbox, q);
    TurnReturnsUndelivered(s, m, None, es);
    TurnIsWholeIffNoneDelivered(s, m, None, es);
  }

  /** The rows written for an inbound row never change once there are any. */
  lemma {:induction false} AnswerIsFinal(s: State, s': State, q: nat)
    requires Inv(s) && Inv(s') && s.commits <= s'.commits
    requires RowsFor(s.t.outbox, q) != []
    ensures RowsFor(s'.t.outbox, q) == RowsFor(s.t.outbox, q)
  {
    AckedIffAnswered(s, q);
    var c :| c in s.commits && c.inSeq == q;
    var k :| 0 <= k < |s.commits| && s.commits[k] == c;
    RowsForCommit(s.commits, k);
    assert s'.commits[k] == c;
    RowsForCommit(s'.commits, k);
  }

  /** A keyed retry whose batch was entirely delivered before the call has nothing left to return. */
  lemma {:induction false} DeliveredKeyNeverReturns(s: State, m: Message, key: Option<string>, es: seq<Event>)
    requires TurnRun(s, m, key, es)
    requires var q := Enqueue(s.t, m, key).1; DeliveredFor(s, q) != [] && DeliveredFor(s, q) == RowsFor(s.t.outbox, q)
    ensures !ReadyToReturn(Run(Step(s, Begin(m, key)), es))
  {
    var q := Enqueue(s.t, m, key).1;
    var s1 := Step(s, Begin(m, key));
    var s' := Run(s1, es);
    assert s1.t.outbox == s.t.outbox by { EnqueueEvolves(s.t, m, key); }
    StepKeepsInv(s, Begin(m, key));
    hide Step, Run, RowsFor, Core, Once, DeliveredFor, Enqueue;
    RunKeepsInv(s1, es);
    LogsOnlyGrow(s1, es);
    if ReadyToReturn(s') {
      TurnReturnsUndelivered(s, m, key, es);
      AnswerIsFinal(s1, s', q);
    }
  }

  // ---- a keyed retry that returns part of a batch ----

  const KEYED := Message("scheduler", "go", None, None)
  const TWO_ROWS := TurnResult(["a"], [], [], [], [], [], None, "b")

  /** A first attempt whose second mark fails, then the retry under the same key. */
  const KEYED_RETRY: seq<Event> := [
    Hydrate, Begin(KEYED, Some("k")), Boot(true), PollInbound, Take(TWO_ROWS, true), Snapshot, Mark, Abort,
    Begin(KEYED, Some("k")), Snapshot, Mark, Finish]

  const SENT := InRow(0, KEYED, Some("k"))
  const ROW_A := OutRow(1, Draft("schedule_message", "a"), Some(0))
  const ROW_B := OutRow(3, Draft("text", "b"), Some(0))

  /** The tables after the first attempt's commit, with some of the two rows marked. */
  function Answered(delivered: set<nat>, host: HostState, returned: seq<OutRow>): State {
    State(Tables([SENT], delivered, [ROW_A, ROW_B], {0}), Running({0}, []), host, [Commit(0, [ROW_A, ROW_B])], returned)
  }

  const NEW_ROW := State(Tables([SENT], {}, [], {}), Stopped, Waiting(0, 0), [], [])

  /** The states the run passes through. */
  const VISITED: seq<State> := [
    INIT, INIT.(host := Idle(0)), NEW_ROW, NEW_ROW.(runner := Running({}, [])), NEW_ROW.(runner := Running({}, [SENT])),
    Answered({}, Waiting(0, 0), []), Answered({}, Marking(0, 0, [ROW_A, ROW_B], 0), []),
    Answered({1}, Marking(1, 0, [ROW_A, ROW_B], 1), []), Answered({1}, Idle(1), []),
    Answered({1}, Waiting(1, 0), []), Answered({1}, Marking(1, 0, [ROW_B], 0), []),
    Answered({1, 3}, Marking(3, 0, [ROW_B], 1), []), Answered({1, 3}, Idle(3), [ROW_B])]

  lemma {:induction false} RunVisits(es: seq<Event>, visited: seq<State>)
    requires |visited| == |es| + 1
    requires forall k | 0 <= k < |es| :: Step(visited[k], es[k]) == visited[k + 1]
    ensures Run(visited[0], es) == visited[|es|]
  {
    if es != [] {
      RunVisits(es[..|es| - 1], visited[..|es|]);
    }
  }

  lemma {:induction false} TwoRows()
    ensures BatchOf(TWO_ROWS) == [Draft("schedule_message", "a"), Draft("text", "b")]
    ensures Number(BatchOf(TWO_ROWS), 1, 0) == [ROW_A, ROW_B]
  {
  }

  lemma {:induction false} FirstBatch()
    ensures Step(NEW_ROW.(runner := Running({}, [SENT])), Take(TWO_ROWS, true)) == Answered({}, Waiting(0, 0), [])
  {
    TwoRows();
    hide BatchOf, Number;
    assert OutSeqs([]) == [];
    assert EmitRows(NEW_ROW.t, BatchOf(TWO_ROWS), 0) == Tables([SENT], {}, [ROW_A, ROW_B], {0}) by {
      assert [] + [ROW_A, ROW_B] == [ROW_A, ROW_B] && {} + {0} == {0};
    }
    hide EmitRows;
    assert [SENT][1..] == [] && [ROW_A, ROW_B][0..] == [ROW_A, ROW_B] && {} + {0} == {0};
    assert [] + [Commit(0, [ROW_A, ROW_B])] == [Commit(0, [ROW_A, ROW_B])];
  }

  lemma {:induction false} FirstPoll()
    ensures Step(Answered({}, Waiting(0, 0), []), Snapshot) == Answered({}, Marking(0, 0, [ROW_A, ROW_B], 0), [])
  {
    assert Above([ROW_A, ROW_B], 0) == [ROW_A, ROW_B] by {
      AboveIsSuffix([ROW_A, ROW_B], 0, 0);
      assert [ROW_A, ROW_B][0..] == [ROW_A, ROW_B];
    }
  }

  lemma {:induction false} FirstMark()
    ensures Step(Answered({}, Marking(0, 0, [ROW_A, ROW_B], 0), []), Mark) == Answered({1}, Marking(1, 0, [ROW_A, ROW_B], 1), [])
  {
    assert {} + {1} == {1};
  }

  lemma {:induction false} SecondSnapshot()
    ensures Step(Answered({1}, Waiting(1, 0), []), Snapshot) == Answered({1}, Marking(1, 0, [ROW_B], 0), [])
  {
    AboveIsSuffix([ROW_A, ROW_B], 1, 1);
    hide Above;
    assert [ROW_A, ROW_B][1..] == [ROW_B];
  }

  lemma {:induction false} SecondMark()
    ensures Step(Answered({1}, Marking(1, 0, [ROW_B], 0), []), Mark) == Answered({1, 3}, Marking(3, 0, [ROW_B], 1), [])
  {
    assert {1} + {3} == {1, 3};
  }

  lemma {:induction false} SecondFinish()
    ensures Step(Answered({1, 3}, Marking(3, 0, [ROW_B], 1), []), Finish) == Answered({1, 3}, Idle(3), [ROW_B])
  {
    RowsForUniform([ROW_B], 0, 0);
    hide RowsFor;
    assert [] + [ROW_B] == [ROW_B];
  }

  lemma {:induction false} Enqueues()
    ensures Step(INIT.(host := Idle(0)), Begin(KEYED, Some("k"))) == NEW_ROW
    ensures Step(Answered({1}, Idle(1), []), Begin(KEYED, Some("k"))) == Answered({1}, Waiting(1, 0), [])
  {
    assert InSeqs([]) == [];
  }

  /** Each event takes a visited state to the next one. */
  ghost predicate Follows(k: nat) {
    k < |KEYED_RETRY| && Step(VISITED[k], KEYED_RETRY[k]) == VISITED[k + 1]
  }

  lemma {:induction false} Boots()
    ensures Step(INIT, Hydrate) == INIT.(host := Idle(0))
    ensures Step(NEW_ROW, Boot(true)) == NEW_ROW.(runner := Running({}, []))
    ensures Step(NEW_ROW.(runner := Running({}, [])), PollInbound) == NEW_ROW.(runner := Running({}, [SENT]))
  {
  }

  lemma {:induction false} FirstAttemptFollows()
    ensures Follows(0) && Follows(1) && Follows(2) && Follows(3) && Follows(4)
  {
    hide Step, Answered;
    Boots();
    Enqueues();
    FirstBatch();
  }

  lemma {:induction false} FirstAbort()
    ensures Step(Answered({1}, Marking(1, 0, [ROW_A, ROW_B], 1), []), Abort) == Answered({1}, Idle(1), [])
  {
  }

  lemma {:induction false} MarkFaultFollows()
    ensures Follows(5) && Follows(6) && Follows(7)
  {
    hide Step, Answered;
    FirstPoll();
    FirstMark();
    FirstAbort();
  }

  lemma {:induction false} RetryFollows()
    ensures Follows(8) && Follows(9) && Follows(10) && Follows(11)
  {
    hide Step, Answered;
    Enqueues();
    SecondSnapshot();
    SecondMark();
    SecondFinish();
  }

  /** The retry's only reply is the last of the two rows committed for its inbound row. */
  lemma {:induction false} KeyedRetryReturnsPart()
    ensures Seeded(KEYED_RETRY)
    ensures Run(INIT, KEYED_RETRY) == Answered({1, 3}, Idle(3), [ROW_B])
  {
    hide Step, Run, Answered;
    FirstAttemptFollows();
    MarkFaultFollows();
    RetryFollows();
    forall k | 0 <= k < |KEYED_RETRY| ensures Follows(k) {
    }
    RunVisits(KEYED_RETRY, VISITED);
  }
}
