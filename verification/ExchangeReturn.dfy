/**
 When a turn can return at all: exactly when its row drives a turn and is unanswered, or is
 answered by a batch that had not been delivered in full at the call.
 */
module ExchangeReturn {
  import opened Wrappers
  import opened Session
  import opened Turn
  import opened Exchange
  import opened ExchangeInvariant
  import opened ExchangeTheorems
  import opened ExchangeTurn

  // ---- the inbox along a run ----

  lemma {:induction false} StepEvolvesInbox(s: State, e: Event)
    requires InboxOk(s.t)
    ensures InboxEvolves(s.t.inbox, Step(s, e).t.inbox)
  {
    match e
    case Post(m, key) => EnqueueEvolves(s.t, m, key);
    case PutMeta(k, m) => UpsertEvolves(s.t, k, m);
    case Begin(m, key) => EnqueueEvolves(s.t, m, key);
    case _ => assert Step(s, e).t.inbox == s.t.inbox;
  }

  /** Along any run a row keeps its seq and its sender. */
  lemma {:induction false} InboxEvolvesOverRun(s: State, es: seq<Event>)
    requires InboxOk(s.t)
    ensures InboxEvolves(s.t.inbox, Run(s, es).t.inbox)
  {
    if es != [] {
      hide Step;
      InboxEvolvesOverRun(s, es[..|es| - 1]);
      StepEvolvesInbox(Run(s, es[..|es| - 1]), es[|es| - 1]);
    }
  }

  // ---- staying in the turn ----

  lemma {:induction false} RunNothing(s: State)
    ensures Run(s, []) == s
  {
    hide Step;
  }

  ghost predicate StaysInTurn(s: State, es: seq<Event>, q: nat) {
    forall i | 0 <= i <= |es| :: InTurn(Run(s, es[..i]).host, q)
  }

  lemma {:induction false} StaysConcat(s: State, a: seq<Event>, b: seq<Event>, q: nat)
    requires StaysInTurn(s, a, q) && StaysInTurn(Run(s, a), b, q)
    ensures StaysInTurn(s, a + b, q)
  {
    hide Run, Step, InTurn;
    forall i | 0 <= i <= |a + b| ensures InTurn(Run(s, (a + b)[..i]).host, q) {
      if i <= |a| {
        assert (a + b)[..i] == a[..i];
      } else {
        assert (a + b)[..i] == a + b[..i - |a|];
        RunConcat(s, a, b[..i - |a|]);
      }
    }
  }

  predicate IsContainers(e: Event) { e.Boot? || e.PollInbound? || e.Take? || e.Die? }

  lemma {:induction false} ContainerLeavesHost(s: State, es: seq<Event>)
    requires forall i | 0 <= i < |es| :: IsContainers(es[i])
    ensures Run(s, es).host == s.host
  {
    if es != [] { ContainerLeavesHost(s, es[..|es| - 1]); }
  }

  lemma {:induction false} ContainerStays(s: State, es: seq<Event>, q: nat)
    requires InTurn(s.host, q) && forall i | 0 <= i < |es| :: IsContainers(es[i])
    ensures StaysInTurn(s, es, q)
  {
    hide Run, Step, InTurn;
    forall i | 0 <= i <= |es| ensures InTurn(Run(s, es[..i]).host, q) {
      ContainerLeavesHost(s, es[..i]);
    }
  }

  // ---- a container answers the row ----

  /** A fresh container life and one clean pass over the inbox. */
  function Answering(n: nat): seq<Event> {
    [Die, Boot(true), PollInbound] + Takes(seq(n, i => TurnResult([], [], [], [], [], [], None, "")), true)
  }

  lemma {:induction false} AnsweringIsSeeded(n: nat)
    ensures Seeded(Answering(n)) && forall i | 0 <= i < |Answering(n)| :: IsContainers(Answering(n)[i])
  {
  }

  lemma {:induction false} FreshSnapshot(s: State)
    ensures Run(s, [Die, Boot(true), PollInbound]) == s.(runner := Running(s.t.acks, s.t.inbox))
  {
    hide Run;
    RunNothing(s);
    RunSplit(s, [], Die);
    RunSplit(s, [Die], Boot(true));
    RunSplit(s, [Die, Boot(true)], PollInbound);
    assert [] + [Die] == [Die] && [Die] + [Boot(true)] == [Die, Boot(true)];
    assert [Die, Boot(true)] + [PollInbound] == [Die, Boot(true), PollInbound];
  }

  /** Afterwards every turn-driving row of the inbox is answered. */
  lemma {:induction false} AnsweringAnswers(s: State, q: nat)
    requires Inv(s) && IsTurn(s.t.inbox, q)
    ensures RowsFor(Run(s, Answering(|s.t.inbox|)).t.outbox, q) != []
  {
    var n := |s.t.inbox|;
    var results := seq(n, i => TurnResult([], [], [], [], [], [], None, ""));
    var polled := s.(runner := Running(s.t.acks, s.t.inbox));
    FreshSnapshot(s);
    RunConcat(s, [Die, Boot(true), PollInbound], Takes(results, true));
    TakesHandle(polled, s.t.inbox, results);
    AnsweringIsSeeded(n);
    RunKeepsInv(s, Answering(n));
    var s' := Run(s, Answering(n));
    assert s.t.inbox[q / 2].seqNo == q;
    AckedIffAnswered(s', q);
  }

  // ---- the host reads and marks it ----

  function Marks(n: nat): seq<Event> { seq(n, i => Mark) }

  lemma {:induction false} MarksMark(s: State, n: nat)
    requires s.host.Marking? && s.host.done + n <= |s.host.batch|
    ensures var host := Run(s, Marks(n)).host;
            host.Marking? && host.inSeq == s.host.inSeq && host.batch == s.host.batch && host.done == s.host.done + n
  {
    if n > 0 {
      MarksMark(s, n - 1);
      assert Marks(n)[..n - 1] == Marks(n - 1);
    }
  }

  lemma {:induction false} MarksStay(s: State, n: nat)
    requires s.host.Marking? && s.host.done + n <= |s.host.batch|
    ensures StaysInTurn(s, Marks(n), s.host.inSeq)
  {
    forall i | 0 <= i <= n ensures InTurn(Run(s, Marks(n)[..i]).host, s.host.inSeq) {
      MarksMark(s, i);
      assert Marks(n)[..i] == Marks(i);
    }
  }

  lemma {:induction false} RestHoldsRows(rows: seq<OutRow>, d: nat, q: nat)
    requires d <= |rows| && RowsFor(rows, q) != RowsFor(rows[..d], q)
    ensures RowsFor(rows[d..], q) != [] && rows[d..] != []
  {
    assert rows == rows[..d] + rows[d..];
    RowsForConcat(rows[..d], rows[d..], q);
  }

  /** A snapshot of everything undelivered holds the undelivered rows of `q`. */
  lemma {:induction false} SnapshotReads(s: State, q: nat)
    requires Core(s) && s.host.Waiting? && s.host.inSeq == q
    requires RowsFor(s.t.outbox, q) != DeliveredFor(s, q)
    ensures var s' := TakeSnapshot(s);
            s'.host.Marking? && s'.host.inSeq == q && s'.host.done == 0 && RowsFor(s'.host.batch, q) != []
  {
    hide RowsFor, Above, CommitsOk, AcksOk, RunnerOk, InboxOk, ReturnedOk;
    var d := Covered(s.host.mark);
    assert d == Settled(s.t, s.host) && d <= |s.t.outbox|;
    RestHoldsRows(s.t.outbox, d, q);
    StoredMarkIsOdd(s.t);
    AboveIsSuffix(s.t.outbox, s.host.mark, d);
  }

  /** One poll that marks all it reads. */
  function Reading(s: State): seq<Event>
    requires s.host.Waiting?
  {
    [Snapshot] + Marks(|Above(s.t.outbox, s.host.mark)|)
  }

  lemma {:induction false} OneStepStays(s: State, e: Event, q: nat)
    requires InTurn(s.host, q) && InTurn(Step(s, e).host, q)
    ensures StaysInTurn(s, [e], q) && Run(s, [e]) == Step(s, e)
  {
    hide Run, Step, InTurn;
    RunNothing(s);
    RunSplit(s, [], e);
    assert [] + [e] == [e];
    forall i | 0 <= i <= |[e]| ensures InTurn(Run(s, [e][..i]).host, q) {
      assert [e][..i] == if i == 0 then [] else [e];
    }
  }

  lemma {:induction false} MarksReturn(s: State, q: nat, n: nat)
    requires s.host.Marking? && s.host.inSeq == q && s.host.done == 0
    requires |s.host.batch| == n && RowsFor(s.host.batch, q) != []
    ensures StaysInTurn(s, Marks(n), q) && ReadyToReturn(Run(s, Marks(n)))
  {
    hide Run, RowsFor, StaysInTurn;
    MarksMark(s, n);
    MarksStay(s, n);
  }

  lemma {:induction false} SnapshotThenMarks(s: State, q: nat, n: nat)
    requires InTurn(s.host, q)
    requires var host := Step(s, Snapshot).host;
             host.Marking? && host.inSeq == q && host.done == 0 && |host.batch| == n && RowsFor(host.batch, q) != []
    ensures StaysInTurn(s, [Snapshot] + Marks(n), q) && ReadyToReturn(Run(s, [Snapshot] + Marks(n)))
  {
    hide Run, Step, RowsFor, StaysInTurn, ReadyToReturn;
    OneStepStays(s, Snapshot, q);
    MarksReturn(Step(s, Snapshot), q, n);
    RunConcat(s, [Snapshot], Marks(n));
    StaysConcat(s, [Snapshot], Marks(n), q);
  }

  lemma {:induction false} ReadingReturns(s: State, q: nat)
    requires Core(s) && s.host.Waiting? && s.host.inSeq == q
    requires RowsFor(s.t.outbox, q) != DeliveredFor(s, q)
    ensures Seeded(Reading(s)) && StaysInTurn(s, Reading(s), q) && ReadyToReturn(Run(s, Reading(s)))
  {
    hide Core, RowsFor, Above, Run, StaysInTurn, ReadyToReturn, DeliveredFor;
    SnapshotReads(s, q);
    assert Step(s, Snapshot) == TakeSnapshot(s);
    SnapshotThenMarks(s, q, |Above(s.t.outbox, s.host.mark)|);
  }

  // ---- the theorem ----

  /** Some run of the turn, container starts seeded, reaches the point where it returns. */
  ghost predicate CanReturn(s: State, m: Message, key: Option<string>) {
    exists es :: TurnRun(s, m, key, es) && ReadyToReturn(Run(Step(s, Begin(m, key)), es))
  }

  /** Some run of the turn at all reaches it. */
  ghost predicate AnyCanReturn(s: State, m: Message, key: Option<string>) {
    exists es :: AnyTurnRun(s, m, key, es) && ReadyToReturn(Run(Step(s, Begin(m, key)), es))
  }

  /** A row that has been answered by the end of a run drove a turn when it was enqueued. */
  lemma {:induction false} AnsweredDrivesTurn(s: State, es: seq<Event>, q: nat)
    requires Core(s) && q % 2 == 0 && q / 2 < |s.t.inbox| && RowsFor(Run(s, es).t.outbox, q) != []
    ensures IsTurn(s.t.inbox, q)
  {
    hide Run, RowsFor;
    RunKeepsCore(s, es);
    AckedIffAnswered(Run(s, es), q);
    InboxEvolvesOverRun(s, es);
  }

  lemma {:induction false} ReturnsOnlyIf(s: State, m: Message, key: Option<string>, es: seq<Event>)
    requires TurnRun(s, m, key, es) && ReadyToReturn(Run(Step(s, Begin(m, key)), es))
    ensures var (t, q) := Enqueue(s.t, m, key);
            IsTurn(t.inbox, q) && (RowsFor(s.t.outbox, q) == [] || DeliveredFor(s, q) != RowsFor(s.t.outbox, q))
  {
    var (t, q) := Enqueue(s.t, m, key);
    var s1 := Step(s, Begin(m, key));
    assert s1.t == t;
    EnqueueEvolves(s.t, m, key);
    StepKeepsCore(s, Begin(m, key));
    TurnReturnsUndelivered(s, m, key, es);
    hide Step, Run, RowsFor, Core, Once, DeliveredFor, Enqueue, IsTurn;
    AnsweredDrivesTurn(s1, es, q);
    if RowsFor(s.t.outbox, q) != [] && DeliveredFor(s, q) == RowsFor(s.t.outbox, q) {
      DeliveredKeyNeverReturns(s, m, key, es);
    }
  }

  lemma {:induction false} UndeliveredPrefix(s: State, q: nat)
    requires Core(s) && RowsFor(s.t.outbox, q) == []
    ensures DeliveredFor(s, q) == []
  {
    var d := Settled(s.t, s.host);
    assert s.t.outbox == s.t.outbox[..d] + s.t.outbox[d..];
    RowsForConcat(s.t.outbox[..d], s.t.outbox[d..], q);
  }

  /** The container's steps leave a turn that `Begin` opened waiting, with the same part delivered before. */
  lemma {:induction false} StillWaiting(s: State, m: Message, key: Option<string>, es: seq<Event>)
    requires Core(s) && s.host.Idle?
    requires forall i | 0 <= i < |es| :: IsContainers(es[i])
    ensures var s1, q := Step(s, Begin(m, key)), Enqueue(s.t, m, key).1;
            var s2 := Run(s1, es);
            && StaysInTurn(s1, es, q) && Core(s2) && s2.host.Waiting? && s2.host.inSeq == q
            && DeliveredFor(s2, q) == DeliveredFor(s, q)
  {
    var s1, q := Step(s, Begin(m, key)), Enqueue(s.t, m, key).1;
    BeginOpensTurn(s, m, key);
    assert s1.host.Waiting? && s1.host.inSeq == q;
    hide Step, Run, RowsFor, Core, DeliveredFor, Enqueue, BatchAligned, InTurn;
    ContainerLeavesHost(s1, es);
    assert InTurn(s1.host, q);
    ContainerStays(s1, es, q);
    RunKeepsTurn(s1, es, q, DeliveredFor(s, q), s.returned);
  }

  /** Then the host can read and return, once the row has rows that were not delivered before. */
  lemma {:induction false} ReturnsAfter(s: State, m: Message, key: Option<string>, es: seq<Event>)
    requires Core(s) && s.host.Idle?
    requires forall i | 0 <= i < |es| :: IsContainers(es[i])
    requires var q := Enqueue(s.t, m, key).1;
             RowsFor(Run(Step(s, Begin(m, key)), es).t.outbox, q) != DeliveredFor(s, q)
    ensures AnyCanReturn(s, m, key)
    ensures Inv(s) && Seeded(es) ==> CanReturn(s, m, key)
  {
    hide Step, Run, RowsFor, Core, Once, DeliveredFor, Enqueue, ReadyToReturn, Reading;
    var q := Enqueue(s.t, m, key).1;
    var s1 := Step(s, Begin(m, key));
    var s2 := Run(s1, es);
    StillWaiting(s, m, key, es);
    ReadingReturns(s2, q);
    StaysConcat(s1, es, Reading(s2), q);
    RunConcat(s1, es, Reading(s2));
    assert AnyTurnRun(s, m, key, es + Reading(s2));
    assert Inv(s) && Seeded(es) ==> TurnRun(s, m, key, es + Reading(s2));
  }

  lemma {:induction false} AnsweredInTurn(s: State, m: Message, key: Option<string>, q: nat)
    requires Inv(s) && s.host.Idle? && IsTurn(Enqueue(s.t, m, key).0.inbox, q)
    ensures RowsFor(Run(Step(s, Begin(m, key)), Answering(|Enqueue(s.t, m, key).0.inbox|)).t.outbox, q) != []
  {
    var s1 := Step(s, Begin(m, key));
    assert s1.t == Enqueue(s.t, m, key).0;
    StepKeepsInv(s, Begin(m, key));
    hide Step, Run, RowsFor, Core, Once, Enqueue, Answering;
    AnsweringAnswers(s1, q);
  }

  lemma {:induction false} ReturnsIfUnanswered(s: State, m: Message, key: Option<string>)
    requires Inv(s) && s.host.Idle?
    requires var (t, q) := Enqueue(s.t, m, key); IsTurn(t.inbox, q) && RowsFor(s.t.outbox, q) == []
    ensures CanReturn(s, m, key)
  {
    hide Step, Run, RowsFor, Core, Once, Enqueue, CanReturn, AnyCanReturn, Answering, DeliveredFor, IsTurn;
    var (t, q) := Enqueue(s.t, m, key);
    AnsweredInTurn(s, m, key, q);
    UndeliveredPrefix(s, q);
    AnsweringIsSeeded(|t.inbox|);
    ReturnsAfter(s, m, key, Answering(|t.inbox|));
  }

  lemma {:induction false} ReturnsIfUndelivered(s: State, m: Message, key: Option<string>)
    requires Inv(s) && s.host.Idle?
    requires var q := Enqueue(s.t, m, key).1; DeliveredFor(s, q) != RowsFor(s.t.outbox, q)
    ensures CanReturn(s, m, key)
  {
    var s1 := Step(s, Begin(m, key));
    EnqueueEvolves(s.t, m, key);
    RunNothing(s1);
    assert s1.t.outbox == s.t.outbox;
    hide Step, Run, RowsFor, Core, Once, Enqueue, CanReturn;
    ReturnsAfter(s, m, key, []);
  }

  /**
   A turn can return if and only if its row drives a turn and either has no batch yet or has one
   of which some row was not delivered before the call.
   */
  lemma {:induction false} TurnCanReturnIff(s: State, m: Message, key: Option<string>)
    requires Inv(s) && s.host.Idle?
    ensures var (t, q) := Enqueue(s.t, m, key);
            CanReturn(s, m, key) <==>
              IsTurn(t.inbox, q) && (RowsFor(s.t.outbox, q) == [] || DeliveredFor(s, q) != RowsFor(s.t.outbox, q))
  {
    hide Step, Run, RowsFor, Core, Once, Enqueue, IsTurn, ReadyToReturn, DeliveredFor;
    var (t, q) := Enqueue(s.t, m, key);
    if CanReturn(s, m, key) {
      var es :| TurnRun(s, m, key, es) && ReadyToReturn(Run(Step(s, Begin(m, key)), es));
      ReturnsOnlyIf(s, m, key, es);
    }
    if IsTurn(t.inbox, q) && RowsFor(s.t.outbox, q) == [] {
      ReturnsIfUnanswered(s, m, key);
    } else if IsTurn(t.inbox, q) && DeliveredFor(s, q) != RowsFor(s.t.outbox, q) {
      ReturnsIfUndelivered(s, m, key);
    }
  }

  /** An unkeyed turn can return unless its sender marks it as host state; a turn for a `schedule-meta` row never does. */
  lemma {:induction false} UnkeyedCanReturnIff(s: State, m: Message)
    requires Inv(s) && s.host.Idle?
    ensures CanReturn(s, m, None) <==> m.sender != META_SENDER
  {
    var (t, q) := Enqueue(s.t, m, None);
    TurnCanReturnIff(s, m, None);
    AppendEvolves(s.t, m, None);
    AckedIffAnswered(s, q);
    assert t.inbox[q / 2].message == m;
  }

  // ---- unseeded starts ----

  /** A container life that could not read its processed set answers the row again. */
  function AnsweringAgain(q: nat): seq<Event> {
    [Die, Boot(false)] + AnswerOnly(q / 2, TurnResult([], [], [], [], [], [], None, ""))
  }

  lemma {:induction false} AgainIsContainers(q: nat)
    ensures forall i | 0 <= i < |AnsweringAgain(q)| :: IsContainers(AnsweringAgain(q)[i])
  {
  }

  lemma {:induction false} UnseededStart(s: State)
    ensures Run(s, [Die, Boot(false)]) == s.(runner := Running({}, []))
  {
    hide Run;
    RunNothing(s);
    RunSplit(s, [], Die);
    RunSplit(s, [Die], Boot(false));
    assert [] + [Die] == [Die] && [Die] + [Boot(false)] == [Die, Boot(false)];
  }

  lemma {:induction false} OneMoreBatch(s: State, s': State, c: Commit)
    requires Core(s) && Core(s') && s'.commits == s.commits + [c]
    ensures RowsFor(s'.t.outbox, c.inSeq) != RowsFor(s.t.outbox, c.inSeq)
  {
    assert s'.commits[|s.commits|] == c;
    FlatPush(s.commits, c);
    RowsForConcat(Flat(s.commits), c.rows, c.inSeq);
    RowsForUniform(c.rows, c.inSeq, c.inSeq);
  }

  lemma {:induction false} AgainCommits(s: State, q: nat) returns (c: Commit)
    requires InboxOk(s.t) && IsTurn(s.t.inbox, q)
    ensures c.inSeq == q && Run(s, AnsweringAgain(q)).commits == s.commits + [c]
  {
    var r := TurnResult([], [], [], [], [], [], None, "");
    var started := s.(runner := Running({}, []));
    UnseededStart(s);
    RunConcat(s, [Die, Boot(false)], AnswerOnly(q / 2, r));
    hide Run;
    AnswerOnlyCommits(started, q / 2, r);
    c :| c.inSeq == 2 * (q / 2) && Run(started, AnswerOnly(q / 2, r)).commits == s.commits + [c];
  }

  lemma {:induction false} AgainAddsRows(s: State, q: nat)
    requires Core(s) && IsTurn(s.t.inbox, q)
    ensures RowsFor(Run(s, AnsweringAgain(q)).t.outbox, q) != RowsFor(s.t.outbox, q)
  {
    var c := AgainCommits(s, q);
    hide Core, Run, RowsFor, AnsweringAgain;
    RunKeepsCore(s, AnsweringAgain(q));
    OneMoreBatch(s, Run(s, AnsweringAgain(q)), c);
  }

  /** When unseeded starts are possible, a turn can return if and only if its row drives a turn, however much of it was delivered. */
  lemma {:induction false} AnyTurnCanReturnIff(s: State, m: Message, key: Option<string>)
    requires Core(s) && s.host.Idle?
    ensures var (t, q) := Enqueue(s.t, m, key); AnyCanReturn(s, m, key) <==> IsTurn(t.inbox, q)
  {
    var (t, q) := Enqueue(s.t, m, key);
    var s1 := Step(s, Begin(m, key));
    assert s1.t == t && t.outbox == s.t.outbox by { EnqueueEvolves(s.t, m, key); }
    EnqueueEvolves(s.t, m, key);
    StepKeepsCore(s, Begin(m, key));
    if AnyCanReturn(s, m, key) {
      var es :| AnyTurnRun(s, m, key, es) && ReadyToReturn(Run(s1, es));
      RepliesAreRows(s, m, key, es);
      hide Step, Run, RowsFor, Enqueue, Core;
      AnsweredDrivesTurn(s1, es, q);
    }
    if IsTurn(t.inbox, q) {
      hide Step, Run, RowsFor, Enqueue, Core, DeliveredFor, AnyCanReturn, AnsweringAgain, IsTurn;
      RunNothing(s1);
      if RowsFor(s.t.outbox, q) != DeliveredFor(s, q) {
        ReturnsAfter(s, m, key, []);
      } else {
        AgainAddsRows(s1, q);
        AgainIsContainers(q);
        ReturnsAfter(s, m, key, AnsweringAgain(q));
      }
    }
  }

  lemma {:induction false} RowsOfPrefix(s: State, j: nat, q: nat)
    requires Core(s) && j <= |s.commits| && RowsFor(Flat(s.commits[..j]), q) != []
    ensures RowsFor(s.t.outbox, q) != []
  {
    hide RowsFor;
    var head := Flat(s.commits[..j]);
    FlatTake(s.commits[..j], s.commits);
    assert s.t.outbox == head + s.t.outbox[|head|..];
    RowsForConcat(head, s.t.outbox[|head|..], q);
  }

  lemma {:induction false} RepliesAreRows(s: State, m: Message, key: Option<string>, es: seq<Event>)
    requires AnyTurnRun(s, m, key, es) && ReadyToReturn(Run(Step(s, Begin(m, key)), es))
    ensures RowsFor(Run(Step(s, Begin(m, key)), es).t.outbox, Enqueue(s.t, m, key).1) != []
  {
    var j := TurnReturnsWholeBatches(s, m, key, es);
    hide Step, Run, RowsFor, Reply, Core, Enqueue, DeliveredFor;
    StepKeepsCore(s, Begin(m, key));
    RunKeepsCore(Step(s, Begin(m, key)), es);
    RowsOfPrefix(Run(Step(s, Begin(m, key)), es), j, Enqueue(s.t, m, key).1);
  }
}
