/** What the exchange promises over whole runs. */
module ExchangeTheorems {
  import opened Wrappers
  import opened Sequences
  import opened Session
  import opened Turn
  import opened Exchange
  import opened ExchangeInvariant

  // ---- rows of one inbound message within the committed log ----

  lemma {:induction false} RowsForLast(rows: seq<OutRow>, q: nat)
    requires rows != []
    ensures var n := |rows| - 1; RowsFor(rows, q) == RowsFor(rows[..n], q) + if rows[n].inSeq == Some(q) then [rows[n]] else []
  {
  }

  lemma {:induction false} RowsForConcat(a: seq<OutRow>, b: seq<OutRow>, q: nat)
    ensures RowsFor(a + b, q) == RowsFor(a, q) + RowsFor(b, q)
  {
    if b == [] {
      assert a + b == a && RowsFor(b, q) == [];
    } else {
      hide RowsFor;
      var n := |b| - 1;
      var last := if b[n].inSeq == Some(q) then [b[n]] else [];
      assert (a + b)[..|a| + n] == a + b[..n];
      RowsForConcat(a, b[..n], q);
      RowsForLast(a + b, q);
      RowsForLast(b, q);
      Assoc(RowsFor(a, q), RowsFor(b[..n], q), last);
    }
  }

  lemma {:induction false} JoinUniform(rows: seq<OutRow>, init: seq<OutRow>, last: OutRow, kept: seq<OutRow>, all: seq<OutRow>, same: bool)
    requires rows == init + [last] && kept == (if same then init else []) && all == kept + if same then [last] else []
    ensures all == if same then rows else []
  {
  }

  lemma {:induction false} RowsForUniform(rows: seq<OutRow>, p: nat, q: nat)
    requires forall row | row in rows :: row.inSeq == Some(p)
    ensures RowsFor(rows, q) == if p == q then rows else []
  {
    if rows != [] {
      var init, last := rows[..|rows| - 1], rows[|rows| - 1];
      assert forall row | row in init :: row in rows;
      RowsForUniform(init, p, q);
      RowsForLast(rows, q);
      assert last in rows;
      JoinUniform(rows, init, last, RowsFor(init, q), RowsFor(rows, q), p == q);
    }
  }

  /** Every row belongs to the inbound row its batch was committed for. */
  ghost predicate Tagged(commits: seq<Commit>) {
    forall i, k | 0 <= i < |commits| && 0 <= k < |commits[i].rows| :: commits[i].rows[k].inSeq == Some(commits[i].inSeq)
  }

  lemma {:induction false} RowsForNoCommit(commits: seq<Commit>, q: nat)
    requires Tagged(commits)
    requires forall i | 0 <= i < |commits| :: commits[i].inSeq != q
    ensures RowsFor(Flat(commits), q) == []
  {
    if commits != [] {
      var n := |commits| - 1;
      RowsForNoCommit(commits[..n], q);
      RowsForUniform(commits[n].rows, commits[n].inSeq, q);
      RowsForConcat(Flat(commits[..n]), commits[n].rows, q);
    }
  }

  lemma {:induction false} RowsForCommit(commits: seq<Commit>, i: nat)
    requires Tagged(commits) && DistinctTurns(commits) && i < |commits|
    ensures RowsFor(Flat(commits), commits[i].inSeq) == commits[i].rows
  {
    hide RowsFor;
    var n, q := |commits| - 1, commits[i].inSeq;
    RowsForUniform(commits[n].rows, commits[n].inSeq, q);
    RowsForConcat(Flat(commits[..n]), commits[n].rows, q);
    if i == n {
      RowsForNoCommit(commits[..n], q);
    } else {
      RowsForCommit(commits[..n], i);
    }
  }

  // ---- one row per key ----

  ghost predicate KeysDistinct(inbox: seq<InRow>) {
    forall i, j | 0 <= i < j < |inbox| && inbox[i].key.Some? :: inbox[i].key != inbox[j].key
  }

  lemma {:induction false} StepKeepsKeys(s: State, e: Event)
    requires KeysDistinct(s.t.inbox)
    ensures KeysDistinct(Step(s, e).t.inbox)
  {
    match e
    case Post(m, key) => EnqueueMeans(s.t, m, key);
    case PutMeta(k, m) => UpsertMeans(s.t, k, m);
    case Begin(m, key) => EnqueueMeans(s.t, m, key);
    case _ => assert Step(s, e).t.inbox == s.t.inbox;
  }

  /** Over every run no two inbound rows carry one key: the key a turn retries names the row it first enqueued. */
  lemma {:induction false} OneRowPerKey(es: seq<Event>)
    ensures KeysDistinct(Run(INIT, es).t.inbox)
  {
    if es != [] {
      hide Step;
      OneRowPerKey(es[..|es| - 1]);
      StepKeepsKeys(Run(INIT, es[..|es| - 1]), es[|es| - 1]);
    }
  }

  // ---- exactly-once turns ----

  /**
   Over every run at all: outbound seqs are 1, 3, 5, ...; a row is acked exactly when some
   outbound row carries it; only turn-driving rows are ever answered.
   */
  lemma {:induction false} OutboundLogAlways(es: seq<Event>)
    ensures var s := Run(INIT, es);
      && (forall i | 0 <= i < |s.t.outbox| :: s.t.outbox[i].seqNo == 2 * i + 1)
      && (forall q: nat :: q in s.t.acks <==> RowsFor(s.t.outbox, q) != [])
      && (forall q | q in s.t.acks :: IsTurn(s.t.inbox, q))
  {
    InitInv();
    RunKeepsCore(INIT, es);
    var s := Run(INIT, es);
    forall q: nat ensures q in s.t.acks <==> RowsFor(s.t.outbox, q) != [] {
      AckedIffAnswered(s, q);
    }
  }

  /** When container starts were seeded, each inbound row has at most one committed batch, and its rows are that whole batch. */
  lemma {:induction false} ExactlyOnceTurns(es: seq<Event>)
    requires Seeded(es)
    ensures var s := Run(INIT, es);
      && DistinctTurns(s.commits)
      && (forall i | 0 <= i < |s.commits| :: s.commits[i].rows != [] && RowsFor(s.t.outbox, s.commits[i].inSeq) == s.commits[i].rows)
      && (forall q: nat :: q in s.t.acks <==> exists i :: 0 <= i < |s.commits| && s.commits[i].inSeq == q)
  {
    InitInv();
    RunKeepsInv(INIT, es);
    var s := Run(INIT, es);
    forall i | 0 <= i < |s.commits| ensures RowsFor(s.t.outbox, s.commits[i].inSeq) == s.commits[i].rows {
      RowsForCommit(s.commits, i);
    }
    forall q: nat ensures q in s.t.acks <==> exists i :: 0 <= i < |s.commits| && s.commits[i].inSeq == q {
      CommittedIffAcked(s, q);
    }
  }

  lemma {:induction false} CommittedIffAcked(s: State, q: nat)
    requires AcksOk(s.t, s.commits)
    ensures q in s.t.acks <==> exists i :: 0 <= i < |s.commits| && s.commits[i].inSeq == q
  {
    if q in s.t.acks {
      var c :| c in s.commits && c.inSeq == q;
      var i :| 0 <= i < |s.commits| && s.commits[i] == c;
    }
    if i :| 0 <= i < |s.commits| && s.commits[i].inSeq == q {
      assert s.commits[i] in s.commits;
    }
  }

  /** A row with a committed batch has rows, however many batches it has. */
  lemma {:induction false} RowsForSomeCommit(commits: seq<Commit>, i: nat)
    requires Tagged(commits) && i < |commits| && commits[i].rows != []
    ensures RowsFor(Flat(commits), commits[i].inSeq) != []
  {
    hide RowsFor;
    var n, q := |commits| - 1, commits[i].inSeq;
    RowsForUniform(commits[n].rows, commits[n].inSeq, q);
    RowsForConcat(Flat(commits[..n]), commits[n].rows, q);
    if i < n {
      RowsForSomeCommit(commits[..n], i);
    }
  }

  lemma {:induction false} AckedIffAnswered(s: State, q: nat)
    requires Core(s)
    ensures q in s.t.acks <==> RowsFor(s.t.outbox, q) != []
  {
    CommittedIffAcked(s, q);
    if i :| 0 <= i < |s.commits| && s.commits[i].inSeq == q {
      RowsForSomeCommit(s.commits, i);
    } else {
      RowsForNoCommit(s.commits, q);
    }
  }

  lemma {:induction false} StepGrows(s: State, e: Event)
    ensures s.commits <= Step(s, e).commits && s.t.outbox <= Step(s, e).t.outbox && s.returned <= Step(s, e).returned
  {
  }

  /** A commit is never undone: both logs only ever grow, along any run at all. */
  lemma {:induction false} LogsOnlyGrow(s: State, es: seq<Event>)
    ensures s.commits <= Run(s, es).commits && s.t.outbox <= Run(s, es).t.outbox && s.returned <= Run(s, es).returned
  {
    if es != [] {
      hide Step;
      LogsOnlyGrow(s, es[..|es| - 1]);
      StepGrows(Run(s, es[..|es| - 1]), es[|es| - 1]);
    }
  }

  // ---- a pass over the snapshot ----

  /** The container walks `k` rows of its snapshot. */
  function Takes(results: seq<TurnResult>, committed: bool): seq<Event> {
    seq(|results|, i requires 0 <= i < |results| => Take(results[i], committed))
  }

  lemma {:induction false} RunSplit(s: State, a: seq<Event>, e: Event)
    ensures Run(s, a + [e]) == Step(Run(s, a), e)
  {
    assert (a + [e])[..|a|] == a;
  }

  lemma {:induction false} RunConcat(s: State, a: seq<Event>, b: seq<Event>)
    ensures Run(s, a + b) == Run(Run(s, a), b)
  {
    hide Step;
    if b == [] {
      assert a + b == a;
    } else {
      var n := |b| - 1;
      assert (a + b)[..|a| + n] == a + b[..n] && (a + b)[|a| + n] == b[n];
      RunConcat(s, a, b[..n]);
    }
  }

  /** After walking the whole snapshot with every emit committed, every row of it is handled. */
  lemma {:induction false} TakesHandle(s: State, rows: seq<InRow>, results: seq<TurnResult>)
    requires s.runner.Running? && s.runner.pending == rows && |results| <= |rows|
    ensures var s' := Run(s, Takes(results, true));
      && s'.runner.Running? && s'.runner.pending == rows[|results|..] && s'.t.inbox == s.t.inbox
      && s.runner.handled <= s'.runner.handled
      && forall i | 0 <= i < |results| :: rows[i].seqNo in s'.runner.handled
  {
    if results != [] {
      var n := |results| - 1;
      TakesHandle(s, rows, results[..n]);
      var s1 := Run(s, Takes(results[..n], true));
      assert Takes(results, true)[..n] == Takes(results[..n], true);
      assert s1.runner.pending[1..] == rows[n + 1..];
      assert s1.runner.pending[0] == rows[n];
    }
  }

  /**
   No turn is lost: from any state a seeded run can reach with the container down, one restart
   and one clean pass leaves every turn-driving inbound row answered, and nothing else.
   */
  lemma {:induction false} RestartCatchesUp(es: seq<Event>, results: seq<TurnResult>)
    requires Seeded(es) && Run(INIT, es).runner.Stopped?
    requires |results| == |Run(INIT, es).t.inbox|
    ensures var s := Run(Run(INIT, es), [Boot(true), PollInbound] + Takes(results, true));
            forall q: nat :: RowsFor(s.t.outbox, q) != [] <==> IsTurn(s.t.inbox, q)
  {
    InitInv();
    RunKeepsInv(INIT, es);
    var s := Run(INIT, es);
    var s1 := Step(Step(s, Boot(true)), PollInbound);
    assert Run(s, [Boot(true), PollInbound]) == s1 by {
      RunSplit(s, [], Boot(true));
      RunSplit(s, [Boot(true)], PollInbound);
      assert [] + [Boot(true)] == [Boot(true)] && [Boot(true)] + [PollInbound] == [Boot(true), PollInbound];
    }
    RunConcat(s, [Boot(true), PollInbound], Takes(results, true));
    TakesHandle(s1, s.t.inbox, results);
    RunKeepsInv(s, [Boot(true), PollInbound] + Takes(results, true));
    var s2 := Run(s1, Takes(results, true));
    forall q: nat ensures RowsFor(s2.t.outbox, q) != [] <==> IsTurn(s2.t.inbox, q) {
      AckedIffAnswered(s2, q);
      if IsTurn(s2.t.inbox, q) {
        assert s.t.inbox[q / 2].seqNo == q;
      }
    }
  }

  // ---- a container start that could not read the processed set ----

  /** Walking rows without a successful emit only consumes the snapshot and notes meta rows. */
  lemma {:induction false} FailedTakesSkip(s: State, rows: seq<InRow>, results: seq<TurnResult>)
    requires s.runner.Running? && s.runner.pending == rows && |results| <= |rows|
    ensures var s' := Run(s, Takes(results, false));
      && s'.t == s.t && s'.commits == s.commits && s'.runner.Running? && s'.runner.pending == rows[|results|..]
      && forall q | q in s'.runner.handled && q !in s.runner.handled :: exists i :: 0 <= i < |rows| && rows[i].seqNo == q && rows[i].IsMeta()
  {
    if results != [] {
      var n := |results| - 1;
      FailedTakesSkip(s, rows, results[..n]);
      var s1 := Run(s, Takes(results[..n], false));
      assert Takes(results, false)[..n] == Takes(results[..n], false);
      assert s1.runner.pending[1..] == rows[n + 1..];
      assert s1.runner.pending[0] == rows[n];
    }
  }

  /** Failing the first `k` rows of a fresh snapshot and committing the next one. */
  function AnswerOnly(k: nat, r: TurnResult): seq<Event> {
    [PollInbound] + Takes(seq(k, i => r), false) + [Take(r, true)]
  }

  lemma {:induction false} AnswerOnlyCommits(s: State, k: nat, r: TurnResult)
    requires s.runner == Running({}, []) && k < |s.t.inbox|
    requires forall i | 0 <= i < |s.t.inbox| :: s.t.inbox[i].seqNo == 2 * i
    requires !s.t.inbox[k].IsMeta()
    ensures exists c: Commit :: c.inSeq == 2 * k && Run(s, AnswerOnly(k, r)).commits == s.commits + [c]
  {
    var fails := seq(k, i => r);
    var s1 := s.(runner := Running({}, s.t.inbox));
    RunSplit(s, [], PollInbound);
    assert [] + [PollInbound] == [PollInbound];
    FailedTakesSkip(s1, s.t.inbox, fails);
    var s2 := Run(s1, Takes(fails, false));
    RunConcat(s, [PollInbound], Takes(fails, false));
    RunSplit(s, [PollInbound] + Takes(fails, false), Take(r, true));
    assert s2.runner.pending[0] == s.t.inbox[k];
    assert 2 * k !in s2.runner.handled;
    var s3 := TakeHead(s2, r, true);
    assert s3.commits[|s.commits|].inSeq == 2 * k;
  }

  /** With an ack on record, an unseeded container can answer that row a second time. */
  lemma {:induction false} UnseededAnswersTwice(s: State, q: nat, r: TurnResult)
    requires Inv(s) && s.runner.Stopped? && q in s.t.acks
    ensures !DistinctTurns(Run(Step(s, Boot(false)), AnswerOnly(q / 2, r)).commits)
  {
    AnswerOnlyCommits(Step(s, Boot(false)), q / 2, r);
    var t := Run(Step(s, Boot(false)), AnswerOnly(q / 2, r)).commits;
    var c :| c in s.commits && c.inSeq == q;
    var i :| 0 <= i < |s.commits| && s.commits[i] == c;
    assert t[i].inSeq == t[|s.commits|].inSeq;
  }

  /**
   A start whose read of the processed set failed is harmless exactly when nothing has been
   acked yet: only then does every continuation still answer each inbound row at most once.
   */
  lemma {:induction false} UnseededSafeIffNoAcks(s: State)
    requires Inv(s) && s.runner.Stopped?
    ensures (forall es | Seeded(es) :: DistinctTurns(Run(Step(s, Boot(false)), es).commits)) <==> s.t.acks == {}
  {
    if s.t.acks == {} {
      forall es | Seeded(es) ensures DistinctTurns(Run(Step(s, Boot(false)), es).commits) {
        StepKeepsInv(s, Boot(true));
        RunKeepsInv(Step(s, Boot(true)), es);
      }
    } else {
      var q :| q in s.t.acks;
      var r := TurnResult([], [], [], [], [], [], None, "again");
      UnseededAnswersTwice(s, q, r);
      assert Seeded(AnswerOnly(q / 2, r));
    }
  }

  // ---- delivery ----

  /** The delivered table holds exactly the outbox rows up to the stored watermark. */
  ghost predicate DeliveredUpToMark(t: Tables) {
    && (forall i | 0 <= i < |t.outbox| :: t.outbox[i].seqNo in t.delivered <==> t.outbox[i].seqNo <= StoredMark(t))
    && (forall x: nat | x in t.delivered :: exists i :: 0 <= i < |t.outbox| && t.outbox[i].seqNo == x)
  }

  lemma {:induction false} InvDeliversUpToMark(t: Tables)
    requires OutboxOk(t) && DeliveredOk(t)
    ensures DeliveredUpToMark(t)
  {
    StoredMarkIsOdd(t);
    forall x: nat | x in t.delivered ensures exists i :: 0 <= i < |t.outbox| && t.outbox[i].seqNo == x {
      assert t.outbox[x / 2].seqNo == x;
    }
  }

  /**
   Gap-free, at-most-once delivery over every run: nothing below the watermark was skipped, nothing
   above it was delivered, and returned rows are delivered outbox rows in strictly increasing order,
   so none is returned twice, whatever marks failed, however often the host restarted and however
   container starts were seeded.
   */
  lemma {:induction false} GapFreeDelivery(es: seq<Event>)
    ensures var s := Run(INIT, es);
      && DeliveredUpToMark(s.t)
      && Increasing(s.returned)
      && (forall i | 0 <= i < |s.returned| :: s.returned[i] in s.t.outbox && s.returned[i].seqNo in s.t.delivered)
      && (!s.host.Cold? ==> s.host.mark == StoredMark(s.t))
  {
    InitInv();
    RunKeepsCore(INIT, es);
    var s := Run(INIT, es);
    InvDeliversUpToMark(s.t);
    forall i | 0 <= i < |s.returned| ensures s.returned[i].seqNo in s.t.delivered {
      var k :| 0 <= k < |s.t.outbox| && s.t.outbox[k] == s.returned[i];
    }
  }

  /** Neither crashes nor restarts lower the stored watermark. */
  lemma {:induction false} WatermarkNeverFalls(s: State, es: seq<Event>)
    ensures StoredMark(s.t) <= StoredMark(Run(s, es).t) && s.t.delivered <= Run(s, es).t.delivered
  {
    if es != [] {
      WatermarkNeverFalls(s, es[..|es| - 1]);
    }
    if s.t.delivered != {} {
      assert StoredMark(s.t) in Run(s, es).t.delivered;
    }
  }
}
