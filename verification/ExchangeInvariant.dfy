/** Every step of the exchange keeps the core invariant, and a seeded step the whole one. */
module ExchangeInvariant {
  import opened Wrappers
  import opened Session
  import opened Turn
  import opened Exchange

  // ---- inbound.db only grows, and never changes a row's seq or sender ----

  ghost predicate InboxEvolves(before: seq<InRow>, after: seq<InRow>) {
    && |before| <= |after|
    && (forall i | 0 <= i < |before| ::
          after[i].seqNo == before[i].seqNo && after[i].message.sender == before[i].message.sender)
    && (forall i | 0 <= i < |after| :: after[i].seqNo == 2 * i)
  }

  lemma {:induction false} AppendEvolves(t: Tables, m: Message, key: Option<string>)
    requires InboxOk(t)
    ensures var (t', q) := Append(t, m, key);
            InboxEvolves(t.inbox, t'.inbox) && t' == t.(inbox := t'.inbox) && q == 2 * |t.inbox| && |t'.inbox| == |t.inbox| + 1
  {
    NextContinues(InSeqs(t.inbox), 0);
  }

  lemma {:induction false} EnqueueEvolves(t: Tables, m: Message, key: Option<string>)
    requires InboxOk(t)
    ensures var (t', q) := Enqueue(t, m, key);
            InboxEvolves(t.inbox, t'.inbox) && t' == t.(inbox := t'.inbox) && q % 2 == 0 && q / 2 < |t'.inbox|
  {
    AppendEvolves(t, m, key);
  }

  lemma {:induction false} UpsertEvolves(t: Tables, k: string, m: Message)
    requires InboxOk(t)
    ensures var t' := Upsert(t, k, m).0; InboxEvolves(t.inbox, t'.inbox) && t' == t.(inbox := t'.inbox)
  {
    AppendEvolves(t, m.(thread := None), Some(k));
  }

  lemma {:induction false} InboxEvolvesKeepsCore(s: State, inbox: seq<InRow>)
    requires Core(s) && InboxEvolves(s.t.inbox, inbox)
    ensures Core(s.(t := s.t.(inbox := inbox)))
  {
    var t := s.t.(inbox := inbox);
    assert forall q | IsTurn(s.t.inbox, q) :: IsTurn(inbox, q);
    assert forall row | SeenIn(s.t.inbox, row) :: SeenIn(inbox, row);
    assert Settled(t, s.host) == Settled(s.t, s.host);
  }

  // ---- a committed batch ----

  lemma {:induction false} FlatPush(commits: seq<Commit>, c: Commit)
    ensures Flat(commits + [c]) == Flat(commits) + c.rows
  {
    assert (commits + [c])[..|commits|] == commits;
  }

  /** What a commit appends: the next odd seqs, one row per draft, and its ack. */
  lemma {:induction false} EmitAppends(t: Tables, drafts: seq<Draft>, q: nat)
    requires OutboxOk(t) && drafts != []
    ensures var t' := EmitRows(t, drafts, q);
            && OutboxOk(t') && t'.acks == t.acks + {q} && t'.inbox == t.inbox && t'.delivered == t.delivered
            && t'.outbox == t.outbox + Number(drafts, 2 * |t.outbox| + 1, q) && |t'.outbox| == |t.outbox| + |drafts|
            && t.outbox <= t'.outbox
            && forall i | 0 <= i < |drafts| ::
                 t'.outbox[|t.outbox| + i] == OutRow(2 * (|t.outbox| + i) + 1, drafts[i], Some(q))
  {
    NextContinues(OutSeqs(t.outbox), 1);
  }

  lemma {:induction false} TakeKeepsCore(s: State, result: TurnResult, committed: bool)
    requires Core(s) && s.runner.Running? && s.runner.pending != []
    ensures Core(TakeHead(s, result, committed))
  {
    var row := s.runner.pending[0];
    assert SeenIn(s.t.inbox, row);
    if row.seqNo !in s.runner.handled && !row.IsMeta() && committed {
      CommitKeepsCore(s, row.seqNo, BatchOf(result));
    }
  }

  lemma {:induction false} CommitKeepsCore(s: State, q: nat, drafts: seq<Draft>)
    requires Core(s) && s.runner.Running? && s.runner.pending != []
    requires drafts != [] && IsTurn(s.t.inbox, q)
    ensures var t := EmitRows(s.t, drafts, q);
            Core(s.(t := t, runner := Running(s.runner.handled + {q}, s.runner.pending[1..]),
                    commits := s.commits + [Commit(q, t.outbox[|s.t.outbox|..])]))
  {
    hide InboxOk, OutboxOk, CommitsOk, AcksOk, RunnerOk, DeliveredOk;
    EmitAppends(s.t, drafts, q);
    var t := EmitRows(s.t, drafts, q);
    CommitKeepsRunner(s, q, drafts);
    CommitKeepsLogs(s, q, drafts);
    assert Settled(t, s.host) == Settled(s.t, s.host);
    assert s.t.outbox <= t.outbox;
  }

  lemma {:induction false} CommitKeepsLogs(s: State, q: nat, drafts: seq<Draft>)
    requires InboxOk(s.t) && OutboxOk(s.t) && CommitsOk(s.t, s.commits) && AcksOk(s.t, s.commits) && DeliveredOk(s.t)
    requires drafts != [] && IsTurn(s.t.inbox, q)
    ensures var t := EmitRows(s.t, drafts, q);
            var commits := s.commits + [Commit(q, t.outbox[|s.t.outbox|..])];
            InboxOk(t) && OutboxOk(t) && CommitsOk(t, commits) && AcksOk(t, commits) && DeliveredOk(t)
  {
    EmitAppends(s.t, drafts, q);
    var t := EmitRows(s.t, drafts, q);
    var c := Commit(q, t.outbox[|s.t.outbox|..]);
    assert c.rows == Number(drafts, 2 * |s.t.outbox| + 1, q);
    hide EmitRows;
    FlatPush(s.commits, c);
    assert forall d | d in s.commits + [c] :: d in s.commits || d == c;
  }

  lemma {:induction false} CommitKeepsRunner(s: State, q: nat, drafts: seq<Draft>)
    requires RunnerOk(s.t, s.runner) && s.runner.Running? && s.runner.pending != [] && drafts != []
    ensures RunnerOk(EmitRows(s.t, drafts, q), Running(s.runner.handled + {q}, s.runner.pending[1..]))
  {
  }

  // ---- the host's poll ----

  lemma {:induction false} AboveNone(rows: seq<OutRow>, mark: nat)
    requires forall row | row in rows :: row.seqNo <= mark
    ensures Above(rows, mark) == []
  {
    if rows != [] { AboveNone(rows[..|rows| - 1], mark); }
  }

  /** The part above a mark that covers exactly the first `d` rows. */
  lemma {:induction false} AboveSplits(rows: seq<OutRow>, mark: nat, d: nat)
    requires d <= |rows|
    requires forall row | row in rows[..d] :: row.seqNo <= mark
    requires forall row | row in rows[d..] :: row.seqNo > mark
    ensures Above(rows, mark) == rows[d..]
    decreases |rows| - d
  {
    if d == |rows| {
      assert rows[..d] == rows && rows[d..] == [];
      AboveNone(rows, mark);
    } else {
      var n := |rows| - 1;
      var init := rows[..n];
      assert init[..d] == rows[..d] && rows[d..] == init[d..] + [rows[n]];
      AboveSplits(init, mark, d);
    }
  }

  lemma {:induction false} AboveIsSuffix(rows: seq<OutRow>, mark: nat, d: nat)
    requires forall i | 0 <= i < |rows| :: rows[i].seqNo == 2 * i + 1
    requires mark == if d == 0 then 0 else 2 * d - 1
    ensures Above(rows, mark) == if d <= |rows| then rows[d..] else []
  {
    hide Above;
    var k := if d <= |rows| then d else |rows|;
    forall row | row in rows[..k] ensures row.seqNo <= mark {
      var i :| 0 <= i < k && rows[i] == row;
    }
    forall row | row in rows[k..] ensures row.seqNo > mark {
      var i :| 0 <= i < |rows[k..]| && rows[k..][i] == row;
      assert rows[k + i] == row;
    }
    AboveSplits(rows, mark, k);
  }

  lemma {:induction false} StoredMarkIsOdd(t: Tables)
    requires DeliveredOk(t)
    ensures StoredMark(t) == 0 || StoredMark(t) % 2 == 1
  {
    if t.delivered != {} {
      assert StoredMark(t) in t.delivered;
    }
  }

  lemma {:induction false} SnapshotKeepsCore(s: State)
    requires Core(s) && s.host.Waiting?
    ensures Core(TakeSnapshot(s))
  {
    hide InboxOk, CommitsOk, AcksOk, RunnerOk, DeliveredOk, Above;
    StoredMarkIsOdd(s.t);
    AboveIsSuffix(s.t.outbox, s.host.mark, Covered(s.host.mark));
  }

  /** Marking touches neither log, so what does not speak of deliveries stays true. */
  lemma {:induction false} MarkKeepsLogs(s: State, t: Tables)
    requires Core(s) && t == s.t.(delivered := t.delivered)
    ensures InboxOk(t) && OutboxOk(t) && CommitsOk(t, s.commits) && AcksOk(t, s.commits) && RunnerOk(t, s.runner)
  {
  }

  /** Marking the next row moves the stored mark on by one row. */
  lemma {:induction false} MarkAdvances(s: State)
    requires OutboxOk(s.t) && DeliveredOk(s.t) && HostOk(s.t, s.host) && s.host.Marking? && s.host.done < |s.host.batch|
    ensures var n := s.host.batch[s.host.done].seqNo;
            n == 2 * Covered(s.host.mark) + 1 && n > s.host.mark && Covered(n) == Covered(s.host.mark) + 1
            && StoredMark(s.t.(delivered := s.t.delivered + {n})) == n
  {
    var b := Settled(s.t, s.host);
    var n := s.host.batch[s.host.done].seqNo;
    assert n == s.t.outbox[b + s.host.done].seqNo == 2 * Covered(s.host.mark) + 1;
    StoredMarkIsOdd(s.t);
    WatermarkUnique(s.t.delivered + {n}, n);
  }

  lemma {:induction false} MarkKeepsCore(s: State)
    requires Core(s) && s.host.Marking? && s.host.done < |s.host.batch|
    ensures Core(MarkNext(s))
  {
    hide InboxOk, CommitsOk, AcksOk, RunnerOk, OutboxOk, StoredMark;
    MarkAdvances(s);
    MarkKeepsLogs(s, MarkNext(s).t);
  }

  lemma {:induction false} RowsForKeepsOrder(rows: seq<OutRow>, q: nat)
    requires Increasing(rows)
    ensures Increasing(RowsFor(rows, q))
  {
    if rows != [] {
      var n := |rows| - 1;
      RowsForKeepsOrder(rows[..n], q);
      var r := RowsFor(rows[..n], q);
      forall i | 0 <= i < |r| ensures r[i].seqNo < rows[n].seqNo {
        assert r[i] in rows[..n];
        var k :| 0 <= k < n && rows[k] == r[i];
      }
    }
  }

  lemma {:induction false} FinishKeepsCore(s: State)
    requires Core(s) && s.host.Marking? && s.host.done == |s.host.batch|
    ensures Core(FinishPoll(s))
  {
    hide InboxOk, CommitsOk, AcksOk, RunnerOk, DeliveredOk, RowsFor;
    var b := Settled(s.t, s.host);
    var mine := RowsFor(s.host.batch, s.host.inSeq);
    forall i | 0 <= i < |s.host.batch| ensures s.host.batch[i].seqNo == 2 * (b + i) + 1 {
      assert s.host.batch[i] == s.t.outbox[b + i];
    }
    RowsForKeepsOrder(s.host.batch, s.host.inSeq);
    forall i | 0 <= i < |mine|
      ensures mine[i] in s.t.outbox && 2 * b < mine[i].seqNo < 2 * (b + |s.host.batch|)
    {
      assert mine[i] in s.host.batch;
    }
  }

  lemma {:induction false} RunnerStarts(t: Tables, seeded: bool)
    ensures RunnerOk(t, Running(if seeded then t.acks else {}, []))
  {
  }

  lemma {:induction false} RunnerPolls(t: Tables, runner: RunnerState)
    requires InboxOk(t) && RunnerOk(t, runner) && runner.Running?
    ensures RunnerOk(t, runner.(pending := t.inbox))
  {
    assert forall i | 0 <= i < |t.inbox| :: SeenIn(t.inbox, t.inbox[i]);
  }

  lemma {:induction false} ContainerKeepsCore(s: State, e: Event)
    requires Core(s) && (e.Boot? || e.PollInbound? || e.Die?)
    ensures Core(Step(s, e))
  {
    match e
    case Boot(seeded) => RunnerStarts(s.t, seeded);
    case PollInbound => if s.runner.Running? { RunnerPolls(s.t, s.runner); }
    case Die =>
      assert RunnerOk(s.t, Stopped);
    hide InboxOk, CommitsOk, AcksOk, OutboxOk, RunnerOk, DeliveredOk, HostOk, Settled;
  }

  lemma {:induction false} HostKeepsCore(s: State, e: Event)
    requires Core(s) && (e.Hydrate? || e.Abort? || e.Restart?)
    ensures Core(Step(s, e))
  {
    hide InboxOk, CommitsOk, AcksOk, OutboxOk, RunnerOk;
  }

  /** Every step keeps the core, a container start that could not read its processed set included. */
  lemma {:induction false} StepKeepsCore(s: State, e: Event)
    requires Core(s)
    ensures Core(Step(s, e))
  {
    match e
    case Post(m, key) =>
      EnqueueEvolves(s.t, m, key);
      InboxEvolvesKeepsCore(s, Enqueue(s.t, m, key).0.inbox);
    case PutMeta(k, m) =>
      UpsertEvolves(s.t, k, m);
      InboxEvolvesKeepsCore(s, Upsert(s.t, k, m).0.inbox);
    case Boot(seeded) => ContainerKeepsCore(s, e);
    case PollInbound => ContainerKeepsCore(s, e);
    case Take(result, committed) =>
      if s.runner.Running? && s.runner.pending != [] { TakeKeepsCore(s, result, committed); }
    case Die => ContainerKeepsCore(s, e);
    case Hydrate => HostKeepsCore(s, e);
    case Begin(m, key) =>
      EnqueueEvolves(s.t, m, key);
      InboxEvolvesKeepsCore(s, Enqueue(s.t, m, key).0.inbox);
    case Snapshot => if s.host.Waiting? { SnapshotKeepsCore(s); }
    case Mark => if s.host.Marking? && s.host.done < |s.host.batch| { MarkKeepsCore(s); }
    case Finish => if s.host.Marking? && s.host.done == |s.host.batch| { FinishKeepsCore(s); }
    case Abort => HostKeepsCore(s, e);
    case Restart => HostKeepsCore(s, e);
  }

  lemma {:induction false} RunKeepsCore(s: State, es: seq<Event>)
    requires Core(s)
    ensures Core(Run(s, es))
  {
    if es != [] {
      hide Step, Core;
      RunKeepsCore(s, es[..|es| - 1]);
      StepKeepsCore(Run(s, es[..|es| - 1]), es[|es| - 1]);
    }
  }

  // ---- seeded starts ----

  /** A commit for a row the runner has not handled is the first for it. */
  lemma {:induction false} TakeKeepsOnce(s: State, result: TurnResult, committed: bool)
    requires AcksOk(s.t, s.commits) && Once(s) && s.runner.Running? && s.runner.pending != []
    ensures Once(TakeHead(s, result, committed))
  {
    var q, s' := s.runner.pending[0].seqNo, TakeHead(s, result, committed);
    if s'.commits != s.commits {
      forall i | 0 <= i < |s.commits| ensures s.commits[i].inSeq != q {
        assert s.commits[i] in s.commits;
        assert s.commits[i].inSeq in s.t.acks;
      }
    }
  }

  lemma {:induction false} StepKeepsOnce(s: State, e: Event)
    requires Inv(s) && e != Boot(false)
    ensures Once(Step(s, e))
  {
    if e.Take? && s.runner.Running? && s.runner.pending != [] {
      TakeKeepsOnce(s, e.result, e.committed);
    }
  }

  lemma {:induction false} StepKeepsInv(s: State, e: Event)
    requires Inv(s) && e != Boot(false)
    ensures Inv(Step(s, e))
  {
    hide Step, Core;
    StepKeepsCore(s, e);
    StepKeepsOnce(s, e);
  }

  lemma {:induction false} RunKeepsInv(s: State, es: seq<Event>)
    requires Inv(s) && Seeded(es)
    ensures Inv(Run(s, es))
  {
    if es != [] {
      RunKeepsInv(s, es[..|es| - 1]);
      StepKeepsInv(Run(s, es[..|es| - 1]), es[|es| - 1]);
    }
  }

  lemma {:induction false} InitInv()
    ensures Inv(INIT)
  {
  }
}
