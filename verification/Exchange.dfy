/**
 The host/container session exchange as a step system over the shared tables. The host, the
 container and other writers of `inbound.db` interleave freely; either side may stop at any
 point. An event that is not enabled leaves the state unchanged.

 `commits` and `returned` are history: every batch ever committed, and every row `run_turn`
 ever handed to its caller.
 */
module Exchange {
  import opened Wrappers
  import opened Session
  import opened Turn

  /** A container life: its in-memory `handled` set and the rest of the inbound snapshot it walks. */
  datatype RunnerState = Stopped | Running(handled: set<nat>, pending: seq<InRow>)

  /**
   A host process. `Cold` has not read the delivered watermark back yet. `Marking` is inside one
   poll: `batch` is what the snapshot held above the watermark, `done` of it is marked.
   */
  datatype HostState =
    | Cold
    | Idle(mark: nat)
    | Waiting(mark: nat, inSeq: nat)
    | Marking(mark: nat, inSeq: nat, batch: seq<OutRow>, done: nat)

  datatype Commit = Commit(inSeq: nat, rows: seq<OutRow>)

  datatype State = State(t: Tables, runner: RunnerState, host: HostState, commits: seq<Commit>, returned: seq<OutRow>)

  datatype Event =
    // Other writers of inbound.db
    | Post(m: Message, key: Option<string>)
    | PutMeta(k: string, m: Message)
    // Container
    | Boot(seeded: bool)
    | PollInbound
    | Take(result: TurnResult, committed: bool)
    | Die
    // Host
    | Hydrate
    | Begin(m: Message, key: Option<string>)
    | Snapshot
    | Mark
    | Finish
    | Abort
    | Restart

  const INIT := State(Tables([], {}, [], {}), Stopped, Cold, [], [])

  /** The container handles the head of its snapshot: skip it, note a meta row, or run a turn. */
  function TakeHead(s: State, result: TurnResult, committed: bool): State
    requires s.runner.Running? && s.runner.pending != []
  {
    var row := s.runner.pending[0];
    var handled := s.runner.handled;
    var rest := s.runner.pending[1..];
    if row.seqNo in handled then s.(runner := Running(handled, rest))
    else if row.IsMeta() then s.(runner := Running(handled + {row.seqNo}, rest))
    else if !committed then s.(runner := Running(handled, rest))
    else
      var t := EmitRows(s.t, BatchOf(result), row.seqNo);
      s.(t := t, runner := Running(handled + {row.seqNo}, rest),
         commits := s.commits + [Commit(row.seqNo, t.outbox[|s.t.outbox|..])])
  }

  /** One poll's read: rows above the in-memory watermark start being marked. */
  function TakeSnapshot(s: State): State
    requires s.host.Waiting?
  {
    var batch := Above(s.t.outbox, s.host.mark);
    if batch == [] then s else s.(host := Marking(s.host.mark, s.host.inSeq, batch, 0))
  }

  function MarkNext(s: State): State
    requires s.host.Marking? && s.host.done < |s.host.batch|
  {
    var n := s.host.batch[s.host.done].seqNo;
    s.(t := s.t.(delivered := s.t.delivered + {n}),
       host := s.host.(mark := if n > s.host.mark then n else s.host.mark, done := s.host.done + 1))
  }

  /** All of the batch is marked: return our rows, or keep polling when it was backlog only. */
  function FinishPoll(s: State): State
    requires s.host.Marking?
  {
    var mine := RowsFor(s.host.batch, s.host.inSeq);
    if mine == [] then s.(host := Waiting(s.host.mark, s.host.inSeq))
    else s.(host := Idle(s.host.mark), returned := s.returned + mine)
  }

  ghost function Step(s: State, e: Event): State {
    match e
    case Post(m, key) => s.(t := Enqueue(s.t, m, key).0)
    case PutMeta(k, m) => s.(t := Upsert(s.t, k, m).0)
    case Boot(seeded) =>
      if s.runner.Stopped? then s.(runner := Running(if seeded then s.t.acks else {}, [])) else s
    case PollInbound =>
      if s.runner.Running? && s.runner.pending == [] then s.(runner := s.runner.(pending := s.t.inbox)) else s
    case Take(result, committed) =>
      if s.runner.Running? && s.runner.pending != [] then TakeHead(s, result, committed) else s
    case Die => s.(runner := Stopped)
    case Hydrate => if s.host.Cold? then s.(host := Idle(StoredMark(s.t))) else s
    case Begin(m, key) =>
      if s.host.Idle? then
        var (t, q) := Enqueue(s.t, m, key);
        s.(t := t, host := Waiting(s.host.mark, q))
      else s
    case Snapshot => if s.host.Waiting? then TakeSnapshot(s) else s
    case Mark => if s.host.Marking? && s.host.done < |s.host.batch| then MarkNext(s) else s
    case Finish => if s.host.Marking? && s.host.done == |s.host.batch| then FinishPoll(s) else s
    case Abort => if s.host.Waiting? || s.host.Marking? then s.(host := Idle(s.host.mark)) else s
    case Restart => s.(host := Cold)
  }

  ghost function Run(s: State, es: seq<Event>): State {
    if es == [] then s else Step(Run(s, es[..|es| - 1]), es[|es| - 1])
  }

  /** Every container start read its processed set back. */
  predicate Seeded(es: seq<Event>) {
    forall i | 0 <= i < |es| :: es[i] != Boot(false)
  }

  // ---- The invariant ----

  ghost function StoredMark(t: Tables): nat { Watermark(t.delivered) }

  /** How many outbound rows a watermark covers, when seqs are 1, 3, 5, ... */
  function Covered(mark: nat): nat { (mark + 1) / 2 }

  function Flat(commits: seq<Commit>): seq<OutRow> {
    if commits == [] then [] else Flat(commits[..|commits| - 1]) + commits[|commits| - 1].rows
  }

  ghost predicate IsTurn(inbox: seq<InRow>, q: nat) {
    q % 2 == 0 && q / 2 < |inbox| && !inbox[q / 2].IsMeta()
  }

  ghost predicate InboxOk(t: Tables) {
    forall i | 0 <= i < |t.inbox| :: t.inbox[i].seqNo == 2 * i
  }

  ghost predicate OutboxOk(t: Tables) {
    forall i | 0 <= i < |t.outbox| :: t.outbox[i].seqNo == 2 * i + 1
  }

  /** The outbox is the committed batches laid end to end; no batch is empty. */
  ghost predicate CommitsOk(t: Tables, commits: seq<Commit>) {
    && t.outbox == Flat(commits)
    && (forall i | 0 <= i < |commits| :: commits[i].rows != [])
    && (forall i, k | 0 <= i < |commits| && 0 <= k < |commits[i].rows| :: commits[i].rows[k].inSeq == Some(commits[i].inSeq))
  }

  ghost predicate DistinctTurns(commits: seq<Commit>) {
    forall i, j | 0 <= i < j < |commits| :: commits[i].inSeq != commits[j].inSeq
  }

  /** A row is acked exactly when a batch was committed for it, and only turn-driving rows are. */
  ghost predicate AcksOk(t: Tables, commits: seq<Commit>) {
    && t.acks == (set c | c in commits :: c.inSeq)
    && (forall q | q in t.acks :: IsTurn(t.inbox, q))
  }

  ghost predicate RunnerOk(t: Tables, runner: RunnerState) {
    runner.Running? ==>
      && (forall q | q in runner.handled && q !in t.acks :: q % 2 == 0 && q / 2 < |t.inbox| && t.inbox[q / 2].IsMeta())
      && (forall i | 0 <= i < |runner.pending| :: SeenIn(t.inbox, runner.pending[i]))
  }

  ghost predicate SeenIn(inbox: seq<InRow>, row: InRow) {
    row.seqNo % 2 == 0 && row.seqNo / 2 < |inbox| && inbox[row.seqNo / 2].IsMeta() == row.IsMeta()
  }

  /** The delivered table is a prefix of the outbox: no gap below the watermark, nothing above it. */
  ghost predicate DeliveredOk(t: Tables) {
    var d := Covered(StoredMark(t));
    d <= |t.outbox| && forall x: nat :: x in t.delivered <==> x % 2 == 1 && x < 2 * d
  }

  ghost predicate HostOk(t: Tables, host: HostState) {
    && (!host.Cold? ==> host.mark == StoredMark(t))
    && (host.Waiting? || host.Marking? ==> host.inSeq % 2 == 0 && host.inSeq / 2 < |t.inbox|)
    && (host.Marking? ==>
          && host.batch != [] && host.done <= |host.batch| && host.done <= Covered(host.mark)
          && Settled(t, host) + |host.batch| <= |t.outbox|
          && host.batch == t.outbox[Settled(t, host)..Settled(t, host) + |host.batch|])
  }

  /** How many rows were delivered before the poll in progress, if there is one. */
  ghost function Settled(t: Tables, host: HostState): nat
    requires host.Marking? ==> host.done <= Covered(host.mark)
  {
    if host.Marking? then Covered(host.mark) - host.done else Covered(StoredMark(t))
  }

  ghost predicate Increasing(rows: seq<OutRow>) {
    forall i, j | 0 <= i < j < |rows| :: rows[i].seqNo < rows[j].seqNo
  }

  /** Returned rows are delivered outbox rows in strictly increasing order, so none comes back twice. */
  ghost predicate ReturnedOk(s: State)
    requires HostOk(s.t, s.host)
  {
    && Increasing(s.returned)
    && (forall i | 0 <= i < |s.returned| :: s.returned[i] in s.t.outbox && s.returned[i].seqNo < 2 * Settled(s.t, s.host))
  }

  /** What every step keeps, whether container starts were seeded or not. */
  ghost predicate Core(s: State) {
    && InboxOk(s.t) && OutboxOk(s.t) && CommitsOk(s.t, s.commits) && AcksOk(s.t, s.commits)
    && RunnerOk(s.t, s.runner) && DeliveredOk(s.t) && HostOk(s.t, s.host) && ReturnedOk(s)
  }

  /** What an unseeded start can break: one batch per inbound row, and a runner that knows every ack. */
  ghost predicate Once(s: State) {
    DistinctTurns(s.commits) && (s.runner.Running? ==> s.t.acks <= s.runner.handled)
  }

  ghost predicate Inv(s: State) { Core(s) && Once(s) }
}
