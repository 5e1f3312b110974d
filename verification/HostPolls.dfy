/**
 What a turn is up against: how its session operations, reads and marks fare and what others do
 meanwhile, poll by poll; and which of five ends each poll has, as a matter of that script and of
 the tables alone.
 */
module HostPolls {
  import opened Wrappers
  import opened Session
  import opened Turn
  import opened Exchange

  /** How one attempt at a session operation ends. */
  datatype Attempt = Done | Transient | Hard

  const RETRIES := 4

  /** The attempts a retried operation consumes: up to the first that is not transient, five at most. */
  function Consumed(attempts: seq<Attempt>): (n: nat)
    ensures n <= RETRIES + 1
  {
    FirstSettled(attempts, RETRIES) + 1
  }

  /** Index of the first attempt that is not transient, or `limit`. A script that runs out succeeds. */
  function FirstSettled(attempts: seq<Attempt>, limit: nat): (i: nat)
    ensures i <= limit
    ensures forall k | 0 <= k < i && k < |attempts| :: attempts[k] == Transient
    ensures i < limit && i < |attempts| ==> attempts[i] != Transient
  {
    if limit == 0 || attempts == [] || attempts[0] != Transient then 0
    else 1 + FirstSettled(attempts[1..], limit - 1)
  }

  function AttemptAt(attempts: seq<Attempt>, i: nat): Attempt {
    if i < |attempts| then attempts[i] else Done
  }

  /** Retried as `RetryTransient` does, the operation succeeds. */
  predicate Settles(attempts: seq<Attempt>) {
    AttemptAt(attempts, FirstSettled(attempts, RETRIES)) == Done
  }

  lemma {:induction false} FirstSettledAt(attempts: seq<Attempt>, limit: nat, i: nat)
    requires i < limit && FirstSettled(attempts, limit) >= i
    ensures FirstSettled(attempts, limit) == i <==> AttemptAt(attempts, i) != Transient
  {
    if i > 0 {
      FirstSettledAt(attempts[1..], limit - 1, i - 1);
    }
  }

  datatype HostError = SessionFailed | SpawnRefused | ContainerDied | TimedOut

  /** What a read of outbound.db gives: the rows, a transient SQLite error, or a hard error. */
  datatype Read = Rows | Busy | Broken

  /** One iteration of the poll loop, with what other processes do before the read and before each mark. */
  datatype Poll = Poll(stale: bool, before: seq<Event>, read: Read, between: seq<seq<Event>>, marks: seq<seq<Attempt>>, expired: bool)

  datatype Script = Script(setup: seq<Attempt>, hydrate: seq<Attempt>, enqueue: seq<Attempt>, spawnRefused: bool, polls: seq<Poll>)

  /** Steps of anyone but the host. */
  predicate IsOther(e: Event) {
    e.Post? || e.PutMeta? || e.Boot? || e.PollInbound? || e.Take? || e.Die?
  }

  predicate OthersOnly(es: seq<Event>) {
    forall i | 0 <= i < |es| :: IsOther(es[i])
  }

  predicate OthersDuring(poll: Poll) {
    OthersOnly(poll.before) && forall k | 0 <= k < |poll.between| :: OthersOnly(poll.between[k])
  }

  predicate Legal(script: Script) {
    forall i | 0 <= i < |script.polls| :: OthersDuring(script.polls[i])
  }

  /** Every container start during the poll reads its processed set back. */
  predicate SeededDuring(poll: Poll) {
    Seeded(poll.before) && forall k | 0 <= k < |poll.between| :: Seeded(poll.between[k])
  }

  predicate SeededScript(script: Script) {
    forall i | 0 <= i < |script.polls| :: SeededDuring(script.polls[i])
  }

  /** No mark of any poll keeps failing. */
  predicate NoMarkFails(script: Script) {
    forall i | 0 <= i < |script.polls| :: forall k | 0 <= k < |script.polls[i].marks| :: Settles(script.polls[i].marks[k])
  }

  // ---- one poll ----

  function MarkAttempts(poll: Poll, k: nat): seq<Attempt> { if k < |poll.marks| then poll.marks[k] else [] }

  function Meanwhile(poll: Poll, k: nat): seq<Event> { if k < |poll.between| then poll.between[k] else [] }

  /** The rows the poll's read finds above the watermark; a busy database reads as empty. */
  ghost function Unread(s: State, poll: Poll): seq<OutRow> {
    if s.host.Waiting? && poll.read == Rows then Above(Run(s, poll.before).t.outbox, s.host.mark) else []
  }

  predicate MarksSettle(poll: Poll, n: nat) {
    forall k | 0 <= k < n :: Settles(MarkAttempts(poll, k))
  }

  function MarkSteps(poll: Poll, n: nat): seq<Event> {
    if n == 0 then [] else MarkSteps(poll, n - 1) + Meanwhile(poll, n - 1) + [Mark]
  }

  /** The steps of a poll after which the turn goes on. */
  ghost function QuietSteps(s: State, poll: Poll): seq<Event> {
    var n := |Unread(s, poll)|;
    poll.before + if n == 0 then [] else [Snapshot] + MarkSteps(poll, n) + [Finish]
  }

  /** The session fails: the read is refused, or a mark keeps failing. */
  ghost predicate Breaks(s: State, poll: Poll) {
    !poll.stale && (poll.read == Broken || !MarksSettle(poll, |Unread(s, poll)|))
  }

  /** All that was read is marked and some of it is ours. */
  ghost predicate Answers(s: State, poll: Poll, q: nat) {
    !poll.stale && poll.read == Rows && MarksSettle(poll, |Unread(s, poll)|) && RowsFor(Unread(s, poll), q) != []
  }

  /** All that was read is marked and none of it is ours. */
  ghost predicate Quiet(s: State, poll: Poll, q: nat) {
    !poll.stale && poll.read != Broken && MarksSettle(poll, |Unread(s, poll)|) && RowsFor(Unread(s, poll), q) == []
  }

  // ---- the polls of a turn ----

  /** The state at the start of poll `i`, when the polls before it were quiet. */
  ghost function StateAt(s1: State, polls: seq<Poll>, i: nat): State
    requires i <= |polls|
  {
    if i == 0 then s1
    else
      var s := StateAt(s1, polls, i - 1);
      Run(s, QuietSteps(s, polls[i - 1]))
  }

  /** The turn comes to poll `i`: every poll before it was quiet, with the deadline not passed. */
  ghost predicate Reached(s1: State, polls: seq<Poll>, q: nat, i: nat)
    requires i <= |polls|
  {
    forall j | 0 <= j < i :: Quiet(StateAt(s1, polls, j), polls[j], q) && !polls[j].expired
  }

  /** Which poll ends the turn, and how, for each of its outcomes; running out of polls is a timeout. */
  ghost predicate EndsAs(s1: State, polls: seq<Poll>, q: nat, r: Result<seq<OutRow>, HostError>) {
    && (r.Ok? <==> exists i :: 0 <= i < |polls| && Reached(s1, polls, q, i) && Answers(StateAt(s1, polls, i), polls[i], q))
    && (r == Err(ContainerDied) <==> exists i :: 0 <= i < |polls| && Reached(s1, polls, q, i) && polls[i].stale)
    && (r == Err(SessionFailed) <==> exists i :: 0 <= i < |polls| && Reached(s1, polls, q, i) && Breaks(StateAt(s1, polls, i), polls[i]))
    && (r == Err(TimedOut) <==>
          Reached(s1, polls, q, |polls|)
          || exists i :: 0 <= i < |polls| && Reached(s1, polls, q, i) && Quiet(StateAt(s1, polls, i), polls[i], q) && polls[i].expired)
    && (forall i | 0 <= i < |polls| && Reached(s1, polls, q, i) && Answers(StateAt(s1, polls, i), polls[i], q) ::
          r == Ok(RowsFor(Unread(StateAt(s1, polls, i), polls[i]), q)))
  }

  /** How poll `i` ends the turn. */
  ghost predicate EndsAt(s: State, poll: Poll, q: nat, r: Result<seq<OutRow>, HostError>) {
    || (poll.stale && r == Err(ContainerDied))
    || (Breaks(s, poll) && r == Err(SessionFailed))
    || (Answers(s, poll, q) && r == Ok(RowsFor(Unread(s, poll), q)))
    || (Quiet(s, poll, q) && poll.expired && r == Err(TimedOut))
  }

  /** The ends of a poll, case by case: exactly one of them applies, or the turn goes on. */
  lemma {:induction false} PollCases(s: State, poll: Poll, q: nat)
    ensures poll.stale ==> !Quiet(s, poll, q) && EndsAt(s, poll, q, Err(ContainerDied))
    ensures !poll.stale && poll.read == Broken ==> !Quiet(s, poll, q) && EndsAt(s, poll, q, Err(SessionFailed))
    ensures !poll.stale && poll.read != Broken ==>
              var unread := Unread(s, poll);
              && (!MarksSettle(poll, |unread|) ==> !Quiet(s, poll, q) && EndsAt(s, poll, q, Err(SessionFailed)))
              && (MarksSettle(poll, |unread|) && RowsFor(unread, q) != [] ==>
                    !Quiet(s, poll, q) && EndsAt(s, poll, q, Ok(RowsFor(unread, q))))
              && (MarksSettle(poll, |unread|) && RowsFor(unread, q) == [] ==>
                    Quiet(s, poll, q) && (poll.expired ==> EndsAt(s, poll, q, Err(TimedOut))))
  {
    assert RowsFor([], q) == [];
    hide RowsFor, MarksSettle, Run;
  }

  lemma {:induction false} QuietStepsOf(s: State, poll: Poll)
    ensures Unread(s, poll) == [] ==> QuietSteps(s, poll) == poll.before && MarksSettle(poll, 0)
    ensures Unread(s, poll) != [] ==>
              QuietSteps(s, poll) == poll.before + ([Snapshot] + MarkSteps(poll, |Unread(s, poll)|) + [Finish])
  {
    hide MarkSteps, Unread;
    assert poll.before + [] == poll.before;
  }

  lemma {:induction false} FirstReached(s1: State, polls: seq<Poll>, q: nat)
    ensures Reached(s1, polls, q, 0) && StateAt(s1, polls, 0) == s1
  {
  }

  lemma {:induction false} NextReached(s1: State, polls: seq<Poll>, q: nat, i: nat)
    requires i < |polls| && Reached(s1, polls, q, i) && Quiet(StateAt(s1, polls, i), polls[i], q) && !polls[i].expired
    ensures Reached(s1, polls, q, i + 1)
    ensures StateAt(s1, polls, i + 1) == Run(StateAt(s1, polls, i), QuietSteps(StateAt(s1, polls, i), polls[i]))
  {
    hide Run, QuietSteps, Quiet;
  }

  lemma {:induction false} DiedIffStale(s: State, poll: Poll, q: nat, r: Result<seq<OutRow>, HostError>)
    requires EndsAt(s, poll, q, r)
    ensures (r == Err(ContainerDied) <==> poll.stale) && r != Err(SpawnRefused)
  {
  }

  lemma {:induction false} NoMarkFailsHere(script: Script, i: nat, n: nat)
    requires i < |script.polls|
    ensures NoMarkFails(script) ==> MarksSettle(script.polls[i], n)
  {
  }

  lemma {:induction false} PassedWhenReached(s1: State, polls: seq<Poll>, q: nat, i: nat, j: nat)
    requires i < |polls| && j <= |polls| && Reached(s1, polls, q, j)
    ensures i < j ==> Quiet(StateAt(s1, polls, i), polls[i], q) && !polls[i].expired
  {
  }

  lemma {:induction false} EndsAtOnce(s1: State, polls: seq<Poll>, q: nat, i: nat, r: Result<seq<OutRow>, HostError>)
    requires i < |polls| && Reached(s1, polls, q, i) && EndsAt(StateAt(s1, polls, i), polls[i], q, r)
    ensures EndsAs(s1, polls, q, r)
  {
    hide StateAt, Unread, RowsFor, MarksSettle;
    forall j | 0 <= j <= |polls| && Reached(s1, polls, q, j) ensures j <= i {
      PassedWhenReached(s1, polls, q, i, j);
    }
    forall j | 0 <= j < i ensures Quiet(StateAt(s1, polls, j), polls[j], q) && !polls[j].expired {}
  }

  lemma {:induction false} EndsWithoutAnswer(s1: State, polls: seq<Poll>, q: nat)
    requires Reached(s1, polls, q, |polls|)
    ensures EndsAs(s1, polls, q, Err(TimedOut))
  {
    hide StateAt, Unread, RowsFor, MarksSettle;
    forall j | 0 <= j < |polls| ensures Quiet(StateAt(s1, polls, j), polls[j], q) && !polls[j].expired {}
  }
}
