/**
 Approvals: request, decide, sweep. Expiry is enforced twice, lazily when an approval is decided
 and eagerly by a sweep. Rows are never deleted, so the approval with id n is the n-th row.
 */
module Approvals {
  import opened Wrappers

  /** A stored status or kind the code does not know is unreadable. */
  datatype Status = Pending | Granted | Denied | Expired | Unknown

  /** The expiry text: absent, a decimal number, or text that is not one but that SQL casts to a number. */
  datatype Expiry = Never | At(time: int) | Malformed(cast: int)

  datatype Approval = Approval(kindKnown: bool, subject: string, status: Status, requestedBy: Option<int>, expiry: Expiry) {
    predicate Readable() { kindKnown && !status.Unknown? && !expiry.Malformed? }

    /** What the sweep's WHERE clause selects. */
    predicate Due(now: int) {
      && status.Pending?
      && match expiry
         case Never => false
         case At(t) => t <= now
         case Malformed(t) => t <= now
    }
  }

  datatype Error = NotAuthorized | NotFound | NotDecidable | WasExpired | UnknownEnum

  datatype State = State(rows: seq<Approval>, admins: set<int>)

  // ---- operations ----

  function Request(s: State, subject: string, requester: Option<int>, expires: Option<int>): State {
    var expiry := match expires case None => Never case Some(t) => At(t);
    s.(rows := s.rows + [Approval(true, subject, Pending, requester, expiry)])
  }

  function SetStatus(s: State, id: nat, status: Status): State
    requires 1 <= id <= |s.rows|
  {
    s.(rows := s.rows[id - 1 := s.rows[id - 1].(status := status)])
  }

  /** Grant or deny, as of `now`. */
  function Decide(s: State, approver: int, id: nat, now: int, grant: bool): (State, Result<(), Error>) {
    if approver !in s.admins then (s, Err(NotAuthorized))
    else if !(1 <= id <= |s.rows|) then (s, Err(NotFound))
    else
      var row := s.rows[id - 1];
      if !row.Readable() then (s, Err(UnknownEnum))
      else if !row.status.Pending? then (s, Err(NotDecidable))
      else if row.expiry.At? && row.expiry.time <= now then (SetStatus(s, id, Expired), Err(WasExpired))
      else (SetStatus(s, id, if grant then Granted else Denied), Ok(()))
  }

  function SweepRow(row: Approval, now: int): Approval {
    if row.Due(now) then row.(status := Expired) else row
  }

  function Sweep(s: State, now: int): State {
    s.(rows := seq(|s.rows|, i requires 0 <= i < |s.rows| => SweepRow(s.rows[i], now)))
  }

  function PendingPastExpiry(rows: seq<Approval>, now: int): nat {
    if rows == [] then 0
    else PendingPastExpiry(rows[..|rows| - 1], now) + if rows[|rows| - 1].Due(now) then 1 else 0
  }

  class ApprovalStore {
    var rows: seq<Approval>
    var admins: set<int>

    function View(): State
      reads this
    {
      State(rows, admins)
    }

    constructor (admins: set<int>)
      ensures View() == State([], admins)
    {
      this.admins, rows := admins, [];
    }

    method RequestApproval(subject: string, requester: Option<int>, expires: Option<int>) returns (id: nat)
      modifies this
      ensures View() == Request(old(View()), subject, requester, expires) && id == |rows|
      ensures admins == old(admins)
      ensures rows == old(rows) + [Approval(true, subject, Pending, requester, if expires.Some? then At(expires.value) else Never)]
    {
      var expiry := Never;
      if expires.Some? {
        expiry := At(expires.value);
      }
      rows := rows + [Approval(true, subject, Pending, requester, expiry)];
      id := |rows|;
    }

    method DecideApproval(approver: int, id: nat, now: int, grant: bool) returns (r: Result<(), Error>)
      modifies this
      ensures (View(), r) == Decide(old(View()), approver, id, now, grant)
      ensures r == if approver !in old(admins) then Err(NotAuthorized)
                   else if !(1 <= id <= |old(rows)|) then Err(NotFound)
                   else
                     var row := old(rows)[id - 1];
                     if !row.kindKnown || row.status.Unknown? || row.expiry.Malformed? then Err(UnknownEnum)
                     else if row.status != Pending then Err(NotDecidable)
                     else if row.expiry.At? && row.expiry.time <= now then Err(WasExpired)
                     else Ok(())
      ensures admins == old(admins)
      ensures r.Err? && r.error != WasExpired ==> rows == old(rows)
      ensures r == Err(WasExpired) ==> rows == old(rows)[id - 1 := old(rows)[id - 1].(status := Expired)]
      ensures r.Ok? ==> rows == old(rows)[id - 1 := old(rows)[id - 1].(status := if grant then Granted else Denied)]
    {
      if approver !in admins {
        return Err(NotAuthorized);
      }
      if !(1 <= id <= |rows|) {
        return Err(NotFound);
      }
      var row := rows[id - 1];
      if !row.Readable() {
        return Err(UnknownEnum);
      }
      if row.status != Pending {
        return Err(NotDecidable);
      }
      if row.expiry.At? && row.expiry.time <= now {
        rows := rows[id - 1 := row.(status := Expired)];
        return Err(WasExpired);
      }
      rows := rows[id - 1 := row.(status := if grant then Granted else Denied)];
      return Ok(());
    }

    method SweepExpired(now: int) returns (swept: nat)
      modifies this
      ensures View() == Sweep(old(View()), now)
      ensures swept == PendingPastExpiry(old(rows), now)
      ensures PendingPastExpiry(rows, now) == 0
      ensures |rows| == |old(rows)| && admins == old(admins)
      ensures forall i | 0 <= i < |rows| ::
                rows[i] == if PastExpiry(old(rows)[i], now) then old(rows)[i].(status := Expired) else old(rows)[i]
      ensures swept == |set i | 0 <= i < |old(rows)| && PastExpiry(old(rows)[i], now)|
    {
      DueRows(rows, now);
      swept := 0;
      for i := 0 to |rows|
        invariant |rows| == |old(rows)| && admins == old(admins)
        invariant forall k | 0 <= k < i :: rows[k] == SweepRow(old(rows)[k], now)
        invariant forall k | i <= k < |rows| :: rows[k] == old(rows)[k]
        invariant swept == PendingPastExpiry(old(rows)[..i], now)
      {
        assert old(rows)[..i + 1][..i] == old(rows)[..i];
        if rows[i].Due(now) {
          rows := rows[i := rows[i].(status := Expired)];
          swept := swept + 1;
        }
      }
      assert old(rows)[..|rows|] == old(rows);
      NoneDue(rows, now);
    }

    method CountPendingPastExpiry(now: int) returns (n: nat)
      ensures n == PendingPastExpiry(rows, now)
      ensures n == |set i | 0 <= i < |rows| && PastExpiry(rows[i], now)|
    {
      DueRows(rows, now);
      n := 0;
      for i := 0 to |rows|
        invariant n == PendingPastExpiry(rows[..i], now)
      {
        assert rows[..i + 1][..i] == rows[..i];
        if rows[i].Due(now) { n := n + 1; }
      }
      assert rows[..|rows|] == rows;
    }
  }

  // ---- sweeps ----

  /** Pending, with an expiry whose number is at or before `now`. */
  predicate PastExpiry(row: Approval, now: int) {
    row.status == Pending && ((row.expiry.At? && row.expiry.time <= now) || (row.expiry.Malformed? && row.expiry.cast <= now))
  }

  lemma {:induction false} DueRows(rows: seq<Approval>, now: int)
    ensures forall row: Approval :: row.Due(now) <==> PastExpiry(row, now)
    ensures PendingPastExpiry(rows, now) == |set i | 0 <= i < |rows| && PastExpiry(rows[i], now)|
  {
    if rows != [] {
      var n := |rows| - 1;
      DueRows(rows[..n], now);
      var before := set i | 0 <= i < n && PastExpiry(rows[..n][i], now);
      var after := set i | 0 <= i < |rows| && PastExpiry(rows[i], now);
      assert after == before + if PastExpiry(rows[n], now) then {n} else {};
    }
  }


  lemma {:induction false} NoneDue(rows: seq<Approval>, now: int)
    requires forall i | 0 <= i < |rows| :: !rows[i].Due(now)
    ensures PendingPastExpiry(rows, now) == 0
  {
    if rows != [] { NoneDue(rows[..|rows| - 1], now); }
  }

  /** Two sweeps are one at the later time, and between them they count each approval once. */
  lemma {:induction false} SweepsCompose(s: State, first: int, second: int)
    ensures Sweep(Sweep(s, first), second) == Sweep(s, if first < second then second else first)
    ensures PendingPastExpiry(s.rows, first) + PendingPastExpiry(Sweep(s, first).rows, second)
         == PendingPastExpiry(s.rows, if first < second then second else first)
  {
    var last := if first < second then second else first;
    assert Sweep(Sweep(s, first), second).rows == Sweep(s, last).rows;
    SweepCounts(s.rows, Sweep(s, first).rows, first, second);
  }

  lemma {:induction false} SweepCounts(rows: seq<Approval>, swept: seq<Approval>, first: int, second: int)
    requires |swept| == |rows| && forall i | 0 <= i < |rows| :: swept[i] == SweepRow(rows[i], first)
    ensures PendingPastExpiry(rows, first) + PendingPastExpiry(swept, second)
         == PendingPastExpiry(rows, if first < second then second else first)
  {
    if rows != [] {
      var n := |rows| - 1;
      SweepCounts(rows[..n], swept[..n], first, second);
    }
  }

  // ---- lazy and eager expiry ----

  /** The decision would be accepted at `now`, and the sweep at `later` would have pre-empted it. */
  predicate Preempted(s: State, approver: int, id: nat, now: int, later: int) {
    && approver in s.admins && 1 <= id <= |s.rows|
    && var row := s.rows[id - 1];
       row.Readable() && row.status.Pending? && row.expiry.At? && now < row.expiry.time <= later
  }

  /**
   A decision at `now` and a sweep at `later` commute on the table, unreadable rows included, if
   and only if the sweep's time does not lie past the expiry of an approval the decision settles.
   */
  lemma {:induction false} DecideAndSweepCommuteIff(s: State, approver: int, id: nat, now: int, later: int, grant: bool)
    ensures Sweep(Decide(s, approver, id, now, grant).0, later) == Decide(Sweep(s, later), approver, id, now, grant).0
            <==> !Preempted(s, approver, id, now, later)
  {
    var a := Sweep(Decide(s, approver, id, now, grant).0, later);
    var b := Decide(Sweep(s, later), approver, id, now, grant).0;
    forall i | 0 <= i < |s.rows| && i != id - 1 ensures a.rows[i] == b.rows[i] {}
    if 1 <= id <= |s.rows| {
      assert a.rows[id - 1] == b.rows[id - 1] <==> !Preempted(s, approver, id, now, later);
    }
    if !Preempted(s, approver, id, now, later) {
      assert a.rows == b.rows;
    }
  }

  /** With one clock reading, lazy and eager expiry agree on every table. */
  lemma {:induction false} LazyAndEagerExpiryAgree(s: State, approver: int, id: nat, now: int, grant: bool)
    ensures Sweep(Decide(s, approver, id, now, grant).0, now) == Decide(Sweep(s, now), approver, id, now, grant).0
    ensures Decide(s, approver, id, now, grant).1.Ok? <==> Decide(Sweep(s, now), approver, id, now, grant).1.Ok?
  {
    DecideAndSweepCommuteIff(s, approver, id, now, now, grant);
  }

  // ---- runs ----

  datatype Op =
    | OpRequest(subject: string, requester: Option<int>, expires: Option<int>)
    | OpDecide(approver: int, id: nat, now: int, grant: bool)
    | OpSweep(now: int)
    | OpAdmins(admins: set<int>)

  function Step(s: State, op: Op): State {
    match op
    case OpRequest(subject, requester, expires) => Request(s, subject, requester, expires)
    case OpDecide(approver, id, now, grant) => Decide(s, approver, id, now, grant).0
    case OpSweep(now) => Sweep(s, now)
    case OpAdmins(admins) => s.(admins := admins)
  }

  function Run(s: State, ops: seq<Op>): State {
    if ops == [] then s else Step(Run(s, ops[..|ops| - 1]), ops[|ops| - 1])
  }

  /** A row keeps everything but its status, and a status that is not pending is final. */
  lemma {:induction false} SettledIsFinal(s: State, ops: seq<Op>, i: nat)
    requires i < |s.rows|
    ensures |s.rows| <= |Run(s, ops).rows|
    ensures Run(s, ops).rows[i] == s.rows[i].(status := Run(s, ops).rows[i].status)
    ensures !s.rows[i].status.Pending? ==> Run(s, ops).rows[i] == s.rows[i]
  {
    if ops != [] {
      SettledIsFinal(s, ops[..|ops| - 1], i);
    }
  }

  /** Step `k` is an admin's own grant of approval `id`, strictly before its expiry. */
  ghost predicate GrantedAt(s: State, ops: seq<Op>, id: nat, k: nat) {
    && k < |ops| && ops[k].OpDecide? && ops[k].grant && ops[k].id == id
    && var before := Run(s, ops[..k]);
       && ops[k].approver in before.admins && 1 <= id <= |before.rows|
       && before.rows[id - 1].status.Pending? && before.rows[id - 1].Readable()
       && (before.rows[id - 1].expiry.At? ==> ops[k].now < before.rows[id - 1].expiry.time)
  }

  lemma {:induction false} GrantedAtPrefix(s: State, ops: seq<Op>, id: nat, k: nat, n: nat)
    requires n <= |ops| && GrantedAt(s, ops[..n], id, k)
    ensures GrantedAt(s, ops, id, k)
  {
    assert ops[..n][..k] == ops[..k];
  }

  lemma {:induction false} RunGrows(s: State, ops: seq<Op>)
    ensures |s.rows| <= |Run(s, ops).rows|
  {
    if ops != [] { RunGrows(s, ops[..|ops| - 1]); }
  }

  /** Only a grant of that very approval turns it granted. */
  lemma {:induction false} StepGrants(s: State, op: Op, id: nat)
    requires 1 <= id <= |Step(s, op).rows| && Step(s, op).rows[id - 1].status.Granted?
    requires |s.rows| < id || !s.rows[id - 1].status.Granted?
    ensures GrantedAt(s, [op], id, 0)
  {
    assert [op][..0] == [];
  }

  /** Whatever the run and whatever the table it starts from, an approval becomes granted only by an admin's grant before its expiry. */
  lemma {:induction false} GrantedOnlyByAdminInTime(s: State, ops: seq<Op>, id: nat) returns (k: nat)
    requires 1 <= id <= |Run(s, ops).rows| && Run(s, ops).rows[id - 1].status.Granted?
    requires |s.rows| < id || !s.rows[id - 1].status.Granted?
    ensures GrantedAt(s, ops, id, k)
  {
    var n := |ops| - 1;
    var before := Run(s, ops[..n]);
    RunGrows(s, ops[..n]);
    if id <= |before.rows| && before.rows[id - 1].status.Granted? {
      k := GrantedOnlyByAdminInTime(s, ops[..n], id);
      GrantedAtPrefix(s, ops, id, k, n);
    } else {
      k := n;
      StepGrants(before, ops[n], id);
    }
  }

  lemma {:induction false} RunSplit(s: State, ops: seq<Op>, k: nat)
    requires k <= |ops|
    ensures Run(s, ops) == Run(Run(s, ops[..k]), ops[k..])
  {
    if k < |ops| {
      var n := |ops| - 1;
      RunSplit(s, ops[..n], k);
      assert ops[..n][..k] == ops[..k] && ops[k..][..n - k] == ops[..n][k..];
    } else {
      assert ops[..k] == ops;
    }
  }

  /**
   An approval leaves pending at most once, whenever it was requested: after a step that changes
   row `i`, no later step of the run does.
   */
  lemma {:induction false} LeavesPendingOnce(s: State, ops: seq<Op>, i: nat, j: nat, k: nat)
    requires j < k < |ops| && i < |Run(s, ops[..j]).rows|
    requires var b := Run(s, ops[..j + 1]).rows; i < |b| ==> Run(s, ops[..j]).rows[i] != b[i]
    ensures var c, d := Run(s, ops[..k]).rows, Run(s, ops[..k + 1]).rows;
            i < |c| && i < |d| && c[i] == d[i]
  {
    var a, b := Run(s, ops[..j]), Run(s, ops[..j + 1]);
    assert ops[..j + 1][..j] == ops[..j];
    SettledIsFinal(a, [ops[j]], i);
    assert [ops[j]][..0] == [] && b == Run(a, [ops[j]]);
    assert ops[..k][..j + 1] == ops[..j + 1] && ops[..k + 1][..j + 1] == ops[..j + 1];
    RunSplit(s, ops[..k], j + 1);
    RunSplit(s, ops[..k + 1], j + 1);
    SettledIsFinal(b, ops[..k][j + 1..], i);
    SettledIsFinal(b, ops[..k + 1][j + 1..], i);
  }
}
