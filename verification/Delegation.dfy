/**
 Delegation jobs: admission against the registry, the guarded status machine, and the audit log.
 Timestamps are modelled by whether they are set.
 */
module Delegation {
  import opened Wrappers

  datatype Status = Queued | Running | Cancelled | TimedOut | Succeeded | PartialResult | Failed {
    predicate IsInFlight() { Queued? || Running? }
    predicate IsTerminal() { !IsInFlight() }
  }

  datatype JobEvent = Start | Complete | CompletePartial | Cancel | Timeout | Fail

  const WIDTH: nat := 0x1_0000_0000

  type u32 = x: nat | x < WIDTH

  /** A count as the store returns it: truncated to 32 bits. */
  function AsU32(n: nat): u32 { n % WIDTH }

  datatype Profile = Profile(specialist: bool, maxSpecialists: u32, maxConcurrentJobs: u32)

  type Registry = map<string, Profile>

  datatype Job = Job(profile: string, status: Status, started: bool, ended: bool)

  datatype Audit =
    | SpecialistCreated(profile: string, slug: string)
    | DelegationStarted(job: string, profile: string)
    | DelegationCompleted(job: string, status: Status)

  datatype Error =
    | UnknownProfile | NotASpecialist | SpecialistLimitReached(max: u32) | ConcurrencyLimitReached(max: u32)
    | Duplicate | NotFound | InvalidTransition(from: Status, event: JobEvent)

  /** `groups` maps a slug to the profile of a specialist group; a group of another kind has none. */
  datatype State = State(jobs: map<string, Job>, groups: map<string, Option<string>>, audit: seq<Audit>)

  function InFlight(jobs: map<string, Job>, profile: string): set<string> {
    set id | id in jobs && jobs[id].profile == profile && jobs[id].status.IsInFlight()
  }

  function GroupsOf(groups: map<string, Option<string>>, profile: string): set<string> {
    set slug | slug in groups && groups[slug] == Some(profile)
  }

  // ---- operations ----

  function Transition(from: Status, event: JobEvent): Result<Status, Error> {
    match (from, event)
    case (Queued, Start) => Ok(Running)
    case (Queued, Cancel) => Ok(Cancelled)
    case (Running, Cancel) => Ok(Cancelled)
    case (Queued, Timeout) => Ok(TimedOut)
    case (Running, Timeout) => Ok(TimedOut)
    case (Queued, Fail) => Ok(Failed)
    case (Running, Fail) => Ok(Failed)
    case (Running, Complete) => Ok(Succeeded)
    case (Running, CompletePartial) => Ok(PartialResult)
    case _ => Err(InvalidTransition(from, event))
  }

  /** Terminal statuses accept nothing; an in-flight one never goes back to queued. */
  lemma {:induction false} TransitionShape(from: Status, event: JobEvent)
    ensures Transition(from, event).Ok? ==> from.IsInFlight() && !Transition(from, event).value.Queued?
    ensures from.IsInFlight() <==> Transition(from, Cancel).Ok?
  {
  }

  /** The status an event is to reach. */
  function Target(event: JobEvent): Status {
    match event
    case Start => Running
    case Complete => Succeeded
    case CompletePartial => PartialResult
    case Cancel => Cancelled
    case Timeout => TimedOut
    case Fail => Failed
  }

  /** The statuses an event is accepted in. */
  predicate Accepted(from: Status, event: JobEvent) {
    || (from == Queued && event in {Start, Cancel, Timeout, Fail})
    || (from == Running && event in {Complete, CompletePartial, Cancel, Timeout, Fail})
  }

  /** The whole table: an event is accepted or not, reaches its own status, and is named in the refusal. */
  lemma {:induction false} TransitionTable(from: Status, event: JobEvent)
    ensures Transition(from, event) == if Accepted(from, event) then Ok(Target(event)) else Err(InvalidTransition(from, event))
  {
  }

  function UpdateStatus(job: Job, status: Status): Job {
    job.(status := status, started := job.started || status == Running, ended := job.ended || status.IsTerminal())
  }

  function StartJob(registry: Registry, s: State, id: string, profile: string, status: Status): (State, Result<(), Error>) {
    if profile !in registry then (s, Err(UnknownProfile))
    else if AsU32(|InFlight(s.jobs, profile)|) >= registry[profile].maxConcurrentJobs then
      (s, Err(ConcurrencyLimitReached(registry[profile].maxConcurrentJobs)))
    else if id in s.jobs then (s, Err(Duplicate))
    else
      (s.(jobs := s.jobs[id := Job(profile, status, false, false)], audit := s.audit + [DelegationStarted(id, profile)]), Ok(()))
  }

  function TransitionJob(s: State, id: string, event: JobEvent): (State, Result<Status, Error>) {
    if id !in s.jobs then (s, Err(NotFound))
    else
      match Transition(s.jobs[id].status, event)
      case Err(e) => (s, Err(e))
      case Ok(next) =>
        var t := s.(jobs := s.jobs[id := UpdateStatus(s.jobs[id], next)]);
        (if next.IsTerminal() then t.(audit := t.audit + [DelegationCompleted(id, next)]) else t, Ok(next))
  }

  function CreateSpecialist(registry: Registry, s: State, profile: string, slug: string): (State, Result<string, Error>) {
    if profile !in registry then (s, Err(UnknownProfile))
    else if !registry[profile].specialist then (s, Err(NotASpecialist))
    else if AsU32(|GroupsOf(s.groups, profile)|) >= registry[profile].maxSpecialists then
      (s, Err(SpecialistLimitReached(registry[profile].maxSpecialists)))
    else if slug in s.groups then (s, Err(Duplicate))
    else
      (s.(groups := s.groups[slug := Some(profile)], audit := s.audit + [SpecialistCreated(profile, slug)]), Ok(slug))
  }

  class Delegations {
    const registry: Registry
    var jobs: map<string, Job>
    var groups: map<string, Option<string>>
    var audit: seq<Audit>

    function View(): State
      reads this
    {
      State(jobs, groups, audit)
    }

    constructor (registry: Registry)
      ensures View() == Empty && this.registry == registry
    {
      this.registry, jobs, groups, audit := registry, map[], map[], [];
    }

    method RunningOrQueued(profile: string) returns (n: u32)
      ensures n == AsU32(|InFlight(jobs, profile)|)
      ensures n == |set k | k in jobs && jobs[k].profile == profile && (jobs[k].status.Queued? || jobs[k].status.Running?)| % WIDTH
    {
      RunningIs(jobs, profile);
      var counted: set<string> := {};
      var rest := jobs.Keys;
      var count := 0;
      while rest != {}
        invariant rest <= jobs.Keys
        invariant counted == InFlight(jobs, profile) - rest && count == |counted|
        decreases rest
      {
        var id :| id in rest;
        rest := rest - {id};
        assert id !in counted;
        if jobs[id].profile == profile && jobs[id].status.IsInFlight() {
          counted := counted + {id};
          count := count + 1;
        }
      }
      assert counted == InFlight(jobs, profile);
      return AsU32(count);
    }

    method Start(id: string, profile: string, status: Status) returns (r: Result<(), Error>)
      modifies this
      ensures (View(), r) == StartJob(registry, old(View()), id, profile, status)
      ensures var running := set k | k in old(jobs) && old(jobs)[k].profile == profile && (old(jobs)[k].status.Queued? || old(jobs)[k].status.Running?);
              r == if profile !in registry then Err(UnknownProfile)
                   else if |running| % WIDTH >= registry[profile].maxConcurrentJobs then
                     Err(ConcurrencyLimitReached(registry[profile].maxConcurrentJobs))
                   else if id in old(jobs) then Err(Duplicate)
                   else Ok(())
      ensures r.Err? ==> View() == old(View())
      ensures r.Ok? ==>
                && jobs == old(jobs)[id := Job(profile, status, false, false)]
                && audit == old(audit) + [DelegationStarted(id, profile)] && groups == old(groups)
    {
      RunningIs(jobs, profile);
      if profile !in registry {
        return Err(UnknownProfile);
      }
      var inFlight := RunningOrQueued(profile);
      if inFlight >= registry[profile].maxConcurrentJobs {
        return Err(ConcurrencyLimitReached(registry[profile].maxConcurrentJobs));
      }
      if id in jobs {
        return Err(Duplicate);
      }
      jobs := jobs[id := Job(profile, status, false, false)];
      audit := audit + [DelegationStarted(id, profile)];
      return Ok(());
    }

    method Advance(id: string, event: JobEvent) returns (r: Result<Status, Error>)
      modifies this
      ensures (View(), r) == TransitionJob(old(View()), id, event)
      ensures r == if id !in old(jobs) then Err(NotFound)
                   else if Accepted(old(jobs)[id].status, event) then Ok(Target(event))
                   else Err(InvalidTransition(old(jobs)[id].status, event))
      ensures r.Err? ==> View() == old(View())
      ensures r.Ok? ==>
                && jobs == old(jobs)[id := Job(old(jobs)[id].profile, r.value, old(jobs)[id].started || r.value.Running?,
                                               old(jobs)[id].ended || !(r.value.Queued? || r.value.Running?))]
                && audit == old(audit) + (if r.value.Running? then [] else [DelegationCompleted(id, r.value)])
                && groups == old(groups)
    {
      if id in jobs { TransitionTable(jobs[id].status, event); }
      if id !in jobs {
        return Err(NotFound);
      }
      r := Transition(jobs[id].status, event);
      if r.Err? {
        return;
      }
      jobs := jobs[id := UpdateStatus(jobs[id], r.value)];
      if r.value.IsTerminal() {
        audit := audit + [DelegationCompleted(id, r.value)];
      }
    }

    method Create(profile: string, slug: string) returns (r: Result<string, Error>)
      modifies this
      ensures (View(), r) == CreateSpecialist(registry, old(View()), profile, slug)
      ensures var existing := set k | k in old(groups) && old(groups)[k] == Some(profile);
              r == if profile !in registry then Err(UnknownProfile)
                   else if !registry[profile].specialist then Err(NotASpecialist)
                   else if |existing| % WIDTH >= registry[profile].maxSpecialists then
                     Err(SpecialistLimitReached(registry[profile].maxSpecialists))
                   else if slug in old(groups) then Err(Duplicate)
                   else Ok(slug)
      ensures r.Err? ==> View() == old(View())
      ensures r.Ok? ==>
                && groups == old(groups)[slug := Some(profile)]
                && audit == old(audit) + [SpecialistCreated(profile, slug)] && jobs == old(jobs)
    {
      ExistingIs(groups, profile);
      if profile !in registry {
        return Err(UnknownProfile);
      }
      if !registry[profile].specialist {
        return Err(NotASpecialist);
      }
      if AsU32(|GroupsOf(groups, profile)|) >= registry[profile].maxSpecialists {
        return Err(SpecialistLimitReached(registry[profile].maxSpecialists));
      }
      if slug in groups {
        return Err(Duplicate);
      }
      groups := groups[slug := Some(profile)];
      audit := audit + [SpecialistCreated(profile, slug)];
      return Ok(slug);
    }
  }

  lemma {:induction false} RunningIs(jobs: map<string, Job>, profile: string)
    ensures InFlight(jobs, profile)
         == set k | k in jobs && jobs[k].profile == profile && (jobs[k].status.Queued? || jobs[k].status.Running?)
  {
  }

  lemma {:induction false} ExistingIs(groups: map<string, Option<string>>, profile: string)
    ensures GroupsOf(groups, profile) == set k | k in groups && groups[k] == Some(profile)
  {
  }

  // ---- runs ----

  const Empty := State(map[], map[], [])

  datatype Op =
    | OpStart(id: string, profile: string, status: Status)
    | OpAdvance(id: string, event: JobEvent)
    | OpCreate(profile: string, slug: string)
    | OpOtherGroup(slug: string)

  function Step(registry: Registry, s: State, op: Op): State {
    match op
    case OpStart(id, profile, status) => StartJob(registry, s, id, profile, status).0
    case OpAdvance(id, event) => TransitionJob(s, id, event).0
    case OpCreate(profile, slug) => CreateSpecialist(registry, s, profile, slug).0
    case OpOtherGroup(slug) => if slug in s.groups then s else s.(groups := s.groups[slug := None])
  }

  function Run(registry: Registry, ops: seq<Op>): State {
    if ops == [] then Empty else Step(registry, Run(registry, ops[..|ops| - 1]), ops[|ops| - 1])
  }

  // ---- counting audit events ----

  function Created(audit: seq<Audit>, profile: string): nat {
    if audit == [] then 0
    else
      var n := |audit| - 1;
      Created(audit[..n], profile) + if audit[n].SpecialistCreated? && audit[n].profile == profile then 1 else 0
  }

  function Started(audit: seq<Audit>, profile: string): nat {
    if audit == [] then 0
    else
      var n := |audit| - 1;
      Started(audit[..n], profile) + if audit[n].DelegationStarted? && audit[n].profile == profile then 1 else 0
  }

  predicate Completes(jobs: map<string, Job>, e: Audit, profile: string) {
    e.DelegationCompleted? && e.job in jobs && jobs[e.job].profile == profile
  }

  /** Completed events of the profile's jobs. */
  function Completed(audit: seq<Audit>, jobs: map<string, Job>, profile: string): nat {
    if audit == [] then 0
    else
      var n := |audit| - 1;
      Completed(audit[..n], jobs, profile) + if Completes(jobs, audit[n], profile) then 1 else 0
  }

  /** Jobs that were terminal when inserted: their end was never stamped nor audited. */
  function BornTerminal(jobs: map<string, Job>, profile: string): set<string> {
    set id | id in jobs && jobs[id].profile == profile && jobs[id].status.IsTerminal() && !jobs[id].ended
  }

  lemma {:induction false} CompletedDependsOnProfiles(audit: seq<Audit>, before: map<string, Job>, after: map<string, Job>, profile: string)
    requires forall e | e in audit && e.DelegationCompleted? :: e.job in before && e.job in after && before[e.job].profile == after[e.job].profile
    ensures Completed(audit, before, profile) == Completed(audit, after, profile)
  {
    if audit != [] {
      CompletedDependsOnProfiles(audit[..|audit| - 1], before, after, profile);
    }
  }

  // ---- what every run keeps ----

  /** Every job completed at most once, exactly when its end was stamped, with the status it still has. */
  ghost predicate CompletionsAudited(s: State) {
    && (forall e | e in s.audit && e.DelegationCompleted? ::
          e.job in s.jobs && s.jobs[e.job].ended && s.jobs[e.job].status == e.status)
    && (forall id | id in s.jobs && s.jobs[id].ended ::
          s.jobs[id].status.IsTerminal() && DelegationCompleted(id, s.jobs[id].status) in s.audit)
    && (forall i, j | 0 <= i < j < |s.audit| && s.audit[i].DelegationCompleted? && s.audit[j].DelegationCompleted? ::
          s.audit[i].job != s.audit[j].job)
  }

  ghost predicate Conserved(s: State, p: string) {
    && |InFlight(s.jobs, p)| + |BornTerminal(s.jobs, p)| == Started(s.audit, p) - Completed(s.audit, s.jobs, p)
    && |GroupsOf(s.groups, p)| == Created(s.audit, p)
  }

  /** Admission limits; nothing is in flight or created under an unknown profile. */
  ghost predicate Admitted(registry: Registry, s: State, p: string) {
    && |InFlight(s.jobs, p)| <= (if p in registry then registry[p].maxConcurrentJobs else 0)
    && |GroupsOf(s.groups, p)| <= (if p in registry then registry[p].maxSpecialists else 0)
  }

  lemma {:induction false} InsertJob(jobs: map<string, Job>, id: string, job: Job, p: string)
    requires id !in jobs
    ensures |InFlight(jobs[id := job], p)| == |InFlight(jobs, p)| + (if p == job.profile && job.status.IsInFlight() then 1 else 0)
  {
    var before, after := InFlight(jobs, p), InFlight(jobs[id := job], p);
    var added := if p == job.profile && job.status.IsInFlight() then {id} else {};
    forall k ensures k in after <==> k in before + added {}
    assert after == before + added;
  }

  lemma {:induction false} InsertBornTerminal(jobs: map<string, Job>, id: string, job: Job, p: string)
    requires id !in jobs && !job.ended
    ensures |BornTerminal(jobs[id := job], p)| == |BornTerminal(jobs, p)| + (if p == job.profile && job.status.IsTerminal() then 1 else 0)
  {
    var before, after := BornTerminal(jobs, p), BornTerminal(jobs[id := job], p);
    var added := if p == job.profile && job.status.IsTerminal() then {id} else {};
    forall k ensures k in after <==> k in before + added {}
    assert after == before + added;
  }

  lemma {:induction false} UpdateJob(jobs: map<string, Job>, id: string, next: Status, p: string)
    requires id in jobs && jobs[id].status.IsInFlight()
    ensures var after := jobs[id := UpdateStatus(jobs[id], next)];
            |InFlight(after, p)| == |InFlight(jobs, p)| - (if p == jobs[id].profile && next.IsTerminal() then 1 else 0)
  {
    var after := jobs[id := UpdateStatus(jobs[id], next)];
    var gone := if p == jobs[id].profile && next.IsTerminal() then {id} else {};
    forall k ensures k in InFlight(after, p) <==> k in InFlight(jobs, p) - gone {}
    assert InFlight(after, p) == InFlight(jobs, p) - gone;
    assert gone <= InFlight(jobs, p);
  }

  lemma {:induction false} UpdateBornTerminal(jobs: map<string, Job>, id: string, next: Status, p: string)
    requires id in jobs && jobs[id].status.IsInFlight()
    ensures BornTerminal(jobs[id := UpdateStatus(jobs[id], next)], p) == BornTerminal(jobs, p)
  {
    forall k ensures k in BornTerminal(jobs[id := UpdateStatus(jobs[id], next)], p) <==> k in BornTerminal(jobs, p) {}
  }

  lemma {:induction false} CountsOfAppend(audit: seq<Audit>, e: Audit, jobs: map<string, Job>, p: string)
    ensures Started(audit + [e], p) == Started(audit, p) + (if e.DelegationStarted? && e.profile == p then 1 else 0)
    ensures Created(audit + [e], p) == Created(audit, p) + (if e.SpecialistCreated? && e.profile == p then 1 else 0)
    ensures Completed(audit + [e], jobs, p) == Completed(audit, jobs, p) + (if Completes(jobs, e, p) then 1 else 0)
  {
    assert (audit + [e])[..|audit|] == audit;
  }

  ghost predicate Books(registry: Registry, s: State, p: string) {
    Conserved(s, p) && Admitted(registry, s, p)
  }

  lemma {:induction false} StartKeeps(registry: Registry, s: State, id: string, profile: string, status: Status, p: string)
    requires CompletionsAudited(s) && Books(registry, s, p)
    ensures Books(registry, StartJob(registry, s, id, profile, status).0, p)
  {
    var t := StartJob(registry, s, id, profile, status).0;
    if t.jobs != s.jobs {
      InsertJob(s.jobs, id, Job(profile, status, false, false), p);
      InsertBornTerminal(s.jobs, id, Job(profile, status, false, false), p);
      CountsOfAppend(s.audit, DelegationStarted(id, profile), t.jobs, p);
      CompletedDependsOnProfiles(s.audit, s.jobs, t.jobs, p);
    }
  }

  lemma {:induction false} AdvanceKeeps(registry: Registry, s: State, id: string, event: JobEvent, p: string)
    requires CompletionsAudited(s) && Books(registry, s, p)
    ensures Books(registry, TransitionJob(s, id, event).0, p)
  {
    var t := TransitionJob(s, id, event).0;
    if id in s.jobs && Transition(s.jobs[id].status, event).Ok? {
      TransitionShape(s.jobs[id].status, event);
      var next := Transition(s.jobs[id].status, event).value;
      UpdateJob(s.jobs, id, next, p);
      UpdateBornTerminal(s.jobs, id, next, p);
      CountsOfAppend(s.audit, DelegationCompleted(id, next), t.jobs, p);
      CompletedDependsOnProfiles(s.audit, s.jobs, t.jobs, p);
    }
  }

  lemma {:induction false} CreateKeeps(registry: Registry, s: State, profile: string, slug: string, p: string)
    requires Books(registry, s, p)
    ensures Books(registry, CreateSpecialist(registry, s, profile, slug).0, p)
  {
    var t := CreateSpecialist(registry, s, profile, slug).0;
    if t.groups != s.groups {
      CountsOfAppend(s.audit, SpecialistCreated(profile, slug), s.jobs, p);
      InsertGroup(s.groups, slug, Some(profile), p);
    }
  }

  lemma {:induction false} InsertGroup(groups: map<string, Option<string>>, slug: string, profile: Option<string>, p: string)
    requires slug !in groups
    ensures |GroupsOf(groups[slug := profile], p)| == |GroupsOf(groups, p)| + (if profile == Some(p) then 1 else 0)
  {
    if profile == Some(p) {
      assert GroupsOf(groups[slug := profile], p) == GroupsOf(groups, p) + {slug};
    } else {
      assert GroupsOf(groups[slug := profile], p) == GroupsOf(groups, p);
    }
  }

  lemma {:induction false} StepKeepsBooks(registry: Registry, s: State, op: Op, p: string)
    requires CompletionsAudited(s) && Books(registry, s, p)
    ensures Books(registry, Step(registry, s, op), p)
  {
    match op
    case OpStart(id, profile, status) => StartKeeps(registry, s, id, profile, status, p);
    case OpAdvance(id, event) => AdvanceKeeps(registry, s, id, event, p);
    case OpCreate(profile, slug) => CreateKeeps(registry, s, profile, slug, p);
    case OpOtherGroup(slug) => if slug !in s.groups { InsertGroup(s.groups, slug, None, p); }
  }

  lemma {:induction false} StepKeepsAudit(registry: Registry, s: State, op: Op)
    requires CompletionsAudited(s)
    ensures CompletionsAudited(Step(registry, s, op))
  {
    hide InFlight, GroupsOf, AsU32;
    var t := Step(registry, s, op);
    if op.OpAdvance? && t != s {
      AdvanceKeepsAudit(s, op.id, op.event);
    } else {
      assert s.audit <= t.audit && |t.audit| <= |s.audit| + 1;
    }
  }

  lemma {:induction false} AdvanceKeepsAudit(s: State, id: string, event: JobEvent)
    requires CompletionsAudited(s)
    ensures CompletionsAudited(TransitionJob(s, id, event).0)
  {
    var t := TransitionJob(s, id, event).0;
    if t != s {
      assert !s.jobs[id].ended;
      forall k | k in t.jobs && t.jobs[k].ended
        ensures t.jobs[k].status.IsTerminal() && DelegationCompleted(k, t.jobs[k].status) in t.audit
      {
        if k != id { assert DelegationCompleted(k, s.jobs[k].status) in s.audit; }
      }
    }
  }

  lemma {:induction false} RunKeepsBooks(registry: Registry, ops: seq<Op>, p: string)
    ensures CompletionsAudited(Run(registry, ops)) && Books(registry, Run(registry, ops), p)
  {
    if ops == [] {
      assert InFlight(Empty.jobs, p) == {} && BornTerminal(Empty.jobs, p) == {} && GroupsOf(Empty.groups, p) == {};
    } else {
      var n := |ops| - 1;
      RunKeepsBooks(registry, ops[..n], p);
      StepKeepsAudit(registry, Run(registry, ops[..n]), ops[n]);
      StepKeepsBooks(registry, Run(registry, ops[..n]), ops[n], p);
    }
  }

  /** Over every run under one registry: the conservation law, and the admission limits, so the 32-bit count is exact. */
  lemma {:induction false} RunConservesAndAdmits(registry: Registry, ops: seq<Op>, p: string)
    ensures Conserved(Run(registry, ops), p) && Admitted(registry, Run(registry, ops), p)
    ensures AsU32(|InFlight(Run(registry, ops).jobs, p)|) == |InFlight(Run(registry, ops).jobs, p)|
  {
    RunKeepsBooks(registry, ops, p);
  }

  // ---- exactly when the books balance ----

  /** Every start that was accepted in the run had an in-flight status. */
  ghost predicate StartsInFlight(registry: Registry, ops: seq<Op>) {
    forall i | 0 <= i < |ops| && ops[i].OpStart? && ops[i].status.IsTerminal() ::
      StartJob(registry, Run(registry, ops[..i]), ops[i].id, ops[i].profile, ops[i].status).1.Err?
  }

  ghost predicate Balances(s: State, p: string) {
    |InFlight(s.jobs, p)| == Started(s.audit, p) - Completed(s.audit, s.jobs, p)
  }

  ghost predicate NoneBornTerminal(s: State) {
    forall id | id in s.jobs :: s.jobs[id].status.IsTerminal() ==> s.jobs[id].ended
  }

  lemma {:induction false} StartsInFlightPrefix(registry: Registry, ops: seq<Op>)
    requires ops != []
    ensures var n := |ops| - 1;
            StartsInFlight(registry, ops) <==>
              StartsInFlight(registry, ops[..n])
              && (ops[n].OpStart? && ops[n].status.IsTerminal() ==>
                    StartJob(registry, Run(registry, ops[..n]), ops[n].id, ops[n].profile, ops[n].status).1.Err?)
  {
    var n := |ops| - 1;
    forall i | 0 <= i <= n ensures ops[..n][..i] == ops[..i] {}
  }

  lemma {:induction false} NoneBornTerminalIff(registry: Registry, ops: seq<Op>)
    ensures NoneBornTerminal(Run(registry, ops)) <==> StartsInFlight(registry, ops)
  {
    if ops != [] {
      var n := |ops| - 1;
      var s := Run(registry, ops[..n]);
      NoneBornTerminalIff(registry, ops[..n]);
      StartsInFlightPrefix(registry, ops);
      BornTerminalStep(registry, s, ops[n]);
    }
  }

  lemma {:induction false} BornTerminalStep(registry: Registry, s: State, op: Op)
    ensures NoneBornTerminal(Step(registry, s, op)) <==>
              NoneBornTerminal(s)
              && (op.OpStart? && op.status.IsTerminal() ==> StartJob(registry, s, op.id, op.profile, op.status).1.Err?)
  {
    var t := Step(registry, s, op);
    if op.OpStart? && t != s {
      assert t.jobs[op.id] == Job(op.profile, op.status, false, false);
    }
    forall id | id in s.jobs && s.jobs[id].status.IsTerminal() ensures id in t.jobs && t.jobs[id] == s.jobs[id] {}
    if op.OpAdvance? && t != s {
      assert t.jobs[op.id].status.IsTerminal() ==> t.jobs[op.id].ended;
    }
  }

  /**
   `ended_at` is set exactly on terminal jobs, and every profile's in-flight count is its Started
   minus its Completed events, if and only if every accepted start was of an in-flight job.
   */
  lemma {:induction false} BooksBalanceIffStartsInFlight(registry: Registry, ops: seq<Op>)
    ensures var s := Run(registry, ops);
            (forall p :: Balances(s, p)) <==> StartsInFlight(registry, ops)
    ensures var s := Run(registry, ops);
            (forall id | id in s.jobs :: s.jobs[id].ended <==> s.jobs[id].status.IsTerminal())
            <==> StartsInFlight(registry, ops)
  {
    var s := Run(registry, ops);
    NoneBornTerminalIff(registry, ops);
    RunKeepsBooks(registry, ops, "");
    if NoneBornTerminal(s) {
      forall p ensures Balances(s, p) {
        RunKeepsBooks(registry, ops, p);
        assert BornTerminal(s.jobs, p) == {};
      }
    } else {
      var id :| id in s.jobs && s.jobs[id].status.IsTerminal() && !s.jobs[id].ended;
      var p := s.jobs[id].profile;
      RunKeepsBooks(registry, ops, p);
      assert id in BornTerminal(s.jobs, p);
      assert !Balances(s, p);
    }
  }

  /** In every run a job has a Completed event exactly when its end was stamped, and never two. */
  lemma {:induction false} AtMostOneCompleted(registry: Registry, ops: seq<Op>, id: string)
    requires id in Run(registry, ops).jobs
    ensures var s := Run(registry, ops);
            s.jobs[id].ended <==> exists i :: 0 <= i < |s.audit| && s.audit[i] == DelegationCompleted(id, s.jobs[id].status)
    ensures var s := Run(registry, ops);
            forall i, j | 0 <= i < |s.audit| && 0 <= j < |s.audit| && s.audit[i].DelegationCompleted?
              && s.audit[j].DelegationCompleted? && s.audit[i].job == s.audit[j].job == id :: i == j
  {
    RunKeepsBooks(registry, ops, "");
  }

  /** When every accepted start was in flight, that is exactly when it is terminal. */
  lemma {:induction false} CompletedIffTerminal(registry: Registry, ops: seq<Op>, id: string)
    requires StartsInFlight(registry, ops) && id in Run(registry, ops).jobs
    ensures var s := Run(registry, ops);
            s.jobs[id].status.IsTerminal() <==> exists i :: 0 <= i < |s.audit| && s.audit[i] == DelegationCompleted(id, s.jobs[id].status)
  {
    AtMostOneCompleted(registry, ops, id);
    RunKeepsBooks(registry, ops, "");
    NoneBornTerminalIff(registry, ops);
  }

  /** A job inserted as already succeeded: it counts as started and never as completed or in flight. */
  lemma {:induction false} TerminalStartUnbalances()
    ensures var registry := map["p" := Profile(true, 1, 1)];
            !Balances(Run(registry, [OpStart("j", "p", Succeeded)]), "p")
  {
    var registry := map["p" := Profile(true, 1, 1)];
    var op := OpStart("j", "p", Succeeded);
    TerminalStartAccepted(registry, op);
    RunKeepsBooks(registry, [op], "p");
    var s := Run(registry, [op]);
    hide Run, InFlight, Started, Completed;
    assert "j" in BornTerminal(s.jobs, "p");
  }

  lemma {:induction false} TerminalStartAccepted(registry: Registry, op: Op)
    requires "p" in registry && registry["p"].maxConcurrentJobs == 1 && op == OpStart("j", "p", Succeeded)
    ensures "j" in Run(registry, [op]).jobs && Run(registry, [op]).jobs["j"] == Job("p", Succeeded, false, false)
  {
    assert [op][..0] == [] && Run(registry, []) == Empty;
    assert InFlight(Empty.jobs, "p") == {};
    hide InFlight;
    assert AsU32(|InFlight(Empty.jobs, "p")|) == 0;
  }

  // ---- start stamps ----

  /** Every start that was accepted in the run was of a queued job. */
  ghost predicate StartsQueued(registry: Registry, ops: seq<Op>) {
    forall i | 0 <= i < |ops| && ops[i].OpStart? && !ops[i].status.Queued? ::
      StartJob(registry, Run(registry, ops[..i]), ops[i].id, ops[i].profile, ops[i].status).1.Err?
  }

  ghost predicate StampFits(job: Job) {
    && (job.status.Queued? ==> !job.started)
    && (job.status.Running? || job.status.Succeeded? || job.status.PartialResult? ==> job.started)
  }

  /** `started_at` tells whether a job ever ran: never while queued, always once it runs or completes. */
  lemma {:induction false} StartStampFollowsStatus(registry: Registry, ops: seq<Op>)
    requires StartsQueued(registry, ops)
    ensures forall id | id in Run(registry, ops).jobs :: StampFits(Run(registry, ops).jobs[id])
  {
    if ops != [] {
      var n := |ops| - 1;
      forall i | 0 <= i < n ensures ops[..n][i] == ops[i] && ops[..n][..i] == ops[..i] {}
      StartStampFollowsStatus(registry, ops[..n]);
      assert ops[n].OpStart? && !ops[n].status.Queued? ==>
        StartJob(registry, Run(registry, ops[..n]), ops[n].id, ops[n].profile, ops[n].status).1.Err?;
    }
  }
}
