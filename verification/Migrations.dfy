/**
 The central migration registry. The database is its application data, of any type, plus the rows
 of `schema_migrations`; running SQL and hashing are functions about which nothing is assumed.
 */
module Migrations {
  import opened Wrappers
  import opened StableSort

  datatype Migration = Migration(moduleId: string, version: nat, name: string, sql: string) {
    function Key(): (string, nat) { (moduleId, version) }

    /** The bytes the checksum is taken over: name, a zero byte, SQL. */
    function Hashed(): string { name + [0 as char] + sql }
  }

  datatype Row = Row(name: string, checksum: string)

  type Registry = map<(string, nat), Row>

  datatype Db<D> = Db(data: D, recorded: Registry)

  datatype DbError =
    | Sqlite
    | UnknownMigrationModule(moduleId: string)
    | DuplicateMigration(moduleId: string, version: nat)
    | ChecksumMismatch(moduleId: string, version: nat, recorded: string, computed: string)

  datatype Report = Report(applied: seq<(string, nat)>, skipped: seq<(string, nat)>)

  // ---- ordering ----

  /** A module's place in the order; when it is listed twice, the later place. */
  function RankOf(order: seq<string>, moduleId: string): (r: Option<nat>)
    ensures r.None? <==> moduleId !in order
    ensures r.Some? ==> r.value < |order| && order[r.value] == moduleId
  {
    if order == [] then None
    else if order[|order| - 1] == moduleId then Some(|order| - 1)
    else RankOf(order[..|order| - 1], moduleId)
  }

  function ByRank(order: seq<string>): Migration -> Rank {
    (m: Migration) => Rank(match RankOf(order, m.moduleId) case Some(i) => i case None => |order|, m.version)
  }

  ghost predicate AllKnown(order: seq<string>, ms: seq<Migration>) {
    forall i | 0 <= i < |ms| :: ms[i].moduleId in order
  }

  ghost predicate NoRepeats(ms: seq<Migration>) {
    forall i, j | 0 <= i < j < |ms| :: ms[i].Key() != ms[j].Key()
  }

  /**
   The error names the first migration, as registered, of an unknown module or of a key already
   seen; a migration that is both is reported as of an unknown module.
   */
  ghost predicate Names(e: DbError, order: seq<string>, ms: seq<Migration>) {
    exists i :: 0 <= i < |ms| && NamesAt(e, order, ms, i)
  }

  ghost predicate NamesAt(e: DbError, order: seq<string>, ms: seq<Migration>, i: nat)
    requires i < |ms|
  {
    && AllKnown(order, ms[..i]) && NoRepeats(ms[..i])
    && if ms[i].moduleId !in order then e == UnknownMigrationModule(ms[i].moduleId)
       else e == DuplicateMigration(ms[i].moduleId, ms[i].version) && exists j :: 0 <= j < i && ms[j].Key() == ms[i].Key()
  }

  class MigrationSet {
    var moduleOrder: seq<string>
    var migrations: seq<Migration>

    constructor (order: seq<string>)
      ensures moduleOrder == order && migrations == []
    {
      moduleOrder, migrations := order, [];
    }

    method Add(m: Migration)
      modifies this
      ensures migrations == old(migrations) + [m] && moduleOrder == old(moduleOrder)
    {
      migrations := migrations + [m];
    }

    /** Sorted by (module rank, version), or an error naming what is wrong. */
    method Ordered() returns (r: Result<seq<Migration>, DbError>)
      ensures r.Ok? <==> AllKnown(moduleOrder, migrations) && NoRepeats(migrations)
      ensures r.Ok? ==> multiset(r.value) == multiset(migrations) && StrictlyAscending(r.value, ByRank(moduleOrder))
      ensures r.Err? ==> Names(r.error, moduleOrder, migrations)
    {
      var seen: map<(string, nat), nat> := map[];
      for i := 0 to |migrations|
        invariant AllKnown(moduleOrder, migrations[..i]) && NoRepeats(migrations[..i])
        invariant forall k :: k in seen <==> exists j :: 0 <= j < i && migrations[j].Key() == k
      {
        var m := migrations[i];
        if m.moduleId !in moduleOrder {
          assert NamesAt(UnknownMigrationModule(m.moduleId), moduleOrder, migrations, i);
          return Err(UnknownMigrationModule(m.moduleId));
        }
        if m.Key() in seen {
          var j :| 0 <= j < i && migrations[j].Key() == m.Key();
          assert NamesAt(DuplicateMigration(m.moduleId, m.version), moduleOrder, migrations, i);
          return Err(DuplicateMigration(m.moduleId, m.version));
        }
        seen := seen[m.Key() := i];
      }
      assert migrations[..|migrations|] == migrations;
      var ordered := SortBy(migrations, ByRank(moduleOrder));
      SortIsStrict(moduleOrder, migrations);
      return Ok(ordered);
    }
  }

  /** Distinct keys over known modules have distinct ranks. */
  lemma {:induction false} RankIsInjective(order: seq<string>, a: Migration, b: Migration)
    requires a.moduleId in order && b.moduleId in order && a.Key() != b.Key()
    ensures ByRank(order)(a) != ByRank(order)(b)
  {
  }

  /** A rank that occurs once in a sequence still occurs once after sorting. */
  lemma {:induction false} SortIsStrict(order: seq<string>, ms: seq<Migration>)
    requires AllKnown(order, ms) && NoRepeats(ms)
    ensures StrictlyAscending(SortBy(ms, ByRank(order)), ByRank(order))
  {
    var key := ByRank(order);
    var out := SortBy(ms, key);
    SortIsStable(ms, key);
    forall i, j | 0 <= i < j < |out| ensures key(out[i]) != key(out[j]) {
      if key(out[i]) == key(out[j]) {
        TwoOfARank(out, key, i, j);
        OneOfARank(order, ms, key(out[i]));
      }
    }
    DistinctRanksAreStrict(out, key);
  }

  lemma {:induction false} TwoOfARank(s: seq<Migration>, key: Migration -> Rank, i: nat, j: nat)
    requires i < j < |s| && key(s[i]) == key(s[j])
    ensures |Class(s, key, key(s[i]))| >= 2
  {
    if j == |s| - 1 {
      ClassHoldsMember(s[..j], key, i);
    } else {
      TwoOfARank(s[..|s| - 1], key, i, j);
    }
  }

  lemma {:induction false} OneOfARank(order: seq<string>, ms: seq<Migration>, k: Rank)
    requires AllKnown(order, ms) && NoRepeats(ms)
    ensures |Class(ms, ByRank(order), k)| <= 1
  {
    if ms != [] {
      var n := |ms| - 1;
      OneOfARank(order, ms[..n], k);
      var c := Class(ms[..n], ByRank(order), k);
      if ByRank(order)(ms[n]) == k && c != [] {
        assert c[0] in c;
        var i :| 0 <= i < n && ms[..n][i] == c[0];
        RankIsInjective(order, ms[i], ms[n]);
      }
    }
  }

  // ---- applying ----

  datatype Applied<D> = Applied(db: Db<D>, outcome: Result<Report, DbError>)

  function Checksum(m: Migration, digest: string -> string): string { digest(m.Hashed()) }

  function Record<D>(db: Db<D>, m: Migration, data: D, digest: string -> string): Db<D> {
    Db(data, db.recorded[m.Key() := Row(m.name, Checksum(m, digest))])
  }

  function Mismatch<D>(db: Db<D>, m: Migration, digest: string -> string): bool {
    m.Key() in db.recorded && db.recorded[m.Key()].checksum != Checksum(m, digest)
  }

  function MismatchError<D>(db: Db<D>, m: Migration, digest: string -> string): DbError
    requires m.Key() in db.recorded
  {
    ChecksumMismatch(m.moduleId, m.version, db.recorded[m.Key()].checksum, Checksum(m, digest))
  }

  /** One run over an ordered list: verify and skip what is recorded, apply the rest, stop at the first error. */
  function ApplyList<D>(db: Db<D>, ms: seq<Migration>, exec: (D, string) -> Option<D>, digest: string -> string): Applied<D>
    decreases |ms|
  {
    if ms == [] then Applied(db, Ok(Report([], [])))
    else if Mismatch(db, ms[0], digest) then Applied(db, Err(MismatchError(db, ms[0], digest)))
    else if ms[0].Key() in db.recorded then
      var rest := ApplyList(db, ms[1..], exec, digest);
      rest.(outcome := Skipped(ms[0].Key(), rest.outcome))
    else
      match exec(db.data, ms[0].sql)
      case None => Applied(db, Err(Sqlite))
      case Some(data) =>
        var rest := ApplyList(Record(db, ms[0], data, digest), ms[1..], exec, digest);
        rest.(outcome := WasApplied(ms[0].Key(), rest.outcome))
  }

  function Skipped(k: (string, nat), r: Result<Report, DbError>): Result<Report, DbError> {
    match r case Err(e) => Err(e) case Ok(report) => Ok(report.(skipped := [k] + report.skipped))
  }

  function WasApplied(k: (string, nat), r: Result<Report, DbError>): Result<Report, DbError> {
    match r case Err(e) => Err(e) case Ok(report) => Ok(report.(applied := [k] + report.applied))
  }

  class Database<D> {
    var data: D
    var recorded: Registry

    function View(): Db<D>
      reads this
    {
      Db(data, recorded)
    }

    constructor (data: D, recorded: Registry)
      ensures View() == Db(data, recorded)
    {
      this.data, this.recorded := data, recorded;
    }

    /**
     Apply all pending migrations, one transaction each. With `killed == Some(k)` the process dies
     while it is at migration `k`, before that migration's commit; then nothing is returned.
     */
    method Apply(migrations: MigrationSet, exec: (D, string) -> Option<D>, digest: string -> string, killed: Option<nat>)
      returns (r: Option<Result<Report, DbError>>)
      modifies this
      ensures !AllKnown(migrations.moduleOrder, migrations.migrations) || !NoRepeats(migrations.migrations) ==>
                View() == old(View()) && r.Some? && r.value.Err? && Names(r.value.error, migrations.moduleOrder, migrations.migrations)
      ensures AllKnown(migrations.moduleOrder, migrations.migrations) && NoRepeats(migrations.migrations) ==>
        exists ms :: IsOrdered(ms, migrations.moduleOrder, migrations.migrations) &&
          if r.None? then killed.Some? && killed.value < |ms| && View() == ApplyList(old(View()), ms[..killed.value], exec, digest).db
          else Applied(View(), r.value) == ApplyList(old(View()), ms, exec, digest)
      ensures r.Some? && r.value.Ok? ==>
                forall m | m in migrations.migrations ::
                  m.Key() in recorded && recorded[m.Key()].checksum == digest(m.name + [0 as char] + m.sql)
    {
      var ordered := migrations.Ordered();
      if ordered.Err? {
        return Some(Err(ordered.error));
      }
      var ms := ordered.value;
      ghost var db0 := View();
      var applied: seq<(string, nat)>, skipped: seq<(string, nat)> := [], [];
      for i := 0 to |ms|
        invariant View() == ApplyList(db0, ms[..i], exec, digest).db
        invariant ApplyList(db0, ms[..i], exec, digest).outcome == Ok(Report(applied, skipped))
      {
        if killed == Some(i) {
          return None;
        }
        var m := ms[i];
        assert ms[..i + 1] == ms[..i] + [m];
        ApplyOneMore(db0, ms[..i], m, exec, digest);
        if Mismatch(View(), m, digest) {
          ErrorIsFinal(db0, ms, i + 1, exec, digest);
          return Some(Err(MismatchError(View(), m, digest)));
        }
        if m.Key() in recorded {
          skipped := skipped + [m.Key()];
        } else {
          var ran := exec(data, m.sql);
          if ran.None? {
            ErrorIsFinal(db0, ms, i + 1, exec, digest);
            return Some(Err(Sqlite));
          }
          data := ran.value;
          recorded := recorded[m.Key() := Row(m.name, Checksum(m, digest))];
          applied := applied + [m.Key()];
        }
      }
      assert ms[..|ms|] == ms;
      SuccessVerifiesChecksums(db0, ms, exec, digest);
      forall m | m in migrations.migrations
        ensures m.Key() in recorded && recorded[m.Key()].checksum == digest(m.name + [0 as char] + m.sql)
      {
        assert m in multiset(ms);
      }
      return Some(Ok(Report(applied, skipped)));
    }
  }

  ghost predicate IsOrdered(ms: seq<Migration>, order: seq<string>, registered: seq<Migration>) {
    multiset(ms) == multiset(registered) && StrictlyAscending(ms, ByRank(order))
  }

  /** What one more migration does after a prefix that went well. */
  function Next<D>(a: Applied<D>, m: Migration, exec: (D, string) -> Option<D>, digest: string -> string): Applied<D>
    requires a.outcome.Ok?
  {
    var report := a.outcome.value;
    if Mismatch(a.db, m, digest) then Applied(a.db, Err(MismatchError(a.db, m, digest)))
    else if m.Key() in a.db.recorded then Applied(a.db, Ok(report.(skipped := report.skipped + [m.Key()])))
    else match exec(a.db.data, m.sql)
      case None => Applied(a.db, Err(Sqlite))
      case Some(d) => Applied(Record(a.db, m, d, digest), Ok(report.(applied := report.applied + [m.Key()])))
  }

  lemma {:induction false} ApplyOneMore<D>(db: Db<D>, ms: seq<Migration>, m: Migration, exec: (D, string) -> Option<D>, digest: string -> string)
    requires ApplyList(db, ms, exec, digest).outcome.Ok?
    ensures ApplyList(db, ms + [m], exec, digest) == Next(ApplyList(db, ms, exec, digest), m, exec, digest)
    decreases |ms|
  {
    if ms == [] {
      assert [] + [m] == [m] && [m][1..] == [];
      assert [] + [m.Key()] == [m.Key()] + [];
    } else {
      assert (ms + [m])[1..] == ms[1..] + [m] && (ms + [m])[0] == ms[0];
      var k := ms[0].Key();
      var next := if k in db.recorded then db else Record(db, ms[0], exec(db.data, ms[0].sql).value, digest);
      ApplyOneMore(next, ms[1..], m, exec, digest);
      var report := ApplyList(next, ms[1..], exec, digest).outcome.value;
      assert [k] + (report.skipped + [m.Key()]) == ([k] + report.skipped) + [m.Key()];
      assert [k] + (report.applied + [m.Key()]) == ([k] + report.applied) + [m.Key()];
    }
  }

  /** A run that has failed is not affected by what comes later in the list. */
  lemma {:induction false} ErrorIsFinal<D>(db: Db<D>, ms: seq<Migration>, k: nat, exec: (D, string) -> Option<D>, digest: string -> string)
    requires k <= |ms| && ApplyList(db, ms[..k], exec, digest).outcome.Err?
    ensures ApplyList(db, ms, exec, digest) == ApplyList(db, ms[..k], exec, digest)
    decreases |ms|
  {
    if k > 0 {
      assert ms[..k][0] == ms[0] && ms[..k][1..] == ms[1..][..k - 1];
      if Mismatch(db, ms[0], digest) {
      } else if ms[0].Key() in db.recorded {
        ErrorIsFinal(db, ms[1..], k - 1, exec, digest);
      } else if exec(db.data, ms[0].sql).Some? {
        ErrorIsFinal(Record(db, ms[0], exec(db.data, ms[0].sql).value, digest), ms[1..], k - 1, exec, digest);
      }
    }
  }

  // ---- crash and resume ----

  /** Recorded rows are never altered or dropped. */
  lemma {:induction false} RecordedStays<D>(db: Db<D>, ms: seq<Migration>, exec: (D, string) -> Option<D>, digest: string -> string)
    ensures forall k | k in db.recorded ::
              k in ApplyList(db, ms, exec, digest).db.recorded && ApplyList(db, ms, exec, digest).db.recorded[k] == db.recorded[k]
    decreases |ms|
  {
    if ms != [] && !Mismatch(db, ms[0], digest) {
      if ms[0].Key() in db.recorded {
        RecordedStays(db, ms[1..], exec, digest);
      } else if exec(db.data, ms[0].sql).Some? {
        RecordedStays(Record(db, ms[0], exec(db.data, ms[0].sql).value, digest), ms[1..], exec, digest);
      }
    }
  }

  /** Two runs end alike: the same database, and both Ok or the same error. */
  ghost predicate SameEnd<D(!new)>(a: Applied<D>, b: Applied<D>) {
    a.db == b.db && a.outcome.Ok? == b.outcome.Ok? && (a.outcome.Err? ==> a.outcome == b.outcome)
  }

  /** A run resumed after the first `k` migrations were handled ends like one that was never interrupted. */
  lemma {:induction false} ResumeEndsAlike<D(!new)>(db: Db<D>, ms: seq<Migration>, k: nat, exec: (D, string) -> Option<D>, digest: string -> string)
    requires k <= |ms|
    ensures SameEnd(ApplyList(ApplyList(db, ms[..k], exec, digest).db, ms, exec, digest), ApplyList(db, ms, exec, digest))
    decreases |ms|
  {
    if k > 0 {
      assert ms[..k][0] == ms[0] && ms[..k][1..] == ms[1..][..k - 1];
      if Mismatch(db, ms[0], digest) {
      } else if ms[0].Key() in db.recorded {
        RecordedStays(db, ms[1..][..k - 1], exec, digest);
        ResumeEndsAlike(db, ms[1..], k - 1, exec, digest);
      } else if exec(db.data, ms[0].sql).Some? {
        var next := Record(db, ms[0], exec(db.data, ms[0].sql).value, digest);
        RecordedStays(next, ms[1..][..k - 1], exec, digest);
        ResumeEndsAlike(next, ms[1..], k - 1, exec, digest);
      }
    }
  }

  /** Any number of runs, each cut off after some number of migrations. */
  function Interrupted<D>(db: Db<D>, ms: seq<Migration>, cuts: seq<nat>, exec: (D, string) -> Option<D>, digest: string -> string): Db<D>
    requires forall i | 0 <= i < |cuts| :: cuts[i] <= |ms|
  {
    if cuts == [] then db
    else ApplyList(Interrupted(db, ms, cuts[..|cuts| - 1], exec, digest), ms[..cuts[|cuts| - 1]], exec, digest).db
  }

  /**
   Crash-resume equivalence: however many runs were cut off between or inside migrations, the run
   that is finally left alone ends exactly as one clean run would have, from any starting database.
   */
  lemma {:induction false} InterruptedHistoryEndsAlike<D(!new)>(db: Db<D>, ms: seq<Migration>, cuts: seq<nat>, exec: (D, string) -> Option<D>, digest: string -> string)
    requires forall i | 0 <= i < |cuts| :: cuts[i] <= |ms|
    ensures SameEnd(ApplyList(Interrupted(db, ms, cuts, exec, digest), ms, exec, digest), ApplyList(db, ms, exec, digest))
  {
    if cuts != [] {
      InterruptedHistoryEndsAlike(db, ms, cuts[..|cuts| - 1], exec, digest);
      ResumeEndsAlike(Interrupted(db, ms, cuts[..|cuts| - 1], exec, digest), ms, cuts[|cuts| - 1], exec, digest);
    }
  }

  // ---- what a successful run did ----

  /** The migrations of the list that are (or are not) recorded, in list order. */
  function Select(recorded: set<(string, nat)>, ms: seq<Migration>, isRecorded: bool): seq<Migration> {
    if ms == [] then []
    else (if (ms[0].Key() in recorded) == isRecorded then [ms[0]] else []) + Select(recorded, ms[1..], isRecorded)
  }

  function Pending(recorded: set<(string, nat)>, ms: seq<Migration>): seq<Migration> {
    Select(recorded, ms, false)
  }

  function Keys(ms: seq<Migration>): seq<(string, nat)> {
    seq(|ms|, i requires 0 <= i < |ms| => ms[i].Key())
  }

  function ExecAll<D>(data: D, ms: seq<Migration>, exec: (D, string) -> Option<D>): Option<D> {
    if ms == [] then Some(data)
    else match exec(data, ms[0].sql) case None => None case Some(d) => ExecAll(d, ms[1..], exec)
  }

  function RecordAll(recorded: Registry, ms: seq<Migration>, digest: string -> string): Registry
    decreases |ms|
  {
    if ms == [] then recorded
    else RecordAll(recorded[ms[0].Key() := Row(ms[0].name, Checksum(ms[0], digest))], ms[1..], digest)
  }

  /** Recording a key that occurs nowhere in the list leaves the selection as it was. */
  lemma {:induction false} SelectIgnores(recorded: set<(string, nat)>, k: (string, nat), ms: seq<Migration>, isRecorded: bool)
    requires forall i | 0 <= i < |ms| :: ms[i].Key() != k
    ensures Select(recorded + {k}, ms, isRecorded) == Select(recorded, ms, isRecorded)
  {
    if ms != [] {
      SelectIgnores(recorded, k, ms[1..], isRecorded);
    }
  }

  /** The database a run goes on with after its first migration, when that one did not fail. */
  function After<D>(db: Db<D>, m: Migration, exec: (D, string) -> Option<D>, digest: string -> string): Db<D>
    requires m.Key() !in db.recorded ==> exec(db.data, m.sql).Some?
  {
    if m.Key() in db.recorded then db else Record(db, m, exec(db.data, m.sql).value, digest)
  }

  lemma {:induction false} SelectAfter<D>(db: Db<D>, ms: seq<Migration>, isRecorded: bool, exec: (D, string) -> Option<D>, digest: string -> string)
    requires ms != [] && NoRepeats(ms) && (ms[0].Key() !in db.recorded ==> exec(db.data, ms[0].sql).Some?)
    ensures NoRepeats(ms[1..])
    ensures Select(db.recorded.Keys, ms, isRecorded) ==
            (if (ms[0].Key() in db.recorded) == isRecorded then [ms[0]] else [])
            + Select(After(db, ms[0], exec, digest).recorded.Keys, ms[1..], isRecorded)
  {
    assert forall i | 0 <= i < |ms[1..]| :: ms[1..][i] == ms[i + 1];
    if ms[0].Key() !in db.recorded {
      SelectIgnores(db.recorded.Keys, ms[0].Key(), ms[1..], isRecorded);
      assert After(db, ms[0], exec, digest).recorded.Keys == db.recorded.Keys + {ms[0].Key()};
    }
  }

  /**
   A successful run executed the SQL of exactly the pending migrations, each once and in list
   order, and recorded exactly those.
   */
  lemma {:induction false} SuccessAppliesPending<D>(db: Db<D>, ms: seq<Migration>, exec: (D, string) -> Option<D>, digest: string -> string)
    requires NoRepeats(ms) && ApplyList(db, ms, exec, digest).outcome.Ok?
    ensures var a, pending := ApplyList(db, ms, exec, digest), Pending(db.recorded.Keys, ms);
      && Some(a.db.data) == ExecAll(db.data, pending, exec)
      && a.db.recorded == RecordAll(db.recorded, pending, digest)
    decreases |ms|
  {
    if ms != [] {
      var next := After(db, ms[0], exec, digest);
      SelectAfter(db, ms, false, exec, digest);
      SuccessAppliesPending(next, ms[1..], exec, digest);
      var rest := Pending(next.recorded.Keys, ms[1..]);
      if ms[0].Key() in db.recorded {
        assert [] + rest == rest;
      } else {
        assert ([ms[0]] + rest)[1..] == rest;
      }
    }
  }

  lemma {:induction false} KeysConcat(a: seq<Migration>, b: seq<Migration>)
    ensures Keys(a + b) == Keys(a) + Keys(b)
  {
  }

  /** A successful run's report splits the list in order: what was pending was applied, the rest skipped. */
  lemma {:induction false} ReportSplitsList<D>(db: Db<D>, ms: seq<Migration>, exec: (D, string) -> Option<D>, digest: string -> string)
    requires NoRepeats(ms) && ApplyList(db, ms, exec, digest).outcome.Ok?
    ensures var report := ApplyList(db, ms, exec, digest).outcome.value;
            report.applied == Keys(Select(db.recorded.Keys, ms, false)) && report.skipped == Keys(Select(db.recorded.Keys, ms, true))
    decreases |ms|
  {
    if ms != [] {
      var next := After(db, ms[0], exec, digest);
      SelectAfter(db, ms, false, exec, digest);
      SelectAfter(db, ms, true, exec, digest);
      ReportSplitsList(next, ms[1..], exec, digest);
      KeysConcat([ms[0]], Select(next.recorded.Keys, ms[1..], false));
      KeysConcat([ms[0]], Select(next.recorded.Keys, ms[1..], true));
      KeysConcat([], Select(next.recorded.Keys, ms[1..], false));
      KeysConcat([], Select(next.recorded.Keys, ms[1..], true));
      assert Keys([ms[0]]) == [ms[0].Key()];
    }
  }

  /** After a successful run, another run applies nothing and changes nothing. */
  lemma {:induction false} SecondRunChangesNothing<D(!new)>(db: Db<D>, ms: seq<Migration>, exec: (D, string) -> Option<D>, digest: string -> string)
    requires ApplyList(db, ms, exec, digest).outcome.Ok?
    ensures var again := ApplyList(ApplyList(db, ms, exec, digest).db, ms, exec, digest);
            again == Applied(ApplyList(db, ms, exec, digest).db, Ok(Report([], Keys(ms))))
    decreases |ms|
  {
    if ms != [] {
      var next := if ms[0].Key() in db.recorded then db else Record(db, ms[0], exec(db.data, ms[0].sql).value, digest);
      SecondRunChangesNothing(next, ms[1..], exec, digest);
      RecordedStays(next, ms[1..], exec, digest);
      assert Keys(ms) == [ms[0].Key()] + Keys(ms[1..]);
    }
  }

  // ---- which migration stops a run ----

  /** The migration was recorded with the checksum of another text. */
  ghost predicate Drifted(recorded: Registry, m: Migration, digest: string -> string) {
    m.Key() in recorded && recorded[m.Key()].checksum != digest(m.name + [0 as char] + m.sql)
  }

  /** The data after executing, in order, the migrations of the list that are not recorded, if none of them fails. */
  function DataAfter<D>(recorded: set<(string, nat)>, data: D, ms: seq<Migration>, exec: (D, string) -> Option<D>): Option<D> {
    if ms == [] then Some(data)
    else if ms[0].Key() in recorded then DataAfter(recorded, data, ms[1..], exec)
    else
      match exec(data, ms[0].sql)
      case None => None
      case Some(d) => DataAfter(recorded, d, ms[1..], exec)
  }

  /** Migration `i` is the first that the run cannot get past: it has drifted, or its SQL fails. */
  ghost predicate StopsAt<D>(db: Db<D>, ms: seq<Migration>, i: nat, exec: (D, string) -> Option<D>, digest: string -> string) {
    && i < |ms| && (forall j | 0 <= j < i :: !Drifted(db.recorded, ms[j], digest))
    && var reached := DataAfter(db.recorded.Keys, db.data, ms[..i], exec);
       reached.Some? && (Drifted(db.recorded, ms[i], digest)
                         || (ms[i].Key() !in db.recorded && exec(reached.value, ms[i].sql).None?))
  }

  ghost function ErrorAt(recorded: Registry, m: Migration, digest: string -> string): DbError {
    if Drifted(recorded, m, digest)
    then ChecksumMismatch(m.moduleId, m.version, recorded[m.Key()].checksum, digest(m.name + [0 as char] + m.sql))
    else Sqlite
  }

  lemma {:induction false} DataAfterIgnores<D>(recorded: set<(string, nat)>, k: (string, nat), data: D, ms: seq<Migration>, exec: (D, string) -> Option<D>)
    requires forall i | 0 <= i < |ms| :: ms[i].Key() != k
    ensures DataAfter(recorded + {k}, data, ms, exec) == DataAfter(recorded, data, ms, exec)
  {
    if ms != [] {
      assert ms[0].Key() != k;
      forall i | 0 <= i < |ms[1..]| ensures ms[1..][i].Key() != k {
        assert ms[1..][i] == ms[i + 1];
      }
      DataAfterIgnores(recorded, k, data, ms[1..], exec);
      if exec(data, ms[0].sql).Some? {
        DataAfterIgnores(recorded, k, exec(data, ms[0].sql).value, ms[1..], exec);
      }
    }
  }

  /** The first migration is handled: where the rest stops is where the list stops, one later. */
  lemma {:induction false} StopsLater<D>(db: Db<D>, ms: seq<Migration>, i: nat, exec: (D, string) -> Option<D>, digest: string -> string)
    requires NoRepeats(ms) && 0 < i < |ms| && !Drifted(db.recorded, ms[0], digest)
    requires ms[0].Key() !in db.recorded ==> exec(db.data, ms[0].sql).Some?
    ensures var next := After(db, ms[0], exec, digest);
            && (StopsAt(db, ms, i, exec, digest) <==> StopsAt(next, ms[1..], i - 1, exec, digest))
            && ErrorAt(db.recorded, ms[i], digest) == ErrorAt(next.recorded, ms[1..][i - 1], digest)
  {
    var next, rest := After(db, ms[0], exec, digest), ms[1..];
    forall j | 1 <= j < |ms|
      ensures rest[j - 1] == ms[j] && ms[j].Key() != ms[0].Key()
      ensures ms[j].Key() in next.recorded <==> ms[j].Key() in db.recorded
      ensures Drifted(next.recorded, ms[j], digest) <==> Drifted(db.recorded, ms[j], digest)
    {
    }
    DataAfterFirst(db, ms, i, exec, digest);
    forall j | 0 <= j < i - 1 ensures Drifted(next.recorded, rest[j], digest) <==> Drifted(db.recorded, ms[j + 1], digest) {
      assert rest[j] == ms[j + 1];
    }
    forall j | 1 <= j < i ensures Drifted(db.recorded, ms[j], digest) <==> Drifted(next.recorded, rest[j - 1], digest) {}
  }

  lemma {:induction false} DataAfterFirst<D>(db: Db<D>, ms: seq<Migration>, i: nat, exec: (D, string) -> Option<D>, digest: string -> string)
    requires NoRepeats(ms) && 0 < i <= |ms|
    requires ms[0].Key() !in db.recorded ==> exec(db.data, ms[0].sql).Some?
    ensures var next := After(db, ms[0], exec, digest);
            DataAfter(db.recorded.Keys, db.data, ms[..i], exec) == DataAfter(next.recorded.Keys, next.data, ms[1..][..i - 1], exec)
  {
    var next := After(db, ms[0], exec, digest);
    assert ms[..i][1..] == ms[1..][..i - 1];
    if ms[0].Key() !in db.recorded {
      var rest := ms[1..][..i - 1];
      forall j | 0 <= j < |rest| ensures rest[j].Key() != ms[0].Key() {
        assert rest[j] == ms[j + 1];
      }
      DataAfterIgnores(db.recorded.Keys, ms[0].Key(), next.data, ms[1..][..i - 1], exec);
      assert next.recorded.Keys == db.recorded.Keys + {ms[0].Key()};
    }
  }

  lemma {:induction false} StopsIffFails<D>(db: Db<D>, ms: seq<Migration>, exec: (D, string) -> Option<D>, digest: string -> string)
    requires NoRepeats(ms)
    ensures forall i: nat | StopsAt(db, ms, i, exec, digest) ::
              ApplyList(db, ms, exec, digest).outcome == Err(ErrorAt(db.recorded, ms[i], digest))
    ensures ApplyList(db, ms, exec, digest).outcome.Err? ==> exists i: nat :: StopsAt(db, ms, i, exec, digest)
    decreases |ms|
  {
    if ms != [] {
      assert ms[..0] == [];
      if Drifted(db.recorded, ms[0], digest) || (ms[0].Key() !in db.recorded && exec(db.data, ms[0].sql).None?) {
        assert StopsAt(db, ms, 0, exec, digest);
        forall i: nat | StopsAt(db, ms, i, exec, digest) ensures i == 0 {
          StopsFirst(db, ms, i, exec, digest);
        }
      } else {
        var next := After(db, ms[0], exec, digest);
        assert NoRepeats(ms[1..]) by { assert forall j | 0 <= j < |ms[1..]| :: ms[1..][j] == ms[j + 1]; }
        StopsIffFails(next, ms[1..], exec, digest);
        forall i: nat | StopsAt(db, ms, i, exec, digest)
          ensures ApplyList(db, ms, exec, digest).outcome == Err(ErrorAt(db.recorded, ms[i], digest))
        {
          StopsLater(db, ms, i, exec, digest);
        }
        if ApplyList(db, ms, exec, digest).outcome.Err? {
          var i: nat :| StopsAt(next, ms[1..], i, exec, digest);
          StopsLater(db, ms, i + 1, exec, digest);
          assert StopsAt(db, ms, i + 1, exec, digest);
        }
      }
    }
  }

  /** Nothing is reached behind a migration that cannot be got past. */
  lemma {:induction false} StopsFirst<D>(db: Db<D>, ms: seq<Migration>, i: nat, exec: (D, string) -> Option<D>, digest: string -> string)
    requires StopsAt(db, ms, i, exec, digest)
    requires Drifted(db.recorded, ms[0], digest) || (ms[0].Key() !in db.recorded && exec(db.data, ms[0].sql).None?)
    ensures i == 0
  {
    assert i > 0 ==> ms[..i][0] == ms[0] && DataAfter(db.recorded.Keys, db.data, ms[..i], exec).Some?;
  }

  /**
   A run ends with a checksum mismatch if and only if some listed migration was recorded with the
   checksum of another text while everything before it was recorded alike or executed; the error
   names the first such migration and both checksums. It ends with an SQL error if and only if, in
   the same way, the SQL of a migration that was not recorded is the first thing to fail.
   */
  lemma {:induction false} FailsIff<D>(db: Db<D>, ms: seq<Migration>, exec: (D, string) -> Option<D>, digest: string -> string)
    requires NoRepeats(ms)
    ensures ApplyList(db, ms, exec, digest).outcome.Err? <==> exists i: nat :: StopsAt(db, ms, i, exec, digest)
    ensures forall id, version: nat, recorded, computed ::
              ApplyList(db, ms, exec, digest).outcome == Err(ChecksumMismatch(id, version, recorded, computed)) <==>
                exists i: nat :: StopsAt(db, ms, i, exec, digest) && ms[i].Key() == (id, version) && ms[i].Key() in db.recorded
                  && db.recorded[ms[i].Key()].checksum == recorded && digest(ms[i].name + [0 as char] + ms[i].sql) == computed
    ensures ApplyList(db, ms, exec, digest).outcome == Err(Sqlite) <==>
              exists i: nat :: StopsAt(db, ms, i, exec, digest) && ms[i].Key() !in db.recorded
  {
    StopsIffFails(db, ms, exec, digest);
    hide ApplyList, NoRepeats;
    if i: nat :| StopsAt(db, ms, i, exec, digest) {
      forall j: nat | StopsAt(db, ms, j, exec, digest) ensures j == i {
        StopsOnce(db, ms, i, j, exec, digest);
        StopsOnce(db, ms, j, i, exec, digest);
      }
    }
  }

  lemma {:induction false} StopsOnce<D>(db: Db<D>, ms: seq<Migration>, i: nat, j: nat, exec: (D, string) -> Option<D>, digest: string -> string)
    requires StopsAt(db, ms, i, exec, digest) && StopsAt(db, ms, j, exec, digest)
    ensures i <= j
  {
    if j < i && !Drifted(db.recorded, ms[j], digest) {
      assert ms[..i][..j] == ms[..j] && ms[..i][j] == ms[j];
      DataAfterSplit(db.recorded.Keys, db.data, ms[..i], j, exec);
    }
  }

  lemma {:induction false} DataAfterSplit<D>(recorded: set<(string, nat)>, data: D, ms: seq<Migration>, j: nat, exec: (D, string) -> Option<D>)
    requires j < |ms| && DataAfter(recorded, data, ms, exec).Some? && ms[j].Key() !in recorded
    ensures DataAfter(recorded, data, ms[..j], exec).Some?
    ensures exec(DataAfter(recorded, data, ms[..j], exec).value, ms[j].sql).Some?
  {
    if j == 0 {
      assert ms[..0] == [];
    } else {
      assert ms[..j][1..] == ms[1..][..j - 1] && ms[1..][j - 1] == ms[j];
      if ms[0].Key() in recorded {
        DataAfterSplit(recorded, data, ms[1..], j - 1, exec);
      } else {
        DataAfterSplit(recorded, exec(data, ms[0].sql).value, ms[1..], j - 1, exec);
      }
    }
  }

  /** After a successful run every listed migration is recorded with the checksum of its own name and SQL. */
  lemma {:induction false} SuccessVerifiesChecksums<D>(db: Db<D>, ms: seq<Migration>, exec: (D, string) -> Option<D>, digest: string -> string)
    requires ApplyList(db, ms, exec, digest).outcome.Ok?
    ensures forall i | 0 <= i < |ms| ::
              var recorded := ApplyList(db, ms, exec, digest).db.recorded;
              ms[i].Key() in recorded && recorded[ms[i].Key()].checksum == digest(ms[i].name + [0 as char] + ms[i].sql)
    decreases |ms|
  {
    if ms != [] {
      var next := After(db, ms[0], exec, digest);
      SuccessVerifiesChecksums(next, ms[1..], exec, digest);
      RecordedStays(next, ms[1..], exec, digest);
      assert forall i | 1 <= i < |ms| :: ms[i] == ms[1..][i - 1];
    }
  }

  /** A successful run leaves the data that executing the unrecorded migrations in list order gives. */
  lemma {:induction false} SuccessData<D>(db: Db<D>, ms: seq<Migration>, exec: (D, string) -> Option<D>, digest: string -> string)
    requires NoRepeats(ms) && ApplyList(db, ms, exec, digest).outcome.Ok?
    ensures DataAfter(db.recorded.Keys, db.data, ms, exec) == Some(ApplyList(db, ms, exec, digest).db.data)
    decreases |ms|
  {
    if ms != [] {
      assert NoRepeats(ms[1..]) by { assert forall j | 0 <= j < |ms[1..]| :: ms[1..][j] == ms[j + 1]; }
      SuccessData(After(db, ms[0], exec, digest), ms[1..], exec, digest);
      DataAfterFirst(db, ms, |ms|, exec, digest);
      assert ms[..|ms|] == ms && ms[1..][..|ms| - 1] == ms[1..];
    }
  }
}
