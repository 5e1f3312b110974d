/** What a merged history holds, and in what order, said of the two tables row by row. */
module HistoryEntries {
  import opened Wrappers
  import opened StableSort
  import opened Session
  import opened History

  /** An earlier inbound row, not the scheduler's own, that is in the thread if one is asked for. */
  predicate Asked(row: InRow, q: nat, current: nat, thread: Option<string>) {
    row.seqNo == q && q < current && row.message.sender != "schedule-meta" && (thread == None || row.message.thread == thread)
  }

  predicate AskedBy(inbox: seq<InRow>, q: nat, current: nat, thread: Option<string>) {
    exists i | 0 <= i < |inbox| :: Asked(inbox[i], q, current, thread)
  }

  /** A text reply to an earlier row: to one of the thread, if one is asked for. */
  predicate Replied(row: OutRow, q: nat, current: nat, thread: Option<string>, inbox: seq<InRow>) {
    && row.draft.kind == "text" && q < current
    && (row.inSeq == Some(q) || (row.inSeq == None && row.seqNo == q))
    && (thread == None || (row.inSeq == Some(q) && AskedBy(inbox, q, current, thread)))
  }

  /** The inbound rows that give entry `e`. */
  function AskedAs(inbox: seq<InRow>, e: Entry, current: nat, thread: Option<string>): set<nat> {
    set i: nat | i < |inbox| && Asked(inbox[i], e.seqNo, current, thread) && inbox[i].message.content == e.content
  }

  /** The outbound rows that give entry `e`. */
  function RepliedAs(outbox: seq<OutRow>, e: Entry, current: nat, thread: Option<string>, inbox: seq<InRow>): set<nat> {
    set k: nat | k < |outbox| && Replied(outbox[k], e.seqNo, current, thread, inbox) && outbox[k].draft.content == e.content
  }

  /** Every user entry comes from one such inbound row and every assistant entry from one such reply, none left out. */
  lemma {:induction false} EntriesComeFromRows(t: Tables, current: nat, thread: Option<string>, e: Entry)
    ensures multiset(Merged(t, current, thread))[e]
         == if e.role.User? then |AskedAs(t.inbox, e, current, thread)| else |RepliedAs(t.outbox, e, current, thread, t.inbox)|
  {
    var inThread := IncludedSeqs(t.inbox, current, thread);
    ThreadSeqs(t.inbox, current, thread);
    UsersCounted(t.inbox, current, thread, e);
    RepliesCounted(t.outbox, current, thread, t.inbox, inThread, e);
  }

  lemma {:induction false} ThreadSeqs(inbox: seq<InRow>, current: nat, thread: Option<string>)
    ensures forall q: nat :: q in IncludedSeqs(inbox, current, thread) <==> AskedBy(inbox, q, current, thread)
  {
    forall q: nat ensures q in IncludedSeqs(inbox, current, thread) <==> AskedBy(inbox, q, current, thread) {
      if q in IncludedSeqs(inbox, current, thread) {
        var row :| row in inbox && Included(row, current, thread) && row.seqNo == q;
        var i :| 0 <= i < |inbox| && inbox[i] == row;
        assert Asked(inbox[i], q, current, thread);
      }
      if AskedBy(inbox, q, current, thread) {
        var i :| 0 <= i < |inbox| && Asked(inbox[i], q, current, thread);
        assert inbox[i] in inbox && Included(inbox[i], current, thread);
      }
    }
  }

  lemma {:induction false} AskedOneMore(inbox: seq<InRow>, e: Entry, current: nat, thread: Option<string>)
    requires inbox != []
    ensures var n := |inbox| - 1;
            |AskedAs(inbox, e, current, thread)|
            == |AskedAs(inbox[..n], e, current, thread)|
               + if Asked(inbox[n], e.seqNo, current, thread) && inbox[n].message.content == e.content then 1 else 0
  {
    var n := |inbox| - 1;
    var all, init := AskedAs(inbox, e, current, thread), AskedAs(inbox[..n], e, current, thread);
    forall i: nat ensures i in init <==> i < n && i in all {
      assert i < n ==> inbox[..n][i] == inbox[i];
    }
    assert n in all <==> Asked(inbox[n], e.seqNo, current, thread) && inbox[n].message.content == e.content;
    hide Asked, AskedAs;
    assert all == init + if n in all then {n} else {};
  }

  lemma {:induction false} RepliedOneMore(outbox: seq<OutRow>, e: Entry, current: nat, thread: Option<string>, inbox: seq<InRow>)
    requires outbox != []
    ensures var n := |outbox| - 1;
            |RepliedAs(outbox, e, current, thread, inbox)|
            == |RepliedAs(outbox[..n], e, current, thread, inbox)|
               + if Replied(outbox[n], e.seqNo, current, thread, inbox) && outbox[n].draft.content == e.content then 1 else 0
  {
    var n := |outbox| - 1;
    var all, init := RepliedAs(outbox, e, current, thread, inbox), RepliedAs(outbox[..n], e, current, thread, inbox);
    forall i: nat ensures i in init <==> i < n && i in all {
      assert i < n ==> outbox[..n][i] == outbox[i];
    }
    assert n in all <==> Replied(outbox[n], e.seqNo, current, thread, inbox) && outbox[n].draft.content == e.content;
    hide Replied, RepliedAs;
    assert all == init + if n in all then {n} else {};
  }

  lemma {:induction false} UsersCounted(inbox: seq<InRow>, current: nat, thread: Option<string>, e: Entry)
    ensures multiset(UserEntries(inbox, current, thread))[e] == if e.role.User? then |AskedAs(inbox, e, current, thread)| else 0
  {
    if inbox != [] {
      UsersCounted(inbox[..|inbox| - 1], current, thread, e);
      AskedOneMore(inbox, e, current, thread);
      hide AskedAs;
    }
  }

  lemma {:induction false} RepliesCounted(outbox: seq<OutRow>, current: nat, thread: Option<string>, inbox: seq<InRow>, inThread: set<nat>, e: Entry)
    requires forall q: nat :: q in inThread <==> AskedBy(inbox, q, current, thread)
    ensures multiset(ReplyEntries(outbox, current, thread, inThread))[e]
         == if e.role.Assistant? then |RepliedAs(outbox, e, current, thread, inbox)| else 0
  {
    if outbox != [] {
      RepliesCounted(outbox[..|outbox| - 1], current, thread, inbox, inThread, e);
      RepliedOneMore(outbox, e, current, thread, inbox);
      hide RepliedAs, AskedBy;
    }
  }

  /** Entries ascend in the seq they belong to, and no reply comes before a user entry of its seq. */
  lemma {:induction false} EntriesInOrder(t: Tables, current: nat, thread: Option<string>, i: nat, j: nat)
    requires i < j < |Merged(t, current, thread)|
    ensures var h := Merged(t, current, thread);
            h[i].seqNo < h[j].seqNo || (h[i].seqNo == h[j].seqNo && (h[i].role.User? || h[j].role.Assistant?))
  {
    var h := Merged(t, current, thread);
    var users := UserEntries(t.inbox, current, thread);
    var replies := ReplyEntries(t.outbox, current, thread, IncludedSeqs(t.inbox, current, thread));
    SortIsStable(users + replies, BySeq());
    assert !BySeq()(h[j]).Before(BySeq()(h[i]));
    if h[i].seqNo == h[j].seqNo {
      var k := Rank(h[i].seqNo, 0);
      ClassOfConcat(users, replies, BySeq(), k);
      ClassKeepsOrder(h, BySeq(), k, i, j);
      OneRole(t.inbox, t.outbox, current, thread, IncludedSeqs(t.inbox, current, thread));
    }
  }

  /** Entries of one seq and one role stand as their rows stand in their table. */
  lemma {:induction false} EntriesInTableOrder(t: Tables, current: nat, thread: Option<string>, i: nat, j: nat)
    requires i < j < |Merged(t, current, thread)|
    requires var h := Merged(t, current, thread); h[i].seqNo == h[j].seqNo && h[i].role == h[j].role
    ensures var e, e' := Merged(t, current, thread)[i], Merged(t, current, thread)[j];
            if e.role.User?
            then exists a, b | 0 <= a < b < |t.inbox| :: a in AskedAs(t.inbox, e, current, thread) && b in AskedAs(t.inbox, e', current, thread)
            else exists a, b | 0 <= a < b < |t.outbox| ::
                   a in RepliedAs(t.outbox, e, current, thread, t.inbox) && b in RepliedAs(t.outbox, e', current, thread, t.inbox)
  {
    var h := Merged(t, current, thread);
    var inThread := IncludedSeqs(t.inbox, current, thread);
    var users := UserEntries(t.inbox, current, thread);
    var replies := ReplyEntries(t.outbox, current, thread, inThread);
    var k := Rank(h[i].seqNo, 0);
    SortIsStable(users + replies, BySeq());
    ClassOfConcat(users, replies, BySeq(), k);
    OneRole(t.inbox, t.outbox, current, thread, inThread);
    ThreadSeqs(t.inbox, current, thread);
    assert multiset(h) == multiset(users + replies) && h[i] in multiset(h) && h[j] in multiset(h);
    hide Merged, UserEntries, ReplyEntries, IncludedSeqs, AskedAs, RepliedAs, Class;
    if h[i].role.User? {
      var p, q := InFirst(h, users, replies, BySeq(), k, i, j);
      UsersFromRows(t.inbox, current, thread, p, q);
    } else {
      var p, q := InSecond(h, users, replies, BySeq(), k, i, j);
      RepliesFromRows(t.outbox, current, thread, t.inbox, inThread, p, q);
    }
  }

  lemma {:induction false} InFirst<T>(h: seq<T>, a: seq<T>, b: seq<T>, key: T -> Rank, k: Rank, i: nat, j: nat) returns (p: nat, q: nat)
    requires i < j < |h| && key(h[i]) == k && key(h[j]) == k
    requires Class(h, key, k) == Class(a, key, k) + Class(b, key, k) && h[j] !in b
    ensures p < q < |a| && a[p] == h[i] && a[q] == h[j]
  {
    var c, first, second := Class(h, key, k), Class(a, key, k), Class(b, key, k);
    ClassKeepsOrder(h, key, k, i, j);
    var p', q' :| 0 <= p' < q' < |c| && c[p'] == h[i] && c[q'] == h[j];
    hide Class;
    assert forall m | |first| <= m < |c| :: c[m] in second;
    ClassComesInOrder(a, key, k, p', q');
    p, q :| 0 <= p < q < |a| && a[p] == h[i] && a[q] == h[j];
  }

  lemma {:induction false} InSecond<T>(h: seq<T>, a: seq<T>, b: seq<T>, key: T -> Rank, k: Rank, i: nat, j: nat) returns (p: nat, q: nat)
    requires i < j < |h| && key(h[i]) == k && key(h[j]) == k
    requires Class(h, key, k) == Class(a, key, k) + Class(b, key, k) && h[i] !in a
    ensures p < q < |b| && b[p] == h[i] && b[q] == h[j]
  {
    var c, first, second := Class(h, key, k), Class(a, key, k), Class(b, key, k);
    ClassKeepsOrder(h, key, k, i, j);
    var p', q' :| 0 <= p' < q' < |c| && c[p'] == h[i] && c[q'] == h[j];
    hide Class;
    assert forall m | 0 <= m < |first| :: c[m] in first;
    assert p' >= |first| by { assert c[p'] !in first; }
    var p0, q0 := p' - |first|, q' - |first|;
    assert second[p0] == h[i] && second[q0] == h[j];
    ClassComesInOrder(b, key, k, p0, q0);
    p, q :| 0 <= p < q < |b| && b[p] == h[i] && b[q] == h[j];
  }

  lemma {:induction false} UserFromRow(inbox: seq<InRow>, current: nat, thread: Option<string>, p: nat)
    requires p < |UserEntries(inbox, current, thread)|
    ensures var u := UserEntries(inbox, current, thread);
            exists a | 0 <= a < |inbox| :: a in AskedAs(inbox, u[p], current, thread)
  {
    var n := |inbox| - 1;
    var u, init := UserEntries(inbox, current, thread), UserEntries(inbox[..n], current, thread);
    if p < |init| {
      UserFromRow(inbox[..n], current, thread, p);
      var a :| 0 <= a < n && a in AskedAs(inbox[..n], init[p], current, thread);
      assert a in AskedAs(inbox, u[p], current, thread);
    } else {
      assert n in AskedAs(inbox, u[p], current, thread);
    }
  }

  lemma {:induction false} UsersFromRows(inbox: seq<InRow>, current: nat, thread: Option<string>, p: nat, q: nat)
    requires p < q < |UserEntries(inbox, current, thread)|
    ensures var u := UserEntries(inbox, current, thread);
            exists a, b | 0 <= a < b < |inbox| :: a in AskedAs(inbox, u[p], current, thread) && b in AskedAs(inbox, u[q], current, thread)
  {
    var n := |inbox| - 1;
    var u, init := UserEntries(inbox, current, thread), UserEntries(inbox[..n], current, thread);
    if q < |init| {
      UsersFromRows(inbox[..n], current, thread, p, q);
      var a, b :| 0 <= a < b < n && a in AskedAs(inbox[..n], init[p], current, thread) && b in AskedAs(inbox[..n], init[q], current, thread);
      assert a in AskedAs(inbox, u[p], current, thread) && b in AskedAs(inbox, u[q], current, thread);
    } else {
      UserFromRow(inbox[..n], current, thread, p);
      var a :| 0 <= a < n && a in AskedAs(inbox[..n], init[p], current, thread);
      assert a in AskedAs(inbox, u[p], current, thread) && n in AskedAs(inbox, u[q], current, thread);
    }
  }

  lemma {:induction false} ReplyFromRow(outbox: seq<OutRow>, current: nat, thread: Option<string>, inbox: seq<InRow>, inThread: set<nat>, p: nat)
    requires forall q: nat :: q in inThread <==> AskedBy(inbox, q, current, thread)
    requires p < |ReplyEntries(outbox, current, thread, inThread)|
    ensures var r := ReplyEntries(outbox, current, thread, inThread);
            exists a | 0 <= a < |outbox| :: a in RepliedAs(outbox, r[p], current, thread, inbox)
  {
    hide AskedBy;
    var n := |outbox| - 1;
    var r, init := ReplyEntries(outbox, current, thread, inThread), ReplyEntries(outbox[..n], current, thread, inThread);
    if p < |init| {
      ReplyFromRow(outbox[..n], current, thread, inbox, inThread, p);
      var a :| 0 <= a < n && a in RepliedAs(outbox[..n], init[p], current, thread, inbox);
      assert a in RepliedAs(outbox, r[p], current, thread, inbox);
    } else {
      assert n in RepliedAs(outbox, r[p], current, thread, inbox);
    }
  }

  lemma {:induction false} RepliesFromRows(outbox: seq<OutRow>, current: nat, thread: Option<string>, inbox: seq<InRow>, inThread: set<nat>, p: nat, q: nat)
    requires forall q: nat :: q in inThread <==> AskedBy(inbox, q, current, thread)
    requires p < q < |ReplyEntries(outbox, current, thread, inThread)|
    ensures var r := ReplyEntries(outbox, current, thread, inThread);
            exists a, b | 0 <= a < b < |outbox| ::
              a in RepliedAs(outbox, r[p], current, thread, inbox) && b in RepliedAs(outbox, r[q], current, thread, inbox)
  {
    hide AskedBy;
    var n := |outbox| - 1;
    var r, init := ReplyEntries(outbox, current, thread, inThread), ReplyEntries(outbox[..n], current, thread, inThread);
    if q < |init| {
      RepliesFromRows(outbox[..n], current, thread, inbox, inThread, p, q);
      var a, b :| 0 <= a < b < n
        && a in RepliedAs(outbox[..n], init[p], current, thread, inbox) && b in RepliedAs(outbox[..n], init[q], current, thread, inbox);
      assert a in RepliedAs(outbox, r[p], current, thread, inbox) && b in RepliedAs(outbox, r[q], current, thread, inbox);
    } else {
      ReplyFromRow(outbox[..n], current, thread, inbox, inThread, p);
      var a :| 0 <= a < n && a in RepliedAs(outbox[..n], init[p], current, thread, inbox);
      assert a in RepliedAs(outbox, r[p], current, thread, inbox) && n in RepliedAs(outbox, r[q], current, thread, inbox);
    }
  }

  /** Two elements of a class stand in the sequence as they stand in the class. */
  lemma {:induction false} ClassComesInOrder<T>(s: seq<T>, key: T -> Rank, k: Rank, p: nat, q: nat)
    requires p < q < |Class(s, key, k)|
    ensures exists i, j | 0 <= i < j < |s| :: s[i] == Class(s, key, k)[p] && s[j] == Class(s, key, k)[q]
  {
    var n := |s| - 1;
    var init := Class(s[..n], key, k);
    if q < |init| {
      ClassComesInOrder(s[..n], key, k, p, q);
      var i, j :| 0 <= i < j < n && s[..n][i] == init[p] && s[..n][j] == init[q];
      assert s[i] == Class(s, key, k)[p] && s[j] == Class(s, key, k)[q];
    } else {
      assert init[p] in s[..n];
      var i :| 0 <= i < n && s[..n][i] == init[p];
      assert s[i] == Class(s, key, k)[p] && s[n] == Class(s, key, k)[q];
    }
  }

  lemma {:induction false} OneRole(inbox: seq<InRow>, outbox: seq<OutRow>, current: nat, thread: Option<string>, inThread: set<nat>)
    ensures forall e | e in UserEntries(inbox, current, thread) :: e.role.User?
    ensures forall e | e in ReplyEntries(outbox, current, thread, inThread) :: e.role.Assistant?
    decreases |inbox| + |outbox|
  {
    if inbox != [] { OneRole(inbox[..|inbox| - 1], outbox, current, thread, inThread); }
    if outbox != [] { OneRole(inbox, outbox[..|outbox| - 1], current, thread, inThread); }
  }

  /** Two elements of one rank stand in their class as they stand in the sequence. */
  lemma {:induction false} ClassKeepsOrder<T>(s: seq<T>, key: T -> Rank, k: Rank, i: nat, j: nat)
    requires i < j < |s| && key(s[i]) == k && key(s[j]) == k
    ensures exists p, q | 0 <= p < q < |Class(s, key, k)| :: Class(s, key, k)[p] == s[i] && Class(s, key, k)[q] == s[j]
  {
    ClassAt(s, key, k, i);
    ClassAt(s, key, k, j);
    assert s[..j] == s[..i + 1] + s[i + 1..j];
    ClassOfConcat(s[..i + 1], s[i + 1..j], key, k);
    assert s[..i + 1][..i] == s[..i];
  }

  lemma {:induction false} ClassAt<T>(s: seq<T>, key: T -> Rank, k: Rank, i: nat)
    requires i < |s| && key(s[i]) == k
    ensures |Class(s[..i], key, k)| < |Class(s, key, k)| && Class(s, key, k)[|Class(s[..i], key, k)|] == s[i]
  {
    assert s == s[..i + 1] + s[i + 1..] && s[..i + 1][..i] == s[..i];
    ClassOfConcat(s[..i + 1], s[i + 1..], key, k);
  }
}
