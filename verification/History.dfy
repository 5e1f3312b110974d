/**
 Conversation history for a turn: user entries from inbound rows and assistant entries from text
 replies, merged by one stable sort on the inbound seq each entry belongs to.
 */
module History {
  import opened Wrappers
  import opened StableSort
  import opened Session
  import opened Exchange

  datatype Role = User | Assistant

  datatype Entry = Entry(seqNo: nat, role: Role, content: string)

  function BySeq(): Entry -> Rank { (e: Entry) => Rank(e.seqNo, 0) }

  /** An inbound row that belongs in the history of the turn at `current`. */
  predicate Included(row: InRow, current: nat, thread: Option<string>) {
    row.seqNo < current && !row.IsMeta() && (thread.Some? ==> row.message.thread == thread)
  }

  // ---- what the two passes push ----

  function UserEntries(inbox: seq<InRow>, current: nat, thread: Option<string>): seq<Entry> {
    if inbox == [] then []
    else
      var row := inbox[|inbox| - 1];
      UserEntries(inbox[..|inbox| - 1], current, thread)
      + if Included(row, current, thread) then [Entry(row.seqNo, User, row.message.content)] else []
  }

  function IncludedSeqs(inbox: seq<InRow>, current: nat, thread: Option<string>): set<nat> {
    set row | row in inbox && Included(row, current, thread) :: row.seqNo
  }

  /** A reply sorts by the inbound row it answers; a row from before schema version 3 by its own seq. */
  function OrderSeq(row: OutRow): nat {
    match row.inSeq case Some(q) => q case None => row.seqNo
  }

  predicate ReplyIncluded(row: OutRow, current: nat, thread: Option<string>, inThread: set<nat>) {
    && row.draft.kind == "text"
    && OrderSeq(row) < current
    && (thread.Some? ==> row.inSeq.Some? && row.inSeq.value in inThread)
  }

  function ReplyEntries(outbox: seq<OutRow>, current: nat, thread: Option<string>, inThread: set<nat>): seq<Entry> {
    if outbox == [] then []
    else
      var row := outbox[|outbox| - 1];
      ReplyEntries(outbox[..|outbox| - 1], current, thread, inThread)
      + if ReplyIncluded(row, current, thread, inThread) then [Entry(OrderSeq(row), Assistant, row.draft.content)] else []
  }

  function Merged(t: Tables, current: nat, thread: Option<string>): seq<Entry> {
    SortBy(UserEntries(t.inbox, current, thread)
           + ReplyEntries(t.outbox, current, thread, IncludedSeqs(t.inbox, current, thread)), BySeq())
  }

  method BuildHistory(db: SessionDb, current: nat, thread: Option<string>) returns (entries: seq<Entry>)
    ensures entries == Merged(db.View(), current, thread)
  {
    var inbound, outbound := db.inbox, db.outbox;
    entries := [];
    var threadInSeqs: set<nat> := {};
    for i := 0 to |inbound|
      invariant entries == UserEntries(inbound[..i], current, thread)
      invariant threadInSeqs == IncludedSeqs(inbound[..i], current, thread)
    {
      var row := inbound[i];
      assert inbound[..i + 1][..i] == inbound[..i];
      assert forall r | r in inbound[..i + 1] :: r in inbound[..i] || r == row;
      if row.seqNo >= current || row.IsMeta() || (thread.Some? && row.message.thread != thread) {
        continue;
      }
      entries := entries + [Entry(row.seqNo, User, row.message.content)];
      threadInSeqs := threadInSeqs + {row.seqNo};
    }
    assert inbound[..|inbound|] == inbound;
    ghost var users := entries;
    for i := 0 to |outbound|
      invariant entries == users + ReplyEntries(outbound[..i], current, thread, threadInSeqs)
    {
      var row := outbound[i];
      assert outbound[..i + 1][..i] == outbound[..i];
      if row.draft.kind != "text" {
        continue;
      }
      var orderSeq := if row.inSeq.Some? then row.inSeq.value else row.seqNo;
      if orderSeq >= current || (thread.Some? && (row.inSeq.None? || row.inSeq.value !in threadInSeqs)) {
        continue;
      }
      entries := entries + [Entry(orderSeq, Assistant, row.draft.content)];
    }
    assert outbound[..|outbound|] == outbound;
    entries := SortBy(entries, BySeq());
  }

  // ---- the interleaving a reader expects ----

  /** The text replies to one inbound row, in table order. */
  function TextReplies(outbox: seq<OutRow>, q: nat): seq<Entry> {
    if outbox == [] then []
    else
      var row := outbox[|outbox| - 1];
      TextReplies(outbox[..|outbox| - 1], q)
      + if row.draft.kind == "text" && row.inSeq == Some(q) then [Entry(q, Assistant, row.draft.content)] else []
  }

  /** Each included inbound row in order, followed at once by its own text replies. */
  function Interleaved(inbox: seq<InRow>, outbox: seq<OutRow>, current: nat, thread: Option<string>): seq<Entry> {
    if inbox == [] then []
    else
      var row := inbox[|inbox| - 1];
      Interleaved(inbox[..|inbox| - 1], outbox, current, thread)
      + if Included(row, current, thread)
        then [Entry(row.seqNo, User, row.message.content)] + TextReplies(outbox, row.seqNo) else []
  }

  ghost predicate SeqOrdered(inbox: seq<InRow>) {
    forall i, j | 0 <= i < j < |inbox| :: inbox[i].seqNo < inbox[j].seqNo
  }

  /** Every text reply names a turn-driving inbound row. */
  ghost predicate Attributed(inbox: seq<InRow>, outbox: seq<OutRow>) {
    forall k | 0 <= k < |outbox| && outbox[k].draft.kind == "text" ::
      exists i :: 0 <= i < |inbox| && outbox[k].inSeq == Some(inbox[i].seqNo) && !inbox[i].IsMeta()
  }

  lemma {:induction false} TextRepliesAllOf(outbox: seq<OutRow>, q: nat, k: Rank)
    ensures Class(TextReplies(outbox, q), BySeq(), k) == if k == Rank(q, 0) then TextReplies(outbox, q) else []
    ensures forall e | e in TextReplies(outbox, q) :: e.seqNo == q
  {
    if outbox != [] {
      var row := outbox[|outbox| - 1];
      var init := TextReplies(outbox[..|outbox| - 1], q);
      TextRepliesAllOf(outbox[..|outbox| - 1], q, k);
      if row.draft.kind == "text" && row.inSeq == Some(q) {
        assert TextReplies(outbox, q)[..|init|] == init;
      } else {
        assert TextReplies(outbox, q) == init;
      }
    }
  }

  lemma {:induction false} InterleavedSeqs(inbox: seq<InRow>, outbox: seq<OutRow>, current: nat, thread: Option<string>)
    ensures forall e | e in Interleaved(inbox, outbox, current, thread) :: exists i :: 0 <= i < |inbox| && inbox[i].seqNo == e.seqNo
  {
    if inbox != [] {
      var n := |inbox| - 1;
      InterleavedSeqs(inbox[..n], outbox, current, thread);
      TextRepliesAllOf(outbox, inbox[n].seqNo, Rank(0, 0));
      forall e | e in Interleaved(inbox, outbox, current, thread)
        ensures exists i :: 0 <= i < |inbox| && inbox[i].seqNo == e.seqNo
      {
        if e in Interleaved(inbox[..n], outbox, current, thread) {
          var i :| 0 <= i < n && inbox[..n][i].seqNo == e.seqNo;
          assert inbox[i].seqNo == e.seqNo;
        } else {
          assert inbox[n].seqNo == e.seqNo;
        }
      }
    }
  }

  lemma {:induction false} InterleavedAscends(inbox: seq<InRow>, outbox: seq<OutRow>, current: nat, thread: Option<string>)
    requires SeqOrdered(inbox)
    ensures Ascending(Interleaved(inbox, outbox, current, thread), BySeq())
  {
    if inbox != [] {
      var n := |inbox| - 1;
      InterleavedAscends(inbox[..n], outbox, current, thread);
      InterleavedSeqs(inbox[..n], outbox, current, thread);
      TextRepliesAllOf(outbox, inbox[n].seqNo, Rank(0, 0));
      var a := Interleaved(inbox[..n], outbox, current, thread);
      var b := Interleaved(inbox, outbox, current, thread)[|a|..];
      assert Interleaved(inbox, outbox, current, thread) == a + b;
      forall i | 0 <= i < |a| ensures a[i].seqNo < inbox[n].seqNo {
        assert a[i] in a;
        var j :| 0 <= j < n && inbox[..n][j].seqNo == a[i].seqNo;
      }
      forall i | 0 <= i < |b| ensures b[i].seqNo == inbox[n].seqNo {
        assert i > 0 ==> b[i] in TextReplies(outbox, inbox[n].seqNo);
      }
    }
  }

  /** The class of one inbound seq in the interleaving: its user entry, then its replies, or nothing. */
  ghost predicate SplitsAt(inbox: seq<InRow>, outbox: seq<OutRow>, current: nat, thread: Option<string>, q: nat) {
    Class(Interleaved(inbox, outbox, current, thread), BySeq(), Rank(q, 0))
    == Class(UserEntries(inbox, current, thread), BySeq(), Rank(q, 0))
       + if q in IncludedSeqs(inbox, current, thread) then TextReplies(outbox, q) else []
  }

  lemma {:induction false} SplitsAfterPush(inbox: seq<InRow>, outbox: seq<OutRow>, current: nat, thread: Option<string>, q: nat)
    requires inbox != [] && SeqOrdered(inbox)
    requires SplitsAt(inbox[..|inbox| - 1], outbox, current, thread, q)
    requires Included(inbox[|inbox| - 1], current, thread)
    ensures SplitsAt(inbox, outbox, current, thread, q)
  {
    var n, k := |inbox| - 1, Rank(q, 0);
    var init, row := inbox[..n], inbox[n];
    var merged, users := Interleaved(init, outbox, current, thread), UserEntries(init, current, thread);
    var user, replies := [Entry(row.seqNo, User, row.message.content)], TextReplies(outbox, row.seqNo);
    assert Interleaved(inbox, outbox, current, thread) == merged + (user + replies);
    assert UserEntries(inbox, current, thread) == users + user;
    IncludedSeqsGrow(inbox, current, thread, q);
    if q == row.seqNo {
      NoEntryOf(init, current, thread, q);
      PushOwnClass(merged, users, row, outbox);
    } else {
      PushOtherClass(merged, users, row, outbox, k);
    }
  }

  lemma {:induction false} InterleavedClass(inbox: seq<InRow>, outbox: seq<OutRow>, current: nat, thread: Option<string>, q: nat)
    requires SeqOrdered(inbox)
    ensures SplitsAt(inbox, outbox, current, thread, q)
  {
    if inbox != [] {
      var init := inbox[..|inbox| - 1];
      InterleavedClass(init, outbox, current, thread, q);
      if Included(inbox[|inbox| - 1], current, thread) {
        SplitsAfterPush(inbox, outbox, current, thread, q);
      } else {
        IncludedSeqsGrow(inbox, current, thread, q);
        assert UserEntries(inbox, current, thread) == UserEntries(init, current, thread);
        assert Interleaved(inbox, outbox, current, thread) == Interleaved(init, outbox, current, thread);
      }
    }
  }

  lemma {:induction false} IncludedSeqsGrow(inbox: seq<InRow>, current: nat, thread: Option<string>, q: nat)
    requires inbox != []
    ensures var row := inbox[|inbox| - 1];
            q in IncludedSeqs(inbox, current, thread) <==>
            q in IncludedSeqs(inbox[..|inbox| - 1], current, thread) || (Included(row, current, thread) && q == row.seqNo)
  {
    assert inbox == inbox[..|inbox| - 1] + [inbox[|inbox| - 1]];
  }

  lemma {:induction false} PushRowClass(merged: seq<Entry>, users: seq<Entry>, row: InRow, outbox: seq<OutRow>, k: Rank)
    ensures var user, replies := [Entry(row.seqNo, User, row.message.content)], TextReplies(outbox, row.seqNo);
      && Class(users + user, BySeq(), k) == Class(users, BySeq(), k) + Class(user, BySeq(), k)
      && Class(merged + (user + replies), BySeq(), k)
         == Class(merged, BySeq(), k) + (Class(user, BySeq(), k) + if k == Rank(row.seqNo, 0) then replies else [])
      && Class(user, BySeq(), k) == if k == Rank(row.seqNo, 0) then user else []
  {
    var user, replies := [Entry(row.seqNo, User, row.message.content)], TextReplies(outbox, row.seqNo);
    TextRepliesAllOf(outbox, row.seqNo, k);
    ClassOfConcat(merged, user + replies, BySeq(), k);
    ClassOfConcat(user, replies, BySeq(), k);
    ClassOfConcat(users, user, BySeq(), k);
  }

  lemma {:induction false} PushOwnClass(merged: seq<Entry>, users: seq<Entry>, row: InRow, outbox: seq<OutRow>)
    requires Class(merged, BySeq(), Rank(row.seqNo, 0)) == [] && Class(users, BySeq(), Rank(row.seqNo, 0)) == []
    ensures var user, replies := [Entry(row.seqNo, User, row.message.content)], TextReplies(outbox, row.seqNo);
      && Class(merged + (user + replies), BySeq(), Rank(row.seqNo, 0)) == user + replies
      && Class(users + user, BySeq(), Rank(row.seqNo, 0)) == user
  {
    PushRowClass(merged, users, row, outbox, Rank(row.seqNo, 0));
  }

  lemma {:induction false} PushOtherClass(merged: seq<Entry>, users: seq<Entry>, row: InRow, outbox: seq<OutRow>, k: Rank)
    requires k != Rank(row.seqNo, 0)
    ensures var user, replies := [Entry(row.seqNo, User, row.message.content)], TextReplies(outbox, row.seqNo);
      && Class(merged + (user + replies), BySeq(), k) == Class(merged, BySeq(), k)
      && Class(users + user, BySeq(), k) == Class(users, BySeq(), k)
  {
    PushRowClass(merged, users, row, outbox, k);
  }

  lemma {:induction false} NoEntryOf(inbox: seq<InRow>, current: nat, thread: Option<string>, q: nat)
    requires forall i | 0 <= i < |inbox| :: inbox[i].seqNo != q
    ensures Class(UserEntries(inbox, current, thread), BySeq(), Rank(q, 0)) == []
    ensures q !in IncludedSeqs(inbox, current, thread)
  {
    if inbox != [] {
      var n := |inbox| - 1;
      NoEntryOf(inbox[..n], current, thread, q);
      assert inbox[n].seqNo != q;
      var u := UserEntries(inbox[..n], current, thread);
      if Included(inbox[n], current, thread) {
        ClassOfConcat(u, [Entry(inbox[n].seqNo, User, inbox[n].message.content)], BySeq(), Rank(q, 0));
      } else {
        assert UserEntries(inbox, current, thread) == u;
      }
    }
  }

  /** What one outbound row adds to the replies pushed, and to the text replies of `q`. */
  function ReplyEntry(row: OutRow, current: nat, thread: Option<string>, inThread: set<nat>): seq<Entry> {
    if ReplyIncluded(row, current, thread, inThread) then [Entry(OrderSeq(row), Assistant, row.draft.content)] else []
  }

  function TextReply(row: OutRow, q: nat): seq<Entry> {
    if row.draft.kind == "text" && row.inSeq == Some(q) then [Entry(q, Assistant, row.draft.content)] else []
  }

  lemma {:induction false} ReplyEntriesLast(outbox: seq<OutRow>, current: nat, thread: Option<string>, inThread: set<nat>)
    requires outbox != []
    ensures ReplyEntries(outbox, current, thread, inThread)
         == ReplyEntries(outbox[..|outbox| - 1], current, thread, inThread) + ReplyEntry(outbox[|outbox| - 1], current, thread, inThread)
  {
  }

  lemma {:induction false} TextRepliesLast(outbox: seq<OutRow>, q: nat)
    requires outbox != []
    ensures TextReplies(outbox, q) == TextReplies(outbox[..|outbox| - 1], q) + TextReply(outbox[|outbox| - 1], q)
  {
  }

  lemma {:induction false} ClassOfEntry(row: OutRow, current: nat, thread: Option<string>, inThread: set<nat>, q: nat)
    requires row.draft.kind == "text" ==> row.inSeq.Some?
    ensures Class(ReplyEntry(row, current, thread, inThread), BySeq(), Rank(q, 0))
         == if q < current && (thread.Some? ==> q in inThread) then TextReply(row, q) else []
  {
  }

  lemma {:induction false} ReplyClass(outbox: seq<OutRow>, current: nat, thread: Option<string>, inThread: set<nat>, q: nat)
    requires forall k | 0 <= k < |outbox| && outbox[k].draft.kind == "text" :: outbox[k].inSeq.Some?
    ensures Class(ReplyEntries(outbox, current, thread, inThread), BySeq(), Rank(q, 0))
         == if q < current && (thread.Some? ==> q in inThread) then TextReplies(outbox, q) else []
  {
    if outbox != [] {
      hide Class, ReplyEntries, TextReplies, ReplyEntry, TextReply;
      var n := |outbox| - 1;
      var row := outbox[n];
      ReplyClass(outbox[..n], current, thread, inThread, q);
      ReplyEntriesLast(outbox, current, thread, inThread);
      TextRepliesLast(outbox, q);
      ClassOfConcat(ReplyEntries(outbox[..n], current, thread, inThread), ReplyEntry(row, current, thread, inThread), BySeq(), Rank(q, 0));
      ClassOfEntry(row, current, thread, inThread, q);
    }
  }

  lemma {:induction false} RepliesOnlyToRows(inbox: seq<InRow>, outbox: seq<OutRow>, q: nat)
    requires Attributed(inbox, outbox)
    requires TextReplies(outbox, q) != []
    ensures exists i :: 0 <= i < |inbox| && inbox[i].seqNo == q && !inbox[i].IsMeta()
  {
    var n := |outbox| - 1;
    if !(outbox[n].draft.kind == "text" && outbox[n].inSeq == Some(q)) {
      forall k | 0 <= k < n && outbox[..n][k].draft.kind == "text"
        ensures exists i :: 0 <= i < |inbox| && outbox[..n][k].inSeq == Some(inbox[i].seqNo) && !inbox[i].IsMeta()
      {
        assert outbox[..n][k] == outbox[k];
      }
      RepliesOnlyToRows(inbox, outbox[..n], q);
    }
  }

  /** Replies that pass the current/thread filters are exactly those to included rows. */
  lemma {:induction false} FilterMeansIncluded(t: Tables, current: nat, thread: Option<string>, q: nat)
    requires Attributed(t.inbox, t.outbox) && TextReplies(t.outbox, q) != []
    requires SeqOrdered(t.inbox)
    ensures var inc := IncludedSeqs(t.inbox, current, thread);
            q in inc <==> q < current && (thread.Some? ==> q in inc)
  {
    RepliesOnlyToRows(t.inbox, t.outbox, q);
    var i :| 0 <= i < |t.inbox| && t.inbox[i].seqNo == q && !t.inbox[i].IsMeta();
    if q < current && thread.None? {
      assert t.inbox[i] in t.inbox && Included(t.inbox[i], current, thread);
    }
  }

  /**
   Whatever the raw outbound seqs are, push-then-stable-sort gives the interleaving: every
   included inbound row in seq order, each followed by its own text replies in order.
   */
  lemma {:induction false} HistoryInterleaves(t: Tables, current: nat, thread: Option<string>)
    requires SeqOrdered(t.inbox) && Attributed(t.inbox, t.outbox)
    ensures Merged(t, current, thread) == Interleaved(t.inbox, t.outbox, current, thread)
  {
    var inc := IncludedSeqs(t.inbox, current, thread);
    var users := UserEntries(t.inbox, current, thread);
    var replies := ReplyEntries(t.outbox, current, thread, inc);
    var want := Interleaved(t.inbox, t.outbox, current, thread);
    SortIsStable(users + replies, BySeq());
    InterleavedAscends(t.inbox, t.outbox, current, thread);
    forall k ensures Class(users + replies, BySeq(), k) == Class(want, BySeq(), k) {
      ClassOfConcat(users, replies, BySeq(), k);
      if k.minor == 0 {
        InterleavedClass(t.inbox, t.outbox, current, thread, k.major);
        ReplyClass(t.outbox, current, thread, inc, k.major);
        if TextReplies(t.outbox, k.major) != [] {
          FilterMeansIncluded(t, current, thread, k.major);
        }
      } else {
        NoSuchRank(users + replies, k);
        NoSuchRank(want, k);
      }
    }
    SortedUnique(Merged(t, current, thread), want, BySeq());
  }

  lemma {:induction false} NoSuchRank(s: seq<Entry>, k: Rank)
    requires k.minor != 0
    ensures Class(s, BySeq(), k) == []
  {
    if Class(s, BySeq(), k) != [] {
      assert Class(s, BySeq(), k)[0] in Class(s, BySeq(), k);
    }
  }

  lemma {:induction false} FlatRowsAttributed(commits: seq<Commit>, k: nat)
    requires k < |Flat(commits)|
    ensures exists i, j :: 0 <= i < |commits| && 0 <= j < |commits[i].rows| && commits[i].rows[j] == Flat(commits)[k]
  {
    var n := |commits| - 1;
    var head := Flat(commits[..n]);
    if k < |head| {
      FlatRowsAttributed(commits[..n], k);
      var i, j :| 0 <= i < n && 0 <= j < |commits[..n][i].rows| && commits[..n][i].rows[j] == head[k];
      assert commits[i].rows[j] == Flat(commits)[k];
    } else {
      assert commits[n].rows[k - |head|] == Flat(commits)[k];
    }
  }

  /** In every state a seeded run can reach, the tables satisfy what `HistoryInterleaves` asks. */
  lemma {:induction false} ReachableTablesInterleave(s: State, current: nat, thread: Option<string>)
    requires Inv(s)
    ensures Merged(s.t, current, thread) == Interleaved(s.t.inbox, s.t.outbox, current, thread)
  {
    forall k | 0 <= k < |s.t.outbox| && s.t.outbox[k].draft.kind == "text"
      ensures exists i :: 0 <= i < |s.t.inbox| && s.t.outbox[k].inSeq == Some(s.t.inbox[i].seqNo) && !s.t.inbox[i].IsMeta()
    {
      FlatRowsAttributed(s.commits, k);
      var i, j :| 0 <= i < |s.commits| && 0 <= j < |s.commits[i].rows| && s.commits[i].rows[j] == s.t.outbox[k];
      var q := s.commits[i].inSeq;
      assert s.commits[i] in s.commits;
      assert q in s.t.acks && s.t.inbox[q / 2].seqNo == q;
    }
    HistoryInterleaves(s.t, current, thread);
  }
}
