/**
 The two per-session databases as tables in primary-key order: `inbound.db` (messages_in,
 delivered) and `outbound.db` (messages_out, processing_ack). The functions say what one
 committed statement or transaction does to the tables; class `SessionDb` updates them in place.
 */
module Session {
  import opened Wrappers

  /** Host-written schedule rows carry this sender and never drive a turn. */
  const META_SENDER := "schedule-meta"

  datatype Message = Message(sender: string, content: string, metadata: Option<string>, thread: Option<string>)

  datatype InRow = InRow(seqNo: nat, message: Message, key: Option<string>) {
    predicate IsMeta() { message.sender == META_SENDER }
  }

  /** One `{ kind, content }` row a turn wants to emit. */
  datatype Draft = Draft(kind: string, content: string)

  /** `inSeq` is absent only on rows written before schema version 3. */
  datatype OutRow = OutRow(seqNo: nat, draft: Draft, inSeq: Option<nat>)

  datatype Tables = Tables(inbox: seq<InRow>, delivered: set<nat>, outbox: seq<OutRow>, acks: set<nat>)

  // ---- Sequence allocation: the start value, then MAX(seq) + 2 ----

  function MaxSeq(seqs: seq<nat>): (m: Option<nat>)
    ensures m.None? <==> seqs == []
    ensures m.Some? ==> m.value in seqs && forall i | 0 <= i < |seqs| :: seqs[i] <= m.value
  {
    if seqs == [] then None
    else
      match MaxSeq(seqs[1..])
      case None => Some(seqs[0])
      case Some(m) => Some(if m < seqs[0] then seqs[0] else m)
  }

  function NextSeq(seqs: seq<nat>, first: nat): nat {
    match MaxSeq(seqs)
    case None => first
    case Some(m) => m + 2
  }

  function InSeqs(rows: seq<InRow>): seq<nat> {
    seq(|rows|, i requires 0 <= i < |rows| => rows[i].seqNo)
  }

  function OutSeqs(rows: seq<OutRow>): seq<nat> {
    seq(|rows|, i requires 0 <= i < |rows| => rows[i].seqNo)
  }

  /** A table numbered first, first + 2, first + 4, ... continues that way. */
  lemma {:induction false} NextContinues(seqs: seq<nat>, first: nat)
    requires forall i | 0 <= i < |seqs| :: seqs[i] == first + 2 * i
    ensures NextSeq(seqs, first) == first + 2 * |seqs|
  {
    if seqs != [] {
      var m := MaxSeq(seqs).value;
      assert seqs[|seqs| - 1] <= m;
    }
  }

  // ---- inbound.db ----

  /** The row of a key, if any row carries it. */
  function FindKey(inbox: seq<InRow>, key: string): (r: Option<nat>)
    ensures r.Some? ==> r.value < |inbox| && inbox[r.value].key == Some(key)
    ensures r.None? ==> forall row | row in inbox :: row.key != Some(key)
  {
    if inbox == [] then None
    else if inbox[0].key == Some(key) then Some(0)
    else
      match FindKey(inbox[1..], key)
      case None => None
      case Some(i) => Some(i + 1)
  }

  function Append(t: Tables, m: Message, key: Option<string>): (Tables, nat) {
    var s := NextSeq(InSeqs(t.inbox), 0);
    (t.(inbox := t.inbox + [InRow(s, m, key)]), s)
  }

  /** An enqueue; with a known key the existing row is reused and nothing is written. */
  function Enqueue(t: Tables, m: Message, key: Option<string>): (Tables, nat) {
    match key
    case None => Append(t, m, None)
    case Some(k) =>
      match FindKey(t.inbox, k)
      case Some(i) => (t, t.inbox[i].seqNo)
      case None => Append(t, m, key)
  }

  /** Rewrite the content and metadata of a key's row in place, or insert it. */
  function Upsert(t: Tables, key: string, m: Message): (Tables, nat) {
    match FindKey(t.inbox, key)
    case None => Append(t, m.(thread := None), Some(key))
    case Some(i) =>
      var row := t.inbox[i];
      var edited := row.message.(content := m.content, metadata := m.metadata);
      (t.(inbox := t.inbox[i := row.(message := edited)]), row.seqNo)
  }

  /** Some row carries the key; no row is looked for without one. */
  ghost predicate Carries(inbox: seq<InRow>, key: Option<string>) {
    key.Some? && exists i :: 0 <= i < |inbox| && inbox[i].key == key
  }

  lemma {:induction false} FoundIffCarried(inbox: seq<InRow>, key: string)
    ensures FindKey(inbox, key).Some? <==> Carries(inbox, Some(key))
  {
    if FindKey(inbox, key).None? {
      forall i | 0 <= i < |inbox| ensures inbox[i].key != Some(key) {
        assert inbox[i] in inbox;
      }
    }
  }

  lemma {:induction false} NextIsAbove(inbox: seq<InRow>)
    ensures forall row | row in inbox :: row.seqNo < NextSeq(InSeqs(inbox), 0)
  {
    forall row | row in inbox ensures row.seqNo < NextSeq(InSeqs(inbox), 0) {
      var i :| 0 <= i < |inbox| && inbox[i] == row;
      assert InSeqs(inbox)[i] == row.seqNo;
    }
  }

  lemma {:induction false} NextOutIsAbove(outbox: seq<OutRow>)
    ensures forall row | row in outbox :: row.seqNo < NextSeq(OutSeqs(outbox), 1)
  {
    forall row | row in outbox ensures row.seqNo < NextSeq(OutSeqs(outbox), 1) {
      var i :| 0 <= i < |outbox| && outbox[i] == row;
      assert OutSeqs(outbox)[i] == row.seqNo;
    }
  }

  /** What an enqueue does, said of the rows. */
  lemma {:induction false} EnqueueMeans(t: Tables, m: Message, key: Option<string>)
    ensures var (t', s) := Enqueue(t, m, key);
      && t' == t.(inbox := t'.inbox)
      && (key.Some? ==> exists i :: 0 <= i < |t'.inbox| && t'.inbox[i].seqNo == s && t'.inbox[i].key == key)
      && (Carries(t.inbox, key) ==> t' == t)
      && (!Carries(t.inbox, key) ==> t'.inbox == t.inbox + [InRow(s, m, key)] && forall row | row in t.inbox :: row.seqNo < s)
  {
    NextIsAbove(t.inbox);
    var (t', s) := Enqueue(t, m, key);
    if key.Some? { FoundIffCarried(t.inbox, key.value); }
    if key.Some? && FindKey(t.inbox, key.value).Some? {
      assert t'.inbox[FindKey(t.inbox, key.value).value].seqNo == s;
    } else {
      assert t'.inbox[|t.inbox|] == InRow(s, m, key);
    }
  }

  /** Row `i` carried the key and had its content and metadata rewritten; nothing else changed. */
  ghost predicate Rewrites(before: seq<InRow>, after: seq<InRow>, i: nat, key: string, m: Message, s: nat)
    requires i < |before|
  {
    && before[i].key == Some(key) && before[i].seqNo == s
    && after == before[i := InRow(s, Message(before[i].message.sender, m.content, m.metadata, before[i].message.thread), Some(key))]
  }

  lemma {:induction false} UpsertMeans(t: Tables, key: string, m: Message)
    ensures var (t', s) := Upsert(t, key, m);
      && t' == t.(inbox := t'.inbox)
      && (Carries(t.inbox, Some(key)) ==> exists i :: 0 <= i < |t.inbox| && Rewrites(t.inbox, t'.inbox, i, key, m, s))
      && (!Carries(t.inbox, Some(key)) ==>
            t'.inbox == t.inbox + [InRow(s, Message(m.sender, m.content, m.metadata, None), Some(key))])
  {
    var (t', s) := Upsert(t, key, m);
    var found := FindKey(t.inbox, key);
    FoundIffCarried(t.inbox, key);
    if found.Some? {
      assert Rewrites(t.inbox, t'.inbox, found.value, key, m, s);
    }
  }

  /** COALESCE(MAX(seq), 0) over the delivered table. */
  ghost function Watermark(delivered: set<nat>): (m: nat)
    ensures forall x | x in delivered :: x <= m
    ensures delivered == {} ==> m == 0
    ensures delivered != {} ==> m in delivered
  {
    if delivered == {} then 0
    else
      var x :| x in delivered;
      assert forall y | y in delivered :: y == x || y in delivered - {x};
      var m := Watermark(delivered - {x});
      if m < x then x else
        assert delivered - {x} != {} || (m == 0 && x == 0);
        m
  }

  lemma {:induction false} WatermarkUnique(delivered: set<nat>, m: nat)
    requires forall x | x in delivered :: x <= m
    requires m == 0 || m in delivered
    ensures Watermark(delivered) == m
  {
  }

  // ---- outbound.db ----

  /** The rows a batch inserts: consecutive odd seqs, all carrying the same in_seq. */
  function Number(drafts: seq<Draft>, first: nat, inSeq: nat): (rows: seq<OutRow>)
    ensures |rows| == |drafts|
  {
    seq(|drafts|, i requires 0 <= i < |drafts| => OutRow(first + 2 * i, drafts[i], Some(inSeq)))
  }

  /** One committed batch: its rows and its ack. An empty batch writes nothing, not even the ack. */
  function EmitRows(t: Tables, drafts: seq<Draft>, inSeq: nat): Tables {
    if drafts == [] then t
    else
      var rows := Number(drafts, NextSeq(OutSeqs(t.outbox), 1), inSeq);
      t.(outbox := t.outbox + rows, acks := t.acks + {inSeq})
  }

  /** The rows written for one inbound row, in table order. */
  function RowsFor(rows: seq<OutRow>, inSeq: nat): (r: seq<OutRow>)
    ensures forall row | row in r :: row in rows && row.inSeq == Some(inSeq)
  {
    if rows == [] then []
    else
      var n := |rows| - 1;
      RowsFor(rows[..n], inSeq) + if rows[n].inSeq == Some(inSeq) then [rows[n]] else []
  }

  /** The rows above the watermark, in table order. */
  function Above(rows: seq<OutRow>, mark: nat): (r: seq<OutRow>)
    ensures forall row | row in r :: row in rows && row.seqNo > mark
  {
    if rows == [] then []
    else
      var n := |rows| - 1;
      Above(rows[..n], mark) + if rows[n].seqNo > mark then [rows[n]] else []
  }

  class SessionDb {
    var inbox: seq<InRow>
    var delivered: set<nat>
    var outbox: seq<OutRow>
    var acks: set<nat>

    function View(): Tables
      reads this
    {
      Tables(inbox, delivered, outbox, acks)
    }

    constructor ()
      ensures View() == Tables([], {}, [], {})
    {
      inbox, delivered, outbox, acks := [], {}, [], {};
    }

    /** One row per key: the row that carries the key is reused, or else the one appended carries it. */
    method EnqueueInboundKeyed(m: Message, key: Option<string>) returns (s: nat)
      modifies this
      ensures (View(), s) == Enqueue(old(View()), m, key)
      ensures key.Some? ==> exists i :: 0 <= i < |inbox| && inbox[i].seqNo == s && inbox[i].key == key
      ensures Carries(old(inbox), key) ==> View() == old(View())
      ensures !Carries(old(inbox), key) ==> inbox == old(inbox) + [InRow(s, m, key)] && View() == old(View()).(inbox := inbox)
      ensures !Carries(old(inbox), key) ==> forall row | row in old(inbox) :: row.seqNo < s
    {
      EnqueueMeans(View(), m, key);
      if key.Some? {
        var found := FindKey(inbox, key.value);
        if found.Some? {
          return inbox[found.value].seqNo;
        }
      }
      s := NextSeq(InSeqs(inbox), 0);
      inbox := inbox + [InRow(s, m, key)];
    }

    /** The key's row takes the new content and metadata and keeps all else; without one, a row is appended. */
    method UpsertInboundMeta(key: string, m: Message) returns (s: nat)
      modifies this
      ensures (View(), s) == Upsert(old(View()), key, m)
      ensures Carries(old(inbox), Some(key)) ==> exists i :: 0 <= i < |old(inbox)| && Rewrites(old(inbox), inbox, i, key, m, s)
      ensures !Carries(old(inbox), Some(key)) ==>
                inbox == old(inbox) + [InRow(s, Message(m.sender, m.content, m.metadata, None), Some(key))]
      ensures View() == old(View()).(inbox := inbox)
    {
      UpsertMeans(View(), key, m);
      var found := FindKey(inbox, key);
      if found.Some? {
        var row := inbox[found.value];
        var edited := row.message.(content := m.content, metadata := m.metadata);
        inbox := inbox[found.value := row.(message := edited)];
        return row.seqNo;
      }
      s := NextSeq(InSeqs(inbox), 0);
      inbox := inbox + [InRow(s, m.(thread := None), Some(key))];
    }

    method MarkDelivered(s: nat)
      modifies this
      ensures View() == old(View()).(delivered := old(delivered) + {s})
    {
      delivered := delivered + {s};
    }

    method MaxDeliveredSeq() returns (m: nat)
      ensures m == Watermark(delivered)
    {
      m := 0;
      var rest := delivered;
      while rest != {}
        invariant rest <= delivered
        invariant forall x | x in delivered - rest :: x <= m
        invariant m == 0 || m in delivered
        decreases rest
      {
        var x :| x in rest;
        assert forall y | y in delivered - (rest - {x}) :: y == x || y in delivered - rest;
        rest := rest - {x};
        if m < x { m := x; }
      }
      assert delivered - rest == delivered;
      WatermarkUnique(delivered, m);
    }

    /** Insert a batch and its ack in one transaction; `fault` is the statement that fails, if any. */
    method EmitBatch(drafts: seq<Draft>, inSeq: nat, fault: Option<nat>) returns (r: Result<seq<nat>, string>)
      modifies this
      ensures r.Err? ==> View() == old(View())
      ensures r.Ok? ==> View() == EmitRows(old(View()), drafts, inSeq)
      ensures r.Ok? ==> r.value == OutSeqs(outbox[|old(outbox)|..])
      ensures r.Err? <==> drafts != [] && fault.Some? && fault.value <= |drafts|
      ensures r.Ok? && drafts == [] ==> View() == old(View())
      ensures r.Ok? && drafts != [] ==>
                && |r.value| == |drafts| && |outbox| == |old(outbox)| + |drafts| && old(outbox) <= outbox
                && (forall i | 0 <= i < |drafts| :: outbox[|old(outbox)| + i] == OutRow(r.value[i], drafts[i], Some(inSeq)))
                && (forall i | 0 <= i < |drafts| :: r.value[i] == r.value[0] + 2 * i)
                && (forall row | row in old(outbox) :: row.seqNo < r.value[0])
                && acks == old(acks) + {inSeq} && inbox == old(inbox) && delivered == old(delivered)
    {
      NextOutIsAbove(outbox);
      if drafts == [] {
        assert OutSeqs(outbox[|old(outbox)|..]) == [];
        return Ok([]);
      }
      var saved := View();
      var next := NextSeq(OutSeqs(outbox), 1);
      ghost var first := next;
      var seqs: seq<nat> := [];
      var i := 0;
      while i < |drafts|
        invariant 0 <= i <= |drafts|
        invariant next == first + 2 * i
        invariant fault.Some? ==> i <= fault.value
        invariant outbox == saved.outbox + Number(drafts, first, inSeq)[..i]
        invariant seqs == OutSeqs(Number(drafts, first, inSeq)[..i])
        invariant inbox == saved.inbox && delivered == saved.delivered && acks == saved.acks
      {
        if fault == Some(i) {
          outbox := saved.outbox;
          return Err("insert failed");
        }
        outbox := outbox + [OutRow(next, drafts[i], Some(inSeq))];
        seqs := seqs + [next];
        next := next + 2;
        i := i + 1;
      }
      if fault == Some(i) {
        outbox := saved.outbox;
        return Err("ack failed");
      }
      acks := acks + {inSeq};
      assert Number(drafts, first, inSeq)[..i] == Number(drafts, first, inSeq);
      assert outbox[|old(outbox)|..] == Number(drafts, first, inSeq);
      return Ok(seqs);
    }
  }
}
