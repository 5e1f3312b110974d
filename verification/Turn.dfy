/** A turn's result and the batch of outbound rows the runner emits for it. */
module Turn {
  import opened Wrappers
  import opened Session

  datatype TurnResult = TurnResult(
    scheduled: seq<string>, cancellations: seq<string>, pauses: seq<string>, resumes: seq<string>,
    memories: seq<string>, messages: seq<string>, usage: Option<string>, text: string)

  function Rows(kind: string, bodies: seq<string>): seq<Draft> {
    seq(|bodies|, i requires 0 <= i < |bodies| => Draft(kind, bodies[i]))
  }

  function UsageRows(r: TurnResult): seq<Draft> {
    match r.usage case None => [] case Some(u) => [Draft("usage", u)]
  }

  function Requests(r: TurnResult): seq<Draft> {
    Rows("schedule_message", r.scheduled) + Rows("cancel_schedule", r.cancellations)
    + Rows("pause_schedule", r.pauses) + Rows("resume_schedule", r.resumes)
    + Rows("save_memory", r.memories) + Rows("send_message", r.messages)
    + UsageRows(r)
  }

  /** The side-effect rows, then the reply text; a turn that produced nothing emits an empty text. */
  function BatchOf(r: TurnResult): (batch: seq<Draft>)
    ensures batch != []
  {
    var rows := Requests(r) + if r.text != "" then [Draft("text", r.text)] else [];
    if rows == [] then [Draft("text", "")] else rows
  }

  method PushAll(rows: seq<Draft>, kind: string, bodies: seq<string>) returns (out: seq<Draft>)
    ensures out == rows + Rows(kind, bodies)
  {
    out := rows;
    for i := 0 to |bodies|
      invariant out == rows + Rows(kind, bodies)[..i]
    {
      out := out + [Draft(kind, bodies[i])];
    }
    assert Rows(kind, bodies)[..|bodies|] == Rows(kind, bodies);
  }

  method BuildBatch(r: TurnResult) returns (rows: seq<Draft>)
    ensures rows == BatchOf(r)
  {
    hide Rows;
    rows := PushAll([], "schedule_message", r.scheduled);
    assert rows == Rows("schedule_message", r.scheduled);
    rows := PushAll(rows, "cancel_schedule", r.cancellations);
    rows := PushAll(rows, "pause_schedule", r.pauses);
    rows := PushAll(rows, "resume_schedule", r.resumes);
    rows := PushAll(rows, "save_memory", r.memories);
    rows := PushAll(rows, "send_message", r.messages);
    if r.usage.Some? {
      rows := rows + [Draft("usage", r.usage.value)];
    } else {
      assert rows + [] == rows;
    }
    assert rows == Requests(r);
    if r.text != "" {
      rows := rows + [Draft("text", r.text)];
    }
    if rows == [] {
      rows := rows + [Draft("text", "")];
    }
  }

  // ---- what a batch holds ----

  /** The bodies of the rows of one kind, in order. */
  function BodiesOf(rows: seq<Draft>, kind: string): seq<string> {
    if rows == [] then []
    else
      var n := |rows| - 1;
      BodiesOf(rows[..n], kind) + if rows[n].kind == kind then [rows[n].content] else []
  }

  lemma {:induction false} BodiesOfConcat(a: seq<Draft>, b: seq<Draft>, kind: string)
    ensures BodiesOf(a + b, kind) == BodiesOf(a, kind) + BodiesOf(b, kind)
  {
    if b == [] {
      assert a + b == a;
    } else {
      var n := |b| - 1;
      assert (a + b)[..|a| + n] == a + b[..n];
      BodiesOfConcat(a, b[..n], kind);
    }
  }

  lemma {:induction false} BodiesOfRows(k: string, bodies: seq<string>, kind: string)
    ensures BodiesOf(Rows(k, bodies), kind) == if k == kind then bodies else []
  {
    if bodies != [] {
      var n := |bodies| - 1;
      assert Rows(k, bodies)[..n] == Rows(k, bodies[..n]);
      BodiesOfRows(k, bodies[..n], kind);
    }
  }

  lemma {:induction false} BodiesOfOne(d: Draft, kind: string)
    ensures BodiesOf([d], kind) == (if d.kind == kind then [d.content] else []) && BodiesOf([], kind) == []
  {
  }

  lemma {:induction false} BodiesOfRequests(r: TurnResult, kind: string)
    ensures BodiesOf(Requests(r), kind)
         == (if kind == "schedule_message" then r.scheduled else []) + (if kind == "cancel_schedule" then r.cancellations else [])
            + (if kind == "pause_schedule" then r.pauses else []) + (if kind == "resume_schedule" then r.resumes else [])
            + (if kind == "save_memory" then r.memories else []) + (if kind == "send_message" then r.messages else [])
            + (if kind == "usage" && r.usage.Some? then [r.usage.value] else [])
  {
    var a, b, c := Rows("schedule_message", r.scheduled), Rows("cancel_schedule", r.cancellations), Rows("pause_schedule", r.pauses);
    var d, e, f := Rows("resume_schedule", r.resumes), Rows("save_memory", r.memories), Rows("send_message", r.messages);
    BodiesOfRows("schedule_message", r.scheduled, kind);
    BodiesOfRows("cancel_schedule", r.cancellations, kind);
    BodiesOfRows("pause_schedule", r.pauses, kind);
    BodiesOfRows("resume_schedule", r.resumes, kind);
    BodiesOfRows("save_memory", r.memories, kind);
    BodiesOfRows("send_message", r.messages, kind);
    BodiesOfOne(Draft("usage", if r.usage.Some? then r.usage.value else ""), kind);
    hide BodiesOf, Rows;
    BodiesOfConcat(a, b, kind);
    BodiesOfConcat(a + b, c, kind);
    BodiesOfConcat(a + b + c, d, kind);
    BodiesOfConcat(a + b + c + d, e, kind);
    BodiesOfConcat(a + b + c + d + e, f, kind);
    BodiesOfConcat(a + b + c + d + e + f, UsageRows(r), kind);
  }

  /** Each kind of row carries the bodies of its own part of the result, in order, and no other kind occurs. */
  lemma {:induction false} BatchHoldsResult(r: TurnResult)
    ensures BodiesOf(BatchOf(r), "schedule_message") == r.scheduled && BodiesOf(BatchOf(r), "cancel_schedule") == r.cancellations
    ensures BodiesOf(BatchOf(r), "pause_schedule") == r.pauses && BodiesOf(BatchOf(r), "resume_schedule") == r.resumes
    ensures BodiesOf(BatchOf(r), "save_memory") == r.memories && BodiesOf(BatchOf(r), "send_message") == r.messages
    ensures BodiesOf(BatchOf(r), "usage") == if r.usage.Some? then [r.usage.value] else []
    ensures BodiesOf(BatchOf(r), "text") == if r.text != "" || Silent(r) then [r.text] else []
  {
    BatchBodies(r, "schedule_message");
    BatchBodies(r, "cancel_schedule");
    BatchBodies(r, "pause_schedule");
    BatchBodies(r, "resume_schedule");
    BatchBodies(r, "save_memory");
    BatchBodies(r, "send_message");
    BatchBodies(r, "usage");
    BatchBodies(r, "text");
    hide BodiesOf, BatchOf, Requests;
    BodiesOfRequests(r, "schedule_message");
    BodiesOfRequests(r, "cancel_schedule");
    BodiesOfRequests(r, "pause_schedule");
    BodiesOfRequests(r, "resume_schedule");
    BodiesOfRequests(r, "save_memory");
    BodiesOfRequests(r, "send_message");
    BodiesOfRequests(r, "usage");
    BodiesOfRequests(r, "text");
    NothingRequested(r);
  }

  /** The turn asked for nothing, used nothing and said nothing. */
  predicate Silent(r: TurnResult) {
    && r.scheduled == [] && r.cancellations == [] && r.pauses == [] && r.resumes == [] && r.memories == [] && r.messages == []
    && r.usage == None && r.text == ""
  }

  lemma {:induction false} NothingRequested(r: TurnResult)
    ensures Requests(r) == [] && r.text == "" <==> Silent(r)
  {
    assert |Requests(r)| == |r.scheduled| + |r.cancellations| + |r.pauses| + |r.resumes| + |r.memories| + |r.messages|
                            + if r.usage.Some? then 1 else 0;
  }

  lemma {:induction false} BatchBodies(r: TurnResult, kind: string)
    ensures kind != "text" ==> BodiesOf(BatchOf(r), kind) == BodiesOf(Requests(r), kind)
    ensures kind == "text" && BodiesOf(Requests(r), kind) == [] ==>
              BodiesOf(BatchOf(r), kind) == if r.text != "" || Requests(r) == [] then [r.text] else []
  {
    var text := if r.text != "" then [Draft("text", r.text)] else [];
    BodiesOfConcat(Requests(r), text, kind);
    BodiesOfOne(Draft("text", r.text), kind);
    BodiesOfOne(Draft("text", ""), kind);
    hide BodiesOf, Requests;
    assert Requests(r) + [] == Requests(r);
  }

  /** The reply text is the last row; a turn that produced nothing at all emits one empty text. */
  lemma {:induction false} TextIsLast(r: TurnResult)
    ensures r.text != "" ==> BatchOf(r)[|BatchOf(r)| - 1] == Draft("text", r.text)
    ensures Silent(r) ==> BatchOf(r) == [Draft("text", "")]
  {
  }

  function KindRank(kind: string): nat {
    if kind == "schedule_message" then 0 else if kind == "cancel_schedule" then 1 else if kind == "pause_schedule" then 2
    else if kind == "resume_schedule" then 3 else if kind == "save_memory" then 4 else if kind == "send_message" then 5
    else if kind == "usage" then 6 else 7
  }

  /** The rows' kinds are between two ranks and never step back. */
  ghost predicate InOrder(rows: seq<Draft>, low: nat, high: nat) {
    && (forall i | 0 <= i < |rows| :: low <= KindRank(rows[i].kind) <= high)
    && (forall i, j | 0 <= i < j < |rows| :: KindRank(rows[i].kind) <= KindRank(rows[j].kind))
  }

  lemma {:induction false} InOrderConcat(a: seq<Draft>, b: seq<Draft>, low: nat, middle: nat, high: nat)
    requires InOrder(a, low, middle) && InOrder(b, middle, high) && low <= middle <= high
    ensures InOrder(a + b, low, high)
  {
  }

  lemma {:induction false} RowsInOrder(kind: string, bodies: seq<string>)
    ensures InOrder(Rows(kind, bodies), KindRank(kind), KindRank(kind))
  {
  }

  /** The kinds come in one fixed order: requests by kind, then usage, then the text. */
  lemma {:induction false} KindsInOrder(r: TurnResult)
    ensures InOrder(BatchOf(r), 0, 7)
  {
    var a, b, c := Rows("schedule_message", r.scheduled), Rows("cancel_schedule", r.cancellations), Rows("pause_schedule", r.pauses);
    var d, e, f := Rows("resume_schedule", r.resumes), Rows("save_memory", r.memories), Rows("send_message", r.messages);
    var text := if r.text != "" then [Draft("text", r.text)] else [];
    RowsInOrder("schedule_message", r.scheduled);
    RowsInOrder("cancel_schedule", r.cancellations);
    RowsInOrder("pause_schedule", r.pauses);
    RowsInOrder("resume_schedule", r.resumes);
    RowsInOrder("save_memory", r.memories);
    RowsInOrder("send_message", r.messages);
    assert InOrder(UsageRows(r), 6, 6) && InOrder(text, 7, 7) && InOrder([Draft("text", "")], 0, 7);
    assert Requests(r) == a + b + c + d + e + f + UsageRows(r);
    assert BatchOf(r) == (if Requests(r) + text == [] then [Draft("text", "")] else Requests(r) + text);
    hide InOrder, Rows, UsageRows, Requests, BatchOf;
    InOrderUp(b, 1, 1, 0, 1);
    InOrderConcat(a, b, 0, 0, 1);
    InOrderUp(c, 2, 2, 1, 2);
    InOrderConcat(a + b, c, 0, 1, 2);
    InOrderUp(d, 3, 3, 2, 3);
    InOrderConcat(a + b + c, d, 0, 2, 3);
    InOrderUp(e, 4, 4, 3, 4);
    InOrderConcat(a + b + c + d, e, 0, 3, 4);
    InOrderUp(f, 5, 5, 4, 5);
    InOrderConcat(a + b + c + d + e, f, 0, 4, 5);
    InOrderUp(UsageRows(r), 6, 6, 5, 6);
    InOrderConcat(a + b + c + d + e + f, UsageRows(r), 0, 5, 6);
    InOrderUp(text, 7, 7, 6, 7);
    InOrderConcat(Requests(r), text, 0, 6, 7);
  }

  lemma {:induction false} InOrderUp(rows: seq<Draft>, low: nat, high: nat, lower: nat, higher: nat)
    requires InOrder(rows, low, high) && lower <= low && high <= higher
    ensures InOrder(rows, lower, higher)
  {
  }
}
