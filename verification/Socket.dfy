/**
 The Socket Mode listener: open a connection, pump its frames (acknowledge, then route), reconnect.
 The outside world is a script: what each dial, read and acknowledgement answers. Where a list of
 answers ends, `stop` was seen to be true; after a connection's list the listener looks again.
 */
module Socket {
  import opened Wrappers
  import opened Sequences

  /** A parsed envelope; text that does not parse is absent. */
  datatype Raw = Raw(kind: string, envelope: Option<string>, event: Option<string>)

  datatype Incoming = Hello | Disconnect | Event(envelope: string, event: string) | AckOnly(envelope: string) | Ignored

  datatype Fault = Idle | Lost | Fatal

  /** One read; for a frame, also how an acknowledgement would fare (None: it goes through). */
  datatype Read = Frame(raw: Option<Raw>, ackFault: Option<Fault>) | Failed(fault: Fault)

  datatype Dial = Dialled(answers: seq<Read>) | DialFailed(fault: Fault)

  /** What the listener does, in order. */
  datatype Act = Opened(fault: Option<Fault>) | Got(read: Read) | Acked(envelope: string, fault: Option<Fault>) | Sunk(routed: string) | Ticked

  type Normalize = string -> Option<string>

  function ParseIncoming(raw: Option<Raw>): Incoming {
    match raw
    case None => Ignored
    case Some(r) =>
      if r.kind == "hello" then Hello
      else if r.kind == "disconnect" then Disconnect
      else match r.envelope
        case None => Ignored
        case Some(id) =>
          if r.kind == "events_api" && r.event.Some? then Event(id, r.event.value) else AckOnly(id)
  }

  // ---- what one read, one connection and one listener do ----

  function ActsOf(read: Read, normalize: Normalize): seq<Act> {
    [Got(read)] +
    match read
    case Failed(Idle) => [Ticked]
    case Failed(_) => []
    case Frame(raw, ackFault) =>
      match ParseIncoming(raw)
      case AckOnly(id) => [Acked(id, ackFault)]
      case Event(id, event) =>
        [Acked(id, ackFault)] +
        if ackFault.None? && normalize(event).Some? then [Sunk(normalize(event).value)] else []
      case _ => []
  }

  datatype Next = Continue | Reconnect | GiveUp

  function AfterRead(read: Read): Next {
    match read
    case Failed(Idle) => Continue
    case Failed(Fatal) => GiveUp
    case Failed(Lost) => Reconnect
    case Frame(raw, ackFault) =>
      match ParseIncoming(raw)
      case Disconnect => Reconnect
      case Hello => Continue
      case Ignored => Continue
      case _ => if ackFault == Some(Fatal) then GiveUp else if ackFault.Some? then Reconnect else Continue
  }

  function PumpActs(answers: seq<Read>, normalize: Normalize): seq<Act> {
    if answers == [] then []
    else ActsOf(answers[0], normalize) + if AfterRead(answers[0]).Continue? then PumpActs(answers[1..], normalize) else []
  }

  function PumpGivesUp(answers: seq<Read>): bool {
    answers != [] && (AfterRead(answers[0]).GiveUp? || (AfterRead(answers[0]).Continue? && PumpGivesUp(answers[1..])))
  }

  function DialActs(dial: Dial, normalize: Normalize): seq<Act> {
    match dial
    case DialFailed(fault) => [Opened(Some(fault))]
    case Dialled(answers) => [Opened(None)] + PumpActs(answers, normalize)
  }

  predicate DialGivesUp(dial: Dial) {
    match dial
    case DialFailed(fault) => fault.Fatal?
    case Dialled(answers) => PumpGivesUp(answers)
  }

  function ListenActs(script: seq<Dial>, normalize: Normalize): seq<Act> {
    if script == [] then []
    else DialActs(script[0], normalize) + if DialGivesUp(script[0]) then [] else ListenActs(script[1..], normalize)
  }

  predicate GivesUp(script: seq<Dial>) {
    script != [] && (DialGivesUp(script[0]) || GivesUp(script[1..]))
  }

  // ---- the loops ----

  /** None: the acknowledgement went through. Some(None): reconnect. Some(Some(_)): unrecoverable. */
  method AckOrReconnect(id: string, ackFault: Option<Fault>, trace: seq<Act>) returns (log: seq<Act>, stopped: Option<Next>)
    ensures log == trace + [Acked(id, ackFault)]
    ensures stopped == if ackFault.None? then None else Some(if ackFault.value.Fatal? then GiveUp else Reconnect)
  {
    log := trace + [Acked(id, ackFault)];
    if ackFault.None? {
      return log, None;
    }
    return log, Some(if ackFault.value.Fatal? then GiveUp else Reconnect);
  }

  method Handle(read: Read, normalize: Normalize, trace: seq<Act>) returns (log: seq<Act>, next: Next)
    ensures log == trace + ActsOf(read, normalize) && next == AfterRead(read)
  {
    log := trace + [Got(read)];
    match read {
      case Failed(fault) =>
        match fault {
          case Fatal => return log, GiveUp;
          case Lost => return log, Reconnect;
          case Idle => return log + [Ticked], Continue;
        }
      case Frame(raw, ackFault) =>
        match ParseIncoming(raw) {
          case Hello => return log, Continue;
          case Ignored => return log, Continue;
          case Disconnect => return log, Reconnect;
          case AckOnly(id) =>
            var stopped: Option<Next>;
            log, stopped := AckOrReconnect(id, ackFault, log);
            return log, if stopped.Some? then stopped.value else Continue;
          case Event(id, event) =>
            var stopped: Option<Next>;
            log, stopped := AckOrReconnect(id, ackFault, log);
            if stopped.Some? {
              return log, stopped.value;
            }
            var routed := normalize(event);
            if routed.Some? {
              log := log + [Sunk(routed.value)];
            }
            return log, Continue;
        }
    }
  }

  method Pump(answers: seq<Read>, normalize: Normalize, trace: seq<Act>) returns (log: seq<Act>, fatal: bool)
    ensures log == trace + PumpActs(answers, normalize)
    ensures fatal <==> PumpGivesUp(answers)
  {
    log := trace;
    var i := 0;
    while i < |answers|
      invariant 0 <= i <= |answers|
      invariant log + PumpActs(answers[i..], normalize) == trace + PumpActs(answers, normalize)
      invariant PumpGivesUp(answers[i..]) == PumpGivesUp(answers)
    {
      ghost var was := log;
      assert answers[i..][1..] == answers[i + 1..];
      var next: Next;
      log, next := Handle(answers[i], normalize, log);
      if !next.Continue? {
        return log, next.GiveUp?;
      }
      Assoc(was, ActsOf(answers[i], normalize), PumpActs(answers[i + 1..], normalize));
      i := i + 1;
    }
    return log, false;
  }

  /** One dial of the listener. */
  method Serve(dial: Dial, normalize: Normalize, trace: seq<Act>) returns (log: seq<Act>, fatal: bool)
    ensures log == trace + DialActs(dial, normalize)
    ensures fatal <==> DialGivesUp(dial)
  {
    match dial {
      case DialFailed(fault) =>
        return trace + [Opened(Some(fault))], fault.Fatal?;
      case Dialled(answers) =>
        log, fatal := Pump(answers, normalize, trace + [Opened(None)]);
        Assoc(trace, [Opened(None)], PumpActs(answers, normalize));
    }
  }

  method RunListener(script: seq<Dial>, normalize: Normalize) returns (log: seq<Act>, fatal: bool)
    ensures log == ListenActs(script, normalize)
    ensures fatal <==> GivesUp(script)
  {
    log := [];
    var i := 0;
    while i < |script|
      invariant 0 <= i <= |script|
      invariant log + ListenActs(script[i..], normalize) == ListenActs(script, normalize)
      invariant GivesUp(script[i..]) == GivesUp(script)
    {
      assert script[i..][1..] == script[i + 1..];
      ghost var was := log;
      log, fatal := Serve(script[i], normalize, log);
      if fatal {
        return;
      }
      Assoc(was, DialActs(script[i], normalize), ListenActs(script[i + 1..], normalize));
      i := i + 1;
    }
    fatal := false;
  }

  // ---- what every trace shows ----

  function Reads(log: seq<Act>): seq<Read> {
    if log == [] then [] else (if log[0].Got? then [log[0].read] else []) + Reads(log[1..])
  }

  function Deliveries(log: seq<Act>): seq<string> {
    if log == [] then [] else (if log[0].Sunk? then [log[0].routed] else []) + Deliveries(log[1..])
  }

  /** What a read gives the sink: the normalised event of an acknowledged Event frame. */
  function Delivered(read: Read, normalize: Normalize): Option<string> {
    if read.Frame? && ParseIncoming(read.raw).Event? && read.ackFault.None?
    then normalize(ParseIncoming(read.raw).event) else None
  }

  function AllDelivered(answers: seq<Read>, normalize: Normalize): seq<string> {
    if answers == [] then []
    else
      (match Delivered(answers[0], normalize) case None => [] case Some(e) => [e]) + AllDelivered(answers[1..], normalize)
  }

  /** The sink's events are those of the reads. */
  ghost predicate Faithful(log: seq<Act>, normalize: Normalize) {
    Deliveries(log) == AllDelivered(Reads(log), normalize)
  }

  lemma {:induction false} ReadsConcat(a: seq<Act>, b: seq<Act>)
    ensures Reads(a + b) == Reads(a) + Reads(b) && Deliveries(a + b) == Deliveries(a) + Deliveries(b)
  {
    if a == [] {
      assert a + b == b;
    } else {
      FirstAct(a, b);
      FirstAct(a, []);
      assert a + [] == a && a[1..] + [] == a[1..];
      hide Reads, Deliveries;
      ReadsConcat(a[1..], b);
    }
  }

  lemma {:induction false} FirstAct(a: seq<Act>, b: seq<Act>)
    requires a != []
    ensures Reads(a + b) == (if a[0].Got? then [a[0].read] else []) + Reads(a[1..] + b)
    ensures Deliveries(a + b) == (if a[0].Sunk? then [a[0].routed] else []) + Deliveries(a[1..] + b)
  {
    assert (a + b)[0] == a[0] && (a + b)[1..] == a[1..] + b;
  }

  lemma {:induction false} AllDeliveredConcat(a: seq<Read>, b: seq<Read>, normalize: Normalize)
    ensures AllDelivered(a + b, normalize) == AllDelivered(a, normalize) + AllDelivered(b, normalize)
  {
    if a == [] {
      assert a + b == b;
    } else {
      assert (a + b)[0] == a[0] && (a + b)[1..] == a[1..] + b;
      AllDeliveredConcat(a[1..], b, normalize);
    }
  }

  lemma {:induction false} FaithfulConcat(a: seq<Act>, b: seq<Act>, normalize: Normalize)
    requires Faithful(a, normalize) && Faithful(b, normalize)
    ensures Faithful(a + b, normalize)
  {
    ReadsConcat(a, b);
    AllDeliveredConcat(Reads(a), Reads(b), normalize);
  }

  /**
   Each delivery stands right after the acknowledgement of the frame it came from, which stands
   right after that read; a tick stands right after each Idle read, and nowhere else.
   */
  ghost predicate Orderly(log: seq<Act>, normalize: Normalize) {
    && (forall k | 0 <= k < |log| && log[k].Sunk? :: SinkAt(log, k, normalize))
    && (forall k | 0 <= k < |log| && log[k].Ticked? :: k >= 1 && log[k - 1] == Got(Failed(Idle)))
    && (forall k | 0 <= k < |log| && log[k] == Got(Failed(Idle)) :: k + 1 < |log| && log[k + 1] == Ticked)
  }

  ghost predicate SinkAt(log: seq<Act>, k: nat, normalize: Normalize)
    requires k < |log|
  {
    && k >= 2 && log[k].Sunk? && log[k - 2].Got? && log[k - 2].read.Frame?
    && var incoming := ParseIncoming(log[k - 2].read.raw);
       incoming.Event? && log[k - 1] == Acked(incoming.envelope, None) && normalize(incoming.event) == Some(log[k].routed)
  }

  lemma {:induction false} OrderlyConcat(a: seq<Act>, b: seq<Act>, normalize: Normalize)
    requires Orderly(a, normalize) && Orderly(b, normalize)
    ensures Orderly(a + b, normalize)
  {
    var log := a + b;
    forall k | 0 <= k < |log| && log[k].Sunk? ensures SinkAt(log, k, normalize) {
      if k < |a| {
        assert SinkAt(a, k, normalize);
      } else {
        assert SinkAt(b, k - |a|, normalize);
      }
    }
    forall k | 0 <= k < |log| && log[k].Ticked? ensures k >= 1 && log[k - 1] == Got(Failed(Idle)) {
      if k >= |a| { assert b[k - |a|] == Ticked; }
    }
    forall k | 0 <= k < |log| && log[k] == Got(Failed(Idle)) ensures k + 1 < |log| && log[k + 1] == Ticked {
      if k >= |a| { assert b[k - |a|] == Got(Failed(Idle)); }
    }
  }

  ghost predicate Good(log: seq<Act>, normalize: Normalize) {
    Faithful(log, normalize) && Orderly(log, normalize)
  }

  lemma {:induction false} GoodConcat(a: seq<Act>, b: seq<Act>, normalize: Normalize)
    requires Good(a, normalize) && Good(b, normalize)
    ensures Good(a + b, normalize)
  {
    FaithfulConcat(a, b, normalize);
    OrderlyConcat(a, b, normalize);
  }

  lemma {:induction false} GoodRead(read: Read, normalize: Normalize)
    ensures Good(ActsOf(read, normalize), normalize) && Reads(ActsOf(read, normalize)) == [read]
  {
    ReadDelivers(read, normalize);
    ReadOrderly(read, normalize);
  }

  lemma {:induction false} ReadOrderly(read: Read, normalize: Normalize)
    ensures Orderly(ActsOf(read, normalize), normalize)
  {
  }

  lemma {:induction false} ReadDelivers(read: Read, normalize: Normalize)
    ensures Reads(ActsOf(read, normalize)) == [read]
    ensures Faithful(ActsOf(read, normalize), normalize)
  {
    var log, got := ActsOf(read, normalize), [Got(read)];
    var rest := log[1..];
    assert log == got + rest;
    ReadsConcat(got, rest);
    NoReads(rest);
    NoReads([]);
    assert got[1..] == [] && [read][1..] == [];
    assert Reads(got) == [read] && Deliveries(got) == [];
    LastDelivery(rest);
    assert AllDelivered([read], normalize) == match Delivered(read, normalize) case None => [] case Some(e) => [e];
  }

  lemma {:induction false} LastDelivery(log: seq<Act>)
    requires |log| <= 2 && (|log| == 2 ==> !log[0].Sunk?)
    ensures Deliveries(log) == if log != [] && log[|log| - 1].Sunk? then [log[|log| - 1].routed] else []
  {
    if |log| == 2 {
      assert log[1..] == [log[1]];
      assert Deliveries([log[1]]) == if log[1].Sunk? then [log[1].routed] else [];
    }
  }

  lemma {:induction false} NoReads(log: seq<Act>)
    requires forall k | 0 <= k < |log| :: !log[k].Got?
    ensures Reads(log) == []
  {
    if log != [] { NoReads(log[1..]); }
  }

  lemma {:induction false} GoodPump(answers: seq<Read>, normalize: Normalize)
    ensures Good(PumpActs(answers, normalize), normalize)
  {
    if answers != [] {
      GoodRead(answers[0], normalize);
      if AfterRead(answers[0]).Continue? {
        GoodPump(answers[1..], normalize);
        GoodConcat(ActsOf(answers[0], normalize), PumpActs(answers[1..], normalize), normalize);
      } else {
        assert ActsOf(answers[0], normalize) + [] == ActsOf(answers[0], normalize);
      }
    }
  }

  lemma {:induction false} GoodOpen(fault: Option<Fault>, normalize: Normalize)
    ensures Good([Opened(fault)], normalize)
  {
    NoReads([Opened(fault)]);
  }

  lemma {:induction false} GoodDial(dial: Dial, normalize: Normalize)
    ensures Good(DialActs(dial, normalize), normalize)
  {
    match dial
    case DialFailed(fault) => GoodOpen(Some(fault), normalize);
    case Dialled(answers) =>
      hide Good;
      GoodOpen(None, normalize);
      GoodPump(answers, normalize);
      GoodConcat([Opened(None)], PumpActs(answers, normalize), normalize);
  }

  lemma {:induction false} GoodListen(script: seq<Dial>, normalize: Normalize)
    ensures Good(ListenActs(script, normalize), normalize)
  {
    if script != [] {
      hide Good, DialActs;
      var acts := DialActs(script[0], normalize);
      GoodDial(script[0], normalize);
      GoodListen(script[1..], normalize);
      GoodConcat(acts, ListenActs(script[1..], normalize), normalize);
      assert acts + [] == acts;
    }
  }

  /** For every script: deliveries match the reads in order, each right after its own acknowledgement; ticks match Idle reads. */
  lemma {:induction false} TraceIsGood(script: seq<Dial>, normalize: Normalize)
    ensures Faithful(ListenActs(script, normalize), normalize) && Orderly(ListenActs(script, normalize), normalize)
  {
    GoodListen(script, normalize);
  }

  // ---- reads and errors ----

  /** How many of a connection's frames are read: up to the first that ends it. */
  function ReadCount(answers: seq<Read>): (n: nat)
    ensures n <= |answers|
    ensures forall k | 0 <= k < n - 1 :: AfterRead(answers[k]).Continue?
    ensures n < |answers| ==> n > 0 && !AfterRead(answers[n - 1]).Continue?
  {
    if answers == [] then 0 else if AfterRead(answers[0]).Continue? then 1 + ReadCount(answers[1..]) else 1
  }

  lemma {:induction false} PumpReads(answers: seq<Read>, normalize: Normalize)
    ensures Reads(PumpActs(answers, normalize)) == answers[..ReadCount(answers)]
  {
    if answers != [] {
      GoodRead(answers[0], normalize);
      if AfterRead(answers[0]).Continue? {
        PumpReads(answers[1..], normalize);
        ReadsConcat(ActsOf(answers[0], normalize), PumpActs(answers[1..], normalize));
      } else {
        assert ActsOf(answers[0], normalize) + [] == ActsOf(answers[0], normalize);
      }
    }
  }

  predicate IsFatal(act: Act) {
    match act
    case Opened(fault) => fault == Some(Fatal)
    case Got(read) => read == Failed(Fatal)
    case Acked(_, fault) => fault == Some(Fatal)
    case _ => false
  }

  ghost predicate HasFatal(log: seq<Act>) { exists k | 0 <= k < |log| :: IsFatal(log[k]) }

  lemma {:induction false} HasFatalConcat(a: seq<Act>, b: seq<Act>)
    ensures HasFatal(a + b) <==> HasFatal(a) || HasFatal(b)
  {
    if HasFatal(a) {
      var k :| 0 <= k < |a| && IsFatal(a[k]);
      assert IsFatal((a + b)[k]);
    }
    if HasFatal(b) {
      var k :| 0 <= k < |b| && IsFatal(b[k]);
      assert IsFatal((a + b)[|a| + k]);
    }
  }

  lemma {:induction false} ReadFatal(read: Read, normalize: Normalize)
    ensures HasFatal(ActsOf(read, normalize)) <==> AfterRead(read).GiveUp?
  {
    var log := ActsOf(read, normalize);
    if AfterRead(read).GiveUp? {
      assert IsFatal(log[0]) || IsFatal(log[1]);
    }
  }

  lemma {:induction false} PumpFatal(answers: seq<Read>, normalize: Normalize)
    ensures HasFatal(PumpActs(answers, normalize)) <==> PumpGivesUp(answers)
  {
    if answers != [] {
      ReadFatal(answers[0], normalize);
      HasFatalConcat(ActsOf(answers[0], normalize), if AfterRead(answers[0]).Continue? then PumpActs(answers[1..], normalize) else []);
      PumpFatal(answers[1..], normalize);
    }
  }

  lemma {:induction false} DialFatal(dial: Dial, normalize: Normalize)
    ensures HasFatal(DialActs(dial, normalize)) <==> DialGivesUp(dial)
  {
    match dial
    case DialFailed(fault) =>
      assert IsFatal(DialActs(dial, normalize)[0]) <==> fault.Fatal?;
    case Dialled(answers) =>
      PumpFatal(answers, normalize);
      HasFatalConcat([Opened(None)], PumpActs(answers, normalize));
  }

  /** The listener returns an error if and only if a dial, a read or an acknowledgement was Fatal. */
  lemma {:induction false} ErrorIffFatal(script: seq<Dial>, normalize: Normalize)
    ensures GivesUp(script) <==> HasFatal(ListenActs(script, normalize))
  {
    if script != [] {
      hide HasFatal, DialActs, DialGivesUp;
      ErrorIffFatal(script[1..], normalize);
      DialFatal(script[0], normalize);
      HasFatalConcat(DialActs(script[0], normalize), ListenActs(script[1..], normalize));
      assert DialActs(script[0], normalize) + [] == DialActs(script[0], normalize);
    }
  }
}
