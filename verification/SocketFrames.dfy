/** What the listener does with each frame and each dial, said of the raw envelopes. */
module SocketFrames {
  import opened Wrappers
  import opened Socket

  /** The envelope to acknowledge: any frame that carries an id, greetings and disconnects apart. */
  function ToAck(raw: Option<Raw>): Option<string> {
    if raw.None? || raw.value.kind == "hello" || raw.value.kind == "disconnect" then None else raw.value.envelope
  }

  /** The event to route: that of an Events API envelope with an id. */
  function ToRoute(raw: Option<Raw>): Option<string> {
    if raw.Some? && raw.value.kind == "events_api" && raw.value.envelope.Some? then raw.value.event else None
  }

  /** Everything one read leads to. */
  lemma {:induction false} ActsOfRead(read: Read, normalize: Normalize)
    ensures read.Failed? ==> ActsOf(read, normalize) == [Got(read)] + if read.fault.Idle? then [Ticked] else []
    ensures read.Frame? ==>
      (ActsOf(read, normalize)
       == [Got(read)]
          + (if ToAck(read.raw).Some? then [Acked(ToAck(read.raw).value, read.ackFault)] else [])
          + (if ToRoute(read.raw).Some? && read.ackFault.None? && normalize(ToRoute(read.raw).value).Some?
             then [Sunk(normalize(ToRoute(read.raw).value).value)] else []))
  {
  }

  // ---- where a connection ends ----

  /** A disconnect frame, a lost or refused read, or an acknowledgement that fails. */
  predicate Ends(read: Read) {
    match read
    case Failed(fault) => !fault.Idle?
    case Frame(raw, ackFault) =>
      (raw.Some? && raw.value.kind == "disconnect") || (ToAck(raw).Some? && ackFault.Some?)
  }

  lemma {:induction false} EndsIff(read: Read)
    ensures Ends(read) <==> !AfterRead(read).Continue?
    ensures AfterRead(read).GiveUp? <==>
              read == Failed(Fatal) || (read.Frame? && ToAck(read.raw).Some? && read.ackFault == Some(Fatal))
  {
  }

  /** A connection's frames are read in order up to and including the first that ends it. */
  lemma {:induction false} ReadUpToTheEnd(answers: seq<Read>, normalize: Normalize)
    ensures var n := |Reads(PumpActs(answers, normalize))|;
      && n <= |answers| && Reads(PumpActs(answers, normalize)) == answers[..n]
      && (forall k | 0 <= k < n - 1 :: !Ends(answers[k]))
      && (n < |answers| ==> n > 0 && Ends(answers[n - 1]))
  {
    PumpReads(answers, normalize);
    var n := ReadCount(answers);
    forall k | 0 <= k < |answers| ensures Ends(answers[k]) <==> !AfterRead(answers[k]).Continue? {
      EndsIff(answers[k]);
    }
  }

  // ---- acknowledgements ----

  /** Each acknowledgement stands right behind the read of the frame that asks for it, and each such frame is acknowledged. */
  ghost predicate AcksInPlace(log: seq<Act>) {
    && (forall k | 0 <= k < |log| && log[k].Acked? ::
          k >= 1 && log[k - 1].Got? && log[k - 1].read.Frame?
          && ToAck(log[k - 1].read.raw) == Some(log[k].envelope) && log[k - 1].read.ackFault == log[k].fault)
    && (forall k | 0 <= k < |log| && log[k].Got? && log[k].read.Frame? && ToAck(log[k].read.raw).Some? ::
          k + 1 < |log| && log[k + 1] == Acked(ToAck(log[k].read.raw).value, log[k].read.ackFault))
  }

  lemma {:induction false} AcksConcat(a: seq<Act>, b: seq<Act>)
    requires AcksInPlace(a) && AcksInPlace(b)
    ensures AcksInPlace(a + b)
  {
    var log := a + b;
    forall k | 0 <= k < |log| && log[k].Acked?
      ensures k >= 1 && log[k - 1].Got? && log[k - 1].read.Frame?
              && ToAck(log[k - 1].read.raw) == Some(log[k].envelope) && log[k - 1].read.ackFault == log[k].fault
    {
      if k >= |a| { assert b[k - |a|] == log[k]; }
    }
    forall k | 0 <= k < |log| && log[k].Got? && log[k].read.Frame? && ToAck(log[k].read.raw).Some?
      ensures k + 1 < |log| && log[k + 1] == Acked(ToAck(log[k].read.raw).value, log[k].read.ackFault)
    {
      if k >= |a| { assert b[k - |a|] == log[k]; }
    }
  }

  lemma {:induction false} AcksOfPump(answers: seq<Read>, normalize: Normalize)
    ensures AcksInPlace(PumpActs(answers, normalize))
  {
    if answers != [] {
      AcksOfRead(answers[0], normalize);
      AcksOfPump(answers[1..], normalize);
      hide AcksInPlace, ActsOf;
      AcksConcat(ActsOf(answers[0], normalize), PumpActs(answers[1..], normalize));
      assert ActsOf(answers[0], normalize) + [] == ActsOf(answers[0], normalize);
    }
  }

  lemma {:induction false} AcksOfRead(read: Read, normalize: Normalize)
    ensures AcksInPlace(ActsOf(read, normalize))
  {
  }

  lemma {:induction false} AcksOfDial(dial: Dial, normalize: Normalize)
    ensures AcksInPlace(DialActs(dial, normalize))
  {
    if dial.Dialled? {
      AcksOfPump(dial.answers, normalize);
      AcksConcat([Opened(None)], PumpActs(dial.answers, normalize));
    }
  }

  /** For every script: a frame that carries an id is acknowledged at once and nothing else is. */
  lemma {:induction false} AcksAreInPlace(script: seq<Dial>, normalize: Normalize)
    ensures AcksInPlace(ListenActs(script, normalize))
  {
    if script != [] {
      AcksOfDial(script[0], normalize);
      AcksAreInPlace(script[1..], normalize);
      hide AcksInPlace, DialActs;
      AcksConcat(DialActs(script[0], normalize), ListenActs(script[1..], normalize));
      assert DialActs(script[0], normalize) + [] == DialActs(script[0], normalize);
    }
  }

  // ---- dials ----

  function Opens(log: seq<Act>): seq<Option<Fault>> {
    if log == [] then [] else (if log[0].Opened? then [log[0].fault] else []) + Opens(log[1..])
  }

  function FaultOf(dial: Dial): Option<Fault> { if dial.DialFailed? then Some(dial.fault) else None }

  function FaultsOf(script: seq<Dial>): seq<Option<Fault>> {
    seq(|script|, i requires 0 <= i < |script| => FaultOf(script[i]))
  }

  lemma {:induction false} OpensConcat(a: seq<Act>, b: seq<Act>)
    ensures Opens(a + b) == Opens(a) + Opens(b)
  {
    if a == [] {
      assert a + b == b;
    } else {
      assert (a + b)[0] == a[0] && (a + b)[1..] == a[1..] + b;
      OpensConcat(a[1..], b);
    }
  }

  lemma {:induction false} OpensOfPump(answers: seq<Read>, normalize: Normalize)
    ensures Opens(PumpActs(answers, normalize)) == []
  {
    if answers != [] {
      OpensOfRead(answers[0], normalize);
      OpensOfPump(answers[1..], normalize);
      OpensConcat(ActsOf(answers[0], normalize), if AfterRead(answers[0]).Continue? then PumpActs(answers[1..], normalize) else []);
    }
  }

  lemma {:induction false} NoOpens(log: seq<Act>)
    requires forall k | 0 <= k < |log| :: !log[k].Opened?
    ensures Opens(log) == []
  {
    if log != [] { NoOpens(log[1..]); }
  }

  lemma {:induction false} OpensOfRead(read: Read, normalize: Normalize)
    ensures Opens(ActsOf(read, normalize)) == []
  {
    NoOpens(ActsOf(read, normalize));
  }

  lemma {:induction false} OpensOfDial(dial: Dial, normalize: Normalize)
    ensures Opens(DialActs(dial, normalize)) == [FaultOf(dial)]
  {
    if dial.Dialled? {
      OpensOfPump(dial.answers, normalize);
      OpensConcat([Opened(None)], PumpActs(dial.answers, normalize));
    }
    assert Opens([Opened(FaultOf(dial))]) == [FaultOf(dial)] + Opens([]);
  }

  lemma {:induction false} FaultsFrom(script: seq<Dial>, n: nat)
    requires 0 < n <= |script|
    ensures FaultsOf(script[..n]) == [FaultOf(script[0])] + FaultsOf(script[1..][..n - 1])
  {
    assert script[1..][..n - 1] == script[..n][1..];
  }

  /** The dials are made in order, up to and including the first during which something Fatal happens, or all of them. */
  lemma {:induction false} DialsAreMade(script: seq<Dial>, normalize: Normalize)
    ensures var n := |Opens(ListenActs(script, normalize))|;
      && n <= |script| && Opens(ListenActs(script, normalize)) == FaultsOf(script[..n])
      && (forall k | 0 <= k < n - 1 :: !HasFatal(DialActs(script[k], normalize)))
      && (n < |script| ==> n > 0 && HasFatal(DialActs(script[n - 1], normalize)))
  {
    if script != [] {
      var first, rest := DialActs(script[0], normalize), ListenActs(script[1..], normalize);
      DialsAreMade(script[1..], normalize);
      OpensOfDial(script[0], normalize);
      DialFatal(script[0], normalize);
      hide Opens, DialActs, HasFatal, DialGivesUp;
      OpensConcat(first, rest);
      assert first + [] == first;
      var n := |Opens(ListenActs(script, normalize))|;
      if DialGivesUp(script[0]) {
        assert FaultsOf(script[..1]) == [FaultOf(script[0])];
      } else {
        hide ListenActs;
        assert n == 1 + |Opens(rest)|;
        FaultsFrom(script, n);
        forall k | 1 <= k < |script| ensures script[k] == script[1..][k - 1] {}
      }
    }
  }
}
