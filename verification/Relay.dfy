/**
 Routing of `send_message` actions between agents: each relayed message runs a turn of its target,
 whose own messages are routed in the same way, up to a hop limit. A turn's replies are not
 determined by the code, so a message carries the messages its turn will send, if it is run.
 */
module Relay {
  import opened Wrappers
  import opened Sequences
  import opened Conversation

  const ORCHESTRATOR := "orchestrator"

  const MAX_DEPTH := 4

  /** A well-formed payload, with what the turn it starts replies (None: the turn fails); or a malformed one. */
  datatype Send = Send(to: string, text: string, replies: Option<seq<Send>>) | Malformed

  datatype Effect =
    | Turn(agent: string, session: string, depth: nat)
    | Post(channel: string, text: string, sender: string)

  /** The hop limit is what ends a cascade. */
  function HopsLeft(depth: nat): nat { if depth > MAX_DEPTH then 0 else MAX_DEPTH + 1 - depth }

  /** All routable names: the specialists, then the orchestrator. */
  function Names(specialists: seq<string>): seq<string> { specialists + [ORCHESTRATOR] }

  /** What routing one message from `source` does. Only a Slack-wired sender's message reaches a channel. */
  function Route(send: Send, source: string, wired: bool, depth: nat, specialists: seq<string>): seq<Effect>
    decreases HopsLeft(depth), 0
  {
    if depth > MAX_DEPTH || send.Malformed? then []
    else if send.to == ORCHESTRATOR || send.to in specialists then
      var session := Wrap(send.to, Root(source, Names(specialists)));
      [Turn(send.to, session, depth)] +
      match send.replies
      case None => []
      case Some(more) => RouteAll(more, session, send.to == ORCHESTRATOR, depth + 1, specialists)
    else if wired then [Post(send.to, send.text, source)]
    else []
  }

  function RouteAll(sends: seq<Send>, source: string, wired: bool, depth: nat, specialists: seq<string>): seq<Effect>
    decreases HopsLeft(depth), |sends| + 1
  {
    if sends == [] then []
    else
      Route(sends[0], source, wired, depth, specialists) +
      RouteAll(sends[1..], source, wired, depth, specialists)
  }

  /** The same, as the code runs it: effects are appended as they happen. */
  method RouteSendMessage(send: Send, source: string, wired: bool, depth: nat, specialists: seq<string>, before: seq<Effect>)
    returns (log: seq<Effect>)
    ensures log == before + Route(send, source, wired, depth, specialists)
    decreases HopsLeft(depth), 0
  {
    log := before;
    if depth > MAX_DEPTH || send.Malformed? {
      return;
    }
    var root := ConversationRoot(source, Names(specialists));
    hide Root, Wrap, Names, RouteAll;
    if send.to == ORCHESTRATOR || send.to in specialists {
      var session := Wrap(send.to, root);
      var turn := Turn(send.to, session, depth);
      log := log + [turn];
      if send.replies.Some? {
        ghost var rest := RouteAll(send.replies.value, session, send.to == ORCHESTRATOR, depth + 1, specialists);
        log := RouteReplies(send.replies.value, session, send.to == ORCHESTRATOR, depth + 1, specialists, log);
        assert (before + [turn]) + rest == before + ([turn] + rest);
      }
      return;
    }
    if wired {
      log := log + [Post(send.to, send.text, source)];
    }
  }

  method RouteReplies(sends: seq<Send>, source: string, wired: bool, depth: nat, specialists: seq<string>, before: seq<Effect>)
    returns (log: seq<Effect>)
    ensures log == before + RouteAll(sends, source, wired, depth, specialists)
    decreases HopsLeft(depth), 1
  {
    log := before;
    var i := 0;
    while i < |sends|
      invariant 0 <= i <= |sends|
      invariant log + RouteAll(sends[i..], source, wired, depth, specialists)
             == before + RouteAll(sends, source, wired, depth, specialists)
    {
      hide Route;
      assert sends[i..][1..] == sends[i + 1..];
      ghost var was := log;
      log := RouteSendMessage(sends[i], source, wired, depth, specialists, log);
      Assoc(was, Route(sends[i], source, wired, depth, specialists), RouteAll(sends[i + 1..], source, wired, depth, specialists));
      i := i + 1;
    }
  }

  // ---- what every cascade keeps ----

  /**
   A turn runs within the hop limit, in its target's session on the original root; a post comes
   from the first sender, if it is Slack-wired, or from the orchestrator's session on that root.
   */
  ghost predicate Proper(e: Effect, source: string, wired: bool, root: string, specialists: seq<string>) {
    match e
    case Turn(agent, session, depth) =>
      depth <= MAX_DEPTH && agent in Names(specialists) && session == Wrap(agent, root)
    case Post(channel, _, sender) =>
      && channel !in Names(specialists)
      && ((wired && sender == source) || sender == Wrap(ORCHESTRATOR, root))
  }

  lemma {:induction false} CascadeIsProper(send: Send, source: string, wired: bool, depth: nat, specialists: seq<string>, e: Effect)
    requires HopsPeelAway(Names(specialists))
    requires e in Route(send, source, wired, depth, specialists)
    ensures Proper(e, source, wired, Root(source, Names(specialists)), specialists)
    decreases HopsLeft(depth), 0
  {
    var root := Root(source, Names(specialists));
    if send.to == ORCHESTRATOR || send.to in specialists {
      var session := Wrap(send.to, root);
      assert send.to in Names(specialists);
      if send.replies.Some? && e != Turn(send.to, session, depth) {
        CascadesAreProper(send.replies.value, session, send.to == ORCHESTRATOR, depth + 1, specialists, e);
        RootIsIdempotent(source, Names(specialists));
        WrappedRootsStayIff(Names(specialists));
      }
    }
  }

  lemma {:induction false} CascadesAreProper(sends: seq<Send>, source: string, wired: bool, depth: nat, specialists: seq<string>, e: Effect)
    requires HopsPeelAway(Names(specialists))
    requires e in RouteAll(sends, source, wired, depth, specialists)
    ensures Proper(e, source, wired, Root(source, Names(specialists)), specialists)
    decreases HopsLeft(depth), |sends| + 1
  {
    if e in Route(sends[0], source, wired, depth, specialists) {
      CascadeIsProper(sends[0], source, wired, depth, specialists, e);
    } else {
      CascadesAreProper(sends[1..], source, wired, depth, specialists, e);
    }
  }

  /** Exactly when every cascade is proper: the condition under which hop sessions are stable. */
  lemma {:induction false} CascadesAreProperIff(specialists: seq<string>)
    ensures (forall send, source, wired, depth: nat, e | e in Route(send, source, wired, depth, specialists) ::
               Proper(e, source, wired, Root(source, Names(specialists)), specialists))
            <==> HopsPeelAway(Names(specialists))
  {
    if HopsPeelAway(Names(specialists)) {
      forall send, source, wired, depth: nat, e | e in Route(send, source, wired, depth, specialists)
        ensures Proper(e, source, wired, Root(source, Names(specialists)), specialists)
      {
        CascadeIsProper(send, source, wired, depth, specialists, e);
      }
    } else {
      WrappedRootsStayIff(Names(specialists));
      var a, r :| a in Names(specialists) && Peel(r, Names(specialists)).None? && Root(Wrap(a, r), Names(specialists)) != r;
      var send, e := ReportsBack(a, r, specialists);
    }
  }

  /** An agent that relays to itself: its second turn runs in another session. */
  lemma {:induction false} ReportsBack(a: string, r: string, specialists: seq<string>) returns (send: Send, e: Effect)
    requires a in Names(specialists) && Peel(r, Names(specialists)).None? && Root(Wrap(a, r), Names(specialists)) != r
    ensures e in Route(send, r, false, 0, specialists) && !Proper(e, r, false, Root(r, Names(specialists)), specialists)
  {
    var inner := Send(a, "", None);
    var session := Wrap(a, r);
    var next := Root(session, Names(specialists));
    send := Send(a, "", Some([inner]));
    e := Turn(a, Wrap(a, next), 1);
    assert Route(inner, session, a == ORCHESTRATOR, 1, specialists) == [e];
    assert RouteAll([inner], session, a == ORCHESTRATOR, 1, specialists)[0] == e;
    assert Route(send, r, false, 0, specialists)[1] == e;
    WrapRest(a, r);
    WrapRest(a, next);
  }

  /**
   A specialist never posts: every post of its cascade comes from an orchestrator turn that ran
   earlier in the same cascade, whatever the agents' names are.
   */
  lemma {:induction false} PostsComeFromTheOrchestrator(send: Send, source: string, depth: nat, specialists: seq<string>, i: nat)
    requires i < |Route(send, source, false, depth, specialists)|
    requires Route(send, source, false, depth, specialists)[i].Post?
    ensures var log := Route(send, source, false, depth, specialists);
            exists j | 0 <= j < i :: log[j].Turn? && log[j].agent == ORCHESTRATOR && log[j].session == log[i].sender
    decreases HopsLeft(depth), 0
  {
    var log := Route(send, source, false, depth, specialists);
    var session := Wrap(send.to, Root(source, Names(specialists)));
    var more := send.replies.value;
    var orchestrator := send.to == ORCHESTRATOR;
    var rest := RouteAll(more, session, orchestrator, depth + 1, specialists);
    assert log == [Turn(send.to, session, depth)] + rest;
    if rest[i - 1].sender == session && orchestrator {
      assert log[0].agent == ORCHESTRATOR;
    } else {
      PostsAmong(more, session, orchestrator, depth + 1, specialists, i - 1);
      var j :| 0 <= j < i - 1 && rest[j].Turn? && rest[j].agent == ORCHESTRATOR && rest[j].session == rest[i - 1].sender;
      assert log[j + 1] == rest[j];
    }
  }

  lemma {:induction false} PostsAmong(sends: seq<Send>, source: string, wired: bool, depth: nat, specialists: seq<string>, i: nat)
    requires i < |RouteAll(sends, source, wired, depth, specialists)|
    requires RouteAll(sends, source, wired, depth, specialists)[i].Post?
    ensures var log := RouteAll(sends, source, wired, depth, specialists);
            (wired && log[i].sender == source)
            || exists j | 0 <= j < i :: log[j].Turn? && log[j].agent == ORCHESTRATOR && log[j].session == log[i].sender
    decreases HopsLeft(depth), |sends| + 1
  {
    var log := RouteAll(sends, source, wired, depth, specialists);
    var first := Route(sends[0], source, wired, depth, specialists);
    var rest := RouteAll(sends[1..], source, wired, depth, specialists);
    assert log == first + rest;
    if i < |first| {
      if sends[0].to == ORCHESTRATOR || sends[0].to in specialists {
        assert first == Route(sends[0], source, false, depth, specialists);
        PostsComeFromTheOrchestrator(sends[0], source, depth, specialists, i);
        var j :| 0 <= j < i && first[j].Turn? && first[j].agent == ORCHESTRATOR && first[j].session == first[i].sender;
        assert log[j] == first[j];
      }
    } else {
      PostsAmong(sends[1..], source, wired, depth, specialists, i - |first|);
      if !(wired && log[i].sender == source) {
        var k := i - |first|;
        var j :| 0 <= j < k && rest[j].Turn? && rest[j].agent == ORCHESTRATOR && rest[j].session == rest[k].sender;
        assert log[|first| + j] == rest[j];
      }
    }
  }
}
