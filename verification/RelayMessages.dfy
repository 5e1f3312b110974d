/** Which messages of a cascade take effect, and how, message by message of the whole reply tree. */
module RelayMessages {
  import opened Wrappers
  import opened Sequences
  import opened Conversation
  import opened Relay

  predicate ToAgent(send: Send, specialists: seq<string>) {
    send.Send? && (send.to == "orchestrator" || send.to in specialists)
  }

  /** One message that is delivered to a channel, or to nobody. */
  lemma {:induction false} OneMessage(send: Send, source: string, wired: bool, depth: nat, specialists: seq<string>)
    ensures send.Malformed? || depth > 4 ==> Route(send, source, wired, depth, specialists) == []
    ensures send.Send? && depth <= 4 && !ToAgent(send, specialists) ==>
              Route(send, source, wired, depth, specialists) == if wired then [Post(send.to, send.text, source)] else []
    ensures ToAgent(send, specialists) && depth <= 4 && send.replies.None? ==>
              Route(send, source, wired, depth, specialists) == [Turn(send.to, Wrap(send.to, Root(source, specialists + ["orchestrator"])), depth)]
  {
  }

  function Flatten(parts: seq<seq<Effect>>): seq<Effect> {
    if parts == [] then [] else parts[0] + Flatten(parts[1..])
  }

  /** A turn that runs is followed by what each of its replies leads to, in order, sent from its own session one hop on. */
  lemma {:induction false} EveryReplyIsRouted(send: Send, source: string, wired: bool, depth: nat, specialists: seq<string>)
    returns (parts: seq<seq<Effect>>)
    requires ToAgent(send, specialists) && depth <= 4 && send.replies.Some?
    ensures |parts| == |send.replies.value|
    ensures var session := Wrap(send.to, Root(source, specialists + ["orchestrator"]));
      && Route(send, source, wired, depth, specialists) == [Turn(send.to, session, depth)] + Flatten(parts)
      && forall k | 0 <= k < |parts| ::
           parts[k] == Route(send.replies.value[k], session, send.to == "orchestrator", depth + 1, specialists)
  {
    parts := PartsOf(send.replies.value, Wrap(send.to, Root(source, Names(specialists))), send.to == ORCHESTRATOR, depth + 1, specialists);
  }

  lemma {:induction false} PartsOf(sends: seq<Send>, source: string, wired: bool, depth: nat, specialists: seq<string>)
    returns (parts: seq<seq<Effect>>)
    ensures |parts| == |sends| && RouteAll(sends, source, wired, depth, specialists) == Flatten(parts)
    ensures forall k | 0 <= k < |parts| :: parts[k] == Route(sends[k], source, wired, depth, specialists)
  {
    hide Route;
    parts := [];
    if sends != [] {
      var rest := PartsOf(sends[1..], source, wired, depth, specialists);
      parts := [Route(sends[0], source, wired, depth, specialists)] + rest;
      assert parts[1..] == rest;
    }
  }

  // ---- the whole tree ----

  /** A message of the tree with the session that sends it, whether that session posts to Slack, and its hop. */
  datatype Message = Message(send: Send, sender: string, wired: bool, hop: nat)

  /** The messages the turn for this one sends, if it is delivered to an agent and the turn succeeds. */
  function Sends(m: Message, specialists: seq<string>): (r: seq<Send>) {
    if ToAgent(m.send, specialists) && m.hop <= 4 && m.send.replies.Some? then m.send.replies.value else []
  }

  function Reply(m: Message, reply: Send, specialists: seq<string>): Message
    requires ToAgent(m.send, specialists)
  {
    Message(reply, Wrap(m.send.to, Root(m.sender, specialists + ["orchestrator"])), m.send.to == "orchestrator", m.hop + 1)
  }

  /** The message reached by following reply numbers from `m`. */
  function Reached(m: Message, path: seq<nat>, specialists: seq<string>): Option<Message>
    decreases |path|
  {
    if path == [] then Some(m)
    else if path[0] < |Sends(m, specialists)| then Reached(Reply(m, Sends(m, specialists)[path[0]], specialists), path[1..], specialists)
    else None
  }

  /** What one message does by itself. */
  predicate Does(m: Message, e: Effect, specialists: seq<string>) {
    && m.send.Send? && m.hop <= 4
    && match e
       case Turn(agent, session, depth) =>
         ToAgent(m.send, specialists) && agent == m.send.to && depth == m.hop
         && session == Wrap(agent, Root(m.sender, specialists + ["orchestrator"]))
       case Post(channel, text, sender) =>
         !ToAgent(m.send, specialists) && m.wired && channel == m.send.to && text == m.send.text && sender == m.sender
  }

  /** A cascade does what the messages reached from its first one do, each of them, and nothing else. */
  lemma {:induction false} CascadeIsItsMessages(send: Send, source: string, wired: bool, depth: nat, specialists: seq<string>, e: Effect)
    ensures e in Route(send, source, wired, depth, specialists) <==>
            exists path :: var m := Reached(Message(send, source, wired, depth), path, specialists);
                           m.Some? && Does(m.value, e, specialists)
  {
    var first := Message(send, source, wired, depth);
    if e in Route(send, source, wired, depth, specialists) {
      var path := EffectHasMessage(first, specialists, e);
    }
    forall path | Reached(first, path, specialists).Some? && Does(Reached(first, path, specialists).value, e, specialists)
      ensures e in Route(send, source, wired, depth, specialists)
    {
      MessageHasEffect(first, path, specialists, e);
    }
  }

  function RouteOf(m: Message, specialists: seq<string>): seq<Effect> {
    Route(m.send, m.sender, m.wired, m.hop, specialists)
  }

  lemma {:induction false} MessageHasEffect(m: Message, path: seq<nat>, specialists: seq<string>, e: Effect)
    requires Reached(m, path, specialists).Some? && Does(Reached(m, path, specialists).value, e, specialists)
    ensures e in RouteOf(m, specialists)
    decreases |path|
  {
    hide Root, Wrap;
    if path == [] {
      assert Does(m, e, specialists);
      if m.send.replies.Some? && ToAgent(m.send, specialists) {
        assert RouteOf(m, specialists)[0] == e;
      }
    } else {
      var k := path[0];
      var next := Reply(m, Sends(m, specialists)[k], specialists);
      MessageHasEffect(next, path[1..], specialists, e);
      var parts := EveryReplyIsRouted(m.send, m.sender, m.wired, m.hop, specialists);
      assert parts[k] == RouteOf(next, specialists);
      InFlatten(parts, k, e);
    }
  }

  lemma {:induction false} InFlatten(parts: seq<seq<Effect>>, k: nat, e: Effect)
    requires k < |parts| && e in parts[k]
    ensures e in Flatten(parts)
  {
    if k > 0 { InFlatten(parts[1..], k - 1, e); }
  }

  lemma {:induction false} FlattenIn(parts: seq<seq<Effect>>, e: Effect) returns (k: nat)
    requires e in Flatten(parts)
    ensures k < |parts| && e in parts[k]
  {
    if e in parts[0] {
      k := 0;
    } else {
      k := FlattenIn(parts[1..], e);
      k := k + 1;
    }
  }

  lemma {:induction false} EffectHasMessage(m: Message, specialists: seq<string>, e: Effect) returns (path: seq<nat>)
    requires e in RouteOf(m, specialists)
    ensures Reached(m, path, specialists).Some? && Does(Reached(m, path, specialists).value, e, specialists)
    decreases HopsLeft(m.hop)
  {
    hide Route, Root, Wrap;
    OneMessage(m.send, m.sender, m.wired, m.hop, specialists);
    if Does(m, e, specialists) {
      path := [];
    } else {
      var parts := EveryReplyIsRouted(m.send, m.sender, m.wired, m.hop, specialists);
      var k := FlattenIn(parts, e);
      var next := Reply(m, Sends(m, specialists)[k], specialists);
      assert parts[k] == RouteOf(next, specialists);
      var rest := EffectHasMessage(next, specialists, e);
      path := [k] + rest;
      assert path[1..] == rest;
    }
  }
}
