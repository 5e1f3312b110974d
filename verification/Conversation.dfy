/**
 Session ids of agent-to-agent exchanges: `a2a-<agent>-<root>`. The root is found by stripping
 such prefixes, so a multi-hop exchange reuses one session per (target, root).
 */
module Conversation {
  import opened Wrappers

  const PREFIX := "a2a-"

  function StripPrefix(s: string, prefix: string): (r: Option<string>)
    ensures r.Some? <==> prefix <= s
    ensures r.Some? ==> s == prefix + r.value
  {
    if prefix <= s then Some(s[|prefix|..]) else None
  }

  /** What is left after the first agent, in list order, whose name and a dash begin `rest`. */
  function AfterAgent(rest: string, agents: seq<string>): (r: Option<string>)
    ensures r.Some? ==> |r.value| < |rest|
  {
    if agents == [] then None
    else match StripPrefix(rest, agents[0] + "-")
      case Some(inner) => Some(inner)
      case None => AfterAgent(rest, agents[1..])
  }

  /** One relay prefix stripped, if the id has one. */
  function Peel(session: string, agents: seq<string>): (r: Option<string>)
    ensures r.Some? ==> |r.value| < |session|
  {
    match StripPrefix(session, PREFIX)
    case None => None
    case Some(rest) => AfterAgent(rest, agents)
  }

  function Root(session: string, agents: seq<string>): string
    decreases |session|
  {
    match Peel(session, agents)
    case None => session
    case Some(inner) => Root(inner, agents)
  }

  method ConversationRoot(session: string, agents: seq<string>) returns (root: string)
    ensures root == Root(session, agents)
  {
    root := session;
    while PREFIX <= root
      invariant Root(root, agents) == Root(session, agents)
      decreases |root|
    {
      var rest := root[|PREFIX|..];
      var inner := AfterAgent(rest, agents);
      if inner.None? {
        break;
      }
      root := inner.value;
    }
  }

  /** The session a hop to `agent` runs in. */
  function Wrap(agent: string, session: string): string { PREFIX + agent + "-" + session }

  /** One prefix is `a2a-`, a listed name and a dash; of several names that fit, the first listed is taken. */
  lemma {:induction false} PeelMeans(session: string, agents: seq<string>, inner: string)
    ensures Peel(session, agents) == Some(inner) <==>
            exists i | 0 <= i < |agents| ::
              session == "a2a-" + (agents[i] + "-" + inner) && forall j | 0 <= j < i :: !("a2a-" + (agents[j] + "-") <= session)
  {
    if "a2a-" <= session {
      var rest := session[4..];
      assert session == "a2a-" + rest;
      AfterAgentMeans(rest, agents, inner);
      forall i | 0 <= i < |agents|
        ensures "a2a-" + (agents[i] + "-") <= session <==> agents[i] + "-" <= rest
        ensures session == "a2a-" + (agents[i] + "-" + inner) <==> rest == agents[i] + "-" + inner
      {
        var name := agents[i] + "-";
        assert ("a2a-" + name)[4..] == name && ("a2a-" + (name + inner))[4..] == name + inner;
        assert "a2a-" + name <= session ==> session[..4 + |name|] == "a2a-" + name && rest[..|name|] == session[4..4 + |name|];
        assert name <= rest ==> session[..4 + |name|] == "a2a-" + rest[..|name|];
      }
    } else {
      forall i | 0 <= i < |agents| ensures session != "a2a-" + (agents[i] + "-" + inner) {
        assert "a2a-" <= "a2a-" + (agents[i] + "-" + inner);
      }
    }
  }

  lemma {:induction false} AfterAgentMeans(rest: string, agents: seq<string>, inner: string)
    ensures AfterAgent(rest, agents) == Some(inner) <==>
            exists i | 0 <= i < |agents| :: rest == agents[i] + "-" + inner && forall j | 0 <= j < i :: !(agents[j] + "-" <= rest)
  {
    if agents != [] {
      var first, tail := agents[0] + "-", agents[1..];
      if first <= rest {
        assert rest == first + rest[|first|..];
        assert rest == first + inner ==> inner == rest[|first|..];
      } else {
        AfterAgentMeans(rest, tail, inner);
        assert rest != first + inner;
        if AfterAgent(rest, tail) == Some(inner) {
          var i :| 0 <= i < |tail| && rest == tail[i] + "-" + inner && forall j | 0 <= j < i :: !(tail[j] + "-" <= rest);
          assert agents[i + 1] == tail[i];
          assert forall j | 1 <= j < i + 1 :: agents[j] == tail[j - 1];
        }
        forall i | 0 <= i < |agents| && rest == agents[i] + "-" + inner && forall j | 0 <= j < i :: !(agents[j] + "-" <= rest)
          ensures AfterAgent(rest, tail) == Some(inner)
        {
          assert i > 0 && tail[i - 1] == agents[i];
          assert forall j | 0 <= j < i - 1 :: tail[j] == agents[j + 1];
        }
      }
    }
  }

  // ---- roots ----

  /** A root has no relay prefix left, so taking the root again changes nothing. */
  lemma {:induction false} RootIsIdempotent(session: string, agents: seq<string>)
    ensures Peel(Root(session, agents), agents) == None
    ensures Root(Root(session, agents), agents) == Root(session, agents)
    decreases |session|
  {
    if Peel(session, agents).Some? {
      RootIsIdempotent(Peel(session, agents).value, agents);
    }
  }

  /** One agent's name begins with another's and a dash. */
  predicate Extends(longer: string, shorter: string) {
    longer != shorter && shorter + "-" <= longer
  }

  ghost predicate NoClash(agents: seq<string>) {
    forall a, b | a in agents && b in agents :: !Extends(a, b)
  }

  lemma {:induction false} DashedPrefixes(a: string, b: string, s: string)
    requires a + "-" <= b + "-" + s && a != b
    ensures Extends(a, b) || Extends(b, a)
  {
    var t := b + "-" + s;
    assert a + "-" == t[..|a| + 1];
    assert t[..|a|] == a && t[..|b|] == b;
    if |a| < |b| {
      assert a + "-" == (b + "-" + s)[..|a| + 1] == b[..|a| + 1];
    } else if |a| > |b| {
      assert t[..|b| + 1] == b + "-";
      assert (a + "-")[..|b| + 1] == a[..|b| + 1] == t[..|b| + 1];
    }
  }

  /** `agent` is the first listed name that, followed by a dash, begins `rest`. */
  lemma {:induction false} FirstMatch(rest: string, agents: seq<string>, i: nat)
    requires i < |agents| && agents[i] + "-" <= rest
    requires forall j | 0 <= j < i :: !(agents[j] + "-" <= rest)
    ensures AfterAgent(rest, agents) == Some(rest[|agents[i]| + 1..])
  {
    if i > 0 {
      assert forall j | 0 <= j < i - 1 :: agents[1..][j] == agents[j + 1];
      FirstMatch(rest, agents[1..], i - 1);
    }
  }

  /** Some listed name begins `rest`; the one that is stripped is listed no later than `i`. */
  lemma {:induction false} SomeMatch(rest: string, agents: seq<string>, i: nat) returns (k: nat)
    requires i < |agents| && agents[i] + "-" <= rest
    ensures k <= i && agents[k] + "-" <= rest
    ensures AfterAgent(rest, agents) == Some(rest[|agents[k]| + 1..])
  {
    if agents[0] + "-" <= rest {
      k := 0;
    } else {
      k := SomeMatch(rest, agents[1..], i - 1);
      k := k + 1;
    }
  }

  lemma {:induction false} WrapRest(agent: string, s: string)
    ensures StripPrefix(Wrap(agent, s), PREFIX) == Some(agent + "-" + s)
    ensures agent + "-" <= agent + "-" + s && (agent + "-" + s)[|agent| + 1..] == s
  {
    assert Wrap(agent, s) == PREFIX + (agent + "-" + s);
    assert Wrap(agent, s)[|PREFIX|..] == agent + "-" + s;
  }

  lemma {:induction false} PeelUndoesWrap(agent: string, s: string, agents: seq<string>)
    requires agent in agents && NoClash(agents)
    ensures Peel(Wrap(agent, s), agents) == Some(s)
  {
    WrapRest(agent, s);
    var rest := agent + "-" + s;
    var i :| 0 <= i < |agents| && agents[i] == agent;
    var k := SomeMatch(rest, agents, i);
    if agents[k] != agent {
      DashedPrefixes(agents[k], agent, s);
    }
  }

  /** The witness that a clash breaks some wrap: whichever name is listed later is mis-stripped. */
  lemma {:induction false} ClashBreaksPeel(longer: string, shorter: string, agents: seq<string>)
    requires longer in agents && shorter in agents && Extends(longer, shorter)
    ensures exists agent, s :: agent in agents && Peel(Wrap(agent, s), agents) != Some(s)
  {
    var tail := longer[|shorter| + 1..];
    assert longer == shorter + "-" + tail;
    // Both wraps below spell the same id.
    assert Wrap(longer, "x") == Wrap(shorter, tail + "-" + "x") by {
      assert longer + "-" + "x" == shorter + "-" + (tail + "-" + "x");
    }
    var a, b := Peel(Wrap(longer, "x"), agents), Peel(Wrap(shorter, tail + "-" + "x"), agents);
    assert a == b && |tail + "-" + "x"| != |"x"|;
    if a == Some("x") {
      assert b != Some(tail + "-" + "x");
    }
  }

  /** Every wrap is undone by one peel if and only if no agent's name extends another's. */
  lemma {:induction false} PeelUndoesEveryWrapIffNoClash(agents: seq<string>)
    ensures (forall agent, s | agent in agents :: Peel(Wrap(agent, s), agents) == Some(s)) <==> NoClash(agents)
  {
    if NoClash(agents) {
      forall agent, s | agent in agents ensures Peel(Wrap(agent, s), agents) == Some(s) {
        PeelUndoesWrap(agent, s, agents);
      }
    } else {
      var a, b :| a in agents && b in agents && Extends(a, b);
      ClashBreaksPeel(a, b, agents);
    }
  }

  /** The id after a chain of relays, innermost first, with no normalisation in between. */
  function WrapAll(hops: seq<string>, session: string): string {
    if hops == [] then session else Wrap(hops[|hops| - 1], WrapAll(hops[..|hops| - 1], session))
  }

  ghost predicate Listed(hops: seq<string>, agents: seq<string>) {
    forall i | 0 <= i < |hops| :: hops[i] in agents
  }

  lemma {:induction false} WrapSplits(agent: string, s: string, t: string)
    ensures Wrap(agent, s + t) == Wrap(agent, s) + t
  {
  }

  lemma {:induction false} WrapAllSplits(hops: seq<string>, s: string)
    ensures WrapAll(hops, s) == WrapAll(hops, "") + s
  {
    if hops == [] {
      assert "" + s == s;
    } else {
      var n := |hops| - 1;
      WrapAllSplits(hops[..n], s);
      WrapSplits(hops[n], WrapAll(hops[..n], ""), s);
    }
  }

  // ---- when every id keeps its root ----

  /** One agent's name extends another's, and what it adds, with a dash, is not itself relay prefixes of listed agents. */
  ghost predicate Misread(longer: string, shorter: string, agents: seq<string>) {
    && Extends(longer, shorter)
    && forall hops | Listed(hops, agents) :: WrapAll(hops, "") != longer[|shorter| + 1..] + "-"
  }

  ghost predicate NoneMisread(agents: seq<string>) {
    forall a, b | a in agents && b in agents :: !Misread(a, b, agents)
  }

  /** The agent whose prefix is stripped from a wrap, and what is left. */
  lemma {:induction false} StrippedFromWrap(agent: string, s: string, agents: seq<string>) returns (k: string)
    requires agent in agents
    ensures k in agents && k + "-" <= agent + "-" + s
    ensures Peel(Wrap(agent, s), agents) == Some((agent + "-" + s)[|k| + 1..])
  {
    WrapRest(agent, s);
    var i :| 0 <= i < |agents| && agents[i] == agent;
    var j := SomeMatch(agent + "-" + s, agents, i);
    k := agents[j];
  }

  lemma {:induction false} LeftBehind(agent: string, k: string, s: string)
    requires k + "-" <= agent
    ensures (agent + "-" + s)[|k| + 1..] == agent[|k| + 1..] + "-" + s
  {
    assert agent == agent[..|k| + 1] + agent[|k| + 1..];
  }

  lemma {:induction false} TakenOff(agent: string, k: string, s: string)
    requires agent + "-" <= k && k + "-" <= agent + "-" + s
    ensures s == k[|agent| + 1..] + "-" + (agent + "-" + s)[|k| + 1..]
  {
    var rest := agent + "-" + s;
    assert rest == (k + "-") + rest[|k| + 1..];
    assert s == rest[|agent| + 1..];
  }

  lemma {:induction false} KeepsRoot(agent: string, s: string, agents: seq<string>)
    requires agent in agents && NoneMisread(agents)
    ensures Root(Wrap(agent, s), agents) == Root(s, agents)
    decreases |Wrap(agent, s)|, 0
  {
    var k := StrippedFromWrap(agent, s, agents);
    var rest := agent + "-" + s;
    var left := rest[|k| + 1..];
    if k == agent {
      assert left == s;
    } else {
      DashedPrefixes(k, agent, s);
      if Extends(agent, k) {
        // The stripped name is shorter: relay prefixes are left in front of `s`.
        var tail := agent[|k| + 1..] + "-";
        var hops :| Listed(hops, agents) && WrapAll(hops, "") == tail;
        LeftBehind(agent, k, s);
        WrapAllSplits(hops, s);
        RelaysKeepRoot(hops, s, agents);
      } else {
        // It is longer: relay prefixes are taken off `s`.
        var tail := k[|agent| + 1..] + "-";
        var hops :| Listed(hops, agents) && WrapAll(hops, "") == tail;
        TakenOff(agent, k, s);
        WrapAllSplits(hops, left);
        RelaysKeepRoot(hops, left, agents);
      }
    }
  }

  /** Any number of relay prefixes leaves the root unchanged. */
  lemma {:induction false} RelaysKeepRoot(hops: seq<string>, s: string, agents: seq<string>)
    requires Listed(hops, agents) && NoneMisread(agents)
    ensures Root(WrapAll(hops, s), agents) == Root(s, agents)
    decreases |WrapAll(hops, s)|, 1
  {
    if hops != [] {
      var n := |hops| - 1;
      RelaysKeepRoot(hops[..n], s, agents);
      KeepsRoot(hops[n], WrapAll(hops[..n], s), agents);
    }
  }

  /** Every id is relay prefixes of listed agents around its root. */
  lemma {:induction false} SpelledByRelays(s: string, agents: seq<string>) returns (hops: seq<string>)
    ensures Listed(hops, agents) && s == WrapAll(hops, Root(s, agents))
    decreases |s|
  {
    hops := [];
    if Peel(s, agents).Some? {
      var inner := Peel(s, agents).value;
      var k := PeeledAgent(s, agents);
      hops := SpelledByRelays(inner, agents);
      hops := hops + [k];
      assert hops[..|hops| - 1] + [k] == hops;
    }
  }

  lemma {:induction false} Spelling(rest: string, k: string)
    requires k + "-" <= rest
    ensures PREFIX + rest == Wrap(k, rest[|k| + 1..])
  {
    assert rest == (k + "-") + rest[|k| + 1..];
  }

  lemma {:induction false} PeeledAgent(s: string, agents: seq<string>) returns (k: string)
    requires Peel(s, agents).Some?
    ensures k in agents && s == Wrap(k, Peel(s, agents).value)
  {
    PeelableHasPrefix(s, agents);
    hide Peel, AfterAgent;
    var rest := s[|PREFIX|..];
    var i := MatchedAt(rest, agents);
    k := agents[i];
    Spelling(rest, k);
  }

  lemma {:induction false} MatchedAt(rest: string, agents: seq<string>) returns (i: nat)
    requires AfterAgent(rest, agents).Some?
    ensures i < |agents| && agents[i] + "-" <= rest && AfterAgent(rest, agents) == Some(rest[|agents[i]| + 1..])
    ensures forall j | 0 <= j < i :: !(agents[j] + "-" <= rest)
  {
    if agents[0] + "-" <= rest {
      i := 0;
    } else {
      i := MatchedAt(rest, agents[1..]);
      i := i + 1;
    }
  }

  /** Exactly when a relay prefix never changes the root of any id: what a name adds to another is relay prefixes. */
  lemma {:induction false} RootSurvivesRelaysIff(agents: seq<string>)
    ensures (forall hops, s | Listed(hops, agents) :: Root(WrapAll(hops, s), agents) == Root(s, agents)) <==> NoneMisread(agents)
  {
    if NoneMisread(agents) {
      forall hops, s | Listed(hops, agents) ensures Root(WrapAll(hops, s), agents) == Root(s, agents) {
        RelaysKeepRoot(hops, s, agents);
      }
    } else {
      var a, b :| a in agents && b in agents && Misread(a, b, agents);
      MisreadLosesRoot(a, b, agents);
    }
  }

  lemma {:induction false} MisreadLosesRoot(longer: string, shorter: string, agents: seq<string>)
    requires longer in agents && shorter in agents && Misread(longer, shorter, agents)
    ensures exists hops, s :: Listed(hops, agents) && Root(WrapAll(hops, s), agents) != Root(s, agents)
  {
    var tail := longer[|shorter| + 1..] + "-";
    // Two wraps spell the same id.
    assert Wrap(longer, "") == Wrap(shorter, tail);
    var hops := SpelledByRelays(tail, agents);
    WrapAllSplits(hops, "");
    assert Root("", agents) == "";
    assert Root(tail, agents) != "";
    OneHop(longer, "");
    OneHop(shorter, tail);
    assert Listed([longer], agents) && Listed([shorter], agents);
    assert Root(WrapAll([longer], ""), agents) != Root("", agents) || Root(WrapAll([shorter], tail), agents) != Root(tail, agents);
  }

  lemma {:induction false} OneHop(agent: string, s: string)
    ensures WrapAll([agent], s) == Wrap(agent, s)
  {
    assert [agent][..0] == [];
  }

  /** Names may clash and still keep every root: here what the longer one adds is a prefix for the shorter one. */
  lemma {:induction false} ClashMayKeepRoots()
    ensures var agents := ["se", "se-a2a-se"]; !NoClash(agents) && NoneMisread(agents)
  {
    var agents := ["se", "se-a2a-se"];
    assert Extends(agents[1], agents[0]);
    OneHop("se", "");
    assert agents[1][|agents[0]| + 1..] + "-" == Wrap("se", "") == "a2a-se-";
    assert Listed(["se"], agents);
  }

  // ---- when a hop's session keeps the root ----

  /** What routing does: each hop's session is the target wrapped around the sender's root. */
  function SessionAfter(hops: seq<string>, session: string, agents: seq<string>): string {
    if hops == [] then session
    else Wrap(hops[|hops| - 1], Root(SessionAfter(hops[..|hops| - 1], session, agents), agents))
  }

  /**
   Routing wraps roots only, so less is asked: peeling the prefixes `x` one by one ends with
   nothing, and no name listed before the one that is stripped runs on past the end of `x` into
   something that could begin a root.
   */
  predicate PeelsAway(x: string, agents: seq<string>)
    decreases |x|
  {
    x == "" || (
      && Peel(x, agents).Some?
      && NoneRunsOn(x[|PREFIX|..], agents, agents)
      && PeelsAway(Peel(x, agents).value, agents))
  }

  /** Of the names in `some` up to the first that begins `rest`, any that runs on past it needs more relay prefixes. */
  predicate NoneRunsOn(rest: string, some: seq<string>, agents: seq<string>) {
    some == [] || some[0] + "-" <= rest || (
      && (rest <= some[0] + "-" ==> Peel((some[0] + "-")[|rest|..], agents).Some?)
      && NoneRunsOn(rest, some[1..], agents))
  }

  ghost predicate HopsPeelAway(agents: seq<string>) {
    forall a | a in agents :: PeelsAway(Wrap(a, ""), agents)
  }

  lemma {:induction false} RunsOnAt(rest: string, some: seq<string>, agents: seq<string>, i: nat)
    requires NoneRunsOn(rest, some, agents) && i < |some| && rest <= some[i] + "-"
    requires forall j | 0 <= j <= i :: !(some[j] + "-" <= rest)
    ensures Peel((some[i] + "-")[|rest|..], agents).Some?
  {
    if i > 0 {
      RunsOnAt(rest, some[1..], agents, i - 1);
    }
  }

  lemma {:induction false} NoneRunsOnIf(rest: string, some: seq<string>, agents: seq<string>)
    requires forall i | 0 <= i < |some| && rest <= some[i] + "-" && (forall j | 0 <= j <= i :: !(some[j] + "-" <= rest)) ::
               Peel((some[i] + "-")[|rest|..], agents).Some?
    ensures NoneRunsOn(rest, some, agents)
  {
    if some != [] && !(some[0] + "-" <= rest) {
      forall i | 0 <= i < |some[1..]| && rest <= some[1..][i] + "-" && (forall j | 0 <= j <= i :: !(some[1..][j] + "-" <= rest))
        ensures Peel((some[1..][i] + "-")[|rest|..], agents).Some?
      {
        assert some[1..][i] == some[i + 1];
        assert forall j | 0 <= j <= i + 1 :: !(some[j] + "-" <= rest) by {
          forall j | 0 <= j <= i + 1 ensures !(some[j] + "-" <= rest) {
            assert j > 0 ==> some[1..][j - 1] == some[j];
          }
        }
      }
      NoneRunsOnIf(rest, some[1..], agents);
    }
  }

  /** What begins with something peelable is peelable. */
  lemma {:induction false} PeelExtends(z: string, w: string, agents: seq<string>)
    requires Peel(z, agents).Some?
    ensures Peel(z + w, agents).Some?
  {
    var i := MatchedAt(z[|PREFIX|..], agents);
    assert (z + w)[|PREFIX|..] == z[|PREFIX|..] + w;
    var _ := SomeMatch(z[|PREFIX|..] + w, agents, i);
  }

  lemma {:induction false} PeelOf(rest: string, agents: seq<string>)
    ensures Peel(PREFIX + rest, agents) == AfterAgent(rest, agents)
  {
    assert (PREFIX + rest)[|PREFIX|..] == rest;
  }

  lemma {:induction false} PeelableHasPrefix(x: string, agents: seq<string>)
    requires Peel(x, agents).Some?
    ensures PREFIX <= x && x == PREFIX + x[|PREFIX|..] && AfterAgent(x[|PREFIX|..], agents) == Peel(x, agents)
  {
  }

  lemma {:induction false} StillMatches(name: string, y: string, r: string)
    requires name <= y
    ensures name <= y + r && (y + r)[|name|..] == y[|name|..] + r
  {
  }

  lemma {:induction false} NoEarlierMatch(y: string, r: string, agents: seq<string>, m: nat)
    requires m < |agents| && NoneRunsOn(y, agents, agents) && Peel(r, agents).None?
    requires forall j | 0 <= j < m :: !(agents[j] + "-" <= y)
    ensures forall i | 0 <= i < m :: !(agents[i] + "-" <= y + r)
  {
    hide NoneRunsOn, Peel;
    forall i | 0 <= i < m ensures !(agents[i] + "-" <= y + r) {
      if agents[i] + "-" <= y + r {
        LongerPrefix(agents[i] + "-", y, y + r);
        RunOnIsRootless(y, agents[i] + "-", r, agents, i);
      }
    }
  }

  /** With a root behind it, a prefix that peels away is peeled as if it stood alone. */
  lemma {:induction false} PeelBefore(x: string, r: string, agents: seq<string>)
    requires Peel(x, agents).Some? && NoneRunsOn(x[|PREFIX|..], agents, agents) && Peel(r, agents).None?
    ensures Peel(x + r, agents) == Some(Peel(x, agents).value + r)
  {
    hide Peel, AfterAgent, NoneRunsOn;
    PeelableHasPrefix(x, agents);
    var y := x[|PREFIX|..];
    assert x + r == PREFIX + (y + r);
    PeelOf(y + r, agents);
    var m := MatchedAt(y, agents);
    NoEarlierMatch(y, r, agents, m);
    StillMatches(agents[m] + "-", y, r);
    var i := SomeMatchFirst(y + r, agents, m);
  }

  lemma {:induction false} LongerPrefix(a: string, b: string, s: string)
    requires a <= s && b <= s && !(a <= b)
    ensures |b| < |a| && b <= a
  {
    assert forall k | 0 <= k < |a| && k < |b| :: a[k] == s[k] == b[k];
  }

  lemma {:induction false} RunOnIsRootless(y: string, name: string, r: string, agents: seq<string>, i: nat)
    requires i < |agents| && name == agents[i] + "-" && y <= name <= y + r
    requires NoneRunsOn(y, agents, agents) && forall j | 0 <= j <= i :: !(agents[j] + "-" <= y)
    ensures Peel(r, agents).Some?
  {
    var z := name[|y|..];
    assert z <= r;
    assert r == z + r[|z|..];
    RunsOnAt(y, agents, agents, i);
    PeelExtends(z, r[|z|..], agents);
  }

  lemma {:induction false} SomeMatchFirst(rest: string, agents: seq<string>, m: nat) returns (i: nat)
    requires m < |agents| && agents[m] + "-" <= rest
    ensures i <= m && agents[i] + "-" <= rest && AfterAgent(rest, agents) == Some(rest[|agents[i]| + 1..])
    ensures forall j | 0 <= j < i :: !(agents[j] + "-" <= rest)
  {
    var _ := SomeMatch(rest, agents, m);
    i := MatchedAt(rest, agents);
  }

  lemma {:induction false} PeelsAwayKeepsRoot(x: string, r: string, agents: seq<string>)
    requires PeelsAway(x, agents) && Peel(r, agents).None?
    ensures Root(x + r, agents) == r
    decreases |x|
  {
    if x == "" {
      assert "" + r == r;
    } else {
      PeelBefore(x, r, agents);
      PeelsAwayKeepsRoot(Peel(x, agents).value, r, agents);
    }
  }

  lemma {:induction false} RootShrinks(s: string, agents: seq<string>)
    ensures |Root(s, agents)| <= |s|
    decreases |s|
  {
    if Peel(s, agents).Some? { RootShrinks(Peel(s, agents).value, agents); }
  }

  /** The converse: a prefix that no root behind it disturbs peels away. */
  lemma {:induction false} KeepsRootsPeelsAway(x: string, agents: seq<string>)
    requires forall r | Peel(r, agents).None? :: Root(x + r, agents) == r
    ensures PeelsAway(x, agents)
    decreases |x|
  {
    if x != "" {
      assert Peel("", agents).None? && x + "" == x;
      assert Peel(x, agents).Some?;
      var y := x[|PREFIX|..];
      forall i | 0 <= i < |agents| && y <= agents[i] + "-" && (forall j | 0 <= j <= i :: !(agents[j] + "-" <= y))
        ensures Peel((agents[i] + "-")[|y|..], agents).Some?
      {
        RunOnDisturbs(x, agents, i);
      }
      NoneRunsOnIf(y, agents, agents);
      var inner := Peel(x, agents).value;
      forall r | Peel(r, agents).None? ensures Root(inner + r, agents) == r {
        PeelBefore(x, r, agents);
      }
      KeepsRootsPeelsAway(inner, agents);
    }
  }

  lemma {:induction false} RunOnDisturbs(x: string, agents: seq<string>, i: nat)
    requires Peel(x, agents).Some? && i < |agents|
    requires x[|PREFIX|..] <= agents[i] + "-" && forall j | 0 <= j <= i :: !(agents[j] + "-" <= x[|PREFIX|..])
    requires forall r | Peel(r, agents).None? :: Root(x + r, agents) == r
    ensures Peel((agents[i] + "-")[|x[|PREFIX|..]|..], agents).Some?
  {
    var y := x[|PREFIX|..];
    var name := agents[i] + "-";
    var z := name[|y|..];
    assert (x + z)[|PREFIX|..] == y + z == name;
    var j := SomeMatchFirst(name, agents, i);
    LongerPrefix(agents[j] + "-", y, name);
    var left := name[|agents[j]| + 1..];
    RootShrinks(left, agents);
    assert Peel(x + z, agents) == Some(left) && |Root(x + z, agents)| < |z|;
  }

  /** Wrapping any root keeps it, exactly when each listed agent's own prefix peels away. */
  lemma {:induction false} WrappedRootsStayIff(agents: seq<string>)
    ensures (forall a, r | a in agents && Peel(r, agents).None? :: Root(Wrap(a, r), agents) == r) <==> HopsPeelAway(agents)
  {
    forall a, r: string ensures Wrap(a, r) == Wrap(a, "") + r {
      WrapSplits(a, "", r);
      assert "" + r == r;
    }
    if HopsPeelAway(agents) {
      forall a, r | a in agents && Peel(r, agents).None? ensures Root(Wrap(a, r), agents) == r {
        PeelsAwayKeepsRoot(Wrap(a, ""), r, agents);
      }
    } else {
      var a :| a in agents && !PeelsAway(Wrap(a, ""), agents);
      if forall r | Peel(r, agents).None? :: Root(Wrap(a, "") + r, agents) == r {
        KeepsRootsPeelsAway(Wrap(a, ""), agents);
      }
    }
  }

  /** Session ids stay stable over hops: a hop's session is its target and the original root, however long the chain. */
  lemma {:induction false} HopSessionsAreStable(hops: seq<string>, session: string, agents: seq<string>)
    requires hops != [] && HopsPeelAway(agents) && Listed(hops, agents)
    ensures SessionAfter(hops, session, agents) == Wrap(hops[|hops| - 1], Root(session, agents))
  {
    var n := |hops| - 1;
    if n > 0 {
      HopSessionsAreStable(hops[..n], session, agents);
      RootIsIdempotent(session, agents);
      WrappedRootsStayIff(agents);
    }
  }

  /** Exactly when they do: a caller can check the agents' own prefixes. */
  lemma {:induction false} HopSessionsAreStableIff(agents: seq<string>)
    ensures (forall hops, session | hops != [] && Listed(hops, agents) ::
               SessionAfter(hops, session, agents) == Wrap(hops[|hops| - 1], Root(session, agents)))
            <==> HopsPeelAway(agents)
  {
    if HopsPeelAway(agents) {
      forall hops, session | hops != [] && Listed(hops, agents)
        ensures SessionAfter(hops, session, agents) == Wrap(hops[|hops| - 1], Root(session, agents))
      {
        HopSessionsAreStable(hops, session, agents);
      }
    } else {
      WrappedRootsStayIff(agents);
      var a, r :| a in agents && Peel(r, agents).None? && Root(Wrap(a, r), agents) != r;
      TwoHops(a, r, agents);
      assert Listed([a, a], agents);
    }
  }

  lemma {:induction false} TwoHops(a: string, r: string, agents: seq<string>)
    requires Peel(r, agents).None? && Root(Wrap(a, r), agents) != r
    ensures SessionAfter([a, a], r, agents) != Wrap(a, Root(r, agents))
  {
    assert [a, a][..1] == [a] && [a][..0] == [];
    assert SessionAfter([a], r, agents) == Wrap(a, r);
    WrapRest(a, r);
    WrapRest(a, Root(Wrap(a, r), agents));
  }

  /** No clash at all is enough for either. */
  lemma {:induction false} NoClashKeepsRoots(agents: seq<string>)
    requires NoClash(agents)
    ensures NoneMisread(agents) && HopsPeelAway(agents)
  {
    WrappedRootsStayIff(agents);
    forall a, r | a in agents && Peel(r, agents).None? ensures Root(Wrap(a, r), agents) == r {
      PeelUndoesWrap(a, r, agents);
    }
  }

  /** Stable hop sessions ask for strictly less: routing never wraps the id that the first name would be mistaken in. */
  lemma {:induction false} HopsNeedLess()
    ensures var agents := ["se-a2a-se-x", "se"]; HopsPeelAway(agents) && !NoneMisread(agents)
  {
    var long, short := "se-a2a-se-x", "se";
    var agents := [long, short];
    var tail := "a2a-se-x-";
    TailPeels(agents, tail);
    LongPeels(agents);
    ShortPeels(agents, tail);
    RootOfPlain("x-", agents);
    assert Root(tail, agents) == "x-" && Root(Wrap(long, ""), agents) == Root("", agents) == "";
    // The same id, read as the shorter name around `tail`.
    assert Wrap(short, tail) == Wrap(long, "");
    hide Root, Wrap, PeelsAway;
    OneHop(short, tail);
    assert Listed([short], agents);
    RootSurvivesRelaysIff(agents);
  }

  /** What the longer name adds is a relay prefix and an `x-` that is none. */
  lemma {:induction false} TailPeels(agents: seq<string>, tail: string)
    requires agents == ["se-a2a-se-x", "se"] && tail == "a2a-se-x-"
    ensures Peel(tail, agents) == Some("x-")
  {
    assert agents[1] + "-" == "se-" <= "se-x-" && !(agents[0] + "-" <= "se-x-");
    FirstMatch("se-x-", agents, 1);
    PeelOf("se-x-", agents);
    hide AfterAgent, Peel;
    assert "se-x-"[3..] == "x-" && PREFIX + "se-x-" == tail;
  }

  lemma {:induction false} LongPeels(agents: seq<string>)
    requires agents == ["se-a2a-se-x", "se"]
    ensures Peel(Wrap(agents[0], ""), agents) == Some("") && PeelsAway(Wrap(agents[0], ""), agents)
  {
    var long := agents[0];
    WrapRest(long, "");
    assert long + "-" + "" == long + "-";
    FirstMatch(long + "-", agents, 0);
    assert PeelsAway("", agents);
  }

  lemma {:induction false} ShortPeels(agents: seq<string>, tail: string)
    requires agents == ["se-a2a-se-x", "se"] && tail == "a2a-se-x-" && Peel(tail, agents).Some?
    ensures PeelsAway(Wrap(agents[1], ""), agents)
  {
    var long, short := agents[0], agents[1];
    WrapRest(short, "");
    assert short + "-" + "" == "se-" && !(long + "-" <= "se-");
    FirstMatch("se-", agents, 1);
    // The longer name runs on into `tail`, which is no root.
    assert (long + "-")[|"se-"|..] == tail;
    assert agents[1..] == [short];
    hide Peel, AfterAgent;
    assert NoneRunsOn("se-", [short], agents);
    assert NoneRunsOn("se-", agents, agents);
    assert PeelsAway("", agents);
  }

  /** With clashing names a hop's session can lose the root: the reply to `se-lead` on `x` is taken for one on `lead-x`. */
  lemma {:induction false} ClashLosesRoot()
    ensures Root(Wrap("se-lead", "x"), ["se", "se-lead"]) != Root("x", ["se", "se-lead"])
  {
    var agents := ["se", "se-lead"];
    WrapRest("se-lead", "x");
    var rest := "se-lead" + "-" + "x";
    assert agents[0] + "-" == "se-" <= rest;
    FirstMatch(rest, agents, 0);
    assert Peel(Wrap("se-lead", "x"), agents) == Some(rest[3..]);
    assert rest[3..][0] == 'l';
    RootOfPlain(rest[3..], agents);
    RootOfPlain("x", agents);
  }

  /** An id that does not begin like a relay session is its own root. */
  lemma {:induction false} RootOfPlain(session: string, agents: seq<string>)
    requires session != [] && session[0] != PREFIX[0]
    ensures Root(session, agents) == session
  {
  }
}
