/** Prompt assembly: each fragment id once (first occurrence wins), stably sorted by declared order. */
module Fragments {
  import opened Wrappers
  import opened StableSort
  import opened Validate

  datatype RenderableFragment = RenderableFragment(id: string, ownerModule: string, order: nat, body: string)

  datatype PromptFragmentRef = PromptFragmentRef(id: string, ownerModule: string, order: nat)

  function ByOrder(): RenderableFragment -> Rank { (f: RenderableFragment) => Rank(f.order, 0) }

  function IdsOf(fragments: seq<RenderableFragment>): set<string> {
    set f | f in fragments :: f.id
  }

  /** The fragments whose id has not occurred before. */
  function FirstOccurrences(fragments: seq<RenderableFragment>): (r: seq<RenderableFragment>)
    ensures forall f | f in r :: f in fragments
  {
    if fragments == [] then []
    else
      var n := |fragments| - 1;
      FirstOccurrences(fragments[..n]) + if fragments[n].id in IdsOf(fragments[..n]) then [] else [fragments[n]]
  }

  lemma {:induction false} FirstOccurrencesIds(fragments: seq<RenderableFragment>)
    ensures IdsOf(FirstOccurrences(fragments)) == IdsOf(fragments)
  {
    if fragments != [] {
      var n := |fragments| - 1;
      FirstOccurrencesIds(fragments[..n]);
      assert fragments == fragments[..n] + [fragments[n]];
      IdsOfConcat(fragments[..n], [fragments[n]]);
      IdsOfConcat(FirstOccurrences(fragments[..n]), [fragments[n]]);
      if fragments[n].id in IdsOf(fragments[..n]) {
        assert FirstOccurrences(fragments) == FirstOccurrences(fragments[..n]);
      }
    }
  }

  lemma {:induction false} IdsOfConcat(a: seq<RenderableFragment>, b: seq<RenderableFragment>)
    ensures IdsOf(a + b) == IdsOf(a) + IdsOf(b)
  {
    assert forall f :: f in a + b <==> f in a || f in b;
  }

  function RenderOrder(fragments: seq<RenderableFragment>): seq<RenderableFragment> {
    SortBy(FirstOccurrences(fragments), ByOrder())
  }

  const SEPARATOR := "\n\n"

  /** Bodies in order, separated by a blank line. */
  function Join(fragments: seq<RenderableFragment>): string {
    if fragments == [] then ""
    else if |fragments| == 1 then fragments[0].body
    else Join(fragments[..|fragments| - 1]) + SEPARATOR + fragments[|fragments| - 1].body
  }

  lemma {:induction false} PushId(fragments: seq<RenderableFragment>, i: nat)
    requires i < |fragments|
    ensures fragments[..i + 1][..i] == fragments[..i]
    ensures IdsOf(fragments[..i + 1]) == IdsOf(fragments[..i]) + {fragments[i].id}
  {
    assert fragments[..i + 1] == fragments[..i] + [fragments[i]];
    IdsOfConcat(fragments[..i], [fragments[i]]);
    assert IdsOf([fragments[i]]) == {fragments[i].id};
  }

  method OrderedUnique(fragments: seq<RenderableFragment>) returns (ordered: seq<RenderableFragment>)
    ensures ordered == RenderOrder(fragments)
  {
    var seen: set<string> := {};
    ordered := [];
    for i := 0 to |fragments|
      invariant seen == IdsOf(fragments[..i])
      invariant ordered == FirstOccurrences(fragments[..i])
    {
      PushId(fragments, i);
      if fragments[i].id !in seen {
        seen := seen + {fragments[i].id};
        ordered := ordered + [fragments[i]];
      }
    }
    assert fragments[..|fragments|] == fragments;
    ordered := SortBy(ordered, ByOrder());
  }

  method RenderPrompt(fragments: seq<RenderableFragment>) returns (prompt: string)
    ensures prompt == Join(RenderOrder(fragments))
    ensures exists offsets :: LaidOut(prompt, RenderOrder(fragments), offsets)
  {
    var ordered := OrderedUnique(fragments);
    prompt := "";
    for i := 0 to |ordered|
      invariant prompt == Join(ordered[..i])
    {
      assert ordered[..i + 1][..i] == ordered[..i];
      prompt := if i == 0 then ordered[i].body else prompt + SEPARATOR + ordered[i].body;
    }
    assert ordered[..|ordered|] == ordered;
    JoinLaysOut(ordered);
  }

  /**
   Body `i` stands at `offsets[i]`; the first at the start, each next one right behind the blank line
   that follows the one before, and nothing behind the last.
   */
  ghost predicate LaidOut(prompt: string, fragments: seq<RenderableFragment>, offsets: seq<nat>) {
    && |offsets| == |fragments|
    && (fragments == [] ==> prompt == "")
    && (fragments != [] ==> offsets[0] == 0 && offsets[|offsets| - 1] + |fragments[|offsets| - 1].body| == |prompt|)
    && (forall i | 0 <= i < |fragments| :: BodyAt(prompt, offsets[i], fragments[i].body))
    && (forall i | 0 < i < |fragments| ::
          && offsets[i] == offsets[i - 1] + |fragments[i - 1].body| + 2
          && BodyAt(prompt, offsets[i] - 2, "\n\n"))
  }

  ghost predicate BodyAt(prompt: string, at: int, body: string) {
    0 <= at && at + |body| <= |prompt| && prompt[at..at + |body|] == body
  }

  lemma {:induction false} BodyStays(prompt: string, more: string, at: int, body: string)
    requires BodyAt(prompt, at, body)
    ensures BodyAt(prompt + more, at, body)
  {
    assert (prompt + more)[at..at + |body|] == prompt[at..at + |body|];
  }

  lemma {:induction false} NewBody(head: string, body: string)
    ensures BodyAt(head + SEPARATOR + body, |head| + 2, body) && BodyAt(head + SEPARATOR + body, |head|, SEPARATOR)
  {
    var prompt := head + SEPARATOR + body;
    assert prompt[|head| + 2..|head| + 2 + |body|] == body && prompt[|head|..|head| + 2] == SEPARATOR;
  }

  lemma {:induction false} OldBody(head: string, more: string, at: int, body: string)
    requires BodyAt(head, at, body)
    ensures BodyAt(head + SEPARATOR + more, at, body)
  {
    BodyStays(head, SEPARATOR, at, body);
    BodyStays(head + SEPARATOR, more, at, body);
  }

  lemma {:induction false} LayOneMore(head: string, init: seq<RenderableFragment>, before: seq<nat>, f: RenderableFragment)
    requires init != [] && LaidOut(head, init, before)
    ensures LaidOut(head + SEPARATOR + f.body, init + [f], before + [|head| + 2])
  {
    var prompt, all, offsets := head + SEPARATOR + f.body, init + [f], before + [|head| + 2];
    hide BodyAt;
    var n := |init|;
    NewBody(head, f.body);
    forall i | 0 <= i <= n ensures BodyAt(prompt, offsets[i], all[i].body) {
      if i < n {
        assert BodyAt(head, before[i], init[i].body);
        OldBody(head, f.body, before[i], init[i].body);
      }
    }
    forall i | 0 < i <= n ensures offsets[i] == offsets[i - 1] + |all[i - 1].body| + 2 && BodyAt(prompt, offsets[i] - 2, SEPARATOR) {
      if i < n {
        assert before[i] == before[i - 1] + |init[i - 1].body| + 2 && BodyAt(head, before[i] - 2, SEPARATOR);
        OldBody(head, f.body, before[i] - 2, SEPARATOR);
      }
    }
  }

  lemma {:induction false} LayOne(f: RenderableFragment)
    ensures LaidOut(f.body, [f], [0]) && LaidOut("", [], [])
  {
    assert f.body[0..|f.body|] == f.body;
  }

  lemma {:induction false} JoinOneMore(fragments: seq<RenderableFragment>)
    requires |fragments| > 1
    ensures Join(fragments) == Join(fragments[..|fragments| - 1]) + SEPARATOR + fragments[|fragments| - 1].body
  {
  }

  lemma {:induction false} JoinFew(f: RenderableFragment)
    ensures Join([]) == "" && Join([f]) == f.body
  {
  }

  lemma {:induction false} OffsetsOf(fragments: seq<RenderableFragment>) returns (offsets: seq<nat>)
    ensures LaidOut(Join(fragments), fragments, offsets)
  {
    hide LaidOut, Join;
    if |fragments| <= 1 {
      var f := if fragments == [] then RenderableFragment("", "", 0, "") else fragments[0];
      JoinFew(f);
      LayOne(f);
      assert fragments == [] || fragments == [f];
      offsets := if fragments == [] then [] else [0];
    } else {
      var n := |fragments| - 1;
      var before := OffsetsOf(fragments[..n]);
      JoinOneMore(fragments);
      LayOneMore(Join(fragments[..n]), fragments[..n], before, fragments[n]);
      assert fragments[..n] + [fragments[n]] == fragments;
      offsets := before + [|Join(fragments[..n])| + 2];
    }
  }

  lemma {:induction false} JoinLaysOut(fragments: seq<RenderableFragment>)
    ensures exists offsets :: LaidOut(Join(fragments), fragments, offsets)
  {
    var offsets := OffsetsOf(fragments);
  }

  /** Bodies never overlap: an earlier one ends before a later one begins. */
  lemma {:induction false} OffsetsAscend(prompt: string, fragments: seq<RenderableFragment>, offsets: seq<nat>, i: nat, j: nat)
    requires LaidOut(prompt, fragments, offsets) && i < j < |fragments|
    ensures offsets[i] + |fragments[i].body| + 2 <= offsets[j]
    decreases j
  {
    if i < j - 1 {
      OffsetsAscend(prompt, fragments, offsets, i, j - 1);
    }
  }

  /** The manifest's refs, in the order the rendered prompt used. */
  method OrderedUniqueRefs(fragments: seq<RenderableFragment>) returns (refs: seq<PromptFragmentRef>)
    ensures |refs| == |RenderOrder(fragments)|
    ensures forall i | 0 <= i < |refs| ::
              var f := RenderOrder(fragments)[i]; refs[i] == PromptFragmentRef(f.id, f.ownerModule, f.order)
  {
    var ordered := OrderedUnique(fragments);
    refs := seq(|ordered|, i requires 0 <= i < |ordered| => PromptFragmentRef(ordered[i].id, ordered[i].ownerModule, ordered[i].order));
  }

  // ---- each id once ----

  ghost predicate EachIdOnce(fragments: seq<RenderableFragment>) {
    forall i, j | 0 <= i < j < |fragments| :: fragments[i].id != fragments[j].id
  }

  lemma {:induction false} FirstOccurrencesOnce(fragments: seq<RenderableFragment>)
    ensures EachIdOnce(FirstOccurrences(fragments))
  {
    if fragments != [] {
      var n := |fragments| - 1;
      FirstOccurrencesOnce(fragments[..n]);
      FirstOccurrencesIds(fragments[..n]);
      var head := FirstOccurrences(fragments[..n]);
      if fragments[n].id in IdsOf(fragments[..n]) {
        assert FirstOccurrences(fragments) == head;
      } else {
        forall i, j | 0 <= i < j < |head + [fragments[n]]| ensures (head + [fragments[n]])[i].id != (head + [fragments[n]])[j].id {
          if j == |head| {
            assert head[i] in head && head[i].id in IdsOf(head);
          }
        }
      }
    }
  }

  lemma {:induction false} MemberOfInsert(s: seq<RenderableFragment>, x: RenderableFragment, f: RenderableFragment)
    requires f in Insert(s, x, ByOrder())
    ensures f == x || exists i :: 0 <= i < |s| && s[i] == f
  {
    assert f in multiset(Insert(s, x, ByOrder()));
    assert f in multiset(s) || f == x;
  }

  lemma {:induction false} AppendKeepsOnce(s: seq<RenderableFragment>, x: RenderableFragment)
    requires EachIdOnce(s) && forall i | 0 <= i < |s| :: s[i].id != x.id
    ensures EachIdOnce(s + [x])
  {
  }

  lemma {:induction false} IdsOfMembers(s: seq<RenderableFragment>)
    ensures forall i | 0 <= i < |s| :: s[i].id in IdsOf(s)
  {
  }

  lemma {:induction false} InsertKeepsOnce(s: seq<RenderableFragment>, x: RenderableFragment)
    requires EachIdOnce(s) && x.id !in IdsOf(s)
    ensures EachIdOnce(Insert(s, x, ByOrder()))
  {
    IdsOfMembers(s);
    if s != [] && ByOrder()(x).Before(ByOrder()(s[|s| - 1])) {
      var init, last := s[..|s| - 1], s[|s| - 1];
      assert x.id !in IdsOf(init);
      InsertKeepsOnce(init, x);
      var r := Insert(init, x, ByOrder());
      assert Insert(s, x, ByOrder()) == r + [last];
      hide Insert, IdsOf;
      forall i | 0 <= i < |r| ensures r[i].id != last.id {
        MemberOfInsert(init, x, r[i]);
      }
      AppendKeepsOnce(r, last);
    } else {
      assert Insert(s, x, ByOrder()) == s + [x];
      AppendKeepsOnce(s, x);
    }
  }

  lemma {:induction false} SameMembersSameIds(s: seq<RenderableFragment>, t: seq<RenderableFragment>)
    requires multiset(s) == multiset(t)
    ensures IdsOf(s) == IdsOf(t)
  {
    assert forall f :: f in s <==> f in multiset(s);
    assert forall f :: f in t <==> f in multiset(t);
  }

  lemma {:induction false} SortKeepsOnce(s: seq<RenderableFragment>)
    requires EachIdOnce(s)
    ensures EachIdOnce(SortBy(s, ByOrder()))
  {
    if s != [] {
      var n := |s| - 1;
      SortKeepsOnce(s[..n]);
      SameMembersSameIds(SortBy(s[..n], ByOrder()), s[..n]);
      forall f | f in s[..n] ensures f.id != s[n].id {
        var i :| 0 <= i < n && s[..n][i] == f;
      }
      InsertKeepsOnce(SortBy(s[..n], ByOrder()), s[n]);
    }
  }

  /** However often ids repeat in the input, each is rendered exactly once, in ascending order. */
  lemma {:induction false} RendersEachIdOnce(fragments: seq<RenderableFragment>)
    ensures EachIdOnce(RenderOrder(fragments))
    ensures IdsOf(RenderOrder(fragments)) == IdsOf(fragments)
    ensures Ascending(RenderOrder(fragments), ByOrder())
  {
    var firsts := FirstOccurrences(fragments);
    FirstOccurrencesOnce(fragments);
    FirstOccurrencesIds(fragments);
    SortKeepsOnce(firsts);
    SameMembersSameIds(RenderOrder(fragments), firsts);
    SortIsStable(firsts, ByOrder());
  }

  /** Of several fragments with one id the first is rendered. */
  lemma {:induction false} FirstOccurrenceWins(fragments: seq<RenderableFragment>, f: RenderableFragment)
    requires f in RenderOrder(fragments)
    ensures exists i :: 0 <= i < |fragments| && fragments[i] == f && forall j | 0 <= j < i :: fragments[j].id != f.id
  {
    assert f in multiset(RenderOrder(fragments));
    assert f in FirstOccurrences(fragments);
    FirstInList(fragments, f);
  }

  lemma {:induction false} FirstInList(fragments: seq<RenderableFragment>, f: RenderableFragment)
    requires f in FirstOccurrences(fragments)
    ensures exists i :: 0 <= i < |fragments| && fragments[i] == f && forall j | 0 <= j < i :: fragments[j].id != f.id
  {
    var n := |fragments| - 1;
    var init := fragments[..n];
    if f in FirstOccurrences(init) {
      FirstInList(init, f);
      var i :| 0 <= i < |init| && init[i] == f && forall j | 0 <= j < i :: init[j].id != f.id;
      assert fragments[i] == f && forall j | 0 <= j < i :: fragments[j].id == init[j].id;
    } else {
      forall j | 0 <= j < n ensures fragments[j].id != f.id {
        assert init[j] in init && init[j].id in IdsOf(init);
      }
      assert fragments[n] == f;
    }
  }

  /** Fragments of one order are rendered in the order they came. */
  lemma {:induction false} TiesKeepInputOrder(fragments: seq<RenderableFragment>, order: nat)
    ensures Class(RenderOrder(fragments), ByOrder(), Rank(order, 0)) == Class(FirstOccurrences(fragments), ByOrder(), Rank(order, 0))
  {
    SortIsStable(FirstOccurrences(fragments), ByOrder());
  }

  // ---- clean validation gives a topological prompt ----

  /** The renderables carry the ids and orders of the validated declarations, in any order. */
  ghost predicate Instantiates(rendered: seq<RenderableFragment>, declared: seq<PromptFragment>) {
    && (forall i | 0 <= i < |rendered| :: exists k :: 0 <= k < |declared| && declared[k].decl.id == rendered[i].id && declared[k].order == rendered[i].order)
    && (forall k | 0 <= k < |declared| :: declared[k].decl.id in IdsOf(rendered))
  }

  lemma {:induction false} DistinctOrders(declared: seq<PromptFragment>, k: nat)
    requires DistinctIds(DeclsOf(declared)) && k < |declared|
    ensures declared[k].decl.id in OrderById(declared) && OrderById(declared)[declared[k].decl.id] == declared[k].order
  {
    var n := |declared| - 1;
    if k < n {
      assert DeclsOf(declared[..n]) == DeclsOf(declared)[..n];
      assert DeclsOf(declared)[k].id != DeclsOf(declared)[n].id;
      DistinctOrders(declared[..n], k);
    }
  }

  lemma {:induction false} RenderedOrder(rendered: seq<RenderableFragment>, declared: seq<PromptFragment>, i: nat)
    requires DistinctIds(DeclsOf(declared)) && Instantiates(rendered, declared) && i < |RenderOrder(rendered)|
    ensures var f := RenderOrder(rendered)[i]; f.id in OrderById(declared) && OrderById(declared)[f.id] == f.order
  {
    var f := RenderOrder(rendered)[i];
    assert f in multiset(RenderOrder(rendered));
    assert f in FirstOccurrences(rendered);
    var j :| 0 <= j < |rendered| && rendered[j] == f;
    var k :| 0 <= k < |declared| && declared[k].decl.id == rendered[j].id && declared[k].order == rendered[j].order;
    DistinctOrders(declared, k);
  }

  /** `a` is rendered before `b`. */
  ghost predicate RendersBefore(out: seq<RenderableFragment>, a: string, b: string) {
    exists i, j :: 0 <= i < j < |out| && out[i].id == a && out[j].id == b
  }

  /**
   If validation reports nothing, then rendering those fragments from any input order lists every
   declared id exactly once, with each dependency before the fragment that depends on it.
   */
  lemma {:induction false} CleanPromptIsTopological(declared: seq<PromptFragment>, modules: set<string>, report: seq<Diagnostic>, rendered: seq<RenderableFragment>)
    requires var local := LocalReport(declared, modules);
             local <= report && CycleReport(FragmentDependencyCycle, DeclsOf(declared), report[|local|..])
    requires report == [] && Instantiates(rendered, declared)
    ensures EachIdOnce(RenderOrder(rendered))
    ensures forall k | 0 <= k < |declared| :: declared[k].decl.id in IdsOf(RenderOrder(rendered))
    ensures forall k, d | 0 <= k < |declared| && 0 <= d < |declared[k].decl.dependsOn| ::
              RendersBefore(RenderOrder(rendered), declared[k].decl.dependsOn[d], declared[k].decl.id)
  {
    PromptCleanIff(declared, modules, report);
    RendersEachIdOnce(rendered);
    forall k, d | 0 <= k < |declared| && 0 <= d < |declared[k].decl.dependsOn|
      ensures RendersBefore(RenderOrder(rendered), declared[k].decl.dependsOn[d], declared[k].decl.id)
    {
      DependencyRendersFirst(declared, modules, rendered, k, d);
    }
  }

  lemma {:induction false} PositionOf(out: seq<RenderableFragment>, id: string) returns (i: nat)
    requires id in IdsOf(out)
    ensures i < |out| && out[i].id == id
  {
    var f :| f in out && f.id == id;
    i :| 0 <= i < |out| && out[i] == f;
  }

  lemma {:induction false} DeclaredIds(declared: seq<PromptFragment>, dep: string)
    requires dep in OrderById(declared)
    ensures exists m :: 0 <= m < |declared| && declared[m].decl.id == dep
  {
    OrderKeysAreIds(declared);
    var c :| c in DeclsOf(declared) && c.id == dep;
    var m :| 0 <= m < |declared| && DeclsOf(declared)[m] == c;
    assert declared[m].decl.id == dep;
  }

  lemma {:induction false} DependencyRendersFirst(declared: seq<PromptFragment>, modules: set<string>, rendered: seq<RenderableFragment>, k: nat, d: nat)
    requires DistinctIds(DeclsOf(declared)) && Instantiates(rendered, declared)
    requires k < |declared| && d < |declared[k].decl.dependsOn|
    requires FragmentOk(declared[k], modules, OrderById(declared))
    ensures RendersBefore(RenderOrder(rendered), declared[k].decl.dependsOn[d], declared[k].decl.id)
  {
    var out, dep := RenderOrder(rendered), declared[k].decl.dependsOn[d];
    RendersEachIdOnce(rendered);
    DeclaredIds(declared, dep);
    assert dep in IdsOf(out) && declared[k].decl.id in IdsOf(out);
    assert OrderById(declared)[dep] < declared[k].order;
    hide RenderOrder, IdsOf, OrderById, EachIdOnce;
    var i := PositionOf(out, dep);
    var j := PositionOf(out, declared[k].decl.id);
    RenderedOrder(rendered, declared, i);
    RenderedOrder(rendered, declared, j);
    DistinctOrders(declared, k);
    SmallerIsEarlier(out, i, j);
  }

  lemma {:induction false} SmallerIsEarlier(out: seq<RenderableFragment>, i: nat, j: nat)
    requires Ascending(out, ByOrder()) && i < |out| && j < |out| && out[i].order < out[j].order
    ensures i < j
  {
  }

  /** The same in the text: after a clean report, each dependency's body ends before its dependent's begins. */
  lemma {:induction false} CleanPromptTextIsTopological(declared: seq<PromptFragment>, modules: set<string>, report: seq<Diagnostic>, rendered: seq<RenderableFragment>, prompt: string, offsets: seq<nat>)
    requires var local := LocalReport(declared, modules);
             local <= report && CycleReport(FragmentDependencyCycle, DeclsOf(declared), report[|local|..])
    requires report == [] && Instantiates(rendered, declared)
    requires LaidOut(prompt, RenderOrder(rendered), offsets)
    ensures forall k, d | 0 <= k < |declared| && 0 <= d < |declared[k].decl.dependsOn| ::
              exists i, j :: 0 <= i < |offsets| && 0 <= j < |offsets|
                && RenderOrder(rendered)[i].id == declared[k].decl.dependsOn[d] && RenderOrder(rendered)[j].id == declared[k].decl.id
                && BodyAt(prompt, offsets[i], RenderOrder(rendered)[i].body) && BodyAt(prompt, offsets[j], RenderOrder(rendered)[j].body)
                && offsets[i] + |RenderOrder(rendered)[i].body| < offsets[j]
  {
    CleanPromptIsTopological(declared, modules, report, rendered);
    hide LocalReport, CycleReport, Instantiates, RenderOrder, EachIdOnce, IdsOf;
    var out := RenderOrder(rendered);
    forall k, d | 0 <= k < |declared| && 0 <= d < |declared[k].decl.dependsOn|
      ensures exists i, j :: 0 <= i < |offsets| && 0 <= j < |offsets|
                && out[i].id == declared[k].decl.dependsOn[d] && out[j].id == declared[k].decl.id
                && BodyAt(prompt, offsets[i], out[i].body) && BodyAt(prompt, offsets[j], out[j].body)
                && offsets[i] + |out[i].body| < offsets[j]
    {
      assert RendersBefore(out, declared[k].decl.dependsOn[d], declared[k].decl.id);
      var i, j :| 0 <= i < j < |out| && out[i].id == declared[k].decl.dependsOn[d] && out[j].id == declared[k].decl.id;
      OffsetsAscend(prompt, out, offsets, i, j);
    }
  }
}
