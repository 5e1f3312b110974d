/** Manifest validation: each validator walks its declarations and pushes diagnostics. */
module Validate {
  import opened Wrappers
  import opened Sequences
  import opened CycleSearch

  datatype Code =
    | DuplicateModuleId | MissingModuleId | ModuleGraphCycle
    | DuplicateFragmentId | UnknownFragmentOwnerModule | UnknownFragmentDependency
    | InvalidFragmentOrdering | FragmentDependencyCycle

  /** A diagnostic names the declaration it is about and, where there is one, the dependency. */
  datatype Diagnostic = Diagnostic(code: Code, subject: string, dependency: string)

  datatype Decl = Decl(id: string, dependsOn: seq<string>)

  datatype PromptFragment = PromptFragment(decl: Decl, ownerModule: string, order: nat)

  // ---- the maps collected from the declarations: for a repeated id the last one wins ----

  function Ids(decls: seq<Decl>): set<string> {
    set d | d in decls :: d.id
  }

  function Known(deps: seq<string>, known: set<string>): (r: seq<string>)
    ensures forall d :: d in r <==> d in deps && d in known
  {
    if deps == [] then []
    else Known(deps[..|deps| - 1], known) + if deps[|deps| - 1] in known then [deps[|deps| - 1]] else []
  }

  function EdgeMap(decls: seq<Decl>, known: set<string>): (g: Graph)
    ensures g.Keys == Ids(decls)
  {
    if decls == [] then map[]
    else
      var n := |decls| - 1;
      assert decls == decls[..n] + [decls[n]];
      EdgeMap(decls[..n], known)[decls[n].id := Known(decls[n].dependsOn, known)]
  }

  ghost function DependencyEdges(decls: seq<Decl>): Edges {
    EdgesOf(EdgeMap(decls, Ids(decls)))
  }

  function DeclsOf(fragments: seq<PromptFragment>): seq<Decl> {
    seq(|fragments|, i requires 0 <= i < |fragments| => fragments[i].decl)
  }

  function OrderById(fragments: seq<PromptFragment>): map<string, nat> {
    if fragments == [] then map[]
    else
      var n := |fragments| - 1;
      OrderById(fragments[..n])[fragments[n].decl.id := fragments[n].order]
  }

  method CollectEdges(decls: seq<Decl>, known: set<string>) returns (order: seq<string>, g: Graph)
    ensures g == EdgeMap(decls, known)
    ensures SortedKeys(order) && forall n :: n in order <==> n in g
  {
    order, g := [], map[];
    for i := 0 to |decls|
      invariant g == EdgeMap(decls[..i], known)
      invariant SortedKeys(order) && forall n :: n in order <==> n in g
    {
      assert decls[..i + 1][..i] == decls[..i];
      g := g[decls[i].id := Known(decls[i].dependsOn, known)];
      InsertKeyStaysSorted(order, decls[i].id);
      order := InsertKey(order, decls[i].id);
    }
    assert decls[..|decls|] == decls;
  }

  // ---- what the passes push ----

  function Duplicates(code: Code, decls: seq<Decl>): seq<Diagnostic> {
    if decls == [] then []
    else
      var n := |decls| - 1;
      Duplicates(code, decls[..n])
      + if decls[n].id in Ids(decls[..n]) then [Diagnostic(code, decls[n].id, "")] else []
  }

  lemma {:induction false} DuplicatesPush(code: Code, decls: seq<Decl>, i: nat)
    requires i < |decls|
    ensures Duplicates(code, decls[..i + 1])
         == Duplicates(code, decls[..i]) + if decls[i].id in Ids(decls[..i]) then [Diagnostic(code, decls[i].id, "")] else []
    ensures Ids(decls[..i + 1]) == Ids(decls[..i]) + {decls[i].id}
  {
    var init := decls[..i + 1];
    assert init[..i] == decls[..i] && init[i] == decls[i];
    assert init == decls[..i] + [decls[i]];
    assert forall d | d in init :: d in decls[..i] || d == decls[i];
  }

  method PushDuplicates(code: Code, decls: seq<Decl>, diags: seq<Diagnostic>) returns (out: seq<Diagnostic>)
    ensures out == diags + Duplicates(code, decls)
  {
    out := diags;
    var seen: set<string> := {};
    for i := 0 to |decls|
      invariant seen == Ids(decls[..i])
      invariant out == diags + Duplicates(code, decls[..i])
    {
      DuplicatesPush(code, decls, i);
      hide Duplicates, Ids;
      if decls[i].id in seen {
        out := out + [Diagnostic(code, decls[i].id, "")];
      }
      seen := seen + {decls[i].id};
    }
    assert decls[..|decls|] == decls;
  }

  function Missing(decls: seq<Decl>, known: set<string>): seq<Diagnostic> {
    if decls == [] then []
    else
      var n := |decls| - 1;
      Missing(decls[..n], known) + MissingDeps(decls[n].id, decls[n].dependsOn, known)
  }

  function MissingDeps(id: string, deps: seq<string>, known: set<string>): seq<Diagnostic> {
    if deps == [] then []
    else
      var n := |deps| - 1;
      MissingDeps(id, deps[..n], known) + if deps[n] in known then [] else [Diagnostic(MissingModuleId, id, deps[n])]
  }

  /** A cycle diagnostic names the least declaration from which a dependency cycle is reachable. */
  ghost predicate CycleReport(code: Code, decls: seq<Decl>, tail: seq<Diagnostic>) {
    if !HasCycle(DependencyEdges(decls)) then tail == []
    else
      && |tail| == 1 && tail[0].code == code
      && tail[0].subject in Ids(decls) && CycleReachable(DependencyEdges(decls), tail[0].subject)
      && forall n | n in Ids(decls) && CycleReachable(DependencyEdges(decls), n) ::
           n == tail[0].subject || Precedes(tail[0].subject, n)
  }

  method PushCycle(code: Code, decls: seq<Decl>, diags: seq<Diagnostic>) returns (out: seq<Diagnostic>)
    ensures diags <= out && CycleReport(code, decls, out[|diags|..])
  {
    var order, g := CollectEdges(decls, Ids(decls));
    var node := FirstCycleNode(order, g);
    AcyclicIffNoneReachable(EdgesOf(g), Ids(decls));
    out := if node.Some? then diags + [Diagnostic(code, node.value, "")] else diags;
  }

  method PushMissing(decl: Decl, known: set<string>, diags: seq<Diagnostic>) returns (out: seq<Diagnostic>)
    ensures out == diags + MissingDeps(decl.id, decl.dependsOn, known)
  {
    out := diags;
    var deps := decl.dependsOn;
    for k := 0 to |deps|
      invariant out == diags + MissingDeps(decl.id, deps[..k], known)
    {
      assert deps[..k + 1][..k] == deps[..k];
      if deps[k] !in known {
        out := out + [Diagnostic(MissingModuleId, decl.id, deps[k])];
      }
    }
    assert deps[..|deps|] == deps;
  }

  method ValidateModuleGraph(modules: seq<Decl>, diags: seq<Diagnostic>) returns (out: seq<Diagnostic>)
    ensures var local := Duplicates(DuplicateModuleId, modules) + Missing(modules, Ids(modules));
            diags + local <= out && CycleReport(ModuleGraphCycle, modules, out[|diags + local|..])
  {
    var known := Ids(modules);
    out := PushDuplicates(DuplicateModuleId, modules, diags);
    ghost var before := out;
    for i := 0 to |modules|
      invariant out == before + Missing(modules[..i], known)
    {
      assert modules[..i + 1][..i] == modules[..i];
      out := PushMissing(modules[i], known, out);
    }
    assert modules[..|modules|] == modules;
    Assoc(diags, Duplicates(DuplicateModuleId, modules), Missing(modules, known));
    hide Duplicates, Missing, Ids;
    out := PushCycle(ModuleGraphCycle, modules, out);
  }

  function CheckDep(f: PromptFragment, dep: string, orderById: map<string, nat>): seq<Diagnostic> {
    if dep !in orderById then [Diagnostic(UnknownFragmentDependency, f.decl.id, dep)]
    else if orderById[dep] >= f.order then [Diagnostic(InvalidFragmentOrdering, f.decl.id, dep)]
    else []
  }

  function CheckDeps(f: PromptFragment, deps: seq<string>, orderById: map<string, nat>): seq<Diagnostic> {
    if deps == [] then []
    else CheckDeps(f, deps[..|deps| - 1], orderById) + CheckDep(f, deps[|deps| - 1], orderById)
  }

  function CheckFragment(f: PromptFragment, modules: set<string>, orderById: map<string, nat>): seq<Diagnostic> {
    (if f.ownerModule in modules then [] else [Diagnostic(UnknownFragmentOwnerModule, f.decl.id, f.ownerModule)])
    + CheckDeps(f, f.decl.dependsOn, orderById)
  }

  function CheckFragments(fragments: seq<PromptFragment>, modules: set<string>, orderById: map<string, nat>): seq<Diagnostic> {
    if fragments == [] then []
    else
      var n := |fragments| - 1;
      CheckFragments(fragments[..n], modules, orderById) + CheckFragment(fragments[n], modules, orderById)
  }

  /** Everything but the cycle check. */
  function LocalReport(fragments: seq<PromptFragment>, modules: set<string>): seq<Diagnostic> {
    Duplicates(DuplicateFragmentId, DeclsOf(fragments)) + CheckFragments(fragments, modules, OrderById(fragments))
  }

  method PushDeps(f: PromptFragment, orderById: map<string, nat>, diags: seq<Diagnostic>) returns (out: seq<Diagnostic>)
    ensures out == diags + CheckDeps(f, f.decl.dependsOn, orderById)
  {
    out := diags;
    var deps := f.decl.dependsOn;
    for k := 0 to |deps|
      invariant out == diags + CheckDeps(f, deps[..k], orderById)
    {
      assert deps[..k + 1][..k] == deps[..k];
      if deps[k] !in orderById {
        out := out + [Diagnostic(UnknownFragmentDependency, f.decl.id, deps[k])];
      } else if orderById[deps[k]] >= f.order {
        out := out + [Diagnostic(InvalidFragmentOrdering, f.decl.id, deps[k])];
      }
    }
    assert deps[..|deps|] == deps;
  }

  method PushFragment(f: PromptFragment, modules: set<string>, orderById: map<string, nat>, diags: seq<Diagnostic>)
    returns (out: seq<Diagnostic>)
    ensures out == diags + CheckFragment(f, modules, orderById)
  {
    out := diags;
    if f.ownerModule !in modules {
      out := out + [Diagnostic(UnknownFragmentOwnerModule, f.decl.id, f.ownerModule)];
    }
    out := PushDeps(f, orderById, out);
  }

  method ValidatePromptFragments(fragments: seq<PromptFragment>, modules: set<string>, diags: seq<Diagnostic>)
    returns (out: seq<Diagnostic>)
    ensures diags + LocalReport(fragments, modules) <= out
    ensures CycleReport(FragmentDependencyCycle, DeclsOf(fragments), out[|diags + LocalReport(fragments, modules)|..])
  {
    out := PushDuplicates(DuplicateFragmentId, DeclsOf(fragments), diags);
    var orderById := OrderById(fragments);
    ghost var before := out;
    for i := 0 to |fragments|
      invariant out == before + CheckFragments(fragments[..i], modules, orderById)
    {
      assert fragments[..i + 1][..i] == fragments[..i];
      out := PushFragment(fragments[i], modules, orderById, out);
    }
    assert fragments[..|fragments|] == fragments;
    Assoc(diags, Duplicates(DuplicateFragmentId, DeclsOf(fragments)), CheckFragments(fragments, modules, orderById));
    assert out == diags + LocalReport(fragments, modules);
    hide LocalReport;
    out := PushCycle(FragmentDependencyCycle, DeclsOf(fragments), out);
  }

  // ---- what a report means ----

  ghost predicate DistinctIds(decls: seq<Decl>) {
    forall i, j | 0 <= i < j < |decls| :: decls[i].id != decls[j].id
  }

  lemma {:induction false} NoDuplicatesIff(code: Code, decls: seq<Decl>)
    ensures Duplicates(code, decls) == [] <==> DistinctIds(decls)
  {
    if decls != [] {
      var n := |decls| - 1;
      NoDuplicatesIff(code, decls[..n]);
      DeclaredBefore(decls, n);
      DistinctIdsPush(decls, n);
      hide Ids, DistinctIds;
    }
  }

  lemma {:induction false} DistinctIdsPush(decls: seq<Decl>, n: nat)
    requires |decls| == n + 1
    ensures DistinctIds(decls) <==> DistinctIds(decls[..n]) && !exists i :: 0 <= i < n && decls[i].id == decls[n].id
  {
    if DistinctIds(decls[..n]) && !exists i :: 0 <= i < n && decls[i].id == decls[n].id {
      forall i, j | 0 <= i < j < |decls| ensures decls[i].id != decls[j].id {
        assert decls[..n][i] == decls[i];
      }
    }
  }

  lemma {:induction false} DeclaredBefore(decls: seq<Decl>, n: nat)
    requires n < |decls|
    ensures decls[n].id in Ids(decls[..n]) <==> exists i :: 0 <= i < n && decls[i].id == decls[n].id
  {
    if i :| 0 <= i < n && decls[i].id == decls[n].id {
      assert decls[..n][i] in decls[..n];
    }
    if decls[n].id in Ids(decls[..n]) {
      var d :| d in decls[..n] && d.id == decls[n].id;
      var i :| 0 <= i < n && decls[..n][i] == d;
    }
  }

  lemma {:induction false} NoMissingIff(decls: seq<Decl>, known: set<string>)
    ensures Missing(decls, known) == [] <==>
            forall i, k | 0 <= i < |decls| && 0 <= k < |decls[i].dependsOn| :: decls[i].dependsOn[k] in known
  {
    if decls != [] {
      var n := |decls| - 1;
      NoMissingIff(decls[..n], known);
      NoMissingDepsIff(decls[n].id, decls[n].dependsOn, known);
    }
  }

  lemma {:induction false} NoMissingDepsIff(id: string, deps: seq<string>, known: set<string>)
    ensures MissingDeps(id, deps, known) == [] <==> forall k | 0 <= k < |deps| :: deps[k] in known
  {
    if deps != [] {
      var n := |deps| - 1;
      NoMissingDepsIff(id, deps[..n], known);
      assert forall k | 0 <= k < n :: deps[..n][k] == deps[k];
      assert (forall k | 0 <= k < |deps| :: deps[k] in known) <==> (forall k | 0 <= k < n :: deps[k] in known) && deps[n] in known;
    }
  }

  /** A module graph is reported clean exactly when ids are distinct, dependencies known, and there is no cycle. */
  lemma {:induction false} ModuleGraphCleanIff(modules: seq<Decl>, out: seq<Diagnostic>)
    requires var local := Duplicates(DuplicateModuleId, modules) + Missing(modules, Ids(modules));
             local <= out && CycleReport(ModuleGraphCycle, modules, out[|local|..])
    ensures out == [] <==>
            && DistinctIds(modules)
            && (forall i, k | 0 <= i < |modules| && 0 <= k < |modules[i].dependsOn| :: modules[i].dependsOn[k] in Ids(modules))
            && !HasCycle(DependencyEdges(modules))
  {
    NoDuplicatesIff(DuplicateModuleId, modules);
    NoMissingIff(modules, Ids(modules));
  }

  // ---- orders along dependencies ----

  ghost predicate Reports(diags: seq<Diagnostic>, code: Code) {
    exists i :: 0 <= i < |diags| && diags[i].code == code
  }

  lemma {:induction false} ReportsConcat(a: seq<Diagnostic>, b: seq<Diagnostic>, code: Code)
    ensures Reports(a + b, code) <==> Reports(a, code) || Reports(b, code)
  {
    if i :| 0 <= i < |a| && a[i].code == code { assert (a + b)[i].code == code; }
    if i :| 0 <= i < |b| && b[i].code == code { assert (a + b)[|a| + i].code == code; }
  }

  lemma {:induction false} BadDepReported(f: PromptFragment, deps: seq<string>, orderById: map<string, nat>, dep: string)
    requires dep in deps && dep in orderById && orderById[dep] >= f.order
    ensures Reports(CheckDeps(f, deps, orderById), InvalidFragmentOrdering)
  {
    var n := |deps| - 1;
    var head, last := CheckDeps(f, deps[..n], orderById), CheckDep(f, deps[n], orderById);
    ReportsConcat(head, last, InvalidFragmentOrdering);
    if deps[n] == dep {
      assert last[0].code == InvalidFragmentOrdering;
    } else {
      BadDepReported(f, deps[..n], orderById, dep);
    }
  }

  lemma {:induction false} BadFragmentReported(fragments: seq<PromptFragment>, modules: set<string>, orderById: map<string, nat>, i: nat, dep: string)
    requires i < |fragments| && dep in fragments[i].decl.dependsOn && dep in orderById && orderById[dep] >= fragments[i].order
    ensures Reports(CheckFragments(fragments, modules, orderById), InvalidFragmentOrdering)
  {
    var n := |fragments| - 1;
    var f := fragments[n];
    ReportsConcat(CheckFragments(fragments[..n], modules, orderById), CheckFragment(f, modules, orderById), InvalidFragmentOrdering);
    if i == n {
      BadDepReported(f, f.decl.dependsOn, orderById, dep);
      var owner := CheckFragment(f, modules, orderById)[..|CheckFragment(f, modules, orderById)| - |CheckDeps(f, f.decl.dependsOn, orderById)|];
      ReportsConcat(owner, CheckDeps(f, f.decl.dependsOn, orderById), InvalidFragmentOrdering);
      assert CheckFragment(f, modules, orderById) == owner + CheckDeps(f, f.decl.dependsOn, orderById);
    } else {
      BadFragmentReported(fragments[..n], modules, orderById, i, dep);
    }
  }

  /** Edges and orders come from the same, last, declaration of an id. */
  lemma {:induction false} LastDeclaration(fragments: seq<PromptFragment>, known: set<string>, id: string)
    requires id in EdgeMap(DeclsOf(fragments), known)
    ensures id in OrderById(fragments)
    ensures exists i :: 0 <= i < |fragments| && fragments[i].decl.id == id && fragments[i].order == OrderById(fragments)[id]
              && EdgeMap(DeclsOf(fragments), known)[id] == Known(fragments[i].decl.dependsOn, known)
  {
    var n := |fragments| - 1;
    assert DeclsOf(fragments)[..n] == DeclsOf(fragments[..n]);
    if fragments[n].decl.id != id {
      LastDeclaration(fragments[..n], known, id);
      var i :| 0 <= i < n && fragments[..n][i].decl.id == id && fragments[..n][i].order == OrderById(fragments[..n])[id]
        && EdgeMap(DeclsOf(fragments[..n]), known)[id] == Known(fragments[..n][i].decl.dependsOn, known);
      assert fragments[i] == fragments[..n][i];
    }
  }

  lemma {:induction false} OrderKeysAreIds(fragments: seq<PromptFragment>)
    ensures OrderById(fragments).Keys == Ids(DeclsOf(fragments))
  {
    if fragments != [] {
      var n := |fragments| - 1;
      OrderKeysAreIds(fragments[..n]);
      assert DeclsOf(fragments) == DeclsOf(fragments[..n]) + [fragments[n].decl];
    }
  }

  lemma {:induction false} EdgeDescends(fragments: seq<PromptFragment>, modules: set<string>, a: string, b: string)
    requires !Reports(LocalReport(fragments, modules), InvalidFragmentOrdering)
    requires (a, b) in DependencyEdges(DeclsOf(fragments))
    ensures a in OrderById(fragments) && b in OrderById(fragments) && OrderById(fragments)[b] < OrderById(fragments)[a]
  {
    var known := Ids(DeclsOf(fragments));
    LastDeclaration(fragments, known, a);
    OrderKeysAreIds(fragments);
    var i :| 0 <= i < |fragments| && fragments[i].decl.id == a && fragments[i].order == OrderById(fragments)[a]
      && EdgeMap(DeclsOf(fragments), known)[a] == Known(fragments[i].decl.dependsOn, known);
    if OrderById(fragments)[b] >= OrderById(fragments)[a] {
      BadFragmentReported(fragments, modules, OrderById(fragments), i, b);
      ReportsConcat(Duplicates(DuplicateFragmentId, DeclsOf(fragments)), CheckFragments(fragments, modules, OrderById(fragments)), InvalidFragmentOrdering);
    }
  }

  lemma {:induction false} WalkDescends(fragments: seq<PromptFragment>, modules: set<string>, p: seq<string>, i: nat)
    requires !Reports(LocalReport(fragments, modules), InvalidFragmentOrdering)
    requires Walk(DependencyEdges(DeclsOf(fragments)), p) && 1 <= i < |p|
    ensures p[0] in OrderById(fragments) && p[i] in OrderById(fragments) && OrderById(fragments)[p[i]] < OrderById(fragments)[p[0]]
  {
    EdgeDescends(fragments, modules, p[i - 1], p[i]);
    if i > 1 {
      WalkDescends(fragments, modules, p, i - 1);
    }
  }

  /** A dependency cycle never goes unnoticed by the ordering check, even when ids repeat. */
  lemma {:induction false} CycleComesWithOrderingViolation(fragments: seq<PromptFragment>, modules: set<string>)
    requires HasCycle(DependencyEdges(DeclsOf(fragments)))
    ensures Reports(LocalReport(fragments, modules), InvalidFragmentOrdering)
  {
    var p :| Walk(DependencyEdges(DeclsOf(fragments)), p) && |p| >= 2 && p[0] == p[|p| - 1];
    if !Reports(LocalReport(fragments, modules), InvalidFragmentOrdering) {
      WalkDescends(fragments, modules, p, |p| - 1);
    }
  }

  /** What the validator asks of one fragment. */
  ghost predicate FragmentOk(f: PromptFragment, modules: set<string>, orderById: map<string, nat>) {
    && f.ownerModule in modules
    && forall k | 0 <= k < |f.decl.dependsOn| :: f.decl.dependsOn[k] in orderById && orderById[f.decl.dependsOn[k]] < f.order
  }

  lemma {:induction false} DepsCleanIff(f: PromptFragment, deps: seq<string>, orderById: map<string, nat>)
    ensures CheckDeps(f, deps, orderById) == [] <==>
            forall k | 0 <= k < |deps| :: deps[k] in orderById && orderById[deps[k]] < f.order
  {
    if deps != [] {
      DepsCleanIff(f, deps[..|deps| - 1], orderById);
    }
  }

  lemma {:induction false} FragmentCleanIff(f: PromptFragment, modules: set<string>, orderById: map<string, nat>)
    ensures CheckFragment(f, modules, orderById) == [] <==> FragmentOk(f, modules, orderById)
  {
    DepsCleanIff(f, f.decl.dependsOn, orderById);
  }

  lemma {:induction false} FragmentsCleanIff(fragments: seq<PromptFragment>, modules: set<string>, orderById: map<string, nat>)
    ensures CheckFragments(fragments, modules, orderById) == [] <==>
            forall i | 0 <= i < |fragments| :: FragmentOk(fragments[i], modules, orderById)
  {
    if fragments != [] {
      var n := |fragments| - 1;
      FragmentsCleanIff(fragments[..n], modules, orderById);
      FragmentCleanIff(fragments[n], modules, orderById);
      hide CheckFragment, FragmentOk;
      assert forall i | 0 <= i < n :: fragments[..n][i] == fragments[i];
    }
  }

  /**
   Prompt fragments validate without a diagnostic exactly when ids are distinct, owners are known
   modules, and every dependency is declared with a strictly smaller order.
   */
  lemma {:induction false} PromptCleanIff(fragments: seq<PromptFragment>, modules: set<string>, out: seq<Diagnostic>)
    requires var local := LocalReport(fragments, modules);
             local <= out && CycleReport(FragmentDependencyCycle, DeclsOf(fragments), out[|local|..])
    ensures out == [] <==>
            && DistinctIds(DeclsOf(fragments))
            && forall i | 0 <= i < |fragments| :: FragmentOk(fragments[i], modules, OrderById(fragments))
  {
    NoDuplicatesIff(DuplicateFragmentId, DeclsOf(fragments));
    FragmentsCleanIff(fragments, modules, OrderById(fragments));
    if LocalReport(fragments, modules) == [] && HasCycle(DependencyEdges(DeclsOf(fragments))) {
      CycleComesWithOrderingViolation(fragments, modules);
    }
  }
}
