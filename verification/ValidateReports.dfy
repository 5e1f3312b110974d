/** What the validators report, diagnostic by diagnostic, said of the declarations themselves. */
module ValidateReports {
  import opened Wrappers
  import opened CycleSearch
  import opened Validate

  // ---- dependency edges ----

  /** Declaration `i` is the last of its id, so its dependencies are the ones that count. */
  ghost predicate IsLast(decls: seq<Decl>, i: nat)
    requires i < |decls|
  {
    forall j | i < j < |decls| :: decls[j].id != decls[i].id
  }

  ghost predicate Declares(decls: seq<Decl>, id: string) {
    exists i :: 0 <= i < |decls| && decls[i].id == id
  }

  lemma {:induction false} DeclaresIffId(decls: seq<Decl>, id: string)
    ensures id in Ids(decls) <==> Declares(decls, id)
  {
    if id in Ids(decls) {
      var d :| d in decls && d.id == id;
      var i :| 0 <= i < |decls| && decls[i] == d;
    }
    if i :| 0 <= i < |decls| && decls[i].id == id {
      assert decls[i] in decls;
    }
  }

  lemma {:induction false} LastOfMore(decls: seq<Decl>, i: nat)
    requires i + 1 < |decls|
    ensures IsLast(decls, i) <==> IsLast(decls[..|decls| - 1], i) && decls[|decls| - 1].id != decls[i].id
  {
    var n := |decls| - 1;
    forall j | i < j < n ensures decls[..n][j] == decls[j] {}
    if IsLast(decls[..n], i) && decls[n].id != decls[i].id {
      forall j | i < j < |decls| ensures decls[j].id != decls[i].id {
        assert j < n ==> decls[..n][j].id != decls[..n][i].id;
      }
    }
  }

  /** Declaration `i` is the one that counts for `a`, and it depends on `b`. */
  ghost predicate DependsAt(decls: seq<Decl>, i: nat, a: string, b: string)
    requires i < |decls|
  {
    IsLast(decls, i) && decls[i].id == a && b in decls[i].dependsOn
  }

  lemma {:induction false} EdgesOfLast(decls: seq<Decl>, known: set<string>, a: string, b: string)
    ensures (a in EdgeMap(decls, known) && b in EdgeMap(decls, known)[a])
            <==> b in known && exists i :: 0 <= i < |decls| && DependsAt(decls, i, a, b)
  {
    if decls != [] {
      var n := |decls| - 1;
      var init := decls[..n];
      EdgesOfLast(init, known, a, b);
      EdgeMapLast(decls, known, a, b);
      hide EdgeMap, Known;
      assert IsLast(decls, n);
      forall i | 0 <= i < n ensures DependsAt(decls, i, a, b) <==> DependsAt(init, i, a, b) && decls[n].id != a {
        LastOfMore(decls, i);
      }
      assert DependsAt(decls, n, a, b) <==> decls[n].id == a && b in decls[n].dependsOn;
      hide DependsAt;
      if i :| 0 <= i < n && DependsAt(init, i, a, b) && decls[n].id != a {
        assert DependsAt(decls, i, a, b);
      }
    }
  }

  lemma {:induction false} EdgeMapLast(decls: seq<Decl>, known: set<string>, a: string, b: string)
    requires decls != []
    ensures var n := |decls| - 1;
            (a in EdgeMap(decls, known) && b in EdgeMap(decls, known)[a]) <==>
              if decls[n].id == a then b in decls[n].dependsOn && b in known
              else a in EdgeMap(decls[..n], known) && b in EdgeMap(decls[..n], known)[a]
  {
  }

  /** There is an edge exactly from the last declaration of an id to each of its declared dependencies. */
  lemma {:induction false} DependencyEdgesAre(decls: seq<Decl>, a: string, b: string)
    ensures (a, b) in DependencyEdges(decls) <==>
              Declares(decls, b) && exists i :: 0 <= i < |decls| && DependsAt(decls, i, a, b)
  {
    EdgesOfLast(decls, Ids(decls), a, b);
    DeclaresIffId(decls, b);
  }

  // ---- module graph ----

  /** Position `i` repeats the id of an earlier declaration. */
  ghost predicate Repeats(decls: seq<Decl>, i: nat)
    requires i < |decls|
  {
    exists j :: 0 <= j < i && decls[j].id == decls[i].id
  }

  lemma {:induction false} RepeatsInMore(decls: seq<Decl>, i: nat)
    requires i + 1 < |decls|
    ensures Repeats(decls[..|decls| - 1], i) <==> Repeats(decls, i)
  {
    assert forall j | 0 <= j <= i :: decls[..|decls| - 1][j] == decls[j];
  }

  /** A diagnostic is pushed for the repetition at position `i`, and names the id. */
  ghost predicate RepeatAt(code: Code, decls: seq<Decl>, i: nat, d: Diagnostic)
    requires i < |decls|
  {
    Repeats(decls, i) && d == Diagnostic(code, decls[i].id, "")
  }

  /** A duplicate is reported exactly for each id that a later declaration repeats. */
  lemma {:induction false} DuplicatesReported(code: Code, decls: seq<Decl>, d: Diagnostic)
    ensures d in Duplicates(code, decls) <==> exists i :: 0 <= i < |decls| && RepeatAt(code, decls, i, d)
  {
    if decls != [] {
      var n := |decls| - 1;
      DuplicatesReported(code, decls[..n], d);
      DeclaredBefore(decls, n);
      forall i | 0 <= i < n ensures RepeatAt(code, decls[..n], i, d) <==> RepeatAt(code, decls, i, d) {
        RepeatsInMore(decls, i);
      }
      assert d in Duplicates(code, decls) <==> d in Duplicates(code, decls[..n]) || RepeatAt(code, decls, n, d);
      hide Duplicates, RepeatAt;
      if i :| 0 <= i < n && RepeatAt(code, decls[..n], i, d) {
        assert RepeatAt(code, decls, i, d);
      }
    }
  }

  /** The positions that repeat an earlier id. */
  ghost function Repetitions(decls: seq<Decl>): set<nat> { set i: nat | i < |decls| && Repeats(decls, i) }

  lemma {:induction false} RepetitionsOfMore(decls: seq<Decl>)
    requires decls != []
    ensures var n := |decls| - 1;
            Repetitions(decls) == Repetitions(decls[..n]) + (if Repeats(decls, n) then {n} else {}) && n !in Repetitions(decls[..n])
  {
    var n := |decls| - 1;
    forall i: nat | i < n ensures Repeats(decls[..n], i) <==> Repeats(decls, i) {
      RepeatsInMore(decls, i);
    }
  }

  lemma {:induction false} DuplicatesOfMore(code: Code, decls: seq<Decl>)
    requires decls != []
    ensures var n := |decls| - 1;
            |Duplicates(code, decls)| == |Duplicates(code, decls[..n])| + if Repeats(decls, n) then 1 else 0
  {
    DeclaredBefore(decls, |decls| - 1);
  }

  /** Each repetition is reported once. */
  lemma {:induction false} DuplicatesCounted(code: Code, decls: seq<Decl>)
    ensures |Duplicates(code, decls)| == |Repetitions(decls)|
  {
    if decls == [] {
      assert Repetitions(decls) == {};
    } else {
      DuplicatesCounted(code, decls[..|decls| - 1]);
      RepetitionsOfMore(decls);
      DuplicatesOfMore(code, decls);
      hide Duplicates, Repetitions;
    }
  }

  lemma {:induction false} MissingDepsReported(id: string, deps: seq<string>, known: set<string>)
    ensures forall d :: d in MissingDeps(id, deps, known) <==>
              exists k :: 0 <= k < |deps| && deps[k] !in known && d == Diagnostic(MissingModuleId, id, deps[k])
  {
    if deps != [] {
      var n := |deps| - 1;
      MissingDepsReported(id, deps[..n], known);
      assert forall k | 0 <= k < n :: deps[..n][k] == deps[k];
    }
  }

  /** A dependency is reported missing, with its dependent, exactly when no declaration has its id. */
  lemma {:induction false} MissingReported(decls: seq<Decl>, known: set<string>)
    ensures forall d :: d in Missing(decls, known) <==>
              exists i, k :: 0 <= i < |decls| && 0 <= k < |decls[i].dependsOn| && decls[i].dependsOn[k] !in known
                && d == Diagnostic(MissingModuleId, decls[i].id, decls[i].dependsOn[k])
  {
    if decls != [] {
      var n := |decls| - 1;
      MissingReported(decls[..n], known);
      MissingDepsReported(decls[n].id, decls[n].dependsOn, known);
      hide Missing, MissingDeps;
      MissingLast(decls, known);
      assert forall i | 0 <= i < n :: decls[..n][i] == decls[i];
    }
  }

  lemma {:induction false} MissingLast(decls: seq<Decl>, known: set<string>)
    requires decls != []
    ensures var n := |decls| - 1; Missing(decls, known) == Missing(decls[..n], known) + MissingDeps(decls[n].id, decls[n].dependsOn, known)
  {
  }

  // ---- prompt fragments ----

  /** The order that counts for an id is its last declaration's. */
  lemma {:induction false} OrderIsLast(fragments: seq<PromptFragment>, id: string)
    ensures id in OrderById(fragments) <==> exists i :: 0 <= i < |fragments| && fragments[i].decl.id == id
    ensures forall i | 0 <= i < |fragments| && fragments[i].decl.id == id && (forall j | i < j < |fragments| :: fragments[j].decl.id != id) ::
              id in OrderById(fragments) && OrderById(fragments)[id] == fragments[i].order
  {
    if fragments != [] {
      var n := |fragments| - 1;
      OrderIsLast(fragments[..n], id);
      assert forall i | 0 <= i < n :: fragments[..n][i] == fragments[i];
    }
  }

  lemma {:induction false} DepReported(f: PromptFragment, deps: seq<string>, orderById: map<string, nat>)
    ensures forall d :: d in CheckDeps(f, deps, orderById) <==>
              exists k :: 0 <= k < |deps| && DepDiagnostic(f, deps[k], orderById, d)
  {
    if deps != [] {
      var n := |deps| - 1;
      DepReported(f, deps[..n], orderById);
      assert forall k | 0 <= k < n :: deps[..n][k] == deps[k];
    }
  }

  /** `d` says that the dependency is unknown, or that its order is not strictly smaller. */
  ghost predicate DepDiagnostic(f: PromptFragment, dep: string, orderById: map<string, nat>, d: Diagnostic) {
    || (dep !in orderById && d == Diagnostic(UnknownFragmentDependency, f.decl.id, dep))
    || (dep in orderById && f.order <= orderById[dep] && d == Diagnostic(InvalidFragmentOrdering, f.decl.id, dep))
  }

  lemma {:induction false} FragmentReported(f: PromptFragment, modules: set<string>, orderById: map<string, nat>, d: Diagnostic)
    ensures d in CheckFragment(f, modules, orderById) <==>
              || (f.ownerModule !in modules && d == Diagnostic(UnknownFragmentOwnerModule, f.decl.id, f.ownerModule))
              || exists k :: 0 <= k < |f.decl.dependsOn| && DepDiagnostic(f, f.decl.dependsOn[k], orderById, d)
  {
    DepReported(f, f.decl.dependsOn, orderById);
  }

  /** Every fragment's unknown owner, unknown dependencies and orders that do not descend are reported, and nothing else is. */
  lemma {:induction false} FragmentsReported(fragments: seq<PromptFragment>, modules: set<string>, orderById: map<string, nat>, d: Diagnostic)
    ensures d in CheckFragments(fragments, modules, orderById) <==>
              exists i :: 0 <= i < |fragments| && (
                || (fragments[i].ownerModule !in modules
                    && d == Diagnostic(UnknownFragmentOwnerModule, fragments[i].decl.id, fragments[i].ownerModule))
                || exists k :: 0 <= k < |fragments[i].decl.dependsOn|
                     && DepDiagnostic(fragments[i], fragments[i].decl.dependsOn[k], orderById, d))
  {
    if fragments != [] {
      var n := |fragments| - 1;
      FragmentsReported(fragments[..n], modules, orderById, d);
      FragmentReported(fragments[n], modules, orderById, d);
      FragmentsLast(fragments, modules, orderById);
      hide CheckFragments, CheckFragment, DepDiagnostic;
      assert forall i | 0 <= i < n :: fragments[..n][i] == fragments[i];
    }
  }

  lemma {:induction false} FragmentsLast(fragments: seq<PromptFragment>, modules: set<string>, orderById: map<string, nat>)
    requires fragments != []
    ensures var n := |fragments| - 1;
            CheckFragments(fragments, modules, orderById)
            == CheckFragments(fragments[..n], modules, orderById) + CheckFragment(fragments[n], modules, orderById)
  {
  }
}
