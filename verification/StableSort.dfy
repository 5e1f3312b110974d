/**
 The stable library sort (`sort_by_key` in Rust, `Array.prototype.sort` in JavaScript) that
 history building, prompt rendering and migration ordering all call. A sort key is a pair
 compared lexicographically; a single-number key leaves `minor` at 0.

 Stability is stated class by class: for every rank, the elements of that rank keep their
 relative order. `SortedUnique` says that ascending order plus stability leave one answer.
 */
module StableSort {
  datatype Rank = Rank(major: nat, minor: nat) {
    predicate Before(other: Rank) {
      major < other.major || (major == other.major && minor < other.minor)
    }
  }

  ghost predicate Ascending<T>(s: seq<T>, key: T -> Rank) {
    forall i, j | 0 <= i < j < |s| :: !key(s[j]).Before(key(s[i]))
  }

  ghost predicate StrictlyAscending<T>(s: seq<T>, key: T -> Rank) {
    forall i, j | 0 <= i < j < |s| :: key(s[i]).Before(key(s[j]))
  }

  /** The elements of rank `k`, in the order they occur. */
  ghost function Class<T>(s: seq<T>, key: T -> Rank, k: Rank): (r: seq<T>)
    ensures forall x | x in r :: x in s && key(x) == k
  {
    if s == [] then []
    else
      var n := |s| - 1;
      Class(s[..n], key, k) + if key(s[n]) == k then [s[n]] else []
  }

  /** Put `x` after every element that does not rank above it. */
  function Insert<T>(s: seq<T>, x: T, key: T -> Rank): (r: seq<T>)
    ensures multiset(r) == multiset(s) + multiset{x}
  {
    if s == [] then [x]
    else
      var n := |s| - 1;
      assert s == s[..n] + [s[n]];
      if key(x).Before(key(s[n])) then Insert(s[..n], x, key) + [s[n]] else s + [x]
  }

  function SortBy<T>(s: seq<T>, key: T -> Rank): (r: seq<T>)
    ensures multiset(r) == multiset(s)
  {
    if s == [] then []
    else
      var n := |s| - 1;
      assert s == s[..n] + [s[n]];
      Insert(SortBy(s[..n], key), s[n], key)
  }

  lemma {:induction false} InsertKeepsOrder<T>(s: seq<T>, x: T, key: T -> Rank)
    requires Ascending(s, key)
    ensures Ascending(Insert(s, x, key), key)
  {
    if s == [] {
    } else {
      var n := |s| - 1;
      if key(x).Before(key(s[n])) {
        InsertKeepsOrder(s[..n], x, key);
        var r := Insert(s[..n], x, key);
        forall y | y in r ensures !key(s[n]).Before(key(y)) {
          assert y in multiset(r);
          assert y in s[..n] || y == x;
        }
      }
    }
  }

  lemma {:induction false} InsertIsStable<T>(s: seq<T>, x: T, key: T -> Rank, k: Rank)
    requires Ascending(s, key)
    ensures Class(Insert(s, x, key), key, k) == Class(s + [x], key, k)
  {
    assert (s + [x])[..|s|] == s;
    if s != [] {
      var n := |s| - 1;
      if key(x).Before(key(s[n])) {
        InsertIsStable(s[..n], x, key, k);
        var r := Insert(s[..n], x, key);
        assert (r + [s[n]])[..|r|] == r;
        assert (s[..n] + [x])[..n] == s[..n];
      }
    }
  }

  /** What a stable sort promises: ascending, and no class reordered. */
  lemma {:induction false} SortIsStable<T>(s: seq<T>, key: T -> Rank)
    ensures Ascending(SortBy(s, key), key)
    ensures forall k :: Class(SortBy(s, key), key, k) == Class(s, key, k)
  {
    if s != [] {
      var n := |s| - 1;
      SortIsStable(s[..n], key);
      var r := SortBy(s[..n], key);
      InsertKeepsOrder(r, s[n], key);
      forall k ensures Class(SortBy(s, key), key, k) == Class(s, key, k) {
        InsertIsStable(r, s[n], key, k);
        assert (r + [s[n]])[..|r|] == r;
      }
    }
  }

  lemma {:induction false} ClassOfConcat<T>(a: seq<T>, b: seq<T>, key: T -> Rank, k: Rank)
    ensures Class(a + b, key, k) == Class(a, key, k) + Class(b, key, k)
  {
    if b == [] {
      assert a + b == a;
    } else {
      var n := |b| - 1;
      assert (a + b)[..|a + b| - 1] == a + b[..n];
      ClassOfConcat(a, b[..n], key, k);
    }
  }

  lemma {:induction false} ClassHoldsMember<T>(s: seq<T>, key: T -> Rank, i: nat)
    requires i < |s|
    ensures s[i] in Class(s, key, key(s[i]))
  {
    if i < |s| - 1 {
      ClassHoldsMember(s[..|s| - 1], key, i);
    }
  }

  lemma {:induction false} SameClassesSameMember<T>(s: seq<T>, t: seq<T>, key: T -> Rank, i: nat)
    requires forall k :: Class(s, key, k) == Class(t, key, k)
    requires i < |s|
    ensures s[i] in t
  {
    ClassHoldsMember(s, key, i);
    assert s[i] in Class(t, key, key(s[i]));
  }

  /** The last elements of two ascending sequences with the same classes agree. */
  lemma {:induction false} SameClassesSameLast<T>(s: seq<T>, t: seq<T>, key: T -> Rank)
    requires Ascending(s, key) && Ascending(t, key)
    requires forall k :: Class(s, key, k) == Class(t, key, k)
    requires s != [] && t != []
    ensures s[|s| - 1] == t[|t| - 1]
  {
    var x, y := s[|s| - 1], t[|t| - 1];
    SameClassesSameMember(s, t, key, |s| - 1);
    SameClassesSameMember(t, s, key, |t| - 1);
    assert !key(y).Before(key(x)) && !key(x).Before(key(y));
    var c := Class(s, key, key(x));
    assert c[|c| - 1] == x;
    assert Class(t, key, key(y))[|Class(t, key, key(y))| - 1] == y;
  }

  /** Two ascending sequences with the same classes are the same sequence. */
  lemma {:induction false} SortedUnique<T>(s: seq<T>, t: seq<T>, key: T -> Rank)
    requires Ascending(s, key) && Ascending(t, key)
    requires forall k :: Class(s, key, k) == Class(t, key, k)
    ensures s == t
  {
    if s == [] || t == [] {
      if s != [] { SameClassesSameMember(s, t, key, 0); }
      if t != [] { SameClassesSameMember(t, s, key, 0); }
    } else {
      SameClassesSameLast(s, t, key);
      var s', t', x := s[..|s| - 1], t[..|t| - 1], s[|s| - 1];
      forall k ensures Class(s', key, k) == Class(t', key, k) {
        ClassDropsLast(s, key, k);
        ClassDropsLast(t, key, k);
      }
      SortedUnique(s', t', key);
      assert s == s' + [x] && t == t' + [x];
    }
  }

  lemma {:induction false} ClassDropsLast<T>(s: seq<T>, key: T -> Rank, k: Rank)
    requires s != []
    ensures var c, x := Class(s, key, k), s[|s| - 1];
            Class(s[..|s| - 1], key, k) == if key(x) == k then c[..|c| - 1] else c
  {
  }

  /** An ascending sequence with no rank twice is strictly ascending. */
  lemma {:induction false} DistinctRanksAreStrict<T>(s: seq<T>, key: T -> Rank)
    requires Ascending(s, key)
    requires forall i, j | 0 <= i < j < |s| :: key(s[i]) != key(s[j])
    ensures StrictlyAscending(s, key)
  {
  }
}
