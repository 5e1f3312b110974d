/** The bounded record of recently handled dedupe keys that drops redelivered events. */
module RecentlySeen {
  /** How many keys the record can hold: a capacity of 0 still holds the latest key. */
  function Limit(capacity: nat): nat { if capacity == 0 then 1 else capacity }

  /** The last `n` of `s`, or all of it when it is shorter. */
  function LastN(s: seq<string>, n: nat): seq<string> {
    if |s| <= n then s else s[|s| - n..]
  }

  /** The reference: keys accepted so far; a key is accepted when it is not among the last `Limit(capacity)`. */
  function Accept(accepted: seq<string>, key: string, capacity: nat): seq<string> {
    if key in LastN(accepted, Limit(capacity)) then accepted else accepted + [key]
  }

  function AcceptAll(keys: seq<string>, capacity: nat): seq<string> {
    if keys == [] then []
    else Accept(AcceptAll(keys[..|keys| - 1], capacity), keys[|keys| - 1], capacity)
  }

  function Members(s: seq<string>): set<string> { set k | k in s }

  ghost predicate NoRepeat(s: seq<string>) {
    forall i, j | 0 <= i < j < |s| :: s[i] != s[j]
  }

  class RecentlySeen {
    var order: seq<string>
    var keys: set<string>
    const capacity: nat
    ghost var accepted: seq<string>

    ghost predicate Valid()
      reads this
    {
      && order == LastN(accepted, Limit(capacity))
      && keys == Members(order)
      && NoRepeat(order)
    }

    constructor (capacity: nat)
      ensures Valid() && accepted == [] && this.capacity == capacity
    {
      order, keys, this.capacity, accepted := [], {}, capacity, [];
    }

    /** True for a key not seen within the window; the oldest key makes room for it. */
    method Insert(key: string) returns (inserted: bool)
      requires Valid()
      modifies this
      ensures Valid()
      ensures inserted <==> key !in LastN(old(accepted), Limit(capacity))
      ensures accepted == Accept(old(accepted), key, capacity)
      ensures inserted <==> forall i | 0 <= i < |old(accepted)| && |old(accepted)| - i <= (if capacity == 0 then 1 else capacity) ::
                              old(accepted)[i] != key
      ensures accepted == old(accepted) + if inserted then [key] else []
    {
      WindowMeans(accepted, key, Limit(capacity));
      if key in keys {
        return false;
      }
      assert key !in order;
      EvictsIffFull(order, capacity);
      hide LastN, NoRepeat, Members, Limit;
      WindowSlides(accepted, key, Limit(capacity));
      if |order| >= capacity && order != [] {
        OldestLeaves(order);
        keys := keys - {order[0]};
        order := order[1..];
      }
      KeyJoins(order, key);
      order := order + [key];
      keys := keys + {key};
      accepted := accepted + [key];
      assert order == LastN(accepted, Limit(capacity));
      inserted := true;
    }
  }

  /** A key is in the window when it was accepted at one of the last `n` places. */
  lemma {:induction false} WindowMeans(accepted: seq<string>, key: string, n: nat)
    ensures key in LastN(accepted, n) <==> exists i :: 0 <= i < |accepted| && |accepted| - i <= n && accepted[i] == key
  {
    var window := LastN(accepted, n);
    var first := |accepted| - |window|;
    assert forall j | 0 <= j < |window| :: window[j] == accepted[first + j];
    if i :| 0 <= i < |accepted| && |accepted| - i <= n && accepted[i] == key {
      assert window[i - first] == key;
    }
    if key in window {
      var j :| 0 <= j < |window| && window[j] == key;
      assert accepted[first + j] == key;
    }
  }

  /** The oldest key is dropped exactly when the window is full, a capacity of 0 included. */
  lemma {:induction false} EvictsIffFull(window: seq<string>, capacity: nat)
    ensures |window| >= capacity && window != [] <==> |window| >= Limit(capacity)
    ensures Limit(capacity) > 0
  {
  }

  lemma {:induction false} WindowFits(accepted: seq<string>, n: nat)
    ensures |LastN(accepted, n)| <= n
  {
  }

  /** Accepting a key slides the window: a full one drops its oldest key. */
  lemma {:induction false} WindowSlides(accepted: seq<string>, key: string, n: nat)
    requires n > 0
    ensures var window := LastN(accepted, n);
            LastN(accepted + [key], n) == (if |window| < n then window else window[1..]) + [key]
  {
  }

  lemma {:induction false} OldestLeaves(order: seq<string>)
    requires NoRepeat(order) && order != []
    ensures NoRepeat(order[1..])
    ensures Members(order) - {order[0]} == Members(order[1..])
    ensures forall k | k !in order :: k !in order[1..]
  {
    assert order == [order[0]] + order[1..];
  }

  lemma {:induction false} KeyJoins(order: seq<string>, key: string)
    requires NoRepeat(order) && key !in order
    ensures NoRepeat(order + [key])
    ensures Members(order + [key]) == Members(order) + {key}
  {
  }

  /** After any inserts, the record's window never holds a key twice, and holds the last accepted keys. */
  lemma {:induction false} WindowHasNoRepeats(keys: seq<string>, capacity: nat)
    ensures NoRepeat(LastN(AcceptAll(keys, capacity), Limit(capacity)))
  {
    if keys != [] {
      var n := |keys| - 1;
      WindowHasNoRepeats(keys[..n], capacity);
      var before := AcceptAll(keys[..n], capacity);
      var window := LastN(before, Limit(capacity));
      if keys[n] !in window {
        hide LastN, NoRepeat, Members;
        WindowSlides(before, keys[n], Limit(capacity));
        if |window| < Limit(capacity) {
          KeyJoins(window, keys[n]);
        } else {
          OldestLeaves(window);
          KeyJoins(window[1..], keys[n]);
        }
      }
    }
  }

  /** The record never holds more than its capacity, after any inserts, if and only if the capacity is positive. */
  lemma {:induction false} SizeWithinCapacityIff(capacity: nat)
    ensures (forall keys :: |LastN(AcceptAll(keys, capacity), Limit(capacity))| <= capacity) <==> capacity > 0
  {
    if capacity > 0 {
      forall keys ensures |LastN(AcceptAll(keys, capacity), Limit(capacity))| <= capacity {
        WindowFits(AcceptAll(keys, capacity), capacity);
      }
    } else {
      assert AcceptAll([""][..0], 0) == [];
      assert AcceptAll([""], 0) == [""];
    }
  }

  /**
   A redelivery is dropped if and only if fewer than `capacity` keys were accepted after the last
   time its key was, or none at capacity 0: stated for a key last accepted at position `p`.
   */
  lemma {:induction false} DroppedIffWithinWindow(accepted: seq<string>, p: nat, capacity: nat)
    requires p < |accepted| && forall i | p < i < |accepted| :: accepted[i] != accepted[p]
    ensures Accept(accepted, accepted[p], capacity) == accepted <==> |accepted| - 1 - p < (if capacity == 0 then 1 else capacity)
  {
    var n := Limit(capacity);
    var window := LastN(accepted, n);
    if |accepted| - 1 - p < n {
      assert window[|window| - (|accepted| - p)] == accepted[p];
    } else {
      forall i | 0 <= i < |window| ensures window[i] != accepted[p] {
        assert window[i] == accepted[|accepted| - n + i];
      }
    }
  }
}
