/** Fixed arrays of optional entries that stand for a bounded map: the shape of the anti-replay
    slots (aviate-security/src/anti_replay.rs) and of the source bindings
    (aviate-security/src/gateway/source_policy.rs). */
module SlotTable {
  import opened Common

  datatype Entry<+K, +V> = Entry(key: K, value: V)

  type Slots<+K, +V> = seq<Option<Entry<K, V>>>

  /** No key holds two slots. */
  ghost predicate Distinct<K, V>(s: Slots<K, V>) {
    forall i, j :: 0 <= i < j < |s| && s[i].Some? && s[j].Some? ==> s[i].value.key != s[j].value.key
  }

  /** Slot `i` belongs to `k`. */
  ghost predicate Holds<K, V>(s: Slots<K, V>, i: int, k: K) {
    0 <= i < |s| && s[i].Some? && s[i].value.key == k
  }

  ghost function MapOf<K, V>(s: Slots<K, V>): (m: map<K, V>) {
    if s == [] then map[]
    else
      var rest, last := MapOf(s[..|s| - 1]), s[|s| - 1];
      if last.Some? then rest[last.value.key := last.value.value] else rest
  }

  lemma {:induction false} Lookup<K, V>(s: Slots<K, V>, i: nat)
    requires Distinct(s) && i < |s| && s[i].Some?
    ensures s[i].value.key in MapOf(s) && MapOf(s)[s[i].value.key] == s[i].value.value
  {
    if i < |s| - 1 {
      Lookup(s[..|s| - 1], i);
    }
  }

  lemma {:induction false} Witness<K, V>(s: Slots<K, V>, k: K) returns (i: nat)
    requires k in MapOf(s)
    ensures Holds(s, i, k)
  {
    if s[|s| - 1].Some? && s[|s| - 1].value.key == k {
      i := |s| - 1;
    } else {
      i := Witness(s[..|s| - 1], k);
    }
  }

  lemma Absent<K, V>(s: Slots<K, V>, k: K)
    requires forall i :: 0 <= i < |s| ==> !Holds(s, i, k)
    ensures k !in MapOf(s)
  {
    if k in MapOf(s) {
      var i := Witness(s, k);
    }
  }

  /** The map has one entry per occupied slot, so the table is full exactly when it is. */
  lemma {:induction false} Count<K, V>(s: Slots<K, V>)
    requires Distinct(s)
    ensures |MapOf(s)| <= |s|
    ensures |MapOf(s)| == |s| <==> forall i :: 0 <= i < |s| ==> s[i].Some?
  {
    if s == [] {
    } else {
      var t, last := s[..|s| - 1], s[|s| - 1];
      Count(t);
      if last.Some? {
        Absent(t, last.value.key);
        if |MapOf(s)| == |s| {
          forall i | 0 <= i < |s| ensures s[i].Some? { assert i < |t| ==> s[i] == t[i]; }
        }
      }
    }
  }

  /** Writing a slot that was free, or already `k`'s, updates exactly `k`'s entry. */
  lemma Write<K, V>(s: Slots<K, V>, i: nat, k: K, v: V)
    requires Distinct(s) && i < |s|
    requires Holds(s, i, k) || (s[i].None? && forall j :: 0 <= j < |s| ==> !Holds(s, j, k))
    ensures var s' := s[i := Some(Entry(k, v))]; Distinct(s') && MapOf(s') == MapOf(s)[k := v]
  {
    var s' := s[i := Some(Entry(k, v))];
    forall j | 0 <= j < |s| && j != i && s[j].Some? ensures s[j].value.key != k {
      assert !Holds(s, j, k);
    }
    assert Distinct(s');
    SameEntriesExcept(s, s', i, k);
    SameEntriesExcept(s', s, i, k);
    Lookup(s', i);
  }

  /** Clearing the slot of `k` removes exactly `k`'s entry. */
  lemma Clear<K, V>(s: Slots<K, V>, i: nat, k: K)
    requires Distinct(s) && Holds(s, i, k)
    ensures var s' := s[i := None]; Distinct(s') && MapOf(s') == MapOf(s) - {k}
  {
    var s' := s[i := None];
    SameEntriesExcept(s, s', i, k);
    SameEntriesExcept(s', s, i, k);
    assert forall j :: 0 <= j < |s| && j != i ==> !Holds(s, j, k);
    Absent(s', k);
  }

  lemma SameEntriesExcept<K, V>(s: Slots<K, V>, s': Slots<K, V>, i: nat, k: K)
    requires Distinct(s) && Distinct(s') && |s| == |s'| && i < |s|
    requires forall j :: 0 <= j < |s| && j != i ==> s[j] == s'[j]
    requires s[i].Some? ==> s[i].value.key == k
    ensures forall q :: q in MapOf(s) && q != k ==> q in MapOf(s') && MapOf(s')[q] == MapOf(s)[q]
  {
    forall q | q in MapOf(s) && q != k
      ensures q in MapOf(s') && MapOf(s')[q] == MapOf(s)[q]
    {
      var j := Witness(s, q);
      Lookup(s, j);
      Lookup(s', j);
    }
  }

  lemma {:induction false} MapOfFree<K, V>(s: Slots<K, V>)
    requires forall i :: 0 <= i < |s| ==> s[i].None?
    ensures MapOf(s) == map[]
  {
    if s == [] {
    } else {
      MapOfFree(s[..|s| - 1]);
    }
  }
}
