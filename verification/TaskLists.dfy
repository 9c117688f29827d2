/** The lists a scheduler keeps its tasks in. Every task has two list items, and each knows the list
    that holds it: `at` is the list of each item, `L` are the lists. */
module TaskLists {
  import opened ListView

  type Task = nat

  /** The containers agree with the lists: every item is in the list it names, once, and in no other. */
  ghost predicate Holds<K(!new)>(L: map<K, View<Task>>, at: map<Task, K>) {
    && (forall k {:trigger L[k]} :: k in L ==> Ok(L[k]))
    && (forall t {:trigger at[t]} :: t in at ==> at[t] in L)
    && (forall k, t {:trigger t in L[k].items} :: k in L ==> (t in L[k].items <==> t in at && at[t] == k))
  }

  lemma LeaveHolds<K(!new)>(L: map<K, View<Task>>, at: map<Task, K>, t: Task)
    requires Holds(L, at) && t in at
    ensures t in L[at[t]].items && Holds(L[at[t] := Remove(L[at[t]], t)], at - {t})
  {
    assert t in L[at[t]].items;
    RemoveOk(L[at[t]], t);
  }

  lemma EnterEndHolds<K(!new)>(L: map<K, View<Task>>, at: map<Task, K>, t: Task, k: K)
    requires Holds(L, at) && t !in at && k in L
    ensures L[k].index <= |L[k].items| && t !in L[k].items && Holds(L[k := InsertEnd(L[k], t)], at[t := k])
  {
    InsertEndOk(L[k], t);
  }

  lemma EnterAtHolds<K(!new)>(L: map<K, View<Task>>, at: map<Task, K>, t: Task, k: K, i: nat)
    requires Holds(L, at) && t !in at && k in L && i <= |L[k].items|
    ensures t !in L[k].items && Holds(L[k := InsertAt(L[k], i, t)], at[t := k])
  {
    InsertAtOk(L[k], i, t);
  }
}
