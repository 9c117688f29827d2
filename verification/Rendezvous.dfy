/** xEventGroupSync (FreeRTOS/event_groups.c) as its users see it: a number of tasks meet. */
module Rendezvous {
  import opened TaskLists
  import opened EventGroup

  function Union(own: seq<bv32>): bv32 {
    if own == [] then 0 else Or(Union(own[..|own| - 1]), own[|own| - 1])
  }

  predicate Apart(a: bv32, b: bv32) { a & b == 0 }

  predicate Within(a: bv32, b: bv32) { a & b == a }

  lemma OrApart(a: bv32, b: bv32, c: bv32)
    ensures Apart(c, Or(a, b)) <==> Apart(c, a) && Apart(c, b)
  {
    assert c & (a | b) == (c & a) | (c & b);
  }

  lemma OrWithin(a: bv32, b: bv32)
    ensures Within(a, Or(a, b)) && Within(b, Or(a, b))
  {
  }

  lemma WithinOr(a: bv32, b: bv32, c: bv32)
    requires Within(c, a)
    ensures Within(c, Or(a, b))
  {
    assert c & (a | b) == (c & a) | (c & b);
  }

  lemma ApartOrder(a: bv32, b: bv32, w: bv32)
    ensures Apart(a, b) <==> Apart(b, a)
    ensures Apart(a, 0)
    ensures a != 0 && Apart(a, b) && Within(a, w) ==> !Within(w, b)
  {
  }

  /** The last of the tasks completes the bits, and none before does. */
  lemma {:induction false} UnionParts(own: seq<bv32>, k: nat)
    requires k < |own|
    ensures Within(own[k], Union(own))
  {
    var n := |own| - 1;
    OrWithin(Union(own[..n]), own[n]);
    if k < n {
      UnionParts(own[..n], k);
      WithinOr(Union(own[..n]), own[n], own[k]);
    }
  }

  lemma {:induction false} UnionApart(own: seq<bv32>, c: bv32)
    requires forall i :: 0 <= i < |own| ==> Apart(own[i], c)
    ensures Apart(c, Union(own))
  {
    if own == [] {
      ApartOrder(c, 0, 0);
    } else {
      var n := |own| - 1;
      UnionApart(own[..n], c);
      ApartOrder(own[n], c, 0);
      OrApart(Union(own[..n]), own[n], c);
    }
  }

  function And(a: bv32, b: bv32): bv32 { a & b }

  lemma Progress(bits: bv32, want: bv32, u: bv32, b: bv32)
    requires And(bits, want) == u && Within(b, want)
    ensures And(Or(bits, b), want) == Or(u, b)
  {
    Distribute(bits, b, want);
  }

  lemma Distribute(a: bv32, b: bv32, c: bv32)
    ensures (a | b) & c == (a & c) | (b & c)
  {
  }

  lemma Complete(bits: bv32, want: bv32)
    ensures Met(bits, want, true) <==> And(bits, want) == want
  {
  }

  lemma ClearedAll(bits: bv32, want: bv32)
    ensures And(Without(bits, want), want) == 0 && Without(bits, 0) == bits
  {
  }

  /** Every task brings a bit that no other task brings. */
  ghost predicate Party(ts: seq<Task>, own: seq<bv32>, want: bv32) {
    && |ts| == |own| > 0 && Distinct(ts) && want == Union(own) && want != 0 && Plain(want)
    && (forall i {:trigger own[i]} :: 0 <= i < |own| ==> own[i] != 0 && Plain(own[i]))
    && (forall i, j {:trigger own[i], own[j]} :: 0 <= i < j < |own| ==> Apart(own[i], own[j]))
  }

  /** The first `k` tasks have arrived and wait; the bits say so. */
  ghost predicate Gathered(ts: seq<Task>, own: seq<bv32>, want: bv32, k: nat, bits: bv32, waiting: seq<Task>,
                           item: map<Task, bv32>, asked: map<Task, bv32>) {
    && k <= |ts| && k <= |own| && And(bits, want) == Union(own[..k]) && waiting == ts[..k]
    && (forall i {:trigger ts[i]} :: 0 <= i < k ==> ts[i] in item && ts[i] in asked && item[ts[i]] == asked[ts[i]] == Request(want, true, true))
    && (forall i {:trigger ts[i]} :: k <= i < |ts| ==> ts[i] !in item)
  }

  lemma {:induction false} NoneSatisfied(waiting: seq<Task>, item: map<Task, bv32>, bits: bv32)
    requires Known(waiting, item) && forall t :: t in waiting ==> !Satisfied(bits, item[t])
    ensures Remaining(waiting, item, bits) == waiting && Cleared(waiting, item, bits) == 0
  {
    hide Satisfied, Or;
    if waiting != [] {
      var front := waiting[..|waiting| - 1];
      NoneSatisfied(front, item, bits);
      OrNothing(0);
      assert waiting == front + [waiting[|waiting| - 1]];
    }
  }

  lemma {:induction false} AllSatisfied(waiting: seq<Task>, item: map<Task, bv32>, bits: bv32)
    requires Known(waiting, item) && forall t :: t in waiting ==> Satisfied(bits, item[t])
    ensures Remaining(waiting, item, bits) == []
  {
    hide Satisfied;
    if waiting != [] {
      AllSatisfied(waiting[..|waiting| - 1], item, bits);
    }
  }

  lemma UnionOne(own: seq<bv32>, k: nat)
    requires k < |own|
    ensures Union(own[..k + 1]) == Or(Union(own[..k]), own[k])
  {
    assert own[..k + 1][..k] == own[..k];
  }

  lemma NotYetAll(own: seq<bv32>, k: nat)
    requires k < |own| && own[k] != 0 && forall i :: 0 <= i < k ==> Apart(own[i], own[k])
    ensures Union(own[..k]) != Union(own)
  {
    UnionParts(own, k);
    UnionApart(own[..k], own[k]);
    ApartOrder(own[k], Union(own[..k]), Union(own));
    WithinItself(Union(own));
  }

  /** The bits are complete exactly when the last task arrives. */
  lemma LastCompletes(ts: seq<Task>, own: seq<bv32>, want: bv32, k: nat, bits: bv32)
    requires Party(ts, own, want) && k < |own| && And(bits, want) == Union(own[..k])
    ensures And(Or(bits, own[k]), want) == Union(own[..k + 1])
    ensures Met(Or(bits, own[k]), want, true) <==> k + 1 == |own|
  {
    hide Apart, Or, And, Met, Plain, Within, Union, Distinct;
    UnionParts(own, k);
    UnionOne(own, k);
    Progress(bits, want, Union(own[..k]), own[k]);
    Complete(Or(bits, own[k]), want);
    if k + 1 == |own| {
      assert own[..k + 1] == own;
    } else {
      NotYetAll(own, k + 1);
    }
  }

  lemma GatheredRequests(ts: seq<Task>, own: seq<bv32>, want: bv32, k: nat, bits: bv32, waiting: seq<Task>,
                         item: map<Task, bv32>, asked: map<Task, bv32>, v: bv32)
    requires Party(ts, own, want) && Gathered(ts, own, want, k, bits, waiting, item, asked)
    ensures Known(waiting, item) && forall t :: t in waiting ==> (Satisfied(v, item[t]) <==> Met(v, want, true))
  {
    hide Apart, Or, And, Met, Plain, Within, Union, Request, Want, All, Clears, Unblocked;
    RequestKept(want, true, true);
    forall t | t in waiting ensures t in item && item[t] == Request(want, true, true) {
      var i :| 0 <= i < |waiting| && waiting[i] == t;
      assert t == ts[i];
    }
  }

  /** One more task has arrived, and is not the last. */
  lemma Arrived(ts: seq<Task>, own: seq<bv32>, want: bv32, k: nat, bits0: bv32, waiting0: seq<Task>, item0: map<Task,
                bv32>, asked0: map<Task, bv32>,
                bits: bv32, waiting: seq<Task>, item: map<Task, bv32>, asked: map<Task, bv32>)
    requires Party(ts, own, want) && k + 1 < |ts| && Gathered(ts, own, want, k, bits0, waiting0, item0, asked0) && Known(waiting0, item0)
    requires bits == Without(Or(bits0, own[k]), Cleared(waiting0, item0, Or(bits0, own[k])))
    requires waiting == Remaining(waiting0, item0, Or(bits0, own[k])) + [ts[k]]
    requires ts[k] in item && Stamped(item0, item - {ts[k]}, waiting0, Or(bits0, own[k]))
    requires asked == asked0[ts[k] := Request(want, true, true)] && item[ts[k]] == asked[ts[k]]
    ensures Gathered(ts, own, want, k + 1, bits, waiting, item, asked)
  {
    hide Apart, Or, And, Without, Met, Plain, Within, Union, Request, Answer, Satisfied, Remaining, Cleared, Stamped, Known;
    var v := Or(bits0, own[k]);
    LastCompletes(ts, own, want, k, bits0);
    GatheredRequests(ts, own, want, k, bits0, waiting0, item0, asked0, v);
    NoneSatisfied(waiting0, item0, v);
    ClearedAll(v, 0);
    assert waiting == ts[..k + 1];
    Unstamped(item0, item - {ts[k]}, waiting0, v);
    assert forall i {:trigger ts[i]} :: 0 <= i < |ts| && i != k ==> ts[i] != ts[k];
  }

  lemma Unstamped(item0: map<Task, bv32>, item: map<Task, bv32>, waiting: seq<Task>, bits: bv32)
    requires Stamped(item0, item, waiting, bits) && forall t :: t in waiting && t in item0 ==> !Satisfied(bits, item0[t])
    ensures item == item0
  {
    hide Satisfied, Answer;
  }

  lemma WithinItself(a: bv32)
    ensures Within(a, a)
  {
  }

  /** The last task has arrived: the others have their answers. */
  lemma AllArrived(ts: seq<Task>, own: seq<bv32>, want: bv32, bits: bv32, waiting: seq<Task>, item0: map<Task, bv32>,
                   item: map<Task, bv32>, asked: map<Task, bv32>)
    requires Party(ts, own, want) && Gathered(ts, own, want, |ts| - 1, bits, waiting, item0, asked) && Known(waiting, item0)
    requires Stamped(item0, item, waiting, Or(bits, own[|ts| - 1]))
    ensures Met(Or(bits, own[|ts| - 1]), want, true) && Remaining(waiting, item0, Or(bits, own[|ts| - 1])) == []
    ensures Answers(ts, want, 0, |ts| - 1, item, asked, Or(bits, own[|ts| - 1]))
  {
    hide Apart, Or, And, Without, Met, Plain, Within, Union, Request, Answer, Satisfied;
    var v := Or(bits, own[|ts| - 1]);
    LastCompletes(ts, own, want, |ts| - 1, bits);
    GatheredRequests(ts, own, want, |ts| - 1, bits, waiting, item0, asked, v);
    AllSatisfied(waiting, item0, v);
    forall i {:trigger ts[i]} | 0 <= i < |ts| - 1 ensures ts[i] in item && item[ts[i]] == Answer(v) {
      assert waiting[i] == ts[i] && ts[i] in waiting;
    }
  }

  /** The tasks from `k` to `n` can run again, and have an answer. */
  ghost predicate Answers(ts: seq<Task>, want: bv32, k: nat, n: nat, item: map<Task, bv32>, asked: map<Task, bv32>, v: bv32) {
    n <= |ts| && forall i {:trigger ts[i]} :: k <= i < n ==>
      ts[i] in item && ts[i] in asked && asked[ts[i]] == Request(want, true, true) && item[ts[i]] == Answer(v)
  }

  lemma OneLess(ts: seq<Task>, want: bv32, k: nat, n: nat, item: map<Task, bv32>, asked: map<Task, bv32>, v: bv32)
    requires Answers(ts, want, k, n, item, asked, v) && Distinct(ts) && k < n
    ensures Answers(ts, want, k + 1, n, item - {ts[k]}, asked - {ts[k]}, v)
  {
    hide Request, Answer;
    assert forall i {:trigger ts[i]} :: k < i < n ==> ts[i] != ts[k];
  }

  /** xEventGroupSync by a number of tasks: every call but the last one blocks, so that nobody gets past the
      point before all have arrived; all see the same bits, and the bits are clear again afterwards. */
  method Rendezvous(g: EventGroup, ts: seq<Task>, own: seq<bv32>, want: bv32) returns (outcomes: seq<Outcome>, seen: seq<bv32>)
    requires g.Valid() && Party(ts, own, want) && g.waiting == [] && And(g.bits, want) == 0
    requires forall i {:trigger ts[i]} :: 0 <= i < |ts| ==> ts[i] !in g.item
    modifies g
    ensures g.Valid() && g.waiting == [] && And(g.bits, want) == 0 && |seen| == |ts|
    ensures Met(seen[0], want, true) && forall i {:trigger seen[i]} :: 0 <= i < |seen| ==> seen[i] == seen[0]
    ensures |outcomes| == |ts| && forall i {:trigger outcomes[i]} :: 0 <= i < |ts| ==> outcomes[i] == if i < |ts| - 1 then Blocked else Done(seen[0])
  {
    hide EventGroup.Valid, Plain, Request, Or, And, Without, Distinct, Apart, Met, Gathered, Answer, Want, Unblocked, Stamped, Remaining, Cleared, Known;
    outcomes := [];
    var k := 0;
    GatheredNone(ts, own, want, g.bits, g.waiting, g.item, g.asked);
    while k < |ts| - 1
      invariant k <= |ts| - 1 && g.Valid() && Gathered(ts, own, want, k, g.bits, g.waiting, g.item, g.asked)
      invariant |outcomes| == k && forall i {:trigger outcomes[i]} :: 0 <= i < k ==> outcomes[i] == Blocked
    {
      ghost var bits0, waiting0, item0, asked0 := g.bits, g.waiting, g.item, g.asked;
      GatheredNext(ts, own, want, k, g.bits, g.waiting, g.item, g.asked);
      LastCompletes(ts, own, want, k, g.bits);
      var r := g.Sync(ts[k], own[k], want, true);
      Arrived(ts, own, want, k, bits0, waiting0, item0, asked0, g.bits, g.waiting, g.item, g.asked);
      outcomes := outcomes + [r];
      k := k + 1;
    }
    var last;
    last, seen := Meet(g, ts, own, want);
    outcomes := outcomes + [last];
  }

  lemma GatheredNone(ts: seq<Task>, own: seq<bv32>, want: bv32, bits: bv32, waiting: seq<Task>, item: map<Task, bv32>,
                     asked: map<Task, bv32>)
    requires And(bits, want) == 0 && waiting == [] && forall i {:trigger ts[i]} :: 0 <= i < |ts| ==> ts[i] !in item
    ensures Gathered(ts, own, want, 0, bits, waiting, item, asked)
  {
    assert own[..0] == [];
  }

  lemma GatheredNext(ts: seq<Task>, own: seq<bv32>, want: bv32, k: nat, bits: bv32, waiting: seq<Task>, item: map<Task,
                     bv32>, asked: map<Task, bv32>)
    requires Gathered(ts, own, want, k, bits, waiting, item, asked) && k < |ts|
    ensures ts[k] !in item && (k < |own| ==> And(bits, want) == Union(own[..k]))
  {
  }

  /** The last task arrives, and all the others run again. */
  method Meet(g: EventGroup, ts: seq<Task>, own: seq<bv32>, want: bv32) returns (last: Outcome, seen: seq<bv32>)
    requires g.Valid() && Party(ts, own, want) && Gathered(ts, own, want, |ts| - 1, g.bits, g.waiting, g.item, g.asked)
    modifies g
    ensures g.Valid() && g.waiting == [] && And(g.bits, want) == 0 && |seen| == |ts|
    ensures last == Done(seen[0]) && Met(seen[0], want, true) && forall i {:trigger seen[i]} :: 0 <= i < |seen| ==> seen[i] == seen[0]
  {
    hide EventGroup.Valid, Plain, Request, Or, And, Without, Distinct, Apart, Met, Gathered, Answer, Want, Unblocked,
        Stamped, Remaining, Cleared, Known, Answers, Seen;
    var n := |ts| - 1;
    ghost var bits0, waiting0, item0, asked0 := g.bits, g.waiting, g.item, g.asked;
    ghost var v := Or(g.bits, own[n]);
    GatheredNext(ts, own, want, n, g.bits, g.waiting, g.item, g.asked);
    LastCompletes(ts, own, want, n, g.bits);
    PlainBits(g);
    PlainSet(g.bits, own[n]);
    last := g.Sync(ts[n], own[n], want, true);
    assert g.item - {ts[n]} == g.item;
    AllArrived(ts, own, want, bits0, waiting0, item0, g.item, asked0);
    ClearedAll(Without(v, Cleared(waiting0, item0, v)), want);
    seen := [];
    var k := 0;
    while k < n
      invariant k <= n && g.Valid() && g.waiting == [] && And(g.bits, want) == 0
      invariant Answers(ts, want, k, n, g.item, g.asked, v)
      invariant |seen| == k && forall i {:trigger seen[i]} :: 0 <= i < k ==> seen[i] == v
    {
      AnswersNext(ts, want, k, n, g.item, g.asked, v);
      OneLess(ts, want, k, n, g.item, g.asked, v);
      var timedOut, got := g.Resume(ts[k], want, true, true);
      seen := seen + [got];
      k := k + 1;
    }
    seen := seen + [last.bits];
  }

  lemma PlainBits(g: EventGroup)
    requires g.Valid()
    ensures Plain(g.bits)
  {
  }

  lemma AnswersNext(ts: seq<Task>, want: bv32, k: nat, n: nat, item: map<Task, bv32>, asked: map<Task, bv32>, v: bv32)
    requires Answers(ts, want, k, n, item, asked, v) && k < n && Plain(v)
    ensures ts[k] in item && ts[k] in asked && asked[ts[k]] == Request(want, true, true)
    ensures Unblocked(item[ts[k]]) && Want(item[ts[k]]) == v
  {
    hide Request;
    AnswerKept(v);
  }
}
