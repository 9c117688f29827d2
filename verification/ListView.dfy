/** The value of a kernel list (FreeRTOS/list.c): the items from the first to the last, and the
    place of the walking pointer `pxIndex`. Position 0 is the end marker, position i > 0 is
    `items[i - 1]`. The class in Lists.dfy is proved against these functions, and the scheduler
    keeps its task lists in this form. */
module ListView {

  datatype View<T> = View(items: seq<T>, index: nat)

  ghost predicate NoDuplicates<T>(s: seq<T>) {
    forall i, j :: 0 <= i < j < |s| ==> s[i] != s[j]
  }

  ghost predicate Ok<T>(v: View<T>) {
    v.index <= |v.items| && NoDuplicates(v.items)
  }

  /** vListInsertEnd: the new item goes just before the item at `pxIndex`. */
  function InsertEnd<T>(v: View<T>, x: T): View<T>
    requires v.index <= |v.items|
  {
    if v.index == 0 then View(v.items + [x], 0)
    else View(v.items[..v.index - 1] + [x] + v.items[v.index - 1..], v.index + 1)
  }

  /** The linking step of vListInsert: the new item becomes the k-th one. */
  function InsertAt<T>(v: View<T>, k: nat, x: T): View<T>
    requires k <= |v.items|
  {
    View(v.items[..k] + [x] + v.items[k..], if v.index > k then v.index + 1 else v.index)
  }

  /** uxListRemove: when `pxIndex` is at the removed item, it steps back to the previous one. */
  function RemoveAt<T>(v: View<T>, k: nat): (r: View<T>)
    requires k < |v.items|
    ensures |r.items| == |v.items| - 1
  {
    View(v.items[..k] + v.items[k + 1..], if v.index > k then v.index - 1 else v.index)
  }

  /** listGET_OWNER_OF_NEXT_ENTRY: the new `pxIndex`; the end marker is skipped. */
  function Advance<T>(v: View<T>): (r: View<T>)
    requires v.items != [] && v.index <= |v.items|
    ensures r.items == v.items && 1 <= r.index <= |r.items|
  {
    View(v.items, if v.index == |v.items| then 1 else v.index + 1)
  }

  function Selected<T>(v: View<T>): T
    requires v.items != [] && v.index <= |v.items|
  {
    v.items[Advance(v).index - 1]
  }

  function Find<T(==)>(s: seq<T>, x: T): (k: nat)
    requires x in s
    ensures k < |s| && s[k] == x
    ensures forall i :: 0 <= i < k ==> s[i] != x
  {
    if s[0] == x then 0 else 1 + Find(s[1..], x)
  }

  function Remove<T(==)>(v: View<T>, x: T): View<T>
    requires x in v.items
  {
    RemoveAt(v, Find(v.items, x))
  }

  /** How many selections come before the selection of `x`, if nothing changes. */
  function Rank<T(==)>(v: View<T>, x: T): (r: nat)
    requires v.index <= |v.items| && x in v.items
    ensures r < |v.items|
  {
    var p := Find(v.items, x);
    if p >= v.index then p - v.index else p - v.index + |v.items|
  }

  /** pxIndex is at the item of `y`. */
  predicate IndexAt<T(==)>(v: View<T>, y: T)
    requires v.index <= |v.items|
  {
    v.index > 0 && v.items[v.index - 1] == y
  }

  lemma FindUnique<T>(s: seq<T>, x: T, k: nat)
    requires NoDuplicates(s) && k < |s| && s[k] == x
    ensures Find(s, x) == k
  {
  }

  /** Inserting keeps the items distinct, adds exactly `x`, and keeps the item `pxIndex` is at. */
  lemma InsertEndOk<T>(v: View<T>, x: T)
    requires Ok(v) && x !in v.items
    ensures var r := InsertEnd(v, x);
            && Ok(r) && (forall y :: y in r.items <==> y in v.items || y == x)
            && (v.index == 0 <==> r.index == 0)
            && (v.index > 0 ==> r.items[r.index - 1] == v.items[v.index - 1])
  {
    var r := InsertEnd(v, x);
    forall y ensures y in r.items <==> y in v.items || y == x {
      if y in v.items { var i := Find(v.items, y); assert v.items[i] in r.items by {
        if v.index == 0 || i < v.index - 1 { assert r.items[i] == y; } else { assert r.items[i + 1] == y; } } }
      if y == x { assert r.items[if v.index == 0 then |v.items| else v.index - 1] == x; }
    }
  }

  lemma InsertAtOk<T>(v: View<T>, k: nat, x: T)
    requires Ok(v) && x !in v.items && k <= |v.items|
    ensures var r := InsertAt(v, k, x);
            && Ok(r) && (forall y :: y in r.items <==> y in v.items || y == x)
            && (v.index == 0 <==> r.index == 0)
            && (v.index > 0 ==> r.items[r.index - 1] == v.items[v.index - 1])
  {
    var r := InsertAt(v, k, x);
    forall y ensures y in r.items <==> y in v.items || y == x {
      if y in v.items { var i := Find(v.items, y);
        if i < k { assert r.items[i] == y; } else { assert r.items[i + 1] == y; } }
      if y == x { assert r.items[k] == x; }
    }
  }

  /** Removing keeps the items distinct and removes exactly `x`; a pointer at another item stays there. */
  lemma RemoveOk<T>(v: View<T>, x: T)
    requires Ok(v) && x in v.items
    ensures var r := Remove(v, x);
            && Ok(r) && (forall y :: y in r.items <==> y in v.items && y != x)
            && (v.index == 0 ==> r.index == 0)
            && (v.index > 0 && v.items[v.index - 1] != x ==>
                  r.index > 0 && r.items[r.index - 1] == v.items[v.index - 1])
  {
    var r := Remove(v, x);
    var k := Find(v.items, x);
    forall y ensures y in r.items <==> y in v.items && y != x {
      if y in v.items && y != x { var i := Find(v.items, y);
        if i < k { assert r.items[i] == y; } else { assert r.items[i - 1] == y; } }
      if y in r.items { var i := Find(r.items, y); assert r.items[i] == v.items[if i < k then i else i + 1]; }
    }
  }

  // ---------------------------------------------------------------------------------------------
  // Runs of list operations, and how fair the walk is.

  datatype Op<T> = Insert(x: T) | Delete(x: T) | Next

  predicate Legal<T(==)>(v: View<T>, op: Op<T>) {
    match op
    case Insert(x) => x !in v.items
    case Delete(x) => x in v.items
    case Next => v.items != []
  }

  function Step<T(==)>(v: View<T>, op: Op<T>): View<T>
    requires v.index <= |v.items| && Legal(v, op)
  {
    match op
    case Insert(x) => InsertEnd(v, x)
    case Delete(x) => Remove(v, x)
    case Next => Advance(v)
  }

  ghost predicate LegalRun<T>(v: View<T>, ops: seq<Op<T>>)
    decreases |ops|
  {
    ops == [] || (v.index <= |v.items| && Legal(v, ops[0]) && LegalRun(Step(v, ops[0]), ops[1..]))
  }

  ghost function Run<T>(v: View<T>, ops: seq<Op<T>>): View<T>
    requires LegalRun(v, ops)
    decreases |ops|
  {
    if ops == [] then v else Run(Step(v, ops[0]), ops[1..])
  }

  /** No step of the run removes `y` or selects `y`. */
  ghost predicate Waits<T>(v: View<T>, ops: seq<Op<T>>, y: T)
    requires LegalRun(v, ops)
    decreases |ops|
  {
    ops == [] ||
    (ops[0] != Delete(y) && (ops[0].Next? ==> Selected(v) != y) && Waits(Step(v, ops[0]), ops[1..], y))
  }

  ghost predicate NotSelected<T>(v: View<T>, ops: seq<Op<T>>, x: T)
    requires LegalRun(v, ops)
    decreases |ops|
  {
    ops == [] || ((ops[0].Next? ==> Selected(v) != x) && NotSelected(Step(v, ops[0]), ops[1..], x))
  }

  ghost function Selections<T>(ops: seq<Op<T>>): nat {
    if ops == [] then 0 else (if ops[0].Next? then 1 else 0) + Selections(ops[1..])
  }

  /** Insertions made while `pxIndex` is at `y`: those are the ones that go in front of `y`. */
  ghost function Overtakings<T>(v: View<T>, ops: seq<Op<T>>, y: T): nat
    requires LegalRun(v, ops)
    decreases |ops|
  {
    if ops == [] then 0 else
      (if ops[0].Insert? && IndexAt(v, y) then 1 else 0) + Overtakings(Step(v, ops[0]), ops[1..], y)
  }

  /** Whether the last insertion of `x` was made while `pxIndex` was at `y`; `before` if there is none. */
  ghost predicate LastInsertOvertakes<T>(v: View<T>, ops: seq<Op<T>>, x: T, y: T, before: bool)
    requires LegalRun(v, ops)
    decreases |ops|
  {
    if ops == [] then before else
      LastInsertOvertakes(Step(v, ops[0]), ops[1..], x, y,
                          if ops[0] == Insert(x) then IndexAt(v, y) else before)
  }

  lemma StepOk<T>(v: View<T>, op: Op<T>)
    requires Ok(v) && Legal(v, op)
    ensures Ok(Step(v, op))
    ensures forall y :: y in Step(v, op).items <==>
              (y in v.items && op != Delete(y)) || op == Insert(y)
  {
    match op
    case Insert(x) => InsertEndOk(v, x);
    case Delete(x) => RemoveOk(v, x);
    case Next =>
  }

  lemma InsertRank<T>(v: View<T>, x: T, y: T)
    requires Ok(v) && x !in v.items && y in v.items
    ensures Ok(InsertEnd(v, x)) && y in InsertEnd(v, x).items
    ensures Rank(InsertEnd(v, x), y) == Rank(v, y) + (if IndexAt(v, y) then 1 else 0)
  {
    InsertEndOk(v, x);
    var p := Find(v.items, y);
    FindUnique(InsertEnd(v, x).items, y, if v.index == 0 || p < v.index - 1 then p else p + 1);
    if IndexAt(v, y) { FindUnique(v.items, y, v.index - 1); }
  }

  lemma PlaceRemoved<T>(v: View<T>, x: T, y: T)
    requires Ok(v) && x in v.items && y in v.items && x != y
    ensures var r, k, p := Remove(v, x), Find(v.items, x), Find(v.items, y);
            && Ok(r) && y in r.items && Find(r.items, y) == (if p < k then p else p - 1)
            && |r.items| == |v.items| - 1 && r.index == if v.index > k then v.index - 1 else v.index
  {
    RemoveOk(v, x);
    var p := Find(v.items, y);
    var w := Remove(v, x);
    var q := if p < Find(v.items, x) then p else p - 1;
    assert w.items[q] == y;
    hide NoDuplicates, Find, Remove;
    FindUnique(w.items, y, q);
  }

  lemma DeleteRank<T>(v: View<T>, x: T, y: T)
    requires Ok(v) && x in v.items && y in v.items && x != y
    ensures Ok(Remove(v, x)) && y in Remove(v, x).items
    ensures Rank(Remove(v, x), y) == Rank(v, y) - (if Rank(v, x) < Rank(v, y) then 1 else 0)
  {
    hide NoDuplicates, Find, Remove;
    PlaceRemoved(v, x, y);
  }

  lemma NextRank<T>(v: View<T>, y: T)
    requires Ok(v) && y in v.items
    ensures if Selected(v) == y then Rank(v, y) == 0 && Rank(Advance(v), y) == |v.items| - 1
            else Rank(Advance(v), y) == Rank(v, y) - 1
  {
    FindUnique(v.items, Selected(v), Advance(v).index - 1);
  }

  /** What one step does to the waiting time of `y`. */
  lemma StepRank<T>(v: View<T>, op: Op<T>, y: T)
    requires Ok(v) && Legal(v, op) && y in v.items && op != Delete(y)
    ensures Ok(Step(v, op)) && y in Step(v, op).items
    ensures var r := Rank(Step(v, op), y);
            match op
            case Insert(_) => r == Rank(v, y) + (if IndexAt(v, y) then 1 else 0)
            case Delete(x) => r == Rank(v, y) - (if Rank(v, x) < Rank(v, y) then 1 else 0)
            case Next => if Selected(v) == y then Rank(v, y) == 0 && r == |v.items| - 1
                         else r == Rank(v, y) - 1
  {
    match op
    case Insert(x) => InsertRank(v, x, y);
    case Delete(x) => DeleteRank(v, x, y);
    case Next => NextRank(v, y);
  }

  /** A task inserted at the end waits behind every task, except one that `pxIndex` is at. */
  lemma InsertedRank<T>(v: View<T>, x: T, y: T)
    requires Ok(v) && x !in v.items && y in v.items
    ensures Ok(InsertEnd(v, x)) && x in InsertEnd(v, x).items && y in InsertEnd(v, x).items
    ensures Rank(InsertEnd(v, x), y) < Rank(InsertEnd(v, x), x) <==> !IndexAt(v, y)
  {
    InsertRank(v, x, y);
    var w := InsertEnd(v, x);
    FindUnique(w.items, x, if v.index == 0 then |v.items| else v.index - 1);
    if v.index > 0 { FindUnique(v.items, v.items[v.index - 1], v.index - 1); }
  }

  /** Bounded waiting over every run: while `y` stays and is not selected, each selection brings it
      one place closer, and only an insertion made with `pxIndex` at `y` puts it one place back. */
  lemma {:induction false} BoundedWaiting<T>(v: View<T>, ops: seq<Op<T>>, y: T)
    requires Ok(v) && y in v.items && LegalRun(v, ops) && Waits(v, ops, y)
    ensures Ok(Run(v, ops)) && y in Run(v, ops).items
    ensures Selections(ops) + Rank(Run(v, ops), y) <= Rank(v, y) + Overtakings(v, ops, y)
    decreases |ops|
  {
    if ops != [] {
      StepRank(v, ops[0], y);
      BoundedWaiting(Step(v, ops[0]), ops[1..], y);
    }
  }

  lemma RankDistinct<T>(v: View<T>, x: T, y: T)
    requires Ok(v) && x in v.items && y in v.items && x != y
    ensures Rank(v, x) != Rank(v, y)
  {
  }

  lemma StepOrder<T>(v: View<T>, op: Op<T>, x: T, y: T, before: bool)
    requires Ok(v) && x != y && y in v.items && Legal(v, op) && op != Delete(y)
    requires op.Next? ==> Selected(v) != y && Selected(v) != x
    requires x in v.items ==> (Rank(v, y) < Rank(v, x) <==> !before)
    ensures var w := Step(v, op);
            && Ok(w) && y in w.items
            && (x in w.items ==>
                  (Rank(w, y) < Rank(w, x) <==> !(if op == Insert(x) then IndexAt(v, y) else before)))
  {
    hide Rank, InsertEnd, Remove, Advance, Selected, IndexAt;
    StepOk(v, op);
    StepRank(v, op, y);
    if op == Insert(x) {
      InsertedRank(v, x, y);
    } else if x in Step(v, op).items {
      StepRank(v, op, x);
      RankDistinct(v, x, y);
      RankDistinct(Step(v, op), x, y);
    }
  }

  /** The exact order of selection: while neither is selected, `y` comes before `x` unless the last
      insertion of `x` was made with `pxIndex` at `y`. */
  lemma {:induction false} SelectionOrder<T>(v: View<T>, ops: seq<Op<T>>, x: T, y: T, before: bool)
    requires Ok(v) && x != y && y in v.items
    requires LegalRun(v, ops) && Waits(v, ops, y) && NotSelected(v, ops, x)
    requires x in v.items ==> (Rank(v, y) < Rank(v, x) <==> !before)
    ensures Ok(Run(v, ops)) && y in Run(v, ops).items
    ensures x in Run(v, ops).items ==>
              (Rank(Run(v, ops), y) < Rank(Run(v, ops), x) <==> !LastInsertOvertakes(v, ops, x, y, before))
    decreases |ops|
  {
    if ops != [] {
      StepOk(v, ops[0]);
      StepOrder(v, ops[0], x, y, before);
      SelectionOrder(Step(v, ops[0]), ops[1..], x, y, if ops[0] == Insert(x) then IndexAt(v, y) else before);
    }
  }

  lemma SelectedFirst<T>(v: View<T>, x: T, y: T)
    requires Ok(v) && y in v.items && x != y && Selected(v) == x
    ensures Rank(v, x) < Rank(v, y)
  {
    NextRank(v, x);
    RankDistinct(v, x, y);
  }

  /** Time slicing between two selections of `x` (taskSELECT_HIGHEST_PRIORITY_TASK): a task `y` that
      stayed in the list is left out exactly when the last re-insertion of `x` found `pxIndex` at `y`. */
  lemma FairBetweenSelections<T>(v: View<T>, ops: seq<Op<T>>, x: T, y: T)
    requires Ok(v) && v.items != [] && Selected(v) == x && y in v.items && y != x
    requires LegalRun(Advance(v), ops) && Waits(Advance(v), ops, y) && NotSelected(Advance(v), ops, x)
    ensures var w := Run(Advance(v), ops);
            && Ok(w) && y in w.items
            && (Selected(w) == x ==> LastInsertOvertakes(Advance(v), ops, x, y, false))
            && (Selected(w) == y && x in w.items ==> !LastInsertOvertakes(Advance(v), ops, x, y, false))
  {
    var a := Advance(v);
    NextRank(v, x);
    RankDistinct(a, x, y);
    SelectionOrder(a, ops, x, y, false);
    var w := Run(a, ops);
    if Selected(w) == x { SelectedFirst(w, x, y); }
    if Selected(w) == y && x in w.items { SelectedFirst(w, y, x); }
  }

  /** The unfair case is reachable: `x` leaves and comes back before anything else is selected, and
      is then selected again although task 0 was ready throughout. */
  lemma UnfairRun()
    ensures var v := View([0, 1], 1);
            var ops := [Delete(1), Insert(1)];
            && Ok(v) && Selected(v) == 1
            && LegalRun(Advance(v), ops) && Waits(Advance(v), ops, 0) && NotSelected(Advance(v), ops, 1)
            && Selected(Run(Advance(v), ops)) == 1
  {
    var v := View([0, 1], 1);
    var a := Advance(v);
    var b := Remove(a, 1);
    assert b == View([0], 1);
    var c := InsertEnd(b, 1);
    assert c == View([1, 0], 2);
    var ops: seq<Op<int>> := [Delete(1), Insert(1)];
    assert ops[1..] == [Insert(1)] && ops[1..][1..] == [];
    assert Step(a, ops[0]) == b && Step(b, ops[1..][0]) == c;
    assert LegalRun(c, []) && LegalRun(b, ops[1..]);
    assert Run(b, ops[1..]) == Run(c, []) == c;
    assert Waits(c, [], 0) && Waits(b, ops[1..], 0);
    assert NotSelected(c, [], 1) && NotSelected(b, ops[1..], 1);
  }

  /** Lists whose pointer is never walked keep it at the end marker, so vListInsertEnd appends. */
  lemma UnwalkedAppends<T>(v: View<T>, x: T)
    requires Ok(v) && v.index == 0 && x !in v.items
    ensures InsertEnd(v, x) == View(v.items + [x], 0)
    ensures forall y :: y in v.items ==> Remove(v, y).index == 0
  {
  }
}
