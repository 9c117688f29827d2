/** FreeRTOS/list.c: a circular doubly linked list threaded through an end marker. Every method is
    proved against the list value of ListView.dfy. */
module Lists {
  import opened ListView

  const MAX_DELAY: int := 0xffff_ffff

  newtype TickType = x: int | 0 <= x <= MAX_DELAY

  class ListItem {
    var value: TickType
    var next: ListItem?
    var previous: ListItem?
    var container: List?

    constructor (value: TickType)
      ensures this.value == value && container == null
    {
      this.value := value;
      next, previous, container := null, null, null;
    }
  }

  /** The nodes of a ring in order, each with its place, so that they are distinct. */
  ghost predicate Placed(s: seq<ListItem>, at: map<ListItem, nat>) {
    |s| > 0 && forall i {:trigger s[i]} :: 0 <= i < |s| ==> s[i] in at && at[s[i]] == i
  }

  lemma PlaceOf(s: seq<ListItem>, at: map<ListItem, nat>, x: ListItem)
    requires Placed(s, at) && x in s[1..]
    ensures x in at && 0 < at[x] < |s| && s[at[x]] == x && Find(s[1..], x) == at[x] - 1
  {
    var k := Find(s[1..], x);
    assert s[k + 1] == x;
  }

  ghost predicate Ring(s: seq<ListItem>, at: map<ListItem, nat>, list: List)
    reads s`next, s`previous, s`container
  {
    && Placed(s, at)
    && (forall i {:trigger s[i].next} :: 0 <= i < |s| ==> s[i].next == s[if i == |s| - 1 then 0 else i + 1])
    && (forall i {:trigger s[i].previous} :: 0 <= i < |s| ==> s[i].previous == s[if i == 0 then |s| - 1 else i - 1])
    && (forall i {:trigger s[i].container} :: 1 <= i < |s| ==> s[i].container == list)
  }

  lemma Splice(s: seq<ListItem>, at: map<ListItem, nat>, j: nat, x: ListItem)
    returns (r: seq<ListItem>, b: map<ListItem, nat>)
    requires Placed(s, at) && j < |s| && x !in s
    ensures Placed(r, b) && |r| == |s| + 1 && r[0] == s[0]
    ensures r[1..] == s[1..][..j] + [x] + s[1..][j..]
    ensures forall i {:trigger r[i]} :: 0 <= i < |r| ==>
              r[i] == if i <= j then s[i] else if i == j + 1 then x else s[i - 1]
  {
    r := s[..j + 1] + [x] + s[j + 1..];
    b := (map y | y in at :: if at[y] <= j then at[y] else at[y] + 1)[x := j + 1];
  }

  lemma Cut(s: seq<ListItem>, at: map<ListItem, nat>, j: nat)
    returns (r: seq<ListItem>, b: map<ListItem, nat>)
    requires Placed(s, at) && 0 < j < |s|
    ensures Placed(r, b) && |r| == |s| - 1 && r[0] == s[0]
    ensures r[1..] == s[1..][..j - 1] + s[1..][j..]
    ensures forall i {:trigger r[i]} :: 0 <= i < |r| ==> r[i] == if i < j then s[i] else s[i + 1]
  {
    r := s[..j] + s[j + 1..];
    b := map y | y in at && at[y] != j && at[y] != 0 :: if at[y] < j then at[y] else at[y] - 1;
    b := b[s[0] := 0];
  }

  /** The four pointer writes that both insertions make, here with the ring they leave. */
  method Link(list: List, x: ListItem, a: ListItem, b: ListItem, ghost s: seq<ListItem>, ghost at: map<ListItem, nat>,
              ghost j: nat)
    returns (ghost r: seq<ListItem>, ghost rat: map<ListItem, nat>)
    requires Ring(s, at, list) && j < |s| && x !in s
    requires a == s[j] && b == s[if j == |s| - 1 then 0 else j + 1]
    modifies x`next, x`previous, x`container, a`next, b`previous
    ensures Ring(r, rat, list) && |r| == |s| + 1 && r[0] == s[0]
    ensures r[1..] == s[1..][..j] + [x] + s[1..][j..]
    ensures forall i {:trigger r[i]} :: 0 <= i < |r| ==>
              r[i] == if i <= j then s[i] else if i == j + 1 then x else s[i - 1]
  {
    x.next := b;
    x.previous := a;
    a.next := x;
    b.previous := x;
    x.container := list;
    r, rat := Splice(s, at, j, x);
    forall i {:trigger r[i].next} | 0 <= i < |r|
      ensures r[i].next == r[if i == |r| - 1 then 0 else i + 1]
    {
      assert i != j && i != j + 1 ==> r[i] != a && r[i] != x && r[i].next == old(r[i].next);
    }
    forall i {:trigger r[i].previous} | 0 <= i < |r|
      ensures r[i].previous == r[if i == 0 then |r| - 1 else i - 1]
    {
      assert i != j + 1 && r[i] != b ==> r[i].previous == old(r[i].previous);
    }
  }

  /** The two pointer writes of a removal. */
  method Unlink(ghost list: List, x: ListItem, a: ListItem, b: ListItem, ghost s: seq<ListItem>,
                ghost at: map<ListItem, nat>, ghost j: nat)
    returns (ghost r: seq<ListItem>, ghost rat: map<ListItem, nat>)
    requires Ring(s, at, list) && 0 < j < |s| && x == s[j]
    requires a == s[j - 1] && b == s[if j == |s| - 1 then 0 else j + 1]
    modifies x`container, a`next, b`previous
    ensures x.container == null
    ensures Ring(r, rat, list) && |r| == |s| - 1 && r[0] == s[0]
    ensures r[1..] == s[1..][..j - 1] + s[1..][j..]
    ensures forall i {:trigger r[i]} :: 0 <= i < |r| ==> r[i] == if i < j then s[i] else s[i + 1]
  {
    b.previous := a;
    a.next := b;
    x.container := null;
    r, rat := Cut(s, at, j);
    forall i {:trigger r[i].next} | 0 <= i < |r|
      ensures r[i].next == r[if i == |r| - 1 then 0 else i + 1]
    {
      assert r[i] == a <==> i == j - 1;
      assert i != j - 1 ==> r[i].next == old(r[i].next);
    }
    forall i {:trigger r[i].previous} | 0 <= i < |r|
      ensures r[i].previous == r[if i == 0 then |r| - 1 else i - 1]
    {
      assert r[i] == b <==> i == if j == |r| then 0 else j;
      assert r[i] != b ==> r[i].previous == old(r[i].previous);
    }
    forall i {:trigger r[i].container} | 1 <= i < |r| ensures r[i].container == list {
      assert r[i] != x;
    }
  }

  ghost function ValuesOf(s: seq<ListItem>): (v: seq<int>)
    reads s`value
    ensures |v| == |s| && forall i :: 0 <= i < |s| ==> v[i] == s[i].value as int
  {
    if s == [] then [] else [s[0].value as int] + ValuesOf(s[1..])
  }

  class List {
    const end: ListItem
    var numberOfItems: nat
    var index: ListItem
    ghost var nodes: seq<ListItem>     // the end marker and then the items
    ghost var at: map<ListItem, nat>
    ghost var place: nat               // where among the nodes `index` is

    ghost predicate Valid()
      reads this, nodes
    {
      && Ring(nodes, at, this) && nodes[0] == end
      && end.value as int == MAX_DELAY
      && numberOfItems == |nodes| - 1
      && place < |nodes| && index == nodes[place]
    }

    ghost function Value(): View<ListItem>
      requires |nodes| > 0
      reads this
    {
      View(nodes[1..], place)
    }

    /** The item values in list order. */
    ghost function Values(): seq<int>
      requires |nodes| > 0
      reads this, nodes`value
    {
      ValuesOf(nodes[1..])
    }

    /** vListInitialise */
    constructor ()
      ensures Valid() && Value() == View([], 0)
      ensures fresh(end)
    {
      var e := new ListItem(MAX_DELAY as TickType);
      end, index, nodes := e, e, [e];
      numberOfItems, at, place := 0, map[e := 0], 0;
      new;
      end.next := end;
      end.previous := end;
    }

    /** vListInsertEnd */
    method InsertEnd(x: ListItem)
      requires Valid() && x !in nodes
      modifies this, x`next, x`previous, x`container, index`previous, index.previous`next
      ensures Valid() && Value() == ListView.InsertEnd(old(Value()), x)
    {
      ghost var j := if place == 0 then |nodes| - 1 else place - 1;
      ghost var items := nodes[1..];
      ghost var r, b := Link(this, x, index.previous, index, nodes, at, j);
      assert place == 0 ==> items[..j] == items && items[j..] == [];
      nodes, at, place := r, b, if place == 0 then 0 else place + 1;
      numberOfItems := numberOfItems + 1;
    }

    /** The search of vListInsert: the node behind which `value` goes. */
    method FindPlace(value: TickType) returns (position: ListItem, ghost k: nat)
      requires Valid()
      ensures k < |nodes| && position == nodes[k]
      ensures k == InsertPlace(Values(), value as int)
    {
      if value as int == MAX_DELAY {
        InsertPlaceUnique(Values(), value as int, |nodes| - 1);
        return end.previous, |nodes| - 1;
      }
      position, k := end, 0;
      while position.next.value <= value
        invariant k < |nodes| && position == nodes[k]
        invariant forall i :: 1 <= i <= k ==> nodes[i].value <= value
        decreases |nodes| - k
      {
        position := position.next;
        k := k + 1;
      }
      InsertPlaceUnique(Values(), value as int, k);
    }

    /** The linking step of vListInsert. */
    method InsertBehind(x: ListItem, position: ListItem, ghost k: nat)
      requires Valid() && x !in nodes && k < |nodes| && position == nodes[k]
      modifies this, x`next, x`previous, x`container, position`next, position.next`previous
      ensures Valid() && Value() == InsertAt(old(Value()), k, x)
    {
      ghost var r, b := Link(this, x, position, position.next, nodes, at, k);
      nodes, at, place := r, b, if place > k then place + 1 else place;
      numberOfItems := numberOfItems + 1;
    }

    /** vListInsert */
    method Insert(x: ListItem) returns (ghost k: nat)
      requires Valid() && x !in nodes
      modifies this, x, nodes
      ensures Valid() && k < |old(nodes)| && Value() == InsertAt(old(Value()), k, x)
      ensures k == InsertPlace(old(Values()), old(x.value) as int)
      ensures x.value == old(x.value)
      ensures forall i :: 0 <= i < |old(nodes)| ==> old(nodes)[i].value == old(nodes[i].value)
    {
      var position: ListItem;
      position, k := FindPlace(x.value);
      InsertBehind(x, position, k);
    }

    /** listGET_OWNER_OF_NEXT_ENTRY */
    method Next() returns (x: ListItem)
      requires Valid() && |nodes| > 1
      modifies this`index, this`place
      ensures Valid() && Value() == Advance(old(Value())) && x == Selected(old(Value()))
    {
      index := index.next;
      if index == end {
        index := index.next;
      }
      place := Advance(Value()).index;
      x := index;
    }

    /** The steps of uxListRemove on the list of the item, which is its j-th node. */
    method Detach(x: ListItem, ghost j: nat) returns (left: nat)
      requires Valid() && 0 < j < |nodes| && x == nodes[j]
      requires x.next != null && x.previous != null
      modifies this, x`container, x.next`previous, x.previous`next
      ensures Valid() && x.container == null && left == |nodes| - 1
      ensures nodes[1..] == old(nodes)[1..][..j - 1] + old(nodes)[1..][j..]
      ensures place == if old(place) >= j then old(place) - 1 else old(place)
    {
      ghost var s, p := nodes, place;
      assert index == x <==> p == j;
      assert x.previous == s[j - 1];
      ghost var r, b := Unlink(this, x, x.previous, x.next, s, at, j);
      if index == x {
        index := x.previous;
      }
      place := if p >= j then p - 1 else p;
      assert index == r[place];
      nodes, at := r, b;
      numberOfItems := numberOfItems - 1;
      left := numberOfItems;
    }

    /** listGET_OWNER_OF_HEAD_ENTRY */
    method Head() returns (x: ListItem)
      requires Valid() && |nodes| > 1
      ensures x == Value().items[0]
    {
      x := end.next;
    }
  }

  /** uxListRemove: the item knows its list. Returns how many items are left. */
  method ListRemove(x: ListItem) returns (left: nat)
    requires x.container != null && x.container.Valid() && x in x.container.nodes[1..]
    requires x.next != null && x.previous != null
    modifies x`container, x.container, x.next`previous, x.previous`next
    ensures var list := old(x.container);
            && list.Valid() && list.Value() == Remove(old(list.Value()), x)
            && left == |list.Value().items|
    ensures x.container == null
  {
    var list := x.container;
    PlaceOf(list.nodes, list.at, x);
    left := list.Detach(x, list.at[x]);
  }

  // ---------------------------------------------------------------------------------------------
  // Order of a list that is filled by vListInsert only.

  ghost predicate Sorted(values: seq<int>) {
    forall i, j :: 0 <= i < j < |values| ==> values[i] <= values[j]
  }

  /** The place the search loop of vListInsert finds: behind every value not larger than `v`. */
  function InsertPlace(values: seq<int>, v: int): (k: nat)
    ensures k <= |values|
    ensures forall i :: 0 <= i < k ==> values[i] <= v
    ensures k < |values| ==> values[k] > v
  {
    if values == [] || values[0] > v then 0 else 1 + InsertPlace(values[1..], v)
  }

  lemma InsertPlaceUnique(values: seq<int>, v: int, k: nat)
    requires k <= |values| && (forall i :: 0 <= i < k ==> values[i] <= v)
    requires k < |values| ==> values[k] > v
    ensures InsertPlace(values, v) == k
  {
  }

  /** Sorted stays sorted, and equal values keep the order in which they were inserted. */
  lemma InsertKeepsSorted(values: seq<int>, v: int)
    requires Sorted(values)
    ensures var k := InsertPlace(values, v);
            && Sorted(values[..k] + [v] + values[k..])
            && (forall i :: 0 <= i < |values| ==> (values[i] <= v <==> i < k))
  {
  }
}
