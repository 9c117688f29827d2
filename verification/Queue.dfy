/** The storage of a queue (FreeRTOS/queue.c): a ring of `length` items of `size` bytes. The read
    pointer lags behind: it is at the item that was read last. */
module Queue {

  datatype Position = ToBack | ToFront | Overwrite

  type Item = seq<int>

  lemma SlotInside(s: nat, length: nat, size: nat)
    requires s < length
    ensures 0 <= s * size && s * size + size <= length * size
  {
    assert (s + 1) * size <= length * size by { Scale(s + 1, length, size); }
  }

  lemma Scale(a: nat, b: nat, size: nat)
    requires a <= b
    ensures a * size <= b * size
  {
    assert b * size == a * size + (b - a) * size;
  }

  lemma SlotsApart(a: nat, b: nat, size: nat)
    requires a < b
    ensures a * size + size <= b * size
  {
    Scale(a + 1, b, size);
  }

  /** The next slot, and the one before, by their byte offsets */
  lemma NextSlot(s: nat, length: nat, size: nat)
    requires s < length
    ensures (s + 1) % length == if s + 1 < length then s + 1 else 0
    ensures (if s * size + size >= length * size then 0 else s * size + size) == (s + 1) % length * size
  {
    SlotInside(s, length, size);
    if s + 1 < length { SlotInside(s + 1, length, size); }
  }

  lemma PreviousSlot(s: nat, length: nat, size: nat)
    requires s < length
    ensures (s + length - 1) % length == if s > 0 then s - 1 else length - 1
    ensures (if s * size - size < 0 then length * size - size else s * size - size) == (s + length - 1) % length * size
  {
    SlotInside(s, length, size);
    if s > 0 {
      Wrap(s - 1, length);
      assert (s - 1) * size == s * size - size;
    } else {
      assert (length - 1) * size == length * size - size;
    }
  }

  lemma Wrap(x: nat, length: nat)
    requires x < length
    ensures x % length == x && (x + length) % length == x
  {
  }

  lemma AddOne(a: nat, length: nat)
    requires length > 0
    ensures (a % length + 1) % length == (a + 1) % length
    ensures (a + length) % length == a % length
  {
    var q := a / length;
    assert a == q * length + a % length;
    Multiple(q, a % length + 1, length);
    Multiple(1, a, length);
  }

  lemma Multiple(q: int, x: int, length: nat)
    requires length > 0
    ensures (q * length + x) % length == x % length
  {
    var y := x / length;
    assert x == y * length + x % length;
    assert q * length + x == (q + y) * length + x % length;
    Unique(q * length + x, q + y, x % length, length);
  }

  lemma Unique(x: int, q: int, r: int, n: nat)
    requires n > 0 && x == q * n + r && 0 <= r < n
    ensures x % n == r
  {
    var q2 := x / n;
    assert x == q2 * n + x % n;
    assert (q - q2) * n == x % n - r && (q2 - q) * n == r - x % n;
    if q - q2 >= 1 { Scale(1, q - q2, n); }
    if q2 - q >= 1 { Scale(1, q2 - q, n); }
  }

  lemma ShiftBase(a: nat, i: nat, length: nat)
    requires length > 0
    ensures (a % length + i) % length == (a + i) % length
  {
    assert a == a / length * length + a % length;
    Multiple(a / length, a % length + i, length);
  }

  /** Putting an item in front does not move the place for the next one at the back. */
  lemma FrontSlot(r: nat, n: nat, length: nat)
    requires length > 0
    ensures ((r + length - 1) % length + 1 + (n + 1)) % length == (r + 1 + n) % length
  {
    ShiftBase(r + length - 1, n + 2, length);
    AddOne(r + n + 1, length);
  }

  /** Slots of different places in the queue differ. */
  lemma SlotsDiffer(base: nat, i: nat, j: nat, length: nat)
    requires i < j && j - i < length
    ensures (base + i) % length != (base + j) % length
  {
    var a, b := (base + i) / length, (base + j) / length;
    assert base + i == a * length + (base + i) % length;
    assert base + j == b * length + (base + j) % length;
    assert (b - a) * length == j - i + ((base + i) % length - (base + j) % length);
    assert (a - b) * length == i - j + ((base + j) % length - (base + i) % length);
    if b - a >= 1 { Scale(1, b - a, length); } else { Scale(0, a - b, length); }
  }

  // --- the ring as a value ---------------------------------------------------------------------

  /** The `n` items behind the read pointer */
  function Window(slots: seq<Item>, r: nat, n: nat): (c: seq<Item>)
    requires |slots| > 0
    ensures |c| == n && forall i {:trigger c[i]} :: 0 <= i < n ==> c[i] == slots[(r + 1 + i) % |slots|]
  {
    seq(n, i requires 0 <= i < n => slots[(r + 1 + i) % |slots|])
  }

  lemma WindowBack(slots: seq<Item>, r: nat, n: nat, item: Item)
    requires n < |slots|
    ensures var w := (r + 1 + n) % |slots|; Window(slots[w := item], r, n + 1) == Window(slots, r, n) + [item]
  {
    var w := (r + 1 + n) % |slots|;
    forall i | 0 <= i < n ensures Window(slots[w := item], r, n + 1)[i] == Window(slots, r, n)[i] {
      SlotsDiffer(r + 1, i, n, |slots|);
    }
  }

  lemma WindowFront(slots: seq<Item>, r: nat, n: nat, item: Item)
    requires n < |slots| && r < |slots|
    ensures Window(slots[r := item], (r + |slots| - 1) % |slots|, n + 1) == [item] + Window(slots, r, n)
  {
    var length := |slots|;
    var r2 := (r + length - 1) % length;
    var after, before := Window(slots[r := item], r2, n + 1), Window(slots, r, n);
    ShiftBase(r + length - 1, 1, length);
    AddOne(r, length);
    Wrap(r, length);
    assert after[0] == item;
    forall i {:trigger before[i]} | 0 <= i < n ensures after[i + 1] == before[i] {
      ShiftBase(r + length - 1, i + 2, length);
      AddOne(r + 1 + i, length);
      SlotsDiffer(r, 0, i + 1, length);
    }
  }

  lemma WindowPop(slots: seq<Item>, r: nat, n: nat)
    requires 0 < n <= |slots| && r < |slots|
    ensures Window(slots, r, n) == [slots[(r + 1) % |slots|]] + Window(slots, (r + 1) % |slots|, n - 1)
  {
    var c, d := Window(slots, r, n), Window(slots, (r + 1) % |slots|, n - 1);
    forall i {:trigger d[i]} | 0 <= i < n - 1 ensures d[i] == c[i + 1] {
      ShiftBase(r + 1, i + 1, |slots|);
    }
  }

  class Queue {
    const length: nat
    const size: nat
    const storage: array<int>
    var writeTo: int
    var readFrom: int
    var messagesWaiting: nat
    /** the slot of `readFrom` */
    ghost var r: nat

    ghost predicate Valid()
      reads this
    {
      && length > 0 && storage.Length == length * size && messagesWaiting <= length && r < length
      && readFrom == r * size && writeTo == (r + 1 + messagesWaiting) % length * size
    }

    ghost function ItemAt(s: nat): Item
      requires storage.Length == length * size && s < length
      reads storage
    {
      SlotInside(s, length, size);
      storage[s * size..s * size + size]
    }

    ghost function Slots(): (c: seq<Item>)
      requires storage.Length == length * size
      reads storage
      ensures |c| == length && forall s {:trigger c[s]} :: 0 <= s < length ==> c[s] == ItemAt(s)
    {
      seq(length, s requires 0 <= s < length && storage.Length == length * size reads storage => ItemAt(s))
    }

    /** The items in the queue, the oldest first */
    ghost function Contents(): seq<Item>
      requires Valid()
      reads this, storage
    {
      Window(Slots(), r, messagesWaiting)
    }

    lemma Fits()
      requires Valid()
      ensures |Contents()| == messagesWaiting <= length
    {
    }

    /** xQueueGenericCreate */
    constructor (length: nat, size: nat)
      requires length > 0
      ensures Valid() && Contents() == [] && this.length == length && this.size == size && fresh(storage)
    {
      this.length, this.size := length, size;
      storage := new int[length * size];
      new;
      Reset();
    }

    /** The pointers and the count in xQueueGenericReset */
    method Reset()
      requires length > 0 && storage.Length == length * size
      modifies this
      ensures Valid() && Contents() == [] && messagesWaiting == 0
    {
      messagesWaiting := 0;
      writeTo := 0;
      readFrom := (length - 1) * size;
      r := length - 1;
      NextSlot(length - 1, length, size);
    }

    /** memcpy of one item into the slot at byte offset `offset` */
    method Put(offset: int, item: Item, ghost s: nat)
      requires storage.Length == length * size && s < length && offset == s * size && |item| == size
      modifies storage
      ensures Slots() == old(Slots())[s := item]
    {
      SlotInside(s, length, size);
      forall i | 0 <= i < size {
        storage[offset + i] := item[i];
      }
      assert ItemAt(s) == item;
      forall t | 0 <= t < length && t != s ensures ItemAt(t) == old(ItemAt(t)) {
        SlotInside(t, length, size);
        if t < s { SlotsApart(t, s, size); } else { SlotsApart(s, t, size); }
      }
    }

    /** prvCopyDataToQueue. `Overwrite` is for queues of one item. Without data (a semaphore), that count
        is not taken back, and an overwrite of a full one leaves it with more than it can hold. */
    method CopyTo(item: Item, position: Position)
      requires Valid() && |item| == size && (messagesWaiting < length || position.Overwrite?) && (position.Overwrite? ==> length == 1)
      modifies this, storage
      ensures Valid() <==> !(position.Overwrite? && size == 0 && old(messagesWaiting) == length)
      ensures !Valid() ==> messagesWaiting == length + 1
      ensures Valid() ==> Contents() == match position
                                        case ToBack => old(Contents()) + [item]
                                        case ToFront => [item] + old(Contents())
                                        case Overwrite => [item]
    {
      if size == 0 {
        NoData();
        messagesWaiting := messagesWaiting + 1;
        if messagesWaiting <= length { NoData(); }
      } else if position.ToBack? {
        CopyBack(item);
      } else {
        CopyFront(item, position);
      }
    }

    lemma NoData()
      requires Valid() && size == 0
      ensures forall i {:trigger Contents()[i]} :: 0 <= i < messagesWaiting ==> Contents()[i] == []
      ensures |Contents()| == messagesWaiting
    {
    }

    method CopyBack(item: Item)
      requires Valid() && |item| == size && messagesWaiting < length
      modifies this, storage
      ensures Valid() && Contents() == old(Contents()) + [item]
    {
      ghost var w := (r + 1 + messagesWaiting) % length;
      WindowBack(Slots(), r, messagesWaiting, item);
      AddOne(r + 1 + messagesWaiting, length);
      Put(writeTo, item, w);
      NextSlot(w, length, size);
      writeTo := writeTo + size;
      if writeTo >= length * size {
        writeTo := 0;
      }
      messagesWaiting := messagesWaiting + 1;
    }

    method CopyFront(item: Item, position: Position)
      requires Valid() && |item| == size && !position.ToBack? && (position.Overwrite? ==> length == 1)
      requires messagesWaiting < length || position.Overwrite?
      modifies this, storage
      ensures Valid() && Contents() == if position.Overwrite? then [item] else [item] + old(Contents())
    {
      hide Window;
      var waiting := messagesWaiting;
      if position.Overwrite? {
        if waiting > 0 {
          waiting := waiting - 1;
        }
      }
      WindowFront(Slots(), r, waiting, item);
      PreviousSlot(r, length, size);
      FrontSlot(r, waiting, length);
      Put(readFrom, item, r);
      readFrom := readFrom - size;
      if readFrom < 0 {
        readFrom := length * size - size;
      }
      r := (r + length - 1) % length;
      messagesWaiting := waiting + 1;
    }

    /** prvCopyDataFromQueue: it moves the read pointer, and the caller takes the item off the count. */
    method CopyFrom() returns (item: Item)
      requires Valid() && messagesWaiting > 0
      modifies `readFrom, `r
      ensures item == Slots()[(old(r) + 1) % length] && r == (old(r) + 1) % length && readFrom == r * size
    {
      NextSlot(r, length, size);
      item := [];
      r := (r + 1) % length;
      SlotInside(r, length, size);
      if size != 0 {
        readFrom := readFrom + size;
        if readFrom >= length * size {
          readFrom := 0;
        }
        item := storage[readFrom..readFrom + size];
      }
      assert item == ItemAt(r);
    }

    /** The critical section of xQueueGenericSend and xQueueGenericSendFromISR */
    method Send(item: Item, position: Position) returns (sent: bool)
      requires Valid() && |item| == size && (position.Overwrite? ==> length == 1)
      modifies this, storage
      ensures sent <==> |old(Contents())| < length || position.Overwrite?
      ensures Valid() <==> !(position.Overwrite? && size == 0 && old(messagesWaiting) == length)
      ensures !Valid() ==> messagesWaiting == length + 1
      ensures Valid() ==> Contents() == if !sent then old(Contents()) else match position
                                        case ToBack => old(Contents()) + [item]
                                        case ToFront => [item] + old(Contents())
                                        case Overwrite => [item]
    {
      sent := messagesWaiting < length || position.Overwrite?;
      if sent {
        CopyTo(item, position);
      }
    }

    /** The critical section of xQueueReceive and xQueueReceiveFromISR */
    method Receive() returns (received: bool, item: Item)
      requires Valid()
      modifies this
      ensures Valid() && (received <==> old(Contents()) != [])
      ensures if received then old(Contents()) == [item] + Contents() else Contents() == old(Contents())
    {
      received, item := messagesWaiting > 0, [];
      if received {
        WindowPop(Slots(), r, messagesWaiting);
        ShiftBase(r + 1, messagesWaiting, length);
        item := CopyFrom();
        messagesWaiting := messagesWaiting - 1;
      }
    }

    /** The critical section of xQueuePeek: the read pointer is put back. */
    method Peek() returns (found: bool, item: Item)
      requires Valid()
      modifies `readFrom, `r
      ensures Valid() && Contents() == old(Contents()) && (found <==> Contents() != []) && (found ==> item == Contents()[0])
    {
      found, item := messagesWaiting > 0, [];
      if found {
        ghost var r0 := r;
        var originalReadPosition := readFrom;
        item := CopyFrom();
        readFrom, r := originalReadPosition, r0;
      }
    }
  }

  /** A queue of one item without data holds two after it was filled and overwritten. */
  method Overcounted() returns (waiting: nat)
    ensures waiting == 2
  {
    var q := new Queue(1, 0);
    var sent := q.Send([], ToBack);
    assert |q.Contents()| == q.messagesWaiting;
    sent := q.Send([], Overwrite);
    waiting := q.messagesWaiting;
  }
}
