/** Locked queues (FreeRTOS/queue.c): while a task has a queue locked, interrupts that post to it or
    receive from it leave its lists of waiting tasks alone and count instead; unlocking catches up. */
module QueueLocks {
  import opened ListView
  import opened TaskLists
  import opened SchedulerState
  import opened Scheduler
  import opened Queue

  const UNLOCKED: int := -1
  const LOCKED_UNMODIFIED: int := 0

  /** The cast to int8_t */
  function Int8(x: int): int { (x + 128) % 256 - 128 }

  function Min(a: int, b: int): int { if a < b then a else b }

  function Positive(lock: int): int { if lock > 0 then lock else 0 }

  /** How many posts a locked queue can account for: the count overflows at 128, and at 255 it is the
      value of an unlocked queue, after which every post wakes a task itself. */
  function Accounted(posts: nat): nat {
    if posts <= 127 then posts else if posts <= 255 then 0 else posts - 255
  }

  /** No wake-up is lost exactly up to 127 posts, if there is nobody to wake, or if the posts beyond 255 suffice. */
  lemma WakeUpsKept(posts: nat, waiting: nat)
    ensures Min(Accounted(posts), waiting) == Min(posts, waiting) <==>
              posts <= 127 || waiting == 0 || (posts > 255 && waiting <= posts - 255)
  {
  }

  lemma LockStep(posts: nat)
    ensures if LockValue(posts) == UNLOCKED then posts >= 255 && LockValue(posts + 1) == UNLOCKED
            else posts < 255 && Int8(LockValue(posts) + 1) == LockValue(posts + 1)
  {
  }

  /** The lock count after so many posts, and how many of them woke a task themselves */
  function LockValue(posts: nat): int {
    if posts <= 127 then posts else if posts <= 255 then posts - 256 else UNLOCKED
  }

  function Direct(posts: nat): nat { if posts <= 255 then 0 else posts - 255 }

  /** The waiters woken at once and those woken by the count are all that can be accounted for. */
  lemma AccountedFor(posts: nat)
    ensures forall n: nat :: Min(Min(Direct(posts), n) + Positive(LockValue(posts)), n) == Min(Accounted(posts), n)
  {
  }

  /** The task should run at once. */
  predicate Outranks(tcb: map<Task, Tcb>, current: Task, t: Task) {
    t in tcb && current in tcb && tcb[t].priority > tcb[current].priority
  }

  /** One of the tasks should. */
  ghost predicate AnyOutranks(tcb: map<Task, Tcb>, current: Task, tasks: seq<Task>) {
    exists i {:trigger tasks[i]} :: 0 <= i < |tasks| && Outranks(tcb, current, tasks[i])
  }

  lemma OneMoreOutranks(tcb: map<Task, Tcb>, current: Task, tasks: seq<Task>, a: int, b: int)
    requires 0 <= a <= b < |tasks|
    ensures AnyOutranks(tcb, current, tasks[a..b + 1]) <==> AnyOutranks(tcb, current, tasks[a..b]) || Outranks(tcb, current, tasks[b])
  {
    hide Outranks;
    var more, less := tasks[a..b + 1], tasks[a..b];
    assert more == less + [tasks[b]];
    assert more[|less|] == tasks[b];
    forall i {:trigger less[i]} | 0 <= i < |less| ensures more[i] == less[i] {}
  }

  class LockedQueue {
    const ring: Queue
    const s: Scheduler
    const toReceive: nat
    const toSend: nat
    var rxLock: int
    var txLock: int

    /** All but the items */
    ghost predicate Wired()
      reads this, s
    {
      && s.Valid() && toReceive != toSend && Event(toReceive) in s.E && Event(toSend) in s.E
      && -128 <= rxLock < 128 && -128 <= txLock < 128
    }

    ghost predicate Valid()
      reads this, ring, s
    {
      ring.Valid() && Wired()
    }

    function Waiters(e: nat): seq<Task>
      reads s`E
    {
      if Event(e) in s.E then s.E[Event(e)].items else []
    }

    constructor (ring: Queue, s: Scheduler, toReceive: nat, toSend: nat)
      requires ring.Valid() && s.Valid() && toReceive != toSend && Event(toReceive) in s.E && Event(toSend) in s.E
      ensures Valid() && this.ring == ring && this.s == s && this.toReceive == toReceive && this.toSend == toSend
      ensures rxLock == UNLOCKED && txLock == UNLOCKED
    {
      this.ring, this.s, this.toReceive, this.toSend := ring, s, toReceive, toSend;
      rxLock, txLock := UNLOCKED, UNLOCKED;
    }

    /** prvLockQueue */
    method Lock()
      requires Valid()
      modifies this
      ensures Valid()
      ensures rxLock == (if old(rxLock) == UNLOCKED then LOCKED_UNMODIFIED else old(rxLock))
      ensures txLock == (if old(txLock) == UNLOCKED then LOCKED_UNMODIFIED else old(txLock))
    {
      if rxLock == UNLOCKED {
        rxLock := LOCKED_UNMODIFIED;
      }
      if txLock == UNLOCKED {
        txLock := LOCKED_UNMODIFIED;
      }
    }

    /** Wake the first task in a list of waiters, if there is one. */
    method WakeOne(e: nat) returns (higher: bool)
      requires Wired() && Event(e) in s.E
      modifies s
      ensures Wired() && s.suspended == old(s.suspended) && s.E.Keys == old(s.E.Keys)
      ensures Waiters(e) == if old(Waiters(e)) == [] then [] else old(Waiters(e))[1..]
      ensures s.waits == if old(Waiters(e)) == [] then old(s.waits)
                         else if s.suspended == 0 then old(s.waits) - {old(Waiters(e))[0]}
                         else old(s.waits)[old(Waiters(e))[0] := Pending]
      ensures forall d {:trigger Waiters(d)} :: d != e ==> Waiters(d) == old(Waiters(d))
      ensures higher <==> old(Waiters(e)) != [] && Outranks(s.tcb, s.current, old(Waiters(e))[0])
      ensures s.tcb == old(s.tcb) && s.current == old(s.current) && s.yieldPending == (old(s.yieldPending) || higher)
      ensures if old(Waiters(e)) == [] || s.suspended > 0 then s.at == old(s.at)
              else old(Waiters(e))[0] in s.tcb && s.at == old(s.at)[old(Waiters(e))[0] := Ready(s.tcb[old(Waiters(e))[0]].priority)]
    {
      hide Scheduler.Running;
      higher := false;
      if s.E[Event(e)].items != [] {
        RemoveFirst(s.E[Event(e)]);
        higher := s.RemoveFromEventList(e);
      }
    }

    /** prvUnlockQueue, with the scheduler suspended: as many receivers are released as there were posts,
        and as many senders as there were receptions, as far as the counts tell. Both locks are open then. */
    method Unlock()
      requires Valid() && s.suspended > 0
      modifies this, s
      ensures Valid() && s.suspended == old(s.suspended) && txLock == UNLOCKED && rxLock == UNLOCKED
      ensures Released(old(Waiters(toReceive)), Waiters(toReceive), s.waits, Min(Positive(old(txLock)), |old(Waiters(toReceive))|))
      ensures Released(old(Waiters(toSend)), Waiters(toSend), s.waits, Min(Positive(old(rxLock)), |old(Waiters(toSend))|))
      ensures s.tcb == old(s.tcb) && s.current == old(s.current) && s.at == old(s.at)
      ensures s.yieldPending <==>
                || old(s.yieldPending)
                || AnyOutranks(s.tcb, s.current, old(Waiters(toReceive))[..Min(Positive(old(txLock)), |old(Waiters(toReceive))|)])
                || AnyOutranks(s.tcb, s.current, old(Waiters(toSend))[..Min(Positive(old(rxLock)), |old(Waiters(toSend))|)])
    {
      hide Scheduler.Running, Released, AnyOutranks;
      NoneReleased(Waiters(toReceive), s.waits);
      NoneReleased(Waiters(toSend), s.waits);
      UnlockFrom(Waiters(toReceive), 0, Waiters(toSend), 0);
      assert old(Waiters(toReceive))[0..Min(Positive(old(txLock)), |old(Waiters(toReceive))|)] == old(Waiters(toReceive))[..Min(Positive(old(txLock)), |old(Waiters(toReceive))|)];
      assert old(Waiters(toSend))[0..Min(Positive(old(rxLock)), |old(Waiters(toSend))|)] == old(Waiters(toSend))[..Min(Positive(old(rxLock)), |old(Waiters(toSend))|)];
    }

    /** The same, when the first `n` of some receivers and the first `m` of some senders have been
        released already */
    method UnlockFrom(ghost receivers: seq<Task>, ghost n: int, ghost senders: seq<Task>, ghost m: int)
      requires Valid() && s.suspended > 0
      requires Released(receivers, Waiters(toReceive), s.waits, n) && Released(senders, Waiters(toSend), s.waits, m)
      modifies this, s
      ensures Valid() && s.suspended == old(s.suspended) && txLock == UNLOCKED && rxLock == UNLOCKED
      ensures Released(receivers, Waiters(toReceive), s.waits, Min(n + Positive(old(txLock)), |receivers|))
      ensures Released(senders, Waiters(toSend), s.waits, Min(m + Positive(old(rxLock)), |senders|))
      ensures s.tcb == old(s.tcb) && s.current == old(s.current) && s.at == old(s.at)
      ensures 0 <= n <= |receivers| && 0 <= m <= |senders|
      ensures s.yieldPending <==>
                || old(s.yieldPending)
                || AnyOutranks(s.tcb, s.current, receivers[n..Min(n + Positive(old(txLock)), |receivers|)])
                || AnyOutranks(s.tcb, s.current, senders[m..Min(m + Positive(old(rxLock)), |senders|)])
    {
      hide Scheduler.Running, Released, AnyOutranks;
      ReleasedCount(receivers, Waiters(toReceive), s.waits, n);
      ReleasedCount(senders, Waiters(toSend), s.waits, m);
      UnlockTx(receivers, n, senders, m);
      UnlockRx(receivers, Min(n + Positive(old(txLock)), |receivers|), senders, m);
    }

    method UnlockTx(ghost receivers: seq<Task>, ghost n0: int, ghost senders: seq<Task>, ghost m: int)
      requires Valid() && s.suspended > 0
      requires Released(receivers, Waiters(toReceive), s.waits, n0) && Released(senders, Waiters(toSend), s.waits, m)
      modifies `txLock, s
      ensures Valid() && s.suspended == old(s.suspended) && txLock == UNLOCKED
      ensures Released(receivers, Waiters(toReceive), s.waits, Min(n0 + Positive(old(txLock)), |receivers|))
      ensures Released(senders, Waiters(toSend), s.waits, m)
      ensures s.tcb == old(s.tcb) && s.current == old(s.current) && s.at == old(s.at)
      ensures 0 <= n0 <= |receivers|
      ensures s.yieldPending <==>
                old(s.yieldPending) || AnyOutranks(s.tcb, s.current, receivers[n0..Min(n0 + Positive(old(txLock)), |receivers|)])
    {
      hide Scheduler.Running, Released, AnyOutranks, Outranks;
      var lock := txLock;
      ghost var n := n0;
      ReleasedCount(receivers, Waiters(toReceive), s.waits, n);
      NoneOutranks(s.tcb, s.current, receivers, n0);
      while lock > LOCKED_UNMODIFIED
        invariant Valid() && s.suspended == old(s.suspended)
        invariant 0 <= n0 <= n <= |receivers| && |Waiters(toReceive)| == |receivers| - n
        invariant lock == old(txLock) - (n - n0)
        invariant Released(receivers, Waiters(toReceive), s.waits, n) && Released(senders, Waiters(toSend), s.waits, m)
        invariant if old(txLock) > 0 then n - n0 <= old(txLock) else n == n0
        invariant s.tcb == old(s.tcb) && s.current == old(s.current) && s.at == old(s.at)
        invariant s.yieldPending <==> old(s.yieldPending) || AnyOutranks(s.tcb, s.current, receivers[n0..n])
        decreases lock
      {
        if s.E[Event(toReceive)].items != [] {
          ghost var t := Waiters(toReceive)[0];
          ReleasedOne(receivers, Waiters(toReceive), s.waits, n);
          FirstReleased(receivers, Waiters(toReceive), s.waits, n);
          OneMoreOutranks(s.tcb, s.current, receivers, n0, n);
          ReleasedOther(senders, Waiters(toSend), s.waits, m, t);
          var higher := WakeOne(toReceive);
          if higher { s.MissedYield(); }
          n := n + 1;
        } else {
          break;
        }
        lock := lock - 1;
      }
      txLock := UNLOCKED;
    }

    method UnlockRx(ghost receivers: seq<Task>, ghost m: int, ghost senders: seq<Task>, ghost n0: int)
      requires Valid() && s.suspended > 0
      requires Released(receivers, Waiters(toReceive), s.waits, m) && Released(senders, Waiters(toSend), s.waits, n0)
      modifies `rxLock, s
      ensures Valid() && s.suspended == old(s.suspended) && rxLock == UNLOCKED
      ensures Released(receivers, Waiters(toReceive), s.waits, m)
      ensures Released(senders, Waiters(toSend), s.waits, Min(n0 + Positive(old(rxLock)), |senders|))
      ensures s.tcb == old(s.tcb) && s.current == old(s.current) && s.at == old(s.at)
      ensures 0 <= n0 <= |senders|
      ensures s.yieldPending <==>
                old(s.yieldPending) || AnyOutranks(s.tcb, s.current, senders[n0..Min(n0 + Positive(old(rxLock)), |senders|)])
    {
      hide Scheduler.Running, Released, AnyOutranks, Outranks;
      var lock := rxLock;
      ghost var n := n0;
      ReleasedCount(senders, Waiters(toSend), s.waits, n);
      NoneOutranks(s.tcb, s.current, senders, n0);
      while lock > LOCKED_UNMODIFIED
        invariant Valid() && s.suspended == old(s.suspended)
        invariant 0 <= n0 <= n <= |senders| && |Waiters(toSend)| == |senders| - n
        invariant lock == old(rxLock) - (n - n0)
        invariant Released(receivers, Waiters(toReceive), s.waits, m) && Released(senders, Waiters(toSend), s.waits, n)
        invariant if old(rxLock) > 0 then n - n0 <= old(rxLock) else n == n0
        invariant s.tcb == old(s.tcb) && s.current == old(s.current) && s.at == old(s.at)
        invariant s.yieldPending <==> old(s.yieldPending) || AnyOutranks(s.tcb, s.current, senders[n0..n])
        decreases lock
      {
        if s.E[Event(toSend)].items != [] {
          ghost var t := Waiters(toSend)[0];
          ReleasedOne(senders, Waiters(toSend), s.waits, n);
          FirstReleased(senders, Waiters(toSend), s.waits, n);
          OneMoreOutranks(s.tcb, s.current, senders, n0, n);
          ReleasedOther(receivers, Waiters(toReceive), s.waits, m, t);
          var higher := WakeOne(toSend);
          if higher { s.MissedYield(); }
          n := n + 1;
          lock := lock - 1;
        } else {
          break;
        }
      }
      rxLock := UNLOCKED;
    }

    /** xQueueGenericSendFromISR. Overwriting a full queue without data counts one item too many, as in
        `Queue.CopyTo`. */
    method SendFromISR(item: Item, position: Position) returns (sent: bool, woken: bool)
      requires Valid() && |item| == ring.size && (position.Overwrite? ==> ring.length == 1)
      modifies this, ring, ring.storage, s
      ensures Wired() && s.suspended == old(s.suspended) && rxLock == old(rxLock)
      ensures Valid() <==> !(position.Overwrite? && ring.size == 0 && old(ring.messagesWaiting) == ring.length)
      ensures !Valid() ==> ring.messagesWaiting == ring.length + 1
      ensures (sent <==> |old(ring.Contents())| < ring.length || position.Overwrite?)
      ensures Valid() ==> ring.Contents() == if !sent then old(ring.Contents()) else match position
                                              case ToBack => old(ring.Contents()) + [item]
                                              case ToFront => [item] + old(ring.Contents())
                                              case Overwrite => [item]
      ensures txLock == if sent && old(txLock) != UNLOCKED then Int8(old(txLock) + 1) else old(txLock)
      ensures if sent && old(txLock) == UNLOCKED && old(Waiters(toReceive)) != [] then
                Waiters(toReceive) == old(Waiters(toReceive))[1..]
                && s.waits == (if s.suspended == 0 then old(s.waits) - {old(Waiters(toReceive))[0]} else old(s.waits)[old(Waiters(toReceive))[0] := Pending])
              else Waiters(toReceive) == old(Waiters(toReceive)) && s.waits == old(s.waits)
      ensures forall d {:trigger Waiters(d)} :: d != toReceive ==> Waiters(d) == old(Waiters(d))
      ensures woken <==> sent && old(txLock) == UNLOCKED && old(Waiters(toReceive)) != []
                         && Outranks(s.tcb, s.current, old(Waiters(toReceive))[0])
      ensures s.tcb == old(s.tcb) && s.current == old(s.current) && s.yieldPending == (old(s.yieldPending) || woken)
      ensures if sent && old(txLock) == UNLOCKED && old(Waiters(toReceive)) != [] && s.suspended == 0 then
                old(Waiters(toReceive))[0] in s.tcb && s.at == old(s.at)[old(Waiters(toReceive))[0] := Ready(s.tcb[old(Waiters(toReceive))[0]].priority)]
              else s.at == old(s.at)
    {
      hide Scheduler.Running;
      woken := false;
      var lock := txLock;
      sent := ring.Send(item, position);
      if sent {
        if lock == UNLOCKED {
          woken := WakeOne(toReceive);
        } else {
          txLock := Int8(lock + 1);
        }
      }
    }

    /** xQueueReceiveFromISR */
    method ReceiveFromISR() returns (received: bool, item: Item, woken: bool)
      requires Valid()
      modifies this, ring, s
      ensures Valid() && s.suspended == old(s.suspended) && txLock == old(txLock)
      ensures (received <==> old(ring.Contents()) != [])
      ensures if received then old(ring.Contents()) == [item] + ring.Contents() else ring.Contents() == old(ring.Contents())
      ensures rxLock == if received && old(rxLock) != UNLOCKED then Int8(old(rxLock) + 1) else old(rxLock)
      ensures if received && old(rxLock) == UNLOCKED && old(Waiters(toSend)) != [] then
                Waiters(toSend) == old(Waiters(toSend))[1..]
                && s.waits == (if s.suspended == 0 then old(s.waits) - {old(Waiters(toSend))[0]} else old(s.waits)[old(Waiters(toSend))[0] := Pending])
              else Waiters(toSend) == old(Waiters(toSend)) && s.waits == old(s.waits)
      ensures forall d {:trigger Waiters(d)} :: d != toSend ==> Waiters(d) == old(Waiters(d))
      ensures woken <==> received && old(rxLock) == UNLOCKED && old(Waiters(toSend)) != []
                         && Outranks(s.tcb, s.current, old(Waiters(toSend))[0])
      ensures s.tcb == old(s.tcb) && s.current == old(s.current) && s.yieldPending == (old(s.yieldPending) || woken)
      ensures if received && old(rxLock) == UNLOCKED && old(Waiters(toSend)) != [] && s.suspended == 0 then
                old(Waiters(toSend))[0] in s.tcb && s.at == old(s.at)[old(Waiters(toSend))[0] := Ready(s.tcb[old(Waiters(toSend))[0]].priority)]
              else s.at == old(s.at)
    {
      hide Scheduler.Running;
      woken := false;
      received, item := ring.Receive();
      if received {
        var lock := rxLock;
        if lock == UNLOCKED {
          woken := WakeOne(toSend);
        } else {
          rxLock := Int8(lock + 1);
        }
      }
    }

    /** The queue is locked and had so many posts and receptions since. */
    ghost predicate Busy(receivers: seq<Task>, senders: seq<Task>, posts: nat, taken: nat)
      reads this, ring, s
    {
      && Valid() && s.suspended > 0 && txLock == LockValue(posts) && rxLock == LockValue(taken)
      && Released(receivers, Waiters(toReceive), s.waits, Min(Direct(posts), |receivers|))
      && Released(senders, Waiters(toSend), s.waits, Min(Direct(taken), |senders|))
    }

    lemma NotBusy(receivers: seq<Task>, senders: seq<Task>)
      requires Valid() && s.suspended > 0 && rxLock == txLock == LOCKED_UNMODIFIED
      requires Released(receivers, Waiters(toReceive), s.waits, 0) && Released(senders, Waiters(toSend), s.waits, 0)
      ensures Busy(receivers, senders, 0, 0)
    {
    }

    lemma BusyParts(receivers: seq<Task>, senders: seq<Task>, posts: nat, taken: nat)
      requires Busy(receivers, senders, posts, taken)
      ensures Valid() && s.suspended > 0 && txLock == LockValue(posts) && rxLock == LockValue(taken)
      ensures Released(receivers, Waiters(toReceive), s.waits, Min(Direct(posts), |receivers|))
      ensures Released(senders, Waiters(toSend), s.waits, Min(Direct(taken), |senders|))
    {
    }

    method PostOne(item: Item, ghost receivers: seq<Task>, ghost senders: seq<Task>, ghost posts: nat, ghost taken: nat) returns (sent: bool)
      requires Busy(receivers, senders, posts, taken) && ring.Valid() && |item| == ring.size
      modifies this, ring, ring.storage, s
      ensures Busy(receivers, senders, if sent then posts + 1 else posts, taken) && ring.Valid()
      ensures (sent <==> |old(ring.Contents())| < ring.length) && ring.Contents() == old(ring.Contents()) + if sent then [item] else []
    {
      hide Scheduler.Running, Scheduler.Valid, Queue.Valid, Queue.Contents, Released, LockValue, Int8;
      LockStep(posts);
      ReleasedCount(receivers, Waiters(toReceive), s.waits, Min(Direct(posts), |receivers|));
      if Waiters(toReceive) != [] {
        ReleasedOne(receivers, Waiters(toReceive), s.waits, Min(Direct(posts), |receivers|));
        ReleasedOther(senders, Waiters(toSend), s.waits, Min(Direct(taken), |senders|), Waiters(toReceive)[0]);
      }
      var woken;
      sent, woken := SendFromISR(item, ToBack);
    }

    method TakeOne(ghost receivers: seq<Task>, ghost senders: seq<Task>, ghost posts: nat, ghost taken: nat) returns (received: bool, item: Item)
      requires Busy(receivers, senders, posts, taken) && ring.Valid()
      modifies this, ring, s
      ensures Busy(receivers, senders, posts, if received then taken + 1 else taken) && ring.Valid()
      ensures received <==> old(ring.Contents()) != []
      ensures if received then old(ring.Contents()) == [item] + ring.Contents() else ring.Contents() == old(ring.Contents())
    {
      hide Scheduler.Running, Scheduler.Valid, Queue.Valid, Queue.Contents, Released, LockValue, Int8;
      LockStep(taken);
      ReleasedCount(senders, Waiters(toSend), s.waits, Min(Direct(taken), |senders|));
      if Waiters(toSend) != [] {
        ReleasedOne(senders, Waiters(toSend), s.waits, Min(Direct(taken), |senders|));
        ReleasedOther(receivers, Waiters(toReceive), s.waits, Min(Direct(posts), |receivers|), Waiters(toSend)[0]);
      }
      var woken;
      received, item, woken := ReceiveFromISR();
    }

    /** One interrupt */
    method Arrive(arrival: Arrival, posts0: nat, taken0: seq<Item>, ghost receivers: seq<Task>, ghost senders: seq<Task>, ghost t: Tally)
        returns (posts: nat, taken: seq<Item>)
      requires Busy(receivers, senders, posts0, |taken0|) && ring.Valid() && (arrival.Post? ==> |arrival.item| == ring.size)
      requires t.contents == ring.Contents() && |t.posted| == posts0 && t.taken == taken0
      modifies this, ring, ring.storage, s
      ensures Busy(receivers, senders, posts, |taken|) && ring.Valid()
      ensures var u := Passed(t, arrival, ring.length); u.contents == ring.Contents() && |u.posted| == posts && u.taken == taken
    {
      hide Scheduler.Running, Scheduler.Valid, Queue.Valid, Queue.Contents, Released, Busy;
      posts, taken := posts0, taken0;
      match arrival {
        case Post(item) =>
          var sent := PostOne(item, receivers, senders, posts, |taken|);
          if sent { posts := posts + 1; }
        case Reception =>
          var received, item := TakeOne(receivers, senders, posts, |taken|);
          if received { taken := taken + [item]; }
      }
    }

    /** A task has the queue locked while interrupts post to it and receive from it, in any order: the items pass in
        order, and when the lock is given up, the first waiting receivers are released, one for each item that went
        in, and the first waiting senders, one for each item that was taken, as far as the counts can tell. */
    method WhileLocked(arrivals: seq<Arrival>) returns (posts: nat, taken: seq<Item>)
      requires Valid() && s.suspended > 0 && rxLock == UNLOCKED && txLock == UNLOCKED && Fitting(arrivals, ring.size)
      modifies this, ring, ring.storage, s
      ensures Valid() && txLock == UNLOCKED && rxLock == UNLOCKED && |old(ring.Contents())| <= ring.length
      ensures var t := Tallied(old(ring.Contents()), arrivals, |arrivals|, ring.length);
              t.contents == ring.Contents() && |t.posted| == posts && t.taken == taken
      ensures Released(old(Waiters(toReceive)), Waiters(toReceive), s.waits, Min(Accounted(posts), |old(Waiters(toReceive))|))
      ensures Released(old(Waiters(toSend)), Waiters(toSend), s.waits, Min(Accounted(|taken|), |old(Waiters(toSend))|))
    {
      hide Scheduler.Running, Scheduler.Valid, Released, Busy, Queue.Contents, Passed, Queue.Valid, LockValue, Direct;
      ghost var receivers, senders, before := Waiters(toReceive), Waiters(toSend), ring.Contents();
      ring.Fits();
      NoneReleased(receivers, s.waits);
      NoneReleased(senders, s.waits);
      Lock();
      NotBusy(receivers, senders);
      posts, taken := 0, [];
      for i := 0 to |arrivals|
        invariant Busy(receivers, senders, posts, |taken|) && ring.Valid()
        invariant Tallied(before, arrivals, i, ring.length).contents == ring.Contents()
        invariant |Tallied(before, arrivals, i, ring.length).posted| == posts && Tallied(before, arrivals, i, ring.length).taken == taken
      {
        ghost var t := Tallied(before, arrivals, i, ring.length);
        posts, taken := Arrive(arrivals[i], posts, taken, receivers, senders, t);
        assert Tallied(before, arrivals, i + 1, ring.length) == Passed(t, arrivals[i], ring.length);
      }
      BusyParts(receivers, senders, posts, |taken|);
      AccountedFor(posts);
      AccountedFor(|taken|);
      UnlockFrom(receivers, Min(Direct(posts), |receivers|), senders, Min(Direct(|taken|), |senders|));
    }

    /** With posts only, up to 127 of them: one receiver for each item that went in */
    method PostWhileLocked(items: seq<Item>) returns (posts: nat)
      requires Valid() && s.suspended > 0 && rxLock == UNLOCKED && txLock == UNLOCKED
      requires forall i {:trigger items[i]} :: 0 <= i < |items| ==> |items[i]| == ring.size
      modifies this, ring, ring.storage, s
      ensures Valid() && txLock == UNLOCKED && rxLock == UNLOCKED
      ensures posts == Min(|items|, ring.length - |old(ring.Contents())|) && ring.Contents() == old(ring.Contents()) + items[..posts]
      ensures Released(old(Waiters(toReceive)), Waiters(toReceive), s.waits, Min(Accounted(posts), |old(Waiters(toReceive))|))
      ensures posts <= 127 ==> Released(old(Waiters(toReceive)), Waiters(toReceive), s.waits, Min(posts, |old(Waiters(toReceive))|))
    {
      hide Scheduler.Running, Scheduler.Valid, Released, Queue.Contents;
      var arrivals := seq(|items|, i requires 0 <= i < |items| => Post(items[i]));
      ghost var before := ring.Contents();
      ring.Fits();
      var taken;
      posts, taken := WhileLocked(arrivals);
      OnlyPosts(before, items, arrivals, |items|, ring.length);
    }

    /** With receptions only, the same for the tasks that wait to send */
    method TakeWhileLocked(tries: nat) returns (taken: nat)
      requires Valid() && s.suspended > 0 && rxLock == UNLOCKED && txLock == UNLOCKED
      modifies this, ring, ring.storage, s
      ensures Valid() && txLock == UNLOCKED && rxLock == UNLOCKED
      ensures taken == Min(tries, |old(ring.Contents())|) && ring.Contents() == old(ring.Contents())[taken..]
      ensures Released(old(Waiters(toSend)), Waiters(toSend), s.waits, Min(Accounted(taken), |old(Waiters(toSend))|))
      ensures taken <= 127 ==> Released(old(Waiters(toSend)), Waiters(toSend), s.waits, Min(taken, |old(Waiters(toSend))|))
    {
      hide Scheduler.Running, Scheduler.Valid, Released, Queue.Contents;
      var arrivals := seq(tries, i => Reception);
      ghost var before := ring.Contents();
      ring.Fits();
      var posts, items := WhileLocked(arrivals);
      taken := |items|;
      OnlyReceptions(before, arrivals, tries, ring.length);
    }

    /** After 128 posts to an empty queue that tasks wait for, none of them has been woken. */
    method WakeUpLost(items: seq<Item>) returns (posts: nat)
      requires Valid() && s.suspended > 0 && rxLock == UNLOCKED && txLock == UNLOCKED
      requires forall i {:trigger items[i]} :: 0 <= i < |items| ==> |items[i]| == ring.size
      requires ring.Contents() == [] && |items| == 128 <= ring.length && Waiters(toReceive) != []
      modifies this, ring, ring.storage, s
      ensures Valid() && posts == 128 && Waiters(toReceive) == old(Waiters(toReceive)) != []
    {
      hide Scheduler.Running, Scheduler.Valid;
      posts := PostWhileLocked(items);
    }

    /** xQueueGenericReset of a queue in use: both locks are open, and one waiting sender is released, since there is
        room now. Receivers go on waiting. */
    method Reset() returns (yieldNow: bool)
      requires Valid()
      modifies this, ring, s
      ensures Valid() && ring.Contents() == [] && txLock == UNLOCKED && rxLock == UNLOCKED && s.suspended == old(s.suspended)
      ensures Waiters(toReceive) == old(Waiters(toReceive))
      ensures if old(Waiters(toSend)) == [] then Waiters(toSend) == [] && s.waits == old(s.waits)
              else Waiters(toSend) == old(Waiters(toSend))[1..]
                   && s.waits == (if s.suspended == 0 then old(s.waits) - {old(Waiters(toSend))[0]} else old(s.waits)[old(Waiters(toSend))[0] := Pending])
      ensures yieldNow <==> old(Waiters(toSend)) != [] && Outranks(s.tcb, s.current, old(Waiters(toSend))[0])
      ensures s.tcb == old(s.tcb) && s.current == old(s.current) && s.yieldPending == (old(s.yieldPending) || yieldNow)
      ensures if old(Waiters(toSend)) != [] && s.suspended == 0 then
                old(Waiters(toSend))[0] in s.tcb && s.at == old(s.at)[old(Waiters(toSend))[0] := Ready(s.tcb[old(Waiters(toSend))[0]].priority)]
              else s.at == old(s.at)
    {
      hide Scheduler.Running;
      ring.Reset();
      rxLock, txLock := UNLOCKED, UNLOCKED;
      yieldNow := WakeOne(toSend);
    }
  }

  // --- what happens to the items --------------------------------------------------------------------

  /** What an interrupt wants from the queue */
  datatype Arrival = Post(item: Item) | Reception

  predicate Fitting(arrivals: seq<Arrival>, size: nat) {
    forall i {:trigger arrivals[i]} :: 0 <= i < |arrivals| && arrivals[i].Post? ==> |arrivals[i].item| == size
  }

  datatype Tally = Tally(contents: seq<Item>, posted: seq<Item>, taken: seq<Item>)

  /** One more */
  function Passed(t: Tally, arrival: Arrival, length: nat): Tally {
    match arrival
    case Post(item) => if |t.contents| < length then Tally(t.contents + [item], t.posted + [item], t.taken) else t
    case Reception => if t.contents != [] then Tally(t.contents[1..], t.posted, t.taken + [t.contents[0]]) else t
  }

  /** The items after the first `n` arrivals */
  function Tallied(contents: seq<Item>, arrivals: seq<Arrival>, n: nat, length: nat): Tally
    requires n <= |arrivals|
  {
    if n == 0 then Tally(contents, [], []) else Passed(Tallied(contents, arrivals, n - 1, length), arrivals[n - 1], length)
  }

  /** Whatever went in comes out in order, or is still there; and the queue is never too full. */
  lemma {:induction false} InOrder(contents: seq<Item>, arrivals: seq<Arrival>, n: nat, length: nat)
    requires n <= |arrivals| && |contents| <= length
    ensures var t := Tallied(contents, arrivals, n, length); t.taken + t.contents == contents + t.posted && |t.contents| <= length
  {
    if n > 0 {
      InOrder(contents, arrivals, n - 1, length);
      var t, u := Tallied(contents, arrivals, n - 1, length), Tallied(contents, arrivals, n, length);
      if arrivals[n - 1].Post? {
        assert t.taken + (t.contents + [arrivals[n - 1].item]) == (t.taken + t.contents) + [arrivals[n - 1].item];
        assert contents + (t.posted + [arrivals[n - 1].item]) == (contents + t.posted) + [arrivals[n - 1].item];
      } else if t.contents != [] {
        assert (t.taken + [t.contents[0]]) + t.contents[1..] == t.taken + t.contents;
      }
    } else {
      assert [] + contents == contents == contents + [];
    }
  }

  lemma {:induction false} OnlyPosts(contents: seq<Item>, items: seq<Item>, arrivals: seq<Arrival>, n: nat, length: nat)
    requires n <= |items| == |arrivals| && |contents| <= length && forall i {:trigger arrivals[i]} :: 0 <= i < |items| ==> arrivals[i] == Post(items[i])
    ensures var t, k := Tallied(contents, arrivals, n, length), Min(n, length - |contents|);
            k >= 0 && t == Tally(contents + items[..k], items[..k], [])
  {
    if n > 0 {
      OnlyPosts(contents, items, arrivals, n - 1, length);
      assert arrivals[n - 1] == Post(items[n - 1]);
      if n - 1 < length - |contents| {
        assert items[..n] == items[..n - 1] + [items[n - 1]];
        assert contents + items[..n] == (contents + items[..n - 1]) + [items[n - 1]];
      }
    } else {
      assert contents + items[..0] == contents;
    }
  }

  lemma {:induction false} OnlyReceptions(contents: seq<Item>, arrivals: seq<Arrival>, n: nat, length: nat)
    requires n <= |arrivals| && |contents| <= length && forall i {:trigger arrivals[i]} :: 0 <= i < |arrivals| ==> arrivals[i] == Reception
    ensures var t, k := Tallied(contents, arrivals, n, length), Min(n, |contents|); t == Tally(contents[k..], [], contents[..k])
  {
    if n > 0 {
      OnlyReceptions(contents, arrivals, n - 1, length);
      assert arrivals[n - 1] == Reception;
      if n - 1 < |contents| {
        assert contents[..n] == contents[..n - 1] + [contents[n - 1]];
      }
    }
  }

  /** The first `n` waiters left the list, in its order, and are pending until the scheduler is resumed. */
  ghost predicate Released(before: seq<Task>, after: seq<Task>, waits: map<Task, EventList>, n: int) {
    && 0 <= n <= |before| && after == before[n..]
    && (forall i {:trigger before[i]} :: 0 <= i < n ==> before[i] in waits && waits[before[i]] == Pending)
  }

  lemma FirstReleased(before: seq<Task>, after: seq<Task>, waits: map<Task, EventList>, n: int)
    requires Released(before, after, waits, n) && after != []
    ensures 0 <= n < |before| && after[0] == before[n]
  {
  }

  lemma NoneOutranks(tcb: map<Task, Tcb>, current: Task, tasks: seq<Task>, n: int)
    requires 0 <= n <= |tasks|
    ensures !AnyOutranks(tcb, current, tasks[n..n])
  {
  }

  lemma ReleasedOne(before: seq<Task>, after: seq<Task>, waits: map<Task, EventList>, n: int)
    requires Released(before, after, waits, n) && after != []
    ensures Released(before, after[1..], waits[after[0] := Pending], n + 1)
  {
  }

  lemma ReleasedOther(before: seq<Task>, after: seq<Task>, waits: map<Task, EventList>, n: int, t: Task)
    requires Released(before, after, waits, n)
    ensures Released(before, after, waits[t := Pending], n)
  {
  }

  lemma RemoveFirst(v: View<Task>)
    requires v.items != []
    ensures v.items[0] in v.items && Remove(v, v.items[0]).items == v.items[1..]
  {
  }

  lemma NoneReleased(before: seq<Task>, waits: map<Task, EventList>)
    ensures Released(before, before, waits, 0)
  {
  }

  lemma ReleasedCount(before: seq<Task>, after: seq<Task>, waits: map<Task, EventList>, n: int)
    requires Released(before, after, waits, n)
    ensures 0 <= n <= |before| && |after| == |before| - n
  {
  }
}
