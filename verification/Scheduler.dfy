/** FreeRTOS/tasks.c: ticks, delays, blocking and waking, suspending and resuming, and the choice of
    the next task, with preemption and four priorities. */
module Scheduler {
  import opened ListView
  import opened TaskLists
  import opened SchedulerState
  import Lists

  class Scheduler {
    var tick: int
    var overflows: int
    var pended: int
    var nextUnblock: int
    var topReady: nat
    var suspended: nat
    var yieldPending: bool
    var current: Task
    var S: StateLists
    var at: map<Task, StateList>
    var E: EventLists
    var waits: map<Task, EventList>
    var tcb: map<Task, Tcb>
    /** which of the two delayed lists is the current one */
    var second: bool
    const idle: Task

    // Unbounded time, and a record of all time-outs.
    ghost var epoch: nat
    ghost var due: map<Task, int>
    ghost var timeouts: seq<TimeOut>
    ghost var delivered: nat

    /** prvInitialiseTaskLists, and the idle task as the first one */
    constructor (idle: Task)
      ensures Valid() && this.idle == idle && current == idle && at == map[idle := Ready(0)] && tick == 0 && suspended == 0
      ensures tcb == map[idle := Tcb(0, 0, 0, 0, PRIORITIES)] && waits == map[] && E == map[Pending := View([], 0)] && timeouts == [] && Now() == 0
      ensures pended == 0 && overflows == 0 && nextUnblock == MAX_DELAY && topReady == 0 && !yieldPending && !second && due == map[]
    {
      this.idle, current := idle, idle;
      tick, overflows, pended, nextUnblock, topReady, suspended, yieldPending := 0, 0, 0, MAX_DELAY, 0, 0, false;
      S, at, tcb := EmptyLists(idle), map[idle := Ready(0)], map[idle := Tcb(0, 0, 0, 0, PRIORITIES)];
      E, waits, second := map[Pending := View([], 0)], map[], false;
      epoch, due, timeouts, delivered := 0, map[], [], 0;
      new;
      StartOk(idle);
    }

    ghost function Now(): int
      reads `epoch, `tick
    {
      WRAP * epoch + tick
    }

    /** The lists and control blocks, at any moment */
    ghost predicate Consistent()
      reads `S, `at, `E, `waits, `tcb, `topReady, `current
    {
      Structure(S, at, E, waits, tcb, idle) && Topped(at, topReady) && Ordered(S, tcb) && current in at
    }

    ghost predicate Ranges()
      reads `tick, `overflows, `pended, `nextUnblock, `epoch
    {
      0 <= tick < WRAP && 0 <= pended < WRAP && 0 <= nextUnblock < WRAP && overflows == epoch % WRAP
    }

    /** The state while ticks are processed: every delayed task has its wake time still ahead. */
    ghost predicate Running()
      reads `S, `at, `E, `waits, `tcb, `topReady, `current, `tick, `overflows, `pended, `nextUnblock, `epoch, `due, `second, `timeouts
    {
      && Consistent() && Ranges() && Punctual(timeouts, Now())
      && Timed(at, tcb, due, second, epoch, Now() + 1) && NextBound(at, tcb, second, nextUnblock)
    }

    /** Between two kernel calls no tick is lost, and nothing is pending unless the scheduler is suspended. */
    ghost predicate Valid()
      reads `S, `at, `E, `waits, `tcb, `topReady, `current, `tick, `overflows, `pended, `nextUnblock, `epoch, `due, `second, `timeouts,
            `suspended, `delivered
    {
      && Running() && (tick + pended) % WRAP == delivered % WRAP
      && (suspended == 0 ==> pended == 0 && PendingEmpty(E))
    }

    // --- list items --------------------------------------------------------------------------

    /** Take the event item of a task out of its list, if it is in one. */
    method LeaveEvent(t: Task)
      requires Holds(E, waits)
      modifies `E, `waits
      ensures Holds(E, waits) && waits == old(waits) - {t} && E.Keys == old(E).Keys
      ensures forall k {:trigger E[k]} :: k in E ==> E[k] == if t in old(waits) && old(waits)[t] == k then Left(old(E)[k], t) else old(E)[k]
    {
      if t in waits {
        LeaveHolds(E, waits, t);
        E := E[waits[t] := Remove(E[waits[t]], t)];
        waits := waits - {t};
      } else {
        assert waits - {t} == waits;
      }
    }

    /** A new queue or event group brings its own list of waiters. */
    method NewEventList(e: nat)
      requires Valid() && Event(e) !in E
      modifies `E
      ensures Valid() && E == old(E)[Event(e) := View([], 0)]
    {
      hide Running, Blockable, EventSide, StateSide;
      Parts();
      MoreEvents(E, waits, at, Event(e));
      E := E[Event(e) := View([], 0)];
      Whole();
    }

    /** Move a task to the end of the ready list of its priority, and out of any event list. */
    method Unblock(t: Task)
      requires Consistent() && t in at
      modifies `S, `at, `E, `waits, `topReady
      ensures Consistent() && at == old(at)[t := Ready(tcb[t].priority)] && waits == old(waits) - {t}
      ensures IsMoved(old(S), old(at), S, t, Ready(tcb[t].priority))
      ensures E.Keys == old(E).Keys
      ensures forall k {:trigger E[k]} :: k in E ==> E[k] == if t in old(waits) && old(waits)[t] == k then Left(old(E)[k], t) else old(E)[k]
    {
      hide Structure, Ordered, Topped, Holds;
      MoveToReady(S, at, E, waits, tcb, idle, topReady, t);
      var p := tcb[t].priority;
      ghost var S0, at0, E0, waits0 := S, at, E, waits;
      S := S[at[t] := Remove(S[at[t]], t)];
      LeaveEvent(t);
      if p > topReady { topReady := p; }
      S := S[Ready(p) := InsertEnd(S[Ready(p)], t)];
      at := at[t := Ready(p)];
      assert S == Moved(S0, at0, t, Ready(p));
      MovedToReady(S0, at0, E0, waits0, tcb, idle, t, E);
    }

    // --- ticks -------------------------------------------------------------------------------

    /** The next unblock time is that of the head of the current delayed list. */
    ghost predicate Nearest()
      reads `S, `tcb, `second, `nextUnblock
    {
      && Delayed(second) in S
      && var items := S[Delayed(second)].items;
         if items == [] then nextUnblock == MAX_DELAY else items[0] in tcb && nextUnblock == tcb[items[0]].wake
    }

    /** prvResetNextTaskUnblockTime */
    method ResetNextUnblock()
      requires Consistent()
      modifies `nextUnblock
      ensures 0 <= nextUnblock < WRAP && NextBound(at, tcb, second, nextUnblock) && Nearest()
    {
      hide Structure, Topped, Ordered, NextBound;
      HeadIsNext(S, at, E, waits, tcb, idle, second);
      if S[Delayed(second)].items == [] {
        nextUnblock := MAX_DELAY;
      } else {
        nextUnblock := tcb[S[Delayed(second)].items[0]].wake;
      }
    }

    /** taskSWITCH_DELAYED_LISTS, when the tick count has wrapped: the current list is empty then. */
    method SwitchDelayedLists()
      requires Consistent() && Ranges() && tick == 0
      requires Timed(at, tcb, due, second, epoch, WRAP * (epoch + 1))
      modifies `second, `overflows, `nextUnblock, `epoch
      ensures Ranges() && epoch == old(epoch) + 1 && second == !old(second)
      ensures Timed(at, tcb, due, second, epoch, WRAP * epoch) && NextBound(at, tcb, second, nextUnblock) && Nearest()
    {
      hide Structure, Topped, Ordered, Timed, NextBound;
      EmptyAtWrap(S, at, E, waits, tcb, idle, due, second, epoch);
      assert S[Delayed(second)].items == [];
      second := !second;
      overflows := (overflows + 1) % WRAP;
      epoch := epoch + 1;
      ResetNextUnblock();
    }

    /** The loop of xTaskIncrementTick: all tasks whose time has come become ready, and the next
        unblock time is computed anew. */
    method Expire() returns (switchRequired: bool)
      requires Consistent() && 0 <= tick < WRAP && Punctual(timeouts, Now())
      requires Timed(at, tcb, due, second, epoch, Now())
      modifies `S, `at, `E, `waits, `topReady, `nextUnblock, `timeouts
      ensures Consistent() && 0 <= nextUnblock < WRAP && Punctual(timeouts, Now())
      ensures Timed(at, tcb, due, second, epoch, Now() + 1) && NextBound(at, tcb, second, nextUnblock)
      ensures Expired(old(at), at, tcb, due, old(waits), waits, Now())
      ensures switchRequired <==> Urgent(old(at), at, tcb, current)
      ensures (PendingEmpty(old(E)) ==> PendingEmpty(E)) && E.Keys == old(E).Keys && old(timeouts) <= timeouts
      ensures Recorded(old(at), old(waits), due, timeouts, Now()) && Nearest()
    {
      hide Structure, Topped, Ordered, Timed, NextBound, Expiring, Expired, IsMoved, Punctual, Urgent, Recording, Recorded;
      NothingExpired(at, tcb, due, waits, Now());
      NoneUrgent(at, tcb, current);
      NothingRecorded(at, waits, tcb, due, timeouts, second, epoch, Now());
      switchRequired := false;
      while true
        invariant Consistent() && Punctual(timeouts, Now())
        invariant Timed(at, tcb, due, second, epoch, Now())
        invariant Expiring(old(at), at, tcb, due, old(waits), waits, Now())
        invariant switchRequired <==> Urgent(old(at), at, tcb, current)
        invariant (PendingEmpty(old(E)) ==> PendingEmpty(E)) && E.Keys == old(E).Keys
        invariant old(timeouts) <= timeouts && Recording(old(at), at, due, timeouts)
        decreases Count(S, Delayed(second))
      {
        HeadIsNext(S, at, E, waits, tcb, idle, second);
        RunningTask(S, at, E, waits, tcb, idle, current);
        if S[Delayed(second)].items == [] {
          nextUnblock := MAX_DELAY;
          break;
        }
        var t := S[Delayed(second)].items[0];
        if tick < tcb[t].wake {
          nextUnblock := tcb[t].wake;
          break;
        }
        ExpireHead(t, old(at), old(waits));
        if tcb[t].priority >= tcb[current].priority {
          switchRequired := true;
        }
      }
      AllAhead(old(at), old(waits), S, at, E, waits, tcb, idle, due, second, epoch, tick, nextUnblock);
      AllRecorded(old(at), at, tcb, due, old(waits), waits, timeouts, Now());
    }

    /** One turn of that loop: the head of the delayed list is due and becomes ready. */
    method ExpireHead(t: Task, ghost at0: map<Task, StateList>, ghost waits0: map<Task, EventList>)
      requires Consistent() && Punctual(timeouts, Now()) && Timed(at, tcb, due, second, epoch, Now())
      requires t in at && at[t] == Delayed(second) && t in tcb && current in tcb && tcb[t].wake <= tick && at.Keys == tcb.Keys
      requires Expiring(at0, at, tcb, due, waits0, waits, Now()) && Recording(at0, at, due, timeouts)
      modifies `S, `at, `E, `waits, `topReady, `timeouts
      ensures Consistent() && Punctual(timeouts, Now()) && Timed(at, tcb, due, second, epoch, Now())
      ensures Expiring(at0, at, tcb, due, waits0, waits, Now()) && Recording(at0, at, due, timeouts) && old(timeouts) <= timeouts
      ensures Urgent(at0, at, tcb, current) <==> Urgent(at0, old(at), tcb, current) || tcb[t].priority >= tcb[current].priority
      ensures Count(S, Delayed(second)) < Count(old(S), Delayed(second)) && (PendingEmpty(old(E)) ==> PendingEmpty(E)) && E.Keys == old(E).Keys
    {
      hide Structure, Topped, Ordered, Timed, Expiring, IsMoved, Punctual, Urgent, Recording, Count;
      ghost var S0, at1 := S, at;
      ExpireOne(at0, at, tcb, due, waits0, waits, t, second, epoch, tick);
      UrgentStep(at0, at, tcb, due, waits0, waits, Now(), current, t);
      PunctualMore(timeouts, TimeOut(t, due[t], Now()), Now());
      RecordOne(at0, at, due, timeouts, t, tcb[t].priority);
      timeouts := timeouts + [TimeOut(t, due[t], Now())];
      Unblock(t);
      ShorterDelayed(S0, at1, S, t, tcb[t].priority);
    }

    /** xTaskIncrementTick. A switch is required if a woken task should run, if a task of the same
        priority is waiting for its time slice, or if a yield is pending. */
    method IncrementTick() returns (switchRequired: bool)
      requires Running()
      modifies `tick, `pended, `second, `overflows, `epoch, `nextUnblock, `S, `at, `E, `waits, `topReady, `timeouts
      ensures Running() && (tick + pended) % WRAP == (old(tick) + old(pended) + 1) % WRAP
      ensures if suspended == 0 then
                Now() == old(Now()) + 1 && pended == old(pended) && Expired(old(at), at, tcb, due, old(waits), waits, Now())
              else Now() == old(Now()) && at == old(at) && waits == old(waits) && S == old(S) && E == old(E)
                   && pended == (old(pended) + 1) % WRAP
      ensures current in tcb && (PendingEmpty(old(E)) ==> PendingEmpty(E)) && E.Keys == old(E).Keys
      ensures old(timeouts) <= timeouts && (suspended == 0 ==> Recorded(old(at), old(waits), due, timeouts, Now()))
      ensures switchRequired <==>
                suspended == 0 && (Urgent(old(at), at, tcb, current) || Shared(at, tcb[current].priority) || yieldPending)
    {
      hide Structure, Topped, Ordered, Timed, NextBound, Expired, Punctual, Urgent, Recorded, Shared;
      switchRequired := false;
      RunningTask(S, at, E, waits, tcb, idle, current);
      if suspended == 0 {
        switchRequired := ProcessTick();
        RunningTask(S, at, E, waits, tcb, idle, current);
        SharedExactly(S, at, E, waits, tcb, idle, tcb[current].priority);
        if |S[Ready(tcb[current].priority)].items| > 1 {
          switchRequired := true;
        }
        if yieldPending {
          switchRequired := true;
        }
      } else {
        pended := (pended + 1) % WRAP;
      }
    }

    /** The part of xTaskIncrementTick that moves time on. */
    method ProcessTick() returns (switchRequired: bool)
      requires Running()
      modifies `tick, `second, `overflows, `epoch, `nextUnblock, `S, `at, `E, `waits, `topReady, `timeouts
      ensures Running() && tick == (old(tick) + 1) % WRAP && Now() == old(Now()) + 1
      ensures Expired(old(at), at, tcb, due, old(waits), waits, Now())
      ensures (switchRequired <==> Urgent(old(at), at, tcb, current)) && (PendingEmpty(old(E)) ==> PendingEmpty(E)) && E.Keys == old(E).Keys
      ensures old(timeouts) <= timeouts && Recorded(old(at), old(waits), due, timeouts, Now())
      ensures if 0 < tick < old(nextUnblock) then nextUnblock == old(nextUnblock) else Nearest()
    {
      hide Consistent, Timed, NextBound, Expired, Punctual, Urgent, PendingEmpty, Recorded;
      switchRequired := false;
      NextTick();
      if tick >= nextUnblock {
        switchRequired := Expire();
      } else {
        NobodyDue();
      }
    }

    /** The count goes up, and the delayed lists switch when it wraps. */
    method NextTick()
      requires Running()
      modifies `tick, `second, `overflows, `epoch, `nextUnblock
      ensures Consistent() && Ranges() && Punctual(timeouts, Now()) && tick == (old(tick) + 1) % WRAP && Now() == old(Now()) + 1
      ensures Timed(at, tcb, due, second, epoch, Now()) && NextBound(at, tcb, second, nextUnblock)
      ensures if tick > 0 then nextUnblock == old(nextUnblock) else Nearest()
    {
      hide Structure, Topped, Ordered, Timed, NextBound, Punctual;
      PunctualLater(timeouts, Now());
      tick := (tick + 1) % WRAP;
      if tick == 0 {
        SwitchDelayedLists();
      }
    }

    /** The next unblock time is still ahead. */
    lemma NobodyDue()
      requires Consistent() && 0 <= tick < nextUnblock && tick < WRAP && Punctual(timeouts, Now())
      requires Timed(at, tcb, due, second, epoch, Now()) && NextBound(at, tcb, second, nextUnblock)
      ensures Timed(at, tcb, due, second, epoch, Now() + 1) && Expired(at, at, tcb, due, waits, waits, Now())
      ensures !Urgent(at, at, tcb, current) && Recorded(at, waits, due, timeouts, Now())
    {
      hide Structure, Topped, Ordered, Timed, NextBound, Expiring, Expired, Punctual, Urgent, Recorded;
      NothingExpired(at, tcb, due, waits, Now());
      AllAhead(at, waits, S, at, E, waits, tcb, idle, due, second, epoch, tick, nextUnblock);
      NoneUrgent(at, tcb, current);
      NothingRecorded(at, waits, tcb, due, timeouts, second, epoch, Now());
    }

    /** The tick interrupt */
    method TickInterrupt() returns (switchRequired: bool)
      requires Valid()
      modifies this
      ensures Valid() && delivered == old(delivered) + 1 && suspended == old(suspended) && current == old(current)
      ensures tcb == old(tcb) && E.Keys == old(E).Keys
      ensures if suspended == 0 then Now() == old(Now()) + 1 && Expired(old(at), at, tcb, due, old(waits), waits, Now())
              else Now() == old(Now()) && at == old(at) && waits == old(waits) && pended == (old(pended) + 1) % WRAP
      ensures due == old(due) && old(timeouts) <= timeouts && (suspended == 0 ==> Recorded(old(at), old(waits), due, timeouts, Now()))
      ensures current in tcb && yieldPending == old(yieldPending)
      ensures switchRequired <==>
                suspended == 0 && (Urgent(old(at), at, tcb, current) || Shared(at, tcb[current].priority) || yieldPending)
    {
      hide Consistent, Timed, NextBound, Punctual, Expired, Urgent, PendingEmpty, Ranges, Recorded, Shared;
      NextCount(tick + pended, delivered);
      switchRequired := IncrementTick();
      delivered := delivered + 1;
    }

    // --- blocking ----------------------------------------------------------------------------

    /** What prvAddCurrentTaskToDelayedList relies on and keeps: all but the event lists. */
    ghost predicate Blockable()
      reads `S, `at, `tcb, `topReady, `current, `tick, `overflows, `pended, `nextUnblock, `epoch, `due, `second
    {
      && StateSide(S, at, tcb, idle) && Topped(at, topReady) && Ordered(S, tcb) && Ranges() && current in at
      && Timed(at, tcb, due, second, epoch, Now() + 1) && NextBound(at, tcb, second, nextUnblock)
    }

    lemma Parts()
      requires Running()
      ensures Blockable() && Structure(S, at, E, waits, tcb, idle) && EventSide(E, waits, at) && Punctual(timeouts, Now())
      ensures current in at && idle in at && 0 <= tick < WRAP && 0 <= pended < WRAP
    {
    }

    lemma Whole()
      requires Blockable() && EventSide(E, waits, at) && Punctual(timeouts, Now())
      ensures Running()
    {
    }

    /** vListInsert of the running task into a delayed list */
    method InsertDelayed(k: StateList)
      requires Holds(S, at) && Ordered(S, tcb) && k.Delayed? && k in S && current !in at && current in tcb
      modifies `S, `at
      ensures Holds(S, at) && Ordered(S, tcb) && at == old(at)[current := k] && S.Keys == old(S).Keys
    {
      var place := Lists.InsertPlace(Wakes(S[k].items, tcb), tcb[current].wake);
      EnterAtHolds(S, at, current, k, place);
      InsertedOrdered(S, tcb, current, k, place);
      S := S[k := InsertAt(S[k], place, current)];
      at := at[current := k];
    }

    /** prvAddCurrentTaskToDelayedList */
    method AddCurrentToDelayed(d: int, canBlock: bool)
      requires Blockable() && at[current].Ready? && current != idle && 0 < d < WRAP
      modifies `S, `at, `tcb, `nextUnblock, `due
      ensures Blockable() && at == old(at)[current := BlockedIn(d, canBlock, tick, second)]
      ensures var forever := d == MAX_DELAY && canBlock;
              && tcb == (if forever then old(tcb) else WithWake(old(tcb), current, (tick + d) % WRAP))
              && due == (if forever then old(due) else old(due)[current := Now() + d])
    {
      hide StateSide, Topped, Ordered, Timed, NextBound, Holds;
      ghost var S0, at0, tcb0 := S, at, tcb;
      LeaveReady(S, at, tcb, idle, current);
      S := S[at[current] := Remove(S[at[current]], current)];
      at := at - {current};
      if d == MAX_DELAY && canBlock {
        EnterEndHolds(S, at, current, Suspended);
        OtherList(S, tcb, Suspended, InsertEnd(S[Suspended], current));
        S := S[Suspended := InsertEnd(S[Suspended], current)];
        at := at[current := Suspended];
        assert at == at0[current := Suspended];
        SuspendedTimes(at0, tcb, due, second, epoch, Now() + 1, nextUnblock, current, Suspended);
      } else {
        Sleep(d, at0);
      }
      BlockedTopped(at0, topReady, current, BlockedIn(d, canBlock, tick, second));
      BlockedStates(S0, at0, tcb0, idle, current, S, BlockedIn(d, canBlock, tick, second), tcb);
    }

    /** The part of prvAddCurrentTaskToDelayedList that deals with a wake time */
    method Sleep(d: int, ghost at0: map<Task, StateList>)
      requires Holds(S, at) && Ordered(S, tcb) && Ranges() && 0 < d < WRAP && current in at0 && at0[current].Ready?
      requires at == at0 - {current} && at0.Keys == tcb.Keys && Delayed(true) in S && Delayed(false) in S
      requires current !in S[Delayed(true)].items && current !in S[Delayed(false)].items
      requires Timed(at0, tcb, due, second, epoch, Now() + 1) && NextBound(at0, tcb, second, nextUnblock)
      modifies `S, `at, `tcb, `nextUnblock, `due
      ensures Holds(S, at) && Ordered(S, tcb) && Ranges() && S.Keys == old(S).Keys
      ensures at == at0[current := BlockedIn(d, false, tick, second)]
      ensures tcb == WithWake(old(tcb), current, (tick + d) % WRAP) && due == old(due)[current := Now() + d]
      ensures Timed(at, tcb, due, second, epoch, Now() + 1) && NextBound(at, tcb, second, nextUnblock)
    {
      hide Ordered, Timed, NextBound, Holds, InOrder, Wakes, BlockedIn, WithWake;
      var wake := (tick + d) % WRAP;
      BlockedWhere(d, tick, second);
      BlockedTimes(at0, tcb, due, second, epoch, tick, nextUnblock, current, d);
      OtherWake(S, tcb, current, wake);
      assert at0 - {current} == at;
      assert at[current := BlockedIn(d, false, tick, second)] == at0[current := BlockedIn(d, false, tick, second)];
      tcb := WithWake(tcb, current, wake);
      due := due[current := Now() + d];
      if wake < tick {
        InsertDelayed(Delayed(!second));
      } else {
        InsertDelayed(Delayed(second));
        if wake < nextUnblock { nextUnblock := wake; }
      }
    }

    /** The running task has been put into an event list, and blocks. */
    method BlockOn(ghost E0: EventLists, ghost waits0: map<Task, EventList>, ghost e: nat, d: int)
      requires Blockable() && EventSide(E0, waits0, at) && Punctual(timeouts, Now()) && E.Keys == E0.Keys
      requires waits == waits0[current := Event(e)] && Holds(E, waits) && current in at
      requires at[current].Ready? && current != idle && 0 < d < WRAP
      modifies `S, `at, `tcb, `nextUnblock, `due
      ensures Running() && at == old(at)[current := BlockedIn(d, true, tick, second)]
      ensures tcb == if d == MAX_DELAY then old(tcb) else WithWake(old(tcb), current, (tick + d) % WRAP)
      ensures due == if d == MAX_DELAY then old(due) else old(due)[current := Now() + d]
    {
      hide Running, Blockable, EventSide, Holds, Punctual;
      ghost var at0 := at;
      AddCurrentToDelayed(d, true);
      WaitingBlocked(E0, waits0, at0, E, current, Event(e), BlockedIn(d, true, tick, second));
      Whole();
    }

    /** vTaskPlaceOnEventList: the event list is in priority order, so the running task goes behind all
        waiters of its priority or a higher one. */
    method PlaceOnEventList(e: nat, d: int)
      requires Valid() && Event(e) in E && at[current].Ready? && current != idle && 0 < d < WRAP
      modifies `S, `at, `E, `waits, `tcb, `nextUnblock, `due
      ensures Valid() && at == old(at)[current := BlockedIn(d, true, tick, second)] && waits == old(waits)[current := Event(e)]
      ensures current in old(tcb) && tcb == if d == MAX_DELAY then old(tcb) else WithWake(old(tcb), current, (tick + d) % WRAP)
      ensures due == if d == MAX_DELAY then old(due) else old(due)[current := Now() + d]
      ensures current in tcb
      ensures forall i {:trigger old(E)[Event(e)].items[i]} :: 0 <= i < |old(E)[Event(e)].items| ==> old(E)[Event(e)].items[i] in old(tcb)
      ensures var v := old(E)[Event(e)];
              E == old(E)[Event(e) := InsertAt(v, Lists.InsertPlace(EventValues(v.items, old(tcb)), tcb[current].event), current)]
    {
      hide Running, Blockable, Structure, EventSide, Holds, Punctual;
      Parts();
      ghost var E0, waits0 := E, waits;
      ReadyWaitsForNothing(S, at, E, waits, tcb, idle, current);
      WaitersKnown(S, at, E, waits, tcb, idle, Event(e));
      var place := Lists.InsertPlace(EventValues(E[Event(e)].items, tcb), tcb[current].event);
      EnterAtHolds(E, waits, current, Event(e), place);
      E := E[Event(e) := InsertAt(E[Event(e)], place, current)];
      waits := waits[current := Event(e)];
      BlockOn(E0, waits0, e, d);
    }

    method SetEventValue(t: Task, v: int)
      requires Running() && t in at
      modifies `tcb
      ensures Running() && t in old(tcb) && tcb == WithEvent(old(tcb), t, v)
    {
      hide StateSide, EventSide, Topped, Ordered, Timed, NextBound, Punctual;
      RunningTask(S, at, E, waits, tcb, idle, t);
      EventStates(S, at, tcb, idle, t, v);
      EventTimes(S, at, tcb, due, second, epoch, Now() + 1, nextUnblock, t, v);
      tcb := WithEvent(tcb, t, v);
    }

    /** vTaskPlaceOnUnorderedEventList */
    method PlaceOnUnorderedEventList(e: nat, value: int, d: int)
      requires Valid() && suspended > 0 && Event(e) in E && at[current].Ready? && current != idle && 0 < d < WRAP
      modifies `S, `at, `E, `waits, `tcb, `nextUnblock, `due
      ensures Valid() && at == old(at)[current := BlockedIn(d, true, tick, second)] && waits == old(waits)[current := Event(e)]
      ensures due == if d == MAX_DELAY then old(due) else old(due)[current := Now() + d]
      ensures current in tcb && tcb[current].event == InUse(value)
      ensures old(E)[Event(e)].index <= |old(E)[Event(e)].items| && E == old(E)[Event(e) := InsertEnd(old(E)[Event(e)], current)]
    {
      hide Running, Blockable, Structure, EventSide, Holds, Punctual, InUse, InsertEnd, BlockedIn, PendingEmpty;
      Parts();
      SetEventValue(current, InUse(value));
      Parts();
      ghost var E0, waits0 := E, waits;
      ReadyWaitsForNothing(S, at, E, waits, tcb, idle, current);
      EnterEndHolds(E, waits, current, Event(e));
      E := E[Event(e) := InsertEnd(E[Event(e)], current)];
      waits := waits[current := Event(e)];
      BlockOn(E0, waits0, e, d);
    }

    lemma FirstWaiter(e: nat)
      requires Running() && Event(e) in E && E[Event(e)].items != []
      ensures current in tcb && Pending in E
      ensures var t := E[Event(e)].items[0];
              t in E[Event(e)].items && t in tcb && t in waits && waits[t] == Event(e) && t in at && (at[t].Delayed? || at[t] == Suspended)
    {
      hide Running, Blockable, Structure, EventSide, Holds, Punctual;
      Parts();
      WaitersKnown(S, at, E, waits, tcb, idle, Event(e));
      RunningTask(S, at, E, waits, tcb, idle, current);
    }

    /** xTaskRemoveFromEventList: the first waiter becomes ready, or is kept pending while the
        scheduler is suspended. */
    method RemoveFromEventList(e: nat) returns (higher: bool)
      requires Valid() && Event(e) in E && E[Event(e)].items != []
      modifies `S, `at, `E, `waits, `topReady, `yieldPending
      ensures var t := old(E)[Event(e)].items[0];
              && Valid() && t in tcb && current in tcb && t in old(E)[Event(e)].items
              && (if suspended == 0 then at == old(at)[t := Ready(tcb[t].priority)] && waits == old(waits) - {t}
                  else at == old(at) && waits == old(waits)[t := Pending])
              && (forall k {:trigger E[k]} :: k in E && k != Event(e) && k != Pending ==> k in old(E) && E[k] == old(E)[k])
              && E.Keys == old(E).Keys && E[Event(e)] == Remove(old(E)[Event(e)], t)
              && (higher <==> tcb[t].priority > tcb[current].priority) && yieldPending == (old(yieldPending) || higher)
    {
      hide Running, Blockable, Structure, EventSide, Holds, Punctual, Remove, Find, PendingEmpty;
      FirstWaiter(e);
      var t := E[Event(e)].items[0];
      if suspended == 0 {
        UnblockTimed(t);
      } else {
        KeepPending(t);
      }
      higher := tcb[t].priority > tcb[current].priority;
      if higher { yieldPending := true; }
    }

    /** vTaskMissedYield */
    method MissedYield()
      requires Valid()
      modifies `yieldPending
      ensures Valid() && yieldPending
    {
      yieldPending := true;
    }

    /** Unblock, between two ticks */
    method UnblockTimed(t: Task)
      requires Running() && t in at
      modifies `S, `at, `E, `waits, `topReady
      ensures Running() && t in tcb && at == old(at)[t := Ready(tcb[t].priority)] && waits == old(waits) - {t}
      ensures E.Keys == old(E).Keys && (PendingEmpty(old(E)) ==> PendingEmpty(E))
      ensures forall k {:trigger E[k]} :: k in E ==> E[k] == if t in old(waits) && old(waits)[t] == k then Left(old(E)[k], t) else old(E)[k]
    {
      hide Structure, Topped, Ordered, Timed, NextBound, Punctual;
      ghost var at0 := at;
      RunningTask(S, at, E, waits, tcb, idle, t);
      Unblock(t);
      SuspendedTimes(at0, tcb, due, second, epoch, Now() + 1, nextUnblock, t, Ready(tcb[t].priority));
    }

    /** The scheduler is suspended: put the task into the list of those to be readied later. */
    method KeepPending(t: Task)
      requires Running() && t in at && (at[t].Delayed? || at[t] == Suspended)
      modifies `E, `waits
      ensures Running() && waits == old(waits)[t := Pending] && E.Keys == old(E).Keys
      ensures forall k {:trigger E[k]} :: k in E && k != Pending ==> E[k] == if t in old(waits) && old(waits)[t] == k then Left(old(E)[k], t) else old(E)[k]
    {
      hide StateSide, EventSide, Topped, Ordered, Timed, NextBound, Punctual, Holds;
      ghost var E0, waits0 := E, waits;
      PendingEvents(S, at, E, waits, tcb, idle);
      LeaveEvent(t);
      EnterEndHolds(E, waits, t, Pending);
      E := E[Pending := InsertEnd(E[Pending], t)];
      waits := waits[t := Pending];
      assert waits == waits0[t := Pending];
      EnteredEvents(E0, waits0, at, E, t, Pending);
    }

    // --- suspending, deleting, creating ------------------------------------------------------

    /** Take a task out of all lists and put it at the end of another one. */
    method PutAway(t: Task, k: StateList)
      requires Running() && t in at && t != idle && (k == Suspended || k == Termination)
      modifies `S, `at, `E, `waits
      ensures Running() && at == old(at)[t := k] && waits == old(waits) - {t} && E.Keys == old(E).Keys
      ensures (PendingEmpty(old(E)) ==> PendingEmpty(E)) && IsMoved(old(S), old(at), S, t, k)
    {
      hide Running, Blockable, Structure, EventSide, Holds, Punctual, IsMoved;
      Parts();
      ghost var at0, E0, waits0 := at, E, waits;
      PendingEvents(S, at, E, waits, tcb, idle);
      MoveState(t, k);
      LeaveEvent(t);
      MovedEvents(E0, waits0, at0, E, t, k);
      Whole();
    }

    method MoveState(t: Task, k: StateList)
      requires Blockable() && t in at && t != idle && (k == Suspended || k == Termination)
      modifies `S, `at
      ensures Blockable() && at == old(at)[t := k] && IsMoved(old(S), old(at), S, t, k)
    {
      hide StateSide, Topped, Ordered, Timed, NextBound;
      ghost var S0, at0 := S, at;
      MoveAway(S, at, tcb, idle, topReady, t, k);
      SuspendedTimes(at, tcb, due, second, epoch, Now() + 1, nextUnblock, t, k);
      S := S[at[t] := Remove(S[at[t]], t)];
      S := S[k := InsertEnd(S[k], t)];
      at := at[t := k];
      assert S == Moved(S0, at0, t, k);
    }

    /** vTaskSuspend. The running task may suspend itself only while the scheduler is not suspended. */
    method Suspend(t: Task) returns (yieldNow: bool)
      requires Valid() && t in at && t != idle && at[t] != Termination && (t == current ==> suspended == 0)
      modifies `S, `at, `E, `waits, `nextUnblock
      ensures Valid() && at == old(at)[t := Suspended] && waits == old(waits) - {t} && (yieldNow <==> t == current) && E.Keys == old(E).Keys
      ensures Nearest()
    {
      hide Running, Structure, IsMoved;
      PutAway(t, Suspended);
      RefreshNext();
      yieldNow := t == current;
    }

    method RefreshNext()
      requires Running()
      modifies `nextUnblock
      ensures Running() && Nearest()
    {
      hide Structure, Topped, Ordered, Timed, NextBound, Punctual;
      ResetNextUnblock();
    }

    /** prvTaskIsTaskSuspended: in the list of suspended tasks, and neither waiting for an event nor
        already resumed by an interrupt */
    predicate IsSuspended(t: Task)
      requires t in at
      reads `at, `waits
    {
      at[t] == Suspended && t !in waits
    }

    /** vTaskResume */
    method Resume(t: Task) returns (yieldNow: bool)
      requires Valid() && t in at
      modifies `S, `at, `E, `waits, `topReady
      ensures Valid() && t in tcb && current in tcb
      ensures var resumed := t != current && old(IsSuspended(t));
              && at == (if resumed then old(at)[t := Ready(tcb[t].priority)] else old(at)) && waits == old(waits)
              && (yieldNow <==> resumed && tcb[t].priority >= tcb[current].priority)
    {
      hide Running, Blockable, Structure, StateSide, EventSide, Topped, Ordered, Timed, NextBound, Punctual;
      Parts();
      RunningTask(S, at, E, waits, tcb, idle, current);
      RunningTask(S, at, E, waits, tcb, idle, t);
      yieldNow := false;
      if t != current && IsSuspended(t) {
        assert waits - {t} == waits;
        UnblockTimed(t);
        yieldNow := tcb[t].priority >= tcb[current].priority;
      }
    }

    /** xTaskResumeFromISR */
    method ResumeFromISR(t: Task) returns (yieldNow: bool)
      requires Valid() && t in at
      modifies `S, `at, `E, `waits, `topReady
      ensures Valid() && t in tcb && current in tcb
      ensures if !old(IsSuspended(t)) then at == old(at) && waits == old(waits)
              else if suspended == 0 then at == old(at)[t := Ready(tcb[t].priority)] && waits == old(waits)
              else at == old(at) && waits == old(waits)[t := Pending]
      ensures yieldNow <==> old(IsSuspended(t)) && suspended == 0 && tcb[t].priority >= tcb[current].priority
    {
      hide Running, Blockable, Structure, StateSide, EventSide, Topped, Ordered, Timed, NextBound, Punctual;
      Parts();
      RunningTask(S, at, E, waits, tcb, idle, current);
      RunningTask(S, at, E, waits, tcb, idle, t);
      yieldNow := false;
      if IsSuspended(t) {
        if suspended == 0 {
          yieldNow := tcb[t].priority >= tcb[current].priority;
          assert waits - {t} == waits;
          UnblockTimed(t);
        } else {
          KeepPending(t);
        }
      }
    }

    /** vTaskDelete. A task that deletes itself waits in a list until the idle task gives its memory back. */
    method Delete(t: Task) returns (yieldNow: bool)
      requires Valid() && t in at && t != idle && at[t] != Termination && (t == current ==> suspended == 0)
      modifies `S, `at, `E, `waits, `tcb, `nextUnblock
      ensures Valid() && waits == old(waits) - {t} && (yieldNow <==> t == current)
      ensures if t == current then at == old(at)[t := Termination] && tcb == old(tcb)
              else at == old(at) - {t} && tcb == old(tcb) - {t} && Nearest()
    {
      hide Running, Structure, IsMoved;
      if t == current {
        PutAway(t, Termination);
      } else {
        Forget(t);
        RefreshNext();
      }
      yieldNow := t == current;
    }

    /** Take a task out of all lists and give its memory back. */
    method Forget(t: Task)
      requires Running() && t in at && t != idle && t != current
      modifies `S, `at, `E, `waits, `tcb
      ensures Running() && at == old(at) - {t} && tcb == old(tcb) - {t} && waits == old(waits) - {t}
      ensures PendingEmpty(old(E)) ==> PendingEmpty(E)
      ensures S.Keys == old(S).Keys && old(at)[t] in old(S) && t in old(S)[old(at)[t]].items
      ensures S[old(at)[t]] == Remove(old(S)[old(at)[t]], t)
    {
      hide Running, Blockable, Structure, EventSide, Holds, Punctual;
      Parts();
      ghost var at0, E0, waits0 := at, E, waits;
      PendingEvents(S, at, E, waits, tcb, idle);
      ForgetState(t);
      LeaveEvent(t);
      DeletedEvents(E0, waits0, at0, E, t);
      Whole();
    }

    method ForgetState(t: Task)
      requires Blockable() && t in at && t != idle && t != current
      modifies `S, `at, `tcb
      ensures Blockable() && at == old(at) - {t} && tcb == old(tcb) - {t}
      ensures S.Keys == old(S).Keys && old(at)[t] in old(S) && t in old(S)[old(at)[t]].items
      ensures S[old(at)[t]] == Remove(old(S)[old(at)[t]], t)
    {
      hide StateSide, Topped, Ordered, Timed, NextBound;
      Deleted(S, at, tcb, idle, topReady, t);
      DeletedTimes(at, tcb, due, second, epoch, Now() + 1, nextUnblock, t);
      S := S[at[t] := Remove(S[at[t]], t)];
      at := at - {t};
      tcb := tcb - {t};
    }

    /** prvCheckTasksWaitingTermination, in the idle task */
    method Reap()
      requires Valid() && current == idle
      modifies `S, `at, `E, `waits, `tcb
      ensures Valid() && Count(S, Termination) == 0
      ensures forall t {:trigger t in at} :: t in at <==> t in old(at) && old(at)[t] != Termination
      ensures waits == old(waits) && forall t {:trigger at[t]} :: t in at ==> t in old(at) && at[t] == old(at)[t]
    {
      hide Running, Blockable, Structure, StateSide, EventSide, Topped, Ordered, Timed, NextBound, Punctual;
      Parts();
      FirstIn(S, at, E, waits, tcb, idle, Termination);
      while Count(S, Termination) > 0
        invariant Valid() && Termination in S
        invariant waits == old(waits) && forall t {:trigger at[t]} {:trigger t in at} :: t in at ==> t in old(at) && at[t] == old(at)[t]
        invariant forall t {:trigger t in old(at)} :: t in old(at) && old(at)[t] != Termination ==> t in at
        decreases Count(S, Termination)
      {
        Parts();
        FirstIn(S, at, E, waits, tcb, idle, Termination);
        var t := S[Termination].items[0];
        ReadyWaitsForNothing(S, at, E, waits, tcb, idle, t);
        assert waits - {t} == waits;
        Forget(t);
      }
      Parts();
      FirstIn(S, at, E, waits, tcb, idle, Termination);
    }

    /** xTaskCreate, once the task is set up: prvAddNewTaskToReadyList */
    method Create(t: Task, priority: nat) returns (yieldNow: bool)
      requires Valid() && t !in at && priority < PRIORITIES
      modifies `S, `at, `tcb, `topReady
      ensures Valid() && at == old(at)[t := Ready(priority)] && current in old(tcb)
      ensures tcb == old(tcb)[t := Tcb(priority, priority, 0, 0, PRIORITIES - priority)]
      ensures yieldNow <==> old(tcb)[current].priority < priority
    {
      hide Running, Structure, StateSide, EventSide, Topped, Ordered, Timed, NextBound, Holds, Punctual;
      Parts();
      RunningTask(S, at, E, waits, tcb, idle, current);
      ghost var at0 := at;
      var b := Tcb(priority, priority, 0, 0, PRIORITIES - priority);
      Created(S, at, tcb, idle, topReady, t, b);
      CreatedTimes(at, tcb, due, second, epoch, Now() + 1, nextUnblock, t, b);
      CreatedEvents(E, waits, at, t, Ready(priority));
      tcb := tcb[t := b];
      if priority > topReady { topReady := priority; }
      S := S[Ready(priority) := InsertEnd(S[Ready(priority)], t)];
      at := at[t := Ready(priority)];
      yieldNow := tcb[current].priority < priority;
      Whole();
    }

    // --- suspending and resuming the scheduler -----------------------------------------------

    /** vTaskSuspendAll */
    method SuspendAll()
      requires Valid()
      modifies `suspended
      ensures Valid() && suspended == old(suspended) + 1
    {
      suspended := suspended + 1;
    }

    /** xTaskResumeAll. The outermost call empties the list of pending tasks and catches up with all
        ticks that came meanwhile. */
    method ResumeAll() returns (alreadyYielded: bool)
      requires Valid() && suspended > 0
      modifies `suspended, `S, `at, `E, `waits, `topReady, `yieldPending, `nextUnblock, `tick, `pended, `second, `overflows, `epoch, `timeouts
      ensures Valid() && suspended == old(suspended) - 1
      ensures if suspended > 0 then at == old(at) && waits == old(waits) && Now() == old(Now()) && pended == old(pended)
              else pended == 0 && PendingEmpty(E) && Now() == old(Now()) + old(pended)
                   && Resumed(old(at), at, tcb, due, old(waits), waits, Now())
      ensures old(timeouts) <= timeouts && (suspended == 0 ==> Recorded(old(at), old(waits), due, timeouts, Now()))
      ensures alreadyYielded <==> suspended == 0 && yieldPending
      ensures current in tcb
      ensures yieldPending <==>
                || old(yieldPending)
                || (suspended == 0 && ReadiedAbove(old(at), old(waits), tcb, due, Now(), current))
                || (suspended == 0 && old(pended) > 0 && Shared(at, tcb[current].priority))
    {
      hide Running, Structure, Resumed, Recorded, ReadiedAbove, Shared;
      RunningNow();
      alreadyYielded := false;
      suspended := suspended - 1;
      if suspended == 0 {
        ReadyPending();
        CatchUp(old(at), old(waits), old(yieldPending));
        alreadyYielded := yieldPending;
      }
    }

    /** The first loop of xTaskResumeAll */
    method ReadyPending()
      requires Running()
      modifies `S, `at, `E, `waits, `topReady, `yieldPending, `nextUnblock
      ensures Recorded(old(at), old(waits), due, timeouts, Now())
      ensures Running() && PendingEmpty(E) && Resumed(old(at), at, tcb, due, old(waits), waits, Now())
      ensures yieldPending <==> old(yieldPending) || ReadiedAbove(old(at), old(waits), tcb, due, Now(), current)
      ensures Pending in old(E) && if old(E)[Pending].items == [] then nextUnblock == old(nextUnblock) else Nearest()
    {
      hide Running, Blockable, Structure, StateSide, EventSide, Topped, Ordered, Timed, NextBound, Punctual, Readying, Resumed, Recorded, Holds;
      hide ReadiedAbove, TakenAbove;
      Parts();
      NobodyReadied(at, tcb, waits);
      NoneTakenAbove(at, waits, tcb, current);
      NothingDueNow();
      NothingRecordedNow();
      FirstPending(S, at, E, waits, tcb, idle);
      var moved := false;
      while E[Pending].items != []
        invariant Running() && Pending in E && Readying(old(at), at, tcb, old(waits), waits)
        invariant yieldPending <==> old(yieldPending) || TakenAbove(old(at), old(waits), waits, tcb, current)
        invariant nextUnblock == old(nextUnblock) && (if moved then old(E)[Pending].items != [] else E == old(E))
        decreases if Pending in E then |E[Pending].items| else 0
      {
        var _ := ReadyFirst(old(at), old(waits));
        moved := true;
      }
      if moved { RefreshNext(); }
      Parts();
      FirstPending(S, at, E, waits, tcb, idle);
      AllReadied(old(at), at, tcb, due, old(waits), waits, E, Now());
      AllTakenAbove(old(at), at, old(waits), waits, tcb, due, Now(), current);
    }

    lemma RunningNow()
      requires Running()
      ensures current in tcb && current in at
    {
    }

    method ReadyFirst(ghost at0: map<Task, StateList>, ghost waits0: map<Task, EventList>) returns (ghost above: bool)
      requires Running() && Pending in E && E[Pending].items != [] && Readying(at0, at, tcb, waits0, waits)
      modifies `S, `at, `E, `waits, `topReady, `yieldPending
      ensures Running() && Pending in E && |E[Pending].items| < |old(E)[Pending].items| && Readying(at0, at, tcb, waits0, waits)
      ensures yieldPending == (old(yieldPending) || above)
      ensures TakenAbove(at0, waits0, waits, tcb, current) <==> TakenAbove(at0, waits0, old(waits), tcb, current) || above
    {
      hide Running, Blockable, Structure, StateSide, EventSide, Topped, Ordered, Timed, NextBound, Punctual, Readying, Holds, TakenAbove;
      Parts();
      FirstPending(S, at, E, waits, tcb, idle);
      RunningTask(S, at, E, waits, tcb, idle, current);
      var t := E[Pending].items[0];
      ReadyOne(at0, at, tcb, waits0, waits, t);
      OneTakenAbove(at0, at, waits0, waits, tcb, current, t);
      UnblockTimed(t);
      if tcb[t].priority >= tcb[current].priority { yieldPending := true; }
      above := tcb[t].priority >= tcb[current].priority;
    }

    lemma NothingDueNow()
      requires Running()
      ensures forall t {:trigger at[t]} :: t in at && at[t].Delayed? && t in due ==> due[t] > Now()
    {
      NothingDue(at, tcb, due, second, epoch, Now());
    }

    lemma NothingRecordedNow()
      requires Running()
      ensures Recorded(at, waits, due, timeouts, Now())
    {
      NothingRecorded(at, waits, tcb, due, timeouts, second, epoch, Now());
    }

    /** The second loop of xTaskResumeAll: every pended tick is processed. */
    method CatchUp(ghost at0: map<Task, StateList>, ghost waits0: map<Task, EventList>, ghost yield0: bool)
      requires Running() && suspended == 0 && PendingEmpty(E) && Resumed(at0, at, tcb, due, waits0, waits, Now())
      requires Recorded(at0, waits0, due, timeouts, Now()) && (yieldPending <==> yield0 || ReadiedAbove(at0, waits0, tcb, due, Now(), current))
      modifies `S, `at, `E, `waits, `topReady, `yieldPending, `nextUnblock, `tick, `pended, `second, `overflows, `epoch, `timeouts
      ensures Running() && PendingEmpty(E) && pended == 0 && Now() == old(Now()) + old(pended)
      ensures tick % WRAP == (old(tick) + old(pended)) % WRAP
      ensures Resumed(at0, at, tcb, due, waits0, waits, Now())
      ensures old(timeouts) <= timeouts && Recorded(at0, waits0, due, timeouts, Now()) && current in tcb
      ensures yieldPending <==>
                yield0 || ReadiedAbove(at0, waits0, tcb, due, Now(), current) || (old(pended) > 0 && Shared(at, tcb[current].priority))
    {
      hide Running, Blockable, Structure, StateSide, EventSide, Topped, Ordered, Timed, NextBound, Punctual, Resumed, Expired, PendingEmpty, Recorded;
      hide ReadiedAbove, Shared, Urgent;
      var counts := pended;
      Parts();
      RunningNow();
      ghost var done := 0;
      while counts > 0
        invariant Running() && PendingEmpty(E) && pended == old(pended) && 0 <= counts && done + counts == old(pended)
        invariant Now() == old(Now()) + done && Resumed(at0, at, tcb, due, waits0, waits, Now())
        invariant tick % WRAP == (old(tick) + done) % WRAP
        invariant old(timeouts) <= timeouts && Recorded(at0, waits0, due, timeouts, Now())
        invariant yieldPending <==>
                    yield0 || ReadiedAbove(at0, waits0, tcb, due, Now(), current) || (done > 0 && Shared(at, tcb[current].priority))
        decreases counts
      {
        ghost var at1, waits1, now, timeouts1 := at, waits, Now(), timeouts;
        TickSum(tick, pended, old(tick) + done);
        var switchRequired := IncrementTick();
        AfterTick(at0, at1, at, tcb, due, waits0, waits1, waits, timeouts1, timeouts, now, current, tcb[current].priority);
        TickLeft(tick, pended, old(tick) + done + 1);
        if switchRequired { yieldPending := true; }
        counts := counts - 1;
        done := done + 1;
      }
      ClearPended();
    }

    method ClearPended()
      requires Running()
      modifies `pended
      ensures Running() && pended == 0
    {
      pended := 0;
    }

    /** xTaskCatchUpTicks */
    method CatchUpTicks(ticks: nat) returns (yielded: bool)
      requires Valid() && suspended == 0 && ticks < WRAP
      modifies this
      ensures Valid() && suspended == 0 && Now() == old(Now()) + ticks
      ensures tcb == old(tcb) && due == old(due) && Resumed(old(at), at, tcb, due, old(waits), waits, Now())
      ensures yielded == yieldPending && current in tcb
      ensures yieldPending <==>
                old(yieldPending) || ReadiedAbove(old(at), old(waits), tcb, due, Now(), current) || (ticks > 0 && Shared(at, tcb[current].priority))
    {
      hide Consistent, Structure, Timed, NextBound, Punctual, Topped, Ordered, Resumed, Recorded, ReadiedAbove, Shared, PendingEmpty;
      SuspendAll();
      pended := pended + ticks;
      delivered := delivered + ticks;
      TickMore(tick, delivered, ticks);
      yielded := ResumeAll();
    }

    // --- choosing the next task --------------------------------------------------------------

    /** vTaskSwitchContext: the next task in turn among those with the highest priority. */
    method SwitchContext()
      requires Valid()
      modifies `yieldPending, `topReady, `S, `current
      ensures Valid()
      ensures if suspended > 0 then yieldPending && current == old(current) && S == old(S) && topReady == old(topReady)
              else !yieldPending && current in at && at[current] == Ready(topReady) && current in tcb
                   && (forall t {:trigger at[t]} :: t in at && at[t].Ready? ==> at[t].p <= topReady)
                   && Ready(topReady) in old(S) && old(S)[Ready(topReady)].items != []
                   && old(S)[Ready(topReady)].index <= |old(S)[Ready(topReady)].items|
                   && current == Selected(old(S)[Ready(topReady)])
                   && S == old(S)[Ready(topReady) := Advance(old(S)[Ready(topReady)])]
    {
      hide Running, Structure, EventSide, Topped, Ordered, Timed, NextBound, Punctual, StateSide, PendingEmpty;
      if suspended > 0 {
        yieldPending := true;
      } else {
        Parts();
        yieldPending := false;
        var top := HighestReady();
        ToppedMeans(at, top);
        TakeTurn(top);
        Whole();
      }
    }

    /** listGET_OWNER_OF_NEXT_ENTRY in one ready list */
    method TakeTurn(top: nat)
      requires Blockable() && top < PRIORITIES && Ready(top) in S && S[Ready(top)].items != [] && Topped(at, top)
      modifies `topReady, `S, `current
      ensures Blockable() && topReady == top && current in at && at[current] == Ready(top) && current in tcb
      ensures old(S)[Ready(top)].index <= |old(S)[Ready(top)].items| && current == Selected(old(S)[Ready(top)])
      ensures S == old(S)[Ready(top) := Advance(old(S)[Ready(top)])]
    {
      hide StateSide, Topped, Ordered, Timed, NextBound;
      Advanced(S, at, tcb, idle, top);
      current := Selected(S[Ready(top)]);
      S := S[Ready(top) := Advance(S[Ready(top)])];
      topReady := top;
    }

    /** The search of taskSELECT_HIGHEST_PRIORITY_TASK. It ends above zero because the idle task is ready. */
    method HighestReady() returns (top: nat)
      requires StateSide(S, at, tcb, idle) && Topped(at, topReady)
      ensures top < PRIORITIES && Ready(top) in S && S[Ready(top)].items != [] && Topped(at, top)
    {
      hide StateSide;
      top := topReady;
      EmptyAbove(S, at, tcb, idle, top);
      while S[Ready(top)].items == []
        invariant top < PRIORITIES && Topped(at, top) && Ready(top) in S
        invariant S[Ready(top)].items == [] <==> forall t {:trigger at[t]} :: t in at ==> at[t] != Ready(top)
        decreases top
      {
        assert top != 0;
        top := top - 1;
        EmptyAbove(S, at, tcb, idle, top);
      }
    }

    // --- delays ------------------------------------------------------------------------------

    /** vTaskDelay, with some tick interrupts while it has the scheduler suspended: however many there
        are, the task sleeps until `d` ticks after the call. */
    method Delay(d: int, interrupts: nat) returns (alreadyYielded: bool)
      requires Valid() && suspended == 0 && at[current].Ready? && current != idle && 0 <= d < WRAP && interrupts < WRAP
      modifies this
      ensures Valid() && suspended == 0 && Now() == old(Now()) + (if d > 0 then interrupts else 0)
      ensures current == old(current) && current in at
      ensures d > 0 ==> current in due && due[current] == old(Now()) + d
      ensures tcb.Keys == old(tcb).Keys && old(timeouts) <= timeouts
      ensures if d == 0 then at == old(at) && waits == old(waits) && due == old(due) && tcb == old(tcb) && E == old(E)
                             && tick == old(tick) && second == old(second)
              else due == old(due)[current := old(Now()) + d]
                   && var at0 := old(at)[current := BlockedIn(d, false, old(tick), old(second))];
                      Resumed(at0, at, tcb, due, old(waits), waits, Now()) && Recorded(at0, old(waits), due, timeouts, Now())
      ensures if d > 0 && interrupts < d then at[current].Delayed? else at[current].Ready?
      ensures current in old(tcb) && current in tcb && (d > 0 ==> tcb == WithWake(old(tcb), current, (old(tick) + d) % WRAP))
      ensures alreadyYielded <==> d > 0 && yieldPending
      ensures yieldPending <==>
                || old(yieldPending)
                || (d > 0 && ReadiedAbove(old(at)[current := BlockedIn(d, false, old(tick), old(second))], old(waits), tcb, due, Now(), current))
                || (d > 0 && interrupts > 0 && Shared(at, tcb[current].priority))
    {
      hide Running, Resumed, Recorded, ReadiedAbove, Shared;
      Parts();
      alreadyYielded := false;
      if d > 0 {
        alreadyYielded := DelaySome(d, interrupts);
      }
    }

    method DelaySome(d: int, interrupts: nat) returns (alreadyYielded: bool)
      requires Valid() && suspended == 0 && at[current].Ready? && current != idle && 0 < d < WRAP && interrupts < WRAP
      modifies this
      ensures Valid() && suspended == 0 && Now() == old(Now()) + interrupts && current == old(current) && current in at
      ensures current in due && due[current] == old(Now()) + d
      ensures tcb.Keys == old(tcb).Keys && due == old(due)[current := old(Now()) + d] && old(timeouts) <= timeouts
      ensures var at0 := old(at)[current := BlockedIn(d, false, old(tick), old(second))];
              && Resumed(at0, at, tcb, due, old(waits), waits, Now()) && Recorded(at0, old(waits), due, timeouts, Now())
      ensures if interrupts < d then at[current].Delayed? else at[current].Ready?
      ensures current in old(tcb) && current in tcb && tcb == WithWake(old(tcb), current, (old(tick) + d) % WRAP)
      ensures alreadyYielded <==> yieldPending
      ensures yieldPending <==>
                || old(yieldPending)
                || ReadiedAbove(old(at)[current := BlockedIn(d, false, old(tick), old(second))], old(waits), tcb, due, Now(), current)
                || (interrupts > 0 && Shared(at, tcb[current].priority))
    {
      hide Running, Blockable, Structure, StateSide, EventSide, Topped, Ordered, Timed, NextBound, Punctual, Resumed, Ranges, Recorded;
      hide ReadiedAbove, Shared, WithWake, BlockedIn;
      FallAsleep(d);
      ghost var at0, waits0 := at, waits;
      CountTicks(interrupts);
      Parts();
      alreadyYielded := ResumeAll();
      ResumedTask(at0, at, tcb, due, waits0, waits, Now(), current);
    }

    /** Tick interrupts while the scheduler is suspended are only counted. */
    method CountTicks(n: nat)
      requires Valid() && suspended > 0 && pended + n < WRAP
      modifies this
      ensures Valid() && suspended == old(suspended) && current == old(current) && pended == old(pended) + n && Now() == old(Now())
      ensures at == old(at) && waits == old(waits) && due == old(due) && tcb == old(tcb) && yieldPending == old(yieldPending)
      ensures old(timeouts) <= timeouts
    {
      hide Running, Blockable, Structure, EventSide, Punctual, PendingEmpty;
      for i := 0 to n
        invariant Valid() && suspended == old(suspended) && current == old(current) && pended == old(pended) + i && Now() == old(Now())
        invariant at == old(at) && waits == old(waits) && due == old(due) && tcb == old(tcb) && yieldPending == old(yieldPending)
        invariant old(timeouts) <= timeouts
      {
        Parts();
        var _ := TickInterrupt();
      }
    }

    /** vTaskDelay up to the point where the task is in a delayed list and the scheduler suspended */
    method FallAsleep(d: int)
      requires Valid() && suspended == 0 && at[current].Ready? && current != idle && 0 < d < WRAP
      modifies `suspended, `S, `at, `tcb, `nextUnblock, `due
      ensures Valid() && suspended == 1 && current in at && at[current].Delayed? && current !in waits && tcb.Keys == old(tcb).Keys
      ensures at == old(at)[current := BlockedIn(d, false, tick, second)] && due == old(due)[current := Now() + d]
      ensures current in old(tcb) && tcb == WithWake(old(tcb), current, (tick + d) % WRAP)
    {
      hide Running, Blockable, Structure, StateSide, EventSide, Topped, Ordered, Timed, NextBound, Punctual, Ranges;
      Parts();
      ReadyWaitsForNothing(S, at, E, waits, tcb, idle, current);
      BlockedEvents(E, waits, at, current, BlockedIn(d, false, tick, second));
      SuspendAll();
      AddCurrentToDelayed(d, false);
      Whole();
    }

    // --- priority inheritance ----------------------------------------------------------------

    /** Give a task a new priority; a ready task moves to the end of the ready list of that priority. */
    method Reprioritise(t: Task, p: nat, always: bool)
      requires Running() && t in at && p < PRIORITIES
      modifies `S, `at, `tcb, `topReady
      ensures Running() && t in old(tcb) && tcb == WithPriority(old(tcb), t, p, always) && at == Reordered(old(at), t, p)
    {
      hide Running, Blockable, Structure, EventSide, StateSide, Topped, Ordered, Timed, NextBound, Punctual;
      Parts();
      PriorityEvents(E, waits, at, t, p);
      ReprioritiseState(t, p, always);
      Whole();
    }

    method ReprioritiseState(t: Task, p: nat, always: bool)
      requires Blockable() && t in at && p < PRIORITIES
      modifies `S, `at, `tcb, `topReady
      ensures Blockable() && t in old(tcb) && tcb == WithPriority(old(tcb), t, p, always) && at == Reordered(old(at), t, p)
    {
      hide StateSide, Topped, Ordered, Timed, NextBound, WithPriority;
      ghost var S0, at0 := S, at;
      PriorityStates(S, at, tcb, idle, topReady, t, p, always);
      PriorityTimes(at, tcb, due, second, epoch, Now() + 1, nextUnblock, t, p, always);
      tcb := WithPriority(tcb, t, p, always);
      if at[t].Ready? {
        S := S[at[t] := Remove(S[at[t]], t)];
        if p > topReady { topReady := p; }
        S := S[Ready(p) := InsertEnd(S[Ready(p)], t)];
        at := at[t := Ready(p)];
        assert S == Moved(S0, at0, t, Ready(p));
      }
    }

    /** xTaskPriorityInherit: the running task is about to block on a mutex that `holder` holds. */
    method PriorityInherit(holder: Task) returns (inherited: bool)
      requires Valid() && holder in at
      modifies `S, `at, `tcb, `topReady
      ensures Valid() && holder in old(tcb) && current in old(tcb)
      ensures var h, c := old(tcb)[holder], old(tcb)[current];
              && c.priority < PRIORITIES
              && tcb == (if h.priority < c.priority then WithPriority(old(tcb), holder, c.priority, false) else old(tcb))
              && at == (if h.priority < c.priority then Reordered(old(at), holder, c.priority) else old(at))
              && (inherited <==> h.priority < c.priority || h.base < c.priority)
    {
      hide Running, Structure, Blockable, EventSide;
      Parts();
      RunningTask(S, at, E, waits, tcb, idle, current);
      RunningTask(S, at, E, waits, tcb, idle, holder);
      if tcb[holder].priority < tcb[current].priority {
        Reprioritise(holder, tcb[current].priority, false);
        inherited := true;
      } else {
        inherited := tcb[holder].base < tcb[current].priority;
      }
    }

    /** pvTaskIncrementMutexHeldCount, and the other changes of the number of mutexes held */
    method SetHeld(t: Task, held: nat)
      requires Running() && t in at
      modifies `tcb
      ensures Running() && t in old(tcb) && tcb == WithHeld(old(tcb), t, held)
    {
      hide StateSide, EventSide, Topped, Ordered, Timed, NextBound, Punctual;
      RunningTask(S, at, E, waits, tcb, idle, t);
      HeldKeeps(S, at, tcb, idle, due, second, epoch, Now() + 1, nextUnblock, t, held);
      tcb := WithHeld(tcb, t, held);
    }

    /** xTaskPriorityDisinherit: the running task gives back one of the mutexes it holds. */
    method PriorityDisinherit() returns (switchRequired: bool)
      requires Valid() && current in tcb && tcb[current].held > 0 && tcb[current].base < PRIORITIES
      modifies `S, `at, `tcb, `topReady
      ensures Valid() && current in old(tcb)
      ensures var c := old(tcb)[current]; var less := WithHeld(old(tcb), current, c.held - 1);
              && (switchRequired <==> c.priority != c.base && c.held == 1)
              && tcb == (if switchRequired then WithPriority(less, current, c.base, true) else less)
              && current in old(at) && at == (if switchRequired then Reordered(old(at), current, c.base) else old(at))
    {
      hide Running, Structure, Blockable, EventSide, WithPriority;
      Parts();
      switchRequired := false;
      SetHeld(current, tcb[current].held - 1);
      if tcb[current].priority != tcb[current].base {
        if tcb[current].held == 0 {
          Reprioritise(current, tcb[current].base, true);
          switchRequired := true;
        }
      }
    }

    /** vTaskPriorityDisinheritAfterTimeout. `sound` is false where its assertion fails: the running
        task holds that one mutex itself, with a priority that nobody waiting for it explains. */
    method DisinheritAfterTimeout(holder: Task, highest: nat) returns (sound: bool)
      requires Valid() && holder in at && holder in tcb && tcb[holder].held > 0 && tcb[holder].base < PRIORITIES && highest < PRIORITIES
      modifies `S, `at, `tcb, `topReady
      ensures Valid()
      ensures var h := old(tcb)[holder]; var p := if h.base < highest then highest else h.base;
              && (sound <==> !(holder == current && h.held == 1 && h.priority != p))
              && tcb == (if sound && h.priority != p && h.held == 1 then WithPriority(old(tcb), holder, p, false) else old(tcb))
              && at == (if sound && h.priority != p && h.held == 1 then Reordered(old(at), holder, p) else old(at))
    {
      hide Running, Structure, Blockable, EventSide, WithPriority;
      Parts();
      sound := true;
      var toUse := if tcb[holder].base < highest then highest else tcb[holder].base;
      if tcb[holder].priority != toUse {
        if tcb[holder].held == 1 {
          if holder == current { return false; }
          Reprioritise(holder, toUse, false);
        }
      }
    }
  }
}
