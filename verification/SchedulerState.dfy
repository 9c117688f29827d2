/** The state of the scheduler (FreeRTOS/tasks.c): which list each task is in, and what has to hold
    between the lists, the task control blocks and the time. */
module SchedulerState {
  import opened ListView
  import opened TaskLists
  import Lists

  const WRAP: int := 0x1_0000_0000
  const MAX_DELAY: int := WRAP - 1
  const PRIORITIES: nat := 4

  /** The lists for state items. The two delayed lists change roles when the tick count wraps. */
  datatype StateList = Ready(p: nat) | Delayed(second: bool) | Suspended | Termination

  /** The lists for event items: tasks readied while the scheduler was suspended, and the waiters of
      queues and event groups */
  datatype EventList = Pending | Event(n: nat)

  /** The part of a task control block that matters here: priority, base priority, number of mutexes
      held, and the values of the two list items */
  datatype Tcb = Tcb(priority: nat, base: nat, held: nat, wake: int, event: int)

  /** A task came back from a delayed list because its time was up. */
  datatype TimeOut = TimeOut(task: Task, due: int, now: int)

  type StateLists = map<StateList, View<Task>>
  type EventLists = map<EventList, View<Task>>

  /** Every task has its state item in exactly one list: the ready list of its priority, a delayed
      list, the list of suspended tasks, or that of tasks waiting for termination. The idle task is ready. */
  ghost predicate StateSide(S: StateLists, at: map<Task, StateList>, tcb: map<Task, Tcb>, idle: Task) {
    && Holds(S, at) && at.Keys == tcb.Keys
    && (forall p: nat {:trigger Ready(p)} :: p < PRIORITIES ==> Ready(p) in S)
    && Delayed(false) in S && Delayed(true) in S && Suspended in S && Termination in S
    && (forall t {:trigger at[t]} :: t in at ==> at[t].Ready? ==> at[t].p == tcb[t].priority)
    && (forall t {:trigger tcb[t]} :: t in tcb ==> tcb[t].priority < PRIORITIES && 0 <= tcb[t].wake < WRAP)
    && idle in at && at[idle].Ready?
  }

  /** The event item of a task is in at most one list, and only if the task is blocked or suspended. */
  ghost predicate EventSide(E: EventLists, waits: map<Task, EventList>, at: map<Task, StateList>) {
    && Holds(E, waits) && Pending in E
    && (forall t {:trigger t in waits} :: t in waits ==> t in at && (at[t].Delayed? || at[t] == Suspended))
  }

  ghost predicate Structure(S: StateLists, at: map<Task, StateList>, E: EventLists, waits: map<Task, EventList>,
                            tcb: map<Task, Tcb>, idle: Task)
  {
    StateSide(S, at, tcb, idle) && EventSide(E, waits, at)
  }

  /** `uxTopReadyPriority` is an upper bound. */
  ghost predicate Topped(at: map<Task, StateList>, topReady: nat) {
    topReady < PRIORITIES && forall t {:trigger at[t]} :: t in at ==> at[t].Ready? ==> at[t].p <= topReady
  }

  /** Unbounded time: `due` is when a delayed task has to be woken. Wake times in the current list are
      of this epoch, those in the other one of the next; none is before `least`. */
  ghost predicate Timed(at: map<Task, StateList>, tcb: map<Task, Tcb>, due: map<Task, int>, current: bool, epoch: nat,
                        least: int) {
    forall t {:trigger at[t]} :: t in at && at[t].Delayed? ==>
      t in tcb && t in due && due[t] >= least
      && due[t] == tcb[t].wake + WRAP * (if at[t].second == current then epoch else epoch + 1)
  }

  /** `xNextTaskUnblockTime` is not later than any wake time in the current list. */
  ghost predicate NextBound(at: map<Task, StateList>, tcb: map<Task, Tcb>, current: bool, nextUnblock: int) {
    forall t {:trigger at[t]} :: t in at && at[t] == Delayed(current) ==> t in tcb && nextUnblock <= tcb[t].wake
  }

  /** A delayed list is in the order of the wake times. */
  ghost predicate InOrder(items: seq<Task>, tcb: map<Task, Tcb>) {
    && (forall i {:trigger items[i]} :: 0 <= i < |items| ==> items[i] in tcb)
    && (forall i, j {:trigger items[i], items[j]} :: 0 <= i < j < |items| ==> tcb[items[i]].wake <= tcb[items[j]].wake)
  }

  ghost predicate Ordered(S: StateLists, tcb: map<Task, Tcb>) {
    && Delayed(false) in S && Delayed(true) in S
    && InOrder(S[Delayed(false)].items, tcb) && InOrder(S[Delayed(true)].items, tcb)
  }

  /** Every time-out on record happened when it was due, and none is of a time to come. */
  ghost predicate Punctual(timeouts: seq<TimeOut>, now: int) {
    forall i {:trigger timeouts[i]} :: 0 <= i < |timeouts| ==> timeouts[i].now == timeouts[i].due <= now
  }

  lemma PunctualLater(timeouts: seq<TimeOut>, now: int)
    requires Punctual(timeouts, now)
    ensures Punctual(timeouts, now + 1)
  {
  }

  function Wakes(items: seq<Task>, tcb: map<Task, Tcb>): (s: seq<int>)
    requires forall i {:trigger items[i]} :: 0 <= i < |items| ==> items[i] in tcb
    ensures |s| == |items| && forall i {:trigger s[i]} :: 0 <= i < |items| ==> s[i] == tcb[items[i]].wake
  {
    seq(|items|, i requires 0 <= i < |items| => tcb[items[i]].wake)
  }

  /** vListInsert into a delayed list keeps its order. */
  lemma InsertInOrder(v: View<Task>, t: Task, tcb: map<Task, Tcb>)
    requires InOrder(v.items, tcb) && t in tcb
    ensures InOrder(InsertAt(v, Lists.InsertPlace(Wakes(v.items, tcb), tcb[t].wake), t).items, tcb)
  {
    var w := Wakes(v.items, tcb);
    var k := Lists.InsertPlace(w, tcb[t].wake);
    var r := v.items[..k] + [t] + v.items[k..];
    Lists.InsertKeepsSorted(w, tcb[t].wake);
    var u := w[..k] + [tcb[t].wake] + w[k..];
    forall i {:trigger r[i]} {:trigger u[i]} | 0 <= i < |r| ensures r[i] in tcb && tcb[r[i]].wake == u[i] {
      if i != k { assert r[i] == v.items[if i < k then i else i - 1] && u[i] == w[if i < k then i else i - 1]; }
    }
    WakesInOrder(r, u, tcb);
  }

  lemma WakesInOrder(items: seq<Task>, wakes: seq<int>, tcb: map<Task, Tcb>)
    requires |wakes| == |items| && Lists.Sorted(wakes)
    requires forall i {:trigger items[i]} :: 0 <= i < |items| ==> items[i] in tcb && tcb[items[i]].wake == wakes[i]
    ensures InOrder(items, tcb)
  {
    forall i, j | 0 <= i < j < |items| ensures tcb[items[i]].wake <= tcb[items[j]].wake {
      assert wakes[i] <= wakes[j];
    }
  }

  lemma RemoveInOrder(v: View<Task>, t: Task, tcb: map<Task, Tcb>)
    requires t in v.items && InOrder(v.items, tcb)
    ensures InOrder(Remove(v, t).items, tcb)
  {
    RemovedInOrder(v.items, Find(v.items, t), tcb);
  }

  lemma RemovedInOrder(items: seq<Task>, k: nat, tcb: map<Task, Tcb>)
    requires k < |items| && InOrder(items, tcb)
    ensures InOrder(items[..k] + items[k + 1..], tcb)
  {
    var r := items[..k] + items[k + 1..];
    assert forall i {:trigger r[i]} :: 0 <= i < |r| ==> r[i] == if i < k then items[i] else items[i + 1];
  }

  // --- moving a task to its ready list ---------------------------------------------------------

  /** The state lists after the state item of `t` moved to the end of list `k` */
  function Moved(S: StateLists, at: map<Task, StateList>, t: Task, k: StateList): (r: StateLists)
    requires t in at && at[t] in S && t in S[at[t]].items && k in S
    requires var R := S[at[t] := Remove(S[at[t]], t)]; R[k].index <= |R[k].items|
  {
    var R := S[at[t] := Remove(S[at[t]], t)];
    R[k := InsertEnd(R[k], t)]
  }

  lemma MovedHolds(S: StateLists, at: map<Task, StateList>, t: Task, k: StateList)
    requires Holds(S, at) && t in at && k in S
    ensures at[t] in S && t in S[at[t]].items
    ensures var R := S[at[t] := Remove(S[at[t]], t)];
            R[k].index <= |R[k].items| && Holds(R, at - {t}) && t !in R[k].items && Holds(Moved(S, at, t, k), at[t := k])
  {
    LeaveHolds(S, at, t);
    var R := S[at[t] := Remove(S[at[t]], t)];
    EnterEndHolds(R, at - {t}, t, k);
    assert (at - {t})[t := k] == at[t := k];
  }

  lemma ToppedReady(at: map<Task, StateList>, top: nat, t: Task, p: nat)
    requires Topped(at, top) && p < PRIORITIES
    ensures Topped(at[t := Ready(p)], if p > top then p else top)
  {
  }

  ghost predicate IsMoved(S0: StateLists, at0: map<Task, StateList>, S: StateLists, t: Task, k: StateList) {
    && t in at0 && at0[t] in S0 && t in S0[at0[t]].items && k in S0
    && (var R := S0[at0[t] := Remove(S0[at0[t]], t)]; R[k].index <= |R[k].items|)
    && S == Moved(S0, at0, t, k)
  }

  lemma MovedOrdered(S: StateLists, at: map<Task, StateList>, tcb: map<Task, Tcb>, t: Task, k: StateList)
    requires Holds(S, at) && t in at && k in S && !k.Delayed? && Ordered(S, tcb)
    ensures at[t] in S && t in S[at[t]].items
    ensures var R := S[at[t] := Remove(S[at[t]], t)]; R[k].index <= |R[k].items| && Ordered(Moved(S, at, t, k), tcb)
  {
    MovedHolds(S, at, t, k);
    if at[t].Delayed? { RemoveInOrder(S[at[t]], t, tcb); }
  }

  lemma MoveToReady(S: StateLists, at: map<Task, StateList>, E: EventLists, waits: map<Task, EventList>, tcb: map<Task, Tcb>,
                    idle: Task, top: nat, t: Task)
    requires Structure(S, at, E, waits, tcb, idle) && Topped(at, top) && Ordered(S, tcb) && t in at
    ensures t in tcb && Holds(E, waits) && Ready(tcb[t].priority) in S && at[t] in S && t in S[at[t]].items
    ensures var p := tcb[t].priority; var R := S[at[t] := Remove(S[at[t]], t)];
            && R[Ready(p)].index <= |R[Ready(p)].items|
            && Topped(at[t := Ready(p)], if p > top then p else top) && Ordered(Moved(S, at, t, Ready(p)), tcb)
  {
    MovedOrdered(S, at, tcb, t, Ready(tcb[t].priority));
    ToppedReady(at, top, t, tcb[t].priority);
  }

  lemma MovedToReady(S: StateLists, at: map<Task, StateList>, E: EventLists, waits: map<Task, EventList>, tcb: map<Task, Tcb>,
                     idle: Task, t: Task, E2: EventLists)
    requires Structure(S, at, E, waits, tcb, idle) && t in at && t in tcb && Holds(E2, waits - {t}) && E2.Keys == E.Keys
    requires at[t] in S && t in S[at[t]].items && Ready(tcb[t].priority) in S
    requires var R := S[at[t] := Remove(S[at[t]], t)]; R[Ready(tcb[t].priority)].index <= |R[Ready(tcb[t].priority)].items|
    ensures Structure(Moved(S, at, t, Ready(tcb[t].priority)), at[t := Ready(tcb[t].priority)], E2, waits - {t}, tcb, idle)
  {
    MovedHolds(S, at, t, Ready(tcb[t].priority));
  }

  /** The list after a task left it, if it was in it */
  function Left(v: View<Task>, t: Task): View<Task> { if t in v.items then Remove(v, t) else v }

  function Count(S: StateLists, k: StateList): nat { if k in S then |S[k].items| else 0 }

  lemma ShorterDelayed(S0: StateLists, at0: map<Task, StateList>, S: StateLists, t: Task, p: nat)
    requires IsMoved(S0, at0, S, t, Ready(p)) && at0[t].Delayed?
    ensures Count(S, at0[t]) < Count(S0, at0[t])
  {
  }

  // --- time ------------------------------------------------------------------------------------

  lemma EmptyList(S: StateLists, at: map<Task, StateList>, k: StateList)
    requires Holds(S, at) && k in S
    ensures S[k].items == [] <==> forall t {:trigger at[t]} :: t in at ==> at[t] != k
    ensures S[k].items != [] ==> S[k].items[0] in at && at[S[k].items[0]] == k
  {
    var items := S[k].items;
    if items != [] { assert items[0] in items; }
    forall t {:trigger at[t]} | t in at && items == [] ensures at[t] != k { assert t in S[k].items <==> at[t] == k; }
  }

  /** The head of a delayed list is woken first. */
  lemma HeadIsNext(S: StateLists, at: map<Task, StateList>, E: EventLists, waits: map<Task, EventList>, tcb: map<Task, Tcb>,
                   idle: Task, current: bool)
    requires Structure(S, at, E, waits, tcb, idle) && Ordered(S, tcb)
    ensures var k := Delayed(current);
            && k in S && at.Keys == tcb.Keys
            && (if S[k].items == [] then NextBound(at, tcb, current, MAX_DELAY)
                else var t := S[k].items[0];
                  t in at && at[t] == k && 0 <= tcb[t].wake < WRAP && NextBound(at, tcb, current, tcb[t].wake))
            && (S[k].items == [] ==> forall t {:trigger at[t]} :: t in at ==> at[t] != k)
  {
    var k := Delayed(current);
    EmptyList(S, at, k);
    var items := S[k].items;
    forall t {:trigger at[t]} | t in at && at[t] == k ensures items != [] && tcb[items[0]].wake <= tcb[t].wake {
      assert t in S[k].items;
      var i := Find(items, t);
      if i > 0 { assert tcb[items[0]].wake <= tcb[items[i]].wake; }
    }
  }

  lemma EmptyAtWrap(S: StateLists, at: map<Task, StateList>, E: EventLists, waits: map<Task, EventList>, tcb: map<Task, Tcb>,
                    idle: Task, due: map<Task, int>, current: bool, epoch: nat)
    requires Structure(S, at, E, waits, tcb, idle) && Timed(at, tcb, due, current, epoch, WRAP * (epoch + 1))
    ensures Delayed(current) in S && S[Delayed(current)].items == []
    ensures Timed(at, tcb, due, !current, epoch + 1, WRAP * (epoch + 1))
  {
    forall t {:trigger at[t]} | t in at && at[t].Delayed? ensures at[t].second != current { assert tcb[t].wake < WRAP; }
    EmptyList(S, at, Delayed(current));
  }

  ghost predicate SameWaits(waits0: map<Task, EventList>, waits: map<Task, EventList>, t: Task) {
    (t in waits <==> t in waits0) && (t in waits ==> waits[t] == waits0[t])
  }

  ghost predicate Woken(at: map<Task, StateList>, tcb: map<Task, Tcb>, waits: map<Task, EventList>, t: Task) {
    t in at && t in tcb && at[t] == Ready(tcb[t].priority) && t !in waits
  }

  /** Exactly the delayed tasks that are due became ready. */
  ghost predicate Expired(at0: map<Task, StateList>, at: map<Task, StateList>, tcb: map<Task, Tcb>, due: map<Task, int>,
                          waits0: map<Task, EventList>, waits: map<Task, EventList>, now: int)
  {
    && at.Keys == at0.Keys
    && forall t {:trigger at[t]} :: t in at0 ==>
         if at0[t].Delayed? && t in due && due[t] <= now then Woken(at, tcb, waits, t)
         else at[t] == at0[t] && SameWaits(waits0, waits, t)
  }

  /** The same, while some of them are still to be moved */
  ghost predicate Expiring(at0: map<Task, StateList>, at: map<Task, StateList>, tcb: map<Task, Tcb>, due: map<Task, int>,
                           waits0: map<Task, EventList>, waits: map<Task, EventList>, now: int)
  {
    && at.Keys == at0.Keys
    && forall t {:trigger at[t]} :: t in at0 ==>
         || (at0[t].Delayed? && t in due && due[t] <= now && Woken(at, tcb, waits, t))
         || (at[t] == at0[t] && SameWaits(waits0, waits, t))
  }

  lemma NothingExpired(at: map<Task, StateList>, tcb: map<Task, Tcb>, due: map<Task, int>, waits: map<Task, EventList>, now: int)
    ensures Expiring(at, at, tcb, due, waits, waits, now)
  {
  }

  lemma PunctualMore(timeouts: seq<TimeOut>, e: TimeOut, now: int)
    requires Punctual(timeouts, now) && e.now == e.due <= now
    ensures Punctual(timeouts + [e], now)
  {
  }

  lemma ExpireOne(at0: map<Task, StateList>, at: map<Task, StateList>, tcb: map<Task, Tcb>, due: map<Task, int>,
                  waits0: map<Task, EventList>, waits: map<Task, EventList>, t: Task, current: bool, epoch: nat, tick: int)
    requires Timed(at, tcb, due, current, epoch, WRAP * epoch + tick)
    requires t in at && at[t] == Delayed(current) && t in tcb && tcb[t].wake <= tick && at.Keys == tcb.Keys
    requires Expiring(at0, at, tcb, due, waits0, waits, WRAP * epoch + tick)
    ensures t in due && due[t] == WRAP * epoch + tick
    ensures var p := Ready(tcb[t].priority);
            && Timed(at[t := p], tcb, due, current, epoch, WRAP * epoch + tick)
            && Expiring(at0, at[t := p], tcb, due, waits0, waits - {t}, WRAP * epoch + tick)
  {
    var b, w := at[t := Ready(tcb[t].priority)], waits - {t};
    forall u {:trigger b[u]} | u in at0
      ensures || (at0[u].Delayed? && u in due && due[u] <= WRAP * epoch + tick && Woken(b, tcb, w, u))
              || (b[u] == at0[u] && SameWaits(waits0, w, u))
    {
      if u != t { assert b[u] == at[u]; }
    }
  }

  /** When the head of the current list is still ahead, so is everything delayed. */
  lemma AllAhead(at0: map<Task, StateList>, waits0: map<Task, EventList>, S: StateLists, at: map<Task, StateList>,
                 E: EventLists, waits: map<Task, EventList>, tcb: map<Task, Tcb>, idle: Task, due: map<Task, int>, current: bool, epoch: nat, tick: int, next: int)
    requires Timed(at, tcb, due, current, epoch, WRAP * epoch + tick) && 0 <= tick < WRAP
    requires Expiring(at0, at, tcb, due, waits0, waits, WRAP * epoch + tick)
    requires Structure(S, at, E, waits, tcb, idle) && NextBound(at, tcb, current, next)
    requires next > tick || forall t {:trigger at[t]} :: t in at ==> at[t] != Delayed(current)
    ensures Timed(at, tcb, due, current, epoch, WRAP * epoch + tick + 1)
    ensures Expired(at0, at, tcb, due, waits0, waits, WRAP * epoch + tick)
  {
    forall t {:trigger at[t]} | t in at && at[t].Delayed? ensures due[t] > WRAP * epoch + tick {
      assert 0 <= tcb[t].wake < WRAP;
    }
  }

  /** A task that became ready on this tick has at least the priority of the running one. */
  ghost predicate Urgent(at0: map<Task, StateList>, at: map<Task, StateList>, tcb: map<Task, Tcb>, running: Task) {
    exists t {:trigger at0[t]} :: t in at0 && at0[t].Delayed? && t in at && at[t].Ready?
                                  && t in tcb && running in tcb && tcb[t].priority >= tcb[running].priority
  }

  lemma UrgentStep(at0: map<Task, StateList>, at: map<Task, StateList>, tcb: map<Task, Tcb>, due: map<Task, int>,
                   waits0: map<Task, EventList>, waits: map<Task, EventList>, now: int, running: Task, t: Task)
    requires Expiring(at0, at, tcb, due, waits0, waits, now) && t in at && at[t].Delayed? && t in tcb && running in tcb
    ensures Urgent(at0, at[t := Ready(tcb[t].priority)], tcb, running)
            <==> Urgent(at0, at, tcb, running) || tcb[t].priority >= tcb[running].priority
  {
    var b := at[t := Ready(tcb[t].priority)];
    assert at0[t] == at[t];
    if Urgent(at0, at, tcb, running) {
      var u :| u in at0 && at0[u].Delayed? && u in at && at[u].Ready? && u in tcb && tcb[u].priority >= tcb[running].priority;
      assert b[u].Ready?;
    }
    if Urgent(at0, b, tcb, running) && !(tcb[t].priority >= tcb[running].priority) {
      var u :| u in at0 && at0[u].Delayed? && u in b && b[u].Ready? && u in tcb && tcb[u].priority >= tcb[running].priority;
      assert at[u].Ready?;
    }
  }

  lemma RunningTask(S: StateLists, at: map<Task, StateList>, E: EventLists, waits: map<Task, EventList>, tcb: map<Task, Tcb>,
                    idle: Task, t: Task)
    requires Structure(S, at, E, waits, tcb, idle) && t in at
    ensures t in tcb && tcb[t].priority < PRIORITIES && Ready(tcb[t].priority) in S
  {
  }

  lemma NoneUrgent(at: map<Task, StateList>, tcb: map<Task, Tcb>, running: Task)
    ensures !Urgent(at, at, tcb, running)
  {
  }

  ghost predicate PendingEmpty(E: EventLists) { Pending in E && E[Pending].items == [] }

  // --- blocking ----------------------------------------------------------------------------------

  /** The list prvAddCurrentTaskToDelayedList chooses for a block time of `d` ticks */
  function BlockedIn(d: int, canBlock: bool, tick: int, current: bool): StateList {
    if d == MAX_DELAY && canBlock then Suspended
    else if (tick + d) % WRAP < tick then Delayed(!current) else Delayed(current)
  }

  lemma BlockedWhere(d: int, tick: int, second: bool)
    requires 0 < d < WRAP
    ensures BlockedIn(d, false, tick, second) == Delayed(if (tick + d) % WRAP < tick then !second else second)
  {
  }

  function WithWake(tcb: map<Task, Tcb>, t: Task, wake: int): map<Task, Tcb>
    requires t in tcb
  {
    tcb[t := tcb[t].(wake := wake)]
  }

  lemma LeaveReady(S: StateLists, at: map<Task, StateList>, tcb: map<Task, Tcb>, idle: Task, t: Task)
    requires StateSide(S, at, tcb, idle) && Ordered(S, tcb) && t in at && at[t].Ready?
    ensures t in tcb && at[t] in S && t in S[at[t]].items && at.Keys == tcb.Keys
    ensures var R := S[at[t] := Remove(S[at[t]], t)];
            && Holds(R, at - {t}) && Ordered(R, tcb) && R.Keys == S.Keys
            && Suspended in R && Delayed(true) in R && Delayed(false) in R && t !in R[Delayed(true)].items && t !in R[Delayed(false)].items
  {
    LeaveHolds(S, at, t);
  }

  lemma OtherWake(S: StateLists, tcb: map<Task, Tcb>, t: Task, wake: int)
    requires Ordered(S, tcb) && t in tcb && t !in S[Delayed(true)].items && t !in S[Delayed(false)].items
    ensures Ordered(S, WithWake(tcb, t, wake)) && t in WithWake(tcb, t, wake)
  {
  }

  lemma InsertedOrdered(S: StateLists, tcb: map<Task, Tcb>, t: Task, k: StateList, place: nat)
    requires Ordered(S, tcb) && t in tcb && k.Delayed? && k in S
    requires place == Lists.InsertPlace(Wakes(S[k].items, tcb), tcb[t].wake)
    ensures Ordered(S[k := InsertAt(S[k], place, t)], tcb)
  {
    InsertInOrder(S[k], t, tcb);
  }

  lemma BlockedStates(S0: StateLists, at0: map<Task, StateList>, tcb0: map<Task, Tcb>, idle: Task, t: Task,
                      S: StateLists, k: StateList, tcb: map<Task, Tcb>)
    requires StateSide(S0, at0, tcb0, idle) && t in at0 && t in tcb0 && t != idle && !k.Ready? && k in S0
    requires S.Keys == S0.Keys && Holds(S, at0[t := k])
    requires tcb == tcb0 || exists w {:trigger WithWake(tcb0, t, w)} :: 0 <= w < WRAP && tcb == WithWake(tcb0, t, w)
    ensures StateSide(S, at0[t := k], tcb, idle)
  {
  }

  /** A task that is due at `when` gets into the list of the wrap that this is in. */
  lemma TimedAlso(at: map<Task, StateList>, tcb: map<Task, Tcb>, due: map<Task, int>, current: bool, epoch: nat, least: int,
                  t: Task, k: StateList, wake: int, when: int)
    requires Timed(at, tcb, due, current, epoch, least) && t in tcb
    requires k.Delayed? ==> least <= when == wake + WRAP * (if k.second == current then epoch else epoch + 1)
    ensures Timed(at[t := k], WithWake(tcb, t, wake), due[t := when], current, epoch, least)
  {
    var b, c, u := at[t := k], WithWake(tcb, t, wake), due[t := when];
    forall x {:trigger b[x]} | x in b && b[x].Delayed?
      ensures x in c && x in u && u[x] >= least && u[x] == c[x].wake + WRAP * (if b[x].second == current then epoch else epoch + 1)
    {
      if x != t { assert at[x] == b[x]; }
    }
  }

  lemma NextAlso(at: map<Task, StateList>, tcb: map<Task, Tcb>, current: bool, next: int, t: Task, k: StateList, wake: int)
    requires NextBound(at, tcb, current, next) && t in tcb
    ensures NextBound(at[t := k], WithWake(tcb, t, wake), current, if k == Delayed(current) && wake < next then wake else next)
  {
    var b, c := at[t := k], WithWake(tcb, t, wake);
    forall x {:trigger b[x]} | x in b && b[x] == Delayed(current)
      ensures x in c && (if k == Delayed(current) && wake < next then wake else next) <= c[x].wake
    {
      if x != t { assert at[x] == b[x]; }
    }
  }

  lemma BlockedTimes(at: map<Task, StateList>, tcb: map<Task, Tcb>, due: map<Task, int>, current: bool, epoch: nat, tick: int,
                     next: int, t: Task, d: int)
    requires Timed(at, tcb, due, current, epoch, WRAP * epoch + tick + 1) && NextBound(at, tcb, current, next)
    requires t in at && t in tcb && at[t].Ready? && 0 <= tick < WRAP && 0 < d < WRAP && at.Keys == tcb.Keys
    ensures var wake, k := (tick + d) % WRAP, BlockedIn(d, false, tick, current);
            && Timed(at[t := k], WithWake(tcb, t, wake), due[t := WRAP * epoch + tick + d], current, epoch, WRAP * epoch + tick + 1)
            && NextBound(at[t := k], WithWake(tcb, t, wake), current, if k == Delayed(current) && wake < next then wake else next)
  {
    hide Timed, NextBound, WithWake;
    var wake, k := (tick + d) % WRAP, BlockedIn(d, false, tick, current);
    TimedAlso(at, tcb, due, current, epoch, WRAP * epoch + tick + 1, t, k, wake, WRAP * epoch + tick + d);
    NextAlso(at, tcb, current, next, t, k, wake);
  }

  lemma SuspendedTimes(at: map<Task, StateList>, tcb: map<Task, Tcb>, due: map<Task, int>, current: bool, epoch: nat, least: int,
                       next: int, t: Task, k: StateList)
    requires Timed(at, tcb, due, current, epoch, least) && NextBound(at, tcb, current, next) && !k.Delayed?
    ensures Timed(at[t := k], tcb, due, current, epoch, least) && NextBound(at[t := k], tcb, current, next)
  {
    var b := at[t := k];
    forall x {:trigger b[x]} | x in b && b[x].Delayed? ensures x != t && b[x] == at[x] {}
  }

  lemma BlockedTopped(at: map<Task, StateList>, top: nat, t: Task, k: StateList)
    requires Topped(at, top) && !k.Ready?
    ensures Topped(at[t := k], top)
  {
  }

  lemma BlockedEvents(E: EventLists, waits: map<Task, EventList>, at: map<Task, StateList>, t: Task, k: StateList)
    requires EventSide(E, waits, at) && t !in waits
    ensures EventSide(E, waits, at[t := k])
  {
  }

  lemma NextCount(a: int, d: int)
    requires a % WRAP == d % WRAP
    ensures (a + 1) % WRAP == (d + 1) % WRAP
  {
  }

  lemma OtherList(S: StateLists, tcb: map<Task, Tcb>, k: StateList, v: View<Task>)
    requires Ordered(S, tcb) && !k.Delayed?
    ensures Ordered(S[k := v], tcb)
  {
  }

  // --- events ------------------------------------------------------------------------------------

  /** The event item of a task is in use by an event group while the top bit of its value is set. */
  function InUse(v: int): (event: int)
    ensures WRAP / 2 <= event < WRAP && event % (WRAP / 2) == v % (WRAP / 2)
  {
    if v % WRAP < WRAP / 2 then v % WRAP + WRAP / 2 else v % WRAP
  }

  function WithEvent(tcb: map<Task, Tcb>, t: Task, event: int): map<Task, Tcb>
    requires t in tcb
  {
    tcb[t := tcb[t].(event := event)]
  }

  function EventValues(items: seq<Task>, tcb: map<Task, Tcb>): (s: seq<int>)
    requires forall i {:trigger items[i]} :: 0 <= i < |items| ==> items[i] in tcb
    ensures |s| == |items| && forall i {:trigger s[i]} :: 0 <= i < |items| ==> s[i] == tcb[items[i]].event
  {
    seq(|items|, i requires 0 <= i < |items| => tcb[items[i]].event)
  }

  lemma WaitersKnown(S: StateLists, at: map<Task, StateList>, E: EventLists, waits: map<Task, EventList>, tcb: map<Task, Tcb>,
                     idle: Task, k: EventList)
    requires Structure(S, at, E, waits, tcb, idle) && k in E
    ensures Holds(E, waits) && E[k].index <= |E[k].items| && Pending in E
    ensures forall i {:trigger E[k].items[i]} :: 0 <= i < |E[k].items| ==>
              var t := E[k].items[i]; t in tcb && t in waits && waits[t] == k && t in at && (at[t].Delayed? || at[t] == Suspended) && t != idle
  {
    forall i {:trigger E[k].items[i]} | 0 <= i < |E[k].items|
      ensures var t := E[k].items[i]; t in tcb && t in waits && waits[t] == k && t in at && (at[t].Delayed? || at[t] == Suspended) && t != idle
    {
      assert E[k].items[i] in E[k].items;
    }
  }

  lemma ReadyWaitsForNothing(S: StateLists, at: map<Task, StateList>, E: EventLists, waits: map<Task, EventList>,
                             tcb: map<Task, Tcb>,
                             idle: Task, t: Task)
    requires Structure(S, at, E, waits, tcb, idle) && t in at && (at[t].Ready? || at[t] == Termination)
    ensures t !in waits && t in tcb && Holds(E, waits)
  {
  }

  /** The task `t` was put into an event list and then blocked. */
  lemma WaitingBlocked(E0: EventLists, waits: map<Task, EventList>, at: map<Task, StateList>, E: EventLists, t: Task,
                       e: EventList, k: StateList)
    requires EventSide(E0, waits, at) && Holds(E, waits[t := e]) && E.Keys == E0.Keys && t in at && (k.Delayed? || k == Suspended)
    ensures EventSide(E, waits[t := e], at[t := k])
  {
    forall x {:trigger x in waits[t := e]} | x in waits[t := e]
      ensures x in at[t := k] && (at[t := k][x].Delayed? || at[t := k][x] == Suspended)
    {
      if x != t { assert x in waits; }
    }
  }

  lemma EnteredEvents(E0: EventLists, waits: map<Task, EventList>, at: map<Task, StateList>, E: EventLists, t: Task, e: EventList)
    requires EventSide(E0, waits, at) && Holds(E, waits[t := e]) && E.Keys == E0.Keys
    requires t in at && (at[t].Delayed? || at[t] == Suspended)
    ensures EventSide(E, waits[t := e], at)
  {
  }

  lemma EventStates(S: StateLists, at: map<Task, StateList>, tcb: map<Task, Tcb>, idle: Task, t: Task, v: int)
    requires StateSide(S, at, tcb, idle) && t in tcb
    ensures StateSide(S, at, WithEvent(tcb, t, v), idle)
  {
  }

  lemma EventTimes(S: StateLists, at: map<Task, StateList>, tcb: map<Task, Tcb>, due: map<Task, int>, current: bool, epoch: nat,
                   least: int, next: int, t: Task, v: int)
    requires Ordered(S, tcb) && Timed(at, tcb, due, current, epoch, least) && NextBound(at, tcb, current, next) && t in tcb
    ensures var c := WithEvent(tcb, t, v);
            Ordered(S, c) && Timed(at, c, due, current, epoch, least) && NextBound(at, c, current, next)
  {
  }

  lemma PendingEvents(S: StateLists, at: map<Task, StateList>, E: EventLists, waits: map<Task, EventList>,
                      tcb: map<Task, Tcb>, idle: Task)
    requires Structure(S, at, E, waits, tcb, idle)
    ensures Holds(E, waits) && Pending in E
  {
  }

  // --- leaving and entering the lists ----------------------------------------------------------

  lemma MoveAway(S: StateLists, at: map<Task, StateList>, tcb: map<Task, Tcb>, idle: Task, top: nat, t: Task, k: StateList)
    requires StateSide(S, at, tcb, idle) && Topped(at, top) && Ordered(S, tcb) && t in at && t != idle
    requires k == Suspended || k == Termination
    ensures at[t] in S && t in S[at[t]].items && k in S
    ensures var R := S[at[t] := Remove(S[at[t]], t)];
            && R[k].index <= |R[k].items|
            && var M := Moved(S, at, t, k);
               StateSide(M, at[t := k], tcb, idle) && Topped(at[t := k], top) && Ordered(M, tcb)
  {
    MovedHolds(S, at, t, k);
    MovedOrdered(S, at, tcb, t, k);
  }

  lemma MovedEvents(E0: EventLists, waits: map<Task, EventList>, at: map<Task, StateList>, E: EventLists, t: Task, k: StateList)
    requires EventSide(E0, waits, at) && Holds(E, waits - {t}) && E.Keys == E0.Keys
    ensures EventSide(E, waits - {t}, at[t := k])
  {
    var b, w := at[t := k], waits - {t};
    forall x {:trigger x in w} | x in w ensures x in b && (b[x].Delayed? || b[x] == Suspended) {
      assert x in waits && x != t;
    }
  }

  /** The control block of a deleted task is given back. */
  lemma Deleted(S: StateLists, at: map<Task, StateList>, tcb: map<Task, Tcb>, idle: Task, top: nat, t: Task)
    requires StateSide(S, at, tcb, idle) && Topped(at, top) && Ordered(S, tcb) && t in at && t != idle
    ensures at[t] in S && t in S[at[t]].items
    ensures var R := S[at[t] := Remove(S[at[t]], t)];
            StateSide(R, at - {t}, tcb - {t}, idle) && Topped(at - {t}, top) && Ordered(R, tcb - {t})
  {
    LeaveHolds(S, at, t);
    if at[t].Delayed? { RemoveInOrder(S[at[t]], t, tcb); }
    var R := S[at[t] := Remove(S[at[t]], t)];
    forall b: bool | true ensures InOrder(R[Delayed(b)].items, tcb - {t}) {
      var items := R[Delayed(b)].items;
      forall i | 0 <= i < |items| ensures items[i] in tcb - {t} { assert items[i] in items; }
    }
  }

  lemma DeletedTimes(at: map<Task, StateList>, tcb: map<Task, Tcb>, due: map<Task, int>, current: bool, epoch: nat, least: int,
                     next: int, t: Task)
    requires Timed(at, tcb, due, current, epoch, least) && NextBound(at, tcb, current, next)
    ensures Timed(at - {t}, tcb - {t}, due, current, epoch, least) && NextBound(at - {t}, tcb - {t}, current, next)
  {
    forall x {:trigger (at - {t})[x]} | x in at - {t} ensures x in at && x != t && (at - {t})[x] == at[x] {}
  }

  lemma DeletedEvents(E0: EventLists, waits: map<Task, EventList>, at: map<Task, StateList>, E: EventLists, t: Task)
    requires EventSide(E0, waits, at) && Holds(E, waits - {t}) && E.Keys == E0.Keys
    ensures EventSide(E, waits - {t}, at - {t})
  {
    forall x {:trigger x in waits - {t}} | x in waits - {t}
      ensures x in at - {t} && ((at - {t})[x].Delayed? || (at - {t})[x] == Suspended)
    {
      assert x in waits && x != t;
    }
  }

  lemma Created(S: StateLists, at: map<Task, StateList>, tcb: map<Task, Tcb>, idle: Task, top: nat, t: Task, b: Tcb)
    requires StateSide(S, at, tcb, idle) && Topped(at, top) && Ordered(S, tcb) && t !in at && b.priority < PRIORITIES && b.wake == 0
    ensures var k := Ready(b.priority);
            && k in S && S[k].index <= |S[k].items|
            && StateSide(S[k := InsertEnd(S[k], t)], at[t := k], tcb[t := b], idle)
            && Topped(at[t := k], if b.priority > top then b.priority else top) && Ordered(S[k := InsertEnd(S[k], t)], tcb[t := b])
  {
    EnterEndHolds(S, at, t, Ready(b.priority));
    forall c: bool | true ensures t !in S[Delayed(c)].items {
      assert Delayed(c) in S;
    }
  }

  lemma CreatedTimes(at: map<Task, StateList>, tcb: map<Task, Tcb>, due: map<Task, int>, current: bool, epoch: nat, least: int,
                     next: int, t: Task, b: Tcb)
    requires Timed(at, tcb, due, current, epoch, least) && NextBound(at, tcb, current, next) && t !in at
    ensures Timed(at[t := Ready(b.priority)], tcb[t := b], due, current, epoch, least)
    ensures NextBound(at[t := Ready(b.priority)], tcb[t := b], current, next)
  {
    var a := at[t := Ready(b.priority)];
    forall x {:trigger a[x]} | x in a && a[x].Delayed? ensures x in at && x != t && a[x] == at[x] {}
  }

  lemma CreatedEvents(E: EventLists, waits: map<Task, EventList>, at: map<Task, StateList>, t: Task, k: StateList)
    requires EventSide(E, waits, at) && t !in at
    ensures EventSide(E, waits, at[t := k])
  {
  }

  lemma FirstIn(S: StateLists, at: map<Task, StateList>, E: EventLists, waits: map<Task, EventList>, tcb: map<Task, Tcb>,
                idle: Task, k: StateList)
    requires Structure(S, at, E, waits, tcb, idle) && (k == Termination || k == Suspended)
    ensures k in S && (S[k].items == [] <==> forall t {:trigger at[t]} :: t in at ==> at[t] != k)
    ensures S[k].items != [] ==> S[k].items[0] in at && at[S[k].items[0]] == k && S[k].items[0] != idle
  {
    EmptyList(S, at, k);
  }

  // --- resuming the scheduler ------------------------------------------------------------------

  /** Some of the pending tasks became ready, and nothing else changed. */
  ghost predicate Readying(at0: map<Task, StateList>, at: map<Task, StateList>, tcb: map<Task, Tcb>,
                           waits0: map<Task, EventList>, waits: map<Task, EventList>)
  {
    && at.Keys == at0.Keys
    && forall t {:trigger at[t]} :: t in at0 ==>
         || (t in waits0 && waits0[t] == Pending && Woken(at, tcb, waits, t))
         || (at[t] == at0[t] && SameWaits(waits0, waits, t))
  }

  /** What xTaskResumeAll does to the tasks: those that were pending, and those whose time came while
      the scheduler was suspended, are ready; all others are where they were. */
  ghost predicate Resumed(at0: map<Task, StateList>, at: map<Task, StateList>, tcb: map<Task, Tcb>, due: map<Task, int>,
                          waits0: map<Task, EventList>, waits: map<Task, EventList>, now: int)
  {
    && at.Keys == at0.Keys
    && forall t {:trigger at[t]} :: t in at0 ==>
         if (t in waits0 && waits0[t] == Pending) || (at0[t].Delayed? && t in due && due[t] <= now) then Woken(at, tcb, waits, t)
         else at[t] == at0[t] && SameWaits(waits0, waits, t)
  }

  lemma ReadyOne(at0: map<Task, StateList>, at: map<Task, StateList>, tcb: map<Task, Tcb>,
                 waits0: map<Task, EventList>, waits: map<Task, EventList>, t: Task)
    requires Readying(at0, at, tcb, waits0, waits) && t in at && t in tcb && t in waits && waits[t] == Pending
    ensures Readying(at0, at[t := Ready(tcb[t].priority)], tcb, waits0, waits - {t})
  {
    var b, w := at[t := Ready(tcb[t].priority)], waits - {t};
    forall u {:trigger b[u]} | u in at0
      ensures || (u in waits0 && waits0[u] == Pending && Woken(b, tcb, w, u))
              || (b[u] == at0[u] && SameWaits(waits0, w, u))
    {
      if u != t { assert b[u] == at[u]; }
      assert at[t] == at0[t] || Woken(at, tcb, waits, t);
    }
  }

  /** When no task is pending any more, all that were are ready. */
  lemma AllReadied(at0: map<Task, StateList>, at: map<Task, StateList>, tcb: map<Task, Tcb>, due: map<Task, int>,
                   waits0: map<Task, EventList>, waits: map<Task, EventList>, E: EventLists, now: int)
    requires Readying(at0, at, tcb, waits0, waits) && Holds(E, waits) && PendingEmpty(E)
    requires forall t {:trigger at0[t]} :: t in at0 && at0[t].Delayed? && t in due ==> due[t] > now
    ensures Resumed(at0, at, tcb, due, waits0, waits, now)
  {
    forall t {:trigger waits[t]} | t in waits ensures waits[t] != Pending { assert t in E[waits[t]].items; }
    forall t {:trigger at[t]} | t in at0
      ensures if (t in waits0 && waits0[t] == Pending) || (at0[t].Delayed? && t in due && due[t] <= now) then Woken(at, tcb, waits, t)
              else at[t] == at0[t] && SameWaits(waits0, waits, t)
    {
      assert at0[t] == at0[t];
    }
  }

  lemma ThenTick(at0: map<Task, StateList>, at1: map<Task, StateList>, at: map<Task, StateList>, tcb: map<Task, Tcb>,
                 due: map<Task, int>,
                 waits0: map<Task, EventList>, waits1: map<Task, EventList>, waits: map<Task, EventList>, now: int)
    requires Resumed(at0, at1, tcb, due, waits0, waits1, now) && Expired(at1, at, tcb, due, waits1, waits, now + 1)
    ensures Resumed(at0, at, tcb, due, waits0, waits, now + 1)
  {
    forall t {:trigger at[t]} | t in at0
      ensures if (t in waits0 && waits0[t] == Pending) || (at0[t].Delayed? && t in due && due[t] <= now + 1) then Woken(at, tcb, waits, t)
              else at[t] == at0[t] && SameWaits(waits0, waits, t)
    {
      assert at1[t] == at1[t];
    }
  }

  lemma NobodyReadied(at: map<Task, StateList>, tcb: map<Task, Tcb>, waits: map<Task, EventList>)
    ensures Readying(at, at, tcb, waits, waits)
  {
  }

  // When xTaskResumeAll asks for a switch.

  /** A task that was pending, or whose time came by now, has at least the priority of the running one. */
  ghost predicate ReadiedAbove(at0: map<Task, StateList>, waits0: map<Task, EventList>, tcb: map<Task, Tcb>, due: map<Task, int>,
                               now: int, running: Task)
  {
    exists t {:trigger at0[t]} :: t in at0 && t in tcb && running in tcb && tcb[t].priority >= tcb[running].priority
      && ((t in waits0 && waits0[t] == Pending) || (at0[t].Delayed? && t in due && due[t] <= now))
  }

  /** The same, of the tasks that were pending and have left that list so far */
  ghost predicate TakenAbove(at0: map<Task, StateList>, waits0: map<Task, EventList>, waits: map<Task, EventList>, tcb: map<Task, Tcb>,
                             running: Task)
  {
    exists t {:trigger at0[t]} :: t in at0 && t in tcb && running in tcb && tcb[t].priority >= tcb[running].priority
      && t in waits0 && waits0[t] == Pending && t !in waits
  }

  /** More than one task is ready at a priority. */
  ghost predicate Shared(at: map<Task, StateList>, p: nat) {
    exists t, u {:trigger at[t], at[u]} :: t in at && u in at && t != u && at[t] == Ready(p) && at[u] == Ready(p)
  }

  lemma SharedExactly(S: StateLists, at: map<Task, StateList>, E: EventLists, waits: map<Task, EventList>, tcb: map<Task, Tcb>,
                      idle: Task, p: nat)
    requires Structure(S, at, E, waits, tcb, idle) && p < PRIORITIES
    ensures Ready(p) in S && (|S[Ready(p)].items| > 1 <==> Shared(at, p))
  {
    var items := S[Ready(p)].items;
    if |items| > 1 {
      assert items[0] in items && items[1] in items;
      assert at[items[0]] == Ready(p) && at[items[1]] == Ready(p);
    }
    if Shared(at, p) {
      var t, u :| t in at && u in at && t != u && at[t] == Ready(p) && at[u] == Ready(p);
      assert t in items && u in items;
      var i, j := Find(items, t), Find(items, u);
    }
  }

  lemma NoneTakenAbove(at: map<Task, StateList>, waits: map<Task, EventList>, tcb: map<Task, Tcb>, running: Task)
    ensures !TakenAbove(at, waits, waits, tcb, running)
  {
  }

  lemma OneTakenAbove(at0: map<Task, StateList>, at: map<Task, StateList>, waits0: map<Task, EventList>, waits: map<Task, EventList>,
                      tcb: map<Task, Tcb>, running: Task, t: Task)
    requires Readying(at0, at, tcb, waits0, waits) && t in at && t in tcb && running in tcb && t in waits && waits[t] == Pending
    ensures TakenAbove(at0, waits0, waits - {t}, tcb, running)
            <==> TakenAbove(at0, waits0, waits, tcb, running) || tcb[t].priority >= tcb[running].priority
  {
    assert at[t] == at0[t];
    var w := waits - {t};
    if TakenAbove(at0, waits0, waits, tcb, running) {
      var u :| u in at0 && u in tcb && tcb[u].priority >= tcb[running].priority && u in waits0 && waits0[u] == Pending && u !in waits;
      assert at0[u] == at0[u] && u !in w;
    }
    if TakenAbove(at0, waits0, w, tcb, running) && !(tcb[t].priority >= tcb[running].priority) {
      var u :| u in at0 && u in tcb && tcb[u].priority >= tcb[running].priority && u in waits0 && waits0[u] == Pending && u !in w;
      assert at0[u] == at0[u] && u !in waits;
    }
  }

  lemma AllTakenAbove(at0: map<Task, StateList>, at: map<Task, StateList>, waits0: map<Task, EventList>, waits: map<Task, EventList>,
                      tcb: map<Task, Tcb>, due: map<Task, int>, now: int, running: Task)
    requires Resumed(at0, at, tcb, due, waits0, waits, now)
    requires forall t {:trigger at0[t]} :: t in at0 && at0[t].Delayed? && t in due ==> due[t] > now
    ensures ReadiedAbove(at0, waits0, tcb, due, now, running) <==> TakenAbove(at0, waits0, waits, tcb, running)
  {
    if ReadiedAbove(at0, waits0, tcb, due, now, running) {
      var t :| t in at0 && t in tcb && running in tcb && tcb[t].priority >= tcb[running].priority
        && ((t in waits0 && waits0[t] == Pending) || (at0[t].Delayed? && t in due && due[t] <= now));
      assert at[t] == at[t] && at0[t] == at0[t];
    }
  }

  lemma ThenAbove(at0: map<Task, StateList>, at1: map<Task, StateList>, at: map<Task, StateList>, tcb: map<Task, Tcb>, due: map<Task, int>,
                  waits0: map<Task, EventList>, waits1: map<Task, EventList>, waits: map<Task, EventList>, now: int, running: Task)
    requires Resumed(at0, at1, tcb, due, waits0, waits1, now) && Expired(at1, at, tcb, due, waits1, waits, now + 1)
    ensures ReadiedAbove(at0, waits0, tcb, due, now + 1, running)
            <==> ReadiedAbove(at0, waits0, tcb, due, now, running) || Urgent(at1, at, tcb, running)
  {
    if ReadiedAbove(at0, waits0, tcb, due, now + 1, running) && !ReadiedAbove(at0, waits0, tcb, due, now, running) {
      var t :| t in at0 && t in tcb && running in tcb && tcb[t].priority >= tcb[running].priority
        && ((t in waits0 && waits0[t] == Pending) || (at0[t].Delayed? && t in due && due[t] <= now + 1));
      assert at0[t] == at0[t] && at1[t] == at0[t] && at[t] == at[t];
    }
    if ReadiedAbove(at0, waits0, tcb, due, now, running) {
      var t :| t in at0 && t in tcb && running in tcb && tcb[t].priority >= tcb[running].priority
        && ((t in waits0 && waits0[t] == Pending) || (at0[t].Delayed? && t in due && due[t] <= now));
      assert at0[t] == at0[t];
    }
    if Urgent(at1, at, tcb, running) {
      var t :| t in at1 && at1[t].Delayed? && t in at && at[t].Ready? && t in tcb && running in tcb && tcb[t].priority >= tcb[running].priority;
      assert at1[t] == at1[t] && at[t] == at[t] && at0[t] == at0[t];
    }
  }

  lemma StillShared(at1: map<Task, StateList>, at: map<Task, StateList>, tcb: map<Task, Tcb>, due: map<Task, int>,
                    waits1: map<Task, EventList>, waits: map<Task, EventList>, now: int, p: nat)
    requires Expired(at1, at, tcb, due, waits1, waits, now) && Shared(at1, p)
    ensures Shared(at, p)
  {
    var t, u :| t in at1 && u in at1 && t != u && at1[t] == Ready(p) && at1[u] == Ready(p);
    assert at[t] == Ready(p) && at[u] == Ready(p);
  }

  lemma FirstPending(S: StateLists, at: map<Task, StateList>, E: EventLists, waits: map<Task, EventList>,
                     tcb: map<Task, Tcb>, idle: Task)
    requires Structure(S, at, E, waits, tcb, idle)
    ensures Pending in E && Holds(E, waits)
    ensures E[Pending].items != [] ==>
              var t := E[Pending].items[0];
              t in waits && waits[t] == Pending && t in at && t in tcb && t in E[Pending].items
  {
    if E[Pending].items != [] { assert E[Pending].items[0] in E[Pending].items; }
  }

  lemma NothingDue(at: map<Task, StateList>, tcb: map<Task, Tcb>, due: map<Task, int>, current: bool, epoch: nat, now: int)
    requires Timed(at, tcb, due, current, epoch, now + 1)
    ensures forall t {:trigger at[t]} :: t in at && at[t].Delayed? && t in due ==> due[t] > now
  {
  }

  // --- priorities ------------------------------------------------------------------------------

  /** The control blocks after `t` got a new priority, and an event item value to match unless an event
      group is using that value and it has to be left alone */
  function WithPriority(tcb: map<Task, Tcb>, t: Task, p: nat, always: bool): map<Task, Tcb>
    requires t in tcb && p < PRIORITIES
  {
    tcb[t := tcb[t].(priority := p, event := if always || tcb[t].event < WRAP / 2 then PRIORITIES - p else tcb[t].event)]
  }

  /** An event item that an event group uses keeps its value; one in priority order follows the priority. */
  lemma InUseStays(tcb: map<Task, Tcb>, t: Task, p: nat, v: int)
    requires t in tcb && p < PRIORITIES
    ensures tcb[t].event == InUse(v) ==> WithPriority(tcb, t, p, false)[t] == tcb[t].(priority := p)
    ensures tcb[t].event <= PRIORITIES ==> WithPriority(tcb, t, p, false)[t] == tcb[t].(priority := p, event := PRIORITIES - p)
  {
  }

  function Reordered(at: map<Task, StateList>, t: Task, p: nat): map<Task, StateList>
    requires t in at
  {
    if at[t].Ready? then at[t := Ready(p)] else at
  }

  lemma PriorityStates(S: StateLists, at: map<Task, StateList>, tcb: map<Task, Tcb>, idle: Task, top: nat, t: Task, p: nat,
                       always: bool)
    requires StateSide(S, at, tcb, idle) && Topped(at, top) && Ordered(S, tcb) && t in at && p < PRIORITIES
    ensures t in tcb && at[t] in S && t in S[at[t]].items && Ready(p) in S
    ensures if at[t].Ready? then
              var R := S[at[t] := Remove(S[at[t]], t)];
              && R[Ready(p)].index <= |R[Ready(p)].items|
              && var M := Moved(S, at, t, Ready(p));
                 StateSide(M, Reordered(at, t, p), WithPriority(tcb, t, p, always), idle) && Topped(Reordered(at, t, p), if p > top then p else top)
                 && Ordered(M, WithPriority(tcb, t, p, always))
            else StateSide(S, at, WithPriority(tcb, t, p, always), idle) && Ordered(S, WithPriority(tcb, t, p, always))
  {
    hide Ordered, Remove, InsertEnd, Holds;
    MovedHolds(S, at, t, Ready(p));
    MovedOrdered(S, at, tcb, t, Ready(p));
    PriorityOrdered(if at[t].Ready? then Moved(S, at, t, Ready(p)) else S, tcb, t, p, always);
  }

  lemma PriorityOrdered(S: StateLists, tcb: map<Task, Tcb>, t: Task, p: nat, always: bool)
    requires Ordered(S, tcb) && t in tcb && p < PRIORITIES
    ensures Ordered(S, WithPriority(tcb, t, p, always))
  {
  }

  lemma PriorityTimes(at: map<Task, StateList>, tcb: map<Task, Tcb>, due: map<Task, int>, current: bool, epoch: nat, least: int,
                      next: int, t: Task, p: nat, always: bool)
    requires Timed(at, tcb, due, current, epoch, least) && NextBound(at, tcb, current, next) && t in tcb && t in at && p < PRIORITIES
    ensures Timed(Reordered(at, t, p), WithPriority(tcb, t, p, always), due, current, epoch, least)
    ensures NextBound(Reordered(at, t, p), WithPriority(tcb, t, p, always), current, next)
  {
    var b := Reordered(at, t, p);
    forall x {:trigger b[x]} | x in b && b[x].Delayed? ensures x in at && b[x] == at[x] {}
  }

  lemma PriorityEvents(E: EventLists, waits: map<Task, EventList>, at: map<Task, StateList>, t: Task, p: nat)
    requires EventSide(E, waits, at) && t in at
    ensures EventSide(E, waits, Reordered(at, t, p))
  {
  }

  function WithHeld(tcb: map<Task, Tcb>, t: Task, held: nat): map<Task, Tcb>
    requires t in tcb
  {
    tcb[t := tcb[t].(held := held)]
  }

  lemma HeldKeeps(S: StateLists, at: map<Task, StateList>, tcb: map<Task, Tcb>, idle: Task, due: map<Task, int>,
                  current: bool, epoch: nat,
                  least: int, next: int, t: Task, held: nat)
    requires StateSide(S, at, tcb, idle) && Ordered(S, tcb) && Timed(at, tcb, due, current, epoch, least) && NextBound(at, tcb, current, next)
    requires t in tcb
    ensures var c := WithHeld(tcb, t, held);
            StateSide(S, at, c, idle) && Ordered(S, c) && Timed(at, c, due, current, epoch, least) && NextBound(at, c, current, next)
  {
  }

  /** Walking a list does not change who is in it. */
  lemma Advanced(S: StateLists, at: map<Task, StateList>, tcb: map<Task, Tcb>, idle: Task, p: nat)
    requires StateSide(S, at, tcb, idle) && Ordered(S, tcb) && p < PRIORITIES && Ready(p) in S && S[Ready(p)].items != []
    ensures S[Ready(p)].index <= |S[Ready(p)].items|
    ensures StateSide(S[Ready(p) := Advance(S[Ready(p)])], at, tcb, idle) && Ordered(S[Ready(p) := Advance(S[Ready(p)])], tcb)
    ensures var t := Selected(S[Ready(p)]); t in at && at[t] == Ready(p) && t in tcb && tcb[t].priority == p
  {
    assert Selected(S[Ready(p)]) in S[Ready(p)].items;
    var R := S[Ready(p) := Advance(S[Ready(p)])];
    assert Holds(R, at) by {
      forall k {:trigger R[k]} | k in R ensures Ok(R[k]) && R[k].items == S[k].items { assert Ok(S[k]); }
    }
  }

  lemma EmptyAbove(S: StateLists, at: map<Task, StateList>, tcb: map<Task, Tcb>, idle: Task, p: nat)
    requires StateSide(S, at, tcb, idle) && p < PRIORITIES
    ensures Ready(p) in S && (S[Ready(p)].items == [] <==> forall t {:trigger at[t]} :: t in at ==> at[t] != Ready(p))
    ensures idle in at && at[idle].Ready? && at[idle].p < PRIORITIES
  {
    EmptyList(S, at, Ready(p));
    assert tcb[idle].priority < PRIORITIES;
  }

  lemma TickSum(a: int, p: int, d: int)
    requires a % WRAP == d % WRAP
    ensures (a + p + 1) % WRAP == (d + p + 1) % WRAP
  {
  }

  lemma TickLeft(a: int, p: int, d: int)
    requires (a + p) % WRAP == (d + p) % WRAP
    ensures a % WRAP == d % WRAP
  {
  }

  lemma TickMore(a: int, d: int, n: int)
    requires (a + 0) % WRAP == (d - n) % WRAP
    ensures (a + n) % WRAP == d % WRAP
  {
  }

  lemma ResumedTask(at0: map<Task, StateList>, at: map<Task, StateList>, tcb: map<Task, Tcb>, due: map<Task, int>,
                    waits0: map<Task, EventList>, waits: map<Task, EventList>, now: int, t: Task)
    requires Resumed(at0, at, tcb, due, waits0, waits, now) && t in at0 && t !in waits0 && at0[t].Delayed? && t in due
    ensures t in at && if due[t] <= now then at[t].Ready? else at[t].Delayed?
  {
    assert t in at && at[t] == at[t];
  }

  lemma ToppedMeans(at: map<Task, StateList>, top: nat)
    requires Topped(at, top)
    ensures forall t {:trigger at[t]} :: t in at && at[t].Ready? ==> at[t].p <= top
  {
  }

  // --- the record of time-outs -----------------------------------------------------------------

  /** Every task that was delayed and is ready now has its time-out recorded, at its due time. */
  ghost predicate Recording(at0: map<Task, StateList>, at: map<Task, StateList>, due: map<Task, int>, timeouts: seq<TimeOut>) {
    forall t {:trigger at0[t]} :: t in at0 && at0[t].Delayed? && t in at && at[t].Ready? && t in due ==> TimeOut(t, due[t], due[t]) in timeouts
  }

  /** Every task that was delayed, and not about to be readied, has its time-out recorded if it is due. */
  ghost predicate Recorded(at0: map<Task, StateList>, waits0: map<Task, EventList>, due: map<Task, int>,
                           timeouts: seq<TimeOut>, now: int) {
    forall t {:trigger at0[t]} :: t in at0 && at0[t].Delayed? && !(t in waits0 && waits0[t] == Pending) && t in due && due[t] <= now ==>
      TimeOut(t, due[t], due[t]) in timeouts
  }

  lemma NothingRecorded(at: map<Task, StateList>, waits: map<Task, EventList>, tcb: map<Task, Tcb>, due: map<Task,
                        int>, timeouts: seq<TimeOut>,
                        current: bool, epoch: nat, now: int)
    ensures Recording(at, at, due, timeouts)
    ensures Timed(at, tcb, due, current, epoch, now + 1) ==> Recorded(at, waits, due, timeouts, now)
  {
  }

  lemma RecordOne(at0: map<Task, StateList>, at: map<Task, StateList>, due: map<Task, int>, timeouts: seq<TimeOut>,
                  t: Task, p: nat)
    requires Recording(at0, at, due, timeouts) && t in due
    ensures Recording(at0, at[t := Ready(p)], due, timeouts + [TimeOut(t, due[t], due[t])])
  {
    var b, more := at[t := Ready(p)], timeouts + [TimeOut(t, due[t], due[t])];
    forall u {:trigger at0[u]} | u in at0 && at0[u].Delayed? && u in b && b[u].Ready? && u in due
      ensures TimeOut(u, due[u], due[u]) in more
    {
      if u == t { assert more[|timeouts|] == TimeOut(t, due[t], due[t]); }
      else { assert TimeOut(u, due[u], due[u]) in timeouts; }
    }
  }

  lemma AllRecorded(at0: map<Task, StateList>, at: map<Task, StateList>, tcb: map<Task, Tcb>, due: map<Task, int>,
                    waits0: map<Task, EventList>, waits: map<Task, EventList>, timeouts: seq<TimeOut>, now: int)
    requires Recording(at0, at, due, timeouts) && Expired(at0, at, tcb, due, waits0, waits, now)
    ensures Recorded(at0, waits0, due, timeouts, now)
  {
    forall t {:trigger at0[t]} | t in at0 && at0[t].Delayed? && t in due && due[t] <= now ensures TimeOut(t, due[t], due[t]) in timeouts {
      assert at[t].Ready?;
    }
  }

  lemma ThenRecorded(at0: map<Task, StateList>, at1: map<Task, StateList>, tcb: map<Task, Tcb>, due: map<Task, int>,
                     waits0: map<Task, EventList>, waits1: map<Task, EventList>, timeouts1: seq<TimeOut>, timeouts: seq<TimeOut>, now: int)
    requires Resumed(at0, at1, tcb, due, waits0, waits1, now) && timeouts1 <= timeouts
    requires Recorded(at0, waits0, due, timeouts1, now) && Recorded(at1, waits1, due, timeouts, now + 1)
    ensures Recorded(at0, waits0, due, timeouts, now + 1)
  {
    forall t {:trigger at0[t]} | t in at0 && at0[t].Delayed? && !(t in waits0 && waits0[t] == Pending) && t in due && due[t] <= now + 1
      ensures TimeOut(t, due[t], due[t]) in timeouts
    {
      if due[t] <= now { assert TimeOut(t, due[t], due[t]) in timeouts1; } else { assert at1[t] == at0[t]; }
    }
  }

  /** One more tick, for a task list that has been resumed up to now */
  lemma AfterTick(at0: map<Task, StateList>, at1: map<Task, StateList>, at: map<Task, StateList>, tcb: map<Task, Tcb>, due: map<Task, int>,
                  waits0: map<Task, EventList>, waits1: map<Task, EventList>, waits: map<Task, EventList>, timeouts1: seq<TimeOut>,
                  timeouts: seq<TimeOut>, now: int, running: Task, p: nat)
    requires Resumed(at0, at1, tcb, due, waits0, waits1, now) && Expired(at1, at, tcb, due, waits1, waits, now + 1)
    requires Recorded(at0, waits0, due, timeouts1, now) && Recorded(at1, waits1, due, timeouts, now + 1) && timeouts1 <= timeouts
    ensures Resumed(at0, at, tcb, due, waits0, waits, now + 1) && Recorded(at0, waits0, due, timeouts, now + 1)
    ensures ReadiedAbove(at0, waits0, tcb, due, now + 1, running)
            <==> ReadiedAbove(at0, waits0, tcb, due, now, running) || Urgent(at1, at, tcb, running)
    ensures Shared(at1, p) ==> Shared(at, p)
  {
    hide Resumed, Expired, Recorded, ReadiedAbove, Urgent, Shared;
    ThenRecorded(at0, at1, tcb, due, waits0, waits1, timeouts1, timeouts, now);
    ThenTick(at0, at1, at, tcb, due, waits0, waits1, waits, now);
    ThenAbove(at0, at1, at, tcb, due, waits0, waits1, waits, now, running);
    if Shared(at1, p) { StillShared(at1, at, tcb, due, waits1, waits, now + 1, p); }
  }

  // --- the start -------------------------------------------------------------------------------

  function EmptyLists(idle: Task): StateLists {
    map[Ready(0) := View([idle], 0), Ready(1) := View([], 0), Ready(2) := View([], 0), Ready(3) := View([], 0),
        Delayed(false) := View([], 0), Delayed(true) := View([], 0), Suspended := View([], 0), Termination := View([], 0)]
  }

  lemma StartOk(idle: Task)
    ensures var S, at, tcb := EmptyLists(idle), map[idle := Ready(0)], map[idle := Tcb(0, 0, 0, 0, PRIORITIES)];
            StateSide(S, at, tcb, idle) && Topped(at, 0) && Ordered(S, tcb)
    ensures EventSide(map[Pending := View([], 0)], map[], map[idle := Ready(0)])
  {
    var S, at := EmptyLists(idle), map[idle := Ready(0)];
    forall k, t {:trigger t in S[k].items} | k in S ensures t in S[k].items <==> t in at && at[t] == k {
      if k == Ready(0) { assert S[k].items == [idle]; } else { assert S[k].items == []; }
    }
  }

  lemma MoreEvents(E: EventLists, waits: map<Task, EventList>, at: map<Task, StateList>, e: EventList)
    requires EventSide(E, waits, at) && e !in E
    ensures EventSide(E[e := View([], 0)], waits, at)
  {
    var R := E[e := View([], 0)];
    forall k, t {:trigger t in R[k].items} | k in R ensures t in R[k].items <==> t in waits && waits[t] == k {
      if k == e { assert R[k].items == []; } else { assert R[k] == E[k]; }
    }
  }
}
