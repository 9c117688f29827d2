/** Runs of the scheduler: whatever the other tasks and the interrupts do, a delayed task that nobody
    wakes early comes back exactly when its time is up. */
module SchedulerRuns {
  import opened ListView
  import opened TaskLists
  import opened SchedulerState
  import opened Scheduler
  import Lists

  datatype Step =
    | Tick
    | Switch
    | Create(t: Task, priority: nat)
    | Delay(d: int, interrupts: nat)
    | WaitFor(e: nat, d: int)
    | Wake(e: nat)
    | Suspend(t: Task)
    | Resume(t: Task)
    | ResumeFromISR(t: Task)
    | Delete(t: Task)
    | Lock
    | Unlock
    | Reap

  /** Before its time `t` is in a delayed list, due then, and its time-out is not on record; from that time on
      it is, as one that happened at that time. */
  ghost predicate Sleeps(s: Scheduler, t: Task, wake: int)
    reads s
  {
    if s.Now() < wake then
      && t in s.at && s.at[t].Delayed? && t in s.due && s.due[t] == wake
      && (t in s.waits ==> s.waits[t] != Pending) && TimeOut(t, wake, wake) !in s.timeouts
    else TimeOut(t, wake, wake) in s.timeouts
  }

  // --- what every step does -------------------------------------------------------------------------

  /** The scheduler at some moment */
  datatype Moment = Moment(now: int, tick: int, second: bool, suspended: nat, pended: int, current: Task, idle: Task,
                           at: map<Task, StateList>, waits: map<Task, EventList>, tcb: map<Task, Tcb>, due: map<Task, int>, E: EventLists)

  ghost function Present(s: Scheduler): Moment
    reads s
  {
    Moment(s.Now(), s.tick, s.second, s.suspended, s.pended, s.current, s.idle, s.at, s.waits, s.tcb, s.due, s.E)
  }

  /** The running task may block. */
  ghost predicate MayBlock(a: Moment) {
    a.current in a.at && a.at[a.current].Ready? && a.current != a.idle && a.current in a.tcb
  }

  ghost predicate MayStop(a: Moment, u: Task) {
    u in a.at && u != a.idle && a.at[u] != Termination && (u == a.current ==> a.suspended == 0)
  }

  /** A step from one moment to another. What is not possible, or would wake or stop `t`, is left out. Of the event lists it only says
      who is in them. */
  ghost predicate Took(step: Step, t: Task, a: Moment, b: Moment) {
    match step
    case Tick =>
      if a.suspended > 0 then b == a.(pended := (a.pended + 1) % WRAP, tick := b.tick, second := b.second, E := b.E)
      else b == a.(now := a.now + 1, tick := b.tick, second := b.second, at := b.at, waits := b.waits, E := b.E)
           && Expired(a.at, b.at, a.tcb, a.due, a.waits, b.waits, b.now)
    case Switch =>
      if a.suspended > 0 then b == a
      else b == a.(current := b.current) && b.current in a.at && a.at[b.current].Ready?
           && forall u {:trigger a.at[u]} :: u in a.at && a.at[u].Ready? ==> a.at[u].p <= a.at[b.current].p
    case Create(u, p) =>
      b == if u in a.at || p >= PRIORITIES then a
           else a.(at := a.at[u := Ready(p)], tcb := a.tcb[u := Tcb(p, p, 0, 0, PRIORITIES - p)])
    case Delay(d, n) =>
      if a.suspended > 0 || !MayBlock(a) || !(0 < d < WRAP) || n >= WRAP then b == a
      else b == a.(now := a.now + n, tick := b.tick, second := b.second, at := b.at, waits := b.waits, tcb := b.tcb,
                   due := a.due[a.current := a.now + d], E := b.E)
           && Resumed(a.at[a.current := BlockedIn(d, false, a.tick, a.second)], b.at, b.tcb, b.due, a.waits, b.waits, b.now)
    case WaitFor(e, d) =>
      b == if Event(e) !in a.E || !MayBlock(a) || !(0 < d < WRAP) then a
           else a.(at := a.at[a.current := BlockedIn(d, true, a.tick, a.second)], waits := a.waits[a.current := Event(e)],
                   tcb := if d == MAX_DELAY then a.tcb else WithWake(a.tcb, a.current, (a.tick + d) % WRAP),
                   due := if d == MAX_DELAY then a.due else a.due[a.current := a.now + d], E := b.E)
    case Wake(e) =>
      if Event(e) !in a.E || a.E[Event(e)].items == [] || a.E[Event(e)].items[0] == t then b == a
      else var w := a.E[Event(e)].items[0];
        w in a.tcb && b == if a.suspended > 0 then a.(waits := a.waits[w := Pending], E := b.E)
                           else a.(at := a.at[w := Ready(a.tcb[w].priority)], waits := a.waits - {w}, E := b.E)
    case Suspend(u) => b == if MayStop(a, u) && u != t then a.(at := a.at[u := Suspended], waits := a.waits - {u}, E := b.E) else a
    case Resume(u) =>
      if u in a.at && u != t && u != a.current && a.at[u] == SchedulerState.Suspended && u !in a.waits
      then u in a.tcb && b == a.(at := a.at[u := Ready(a.tcb[u].priority)], E := b.E)
      else b == a.(E := b.E)
    case ResumeFromISR(u) =>
      if u in a.at && u != t && a.at[u] == SchedulerState.Suspended && u !in a.waits
      then u in a.tcb && b == if a.suspended > 0 then a.(waits := a.waits[u := Pending], E := b.E)
                              else a.(at := a.at[u := Ready(a.tcb[u].priority)], E := b.E)
      else b == a.(E := b.E)
    case Delete(u) =>
      b == if !MayStop(a, u) || u == t then a
           else if u == a.current then a.(at := a.at[u := Termination], waits := a.waits - {u}, E := b.E)
           else a.(at := a.at - {u}, tcb := a.tcb - {u}, waits := a.waits - {u}, E := b.E)
    case Lock => b == a.(suspended := a.suspended + 1)
    case Unlock =>
      if a.suspended != 1 then b == a.(suspended := if a.suspended == 0 then 0 else a.suspended - 1, tick := b.tick, second := b.second, E := b.E)
      else b == a.(suspended := 0, pended := 0, now := a.now + a.pended, tick := b.tick, second := b.second, at := b.at, waits := b.waits, E := b.E)
           && Resumed(a.at, b.at, a.tcb, a.due, a.waits, b.waits, b.now)
    case Reap =>
      if a.current != a.idle then b == a
      else b == a.(at := b.at, tcb := b.tcb, E := b.E)
           && (forall u {:trigger u in b.at} :: u in b.at <==> u in a.at && a.at[u] != Termination)
           && (forall u {:trigger b.at[u]} :: u in b.at ==> u in a.at && b.at[u] == a.at[u])
  }

  ghost predicate AllTook(steps: seq<Step>, t: Task, moments: seq<Moment>, n: nat) {
    n <= |steps| && n < |moments| && forall i {:trigger steps[i]} :: 0 <= i < n ==> Took(steps[i], t, moments[i], moments[i + 1])
  }

  lemma NoneTook(steps: seq<Step>, t: Task, a: Moment)
    ensures AllTook(steps, t, [a], 0)
  {
  }

  lemma OneTook(steps: seq<Step>, t: Task, moments: seq<Moment>, n: nat, b: Moment)
    requires AllTook(steps, t, moments, n) && n < |steps| && |moments| == n + 1 && Took(steps[n], t, moments[n], b)
    ensures AllTook(steps, t, moments + [b], n + 1)
  {
    hide Took;
  }

  /** No time-out is on record before it happens. */
  lemma NotYet(s: Scheduler, t: Task, wake: int)
    requires s.Valid() && s.Now() < wake
    ensures TimeOut(t, wake, wake) !in s.timeouts
  {
    hide Structure, Topped, Ordered, Timed, NextBound, PendingEmpty;
  }

  method PerformWait(s: Scheduler, e: nat, d: int, t: Task, ghost wake: int)
    requires s.Valid() && Sleeps(s, t, wake)
    modifies s
    ensures s.Valid() && Sleeps(s, t, wake)
    ensures Took(WaitFor(e, d), t, old(Present(s)), Present(s))
  {
    hide Scheduler.Running, Scheduler.Blockable, Structure, EventSide, BlockedIn, WithWake, EventValues, Lists.InsertPlace, InsertAt, PendingEmpty;
    s.Parts();
    KnownTasks(s);
    if Event(e) in s.E && s.at[s.current].Ready? && s.current != s.idle && 0 < d < WRAP {
      s.PlaceOnEventList(e, d);
    }
  }

  method PerformWake(s: Scheduler, e: nat, t: Task, ghost wake: int)
    requires s.Valid() && Sleeps(s, t, wake)
    modifies s
    ensures s.Valid() && Sleeps(s, t, wake)
    ensures Took(Wake(e), t, old(Present(s)), Present(s))
  {
    hide Scheduler.Running, Scheduler.Blockable, Structure, EventSide, Remove, Find, PendingEmpty;
    s.Parts();
    if Event(e) in s.E && s.E[Event(e)].items != [] && s.E[Event(e)].items[0] != t {
      var _ := s.RemoveFromEventList(e);
    }
  }

  lemma KnownTasks(s: Scheduler)
    requires s.Valid()
    ensures s.at.Keys == s.tcb.Keys
  {
  }

  method PerformTask(s: Scheduler, step: Step, t: Task, ghost wake: int)
    requires step.Create? || step.Suspend? || step.Delete?
    requires s.Valid() && Sleeps(s, t, wake)
    modifies s
    ensures s.Valid() && Sleeps(s, t, wake)
    ensures Took(step, t, old(Present(s)), Present(s))
  {
    hide Scheduler.Running, Scheduler.Blockable, Structure, EventSide, Count, PendingEmpty;
    s.Parts();
    match step {
      case Create(u, priority) => if u !in s.at && priority < PRIORITIES { var _ := s.Create(u, priority); }
      case Suspend(u) => if CanStop(s, u) && u != t { var _ := s.Suspend(u); }
      case Delete(u) => if CanStop(s, u) && u != t { var _ := s.Delete(u); }
      case _ =>
    }
  }

  method PerformResume(s: Scheduler, step: Step, t: Task, ghost wake: int)
    requires step.Resume? || step.ResumeFromISR?
    requires s.Valid() && Sleeps(s, t, wake)
    modifies s
    ensures s.Valid() && Sleeps(s, t, wake)
    ensures Took(step, t, old(Present(s)), Present(s))
  {
    hide Scheduler.Running, Scheduler.Blockable, Structure, EventSide, Count, PendingEmpty;
    s.Parts();
    match step {
      case Resume(u) => if u in s.at && u != t { var _ := s.Resume(u); }
      case ResumeFromISR(u) => if u in s.at && u != t { var _ := s.ResumeFromISR(u); }
      case _ =>
    }
  }

  method PerformOther(s: Scheduler, step: Step, t: Task, ghost wake: int)
    requires step.Switch? || step.Lock? || step.Reap?
    requires s.Valid() && Sleeps(s, t, wake)
    modifies s
    ensures s.Valid() && Sleeps(s, t, wake)
    ensures Took(step, t, old(Present(s)), Present(s))
  {
    hide Scheduler.Running, Scheduler.Blockable, Structure, EventSide, Count, PendingEmpty;
    s.Parts();
    match step {
      case Switch => s.SwitchContext();
      case Lock => s.SuspendAll();
      case Reap => if s.current == s.idle { s.Reap(); }
      case _ =>
    }
  }

  predicate CanStop(s: Scheduler, u: Task)
    reads s
  {
    u in s.at && u != s.idle && s.at[u] != Termination && (u == s.current ==> s.suspended == 0)
  }

  method PerformTick(s: Scheduler, t: Task, ghost wake: int)
    requires s.Valid() && Sleeps(s, t, wake)
    modifies s
    ensures s.Valid() && Sleeps(s, t, wake)
    ensures Took(Tick, t, old(Present(s)), Present(s))
  {
    hide Scheduler.Running;
    ghost var at0 := s.at;
    var _ := s.TickInterrupt();
    assert t in at0 && t in s.at ==> s.at[t] == s.at[t] && at0[t] == at0[t];
    if s.Now() < wake { NotYet(s, t, wake); }
  }

  method PerformDelay(s: Scheduler, d: int, interrupts: nat, t: Task, ghost wake: int)
    requires s.Valid() && Sleeps(s, t, wake)
    modifies s
    ensures s.Valid() && Sleeps(s, t, wake)
    ensures Took(Delay(d, interrupts), t, old(Present(s)), Present(s))
  {
    hide Scheduler.Running, Resumed, Recorded, BlockedIn, PendingEmpty;
    s.Parts();
    KnownTasks(s);
    if s.suspended == 0 && s.at[s.current].Ready? && s.current != s.idle && 0 <= d < WRAP && interrupts < WRAP {
      ghost var at0, waits0, timeouts0 := s.at[s.current := BlockedIn(d, false, s.tick, s.second)], s.waits, s.timeouts;
      ghost var now := s.Now();
      var _ := s.Delay(d, interrupts);
      if d > 0 { StillSleeps(s, t, wake, now, at0, waits0, timeouts0); } else { SleepsNow(s, t, wake, timeouts0); }
    }
  }

  method PerformUnlock(s: Scheduler, t: Task, ghost wake: int)
    requires s.Valid() && Sleeps(s, t, wake)
    modifies s
    ensures s.Valid() && Sleeps(s, t, wake)
    ensures Took(Unlock, t, old(Present(s)), Present(s))
  {
    hide Scheduler.Running, Resumed, Recorded;
    s.Parts();
    if s.suspended > 0 {
      ghost var at0, waits0, timeouts0, now := s.at, s.waits, s.timeouts, s.Now();
      var _ := s.ResumeAll();
      if s.suspended == 0 { StillSleeps(s, t, wake, now, at0, waits0, timeouts0); } else { SleepsNow(s, t, wake, timeouts0); }
    }
  }

  lemma RecordKept(before: seq<TimeOut>, after: seq<TimeOut>, e: TimeOut)
    requires before <= after
    ensures e in before ==> e in after
  {
    if e in before {
      var i :| 0 <= i < |before| && before[i] == e;
      assert after[i] == e;
    }
  }

  lemma StillSleeps(s: Scheduler, t: Task, wake: int, now: int, at0: map<Task, StateList>, waits0: map<Task, EventList>,
                    timeouts0: seq<TimeOut>)
    requires s.Valid() && now <= s.Now() && timeouts0 <= s.timeouts
    requires if now < wake then t in at0 && at0[t].Delayed? && t in s.due && s.due[t] == wake && (t in waits0 ==> waits0[t] != Pending)
             else TimeOut(t, wake, wake) in timeouts0
    requires Resumed(at0, s.at, s.tcb, s.due, waits0, s.waits, s.Now()) && Recorded(at0, waits0, s.due, s.timeouts, s.Now())
    ensures Sleeps(s, t, wake)
  {
    hide Scheduler.Valid, Resumed, Recorded;
    RecordKept(timeouts0, s.timeouts, TimeOut(t, wake, wake));
    if now < wake { StillAsleep(at0, s.at, s.tcb, s.due, waits0, s.waits, s.timeouts, s.Now(), t); }
    if s.Now() < wake { NotYet(s, t, wake); }
  }

  lemma SleepsNow(s: Scheduler, t: Task, wake: int, timeouts0: seq<TimeOut>)
    requires s.Valid() && timeouts0 <= s.timeouts
    requires if s.Now() < wake then t in s.at && s.at[t].Delayed? && t in s.due && s.due[t] == wake && (t in s.waits ==> s.waits[t] != Pending)
             else TimeOut(t, wake, wake) in timeouts0
    ensures Sleeps(s, t, wake)
  {
    hide Scheduler.Valid;
    RecordKept(timeouts0, s.timeouts, TimeOut(t, wake, wake));
    if s.Now() < wake { NotYet(s, t, wake); }
  }

  lemma StillAsleep(at0: map<Task, StateList>, at: map<Task, StateList>, tcb: map<Task, Tcb>, due: map<Task, int>,
                    waits0: map<Task, EventList>, waits: map<Task, EventList>, timeouts: seq<TimeOut>, now: int, t: Task)
    requires Resumed(at0, at, tcb, due, waits0, waits, now) && Recorded(at0, waits0, due, timeouts, now)
    requires t in at0 && at0[t].Delayed? && t in due && (t in waits0 ==> waits0[t] != Pending)
    ensures if now < due[t] then t in at && at[t] == at0[t] && (t in waits ==> waits[t] != Pending) else TimeOut(t, due[t], due[t]) in timeouts
  {
    assert t in at && at[t] == at[t];
  }

  /** One step, if it is possible now and does not wake, suspend or delete `t`. */
  method Perform(s: Scheduler, step: Step, t: Task, ghost wake: int)
    requires s.Valid() && Sleeps(s, t, wake)
    modifies s
    ensures s.Valid() && Sleeps(s, t, wake)
    ensures Took(step, t, old(Present(s)), Present(s))
  {
    hide Scheduler.Running, BlockedIn, Count, Sleeps, Took;
    match step
    case Tick => PerformTick(s, t, wake);
    case Delay(d, interrupts) => PerformDelay(s, d, interrupts, t, wake);
    case WaitFor(e, d) => PerformWait(s, e, d, t, wake);
    case Wake(e) => PerformWake(s, e, t, wake);
    case Unlock => PerformUnlock(s, t, wake);
    case Resume(_) => PerformResume(s, step, t, wake);
    case ResumeFromISR(_) => PerformResume(s, step, t, wake);
    case Create(_, _) => PerformTask(s, step, t, wake);
    case Suspend(_) => PerformTask(s, step, t, wake);
    case Delete(_) => PerformTask(s, step, t, wake);
    case _ => PerformOther(s, step, t, wake);
  }

  /** Over every run, across any number of wraps of the tick count: a delayed task stays delayed until it is
      due, with no time-out on record, and its time-out happens at that very tick. */
  method Run(s: Scheduler, steps: seq<Step>, t: Task, ghost wake: int) returns (ghost moments: seq<Moment>)
    requires s.Valid() && t in s.at && s.at[t].Delayed? && t in s.due && s.due[t] == wake
    requires t in s.waits ==> s.waits[t] != Pending
    modifies s
    ensures s.Valid()
    ensures if s.Now() < wake then t in s.at && s.at[t].Delayed? && t in s.due && s.due[t] == wake
            else TimeOut(t, wake, wake) in s.timeouts && TimeOut(t, wake, wake) !in old(s.timeouts)
    ensures |moments| == |steps| + 1 && moments[0] == old(Present(s)) && moments[|steps|] == Present(s) && AllTook(steps, t, moments, |steps|)
  {
    hide Took, AllTook, Sleeps;
    StillAhead(s, t);
    NotYet(s, t, wake);
    Asleep(s, t, wake);
    moments := [Present(s)];
    NoneTook(steps, t, Present(s));
    for i := 0 to |steps|
      invariant s.Valid() && Sleeps(s, t, wake)
      invariant |moments| == i + 1 && moments[0] == old(Present(s)) && moments[i] == Present(s) && AllTook(steps, t, moments, i)
    {
      Perform(s, steps[i], t, wake);
      OneTook(steps, t, moments, i, Present(s));
      moments := moments + [Present(s)];
    }
    Slept(s, t, wake);
  }

  lemma Asleep(s: Scheduler, t: Task, wake: int)
    requires t in s.at && s.at[t].Delayed? && t in s.due && s.due[t] == wake && s.Now() < wake
    requires (t in s.waits ==> s.waits[t] != Pending) && TimeOut(t, wake, wake) !in s.timeouts
    ensures Sleeps(s, t, wake)
  {
  }

  lemma Slept(s: Scheduler, t: Task, wake: int)
    requires Sleeps(s, t, wake)
    ensures if s.Now() < wake then t in s.at && s.at[t].Delayed? && t in s.due && s.due[t] == wake else TimeOut(t, wake, wake) in s.timeouts
  {
  }

  lemma StillAhead(s: Scheduler, t: Task)
    requires s.Valid() && t in s.at && s.at[t].Delayed? && t in s.due
    ensures s.Now() < s.due[t]
  {
    s.NothingDueNow();
  }
}
