/** Runs with mutexes: priority inheritance keeps its accounts whatever the tasks do. */
module MutexRuns {
  import opened ListView
  import opened TaskLists
  import opened SchedulerState
  import opened Scheduler
  import SchedulerRuns
  import opened Mutexes

  datatype Step =
    | Tick
    | Switch
    | Create(t: Task, priority: nat)
    | NewMutex(m: nat)
    | Take(m: nat, ticks: int)
    | Give(m: nat)
    | GiveUp

  /** What a blocked call of xQueueSemaphoreTake remembers: the mutex, and what xTaskPriorityInherit returned */
  datatype Waiting = Waiting(m: nat, inherited: bool)

  /** Tasks, mutexes, and what the blocked calls remember, at some moment */
  datatype State = State(s: SchedulerRuns.Moment, mutexes: set<nat>, holder: map<nat, Task>, waiting: map<Task, Waiting>)

  ghost function Current(x: Mutexes, waiting: map<Task, Waiting>): State
    reads x, x.s
  {
    State(SchedulerRuns.Present(x.s), x.mutexes, x.holder, waiting)
  }

  // --- what every step does -------------------------------------------------------------------------

  /** The running task takes a mutex: it has it, or gives up at once, or blocks. */
  ghost predicate Taking(m: nat, ticks: int, a: State, b: State) {
    var c := a.s.current;
    if m !in a.mutexes || !(0 <= ticks < WRAP) || c !in a.s.at || !a.s.at[c].Ready? || (ticks > 0 && c == a.s.idle) then
      b == a
    else if c !in a.s.tcb then
      false
    else if m !in a.holder then
      b == a.(s := a.s.(tcb := WithHeld(a.s.tcb, c, a.s.tcb[c].held + 1)), holder := a.holder[m := c], waiting := a.waiting - {c})
    else if ticks == 0 then
      b == a.(waiting := a.waiting - {c})
    else
      Blocking(m, ticks, a, b)
  }

  /** It blocks after the holder has got its priority. */
  ghost predicate Blocking(m: nat, ticks: int, a: State, b: State)
    requires m in a.holder && a.s.current in a.s.tcb
  {
    var c, h := a.s.current, a.holder[m];
    var p := a.s.tcb[c].priority;
    && h in a.s.tcb && h in a.s.at && p < PRIORITIES
    && var raise := a.s.tcb[h].priority < p;
       var tcb := if raise then WithPriority(a.s.tcb, h, p, false) else a.s.tcb;
       b == a.(s := a.s.(tcb := if ticks == MAX_DELAY then tcb else WithWake(tcb, c, (a.s.tick + ticks) % WRAP),
                         at := (if raise then Reordered(a.s.at, h, p) else a.s.at)[c := BlockedIn(ticks, true, a.s.tick, a.s.second)],
                         waits := a.s.waits[c := Event(m)], due := if ticks == MAX_DELAY then a.s.due else a.s.due[c := a.s.now + ticks],
                         E := b.s.E),
               waiting := a.waiting[c := Waiting(m, raise || a.s.tcb[h].base < p)])
  }

  /** It gives a mutex back, gets its base priority with its last one, and the first waiter is released. */
  ghost predicate Giving(m: nat, a: State, b: State) {
    var c := a.s.current;
    if m !in a.mutexes || m !in a.holder || a.holder[m] != c then b == a.(s := a.s.(E := b.s.E))
    else
      && c in a.s.tcb && c in a.s.at && Event(m) in a.s.E && a.s.tcb[c].held > 0 && a.s.tcb[c].base < PRIORITIES
      && var less := WithHeld(a.s.tcb, c, a.s.tcb[c].held - 1); var lowered := a.s.tcb[c].priority != a.s.tcb[c].base && a.s.tcb[c].held == 1;
         var tcb := if lowered then WithPriority(less, c, a.s.tcb[c].base, true) else less;
         var at := if lowered then Reordered(a.s.at, c, a.s.tcb[c].base) else a.s.at;
         var waiters := a.s.E[Event(m)].items;
         if waiters == [] then b == a.(s := a.s.(tcb := tcb, at := at, E := b.s.E), holder := a.holder - {m})
         else waiters[0] in tcb && b == a.(s := a.s.(tcb := tcb, at := at[waiters[0] := Ready(tcb[waiters[0]].priority)],
                                                     waits := a.s.waits - {waiters[0]}, E := b.s.E), holder := a.holder - {m})
  }

  /** It is running again after it has blocked on a mutex. */
  ghost predicate BackAgain(a: State) {
    a.s.current in a.waiting && a.s.current in a.s.at && a.s.at[a.s.current].Ready?
  }

  /** The priority that the holder `h` of a mutex is left with, when a task gives up waiting for it */
  ghost function LeftWith(a: State, m: nat, h: Task): nat
    requires h in a.s.tcb
  {
    var waiters := if Event(m) in a.s.E then a.s.E[Event(m)].items else [];
    var highest := if waiters != [] && waiters[0] in a.s.tcb then a.s.tcb[waiters[0]].priority else 0;
    if a.s.tcb[h].base < highest then highest else a.s.tcb[h].base
  }

  /** It has to be lowered. */
  ghost predicate Lowers(a: State)
    requires BackAgain(a)
  {
    var w := a.waiting[a.s.current];
    && w.inherited && w.m in a.holder && a.holder[w.m] in a.s.tcb
    && var h := a.holder[w.m]; a.s.tcb[h].held == 1 && a.s.tcb[h].priority != LeftWith(a, w.m, h)
  }

  ghost predicate GivingUp(a: State, b: State) {
    if !BackAgain(a) then b == a
    else if !Lowers(a) then b == a.(waiting := a.waiting - {a.s.current})
    else
      var m := a.waiting[a.s.current].m;
      var h := a.holder[m];
      var p := LeftWith(a, m, h);
      p < PRIORITIES && h in a.s.at
      && b == a.(waiting := a.waiting - {a.s.current}, s := a.s.(tcb := WithPriority(a.s.tcb, h, p, false), at := Reordered(a.s.at, h, p)))
  }

  /** The assertion in vTaskPriorityDisinheritAfterTimeout fails: the running task would have to be lowered itself. */
  ghost predicate Fails(step: Step, a: State) {
    step.GiveUp? && BackAgain(a) && Lowers(a) && a.holder[a.waiting[a.s.current].m] == a.s.current
  }

  ghost predicate Took(step: Step, a: State, b: State) {
    match step
    case Tick => b == a.(s := b.s) && SchedulerRuns.Took(SchedulerRuns.Tick, 0, a.s, b.s)
    case Switch => b == a.(s := b.s) && SchedulerRuns.Took(SchedulerRuns.Switch, 0, a.s, b.s)
    case Create(t, p) => b == a.(s := b.s) && SchedulerRuns.Took(SchedulerRuns.Create(t, p), 0, a.s, b.s)
    case NewMutex(m) =>
      b == if Event(m) in a.s.E then a else a.(mutexes := a.mutexes + {m}, s := a.s.(E := a.s.E[Event(m) := View([], 0)]))
    case Take(m, ticks) => Taking(m, ticks, a, b)
    case Give(m) => Giving(m, a, b)
    case GiveUp => GivingUp(a, b)
  }

  /** Every task counts the mutexes it holds, runs at least at its base priority, and exactly there while it holds none. */
  ghost predicate InAccount(a: State) {
    forall t {:trigger a.s.tcb[t]} :: t in a.s.tcb ==>
      && a.s.tcb[t].held == |HeldBy(a.holder, t)| && a.s.tcb[t].base <= a.s.tcb[t].priority
      && (HeldBy(a.holder, t) == {} ==> a.s.tcb[t].priority == a.s.tcb[t].base)
  }

  ghost predicate AllTook(steps: seq<Step>, states: seq<State>, n: nat) {
    && n <= |steps| && n < |states| && InAccount(states[0])
    && forall i {:trigger steps[i]} :: 0 <= i < n ==> Took(steps[i], states[i], states[i + 1]) && InAccount(states[i + 1])
  }

  lemma NoneTook(steps: seq<Step>, a: State)
    requires InAccount(a)
    ensures AllTook(steps, [a], 0)
  {
  }

  lemma OneTook(steps: seq<Step>, states: seq<State>, n: nat, b: State)
    requires AllTook(steps, states, n) && n < |steps| && |states| == n + 1 && Took(steps[n], states[n], b) && InAccount(b)
    ensures AllTook(steps, states + [b], n + 1)
  {
    hide Took, InAccount;
  }

  lemma Accounts(x: Mutexes, waiting: map<Task, Waiting>)
    requires x.Valid()
    ensures InAccount(Current(x, waiting))
  {
    hide Scheduler.Running;
  }

  /** Every step: a call that the state does not allow is left out. A task gives up when it is running again
      after it has blocked on a mutex, and the mutex is still held; whether its time is up is not decided here. */
  method Perform(x: Mutexes, step: Step, waiting: map<Task, Waiting>) returns (still: map<Task, Waiting>, sound: bool)
    requires x.Valid() && x.s.suspended == 0
    modifies x, x.s
    ensures x.Valid() && x.s.suspended == 0
    ensures sound <==> !Fails(step, old(Current(x, waiting)))
    ensures sound ==> Took(step, old(Current(x, waiting)), Current(x, still))
  {
    still, sound := waiting, true;
    hide Mutexes.Valid, Scheduler.Running, Balanced, Taking, Giving, GivingUp, SchedulerRuns.Took;
    match step {
      case Tick => ClockTick(x);
      case Switch => NextTask(x);
      case Create(t, priority) => NewTask(x, t, priority);
      case NewMutex(m) => NewLock(x, m);
      case Take(m, ticks) => still := Lock(x, m, ticks, waiting);
      case Give(m) => Release(x, m, waiting);
      case GiveUp => still, sound := Resign(x, waiting);
    }
  }

  method ClockTick(x: Mutexes)
    requires x.Valid() && x.s.suspended == 0
    modifies x.s
    ensures x.Valid() && x.s.suspended == 0 && x.s.current == old(x.s.current) && x.s.tcb == old(x.s.tcb) && x.s.due == old(x.s.due)
    ensures x.s.Now() == old(x.s.Now()) + 1 && Expired(old(x.s.at), x.s.at, x.s.tcb, x.s.due, old(x.s.waits), x.s.waits, x.s.Now())
    ensures SchedulerRuns.Took(SchedulerRuns.Tick, 0, old(SchedulerRuns.Present(x.s)), SchedulerRuns.Present(x.s))
  {
    hide Scheduler.Running, Balanced, Expired, Urgent, Shared;
    var _ := x.s.TickInterrupt();
  }

  /** From the first task on, after any steps, every task counts the mutexes it holds, runs at least at its
      base priority, and exactly there while it holds none. The run ends early exactly where the assertion fails. */
  method Run(idle: Task, steps: seq<Step>) returns (x: Mutexes, sound: bool, ghost states: seq<State>)
    ensures x.Valid() && 0 < |states| <= |steps| + 1 && AllTook(steps, states, |states| - 1)
    ensures var a := states[0];
            && a.mutexes == {} && a.holder == map[] && a.waiting == map[] && a.s.now == 0 && a.s.current == a.s.idle == idle && a.s.waits == map[]
            && a.s.at == map[idle := Ready(0)] && a.s.tcb == map[idle := Tcb(0, 0, 0, 0, PRIORITIES)]
    ensures if sound then |states| == |steps| + 1 && states[|steps|] == Current(x, states[|steps|].waiting)
            else |states| <= |steps| && Fails(steps[|states| - 1], states[|states| - 1])
  {
    hide Mutexes.Valid, Scheduler.Running, Balanced, Took, AllTook, InAccount, Fails;
    var s := new Scheduler(idle);
    NobodyHolds(s.tcb, idle);
    x := new Mutexes(s);
    var waiting := map[];
    sound := true;
    states := [Current(x, waiting)];
    Accounts(x, waiting);
    NoneTook(steps, Current(x, waiting));
    ghost var first := states[0];
    for k := 0 to |steps|
      invariant x.Valid() && x.s.suspended == 0 && x.s == s && fresh(x) && fresh(s) && sound
      invariant |states| == k + 1 && states[0] == first && states[k] == Current(x, waiting) && AllTook(steps, states, k)
    {
      waiting, sound := Perform(x, steps[k], waiting);
      if !sound {
        return;
      }
      Accounts(x, waiting);
      OneTook(steps, states, k, Current(x, waiting));
      states := states + [Current(x, waiting)];
    }
  }

  lemma NobodyHolds(tcb: map<Task, Tcb>, idle: Task)
    requires tcb == map[idle := Tcb(0, 0, 0, 0, PRIORITIES)]
    ensures Balanced(tcb, map[])
  {
    assert HeldBy(map[], idle) == {};
  }

  method NextTask(x: Mutexes)
    requires x.Valid() && x.s.suspended == 0
    modifies x.s`yieldPending, x.s`topReady, x.s`S, x.s`current
    ensures x.Valid() && x.s.current in x.s.at && x.s.at[x.s.current].Ready?
    ensures forall t {:trigger x.s.at[t]} :: t in x.s.at && x.s.at[t].Ready? ==> x.s.at[t].p <= x.s.at[x.s.current].p
    ensures SchedulerRuns.Took(SchedulerRuns.Switch, 0, old(SchedulerRuns.Present(x.s)), SchedulerRuns.Present(x.s))
  {
    hide Scheduler.Running, Balanced;
    x.s.SwitchContext();
  }

  method NewTask(x: Mutexes, t: Task, priority: nat)
    requires x.Valid() && x.s.suspended == 0
    modifies x.s`S, x.s`at, x.s`tcb, x.s`topReady
    ensures x.Valid()
    ensures t !in old(x.s.at) && priority < PRIORITIES ==>
              x.s.at == old(x.s.at)[t := Ready(priority)] && x.s.tcb == old(x.s.tcb)[t := Tcb(priority, priority, 0, 0, PRIORITIES - priority)]
    ensures SchedulerRuns.Took(SchedulerRuns.Create(t, priority), 0, old(SchedulerRuns.Present(x.s)), SchedulerRuns.Present(x.s))
  {
    hide Scheduler.Running, Balanced;
    if t !in x.s.at && priority < PRIORITIES {
      SameTasks(x.s);
      CreateBalanced(x.s.tcb, x.holder, t, priority);
      var _ := x.s.Create(t, priority);
    }
  }

  lemma SameTasks(s: Scheduler)
    requires s.Valid()
    ensures s.at.Keys == s.tcb.Keys && s.current in s.at
  {
  }

  lemma CreateBalanced(tcb: map<Task, Tcb>, holder: map<nat, Task>, t: Task, priority: nat)
    requires Balanced(tcb, holder) && t !in tcb && priority < PRIORITIES
    ensures Balanced(tcb[t := Tcb(priority, priority, 0, 0, PRIORITIES - priority)], holder)
  {
    assert HeldBy(holder, t) == {};
  }

  method NewLock(x: Mutexes, m: nat)
    requires x.Valid() && x.s.suspended == 0
    modifies x, x.s
    ensures x.Valid() && x.s.suspended == 0
    ensures forall waiting: map<Task, Waiting> {:trigger Current(x, waiting)} :: Took(NewMutex(m), old(Current(x, waiting)), Current(x, waiting))
  {
    hide Mutexes.Valid, Scheduler.Running, Balanced;
    if Event(m) !in x.s.E { x.New(m); }
  }

  /** xQueueSemaphoreTake */
  method Lock(x: Mutexes, m: nat, ticks: int, waiting: map<Task, Waiting>) returns (still: map<Task, Waiting>)
    requires x.Valid() && x.s.suspended == 0
    modifies x, x.s
    ensures x.Valid() && x.s.suspended == 0
    ensures Taking(m, ticks, old(Current(x, waiting)), Current(x, still))
  {
    hide Mutexes.Valid, Scheduler.Running, Balanced, WithWake, WithHeld, Reordered, BlockedIn;
    Unfold(x);
    SameTasks(x.s);
    still := waiting;
    if m in x.mutexes && 0 <= ticks < WRAP && x.s.at[x.s.current].Ready? && (ticks == 0 || x.s.current != x.s.idle) {
      var r := x.Take(m, ticks);
      still := if r.Blocked? then waiting[x.s.current := Waiting(m, r.inherited)] else waiting - {x.s.current};
    }
  }

  /** xQueueGenericSend */
  method Release(x: Mutexes, m: nat, ghost waiting: map<Task, Waiting>)
    requires x.Valid() && x.s.suspended == 0
    modifies x, x.s
    ensures x.Valid() && x.s.suspended == 0
    ensures Giving(m, old(Current(x, waiting)), Current(x, waiting))
  {
    hide Mutexes.Valid, Scheduler.Running, Balanced, WithPriority, WithHeld, Reordered;
    if m in x.mutexes && (m in x.holder ==> x.holder[m] == x.s.current) {
      var _, _ := x.Give(m);
    }
  }

  /** The rest of xQueueSemaphoreTake, when the running task has waited long enough */
  method Resign(x: Mutexes, waiting: map<Task, Waiting>) returns (still: map<Task, Waiting>, sound: bool)
    requires x.Valid() && x.s.suspended == 0
    modifies x, x.s
    ensures x.Valid() && x.s.suspended == 0
    ensures sound <==> !Fails(GiveUp, old(Current(x, waiting)))
    ensures sound ==> GivingUp(old(Current(x, waiting)), Current(x, still))
  {
    hide Mutexes.Valid, Scheduler.Running, Balanced, WithPriority, Reordered;
    Unfold(x);
    SameTasks(x.s);
    still, sound := waiting, true;
    if x.s.current in waiting && x.s.at[x.s.current].Ready? {
      var w := waiting[x.s.current];
      if w.m in x.holder { sound := x.GiveUp(w.m, w.inherited); }
      still := waiting - {x.s.current};
    }
  }

  lemma Unfold(x: Mutexes)
    requires x.Valid()
    ensures x.s.Valid()
  {
  }

  // --- the assertion that fails ---------------------------------------------------------------------

  lemma FirstWaiter(s: Scheduler, m: nat)
    requires s.Valid() && Event(m) in s.E
    ensures s.E[Event(m)].items == [] ==> forall t {:trigger t in s.waits} :: t in s.waits ==> s.waits[t] != Event(m)
    ensures s.E[Event(m)].items != [] ==> s.E[Event(m)].items[0] in s.waits && s.waits[s.E[Event(m)].items[0]] == Event(m)
  {
    hide StateSide, Timed, NextBound, Ordered, Topped, Punctual;
    forall t | t in s.waits && s.waits[t] == Event(m) ensures t in s.E[Event(m)].items {
    }
    if s.E[Event(m)].items != [] { assert s.E[Event(m)].items[0] in s.E[Event(m)].items; }
  }

  ghost predicate Scene(x: Mutexes, current: Task, at: map<Task, StateList>, tcb: map<Task, Tcb>, waits: map<Task, EventList>)
    reads x, x.s
  {
    && x.Valid() && x.s.suspended == 0 && x.s.idle == 0 && 7 in x.mutexes
    && x.s.current == current && x.s.at == at && x.s.tcb == tcb && x.s.waits == waits
  }

  /** The task with the highest priority runs next. */
  method Choose(x: Mutexes, t: Task, ghost at: map<Task, StateList>, ghost tcb: map<Task, Tcb>, ghost waits: map<Task, EventList>)
    requires Scene(x, x.s.current, at, tcb, waits) && t in at && at[t].Ready?
    requires forall u {:trigger at[u]} :: u in at && at[u].Ready? && u != t ==> at[u].p < at[t].p
    modifies x.s`yieldPending, x.s`topReady, x.s`S, x.s`current
    ensures Scene(x, t, at, tcb, waits)
  {
    hide Mutexes.Valid, Scheduler.Running, Scheduler.Valid, Balanced;
    NextTask(x);
    assert x.s.at[t].p <= x.s.at[x.s.current].p;
  }

  method Appear(x: Mutexes, t: Task, p: nat, ghost at: map<Task, StateList>, ghost tcb: map<Task, Tcb>, ghost waits: map<Task, EventList>)
    requires Scene(x, x.s.current, at, tcb, waits) && t !in at && p < PRIORITIES
    modifies x.s`S, x.s`at, x.s`tcb, x.s`topReady
    ensures Scene(x, x.s.current, at[t := Ready(p)], tcb[t := Tcb(p, p, 0, 0, PRIORITIES - p)], waits)
  {
    hide Mutexes.Valid, Scheduler.Running, Scheduler.Valid, Balanced;
    NewTask(x, t, p);
  }

  /** The idle task, and mutex 7 */
  method Quiet() returns (x: Mutexes)
    ensures fresh(x) && fresh(x.s) && x.holder == map[] && x.s.Now() == 0
    ensures Scene(x, 0, map[0 := Ready(0)], map[0 := Tcb(0, 0, 0, 0, 4)], map[])
  {
    hide Mutexes.Valid, Scheduler.Running, Scheduler.Valid, Balanced;
    var s := new Scheduler(0);
    NobodyHolds(s.tcb, 0);
    x := new Mutexes(s);
    x.New(7);
  }

  /** Task 1 with priority 1 holds the mutex. */
  method Holder() returns (x: Mutexes)
    ensures fresh(x) && fresh(x.s) && x.holder == map[7 := 1] && x.s.Now() == 0
    ensures Scene(x, 1, map[0 := Ready(0), 1 := Ready(1)], map[0 := Tcb(0, 0, 0, 0, 4), 1 := Tcb(1, 1, 1, 0, 3)], map[])
  {
    hide Mutexes.Valid, Scheduler.Running, Scheduler.Valid, Balanced, Mutexes.BlocksOn, PendingEmpty, HeldBy, Urgent, Recorded;
    x := Quiet();
    Appear(x, 1, 1, x.s.at, x.s.tcb, map[]);
    Choose(x, 1, x.s.at, x.s.tcb, map[]);
    var taken := x.Take(7, 0);
  }

  /** The running task blocks on the mutex for some ticks. */
  method Wait(x: Mutexes, ticks: int, ghost h: Task, ghost at: map<Task, StateList>, ghost tcb: map<Task, Tcb>, ghost waits: map<Task, EventList>)
      returns (inherited: bool)
    requires Scene(x, x.s.current, at, tcb, waits) && x.holder == map[7 := h] && h in at && h in tcb && 0 < ticks < 100 && 0 <= x.s.Now() < 100
    requires x.s.current in at && x.s.current in tcb && at[x.s.current].Ready? && x.s.current != 0 && tcb[x.s.current].priority < PRIORITIES
    modifies x`holder, x.s`S, x.s`at, x.s`E, x.s`waits, x.s`tcb, x.s`nextUnblock, x.s`due, x.s`topReady
    ensures x.holder == old(x.holder) && x.s.due == old(x.s.due)[x.s.current := x.s.Now() + ticks]
    ensures var c := x.s.current; var p := tcb[c].priority; var raise := tcb[h].priority < p;
            && (inherited <==> raise || tcb[h].base < p)
            && var tcb1 := if raise then WithPriority(tcb, h, p, false) else tcb;
               Scene(x, c, (if raise then Reordered(at, h, p) else at)[c := Delayed(x.s.second)], WithWake(tcb1, c, x.s.Now() + ticks), waits[c := Event(7)])
  {
    hide Mutexes.Valid, Scheduler.Running, Scheduler.Valid, Balanced, Mutexes.BlocksOn, PendingEmpty, HeldBy, Urgent, Recorded;
    Unfold(x);
    StartOfTime(x.s);
    var r := x.Take(7, ticks);
    inherited := r.inherited;
  }

  lemma StartOfTime(s: Scheduler)
    requires s.Valid() && 0 <= s.Now() < 100
    ensures s.tick == s.Now()
  {
    hide Structure, Topped, Ordered, Timed, NextBound, Punctual, PendingEmpty;
  }

  /** A tick wakes just the tasks whose time has come. */
  method Elapse(x: Mutexes, t: Task, ghost at: map<Task, StateList>, ghost tcb: map<Task, Tcb>, ghost waits: map<Task, EventList>)
    requires Scene(x, x.s.current, at, tcb, waits) && t in at && t in tcb && t in x.s.due && at[t].Delayed? && x.s.due[t] <= x.s.Now() + 1
    requires forall u {:trigger at[u]} :: u in at && u != t && at[u].Delayed? ==> u in x.s.due && x.s.due[u] > x.s.Now() + 1
    modifies x.s
    ensures x.s.Now() == old(x.s.Now()) + 1 && x.s.due == old(x.s.due)
    ensures Scene(x, old(x.s.current), at[t := Ready(tcb[t].priority)], tcb, waits - {t})
  {
    hide Mutexes.Valid, Scheduler.Running, Scheduler.Valid, Balanced, Urgent, Recorded, PendingEmpty, Expired;
    Unfold(x);
    KnownWaiters(x.s);
    ClockTick(x);
    Unfold(x);
    KnownWaiters(x.s);
    OnlyThis(at, x.s.at, tcb, x.s.due, waits, x.s.waits, x.s.Now(), t);
  }

  lemma KnownWaiters(s: Scheduler)
    requires s.Valid()
    ensures s.waits.Keys <= s.at.Keys
  {
    hide StateSide, Topped, Ordered, Timed, NextBound, Punctual, PendingEmpty;
  }

  lemma OnlyThis(at0: map<Task, StateList>, at: map<Task, StateList>, tcb: map<Task, Tcb>, due: map<Task, int>,
                 waits0: map<Task, EventList>, waits: map<Task, EventList>, now: int, t: Task)
    requires Expired(at0, at, tcb, due, waits0, waits, now) && waits0.Keys <= at0.Keys && waits.Keys <= at.Keys
    requires t in at0 && t in tcb && at0[t].Delayed? && t in due && due[t] <= now
    requires forall u {:trigger at0[u]} :: u in at0 && u != t && at0[u].Delayed? ==> u in due && due[u] > now
    ensures at == at0[t := Ready(tcb[t].priority)] && waits == waits0 - {t}
  {
    forall u | u in at0 ensures at[u] == if u == t then Ready(tcb[t].priority) else at0[u] { var a := at0[u]; }
    forall u ensures (u in waits <==> u in waits0 && u != t) && (u in waits ==> waits[u] == waits0[u]) {
      if u in at0 { var a, b := at0[u], at[u]; }
    }
  }

  /** Task 2 with priority 2 is running. */
  method Rival() returns (x: Mutexes)
    ensures fresh(x) && fresh(x.s) && x.holder == map[7 := 1] && x.s.Now() == 0
    ensures Scene(x, 2, map[0 := Ready(0), 1 := Ready(1), 2 := Ready(2)],
                  map[0 := Tcb(0, 0, 0, 0, 4), 1 := Tcb(1, 1, 1, 0, 3), 2 := Tcb(2, 2, 0, 0, 2)], map[])
  {
    hide Mutexes.Valid, Scheduler.Running, Scheduler.Valid, Balanced;
    x := Holder();
    Appear(x, 2, 2, x.s.at, x.s.tcb, map[]);
    Choose(x, 2, x.s.at, x.s.tcb, map[]);
  }

  /** It blocks on the mutex for one tick, and task 1 goes on with priority 2. */
  method RivalWaits() returns (x: Mutexes, inherited: bool)
    ensures fresh(x) && fresh(x.s) && inherited && x.holder == map[7 := 1] && x.s.Now() == 0 && 2 in x.s.due && x.s.due[2] == 1
    ensures Scene(x, 1, map[0 := Ready(0), 1 := Ready(2), 2 := Delayed(x.s.second)],
                  map[0 := Tcb(0, 0, 0, 0, 4), 1 := Tcb(2, 1, 1, 0, 2), 2 := Tcb(2, 2, 0, 1, 2)], map[2 := Event(7)])
  {
    hide Mutexes.Valid, Scheduler.Running, Scheduler.Valid, Balanced;
    x := Rival();
    inherited := Wait(x, 1, 1, x.s.at, x.s.tcb, map[]);
    Choose(x, 1, x.s.at, x.s.tcb, x.s.waits);
  }

  /** Task 1 takes the mutex, which it holds, a second time, and blocks on it for two ticks. */
  method BothWait() returns (x: Mutexes, rivals: bool, inherited: bool)
    ensures fresh(x) && fresh(x.s) && x.holder == map[7 := 1] && x.s.Now() == 0 && rivals && inherited
    ensures 2 in x.s.due && x.s.due[2] == 1 && 1 in x.s.due && x.s.due[1] == 2
    ensures Scene(x, 0, map[0 := Ready(0), 1 := Delayed(x.s.second), 2 := Delayed(x.s.second)],
                  map[0 := Tcb(0, 0, 0, 0, 4), 1 := Tcb(2, 1, 1, 2, 2), 2 := Tcb(2, 2, 0, 1, 2)], map[2 := Event(7), 1 := Event(7)])
  {
    hide Mutexes.Valid, Scheduler.Running, Scheduler.Valid, Balanced;
    x, rivals := RivalWaits();
    inherited := Wait(x, 2, 1, x.s.at, x.s.tcb, x.s.waits);
    Choose(x, 0, x.s.at, x.s.tcb, x.s.waits);
  }

  /** Task 2 gives up. Task 1 keeps its priority, since it waits with that priority itself. */
  method RivalGivesUp() returns (x: Mutexes, inherited: bool, ghost list: bool)
    ensures fresh(x) && fresh(x.s) && x.holder == map[7 := 1] && x.s.Now() == 1 && inherited && 1 in x.s.due && x.s.due[1] == 2
    ensures Scene(x, 2, map[0 := Ready(0), 1 := Delayed(list), 2 := Ready(2)],
                  map[0 := Tcb(0, 0, 0, 0, 4), 1 := Tcb(2, 1, 1, 2, 2), 2 := Tcb(2, 2, 0, 1, 2)], map[1 := Event(7)])
  {
    hide Mutexes.Valid, Scheduler.Running, Scheduler.Valid, Balanced;
    var rivals;
    x, rivals, inherited := BothWait();
    list := x.s.second;
    Elapse(x, 2, x.s.at, x.s.tcb, x.s.waits);
    Choose(x, 2, x.s.at, x.s.tcb, x.s.waits);
    HeadWaits(x, 1);
    var sound := x.GiveUp(7, rivals);
  }

  lemma HeadWaits(x: Mutexes, t: Task)
    requires x.Valid() && 7 in x.mutexes
    ensures Event(7) in x.s.E && (x.s.waits == map[] ==> x.s.E[Event(7)].items == [])
    ensures x.s.waits == map[t := Event(7)] ==> x.s.E[Event(7)].items != [] && x.s.E[Event(7)].items[0] == t
  {
    hide Scheduler.Valid, Balanced;
    FirstWaiter(x.s, 7);
    if x.s.waits == map[t := Event(7)] { assert t in x.s.waits; }
  }

  /** Then task 1 gives up as well, and the assertion in vTaskPriorityDisinheritAfterTimeout fails. */
  method AssertionFails() returns (sound: bool)
    ensures !sound
  {
    hide Mutexes.Valid, Scheduler.Running, Scheduler.Valid, Balanced;
    var x, inherited, list := RivalGivesUp();
    Away(x, x.s.at, x.s.tcb, x.s.waits);
    Choose(x, 0, x.s.at, x.s.tcb, x.s.waits);
    Elapse(x, 1, x.s.at, x.s.tcb, x.s.waits);
    Choose(x, 1, x.s.at, x.s.tcb, x.s.waits);
    HeadWaits(x, 1);
    sound := x.GiveUp(7, inherited);
  }

  /** The running task suspends itself. */
  method Away(x: Mutexes, ghost at: map<Task, StateList>, ghost tcb: map<Task, Tcb>, ghost waits: map<Task, EventList>)
    requires Scene(x, x.s.current, at, tcb, waits) && x.s.current in at && x.s.current != 0 && at[x.s.current].Ready? && x.s.current !in waits
    modifies x.s`S, x.s`at, x.s`E, x.s`waits, x.s`nextUnblock
    ensures Scene(x, x.s.current, at[x.s.current := Suspended], tcb, waits)
  {
    hide Scheduler.Running, Scheduler.Valid, Balanced;
    var yieldNow := x.s.Suspend(x.s.current);
    assert waits - {x.s.current} == waits;
  }
}
