/** Mutexes with priority inheritance: the paths of FreeRTOS/queue.c that take and give a mutex, over
    the scheduler. A stretch with interrupts disabled or the scheduler suspended is one step. */
module Mutexes {
  import opened ListView
  import opened TaskLists
  import opened SchedulerState
  import opened Scheduler
  import Lists

  datatype Taken = Passed | Empty | Blocked(inherited: bool)

  function HeldBy(holder: map<nat, Task>, t: Task): set<nat> {
    set m | m in holder && holder[m] == t
  }

  /** Every task counts the mutexes it holds, never runs below its base priority, and runs at its base
      priority while it holds none; its event item value is its priority counted backwards. */
  ghost predicate Balanced(tcb: map<Task, Tcb>, holder: map<nat, Task>) {
    && (forall t {:trigger tcb[t]} :: t in tcb ==>
          && tcb[t].held == |HeldBy(holder, t)|
          && tcb[t].base <= tcb[t].priority < PRIORITIES && (tcb[t].held == 0 ==> tcb[t].priority == tcb[t].base)
          && tcb[t].event == PRIORITIES - tcb[t].priority)
    && (forall m {:trigger holder[m]} :: m in holder ==> holder[m] in tcb)
  }

  lemma HoldMore(holder: map<nat, Task>, m: nat, t: Task)
    requires m !in holder
    ensures HeldBy(holder[m := t], t) == HeldBy(holder, t) + {m} && |HeldBy(holder[m := t], t)| == |HeldBy(holder, t)| + 1
    ensures forall u :: u != t ==> HeldBy(holder[m := t], u) == HeldBy(holder, u)
  {
    assert HeldBy(holder[m := t], t) == HeldBy(holder, t) + {m};
  }

  lemma HoldLess(holder: map<nat, Task>, m: nat, t: Task)
    requires m in holder && holder[m] == t
    ensures |HeldBy(holder - {m}, t)| == |HeldBy(holder, t)| - 1
    ensures forall u :: u != t ==> HeldBy(holder - {m}, u) == HeldBy(holder, u)
  {
    assert HeldBy(holder, t) == HeldBy(holder - {m}, t) + {m};
  }

  /** A holder holds something. */
  lemma Holds1(tcb: map<Task, Tcb>, holder: map<nat, Task>, m: nat)
    requires Balanced(tcb, holder) && m in holder
    ensures holder[m] in tcb && tcb[holder[m]].held > 0
  {
    assert m in HeldBy(holder, holder[m]);
  }

  lemma TakeBalanced(tcb: map<Task, Tcb>, holder: map<nat, Task>, m: nat, t: Task)
    requires Balanced(tcb, holder) && m !in holder && t in tcb
    ensures Balanced(WithHeld(tcb, t, tcb[t].held + 1), holder[m := t])
  {
    HoldMore(holder, m, t);
    var c := WithHeld(tcb, t, tcb[t].held + 1);
    forall u {:trigger c[u]} | u in c ensures c[u].held == |HeldBy(holder[m := t], u)| { assert tcb[u].held == |HeldBy(holder, u)|; }
  }

  lemma BaseBelow(tcb: map<Task, Tcb>, holder: map<nat, Task>, t: Task)
    requires Balanced(tcb, holder) && t in tcb
    ensures tcb[t].base <= tcb[t].priority < PRIORITIES
  {
  }

  /** A higher priority for a task that holds a mutex */
  lemma RaiseBalanced(tcb: map<Task, Tcb>, holder: map<nat, Task>, t: Task, p: nat)
    requires Balanced(tcb, holder) && t in tcb && tcb[t].base <= p < PRIORITIES && tcb[t].held > 0
    ensures Balanced(WithPriority(tcb, t, p, false), holder)
  {
  }

  lemma WakeBalanced(tcb: map<Task, Tcb>, holder: map<nat, Task>, t: Task, wake: int)
    requires Balanced(tcb, holder) && t in tcb
    ensures Balanced(WithWake(tcb, t, wake), holder)
  {
  }

  lemma GiveBalanced(tcb: map<Task, Tcb>, holder: map<nat, Task>, m: nat, t: Task)
    requires Balanced(tcb, holder) && m in holder && holder[m] == t && t in tcb && tcb[t].held > 0
    ensures var less := WithHeld(tcb, t, tcb[t].held - 1);
            && (tcb[t].priority != tcb[t].base && tcb[t].held == 1 ==> Balanced(WithPriority(less, t, tcb[t].base, true), holder - {m}))
            && (!(tcb[t].priority != tcb[t].base && tcb[t].held == 1) ==> Balanced(less, holder - {m}))
  {
    HoldLess(holder, m, t);
    forall u {:trigger tcb[u]} | u in tcb
      ensures |HeldBy(holder - {m}, u)| == if u == t then tcb[u].held - 1 else tcb[u].held
    {
      assert tcb[u].held == |HeldBy(holder, u)|;
    }
  }

  class Mutexes {
    const s: Scheduler
    var mutexes: set<nat>
    /** the holder of each mutex that is held */
    var holder: map<nat, Task>

    ghost predicate Valid()
      reads this, s
    {
      && s.Valid() && Balanced(s.tcb, holder) && holder.Keys <= mutexes
      && (forall m {:trigger m in mutexes} :: m in mutexes ==> Event(m) in s.E)
    }

    constructor (s: Scheduler)
      requires s.Valid() && Balanced(s.tcb, map[])
      ensures Valid() && this.s == s && holder == map[]
    {
      this.s := s;
      mutexes, holder := {}, map[];
    }

    /** xQueueCreateMutex */
    method New(m: nat)
      requires Valid() && Event(m) !in s.E
      modifies `mutexes, s`E
      ensures Valid() && mutexes == old(mutexes) + {m} && s.E == old(s.E)[Event(m) := View([], 0)]
    {
      hide Scheduler.Running, Balanced;
      s.NewEventList(m);
      mutexes := mutexes + {m};
    }

    /** xQueueSemaphoreTake of a mutex, up to the point where the running task has it, gives up, or is
        blocked. A holder has at least the priority of a task that just blocked on its mutex. */
    method Take(m: nat, ticks: int) returns (r: Taken)
      requires Valid() && m in mutexes && 0 <= ticks < WRAP && s.at[s.current].Ready?
      requires ticks > 0 ==> s.suspended == 0 && s.current != s.idle
      modifies `holder, s`S, s`at, s`E, s`waits, s`tcb, s`nextUnblock, s`due, s`topReady
      ensures Valid() && s.current in s.tcb && s.current in s.at && s.E.Keys == old(s.E).Keys
      ensures r.Passed? <==> m !in old(holder)
      ensures r.Passed? ==> holder == old(holder)[m := s.current]
      ensures r.Passed? ==> s.current in old(s.tcb) && s.tcb == WithHeld(old(s.tcb), s.current, old(s.tcb)[s.current].held + 1)
      ensures !r.Passed? ==> holder == old(holder)
      ensures !r.Blocked? ==> s.at == old(s.at) && s.waits == old(s.waits) && s.E == old(s.E)
      ensures !r.Blocked? ==> s.due == old(s.due)
      ensures r.Empty? ==> s.tcb == old(s.tcb)
      ensures r.Blocked? ==> m in old(holder) && old(BlocksOn(m)) && ticks > 0
      ensures r.Blocked? ==> BlockedOn(old(s.tcb), old(s.at), old(s.waits), old(s.due), holder[m], m, ticks, r.inherited)
      ensures r.Empty? <==> m in old(holder) && ticks == 0
      ensures r.Blocked? ==> !s.at[s.current].Ready? && s.current in s.waits && s.waits[s.current] == Event(m)
      ensures r.Blocked? ==> holder[m] in s.tcb && s.tcb[holder[m]].priority >= s.tcb[s.current].priority
    {
      hide Scheduler.Running, Scheduler.Blockable, Structure, EventSide, Balanced, WithPriority;
      s.Parts();
      RunningTask(s.S, s.at, s.E, s.waits, s.tcb, s.idle, s.current);
      if m !in holder {
        TakeBalanced(s.tcb, holder, m, s.current);
        s.SetHeld(s.current, s.tcb[s.current].held + 1);
        holder := holder[m := s.current];
        return Passed;
      }
      if ticks == 0 {
        return Empty;
      }
      var inherited := Block(m, ticks);
      BlockedMeans(old(s.tcb), old(s.at), old(s.waits), old(s.due), holder[m], m, ticks, inherited);
      return Blocked(inherited);
    }

    /** The holder of the mutex and the running task are known. */
    ghost predicate BlocksOn(m: nat)
      requires m in holder
      reads this, s
    {
      holder[m] in s.tcb && holder[m] in s.at && s.current in s.tcb && s.current in s.at && s.tcb[s.current].priority < PRIORITIES
    }

    /** The running task has blocked on a mutex, and its holder `h` has inherited its priority. */
    ghost predicate BlockedOn(tcb0: map<Task, Tcb>, at0: map<Task, StateList>, waits0: map<Task, EventList>, due0: map<Task, int>,
                              h: Task, m: nat, ticks: int, inherited: bool)
      requires h in tcb0 && h in at0 && s.current in tcb0 && s.current in at0 && tcb0[s.current].priority < PRIORITIES
      reads s
    {
      var c := s.current; var p := tcb0[c].priority; var raise := tcb0[h].priority < p;
      var tcb1 := if raise then WithPriority(tcb0, h, p, false) else tcb0;
      && s.tcb == (if ticks == MAX_DELAY then tcb1 else WithWake(tcb1, c, (s.tick + ticks) % WRAP))
      && s.at == (if raise then Reordered(at0, h, p) else at0)[c := BlockedIn(ticks, true, s.tick, s.second)]
      && s.waits == waits0[c := Event(m)] && s.due == (if ticks == MAX_DELAY then due0 else due0[c := s.Now() + ticks])
      && (inherited <==> raise || tcb0[h].base < p)
    }

    lemma BlockedMeans(tcb0: map<Task, Tcb>, at0: map<Task, StateList>, waits0: map<Task, EventList>, due0: map<Task, int>,
                       h: Task, m: nat, ticks: int, inherited: bool)
      requires h in tcb0 && h in at0 && s.current in tcb0 && s.current in at0 && tcb0[s.current].priority < PRIORITIES
      requires BlockedOn(tcb0, at0, waits0, due0, h, m, ticks, inherited)
      ensures s.current in s.at && !s.at[s.current].Ready? && s.current in s.waits && s.waits[s.current] == Event(m)
      ensures h in s.tcb && s.current in s.tcb && s.tcb[h].priority >= s.tcb[s.current].priority
    {
    }

    /** The running task blocks on a mutex that is held, after its holder inherited its priority. */
    method Block(m: nat, ticks: int) returns (inherited: bool)
      requires Valid() && m in mutexes && m in holder && 0 < ticks < WRAP && s.at[s.current].Ready? && s.current != s.idle
      modifies s`S, s`at, s`E, s`waits, s`tcb, s`nextUnblock, s`due, s`topReady
      ensures Valid() && s.current in s.tcb && s.current in s.at && s.E.Keys == old(s.E).Keys
      ensures old(BlocksOn(m)) && BlockedOn(old(s.tcb), old(s.at), old(s.waits), old(s.due), holder[m], m, ticks, inherited)
    {
      hide Scheduler.Running, Scheduler.Blockable, Structure, EventSide, Balanced, WithPriority, Reordered, PendingEmpty,
        Lists.InsertPlace, InsertAt, EventValues, BlockedIn, WithWake;
      s.Parts();
      var h := holder[m];
      Holds1(s.tcb, holder, m);
      KnownTask(s, h);
      inherited := Inherit(h);
      WakeBalanced(s.tcb, holder, s.current, (s.tick + ticks) % WRAP);
      s.PlaceOnEventList(m, ticks);
    }

    method Inherit(h: Task) returns (inherited: bool)
      requires Valid() && h in s.at && h in s.tcb && s.tcb[h].held > 0
      modifies s`S, s`at, s`tcb, s`topReady
      ensures Valid() && s.current in s.tcb && h in s.tcb && s.current in s.at && s.current in old(s.tcb) && s.current in old(s.at)
      ensures s.tcb[h].priority >= s.tcb[s.current].priority
      ensures var h0, c := old(s.tcb)[h], old(s.tcb)[s.current];
              && c.priority < PRIORITIES && (inherited <==> h0.priority < c.priority || h0.base < c.priority)
              && s.tcb == (if h0.priority < c.priority then WithPriority(old(s.tcb), h, c.priority, false) else old(s.tcb))
              && s.at == (if h0.priority < c.priority then Reordered(old(s.at), h, c.priority) else old(s.at))
      ensures old(s.at[s.current].Ready?) ==> s.at[s.current].Ready?
    {
      hide Scheduler.Running, Scheduler.Blockable, Structure, EventSide;
      s.Parts();
      RunningTask(s.S, s.at, s.E, s.waits, s.tcb, s.idle, s.current);
      if s.tcb[h].priority < s.tcb[s.current].priority {
        RaiseBalanced(s.tcb, holder, h, s.tcb[s.current].priority);
      }
      inherited := s.PriorityInherit(h);
    }

    /** The control blocks and the state lists after the running task has given a mutex back */
    ghost predicate GivenBack(tcb0: map<Task, Tcb>, at0: map<Task, StateList>, waiters: seq<Task>)
      reads s
    {
      && s.current in tcb0 && s.current in at0 && tcb0[s.current].held > 0 && tcb0[s.current].base < PRIORITIES
      && var c := tcb0[s.current]; var less := WithHeld(tcb0, s.current, c.held - 1);
         var lowered := c.priority != c.base && c.held == 1;
         && s.tcb == (if lowered then WithPriority(less, s.current, c.base, true) else less)
         && var at1 := if lowered then Reordered(at0, s.current, c.base) else at0;
            if waiters == [] || s.suspended > 0 then s.at == at1
            else waiters[0] in s.tcb && s.at == at1[waiters[0] := Ready(s.tcb[waiters[0]].priority)]
    }

    /** The mutex is free again; the running task gives up an inherited priority with its last one. */
    method Disinherit(m: nat) returns (yieldNow: bool)
      requires Valid() && m in holder && holder[m] == s.current
      modifies `holder, s`S, s`at, s`tcb, s`topReady
      ensures Valid() && holder == old(holder) - {m} && GivenBack(old(s.tcb), old(s.at), [])
      ensures yieldNow <==> var c := old(s.tcb)[s.current]; c.priority != c.base && c.held == 1
    {
      hide Scheduler.Running, Scheduler.Blockable, Structure, EventSide, Balanced, WithPriority, WithHeld;
      s.Parts();
      RunningTask(s.S, s.at, s.E, s.waits, s.tcb, s.idle, s.current);
      Holds1(s.tcb, holder, m);
      BaseBelow(s.tcb, holder, s.current);
      GiveBalanced(s.tcb, holder, m, s.current);
      yieldNow := s.PriorityDisinherit();
      holder := holder - {m};
    }

    /** xQueueGenericSend of a mutex. Only its holder gives it back. */
    method Give(m: nat) returns (given: bool, yieldNow: bool)
      requires Valid() && m in mutexes && (m in holder ==> holder[m] == s.current)
      modifies `holder, s`S, s`at, s`E, s`waits, s`tcb, s`topReady, s`yieldPending
      ensures Valid() && s.E.Keys == old(s.E).Keys && (given <==> m in old(holder)) && holder == old(holder) - {m}
      ensures Event(m) in old(s.E) && var waiters := old(s.E)[Event(m)].items;
              s.waits == if !given || waiters == [] then old(s.waits)
                         else if s.suspended == 0 then old(s.waits) - {waiters[0]} else old(s.waits)[waiters[0] := Pending]
      ensures if given then GivenBack(old(s.tcb), old(s.at), old(s.E)[Event(m)].items) else s.tcb == old(s.tcb) && s.at == old(s.at)
      ensures s.current in s.tcb && s.current in old(s.tcb)
      ensures yieldNow <==> given && (var waiters, c := old(s.E)[Event(m)].items, old(s.tcb)[s.current];
                if waiters == [] then c.priority != c.base && c.held == 1
                else waiters[0] in s.tcb && s.tcb[waiters[0]].priority > s.tcb[s.current].priority)
    {
      hide Scheduler.Running, Scheduler.Blockable, Structure, EventSide, Balanced, WithPriority, WithHeld, Reordered;
      given := m in holder;
      if !given {
        s.Parts();
        RunningTask(s.S, s.at, s.E, s.waits, s.tcb, s.idle, s.current);
        assert holder - {m} == holder;
        return given, false;
      }
      yieldNow := Disinherit(m);
      if s.E[Event(m)].items != [] {
        yieldNow := s.RemoveFromEventList(m);
      } else {
        s.Parts();
        RunningTask(s.S, s.at, s.E, s.waits, s.tcb, s.idle, s.current);
      }
    }

    /** prvGetDisinheritPriorityAfterTimeout: the priority of the first waiter, or that of the idle task */
    method HighestWaiting(m: nat) returns (p: nat)
      requires Valid() && m in mutexes
      ensures p < PRIORITIES
      ensures s.E[Event(m)].items == [] ==> p == 0
      ensures s.E[Event(m)].items != [] ==> s.E[Event(m)].items[0] in s.tcb && p == s.tcb[s.E[Event(m)].items[0]].priority
    {
      hide Scheduler.Running, Scheduler.Blockable, Structure, EventSide;
      s.Parts();
      if s.E[Event(m)].items == [] { return 0; }
      WaitersKnown(s.S, s.at, s.E, s.waits, s.tcb, s.idle, Event(m));
      var t := s.E[Event(m)].items[0];
      p := PRIORITIES - s.tcb[t].event;
    }

    /** xQueueSemaphoreTake, when the running task has timed out waiting for a mutex that is still held.
        `sound` tells whether the assertion in vTaskPriorityDisinheritAfterTimeout holds. It fails
        exactly when the task was waiting for a mutex it holds itself, and no other, with a
        priority that comes from a task which is no longer waiting. */
    method GiveUp(m: nat, inherited: bool) returns (sound: bool)
      requires Valid() && m in holder
      modifies s`S, s`at, s`tcb, s`topReady
      ensures Valid() && holder[m] in old(s.tcb) && holder[m] in old(s.at) && Event(m) in s.E
      ensures s.E[Event(m)].items != [] ==> s.E[Event(m)].items[0] in old(s.tcb)
      ensures var h, waiters := old(s.tcb)[holder[m]], s.E[Event(m)].items;
              var highest := if waiters == [] then 0 else old(s.tcb)[waiters[0]].priority;
              var p := if h.base < highest then highest else h.base;
              var change := inherited && h.held == 1 && h.priority != p;
              && p < PRIORITIES && (sound <==> !(change && holder[m] == s.current))
              && s.tcb == (if change && sound then WithPriority(old(s.tcb), holder[m], p, false) else old(s.tcb))
              && s.at == (if change && sound then Reordered(old(s.at), holder[m], p) else old(s.at))
    {
      hide Scheduler.Running, Scheduler.Blockable, Structure, EventSide, WithPriority;
      s.Parts();
      RunningTask(s.S, s.at, s.E, s.waits, s.tcb, s.idle, s.current);
      Holds1(s.tcb, holder, m);
      var h := holder[m];
      KnownTask(s, h);
      sound := true;
      var highest := HighestWaiting(m);
      if inherited {
        RaiseBalanced(s.tcb, holder, h, if s.tcb[h].base < highest then highest else s.tcb[h].base);
        sound := s.DisinheritAfterTimeout(h, highest);
      }
    }
  }

  lemma KnownTask(s: Scheduler, t: Task)
    requires s.Valid() && t in s.tcb
    ensures t in s.at
  {
  }
}
