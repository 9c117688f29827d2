/** Decisions on a tick count of 32 bits (FreeRTOS/tasks.c and timers.c), compared with what they would
    be if time never wrapped. Ghost arguments are such unbounded times. */
module WrappedTime {
  const WRAP: int := 0x1_0000_0000
  const MAX_DELAY: int := WRAP - 1

  /** What vTaskInternalSetTimeOutState stores: the number of wraps, and the tick count */
  datatype TimeOutState = TimeOutState(overflows: int, entering: int)

  function StateAt(time: nat): TimeOutState {
    TimeOutState(time / WRAP % WRAP, time % WRAP)
  }

  lemma Parts(time: nat)
    ensures time == time / WRAP * WRAP + time % WRAP && 0 <= time % WRAP < WRAP
  {
  }

  lemma Elapsed(from: nat, now: nat)
    requires from <= now
    ensures (now % WRAP - from % WRAP) % WRAP == (now - from) % WRAP
    ensures now - from < WRAP ==>
              (now / WRAP == from / WRAP && now % WRAP >= from % WRAP)
              || (now / WRAP == from / WRAP + 1 && now % WRAP < from % WRAP)
  {
    var a, b := from / WRAP, now / WRAP;
    Parts(from);
    Parts(now);
    assert now - from == (b - a) * WRAP + (now % WRAP - from % WRAP);
    Shift(now % WRAP - from % WRAP, b - a);
  }

  lemma Shift(x: int, k: int)
    ensures (k * WRAP + x) % WRAP == x % WRAP
  {
  }

  /** Whether the counter of wraps looks the same although time moved on by whole multiples of 2^32 wraps */
  predicate SameOverflows(from: nat, now: nat) { from / WRAP % WRAP == now / WRAP % WRAP }

  /** xTaskCheckForTimeOut. With less than one whole wrap since the state was stored, it times out
      exactly when the wait is over, and otherwise leaves what remains of the wait. In general it
      misses a time-out in one case only: the clock went round more than once, stands before the
      stored count (or the counter of wraps went round as well), and looks as if the wait were not over. */
  method CheckForTimeOut(overflows: int, tick: int, state: TimeOutState, wait: int, ghost entry: nat, ghost now: nat)
    returns (timedOut: bool, state2: TimeOutState, wait2: int)
    requires entry <= now && state == StateAt(entry) && StateAt(now) == TimeOutState(overflows, tick) && 0 <= wait < WRAP
    ensures wait == MAX_DELAY ==> !timedOut && state2 == state && wait2 == wait
    ensures wait < MAX_DELAY && now - entry < WRAP ==> (timedOut <==> now - entry >= wait)
    ensures wait < MAX_DELAY ==>
              ((timedOut <==> now - entry >= wait) <==>
               !(now - entry >= WRAP && (tick < state.entering || SameOverflows(entry, now)) && (now - entry) % WRAP < wait))
    ensures wait < MAX_DELAY && !timedOut ==> state2 == StateAt(now) && wait2 == wait - (now - entry) % WRAP && wait2 > 0
    ensures timedOut ==> state2 == state && wait2 == if overflows != state.overflows && tick >= state.entering then wait else 0
  {
    Elapsed(entry, now);
    var elapsed := (tick - state.entering) % WRAP;
    state2, wait2 := state, wait;
    if wait == MAX_DELAY {
      timedOut := false;
    } else if overflows != state.overflows && tick >= state.entering {
      timedOut := true;
      NotYetRound(entry, now);
    } else if elapsed < wait {
      wait2 := wait - elapsed;
      state2 := TimeOutState(overflows, tick);
      timedOut := false;
    } else {
      wait2 := 0;
      timedOut := true;
    }
  }

  /** Different wrap counts with the clock not before the stored count: more than a whole wrap passed. */
  lemma NotYetRound(entry: nat, now: nat)
    requires entry <= now && !SameOverflows(entry, now) && now % WRAP >= entry % WRAP
    ensures now - entry >= WRAP
  {
    Elapsed(entry, now);
  }

  /** A wait of 10 ticks, checked only after more than a whole wrap: the time-out is missed. */
  method MissedTimeOut() returns (timedOut: bool, ghost elapsed: nat)
    ensures elapsed >= 10 && !timedOut
  {
    ghost var entry, now := WRAP - 1, 2 * WRAP + 5;
    elapsed := now - entry;
    var state, left;
    timedOut, state, left := CheckForTimeOut(2, 5, TimeOutState(0, WRAP - 1), 10, entry, now);
  }

  /** A task that checks its time-out again and again, never more than a wrap apart, gives up at the
      first check at which its whole wait is over. */
  method CheckUntil(start: nat, wait: int, times: seq<nat>) returns (n: nat)
    requires 0 < wait < MAX_DELAY && |times| > 0 && start <= times[0] && times[0] - start < WRAP
    requires forall i {:trigger times[i]} :: 0 < i < |times| ==> times[i - 1] <= times[i] && times[i] - times[i - 1] < WRAP
    ensures n <= |times| && (n < |times| ==> times[n] - start >= wait)
    ensures forall i {:trigger times[i]} :: 0 <= i < n ==> times[i] - start < wait
  {
    var state, left := StateAt(start), wait;
    ghost var last: nat := start;
    n := 0;
    while n < |times|
      invariant n <= |times| && state == StateAt(last) && last == (if n == 0 then start else times[n - 1])
      invariant left == wait - (last - start) && 0 < left && last >= start
      invariant forall i {:trigger times[i]} :: 0 <= i < n ==> times[i] - start < wait
    {
      var now := times[n];
      var timedOut;
      timedOut, state, left := CheckForTimeOut(now / WRAP % WRAP, now % WRAP, state, left, last, now);
      if timedOut { return; }
      last := now;
      n := n + 1;
    }
  }

  /** vTaskDelayUntil: it delays exactly when the previous wake time plus the increment is still ahead,
      and then by exactly the difference. */
  method DelayUntil(previous: int, increment: int, tick: int, ghost last: nat, ghost now: nat)
    returns (shouldDelay: bool, wake: int, ticks: int)
    requires last <= now && now - last < WRAP && previous == last % WRAP && tick == now % WRAP && 0 < increment < WRAP
    ensures wake == (last + increment) % WRAP
    ensures shouldDelay <==> last + increment > now
    ensures shouldDelay ==> ticks == last + increment - now && 0 < ticks < WRAP
  {
    Elapsed(last, now);
    Parts(last);
    Parts(now);
    wake := (previous + increment) % WRAP;
    Shift(last % WRAP + increment, last / WRAP);
    shouldDelay := false;
    if tick < previous {
      if wake < previous && wake > tick {
        shouldDelay := true;
      }
    } else {
      if wake < previous || wake > tick {
        shouldDelay := true;
      }
    }
    ticks := (wake - tick) % WRAP;
  }

  /** No drift: whenever the task gets to run again, its n-th wake time is `start + n * increment`, as
      long as it never comes a whole wrap late. */
  method WakePeriodically(start: nat, increment: int, late: seq<nat>) returns (wake: int)
    requires 0 < increment < WRAP && forall i {:trigger late[i]} :: 0 <= i < |late| ==> late[i] + increment < WRAP
    ensures wake == (start + |late| * increment) % WRAP
  {
    wake := start % WRAP;
    ghost var last := start;
    for n := 0 to |late|
      invariant wake == last % WRAP && last == start + n * increment && last >= 0
    {
      // The task runs `late[n]` ticks after its last wake time.
      ghost var now := last + late[n];
      var tick := (wake + late[n]) % WRAP;
      Parts(last);
      Shift(last % WRAP + late[n], last / WRAP);
      var _, next, _ := DelayUntil(wake, increment, tick, last, now);
      wake := next;
      last := last + increment;
    }
  }

  datatype Placement = ProcessNow | CurrentList | OverflowList

  /** prvInsertTimerInActiveList, for a timer started or reset at `commandTime`: it is processed at once
      exactly when it has expired already, and otherwise goes to the list of the wrap it expires in. */
  method InsertTimer(nextExpiry: int, period: int, timeNow: int, commandTime: int, ghost issued: nat, ghost now: nat)
    returns (placement: Placement)
    requires issued <= now && now - issued < WRAP && 0 < period < WRAP
    requires commandTime == issued % WRAP && timeNow == now % WRAP && nextExpiry == (issued + period) % WRAP
    ensures placement.ProcessNow? <==> issued + period <= now
    ensures placement.CurrentList? <==> issued + period > now && (issued + period) / WRAP == now / WRAP
    ensures placement.OverflowList? <==> issued + period > now && (issued + period) / WRAP == now / WRAP + 1
  {
    Elapsed(issued, now);
    Parts(issued);
    Parts(now);
    Parts(issued + period);
    if issued + period > now { Elapsed(now, issued + period); } else { Elapsed(issued + period, now); }
    Elapsed(issued, issued + period);
    if nextExpiry <= timeNow {
      if (timeNow - commandTime) % WRAP >= period {
        placement := ProcessNow;
      } else {
        placement := OverflowList;
      }
    } else {
      if timeNow < commandTime && nextExpiry >= commandTime {
        placement := ProcessNow;
      } else {
        placement := CurrentList;
      }
    }
  }
}
