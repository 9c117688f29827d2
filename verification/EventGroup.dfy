/** Event groups (FreeRTOS/event_groups.c): tasks wait for bits, and setting bits releases them. A
    stretch with the scheduler suspended is one step. */
module EventGroup {
  import opened TaskLists

  const CLEAR_ON_EXIT: bv32 := 0x0100_0000
  const UNBLOCKED: bv32 := 0x0200_0000
  const WAIT_FOR_ALL: bv32 := 0x0400_0000
  const CONTROL: bv32 := 0xff00_0000
  const IN_USE: bv32 := 0x8000_0000

  // --- what a task waits for, as it is kept in the value of its event item ------------------------

  /** prvTestWaitCondition */
  predicate Met(bits: bv32, want: bv32, all: bool) {
    if all then bits & want == want else bits & want != 0
  }

  /** The request of a task, with the bit that vTaskPlaceOnUnorderedEventList adds */
  function Request(want: bv32, clear: bool, all: bool): bv32 {
    want | (if clear then CLEAR_ON_EXIT else 0) | (if all then WAIT_FOR_ALL else 0) | IN_USE
  }

  function Want(value: bv32): bv32 { value & !CONTROL }

  predicate All(value: bv32) { value & WAIT_FOR_ALL != 0 }

  predicate Clears(value: bv32) { value & CLEAR_ON_EXIT != 0 }

  predicate Unblocked(value: bv32) { value & UNBLOCKED != 0 }

  predicate Satisfied(bits: bv32, value: bv32) { Met(bits, Want(value), All(value)) }

  predicate Plain(bits: bv32) { bits & CONTROL == 0 }

  /** The request can be read back from it. */
  lemma RequestKept(want: bv32, clear: bool, all: bool)
    requires Plain(want)
    ensures var v := Request(want, clear, all);
            Want(v) == want && All(v) == all && Clears(v) == clear && !Unblocked(v)
  {
  }

  /** The answer as well */
  lemma AnswerKept(bits: bv32)
    requires Plain(bits)
    ensures Unblocked(Answer(bits)) && Want(Answer(bits)) == bits
  {
  }

  lemma ClearSatisfiesNone(bits: bv32, mask: bv32, value: bv32)
    requires !Satisfied(bits, value)
    ensures !Satisfied(Without(bits, mask), value)
  {
    FewerBits(bits, mask, Want(value));
  }

  lemma FewerBits(bits: bv32, mask: bv32, w: bv32)
    ensures Without(bits, mask) & w == w ==> bits & w == w
    ensures bits & w == 0 ==> Without(bits, mask) & w == 0
  {
  }

  function Without(bits: bv32, mask: bv32): bv32 { bits & !mask }

  lemma PlainSet(a: bv32, b: bv32)
    requires Plain(a) && Plain(b)
    ensures Plain(Or(a, b))
  {
  }

  lemma PlainCleared(a: bv32, mask: bv32)
    requires Plain(a)
    ensures Plain(Without(a, mask))
  {
  }

  // --- what setting bits does to the waiting tasks --------------------------------------------------

  predicate Distinct(tasks: seq<Task>) {
    forall i, j :: 0 <= i < j < |tasks| ==> tasks[i] != tasks[j]
  }

  predicate Known(waiting: seq<Task>, item: map<Task, bv32>) {
    forall t {:trigger t in item} :: t in waiting ==> t in item
  }

  function Remaining(waiting: seq<Task>, item: map<Task, bv32>, bits: bv32): seq<Task>
    requires Known(waiting, item)
  {
    if waiting == [] then []
    else
      var t := waiting[|waiting| - 1];
      Remaining(waiting[..|waiting| - 1], item, bits) + if Satisfied(bits, item[t]) then [] else [t]
  }

  lemma {:induction false} RemainingOnly(waiting: seq<Task>, item: map<Task, bv32>, bits: bv32)
    requires Known(waiting, item)
    ensures forall t :: t in Remaining(waiting, item, bits) <==> t in waiting && !Satisfied(bits, item[t])
  {
    hide Satisfied;
    if waiting != [] {
      var front, last := waiting[..|waiting| - 1], waiting[|waiting| - 1];
      RemainingOnly(front, item, bits);
      assert waiting == front + [last];
    }
  }

  lemma {:induction false} RemainingDistinct(waiting: seq<Task>, item: map<Task, bv32>, bits: bv32)
    requires Known(waiting, item) && Distinct(waiting)
    ensures Distinct(Remaining(waiting, item, bits))
  {
    hide Satisfied;
    if waiting != [] {
      var front, last := waiting[..|waiting| - 1], waiting[|waiting| - 1];
      RemainingDistinct(front, item, bits);
      RemainingOnly(front, item, bits);
      assert last !in front;
    }
  }

  function Or(a: bv32, b: bv32): bv32 { a | b }

  /** Some bit of the mask is on. */
  predicate Has(bits: bv32, mask: bv32) { bits & mask != 0 }

  function Asked(value: bv32, bits: bv32): bv32 {
    if Satisfied(bits, value) && Clears(value) then Want(value) else 0
  }

  /** The bits that the released tasks want to have cleared */
  function Cleared(waiting: seq<Task>, item: map<Task, bv32>, bits: bv32): bv32
    requires Known(waiting, item)
  {
    if waiting == [] then 0
    else
      var t := waiting[|waiting| - 1];
      Or(Cleared(waiting[..|waiting| - 1], item, bits), Asked(item[t], bits))
  }

  lemma {:induction false} ClearedIsUnion(waiting: seq<Task>, item: map<Task, bv32>, bits: bv32, mask: bv32)
    requires Known(waiting, item)
    ensures Has(Cleared(waiting, item, bits), mask) <==> exists t :: t in waiting && Has(Asked(item[t], bits), mask)
  {
    hide Asked, Has, Or;
    if waiting == [] {
      NoBits(mask);
    } else {
      var t, front := waiting[|waiting| - 1], waiting[..|waiting| - 1];
      ClearedIsUnion(front, item, bits, mask);
      OrMeets(Cleared(front, item, bits), Asked(item[t], bits), mask);
      assert waiting == front + [t];
    }
  }

  lemma NoBits(mask: bv32)
    ensures !Has(0, mask)
  {
  }

  lemma OrMeets(a: bv32, b: bv32, mask: bv32)
    ensures Has(Or(a, b), mask) <==> Has(a, mask) || Has(b, mask)
  {
    assert (a | b) & mask == (a & mask) | (b & mask);
  }

  // --- bit by bit -----------------------------------------------------------------------------------

  predicate Single(m: bv32) { m != 0 && m & (m - 1) == 0 }

  lemma LowestOf(v: bv32) returns (m: bv32)
    requires v != 0
    ensures Single(m) && Has(v, m)
  {
    m := v & (0 - v);
  }

  lemma HasBoth(a: bv32, b: bv32, m: bv32)
    requires Single(m)
    ensures Has(a & b, m) <==> Has(a, m) && Has(b, m)
  {
    BitOrNone(a, m);
    BitOrNone(b, m);
    assert (a & b) & m == (a & m) & (b & m);
  }

  lemma HasLess(a: bv32, b: bv32, m: bv32)
    requires Single(m)
    ensures Has(Without(a, b), m) <==> Has(a, m) && !Has(b, m)
  {
    BitOrNone(a, m);
    BitOrNone(b, m);
    Minus(a, b, m);
  }

  lemma Minus(a: bv32, b: bv32, m: bv32)
    ensures (a & !b) & m == (a & m) & !(b & m)
  {
  }

  lemma BitOrNone(a: bv32, m: bv32)
    requires m != 0 && m & (m - 1) == 0
    ensures a & m == 0 || a & m == m
  {
  }

  /** A wait for all of some bits is met when none of them is missing, a wait for any when one of them is there. */
  lemma MetExactly(bits: bv32, want: bv32, all: bool)
    ensures Met(bits, want, all) <==>
              if all then forall m {:trigger Has(want, m)} :: Single(m) && Has(want, m) ==> Has(bits, m)
              else exists m {:trigger Has(want, m)} :: Single(m) && Has(want, m) && Has(bits, m)
  {
    if all { MetAll(bits, want); } else { MetAny(bits, want); }
  }

  lemma MetAll(bits: bv32, want: bv32)
    ensures Met(bits, want, true) <==> forall m {:trigger Has(want, m)} :: Single(m) && Has(want, m) ==> Has(bits, m)
  {
    hide Single, Has;
    if bits & want == want {
      forall m {:trigger Has(want, m)} | Single(m) && Has(want, m) ensures Has(bits, m) { HasBoth(bits, want, m); }
    } else {
      var m := MissingBit(bits, want);
      assert Has(want, m) && !Has(bits, m);
    }
  }

  lemma MissingBit(bits: bv32, want: bv32) returns (m: bv32)
    requires bits & want != want
    ensures Single(m) && Has(want, m) && !Has(bits, m)
  {
    hide Single, Has, Without;
    var less := Without(want, bits);
    SomeMissing(bits, want);
    m := LowestOf(less);
    HasLess(want, bits, m);
  }

  lemma SomeMissing(bits: bv32, want: bv32)
    requires bits & want != want
    ensures Without(want, bits) != 0
  {
  }

  lemma MetAny(bits: bv32, want: bv32)
    ensures Met(bits, want, false) <==> exists m {:trigger Has(want, m)} :: Single(m) && Has(want, m) && Has(bits, m)
  {
    hide Single, Has;
    var both := bits & want;
    if both != 0 {
      var m := LowestOf(both);
      HasBoth(bits, want, m);
    }
    forall m {:trigger Has(want, m)} | Single(m) && Has(want, m) && Has(bits, m) ensures both != 0 {
      HasBoth(bits, want, m);
      NoBits(m);
    }
  }

  /** What the value of an event item says: when its task is released, and what it clears then. */
  lemma RequestMeans(bits: bv32, want: bv32, clear: bool, all: bool)
    requires Plain(want)
    ensures Satisfied(bits, Request(want, clear, all)) <==> Met(bits, want, all)
    ensures Asked(Request(want, clear, all), bits) == if clear && Met(bits, want, all) then want else 0
  {
    hide Met, Want, All, Clears, Request, Plain;
    RequestKept(want, clear, all);
  }

  /** A task that is released clears this bit. */
  ghost predicate ClearedBy(waiting: seq<Task>, item: map<Task, bv32>, bits: bv32, m: bv32)
    requires Known(waiting, item)
  {
    exists t :: t in waiting && Has(Asked(item[t], bits), m)
  }

  /** The bits after setting some: those that were on or are set, but for those that released tasks clear. */
  lemma BitsAfterSet(bits: bv32, more: bv32, waiting: seq<Task>, item: map<Task, bv32>, m: bv32)
    requires Known(waiting, item) && Single(m)
    ensures Has(Without(Or(bits, more), Cleared(waiting, item, Or(bits, more))), m) <==>
              (Has(bits, m) || Has(more, m)) && !ClearedBy(waiting, item, Or(bits, more), m)
  {
    hide Single, Without, Or, Cleared, Asked;
    HasLess(Or(bits, more), Cleared(waiting, item, Or(bits, more)), m);
    OrMeets(bits, more, m);
    ClearedIsUnion(waiting, item, Or(bits, more), m);
  }

  /** The value of the event item of a released task */
  function Answer(bits: bv32): bv32 { bits | UNBLOCKED | IN_USE }

  ghost predicate Stamped(item0: map<Task, bv32>, item: map<Task, bv32>, waiting: seq<Task>, bits: bv32) {
    && item.Keys == item0.Keys
    && forall t {:trigger item[t]} :: t in item ==>
         item[t] == if t in waiting && Satisfied(bits, item0[t]) then Answer(bits) else item0[t]
  }

  /** The first `k` waiting tasks have been looked at, and `i` of them stay. */
  ghost predicate Walked(waiting0: seq<Task>, item0: map<Task, bv32>, bits: bv32, k: nat,
                         waiting: seq<Task>, item: map<Task, bv32>, clear: bv32, i: nat)
  {
    && Known(waiting0, item0) && k <= |waiting0|
    && i == |Remaining(waiting0[..k], item0, bits)| && waiting == Remaining(waiting0[..k], item0, bits) + waiting0[k..]
    && Stamped(item0, item, waiting0[..k], bits) && clear == Cleared(waiting0[..k], item0, bits)
  }

  lemma OneMore(waiting: seq<Task>, item: map<Task, bv32>, bits: bv32, t: Task)
    requires Known(waiting, item) && t in item
    ensures Known(waiting + [t], item)
    ensures Remaining(waiting + [t], item, bits) == Remaining(waiting, item, bits) + if Satisfied(bits, item[t]) then [] else [t]
    ensures Cleared(waiting + [t], item, bits) == Or(Cleared(waiting, item, bits), Asked(item[t], bits))
  {
    hide Satisfied, Asked, Or;
    assert (waiting + [t])[..|waiting|] == waiting;
  }

  lemma Split(waiting0: seq<Task>, k: nat, front: seq<Task>, waiting: seq<Task>)
    requires k <= |waiting0| && waiting == front + waiting0[k..] && |front| < |waiting|
    ensures k < |waiting0| && waiting[|front|] == waiting0[k] && waiting0[k] in waiting0 && waiting0[..k + 1] == waiting0[..k] + [waiting0[k]]
    ensures waiting[..|front|] + waiting[|front| + 1..] == front + waiting0[k + 1..]
    ensures waiting == front + [waiting0[k]] + waiting0[k + 1..]
    ensures Distinct(waiting0) ==> waiting0[k] !in waiting0[..k]
  {
  }

  lemma WalkOne(waiting0: seq<Task>, item0: map<Task, bv32>, bits: bv32, k: nat, waiting: seq<Task>, item: map<Task,
                bv32>, clear: bv32, i: nat)
    requires Walked(waiting0, item0, bits, k, waiting, item, clear, i) && Distinct(waiting0) && i < |waiting|
    ensures k < |waiting0| && waiting[i] in item && |waiting| - i == |waiting0| - k
    ensures var t := waiting[i];
            if Satisfied(bits, item[t]) then
              Walked(waiting0, item0, bits, k + 1, waiting[..i] + waiting[i + 1..], item[t := Answer(bits)],
                     Or(clear, Asked(item[t], bits)), i)
            else Walked(waiting0, item0, bits, k + 1, waiting, item, Or(clear, Asked(item[t], bits)), i + 1)
  {
    hide Satisfied, Asked, Or, Answer, Remaining, Cleared, Stamped, Distinct;
    Split(waiting0, k, Remaining(waiting0[..k], item0, bits), waiting);
    OneMore(waiting0[..k], item0, bits, waiting0[k]);
    StampedOne(item0, item, waiting0[..k], waiting0[k], bits);
  }

  lemma StampedOne(item0: map<Task, bv32>, item: map<Task, bv32>, waiting: seq<Task>, t: Task, bits: bv32)
    requires Stamped(item0, item, waiting, bits) && t !in waiting && t in item0
    ensures t in item && item[t] == item0[t]
    ensures Stamped(item0, if Satisfied(bits, item[t]) then item[t := Answer(bits)] else item, waiting + [t], bits)
  {
    hide Satisfied, Answer;
  }

  lemma OrNothing(a: bv32)
    ensures Or(a, 0) == a
  {
  }

  lemma WalkNone(waiting: seq<Task>, item: map<Task, bv32>, bits: bv32)
    requires Known(waiting, item)
    ensures Walked(waiting, item, bits, 0, waiting, item, 0, 0)
  {
    assert waiting[..0] == [];
  }

  lemma WalkAll(waiting0: seq<Task>, item0: map<Task, bv32>, bits: bv32, k: nat, waiting: seq<Task>, item: map<Task,
                bv32>, clear: bv32)
    requires Walked(waiting0, item0, bits, k, waiting, item, clear, |waiting|)
    ensures waiting == Remaining(waiting0, item0, bits) && clear == Cleared(waiting0, item0, bits) && Stamped(item0, item, waiting0, bits)
  {
    assert waiting0[..|waiting0|] == waiting0;
  }

  // --- the record of a run --------------------------------------------------------------------------

  /** `b` is one of the values the bits have taken from `n` on. */
  ghost predicate Seen(history: seq<bv32>, n: nat, b: bv32) {
    exists i :: n <= i < |history| && history[i] == b
  }

  /** No value of the bits since a waiting task asked has satisfied it. */
  ghost predicate Unmet(waiting: seq<Task>, item: map<Task, bv32>, history: seq<bv32>, since: map<Task, nat>) {
    && Known(waiting, item) && since.Keys == item.Keys
    && (forall t {:trigger since[t]} :: t in since ==> since[t] < |history|)
    && (forall t, i {:trigger since[t], history[i]} :: t in waiting && t in since && since[t] <= i < |history| ==> !Satisfied(history[i], item[t]))
  }

  /** The answer to a task that is no longer waiting is a value that satisfied it. */
  ghost predicate Answered(waiting: seq<Task>, item: map<Task, bv32>, history: seq<bv32>, asked: map<Task, bv32>,
                           since: map<Task, nat>) {
    && item.Keys == asked.Keys == since.Keys
    && forall t {:trigger item[t]} :: t in item ==>
         if Unblocked(item[t]) then t !in waiting && Satisfied(Want(item[t]), asked[t]) && Seen(history, since[t], Want(item[t]))
         else item[t] == asked[t]
  }

  lemma UnmetAfterSet(waiting: seq<Task>, item0: map<Task, bv32>, item: map<Task, bv32>, history: seq<bv32>,
                      since: map<Task, nat>, v: bv32, mask: bv32)
    requires Unmet(waiting, item0, history, since) && Stamped(item0, item, waiting, v)
    ensures Unmet(Remaining(waiting, item0, v), item, history + [v, Without(v, mask)], since)
  {
    hide Satisfied, Want, Unblocked, Without;
    RemainingOnly(waiting, item0, v);
    var left, h := Remaining(waiting, item0, v), history + [v, Without(v, mask)];
    forall t, i {:trigger since[t], h[i]} | t in left && t in since && since[t] <= i < |h| ensures !Satisfied(h[i], item[t]) {
      if i < |history| {
        assert h[i] == history[i];
      } else {
        ClearSatisfiesNone(v, mask, item[t]);
      }
    }
  }

  lemma SeenLater(history: seq<bv32>, more: seq<bv32>, n: nat, b: bv32)
    requires Seen(history, n, b) && n < |history|
    ensures Seen(history + more, n, b)
  {
    var i :| n <= i < |history| && history[i] == b;
    assert (history + more)[i] == b;
  }

  lemma SeenNow(history: seq<bv32>, b: bv32, last: bv32, n: nat)
    requires n < |history|
    ensures Seen(history + [b, last], n, b)
  {
    assert (history + [b, last])[|history|] == b;
  }

  lemma RecordedBefore(waiting: seq<Task>, item: map<Task, bv32>, history: seq<bv32>, since: map<Task, nat>)
    requires Unmet(waiting, item, history, since)
    ensures Known(waiting, item) && forall t {:trigger since[t]} :: t in since ==> since[t] < |history|
  {
  }

  lemma AnsweredAfterSet(waiting: seq<Task>, item0: map<Task, bv32>, item: map<Task, bv32>, history: seq<bv32>,
                         asked: map<Task, bv32>, since: map<Task, nat>, v: bv32, last: bv32)
    requires Unmet(waiting, item0, history, since) && Answered(waiting, item0, history, asked, since) && Stamped(item0, item, waiting, v) && Plain(v)
    ensures Answered(Remaining(waiting, item0, v), item, history + [v, last], asked, since)
  {
    hide Satisfied, Want, Unblocked, Without, Answer, Plain, Seen, Unmet;
    RecordedBefore(waiting, item0, history, since);
    RemainingOnly(waiting, item0, v);
    AnswerKept(v);
    var h := history + [v, last];
    forall t {:trigger item[t]} | t in item && Unblocked(item[t]) ensures Seen(h, since[t], Want(item[t])) {
      if t in waiting && Satisfied(v, item0[t]) {
        SeenNow(history, v, last, since[t]);
      } else {
        SeenLater(history, [v, last], since[t], Want(item[t]));
      }
    }
  }

  lemma KeptAfterClear(waiting: seq<Task>, item: map<Task, bv32>, history: seq<bv32>, asked: map<Task, bv32>,
                       since: map<Task, nat>, bits: bv32, mask: bv32)
    requires Unmet(waiting, item, history, since) && Answered(waiting, item, history, asked, since)
    requires |history| > 0 && history[|history| - 1] == bits
    ensures Unmet(waiting, item, history + [Without(bits, mask)], since)
    ensures Answered(waiting, item, history + [Without(bits, mask)], asked, since)
  {
    hide Satisfied, Want, Unblocked, Without, Seen;
    var h := history + [Without(bits, mask)];
    forall t, i {:trigger since[t], h[i]} | t in waiting && t in since && since[t] <= i < |h| ensures !Satisfied(h[i], item[t]) {
      if i < |history| {
        assert h[i] == history[i];
      } else {
        assert !Satisfied(history[|history| - 1], item[t]);
        ClearSatisfiesNone(bits, mask, item[t]);
      }
    }
    forall t {:trigger item[t]} | t in item && Unblocked(item[t]) ensures Seen(h, since[t], Want(item[t])) {
      SeenLater(history, [Without(bits, mask)], since[t], Want(item[t]));
    }
  }

  lemma KeptAfterBlock(waiting: seq<Task>, item: map<Task, bv32>, history: seq<bv32>, asked: map<Task, bv32>,
                       since: map<Task, nat>, t: Task, value: bv32)
    requires Unmet(waiting, item, history, since) && Answered(waiting, item, history, asked, since) && Distinct(waiting)
    requires t !in item && |history| > 0 && !Satisfied(history[|history| - 1], value) && !Unblocked(value)
    ensures Unmet(waiting + [t], item[t := value], history, since[t := |history| - 1]) && Distinct(waiting + [t])
    ensures Answered(waiting + [t], item[t := value], history, asked[t := value], since[t := |history| - 1])
  {
    hide Satisfied, Want, Unblocked, Seen;
    assert t !in waiting;
  }

  lemma KeptWithout(waiting: seq<Task>, left: seq<Task>, item: map<Task, bv32>, less: map<Task, bv32>,
                    history: seq<bv32>, asked: map<Task, bv32>, since: map<Task, nat>, gone: set<Task>)
    requires Unmet(waiting, item, history, since) && Answered(waiting, item, history, asked, since)
    requires less == item - gone && forall t :: t in left ==> t in waiting && t !in gone
    ensures Unmet(left, less, history, since - gone) && Answered(left, less, history, asked - gone, since - gone)
  {
    hide Satisfied, Want, Unblocked, Seen;
  }

  lemma FewerMet(bits: bv32, mask: bv32, want: bv32)
    requires !Met(bits, want, true)
    ensures !Met(Without(bits, mask), want, true)
  {
    FewerBits(bits, mask, want);
  }

  lemma StampedKeys(item0: map<Task, bv32>, item: map<Task, bv32>, waiting: seq<Task>, bits: bv32)
    requires Stamped(item0, item, waiting, bits)
    ensures item.Keys == item0.Keys
  {
  }

  lemma AfterSet(waiting0: seq<Task>, item0: map<Task, bv32>, waiting: seq<Task>, item: map<Task, bv32>, history: seq<bv32>,
                 asked: map<Task, bv32>, since: map<Task, nat>, v: bv32, mask: bv32)
    requires Distinct(waiting0) && Unmet(waiting0, item0, history, since) && Answered(waiting0, item0, history, asked, since)
    requires Known(waiting0, item0) && Stamped(item0, item, waiting0, v) && Plain(v) && waiting == Remaining(waiting0, item0, v)
    ensures Distinct(waiting) && Known(waiting, item) && Plain(Without(v, mask))
    ensures Unmet(waiting, item, history + [v, Without(v, mask)], since)
    ensures Answered(waiting, item, history + [v, Without(v, mask)], asked, since)
  {
    hide Plain, Without, Unmet, Answered, Distinct, Known, Stamped;
    RemainingDistinct(waiting0, item0, v);
    PlainCleared(v, mask);
    UnmetAfterSet(waiting0, item0, item, history, since, v, mask);
    AnsweredAfterSet(waiting0, item0, item, history, asked, since, v, Without(v, mask));
    RecordedBefore(waiting, item, history + [v, Without(v, mask)], since);
  }

  lemma LeftDistinct(waiting: seq<Task>, i: nat)
    requires Distinct(waiting) && i < |waiting|
    ensures var left := waiting[..i] + waiting[i + 1..];
            Distinct(left) && forall u :: u in left <==> u in waiting && u != waiting[i]
  {
    var left := waiting[..i] + waiting[i + 1..];
    forall u | u in waiting && u != waiting[i] ensures u in left {
      var j :| 0 <= j < |waiting| && waiting[j] == u;
      assert left[if j < i then j else j - 1] == u;
    }
  }

  datatype Outcome = Done(bits: bv32) | NotYet(bits: bv32) | Blocked

  class EventGroup {
    var bits: bv32
    var waiting: seq<Task>
    /** the value of the event item of every task that waits or has yet to hear how its wait ended */
    var item: map<Task, bv32>

    // All values the bits have taken, and for every such task its request and when it was made.
    ghost var history: seq<bv32>
    ghost var asked: map<Task, bv32>
    ghost var since: map<Task, nat>

    /** A task waits only as long as no value of the bits, however short-lived, has satisfied it since it
        asked; one that was released got a value that does. */
    ghost predicate Fair()
      reads this
    {
      && Unmet(waiting, item, history, since) && Answered(waiting, item, history, asked, since)
    }

    ghost predicate Valid()
      reads this
    {
      && Plain(bits) && |history| > 0 && history[|history| - 1] == bits
      && Distinct(waiting) && Known(waiting, item) && Fair()
    }

    /** No task is left waiting for something that has already happened. */
    lemma NoneLeft()
      requires Valid()
      ensures forall t :: t in waiting ==> t in item && !Satisfied(bits, item[t])
    {
      forall t | t in waiting ensures t in item && !Satisfied(bits, item[t]) {
        assert history[|history| - 1] == bits && since[t] <= |history| - 1;
      }
    }

    constructor ()
      ensures Valid() && bits == 0 && waiting == [] && item == map[]
    {
      bits, waiting, item := 0, [], map[];
      history, asked, since := [0], map[], map[];
    }

    /** xEventGroupSetBits: exactly the satisfied tasks are released, all of them see the same bits, and
        the bits they asked to have cleared are cleared only then. */
    method SetBits(more: bv32) returns (r: bv32)
      requires Valid() && Plain(more)
      modifies `bits, `waiting, `item, `history
      ensures Valid() && old(history) <= history && r == bits
      ensures Known(old(waiting), old(item)) && waiting == Remaining(old(waiting), old(item), Or(old(bits), more))
      ensures Stamped(old(item), item, old(waiting), Or(old(bits), more))
      ensures bits == Without(Or(old(bits), more), Cleared(old(waiting), old(item), Or(old(bits), more)))
    {
      hide Plain, Satisfied, Want, Clears, Or, Unblocked, Without, Answer, Walked, Unmet, Answered, Distinct, Known, Stamped;
      ghost var waiting0, item0 := waiting, item;
      var clear: bv32 := 0;
      bits := Or(bits, more);
      ghost var k := 0;
      var i := 0;
      WalkNone(waiting, item, bits);
      while i < |waiting|
        invariant k <= |waiting0| && i <= |waiting| && bits == Or(old(bits), more)
        invariant Walked(waiting0, item0, bits, k, waiting, item, clear, i)
        invariant history == old(history)
        decreases |waiting| - i
      {
        WalkOne(waiting0, item0, bits, k, waiting, item, clear, i);
        OrNothing(clear);
        var t := waiting[i];
        var value := item[t];
        if Satisfied(bits, value) {
          if Clears(value) {
            clear := Or(clear, Want(value));
          }
          item := item[t := Answer(bits)];
          waiting := waiting[..i] + waiting[i + 1..];
        } else {
          i := i + 1;
        }
        k := k + 1;
      }
      WalkAll(waiting0, item0, bits, k, waiting, item, clear);
      PlainSet(old(bits), more);
      AfterSet(waiting0, item0, waiting, item, history, asked, since, bits, clear);
      history := history + [bits, Without(bits, clear)];
      bits := Without(bits, clear);
      r := bits;
    }

    /** xEventGroupClearBits */
    method ClearBits(mask: bv32) returns (r: bv32)
      requires Valid() && Plain(mask)
      modifies `bits, `history
      ensures Valid() && r == old(bits) && bits == Without(old(bits), mask) && old(history) <= history
    {
      hide Plain, Without, Unmet, Answered, Distinct, Known;
      r := bits;
      KeptAfterClear(waiting, item, history, asked, since, bits, mask);
      PlainCleared(bits, mask);
      bits := Without(bits, mask);
      history := history + [bits];
    }

    /** A task that has to wait: its request goes into the value of its event item. */
    method Block(t: Task, want: bv32, clear: bool, all: bool)
      requires Valid() && Plain(want) && t !in item && !Met(bits, want, all)
      modifies `waiting, `item, `asked, `since
      ensures Valid() && waiting == old(waiting) + [t] && item == old(item)[t := Request(want, clear, all)]
      ensures asked == old(asked)[t := Request(want, clear, all)] && since == old(since)[t := |history| - 1]
    {
      hide Plain, Met, All, Want, Clears, Unblocked, Request, Unmet, Answered, Distinct;
      var value := Request(want, clear, all);
      RequestKept(want, clear, all);
      KeptAfterBlock(waiting, item, history, asked, since, t, value);
      waiting := waiting + [t];
      item := item[t := value];
      asked := asked[t := value];
      since := since[t := |history| - 1];
      RecordedBefore(waiting, item, history, since);
    }

    /** xEventGroupWaitBits, up to the point where the task has its bits, gives up, or is blocked */
    method WaitBits(t: Task, want: bv32, clear: bool, all: bool, patient: bool) returns (r: Outcome)
      requires Valid() && Plain(want) && want != 0 && t !in item
      modifies this
      ensures Valid() && old(history) <= history
      ensures r == if Met(old(bits), want, all) then Done(old(bits)) else if patient then Blocked else NotYet(old(bits))
      ensures bits == if r.Done? && clear then Without(old(bits), want) else old(bits)
      ensures r.Blocked? ==> waiting == old(waiting) + [t] && item == old(item)[t := Request(want, clear, all)]
      ensures r.Blocked? ==> asked == old(asked)[t := item[t]]
      ensures !r.Blocked? ==> waiting == old(waiting) && item == old(item) && asked == old(asked) && since == old(since)
    {
      hide Plain, Met, Request, Without, Unmet, Answered, Distinct, Known;
      var current := bits;
      if Met(current, want, all) {
        if clear {
          var _ := ClearBits(want);
        }
        return Done(current);
      } else if !patient {
        return NotYet(current);
      }
      Block(t, want, clear, all);
      return Blocked;
    }

    /** xEventGroupSync, up to the same point: set bits, then wait for all of some bits and clear them. */
    method Sync(t: Task, more: bv32, want: bv32, patient: bool) returns (r: Outcome)
      requires Valid() && Plain(more) && Plain(want) && want != 0 && t !in item
      modifies this
      ensures Valid() && old(history) <= history && Known(old(waiting), old(item))
      ensures var v := Or(old(bits), more);
              var left := Remaining(old(waiting), old(item), v); var less := Without(v, Cleared(old(waiting), old(item), v));
              && (r == if Met(v, want, true) then Done(v) else if patient then Blocked else NotYet(less))
              && bits == (if r.Done? then Without(less, want) else less)
              && waiting == (if r.Blocked? then left + [t] else left)
              && (r.Blocked? <==> t in item) && Stamped(old(item), item - {t}, old(waiting), v)
              && asked == (if r.Blocked? then old(asked)[t := Request(want, true, true)] else old(asked))
              && (r.Blocked? ==> item[t] == asked[t])
    {
      hide Plain, Met, Or, Without, Request, Unmet, Answered, Distinct, Known, Stamped, Remaining, Cleared;
      var original := bits;
      var _ := SetBits(more);
      StampedKeys(old(item), item, old(waiting), Or(original, more));
      assert item - {t} == item;
      if Met(Or(original, more), want, true) {
        r := Done(Or(original, more));
        var _ := ClearBits(want);
      } else if patient {
        FewerMet(Or(original, more), Cleared(old(waiting), old(item), Or(original, more)), want);
        ghost var item1 := item;
        Block(t, want, true, true);
        assert item - {t} == item1;
        r := Blocked;
      } else {
        r := NotYet(bits);
      }
    }

    /** The time-out of a waiting task: the tick takes it from the list and leaves its item value alone. */
    method Expire(t: Task)
      requires Valid() && t in waiting
      modifies `waiting
      ensures Valid() && t !in waiting && forall u :: u in waiting <==> u in old(waiting) && u != t
    {
      hide Plain, Unmet, Answered;
      var i :| 0 <= i < |waiting| && waiting[i] == t;
      var left := waiting[..i] + waiting[i + 1..];
      LeftDistinct(waiting, i);
      assert item - {} == item && asked - {} == asked && since - {} == since;
      KeptWithout(waiting, left, item, item, history, asked, since, {});
      waiting := left;
    }

    /** The rest of xEventGroupWaitBits or, with both flags set, of xEventGroupSync, when the task runs again.
        Unless it timed out, its answer is a value of the bits, taken since it asked, that meets its request. */
    method Resume(t: Task, want: bv32, clear: bool, all: bool) returns (timedOut: bool, got: bv32)
      requires Valid() && t in item && t !in waiting && t in asked && Plain(want) && asked[t] == Request(want, clear, all)
      modifies this
      ensures Valid() && t in old(item) && t in old(since) && item == old(item) - {t} && waiting == old(waiting) && asked == old(asked) - {t}
      ensures !timedOut ==> got == Want(old(item)[t]) && bits == old(bits) && Met(got, want, all) && Seen(old(history), old(since)[t], got)
      ensures timedOut ==> got == old(bits) && bits == if Met(got, want, all) && clear then Without(got, want) else got
      ensures timedOut <==> !Unblocked(old(item)[t])
    {
      hide Plain, Met, Without, Request, Unmet, Distinct, Want, All, Clears, Unblocked, Seen;
      var value := item[t];
      RequestKept(want, clear, all);
      KeptWithout(waiting, waiting, item, item - {t}, history, asked, since, {t});
      item := item - {t};
      asked := asked - {t};
      since := since - {t};
      RecordedBefore(waiting, item, history, since);
      timedOut := !Unblocked(value);
      if timedOut {
        got := bits;
        if Met(got, want, all) && clear {
          var _ := ClearBits(want);
        }
      } else {
        got := Want(value);
      }
    }
  }
}
