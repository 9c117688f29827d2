/** Sequences of requests to the allocator (kernel/memory.c): what every pointer that was handed out points
    to, and that nothing else is in use. */
module MemoryRuns {
  import opened HeapLayout
  import opened HeapInvariant
  import opened HeapSteps
  import opened Heap
  import opened Memory

  /** MemRealloc of the which-th live pointer, or of a null pointer if there are not as many: with a null
      pointer it allocates, and with size 0 it frees. Or the owner of a block writes a word of it. */
  datatype Request = Reallocate(which: nat, size: nat) | Write(which: nat, word: nat, value: int)

  predicate Proper(q: Request) { q.Reallocate? ==> q.size < 0x1_0000_0000 }

  /** The size is rounded to zero: `Memory.Realloc`. */
  predicate Rounded(q: Request)
    requires Proper(q)
  {
    q.Reallocate? && BlockBytes(q.size) == 0
  }

  /** A pointer and the number of words behind it; and what they are */
  datatype Held = Held(ptr: nat, room: nat)

  datatype Owned = Owned(ptr: nat, words: seq<int>)

  // --- what the requests mean -----------------------------------------------------------------------

  function Others<T>(live: seq<T>, which: nat): seq<T> {
    if which < |live| then live[..which] + live[which + 1..] else live
  }

  /** The live blocks before and after a request that returned `r` */
  ghost predicate Step(live: seq<Owned>, q: Request, r: nat, next: seq<Owned>) {
    match q
    case Write(which, word, value) =>
      next == if which < |live| && word < |live[which].words| then live[which := Owned(live[which].ptr, live[which].words[word := value])] else live
    case Reallocate(which, size) =>
      if size == 0 then r == 0 && next == Others(live, which)
      else if r == 0 then next == live
      else
        && size < 0x1_0000_0000 && |next| == |Others(live, which)| + 1 && next[..|next| - 1] == Others(live, which)
        && next[|next| - 1].ptr == r && |next[|next| - 1].words| == BlockBytes(size) / 4 - 2
        && (which < |live| ==> Shared(live[which].words, next[|next| - 1].words))
  }

  /** As much of the contents as fits both */
  ghost predicate Shared(a: seq<int>, b: seq<int>) {
    var n := Min(|a|, |b|); a[..n] == b[..n]
  }

  // --- what is in memory ----------------------------------------------------------------------------

  ghost predicate WordsAt(M: Mem, b: Block, words: seq<int>) {
    |words| == 4 * b.len - 2 && forall w {:trigger words[w]} :: 0 <= w < |words| ==> words[w] == Word(M, b.pos + w / 4, w % 4)
  }

  ghost predicate HasAt(bases: seq<nat>, V: seq<View>, o: Owned, k: nat, i: nat) {
    && k < |V| == |bases| && i < |V[k].B| && V[k].B[i].used && o.ptr == bases[k] + V[k].B[i].pos && V[k].B[i].pos >= FIRST
    && WordsAt(V[k].M, V[k].B[i], o.words)
  }

  /** The block is in use, and its words are these. */
  ghost predicate Has(bases: seq<nat>, V: seq<View>, o: Owned) {
    exists k: nat, i: nat :: HasAt(bases, V, o, k, i)
  }

  ghost predicate AllHave(bases: seq<nat>, V: seq<View>, live: seq<Owned>) {
    forall n {:trigger live[n]} :: 0 <= n < |live| ==> Has(bases, V, live[n])
  }

  ghost predicate Different(live: seq<Owned>) {
    forall m, n {:trigger live[m], live[n]} :: 0 <= m < n < |live| ==> live[m].ptr != live[n].ptr
  }

  ghost predicate PointedTo(live: seq<Owned>, ptr: nat) {
    exists n :: 0 <= n < |live| && live[n].ptr == ptr
  }

  /** Every block in use is live, or was in use at the beginning. */
  ghost predicate Accounted(bases: seq<nat>, V0: seq<View>, V: seq<View>, live: seq<Owned>) {
    && |V| == |V0| == |bases|
    && forall z: nat, b: Block {:trigger UsedAt(V, z, b)} :: UsedAt(V, z, b) ==> UsedAt(V0, z, b) || PointedTo(live, bases[z] + b.pos)
  }

  ghost predicate Matches(held: seq<Held>, live: seq<Owned>) {
    |held| == |live| && forall n {:trigger held[n]} {:trigger live[n]} :: 0 <= n < |held| ==> held[n] == Held(live[n].ptr, |live[n].words|)
  }

  // --- lemmas ---------------------------------------------------------------------------------------

  lemma WordsStay(M0: Mem, M: Mem, total: nat, b: Block, words: seq<int>)
    requires WordsAt(M0, b, words) && SameData(M0, M, b) && b.used && Sized(M0, total) && Sized(M, total) && b.Past() <= total
    ensures WordsAt(M, b, words)
  {
    CarriedInPlace(M0, M, total, b.pos, b.len);
    forall w {:trigger words[w]} | 0 <= w < |words| ensures words[w] == Word(M, b.pos + w / 4, w % 4) {
      assert DataWord(M, b.pos, w / 4, w % 4) == DataWord(M0, b.pos, w / 4, w % 4);
    }
  }

  /** A live block other than the one a request was about stays as it is. */
  lemma Stays(m: Memory, V0: seq<View>, V: seq<View>, o: Owned, k: nat, p: nat)
    requires Kept(V0, V, k, p) && Has(m.bases, V0, o) && AllTiled(V0, m.Totals()) && AllSized(V0, m.Totals()) && AllSized(V, m.Totals())
    requires k < |m.bases| && p != 0 ==> o.ptr != m.bases[k] + p
    ensures Has(m.bases, V, o)
  {
    hide Kept, SameData, WordsAt;
    var x: nat, i: nat :| HasAt(m.bases, V0, o, x, i);
    Inside(V0[x].B, m.Totals()[x], i);
    var j := StillThere(V0, V, k, p, x, i);
    WordsStay(V0[x].M, V[x].M, m.Totals()[x], V0[x].B[i], o.words);
    assert HasAt(m.bases, V, o, x, j);
  }

  /** All of them do. */
  lemma AllStay(m: Memory, V0: seq<View>, V: seq<View>, live: seq<Owned>, which: nat, k: nat, p: nat)
    requires Kept(V0, V, k, p) && AllHave(m.bases, V0, live) && Different(live)
    requires AllTiled(V0, m.Totals()) && AllSized(V0, m.Totals()) && AllSized(V, m.Totals())
    requires if which < |live| then k < |m.bases| && live[which].ptr == m.bases[k] + p else p == 0
    ensures AllHave(m.bases, V, Others(live, which)) && Different(Others(live, which))
    ensures which < |live| ==> !PointedTo(Others(live, which), live[which].ptr)
  {
    hide Kept, AllTiled, AllSized, Has;
    var others := Others(live, which);
    forall n {:trigger others[n]} | 0 <= n < |others| ensures Has(m.bases, V, others[n]) {
      var j := if which < |live| && n >= which then n + 1 else n;
      assert others[n] == live[j];
      if which < |live| { assert live[which].ptr != live[j].ptr; }
      Stays(m, V0, V, live[j], k, p);
    }
  }

  /** A pointer that was handed out points to memory nobody else had. */
  lemma NewPointer(m: Memory, V0: seq<View>, others: seq<Owned>, ptr: nat, r: nat, k: nat, i: nat)
    requires m.Valid() && AllHave(m.bases, V0, others) && AllTiled(V0, m.Totals()) && |V0| == |m.bases|
    requires m.Live(r, k, i) && ((r == ptr && !PointedTo(others, ptr)) || WasFree(V0[k].B, r - m.bases[k]))
    ensures !PointedTo(others, r)
  {
    hide Memory.Valid, WordsAt;
    m.LiveInside(r, k, i);
    forall n {:trigger others[n]} | 0 <= n < |others| ensures others[n].ptr != r {
      assert Has(m.bases, V0, others[n]);
      var x: nat, j: nat :| HasAt(m.bases, V0, others[n], x, j);
      Inside(V0[x].B, m.Totals()[x], j);
      if x != k { Apartness(m, x, k); }
    }
  }

  lemma Apartness(m: Memory, x: nat, k: nat)
    requires m.Valid() && x < |m.regions| && k < |m.regions| && x != k
    ensures m.bases[x] + m.regions[x].total <= m.bases[k] || m.bases[k] + m.regions[k].total <= m.bases[x]
  {
    m.Disjoint(x, k);
  }

  ghost function Contents(M: Mem, b: Block): (words: seq<int>)
    requires b.len >= 1
    ensures WordsAt(M, b, words)
  {
    seq(4 * b.len - 2, w requires 0 <= w < 4 * b.len - 2 => Word(M, b.pos + w / 4, w % 4))
  }

  lemma ContentsShared(M0: Mem, b0: Block, words: seq<int>, M: Mem, b: Block)
    requires b0.len >= 1 && b.len >= 1 && WordsAt(M0, b0, words) && Carried(M0, b0.pos, M, b.pos, Min(b0.len, b.len))
    ensures Shared(words, Contents(M, b))
  {
    var more := Contents(M, b);
    var n := Min(|words|, |more|);
    forall w | 0 <= w < n ensures words[w] == more[w] {
      assert DataWord(M, b.pos, w / 4, w % 4) == DataWord(M0, b0.pos, w / 4, w % 4);
    }
  }

  lemma StillAccounted(m: Memory, V00: seq<View>, V0: seq<View>, V: seq<View>, live: seq<Owned>, which: nat, k: nat, p: nat, k2: nat, q: nat,
                       next: seq<Owned>)
    requires Accounted(m.bases, V00, V0, live) && Only(V0, V, k, p, k2, q)
    requires if which < |live| then k < |m.bases| && k < |m.regions| && 0 < p < m.regions[k].total && live[which].ptr == m.bases[k] + p else p == 0
    requires q != 0 ==> k2 < |m.bases| && PointedTo(next, m.bases[k2] + q)
    requires forall n {:trigger Others(live, which)[n]} :: 0 <= n < |Others(live, which)| ==> PointedTo(next, Others(live, which)[n].ptr)
    requires m.Valid() && AllTiled(V0, m.Totals())
    ensures Accounted(m.bases, V00, V, next)
  {
    hide Arena.Valid, Tiles, AllTiled;
    forall z: nat, b: Block {:trigger UsedAt(V, z, b)} | UsedAt(V, z, b) ensures UsedAt(V00, z, b) || PointedTo(next, m.bases[z] + b.pos) {
      if !(q != 0 && z == k2 && b.pos == q) {
        assert UsedAt(V0, z, b);
        if !UsedAt(V00, z, b) {
          var n :| 0 <= n < |live| && live[n].ptr == m.bases[z] + b.pos;
          StaysPointed(m, V0, live, which, k, p, z, b, n);
          var j := if which < |live| && n > which then n - 1 else n;
          assert Others(live, which)[j] == live[n];
        }
      }
    }
  }

  /** Two places in memory are not the same pointer. */
  lemma StaysPointed(m: Memory, V0: seq<View>, live: seq<Owned>, which: nat, k: nat, p: nat, z: nat, b: Block, n: nat)
    requires m.Valid() && AllTiled(V0, m.Totals()) && UsedAt(V0, z, b) && n < |live| && live[n].ptr == m.bases[z] + b.pos && |V0| == |m.bases|
    requires which < |live| ==> k < |m.regions| == |m.bases| && p < m.regions[k].total && live[which].ptr == m.bases[k] + p && !(z == k && b.pos == p)
    ensures n != which
  {
    var i :| 0 <= i < |V0[z].B| && V0[z].B[i] == b;
    Inside(V0[z].B, m.Totals()[z], i);
    if which < |live| && z != k { m.Disjoint(z, k); }
  }

  // --- serving --------------------------------------------------------------------------------------

  lemma LiveOne(m: Memory, o: Owned) returns (k: nat, i: nat)
    requires m.Valid() && Has(m.bases, m.Views(), o)
    ensures HasAt(m.bases, m.Views(), o, k, i) && m.Live(o.ptr, k, i) && |o.words| == 4 * m.regions[k].B[i].len - 2
    ensures m.bases[k] + FIRST <= o.ptr < m.bases[k] + m.regions[k].total && m.regions[k].B[i].len >= 1
  {
    hide Memory.Valid, WordsAt;
    k, i :| HasAt(m.bases, m.Views(), o, k, i);
    m.LiveInside(o.ptr, k, i);
    WordsSize(m.Views()[k].M, m.Views()[k].B[i], o.words);
    m.ViewsSized();
    Inside(m.Views()[k].B, m.Totals()[k], i);
  }

  lemma WordsSize(M: Mem, b: Block, words: seq<int>)
    requires WordsAt(M, b, words)
    ensures |words| == 4 * b.len - 2
  {
  }

  /** The owner writes a word. */
  method ServeWrite(m: Memory, which: nat, word: nat, value: int, held: seq<Held>, ghost live: seq<Owned>, ghost V00: seq<View>)
      returns (ghost next: seq<Owned>)
    requires m.Valid() && Matches(held, live) && AllHave(m.bases, m.Views(), live) && Different(live)
    requires Accounted(m.bases, V00, m.Views(), live)
    modifies m.Repr()
    ensures m.Valid() && Matches(held, next) && AllHave(m.bases, m.Views(), next) && Different(next)
    ensures Step(live, Write(which, word, value), 0, next) && Accounted(m.bases, V00, m.Views(), next)
  {
    hide Memory.Valid, Kept, WordsAt, Has, HasAt, AllTiled, AllSized;
    next := live;
    if which < |held| && word < held[which].room {
      ghost var V0, o := m.Views(), live[which];
      assert Has(m.bases, V0, o);
      ghost var k, i := LiveOne(m, o);
      m.ViewsSized();
      m.Write(held[which].ptr, word, value, k, i);
      m.ViewsSized();
      AllStay(m, V0, m.Views(), live, which, k, o.ptr - m.bases[k]);
      Rewritten(m, V0, o, word, value, k, i);
      next := live[which := Owned(o.ptr, o.words[word := value])];
      OneChanged(m, live, which, next);
      SameAccounts(m, V00, V0, live, next);
    }
  }

  lemma Rewritten(m: Memory, V0: seq<View>, o: Owned, word: nat, value: int, k: nat, i: nat)
    requires m.Valid() && |V0| == |m.regions| && k < |m.regions| && HasAt(m.bases, V0, o, k, i) && word < |o.words| && Sized(V0[k].M, m.Totals()[k])
    requires Tiles(V0[k].B, m.Totals()[k]) && m.regions[k].B == V0[k].B && m.regions[k].M == Put(V0[k].M, o.ptr - m.bases[k] + word / 4, word % 4, value)
    ensures Has(m.bases, m.Views(), Owned(o.ptr, o.words[word := value]))
  {
    hide Memory.Valid;
    var b, M := V0[k].B[i], m.regions[k].M;
    Inside(V0[k].B, m.Totals()[k], i);
    forall w | 0 <= w < |o.words| ensures o.words[word := value][w] == Word(M, b.pos + w / 4, w % 4) {
      assert w != word ==> w / 4 != word / 4 || w % 4 != word % 4;
    }
    assert HasAt(m.bases, m.Views(), Owned(o.ptr, o.words[word := value]), k, i);
  }

  lemma OneChanged(m: Memory, live: seq<Owned>, which: nat, next: seq<Owned>)
    requires m.Valid() && which < |live| && |next| == |live| && next == live[which := next[which]] && next[which].ptr == live[which].ptr
    requires AllHave(m.bases, m.Views(), Others(live, which)) && Has(m.bases, m.Views(), next[which]) && Different(live)
    ensures AllHave(m.bases, m.Views(), next) && Different(next)
  {
    hide Memory.Valid, Has;
    forall n {:trigger next[n]} | 0 <= n < |next| ensures Has(m.bases, m.Views(), next[n]) {
      if n != which {
        assert Others(live, which)[if n < which then n else n - 1] == next[n];
      }
    }
  }

  lemma SameAccounts(m: Memory, V00: seq<View>, V0: seq<View>, live: seq<Owned>, next: seq<Owned>)
    requires m.Valid() && Accounted(m.bases, V00, V0, live) && |V0| == |m.regions|
    requires forall z {:trigger m.regions[z]} :: 0 <= z < |m.regions| ==> m.regions[z].B == V0[z].B
    requires |next| == |live| && forall n {:trigger live[n]} {:trigger next[n]} :: 0 <= n < |live| ==> next[n].ptr == live[n].ptr
    ensures Accounted(m.bases, V00, m.Views(), next)
  {
    hide Memory.Valid;
    forall z: nat, b: Block {:trigger UsedAt(m.Views(), z, b)} | UsedAt(m.Views(), z, b) ensures UsedAt(V00, z, b) || PointedTo(next, m.bases[z] + b.pos) {
      assert UsedAt(V0, z, b);
      if !UsedAt(V00, z, b) {
        var n :| 0 <= n < |live| && live[n].ptr == m.bases[z] + b.pos;
        assert next[n].ptr == live[n].ptr;
      }
    }
  }

  /** One request */
  method ServeOne(m: Memory, q: Request, held: seq<Held>, ghost live: seq<Owned>, ghost V00: seq<View>)
      returns (r: nat, now: seq<Held>, ghost next: seq<Owned>)
    requires m.Valid() && Proper(q) && !Rounded(q) && Matches(held, live) && AllHave(m.bases, m.Views(), live) && Different(live)
    requires Accounted(m.bases, V00, m.Views(), live)
    modifies m.Repr()
    ensures m.Valid() && Matches(now, next) && AllHave(m.bases, m.Views(), next) && Different(next)
    ensures Step(live, q, r, next) && Accounted(m.bases, V00, m.Views(), next)
    ensures q.Reallocate? && q.size != 0 && r == 0 ==> m.Full(BlockBytes(q.size)) && m.Views() == old(m.Views())
    ensures InPlaceExactly(m.bases, old(m.Views()), live, q, r)
  {
    hide Memory.Valid, Kept, WordsAt, Has, HasAt, AllTiled, AllSized, Accounted, Memory.Full, Only, Carried, WasFree, RoomThere, InPlace;
    match q
    case Write(which, word, value) =>
      r, now := 0, held;
      next := ServeWrite(m, which, word, value, held, live, V00);
    case Reallocate(which, size) =>
      var ptr := if which < |held| then held[which].ptr else 0;
      ghost var V0, k: nat, i: nat, p: nat := m.Views(), 0, 0, 0;
      if which < |live| {
        assert Has(m.bases, V0, live[which]);
        k, i := LiveOne(m, live[which]);
        p := ptr - m.bases[k];
      }
      m.ViewsSized();
      var r1, k2, i2 := m.Realloc(ptr, size, k, i);
      r := r1;
      m.ViewsSized();
      if which < |live| { RoomExactly(m, V0, ptr, BlockBytes(size) / 16, k, i); }
      if r == 0 && size != 0 {
        now, next := held, live;
        return;
      }
      AllStay(m, V0, m.Views(), live, which, k, p);
      now, next := Others(held, which), Others(live, which);
      OthersMatch(held, live, which);
      if r != 0 {
        NewPointer(m, V0, next, ptr, r, k2, i2);
        ghost var o := Added(m, V0, live, which, size, r, k, i, k2, i2);
        StillAccounted(m, V00, V0, m.Views(), live, which, k, p, k2, r - m.bases[k2], next + [o]);
        now, next := now + [Held(r, BlockBytes(size) / 4 - 2)], next + [o];
      } else {
        if which >= |live| { OnlySame(V0, k); }
        StillAccounted(m, V00, V0, m.Views(), live, which, k, p, k, 0, next);
      }
  }

  /** Where a pointer to a block in use leads */
  ghost predicate PlacedAt(bases: seq<nat>, V: seq<View>, ptr: nat, k: nat, i: nat) {
    k < |V| == |bases| && i < |V[k].B| && V[k].B[i].used && ptr == bases[k] + V[k].B[i].pos
  }

  /** The block that is pointed to has `n` lines, alone or with the free block behind it. */
  ghost predicate RoomThere(bases: seq<nat>, V: seq<View>, ptr: nat, n: nat) {
    exists k: nat, i: nat :: PlacedAt(bases, V, ptr, k, i) && InPlace(V[k].B, i, n)
  }

  /** A block keeps its place exactly if there is room. */
  ghost predicate InPlaceExactly(bases: seq<nat>, V: seq<View>, live: seq<Owned>, q: Request, r: nat) {
    q.Reallocate? && q.size != 0 && q.which < |live| ==>
      q.size < 0x1_0000_0000 && (r == live[q.which].ptr <==> RoomThere(bases, V, live[q.which].ptr, BlockBytes(q.size) / 16))
  }

  lemma OnePlace(m: Memory, V: seq<View>, ptr: nat, k: nat, i: nat, x: nat, j: nat)
    requires m.Valid() && AllTiled(V, m.Totals()) && PlacedAt(m.bases, V, ptr, k, i) && PlacedAt(m.bases, V, ptr, x, j)
    ensures k == x && i == j
  {
    hide Arena.Valid, Tiles;
    Inside(V[k].B, m.Totals()[k], i);
    Inside(V[x].B, m.Totals()[x], j);
    if k != x {
      m.Disjoint(k, x);
    } else if i < j {
      Order(V[k].B, m.Totals()[k], i, j);
    } else if j < i {
      Order(V[k].B, m.Totals()[k], j, i);
    }
  }

  lemma RoomExactly(m: Memory, V: seq<View>, ptr: nat, n: nat, k: nat, i: nat)
    requires m.Valid() && AllTiled(V, m.Totals()) && PlacedAt(m.bases, V, ptr, k, i)
    ensures RoomThere(m.bases, V, ptr, n) <==> InPlace(V[k].B, i, n)
  {
    hide Memory.Valid, AllTiled, InPlace;
    if RoomThere(m.bases, V, ptr, n) {
      var x: nat, j: nat :| PlacedAt(m.bases, V, ptr, x, j) && InPlace(V[x].B, j, n);
      OnePlace(m, V, ptr, k, i, x, j);
    }
  }

  lemma OnlySame(V: seq<View>, k: nat)
    ensures Only(V, V, k, 0, k, 0)
  {
  }

  lemma OthersMatch(held: seq<Held>, live: seq<Owned>, which: nat)
    requires Matches(held, live)
    ensures Matches(Others(held, which), Others(live, which))
    ensures forall n {:trigger Others(live, which)[n]} :: 0 <= n < |Others(live, which)| ==> PointedTo(Others(live, which), Others(live, which)[n].ptr)
  {
    var a, b := Others(held, which), Others(live, which);
    forall n {:trigger a[n]} {:trigger b[n]} | 0 <= n < |a| ensures a[n] == Held(b[n].ptr, |b[n].words|) {
      var j := if which < |live| && n >= which then n + 1 else n;
      assert a[n] == held[j] && b[n] == live[j];
    }
  }

  /** The block that was handed out, and its words */
  lemma Added(m: Memory, V0: seq<View>, live: seq<Owned>, which: nat, size: nat, r: nat, k: nat, i: nat, k2: nat, i2: nat) returns (o: Owned)
    requires m.Valid() && m.Live(r, k2, i2) && size < 0x1_0000_0000 && BlockBytes(size) >= 16 && m.regions[k2].B[i2].len == BlockBytes(size) / 16
    requires which < |live| ==> HasAt(m.bases, V0, live[which], k, i) && |V0| == |m.regions| && V0[k].B[i].len >= 1
    requires which < |live| ==> Carried(V0[k].M, V0[k].B[i].pos, m.regions[k2].M, r - m.bases[k2], Min(V0[k].B[i].len, BlockBytes(size) / 16))
    requires AllHave(m.bases, m.Views(), Others(live, which)) && Different(Others(live, which)) && !PointedTo(Others(live, which), r) && r != 0 && 0 < size
    ensures o.ptr == r && |o.words| == BlockBytes(size) / 4 - 2
    ensures AllHave(m.bases, m.Views(), Others(live, which) + [o]) && Different(Others(live, which) + [o])
    ensures Step(live, Reallocate(which, size), r, Others(live, which) + [o])
    ensures PointedTo(Others(live, which) + [o], r)
    ensures forall n {:trigger Others(live, which)[n]} :: 0 <= n < |Others(live, which)| ==> PointedTo(Others(live, which) + [o], Others(live, which)[n].ptr)
  {
    hide Memory.Valid, Has, Carried, Word;
    var M, b, others := m.regions[k2].M, m.regions[k2].B[i2], Others(live, which);
    m.LiveInside(r, k2, i2);
    BlockBytesExact(size);
    o := Owned(r, Contents(M, b));
    var next := others + [o];
    HasNow(m, o, k2, i2);
    if which < |live| {
      ContentsShared(V0[k].M, V0[k].B[i], live[which].words, M, b);
    }
    assert next[..|next| - 1] == others;
    forall n {:trigger next[n]} | 0 <= n < |next| ensures Has(m.bases, m.Views(), next[n]) {
      if n < |others| { assert next[n] == others[n]; }
    }
    forall n {:trigger others[n]} | 0 <= n < |others| ensures PointedTo(next, others[n].ptr) {
      assert next[n] == others[n];
    }
    assert next[|others|].ptr == r;
  }

  lemma HasNow(m: Memory, o: Owned, k: nat, i: nat)
    requires m.Valid() && m.Live(o.ptr, k, i) && WordsAt(m.regions[k].M, m.regions[k].B[i], o.words)
    ensures Has(m.bases, m.Views(), o)
  {
    hide WordsAt;
    m.LiveInside(o.ptr, k, i);
    BlockInside(m.regions[k], i);
    assert HasAt(m.bases, m.Views(), o, k, i);
  }

  /** No region has room for a block of that size. */
  ghost predicate NoRoomIn(V: seq<View>, bytes: int) {
    forall x {:trigger V[x]} :: 0 <= x < |V| ==> NoRoom(V[x].B, bytes)
  }

  /** The c-th request was served: in place exactly if there is room there, and it was refused memory only if there was no
      room elsewhere. */
  ghost predicate Served(bases: seq<nat>, history: seq<seq<Owned>>, views: seq<seq<View>>, requests: seq<Request>, results: seq<nat>, c: nat) {
    && c + 1 < |history| && c + 1 < |views| && c < |requests| && c < |results|
    && Step(history[c], requests[c], results[c], history[c + 1])
    && (requests[c].Reallocate? && requests[c].size != 0 && results[c] == 0 ==>
          requests[c].size < 0x1_0000_0000 && NoRoomIn(views[c], BlockBytes(requests[c].size)) && views[c + 1] == views[c])
    && InPlaceExactly(bases, views[c], history[c], requests[c], results[c])
  }

  ghost predicate AllServed(bases: seq<nat>, history: seq<seq<Owned>>, views: seq<seq<View>>, requests: seq<Request>, results: seq<nat>, n: nat) {
    forall c {:trigger Served(bases, history, views, requests, results, c)} :: 0 <= c < n ==> Served(bases, history, views, requests, results, c)
  }

  lemma ServedMore(bases: seq<nat>, history: seq<seq<Owned>>, views: seq<seq<View>>, requests: seq<Request>, results: seq<nat>, n: nat,
                   next: seq<Owned>, view: seq<View>, r: nat)
    requires AllServed(bases, history, views, requests, results, n) && |history| == n + 1 == |views| && |results| == n
    requires Served(bases, history + [next], views + [view], requests, results + [r], n)
    ensures AllServed(bases, history + [next], views + [view], requests, results + [r], n + 1)
  {
    hide Step, NoRoomIn, InPlaceExactly;
    forall c {:trigger Served(bases, history + [next], views + [view], requests, results + [r], c)} | 0 <= c < n + 1
      ensures Served(bases, history + [next], views + [view], requests, results + [r], c)
    {
      if c < n { assert Served(bases, history, views, requests, results, c); }
    }
  }

  lemma FullThen(m: Memory, bytes: int)
    requires m.Valid() && m.Full(bytes)
    ensures NoRoomIn(m.Views(), bytes)
  {
  }

  /** Any sequence of requests, up to one with a size that is rounded to zero. `history` are the live blocks and their
      contents after each of them: a request for memory gets a pointer to a block of the rounded size, with what fits
      of the old contents if there was an old pointer, or nothing if no region has room; a block that is given back
      is no more; a write changes one word; and all other live blocks keep everything. In the end, memory holds just
      these contents, behind pointers that are all different, and no other block is in use but those from before. */
  method Serve(m: Memory, requests: seq<Request>)
      returns (results: seq<nat>, held: seq<Held>, ghost history: seq<seq<Owned>>, ghost views: seq<seq<View>>)
    requires m.Valid() && forall c {:trigger requests[c]} :: 0 <= c < |requests| ==> Proper(requests[c])
    modifies m.Repr()
    ensures |results| <= |requests| && (|results| < |requests| ==> Rounded(requests[|results|]))
    ensures m.Valid() && |history| == |results| + 1 == |views|
    ensures history[0] == [] && views[0] == old(m.Views()) && views[|results|] == m.Views()
    ensures AllServed(m.bases, history, views, requests, results, |results|)
    ensures AllHave(m.bases, m.Views(), history[|results|]) && Different(history[|results|]) && Matches(held, history[|results|])
    ensures Accounted(m.bases, old(m.Views()), m.Views(), history[|results|])
  {
    hide Memory.Valid, Has, Step, Accounted, Memory.Full, Different, NoRoomIn, AllServed, InPlaceExactly;
    ghost var V0 := m.Views();
    results, held, history, views := [], [], [[]], [V0];
    NothingYet(m);
    NoneServed(m.bases, history, views, requests, results);
    for c := 0 to |requests|
      invariant m.Valid() && |results| == c && |history| == c + 1 == |views| && history[0] == [] && views[0] == V0 && views[c] == m.Views()
      invariant AllServed(m.bases, history, views, requests, results, c)
      invariant AllHave(m.bases, m.Views(), history[c]) && Different(history[c]) && Matches(held, history[c])
      invariant Accounted(m.bases, V0, m.Views(), history[c])
    {
      if Rounded(requests[c]) {
        return;
      }
      ghost var h, v, rs := history, views, results;
      var r, now, next := ServeOne(m, requests[c], held, history[c], V0);
      results, held, history, views := results + [r], now, history + [next], views + [m.Views()];
      if requests[c].Reallocate? && requests[c].size != 0 && r == 0 {
        FullThen(m, BlockBytes(requests[c].size));
      }
      ServedMore(m.bases, h, v, requests, rs, c, next, m.Views(), r);
    }
  }

  lemma NoneServed(bases: seq<nat>, history: seq<seq<Owned>>, views: seq<seq<View>>, requests: seq<Request>, results: seq<nat>)
    ensures AllServed(bases, history, views, requests, results, 0)
  {
  }

  lemma NothingYet(m: Memory)
    requires m.Valid()
    ensures Different([]) && Accounted(m.bases, m.Views(), m.Views(), [])
  {
    hide Arena.Valid;
  }
}
