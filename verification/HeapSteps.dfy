/** What the parts of each operation of kernel/memory.c write, and why the whole keeps the invariant. */
module HeapSteps {
  import opened HeapLayout
  import opened HeapInvariant
  import opened HeapOps

  function FreeCount(B: seq<Block>): nat {
    if B == [] then 0 else FreeCount(B[..|B| - 1]) + (if B[|B| - 1].used then 0 else 1)
  }

  lemma CountNext(B: seq<Block>, i: nat)
    requires i < |B|
    ensures FreeBytes(B[..i + 1]) == FreeBytes(B[..i]) + FreeOf(B[i])
    ensures FreeCount(B[..i + 1]) == FreeCount(B[..i]) + (if B[i].used then 0 else 1)
  {
    assert B[..i + 1] == B[..i] + [B[i]];
    FreeBytesConcat(B[..i], [B[i]]);
    FreeBytesFew([B[i]]);
    assert B[..i + 1][..i] == B[..i];
  }

  lemma HeaderTags(M: Mem, B: seq<Block>, F: seq<nat>, L: bool, total: nat, i: nat)
    requires Inv(M, B, F, L, total) && i < |B|
    ensures FIRST <= B[i].pos && 1 <= B[i].len && B[i].Past() <= total
    ensures if i + 1 < |B| then B[i].Past() == B[i + 1].pos < total else B[i].Past() == total
    ensures var w, f := M.head[B[i].pos - 1], M.foot[B[i].Past() - 1];
            && SizeOf(w) == 16 * B[i].len && IsUsed(w) == B[i].used && HasPrevFree(w) == FreeBefore(B, i)
            && HasIsLast(w) == (i + 1 == |B| && L) && f == (if B[i].used then CANARY else w)
            && (FreeBefore(B, i) ==> B[i].used)
  {
    HeaderOf(M, B, F, L, total, i);
    if i + 1 < |B| { Inside(B, total, i + 1); }
    TagFields(B[i].len, B[i].used, FreeBefore(B, i), i + 1 == |B| && L);
  }

  lemma ScalarFacts(M: Mem, B: seq<Block>, F: seq<nat>, L: bool, total: nat)
    requires Inv(M, B, F, L, total)
    ensures |B| > 0 && B[0].pos == FIRST < total && M.foot[0] == 4 * total - 1 && M.head[0] == FreeBytes(B)
  {
    Inside(B, total, 0);
  }

  lemma ListedHeader(M: Mem, B: seq<Block>, F: seq<nat>, L: bool, total: nat, k: nat)
    requires Inv(M, B, F, L, total) && k < |F|
    ensures FIRST <= F[k] < total && !IsUsed(M.head[F[k] - 1])
  {
    var i := ListedBlock(M, B, F, L, total, k);
    TagFields(B[i].len, false, false, i == |B| - 1 && L);
  }

  /** The list has as many nodes as there are free blocks. */
  lemma AllListed(M: Mem, B: seq<Block>, F: seq<nat>, L: bool, total: nat)
    requires Inv(M, B, F, L, total)
    ensures |F| == FreeCount(B)
  {
    FreePlaces(B, total);
    SetOfList(F);
    var places := set i {:trigger B[i]} | 0 <= i < |B| && !B[i].used :: B[i].pos;
    assert Elements(F) == places by {
      forall x | x in F ensures x in places { assert IsFreeAt(B, x); }
      forall x | x in places ensures x in F { assert IsFreeAt(B, x); }
    }
  }

  ghost function Elements(F: seq<nat>): set<nat> { set x | x in F }

  lemma {:induction false} SetOfList(F: seq<nat>)
    requires NoDuplicates(F)
    ensures |Elements(F)| == |F|
  {
    if F == [] {
      assert Elements(F) == {};
    } else {
      var G, y := F[..|F| - 1], F[|F| - 1];
      SetOfList(G);
      assert F == G + [y];
      assert Elements(F) == Elements(G) + {y} && y !in Elements(G);
    }
  }

  lemma {:induction false} PlacesCounted(B: seq<Block>, n: nat)
    requires n <= |B| && forall i, j :: 0 <= i < j < |B| ==> B[i].pos != B[j].pos
    ensures |set i {:trigger B[i]} | 0 <= i < n && !B[i].used :: B[i].pos| == FreeCount(B[..n])
  {
    var s := set i {:trigger B[i]} | 0 <= i < n && !B[i].used :: B[i].pos;
    if n == 0 {
      assert s == {};
    } else {
      PlacesCounted(B, n - 1);
      var t := set i {:trigger B[i]} | 0 <= i < n - 1 && !B[i].used :: B[i].pos;
      assert B[..n][..n - 1] == B[..n - 1];
      if B[n - 1].used { assert s == t; } else { assert s == t + {B[n - 1].pos} && B[n - 1].pos !in t; }
    }
  }

  lemma FreePlaces(B: seq<Block>, total: nat)
    requires Tiles(B, total)
    ensures |set i {:trigger B[i]} | 0 <= i < |B| && !B[i].used :: B[i].pos| == FreeCount(B)
  {
    forall i, j | 0 <= i < j < |B| ensures B[i].pos != B[j].pos { Order(B, total, i, j); Inside(B, total, i); }
    PlacesCounted(B, |B|);
    assert B[..|B|] == B;
  }

  ghost predicate CanGrow(B: seq<Block>, i: nat, r: nat)
    requires i < |B|
  {
    FreeBehind(B, i) && B[i].len + B[i + 1].len >= r
  }

  ghost function Reallocated(B: seq<Block>, i: nat, r: nat): seq<Block>
    requires i < |B|
  {
    if r < B[i].len then Shrunk(B, i, r)
    else if r > B[i].len && CanGrow(B, i, r) then Grown(B, i, r)
    else B
  }

  /** The free list after ar_realloc: what becomes free is listed last, and what it takes in is listed no more. */
  ghost function ListAfter(F: seq<nat>, B: seq<Block>, i: nat, r: nat): seq<nat>
    requires i < |B|
  {
    if r < B[i].len then Less(if FreeBehind(B, i) then Less(F, B[i].Past()) else F, B[i].pos + r) + [B[i].pos + r]
    else if r > B[i].len && CanGrow(B, i, r) then
      Less(F, B[i].Past()) + if r < B[i].len + B[i + 1].len then [B[i].pos + r] else []
    else F
  }

  /** Growing into all of the last free block loses ISLAST; nothing else does. */
  ghost predicate LastAfter(B: seq<Block>, i: nat, r: nat, L: bool)
    requires i < |B|
  {
    L && !(i + 2 == |B| && CanGrow(B, i, r) && r == B[i].len + B[i + 1].len)
  }

  lemma NothingMoved(M: Mem, B: seq<Block>, i: nat)
    ensures OthersKept(M, M, B, B, i, i + 1)
  {
  }

  lemma HeaderFacts(M: Mem, B: seq<Block>, F: seq<nat>, L: bool, total: nat, i: nat)
    requires Inv(M, B, F, L, total) && i < |B|
    ensures FIRST <= B[i].pos && 1 <= B[i].len && B[i].Past() <= total
    ensures SizeOf(M.head[B[i].pos - 1]) == 16 * B[i].len && (i + 1 < |B| ==> 1 <= B[i + 1].len)
    ensures B[i].used ==> IsUsed(M.head[B[i].Past() - 1]) == !FreeBehind(B, i)
  {
    HeaderOf(M, B, F, L, total, i);
    TagFields(B[i].len, B[i].used, FreeBefore(B, i), i + 1 == |B| && L);
    if i + 1 < |B| { TagFields(B[i + 1].len, B[i + 1].used, !B[i].used, i + 2 == |B| && L); }
  }

  lemma NextFacts(M: Mem, B: seq<Block>, F: seq<nat>, L: bool, total: nat, i: nat)
    requires Inv(M, B, F, L, total) && i < |B| && B[i].used && FreeBehind(B, i)
    ensures B[i].pos + B[i].len <= total && B[i + 1].pos == B[i].Past()
    ensures 1 <= B[i + 1].len && B[i + 1].Past() <= total && SizeOf(M.head[B[i].Past() - 1]) == 16 * B[i + 1].len
  {
    HeaderOf(M, B, F, L, total, i);
    TagFields(B[i + 1].len, false, false, i + 2 == |B| && L);
  }

  lemma GrowFacts(M: Mem, B: seq<Block>, F: seq<nat>, L: bool, total: nat, i: nat)
    requires Inv(M, B, F, L, total) && i + 1 < |B| && B[i].used && !B[i + 1].used
    ensures Listed(M.prev, M.next, F)
    ensures FIRST <= B[i].pos && 1 <= B[i].len && B[i + 1].pos == B[i].Past() && B[i + 1].Past() <= total
    ensures M.head[B[i].pos - 1] == Tag(B[i].len, true, FreeBefore(B, i), false)
    ensures M.head[B[i].Past() - 1] == Tag(B[i + 1].len, false, false, i + 2 == |B| && L)
  {
    HeaderOf(M, B, F, L, total, i);
  }

  /** Writes behind a used block, and links of listed blocks, leave its data alone. */
  lemma UsedKept(M0: Mem, M: Mem, B: seq<Block>, F: seq<nat>, L: bool, total: nat, i: nat, len: nat)
    requires Inv(M0, B, F, L, total) && i < |B| && B[i].used && Sized(M, total)
    requires NodesKept(M0.prev, M0.next, M.prev, M.next, F, B[i].Past(), B[i].pos + len)
    requires forall q {:trigger M.head[q]} :: B[i].pos <= q < B[i].Past() - 1 && q < total ==> M.head[q] == M0.head[q]
    requires forall q {:trigger M.foot[q]} :: B[i].pos <= q < B[i].Past() - 1 && q < total ==> M.foot[q] == M0.foot[q]
    ensures SameData(M0, M, B[i])
  {
    Inside(B, total, i);
    forall x: nat | x in F ensures x < B[i].pos || x >= B[i].Past() { FreeOutsideUsed(B, total, x, i); }
  }

  /** A free block among the replaced ones has no data to keep. */
  lemma NarrowOthers(M0: Mem, M: Mem, B: seq<Block>, R: seq<Block>, i: nat)
    requires i + 1 < |B| && !B[i + 1].used && OthersKept(M0, M, B, R, i, i + 2)
    ensures OthersKept(M0, M, B, R, i, i + 1)
  {
    forall j | 0 <= j < |B| && B[j].used && j != i ensures B[j] in R && SameData(M0, M, B[j]) {
      assert !(i <= j < i + 2);
      assert SameData(M0, M, B[j]);
    }
  }

  lemma GrowPartOk(M0: Mem, M: Mem, B: seq<Block>, F0: seq<nat>, F: seq<nat>, L: bool, total: nat, i: nat, k: nat, r: nat)
    requires Inv(M0, B, F0, L, total) && i + 1 < |B| && B[i].used && !B[i + 1].used && B[i + 1].pos == B[i].Past()
    requires k < |F0| && F0[k] == B[i + 1].pos && F == Without(F0, k) + [B[i].pos + r]
    requires var p, n, m := B[i].pos, B[i].len, B[i + 1].len;
             && 1 <= n < r < n + m && NodesKept(M0.prev, M0.next, M.prev, M.next, F0, p + n, p + n + m)
             && PartTaken(M0, M, F0, F, p, n + m, r, FreeBefore(B, i), i + 2 == |B| && L, 16 * (r - n))
    ensures Inv(M, Grown(B, i, r), F, L, total)
    ensures SameData(M0, M, B[i]) && OthersKept(M0, M, B, Grown(B, i, r), i, i + 1)
  {
    hide Inv, OthersKept, Replace, Carve;
    var n, m := B[i].len, B[i + 1].len;
    assert Grown(B, i, r) == Replace(B, i, i + 2, Carve(B[i].pos, n + m, r));
    TakePartOk(M0, M, B, F0, F, L, total, i, i + 2, k, n + m, r);
    NarrowOthers(M0, M, B, Grown(B, i, r), i);
    PartData(M0, M, F0, F, B[i].pos, n + m, r, FreeBefore(B, i), i + 2 == |B| && L, 16 * (r - n), n);
    UsedKept(M0, M, B, F0, L, total, i, n + m);
  }

  lemma PartData(M0: Mem, M: Mem, F0: seq<nat>, F: seq<nat>, p: nat, len: nat, r: nat, prevFree: bool, last: bool,
                 taken: int, n: nat)
    requires PartTaken(M0, M, F0, F, p, len, r, prevFree, last, taken) && n < r
    ensures forall q {:trigger M.head[q]} :: p <= q < p + n - 1 ==> M.head[q] == M0.head[q]
    ensures forall q {:trigger M.foot[q]} :: p <= q < p + n - 1 ==> M.foot[q] == M0.foot[q]
  {
  }

  ghost predicate WholeGrown(M0: Mem, M: Mem, B: seq<Block>, F0: seq<nat>, F: seq<nat>, i: nat)
    requires i + 1 < |B|
  {
    var p, n, m := B[i].pos, B[i].len, B[i + 1].len;
    && 1 <= n && 1 <= m && NodesKept(M0.prev, M0.next, M.prev, M.next, F0, p + n, p + n + m)
    && WholeTaken(M0, M, F0, F, p, n + m, FreeBefore(B, i), false, true, 16 * m - 8)
  }

  lemma GrowWholeOk(M0: Mem, M: Mem, B: seq<Block>, F0: seq<nat>, F: seq<nat>, L: bool, total: nat, i: nat, k: nat, len: nat)
    returns (R: seq<Block>, L2: bool)
    requires Inv(M0, B, F0, L, total) && i + 1 < |B| && B[i].used && !B[i + 1].used && B[i + 1].pos == B[i].Past()
    requires k < |F0| && F0[k] == B[i + 1].pos && F == Without(F0, k) && WholeGrown(M0, M, B, F0, F, i)
    requires len == B[i].len + B[i + 1].len
    ensures R == Grown(B, i, len) && L2 == (L && i + 2 < |B|) && Inv(M, R, F, L2, total)
    ensures SameData(M0, M, B[i]) && OthersKept(M0, M, B, R, i, i + 1)
  {
    R, L2 := Grown(B, i, len), L && i + 2 < |B|;
    GrowWholeInv(M0, M, B, F0, F, L, L2, total, i, k, len);
    NarrowOthers(M0, M, B, R, i);
    GrowWholeData(M0, M, B, F0, F, L, total, i);
  }

  lemma GrowWholeInv(M0: Mem, M: Mem, B: seq<Block>, F0: seq<nat>, F: seq<nat>, L: bool, L2: bool, total: nat, i: nat,
                     k: nat, len: nat)
    requires Inv(M0, B, F0, L, total) && i + 1 < |B| && B[i].used && !B[i + 1].used && B[i + 1].pos == B[i].Past()
    requires k < |F0| && F0[k] == B[i + 1].pos && F == Without(F0, k) && len == B[i].len + B[i + 1].len >= 1
    requires WholeTaken(M0, M, F0, F, B[i].pos, len, FreeBefore(B, i), false, true, 16 * B[i + 1].len - 8)
    requires L2 == (L && i + 2 < |B|)
    ensures Inv(M, Grown(B, i, len), F, L2, total) && OthersKept(M0, M, B, Grown(B, i, len), i, i + 2)
  {
    assert Grown(B, i, len) == Replace(B, i, i + 2, Carve(B[i].pos, len, len));
    TakeWholeOk(M0, M, B, F0, F, L, L2, total, i, i + 2, k, len, true);
  }

  lemma GrowWholeData(M0: Mem, M: Mem, B: seq<Block>, F0: seq<nat>, F: seq<nat>, L: bool, total: nat, i: nat)
    requires Inv(M0, B, F0, L, total) && i + 1 < |B| && B[i].used && WholeGrown(M0, M, B, F0, F, i)
    ensures SameData(M0, M, B[i])
  {
    var n, m := B[i].len, B[i + 1].len;
    WholeData(M0, M, F0, F, B[i].pos, n + m, FreeBefore(B, i), false, true, 16 * m - 8, n);
    UsedKept(M0, M, B, F0, L, total, i, n + m);
  }

  lemma WholeData(M0: Mem, M: Mem, F0: seq<nat>, F: seq<nat>, p: nat, len: nat, prevFree: bool, last: bool,
                  clear: bool, taken: int, n: nat)
    requires WholeTaken(M0, M, F0, F, p, len, prevFree, last, clear, taken) && n < len
    ensures forall q {:trigger M.head[q]} :: p <= q < p + n - 1 ==> M.head[q] == M0.head[q]
    ensures forall q {:trigger M.foot[q]} :: p <= q < p + n - 1 ==> M.foot[q] == M0.foot[q]
  {
  }

  lemma HalvedOk(M0: Mem, M: Mem, B: seq<Block>, F: seq<nat>, L: bool, total: nat, i: nat, r: nat)
    requires Inv(M0, B, F, L, total) && i < |B| && B[i].used && 1 <= r < B[i].len && FIRST <= B[i].pos && B[i].Past() <= total
    requires M.prev == M0.prev && M.next == M0.next
    requires var p, n := B[i].pos, B[i].len;
             && M.head == M0.head[p - 1 := Tag(r, true, FreeBefore(B, i), false)][p + r - 1 := Tag(n - r, true, false, i + 1 == |B| && L)]
             && M.foot == M0.foot[p + r - 1 := CANARY][p + n - 1 := CANARY]
    ensures Inv(M, Cut(B, i, r), F, L, total) && OthersKept(M0, M, B, Cut(B, i, r), i, i + 1)
    ensures SameData(M0, M, Block(B[i].pos, r, true))
  {
    CutWrites(M0, M, B[i], r, FreeBefore(B, i), i + 1 == |B| && L);
    CutOk(M0, M, B, F, L, total, i, r);
  }

  lemma CutNeighbours(B: seq<Block>, i: nat, r: nat)
    requires i < |B| && B[i].used && r <= B[i].len
    ensures |Cut(B, i, r)| == |B| + 1 && MergeFrom(Cut(B, i, r), i + 1) == i + 1 && (FreeBehind(Cut(B, i, r), i + 1) <==> FreeBehind(B, i))
    ensures Cut(B, i, r)[i + 1].Past() == B[i].Past()
  {
    CutIndex(B, i, r);
    var C := Cut(B, i, r);
    if i + 1 < |B| { assert C[i + 2] == B[i + 1]; }
  }

  lemma CutIndex(B: seq<Block>, i: nat, r: nat)
    requires i < |B| && r <= B[i].len
    ensures var C := Cut(B, i, r);
            && |C| == |B| + 1 && C[i] == Block(B[i].pos, r, true) && C[i + 1] == Block(B[i].pos + r, B[i].len - r, true)
            && forall j {:trigger B[j]} :: 0 <= j < |B| && j != i ==> C[if j < i then j else j + 1] == B[j]
  {
    ReplaceIndex(B, i, i + 1, Halves(B[i], r));
    var C := Cut(B, i, r);
    hide Cut;
    forall j {:trigger B[j]} | 0 <= j < |B| && j != i ensures C[if j < i then j else j + 1] == B[j] {
      var c := if j < i then j else j + 1;
      assert C[c] == B[j];
    }
  }

  lemma ShrunkKeeps(M0: Mem, M1: Mem, M: Mem, B0: seq<Block>, B: seq<Block>, F: seq<nat>, L: bool, total: nat, i: nat, r: nat)
    requires i < |B0| && 1 <= r < B0[i].len && Sized(M0, total) && Sized(M1, total) && Sized(M, total)
    requires OthersKept(M0, M1, B0, Cut(B0, i, r), i, i + 1) && SameData(M0, M1, Block(B0[i].pos, r, true))
    requires |Cut(B0, i, r)| > i + 1
    requires var C := Cut(B0, i, r); OthersKept(M1, M, C, B, MergeFrom(C, i + 1), MergeTo(C, i + 1))
    ensures SameData(M0, M, Block(B0[i].pos, r, true)) && OthersKept(M0, M, B0, B, i, i + 1)
  {
    var C := Cut(B0, i, r);
    CutIndex(B0, i, r);
    assert SameData(M1, M, C[i]);
    SameDataTrans(M0, M1, M, total, C[i]);
    forall j | 0 <= j < |B0| && B0[j].used && j != i ensures B0[j] in B && SameData(M0, M, B0[j]) {
      var c := if j < i then j else j + 1;
      assert C[c] == B0[j];
      assert SameData(M1, M, C[c]);
      assert SameData(M0, M1, B0[j]);
      SameDataTrans(M0, M1, M, total, B0[j]);
    }
  }

  lemma SameDataTrans(M0: Mem, M1: Mem, M: Mem, total: nat, b: Block)
    requires Sized(M0, total) && Sized(M1, total) && Sized(M, total) && SameData(M0, M1, b) && SameData(M1, M, b)
    ensures SameData(M0, M, b)
  {
    forall q {:trigger M.prev[q]} | b.pos <= q < b.Past() && q < total ensures M.prev[q] == M0.prev[q] { assert M1.prev[q] == M0.prev[q]; }
    forall q {:trigger M.next[q]} | b.pos <= q < b.Past() && q < total ensures M.next[q] == M0.next[q] { assert M1.next[q] == M0.next[q]; }
    forall q {:trigger M.foot[q]} | b.pos <= q < b.Past() - 1 && q < total ensures M.foot[q] == M0.foot[q] { assert M1.foot[q] == M0.foot[q]; }
    forall q {:trigger M.head[q]} | b.pos <= q < b.Past() - 1 && q < total ensures M.head[q] == M0.head[q] { assert M1.head[q] == M0.head[q]; }
  }

  lemma InitOk(M: Mem, F: seq<nat>, total: nat)
    requires total > FIRST && Sized(M, total) && M.foot[0] == 4 * total - 1 && Listed(M.prev, M.next, F) && F == [FIRST]
    requires M.head[1] == Tag(total - FIRST, false, false, true) == M.foot[total - 1] && M.head[0] == 16 * (total - FIRST) - 8
    requires M.head[total - 1] >= 0 && IsUsed(M.head[total - 1])
    ensures Inv(M, [Block(FIRST, total - FIRST, false)], F, true, total)
  {
    var B := [Block(FIRST, total - FIRST, false)];
    FreeBytesFew(B);
    assert TaggedAt(M.head, M.foot, B, true, 0);
    FreeAtOne(B);
  }

  /** The words that the first half of ar_free writes */
  ghost predicate NextMerged(M0: Mem, M: Mem, p: nat, n: nat, hi: nat, prevFree: bool, last: bool, last2: bool) {
    && 1 <= p && 1 <= n && p + n <= hi <= |M0.head| == |M0.foot|
    && (if hi == p + n then
          && M.head == M0.head[p - 1 := Tag(n, false, prevFree, last)][hi - 1 := SetPrevFree(M0.head[hi - 1])]
          && M.foot == M0.foot[hi - 1 := Tag(n, false, prevFree, last)] && last2 == last
        else
          && M.head == M0.head[p - 1 := Tag(hi - p, false, prevFree, last2)]
          && M.foot == M0.foot[p + n - 1 := Tag(n, false, prevFree, last)][hi - 1 := Tag(hi - p, false, prevFree, last2)])
  }

  /** The words that the second half of ar_free writes */
  ghost predicate PrevMerged(M0: Mem, M: Mem, p: nat, lo: nat, hi: nat, last: bool) {
    && 1 <= lo <= p < hi <= |M0.head| == |M0.foot|
    && (if lo < p then M.head == M0.head[lo - 1 := Tag(hi - lo, false, false, last)] && M.foot == M0.foot[hi - 1 := Tag(hi - lo, false, false, last)]
        else M.head == M0.head && M.foot == M0.foot)
  }

  lemma MergedTags(M0: Mem, M1: Mem, M2: Mem, M: Mem, p: nat, n: nat, lo: nat, hi: nat, last: bool, last2: bool, memsz: int)
    requires FIRST <= lo <= p && NextMerged(M0, M1, p, n, hi, lo < p, last, last2)
    requires PrevMerged(M1, M2, p, lo, hi, last2)
    requires M.head == M2.head[0 := M2.head[0] + memsz] && M.foot == M2.foot
    ensures TagsKept(M0.head, M0.foot, M.head, M.foot, lo, hi) && Written(M.head, M.foot, Block(lo, hi - lo, false), false, last2)
    ensures M.head[hi - 1] == (if hi == p + n then SetPrevFree(M0.head[hi - 1]) else M0.head[hi - 1])
    ensures M.head[0] == M0.head[0] + memsz && M.foot[0] == M0.foot[0]
  {
  }

  ghost function SizeAt(M: Mem, p: int): int { SizeOf(At(M.head, p - 1)) }

  /** `p` is the first block in the list that is large enough. */
  ghost predicate FirstFit(M: Mem, F: seq<nat>, p: nat, r: nat) {
    exists k {:trigger F[k]} :: 0 <= k < |F| && F[k] == p && SizeAt(M, p) >= 16 * r
                                && forall j {:trigger F[j]} :: 0 <= j < k ==> SizeAt(M, F[j]) < 16 * r
  }

  /** Of `len` lines at `p`, the first `r` become a used block and the others a listed free one. */
  ghost predicate PartTaken(M0: Mem, M: Mem, F0: seq<nat>, F: seq<nat>, p: nat, len: nat, r: nat, prevFree: bool,
                            last: bool, taken: int) {
    && FIRST <= p && 1 <= r < len && p + len <= |M0.head| == |M0.foot|
    && Listed(M.prev, M.next, F) && NodesKept(M0.prev, M0.next, M.prev, M.next, F0, p, p + len)
    && M.head == M0.head[p - 1 := Tag(r, true, prevFree, false)][p + r - 1 := Tag(len - r, false, false, last)][0 := M0.head[0] - taken]
    && M.foot == M0.foot[p + r - 1 := CANARY][p + len - 1 := Tag(len - r, false, false, last)]
  }

  lemma TakePartOk(M0: Mem, M: Mem, B: seq<Block>, F0: seq<nat>, F: seq<nat>, L: bool, total: nat,
                   a: nat, c: nat, k: nat, len: nat, r: nat)
    requires Inv(M0, B, F0, L, total) && Carvable(B, a, c) && k < |F0| && F0[k] == B[c - 1].pos
    requires B[a].pos + len == B[c - 1].Past() && 1 <= r < len && F == Without(F0, k) + [B[a].pos + r]
    requires PartTaken(M0, M, F0, F, B[a].pos, len, r, FreeBefore(B, a), c == |B| && L, 16 * (B[c - 1].len - len + r))
    ensures var R := Replace(B, a, c, Carve(B[a].pos, len, r));
            Inv(M, R, F, L, total) && OthersKept(M0, M, B, R, a, c)
  {
    TakePartTags(M0, M, B, F0, F, L, total, a, c, len, r);
    TakenOut(M0, B, F0, L, total, a, c, k, [B[a].pos + r]);
    FreeBytesFew(B[a..c]);
    CarvedOk(M0, M, B, F0, F, L, L, total, a, c, len, r);
  }

  lemma TakePartTags(M0: Mem, M: Mem, B: seq<Block>, F0: seq<nat>, F: seq<nat>, L: bool, total: nat, a: nat, c: nat,
                     len: nat, r: nat)
    requires Inv(M0, B, F0, L, total) && Carvable(B, a, c) && B[a].pos + len == B[c - 1].Past() && 1 <= r < len
    requires PartTaken(M0, M, F0, F, B[a].pos, len, r, FreeBefore(B, a), c == |B| && L, 16 * (B[c - 1].len - len + r))
    ensures CarvedTags(M0, M, B, L, L, a, c, B[a].pos, len, r) && Sized(M, total)
    ensures M.head[0] == M0.head[0] - 16 * (B[c - 1].len - len + r) && M.foot[0] == M0.foot[0] && M.head[total - 1] == M0.head[total - 1]
  {
    var p := B[a].pos;
    TwoTags(M0, M, [Block(p, r, true), Block(p + r, len - r, false)], FreeBefore(B, a), c == |B| && L,
            M0.head[0] - 16 * (B[c - 1].len - len + r));
    CarvedSplit(M0, M, B, F0, L, total, a, c, len, r);
  }

  /** `len` lines at `p` become a used block; `clear` says whether PREVFREE of the next header is cleared. */
  ghost predicate WholeTaken(M0: Mem, M: Mem, F0: seq<nat>, F: seq<nat>, p: nat, len: nat, prevFree: bool, last: bool,
                             clear: bool, taken: int) {
    && FIRST <= p && 1 <= len && p + len <= |M0.head| == |M0.foot|
    && Listed(M.prev, M.next, F) && NodesKept(M0.prev, M0.next, M.prev, M.next, F0, p, p + len)
    && M.head == M0.head[p - 1 := Tag(len, true, prevFree, last)]
                        [p + len - 1 := if clear then ClearPrevFree(M0.head[p + len - 1]) else M0.head[p + len - 1]]
                        [0 := M0.head[0] - taken]
    && M.foot == M0.foot[p + len - 1 := CANARY]
  }

  lemma TakeWholeOk(M0: Mem, M: Mem, B: seq<Block>, F0: seq<nat>, F: seq<nat>, L: bool, L2: bool, total: nat,
                    a: nat, c: nat, k: nat, len: nat, clear: bool)
    requires Inv(M0, B, F0, L, total) && Carvable(B, a, c) && k < |F0| && F0[k] == B[c - 1].pos
    requires B[a].pos + len == B[c - 1].Past() && 1 <= len && F == Without(F0, k) && (c < |B| ==> clear && L2 == L)
    requires WholeTaken(M0, M, F0, F, B[a].pos, len, FreeBefore(B, a), c == |B| && L2, clear, 16 * B[c - 1].len - 8)
    ensures var R := Replace(B, a, c, Carve(B[a].pos, len, len));
            Inv(M, R, F, L2, total) && OthersKept(M0, M, B, R, a, c)
  {
    TakeWholeTags(M0, M, B, F0, F, L, L2, total, a, c, len, clear);
    assert F == Without(F0, k) + [];
    TakenOut(M0, B, F0, L, total, a, c, k, []);
    FreeBytesFew(B[a..c]);
    CarvedOk(M0, M, B, F0, F, L, L2, total, a, c, len, len);
  }

  lemma TakeWholeTags(M0: Mem, M: Mem, B: seq<Block>, F0: seq<nat>, F: seq<nat>, L: bool, L2: bool, total: nat,
                      a: nat, c: nat, len: nat, clear: bool)
    requires Inv(M0, B, F0, L, total) && Carvable(B, a, c) && B[a].pos + len == B[c - 1].Past() && 1 <= len
    requires c < |B| ==> clear && L2 == L
    requires WholeTaken(M0, M, F0, F, B[a].pos, len, FreeBefore(B, a), c == |B| && L2, clear, 16 * B[c - 1].len - 8)
    ensures CarvedTags(M0, M, B, L, L2, a, c, B[a].pos, len, len) && Sized(M, total)
    ensures M.head[0] == M0.head[0] - (16 * B[c - 1].len - 8) && M.foot[0] == M0.foot[0]
    ensures M.head[total - 1] >= 0 && IsUsed(M.head[total - 1])
  {
    var h := B[a].pos + len - 1;
    OneTag(M0, M, Block(B[a].pos, len, true), FreeBefore(B, a), c == |B| && L2,
           if clear then ClearPrevFree(M0.head[h]) else M0.head[h], M0.head[0] - (16 * B[c - 1].len - 8));
    CarvedWhole(M0, M, B, F0, L, L2, total, a, c, len, clear);
  }

  lemma NodesWider(M0: Mem, M: Mem, F: seq<nat>, lo: nat, hi: nat, lower: nat)
    requires NodesKept(M0.prev, M0.next, M.prev, M.next, F, lo, hi) && lower <= lo
    ensures NodesKept(M0.prev, M0.next, M.prev, M.next, F, lower, hi)
  {
  }

  /** A node left the list, and perhaps another one in the same lines came to the end. */
  lemma NodesMoved(M0: Mem, M1: Mem, M2: Mem, M: Mem, F: seq<nat>, k: nat, put: seq<nat>, lo: nat, hi: nat)
    requires NoDuplicates(F) && k < |F| && |put| <= 1 && forall x: nat :: x in put ==> lo <= x < hi
    requires NodesKept(M0.prev, M0.next, M1.prev, M1.next, F, 0, 0)
    requires if put == [] then M2.prev == M1.prev && M2.next == M1.next
             else NodesKept(M1.prev, M1.next, M2.prev, M2.next, Without(F, k), put[0], put[0] + 1)
    requires NodesKept(M2.prev, M2.next, M.prev, M.next, Without(F, k) + put, 0, 0)
    ensures NodesKept(M0.prev, M0.next, M.prev, M.next, F, lo, hi)
  {
    WithoutMembers(F, k);
    if put != [] {
      assert put[0] in put;
      NodesCompose(M0.prev, M0.next, M1.prev, M1.next, M2.prev, M2.next, F, Without(F, k), lo, hi, 0, 0, put[0], put[0] + 1);
    } else {
      NodesCompose(M0.prev, M0.next, M1.prev, M1.next, M2.prev, M2.next, F, Without(F, k), lo, hi, 0, 0, 0, 0);
    }
    NodesCompose(M0.prev, M0.next, M2.prev, M2.next, M.prev, M.next, F, Without(F, k) + put, lo, hi, lo, hi, 0, 0);
  }

  lemma TakenOut(M: Mem, B: seq<Block>, F: seq<nat>, L: bool, total: nat, a: nat, c: nat, k: nat, put: seq<nat>)
    requires Inv(M, B, F, L, total) && Carvable(B, a, c) && k < |F| && F[k] == B[c - 1].pos
    ensures Relisted(F, Without(F, k) + put, B[a].pos, B[c - 1].Past(), put)
  {
    WithoutMembers(F, k);
    RangeOrder(M, B, F, L, total, a, c);
    RelistedFrom(M, B, F, L, total, a, c, Without(F, k), put);
  }

  lemma AllocatedPartOk(M0: Mem, M: Mem, B: seq<Block>, F0: seq<nat>, F: seq<nat>, L: bool, total: nat, i: nat, k: nat, r: nat)
    requires Inv(M0, B, F0, L, total) && i < |B| && !B[i].used && k < |F0| && F0[k] == B[i].pos
    requires 1 <= r < B[i].len && F == Without(F0, k) + [B[i].pos + r]
    requires PartTaken(M0, M, F0, F, B[i].pos, B[i].len, r, false, i + 1 == |B| && L, 16 * r)
    ensures Inv(M, Allocated(B, i, r), F, L, total) && OthersKept(M0, M, B, Allocated(B, i, r), i, i + 1)
  {
    assert !FreeBefore(B, i) by { HeaderOf(M0, B, F0, L, total, i); }
    TakePartOk(M0, M, B, F0, F, L, total, i, i + 1, k, B[i].len, r);
  }

  lemma AllocatedWholeOk(M0: Mem, M: Mem, B: seq<Block>, F0: seq<nat>, F: seq<nat>, L: bool, total: nat, i: nat, k: nat)
    requires Inv(M0, B, F0, L, total) && i < |B| && !B[i].used && k < |F0| && F0[k] == B[i].pos
    requires 1 <= B[i].len && F == Without(F0, k)
    requires var last := i + 1 == |B| && L; WholeTaken(M0, M, F0, F, B[i].pos, B[i].len, false, last, !last, 16 * B[i].len - 8)
    ensures Inv(M, Allocated(B, i, B[i].len), F, L, total) && OthersKept(M0, M, B, Allocated(B, i, B[i].len), i, i + 1)
  {
    assert !FreeBefore(B, i) by { HeaderOf(M0, B, F0, L, total, i); }
    TakeWholeOk(M0, M, B, F0, F, L, L, total, i, i + 1, k, B[i].len, !(i + 1 == |B| && L));
  }

  lemma RangeOrder(M: Mem, B: seq<Block>, F: seq<nat>, L: bool, total: nat, a: nat, c: nat)
    requires Inv(M, B, F, L, total) && Carvable(B, a, c)
    ensures B[a].pos <= B[c - 1].pos < B[c - 1].Past()
  {
    HeaderOf(M, B, F, L, total, c - 1);
  }

  /** The used block of `n` lines at `p` has a free block from `lo` before it, or `lo == p`, and one up
      to `hi` behind it, or `hi == p + n`; `before` and `behind` are their places in the list. */
  ghost predicate Mergeable(M: Mem, F: seq<nat>, p: nat, n: nat, last: bool, last2: bool, lo: nat, hi: nat,
                            behind: nat, before: nat) {
    && FIRST <= lo <= p && 1 <= n && p + n <= hi <= |M.head| == |M.foot| && p !in F
    && M.head[p - 1] == Tag(n, true, lo < p, last) && M.foot[p + n - 1] == CANARY
    && (if hi == p + n then IsUsed(M.head[hi - 1]) && last2 == last
        else behind < |F| && F[behind] == p + n && M.head[p + n - 1] == Tag(hi - p - n, false, false, last2))
    && (lo < p ==> before < |F| && F[before] == lo && M.foot[p - 1] == Tag(p - lo, false, false, false))
  }

  /** Where the blocks to be merged with the i-th one are, in memory and in the list. */
  lemma FreeingFacts(M: Mem, B: seq<Block>, F: seq<nat>, L: bool, total: nat, i: nat)
    returns (lo: nat, hi: nat, behind: nat, before: nat)
    requires Inv(M, B, F, L, total) && i < |B| && B[i].used
    ensures lo == B[MergeFrom(B, i)].pos && hi == B[MergeTo(B, i) - 1].Past() && Listed(M.prev, M.next, F)
    ensures hi == B[i].Past() <==> !FreeBehind(B, i)
    ensures Mergeable(M, F, B[i].pos, B[i].len, i + 1 == |B| && L, MergeTo(B, i) == |B| && L, lo, hi, behind, before)
  {
    lo, hi := B[MergeFrom(B, i)].pos, B[MergeTo(B, i) - 1].Past();
    MergePlaces(M, B, F, L, total, i);
    UsedNotListed(M, B, F, L, total, i);
    behind := BehindFacts(M, B, F, L, total, i);
    before := BeforeFacts(M, B, F, L, total, i);
    OwnTags(M, B, F, L, total, i);
  }

  lemma BeforeFacts(M: Mem, B: seq<Block>, F: seq<nat>, L: bool, total: nat, i: nat) returns (before: nat)
    requires Inv(M, B, F, L, total) && i < |B| && B[i].used && 1 <= B[i].pos <= total
    ensures FreeBefore(B, i) ==> before < |F| && F[before] == B[i - 1].pos && M.foot[B[i].pos - 1] == Tag(B[i - 1].len, false, false, false)
  {
    before := 0;
    if FreeBefore(B, i) {
      HeaderOf(M, B, F, L, total, i - 1);
      before := PlaceInList(M, B, F, L, total, i - 1);
    }
  }

  lemma OwnTags(M: Mem, B: seq<Block>, F: seq<nat>, L: bool, total: nat, i: nat)
    requires Inv(M, B, F, L, total) && i < |B| && B[i].used && 1 <= B[i].pos <= B[i].Past() <= total
    ensures M.head[B[i].pos - 1] == Tag(B[i].len, true, FreeBefore(B, i), i + 1 == |B| && L)
    ensures M.foot[B[i].Past() - 1] == CANARY && B[i].len >= 1
  {
    HeaderOf(M, B, F, L, total, i);
  }

  lemma BehindFacts(M: Mem, B: seq<Block>, F: seq<nat>, L: bool, total: nat, i: nat) returns (behind: nat)
    requires Inv(M, B, F, L, total) && i < |B| && B[i].used && 1 <= B[i].Past() <= total
    ensures var hi, last := B[MergeTo(B, i) - 1].Past(), MergeTo(B, i) == |B| && L;
            if hi == B[i].Past() then !FreeBehind(B, i) && IsUsed(M.head[hi - 1])
            else FreeBehind(B, i) && behind < |F| && F[behind] == B[i].Past()
                 && M.head[B[i].Past() - 1] == Tag(hi - B[i].Past(), false, false, last)
  {
    HeaderOf(M, B, F, L, total, i);
    behind := 0;
    if FreeBehind(B, i) {
      behind := PlaceInList(M, B, F, L, total, i + 1);
    } else if i + 1 < |B| {
      TagFields(B[i + 1].len, true, false, i + 2 == |B| && L);
    }
  }

  lemma PlaceInList(M: Mem, B: seq<Block>, F: seq<nat>, L: bool, total: nat, i: nat) returns (k: nat)
    requires Inv(M, B, F, L, total) && i < |B| && !B[i].used
    ensures k < |F| && F[k] == B[i].pos
  {
    assert IsFreeAt(B, B[i].pos);
    assert B[i].pos in F;
    k :| k < |F| && F[k] == B[i].pos;
  }

  lemma IndexAfter(F: seq<nat>, F1: seq<nat>, same: bool, k: nat, x: nat, j: nat, listed: bool) returns (j1: nat)
    requires listed ==> j < |F| && F[j] == x
    requires if same then F1 == F else k < |F| && F1 == Without(F, k) && NoDuplicates(F) && (listed ==> F[k] != x)
    ensures listed ==> j1 < |F1| && F1[j1] == x
  {
    j1 := j;
    if !same && listed {
      WithoutMembers(F, k);
      assert x in F;
      j1 :| j1 < |F1| && F1[j1] == x;
    }
  }

  lemma UsedNotListed(M: Mem, B: seq<Block>, F: seq<nat>, L: bool, total: nat, i: nat)
    requires Inv(M, B, F, L, total) && i < |B| && B[i].used
    ensures B[i].pos !in F
  {
    if B[i].pos in F {
      assert IsFreeAt(B, B[i].pos);
      FreeOutsideUsed(B, total, B[i].pos, i);
      Inside(B, total, i);
    }
  }

  /** The list after ar_free: without the merged neighbours, and with the merged block at its end */
  ghost predicate MergedList(F: seq<nat>, F2: seq<nat>, p: nat, n: nat, lo: nat, hi: nat) {
    forall x: nat {:trigger x in F2} :: x in F2 <==> (x in F && !(hi != p + n && x == p + n) && !(lo < p && x == lo)) || x == lo
  }

  lemma LeftList(F: seq<nat>, F1: seq<nat>, F2: seq<nat>, p: nat, n: nat, lo: nat, hi: nat, k: nat, k1: nat)
    requires NoDuplicates(F) && lo <= p < p + n && p !in F
    requires if hi == p + n then F1 == F else k < |F| && F[k] == p + n && F1 == Without(F, k)
    requires if lo == p then F2 == F1 else k1 < |F1| && F1[k1] == lo && F2 == Without(F1, k1)
    ensures lo !in F2 && MergedList(F, F2 + [lo], p, n, lo, hi)
    ensures forall x :: x in F1 ==> x in F
    ensures forall x :: x in F2 ==> x in F
  {
    if hi != p + n { WithoutMembers(F, k); }
    if lo != p { WithoutMembers(F1, k1); }
  }

  lemma LeftOrder(F: seq<nat>, F1: seq<nat>, F2: seq<nat>, p: nat, n: nat, lo: nat, hi: nat, k: nat, k1: nat)
    requires NoDuplicates(F) && lo <= p < p + n && p !in F
    requires if hi == p + n then F1 == F else k < |F| && F[k] == p + n && F1 == Without(F, k)
    requires if lo == p then F2 == F1 else k1 < |F1| && F1[k1] == lo && F2 == Without(F1, k1)
    ensures F2 == Less(if hi == p + n then F else Less(F, p + n), lo)
  {
    hide Less, Without, NoDuplicates;
    if hi != p + n {
      WithoutMembers(F, k);
      LessOne(F, k);
    }
    if lo != p {
      LessOne(F1, k1);
    } else {
      assert p !in F1;
      LessNone(F1, lo);
    }
  }

  lemma FreeNodes(M0: Mem, M1: Mem, M2: Mem, M: Mem, F0: seq<nat>, F1: seq<nat>, F2: seq<nat>, lo: nat, hi: nat)
    requires NodesKept(M0.prev, M0.next, M1.prev, M1.next, F0, 0, 0)
    requires NodesKept(M1.prev, M1.next, M2.prev, M2.next, F1, 0, 0)
    requires NodesKept(M2.prev, M2.next, M.prev, M.next, F2, lo, lo + 1)
    requires lo < hi && (forall x :: x in F1 ==> x in F0) && (forall x :: x in F2 ==> x in F0)
    ensures NodesKept(M0.prev, M0.next, M.prev, M.next, F0, lo, hi)
  {
    NodesCompose(M0.prev, M0.next, M1.prev, M1.next, M2.prev, M2.next, F0, F1, lo, hi, 0, 0, 0, 0);
    NodesCompose(M0.prev, M0.next, M2.prev, M2.next, M.prev, M.next, F0, F2, lo, hi, lo, hi, lo, lo + 1);
  }

  /** The lines of the blocks from lo to hi are one free block, which is at the end of the list. */
  ghost predicate Merged(M0: Mem, M: Mem, F0: seq<nat>, F: seq<nat>, p: nat, n: nat, last: bool, lo: nat, hi: nat) {
    && FIRST <= lo < hi <= |M0.head| == |M0.foot| && |M.head| == |M.foot| == |M0.head|
    && Listed(M.prev, M.next, F) && NodesKept(M0.prev, M0.next, M.prev, M.next, F0, lo, hi)
    && TagsKept(M0.head, M0.foot, M.head, M.foot, lo, hi)
    && Written(M.head, M.foot, Block(lo, hi - lo, false), false, last)
    && M.head[hi - 1] == (if hi == p + n then SetPrevFree(M0.head[hi - 1]) else M0.head[hi - 1])
    && M.head[0] == M0.head[0] + 16 * n - 8 + (if hi == p + n then 0 else 8) + (if lo == p then 0 else 8)
    && M.foot[0] == M0.foot[0]
    && MergedList(F0, F, p, n, lo, hi)
  }

  lemma FreeOk(M0: Mem, M: Mem, B: seq<Block>, F0: seq<nat>, F: seq<nat>, L: bool, total: nat, i: nat, lo: nat, hi: nat)
    requires Inv(M0, B, F0, L, total) && i < |B| && B[i].used
    requires lo == B[MergeFrom(B, i)].pos && hi == B[MergeTo(B, i) - 1].Past()
    requires Merged(M0, M, F0, F, B[i].pos, B[i].len, MergeTo(B, i) == |B| && L, lo, hi)
    ensures Inv(M, Freed(B, i), F, L, total) && OthersKept(M0, M, B, Freed(B, i), MergeFrom(B, i), MergeTo(B, i))
  {
    FreeHeader(M0, M, B, F0, L, total, i, lo, hi);
    FreeEndWord(M0, M, B, F0, L, total, i, lo, hi);
    FreeTotal(M0, B, F0, L, total, i, lo, hi);
    FreeList(M0, B, F0, F, L, total, i, lo, hi);
    FreedOk(M0, M, B, F0, F, L, total, i);
  }

  lemma FreeHeader(M0: Mem, M: Mem, B: seq<Block>, F0: seq<nat>, L: bool, total: nat, i: nat, lo: nat, hi: nat)
    requires Inv(M0, B, F0, L, total) && i < |B| && B[i].used && |M.head| == |M0.head|
    requires hi == B[MergeTo(B, i) - 1].Past() && 0 < hi <= total
    requires M.head[hi - 1] == if hi == B[i].Past() then SetPrevFree(M0.head[hi - 1]) else M0.head[hi - 1]
    ensures var c := MergeTo(B, i); c < |B| ==> NextHeader(M0.head, M.head, B, c, false, L)
  {
    var c := MergeTo(B, i);
    HeaderOf(M0, B, F0, L, total, c - 1);
    if c < |B| { TagFields(B[c].len, true, false, c == |B| - 1 && L); }
  }

  lemma StillUsed(x: int)
    requires x >= 0 && IsUsed(x)
    ensures SetPrevFree(x) >= 0 && IsUsed(SetPrevFree(x))
  {
    assert x + PREVFREE == 2 * (x / 2 + 1) + 1;
  }

  lemma FreeEndWord(M0: Mem, M: Mem, B: seq<Block>, F0: seq<nat>, L: bool, total: nat, i: nat, lo: nat, hi: nat)
    requires Inv(M0, B, F0, L, total) && i < |B| && B[i].used && |M.head| == |M0.head|
    requires hi == B[MergeTo(B, i) - 1].Past() && 0 < lo < hi <= total
    requires M.head[hi - 1] == if hi == B[i].Past() then SetPrevFree(M0.head[hi - 1]) else M0.head[hi - 1]
    requires TagsKept(M0.head, M0.foot, M.head, M.foot, lo, hi)
    ensures M.head[total - 1] >= 0 && IsUsed(M.head[total - 1])
  {
    hide Tiles, Tagged, Listed, Coalesced, SetPrevFree, IsUsed;
    assert M0.head[total - 1] >= 0 && IsUsed(M0.head[total - 1]);
    if hi < total {
      assert M.head[total - 1] == M0.head[total - 1];
    } else {
      StillUsed(M0.head[total - 1]);
    }
  }

  lemma FreeTotal(M0: Mem, B: seq<Block>, F0: seq<nat>, L: bool, total: nat, i: nat, lo: nat, hi: nat)
    requires Inv(M0, B, F0, L, total) && i < |B| && B[i].used
    requires lo == B[MergeFrom(B, i)].pos && hi == B[MergeTo(B, i) - 1].Past()
    ensures 16 * (hi - lo) - 8 - FreeBytes(B[MergeFrom(B, i)..MergeTo(B, i)])
            == 16 * B[i].len - 8 + (if hi == B[i].Past() then 0 else 8) + (if lo == B[i].pos then 0 else 8)
  {
    HeaderOf(M0, B, F0, L, total, i);
    FreeBytesFew(B[MergeFrom(B, i)..MergeTo(B, i)]);
  }

  lemma FreeList(M0: Mem, B: seq<Block>, F0: seq<nat>, F: seq<nat>, L: bool, total: nat, i: nat, lo: nat, hi: nat)
    requires Inv(M0, B, F0, L, total) && i < |B| && B[i].used && MergedList(F0, F, B[i].pos, B[i].len, lo, hi)
    requires lo == B[MergeFrom(B, i)].pos && hi == B[MergeTo(B, i) - 1].Past()
    ensures Relisted(F0, F, lo, hi, [lo])
  {
    hide Inv, MergedList, Relisted;
    MergePlaces(M0, B, F0, L, total, i);
    forall x: nat {:trigger x in F0} | x in F0 && lo <= x < hi
      ensures (hi != B[i].Past() && x == B[i].Past()) || (lo < B[i].pos && x == lo)
    {
      ListedInRange(M0, B, F0, L, total, MergeFrom(B, i), MergeTo(B, i), x);
    }
    RelistMerged(F0, F, B[i].pos, B[i].len, lo, hi);
  }

  lemma RelistMerged(F0: seq<nat>, F: seq<nat>, p: nat, n: nat, lo: nat, hi: nat)
    requires MergedList(F0, F, p, n, lo, hi) && lo <= p < p + n <= hi
    requires forall x: nat {:trigger x in F0} :: x in F0 && lo <= x < hi ==> (hi != p + n && x == p + n) || (lo < p && x == lo)
    ensures Relisted(F0, F, lo, hi, [lo])
  {
  }

  lemma MergePlaces(M0: Mem, B: seq<Block>, F0: seq<nat>, L: bool, total: nat, i: nat)
    requires Inv(M0, B, F0, L, total) && i < |B| && B[i].used
    ensures var lo, hi := B[MergeFrom(B, i)].pos, B[MergeTo(B, i) - 1].Past();
            && FIRST <= lo <= B[i].pos < B[i].Past() <= hi <= total
            && FreeBehind(B, i) == (hi != B[i].Past()) && (FreeBehind(B, i) ==> B[i + 1].pos == B[i].Past())
            && FreeBefore(B, i) == (lo < B[i].pos) && (FreeBefore(B, i) ==> B[i - 1].pos == lo && B[i].pos == B[i - 1].Past())
  {
    HeaderOf(M0, B, F0, L, total, i);
  }

  lemma NoneFits(M: Mem, B: seq<Block>, F: seq<nat>, L: bool, total: nat, r: nat)
    requires Inv(M, B, F, L, total)
    requires forall j {:trigger F[j]} :: 0 <= j < |F| ==> SizeAt(M, F[j]) < 16 * r
    ensures forall b {:trigger b in B} :: b in B && !b.used ==> b.len < r
  {
    forall b {:trigger b in B} | b in B && !b.used ensures b.len < r {
      var i :| 0 <= i < |B| && B[i] == b;
      assert IsFreeAt(B, b.pos);
      assert b.pos in F;
      HeaderOf(M, B, F, L, total, i);
      TagFields(b.len, false, i > 0 && !B[i - 1].used, i == |B| - 1 && L);
    }
  }

  /** Header and footer of a free block differ, which is what the first assertion of ar_check is about. */
  ghost predicate Mismatch(M: Mem, b: Block) {
    && 1 <= b.pos <= |M.head| && 1 <= b.Past() <= |M.foot| && !IsUsed(M.head[b.pos - 1]) && M.head[b.pos - 1] != M.foot[b.Past() - 1]
  }

  /** The word in front of the first block belongs to nobody. */
  lemma PadChanged(M0: Mem, M: Mem, B: seq<Block>, F: seq<nat>, L: bool, total: nat, w: int)
    requires Inv(M0, B, F, L, total) && total > 1 && M == M0.(foot := M0.foot[1 := w])
    ensures Inv(M, B, F, L, total)
  {
    hide Listed, Coalesced;
    forall j {:trigger TaggedAt(M.head, M.foot, B, L, j)} | 0 <= j < |B| ensures TaggedAt(M.head, M.foot, B, L, j) {
      HeaderOf(M0, B, F, L, total, j);
      assert TaggedAt(M0.head, M0.foot, B, L, j);
    }
  }

  lemma NotCanary(B: seq<Block>, i: nat, L: bool)
    requires i + 1 < |B| && B[i].len >= 0
    ensures TagAt(B, i, L) != CANARY
  {
  }

  /** bt_make of a used block with size 0 writes the canary in front of it: the arena stays as it is, except
      exactly if there is a free block in front. */
  lemma NoneHalvedOk(M0: Mem, M: Mem, B: seq<Block>, F: seq<nat>, L: bool, total: nat, i: nat)
    requires Inv(M0, B, F, L, total) && i < |B| && B[i].used && FIRST <= B[i].pos && 1 <= B[i].len && B[i].Past() <= total
    requires M.prev == M0.prev && M.next == M0.next && Sized(M0, total)
    requires M.head == M0.head[B[i].pos - 1 := Tag(B[i].len, true, false, i + 1 == |B| && L)]
    requires M.foot == M0.foot[B[i].pos - 1 := CANARY][B[i].Past() - 1 := CANARY]
    ensures Inv(M, B, F, L, total) <==> !FreeBefore(B, i)
    ensures FreeBefore(B, i) ==> Mismatch(M, B[i - 1])
    ensures !FreeBefore(B, i) ==> OthersKept(M0, M, B, B, i, i + 1)
  {
    hide Tag, Listed, Coalesced, Tiles;
    HeaderOf(M0, B, F, L, total, i);
    if FreeBefore(B, i) {
      HeaderOf(M0, B, F, L, total, i - 1);
      NotCanary(B, i - 1, L);
      TagFields(B[i - 1].len, false, FreeBefore(B, i - 1), false);
      assert !TaggedAt(M.head, M.foot, B, L, i - 1);
    } else {
      assert M.head == M0.head;
      if i > 0 {
        assert M.foot == M0.foot;
        assert M == M0;
      } else {
        FirstIsFirst(M0, B, F, L, total);
        assert M == M0.(foot := M0.foot[1 := CANARY]);
        PadChanged(M0, M, B, F, L, total, CANARY);
      }
      forall k {:trigger SameData(M0, M, B[k])} | 0 <= k < |B| && B[k].used && k != i ensures SameData(M0, M, B[k]) {
        HeaderOf(M0, B, F, L, total, k);
      }
    }
  }

  lemma FirstIsFirst(M: Mem, B: seq<Block>, F: seq<nat>, L: bool, total: nat)
    requires Inv(M, B, F, L, total) && B != []
    ensures B[0].pos == FIRST
  {
  }

  lemma NoneKept(M0: Mem, M1: Mem, M: Mem, B: seq<Block>, R: seq<Block>, total: nat, i: nat)
    requires i < |B| && Sized(M0, total) && Sized(M1, total) && Sized(M, total)
    requires OthersKept(M0, M1, B, B, i, i + 1) && OthersKept(M1, M, B, R, MergeFrom(B, i), MergeTo(B, i))
    ensures OthersKept(M0, M, B, R, MergeFrom(B, i), MergeTo(B, i))
  {
    hide SameData;
    forall j {:trigger B[j]} | 0 <= j < |B| && B[j].used && !(MergeFrom(B, i) <= j < MergeTo(B, i))
      ensures B[j] in R && SameData(M0, M, B[j])
    {
      assert SameData(M1, M, B[j]);
      assert SameData(M0, M1, B[j]);
      SameDataTrans(M0, M1, M, total, B[j]);
    }
  }

  lemma NoneTagged(M0: Mem, M: Mem, B: seq<Block>, F0: seq<nat>, L: bool, total: nat, i: nat, j: nat)
    requires Inv(M0, B, F0, L, total) && i < |B| && !B[i].used
    requires var b := B[i];
             && FIRST <= b.pos && 1 <= b.len && b.Past() <= total && Sized(M, total)
             && M.head == M0.head[b.pos - 1 := Tag(b.len, false, false, false)][0 := At(M0.head, 0)]
             && M.foot == M0.foot[b.pos - 1 := CANARY][b.Past() - 1 := Tag(b.len, false, false, i + 1 == |B| && L)]
    requires j < |B| && !(i + 1 == |B| && L)
    ensures TaggedAt(M.head, M.foot, B, L, j)
  {
    HeaderOf(M0, B, F0, L, total, i);
    HeaderOf(M0, B, F0, L, total, j);
    if j < i { Order(B, total, j, i); } else if i < j { Order(B, total, i, j); }
  }

  /** A request for nothing leaves all blocks as they were, only the free list in another order; but the last
      block loses its mark in the header. */
  lemma NoneTakenOk(M0: Mem, M: Mem, B: seq<Block>, F0: seq<nat>, F: seq<nat>, L: bool, total: nat, i: nat, k: nat)
    requires Inv(M0, B, F0, L, total) && i < |B| && !B[i].used && k < |F0| && F0[k] == B[i].pos && Sized(M, total)
    requires F == Without(F0, k) + [B[i].pos] && Listed(M.prev, M.next, F)
    requires var b := B[i];
             && FIRST <= b.pos && 1 <= b.len && b.Past() <= total
             && M.head == M0.head[b.pos - 1 := Tag(b.len, false, false, false)][0 := At(M0.head, 0)]
             && M.foot == M0.foot[b.pos - 1 := CANARY][b.Past() - 1 := Tag(b.len, false, false, i + 1 == |B| && L)]
    ensures Inv(M, B, F, L, total) <==> !(i + 1 == |B| && L)
    ensures i + 1 == |B| && L ==> Mismatch(M, B[i])
  {
    HeaderOf(M0, B, F0, L, total, i);
    WithoutMembers(F0, k);
    if i + 1 == |B| && L {
      TagFields(B[i].len, false, false, true);
      TagFields(B[i].len, false, false, false);
      assert !TaggedAt(M.head, M.foot, B, L, i);
    } else {
      forall j {:trigger TaggedAt(M.head, M.foot, B, L, j)} | 0 <= j < |B| ensures TaggedAt(M.head, M.foot, B, L, j) {
        NoneTagged(M0, M, B, F0, L, total, i, j);
      }
    }
  }

  /** A line inside a block is not in the list. */
  lemma NewPlace(M: Mem, B: seq<Block>, F: seq<nat>, L: bool, total: nat, i: nat, q: nat, k: nat)
    requires Inv(M, B, F, L, total) && i < |B| && B[i].pos < q < B[i].Past() && k < |F|
    ensures q !in Without(F, k) && FIRST <= B[i].pos && B[i].Past() <= total
  {
    NotInside(M, B, F, L, total, i);
    Inside(B, total, i);
    assert q !in F;
  }

  lemma MinFreeApart(prev: seq<int>, w: int, prev2: seq<int>, next: seq<int>, F: seq<nat>)
    requires Listed(prev, next, F) && prev2 == prev[1 := w]
    ensures Listed(prev2, next, F)
  {
    forall k | 0 <= k <= |F| ensures At(next, Node(F, k)) == Node(F, k + 1) && At(prev2, Node(F, k + 1)) == Node(F, k) {
      LinkAt(prev, next, F, k);
    }
    ListedFrom(prev2, next, F);
  }

  // --- which blocks are in use after an operation ------------------------------------------------

  lemma FreedUsed(B: seq<Block>, total: nat, i: nat)
    requires Tiles(B, total) && i < |B|
    ensures forall b {:trigger b in Freed(B, i)} :: b in Freed(B, i) && b.used ==> b in B && b.pos != B[i].pos
  {
    var a, c, R := MergeFrom(B, i), MergeTo(B, i), Freed(B, i);
    ReplaceIndex(B, a, c, [Block(B[a].pos, Length(B[a..c]), false)]);
    forall b {:trigger b in Freed(B, i)} | b in R && b.used ensures b in B && b.pos != B[i].pos {
      var n :| 0 <= n < |R| && R[n] == b;
      var j := if n < a then n else n - 1 + (c - a);
      assert b == B[j] && j != i;
      if j < i { Order(B, total, j, i); assert B[j].len >= 1; } else { Order(B, total, i, j); assert B[i].len >= 1; }
    }
  }

  lemma AllocatedUsed(B: seq<Block>, i: nat, r: nat)
    requires i < |B| && r <= B[i].len
    ensures forall b {:trigger b in Allocated(B, i, r)} :: b in Allocated(B, i, r) && b.used ==> b in B || b.pos == B[i].pos
  {
    var N, R := Carve(B[i].pos, B[i].len, r), Allocated(B, i, r);
    ReplaceIndex(B, i, i + 1, N);
  }

  lemma ReallocatedUsed(B: seq<Block>, total: nat, i: nat, r: nat)
    requires Tiles(B, total) && i < |B| && B[i].used && r >= 1
    ensures forall b {:trigger b in Reallocated(B, i, r)} :: b in Reallocated(B, i, r) && b.used ==> b in B || b.pos == B[i].pos
  {
    if r < B[i].len {
      ShrunkUsed(B, total, i, r);
    } else if r > B[i].len && CanGrow(B, i, r) {
      GrownUsed(B, i, Carve(B[i].pos, B[i].len + B[i + 1].len, r));
    }
  }

  lemma GrownUsed(B: seq<Block>, i: nat, N: seq<Block>)
    requires i + 1 < |B| && forall k {:trigger N[k]} :: 0 <= k < |N| ==> N[k].used ==> N[k].pos == B[i].pos
    ensures forall b {:trigger b in Replace(B, i, i + 2, N)} :: b in Replace(B, i, i + 2, N) && b.used ==> b in B || b.pos == B[i].pos
  {
    ReplaceIndex(B, i, i + 2, N);
    var R := Replace(B, i, i + 2, N);
    hide Replace;
    forall b {:trigger b in R} | b in R && b.used ensures b in B || b.pos == B[i].pos {
      var j :| 0 <= j < |R| && R[j] == b;
      if i <= j < i + |N| { assert N[j - i] == b; }
    }
  }

  lemma ShrunkUsed(B: seq<Block>, total: nat, i: nat, r: nat)
    requires Tiles(B, total) && i < |B| && B[i].used && 1 <= r < B[i].len
    ensures forall b {:trigger b in Shrunk(B, i, r)} :: b in Shrunk(B, i, r) && b.used ==> b in B || b.pos == B[i].pos
  {
    hide Tiles, Freed, Cut;
    var C := Cut(B, i, r);
    CutTiles(B, total, i, r);
    CutUsed(B, i, r);
    FreedUsed(C, total, i + 1);
  }

  lemma CutTiles(B: seq<Block>, total: nat, i: nat, r: nat)
    requires Tiles(B, total) && i < |B| && 1 <= r < B[i].len
    ensures Tiles(Cut(B, i, r), total)
  {
    TilesReplace(B, total, i, i + 1, Halves(B[i], r));
  }

  lemma CutUsed(B: seq<Block>, i: nat, r: nat)
    requires i < |B| && r <= B[i].len
    ensures |Cut(B, i, r)| == |B| + 1
    ensures forall b {:trigger b in Cut(B, i, r)} :: b in Cut(B, i, r) ==> b in B || b.pos == B[i].pos || b == Cut(B, i, r)[i + 1]
  {
    ReplaceIndex(B, i, i + 1, Halves(B[i], r));
  }

  // --- data ----------------------------------------------------------------------------------

  ghost function Word(M: Mem, q: nat, k: nat): int {
    if k == 0 then At(M.prev, q) else if k == 1 then At(M.next, q) else if k == 2 then At(M.foot, q) else At(M.head, q)
  }

  ghost function Put(M: Mem, q: nat, k: nat, v: int): Mem
    requires Sized(M, |M.prev|) && q < |M.prev|
  {
    if k == 0 then M.(prev := M.prev[q := v])
    else if k == 1 then M.(next := M.next[q := v])
    else if k == 2 then M.(foot := M.foot[q := v])
    else M.(head := M.head[q := v])
  }

  lemma StoreOk(M0: Mem, M: Mem, B: seq<Block>, F: seq<nat>, L: bool, total: nat, i: nat, q: nat, k: nat, v: int)
    requires Inv(M0, B, F, L, total) && i < |B| && B[i].used && B[i].pos <= q < B[i].Past() && (k >= 2 ==> q < B[i].Past() - 1)
    requires q < total && M == Put(M0, q, k, v)
    ensures Inv(M, B, F, L, total)
  {
    Inside(B, total, i);
    if k >= 2 {
      StoreKeepsTags(M0, M, B, F, L, total, i, q, k, v);
    } else {
      forall x: nat | x in F ensures x != q { FreeOutsideUsed(B, total, x, i); }
      StoreKeepsList(M0, M, F, q, k, v);
    }
  }

  lemma StoreKeepsTags(M0: Mem, M: Mem, B: seq<Block>, F: seq<nat>, L: bool, total: nat, i: nat, q: nat, k: nat, v: int)
    requires Inv(M0, B, F, L, total) && i < |B| && B[i].pos <= q < B[i].Past() - 1 && q < total && k >= 2 && M == Put(M0, q, k, v)
    ensures Tagged(M.head, M.foot, B, L)
  {
    forall j | 0 <= j < |B| ensures TaggedAt(M.head, M.foot, B, L, j) {
      assert TaggedAt(M0.head, M0.foot, B, L, j);
      assert B[j].pos - 1 != q && B[j].Past() - 1 != q by {
        Inside(B, total, j);
        if i < j { Order(B, total, i, j); }
        if j < i { Order(B, total, j, i); }
      }
    }
  }

  lemma StoreKeepsList(M0: Mem, M: Mem, F: seq<nat>, q: nat, k: nat, v: int)
    requires Sized(M0, |M0.prev|) && Listed(M0.prev, M0.next, F) && FIRST <= q < |M0.prev| && k < 2 && M == Put(M0, q, k, v)
    requires forall x: nat :: x in F ==> x != q
    ensures Listed(M.prev, M.next, F)
  {
    forall j | 0 <= j <= |F| ensures At(M.next, Node(F, j)) == Node(F, j + 1) && At(M.prev, Node(F, j + 1)) == Node(F, j) {
      LinkAt(M0.prev, M0.next, F, j);
      if j > 0 { assert F[j - 1] in F; }
      if j < |F| { assert F[j] in F; }
    }
    ListedFrom(M.prev, M.next, F);
  }

  /** Word k of line x behind a pointer */
  ghost function DataWord(M: Mem, p: nat, x: nat, k: nat): int { Word(M, p + x, k) }

  /** The first `n` lines behind `p` hold what was behind `p0`, up to the footer. */
  ghost predicate Carried(M0: Mem, p0: nat, M: Mem, p: nat, n: nat) {
    forall x: nat, k: nat {:trigger DataWord(M, p, x, k)} :: x < n && k < 4 && (k >= 2 ==> x < n - 1) ==>
      DataWord(M, p, x, k) == DataWord(M0, p0, x, k)
  }
}
