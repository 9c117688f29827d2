/** What malloc, free and realloc of kernel/memory.c do to the blocks, and that the words they write
    are the ones the new blocks need. */
module HeapOps {
  import opened HeapLayout
  import opened HeapInvariant

  // --- the blocks after each operation -------------------------------------------------------

  /** `len` free lines at `pos` of which the first `r` are taken */
  function Carve(pos: nat, len: nat, r: nat): seq<Block>
    requires r <= len
  {
    if r < len then [Block(pos, r, true), Block(pos + r, len - r, false)] else [Block(pos, len, true)]
  }

  function Allocated(B: seq<Block>, i: nat, r: nat): seq<Block>
    requires i < |B| && r <= B[i].len
  {
    Replace(B, i, i + 1, Carve(B[i].pos, B[i].len, r))
  }

  /** The i-th block takes what it needs from the free block behind it. */
  function Grown(B: seq<Block>, i: nat, r: nat): seq<Block>
    requires i + 1 < |B| && r <= B[i].len + B[i + 1].len
  {
    Replace(B, i, i + 2, Carve(B[i].pos, B[i].len + B[i + 1].len, r))
  }

  function Halves(b: Block, r: nat): seq<Block>
    requires r <= b.len
  {
    [Block(b.pos, r, true), Block(b.pos + r, b.len - r, true)]
  }

  /** The i-th block is cut into two used ones. */
  function Cut(B: seq<Block>, i: nat, r: nat): seq<Block>
    requires i < |B| && r <= B[i].len
  {
    Replace(B, i, i + 1, Halves(B[i], r))
  }

  predicate FreeBefore(B: seq<Block>, i: nat)
    requires i < |B|
  {
    i > 0 && !B[i - 1].used
  }

  predicate FreeBehind(B: seq<Block>, i: nat)
    requires i < |B|
  {
    i + 1 < |B| && !B[i + 1].used
  }

  /** The first and the last block (exclusive) that become one when the i-th one is freed */
  function MergeFrom(B: seq<Block>, i: nat): nat
    requires i < |B|
  {
    if FreeBefore(B, i) then i - 1 else i
  }

  function MergeTo(B: seq<Block>, i: nat): nat
    requires i < |B|
  {
    if FreeBehind(B, i) then i + 2 else i + 1
  }

  function Length(B: seq<Block>): nat {
    if B == [] then 0 else B[0].len + Length(B[1..])
  }

  function Freed(B: seq<Block>, i: nat): seq<Block>
    requires i < |B|
  {
    var a, c := MergeFrom(B, i), MergeTo(B, i);
    Replace(B, a, c, [Block(B[a].pos, Length(B[a..c]), false)])
  }

  /** ar_realloc to a shorter block: cut it, and free the second half */
  function Shrunk(B: seq<Block>, i: nat, r: nat): seq<Block>
    requires i < |B| && r <= B[i].len
  {
    Freed(Cut(B, i, r), i + 1)
  }

  // --- tags ----------------------------------------------------------------------------------

  /** Header and footer of a new block */
  ghost predicate Written(head: seq<int>, foot: seq<int>, b: Block, prevFree: bool, last: bool) {
    && 1 <= b.pos <= |head| && 1 <= b.Past() <= |foot|
    && head[b.pos - 1] == Tag(b.len, b.used, prevFree, last)
    && foot[b.Past() - 1] == if b.used then CANARY else Tag(b.len, b.used, prevFree, last)
  }

  lemma NewTagsOne(head: seq<int>, foot: seq<int>, B: seq<Block>, a: int, c: int, N: seq<Block>, L: bool)
    requires 0 <= a < c <= |B| && |N| == 1
    requires Written(head, foot, N[0], FreeBefore(B, a), c == |B| && L)
    ensures NewTags(head, foot, B, a, c, N, L)
  {
    ReplaceIndex(B, a, c, N);
  }

  lemma NewTagsTwo(head: seq<int>, foot: seq<int>, B: seq<Block>, a: int, c: int, N: seq<Block>, L: bool)
    requires 0 <= a < c <= |B| && |N| == 2
    requires Written(head, foot, N[0], FreeBefore(B, a), false)
    requires Written(head, foot, N[1], !N[0].used, c == |B| && L)
    ensures NewTags(head, foot, B, a, c, N, L)
  {
    ReplaceIndex(B, a, c, N);
  }

  /** What the headers of a block and of its successor say. */
  lemma HeaderOf(M: Mem, B: seq<Block>, F: seq<nat>, L: bool, total: nat, i: nat)
    requires Inv(M, B, F, L, total) && i < |B|
    ensures FIRST <= B[i].pos && B[i].len >= 1 && B[i].Past() <= total
    ensures M.head[B[i].pos - 1] == TagAt(B, i, L)
    ensures M.foot[B[i].Past() - 1] == if B[i].used then CANARY else TagAt(B, i, L)
    ensures i + 1 < |B| ==> B[i + 1].pos == B[i].Past() && M.head[B[i].Past() - 1] == TagAt(B, i + 1, L)
    ensures i + 1 < |B| ==> B[i + 1].Past() <= total && B[i + 1].len >= 1
    ensures i + 1 == |B| ==> B[i].Past() == total
    ensures i + 1 < |B| ==> B[i].used || B[i + 1].used
    ensures i > 0 ==> B[i - 1].Past() == B[i].pos && M.foot[B[i].pos - 1] == if B[i - 1].used then CANARY else TagAt(B, i - 1, L)
    ensures i > 0 ==> FIRST <= B[i - 1].pos && B[i - 1].len >= 1 && (B[i - 1].used || B[i].used)
  {
    assert TaggedAt(M.head, M.foot, B, L, i);
    Inside(B, total, i);
    if i + 1 < |B| { Inside(B, total, i + 1); assert TaggedAt(M.head, M.foot, B, L, i + 1) && NotBothFree(B, i); }
    if i > 0 { Inside(B, total, i - 1); assert TaggedAt(M.head, M.foot, B, L, i - 1) && NotBothFree(B, i - 1); }
  }

  // --- the free list -------------------------------------------------------------------------

  predicate Within(lo1: nat, hi1: nat, lo: nat, hi: nat) { lo1 >= hi1 || (lo <= lo1 && hi1 <= hi) }

  lemma NodesCompose(prev: seq<int>, next: seq<int>, prev1: seq<int>, next1: seq<int>, prev2: seq<int>, next2: seq<int>,
                     F: seq<nat>, F1: seq<nat>, lo: nat, hi: nat, lo1: nat, hi1: nat, lo2: nat, hi2: nat)
    requires NodesKept(prev, next, prev1, next1, F, lo1, hi1) && NodesKept(prev1, next1, prev2, next2, F1, lo2, hi2)
    requires forall x: nat :: x in F1 ==> x in F || lo <= x < hi
    requires Within(lo1, hi1, lo, hi) && Within(lo2, hi2, lo, hi)
    ensures NodesKept(prev, next, prev2, next2, F, lo, hi)
  {
    forall q {:trigger prev2[q]} | 1 < q < |prev| && q !in F && !(lo <= q < hi) ensures prev2[q] == prev[q] {
      assert prev1[q] == prev[q];
    }
    forall q {:trigger next2[q]} | 0 < q < |next| && q !in F && !(lo <= q < hi) ensures next2[q] == next[q] {
      assert next1[q] == next[q];
    }
  }

  /** The only listed place in the lines of neighbouring blocks is that of the free one among them. */
  lemma ListedInRange(M: Mem, B: seq<Block>, F: seq<nat>, L: bool, total: nat, a: nat, c: nat, x: nat)
    requires Inv(M, B, F, L, total) && a < c <= |B| && x in F && B[a].pos <= x < B[c - 1].Past()
    ensures exists i :: a <= i < c && B[i].pos == x && !B[i].used
  {
    var i :| 0 <= i < |B| && B[i].pos == x && !B[i].used;
    PlaceInRange(B, total, a, c, i);
  }

  /** The list after the blocks in a range of lines left it, and perhaps one was put at its end */
  ghost predicate Relisted(F: seq<nat>, F2: seq<nat>, lo: nat, hi: nat, put: seq<nat>) {
    forall x: nat {:trigger x in F2} :: x in F2 <==> (x in F && !(lo <= x < hi)) || x in put
  }

  lemma RelistedFrom(M: Mem, B: seq<Block>, F: seq<nat>, L: bool, total: nat, a: nat, c: nat, F1: seq<nat>, put: seq<nat>)
    requires Inv(M, B, F, L, total) && a < c <= |B|
    requires forall x: nat {:trigger x in F1} :: x in F1 ==> x in F && forall i {:trigger B[i]} :: a <= i < c && !B[i].used ==> x != B[i].pos
    requires forall x: nat {:trigger x in F1} :: x in F && !(B[a].pos <= x < B[c - 1].Past()) ==> x in F1
    ensures Relisted(F, F1 + put, B[a].pos, B[c - 1].Past(), put)
  {
    forall x: nat ensures x in F1 <==> x in F && !(B[a].pos <= x < B[c - 1].Past()) {
      if x in F1 && B[a].pos <= x < B[c - 1].Past() { ListedInRange(M, B, F, L, total, a, c, x); }
    }
  }

  lemma FreeAtOne(N: seq<Block>)
    requires |N| == 1
    ensures forall x :: IsFreeAt(N, x) <==> x == N[0].pos && !N[0].used
  {
    forall x | x == N[0].pos && !N[0].used ensures IsFreeAt(N, x) { assert N[0].pos == x; }
  }

  lemma FreeAtTwo(N: seq<Block>)
    requires |N| == 2
    ensures forall x :: IsFreeAt(N, x) <==> (x == N[0].pos && !N[0].used) || (x == N[1].pos && !N[1].used)
  {
    forall x | x == N[0].pos && !N[0].used ensures IsFreeAt(N, x) { assert N[0].pos == x; }
    forall x | x == N[1].pos && !N[1].used ensures IsFreeAt(N, x) { assert N[1].pos == x; }
  }

  // --- totals --------------------------------------------------------------------------------

  function FreeOf(b: Block): int { if b.used then 0 else 16 * b.len - 8 }

  lemma FreeBytesFew(B: seq<Block>)
    requires 1 <= |B| <= 3
    ensures |B| == 1 ==> FreeBytes(B) == FreeOf(B[0])
    ensures |B| == 2 ==> FreeBytes(B) == FreeOf(B[0]) + FreeOf(B[1])
    ensures |B| == 3 ==> FreeBytes(B) == FreeOf(B[0]) + FreeOf(B[1]) + FreeOf(B[2])
  {
    assert FreeBytes(B) == FreeOf(B[0]) + FreeBytes(B[1..]);
    if |B| >= 2 { assert FreeBytes(B[1..]) == FreeOf(B[1]) + FreeBytes(B[1..][1..]); }
    if |B| == 3 { assert FreeBytes(B[1..][1..]) == FreeOf(B[2]) + FreeBytes(B[1..][1..][1..]); }
  }

  lemma LengthFew(B: seq<Block>)
    requires 1 <= |B| <= 3
    ensures |B| == 1 ==> Length(B) == B[0].len
    ensures |B| == 2 ==> Length(B) == B[0].len + B[1].len
    ensures |B| == 3 ==> Length(B) == B[0].len + B[1].len + B[2].len
  {
    assert Length(B) == B[0].len + Length(B[1..]);
    if |B| >= 2 { assert Length(B[1..]) == B[1].len + Length(B[1..][1..]); }
    if |B| == 3 { assert Length(B[1..][1..]) == B[2].len + Length(B[1..][1..][1..]); }
  }

  lemma {:induction false} FreeBytesBound(B: seq<Block>)
    requires forall i {:trigger B[i]} :: 0 <= i < |B| ==> B[i].len >= 1
    ensures 0 <= FreeBytes(B) <= 16 * Length(B)
  {
    if B != [] { FreeBytesBound(B[1..]); }
  }

  lemma {:induction false} LengthSpans(B: seq<Block>, lo: nat)
    requires |B| > 0 && B[0].pos == lo
    requires forall i {:trigger B[i].Past()} :: 0 <= i < |B| - 1 ==> B[i + 1].pos == B[i].Past()
    ensures lo + Length(B) == B[|B| - 1].Past()
  {
    if |B| > 1 {
      assert B[0].Past() == B[1].pos;
      forall i {:trigger B[1..][i].Past()} | 0 <= i < |B[1..]| - 1 ensures B[1..][i + 1].pos == B[1..][i].Past() {
        assert B[i + 1].Past() == B[i + 2].pos;
      }
      LengthSpans(B[1..], B[1].pos);
    }
  }

  /** `totalFree` never leaves the range of its 32 bits: it is at most the size of the arena. */
  lemma TotalFreeFits(M: Mem, B: seq<Block>, F: seq<nat>, L: bool, total: nat)
    requires Inv(M, B, F, L, total)
    ensures 0 <= M.head[0] <= 16 * (total - FIRST)
  {
    FreeBytesBound(B);
    LengthSpans(B, FIRST);
  }

  // --- the steps -----------------------------------------------------------------------------

  /** ar_malloc, and the growing half of ar_realloc: of the lines of the blocks from a to c, which are
      free but perhaps for the first one, the first `r` become one used block. */
  ghost predicate CarvedTags(M: Mem, M2: Mem, B: seq<Block>, L: bool, L2: bool, a: nat, c: nat, p: nat, len: nat, r: nat)
    requires a < c <= |B| && 1 <= r <= len
  {
    var last := c == |B| && L2;
    && TagsKept(M.head, M.foot, M2.head, M2.foot, p, p + len)
    && (if r < len then
          Written(M2.head, M2.foot, Block(p, r, true), FreeBefore(B, a), false)
          && Written(M2.head, M2.foot, Block(p + r, len - r, false), false, last)
        else
          Written(M2.head, M2.foot, Block(p, len, true), FreeBefore(B, a), last))
    && (c < |B| ==> NextHeader(M.head, M2.head, B, c, r == len, L) && L2 == L)
  }

  /** The blocks from a to c, of which only the first can be in use and the last is free */
  ghost predicate Carvable(B: seq<Block>, a: nat, c: nat) {
    a < c <= |B| && !B[c - 1].used && (c == a + 1 || (c == a + 2 && B[a].used))
  }

  lemma CarvableRange(M: Mem, B: seq<Block>, F: seq<nat>, L: bool, total: nat, a: nat, c: nat)
    requires Inv(M, B, F, L, total) && Carvable(B, a, c)
    ensures FIRST <= B[a].pos && B[a].pos + 1 <= B[c - 1].Past() <= total
    ensures c == |B| ==> B[c - 1].Past() == total
    ensures c < |B| ==> B[c].pos == B[c - 1].Past() && B[c].used && B[c].Past() <= total
                        && M.head[B[c - 1].Past() - 1] == Tag(B[c].len, true, true, c == |B| - 1 && L)
  {
    HeaderOf(M, B, F, L, total, a);
    HeaderOf(M, B, F, L, total, c - 1);
  }

  /** The four words that mark two new blocks, and `totalFree` */
  lemma TwoTags(M: Mem, M2: Mem, N: seq<Block>, prevFree: bool, last: bool, w: int)
    requires |N| == 2 && FIRST <= N[0].pos && 1 <= N[0].len && 1 <= N[1].len && N[1].pos == N[0].Past()
    requires N[1].Past() <= |M.head| == |M.foot|
    requires var t, u := Tag(N[0].len, N[0].used, prevFree, false), Tag(N[1].len, N[1].used, !N[0].used, last);
             && M2.head == M.head[N[0].pos - 1 := t][N[1].pos - 1 := u][0 := w]
             && M2.foot == M.foot[N[1].pos - 1 := if N[0].used then CANARY else t][N[1].Past() - 1 := if N[1].used then CANARY else u]
    ensures TagsKept(M.head, M.foot, M2.head, M2.foot, N[0].pos, N[1].Past())
    ensures Written(M2.head, M2.foot, N[0], prevFree, false) && Written(M2.head, M2.foot, N[1], !N[0].used, last)
    ensures M2.head[0] == w && M2.foot[0] == M.foot[0]
    ensures forall q {:trigger M2.head[q]} :: N[1].Past() - 1 <= q < |M.head| ==> M2.head[q] == M.head[q]
    ensures forall q {:trigger M2.head[q]} :: N[0].pos <= q < N[0].Past() - 1 ==> M2.head[q] == M.head[q]
    ensures forall q {:trigger M2.foot[q]} :: N[0].pos <= q < N[0].Past() - 1 ==> M2.foot[q] == M.foot[q]
  {
  }

  lemma CarvedSplit(M: Mem, M2: Mem, B: seq<Block>, F: seq<nat>, L: bool, total: nat, a: nat, c: nat, len: nat, r: nat)
    requires Inv(M, B, F, L, total) && Sized(M2, total) && Carvable(B, a, c)
    requires B[a].pos + len == B[c - 1].Past() && 1 <= r < len && B[a].pos + len <= total && B[a].pos >= FIRST
    requires TagsKept(M.head, M.foot, M2.head, M2.foot, B[a].pos, B[a].pos + len)
    requires Written(M2.head, M2.foot, Block(B[a].pos, r, true), FreeBefore(B, a), false)
    requires Written(M2.head, M2.foot, Block(B[a].pos + r, len - r, false), false, c == |B| && L)
    requires M2.head[B[a].pos + len - 1] == M.head[B[a].pos + len - 1]
    ensures CarvedTags(M, M2, B, L, L, a, c, B[a].pos, len, r) && At(M2.head, total - 1) == At(M.head, total - 1)
  {
    CarvableRange(M, B, F, L, total, a, c);
  }

  /** The words that mark one new used block, the header behind it, and `totalFree` */
  lemma OneTag(M: Mem, M2: Mem, b: Block, prevFree: bool, last: bool, behind: int, w: int)
    requires FIRST <= b.pos && 1 <= b.len && b.Past() <= |M.head| == |M.foot| && b.used
    requires M2.head == M.head[b.pos - 1 := Tag(b.len, true, prevFree, last)][b.Past() - 1 := behind][0 := w]
    requires M2.foot == M.foot[b.Past() - 1 := CANARY]
    ensures TagsKept(M.head, M.foot, M2.head, M2.foot, b.pos, b.Past()) && Written(M2.head, M2.foot, b, prevFree, last)
    ensures M2.head[0] == w && M2.foot[0] == M.foot[0] && M2.head[b.Past() - 1] == behind
    ensures forall q {:trigger M2.head[q]} :: b.Past() <= q < |M.head| ==> M2.head[q] == M.head[q]
  {
  }

  lemma CarvedWhole(M: Mem, M2: Mem, B: seq<Block>, F: seq<nat>, L: bool, L2: bool, total: nat, a: nat, c: nat,
                    len: nat, clear: bool)
    requires Inv(M, B, F, L, total) && Sized(M2, total) && Carvable(B, a, c)
    requires B[a].pos + len == B[c - 1].Past() && 1 <= len && B[a].pos + len <= total && B[a].pos >= FIRST
    requires c < |B| ==> clear && L2 == L
    requires TagsKept(M.head, M.foot, M2.head, M2.foot, B[a].pos, B[a].pos + len)
    requires Written(M2.head, M2.foot, Block(B[a].pos, len, true), FreeBefore(B, a), c == |B| && L2)
    requires var h := B[a].pos + len - 1; M2.head[h] == if clear then ClearPrevFree(M.head[h]) else M.head[h]
    ensures CarvedTags(M, M2, B, L, L2, a, c, B[a].pos, len, len)
    ensures At(M2.head, total - 1) >= 0 && IsUsed(At(M2.head, total - 1))
  {
    CarvableRange(M, B, F, L, total, a, c);
    if c < |B| { TagFields(B[c].len, true, true, c == |B| - 1 && L); }
    EndWordKept(M, M2, total, B[a].pos, B[a].pos + len, clear);
  }

  lemma EndWordKept(M: Mem, M2: Mem, total: nat, lo: nat, hi: nat, clear: bool)
    requires Sized(M, total) && Sized(M2, total) && FIRST <= lo < hi <= total
    requires M.head[total - 1] >= 0 && IsUsed(M.head[total - 1])
    requires TagsKept(M.head, M.foot, M2.head, M2.foot, lo, hi)
    requires M2.head[hi - 1] == if clear then ClearPrevFree(M.head[hi - 1]) else M.head[hi - 1]
    ensures M2.head[total - 1] >= 0 && IsUsed(M2.head[total - 1])
  {
    if hi < total { assert M2.head[total - 1] == M.head[total - 1]; }
  }

  lemma CarvedRetags(M: Mem, M2: Mem, B: seq<Block>, L: bool, L2: bool, a: nat, c: nat, len: nat, r: nat)
    requires a < c <= |B| && 1 <= r <= len && B[a].pos + len == B[c - 1].Past()
    requires CarvedTags(M, M2, B, L, L2, a, c, B[a].pos, len, r)
    ensures Retagged(M, M2, B, L, L2, a, c, Carve(B[a].pos, len, r))
  {
    var N := Carve(B[a].pos, len, r);
    if r < len { NewTagsTwo(M2.head, M2.foot, B, a, c, N, L2); } else { NewTagsOne(M2.head, M2.foot, B, a, c, N, L2); }
  }

  lemma CarvedRelinks(M: Mem, M2: Mem, B: seq<Block>, F: seq<nat>, F2: seq<nat>, a: nat, c: nat, len: nat, r: nat)
    requires a < c <= |B| && 1 <= r <= len && B[a].pos + len == B[c - 1].Past()
    requires Listed(M2.prev, M2.next, F2) && NodesKept(M.prev, M.next, M2.prev, M2.next, F, B[a].pos, B[c - 1].Past())
    requires Relisted(F, F2, B[a].pos, B[c - 1].Past(), if r < len then [B[a].pos + r] else [])
    ensures Relinked(M, M2, B, F, F2, a, c, Carve(B[a].pos, len, r))
  {
    var N := Carve(B[a].pos, len, r);
    if r < len { FreeAtTwo(N); } else { FreeAtOne(N); }
  }

  lemma CarvedOk(M: Mem, M2: Mem, B: seq<Block>, F: seq<nat>, F2: seq<nat>, L: bool, L2: bool, total: nat, a: nat,
                 c: nat, len: nat, r: nat)
    requires Inv(M, B, F, L, total) && Sized(M2, total) && a < c <= |B| && c <= a + 2
    requires B[a].pos + len == B[c - 1].Past() && 1 <= r <= len && !B[c - 1].used
    requires CarvedTags(M, M2, B, L, L2, a, c, B[a].pos, len, r)
    requires Listed(M2.prev, M2.next, F2) && NodesKept(M.prev, M.next, M2.prev, M2.next, F, B[a].pos, B[c - 1].Past())
    requires Relisted(F, F2, B[a].pos, B[c - 1].Past(), if r < len then [B[a].pos + r] else [])
    requires M2.head[0] == M.head[0] - FreeBytes(B[a..c]) + (if r < len then 16 * (len - r) - 8 else 0)
    requires M2.foot[0] == M.foot[0] && M2.head[total - 1] >= 0 && IsUsed(M2.head[total - 1])
    ensures var R := Replace(B, a, c, Carve(B[a].pos, len, r));
            Inv(M2, R, F2, L2, total) && OthersKept(M, M2, B, R, a, c)
  {
    var N := Carve(B[a].pos, len, r);
    CarvedRetags(M, M2, B, L, L2, a, c, len, r);
    CarvedRelinks(M, M2, B, F, F2, a, c, len, r);
    FreeBytesFew(N);
    assert Apart(B, a, c, N) by { HeaderOf(M, B, F, L, total, c - 1); }
    ReplacedInv(M, M2, B, F, F2, L, L2, total, a, c, N);
  }

  /** ar_free: the i-th block and its free neighbours become one free block at the end of the list. */
  lemma FreedOk(M: Mem, M2: Mem, B: seq<Block>, F: seq<nat>, F2: seq<nat>, L: bool, total: nat, i: nat)
    requires Inv(M, B, F, L, total) && Sized(M2, total) && i < |B| && B[i].used
    requires var a, c := MergeFrom(B, i), MergeTo(B, i);
             var lo, hi := B[a].pos, B[c - 1].Past();
             && lo <= hi
             && TagsKept(M.head, M.foot, M2.head, M2.foot, lo, hi)
             && Written(M2.head, M2.foot, Block(lo, hi - lo, false), false, c == |B| && L)
             && (c < |B| ==> NextHeader(M.head, M2.head, B, c, false, L))
             && Listed(M2.prev, M2.next, F2) && NodesKept(M.prev, M.next, M2.prev, M2.next, F, lo, hi) && Relisted(F, F2, lo, hi, [lo])
             && M2.head[0] == M.head[0] - FreeBytes(B[a..c]) + 16 * (hi - lo) - 8
    requires M2.foot[0] == M.foot[0] && M2.head[total - 1] >= 0 && IsUsed(M2.head[total - 1])
    ensures Inv(M2, Freed(B, i), F2, L, total) && OthersKept(M, M2, B, Freed(B, i), MergeFrom(B, i), MergeTo(B, i))
  {
    var a, c := MergeFrom(B, i), MergeTo(B, i);
    MergedLength(M, B, F, L, total, i);
    var N := [Block(B[a].pos, Length(B[a..c]), false)];
    MergedApart(M, B, F, L, total, i);
    FreeBytesFew(N);
    NewTagsOne(M2.head, M2.foot, B, a, c, N, L);
    FreeAtOne(N);
    ReplacedInv(M, M2, B, F, F2, L, L, total, a, c, N);
  }

  lemma MergedLength(M: Mem, B: seq<Block>, F: seq<nat>, L: bool, total: nat, i: nat)
    requires Inv(M, B, F, L, total) && i < |B|
    ensures var a, c := MergeFrom(B, i), MergeTo(B, i);
            Length(B[a..c]) == B[c - 1].Past() - B[a].pos && Length(B[a..c]) >= 1
  {
    HeaderOf(M, B, F, L, total, i);
    LengthFew(B[MergeFrom(B, i)..MergeTo(B, i)]);
  }

  /** The neighbours of a merged block are in use. */
  lemma MergedApart(M: Mem, B: seq<Block>, F: seq<nat>, L: bool, total: nat, i: nat)
    requires Inv(M, B, F, L, total) && i < |B|
    ensures var a, c := MergeFrom(B, i), MergeTo(B, i);
            && (a > 0 ==> B[a - 1].used) && (c < |B| ==> B[c].used)
            && FIRST <= B[a].pos && B[c - 1].Past() <= total && (c == |B| ==> B[c - 1].Past() == total)
            && (c < |B| ==> B[c].pos == B[c - 1].Past())
  {
    var a, c := MergeFrom(B, i), MergeTo(B, i);
    HeaderOf(M, B, F, L, total, a);
    HeaderOf(M, B, F, L, total, c - 1);
  }

  /** The shrinking half of ar_realloc, before it frees the second part. */
  ghost predicate CutTags(M: Mem, M2: Mem, p: nat, n: nat, r: nat, prevFree: bool, last: bool) {
    && 1 <= r < n && M2.prev == M.prev && M2.next == M.next
    && TagsKept(M.head, M.foot, M2.head, M2.foot, p, p + n)
    && Written(M2.head, M2.foot, Block(p, r, true), prevFree, false)
    && Written(M2.head, M2.foot, Block(p + r, n - r, true), false, last)
    && At(M2.head, 0) == At(M.head, 0) && At(M2.foot, 0) == At(M.foot, 0)
    && At(M2.head, p + n - 1) == At(M.head, p + n - 1)
  }

  lemma CutWrites(M: Mem, M2: Mem, b: Block, r: nat, prevFree: bool, last: bool)
    requires FIRST <= b.pos && 1 <= r < b.len && b.Past() <= |M.head| == |M.foot|
    requires M2.prev == M.prev && M2.next == M.next
    requires M2.head == M.head[b.pos - 1 := Tag(r, true, prevFree, false)][b.pos + r - 1 := Tag(b.len - r, true, false, last)]
    requires M2.foot == M.foot[b.pos + r - 1 := CANARY][b.Past() - 1 := CANARY]
    ensures CutTags(M, M2, b.pos, b.len, r, prevFree, last)
    ensures SameData(M, M2, Block(b.pos, r, true))
  {
    TwoTags(M, M2, Halves(b, r), prevFree, last, M.head[0]);
  }

  lemma CutOk(M: Mem, M2: Mem, B: seq<Block>, F: seq<nat>, L: bool, total: nat, i: nat, r: nat)
    requires Inv(M, B, F, L, total) && i < |B| && B[i].used
    requires CutTags(M, M2, B[i].pos, B[i].len, r, FreeBefore(B, i), i + 1 == |B| && L)
    ensures Inv(M2, Cut(B, i, r), F, L, total) && OthersKept(M, M2, B, Cut(B, i, r), i, i + 1)
  {
    CutReplaces(M, M2, B, F, L, total, i, r);
    ReplacedInv(M, M2, B, F, F, L, L, total, i, i + 1, Halves(B[i], r));
  }

  lemma CutReplaces(M: Mem, M2: Mem, B: seq<Block>, F: seq<nat>, L: bool, total: nat, i: nat, r: nat)
    requires Inv(M, B, F, L, total) && i < |B| && B[i].used
    requires CutTags(M, M2, B[i].pos, B[i].len, r, FreeBefore(B, i), i + 1 == |B| && L)
    ensures Replaced(M, M2, B, F, F, L, L, total, i, i + 1, Halves(B[i], r))
  {
    CutRetags(M, M2, B, F, L, total, i, r);
    FreeBytesFew(Halves(B[i], r));
    FreeBytesFew(B[i..i + 1]);
    CutRelinks(M, M2, B, F, total, i, Halves(B[i], r));
  }

  lemma CutRetags(M: Mem, M2: Mem, B: seq<Block>, F: seq<nat>, L: bool, total: nat, i: nat, r: nat)
    requires Inv(M, B, F, L, total) && i < |B| && B[i].used
    requires CutTags(M, M2, B[i].pos, B[i].len, r, FreeBefore(B, i), i + 1 == |B| && L)
    ensures Retagged(M, M2, B, L, L, i, i + 1, Halves(B[i], r))
    ensures At(M2.head, total - 1) == At(M.head, total - 1)
  {
    HeaderOf(M, B, F, L, total, i);
    NewTagsTwo(M2.head, M2.foot, B, i, i + 1, Halves(B[i], r), L);
  }

  lemma CutRelinks(M: Mem, M2: Mem, B: seq<Block>, F: seq<nat>, total: nat, i: nat, N: seq<Block>)
    requires Tiles(B, total) && Listed(M.prev, M.next, F) && i < |B| && B[i].used
    requires forall x: nat {:trigger x in F} :: x in F <==> IsFreeAt(B, x)
    requires |N| == 2 && N[0].used && N[1].used && M2.prev == M.prev && M2.next == M.next
    ensures Relinked(M, M2, B, F, F, i, i + 1, N)
  {
    FreeAtTwo(N);
    forall x: nat | x in F ensures !(B[i].pos <= x < B[i].Past()) { FreeOutsideUsed(B, total, x, i); }
  }
}
