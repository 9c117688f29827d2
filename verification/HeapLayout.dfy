/** The memory layout of kernel/memory.c. An arena is a sequence of 32-bit words; its address and
    every pointer handed out are multiples of 16 bytes, so the words are looked at in lines of four,
    and pointers to free-list nodes and to user memory are line numbers. Line 0 starts with the guard
    of the free list, followed by `end` and `totalFree`; line 1 starts with `minFree` and ends with
    the header of the first block, whose memory begins at line 2. */
module HeapLayout {

  const FIRST: int := 2
  const CANARY: int := 0xDEADC0DE
  const USED: int := 1
  const PREVFREE: int := 2
  const ISLAST: int := 4

  /** The four words of all lines. A free block keeps its node in `prev` and `next` of its first line.
      Line q - 1 holds the header of the block with memory at line q, and the footer of the block
      before it. */
  datatype Mem = Mem(prev: seq<int>, next: seq<int>, foot: seq<int>, head: seq<int>)

  ghost predicate Sized(M: Mem, lines: nat) {
    |M.prev| == lines && |M.next| == lines && |M.foot| == lines && |M.head| == lines
  }

  /** `minFree` and `totalFree` */
  ghost function MinFree(M: Mem): int { if |M.prev| > 1 then M.prev[1] else 0 }

  ghost function TotalFree(M: Mem): int { if |M.head| > 0 then M.head[0] else 0 }

  /** The new `totalFree` is recorded if it is the least one so far. */
  ghost predicate Recorded(M0: Mem, M: Mem) {
    MinFree(M) == if TotalFree(M) < MinFree(M0) then TotalFree(M) else MinFree(M0)
  }

  // --- boundary tags -------------------------------------------------------------------------

  /** bt_size, in bytes: the tag without its three flag bits */
  function SizeOf(w: int): int { w - w % 8 }

  predicate IsUsed(w: int) { w % 2 == 1 }

  predicate HasPrevFree(w: int) { w % 4 >= 2 }

  predicate HasIsLast(w: int) { w % 8 >= 4 }

  function ClearPrevFree(w: int): int { if HasPrevFree(w) then w - PREVFREE else w }

  function SetPrevFree(w: int): int { if HasPrevFree(w) then w else w + PREVFREE }

  function ClearIsLast(w: int): int { if HasIsLast(w) then w - ISLAST else w }

  /** size | flags, for a block of `len` lines */
  function Tag(len: int, used: bool, prevFree: bool, last: bool): int {
    16 * len + (if used then USED else 0) + (if prevFree then PREVFREE else 0) + (if last then ISLAST else 0)
  }

  lemma TagFields(len: int, used: bool, prevFree: bool, last: bool)
    ensures var w := Tag(len, used, prevFree, last);
            && SizeOf(w) == 16 * len && IsUsed(w) == used
            && HasPrevFree(w) == prevFree && HasIsLast(w) == last
            && ClearPrevFree(w) == Tag(len, used, false, last)
            && SetPrevFree(w) == Tag(len, used, true, last)
            && ClearIsLast(w) == Tag(len, used, prevFree, false)
  {
    FlagBits(len, (if used then USED else 0) + (if prevFree then PREVFREE else 0) + (if last then ISLAST else 0));
  }

  lemma FlagBits(len: int, f: int)
    requires 0 <= f < 8
    ensures var w := 16 * len + f; w % 8 == f && w % 4 == f % 4 && w % 2 == f % 2
  {
    var w := 16 * len + f;
    assert w == 8 * (2 * len) + f && w / 8 == 2 * len;
    assert w == 4 * (4 * len + f / 4) + f % 4 && w / 4 == 4 * len + f / 4;
    assert w == 2 * (8 * len + f / 2) + f % 2 && w / 2 == 8 * len + f / 2;
  }

  /** blksz with the wrap-around of a 32-bit size_t, in bytes */
  function BlockBytes(size: int): int
    requires 0 <= size < 0x1_0000_0000
  {
    ((size + 8) % 0x1_0000_0000 + 15) % 0x1_0000_0000 / 16 * 16
  }

  /** A block is large enough for the request exactly when the rounding does not wrap. */
  lemma BlockBytesExact(size: int)
    requires 0 <= size < 0x1_0000_0000
    ensures BlockBytes(size) % 16 == 0
    ensures BlockBytes(size) >= size + 8 <==> size + 23 < 0x1_0000_0000
    ensures size + 23 < 0x1_0000_0000 ==> BlockBytes(size) < size + 24
    ensures BlockBytes(size) == if size + 23 < 0x1_0000_0000 then (size + 23) / 16 * 16 else if size <= 0xffff_fff8 then 0 else 16
    ensures BlockBytes(size) >= 16 <==> !(0xffff_ffe9 <= size <= 0xffff_fff8)
  {
  }

  lemma RoundingWraps()
    ensures BlockBytes(0xffff_ffe8) == 0xffff_fff0 && BlockBytes(0xffff_ffe9) == 0 && BlockBytes(0xffff_ffff) == 16
  {
  }

  // --- blocks --------------------------------------------------------------------------------

  /** A block: the line of its memory, its length in lines, and whether it is in use. */
  datatype Block = Block(pos: nat, len: nat, used: bool) {
    function Past(): nat { pos + len }
  }

  /** The blocks tile the lines from FIRST to `total`. */
  ghost predicate Tiles(B: seq<Block>, total: nat) {
    && |B| > 0 && B[0].pos == FIRST && B[|B| - 1].Past() == total
    && (forall i {:trigger B[i]} :: 0 <= i < |B| ==> B[i].len >= 1)
    && (forall i {:trigger B[i].Past()} :: 0 <= i < |B| - 1 ==> B[i + 1].pos == B[i].Past())
    && (forall i, j {:trigger B[i].pos, B[j].pos} :: 0 <= i < j < |B| ==> B[i].pos + B[i].len <= B[j].pos)
  }

  function TagAt(B: seq<Block>, i: int, keepsLast: bool): int
    requires 0 <= i < |B|
  {
    Tag(B[i].len, B[i].used, i > 0 && !B[i - 1].used, i == |B| - 1 && keepsLast)
  }

  /** Header and footer of the i-th block; `keepsLast` says whether the last block carries ISLAST. */
  ghost predicate TaggedAt(head: seq<int>, foot: seq<int>, B: seq<Block>, keepsLast: bool, i: int)
    requires 0 <= i < |B|
  {
    && 1 <= B[i].pos <= |head| && 1 <= B[i].Past() <= |foot|
    && head[B[i].pos - 1] == TagAt(B, i, keepsLast)
    && foot[B[i].Past() - 1] == if B[i].used then CANARY else TagAt(B, i, keepsLast)
  }

  ghost predicate Tagged(head: seq<int>, foot: seq<int>, B: seq<Block>, keepsLast: bool) {
    forall i {:trigger TaggedAt(head, foot, B, keepsLast, i)} :: 0 <= i < |B| ==> TaggedAt(head, foot, B, keepsLast, i)
  }

  ghost predicate NotBothFree(B: seq<Block>, i: int)
    requires 0 <= i < |B| - 1
  {
    B[i].used || B[i + 1].used
  }

  ghost predicate Coalesced(B: seq<Block>) {
    forall i {:trigger NotBothFree(B, i)} :: 0 <= i < |B| - 1 ==> NotBothFree(B, i)
  }

  ghost predicate IsFreeAt(B: seq<Block>, pos: int) {
    exists i :: 0 <= i < |B| && B[i].pos == pos && !B[i].used
  }

  function FreeBytes(B: seq<Block>): int {
    if B == [] then 0 else (if B[0].used then 0 else 16 * B[0].len - 8) + FreeBytes(B[1..])
  }

  lemma {:induction false} FreeBytesConcat(a: seq<Block>, b: seq<Block>)
    ensures FreeBytes(a + b) == FreeBytes(a) + FreeBytes(b)
  {
    if a == [] {
      assert a + b == b;
    } else {
      FreeBytesConcat(a[1..], b);
      assert (a + b)[1..] == a[1..] + b;
    }
  }

  /** `B` with the blocks from a to c replaced by `N`. */
  function Replace(B: seq<Block>, a: int, c: int, N: seq<Block>): seq<Block>
    requires 0 <= a <= c <= |B|
  {
    B[..a] + N + B[c..]
  }

  lemma ReplaceIndex(B: seq<Block>, a: int, c: int, N: seq<Block>)
    requires 0 <= a <= c <= |B|
    ensures var R := Replace(B, a, c, N);
            && |R| == |B| - (c - a) + |N|
            && forall i {:trigger R[i]} :: 0 <= i < |R| ==>
                 R[i] == if i < a then B[i] else if i < a + |N| then N[i - a] else B[i - |N| + (c - a)]
  {
  }

  lemma FreeBytesReplace(B: seq<Block>, a: int, c: int, N: seq<Block>)
    requires 0 <= a <= c <= |B|
    ensures FreeBytes(Replace(B, a, c, N)) == FreeBytes(B) - FreeBytes(B[a..c]) + FreeBytes(N)
  {
    FreeBytesConcat(B[..a] + N, B[c..]);
    FreeBytesConcat(B[..a], N);
    FreeBytesConcat(B[..a] + B[a..c], B[c..]);
    FreeBytesConcat(B[..a], B[a..c]);
    assert B[..a] + B[a..c] == B[..c];
    assert B[..c] + B[c..] == B;
  }

  /** What may replace the blocks from a to c: one or two blocks in the same range. */
  ghost predicate Fits(B: seq<Block>, a: int, c: int, N: seq<Block>) {
    && 0 <= a < c <= |B| && 1 <= |N| <= 2
    && N[0].pos == B[a].pos && N[|N| - 1].Past() == B[c - 1].Past()
    && (|N| == 2 ==> N[1].pos == N[0].Past() && N[1].len >= 1)
    && N[0].len >= 1
  }

  /** Blocks in the same range as the ones they replace keep the tiling. */
  lemma TilesReplace(B: seq<Block>, total: nat, a: int, c: int, N: seq<Block>)
    requires Tiles(B, total) && Fits(B, a, c, N)
    ensures Tiles(Replace(B, a, c, N), total)
  {
    var R := Replace(B, a, c, N);
    ReplaceIndex(B, a, c, N);
    AdjacentReplace(B, total, a, c, N);
    assert R[0].pos == FIRST by { assert R[0] == if a == 0 then N[0] else B[0]; }
    assert R[|R| - 1].Past() == total by {
      assert R[|R| - 1] == if c == |B| then N[|N| - 1] else B[|B| - 1];
    }
    PairsFromAdjacent(R);
  }

  lemma AdjacentReplace(B: seq<Block>, total: nat, a: int, c: int, N: seq<Block>)
    requires Tiles(B, total) && Fits(B, a, c, N)
    ensures var R := Replace(B, a, c, N);
            forall i {:trigger R[i].Past()} :: 0 <= i < |R| - 1 ==> R[i + 1].pos == R[i].Past()
  {
    var R := Replace(B, a, c, N);
    var d := |N| - (c - a);
    ReplaceIndex(B, a, c, N);
    forall i {:trigger R[i].Past()} | 0 <= i < |R| - 1 ensures R[i + 1].pos == R[i].Past() {
      if i + 1 < a { assert R[i] == B[i] && R[i + 1] == B[i + 1] && B[i].Past() == B[i + 1].pos; }
      else if i + 1 == a { assert R[i] == B[i] && R[i + 1] == N[0] && B[i].Past() == B[a].pos; }
      else if i + 1 < a + |N| { assert R[i] == N[0] && R[i + 1] == N[1]; }
      else if i + 1 == a + |N| { assert R[i] == N[|N| - 1] && R[i + 1] == B[c] && B[c - 1].Past() == B[c].pos; }
      else { assert R[i] == B[i - d] && R[i + 1] == B[i - d + 1] && B[i - d].Past() == B[i - d + 1].pos; }
    }
  }

  lemma {:induction false} PairsFrom(R: seq<Block>, i: int, j: int)
    requires 0 <= i < j < |R|
    requires forall i {:trigger R[i].Past()} :: 0 <= i < |R| - 1 ==> R[i + 1].pos == R[i].Past()
    ensures R[i].pos + R[i].len <= R[j].pos
    decreases j
  {
    assert R[j - 1].Past() == R[j].pos;
    if i < j - 1 { PairsFrom(R, i, j - 1); }
  }

  lemma PairsFromAdjacent(R: seq<Block>)
    requires forall i {:trigger R[i].Past()} :: 0 <= i < |R| - 1 ==> R[i + 1].pos == R[i].Past()
    ensures forall i, j {:trigger R[i].pos, R[j].pos} :: 0 <= i < j < |R| ==> R[i].pos + R[i].len <= R[j].pos
  {
    forall i, j {:trigger R[i].pos, R[j].pos} | 0 <= i < j < |R|
      ensures R[i].pos + R[i].len <= R[j].pos
    {
      PairsFrom(R, i, j);
    }
  }

  lemma Order(B: seq<Block>, total: nat, i: int, j: int)
    requires Tiles(B, total) && 0 <= i < j < |B|
    ensures B[i].Past() <= B[j].pos
  {
    assert B[i].pos + B[i].len <= B[j].pos;
  }

  lemma Inside(B: seq<Block>, total: nat, i: int)
    requires Tiles(B, total) && 0 <= i < |B|
    ensures FIRST <= B[i].pos && B[i].len >= 1 && B[i].Past() <= total
    ensures i == |B| - 1 ==> B[i].Past() == total
    ensures i < |B| - 1 ==> B[i + 1].pos == B[i].Past()
  {
    assert B[i].len >= 1;
    if i < |B| - 1 { Order(B, total, i, |B| - 1); }
    if i > 0 { Order(B, total, 0, i); }
  }

  /** A place within the range of some blocks belongs to one of them. */
  lemma PlaceInRange(B: seq<Block>, total: nat, a: int, c: int, i: int)
    requires Tiles(B, total) && 0 <= a < c <= |B| && 0 <= i < |B|
    ensures a <= i < c <==> B[a].pos <= B[i].pos < B[c - 1].Past()
  {
    Inside(B, total, i);
    Inside(B, total, c - 1);
    if a < i { Order(B, total, a, i); }
    if i < a { Order(B, total, i, a); }
    if i < c - 1 { Order(B, total, i, c - 1); }
    if c - 1 < i { Order(B, total, c - 1, i); }
  }

  // --- re-tagging ----------------------------------------------------------------------------

  /** What the header of the block behind the replaced ones must be afterwards. */
  ghost predicate NextHeader(head: seq<int>, head2: seq<int>, B: seq<Block>, c: int, lastUsed: bool, L: bool)
    requires 0 < c < |B|
  {
    && 1 <= B[c].pos <= |head| && |head2| == |head|
    && if B[c].used then head2[B[c].pos - 1] == Tag(B[c].len, true, !lastUsed, c == |B| - 1 && L)
       else B[c - 1].used && lastUsed && head2[B[c].pos - 1] == head[B[c].pos - 1]
  }

  /** The new tags are the ones the new blocks need. */
  ghost predicate NewTags(head: seq<int>, foot: seq<int>, B: seq<Block>, a: int, c: int, N: seq<Block>, L: bool)
    requires 0 <= a < c <= |B|
  {
    var R := Replace(B, a, c, N);
    a < |R| && TaggedAt(head, foot, R, L, a) && (|N| == 2 ==> a + 1 < |R| && TaggedAt(head, foot, R, L, a + 1))
  }

  /** Headers and footers outside the lines of the replaced blocks are kept; `lo` to `hi` are those. */
  ghost predicate TagsKept(head: seq<int>, foot: seq<int>, head2: seq<int>, foot2: seq<int>, lo: nat, hi: nat) {
    && |head2| == |head| && |foot2| == |foot|
    && (forall q {:trigger head2[q]} :: 0 < q < |head| && !(lo - 1 <= q < hi) ==> head2[q] == head[q])
    && (forall q {:trigger foot2[q]} :: 0 < q < |foot| && !(lo <= q < hi) ==> foot2[q] == foot[q])
  }

  /** The tags of the i-th block, outside the replaced ones, are kept, but for the header behind them. */
  ghost predicate TagKeptAt(head: seq<int>, foot: seq<int>, head2: seq<int>, foot2: seq<int>, B: seq<Block>, c: int, i: int)
    requires 0 <= i < |B|
  {
    && 1 <= B[i].pos <= |head| && 1 <= B[i].Past() <= |foot| && |head2| == |head| && |foot2| == |foot|
    && (i != c ==> head2[B[i].pos - 1] == head[B[i].pos - 1])
    && foot2[B[i].Past() - 1] == foot[B[i].Past() - 1]
  }

  lemma TagKeptOutside(head: seq<int>, foot: seq<int>, head2: seq<int>, foot2: seq<int>, B: seq<Block>, total: nat,
                       a: int, c: int, i: int)
    requires Tiles(B, total) && 0 <= a < c <= |B| && 0 <= i < |B| && !(a <= i < c) && |head| == |foot| == total
    requires TagsKept(head, foot, head2, foot2, B[a].pos, B[c - 1].Past())
    ensures TagKeptAt(head, foot, head2, foot2, B, c, i)
  {
    Inside(B, total, i);
    if i < a { Order(B, total, i, a); } else { Order(B, total, c - 1, i); Inside(B, total, c - 1); }
    if i > c { Order(B, total, c, i); Inside(B, total, c); }
  }

  lemma TaggedOutside(head: seq<int>, foot: seq<int>, head2: seq<int>, foot2: seq<int>, B: seq<Block>,
                      a: int, c: int, N: seq<Block>, L: bool, L2: bool, i: int)
    requires Fits(B, a, c, N) && 0 <= i < |B| && !(a <= i < c) && TaggedAt(head, foot, B, L, i)
    requires TagKeptAt(head, foot, head2, foot2, B, c, i)
    requires i >= c ==> L2 == L && NextHeader(head, head2, B, c, N[|N| - 1].used, L)
    ensures var k := if i < a then i else i + |N| - (c - a);
            0 <= k < |Replace(B, a, c, N)| && TaggedAt(head2, foot2, Replace(B, a, c, N), L2, k)
  {
    var R := Replace(B, a, c, N);
    var k := if i < a then i else i + |N| - (c - a);
    ReplaceIndex(B, a, c, N);
    assert R[k] == B[i];
    if i == c { assert R[k - 1] == N[|N| - 1]; } else if i > 0 { assert R[k - 1] == B[i - 1]; }
  }

  /** Writing the tags of the new blocks, and PREVFREE of the block behind them, re-tags the arena. */
  lemma TaggedReplace(head: seq<int>, foot: seq<int>, head2: seq<int>, foot2: seq<int>, B: seq<Block>, total: nat,
                      a: int, c: int, N: seq<Block>, L: bool, L2: bool)
    requires Tiles(B, total) && Tagged(head, foot, B, L) && Fits(B, a, c, N) && |head| == |foot| == total
    requires c < |B| ==> L2 == L && NextHeader(head, head2, B, c, N[|N| - 1].used, L)
    requires NewTags(head2, foot2, B, a, c, N, L2)
    requires TagsKept(head, foot, head2, foot2, B[a].pos, B[c - 1].Past())
    ensures Tagged(head2, foot2, Replace(B, a, c, N), L2)
  {
    forall i | 0 <= i < |B| && !(a <= i < c) ensures TagKeptAt(head, foot, head2, foot2, B, c, i) {
      TagKeptOutside(head, foot, head2, foot2, B, total, a, c, i);
    }
    TaggedAll(head, foot, head2, foot2, B, a, c, N, L, L2);
  }

  lemma TaggedAll(head: seq<int>, foot: seq<int>, head2: seq<int>, foot2: seq<int>, B: seq<Block>,
                  a: int, c: int, N: seq<Block>, L: bool, L2: bool)
    requires Tagged(head, foot, B, L) && Fits(B, a, c, N)
    requires c < |B| ==> L2 == L && NextHeader(head, head2, B, c, N[|N| - 1].used, L)
    requires NewTags(head2, foot2, B, a, c, N, L2)
    requires forall i {:trigger TagKeptAt(head, foot, head2, foot2, B, c, i)} :: 0 <= i < |B| && !(a <= i < c) ==>
               TagKeptAt(head, foot, head2, foot2, B, c, i)
    ensures Tagged(head2, foot2, Replace(B, a, c, N), L2)
  {
    var R := Replace(B, a, c, N);
    var d := |N| - (c - a);
    ReplaceIndex(B, a, c, N);
    forall k | 0 <= k < |R| ensures TaggedAt(head2, foot2, R, L2, k) {
      if !(a <= k < a + |N|) {
        var i := if k < a then k else k - d;
        assert TaggedAt(head, foot, B, L, i) && TagKeptAt(head, foot, head2, foot2, B, c, i);
        TaggedOutside(head, foot, head2, foot2, B, a, c, N, L, L2, i);
      }
    }
  }

  // --- the free list -------------------------------------------------------------------------

  /** The k-th node of the ring: the guard, the free blocks in list order, the guard. */
  function Node(F: seq<nat>, k: int): nat
    requires 0 <= k <= |F| + 1
  {
    if k == 0 || k == |F| + 1 then 0 else F[k - 1]
  }

  ghost predicate NoDuplicates(F: seq<nat>) {
    forall i, j :: 0 <= i < j < |F| ==> F[i] != F[j]
  }

  ghost function At(s: seq<int>, i: int): int { if 0 <= i < |s| then s[i] else -1 }

  ghost predicate Listed(prev: seq<int>, next: seq<int>, F: seq<nat>) {
    && |prev| == |next| && |prev| >= FIRST && NoDuplicates(F)
    && (forall k {:trigger F[k]} :: 0 <= k < |F| ==> FIRST <= F[k] < |prev|)
    && (forall k {:trigger At(next, Node(F, k))} :: 0 <= k <= |F| ==> At(next, Node(F, k)) == Node(F, k + 1))
    && (forall k {:trigger At(prev, Node(F, k))} :: 1 <= k <= |F| + 1 ==> At(prev, Node(F, k)) == Node(F, k - 1))
  }

  lemma LinkAt(prev: seq<int>, next: seq<int>, F: seq<nat>, k: int)
    requires Listed(prev, next, F) && 0 <= k <= |F|
    ensures Node(F, k) < |next| && Node(F, k + 1) < |prev|
    ensures next[Node(F, k)] == Node(F, k + 1) && prev[Node(F, k + 1)] == Node(F, k)
  {
    assert At(next, Node(F, k)) == Node(F, k + 1) && At(prev, Node(F, k + 1)) == Node(F, k);
    if k > 0 { assert Node(F, k) == F[k - 1]; }
    if k < |F| { assert Node(F, k + 1) == F[k]; }
  }

  lemma ListedFrom(prev: seq<int>, next: seq<int>, F: seq<nat>)
    requires |prev| == |next| && |prev| >= FIRST && NoDuplicates(F)
    requires forall k {:trigger F[k]} :: 0 <= k < |F| ==> FIRST <= F[k] < |prev|
    requires forall k :: 0 <= k <= |F| ==> At(next, Node(F, k)) == Node(F, k + 1) && At(prev, Node(F, k + 1)) == Node(F, k)
    ensures Listed(prev, next, F)
  {
    forall k {:trigger At(prev, Node(F, k))} | 1 <= k <= |F| + 1 ensures At(prev, Node(F, k)) == Node(F, k - 1) {
      assert At(next, Node(F, k - 1)) == Node(F, k - 1 + 1);
    }
  }

  lemma NodesApart(F: seq<nat>, i: int, j: int)
    requires NoDuplicates(F) && 0 <= i <= |F| + 1 && 0 <= j <= |F| + 1
    requires forall k {:trigger F[k]} :: 0 <= k < |F| ==> FIRST <= F[k]
    ensures Node(F, i) == Node(F, j) ==> i == j || (i == 0 && j == |F| + 1) || (i == |F| + 1 && j == 0)
  {
  }

  function Without(F: seq<nat>, k: int): seq<nat>
    requires 0 <= k < |F|
  {
    F[..k] + F[k + 1..]
  }

  lemma WithoutMembers(F: seq<nat>, k: int)
    requires NoDuplicates(F) && 0 <= k < |F|
    ensures NoDuplicates(Without(F, k))
    ensures var R := Without(F, k);
            forall i {:trigger R[i]} :: 0 <= i < |R| ==> R[i] == if i < k then F[i] else F[i + 1]
    ensures forall x :: x in Without(F, k) <==> x in F && x != F[k]
  {
    var R := Without(F, k);
    assert forall i {:trigger R[i]} :: 0 <= i < |R| ==> R[i] == if i < k then F[i] else F[i + 1];
    forall x | x in F && x != F[k] ensures x in R {
      var i :| 0 <= i < |F| && F[i] == x;
      assert R[if i < k then i else i - 1] == x;
    }
  }

  /** The list without a node, and in the same order */
  function Less(F: seq<nat>, x: nat): seq<nat> {
    if F == [] then [] else Less(F[..|F| - 1], x) + if F[|F| - 1] == x then [] else [F[|F| - 1]]
  }

  lemma {:induction false} LessNone(F: seq<nat>, x: nat)
    requires x !in F
    ensures Less(F, x) == F
  {
    if F != [] { LessNone(F[..|F| - 1], x); }
  }

  lemma {:induction false} LessOne(F: seq<nat>, k: nat)
    requires NoDuplicates(F) && k < |F|
    ensures Less(F, F[k]) == Without(F, k)
  {
    var front, last := F[..|F| - 1], F[|F| - 1];
    if k == |F| - 1 {
      LessNone(front, last);
    } else {
      LessOne(front, k);
      assert Without(F, k) == Without(front, k) + [last];
    }
  }

  /** n_remove of the k-th listed block */
  lemma ListRemoveOk(prev: seq<int>, next: seq<int>, F: seq<nat>, k: int)
    requires Listed(prev, next, F) && 0 <= k < |F|
    ensures var q := F[k];
            && q < |prev| && 0 <= prev[q] < |next| && 0 <= next[q] < |prev|
            && (prev[q] == 0 || prev[q] in F) && (next[q] == 0 || next[q] in F)
            && Listed(prev[next[q] := prev[q]], next[prev[q] := next[q]], Without(F, k))
  {
    var p, n := Node(F, k), Node(F, k + 2);
    LinkAt(prev, next, F, k);
    LinkAt(prev, next, F, k + 1);
    assert Node(F, k + 1) == F[k];
    var prev2, next2 := prev[n := p], next[p := n];
    RingWithout(prev, next, prev2, next2, F, k);
  }

  lemma RingWithout(prev: seq<int>, next: seq<int>, prev2: seq<int>, next2: seq<int>, F: seq<nat>, k: int)
    requires Listed(prev, next, F) && 0 <= k < |F|
    requires var p, n := Node(F, k), Node(F, k + 2);
             p < |next| && n < |prev| && prev2 == prev[n := p] && next2 == next[p := n]
    ensures Listed(prev2, next2, Without(F, k))
  {
    var R := Without(F, k);
    WithoutMembers(F, k);
    forall i | 0 <= i <= |R|
      ensures At(next2, Node(R, i)) == Node(R, i + 1) && At(prev2, Node(R, i + 1)) == Node(R, i)
    {
      var x := if i <= k then i else i + 1;
      var y := if i + 1 <= k then i + 1 else i + 2;
      assert Node(R, i) == Node(F, x) && Node(R, i + 1) == Node(F, y);
      NodesApart(F, x, k);
      NodesApart(F, y, k + 2);
      if i != k { LinkAt(prev, next, F, x); }
    }
    ListedFrom(prev2, next2, R);
  }

  /** n_insert of a block at the end of the list */
  lemma ListInsertOk(prev: seq<int>, next: seq<int>, F: seq<nat>, q: nat)
    requires Listed(prev, next, F) && q !in F && FIRST <= q < |prev|
    ensures 0 <= prev[0] < |next| && (prev[0] == 0 || prev[0] in F)
    ensures Listed(prev[q := prev[0]][0 := q], next[q := 0][prev[0] := q], F + [q])
  {
    var R := F + [q];
    var p := Node(F, |F|);
    LinkAt(prev, next, F, |F|);
    var prev2, next2 := prev[q := p][0 := q], next[q := 0][p := q];
    assert forall i :: 0 <= i <= |F| ==> Node(R, i) == Node(F, i);
    assert Node(R, |F| + 1) == q && Node(R, |F| + 2) == 0;
    assert NoDuplicates(R);
    forall i | 0 <= i <= |R|
      ensures At(next2, Node(R, i)) == Node(R, i + 1) && At(prev2, Node(R, i + 1)) == Node(R, i)
    {
      NodesApart(R, i, |F|);
      NodesApart(R, i, |F| + 1);
      NodesApart(R, i + 1, |F| + 1);
      if i < |F| { LinkAt(prev, next, F, i); }
    }
    ListedFrom(prev2, next2, R);
  }
}
