/** kernel/memory.c: an arena and its operations, each proved against the blocks it has to leave. */
module Heap {
  import opened HeapLayout
  import opened HeapInvariant
  import opened HeapOps
  import opened HeapSteps

  class Arena {
    const mem: array<int>
    const total: nat
    ghost var M: Mem
    ghost var B: seq<Block>
    ghost var F: seq<nat>
    ghost var L: bool

    /** `M` is the memory, by lines */
    ghost predicate Coupled()
      reads `M, mem
    {
      && Sized(M, total) && mem.Length == 4 * total && total >= FIRST
      && (forall q {:trigger M.prev[q]} :: 0 <= q < total ==> M.prev[q] == mem[4 * q])
      && (forall q {:trigger M.next[q]} :: 0 <= q < total ==> M.next[q] == mem[4 * q + 1])
      && (forall q {:trigger M.foot[q]} :: 0 <= q < total ==> M.foot[q] == mem[4 * q + 2])
      && (forall q {:trigger M.head[q]} :: 0 <= q < total ==> M.head[q] == mem[4 * q + 3])
    }

    ghost predicate Valid()
      reads this, mem
    {
      Coupled() && Inv(M, B, F, L, total)
    }

    /** ar_init. Nothing ever writes the word at `end`, which has to look like the header of a used block. */
    constructor (total: nat, endWord: int)
      requires total > FIRST && endWord >= 0 && IsUsed(endWord)
      ensures Valid() && this.total == total && B == [Block(FIRST, total - FIRST, false)] && L
      ensures fresh(mem)
      ensures MinFree(M) == 0x7fff_ffff && TotalFree(M) == 16 * (total - FIRST) - 8
    {
      this.total := total;
      this.mem := new int[4 * total];
      this.B, this.F, this.L := [Block(FIRST, total - FIRST, false)], [], true;
      new;
      mem[4 * total - 1] := endWord;
      M := Mem(seq(total, q requires 0 <= q < total reads mem => mem[4 * q]),
               seq(total, q requires 0 <= q < total reads mem => mem[4 * q + 1]),
               seq(total, q requires 0 <= q < total reads mem => mem[4 * q + 2]),
               seq(total, q requires 0 <= q < total reads mem => mem[4 * q + 3]));
      Init();
    }

    method Init()
      requires Coupled() && total > FIRST && M.head[total - 1] >= 0 && IsUsed(M.head[total - 1])
      requires B == [Block(FIRST, total - FIRST, false)] && F == [] && L
      modifies mem, `M, `F
      ensures Valid()
      ensures MinFree(M) == 0x7fff_ffff && TotalFree(M) == 16 * (total - FIRST) - 8
    {
      SetPrev(0, 0);
      SetNext(0, 0);
      SetFoot(0, 4 * total - 1);
      SetHead(0, 16 * (total - FIRST) - 8);
      SetPrev(1, 0x7fff_ffff);
      BtMake(FIRST, total - FIRST, false, false, true);
      ListedFrom(M.prev, M.next, []);
      NInsert(FIRST);
      InitOk(M, F, total);
    }

    // --- single words ------------------------------------------------------------------------

    function Prev(q: nat): (w: int)
      requires Coupled() && q < total
      reads `M, mem
      ensures w == M.prev[q]
    {
      assert M.prev[q] == mem[4 * q];
      mem[4 * q]
    }

    function Next(q: nat): (w: int)
      requires Coupled() && q < total
      reads `M, mem
      ensures w == M.next[q]
    {
      assert M.next[q] == mem[4 * q + 1];
      mem[4 * q + 1]
    }

    function Foot(q: nat): (w: int)
      requires Coupled() && q < total
      reads `M, mem
      ensures w == M.foot[q]
    {
      assert M.foot[q] == mem[4 * q + 2];
      mem[4 * q + 2]
    }

    function Head(q: nat): (w: int)
      requires Coupled() && q < total
      reads `M, mem
      ensures w == M.head[q]
    {
      assert M.head[q] == mem[4 * q + 3];
      mem[4 * q + 3]
    }

    method SetPrev(q: nat, w: int)
      requires Coupled() && q < total
      modifies mem, `M
      ensures Coupled() && M == old(M).(prev := old(M).prev[q := w])
    {
      mem[4 * q] := w;
      M := M.(prev := M.prev[q := w]);
    }

    method SetNext(q: nat, w: int)
      requires Coupled() && q < total
      modifies mem, `M
      ensures Coupled() && M == old(M).(next := old(M).next[q := w])
    {
      mem[4 * q + 1] := w;
      M := M.(next := M.next[q := w]);
    }

    method SetFoot(q: nat, w: int)
      requires Coupled() && q < total
      modifies mem, `M
      ensures Coupled() && M == old(M).(foot := old(M).foot[q := w])
    {
      mem[4 * q + 2] := w;
      M := M.(foot := M.foot[q := w]);
    }

    method SetHead(q: nat, w: int)
      requires Coupled() && q < total
      modifies mem, `M
      ensures Coupled() && M == old(M).(head := old(M).head[q := w])
    {
      mem[4 * q + 3] := w;
      M := M.(head := M.head[q := w]);
    }

    // --- tags and nodes ----------------------------------------------------------------------

    /** bt_make, for the block with memory at line p */
    method BtMake(p: nat, len: nat, used: bool, prevFree: bool, last: bool)
      requires Coupled() && 1 <= p && 1 <= len && p + len <= total
      modifies mem, `M
      ensures Coupled() && M.prev == old(M).prev && M.next == old(M).next
      ensures M.head == old(M).head[p - 1 := Tag(len, used, prevFree, last)]
      ensures M.foot == old(M).foot[p + len - 1 := if used then CANARY else Tag(len, used, prevFree, last)]
      ensures TagsKept(old(M).head, old(M).foot, M.head, M.foot, p, p + len)
    {
      var val := Tag(len, used, prevFree, last);
      SetHead(p - 1, val);
      SetFoot(p + len - 1, if used then CANARY else val);
    }

    /** n_insert */
    method NInsert(q: nat)
      requires Coupled() && Listed(M.prev, M.next, F) && q !in F && FIRST <= q < total
      modifies mem, `M, `F
      ensures Coupled() && Listed(M.prev, M.next, F) && F == old(F) + [q]
      ensures M.head == old(M).head && M.foot == old(M).foot
      ensures MinFree(M) == MinFree(old(M))
      ensures NodesKept(old(M).prev, old(M).next, M.prev, M.next, old(F), q, q + 1)
    {
      ListInsertOk(M.prev, M.next, F, q);
      var prev := Prev(0);
      SetNext(q, 0);
      SetPrev(q, prev);
      SetNext(prev, q);
      SetPrev(0, q);
      F := F + [q];
    }

    /** n_remove of the k-th listed block */
    method NRemove(q: nat, ghost k: nat)
      requires Coupled() && Listed(M.prev, M.next, F) && k < |F| && F[k] == q
      modifies mem, `M, `F
      ensures Coupled() && Listed(M.prev, M.next, F) && F == Without(old(F), k)
      ensures M.head == old(M).head && M.foot == old(M).foot
      ensures MinFree(M) == MinFree(old(M))
      ensures NodesKept(old(M).prev, old(M).next, M.prev, M.next, old(F), 0, 0)
    {
      ListRemoveOk(M.prev, M.next, F, k);
      var prev, next := Prev(q), Next(q);
      SetNext(prev, next);
      SetPrev(next, prev);
      F := Without(F, k);
    }

    /** ar_dec_free */
    method DecFree(sz: int)
      requires Coupled() && Listed(M.prev, M.next, F)
      modifies mem, `M
      ensures Coupled() && Listed(M.prev, M.next, F) && M.next == old(M).next && M.foot == old(M).foot
      ensures M.head == old(M).head[0 := old(M).head[0] - sz]
      ensures NodesKept(old(M).prev, old(M).next, M.prev, M.next, F, 0, 0)
      ensures M.prev == old(M).prev[1 := if old(M).head[0] - sz < old(M).prev[1] then old(M).head[0] - sz else old(M).prev[1]]
    {
      ghost var prev := M.prev;
      SetHead(0, Head(0) - sz);
      if Head(0) < Prev(1) {
        SetPrev(1, Head(0));
      } else {
        assert M.prev == prev[1 := prev[1]];
      }
      MinFreeApart(prev, M.prev[1], M.prev, M.next, F);
    }

    /** find_fit: the first listed block that is large enough */
    method FindFit(r: nat) returns (p: nat, ghost k: nat)
      requires Valid()
      ensures p == 0 ==> forall j {:trigger F[j]} :: 0 <= j < |F| ==> SizeAt(M, F[j]) < 16 * r
      ensures p != 0 ==> k < |F| && F[k] == p && SizeAt(M, p) >= 16 * r
      ensures p != 0 ==> FirstFit(M, F, p, r)
    {
      LinkAt(M.prev, M.next, F, 0);
      p := Next(0);
      k := 0;
      while p != 0
        invariant k <= |F| && p == Node(F, k + 1)
        invariant forall j {:trigger F[j]} :: 0 <= j < k ==> SizeAt(M, F[j]) < 16 * r
        decreases |F| - k
      {
        if SizeOf(Head(p - 1)) >= 16 * r { return; }
        LinkAt(M.prev, M.next, F, k + 1);
        p := Next(p);
        k := k + 1;
      }
    }

    // --- malloc ------------------------------------------------------------------------------

    /** ar_malloc. The block is the first one in the free list that is large enough; no memory is
        refused unless every free block is too small. If the rounding wraps to zero, the pointer is to a
        block that stays free; and if that is the last one, its header loses ISLAST and differs from its
        footer. */
    method Malloc(size: nat) returns (p: nat, ghost i: nat)
      requires Valid() && size < 0x1_0000_0000
      modifies mem, `M, `B, `F
      ensures p == 0 ==> Valid() && mem[..] == old(mem[..]) && M == old(M) && B == old(B) && F == old(F)
      ensures p == 0 ==> forall b {:trigger b in B} :: b in B && !b.used ==> 16 * b.len < BlockBytes(size)
      ensures p != 0 ==> i < |old(B)| && !old(B)[i].used && old(B)[i].pos == p && 16 * old(B)[i].len >= BlockBytes(size)
      ensures p != 0 ==> FirstFit(old(M), old(F), p, BlockBytes(size) / 16)
      ensures p != 0 ==> Recorded(old(M), M)
      ensures p != 0 && BlockBytes(size) != 0 ==> F == Less(old(F), p) + if 16 * old(B)[i].len > BlockBytes(size) then [p + BlockBytes(size) / 16] else []
      ensures p != 0 && BlockBytes(size) != 0 ==> Valid() && B == Allocated(old(B), i, BlockBytes(size) / 16)
      ensures p != 0 && BlockBytes(size) != 0 ==> OthersKept(old(M), M, old(B), B, i, i + 1)
      ensures p != 0 && BlockBytes(size) == 0 ==> B == old(B) && (Valid() <==> !(i + 1 == |B| && L)) && (!Valid() ==> Mismatch(M, B[i]))
    {
      hide Inv, FirstFit, Mismatch, Allocated, OthersKept, Recorded, Less, BlockBytes;
      BlockBytesExact(size);
      if BlockBytes(size) == 0 {
        p, i := TakeNone();
      } else {
        p, i := Take(BlockBytes(size) / 16);
      }
    }

    /** ar_malloc, for a request that was rounded to zero */
    method TakeNone() returns (p: nat, ghost i: nat)
      requires Valid()
      modifies mem, `M, `F
      ensures p == 0 ==> Valid() && mem[..] == old(mem[..]) && M == old(M) && F == old(F)
      ensures p == 0 ==> forall b {:trigger b in B} :: b in B ==> b.used
      ensures p != 0 ==> i < |B| && !B[i].used && B[i].pos == p && FirstFit(old(M), old(F), p, 0)
      ensures p != 0 ==> Recorded(old(M), M)
      ensures p != 0 ==> F == Less(old(F), p) + [p]
      ensures p != 0 ==> (Valid() <==> !(i + 1 == |B| && L)) && (!Valid() ==> Mismatch(M, B[i]))
    {
      hide Inv, FirstFit, Mismatch;
      ghost var k;
      p, k := FindFit(0);
      i := 0;
      if p == 0 {
        NoneFits(M, B, F, L, total, 0);
      } else {
        ghost var M0, F0 := M, F;
        i := ListedBlock(M, B, F, L, total, k);
        TagFields(B[i].len, false, false, i == |B| - 1 && L);
        ListedNow(k);
        var isLast, n := HasIsLast(Head(p - 1)), SizeOf(Head(p - 1)) / 16;
        ListOrder(k);
        MoveNone(p, n, isLast, k);
        NoneTakenOk(M0, M, B, F0, F, L, total, i, k);
      }
    }

    lemma ListOrder(k: nat)
      requires Valid() && k < |F|
      ensures Less(F, F[k]) == Without(F, k)
    {
      LessOne(F, k);
    }

    lemma ListedNow(k: nat)
      requires Valid() && k < |F|
      ensures Listed(M.prev, M.next, F)
    {
    }

    method MoveNone(p: nat, n: nat, isLast: bool, ghost k: nat)
      requires Coupled() && Listed(M.prev, M.next, F) && k < |F| && F[k] == p && FIRST <= p && 1 <= n && p + n <= total
      modifies mem, `M, `F
      ensures Coupled() && Listed(M.prev, M.next, F) && F == Without(old(F), k) + [p]
      ensures M.head == old(M).head[p - 1 := Tag(n, false, false, false)][0 := At(old(M).head, 0)]
      ensures M.foot == old(M).foot[p - 1 := CANARY][p + n - 1 := Tag(n, false, false, isLast)]
      ensures Recorded(old(M), M)
    {
      WithoutMembers(F, k);
      NRemove(p, k);
      // bt_make with size 0: the footer is the word in front of the header, and the next block is this one.
      SetHead(p - 1, Tag(0, true, false, isLast));
      SetFoot(p - 1, CANARY);
      BtMake(p, n, false, false, isLast);
      TagFields(n, false, false, isLast);
      SetHead(p - 1, ClearIsLast(Head(p - 1)));
      NInsert(p);
      DecFree(0);
    }

    /** ar_malloc, for a request of `r` lines */
    method Take(r: nat) returns (p: nat, ghost i: nat)
      requires Valid() && r >= 1
      modifies mem, `M, `B, `F
      ensures Valid()
      ensures p == 0 ==> mem[..] == old(mem[..]) && M == old(M) && B == old(B) && F == old(F)
      ensures p == 0 ==> forall b {:trigger b in B} :: b in B && !b.used ==> b.len < r
      ensures p != 0 ==> i < |old(B)| && !old(B)[i].used && old(B)[i].pos == p && old(B)[i].len >= r
      ensures p != 0 ==> B == Allocated(old(B), i, r) && OthersKept(old(M), M, old(B), B, i, i + 1)
      ensures p != 0 ==> FirstFit(old(M), old(F), p, r)
      ensures p != 0 ==> Recorded(old(M), M)
      ensures p != 0 ==> F == Less(old(F), p) + if old(B)[i].len > r then [p + r] else []
    {
      ghost var k;
      p, k := FindFit(r);
      i := 0;
      if p == 0 {
        NoneFits(M, B, F, L, total, r);
      } else {
        i := ListedBlock(M, B, F, L, total, k);
        TagFields(B[i].len, false, false, i == |B| - 1 && L);
        var isLast, n := HasIsLast(Head(p - 1)), SizeOf(Head(p - 1)) / 16;
        if n > r {
          TakePart(p, n, r, isLast, k, i);
        } else {
          TakeWhole(p, n, isLast, k, i);
        }
      }
    }

    /** The first `r` of the `n` free lines at `p` become a used block, the others stay free. */
    method TakePart(p: nat, n: nat, r: nat, isLast: bool, ghost k: nat, ghost i: nat)
      requires Valid() && k < |F| && i < |B| && F[k] == p && B[i] == Block(p, n, false) && 1 <= r < n
      requires isLast == (i + 1 == |B| && L)
      modifies mem, `M, `B, `F
      ensures Valid() && B == Allocated(old(B), i, r) && OthersKept(old(M), M, old(B), B, i, i + 1)
      ensures Recorded(old(M), M)
      ensures F == Less(old(F), p) + [p + r]
    {
      ghost var M0, F0 := M, F;
      NewPlace(M, B, F, L, total, i, p + r, k);
      LessOne(F, k);
      MovePart(p, n, r, isLast, k);
      AllocatedPartOk(M0, M, B, F0, F, L, total, i, k, r);
      B := Allocated(B, i, r);
    }

    method MovePart(p: nat, n: nat, r: nat, isLast: bool, ghost k: nat)
      requires Coupled() && Listed(M.prev, M.next, F) && k < |F| && F[k] == p && p + r !in Without(F, k)
      requires FIRST <= p && 1 <= r < n && p + n <= total
      modifies mem, `M, `F
      ensures Coupled() && F == Without(old(F), k) + [p + r] && PartTaken(old(M), M, old(F), F, p, n, r, false, isLast, 16 * r)
      ensures Recorded(old(M), M)
    {
      ghost var M0, F0 := M, F;
      NRemove(p, k);
      ghost var M1, F1 := M, F;
      PartTags(p, n, r, isLast);
      NInsert(p + r);
      ghost var M2 := M;
      DecFree(16 * r);
      NodesMoved(M0, M1, M2, M, F0, k, [p + r], p, p + n);
    }

    method PartTags(p: nat, n: nat, r: nat, isLast: bool)
      requires Coupled() && FIRST <= p && 1 <= r < n && p + n <= total
      modifies mem, `M
      ensures Coupled() && M.prev == old(M).prev && M.next == old(M).next
      ensures M.head == old(M).head[p - 1 := Tag(r, true, false, false)][p + r - 1 := Tag(n - r, false, false, isLast)]
      ensures M.foot == old(M).foot[p + r - 1 := CANARY][p + n - 1 := Tag(n - r, false, false, isLast)]
    {
      BtMake(p, r, true, false, isLast);
      BtMake(p + r, n - r, false, false, isLast);
      TagFields(r, true, false, isLast);
      SetHead(p - 1, ClearIsLast(Head(p - 1)));
    }

    /** The `n` free lines at `p` become a used block. */
    method TakeWhole(p: nat, n: nat, isLast: bool, ghost k: nat, ghost i: nat)
      requires Valid() && k < |F| && i < |B| && F[k] == p && B[i] == Block(p, n, false)
      requires isLast == (i + 1 == |B| && L)
      modifies mem, `M, `B, `F
      ensures Valid() && B == Allocated(old(B), i, n) && OthersKept(old(M), M, old(B), B, i, i + 1)
      ensures Recorded(old(M), M)
      ensures F == Less(old(F), p)
    {
      ghost var M0, F0 := M, F;
      HeaderOf(M, B, F, L, total, i);
      LessOne(F, k);
      MoveWhole(p, n, isLast, k);
      AllocatedWholeOk(M0, M, B, F0, F, L, total, i, k);
      B := Allocated(B, i, n);
    }

    method MoveWhole(p: nat, n: nat, isLast: bool, ghost k: nat)
      requires Coupled() && Listed(M.prev, M.next, F) && k < |F| && F[k] == p && FIRST <= p && 1 <= n && p + n <= total
      modifies mem, `M, `F
      ensures Coupled() && F == Without(old(F), k) && WholeTaken(old(M), M, old(F), F, p, n, false, isLast, !isLast, 16 * n - 8)
      ensures Recorded(old(M), M)
    {
      ghost var M0, F0 := M, F;
      NRemove(p, k);
      ghost var M1 := M;
      WholeTags(p, n, isLast);
      ghost var M2 := M;
      DecFree(16 * n - 8);
      NodesMoved(M0, M1, M2, M, F0, k, [], p, p + n);
    }

    method WholeTags(p: nat, n: nat, isLast: bool)
      requires Coupled() && FIRST <= p && 1 <= n && p + n <= total
      modifies mem, `M
      ensures Coupled() && M.prev == old(M).prev && M.next == old(M).next
      ensures M.head == old(M).head[p - 1 := Tag(n, true, false, isLast)]
                                   [p + n - 1 := if isLast then old(M).head[p + n - 1] else ClearPrevFree(old(M).head[p + n - 1])]
      ensures M.foot == old(M).foot[p + n - 1 := CANARY]
    {
      BtMake(p, n, true, false, isLast);
      if !isLast {
        SetHead(p + n - 1, ClearPrevFree(Head(p + n - 1)));
      }
    }

    // --- free --------------------------------------------------------------------------------

    /** ar_free: the block and its free neighbours become one free block. The caller passes a pointer
        to a used block; `i` is its place among the blocks. */
    method Free(p: nat, ghost i: nat)
      requires Valid() && i < |B| && B[i].used && B[i].pos == p
      modifies mem, `M, `B, `F
      ensures Valid() && B == Freed(old(B), i)
      ensures OthersKept(old(M), M, old(B), B, MergeFrom(old(B), i), MergeTo(old(B), i))
      ensures var lo := old(B)[MergeFrom(old(B), i)].pos;
              F == Less(if FreeBehind(old(B), i) then Less(old(F), old(B)[i].Past()) else old(F), lo) + [lo]
      ensures MinFree(M) == MinFree(old(M))
    {
      hide Inv, OthersKept, Merged, Mergeable, Freed, Listed, Less;
      ghost var M0, F0 := M, F;
      ghost var lo, hi, behind, before := FreeingFacts(M, B, F, L, total, i);
      Merge(p, B[i].len, i + 1 == |B| && L, MergeTo(B, i) == |B| && L, lo, hi, behind, before);
      FreeOk(M0, M, B, F0, F, L, total, i, lo, hi);
      B := Freed(B, i);
    }

    /** The body of ar_free, for a block that ends up as part of a free one from `lo` to `hi`. */
    method Merge(p: nat, ghost n: nat, ghost last: bool, ghost last2: bool, ghost lo: nat, ghost hi: nat,
                 ghost behind: nat, ghost before: nat)
      requires Coupled() && Listed(M.prev, M.next, F)
      requires Mergeable(M, F, p, n, last, last2, lo, hi, behind, before)
      modifies mem, `M, `F
      ensures Coupled() && Merged(old(M), M, old(F), F, p, n, last2, lo, hi)
      ensures F == Less(if hi == p + n then old(F) else Less(old(F), p + n), lo) + [lo]
      ensures MinFree(M) == MinFree(old(M))
    {
      ghost var M0, F0 := M, F;
      var bt, memsz, M1, F1, k1 := MergeBoth(p, n, last, last2, lo, hi, behind, before);
      ghost var M2, F2 := M, F;
      LeftList(F0, F1, F2, p, n, lo, hi, behind, k1);
      LeftOrder(F0, F1, F2, p, n, lo, hi, behind, k1);
      SetHead(0, Head(0) + memsz);
      NInsert(bt);
      FreeNodes(M0, M1, M2, M, F0, F1, F2, lo, hi);
      MergedTags(M0, M1, M2, M, p, n, lo, hi, last, last2, memsz);
    }

    method MergeBoth(p: nat, ghost n: nat, ghost last: bool, ghost last2: bool, ghost lo: nat, ghost hi: nat,
                     ghost behind: nat, ghost before: nat)
      returns (bt: nat, memsz: int, ghost M1: Mem, ghost F1: seq<nat>, ghost k1: nat)
      requires Coupled() && Listed(M.prev, M.next, F)
      requires Mergeable(M, F, p, n, last, last2, lo, hi, behind, before)
      modifies mem, `M, `F
      ensures Coupled() && Listed(M.prev, M.next, F) && bt == lo
      ensures MinFree(M) == MinFree(old(M))
      ensures memsz == 16 * n - 8 + (if hi == p + n then 0 else 8) + (if lo == p then 0 else 8)
      ensures NextMerged(old(M), M1, p, n, hi, lo < p, last, last2) && PrevMerged(M1, M, p, lo, hi, last2)
      ensures NodesKept(old(M).prev, old(M).next, M1.prev, M1.next, old(F), 0, 0)
      ensures NodesKept(M1.prev, M1.next, M.prev, M.next, F1, 0, 0)
      ensures if hi == p + n then F1 == old(F) else F1 == Without(old(F), behind)
      ensures if lo == p then F == F1 else k1 < |F1| && F1[k1] == lo && F == Without(F1, k1)
    {
      hide Tag;
      ghost var F0 := F;
      TagFields(n, true, lo < p, last);
      assert IsUsed(Head(p - 1)) && Foot(p + SizeOf(Head(p - 1)) / 16 - 1) == CANARY;
      var sz;
      sz, memsz := MergeNext(p, lo < p, last, last2, n, hi, behind);
      M1, F1 := M, F;
      k1 := IndexAfter(F0, F, hi == p + n, behind, lo, before, lo < p);
      TagFields(sz, false, lo < p, last2);
      bt := p;
      if HasPrevFree(Head(p - 1)) {
        bt, sz, memsz := MergePrev(p, sz, memsz, last2, lo, k1);
      }
    }

    /** The first half of ar_free: mark the block free, and take in a free block behind it, which
        starts at `p + n` and ends at `hi`. */
    method MergeNext(p: nat, ghost prevFree: bool, ghost last: bool, ghost last2: bool, ghost n: nat, ghost hi: nat, ghost k: nat)
      returns (sz: nat, memsz: int)
      requires Coupled() && Listed(M.prev, M.next, F) && FIRST <= p && 1 <= n && p + n <= hi <= total
      requires M.head[p - 1] == Tag(n, true, prevFree, last)
      requires if hi == p + n then IsUsed(M.head[hi - 1]) && last2 == last
               else k < |F| && F[k] == p + n && M.head[p + n - 1] == Tag(hi - p - n, false, false, last2)
      modifies mem, `M, `F
      ensures Coupled() && Listed(M.prev, M.next, F) && sz == hi - p && memsz == 16 * n - 8 + (if hi == p + n then 0 else 8)
      ensures MinFree(M) == MinFree(old(M))
      ensures F == if hi == p + n then old(F) else Without(old(F), k)
      ensures NodesKept(old(M).prev, old(M).next, M.prev, M.next, old(F), 0, 0)
      ensures NextMerged(old(M), M, p, n, hi, prevFree, last, last2)
    {
      TagFields(n, true, prevFree, last);
      memsz := SizeOf(Head(p - 1)) - 8;
      sz := SizeOf(Head(p - 1)) / 16;
      BtMake(p, sz, false, HasPrevFree(Head(p - 1)), HasIsLast(Head(p - 1)));
      var next := p + sz;
      TagFields(hi - p - n, false, false, last2);
      if !IsUsed(Head(next - 1)) {
        sz := TakeNext(p, prevFree, last, last2, sz, hi, k);
        memsz := memsz + 8;
      } else {
        SetHead(next - 1, SetPrevFree(Head(next - 1)));
      }
    }

    method TakeNext(p: nat, ghost prevFree: bool, ghost last: bool, ghost last2: bool, n: nat, ghost hi: nat,
                    ghost k: nat) returns (sz: nat)
      requires Coupled() && Listed(M.prev, M.next, F) && FIRST <= p && 1 <= n && p + n < hi <= total
      requires M.head[p - 1] == Tag(n, false, prevFree, last)
      requires k < |F| && F[k] == p + n && M.head[p + n - 1] == Tag(hi - p - n, false, false, last2)
      modifies mem, `M, `F
      ensures Coupled() && Listed(M.prev, M.next, F) && sz == hi - p && F == Without(old(F), k)
      ensures MinFree(M) == MinFree(old(M))
      ensures NodesKept(old(M).prev, old(M).next, M.prev, M.next, old(F), 0, 0)
      ensures M.head == old(M).head[p - 1 := Tag(hi - p, false, prevFree, last2)]
      ensures M.foot == old(M).foot[hi - 1 := Tag(hi - p, false, prevFree, last2)]
    {
      TagFields(n, false, prevFree, last);
      TagFields(hi - p - n, false, false, last2);
      var next := p + n;
      NRemove(next, k);
      sz := n + SizeOf(Head(next - 1)) / 16;
      BtMake(p, sz, false, HasPrevFree(Head(p - 1)), HasIsLast(Head(next - 1)));
    }

    /** The second half of ar_free: the free block at `lo`, in front of the freed one, takes it in. */
    method MergePrev(p: nat, size: nat, memsize: int, ghost last: bool, ghost lo: nat, ghost k: nat)
      returns (bt: nat, sz: nat, memsz: int)
      requires Coupled() && Listed(M.prev, M.next, F) && FIRST <= lo < p && 1 <= size && p + size <= total
      requires M.head[p - 1] == Tag(size, false, true, last) && M.foot[p - 1] == Tag(p - lo, false, false, false)
      requires k < |F| && F[k] == lo
      modifies mem, `M, `F
      ensures Coupled() && Listed(M.prev, M.next, F) && bt == lo && sz == p + size - lo && memsz == memsize + 8
      ensures MinFree(M) == MinFree(old(M))
      ensures F == Without(old(F), k)
      ensures NodesKept(old(M).prev, old(M).next, M.prev, M.next, old(F), 0, 0)
      ensures M.head == old(M).head[lo - 1 := Tag(p + size - lo, false, false, last)]
      ensures M.foot == old(M).foot[p + size - 1 := Tag(p + size - lo, false, false, last)]
    {
      TagFields(p - lo, false, false, false);
      TagFields(size, false, true, last);
      bt := p - SizeOf(Foot(p - 1)) / 16;
      NRemove(bt, k);
      sz := size + SizeOf(Foot(p - 1)) / 16;
      BtMake(bt, sz, false, false, HasIsLast(Head(p - 1)));
      memsz := memsize + 8;
    }

    // --- realloc -----------------------------------------------------------------------------

    /** ar_realloc of the i-th block. It fails only if the free lines behind the block do not make up
        for what is missing. What fits of the old contents is kept. If the rounding wraps to zero, the pointer is
        returned and its block has been freed; or, exactly if there is a free block in front of it, ar_free
        would be called on an arena that is `damaged`. */
    method Realloc(p: nat, size: nat, ghost i: nat) returns (q: nat, damaged: bool)
      requires Valid() && i < |B| && B[i].used && B[i].pos == p && size < 0x1_0000_0000
      modifies mem, `M, `B, `F, `L
      ensures damaged <==> !Valid()
      ensures damaged <==> BlockBytes(size) == 0 && FreeBefore(old(B), i)
      ensures damaged ==> Mismatch(M, old(B)[i - 1])
      ensures BlockBytes(size) == 0 ==> q == p && L == old(L)
      ensures BlockBytes(size) != 0 ==> F == ListAfter(old(F), old(B), i, BlockBytes(size) / 16)
      ensures if !damaged && BlockBytes(size) != 0 && BlockBytes(size) / 16 > old(B)[i].len && q != 0 then Recorded(old(M), M) else MinFree(M) == MinFree(old(M))
      ensures BlockBytes(size) == 0 && !damaged ==>
                B == Freed(old(B), i) && OthersKept(old(M), M, old(B), B, MergeFrom(old(B), i), MergeTo(old(B), i))
      ensures BlockBytes(size) != 0 ==>
                var r, b := BlockBytes(size) / 16, old(B)[i];
                && r >= 1 && q == (if r <= b.len || CanGrow(old(B), i, r) then p else 0)
                && B == Reallocated(old(B), i, r) && L == LastAfter(old(B), i, r, old(L))
                && (q == 0 || r == b.len ==> mem[..] == old(mem[..]) && M == old(M) && F == old(F))
                && (q != 0 ==> SameData(old(M), M, Block(p, if r < b.len then r else b.len, true)))
                && OthersKept(old(M), M, old(B), B, i, i + 1)
    {
      BlockBytesExact(size);
      if BlockBytes(size) == 0 {
        damaged := ResizeNone(p, i);
        q := p;
      } else {
        damaged := false;
        q := Resize(p, BlockBytes(size) / 16, i);
      }
    }

    /** ar_realloc, for a request that was rounded to zero */
    method ResizeNone(p: nat, ghost i: nat) returns (damaged: bool)
      requires Valid() && i < |B| && B[i].used && B[i].pos == p
      modifies mem, `M, `B, `F
      ensures damaged <==> !Valid()
      ensures damaged <==> FreeBefore(old(B), i)
      ensures damaged ==> Mismatch(M, old(B)[i - 1])
      ensures MinFree(M) == MinFree(old(M))
      ensures !damaged ==> B == Freed(old(B), i) && OthersKept(old(M), M, old(B), B, MergeFrom(old(B), i), MergeTo(old(B), i))
    {
      hide Inv, OthersKept, Freed, Tag, Mismatch;
      ghost var M0, n := M, B[i].len;
      HeaderFacts(M, B, F, L, total, i);
      OwnTags(M, B, F, L, total, i);
      TagFields(n, true, FreeBefore(B, i), i + 1 == |B| && L);
      damaged := HasPrevFree(Head(p - 1));
      NoneTags(p, n, damaged, i + 1 == |B| && L);
      ghost var M1, B1 := M, B;
      NoneHalvedOk(M0, M, B, F, L, total, i);
      if !damaged {
        Free(p, i);
        NoneKept(M0, M1, M, B1, B, total, i);
      }
    }

    method NoneTags(p: nat, ghost n: nat, prevFree: bool, ghost last: bool)
      requires Coupled() && FIRST <= p && 1 <= n && p + n <= total && M.head[p - 1] == Tag(n, true, prevFree, last)
      modifies mem, `M
      ensures Coupled() && M.prev == old(M).prev && M.next == old(M).next
      ensures M.head == old(M).head[p - 1 := Tag(n, true, false, last)]
      ensures M.foot == old(M).foot[p - 1 := CANARY][p + n - 1 := CANARY]
      ensures MinFree(M) == MinFree(old(M))
    {
      TagFields(n, true, prevFree, last);
      var isLast, sz := HasIsLast(Head(p - 1)), SizeOf(Head(p - 1));
      // bt_make with size 0: the footer is the word in front of the header, and the next block is this one.
      SetHead(p - 1, Tag(0, true, prevFree, false));
      SetFoot(p - 1, CANARY);
      BtMake(p, sz / 16, true, false, isLast);
    }

    /** ar_realloc, for a request of `r` lines */
    method Resize(p: nat, r: nat, ghost i: nat) returns (q: nat)
      requires Valid() && i < |B| && B[i].used && B[i].pos == p && r >= 1
      modifies mem, `M, `B, `F, `L
      ensures Valid()
      ensures q == (if r <= old(B)[i].len || CanGrow(old(B), i, r) then p else 0)
      ensures F == ListAfter(old(F), old(B), i, r)
      ensures if q != 0 && r > old(B)[i].len then Recorded(old(M), M) else MinFree(M) == MinFree(old(M))
      ensures B == Reallocated(old(B), i, r) && L == LastAfter(old(B), i, r, old(L))
      ensures q == 0 || r == old(B)[i].len ==> mem[..] == old(mem[..]) && M == old(M) && F == old(F)
      ensures q != 0 ==> SameData(old(M), M, Block(p, if r < old(B)[i].len then r else old(B)[i].len, true))
      ensures OthersKept(old(M), M, old(B), B, i, i + 1)
    {
      hide Inv, OthersKept, Listed, Grown, Shrunk;
      HeaderFacts(M, B, F, L, total, i);
      NothingMoved(M, B, i);
      var n := SizeOf(Head(p - 1)) / 16;
      if r == n { return p; }
      if r < n {
        ghost var R := Reallocated(B, i, r);
        assert R == Shrunk(B, i, r);
        Shrink(p, n, r, i);
        return p;
      }
      if !IsUsed(Head(p + n - 1)) {
        NextFacts(M, B, F, L, total, i);
        var m := SizeOf(Head(p + n - 1)) / 16;
        if n + m >= r {
          ghost var R := Reallocated(B, i, r);
          assert R == Grown(B, i, r);
          Grow(p, n, m, r, i);
          return p;
        }
      }
      return 0;
    }

    /** The `n` lines at `p` shrink to `r`. */
    method Shrink(p: nat, n: nat, r: nat, ghost i: nat)
      requires Valid() && i < |B| && B[i] == Block(p, n, true) && 1 <= r < n
      modifies mem, `M, `B, `F
      ensures Valid() && B == Shrunk(old(B), i, r)
      ensures F == ListAfter(old(F), old(B), i, r)
      ensures MinFree(M) == MinFree(old(M))
      ensures SameData(old(M), M, Block(p, r, true)) && OthersKept(old(M), M, old(B), B, i, i + 1)
    {
      hide Inv, OthersKept, Cut, Freed, SameData, Less;
      ghost var M0, B0 := M, B;
      HalveBlock(p, n, r, i);
      ghost var M1, B1 := M, B;
      CutIndex(B0, i, r);
      CutNeighbours(B0, i, r);
      Free(p + r, i + 1);
      ShrunkKeeps(M0, M1, M, B0, B, F, L, total, i, r);
    }

    /** The `n` lines at `p` become two used blocks. */
    method HalveBlock(p: nat, n: nat, r: nat, ghost i: nat)
      requires Valid() && i < |B| && B[i] == Block(p, n, true) && 1 <= r < n
      modifies mem, `M, `B
      ensures Valid() && B == Cut(old(B), i, r)
      ensures MinFree(M) == MinFree(old(M))
      ensures SameData(old(M), M, Block(p, r, true)) && OthersKept(old(M), M, old(B), B, i, i + 1)
    {
      hide Inv, OthersKept, Cut, Listed, SameData, Tag, FreeBefore;
      ghost var M0 := M;
      HeaderFacts(M, B, F, L, total, i);
      OwnTags(M, B, F, L, total, i);
      HalfTags(p, n, r, FreeBefore(B, i), i + 1 == |B| && L);
      HalvedOk(M0, M, B, F, L, total, i, r);
      B := Cut(B, i, r);
    }

    method HalfTags(p: nat, n: nat, r: nat, ghost prevFree: bool, ghost last: bool)
      requires Coupled() && FIRST <= p && 1 <= r < n && p + n <= total && M.head[p - 1] == Tag(n, true, prevFree, last)
      requires M.foot[p + n - 1] == CANARY
      modifies mem, `M
      ensures Coupled() && M.prev == old(M).prev && M.next == old(M).next
      ensures M.head == old(M).head[p - 1 := Tag(r, true, prevFree, false)][p + r - 1 := Tag(n - r, true, false, last)]
      ensures M.foot == old(M).foot[p + r - 1 := CANARY][p + n - 1 := CANARY]
    {
      TagFields(n, true, prevFree, last);
      var isLast := HasIsLast(Head(p - 1));
      BtMake(p, r, true, HasPrevFree(Head(p - 1)), false);
      BtMake(p + r, n - r, true, false, isLast);
    }

    /** The block of `n` lines at `p` takes what it needs from the `m` free lines behind it. */
    method Grow(p: nat, n: nat, m: nat, r: nat, ghost i: nat)
      requires Valid() && i + 1 < |B| && B[i] == Block(p, n, true) && B[i + 1] == Block(p + n, m, false) && n < r <= n + m
      modifies mem, `M, `B, `F, `L
      ensures Valid() && B == Grown(old(B), i, r) && L == LastAfter(old(B), i, r, old(L))
      ensures F == ListAfter(old(F), old(B), i, r)
      ensures Recorded(old(M), M)
      ensures SameData(old(M), M, Block(p, n, true)) && OthersKept(old(M), M, old(B), B, i, i + 1)
    {
      ghost var k := PlaceInList(M, B, F, L, total, i + 1);
      if n + m > r {
        GrowPart(p, n, m, r, k, i);
      } else {
        GrowWhole(p, n, m, k, i);
      }
    }

    method GrowPart(p: nat, n: nat, m: nat, r: nat, ghost k: nat, ghost i: nat)
      requires Valid() && i + 1 < |B| && B[i] == Block(p, n, true) && B[i + 1] == Block(p + n, m, false) && n < r < n + m
      requires k < |F| && F[k] == p + n
      modifies mem, `M, `B, `F
      ensures Valid() && B == Grown(old(B), i, r)
      ensures F == Less(old(F), p + n) + [p + r]
      ensures Recorded(old(M), M)
      ensures SameData(old(M), M, Block(p, n, true)) && OthersKept(old(M), M, old(B), B, i, i + 1)
    {
      hide Inv, Grown, OthersKept, SameData, PartTaken, NodesKept, Listed, Tag, FreeBefore, Without;
      ghost var M0, F0, last := M, F, i + 2 == |B| && L;
      GrowFacts(M, B, F, L, total, i);
      NewPlace(M, B, F, L, total, i + 1, p + r, k);
      ListOrder(k);
      MoveGrowPart(p, n, m, r, k, FreeBefore(B, i), last);
      ghost var R := Grown(B, i, r);
      GrowPartOk(M0, M, B, F0, F, L, total, i, k, r);
      B := R;
    }

    method GrowTags(p: nat, n: nat, len: nat, r: nat, isLast: bool, ghost prevFree: bool)
      requires Coupled() && FIRST <= p && 1 <= r < len && p + len <= total && M.head[p - 1] == Tag(n, true, prevFree, false)
      modifies mem, `M
      ensures Coupled() && M.prev == old(M).prev && M.next == old(M).next
      ensures M.head == old(M).head[p - 1 := Tag(r, true, prevFree, false)][p + r - 1 := Tag(len - r, false, false, isLast)]
      ensures M.foot == old(M).foot[p + r - 1 := CANARY][p + len - 1 := Tag(len - r, false, false, isLast)]
    {
      hide Tag;
      TagFields(n, true, prevFree, false);
      BtMake(p, r, true, HasPrevFree(Head(p - 1)), false);
      BtMake(p + r, len - r, false, false, isLast);
    }

    method MoveGrowPart(p: nat, n: nat, m: nat, r: nat, ghost k: nat, ghost prevFree: bool, ghost last: bool)
      requires Coupled() && Listed(M.prev, M.next, F) && k < |F| && F[k] == p + n && p + r !in Without(F, k)
      requires FIRST <= p && 1 <= n < r < n + m && p + n + m <= total
      requires M.head[p - 1] == Tag(n, true, prevFree, false) && M.head[p + n - 1] == Tag(m, false, false, last)
      modifies mem, `M, `F
      ensures Coupled() && F == Without(old(F), k) + [p + r]
      ensures Recorded(old(M), M)
      ensures PartTaken(old(M), M, old(F), F, p, n + m, r, prevFree, last, 16 * (r - n))
      ensures NodesKept(old(M).prev, old(M).next, M.prev, M.next, old(F), p + n, p + n + m)
    {
      hide Tag, NodesKept, Without;
      ghost var M0, F0 := M, F;
      TagFields(m, false, false, last);
      var isLast := HasIsLast(Head(p + n - 1));
      NRemove(p + n, k);
      ghost var M1 := M;
      GrowTags(p, n, n + m, r, isLast, prevFree);
      NInsert(p + r);
      ghost var M2 := M;
      DecFree(16 * (r - n));
      NodesMoved(M0, M1, M2, M, F0, k, [p + r], p + n, p + n + m);
      NodesWider(M0, M, F0, p + n, p + n + m, p);
    }

    method GrowWhole(p: nat, n: nat, m: nat, ghost k: nat, ghost i: nat)
      requires Valid() && i + 1 < |B| && B[i] == Block(p, n, true) && B[i + 1] == Block(p + n, m, false) && 1 <= n && 1 <= m
      requires k < |F| && F[k] == p + n
      modifies mem, `M, `B, `F, `L
      ensures Valid() && B == Grown(old(B), i, n + m) && L == (old(L) && i + 2 < |old(B)|)
      ensures F == Less(old(F), p + n)
      ensures Recorded(old(M), M)
      ensures SameData(old(M), M, Block(p, n, true)) && OthersKept(old(M), M, old(B), B, i, i + 1)
    {
      hide Inv, Grown, OthersKept, SameData, WholeTaken, NodesKept, WholeGrown, Listed, Tag, FreeBefore, Without;
      ghost var M0, F0 := M, F;
      GrowFacts(M, B, F, L, total, i);
      ListOrder(k);
      MoveGrowWhole(p, n, m, k, FreeBefore(B, i), i + 2 == |B| && L);
      B, L := GrowWholeOk(M0, M, B, F0, F, L, total, i, k, n + m);
    }

    method MoveGrowWhole(p: nat, n: nat, m: nat, ghost k: nat, ghost prevFree: bool, ghost last: bool)
      requires Coupled() && Listed(M.prev, M.next, F) && k < |F| && F[k] == p + n
      requires FIRST <= p && 1 <= n && 1 <= m && p + n + m <= total
      requires M.head[p - 1] == Tag(n, true, prevFree, false) && M.head[p + n - 1] == Tag(m, false, false, last)
      modifies mem, `M, `F
      ensures Coupled() && F == Without(old(F), k)
      ensures Recorded(old(M), M)
      ensures WholeTaken(old(M), M, old(F), F, p, n + m, prevFree, false, true, 16 * m - 8)
      ensures NodesKept(old(M).prev, old(M).next, M.prev, M.next, old(F), p + n, p + n + m)
    {
      hide Tag;
      ghost var M0, F0 := M, F;
      TagFields(n, true, prevFree, false);
      TagFields(m, false, false, last);
      var nextsz := SizeOf(Head(p + n - 1));
      NRemove(p + n, k);
      ghost var M1 := M;
      BtMake(p, n + m, true, HasPrevFree(Head(p - 1)), false);
      SetHead(p + n + m - 1, ClearPrevFree(Head(p + n + m - 1)));
      ghost var M2 := M;
      DecFree(nextsz - 8);
      NodesMoved(M0, M1, M2, M, F0, k, [], p + n, p + n + m);
    }

    // --- check -------------------------------------------------------------------------------

    /** ar_check. All its assertions hold in every state, but for the one about ISLAST, which is
        returned: it holds exactly as long as no block grew into all of the last free block. */
    method Check() returns (lastMarked: bool)
      requires Valid()
      ensures lastMarked == L
    {
      var dangling;
      lastMarked, dangling := CheckBlocks();
      LinkAt(M.prev, M.next, F, 0);
      var n := Next(0);
      ghost var k := 0;
      while n != 0
        invariant k <= |F| && n == Node(F, k + 1) && dangling == FreeCount(B) - k
        decreases |F| - k
      {
        ListedHeader(M, B, F, L, total, k);
        assert !IsUsed(Head(n - 1));
        dangling := dangling - 1;
        LinkAt(M.prev, M.next, F, k + 1);
        n := Next(n);
        k := k + 1;
      }
      AllListed(M, B, F, L, total);
      assert dangling == 0;
    }

    /** The first loop of ar_check, over all blocks */
    method CheckBlocks() returns (lastMarked: bool, dangling: int)
      requires Valid()
      ensures lastMarked == L && dangling == FreeCount(B)
    {
      hide Inv;
      var p, prev, prevFree, freeMem := FIRST, 0, false, 0;
      dangling := 0;
      ghost var i := 0;
      ScalarFacts(M, B, F, L, total);
      while 4 * p - 1 < Foot(0)
        invariant i <= |B| && p == (if i < |B| then B[i].pos else total) && FIRST <= p && (p < total <==> i < |B|)
        invariant prev == (if i > 0 then B[i - 1].pos else 0) && prevFree == (i > 0 && !B[i - 1].used)
        invariant freeMem == FreeBytes(B[..i]) && dangling == FreeCount(B[..i])
        decreases |B| - i
      {
        HeaderTags(M, B, F, L, total, i);
        CountNext(B, i);
        var w := Head(p - 1);
        if IsUsed(w) {
          assert HasPrevFree(w) == prevFree;
          assert Foot(p + SizeOf(w) / 16 - 1) == CANARY;
          prevFree := false;
        } else {
          assert w == Foot(p + SizeOf(w) / 16 - 1);
          assert !prevFree;
          prevFree := true;
          freeMem := freeMem + SizeOf(w) - 8;
          dangling := dangling + 1;
        }
        prev := p;
        p := p + SizeOf(w) / 16;
        i := i + 1;
      }
      assert B[..i] == B;
      HeaderTags(M, B, F, L, total, i - 1);
      lastMarked := HasIsLast(Head(prev - 1));
      assert freeMem == Head(0);
    }

    // --- what the owner of a block does ------------------------------------------------------

    /** The w-th word behind a pointer */
    function Load(p: nat, w: nat): (v: int)
      requires Coupled() && p + w / 4 < total
      reads `M, mem
      ensures v == Word(M, p + w / 4, w % 4)
    {
      match w % 4
      case 0 => Prev(p + w / 4)
      case 1 => Next(p + w / 4)
      case 2 => Foot(p + w / 4)
      case _ => Head(p + w / 4)
    }

    /** Writing into a used block, between its header and its footer, keeps the arena well formed. */
    method Store(p: nat, w: nat, v: int, ghost i: nat)
      requires Valid() && i < |B| && B[i].used && B[i].pos == p && w < 4 * B[i].len - 2
      modifies mem, `M
      ensures Valid() && M == Put(old(M), p + w / 4, w % 4, v)
      ensures MinFree(M) == MinFree(old(M))
    {
      hide Inv;
      ghost var M0 := M;
      var q := p + w / 4;
      HeaderFacts(M, B, F, L, total, i);
      match w % 4 {
        case 0 => SetPrev(q, v);
        case 1 => SetNext(q, v);
        case 2 => SetFoot(q, v);
        case _ => SetHead(q, v);
      }
      StoreOk(M0, M, B, F, L, total, i, q, w % 4, v);
    }
  }

  /** The shortest way to lose ISLAST: an arena of three lines, of which one is taken, and then all. */
  method IsLastLost() returns (lastMarked: bool)
    ensures !lastMarked
  {
    var a := new Arena(5, 1);
    assert Block(FIRST, 3, false) in a.B;
    var p, i := a.Take(1);
    assert a.B == [Block(FIRST, 1, true), Block(FIRST + 1, 2, false)];
    var q := a.Resize(p, 3, i);
    lastMarked := a.Check();
  }
}
