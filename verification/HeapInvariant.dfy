/** The invariant of an arena of kernel/memory.c (the assertions of ar_check, and what they rest on),
    and the one step every operation is: some neighbouring blocks are replaced by other blocks in the
    same lines, and nothing else changes but the free list. */
module HeapInvariant {
  import opened HeapLayout

  /** `B` are the blocks in address order, `F` the free ones in list order. The last word of the arena
      lies behind the last block; it is read as a header and has to look like one of a used block. */
  ghost predicate Inv(M: Mem, B: seq<Block>, F: seq<nat>, L: bool, total: nat) {
    && Sized(M, total) && total > 0 && M.foot[0] == 4 * total - 1
    && Tiles(B, total) && Coalesced(B) && Tagged(M.head, M.foot, B, L)
    && Listed(M.prev, M.next, F) && (forall x: nat {:trigger x in F} :: x in F <==> IsFreeAt(B, x))
    && M.head[0] == FreeBytes(B)
    && M.head[total - 1] >= 0 && IsUsed(M.head[total - 1])
  }

  /** The pointers of the free list change only in the lines from lo to hi, at the guard and at nodes
      of the list; `prev` of line 1 is the word `minFree`. */
  ghost predicate NodesKept(prev: seq<int>, next: seq<int>, prev2: seq<int>, next2: seq<int>, F: seq<nat>, lo: nat, hi: nat) {
    && |prev2| == |prev| && |next2| == |next|
    && (forall q {:trigger prev2[q]} :: 1 < q < |prev| && q !in F && !(lo <= q < hi) ==> prev2[q] == prev[q])
    && (forall q {:trigger next2[q]} :: 0 < q < |next| && q !in F && !(lo <= q < hi) ==> next2[q] == next[q])
  }

  /** The words of a used block that belong to its owner: all between header and footer. */
  ghost predicate SameData(M: Mem, M2: Mem, b: Block) {
    && (forall q {:trigger M2.prev[q]} :: b.pos <= q < b.Past() && q < |M.prev| && q < |M2.prev| ==> M2.prev[q] == M.prev[q])
    && (forall q {:trigger M2.next[q]} :: b.pos <= q < b.Past() && q < |M.next| && q < |M2.next| ==> M2.next[q] == M.next[q])
    && (forall q {:trigger M2.foot[q]} :: b.pos <= q < b.Past() - 1 && q < |M.foot| && q < |M2.foot| ==> M2.foot[q] == M.foot[q])
    && (forall q {:trigger M2.head[q]} :: b.pos <= q < b.Past() - 1 && q < |M.head| && q < |M2.head| ==> M2.head[q] == M.head[q])
  }

  lemma FreeOutsideUsed(B: seq<Block>, total: nat, x: nat, i: int)
    requires Tiles(B, total) && IsFreeAt(B, x) && 0 <= i < |B| && B[i].used
    ensures x < B[i].pos || x >= B[i].Past()
  {
    var j :| 0 <= j < |B| && B[j].pos == x && !B[j].used;
    if j < i { Order(B, total, j, i); assert B[j].len >= 1; }
    if i < j { Order(B, total, i, j); }
  }

  /** The free places before and after a replacement. */
  lemma FreeAtReplace(B: seq<Block>, total: nat, a: int, c: int, N: seq<Block>, x: nat)
    requires Tiles(B, total) && Fits(B, a, c, N)
    ensures IsFreeAt(Replace(B, a, c, N), x) <==>
              (IsFreeAt(B, x) && !(B[a].pos <= x < B[c - 1].Past())) || IsFreeAt(N, x)
  {
    var R := Replace(B, a, c, N);
    if IsFreeAt(R, x) {
      var i :| 0 <= i < |R| && R[i].pos == x && !R[i].used;
      FreeAtBefore(B, total, a, c, N, i);
    }
    if IsFreeAt(B, x) && !(B[a].pos <= x < B[c - 1].Past()) {
      var i :| 0 <= i < |B| && B[i].pos == x && !B[i].used;
      FreeAtAfter(B, total, a, c, N, i);
    }
    if IsFreeAt(N, x) {
      var i :| 0 <= i < |N| && N[i].pos == x && !N[i].used;
      ReplaceIndex(B, a, c, N);
      FreeHere(R, a + i);
    }
  }

  lemma FreeAtAfter(B: seq<Block>, total: nat, a: int, c: int, N: seq<Block>, i: nat)
    requires Tiles(B, total) && Fits(B, a, c, N) && i < |B| && !B[i].used
    requires !(B[a].pos <= B[i].pos < B[c - 1].Past())
    ensures IsFreeAt(Replace(B, a, c, N), B[i].pos)
  {
    PlaceInRange(B, total, a, c, i);
    ReplaceIndex(B, a, c, N);
    FreeHere(Replace(B, a, c, N), if i < a then i else i + |N| - (c - a));
  }

  lemma FreeHere(B: seq<Block>, i: nat)
    requires i < |B| && !B[i].used
    ensures IsFreeAt(B, B[i].pos)
  {
  }

  lemma FreeAtBefore(B: seq<Block>, total: nat, a: int, c: int, N: seq<Block>, i: nat)
    requires Tiles(B, total) && Fits(B, a, c, N) && i < |Replace(B, a, c, N)| && !Replace(B, a, c, N)[i].used
    ensures var x := Replace(B, a, c, N)[i].pos;
            (IsFreeAt(B, x) && !(B[a].pos <= x < B[c - 1].Past())) || IsFreeAt(N, x)
  {
    ReplaceIndex(B, a, c, N);
    if a <= i < a + |N| {
      FreeHere(N, i - a);
    } else {
      var j := if i < a then i else i - |N| + (c - a);
      FreeHere(B, j);
      PlaceInRange(B, total, a, c, j);
    }
  }

  /** Replacing blocks keeps free blocks apart when the new ones are apart from their neighbours. */
  lemma CoalescedReplace(B: seq<Block>, a: int, c: int, N: seq<Block>)
    requires Coalesced(B) && Fits(B, a, c, N)
    requires a > 0 ==> B[a - 1].used || N[0].used
    requires c < |B| ==> N[|N| - 1].used || B[c].used
    requires |N| == 2 ==> N[0].used || N[1].used
    ensures Coalesced(Replace(B, a, c, N))
  {
    var R := Replace(B, a, c, N);
    var d := |N| - (c - a);
    ReplaceIndex(B, a, c, N);
    forall i | 0 <= i < |R| - 1 ensures NotBothFree(R, i) {
      if i + 1 < a { assert NotBothFree(B, i) && R[i] == B[i] && R[i + 1] == B[i + 1]; }
      else if i + 1 == a { assert R[i] == B[i] && R[i + 1] == N[0]; }
      else if i + 1 < a + |N| { assert R[i] == N[0] && R[i + 1] == N[1]; }
      else if i + 1 == a + |N| { assert R[i] == N[|N| - 1] && R[i + 1] == B[c]; }
      else { assert NotBothFree(B, i - d) && R[i] == B[i - d] && R[i + 1] == B[i - d + 1]; }
    }
  }

  /** The new blocks are apart from free neighbours. */
  ghost predicate Apart(B: seq<Block>, a: int, c: int, N: seq<Block>)
    requires 0 <= a < c <= |B| && 1 <= |N| <= 2
  {
    && (a > 0 ==> B[a - 1].used || N[0].used)
    && (c < |B| ==> N[|N| - 1].used || B[c].used)
    && (|N| == 2 ==> N[0].used || N[1].used)
  }

  ghost predicate Retagged(M: Mem, M2: Mem, B: seq<Block>, L: bool, L2: bool, a: int, c: int, N: seq<Block>)
    requires 0 <= a < c <= |B| && 1 <= |N| <= 2
  {
    && TagsKept(M.head, M.foot, M2.head, M2.foot, B[a].pos, B[c - 1].Past())
    && NewTags(M2.head, M2.foot, B, a, c, N, L2)
    && (c < |B| ==> L2 == L && NextHeader(M.head, M2.head, B, c, N[|N| - 1].used, L))
  }

  ghost predicate Relinked(M: Mem, M2: Mem, B: seq<Block>, F: seq<nat>, F2: seq<nat>, a: int, c: int, N: seq<Block>)
    requires 0 <= a < c <= |B|
  {
    && NodesKept(M.prev, M.next, M2.prev, M2.next, F, B[a].pos, B[c - 1].Past())
    && Listed(M2.prev, M2.next, F2)
    && (forall x: nat {:trigger x in F2} :: x in F2 <==> (x in F && !(B[a].pos <= x < B[c - 1].Past())) || IsFreeAt(N, x))
  }

  /** What an operation has to do to replace the blocks from a to c by `N`. */
  ghost predicate Replaced(M: Mem, M2: Mem, B: seq<Block>, F: seq<nat>, F2: seq<nat>, L: bool, L2: bool,
                           total: nat, a: int, c: int, N: seq<Block>)
  {
    && Fits(B, a, c, N) && Apart(B, a, c, N) && Sized(M2, total) && total > 0
    && Retagged(M, M2, B, L, L2, a, c, N) && Relinked(M, M2, B, F, F2, a, c, N)
    && M2.foot[0] == 4 * total - 1
    && M2.head[0] == FreeBytes(B) - FreeBytes(B[a..c]) + FreeBytes(N)
    && M2.head[total - 1] >= 0 && IsUsed(M2.head[total - 1])
  }

  lemma ReplacedOk(M: Mem, M2: Mem, B: seq<Block>, F: seq<nat>, F2: seq<nat>, L: bool, L2: bool,
                   total: nat, a: int, c: int, N: seq<Block>)
    requires Inv(M, B, F, L, total) && Replaced(M, M2, B, F, F2, L, L2, total, a, c, N)
    ensures Inv(M2, Replace(B, a, c, N), F2, L2, total)
  {
    TilesReplace(B, total, a, c, N);
    CoalescedReplace(B, a, c, N);
    TaggedReplace(M.head, M.foot, M2.head, M2.foot, B, total, a, c, N, L, L2);
    FreeBytesReplace(B, a, c, N);
    forall x: nat ensures x in F2 <==> IsFreeAt(Replace(B, a, c, N), x) {
      FreeAtReplace(B, total, a, c, N, x);
    }
  }

  /** Everyone else keeps block and data: all used blocks but those from a to c. */
  ghost predicate OthersKept(M: Mem, M2: Mem, B: seq<Block>, R: seq<Block>, a: int, c: int) {
    forall j {:trigger SameData(M, M2, B[j])} :: 0 <= j < |B| && B[j].used && !(a <= j < c) ==>
      B[j] in R && SameData(M, M2, B[j])
  }

  lemma ReplacedKeepsData(M: Mem, M2: Mem, B: seq<Block>, F: seq<nat>, F2: seq<nat>, L: bool, L2: bool,
                          total: nat, a: int, c: int, N: seq<Block>)
    requires Inv(M, B, F, L, total) && Replaced(M, M2, B, F, F2, L, L2, total, a, c, N)
    ensures OthersKept(M, M2, B, Replace(B, a, c, N), a, c)
  {
    var R := Replace(B, a, c, N);
    ReplaceIndex(B, a, c, N);
    forall j | 0 <= j < |B| && B[j].used && !(a <= j < c) ensures B[j] in R && SameData(M, M2, B[j]) {
      assert R[if j < a then j else j + |N| - (c - a)] == B[j];
      forall x | x in F ensures x < B[j].pos || x >= B[j].Past() {
        FreeOutsideUsed(B, total, x, j);
      }
      Inside(B, total, j);
      if j < a { Order(B, total, j, a); } else { Order(B, total, c - 1, j); }
      DataOutside(M, M2, F, B[a].pos, B[c - 1].Past(), B[j]);
    }
  }

  lemma DataOutside(M: Mem, M2: Mem, F: seq<nat>, lo: nat, hi: nat, b: Block)
    requires TagsKept(M.head, M.foot, M2.head, M2.foot, lo, hi) && NodesKept(M.prev, M.next, M2.prev, M2.next, F, lo, hi)
    requires b.pos >= FIRST && (b.Past() <= lo || hi <= b.pos)
    requires forall x :: x in F ==> x < b.pos || x >= b.Past()
    ensures SameData(M, M2, b)
  {
  }

  /** Live blocks are disjoint, lie inside the arena, and each starts on a line of its own. */
  lemma BlocksDisjoint(M: Mem, B: seq<Block>, F: seq<nat>, L: bool, total: nat, i: int, j: int)
    requires Inv(M, B, F, L, total) && 0 <= i < j < |B|
    ensures FIRST <= B[i].pos < B[i].Past() <= B[j].pos < B[j].Past() <= total
  {
    Order(B, total, i, j);
    Inside(B, total, i);
    Inside(B, total, j);
  }

  lemma ReplacedInv(M: Mem, M2: Mem, B: seq<Block>, F: seq<nat>, F2: seq<nat>, L: bool, L2: bool,
                    total: nat, a: int, c: int, N: seq<Block>)
    requires Inv(M, B, F, L, total) && Replaced(M, M2, B, F, F2, L, L2, total, a, c, N)
    ensures Inv(M2, Replace(B, a, c, N), F2, L2, total) && OthersKept(M, M2, B, Replace(B, a, c, N), a, c)
  {
    ReplacedOk(M, M2, B, F, F2, L, L2, total, a, c, N);
    ReplacedKeepsData(M, M2, B, F, F2, L, L2, total, a, c, N);
  }

  /** The block that a listed place belongs to, and its tags. */
  lemma ListedBlock(M: Mem, B: seq<Block>, F: seq<nat>, L: bool, total: nat, k: nat) returns (i: nat)
    requires Inv(M, B, F, L, total) && k < |F|
    ensures i < |B| && B[i].pos == F[k] && !B[i].used && B[i].len >= 1 && FIRST <= B[i].pos && B[i].Past() <= total
    ensures M.head[B[i].pos - 1] == Tag(B[i].len, false, false, i == |B| - 1 && L)
    ensures i > 0 ==> B[i - 1].used
    ensures i < |B| - 1 ==> B[i + 1].used && B[i + 1].pos == B[i].Past()
  {
    assert F[k] in F;
    i :| 0 <= i < |B| && B[i].pos == F[k] && !B[i].used;
    assert TaggedAt(M.head, M.foot, B, L, i);
    Inside(B, total, i);
    if i > 0 { assert NotBothFree(B, i - 1); }
    if i < |B| - 1 { assert NotBothFree(B, i); }
  }

  /** No line strictly inside a block is in the free list. */
  lemma NotInside(M: Mem, B: seq<Block>, F: seq<nat>, L: bool, total: nat, i: nat)
    requires Inv(M, B, F, L, total) && i < |B|
    ensures forall x: nat {:trigger x in F} :: B[i].pos < x < B[i].Past() ==> x !in F
  {
    forall x: nat {:trigger x in F} | B[i].pos < x < B[i].Past() ensures x !in F {
      forall j | 0 <= j < |B| ensures B[j].pos != x {
        if i < j { Order(B, total, i, j); }
        if j < i { Order(B, total, j, i); assert B[j].len >= 1; }
      }
    }
  }
}
