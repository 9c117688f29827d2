/** The wrappers of kernel/memory.c: several regions of memory, each with an arena of its own. A
    pointer is the line of the region plus the line within its arena. */
module Memory {
  import opened HeapLayout
  import opened HeapInvariant
  import opened HeapOps
  import opened HeapSteps
  import opened Heap

  /** No region starts above the 32-bit address space: 2^28 lines of 16 bytes. */
  const MEM_ANY: nat := 0x1000_0000

  /** What one region holds */
  datatype View = View(M: Mem, B: seq<Block>)

  /** All used blocks, but perhaps the one at line `p` of region `k`, keep their place and their data. */
  ghost predicate Kept(V0: seq<View>, V: seq<View>, k: nat, p: nat) {
    && |V| == |V0|
    && (forall x {:trigger V0[x]} :: 0 <= x < |V0| && x != k ==> KeptIn(V0[x], V[x], 0))
    && (k < |V0| ==> KeptIn(V0[k], V[k], p))
  }

  ghost predicate KeptIn(v0: View, v: View, p: nat) {
    forall j {:trigger SameData(v0.M, v.M, v0.B[j])} :: 0 <= j < |v0.B| && v0.B[j].used && v0.B[j].pos != p ==>
      v0.B[j] in v.B && SameData(v0.M, v.M, v0.B[j])
  }

  ghost predicate UsedAt(V: seq<View>, x: nat, b: Block) {
    x < |V| && b in V[x].B && b.used
  }

  /** No block is in use now that was not before, but perhaps one at line `q` of region `y`; and none is any
      more at line `p` of region `x`, if that is another place. Line 0 stands for no place. */
  ghost predicate Only(V0: seq<View>, V: seq<View>, x: nat, p: nat, y: nat, q: nat) {
    && |V| == |V0|
    && forall z: nat, b: Block {:trigger UsedAt(V, z, b)} :: UsedAt(V, z, b) ==>
         (UsedAt(V0, z, b) && !(p != 0 && z == x && b.pos == p)) || (q != 0 && z == y && b.pos == q)
  }

  lemma OnlyHere(V0: seq<View>, V: seq<View>, k: nat, p: nat, q: nat)
    requires |V| == |V0| && k < |V0| && forall x {:trigger V[x]} {:trigger V0[x]} :: 0 <= x < |V| && x != k ==> V[x] == V0[x]
    requires forall b {:trigger b in V[k].B} :: b in V[k].B && b.used ==> (b in V0[k].B && (p != 0 ==> b.pos != p)) || (q != 0 && b.pos == q)
    ensures Only(V0, V, k, p, k, q)
  {
  }

  /** It does not matter which region no place is in. */
  lemma OnlyRename(V0: seq<View>, V: seq<View>, x: nat, x1: nat, p: nat, y: nat, q: nat)
    ensures p == 0 && Only(V0, V, x, p, y, q) ==> Only(V0, V, x1, p, y, q)
  {
  }

  /** A block was taken, written to, and an old one freed. */
  lemma OnlyThrough(V0: seq<View>, V1: seq<View>, V2: seq<View>, V3: seq<View>, k: nat, q: nat, x: nat, p: nat)
    requires Only(V0, V1, k, 0, k, q) && |V2| == |V1| && (forall z {:trigger V2[z]} :: 0 <= z < |V2| ==> V2[z].B == V1[z].B)
    requires Only(V2, V3, x, p, x, 0)
    ensures Only(V0, V3, x, p, k, q)
  {
    forall z: nat, b: Block {:trigger UsedAt(V3, z, b)} | UsedAt(V3, z, b)
      ensures (UsedAt(V0, z, b) && !(p != 0 && z == x && b.pos == p)) || (q != 0 && z == k && b.pos == q)
    {
      assert UsedAt(V2, z, b);
      assert UsedAt(V1, z, b);
    }
  }

  /** The `i`th block has `n` lines, alone or with the free block behind it. */
  predicate InPlace(B: seq<Block>, i: nat, n: nat) {
    && i < |B|
    && (n <= B[i].len || (i + 1 < |B| && !B[i + 1].used && n <= B[i].len + B[i + 1].len))
  }

  class Memory {
    const regions: seq<Arena>
    const bases: seq<nat>

    constructor (regions: seq<Arena>, bases: seq<nat>)
      requires |bases| == |regions| && forall i {:trigger regions[i]} :: 0 <= i < |regions| ==> regions[i].Valid()
      requires forall i, j {:trigger regions[i], regions[j]} :: 0 <= i < j < |regions| ==>
                 regions[i] != regions[j] && regions[i].mem != regions[j].mem
                 && (bases[i] + regions[i].total <= bases[j] || bases[j] + regions[j].total <= bases[i])
      requires forall i {:trigger bases[i]} :: 0 <= i < |bases| ==> bases[i] < MEM_ANY
      ensures Valid() && this.regions == regions && this.bases == bases
    {
      this.regions, this.bases := regions, bases;
    }

    /** Regions are different pieces of memory. */
    ghost predicate Apart() {
      && |bases| == |regions|
      && (forall i, j {:trigger regions[i], regions[j]} :: 0 <= i < j < |regions| ==>
            regions[i] != regions[j] && regions[i].mem != regions[j].mem
            && (bases[i] + regions[i].total <= bases[j] || bases[j] + regions[j].total <= bases[i]))
      && forall i {:trigger bases[i]} :: 0 <= i < |bases| ==> bases[i] < MEM_ANY
    }

    ghost function Repr(): set<object> {
      (set i | 0 <= i < |regions| :: regions[i]) + (set i | 0 <= i < |regions| :: regions[i].mem)
    }

    ghost predicate Valid()
      reads Repr()
    {
      Apart() && forall i {:trigger regions[i]} :: 0 <= i < |regions| ==> regions[i].Valid()
    }

    ghost function Views(): seq<View>
      reads Repr()
    {
      seq(|regions|, i requires 0 <= i < |regions| reads Repr() => View(regions[i].M, regions[i].B))
    }

    ghost function Totals(): seq<nat> {
      seq(|regions|, i requires 0 <= i < |regions| => regions[i].total)
    }

    lemma ViewsSized()
      requires Valid()
      ensures AllSized(Views(), Totals()) && AllTiled(Views(), Totals())
    {
      forall z | 0 <= z < |regions| ensures Sized(Views()[z].M, Totals()[z]) && Tiles(Views()[z].B, Totals()[z]) {
        assert regions[z].Valid();
      }
    }

    /** `ptr` points to the memory of the i-th block of region k, which is in use. */
    ghost predicate Live(ptr: nat, k: nat, i: nat)
      reads Repr()
    {
      && k < |regions| == |bases| && i < |regions[k].B|
      && regions[k].B[i].used && ptr == bases[k] + regions[k].B[i].pos
    }

    lemma OneRegion(ptr: nat, k: nat)
      requires Apart() && k < |regions| && bases[k] + FIRST <= ptr < bases[k] + regions[k].total
      ensures forall r {:trigger regions[r]} :: 0 <= r < |regions| && r != k ==> !(bases[r] + FIRST <= ptr < bases[r] + regions[r].total)
    {
      forall r {:trigger regions[r]} | 0 <= r < |regions| && r != k
        ensures !(bases[r] + FIRST <= ptr < bases[r] + regions[r].total)
      {
        Disjoint(r, k);
      }
    }

    lemma Disjoint(x: nat, k: nat)
      requires Apart() && x < |regions| && k < |regions| && x != k
      ensures bases[x] + regions[x].total <= bases[k] || bases[k] + regions[k].total <= bases[x]
    {
      if x < k { assert regions[x] != regions[k]; } else { assert regions[k] != regions[x]; }
    }

    lemma OtherRegion(x: nat, k: nat)
      requires Apart() && x < |regions| && k < |regions| && x != k
      ensures regions[x] != regions[k] && regions[x].mem != regions[k].mem
    {
      if x < k { assert regions[x] != regions[k]; } else { assert regions[k] != regions[x]; }
    }

    /** arena_of */
    method ArenaOf(ptr: nat, ghost k: nat) returns (r: nat)
      requires Valid() && k < |regions| && bases[k] + FIRST <= ptr < bases[k] + regions[k].total
      ensures r == k
    {
      r := 0;
      OneRegion(ptr, k);
      while !(bases[r] + FIRST <= ptr < bases[r] + regions[r].total)
        invariant r <= k
        decreases k - r
      {
        r := r + 1;
      }
    }

    /** vPortFree */
    method Free(ptr: nat, ghost k: nat, ghost i: nat)
      requires Valid() && (ptr != 0 ==> Live(ptr, k, i))
      modifies Repr()
      ensures Valid()
      ensures ptr == 0 ==> Views() == old(Views())
      ensures ptr != 0 ==> Kept(old(Views()), Views(), k, ptr - bases[k])
      ensures ptr != 0 ==> Only(old(Views()), Views(), k, ptr - bases[k], k, 0)
    {
      hide Arena.Valid, Tiles, OthersKept, KeptIn, Freed;
      if ptr != 0 {
        ghost var V0, p := Views(), regions[k].B[i].pos;
        BlockInside(regions[k], i);
        var r := ArenaOf(ptr, k);
        regions[r].Free(ptr - bases[r], i);
        FreeKept(V0[k], View(regions[k].M, regions[k].B), i);
        forall x | 0 <= x < |regions| && x != k ensures regions[x].Valid() && Views()[x] == V0[x] {
          OtherRegion(x, k);
        }
        Rest(V0, Views(), k, p);
        FreedUsed(V0[k].B, regions[k].total, i);
        OnlyHere(V0, Views(), k, p, 0);
      }
    }

    /** _pvPortMallocBelow: the first region below `upper` that has room. A size that is rounded to zero gets a pointer
        to the first free block there is, which stays free; that block's region is damaged if it is the last one and
        has its mark. */
    method MallocBelow(size: nat, upper: nat) returns (ptr: nat, ghost k: nat, ghost i: nat)
      requires Valid() && size < 0x1_0000_0000
      modifies Repr()
      ensures BlockBytes(size) != 0 ==> Valid() && Kept(old(Views()), Views(), 0, 0)
      ensures ptr == 0 ==> Valid() && Views() == old(Views())
      ensures ptr == 0 ==> forall x {:trigger regions[x]} :: 0 <= x < |regions| && bases[x] < upper ==>
                             NoRoom(regions[x].B, BlockBytes(size))
      ensures ptr == 0 && upper >= MEM_ANY ==> Full(BlockBytes(size))
      ensures ptr != 0 && BlockBytes(size) != 0 ==> Live(ptr, k, i) && bases[k] < upper && regions[k].B[i].len == BlockBytes(size) / 16
      ensures ptr != 0 && BlockBytes(size) != 0 ==>
                WasFree(old(Views())[k].B, ptr - bases[k]) && Only(old(Views()), Views(), k, 0, k, ptr - bases[k])
      ensures ptr != 0 && BlockBytes(size) == 0 ==> k < |bases| && bases[k] < upper && NoneTaken(old(Views()), ptr, k, i)
      ensures ptr != 0 ==> FirstRoom(old(Views()), k, upper, BlockBytes(size))
    {
      hide Arena.Valid, Kept, KeptIn, WasFree, Only, Full, NoRoom, NoneTaken, FirstRoom;
      BlockBytesExact(size);
      if BlockBytes(size) == 0 {
        ptr, k, i := MallocNone(size, upper);
      } else {
        ptr, k, i := MallocSome(size, upper);
      }
    }

    /** `ptr` is to a free block, and no block has come into use. */
    ghost predicate NoneTaken(V0: seq<View>, ptr: nat, k: nat, i: nat)
      reads Repr()
    {
      && Apart() && |V0| == |regions| && (forall z {:trigger regions[z]} :: 0 <= z < |regions| ==> regions[z].B == V0[z].B)
      && k < |regions| && i < |regions[k].B| && !regions[k].B[i].used && ptr == bases[k] + regions[k].B[i].pos
      && (Valid() <==> !(i + 1 == |regions[k].B| && regions[k].L)) && (!Valid() ==> Mismatch(regions[k].M, regions[k].B[i]))
    }

    method MallocNone(size: nat, upper: nat) returns (ptr: nat, ghost k: nat, ghost i: nat)
      requires Valid() && size < 0x1_0000_0000 && BlockBytes(size) == 0
      modifies Repr()
      ensures ptr == 0 ==> Valid() && Views() == old(Views())
      ensures ptr == 0 ==> forall x {:trigger regions[x]} :: 0 <= x < |regions| && bases[x] < upper ==> NoRoom(regions[x].B, 0)
      ensures ptr == 0 && upper >= MEM_ANY ==> Full(0)
      ensures ptr != 0 ==> k < |bases| && bases[k] < upper && NoneTaken(old(Views()), ptr, k, i)
      ensures ptr != 0 ==> FirstRoom(old(Views()), k, upper, 0)
    {
      hide Arena.Valid, Tiles, Mismatch;
      ghost var V0 := Views();
      ptr, k, i := 0, 0, 0;
      var x := 0;
      while x < |regions|
        invariant x <= |regions| && Valid() && Views() == V0
        invariant forall y {:trigger regions[y]} :: 0 <= y < x && bases[y] < upper ==> NoRoom(regions[y].B, 0)
      {
        if bases[x] < upper {
          var p, j := regions[x].Malloc(size);
          forall y | 0 <= y < |regions| && y != x ensures regions[y].Valid() && Views()[y] == V0[y] {
            OtherRegion(y, x);
          }
          if p != 0 {
            ptr, k, i := bases[x] + p, x, j;
            assert Valid() <==> regions[x].Valid();
            return;
          }
          assert Views()[x] == V0[x];
          assert Views() == V0;
        }
        x := x + 1;
      }
      assert forall y {:trigger regions[y]} :: 0 <= y < |regions| ==> bases[y] < MEM_ANY;
    }

    method MallocSome(size: nat, upper: nat) returns (ptr: nat, ghost k: nat, ghost i: nat)
      requires Valid() && size < 0x1_0000_0000 && BlockBytes(size) >= 16
      modifies Repr()
      ensures Valid() && Kept(old(Views()), Views(), 0, 0)
      ensures ptr == 0 ==> Views() == old(Views())
      ensures ptr == 0 ==> forall x {:trigger regions[x]} :: 0 <= x < |regions| && bases[x] < upper ==>
                             NoRoom(regions[x].B, BlockBytes(size))
      ensures ptr == 0 && upper >= MEM_ANY ==> Full(BlockBytes(size))
      ensures ptr != 0 ==> Live(ptr, k, i) && bases[k] < upper && regions[k].B[i].len == BlockBytes(size) / 16
      ensures ptr != 0 ==> WasFree(old(Views())[k].B, ptr - bases[k]) && Only(old(Views()), Views(), k, 0, k, ptr - bases[k])
      ensures ptr != 0 ==> FirstRoom(old(Views()), k, upper, BlockBytes(size))
    {
      hide Arena.Valid, OthersKept, KeptIn, Allocated, Tiles;
      ghost var V0 := Views();
      ptr, k, i := 0, 0, 0;
      var x := 0;
      while x < |regions|
        invariant x <= |regions| && Valid() && Views() == V0
        invariant forall y {:trigger regions[y]} :: 0 <= y < x && bases[y] < upper ==> NoRoom(regions[y].B, BlockBytes(size))
      {
        if bases[x] < upper {
          TilesOf(regions[x]);
          var p, j := regions[x].Malloc(size);
          forall y | 0 <= y < |regions| && y != x ensures regions[y].Valid() && Views()[y] == V0[y] {
            OtherRegion(y, x);
          }
          if p != 0 {
            ptr, k, i := bases[x] + p, x, j;
            BlockBytesExact(size);
            AllocatedAt(V0[x].B, j, BlockBytes(size) / 16);
            MallocKept(V0[x], Views()[x], j);
            PlaceWasFree(V0[x], regions[x].total, j);
            Rest(V0, Views(), x, 0);
            AllocatedUsed(V0[x].B, j, BlockBytes(size) / 16);
            OnlyHere(V0, Views(), x, 0, p);
            return;
          }
          assert Views()[x] == V0[x];
          assert Views() == V0;
        }
        x := x + 1;
      }
      Unmoved(V0);
      assert forall y {:trigger regions[y]} :: 0 <= y < |regions| ==> bases[y] < MEM_ANY;
    }

    /** No region in front of the `k`th has room, of those below `upper`. */
    ghost predicate FirstRoom(V: seq<View>, k: nat, upper: nat, bytes: int) {
      k <= |bases| && k <= |V| && forall x {:trigger V[x]} :: 0 <= x < k && bases[x] < upper ==> NoRoom(V[x].B, bytes)
    }

    /** No region has room for a block of that size. */
    ghost predicate Full(bytes: int)
      reads Repr()
    {
      forall x {:trigger regions[x]} :: 0 <= x < |regions| ==> NoRoom(regions[x].B, bytes)
    }

    /** memcpy of the first 4n - 1 words at `old_ptr`, the canary among them, to a longer block */
    method Copy(x: nat, p: nat, n: nat, y: nat, q: nat, ghost i: nat, ghost j: nat)
      requires Valid() && x < |regions| && y < |regions| && i < |regions[x].B| && j < |regions[y].B|
      requires regions[x].B[i] == Block(p, n, true) && n >= 1
      requires regions[y].B[j].used && regions[y].B[j].pos == q && regions[y].B[j].len > n && (x != y || p != q)
      modifies Repr()
      ensures Valid() && forall z {:trigger regions[z]} :: 0 <= z < |regions| ==> regions[z].B == old(regions[z].B)
      ensures Kept(old(Views()), Views(), y, q) && Carried(old(regions[x].M), p, regions[y].M, q, n)
    {
      hide Arena.Valid, Tiles, KeptIn, SameData, WordsOutside, CopiedUpTo, Carried;
      ghost var V0 := Views();
      BlockInside(regions[y], j);
      NothingCopied(V0[x].M, p, V0[y].M, q, q + regions[y].B[j].len);
      var w := 0;
      while w < 4 * n - 1
        invariant w <= 4 * n - 1 && Copying(V0, x, p, y, j, w)
      {
        CopyWord(V0, x, p, n, y, q, i, j, w);
        w := w + 1;
      }
      CopyEnd(V0, x, p, n, y, j, w);
    }

    lemma CopyEnd(V0: seq<View>, x: nat, p: nat, n: nat, y: nat, j: nat, w: nat)
      requires Copying(V0, x, p, y, j, w) && n >= 1 && w >= 4 * n - 1 && Sized(V0[y].M, regions[y].total)
      ensures Kept(V0, Views(), y, V0[y].B[j].pos) && Carried(V0[x].M, p, regions[y].M, V0[y].B[j].pos, n)
    {
      hide KeptIn, SameData, Carried, WordsOutside;
      BlockInside(regions[y], j);
      CopyKept(V0[y], Views()[y], regions[y].total, j);
      CopyDone(V0[x].M, p, regions[y].M, V0[y].B[j].pos, n, w);
      Rest(V0, Views(), y, V0[y].B[j].pos);
    }

    /** The first w words are copied to the j-th block of region y, and nothing else changed. */
    ghost predicate Copying(V0: seq<View>, x: nat, p: nat, y: nat, j: nat, w: nat)
      reads Repr()
    {
      && Valid() && |V0| == |regions| && x < |regions| && y < |regions| && j < |V0[y].B|
      && (forall z {:trigger regions[z]} :: 0 <= z < |regions| ==> regions[z].B == V0[z].B)
      && (forall z {:trigger V0[z]} :: 0 <= z < |regions| && z != y ==> Views()[z] == V0[z])
      && WordsOutside(V0[y].M, regions[y].M, V0[y].B[j].pos, V0[y].B[j].Past())
      && CopiedUpTo(V0[x].M, p, regions[y].M, V0[y].B[j].pos, w)
    }

    method CopyWord(ghost V0: seq<View>, x: nat, p: nat, n: nat, y: nat, q: nat, ghost i: nat, ghost j: nat, w: nat)
      requires Copying(V0, x, p, y, j, w) && w < 4 * n - 1
      requires i < |V0[x].B| && V0[x].B[i] == Block(p, n, true)
      requires V0[y].B[j].used && V0[y].B[j].pos == q && V0[y].B[j].len > n && (x != y || p != q)
      modifies Repr()
      ensures Copying(V0, x, p, y, j, w + 1)
    {
      hide Arena.Valid, Tiles, WordsOutside, CopiedUpTo, Put;
      ghost var M1, len := regions[y].M, V0[y].B[j].len;
      BlockInside(regions[x], i);
      BlockInside(regions[y], j);
      var v := regions[x].Load(p, w);
      if x == y {
        BlocksApart(regions[x], i, j);
        SourceKept(V0[y].M, M1, q, len, p + w / 4, w % 4);
      }
      regions[y].Store(q, w, v, j);
      forall z | 0 <= z < |regions| && z != y ensures regions[z].Valid() && Views()[z] == V0[z] {
        OtherRegion(z, y);
      }
      CopyStep(V0[x].M, p, V0[y].M, M1, regions[y].M, q, len, w, v);
    }

    /** MemRealloc: shrinks or grows in place where it can, and moves the block otherwise. Whatever it
        does, what fits of the contents comes along, and all other blocks keep theirs. With a size that is rounded to
        zero, a live pointer is returned although its block has been freed; or its region is damaged, exactly if there
        is a free block in front of it. */
    method Realloc(ptr: nat, size: nat, ghost k: nat, ghost i: nat) returns (r: nat, ghost k2: nat, ghost i2: nat)
      requires Valid() && size < 0x1_0000_0000 && (ptr != 0 ==> Live(ptr, k, i))
      modifies Repr()
      ensures BlockBytes(size) != 0 && size != 0 && ptr != 0 ==> (r == ptr <==> InPlace(old(regions[k].B), i, BlockBytes(size) / 16))
      ensures BlockBytes(size) != 0 ==> Valid() && (size == 0 ==> r == 0) && (size != 0 && r == 0 ==> Views() == old(Views()))
      ensures BlockBytes(size) != 0 ==> if ptr == 0 then Kept(old(Views()), Views(), 0, 0) else Kept(old(Views()), Views(), k, ptr - bases[k])
      ensures BlockBytes(size) != 0 && r != 0 ==> Live(r, k2, i2) && regions[k2].B[i2].len == BlockBytes(size) / 16
      ensures BlockBytes(size) != 0 && r != 0 && r != ptr ==> WasFree(old(Views())[k2].B, r - bases[k2])
      ensures BlockBytes(size) != 0 && r != 0 ==> Only(old(Views()), Views(), k, if ptr == 0 then 0 else ptr - bases[k], k2, r - bases[k2])
      ensures BlockBytes(size) != 0 && r == 0 && size != 0 ==> Full(BlockBytes(size))
      ensures BlockBytes(size) != 0 && r == 0 && size == 0 && ptr != 0 ==> Only(old(Views()), Views(), k, ptr - bases[k], k, 0)
      ensures BlockBytes(size) != 0 && r == 0 && size == 0 && ptr == 0 ==> Views() == old(Views())
      ensures BlockBytes(size) != 0 && r != 0 && ptr != 0 ==>
                Carried(old(regions[k].M), ptr - bases[k], regions[k2].M, r - bases[k2],
                        Min(old(regions[k].B[i].len), BlockBytes(size) / 16))
      ensures BlockBytes(size) == 0 && ptr != 0 ==> r == ptr && NoneLeft(old(Views()), k, i)
      ensures BlockBytes(size) == 0 && ptr == 0 ==> if r == 0 then Valid() && Views() == old(Views()) && Full(0) else NoneTaken(old(Views()), r, k2, i2)
    {
      hide Valid, Arena.Valid, Kept, KeptIn, Carried, WasFree, Only, Full, NoneLeft, NoneTaken;
      BlockBytesExact(size);
      if BlockBytes(size) != 0 {
        r, k2, i2 := ReallocSome(ptr, size, k, i);
      } else if ptr == 0 {
        r, k2, i2 := MallocBelow(size, MEM_ANY);
      } else {
        k2, i2, r := k, i, ptr;
        LiveInside(ptr, k, i);
        var x := ArenaOf(ptr, k);
        ReallocNone(x, ptr - bases[x], size, i);
      }
    }

    /** The block has been freed, or its region is damaged. */
    ghost predicate NoneLeft(V0: seq<View>, k: nat, i: nat)
      reads Repr()
    {
      && Apart() && |V0| == |regions| && k < |regions| && i < |V0[k].B|
      && (forall z {:trigger regions[z]} :: 0 <= z < |regions| && z != k ==> regions[z].Valid() && Views()[z] == V0[z])
      && (Valid() <==> !FreeBefore(V0[k].B, i)) && (!Valid() ==> Mismatch(regions[k].M, V0[k].B[i - 1]))
      && (Valid() ==> regions[k].B == Freed(V0[k].B, i) && Kept(V0, Views(), k, V0[k].B[i].pos) && Only(V0, Views(), k, V0[k].B[i].pos, k, 0))
    }

    method ReallocNone(x: nat, p: nat, size: nat, ghost i: nat)
      requires Valid() && size < 0x1_0000_0000 && BlockBytes(size) == 0 && x < |regions| == |bases| && Live(bases[x] + p, x, i)
      modifies Repr()
      ensures NoneLeft(old(Views()), x, i)
    {
      hide Arena.Valid, Tiles, OthersKept, KeptIn, Freed, Mismatch;
      ghost var V0 := Views();
      BlockInside(regions[x], i);
      TilesOf(regions[x]);
      var q, damaged := regions[x].Realloc(p, size, i);
      forall z | 0 <= z < |regions| && z != x ensures regions[z].Valid() && Views()[z] == V0[z] {
        OtherRegion(z, x);
      }
      assert Valid() <==> regions[x].Valid();
      if !damaged {
        FreeKept(V0[x], View(regions[x].M, regions[x].B), i);
        Rest(V0, Views(), x, p);
        FreedUsed(V0[x].B, regions[x].total, i);
        OnlyHere(V0, Views(), x, p, 0);
      }
    }

    method ReallocSome(ptr: nat, size: nat, ghost k: nat, ghost i: nat) returns (r: nat, ghost k2: nat, ghost i2: nat)
      requires Valid() && size < 0x1_0000_0000 && BlockBytes(size) >= 16 && (ptr != 0 ==> Live(ptr, k, i))
      modifies Repr()
      ensures Valid() && (size == 0 ==> r == 0) && (size != 0 && r == 0 ==> Views() == old(Views()))
      ensures if ptr == 0 then Kept(old(Views()), Views(), 0, 0) else Kept(old(Views()), Views(), k, ptr - bases[k])
      ensures r != 0 ==> Live(r, k2, i2) && regions[k2].B[i2].len == BlockBytes(size) / 16
      ensures r != 0 && r != ptr ==> WasFree(old(Views())[k2].B, r - bases[k2])
      ensures r != 0 ==> Only(old(Views()), Views(), k, if ptr == 0 then 0 else ptr - bases[k], k2, r - bases[k2])
      ensures size != 0 && ptr != 0 ==> (r == ptr <==> InPlace(old(regions[k].B), i, BlockBytes(size) / 16))
      ensures r == 0 && size != 0 ==> Full(BlockBytes(size))
      ensures r == 0 && size == 0 && ptr != 0 ==> Only(old(Views()), Views(), k, ptr - bases[k], k, 0)
      ensures r == 0 && size == 0 && ptr == 0 ==> Views() == old(Views())
      ensures r != 0 && ptr != 0 ==>
                Carried(old(regions[k].M), ptr - bases[k], regions[k2].M, r - bases[k2],
                        Min(old(regions[k].B[i].len), BlockBytes(size) / 16))
    {
      hide Valid, Arena.Valid, Kept, KeptIn, Carried, WasFree, Only, Full;
      k2, i2 := k, i;
      if size == 0 {
        Unmoved(Views());
        Free(ptr, k, i);
        r := 0;
        return;
      }
      if ptr == 0 {
        r, k2, i2 := MallocBelow(size, MEM_ANY);
        OnlyRename(old(Views()), Views(), k2, k, 0, k2, r - (if r == 0 then r else bases[k2]));
        return;
      }
      LiveInside(ptr, k, i);
      var x := ArenaOf(ptr, k);
      r, k2, i2 := Resize(x, ptr - bases[x], size, i);
    }

    lemma LiveInside(ptr: nat, k: nat, i: nat)
      requires Valid() && Live(ptr, k, i)
      ensures bases[k] + FIRST <= ptr < bases[k] + regions[k].total
    {
      BlockInside(regions[k], i);
    }

    lemma LiveHeader(ptr: nat, k: nat, i: nat)
      requires Valid() && Live(ptr, k, i)
      ensures bases[k] + FIRST <= ptr < bases[k] + regions[k].total && regions[k].Coupled() && regions[k].B[i].len >= 1
      ensures ptr - bases[k] <= |regions[k].M.head| && SizeOf(regions[k].M.head[ptr - bases[k] - 1]) == 16 * regions[k].B[i].len
    {
      BlockInside(regions[k], i);
      HeaderSize(regions[k], i);
    }

    method Resize(x: nat, p: nat, size: nat, ghost i: nat) returns (r: nat, ghost k2: nat, ghost i2: nat)
      requires Valid() && 0 < size && size < 0x1_0000_0000 && BlockBytes(size) >= 16 && x < |regions| == |bases| && Live(bases[x] + p, x, i)
      modifies Repr()
      ensures Valid() && Kept(old(Views()), Views(), x, p) && (r == 0 ==> Views() == old(Views()))
      ensures r != 0 ==> Live(r, k2, i2) && regions[k2].B[i2].len == BlockBytes(size) / 16
      ensures r != 0 ==> Only(old(Views()), Views(), x, p, k2, r - bases[k2])
      ensures r == bases[x] + p <==> InPlace(old(regions[x].B), i, BlockBytes(size) / 16)
      ensures r == 0 ==> Full(BlockBytes(size))
      ensures r != 0 && r != bases[x] + p ==> WasFree(old(Views())[k2].B, r - bases[k2])
      ensures r != 0 ==> Carried(old(regions[x].M), p, regions[k2].M, r - bases[k2],
                                 Min(old(regions[x].B[i].len), BlockBytes(size) / 16))
    {
      hide Valid, Arena.Valid, Kept, KeptIn, Carried;
      k2, i2 := x, i;
      LiveInside(bases[x] + p, x, i);
      ghost var V0 := Views();
      var q := ResizeInPlace(x, p, size, i);
      if q != 0 {
        r := bases[x] + q;
        return;
      }
      assert Views()[x].B == V0[x].B;
      r, k2, i2 := Move(x, p, size, i);
    }

    method ResizeInPlace(x: nat, p: nat, size: nat, ghost i: nat) returns (q: nat)
      requires Valid() && size < 0x1_0000_0000 && BlockBytes(size) >= 16 && x < |regions| && Live(bases[x] + p, x, i)
      modifies Repr()
      ensures Valid() && Kept(old(Views()), Views(), x, p)
      ensures q == 0 ==> Views() == old(Views()) && BlockBytes(size) / 16 > regions[x].B[i].len
      ensures q != 0 <==> InPlace(old(regions[x].B), i, BlockBytes(size) / 16)
      ensures q != 0 ==> Only(old(Views()), Views(), x, p, x, p)
      ensures q != 0 ==> q == p && Live(bases[x] + p, x, i) && regions[x].B[i].len == BlockBytes(size) / 16
      ensures q != 0 ==> Carried(old(regions[x].M), p, regions[x].M, p, Min(old(regions[x].B[i].len), BlockBytes(size) / 16))
    {
      hide Arena.Valid, Tiles, KeptIn, Carried, OthersKept, Reallocated, SameData;
      ghost var V0, n := Views(), regions[x].B[i].len;
      BlockBytesExact(size);
      BlockInside(regions[x], i);
      var damaged;
      q, damaged := regions[x].Realloc(p, size, i);
      ghost var r := BlockBytes(size) / 16;
      forall z | 0 <= z < |regions| && z != x ensures regions[z].Valid() && Views()[z] == V0[z] {
        OtherRegion(z, x);
      }
      ReallocKept(V0[x], Views()[x], i);
      Rest(V0, Views(), x, p);
      if q != 0 {
        ReallocatedAt(V0[x].B, i, r);
        ReallocatedUsed(V0[x].B, regions[x].total, i, r);
        OnlyHere(V0, Views(), x, p, p);
        BlockInside(regions[x], i);
        CarriedInPlace(V0[x].M, regions[x].M, regions[x].total, p, Min(n, r));
      } else {
        ReallocatedAt(V0[x].B, i, r);
        assert Views() == V0;
      }
    }

    /** A block is needed elsewhere: take one, copy, and free the old one. */
    method Move(x: nat, p: nat, size: nat, ghost i: nat) returns (r: nat, ghost k2: nat, ghost i2: nat)
      requires Valid() && size < 0x1_0000_0000 && x < |regions| && Live(bases[x] + p, x, i)
      requires BlockBytes(size) / 16 > regions[x].B[i].len
      modifies Repr()
      ensures Valid() && Kept(old(Views()), Views(), x, p) && (r == 0 ==> Views() == old(Views()))
      ensures r != 0 ==> Live(r, k2, i2) && regions[k2].B[i2].len == BlockBytes(size) / 16
      ensures r != 0 ==> Only(old(Views()), Views(), x, p, k2, r - bases[k2])
      ensures r == 0 ==> Full(BlockBytes(size))
      ensures r != bases[x] + p && (r != 0 ==> WasFree(old(Views())[k2].B, r - bases[k2]))
      ensures r != 0 ==> Carried(old(regions[x].M), p, regions[k2].M, r - bases[k2], old(regions[x].B[i].len))
    {
      hide Valid, Arena.Valid, Kept, KeptIn, Carried, WasFree, AllSized, AllTiled, SameData;
      ghost var V0, n := Views(), regions[x].B[i].len;
      LiveInside(bases[x] + p, x, i);
      ViewsSized();
      LiveHeader(bases[x] + p, x, i);
      r, k2, i2 := MallocBelow(size, MEM_ANY);
      if r == 0 {
        NoneMoved(V0, x, p);
        return;
      }
      i2 := MoveTo(V0, x, p, r, i, k2, i2);
      WasElsewhere(V0, x, i, k2, r - bases[k2]);
      Elsewhere(x, p, r, k2, i2);
    }

    lemma Elsewhere(x: nat, p: nat, r: nat, k: nat, i: nat)
      requires Valid() && Live(r, k, i) && x < |regions| && FIRST <= p < regions[x].total && (x != k || r - bases[k] != p)
      ensures r != bases[x] + p
    {
      BlockInside(regions[k], i);
      if x != k { Disjoint(x, k); }
    }

    method MoveTo(ghost V0: seq<View>, x: nat, p: nat, r: nat, ghost i: nat, ghost k: nat, ghost j: nat) returns (ghost j2: nat)
      requires Valid() && x < |regions| == |V0| && i < |V0[x].B| && V0[x].B[i].used && V0[x].B[i].pos == p && 0 < p
      requires Live(r, k, j) && WasFree(V0[k].B, r - bases[k]) && regions[k].B[j].len > V0[x].B[i].len
      requires AllSized(V0, Totals()) && AllTiled(V0, Totals()) && Kept(V0, Views(), 0, 0)
      modifies Repr()
      ensures Valid() && Kept(V0, Views(), x, p) && Live(r, k, j2) && regions[k].B[j2] == old(regions[k].B[j])
      ensures old(Only(V0, Views(), k, 0, k, r - bases[k])) ==> Only(V0, Views(), x, p, k, r - bases[k])
      ensures Carried(V0[x].M, p, regions[k].M, r - bases[k], V0[x].B[i].len)
    {
      hide Valid, Arena.Valid, Kept, KeptIn, Carried, WasFree, AllSized, AllTiled, SameData;
      ViewsSized();
      ghost var V1, d := Views(), r - bases[k];
      ghost var i1 := StillThere(V0, V1, 0, 0, x, i);
      WasElsewhere(V0, x, i, k, d);
      PointersDiffer(x, i1, k, j);
      ghost var V2;
      j2, V2 := CopyAndFree(x, p, r, i1, k, j);
      ViewsSized();
      MoveOk(V0, V1, V2, Views(), Totals(), k, d, x, p, V0[x].B[i].len, V1[k].B[j].len);
      if Only(V0, V1, k, 0, k, d) { OnlyThrough(V0, V1, V2, Views(), k, d, x, p); }
    }

    lemma PointersDiffer(x: nat, i: nat, y: nat, j: nat)
      requires Valid() && x < |regions| == |bases| && i < |regions[x].B| && y < |regions| && j < |regions[y].B|
      requires x != y || regions[x].B[i].pos != regions[y].B[j].pos
      ensures bases[x] + regions[x].B[i].pos != bases[y] + regions[y].B[j].pos
      ensures FIRST <= regions[x].B[i].pos < regions[x].B[i].Past() <= regions[x].total
      ensures FIRST <= regions[y].B[j].pos < regions[y].B[j].Past() <= regions[y].total
    {
      BlockInside(regions[x], i);
      BlockInside(regions[y], j);
      if x != y { Disjoint(x, y); }
    }

    method CopyAndFree(x: nat, p: nat, r: nat, ghost i: nat, ghost k: nat, ghost j: nat) returns (ghost j2: nat,
                       ghost V2: seq<View>)
      requires Valid() && x < |regions| && Live(bases[x] + p, x, i) && Live(r, k, j) && bases[x] + p != r
      requires regions[k].B[j].len > regions[x].B[i].len
      modifies Repr()
      ensures Valid() && AllSized(V2, Totals())
      ensures |V2| == |regions| && (forall z {:trigger V2[z]} :: 0 <= z < |V2| ==> V2[z].B == old(Views())[z].B) && Only(V2, Views(), x, p, x, 0)
      ensures Kept(old(Views()), V2, k, r - bases[k]) && Kept(V2, Views(), x, p)
      ensures Live(r, k, j2) && regions[k].B[j2] == old(regions[k].B[j])
      ensures Carried(old(regions[x].M), p, V2[k].M, r - bases[k], old(regions[x].B[i].len))
      ensures SameData(V2[k].M, regions[k].M, old(regions[k].B[j]))
    {
      hide Valid, Arena.Valid, Arena.Coupled, Kept, KeptIn, Carried, SameData, AllTiled, AllSized;
      LiveHeader(bases[x] + p, x, i);
      LiveInside(r, k, j);
      var len := SizeOf(regions[x].Head(p - 1)) / 16;
      var y := ArenaOf(r, k);
      Copy(x, p, len, y, r - bases[y], i, j);
      V2 := Views();
      ViewsSized();
      Free(bases[x] + p, x, i);
      j2 := StillThere(V2, Views(), x, p, k, j);
    }

    /** The owner of a block writes a word of it. */
    method Write(ptr: nat, w: nat, v: int, ghost k: nat, ghost i: nat)
      requires Valid() && Live(ptr, k, i) && w < 4 * regions[k].B[i].len - 2
      modifies Repr()
      ensures Valid() && Kept(old(Views()), Views(), k, ptr - bases[k])
      ensures forall z {:trigger regions[z]} :: 0 <= z < |regions| ==> regions[z].B == old(regions[z].B)
      ensures regions[k].M == Put(old(regions[k].M), ptr - bases[k] + w / 4, w % 4, v)
    {
      hide Arena.Valid, Tiles, KeptIn, Put;
      ghost var V0, p := Views(), ptr - bases[k];
      BlockInside(regions[k], i);
      var x := ArenaOf(ptr, k);
      regions[x].Store(ptr - bases[x], w, v, i);
      forall z | 0 <= z < |regions| && z != x ensures regions[z].Valid() && Views()[z] == V0[z] {
        OtherRegion(z, x);
      }
      BlockInside(regions[k], i);
      PutInside(V0[k].M, p + w / 4, w % 4, v, p, V0[k].B[i].Past(), regions[k].total);
      CopyKept(V0[k], Views()[k], regions[k].total, i);
      Rest(V0, Views(), k, p);
    }
  }

  function Min(a: nat, b: nat): nat { if a < b then a else b }

  /** All words but those of the lines from lo to hi are as they were. */
  ghost predicate WordsOutside(M0: Mem, M: Mem, lo: nat, hi: nat) {
    forall q: nat, k: nat {:trigger Word(M, q, k)} :: !(lo <= q < hi) && k < 4 ==> Word(M, q, k) == Word(M0, q, k)
  }

  lemma PutInside(M: Mem, q: nat, k: nat, v: int, lo: nat, hi: nat, total: nat)
    requires Sized(M, total) && lo <= q < hi <= total && k < 4
    ensures WordsOutside(M, Put(M, q, k, v), lo, hi)
  {
  }

  ghost predicate CopiedUpTo(M0: Mem, p: nat, M: Mem, q: nat, w: nat) {
    forall x: nat, k: nat {:trigger DataWord(M, q, x, k)} :: 4 * x + k < w && k < 4 ==> DataWord(M, q, x, k) == DataWord(M0, p, x, k)
  }

  lemma SourceKept(M0: Mem, M: Mem, q: nat, len: nat, z: nat, k: nat)
    requires WordsOutside(M0, M, q, q + len) && !(q <= z < q + len) && k < 4
    ensures Word(M, z, k) == Word(M0, z, k)
  {
  }

  lemma NothingCopied(M0: Mem, p: nat, M: Mem, lo: nat, hi: nat)
    ensures WordsOutside(M, M, lo, hi) && CopiedUpTo(M0, p, M, lo, 0)
  {
  }

  lemma CopyStep(S: Mem, p: nat, M0: Mem, M1: Mem, M: Mem, q: nat, len: nat, w: nat, v: int)
    requires Sized(M1, |M1.prev|) && q + len <= |M1.prev| && w / 4 < len && v == Word(S, p + w / 4, w % 4)
    requires M == Put(M1, q + w / 4, w % 4, v)
    requires WordsOutside(M0, M1, q, q + len) && CopiedUpTo(S, p, M1, q, w)
    ensures WordsOutside(M0, M, q, q + len) && CopiedUpTo(S, p, M, q, w + 1)
  {
    forall x: nat, k: nat {:trigger Word(M, x, k)} | k < 4
      ensures Word(M, x, k) == if x == q + w / 4 && k == w % 4 then v else Word(M1, x, k)
    {
    }
    forall x: nat, k: nat {:trigger DataWord(M, q, x, k)} | 4 * x + k < w + 1 && k < 4
      ensures DataWord(M, q, x, k) == DataWord(S, p, x, k)
    {
      if 4 * x + k < w { assert DataWord(M1, q, x, k) == DataWord(S, p, x, k); } else { assert x == w / 4 && k == w % 4; }
    }
  }

  lemma CopyDone(M0: Mem, p: nat, M: Mem, q: nat, n: nat, w: nat)
    requires n >= 1 && w >= 4 * n - 1 && CopiedUpTo(M0, p, M, q, w)
    ensures Carried(M0, p, M, q, n)
  {
  }

  lemma BlocksApart(a: Arena, i: nat, j: nat)
    requires a.Valid() && i < |a.B| && j < |a.B| && a.B[i].pos != a.B[j].pos
    ensures a.B[i].Past() <= a.B[j].pos || a.B[j].Past() <= a.B[i].pos
  {
    if i < j { Order(a.B, a.total, i, j); } else if j < i { Order(a.B, a.total, j, i); }
  }

  /** What one region did does not concern the others. */
  lemma Rest(V0: seq<View>, V: seq<View>, k: nat, p: nat)
    requires |V| == |V0| && k < |V0| && KeptIn(V0[k], V[k], p)
    requires forall x {:trigger V[x]} {:trigger V0[x]} :: 0 <= x < |V| && x != k ==> V[x] == V0[x]
    ensures Kept(V0, V, k, p)
  {
    forall x {:trigger V0[x]} | 0 <= x < |V0| && x != k ensures KeptIn(V0[x], V[x], 0) {
      KeptAll(V0[x]);
    }
  }

  ghost predicate NoRoom(B: seq<Block>, bytes: int) {
    forall b {:trigger b in B} :: b in B && !b.used ==> 16 * b.len < bytes
  }

  lemma AllocatedAt(B: seq<Block>, j: nat, r: nat)
    requires j < |B| && r <= B[j].len
    ensures var R := Allocated(B, j, r); j < |R| && R[j] == Block(B[j].pos, r, true)
  {
    ReplaceIndex(B, j, j + 1, Carve(B[j].pos, B[j].len, r));
  }

  ghost predicate WasFree(B: seq<Block>, p: int) {
    forall j {:trigger B[j]} :: 0 <= j < |B| && B[j].used ==> B[j].pos != p
  }

  lemma TilesOf(a: Arena)
    requires a.Valid()
    ensures Tiles(a.B, a.total)
  {
  }

  lemma PlaceWasFree(v: View, total: nat, i: nat)
    requires Tiles(v.B, total) && i < |v.B| && !v.B[i].used
    ensures WasFree(v.B, v.B[i].pos)
  {
    forall j | 0 <= j < |v.B| && v.B[j].used ensures v.B[j].pos != v.B[i].pos {
      if i < j { Order(v.B, total, i, j); Inside(v.B, total, i); } else if j < i { Order(v.B, total, j, i); Inside(v.B, total, j); }
    }
  }

  lemma ReallocKept(v0: View, v: View, i: nat)
    requires i < |v0.B| && OthersKept(v0.M, v.M, v0.B, v.B, i, i + 1)
    ensures KeptIn(v0, v, v0.B[i].pos)
  {
    forall j | 0 <= j < |v0.B| && v0.B[j].used && v0.B[j].pos != v0.B[i].pos
      ensures v0.B[j] in v.B && SameData(v0.M, v.M, v0.B[j])
    {
      assert SameData(v0.M, v.M, v0.B[j]);
    }
  }

  /** The block stays where it is, with the requested length if the request can be met there. */
  lemma ReallocatedAt(B: seq<Block>, i: nat, r: nat)
    requires i < |B| && B[i].used && r >= 1
    ensures var R := Reallocated(B, i, r);
            && i < |R| && R[i] == (if r <= B[i].len || CanGrow(B, i, r) then Block(B[i].pos, r, true) else B[i])
            && (!(r <= B[i].len || CanGrow(B, i, r)) ==> R == B)
  {
    if r < B[i].len {
      CutIndex(B, i, r);
      var C := Cut(B, i, r);
      var a, c := MergeFrom(C, i + 1), MergeTo(C, i + 1);
      ReplaceIndex(C, a, c, [Block(C[a].pos, Length(C[a..c]), false)]);
    } else if r > B[i].len && CanGrow(B, i, r) {
      ReplaceIndex(B, i, i + 2, Carve(B[i].pos, B[i].len + B[i + 1].len, r));
    }
  }

  /** Taking a new block, writing to it, and freeing an old one keeps all others. */
  lemma KeptThrough(V0: seq<View>, V1: seq<View>, V2: seq<View>, V3: seq<View>, totals: seq<nat>, k: nat, q: nat, x: nat, p: nat)
    requires Kept(V0, V1, 0, 0) && Kept(V1, V2, k, q) && Kept(V2, V3, x, p) && k < |V0| && WasFree(V0[k].B, q)
    requires AllSized(V0, totals) && AllSized(V1, totals) && AllSized(V2, totals) && AllSized(V3, totals)
    requires AllTiled(V0, totals)
    ensures Kept(V0, V3, x, p)
  {
    forall z {:trigger V0[z]} | 0 <= z < |V0| ensures KeptIn(V0[z], V3[z], if z == x then p else 0) {
      KeptInThrough(V0[z], V1[z], V2[z], V3[z], totals[z], if z == k then q else 0, if z == x then p else 0);
    }
  }

  lemma KeptInThrough(v0: View, v1: View, v2: View, v3: View, total: nat, q: nat, p: nat)
    requires KeptIn(v0, v1, 0) && KeptIn(v1, v2, q) && KeptIn(v2, v3, p) && Tiles(v0.B, total) && (q != 0 ==> WasFree(v0.B, q))
    requires Sized(v0.M, total) && Sized(v1.M, total) && Sized(v2.M, total) && Sized(v3.M, total)
    ensures KeptIn(v0, v3, p)
  {
    forall j | 0 <= j < |v0.B| && v0.B[j].used && v0.B[j].pos != p ensures v0.B[j] in v3.B && SameData(v0.M, v3.M, v0.B[j]) {
      Inside(v0.B, total, j);
      BlockThrough(v0, v1, v2, v3, total, q, p, j);
    }
  }

  lemma BlockThrough(v0: View, v1: View, v2: View, v3: View, total: nat, q: nat, p: nat, j: nat)
    requires KeptIn(v0, v1, 0) && KeptIn(v1, v2, q) && KeptIn(v2, v3, p) && j < |v0.B|
    requires v0.B[j].used && v0.B[j].pos != 0 && v0.B[j].pos != q && v0.B[j].pos != p
    requires Sized(v0.M, total) && Sized(v1.M, total) && Sized(v2.M, total) && Sized(v3.M, total)
    ensures v0.B[j] in v3.B && SameData(v0.M, v3.M, v0.B[j])
  {
    hide SameData, Sized;
    var b := v0.B[j];
    assert SameData(v0.M, v1.M, v0.B[j]);
    var j1 :| 0 <= j1 < |v1.B| && v1.B[j1] == b;
    assert SameData(v1.M, v2.M, v1.B[j1]);
    var j2 :| 0 <= j2 < |v2.B| && v2.B[j2] == b;
    assert SameData(v2.M, v3.M, v2.B[j2]);
    SameDataTrans(v0.M, v1.M, v2.M, total, b);
    SameDataTrans(v0.M, v2.M, v3.M, total, b);
  }

  lemma MoveOk(V0: seq<View>, V1: seq<View>, V2: seq<View>, V3: seq<View>, totals: seq<nat>, k: nat, q: nat, x: nat,
               p: nat, n: nat, len: nat)
    requires Kept(V0, V1, 0, 0) && Kept(V1, V2, k, q) && Kept(V2, V3, x, p) && k < |V0| && x < |V0| && WasFree(V0[k].B, q)
    requires AllSized(V0, totals) && AllSized(V1, totals) && AllSized(V2, totals) && AllSized(V3, totals) && AllTiled(V0, totals)
    requires SameData(V0[x].M, V1[x].M, Block(p, n, true)) && SameData(V2[k].M, V3[k].M, Block(q, len, true))
    requires Carried(V1[x].M, p, V2[k].M, q, n) && n < len && p + n <= totals[x] && q + len <= totals[k]
    ensures Kept(V0, V3, x, p) && Carried(V0[x].M, p, V3[k].M, q, n)
  {
    KeptThrough(V0, V1, V2, V3, totals, k, q, x, p);
    CarriedThrough(V0[x].M, V1[x].M, p, n, V2[k].M, V3[k].M, q, len, totals[x], totals[k]);
  }

  lemma CarriedThrough(M0: Mem, M1: Mem, p: nat, n: nat, M2: Mem, M3: Mem, q: nat, len: nat, total0: nat, total2: nat)
    requires SameData(M0, M1, Block(p, n, true)) && Sized(M0, total0) && Sized(M1, total0) && p + n <= total0
    requires SameData(M2, M3, Block(q, len, true)) && Sized(M2, total2) && Sized(M3, total2) && q + len <= total2
    requires Carried(M1, p, M2, q, n) && n < len
    ensures Carried(M0, p, M3, q, n)
  {
    CarriedInPlace(M0, M1, total0, p, n);
    CarriedInPlace(M2, M3, total2, q, len);
    forall x: nat, k: nat {:trigger DataWord(M3, q, x, k)} | x < n && k < 4 && (k >= 2 ==> x < n - 1)
      ensures DataWord(M3, q, x, k) == DataWord(M0, p, x, k)
    {
      assert DataWord(M3, q, x, k) == DataWord(M2, q, x, k) == DataWord(M1, p, x, k);
    }
  }

  lemma CarriedInPlace(M0: Mem, M: Mem, total: nat, p: nat, n: nat)
    requires SameData(M0, M, Block(p, n, true)) && Sized(M0, total) && Sized(M, total) && p + n <= total
    ensures Carried(M0, p, M, p, n)
  {
    forall x: nat, k: nat {:trigger DataWord(M, p, x, k)} | x < n && k < 4 && (k >= 2 ==> x < n - 1)
      ensures DataWord(M, p, x, k) == DataWord(M0, p, x, k)
    {
      if k == 0 { assert M.prev[p + x] == M0.prev[p + x]; }
      else if k == 1 { assert M.next[p + x] == M0.next[p + x]; }
      else if k == 2 { assert M.foot[p + x] == M0.foot[p + x]; }
      else { assert M.head[p + x] == M0.head[p + x]; }
    }
  }

  lemma MallocKept(v0: View, v: View, i: nat)
    requires i < |v0.B| && !v0.B[i].used && OthersKept(v0.M, v.M, v0.B, v.B, i, i + 1)
    ensures KeptIn(v0, v, 0)
  {
    forall j | 0 <= j < |v0.B| && v0.B[j].used ensures v0.B[j] in v.B && SameData(v0.M, v.M, v0.B[j]) {
      assert SameData(v0.M, v.M, v0.B[j]);
    }
  }

  lemma NoneMoved(V: seq<View>, k: nat, p: nat)
    ensures Kept(V, V, k, p)
  {
    forall x {:trigger V[x]} | 0 <= x < |V| && x != k ensures KeptIn(V[x], V[x], 0) { KeptAll(V[x]); }
  }

  lemma StillThere(V0: seq<View>, V: seq<View>, k: nat, p: nat, x: nat, i: nat) returns (j: nat)
    requires Kept(V0, V, k, p) && x < |V0| && i < |V0[x].B| && V0[x].B[i].used && V0[x].B[i].pos != 0
    requires x != k || V0[x].B[i].pos != p
    ensures j < |V[x].B| && V[x].B[j] == V0[x].B[i] && SameData(V0[x].M, V[x].M, V0[x].B[i])
  {
    assert KeptIn(V0[x], V[x], if x == k then p else 0);
    assert SameData(V0[x].M, V[x].M, V0[x].B[i]);
    j :| 0 <= j < |V[x].B| && V[x].B[j] == V0[x].B[i];
  }

  lemma WasElsewhere(V0: seq<View>, x: nat, i: nat, k: nat, p: nat)
    requires x < |V0| && i < |V0[x].B| && V0[x].B[i].used && k < |V0| && WasFree(V0[k].B, p)
    ensures x != k || V0[x].B[i].pos != p
  {
  }

  ghost predicate AllSized(V: seq<View>, totals: seq<nat>) {
    |V| == |totals| && forall x {:trigger V[x]} :: 0 <= x < |V| ==> Sized(V[x].M, totals[x])
  }

  ghost predicate AllTiled(V: seq<View>, totals: seq<nat>) {
    |V| == |totals| && forall x {:trigger V[x]} :: 0 <= x < |V| ==> Tiles(V[x].B, totals[x])
  }

  lemma Unmoved(V: seq<View>)
    ensures Kept(V, V, 0, 0)
  {
    forall x {:trigger V[x]} | 0 <= x < |V| ensures KeptIn(V[x], V[x], 0) {
      KeptAll(V[x]);
    }
  }

  lemma CopyKept(v0: View, v: View, total: nat, j: nat)
    requires v.B == v0.B && j < |v0.B| && Tiles(v0.B, total) && Sized(v0.M, total) && Sized(v.M, total)
    requires WordsOutside(v0.M, v.M, v0.B[j].pos, v0.B[j].Past())
    ensures KeptIn(v0, v, v0.B[j].pos)
  {
    forall i | 0 <= i < |v0.B| && v0.B[i].used && v0.B[i].pos != v0.B[j].pos
      ensures v0.B[i] in v.B && SameData(v0.M, v.M, v0.B[i])
    {
      if i < j { Order(v0.B, total, i, j); } else { Order(v0.B, total, j, i); }
      WordsSame(v0.M, v.M, v0.B[j].pos, v0.B[j].Past(), v0.B[i]);
    }
  }

  lemma WordsSame(M0: Mem, M: Mem, lo: nat, hi: nat, b: Block)
    requires WordsOutside(M0, M, lo, hi) && (b.Past() <= lo || hi <= b.pos)
    ensures SameData(M0, M, b)
  {
    forall q {:trigger M.prev[q]} | b.pos <= q < b.Past() && q < |M0.prev| && q < |M.prev| ensures M.prev[q] == M0.prev[q] {
      assert Word(M, q, 0) == Word(M0, q, 0);
    }
    forall q {:trigger M.next[q]} | b.pos <= q < b.Past() && q < |M0.next| && q < |M.next| ensures M.next[q] == M0.next[q] {
      assert Word(M, q, 1) == Word(M0, q, 1);
    }
    forall q {:trigger M.foot[q]} | b.pos <= q < b.Past() - 1 && q < |M0.foot| && q < |M.foot| ensures M.foot[q] == M0.foot[q] {
      assert Word(M, q, 2) == Word(M0, q, 2);
    }
    forall q {:trigger M.head[q]} | b.pos <= q < b.Past() - 1 && q < |M0.head| && q < |M.head| ensures M.head[q] == M0.head[q] {
      assert Word(M, q, 3) == Word(M0, q, 3);
    }
  }

  lemma KeptAll(v: View)
    ensures KeptIn(v, v, 0)
  {
  }

  lemma FreeKept(v0: View, v: View, i: nat)
    requires i < |v0.B| && OthersKept(v0.M, v.M, v0.B, v.B, MergeFrom(v0.B, i), MergeTo(v0.B, i))
    ensures KeptIn(v0, v, v0.B[i].pos)
  {
    forall j | 0 <= j < |v0.B| && v0.B[j].used && v0.B[j].pos != v0.B[i].pos
      ensures v0.B[j] in v.B && SameData(v0.M, v.M, v0.B[j])
    {
      assert !(MergeFrom(v0.B, i) <= j < MergeTo(v0.B, i));
      assert SameData(v0.M, v.M, v0.B[j]);
    }
  }

  lemma HeaderSize(a: Arena, i: nat)
    requires a.Valid() && i < |a.B|
    ensures FIRST <= a.B[i].pos <= |a.M.head| && SizeOf(a.M.head[a.B[i].pos - 1]) == 16 * a.B[i].len
  {
    HeaderFacts(a.M, a.B, a.F, a.L, a.total, i);
  }

  lemma BlockInside(a: Arena, i: nat)
    requires a.Valid() && i < |a.B|
    ensures FIRST <= a.B[i].pos < a.B[i].Past() <= a.total && Tiles(a.B, a.total) && Sized(a.M, a.total)
    ensures a.Coupled()
  {
    Inside(a.B, a.total, i);
  }
}
