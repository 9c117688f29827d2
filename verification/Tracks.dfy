/** Tracks (drivers/floppy-mfm.c): the sectors of a track buffer are moved to its end, in place, and get
    new headers, so that the track can be written to the disk again. */
module Tracks {
  import opened Mfm
  import opened Sectors
  import opened Headers

  const NSECTORS: nat := 11
  const NTRACKS: nat := 160
  // in 16-bit words
  const GAP: nat := 416
  const TRACK: nat := 6400

  function SectorIn(words: seq<bv16>, p: nat): (r: seq<bv32>)
    requires p + SECTOR <= |words|
    ensures |r| == LONGS
  {
    Longs(words[p..p + SECTOR])
  }

  lemma SectorIs(mem: array<bv16>, p: nat)
    requires p + SECTOR <= mem.Length
    ensures Sector(mem, p) == SectorIn(mem[..], p)
  {
    assert mem[..][p..p + SECTOR] == mem[p..p + SECTOR];
  }

  lemma SectorSame(before: seq<bv16>, after: seq<bv16>, p: nat, a: nat, b: nat)
    requires Same(before, after, a, b) && p + SECTOR <= |before| && (p + SECTOR <= a || b <= p)
    ensures SectorIn(after, p) == SectorIn(before, p)
  {
    assert after[p..p + SECTOR] == before[p..p + SECTOR];
  }

  /** Sectors `a` to `b` of `secs` are at the places `ps`. */
  ghost predicate Stored(words: seq<bv16>, ps: seq<nat>, secs: seq<seq<bv32>>, a: nat, b: nat) {
    && b <= |ps| == |secs|
    && forall i {:trigger secs[i]} {:trigger ps[i]} :: a <= i < b ==> ps[i] + SECTOR <= |words| && SectorIn(words, ps[i]) == secs[i]
  }

  lemma StoredSame(before: seq<bv16>, after: seq<bv16>, ps: seq<nat>, secs: seq<seq<bv32>>, a: nat, b: nat, from: nat, to: nat)
    requires Stored(before, ps, secs, a, b) && Same(before, after, from, to)
    requires forall i {:trigger ps[i]} :: a <= i < b ==> ps[i] + SECTOR <= from || to <= ps[i]
    ensures Stored(after, ps, secs, a, b)
  {
    forall i {:trigger secs[i]} | a <= i < b ensures ps[i] + SECTOR <= |after| && SectorIn(after, ps[i]) == secs[i] {
      var sec := secs[i];
      SectorSame(before, after, ps[i], from, to);
    }
  }

  function Slot(base: nat, i: nat): nat { base + GAP + i * SECTOR }

  function Slots(base: nat): (s: seq<nat>)
    ensures |s| == NSECTORS && forall i {:trigger s[i]} :: 0 <= i < NSECTORS ==> s[i] == Slot(base, i)
  {
    seq(NSECTORS, i requires 0 <= i < NSECTORS => Slot(base, i))
  }

  /** The number of the `i`th sector in the order of the memory, when sector `last` is the last one there */
  function NumAt(last: nat, i: nat): nat { if last + 1 + i < NSECTORS then last + 1 + i else last + 1 + i - NSECTORS }

  /** No two of the places overlap, and all end before the track does. */
  ghost predicate Spread(ps: seq<nat>, base: nat) {
    && |ps| == NSECTORS && ps[0] > 0 && ps[NSECTORS - 1] + SECTOR <= base + TRACK
    && forall i {:trigger ps[i]} :: 0 < i < NSECTORS ==> ps[i - 1] + SECTOR <= ps[i]
  }

  /** In the order of the memory the sectors are numbered consecutively, up to `last`. */
  ghost predicate Rotated(sectors: seq<nat>, ps: seq<nat>, last: nat) {
    && |sectors| == NSECTORS == |ps| && last < NSECTORS
    && forall i {:trigger ps[i]} {:trigger NumAt(last, i)} :: 0 <= i < NSECTORS ==> sectors[NumAt(last, i)] == ps[i]
  }

  /** A sector only ever moves up, and its new place is beyond the old places of all sectors before it:
      no sector is overwritten before it is moved. */
  lemma {:induction false} MovesUp(ps: seq<nat>, base: nat, i: nat)
    requires Spread(ps, base) && i < NSECTORS
    ensures ps[i] <= Slot(base, i)
    ensures forall k {:trigger ps[k]} :: 0 <= k < i ==> ps[k] + SECTOR <= Slot(base, i)
    decreases NSECTORS - i
  {
    if i < NSECTORS - 1 {
      MovesUp(ps, base, i + 1);
      assert ps[i] + SECTOR <= ps[i + 1];
    }
    forall k {:trigger ps[k]} | 0 <= k < i ensures ps[k] + SECTOR <= Slot(base, i) { Below(ps, base, k, i); }
  }

  lemma {:induction false} Below(ps: seq<nat>, base: nat, k: nat, i: nat)
    requires Spread(ps, base) && k < i < NSECTORS
    ensures ps[k] + SECTOR <= ps[i]
  {
    assert ps[i - 1] + SECTOR <= ps[i];
    if k < i - 1 { Below(ps, base, k, i - 1); }
  }

  /** memmove of a sector */
  method Move(mem: array<bv16>, dst: nat, src: nat)
    requires dst + SECTOR <= mem.Length && src + SECTOR <= mem.Length
    modifies mem
    ensures SectorIn(mem[..], dst) == old(SectorIn(mem[..], src)) && Same(old(mem[..]), mem[..], dst, dst + SECTOR)
  {
    forall i | 0 <= i < SECTOR {
      mem[dst + i] := mem[src + i];
    }
    assert mem[..][dst..dst + SECTOR] == old(mem[..][src..src + SECTOR]);
  }

  /** The first loop of RealignTrack: the sector with the highest address */
  method FindLast(sectors: array<nat>, ghost ps: seq<nat>, ghost base: nat, ghost last: nat) returns (lastNum: nat)
    requires sectors.Length == NSECTORS && Spread(ps, base) && Rotated(sectors[..], ps, last)
    ensures lastNum == last
  {
    Highest(sectors[..], ps, base, last);
    var highest := 0;
    lastNum := 0;
    var i := 0;
    while i < NSECTORS
      invariant i <= NSECTORS && if i <= last then highest < sectors[last] else lastNum == last && highest == sectors[last]
    {
      assert i != last ==> sectors[..][i] < sectors[..][last];
      if sectors[i] > highest {
        highest := sectors[i];
        lastNum := i;
      }
      i := i + 1;
    }
  }

  lemma Highest(sectors: seq<nat>, ps: seq<nat>, base: nat, last: nat)
    requires Spread(ps, base) && Rotated(sectors, ps, last)
    ensures sectors[last] > 0 && forall j {:trigger sectors[j]} :: 0 <= j < NSECTORS && j != last ==> sectors[j] < sectors[last]
  {
    assert NumAt(last, NSECTORS - 1) == last && sectors[last] == ps[NSECTORS - 1];
    Below(ps, base, 0, NSECTORS - 1);
    forall j {:trigger sectors[j]} | 0 <= j < NSECTORS && j != last ensures sectors[j] < sectors[last] {
      var i := if j > last then j - last - 1 else j + NSECTORS - last - 1;
      assert NumAt(last, i) == j && sectors[j] == ps[i];
      Below(ps, base, i, NSECTORS - 1);
    }
  }

  /** The sectors are where they are expected while they are compacted: from the `i`th on they have moved. */
  ghost predicate Compacting(words: seq<bv16>, words0: seq<bv16>, base: nat, sectors: seq<nat>, ps: seq<nat>,
                             last: nat, secs: seq<seq<bv32>>, i: nat) {
    && i <= NSECTORS && |words| == |words0| && |ps| == NSECTORS
    && Stored(words, Slots(base), secs, i, NSECTORS) && Stored(words, ps, secs, 0, i)
    && Same(words0, words, Slot(base, i), base + TRACK) && Renamed(base, sectors, ps, last, i)
  }

  ghost predicate Renamed(base: nat, sectors: seq<nat>, ps: seq<nat>, last: nat, i: nat) {
    && |sectors| == NSECTORS == |ps| && last < NSECTORS
    && forall m {:trigger ps[m]} {:trigger NumAt(last, m)} :: 0 <= m < NSECTORS ==> sectors[NumAt(last, m)] == if m < i then ps[m] else Slot(base, m)
  }

  lemma RenameOne(base: nat, sectors: seq<nat>, ps: seq<nat>, last: nat, i: nat)
    requires Renamed(base, sectors, ps, last, i) && 0 < i <= NSECTORS
    ensures sectors[NumAt(last, i - 1)] == ps[i - 1]
    ensures Renamed(base, sectors[NumAt(last, i - 1) := Slot(base, i - 1)], ps, last, i - 1)
  {
    hide Slot;
    var r := sectors[NumAt(last, i - 1) := Slot(base, i - 1)];
    var p := ps[i - 1];
    forall m {:trigger ps[m]} {:trigger NumAt(last, m)} | 0 <= m < NSECTORS ensures r[NumAt(last, m)] == if m < i - 1 then ps[m] else Slot(base, m) {
      var q := ps[m];
    }
  }

  lemma RenamedAll(base: nat, sectors: seq<nat>, ps: seq<nat>, last: nat)
    requires |ps| == NSECTORS
    ensures Rotated(sectors, ps, last) ==> Renamed(base, sectors, ps, last, NSECTORS)
    ensures Renamed(base, sectors, ps, last, 0) ==> Rotated(sectors, Slots(base), last)
  {
    var slots := Slots(base);
    if Renamed(base, sectors, ps, last, 0) {
      forall m {:trigger slots[m]} | 0 <= m < NSECTORS ensures sectors[NumAt(last, m)] == slots[m] {
        var p := ps[m];
      }
    }
  }

  lemma CompactOne(words: seq<bv16>, next: seq<bv16>, words0: seq<bv16>, base: nat, sectors: seq<nat>, ps: seq<nat>,
                   last: nat, secs: seq<seq<bv32>>, i: nat)
    requires Spread(ps, base) && 0 < i && Compacting(words, words0, base, sectors, ps, last, secs, i)
    requires base + TRACK <= |words| && ps[i - 1] + SECTOR <= |words|
    requires Same(words, next, Slot(base, i - 1), Slot(base, i - 1) + SECTOR) && SectorIn(next, Slot(base, i - 1)) == SectorIn(words, ps[i - 1])
    ensures Compacting(next, words0, base, sectors[NumAt(last, i - 1) := Slot(base, i - 1)], ps, last, secs, i - 1)
  {
    hide SectorIn, Stored, Renamed, Spread;
    var slots := Slots(base);
    MovesUp(ps, base, i - 1);
    StoredSame(words, next, slots, secs, i, NSECTORS, Slot(base, i - 1), Slot(base, i - 1) + SECTOR);
    StoredLess(words, ps, secs, i);
    StoredSame(words, next, ps, secs, 0, i - 1, Slot(base, i - 1), Slot(base, i - 1) + SECTOR);
    RenameOne(base, sectors, ps, last, i);
    StoredStep(words, next, ps, slots, secs, i);
  }

  lemma StoredStep(words: seq<bv16>, next: seq<bv16>, ps: seq<nat>, slots: seq<nat>, secs: seq<seq<bv32>>, i: nat)
    requires 0 < i <= |ps| && |slots| == |ps| && Stored(words, ps, secs, 0, i) && Stored(next, ps, secs, 0, i - 1)
    requires Stored(next, slots, secs, i, |ps|)
    requires ps[i - 1] + SECTOR <= |words| && slots[i - 1] + SECTOR <= |next| && SectorIn(next, slots[i - 1]) == SectorIn(words, ps[i - 1])
    ensures Stored(next, slots, secs, i - 1, |ps|)
  {
    hide SectorIn;
    forall k {:trigger secs[k]} | i - 1 <= k < |ps| ensures slots[k] + SECTOR <= |next| && SectorIn(next, slots[k]) == secs[k] {
      var sec := secs[k];
    }
  }

  lemma StoredLess(words: seq<bv16>, ps: seq<nat>, secs: seq<seq<bv32>>, i: nat)
    requires 0 < i && Stored(words, ps, secs, 0, i)
    ensures Stored(words, ps, secs, 0, i - 1)
  {
    hide SectorIn;
  }

  lemma CompactNone(words: seq<bv16>, base: nat, sectors: seq<nat>, ps: seq<nat>, last: nat, secs: seq<seq<bv32>>)
    requires Stored(words, ps, secs, 0, NSECTORS) && Renamed(base, sectors, ps, last, NSECTORS)
    ensures Compacting(words, words, base, sectors, ps, last, secs, NSECTORS)
  {
    hide SectorIn;
  }

  lemma PlaceAt(words: seq<bv16>, words0: seq<bv16>, base: nat, sectors: seq<nat>, ps: seq<nat>, last: nat,
                secs: seq<seq<bv32>>, i: nat)
    requires Compacting(words, words0, base, sectors, ps, last, secs, i + 1)
    ensures sectors[NumAt(last, i)] == ps[i] && ps[i] + SECTOR <= |words| && |ps| == NSECTORS
    ensures base + TRACK <= |words| ==> Slot(base, i) + SECTOR <= |words|
  {
    hide SectorIn;
    var sec := secs[i];
  }

  lemma Spreads(ps: seq<nat>, base: nat)
    requires Spread(ps, base)
    ensures |ps| == NSECTORS
  {
  }

  /** The second loop of RealignTrack */
  method Compact(mem: array<bv16>, base: nat, sectors: array<nat>, lastNum: nat, ghost ps: seq<nat>, ghost secs: seq<seq<bv32>>)
    requires base + TRACK <= mem.Length && sectors.Length == NSECTORS && Spread(ps, base) && Rotated(sectors[..], ps, lastNum)
    requires Stored(mem[..], ps, secs, 0, NSECTORS)
    modifies mem, sectors
    ensures Rotated(sectors[..], Slots(base), lastNum) && Stored(mem[..], Slots(base), secs, 0, NSECTORS)
    ensures Same(old(mem[..]), mem[..], Slot(base, 0), base + TRACK)
  {
    hide SectorIn, Stored, Same, Spread, Rotated, Renamed, Slot;
    ghost var words0 := mem[..];
    Spreads(ps, base);
    RenamedAll(base, sectors[..], ps, lastNum);
    CompactNone(mem[..], base, sectors[..], ps, lastNum, secs);
    var i, j := NSECTORS - 1, lastNum as int;
    while i >= 0
      invariant -1 <= i < NSECTORS && Compacting(mem[..], words0, base, sectors[..], ps, lastNum, secs, (i + 1) as nat)
      invariant i >= 0 ==> j == NumAt(lastNum, i) || (j == -1 && NumAt(lastNum, i) == NSECTORS - 1)
    {
      if j < 0 {
        j := j + NSECTORS;
      }
      ghost var words, ptr := mem[..], sectors[..];
      PlaceAt(words, words0, base, ptr, ps, lastNum, secs, i);
      Move(mem, Slot(base, i), sectors[j]);
      sectors[j] := Slot(base, i);
      CompactOne(words, mem[..], words0, base, ptr, ps, lastNum, secs, i + 1);
      i, j := i - 1, j - 1;
    }
    RenamedAll(base, sectors[..], ps, lastNum);
  }

  // --- new headers ----------------------------------------------------------------------------------

  const TRACK_LONGS: nat := 3200
  const GAP_LONGS: nat := 208

  /** The longwords of the track */
  function TrackLongs(words: seq<bv16>, base: nat): (r: seq<bv32>)
    requires base + TRACK <= |words|
    ensures |r| == TRACK_LONGS
  {
    Longs(words[base..base + TRACK])
  }

  lemma LongOfTrack(words: seq<bv16>, base: nat, i: nat)
    requires base + TRACK <= |words| && i < TRACK_LONGS
    ensures TrackLongs(words, base)[i] == Long(words[base + 2 * i], words[base + 2 * i + 1])
  {
  }

  lemma LongOfSector(words: seq<bv16>, base: nat, i: nat, k: nat)
    requires base + TRACK <= |words| && i < NSECTORS && k < LONGS
    ensures Slot(base, i) + SECTOR <= |words| && SectorIn(words, Slot(base, i))[k] == TrackLongs(words, base)[GAP_LONGS + i * LONGS + k]
  {
    LongOfTrack(words, base, GAP_LONGS + i * LONGS + k);
  }

  /** The gap distance of the `i`th sector of a track */
  function GapAt(i: nat): bv32
    requires i < NSECTORS
  {
    (NSECTORS - i) as bv32
  }

  lemma GapFits(i: nat)
    requires i < NSECTORS
    ensures GapAt(i) & 0xff == GapAt(i) && GapAt(i) as nat == NSECTORS - i
  {
  }

  ghost predicate GapFilled(words: seq<bv16>, base: nat, first: bv32) {
    && base + TRACK <= |words| && TrackLongs(words, base)[0] == first
    && forall i {:trigger TrackLongs(words, base)[i]} :: 0 < i < GAP_LONGS ==> TrackLongs(words, base)[i] == 0xAAAA_AAAA
  }

  method FillGap(mem: array<bv16>, base: nat)
    requires base + TRACK <= mem.Length
    modifies mem
    ensures GapFilled(mem[..], base, 0xAAAA_AAAA) && Same(old(mem[..]), mem[..], base, base + GAP)
  {
    forall i | base <= i < base + GAP {
      mem[i] := 0xAAAA;
    }
    FillLong();
    forall i {:trigger TrackLongs(mem[..], base)[i]} | 0 <= i < GAP_LONGS ensures TrackLongs(mem[..], base)[i] == 0xAAAA_AAAA {
      LongOfTrack(mem[..], base, i);
    }
  }

  lemma FillLong()
    ensures Long(0xAAAA, 0xAAAA) == 0xAAAA_AAAA
  {
  }

  lemma GapSame(before: seq<bv16>, after: seq<bv16>, base: nat, first: bv32, from: nat, to: nat)
    requires GapFilled(before, base, first) && Same(before, after, from, to) && base + GAP <= from
    ensures GapFilled(after, base, first)
  {
    hide Long;
    forall i | 0 <= i < GAP_LONGS ensures TrackLongs(after, base)[i] == TrackLongs(before, base)[i] {
      LongOfTrack(before, base, i);
      LongOfTrack(after, base, i);
    }
  }

  /** The last bit of what is before the `i`th sector */
  function OneBefore(secs: seq<seq<bv32>>, i: nat): bool
    requires i < |secs| && forall k {:trigger secs[k]} :: 0 <= k < |secs| ==> |secs[k]| == LONGS
  {
    i > 0 && Last(secs[i - 1][LONGS - 1])
  }

  ghost predicate Sized(secs: seq<seq<bv32>>) {
    |secs| == NSECTORS && forall k {:trigger secs[k]} :: 0 <= k < |secs| ==> |secs[k]| == LONGS
  }

  /** The first `n` sectors have new headers, and the others are as before. */
  ghost predicate AllHeaded(secs: seq<seq<bv32>>, news: seq<seq<bv32>>, n: nat) {
    && Sized(secs) && Sized(news) && n <= NSECTORS
    && forall i {:trigger secs[i]} {:trigger news[i]} :: 0 <= i < NSECTORS ==>
         && news[i][LONGS - 1] == secs[i][LONGS - 1]
         && if i < n then Headed(secs[i], news[i], GapAt(i), OneBefore(secs, i)) else news[i] == secs[i]
  }

  lemma AtIs(mem: array<bv16>, base: nat, i: nat)
    requires base + TRACK <= mem.Length && i < TRACK_LONGS
    ensures At(mem, base + 2 * i) == TrackLongs(mem[..], base)[i]
  {
    hide Long;
    LongOfTrack(mem[..], base, i);
  }

  lemma BeforeSlot(mem: array<bv16>, base: nat, news: seq<seq<bv32>>, secs: seq<seq<bv32>>, i: nat)
    requires base + TRACK <= mem.Length && i < NSECTORS && AllHeaded(secs, news, i)
    requires Stored(mem[..], Slots(base), news, 0, NSECTORS) && GapFilled(mem[..], base, 0xAAAA_AAAA)
    ensures Last(At(mem, Slot(base, i) - 2)) == OneBefore(secs, i)
  {
    hide Long, Longs, Last, SectorIn, Stored, AllHeaded;
    AtIs(mem, base, GAP_LONGS + i * LONGS - 1);
    Kept(secs, news, i);
    if i > 0 {
      LongOfSector(mem[..], base, i - 1, LONGS - 1);
      StoredHere(mem[..], base, news, i - 1);
    } else {
      Fill(false);
    }
  }

  lemma StoredHere(words: seq<bv16>, base: nat, secs: seq<seq<bv32>>, i: nat)
    requires Stored(words, Slots(base), secs, 0, NSECTORS) && i < NSECTORS
    ensures Slot(base, i) + SECTOR <= |words| && |secs| == NSECTORS && SectorIn(words, Slot(base, i)) == secs[i]
  {
    hide SectorIn;
    var p := Slots(base)[i];
  }

  lemma Kept(secs: seq<seq<bv32>>, news: seq<seq<bv32>>, n: nat)
    requires AllHeaded(secs, news, n)
    ensures Sized(secs) && Sized(news)
    ensures forall i {:trigger secs[i]} {:trigger news[i]} :: 0 <= i < NSECTORS ==> news[i][LONGS - 1] == secs[i][LONGS - 1]
  {
    hide Headed;
  }

  lemma HeadedOne(words: seq<bv16>, next: seq<bv16>, base: nat, secs: seq<seq<bv32>>, news: seq<seq<bv32>>, i: nat)
    requires i < NSECTORS && AllHeaded(secs, news, i) && base + TRACK <= |words|
    requires Stored(words, Slots(base), news, 0, NSECTORS) && GapFilled(words, base, 0xAAAA_AAAA)
    requires Same(words, next, Slot(base, i), Slot(base, i) + 2 * ODD)
    requires Headed(SectorIn(words, Slot(base, i)), SectorIn(next, Slot(base, i)), GapAt(i), OneBefore(secs, i))
    ensures |news| == NSECTORS
    ensures var more := news[i := SectorIn(next, Slot(base, i))];
            AllHeaded(secs, more, i + 1) && Stored(next, Slots(base), more, 0, NSECTORS) && GapFilled(next, base, 0xAAAA_AAAA)
  {
    hide GapFilled, SectorIn, Headed, AllHeaded, OneBefore, Same, Stored;
    StoredHere(words, base, news, i);
    GapSame(words, next, base, 0xAAAA_AAAA, Slot(base, i), Slot(base, i) + 2 * ODD);
    Kept(secs, news, i);
    StoredOne(words, next, base, news, i);
    AllHeadedOne(secs, news, i, SectorIn(next, Slot(base, i)));
  }

  lemma AllHeadedOne(secs: seq<seq<bv32>>, news: seq<seq<bv32>>, i: nat, r: seq<bv32>)
    requires AllHeaded(secs, news, i) && i < NSECTORS && Headed(news[i], r, GapAt(i), OneBefore(secs, i))
    ensures AllHeaded(secs, news[i := r], i + 1)
  {
    hide Headed, OneBefore, GapAt;
    HeadedEnd(news[i], r, GapAt(i), OneBefore(secs, i));
    var sec := secs[i];
  }

  lemma HeadedEnd(sec: seq<bv32>, r: seq<bv32>, gapDist: bv32, one: bool)
    requires Headed(sec, r, gapDist, one)
    ensures |sec| == LONGS == |r| && r[LONGS - 1] == sec[LONGS - 1]
  {
  }

  lemma StoredOne(words: seq<bv16>, next: seq<bv16>, base: nat, news: seq<seq<bv32>>, i: nat)
    requires Stored(words, Slots(base), news, 0, NSECTORS) && i < NSECTORS && base + TRACK <= |words|
    requires Same(words, next, Slot(base, i), Slot(base, i) + 2 * ODD)
    ensures |news| == NSECTORS && |next| == |words| && Stored(next, Slots(base), news[i := SectorIn(next, Slot(base, i))], 0, NSECTORS)
  {
    hide SectorIn;
    var slots, more := Slots(base), news[i := SectorIn(next, Slot(base, i))];
    forall k {:trigger more[k]} {:trigger slots[k]} | 0 <= k < NSECTORS ensures slots[k] + SECTOR <= |next| && SectorIn(next, slots[k]) == more[k] {
      if k != i {
        StoredHere(words, base, news, k);
        SectorSame(words, next, slots[k], Slot(base, i), Slot(base, i) + 2 * ODD);
      }
    }
  }

  lemma NoneHeaded(secs: seq<seq<bv32>>)
    requires Sized(secs)
    ensures AllHeaded(secs, secs, 0)
  {
  }

  lemma SameTwice(words0: seq<bv16>, words: seq<bv16>, next: seq<bv16>, a: nat, b: nat, from: nat, to: nat)
    requires Same(words0, words, from, to) && Same(words, next, a, b) && from <= a && b <= to
    ensures Same(words0, next, from, to)
  {
  }

  /** The last loop of RealignTrack */
  method FixHeaders(mem: array<bv16>, base: nat, ghost secs: seq<seq<bv32>>) returns (ghost news: seq<seq<bv32>>)
    requires base + TRACK <= mem.Length && Sized(secs)
    requires Stored(mem[..], Slots(base), secs, 0, NSECTORS) && GapFilled(mem[..], base, 0xAAAA_AAAA)
    modifies mem
    ensures AllHeaded(secs, news, NSECTORS) && Stored(mem[..], Slots(base), news, 0, NSECTORS) && GapFilled(mem[..], base, 0xAAAA_AAAA)
    ensures Same(old(mem[..]), mem[..], Slot(base, 0), base + TRACK)
  {
    hide Stored, GapFilled, Headed, AllHeaded, Last, Same, SectorIn, GapAt;
    var i := 0;
    news := secs;
    NoneHeaded(secs);
    SameRefl(mem[..], Slot(base, 0), base + TRACK);
    while i < NSECTORS
      invariant i <= NSECTORS && AllHeaded(secs, news, i)
      invariant Stored(mem[..], Slots(base), news, 0, NSECTORS) && GapFilled(mem[..], base, 0xAAAA_AAAA)
      invariant Same(old(mem[..]), mem[..], Slot(base, 0), base + TRACK)
    {
      ghost var words := mem[..];
      BeforeSlot(mem, base, news, secs, i);
      SectorIs(mem, Slot(base, i));
      FixHeader(mem, Slot(base, i), GapAt(i));
      SectorIs(mem, Slot(base, i));
      HeadedOne(words, mem[..], base, secs, news, i);
      SameTwice(old(mem[..]), words, mem[..], Slot(base, i), Slot(base, i) + 2 * ODD, Slot(base, 0), base + TRACK);
      news := news[i := SectorIn(mem[..], Slot(base, i))];
      i := i + 1;
    }
  }

  // --- the encoding of the whole track --------------------------------------------------------------

  /** The test of VerifyTrackEncoding for one longword; the last one comes before the first. */
  predicate LongOk(longs: seq<bv32>, i: nat)
    requires i < |longs|
  {
    longs[i] == 0x4489_4489 || Verified(longs[i], Last(longs[if i == 0 then |longs| - 1 else i - 1]))
  }

  /** It for the first `n` longwords */
  predicate AllOk(longs: seq<bv32>, n: nat)
    requires n <= |longs|
  {
    forall i {:trigger LongOk(longs, i)} :: 0 <= i < n ==> LongOk(longs, i)
  }

  method VerifyTrackEncoding(mem: array<bv16>, base: nat) returns (ok: bool)
    requires base + TRACK <= mem.Length
    ensures ok <==> AllOk(TrackLongs(mem[..], base), TRACK_LONGS)
  {
    hide Verified, Last, Long, TrackLongs;
    ghost var longs := TrackLongs(mem[..], base);
    AtIs(mem, base, TRACK_LONGS - 1);
    var prev := At(mem, base + 2 * (TRACK_LONGS - 1));
    ok := true;
    var i := 0;
    while i < TRACK_LONGS
      invariant i <= TRACK_LONGS && prev == longs[if i == 0 then TRACK_LONGS - 1 else i - 1]
      invariant ok <==> AllOk(longs, i)
    {
      AtIs(mem, base, i);
      var lw := At(mem, base + 2 * i);
      assert LongOk(longs, i) <==> lw == 0x4489_4489 || Verified(lw, Last(prev));
      if lw != 0x4489_4489 && !Verified(lw, Last(prev)) {
        ok := false;
      }
      prev := lw;
      i := i + 1;
    }
  }

  /** Every sector has a payload with a sound code. */
  ghost predicate AllSound(secs: seq<seq<bv32>>) {
    Sized(secs) && forall i {:trigger secs[i]} :: 0 <= i < NSECTORS ==> Sound(secs[i])
  }

  /** Every sector has its second sync word. */
  ghost predicate AllSynced(secs: seq<seq<bv32>>) {
    Sized(secs) && forall i {:trigger secs[i]} :: 0 <= i < NSECTORS ==> Low(secs[i][1]) == 0x4489
  }

  /** A longword of the track belongs to the gap or to a sector. */
  lemma SectorLongOk(longs: seq<bv32>, secs: seq<seq<bv32>>, news: seq<seq<bv32>>, i: nat, k: nat)
    requires |longs| == TRACK_LONGS && i < NSECTORS && k < LONGS && AllSound(secs) && AllSynced(secs) && AllHeaded(secs, news, NSECTORS)
    requires forall j {:trigger news[i][j]} :: 0 <= j < LONGS ==> longs[GAP_LONGS + i * LONGS + j] == news[i][j]
    requires Last(longs[GAP_LONGS + i * LONGS - 1]) == OneBefore(secs, i)
    ensures LongOk(longs, GAP_LONGS + i * LONGS + k)
  {
    hide Verified, Last, Headed, Sound, Synced, OneBefore, Low;
    var sec, r := secs[i], news[i];
    HeadedClean(sec, r, GapAt(i), OneBefore(secs, i));
    SyncWord(sec, r, GapAt(i), OneBefore(secs, i));
    if k == 0 {
      assert longs[GAP_LONGS + i * LONGS + 0] == r[0];
    } else if k == 1 {
      assert longs[GAP_LONGS + i * LONGS + 1] == r[1];
    } else {
      assert CleanAt(r, k);
      assert longs[GAP_LONGS + i * LONGS + k] == r[k] && longs[GAP_LONGS + i * LONGS + (k - 1)] == r[k - 1];
    }
  }

  lemma SectorLongs(words: seq<bv16>, base: nat, secs: seq<seq<bv32>>, news: seq<seq<bv32>>, i: nat)
    requires base + TRACK <= |words| && i < NSECTORS && AllHeaded(secs, news, NSECTORS) && Stored(words, Slots(base), news, 0, NSECTORS)
    ensures forall j {:trigger news[i][j]} :: 0 <= j < LONGS ==> TrackLongs(words, base)[GAP_LONGS + i * LONGS + j] == news[i][j]
  {
    hide SectorIn, Longs, Stored, AllHeaded, TrackLongs;
    Kept(secs, news, NSECTORS);
    StoredHere(words, base, news, i);
    forall j {:trigger news[i][j]} | 0 <= j < LONGS ensures TrackLongs(words, base)[GAP_LONGS + i * LONGS + j] == news[i][j] {
      LongOfSector(words, base, i, j);
    }
  }

  /** A track of such sectors with new headers is a correct code from end to end, and around the end. */
  lemma TrackOk(words: seq<bv16>, base: nat, secs: seq<seq<bv32>>, news: seq<seq<bv32>>)
    requires AllSound(secs) && AllSynced(secs) && AllHeaded(secs, news, NSECTORS) && Stored(words, Slots(base), news, 0, NSECTORS)
    requires |news| == NSECTORS && |news[NSECTORS - 1]| == LONGS
    requires GapFilled(words, base, Updated(0xAAAA_AAAA, Last(news[NSECTORS - 1][LONGS - 1])))
    ensures AllOk(TrackLongs(words, base), TRACK_LONGS)
  {
    hide SectorIn, Longs, Stored, AllHeaded, TrackLongs, LongOk, AllSound, AllSynced;
    var longs := TrackLongs(words, base);
    forall n {:trigger LongOk(longs, n)} | 0 <= n < TRACK_LONGS ensures LongOk(longs, n) {
      if n < GAP_LONGS {
        SectorLongs(words, base, secs, news, NSECTORS - 1);
        assert longs[GAP_LONGS + (NSECTORS - 1) * LONGS + (LONGS - 1)] == news[NSECTORS - 1][LONGS - 1];
        GapLongOk(longs, n, Last(news[NSECTORS - 1][LONGS - 1]));
      } else {
        var i, k := (n - GAP_LONGS) / LONGS, (n - GAP_LONGS) % LONGS;
        SectorLongs(words, base, secs, news, i);
        EndBefore(words, base, secs, news, i);
        SectorLongOk(longs, secs, news, i, k);
      }
    }
  }

  lemma NoSync(low: bv16, one: bool)
    ensures !Verified(Long(0x4489, low), one)
  {
  }

  lemma TrackNotOk(words: seq<bv16>, base: nat, secs: seq<seq<bv32>>, news: seq<seq<bv32>>)
    requires base + TRACK <= |words| && AllHeaded(secs, news, NSECTORS) && Stored(words, Slots(base), news, 0, NSECTORS)
    requires Sized(secs) && !AllSynced(secs)
    ensures !AllOk(TrackLongs(words, base), TRACK_LONGS)
  {
    hide SectorIn, Longs, Stored, TrackLongs, Verified, Last, Headed, Low;
    var i :| 0 <= i < NSECTORS && Low(secs[i][1]) != 0x4489;
    var longs, n := TrackLongs(words, base), GAP_LONGS + i * LONGS + 1;
    SectorLongs(words, base, secs, news, i);
    SyncWord(secs[i], news[i], GapAt(i), OneBefore(secs, i));
    assert longs[n] == news[i][1];
    NoSync(Low(secs[i][1]), Last(longs[n - 1]));
    assert !LongOk(longs, n);
  }

  lemma SyncWord(sec: seq<bv32>, r: seq<bv32>, gapDist: bv32, one: bool)
    requires Headed(sec, r, gapDist, one)
    ensures |sec| == LONGS == |r| && r[1] == Long(0x4489, Low(sec[1])) && (r[1] == 0x4489_4489 <==> Low(sec[1]) == 0x4489)
  {
    hide Low;
    SyncedIs(sec[1]);
  }

  lemma GapLongOk(longs: seq<bv32>, n: nat, one: bool)
    requires |longs| == TRACK_LONGS && n < GAP_LONGS && longs[0] == Updated(0xAAAA_AAAA, one) && Last(longs[TRACK_LONGS - 1]) == one
    requires forall i {:trigger longs[i]} :: 0 < i < GAP_LONGS ==> longs[i] == 0xAAAA_AAAA
    ensures LongOk(longs, n)
  {
    hide Verified, Updated, Last;
    Fill(one);
  }

  lemma EndBefore(words: seq<bv16>, base: nat, secs: seq<seq<bv32>>, news: seq<seq<bv32>>, i: nat)
    requires base + TRACK <= |words| && i < NSECTORS && AllHeaded(secs, news, NSECTORS) && Stored(words, Slots(base), news, 0, NSECTORS)
    requires exists one :: GapFilled(words, base, Updated(0xAAAA_AAAA, one))
    ensures Sized(secs) && Last(TrackLongs(words, base)[GAP_LONGS + i * LONGS - 1]) == OneBefore(secs, i)
  {
    hide SectorIn, Longs, Stored, AllHeaded, TrackLongs, Last, Updated;
    Kept(secs, news, NSECTORS);
    if i > 0 {
      SectorLongs(words, base, secs, news, i - 1);
      assert TrackLongs(words, base)[GAP_LONGS + (i - 1) * LONGS + (LONGS - 1)] == news[i - 1][LONGS - 1];
    } else {
      Fill(false);
    }
  }

  /** The header of a sector, decoded: the number of sectors from here to the end of the track, the old numbers, and
      the checksum of it. */
  ghost predicate Header(sec: seq<bv32>, r: seq<bv32>, gapDist: nat)
    requires |sec| == LONGS == |r|
  {
    var before, info := Decode(sec[INFO], sec[INFO + 1]), Decode(r[INFO], r[INFO + 1]);
    && GapDist(info) as nat == gapDist && SectorNum(info) == SectorNum(before) && TrackNum(info) == TrackNum(before) && Format(info) == Format(before)
    && Parity(Decode(r[HEADER_CHECKSUM], r[HEADER_CHECKSUM + 1]), r[INFO..HEADER_CHECKSUM])
  }

  lemma HeadersAre(secs: seq<seq<bv32>>, news: seq<seq<bv32>>)
    requires AllHeaded(secs, news, NSECTORS)
    ensures |secs| == NSECTORS == |news|
    ensures forall i {:trigger news[i]} :: 0 <= i < NSECTORS ==> |secs[i]| == LONGS == |news[i]| && Header(secs[i], news[i], NSECTORS - i)
  {
    hide Headed, Decode, GapDist, SectorNum, TrackNum, Format, Parity, OneBefore, GapAt;
    forall i {:trigger news[i]} | 0 <= i < NSECTORS ensures |secs[i]| == LONGS == |news[i]| && Header(secs[i], news[i], NSECTORS - i) {
      var sec := secs[i];
      HeadedEnd(sec, news[i], GapAt(i), OneBefore(secs, i));
      GapFits(i);
      HeaderKept(sec, news[i], GapAt(i), OneBefore(secs, i));
    }
  }

  /** RealignTrack: every sector is moved into its place with a new header and its payload untouched.
      `verified` is the verdict of the check that a debugging kernel makes at the end: with sound payloads
      it is good exactly when every sector had its second sync word, which is never written again. */
  method RealignTrack(mem: array<bv16>, base: nat, sectors: array<nat>, ghost ps: seq<nat>, ghost last: nat,
                      ghost secs: seq<seq<bv32>>)
      returns (verified: bool, ghost news: seq<seq<bv32>>)
    requires base + TRACK <= mem.Length && sectors.Length == NSECTORS && Spread(ps, base) && Rotated(sectors[..], ps, last)
    requires Sized(secs) && Stored(mem[..], ps, secs, 0, NSECTORS)
    modifies mem, sectors
    ensures Rotated(sectors[..], Slots(base), last) && Stored(mem[..], Slots(base), news, 0, NSECTORS) && AllHeaded(secs, news, NSECTORS)
    ensures GapFilled(mem[..], base, Updated(0xAAAA_AAAA, Last(news[NSECTORS - 1][LONGS - 1])))
    ensures Same(old(mem[..]), mem[..], base, base + TRACK)
    ensures forall i {:trigger news[i]} :: 0 <= i < NSECTORS ==> Header(secs[i], news[i], NSECTORS - i)
    ensures AllSound(secs) ==> (verified <==> AllSynced(secs))
  {
    hide Header, Rotated, Stored, AllHeaded, GapFilled, Updated, Last, AllSound, AllSynced, SectorIn, TrackLongs, Sized, AllOk, Same, Spread;
    ghost var words0 := mem[..];
    var lastNum := FindLast(sectors, ps, base, last);
    Compact(mem, base, sectors, lastNum, ps, secs);
    ghost var words1 := mem[..];
    FillGap(mem, base);
    ghost var words2 := mem[..];
    BelowSlots(base);
    StoredSame(words1, words2, Slots(base), secs, 0, NSECTORS, base, base + GAP);
    news := FixHeaders(mem, base, secs);
    ghost var words3 := mem[..];
    FixFirst(mem, base, secs, news);
    SameAll(words0, words1, words2, words3, mem[..], base);
    verified := VerifyTrackEncoding(mem, base);
    HeadersAre(secs, news);
    if AllSound(secs) {
      if AllSynced(secs) {
        TrackOk(mem[..], base, secs, news);
      } else {
        TrackNotOk(mem[..], base, secs, news);
      }
    }
  }

  lemma BelowSlots(base: nat)
    ensures forall i {:trigger Slots(base)[i]} :: 0 <= i < NSECTORS ==> base + GAP <= Slots(base)[i]
  {
  }

  lemma SameAll(words0: seq<bv16>, words1: seq<bv16>, words2: seq<bv16>, words3: seq<bv16>, words: seq<bv16>, base: nat)
    requires Same(words0, words1, Slot(base, 0), base + TRACK) && Same(words1, words2, base, base + GAP)
    requires Same(words2, words3, Slot(base, 0), base + TRACK) && Same(words3, words, base, base + 2)
    ensures Same(words0, words, base, base + TRACK)
  {
  }

  /** The first longword of the gap follows the end of the last sector. */
  method FixFirst(mem: array<bv16>, base: nat, ghost secs: seq<seq<bv32>>, ghost news: seq<seq<bv32>>)
    requires base + TRACK <= mem.Length && AllHeaded(secs, news, NSECTORS)
    requires Stored(mem[..], Slots(base), news, 0, NSECTORS) && GapFilled(mem[..], base, 0xAAAA_AAAA)
    modifies mem
    ensures Stored(mem[..], Slots(base), news, 0, NSECTORS) && |news| == NSECTORS && |news[NSECTORS - 1]| == LONGS
    ensures GapFilled(mem[..], base, Updated(0xAAAA_AAAA, Last(news[NSECTORS - 1][LONGS - 1])))
    ensures Same(old(mem[..]), mem[..], base, base + 2)
  {
    hide Stored, AllHeaded, Updated, Last, SectorIn, TrackLongs, High, Low, Long;
    ghost var words := mem[..];
    Kept(secs, news, NSECTORS);
    SectorLongs(words, base, secs, news, NSECTORS - 1);
    assert TrackLongs(words, base)[GAP_LONGS + (NSECTORS - 1) * LONGS + (LONGS - 1)] == news[NSECTORS - 1][LONGS - 1];
    AtIs(mem, base, TRACK_LONGS - 1);
    AtIs(mem, base, 0);
    var lw := Updated(At(mem, base), Last(At(mem, base + 2 * (TRACK_LONGS - 1))));
    mem[base], mem[base + 1] := High(lw), Low(lw);
    BelowSlots(base);
    StoredSame(words, mem[..], Slots(base), news, 0, NSECTORS, base, base + 2);
    FirstChanged(words, mem[..], base, lw);
  }

  lemma FirstChanged(words: seq<bv16>, next: seq<bv16>, base: nat, lw: bv32)
    requires GapFilled(words, base, 0xAAAA_AAAA) && Same(words, next, base, base + 2) && next[base] == High(lw) && next[base + 1] == Low(lw)
    ensures GapFilled(next, base, lw)
  {
    hide Long, High, Low;
    LongParts(lw);
    LongOfTrack(next, base, 0);
    forall i {:trigger TrackLongs(next, base)[i]} | 0 < i < GAP_LONGS ensures TrackLongs(next, base)[i] == 0xAAAA_AAAA {
      LongOfTrack(words, base, i);
      LongOfTrack(next, base, i);
    }
  }
}
