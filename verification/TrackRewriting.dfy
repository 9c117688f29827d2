/** A track that is read, changed and written (drivers/floppy.c with drivers/floppy-mfm.c): DecodeTrack,
    EncodeSector and RealignTrack together. */
module TrackRewriting {
  import opened Mfm
  import opened Sectors
  import opened Headers
  import opened Tracks
  import opened TrackReading

  // --- what RealignTrack leaves can be read again ---------------------------------------------------

  lemma StoredSlice(words: seq<bv16>, base: nat, secs: seq<seq<bv32>>)
    requires base + TRACK <= |words| && Stored(words, Slots(base), secs, 0, NSECTORS)
    ensures Stored(words[base..base + TRACK], Slots(0), secs, 0, NSECTORS)
  {
    hide Longs;
    var disk, slots := words[base..base + TRACK], Slots(0);
    forall i {:trigger secs[i]} {:trigger slots[i]} | 0 <= i < NSECTORS ensures slots[i] + SECTOR <= |disk| && SectorIn(disk, slots[i]) == secs[i] {
      StoredHere(words, base, secs, i);
      SliceInside(words, base, TRACK, slots[i], slots[i] + SECTOR);
    }
  }

  lemma SliceInside(words: seq<bv16>, base: nat, n: nat, a: nat, b: nat)
    requires base + n <= |words| && a <= b <= n
    ensures words[base..base + n][a..b] == words[base + a..base + b]
  {
    var l, r := words[base..base + n][a..b], words[base + a..base + b];
    assert |l| == |r| && forall i {:trigger l[i]} :: 0 <= i < b - a ==> l[i] == r[i];
  }

  lemma FillHalves(one: bool)
    ensures High(0xAAAA_AAAA) != 0x4489 && Low(0xAAAA_AAAA) != 0x4489
    ensures High(Updated(0xAAAA_AAAA, one)) != 0x4489 && Low(Updated(0xAAAA_AAAA, one)) != 0x4489
  {
  }

  lemma GapSlice(words: seq<bv16>, base: nat, one: bool)
    requires GapFilled(words, base, Updated(0xAAAA_AAAA, one))
    ensures forall i {:trigger words[base..base + TRACK][i]} :: 0 <= i < GAP ==> words[base..base + TRACK][i] != 0x4489
  {
    hide Long, High, Low, Updated;
    var disk := words[base..base + TRACK];
    forall i {:trigger disk[i]} | 0 <= i < GAP ensures disk[i] != 0x4489 {
      LongOfTrack(words, base, i / 2);
      PartsOfLong(words[base + 2 * (i / 2)], words[base + 2 * (i / 2) + 1]);
      FillHalves(one);
    }
  }

  lemma CleanIsNoSync(lw: bv32, one: bool)
    requires Clean(lw, one)
    ensures High(lw) != 0x4489
  {
    hide Verified, High, Low, Long;
    LongParts(lw);
    NoSync(Low(lw), one);
  }

  lemma CleanHasNoSync(lw: bv32, one: bool)
    requires Clean(lw, one)
    ensures Low(lw) != 0x4489
  {
  }

  lemma HeadedMarked(sec: seq<bv32>, r: seq<bv32>, gapDist: bv32, one: bool)
    requires Headed(sec, r, gapDist, one) && Low(sec[LONGS - 1]) != 0x4489
    ensures Marked(r, Low(sec[1]))
  {
    hide Encode, Decode, Half, Last, Updated, WithGap, HeaderSum, Clean, High, Low, Long;
    FillHalves(one);
    InfoClean(sec, r, gapDist, one);
    CleanIsNoSync(r[INFO], Last(r[INFO - 1]));
    PartsOfLong(0x4489, Low(sec[1]));
  }

  /** The numbers of some sectors, in the order of the memory */
  ghost predicate Numbered(secs: seq<seq<bv32>>, last: nat) {
    && Sized(secs) && last < NSECTORS
    && forall i {:trigger secs[i]} :: 0 <= i < NSECTORS ==> Number(secs[i]) == NumAt(last, i)
  }

  predicate FrontedAt(sec: seq<bv32>, front: Front, i: nat) {
    && |sec| == LONGS && Low(sec[1]) == SecondAt(front, i) && Low(sec[LONGS - 1]) != 0x4489
    && Format(InfoOf(sec)) == front.format && TrackNum(InfoOf(sec)) == front.track
  }

  /** What their fronts say */
  ghost predicate Fronted(secs: seq<seq<bv32>>, front: Front) {
    Sized(secs) && front.track <= 160 && forall i {:trigger secs[i]} :: 0 <= i < NSECTORS ==> FrontedAt(secs[i], front, i)
  }

  lemma FrontedSynced(secs: seq<seq<bv32>>, front: Front)
    requires Fronted(secs, front)
    ensures AllSynced(secs) <==> front.second == 0x4489
  {
    hide Low, InfoOf, Format, TrackNum;
    var sec := secs[0];
  }

  /** What RealignTrack leaves is laid out as before: the second sync word of the first sector is what it was. */
  lemma RealignedLaidOut(words: seq<bv16>, base: nat, secs: seq<seq<bv32>>, news: seq<seq<bv32>>, last: nat, front: Front, one: bool)
    requires base + TRACK <= |words| && AllHeaded(secs, news, NSECTORS) && Numbered(secs, last) && Fronted(secs, front)
    requires Stored(words, Slots(base), news, 0, NSECTORS) && GapFilled(words, base, Updated(0xAAAA_AAAA, one))
    ensures LaidOut(words[base..base + TRACK], news, last, front)
  {
    hide Stored, GapFilled, Headed, Marked, Number, InfoOf, GapDist, Low, Format, TrackNum, Updated;
    StoredSlice(words, base, news);
    GapSlice(words, base, one);
    forall i {:trigger news[i]} | 0 <= i < NSECTORS ensures Marked(news[i], SecondAt(front, i)) && Says(news[i], last, front, i) {
      var sec, r := secs[i], news[i];
      HeaderAgain(sec, r, i, OneBefore(secs, i));
      HeadedMarked(sec, r, GapAt(i), OneBefore(secs, i));
    }
  }

  lemma FrontIs(disk: seq<bv16>, secs: seq<seq<bv32>>, last: nat, front: Front)
    requires LaidOut(disk, secs, last, front)
    ensures Sized(secs) && FrontOf(secs) == front && (Formatted(disk, secs, last) <==> front.second == 0x4489)
  {
    hide InfoOf, GapDist, GapAt, Number, Format, TrackNum, Stored, High, Low;
    var sec := secs[0];
  }

  lemma FormattedFront(disk: seq<bv16>, secs: seq<seq<bv32>>, last: nat)
    requires Formatted(disk, secs, last)
    ensures Sized(secs) && LaidOut(disk, secs, last, FrontOf(secs)) && FrontOf(secs).second == 0x4489
    ensures forall i :: SecondAt(FrontOf(secs), i) == 0x4489
  {
    hide LaidOut, FrontOf;
  }

  /** The buffer begins behind one of the two sync words of its first sector. */
  lemma FirstWords(words: seq<bv16>, base: nat, disk: seq<bv16>, secs: seq<seq<bv32>>, last: nat, s: nat, off: nat)
    requires Formatted(disk, secs, last) && ReadIn(words, base, disk, s, off)
    ensures last < NSECTORS && s < NSECTORS && 4 < base && base + TRACK <= |words| && (off == 3 || off == 4) && off < base
  {
    hide LaidOut;
    FormattedFront(disk, secs, last);
    NotBehind(words, base, disk, secs, last, FrontOf(secs), s, off);
  }

  lemma HeaderAgain(sec: seq<bv32>, r: seq<bv32>, i: nat, one: bool)
    requires i < NSECTORS && Headed(sec, r, GapAt(i), one)
    ensures |sec| == LONGS == |r| && GapDist(InfoOf(r)) == GapAt(i) && Number(r) == Number(sec) && r[LONGS - 1] == sec[LONGS - 1]
    ensures Format(InfoOf(r)) == Format(InfoOf(sec)) && TrackNum(InfoOf(r)) == TrackNum(InfoOf(sec))
  {
    hide Headed, Decode, GapDist, SectorNum, GapAt, TrackNum, Format;
    GapFits(i);
    HeadedEnd(sec, r, GapAt(i), one);
    HeaderKept(sec, r, GapAt(i), one);
  }

  // --- what was read --------------------------------------------------------------------------------

  /** The place of sector number `n` in the order of the memory */
  function PlaceOf(last: nat, n: nat): nat
    requires last < NSECTORS && n < NSECTORS
  {
    if n > last then n - last - 1 else n + NSECTORS - last - 1
  }

  lemma PlaceOfNumber(last: nat, n: nat)
    requires last < NSECTORS && n < NSECTORS
    ensures PlaceOf(last, n) < NSECTORS && NumAt(last, PlaceOf(last, n)) == n
    ensures forall i :: 0 <= i < NSECTORS && NumAt(last, i) == n ==> i == PlaceOf(last, n)
  {
  }

  /** A sector in the buffer, where all but the front of the first one is as on the disk */
  ghost predicate ReadAs(sec: seq<bv32>, r: seq<bv32>, first: bool) {
    |sec| == LONGS == |r| && (forall k {:trigger r[k]} :: INFO <= k < LONGS ==> r[k] == sec[k]) && (!first ==> r == sec)
  }

  /** The sectors of the buffer */
  function SectorsIn(words: seq<bv16>, ps: seq<nat>): (r: seq<seq<bv32>>)
    requires forall m {:trigger ps[m]} :: 0 <= m < |ps| ==> ps[m] + SECTOR <= |words|
    ensures |r| == |ps| && forall m {:trigger r[m]} {:trigger ps[m]} :: 0 <= m < |ps| ==> r[m] == SectorIn(words, ps[m])
  {
    seq(|ps|, m requires 0 <= m < |ps| => SectorIn(words, ps[m]))
  }

  lemma PlacesFit(words: seq<bv16>, base: nat, disk: seq<bv16>, s: nat, off: nat)
    requires ReadIn(words, base, disk, s, off)
    ensures off < base && forall m {:trigger Places(base, off, s)[m]} :: 0 <= m < NSECTORS ==> Places(base, off, s)[m] + SECTOR <= |words|
  {
  }

  lemma AllRead(words: seq<bv16>, base: nat, disk: seq<bv16>, secs: seq<seq<bv32>>, last: nat, s: nat, off: nat)
    requires Formatted(disk, secs, last) && ReadIn(words, base, disk, s, off) && off < base
    requires forall m {:trigger Places(base, off, s)[m]} :: 0 <= m < NSECTORS ==> Places(base, off, s)[m] + SECTOR <= |words|
    ensures var secs2 := SectorsIn(words, Places(base, off, s));
            && s < NSECTORS && Sized(secs2) && Sized(secs) && Stored(words, Places(base, off, s), secs2, 0, NSECTORS)
            && forall m {:trigger secs2[m]} :: 0 <= m < NSECTORS ==> ReadAs(secs[Written(s, m)], secs2[m], m == 0)
  {
    hide SectorIn, LaidOut, ReadIn, Place;
    FirstWords(words, base, disk, secs, last, s, off);
    FormattedFront(disk, secs, last);
    var ps := Places(base, off, s);
    var secs2 := SectorsIn(words, ps);
    forall m {:trigger secs2[m]} | 0 <= m < NSECTORS ensures ReadAs(secs[Written(s, m)], secs2[m], m == 0) {
      var sec, r := secs[Written(s, m)], secs2[m];
      forall k {:trigger r[k]} | 0 <= k < LONGS && (m > 0 || k >= INFO) ensures r[k] == sec[k] {
        WordsRead(words, base, disk, secs, last, FrontOf(secs), s, off, m, k);
      }
      assert m > 0 ==> r == sec;
    }
  }

  /** The second sync word of the first sector: it is there if it was stored, and otherwise it is whatever
      lies before the buffer. */
  lemma FirstSync(words: seq<bv16>, base: nat, disk: seq<bv16>, secs: seq<seq<bv32>>, last: nat, s: nat, off: nat)
    requires Formatted(disk, secs, last) && ReadIn(words, base, disk, s, off)
    ensures base > 0 && off <= base
    ensures var p := Place(base, off, s, 0);
            p + SECTOR <= |words| && Low(SectorIn(words, p)[1]) == if off == 3 then 0x4489 else words[base - 1]
  {
    hide LaidOut, Long, High, Low;
    FirstWords(words, base, disk, secs, last, s, off);
    FormattedFront(disk, secs, last);
    HalfWords(words, Place(base, off, s, 0), 1);
    NotBehind(words, base, disk, secs, last, FrontOf(secs), s, off);
  }

  /** What the headers in the buffer say is what those of the track say; all second sync words are there, but
      for the first one perhaps. */
  lemma FrontedRead(words: seq<bv16>, base: nat, disk: seq<bv16>, secs: seq<seq<bv32>>, last: nat, s: nat, off: nat)
    requires Formatted(disk, secs, last) && ReadIn(words, base, disk, s, off) && 0 < base && off < base
    requires forall m {:trigger Places(base, off, s)[m]} :: 0 <= m < NSECTORS ==> Places(base, off, s)[m] + SECTOR <= |words|
    ensures Sized(secs) && Fronted(SectorsIn(words, Places(base, off, s)), FrontOf(secs).(second := if off == 3 then 0x4489 else words[base - 1]))
  {
    hide SectorIn, Marked, InfoOf, Number, GapDist, GapAt, ReadIn, Stored, High, Low, Place, Format, TrackNum;
    FirstWords(words, base, disk, secs, last, s, off);
    AllRead(words, base, disk, secs, last, s, off);
    FirstSync(words, base, disk, secs, last, s, off);
    FormattedFront(disk, secs, last);
    var secs2, front := SectorsIn(words, Places(base, off, s)), FrontOf(secs).(second := if off == 3 then 0x4489 else words[base - 1]);
    forall m {:trigger secs2[m]} | 0 <= m < NSECTORS ensures FrontedAt(secs2[m], front, m) {
      var sec := secs[Written(s, m)];
      SameInfo(sec, secs2[m], m == 0);
      MarkedEnd(sec, SecondAt(FrontOf(secs), Written(s, m)));
    }
  }

  lemma SameInfo(sec: seq<bv32>, r: seq<bv32>, first: bool)
    requires ReadAs(sec, r, first)
    ensures |sec| == LONGS == |r| && InfoOf(r) == InfoOf(sec) && r[LONGS - 1] == sec[LONGS - 1] && (!first ==> r == sec)
  {
    hide Decode;
  }

  lemma MarkedEnd(sec: seq<bv32>, second: bv16)
    requires Marked(sec, second)
    ensures |sec| == LONGS && Low(sec[1]) == second && Low(sec[LONGS - 1]) != 0x4489
  {
  }

  lemma NumberedRead(secs: seq<seq<bv32>>, secs2: seq<seq<bv32>>, disk: seq<bv16>, last: nat, s: nat)
    requires Formatted(disk, secs, last) && Sized(secs2) && s < NSECTORS
    requires forall m {:trigger secs2[m]} :: 0 <= m < NSECTORS ==> ReadAs(secs[Written(s, m)], secs2[m], m == 0)
    ensures Numbered(secs2, LastRead(last, s))
  {
    hide Marked, GapDist, GapAt, Stored, SectorNum, Decode, Format, TrackNum;
    NumbersRead(last, s, 0);
    forall m {:trigger secs2[m]} | 0 <= m < NSECTORS ensures Number(secs2[m]) == NumAt(LastRead(last, s), m) {
      NumbersRead(last, s, m);
      var sec := secs[Written(s, m)];
    }
  }

  // --- encoding -------------------------------------------------------------------------------------

  /** Sector number `n` carries what the longwords `raw` say if it was changed, and is as before otherwise. */
  ghost predicate EncodedOr(sec: seq<bv32>, r: seq<bv32>, changed: bool, raw: seq<bv32>) {
    && |sec| == LONGS == |r|
    && if changed then Sealed(r, raw) && r[..CHECKSUM] == sec[..CHECKSUM] else r == sec
  }

  ghost predicate EncodedUpTo(last: nat, secs: seq<seq<bv32>>, news: seq<seq<bv32>>, dirty: seq<bool>,
                              raws: seq<seq<bv32>>, n: nat)
    requires last < NSECTORS
  {
    && |secs| == |news| == |dirty| == |raws| == NSECTORS && n <= NSECTORS
    && forall k {:trigger dirty[k]} {:trigger raws[k]} :: 0 <= k < NSECTORS ==>
         EncodedOr(secs[PlaceOf(last, k)], news[PlaceOf(last, k)], k < n && dirty[k], raws[k])
  }

  lemma EncodeOne(last: nat, secs: seq<seq<bv32>>, news: seq<seq<bv32>>, dirty: seq<bool>, raws: seq<seq<bv32>>,
                  n: nat, r: seq<bv32>)
    requires last < NSECTORS && n < NSECTORS && EncodedUpTo(last, secs, news, dirty, raws, n)
    requires EncodedOr(news[PlaceOf(last, n)], r, dirty[n], raws[n])
    ensures EncodedUpTo(last, secs, news[PlaceOf(last, n) := r], dirty, raws, n + 1)
  {
    hide Sealed;
    var more := news[PlaceOf(last, n) := r];
    var d := dirty[n];
    forall k {:trigger dirty[k]} {:trigger raws[k]} | 0 <= k < NSECTORS
      ensures EncodedOr(secs[PlaceOf(last, k)], more[PlaceOf(last, k)], k < n + 1 && dirty[k], raws[k])
    {
      var e := dirty[k];
      PlaceOfNumber(last, k);
      PlaceOfNumber(last, n);
    }
  }

  lemma EncodedSector(before: seq<bv16>, after: seq<bv16>, p: nat, raw: seq<bv32>)
    requires p + SECTOR <= |before| && Same(before, after, p + 2 * CHECKSUM, p + SECTOR) && Sealed(SectorIn(after, p), raw)
    ensures EncodedOr(SectorIn(before, p), SectorIn(after, p), true, raw)
  {
    hide Sealed, Long;
    var s, r := SectorIn(before, p), SectorIn(after, p);
    assert forall k :: 0 <= k < CHECKSUM ==> r[k] == s[k];
  }

  /** The new contents of one sector, in memory order */
  lemma StoredEncoded(before: seq<bv16>, after: seq<bv16>, base: nat, ps: seq<nat>, secs: seq<seq<bv32>>, m: nat)
    requires Spread(ps, base) && m < NSECTORS && Stored(before, ps, secs, 0, NSECTORS) && base + TRACK <= |before|
    requires Same(before, after, ps[m] + 2 * CHECKSUM, ps[m] + SECTOR)
    ensures ps[m] + SECTOR <= |after| == |before| && Stored(after, ps, secs[m := SectorIn(after, ps[m])], 0, NSECTORS)
  {
    hide Longs;
    var sec := secs[m];
    var more := secs[m := SectorIn(after, ps[m])];
    forall k {:trigger more[k]} {:trigger ps[k]} | 0 <= k < NSECTORS ensures ps[k] + SECTOR <= |after| && SectorIn(after, ps[k]) == more[k] {
      var old_ := secs[k];
      if k < m {
        Below(ps, base, k, m);
        SectorSame(before, after, ps[k], ps[m] + 2 * CHECKSUM, ps[m] + SECTOR);
      } else if m < k {
        Below(ps, base, m, k);
        SectorSame(before, after, ps[k], ps[m] + 2 * CHECKSUM, ps[m] + SECTOR);
      }
    }
  }

  function Contents(raws: seq<array<bv32>>): (r: seq<seq<bv32>>)
    reads raws
    ensures |r| == |raws| && forall n {:trigger r[n]} :: 0 <= n < |raws| ==> r[n] == raws[n][..]
  {
    seq(|raws|, n requires 0 <= n < |raws| reads raws => raws[n][..])
  }

  /** The loop of FloppyReadWriteTrack that encodes the sectors that were changed */
  method EncodeDirty(mem: array<bv16>, sectors: array<nat>, raws: seq<array<bv32>>, dirty: array<bool>,
                     ghost base: nat, ghost ps: seq<nat>, ghost last: nat, ghost secs: seq<seq<bv32>>) returns (ghost news: seq<seq<bv32>>)
    requires base + TRACK <= mem.Length && sectors.Length == NSECTORS == dirty.Length == |raws|
    requires forall n {:trigger raws[n]} :: 0 <= n < |raws| ==> raws[n].Length == RAW
    requires Spread(ps, base) && Rotated(sectors[..], ps, last) && Stored(mem[..], ps, secs, 0, NSECTORS) && Sized(secs)
    requires |ps| == NSECTORS && base <= ps[0] + 4
    modifies mem, dirty
    ensures Stored(mem[..], ps, news, 0, NSECTORS) && last < NSECTORS && Same(old(mem[..]), mem[..], base, base + TRACK)
    ensures EncodedUpTo(last, secs, news, old(dirty[..]), Contents(raws), NSECTORS) && forall n {:trigger dirty[n]} :: 0 <= n < NSECTORS ==> !dirty[n]
  {
    hide Stored, Sealed, Rotated, Spread, SectorIn, EncodedUpTo, EncodedOr, Same;
    ghost var words, all := Contents(raws), old(dirty[..]);
    LastBound(sectors[..], ps, last);
    NoneEncoded(last, secs, all, words);
    SameRefl(mem[..], base, base + TRACK);
    news := secs;
    var i := 0;
    while i < NSECTORS
      invariant i <= NSECTORS && Stored(mem[..], ps, news, 0, NSECTORS) && EncodedUpTo(last, secs, news, all, words, i) && |news| == NSECTORS
      invariant Same(old(mem[..]), mem[..], base, base + TRACK)
      invariant forall n {:trigger dirty[n]} :: 0 <= n < NSECTORS ==> dirty[n] == (i <= n && all[n])
    {
      ghost var mem0 := mem[..];
      ghost var m := PlaceOf(last, i);
      PlaceOfNumber(last, i);
      SectorPlace(mem[..], base, sectors[..], ps, last, news, i);
      if dirty[i] {
        EncodeSector(raws[i], mem, sectors[i]);
        InTrack(ps, base, m);
        SameTwice(old(mem[..]), mem0, mem[..], ps[m] + 2 * CHECKSUM, ps[m] + SECTOR, base, base + TRACK);
        SectorIs(mem, sectors[i]);
        EncodedSector(mem0, mem[..], ps[m], raws[i][..]);
        StoredEncoded(mem0, mem[..], base, ps, news, m);
        EncodeOne(last, secs, news, all, words, i, SectorIn(mem[..], ps[m]));
        news := news[m := SectorIn(mem[..], ps[m])];
        dirty[i] := false;
      } else {
        NotEncoded(news[m], words[i]);
        EncodeOne(last, secs, news, all, words, i, news[m]);
        assert news[m := news[m]] == news;
      }
      i := i + 1;
    }
  }

  /** Payloads are in the buffer, even that of a sector that begins before it. */
  lemma InTrack(ps: seq<nat>, base: nat, m: nat)
    requires Spread(ps, base) && base <= ps[0] + 4 && m < NSECTORS
    ensures base <= ps[m] + 2 * CHECKSUM && ps[m] + SECTOR <= base + TRACK
  {
    if m > 0 { Below(ps, base, 0, m); }
    if m < NSECTORS - 1 { Below(ps, base, m, NSECTORS - 1); }
  }

  lemma LastBound(sectors: seq<nat>, ps: seq<nat>, last: nat)
    requires Rotated(sectors, ps, last)
    ensures last < NSECTORS
  {
  }

  lemma NoneEncoded(last: nat, secs: seq<seq<bv32>>, dirty: seq<bool>, raws: seq<seq<bv32>>)
    requires last < NSECTORS && Sized(secs) && |dirty| == NSECTORS == |raws|
    ensures EncodedUpTo(last, secs, secs, dirty, raws, 0)
  {
    hide Sealed;
    forall k | 0 <= k < NSECTORS ensures |secs[PlaceOf(last, k)]| == LONGS { PlaceOfNumber(last, k); }
  }

  lemma NotEncoded(sec: seq<bv32>, raw: seq<bv32>)
    requires |sec| == LONGS
    ensures EncodedOr(sec, sec, false, raw)
  {
  }

  lemma SectorPlace(words: seq<bv16>, base: nat, sectors: seq<nat>, ps: seq<nat>, last: nat, secs: seq<seq<bv32>>, n: nat)
    requires Spread(ps, base) && Rotated(sectors, ps, last) && Stored(words, ps, secs, 0, NSECTORS) && n < NSECTORS
    ensures PlaceOf(last, n) < NSECTORS && |ps| == NSECTORS == |secs| && sectors[n] == ps[PlaceOf(last, n)]
    ensures sectors[n] + SECTOR <= |words| && SectorIn(words, sectors[n]) == secs[PlaceOf(last, n)] && |secs[PlaceOf(last, n)]| == LONGS
  {
    hide Longs;
    PlaceOfNumber(last, n);
    var p := ps[PlaceOf(last, n)];
  }

  // --- the whole round ------------------------------------------------------------------------------

  /** A reader of the sector gets these data, and the checksum agrees. */
  ghost predicate Delivers(sec: seq<bv32>, raw: seq<bv32>) {
    Carries(sec, raw) && Parity(Decode(sec[CHECKSUM], sec[CHECKSUM + 1]), HalvesOf(raw))
  }

  /** A reader finds the same data in both. */
  ghost predicate SamePayload(sec: seq<bv32>, r: seq<bv32>) {
    && |sec| == LONGS == |r| && Decode(r[CHECKSUM], r[CHECKSUM + 1]) == Decode(sec[CHECKSUM], sec[CHECKSUM + 1])
    && forall raw {:trigger Carries(r, raw)} {:trigger Carries(sec, raw)} :: Carries(sec, raw) <==> Carries(r, raw)
  }

  lemma HeadedDelivers(sec: seq<bv32>, r: seq<bv32>, gapDist: bv32, one: bool, raw: seq<bv32>)
    requires Headed(sec, r, gapDist, one)
    ensures SamePayload(sec, r) && (Sealed(sec, raw) ==> Delivers(r, raw))
  {
    hide Headed, Decode, Carries, CleanPart, Parity, HalvesOf;
    HeadedEnd(sec, r, gapDist, one);
    PayloadKept(sec, r, gapDist, one);
  }

  lemma ReadPayload(sec: seq<bv32>, r: seq<bv32>, first: bool)
    requires ReadAs(sec, r, first)
    ensures SamePayload(sec, r) && (Sound(sec) ==> Sound(r)) && InfoOf(r) == InfoOf(sec)
  {
    hide Decode, Clean, Inside;
    forall raw {:trigger Carries(r, raw)} ensures Carries(sec, raw) <==> Carries(r, raw) {
      PayloadSame(sec, r, raw);
      PayloadSame(r, sec, raw);
    }
    if Sound(sec) {
      forall k {:trigger CleanAt(r, k)} | CHECKSUM + 1 <= k < LONGS ensures CleanAt(r, k) {
        assert CleanAt(sec, k);
      }
    }
  }

  lemma SamePayloadTwice(a: seq<bv32>, b: seq<bv32>, c: seq<bv32>)
    requires SamePayload(a, b) && SamePayload(b, c)
    ensures SamePayload(a, c)
  {
    hide Decode, Carries;
    forall raw {:trigger Carries(c, raw)} ensures Carries(a, raw) <==> Carries(c, raw) {
      assert Carries(b, raw) <==> Carries(c, raw);
    }
  }

  lemma SealedEnd(sec: seq<bv32>, raw: seq<bv32>)
    requires Sealed(sec, raw)
    ensures |sec| == LONGS && Low(sec[LONGS - 1]) != 0x4489
  {
    hide Low, Clean, Decode, Parity, HalvesOf;
    assert CleanAt(sec, LONGS - 1);
    CleanHasNoSync(sec[LONGS - 1], Last(sec[LONGS - 2]));
  }

  /** What the encoding of sectors leaves alone */
  lemma EncodedFront(sec: seq<bv32>, r: seq<bv32>, changed: bool, raw: seq<bv32>)
    requires EncodedOr(sec, r, changed, raw)
    ensures |sec| == LONGS == |r| && r[1] == sec[1] && InfoOf(r) == InfoOf(sec) && (Sound(sec) ==> Sound(r))
    ensures Low(sec[LONGS - 1]) != 0x4489 ==> Low(r[LONGS - 1]) != 0x4489
  {
    hide Decode, Sealed, Sound, Low;
    if changed {
      SealedSound(r, raw);
      SealedEnd(r, raw);
      assert r[..CHECKSUM][1] == r[1] && r[..CHECKSUM][INFO] == r[INFO] && r[..CHECKSUM][INFO + 1] == r[INFO + 1];
      assert sec[..CHECKSUM][1] == sec[1] && sec[..CHECKSUM][INFO] == sec[INFO] && sec[..CHECKSUM][INFO + 1] == sec[INFO + 1];
    }
  }

  lemma EncodedAll(last: nat, secs: seq<seq<bv32>>, news: seq<seq<bv32>>, dirty: seq<bool>, raws: seq<seq<bv32>>)
    requires last < NSECTORS && Sized(secs) && EncodedUpTo(last, secs, news, dirty, raws, NSECTORS)
    ensures Sized(news) && (AllSynced(news) <==> AllSynced(secs)) && (AllSound(secs) ==> AllSound(news))
    ensures Numbered(secs, last) ==> Numbered(news, last)
    ensures forall front :: Fronted(secs, front) ==> Fronted(news, front)
  {
    hide EncodedOr, InfoOf, SectorNum, Sound, Low, Format, TrackNum;
    forall m {:trigger secs[m]} {:trigger news[m]} | 0 <= m < NSECTORS
      ensures |news[m]| == LONGS && news[m][1] == secs[m][1] && InfoOf(news[m]) == InfoOf(secs[m]) && (Sound(secs[m]) ==> Sound(news[m]))
      ensures Low(secs[m][LONGS - 1]) != 0x4489 ==> Low(news[m][LONGS - 1]) != 0x4489
    {
      var k := NumAt(last, m);
      PlaceOfNumber(last, k);
      var d := dirty[k];
      EncodedFront(secs[m], news[m], dirty[k], raws[k]);
    }
  }

  /** What became of sector number `n`: `secs` is how it was on the disk, `news` how it is now. */
  ghost predicate Rewritten(last: nat, secs: seq<seq<bv32>>, last2: nat, news: seq<seq<bv32>>, n: nat, changed: bool,
                            raw: seq<bv32>)
    requires last < NSECTORS && last2 < NSECTORS && n < NSECTORS
  {
    && |secs| == NSECTORS == |news|
    && if changed then Delivers(news[PlaceOf(last2, n)], raw)
       else SamePayload(secs[PlaceOf(last, n)], news[PlaceOf(last2, n)])
  }

  lemma RewriteOne(last: nat, secs: seq<seq<bv32>>, s: nat, secs2: seq<seq<bv32>>, secs3: seq<seq<bv32>>, news: seq<seq<bv32>>,
                   n: nat, dirty: seq<bool>, raws: seq<seq<bv32>>)
    requires last < NSECTORS && s < NSECTORS && n < NSECTORS && Sized(secs) && Sized(secs2) && LastRead(last, s) < NSECTORS
    requires forall m {:trigger secs2[m]} :: 0 <= m < NSECTORS ==> ReadAs(secs[Written(s, m)], secs2[m], m == 0)
    requires EncodedUpTo(LastRead(last, s), secs2, secs3, dirty, raws, NSECTORS) && AllHeaded(secs3, news, NSECTORS)
    ensures |dirty| == NSECTORS == |raws| && Rewritten(last, secs, LastRead(last, s), news, n, dirty[n], raws[n])
  {
    hide ReadAs, Headed, Delivers, SamePayload, Sealed, Decode, Carries;
    var last2 := LastRead(last, s);
    var m := PlaceOf(last2, n);
    PlaceOfNumber(last2, n);
    PlaceOfNumber(last, n);
    NumbersRead(last, s, m);
    assert Written(s, m) == PlaceOf(last, n);
    var sec, d, sec3 := secs2[m], dirty[n], secs3[m];
    ReadPayload(secs[Written(s, m)], secs2[m], m == 0);
    HeadedDelivers(secs3[m], news[m], GapAt(m), OneBefore(secs3, m), raws[n]);
    if !dirty[n] {
      SamePayloadTwice(secs[Written(s, m)], secs2[m], news[m]);
    }
  }

  /** Read a track, encode the sectors that were changed, and realign it for writing. Every sector has
      its new data or the old ones, and the track is laid out as before; but the second sync word of its first sector
      is there only if it was stored when the track was read, and otherwise it is what lies before the buffer.
      RealignTrack mends only the first sync word. */
  method RewriteTrack(mem: array<bv16>, base: nat, sectors: array<nat>, raws: seq<array<bv32>>, dirty: array<bool>,
                      ghost disk: seq<bv16>, ghost secs: seq<seq<bv32>>, ghost last: nat, ghost s: nat, ghost off: nat)
      returns (verified: bool, ghost news: seq<seq<bv32>>, ghost front: Front)
    requires sectors.Length == NSECTORS == dirty.Length == |raws| && forall n {:trigger raws[n]} :: 0 <= n < |raws| ==> raws[n].Length == RAW
    requires Formatted(disk, secs, last) && ReadIn(mem[..], base, disk, s, off)
    modifies mem, sectors, dirty
    ensures last < NSECTORS && s < NSECTORS && LastRead(last, s) < NSECTORS && 4 < base && base + TRACK <= mem.Length && Sized(secs)
    ensures forall n {:trigger dirty[n]} :: 0 <= n < NSECTORS ==>
              !dirty[n] && Rewritten(last, secs, LastRead(last, s), news, n, old(dirty[n]), Contents(raws)[n])
    ensures front == FrontOf(secs).(second := if off == 3 then 0x4489 else old(mem[base - 1]))
    ensures LaidOut(mem[base..base + TRACK], news, LastRead(last, s), front)
    ensures Formatted(mem[base..base + TRACK], news, LastRead(last, s)) <==> front.second == 0x4489
    ensures AllSound(secs) ==> AllSound(news) && (verified <==> front.second == 0x4489)
  {
    hide Formatted, LaidOut, ReadIn, Rotated, Spread, Stored, AllSound, AllSynced, AllHeaded, Numbered, Fronted, EncodedUpTo, GapFilled,
      SectorIn, Rewritten, Same, Updated, ReadAs, FrontOf;
    ghost var words, all, raw := mem[..], dirty[..], Contents(raws);
    FirstWords(words, base, disk, secs, last, s, off);
    FormattedFront(disk, secs, last);
    NumbersRead(last, s, 0);
    var sound := DecodeTrack(mem, base, sectors, disk, secs, last, FrontOf(secs), s, off);
    PlacesFit(words, base, disk, s, off);
    ghost var ps, last2 := Places(base, off, s), LastRead(last, s);
    ghost var secs2 := SectorsIn(words, ps);
    front := FrontOf(secs).(second := if off == 3 then 0x4489 else words[base - 1]);
    AllRead(words, base, disk, secs, last, s, off);
    FrontedRead(words, base, disk, secs, last, s, off);
    NumberedRead(secs, secs2, disk, last, s);
    SoundRead(secs, secs2, s);
    SpreadLow(ps, base, off, s);
    ghost var secs3 := EncodeDirty(mem, sectors, raws, dirty, base, ps, last2, secs2);
    EncodedAll(last2, secs2, secs3, all, raw);
    FrontedSynced(secs3, front);
    verified, news := RealignTrack(mem, base, sectors, ps, last2, secs3);
    SizedEnd(secs3, news);
    if AllSound(secs3) { SoundAgain(secs3, news); }
    RealignedLaidOut(mem[..], base, secs3, news, last2, front, Last(news[NSECTORS - 1][LONGS - 1]));
    FrontIs(mem[..][base..base + TRACK], news, last2, front);
    assert mem[..][base..base + TRACK] == mem[base..base + TRACK];
    forall n | 0 <= n < NSECTORS ensures Rewritten(last, secs, last2, news, n, all[n], raw[n]) {
      RewriteOne(last, secs, s, secs2, secs3, news, n, all, raw);
    }
  }

  lemma SpreadLow(ps: seq<nat>, base: nat, off: nat, s: nat)
    requires off <= base && off <= 4 && s < NSECTORS && ps == Places(base, off, s)
    ensures |ps| == NSECTORS && base <= ps[0] + 4
  {
  }

  lemma SizedEnd(secs: seq<seq<bv32>>, news: seq<seq<bv32>>)
    requires AllHeaded(secs, news, NSECTORS)
    ensures |news| == NSECTORS && |news[NSECTORS - 1]| == LONGS
  {
    hide Headed;
  }

  lemma SoundAgain(secs: seq<seq<bv32>>, news: seq<seq<bv32>>)
    requires AllHeaded(secs, news, NSECTORS) && AllSound(secs)
    ensures AllSound(news)
  {
    hide Headed, Clean, Inside;
    forall i {:trigger news[i]} | 0 <= i < NSECTORS ensures Sound(news[i]) {
      var sec := secs[i];
      HeadedClean(sec, news[i], GapAt(i), OneBefore(secs, i));
      assert CleanAt(news[i], CHECKSUM);
      CleanInside(news[i][CHECKSUM], Last(news[i][CHECKSUM - 1]));
    }
  }

  lemma SoundRead(secs: seq<seq<bv32>>, secs2: seq<seq<bv32>>, s: nat)
    requires Sized(secs) && Sized(secs2) && s < NSECTORS
    requires forall m {:trigger secs2[m]} :: 0 <= m < NSECTORS ==> ReadAs(secs[Written(s, m)], secs2[m], m == 0)
    ensures AllSound(secs) ==> AllSound(secs2)
  {
    hide Sound, ReadAs, SamePayload;
    forall m {:trigger secs2[m]} | 0 <= m < NSECTORS ensures Sound(secs[Written(s, m)]) ==> Sound(secs2[m]) {
      ReadPayload(secs[Written(s, m)], secs2[m], m == 0);
    }
  }
}
