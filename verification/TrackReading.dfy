/** Reading a track back (drivers/floppy-mfm.c). The drive starts to store words behind a sync word,
    wherever the disk happens to be, so a buffer holds a rotation of the track as it was written. */
module TrackReading {
  import opened Mfm
  import opened Sectors
  import opened Headers
  import opened Tracks

  function InfoOf(sec: seq<bv32>): bv32
    requires |sec| == LONGS
  {
    Decode(sec[INFO], sec[INFO + 1])
  }

  function Number(sec: seq<bv32>): nat
    requires |sec| == LONGS
  {
    SectorNum(InfoOf(sec)) as nat
  }

  /** What all headers of a track say, and the word in the place of the second sync word of its first sector */
  datatype Front = Front(format: bv32, track: bv32, second: bv16)

  /** The word in the place of the second sync word of the `i`th sector */
  function SecondAt(front: Front, i: nat): bv16 { if i == 0 then front.second else 0x4489 }

  /** The marks that a reader looks for are in place, the second sync word perhaps not, and nothing else looks
      like them. */
  predicate Marked(sec: seq<bv32>, second: bv16) {
    && |sec| == LONGS && High(sec[1]) == 0x4489 && Low(sec[1]) == second
    && High(sec[0]) != 0x4489 && Low(sec[0]) != 0x4489 && High(sec[INFO]) != 0x4489 && Low(sec[LONGS - 1]) != 0x4489
  }

  /** The headers of a track: `last` is the number of its last sector. */
  predicate Says(sec: seq<bv32>, last: nat, front: Front, i: nat)
    requires i < NSECTORS
  {
    && |sec| == LONGS && GapDist(InfoOf(sec)) == GapAt(i) && Number(sec) == NumAt(last, i)
    && Format(InfoOf(sec)) == front.format && TrackNum(InfoOf(sec)) == front.track
  }

  /** A track as RealignTrack leaves it */
  ghost predicate LaidOut(disk: seq<bv16>, secs: seq<seq<bv32>>, last: nat, front: Front) {
    && |disk| == TRACK && last < NSECTORS && Sized(secs) && Stored(disk, Slots(0), secs, 0, NSECTORS)
    && front.track <= 160
    && (forall i {:trigger disk[i]} :: 0 <= i < GAP ==> disk[i] != 0x4489)
    && forall i {:trigger secs[i]} :: 0 <= i < NSECTORS ==> Marked(secs[i], SecondAt(front, i)) && Says(secs[i], last, front, i)
  }

  function FrontOf(secs: seq<seq<bv32>>): Front
    requires |secs| == NSECTORS && |secs[0]| == LONGS
  {
    Front(Format(InfoOf(secs[0])), TrackNum(InfoOf(secs[0])), Low(secs[0][1]))
  }

  /** A track of which all sync words are there */
  ghost predicate Formatted(disk: seq<bv16>, secs: seq<seq<bv32>>, last: nat) {
    Sized(secs) && FrontOf(secs).second == 0x4489 && LaidOut(disk, secs, last, FrontOf(secs))
  }

  function Wrap(i: nat): nat { if i < TRACK then i else i - TRACK }

  /** The buffer was filled from the word behind the first or second sync word of the `s`th sector; what is in
      front of that word is a sync word. */
  ghost predicate ReadIn(words: seq<bv16>, base: nat, disk: seq<bv16>, s: nat, off: nat) {
    && |disk| == TRACK && 4 < base && base + TRACK <= |words| && s < NSECTORS && (off == 3 || off == 4)
    && disk[Slot(0, s) + off - 1] == 0x4489
    && forall i {:trigger words[i]} :: base <= i < base + TRACK ==> words[i] == disk[Wrap(Slot(0, s) + off + i - base)]
  }

  /** The `m`th sector in the buffer is the one that was written as */
  function Written(s: nat, m: nat): nat { if s + m < NSECTORS then s + m else s + m - NSECTORS }

  /** Where it begins. The first one begins before the buffer. */
  function Place(base: nat, off: nat, s: nat, m: nat): nat
    requires off <= base
  {
    base - off + m * SECTOR + if s + m < NSECTORS then 0 else GAP
  }

  function Places(base: nat, off: nat, s: nat): (ps: seq<nat>)
    requires off <= base
    ensures |ps| == NSECTORS && forall m {:trigger ps[m]} :: 0 <= m < NSECTORS ==> ps[m] == Place(base, off, s, m)
  {
    seq(NSECTORS, m requires 0 <= m < NSECTORS => Place(base, off, s, m))
  }

  lemma PlacesSpread(base: nat, off: nat, s: nat)
    requires off < base && 3 <= off && s < NSECTORS
    ensures Spread(Places(base, off, s), base)
  {
  }

  /** All words that were stored are those of the track. */
  lemma WordRead(words: seq<bv16>, base: nat, disk: seq<bv16>, s: nat, off: nat, m: nat, j: nat)
    requires ReadIn(words, base, disk, s, off) && m < NSECTORS && j < SECTOR && (m > 0 || j >= off)
    ensures var p, i := Place(base, off, s, m), Written(s, m);
            p + SECTOR <= |words| && i < NSECTORS && Slot(0, i) + j < |disk| && words[p + j] == disk[Slot(0, i) + j]
  {
    assert Wrap(Slot(0, s) + off + (Place(base, off, s, m) + j) - base) == Slot(0, Written(s, m)) + j;
  }

  /** Everything from the header on is in the buffer; only the first sector lacks what is before. */
  lemma WordsRead(words: seq<bv16>, base: nat, disk: seq<bv16>, secs: seq<seq<bv32>>, last: nat, front: Front, s: nat, off: nat, m: nat, k: nat)
    requires LaidOut(disk, secs, last, front) && ReadIn(words, base, disk, s, off) && m < NSECTORS && k < LONGS && (m > 0 || k >= INFO)
    ensures Place(base, off, s, m) + SECTOR <= |words| && SectorIn(words, Place(base, off, s, m))[k] == secs[Written(s, m)][k]
  {
    hide Long, Marked, Says, Stored, Place;
    NotBehind(words, base, disk, secs, last, front, s, off);
    WordRead(words, base, disk, s, off, m, 2 * k);
    WordRead(words, base, disk, s, off, m, 2 * k + 1);
    SaysAt(disk, secs, last, front, Written(s, m));
    StoredHere(disk, 0, secs, Written(s, m));
  }

  /** The number of the last sector in the buffer */
  function LastRead(last: nat, s: nat): nat
    requires last < NSECTORS && s < NSECTORS
  {
    NumAt(last, if s == 0 then NSECTORS - 1 else s - 1)
  }

  lemma NumbersRead(last: nat, s: nat, m: nat)
    requires last < NSECTORS && s < NSECTORS && m < NSECTORS
    ensures LastRead(last, s) < NSECTORS && NumAt(LastRead(last, s), m) == NumAt(last, Written(s, m)) < NSECTORS
  {
  }

  lemma OnlyLastGap(i: nat)
    requires i < NSECTORS
    ensures GapAt(i) == 1 <==> i == NSECTORS - 1
    ensures GapAt(i) <= 11 && GapAt(0) == 11
  {
  }

  /** Where the marks of a sector are on the disk */
  lemma MarksOnDisk(disk: seq<bv16>, secs: seq<seq<bv32>>, last: nat, front: Front, i: nat)
    requires LaidOut(disk, secs, last, front) && i < NSECTORS
    ensures var p := Slot(0, i);
            && p + SECTOR <= |disk| && disk[p] != 0x4489 && disk[p + 1] != 0x4489 && disk[p + 2] == 0x4489
            && disk[p + 3] == SecondAt(front, i) && disk[p + 4] != 0x4489 && disk[p + SECTOR - 1] != 0x4489
  {
    hide Says, Long, High, Low, SecondAt;
    StoredHere(disk, 0, secs, i);
    var sec := secs[i];
    HalfWords(disk, Slot(0, i), 0);
    HalfWords(disk, Slot(0, i), 1);
    HalfWords(disk, Slot(0, i), 2);
    HalfWords(disk, Slot(0, i), LONGS - 1);
  }

  lemma HalfWords(disk: seq<bv16>, p: nat, k: nat)
    requires p + SECTOR <= |disk| && k < LONGS
    ensures disk[p + 2 * k] == High(SectorIn(disk, p)[k]) && disk[p + 2 * k + 1] == Low(SectorIn(disk, p)[k])
  {
    hide Long, High, Low;
    PartsOfLong(disk[p + 2 * k], disk[p + 2 * k + 1]);
  }

  lemma PartsOfLong(h: bv16, l: bv16)
    ensures High(Long(h, l)) == h && Low(Long(h, l)) == l
  {
  }

  // --- a header that is read one word too early -----------------------------------------------------

  /** Behind a missing sync word the pointer to a sector is one word too low. What DecodeHeader then takes for the
      number of the sector is its format byte, and the track number for the gap distance. */
  lemma HeaderShifted(w: bv16, a: bv32, b: bv32)
    ensures var info, r := Decode(a, b), Decode(Long(w, High(a)), Long(Low(a), High(b)));
            SectorNum(r) == Format(info) && GapDist(r) == TrackNum(info) && TrackNum(r) == ShiftedTrack(w, info)
  {
    ShiftedNumber(w, a, b);
    ShiftedGap(w, a, b);
    ShiftedNum(w, a, b);
  }

  /** And the track number is made of the word in front, and the gap distance. */
  function ShiftedTrack(w: bv16, info: bv32): bv32 { (((w & 0x55) as bv32) << 1) | ((info >> 1) & 0x55) }

  lemma ShiftedNumber(w: bv16, a: bv32, b: bv32)
    ensures SectorNum(Decode(Long(w, High(a)), Long(Low(a), High(b)))) == Format(Decode(a, b))
  {
  }

  lemma ShiftedGap(w: bv16, a: bv32, b: bv32)
    ensures GapDist(Decode(Long(w, High(a)), Long(Low(a), High(b)))) == TrackNum(Decode(a, b))
  {
  }

  lemma ShiftedNum(w: bv16, a: bv32, b: bv32)
    ensures TrackNum(Decode(Long(w, High(a)), Long(Low(a), High(b)))) == ShiftedTrack(w, Decode(a, b))
  {
  }

  /** Of the first sector it is no track of a disk if and only if two bits of the word are set, of the others never. */
  lemma ShiftedTrackExactly(w: bv16, info: bv32)
    ensures GapDist(info) == 11 ==> (ShiftedTrack(w, info) > 160 <==> w & 0x50 == 0x50)
    ensures GapDist(info) <= 11 ==> ShiftedTrack(0x4489, info) <= 160
  {
  }

  // --- finding a header -----------------------------------------------------------------------------

  /** FindSectorHeader: past the next run of sync words, which is from `a` to `b` */
  method FindSectorHeader(mem: array<bv16>, ptr: nat, ghost a: nat, ghost b: nat) returns (sector: nat)
    requires ptr <= a < b < mem.Length && 4 <= b && mem[b] != 0x4489
    requires forall i {:trigger mem[i]} :: ptr <= i < a ==> mem[i] != 0x4489
    requires forall i {:trigger mem[i]} :: a <= i < b ==> mem[i] == 0x4489
    ensures sector == b - 4
  {
    var data := ptr;
    while mem[data] != 0x4489
      invariant ptr <= data <= a
      decreases a - data
    {
      data := data + 1;
    }
    while mem[data] == 0x4489
      invariant a <= data <= b
      decreases b - data
    {
      data := data + 1;
    }
    sector := data - 4;
  }

  /** The pointer to the `m`th sector is one word too low: from the missing sync word on, but on track 1 only there. */
  predicate Early(front: Front, s: nat, m: nat) {
    front.second != 0x4489 && m >= FirstAt(s) && (front.track != 1 || m == FirstAt(s))
  }

  /** When the first sector of the track is read */
  function FirstAt(s: nat): nat { if s == 0 then 0 else if s <= NSECTORS then NSECTORS - s else 0 }

  lemma FirstWritten(s: nat, m: nat)
    requires s < NSECTORS && m < NSECTORS
    ensures FirstAt(s) < NSECTORS && (Written(s, m) == 0 <==> m == FirstAt(s))
    ensures Written(s, m) == NSECTORS - 1 && m + 1 < NSECTORS <==> m + 1 == FirstAt(s)
  {
  }

  /** Where DecodeTrack looks for it */
  function Spot(base: nat, off: nat, s: nat, m: nat, front: Front): nat
    requires off < base
  {
    Place(base, off, s, m) - if Early(front, s, m) then 1 else 0
  }

  /** If the sync word is missing, the buffer cannot begin behind it. */
  lemma NotBehind(words: seq<bv16>, base: nat, disk: seq<bv16>, secs: seq<seq<bv32>>, last: nat, front: Front, s: nat, off: nat)
    requires LaidOut(disk, secs, last, front) && ReadIn(words, base, disk, s, off)
    ensures off < base && s < NSECTORS && (off == 4 ==> SecondAt(front, s) == 0x4489)
    ensures words[base] == if off == 3 then SecondAt(front, s) else disk[Slot(0, s) + 4]
    ensures off == 4 ==> words[base] != 0x4489
    ensures last < NSECTORS && 4 < base && base + TRACK <= |words| && (off == 3 || off == 4)
  {
    hide Marked, Says, Stored, SectorIn, SecondAt;
    MarksOnDisk(disk, secs, last, front, s);
    assert Wrap(Slot(0, s) + off + base - base) == Slot(0, s) + off;
  }

  /** The first sync words after the gap */
  lemma AfterGap(words: seq<bv16>, base: nat, disk: seq<bv16>, secs: seq<seq<bv32>>, last: nat, front: Front, s: nat, off: nat)
    requires LaidOut(disk, secs, last, front) && ReadIn(words, base, disk, s, off) && s > 0
    ensures var e := base - off + (NSECTORS - s) * SECTOR; var a := e + GAP + 2; var b := if front.second == 0x4489 then a + 2 else a + 1;
            && b < |words| && words[b] != 0x4489
            && (forall i {:trigger words[i]} :: e <= i < a ==> words[i] != 0x4489)
            && (forall i {:trigger words[i]} :: a <= i < b ==> words[i] == 0x4489)
  {
    hide Marked, Says, Stored, Sized, SectorIn;
    MarksOnDisk(disk, secs, last, front, 0);
    var e := base - off + (NSECTORS - s) * SECTOR;
    forall i {:trigger words[i]} | e <= i < e + GAP + 5 ensures words[i] == disk[i - e] {
      assert Wrap(Slot(0, s) + off + i - base) == i - e;
    }
  }

  /** And those after a sector whose track number was taken for the end of the track */
  lemma AfterEarly(words: seq<bv16>, base: nat, disk: seq<bv16>, secs: seq<seq<bv32>>, last: nat, front: Front, s: nat, off: nat, m: nat)
    requires LaidOut(disk, secs, last, front) && ReadIn(words, base, disk, s, off) && m + 1 < NSECTORS && m == FirstAt(s)
    ensures var p := Place(base, off, s, m + 1);
            && p == Place(base, off, s, m) + SECTOR && p + 4 < |words| && p > 0 && words[p - 1] != 0x4489 && words[p] != 0x4489 && words[p + 1] != 0x4489
            && words[p + 2] == 0x4489 && words[p + 3] == 0x4489 && words[p + 4] != 0x4489
  {
    hide LaidOut, ReadIn, SectorIn, Place;
    NotBehind(words, base, disk, secs, last, front, s, off);
    FirstWritten(s, m);
    FirstWritten(s, m + 1);
    var i := Written(s, m);
    MarksOnDisk(disk, secs, last, front, 0);
    MarksOnDisk(disk, secs, last, front, Written(s, m + 1));
    WordRead(words, base, disk, s, off, m, SECTOR - 1);
    WordRead(words, base, disk, s, off, m + 1, 0);
    WordRead(words, base, disk, s, off, m + 1, 1);
    WordRead(words, base, disk, s, off, m + 1, 2);
    WordRead(words, base, disk, s, off, m + 1, 3);
    WordRead(words, base, disk, s, off, m + 1, 4);
    Behind(base, off, s, m);
  }

  lemma Behind(base: nat, off: nat, s: nat, m: nat)
    requires off < base && s < NSECTORS && m + 1 < NSECTORS && m + 1 != FirstAt(s)
    ensures Place(base, off, s, m + 1) == Place(base, off, s, m) + SECTOR
  {
  }

  // --- DecodeTrack ----------------------------------------------------------------------------------

  /** The header of a sector in the buffer says which one it is. */
  lemma HeaderRead(mem: array<bv16>, base: nat, disk: seq<bv16>, secs: seq<seq<bv32>>, last: nat, front: Front, s: nat, off: nat, m: nat)
    requires LaidOut(disk, secs, last, front) && ReadIn(mem[..], base, disk, s, off) && m < NSECTORS
    ensures var p, i := Place(base, off, s, m), Written(s, m);
            && p + SECTOR <= mem.Length && i < NSECTORS && |secs| == NSECTORS && |secs[i]| == LONGS
            && Decode(At(mem, p + 2 * INFO), At(mem, p + 2 * INFO + 2)) == InfoOf(secs[i]) && Says(secs[i], last, front, i)
  {
    hide Marked, Stored, SectorIn, Decode, Says, Long;
    WordsRead(mem[..], base, disk, secs, last, front, s, off, m, INFO);
    WordsRead(mem[..], base, disk, secs, last, front, s, off, m, INFO + 1);
    var p, sec := Place(base, off, s, m), secs[Written(s, m)];
    SectorIs(mem, p);
    SectorAt(mem, p, INFO);
    SectorAt(mem, p, INFO + 1);
  }

  /** Read one word too early, it does not. */
  lemma HeaderReadEarly(mem: array<bv16>, base: nat, disk: seq<bv16>, secs: seq<seq<bv32>>, last: nat, front: Front, s: nat, off: nat, m: nat)
    requires LaidOut(disk, secs, last, front) && ReadIn(mem[..], base, disk, s, off) && m < NSECTORS && Early(front, s, m)
    ensures var p, i := Place(base, off, s, m) - 1, Written(s, m);
            && 0 <= p && p + SECTOR <= mem.Length
            && var r := Decode(At(mem, p + 2 * INFO), At(mem, p + 2 * INFO + 2));
               && SectorNum(r) == front.format && GapDist(r) == front.track
               && (TrackNum(r) > 160 <==> m == FirstAt(s) && front.second & 0x50 == 0x50)
  {
    hide LaidOut, ReadIn, Decode, Says, Long, SectorNum, GapDist, TrackNum, Format, ShiftedTrack, High, Low;
    NotBehind(mem[..], base, disk, secs, last, front, s, off);
    FirstWritten(s, m);
    var i := Written(s, m);
    SaysAt(disk, secs, last, front, i);
    StoredHere(disk, 0, secs, i);
    MarksOnDisk(disk, secs, last, front, i);
    WordRead(mem[..], base, disk, s, off, m, 3);
    WordRead(mem[..], base, disk, s, off, m, 4);
    WordRead(mem[..], base, disk, s, off, m, 5);
    WordRead(mem[..], base, disk, s, off, m, 6);
    HalfWords(disk, Slot(0, i), INFO);
    HalfWords(disk, Slot(0, i), INFO + 1);
    HeaderShifted(SecondAt(front, i), secs[i][INFO], secs[i][INFO + 1]);
    ShiftedTrackExactly(SecondAt(front, i), InfoOf(secs[i]));
    SaysGap(secs[i], last, front, i);
  }

  lemma SaysAt(disk: seq<bv16>, secs: seq<seq<bv32>>, last: nat, front: Front, i: nat)
    requires LaidOut(disk, secs, last, front) && i < NSECTORS
    ensures |secs| == NSECTORS && |secs[i]| == LONGS && Says(secs[i], last, front, i) && Stored(disk, Slots(0), secs, 0, NSECTORS)
  {
    hide Marked, Says;
    var sec := secs[i];
  }

  lemma SaysGap(sec: seq<bv32>, last: nat, front: Front, i: nat)
    requires i < NSECTORS && Says(sec, last, front, i)
    ensures GapDist(InfoOf(sec)) <= 11 && (i == 0 ==> GapDist(InfoOf(sec)) == 11)
    ensures Format(InfoOf(sec)) == front.format && TrackNum(InfoOf(sec)) == front.track
  {
    hide GapDist, InfoOf, Number, Format, TrackNum;
    OnlyLastGap(i);
  }

  /** The first `m` sectors have been found. */
  ghost predicate Found(sectors: seq<nat>, ps: seq<nat>, last: nat, m: nat) {
    && |sectors| == NSECTORS == |ps| && m <= NSECTORS && last < NSECTORS
    && forall k {:trigger ps[k]} {:trigger NumAt(last, k)} :: 0 <= k < m ==> sectors[NumAt(last, k)] == ps[k]
  }

  lemma FindOne(sectors: seq<nat>, ps: seq<nat>, last: nat, m: nat)
    requires Found(sectors, ps, last, m) && m < NSECTORS
    ensures NumAt(last, m) < NSECTORS && Found(sectors[NumAt(last, m) := ps[m]], ps, last, m + 1)
  {
    var r := sectors[NumAt(last, m) := ps[m]];
    forall k {:trigger ps[k]} {:trigger NumAt(last, k)} | 0 <= k < m + 1 ensures r[NumAt(last, k)] == ps[k] {
      var p := ps[k];
    }
  }

  /** What DecodeTrack gets from a header */
  ghost predicate HeaderAs(front: Front, last: nat, s: nat, m: nat, sectorNum: nat, trackNum: nat, beforeGap: bool)
    requires last < NSECTORS && s < NSECTORS && m < NSECTORS
  {
    if Early(front, s, m) then
      && sectorNum == front.format as nat && (beforeGap <==> front.track == 1)
      && (trackNum > NTRACKS <==> m == FirstAt(s) && front.second & 0x50 == 0x50)
    else sectorNum == NumAt(LastRead(last, s), m) < NSECTORS && trackNum <= NTRACKS && (beforeGap <==> Written(s, m) == NSECTORS - 1)
  }

  lemma NumbersWide(info: bv32)
    ensures TrackNum(info) > 160 <==> TrackNum(info) as nat > NTRACKS
  {
  }

  lemma InPlace(front: Front, last: nat, s: nat, m: nat, info: bv32)
    requires last < NSECTORS && s < NSECTORS && m < NSECTORS && !Early(front, s, m)
    requires SectorNum(info) as nat == NumAt(last, Written(s, m)) && TrackNum(info) <= 160 && GapDist(info) == GapAt(Written(s, m))
    ensures HeaderAs(front, last, s, m, SectorNum(info) as nat, TrackNum(info) as nat, GapDist(info) == 1)
  {
    hide Early, SectorNum, TrackNum, GapDist, NumAt, LastRead, GapAt;
    NumbersRead(last, s, m);
    OnlyLastGap(Written(s, m));
    NumbersWide(info);
  }

  lemma TooEarly(front: Front, last: nat, s: nat, m: nat, info: bv32)
    requires last < NSECTORS && s < NSECTORS && m < NSECTORS && Early(front, s, m)
    requires SectorNum(info) == front.format && GapDist(info) == front.track
    requires TrackNum(info) > 160 <==> m == FirstAt(s) && front.second & 0x50 == 0x50
    ensures HeaderAs(front, last, s, m, SectorNum(info) as nat, TrackNum(info) as nat, GapDist(info) == 1)
  {
    hide Early, SectorNum, TrackNum, GapDist;
    NumbersWide(info);
  }

  /** DecodeHeader, and what DecodeTrack wants to know from it */
  method ReadHeader(mem: array<bv16>, sector: nat, ghost base: nat, ghost disk: seq<bv16>, ghost secs: seq<seq<bv32>>, ghost last: nat,
                    ghost front: Front, ghost s: nat, ghost off: nat, ghost m: nat)
      returns (sectorNum: nat, trackNum: nat, beforeGap: bool)
    requires LaidOut(disk, secs, last, front) && ReadIn(mem[..], base, disk, s, off) && off < base && m < NSECTORS
    requires sector == Spot(base, off, s, m, front)
    ensures last < NSECTORS && s < NSECTORS && HeaderAs(front, last, s, m, sectorNum, trackNum, beforeGap)
  {
    hide LaidOut, ReadIn, Place, GapDist, SectorNum, TrackNum, InfoOf, Decode, GapAt, Long, Early, Says, HeaderAs, FirstAt;
    NotBehind(mem[..], base, disk, secs, last, front, s, off);
    if Early(front, s, m) {
      HeaderReadEarly(mem, base, disk, secs, last, front, s, off, m);
    } else {
      HeaderRead(mem, base, disk, secs, last, front, s, off, m);
      SaysAll(disk, secs, last, front, Written(s, m));
    }
    var info := Decode(At(mem, sector + 2 * INFO), At(mem, sector + 2 * INFO + 2));
    if Early(front, s, m) {
      TooEarly(front, last, s, m, info);
    } else {
      InPlace(front, last, s, m, info);
    }
    sectorNum := SectorNum(info) as nat;
    trackNum := TrackNum(info) as nat;
    beforeGap := GapDist(info) == 1;
  }

  lemma SaysAll(disk: seq<bv16>, secs: seq<seq<bv32>>, last: nat, front: Front, i: nat)
    requires LaidOut(disk, secs, last, front) && i < NSECTORS
    ensures |secs| == NSECTORS && |secs[i]| == LONGS && last < NSECTORS && GapDist(InfoOf(secs[i])) == GapAt(i)
    ensures SectorNum(InfoOf(secs[i])) as nat == NumAt(last, i) && TrackNum(InfoOf(secs[i])) <= 160
  {
    hide Marked, InfoOf, GapDist, GapAt, SectorNum, Stored, TrackNum, Format;
    var sec := secs[i];
  }

  /** The sync words that a search behind the `m`th sector ends at */
  lemma NextMarks(words: seq<bv16>, base: nat, disk: seq<bv16>, secs: seq<seq<bv32>>, last: nat, front: Front, s: nat, off: nat, m: nat)
      returns (a: nat, b: nat)
    requires LaidOut(disk, secs, last, front) && ReadIn(words, base, disk, s, off) && off < base && m + 1 < NSECTORS
    requires if Early(front, s, m) then front.track == 1 else Written(s, m) == NSECTORS - 1
    ensures Spot(base, off, s, m, front) + SECTOR <= a < b < |words| && words[b] != 0x4489 && b == Spot(base, off, s, m + 1, front) + 4
    ensures forall i {:trigger words[i]} :: Spot(base, off, s, m, front) + SECTOR <= i < a ==> words[i] != 0x4489
    ensures forall i {:trigger words[i]} :: a <= i < b ==> words[i] == 0x4489
  {
    hide LaidOut, ReadIn;
    NotBehind(words, base, disk, secs, last, front, s, off);
    FirstWritten(s, m);
    FirstWritten(s, m + 1);
    a := Spot(base, off, s, m, front) + SECTOR;
    if Early(front, s, m) {
      AfterEarly(words, base, disk, secs, last, front, s, off, m);
      a, b := a + 3, a + 5;
    } else {
      AfterGap(words, base, disk, secs, last, front, s, off);
      a, b := a + GAP + 2, a + GAP + if front.second == 0x4489 then 4 else 3;
    }
  }

  lemma NextPlace(base: nat, off: nat, s: nat, m: nat, front: Front)
    requires off < base && s < NSECTORS && m + 1 < NSECTORS
    requires !if Early(front, s, m) then front.track == 1 else Written(s, m) == NSECTORS - 1
    ensures Spot(base, off, s, m + 1, front) == Spot(base, off, s, m, front) + SECTOR
  {
    FirstWritten(s, m);
    FirstWritten(s, m + 1);
  }

  /** The sector after the `m`th one */
  method NextSector(mem: array<bv16>, sector: nat, beforeGap: bool, ghost base: nat, ghost disk: seq<bv16>, ghost secs: seq<seq<bv32>>,
                    ghost last: nat, ghost front: Front, ghost s: nat, ghost off: nat, ghost m: nat)
      returns (next: nat)
    requires LaidOut(disk, secs, last, front) && ReadIn(mem[..], base, disk, s, off) && off < base && m + 1 < NSECTORS
    requires sector == Spot(base, off, s, m, front)
    requires beforeGap <==> if Early(front, s, m) then front.track == 1 else Written(s, m) == NSECTORS - 1
    ensures next == Spot(base, off, s, m + 1, front)
  {
    hide LaidOut, ReadIn, Early, Place;
    NotBehind(mem[..], base, disk, secs, last, front, s, off);
    next := sector + SECTOR;
    if beforeGap {
      ghost var a, b := NextMarks(mem[..], base, disk, secs, last, front, s, off, m);
      next := FindSectorHeader(mem, next, a, b);
    } else {
      NextPlace(base, off, s, m, front);
    }
  }

  /** No assertion of DecodeTrack fails. */
  predicate Survives(format: bv32, second: bv16) {
    second == 0x4489 || (format <= 11 && second & 0x50 != 0x50)
  }

  /** The pointer to the sector behind a missing sync word, when `m` sectors have been read: it is what it was, or,
      if the format byte is the number of that sector, one word too low. */
  ghost predicate Missed(before: seq<nat>, sectors: seq<nat>, base: nat, off: nat, last: nat, front: Front, s: nat, m: nat)
    requires off < base && last < NSECTORS
  {
    var n := NumAt(last, 0);
    && |before| == NSECTORS == |sectors| && n < NSECTORS
    && sectors[n] == if m <= FirstAt(s) || front.format as nat != n then before[n]
                     else Spot(base, off, s, if front.track == 1 then FirstAt(s) else m - 1, front)
  }

  /** The first `m` sectors have been read. */
  ghost predicate ReadSo(before: seq<nat>, sectors: seq<nat>, base: nat, off: nat, last: nat, front: Front, s: nat, m: nat)
    requires off < base && last < NSECTORS && s < NSECTORS
  {
    && m <= NSECTORS && |sectors| == NSECTORS && (m > FirstAt(s) ==> Survives(front.format, front.second))
    && if front.second == 0x4489 then Found(sectors, Places(base, off, s), LastRead(last, s), m)
       else Missed(before, sectors, base, off, last, front, s, m)
  }

  /** DecodeTrack, for a track as RealignTrack leaves it, however the disk is turned. `sound` tells whether its
      assertions hold. With all sync words there, every sector is found. With the second one of the first sector
      missing, the header behind it is read one word too early: an assertion fails exactly if the format byte
      is no number of a sector, or the word in place of the sync word makes a track number that is too large;
      and otherwise DecodeTrack returns without having found that sector. */
  method DecodeTrack(mem: array<bv16>, base: nat, sectors: array<nat>, ghost disk: seq<bv16>, ghost secs: seq<seq<bv32>>, ghost last: nat,
                     ghost front: Front, ghost s: nat, ghost off: nat)
      returns (sound: bool)
    requires sectors.Length == NSECTORS && LaidOut(disk, secs, last, front) && ReadIn(mem[..], base, disk, s, off)
    modifies sectors
    ensures last < NSECTORS && s < NSECTORS && off < base && Spread(Places(base, off, s), base)
    ensures sound <==> Survives(front.format, front.second)
    ensures front.second == 0x4489 ==> Rotated(sectors[..], Places(base, off, s), LastRead(last, s))
    ensures front.second != 0x4489 && sound ==> Missed(old(sectors[..]), sectors[..], base, off, last, front, s, NSECTORS)
  {
    hide LaidOut, ReadIn, Spread, Survives, Spot, Place, LastRead, ReadSo, HeaderAs, Missed, Early;
    NotBehind(mem[..], base, disk, secs, last, front, s, off);
    PlacesSpread(base, off, s);
    SpotFirst(mem[..], base, disk, secs, last, front, s, off);
    var data := base;
    if mem[data] == 0x4489 {
      data := data + 1;
    }
    var sector := data - 4;
    var secnum := NSECTORS;
    ghost var before := sectors[..];
    NoneRead(before, base, off, last, front, s);
    while secnum > 0
      invariant 0 <= secnum <= NSECTORS
      invariant secnum > 0 ==> sector == Spot(base, off, s, NSECTORS - secnum, front)
      invariant ReadSo(before, sectors[..], base, off, last, front, s, NSECTORS - secnum)
    {
      ghost var m, was := NSECTORS - secnum, sectors[..];
      var sectorNum, trackNum, beforeGap := ReadHeader(mem, sector, base, disk, secs, last, front, s, off, m);
      OneMore(was, before, base, off, last, front, s, m, sectorNum, trackNum, beforeGap);
      if sectorNum > NSECTORS || trackNum > NTRACKS {
        return false;
      }
      // Behind the pointers are the decoded sectors, and none is decoded now.
      if sectorNum < NSECTORS {
        sectors[sectorNum] := sector;
      }
      assert sectors[..] == if sectorNum < NSECTORS then was[sectorNum := sector] else was;
      if secnum > 1 {
        HeaderGap(front, last, s, m, sectorNum, trackNum, beforeGap);
        sector := NextSector(mem, sector, beforeGap, base, disk, secs, last, front, s, off, m);
      }
      secnum := secnum - 1;
    }
    ReadAll(before, sectors[..], base, off, last, front, s);
    sound := true;
  }

  lemma NoneRead(before: seq<nat>, base: nat, off: nat, last: nat, front: Front, s: nat)
    requires off < base && last < NSECTORS && s < NSECTORS && |before| == NSECTORS
    ensures ReadSo(before, before, base, off, last, front, s, 0)
  {
    NumbersRead(last, s, 0);
    FirstWritten(s, 0);
  }

  lemma ReadAll(before: seq<nat>, sectors: seq<nat>, base: nat, off: nat, last: nat, front: Front, s: nat)
    requires off < base && last < NSECTORS && s < NSECTORS && ReadSo(before, sectors, base, off, last, front, s, NSECTORS)
    ensures Survives(front.format, front.second)
    ensures if front.second == 0x4489 then Rotated(sectors, Places(base, off, s), LastRead(last, s))
            else Missed(before, sectors, base, off, last, front, s, NSECTORS)
  {
    hide Missed, Found;
    FirstWritten(s, 0);
    if front.second == 0x4489 { AllFound(sectors, Places(base, off, s), LastRead(last, s)); }
  }

  lemma HeaderGap(front: Front, last: nat, s: nat, m: nat, sectorNum: nat, trackNum: nat, beforeGap: bool)
    requires last < NSECTORS && s < NSECTORS && m < NSECTORS && HeaderAs(front, last, s, m, sectorNum, trackNum, beforeGap)
    ensures beforeGap <==> if Early(front, s, m) then front.track == 1 else Written(s, m) == NSECTORS - 1
  {
    hide Early, LastRead;
  }

  lemma SpotFirst(words: seq<bv16>, base: nat, disk: seq<bv16>, secs: seq<seq<bv32>>, last: nat, front: Front, s: nat, off: nat)
    requires LaidOut(disk, secs, last, front) && ReadIn(words, base, disk, s, off)
    ensures off < base <= |words| && base < |words| && Spot(base, off, s, 0, front) == if words[base] == 0x4489 then base - 3 else base - 4
  {
    hide LaidOut, ReadIn;
    NotBehind(words, base, disk, secs, last, front, s, off);
  }

  lemma OneMore(was: seq<nat>, before: seq<nat>, base: nat, off: nat, last: nat, front: Front, s: nat, m: nat,
                sectorNum: nat, trackNum: nat, beforeGap: bool)
    requires off < base && last < NSECTORS && s < NSECTORS && m < NSECTORS && ReadSo(before, was, base, off, last, front, s, m)
    requires HeaderAs(front, last, s, m, sectorNum, trackNum, beforeGap)
    ensures sectorNum > NSECTORS || trackNum > NTRACKS ==> !Survives(front.format, front.second) && front.second != 0x4489
    ensures sectorNum <= NSECTORS && trackNum <= NTRACKS ==>
              ReadSo(before, if sectorNum < NSECTORS then was[sectorNum := Spot(base, off, s, m, front)] else was, base, off, last, front, s, m + 1)
  {
    hide Found, Place;
    NumbersRead(last, s, m);
    FirstWritten(s, m);
    if front.second == 0x4489 { FindOne(was, Places(base, off, s), LastRead(last, s), m); }
  }

  /** After that, all pointers are right only by chance: if the one that was left alone happened to be. */
  lemma NotAllFound(before: seq<nat>, sectors: seq<nat>, base: nat, off: nat, last: nat, front: Front, s: nat)
    requires off < base && last < NSECTORS && s < NSECTORS && front.second != 0x4489
    requires Missed(before, sectors, base, off, last, front, s, NSECTORS) && Rotated(sectors, Places(base, off, s), LastRead(last, s))
    ensures FirstAt(s) < NSECTORS && front.format as nat != NumAt(last, 0) && before[NumAt(last, 0)] == Place(base, off, s, FirstAt(s))
  {
    FirstWritten(s, FirstAt(s));
    NumbersRead(last, s, FirstAt(s));
    var p := Places(base, off, s)[FirstAt(s)];
  }

  lemma AllFound(sectors: seq<nat>, ps: seq<nat>, last: nat)
    requires Found(sectors, ps, last, NSECTORS)
    ensures Rotated(sectors, ps, last)
  {
  }
}
