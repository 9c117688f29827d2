/** The track buffer of the driver (drivers/floppy.c) as the codec leaves it (drivers/floppy-mfm.c): what
    its sectors hold after a track was read, after sectors were encoded, and after it was realigned. */
module CachedTracks {
  import opened Mfm
  import opened Sectors
  import opened Headers
  import opened Tracks
  import opened TrackReading
  import opened TrackRewriting
  import opened Payloads

  // --- a track on the disk --------------------------------------------------------------------------

  function SectorsOf(words: seq<bv16>): (r: seq<seq<bv32>>)
    requires |words| == TRACK
    ensures Sized(r)
  {
    SectorsIn(words, Slots(0))
  }

  function LastOf(words: seq<bv16>): (last: nat)
    requires |words| == TRACK
    ensures last < NSECTORS
  {
    Number(SectorsOf(words)[NSECTORS - 1]) % NSECTORS
  }

  /** The bytes that the sectors of a track hold, by the number of the sector */
  function TrackPayload(words: seq<bv16>): (r: seq<seq<Byte>>)
    requires |words| == TRACK
    ensures |r| == NSECTORS && forall n {:trigger r[n]} :: 0 <= n < NSECTORS ==> |r[n]| == SECTOR_SIZE
  {
    seq(NSECTORS, n requires 0 <= n < NSECTORS => PayloadBytes(SectorsOf(words)[PlaceOf(LastOf(words), n)]))
  }

  /** What its headers say, and its second sync word */
  function FrontOn(words: seq<bv16>): Front
    requires |words| == TRACK
  {
    FrontOf(SectorsOf(words))
  }

  /** The track is as RealignTrack leaves it. */
  ghost predicate LaidTrack(words: seq<bv16>) {
    |words| == TRACK && LaidOut(words, SectorsOf(words), LastOf(words), FrontOn(words))
  }

  /** The word in the place of the second sync word of the first sector */
  function SecondOn(words: seq<bv16>): bv16
    requires |words| == TRACK
  {
    words[GAP + 3]
  }

  /** The sectors that a track is made of are those that it holds. */
  lemma LaidTrackOf(words: seq<bv16>, secs: seq<seq<bv32>>, last: nat, front: Front)
    requires LaidOut(words, secs, last, front)
    ensures LaidTrack(words) && secs == SectorsOf(words) && last == LastOf(words) && front == FrontOn(words) && front.second == SecondOn(words)
  {
    hide Number, InfoOf, GapDist, GapAt, SectorIn, Marked, Format, TrackNum;
    StoredOf(words, secs);
    FrontIs(words, secs, last, front);
    SaysNumber(secs[NSECTORS - 1], last, front);
    MarksOnDisk(words, secs, last, front, 0);
  }

  lemma SaysNumber(sec: seq<bv32>, last: nat, front: Front)
    requires Says(sec, last, front, NSECTORS - 1) && last < NSECTORS
    ensures |sec| == LONGS && Number(sec) == last
  {
    hide InfoOf, GapDist, GapAt, Format, TrackNum, SectorNum;
  }

  lemma FormattedOn(words: seq<bv16>)
    requires LaidTrack(words)
    ensures FrontOn(words).second == SecondOn(words)
    ensures SecondOn(words) == 0x4489 <==> Formatted(words, SectorsOf(words), LastOf(words))
  {
    hide LaidOut, FrontOf;
    LaidTrackOf(words, SectorsOf(words), LastOf(words), FrontOn(words));
    FrontIs(words, SectorsOf(words), LastOf(words), FrontOn(words));
  }

  lemma StoredOf(words: seq<bv16>, secs: seq<seq<bv32>>)
    requires |words| == TRACK && Stored(words, Slots(0), secs, 0, NSECTORS) && |secs| == NSECTORS
    ensures secs == SectorsOf(words)
  {
    hide SectorIn;
    var all := SectorsOf(words);
    forall i | 0 <= i < NSECTORS ensures secs[i] == all[i] {
      StoredHere(words, 0, secs, i);
    }
  }

  // --- a track in the buffer ------------------------------------------------------------------------

  /** Some sectors in the order of the memory, up to number `last`, and what they hold */
  ghost predicate Holding(secs: seq<seq<bv32>>, last: nat, payload: seq<seq<Byte>>) {
    && Numbered(secs, last) && |payload| == NSECTORS
    && forall n {:trigger payload[n]} :: 0 <= n < NSECTORS ==> HoldsAt(secs, last, n, payload[n])
  }

  ghost predicate HoldsAt(secs: seq<seq<bv32>>, last: nat, n: nat, bytes: seq<Byte>)
    requires last < NSECTORS && n < NSECTORS
  {
    PlaceOf(last, n) < |secs| && |secs[PlaceOf(last, n)]| == LONGS && PayloadBytes(secs[PlaceOf(last, n)]) == bytes
  }

  /** The buffer at `base` holds these sectors, and the driver has pointers to all of them. */
  ghost predicate Cached(words: seq<bv16>, base: nat, sectors: seq<nat>, ps: seq<nat>, last: nat, payload: seq<seq<Byte>>,
                         front: Front) {
    && 4 < base && base + TRACK <= |words| && Spread(ps, base) && base <= ps[0] + 4 && Rotated(sectors, ps, last)
    && (forall m {:trigger ps[m]} :: 0 <= m < NSECTORS ==> ps[m] + SECTOR <= |words|)
    && Holding(SectorsIn(words, ps), last, payload) && Fronted(SectorsIn(words, ps), front)
  }

  lemma StoredAll(words: seq<bv16>, ps: seq<nat>)
    requires |ps| == NSECTORS && forall m {:trigger ps[m]} :: 0 <= m < NSECTORS ==> ps[m] + SECTOR <= |words|
    ensures Stored(words, ps, SectorsIn(words, ps), 0, NSECTORS) && Sized(SectorsIn(words, ps))
  {
    hide SectorIn;
  }

  lemma AllStored(words: seq<bv16>, ps: seq<nat>, secs: seq<seq<bv32>>)
    requires |ps| == NSECTORS && Stored(words, ps, secs, 0, NSECTORS)
    ensures forall m {:trigger ps[m]} :: 0 <= m < NSECTORS ==> ps[m] + SECTOR <= |words|
    ensures SectorsIn(words, ps) == secs
  {
    hide SectorIn;
    forall m {:trigger ps[m]} | 0 <= m < NSECTORS ensures ps[m] + SECTOR <= |words| && SectorIn(words, ps[m]) == secs[m] {
      var sec := secs[m];
    }
    var all := SectorsIn(words, ps);
    assert forall m :: 0 <= m < NSECTORS ==> all[m] == secs[m];
  }

  // --- reading --------------------------------------------------------------------------------------

  lemma PayloadAt(words: seq<bv16>, n: nat)
    requires |words| == TRACK && n < NSECTORS
    ensures HoldsAt(SectorsOf(words), LastOf(words), n, TrackPayload(words)[n])
  {
    hide PayloadBytes, Number, SectorIn;
    PlaceOfNumber(LastOf(words), n);
  }

  lemma ReadOne(disk: seq<bv16>, secs: seq<seq<bv32>>, last: nat, secs2: seq<seq<bv32>>, s: nat, n: nat)
    requires Formatted(disk, secs, last) && Sized(secs2) && s < NSECTORS && n < NSECTORS
    requires forall m {:trigger secs2[m]} :: 0 <= m < NSECTORS ==> ReadAs(secs[Written(s, m)], secs2[m], m == 0)
    ensures LastRead(last, s) < NSECTORS && HoldsAt(secs2, LastRead(last, s), n, TrackPayload(disk)[n])
  {
    hide ReadAs, PayloadBytes, Number, SectorIn, LaidOut, SamePayload, FrontOf;
    FormattedFront(disk, secs, last);
    LaidTrackOf(disk, secs, last, FrontOf(secs));
    PayloadAt(disk, n);
    NumbersRead(last, s, 0);
    var m := PlaceOf(LastRead(last, s), n);
    PlaceOfNumber(LastRead(last, s), n);
    PlaceOfNumber(last, n);
    NumbersRead(last, s, m);
    assert Written(s, m) == PlaceOf(last, n);
    var sec := secs2[m];
    ReadPayload(secs[Written(s, m)], secs2[m], m == 0);
    SamePayloadBytes(secs[Written(s, m)], secs2[m]);
  }

  /** DecodeTrack: the buffer holds what the track held. It starts behind the first sync word of some
      sector, and lacks that one's second sync word if that was skipped as well. */
  lemma ReadCached(words: seq<bv16>, base: nat, disk: seq<bv16>, s: nat, off: nat, sectors: seq<nat>)
    requires LaidTrack(disk) && SecondOn(disk) == 0x4489 && ReadIn(words, base, disk, s, off) && 0 < off < base && s < NSECTORS
    requires Rotated(sectors, Places(base, off, s), LastRead(LastOf(disk), s)) && Spread(Places(base, off, s), base)
    ensures LastRead(LastOf(disk), s) < NSECTORS
    ensures Cached(words, base, sectors, Places(base, off, s), LastRead(LastOf(disk), s), TrackPayload(disk),
                   FrontOn(disk).(second := if off == 3 then 0x4489 else words[base - 1]))
  {
    hide Formatted, LaidOut, ReadIn, Rotated, Spread, Sized, ReadAs, SectorIn, HoldsAt, Numbered, Place, Fronted, FrontOf;
    var secs, last, ps := SectorsOf(disk), LastOf(disk), Places(base, off, s);
    FormattedOn(disk);
    FirstWords(words, base, disk, secs, last, s, off);
    PlacesFit(words, base, disk, s, off);
    AllRead(words, base, disk, secs, last, s, off);
    var secs2 := SectorsIn(words, ps);
    NumberedRead(secs, secs2, disk, last, s);
    var payload := TrackPayload(disk);
    forall n {:trigger payload[n]} | 0 <= n < NSECTORS ensures HoldsAt(secs2, LastRead(last, s), n, payload[n]) {
      ReadOne(disk, secs, last, secs2, s, n);
    }
    FrontedRead(words, base, disk, secs, last, s, off);
    FirstPlace(base, off, s);
  }

  lemma FirstPlace(base: nat, off: nat, s: nat)
    requires off <= base && off <= 4 && s < NSECTORS
    ensures base <= Places(base, off, s)[0] + 4
  {
  }

  // --- encoding -------------------------------------------------------------------------------------

  /** The payload after the changed sectors were encoded */
  function Changed(payload: seq<seq<Byte>>, dirty: seq<bool>, raws: seq<seq<bv32>>): (r: seq<seq<Byte>>)
    requires |payload| == |dirty| == |raws| == NSECTORS
    ensures |r| == NSECTORS && forall n {:trigger r[n]} :: 0 <= n < NSECTORS ==> r[n] == if dirty[n] then BytesOf(raws[n]) else payload[n]
  {
    seq(NSECTORS, n requires 0 <= n < NSECTORS => if dirty[n] then BytesOf(raws[n]) else payload[n])
  }

  lemma EncodedHolds(last: nat, secs: seq<seq<bv32>>, news: seq<seq<bv32>>, dirty: seq<bool>, raws: seq<seq<bv32>>,
                     payload: seq<seq<Byte>>)
    requires last < NSECTORS && Holding(secs, last, payload) && EncodedUpTo(last, secs, news, dirty, raws, NSECTORS)
    ensures |dirty| == NSECTORS == |raws| && Holding(news, last, Changed(payload, dirty, raws))
  {
    hide EncodedOr, HoldsAt, PayloadBytes, Sealed, Numbered, AllSynced, AllSound;
    NumberedSized(secs, last);
    EncodedAll(last, secs, news, dirty, raws);
    var changed := Changed(payload, dirty, raws);
    forall n {:trigger changed[n]} | 0 <= n < NSECTORS ensures HoldsAt(news, last, n, changed[n]) {
      var d, p := dirty[n], payload[n];
      EncodedHoldsOne(last, secs, news, n, dirty[n], raws[n], payload[n]);
    }
  }

  lemma NumberedSized(secs: seq<seq<bv32>>, last: nat)
    requires Numbered(secs, last)
    ensures Sized(secs) && last < NSECTORS
  {
  }

  lemma EncodedHoldsOne(last: nat, secs: seq<seq<bv32>>, news: seq<seq<bv32>>, n: nat, changed: bool, raw: seq<bv32>, bytes: seq<Byte>)
    requires last < NSECTORS && n < NSECTORS && |secs| == NSECTORS == |news| && HoldsAt(secs, last, n, bytes)
    requires PlaceOf(last, n) < NSECTORS && EncodedOr(secs[PlaceOf(last, n)], news[PlaceOf(last, n)], changed, raw)
    ensures HoldsAt(news, last, n, if changed then BytesOf(raw) else bytes)
  {
    hide Sealed, PayloadBytes;
    if changed { SealedBytes(news[PlaceOf(last, n)], raw); }
  }

  /** The loop that encodes the changed sectors */
  lemma EncodedCached(words: seq<bv16>, after: seq<bv16>, base: nat, sectors: seq<nat>, ps: seq<nat>, last: nat,
                      payload: seq<seq<Byte>>, front: Front, news: seq<seq<bv32>>, dirty: seq<bool>, raws: seq<seq<bv32>>)
    requires Cached(words, base, sectors, ps, last, payload, front) && last < NSECTORS && |after| == |words|
    requires Stored(after, ps, news, 0, NSECTORS) && EncodedUpTo(last, SectorsIn(words, ps), news, dirty, raws, NSECTORS)
    ensures |payload| == NSECTORS == |dirty| == |raws|
    ensures Cached(after, base, sectors, ps, last, Changed(payload, dirty, raws), front) && SectorsIn(after, ps) == news
  {
    hide Spread, Rotated, Stored, Holding, Fronted, EncodedUpTo, SectorIn, Numbered, AllSynced, AllSound;
    Spreads(ps, base);
    AllStored(after, ps, news);
    EncodedHolds(last, SectorsIn(words, ps), news, dirty, raws, payload);
    HoldingSize(SectorsIn(words, ps), last, payload);
    NumberedSized(SectorsIn(words, ps), last);
    EncodedAll(last, SectorsIn(words, ps), news, dirty, raws);
  }

  lemma HoldingSize(secs: seq<seq<bv32>>, last: nat, payload: seq<seq<Byte>>)
    requires Holding(secs, last, payload)
    ensures |payload| == NSECTORS && Numbered(secs, last)
  {
  }

  // --- realigning -----------------------------------------------------------------------------------

  lemma RealignedOne(secs: seq<seq<bv32>>, news: seq<seq<bv32>>, last: nat, n: nat, bytes: seq<Byte>)
    requires AllHeaded(secs, news, NSECTORS) && last < NSECTORS && n < NSECTORS && HoldsAt(secs, last, n, bytes)
    ensures HoldsAt(news, last, n, bytes)
  {
    hide Headed, PayloadBytes, SamePayload, Delivers, Sealed;
    var m := PlaceOf(last, n);
    PlaceOfNumber(last, n);
    var sec, r := secs[m], news[m];
    HeadedDelivers(sec, r, GapAt(m), OneBefore(secs, m), []);
    SamePayloadBytes(sec, r);
  }

  lemma RealignedHolds(secs: seq<seq<bv32>>, news: seq<seq<bv32>>, last: nat, payload: seq<seq<Byte>>)
    requires AllHeaded(secs, news, NSECTORS) && Holding(secs, last, payload)
    ensures Holding(news, last, payload)
  {
    hide Headed, HoldsAt, Number, GapDist, InfoOf;
    forall i {:trigger news[i]} | 0 <= i < NSECTORS ensures Number(news[i]) == NumAt(last, i) {
      var sec := secs[i];
      HeaderAgain(sec, news[i], i, OneBefore(secs, i));
    }
    forall n {:trigger payload[n]} | 0 <= n < NSECTORS ensures HoldsAt(news, last, n, payload[n]) {
      RealignedOne(secs, news, last, n, payload[n]);
    }
  }

  lemma RealignedFronted(secs: seq<seq<bv32>>, news: seq<seq<bv32>>, front: Front)
    requires AllHeaded(secs, news, NSECTORS) && Fronted(secs, front)
    ensures Fronted(news, front)
  {
    hide Headed, Low, InfoOf, Format, TrackNum, Number;
    forall m {:trigger news[m]} | 0 <= m < NSECTORS ensures FrontedAt(news[m], front, m) {
      var sec := secs[m];
      HeaderAgain(sec, news[m], m, OneBefore(secs, m));
      SyncWord(sec, news[m], GapAt(m), OneBefore(secs, m));
      LowOfLong(0x4489, Low(sec[1]));
    }
  }

  /** What realigned sectors hold is what is on the disk when the buffer has been written. */
  lemma WrittenPayload(words: seq<bv16>, news: seq<seq<bv32>>, last: nat, payload: seq<seq<Byte>>)
    requires |words| == TRACK && Stored(words, Slots(0), news, 0, NSECTORS) && Holding(news, last, payload)
    ensures TrackPayload(words) == payload && LastOf(words) == last
  {
    hide HoldsAt, SectorIn, Number;
    StoredOf(words, news);
    assert Number(news[NSECTORS - 1]) == NumAt(last, NSECTORS - 1);
    forall n | 0 <= n < NSECTORS ensures TrackPayload(words)[n] == payload[n] {
      PayloadAt(words, n);
      HoldsOne(news, last, n, TrackPayload(words)[n], payload[n]);
    }
  }

  lemma HoldsOne(secs: seq<seq<bv32>>, last: nat, n: nat, a: seq<Byte>, b: seq<Byte>)
    requires last < NSECTORS && n < NSECTORS && HoldsAt(secs, last, n, a) && HoldsAt(secs, last, n, b)
    ensures a == b
  {
  }

  lemma SlotsInside(words: seq<bv16>, base: nat)
    requires 0 < base && base + TRACK <= |words|
    ensures Spread(Slots(base), base) && base <= Slots(base)[0] + 4
    ensures forall m {:trigger Slots(base)[m]} :: 0 <= m < NSECTORS ==> Slots(base)[m] + SECTOR <= |words|
  {
  }

  /** RealignTrack: the buffer holds the same sectors, and so does the track when it has been written. Its headers
      say the same, and its second sync word is that of the first sector in the buffer. */
  lemma RealignedCached(words: seq<bv16>, after: seq<bv16>, base: nat, sectors: seq<nat>, sectors1: seq<nat>, ps: seq<nat>,
                        last: nat, payload: seq<seq<Byte>>, front: Front, news: seq<seq<bv32>>, one: bool)
    requires Cached(words, base, sectors, ps, last, payload, front) && |after| == |words|
    requires Rotated(sectors1, Slots(base), last) && Stored(after, Slots(base), news, 0, NSECTORS)
    requires AllHeaded(SectorsIn(words, ps), news, NSECTORS) && GapFilled(after, base, Updated(0xAAAA_AAAA, one))
    ensures Cached(after, base, sectors1, Slots(base), last, payload, front)
    ensures var track := after[base..base + TRACK];
            TrackPayload(track) == payload && LaidTrack(track) && FrontOn(track) == front && SecondOn(track) == front.second
  {
    hide Spread, Rotated, Stored, Holding, Fronted, SectorIn, AllHeaded, GapFilled, Updated, LaidOut, Numbered, TrackPayload, FrontOf;
    Spreads(ps, base);
    var secs, track := SectorsIn(words, ps), after[base..base + TRACK];
    HoldingSize(secs, last, payload);
    RealignedHolds(secs, news, last, payload);
    RealignedFronted(secs, news, front);
    RealignedLaidOut(after, base, secs, news, last, front, one);
    SlotsInside(after, base);
    AllStored(after, Slots(base), news);
    StoredSlice(after, base, news);
    WrittenPayload(track, news, last, payload);
    LaidTrackOf(track, news, last, front);
  }

  /** Whoever reads a sector from the buffer gets what it holds. */
  lemma CachedSector(words: seq<bv16>, base: nat, sectors: seq<nat>, ps: seq<nat>, last: nat, payload: seq<seq<Byte>>,
                     front: Front, n: nat)
    requires Cached(words, base, sectors, ps, last, payload, front) && n < NSECTORS
    ensures |payload| == NSECTORS == |sectors| && sectors[n] + SECTOR <= |words|
    ensures PayloadBytes(SectorIn(words, sectors[n])) == payload[n]
  {
    hide Spread, Fronted, SectorIn, Numbered, PayloadBytes;
    HoldingSize(SectorsIn(words, ps), last, payload);
    NumberedSized(SectorsIn(words, ps), last);
    PlaceOfNumber(last, n);
    var m := PlaceOf(last, n);
    var p := ps[m];
    assert sectors[NumAt(last, m)] == ps[m];
    var bytes := payload[n];
  }
}
