/** Tracks that can be read exist, whatever they are to hold: from any memory, the encoder and RealignTrack of
    drivers/floppy-mfm.c make one. No routine of the repository formats a disk; this is only a witness. */
module TrackFormatting {
  import opened Mfm
  import opened Sectors
  import opened Headers
  import opened Tracks
  import opened TrackReading
  import opened TrackRewriting

  /** A header */
  function HeaderInfo(format: bv32, track: bv32, number: bv32): bv32 { (format << 24) | (track << 16) | (number << 8) }

  lemma InfoBack(format: bv32, track: bv32, number: bv32)
    requires format <= 255 && track <= 160 && number <= 10
    ensures var info := HeaderInfo(format, track, number); Format(info) == format && TrackNum(info) == track && SectorNum(info) == number
  {
  }

  lemma NumberBack(n: nat)
    requires n < NSECTORS
    ensures n as bv32 <= 10 && (n as bv32) as nat == n
  {
    if n == 0 {} else if n == 1 {} else if n == 2 {} else if n == 3 {} else if n == 4 {} else if n == 5 {}
    else if n == 6 {} else if n == 7 {} else if n == 8 {} else if n == 9 {}
  }

  /** A sector with its header, its second sync word and its data */
  ghost predicate Made(sec: seq<bv32>, front: Front, n: nat, raw: seq<bv32>) {
    Sealed(sec, raw) && HasInfo(sec, front, n) && Low(sec[1]) == 0x4489
  }

  predicate HasInfo(sec: seq<bv32>, front: Front, n: nat) {
    |sec| == LONGS && Number(sec) == n && Format(InfoOf(sec)) == front.format && TrackNum(InfoOf(sec)) == front.track
  }

  lemma LowPut(words: seq<bv16>)
    requires |words| >= 4
    ensures Longs(words[3 := 0x4489]) == Longs(words)[1 := Long(words[2], 0x4489)]
  {
    hide Long;
  }

  method SecondSync(mem: array<bv16>, p: nat)
    requires p + SECTOR <= mem.Length
    modifies mem
    ensures Sector(mem, p) == old(Sector(mem, p))[1 := Long(old(mem[p + 2]), 0x4489)] && Same(old(mem[..]), mem[..], p, p + SECTOR)
  {
    hide Long, Longs;
    LowPut(mem[p..p + SECTOR]);
    mem[p + 3] := 0x4489;
    assert mem[p..p + SECTOR] == old(mem[p..p + SECTOR])[3 := 0x4489];
  }

  lemma SealedFront(before: seq<bv16>, after: seq<bv16>, p: nat, raw: seq<bv32>, front: Front, n: nat)
    requires p + SECTOR <= |before| && Same(before, after, p + 2 * CHECKSUM, p + SECTOR) && Sealed(SectorIn(after, p), raw)
    requires HasInfo(SectorIn(before, p), front, n) && Low(SectorIn(before, p)[1]) == 0x4489
    ensures Made(SectorIn(after, p), front, n, raw)
  {
    hide Sealed, Long, Low, SectorNum, Format, TrackNum, Decode, Longs, SectorIn;
    EncodedSector(before, after, p, raw);
    var s, r := SectorIn(before, p), SectorIn(after, p);
    assert r[..CHECKSUM][1] == r[1] && r[..CHECKSUM][INFO] == r[INFO] && r[..CHECKSUM][INFO + 1] == r[INFO + 1];
    assert s[..CHECKSUM][1] == s[1] && s[..CHECKSUM][INFO] == s[INFO] && s[..CHECKSUM][INFO + 1] == s[INFO + 1];
  }

  /** One sector, wherever it is */
  method MakeSector(mem: array<bv16>, p: nat, front: Front, n: nat, data: array<bv32>)
    requires p + SECTOR <= mem.Length && n < NSECTORS && data.Length == RAW && front.format <= 255 && front.track <= 160
    modifies mem
    ensures Made(SectorIn(mem[..], p), front, n, data[..]) && Same(old(mem[..]), mem[..], p, p + SECTOR)
  {
    hide Sealed, Long, Low, SectorNum, Format, TrackNum, Decode, Encode, Half, Last, Longs, Sector, SectorIn, HeaderInfo;
    ghost var words0 := mem[..];
    LowIs(mem[p + 2]);
    SecondSync(mem, p);
    NumberBack(n);
    var info := HeaderInfo(front.format, front.track, n as bv32);
    EncodeLongWord(mem, p, INFO, info);
    RoundTrip(info, Last(Sector(mem, p)[1]), Last(Half(info)));
    InfoBack(front.format, front.track, n as bv32);
    ghost var words := mem[..];
    SectorIs(mem, p);
    EncodeSector(data, mem, p);
    SectorIs(mem, p);
    SealedFront(words, mem[..], p, data[..], front, n);
  }

  lemma LowIs(high: bv16)
    ensures Low(Long(high, 0x4489)) == 0x4489
  {
    LowOfLong(high, 0x4489);
  }

  ghost predicate AllMade(secs: seq<seq<bv32>>, front: Front, n: nat, raws: seq<seq<bv32>>) {
    n <= |secs| && n <= |raws| && forall i {:trigger secs[i]} :: 0 <= i < n ==> Made(secs[i], front, i, raws[i])
  }

  /** A track with any format byte and track number in its headers, and any data in its sectors */
  method FormatTrack(mem: array<bv16>, base: nat, front: Front, data: seq<array<bv32>>) returns (verified: bool, ghost news: seq<seq<bv32>>)
    requires 4 < base && base + TRACK <= mem.Length && |data| == NSECTORS && forall n {:trigger data[n]} :: 0 <= n < NSECTORS ==> data[n].Length == RAW
    requires front.format <= 255 && front.track <= 160 && front.second == 0x4489
    modifies mem
    ensures verified && LaidOut(mem[base..base + TRACK], news, NSECTORS - 1, front)
    ensures Formatted(mem[base..base + TRACK], news, NSECTORS - 1) && AllSound(news) && |news| == NSECTORS
    ensures forall i {:trigger news[i]} :: 0 <= i < NSECTORS ==> Delivers(news[i], Contents(data)[i])
  {
    hide Stored, Made, Formatted, LaidOut, AllHeaded, GapFilled, SectorIn, AllSound, AllSynced, Updated, Fronted, Same, Delivers;
    ghost var raws, secs: seq<seq<bv32>> := Contents(data), [];
    var sectors := new nat[NSECTORS](_ => 0);
    var i := 0;
    while i < NSECTORS
      invariant i <= NSECTORS && |secs| == i && Contents(data) == raws && AllMade(secs, front, i, raws)
      invariant forall k {:trigger secs[k]} :: 0 <= k < i ==> SectorIn(mem[..], Slot(base, k)) == secs[k]
      invariant forall k {:trigger sectors[k]} :: 0 <= k < i ==> sectors[k] == Slot(base, k)
    {
      ghost var words := mem[..];
      MakeSector(mem, Slot(base, i), front, i, data[i]);
      assert raws[i] == data[i][..];
      forall k | 0 <= k < i ensures SectorIn(mem[..], Slot(base, k)) == SectorIn(words, Slot(base, k)) {
        SectorSame(words, mem[..], Slot(base, k), Slot(base, i), Slot(base, i) + SECTOR);
      }
      sectors[i] := Slot(base, i);
      secs := secs + [SectorIn(mem[..], Slot(base, i))];
      i := i + 1;
    }
    MadeReady(mem[..], base, secs, sectors[..], front, raws);
    MadeFronted(secs, front, raws);
    verified, news := RealignTrack(mem, base, sectors, Slots(base), NSECTORS - 1, secs);
    SizedEnd(secs, news);
    SoundAgain(secs, news);
    RealignedLaidOut(mem[..], base, secs, news, NSECTORS - 1, front, Last(news[NSECTORS - 1][LONGS - 1]));
    FrontIs(mem[..][base..base + TRACK], news, NSECTORS - 1, front);
    assert mem[..][base..base + TRACK] == mem[base..base + TRACK];
    AllDelivered(secs, news, front, raws);
  }

  lemma MadeReady(words: seq<bv16>, base: nat, secs: seq<seq<bv32>>, sectors: seq<nat>, front: Front, raws: seq<seq<bv32>>)
    requires 4 < base && base + TRACK <= |words| && |secs| == NSECTORS == |sectors| && AllMade(secs, front, NSECTORS, raws)
    requires forall k {:trigger secs[k]} :: 0 <= k < NSECTORS ==> SectorIn(words, Slot(base, k)) == secs[k]
    requires forall k {:trigger sectors[k]} :: 0 <= k < NSECTORS ==> sectors[k] == Slot(base, k)
    ensures Sized(secs) && Stored(words, Slots(base), secs, 0, NSECTORS) && Spread(Slots(base), base) && Rotated(sectors, Slots(base), NSECTORS - 1)
    ensures Numbered(secs, NSECTORS - 1) && AllSound(secs)
  {
    hide Sealed, Sound, SectorIn, Low, InfoOf, Number, Format, TrackNum;
    forall k {:trigger secs[k]} | 0 <= k < NSECTORS ensures Made(secs[k], front, k, raws[k]) && Sound(secs[k]) {
      SealedSound(secs[k], raws[k]);
    }
  }

  lemma MadeFronted(secs: seq<seq<bv32>>, front: Front, raws: seq<seq<bv32>>)
    requires |secs| == NSECTORS && AllMade(secs, front, NSECTORS, raws) && front.track <= 160 && front.second == 0x4489
    ensures Fronted(secs, front) && AllSynced(secs)
  {
    hide Sealed, Low, InfoOf, Format, TrackNum, SectorNum;
    forall k {:trigger secs[k]} | 0 <= k < NSECTORS ensures FrontedAt(secs[k], front, k) {
      assert Made(secs[k], front, k, raws[k]);
      SealedEnd(secs[k], raws[k]);
    }
    FrontedSynced(secs, front);
  }

  lemma AllDelivered(secs: seq<seq<bv32>>, news: seq<seq<bv32>>, front: Front, raws: seq<seq<bv32>>)
    requires AllHeaded(secs, news, NSECTORS) && AllMade(secs, front, NSECTORS, raws)
    ensures forall i {:trigger news[i]} :: 0 <= i < NSECTORS ==> Delivers(news[i], raws[i])
  {
    hide Headed, Delivers, Sealed, HasInfo, Low, OneBefore, GapAt;
    forall i {:trigger news[i]} | 0 <= i < NSECTORS ensures Delivers(news[i], raws[i]) {
      var sec := secs[i];
      HeadedDelivers(secs[i], news[i], GapAt(i), OneBefore(secs, i), raws[i]);
    }
  }
}
