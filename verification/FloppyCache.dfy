/** The floppy driver (drivers/floppy.c): one track is kept in memory as it was read, sectors are decoded
    when they are used, and encoded again before the track is realigned and written back. */
module FloppyCache {
  import opened Mfm
  import opened Sectors
  import opened Tracks
  import opened TrackReading
  import opened TrackRewriting
  import opened Payloads
  import opened CachedTracks
  import opened FloppyDisk
  import opened FloppySpec
  import opened FloppyRequests

  predicate DiskShape(disk: seq<seq<bv16>>) {
    |disk| == NTRACKS && forall t {:trigger disk[t]} :: 0 <= t < NTRACKS ==> |disk[t]| == TRACK
  }

  /** Every track of the disk is as RealignTrack leaves it, with its format byte. */
  ghost predicate Usable(disk: seq<seq<bv16>>, setting: Setting) {
    DiskShape(disk) && forall t {:trigger disk[t]} :: 0 <= t < NTRACKS ==> Stamped(disk[t], setting.formats(t))
  }

  ghost predicate Stamped(words: seq<bv16>, format: bv32) {
    LaidTrack(words) && FrontOn(words).format == format
  }

  /** The bytes that the sectors on the disk hold */
  function Decoded(disk: seq<seq<bv16>>): (r: Surface)
    requires DiskShape(disk)
    ensures Shape(r) && forall t {:trigger r[t]} :: 0 <= t < NTRACKS ==> r[t] == TrackPayload(disk[t])
  {
    seq(NTRACKS, t requires 0 <= t < NTRACKS => TrackPayload(disk[t]))
  }

  /** What is in place of the second sync word of the first sector of each track */
  function Seconds(disk: seq<seq<bv16>>): (r: seq<bv16>)
    requires DiskShape(disk)
    ensures |r| == NTRACKS && forall t {:trigger r[t]} :: 0 <= t < NTRACKS ==> r[t] == SecondOn(disk[t])
  {
    seq(NTRACKS, t requires 0 <= t < NTRACKS => SecondOn(disk[t]))
  }

  function RawBytes(raws: seq<seq<bv32>>): (r: seq<seq<Byte>>)
    ensures |r| == |raws| && forall n {:trigger r[n]} :: 0 <= n < |r| ==> r[n] == BytesOf(raws[n])
  {
    seq(|raws|, n requires 0 <= n < |raws| => BytesOf(raws[n]))
  }

  ghost predicate Buffers(raws: seq<array<bv32>>) {
    && |raws| == NSECTORS && (forall n {:trigger raws[n]} :: 0 <= n < NSECTORS ==> raws[n].Length == RAW)
    && forall n, m {:trigger raws[n], raws[m]} :: 0 <= n < m < NSECTORS ==> raws[n] != raws[m]
  }

  /** What is decoded comes from the track in the buffer, but for what was changed since. */
  ghost predicate Fresh(payload: seq<seq<Byte>>, raw: seq<seq<Byte>>, decoded: seq<bool>, dirty: seq<bool>) {
    && |payload| == NSECTORS == |raw| == |decoded| == |dirty|
    && forall i {:trigger decoded[i]} {:trigger dirty[i]} {:trigger raw[i]} :: 0 <= i < NSECTORS ==>
         (dirty[i] ==> decoded[i]) && (decoded[i] && !dirty[i] ==> raw[i] == payload[i])
  }

  ghost predicate Clear(flags: seq<bool>) {
    |flags| == NSECTORS && forall i {:trigger flags[i]} :: 0 <= i < NSECTORS ==> !flags[i]
  }

  class Floppy {
    /** the drive: what is on the disk, how often a track was read, and where the heads are */
    const setting: Setting
    var disk: seq<seq<bv16>>
    var readings: nat
    var cylinder: nat
    var upper: bool

    /** the track in the buffer or -1, its sectors, and what they decode to */
    const mem: array<bv16>
    const base: nat
    var track: int
    const sectors: array<nat>
    const raws: seq<array<bv32>>
    const decoded: array<bool>
    const dirty: array<bool>
    var headDir: int
    var headTrk: int

    /** where the sectors are in the order of the memory, the number of the last one, and what their fronts say */
    ghost var ps: seq<nat>
    ghost var last: nat
    ghost var front: Front

    ghost predicate Formed()
      reads this
    {
      && Buffers(raws) && sectors.Length == NSECTORS == decoded.Length == dirty.Length && decoded != dirty
      && 4 < base && base + TRACK <= mem.Length && DiskShape(disk) && -1 <= track < NTRACKS
    }

    /** The driver knows where the heads are. */
    ghost predicate Positioned()
      reads this
    {
      headTrk == 2 * cylinder + (if upper then 1 else 0) && headTrk < NTRACKS
    }

    /** What is in memory comes from the disk, but for what was changed since. */
    ghost predicate Backed()
      requires Formed()
      reads this, mem, sectors, raws, decoded, dirty
    {
      if track == -1 then Clear(decoded[..]) && Clear(dirty[..])
      else
        && Cached(mem[..], base, sectors[..], ps, last, Decoded(disk)[track], front) && front.format == setting.formats(track)
        && Fresh(Decoded(disk)[track], RawBytes(Contents(raws)), decoded[..], dirty[..])
    }

    ghost predicate Valid()
      reads this, mem, sectors, raws, decoded, dirty
    {
      Formed() && Positioned() && Backed() && Usable(disk, setting) && mem[base - 1] == setting.before
    }

    /** No sector waits to be written. */
    ghost predicate Coherent()
      reads dirty
    {
      Clear(dirty[..])
    }

    /** The disk as it is seen through the cache */
    ghost function View(): (r: seq<Byte>)
      requires Formed()
      reads this, raws, dirty
      ensures |r| == FLOPPY_SIZE
    {
      RawShape(raws);
      Bytes(Decoded(disk), track, RawBytes(Contents(raws)), dirty[..])
    }

    ghost function State(): Picture
      requires Formed()
      reads this, raws, dirty
    {
      Picture(OnDisk(Decoded(disk)), View(), track, front.second, Seconds(disk), readings)
    }

    /** FloppyAttach and FloppyHeadToTrack0, with the heads anywhere and a buffer in chip memory */
    constructor (setting: Setting, disk: seq<seq<bv16>>, cylinder: nat, upper: bool, mem: array<bv16>, base: nat)
      requires Usable(disk, setting) && 4 < base && base + TRACK <= mem.Length && mem[base - 1] == setting.before
      ensures Valid() && Coherent() && this.setting == setting && this.disk == disk && headTrk == 0 && this.mem == mem
      ensures State() == Picture(OnDisk(Decoded(disk)), OnDisk(Decoded(disk)), -1, 0, Seconds(disk), 0)
      ensures fresh(sectors) && fresh(decoded) && fresh(dirty) && forall a :: a in raws ==> fresh(a)
    {
      this.setting, this.disk, this.cylinder, this.upper, this.mem, this.base := setting, disk, cylinder, upper, mem, base;
      readings, track, headDir, headTrk := 0, -1, 0, 0;
      ps, last, front := [], 0, Front(0, 0, 0);
      sectors := new nat[NSECTORS](_ => 0);
      decoded, dirty := new bool[NSECTORS](_ => false), new bool[NSECTORS](_ => false);
      var all := NewBuffers();
      raws := all;
      new;
      HeadToTrack0();
      RawShape(raws);
      SeenOnDisk(Decoded(disk), track, RawBytes(Contents(raws)), dirty[..]);
    }

    // --- the heads ---------------------------------------------------------------------------------

    method StepHeads()
      requires headDir == 2 || (headDir == -2 && cylinder > 0)
      modifies `cylinder, `headTrk
      ensures cylinder == old(cylinder) + headDir / 2 && headTrk == old(headTrk) + headDir
    {
      cylinder := cylinder + headDir / 2;
      headTrk := headTrk + headDir;
    }

    method HeadsStepDirection(inwards: bool)
      modifies `headDir
      ensures headDir == if inwards then 2 else -2
    {
      headDir := if inwards then 2 else -2;
    }

    method ChangeDiskSide(toUpper: bool)
      modifies `upper, `headTrk
      ensures upper == toUpper && headTrk == old(headTrk) + if toUpper then 1 else -1
    {
      upper := toUpper;
      headTrk := headTrk + if toUpper then 1 else -1;
    }

    /** FloppyHeadToTrack0 */
    method HeadToTrack0()
      modifies `cylinder, `upper, `headTrk, `headDir
      ensures Positioned() && headTrk == 0 && headDir == 2
    {
      HeadsStepDirection(false);
      while cylinder != 0
        invariant headDir == -2
        decreases cylinder
      {
        StepHeads();
      }
      HeadsStepDirection(true);
      ChangeDiskSide(false);
      headTrk := 0;
    }

    /** The part of FloppyReadWriteTrack that moves the heads: they get to the track, and never leave the disk. */
    method Seek(t: nat)
      requires Positioned() && t < NTRACKS
      modifies `cylinder, `upper, `headTrk, `headDir
      ensures Positioned() && headTrk == t
      ensures headDir == if t / 2 == old(headTrk) / 2 then old(headDir) else if t > old(headTrk) then 2 else -2
    {
      if t % 2 != headTrk % 2 {
        ChangeDiskSide(t % 2 == 1);
      }
      if t != headTrk {
        HeadsStepDirection(t > headTrk);
        StepTo(t);
      }
    }

    /** Step until the heads are over a track on the same side. */
    method StepTo(t: nat)
      requires Positioned() && t < NTRACKS && upper == (t % 2 == 1) && headDir == if t > headTrk then 2 else -2
      modifies `cylinder, `headTrk
      ensures Positioned() && headTrk == t
    {
      while t != headTrk
        invariant Positioned() && (t == headTrk || headDir == if t > headTrk then 2 else -2)
        decreases if t > headTrk then t - headTrk else headTrk - t
      {
        StepHeads();
      }
    }

    // --- tracks ------------------------------------------------------------------------------------

    /** The disk turns under the heads, and one track of words is stored behind a sync word. */
    method Transfer(words: seq<bv16>, s: nat, off: nat)
      requires |words| == TRACK && s < NSECTORS && (off == 3 || off == 4) && 4 < base && base + TRACK <= mem.Length
      requires words[Slot(0, s) + off - 1] == 0x4489
      modifies mem
      ensures ReadIn(mem[..], base, words, s, off) && mem[base - 1] == old(mem[base - 1])
    {
      forall i | base <= i < base + TRACK {
        mem[i] := words[Wrap(Slot(0, s) + off + i - base)];
      }
    }

    /** No sector is decoded. */
    method ClearState()
      requires decoded.Length == NSECTORS == dirty.Length && decoded != dirty
      modifies decoded, dirty
      ensures Clear(decoded[..]) && Clear(dirty[..])
    {
      forall i | 0 <= i < NSECTORS {
        decoded[i] := false;
      }
      forall i | 0 <= i < NSECTORS {
        dirty[i] := false;
      }
    }

    /** The sectors of the track that was stored are found, if its sync words are all there. */
    method FindSectors(ghost words: seq<bv16>, ghost s: nat, ghost off: nat) returns (sound: bool)
      requires LaidTrack(words) && ReadIn(mem[..], base, words, s, off) && sectors.Length == NSECTORS
      modifies `ps, `last, `front, sectors
      ensures 0 < base <= mem.Length && front == FrontOn(words).(second := if off == 3 then 0x4489 else mem[base - 1])
      ensures SecondOn(words) == 0x4489 ==> Cached(mem[..], base, sectors[..], ps, last, TrackPayload(words), front)
      ensures sound <==> Survives(FrontOn(words).format, SecondOn(words))
      ensures SecondOn(words) != 0x4489 && sound ==>
                off < base && Missed(old(sectors[..]), sectors[..], base, off, LastOf(words), FrontOn(words), s, NSECTORS)
    {
      hide Cached, LaidOut, TrackPayload, Rotated, Spread, ReadIn, Place, Missed, FrontOf, Survives;
      ghost var words0 := mem[..];
      FormattedOn(words);
      NotBehind(mem[..], base, words, SectorsOf(words), LastOf(words), FrontOn(words), s, off);
      sound := DecodeTrack(mem, base, sectors, words, SectorsOf(words), LastOf(words), FrontOn(words), s, off);
      assert mem[..] == words0;
      ps, last, front := Places(base, off, s), LastRead(LastOf(words), s), FrontOn(words).(second := if off == 3 then 0x4489 else mem[base - 1]);
      if SecondOn(words) == 0x4489 {
        ReadCached(mem[..], base, words, s, off, sectors[..]);
      }
    }

    /** The track under the heads is stored, wherever the disk happens to be. A sync word that is not there cannot
        be skipped. */
    method Rotate(t: nat) returns (ghost words: seq<bv16>, ghost s: nat, ghost off: nat)
      requires Formed() && Positioned() && headTrk == t && LaidTrack(disk[t])
      modifies mem
      ensures words == disk[t] && ReadIn(mem[..], base, words, s, off) && mem[base - 1] == old(mem[base - 1])
      ensures SecondOn(words) == 0x4489 ==> setting.Second(readings) == if off == 3 then 0x4489 else setting.before
    {
      hide LaidTrack, ReadIn;
      var spin := setting.spins(readings);
      var sector, track := spin.sector % NSECTORS, disk[2 * cylinder + (if upper then 1 else 0)];
      SyncWords(track, sector);
      var from := if spin.skipped && track[Slot(0, sector) + 3] == 0x4489 then 4 else 3;
      Transfer(track, sector, from);
      words, s, off := track, sector, from;
    }

    /** FloppyReadWriteTrack, reading: another track is in memory, and none of it decoded yet. `sound` tells whether
        the assertions of DecodeTrack hold. If the track lacks a sync word, its sectors are not all found. */
    method ReadTrack(t: nat) returns (sound: bool)
      requires Valid() && t < NTRACKS && track != t
      modifies `readings, `track, `cylinder, `upper, `headTrk, `headDir, `ps, `last, `front, mem, sectors, decoded, dirty
      ensures Formed() && Coherent() && headTrk == t && |disk[t]| == TRACK
      ensures State() == Loaded(setting, old(State()), t)
      ensures sound <==> Survives(setting.formats(t), SecondOn(disk[t]))
      ensures SecondOn(disk[t]) == 0x4489 ==> Valid()
    {
      hide Cached, LaidTrack, TrackPayload, Fresh, ReadIn, Clear, Bytes, OnDisk, Buffers, Survives, FrontOn, SecondOn, Missed, LastOf;
      Seek(t);
      ghost var words, s, off := Rotate(t);
      ghost var words0 := mem[..];
      ClearState();
      assert mem[..] == words0;
      sound := FindSectors(words, s, off);
      assert mem[..] == words0;
      front := front.(second := setting.Second(readings));
      readings, track := readings + 1, t;
      BuffersSized(raws);
      NothingFresh(Decoded(disk)[track], RawBytes(Contents(raws)), decoded[..], dirty[..]);
      ClearView();
    }

    lemma SyncWords(words: seq<bv16>, s: nat)
      requires LaidTrack(words) && s < NSECTORS
      ensures |words| == TRACK && words[Slot(0, s) + 2] == 0x4489 && (SecondOn(words) == 0x4489 ==> words[Slot(0, s) + 3] == 0x4489)
    {
      hide LaidOut, FrontOf;
      FormattedOn(words);
      MarksOnDisk(words, SectorsOf(words), LastOf(words), FrontOn(words), s);
    }

    lemma ClearView()
      requires Formed() && Clear(dirty[..])
      ensures View() == OnDisk(Decoded(disk))
    {
      RawShape(raws);
      SeenOnDisk(Decoded(disk), track, RawBytes(Contents(raws)), dirty[..]);
    }

    /** The changed sectors are encoded, and the track is made ready to be written. */
    method Prepare()
      requires Valid() && track >= 0
      modifies `ps, mem, sectors, dirty
      ensures Clear(dirty[..]) && mem[base - 1] == old(mem[base - 1]) && Contents(raws) == old(Contents(raws))
      ensures var payload := Changed(Decoded(disk)[track], old(dirty[..]), Contents(raws));
              && Cached(mem[..], base, sectors[..], ps, last, payload, front) && |mem[base..base + TRACK]| == TRACK
              && TrackPayload(mem[base..base + TRACK]) == payload
              && Stamped(mem[base..base + TRACK], front.format) && SecondOn(mem[base..base + TRACK]) == front.second
    {
      hide Cached, LaidTrack, TrackPayload, Fresh, Rotated, Spread, Stored, AllHeaded, GapFilled, EncodedUpTo,
        SectorIn, Updated, Same, Buffers, Usable;
      ghost var words0, payload0, dirty0, sectors0, raw := mem[..], Decoded(disk)[track], dirty[..], sectors[..], Contents(raws);
      BuffersSized(raws);
      CachedParts(words0, base, sectors0, ps, last, payload0, front);
      ghost var news := EncodeDirty(mem, sectors, raws, dirty, base, ps, last, SectorsIn(mem[..], ps));
      assert sectors[..] == sectors0 && Contents(raws) == raw;
      ghost var words1, payload := mem[..], Changed(payload0, dirty0, raw);
      SameBefore(words0, words1, base);
      EncodedCached(words0, words1, base, sectors0, ps, last, payload0, front, news, dirty0, raw);
      CachedParts(words1, base, sectors0, ps, last, payload, front);
      ghost var verified, news1 := RealignTrack(mem, base, sectors, ps, last, news);
      SizedEnd(news, news1);
      SameBefore(words1, mem[..], base);
      RealignedCached(words1, mem[..], base, sectors0, sectors[..], ps, last, payload, front, news1, Last(news1[NSECTORS - 1][LONGS - 1]));
      ps := Slots(base);
      assert mem[..][base..base + TRACK] == mem[base..base + TRACK];
    }

    /** FloppyReadWriteTrack, writing. A disk that must not be written stays as it is, and so does the cache. */
    method WriteTrack(t: nat) returns (error: Error)
      requires Valid() && track == t
      modifies `disk, `cylinder, `upper, `headTrk, `headDir, `ps, mem, sectors, dirty
      ensures Valid() && State() == WrittenBack(setting, old(State()))
      ensures error == if setting.writeProtected then ReadOnly else Ok
      ensures if setting.writeProtected then disk == old(disk) && dirty[..] == old(dirty[..])
              else Coherent() && headTrk == t && forall u {:trigger disk[u]} :: 0 <= u < NTRACKS && u != t ==> disk[u] == old(disk)[u]
    {
      hide Cached, Stamped, TrackPayload, Fresh, Clear, Bytes, OnDisk, Buffers;
      if setting.writeProtected {
        return ReadOnly;
      }
      ghost var disk0, dirty0, raw, decoded0 := disk, dirty[..], Contents(raws), decoded[..];
      Prepare();
      ghost var words := mem[..];
      Seek(t);
      assert Contents(raws) == raw;
      disk := disk[2 * cylinder + (if upper then 1 else 0) := mem[base..base + TRACK]];
      assert mem[..] == words && Contents(raws) == raw && decoded[..] == decoded0;
      BuffersSized(raws);
      FreshWritten(Decoded(disk0)[track], raw, decoded0, dirty0, dirty[..]);
      RawShape(raws);
      WrittenSeen(disk0, disk, track, raw, dirty0, dirty[..]);
      ClearView();
      error := Ok;
    }

    // --- requests ----------------------------------------------------------------------------------

    /** The track is in memory, unless it lacks a sync word. */
    method Fill(t: nat) returns (outcome: Outcome)
      requires Valid() && t < NTRACKS
      modifies `readings, `track, `cylinder, `upper, `headTrk, `headDir, `ps, `last, `front, mem, sectors, decoded, dirty
      ensures Formed() && old(Formed()) && |old(State()).seconds| == NTRACKS && State() == Loaded(setting, old(State()), t) && State().track == t == track
      ensures if CanLoad(old(State()), t) then outcome == Done && Valid() else outcome == Missing(setting, old(State()), t)
      ensures outcome != PastEnd && (outcome == Done <==> CanLoad(old(State()), t))
      ensures old(Coherent()) ==> Coherent()
    {
      hide Valid, Coherent, Stamped, OnDisk, Bytes;
      FormedNow();
      if track != t {
        var sound := ReadTrack(t);
        if !sound {
          return Panic;
        }
        if SecondOn(disk[t]) != 0x4489 {
          return Misread;
        }
      }
      outcome := Done;
    }

    /** The sector is decoded. */
    method Load(i: nat)
      requires Valid() && track >= 0 && i < NSECTORS
      modifies raws, decoded
      ensures Valid() && decoded[i] && State() == old(State())
    {
      hide Cached, Stamped, TrackPayload, Clear, Bytes, OnDisk;
      if !decoded[i] {
        DecodeOne(i);
      }
    }

    /** A sector is decoded: that does not change what is seen. */
    method DecodeOne(i: nat)
      requires Valid() && track >= 0 && i < NSECTORS && !decoded[i]
      modifies raws, decoded
      ensures Valid() && decoded[i] && State() == old(State())
    {
      hide Cached, Stamped, TrackPayload, Bytes, OnDisk, Carries, Sector, SectorIn, BytesOf;
      ghost var raw, decoded0, payload := Contents(raws), decoded[..], Decoded(disk)[track];
      CachedSector(mem[..], base, sectors[..], ps, last, payload, front, i);
      RawShape(raws);
      var sound := DecodeSector(mem, sectors[i], raws[i]);
      decoded[i] := true;
      SectorIs(mem, sectors[i]);
      PayloadIs(SectorIn(mem[..], sectors[i]), raws[i][..]);
      assert Contents(raws) == raw[i := raws[i][..]];
      assert decoded[..] == decoded0[i := true];
      RawShape(raws);
      FreshDecoded(payload, raw, decoded0, dirty[..], i, raws[i][..]);
      SeenSame(Decoded(disk), track, RawBytes(raw), dirty[..], RawBytes(Contents(raws)), dirty[..]);
    }

    /** The bytes of a loaded sector are read. */
    method Fetch(t: nat, i: nat, o: nat, n: nat) returns (data: seq<Byte>)
      requires Valid() && track == t && t < NTRACKS && i < NSECTORS && decoded[i] && o + n <= SECTOR_SIZE
      ensures Address(t, i, o) + n <= FLOPPY_SIZE && data == View()[Address(t, i, o)..Address(t, i, o) + n]
    {
      hide Cached, Stamped, TrackPayload, Bytes, OnDisk, BytesOf;
      RawShape(raws);
      FloppyDisk.SectorBytes(Decoded(disk), track, RawBytes(Contents(raws)), dirty[..], t, i, o, n);
      data := CopyOut(raws[i], o, n);
      assert RawBytes(Contents(raws))[i] == BytesOf(raws[i][..]);
      assert Seen(Decoded(disk), track, RawBytes(Contents(raws)), dirty[..], t, i) == RawBytes(Contents(raws))[i];
    }

    /** Or overwritten. */
    method Store(t: nat, i: nat, o: nat, data: seq<Byte>)
      requires Valid() && track == t && t < NTRACKS && i < NSECTORS && decoded[i] && o + |data| <= SECTOR_SIZE
      modifies raws, dirty
      ensures Valid() && Address(t, i, o) + |data| <= FLOPPY_SIZE
      ensures State() == Overlaying(old(State()), Address(t, i, o), data)
    {
      hide Cached, Stamped, TrackPayload, Bytes, OnDisk, BytesOf, Overwritten;
      ghost var raw, dirty0, payload := Contents(raws), dirty[..], Decoded(disk)[track];
      RawShape(raws);
      CachedShape();
      assert Seen(Decoded(disk), track, RawBytes(raw), dirty0, track, i) == RawBytes(raw)[i];
      SectorChanged(Decoded(disk), track, RawBytes(raw), dirty0, i, o, data);
      CopyIn(raws[i], o, data);
      dirty[i] := true;
      assert Contents(raws) == raw[i := raws[i][..]];
      assert RawBytes(Contents(raws)) == RawBytes(raw)[i := Overwritten(RawBytes(raw)[i], o, data)];
      assert dirty[..] == dirty0[i := true];
      FreshStored(payload, raw, decoded[..], dirty0, i, raws[i][..]);
      RawShape(raws);
    }

    lemma CachedShape()
      requires Valid() && track >= 0
      ensures Formed() && |Decoded(disk)[track]| == NSECTORS
    {
    }

    /** One turn of the loop of FloppyIoTask with the track in memory, up to the sector boundary. */
    method Exchange(t: nat, i: nat, o: nat, n: nat, write: bool, chunk: seq<Byte>) returns (data: seq<Byte>)
      requires Valid() && track == t < NTRACKS && i < NSECTORS && o + n <= SECTOR_SIZE && (write ==> |chunk| == n)
      modifies raws, decoded, dirty
      ensures Valid() && Formed() && old(Formed()) && Address(t, i, o) + n <= FLOPPY_SIZE == |old(State()).view|
      ensures State() == if write then Overlaying(old(State()), Address(t, i, o), chunk) else old(State())
      ensures data == if write then [] else old(State()).view[Address(t, i, o)..Address(t, i, o) + n]
      ensures !write && old(Coherent()) ==> Coherent()
    {
      hide Valid, State, Coherent;
      FormedNow();
      Load(i);
      FormedNow();
      data := [];
      if write {
        Store(t, i, o, chunk);
      } else {
        data := Fetch(t, i, o, n);
      }
      FormedNow();
    }

    lemma FormedNow()
      requires Valid()
      ensures Formed() && |State().view| == FLOPPY_SIZE == |State().disk| && State().track == track && State().view == View()
      ensures State().seconds == Seconds(disk) && -1 <= track < NTRACKS && DiskShape(disk) && |disk| == NTRACKS && |Seconds(disk)| == NTRACKS
    {
    }

    lemma StateSane()
      requires Valid()
      ensures Formed() && Sane(State())
    {
      hide Cached, Stamped, TrackPayload, Fresh;
      RawShape(raws);
      forall a {:trigger State().view[a]} | 0 <= a < FLOPPY_SIZE && TrackOf(a) != track ensures State().view[a] == State().disk[a] {
      }
    }

    /** One turn of the loop serves `n` more bytes of the request; `s` was the picture before the track was in memory. */
    method Turn(t: nat, i: nat, o: nat, n: nat, write: bool, wbuf: seq<Byte>, p: nat, ghost offset0: nat, ghost left0: nat,
                ghost picture: Picture, ghost leg: Picture, ghost at: nat, ghost before: seq<Byte>, ghost part: seq<Byte>, ghost s: Picture)
        returns (data: seq<Byte>)
      requires Valid() && Formed() && track == t < NTRACKS && i < NSECTORS && 0 < n <= left0 - p && o + n <= SECTOR_SIZE
      requires |s.seconds| == NTRACKS && CanLoad(s, t) && State() == Loaded(setting, s, t)
      requires Underway(setting, picture, offset0, left0, write, wbuf, leg, at, before, part, p, s) && |wbuf| == (if write then left0 else 0)
      requires Address(t, i, o) == offset0 + p && TrackOf(offset0 + at) == t && offset0 + p + n <= FLOPPY_SIZE
      modifies raws, decoded, dirty
      ensures Valid() && Formed() && track == t && (!write && old(Coherent()) ==> Coherent())
      ensures Underway(setting, picture, offset0, left0, write, wbuf, leg, at, before, part + data, p + n, State())
    {
      hide Valid, Formed, State, Coherent, Sane, Underway, Loaded, Overlaying, Address, TrackOf, DiskShape, Seconds, CanLoad;
      FormedNow();
      data := Exchange(t, i, o, n, write, if write then wbuf[p..p + n] else []);
      FormedNow();
      UnderwayTurn(setting, picture, offset0, left0, write, wbuf, leg, at, before, part, p, s, n, data, State());
    }

    /** The end of a track, or of a request: what was changed is written back. */
    method WriteChanged(t: nat, needWrite: bool)
      requires Valid() && (needWrite ==> track == t)
      modifies `disk, `cylinder, `upper, `headTrk, `headDir, `ps, mem, sectors, dirty
      ensures Valid() && Formed() && old(Formed()) && |old(State()).seconds| == NTRACKS && old(State()).track == old(track) < NTRACKS
      ensures State() == if needWrite then WrittenBack(setting, old(State())) else old(State())
      ensures if needWrite then setting.writeProtected || Coherent() else old(Coherent()) ==> Coherent()
    {
      hide Valid, State, Coherent, WrittenBack;
      FormedNow();
      if needWrite {
        var error := WriteTrack(t);
      }
      FormedNow();
    }

    /** FloppyIoTask, one request. It stops where an assertion fails, where the sectors of a track are not all
        found, and where the heads would leave the disk. */
    method Serve(offset0: nat, left0: nat, write: bool, wbuf: seq<Byte>) returns (outcome: Outcome, served: nat, rbuf: seq<Byte>)
      requires Valid() && |wbuf| == (if write then left0 else 0)
      modifies `disk, `readings, `track, `cylinder, `upper, `headTrk, `headDir, `ps, `last, `front, mem, sectors, raws, decoded, dirty
      ensures Formed() && old(Formed()) && Sane(old(State())) && (outcome == Done || outcome == PastEnd ==> Valid())
      ensures Result(outcome, State(), served, rbuf) == Served(setting, old(State()), offset0, left0, write, wbuf)
      ensures old(Coherent()) && !setting.writeProtected && outcome == Done ==> Coherent()
    {
      hide Valid, Formed, State, Coherent, Sane, Underway, Served, OnTrack, Loaded, WrittenBack, Overlaying, Address, TrackOf, DiskShape, Seconds,
        CanLoad, SectorOf, OffsetOf, Missing;
      StateSane();
      ghost var picture := State();
      var needWrite := false;
      var t: nat, i: nat, o: nat := TrackOf(offset0), SectorOf(offset0), OffsetOf(offset0);
      PartsAddress(offset0);
      ghost var leg, at: nat, before: seq<Byte>, part: seq<Byte> := picture, 0, [], [];
      rbuf := [];
      var left: nat := left0;
      UnderwayStart(setting, picture, offset0, left0, write, wbuf);
      while left > 0
        invariant left <= left0 && i < NSECTORS && o < SECTOR_SIZE && Valid() && Formed()
        invariant left > 0 ==> Address(t, i, o) == offset0 + (left0 - left)
        invariant at <= left0 - left && rbuf == before + part
        invariant Underway(setting, picture, offset0, left0, write, wbuf, leg, at, before, part, left0 - left, State())
        invariant if at < left0 - left then track == t == TrackOf(offset0 + at) && offset0 + at < FLOPPY_SIZE && needWrite == write else !needWrite
        invariant at < left0 - left && left == 0 ==> left0 - at == OnTrack(offset0 + at, left0 - at)
        invariant old(Coherent()) && !setting.writeProtected ==> Coherent() || needWrite
      {
        ghost var p, s := left0 - left, State();
        FormedNow();
        AddressParts(t, i, o);
        TrackOrder(offset0 + p, offset0 + p);
        if t >= NTRACKS {
          UnderwayStops(setting, picture, offset0, left0, write, wbuf, leg, before, part, p, s, PastEnd, s);
          return PastEnd, left0 - left, rbuf;
        }
        outcome := Fill(t);
        InBuffer(s, t);
        if outcome != Done {
          UnderwayStops(setting, picture, offset0, left0, write, wbuf, leg, before, part, p, s, outcome, State());
          return outcome, left0 - left, rbuf;
        }
        TurnEnds(t, i, o, left, offset0 + at, p - at);
        var n := Min(left, SECTOR_SIZE - o);
        var data := Turn(t, i, o, n, write, wbuf, left0 - left, offset0, left0, picture, leg, at, before, part, s);
        rbuf, part := rbuf + data, part + data;
        needWrite := needWrite || write;
        left := left - n;
        o := 0;
        i := i + 1;
        if i == NSECTORS {
          i := 0;
          s := State();
          WriteChanged(t, needWrite);
          UnderwayEnd(setting, picture, offset0, left0, write, wbuf, leg, at, before, part, p + n, s, State());
          leg, at, before, part := State(), p + n, before + part, [];
          needWrite := false;
          t := t + 1;
        }
      }
      ghost var s := State();
      FormedNow();
      WriteChanged(t, needWrite);
      if at < left0 {
        UnderwayEnd(setting, picture, offset0, left0, write, wbuf, leg, at, before, part, left0, s, State());
        leg, at, before, part := State(), left0, before + part, [];
      }
      outcome, served := Done, left0;
      FormedNow();
      UnderwayStops(setting, picture, offset0, left0, write, wbuf, leg, before, part, left0, State(), outcome, State());
    }

    /** FloppyReadWrite. A write to a disk that must not be written is a success all the same. */
    method ReadWrite(r: Request) returns (error: Error, outcome: Outcome, served: nat, rbuf: seq<Byte>)
      requires Valid() && Proper(r)
      modifies `disk, `readings, `track, `cylinder, `upper, `headTrk, `headDir, `ps, `last, `front, mem, sectors, raws, decoded, dirty
      ensures Formed() && old(Formed()) && Sane(old(State())) && (error == Invalid <==> r.offset >= 901120) && (outcome == Done || outcome == PastEnd ==> Valid())
      ensures Result(outcome, State(), served, rbuf) == Handled(setting, old(State()), r)
      ensures old(Coherent()) && !setting.writeProtected && outcome == Done ==> Coherent()
    {
      hide Valid, State, Coherent, Sane, Served;
      StateSane();
      if r.offset >= FLOPPY_SIZE {
        return Invalid, Done, 0, [];
      }
      var left := Clip(r.offset, r.left);
      error := Ok;
      if left == 0 {
        RestEnds(setting, State(), r.offset, 0, r.write, if r.write then r.data[..0] else []);
        return Ok, Done, 0, [];
      }
      outcome, served, rbuf := Serve(r.offset, left, r.write, if r.write then r.data[..left] else []);
    }
  }

  /** These are the answers to the first requests. */
  ghost predicate Answered(e: Setting, p: Picture, reqs: seq<Request>, answers: seq<seq<Byte>>)
    requires Sane(p) && AllProper(reqs) && |answers| <= |reqs|
  {
    forall k {:trigger answers[k]} :: 0 <= k < |answers| ==> AllDone(e, p, reqs, k) && answers[k] == Answer(e, p, reqs, k).data
  }

  lemma NoneAnswered(e: Setting, p: Picture, reqs: seq<Request>)
    requires Sane(p) && AllProper(reqs)
    ensures Answered(e, p, reqs, [])
  {
  }

  lemma AnsweredMore(e: Setting, p: Picture, reqs: seq<Request>, answers: seq<seq<Byte>>, data: seq<Byte>)
    requires Sane(p) && AllProper(reqs) && |answers| < |reqs| && Answered(e, p, reqs, answers)
    requires AllDone(e, p, reqs, |answers|) && data == Answer(e, p, reqs, |answers|).data
    ensures Answered(e, p, reqs, answers + [data])
  {
    hide Answer;
    var more := answers + [data];
    forall k {:trigger more[k]} {:trigger AllDone(e, p, reqs, k)} | 0 <= k < |more|
      ensures AllDone(e, p, reqs, k) && more[k] == Answer(e, p, reqs, k).data
    {
      if k < |answers| { assert more[k] == answers[k]; }
    }
  }

  /** Any requests one after another, up to the first one that does not get done: the answers and the picture
      are those of the specification. */
  method Perform(f: Floppy, reqs: seq<Request>) returns (answers: seq<seq<Byte>>, outcome: Outcome)
    requires f.Valid() && AllProper(reqs)
    modifies f, f.mem, f.sectors, f.raws, f.decoded, f.dirty
    ensures f.Formed() && old(f.Formed()) && Sane(old(f.State())) && |answers| <= |reqs| && AllDone(f.setting, old(f.State()), reqs, |answers|)
    ensures Answered(f.setting, old(f.State()), reqs, answers)
    ensures if |answers| == |reqs| then outcome == Done && f.State() == Before(f.setting, old(f.State()), reqs, |reqs|)
            else outcome == Answer(f.setting, old(f.State()), reqs, |answers|).outcome != Done &&
                 f.State() == Answer(f.setting, old(f.State()), reqs, |answers|).picture
    ensures outcome == Done || outcome == PastEnd ==> f.Valid()
    ensures outcome == Done && old(f.Coherent()) && !f.setting.writeProtected ==> f.Coherent()
  {
    hide Floppy.Valid, Floppy.State, Floppy.Coherent, Floppy.Formed, Sane, Handled, Proper, Answered;
    f.StateSane();
    ghost var p, coherent := f.State(), f.Coherent() && !f.setting.writeProtected;
    answers := [];
    assert Answered(f.setting, p, reqs, answers) by { NoneAnswered(f.setting, p, reqs); }
    while |answers| < |reqs|
      invariant |answers| <= |reqs| && AllDone(f.setting, p, reqs, |answers|)
      invariant f.Valid() && f.Formed() && f.State() == Before(f.setting, p, reqs, |answers|) && (coherent ==> f.Coherent())
      invariant Answered(f.setting, p, reqs, answers)
    {
      var error, served, data;
      error, outcome, served, data := f.ReadWrite(reqs[|answers|]);
      ghost var k, was := |answers|, answers;
      assert Answer(f.setting, p, reqs, k) == Result(outcome, f.State(), served, data);
      if outcome != Done {
        return;
      }
      answers := answers + [data];
      AnsweredMore(f.setting, p, reqs, was, data);
    }
    outcome := Done;
  }

  /** On a disk that is not protected and that shows what it holds, requests read and write one array of
      bytes, for as long as they get done; and they all get done if no sum wraps, all tracks can be read, and
      no reading of a track from now on loses the sync words. */
  method Run(f: Floppy, reqs: seq<Request>) returns (answers: seq<seq<Byte>>)
    requires f.Valid() && f.Coherent() && !f.setting.writeProtected && AllProper(reqs)
    modifies f, f.mem, f.sectors, f.raws, f.decoded, f.dirty
    ensures |answers| <= |reqs| && (|answers| == |reqs| ==> f.Valid() && f.Coherent())
    ensures forall k {:trigger answers[k]} :: 0 <= k < |answers| && !reqs[k].write ==>
              answers[k] == Extract(After(old(OnDisk(Decoded(f.disk))), reqs[..k]), reqs[k].offset, reqs[k].left)
    ensures f.Formed() && (|answers| == |reqs| ==> OnDisk(Decoded(f.disk)) == After(old(OnDisk(Decoded(f.disk))), reqs))
    ensures old(f.Formed()) && (AllGood(f.setting, old(f.State())) && AllWithin(reqs) ==> |answers| == |reqs|)
  {
    hide Floppy.Valid, Floppy.Coherent, Sane, Handled, Extract, AllGood, OnDisk, Decoded, After, Answer, Bytes, Before, Proper;
    f.StateSane();
    CoherentState(f);
    ghost var p := f.State();
    var outcome;
    answers, outcome := Perform(f, reqs);
    RunIsFlat(f.setting, p, reqs, |answers|);
    if AllGood(f.setting, p) && AllWithin(reqs) {
      RunGoesOn(f.setting, p, reqs, |reqs|);
      if |answers| < |reqs| { DoneBefore(f.setting, p, reqs, |answers|, |reqs|); }
    }
    if |answers| == |reqs| {
      assert reqs[..|reqs|] == reqs;
    }
  }

  lemma CoherentState(f: Floppy)
    requires f.Valid() && f.Coherent()
    ensures f.Formed() && f.State().view == f.State().disk == OnDisk(Decoded(f.disk))
  {
    f.ClearView();
  }

  lemma InBuffer(p: Picture, t: nat)
    requires |p.seconds| == NTRACKS
    ensures p.track == t ==> CanLoad(p, t)
  {
  }

  /** Where a sector of a request ends: at the end of the track, or of the request, or before */
  lemma TurnEnds(t: nat, i: nat, o: nat, left: nat, offset: nat, c: nat)
    requires i < NSECTORS && o < SECTOR_SIZE && left > 0 && Address(t, i, o) == offset + c && t < NTRACKS
    requires c > 0 ==> TrackOf(offset) == t
    ensures var n := Min(left, SECTOR_SIZE - o);
            && n > 0 && TrackOf(offset) == t && offset + c + n <= FLOPPY_SIZE
            && (i + 1 == NSECTORS || n == left ==> OnTrack(offset, c + left) == c + n)
            && (n < left ==> offset + c + n == if i + 1 == NSECTORS then Address(t + 1, 0, 0) else Address(t, i + 1, 0))
  {
    AddressParts(t, i, o);
  }

  lemma SeenSame(surface: Surface, track: int, raw: seq<seq<Byte>>, dirty: seq<bool>, raw1: seq<seq<Byte>>, dirty1: seq<bool>)
    requires Shape(surface) && TrackShape(raw) && |dirty| == NSECTORS && TrackShape(raw1) && |dirty1| == NSECTORS
    requires forall i {:trigger dirty[i]} {:trigger dirty1[i]} :: 0 <= i < NSECTORS ==> dirty1[i] == dirty[i] && (dirty[i] ==> raw1[i] == raw[i])
    ensures Bytes(surface, track, raw1, dirty1) == Bytes(surface, track, raw, dirty)
  {
    hide Shape, TrackShape;
    forall a | 0 <= a < FLOPPY_SIZE ensures Bytes(surface, track, raw1, dirty1)[a] == Bytes(surface, track, raw, dirty)[a] {
      PartsAddress(a);
      var s := dirty[SectorOf(a)];
    }
  }

  lemma FreshDecoded(payload: seq<seq<Byte>>, raw: seq<seq<bv32>>, decoded: seq<bool>, dirty: seq<bool>, i: nat, longs: seq<bv32>)
    requires Fresh(payload, RawBytes(raw), decoded, dirty) && i < |raw| == NSECTORS && BytesOf(longs) == payload[i]
    ensures Fresh(payload, RawBytes(raw[i := longs]), decoded[i := true], dirty)
  {
    hide BytesOf;
    var raw1, decoded1 := RawBytes(raw[i := longs]), decoded[i := true];
    forall k {:trigger decoded1[k]} {:trigger dirty[k]} {:trigger raw1[k]} | 0 <= k < NSECTORS
      ensures (dirty[k] ==> decoded1[k]) && (decoded1[k] && !dirty[k] ==> raw1[k] == payload[k])
    {
      var d := decoded[k];
    }
  }

  lemma FreshStored(payload: seq<seq<Byte>>, raw: seq<seq<bv32>>, decoded: seq<bool>, dirty: seq<bool>, i: nat, longs: seq<bv32>)
    requires Fresh(payload, RawBytes(raw), decoded, dirty) && i < |raw| == NSECTORS && decoded[i]
    ensures Fresh(payload, RawBytes(raw[i := longs]), decoded, dirty[i := true])
  {
    hide BytesOf;
    var raw1, dirty1 := RawBytes(raw[i := longs]), dirty[i := true];
    forall k {:trigger decoded[k]} {:trigger dirty1[k]} {:trigger raw1[k]} | 0 <= k < NSECTORS
      ensures (dirty1[k] ==> decoded[k]) && (decoded[k] && !dirty1[k] ==> raw1[k] == payload[k])
    {
      var d := dirty[k];
    }
  }

  lemma SameBefore(before: seq<bv16>, after: seq<bv16>, base: nat)
    requires Same(before, after, base, base + TRACK) && 0 < base <= |before|
    ensures |after| == |before| && after[base - 1] == before[base - 1]
  {
  }

  lemma FreshWritten(payload: seq<seq<Byte>>, raw: seq<seq<bv32>>, decoded: seq<bool>, dirty: seq<bool>, dirty1: seq<bool>)
    requires Fresh(payload, RawBytes(raw), decoded, dirty) && |raw| == NSECTORS && Clear(dirty1)
    ensures |payload| == NSECTORS == |dirty| && Fresh(Changed(payload, dirty, raw), RawBytes(raw), decoded, dirty1)
  {
    var changed := Changed(payload, dirty, raw);
    forall i {:trigger decoded[i]} {:trigger dirty1[i]} | 0 <= i < NSECTORS ensures !dirty1[i] && (decoded[i] ==> RawBytes(raw)[i] == changed[i]) {
      var d, d1 := dirty[i], dirty1[i];
    }
  }

  /** What is on the disk now is what was seen before. */
  lemma WrittenSeen(disk: seq<seq<bv16>>, disk1: seq<seq<bv16>>, t: nat, raw: seq<seq<bv32>>, dirty: seq<bool>, dirty1: seq<bool>)
    requires DiskShape(disk) && DiskShape(disk1) && t < NTRACKS && |raw| == NSECTORS == |dirty| && TrackShape(RawBytes(raw)) && Clear(dirty1)
    requires disk1 == disk[t := disk1[t]] && TrackPayload(disk1[t]) == Changed(Decoded(disk)[t], dirty, raw)
    ensures OnDisk(Decoded(disk1)) == Bytes(Decoded(disk), t, RawBytes(raw), dirty)
  {
    hide TrackPayload, Bytes, OnDisk;
    var buffer := TrackPayload(disk1[t]);
    assert Decoded(disk1) == Decoded(disk)[t := buffer];
    SeenWritten(Decoded(disk), t, RawBytes(raw), dirty, buffer, dirty1);
    SeenOnDisk(Decoded(disk1), t, RawBytes(raw), dirty1);
  }

  lemma BuffersSized(raws: seq<array<bv32>>)
    requires Buffers(raws)
    ensures |raws| == NSECTORS && forall n {:trigger raws[n]} :: 0 <= n < |raws| ==> raws[n].Length == RAW
  {
  }

  lemma CachedParts(words: seq<bv16>, base: nat, sectors: seq<nat>, ps: seq<nat>, last: nat, payload: seq<seq<Byte>>, front: Front)
    requires Cached(words, base, sectors, ps, last, payload, front)
    ensures 4 < base && base + TRACK <= |words| && Spread(ps, base) && |ps| == NSECTORS && base <= ps[0] + 4
    ensures Rotated(sectors, ps, last) && last < NSECTORS
    ensures forall m {:trigger ps[m]} :: 0 <= m < |ps| ==> ps[m] + SECTOR <= |words|
    ensures Stored(words, ps, SectorsIn(words, ps), 0, NSECTORS) && Sized(SectorsIn(words, ps)) && |payload| == NSECTORS
  {
    hide SectorIn;
    StoredAll(words, ps);
  }

  method NewBuffers() returns (raws: seq<array<bv32>>)
    ensures Buffers(raws) && forall a :: a in raws ==> fresh(a)
  {
    raws := [];
    while |raws| < NSECTORS
      invariant |raws| <= NSECTORS && forall n {:trigger raws[n]} :: 0 <= n < |raws| ==> fresh(raws[n]) && raws[n].Length == RAW
      invariant forall n, m {:trigger raws[n], raws[m]} :: 0 <= n < m < |raws| ==> raws[n] != raws[m]
    {
      var a := new bv32[RAW](_ => 0);
      raws := raws + [a];
    }
  }

  lemma RawShape(raws: seq<array<bv32>>)
    requires Buffers(raws)
    ensures TrackShape(RawBytes(Contents(raws)))
  {
  }

  lemma NothingFresh(payload: seq<seq<Byte>>, raw: seq<seq<Byte>>, decoded: seq<bool>, dirty: seq<bool>)
    requires |payload| == NSECTORS == |raw| && Clear(decoded) && Clear(dirty)
    ensures Fresh(payload, raw, decoded, dirty)
  {
  }
}
