/** Sector headers (drivers/floppy-mfm.c): what RealignTrack writes at the front of every sector. */
module Headers {
  import opened Mfm
  import opened Sectors

  /** The header is four bytes: format, track number, sector number, and the number of sectors up to the
      end of the track, which is the gap distance. */
  function GapDist(info: bv32): bv32 { info & 0xff }

  function Format(info: bv32): bv32 { (info >> 24) & 0xff }

  function TrackNum(info: bv32): bv32 { (info >> 16) & 0xff }

  function SectorNum(info: bv32): bv32 { (info >> 8) & 0xff }

  function WithGap(info: bv32, gapDist: bv32): bv32 { (info & 0xffff_ff00) | gapDist }

  lemma WithGapOnly(info: bv32, gapDist: bv32)
    requires gapDist & 0xff == gapDist
    ensures GapDist(WithGap(info, gapDist)) == gapDist
    ensures TrackNum(WithGap(info, gapDist)) == TrackNum(info) && SectorNum(WithGap(info, gapDist)) == SectorNum(info)
    ensures Format(WithGap(info, gapDist)) == Format(info)
  {
  }

  /** The sync longword, of which RealignTrack writes only the first half */
  function Synced(lw: bv32): bv32 { Long(0x4489, Low(lw)) }

  lemma SyncedIs(lw: bv32)
    ensures Synced(lw) == 0x4489_4489 <==> Low(lw) == 0x4489
  {
  }

  lemma SyncIn(words: seq<bv16>)
    requires |words| >= 4
    ensures Longs(words[2 := 0x4489]) == Longs(words)[1 := Synced(Longs(words)[1])]
  {
    LowOfLong(words[2], words[3]);
    assert Longs(words)[1] == Long(words[2], words[3]);
  }

  lemma LowOfLong(h: bv16, l: bv16)
    ensures Low(Long(h, l)) == l
  {
  }

  function Fold(words: seq<bv32>): bv32 {
    if words == [] then 0 else Xor(Fold(words[..|words| - 1]), words[|words| - 1])
  }

  /** ChecksumHeader: over the info longwords and the label */
  function HeaderSum(sec: seq<bv32>): bv32
    requires |sec| == LONGS
  {
    Data(Fold(sec[INFO..HEADER_CHECKSUM]))
  }

  lemma {:induction false} FoldBit(words: seq<bv32>, m: bv32)
    requires IsDataBit(m)
    ensures Has(Fold(words), m) <==> With(words, m) % 2 == 1
  {
    hide IsDataBit, Has, Xor;
    if words == [] {
      NoBit(m);
    } else {
      FoldBit(words[..|words| - 1], m);
      XorBit(Fold(words[..|words| - 1]), words[|words| - 1], m);
    }
  }

  /** The checksum of a header */
  lemma HeaderSumParity(sec: seq<bv32>)
    requires |sec| == LONGS
    ensures Parity(HeaderSum(sec), sec[INFO..HEADER_CHECKSUM])
  {
    hide IsDataBit, Has, NoClocks, Data, Fold, With;
    var words := sec[INFO..HEADER_CHECKSUM];
    DataNoClocks(Fold(words));
    forall m {:trigger With(words, m)} | IsDataBit(m) ensures Has(HeaderSum(sec), m) <==> With(words, m) % 2 == 1 {
      FoldBit(words, m);
      DataHas(Fold(words), m);
    }
  }

  /** `r` is the sector `sec` with a new header, for its place in the track and behind what is before it. */
  ghost predicate Headed(sec: seq<bv32>, r: seq<bv32>, gapDist: bv32, one: bool) {
    && |sec| == LONGS == |r|
    && r[0] == Updated(0xAAAA_AAAA, one) && r[1] == Synced(sec[1])
    && (var info := WithGap(Decode(sec[INFO], sec[INFO + 1]), gapDist);
        r[INFO] == Encode(Half(info), Last(r[1])) && r[INFO + 1] == Encode(info, Last(Half(info))) && r[LABEL] == Updated(0xAAAA_AAAA, Last(info)))
    && (forall k {:trigger r[k]} :: LABEL < k < HEADER_CHECKSUM ==> r[k] == 0xAAAA_AAAA)
    && (var chksum := HeaderSum(r);
        && r[HEADER_CHECKSUM] == Encode(Half(chksum), Last(r[HEADER_CHECKSUM - 1])) && r[HEADER_CHECKSUM + 1] == Encode(chksum, Last(Half(chksum)))
        && r[CHECKSUM] == Updated(sec[CHECKSUM], Last(chksum)))
    && (forall k {:trigger r[k]} :: CHECKSUM < k < LONGS ==> r[k] == sec[k])
  }

  // --- what a reader of the sector finds ------------------------------------------------------------

  /** Everything but the gap distance is as before, and the checksum of the header is right. */
  lemma HeaderKept(sec: seq<bv32>, r: seq<bv32>, gapDist: bv32, one: bool)
    requires Headed(sec, r, gapDist, one) && gapDist & 0xff == gapDist
    ensures var old_, info := Decode(sec[INFO], sec[INFO + 1]), Decode(r[INFO], r[INFO + 1]);
            && GapDist(info) == gapDist && TrackNum(info) == TrackNum(old_) && SectorNum(info) == SectorNum(old_)
            && Format(info) == Format(old_)
    ensures Parity(Decode(r[HEADER_CHECKSUM], r[HEADER_CHECKSUM + 1]), r[INFO..HEADER_CHECKSUM])
  {
    hide Encode, Decode, Half, Last, Updated, WithGap, GapDist, TrackNum, SectorNum, Format, HeaderSum, Synced, Parity;
    HeaderSumParity(r);
    var info := WithGap(Decode(sec[INFO], sec[INFO + 1]), gapDist);
    RoundTrip(info, Last(r[1]), Last(Half(info)));
    WithGapOnly(Decode(sec[INFO], sec[INFO + 1]), gapDist);
    RoundTrip(HeaderSum(r), Last(r[HEADER_CHECKSUM - 1]), Last(Half(HeaderSum(r))));
  }

  /** The payload and its checksum decode as before. */
  lemma PayloadKept(sec: seq<bv32>, r: seq<bv32>, gapDist: bv32, one: bool)
    requires Headed(sec, r, gapDist, one)
    ensures Decode(r[CHECKSUM], r[CHECKSUM + 1]) == Decode(sec[CHECKSUM], sec[CHECKSUM + 1])
    ensures forall raw {:trigger Carries(sec, raw)} :: Carries(sec, raw) <==> Carries(r, raw)
  {
    hide Encode, Decode, Half, Last, Updated, WithGap, HeaderSum, Synced, Data;
    UpdatedKeeps(sec[CHECKSUM], Last(HeaderSum(r)));
    DecodeData(r[CHECKSUM], r[CHECKSUM + 1], sec[CHECKSUM], sec[CHECKSUM + 1]);
    assert forall j {:trigger r[ODD + j]} :: 0 <= j < RAW ==> r[ODD + j] == sec[ODD + j] && r[EVEN + j] == sec[EVEN + j];
    forall raw {:trigger Carries(sec, raw)} ensures Carries(sec, raw) <==> Carries(r, raw) {
      PayloadSame(sec, r, raw);
      PayloadSame(r, sec, raw);
    }
  }

  lemma PayloadSame(sec: seq<bv32>, r: seq<bv32>, raw: seq<bv32>)
    requires |sec| == LONGS == |r| && forall k {:trigger r[k]} {:trigger sec[k]} :: ODD <= k < LONGS ==> r[k] == sec[k]
    ensures Carries(sec, raw) ==> Carries(r, raw)
  {
    hide Decode;
  }

  /** The clock bits of the payload can be read. */
  ghost predicate Sound(sec: seq<bv32>) {
    |sec| == LONGS && Inside(sec[CHECKSUM]) && CleanPart(sec, CHECKSUM + 1, LONGS)
  }

  lemma SealedSound(sec: seq<bv32>, raw: seq<bv32>)
    requires Sealed(sec, raw)
    ensures Sound(sec)
  {
    hide Clean, Inside, Last, Decode, Parity, HalvesOf;
    assert CleanAt(sec, CHECKSUM);
    CleanInside(sec[CHECKSUM], Last(sec[CHECKSUM - 1]));
  }

  lemma Fill(one: bool)
    ensures Clean(0xAAAA_AAAA, false) && Clean(Updated(0xAAAA_AAAA, one), one) && !Last(0xAAAA_AAAA) && !Last(Updated(0xAAAA_AAAA, one))
  {
  }

  lemma HeadedClean(sec: seq<bv32>, r: seq<bv32>, gapDist: bv32, one: bool)
    requires Headed(sec, r, gapDist, one) && Sound(sec)
    ensures Clean(r[0], one) && CleanPart(r, INFO, LONGS) && r[LONGS - 1] == sec[LONGS - 1]
  {
    hide Encode, Decode, Half, Last, Updated, WithGap, HeaderSum, Synced, Clean, Inside;
    Fill(one);
    InfoClean(sec, r, gapDist, one);
    ChecksumsClean(sec, r, gapDist, one);
    forall k {:trigger CleanAt(r, k)} | INFO <= k < LONGS ensures CleanAt(r, k) {
      if k > CHECKSUM {
        assert CleanAt(sec, k);
      } else if LABEL < k < HEADER_CHECKSUM {
        assert r[k] == 0xAAAA_AAAA && (k > LABEL + 1 ==> r[k - 1] == 0xAAAA_AAAA);
      }
    }
  }

  lemma InfoClean(sec: seq<bv32>, r: seq<bv32>, gapDist: bv32, one: bool)
    requires Headed(sec, r, gapDist, one)
    ensures CleanAt(r, INFO) && CleanAt(r, INFO + 1) && CleanAt(r, LABEL) && !Last(r[LABEL])
  {
    hide Encode, Decode, Half, Last, Updated, WithGap, HeaderSum, Synced, Data, Clean;
    var info := WithGap(Decode(sec[INFO], sec[INFO + 1]), gapDist);
    EncodeIsClean(Half(info), Last(r[1]));
    EncodeIsClean(info, Last(Half(info)));
    Fill(Last(info));
  }

  lemma ChecksumsClean(sec: seq<bv32>, r: seq<bv32>, gapDist: bv32, one: bool)
    requires Headed(sec, r, gapDist, one) && Inside(sec[CHECKSUM])
    ensures CleanAt(r, HEADER_CHECKSUM) && CleanAt(r, HEADER_CHECKSUM + 1) && CleanAt(r, CHECKSUM) && Last(r[CHECKSUM]) == Last(sec[CHECKSUM])
  {
    hide Encode, Decode, Half, Last, Updated, WithGap, HeaderSum, Synced, Data, Clean, Inside;
    var chksum := HeaderSum(r);
    EncodeIsClean(Half(chksum), Last(r[HEADER_CHECKSUM - 1]));
    EncodeIsClean(chksum, Last(Half(chksum)));
    UpdatedIsClean(sec[CHECKSUM], Last(chksum));
    UpdatedKeeps(sec[CHECKSUM], Last(chksum));
  }

  // --- writing a header in memory -------------------------------------------------------------------

  /** ChecksumHeader */
  method ChecksumHeader(mem: array<bv16>, p: nat) returns (checksum: bv32)
    requires p + SECTOR <= mem.Length
    ensures checksum == HeaderSum(Sector(mem, p)) && Parity(checksum, Sector(mem, p)[INFO..HEADER_CHECKSUM])
  {
    hide Xor, Data, Sector, Long, Parity;
    ghost var sec := Sector(mem, p);
    checksum := 0;
    var k := INFO;
    while k < HEADER_CHECKSUM
      invariant INFO <= k <= HEADER_CHECKSUM && checksum == Fold(sec[INFO..k])
    {
      SectorAt(mem, p, k);
      assert sec[INFO..k + 1][..k - INFO] == sec[INFO..k];
      checksum := Xor(checksum, At(mem, p + 2 * k));
      k := k + 1;
    }
    checksum := Data(checksum);
    HeaderSumParity(sec);
  }

  /** UpdateMSB */
  method UpdateMSB(mem: array<bv16>, p: nat, k: nat, one: bool)
    requires p + SECTOR <= mem.Length && k < LONGS
    modifies mem
    ensures Sector(mem, p) == old(Sector(mem, p))[k := Updated(old(Sector(mem, p))[k], one)]
    ensures Same(old(mem[..]), mem[..], p + 2 * k, p + 2 * k + 2)
  {
    hide Updated, Sector, Long;
    SectorAt(mem, p, k);
    Put(mem, p, k, Updated(At(mem, p + 2 * k), one));
  }

  /** The magic longword, the first sync word and the label */
  method Preamble(mem: array<bv16>, p: nat)
    requires p + SECTOR <= mem.Length
    modifies mem
    ensures var s, r := old(Sector(mem, p)), Sector(mem, p);
            && r[0] == 0xAAAA_AAAA && r[1] == Synced(s[1])
            && (forall k {:trigger r[k]} :: LABEL <= k < HEADER_CHECKSUM ==> r[k] == 0xAAAA_AAAA)
            && (forall k {:trigger r[k]} :: 1 < k < LONGS && !(LABEL <= k < HEADER_CHECKSUM) ==> r[k] == s[k])
    ensures Same(old(mem[..]), mem[..], p, p + 2 * CHECKSUM)
  {
    hide Sector, Synced, Long;
    Put(mem, p, 0, 0xAAAA_AAAA);
    Sync(mem, p);
    var k := LABEL;
    ghost var s := Sector(mem, p);
    while k < HEADER_CHECKSUM
      invariant LABEL <= k <= HEADER_CHECKSUM && Same(old(mem[..]), mem[..], p, p + 2 * CHECKSUM)
      invariant forall j {:trigger Sector(mem, p)[j]} :: 0 <= j < LONGS ==> Sector(mem, p)[j] == if LABEL <= j < k then 0xAAAA_AAAA else s[j]
    {
      Put(mem, p, k, 0xAAAA_AAAA);
      k := k + 1;
    }
  }

  method Sync(mem: array<bv16>, p: nat)
    requires p + SECTOR <= mem.Length
    modifies mem
    ensures Sector(mem, p) == old(Sector(mem, p))[1 := Synced(old(Sector(mem, p))[1])]
    ensures Same(old(mem[..]), mem[..], p + 2, p + 3)
  {
    hide Synced, Long, Longs;
    SyncIn(mem[p..p + SECTOR]);
    mem[p + 2] := 0x4489;
    assert mem[p..p + SECTOR] == old(mem[p..p + SECTOR])[2 := 0x4489];
  }

  /** One turn of the last loop of RealignTrack. */
  method FixHeader(mem: array<bv16>, p: nat, gapDist: bv32)
    requires 2 <= p && p + SECTOR <= mem.Length
    modifies mem
    ensures Headed(old(Sector(mem, p)), Sector(mem, p), gapDist, old(Last(At(mem, p - 2))))
    ensures Same(old(mem[..]), mem[..], p, p + 2 * ODD)
  {
    hide Encode, Decode, Half, Last, Updated, WithGap, HeaderSum, Synced, Data, Sector, Long, Informed;
    ghost var s := Sector(mem, p);
    FixInfo(mem, p, gapDist);
    ghost var r := Sector(mem, p);
    var chksum := ChecksumHeader(mem, p);
    EncodeLongWord(mem, p, HEADER_CHECKSUM, chksum);
    UpdateMSB(mem, p, CHECKSUM, Last(chksum));
    UpdateMSB(mem, p, 0, Last(At(mem, p - 2)));
    InformedHeaded(s, r, Sector(mem, p), gapDist, Last(At(mem, p - 2)));
  }

  /** Everything up to the checksum of the header is in place. */
  ghost predicate Informed(s: seq<bv32>, r: seq<bv32>, gapDist: bv32) {
    && |s| == LONGS == |r| && r[0] == 0xAAAA_AAAA && r[1] == Synced(s[1])
    && (var info := WithGap(Decode(s[INFO], s[INFO + 1]), gapDist);
        r[INFO] == Encode(Half(info), Last(r[1])) && r[INFO + 1] == Encode(info, Last(Half(info))) && r[LABEL] == Updated(0xAAAA_AAAA, Last(info)))
    && (forall k {:trigger r[k]} :: LABEL < k < HEADER_CHECKSUM ==> r[k] == 0xAAAA_AAAA)
    && (forall k {:trigger r[k]} :: HEADER_CHECKSUM <= k < LONGS ==> r[k] == s[k])
  }

  method FixInfo(mem: array<bv16>, p: nat, gapDist: bv32)
    requires p + SECTOR <= mem.Length
    modifies mem
    ensures Informed(old(Sector(mem, p)), Sector(mem, p), gapDist) && Same(old(mem[..]), mem[..], p, p + 2 * ODD)
  {
    hide Encode, Decode, Half, Last, Updated, WithGap, Synced, Sector, Long;
    Preamble(mem, p);
    SectorAt(mem, p, INFO);
    SectorAt(mem, p, INFO + 1);
    var info := WithGap(Decode(At(mem, p + 2 * INFO), At(mem, p + 2 * INFO + 2)), gapDist);
    EncodeLongWord(mem, p, INFO, info);
    UpdateMSB(mem, p, LABEL, Last(info));
  }

  lemma InformedHeaded(s: seq<bv32>, r: seq<bv32>, t: seq<bv32>, gapDist: bv32, one: bool)
    requires Informed(s, r, gapDist)
    requires var c := r[HEADER_CHECKSUM := Encode(Half(HeaderSum(r)), Last(r[HEADER_CHECKSUM - 1]))][HEADER_CHECKSUM + 1 := Encode(HeaderSum(r), Last(Half(HeaderSum(r))))];
             t == c[CHECKSUM := Updated(c[CHECKSUM], Last(HeaderSum(r)))][0 := Updated(r[0], one)]
    ensures Headed(s, t, gapDist, one)
  {
    hide Encode, Decode, Half, Last, Updated, WithGap, HeaderSum, Synced;
    SumSame(r, t);
  }

  lemma SumSame(sec: seq<bv32>, r: seq<bv32>)
    requires |sec| == LONGS == |r| && forall k {:trigger r[k]} :: INFO <= k < HEADER_CHECKSUM ==> r[k] == sec[k]
    ensures HeaderSum(r) == HeaderSum(sec)
  {
    assert r[INFO..HEADER_CHECKSUM] == sec[INFO..HEADER_CHECKSUM];
  }
}
