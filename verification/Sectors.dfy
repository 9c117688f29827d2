/** Sectors in memory (drivers/floppy-mfm.c). A buffer that was read from disk holds its sectors at any
    even address, so memory is in 16-bit words here; a sector is 272 longwords, most significant half first. */
module Sectors {
  import opened Mfm

  const SECTOR: nat := 544
  const LONGS: nat := 272
  const RAW: nat := 128

  // The longwords of a sector
  const INFO: nat := 2
  const LABEL: nat := 4
  const HEADER_CHECKSUM: nat := 12
  const CHECKSUM: nat := 14
  const ODD: nat := 16
  const EVEN: nat := 144

  function Long(high: bv16, low: bv16): bv32 { ((high as bv32) << 16) | (low as bv32) }

  function High(lw: bv32): bv16 { (lw >> 16) as bv16 }

  function Low(lw: bv32): bv16 { (lw & 0xffff) as bv16 }

  lemma LongParts(lw: bv32)
    ensures Long(High(lw), Low(lw)) == lw
  {
  }

  function Longs(words: seq<bv16>): (r: seq<bv32>)
    ensures |r| == |words| / 2 && forall k {:trigger r[k]} :: 0 <= k < |r| ==> r[k] == Long(words[2 * k], words[2 * k + 1])
  {
    seq(|words| / 2, k requires 0 <= k < |words| / 2 => Long(words[2 * k], words[2 * k + 1]))
  }

  lemma LongsPut(words: seq<bv16>, k: nat, lw: bv32)
    requires 2 * k + 1 < |words|
    ensures Longs(words[2 * k := High(lw)][2 * k + 1 := Low(lw)]) == Longs(words)[k := lw]
  {
    hide Long, High, Low;
    LongParts(lw);
  }

  function At(mem: array<bv16>, i: nat): bv32
    requires i + 2 <= mem.Length
    reads mem
  {
    Long(mem[i], mem[i + 1])
  }

  /** The longwords of the sector at `p` */
  function Sector(mem: array<bv16>, p: nat): (r: seq<bv32>)
    requires p + SECTOR <= mem.Length
    ensures |r| == LONGS
    reads mem
  {
    Longs(mem[p..p + SECTOR])
  }

  lemma SectorAt(mem: array<bv16>, p: nat, k: nat)
    requires p + SECTOR <= mem.Length && k < LONGS
    ensures At(mem, p + 2 * k) == Sector(mem, p)[k]
  {
  }

  /** Nothing outside `a` to `b` has changed. */
  ghost predicate Same(before: seq<bv16>, after: seq<bv16>, a: nat, b: nat) {
    |before| == |after| && forall i {:trigger after[i]} :: 0 <= i < |after| && !(a <= i < b) ==> after[i] == before[i]
  }

  method Put(mem: array<bv16>, p: nat, k: nat, lw: bv32)
    requires p + SECTOR <= mem.Length && k < LONGS
    modifies mem
    ensures Sector(mem, p) == old(Sector(mem, p))[k := lw]
    ensures Same(old(mem[..]), mem[..], p + 2 * k, p + 2 * k + 2)
  {
    hide Long, High, Low, Longs;
    LongsPut(mem[p..p + SECTOR], k, lw);
    mem[p + 2 * k], mem[p + 2 * k + 1] := High(lw), Low(lw);
    assert mem[p..p + SECTOR] == old(mem[p..p + SECTOR])[2 * k := High(lw)][2 * k + 1 := Low(lw)];
  }

  /** EncodeLongWord */
  method EncodeLongWord(mem: array<bv16>, p: nat, k: nat, lw: bv32)
    requires p + SECTOR <= mem.Length && 0 < k < LONGS - 1
    modifies mem
    ensures var s := old(Sector(mem, p));
            Sector(mem, p) == s[k := Encode(Half(lw), Last(s[k - 1]))][k + 1 := Encode(lw, Last(Half(lw)))]
    ensures Same(old(mem[..]), mem[..], p + 2 * k, p + 2 * k + 4)
  {
    hide Half, Encode, Decode, Clean, Last, Sector, Data, Long;
    SectorAt(mem, p, k - 1);
    Put(mem, p, k, Encode(Half(lw), Last(At(mem, p + 2 * k - 2))));
    Put(mem, p, k + 1, Encode(lw, Last(Half(lw))));
  }

  // --- the payload ----------------------------------------------------------------------------------

  function OddCode(raw: seq<bv32>, j: nat, one: bool): bv32
    requires j < |raw|
  {
    Encode(Half(raw[j]), if j == 0 then one else Last(Half(raw[j - 1])))
  }

  function EvenCode(raw: seq<bv32>, j: nat): bv32
    requires j < |raw|
  {
    Encode(raw[j], if j == 0 then Last(Half(raw[|raw| - 1])) else Last(raw[j - 1]))
  }

  /** The `j`th longword is encoded; `one` is the last bit before the payload. */
  ghost predicate CodedAt(sec: seq<bv32>, raw: seq<bv32>, j: nat, one: bool) {
    |sec| == LONGS && |raw| == RAW && j < RAW && sec[ODD + j] == OddCode(raw, j, one) && sec[EVEN + j] == EvenCode(raw, j)
  }

  ghost predicate Coded(sec: seq<bv32>, raw: seq<bv32>, a: nat, b: nat, one: bool) {
    forall j {:trigger CodedAt(sec, raw, j, one)} :: a <= j < b ==> CodedAt(sec, raw, j, one)
  }

  /** The sector holds these data. */
  ghost predicate Carries(sec: seq<bv32>, raw: seq<bv32>) {
    && |sec| == LONGS && |raw| == RAW
    && forall j {:trigger raw[j]} :: 0 <= j < RAW ==> raw[j] == Decode(sec[ODD + j], sec[EVEN + j])
  }

  ghost predicate CleanAt(sec: seq<bv32>, k: nat) {
    0 < k < |sec| && Clean(sec[k], Last(sec[k - 1]))
  }

  /** The clock bits of longwords `a` to `b` are right. */
  ghost predicate CleanPart(sec: seq<bv32>, a: nat, b: nat) {
    forall k {:trigger CleanAt(sec, k)} :: a <= k < b ==> CleanAt(sec, k)
  }

  lemma CodedCarries(sec: seq<bv32>, raw: seq<bv32>, one: bool)
    requires |sec| == LONGS && |raw| == RAW && Coded(sec, raw, 0, RAW, one)
    ensures Carries(sec, raw)
  {
    hide Half, Encode, Decode, Last;
    forall j {:trigger raw[j]} | 0 <= j < RAW ensures raw[j] == Decode(sec[ODD + j], sec[EVEN + j]) {
      assert CodedAt(sec, raw, j, one);
      RoundTrip(raw[j], if j == 0 then one else Last(Half(raw[j - 1])), if j == 0 then Last(Half(raw[|raw| - 1])) else Last(raw[j - 1]));
    }
  }

  /** What is decoded is what is there. */
  lemma CarriesOne(sec: seq<bv32>, raw: seq<bv32>, other: seq<bv32>)
    requires Carries(sec, raw) && Carries(sec, other)
    ensures raw == other
  {
    hide Decode;
    forall j | 0 <= j < RAW ensures raw[j] == other[j] {
      assert other[j] == Decode(sec[ODD + j], sec[EVEN + j]);
    }
  }

  lemma OddClean(sec: seq<bv32>, raw: seq<bv32>, one: bool, j: nat)
    requires CodedAt(sec, raw, j, one)
    ensures Clean(sec[ODD + j], if j == 0 then one else Last(Half(raw[j - 1]))) && Last(sec[ODD + j]) == Last(Half(raw[j]))
  {
    hide Half, Encode, Clean, Last, Data;
    EncodeIsClean(Half(raw[j]), if j == 0 then one else Last(Half(raw[j - 1])));
  }

  lemma EvenClean(sec: seq<bv32>, raw: seq<bv32>, one: bool, j: nat)
    requires CodedAt(sec, raw, j, one)
    ensures Clean(sec[EVEN + j], if j == 0 then Last(Half(raw[RAW - 1])) else Last(raw[j - 1])) && Last(sec[EVEN + j]) == Last(raw[j])
  {
    hide Half, Encode, Clean, Last, Data;
    EncodeIsClean(raw[j], if j == 0 then Last(Half(raw[RAW - 1])) else Last(raw[j - 1]));
  }

  lemma CodedClean(sec: seq<bv32>, raw: seq<bv32>, one: bool)
    requires |sec| == LONGS && |raw| == RAW && Coded(sec, raw, 0, RAW, one) && one == Last(sec[ODD - 1])
    ensures CleanPart(sec, ODD, LONGS)
  {
    hide Half, Encode, Clean, Last, CodedAt, OddCode, EvenCode;
    forall k {:trigger CleanAt(sec, k)} | ODD <= k < LONGS ensures CleanAt(sec, k) {
      if k < EVEN {
        OddClean(sec, raw, one, k - ODD);
        if k > ODD { OddClean(sec, raw, one, k - ODD - 1); }
      } else {
        EvenClean(sec, raw, one, k - EVEN);
        if k > EVEN { EvenClean(sec, raw, one, k - EVEN - 1); } else { OddClean(sec, raw, one, RAW - 1); }
      }
    }
  }

  lemma CodedMore(sec: seq<bv32>, raw: seq<bv32>, k: nat)
    requires |sec| == LONGS && |raw| == RAW && 1 <= k < RAW && Coded(sec, raw, 1, k, false)
    ensures Coded(sec[ODD + k := OddCode(raw, k, false)][EVEN + k := EvenCode(raw, k)], raw, 1, k + 1, false)
  {
    hide OddCode, EvenCode;
    var s := sec[ODD + k := OddCode(raw, k, false)][EVEN + k := EvenCode(raw, k)];
    forall j {:trigger CodedAt(s, raw, j, false)} | 1 <= j < k + 1 ensures CodedAt(s, raw, j, false) {
      if j < k { assert CodedAt(sec, raw, j, false); }
    }
  }

  /** The first longwords come last, when what is before them is known. */
  lemma CodedFirst(sec: seq<bv32>, raw: seq<bv32>, check: bv32, one: bool)
    requires |sec| == LONGS && |raw| == RAW && Coded(sec, raw, 1, RAW, false)
    ensures var s := Checked(sec, check); Coded(s[ODD := OddCode(raw, 0, one)][EVEN := EvenCode(raw, 0)], raw, 0, RAW, one)
  {
    hide Half, Encode, Last;
    var s := Checked(sec, check)[ODD := OddCode(raw, 0, one)][EVEN := EvenCode(raw, 0)];
    forall j {:trigger CodedAt(s, raw, j, one)} | 0 <= j < RAW ensures CodedAt(s, raw, j, one) {
      if j > 0 { assert CodedAt(sec, raw, j, false); }
    }
  }

  /** The sector with an encoded checksum of its payload */
  function Checked(sec: seq<bv32>, check: bv32): (r: seq<bv32>)
    requires |sec| == LONGS
    ensures |r| == LONGS
  {
    sec[CHECKSUM := Encode(Half(check), Last(sec[CHECKSUM - 1]))][CHECKSUM + 1 := Encode(check, Last(Half(check)))]
  }

  lemma CheckedClean(sec: seq<bv32>, check: bv32)
    requires |sec| == LONGS
    ensures var s := Checked(sec, check);
            && Clean(s[CHECKSUM], Last(s[CHECKSUM - 1])) && Clean(s[CHECKSUM + 1], Last(s[CHECKSUM])) && Last(s[CHECKSUM + 1]) == Last(check)
            && Decode(s[CHECKSUM], s[CHECKSUM + 1]) == check
  {
    hide Half, Encode, Decode, Clean, Last, Data;
    EncodeIsClean(Half(check), Last(sec[CHECKSUM - 1]));
    EncodeIsClean(check, Last(Half(check)));
    RoundTrip(check, Last(sec[CHECKSUM - 1]), Last(Half(check)));
  }

  lemma FirstSum(lw: bv32)
    ensures var c := Xor(Data(Half(lw)), Data(lw)); Data(c) == Sum([lw])
  {
    hide Xor, Data, Half;
    SumOne([], lw);
    assert [] + [lw] == [lw];
    NothingXor(Xor(Data(Half(lw)), Data(lw)));
    XorData(Data(Half(lw)), Data(lw));
    DataOfData(Half(lw));
    DataOfData(lw);
  }

  lemma NothingXor(a: bv32)
    ensures Xor(0, a) == a
  {
  }

  /** The sector carries the data and their checksum, and all clock bits are right from there on. */
  ghost predicate Sealed(sec: seq<bv32>, raw: seq<bv32>) {
    && Carries(sec, raw) && Parity(Decode(sec[CHECKSUM], sec[CHECKSUM + 1]), HalvesOf(raw))
    && CleanPart(sec, CHECKSUM, LONGS)
  }

  lemma EncodedIsSealed(sec: seq<bv32>, raw: seq<bv32>, chksum: bv32)
    requires |sec| == LONGS && |raw| == RAW && Coded(sec, raw, 1, RAW, false) && Data(chksum) == Sum(raw)
    ensures Sealed(Checked(sec, Data(chksum))[ODD := OddCode(raw, 0, Last(chksum))][EVEN := EvenCode(raw, 0)], raw)
  {
    hide Half, Encode, Decode, Clean, Last, Data, Sum, Coded, Carries, OddCode, EvenCode, Checked, Parity, HalvesOf;
    var checked := Checked(sec, Data(chksum));
    var s := checked[ODD := OddCode(raw, 0, Last(chksum))][EVEN := EvenCode(raw, 0)];
    CodedFirst(sec, raw, Data(chksum), Last(chksum));
    CheckedClean(sec, Data(chksum));
    DataOfData(chksum);
    CodedCarries(s, raw, Last(chksum));
    CodedClean(s, raw, Last(chksum));
    SumParity(raw);
    assert CleanAt(s, CHECKSUM) && CleanAt(s, CHECKSUM + 1);
  }

  /** EncodeSector: only the payload and its checksum change. */
  method EncodeSector(raw: array<bv32>, mem: array<bv16>, p: nat)
    requires p + SECTOR <= mem.Length && raw.Length == RAW
    modifies mem
    ensures Sealed(Sector(mem, p), raw[..]) && Same(old(mem[..]), mem[..], p + 2 * CHECKSUM, p + SECTOR)
  {
    hide Half, Encode, Decode, Last, Data, Xor, Sum, Coded, OddCode, EvenCode, Sealed, Sector, Same;
    ghost var words := raw[..];
    var first := raw[0];
    var chksum := Xor(Data(Half(first)), Data(first));
    var prev := first;
    var k := 1;
    FirstSum(first);
    NothingCoded(Sector(mem, p), words);
    SameRefl(mem[..], p + 2 * CHECKSUM, p + SECTOR);
    assert words[..1] == [first];
    while k < RAW
      invariant 1 <= k <= RAW && raw[..] == words && prev == words[k - 1]
      invariant Coded(Sector(mem, p), words, 1, k, false) && Data(chksum) == Sum(words[..k])
      invariant Same(old(mem[..]), mem[..], p + 2 * CHECKSUM, p + SECTOR)
    {
      var lw := raw[k];
      var odd := Encode(Half(lw), Last(Half(prev)));
      var even := Encode(lw, Last(prev));
      CodeAgain(words, k);
      EncodeIsClean(Half(lw), Last(Half(prev)));
      EncodeIsClean(lw, Last(prev));
      RunningSum(words[..k], lw, chksum, odd, even);
      assert words[..k + 1] == words[..k] + [lw];
      CodedMore(Sector(mem, p), words, k);
      chksum := Xor(chksum, Xor(odd, even));
      PutTwo(mem, p, ODD + k, odd, EVEN + k, even, old(mem[..]));
      prev := lw;
      k := k + 1;
    }
    assert words[..RAW] == words;
    EncodedIsSealed(Sector(mem, p), words, chksum);
    EncodeChecksum(mem, p, Data(chksum), old(mem[..]));
    PutTwo(mem, p, ODD, Encode(Half(first), Last(chksum)), EVEN, Encode(first, Last(Half(prev))), old(mem[..]));
    CodeFirst(words, Last(chksum));
  }

  method EncodeChecksum(mem: array<bv16>, p: nat, check: bv32, ghost mem0: seq<bv16>)
    requires p + SECTOR <= mem.Length && Same(mem0, mem[..], p + 2 * CHECKSUM, p + SECTOR)
    modifies mem
    ensures Sector(mem, p) == Checked(old(Sector(mem, p)), check) && Same(mem0, mem[..], p + 2 * CHECKSUM, p + SECTOR)
  {
    hide Half, Encode, Last, Sector;
    EncodeLongWord(mem, p, CHECKSUM, check);
  }

  /** Write two longwords of the payload. */
  method PutTwo(mem: array<bv16>, p: nat, k: nat, x: bv32, l: nat, y: bv32, ghost mem0: seq<bv16>)
    requires p + SECTOR <= mem.Length && ODD <= k < LONGS && ODD <= l < LONGS && Same(mem0, mem[..], p + 2 * CHECKSUM, p + SECTOR)
    modifies mem
    ensures Sector(mem, p) == old(Sector(mem, p))[k := x][l := y] && Same(mem0, mem[..], p + 2 * CHECKSUM, p + SECTOR)
  {
    hide Sector;
    Put(mem, p, k, x);
    Put(mem, p, l, y);
  }

  lemma SameRefl(mem: seq<bv16>, a: nat, b: nat)
    ensures Same(mem, mem, a, b)
  {
  }

  lemma NothingCoded(sec: seq<bv32>, raw: seq<bv32>)
    ensures Coded(sec, raw, 1, 1, false)
  {
  }

  lemma CodeAgain(raw: seq<bv32>, k: nat)
    requires 0 < k < |raw|
    ensures Encode(Half(raw[k]), Last(Half(raw[k - 1]))) == OddCode(raw, k, false) && Encode(raw[k], Last(raw[k - 1])) == EvenCode(raw, k)
  {
    hide Half, Encode, Last;
  }

  lemma CodeFirst(raw: seq<bv32>, one: bool)
    requires |raw| > 0
    ensures OddCode(raw, 0, one) == Encode(Half(raw[0]), one) && EvenCode(raw, 0) == Encode(raw[0], Last(Half(raw[|raw| - 1])))
  {
    hide Half, Encode, Last;
  }

  /** DecodeSector: `sound` tells whether the checksum of the payload agrees. */
  method DecodeSector(mem: array<bv16>, p: nat, buf: array<bv32>) returns (sound: bool)
    requires p + SECTOR <= mem.Length && buf.Length == RAW
    modifies buf
    ensures var sec := Sector(mem, p); Carries(sec, buf[..]) && (sound <==> Parity(Decode(sec[CHECKSUM], sec[CHECKSUM + 1]), HalvesOf(buf[..])))
  {
    hide Half, Decode, Data, Xor, Sum, Long, Sector, Parity, HalvesOf;
    ghost var sec := Sector(mem, p);
    var chksum: bv32 := 0;
    var k := 0;
    EmptySum();
    ghost var done: seq<bv32> := [];
    while k < RAW
      invariant k <= RAW && k % 2 == 0 && |done| == k && Data(chksum) == Sum(done)
      invariant forall j {:trigger done[j]} :: 0 <= j < k ==> buf[j] == done[j] && done[j] == Decode(sec[ODD + j], sec[EVEN + j])
    {
      var odd0, odd1 := At(mem, p + 2 * (ODD + k)), At(mem, p + 2 * (ODD + k + 1));
      var even0, even1 := At(mem, p + 2 * (EVEN + k)), At(mem, p + 2 * (EVEN + k + 1));
      FourAt(mem, p, k);
      buf[k] := Decode(odd0, even0);
      buf[k + 1] := Decode(odd1, even1);
      DecodedHalves(odd0, even0);
      DecodedHalves(odd1, even1);
      RunningSum(done, Decode(odd0, even0), chksum, odd0, even0);
      chksum := Xor(chksum, Xor(odd0, even0));
      done := done + [Decode(odd0, even0)];
      RunningSum(done, Decode(odd1, even1), chksum, odd1, even1);
      chksum := Xor(chksum, Xor(odd1, even1));
      done := done + [Decode(odd1, even1)];
      k := k + 2;
    }
    assert done == buf[..];
    SectorAt(mem, p, CHECKSUM);
    SectorAt(mem, p, CHECKSUM + 1);
    sound := Data(chksum) == Decode(At(mem, p + 2 * CHECKSUM), At(mem, p + 2 * CHECKSUM + 2));
    ParityExactly(Decode(sec[CHECKSUM], sec[CHECKSUM + 1]), done);
  }

  lemma ParityExactly(chksum: bv32, raw: seq<bv32>)
    ensures Parity(chksum, HalvesOf(raw)) <==> chksum == Sum(raw)
  {
    hide Parity, HalvesOf, Sum;
    SumParity(raw);
    if Parity(chksum, HalvesOf(raw)) { ParityUnique(chksum, Sum(raw), HalvesOf(raw)); }
  }

  lemma FourAt(mem: array<bv16>, p: nat, k: nat)
    requires p + SECTOR <= mem.Length && k + 1 < RAW
    ensures var sec := Sector(mem, p);
            && At(mem, p + 2 * (ODD + k)) == sec[ODD + k] && At(mem, p + 2 * (ODD + k + 1)) == sec[ODD + k + 1]
            && At(mem, p + 2 * (EVEN + k)) == sec[EVEN + k] && At(mem, p + 2 * (EVEN + k + 1)) == sec[EVEN + k + 1]
  {
    hide Sector, Long;
    SectorAt(mem, p, ODD + k);
    SectorAt(mem, p, ODD + k + 1);
    SectorAt(mem, p, EVEN + k);
    SectorAt(mem, p, EVEN + k + 1);
  }

  lemma EmptySum()
    ensures Data(0) == 0 && Sum([]) == 0
  {
  }

  /** EncodeSector and then DecodeSector */
  method EncodeDecode(raw: array<bv32>, mem: array<bv16>, p: nat, buf: array<bv32>) returns (sound: bool)
    requires p + SECTOR <= mem.Length && raw.Length == RAW == buf.Length && raw != buf
    modifies mem, buf
    ensures sound && buf[..] == raw[..] == old(raw[..])
  {
    hide Decode, Parity, HalvesOf, Carries, CleanPart, Sector;
    EncodeSector(raw, mem, p);
    sound := DecodeSector(mem, p, buf);
    CarriesOne(Sector(mem, p), raw[..], buf[..]);
  }
}
