/** The MFM code of drivers/floppy-mfm.c: every data bit of a longword is preceded by a clock bit, which
    is one exactly when the data bits on both sides are zero. */
module Mfm {
  /** The data bits of an encoded longword */
  function Data(lw: bv32): bv32 { lw & 0x5555_5555 }

  function Decode(odd: bv32, even: bv32): bv32 { (Data(odd) << 1) | Data(even) }

  /** A longword without its last bit, which leaves the odd bits in the data places */
  function Half(lw: bv32): bv32 { lw >> 1 }

  /** The last bit of a longword: all that the code of the next one depends on */
  predicate Last(lw: bv32) { lw & 1 != 0 }

  function Clocks(data: bv32, one: bool): bv32 {
    if one then ((data >> 1) | 0x8000_0000 | (data << 1)) ^ 0xAAAA_AAAA else ((data >> 1) | (data << 1)) ^ 0xAAAA_AAAA
  }

  /** Encode, after a longword that ends in a one or not */
  function Encode(lw: bv32, one: bool): bv32 { Data(lw) | Clocks(Data(lw), one) }

  /** UpdateMSB: the first clock bit again, now that the bit before it is known */
  function Updated(lw: bv32, one: bool): bv32 {
    if lw & 0x4000_0000 != 0 then lw else if one then lw & 0x7fff_ffff else lw | 0x8000_0000
  }

  /** The test of VerifyTrackEncoding: no two ones and no three zeros in a row */
  predicate Verified(lw: bv32, one: bool) {
    && lw & (lw >> 1) == 0
    && ((lw | (lw >> 1) | (lw >> 2)) & 0x5555_5555) | (if one then 0x4000_0000 else 0) == 0x5555_5555
  }

  /** No two ones in a row where two longwords meet. VerifyTrackEncoding does not look there. */
  predicate Apart(lw: bv32, one: bool) { !one || lw & 0x8000_0000 == 0 }

  predicate Clean(lw: bv32, one: bool) { Verified(lw, one) && Apart(lw, one) }

  /** So it accepts a wrong code exactly if a longword begins with a one behind a longword that ends in one. */
  lemma VerifiedIsWeaker(lw: bv32, one: bool)
    ensures Verified(lw, one) && !Clean(lw, one) <==> Verified(lw, one) && one && lw & 0x8000_0000 != 0
    ensures Verified(0xAAAA_AAAA, true) && !Clean(0xAAAA_AAAA, true)
  {
  }

  lemma EncodeIsClean(lw: bv32, one: bool)
    ensures Clean(Encode(lw, one), one) && Data(Encode(lw, one)) == Data(lw) && Last(Encode(lw, one)) == Last(lw)
  {
    hide Encode;
    NoTwoOnes(lw, one);
    NoThreeZeros(lw, one);
    DataKept(lw, one);
  }

  lemma NoTwoOnes(lw: bv32, one: bool)
    ensures Encode(lw, one) & (Encode(lw, one) >> 1) == 0 && Apart(Encode(lw, one), one)
  {
  }

  lemma NoThreeZeros(lw: bv32, one: bool)
    ensures var e := Encode(lw, one);
            ((e | (e >> 1) | (e >> 2)) & 0x5555_5555) | (if one then 0x4000_0000 else 0) == 0x5555_5555
  {
  }

  lemma DataKept(lw: bv32, one: bool)
    ensures Data(Encode(lw, one)) == Data(lw) && Last(Encode(lw, one)) == Last(lw)
  {
  }

  lemma CleanIsEncoded(lw: bv32, one: bool)
    ensures Clean(lw, one) <==> lw == Encode(lw, one)
  {
    hide *;
    EncodeIsClean(lw, one);
    if Clean(lw, one) {
      if one { CleanAfterOne(lw); } else { CleanAfterZero(lw); }
    }
  }

  lemma CleanAfterOne(lw: bv32)
    requires Clean(lw, true)
    ensures lw == Encode(lw, true)
  {
    ClocksAfterOne(lw);
  }

  lemma CleanAfterZero(lw: bv32)
    requires Clean(lw, false)
    ensures lw == Encode(lw, false)
  {
    ClocksAfterZero(lw);
  }

  lemma ClocksAfterOne(lw: bv32)
    requires lw & (lw >> 1) == 0 && lw & 0x8000_0000 == 0
    requires ((lw | (lw >> 1) | (lw >> 2)) & 0x5555_5555) | 0x4000_0000 == 0x5555_5555
    ensures lw == (lw & 0x5555_5555) | ((((lw & 0x5555_5555) >> 1) | 0x8000_0000 | ((lw & 0x5555_5555) << 1)) ^ 0xAAAA_AAAA)
  {
  }

  lemma ClocksAfterZero(lw: bv32)
    requires lw & (lw >> 1) == 0
    requires (lw | (lw >> 1) | (lw >> 2)) & 0x5555_5555 == 0x5555_5555
    ensures lw == (lw & 0x5555_5555) | ((((lw & 0x5555_5555) >> 1) | ((lw & 0x5555_5555) << 1)) ^ 0xAAAA_AAAA)
  {
  }

  lemma RoundTrip(lw: bv32, p: bool, q: bool)
    ensures Decode(Encode(Half(lw), p), Encode(lw, q)) == lw
  {
    hide Data, Half, Encode;
    DataKept(Half(lw), p);
    DataKept(lw, q);
    Halves(lw);
  }

  lemma Halves(lw: bv32)
    ensures (Data(Half(lw)) << 1) | Data(lw) == lw
  {
  }

  lemma EncodeData(lw: bv32, other: bv32, one: bool)
    requires Data(lw) == Data(other)
    ensures Encode(lw, one) == Encode(other, one)
  {
    hide Data, Clocks;
  }

  lemma DecodeData(odd: bv32, even: bv32, odd1: bv32, even1: bv32)
    requires Data(odd) == Data(odd1) && Data(even) == Data(even1)
    ensures Decode(odd, even) == Decode(odd1, even1)
  {
    hide Data;
  }

  lemma UpdatedKeeps(lw: bv32, one: bool)
    ensures Data(Updated(lw, one)) == Data(lw) && Last(Updated(lw, one)) == Last(lw)
  {
  }

  lemma UpdatedIsClean(lw: bv32, one: bool)
    requires Inside(lw)
    ensures Clean(Updated(lw, one), one)
  {
    hide Clean, Inside;
    if lw & 0x4000_0000 != 0 {
      StartsWithData(lw, one);
    } else if one {
      ClockCleared(lw);
    } else {
      ClockSet(lw);
    }
  }

  /** What a clean longword is like wherever it stands */
  predicate Inside(lw: bv32) {
    lw & (lw >> 1) == 0 && ((lw | (lw >> 1) | (lw >> 2)) & 0x5555_5555) | 0x4000_0000 == 0x5555_5555
  }

  lemma CleanInside(lw: bv32, one: bool)
    requires Clean(lw, one)
    ensures Inside(lw)
  {
    if !one { Weaker((lw | (lw >> 1) | (lw >> 2)) & 0x5555_5555); }
  }

  lemma Weaker(zeros: bv32)
    requires zeros | 0 == 0x5555_5555
    ensures zeros | 0x4000_0000 == 0x5555_5555
  {
  }

  lemma StartsWithData(lw: bv32, one: bool)
    requires Inside(lw) && lw & 0x4000_0000 != 0
    ensures Clean(lw, one)
  {
  }

  lemma ClockCleared(lw: bv32)
    requires Inside(lw)
    ensures Clean(lw & 0x7fff_ffff, true)
  {
  }

  lemma ClockSet(lw: bv32)
    requires Inside(lw) && lw & 0x4000_0000 == 0
    ensures Clean(lw | 0x8000_0000, false)
  {
  }

  /** Mending the first clock bit is as good as encoding anew. */
  lemma UpdatedIsEncoded(lw: bv32, p: bool, q: bool)
    ensures Updated(Encode(lw, p), q) == Encode(lw, q)
  {
    hide *;
    EncodeIsClean(lw, p);
    CleanInside(Encode(lw, p), p);
    UpdatedIsClean(Encode(lw, p), q);
    UpdatedKeeps(Encode(lw, p), q);
    CleanIsEncoded(Updated(Encode(lw, p), q), q);
    EncodeData(Updated(Encode(lw, p), q), lw, q);
  }

  // --- checksums: exclusive or over the data bits ---------------------------------------------------

  function Xor(a: bv32, b: bv32): bv32 { a ^ b }

  lemma XorData(a: bv32, b: bv32)
    ensures Data(Xor(a, b)) == Xor(Data(a), Data(b))
  {
  }

  lemma DataOfData(a: bv32)
    ensures Data(Data(a)) == Data(a) && Last(Data(a)) == Last(a)
  {
  }

  /** The data bits of a longword are those of its two encoded halves. */
  lemma DecodedHalves(odd: bv32, even: bv32)
    ensures Data(Half(Decode(odd, even))) == Data(odd) && Data(Decode(odd, even)) == Data(even)
  {
  }

  /** The checksum of some longwords */
  function Sum(raw: seq<bv32>): bv32 {
    if raw == [] then 0 else Xor(Sum(raw[..|raw| - 1]), Xor(Data(Half(raw[|raw| - 1])), Data(raw[|raw| - 1])))
  }

  lemma SumOne(raw: seq<bv32>, lw: bv32)
    ensures Sum(raw + [lw]) == Xor(Sum(raw), Xor(Data(Half(lw)), Data(lw)))
  {
    hide Xor, Data;
    assert (raw + [lw])[..|raw|] == raw;
  }

  lemma RunningSum(raw: seq<bv32>, lw: bv32, chksum: bv32, odd: bv32, even: bv32)
    requires Data(chksum) == Sum(raw) && Data(odd) == Data(Half(lw)) && Data(even) == Data(lw)
    ensures Data(Xor(chksum, Xor(odd, even))) == Sum(raw + [lw])
  {
    hide Xor, Data, Sum;
    XorData(chksum, Xor(odd, even));
    XorData(odd, even);
    SumOne(raw, lw);
  }

  // --- what a checksum is, bit by bit ----------------------------------------------------------------

  predicate IsDataBit(m: bv32) { m != 0 && m & (m - 1) == 0 && m & 0x5555_5555 == m }

  predicate Has(w: bv32, m: bv32) { w & m != 0 }

  /** The number of words that have the bit `m` */
  function With(words: seq<bv32>, m: bv32): nat {
    if words == [] then 0 else With(words[..|words| - 1], m) + if Has(words[|words| - 1], m) then 1 else 0
  }

  predicate NoClocks(w: bv32) { w & 0xAAAA_AAAA == 0 }

  /** A data bit of a checksum is one exactly if an odd number of the words have it; it has no clock bits. */
  ghost predicate Parity(chksum: bv32, words: seq<bv32>) {
    NoClocks(chksum) && forall m {:trigger With(words, m)} :: IsDataBit(m) ==> (Has(chksum, m) <==> With(words, m) % 2 == 1)
  }

  /** The two halves of every longword, as they are encoded */
  function HalvesOf(raw: seq<bv32>): seq<bv32> {
    if raw == [] then [] else HalvesOf(raw[..|raw| - 1]) + [raw[|raw| - 1] >> 1, raw[|raw| - 1]]
  }

  lemma XorBit(a: bv32, b: bv32, m: bv32)
    requires IsDataBit(m)
    ensures Has(Xor(a, b), m) <==> Has(a, m) != Has(b, m)
  {
    BitOrNot(a, m);
    BitOrNot(b, m);
    XorMasked(a, b, m);
  }

  lemma BitOrNot(a: bv32, m: bv32)
    requires m != 0 && m & (m - 1) == 0
    ensures a & m == 0 || a & m == m
  {
  }

  lemma XorMasked(a: bv32, b: bv32, m: bv32)
    ensures (a ^ b) & m == (a & m) ^ (b & m)
  {
  }

  lemma DataHas(a: bv32, m: bv32)
    requires IsDataBit(m)
    ensures Has(Data(a), m) <==> Has(a, m)
  {
    DataMasked(a, m);
  }

  lemma DataMasked(a: bv32, m: bv32)
    requires m & 0x5555_5555 == m
    ensures (a & 0x5555_5555) & m == a & m
  {
  }

  lemma WithOne(words: seq<bv32>, w: bv32, m: bv32)
    ensures With(words + [w], m) == With(words, m) + if Has(w, m) then 1 else 0
  {
    hide Has;
    assert (words + [w])[..|words|] == words;
  }

  lemma HalvesBit(sum: bv32, half: bv32, lw: bv32, m: bv32)
    requires IsDataBit(m)
    ensures Has(Xor(sum, Xor(Data(half), Data(lw))), m) <==> Has(sum, m) != (Has(half, m) != Has(lw, m))
  {
    hide IsDataBit, Has, Xor, Data;
    XorBit(sum, Xor(Data(half), Data(lw)), m);
    XorBit(Data(half), Data(lw), m);
    DataHas(half, m);
    DataHas(lw, m);
  }

  lemma HalvesWith(words: seq<bv32>, half: bv32, lw: bv32, m: bv32)
    ensures With(words + [half, lw], m) == With(words, m) + (if Has(half, m) then 1 else 0) + (if Has(lw, m) then 1 else 0)
  {
    hide With, Has;
    WithOne(words, half, m);
    WithOne(words + [half], lw, m);
    assert words + [half] + [lw] == words + [half, lw];
  }

  lemma {:induction false} SumBit(raw: seq<bv32>, m: bv32)
    requires IsDataBit(m)
    ensures Has(Sum(raw), m) <==> With(HalvesOf(raw), m) % 2 == 1
  {
    hide IsDataBit, Has, Xor, Data;
    if raw == [] {
      NoBit(m);
    } else {
      var before, lw := raw[..|raw| - 1], raw[|raw| - 1];
      SumBit(before, m);
      HalvesBit(Sum(before), Half(lw), lw, m);
      HalvesWith(HalvesOf(before), Half(lw), lw, m);
    }
  }

  lemma NoBit(m: bv32)
    ensures !Has(0, m) && NoClocks(0)
  {
  }

  lemma DataNoClocks(a: bv32)
    ensures NoClocks(Data(a))
  {
  }

  lemma XorNoClocks(a: bv32, b: bv32)
    requires NoClocks(a) && NoClocks(b)
    ensures NoClocks(Xor(a, b))
  {
  }

  lemma {:induction false} SumNoClocks(raw: seq<bv32>)
    ensures NoClocks(Sum(raw))
  {
    hide NoClocks, Xor, Data, Half;
    if raw == [] {
      NoBit(0);
    } else {
      var before, lw := raw[..|raw| - 1], raw[|raw| - 1];
      SumNoClocks(before);
      DataNoClocks(Half(lw));
      DataNoClocks(lw);
      XorNoClocks(Data(Half(lw)), Data(lw));
      XorNoClocks(Sum(before), Xor(Data(Half(lw)), Data(lw)));
    }
  }

  /** The checksum of a payload */
  lemma SumParity(raw: seq<bv32>)
    ensures Parity(Sum(raw), HalvesOf(raw))
  {
    hide IsDataBit, Has, NoClocks, Sum, With, HalvesOf;
    SumNoClocks(raw);
    forall m {:trigger With(HalvesOf(raw), m)} | IsDataBit(m) ensures Has(Sum(raw), m) <==> With(HalvesOf(raw), m) % 2 == 1 {
      SumBit(raw, m);
    }
  }

  lemma ParityBit(chksum: bv32, words: seq<bv32>, m: bv32)
    requires Parity(chksum, words) && IsDataBit(m)
    ensures Has(chksum, m) <==> With(words, m) % 2 == 1
  {
    hide IsDataBit, Has, With, NoClocks;
    var n := With(words, m);
  }

  /** There is one such checksum only. */
  lemma ParityUnique(a: bv32, b: bv32, words: seq<bv32>)
    requires Parity(a, words) && Parity(b, words)
    ensures a == b
  {
    hide IsDataBit, Has, NoClocks, With;
    if a != b {
      var m := Difference(a, b);
      hide Parity;
      ParityBit(a, words, m);
      ParityBit(b, words, m);
    }
  }

  /** The lowest bit in which two words differ */
  lemma Difference(a: bv32, b: bv32) returns (m: bv32)
    requires a != b && NoClocks(a) && NoClocks(b)
    ensures IsDataBit(m) && Has(a, m) != Has(b, m)
  {
    hide IsDataBit, Has, NoClocks;
    m := (a ^ b) & (0 - (a ^ b));
    LowestIsBit(a, b);
    LowestDiffers(a, b);
  }

  lemma LowestIsBit(a: bv32, b: bv32)
    requires a != b && NoClocks(a) && NoClocks(b)
    ensures IsDataBit((a ^ b) & (0 - (a ^ b)))
  {
  }

  lemma LowestDiffers(a: bv32, b: bv32)
    requires a != b
    ensures Has(a, (a ^ b) & (0 - (a ^ b))) != Has(b, (a ^ b) & (0 - (a ^ b)))
  {
  }
}
