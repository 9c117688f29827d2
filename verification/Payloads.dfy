/** The payload of a sector as bytes. A request is in bytes (drivers/floppy.c), the codec of
    drivers/floppy-mfm.c works on longwords, most significant byte first. */
module Payloads {
  import opened Mfm
  import opened Sectors
  import opened TrackRewriting

  type Byte = bv8

  const SECTOR_SIZE: nat := 512

  function ByteOf(lw: bv32, j: nat): Byte
    requires j < 4
  {
    if j == 0 then ((lw >> 24) & 0xff) as bv8 else if j == 1 then ((lw >> 16) & 0xff) as bv8
    else if j == 2 then ((lw >> 8) & 0xff) as bv8 else (lw & 0xff) as bv8
  }

  /** One byte of a longword is written. */
  function WithByte(lw: bv32, j: nat, b: Byte): bv32
    requires j < 4
  {
    if j == 0 then (lw & 0x00ff_ffff) | ((b as bv32) << 24) else if j == 1 then (lw & 0xff00_ffff) | ((b as bv32) << 16)
    else if j == 2 then (lw & 0xffff_00ff) | ((b as bv32) << 8) else (lw & 0xffff_ff00) | (b as bv32)
  }

  lemma ByteWritten(lw: bv32, j: nat, b: Byte, i: nat)
    requires j < 4 && i < 4
    ensures ByteOf(WithByte(lw, j, b), i) == if i == j then b else ByteOf(lw, i)
  {
    if j == 0 { FirstWritten(lw, b, i); } else if j == 1 { SecondWritten(lw, b, i); }
    else if j == 2 { ThirdWritten(lw, b, i); } else { FourthWritten(lw, b, i); }
  }

  lemma FirstWritten(lw: bv32, b: Byte, i: nat)
    requires i < 4
    ensures ByteOf((lw & 0x00ff_ffff) | ((b as bv32) << 24), i) == if i == 0 then b else ByteOf(lw, i)
  {
  }

  lemma SecondWritten(lw: bv32, b: Byte, i: nat)
    requires i < 4
    ensures ByteOf((lw & 0xff00_ffff) | ((b as bv32) << 16), i) == if i == 1 then b else ByteOf(lw, i)
  {
  }

  lemma ThirdWritten(lw: bv32, b: Byte, i: nat)
    requires i < 4
    ensures ByteOf((lw & 0xffff_00ff) | ((b as bv32) << 8), i) == if i == 2 then b else ByteOf(lw, i)
  {
  }

  lemma FourthWritten(lw: bv32, b: Byte, i: nat)
    requires i < 4
    ensures ByteOf((lw & 0xffff_ff00) | (b as bv32), i) == if i == 3 then b else ByteOf(lw, i)
  {
  }

  /** The bytes of some longwords, in the order of the memory */
  function BytesOf(raw: seq<bv32>): (r: seq<Byte>)
    ensures |r| == 4 * |raw| && forall i {:trigger r[i]} :: 0 <= i < |r| ==> r[i] == ByteOf(raw[i / 4], i % 4)
  {
    seq(4 * |raw|, i requires 0 <= i < 4 * |raw| => ByteOf(raw[i / 4], i % 4))
  }

  lemma OneByte(raw: seq<bv32>, a: nat, b: Byte)
    requires a < 4 * |raw|
    ensures BytesOf(raw[a / 4 := WithByte(raw[a / 4], a % 4, b)]) == BytesOf(raw)[a := b]
  {
    hide ByteOf, WithByte;
    var r := raw[a / 4 := WithByte(raw[a / 4], a % 4, b)];
    forall i | 0 <= i < 4 * |raw| ensures BytesOf(r)[i] == BytesOf(raw)[a := b][i] {
      ByteWritten(raw[a / 4], a % 4, b, i % 4);
    }
  }

  /** A file of bytes after `data` were written at `offset` */
  function Overwritten(bytes: seq<Byte>, offset: nat, data: seq<Byte>): (r: seq<Byte>)
    requires offset + |data| <= |bytes|
    ensures |r| == |bytes|
  {
    bytes[..offset] + data + bytes[offset + |data|..]
  }

  lemma OverwriteOne(bytes: seq<Byte>, offset: nat, data: seq<Byte>, b: Byte)
    requires offset + |data| < |bytes|
    ensures Overwritten(bytes, offset, data)[offset + |data| := b] == Overwritten(bytes, offset, data + [b])
  {
  }

  /** memcpy into a decoded sector */
  method CopyIn(raw: array<bv32>, o: nat, data: seq<Byte>)
    requires raw.Length == RAW && o + |data| <= SECTOR_SIZE
    modifies raw
    ensures BytesOf(raw[..]) == Overwritten(old(BytesOf(raw[..])), o, data)
  {
    hide ByteOf, WithByte;
    ghost var bytes := BytesOf(raw[..]);
    var k := 0;
    while k < |data|
      invariant k <= |data| && BytesOf(raw[..]) == Overwritten(bytes, o, data[..k])
    {
      OneByte(raw[..], o + k, data[k]);
      OverwriteOne(bytes, o, data[..k], data[k]);
      assert data[..k + 1] == data[..k] + [data[k]];
      ghost var words := raw[..];
      raw[(o + k) / 4] := WithByte(raw[(o + k) / 4], (o + k) % 4, data[k]);
      assert raw[..] == words[(o + k) / 4 := WithByte(words[(o + k) / 4], (o + k) % 4, data[k])];
      k := k + 1;
    }
    assert data[..k] == data;
  }

  /** memcpy out of it */
  method CopyOut(raw: array<bv32>, o: nat, n: nat) returns (data: seq<Byte>)
    requires raw.Length == RAW && o + n <= SECTOR_SIZE
    ensures data == BytesOf(raw[..])[o..o + n]
  {
    hide ByteOf;
    data := [];
    var k := 0;
    while k < n
      invariant k <= n && data == BytesOf(raw[..])[o..o + k]
    {
      data := data + [ByteOf(raw[(o + k) / 4], (o + k) % 4)];
      k := k + 1;
    }
  }

  // --- what a sector holds --------------------------------------------------------------------------

  /** What DecodeSector finds in a sector */
  function Payload(sec: seq<bv32>): (raw: seq<bv32>)
    requires |sec| == LONGS
    ensures |raw| == RAW && forall j {:trigger raw[j]} :: 0 <= j < RAW ==> raw[j] == Decode(sec[ODD + j], sec[EVEN + j])
  {
    seq(RAW, j requires 0 <= j < RAW => Decode(sec[ODD + j], sec[EVEN + j]))
  }

  function PayloadBytes(sec: seq<bv32>): (r: seq<Byte>)
    requires |sec| == LONGS
    ensures |r| == SECTOR_SIZE
  {
    BytesOf(Payload(sec))
  }

  lemma PayloadIs(sec: seq<bv32>, raw: seq<bv32>)
    requires |sec| == LONGS
    ensures Carries(sec, raw) <==> raw == Payload(sec)
  {
    hide Decode;
  }

  lemma SamePayloadBytes(sec: seq<bv32>, r: seq<bv32>)
    requires SamePayload(sec, r)
    ensures |sec| == LONGS == |r| && PayloadBytes(r) == PayloadBytes(sec)
  {
    hide Carries;
    PayloadIs(sec, Payload(sec));
    assert Carries(r, Payload(sec));
    PayloadIs(r, Payload(sec));
  }

  lemma SealedBytes(sec: seq<bv32>, raw: seq<bv32>)
    requires Sealed(sec, raw)
    ensures |sec| == LONGS && PayloadBytes(sec) == BytesOf(raw)
  {
    hide CleanPart, Parity, HalvesOf, Decode;
    PayloadIs(sec, raw);
  }
}
