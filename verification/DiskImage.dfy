/** The read-only file system on a floppy disk (tools/fsutil.py): building an image from files, and
    getting the files back from it. */
module DiskImage {
  import opened Utf8

  const SECTOR: nat := 512
  const FLOPPY: nat := 901120

  /** Flags are integers here: the tool writes a truth value and reads a byte. */
  datatype FileEntry = FileEntry(name: seq<Byte>, data: seq<Byte>, exe: int)

  datatype Result<T> = Ok(value: T) | Err(error: Error)

  datatype Error = NotBytes | BootCodeTooLarge | NoBootCode | NoExecutable | OutOfRange | NotAscii | NotText | Truncated | BadLength

  datatype BootCode = Absent | Missing | Code(bytes: seq<Byte>)

  function Align(size: nat, alignment: nat): nat
    requires alignment > 0
  {
    (size + alignment - 1) / alignment * alignment
  }

  lemma Aligned(size: nat, alignment: nat)
    requires alignment > 0
    ensures size <= Align(size, alignment) < size + alignment
  {
    var n := size + alignment - 1;
    assert n == alignment * (n / alignment) + n % alignment;
  }

  lemma SectorAligned(size: nat)
    ensures Align(size, SECTOR) % SECTOR == 0 && size <= Align(size, SECTOR) < size + SECTOR
    ensures size % SECTOR == 0 ==> Align(size, SECTOR) == size && Sectors(size) * SECTOR == size
    ensures Align(size, 2) % 2 == 0
  {
  }

  function Sectors(size: nat): nat { Align(size, SECTOR) / SECTOR }

  function Zeros(n: nat): (r: seq<Byte>)
    ensures |r| == n && forall i {:trigger r[i]} :: 0 <= i < n ==> r[i] == 0
  {
    seq(n, _ => 0)
  }

  /** write_pad */
  function Padded(fh: seq<Byte>, alignment: nat): (r: seq<Byte>)
    requires alignment > 0
    ensures |r| == Align(|fh|, alignment) && fh <= r && forall i {:trigger r[i]} :: |fh| <= i < |r| ==> r[i] == 0
  {
    Aligned(|fh|, alignment);
    fh + Zeros(Align(|fh|, alignment) - |fh|)
  }

  function U16(x: nat): (r: seq<Byte>)
    requires x < 0x1_0000
    ensures |r| == 2
  {
    [x / 256, x % 256]
  }

  function U32(x: nat): (r: seq<Byte>)
    requires x < 0x1_0000_0000
    ensures |r| == 4
  {
    [x / 0x100_0000, x / 0x1_0000 % 256, x / 256 % 256, x % 256]
  }

  function Get16(s: seq<Byte>): nat
    requires |s| == 2
  {
    s[0] as int * 256 + s[1]
  }

  function Get32(s: seq<Byte>): nat
    requires |s| == 4
  {
    s[0] as int * 0x100_0000 + s[1] as int * 0x1_0000 + s[2] as int * 256 + s[3]
  }

  lemma Unpacked(x: nat)
    ensures x < 0x1_0000 ==> Get16(U16(x)) == x
    ensures x < 0x1_0000_0000 ==> Get32(U32(x)) == x
  {
  }

  // --- the directory --------------------------------------------------------------------------------

  function RecLen(e: FileEntry): nat { Align(8 + |e.name| + 1, 2) }

  /** What the records of the first `k` entries take */
  function DirLen(es: seq<FileEntry>, k: nat): nat
    requires k <= |es|
  {
    if k == 0 then 0 else DirLen(es, k - 1) + RecLen(es[k - 1])
  }

  /** What their data take */
  function FilesLen(es: seq<FileEntry>, k: nat): nat
    requires k <= |es|
  {
    if k == 0 then 0 else FilesLen(es, k - 1) + Align(|es[k - 1].data|, SECTOR)
  }

  /** Where the first file is meant to start */
  function FilesPos(es: seq<FileEntry>): nat { Align(DirLen(es, |es|), SECTOR) + 2 * SECTOR }

  /** The sector recorded for a file */
  function Start(es: seq<FileEntry>, k: nat): nat
    requires k < |es|
  {
    Sectors(FilesLen(es, k) + FilesPos(es))
  }

  predicate Ascii(name: seq<Byte>) { forall i {:trigger name[i]} :: 0 <= i < |name| ==> name[i] < 128 }

  /** The fields fit their widths. */
  predicate Fits(e: FileEntry, start: nat) {
    RecLen(e) < 256 && 0 <= e.exe < 256 && start < 0x1_0000 && |e.data| < 0x1_0000_0000 && Ascii(e.name)
  }

  lemma FitsExactly(e: FileEntry, start: nat)
    ensures Fits(e, start) <==>
              && |e.name| <= 245 && 0 <= e.exe < 256 && start < 0x1_0000 && |e.data| < 0x1_0000_0000
              && forall i {:trigger e.name[i]} :: 0 <= i < |e.name| ==> e.name[i] < 128
  {
  }

  predicate AllFit(es: seq<FileEntry>, n: nat)
    requires n <= |es|
  {
    forall k {:trigger es[k]} :: 0 <= k < n ==> Fits(es[k], Start(es, k))
  }

  function Record(e: FileEntry, start: nat): (r: seq<Byte>)
    requires Fits(e, start)
    ensures |r| == RecLen(e)
  {
    Aligned(8 + |e.name| + 1, 2);
    [RecLen(e), e.exe] + U16(start) + U32(|e.data|) + e.name + Zeros(RecLen(e) - 8 - |e.name|)
  }

  function Records(es: seq<FileEntry>, k: nat): (r: seq<Byte>)
    requires k <= |es| && AllFit(es, k)
    ensures |r| == DirLen(es, k)
  {
    if k == 0 then [] else Records(es, k - 1) + Record(es[k - 1], Start(es, k - 1))
  }

  function Files(es: seq<FileEntry>, k: nat): (r: seq<Byte>)
    requires k <= |es|
    ensures |r| == FilesLen(es, k)
  {
    if k == 0 then [] else Files(es, k - 1) + Padded(es[k - 1].data, SECTOR)
  }

  /** The boot block: two sectors that begin with a header, whose checksum is filled in last */
  function Sum(data: seq<Byte>): nat
    requires |data| % 4 == 0
  {
    if data == [] then 0 else Sum(data[..|data| - 4]) + Get32(data[|data| - 4..])
  }

  function Fold(sum: nat): nat { sum / 0x1_0000_0000 + sum % 0x1_0000_0000 }

  function Checksum(data: seq<Byte>): (c: nat)
    requires |data| % 4 == 0
    ensures c < 0x1_0000_0000
  {
    0xffff_ffff - Fold(Sum(data)) % 0x1_0000_0000
  }

  const DOS: seq<Byte> := [68, 79, 83, 0]

  /** The first file is the one to be started: its length and its place, in units of 256 bytes */
  function BootHeader(exeLength: nat, exeStart: nat): (r: seq<Byte>)
    requires exeLength * 2 < 0x1_0000 && exeStart * 2 < 0x1_0000
    ensures |r| == 12
  {
    DOS + [0, 0, 0, 0] + U16(exeLength * 2) + U16(exeStart * 2)
  }

  /** A file after writing at its beginning */
  function WrittenOver(bytes: seq<Byte>, data: seq<Byte>): (r: seq<Byte>) {
    if |data| <= |bytes| then data + bytes[|data|..] else data
  }

  /** The block before its checksum is filled in */
  function Unsummed(code: seq<Byte>, exeLength: nat, exeStart: nat): (r: seq<Byte>)
    requires |code| <= 2 * SECTOR && exeLength * 2 < 0x1_0000 && exeStart * 2 < 0x1_0000
    ensures |r| == 2 * SECTOR
  {
    WholeBlock(|WrittenOver(code, BootHeader(exeLength, exeStart))|);
    Padded(WrittenOver(code, BootHeader(exeLength, exeStart)), 2 * SECTOR)
  }

  function BootBlock(code: seq<Byte>, exeLength: nat, exeStart: nat): (r: seq<Byte>)
    requires |code| <= 2 * SECTOR && exeLength * 2 < 0x1_0000 && exeStart * 2 < 0x1_0000
    ensures |r| == 2 * SECTOR
  {
    var boot := Unsummed(code, exeLength, exeStart);
    boot[..4] + U32(Checksum(boot)) + boot[8..]
  }

  /** The block: the header, then the code from its thirteenth byte on, and zeros */
  lemma BootBlockParts(code: seq<Byte>, exeLength: nat, exeStart: nat)
    requires |code| <= 2 * SECTOR && exeLength * 2 < 0x1_0000 && exeStart * 2 < 0x1_0000
    ensures var r := BootBlock(code, exeLength, exeStart);
            && r[..4] == DOS && Get16(r[8..10]) == exeLength * 2 && Get16(r[10..12]) == exeStart * 2
            && (|code| >= 12 ==> r[12..|code|] == code[12..])
            && forall i {:trigger r[i]} :: 12 <= i < |r| && |code| <= i ==> r[i] == 0
    ensures Unsummed(code, exeLength, exeStart)[4..8] == [0, 0, 0, 0]
  {
    hide Checksum, U32, Get16, U16;
    var h := BootHeader(exeLength, exeStart);
    var boot, r := Unsummed(code, exeLength, exeStart), BootBlock(code, exeLength, exeStart);
    Unpacked(exeLength * 2);
    Unpacked(exeStart * 2);
    assert h[..4] == DOS && h[4..8] == [0, 0, 0, 0] && h[8..10] == U16(exeLength * 2) && h[10..12] == U16(exeStart * 2);
    assert forall i {:trigger boot[i]} :: 0 <= i < 12 ==> boot[i] == h[i];
    assert forall i {:trigger r[i]} :: 0 <= i < |r| && !(4 <= i < 8) ==> r[i] == boot[i];
    assert r[..4] == h[..4] && r[8..10] == h[8..10] && r[10..12] == h[10..12] && boot[4..8] == h[4..8];
    assert |code| >= 12 ==> r[12..|code|] == code[12..];
  }

  /** The checksum, by the sum of all other longwords of the block */
  lemma BootBlockSum(code: seq<Byte>, exeLength: nat, exeStart: nat)
    requires |code| <= 2 * SECTOR && exeLength * 2 < 0x1_0000 && exeStart * 2 < 0x1_0000
    ensures var r := BootBlock(code, exeLength, exeStart); var sum := Sum(r[..4] + r[8..]);
            Get32(r[4..8]) == 0xffff_ffff - (sum / 0x1_0000_0000 + sum % 0x1_0000_0000) % 0x1_0000_0000
  {
    hide Unsummed, Sum, Get32;
    var boot, r := Unsummed(code, exeLength, exeStart), BootBlock(code, exeLength, exeStart);
    BootBlockParts(code, exeLength, exeStart);
    SumReplaced(boot, boot[4..8]);
    Unpacked(Checksum(boot));
    NoSum();
    assert r[..4] == boot[..4] && r[8..] == boot[8..] && r[4..8] == U32(Checksum(boot));
  }

  lemma WholeBlock(n: nat)
    requires 12 <= n <= 2 * SECTOR
    ensures Align(n, 2 * SECTOR) == 2 * SECTOR
  {
  }

  lemma SumMore(data: seq<Byte>, x: seq<Byte>)
    requires |data| % 4 == 0 && |x| == 4
    ensures |data + x| % 4 == 0 && Sum(data + x) == Sum(data) + Get32(x)
  {
    hide Get32;
    assert (data + x)[..|data|] == data && (data + x)[|data|..] == x;
  }

  lemma {:induction false} SumInserted(front: seq<Byte>, x: seq<Byte>, back: seq<Byte>)
    requires |front| % 4 == 0 && |x| == 4 && |back| % 4 == 0
    ensures Sum(front + x + back) == Sum(front + back) + Get32(x)
  {
    hide Get32;
    if back == [] {
      assert front + x + back == front + x && front + back == front;
      SumMore(front, x);
    } else {
      var most, last := back[..|back| - 4], back[|back| - 4..];
      SumInserted(front, x, most);
      assert front + x + back == front + x + most + last && front + back == front + most + last;
      SumMore(front + x + most, last);
      SumMore(front + most, last);
    }
  }

  /** Replacing one longword changes the sum by the difference. */
  lemma SumReplaced(data: seq<Byte>, x: seq<Byte>)
    requires |data| % 4 == 0 && |data| >= 8 && |x| == 4
    ensures Sum(data[..4] + x + data[8..]) == Sum(data) - Get32(data[4..8]) + Get32(x)
    ensures Sum(data[..4] + data[8..]) == Sum(data) - Get32(data[4..8])
  {
    hide Get32, Sum;
    SumInserted(data[..4], x, data[8..]);
    SumInserted(data[..4], data[4..8], data[8..]);
    assert data == data[..4] + data[4..8] + data[8..];
  }

  lemma NoSum()
    ensures Get32([0, 0, 0, 0]) == 0
  {
  }

  lemma {:induction false} SumBound(data: seq<Byte>)
    requires |data| % 4 == 0
    ensures Sum(data) <= |data| / 4 * 0xffff_ffff
  {
    if data != [] { SumBound(data[..|data| - 4]); }
  }

  /** The sum over the finished block, with its carries added once, is all ones if and only if the same sum
      over the block without its checksum left no further carry. */
  lemma ChecksumCompletes(code: seq<Byte>, exeLength: nat, exeStart: nat)
    requires |code| <= 2 * SECTOR && exeLength * 2 < 0x1_0000 && exeStart * 2 < 0x1_0000
    ensures Fold(Sum(BootBlock(code, exeLength, exeStart))) == 0xffff_ffff <==> Fold(Sum(Unsummed(code, exeLength, exeStart))) < 0x1_0000_0000
  {
    hide BootBlock, Unsummed, Sum, Fold;
    var boot := Unsummed(code, exeLength, exeStart);
    SumOfBlock(code, exeLength, exeStart);
    SumBound(boot);
    FoldTwice(Sum(boot));
  }

  lemma SumOfBlock(code: seq<Byte>, exeLength: nat, exeStart: nat)
    requires |code| <= 2 * SECTOR && exeLength * 2 < 0x1_0000 && exeStart * 2 < 0x1_0000
    ensures var boot := Unsummed(code, exeLength, exeStart); Sum(BootBlock(code, exeLength, exeStart)) == Sum(boot) + Checksum(boot)
  {
    hide Unsummed, Sum, Checksum;
    var boot := Unsummed(code, exeLength, exeStart);
    BootBlockParts(code, exeLength, exeStart);
    SumReplaced(boot, U32(Checksum(boot)));
    Unpacked(Checksum(boot));
    NoSum();
  }

  lemma FoldTwice(sum: nat)
    requires sum <= 256 * 0xffff_ffff
    ensures Fold(sum + (0xffff_ffff - Fold(sum) % 0x1_0000_0000)) == 0xffff_ffff <==> Fold(sum) < 0x1_0000_0000
  {
    var a, b := sum / 0x1_0000_0000, sum % 0x1_0000_0000;
    assert sum == a * 0x1_0000_0000 + b && a < 256;
    var total := sum + (0xffff_ffff - (a + b) % 0x1_0000_0000);
    if a + b < 0x1_0000_0000 {
      assert total == a * 0x1_0000_0000 + (0xffff_ffff - a);
    } else {
      assert (a + b) % 0x1_0000_0000 == a + b - 0x1_0000_0000;
      assert total == (a + 1) * 0x1_0000_0000 + (0xffff_ffff - a);
    }
  }

  lemma {:induction false} SumZeros(data: seq<Byte>, k: nat)
    requires |data| % 4 == 0
    ensures |data + Zeros(4 * k)| % 4 == 0 && Sum(data + Zeros(4 * k)) == Sum(data)
  {
    hide Sum;
    if k == 0 {
      assert data + Zeros(0) == data;
    } else {
      SumZeros(data, k - 1);
      SumMore(data + Zeros(4 * (k - 1)), Zeros(4));
      assert data + Zeros(4 * k) == data + Zeros(4 * (k - 1)) + Zeros(4);
    }
  }

  /** Code with which a carry is left: the longwords of the block up to 0xBBAEACF9 add up to 2^32 - 1, and then come
      0xFFFFFFFF and 1. */
  const CARRY: seq<Byte> := [0, 0, 0, 0, 0, 0, 0, 0, 0, 0, 0, 0, 0xBB, 0xAE, 0xAC, 0xF9, 0xFF, 0xFF, 0xFF, 0xFF, 0, 0, 0, 1]

  lemma CarryBlock()
    ensures Unsummed(CARRY, 1, 3) == BootHeader(1, 3) + CARRY[12..] + Zeros(4 * 250)
  {
  }

  lemma CarrySum()
    ensures Sum(BootHeader(1, 3) + CARRY[12..]) == 0x1_ffff_ffff
  {
    hide Sum;
    var a, b, c, x, y, z: seq<Byte> := DOS, [0, 0, 0, 0], [0, 2, 0, 6], [0xBB, 0xAE, 0xAC, 0xF9], [0xFF, 0xFF, 0xFF, 0xFF], [0, 0, 0, 1];
    assert BootHeader(1, 3) + CARRY[12..] == [] + a + b + c + x + y + z;
    EmptySum();
    SumMore([], a);
    SumMore([] + a, b);
    SumMore([] + a + b, c);
    SumMore([] + a + b + c, x);
    SumMore([] + a + b + c + x, y);
    SumMore([] + a + b + c + x + y, z);
  }

  /** With it, the sum over the finished block is not all ones. */
  lemma CarryLeft()
    ensures Fold(Sum(BootBlock(CARRY, 1, 3))) != 0xffff_ffff
  {
    hide Sum, BootBlock, Unsummed, Zeros, BootHeader;
    CarryBlock();
    CarrySum();
    SumZeros(BootHeader(1, 3) + CARRY[12..], 250);
    ChecksumCompletes(CARRY, 1, 3);
  }

  lemma EmptySum()
    ensures Sum([]) == 0
  {
  }

  function ExeLength(es: seq<FileEntry>, code: seq<Byte>): nat
    requires es != []
  {
    if code != [] then Sectors(|es[0].data|) else 0
  }

  /** All that has to hold for an image to be made */
  predicate Encodable(es: seq<FileEntry>, code: seq<Byte>) {
    && |code| <= 2 * SECTOR && es != [] && es[0].exe != 0
    && ExeLength(es, code) * 2 < 0x1_0000 && Sectors(FilesPos(es)) * 2 < 0x1_0000
    && DirLen(es, |es|) < 0x1_0000 && AllFit(es, |es|)
  }

  /** The image: the boot block, the directory, and the files */
  function Image(es: seq<FileEntry>, code: seq<Byte>): (r: seq<Byte>)
    requires Encodable(es, code)
  {
    var boot := BootBlock(code, ExeLength(es, code), Sectors(FilesPos(es)));
    Padded(Padded(boot + U16(DirLen(es, |es|)) + Records(es, |es|), SECTOR) + Files(es, |es|), FLOPPY)
  }

  // --- save -----------------------------------------------------------------------------------------

  /** save. Without boot code it always fails, because it tries to make bytes of a string. */
  method Save(es: seq<FileEntry>, bootcode: BootCode) returns (r: Result<seq<Byte>>)
    ensures r.Ok? <==> bootcode.Code? && Encodable(es, bootcode.bytes)
    ensures r.Ok? ==> r.value == Image(es, bootcode.bytes)
    ensures bootcode == Absent ==> r == Err(NotBytes)
    ensures bootcode == Missing ==> r == Err(NoBootCode)
    ensures bootcode.Code? && |bootcode.bytes| > 1024 ==> r == Err(BootCodeTooLarge)
    ensures bootcode.Code? && |bootcode.bytes| <= 1024 ==> (r == Err(NoExecutable) <==> es == [] || es[0].exe == 0)
  {
    hide Padded, BootBlock, U16, Align, FilesLen, DirLen, Records, Files, AllFit;
    match bootcode {
      case Absent => return Err(NotBytes);
      case Missing => return Err(NoBootCode);
      case Code(_) =>
    }
    var code := bootcode.bytes;
    if |code| > 2 * SECTOR {
      return Err(BootCodeTooLarge);
    }
    if es == [] || es[0].exe == 0 {
      return Err(NoExecutable);
    }
    var dirLen, filesOff := Measure(es);
    var filesPos := Align(dirLen, SECTOR) + 2 * SECTOR;
    var exeStart := Sectors(filesPos);
    var exeLength := if code != [] then Sectors(|es[0].data|) else 0;
    if exeLength * 2 >= 0x1_0000 || exeStart * 2 >= 0x1_0000 || dirLen >= 0x1_0000 {
      return Err(OutOfRange);
    }
    var fh := BootBlock(code, exeLength, exeStart) + U16(dirLen);
    var records := SaveRecords(es, fh, filesOff, filesPos);
    if records.Err? {
      return records;
    }
    SectorAligned(|records.value|);
    fh := Padded(records.value, SECTOR);
    fh := SaveFiles(es, fh);
    r := Ok(Padded(fh, FLOPPY));
  }

  /** The first loop of save */
  method Measure(es: seq<FileEntry>) returns (dirLen: nat, filesOff: seq<nat>)
    ensures dirLen == DirLen(es, |es|) && |filesOff| == |es| && forall k {:trigger filesOff[k]} :: 0 <= k < |es| ==> filesOff[k] == FilesLen(es, k)
  {
    dirLen, filesOff := 0, [];
    var filesLen, k := 0, 0;
    while k < |es|
      invariant k <= |es| && dirLen == DirLen(es, k) && filesLen == FilesLen(es, k)
      invariant |filesOff| == k && forall j {:trigger filesOff[j]} :: 0 <= j < k ==> filesOff[j] == FilesLen(es, j)
    {
      dirLen := dirLen + Align(8 + |es[k].name| + 1, 2);
      filesOff := filesOff + [filesLen];
      filesLen := filesLen + Align(|es[k].data|, SECTOR);
      k := k + 1;
    }
  }

  /** One directory record */
  method SaveRecord(fh: seq<Byte>, e: FileEntry, start: nat) returns (r: Result<seq<Byte>>)
    requires |fh| % 2 == 0
    ensures r.Ok? <==> Fits(e, start)
    ensures r.Err? ==> r.error == if Ascii(e.name) then OutOfRange else NotAscii
    ensures r.Ok? ==> r.value == fh + Record(e, start) && |r.value| % 2 == 0
  {
    hide Padded, U16, U32, Zeros;
    var recLen := Align(8 + |e.name| + 1, 2);
    if !Ascii(e.name) {
      return Err(NotAscii);
    }
    if recLen >= 256 || e.exe < 0 || e.exe >= 256 || start >= 0x1_0000 || |e.data| >= 0x1_0000_0000 {
      return Err(OutOfRange);
    }
    PaddedRecord(fh, e, start);
    r := Ok(Padded(fh + [recLen, e.exe] + U16(start) + U32(|e.data|) + (e.name + [0]), 2));
  }

  method SaveRecords(es: seq<FileEntry>, fh0: seq<Byte>, filesOff: seq<nat>, filesPos: nat) returns (r: Result<seq<Byte>>)
    requires |filesOff| == |es| && filesPos == FilesPos(es) && |fh0| % 2 == 0
    requires forall k {:trigger filesOff[k]} :: 0 <= k < |es| ==> filesOff[k] == FilesLen(es, k)
    ensures r.Ok? <==> AllFit(es, |es|)
    ensures r.Err? ==> r.error == OutOfRange || r.error == NotAscii
    ensures r.Ok? ==> r.value == fh0 + Records(es, |es|)
  {
    hide Fits, Record, FilesPos, Sectors, FilesLen;
    var fh, k := fh0, 0;
    while k < |es|
      invariant k <= |es| && AllFit(es, k) && fh == fh0 + Records(es, k) && |fh| % 2 == 0
    {
      var one := SaveRecord(fh, es[k], Sectors(filesOff[k] + filesPos));
      assert Start(es, k) == Sectors(filesOff[k] + filesPos);
      if one.Err? {
        return one;
      }
      fh := one.value;
      k := k + 1;
    }
    r := Ok(fh);
  }

  lemma PaddedRecord(fh: seq<Byte>, e: FileEntry, start: nat)
    requires |fh| % 2 == 0 && Fits(e, start)
    ensures Padded(fh + [RecLen(e), e.exe] + U16(start) + U32(|e.data|) + (e.name + [0]), 2) == fh + Record(e, start)
    ensures RecLen(e) % 2 == 0
  {
    var w := fh + [RecLen(e), e.exe] + U16(start) + U32(|e.data|) + (e.name + [0]);
    assert Align(|w|, 2) == |fh| + RecLen(e);
    assert Padded(w, 2) == w + Zeros(RecLen(e) - 9 - |e.name|);
    assert [0] + Zeros(RecLen(e) - 9 - |e.name|) == Zeros(RecLen(e) - 8 - |e.name|);
  }

  method SaveFiles(es: seq<FileEntry>, fh0: seq<Byte>) returns (fh: seq<Byte>)
    requires |fh0| % SECTOR == 0
    ensures fh == fh0 + Files(es, |es|)
  {
    fh := fh0;
    var k := 0;
    while k < |es|
      invariant k <= |es| && fh == fh0 + Files(es, k) && |fh| % SECTOR == 0
    {
      PaddedBehind(fh, es[k].data);
      fh := fh + es[k].data;
      fh := Padded(fh, SECTOR);
      k := k + 1;
    }
  }

  lemma PaddedBehind(fh: seq<Byte>, data: seq<Byte>)
    requires |fh| % SECTOR == 0
    ensures Padded(fh + data, SECTOR) == fh + Padded(data, SECTOR) && |Padded(fh + data, SECTOR)| % SECTOR == 0
  {
    assert Align(|fh| + |data|, SECTOR) == |fh| + Align(|data|, SECTOR);
    SectorAligned(|fh| + |data|);
  }

  // --- load -----------------------------------------------------------------------------------------

  datatype Dirent = Dirent(offset: nat, size: nat, exe: int, name: seq<Byte>)

  function Min(a: nat, b: nat): nat { if a < b then a else b }

  /** Up to `n` bytes of a file */
  function ReadAt(bytes: seq<Byte>, pos: nat, n: nat): (r: seq<Byte>)
  {
    if pos >= |bytes| then [] else bytes[pos..Min(pos + n, |bytes|)]
  }

  lemma {:induction false} AsciiText(s: seq<Byte>)
    requires Ascii(s)
    ensures Text(s)
  {
    if s != [] { AsciiText(s[1..]); }
  }

  /** A name without the zeros at its end */
  function Stripped(name: seq<Byte>): seq<Byte> {
    if name != [] && name[|name| - 1] == 0 then Stripped(name[..|name| - 1]) else name
  }

  /** How much is read for a name. Reading -1 bytes, for a record that claims to be one byte shorter than its
      fixed part, reads everything; reading a smaller number of bytes is an error. */
  function NameLen(recLen: nat, left: nat): (n: nat)
    requires recLen >= 7
    ensures n <= left
  {
    if recLen == 7 then left else Min(recLen - 8, left)
  }

  /** The directory from `pos` on, as long as its length says */
  function LoadDir(bytes: seq<Byte>, pos: nat, dirLen: int): Result<seq<Dirent>>
    decreases |bytes| - pos
  {
    if dirLen <= 0 then Ok([])
    else if pos + 8 > |bytes| then Err(Truncated)
    else if bytes[pos] < 7 then Err(BadLength)
    else
      var recLen := bytes[pos];
      var n := NameLen(recLen, |bytes| - pos - 8);
      var name := bytes[pos + 8..pos + 8 + n];
      if !Text(name) then Err(NotText)
      else
        var rest := LoadDir(bytes, pos + 8 + n, dirLen - recLen);
        if rest.Err? then rest
        else Ok([Dirent(Get16(bytes[pos + 2..pos + 4]) * SECTOR, Get32(bytes[pos + 4..pos + 8]), bytes[pos + 1], Stripped(name))] + rest.value)
  }

  /** Reading -1 bytes for a name: a record that claims to be a byte shorter than its fixed part takes all
      that is behind it for its name, so that nothing can be read if the directory goes on. */
  lemma ShortRecord(bytes: seq<Byte>, pos: nat, dirLen: int)
    requires dirLen > 0 && pos + 8 <= |bytes| && bytes[pos] == 7
    ensures LoadDir(bytes, pos, dirLen) ==
            if !Text(bytes[pos + 8..]) then Err(NotText)
            else if dirLen > 7 then Err(Truncated)
            else Ok([Dirent(Get16(bytes[pos + 2..pos + 4]) * SECTOR, Get32(bytes[pos + 4..pos + 8]), bytes[pos + 1], Stripped(bytes[pos + 8..]))])
  {
    hide Text, Get16, Get32, Stripped;
    assert bytes[pos + 8..pos + 8 + NameLen(7, |bytes| - pos - 8)] == bytes[pos + 8..];
    assert LoadDir(bytes, |bytes|, dirLen - 7) == if dirLen <= 7 then Ok([]) else Err(Truncated);
    var d := Dirent(Get16(bytes[pos + 2..pos + 4]) * SECTOR, Get32(bytes[pos + 4..pos + 8]), bytes[pos + 1], Stripped(bytes[pos + 8..]));
    assert [d] + [] == [d];
  }

  function LoadFiles(bytes: seq<Byte>, ds: seq<Dirent>): (r: seq<FileEntry>)
    ensures |r| == |ds|
  {
    seq(|ds|, k requires 0 <= k < |ds| => FileEntry(ds[k].name, ReadAt(bytes, ds[k].offset, ds[k].size), ds[k].exe))
  }

  /** What load makes of an image */
  function Loaded(bytes: seq<Byte>): Result<seq<FileEntry>> {
    if |bytes| < 2 * SECTOR + 2 then Err(Truncated)
    else
      var ds := LoadDir(bytes, 2 * SECTOR + 2, Get16(bytes[2 * SECTOR..2 * SECTOR + 2]));
      if ds.Err? then Err(ds.error) else Ok(LoadFiles(bytes, ds.value))
  }

  /** load */
  method Load(bytes: seq<Byte>) returns (r: Result<seq<FileEntry>>)
    ensures r == Loaded(bytes)
  {
    hide LoadDir, LoadFiles, Get16;
    if |bytes| < 2 * SECTOR + 2 {
      return Err(Truncated);
    }
    var dirents := ReadDirectory(bytes, Get16(bytes[2 * SECTOR..2 * SECTOR + 2]));
    if dirents.Err? {
      return Err(dirents.error);
    }
    var entries := ReadFiles(bytes, dirents.value);
    r := Ok(entries);
  }

  /** The entries read so far, and the rest of them */
  function Prefixed(dirents: seq<Dirent>, rest: Result<seq<Dirent>>): Result<seq<Dirent>> {
    if rest.Err? then rest else Ok(dirents + rest.value)
  }

  lemma PrefixedOne(dirents: seq<Dirent>, d: Dirent, rest: Result<seq<Dirent>>)
    ensures Prefixed([], rest) == rest
    ensures Prefixed(dirents, if rest.Err? then rest else Ok([d] + rest.value)) == Prefixed(dirents + [d], rest)
    ensures Prefixed(dirents, Ok([])) == Ok(dirents)
  {
    if rest.Ok? { assert dirents + ([d] + rest.value) == dirents + [d] + rest.value && [] + rest.value == rest.value; }
    assert dirents + [] == dirents;
  }

  method ReadDirectory(bytes: seq<Byte>, dirLen0: nat) returns (r: Result<seq<Dirent>>)
    requires |bytes| >= 2 * SECTOR + 2
    ensures r == LoadDir(bytes, 2 * SECTOR + 2, dirLen0)
  {
    hide Get16, Get32, Stripped, Text, NameLen, Prefixed;
    var dirLen: int := dirLen0;
    var pos: nat := 2 * SECTOR + 2;
    var dirents: seq<Dirent> := [];
    PrefixedOne([], Dirent(0, 0, 0, []), LoadDir(bytes, pos, dirLen));
    while dirLen > 0
      invariant pos <= |bytes| && Prefixed(dirents, LoadDir(bytes, pos, dirLen)) == LoadDir(bytes, 2 * SECTOR + 2, dirLen0)
      decreases |bytes| - pos
    {
      PrefixedErr(dirents);
      if pos + 8 > |bytes| {
        return Err(Truncated);
      }
      var recLen, exe := bytes[pos], bytes[pos + 1];
      var offset, size := Get16(bytes[pos + 2..pos + 4]), Get32(bytes[pos + 4..pos + 8]);
      if recLen < 7 {
        return Err(BadLength);
      }
      var n := NameLen(recLen, |bytes| - pos - 8);
      var name := bytes[pos + 8..pos + 8 + n];
      if !Text(name) {
        return Err(NotText);
      }
      var d := Dirent(offset * SECTOR, size, exe, Stripped(name));
      PrefixedOne(dirents, d, LoadDir(bytes, pos + 8 + n, dirLen - recLen));
      dirents := dirents + [d];
      dirLen, pos := dirLen - recLen, pos + 8 + n;
    }
    PrefixedOne(dirents, Dirent(0, 0, 0, []), LoadDir(bytes, pos, dirLen));
    r := Ok(dirents);
  }

  lemma PrefixedErr(dirents: seq<Dirent>)
    ensures forall e {:trigger Prefixed(dirents, Err(e))} :: Prefixed(dirents, Err(e)) == Err(e)
  {
  }

  method ReadFiles(bytes: seq<Byte>, dirents: seq<Dirent>) returns (entries: seq<FileEntry>)
    ensures entries == LoadFiles(bytes, dirents)
  {
    hide ReadAt;
    entries := [];
    var k := 0;
    while k < |dirents|
      invariant k <= |dirents| && entries == LoadFiles(bytes, dirents[..k])
    {
      var d := dirents[k];
      assert dirents[..k + 1] == dirents[..k] + [d];
      entries := entries + [FileEntry(d.name, ReadAt(bytes, d.offset, d.size), d.exe)];
      k := k + 1;
    }
    assert dirents[..k] == dirents;
  }
}
