/** What save wrote, load reads (tools/fsutil.py), except when the directory fills its sectors exactly: its
    two-byte header then pushes the files one sector beyond the place that was recorded for them. */
module DiskImageRoundTrip {
  import opened DiskImage
  import opened Utf8

  /** Where the files really begin */
  function StoredPos(es: seq<FileEntry>): nat { 2 * SECTOR + Align(DirLen(es, |es|) + 2, SECTOR) }

  lemma {:induction false} EvenDir(es: seq<FileEntry>, k: nat)
    requires k <= |es|
    ensures DirLen(es, k) % 2 == 0 && (k > 0 ==> DirLen(es, k) > 0)
  {
    hide Align;
    if k > 0 {
      EvenDir(es, k - 1);
      Aligned(8 + |es[k - 1].name| + 1, 2);
      SectorAligned(8 + |es[k - 1].name| + 1);
      SumEven(DirLen(es, k - 1), RecLen(es[k - 1]));
    }
  }

  lemma SumEven(a: nat, b: nat)
    requires a % 2 == 0 && b % 2 == 0
    ensures (a + b) % 2 == 0
  {
  }

  lemma {:induction false} RecordedIsStored(es: seq<FileEntry>)
    ensures es != [] ==> (FilesPos(es) == StoredPos(es) <==> DirLen(es, |es|) % SECTOR != 0)
    ensures es != [] && DirLen(es, |es|) % SECTOR == 0 ==> StoredPos(es) == FilesPos(es) + SECTOR && FilesPos(es) == 2 * SECTOR + DirLen(es, |es|)
  {
    hide Align, DirLen;
    EvenDir(es, |es|);
    if es != [] { HeaderPushes(DirLen(es, |es|)); }
  }

  lemma HeaderPushes(d: nat)
    requires d > 0 && d % 2 == 0
    ensures Align(d + 2, SECTOR) == Align(d, SECTOR) <==> d % SECTOR != 0
    ensures d % SECTOR == 0 ==> Align(d, SECTOR) == d && Align(d + 2, SECTOR) == d + SECTOR
  {
    var q, r := d / SECTOR, d % SECTOR;
    assert d == q * SECTOR + r && r % 2 == 0;
    if r == 0 {
      assert (d + 511) / SECTOR == q && (d + 2 + 511) / SECTOR == q + 1;
    } else {
      assert (d + 511) / SECTOR == q + 1 && (d + 2 + 511) / SECTOR == q + 1;
    }
  }

  lemma SumWhole(a: nat, b: nat)
    requires a % SECTOR == 0 && b % SECTOR == 0
    ensures (a + b) % SECTOR == 0
  {
  }

  lemma {:induction false} WholeSectors(es: seq<FileEntry>, k: nat)
    requires k <= |es|
    ensures FilesLen(es, k) % SECTOR == 0
  {
    hide Align;
    if k > 0 {
      WholeSectors(es, k - 1);
      SectorAligned(|es[k - 1].data|);
      SumWhole(FilesLen(es, k - 1), Align(|es[k - 1].data|, SECTOR));
    }
  }

  lemma {:induction false} StartIs(es: seq<FileEntry>, k: nat)
    requires k < |es|
    ensures Start(es, k) * SECTOR == FilesLen(es, k) + FilesPos(es)
  {
    hide Align, Sectors, FilesLen, DirLen;
    WholeSectors(es, k);
    SectorAligned(DirLen(es, |es|));
    SumWhole(Align(DirLen(es, |es|), SECTOR), 2 * SECTOR);
    SumWhole(FilesLen(es, k), FilesPos(es));
    SectorAligned(FilesLen(es, k) + FilesPos(es));
  }

  // --- the parts of an image ------------------------------------------------------------------------

  lemma {:induction false} RecordsPart(es: seq<FileEntry>, k: nat, n: nat)
    requires k < n <= |es| && AllFit(es, n)
    ensures DirLen(es, k) + RecLen(es[k]) <= DirLen(es, n) && Fits(es[k], Start(es, k))
    ensures Records(es, n)[DirLen(es, k)..DirLen(es, k) + RecLen(es[k])] == Record(es[k], Start(es, k))
  {
    hide Fits, Record, Start;
    if k < n - 1 {
      RecordsPart(es, k, n - 1);
      SliceOfFront(Records(es, n - 1), Record(es[n - 1], Start(es, n - 1)), DirLen(es, k), DirLen(es, k) + RecLen(es[k]));
    } else {
      SliceBehind(Records(es, k), Record(es[k], Start(es, k)), Record(es[k], Start(es, k)));
    }
  }

  lemma {:induction false} FilesPart(es: seq<FileEntry>, k: nat, n: nat)
    requires k < n <= |es|
    ensures FilesLen(es, k) + |es[k].data| <= FilesLen(es, n)
    ensures Files(es, n)[FilesLen(es, k)..FilesLen(es, k) + |es[k].data|] == es[k].data
  {
    hide Padded, Align;
    Aligned(|es[k].data|, SECTOR);
    if k < n - 1 {
      FilesPart(es, k, n - 1);
      SliceOfFront(Files(es, n - 1), Padded(es[n - 1].data, SECTOR), FilesLen(es, k), FilesLen(es, k) + |es[k].data|);
    } else {
      SliceBehind(Files(es, k), Padded(es[k].data, SECTOR), es[k].data);
    }
  }

  lemma SliceOfFront(s: seq<Byte>, t: seq<Byte>, a: nat, b: nat)
    requires a <= b <= |s|
    ensures (s + t)[a..b] == s[a..b]
  {
  }

  lemma SliceBehind(s: seq<Byte>, t: seq<Byte>, data: seq<Byte>)
    requires data <= t
    ensures (s + t)[|s|..|s| + |data|] == data
  {
  }

  /** Directory, zeros, files */
  lemma {:induction false} ImageParts(es: seq<FileEntry>, code: seq<Byte>)
    requires Encodable(es, code)
    ensures var d, img := DirLen(es, |es|), Image(es, code);
            && StoredPos(es) >= 2 * SECTOR + 2 + d && |img| >= StoredPos(es) + FilesLen(es, |es|)
            && img[2 * SECTOR..2 * SECTOR + 2] == U16(d) && img[2 * SECTOR + 2..2 * SECTOR + 2 + d] == Records(es, |es|)
            && img[2 * SECTOR + 2 + d..StoredPos(es)] == Zeros(StoredPos(es) - (2 * SECTOR + 2 + d))
            && img[StoredPos(es)..StoredPos(es) + FilesLen(es, |es|)] == Files(es, |es|)
  {
    hide BootBlock, U16, Records, Files, DirLen, FilesLen, AllFit, FilesPos, Padded, Align, Zeros, ExeLength, Sectors;
    var d := DirLen(es, |es|);
    var head := BootBlock(code, ExeLength(es, code), Sectors(FilesPos(es))) + U16(d) + Records(es, |es|);
    var front := Padded(head, SECTOR);
    PaddedIs(head, SECTOR);
    SectorOffset(d);
    var all := front + Files(es, |es|);
    PaddedIs(all, FLOPPY);
    PrefixSlices(all, Image(es, code), head, front, d);
  }

  lemma PaddedIs(fh: seq<Byte>, alignment: nat)
    requires alignment > 0
    ensures Align(|fh|, alignment) >= |fh| && Padded(fh, alignment) == fh + Zeros(Align(|fh|, alignment) - |fh|) && fh <= Padded(fh, alignment)
  {
    Aligned(|fh|, alignment);
  }

  lemma SectorOffset(d: nat)
    ensures Align(2 * SECTOR + 2 + d, SECTOR) == 2 * SECTOR + Align(d + 2, SECTOR)
  {
  }

  lemma PrefixSlices(all: seq<Byte>, img: seq<Byte>, head: seq<Byte>, front: seq<Byte>, d: nat)
    requires front <= all <= img && head <= front && 2 * SECTOR + 2 + d == |head|
    ensures img[2 * SECTOR..2 * SECTOR + 2] == head[2 * SECTOR..2 * SECTOR + 2] && img[2 * SECTOR + 2..2 * SECTOR + 2 + d] == head[2 * SECTOR + 2..]
    ensures img[|head|..|front|] == front[|head|..] && img[|front|..|all|] == all[|front|..]
  {
  }

  // --- an image, byte by byte -----------------------------------------------------------------------

  /** How many sectors `size` bytes take */
  lemma SectorsAre(size: nat)
    ensures Sectors(size) == (size + 511) / 512
  {
  }

  lemma {:induction false} BootPart(es: seq<FileEntry>, code: seq<Byte>)
    requires Encodable(es, code)
    ensures |Image(es, code)| % FLOPPY == 0 && |Image(es, code)| >= 2 * SECTOR
    ensures Image(es, code)[..2 * SECTOR] == BootBlock(code, ExeLength(es, code), Sectors(FilesPos(es)))
  {
    hide BootBlock, U16, Records, Files, DirLen, FilesLen, AllFit, FilesPos, Padded, Align, Zeros, ExeLength, Sectors;
    var boot := BootBlock(code, ExeLength(es, code), Sectors(FilesPos(es)));
    var head := boot + U16(DirLen(es, |es|)) + Records(es, |es|);
    var front := Padded(head, SECTOR);
    PaddedIs(head, SECTOR);
    PaddedIs(front + Files(es, |es|), FLOPPY);
    WholeDisks(|front + Files(es, |es|)|);
    assert boot <= head <= front <= Image(es, code);
  }

  lemma WholeDisks(size: nat)
    ensures Align(size, FLOPPY) % FLOPPY == 0
  {
  }

  /** The boot block of an image: what is to be loaded and from where, and the code. Images are whole disks. */
  lemma {:induction false} BootWritten(es: seq<FileEntry>, code: seq<Byte>)
    requires Encodable(es, code)
    ensures var img := Image(es, code);
            && es != [] && |img| % 901120 == 0 && |img| >= 1030 && img[..4] == [68, 79, 83, 0]
            && Get16(img[8..10]) == (if code == [] then 0 else 2 * ((|es[0].data| + 511) / 512))
            && Get16(img[10..12]) == 2 * Get16(img[1028..1030])
            && (forall i {:trigger img[i]} :: 12 <= i < 1024 ==> img[i] == if i < |code| then code[i] else 0)
  {
    hide BootBlock, Image, Align, Sectors, Get16, Get32, DirLen, FilesPos, AllFit, Sum, StoredPos, Start;
    var img, boot := Image(es, code), BootBlock(code, ExeLength(es, code), Sectors(FilesPos(es)));
    BootPart(es, code);
    BootBlockParts(code, ExeLength(es, code), Sectors(FilesPos(es)));
    SectorsAre(|es[0].data|);
    RecordWritten(es, code, 0);
    FirstStart(es);
    SliceOfSlice(img, 0, 1024, 0, 4);
    SliceOfSlice(img, 0, 1024, 8, 10);
    SliceOfSlice(img, 0, 1024, 10, 12);
    forall i {:trigger img[i]} | 12 <= i < 1024 ensures img[i] == if i < |code| then code[i] else 0 {
      assert boot[i] == img[i];
      if i < |code| { assert boot[12..|code|][i - 12] == code[12..][i - 12]; }
    }
  }

  lemma FirstStart(es: seq<FileEntry>)
    requires es != []
    ensures Start(es, 0) == Sectors(FilesPos(es)) && DirLen(es, 0) == 0
  {
    hide FilesPos, Sectors;
  }

  /** A boot block has its checksum, by the sum of all its other longwords. */
  ghost predicate Summed(img: seq<Byte>) {
    && |img| >= 1024
    && var sum := Sum(img[..4] + img[8..1024]); Get32(img[4..8]) == 0xffff_ffff - (sum / 0x1_0000_0000 + sum % 0x1_0000_0000) % 0x1_0000_0000
  }

  lemma {:induction false} ChecksumWritten(es: seq<FileEntry>, code: seq<Byte>)
    requires Encodable(es, code)
    ensures Summed(Image(es, code))
  {
    hide BootBlock, Image, Align, Sectors, Get32, FilesPos, AllFit, Sum;
    var img := Image(es, code);
    BootPart(es, code);
    BootBlockSum(code, ExeLength(es, code), Sectors(FilesPos(es)));
    SliceOfSlice(img, 0, 1024, 0, 4);
    SliceOfSlice(img, 0, 1024, 4, 8);
    SliceOfSlice(img, 0, 1024, 8, 1024);
  }

  /** A record at `pos`: its own length, the flag, the first sector of the file, its size, and the name, which ends in one or
      two zeros */
  ghost predicate RecordAt(img: seq<Byte>, pos: nat, e: FileEntry, start: nat) {
    var n := |e.name| + if |e.name| % 2 == 0 then 10 else 9;
    && pos + n <= |img| && img[pos] == n && img[pos + 1] == e.exe
    && Get16(img[pos + 2..pos + 4]) == start && Get32(img[pos + 4..pos + 8]) == |e.data|
    && img[pos + 8..pos + 8 + |e.name|] == e.name && forall i {:trigger img[i]} :: pos + 8 + |e.name| <= i < pos + n ==> img[i] == 0
  }

  lemma {:induction false} RecordIs(img: seq<Byte>, pos: nat, e: FileEntry, start: nat)
    requires Fits(e, start) && pos + RecLen(e) <= |img| && img[pos..pos + RecLen(e)] == Record(e, start)
    ensures RecordAt(img, pos, e, start)
  {
    hide Get16, Get32, Align, Record;
    var n := RecLen(e);
    RecordLength(|e.name|);
    RecordFields(img, pos, e, start);
    SliceOfSlice(img, pos + 8, n - 8, 0, |e.name|);
    assert img[pos + 8..pos + n][0..|e.name|] == e.name;
    forall i {:trigger img[i]} | pos + 8 + |e.name| <= i < pos + n ensures img[i] == 0 {
      assert img[pos + 8..pos + n][i - pos - 8] == 0;
    }
  }

  /** The directory of an image: its length, and one record behind the other */
  lemma {:induction false} RecordWritten(es: seq<FileEntry>, code: seq<Byte>, k: nat)
    requires Encodable(es, code) && k < |es|
    ensures |Image(es, code)| >= 1026 && Get16(Image(es, code)[1024..1026]) == DirLen(es, |es|)
    ensures RecordAt(Image(es, code), 1026 + DirLen(es, k), es[k], Start(es, k))
    ensures DirLen(es, 0) == 0 && DirLen(es, k + 1) == DirLen(es, k) + |es[k].name| + if |es[k].name| % 2 == 0 then 10 else 9
  {
    hide BootBlock, Image, Get16, Get32, FilesPos, StoredPos, Start, Align, Record, Records, AllFit, RecordAt;
    var img, d, e := Image(es, code), DirLen(es, |es|), es[k];
    ImageParts(es, code);
    RecordsPart(es, k, |es|);
    Unpacked(d);
    RecordLength(|e.name|);
    SliceOfSlice(img, 2 * SECTOR + 2, d, DirLen(es, k), DirLen(es, k) + RecLen(e));
    RecordIs(img, 1026 + DirLen(es, k), e, Start(es, k));
  }

  lemma RecordLength(n: nat)
    ensures Align(8 + n + 1, 2) == (if n % 2 == 0 then 10 else 9) + n
  {
  }

  /** Every file is recorded behind the one before, in whole sectors. */
  lemma {:induction false} StartsInOrder(es: seq<FileEntry>, k: nat)
    requires k < |es|
    ensures Start(es, 0) == 2 + (DirLen(es, |es|) + 511) / 512
    ensures k + 1 < |es| ==> Start(es, k + 1) == Start(es, k) + (|es[k].data| + 511) / 512
  {
  }

  // --- reading the directory ------------------------------------------------------------------------

  function DirentOf(es: seq<FileEntry>, k: nat): Dirent
    requires k < |es|
  {
    Dirent(Start(es, k) * SECTOR, |es[k].data|, es[k].exe, Stripped(es[k].name))
  }

  function Dirents(es: seq<FileEntry>): (r: seq<Dirent>)
    ensures |r| == |es| && forall k {:trigger r[k]} :: 0 <= k < |es| ==> r[k] == DirentOf(es, k)
  {
    seq(|es|, k requires 0 <= k < |es| => DirentOf(es, k))
  }

  lemma {:induction false} StrippedZeros(name: seq<Byte>, n: nat)
    ensures Stripped(name + Zeros(n)) == Stripped(name)
  {
    if n == 0 {
      assert name + Zeros(0) == name;
    } else {
      StrippedZeros(name, n - 1);
      assert Zeros(n) == Zeros(n - 1) + [0];
      assert name + Zeros(n) == name + Zeros(n - 1) + [0];
      StripOne(name + Zeros(n - 1));
    }
  }

  lemma StripOne(name: seq<Byte>)
    ensures Stripped(name + [0]) == Stripped(name)
  {
    assert (name + [0])[..|name|] == name;
  }

  /** One record, anywhere in some bytes */
  lemma {:induction false} RecordRead(bytes: seq<Byte>, pos: nat, e: FileEntry, start: nat, dirLen: int)
    requires Fits(e, start) && pos + RecLen(e) <= |bytes| && bytes[pos..pos + RecLen(e)] == Record(e, start) && dirLen > 0
    ensures RecLen(e) >= 8
    ensures LoadDir(bytes, pos, dirLen) ==
              var rest := LoadDir(bytes, pos + RecLen(e), dirLen - RecLen(e));
              if rest.Err? then rest else Ok([Dirent(start * SECTOR, |e.data|, e.exe, Stripped(e.name))] + rest.value)
  {
    hide Record, Get16, Get32, Stripped, Fits, Text, Ascii, Zeros, Align;
    Aligned(8 + |e.name| + 1, 2);
    RecordFields(bytes, pos, e, start);
    StrippedZeros(e.name, RecLen(e) - 8 - |e.name|);
    var name := bytes[pos + 8..pos + RecLen(e)];
    AsciiText(name);
    assert NameLen(bytes[pos], |bytes| - pos - 8) == RecLen(e) - 8;
  }

  lemma {:induction false} RecordFields(bytes: seq<Byte>, pos: nat, e: FileEntry, start: nat)
    requires Fits(e, start) && pos + RecLen(e) <= |bytes| && bytes[pos..pos + RecLen(e)] == Record(e, start)
    ensures |e.name| + 8 <= RecLen(e) && bytes[pos] == RecLen(e) && bytes[pos + 1] == e.exe
    ensures Get16(bytes[pos + 2..pos + 4]) == start && Get32(bytes[pos + 4..pos + 8]) == |e.data|
    ensures bytes[pos + 8..pos + RecLen(e)] == e.name + Zeros(RecLen(e) - 8 - |e.name|) && Ascii(bytes[pos + 8..pos + RecLen(e)])
  {
    hide Get16, Get32;
    Aligned(8 + |e.name| + 1, 2);
    Unpacked(start);
    Unpacked(|e.data|);
    var r := Record(e, start);
    RecordSlices(e, start);
    SliceOfSlice(bytes, pos, RecLen(e), 2, 4);
    SliceOfSlice(bytes, pos, RecLen(e), 4, 8);
    SliceOfSlice(bytes, pos, RecLen(e), 8, RecLen(e));
    assert bytes[pos] == r[0] && bytes[pos + 1] == r[1];
  }

  lemma {:induction false} RecordSlices(e: FileEntry, start: nat)
    requires Fits(e, start)
    ensures var r := Record(e, start);
            && 9 + |e.name| <= |r| && r[0] == RecLen(e) && r[1] == e.exe && r[2..4] == U16(start) && r[4..8] == U32(|e.data|)
            && r[8..|r|] == e.name + Zeros(RecLen(e) - 8 - |e.name|)
  {
    hide U16, U32;
    Aligned(8 + |e.name| + 1, 2);
  }

  lemma SliceOfSlice(bytes: seq<Byte>, pos: nat, n: nat, a: nat, b: nat)
    requires pos + n <= |bytes| && a <= b <= n
    ensures bytes[pos..pos + n][a..b] == bytes[pos + a..pos + b]
  {
    var l, r := bytes[pos..pos + n][a..b], bytes[pos + a..pos + b];
    assert |l| == |r| && forall i {:trigger l[i]} :: 0 <= i < b - a ==> l[i] == r[i];
  }

  lemma {:induction false} DirectoryRead(es: seq<FileEntry>, bytes: seq<Byte>, k: nat)
    requires k <= |es| && AllFit(es, |es|) && 2 * SECTOR + 2 + DirLen(es, |es|) <= |bytes|
    requires bytes[2 * SECTOR + 2..2 * SECTOR + 2 + DirLen(es, |es|)] == Records(es, |es|)
    ensures LoadDir(bytes, 2 * SECTOR + 2 + DirLen(es, k), DirLen(es, |es|) - DirLen(es, k)) == Ok(Dirents(es)[k..])
    decreases |es| - k
  {
    hide Record, LoadDir, Stripped, Fits, Start;
    if k == |es| {
      NothingLeft(bytes, 2 * SECTOR + 2 + DirLen(es, k));
    } else {
      RecordsPart(es, k, |es|);
      DirectoryRead(es, bytes, k + 1);
      var pos, e := 2 * SECTOR + 2 + DirLen(es, k), es[k];
      SliceOfSlice(bytes, 2 * SECTOR + 2, DirLen(es, |es|), DirLen(es, k), DirLen(es, k) + RecLen(e));
      Aligned(8 + |e.name| + 1, 2);
      RecordRead(bytes, pos, e, Start(es, k), DirLen(es, |es|) - DirLen(es, k));
      assert Dirents(es)[k..] == [Dirents(es)[k]] + Dirents(es)[k + 1..];
    }
  }

  lemma NothingLeft(bytes: seq<Byte>, pos: nat)
    ensures LoadDir(bytes, pos, 0) == Ok([])
  {
  }

  // --- the round trip -------------------------------------------------------------------------------

  /** No name ends in a zero. */
  predicate Plain(es: seq<FileEntry>) {
    forall k {:trigger es[k]} :: 0 <= k < |es| ==> Stripped(es[k].name) == es[k].name
  }

  /** Every file is read from the place that was recorded for it. */
  lemma {:induction false} LoadedIs(es: seq<FileEntry>, code: seq<Byte>)
    requires Encodable(es, code)
    ensures Loaded(Image(es, code)) == Ok(LoadFiles(Image(es, code), Dirents(es)))
  {
    hide LoadDir, LoadFiles, Image, AllFit, Dirents;
    var img, d := Image(es, code), DirLen(es, |es|);
    ImageParts(es, code);
    Unpacked(d);
    DirectoryRead(es, img, 0);
    assert Dirents(es)[0..] == Dirents(es);
  }

  lemma {:induction false} FileStored(es: seq<FileEntry>, code: seq<Byte>, k: nat)
    requires Encodable(es, code) && k < |es|
    ensures ReadAt(Image(es, code), StoredPos(es) + FilesLen(es, k), |es[k].data|) == es[k].data
  {
    hide Image, Files, FilesLen, AllFit, StoredPos;
    var img := Image(es, code);
    ImageParts(es, code);
    FilesPart(es, k, |es|);
    SliceOfSlice(img, StoredPos(es), FilesLen(es, |es|), FilesLen(es, k), FilesLen(es, k) + |es[k].data|);
  }

  /** All files come back if the directory does not fill its sectors. */
  lemma {:induction false} RoundTrip(es: seq<FileEntry>, code: seq<Byte>)
    requires Encodable(es, code) && Plain(es) && DirLen(es, |es|) % SECTOR != 0
    ensures Loaded(Image(es, code)) == Ok(es)
  {
    hide Image, AllFit, StoredPos, ReadAt, Stripped, DirLen, Start, FilesPos, FilesLen;
    LoadedIs(es, code);
    RecordedIsStored(es);
    var img := Image(es, code);
    var got := LoadFiles(img, Dirents(es));
    forall k {:trigger got[k]} {:trigger es[k]} | 0 <= k < |es| ensures got[k] == es[k] {
      FileStored(es, code, k);
      StartIs(es, k);
      assert Stripped(es[k].name) == es[k].name;
    }
    assert got == es;
  }

  /** The same directory, with other contents */
  function WithData(es: seq<FileEntry>, contents: seq<seq<Byte>>): (r: seq<FileEntry>)
    requires |contents| == |es|
    ensures |r| == |es| && forall k {:trigger r[k]} {:trigger es[k]} :: 0 <= k < |es| ==> r[k] == FileEntry(es[k].name, contents[k], es[k].exe)
  {
    seq(|es|, k requires 0 <= k < |es| => FileEntry(es[k].name, contents[k], es[k].exe))
  }

  lemma {:induction false} SameDirectory(es: seq<FileEntry>, contents: seq<seq<Byte>>, k: nat)
    requires |contents| == |es| && k <= |es|
    ensures DirLen(WithData(es, contents), k) == DirLen(es, k)
  {
    if k > 0 {
      SameDirectory(es, contents, k - 1);
      var e := es[k - 1];
    }
  }

  /** Contents that show the fault: three ones in the first file, and nothing else */
  function ThreeOnes(n: nat): (r: seq<seq<Byte>>)
    ensures |r| == n
  {
    seq(n, k => if k == 0 then [1, 1, 1] else [])
  }

  lemma {:induction false} ThreeOnesLen(es: seq<FileEntry>, k: nat)
    requires k <= |es|
    ensures FilesLen(WithData(es, ThreeOnes(|es|)), k) <= SECTOR
    ensures k <= 1 ==> FilesLen(WithData(es, ThreeOnes(|es|)), k) == k * SECTOR
    ensures k > 0 ==> FilesLen(WithData(es, ThreeOnes(|es|)), k) == SECTOR
  {
    if k > 0 { ThreeOnesLen(es, k - 1); }
  }

  lemma {:induction false} ThreeOnesFit(es: seq<FileEntry>, code: seq<Byte>)
    requires Encodable(es, code)
    ensures Encodable(WithData(es, ThreeOnes(|es|)), code)
  {
    hide Align, DirLen, Ascii, Fits;
    var other := WithData(es, ThreeOnes(|es|));
    SameDirectory(es, ThreeOnes(|es|), |es|);
    var first := es[0];
    OneSector();
    forall k {:trigger other[k]} | 0 <= k < |other| ensures Fits(other[k], Start(other, k)) {
      var e := es[k];
      OtherFits(es, k);
    }
  }

  lemma OneSector()
    ensures Sectors(3) == 1
  {
  }

  lemma {:induction false} OtherFits(es: seq<FileEntry>, k: nat)
    requires k < |es| && Fits(es[k], Start(es, k)) && DirLen(es, |es|) < 0x1_0000
    ensures Fits(WithData(es, ThreeOnes(|es|))[k], Start(WithData(es, ThreeOnes(|es|)), k))
  {
    hide DirLen, FilesLen, Ascii;
    SameDirectory(es, ThreeOnes(|es|), |es|);
    ThreeOnesLen(es, k);
    Aligned(DirLen(es, |es|), SECTOR);
    var e := es[k];
  }

  /** With a directory that fills its sectors, that file does not come back. */
  lemma {:induction false} Lost(es: seq<FileEntry>, code: seq<Byte>)
    requires Encodable(es, code) && es[0].data == [1, 1, 1] && DirLen(es, |es|) % SECTOR == 0
    ensures Loaded(Image(es, code)) != Ok(es)
  {
    hide Image, AllFit, ReadAt, Stripped, DirLen, Start, FilesPos, StoredPos;
    LoadedIs(es, code);
    RecordedIsStored(es);
    StartIs(es, 0);
    ImageParts(es, code);
    var img, p := Image(es, code), FilesPos(es);
    ThirdIsZero(img, p, DirLen(es, |es|), StoredPos(es));
    var e := LoadFiles(img, Dirents(es))[0];
    assert e.data == ReadAt(img, p, 3);
  }

  lemma ThirdIsZero(img: seq<Byte>, p: nat, d: nat, q: nat)
    requires p == 2 * SECTOR + d && q == p + SECTOR && q <= |img| && img[2 * SECTOR + 2 + d..q] == Zeros(q - (2 * SECTOR + 2 + d))
    ensures ReadAt(img, p, 3) != [1, 1, 1]
  {
    assert img[p + 2] == img[2 * SECTOR + 2 + d..q][0];
    assert ReadAt(img, p, 3)[2] == img[p + 2];
  }

  ghost predicate Survives(es: seq<FileEntry>, contents: seq<seq<Byte>>, code: seq<Byte>)
    requires |contents| == |es|
  {
    Encodable(WithData(es, contents), code) ==> Loaded(Image(WithData(es, contents), code)) == Ok(WithData(es, contents))
  }

  /** For every directory: all contents come back if and only if it does not fill its sectors, and no name ends
      in a zero. */
  lemma {:induction false} RoundTripExactly(es: seq<FileEntry>, code: seq<Byte>)
    requires Encodable(es, code)
    ensures (forall contents {:trigger Survives(es, contents, code)} :: |contents| == |es| ==> Survives(es, contents, code))
            <==> Plain(es) && DirLen(es, |es|) % SECTOR != 0
  {
    hide Encodable, Image, Loaded, Plain, DirLen;
    if !Plain(es) {
      NamesLost(es, code);
      var contents := DataOf(es);
      assert WithData(es, contents) == es;
      assert !Survives(es, contents, code);
    } else if DirLen(es, |es|) % SECTOR != 0 {
      forall contents {:trigger Survives(es, contents, code)} | |contents| == |es| ensures Survives(es, contents, code) {
        SameDirectory(es, contents, |es|);
        SamePlain(es, contents);
        if Encodable(WithData(es, contents), code) { RoundTrip(WithData(es, contents), code); }
      }
    } else {
      NotEmpty(es, code);
      var contents := ThreeOnes(|es|);
      SameDirectory(es, contents, |es|);
      ThreeOnesFit(es, code);
      Lost(WithData(es, contents), code);
      assert !Survives(es, contents, code);
    }
  }

  function DataOf(es: seq<FileEntry>): (r: seq<seq<Byte>>)
    ensures |r| == |es| && WithData(es, r) == es
  {
    var r := seq(|es|, k requires 0 <= k < |es| => es[k].data);
    assert WithData(es, r) == es;
    r
  }

  /** A name that ends in a zero comes back without it. */
  lemma {:induction false} NamesLost(es: seq<FileEntry>, code: seq<Byte>)
    requires Encodable(es, code) && !Plain(es)
    ensures Loaded(Image(es, code)) != Ok(es)
  {
    hide Image, Encodable, Stripped, Start, ReadAt;
    LoadedIs(es, code);
    var k :| 0 <= k < |es| && Stripped(es[k].name) != es[k].name;
    assert LoadFiles(Image(es, code), Dirents(es))[k].name == Stripped(es[k].name);
  }

  lemma {:induction false} NotEmpty(es: seq<FileEntry>, code: seq<Byte>)
    requires Encodable(es, code)
    ensures es != []
  {
  }

  lemma {:induction false} SamePlain(es: seq<FileEntry>, contents: seq<seq<Byte>>)
    requires |contents| == |es| && Plain(es)
    ensures Plain(WithData(es, contents))
  {
    hide Stripped;
  }

  /** Saving and loading */
  method SaveLoad(es: seq<FileEntry>, bootcode: BootCode) returns (saved: bool, r: Result<seq<FileEntry>>)
    ensures saved <==> bootcode.Code? && Encodable(es, bootcode.bytes)
    ensures saved && Plain(es) && DirLen(es, |es|) % SECTOR != 0 ==> r == Ok(es)
  {
    hide Encodable, Image, Loaded, Plain, DirLen;
    var image := Save(es, bootcode);
    if image.Err? {
      return false, Err(image.error);
    }
    saved := true;
    r := Load(image.value);
    if Plain(es) && DirLen(es, |es|) % SECTOR != 0 { RoundTrip(es, bootcode.bytes); }
  }

  // --- such a directory -----------------------------------------------------------------------------

  /** Executable files with names of seven letters, and nothing in them */
  function Sevens(n: nat): (r: seq<FileEntry>)
    ensures |r| == n && forall k {:trigger r[k]} :: 0 <= k < n ==> r[k] == FileEntry([65, 65, 65, 65, 65, 65, 65], [], 1)
  {
    seq(n, _ => FileEntry([65, 65, 65, 65, 65, 65, 65], [], 1))
  }

  lemma {:induction false} SevensLen(n: nat, k: nat)
    requires k <= n
    ensures DirLen(Sevens(n), k) == 16 * k && FilesLen(Sevens(n), k) == 0
  {
    if k > 0 {
      SevensLen(n, k - 1);
      SixteenBytes();
      var e := Sevens(n)[k - 1];
    }
  }

  lemma SixteenBytes()
    ensures Align(16, 2) == 16 && Align(0, SECTOR) == 0 && Sectors(3 * SECTOR) == 3
  {
  }

  /** Thirty-two of them fill a sector of the directory, and can be saved. */
  lemma {:induction false} FullDirectory()
    ensures var es := Sevens(32); Encodable(es, []) && Plain(es) && DirLen(es, |es|) == SECTOR
  {
    hide Align, DirLen, FilesLen, Sectors;
    var es := Sevens(32);
    SevensLen(32, 32);
    SectorAligned(SECTOR);
    SixteenBytes();
    forall k {:trigger es[k]} | 0 <= k < |es| ensures Fits(es[k], Start(es, k)) && Stripped(es[k].name) == es[k].name {
      SevensLen(32, k);
    }
  }
}
