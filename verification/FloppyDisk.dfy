/** The contents of a floppy disk, seen as tracks and sectors and as one array of bytes
    (drivers/floppy.c, drivers/include/floppy.h). */
module FloppyDisk {
  import opened Payloads
  import opened Tracks

  const TRACK_SIZE: nat := 5632
  const FLOPPY_SIZE: nat := 901120

  /** The payload of every sector of every track */
  type Surface = seq<seq<seq<Byte>>>

  predicate TrackShape(sectors: seq<seq<Byte>>) {
    |sectors| == NSECTORS && forall i {:trigger sectors[i]} :: 0 <= i < NSECTORS ==> |sectors[i]| == SECTOR_SIZE
  }

  predicate Shape(surface: Surface) {
    |surface| == NTRACKS && forall t {:trigger surface[t]} :: 0 <= t < NTRACKS ==> TrackShape(surface[t])
  }

  function TrackOf(a: nat): nat { a / TRACK_SIZE }

  function SectorOf(a: nat): nat { (a / SECTOR_SIZE) % NSECTORS }

  function OffsetOf(a: nat): nat { a % SECTOR_SIZE }

  function Address(t: nat, i: nat, o: nat): nat { t * TRACK_SIZE + i * SECTOR_SIZE + o }

  lemma AddressParts(t: nat, i: nat, o: nat)
    requires i < NSECTORS && o < SECTOR_SIZE
    ensures TrackOf(Address(t, i, o)) == t && SectorOf(Address(t, i, o)) == i && OffsetOf(Address(t, i, o)) == o
    ensures t < NTRACKS ==> Address(t, i, o) < FLOPPY_SIZE
  {
  }

  lemma PartsAddress(a: nat)
    ensures SectorOf(a) < NSECTORS && OffsetOf(a) < SECTOR_SIZE && Address(TrackOf(a), SectorOf(a), OffsetOf(a)) == a
    ensures a < FLOPPY_SIZE ==> TrackOf(a) < NTRACKS
  {
  }

  /** A sector as it is seen through the cache: changed data are only there until they are written. */
  function Seen(surface: Surface, track: int, raw: seq<seq<Byte>>, dirty: seq<bool>, t: nat, i: nat): (r: seq<Byte>)
    requires Shape(surface) && TrackShape(raw) && |dirty| == NSECTORS && t < NTRACKS && i < NSECTORS
    ensures |r| == SECTOR_SIZE
  {
    if t == track && dirty[i] then raw[i] else surface[t][i]
  }

  /** The whole disk as it is seen through the cache */
  function Bytes(surface: Surface, track: int, raw: seq<seq<Byte>>, dirty: seq<bool>): (r: seq<Byte>)
    requires Shape(surface) && TrackShape(raw) && |dirty| == NSECTORS
    ensures |r| == FLOPPY_SIZE
  {
    seq(FLOPPY_SIZE, a requires 0 <= a < FLOPPY_SIZE => SeenByte(surface, track, raw, dirty, a))
  }

  function SeenByte(surface: Surface, track: int, raw: seq<seq<Byte>>, dirty: seq<bool>, a: nat): Byte
    requires Shape(surface) && TrackShape(raw) && |dirty| == NSECTORS && a < FLOPPY_SIZE
  {
    PartsAddress(a);
    Seen(surface, track, raw, dirty, TrackOf(a), SectorOf(a))[OffsetOf(a)]
  }

  /** The bytes of one sector are consecutive. */
  lemma SectorBytes(surface: Surface, track: int, raw: seq<seq<Byte>>, dirty: seq<bool>, t: nat, i: nat, o: nat, n: nat)
    requires Shape(surface) && TrackShape(raw) && |dirty| == NSECTORS && t < NTRACKS && i < NSECTORS && o + n <= SECTOR_SIZE
    ensures Address(t, i, o) + n <= FLOPPY_SIZE
    ensures Bytes(surface, track, raw, dirty)[Address(t, i, o)..Address(t, i, o) + n] == Seen(surface, track, raw, dirty, t, i)[o..o + n]
  {
    hide Seen, Shape, TrackShape;
    var a := Address(t, i, o);
    var all, sector := Bytes(surface, track, raw, dirty), Seen(surface, track, raw, dirty, t, i);
    AddressParts(t, i, if o + n == 0 then 0 else o + n - 1);
    forall c {:trigger all[c]} | a <= c < a + n ensures all[c] == sector[o + (c - a)] {
      AddressParts(t, i, o + (c - a));
    }
  }

  /** Changing part of one sector overwrites that part of the disk. */
  lemma SectorChanged(surface: Surface, track: int, raw: seq<seq<Byte>>, dirty: seq<bool>, i: nat, o: nat, data: seq<Byte>)
    requires Shape(surface) && TrackShape(raw) && |dirty| == NSECTORS && 0 <= track < NTRACKS && i < NSECTORS && o + |data| <= SECTOR_SIZE
    requires Seen(surface, track, raw, dirty, track, i) == raw[i]
    ensures var raw1 := raw[i := Overwritten(raw[i], o, data)]; var dirty1 := dirty[i := true];
            && TrackShape(raw1) && Address(track, i, o) + |data| <= FLOPPY_SIZE
            && Bytes(surface, track, raw1, dirty1) == Overwritten(Bytes(surface, track, raw, dirty), Address(track, i, o), data)
  {
    var raw1, dirty1, a := raw[i := Overwritten(raw[i], o, data)], dirty[i := true], Address(track, i, o);
    SectorBytes(surface, track, raw, dirty, track, i, o, |data|);
    var b := Overwritten(Bytes(surface, track, raw, dirty), a, data);
    forall c | 0 <= c < FLOPPY_SIZE ensures Bytes(surface, track, raw1, dirty1)[c] == b[c] {
      PartsAddress(c);
      if a <= c < a + |data| { AddressParts(track, i, o + (c - a)); }
    }
  }

  lemma OverwriteTwice(bytes: seq<Byte>, offset: nat, data: seq<Byte>, more: seq<Byte>)
    requires offset + |data| + |more| <= |bytes|
    ensures Overwritten(Overwritten(bytes, offset, data), offset + |data|, more) == Overwritten(bytes, offset, data + more)
  {
  }

  /** Writing the changed sectors of a track does not change what is seen. */
  lemma SeenWritten(surface: Surface, track: int, raw: seq<seq<Byte>>, dirty: seq<bool>, buffer: seq<seq<Byte>>,
                    dirty1: seq<bool>)
    requires Shape(surface) && TrackShape(raw) && |dirty| == NSECTORS == |dirty1| && TrackShape(buffer) && 0 <= track < NTRACKS
    requires forall i {:trigger buffer[i]} {:trigger dirty1[i]} :: 0 <= i < NSECTORS ==>
               !dirty1[i] && buffer[i] == Seen(surface, track, raw, dirty, track, i)
    ensures Shape(surface[track := buffer]) && Bytes(surface[track := buffer], track, raw, dirty1) == Bytes(surface, track, raw, dirty)
  {
    var s1 := surface[track := buffer];
    forall a | 0 <= a < FLOPPY_SIZE ensures Bytes(s1, track, raw, dirty1)[a] == Bytes(surface, track, raw, dirty)[a] {
      PartsAddress(a);
      var b := buffer[SectorOf(a)];
    }
  }

  /** The disk itself, as one array of bytes */
  function OnDisk(surface: Surface): (r: seq<Byte>)
    requires Shape(surface)
    ensures |r| == FLOPPY_SIZE
  {
    seq(FLOPPY_SIZE, a requires 0 <= a < FLOPPY_SIZE => DiskByte(surface, a))
  }

  function DiskByte(surface: Surface, a: nat): Byte
    requires Shape(surface) && a < FLOPPY_SIZE
  {
    PartsAddress(a);
    surface[TrackOf(a)][SectorOf(a)][OffsetOf(a)]
  }

  lemma SeenOnDisk(surface: Surface, track: int, raw: seq<seq<Byte>>, dirty: seq<bool>)
    requires Shape(surface) && TrackShape(raw) && |dirty| == NSECTORS
    requires forall i {:trigger dirty[i]} :: 0 <= i < NSECTORS ==> !dirty[i]
    ensures Bytes(surface, track, raw, dirty) == OnDisk(surface)
  {
    hide Shape, TrackShape;
    forall a | 0 <= a < FLOPPY_SIZE ensures Bytes(surface, track, raw, dirty)[a] == OnDisk(surface)[a] { PartsAddress(a); }
  }

  lemma NothingOverwritten(bytes: seq<Byte>, offset: nat)
    requires offset <= |bytes|
    ensures Overwritten(bytes, offset, []) == bytes
  {
  }
}
