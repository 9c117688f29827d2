/** Requests to the floppy driver (drivers/floppy.c) and sequences of them: when they read and write the
    disk like one array of bytes, and when they do not. */
module FloppyRequests {
  import opened Payloads
  import opened Tracks
  import opened TrackReading
  import opened FloppyDisk
  import opened FloppySpec

  datatype Error = Ok | ReadOnly | Invalid

  /** `left` is an unsigned and `offset` a signed 32-bit number; seeking leaves no negative offset. */
  datatype Request = Request(offset: nat, left: nat, write: bool, data: seq<Byte>)

  predicate Proper(r: Request) {
    r.offset < 0x8000_0000 && r.left < 0x1_0000_0000 && (r.write ==> |r.data| == r.left)
  }

  /** How much of a request is served: the sum is one of 32-bit numbers. */
  function Clip(offset: nat, left: nat): (n: nat)
    requires offset < FLOPPY_SIZE && left < 0x1_0000_0000
    ensures n <= left
  {
    if (offset + left) % 0x1_0000_0000 > FLOPPY_SIZE then FLOPPY_SIZE - offset else left
  }

  /** It is what fits on the disk if and only if the sum does not wrap. */
  lemma ClipExactly(offset: nat, left: nat)
    requires offset < FLOPPY_SIZE && left < 0x1_0000_0000
    ensures Clip(offset, left) == Min(left, FLOPPY_SIZE - offset) <==> offset + left < 0x1_0000_0000
    ensures offset + Clip(offset, left) <= FLOPPY_SIZE <==> offset + left < 0x1_0000_0000
  {
  }

  lemma ClipWraps()
    ensures Clip(512, 0xffff_ffff) == 0xffff_ffff
  {
  }

  /** FloppyReadWrite */
  function Handled(e: Setting, p: Picture, r: Request): (h: Result)
    requires Sane(p) && Proper(r)
    ensures Sane(h.picture)
  {
    if r.offset >= FLOPPY_SIZE then Result(Done, p, 0, [])
    else var n := Clip(r.offset, r.left); Served(e, p, r.offset, n, r.write, if r.write then r.data[..n] else [])
  }

  lemma HandledDone(e: Setting, p: Picture, r: Request)
    requires Sane(p) && Proper(r) && r.offset < FLOPPY_SIZE && Handled(e, p, r).outcome == Done
    ensures Handled(e, p, r).served == Clip(r.offset, r.left) == Min(r.left, FLOPPY_SIZE - r.offset)
  {
    hide Sane, Served;
    var n := Clip(r.offset, r.left);
    if n > 0 {
      DoneExactly(e, p, r.offset, n, r.write, if r.write then r.data[..n] else []);
      ClipExactly(r.offset, r.left);
    }
  }

  /** The sync words of all tracks on the disk are there. */
  ghost predicate AllWhole(p: Picture) {
    |p.seconds| == NTRACKS && forall t {:trigger p.seconds[t]} :: 0 <= t < NTRACKS ==> p.seconds[t] == 0x4489
  }

  /** If all tracks can be read, a request gets done exactly if the sum does not wrap; otherwise the heads are
      sent beyond the last track. */
  lemma HandledExactly(e: Setting, p: Picture, r: Request)
    requires Sane(p) && Proper(r) && AllWhole(p)
    ensures Handled(e, p, r).outcome == Done <==> r.offset >= FLOPPY_SIZE || r.offset + r.left < 0x1_0000_0000
  {
    hide Served, Sane, TrackOf;
    SaneSizes(p);
    if r.offset < FLOPPY_SIZE {
      var n := Clip(r.offset, r.left);
      ClipExactly(r.offset, r.left);
      var data := if r.write then r.data[..n] else [];
      if n == 0 {
        RestEnds(e, p, r.offset, n, r.write, data);
      } else {
        DoneExactly(e, p, r.offset, n, r.write, data);
        if r.offset + n <= FLOPPY_SIZE {
          TrackOrder(r.offset + n - 1, r.offset + n - 1);
          assert forall t: nat {:trigger LoadsIn(p, r.offset, t)} :: t <= TrackOf(r.offset + n - 1) ==> LoadsIn(p, r.offset, t);
        }
      }
    }
  }

  // --- a flat array of bytes ------------------------------------------------------------------------

  /** The part of some data that fits on the disk */
  function Clipped(offset: nat, data: seq<Byte>): seq<Byte> {
    if offset >= FLOPPY_SIZE then [] else data[..Min(|data|, FLOPPY_SIZE - offset)]
  }

  /** Reading from an array of bytes, as far as it goes */
  function Extract(bytes: seq<Byte>, offset: nat, left: nat): seq<Byte>
    requires |bytes| == FLOPPY_SIZE
  {
    if offset >= FLOPPY_SIZE then [] else bytes[offset..offset + Min(left, FLOPPY_SIZE - offset)]
  }

  /** Writing to it */
  function Overlaid(bytes: seq<Byte>, offset: nat, data: seq<Byte>): (r: seq<Byte>)
    requires |bytes| == FLOPPY_SIZE
    ensures |r| == FLOPPY_SIZE
  {
    if offset >= FLOPPY_SIZE then bytes else Overwritten(bytes, offset, Clipped(offset, data))
  }

  /** The disk after some requests */
  function After(bytes: seq<Byte>, reqs: seq<Request>): (r: seq<Byte>)
    requires |bytes| == FLOPPY_SIZE
    ensures |r| == FLOPPY_SIZE
  {
    if reqs == [] then bytes
    else
      var before, last := After(bytes, reqs[..|reqs| - 1]), reqs[|reqs| - 1];
      if last.write then Overlaid(before, last.offset, last.data) else before
  }

  // --- sequences of requests ------------------------------------------------------------------------

  predicate AllProper(reqs: seq<Request>) {
    forall k {:trigger reqs[k]} :: 0 <= k < |reqs| ==> Proper(reqs[k])
  }

  // A run goes on for as long as its requests get done.

  /** The first `k` requests get done. */
  ghost predicate AllDone(e: Setting, p: Picture, reqs: seq<Request>, k: nat)
    requires Sane(p) && AllProper(reqs) && k <= |reqs|
    decreases k, 0
  {
    k > 0 ==> AllDone(e, p, reqs, k - 1) && Answer(e, p, reqs, k - 1).outcome == Done
  }

  /** The picture after them */
  ghost function Before(e: Setting, p: Picture, reqs: seq<Request>, k: nat): (q: Picture)
    requires Sane(p) && AllProper(reqs) && k <= |reqs| && AllDone(e, p, reqs, k)
    ensures Sane(q)
    decreases k, 1
  {
    if k == 0 then p else Answer(e, p, reqs, k - 1).picture
  }

  /** What the next one gets */
  ghost function Answer(e: Setting, p: Picture, reqs: seq<Request>, k: nat): (r: Result)
    requires Sane(p) && AllProper(reqs) && k < |reqs| && AllDone(e, p, reqs, k)
    ensures Sane(r.picture)
    decreases k, 2
  {
    Handled(e, Before(e, p, reqs, k), reqs[k])
  }

  lemma {:induction false} DoneBefore(e: Setting, p: Picture, reqs: seq<Request>, j: nat, k: nat)
    requires Sane(p) && AllProper(reqs) && j <= k <= |reqs| && AllDone(e, p, reqs, k)
    ensures AllDone(e, p, reqs, j) && (j < k ==> Answer(e, p, reqs, j).outcome == Done)
    decreases k
  {
    if j < k { DoneBefore(e, p, reqs, j, k - 1); }
  }

  /** One request to a disk that is not protected and as it is seen */
  lemma FlatStep(e: Setting, p: Picture, r: Request)
    requires Sane(p) && Proper(r) && !e.writeProtected && p.view == p.disk && Handled(e, p, r).outcome == Done
    ensures var h := Handled(e, p, r);
            && |p.disk| == FLOPPY_SIZE && h.picture.view == h.picture.disk == (if r.write then Overlaid(p.disk, r.offset, r.data) else p.disk)
            && (!r.write ==> h.data == Extract(p.disk, r.offset, r.left))
  {
    hide Sane, Served;
    SaneSizes(p);
    if r.offset < FLOPPY_SIZE {
      HandledDone(e, p, r);
      var n := Clip(r.offset, r.left);
      if r.write {
        WriteServed(e, p, r.offset, n, r.data[..n]);
        assert r.data[..n][..n] == r.data[..n];
        if n == 0 { NothingOverwritten(p.disk, r.offset); }
      } else {
        ReadServed(e, p, r.offset, n);
      }
    }
  }

  /** The driver is a flat array of bytes, on every disk that is not protected and for as long as it gets its
      requests done: each of them reads what the writes before it left there. */
  lemma {:induction false} RunIsFlat(e: Setting, p: Picture, reqs: seq<Request>, k: nat)
    requires Sane(p) && AllProper(reqs) && !e.writeProtected && p.view == p.disk && k <= |reqs| && AllDone(e, p, reqs, k)
    ensures |p.disk| == FLOPPY_SIZE && Before(e, p, reqs, k).view == Before(e, p, reqs, k).disk == After(p.disk, reqs[..k])
    ensures forall j {:trigger reqs[j]} :: 0 <= j < k && !reqs[j].write ==>
              AllDone(e, p, reqs, j) && Answer(e, p, reqs, j).data == Extract(After(p.disk, reqs[..j]), reqs[j].offset, reqs[j].left)
  {
    hide Sane, Extract, Overlaid, Handled;
    SaneSizes(p);
    if k == 0 {
      assert reqs[..0] == [];
    } else {
      RunIsFlat(e, p, reqs, k - 1);
      FlatStep(e, Before(e, p, reqs, k - 1), reqs[k - 1]);
      assert reqs[..k][..k - 1] == reqs[..k - 1];
    }
  }

  /** All tracks can be read, and every reading from now on gets the sync words of its first sector. */
  ghost predicate AllGood(e: Setting, p: Picture) {
    && AllWhole(p) && (p.track == -1 || p.second == 0x4489) && forall k {:trigger e.Second(k)} :: p.readings <= k ==> e.Second(k) == 0x4489
  }

  lemma {:induction false} ServedGood(e: Setting, p: Picture, offset: nat, n: nat, write: bool, data: seq<Byte>)
    requires Sane(p) && (write ==> |data| == n) && AllGood(e, p)
    ensures AllGood(e, Served(e, p, offset, n, write, data).picture)
    decreases n
  {
    hide Sane, Served, OnTrack, TrackOf, Overwritten;
    SaneSizes(p);
    if n > 0 && offset < FLOPPY_SIZE && CanLoad(p, TrackOf(offset)) {
      FirstLeg(e, p, offset, n, write, data);
      var m := OnTrack(offset, n);
      ServedGood(e, Leg(e, p, offset, write, Chunk(data, write, m)), offset + m, n - m, write, Others(data, write, m));
    } else {
      RestEnds(e, p, offset, n, write, data);
    }
  }

  predicate AllWithin(reqs: seq<Request>) {
    forall j {:trigger reqs[j]} :: 0 <= j < |reqs| ==> reqs[j].offset >= FLOPPY_SIZE || reqs[j].offset + reqs[j].left < 0x1_0000_0000
  }

  /** Then every sequence of requests whose sums do not wrap gets done. */
  lemma {:induction false} RunGoesOn(e: Setting, p: Picture, reqs: seq<Request>, k: nat)
    requires Sane(p) && AllProper(reqs) && k <= |reqs| && AllGood(e, p) && AllWithin(reqs)
    ensures AllDone(e, p, reqs, k) && AllGood(e, Before(e, p, reqs, k))
  {
    hide Sane, Served, Clip;
    if k > 0 {
      RunGoesOn(e, p, reqs, k - 1);
      var q, r := Before(e, p, reqs, k - 1), reqs[k - 1];
      HandledExactly(e, q, r);
      if r.offset < FLOPPY_SIZE {
        var n := Clip(r.offset, r.left);
        ServedGood(e, q, r.offset, n, r.write, if r.write then r.data[..n] else []);
      }
      assert Answer(e, p, reqs, k - 1) == Handled(e, q, r);
    }
  }

  // --- tracks that lack a sync word ------------------------------------------------------------------

  /** A track that lacks a sync word, and is not in the buffer */
  predicate Lacking(p: Picture, t: nat) {
    t < |p.seconds| == NTRACKS && p.seconds[t] != 0x4489 && p.track != t
  }

  lemma {:induction false} ServedLacking(e: Setting, p: Picture, offset: nat, n: nat, write: bool, data: seq<Byte>, t: nat)
    requires Sane(p) && (write ==> |data| == n) && Lacking(p, t) && Served(e, p, offset, n, write, data).outcome == Done
    ensures var q := Served(e, p, offset, n, write, data).picture; Lacking(q, t) && q.seconds[t] == p.seconds[t]
    decreases n
  {
    hide Sane, Served, OnTrack, TrackOf, Overwritten;
    SaneSizes(p);
    if n > 0 && offset < FLOPPY_SIZE && CanLoad(p, TrackOf(offset)) {
      FirstLeg(e, p, offset, n, write, data);
      var m := OnTrack(offset, n);
      ServedLacking(e, Leg(e, p, offset, write, Chunk(data, write, m)), offset + m, n - m, write, Others(data, write, m), t);
    } else {
      RestEnds(e, p, offset, n, write, data);
    }
  }

  predicate Needs(r: Request, t: nat)
    requires Proper(r)
  {
    r.offset < FLOPPY_SIZE && r.left > 0 && TrackOf(r.offset) <= t <= TrackOf(r.offset + Clip(r.offset, r.left) - 1)
  }

  ghost predicate AllAbove(e: Setting) {
    forall t: nat {:trigger e.formats(t)} :: t < NTRACKS ==> e.formats(t) > 11
  }

  /** Of the tracks of a request, `t` is the first to lack a sync word. */
  ghost predicate NoneBefore(p: Picture, r: Request, t: nat)
    requires |p.seconds| == NTRACKS
  {
    forall u: nat {:trigger LoadsIn(p, r.offset, u)} :: TrackOf(r.offset) <= u < t ==> LoadsIn(p, r.offset, u)
  }

  lemma {:induction false} NeverDone(e: Setting, p: Picture, offset: nat, n: nat, write: bool, data: seq<Byte>, t: nat)
    requires Sane(p) && (write ==> |data| == n) && n > 0 && Lacking(p, t) && TrackOf(offset) <= t <= TrackOf(offset + n - 1)
    ensures var o := Served(e, p, offset, n, write, data).outcome; (o == Panic || o == Misread) && (AllAbove(e) ==> o == Panic)
    decreases n
  {
    hide Sane, TrackOf, OnTrack, Address, Overwritten, Served, Leg;
    SaneSizes(p);
    TrackOrder(offset, offset + n - 1);
    if CanLoad(p, TrackOf(offset)) {
      FirstLeg(e, p, offset, n, write, data);
      LegIs(e, p, offset, write, Chunk(data, write, OnTrack(offset, n)));
      LastOnTrack(offset, n);
      var m := OnTrack(offset, n);
      NeverDone(e, Leg(e, p, offset, write, Chunk(data, write, m)), offset + m, n - m, write, Others(data, write, m), t);
    } else {
      RestEnds(e, p, offset, n, write, data);
    }
  }

  lemma NeedsEnds(e: Setting, q: Picture, r: Request, t: nat)
    requires Sane(q) && Proper(r) && Lacking(q, t) && Needs(r, t)
    ensures Handled(e, q, r).outcome == Panic || Handled(e, q, r).outcome == Misread
    ensures AllAbove(e) ==> Handled(e, q, r).outcome == Panic
    ensures NoneBefore(q, r, t) ==> Handled(e, q, r).outcome == if Survives(e.formats(t), q.seconds[t]) then Misread else Panic
  {
    hide Sane, Served, TrackOf, Survives;
    var n := Clip(r.offset, r.left);
    var data := if r.write then r.data[..n] else [];
    NeverDone(e, q, r.offset, n, r.write, data, t);
    if NoneBefore(q, r, t) {
      forall u: nat {:trigger LoadsIn(q, r.offset, u)} | TrackOf(r.offset) <= u < t ensures LoadsIn(q, r.offset, u) {}
      MissingExactly(e, q, r.offset, n, r.write, data, t);
    }
  }

  /** The track lacks it for as long as the run goes on, and a request that needs the track ends the run: in a failed
      assertion on every disk whose format bytes are above 11, and otherwise as the first track says that lacks
      a sync word. */
  lemma {:induction false} LostForGood(e: Setting, p: Picture, reqs: seq<Request>, k: nat, t: nat)
    requires Sane(p) && AllProper(reqs) && k < |reqs| && Lacking(p, t) && AllDone(e, p, reqs, k)
    ensures Lacking(Before(e, p, reqs, k), t) && Before(e, p, reqs, k).seconds[t] == p.seconds[t]
    ensures Needs(reqs[k], t) ==>
              && (Answer(e, p, reqs, k).outcome == Panic || Answer(e, p, reqs, k).outcome == Misread)
              && (AllAbove(e) ==> Answer(e, p, reqs, k).outcome == Panic)
              && (NoneBefore(Before(e, p, reqs, k), reqs[k], t) ==>
                    Answer(e, p, reqs, k).outcome == if Survives(e.formats(t), p.seconds[t]) then Misread else Panic)
  {
    hide Sane, Served, TrackOf, Survives;
    if k > 0 {
      LostForGood(e, p, reqs, k - 1, t);
      var q, r := Before(e, p, reqs, k - 1), reqs[k - 1];
      if r.offset < FLOPPY_SIZE {
        var n := Clip(r.offset, r.left);
        ServedLacking(e, q, r.offset, n, r.write, if r.write then r.data[..n] else [], t);
      }
    }
    if Needs(reqs[k], t) { NeedsEnds(e, Before(e, p, reqs, k), reqs[k], t); }
  }

  /** So no run with such a request gets done. */
  lemma {:induction false} NoRunPast(e: Setting, p: Picture, reqs: seq<Request>, j: nat, k: nat, t: nat)
    requires Sane(p) && AllProper(reqs) && j < k <= |reqs| && Lacking(p, t) && Needs(reqs[j], t)
    ensures !AllDone(e, p, reqs, k)
  {
    hide Sane, Handled, Needs;
    if AllDone(e, p, reqs, k) {
      DoneBefore(e, p, reqs, j, k);
      LostForGood(e, p, reqs, j, t);
    }
  }

  /** The shortest way to lose a track: write one byte on it when both sync words were skipped, read one byte
      of another track, and read it again. */
  lemma TrackLost(e: Setting, p: Picture, b: Byte)
    requires Sane(p) && AllWhole(p) && p.track == -1 && !e.writeProtected && e.Second(p.readings) != 0x4489
    ensures var reqs := [Request(0, 1, true, [b]), Request(TRACK_SIZE, 1, false, []), Request(0, 1, false, [])];
            && AllProper(reqs) && AllDone(e, p, reqs, 2)
            && Answer(e, p, reqs, 2).outcome == if Survives(e.formats(0), e.before) then Misread else Panic
  {
    hide Overwritten, Survives;
    var reqs := [Request(0, 1, true, [b]), Request(TRACK_SIZE, 1, false, []), Request(0, 1, false, [])];
    HandledExactly(e, p, reqs[0]);
    WrittenSecond(e, p, 0, 1, [b], 0);
    assert [b][..1] == [b];
    assert AllDone(e, p, reqs, 0) && AllDone(e, p, reqs, 1);
    var q := Before(e, p, reqs, 1);
    assert q == Served(e, p, 0, 1, true, [b]).picture;
    WrittenSecond(e, p, 0, 1, [b], 1);
    DoneExactly(e, q, TRACK_SIZE, 1, false, []);
    assert LoadsIn(q, TRACK_SIZE, 1);
    assert AllDone(e, p, reqs, 2);
    var q2 := Before(e, p, reqs, 2);
    ReadServed(e, q, TRACK_SIZE, 1);
    MissingExactly(e, q2, 0, 1, false, [], 0);
  }

  // --- a protected disk -----------------------------------------------------------------------------

  /** The disk stays as it is, for as long as the run goes on and when it ends. */
  lemma {:induction false} ProtectedStays(e: Setting, p: Picture, reqs: seq<Request>, k: nat)
    requires Sane(p) && AllProper(reqs) && k <= |reqs| && e.writeProtected && AllDone(e, p, reqs, k)
    ensures Before(e, p, reqs, k).disk == p.disk && (k < |reqs| ==> Answer(e, p, reqs, k).picture.disk == p.disk)
  {
    hide Sane, Served;
    if k > 0 { ProtectedStays(e, p, reqs, k - 1); }
    if k < |reqs| { ProtectedStep(e, Before(e, p, reqs, k), reqs[k]); }
  }

  lemma ProtectedStep(e: Setting, p: Picture, r: Request)
    requires Sane(p) && Proper(r) && e.writeProtected
    ensures Handled(e, p, r).picture.disk == p.disk
  {
    hide Sane, Served;
    if r.offset < FLOPPY_SIZE {
      var n := Clip(r.offset, r.left);
      if r.write { ProtectedServed(e, p, r.offset, n, r.data[..n]); } else { ReadServed(e, p, r.offset, n); }
    }
  }

  /** A read gets the bytes of the disk if and only if the buffer holds another track than its first one, or
      one of which nothing in the range was changed and not written. */
  lemma ReadsDisk(e: Setting, p: Picture, r: Request)
    requires Sane(p) && Proper(r) && !r.write && r.offset < FLOPPY_SIZE && Handled(e, p, r).outcome == Done
    ensures |p.disk| == FLOPPY_SIZE == |p.view|
    ensures Handled(e, p, r).data == Extract(if p.track == TrackOf(r.offset) then p.view else p.disk, r.offset, r.left)
    ensures Handled(e, p, r).data == Extract(p.disk, r.offset, r.left) <==>
              p.track != TrackOf(r.offset) || Extract(p.view, r.offset, r.left) == Extract(p.disk, r.offset, r.left)
  {
    hide Sane, Served;
    SaneSizes(p);
    HandledDone(e, p, r);
    ReadServed(e, p, r.offset, Clip(r.offset, r.left));
  }

  /** What was written to a track of a protected disk is read back from there, although it never gets onto
      the disk, and is gone when another track has been read. */
  lemma PhantomWrite(e: Setting, p: Picture, offset: nat, data: seq<Byte>)
    requires Sane(p) && e.writeProtected && |data| > 0 && offset + |data| <= FLOPPY_SIZE && TrackOf(offset + |data| - 1) == TrackOf(offset)
    requires CanLoad(p, TrackOf(offset))
    ensures var w := Served(e, p, offset, |data|, true, data);
            var r := Served(e, w.picture, offset, |data|, false, []);
            && w.outcome == Done == r.outcome && r.data == data && r.picture.disk == p.disk
    ensures |p.seconds| == NTRACKS
    ensures forall a: nat :: a < FLOPPY_SIZE && TrackOf(a) != TrackOf(offset) && TrackOf(a) < NTRACKS && p.seconds[TrackOf(a)] == 0x4489 ==>
              Served(e, Served(e, p, offset, |data|, true, data).picture, a, 1, false, []).picture.view == p.disk
  {
    hide Sane, Served, Unwritten, TrackOf, OnTrack, Overwritten;
    SaneSizes(p);
    var n := |data|;
    DoneExactly(e, p, offset, n, true, data);
    ProtectedServed(e, p, offset, n, data);
    TrackOrder(offset, offset + n - 1);
    assert LoadsIn(p, offset, TrackOf(offset));
    assert data[..n] == data;
    UnwrittenHere(p, offset, data);
    var q := Served(e, p, offset, n, true, data).picture;
    SaneSizes(q);
    DoneExactly(e, q, offset, n, false, []);
    assert LoadsIn(q, offset, TrackOf(offset));
    ReadServed(e, q, offset, n);
    OverwrittenPart(Start(p, offset), offset, data);
    forall a: nat | a < FLOPPY_SIZE && TrackOf(a) != TrackOf(offset) && TrackOf(a) < NTRACKS && p.seconds[TrackOf(a)] == 0x4489
      ensures Served(e, q, a, 1, false, []).picture.view == p.disk
    {
      OneByteRead(e, q, a);
    }
  }

  lemma OverwrittenPart(bytes: seq<Byte>, offset: nat, data: seq<Byte>)
    requires offset + |data| <= |bytes|
    ensures Overwritten(bytes, offset, data)[offset..offset + |data|] == data
  {
  }

  lemma OneByteRead(e: Setting, p: Picture, a: nat)
    requires Sane(p) && a < FLOPPY_SIZE && CanLoad(p, TrackOf(a)) && p.track != TrackOf(a)
    ensures Served(e, p, a, 1, false, []).picture.view == p.disk
  {
    hide Sane, TrackOf, OnTrack;
    FirstLeg(e, p, a, 1, false, []);
    LegIs(e, p, a, false, []);
  }

  /** On a protected disk of zeros, write 512 ones at 0 and read them back. */
  lemma PhantomCase(e: Setting)
    requires e.writeProtected
    ensures var zeros: seq<Byte> := seq(FLOPPY_SIZE, _ => 0);
            var ones: seq<Byte> := seq(SECTOR_SIZE, _ => 1);
            var p := Picture(zeros, zeros, -1, 0, seq(NTRACKS, _ => 0x4489), 0);
            var reqs := [Request(0, SECTOR_SIZE, true, ones), Request(0, SECTOR_SIZE, false, [])];
            && Sane(p) && AllProper(reqs) && AllDone(e, p, reqs, 2) && Before(e, p, reqs, 2).disk == zeros
            && Answer(e, p, reqs, 1).data == ones != zeros[..SECTOR_SIZE]
  {
    hide Served, OnTrack, Overwritten;
    var zeros: seq<Byte> := seq(FLOPPY_SIZE, _ => 0);
    var ones: seq<Byte> := seq(SECTOR_SIZE, _ => 1);
    var p := Picture(zeros, zeros, -1, 0, seq(NTRACKS, _ => 0x4489), 0);
    var reqs := [Request(0, SECTOR_SIZE, true, ones), Request(0, SECTOR_SIZE, false, [])];
    PhantomWrite(e, p, 0, ones);
    assert ones[..SECTOR_SIZE] == ones;
    assert AllDone(e, p, reqs, 0) && AllDone(e, p, reqs, 1);
    assert Before(e, p, reqs, 1) == Served(e, p, 0, SECTOR_SIZE, true, ones).picture;
    assert AllDone(e, p, reqs, 2);
    ProtectedStays(e, p, reqs, 2);
    assert ones[0] != zeros[..SECTOR_SIZE][0];
  }
}
