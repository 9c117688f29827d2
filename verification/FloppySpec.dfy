/** What the floppy driver does (drivers/floppy.c), track by track and without the code on the disk: what is
    on the disk, what a reader would see, and which tracks can be read again. */
module FloppySpec {
  import opened Payloads
  import opened Tracks
  import opened TrackReading
  import opened FloppyDisk

  /** Where the disk is when a track is read: the sector that comes first, and whether its second sync word, if it
      has one, was skipped with the first one */
  datatype Spin = Spin(sector: nat, skipped: bool)

  /** What the driver cannot change: the notch of the disk, the word in front of the track buffer, the format byte
      in the headers of each track, and the rotation of the disk at every reading of a track */
  datatype Setting = Setting(writeProtected: bool, before: bv16, formats: nat -> bv32, spins: nat -> Spin) {
    /** What the `k`th reading leaves in place of the second sync word of the first sector in the buffer */
    function Second(k: nat): bv16 { if spins(k).skipped then before else 0x4489 }
  }

  /** What is on the disk; what is seen through the cache; the track in the buffer, or -1; what is in place of the
      second sync word of its first sector, and of that of each track on the disk; and how often a track was read */
  datatype Picture = Picture(disk: seq<Byte>, view: seq<Byte>, track: int, second: bv16, seconds: seq<bv16>, readings: nat)

  /** A request gets done, or it ends in a failed assertion, or with a track whose sectors were not all found, or at
      the end of the disk. */
  datatype Outcome = Done | Panic | Misread | PastEnd

  datatype Result = Result(outcome: Outcome, picture: Picture, served: nat, data: seq<Byte>)

  function Min(a: nat, b: nat): nat { if a < b then a else b }

  /** Only the track in the buffer can look different from what is on the disk. */
  ghost predicate Sane(p: Picture) {
    && |p.disk| == FLOPPY_SIZE == |p.view| && |p.seconds| == NTRACKS && -1 <= p.track < NTRACKS
    && forall a {:trigger p.view[a]} :: 0 <= a < FLOPPY_SIZE && TrackOf(a) != p.track ==> p.view[a] == p.disk[a]
  }

  predicate CanLoad(p: Picture, t: nat)
    requires |p.seconds| == NTRACKS
  {
    p.track == t || (t < NTRACKS && p.seconds[t] == 0x4489)
  }

  /** How it ends to read a track that lacks a sync word: `TrackReading.DecodeTrack` */
  function Missing(e: Setting, p: Picture, t: nat): Outcome
    requires |p.seconds| == NTRACKS && t < NTRACKS
  {
    if Survives(e.formats(t), p.seconds[t]) then Misread else Panic
  }

  /** A track is read, unless it is in the buffer. What was changed in another one and not written is gone. */
  function Loaded(e: Setting, p: Picture, t: nat): Picture {
    if p.track == t then p else Picture(p.disk, p.disk, t, e.Second(p.readings), p.seconds, p.readings + 1)
  }

  /** The track in the buffer is written back. */
  function WrittenBack(e: Setting, p: Picture): Picture
    requires |p.seconds| == NTRACKS && 0 <= p.track < NTRACKS
  {
    if e.writeProtected then p else p.(disk := p.view, seconds := p.seconds[p.track := p.second])
  }

  function Overlaying(p: Picture, offset: nat, data: seq<Byte>): Picture
    requires offset + |data| <= |p.view|
  {
    p.(view := Overwritten(p.view, offset, data))
  }

  /** How many of `n` bytes at an address are on its track */
  function OnTrack(offset: nat, n: nat): nat { Min(n, Address(TrackOf(offset) + 1, 0, 0) - offset) }

  lemma OnTrackFits(offset: nat, n: nat)
    requires offset < FLOPPY_SIZE
    ensures offset + OnTrack(offset, n) <= FLOPPY_SIZE && (n > 0 ==> OnTrack(offset, n) > 0) && TrackOf(offset) < NTRACKS
    ensures forall a {:trigger TrackOf(a)} :: offset <= a < offset + OnTrack(offset, n) ==> TrackOf(a) == TrackOf(offset)
    ensures OnTrack(offset, n) < n ==> TrackOf(offset + OnTrack(offset, n)) == TrackOf(offset) + 1
    ensures OnTrack(offset, n) <= n && OnTrack(offset, OnTrack(offset, n)) == OnTrack(offset, n)
  {
  }

  /** One track of a request */
  function Leg(e: Setting, p: Picture, offset: nat, write: bool, chunk: seq<Byte>): (q: Picture)
    requires Sane(p) && offset + |chunk| <= FLOPPY_SIZE && offset < FLOPPY_SIZE
  {
    PartsAddress(offset);
    var q := Loaded(e, p, TrackOf(offset));
    if write then WrittenBack(e, Overlaying(q, offset, chunk)) else q
  }

  lemma LegSane(e: Setting, p: Picture, offset: nat, write: bool, chunk: seq<Byte>)
    requires Sane(p) && offset < FLOPPY_SIZE && |chunk| == OnTrack(offset, |chunk|) && offset + |chunk| <= FLOPPY_SIZE
    ensures Sane(Leg(e, p, offset, write, chunk)) && Leg(e, p, offset, write, chunk).track == TrackOf(offset)
  {
    PartsAddress(offset);
    OnTrackFits(offset, |chunk|);
    var q, r := Loaded(e, p, TrackOf(offset)), Leg(e, p, offset, write, chunk);
    if write {
      assert forall a {:trigger r.view[a]} :: 0 <= a < FLOPPY_SIZE && TrackOf(a) != TrackOf(offset) ==> r.view[a] == q.view[a];
    }
  }

  lemma LoadedSane(e: Setting, p: Picture, t: nat)
    requires Sane(p) && t < NTRACKS
    ensures Sane(Loaded(e, p, t)) && |p.seconds| == NTRACKS
  {
  }

  function Chunk(data: seq<Byte>, write: bool, m: nat): seq<Byte>
    requires write ==> m <= |data|
  {
    if write then data[..m] else []
  }

  function Others(data: seq<Byte>, write: bool, m: nat): seq<Byte>
    requires write ==> m <= |data|
  {
    if write then data[m..] else []
  }

  /** A request for `n` bytes, track by track, up to one whose sectors are not all found, or that is not there */
  function Served(e: Setting, p: Picture, offset: nat, n: nat, write: bool, data: seq<Byte>): (r: Result)
    requires Sane(p) && (write ==> |data| == n)
    ensures Sane(r.picture) && r.served <= n && (r.outcome == Done <==> r.served == n) && (write ==> r.data == [])
    decreases n
  {
    if n == 0 then Result(Done, p, 0, [])
    else if offset >= FLOPPY_SIZE then Result(PastEnd, p, 0, [])
    else if !CanLoad(p, TrackOf(offset)) then
      PartsAddress(offset);
      LoadedSane(e, p, TrackOf(offset));
      Result(Missing(e, p, TrackOf(offset)), Loaded(e, p, TrackOf(offset)), 0, [])
    else
      var m := OnTrack(offset, n);
      OnTrackFits(offset, n);
      var chunk := Chunk(data, write, m);
      LegSane(e, p, offset, write, chunk);
      var q := Leg(e, p, offset, write, chunk);
      var rest := Served(e, q, offset + m, n - m, write, Others(data, write, m));
      Result(rest.outcome, rest.picture, m + rest.served,
             if write then [] else Loaded(e, p, TrackOf(offset)).view[offset..offset + m] + rest.data)
  }

  /** A result with what was served before it */
  function Prefixed(k: nat, data: seq<Byte>, r: Result): Result { Result(r.outcome, r.picture, k + r.served, data + r.data) }

  /** A track of a request of which `c` bytes have been served: `s` is the picture now, `part` what was read. */
  ghost predicate InLeg(e: Setting, p: Picture, offset: nat, c: nat, write: bool, chunk: seq<Byte>, part: seq<Byte>, s: Picture) {
    && Sane(p) && |chunk| == (if write then c else 0)
    && if c == 0 then s == p && part == []
       else
         && offset + c <= FLOPPY_SIZE && CanLoad(p, TrackOf(offset)) && |Loaded(e, p, TrackOf(offset)).view| == FLOPPY_SIZE
         && s == (if write then Overlaying(Loaded(e, p, TrackOf(offset)), offset, chunk) else Loaded(e, p, TrackOf(offset)))
         && part == (if write then [] else Loaded(e, p, TrackOf(offset)).view[offset..offset + c])
  }

  lemma LegStart(e: Setting, p: Picture, offset: nat, write: bool)
    requires Sane(p)
    ensures InLeg(e, p, offset, 0, write, [], [], p)
  {
    hide Sane;
  }

  /** How a request stops at an address, and what the picture is then */
  ghost predicate Stop(e: Setting, p: Picture, offset: nat, outcome: Outcome, q: Picture)
    requires |p.seconds| == NTRACKS
  {
    if offset >= FLOPPY_SIZE then outcome == PastEnd && q == p
    else TrackOf(offset) < NTRACKS && !CanLoad(p, TrackOf(offset)) && outcome == Missing(e, p, TrackOf(offset)) && q == Loaded(e, p, TrackOf(offset))
  }

  /** Where it stops, it stops with what has been served. */
  lemma StopsHere(e: Setting, p: Picture, offset: nat, n: nat, write: bool, data: seq<Byte>, outcome: Outcome, q: Picture)
    requires Sane(p) && (write ==> |data| == n) && n > 0 && |p.seconds| == NTRACKS && Stop(e, p, offset, outcome, q)
    ensures Served(e, p, offset, n, write, data) == Result(outcome, q, 0, [])
  {
    hide Sane, OnTrack;
  }

  lemma LegTurn(e: Setting, p: Picture, offset: nat, c: nat, write: bool, chunk: seq<Byte>, part: seq<Byte>, s: Picture,
                n: nat, more: seq<Byte>, data: seq<Byte>, s1: Picture)
    requires InLeg(e, p, offset, c, write, chunk, part, s) && n > 0 && offset + c + n <= FLOPPY_SIZE && |more| == (if write then n else 0)
    requires |s.seconds| == NTRACKS && CanLoad(s, TrackOf(offset)) && |Loaded(e, s, TrackOf(offset)).view| == FLOPPY_SIZE
    requires s1 == if write then Overlaying(Loaded(e, s, TrackOf(offset)), offset + c, more) else Loaded(e, s, TrackOf(offset))
    requires data == if write then [] else Loaded(e, s, TrackOf(offset)).view[offset + c..offset + c + n]
    ensures InLeg(e, p, offset, c + n, write, chunk + more, part + data, s1)
  {
    hide TrackOf, Overwritten, Sane;
    SaneSizes(p);
    var q := Loaded(e, p, TrackOf(offset));
    if c == 0 {
      assert chunk + more == more;
    } else if write {
      OverwriteTwice(q.view, offset, chunk, more);
    }
  }

  lemma LegEnd(e: Setting, p: Picture, offset: nat, n: nat, write: bool, data: seq<Byte>, part: seq<Byte>, s: Picture, s1: Picture)
    requires n > 0 && offset < FLOPPY_SIZE && (write ==> |data| == n) && OnTrack(offset, n) <= n
    requires InLeg(e, p, offset, OnTrack(offset, n), write, Chunk(data, write, OnTrack(offset, n)), part, s) && OnTrack(offset, n) > 0
    requires |s.seconds| == NTRACKS && 0 <= s.track < NTRACKS && s1 == if write then WrittenBack(e, s) else s
    ensures Sane(s1)
    ensures Served(e, p, offset, n, write, data)
              == Prefixed(OnTrack(offset, n), part,
                         Served(e, s1, offset + OnTrack(offset, n), n - OnTrack(offset, n), write, Others(data, write, OnTrack(offset, n))))
  {
    hide TrackOf, Overwritten, Sane, Served, OnTrack;
    FirstLeg(e, p, offset, n, write, data);
  }

  /** A request of which `p` bytes have been served, the last of them, from `at` on, on the track that `leg`
      shows before it was touched */
  ghost predicate Underway(e: Setting, picture: Picture, offset: nat, n: nat, write: bool, data: seq<Byte>,
                           leg: Picture, at: nat, before: seq<Byte>, part: seq<Byte>, p: nat, s: Picture) {
    && Sane(picture) && Sane(leg) && at <= p <= n && |data| == (if write then n else 0)
    && Served(e, picture, offset, n, write, data) == Prefixed(at, before, Served(e, leg, offset + at, n - at, write, Others(data, write, at)))
    && InLeg(e, leg, offset + at, p - at, write, if write then data[at..p] else [], part, s)
  }

  lemma UnderwayStart(e: Setting, picture: Picture, offset: nat, n: nat, write: bool, data: seq<Byte>)
    requires Sane(picture) && |data| == (if write then n else 0)
    ensures Underway(e, picture, offset, n, write, data, picture, 0, [], [], 0, picture)
  {
    hide Sane, Served;
    assert Others(data, write, 0) == data;
  }

  lemma UnderwayTurn(e: Setting, picture: Picture, offset: nat, n: nat, write: bool, data: seq<Byte>,
                     leg: Picture, at: nat, before: seq<Byte>, part: seq<Byte>, p: nat, s: Picture, m: nat, more: seq<Byte>, s1: Picture)
    requires Underway(e, picture, offset, n, write, data, leg, at, before, part, p, s)
    requires 0 < m <= n - p && offset + p + m <= FLOPPY_SIZE && |s.seconds| == NTRACKS && CanLoad(s, TrackOf(offset + at))
    requires |Loaded(e, s, TrackOf(offset + at)).view| == FLOPPY_SIZE
    requires s1 == if write then Overlaying(Loaded(e, s, TrackOf(offset + at)), offset + p, data[p..p + m]) else Loaded(e, s, TrackOf(offset + at))
    requires more == if write then [] else Loaded(e, s, TrackOf(offset + at)).view[offset + p..offset + p + m]
    ensures Underway(e, picture, offset, n, write, data, leg, at, before, part + more, p + m, s1)
  {
    hide Sane, Served, InLeg, Loaded, Overlaying, TrackOf;
    var chunk, next := if write then data[at..p] else [], if write then data[p..p + m] else [];
    LegTurn(e, leg, offset + at, p - at, write, chunk, part, s, m, next, more, s1);
    assert chunk + next == if write then data[at..p + m] else [];
  }

  /** At the end of a track, or of the request */
  lemma UnderwayEnd(e: Setting, picture: Picture, offset: nat, n: nat, write: bool, data: seq<Byte>,
                    leg: Picture, at: nat, before: seq<Byte>, part: seq<Byte>, p: nat, s: Picture, s1: Picture)
    requires Underway(e, picture, offset, n, write, data, leg, at, before, part, p, s)
    requires at < p && offset + at < FLOPPY_SIZE && p - at == OnTrack(offset + at, n - at)
    requires |s.seconds| == NTRACKS && 0 <= s.track < NTRACKS && s1 == if write then WrittenBack(e, s) else s
    ensures Underway(e, picture, offset, n, write, data, s1, p, before + part, [], p, s1)
  {
    hide Sane, Served, OnTrack, WrittenBack, InLeg;
    var rest := Others(data, write, at);
    assert Chunk(rest, write, p - at) == if write then data[at..p] else [];
    LegEnd(e, leg, offset + at, n - at, write, rest, part, s, s1);
    assert Others(rest, write, p - at) == Others(data, write, p);
    var last := Served(e, s1, offset + p, n - p, write, Others(data, write, p));
    assert before + (part + last.data) == (before + part) + last.data;
    LegStart(e, s1, offset + p, write);
    assert p - p == 0 && (if write then data[p..p] else []) == [];
  }

  lemma UnderwayStops(e: Setting, picture: Picture, offset: nat, n: nat, write: bool, data: seq<Byte>,
                      leg: Picture, before: seq<Byte>, part: seq<Byte>, p: nat, s: Picture, outcome: Outcome, q: Picture)
    requires Underway(e, picture, offset, n, write, data, leg, p, before, part, p, s) && |s.seconds| == NTRACKS
    requires if p == n then outcome == Done && q == s else Stop(e, s, offset + p, outcome, q)
    ensures Served(e, picture, offset, n, write, data) == Result(outcome, q, p, before + part)
  {
    hide Sane, OnTrack, Stop;
    if p < n {
      StopsHere(e, leg, offset + p, n - p, write, Others(data, write, p), outcome, q);
    }
  }

  // --- what that means ------------------------------------------------------------------------------

  /** What a request at an address starts from: what was changed and not written counts only if its track
      is still in the buffer. */
  function Start(p: Picture, offset: nat): seq<Byte> {
    if p.track == TrackOf(offset) then p.view else p.disk
  }

  lemma StartAhead(p: Picture, offset: nat, a: nat)
    requires Sane(p) && TrackOf(offset) < TrackOf(a) && a < FLOPPY_SIZE
    ensures Start(p, offset)[a] == p.disk[a]
  {
  }

  lemma SlicesJoined(a: seq<Byte>, b: seq<Byte>, i: nat, j: nat, k: nat)
    requires i <= j <= k <= |a| == |b| && forall c {:trigger b[c]} :: j <= c < k ==> a[c] == b[c]
    ensures a[i..j] + b[j..k] == a[i..k]
  {
  }

  /** The first track of a request, and the rest of it */
  lemma FirstLeg(e: Setting, p: Picture, offset: nat, n: nat, write: bool, data: seq<Byte>)
    requires Sane(p) && (write ==> |data| == n) && n > 0 && offset < FLOPPY_SIZE && CanLoad(p, TrackOf(offset))
    ensures var m := OnTrack(offset, n);
            && 0 < m <= n && offset + m <= FLOPPY_SIZE && TrackOf(offset) < NTRACKS && |p.disk| == FLOPPY_SIZE == |p.view| && |p.seconds| == NTRACKS
            && (m < n ==> TrackOf(offset + m) == TrackOf(offset) + 1)
            && (var q := Leg(e, p, offset, write, Chunk(data, write, m));
                var rest := Served(e, q, offset + m, n - m, write, Others(data, write, m));
                && Sane(q) && q.track == TrackOf(offset) && |q.disk| == FLOPPY_SIZE == |q.view| && |q.seconds| == NTRACKS
                && rest.served <= n - m
                && Served(e, p, offset, n, write, data)
                     == Result(rest.outcome, rest.picture, m + rest.served,
                               if write then [] else Start(p, offset)[offset..offset + m] + rest.data))
  {
    hide Sane, TrackOf, OnTrack, Address, Overwritten;
    OnTrackFits(offset, n);
    OnTrackFits(offset, 0);
    LegSane(e, p, offset, write, Chunk(data, write, OnTrack(offset, n)));
    SaneSizes(p);
    SaneSizes(Leg(e, p, offset, write, Chunk(data, write, OnTrack(offset, n))));
  }

  /** Its picture */
  lemma LegIs(e: Setting, p: Picture, offset: nat, write: bool, chunk: seq<Byte>)
    requires Sane(p) && offset < FLOPPY_SIZE && offset + |chunk| <= FLOPPY_SIZE
    ensures var q := Leg(e, p, offset, write, chunk);
            && q.track == TrackOf(offset) && q.readings == ReadingOf(p, offset, TrackOf(offset)) + 1 >= 0
            && |q.view| == FLOPPY_SIZE == |p.disk| == |p.view|
            && q.view == (if write then Overwritten(Start(p, offset), offset, chunk) else Start(p, offset))
            && q.disk == (if write && !e.writeProtected then q.view else p.disk)
            && |q.seconds| == NTRACKS == |p.seconds| && TrackOf(offset) < NTRACKS
            && q.seconds == (if write && !e.writeProtected then p.seconds[TrackOf(offset) := SecondFor(e, p, offset, TrackOf(offset))] else p.seconds)
  {
    PartsAddress(offset);
  }

  /** A request that stops at once */
  lemma RestEnds(e: Setting, p: Picture, offset: nat, n: nat, write: bool, data: seq<Byte>)
    requires Sane(p) && (write ==> |data| == n) && (n == 0 || offset >= FLOPPY_SIZE || !CanLoad(p, TrackOf(offset)))
    ensures |p.seconds| == NTRACKS && (TrackOf(offset) < NTRACKS <==> offset < FLOPPY_SIZE)
    ensures var r := Served(e, p, offset, n, write, data);
            && r.served == 0 && r.data == [] && (r.outcome == Done <==> n == 0) && r.picture.disk == p.disk && r.picture.seconds == p.seconds
            && if n == 0 || offset >= FLOPPY_SIZE then r.picture == p && r.outcome == (if n == 0 then Done else PastEnd)
               else r.picture == Loaded(e, p, TrackOf(offset)) && r.picture.view == p.disk && r.outcome == Missing(e, p, TrackOf(offset))
  {
  }

  lemma NothingServed(e: Setting, p: Picture, offset: nat, n: nat, write: bool, data: seq<Byte>)
    requires Sane(p) && (write ==> |data| == n) && Served(e, p, offset, n, write, data).served == 0
    ensures var r := Served(e, p, offset, n, write, data).picture;
            r.disk == p.disk && (r == p || r.view == p.disk) && (n == 0 ==> r == p)
  {
    hide Sane, TrackOf, OnTrack, Address, Served, Leg;
    if n > 0 && offset < FLOPPY_SIZE {
      SaneSizes(p);
      if CanLoad(p, TrackOf(offset)) { FirstLeg(e, p, offset, n, write, data); }
    }
    if n == 0 || offset >= FLOPPY_SIZE || !CanLoad(p, TrackOf(offset)) { RestEnds(e, p, offset, n, write, data); }
  }

  lemma SaneSizes(p: Picture)
    requires Sane(p)
    ensures |p.disk| == FLOPPY_SIZE == |p.view| && |p.seconds| == NTRACKS
  {
  }

  /** A read gets the bytes that its start shows, from the disk on the tracks behind, and changes nothing
      on the disk. */
  lemma {:induction false} ReadServed(e: Setting, p: Picture, offset: nat, n: nat)
    requires Sane(p)
    ensures var r := Served(e, p, offset, n, false, []);
            && |r.data| == r.served && (offset < FLOPPY_SIZE ==> offset + r.served <= FLOPPY_SIZE)
            && r.picture.disk == p.disk && r.picture.seconds == p.seconds
            && (offset < FLOPPY_SIZE ==> r.data == Start(p, offset)[offset..offset + r.served])
            && (p.view == p.disk ==> r.picture.view == p.disk)
    decreases n
  {
    hide Sane, TrackOf, OnTrack, Address, Overwritten, Served, Leg, Loaded, Missing, CanLoad;
    SaneSizes(p);
    if n > 0 && offset < FLOPPY_SIZE && CanLoad(p, TrackOf(offset)) {
      FirstLeg(e, p, offset, n, false, []);
      LegIs(e, p, offset, false, []);
      var m := OnTrack(offset, n);
      var q := Leg(e, p, offset, false, []);
      ReadServed(e, q, offset + m, n - m);
      var rest := Served(e, q, offset + m, n - m, false, []);
      if offset + m < FLOPPY_SIZE && m < n {
        ReadOn(e, p, offset, n, rest.served);
      } else {
        RestEnds(e, q, offset + m, n - m, false, []);
      }
    } else {
      RestEnds(e, p, offset, n, false, []);
    }
  }

  lemma ReadOn(e: Setting, p: Picture, offset: nat, n: nat, served: nat)
    requires Sane(p) && offset < FLOPPY_SIZE && OnTrack(offset, n) < n && offset + OnTrack(offset, n) + served <= FLOPPY_SIZE
    ensures var m := OnTrack(offset, n);
            Start(p, offset)[offset..offset + m] + p.disk[offset + m..offset + m + served] == Start(p, offset)[offset..offset + m + served]
  {
    hide OnTrack;
    var m := OnTrack(offset, n);
    forall c {:trigger p.disk[c]} | offset + m <= c < offset + m + served ensures Start(p, offset)[c] == p.disk[c] {
      TrackAhead(offset, n, c);
      StartAhead(p, offset, c);
    }
    SlicesJoined(Start(p, offset), p.disk, offset, offset + m, offset + m + served);
  }

  lemma TrackAhead(offset: nat, n: nat, a: nat)
    requires offset < FLOPPY_SIZE && OnTrack(offset, n) < n && offset + OnTrack(offset, n) <= a
    ensures TrackOf(offset) < TrackOf(a)
  {
  }

  /** A write to a disk that is not protected puts its bytes there, with whatever else waited to be written. */
  lemma {:induction false} WriteServed(e: Setting, p: Picture, offset: nat, n: nat, data: seq<Byte>)
    requires Sane(p) && !e.writeProtected && |data| == n
    ensures var r := Served(e, p, offset, n, true, data);
            && r.data == [] && (offset < FLOPPY_SIZE ==> offset + r.served <= FLOPPY_SIZE)
            && (r.outcome == Done && n > 0 ==> r.picture.view == r.picture.disk)
            && if r.served == 0 then r.picture.disk == p.disk && (n == 0 ==> r.picture == p)
               else r.picture.view == r.picture.disk == Overwritten(Start(p, offset), offset, data[..r.served])
    decreases n
  {
    hide Sane, TrackOf, OnTrack, Address, Overwritten, Served, Leg;
    SaneSizes(p);
    if n > 0 && offset < FLOPPY_SIZE && CanLoad(p, TrackOf(offset)) {
      FirstLeg(e, p, offset, n, true, data);
      LegIs(e, p, offset, true, data[..OnTrack(offset, n)]);
      var m := OnTrack(offset, n);
      var q := Leg(e, p, offset, true, data[..m]);
      WriteServed(e, q, offset + m, n - m, data[m..]);
      var rest := Served(e, q, offset + m, n - m, true, data[m..]);
      if offset + m >= FLOPPY_SIZE { RestEnds(e, q, offset + m, n - m, true, data[m..]); }
      if rest.served == 0 { NothingServed(e, q, offset + m, n - m, true, data[m..]); }
      if rest.served > 0 {
        OverwriteTwice(Start(p, offset), offset, data[..m], data[m..][..rest.served]);
        assert data[..m] + data[m..][..rest.served] == data[..m + rest.served];
      }
    } else {
      RestEnds(e, p, offset, n, true, data);
    }
  }

  /** Where the last track of a request for `n` bytes begins */
  function LastFrom(offset: nat, n: nat): (from: nat)
    requires n > 0
    ensures offset <= from < offset + n
  {
    if TrackOf(offset + n - 1) == TrackOf(offset) then offset else Address(TrackOf(offset + n - 1), 0, 0)
  }

  /** What is seen after a write to a protected disk: of the bytes, those on the last track */
  function Unwritten(p: Picture, offset: nat, data: seq<Byte>): seq<Byte>
    requires |p.disk| == FLOPPY_SIZE == |p.view| && |data| > 0 && offset + |data| <= FLOPPY_SIZE
  {
    var from := LastFrom(offset, |data|);
    Overwritten(if from == offset then Start(p, offset) else p.disk, from, data[from - offset..])
  }

  lemma FromOn(offset: nat, n: nat, size: nat)
    requires offset < FLOPPY_SIZE && OnTrack(offset, n) < n && OnTrack(offset, n) < size
    ensures 0 < OnTrack(offset, n) && TrackOf(offset + OnTrack(offset, n)) == TrackOf(offset) + 1
    ensures LastFrom(offset, size) == LastFrom(offset + OnTrack(offset, n), size - OnTrack(offset, n)) > offset
  {
    hide OnTrack, TrackOf;
    LastOnTrack(offset, n);
    OnTrackFits(offset, n);
    NextTrackAt(offset, n);
    TrackAhead(offset, n, offset + size - 1);
  }

  lemma UnwrittenOn(p: Picture, q: Picture, offset: nat, n: nat, data: seq<Byte>)
    requires |p.disk| == FLOPPY_SIZE == |p.view| && |q.disk| == FLOPPY_SIZE == |q.view| && offset < FLOPPY_SIZE
    requires q.disk == p.disk && q.track == TrackOf(offset) && OnTrack(offset, n) < n
    requires OnTrack(offset, n) < |data| && offset + |data| <= FLOPPY_SIZE
    ensures Unwritten(p, offset, data) == Unwritten(q, offset + OnTrack(offset, n), data[OnTrack(offset, n)..])
  {
    hide OnTrack, Overwritten, LastFrom, TrackOf;
    var m := OnTrack(offset, n);
    FromOn(offset, n, |data|);
    var from := LastFrom(offset + m, |data| - m);
    assert data[m..][from - (offset + m)..] == data[from - offset..];
  }

  lemma LastOnTrack(offset: nat, n: nat)
    requires n > 0 && offset < FLOPPY_SIZE
    ensures OnTrack(offset, n) > 0 && TrackOf(offset + OnTrack(offset, n) - 1) == TrackOf(offset)
  {
  }

  lemma NextTrackAt(offset: nat, n: nat)
    requires offset < FLOPPY_SIZE && OnTrack(offset, n) < n
    ensures offset + OnTrack(offset, n) == Address(TrackOf(offset) + 1, 0, 0)
  {
  }

  /** A write to a protected disk changes only what is seen of the last track that it got to. */
  lemma {:induction false} ProtectedServed(e: Setting, p: Picture, offset: nat, n: nat, data: seq<Byte>)
    requires Sane(p) && e.writeProtected && |data| == n
    ensures var r := Served(e, p, offset, n, true, data);
            && r.data == [] && r.picture.disk == p.disk && r.picture.seconds == p.seconds
            && (offset < FLOPPY_SIZE ==> offset + r.served <= FLOPPY_SIZE)
            && if r.outcome == Panic || r.outcome == Misread then r.picture.view == p.disk
               else if r.served == 0 then r.picture == p
               else offset < FLOPPY_SIZE && r.picture.track == TrackOf(offset + r.served - 1) && r.picture.view == Unwritten(p, offset, data[..r.served])
    decreases n
  {
    hide Sane, TrackOf, OnTrack, Address, Overwritten, Served, Leg, Unwritten, Loaded;
    SaneSizes(p);
    if n > 0 && offset < FLOPPY_SIZE && CanLoad(p, TrackOf(offset)) {
      FirstLeg(e, p, offset, n, true, data);
      LegIs(e, p, offset, true, data[..OnTrack(offset, n)]);
      var m := OnTrack(offset, n);
      var q := Leg(e, p, offset, true, data[..m]);
      ProtectedServed(e, q, offset + m, n - m, data[m..]);
      var rest := Served(e, q, offset + m, n - m, true, data[m..]);
      if offset + m >= FLOPPY_SIZE { RestEnds(e, q, offset + m, n - m, true, data[m..]); }
      LastOnTrack(offset, n);
      if rest.served > 0 {
        assert data[..m + rest.served][m..] == data[m..][..rest.served];
        UnwrittenOn(p, q, offset, n, data[..m + rest.served]);
      } else {
        UnwrittenHere(p, offset, data[..m]);
      }
    } else {
      RestEnds(e, p, offset, n, true, data);
    }
  }

  lemma UnwrittenHere(p: Picture, offset: nat, data: seq<Byte>)
    requires |p.disk| == FLOPPY_SIZE == |p.view| && |data| > 0 && offset + |data| <= FLOPPY_SIZE && TrackOf(offset + |data| - 1) == TrackOf(offset)
    ensures Unwritten(p, offset, data) == Overwritten(Start(p, offset), offset, data)
  {
    hide Overwritten;
    assert data[0..] == data;
  }

  /** A request gets done if and only if it ends on the disk and all its tracks can be read; its first one
      may be in the buffer already. */
  lemma {:induction false} DoneExactly(e: Setting, p: Picture, offset: nat, n: nat, write: bool, data: seq<Byte>)
    requires Sane(p) && (write ==> |data| == n) && n > 0
    ensures Served(e, p, offset, n, write, data).outcome == Done <==>
              offset + n <= FLOPPY_SIZE && forall t: nat :: TrackOf(offset) <= t <= TrackOf(offset + n - 1) ==> LoadsIn(p, offset, t)
    decreases n
  {
    hide Sane, TrackOf, OnTrack, Address, Overwritten, Served, Leg;
    SaneSizes(p);
    TrackOrder(offset, offset + n - 1);
    if offset < FLOPPY_SIZE && CanLoad(p, TrackOf(offset)) {
      FirstLeg(e, p, offset, n, write, data);
      LegIs(e, p, offset, write, Chunk(data, write, OnTrack(offset, n)));
      var m := OnTrack(offset, n);
      var q := Leg(e, p, offset, write, Chunk(data, write, m));
      LastOnTrack(offset, n);
      if m < n {
        DoneExactly(e, q, offset + m, n - m, write, Others(data, write, m));
        TrackOrder(offset + m, offset + n - 1);
        forall t: nat {:trigger LoadsIn(q, offset + m, t)} {:trigger LoadsIn(p, offset, t)} | TrackOf(offset) < t
          ensures LoadsIn(q, offset + m, t) <==> LoadsIn(p, offset, t)
        {
        }
      } else {
        RestEnds(e, q, offset + m, 0, write, Others(data, write, m));
      }
      assert LoadsIn(p, offset, TrackOf(offset));
    } else {
      RestEnds(e, p, offset, n, write, data);
      assert offset + n <= FLOPPY_SIZE ==> !LoadsIn(p, offset, TrackOf(offset));
    }
  }

  lemma TrackOrder(a: nat, b: nat)
    requires a <= b
    ensures TrackOf(a) <= TrackOf(b) && (a < FLOPPY_SIZE <==> TrackOf(a) < NTRACKS)
  {
  }

  /** The sync words of the track are there, or it is the first one of a request and in the buffer. */
  predicate LoadsIn(p: Picture, offset: nat, t: nat)
    requires |p.seconds| == NTRACKS
  {
    (p.track == t && t == TrackOf(offset)) || (t < NTRACKS && p.seconds[t] == 0x4489)
  }

  /** The number of the reading that brings track `t` into the buffer for a request at `offset` */
  function ReadingOf(p: Picture, offset: nat, t: nat): int {
    p.readings + (t - TrackOf(offset)) - (if p.track == TrackOf(offset) then 1 else 0)
  }

  /** The second sync word that track `t` has in the buffer then */
  function SecondFor(e: Setting, p: Picture, offset: nat, t: nat): bv16 {
    if p.track == t == TrackOf(offset) then p.second else if ReadingOf(p, offset, t) >= 0 then e.Second(ReadingOf(p, offset, t)) else 0
  }

  /** A track that was written has the second sync word that it had in the buffer: it is there if and only if the
      reading that brought the track into the buffer stored it, or what lies before the buffer looks like it. For all
      other tracks nothing changes. */
  lemma {:induction false} WrittenSecond(e: Setting, p: Picture, offset: nat, n: nat, data: seq<Byte>, t: nat)
    requires Sane(p) && !e.writeProtected && |data| == n && t < NTRACKS
    ensures var r := Served(e, p, offset, n, true, data);
            r.picture.seconds[t] == if r.served > 0 && TrackOf(offset) <= t <= TrackOf(offset + r.served - 1) then SecondFor(e, p, offset, t)
                                    else p.seconds[t]
    decreases n
  {
    hide Sane, TrackOf, OnTrack, Address, Overwritten, Served, Leg;
    SaneSizes(p);
    if n > 0 && offset < FLOPPY_SIZE && CanLoad(p, TrackOf(offset)) {
      FirstLeg(e, p, offset, n, true, data);
      LegIs(e, p, offset, true, data[..OnTrack(offset, n)]);
      var m := OnTrack(offset, n);
      var q := Leg(e, p, offset, true, data[..m]);
      WrittenSecond(e, q, offset + m, n - m, data[m..], t);
      LastOnTrack(offset, n);
      var rest := Served(e, q, offset + m, n - m, true, data[m..]);
      if offset + m >= FLOPPY_SIZE { RestEnds(e, q, offset + m, n - m, true, data[m..]); }
      if rest.served > 0 {
        TrackOrder(offset + m, offset + m + rest.served - 1);
        assert TrackOf(offset) < t ==> SecondFor(e, q, offset + m, t) == SecondFor(e, p, offset, t);
      }
    } else {
      RestEnds(e, p, offset, n, true, data);
    }
  }

  /** The first track of a request whose sync words are not all there ends it, in a failed assertion exactly if its
      format byte or the word in place of the sync word does not pass for that of a header. */
  lemma {:induction false} MissingExactly(e: Setting, p: Picture, offset: nat, n: nat, write: bool, data: seq<Byte>, t: nat)
    requires Sane(p) && (write ==> |data| == n) && n > 0 && |p.seconds| == NTRACKS
    requires t < NTRACKS && TrackOf(offset) <= t <= TrackOf(offset + n - 1) && !LoadsIn(p, offset, t)
    requires forall u: nat :: TrackOf(offset) <= u < t ==> LoadsIn(p, offset, u)
    ensures Served(e, p, offset, n, write, data).outcome == if Survives(e.formats(t), p.seconds[t]) then Misread else Panic
    decreases n
  {
    hide Sane, TrackOf, OnTrack, Address, Overwritten, Served, Leg, Survives;
    SaneSizes(p);
    TrackOrder(offset, offset + n - 1);
    if TrackOf(offset) == t {
      RestEnds(e, p, offset, n, write, data);
    } else {
      assert LoadsIn(p, offset, TrackOf(offset));
      FirstLeg(e, p, offset, n, write, data);
      LegIs(e, p, offset, write, Chunk(data, write, OnTrack(offset, n)));
      LastOnTrack(offset, n);
      var m := OnTrack(offset, n);
      var q := Leg(e, p, offset, write, Chunk(data, write, m));
      forall u: nat {:trigger LoadsIn(q, offset + m, u)} | TrackOf(offset + m) <= u < t ensures LoadsIn(q, offset + m, u) { assert LoadsIn(p, offset, u); }
      MissingExactly(e, q, offset + m, n - m, write, Others(data, write, m), t);
    }
  }
}
