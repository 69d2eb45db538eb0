/** The streaming write path of the FUSE daemon: every open handle stages one
    sub-segment window in a 64K tail buffer and streams everything else into an
    engine write session. */
module WriteStaging {
  import opened Options
  import opened Bytes
  import opened SegmentMap
  import opened ChildRecipe
  import opened StoredFile
  import opened EngineSession
  import opened Standings
  import opened EngineCalls

  type Name = string

  const SEGMENT_NUMBERS: nat := 0x1_0000_0000  // values of the 32-bit segment number

  const ENOENT := -2
  const EIO := -5
  const ENOMEM := -12
  const EINVAL := -22
  const ENOSPC := -28
  const EROFS := -30
  const ESTALE := -116

  datatype ReadResult = Data(bytes: Content) | Error(errno: int)

  /** An engine write session. The file it forks is loaded at the first engine call that
      needs it, not when the session begins. */
  datatype Session = Fresh | Loaded(st: Engine)

  type FailCode = rc: int | rc != 0 witness -1

  /** How one engine call goes: well; refused before anything is done; failing to load the
      old file, possibly after some windows of it; or short of space from some point on. */
  datatype Answer =
    | Ok
    | Refused(rc: FailCode)
    | LoadFailed(rc: FailCode, windows: Option<nat>)
    | Short(rc: FailCode, room: bool, space: nat -> bool) {
    /** Nothing of the old file was there when the load failed. */
    predicate LosesFile() { LoadFailed? && windows.None? }
  }

  /** How the write loop ended: all data taken; a full segment refused by the
      engine; a piece not staged because the window before it could not be pushed;
      or no tail buffer. */
  datatype LoopEnd = Finished | SegmentRefused(rc: FailCode) | StageRefused | NoMemory

  /** Engine write-session code to FUSE errno: no space, a stale handle and a file too big are
      told apart, and anything else is an I/O error. */
  function WriteErrno(rc: int): (e: int)
    ensures e in {-28, -116, -27, -5}
    ensures (e == -28 <==> rc == -2) && (e == -116 <==> rc == -116) && (e == -27 <==> rc == -27)
  {
    if rc == NO_SPACE then ENOSPC
    else if rc == ESTALE then ESTALE
    else if rc == EFBIG then EFBIG
    else EIO
  }

  /** Segments in a child recipe. */
  type ChildSegs = n: nat | 1 <= n <= CHILD_SEGS_MAX witness 65536

  /** The volume behind the daemon: committed files by name, and oracles for how each
      engine call goes and whether a file can be taken over as it is. */
  class Volume {
    var files: map<Name, File>
    var calls: nat   // engine calls made so far
    var faults: nat  // how many of them failed
    var lost: nat    // how many of those failed to load the file they fork
    const oracle: nat -> Answer
    const plain: nat -> bool
    const childSegs: ChildSegs
    const writable: bool

    constructor (writable: bool, childSegs: ChildSegs, oracle: nat -> Answer, plain: nat -> bool)
      ensures files == map[] && calls == 0 && faults == 0 && lost == 0
      ensures this.writable == writable && this.childSegs == childSegs && this.oracle == oracle
    {
      this.writable, this.childSegs, this.oracle, this.plain := writable, childSegs, oracle, plain;
      files, calls, faults, lost := map[], 0, 0, 0;
    }

    function FileOf(name: Name): File
      reads this`files
    {
      if name in files then files[name] else FileRec([], 0)
    }

    ghost function Committed(name: Name): Content
      reads this`files
    {
      FileBytes(FileOf(name))
    }

    /** No call fails for want of the old file. */
    ghost predicate Loads() {
      forall i :: !oracle(i).LoadFailed?
    }

    /** The engine answers every call. */
    ghost predicate AllOk() {
      forall i :: oracle(i).Ok?
    }

    /** A failure is reported with the code that the last call was refused with. */
    ghost predicate Blames(rc: int)
      reads this`calls
    {
      calls > 0 && oracle(calls - 1).Refused? ==> rc == oracle(calls - 1).rc
    }

    method Ask() returns (a: Answer)
      modifies this`calls, this`faults
      ensures calls == old(calls) + 1 && a == oracle(old(calls))
      ensures faults == old(faults) + if a.Ok? then 0 else 1
    {
      a := oracle(calls);
      calls := calls + 1;
      if !a.Ok? { faults := faults + 1; }
    }
  }

  class WriteHandle {
    const name: Name
    var ws: Option<Session>
    var tail: Content  // empty until the 64K buffer is allocated
    var tailSeg: nat
    var tailLo: nat
    var tailHi: nat
    var nextDirty: WriteHandle?

    constructor (name: Name)
      ensures this.name == name && ws == None && WindowOk() && !Staged()
      ensures tail == [] && nextDirty == null
    {
      this.name := name;
      ws, tail, nextDirty := None, [], null;
      tailSeg, tailLo, tailHi := 0, 0, 0;
    }

    predicate Staged()
      reads this`tailLo, this`tailHi
    {
      tailLo < tailHi
    }

    /** Nothing is staged without a session to push it to. */
    ghost predicate Tidy()
      reads this`ws, this`tailLo, this`tailHi
    {
      ws.None? ==> !Staged()
    }

    /** The staged window is one interval inside one segment whose number fits in
        32 bits. */
    ghost predicate WindowOk()
      reads this`tail, this`tailSeg, this`tailLo, this`tailHi
    {
      && (tail != [] ==> |tail| == SEG)
      && (Staged() ==> tailHi <= |tail|)
      && tailSeg < SEGMENT_NUMBERS
    }

    /** A window is staged that `n` bytes at `soff` of segment `seg` cannot join, and the engine
        will refuse to take it. */
    ghost predicate Stuck(vol: Volume, seg: nat, soff: nat, n: nat)
      reads this`tailSeg, this`tailLo, this`tailHi, vol`calls
    {
      Staged() && (tailSeg != seg || soff > tailHi || soff + n < tailLo) && !vol.oracle(vol.calls).Ok?
    }

    /** A window is staged, and pushing it will lose the file it is to be written to. */
    ghost predicate Losing(vol: Volume)
      reads this`ws, this`tailLo, this`tailHi, vol`calls
    {
      ws == Some(Fresh) && Staged() && vol.oracle(vol.calls).LosesFile()
    }

    /** ... and did: the session counts as loaded and is empty. */
    ghost predicate Lost(vol: Volume)
      reads this`ws, this`tailLo, this`tailHi, vol`files
    {
      && ws.Some? && ws.value.Loaded? && Staged() && Healthy(vol)
      && Base(vol) == [] && BaseNow(vol).front == 0
    }

    /** The session alone, over the committed file `f`: before it is loaded, `f`. */
    ghost function BaseOver(vol: Volume, f: File): Standing
      reads this`ws
    {
      if ws.Some? && ws.value.Loaded? then OfSession(ws.value.st) else OfFile(vol.childSegs, f)
    }

    /** What the handle stands for: the session with the staged window written to it. */
    ghost function NowOver(vol: Volume, f: File): Standing
      requires WindowOk()
      reads this`ws, this`tail, this`tailSeg, this`tailLo, this`tailHi
    {
      Windowed(vol.childSegs, BaseOver(vol, f), tailSeg, tail, tailLo, tailHi)
    }

    ghost function BaseNow(vol: Volume): Standing
      reads this`ws, vol`files
    {
      BaseOver(vol, vol.FileOf(name))
    }

    ghost function Now(vol: Volume): Standing
      requires WindowOk()
      reads this`ws, this`tail, this`tailSeg, this`tailLo, this`tailHi, vol`files
    {
      NowOver(vol, vol.FileOf(name))
    }

    ghost function Base(vol: Volume): Content
      reads this`ws, vol`files
    {
      BaseNow(vol).view
    }

    ghost function View(vol: Volume): Content
      requires WindowOk()
      reads this`ws, this`tail, this`tailSeg, this`tailLo, this`tailHi, vol`files
    {
      Now(vol).view
    }

    /** The session, if it is loaded, streams. */
    ghost predicate Healthy(vol: Volume)
      reads this`ws
    {
      ws.Some? && ws.value.Loaded? ==> ws.value.st.Flows() && ws.value.st.childSegs == vol.childSegs
    }

    /** ... and can take the staged window without going back to a sealed child. */
    ghost predicate Sound(vol: Volume)
      reads this`ws, this`tailSeg, this`tailLo, this`tailHi, vol`files
    {
      Healthy(vol) &&
      (Staged() ==> CanTake(vol.childSegs, BaseNow(vol).front, SegmentStart(tailSeg) + tailLo, tailHi - tailLo))
    }

    /** ... and then a write of `n` bytes at `off`. */
    ghost predicate Ready(vol: Volume, off: nat, n: nat)
      requires WindowOk()
      reads this`ws, this`tail, this`tailSeg, this`tailLo, this`tailHi, vol`files
    {
      Sound(vol) && CanTake(vol.childSegs, Now(vol).front, off, n)
    }

    /** The file the session forks is loaded once; a failed load counts as done all the same,
        and leaves whatever it got: all of the file exactly when the rest is zeros. */
    method LoadOld(vol: Volume, a: Answer) returns (ok: bool)
      requires ws.Some? && vol.calls > 0
      modifies this`ws, vol`lost
      ensures ws.Some? && ws.value.Loaded? && (old(Healthy(vol)) ==> Healthy(vol))
      ensures old(vol.lost) <= vol.lost && (ok <==> vol.lost == old(vol.lost))
      ensures ok ==> Within(BaseNow(vol), old(BaseNow(vol)))
      ensures old(ws.value.Loaded?) ==> ok && ws == old(ws)
      ensures old(ws.value.Fresh?) && a.LoadFailed? ==> !ok
      ensures old(BaseNow(vol).backed) && !a.LoadFailed? ==> ok
      ensures old(ws.value.Fresh?) && a.LosesFile() ==> Base(vol) == [] && BaseNow(vol).front == 0
      ensures old(ws.value.Fresh? && BaseNow(vol).backed) && a.LoadFailed? && a.windows.Some? ==>
        (Base(vol) == old(Base(vol)) <==>
         forall i: nat :: a.windows.value * SEG <= i < |old(Base(vol))| ==> old(Base(vol))[i] == 0)
    {
      hide Tiled, Snapshot.Ok, Snapshot.Flows, Flat, Within, Shorts, Reaches, Tall;
      ok := true;
      SelfWithin(BaseNow(vol));
      if ws.value.Loaded? { return; }
      var f := vol.FileOf(name);
      assert |FileBytes(f)| == f.size;
      var st;
      if a.LoadFailed? {
        st := LoadPart(vol.childSegs, f, a.windows);
        ok := false;
      } else {
        st, ok := Load(vol.childSegs, f, vol.plain(vol.calls - 1));
      }
      ws := Some(Loaded(st));
      if !ok { vol.lost := vol.lost + 1; }
    }
    /** The write once the file is loaded. */
    method RangeLoaded(vol: Volume, a: Answer, off: nat, d: Content) returns (rc: int, ghost done: nat)
      requires ws.Some? && ws.value.Loaded? && (a.Ok? || a.Short?) && d != []
      modifies this`ws
      ensures ws.Some? && ws.value.Loaded? && done <= |d| && (rc == 0 ==> done == |d|)
      ensures old(Healthy(vol)) && CanTake(vol.childSegs, old(BaseNow(vol)).front, off, |d|) ==>
        && Healthy(vol) && (a.Ok? ==> rc == 0)
        && Within(BaseNow(vol), Partly(vol.childSegs, old(BaseNow(vol)), off, d, done))
    {
      hide Snapshot.Ok, Snapshot.Flows, Within, OfSession, OfFile, Partly, TooBig, ChildOf, SegOf;
      SessionFront(ws.value.st);
      var room, space := a.Ok? || a.room, if a.Ok? then (_ => true) else a.space;
      var st;
      st, rc, done := Range(ws.value.st, off, d, room, space);
      ws := Some(Loaded(st));
    }

    /** The write once the engine has answered it. */
    method WriteAnswered(vol: Volume, a: Answer, off: nat, d: Content) returns (rc: int, ghost done: nat)
      requires ws.Some? && d != [] && vol.calls > 0
      modifies this`ws, vol`faults, vol`lost
      ensures ws.Some? && done <= |d| && (rc == 0 ==> done == |d|)
      ensures old(vol.faults) <= vol.faults && old(vol.lost) <= vol.lost
      ensures rc == 0 <==> a.Ok? && vol.faults == old(vol.faults)
      ensures a.Refused? ==> rc == a.rc
      ensures a.Ok? && vol.faults == old(vol.faults) ==> vol.lost == old(vol.lost)
      ensures a.Ok? && old(BaseNow(vol).backed && Healthy(vol)) ==>
        (CanTake(vol.childSegs, old(BaseNow(vol)).front, off, |d|) ==> rc == 0)
      ensures old(BaseNow(vol).backed) && !a.LoadFailed? ==> vol.lost == old(vol.lost)
      ensures old(ws.value.Fresh?) && a.LosesFile() ==>
        ws.value.Loaded? && Base(vol) == [] && BaseNow(vol).front == 0 && Healthy(vol)
      ensures old(Healthy(vol)) && vol.lost == old(vol.lost) ==>
        (CanTake(vol.childSegs, old(BaseNow(vol)).front, off, |d|) ==>
           Healthy(vol) && Within(BaseNow(vol), Partly(vol.childSegs, old(BaseNow(vol)), off, d, done)))
    {
      hide Healthy, Base, BaseNow, Within, Partly, TooBig, CanTake, Volume.FileOf, OfSession, OfFile;
      done := 0;
      ghost var n, s0 := vol.childSegs, BaseNow(vol);
      FreshHealthy(vol);
      if CanTake(n, s0.front, off, |d|) { NonePartly(n, s0, off, d); }
      if a.Refused? { return a.rc, 0; }
      var ok := LoadOld(vol, a);
      ghost var s1 := BaseNow(vol);
      if !ok {
        if a.Ok? { vol.faults := vol.faults + 1; }
        return if a.LoadFailed? then a.rc else -1, 0;
      }
      if a.LoadFailed? { return a.rc, 0; }
      if CanTake(n, s0.front, off, |d|) { TakesSooner(n, s1, s0, off, |d|); }
      rc, done := RangeLoaded(vol, a, off, d);
      if CanTake(n, s0.front, off, |d|) && old(Healthy(vol)) { PartlyFrom(n, BaseNow(vol), s1, s0, off, d, done); }
      if a.Short? {
        rc := a.rc;
      } else if rc != 0 {
        vol.faults := vol.faults + 1;
      }
    }

    /** vol_write_range on this handle's session. With the old file loaded, what is taken is
        written, unless the write goes back to a sealed child. */
    method WriteRange(vol: Volume, off: nat, d: Content) returns (rc: int, ghost done: nat)
      requires ws.Some?
      modifies this`ws, vol`calls, vol`faults, vol`lost
      ensures ws.Some? && done <= |d| && (rc == 0 ==> done == |d|)
      ensures old(vol.faults) <= vol.faults && old(vol.lost) <= vol.lost
      ensures vol.faults == old(vol.faults) ==> vol.lost == old(vol.lost)
      ensures d == [] ==> rc == 0 && vol.calls == old(vol.calls) && ws == old(ws)
      ensures off + |d| <= MAX_FILE_SIZE ==> (rc == 0 <==> vol.faults == old(vol.faults))
      ensures d != [] && off + |d| <= MAX_FILE_SIZE ==>
        vol.calls == old(vol.calls) + 1 && (rc == 0 ==> vol.oracle(old(vol.calls)).Ok?) && vol.Blames(rc)
      ensures d != [] && vol.oracle(old(vol.calls)).Ok? ==>
        (old(BaseNow(vol).backed && Healthy(vol)) && CanTake(vol.childSegs, old(BaseNow(vol)).front, off, |d|) ==>
           rc == 0)
      ensures old(BaseNow(vol).backed) && vol.Loads() ==> vol.lost == old(vol.lost)
      ensures old(ws.value.Fresh?) && vol.oracle(old(vol.calls)).LosesFile() ==>
        (d != [] && off + |d| <= MAX_FILE_SIZE ==>
           rc != 0 && ws.value.Loaded? && Base(vol) == [] && BaseNow(vol).front == 0 && Healthy(vol))
      ensures old(Healthy(vol)) && vol.lost == old(vol.lost) ==>
        (CanTake(vol.childSegs, old(BaseNow(vol)).front, off, |d|) ==>
           Healthy(vol) && Within(BaseNow(vol), Partly(vol.childSegs, old(BaseNow(vol)), off, d, done)))
    {
      hide Healthy, Base, BaseNow, Within, Partly, TooBig, CanTake, Volume.FileOf, Volume.Loads, OfSession, OfFile;
      rc, done := 0, 0;
      AnswersOk(vol);
      ghost var n, s0 := vol.childSegs, BaseNow(vol);
      if CanTake(n, s0.front, off, |d|) { NonePartly(n, s0, off, d); }
      if d == [] { return; }
      if off + |d| > MAX_FILE_SIZE {
        BeyondBound(n, s0.front, off, |d|);
        return EFBIG, 0;
      }
      var a := vol.Ask();
      rc, done := WriteAnswered(vol, a, off, d);
    }

    /** The staged window is one write, and the handle stands for the session after it. */
    lemma WindowWrite(vol: Volume)
      requires WindowOk() && Staged()
      ensures Now(vol) ==
        After(vol.childSegs, BaseNow(vol), SegmentStart(tailSeg) + tailLo, tail[tailLo..tailHi])
      ensures Now(vol).backed == BaseNow(vol).backed
      ensures SegmentStart(tailSeg) + tailHi <= MAX_FILE_SIZE && tailHi <= SEG
    {
    }

    lemma NothingStaged(vol: Volume)
      requires WindowOk()
      ensures !Staged() ==> BaseNow(vol) == Now(vol) && Base(vol) == View(vol) && (Healthy(vol) ==> Sound(vol))
    {
    }

    lemma SoundTakes(vol: Volume)
      requires WindowOk() && Staged()
      ensures Sound(vol) <==>
        Healthy(vol) && CanTake(vol.childSegs, BaseNow(vol).front, SegmentStart(tailSeg) + tailLo, tailHi - tailLo)
    {
    }

    /** Pushes the staged window into the session. Whatever the engine answers, unless it
        fails to load the file, what a sound handle stands for does not change; a failed push
        keeps the window. */
    method FlushTail(vol: Volume) returns (rc: int)
      requires ws.Some? && WindowOk()
      modifies this`ws, this`tailLo, this`tailHi, vol`calls, vol`faults, vol`lost
      ensures ws.Some? && WindowOk()
      ensures old(vol.faults) <= vol.faults && old(vol.lost) <= vol.lost
      ensures vol.faults == old(vol.faults) ==> vol.lost == old(vol.lost)
      ensures old(Sound(vol)) && vol.lost == old(vol.lost) ==> Sound(vol) && Within(Now(vol), old(Now(vol)))
      ensures rc == 0 ==> !Staged() && BaseNow(vol) == Now(vol)
      ensures rc != 0 ==> Staged() && tailLo == old(tailLo) && tailHi == old(tailHi)
      ensures rc == 0 <==> vol.faults == old(vol.faults)
      ensures old(!Staged()) ==> rc == 0 && vol.calls == old(vol.calls)
      ensures old(Staged()) ==>
        vol.calls == old(vol.calls) + 1 && (rc == 0 ==> vol.oracle(old(vol.calls)).Ok?) && vol.Blames(rc)
      ensures old(Staged() && Sound(vol) && Now(vol).backed) && vol.oracle(old(vol.calls)).Ok? ==> rc == 0
      ensures old(Now(vol).backed) && vol.Loads() ==> vol.lost == old(vol.lost)
      ensures old(Staged() && ws.value.Fresh?) && vol.oracle(old(vol.calls)).LosesFile() ==>
        rc != 0 && ws.value.Loaded? && Base(vol) == [] && BaseNow(vol).front == 0 && Healthy(vol)
    {
      hide BaseNow, Now, Base, View, Healthy, Sound, Within, Volume.Loads, Volume.FileOf, After, Partly, CanTake;
      hide SegmentStart;
      ghost var n, s0, s1, done := vol.childSegs, BaseNow(vol), Now(vol), 0;
      NothingStaged(vol);
      SelfWithin(s1);
      if !Staged() { return 0; }
      WindowWrite(vol);
      SoundTakes(vol);
      FreshHealthy(vol);
      var off, d := SegmentStart(tailSeg) + tailLo, tail[tailLo..tailHi];
      rc, done := WriteRange(vol, off, d);
      WindowWrite(vol);
      SoundTakes(vol);
      if old(Sound(vol)) && vol.lost == old(vol.lost) {
        PushedWithin(n, BaseNow(vol), s0, tailSeg, tail, tailLo, tailHi, done);
      }
      if rc == 0 {
        tailLo, tailHi := 0, 0;
      }
      NothingStaged(vol);
    }

    lemma FreshHealthy(vol: Volume)
      ensures ws.Some? && ws.value.Fresh? ==> Healthy(vol)
    {
    }
    /** Copies one piece into the tail buffer and grows the window to cover it. */
    method Stage(vol: Volume, seg: nat, soff: nat, piece: Content)
      requires WindowOk() && tail != []
      requires seg < SEGMENT_NUMBERS && piece != [] && soff + |piece| <= SEG
      requires Staged() ==> tailSeg == seg && soff <= tailHi && tailLo <= soff + |piece|
      modifies this`tail, this`tailSeg, this`tailLo, this`tailHi
      ensures WindowOk() && Staged() && tailSeg == seg
      ensures Now(vol) == After(vol.childSegs, old(Now(vol)), SegmentStart(seg) + soff, piece)
      ensures old(Ready(vol, SegmentStart(seg) + soff, |piece|)) ==> Sound(vol)
    {
      hide Splice, IsSplice, SpliceBytes, BaseNow, Now, Healthy, Sound, Ready, After, CanTake, SegmentStart;
      var buf := SpliceBytes(tail, soff, piece);
      var lo := if Staged() && tailLo <= soff then tailLo else soff;
      var hi := if Staged() && soff + |piece| <= tailHi then tailHi else soff + |piece|;
      StagedNow(vol, seg, soff, piece, lo, hi);
      StagedTakes(vol, seg, soff, |piece|, lo, hi);
      ghost var s0 := BaseNow(vol);
      tail, tailSeg, tailLo, tailHi := buf, seg, lo, hi;
      assert BaseNow(vol) == s0;
      NowIs(vol);
      SoundTakes(vol);
    }

    lemma NowIs(vol: Volume)
      requires WindowOk()
      ensures Now(vol) == Windowed(vol.childSegs, BaseNow(vol), tailSeg, tail, tailLo, tailHi)
    {
    }

    lemma StagedNow(vol: Volume, seg: nat, soff: nat, piece: Content, lo: nat, hi: nat)
      requires WindowOk() && tail != [] && piece != [] && soff + |piece| <= SEG
      requires Staged() ==> tailSeg == seg && soff <= tailHi && tailLo <= soff + |piece|
      requires lo == if Staged() && tailLo <= soff then tailLo else soff
      requires hi == if Staged() && soff + |piece| <= tailHi then tailHi else soff + |piece|
      ensures lo < hi <= |Splice(tail, soff, piece)| == SEG
      ensures Windowed(vol.childSegs, BaseNow(vol), seg, Splice(tail, soff, piece), lo, hi) ==
              After(vol.childSegs, Now(vol), SegmentStart(seg) + soff, piece)
    {
      hide Splice, IsSplice, After, BaseNow, Now;
      NowIs(vol);
      GrowWindowed(vol.childSegs, BaseNow(vol), seg, tail, tailLo, tailHi, soff, piece, lo, hi);
    }

    lemma StagedTakes(vol: Volume, seg: nat, soff: nat, k: nat, lo: nat, hi: nat)
      requires WindowOk() && k > 0 && soff + k <= SEG && (Staged() ==> tailSeg == seg)
      requires lo == if Staged() && tailLo <= soff then tailLo else soff
      requires hi == if Staged() && soff + k <= tailHi then tailHi else soff + k
      ensures lo < hi <= SEG
      ensures Ready(vol, SegmentStart(seg) + soff, k) ==>
                Healthy(vol) && CanTake(vol.childSegs, BaseNow(vol).front, SegmentStart(seg) + lo, hi - lo)
    {
      hide BaseNow, Now, Healthy, CanTake, SegmentStart, ChildOf;
      var n := vol.childSegs;
      CanTakeGrown(n, Now(vol).front, seg, soff, soff + k);
      CanTakeGrown(n, BaseNow(vol).front, seg, lo, hi);
      if Staged() {
        CanTakeGrown(n, BaseNow(vol).front, seg, tailLo, tailHi);
      } else {
        NothingStaged(vol);
      }
    }

    /** A piece that fills its segment goes straight to the engine, after the window. */
    method PutSegment(vol: Volume, off: nat, piece: Content) returns (rc: int)
      requires ws.Some? && WindowOk()
      requires |piece| == SEG && off + |piece| <= MAX_FILE_SIZE
      modifies this`ws, this`tailLo, this`tailHi, vol`calls, vol`faults, vol`lost
      ensures ws.Some? && WindowOk() && old(vol.faults) <= vol.faults && old(vol.lost) <= vol.lost
      ensures vol.faults == old(vol.faults) ==> vol.lost == old(vol.lost)
      ensures old(Ready(vol, off, |piece|)) && vol.lost == old(vol.lost) && rc == 0 ==>
        Sound(vol) && Within(Now(vol), After(vol.childSegs, old(Now(vol)), off, piece))
      ensures (vol.faults == old(vol.faults) <==> rc == 0) && (rc != 0 ==> vol.Blames(rc))
      ensures old(Staged()) && !vol.oracle(old(vol.calls)).Ok? ==> rc != 0
      ensures old(Ready(vol, off, |piece|) && Now(vol).backed) && vol.AllOk() ==> rc == 0
      ensures old(Now(vol).backed && Sound(vol)) && vol.Loads() ==> vol.lost == old(vol.lost)
    {
      hide BaseNow, Now, Base, View, Healthy, Sound, Within, Volume.Loads, Volume.AllOk, After, Partly, CanTake;
      ghost var n, s0, ready := vol.childSegs, Now(vol), Ready(vol, off, |piece|);
      AnswersOk(vol);
      rc := FlushTail(vol);
      if rc == 0 {
        NothingStaged(vol);
        ghost var s1 := Now(vol);
        if old(Sound(vol)) && vol.lost == old(vol.lost) { StillBacked(s1, s0); }
        if ready && vol.lost == old(vol.lost) { PushedTakes(vol, s0, off, |piece|); }
        ghost var done;
        AnswersOk(vol);
        rc, done := WriteRange(vol, off, piece);
        NothingStaged(vol);
        if ready && vol.lost == old(vol.lost) && rc == 0 { AfterFrom(n, BaseNow(vol), s1, s0, off, piece); }
      }
    }

    lemma AnswersOk(vol: Volume)
      ensures vol.AllOk() ==> vol.oracle(vol.calls).Ok? && vol.oracle(vol.calls + 1).Ok?
      ensures vol.Loads() ==> !vol.oracle(vol.calls).LoadFailed?
    {
    }

    lemma PushedTakes(vol: Volume, s0: Standing, off: nat, k: nat)
      requires WindowOk() && !Staged() && Sound(vol) && Within(Now(vol), s0)
      requires CanTake(vol.childSegs, s0.front, off, k)
      ensures Healthy(vol) && CanTake(vol.childSegs, BaseNow(vol).front, off, k)
    {
      hide BaseNow, Now, CanTake;
      NothingStaged(vol);
      TakesSooner(vol.childSegs, Now(vol), s0, off, k);
    }
    /** Any other piece is staged, after pushing a window it cannot join. Returns
        the failed push's code; then nothing was staged. */
    method PutStaged(vol: Volume, seg: nat, soff: nat, piece: Content) returns (rc: int)
      requires ws.Some? && WindowOk() && tail != []
      requires seg < SEGMENT_NUMBERS && piece != [] && soff + |piece| <= SEG
      modifies this`ws, this`tail, this`tailSeg, this`tailLo, this`tailHi, vol`calls, vol`faults, vol`lost
      ensures ws.Some? && WindowOk() && old(vol.faults) <= vol.faults && old(vol.lost) <= vol.lost
      ensures vol.faults == old(vol.faults) ==> vol.lost == old(vol.lost)
      ensures old(Ready(vol, SegmentStart(seg) + soff, |piece|)) && vol.lost == old(vol.lost) ==> Sound(vol)
      ensures old(Sound(vol)) && vol.lost == old(vol.lost) && rc == 0 ==>
        Within(Now(vol), After(vol.childSegs, old(Now(vol)), SegmentStart(seg) + soff, piece))
      ensures old(Sound(vol)) && vol.lost == old(vol.lost) && rc != 0 ==> Within(Now(vol), old(Now(vol)))
      ensures vol.faults == old(vol.faults) <==> rc == 0
      ensures rc == 0 ==> Staged() && tailSeg == seg
      ensures old(Stuck(vol, seg, soff, |piece|)) ==> rc != 0
      ensures old(Sound(vol) && Now(vol).backed && !Stuck(vol, seg, soff, |piece|)) ==> rc == 0
      ensures old(!Staged()) ==> rc == 0 && vol.calls == old(vol.calls) && ws == old(ws)
      ensures old(Now(vol).backed && Sound(vol)) && vol.Loads() ==> vol.lost == old(vol.lost)
    {
      hide BaseNow, Now, Base, View, Healthy, Sound, Within, Volume.Loads, After, CanTake, SegmentStart, Ready;
      ghost var n, off, s0, ready := vol.childSegs, SegmentStart(seg) + soff, Now(vol), false;
      ready := Ready(vol, off, |piece|);
      SelfWithin(s0);
      ReadySound(vol, off, |piece|);
      rc := 0;
      if Staged() && tailSeg != seg {
        rc := FlushTail(vol);
      }
      if rc == 0 && Staged() && (soff > tailHi || soff + |piece| < tailLo) {
        rc := FlushTail(vol);
      }
      if rc == 0 {
        ghost var s1 := Now(vol);
        if old(Sound(vol)) && vol.lost == old(vol.lost) { AfterWithin(n, s1, s0, off, piece); }
        if ready && vol.lost == old(vol.lost) { StillReady(vol, s0, off, |piece|); }
        Stage(vol, seg, soff, piece);
      }
    }

    lemma ReadySound(vol: Volume, off: nat, k: nat)
      requires WindowOk()
      ensures Ready(vol, off, k) <==> Sound(vol) && CanTake(vol.childSegs, Now(vol).front, off, k)
    {
    }

    lemma StillReady(vol: Volume, s0: Standing, off: nat, k: nat)
      requires WindowOk() && Sound(vol) && Within(Now(vol), s0) && CanTake(vol.childSegs, s0.front, off, k)
      ensures Ready(vol, off, k)
    {
      hide Now, Sound, CanTake;
      TakesSooner(vol.childSegs, Now(vol), s0, off, k);
    }

    /** The staged half of one turn of the write loop, with the tail buffer
        allocated on first use. */
    method PutSub(vol: Volume, off: nat, piece: Content, tailAlloc: bool) returns (rc: int, noMem: bool)
      requires ws.Some? && WindowOk()
      requires piece != [] && OffsetIn(off) + |piece| <= SEG && off + |piece| <= MAX_FILE_SIZE
      modifies this`ws, this`tail, this`tailSeg, this`tailLo, this`tailHi, vol`calls, vol`faults, vol`lost
      ensures ws.Some? && WindowOk() && old(vol.faults) <= vol.faults && old(vol.lost) <= vol.lost
      ensures vol.faults == old(vol.faults) ==> vol.lost == old(vol.lost)
      ensures noMem ==> !tailAlloc && old(tail) == [] && vol.faults == old(vol.faults)
      ensures old(Ready(vol, off, |piece|)) && vol.lost == old(vol.lost) ==> Sound(vol)
      ensures old(Sound(vol)) && vol.lost == old(vol.lost) && !noMem && rc == 0 ==>
        Within(Now(vol), After(vol.childSegs, old(Now(vol)), off, piece))
      ensures old(Sound(vol)) && vol.lost == old(vol.lost) && (noMem || rc != 0) ==> Within(Now(vol), old(Now(vol)))
      ensures !noMem ==> (vol.faults == old(vol.faults) <==> rc == 0)
      ensures !noMem && rc == 0 ==> Staged() && tailSeg == SegOf(off)
      ensures old(Stuck(vol, SegOf(off), OffsetIn(off), |piece|)) ==> !noMem && rc != 0
      ensures old(Sound(vol) && Now(vol).backed && !Stuck(vol, SegOf(off), OffsetIn(off), |piece|)) ==> rc == 0
      ensures old(!Staged()) ==> rc == 0 && vol.calls == old(vol.calls) && ws == old(ws)
      ensures old(Now(vol).backed && Sound(vol)) && vol.Loads() ==> vol.lost == old(vol.lost)
    {
      hide BaseNow, Base, View, Healthy, Sound, Within, Volume.Loads, After, CanTake, SegmentStart, Ready, Now;
      SegmentNumberFits(off);
      hide SegOf, OffsetIn;
      ghost var s0 := Now(vol);
      SelfWithin(s0);
      ReadySound(vol, off, |piece|);
      NothingStaged(vol);
      if tail == [] {
        if !tailAlloc { return 0, true; }
        SoundUnstaged(vol);
        tail := ResizeBytes([], SEG);
        tailLo, tailHi := 0, 0;
        NothingStaged(vol);
        SoundUnstaged(vol);
        ReadySound(vol, off, |piece|);
      }
      rc := PutStaged(vol, SegOf(off) % SEGMENT_NUMBERS, OffsetIn(off), piece);
      noMem := false;
    }

    lemma SoundUnstaged(vol: Volume)
      ensures !Staged() ==> (Sound(vol) <==> Healthy(vol))
    {
    }

    /** One turn of the write loop. */
    method PutPiece(vol: Volume, off: nat, piece: Content, tailAlloc: bool) returns (end: LoopEnd)
      requires ws.Some? && WindowOk()
      requires piece != [] && OffsetIn(off) + |piece| <= SEG && off + |piece| <= MAX_FILE_SIZE
      modifies this`ws, this`tail, this`tailSeg, this`tailLo, this`tailHi, vol`calls, vol`faults, vol`lost
      ensures ws.Some? && WindowOk() && old(vol.faults) <= vol.faults && old(vol.lost) <= vol.lost
      ensures vol.faults == old(vol.faults) ==> vol.lost == old(vol.lost)
      ensures old(Ready(vol, off, |piece|)) && vol.lost == old(vol.lost) && !end.SegmentRefused? ==> Sound(vol)
      ensures old(Ready(vol, off, |piece|)) && vol.lost == old(vol.lost) && end.Finished? ==>
        Within(Now(vol), After(vol.childSegs, old(Now(vol)), off, piece))
      ensures old(Sound(vol)) && vol.lost == old(vol.lost) && (end.NoMemory? || end.StageRefused?) ==>
        Within(Now(vol), old(Now(vol)))
      ensures end.NoMemory? ==> !tailAlloc && old(tail) == []
      ensures end.NoMemory? || end.Finished? <==> vol.faults == old(vol.faults)
      ensures end.SegmentRefused? ==> vol.Blames(end.rc)
      ensures |piece| < SEG ==> !end.SegmentRefused?
      ensures |piece| < SEG && end.Finished? ==> Staged() && tailSeg == SegOf(off)
      ensures old(Stuck(vol, SegOf(off), OffsetIn(off), |piece|)) ==> !end.Finished? && !end.NoMemory?
      ensures old(Sound(vol) && Now(vol).backed && !Stuck(vol, SegOf(off), OffsetIn(off), |piece|)) && |piece| < SEG ==>
        end.Finished? || end.NoMemory?
      ensures |piece| < SEG && old(!Staged()) ==>
        (end.Finished? || end.NoMemory?) && vol.calls == old(vol.calls) && ws == old(ws)
      ensures old(Ready(vol, off, |piece|) && Now(vol).backed) && vol.AllOk() ==> vol.faults == old(vol.faults)
      ensures old(Now(vol).backed && Sound(vol)) && vol.Loads() ==> vol.lost == old(vol.lost)
    {
      hide BaseNow, Base, View, Healthy, Sound, Within, Volume.Loads, After, CanTake, SegmentStart, Ready, Now, SegOf;
      hide Volume.AllOk;
      AnswersOk(vol);
      ReadySound(vol, off, |piece|);
      if OffsetIn(off) == 0 && |piece| == SEG {
        var rc := PutSegment(vol, off, piece);
        return if rc == 0 then Finished else SegmentRefused(rc);
      }
      var rc, noMem := PutSub(vol, off, piece, tailAlloc);
      end := if noMem then NoMemory else if rc == 0 then Finished else StageRefused;
    }
    /** The prefix `data[..at]` is taken, by a handle that could take all of it. */
    ghost predicate TakenTo(vol: Volume, s0: Standing, off: nat, data: Content, at: nat)
      requires WindowOk() && at <= |data|
      reads this`ws, this`tail, this`tailSeg, this`tailLo, this`tailHi, vol`files
    {
      && CanTake(vol.childSegs, s0.front, off, |data|)
      && Sound(vol) && Within(Now(vol), After(vol.childSegs, s0, off, data[..at]))
    }

    /** The piece from `at` to `to` of the data. */
    method PutNext(vol: Volume, off: nat, data: Content, at: nat, tailAlloc: bool, ghost s0: Standing)
      returns (end: LoopEnd, to: nat)
      requires ws.Some? && WindowOk() && at < |data| && off + |data| <= MAX_FILE_SIZE
      modifies this`ws, this`tail, this`tailSeg, this`tailLo, this`tailHi, vol`calls, vol`faults, vol`lost
      ensures ws.Some? && WindowOk() && old(vol.faults) <= vol.faults && old(vol.lost) <= vol.lost
      ensures at < to <= |data| && to == NextEnd(off, |data|, at)
      ensures vol.faults == old(vol.faults) ==> vol.lost == old(vol.lost)
      ensures old(TakenTo(vol, s0, off, data, at)) && vol.lost == old(vol.lost) && !end.SegmentRefused? ==>
        TakenTo(vol, s0, off, data, if end.Finished? then to else at)
      ensures end.NoMemory? ==> !tailAlloc && old(tail) == []
      ensures end.NoMemory? || end.Finished? <==> vol.faults == old(vol.faults)
      ensures end.SegmentRefused? ==> vol.Blames(end.rc)
      ensures to - at < SEG ==> !end.SegmentRefused?
      ensures to - at < SEG && end.Finished? ==> Staged() && tailSeg == SegOf(off + at)
      ensures old(Stuck(vol, SegOf(off + at), OffsetIn(off + at), to - at)) ==> !end.Finished? && !end.NoMemory?
      ensures to - at < SEG && old(TakenTo(vol, s0, off, data, at)) && s0.backed ==>
        (!old(Stuck(vol, SegOf(off + at), OffsetIn(off + at), to - at)) ==> end.Finished? || end.NoMemory?)
      ensures to - at < SEG && old(!Staged()) ==>
        (end.Finished? || end.NoMemory?) && vol.calls == old(vol.calls) && ws == old(ws)
      ensures old(TakenTo(vol, s0, off, data, at)) && s0.backed && vol.AllOk() ==> vol.faults == old(vol.faults)
      ensures old(TakenTo(vol, s0, off, data, at)) && s0.backed && vol.Loads() ==> vol.lost == old(vol.lost)
    {
      hide *;
      to := NextEnd(off, |data|, at);
      ghost var s1, g := Now(vol), TakenTo(vol, s0, off, data, at);
      if g { NextReady(vol, s0, off, data, at, to); }
      end := PutPiece(vol, off + at, data[at..to], tailAlloc);
      if g && vol.lost == old(vol.lost) && !end.SegmentRefused? { NextTaken(vol, end, s0, s1, off, data, at, to); }
    }

    lemma NextReady(vol: Volume, s0: Standing, off: nat, data: Content, at: nat, to: nat)
      requires WindowOk() && at < to <= |data| && TakenTo(vol, s0, off, data, at)
      ensures Ready(vol, off + at, to - at) && Sound(vol) && (s0.backed ==> Now(vol).backed)
      ensures Within(Now(vol), After(vol.childSegs, s0, off, data[..at]))
      ensures CanTake(vol.childSegs, s0.front, off, |data|)
    {
      hide Now, Sound, CanTake, Splice, IsSplice, LastChild, NoLeap;
      CanTakeRest(vol.childSegs, s0, off, data, at);
      CanTakeFirst(vol.childSegs, After(vol.childSegs, s0, off, data[..at]).front, off + at, |data| - at, to - at);
      TakesSooner(vol.childSegs, Now(vol), After(vol.childSegs, s0, off, data[..at]), off + at, to - at);
    }

    lemma NextTaken(vol: Volume, end: LoopEnd, s0: Standing, s1: Standing, off: nat, data: Content, at: nat, to: nat)
      requires WindowOk() && at < to <= |data| && Sound(vol) && !end.SegmentRefused?
      requires CanTake(vol.childSegs, s0.front, off, |data|) && Within(s1, After(vol.childSegs, s0, off, data[..at]))
      requires end.Finished? ==> Within(Now(vol), After(vol.childSegs, s1, off + at, data[at..to]))
      requires !end.Finished? ==> Within(Now(vol), s1)
      ensures TakenTo(vol, s0, off, data, if end.Finished? then to else at)
    {
      hide Sound, Now, CanTake, After, Within;
      var n, s := vol.childSegs, After(vol.childSegs, s0, off, data[..at]);
      if end.Finished? {
        AfterWithin(n, s1, s, off + at, data[at..to]);
        AfterMore(n, s0, off, data, at, to);
        WithinTrans(Now(vol), After(n, s1, off + at, data[at..to]), After(n, s, off + at, data[at..to]));
      } else {
        WithinTrans(Now(vol), s1, s);
      }
    }

    /** The write loop: `done` is the length of the prefix that was taken. */
    method PutAll(vol: Volume, off: nat, data: Content, tailAlloc: bool) returns (end: LoopEnd, ghost done: nat)
      requires ws.Some? && WindowOk() && off + |data| <= MAX_FILE_SIZE
      modifies this`ws, this`tail, this`tailSeg, this`tailLo, this`tailHi, vol`calls, vol`faults, vol`lost
      ensures ws.Some? && WindowOk() && old(vol.faults) <= vol.faults && old(vol.lost) <= vol.lost && done <= |data|
      ensures vol.faults == old(vol.faults) ==> vol.lost == old(vol.lost)
      ensures old(Ready(vol, off, |data|)) && vol.lost == old(vol.lost) && !end.SegmentRefused? ==>
        Sound(vol) && Within(Now(vol), After(vol.childSegs, old(Now(vol)), off, data[..done]))
      ensures end.Finished? <==> done == |data|
      ensures end.NoMemory? ==> !tailAlloc
      ensures end.NoMemory? || end.Finished? <==> vol.faults == old(vol.faults)
      ensures end.SegmentRefused? ==> vol.Blames(end.rc)
      ensures |data| < SEG ==> !end.SegmentRefused?
      ensures data != [] && old(Stuck(vol, SegOf(off), OffsetIn(off), NextEnd(off, |data|, 0))) ==> done == 0
      ensures Part(off, |data|) && old(Ready(vol, off, |data|) && Now(vol).backed) && (tailAlloc || old(tail) != []) ==>
        (done == |data| <==> !old(Stuck(vol, SegOf(off), OffsetIn(off), |data|)))
      ensures Part(off, |data|) && end.Finished? ==> Staged() && tailSeg == SegOf(off)
      ensures Part(off, |data|) && old(!Staged()) ==>
        (end.Finished? || end.NoMemory?) && vol.calls == old(vol.calls) && ws == old(ws)
      ensures old(Ready(vol, off, |data|) && Now(vol).backed) && vol.AllOk() ==> vol.faults == old(vol.faults)
      ensures old(Ready(vol, off, |data|) && Now(vol).backed) && vol.Loads() ==> vol.lost == old(vol.lost)
    {
      hide *;
      ghost var s0, g := Now(vol), Ready(vol, off, |data|);
      PartIsOne(off, |data|);
      if g { NoneTaken(vol, off, data); }
      var at := 0;
      while at < |data|
        invariant ws.Some? && WindowOk() && at <= |data| && vol.faults == old(vol.faults) && vol.lost == old(vol.lost)
        invariant g ==> TakenTo(vol, s0, off, data, at)
        invariant at == 0 ==>
          vol.calls == old(vol.calls) && ws == old(ws) && tail == old(tail) && (Staged() <==> old(Staged()))
        invariant at == 0 && data != [] ==>
          (Stuck(vol, SegOf(off), OffsetIn(off), NextEnd(off, |data|, 0)) <==>
           old(Stuck(vol, SegOf(off), OffsetIn(off), NextEnd(off, |data|, 0))))
        invariant at != 0 && Part(off, |data|) && old(!Staged()) ==> vol.calls == old(vol.calls) && ws == old(ws)
        invariant at != 0 ==> !old(Stuck(vol, SegOf(off), OffsetIn(off), NextEnd(off, |data|, 0)))
        invariant at != 0 && Part(off, |data|) ==> at == |data| && Staged() && tailSeg == SegOf(off)
      {
        var to;
        end, to := PutNext(vol, off, data, at, tailAlloc, s0);
        if !end.Finished? {
          if g && vol.lost == old(vol.lost) && !end.SegmentRefused? { Taken(vol, s0, off, data, at); }
          return end, at;
        }
        at := to;
      }
      if g { Taken(vol, s0, off, data, at); }
      return Finished, at;
    }

    lemma NoneTaken(vol: Volume, off: nat, data: Content)
      requires WindowOk() && Ready(vol, off, |data|)
      ensures TakenTo(vol, Now(vol), off, data, 0)
    {
      hide Sound, Now, CanTake, After;
      AfterNothing(vol.childSegs, Now(vol), off, data);
    }

    lemma Taken(vol: Volume, s0: Standing, off: nat, data: Content, at: nat)
      requires WindowOk() && at <= |data| && TakenTo(vol, s0, off, data, at)
      ensures Sound(vol) && Within(Now(vol), After(vol.childSegs, s0, off, data[..at]))
    {
    }
  }

  /** Bytes of one segment, but not all of them. */
  predicate Part(off: nat, k: nat) {
    0 < k < SEG && OffsetIn(off) + k <= SEG
  }

  lemma PartIsOne(off: nat, k: nat)
    ensures Part(off, k) ==> 0 < k < SEG && NextEnd(off, k, 0) == k
    ensures forall j: nat :: j < k && k < SEG ==> NextEnd(off, k, j) - j < SEG
  {
  }

  lemma SessionFront(st: Engine)
    ensures OfSession(st).front == st.recipe.cur
  {
  }

  lemma BeyondBound(n: nat, front: nat, off: nat, k: nat)
    requires n > 0 && k > 0 && off + k > MAX_FILE_SIZE
    ensures !CanTake(n, front, off, k)
  {
  }

  /** For every offset below the file-size bound the 32-bit segment number does not
      truncate: segment and remainder give the offset back. */
  lemma SegmentNumberFits(off: nat)
    requires off < MAX_FILE_SIZE
    ensures SegOf(off) % SEGMENT_NUMBERS == SegOf(off) < SEGMENT_NUMBERS
    ensures SegmentStart(SegOf(off)) + OffsetIn(off) == off
  {
  }

  lemma AfterFrom(n: nat, s2: Standing, s1: Standing, s0: Standing, off: nat, d: Content)
    requires n > 0 && Within(s1, s0) && Within(s2, Partly(n, s1, off, d, |d|))
    ensures Within(s2, After(n, s0, off, d))
  {
    hide Within, Partly, After;
    AllPartly(n, s0, off, d);
    PartlyFrom(n, s2, s1, s0, off, d, |d|);
  }

  /** What a write takes of a file, seen from before the file was loaded. */
  lemma PartlyFrom(n: nat, s2: Standing, s1: Standing, s0: Standing, off: nat, d: Content, done: nat)
    requires n > 0 && done <= |d| && Within(s1, s0) && Within(s2, Partly(n, s1, off, d, done))
    ensures Within(s2, Partly(n, s0, off, d, done))
  {
    hide Within, Partly;
    PartlyWithin(n, s1, s0, off, d, done);
    WithinTrans(s2, Partly(n, s1, off, d, done), Partly(n, s0, off, d, done));
  }

  /** Any prefix of the window may have gone in: the window on top of it gives the same. */
  lemma PushedWithin(n: nat, a: Standing, s: Standing, seg: nat, buf: Content, lo: nat, hi: nat, done: nat)
    requires n > 0 && lo < hi <= |buf| && hi <= SEG && done <= hi - lo
    requires CanTake(n, s.front, SegmentStart(seg) + lo, hi - lo)
    requires Within(a, Partly(n, s, SegmentStart(seg) + lo, buf[lo..hi], done))
    ensures CanTake(n, a.front, SegmentStart(seg) + lo, hi - lo)
    ensures Within(After(n, a, SegmentStart(seg) + lo, buf[lo..hi]), After(n, s, SegmentStart(seg) + lo, buf[lo..hi]))
    ensures done == hi - lo ==> Within(a, After(n, s, SegmentStart(seg) + lo, buf[lo..hi]))
  {
    var off, d := SegmentStart(seg) + lo, buf[lo..hi];
    InSegment(seg, lo);
    InSegment(seg, hi - 1);
    assert off + |d| - 1 == SegmentStart(seg) + (hi - 1) && a.front <= LastChild(n, off, |d|);
    hide Within, Partly, After, LastChild, SegOf, CanTake, SegmentStart;
    PartThenAll(n, a, s, off, d, done);
    PartCanTake(n, a, s, off, d, done);
    AllPartly(n, s, off, d);
  }
}
