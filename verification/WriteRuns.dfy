/** Whole runs of the write path against the plain byte store it must look like: one
    content per name, changed at once by every write and every truncate. */
module WriteRuns {
  import opened Bytes
  import opened SegmentMap
  import opened ChildRecipe
  import opened StoredFile
  import opened RangeEffect
  import opened EngineSession
  import opened Standings
  import opened WriteStaging
  import opened DirtyHandles
  import opened WriteDaemon

  /** At most one handle is open on a name, so an operation names its handle's file. */
  datatype Op =
    | OpenAs(name: Name)
    | WriteAt(name: Name, off: nat, data: Content)
    | ReadAt(name: Name, off: nat, n: nat)
    | TruncateTo(name: Name, len: int)
    | FlushHandle(name: Name)
    | ReleaseHandle(name: Name)

  datatype Out = Code(r: int) | Got(res: ReadResult)

  /** What the writes to a file leave until it is committed: which segments are still short,
      the child they have reached, and whether they leaped over a part of one. */
  datatype Live = Live(rag: set<nat>, front: nat, tall: bool)

  /** The plain store: content by name, the names a handle is open on, and what was left of
      those that were written since they were opened, flushed or cut. */
  datatype Plain = Plain(store: map<Name, Content>, open: set<Name>, live: map<Name, Live>)

  function Get(store: map<Name, Content>, name: Name): Content {
    if name in store then store[name] else []
  }

  /** A file of `len` bytes when it was just committed. */
  ghost function Settle(n: nat, len: nat): Live
    requires n > 0
  {
    Live(SizeShorts(len), EndChild(n, len), true)
  }

  ghost function LiveOf(n: nat, p: Plain, name: Name): Live
    requires n > 0
  {
    if name in p.live then p.live[name] else Settle(n, |Get(p.store, name)|)
  }

  /** What `k` bytes written at `off` leave of a file of `len` bytes. */
  ghost function Wrote(n: nat, l: Live, len: nat, off: nat, k: nat): Live
    requires n > 0
  {
    if k == 0 then l
    else Live(l.rag - Written(off, k), LastChild(n, off, k), l.tall && NoLeap(n, len, off))
  }

  /** A commit can publish it whole: no child and no segment but the last is short. */
  ghost predicate Clear(l: Live, len: nat) {
    (l.front == 0 || l.tall) && NoRag(l.rag, len)
  }

  /** A write does not go back to a child that was left, and is within the format's bounds or
      beyond the bound on file size, where it is refused. A jump over a short segment or over
      the end of a child is allowed; but then the file is not committed before it is clear. A
      length is set only within the first child. */
  ghost predicate Allowed(n: nat, p: Plain, op: Op)
    requires n > 0
  {
    match op
    case OpenAs(name) => name !in p.open
    case ReadAt(_, _, _) => true
    case WriteAt(name, off, data) =>
      name in p.open && (off + |data| > MAX_FILE_SIZE || CanTake(n, LiveOf(n, p, name).front, off, |data|))
    case TruncateTo(name, len) =>
      name in p.open &&
      (len < 0 ||
       (LiveOf(n, p, name).front == 0 && !TooLong(n, len) &&
        NoRag(CutShorts(LiveOf(n, p, name).rag, |Get(p.store, name)|, len), len)))
    case _ => op.name in p.open && Clear(LiveOf(n, p, op.name), |Get(p.store, op.name)|)
  }

  ghost function PlainStep(n: nat, p: Plain, op: Op): Plain
    requires n > 0
  {
    match op
    case OpenAs(name) => p.(open := p.open + {name})
    case WriteAt(name, off, data) =>
      if off + |data| > MAX_FILE_SIZE then p
      else p.(store := p.store[name := Splice(Get(p.store, name), off, data)],
              live := p.live[name := Wrote(n, LiveOf(n, p, name), |Get(p.store, name)|, off, |data|)])
    case TruncateTo(name, len) =>
      if len < 0 then p
      else p.(store := p.store[name := Resize(Get(p.store, name), len)], live := p.live - {name})
    case FlushHandle(name) => p.(live := p.live - {name})
    case ReleaseHandle(name) => p.(open := p.open - {name}, live := p.live - {name})
    case _ => p
  }

  function PlainOut(p: Plain, op: Op): Out {
    match op
    case WriteAt(_, off, data) => Code(if off + |data| > MAX_FILE_SIZE then EFBIG else |data|)
    case ReadAt(name, off, len) =>
      Got(if name in p.store then Data(Slice(p.store[name], off, len)) else Error(ENOENT))
    case TruncateTo(_, len) => Code(if len < 0 then EINVAL else 0)
    case _ => Code(0)
  }

  ghost predicate AllAllowed(n: nat, p: Plain, ops: seq<Op>)
    requires n > 0
    decreases ops
  {
    ops != [] ==> Allowed(n, p, ops[0]) && AllAllowed(n, PlainStep(n, p, ops[0]), ops[1..])
  }

  ghost function PlainRun(n: nat, p: Plain, ops: seq<Op>): seq<Out>
    requires n > 0
    decreases ops
  {
    if ops == [] then [] else [PlainOut(p, ops[0])] + PlainRun(n, PlainStep(n, p, ops[0]), ops[1..])
  }

  ghost function PlainEnd(n: nat, p: Plain, ops: seq<Op>): Plain
    requires n > 0
    decreases ops
  {
    if ops == [] then p else PlainEnd(n, PlainStep(n, p, ops[0]), ops[1..])
  }

  /** A write that jumps past a short last segment must not be flushed as it is, but may be
      once a byte of that segment was written after it. */
  lemma JumpThenPad(n: nat, c: Content, off: nat, d: Content, e: Content)
    requires n > 0 && |c| % SEG != 0 && SegOf(off) > SegOf(|c|) && d != [] && off + |d| <= n * SEG
    requires e != [] && |c| % SEG + |e| <= SEG && !TooBig(n, off, |d|)
    ensures var p, open, jump := Plain(map["f" := c], {}, map[]), OpenAs("f"), WriteAt("f", off, d);
      var pad, flush := WriteAt("f", |c|, e), FlushHandle("f");
      && !AllAllowed(n, p, [open] + ([jump] + ([flush] + [])))
      && AllAllowed(n, p, [open] + ([jump] + ([pad] + ([flush] + []))))
  {
    var p, open, jump := Plain(map["f" := c], {}, map[]), OpenAs("f"), WriteAt("f", off, d);
    var pad, flush := WriteAt("f", |c|, e), FlushHandle("f");
    var p1 := PlainStep(n, p, open);
    var p2 := PlainStep(n, p1, jump);
    var p3 := PlainStep(n, p2, pad);
    JumpSteps(n, c, off, d, e, p, p1, p2, p3);
    hide Allowed, PlainStep, TooBig, SegOf;
    AllowedFirst(n, p, open, [jump] + ([flush] + []));
    AllowedFirst(n, p1, jump, [flush] + []);
    AllowedFirst(n, p2, flush, []);
    AllowedFirst(n, p, open, [jump] + ([pad] + ([flush] + [])));
    AllowedFirst(n, p1, jump, [pad] + ([flush] + []));
    AllowedFirst(n, p2, pad, [flush] + []);
    AllowedFirst(n, p3, flush, []);
  }

  lemma AllowedFirst(n: nat, p: Plain, op: Op, ops: seq<Op>)
    requires n > 0
    ensures AllAllowed(n, p, [op] + ops) <==> Allowed(n, p, op) && AllAllowed(n, PlainStep(n, p, op), ops)
    ensures AllAllowed(n, p, [])
  {
    hide Allowed, PlainStep;
    assert ([op] + ops)[1..] == ops;
  }

  lemma JumpSteps(n: nat, c: Content, off: nat, d: Content, e: Content, p: Plain, p1: Plain, p2: Plain, p3: Plain)
    requires n > 0 && |c| % SEG != 0 && SegOf(off) > SegOf(|c|) && d != [] && off + |d| <= n * SEG
    requires e != [] && |c| % SEG + |e| <= SEG && !TooBig(n, off, |d|)
    requires p == Plain(map["f" := c], {}, map[]) && p1 == PlainStep(n, p, OpenAs("f"))
    requires p2 == PlainStep(n, p1, WriteAt("f", off, d)) && p3 == PlainStep(n, p2, WriteAt("f", |c|, e))
    ensures Allowed(n, p, OpenAs("f")) && Allowed(n, p1, WriteAt("f", off, d)) && !Allowed(n, p2, FlushHandle("f"))
    ensures Allowed(n, p2, WriteAt("f", |c|, e)) && Allowed(n, p3, FlushHandle("f"))
  {
    JumpLive(n, |c|, off, |d|, |e|);
    JumpFits(n, |c|, off, |d|, |e|);
    WithinBound(n, off, |d|);
    var c1 := Splice(c, off, d);
    assert |c1| == off + |d| && |Splice(c1, |c|, e)| == off + |d|;
    hide Splice, IsSplice, Settle, Wrote, NoRag, CanTake, TooBig, SegOf;
    assert LiveOf(n, p1, "f") == Settle(n, |c|);
    assert LiveOf(n, p2, "f") == Wrote(n, Settle(n, |c|), |c|, off, |d|) && Get(p2.store, "f") == c1;
    assert LiveOf(n, p3, "f") == Wrote(n, LiveOf(n, p2, "f"), |c1|, |c|, |e|);
  }

  lemma WithinBound(n: nat, off: nat, k: nat)
    requires n > 0 && k > 0 && !TooBig(n, off, k)
    ensures off + k <= MAX_FILE_SIZE
  {
  }

  lemma JumpLive(n: nat, len: nat, off: nat, k: nat, m: nat)
    requires n > 0 && len % SEG != 0 && SegOf(off) > SegOf(len) && k > 0 && off + k <= n * SEG
    requires m > 0 && len % SEG + m <= SEG
    ensures var l1 := Wrote(n, Settle(n, len), len, off, k);
      var l2 := Wrote(n, l1, off + k, len, m);
      && Settle(n, len).front == 0 && l1.front == 0 && l2.front == 0
      && !NoRag(l1.rag, off + k) && NoRag(l2.rag, off + k)
  {
    var j := SegOf(len);
    assert (len - 1) / SEG == j && SegOf(len + m - 1) == j && SegOf(off + k - 1) < n;
    FirstChild(j, n);
    FirstChild(SegOf(off + k - 1), n);
    hide ChildOf, Written, NoLeap;
    WrittenIff(off, k, j);
    WrittenIff(len, m, j);
    assert j in SizeShorts(len) - Written(off, k) && Needed(off + k) > j + 1;
    assert SizeShorts(len) - Written(off, k) - Written(len, m) == {};
  }

  lemma JumpFits(n: nat, len: nat, off: nat, k: nat, m: nat)
    requires n > 0 && len % SEG != 0 && SegOf(off) > SegOf(len) && k > 0 && !TooBig(n, off, k)
    requires m > 0 && len % SEG + m <= SEG
    ensures len + m <= off && CanTake(n, 0, off, k) && CanTake(n, 0, len, m)
  {
    assert SegOf(len + m - 1) + n <= SegOf(off + k - 1) + n;
    ChildOrder(SegOf(len + m - 1) + n, SegOf(off + k - 1) + n, n);
  }

  /** `on` is the open handles by name: at most one for each. */
  ghost predicate Exclusive(d: Daemon, on: map<Name, WriteHandle>)
    reads d
  {
    && (forall h :: h in d.handles ==> h.name in on && on[h.name] == h)
    && (forall n :: n in on ==> on[n] in d.handles && on[n].name == n)
  }

  /** What the open handle on a name stands for, and whether it has a session. */
  datatype Snap = Snap(live: bool, now: Standing)

  ghost function Snaps(d: Daemon, on: map<Name, WriteHandle>): map<Name, Snap>
    requires d.Valid() && Exclusive(d, on)
    reads d, d.dirty, d.dirty.list, d.handles, d.vol`files
  {
    map n | n in on :: Snap(on[n].ws.Some?, on[n].Now(d.vol))
  }

  // ---- what the handles stand for, and what the plain store knows of it ----

  /** The standing that the plain store vouches for. */
  ghost function Vouched(c: Content, l: Live): Standing {
    Standing(c, l.rag, true, Needed(|c|), l.front, l.tall, false, true)
  }

  /** Handles and committed files together stand for the plain store: every handle sees its
      name's content, and a name without a session has its committed content. */
  ghost predicate Stands(n: nat, snaps: map<Name, Snap>, files: map<Name, Content>, p: Plain)
    requires n > 0
  {
    forall name :: StandsAt(n, snaps, files, p, name)
  }

  ghost predicate StandsAt(n: nat, snaps: map<Name, Snap>, files: map<Name, Content>, p: Plain, name: Name)
    requires n > 0
  {
    var c, l := Get(p.store, name), LiveOf(n, p, name);
    && (name in snaps ==> Within(snaps[name].now, Vouched(c, l)))
    && (name in snaps && snaps[name].live ==> name in p.store)
    && (name !in snaps || !snaps[name].live ==>
          name !in p.live && c == Get(files, name) && (name in p.store <==> name in files))
    && (l.front == 0 || Start(l.front, n) * SEG < |c|)
  }

  lemma StandsView(n: nat, snaps: map<Name, Snap>, files: map<Name, Content>, p: Plain, name: Name)
    requires n > 0 && Stands(n, snaps, files, p)
    ensures StandsAt(n, snaps, files, p, name)
  {
  }

  /** Bytes taken by a session change its name's content and no committed file. */
  lemma AfterWrite(n: nat, snaps: map<Name, Snap>, files: map<Name, Content>, p: Plain, op: Op, s: Standing)
    requires n > 0 && Stands(n, snaps, files, p) && op.WriteAt? && op.name in snaps
    requires op.off + |op.data| <= MAX_FILE_SIZE
    requires Within(s, After(n, snaps[op.name].now, op.off, op.data))
    ensures Stands(n, snaps[op.name := Snap(true, s)], files, PlainStep(n, p, op))
  {
    var snaps', p' := snaps[op.name := Snap(true, s)], PlainStep(n, p, op);
    forall name ensures StandsAt(n, snaps', files, p', name) {
      StandsView(n, snaps, files, p, name);
      if name == op.name {
        var c, l := Get(p.store, name), LiveOf(n, p, name);
        WroteVouched(n, c, l, op.off, op.data, snaps[name].now, s);
      }
    }
  }

  lemma WroteVouched(n: nat, c: Content, l: Live, off: nat, d: Content, s0: Standing, s: Standing)
    requires n > 0 && Within(s0, Vouched(c, l)) && Within(s, After(n, s0, off, d))
    requires l.front == 0 || Start(l.front, n) * SEG < |c|
    ensures var c', l' := Splice(c, off, d), Wrote(n, l, |c|, off, |d|);
      Within(s, Vouched(c', l')) && (l'.front == 0 || Start(l'.front, n) * SEG < |c'|)
  {
    var v, v' := Vouched(c, l), Vouched(Splice(c, off, d), Wrote(n, l, |c|, off, |d|));
    AfterWithin(n, s0, v, off, d);
    WithinTrans(s, After(n, s0, off, d), After(n, v, off, d));
    AfterVouched(n, c, l, off, d);
    WithinTrans(s, After(n, v, off, d), v');
  }

  lemma AfterVouched(n: nat, c: Content, l: Live, off: nat, d: Content)
    requires n > 0
    ensures var c', l' := Splice(c, off, d), Wrote(n, l, |c|, off, |d|);
      && Within(After(n, Vouched(c, l), off, d), Vouched(c', l'))
      && (d != [] ==> Start(l'.front, n) * SEG < |c'|)
  {
    if d != [] {
      SpliceReaches(c, off, d);
      var j := SegOf(off + |d| - 1);
      Split(j, n);
      assert j + 1 <= Needed(|Splice(c, off, d)|) && Needed(|c|) <= Needed(|Splice(c, off, d)|);
      assert j * SEG < off + |d|;
      hide Splice, IsSplice, Written, NoLeap, SegOf, ChildOf, Place, Start, Needed;
    }
  }

  /** A published file stands for its content, with nothing left of any write. */
  lemma PublishedVouched(n: nat, f: File)
    requires n > 0 && Tiled(f)
    ensures Within(OfFile(n, f), Vouched(FileBytes(f), Settle(n, f.size))) && |FileBytes(f)| == f.size
    ensures EndChild(n, f.size) == 0 || Start(EndChild(n, f.size), n) * SEG < f.size
  {
    TiledShorts(f);
    if f.size > 0 { Split((f.size - 1) / SEG, n); }
    hide ChildOf, Place, Start;
  }

  /** Publishing `f` ends the session with its bytes as both content and committed file. */
  lemma AfterPublish(n: nat, snaps: map<Name, Snap>, files: map<Name, Content>, p: Plain, name: Name, f: File)
    requires n > 0 && Stands(n, snaps, files, p) && Tiled(f)
    ensures var p' := p.(store := p.store[name := FileBytes(f)], live := p.live - {name});
      && Stands(n, snaps[name := Snap(false, OfFile(n, f))], files[name := FileBytes(f)], p')
      && Stands(n, snaps - {name}, files[name := FileBytes(f)], p')
  {
    var snaps', files' := snaps[name := Snap(false, OfFile(n, f))], files[name := FileBytes(f)];
    var p' := p.(store := p.store[name := FileBytes(f)], live := p.live - {name});
    PublishedVouched(n, f);
    forall m ensures StandsAt(n, snaps', files', p', m) && StandsAt(n, snaps - {name}, files', p', m) {
      StandsView(n, snaps, files, p, m);
    }
  }

  /** A name that has no session is as it was committed. */
  lemma AfterNothingLive(n: nat, snaps: map<Name, Snap>, files: map<Name, Content>, p: Plain, name: Name)
    requires n > 0 && Stands(n, snaps, files, p) && name in snaps && !snaps[name].live
    ensures p.live - {name} == p.live && Stands(n, snaps - {name}, files, p)
  {
    StandsView(n, snaps, files, p, name);
    forall m ensures StandsAt(n, snaps - {name}, files, p, m) {
      StandsView(n, snaps, files, p, m);
    }
  }

  lemma AfterOpen(n: nat, snaps: map<Name, Snap>, files: map<Name, Content>, p: Plain, name: Name, f: File)
    requires n > 0 && Stands(n, snaps, files, p) && name !in snaps && Tiled(f) && FileBytes(f) == Get(files, name)
    ensures Stands(n, snaps[name := Snap(false, OfFile(n, f))], files, p.(open := p.open + {name}))
  {
    var snaps', p' := snaps[name := Snap(false, OfFile(n, f))], p.(open := p.open + {name});
    PublishedVouched(n, f);
    forall m ensures StandsAt(n, snaps', files, p', m) {
      StandsView(n, snaps, files, p, m);
    }
  }

  /** Handles that stand no worse than before. */
  ghost predicate Keeps(snaps: map<Name, Snap>, snaps': map<Name, Snap>) {
    snaps'.Keys == snaps.Keys &&
    forall name :: name in snaps ==>
      snaps'[name].live == snaps[name].live && Within(snaps'[name].now, snaps[name].now)
  }

  lemma AfterRead(n: nat, snaps: map<Name, Snap>, snaps': map<Name, Snap>, files: map<Name, Content>, p: Plain)
    requires n > 0 && Stands(n, snaps, files, p) && Keeps(snaps, snaps')
    ensures Stands(n, snaps', files, p)
  {
    forall m ensures StandsAt(n, snaps', files, p, m) {
      StandsView(n, snaps, files, p, m);
    }
  }

  /** Which names are open plays no part in it. */
  lemma OpenOrNot(n: nat, snaps: map<Name, Snap>, files: map<Name, Content>, p: Plain, open: set<Name>)
    requires n > 0 && Stands(n, snaps, files, p)
    ensures Stands(n, snaps, files, p.(open := open))
  {
    forall m ensures StandsAt(n, snaps, files, p.(open := open), m) {
      StandsView(n, snaps, files, p, m);
    }
  }

  /** The committed bytes by name. */
  ghost function Contents(files: map<Name, File>): map<Name, Content> {
    map n | n in files :: FileBytes(files[n])
  }

  lemma ContentsPut(files: map<Name, File>, n: Name, f: File)
    ensures Contents(files[n := f]) == Contents(files)[n := FileBytes(f)]
  {
  }

  lemma ContentsGet(vol: Volume, n: Name)
    ensures Get(Contents(vol.files), n) == FileBytes(vol.FileOf(n))
  {
  }

  /** Every handle is sound, every committed file is covered by its entries, nothing is staged
      without a session, and no name is off the table. */
  ghost predicate Fine(d: Daemon)
    reads d, d.handles, d.vol`files
  {
    && d.hidden == {} && d.Clean()
    && (forall h :: h in d.handles ==> h.Sound(d.vol))
    && AllTiled(d.vol.files)
  }

  ghost predicate AllTiled(files: map<Name, File>) {
    forall n :: n in files ==> Tiled(files[n])
  }

  lemma TiledPut(files: map<Name, File>, n: Name, f: File)
    requires AllTiled(files) && Tiled(f)
    ensures AllTiled(files[n := f])
  {
  }

  lemma FileTiled(vol: Volume, name: Name)
    requires AllTiled(vol.files)
    ensures Tiled(vol.FileOf(name))
  {
  }

  /** The handles on every name but those in `but` stand for what they did. */
  twostate predicate Apart(d: Daemon, on: map<Name, WriteHandle>, but: set<Name>)
    requires old(d.Valid()) && d.Valid() && old(Exclusive(d, on))
    requires forall n :: n in on && n !in but ==> on[n] in d.handles
    reads d, d.dirty, d.dirty.list, d.handles, d.vol`files
  {
    forall n :: n in on && n !in but ==>
      on[n].Now(d.vol) == old(on[n].Now(d.vol)) && (on[n].ws.Some? <==> old(on[n].ws.Some?))
  }

  method DoWrite(d: Daemon, h: WriteHandle, off: nat, data: Content, ghost on: map<Name, WriteHandle>) returns (r: int)
    requires d.Valid() && h in d.handles && d.vol.writable && Exclusive(d, on)
    requires off + |data| <= MAX_FILE_SIZE
    modifies d.dirty, d.handles`nextDirty, h, d.vol`calls, d.vol`faults, d.vol`lost
    ensures d.Valid() && Exclusive(d, on) && old(d.vol.faults) <= d.vol.faults
    ensures d.vol.faults == old(d.vol.faults) && old(Fine(d) && h.Ready(d.vol, off, |data|)) ==>
              && r == |data| && Fine(d)
              && Snaps(d, on) == old(Snaps(d, on))[h.name := Snap(true, h.Now(d.vol))]
              && Within(h.Now(d.vol), After(d.vol.childSegs, old(h.Now(d.vol)), off, data))
    ensures old(h.Ready(d.vol, off, |data|) && h.Now(d.vol).backed) && d.vol.AllOk() ==>
              d.vol.faults == old(d.vol.faults)
  {
    hide Daemon.Valid, WriteHandle.Ready, WriteHandle.Now, WriteHandle.Sound, WriteHandle.Tidy, Within, After;
    hide AllTiled, Volume.AllOk;
    ghost var done;
    r, done := d.Write(h, off, data, true);
    if d.vol.faults == old(d.vol.faults) { assert data[..done] == data; }
  }

  /** A failed write rolls the handle back, whatever it had taken before: the handle shows the
      committed file again, and a commit after it succeeds and publishes nothing. */
  method FailedWriteRollsBack(d: Daemon, h: WriteHandle, off: nat, data: Content) returns (r: int, c: int)
    requires d.Valid() && h in d.handles && d.vol.writable && off + |data| <= MAX_FILE_SIZE
    modifies d`hidden, d.dirty, d.handles`nextDirty, h, d.vol
    ensures d.Valid() && h in d.handles
    ensures r < 0 ==> h.View(d.vol) == old(d.vol.Committed(h.name)) && !h.Staged()
    ensures r < 0 ==> c == 0 && d.vol.files == old(d.vol.files) && d.hidden == old(d.hidden)
  {
    hide Daemon.Valid, WriteHandle.Ready, WriteHandle.Sound, Within, After, Volume.AllOk, Volume.Blames;
    ghost var done;
    r, done := d.Write(h, off, data, true);
    c := d.Commit(h);
  }

  /** What a commit that publishes `f` leaves of the daemon. */
  ghost predicate Left(d: Daemon, h: WriteHandle, f: File)
    requires d.Valid() && h in d.handles
    reads d, d.dirty, d.dirty.list, d.handles, d.vol`files
  {
    && d.vol.FileOf(h.name) == f && h.ws.None? && h.Now(d.vol) == OfFile(d.vol.childSegs, f)
  }

  method TruncateFine(d: Daemon, h: WriteHandle, len: nat, ghost on: map<Name, WriteHandle>)
    returns (r: int, ghost f: File)
    requires d.Valid() && h in d.handles && d.vol.writable && Exclusive(d, on) && len <= MAX_FILE_SIZE
    modifies d`hidden, d.dirty, d.handles`nextDirty, h`ws, h`tailLo, h`tailHi, d.vol
    ensures d.Valid() && old(d.vol.faults) <= d.vol.faults
    ensures d.vol.faults == old(d.vol.faults) && old(Fine(d) && h.Now(d.vol).front == 0) ==>
              (Smooth(d.vol.childSegs, Recut(d.vol.childSegs, old(h.Now(d.vol)), len)) ==>
                 && r == 0 && Fine(d) && (forall n :: n != h.name ==> d.vol.FileOf(n) == old(d.vol.FileOf(n)))
                 && Left(d, h, f) && Tiled(f) && FileBytes(f) == Resize(old(h.View(d.vol)), len)
                 && Contents(d.vol.files) == old(Contents(d.vol.files))[h.name := FileBytes(f)])
    ensures old(h.Sound(d.vol) && h.Now(d.vol).front == 0 && h.Now(d.vol).backed) && d.vol.AllOk() ==>
              (!TooLong(d.vol.childSegs, len) ==>
                 (Smooth(d.vol.childSegs, Recut(d.vol.childSegs, old(h.Now(d.vol)), len)) ==>
                    d.vol.faults == old(d.vol.faults)))
  {
    hide WriteHandle.Now, WriteHandle.Healthy, WriteHandle.BaseOver, CanTake, SegmentStart, Resize, IsResize, FileBytes;
    hide Contents, DirtyList.Linked, DirtyList.Members, Publishes, Recut, Smooth, Settled, Tiled, AllTiled, OfFile;
    hide Volume.AllOk, TooLong;
    ghost var n, s0 := d.vol.childSegs, h.Now(d.vol);
    RecutView(n, s0, len);
    SmoothIsSettled(n, Recut(n, s0, len));
    r := d.Truncate(h, len);
    f := d.vol.FileOf(h.name);
    if r == 0 && old(Fine(d)) {
      ContentsPut(old(d.vol.files), h.name, f);
      if s0.front == 0 && Smooth(n, Recut(n, s0, len)) {
        PublishedSmooth(n, Recut(n, s0, len), f);
        TiledPut(old(d.vol.files), h.name, f);
      }
    }
  }

  lemma SmoothIsSettled(n: nat, s: Standing)
    ensures Smooth(n, s) ==> Settled(n, s)
  {
  }

  lemma PublishedSmooth(n: nat, s: Standing, f: File)
    requires Publishes(n, s, f) && Smooth(n, s)
    ensures Tiled(f) && FileBytes(f) == s.view
  {
  }

  /** A cut that will publish the file whole. */
  ghost predicate CutClear(d: Daemon, h: WriteHandle, len: nat)
    requires h.WindowOk()
    reads h, d.vol`files
  {
    h.Now(d.vol).front == 0 && Smooth(d.vol.childSegs, Recut(d.vol.childSegs, h.Now(d.vol), len))
  }

  method TruncateApart(d: Daemon, h: WriteHandle, len: nat, ghost on: map<Name, WriteHandle>)
    returns (r: int, ghost f: File)
    requires d.Valid() && h in d.handles && d.vol.writable && Exclusive(d, on) && len <= MAX_FILE_SIZE
    modifies d`hidden, d.dirty, d.handles`nextDirty, h`ws, h`tailLo, h`tailHi, d.vol
    ensures d.Valid() && old(d.vol.faults) <= d.vol.faults
    ensures d.vol.faults == old(d.vol.faults) && old(Fine(d) && CutClear(d, h, len)) ==>
              && r == 0 && Fine(d) && Apart(d, on, {h.name}) && Left(d, h, f)
              && Tiled(f) && FileBytes(f) == Resize(old(h.View(d.vol)), len)
              && Contents(d.vol.files) == old(Contents(d.vol.files))[h.name := FileBytes(f)]
    ensures old(Fine(d) && CutClear(d, h, len) && h.Now(d.vol).backed) && d.vol.AllOk() ==>
              (!TooLong(d.vol.childSegs, len) ==> d.vol.faults == old(d.vol.faults))
  {
    hide WriteHandle.NowOver, WriteHandle.Sound, Volume.FileOf, Contents, DirtyList.Linked, DirtyList.Members, Resize;
    hide IsResize, Smooth, Recut, Tiled, FileBytes, OfFile, Volume.AllOk, TooLong;
    r, f := TruncateFine(d, h, len, on);
  }

  method DoTruncate(d: Daemon, h: WriteHandle, len: nat, ghost on: map<Name, WriteHandle>)
    returns (r: int, ghost f: File)
    requires d.Valid() && h in d.handles && d.vol.writable && Exclusive(d, on) && len <= MAX_FILE_SIZE
    modifies d`hidden, d.dirty, d.handles`nextDirty, h`ws, h`tailLo, h`tailHi, d.vol
    ensures d.Valid() && Exclusive(d, on) && old(d.vol.faults) <= d.vol.faults
    ensures d.vol.faults == old(d.vol.faults) && old(Fine(d) && CutClear(d, h, len)) ==>
              && r == 0 && Fine(d) && Tiled(f) && FileBytes(f) == Resize(old(h.View(d.vol)), len)
              && Contents(d.vol.files) == old(Contents(d.vol.files))[h.name := FileBytes(f)]
              && Snaps(d, on) == old(Snaps(d, on))[h.name := Snap(false, OfFile(d.vol.childSegs, f))]
    ensures old(Fine(d) && CutClear(d, h, len) && h.Now(d.vol).backed) && d.vol.AllOk() ==>
              (!TooLong(d.vol.childSegs, len) ==> d.vol.faults == old(d.vol.faults))
  {
    hide WriteHandle.Now, CutClear, Fine, Contents, Daemon.Valid, Resize, IsResize, Tiled, FileBytes, OfFile, TooLong;
    hide Volume.AllOk;
    r, f := TruncateApart(d, h, len, on);
  }

  method CommitFine(d: Daemon, h: WriteHandle, ghost on: map<Name, WriteHandle>) returns (r: int, ghost f: File)
    requires d.Valid() && h in d.handles && Exclusive(d, on)
    modifies d`hidden, d.dirty, d.handles`nextDirty, h`ws, h`tailLo, h`tailHi, d.vol
    ensures d.Valid() && old(d.vol.faults) <= d.vol.faults
    ensures d.vol.faults == old(d.vol.faults) && old(Fine(d) && Smooth(d.vol.childSegs, h.Now(d.vol))) ==>
              && r == 0 && Fine(d) && (forall n :: n != h.name ==> d.vol.FileOf(n) == old(d.vol.FileOf(n)))
              && Left(d, h, f) && Tiled(f) && FileBytes(f) == old(h.View(d.vol))
              && (old(h.ws.None?) ==> old(h.Now(d.vol)) == OfFile(d.vol.childSegs, f))
              && Contents(d.vol.files) ==
                 if old(h.ws.Some?) then old(Contents(d.vol.files))[h.name := FileBytes(f)]
                 else old(Contents(d.vol.files))
    ensures old(Fine(d) && Smooth(d.vol.childSegs, h.Now(d.vol)) && h.Now(d.vol).backed) && d.vol.AllOk() ==>
              d.vol.faults == old(d.vol.faults)
  {
    hide WriteHandle.Now, WriteHandle.Healthy, WriteHandle.BaseOver, CanTake, SegmentStart, FileBytes;
    hide Contents, DirtyList.Linked, DirtyList.Members, Publishes, Smooth, Settled, Tiled, AllTiled, OfFile;
    hide Volume.AllOk;
    ghost var n, s0 := d.vol.childSegs, h.Now(d.vol);
    SmoothIsSettled(n, s0);
    if Fine(d) {
      UnsavedIs(d, h);
      FileTiled(d.vol, h.name);
    }
    h.AnswersOk(d.vol);
    r := d.Commit(h);
    f := d.vol.FileOf(h.name);
    if r == 0 && old(Fine(d)) {
      d.ValidHandle(h);
      d.Dropped(h);
    }
    if r == 0 && old(Fine(d)) && old(h.ws.Some?) {
      ContentsPut(old(d.vol.files), h.name, f);
      if Smooth(n, s0) {
        PublishedSmooth(n, s0, f);
        TiledPut(old(d.vol.files), h.name, f);
      }
    }
  }

  lemma UnsavedIs(d: Daemon, h: WriteHandle)
    requires d.Valid() && h in d.handles && d.Clean()
    ensures h.ws.None? ==> h.Now(d.vol) == OfFile(d.vol.childSegs, d.vol.FileOf(h.name))
    ensures h.ws.None? ==> h.View(d.vol) == FileBytes(d.vol.FileOf(h.name))
  {
  }

  /** The committed files after the session on `name`, if there is one, is published as `f`. */
  ghost function Published(snaps: map<Name, Snap>, files: map<Name, Content>, name: Name, f: File): map<Name, Content> {
    if name in snaps && snaps[name].live then files[name := FileBytes(f)] else files
  }

  method CommitApart(d: Daemon, h: WriteHandle, ghost on: map<Name, WriteHandle>) returns (r: int, ghost f: File)
    requires d.Valid() && h in d.handles && Exclusive(d, on)
    modifies d`hidden, d.dirty, d.handles`nextDirty, h`ws, h`tailLo, h`tailHi, d.vol
    ensures d.Valid() && old(d.vol.faults) <= d.vol.faults
    ensures d.vol.faults == old(d.vol.faults) && old(Fine(d) && Smooth(d.vol.childSegs, h.Now(d.vol))) ==>
              && r == 0 && Fine(d) && Apart(d, on, {h.name}) && Left(d, h, f)
              && Tiled(f) && FileBytes(f) == old(h.View(d.vol))
              && (old(h.ws.None?) ==> old(h.Now(d.vol)) == OfFile(d.vol.childSegs, f))
              && Contents(d.vol.files) ==
                 if old(h.ws.Some?) then old(Contents(d.vol.files))[h.name := FileBytes(f)]
                 else old(Contents(d.vol.files))
    ensures old(Fine(d) && Smooth(d.vol.childSegs, h.Now(d.vol)) && h.Now(d.vol).backed) && d.vol.AllOk() ==>
              d.vol.faults == old(d.vol.faults)
  {
    hide WriteHandle.NowOver, WriteHandle.Sound, Volume.FileOf, Contents, DirtyList.Linked, DirtyList.Members;
    hide Smooth, Tiled, FileBytes, OfFile, Volume.AllOk, Fine;
    r, f := CommitFine(d, h, on);
  }

  /** What the commit of a clear session leaves. */
  method DoCommit(d: Daemon, h: WriteHandle, ghost on: map<Name, WriteHandle>) returns (r: int, ghost f: File)
    requires d.Valid() && h in d.handles && Exclusive(d, on)
    modifies d`hidden, d.dirty, d.handles`nextDirty, h`ws, h`tailLo, h`tailHi, d.vol
    ensures d.Valid() && Exclusive(d, on) && old(d.vol.faults) <= d.vol.faults
    ensures d.vol.faults == old(d.vol.faults) && old(Fine(d) && Smooth(d.vol.childSegs, h.Now(d.vol))) ==>
              && r == 0 && Fine(d) && Tiled(f) && FileBytes(f) == old(h.View(d.vol))
              && (old(h.ws.None?) ==> old(h.Now(d.vol)) == OfFile(d.vol.childSegs, f))
              && Contents(d.vol.files) == Published(old(Snaps(d, on)), old(Contents(d.vol.files)), h.name, f)
              && Snaps(d, on) == old(Snaps(d, on))[h.name := Snap(false, OfFile(d.vol.childSegs, f))]
    ensures old(Fine(d) && Smooth(d.vol.childSegs, h.Now(d.vol)) && h.Now(d.vol).backed) && d.vol.AllOk() ==>
              d.vol.faults == old(d.vol.faults)
  {
    hide WriteHandle.Now, Fine, Contents, Daemon.Valid, Smooth, Tiled, FileBytes, OfFile, Volume.AllOk;
    r, f := CommitApart(d, h, on);
  }

  method ReleaseFine(d: Daemon, h: WriteHandle, ghost on: map<Name, WriteHandle>) returns (ghost f: File)
    requires d.Valid() && h in d.handles && Exclusive(d, on)
    modifies d`hidden, d`handles, d.dirty, d.handles`nextDirty, h`ws, h`tailLo, h`tailHi, d.vol
    ensures d.Valid() && d.handles == old(d.handles) - {h} && old(d.vol.faults) <= d.vol.faults
    ensures d.vol.faults == old(d.vol.faults) && old(Fine(d) && Smooth(d.vol.childSegs, h.Now(d.vol))) ==>
              && Fine(d) && (forall n :: n != h.name ==> d.vol.FileOf(n) == old(d.vol.FileOf(n)))
              && Tiled(f) && FileBytes(f) == old(h.View(d.vol))
              && (old(h.ws.None?) ==> old(h.Now(d.vol)) == OfFile(d.vol.childSegs, f))
              && Contents(d.vol.files) ==
                 if old(h.ws.Some?) then old(Contents(d.vol.files))[h.name := FileBytes(f)]
                 else old(Contents(d.vol.files))
    ensures old(Fine(d) && Smooth(d.vol.childSegs, h.Now(d.vol)) && h.Now(d.vol).backed) && d.vol.AllOk() ==>
              d.vol.faults == old(d.vol.faults)
  {
    hide WriteHandle.Now, WriteHandle.Healthy, WriteHandle.BaseOver, CanTake, SegmentStart, FileBytes;
    hide Contents, DirtyList.Linked, DirtyList.Members, Publishes, Smooth, Settled, Tiled, AllTiled, OfFile;
    hide Volume.AllOk;
    ghost var n, s0 := d.vol.childSegs, h.Now(d.vol);
    SmoothIsSettled(n, s0);
    if Fine(d) {
      UnsavedIs(d, h);
      FileTiled(d.vol, h.name);
    }
    d.Release(h);
    f := d.vol.FileOf(h.name);
    if d.vol.faults == old(d.vol.faults) && old(Fine(d)) && old(h.ws.Some?) {
      ContentsPut(old(d.vol.files), h.name, f);
      if Smooth(n, s0) {
        PublishedSmooth(n, s0, f);
        TiledPut(old(d.vol.files), h.name, f);
      }
    }
  }

  method ReleaseApart(d: Daemon, h: WriteHandle, ghost on: map<Name, WriteHandle>) returns (ghost f: File)
    requires d.Valid() && h in d.handles && Exclusive(d, on)
    modifies d`hidden, d`handles, d.dirty, d.handles`nextDirty, h`ws, h`tailLo, h`tailHi, d.vol
    ensures d.Valid() && d.handles == old(d.handles) - {h} && old(d.vol.faults) <= d.vol.faults
    ensures d.vol.faults == old(d.vol.faults) && old(Fine(d) && Smooth(d.vol.childSegs, h.Now(d.vol))) ==>
              && Fine(d) && Apart(d, on, {h.name}) && Tiled(f) && FileBytes(f) == old(h.View(d.vol))
              && (old(h.ws.None?) ==> old(h.Now(d.vol)) == OfFile(d.vol.childSegs, f))
              && Contents(d.vol.files) ==
                 if old(h.ws.Some?) then old(Contents(d.vol.files))[h.name := FileBytes(f)]
                 else old(Contents(d.vol.files))
    ensures old(Fine(d) && Smooth(d.vol.childSegs, h.Now(d.vol)) && h.Now(d.vol).backed) && d.vol.AllOk() ==>
              d.vol.faults == old(d.vol.faults)
  {
    hide WriteHandle.NowOver, WriteHandle.Sound, Volume.FileOf, Contents, DirtyList.Linked, DirtyList.Members;
    hide Smooth, Tiled, FileBytes, OfFile, Volume.AllOk, Fine;
    f := ReleaseFine(d, h, on);
  }

  method DoRelease(d: Daemon, h: WriteHandle, ghost on: map<Name, WriteHandle>) returns (ghost f: File)
    requires d.Valid() && h in d.handles && Exclusive(d, on)
    modifies d`hidden, d`handles, d.dirty, d.handles`nextDirty, h`ws, h`tailLo, h`tailHi, d.vol
    ensures d.Valid() && d.handles == old(d.handles) - {h} && Exclusive(d, on - {h.name})
    ensures old(d.vol.faults) <= d.vol.faults
    ensures d.vol.faults == old(d.vol.faults) && old(Fine(d) && Smooth(d.vol.childSegs, h.Now(d.vol))) ==>
              && Fine(d) && Tiled(f) && FileBytes(f) == old(h.View(d.vol))
              && (old(h.ws.None?) ==> old(h.Now(d.vol)) == OfFile(d.vol.childSegs, f))
              && Contents(d.vol.files) == Published(old(Snaps(d, on)), old(Contents(d.vol.files)), h.name, f)
              && Snaps(d, on - {h.name}) == old(Snaps(d, on)) - {h.name}
    ensures old(Fine(d) && Smooth(d.vol.childSegs, h.Now(d.vol)) && h.Now(d.vol).backed) && d.vol.AllOk() ==>
              d.vol.faults == old(d.vol.faults)
  {
    hide WriteHandle.Now, Fine, Contents, Daemon.Valid, Smooth, Tiled, FileBytes, OfFile, Volume.AllOk;
    f := ReleaseApart(d, h, on);
  }

  method DoOpen(d: Daemon, name: Name, ghost on: map<Name, WriteHandle>) returns (h: WriteHandle, ghost f: File)
    requires d.Valid() && Exclusive(d, on) && name !in on
    modifies d`handles
    ensures d.Valid() && fresh(h) && h.name == name && d.handles == old(d.handles) + {h}
    ensures Exclusive(d, on[name := h]) && (old(Fine(d)) ==> Fine(d) && Tiled(f))
    ensures FileBytes(f) == Get(Contents(d.vol.files), name)
    ensures Snaps(d, on[name := h]) == old(Snaps(d, on))[name := Snap(false, OfFile(d.vol.childSegs, f))]
  {
    hide Daemon.Valid, WriteHandle.Now, WriteHandle.Sound, WriteHandle.Tidy, FileBytes, Contents, OfFile;
    if Fine(d) { FileTiled(d.vol, name); }
    ContentsGet(d.vol, name);
    hide Tiled, AllTiled;
    h := d.Open(name);
    f := d.vol.FileOf(name);
  }

  method ReadApart(d: Daemon, name: Name, off: nat, n: nat, ghost on: map<Name, WriteHandle>) returns (r: ReadResult)
    requires d.Valid() && Exclusive(d, on)
    modifies d.handles`ws, d.handles`tailLo, d.handles`tailHi, d.vol`calls, d.vol`faults, d.vol`lost
    ensures d.Valid() && d.handles == old(d.handles) && old(d.vol.faults) <= d.vol.faults
    ensures d.vol.faults == old(d.vol.faults) && old(Fine(d)) ==>
              && Fine(d) && (forall m :: m in on ==>
                   (on[m].ws.Some? <==> old(on[m].ws.Some?)) && Within(on[m].Now(d.vol), old(on[m].Now(d.vol))))
              && (name in on && on[name].ws.Some? ==> r == Data(Slice(old(on[name].View(d.vol)), off, n)))
              && ((name in on ==> on[name].ws.None?) ==>
                    r == if name in d.vol.files then Data(Slice(d.vol.Committed(name), off, n)) else Error(ENOENT))
    ensures old(Fine(d) && (name in on ==> on[name].Now(d.vol).backed)) && d.vol.AllOk() ==>
              d.vol.faults == old(d.vol.faults)
  {
    hide DirtyList.Linked, WriteHandle.Now, WriteHandle.Sound, WriteHandle.Tidy, Volume.Committed, Within, Volume.AllOk;
    hide Tiled, FirstNamed;
    r := d.Read(name, off, n);
    ghost var w := d.Newest(name);
    if w == null {
      assert name in on ==> on[name] !in d.dirty.Members();
    } else {
      assert w in d.dirty.Members() && on[name] == w;
    }
  }

  method DoRead(d: Daemon, name: Name, off: nat, n: nat, ghost on: map<Name, WriteHandle>) returns (r: ReadResult)
    requires d.Valid() && Exclusive(d, on)
    modifies d.handles`ws, d.handles`tailLo, d.handles`tailHi, d.vol`calls, d.vol`faults, d.vol`lost
    ensures d.Valid() && Exclusive(d, on) && old(d.vol.faults) <= d.vol.faults
    ensures d.vol.faults == old(d.vol.faults) && old(Fine(d)) ==>
              && Fine(d) && Keeps(old(Snaps(d, on)), Snaps(d, on))
              && r == Served(old(Snaps(d, on)), Contents(d.vol.files), name, off, n)
    ensures old(Fine(d) && (name in on ==> on[name].Now(d.vol).backed)) && d.vol.AllOk() ==>
              d.vol.faults == old(d.vol.faults)
  {
    hide Daemon.Valid, WriteHandle.Now, WriteHandle.Sound, WriteHandle.Tidy, FileBytes, Within, Volume.AllOk;
    r := ReadApart(d, name, off, n, on);
  }

  /** What a read by path gets: the session on the name, or the committed file. */
  function Served(snaps: map<Name, Snap>, files: map<Name, Content>, name: Name, off: nat, n: nat): ReadResult {
    if name in snaps && snaps[name].live then Data(Slice(snaps[name].now.view, off, n))
    else if name in files then Data(Slice(files[name], off, n)) else Error(ENOENT)
  }

  /** Open handles and volume together stand for the plain state. */
  ghost predicate Refines(d: Daemon, on: map<Name, WriteHandle>, p: Plain)
    requires d.Valid() && Exclusive(d, on)
    reads d, d.dirty, d.dirty.list, d.handles, d.vol`files
  {
    on.Keys == p.open && Fine(d) && Stands(d.vol.childSegs, Snaps(d, on), Contents(d.vol.files), p)
  }

  /** What the plain store vouches for holds of the handle on a name. */
  lemma HandleVouched(d: Daemon, on: map<Name, WriteHandle>, p: Plain, name: Name)
    requires d.Valid() && Exclusive(d, on) && Refines(d, on, p) && name in p.open
    ensures on[name] in d.handles && on[name].name == name && on[name].WindowOk()
    ensures on[name].Sound(d.vol) && on[name].Now(d.vol).backed
    ensures Within(on[name].Now(d.vol), Vouched(Get(p.store, name), LiveOf(d.vol.childSegs, p, name)))
    ensures on[name].View(d.vol) == Get(p.store, name)
    ensures var l := LiveOf(d.vol.childSegs, p, name);
      l.front == 0 || Start(l.front, d.vol.childSegs) * SEG < |Get(p.store, name)|
  {
    hide WriteHandle.Now, WriteHandle.Sound, Stands, DirtyList.Linked, DirtyList.Members, Start;
    StandsView(d.vol.childSegs, Snaps(d, on), Contents(d.vol.files), p, name);
  }

  /** An allowed write can be taken by its handle. */
  lemma AllowedIsReady(d: Daemon, on: map<Name, WriteHandle>, p: Plain, op: Op)
    requires d.Valid() && Exclusive(d, on) && Refines(d, on, p) && op.WriteAt? && op.off + |op.data| <= MAX_FILE_SIZE
    requires Allowed(d.vol.childSegs, p, op)
    ensures on[op.name] in d.handles && on[op.name].Ready(d.vol, op.off, |op.data|) && on[op.name].Now(d.vol).backed
  {
    hide Daemon.Valid, Refines, WriteHandle.Now, WriteHandle.Sound, CanTake, Within;
    HandleVouched(d, on, p, op.name);
    TakesSooner(d.vol.childSegs, on[op.name].Now(d.vol),
                Vouched(Get(p.store, op.name), LiveOf(d.vol.childSegs, p, op.name)), op.off, |op.data|);
  }

  lemma RecutRag(n: nat, c: Content, l: Live, len: nat)
    requires n > 0
    ensures Recut(n, Vouched(c, l), len).rag == CutShorts(l.rag, |c|, len)
  {
  }

  /** An allowed cut publishes the file whole. */
  lemma AllowedCuts(d: Daemon, on: map<Name, WriteHandle>, p: Plain, op: Op)
    requires d.Valid() && Exclusive(d, on) && Refines(d, on, p) && op.TruncateTo? && op.len >= 0
    requires Allowed(d.vol.childSegs, p, op)
    ensures op.len <= MAX_FILE_SIZE && !TooLong(d.vol.childSegs, op.len)
    ensures on[op.name] in d.handles && CutClear(d, on[op.name], op.len) && on[op.name].Now(d.vol).backed
    ensures on[op.name].View(d.vol) == Get(p.store, op.name)
  {
    hide Daemon.Valid, Refines, WriteHandle.Now, WriteHandle.Sound, Within, Settled, Smooth, Recut, NoRag, CutShorts;
    hide LiveOf;
    TooLongBound(d.vol.childSegs, op.len);
    hide TooLong;
    HandleVouched(d, on, p, op.name);
    var n, s := d.vol.childSegs, on[op.name].Now(d.vol);
    var v := Vouched(Get(p.store, op.name), LiveOf(n, p, op.name));
    RecutRag(n, Get(p.store, op.name), LiveOf(n, p, op.name), op.len);
    RecutSettled(n, v, op.len);
    RecutWithin(n, s, v, op.len);
    SettledWithin(n, Recut(n, s, op.len), Recut(n, v, op.len));
    StillFirst(s, v);
  }

  /** An allowed commit publishes the file whole. */
  lemma AllowedCommits(d: Daemon, on: map<Name, WriteHandle>, p: Plain, name: Name)
    requires d.Valid() && Exclusive(d, on) && Refines(d, on, p) && name in p.open
    requires Clear(LiveOf(d.vol.childSegs, p, name), |Get(p.store, name)|)
    ensures on[name] in d.handles && Smooth(d.vol.childSegs, on[name].Now(d.vol)) && on[name].Now(d.vol).backed
    ensures on[name].View(d.vol) == Get(p.store, name)
  {
    hide Daemon.Valid, Refines, WriteHandle.Now, WriteHandle.Sound, Within, Start, Needed;
    HandleVouched(d, on, p, name);
    var n, s, v := d.vol.childSegs, on[name].Now(d.vol), Vouched(Get(p.store, name), LiveOf(d.vol.childSegs, p, name));
    assert Smooth(n, v);
    SettledWithin(n, s, v);
  }

  /** The plain store after a commit, which changes no content. */
  lemma AfterCommit(n: nat, snaps: map<Name, Snap>, files: map<Name, Content>, p: Plain, name: Name, f: File)
    requires n > 0 && Stands(n, snaps, files, p) && name in snaps && Tiled(f) && FileBytes(f) == Get(p.store, name)
    requires !snaps[name].live ==> snaps[name].now == OfFile(n, f)
    ensures var p', files' := p.(live := p.live - {name}), Published(snaps, files, name, f);
      && Stands(n, snaps[name := Snap(false, OfFile(n, f))], files', p')
      && Stands(n, snaps - {name}, files', p')
  {
    StandsView(n, snaps, files, p, name);
    if snaps[name].live {
      AfterPublish(n, snaps, files, p, name, f);
      assert p.store[name := FileBytes(f)] == p.store;
    } else {
      AfterNothingLive(n, snaps, files, p, name);
      assert snaps[name := Snap(false, OfFile(n, f))] == snaps;
    }
  }

  method StepChange(d: Daemon, on: map<Name, WriteHandle>, op: Op, ghost p: Plain) returns (out: Out)
    requires d.Valid() && d.vol.writable && Exclusive(d, on) && on.Keys == p.open
    requires Allowed(d.vol.childSegs, p, op) && (op.WriteAt? || op.TruncateTo?)
    modifies d`hidden, d.dirty, d.handles, d.vol
    ensures d.Valid() && Exclusive(d, on) && old(d.vol.faults) <= d.vol.faults
    ensures d.vol.faults == old(d.vol.faults) && old(Refines(d, on, p)) ==>
              out == PlainOut(p, op) && Refines(d, on, PlainStep(d.vol.childSegs, p, op))
    ensures d.vol.AllOk() && old(Refines(d, on, p)) ==> d.vol.faults == old(d.vol.faults)
  {
    hide Splice, IsSplice, Resize, IsResize, Stands, Daemon.Valid, WriteHandle.Ready, Fine, Contents, Within, After;
    hide WriteHandle.Now, LiveOf, Wrote, CanTake, CutClear, Volume.AllOk, Tiled, FileBytes, OfFile, NoRag, CutShorts;
    ghost var n, snaps, files, g := d.vol.childSegs, Snaps(d, on), Contents(d.vol.files), Refines(d, on, p);
    var r;
    match op {
    case WriteAt(_, off, data) =>
      if off + |data| > MAX_FILE_SIZE { return Code(EFBIG); }
      if g { AllowedIsReady(d, on, p, op); }
      r := DoWrite(d, on[op.name], off, data, on);
      d.ValidHandle(on[op.name]);
      if g && d.vol.faults == old(d.vol.faults) { AfterWrite(n, snaps, files, p, op, on[op.name].Now(d.vol)); }
    case TruncateTo(_, len) =>
      if len < 0 { return Code(EINVAL); }
      TooLongBound(n, len);
      hide TooLong;
      if g { AllowedCuts(d, on, p, op); }
      ghost var f;
      r, f := DoTruncate(d, on[op.name], len, on);
      if g && d.vol.faults == old(d.vol.faults) { AfterPublish(n, snaps, files, p, op.name, f); }
    }
    out := Code(r);
  }

  /** Flush and release. */
  method StepCommit(d: Daemon, on: map<Name, WriteHandle>, op: Op, ghost p: Plain)
    returns (out: Out, on': map<Name, WriteHandle>)
    requires d.Valid() && d.vol.writable && Exclusive(d, on) && on.Keys == p.open
    requires Allowed(d.vol.childSegs, p, op) && (op.FlushHandle? || op.ReleaseHandle?)
    modifies d`hidden, d`handles, d.dirty, d.handles, d.vol
    ensures d.Valid() && Exclusive(d, on') && old(d.vol.faults) <= d.vol.faults
    ensures on'.Keys == PlainStep(d.vol.childSegs, p, op).open && d.handles <= old(d.handles)
    ensures d.vol.faults == old(d.vol.faults) && old(Refines(d, on, p)) ==>
              out == PlainOut(p, op) && Refines(d, on', PlainStep(d.vol.childSegs, p, op))
    ensures d.vol.AllOk() && old(Refines(d, on, p)) ==> d.vol.faults == old(d.vol.faults)
  {
    hide Stands, Daemon.Valid, Fine, Contents, Published, WriteHandle.Now, LiveOf, Smooth, Clear, Volume.AllOk, Tiled;
    hide FileBytes, OfFile;
    ghost var n, snaps, files, g := d.vol.childSegs, Snaps(d, on), Contents(d.vol.files), Refines(d, on, p);
    ghost var f;
    if g { AllowedCommits(d, on, p, op.name); }
    on', out := on, Code(0);
    if op.FlushHandle? {
      var r;
      r, f := DoCommit(d, on[op.name], on);
      out := Code(r);
    } else {
      f := DoRelease(d, on[op.name], on);
      on' := on - {op.name};
    }
    if g && d.vol.faults == old(d.vol.faults) {
      AfterCommit(n, snaps, files, p, op.name, f);
      OpenOrNot(n, snaps - {op.name}, Published(snaps, files, op.name, f), p.(live := p.live - {op.name}),
                p.open - {op.name});
    }
  }

  /** One operation: unless an engine call failed, its outcome is the plain store's
      outcome and the daemon stands for the plain store's next state; and none fails if the
      engine answers. */
  method Step(d: Daemon, on: map<Name, WriteHandle>, op: Op, ghost p: Plain)
    returns (out: Out, on': map<Name, WriteHandle>)
    requires d.Valid() && d.vol.writable && Exclusive(d, on) && on.Keys == p.open
    requires Allowed(d.vol.childSegs, p, op)
    modifies d`hidden, d`handles, d.dirty, d.handles, d.vol
    ensures d.Valid() && Exclusive(d, on') && old(d.vol.faults) <= d.vol.faults
    ensures on'.Keys == PlainStep(d.vol.childSegs, p, op).open
    ensures forall h :: h in d.handles ==> h in old(d.handles) || fresh(h)
    ensures d.vol.faults == old(d.vol.faults) && old(Refines(d, on, p)) ==>
              out == PlainOut(p, op) && Refines(d, on', PlainStep(d.vol.childSegs, p, op))
    ensures d.vol.AllOk() && old(Refines(d, on, p)) ==> d.vol.faults == old(d.vol.faults)
  {
    hide Stands, Daemon.Valid, Fine, Contents, WriteHandle.Now, LiveOf, Wrote, Clear, Volume.AllOk, Tiled, FileBytes;
    hide OfFile, Within, CanTake, NoRag, CutShorts, TooLong, Splice, IsSplice, Resize, IsResize, Slice;
    ghost var n, snaps, files, g := d.vol.childSegs, Snaps(d, on), Contents(d.vol.files), Refines(d, on, p);
    on' := on;
    match op {
    case OpenAs(name) =>
      var h;
      ghost var f;
      h, f := DoOpen(d, name, on);
      if g { AfterOpen(n, snaps, files, p, name, f); }
      on', out := on[name := h], Code(0);
    case ReadAt(name, off, len) =>
      if g { ServedIs(d, on, p, name, off, len); }
      var r := DoRead(d, name, off, len, on);
      if g && d.vol.faults == old(d.vol.faults) { AfterRead(n, snaps, Snaps(d, on), files, p); }
      out := Got(r);
    case WriteAt(_, _, _) =>
      out := StepChange(d, on, op, p);
    case TruncateTo(_, _) =>
      out := StepChange(d, on, op, p);
    case _ =>
      out, on' := StepCommit(d, on, op, p);
    }
  }

  /** What a read gets is the plain store's content. */
  lemma ServedIs(d: Daemon, on: map<Name, WriteHandle>, p: Plain, name: Name, off: nat, n: nat)
    requires d.Valid() && Exclusive(d, on) && Refines(d, on, p)
    ensures name in on ==> on[name] in d.handles && on[name].WindowOk() && on[name].Now(d.vol).backed
    ensures Got(Served(Snaps(d, on), Contents(d.vol.files), name, off, n)) == PlainOut(p, ReadAt(name, off, n))
  {
    hide Stands, DirtyList.Linked, WriteHandle.Now, WriteHandle.Sound, Slice, LiveOf, FileBytes;
    StandsView(d.vol.childSegs, Snaps(d, on), Contents(d.vol.files), p, name);
  }

  /** Every name without an open handle has the plain store's content committed. */
  ghost predicate Committed(files: map<Name, Content>, p: Plain) {
    forall n :: n !in p.open ==> Get(files, n) == Get(p.store, n) && (n in files <==> n in p.store)
  }

  lemma ClosedAreCommitted(d: Daemon, on: map<Name, WriteHandle>, p: Plain)
    requires d.Valid() && Exclusive(d, on) && Refines(d, on, p)
    ensures Committed(Contents(d.vol.files), p) && Fine(d) && d.Clean()
  {
    hide Daemon.Valid, Stands, Contents;
    var files := Contents(d.vol.files);
    forall n | n !in p.open ensures Get(files, n) == Get(p.store, n) && (n in files <==> n in p.store) {
      StandsView(d.vol.childSegs, Snaps(d, on), files, p, n);
    }
  }

  lemma Started(d: Daemon, on: map<Name, WriteHandle>, p: Plain)
    requires d.Valid() && d.handles == {} && Fine(d) && on == map[] && p == Plain(Contents(d.vol.files), {}, map[])
    ensures Exclusive(d, on) && Refines(d, on, p)
  {
    var n := d.vol.childSegs;
    forall name ensures StandsAt(n, Snaps(d, on), Contents(d.vol.files), p, name) {
      var len := |Get(p.store, name)|;
      if len > 0 { Split((len - 1) / SEG, n); }
      hide ChildOf, Place, Start, Contents;
    }
  }

  lemma Unroll(n: nat, p: Plain, ops: seq<Op>, i: nat)
    requires n > 0 && i < |ops| && AllAllowed(n, p, ops[i..])
    ensures Allowed(n, p, ops[i]) && AllAllowed(n, PlainStep(n, p, ops[i]), ops[i + 1..])
    ensures PlainRun(n, p, ops[i..]) == [PlainOut(p, ops[i])] + PlainRun(n, PlainStep(n, p, ops[i]), ops[i + 1..])
    ensures PlainEnd(n, p, ops[i..]) == PlainEnd(n, PlainStep(n, p, ops[i]), ops[i + 1..])
  {
    hide Allowed, PlainStep, PlainOut;
    assert ops[i..][0] == ops[i] && ops[i..][1..] == ops[i + 1..];
  }

  lemma Unrolled(n: nat, p: Plain, ops: seq<Op>)
    requires n > 0
    ensures PlainRun(n, p, ops[|ops|..]) == [] && PlainEnd(n, p, ops[|ops|..]) == p
  {
  }

  /** Every run: started with no handle open, on a writable volume whose files have no hole, a
      sequence of allowed opens, writes, reads, truncates, flushes and releases in which no
      engine call fails returns exactly what the plain store returns. Every name whose handle
      is closed at the end has the plain store's content committed, no file has a hole, and no
      handle without a session has anything staged. No call fails if the engine answers. */
  method Run(d: Daemon, ops: seq<Op>) returns (outs: seq<Out>)
    requires d.Valid() && d.vol.writable && d.handles == {} && Fine(d)
    requires AllAllowed(d.vol.childSegs, Plain(Contents(d.vol.files), {}, map[]), ops)
    modifies d`hidden, d`handles, d.dirty, d.vol
    ensures d.Valid()
    ensures d.vol.AllOk() ==> d.vol.faults == old(d.vol.faults)
    ensures d.vol.faults == old(d.vol.faults) ==>
              outs == PlainRun(d.vol.childSegs, Plain(old(Contents(d.vol.files)), {}, map[]), ops)
    ensures d.vol.faults == old(d.vol.faults) ==>
              && Committed(Contents(d.vol.files),
                           PlainEnd(d.vol.childSegs, Plain(old(Contents(d.vol.files)), {}, map[]), ops))
              && Fine(d) && d.Clean()
  {
    hide *;
    var on: map<Name, WriteHandle> := map[];
    ghost var n, p := d.vol.childSegs, Plain(Contents(d.vol.files), {}, map[]);
    ghost var p0 := p;
    Started(d, on, p);
    outs := [];
    assert ops[0..] == ops;
    for i := 0 to |ops|
      invariant d.Valid() && Exclusive(d, on) && on.Keys == p.open && old(d.vol.faults) <= d.vol.faults
      invariant forall h :: h in d.handles ==> fresh(h)
      invariant AllAllowed(n, p, ops[i..])
      invariant d.vol.AllOk() ==> d.vol.faults == old(d.vol.faults)
      invariant d.vol.faults == old(d.vol.faults) ==>
                  Refines(d, on, p) && PlainRun(n, p0, ops) == outs + PlainRun(n, p, ops[i..])
      invariant PlainEnd(n, p0, ops) == PlainEnd(n, p, ops[i..])
    {
      var out;
      Unroll(n, p, ops, i);
      out, on := Step(d, on, ops[i], p);
      p := PlainStep(n, p, ops[i]);
      outs := outs + [out];
    }
    Unrolled(n, p, ops);
    if d.vol.faults == old(d.vol.faults) {
      ClosedAreCommitted(d, on, p);
    }
  }
}
