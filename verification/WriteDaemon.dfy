/** The FUSE entry points over the staging layer: write, read, ftruncate, flush and
    release, each proved against the plain byte content it stands for. */
module WriteDaemon {
  import opened Options
  import opened Bytes
  import opened SegmentMap
  import opened ChildRecipe
  import opened StoredFile
  import opened EngineSession
  import opened Standings
  import opened EngineCalls
  import opened WriteStaging
  import opened DirtyHandles

  class Daemon {
    const vol: Volume
    const dirty: DirtyList
    var hidden: set<Name>  // committed names that were taken off the name table
    ghost var handles: set<WriteHandle>

    constructor (vol: Volume)
      ensures Valid() && Clean() && this.vol == vol && handles == {} && dirty.list == [] && hidden == {}
      ensures fresh(dirty)
    {
      this.vol := vol;
      dirty := new DirtyList();
      handles, hidden := {}, {};
    }

    /** The dirty list is well linked, lists exactly the open handles that have a
        session, and every staged window is well formed and private to its handle. */
    ghost predicate Valid()
      reads this`handles, dirty, dirty.list, handles
    {
      && dirty.Linked()
      && dirty.Members() <= handles
      && (forall h :: h in handles ==> h.WindowOk() && (h in dirty.Members() <==> h.ws.Some?))
    }

    /** No handle without a session has staged bytes. */
    ghost predicate Clean()
      reads this`handles, handles
    {
      forall h :: h in handles ==> h.Tidy()
    }

    lemma ValidHandle(h: WriteHandle)
      requires Valid() && h in handles
      ensures h.WindowOk() && (h.ws.Some? ==> h in dirty.Members())
    {
    }

    method Open(name: Name) returns (h: WriteHandle)
      requires Valid()
      modifies this`handles
      ensures Valid() && (old(Clean()) ==> Clean())
      ensures fresh(h) && h.name == name && handles == old(handles) + {h} && h.ws.None?
      ensures h.Now(vol) == OfFile(vol.childSegs, vol.FileOf(name)) && h.Sound(vol)
    {
      h := new WriteHandle(name);
      handles := handles + {h};
    }

    /** Begins the engine session on first use and lists the handle. */
    method EnsureSession(h: WriteHandle) returns (rc: int)
      requires Valid() && h in handles
      modifies dirty, h`ws, h`nextDirty, vol`calls, vol`faults
      ensures Valid() && handles == old(handles)
      ensures old(h.ws.Some?) ==> rc == 0 && h.ws == old(h.ws) && vol.calls == old(vol.calls)
      ensures old(h.ws.None?) ==> vol.calls == old(vol.calls) + 1 && (rc == 0 <==> vol.oracle(old(vol.calls)).Ok?)
      ensures old(vol.faults) <= vol.faults && (rc == 0 <==> vol.faults == old(vol.faults))
      ensures rc == 0 ==> h.ws.Some? && h.Now(vol) == old(h.Now(vol)) && (h.Sound(vol) <==> old(h.Sound(vol)))
      ensures rc != 0 ==> rc == -1 && h.ws.None? && h.nextDirty == old(h.nextDirty)
      ensures rc == 0 && old(h.ws.None?) ==> h.ws == Some(Fresh)
      ensures dirty.list == if rc == 0 && old(h.ws.None?) then [h] + old(dirty.list) else old(dirty.list)
    {
      if h.ws.Some? { return 0; }
      var a := vol.Ask();
      if !a.Ok? { return -1; }
      h.ws := Some(Fresh);
      dirty.Add(h);
      rc := 0;
    }

    /** Drops the session: the handle stands for the committed file again,
        overlaid with whatever is still staged. */
    method DropSession(h: WriteHandle)
      requires Valid() && h in handles
      modifies dirty, handles`nextDirty, h`ws
      ensures Valid() && h.ws.None?
    {
      h.ws := None;
      dirty.Del(h);
    }

    lemma Pushed(w: WriteHandle)
      requires w.WindowOk() && !w.Staged() && w.Sound(vol)
      ensures w.Healthy(vol) && w.BaseNow(vol) == w.Now(vol) && w.Base(vol) == w.View(vol)
    {
    }

    lemma Dropped(h: WriteHandle)
      requires h.WindowOk() && !h.Staged() && h.ws.None?
      ensures h.Now(vol) == OfFile(vol.childSegs, vol.FileOf(h.name)) && h.Sound(vol)
      ensures h.View(vol) == vol.Committed(h.name)
    {
    }

    /** A failed call poisons its whole session: session and window are dropped. */
    method AbortFailed(h: WriteHandle)
      requires Valid() && h in handles
      modifies dirty, handles`nextDirty, h`ws, h`tailLo, h`tailHi
      ensures Valid() && h.ws.None? && !h.Staged()
      ensures h.Now(vol) == OfFile(vol.childSegs, vol.FileOf(h.name)) && h.Sound(vol)
    {
      h.tailLo, h.tailHi := 0, 0;
      DropSession(h);
    }

    /** The write loop with its session begun. */
    method WriteInSession(h: WriteHandle, off: nat, data: Content, tailAlloc: bool) returns (r: int, ghost done: nat)
      requires Valid() && h in handles && h.ws.Some? && off + |data| <= MAX_FILE_SIZE
      modifies dirty, handles`nextDirty, h, vol`calls, vol`faults, vol`lost
      ensures Valid() && h.Tidy() && old(vol.faults) <= vol.faults && old(vol.lost) <= vol.lost && done <= |data|
      ensures vol.faults == old(vol.faults) ==> vol.lost == old(vol.lost)
      ensures r >= 0 ==> r == |data| && h.ws.Some? && dirty.list == old(dirty.list)
      ensures (r >= 0 || r == ENOMEM) && old(h.Ready(vol, off, |data|)) && vol.lost == old(vol.lost) ==>
        h.Sound(vol) && Within(h.Now(vol), After(vol.childSegs, old(h.Now(vol)), off, data[..done]))
      ensures r < 0 && r != ENOMEM ==>
        h.ws.None? && !h.Staged() && h.Now(vol) == OfFile(vol.childSegs, vol.FileOf(h.name)) && h.Sound(vol)
      ensures r < 0 && r != ENOMEM ==> exists rc :: rc != 0 && r == WriteErrno(rc) && vol.Blames(rc)
      ensures r == ENOMEM ==> !tailAlloc && h.ws.Some?
      ensures r >= 0 ==> (done == |data| <==> vol.faults == old(vol.faults))
      ensures tailAlloc && vol.faults == old(vol.faults) ==> r >= 0
      ensures tailAlloc && |data| < SEG ==> r >= 0
      ensures data != [] && old(h.Stuck(vol, SegOf(off), OffsetIn(off), NextEnd(off, |data|, 0))) ==> done == 0
      ensures Part(off, |data|) && (tailAlloc || old(h.tail) != []) ==>
        (old(h.Ready(vol, off, |data|) && h.Now(vol).backed) ==>
           (done == |data| <==> !old(h.Stuck(vol, SegOf(off), OffsetIn(off), |data|))))
      ensures Part(off, |data|) && r >= 0 && done == |data| ==> h.Staged() && h.tailSeg == SegOf(off)
      ensures Part(off, |data|) && tailAlloc && old(!h.Staged()) ==>
        vol.calls == old(vol.calls) && r >= 0 && done == |data| && h.ws == old(h.ws)
      ensures old(h.Ready(vol, off, |data|) && h.Now(vol).backed) && vol.AllOk() ==> vol.faults == old(vol.faults)
      ensures old(h.Ready(vol, off, |data|) && h.Now(vol).backed) && vol.Loads() ==> vol.lost == old(vol.lost)
    {
      hide WriteHandle.Sound, WriteHandle.Now, WriteHandle.Ready, Within, After, SegOf, OffsetIn, NextEnd, Part;
      hide Volume.Loads, Volume.AllOk, WriteHandle.Stuck, Volume.Blames, OfFile;
      var end;
      end, done := h.PutAll(vol, off, data, tailAlloc);
      assert Valid();
      if end.SegmentRefused? {
        AbortFailed(h);
        return WriteErrno(end.rc), done;
      }
      r := if end.NoMemory? then ENOMEM else |data|;
    }

    /** The part of a write that runs once the request is admitted. */
    method WriteAdmitted(h: WriteHandle, off: nat, data: Content, tailAlloc: bool) returns (r: int, ghost done: nat)
      requires Valid() && h in handles && off + |data| <= MAX_FILE_SIZE
      modifies dirty, handles`nextDirty, h, vol`calls, vol`faults, vol`lost
      ensures Valid() && h.Tidy() && old(vol.faults) <= vol.faults && old(vol.lost) <= vol.lost && done <= |data|
      ensures vol.faults == old(vol.faults) ==> vol.lost == old(vol.lost)
      ensures r >= 0 ==> r == |data| && h.ws.Some?
      ensures r >= 0 ==> dirty.list == if old(h.ws.None?) then [h] + old(dirty.list) else old(dirty.list)
      ensures r >= 0 && old(h.Ready(vol, off, |data|)) && vol.lost == old(vol.lost) ==>
        h.Sound(vol) && Within(h.Now(vol), After(vol.childSegs, old(h.Now(vol)), off, data[..done]))
      ensures r < 0 && r != ENOMEM ==>
        h.ws.None? && !h.Staged() && h.Now(vol) == OfFile(vol.childSegs, vol.FileOf(h.name)) && h.Sound(vol)
      ensures r < 0 && r != ENOMEM && old(h.ws.Some?) ==> exists rc :: rc != 0 && r == WriteErrno(rc) && vol.Blames(rc)
      ensures old(h.ws.None?) && !vol.oracle(old(vol.calls)).Ok? ==> r == ENOSPC
      ensures r == ENOMEM ==> !tailAlloc && h.ws.Some?
      ensures r == ENOMEM && old(h.Ready(vol, off, |data|)) && vol.lost == old(vol.lost) ==>
        h.Sound(vol) && Within(h.Now(vol), After(vol.childSegs, old(h.Now(vol)), off, data[..done]))
      ensures r >= 0 ==> (done == |data| <==> vol.faults == old(vol.faults))
      ensures tailAlloc && vol.faults == old(vol.faults) ==> r >= 0
      ensures tailAlloc && old(h.ws.Some?) && |data| < SEG ==> r >= 0
      ensures old(h.ws.Some?) && data != [] ==>
        (old(h.Stuck(vol, SegOf(off), OffsetIn(off), NextEnd(off, |data|, 0))) ==> done == 0)
      ensures Part(off, |data|) && (tailAlloc || old(h.tail) != []) ==>
        (old(h.ws.Some? && h.Ready(vol, off, |data|) && h.Now(vol).backed) ==>
           (done == |data| <==> !old(h.Stuck(vol, SegOf(off), OffsetIn(off), |data|))))
      ensures Part(off, |data|) && r >= 0 && done == |data| ==> h.Staged() && h.tailSeg == SegOf(off)
      ensures Part(off, |data|) && tailAlloc && old(h.ws.None? && !h.Staged()) ==>
        (vol.oracle(old(vol.calls)).Ok? ==>
           vol.calls == old(vol.calls) + 1 && r >= 0 && done == |data| && h.ws == Some(Fresh))
      ensures old(h.Ready(vol, off, |data|) && h.Now(vol).backed) && vol.AllOk() ==> vol.faults == old(vol.faults)
      ensures old(h.Ready(vol, off, |data|) && h.Now(vol).backed) && vol.Loads() ==> vol.lost == old(vol.lost)
    {
      hide WriteHandle.Sound, WriteHandle.Now, WriteHandle.Ready, Within, After, SegOf, OffsetIn, NextEnd, Part;
      hide Volume.Loads, Volume.AllOk, Volume.Blames, OfFile;
      h.AnswersOk(vol);
      h.ReadySound(vol, off, |data|);
      var rc := EnsureSession(h);
      if rc != 0 {
        AbortFailed(h);
        return ENOSPC, 0;
      }
      h.ReadySound(vol, off, |data|);
      r, done := WriteInSession(h, off, data, tailAlloc);
    }

    /** write(2) on a handle. `done` is the length of the prefix that was taken. When
        the engine answers every call, the handle's view becomes the plain splice of
        the data. A refused full segment aborts the session; a refused push of the
        staged window ends the loop early and is still reported as a full write: of a write
        inside one segment all is taken exactly when the handle is not stuck. */
    method Write(h: WriteHandle, off: nat, data: Content, tailAlloc: bool) returns (r: int, ghost done: nat)
      requires Valid() && h in handles
      modifies dirty, handles`nextDirty, h, vol`calls, vol`faults, vol`lost
      ensures Valid() && (old(h.Tidy()) ==> h.Tidy()) && done <= |data|
      ensures old(vol.faults) <= vol.faults && old(vol.lost) <= vol.lost
      ensures vol.faults == old(vol.faults) ==> vol.lost == old(vol.lost)
      ensures !vol.writable ==> r == EROFS
      ensures vol.writable && off + |data| > MAX_FILE_SIZE ==> r == EFBIG
      ensures !vol.writable || off + |data| > MAX_FILE_SIZE ==>
        && vol.faults == old(vol.faults) && h.ws == old(h.ws)
        && h.Now(vol) == old(h.Now(vol)) && (h.Sound(vol) <==> old(h.Sound(vol)))
      ensures r >= 0 ==> r == |data| && h.ws.Some?
      ensures r >= 0 ==> dirty.list == if old(h.ws.None?) then [h] + old(dirty.list) else old(dirty.list)
      ensures r >= 0 && old(h.ws.None?) ==> Newest(h.name) == h
      ensures r >= 0 && old(h.Ready(vol, off, |data|)) && vol.lost == old(vol.lost) ==>
        h.Sound(vol) && Within(h.Now(vol), After(vol.childSegs, old(h.Now(vol)), off, data[..done]))
      ensures r >= 0 && old(h.Ready(vol, off, |data|)) && vol.lost == old(vol.lost) ==>
        h.View(vol) == Splice(old(h.View(vol)), off, data[..done])
      ensures vol.writable && off + |data| <= MAX_FILE_SIZE && r < 0 && r != ENOMEM ==>
        h.ws.None? && !h.Staged() && h.Now(vol) == OfFile(vol.childSegs, vol.FileOf(h.name)) && h.Sound(vol)
      ensures vol.writable && off + |data| <= MAX_FILE_SIZE && r < 0 && r != ENOMEM && old(h.ws.Some?) ==>
        exists rc :: rc != 0 && r == WriteErrno(rc) && vol.Blames(rc)
      ensures vol.writable && off + |data| <= MAX_FILE_SIZE && old(h.ws.None?) ==>
        (!vol.oracle(old(vol.calls)).Ok? ==> r == ENOSPC)
      ensures r == ENOMEM ==> !tailAlloc && h.ws.Some?
      ensures r == ENOMEM && old(h.Ready(vol, off, |data|)) && vol.lost == old(vol.lost) ==>
        h.Sound(vol) && Within(h.Now(vol), After(vol.childSegs, old(h.Now(vol)), off, data[..done]))
      ensures r >= 0 ==> (done == |data| <==> vol.faults == old(vol.faults))
      ensures vol.writable && off + |data| <= MAX_FILE_SIZE && tailAlloc && vol.faults == old(vol.faults) ==> r >= 0
      ensures vol.writable && off + |data| <= MAX_FILE_SIZE && tailAlloc && old(h.ws.Some?) && |data| < SEG ==> r >= 0
      ensures vol.writable && off + |data| <= MAX_FILE_SIZE && old(h.ws.Some?) && data != [] ==>
        (old(h.Stuck(vol, SegOf(off), OffsetIn(off), NextEnd(off, |data|, 0))) ==> done == 0)
      ensures vol.writable && off + |data| <= MAX_FILE_SIZE && Part(off, |data|) && (tailAlloc || old(h.tail) != []) ==>
        (old(h.ws.Some? && h.Ready(vol, off, |data|) && h.Now(vol).backed) ==>
           (done == |data| <==> !old(h.Stuck(vol, SegOf(off), OffsetIn(off), |data|))))
      ensures Part(off, |data|) && r >= 0 && done == |data| ==> h.Staged() && h.tailSeg == SegOf(off)
      ensures vol.writable && off + |data| <= MAX_FILE_SIZE && Part(off, |data|) && tailAlloc ==>
        (old(h.ws.None? && !h.Staged()) && vol.oracle(old(vol.calls)).Ok? ==>
           vol.calls == old(vol.calls) + 1 && r >= 0 && done == |data| && h.ws == Some(Fresh))
      ensures old(h.Ready(vol, off, |data|) && h.Now(vol).backed) && vol.AllOk() ==> vol.faults == old(vol.faults)
      ensures old(h.Ready(vol, off, |data|) && h.Now(vol).backed) && vol.Loads() ==> vol.lost == old(vol.lost)
    {
      hide WriteHandle.Sound, WriteHandle.Now, WriteHandle.Ready, Within, After, SegOf, OffsetIn, NextEnd, Part;
      hide Volume.Loads, Volume.AllOk, WriteHandle.Stuck, Splice, IsSplice, Volume.Blames, OfFile;
      done := 0;
      if !vol.writable { return EROFS, 0; }
      if off + |data| > MAX_FILE_SIZE { return EFBIG, 0; }
      r, done := WriteAdmitted(h, off, data, tailAlloc);
      AfterView(h.Now(vol), vol.childSegs, old(h.Now(vol)), off, data[..done]);
    }

    /** vol_write_commit: publishes the session's content under the handle's name. */
    method EngineCommit(h: WriteHandle) returns (rc: int)
      requires h.ws.Some?
      modifies h`ws, vol
      ensures h.ws.Some? && old(vol.faults) <= vol.faults && old(vol.lost) <= vol.lost
      ensures rc == 0 <==> vol.faults == old(vol.faults)
      ensures vol.Blames(rc) && (vol.faults == old(vol.faults) ==> vol.lost == old(vol.lost))
      ensures rc == 0 ==> vol.files == old(vol.files)[h.name := vol.FileOf(h.name)]
      ensures rc == 0 && old(h.Healthy(vol)) ==> Publishes(vol.childSegs, old(h.BaseNow(vol)), vol.FileOf(h.name))
      ensures rc != 0 ==> vol.files == old(vol.files)
      ensures vol.oracle(old(vol.calls)).Ok? && old(h.Healthy(vol) && h.BaseNow(vol).backed) ==>
        (Settled(vol.childSegs, old(h.BaseNow(vol))) ==> rc == 0)
    {
      hide Tiled, Snapshot.Ok, Snapshot.Flows, OfSession, OfFile, Within, Settled, Publishes;
      var a := vol.Ask();
      if a.Refused? { return a.rc; }
      var ok := h.LoadOld(vol, a);
      if !a.Ok? { return a.rc; }
      var f;
      rc := -1;
      if ok {
        f, rc := PublishSession(h.ws.value.st);
        PublishesWithin(vol.childSegs, h.BaseNow(vol), old(h.BaseNow(vol)), f);
        SettledWithin(vol.childSegs, h.BaseNow(vol), old(h.BaseNow(vol)));
      }
      if rc != 0 {
        vol.faults := vol.faults + 1;
      } else {
        vol.files := vol.files[h.name := f];
      }
    }

    method PushAndPublish(h: WriteHandle) returns (rc: int)
      requires h.ws.Some? && h.WindowOk()
      modifies h`ws, h`tailLo, h`tailHi, vol
      ensures h.ws.Some? && h.WindowOk() && old(vol.faults) <= vol.faults && old(vol.lost) <= vol.lost
      ensures vol.faults == old(vol.faults) ==> vol.lost == old(vol.lost)
      ensures (rc == 0 <==> vol.faults == old(vol.faults)) && (rc != 0 ==> vol.Blames(rc))
      ensures rc == 0 ==> !h.Staged() && vol.files == old(vol.files)[h.name := vol.FileOf(h.name)]
      ensures rc == 0 && old(h.Sound(vol)) ==> Publishes(vol.childSegs, old(h.Now(vol)), vol.FileOf(h.name))
      ensures rc != 0 ==> vol.files == old(vol.files)
      ensures old(h.Staged()) && !vol.oracle(old(vol.calls)).Ok? ==> h.Staged()
      ensures old(h.Sound(vol) && h.Now(vol).backed) && h.Staged() ==>
        old(h.Staged()) && !vol.oracle(old(vol.calls)).Ok?
      ensures old(h.Sound(vol) && h.Now(vol).backed) && Settled(vol.childSegs, old(h.Now(vol))) ==>
        (vol.oracle(old(vol.calls)).Ok? && vol.oracle(old(vol.calls) + 1).Ok? ==> rc == 0)
    {
      hide WriteHandle.Sound, WriteHandle.Now, WriteHandle.Healthy, WriteHandle.BaseNow, Within, Publishes, Settled;
      rc := h.FlushTail(vol);
      if rc == 0 {
        ghost var s1 := h.Now(vol);
        if old(h.Sound(vol)) {
          Pushed(h);
          SettledWithin(vol.childSegs, s1, old(h.Now(vol)));
          StillBacked(s1, old(h.Now(vol)));
        }
        rc := EngineCommit(h);
        if old(h.Sound(vol)) && rc == 0 {
          PublishesWithin(vol.childSegs, s1, old(h.Now(vol)), vol.FileOf(h.name));
        }
      }
    }

    /** flush, fsync and release of a handle: push the window, publish, drop the
        session. Without a session there is nothing to do. A window whose push failed
        stays behind on the handle. A name whose commit failed leaves the name table. */
    method Commit(h: WriteHandle) returns (r: int)
      requires Valid() && h in handles
      modifies this`hidden, dirty, handles`nextDirty, h`ws, h`tailLo, h`tailHi, vol
      ensures Valid() && h.ws.None? && old(vol.faults) <= vol.faults && old(vol.lost) <= vol.lost
      ensures vol.faults == old(vol.faults) ==> vol.lost == old(vol.lost)
      ensures old(h.ws.None?) ==> r == 0 && vol.files == old(vol.files) && vol.faults == old(vol.faults)
                                  && h.tailLo == old(h.tailLo) && h.tailHi == old(h.tailHi) && hidden == old(hidden)
      ensures r == 0 <==> vol.faults == old(vol.faults)
      ensures r == 0 && old(h.ws.Some?) ==>
        !h.Staged() && hidden == old(hidden) - {h.name} && vol.files == old(vol.files)[h.name := vol.FileOf(h.name)]
      ensures r == 0 && old(h.ws.Some?) ==> h.Sound(vol) && h.Now(vol) == OfFile(vol.childSegs, vol.FileOf(h.name))
      ensures r == 0 && old(h.ws.Some? && h.Sound(vol)) ==>
        Publishes(vol.childSegs, old(h.Now(vol)), vol.FileOf(h.name))
      ensures r != 0 ==> r < 0 && vol.files == old(vol.files) && hidden == old(hidden) + {h.name}
      ensures r != 0 ==> exists rc :: rc != 0 && r == WriteErrno(rc) && vol.Blames(rc)
      ensures old(h.ws.Some? && h.Staged()) && !vol.oracle(old(vol.calls)).Ok? ==> h.Staged()
      ensures old(h.ws.Some? && h.Sound(vol) && h.Now(vol).backed) && h.Staged() ==>
        old(h.Staged()) && !vol.oracle(old(vol.calls)).Ok?
      ensures old(h.Sound(vol) && h.Now(vol).backed) && Settled(vol.childSegs, old(h.Now(vol))) ==>
        (vol.oracle(old(vol.calls)).Ok? && vol.oracle(old(vol.calls) + 1).Ok? ==> r == 0)
    {
      hide WriteHandle.Sound, WriteHandle.Now, WriteHandle.Healthy, WriteHandle.BaseNow, Publishes, Settled, OfFile;
      if h.ws.None? { return 0; }
      var rc := PushAndPublish(h);
      DropSession(h);
      if rc == 0 { Dropped(h); }
      hidden := if rc == 0 then hidden - {h.name} else hidden + {h.name};
      r := if rc == 0 then 0 else WriteErrno(rc);
    }

    /** Release also frees the handle. */
    method Release(h: WriteHandle)
      requires Valid() && h in handles
      modifies this`hidden, this`handles, dirty, handles`nextDirty, h`ws, h`tailLo, h`tailHi, vol
      ensures Valid() && handles == old(handles) - {h} && old(vol.faults) <= vol.faults && old(vol.lost) <= vol.lost
      ensures vol.faults == old(vol.faults) && old(h.ws.None?) ==> vol.files == old(vol.files) && hidden == old(hidden)
      ensures vol.faults == old(vol.faults) && old(h.ws.Some?) ==>
        hidden == old(hidden) - {h.name} && vol.files == old(vol.files)[h.name := vol.FileOf(h.name)]
      ensures vol.faults == old(vol.faults) && old(h.ws.Some? && h.Sound(vol)) ==>
        Publishes(vol.childSegs, old(h.Now(vol)), vol.FileOf(h.name))
      ensures vol.faults != old(vol.faults) ==> vol.files == old(vol.files) && hidden == old(hidden) + {h.name}
      ensures old(h.Sound(vol) && h.Now(vol).backed) && Settled(vol.childSegs, old(h.Now(vol))) ==>
        (vol.AllOk() ==> vol.faults == old(vol.faults))
    {
      hide WriteHandle.Sound, WriteHandle.Now, Publishes, Settled, OfFile;
      var _ := Commit(h);
      handles := handles - {h};
    }

    /** vol_write_truncate on the handle's session. */
    method EngineTruncate(h: WriteHandle, len: nat) returns (rc: int)
      requires h.ws.Some?
      modifies h`ws, vol`calls, vol`faults, vol`lost
      ensures h.ws.Some? && old(vol.faults) <= vol.faults && old(vol.lost) <= vol.lost
      ensures vol.faults == old(vol.faults) ==> vol.lost == old(vol.lost)
      ensures len > MAX_FILE_SIZE ==> rc == EFBIG && vol.faults == old(vol.faults)
      ensures len <= MAX_FILE_SIZE ==> (rc == 0 <==> vol.faults == old(vol.faults)) && vol.Blames(rc)
      ensures rc == 0 && old(h.Healthy(vol) && h.BaseNow(vol).front == 0) ==>
        h.Healthy(vol) && Within(h.BaseNow(vol), Recut(vol.childSegs, old(h.BaseNow(vol)), len))
      ensures old(h.Healthy(vol) && h.BaseNow(vol).front == 0 && h.BaseNow(vol).backed) ==>
        (!TooLong(vol.childSegs, len) && vol.oracle(old(vol.calls)).Ok? ==> rc == 0)
    {
      hide Tiled, Snapshot.Ok, Snapshot.Flows, OfSession, OfFile, Within, Recut;
      TooLongBound(vol.childSegs, len);
      hide TooLong;
      if len > MAX_FILE_SIZE { return EFBIG; }
      var a := vol.Ask();
      if a.Refused? { return a.rc; }
      var ok := h.LoadOld(vol, a);
      if a.LoadFailed? { return a.rc; }
      rc := -1;
      if ok {
        var st;
        ghost var s1 := h.BaseNow(vol);
        StillFirst(s1, old(h.BaseNow(vol)));
        SessionFront(h.ws.value.st);
        var room, space := a.Ok? || a.room, if a.Ok? then (_ => true) else a.space;
        st, rc := Cut(h.ws.value.st, len, room, space);
        h.ws := Some(Loaded(st));
        if old(h.Healthy(vol) && h.BaseNow(vol).front == 0) && rc == 0 {
          RecutFrom(vol.childSegs, h.BaseNow(vol), s1, old(h.BaseNow(vol)), len);
        }
      }
      if a.Short? {
        rc := a.rc;
      } else if rc != 0 {
        vol.faults := vol.faults + 1;
      }
    }

    method CutAndPublish(h: WriteHandle, len: nat) returns (rc: int)
      requires h.ws.Some? && h.WindowOk()
      modifies h`ws, h`tailLo, h`tailHi, vol
      ensures h.ws.Some? && h.WindowOk() && old(vol.faults) <= vol.faults && old(vol.lost) <= vol.lost
      ensures vol.faults == old(vol.faults) ==> vol.lost == old(vol.lost)
      ensures rc == 0 ==> !h.Staged() && vol.files == old(vol.files)[h.name := vol.FileOf(h.name)]
      ensures rc == 0 && old(h.Sound(vol) && h.Now(vol).front == 0) ==>
        Publishes(vol.childSegs, Recut(vol.childSegs, old(h.Now(vol)), len), vol.FileOf(h.name))
      ensures rc != 0 ==> vol.files == old(vol.files)
      ensures len <= MAX_FILE_SIZE ==> (rc == 0 <==> vol.faults == old(vol.faults)) && (rc != 0 ==> vol.Blames(rc))
      ensures len > MAX_FILE_SIZE && vol.faults == old(vol.faults) ==> rc == EFBIG && !h.Staged()
      ensures len > MAX_FILE_SIZE ==> rc != 0
      ensures old(h.Sound(vol) && h.Now(vol).front == 0 && h.Now(vol).backed) && vol.AllOk() ==>
        (!TooLong(vol.childSegs, len) && Settled(vol.childSegs, Recut(vol.childSegs, old(h.Now(vol)), len)) ==> rc == 0)
    {
      hide WriteHandle.Sound, WriteHandle.Now, WriteHandle.Healthy, WriteHandle.BaseNow, Within, Publishes, Settled;
      hide Recut, TooLong, Volume.AllOk;
      ghost var n, s0 := vol.childSegs, h.Now(vol);
      h.AnswersOk(vol);
      rc := h.FlushTail(vol);
      if rc != 0 { return; }
      ghost var s1 := h.Now(vol);
      if old(h.Sound(vol)) {
        Pushed(h);
        StillFirst(s1, s0);
        StillBacked(s1, s0);
      }
      h.AnswersOk(vol);
      rc := EngineTruncate(h, len);
      if rc != 0 { return; }
      ghost var s2 := h.BaseNow(vol);
      if old(h.Sound(vol)) && s0.front == 0 {
        RecutFrom(n, s2, s1, s0, len);
        SettledWithin(n, s2, Recut(n, s0, len));
        RecutBacked(n, s2, s0, len);
      }
      h.AnswersOk(vol);
      rc := EngineCommit(h);
      if old(h.Sound(vol)) && s0.front == 0 && rc == 0 {
        PublishesWithin(n, s2, Recut(n, s0, len), vol.FileOf(h.name));
      }
    }

    /** ftruncate(2) on a handle: writes precede the cut, and the result is published
        at once. The session ends either way, so a refused cut discards the writes
        that were pending. */
    method Truncate(h: WriteHandle, len: int) returns (r: int)
      requires Valid() && h in handles
      modifies this`hidden, dirty, handles`nextDirty, h`ws, h`tailLo, h`tailHi, vol
      ensures Valid() && old(vol.faults) <= vol.faults && old(vol.lost) <= vol.lost
      ensures vol.faults == old(vol.faults) ==> vol.lost == old(vol.lost)
      ensures !vol.writable ==> r == EROFS
      ensures vol.writable && len < 0 ==> r == EINVAL
      ensures !vol.writable || len < 0 ==>
        h.ws == old(h.ws) && h.Now(vol) == old(h.Now(vol)) && (h.Sound(vol) <==> old(h.Sound(vol)))
      ensures vol.writable && len >= 0 ==> h.ws.None?
      ensures vol.writable && 0 <= len <= MAX_FILE_SIZE ==> (r == 0 <==> vol.faults == old(vol.faults))
      ensures r == 0 ==> !h.Staged() && len >= 0 && hidden == old(hidden) - {h.name}
      ensures r == 0 ==> vol.files == old(vol.files)[h.name := vol.FileOf(h.name)]
      ensures r == 0 ==> h.Sound(vol) && h.Now(vol) == OfFile(vol.childSegs, vol.FileOf(h.name))
      ensures r == 0 && old(h.Sound(vol) && h.Now(vol).front == 0) ==>
        Publishes(vol.childSegs, Recut(vol.childSegs, old(h.Now(vol)), len), vol.FileOf(h.name))
      ensures r != 0 ==> r < 0 && vol.files == old(vol.files) && hidden == old(hidden)
      ensures vol.writable && 0 <= len <= MAX_FILE_SIZE && r != 0 && old(h.ws.Some?) ==>
        exists rc :: rc != 0 && r == WriteErrno(rc) && vol.Blames(rc)
      ensures vol.writable && len >= 0 && old(h.ws.None?) && !vol.oracle(old(vol.calls)).Ok? ==>
        r == EIO && h.Now(vol) == old(h.Now(vol))
      ensures len > MAX_FILE_SIZE && vol.faults == old(vol.faults) && vol.writable ==> r == EFBIG && !h.Staged()
      ensures vol.writable && len >= 0 && !TooLong(vol.childSegs, len) && vol.AllOk() ==>
        (old(h.Sound(vol) && h.Now(vol).front == 0 && h.Now(vol).backed) ==>
           (Settled(vol.childSegs, Recut(vol.childSegs, old(h.Now(vol)), len)) ==> vol.faults == old(vol.faults)))
    {
      hide WriteHandle.Sound, WriteHandle.Now, Publishes, Settled, OfFile, Recut, Volume.AllOk;
      if !vol.writable { return EROFS; }
      if len < 0 { return EINVAL; }
      TooLongBound(vol.childSegs, len);
      hide TooLong;
      h.AnswersOk(vol);
      var rc := EnsureSession(h);
      if rc == 0 {
        rc := CutAndPublish(h, len);
      }
      DropSession(h);
      if rc == 0 {
        Dropped(h);
        hidden := hidden - {h.name};
      }
      r := if rc == 0 then 0 else WriteErrno(rc);
    }

    /** Nobody's session or tidiness changed, and unless a file could not be loaded no sound
        handle stands for anything else. */
    twostate predicate SameViews()
      requires old(Valid()) && Valid()
      reads this`handles, dirty, dirty.list, handles, vol`files, vol`lost
    {
      && handles == old(handles) && dirty.list == old(dirty.list)
      && forall h :: h in handles ==> SameView(h)
    }

    twostate predicate SameView(h: WriteHandle)
      requires old(h.WindowOk()) && h.WindowOk()
      reads h, vol`files, vol`lost
    {
      && (h.ws.Some? <==> old(h.ws.Some?))
      && (old(h.Tidy()) ==> h.Tidy())
      && (vol.lost == old(vol.lost) && old(h.Sound(vol)) ==> h.Sound(vol) && Within(h.Now(vol), old(h.Now(vol))))
    }

    /** The handle's session and window are as they were. */
    twostate predicate Untouched(h: WriteHandle)
      reads h
    {
      h.ws == old(h.ws) && h.tailLo == old(h.tailLo) && h.tailHi == old(h.tailHi)
    }

    method FlushOne(h: WriteHandle)
      requires Valid() && h in dirty.Members()
      modifies h`ws, h`tailLo, h`tailHi, vol`calls, vol`faults, vol`lost
      ensures Valid() && SameViews() && old(vol.faults) <= vol.faults && old(vol.lost) <= vol.lost
      ensures old(vol.calls) <= vol.calls
      ensures vol.faults == old(vol.faults) ==> !h.Staged() && vol.lost == old(vol.lost)
      ensures old(h.Sound(vol) && h.Now(vol).backed) && vol.AllOk() ==> vol.faults == old(vol.faults)
      ensures old(h.Losing(vol)) ==> h.Lost(vol) && old(vol.calls) < vol.calls
    {
      hide WriteHandle.Now, WriteHandle.Sound, WriteHandle.Base, WriteHandle.BaseNow, WriteHandle.Healthy, Volume.AllOk;
      h.AnswersOk(vol);
      var _ := h.FlushTail(vol);
    }

    /** Every session on `name` is sound and can read the file it forks. */
    ghost predicate Answerable(name: Name)
      requires Valid()
      reads this`handles, dirty, dirty.list, handles, vol`files
    {
      forall i :: 0 <= i < |dirty.list| && dirty.list[i].name == name ==>
        dirty.list[i] in handles && dirty.list[i].Sound(vol) && dirty.list[i].Now(vol).backed
    }

    /** The newest session of all is on `name`, and pushing its window will lose the file. */
    ghost predicate FirstLoses(name: Name)
      reads dirty, dirty.list, vol`calls
    {
      dirty.list != [] && dirty.list[0].name == name && dirty.list[0].Losing(vol)
    }

    /** Pushes the staged window of every session on `name`; refusals are ignored, and
        no handle stands for anything else. */
    method FlushNamed(name: Name)
      requires Valid()
      modifies handles`ws, handles`tailLo, handles`tailHi, vol`calls, vol`faults, vol`lost
      ensures Valid() && SameViews() && old(vol.faults) <= vol.faults && old(vol.lost) <= vol.lost
      ensures vol.faults == old(vol.faults) ==> vol.lost == old(vol.lost)
      ensures vol.faults == old(vol.faults) ==>
                forall i :: 0 <= i < |dirty.list| && dirty.list[i].name == name ==> !dirty.list[i].Staged()
      ensures vol.AllOk() && old(Answerable(name)) ==> vol.faults == old(vol.faults)
      ensures forall h :: h in handles && h.name != name ==> Untouched(h)
      ensures old(vol.calls) <= vol.calls
      ensures old(FirstLoses(name)) ==>
        dirty.list != [] && dirty.list[0].Lost(vol) && old(vol.calls) < vol.calls
    {
      hide WriteHandle.Now, WriteHandle.Sound, WriteHandle.Tidy, WriteHandle.WindowOk, Volume.AllOk;
      hide WriteHandle.Lost, WriteHandle.Losing;
      var p := dirty.head;
      ghost var k := 0;
      while p != null
        invariant Valid() && SameViews() && old(vol.faults) <= vol.faults && old(vol.lost) <= vol.lost
        invariant 0 <= k <= |dirty.list| && p == (if k < |dirty.list| then dirty.list[k] else null)
        invariant vol.faults == old(vol.faults) ==> vol.lost == old(vol.lost)
        invariant vol.faults == old(vol.faults) ==>
                    forall i :: 0 <= i < k && dirty.list[i].name == name ==> !dirty.list[i].Staged()
        invariant vol.AllOk() && old(Answerable(name)) ==> vol.faults == old(vol.faults)
        invariant forall h :: h in handles && h.name != name ==> Untouched(h)
        invariant old(vol.calls) <= vol.calls
        invariant k == 0 && old(FirstLoses(name)) ==> FirstLoses(name)
        invariant k > 0 && old(FirstLoses(name)) ==> dirty.list[0].Lost(vol) && old(vol.calls) < vol.calls
        decreases |dirty.list| - k
      {
        assert p in dirty.Members() && dirty.list[k].nextDirty == NextIn(dirty.list, k);
        if p.name == name {
          if vol.lost == old(vol.lost) && old(p.Sound(vol)) { StillBacked(p.Now(vol), old(p.Now(vol))); }
          FlushOne(p);
        }
        p := p.nextDirty;
        k := k + 1;
      }
    }

    /** The newest session on `name`, if any. */
    ghost function Newest(name: Name): WriteHandle?
      reads dirty
    {
      var k := FirstNamed(dirty.list, name);
      if k < |dirty.list| then dirty.list[k] else null
    }

    method FindDirty(name: Name) returns (w: WriteHandle?)
      requires dirty.Linked()
      ensures w == Newest(name)
    {
      w := dirty.head;
      ghost var k := 0;
      while w != null && w.name != name
        invariant 0 <= k <= |dirty.list| && w == (if k < |dirty.list| then dirty.list[k] else null)
        invariant forall i :: 0 <= i < k ==> dirty.list[i].name != name
        decreases |dirty.list| - k
      {
        assert dirty.list[k].nextDirty == NextIn(dirty.list, k);
        w := w.nextDirty;
        k := k + 1;
      }
    }

    /** vol_write_read: the session's own content. */
    method EngineRead(w: WriteHandle, off: nat, n: nat) returns (r: ReadResult)
      requires w.ws.Some?
      modifies w`ws, vol`calls, vol`faults, vol`lost
      ensures w.ws.Some? && old(vol.faults) <= vol.faults && old(vol.lost) <= vol.lost && old(vol.calls) <= vol.calls
      ensures old(w.Healthy(vol)) ==> w.Healthy(vol)
      ensures old(w.ws.value.Loaded?) ==> w.ws == old(w.ws)
      ensures vol.lost == old(vol.lost) ==> Within(w.BaseNow(vol), old(w.BaseNow(vol)))
      ensures vol.faults == old(vol.faults) ==> r.Data? && vol.lost == old(vol.lost)
      ensures vol.faults == old(vol.faults) && old(w.Healthy(vol)) ==> r == Data(Slice(old(w.Base(vol)), off, n))
      ensures vol.faults != old(vol.faults) ==> r.Error?
      ensures r.Error? ==> r.errno == EIO || (r.errno == ESTALE && !vol.oracle(old(vol.calls)).Ok?)
      ensures vol.oracle(old(vol.calls)) == Refused(ESTALE) ==> r == Error(ESTALE)
      ensures old(w.BaseNow(vol).backed) && vol.oracle(old(vol.calls)).Ok? ==> vol.faults == old(vol.faults)
    {
      hide Tiled, Snapshot.Ok, Snapshot.Flows, OfFile, Within, Flat;
      SelfWithin(w.BaseNow(vol));
      var a := vol.Ask();
      if a.Refused? {
        return Error(if a.rc == ESTALE then ESTALE else EIO);
      }
      var ok := w.LoadOld(vol, a);
      if !a.Ok? {
        return Error(if a.rc == ESTALE then ESTALE else EIO);
      }
      if !ok {
        vol.faults := vol.faults + 1;
        return Error(EIO);
      }
      SameBytesWithin(w.BaseNow(vol), old(w.BaseNow(vol)));
      var bytes := ReadBack(w.ws.value.st, off, n);
      r := Data(bytes);
    }

    /** A session that was only loaded stands for what it did. */
    lemma Reloaded(w: WriteHandle, s0: Standing, s1: Standing)
      requires w.WindowOk() && w.Healthy(vol) && Within(w.BaseNow(vol), s0)
      requires s1 == Windowed(vol.childSegs, s0, w.tailSeg, w.tail, w.tailLo, w.tailHi)
      requires w.Staged() ==>
        CanTake(vol.childSegs, s0.front, SegmentStart(w.tailSeg) + w.tailLo, w.tailHi - w.tailLo)
      ensures w.Sound(vol) && Within(w.Now(vol), s1)
    {
      hide WriteHandle.Healthy, WriteHandle.BaseNow, Within, After, CanTake, SegmentStart;
      if w.Staged() {
        var off, d := SegmentStart(w.tailSeg) + w.tailLo, w.tail[w.tailLo..w.tailHi];
        AfterWithin(vol.childSegs, w.BaseNow(vol), s0, off, d);
        TakesSooner(vol.childSegs, w.BaseNow(vol), s0, off, |d|);
      }
      w.NowIs(vol);
    }

    method ReadSession(w: WriteHandle, off: nat, n: nat) returns (r: ReadResult)
      requires Valid() && w in dirty.Members()
      modifies w`ws, vol`calls, vol`faults, vol`lost
      ensures Valid() && SameView(w) && old(vol.faults) <= vol.faults && old(vol.lost) <= vol.lost
      ensures old(vol.calls) <= vol.calls
      ensures old(w.ws.value.Loaded?) ==> w.ws == old(w.ws)
      ensures vol.faults == old(vol.faults) ==> r.Data? && vol.lost == old(vol.lost)
      ensures vol.faults == old(vol.faults) && old(w.Healthy(vol)) ==> r == Data(Slice(old(w.Base(vol)), off, n))
      ensures vol.faults != old(vol.faults) ==> r.Error?
      ensures r.Error? ==> r.errno == EIO || (r.errno == ESTALE && !vol.oracle(old(vol.calls)).Ok?)
      ensures vol.oracle(old(vol.calls)) == Refused(ESTALE) ==> r == Error(ESTALE)
      ensures old(w.BaseNow(vol).backed) && vol.oracle(old(vol.calls)).Ok? ==> vol.faults == old(vol.faults)
    {
      hide WriteHandle.BaseOver, WriteHandle.Healthy, CanTake, SegmentStart, Windowed, Slice;
      ghost var s0, s1, sound := w.BaseNow(vol), w.Now(vol), w.Sound(vol);
      r := EngineRead(w, off, n);
      if sound && vol.lost == old(vol.lost) { Reloaded(w, s0, s1); }
    }

    /** A name without a session: the committed file, if the name table has it. */
    method ReadCommitted(name: Name, off: nat, n: nat) returns (r: ReadResult)
      ensures r == Error(ENOENT) <==> name !in vol.files || name in hidden
      ensures r.Error? ==> r.errno == ENOENT || (r.errno == EIO && !Tiled(vol.FileOf(name)))
      ensures r.Data? ==> r.bytes == Slice(vol.Committed(name), off, n)
    {
      hide Tiled, Flat;
      if name !in vol.files || name in hidden { return Error(ENOENT); }
      if Tiled(vol.FileOf(name)) { TiledReads(vol.FileOf(name), off, n); }
      var got := ReadRange(vol.files[name], off, n);
      r := if got.Some? then Data(got.value) else Error(EIO);
    }

    /** The newest session on the name, which has pushed its window, or the committed file. */
    method ReadPushed(name: Name, off: nat, n: nat) returns (r: ReadResult)
      requires Valid()
      modifies handles`ws, vol`calls, vol`faults, vol`lost
      ensures Valid() && SameViews() && old(vol.faults) <= vol.faults && old(vol.lost) <= vol.lost
      ensures old(vol.calls) <= vol.calls && (vol.faults == old(vol.faults) ==> vol.lost == old(vol.lost))
      ensures dirty.list != [] && old(dirty.list[0].Lost(vol)) ==> dirty.list[0].Lost(vol)
      ensures forall h :: h in handles && h.name != name ==> h.ws == old(h.ws)
      ensures Newest(name) == null ==>
        && vol.faults == old(vol.faults)
        && (r == Error(ENOENT) <==> name !in vol.files || name in hidden)
        && (r.Error? ==> r.errno == ENOENT || (r.errno == EIO && !Tiled(vol.FileOf(name))))
        && (r.Data? ==> r.bytes == Slice(vol.Committed(name), off, n))
      ensures Newest(name) != null && r.Error? ==> r.errno == EIO || r.errno == ESTALE
      ensures Newest(name) != null && Newest(name) in handles && vol.faults == old(vol.faults) ==>
        (old(Newest(name).Sound(vol) && !Newest(name).Staged()) ==>
           r == Data(Slice(old(Newest(name).View(vol)), off, n)))
      ensures Newest(name) != null && Newest(name) in handles ==>
        (old(!Newest(name).Staged() && Newest(name).Sound(vol) && Newest(name).Now(vol).backed) && vol.AllOk() ==>
           vol.faults == old(vol.faults))
    {
      hide Tiled, WriteHandle.Sound, WriteHandle.Now, WriteHandle.BaseNow, WriteHandle.Healthy, Volume.AllOk;
      hide WriteHandle.Tidy, WriteHandle.WindowOk, DirtyList.Linked, FirstNamed, WriteHandle.Losing;
      var w := FindDirty(name);
      if w == null {
        r := ReadCommitted(name, off, n);
      } else {
        assert w in dirty.Members();
        w.AnswersOk(vol);
        if !w.Staged() && w.Sound(vol) { Pushed(w); }
        r := ReadSession(w, off, n);
      }
    }

    /** read(2) by path: the newest live session on the name owns the freshest bytes,
        after every session on it pushed its window; otherwise the committed file. */
    method Read(name: Name, off: nat, n: nat) returns (r: ReadResult)
      requires Valid()
      modifies handles`ws, handles`tailLo, handles`tailHi, vol`calls, vol`faults, vol`lost
      ensures Valid() && SameViews() && old(vol.faults) <= vol.faults && old(vol.lost) <= vol.lost
      ensures vol.faults == old(vol.faults) ==> vol.lost == old(vol.lost)
      ensures vol.AllOk() && old(Answerable(name)) ==> vol.faults == old(vol.faults)
      ensures forall h :: h in handles && h.name != name ==> Untouched(h)
      ensures old(FirstLoses(name)) ==> dirty.list != [] && dirty.list[0].Lost(vol) && old(vol.calls) < vol.calls
      ensures Newest(name) == null ==>
        && (r == Error(ENOENT) <==> name !in vol.files || name in hidden)
        && (r.Error? ==> r.errno == ENOENT || (r.errno == EIO && !Tiled(vol.FileOf(name))))
        && (r.Data? ==> r.bytes == Slice(vol.Committed(name), off, n))
      ensures Newest(name) != null && r.Error? ==> r.errno == EIO || r.errno == ESTALE
      ensures vol.faults == old(vol.faults) ==>
        (old(Newest(name) != null && Newest(name) in handles && Newest(name).Sound(vol)) ==>
           r == Data(Slice(old(Newest(name).View(vol)), off, n)))
    {
      hide Tiled, WriteHandle.Sound, WriteHandle.Now, WriteHandle.Healthy, Volume.AllOk, WriteHandle.Tidy;
      hide WriteHandle.WindowOk, DirtyList.Linked, FirstNamed, WriteHandle.Lost, WriteHandle.Losing;
      FlushNamed(name);
      ghost var w := Newest(name);
      if w != null && vol.lost == old(vol.lost) && old(w.Sound(vol)) {
        StillBacked(w.Now(vol), old(w.Now(vol)));
        SameBytesWithin(w.Now(vol), old(w.Now(vol)));
      }
      r := ReadPushed(name, off, n);
    }
  }

  lemma TooLongBound(n: nat, len: nat)
    requires n > 0
    ensures len > MAX_FILE_SIZE ==> TooLong(n, len)
  {
  }

  lemma SameBytesWithin(a: Standing, b: Standing)
    requires Within(a, b)
    ensures a.view == b.view
  {
  }

  /** A write that is reported as complete and is lost: the window of another segment
      cannot be pushed, the loop stops, and the full size is returned. */
  method AcknowledgedWriteLost() returns (r: int, ghost kept: Content, ghost wanted: Content)
    ensures r == 1 && wanted == Splice(kept, 0, [7]) && wanted != kept
  {
    hide WriteHandle.Now, WriteHandle.Sound, Daemon.Valid, WriteHandle.Ready, SegOf, OffsetIn, NextEnd, Part, After;
    hide Splice, IsSplice, Within, OfFile;
    var vol := new Volume(true, 65536, (i: nat) => if i == 0 then Ok else Refused(-2), (i: nat) => false);
    var d := new Daemon(vol);
    var h := d.Open("f");
    NewFile(vol.FileOf("f"));
    ReadyFor(vol, h, h.Now(vol), 65536, 1);
    FarByte();
    ghost var done;
    r, done := d.Write(h, 65536, [9], true);
    assert [9][..1] == [9];
    d.ValidHandle(h);
    FarStanding(h.Now(vol), OfFile(65536, vol.FileOf("f")));
    ReadyFor(vol, h, h.Now(vol), 0, 1);
    r, done := d.Write(h, 0, [7], true);
    assert [7][..0] == [];
    d.ValidHandle(h);
    kept, wanted := h.View(vol), Splice(h.View(vol), 0, [7]);
  }

  lemma NewFile(f: File)
    requires f == FileRec([], 0)
    ensures var s := OfFile(65536, f); s.view == [] && s.front == 0 && s.backed
  {
  }

  lemma FarStanding(a: Standing, s: Standing)
    requires Within(a, After(65536, s, 65536, [9])) && s.view == []
    ensures a.view == Splice([], 65536, [9]) && a.front == 0 && (s.backed ==> a.backed)
  {
    hide Splice, IsSplice;
  }

  /** In the first child there is room for a byte. */
  lemma ReadyFor(vol: Volume, h: WriteHandle, s: Standing, off: nat, k: nat)
    requires vol.childSegs == 65536 && h.WindowOk() && h.Sound(vol) && h.Now(vol) == s && s.front == 0
    requires off + k <= 0x1_0000_0000
    ensures h.Ready(vol, off, k)
  {
    hide WriteHandle.Sound, WriteHandle.Now;
  }

  lemma FarByte()
    ensures var v := Splice([], 65536, [9]); |v| == 65537 && Splice(v, 0, []) == v && Splice(v, 0, [7]) != v
    ensures SegOf(65536) == 1 && SegOf(0) == 0 && OffsetIn(0) == 0
    ensures Part(65536, 1) && Part(0, 1) && NextEnd(0, 1, 0) == 1
  {
    var v := Splice([], 65536, [9]);
    assert At(v, 0) == 0 && At(Splice(v, 0, [7]), 0) == 7;
  }

  function TwoSegments(): (f: File)
    ensures f.size == 65537
  {
    FileRec([seq(65536, _ => 5), [6]], 65537)
  }

  /** A byte staged over a file of two segments. */
  method StagedOverTwo() returns (d: Daemon, h: WriteHandle, ack: int)
    ensures d.Valid() && d.handles == {h} && h.name == "f" && ack == 1
    ensures h.Losing(d.vol) && h.tailSeg == 0 && |d.vol.Committed("f")| == 65537
    ensures d.vol.calls == 1 && d.vol.childSegs == 65536
    ensures d.vol.oracle == ((i: nat) => if i == 1 then LoadFailed(-5, None) else Ok)
    ensures fresh(d) && fresh(d.vol) && fresh(d.dirty) && fresh(d.handles)
  {
    hide WriteHandle.Now, WriteHandle.Sound, Daemon.Valid, WriteHandle.Ready, OffsetIn, Part, NextEnd, TwoSegments;
    var vol := new Volume(true, 65536, (i: nat) => if i == 1 then LoadFailed(-5, None) else Ok, (i: nat) => false);
    vol.files := map["f" := TwoSegments()];
    d := new Daemon(vol);
    h := d.Open("f");
    ghost var done;
    FarByte();
    ack, done := d.Write(h, 0, [9], true);
  }

  /** A file that could not be loaded is taken for loaded. Reading by path pushes the window
      and drops the answer, so the loss goes unreported: the next flush succeeds and publishes
      what little the session has. */
  method FailedLoadPublished() returns (ack: int, r: int, ghost was: Content, ghost now: Content)
    ensures ack == 1 && r == 0 && |was| == 65537 && |now| <= 65536
  {
    hide WriteHandle.Now, WriteHandle.Sound, WriteHandle.Lost, WriteHandle.Losing, Daemon.Valid, Daemon.SameView;
    hide Settled, Smooth, Publishes, OfFile;
    var d, h;
    d, h, ack := StagedOverTwo();
    was := d.vol.Committed("f");
    OnlyHandle(d, h);
    var _ := d.Read("f", 0, 1);
    d.ValidHandle(h);
    LostStanding(d.vol, h);
    ghost var s := h.Now(d.vol);
    r := d.Commit(h);
    PublishedView(s, d.vol.FileOf("f"));
    now := d.vol.Committed("f");
  }

  lemma OnlyHandle(d: Daemon, h: WriteHandle)
    requires d.Valid() && d.handles == {h} && h.Losing(d.vol) && h.name == "f"
    ensures d.dirty.list != [] && d.dirty.list[0] == h && d.FirstLoses("f")
  {
    assert h in d.dirty.Members() && d.dirty.list[0] in d.dirty.Members();
  }

  lemma LostStanding(vol: Volume, h: WriteHandle)
    requires h.WindowOk() && h.Lost(vol) && h.tailSeg == 0 && vol.childSegs == 65536
    ensures h.ws.Some? && h.Sound(vol) && h.Now(vol).backed && Settled(vol.childSegs, h.Now(vol))
    ensures h.Now(vol).front == 0 && |h.View(vol)| <= 65536
  {
    hide WriteHandle.BaseNow;
    h.WindowWrite(vol);
    h.SoundTakes(vol);
    assert h.BaseNow(vol).backed;
  }

  lemma PublishedView(s: Standing, f: File)
    requires Publishes(65536, s, f) && s.front == 0
    ensures FileBytes(f) == s.view
  {
  }

  /** Index of the first handle on `name`, or the length when there is none. */
  ghost function FirstNamed(s: seq<WriteHandle>, name: Name): (k: nat)
    ensures k <= |s| && (k < |s| ==> s[k].name == name)
    ensures forall i :: 0 <= i < k ==> s[i].name != name
  {
    if s == [] || s[0].name == name then 0 else 1 + FirstNamed(s[1..], name)
  }
}
