/** The engine's session calls as the daemon makes them: a session between two calls is a
    value, and a call resumes it, works on it in place, and saves it. */
module EngineCalls {
  import opened Options
  import opened Bytes
  import opened SegmentMap
  import opened ChildRecipe
  import opened StoredFile
  import opened StoredTree
  import opened RangeEffect
  import opened EngineSession
  import opened Standings

  type Engine = st: Snapshot | st.Ok() witness Snapshot(1, Recipe(0, [], [], []), {}, 0, 0, 0, [])

  /** What is known of a session. */
  ghost function OfSession(st: Engine): Standing {
    Standing(st.Content(), Shorts(st.segs), Reaches(st.segs, st.size), |st.segs|, st.recipe.cur,
             Tall(st.recipe, st.childSegs), true, true)
  }

  /** wsession_load_old: plain segments that fit one child are taken over, anything else is
      read through and stored again. */
  method Load(n: nat, f: File, plain: bool) returns (st: Engine, ok: bool)
    requires n > 0
    ensures st.childSegs == n && st.Flows() && (Tiled(f) ==> ok)
    ensures ok ==> Within(OfSession(st), OfFile(n, f))
  {
    hide Filing, Streams, Tiled, Shorts, Tall;
    if plain && |f.segs| <= n {
      OkZeroTail(f);
      var s := new WriteSession.Alias(n, f.segs, f.size);
      s.OneChildTall();
      st, ok := s.Save(), true;
    } else {
      var s := new WriteSession(n);
      var rc := s.Materialize(f, _ => true);
      EndsIn(n, f.size);
      st, ok := s.Save(), rc == 0;
    }
  }

  /** A load that fails: before anything is there, or after some windows. It leaves the file as
      it was exactly when there are only zeros past the windows. */
  method LoadPart(n: nat, f: File, windows: Option<nat>) returns (st: Engine)
    requires n > 0
    ensures st.childSegs == n && st.Flows()
    ensures windows == None ==> st.Content() == [] && st.recipe.cur == 0
    ensures windows.Some? && Tiled(f) ==>
      (st.Content() == FileBytes(f) <==>
       forall i: nat :: windows.value * SEG <= i < f.size ==> FileBytes(f)[i] == 0)
  {
    hide Filing, Streams, Tiled, Shorts, Tall, Window, Flat;
    var s := new WriteSession(n);
    if windows.Some? {
      var space: nat -> bool := j => j < windows.value;
      var rc := s.Materialize(f, space);
      assert s.segs != [] ==> space(|s.segs| - 1);
      if Tiled(f) { PartIs(s.segs, f, windows.value, rc == 0); }
    }
    st := s.Save();
  }

  /** The first `k` windows of a file, or all of it. */
  lemma PartIs(segs: Segments, f: File, k: nat, all: bool)
    requires Window(segs, FileBytes(f)) && |segs| <= k && (!all ==> |segs| == k)
    requires all ==> Reaches(segs, f.size) && Flat(segs, f.size) == FileBytes(f)
    ensures Flat(segs, f.size) == FileBytes(f) <==>
            forall i: nat :: k * SEG <= i < f.size ==> FileBytes(f)[i] == 0
  {
    var src, c := FileBytes(f), Flat(segs, f.size);
    if !all {
      forall i: nat | i < f.size ensures c[i] == if i / SEG < k then src[i] else 0 {
        assert c[i] == At(c, i) == ByteAt(segs, i) && src[i] == At(src, i);
      }
    }
  }

  /** vol_write_range on a session that streams, for a write that does not go back. */
  method Range(st: Engine, off: nat, d: Content, room: bool, space: nat -> bool)
    returns (st': Engine, rc: int, ghost done: nat)
    requires d != []
    ensures st'.childSegs == st.childSegs && done <= |d| && (rc == 0 ==> done == |d|)
    ensures !TooBig(st.childSegs, off, |d|) && room && (forall j :: space(j)) ==> rc == 0
    ensures st.Flows() && CanTake(st.childSegs, st.recipe.cur, off, |d|) ==>
              st'.Flows() && Within(OfSession(st'), Partly(st.childSegs, OfSession(st), off, d, done))
  {
    var s := new WriteSession.Resume(st);
    var n := st.childSegs;
    if CanTake(n, st.recipe.cur, off, |d|) {
      LastAhead(n, off, |d|);
      if NoLeap(n, st.size, off) { assert s.Rises(SegOf(off)); }
    }
    hide Filing, Streams, Shorts, Reaches, Tall, Flat, ZeroTail, SegOf, ChildOf, Start, TooBig, Written, UnreadEnds;
    hide Splice, IsSplice;
    rc, done := s.WriteRange(off, d, room, space);
    st' := s.Save();
  }

  /** vol_write_read. */
  method ReadBack(st: Engine, off: nat, n: nat) returns (r: Content)
    ensures st.Flows() ==> r == Slice(st.Content(), off, n)
  {
    var s := new WriteSession.Resume(st);
    hide Filing, Streams, Flat, ZeroTail;
    r := s.Read(off, n);
  }

  /** vol_write_truncate. What it makes of a session with sealed children is not followed here:
      the file is then an arbitrary one. */
  method Cut(st: Engine, len: nat, room: bool, space: nat -> bool) returns (st': Engine, rc: int)
    ensures st'.childSegs == st.childSegs
    ensures st.Flows() && st.recipe.cur == 0 && !TooLong(st.childSegs, len) && room && (forall j :: space(j)) ==>
              rc == 0
    ensures st.Flows() && st.recipe.cur == 0 && rc == 0 ==>
              st'.Flows() && Within(OfSession(st'), Recut(st.childSegs, OfSession(st), len))
  {
    if st.recipe.chld != [] {
      st' := AnyFile(st.childSegs);
      rc := *;
      return;
    }
    var s := new WriteSession.Resume(st);
    assert st.childSegs > 0;
    hide Filing, Streams, Flat, ZeroTail, TooLong, Shorts, CutShorts, Tall, Needed, ChildOf, Resize, IsResize;
    hide OfSession, Within, Recut, Reaches;
    rc := s.Truncate(len, room, space);
    st' := s.Save();
    if rc == 0 { RecutIs(st, st', len); }
  }

  lemma RecutIs(st: Engine, st': Engine, len: nat)
    requires st'.childSegs == st.childSegs > 0 && st'.size == len && st'.Content() == Resize(st.Content(), len)
    requires Shorts(st'.segs) == CutShorts(Shorts(st.segs), st.size, len)
    requires Reaches(st.segs, st.size) ==> Reaches(st'.segs, len)
    requires len != st.size ==> |st'.segs| <= Needed(len)
    requires len == st.size ==> st'.segs == st.segs && st'.recipe == st.recipe
    requires Tall(st'.recipe, st'.childSegs)
    requires len > 0 ==> st'.recipe.cur <= ChildOf(Needed(len) - 1, st.childSegs)
    requires len == 0 ==> st'.recipe.cur == 0
    ensures Within(OfSession(st'), Recut(st.childSegs, OfSession(st), len))
  {
    EndsIn(st.childSegs, len);
    assert |st.Content()| == st.size;
    RecutView(st.childSegs, OfSession(st), len);
    hide Flat, Shorts, CutShorts, Tall, Needed, ChildOf, Resize, IsResize, Reaches;
  }

  method AnyFile(n: nat) returns (st: Engine)
    requires n > 0
    ensures st.childSegs == n
  {
    hide Filing, Streams;
    var f: File := *;
    var s := new WriteSession(n);
    var _ := s.Materialize(f, _ => true);
    st := s.Save();
  }

  /** The session has one child, or the file ends in the open one with nothing stored past it. */
  predicate Levelled(st: Engine) {
    st.recipe.chld == [] ||
    (Max(st.matUpto, st.aliased) == Needed(st.size) && Start(st.recipe.cur, st.childSegs) < Needed(st.size))
  }

  /** vol_write_commit: the recipe it publishes. What it publishes for any other session is not
      followed here. */
  method Publish(st: Engine, space: bool) returns (f: File, rc: int)
    ensures st.Flows() && Levelled(st) && space ==> rc == 0
    ensures st.Flows() && Levelled(st) && rc == 0 && Settled(st.childSegs, OfSession(st)) ==>
              FileBytes(f) == st.Content()
    ensures st.Flows() && Levelled(st) && rc == 0 ==> (Tiled(f) <==> Smooth(st.childSegs, OfSession(st)))
  {
    if !st.Flows() || !Levelled(st) {
      f := *;
      rc := *;
      return;
    }
    var s := new WriteSession.Resume(st);
    NoGapIff(st.segs, st.size);
    LevelStanding(st);
    hide Filing, Streams, Flat, ZeroTail, Tiled, NoGap, Tall, Reaches, Shorts, Levelled, Settled, Smooth;
    hide TreeOk, Flatten;
    f := FileRec([], 0);
    if st.recipe.chld == [] {
      var g;
      g, rc := s.Publish(space);
      if rc == 0 { f := g; }
    } else {
      var t;
      t, rc := s.PublishTree(space);
      if rc == 0 {
        FlattenOk(t);
        f := Flatten(t);
      }
    }
  }

  /** What decides the commit of such a session. */
  lemma LevelStanding(st: Engine)
    requires st.Flows() && Levelled(st)
    ensures st.recipe.chld == [] ==> st.recipe.cur == 0 && Tall(st.recipe, st.childSegs)
    ensures st.recipe.chld != [] ==>
      |st.segs| == Needed(st.size) && Start(st.recipe.cur, st.childSegs) < |st.segs| && Reaches(st.segs, st.size)
    ensures st.recipe.chld != [] && Settled(st.childSegs, OfSession(st)) ==> Tall(st.recipe, st.childSegs)
    ensures Smooth(st.childSegs, OfSession(st)) <==>
      && (st.recipe.chld == [] || Tall(st.recipe, st.childSegs))
      && Reaches(st.segs, st.size) && forall j :: j in Shorts(st.segs) ==> Needed(st.size) <= j + 1
  {
    hide Shorts, Flat, ZeroTail;
  }

  /** The commit of a session that streams. */
  method PublishSession(st: Engine) returns (f: File, rc: int)
    ensures st.Flows() && rc == 0 ==> Publishes(st.childSegs, OfSession(st), f)
    ensures st.Flows() && Settled(st.childSegs, OfSession(st)) ==> rc == 0
  {
    if st.Flows() && Settled(st.childSegs, OfSession(st)) { SettledIsLevel(st); }
    hide Snapshot.Flows, Settled, Levelled, OfSession, Tiled, FileBytes;
    f, rc := Publish(st, true);
  }

  lemma SettledIsLevel(st: Engine)
    requires st.Flows() && Settled(st.childSegs, OfSession(st))
    ensures Levelled(st)
  {
    hide Shorts, ZeroTail, Tall;
  }
}
