/** The engine's write session: a forked file kept as 64K segments under a recipe whose
    children are opened and sealed as the writes move. */
module EngineSession {
  import opened Bytes
  import opened SegmentMap
  import opened ChildRecipe
  import opened StoredFile
  import opened StoredTree
  import opened RangeEffect

  const EFBIG := -27
  const NO_SPACE := -2

  /** The recipe files the segments, all of them below the mark of what is stored. */
  ghost predicate Filing(n: nat, recipe: Recipe, aliased: nat, matUpto: nat, segs: Segments) {
    n > 0 && Files(recipe, n, segs) && SegmentsOk(segs) && Max(matUpto, aliased) == |segs| && aliased <= n
  }

  /** The open child is the last one and every entry of it is readable. */
  predicate Streams(n: nat, recipe: Recipe, aliased: nat, touched: set<nat>) {
    recipe.cur == |recipe.chld| &&
    forall k :: 0 <= k < |recipe.ents| ==> k in touched || Start(recipe.cur, n) + k < aliased
  }

  /** A session between two calls. One that has sealed no child reads all it has. */
  datatype Snapshot = Snapshot(childSegs: nat, recipe: Recipe, touched: set<nat>, aliased: nat, matUpto: nat,
                               size: nat, ghost segs: Segments) {
    ghost predicate Ok() {
      && Filing(childSegs, recipe, aliased, matUpto, segs) && ZeroTail(segs, size)
      && (recipe.chld == [] ==> Streams(childSegs, recipe, aliased, touched))
    }

    ghost function Content(): Content { Flat(segs, size) }

    /** The open child is the last one, and all of it is served. */
    predicate Flows() { Streams(childSegs, recipe, aliased, touched) }
  }

  /** Which of the properties kept by a range write it may count on: the session streams and
      is not made to go back, it stays in one child, all of the file is stored, a child is
      sealed already, and what is stored below the write. */
  datatype Guards = Guards(streams: bool, small: bool, reaches: bool, sealed: bool, below: Segments)

  class WriteSession {
    const childSegs: nat
    var recipe: Recipe
    var touched: set<nat>    // entries of the open child that this session wrote
    var aliased: nat         // leading segments taken over from the old file
    var matUpto: nat
    var size: nat
    ghost var segs: Segments // what the recipe files

    constructor (childSegs: nat)
      requires childSegs > 0
      ensures this.childSegs == childSegs && Valid() && Streaming() && Content() == []
      ensures recipe == Recipe(0, [], [], []) && segs == [] && aliased == 0
    {
      this.childSegs := childSegs;
      recipe, touched, aliased, matUpto, size, segs := Recipe(0, [], [], []), {}, 0, 0, 0, [];
    }

    /** A session that takes over the plain segments of the old file. */
    constructor Alias(childSegs: nat, src: Segments, size: nat)
      requires childSegs > 0 && SegmentsOk(src) && |src| <= childSegs && ZeroTail(src, size)
      ensures this.childSegs == childSegs && Valid() && Streaming() && OneChild() && Content() == Flat(src, size)
      ensures segs == src && this.size == size && aliased == |src|
    {
      this.childSegs := childSegs;
      recipe, touched, aliased, matUpto := Recipe(0, src, [], []), {}, |src|, |src|;
      this.size, segs := size, src;
    }

    constructor Resume(st: Snapshot)
      requires st.Ok()
      ensures Valid() && childSegs == st.childSegs && recipe == st.recipe && touched == st.touched
      ensures aliased == st.aliased && matUpto == st.matUpto && size == st.size && segs == st.segs
    {
      childSegs := st.childSegs;
      recipe, touched, aliased, matUpto := st.recipe, st.touched, st.aliased, st.matUpto;
      size, segs := st.size, st.segs;
    }

    function Save(): Snapshot
      reads this
    {
      Snapshot(childSegs, recipe, touched, aliased, matUpto, size, segs)
    }

    /** Segments below this number are readable in the session. */
    function Filled(): nat
      reads this`aliased, this`matUpto
    {
      Max(matUpto, aliased)
    }

    ghost predicate Filed()
      reads this`recipe, this`aliased, this`matUpto, this`segs
    {
      Filing(childSegs, recipe, aliased, matUpto, segs)
    }

    ghost predicate Valid()
      reads this
    {
      Filed() && ZeroTail(segs, size)
    }

    /** The file the recipe describes: what a commit publishes. */
    ghost function Content(): Content
      reads this
    {
      Flat(segs, size)
    }

    ghost predicate Holds(c: Content)
      reads this
    {
      Content() == c
    }

    ghost predicate LandedAs(c0: Content, off: nat, d: Content, blank: set<nat>)
      reads this
    {
      Landed(c0, off, d, blank, Content())
    }

    /** A segment of the open child is served only if this session wrote it since the child
        was opened, or it is the old file's; any other segment is served from its recipe. */
    predicate Readable(j: nat)
      requires childSegs > 0
      reads this`recipe, this`aliased, this`touched
    {
      ChildOf(j, childSegs) != recipe.cur || Place(j, childSegs) >= |recipe.ents| ||
      Place(j, childSegs) in touched || j < aliased
    }

    /** The session as a write in segment `j` finds it. */
    ghost function LaunchAt(j: nat): Launch
      requires childSegs > 0
      reads this`recipe, this`aliased, this`touched, this`segs
    {
      Launch(childSegs, j, Readable(j), recipe.cur, touched, aliased, |segs|)
    }

    ghost predicate Streaming()
      reads this`recipe, this`aliased, this`touched
    {
      Streams(childSegs, recipe, aliased, touched)
    }

    /** No child is sealed yet. */
    predicate OneChild()
      reads this`recipe
    {
      recipe.cur == 0 && recipe.chld == []
    }

    lemma StreamingReadable(j: nat)
      requires Filed() && Streaming()
      ensures Readable(j)
    {
      Split(j, childSegs);
    }

    /** wsession_seg_current: the bytes of a readable segment, zeros for any other. */
    method Current(j: nat) returns (plain: Content)
      requires Filed()
      ensures |plain| == SEG
      ensures forall k: nat :: k < SEG ==> At(plain, k) == if Readable(j) then SegByte(segs, j, k) else 0
    {
      var c, rel := ChildOf(j, childSegs), Place(j, childSegs);
      var stored: Content := [];
      FiledAt(j);
      hide Filed, Start, ChildOf, Place;
      if c == recipe.cur {
        if rel < |recipe.ents| && (rel in touched || j < aliased) { stored := recipe.ents[rel]; }
      } else if c < |recipe.chld| {
        if rel < |recipe.chld[c]| { stored := recipe.chld[c][rel]; }
      }
      assert if Readable(j) then stored == (if j < |segs| then segs[j] else []) else stored == [];
      hide Readable;
      plain := ResizeBytes(stored, SEG);
    }

    /** Where segment `j` is filed. */
    lemma FiledAt(j: nat)
      requires Filed()
      ensures var c, rel := ChildOf(j, childSegs), Place(j, childSegs);
        && (c == recipe.cur ==> (j < |segs| <==> rel < |recipe.ents|) && (j < |segs| ==> recipe.ents[rel] == segs[j]))
        && (c != recipe.cur && c < |recipe.chld| ==>
              (j < |segs| <==> rel < |recipe.chld[c]|) && (j < |segs| ==> recipe.chld[c][rel] == segs[j]))
        && (c != recipe.cur && c >= |recipe.chld| ==> j >= |segs|)
    {
      ChildIndex(segs, childSegs, j);
      if ChildOf(j, childSegs) != recipe.cur && ChildOf(j, childSegs) >= |recipe.chld| { BeyondChildren(j); }
      hide ChildOf, Place, Start, Child;
    }

    lemma ReadableIff(j: nat)
      requires Filed()
      ensures Readable(j) <==>
        || ChildOf(j, childSegs) != recipe.cur || j >= |segs| || Place(j, childSegs) in touched || j < aliased
    {
      FiledAt(j);
      hide Filed, ChildOf, Place;
    }

    lemma BeyondChildren(j: nat)
      requires Filed() && ChildOf(j, childSegs) >= |recipe.chld| && ChildOf(j, childSegs) != recipe.cur
      ensures j >= |segs|
    {
      var c, last := ChildOf(j, childSegs), Max(|recipe.chld|, recipe.cur + 1);
      Split(j, childSegs);
      if last < c { StartOrder(last, c, childSegs); }
    }

    /** Segment `j` is in the open child or a later one, and its child starts within the file. */
    predicate Rises(j: nat)
      requires childSegs > 0
      reads this`recipe, this`size
    {
      ChildOf(j, childSegs) >= recipe.cur && Start(ChildOf(j, childSegs), childSegs) * SEG <= size
    }

    /** ... or its child does not, or a child is short already: then one will be. */
    ghost predicate Falls(j: nat)
      requires childSegs > 0
      reads this`recipe, this`size, this`aliased, this`touched
    {
      && Streaming() && ChildOf(j, childSegs) >= recipe.cur
      && (!Tall(recipe, childSegs) ||
          (ChildOf(j, childSegs) > recipe.cur && size < Start(ChildOf(j, childSegs), childSegs) * SEG))
    }

    /** wsession_switch_child: seals the open child and opens another. */
    method Switch(c: nat)
      requires Filed() && Start(c, childSegs) <= |segs|
      modifies this`recipe, this`touched
      ensures Filed() && recipe.cur == c && (c == old(recipe.cur) ==> recipe == old(recipe))
      ensures touched == if c == old(recipe.cur) then old(touched) else {}
      ensures old(Streaming()) && c >= old(recipe.cur) ==> Streaming()
      ensures old(recipe.chld) != [] ==> recipe.chld != []
      ensures old(Tall(recipe, childSegs)) && c >= old(recipe.cur) && Start(c, childSegs) * SEG <= size ==>
        Tall(recipe, childSegs)
      ensures old(Streaming()) && c >= old(recipe.cur) ==>
        (old(!Tall(recipe, childSegs)) || (c > old(recipe.cur) && size < Start(c, childSegs) * SEG)) ==>
          !Tall(recipe, childSegs)
    {
      if Streaming() && c >= recipe.cur {
        if !Tall(recipe, childSegs) || (c > recipe.cur && size < Start(c, childSegs) * SEG) {
          OpenedShort(recipe, c, childSegs, segs, size);
        }
      }
      hide Tall;
      OpenedFiles(recipe, childSegs, segs, c, size);
      if c > recipe.cur && Streaming() { NextChild(c); }
      if c >= recipe.cur && Tall(recipe, childSegs) && Start(c, childSegs) * SEG <= size {
        OpenedTall(recipe, c, childSegs, size);
      }
      if c != recipe.cur {
        recipe := Opened(recipe, c, childSegs, size);
        touched := {};
      }
    }

    /** Past the last child there is only the next one, and it is empty. */
    lemma NextChild(c: nat)
      requires Filed() && recipe.cur == |recipe.chld| < c && Start(c, childSegs) <= |segs|
      ensures var r := Opened(recipe, c, childSegs, size); r.ents == [] && c == |r.chld|
    {
      SealedFiles(recipe, childSegs, segs);
      var k := |Sealed(recipe)|;
      if k < c { StartOrder(k, c, childSegs); }
    }

    /** Stores a segment of the open child. */
    method Store(j: nat, plain: Content)
      requires Filed() && |plain| <= SEG && j <= |segs| && recipe.cur == ChildOf(j, childSegs)
      modifies this`recipe, this`touched, this`matUpto, this`segs
      ensures Filed() && segs == Put(old(segs), j, plain)
      ensures recipe.cur == old(recipe.cur) && recipe.chld == old(recipe.chld) && recipe.tops == old(recipe.tops)
      ensures touched == old(touched) + {Place(j, childSegs)}
      ensures old(Streaming()) ==> Streaming()
    {
      StoredFiles(recipe, childSegs, segs, j, plain);
      hide ChildOf, Place, Start, Child, Files;
      var rel := Place(j, childSegs);
      recipe := recipe.(ents := Put(recipe.ents, rel, plain));
      touched := touched + {rel};
      matUpto := Max(matUpto, j + 1);
      segs := Put(segs, j, plain);
    }

    /** wsession_write_seg_n: opens the child if need be, then stores the segment; a segment
        that finds no space changes nothing. */
    method WriteSeg(j: nat, plain: Content, space: bool) returns (rc: int)
      requires Filed() && |plain| <= SEG && j <= |segs|
      modifies this`recipe, this`touched, this`matUpto, this`segs
      ensures Filed() && rc == if space then 0 else NO_SPACE
      ensures segs == if space then Put(old(segs), j, plain) else old(segs)
      ensures old(Streaming()) && ChildOf(j, childSegs) >= old(recipe.cur) ==> Streaming()
      ensures recipe.cur == ChildOf(j, childSegs)
      ensures touched == Marks(j, childSegs, old(recipe.cur), old(touched), space)
      ensures ChildOf(j, childSegs) == old(recipe.cur) ==> recipe.chld == old(recipe.chld)
      ensures old(recipe.chld) != [] ==> recipe.chld != []
      ensures old(Tall(recipe, childSegs) && Rises(j)) ==> Tall(recipe, childSegs)
      ensures old(Falls(j)) ==> !Tall(recipe, childSegs)
    {
      Split(j, childSegs);
      hide ChildOf, Place, Start, Filed, Streaming;
      ghost var tall, short := Tall(recipe, childSegs) && Rises(j), Falls(j);
      Switch(ChildOf(j, childSegs));
      assert (tall ==> Tall(recipe, childSegs)) && (short ==> !Tall(recipe, childSegs));
      if !space { return NO_SPACE; }
      Store(j, plain);
      rc := 0;
    }

    /** The segment to store: a whole one as it is, a part over what the segment is read as. */
    method Patch(j: nat, soff: nat, piece: Content) returns (plain: Content)
      requires Filed() && soff + |piece| <= SEG
      ensures |plain| == SEG
      ensures if Readable(j) then Patched(segs, j, soff, piece, plain) else OverZeros(soff, piece, plain)
    {
      hide Filed, Readable, Splice, SpliceBytes, SegByte;
      if soff == 0 && |piece| == SEG { return piece; }
      plain := Current(j);
      plain := SpliceBytes(plain, soff, piece);
    }

    /** What storing a patched segment makes of the file. */
    lemma PieceEffect(j: nat, soff: nat, piece: Content, plain: Content)
      requires Valid() && j <= |segs| && piece != [] && soff + |piece| <= SEG
      requires if Readable(j) then Patched(segs, j, soff, piece, plain) else OverZeros(soff, piece, plain)
      ensures var off := j * SEG + soff;
        var c := Flat(Put(segs, j, plain), Max(size, off + |piece|));
        && ZeroTail(Put(segs, j, plain), Max(size, off + |piece|))
        && (c == Splice(Content(), off, piece) <==> Readable(j) || ZeroOutside(segs, j, soff, |piece|))
        && Landed(Content(), off, piece, Lost(Readable(j), j), c)
    {
      assert childSegs > 0;
      hide Filed, Flat, ZeroTail, Splice, IsSplice, Readable, Patched, OverZeros, ZeroOutside, Put, Landed;
      if Readable(j) {
        PatchIsSplice(segs, size, j, soff, piece, plain);
        SplicedLands(Content(), j * SEG + soff, piece);
      } else {
        OverZerosExact(segs, size, j, soff, piece, plain);
        OverZerosLands(segs, size, j, soff, piece, plain);
      }
    }

    /** One turn of the range write. It splices its piece exactly when the segment was
        readable or had only zeros around the piece. */
    method WritePiece(j: nat, soff: nat, piece: Content, space: bool) returns (rc: int)
      requires Valid() && j <= |segs| && piece != [] && soff + |piece| <= SEG
      modifies this`recipe, this`touched, this`matUpto, this`segs, this`size
      ensures Valid() && rc == (if space then 0 else NO_SPACE)
      ensures |segs| == if space then Max(|old(segs)|, j + 1) else |old(segs)|
      ensures !space ==> Holds(old(Content()))
      ensures space ==>
        (Holds(Splice(old(Content()), j * SEG + soff, piece)) <==>
         old(Readable(j)) || ZeroOutside(old(segs), j, soff, |piece|))
      ensures space ==> LandedAs(old(Content()), j * SEG + soff, piece, Lost(old(Readable(j)), j))
      ensures old(Streaming()) && ChildOf(j, childSegs) >= old(recipe.cur) ==> Streaming()
      ensures recipe.cur == ChildOf(j, childSegs)
      ensures touched == Marks(j, childSegs, old(recipe.cur), old(touched), space)
      ensures ChildOf(j, childSegs) == old(recipe.cur) ==> recipe.chld == old(recipe.chld)
      ensures old(recipe.chld) != [] ==> recipe.chld != []
      ensures old(Reaches(segs, size)) ==> Reaches(segs, size)
      ensures space ==> Shorts(segs) == old(Shorts(segs)) - {j}
      ensures !space ==> segs == old(segs)
      ensures size == if space then Max(old(size), j * SEG + soff + |piece|) else old(size)
      ensures old(Tall(recipe, childSegs) && Rises(j)) ==> Tall(recipe, childSegs)
      ensures old(Falls(j)) ==> !Tall(recipe, childSegs)
      ensures old(segs)[..j] <= segs
    {
      assert childSegs > 0;
      hide Filed, Streaming, Flat, ZeroTail, Splice, IsSplice, Readable, Patched, OverZeros, ZeroOutside, ChildOf;
      hide Place;
      hide Shorts, Reaches, Tall, Rises, Falls, Marks, Put, Landed, Lost, LandedAs, Holds;
      var plain := Patch(j, soff, piece);
      PutShorts(segs, j, plain);
      PutReaches(segs, size, j, plain, j * SEG + soff + |piece|);
      PieceEffect(j, soff, piece, plain);
      PutBelow(segs, j, plain);
      ghost var c0, c := Content(), Flat(Put(segs, j, plain), Max(size, j * SEG + soff + |piece|));
      rc := WriteSeg(j, plain, space);
      if rc == 0 {
        size := Max(size, j * SEG + soff + |piece|);
        LandedContent(c0, j * SEG + soff, piece, Lost(old(Readable(j)), j), c);
      }
      HoldsContent(c0);
      HoldsContent(Splice(c0, j * SEG + soff, piece));
    }

    /** A whole segment needs nothing read, so it is always spliced. */
    method StoreWhole(j: nat, plain: Content)
      requires Valid() && j <= |segs| && |plain| == SEG
      modifies this`recipe, this`touched, this`matUpto, this`segs, this`size
      ensures Valid() && |segs| == Max(|old(segs)|, j + 1) && Content() == Splice(old(Content()), j * SEG, plain)
      ensures old(Streaming()) && ChildOf(j, childSegs) >= old(recipe.cur) ==> Streaming()
      ensures recipe.cur == ChildOf(j, childSegs)
      ensures (old(recipe.cur) != recipe.cur ==> touched == {Place(j, childSegs)})
    {
      assert ZeroOutside(segs, j, 0, |plain|);
      hide Filed, Streaming, Flat, ZeroTail, ZeroOutside, Readable, ChildOf, Place;
      var _ := WritePiece(j, 0, plain, true);
    }

    lemma OpenChildBefore()
      requires Filed()
      ensures recipe.cur <= ChildOf(|segs|, childSegs)
    {
      StartsBefore(recipe.cur, |segs|, childSegs);
    }

    lemma RisesBelow(k: nat, j: nat)
      requires Filed() && k <= j && |segs| <= k && Start(ChildOf(j, childSegs), childSegs) * SEG <= size
      ensures Rises(k)
    {
      OpenChildBefore();
      ChildOrder(|segs|, k, childSegs);
      ChildOrder(k, j, childSegs);
      if ChildOf(k, childSegs) < ChildOf(j, childSegs) {
        StartOrder(ChildOf(k, childSegs), ChildOf(j, childSegs), childSegs);
      }
    }

    /** wsession_zero_fill from the last stored segment: no byte changes. */
    method ZeroFill(to: nat, space: nat -> bool) returns (rc: int)
      requires Filed()
      modifies this`recipe, this`touched, this`matUpto, this`segs
      ensures Filed() && SameBytes(old(segs), segs) && (rc == 0 || rc == NO_SPACE)
      ensures (forall j :: space(j)) ==> rc == 0
      ensures old(segs) <= segs && (rc == 0 ==> |segs| == Max(|old(segs)|, to))
      ensures |segs| <= |old(segs)| || |segs| <= to
      ensures old(Streaming()) ==> Streaming()
      ensures |old(segs)| < to ==> recipe.cur <= ChildOf(to - 1, childSegs)
      ensures old(OneChild()) && to <= childSegs ==> OneChild()
      ensures Shorts(segs) == old(Shorts(segs))
      ensures old(recipe.chld) != [] ==> recipe.chld != []
      ensures to > 0 && old(Tall(recipe, childSegs) && Rises(to - 1)) ==> Tall(recipe, childSegs)
      ensures old(Falls(to)) && |old(segs)| < to ==> Falls(to)
    {
      hide *;
      FilledSegs();
      ghost var tall := to > 0 && Tall(recipe, childSegs) && Rises(to - 1);
      SameBytesSelf(segs);
      rc := 0;
      var k := Filled();
      if k < to && tall { RisesStart(to - 1); }
      ghost var short := k < to && Falls(to);
      while k < to
        invariant Filed() && SameBytes(old(segs), segs) && rc == 0 && childSegs > 0
        invariant |segs| == k && old(segs) <= segs && (k <= to || k == |old(segs)|)
        invariant old(Streaming()) ==> Streaming()
        invariant old(OneChild()) && to <= childSegs ==> OneChild()
        invariant Shorts(segs) == old(Shorts(segs))
        invariant (tall ==> Tall(recipe, childSegs)) && (short ==> Falls(to))
        invariant k < to && tall ==> Start(ChildOf(to - 1, childSegs), childSegs) * SEG <= size
        invariant k > |old(segs)| ==> recipe.cur == ChildOf(k - 1, childSegs)
        invariant old(recipe.chld) != [] ==> recipe.chld != []
      {
        ghost var before := segs;
        ChildOrder(k, to - 1, childSegs);
        if tall { RisesBelow(k, to - 1); }
        if short { FallsOn(k, to); }
        ghost var fell := Falls(k);
        rc := ZeroNext(space(k));
        if short { StillFalls(to, k, fell); }
        SameBytesTrans(old(segs), before, segs);
        if rc != 0 { return; }
        k := k + 1;
      }
      MaxOf(|old(segs)|, to);
    }

    /** A write that leaps to segment `to` falls at `k` on its way, or goes on leaping. */
    lemma FallsOn(k: nat, to: nat)
      requires Filed() && |segs| == k < to && Falls(to)
      ensures Streaming() && recipe.cur <= ChildOf(k, childSegs) <= ChildOf(to, childSegs)
      ensures Falls(k) ||
        (ChildOf(k, childSegs) < ChildOf(to, childSegs) && size < Start(ChildOf(to, childSegs), childSegs) * SEG)
    {
      OpenChildBefore();
      ChildOrder(k, to, childSegs);
    }

    lemma StillFalls(to: nat, k: nat, fell: bool)
      requires childSegs > 0 && Streaming() && recipe.cur == ChildOf(k, childSegs) <= ChildOf(to, childSegs)
      requires fell ==> !Tall(recipe, childSegs)
      requires fell ||
        (ChildOf(k, childSegs) < ChildOf(to, childSegs) && size < Start(ChildOf(to, childSegs), childSegs) * SEG)
      ensures Falls(to)
    {
    }

    /** One zero segment past the last. */
    method ZeroNext(space: bool) returns (rc: int)
      requires Filed()
      modifies this`recipe, this`touched, this`matUpto, this`segs
      ensures Filed() && SameBytes(old(segs), segs) && old(segs) <= segs && Shorts(segs) == old(Shorts(segs))
      ensures rc == (if space then 0 else NO_SPACE) && (rc == 0 <==> space)
      ensures |segs| == |old(segs)| + if space then 1 else 0
      ensures old(Streaming()) ==> Streaming()
      ensures recipe.cur == ChildOf(|old(segs)|, childSegs)
      ensures old(OneChild()) && |old(segs)| < childSegs ==> OneChild()
      ensures old(recipe.chld) != [] ==> recipe.chld != []
      ensures old(Tall(recipe, childSegs) && Rises(|segs|)) ==> Tall(recipe, childSegs)
      ensures old(Falls(|segs|)) ==> !Tall(recipe, childSegs)
    {
      FilledSegs();
      SameBytesSelf(segs);
      NoShortBeyond(segs);
      var k := Filled();
      var zero := ResizeBytes([], SEG);
      PutShorts(segs, k, zero);
      FirstChild(k, childSegs);
      ZeroSegment(segs, zero);
      OpenChildBefore();
      PutBelow(segs, k, zero);
      assert segs[..k] == segs;
      hide Filed, Streaming, SameBytes, ChildOf, Shorts, Tall, Rises, Falls, Put, ResizeBytes;
      rc := WriteSeg(k, zero, space);
    }

    lemma FilledSegs()
      requires Filed()
      ensures Filled() == |segs| && childSegs > 0
    {
    }

    lemma RisesStart(j: nat)
      requires childSegs > 0 && Rises(j)
      ensures Start(ChildOf(j, childSegs), childSegs) * SEG <= size
    {
    }

    /** The write starts in the open child or after it. */
    predicate Onward(off: nat)
      requires childSegs > 0
      reads this`recipe
    {
      ChildOf(SegOf(off), childSegs) >= recipe.cur
    }

    /** What each property a write started with comes to when it stops. */
    ghost predicate Stopped(g: Guards)
      reads this
    {
      && (g.streams ==> Streaming()) && (g.small ==> OneChild()) && (g.reaches ==> Reaches(segs, size))
      && (g.sealed ==> recipe.chld != []) && g.below <= segs
    }

    /** ... and when it goes on at offset `at`, with `end` the end of its data. */
    ghost predicate Going(g: Guards, at: nat, end: nat)
      requires childSegs > 0
      reads this
    {
      && Stopped(g) && SegOf(at) <= |segs| && |g.below| <= SegOf(at)
      && (g.streams ==> Onward(at)) && (g.small ==> end <= childSegs * SEG)
    }

    /** One turn, at an offset of the file. */
    method WriteAt(at: nat, piece: Content, space: bool, ghost c: Content) returns (rc: int)
      requires Valid() && SegOf(at) <= |segs| && piece != [] && OffsetIn(at) + |piece| <= SEG && Holds(c)
      modifies this`recipe, this`touched, this`matUpto, this`segs, this`size
      ensures Valid() && rc == if space then 0 else NO_SPACE
      ensures |segs| == if space then Max(|old(segs)|, SegOf(at) + 1) else |old(segs)|
      ensures old(Streaming() && Onward(at)) ==> Streaming()
      ensures space ==> LandedAs(c, at, piece, Lost(old(Readable(SegOf(at))), SegOf(at)))
      ensures !space ==> Holds(c)
      ensures touched == Marks(SegOf(at), childSegs, old(recipe.cur), old(touched), space)
      ensures recipe.cur == ChildOf(SegOf(at), childSegs)
      ensures ChildOf(SegOf(at), childSegs) == old(recipe.cur) ==> recipe.chld == old(recipe.chld)
      ensures old(recipe.chld) != [] ==> recipe.chld != []
      ensures old(Reaches(segs, size)) ==> Reaches(segs, size)
      ensures space ==> Shorts(segs) == old(Shorts(segs)) - {SegOf(at)}
      ensures !space ==> segs == old(segs)
      ensures size == if space then Max(old(size), at + |piece|) else old(size)
      ensures old(Tall(recipe, childSegs) && Rises(SegOf(at))) ==> Tall(recipe, childSegs)
      ensures old(Falls(SegOf(at))) ==> !Tall(recipe, childSegs)
      ensures old(segs)[..SegOf(at)] <= segs
    {
      assert childSegs > 0 && Content() == c;
      hide Filed, Valid, Streaming, Flat, ZeroTail, ChildOf, Splice, IsSplice, Readable, ZeroOutside, Place;
      hide Reaches, Shorts, Tall, Rises, Falls, SegOf, OffsetIn, Marks, Holds, Lost, LandedAs;
      SegmentOffset(at);
      rc := WritePiece(SegOf(at), OffsetIn(at), piece, space);
    }

    lemma HoldsContent(c: Content)
      ensures Holds(Content()) && (Holds(c) <==> Content() == c)
    {
    }

    lemma InFirstChild(at: nat, end: nat)
      requires childSegs > 0 && at < end <= childSegs * SEG
      ensures ChildOf(SegOf(at), childSegs) == 0
    {
      FirstChild(SegOf(at), childSegs);
    }

    /** The write may go on at offset `at`; at `end` there is nothing left of it. */
    ghost predicate Ready(g: Guards, at: nat, end: nat)
      requires childSegs > 0
      reads this
    {
      Valid() && Stopped(g) && (at < end ==> Going(g, at, end))
    }

    /** The piece from offset `at` to offset `to` of data that ends at `end`. */
    method NextPiece(at: nat, to: nat, end: nat, piece: Content, space: bool, ghost g: Guards, ghost c: Content)
      returns (rc: int)
      requires childSegs > 0 && Ready(g, at, end) && Holds(c) && at < to <= end
      requires |piece| == to - at && OffsetIn(at) + |piece| <= SEG && (to < end ==> SegOf(to) == SegOf(at) + 1)
      modifies this`recipe, this`touched, this`matUpto, this`segs, this`size
      ensures rc == (if space then 0 else NO_SPACE) && (rc == 0 <==> space)
      ensures recipe.cur == ChildOf(SegOf(at), childSegs)
      ensures |segs| == (if space then Max(|old(segs)|, SegOf(at) + 1) else |old(segs)|)
      ensures (space ==> SegOf(at) < |segs|)
      ensures (space ==> Ready(g, to, end)) && Ready(g, end, end)
      ensures space ==> LandedAs(c, at, piece, Lost(old(Readable(SegOf(at))), SegOf(at)))
      ensures !space ==> Holds(c)
      ensures touched == Marks(SegOf(at), childSegs, old(recipe.cur), old(touched), space)
      ensures space ==> Shorts(segs) == old(Shorts(segs)) - {SegOf(at)}
      ensures !space ==> segs == old(segs)
      ensures old(size) <= size && (space ==> to <= size)
      ensures old(Tall(recipe, childSegs) && Rises(SegOf(at))) ==> Tall(recipe, childSegs)
      ensures old(Falls(SegOf(at))) ==> !Tall(recipe, childSegs)
    {
      hide Shorts, Reaches, Tall, Rises, Falls;
      hide Valid, Streaming, Flat, ChildOf, Splice, IsSplice, SegOf, OffsetIn, Holds, LandedAs, Lost, Marks;
      if g.small { InFirstChild(at, end); }
      ChildOrder(SegOf(at), SegOf(at) + 1, childSegs);
      ghost var before := segs[..SegOf(at)];
      rc := WriteAt(at, piece, space, c);
      PrefixTrans(g.below, before, segs);
    }

    lemma LandsMore(c0: Content, off: nat, d: Content, n: nat, m: nat, blank: set<nat>, c: Content, served: bool)
      requires n < m <= |d| && (n > 0 ==> OffsetIn(off + n) == 0)
      requires Landed(c0, off, d[..n], blank, c) && LandedAs(c, off + n, d[n..m], Lost(served, SegOf(off + n)))
      ensures LandedAs(c0, off, d[..m], blank + Lost(served, SegOf(off + n)))
    {
      hide Landed, SegOf, OffsetIn;
      LandedMore(c0, off, d, n, m, blank, c, Lost(served, SegOf(off + n)), Content());
    }

    /** One turn of the loop, from byte `n` of the data. */
    method NextTurn(off: nat, d: Content, n: nat, space: bool, ghost g: Guards, ghost c0: Content,
                    ghost blank: set<nat>)
      returns (rc: int, m: nat)
      requires childSegs > 0 && n < |d| && Ready(g, off + n, off + |d|) && (n > 0 ==> OffsetIn(off + n) == 0)
      requires LandedAs(c0, off, d[..n], blank)
      modifies this`recipe, this`touched, this`matUpto, this`segs, this`size
      ensures rc == (if space then 0 else NO_SPACE) && (rc == 0 <==> space)
      ensures n < m <= |d| && (m < |d| ==> OffsetIn(off + m) == 0)
      ensures (space ==> Ready(g, off + m, off + |d|)) && Ready(g, off + |d|, off + |d|)
      ensures space ==> LandedAs(c0, off, d[..m], blank + Lost(old(Readable(SegOf(off + n))), SegOf(off + n)))
      ensures !space ==> LandedAs(c0, off, d[..n], blank)
      ensures |segs| == if space then Max(|old(segs)|, SegOf(off + n) + 1) else |old(segs)|
      ensures space ==> SegOf(off + n) < |segs|
      ensures touched == Marks(SegOf(off + n), childSegs, old(recipe.cur), old(touched), space)
      ensures recipe.cur == ChildOf(SegOf(off + n), childSegs)
      ensures SegOf(off + m - 1) == SegOf(off + n) && (m < |d| ==> SegOf(off + m) == SegOf(off + n) + 1)
      ensures space ==> Shorts(segs) == old(Shorts(segs)) - {SegOf(off + n)}
      ensures !space ==> segs == old(segs)
      ensures old(size) <= size && (space ==> off + m <= size)
      ensures old(Tall(recipe, childSegs) && Rises(SegOf(off + n))) ==> Tall(recipe, childSegs)
      ensures old(Falls(SegOf(off + n))) ==> !Tall(recipe, childSegs)
    {
      hide *;
      m := NextEnd(off, |d|, n);
      ghost var c, served := Content(), Readable(SegOf(off + n));
      HoldsContent(c);
      LandedContent(c0, off, d[..n], blank, c);
      rc := NextPiece(off + n, off + m, off + |d|, d[n..m], space, g, c);
      if space {
        LandsMore(c0, off, d, n, m, blank, c, served);
      } else {
        HoldsContent(c);
        LandedContent(c0, off, d[..n], blank, c);
      }
    }

    lemma LandedContent(c0: Content, off: nat, d: Content, blank: set<nat>, c: Content)
      requires Content() == c
      ensures LandedAs(c0, off, d, blank) <==> Landed(c0, off, d, blank, c)
    {
    }

    /** The loop that began at launch `l`, with `n` bytes of the data taken. */
    ghost predicate Underway(l: Launch, off: nat, n: nat, blank: set<nat>)
      reads this`recipe, this`touched, this`segs, this`aliased
    {
      && l.childSegs == childSegs > 0 && l.aliased == aliased && (n == 0 ==> l.served == Readable(SegOf(off)))
      && Under(l, off, n, blank, recipe.cur, touched, |segs|)
    }

    lemma StaysShort(g: Guards, at: nat, end: nat)
      requires childSegs > 0 && Ready(g, at, end) && at < end && g.streams && !Tall(recipe, childSegs)
      ensures Falls(SegOf(at))
    {
    }

    lemma NextRises(at: nat)
      requires childSegs > 0 && OffsetIn(at) == 0 && 0 < at <= size && SegOf(at) == SegOf(at - 1) + 1
      requires recipe.cur == ChildOf(SegOf(at - 1), childSegs)
      ensures Rises(SegOf(at))
    {
      ChildOrder(SegOf(at - 1), SegOf(at), childSegs);
      Split(SegOf(at), childSegs);
    }

    lemma ChildAhead(at: nat, to: nat)
      requires childSegs > 0 && at <= to
      ensures SegOf(at) <= SegOf(to) && ChildOf(SegOf(at), childSegs) <= ChildOf(SegOf(to), childSegs)
    {
      ChildOrder(SegOf(at), SegOf(to), childSegs);
    }

    lemma UnderwayAt(off: nat)
      requires childSegs > 0
      ensures Underway(LaunchAt(SegOf(off)), off, 0, {})
    {
    }

    /** The next segment is served exactly if the launch says so. */
    lemma UnderwayReads(l: Launch, off: nat, n: nat, blank: set<nat>)
      requires Filed() && Underway(l, off, n, blank) && (n > 0 ==> SegOf(off + n) == SegOf(off + n - 1) + 1)
      ensures l.at <= SegOf(off + n) && (Readable(SegOf(off + n)) <==> Reads(l, SegOf(off + n)))
    {
      hide Filed, SegOf, ChildOf, Place, Tracks, Unread, Reads, Readable;
      if n == 0 {
        ReadsFirst(l);
      } else {
        AfterLaunch(l, SegOf(off + n - 1), recipe.cur, touched, |segs|);
        TracksReads(l, SegOf(off + n - 1), recipe.cur, touched, |segs|);
        ReadableIff(SegOf(off + n));
      }
    }

    /** One segment further on. */
    lemma UnderwayMore(l: Launch, off: nat, n: nat, m: nat, blank: set<nat>, cur: nat, was: set<nat>, len: nat)
      requires l.childSegs == childSegs > 0 && l.aliased == aliased && Under(l, off, n, blank, cur, was, len)
      requires n < m && SegOf(off + m - 1) == SegOf(off + n) && (n > 0 ==> SegOf(off + n) == SegOf(off + n - 1) + 1)
      requires l.at <= SegOf(off + n) && recipe.cur == ChildOf(SegOf(off + n), childSegs)
      requires touched == Marks(SegOf(off + n), childSegs, cur, was, true) && |segs| == Max(len, SegOf(off + n) + 1)
      ensures Underway(l, off, m, blank + Lost(Reads(l, SegOf(off + n)), SegOf(off + n)))
    {
      hide SegOf, ChildOf, Place, Tracks, Unread, Reads, Marks, Under;
      UnderMore(l, off, n, m, blank, cur, was, len);
    }

    lemma ReadyReads(g: Guards, at: nat, end: nat)
      requires childSegs > 0 && Ready(g, at, end)
      ensures Filed() && (g.streams ==> Readable(SegOf(at)))
    {
      hide Filed, ZeroTail, Reaches, Readable, SegOf;
      if g.streams { StreamingReadable(SegOf(at)); }
    }

    lemma UnderwayAll(l: Launch, off: nat, n: nat, blank: set<nat>)
      requires Underway(l, off, n, blank)
      ensures Under(l, off, n, blank, recipe.cur, touched, |segs|) && l.childSegs == childSegs && l.aliased == aliased
      ensures n == 0 ==> blank == {}
      ensures n > 0 ==> blank == Unread(l, SegOf(off + n - 1))
    {
    }

    /** The loop of the range write. */
    method WritePieces(off: nat, d: Content, space: nat -> bool, ghost g: Guards)
      returns (rc: int, ghost done: nat, ghost blank: set<nat>)
      requires childSegs > 0 && d != [] && Ready(g, off, off + |d|)
      modifies this`recipe, this`touched, this`matUpto, this`segs, this`size
      ensures done <= |d| && (rc == 0 || rc == NO_SPACE) && Ready(g, off + |d|, off + |d|)
      ensures LandedAs(old(Content()), off, d[..done], blank) && (g.streams ==> blank == {})
      ensures (done == 0 ==> blank == {})
      ensures (done > 0 ==> blank == Unread(old(LaunchAt(SegOf(off))), SegOf(off + done - 1)))
      ensures (forall j :: space(j)) ==> rc == 0
      ensures rc == 0 ==> done == |d|
      ensures rc == 0 ==> recipe.cur == ChildOf(SegOf(off + |d| - 1), childSegs) && SegOf(off + |d| - 1) < |segs|
      ensures |segs| <= |old(segs)| || |segs| <= SegOf(off + |d| - 1) + 1
      ensures Shorts(segs) == old(Shorts(segs)) - Written(off, done)
      ensures recipe.cur <= ChildOf(SegOf(off + |d| - 1), childSegs)
      ensures old(Tall(recipe, childSegs) && Rises(SegOf(off))) ==> Tall(recipe, childSegs)
      ensures old(Falls(SegOf(off))) && g.streams && done > 0 ==> !Tall(recipe, childSegs)
      ensures rc == 0 ==> off + |d| <= size
    {
      hide *;
      ghost var tall, short := Tall(recipe, childSegs) && Rises(SegOf(off)), Falls(SegOf(off)) && g.streams;
      ghost var c0, l := Content(), LaunchAt(SegOf(off));
      LandedNone(c0, off, d);
      LandedContent(c0, off, d[..0], {}, c0);
      UnderwayAt(off);
      NoneWritten(off, Shorts(segs));
      var n := 0;
      rc, done, blank := 0, 0, {};
      while n < |d|
        invariant rc == 0 && done == n <= |d| && Ready(g, off + n, off + |d|)
        invariant n > 0 && n < |d| ==> OffsetIn(off + n) == 0 && SegOf(off + n) == SegOf(off + n - 1) + 1
        invariant LandedAs(c0, off, d[..n], blank) && Underway(l, off, n, blank) && (g.streams ==> blank == {})
        invariant n > 0 ==> recipe.cur == ChildOf(SegOf(off + n - 1), childSegs) && SegOf(off + n - 1) < |segs|
        invariant |segs| <= |old(segs)| || |segs| <= SegOf(off + |d| - 1) + 1
        invariant Shorts(segs) == old(Shorts(segs)) - Written(off, n)
        invariant (tall ==> Tall(recipe, childSegs)) && (n > 0 ==> off + n <= size)
        invariant n == 0 && tall ==> Rises(SegOf(off))
        invariant (n == 0 && short ==> Falls(SegOf(off))) && (n > 0 && short ==> !Tall(recipe, childSegs))
      {
        var m;
        ghost var cur, was, len := recipe.cur, touched, |segs|;
        ReadyReads(g, off + n, off + |d|);
        UnderwayReads(l, off, n, blank);
        UnderwayAll(l, off, n, blank);
        if g.streams { NothingLost(blank, Reads(l, SegOf(off + n)), SegOf(off + n)); }
        ChildAhead(off + n, off + |d| - 1);
        if n > 0 { NextRises(off + n); }
        if n > 0 && short { StaysShort(g, off + n, off + |d|); }
        rc, m := NextTurn(off, d, n, space(SegOf(off + n)), g, c0, blank);
        if rc != 0 { return; }
        MaxOf(len, SegOf(off + n) + 1);
        WrittenMore(off, n, m, old(Shorts(segs)));
        UnderwayMore(l, off, n, m, blank, cur, was, len);
        blank := blank + Lost(Reads(l, SegOf(off + n)), SegOf(off + n));
        n := m;
        done := n;
      }
      UnderwayAll(l, off, n, blank);
    }

    /** The zero fill before a write that starts past what is stored. */
    method FillBefore(first: nat, space: nat -> bool) returns (rc: int)
      requires Valid()
      modifies this`recipe, this`touched, this`matUpto, this`segs
      ensures Valid() && Content() == old(Content()) && (rc == 0 || rc == NO_SPACE)
      ensures ((forall j :: space(j)) ==> rc == 0)
      ensures old(segs) <= segs && (rc == 0 ==> first <= |segs|)
      ensures rc == 0 && first > |old(segs)| ==> |segs| == first
      ensures |segs| <= |old(segs)| || |segs| <= first
      ensures first <= |old(segs)| ==> recipe == old(recipe) && touched == old(touched) && segs == old(segs)
      ensures old(Streaming()) ==> Streaming()
      ensures ChildOf(first, childSegs) >= old(recipe.cur) ==> ChildOf(first, childSegs) >= recipe.cur
      ensures old(OneChild()) && first <= childSegs ==> OneChild()
      ensures Shorts(segs) == old(Shorts(segs)) && (old(Reaches(segs, size)) ==> Reaches(segs, size))
      ensures old(Tall(recipe, childSegs) && Rises(first)) ==> Tall(recipe, childSegs) && Rises(first)
      ensures old(Falls(first)) ==> Falls(first)
      ensures old(recipe.chld) != [] ==> recipe.chld != []
    {
      rc := 0;
      assert Filled() == |segs|;
      if first <= Filled() { return; }
      if Rises(first) { RisesBelow(first - 1, first); }
      hide Filed, Streaming, Flat, ZeroTail, ChildOf, Shorts, Tall, Falls, Start;
      ChildOrder(first - 1, first, childSegs);
      rc := ZeroFill(first, space);
      SameFile(old(segs), segs, size);
    }

    /** vol_write_range. The data, or the prefix it had space for, lands where it should; of a
        segment at either end that is not served when the write gets there nothing else is
        left. So it is the splice exactly when there is nothing to lose. A streaming session
        that is not made to go back to a sealed child loses nothing and goes on streaming; and a
        write that does not jump past a short last segment leaves none. */
    method WriteRange(off: nat, d: Content, room: bool, space: nat -> bool) returns (rc: int, ghost done: nat)
      requires Valid()
      modifies this`recipe, this`touched, this`matUpto, this`segs, this`size
      ensures Valid() && done <= |d|
      ensures rc == EFBIG <==> d != [] && TooBig(childSegs, off, |d|)
      ensures rc == 0 || rc == EFBIG || rc == NO_SPACE
      ensures d == [] || (!TooBig(childSegs, off, |d|) && room && forall j :: space(j)) ==> rc == 0
      ensures d == [] ==> recipe == old(recipe) && touched == old(touched) && segs == old(segs) && size == old(size)
      ensures rc == 0 ==> done == |d|
      ensures rc == 0 && d != [] ==>
        recipe.cur == ChildOf(SegOf(off + |d| - 1), childSegs) && SegOf(off + |d| - 1) < |segs|
      ensures old(Streaming() && Onward(off)) ==> Streaming() && Content() == Splice(old(Content()), off, d[..done])
      ensures done == 0 ==> Content() == old(Content())
      ensures done > 0 ==>
        LandedAs(old(Content()), off, d[..done], UnreadEnds(old(LaunchAt(SegOf(off))), SegOf(off + done - 1)))
      ensures done > 0 ==>
        (Content() == Splice(old(Content()), off, d[..done]) <==>
         ZeroAround(old(Content()), off, done, UnreadEnds(old(LaunchAt(SegOf(off))), SegOf(off + done - 1))))
      ensures old(OneChild()) && off + |d| <= childSegs * SEG ==> OneChild()
      ensures old(Reaches(segs, size)) ==> Reaches(segs, size)
      ensures d != [] ==> |segs| <= |old(segs)| || |segs| <= SegOf(off + |d| - 1) + 1
      ensures Shorts(segs) == old(Shorts(segs)) - Written(off, done)
      ensures d != [] && old(Onward(off)) ==> recipe.cur <= ChildOf(SegOf(off + |d| - 1), childSegs)
      ensures old(Tall(recipe, childSegs) && Rises(SegOf(off))) ==> Tall(recipe, childSegs)
      ensures old(Falls(SegOf(off))) && done > 0 ==> !Tall(recipe, childSegs)
      ensures old(recipe.chld) != [] ==> recipe.chld != []
      ensures old(segs)[..Min(SegOf(off), |old(segs)|)] <= segs
    {
      hide Valid, Filed, Streaming, Flat, ZeroTail, ChildOf, SegOf, Reaches, Shorts, Splice, IsSplice, LaunchAt;
      hide UnreadEnds, LandedAs, ZeroAround, GuardsFor, Unread, Written, Tall, Rises, Falls;
      rc, done := 0, 0;
      ghost var c0 := Content();
      SpliceNothing(c0, off, d);
      NoneWritten(off, Shorts(segs));
      ValidSegs();
      if d == [] { return; }
      GuardFacts(off, |d|);
      ChildAhead(off, off + |d| - 1);
      if TooBig(childSegs, off, |d|) { return EFBIG, 0; }
      if !room { return NO_SPACE, 0; }
      ghost var g, l, blank := GuardsFor(off, |d|), LaunchAt(SegOf(off)), {};
      LaunchFacts(l, SegOf(off));
      rc, done, blank := FillAndWrite(off, d, space, g);
      Landing(c0, off, d, done, blank, l);
    }

    lemma ValidSegs()
      requires Valid()
      ensures childSegs > 0
    {
    }

    /** The properties a range write may count on. */
    ghost function GuardsFor(off: nat, n: nat): Guards
      requires childSegs > 0
      reads this
    {
      Guards(Streaming() && Onward(off), OneChild() && off + n <= childSegs * SEG, Reaches(segs, size),
             recipe.chld != [], segs[..Min(SegOf(off), |segs|)])
    }

    method FillAndWrite(off: nat, d: Content, space: nat -> bool, ghost g: Guards)
      returns (rc: int, ghost done: nat, ghost blank: set<nat>)
      requires Valid() && d != [] && g == GuardsFor(off, |d|)
      modifies this`recipe, this`touched, this`matUpto, this`segs, this`size
      ensures Valid() && Stopped(g) && done <= |d| && (rc == 0 || rc == NO_SPACE)
      ensures (forall j :: space(j)) ==> rc == 0
      ensures rc == 0 ==> done == |d|
      ensures rc == 0 ==> recipe.cur == ChildOf(SegOf(off + |d| - 1), childSegs) && SegOf(off + |d| - 1) < |segs|
      ensures LandedAs(old(Content()), off, d[..done], blank) && (g.streams ==> blank == {})
      ensures (done == 0 ==> blank == {})
      ensures (done > 0 ==> blank == Unread(old(LaunchAt(SegOf(off))), SegOf(off + done - 1)))
      ensures |segs| <= |old(segs)| || |segs| <= SegOf(off + |d| - 1) + 1
      ensures Shorts(segs) == old(Shorts(segs)) - Written(off, done)
      ensures ChildOf(SegOf(off), childSegs) >= old(recipe.cur) ==>
        recipe.cur <= ChildOf(SegOf(off + |d| - 1), childSegs)
      ensures old(Tall(recipe, childSegs) && Rises(SegOf(off))) ==> Tall(recipe, childSegs)
      ensures old(Falls(SegOf(off))) && done > 0 ==> !Tall(recipe, childSegs)
    {
      hide *;
      GuardFacts(off, |d|);
      if Falls(SegOf(off)) { FallsStreams(SegOf(off)); }
      ghost var l, c0 := LaunchAt(SegOf(off)), Content();
      rc, done, blank := 0, 0, {};
      NoneWritten(off, Shorts(segs));
      ChildAhead(off, off + |d| - 1);
      LandedNone(c0, off, d);
      LaunchFacts(l, SegOf(off));
      rc := FillBefore(SegOf(off), space);
      FilledReady(g, off, off + |d|, rc == 0);
      if rc != 0 {
        LandedContent(c0, off, d[..0], {}, c0);
        return;
      }
      FilledLaunch(l, SegOf(off));
      if Falls(SegOf(off)) { FallsStreams(SegOf(off)); }
      ghost var l' := LaunchAt(SegOf(off));
      rc, done, blank := WritePieces(off, d, space, g);
      if done > 0 { SameUnread(l, l', SegOf(off + done - 1)); }
      ReadyStopped(g, off + |d|, off + |d|);
    }

    lemma FallsStreams(j: nat)
      requires childSegs > 0 && Falls(j)
      ensures Streaming() && ChildOf(j, childSegs) >= recipe.cur
    {
    }

    lemma LaunchFacts(l: Launch, j: nat)
      requires Valid() && l == LaunchAt(j)
      ensures l.childSegs == childSegs > 0 && l.at == j && (l.served <==> Readable(j)) && l.cur == recipe.cur
      ensures l.touched == touched && l.aliased == aliased && l.len == |segs| && (j >= |segs| ==> Readable(j))
    {
      ReadableIff(j);
    }

    /** A fill before the write leaves the launch as it was, or nothing to lose. */
    lemma FilledLaunch(l: Launch, j: nat)
      requires Valid() && l.childSegs == childSegs && l.at == j && l.aliased == aliased
      requires
        || (l.cur == recipe.cur && l.touched == touched && l.len == |segs| && (l.served <==> Readable(j)))
        || (l.served && j >= l.len && j == |segs|)
      ensures LaunchAt(j) == l || BothBeyond(l, LaunchAt(j))
    {
      ReadableIff(j);
    }

    lemma GuardFacts(off: nat, n: nat)
      requires Valid() && n > 0
      ensures childSegs > 0
      ensures var g := GuardsFor(off, n);
        && (g.streams <==> Streaming() && ChildOf(SegOf(off), childSegs) >= recipe.cur)
        && (g.reaches <==> Reaches(segs, size))
        && (g.small <==> OneChild() && off + n <= childSegs * SEG) && (g.small ==> SegOf(off) <= childSegs)
        && (g.sealed <==> recipe.chld != []) && g.below == segs[..Min(SegOf(off), |segs|)] <= segs
        && |g.below| <= SegOf(off)
    {
    }

    lemma FilledReady(g: Guards, off: nat, end: nat, filled: bool)
      requires Valid() && off < end && (g.streams ==> Streaming()) && (g.small ==> OneChild() && end <= childSegs * SEG)
      requires (g.reaches ==> Reaches(segs, size)) && (g.sealed ==> recipe.chld != []) && g.below <= segs
      requires filled ==> SegOf(off) <= |segs| && |g.below| <= SegOf(off)
      requires filled ==> (g.streams ==> ChildOf(SegOf(off), childSegs) >= recipe.cur)
      ensures Stopped(g) && (filled ==> Ready(g, off, end))
    {
    }

    lemma ReadyStopped(g: Guards, at: nat, end: nat)
      requires childSegs > 0 && Ready(g, at, end)
      ensures Valid() && Stopped(g)
    {
    }

    /** A fill before the write changes nothing that the write reads. */
    lemma SameUnread(l: Launch, l': Launch, last: nat)
      requires l.childSegs > 0 && (l' == l || BothBeyond(l, l'))
      ensures Unread(l', last) == Unread(l, last)
    {
      hide Unread;
      if l' != l {
        NoneUnread(l, last);
        NoneUnread(l', last);
      }
    }

    lemma Landing(c0: Content, off: nat, d: Content, done: nat, blank: set<nat>, l: Launch)
      requires done <= |d| && LandedAs(c0, off, d[..done], blank) && l.childSegs > 0 && l.at == SegOf(off)
      requires (done == 0 ==> blank == {}) && (done > 0 ==> blank == Unread(l, SegOf(off + done - 1)))
      ensures blank == {} ==> Content() == Splice(c0, off, d[..done])
      ensures done > 0 ==> LandedAs(c0, off, d[..done], UnreadEnds(l, SegOf(off + done - 1)))
      ensures done > 0 ==> (Content() == Splice(c0, off, d[..done]) <==>
                            ZeroAround(c0, off, done, UnreadEnds(l, SegOf(off + done - 1))))
    {
      hide Landed, Splice, IsSplice, SegOf, Reads;
      LandedIsSplice(c0, off, d[..done], blank, Content());
      if done > 0 {
        var ends := UnreadEnds(l, SegOf(off + done - 1));
        LandedAtEnds(c0, off, d[..done], blank, ends, Content());
        LandedIsSplice(c0, off, d[..done], ends, Content());
      }
    }

    /** What the session serves for the byte at `i`. */
    ghost function Served(i: nat): byte
      requires childSegs > 0 && i < size
      reads this
    {
      if Readable(SegOf(i)) then Content()[i] else 0
    }

    /** A byte further on in the segment that `from` falls into. */
    lemma ServedByte(from: nat, at: nat, plain: Content)
      requires Valid() && from <= at < size && OffsetIn(from) + at - from < SEG
      requires forall k: nat :: k < SEG ==>
        At(plain, k) == if Readable(SegOf(from)) then SegByte(segs, SegOf(from), k) else 0
      ensures SegOf(at) == SegOf(from)
      ensures At(plain, OffsetIn(from) + at - from) == Served(at)
    {
      var k := OffsetIn(from) + at - from;
      assert at == SegOf(from) * SEG + k;
      ByteInSegment(segs, SegOf(from), k);
      assert At(Content(), at) == ByteAt(segs, at);
    }

    /** `r` is what the session serves from offset `off` on. */
    ghost predicate ServedFrom(off: nat, r: Content)
      requires childSegs > 0
      reads this
    {
      off + |r| <= size && forall i: nat :: i < |r| ==> r[i] == Served(off + i)
    }

    lemma ServedAppend(off: nat, a: Content, b: Content)
      requires childSegs > 0 && ServedFrom(off, a) && ServedFrom(off + |a|, b)
      ensures ServedFrom(off, a + b)
    {
      hide Served;
      forall i: nat | i < |a + b| ensures (a + b)[i] == Served(off + i) {
        if i >= |a| { assert b[i - |a|] == Served(off + |a| + (i - |a|)); }
      }
    }

    /** The bytes of one segment that the read takes. */
    method ReadSome(from: nat, n: nat) returns (r: Content)
      requires Valid() && from + n <= size && OffsetIn(from) + n <= SEG
      ensures |r| == n && ServedFrom(from, r)
    {
      assert childSegs > 0;
      hide Filed, Streaming, ZeroTail, Readable, SegOf, OffsetIn, SegByte, Flat, Served;
      var soff := OffsetIn(from);
      var plain := Current(SegOf(from));
      r := plain[soff..soff + n];
      forall i: nat | i < n ensures r[i] == Served(from + i) {
        ServedByte(from, from + i, plain);
        assert r[i] == At(plain, soff + i);
      }
    }

    /** vol_write_read: what the file holds in readable segments, zeros in any other. */
    method Read(off: nat, n: nat) returns (r: Content)
      requires Valid()
      ensures |r| == |Slice(Content(), off, n)| && (off < size ==> ServedFrom(off, r))
      ensures Streaming() ==> r == Slice(Content(), off, n)
    {
      r := [];
      if off >= size { return; }
      assert childSegs > 0 && ServedFrom(off, []);
      var len := if off + n > size then size - off else n;
      hide Valid, Streaming, NextEnd, SegOf, OffsetIn, Flat, ServedFrom;
      while |r| < len
        invariant |r| <= len && ServedFrom(off, r)
      {
        var more := ReadSome(off + |r|, NextEnd(off, len, |r|) - |r|);
        ServedAppend(off, r, more);
        r := r + more;
      }
      if Streaming() { StreamingServes(off, r); }
    }

    lemma StreamingServes(off: nat, r: Content)
      requires Valid() && Streaming() && ServedFrom(off, r)
      ensures off + |r| <= size && r == Content()[off..off + |r|]
    {
      forall i: nat | i < |r| ensures r[i] == Content()[off + i] { StreamingReadable(SegOf(off + i)); }
    }

    /** Drops the entries from `keep` on; entries taken over from the old file only leave the
        table. */
    method Drop(keep: nat)
      requires Filed() && recipe.cur == 0 && recipe.chld == [] && keep < |recipe.ents|
      modifies this`recipe, this`touched, this`matUpto, this`aliased, this`segs
      ensures Filed() && segs == old(segs)[..keep] && recipe.cur == 0 && recipe.chld == []
      ensures old(Streaming()) ==> Streaming()
    {
      assert Start(0, childSegs) == 0 && recipe.ents == segs;
      recipe := recipe.(ents := recipe.ents[..keep]);
      touched := set t | t in touched && t < keep;
      matUpto, aliased := Min(matUpto, keep), Min(aliased, keep);
      segs := segs[..keep];
    }

    lemma InOpenChild(j: nat)
      requires Filed() && OneChild() && j < |segs|
      ensures ChildOf(j, childSegs) == 0
    {
      assert Start(0, childSegs) == 0 && Start(1, childSegs) == childSegs;
      FirstChild(j, childSegs);
    }

    /** Zeroes the rest of the segment that `cut` falls into, if it is stored. */
    method ZeroCut(cut: nat, space: bool) returns (rc: int)
      requires Filed() && Streaming() && recipe.cur == 0 && recipe.chld == []
      modifies this`recipe, this`touched, this`matUpto, this`segs
      ensures Filed() && Streaming() && (space ==> rc == 0) && (rc == 0 || rc == NO_SPACE)
      ensures recipe.cur == 0 && recipe.chld == []
      ensures rc == 0 ==> CutAt(old(segs), segs, cut) && CutWhole(old(segs), segs, cut)
      ensures rc != 0 ==> segs == old(segs)
    {
      rc := 0;
      var j := cut / SEG;
      assert recipe.ents == segs by { assert Start(0, childSegs) == 0; }
      if cut % SEG == 0 || j >= |recipe.ents| {
        CutNothing(segs, cut);
        return;
      }
      StreamingReadable(j);
      InOpenChild(j);
      hide Filed, Streaming, Readable, CutAt, ChildOf, SegByte;
      var plain := Current(j);
      plain := ResizeBytes(plain[..cut % SEG], SEG);
      CutStored(segs, cut, plain);
      rc := WriteSeg(j, plain, space);
    }

    /** Drops what lies past the new end and zeroes the rest of the segment that the shorter
        end falls into. */
    method CutTo(len: nat, space: nat -> bool) returns (rc: int)
      requires Valid() && Streaming() && recipe.chld == []
      modifies this`recipe, this`touched, this`matUpto, this`aliased, this`segs
      ensures Valid() && Streaming() && (rc == 0 || rc == NO_SPACE) && ((forall j :: space(j)) ==> rc == 0)
      ensures rc == 0 ==> OneChild() && ZeroTail(segs, len) && Flat(segs, len) == Resize(old(Content()), len)
      ensures rc == 0 && len != size ==> Shorts(segs) == CutShorts(old(Shorts(segs)), size, len)
      ensures rc == 0 ==> |segs| <= Needed(len)
      ensures rc == 0 && len < size && old(Reaches(segs, size)) ==> Reaches(segs, len)
      ensures recipe.cur == 0 && recipe.chld == []
    {
      OneChildEnts();
      hide Filed, Streaming, Flat, ZeroTail, Needed, CutAt, CutWhole, Shorts, CutShorts, SegmentsOk, Reaches, Resize;
      hide IsResize;
      ghost var segs0 := segs;
      var keep, cut := Needed(len), Min(len, size);
      if keep < |recipe.ents| {
        DropKeepsTail(segs, size, keep);
        Drop(keep);
      }
      ghost var kept := segs;
      rc := ZeroCut(cut, space(cut / SEG));
      if rc == 0 { CutEffect(segs0, kept, size, len, segs); }
    }

    lemma OneChildEnts()
      requires Valid() && recipe.chld == []
      ensures Filed() && ZeroTail(segs, size) && SegmentsOk(segs) && recipe.cur == 0 && recipe.ents == segs
      ensures Content() == Flat(segs, size)
    {
      assert Start(0, childSegs) == 0;
    }

    /** vol_write_truncate on a session with no sealed child: the resized file. */
    method Truncate(len: nat, room: bool, space: nat -> bool) returns (rc: int)
      requires Valid() && Streaming() && recipe.chld == []
      modifies this`recipe, this`touched, this`matUpto, this`aliased, this`segs, this`size
      ensures Valid() && Streaming()
      ensures rc == 0 ==> Content() == Resize(old(Content()), len)
      ensures len > MAX_FILE_SIZE || (len != old(size) && TooLong(childSegs, len)) ==>
        rc == EFBIG && Content() == old(Content())
      ensures !TooLong(childSegs, len) && room && (forall j :: space(j)) ==> rc == 0
      ensures rc == 0 && len <= childSegs * SEG ==> OneChild()
      ensures rc == 0 ==> Shorts(segs) == CutShorts(old(Shorts(segs)), old(size), len) && size == len
      ensures rc == 0 && old(Reaches(segs, size)) ==> Reaches(segs, size)
      ensures rc == 0 && len != old(size) ==> |segs| <= Needed(len)
      ensures len == old(size) ==> rc != 0 || (segs == old(segs) && recipe == old(recipe))
      ensures Tall(recipe, childSegs)
      ensures rc == 0 && len > 0 ==> recipe.cur <= ChildOf(Needed(len) - 1, childSegs)
    {
      rc := 0;
      OneChildTall();
      if len > MAX_FILE_SIZE { return EFBIG; }
      if len == size {
        SameContent(Content(), Resize(Content(), len));
        return;
      }
      if TooLong(childSegs, len) { return EFBIG; }
      OneChildTall();
      hide Filed, Streaming, Flat, ZeroTail, Needed, TooLong, Shorts, CutShorts, Reaches, Tall, ChildOf;
      rc := CutTo(len, space);
      OneChildTall();
      if rc != 0 { return; }
      rc := ExtendTo(len, room, space);
    }

    lemma OneChildTall()
      requires Filed() && recipe.chld == []
      ensures Tall(recipe, childSegs) && childSegs > 0 && recipe.cur == 0
    {
    }

    /** The new end: a longer file gets zero segments. */
    method ExtendTo(len: nat, room: bool, space: nat -> bool) returns (rc: int)
      requires Valid() && Streaming() && OneChild() && ZeroTail(segs, len)
      modifies this`recipe, this`touched, this`matUpto, this`segs, this`size
      ensures Valid() && Streaming() && SameBytes(old(segs), segs) && Shorts(segs) == old(Shorts(segs))
      ensures room && (forall j :: space(j)) ==> rc == 0
      ensures rc == 0 ==> size == len && (len > old(size) ==> Reaches(segs, size))
      ensures |segs| <= |old(segs)| || |segs| <= Needed(len)
      ensures rc == 0 && len <= old(size) ==> segs == old(segs)
      ensures Tall(recipe, childSegs) && (len <= childSegs * SEG ==> OneChild())
      ensures rc == 0 && len > 0 ==> recipe.cur <= ChildOf(Needed(len) - 1, childSegs)
    {
      rc := 0;
      OneChildTall();
      assert Filled() == |segs|;
      if len > size && Needed(len) > Filled() {
        if !room { return NO_SPACE; }
        size := len;
        EndRises(len);
        hide Filed, Streaming, ByteAt, ChildOf, Start, Shorts, Tall;
        ghost var before := segs;
        rc := ZeroFill(Needed(len), space);
        SameFile(before, segs, len);
        if rc != 0 { return; }
      }
      size := len;
    }

    lemma EndRises(len: nat)
      requires Filed() && recipe.cur == 0 && size == len > 0
      ensures Rises(Needed(len) - 1) && (len <= childSegs * SEG ==> Needed(len) <= childSegs)
    {
      Split(Needed(len) - 1, childSegs);
    }

    method DropInLast(keep: nat)
      requires Filed() && recipe.cur == |recipe.chld| > 0
      requires Start(recipe.cur, childSegs) < keep < Start(recipe.cur, childSegs) + |recipe.ents|
      modifies this`recipe, this`touched, this`matUpto, this`segs
      ensures Filed() && keep <= |old(segs)| && segs == old(segs)[..keep]
      ensures recipe.cur == old(recipe.cur) && recipe.chld == old(recipe.chld) && |recipe.ents| <= |old(recipe.ents)|
    {
      var rel := keep - Start(recipe.cur, childSegs);
      StartOrder(0, recipe.cur, childSegs);
      DropFiles(recipe, childSegs, segs, keep);
      hide Start, Child, Files;
      recipe := recipe.(ents := recipe.ents[..rel]);
      touched := set t | t in touched && t < rel;
      matUpto := Min(matUpto, keep);
      segs := segs[..keep];
    }

    /** Both ends lie in the open child, which is the last and not the first. */
    ghost predicate EndsInLast(len: nat)
      requires childSegs > 0
      reads this`recipe, this`size
    {
      && recipe.cur == |recipe.chld| > 0 && 0 < len
      && Start(recipe.cur, childSegs) * SEG < Min(len, size) && ChildOf(Needed(len) - 1, childSegs) == recipe.cur
    }

    lemma CutPastEntries(len: nat)
      requires Filed() && EndsInLast(len)
      ensures Min(len, size) / SEG >= |recipe.ents|
    {
      StartOrder(0, recipe.cur, childSegs);
      hide Start;
      assert |recipe.ents| <= childSegs;
    }

    /** Drops the entries of the open child past the last one needed. */
    method CutEntries(len: nat)
      requires Filed() && EndsInLast(len)
      modifies this`recipe, this`touched, this`matUpto, this`segs
      ensures Filed() && KeepsBelow(old(segs), segs, Needed(len) * SEG) && |recipe.ents| <= |old(recipe.ents)|
      ensures recipe.cur == old(recipe.cur) && recipe.chld == old(recipe.chld)
    {
      var keep := Needed(len);
      Switch(ChildOf(keep - 1, childSegs));
      var start := Start(recipe.cur, childSegs);
      assert start < keep;
      hide Start, Filed, ChildOf;
      if keep - start < |recipe.ents| {
        DropInLast(keep);
        DropKeepsBelow(old(segs), keep);
      }
    }

    /** vol_write_truncate on a session with sealed children, when the cut stays in the open
        one. The segment number of the cut is compared with the entries of the open child
        alone, so the rest of the cut segment is never zeroed: every stored byte below the
        new end stays, and the result is the resize exactly when what was stored past the
        old end is zero. */
    method TruncateInLast(len: nat, room: bool, space: nat -> bool) returns (rc: int)
      requires Filed() && EndsInLast(len) && !TooLong(childSegs, len)
      modifies this`recipe, this`touched, this`matUpto, this`segs, this`size
      ensures Filed() && (room && (forall j :: space(j)) ==> rc == 0)
      ensures rc == 0 ==> size == len && KeepsBelow(old(segs), segs, Needed(len) * SEG)
      ensures rc == 0 && len <= old(size) ==> recipe.cur == old(recipe.cur) && recipe.chld == old(recipe.chld)
      ensures rc == 0 ==>
        (Content() == Resize(old(Content()), len) <==>
         forall i: nat :: old(size) <= i < len ==> ByteAt(old(segs), i) == 0)
    {
      rc := 0;
      if len == size {
        ResizeIff(segs, size, segs, len);
        return;
      }
      CutPastEntries(len);
      var cut := Min(len, size);
      hide Filed, Needed, TooLong, ByteAt, EndsInLast, Flat, ChildOf;
      CutEntries(len);
      if cut % SEG != 0 && cut / SEG < |recipe.ents| { assert false; }
      if len > size && Needed(len) > Filled() {
        if !room { return NO_SPACE; }
        size := len;
        rc := ZeroFill(Needed(len), space);
        if rc != 0 { return; }
      }
      size := len;
      ResizeIff(old(segs), old(size), segs, len);
    }

    /** After a child is opened to store segment `j`, none of its other segments is readable
        unless it is the old file's. */
    lemma OthersForgotten(i: nat, j: nat)
      requires Filed() && recipe.cur == ChildOf(j, childSegs) == ChildOf(i, childSegs)
      requires touched == {Place(j, childSegs)}
      requires i != j && aliased <= i < |segs|
      ensures !Readable(i)
    {
      Split(i, childSegs);
      Split(j, childSegs);
      FiledAt(i);
    }

    /** vol_write_commit on a session with no sealed child: entries past the end are dropped and
        the last one is stored again at its exact length. The recipe tiles the file exactly when
        no short segment was left behind. */
    method Publish(space: bool) returns (f: FileRec, rc: int)
      requires Valid() && Streaming() && OneChild()
      ensures (rc == 0 || rc == NO_SPACE) && (space ==> rc == 0)
      ensures rc == 0 ==> FileOk(f) && f.size == size && |f.segs| <= childSegs && FileBytes(f) == Content()
      ensures rc == 0 ==> Trimmed(segs, size, f) && (Tiled(f) <==> NoGap(segs, size))
    {
      var ents := recipe.ents;
      assert ents == segs && |ents| <= childSegs by {
        assert Start(0, childSegs) == 0 && Start(1, childSegs) == childSegs;
      }
      var n := |ents|;
      while n > 0 && (n - 1) * SEG >= size
        invariant n <= |ents| && (n < |ents| ==> n >= Needed(size))
      {
        n := n - 1;
      }
      assert n == Min(|ents|, Needed(size));
      f, rc := FileRec(ents[..n], size), 0;
      if n > 0 {
        var j := n - 1;
        var tail := Min(size - j * SEG, SEG);
        if |ents[j]| != tail {
          if !space { return f, NO_SPACE; }
          StreamingReadable(j);
          var plain := Current(j);
          f := FileRec(ents[..n][j := plain[..tail]], size);
          forall k: nat | k < tail ensures f.segs[j][k] == At(segs[j], k) {
            assert At(plain, k) == SegByte(segs, j, k);
          }
        }
      }
      TrimmedFile(segs, size, f);
    }

    /** The file ends in the open child, and nothing is stored past its end. */
    ghost predicate Level()
      requires childSegs > 0
      reads this`recipe, this`segs, this`size
    {
      |segs| == Needed(size) && Start(recipe.cur, childSegs) < |segs|
    }

    /** vol_write_commit on a session with sealed children that ends in the open one: the last
        entry is stored again at its exact length, the child is sealed and the top recipe is
        stored. It has the file's bytes, and covers the file exactly when every sealed child got
        its full length and no short segment was left behind. */
    method PublishTree(space: bool) returns (t: Tree, rc: int)
      requires Valid() && Streaming() && recipe.chld != [] && Level()
      ensures (rc == 0 || rc == NO_SPACE) && (space ==> rc == 0)
      ensures rc == 0 ==> TreeOk(t) && t.size == size
      ensures rc == 0 && Tall(recipe, childSegs) ==> FileBytes(Flatten(t)) == Content()
      ensures rc == 0 ==> (Tiled(Flatten(t)) <==> Tall(recipe, childSegs) && NoGap(segs, size))
    {
      ValidSegs();
      LevelEnts();
      hide *;
      var last;
      last, rc := LastEntry(space);
      if rc != 0 { return Tree(childSegs, size, [], [], []), rc; }
      t := Tree(childSegs, size, Offsets(childSegs, |recipe.tops| + 1),
                recipe.tops + [TopLength(recipe.cur, childSegs, size)],
                recipe.chld + [recipe.ents[|recipe.ents| - 1 := last]]);
      TreeIsWith(t, last);
      TreeHolds(last);
    }

    lemma TreeIsWith(t: Tree, last: Content)
      requires childSegs > 0 && recipe.ents != []
      requires t == Tree(childSegs, size, Offsets(childSegs, |recipe.tops| + 1),
                         recipe.tops + [TopLength(recipe.cur, childSegs, size)],
                         recipe.chld + [recipe.ents[|recipe.ents| - 1 := last]])
      ensures t == TreeWith(last)
    {
    }

    /** The last entry, stored again if its length is not where the file ends. */
    method LastEntry(space: bool) returns (last: Content, rc: int)
      requires Valid() && Streaming() && Level() && recipe.ents != []
      ensures (rc == 0 || rc == NO_SPACE) && (space ==> rc == 0) && (rc == 0 ==> Ends(last))
    {
      rc := 0;
      LevelEnts();
      var j := Start(recipe.cur, childSegs) + |recipe.ents| - 1;
      StreamingReadable(j);
      hide Filed, Streaming, ZeroTail, Level, Readable, Start;
      last := recipe.ents[|recipe.ents| - 1];
      var tail := Min(size - j * SEG, SEG);
      if |last| != tail {
        if !space { return last, NO_SPACE; }
        var plain := Current(j);
        last := plain[..tail];
        forall k: nat | k < tail ensures last[k] == At(segs[j], k) {
          assert At(plain, k) == SegByte(segs, j, k);
        }
      }
    }

    lemma LevelEnts()
      requires Valid() && Streaming() && Level()
      ensures recipe.ents != [] && Start(recipe.cur, childSegs) + |recipe.ents| == |segs|
      ensures (|segs| - 1) * SEG < size <= |segs| * SEG
      ensures recipe.ents[|recipe.ents| - 1] == segs[|segs| - 1]
    {
    }

    /** The tree that a commit makes, with `last` as its last entry. */
    ghost function TreeWith(last: Content): Tree
      requires childSegs > 0 && recipe.ents != []
      reads this
    {
      Tree(childSegs, size, Offsets(childSegs, |recipe.tops| + 1),
           recipe.tops + [TopLength(recipe.cur, childSegs, size)],
           recipe.chld + [recipe.ents[|recipe.ents| - 1 := last]])
    }

    /** `last` is the last segment at the length where the file ends. */
    ghost predicate Ends(last: Content)
      reads this`segs, this`size
    {
      && segs != [] && (|segs| - 1) * SEG <= size && |last| == Min(size - (|segs| - 1) * SEG, SEG)
      && forall k: nat :: k < |last| ==> last[k] == At(segs[|segs| - 1], k)
    }

    lemma TreeHolds(last: Content)
      requires Valid() && Streaming() && recipe.chld != [] && Level() && recipe.ents != [] && Ends(last)
      ensures TreeOk(TreeWith(last)) && TreeWith(last).size == size
      ensures Tall(recipe, childSegs) ==> FileBytes(Flatten(TreeWith(last))) == Content()
      ensures Tiled(Flatten(TreeWith(last))) <==> Tall(recipe, childSegs) && NoGap(segs, size)
    {
      TreeIsOk(last);
      if Tall(recipe, childSegs) { TallHolds(last); } else { ShortLeavesGap(last); }
    }

    lemma ShortLeavesGap(last: Content)
      requires Valid() && Streaming() && recipe.chld != [] && Level() && recipe.ents != [] && |last| <= SEG
      requires !Tall(recipe, childSegs)
      ensures !Tiled(Flatten(TreeWith(last)))
    {
      var t := TreeWith(last);
      TreeIsOk(last);
      LevelEnts();
      var c :| 0 <= c < |recipe.tops| && recipe.tops[c] != childSegs * SEG;
      assert t.tops[c] == recipe.tops[c];
      hide TreeOk, Tiled, Flatten, ZeroTail;
      ShortTopGap(t, c);
    }

    lemma TallHolds(last: Content)
      requires Valid() && Streaming() && recipe.chld != [] && Level() && recipe.ents != [] && Ends(last)
      requires Tall(recipe, childSegs)
      ensures FileBytes(Flatten(TreeWith(last))) == Content()
      ensures Tiled(Flatten(TreeWith(last))) <==> NoGap(segs, size)
    {
      var t, segs' := TreeWith(last), segs[|segs| - 1 := last];
      TreeFilesLast(last);
      TreeTall(last);
      assert |segs| == Needed(size) && SegmentsOk(segs) && ZeroTail(segs, size);
      hide Filed, Streaming, TreeFiles, FullTops, Flatten, ZeroTail, Flat, Start, TopLength, Tiled, NoGap;
      FlattenIs(t, segs');
      TrimmedLast(segs, size, last, Flatten(t));
      TrimmedFile(segs, size, Flatten(t));
    }

    lemma TreeIsOk(last: Content)
      requires Valid() && Streaming() && recipe.chld != [] && Level() && recipe.ents != [] && |last| <= SEG
      ensures TreeOk(TreeWith(last))
    {
      var t := TreeWith(last);
      forall c | 0 <= c < |t.tops| ensures t.tops[c] <= t.n * SEG && t.offs[c] + t.tops[c] <= t.size {
        if c < recipe.cur { StartOrder(c, recipe.cur, childSegs); }
      }
      forall c | 0 <= c < |t.chld| ensures |t.chld[c]| <= t.n && SegmentsOk(t.chld[c]) {
        if c < recipe.cur { assert recipe.chld[c] == Child(segs, childSegs, c); }
      }
    }

    lemma TreeTall(last: Content)
      requires Valid() && Streaming() && recipe.chld != [] && Level() && recipe.ents != [] && Tall(recipe, childSegs)
      ensures FullTops(TreeWith(last))
    {
      LevelEnts();
      assert size <= (Start(recipe.cur, childSegs) + childSegs) * SEG;
    }

    lemma TreeFilesLast(last: Content)
      requires Valid() && Streaming() && recipe.chld != [] && Level() && recipe.ents != [] && |last| <= SEG
      ensures TreeFiles(TreeWith(last), segs[|segs| - 1 := last])
    {
      var t, j := TreeWith(last), |segs| - 1;
      var segs' := segs[j := last];
      LevelEnts();
      Split(j, childSegs);
      InChild(j, recipe.cur, childSegs);
      hide ChildOf, Place, Start, ZeroTail;
      PutInChild(segs, childSegs, j, last);
      forall c | 0 <= c < |t.chld| ensures t.chld[c] == Child(segs', childSegs, c) {
        if c < recipe.cur { PutElsewhere(segs, childSegs, j, last, c); }
      }
    }

    /** A cut to `len`, in an earlier child, stores the segment it falls into again. */
    ghost predicate Restores(len: nat)
      requires childSegs > 0 && 0 < len && Needed(len) <= |segs|
      reads this`segs
    {
      var j := Needed(len) - 1;
      (ChildOf(j, childSegs) == 0 && len % SEG != 0) || |segs[j]| != len - j * SEG
    }

    /** vol_write_truncate back into an earlier child, and the commit that follows it. The
        children after that one are dropped; then the open child, which was to be dropped, is
        sealed behind them, so that the top recipe reaches past the end of the file. The child
        that is opened again serves nothing but the old file's segments, so that a last segment
        that is stored again is stored as zeros. */
    method CutBack(len: nat, space: bool) returns (t: Tree, rc: int)
      requires Valid() && Streaming() && Level() && 0 < len && ChildOf(Needed(len) - 1, childSegs) < recipe.cur
      ensures (rc == 0 || rc == NO_SPACE) && (space ==> rc == 0)
      ensures rc == 0 ==> t.n == childSegs && t.size == len && |t.offs| == |t.tops| && !InBounds(t)
      ensures Needed(len) <= |segs|
      ensures rc == 0 ==>
        var j := Needed(len) - 1;
        var c, p := ChildOf(j, childSegs), Place(j, childSegs);
        && c < |t.chld| && |t.chld[c]| == p + 1 && |t.chld[c][p]| == len - j * SEG
        && forall k: nat :: k < len - j * SEG ==>
             t.chld[c][p][k] == if Restores(len) && j >= aliased then 0 else At(segs[j], k)
    {
      var j := Needed(len) - 1;
      var c, rel := ChildOf(j, childSegs), Place(j, childSegs);
      BackInto(len);
      hide Valid, Streaming, Level, ZeroTail, Needed, ChildOf, Place, Start;
      var offs := Offsets(childSegs, c + 1) + [Start(recipe.cur, childSegs) * SEG];
      var tops := recipe.tops[..c + 1] + [TopLength(recipe.cur, childSegs, size)];
      var chld := recipe.chld[..c + 1] + [recipe.ents];
      var ents := recipe.chld[c][..rel + 1];
      rc := 0;
      var tail, again := len - j * SEG, len % SEG != 0 && j < |ents|;
      if again || |ents[rel]| != tail {
        if !space { return Tree(childSegs, len, [], [], []), NO_SPACE; }
        var plain := if j < aliased then ResizeBytes(ents[rel], SEG) else ResizeBytes([], SEG);
        ents := ents[rel := plain[..tail]];
        assert forall k: nat :: k < tail ==> plain[k] == At(plain, k) == if j < aliased then At(segs[j], k) else 0;
      }
      t := Tree(childSegs, len, offs, tops, chld[c := ents]);
      assert t.offs[c + 1] + t.tops[c + 1] > len;
    }

    lemma BackInto(len: nat)
      requires Valid() && Streaming() && Level() && 0 < len && ChildOf(Needed(len) - 1, childSegs) < recipe.cur
      ensures childSegs > 0 && Needed(len) <= |segs| && |recipe.chld| == |recipe.tops| == recipe.cur
      ensures var j := Needed(len) - 1;
        var c, p := ChildOf(j, childSegs), Place(j, childSegs);
        && 0 < len - j * SEG <= SEG && p < |recipe.chld[c]| && recipe.chld[c][p] == segs[j] && |segs[j]| <= SEG
        && (len % SEG != 0 && j < p + 1 <==> len % SEG != 0 && c == 0)
      ensures len <= Start(recipe.cur, childSegs) * SEG < size && TopLength(recipe.cur, childSegs, size) > 0
    {
      var j := Needed(len) - 1;
      LevelEnts();
      Split(j, childSegs);
      StartOrder(ChildOf(j, childSegs), recipe.cur, childSegs);
      if ChildOf(j, childSegs) > 0 { StartOrder(0, ChildOf(j, childSegs), childSegs); }
      FiledAt(j);
    }

    /** The windows of `f` up to what is stored, in order and whole. */
    ghost predicate Loading(f: File)
      reads this
    {
      && Filed() && Streaming() && size == f.size && Window(segs, FileBytes(f)) && ZeroTail(segs, size)
      && Shorts(segs) == {} && |segs| <= Needed(f.size) && Tall(recipe, childSegs)
      && (f.size > 0 ==> recipe.cur <= ChildOf(Needed(f.size) - 1, childSegs))
    }

    /** One window of the load. */
    method LoadWindow(f: File, space: bool) returns (rc: int)
      requires Loading(f) && |segs| < Needed(f.size)
      modifies this`recipe, this`touched, this`matUpto, this`segs
      ensures Loading(f) && |segs| == |old(segs)| + if rc == 0 then 1 else 0
      ensures (rc == 0 ==> space) && (Tiled(f) ==> (rc == 0 <==> space))
      ensures old(OneChild()) && f.size <= childSegs * SEG ==> OneChild()
    {
      ghost var src := FileBytes(f);
      WindowFacts(f);
      hide Filed, Streaming, Needed, ByteAt, ChildOf, FileOk, FileBytes, Flat, Window, Tiled, Shorts, Tall, Rises;
      hide ZeroTail;
      var i := Filled();
      var r := ReadRange(f, i * SEG, SEG);
      if r.None? { return -1; }
      var plain := ResizeBytes(r.value, SEG);
      WindowOf(src, i, plain);
      NextWindow(segs, src, plain);
      PutShorts(segs, i, plain);
      WindowTail(Put(segs, i, plain), src);
      PutBelow(segs, i, plain);
      rc := WriteSeg(i, plain, space);
    }

    lemma WindowFacts(f: File)
      requires Loading(f) && |segs| < Needed(f.size)
      ensures Filled() == |segs| && childSegs > 0 && Rises(|segs|) && |segs| !in Shorts(segs)
      ensures recipe.cur <= ChildOf(|segs|, childSegs) <= ChildOf(Needed(f.size) - 1, childSegs)
      ensures f.size <= childSegs * SEG ==> ChildOf(|segs|, childSegs) == 0
      ensures |FileBytes(f)| == size
      ensures Tiled(f) ==> forall i: nat ::
        |segs| * SEG <= i < |segs| * SEG + |Slice(FileBytes(f), |segs| * SEG, SEG)| ==> Covered(f, i)
    {
      FilledSegs();
      if Tiled(f) { TiledReads(f, |segs| * SEG, SEG); }
      OpenChildBefore();
      FirstChild(|segs|, childSegs);
      ChildOrder(|segs|, Needed(f.size) - 1, childSegs);
      Split(|segs|, childSegs);
    }

    lemma LoadStarts(f: File)
      requires Filed() && Streaming() && segs == [] && size == f.size
      ensures Loading(f) && childSegs > 0
    {
      assert recipe.chld == [];
      StartsAtFirst();
      WindowTail(segs, FileBytes(f));
    }

    lemma StartsAtFirst()
      requires Filed() && segs == []
      ensures recipe.cur == 0
    {
      if recipe.cur > 0 { StartOrder(0, recipe.cur, childSegs); }
    }

    lemma LoadEnds(f: File)
      requires Loading(f)
      ensures Valid() && Streaming() && size == f.size && Window(segs, FileBytes(f)) && Shorts(segs) == {}
      ensures childSegs > 0 && |segs| <= Needed(f.size) && Tall(recipe, childSegs)
      ensures f.size > 0 ==> recipe.cur <= ChildOf(Needed(f.size) - 1, childSegs)
      ensures |segs| == Needed(f.size) ==> Content() == FileBytes(f) && Reaches(segs, size)
    {
      assert childSegs > 0;
      hide Filed, Streaming, ByteAt, ChildOf, FileOk, Flat, Window, Shorts;
      if |segs| == Needed(f.size) { WindowsAll(segs, FileBytes(f)); }
    }

    /** The load of an old file that cannot be aliased: it is read through and stored again
        window by window. A load that fails midway leaves the session with the windows it got
        and zeros for the rest. */
    method Materialize(f: File, space: nat -> bool) returns (rc: int)
      requires Valid() && Streaming() && segs == []
      modifies this`recipe, this`touched, this`matUpto, this`segs, this`size
      ensures Valid() && Streaming() && (Tiled(f) && (forall j :: space(j)) ==> rc == 0)
      ensures rc == 0 ==> Content() == FileBytes(f) && Reaches(segs, size)
      ensures size == f.size && Window(segs, FileBytes(f)) && Shorts(segs) == {} && |segs| <= Needed(f.size)
      ensures (forall j :: 0 <= j < |segs| ==> space(j)) && Tall(recipe, childSegs)
      ensures rc != 0 && Tiled(f) ==> |segs| < Needed(f.size) && !space(|segs|)
      ensures f.size > 0 ==> recipe.cur <= ChildOf(Needed(f.size) - 1, childSegs)
      ensures old(OneChild()) && f.size <= childSegs * SEG ==> OneChild()
    {
      size, rc := f.size, 0;
      LoadStarts(f);
      hide *;
      var i := 0;
      while i < Needed(f.size)
        invariant Loading(f) && rc == 0 && |segs| == i <= Needed(f.size)
        invariant forall j :: 0 <= j < i ==> space(j)
        invariant old(OneChild()) && f.size <= childSegs * SEG ==> OneChild()
      {
        rc := LoadWindow(f, space(i));
        if rc != 0 {
          LoadEnds(f);
          return;
        }
        i := i + 1;
      }
      LoadEnds(f);
    }
  }

  /** What the drop and the zeroed rest of a cut make of the file. */
  lemma CutEffect(segs: Segments, kept: Segments, size: nat, len: nat, segs': Segments)
    requires SegmentsOk(segs) && ZeroTail(segs, size)
    requires kept == if Needed(len) < |segs| then segs[..Needed(len)] else segs
    requires CutAt(kept, segs', Min(len, size)) && CutWhole(kept, segs', Min(len, size))
    ensures ZeroTail(segs', size) && ZeroTail(segs', len) && Flat(segs', len) == Resize(Flat(segs, size), len)
    ensures len != size ==> Shorts(segs') == CutShorts(Shorts(segs), size, len)
    ensures len < size && Reaches(segs, size) ==> Reaches(segs', len)
    ensures |segs'| <= Needed(len)
  {
    assert len < size ==> Needed(len) <= Needed(size);
    hide ZeroTail, Flat, Needed, CutAt, Shorts, CutShorts, SegmentsOk, Resize, IsResize;
    CutDropped(segs, size, len, segs');
    if len != size { CutLeavesShorts(segs, size, len, segs'); }
  }

  /** The next window of `src`, padded. */
  lemma WindowOf(src: Content, i: nat, plain: Content)
    requires plain == Resize(Slice(src, i * SEG, SEG), SEG)
    ensures forall k: nat :: k < SEG ==> At(plain, k) == At(src, i * SEG + k)
  {
    forall k: nat | k < SEG ensures At(plain, k) == At(src, i * SEG + k) {
      assert At(plain, k) == At(Slice(src, i * SEG, SEG), k);
    }
  }

  lemma PrefixTrans(a: Segments, b: Segments, c: Segments)
    requires a <= b <= c
    ensures a <= c
  {
  }

  lemma SpliceNothing(s: Content, off: nat, d: Content)
    ensures Splice(s, off, d[..0]) == s
  {
    assert d[..0] == [];
  }
}
