/** What a range write makes of every byte of a file, whatever its session can still read. */
module RangeEffect {
  import opened Bytes
  import opened SegmentMap
  import opened ChildRecipe

  /** `c` is `c0` with `d` written at `off`; of the segments in `blank` nothing else is left. */
  ghost predicate Landed(c0: Content, off: nat, d: Content, blank: set<nat>, c: Content) {
    && |c| == (if d == [] then |c0| else Max(|c0|, off + |d|))
    && forall i: nat :: i < |c| ==>
         c[i] == if off <= i < off + |d| then d[i - off] else if SegOf(i) in blank then 0 else At(c0, i)
  }

  lemma LandedNone(c0: Content, off: nat, d: Content)
    ensures Landed(c0, off, d[..0], {}, c0)
  {
  }

  lemma SplicedLands(c0: Content, off: nat, d: Content)
    ensures Landed(c0, off, d, {}, Splice(c0, off, d))
  {
    var c := Splice(c0, off, d);
    forall i: nat | i < |c| ensures c[i] == if off <= i < off + |d| then d[i - off] else At(c0, i) {
      assert At(c, i) == if off <= i < off + |d| then d[i - off] else At(c0, i);
    }
  }

  /** A piece stored over zeros blanks its segment. */
  lemma OverZerosLands(segs: Segments, size: nat, j: nat, soff: nat, piece: Content, plain: Content)
    requires j <= |segs| && soff + |piece| <= SEG && piece != [] && ZeroTail(segs, size)
    requires OverZeros(soff, piece, plain)
    ensures var off := j * SEG + soff;
      Landed(Flat(segs, size), off, piece, {j}, Flat(Put(segs, j, plain), Max(size, off + |piece|)))
  {
    var off := j * SEG + soff;
    var c0, c := Flat(segs, size), Flat(Put(segs, j, plain), Max(size, off + |piece|));
    forall i: nat | i < |c|
      ensures c[i] == if off <= i < off + |piece| then piece[i - off] else if SegOf(i) in {j} then 0 else At(c0, i)
    {
      ByteAfterPut(segs, j, plain, i);
      assert i == SegOf(i) * SEG + i % SEG && c[i] == At(c, i);
      if SegOf(i) == j {
        assert At(plain, i % SEG) == if soff <= i % SEG < soff + |piece| then piece[i % SEG - soff] else 0;
      }
    }
  }

  /** Piece after piece: a piece that starts a segment blanks none of the data before it. */
  lemma LandedMore(c0: Content, off: nat, d: Content, n: nat, m: nat, blank: set<nat>, c: Content, more: set<nat>,
                   c': Content)
    requires n < m <= |d| && (n > 0 ==> OffsetIn(off + n) == 0) && more <= {SegOf(off + n)}
    requires Landed(c0, off, d[..n], blank, c) && Landed(c, off + n, d[n..m], more, c')
    ensures Landed(c0, off, d[..m], blank + more, c')
  {
    forall i: nat | i < |c'|
      ensures c'[i] == if off <= i < off + m then d[..m][i - off] else if SegOf(i) in blank + more then 0 else At(c0, i)
    {
      if i < |c| { assert c[i] == At(c, i); }
      if off <= i < off + n { assert SegOf(i) != SegOf(off + n); }
    }
  }

  /** Only the first and the last segment of a range have bytes outside it. */
  lemma LandedAtEnds(c0: Content, off: nat, d: Content, blank: set<nat>, ends: set<nat>, c: Content)
    requires d != [] && Landed(c0, off, d, blank, c)
    requires forall j :: j in blank ==> SegOf(off) <= j <= SegOf(off + |d| - 1)
    requires ends == blank * {SegOf(off), SegOf(off + |d| - 1)}
    ensures Landed(c0, off, d, ends, c)
  {
    forall i: nat | i < |c| && !(off <= i < off + |d|) ensures SegOf(i) in blank <==> SegOf(i) in ends {
      if SegOf(i) in blank { assert SegOf(i) == SegOf(off) || SegOf(i) == SegOf(off + |d| - 1); }
    }
  }

  /** The write is the plain splice exactly when the blanked segments had only zeros around it. */
  lemma LandedIsSplice(c0: Content, off: nat, d: Content, blank: set<nat>, c: Content)
    requires Landed(c0, off, d, blank, c)
    ensures c == Splice(c0, off, d) <==> ZeroAround(c0, off, |d|, blank)
  {
    SplicedLands(c0, off, d);
    var s := Splice(c0, off, d);
    if ZeroAround(c0, off, |d|, blank) {
      forall i: nat | i < |c| ensures c[i] == s[i] {}
      assert c == s;
    } else {
      var i: nat :| i < |c0| && !(off <= i < off + |d|) && SegOf(i) in blank && c0[i] != 0;
      assert s[i] == c0[i] && c[i] == 0;
    }
  }

  ghost predicate ZeroAround(c0: Content, off: nat, n: nat, blank: set<nat>) {
    forall i: nat :: i < |c0| && !(off <= i < off + n) && SegOf(i) in blank ==> c0[i] == 0
  }

  predicate Touches(off: nat, n: nat, j: nat) {
    n > 0 && SegOf(off) <= j <= SegOf(off + n - 1)
  }

  /** The segments that `n` bytes at `off` fall into. */
  ghost function Written(off: nat, n: nat): set<nat> {
    set j: nat | j <= SegOf(off + n) && Touches(off, n, j)
  }

  lemma WrittenIff(off: nat, n: nat, j: nat)
    ensures j in Written(off, n) <==> Touches(off, n, j)
  {
  }

  lemma NoneWritten(off: nat, s: set<nat>)
    ensures s - Written(off, 0) == s
  {
  }

  lemma WrittenMore(off: nat, n: nat, m: nat, s: set<nat>)
    requires n < m && SegOf(off + m - 1) == SegOf(off + n) && (n > 0 ==> SegOf(off + n) == SegOf(off + n - 1) + 1)
    ensures s - Written(off, n) - {SegOf(off + n)} == s - Written(off, m)
  {
    forall j: nat ensures j in Written(off, m) <==> j in Written(off, n) || j == SegOf(off + n) {
      WrittenIff(off, n, j);
      WrittenIff(off, m, j);
    }
  }

  lemma NoShortBeyond(segs: Segments)
    ensures |segs| !in Shorts(segs)
  {
  }

  // ---- which segments a write reads on its way ----

  /** A session as a write in segment `at` finds it: the open child, the entries written since
      it was opened, what is the old file's, how many segments are stored, and whether the
      first segment is served. */
  datatype Launch = Launch(childSegs: nat, at: nat, served: bool, cur: nat, touched: set<nat>, aliased: nat, len: nat)

  /** Whether segment `j` is served when the write that began at `l.at` gets there. A child
      that is opened on the way serves only what is the old file's. */
  predicate Reads(l: Launch, j: nat)
    requires l.childSegs > 0 && l.at <= j
  {
    if j == l.at then l.served
    else
      || ChildOf(j, l.childSegs) != ChildOf(j - 1, l.childSegs) || j >= l.len || j < l.aliased
      || (ChildOf(l.at, l.childSegs) == ChildOf(j, l.childSegs) == l.cur && Place(j, l.childSegs) in l.touched)
  }

  ghost function Unread(l: Launch, last: nat): set<nat>
    requires l.childSegs > 0
  {
    set j | l.at <= j <= last && !Reads(l, j)
  }

  /** The segments at the ends of a range that are not served when the write gets there. */
  ghost function UnreadEnds(l: Launch, last: nat): set<nat>
    requires l.childSegs > 0
  {
    Unread(l, last) * {l.at, last}
  }

  /** What a partial piece loses of segment `j`. */
  function Lost(served: bool, j: nat): set<nat> { if served then {} else {j} }

  lemma UnreadFirst(l: Launch)
    requires l.childSegs > 0
    ensures Unread(l, l.at) == Lost(l.served, l.at)
  {
  }

  lemma UnreadNext(l: Launch, last: nat)
    requires l.childSegs > 0 && l.at <= last
    ensures Unread(l, last + 1) == Unread(l, last) + Lost(Reads(l, last + 1), last + 1)
  {
  }

  /** Two launches at one segment that is past what either has stored. */
  predicate BothBeyond(l: Launch, l': Launch) {
    && l'.childSegs == l.childSegs && l'.at == l.at && l.served && l'.served
    && l.at >= l.len && l.at >= l'.len
  }

  /** Past what is stored there is nothing to lose. */
  lemma NoneUnread(l: Launch, last: nat)
    requires l.childSegs > 0 && l.served && l.at >= l.len
    ensures Unread(l, last) == {}
  {
  }

  /** The session when the write has stored segment `e`: of the segments further on in the open
      child those count as written that did from the start, if the child was open then. */
  ghost predicate Tracks(l: Launch, e: nat, cur: nat, touched: set<nat>, len: nat)
    requires l.childSegs > 0
  {
    && l.at <= e && cur == ChildOf(e, l.childSegs) && len == Max(l.len, e + 1)
    && forall j: nat :: e < j && ChildOf(j, l.childSegs) == cur ==>
         (Place(j, l.childSegs) in touched <==>
          ChildOf(l.at, l.childSegs) == cur == l.cur && Place(j, l.childSegs) in l.touched)
  }

  lemma SamePlace(i: nat, j: nat, n: nat)
    requires n > 0 && ChildOf(i, n) == ChildOf(j, n) && Place(i, n) == Place(j, n)
    ensures i == j
  {
    Split(i, n);
    Split(j, n);
  }

  /** Entries marked as written after segment `j`: a child that is opened anew starts without
      any. */
  function Marks(j: nat, n: nat, cur: nat, touched: set<nat>, space: bool): set<nat>
    requires n > 0
  {
    (if ChildOf(j, n) == cur then touched else {}) + if space then {Place(j, n)} else {}
  }

  lemma TracksFirst(l: Launch)
    requires l.childSegs > 0
    ensures Tracks(l, l.at, ChildOf(l.at, l.childSegs), Marks(l.at, l.childSegs, l.cur, l.touched, true),
                   Max(l.len, l.at + 1))
  {
    hide ChildOf, Place;
    forall j: nat | l.at < j && ChildOf(j, l.childSegs) == ChildOf(l.at, l.childSegs)
      ensures Place(j, l.childSegs) != Place(l.at, l.childSegs)
    {
      if Place(j, l.childSegs) == Place(l.at, l.childSegs) { SamePlace(j, l.at, l.childSegs); }
    }
  }

  lemma TracksNext(l: Launch, e: nat, cur: nat, touched: set<nat>, len: nat)
    requires l.childSegs > 0 && Tracks(l, e, cur, touched, len)
    ensures Tracks(l, e + 1, ChildOf(e + 1, l.childSegs), Marks(e + 1, l.childSegs, cur, touched, true),
                   Max(len, e + 2))
  {
    hide ChildOf, Place;
    ChildOrder(l.at, e, l.childSegs);
    ChildOrder(e, e + 1, l.childSegs);
    forall j: nat | e + 1 < j && ChildOf(j, l.childSegs) == ChildOf(e + 1, l.childSegs)
      ensures Place(j, l.childSegs) != Place(e + 1, l.childSegs)
    {
      if Place(j, l.childSegs) == Place(e + 1, l.childSegs) { SamePlace(j, e + 1, l.childSegs); }
    }
  }

  lemma TracksReads(l: Launch, e: nat, cur: nat, touched: set<nat>, len: nat)
    requires l.childSegs > 0 && Tracks(l, e, cur, touched, len)
    ensures Reads(l, e + 1) <==>
      ChildOf(e + 1, l.childSegs) != cur || e + 1 >= len || Place(e + 1, l.childSegs) in touched || e + 1 < l.aliased
  {
    hide ChildOf, Place;
  }

  /** The loop of a write at `off` with `n` bytes taken, in a session with these fields. */
  ghost predicate Under(l: Launch, off: nat, n: nat, blank: set<nat>, cur: nat, touched: set<nat>, len: nat)
    requires l.childSegs > 0
  {
    && l.at == SegOf(off)
    && (n == 0 ==> blank == {} && l.cur == cur && l.touched == touched && l.len == len)
    && (n > 0 ==> blank == Unread(l, SegOf(off + n - 1)) && Tracks(l, SegOf(off + n - 1), cur, touched, len))
  }

  lemma UnderMore(l: Launch, off: nat, n: nat, m: nat, blank: set<nat>, cur: nat, touched: set<nat>, len: nat)
    requires l.childSegs > 0 && Under(l, off, n, blank, cur, touched, len)
    requires n < m && SegOf(off + m - 1) == SegOf(off + n) && (n > 0 ==> SegOf(off + n) == SegOf(off + n - 1) + 1)
    ensures var j := SegOf(off + n);
      && l.at <= j
      && Under(l, off, m, blank + Lost(Reads(l, j), j), ChildOf(j, l.childSegs),
               Marks(j, l.childSegs, cur, touched, true), Max(len, j + 1))
  {
    hide SegOf, ChildOf, Place, Tracks, Unread, Reads, Marks;
    if n == 0 {
      TracksFirst(l);
      UnreadFirst(l);
      ReadsFirst(l);
    } else {
      AfterLaunch(l, SegOf(off + n - 1), cur, touched, len);
      TracksNext(l, SegOf(off + n - 1), cur, touched, len);
      UnreadNext(l, SegOf(off + n - 1));
    }
  }

  lemma NothingLost(blank: set<nat>, served: bool, j: nat)
    requires blank == {} && served
    ensures blank + Lost(served, j) == {}
  {
  }

  lemma ReadsFirst(l: Launch)
    requires l.childSegs > 0
    ensures Reads(l, l.at) == l.served
  {
  }

  lemma AfterLaunch(l: Launch, e: nat, cur: nat, touched: set<nat>, len: nat)
    requires l.childSegs > 0 && Tracks(l, e, cur, touched, len)
    ensures l.at <= e
  {
  }
}
