/** What is known of a file in the making, as far as it decides what later operations make of
    it. */
module Standings {
  import opened Bytes
  import opened SegmentMap
  import opened ChildRecipe
  import opened StoredFile
  import opened RangeEffect

  /** The content; which segments are stored short; whether every segment the file needs is
      stored; bounds on how many are stored and on which child is open; whether the sealed
      children have their full length; whether the old file is loaded; and whether it can be. */
  datatype Standing = Standing(view: Content, rag: set<nat>, reach: bool, stored: nat, front: nat, tall: bool,
                               loaded: bool, backed: bool)

  /** `a` is no worse than `b`, with the same content. */
  ghost predicate Within(a: Standing, b: Standing) {
    && a.view == b.view && a.rag <= b.rag && (b.reach ==> a.reach) && a.stored <= b.stored && a.front <= b.front
    && (b.tall ==> a.tall) && (b.loaded ==> a.loaded && a.rag == b.rag) && (b.backed ==> a.backed)
  }

  lemma SelfWithin(s: Standing)
    ensures Within(s, s)
  {
  }

  lemma StillBacked(a: Standing, b: Standing)
    requires Within(a, b)
    ensures b.backed ==> a.backed
  {
  }

  lemma StillFirst(a: Standing, b: Standing)
    requires Within(a, b)
    ensures b.front == 0 ==> a.front == 0
  {
  }

  lemma WithinTrans(a: Standing, b: Standing, c: Standing)
    requires Within(a, b) && Within(b, c)
    ensures Within(a, c)
  {
  }

  /** A write at `off` to a file of `len` bytes leaves no child behind that the file does not
      fill. */
  predicate NoLeap(n: nat, len: nat, off: nat)
    requires n > 0
  {
    Start(ChildOf(SegOf(off), n), n) * SEG <= len
  }

  /** The child of the last of `k` bytes at `off`. */
  function LastChild(n: nat, off: nat, k: nat): nat
    requires n > 0 && k > 0
  {
    ChildOf(SegOf(off + k - 1), n)
  }

  /** The file after `d` was written at `off`. */
  ghost function After(n: nat, s: Standing, off: nat, d: Content): Standing
    requires n > 0
  {
    if d == [] then s
    else Standing(Splice(s.view, off, d), s.rag - Written(off, |d|), s.reach,
                  Max(s.stored, SegOf(off + |d| - 1) + 1), LastChild(n, off, |d|),
                  s.tall && NoLeap(n, |s.view|, off), s.loaded, s.backed)
  }

  /** ... and after only `done` bytes of it were, and the rest found no space. */
  ghost function Partly(n: nat, s: Standing, off: nat, d: Content, done: nat): Standing
    requires n > 0 && done <= |d|
  {
    if d == [] then s
    else Standing(Splice(s.view, off, d[..done]), s.rag - Written(off, done), s.reach,
                  Max(s.stored, SegOf(off + |d| - 1) + 1), LastChild(n, off, |d|),
                  s.tall && NoLeap(n, |s.view|, off), s.loaded, s.backed)
  }

  /** A write of `k` bytes at `off` is within the format's bounds and does not go back to a
      sealed child. */
  predicate CanTake(n: nat, front: nat, off: nat, k: nat)
    requires n > 0
  {
    k == 0 || (ChildOf(SegOf(off), n) >= front && !TooBig(n, off, k))
  }

  lemma LastAhead(n: nat, off: nat, k: nat)
    requires n > 0 && k > 0
    ensures ChildOf(SegOf(off), n) <= LastChild(n, off, k)
    ensures SegOf(off) == SegOf(off + k - 1) ==> ChildOf(SegOf(off), n) == LastChild(n, off, k)
  {
    ChildOrder(SegOf(off), SegOf(off + k - 1), n);
  }

  lemma AfterWithin(n: nat, a: Standing, b: Standing, off: nat, d: Content)
    requires n > 0 && Within(a, b)
    ensures Within(After(n, a, off, d), After(n, b, off, d))
  {
    hide Splice, IsSplice, Written, NoLeap, LastChild;
  }

  lemma AfterView(a: Standing, n: nat, s: Standing, off: nat, d: Content)
    requires n > 0
    ensures Within(a, After(n, s, off, d)) ==> a.view == Splice(s.view, off, d)
  {
  }

  lemma AfterNothing(n: nat, s: Standing, off: nat, d: Content)
    requires n > 0
    ensures After(n, s, off, d[..0]) == s
  {
  }

  /** A write right behind another. */
  lemma AfterAppend(n: nat, s: Standing, off: nat, a: Content, b: Content)
    requires n > 0
    ensures After(n, After(n, s, off, a), off + |a|, b) == After(n, s, off, a + b)
  {
    if a == [] {
      assert a + b == b;
    } else if b == [] {
      assert a + b == a;
    } else {
      BothAfter(n, s, off, a, b);
    }
  }

  lemma BothAfter(n: nat, s: Standing, off: nat, a: Content, b: Content)
    requires n > 0 && a != [] && b != []
    ensures After(n, After(n, s, off, a), off + |a|, b) == After(n, s, off, a + b)
  {
    hide *;
    AfterIs(n, s, off, a);
    AfterIs(n, s, off, a + b);
    AfterIs(n, After(n, s, off, a), off + |a|, b);
    SpliceAppend(s.view, off, a, b);
    BothWritten(s.rag, off, |a|, |b|);
    SpliceReaches(s.view, off, a);
    BehindIsNoLeap(n, off + |a|, |Splice(s.view, off, a)|);
    SegmentsUp(s.stored, off + |a| - 1, off + |a| + |b| - 1);
  }

  lemma AfterIs(n: nat, s: Standing, off: nat, d: Content)
    requires n > 0 && d != []
    ensures After(n, s, off, d) ==
            Standing(Splice(s.view, off, d), s.rag - Written(off, |d|), s.reach,
                     Max(s.stored, SegOf(off + |d| - 1) + 1), LastChild(n, off, |d|),
                     s.tall && NoLeap(n, |s.view|, off), s.loaded, s.backed)
    ensures LastChild(n, off, |d|) == ChildOf(SegOf(off + |d| - 1), n)
  {
  }

  lemma SpliceReaches(s: Content, off: nat, d: Content)
    ensures |s| <= |Splice(s, off, d)| && (d != [] ==> off + |d| <= |Splice(s, off, d)|)
  {
  }

  lemma SegmentsUp(k: nat, i: nat, j: nat)
    requires i <= j
    ensures Max(Max(k, SegOf(i) + 1), SegOf(j) + 1) == Max(k, SegOf(j) + 1)
  {
  }

  lemma BothWritten(rag: set<nat>, off: nat, k: nat, m: nat)
    requires k > 0 && m > 0
    ensures rag - Written(off, k) - Written(off + k, m) == rag - Written(off, k + m)
  {
    forall j: nat ensures j in Written(off, k + m) <==> j in Written(off, k) || j in Written(off + k, m) {
      WrittenIff(off, k, j);
      WrittenIff(off + k, m, j);
      WrittenIff(off, k + m, j);
    }
  }

  /** A write that starts where the file ends, or before, leaps over nothing. */
  lemma BehindIsNoLeap(n: nat, off: nat, len: nat)
    requires n > 0 && off <= len
    ensures NoLeap(n, len, off)
  {
    Split(SegOf(off), n);
    hide ChildOf, Place, Start;
    assert SegOf(off) * SEG <= off;
  }

  /** One piece of the data after another. */
  lemma AfterMore(n: nat, s: Standing, off: nat, d: Content, k: nat, m: nat)
    requires n > 0 && k <= m <= |d|
    ensures After(n, After(n, s, off, d[..k]), off + k, d[k..m]) == After(n, s, off, d[..m])
  {
    hide After;
    AfterAppend(n, s, off, d[..k], d[k..m]);
    assert d[..k] + d[k..m] == d[..m];
  }

  lemma PartlyWithin(n: nat, a: Standing, b: Standing, off: nat, d: Content, done: nat)
    requires n > 0 && done <= |d| && Within(a, b)
    ensures Within(Partly(n, a, off, d, done), Partly(n, b, off, d, done))
  {
    hide Splice, IsSplice, Written, NoLeap, LastChild;
  }

  lemma NonePartly(n: nat, s: Standing, off: nat, d: Content)
    requires n > 0 && CanTake(n, s.front, off, |d|)
    ensures Within(s, Partly(n, s, off, d, 0))
  {
    if d != [] {
      LastAhead(n, off, |d|);
      NoneWritten(off, s.rag);
      assert d[..0] == [];
    }
  }

  lemma AllPartly(n: nat, s: Standing, off: nat, d: Content)
    requires n > 0
    ensures Partly(n, s, off, d, |d|) == After(n, s, off, d)
  {
    assert d[..|d|] == d;
  }

  /** Writing all of it after a part of it, within one segment, is writing it. */
  lemma PartThenAll(n: nat, a: Standing, s: Standing, off: nat, d: Content, done: nat)
    requires n > 0 && done <= |d| && Within(a, Partly(n, s, off, d, done))
    ensures Within(After(n, a, off, d), After(n, s, off, d))
  {
    if d != [] {
      SplicePrefixThenAll(s.view, off, d, done);
      PartWritten(s.rag, off, done, |d|);
      assert |s.view| <= |Splice(s.view, off, d[..done])|;
      hide Splice, IsSplice, Written, LastChild, SegOf, ChildOf, Start;
    }
  }

  lemma PartWritten(rag: set<nat>, off: nat, k: nat, m: nat)
    requires k <= m
    ensures rag - Written(off, k) - Written(off, m) == rag - Written(off, m)
  {
    forall j: nat | j in Written(off, k) ensures j in Written(off, m) {
      WrittenIff(off, k, j);
      WrittenIff(off, m, j);
    }
  }

  lemma PartCanTake(n: nat, a: Standing, s: Standing, off: nat, d: Content, done: nat)
    requires n > 0 && d != [] && done <= |d| && SegOf(off) == SegOf(off + |d| - 1)
    requires a.front <= LastChild(n, off, |d|) || a.front <= s.front
    requires CanTake(n, s.front, off, |d|)
    ensures CanTake(n, a.front, off, |d|)
  {
    LastAhead(n, off, |d|);
  }

  lemma TakesSooner(n: nat, a: Standing, b: Standing, off: nat, k: nat)
    requires n > 0 && Within(a, b) && CanTake(n, b.front, off, k)
    ensures CanTake(n, a.front, off, k)
  {
  }

  /** What the rest of a write is up against once its beginning was taken. */
  lemma CanTakeRest(n: nat, s: Standing, off: nat, d: Content, k: nat)
    requires n > 0 && k <= |d| && CanTake(n, s.front, off, |d|)
    ensures CanTake(n, After(n, s, off, d[..k]).front, off + k, |d| - k)
  {
    if 0 < k < |d| {
      ChildOrder(SegOf(off + k - 1), SegOf(off + k), n);
    }
  }

  /** ... and its beginning itself. */
  lemma CanTakeFirst(n: nat, front: nat, off: nat, k: nat, m: nat)
    requires n > 0 && m <= k && CanTake(n, front, off, k)
    ensures CanTake(n, front, off, m)
  {
    if 0 < m {
      var a, b := SegOf(off + m - 1) + n, SegOf(off + k - 1) + n;
      assert a <= b;
      ChildOrder(a, b, n);
    }
  }

  // ---- a window of one segment ----

  function SegmentStart(seg: nat): nat { seg * SEG }

  lemma InSegment(seg: nat, k: nat)
    requires k < SEG
    ensures SegOf(SegmentStart(seg) + k) == seg
  {
  }

  /** The file once bytes `[lo, hi)` of a buffer for segment `seg` are written to it. */
  ghost function Windowed(n: nat, s: Standing, seg: nat, buf: Content, lo: nat, hi: nat): Standing
    requires n > 0 && (lo < hi ==> hi <= |buf|)
  {
    if lo < hi then After(n, s, SegmentStart(seg) + lo, buf[lo..hi]) else s
  }

  /** The file with content `v` after segment `seg` was stored whole. */
  ghost function Framed(n: nat, s: Standing, seg: nat, v: Content): Standing
    requires n > 0
  {
    Standing(v, s.rag - {seg}, s.reach, Max(s.stored, seg + 1), ChildOf(seg, n),
             s.tall && Start(ChildOf(seg, n), n) * SEG <= |s.view|, s.loaded, s.backed)
  }

  /** A write inside one segment. */
  lemma AfterOne(n: nat, s: Standing, seg: nat, soff: nat, d: Content)
    requires n > 0 && d != [] && soff + |d| <= SEG
    ensures After(n, s, SegmentStart(seg) + soff, d) == Framed(n, s, seg, Splice(s.view, SegmentStart(seg) + soff, d))
  {
    var off := SegmentStart(seg) + soff;
    InSegment(seg, soff);
    InSegment(seg, soff + |d| - 1);
    forall j: nat ensures j in Written(off, |d|) <==> j == seg { WrittenIff(off, |d|, j); }
    assert s.rag - Written(off, |d|) == s.rag - {seg};
    hide Splice, IsSplice, Written, ChildOf, Start, SegOf, Touches;
    assert off + |d| - 1 == SegmentStart(seg) + (soff + |d| - 1);
  }

  /** Copying a piece into the buffer and growing the window over it is writing the piece. */
  lemma GrowWindowed(n: nat, s: Standing, seg: nat, buf: Content, lo: nat, hi: nat, soff: nat, piece: Content,
                     lo': nat, hi': nat)
    requires n > 0 && |buf| == SEG && piece != [] && soff + |piece| <= SEG
    requires lo < hi ==> hi <= |buf| && soff <= hi && lo <= soff + |piece|
    requires lo' == if lo < hi && lo <= soff then lo else soff
    requires hi' == if lo < hi && soff + |piece| <= hi then hi else soff + |piece|
    ensures |Splice(buf, soff, piece)| == SEG
    ensures Windowed(n, s, seg, Splice(buf, soff, piece), lo', hi') ==
            After(n, Windowed(n, s, seg, buf, lo, hi), SegmentStart(seg) + soff, piece)
  {
    assert |Splice(buf, soff, piece)| == SEG;
    hide Splice, IsSplice, After, Overlay, SegmentStart, Windowed, Framed;
    GrowWindow(s.view, SegmentStart(seg), buf, lo, hi, soff, piece, lo', hi');
    WindowIs(n, s, seg, Splice(buf, soff, piece), lo', hi');
    AfterOne(n, Windowed(n, s, seg, buf, lo, hi), seg, soff, piece);
    if lo < hi {
      WindowIs(n, s, seg, buf, lo, hi);
      FramedTwice(n, s, seg, Overlay(s.view, SegmentStart(seg), buf, lo, hi),
                  Overlay(s.view, SegmentStart(seg), Splice(buf, soff, piece), lo', hi'));
    } else {
      NoWindow(n, s, seg, buf, lo, hi);
    }
  }

  lemma NoWindow(n: nat, s: Standing, seg: nat, buf: Content, lo: nat, hi: nat)
    requires n > 0 && hi <= lo
    ensures Windowed(n, s, seg, buf, lo, hi) == s && Overlay(s.view, SegmentStart(seg), buf, lo, hi) == s.view
  {
  }

  lemma WindowIs(n: nat, s: Standing, seg: nat, buf: Content, lo: nat, hi: nat)
    requires n > 0 && lo < hi <= |buf| == SEG
    ensures Windowed(n, s, seg, buf, lo, hi) == Framed(n, s, seg, Overlay(s.view, SegmentStart(seg), buf, lo, hi))
    ensures |s.view| <= |Overlay(s.view, SegmentStart(seg), buf, lo, hi)|
  {
    SpliceReaches(s.view, SegmentStart(seg) + lo, buf[lo..hi]);
    hide Splice, IsSplice, After, SegmentStart, Framed;
    AfterOne(n, s, seg, lo, buf[lo..hi]);
  }

  lemma FramedTwice(n: nat, s: Standing, seg: nat, v: Content, v': Content)
    requires n > 0 && |s.view| <= |v|
    ensures Framed(n, Framed(n, s, seg, v), seg, v') == Framed(n, s, seg, v')
  {
    hide ChildOf, Start;
  }

  /** A window and a piece that can each be taken can be taken together. */
  lemma CanTakeGrown(n: nat, front: nat, seg: nat, lo: nat, hi: nat)
    requires n > 0 && lo < hi <= SEG
    ensures CanTake(n, front, SegmentStart(seg) + lo, hi - lo) <==>
            ChildOf(seg, n) >= front && SegmentStart(seg) + hi <= MAX_FILE_SIZE && (seg + n) / n <= MAX_TOP_ENTRIES
  {
    InSegment(seg, lo);
    InSegment(seg, hi - 1);
  }

  // ---- what a commit makes of it ----

  /** The child a file of `size` bytes ends in. */
  function EndChild(n: nat, size: nat): nat
    requires n > 0
  {
    if size == 0 then 0 else ChildOf((size - 1) / SEG, n)
  }

  lemma EndsIn(n: nat, size: nat)
    requires n > 0
    ensures size > 0 ==> EndChild(n, size) == ChildOf(Needed(size) - 1, n)
  {
  }

  /** The file reaches into the open child. */
  predicate Even(n: nat, s: Standing) {
    Start(s.front, n) * SEG < |s.view| || s.front == 0
  }

  /** A commit publishes the content: there is one child, or the others have their full length
      and the file ends in the open one. */
  predicate Settled(n: nat, s: Standing) {
    s.front == 0 || (s.reach && s.tall && s.stored <= Needed(|s.view|) && Even(n, s))
  }

  /** ... and the entries cover it: none is short but the last. */
  ghost predicate Smooth(n: nat, s: Standing) {
    Settled(n, s) && s.reach && NoRag(s.rag, |s.view|)
  }

  ghost predicate NoRag(rag: set<nat>, len: nat) {
    forall j :: j in rag ==> Needed(len) <= j + 1
  }

  lemma SettledWithin(n: nat, a: Standing, b: Standing)
    requires Within(a, b)
    ensures Settled(n, b) ==> Settled(n, a)
    ensures Smooth(n, b) ==> Smooth(n, a)
  {
    if a.front < b.front { StartOrder(a.front, b.front, n); }
    hide Start, Needed;
  }

  /** What the commit of a file that stands so may publish: the content if it is settled,
      with entries that cover it if it is smooth, and only then if all is known of it. */
  ghost predicate Publishes(n: nat, s: Standing, f: File) {
    && (Settled(n, s) ==> FileBytes(f) == s.view) && (Smooth(n, s) ==> Tiled(f))
    && (Settled(n, s) && s.loaded && s.reach ==> (Tiled(f) <==> Smooth(n, s)))
  }

  lemma PublishesWithin(n: nat, a: Standing, b: Standing, f: File)
    requires Within(a, b)
    ensures Publishes(n, a, f) ==> Publishes(n, b, f)
  {
    SettledWithin(n, a, b);
    hide Settled, NoRag, Tiled, FileBytes;
  }

  /** A file as it is committed. */
  ghost function OfFile(n: nat, f: File): Standing
    requires n > 0
  {
    Standing(FileBytes(f), Shorts(f.segs), Reaches(f.segs, f.size), Max(|f.segs|, Needed(f.size)),
             EndChild(n, f.size), true, false, Tiled(f))
  }

  /** The file after its length was set to `len`. */
  ghost function Recut(n: nat, s: Standing, len: nat): Standing
    requires n > 0
  {
    if len == |s.view| then s
    else Standing(Resize(s.view, len), CutShorts(s.rag, |s.view|, len), s.reach, Needed(len), EndChild(n, len), true,
                  s.loaded, s.backed)
  }

  lemma RecutView(n: nat, s: Standing, len: nat)
    requires n > 0
    ensures Recut(n, s, len).view == Resize(s.view, len)
  {
    SameContent(s.view, Resize(s.view, |s.view|));
  }

  lemma RecutFrom(n: nat, s2: Standing, s1: Standing, s0: Standing, len: nat)
    requires n > 0 && Within(s1, s0) && Within(s2, Recut(n, s1, len))
    ensures Within(s2, Recut(n, s0, len))
  {
    hide Within, Recut;
    RecutWithin(n, s1, s0, len);
    WithinTrans(s2, Recut(n, s1, len), Recut(n, s0, len));
  }

  lemma RecutBacked(n: nat, a: Standing, s: Standing, len: nat)
    requires n > 0 && Within(a, Recut(n, s, len))
    ensures s.backed ==> a.backed
  {
  }

  lemma RecutSettled(n: nat, s: Standing, len: nat)
    requires n > 0 && s.front == 0 && s.reach
    ensures Settled(n, Recut(n, s, len))
    ensures Smooth(n, Recut(n, s, len)) <==> NoRag(Recut(n, s, len).rag, len)
  {
    if len > 0 { Split((len - 1) / SEG, n); }
    RecutView(n, s, len);
    hide ChildOf, Start, Place, CutShorts, Resize;
  }

  lemma RecutWithin(n: nat, a: Standing, b: Standing, len: nat)
    requires n > 0 && Within(a, b)
    ensures Within(Recut(n, a, len), Recut(n, b, len))
  {
    hide Resize, IsResize;
  }
}
