/** What whole engine sessions amount to, and where they leave the plain byte string. */
module EngineRuns {
  import opened Options
  import opened Bytes
  import opened SegmentMap
  import opened ChildRecipe
  import opened StoredFile
  import opened StoredTree
  import opened RangeEffect
  import opened EngineSession
  import opened Standings

  /** Going back to a sealed child hides the rest of it: whatever the session, once segment
      `j` of another child is stored, a byte of any segment `i` next to it that the session
      wrote earlier is read as zero, though the file still has it. */
  method GoingBackHides(s: WriteSession, i: nat, j: nat, k: nat, plain: Content) returns (r: Content)
    requires s.Valid() && ChildOf(i, s.childSegs) == ChildOf(j, s.childSegs) != s.recipe.cur
    requires i != j && s.aliased <= i < |s.segs| && j < |s.segs| && |plain| == SEG
    requires k < SEG && SegByte(s.segs, i, k) != 0
    modifies s
    ensures s.Valid() && i * SEG + k < |s.Content()| && s.Content()[i * SEG + k] != 0
    ensures r == [0]
  {
    hide WriteSession.Filed, WriteSession.Streaming, WriteSession.Readable, ZeroTail, ByteAt, SegByte, ChildOf, Place;
    hide Flat, SegOf, Splice, IsSplice;
    var at := i * SEG + k;
    StoredByte(s, i, j, k);
    s.StoreWhole(j, plain);
    SpliceElsewhere(old(s.Content()), j * SEG, plain, at);
    s.OthersForgotten(i, j);
    r := s.Read(at, 1);
  }

  /** Cutting a file in its last child and growing it again within the same segment brings
      the old bytes back, whatever they were. */
  method GrowingBringsBack(s: WriteSession, len: nat, len': nat)
    requires s.Filed() && s.EndsInLast(len) && len < len' <= s.size && Needed(len) == Needed(len')
    requires !TooLong(s.childSegs, len) && !TooLong(s.childSegs, len')
    modifies s
    ensures s.Content() == old(s.Content())[..len']
  {
    hide WriteSession.Filed, TooLong, ByteAt, Needed, Start, ChildOf;
    var _ := s.TruncateInLast(len, true, _ => true);
    ghost var middle := s.segs;
    var _ := s.TruncateInLast(len', true, _ => true);
    forall i: nat | i < len' ensures ByteAt(s.segs, i) == ByteAt(old(s.segs), i) {
      assert ByteAt(s.segs, i) == ByteAt(middle, i);
    }
    SameContent(s.Content(), old(s.Content())[..len']);
  }

  ghost predicate AllOnes(c: Content) {
    forall i :: 0 <= i < |c| ==> c[i] == 1
  }

  lemma OnesGrow(c: Content, ones: Content)
    requires AllOnes(c) && AllOnes(ones) && ones != []
    ensures AllOnes(Splice(c, |c|, ones)) && |Splice(c, |c|, ones)| == |c| + |ones|
  {
    var r := Splice(c, |c|, ones);
    forall i | 0 <= i < |r| ensures r[i] == 1 { assert At(r, i) == 1; }
  }

  /** A new file of `k` segments of ones, written in order. */
  method OnesFile(n: nat, k: nat) returns (s: WriteSession)
    requires n > 0 && k > 0
    ensures fresh(s) && s.childSegs == n && s.Valid() && s.Streaming() && s.aliased == 0
    ensures |s.segs| == k && |s.Content()| == k * SEG && AllOnes(s.Content()) && s.recipe.cur == ChildOf(k - 1, n)
  {
    assert AllOnes([]);
    hide AllOnes, WriteSession.Filed, WriteSession.Streaming, ZeroTail, ChildOf, Flat, Splice, IsSplice;
    s := new WriteSession(n);
    var ones := Ones();
    for j := 0 to k
      invariant fresh(s) && s.childSegs == n && s.Valid() && s.Streaming() && s.aliased == 0
      invariant |s.segs| == j && |s.Content()| == j * SEG && AllOnes(s.Content())
      invariant s.recipe.cur == if j == 0 then 0 else ChildOf(j - 1, n)
    {
      if j > 0 { ChildOrder(j - 1, j, n); }
      OnesGrow(s.Content(), ones);
      s.StoreWhole(j, ones);
    }
  }

  function Ones(): (c: Content)
    ensures |c| == SEG && AllOnes(c)
  {
    seq(SEG, _ => 1 as byte)
  }

  /** ... as when three segments are written in order and then the second one again. */
  method BackwardsReadsZero() returns (s: WriteSession, r: Content)
    ensures fresh(s) && 0 < |s.Content()| && s.Content()[0] != 0 && r == [0]
  {
    s := OnesFile(2, 3);
    ByteInSegment(s.segs, 0, 0);
    assert At(s.Content(), 0) == ByteAt(s.segs, 0);
    r := GoingBackHides(s, 0, 1, 0, Ones());
  }

  /** Two bytes written across a segment boundary of a sealed child: the write succeeds, and a
      byte next to them is gone. */
  method SpanningWriteLoses() returns (s: WriteSession, rc: int, ghost before: Content)
    ensures fresh(s) && rc == 0 && |s.Content()| == |before| == 3 * SEG
    ensures before[65537] == 1 && s.Content()[65537] == 0
  {
    s := OnesFile(2, 3);
    before := s.Content();
    ghost var l, done := s.LaunchAt(SegOf(65535)), 0;
    assert l.at == 0 && !Reads(l, 1) && !TooBig(s.childSegs, 65535, 2) by { SpansTwo(); }
    hide WriteSession.Filed, WriteSession.Streaming, ZeroTail, Flat, Splice, IsSplice, Reads, WriteSession.LaunchAt;
    hide TooBig, Tall, Shorts, Written, WriteSession.Rises, WriteSession.Falls, ZeroAround, AllOnes;
    SpansTwo();
    hide SegOf, WriteSession.LandedAs, Landed, UnreadEnds, ChildOf;
    rc, done := s.WriteRange(65535, [7, 7], true, _ => true);
    assert [7, 7][..2] == [7, 7];
    s.LandedContent(before, 65535, [7, 7], UnreadEnds(l, 1), s.Content());
    SpanLoses(l, before, s.Content());
  }

  lemma SpanLoses(l: Launch, c0: Content, c: Content)
    requires l.childSegs > 0 && l.at == 0 && !Reads(l, 1) && |c0| == 3 * SEG
    requires Landed(c0, 65535, [7, 7], UnreadEnds(l, 1), c)
    ensures |c| == |c0| && c[65537] == 0
  {
    SpansTwo();
    hide Reads;
    assert 1 in UnreadEnds(l, 1);
  }

  lemma SpansTwo()
    ensures SegOf(65535) == 0 && SegOf(65536) == 1 && SegOf(65537) == 1
    ensures ChildOf(0, 2) == ChildOf(1, 2) == 0 && ChildOf(2, 2) == 1
  {
  }

  /** ... as when a file of two children loses its last bytes and gets one of them back. */
  method CutBytesReturn() returns (s: WriteSession)
    ensures fresh(s) && |s.Content()| == 65538 && s.Content()[65537] == 1
  {
    s := OnesFile(1, 2);
    GrowingBringsBack(s, 65537, 65538);
  }

  /** A file that is cut back into an earlier child and committed cannot be read any more: its
      top recipe still has the child that was open, past the end of the file. */
  method CutBackUnreadable(s: WriteSession, len: nat, off: nat, n: nat) returns (r: Option<Content>)
    requires s.Valid() && s.Streaming() && s.Level() && off < len && n > 0
    requires ChildOf(Needed(len) - 1, s.childSegs) < s.recipe.cur
    ensures r == None
  {
    hide WriteSession.Valid, WriteSession.Streaming, WriteSession.Level, InBounds, TreeOk, Needed, ChildOf;
    s.ValidSegs();
    var t, rc := s.CutBack(len, true);
    r := ReadTree(t, off, n);
  }

  /** ... as when a file of three children is cut to its first byte, which is lost, too. */
  method CutBackLosesAll() returns (r: Option<Content>, ghost t: Tree, ghost was: Content)
    ensures |was| == 3 * SEG && was[0] == 1
    ensures t.size == 1 && |t.chld| > 0 && t.chld[0] == [[0]] && r == None
  {
    var s := OnesFile(1, 3);
    was := s.Content();
    assert s.Level() && ChildOf(Needed(1) - 1, 1) == 0 && Place(Needed(1) - 1, 1) == 0 && s.Restores(1);
    hide WriteSession.Filed, WriteSession.Streaming, ZeroTail, Flat, InBounds, TreeOk;
    var rc;
    t, rc := s.CutBack(1, true);
    assert t.chld[0] == [t.chld[0][0]] && t.chld[0][0] == [0];
    r := CutBackUnreadable(s, 1, 0, 1);
  }

  /** A write that leaps over the rest of a child leaves that child short in the top recipe:
      the session has all the bytes, and yet the committed file cannot be read through. */
  method LeapLeavesGap(s: WriteSession, off: nat, d: Content) returns (t: Tree, r: Option<Content>)
    requires s.Valid() && s.Streaming() && d != [] && !TooBig(s.childSegs, off, |d|)
    requires ChildOf(SegOf(off), s.childSegs) > s.recipe.cur
    requires s.size < Start(ChildOf(SegOf(off), s.childSegs), s.childSegs) * SEG
    modifies s
    ensures s.Content() == Splice(old(s.Content()), off, d)
    ensures TreeOk(t) && t.size == |s.Content()| && !Tiled(Flatten(t)) && r == None
  {
    s.ValidSegs();
    assert s.Falls(SegOf(off)) && s.Onward(off) && d[..|d|] == d;
    LeapsPast(s, off, |d|);
    hide WriteSession.Filed, WriteSession.Streaming, WriteSession.Falls, WriteSession.Onward, ZeroTail, Flat, SegOf;
    hide ChildOf, Start, TooBig, Tall, Splice, TreeOk, Flatten, Tiled, Needed, NoGap, Shorts, UnreadEnds;
    var rc, done := s.WriteRange(off, d, true, _ => true);
    LeapLevel(s, off, |d|, |old(s.Content())|, |old(s.segs)|);
    t, rc := s.PublishTree(true);
    FlattenOk(t);
    UntiledGap(t);
    r := ReadTree(t, 0, t.size);
  }

  lemma LeapsPast(s: WriteSession, off: nat, n: nat)
    requires s.Valid() && s.Streaming() && n > 0 && ChildOf(SegOf(off), s.childSegs) > s.recipe.cur
    ensures |s.segs| <= SegOf(off) && |s.Content()| == s.size
    ensures Start(ChildOf(SegOf(off), s.childSegs), s.childSegs) * SEG <= off
  {
    Split(SegOf(off), s.childSegs);
    StartOrder(s.recipe.cur, ChildOf(SegOf(off), s.childSegs), s.childSegs);
    StartNext(s.recipe.cur, s.childSegs);
  }

  lemma LeapLevel(s: WriteSession, off: nat, n: nat, size: nat, stored: nat)
    requires s.Valid() && s.Streaming() && n > 0 && size <= off && stored <= SegOf(off)
    requires s.recipe.cur == ChildOf(SegOf(off + n - 1), s.childSegs) > 0 && SegOf(off + n - 1) < |s.segs|
    requires |s.segs| <= stored || |s.segs| <= SegOf(off + n - 1) + 1
    requires |s.Content()| == off + n
    ensures s.Level() && s.recipe.chld != [] && |s.Content()| == s.size
  {
    Split(SegOf(off + n - 1), s.childSegs);
  }

  /** A file that its entries do not cover cannot be read through. */
  lemma UntiledGap(t: Tree)
    requires TreeOk(t) && FileOk(Flatten(t)) && !Tiled(Flatten(t))
    ensures exists i: nat :: i < |Slice(FileBytes(Flatten(t)), 0, t.size)| && !Covered(Flatten(t), i)
  {
    var f := Flatten(t);
    if |f.segs| < Needed(f.size) {
      assert !Covered(f, f.size - 1);
    } else {
      var i: nat :| i < f.size && !Covered(f, i);
    }
  }

  lemma StoredByte(s: WriteSession, i: nat, j: nat, k: nat)
    requires s.Valid() && i != j && k < SEG && SegByte(s.segs, i, k) != 0
    ensures var at := i * SEG + k;
      SegOf(at) == i && at < |s.Content()| && s.Content()[at] != 0 && !(j * SEG <= at < j * SEG + SEG)
  {
    ByteInSegment(s.segs, i, k);
    assert At(s.Content(), i * SEG + k) == ByteAt(s.segs, i * SEG + k);
  }

  lemma SpliceElsewhere(c: Content, off: nat, d: Content, at: nat)
    requires at < |c| && !(off <= at < off + |d|)
    ensures at < |Splice(c, off, d)| && Splice(c, off, d)[at] == c[at]
  {
    assert At(Splice(c, off, d), at) == At(c, at);
  }

  /** Takes over `f`, writes `d` at `off` and commits: the segments below the write are those
      of `f`. */
  method WriteOver(n: nat, f: File, off: nat, d: Content) returns (g: FileRec)
    requires 0 < n <= CHILD_SEGS_MAX && Tiled(f) && d != [] && SegOf(off) >= |f.segs| && off + |d| <= n * SEG
    ensures FileOk(g) && FileBytes(g) == Splice(FileBytes(f), off, d) && g.size >= off + |d|
    ensures |g.segs| > |f.segs| && f.segs <= g.segs
  {
    OkZeroTail(f);
    TiledCount(n, f, off);
    assert FileBytes(f) == Flat(f.segs, f.size) && d[..|d|] == d;
    hide WriteSession.Filed, WriteSession.Streaming, ZeroTail, Flat, ChildOf, Splice, Tiled, NoGap, SegOf;
    hide TooBig, WriteSession.Onward, Trimmed, Needed;
    var s := new WriteSession.Alias(n, f.segs, f.size);
    OneChildBounds(s, off, |d|);
    var rc, done := s.WriteRange(off, d, true, _ => true);
    assert f.segs[..|f.segs|] == f.segs;
    g, rc := s.Publish(true);
    TrimmedKeeps(s.segs, s.size, g, f.segs, off, |d|);
  }

  lemma TiledCount(n: nat, f: File, off: nat)
    requires Tiled(f) && SegOf(off) >= |f.segs| && off < n * SEG
    ensures |f.segs| <= n
  {
  }

  lemma TrimmedKeeps(segs: Segments, size: nat, g: FileRec, below: Segments, off: nat, n: nat)
    requires Trimmed(segs, size, g) && below <= segs && |below| <= SegOf(off) && 0 < n && off + n <= size
    requires SegOf(off + n - 1) < |segs|
    ensures |g.segs| > |below| && below <= g.segs
  {
  }

  /** A write that jumps past the partial last segment of the old file leaves it short in the
      middle: the commit has all the bytes, and yet its gap cannot be read. */
  method JumpLeavesHole(n: nat, f: File, off: nat, d: Content) returns (g: FileRec, r: Option<Content>)
    requires 0 < n <= CHILD_SEGS_MAX && Tiled(f) && f.size % SEG != 0
    requires d != [] && SegOf(off) > SegOf(f.size - 1) && off + |d| <= n * SEG
    ensures FileOk(g) && FileBytes(g) == Splice(FileBytes(f), off, d) && !Tiled(g)
    ensures r == None
  {
    EndsInLastSegment(f);
    hide Flat, Splice, IsSplice, FileBytes;
    g := WriteOver(n, f, off, d);
    assert !Covered(g, f.size) by { assert g.segs[|f.segs| - 1] == f.segs[|f.segs| - 1]; }
    r := ReadRange(g, f.size, 1);
  }

  lemma EndsInLastSegment(f: File)
    requires Tiled(f) && f.size % SEG != 0
    ensures var last := SegOf(f.size - 1);
      last + 1 == |f.segs| && f.size / SEG == last && |f.segs[last]| == f.size % SEG
  {
    assert Covered(f, f.size - 1);
  }

  lemma OneChildBounds(s: WriteSession, off: nat, n: nat)
    requires 0 < s.childSegs <= CHILD_SEGS_MAX && s.OneChild() && n > 0 && off + n <= s.childSegs * SEG
    ensures s.Onward(off) && !TooBig(s.childSegs, off, n)
  {
    Split((off + n - 1) / 65536 + s.childSegs, s.childSegs);
    if 1 < ChildOf((off + n - 1) / 65536 + s.childSegs, s.childSegs) {
      StartOrder(1, ChildOf((off + n - 1) / 65536 + s.childSegs, s.childSegs), s.childSegs);
    }
  }

  // ---- whole sessions ----

  datatype Call = WriteCall(off: nat, d: Content) | ReadCall(off: nat, n: nat) | CutCall(len: nat)
  datatype Reply = Code(rc: int) | Data(bytes: Content)

  /** What each call does to a plain byte string, and what it answers. */
  ghost function After(f: Content, c: Call): Content {
    match c
    case WriteCall(off, d) => Splice(f, off, d)
    case ReadCall(_, _) => f
    case CutCall(len) => Resize(f, len)
  }

  function Answer(f: Content, c: Call): Reply {
    match c
    case ReadCall(off, n) => Data(Slice(f, off, n))
    case _ => Code(0)
  }

  ghost function Answers(f: Content, cs: seq<Call>): seq<Reply>
    decreases |cs|
  {
    if cs == [] then [] else [Answer(f, cs[0])] + Answers(After(f, cs[0]), cs[1..])
  }

  ghost function Final(f: Content, cs: seq<Call>): Content
    decreases |cs|
  {
    if cs == [] then f else Final(After(f, cs[0]), cs[1..])
  }

  /** The last child that may be open after a call, if `front` was before it. */
  function Front(n: nat, front: nat, c: Call): nat
    requires n > 0
  {
    match c
    case WriteCall(off, d) => if d == [] then front else LastChild(n, off, |d|)
    case ReadCall(_, _) => front
    case CutCall(len) => EndChild(n, len)
  }

  /** A write starts in the open child or after it and within the format's bounds; a cut, or
      an extension to any length, comes before the first child is sealed. */
  predicate Onward(n: nat, front: nat, c: Call)
    requires n > 0
  {
    match c
    case WriteCall(off, d) => CanTake(n, front, off, |d|)
    case ReadCall(_, _) => true
    case CutCall(len) => front == 0 && !TooLong(n, len)
  }

  predicate AllOnward(n: nat, front: nat, cs: seq<Call>)
    requires n > 0
    decreases |cs|
  {
    cs != [] ==> Onward(n, front, cs[0]) && AllOnward(n, Front(n, front, cs[0]), cs[1..])
  }

  method DoWrite(s: WriteSession, off: nat, d: Content) returns (rc: int)
    requires s.Valid() && s.Streaming() && (d == [] || (s.Onward(off) && !TooBig(s.childSegs, off, |d|)))
    modifies s
    ensures s.Valid() && s.Streaming() && rc == 0 && s.Content() == Splice(old(s.Content()), off, d)
    ensures s.recipe.cur == if d == [] then old(s.recipe.cur) else ChildOf(SegOf(off + |d| - 1), s.childSegs)
  {
    assert s.childSegs > 0 && d[..|d|] == d;
    hide WriteSession.Filed, ZeroTail, Flat, ChildOf, SegOf, TooBig, WriteSession.Onward;
    ghost var done;
    rc, done := s.WriteRange(off, d, true, _ => true);
  }

  method Do(s: WriteSession, c: Call, ghost front: nat) returns (r: Reply)
    requires s.Valid() && s.Streaming() && s.recipe.cur <= front && Onward(s.childSegs, front, c)
    modifies s
    ensures s.Valid() && s.Streaming() && s.recipe.cur <= Front(s.childSegs, front, c)
    ensures r == Answer(old(s.Content()), c) && s.Content() == After(old(s.Content()), c)
  {
    assert s.childSegs > 0 && s.recipe.cur == |s.recipe.chld|;
    hide WriteSession.Filed, WriteSession.Streaming, ZeroTail, Flat, ChildOf, SegOf, TooBig, Needed;
    hide TooLong;
    match c {
    case WriteCall(off, d) =>
      var rc := DoWrite(s, off, d);
      r := Code(rc);
    case ReadCall(off, n) =>
      var bytes := s.Read(off, n);
      r := Data(bytes);
    case CutCall(len) =>
      EndsIn(s.childSegs, len);
      var rc := s.Truncate(len, true, _ => true);
      r := Code(rc);
    }
  }

  /** Every session whose writes only move onward, over any number of children, whatever it
      takes over and in whatever order it writes, reads and cuts, is the plain byte string:
      every call answers as it does, and the file in the end is its end. Within one child
      every write is onward. */
  method Serve(s: WriteSession, cs: seq<Call>) returns (rs: seq<Reply>)
    requires s.Valid() && s.Streaming() && AllOnward(s.childSegs, s.recipe.cur, cs)
    modifies s
    ensures s.Valid() && s.Streaming()
    ensures rs == Answers(old(s.Content()), cs) && s.Content() == Final(old(s.Content()), cs)
  {
    s.ValidSegs();
    hide *;
    ghost var n, f0, f, front := s.childSegs, s.Content(), s.Content(), s.recipe.cur;
    rs := [];
    Begun(n, front, f0, cs);
    for i := 0 to |cs|
      invariant s.Valid() && s.Streaming() && s.Content() == f && s.recipe.cur <= front
      invariant Answered(f0, cs, rs, f, i) && OnwardFrom(n, front, cs, i)
    {
      NextOnward(n, front, cs, i);
      var r := Do(s, cs[i], front);
      NextAnswered(f0, cs, rs, f, i, r);
      rs, f, front := rs + [r], After(f, cs[i]), Front(n, front, cs[i]);
    }
    AllAnswered(f0, cs, rs, f);
  }

  /** The first `i` calls were answered with `rs` and led to `f`. */
  ghost predicate Answered(f0: Content, cs: seq<Call>, rs: seq<Reply>, f: Content, i: nat)
    requires i <= |cs|
  {
    Answers(f0, cs) == rs + Answers(f, cs[i..]) && Final(f0, cs) == Final(f, cs[i..])
  }

  predicate OnwardFrom(n: nat, front: nat, cs: seq<Call>, i: nat)
    requires n > 0 && i <= |cs|
  {
    AllOnward(n, front, cs[i..])
  }

  lemma Begun(n: nat, front: nat, f: Content, cs: seq<Call>)
    requires n > 0 && AllOnward(n, front, cs)
    ensures Answered(f, cs, [], f, 0) && OnwardFrom(n, front, cs, 0)
  {
    assert cs[0..] == cs && [] + Answers(f, cs) == Answers(f, cs);
  }

  lemma NextOnward(n: nat, front: nat, cs: seq<Call>, i: nat)
    requires n > 0 && i < |cs| && OnwardFrom(n, front, cs, i)
    ensures Onward(n, front, cs[i]) && OnwardFrom(n, Front(n, front, cs[i]), cs, i + 1)
  {
    hide Onward, Front;
    assert cs[i..][0] == cs[i] && cs[i..][1..] == cs[i + 1..];
  }

  lemma NextAnswered(f0: Content, cs: seq<Call>, rs: seq<Reply>, f: Content, i: nat, r: Reply)
    requires i < |cs| && r == Answer(f, cs[i]) && Answered(f0, cs, rs, f, i)
    ensures Answered(f0, cs, rs + [r], After(f, cs[i]), i + 1)
  {
    hide Answer, After;
    assert cs[i..][0] == cs[i] && cs[i..][1..] == cs[i + 1..];
    assert Answers(f, cs[i..]) == [r] + Answers(After(f, cs[i]), cs[i + 1..]);
  }

  lemma AllAnswered(f0: Content, cs: seq<Call>, rs: seq<Reply>, f: Content)
    requires Answered(f0, cs, rs, f, |cs|)
    ensures rs == Answers(f0, cs) && f == Final(f0, cs)
  {
  }
}
