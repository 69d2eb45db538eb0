/** A committed file of several children: a top recipe with one entry for each, and the
    ranged read that goes through both levels. */
module StoredTree {
  import opened Options
  import opened Bytes
  import opened SegmentMap
  import opened ChildRecipe
  import opened StoredFile

  /** The top recipe has an entry for each child: where it starts and how long it is. */
  datatype Tree = Tree(n: nat, size: nat, offs: seq<nat>, tops: seq<nat>, chld: seq<Segments>)

  /** No top entry reaches past the end of the file. */
  predicate InBounds(t: Tree)
    requires |t.offs| == |t.tops|
  {
    forall c :: 0 <= c < |t.tops| ==> t.offs[c] + t.tops[c] <= t.size
  }

  /** Where the top entry of child `c` ends. */
  function TopEnd(t: Tree, c: nat): nat
    requires c < |t.tops|
  {
    Start(c, t.n) * SEG + t.tops[c]
  }

  /** Every top entry starts where its child does and reaches past neither the child nor the
      end of the file; no child has more entries than a child can have, and no entry reaches past its segment. */
  ghost predicate TreeOk(t: Tree) {
    && t.n > 0 && |t.offs| == |t.tops| == |t.chld| && InBounds(t)
    && (forall c :: 0 <= c < |t.tops| ==> t.offs[c] == Start(c, t.n) * SEG && t.tops[c] <= t.n * SEG)
    && (forall c :: 0 <= c < |t.chld| ==> |t.chld[c]| <= t.n && SegmentsOk(t.chld[c]))
  }

  /** The entry of segment `j`. */
  function Entry(t: Tree, j: nat): Content
    requires t.n > 0
  {
    var c, p := ChildOf(j, t.n), Place(j, t.n);
    if c < |t.chld| && p < |t.chld[c]| then t.chld[c][p] else []
  }

  /** What of it lies within the top entry of its child. */
  function Clipped(t: Tree, j: nat): Content
    requires t.n > 0
  {
    var c := ChildOf(j, t.n);
    if c >= |t.tops| || TopEnd(t, c) <= j * SEG then []
    else if |Entry(t, j)| <= TopEnd(t, c) - j * SEG then Entry(t, j)
    else Entry(t, j)[..TopEnd(t, c) - j * SEG]
  }

  /** How many segments the children have room for. */
  function Slots(t: Tree): nat {
    Min(Start(|t.chld|, t.n), Needed(t.size))
  }

  /** The file of one level that serves the same bytes. */
  function Flatten(t: Tree): FileRec
    requires t.n > 0
  {
    FileRec(seq(Slots(t), j requires 0 <= j => Clipped(t, j)), t.size)
  }

  lemma FlattenOk(t: Tree)
    requires TreeOk(t)
    ensures t.n > 0 && |t.tops| == |t.chld| && FileOk(Flatten(t))
  {
    forall j: nat | j < Slots(t) ensures |Clipped(t, j)| <= SEG && j * SEG + |Clipped(t, j)| <= t.size {
      var c := ChildOf(j, t.n);
      if c < |t.chld| { assert SegmentsOk(t.chld[c]); }
    }
  }

  /** Bytes that no entry covers are settled as soon as they are passed. */
  lemma CopyGap(f: FileRec, off: nat, p: nat, q: nat, buf: Content, got: nat)
    requires off <= p <= q <= off + |buf| && Copied(f, off, p, buf, got)
    requires forall i: nat :: p <= i < q ==> !Covered(f, i)
    ensures Copied(f, off, q, buf, got)
  {
    if p < q { assert !Covered(f, p); }
  }

  /** Past the top entry of a child there is nothing of it. */
  lemma PastTop(t: Tree, c: nat, i: nat)
    requires TreeOk(t) && c < |t.tops| && TopEnd(t, c) <= i < Start(c + 1, t.n) * SEG
    ensures !Covered(Flatten(t), i)
  {
    var j := i / SEG;
    assert i == j * SEG + i % SEG;
    assert Start(c, t.n) * SEG <= i;
    InChild(j, c, t.n);
  }

  lemma InChild(j: nat, c: nat, n: nat)
    requires n > 0 && Start(c, n) <= j < Start(c + 1, n)
    ensures ChildOf(j, n) == c && Place(j, n) == j - Start(c, n)
  {
    Split(j, n);
    if ChildOf(j, n) < c { StartOrder(ChildOf(j, n), c, n); }
    if c < ChildOf(j, n) { StartOrder(c, ChildOf(j, n), n); }
  }

  /** Past the entries of a child there is nothing of it. */
  lemma PastEntries(t: Tree, c: nat, p: nat, i: nat)
    requires TreeOk(t) && c < |t.chld| && |t.chld[c]| <= p && (Start(c, t.n) + p) * SEG <= i < Start(c + 1, t.n) * SEG
    ensures !Covered(Flatten(t), i)
  {
    InChild(i / SEG, c, t.n);
  }

  lemma PastChildren(t: Tree, i: nat)
    requires TreeOk(t) && Start(|t.chld|, t.n) * SEG <= i
    ensures !Covered(Flatten(t), i)
  {
  }

  /** One entry of child `c`, copied as far as the window `[lo, hi)` of its top entry goes. */
  method CopyEntryOf(t: Tree, c: nat, p: nat, off: nat, end: nat, buf: Content, got: nat)
    returns (buf': Content, got': nat)
    requires TreeOk(t) && c < |t.chld| && p < |t.chld[c]| && off <= end == off + |buf| && end <= t.size
    requires (Start(c, t.n) + p) * SEG < Min(end, TopEnd(t, c))
    requires Copied(Flatten(t), off, Clamp((Start(c, t.n) + p) * SEG, off, end), buf, got)
    ensures |buf'| == |buf|
    ensures Copied(Flatten(t), off, Clamp((Start(c, t.n) + p + 1) * SEG, off, end), buf', got')
  {
    hide *;
    FlattenOk(t);
    EntryHere(t, c, p, end);
    var j := Start(c, t.n) + p;
    ghost var f := Flatten(t);
    var hi := Clamp(Min(j * SEG + |t.chld[c][p]|, TopEnd(t, c)), off, end);
    var lo := Clamp(j * SEG, off, end);
    ClampWindow(j * SEG, EntryEnd(f, j), off, end);
    buf', got' := buf, got;
    if lo < hi {
      CopyPiece(f, off, j, buf, lo, hi);
      SamePart(t, c, p, end, lo - j * SEG, hi - j * SEG);
      SpliceInside(buf, lo - off, t.chld[c][p][lo - j * SEG..hi - j * SEG]);
      buf', got' := SpliceBytes(buf, lo - off, t.chld[c][p][lo - j * SEG..hi - j * SEG]), got + (hi - lo);
      CopyEntry(f, off, end, j, buf, got, buf');
    } else {
      CopyNone(f, off, buf, lo, hi);
      CopyEntry(f, off, end, j, buf, got, buf);
    }
  }

  lemma SpliceInside(s: Content, off: nat, d: Content)
    requires off + |d| <= |s|
    ensures |Splice(s, off, d)| == |s|
  {
  }

  /** A window that is not empty lies inside what it is clamped from. */
  lemma ClampWindow(x: nat, y: nat, lo: nat, hi: nat)
    requires lo <= hi && x <= y
    ensures lo <= Clamp(x, lo, hi) <= Clamp(y, lo, hi) <= hi
    ensures Clamp(x, lo, hi) < Clamp(y, lo, hi) ==> x <= Clamp(x, lo, hi) && Clamp(y, lo, hi) <= y
  {
  }

  lemma CopyNone(f: FileRec, off: nat, buf: Content, lo: nat, hi: nat)
    requires hi <= lo
    ensures CopiedIn(f, off, buf, buf, lo, hi)
  {
  }

  lemma SamePart(t: Tree, c: nat, p: nat, end: nat, a: nat, b: nat)
    requires TreeOk(t) && c < |t.chld| && p < |t.chld[c]| && end <= t.size
    requires (Start(c, t.n) + p) * SEG < Min(end, TopEnd(t, c))
    requires a <= b && (Start(c, t.n) + p) * SEG + b <= Min((Start(c, t.n) + p) * SEG + |t.chld[c][p]|, TopEnd(t, c))
    ensures var j := Start(c, t.n) + p;
      j < |Flatten(t).segs| && b <= |Flatten(t).segs[j]| && b <= |t.chld[c][p]|
      && Flatten(t).segs[j][a..b] == t.chld[c][p][a..b]
  {
    EntryHere(t, c, p, end);
    var j := Start(c, t.n) + p;
    hide Flatten, TreeOk, Start;
    assert Clipped(t, j) <= t.chld[c][p];
  }

  lemma EntryHere(t: Tree, c: nat, p: nat, end: nat)
    requires TreeOk(t) && c < |t.chld| && p < |t.chld[c]| && end <= t.size
    requires (Start(c, t.n) + p) * SEG < Min(end, TopEnd(t, c))
    ensures var j := Start(c, t.n) + p;
      && j < |Flatten(t).segs| && j * SEG < end && Flatten(t).segs[j] == Clipped(t, j)
      && ChildOf(j, t.n) == c && Place(j, t.n) == p && Entry(t, j) == t.chld[c][p]
      && j * SEG <= EntryEnd(Flatten(t), j) == Min(j * SEG + |t.chld[c][p]|, TopEnd(t, c)) <= j * SEG + |t.chld[c][p]|
  {
    StartOrder(c, c + 1, t.n);
    InChild(Start(c, t.n) + p, c, t.n);
    if c + 1 < |t.chld| { StartOrder(c + 1, |t.chld|, t.n); }
  }

  /** The first entry of child `c` that ends after `lo`. */
  method FirstIn(t: Tree, c: nat, lo: nat) returns (l: nat)
    requires TreeOk(t) && c < |t.chld|
    ensures l <= |t.chld[c]|
    ensures forall p :: 0 <= p < l ==> (Start(c, t.n) + p) * SEG + |t.chld[c][p]| <= lo
  {
    l := 0;
    var r, ents, s := |t.chld[c]|, t.chld[c], Start(c, t.n);
    assert SegmentsOk(ents);
    hide Start;
    if r <= 8 { return; }
    while l < r
      invariant l <= r <= |ents| && forall p :: 0 <= p < l ==> (s + p) * SEG + |ents[p]| <= lo
    {
      var m := l + (r - l) / 2;
      if (s + m) * SEG + |ents[m]| <= lo {
        forall p | 0 <= p <= m ensures (s + p) * SEG + |ents[p]| <= lo {
          assert p < m ==> (s + p) * SEG + SEG <= (s + m) * SEG;
        }
        l := m + 1;
      } else {
        r := m;
      }
    }
  }

  /** The first top entry that ends after `off`. */
  method FirstTop(t: Tree, off: nat) returns (l: nat)
    requires TreeOk(t)
    ensures l <= |t.tops| && forall c :: 0 <= c < l ==> TopEnd(t, c) <= off
  {
    l := 0;
    var r := |t.tops|;
    if r <= 8 { return; }
    while l < r
      invariant l <= r <= |t.tops| && forall c :: 0 <= c < l ==> TopEnd(t, c) <= off
    {
      var m := l + (r - l) / 2;
      if TopEnd(t, m) <= off {
        forall c | 0 <= c <= m ensures TopEnd(t, c) <= off {
          if c < m { StartOrder(c, m, t.n); }
        }
        l := m + 1;
      } else {
        r := m;
      }
    }
  }

  /** The entries before the first one that ends after `lo` have nothing from there on. */
  lemma SkippedEntries(t: Tree, c: nat, p: nat, lo: nat, i: nat)
    requires TreeOk(t) && c < |t.chld| && p <= |t.chld[c]| && Start(c, t.n) * SEG <= lo <= i < (Start(c, t.n) + p) * SEG
    requires forall q :: 0 <= q < p ==> (Start(c, t.n) + q) * SEG + |t.chld[c][q]| <= lo
    ensures !Covered(Flatten(t), i)
  {
    var q := i / SEG - Start(c, t.n);
    assert i == (Start(c, t.n) + q) * SEG + i % SEG && 0 <= q < p;
    StartOrder(c, c + 1, t.n);
    InChild(i / SEG, c, t.n);
  }

  /** After the last entry that is looked at, nothing of the child is left. */
  lemma ChildDone(t: Tree, c: nat, p: nat, off: nat, end: nat, i: nat)
    requires TreeOk(t) && c < |t.chld| && p <= |t.chld[c]| && off <= end
    requires p == |t.chld[c]| || (Start(c, t.n) + p) * SEG >= Min(end, TopEnd(t, c))
    requires Clamp((Start(c, t.n) + p) * SEG, off, end) <= i < Clamp(Start(c + 1, t.n) * SEG, off, end)
    ensures !Covered(Flatten(t), i)
  {
    StartOrder(c, c + 1, t.n);
    if p == |t.chld[c]| { PastEntries(t, c, p, i); } else { PastTop(t, c, i); }
  }

  /** The part of the range that falls into child `c`. */
  method CopyChild(t: Tree, c: nat, off: nat, end: nat, buf: Content, got: nat) returns (buf': Content, got': nat)
    requires TreeOk(t) && c < |t.chld| && off <= end == off + |buf| && end <= t.size && Start(c, t.n) * SEG < end
    requires Copied(Flatten(t), off, Clamp(Start(c, t.n) * SEG, off, end), buf, got)
    ensures |buf'| == |buf|
    ensures Copied(Flatten(t), off, Clamp(Start(c + 1, t.n) * SEG, off, end), buf', got')
  {
    buf', got' := buf, got;
    var lo := Clamp(Start(c, t.n) * SEG, off, end);
    var p := FirstIn(t, c, lo);
    SkipTo(t, c, p, off, end, buf, got);
    hide Copied, Flatten, TreeOk;
    while p < |t.chld[c]| && (Start(c, t.n) + p) * SEG < Min(end, TopEnd(t, c))
      invariant p <= |t.chld[c]| && |buf'| == |buf|
      invariant Copied(Flatten(t), off, Clamp((Start(c, t.n) + p) * SEG, off, end), buf', got')
    {
      buf', got' := CopyEntryOf(t, c, p, off, end, buf', got');
      p := p + 1;
    }
    SkipRest(t, c, p, off, end, buf', got');
  }

  lemma SkipTo(t: Tree, c: nat, p: nat, off: nat, end: nat, buf: Content, got: nat)
    requires TreeOk(t) && c < |t.chld| && p <= |t.chld[c]| && off <= end == off + |buf| && Start(c, t.n) * SEG < end
    requires Copied(Flatten(t), off, Clamp(Start(c, t.n) * SEG, off, end), buf, got)
    requires forall q :: 0 <= q < p ==>
      (Start(c, t.n) + q) * SEG + |t.chld[c][q]| <= Clamp(Start(c, t.n) * SEG, off, end)
    ensures Copied(Flatten(t), off, Clamp((Start(c, t.n) + p) * SEG, off, end), buf, got)
  {
    var lo, hi := Clamp(Start(c, t.n) * SEG, off, end), Clamp((Start(c, t.n) + p) * SEG, off, end);
    ClampWindow(Start(c, t.n) * SEG, (Start(c, t.n) + p) * SEG, off, end);
    hide Flatten, TreeOk, Copied, Covered, Clamp, Start;
    forall i: nat | lo <= i < hi ensures !Covered(Flatten(t), i) { SkippedEntries(t, c, p, lo, i); }
    CopyGap(Flatten(t), off, lo, hi, buf, got);
  }

  lemma SkipRest(t: Tree, c: nat, p: nat, off: nat, end: nat, buf: Content, got: nat)
    requires TreeOk(t) && c < |t.chld| && p <= |t.chld[c]| && off <= end == off + |buf|
    requires p == |t.chld[c]| || (Start(c, t.n) + p) * SEG >= Min(end, TopEnd(t, c))
    requires Copied(Flatten(t), off, Clamp((Start(c, t.n) + p) * SEG, off, end), buf, got)
    ensures Copied(Flatten(t), off, Clamp(Start(c + 1, t.n) * SEG, off, end), buf, got)
  {
    hide *;
    FlattenOk(t);
    ChildRest(t, c, p);
    ClampWindow((Start(c, t.n) + p) * SEG, Start(c + 1, t.n) * SEG, off, end);
    var lo, hi := Clamp((Start(c, t.n) + p) * SEG, off, end), Clamp(Start(c + 1, t.n) * SEG, off, end);
    forall i: nat | lo <= i < hi ensures !Covered(Flatten(t), i) { ChildDone(t, c, p, off, end, i); }
    CopyGap(Flatten(t), off, lo, hi, buf, got);
  }

  lemma ChildRest(t: Tree, c: nat, p: nat)
    requires TreeOk(t) && c < |t.chld| && p <= |t.chld[c]|
    ensures (Start(c, t.n) + p) * SEG <= Start(c + 1, t.n) * SEG
  {
    StartNext(c, t.n);
  }

  lemma SkipTops(t: Tree, l: nat, off: nat, end: nat, buf: Content)
    requires TreeOk(t) && l <= |t.tops| && off <= end == off + |buf|
    requires forall c :: 0 <= c < l ==> TopEnd(t, c) <= off
    ensures Copied(Flatten(t), off, Clamp(Start(l, t.n) * SEG, off, end), buf, 0)
  {
    var q := Clamp(Start(l, t.n) * SEG, off, end);
    hide Flatten, TreeOk, Copied, Covered, Start, TopEnd;
    forall i: nat | off <= i < q ensures !Covered(Flatten(t), i) { SkippedTop(t, l, off, i); }
    NothingCopied(Flatten(t), off, buf);
    CopyGap(Flatten(t), off, off, q, buf, 0);
  }

  lemma NothingCopied(f: FileRec, off: nat, buf: Content)
    ensures Copied(f, off, off, buf, 0)
  {
  }

  lemma SkippedTop(t: Tree, l: nat, off: nat, i: nat)
    requires TreeOk(t) && l <= |t.tops| && off <= i < Start(l, t.n) * SEG
    requires forall c :: 0 <= c < l ==> TopEnd(t, c) <= off
    ensures !Covered(Flatten(t), i)
  {
    var c := ChildOf(i / SEG, t.n);
    Split(i / SEG, t.n);
    if l < c { StartOrder(l, c, t.n); }
    assert c < l;
    hide Flatten, TreeOk;
    PastTop(t, c, i);
  }

  lemma SkipTail(t: Tree, c: nat, off: nat, end: nat, buf: Content, got: nat)
    requires TreeOk(t) && c <= |t.tops| && off <= end == off + |buf|
    requires c == |t.tops| || Start(c, t.n) * SEG >= end
    requires Copied(Flatten(t), off, Clamp(Start(c, t.n) * SEG, off, end), buf, got)
    ensures Copied(Flatten(t), off, end, buf, got)
  {
    var p := Clamp(Start(c, t.n) * SEG, off, end);
    assert |t.tops| == |t.chld|;
    hide Flatten, TreeOk, Copied, Covered, Start;
    forall i: nat | p <= i < end ensures !Covered(Flatten(t), i) { PastChildren(t, i); }
    CopyGap(Flatten(t), off, p, end, buf, got);
  }

  /** The reader's check of the top entries, before anything is read. */
  method Bounded(t: Tree) returns (b: bool)
    requires |t.offs| == |t.tops|
    ensures b <==> InBounds(t)
  {
    for c := 0 to |t.tops|
      invariant forall k :: 0 <= k < c ==> t.offs[k] + t.tops[k] <= t.size
    {
      if t.offs[c] > t.size || t.offs[c] + t.tops[c] > t.size { return false; }
    }
    b := true;
  }

  /** read_range on a file of several children: all of the range, or nothing if a top entry
      reaches past the file, or if the entries leave any of it out. */
  method ReadTree(t: Tree, off: nat, n: nat) returns (r: Option<Content>)
    requires t.n > 0 && |t.offs| == |t.tops| && (InBounds(t) ==> TreeOk(t))
    ensures !InBounds(t) && off < t.size && n > 0 ==> r == None
    ensures InBounds(t) ==>
      (r.Some? <==>
       forall i: nat :: off <= i < off + |Slice(FileBytes(Flatten(t)), off, n)| ==> Covered(Flatten(t), i))
    ensures InBounds(t) && r.Some? ==> r.value == Slice(FileBytes(Flatten(t)), off, n)
  {
    if off >= t.size || n == 0 { return Some([]); }
    var bounded := Bounded(t);
    if !bounded { return None; }
    r := ReadBounded(t, off, n);
  }

  method ReadBounded(t: Tree, off: nat, n: nat) returns (r: Option<Content>)
    requires TreeOk(t) && off < t.size
    ensures r.Some? <==>
      forall i: nat :: off <= i < off + |Slice(FileBytes(Flatten(t)), off, n)| ==> Covered(Flatten(t), i)
    ensures r.Some? ==> r.value == Slice(FileBytes(Flatten(t)), off, n)
  {
    FlattenOk(t);
    var len := if n > t.size - off then t.size - off else n;
    var buf, got: nat, end := ResizeBytes([], len), 0, off + len;
    var c := FirstTop(t, off);
    SkipTops(t, c, off, end, buf);
    hide Flatten, TreeOk, ResizeBytes;
    while c < |t.tops| && Start(c, t.n) * SEG < end
      invariant c <= |t.tops| == |t.chld| && |buf| == len && TreeOk(t)
      invariant Copied(Flatten(t), off, Clamp(Start(c, t.n) * SEG, off, end), buf, got)
    {
      hide Copied, Start;
      buf, got := CopyChild(t, c, off, end, buf, got);
      c := c + 1;
    }
    SkipTail(t, c, off, end, buf, got);
    r := if got == len then Some(buf) else None;
    if got == len { AllCopied(Flatten(t), off, buf); }
  }

  // ---- when the top recipe covers the file ----

  /** The children file `segs`, and the last of them is not empty. */
  ghost predicate TreeFiles(t: Tree, segs: Segments) {
    && t.n > 0 && t.chld != [] && |t.tops| == |t.chld| && SegmentsOk(segs)
    && Start(|t.chld| - 1, t.n) < |segs| <= Start(|t.chld|, t.n)
    && forall c :: 0 <= c < |t.chld| ==> t.chld[c] == Child(segs, t.n, c)
  }

  lemma EntryIs(t: Tree, segs: Segments, j: nat)
    requires TreeFiles(t, segs) && j < |segs|
    ensures ChildOf(j, t.n) < |t.chld| && Entry(t, j) == segs[j]
  {
    Split(j, t.n);
    if |t.chld| <= ChildOf(j, t.n) {
      if |t.chld| < ChildOf(j, t.n) { StartOrder(|t.chld|, ChildOf(j, t.n), t.n); }
    }
    ChildIndex(segs, t.n, j);
  }

  /** Every child but the last has its full length in the top recipe, and the last one the rest
      of the file. */
  ghost predicate FullTops(t: Tree) {
    && t.chld != [] && |t.tops| == |t.chld|
    && (forall c :: 0 <= c < |t.tops| - 1 ==> t.tops[c] == t.n * SEG)
    && Start(|t.tops| - 1, t.n) * SEG + t.tops[|t.tops| - 1] == t.size
  }

  /** Nothing is clipped under full top entries. */
  lemma ClippedWhole(t: Tree, segs: Segments, j: nat)
    requires TreeFiles(t, segs) && FullTops(t) && j < |segs| && j * SEG + |segs[j]| <= t.size
    ensures Clipped(t, j) == segs[j]
  {
    EntryIs(t, segs, j);
    Split(j, t.n);
    var c := ChildOf(j, t.n);
    assert j * SEG + SEG <= Start(c, t.n) * SEG + t.n * SEG;
    assert SegmentsOk(segs) && |segs[j]| <= SEG;
  }

  lemma FlattenIs(t: Tree, segs: Segments)
    requires TreeFiles(t, segs) && FullTops(t) && |segs| == Needed(t.size)
    requires forall j :: 0 <= j < |segs| ==> j * SEG + |segs[j]| <= t.size
    ensures Flatten(t).segs == segs
  {
    forall j | 0 <= j < |segs| ensures Clipped(t, j) == segs[j] { ClippedWhole(t, segs, j); }
  }

  /** A top entry short of its child leaves a gap before the next. */
  lemma ShortTopGap(t: Tree, c: nat)
    requires TreeOk(t) && c + 1 < |t.tops| && t.tops[c] < t.n * SEG && Start(|t.tops| - 1, t.n) * SEG < t.size
    ensures !Tiled(Flatten(t))
  {
    var i := TopEnd(t, c);
    if c + 1 < |t.tops| - 1 { StartOrder(c + 1, |t.tops| - 1, t.n); }
    assert Start(c + 1, t.n) == Start(c, t.n) + t.n;
    PastTop(t, c, i);
    assert i < t.size;
  }
}
