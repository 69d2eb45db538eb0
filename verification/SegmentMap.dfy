/** A file as numbered 64K segments, and what storing one segment does to its content. */
module SegmentMap {
  import opened Bytes

  const SEG: nat := 65536

  /** Stored plaintext of each segment; a short segment reads as if padded with zeros. */
  type Segments = seq<Content>

  ghost predicate SegmentsOk(segs: Segments) {
    forall j :: 0 <= j < |segs| ==> |segs[j]| <= SEG
  }

  function ByteAt(segs: Segments, i: nat): byte {
    if i / SEG < |segs| then At(segs[i / SEG], i % SEG) else 0
  }

  /** The bytes of segment `j`, zeros where nothing is stored. */
  function SegByte(segs: Segments, j: nat, k: nat): byte {
    if j < |segs| then At(segs[j], k) else 0
  }

  lemma ByteInSegment(segs: Segments, j: nat, k: nat)
    requires k < SEG
    ensures ByteAt(segs, j * SEG + k) == SegByte(segs, j, k)
  {
    assert (j * 65536 + k) / 65536 == j && (j * 65536 + k) % 65536 == k;
  }

  /** The file of `size` bytes that the segments hold. */
  ghost function Flat(segs: Segments, size: nat): (c: Content)
    ensures |c| == size && forall i: nat :: i < size ==> At(c, i) == ByteAt(segs, i)
  {
    seq(size, i requires 0 <= i => ByteAt(segs, i))
  }

  /** Nothing but zeros is stored past the end of the file. */
  ghost predicate ZeroTail(segs: Segments, size: nat) {
    forall i: nat :: size <= i ==> ByteAt(segs, i) == 0
  }

  /** Stores a segment; the one right past the end appends. */
  function Put(segs: Segments, j: nat, plain: Content): Segments
    requires j <= |segs|
  {
    if j < |segs| then segs[j := plain] else segs + [plain]
  }

  lemma PutBelow(segs: Segments, j: nat, plain: Content)
    requires j <= |segs|
    ensures segs[..j] <= Put(segs, j, plain) && |Put(segs, j, plain)| == Max(|segs|, j + 1)
  {
  }

  lemma ByteAfterPut(segs: Segments, j: nat, plain: Content, i: nat)
    requires j <= |segs|
    ensures ByteAt(Put(segs, j, plain), i) == if i / SEG == j then At(plain, i % SEG) else ByteAt(segs, i)
  {
  }

  /** `plain` is segment `j` with `piece` written over it at `soff`. */
  ghost predicate Patched(segs: Segments, j: nat, soff: nat, piece: Content, plain: Content) {
    forall k: nat :: k < SEG ==>
      At(plain, k) == if soff <= k < soff + |piece| then piece[k - soff] else SegByte(segs, j, k)
  }

  function Max(a: nat, b: nat): nat { if a < b then b else a }

  lemma ByteAfterPatch(segs: Segments, j: nat, soff: nat, piece: Content, plain: Content, i: nat)
    requires j <= |segs| && soff + |piece| <= SEG && Patched(segs, j, soff, piece, plain)
    ensures ByteAt(Put(segs, j, plain), i)
            == if j * SEG + soff <= i < j * SEG + soff + |piece| then piece[i - (j * SEG + soff)] else ByteAt(segs, i)
  {
    ByteAfterPut(segs, j, plain, i);
    var k := i % SEG;
    if i / SEG == j {
      assert i == j * SEG + k;
      assert At(plain, k) == if soff <= k < soff + |piece| then piece[k - soff] else SegByte(segs, j, k);
    }
  }

  /** Storing a patched segment splices the piece into the file, and the tail stays zero. */
  lemma PatchIsSplice(segs: Segments, size: nat, j: nat, soff: nat, piece: Content, plain: Content)
    requires j <= |segs| && soff + |piece| <= SEG && piece != [] && ZeroTail(segs, size)
    requires Patched(segs, j, soff, piece, plain)
    ensures var size' := Max(size, j * SEG + soff + |piece|);
      && ZeroTail(Put(segs, j, plain), size')
      && Flat(Put(segs, j, plain), size') == Splice(Flat(segs, size), j * SEG + soff, piece)
  {
    var off := j * SEG + soff;
    var size', segs' := Max(size, off + |piece|), Put(segs, j, plain);
    forall i: nat ensures ByteAt(segs', i) == if off <= i < off + |piece| then piece[i - off] else ByteAt(segs, i) {
      ByteAfterPatch(segs, j, soff, piece, plain, i);
    }
    hide ByteAt, Patched, Put;
    var c, r := Flat(segs, size), Flat(segs', size');
    assert IsSplice(r, c, off, piece);
    SpliceUnique(r, Splice(c, off, piece), c, off, piece);
  }

  /** `plain` is `piece` at `soff` with nothing but zeros around it. */
  ghost predicate OverZeros(soff: nat, piece: Content, plain: Content) {
    forall k: nat :: k < SEG ==> At(plain, k) == if soff <= k < soff + |piece| then piece[k - soff] else 0
  }

  /** Segment `j` holds only zeros outside `[soff, soff + n)`. */
  ghost predicate ZeroOutside(segs: Segments, j: nat, soff: nat, n: nat) {
    forall k: nat :: k < SEG && !(soff <= k < soff + n) ==> SegByte(segs, j, k) == 0
  }

  /** Storing a piece over zeros keeps the tail zero, and is the splice exactly when the
      segment had only zeros around the piece. */
  lemma OverZerosExact(segs: Segments, size: nat, j: nat, soff: nat, piece: Content, plain: Content)
    requires j <= |segs| && soff + |piece| <= SEG && piece != [] && ZeroTail(segs, size)
    requires OverZeros(soff, piece, plain)
    ensures var size', segs' := Max(size, j * SEG + soff + |piece|), Put(segs, j, plain);
      && ZeroTail(segs', size')
      && (Flat(segs', size') == Splice(Flat(segs, size), j * SEG + soff, piece) <==>
          ZeroOutside(segs, j, soff, |piece|))
  {
    var off, size', segs' := j * SEG + soff, Max(size, j * SEG + soff + |piece|), Put(segs, j, plain);
    if ZeroOutside(segs, j, soff, |piece|) {
      PatchIsSplice(segs, size, j, soff, piece, plain);
    } else {
      forall i: nat | size' <= i ensures ByteAt(segs', i) == 0 {
        ByteAfterPut(segs, j, plain, i);
        if i / SEG == j { assert i == j * SEG + i % SEG; }
      }
      var k: nat :| k < SEG && !(soff <= k < soff + |piece|) && SegByte(segs, j, k) != 0;
      var i := j * SEG + k;
      ByteInSegment(segs, j, k);
      ByteInSegment(segs', j, k);
      assert i < size;
      assert At(Flat(segs', size'), i) == 0 && At(Splice(Flat(segs, size), off, piece), i) == SegByte(segs, j, k);
    }
  }

  ghost predicate SameBytes(segs: Segments, segs': Segments) {
    forall i: nat :: ByteAt(segs', i) == ByteAt(segs, i)
  }

  lemma SameBytesSelf(segs: Segments)
    ensures SameBytes(segs, segs)
  {
  }

  lemma SameBytesTrans(a: Segments, b: Segments, c: Segments)
    requires SameBytes(a, b) && SameBytes(b, c)
    ensures SameBytes(a, c)
  {
  }

  lemma MaxOf(a: nat, b: nat)
    ensures Max(a, b) == if a < b then b else a
  {
  }

  /** A zero segment past the last one changes nothing. */
  lemma ZeroSegment(segs: Segments, plain: Content)
    requires forall k: nat :: k < SEG ==> At(plain, k) == 0
    ensures SameBytes(segs, Put(segs, |segs|, plain))
  {
    forall i: nat ensures ByteAt(Put(segs, |segs|, plain), i) == ByteAt(segs, i) {
      ByteAfterPut(segs, |segs|, plain, i);
    }
  }

  lemma SameFile(segs: Segments, segs': Segments, size: nat)
    requires SameBytes(segs, segs')
    ensures Flat(segs', size) == Flat(segs, size) && (ZeroTail(segs, size) ==> ZeroTail(segs', size))
  {
    hide ByteAt;
    SameContent(Flat(segs', size), Flat(segs, size));
  }

  /** Segments that agree below `len` and hold zeros from there on are the resized file. */
  lemma ResizeIs(segs: Segments, size: nat, segs': Segments, len: nat)
    requires ZeroTail(segs, size) && ZeroTail(segs', len)
    requires forall i: nat :: i < len ==> ByteAt(segs', i) == ByteAt(segs, i)
    ensures Flat(segs', len) == Resize(Flat(segs, size), len)
  {
    hide ByteAt;
    SameContent(Flat(segs', len), Resize(Flat(segs, size), len));
  }

  ghost predicate KeepsBelow(segs: Segments, segs': Segments, len: nat) {
    forall i: nat :: i < len ==> ByteAt(segs', i) == ByteAt(segs, i)
  }

  /** Keeping every byte below `len` is the resize exactly when only zeros are stored between
      the old end and the new. */
  lemma ResizeIff(segs: Segments, size: nat, segs': Segments, len: nat)
    requires KeepsBelow(segs, segs', len)
    ensures Flat(segs', len) == Resize(Flat(segs, size), len) <==> forall i: nat :: size <= i < len ==>
      ByteAt(segs, i) == 0
  {
    hide ByteAt;
    var f, r := Flat(segs', len), Resize(Flat(segs, size), len);
    if forall i: nat :: size <= i < len ==> ByteAt(segs, i) == 0 {
      SameContent(f, r);
    } else {
      var i: nat :| size <= i < len && ByteAt(segs, i) != 0;
      assert At(f, i) != 0 && At(r, i) == 0;
    }
  }

  /** Dropping the segments from `keep` on. */
  lemma ByteAfterDrop(segs: Segments, keep: nat, i: nat)
    requires keep <= |segs|
    ensures ByteAt(segs[..keep], i) == if i / SEG < keep then ByteAt(segs, i) else 0
  {
  }

  lemma DropKeepsBelow(segs: Segments, keep: nat)
    requires keep <= |segs|
    ensures KeepsBelow(segs, segs[..keep], keep * SEG)
  {
    forall i: nat | i < keep * SEG ensures ByteAt(segs[..keep], i) == ByteAt(segs, i) {
      ByteAfterDrop(segs, keep, i);
      assert i / SEG < keep;
    }
  }

  lemma DropKeepsTail(segs: Segments, size: nat, keep: nat)
    requires keep <= |segs| && ZeroTail(segs, size)
    ensures ZeroTail(segs[..keep], size)
  {
    forall i: nat | size <= i ensures ByteAt(segs[..keep], i) == 0 { ByteAfterDrop(segs, keep, i); }
  }

  /** `segs'` is `segs` with the rest of the segment that `cut` falls into zeroed. */
  ghost predicate CutAt(segs: Segments, segs': Segments, cut: nat) {
    forall i: nat :: ByteAt(segs', i) ==
      if cut <= i && i / SEG == cut / SEG && cut % SEG != 0 then 0 else ByteAt(segs, i)
  }

  lemma CutStored(segs: Segments, cut: nat, plain: Content)
    requires cut / SEG < |segs|
    requires forall k: nat :: k < SEG ==> At(plain, k) == if k < cut % SEG then SegByte(segs, cut / SEG, k) else 0
    ensures cut % SEG != 0 ==> CutAt(segs, Put(segs, cut / SEG, plain), cut)
  {
    forall i: nat ensures ByteAt(Put(segs, cut / SEG, plain), i)
      == if cut <= i && i / SEG == cut / SEG then 0 else ByteAt(segs, i)
    {
      ByteAfterPut(segs, cut / SEG, plain, i);
      if i / SEG == cut / SEG { assert cut <= i <==> cut % SEG <= i % SEG; }
    }
  }

  lemma CutNothing(segs: Segments, cut: nat)
    requires cut % SEG == 0 || cut / SEG >= |segs|
    ensures CutAt(segs, segs, cut)
  {
  }

  /** Segments a file of `len` bytes needs. */
  function Needed(len: nat): (k: nat)
    ensures k * SEG >= len && (k > 0 ==> (k - 1) * SEG < len)
  {
    (len + 65535) / 65536
  }

  /** Dropping what lies past the last segment needed, then zeroing the rest of the one that
      the shorter end falls into: nothing moves below both ends, and zeros follow. */
  lemma CutDropped(segs: Segments, size: nat, len: nat, segs': Segments)
    requires ZeroTail(segs, size)
    requires CutAt(if Needed(len) < |segs| then segs[..Needed(len)] else segs, segs', if len < size then len else size)
    ensures ZeroTail(segs', size) && ZeroTail(segs', len)
    ensures Flat(segs', len) == Resize(Flat(segs, size), len)
    ensures len >= size ==> Flat(segs', size) == Flat(segs, size)
  {
    var keep, cut := Needed(len), if len < size then len else size;
    var dropped := if keep < |segs| then segs[..keep] else segs;
    forall i: nat ensures ByteAt(segs', i) == if i < len then ByteAt(segs, i) else 0 {
      if keep < |segs| { ByteAfterDrop(segs, keep, i); }
      assert i < len ==> i / SEG < keep;
      assert i >= len && i / SEG != len / SEG ==> i / SEG >= keep;
    }
    hide ByteAt, CutAt, Needed;
    ResizeIs(segs, size, segs', len);
    if len >= size { SameContent(Flat(segs', size), Flat(segs, size)); }
  }

  /** The segments hold the beginning of `src`. */
  ghost predicate Window(segs: Segments, src: Content) {
    forall i: nat :: ByteAt(segs, i) == if i / SEG < |segs| then At(src, i) else 0
  }

  lemma NextWindow(segs: Segments, src: Content, plain: Content)
    requires Window(segs, src) && forall k: nat :: k < SEG ==> At(plain, k) == At(src, |segs| * SEG + k)
    ensures Window(Put(segs, |segs|, plain), src)
  {
    forall i: nat ensures ByteAt(Put(segs, |segs|, plain), i) == if i / SEG < |segs| + 1 then At(src, i) else 0 {
      ByteAfterPut(segs, |segs|, plain, i);
      if i / SEG == |segs| { assert i == |segs| * SEG + i % SEG; }
    }
  }

  lemma WindowTail(segs: Segments, src: Content)
    requires Window(segs, src)
    ensures ZeroTail(segs, |src|)
  {
  }

  lemma WindowsAll(segs: Segments, src: Content)
    requires Window(segs, src) && |segs| == Needed(|src|)
    ensures ZeroTail(segs, |src|) && Flat(segs, |src|) == src
  {
    forall i: nat ensures ByteAt(segs, i) == At(src, i) {
      assert i < |src| ==> i / SEG < |segs|;
    }
    hide ByteAt, Window;
    SameContent(Flat(segs, |src|), src);
  }

  // ---- how far the stored segments cover the file ----

  /** The segments that are stored short of their 64K. */
  ghost function Shorts(segs: Segments): set<nat> {
    set j: nat | j < |segs| && |segs[j]| < SEG
  }

  /** Every segment the file needs is stored. */
  ghost predicate Reaches(segs: Segments, size: nat) {
    Needed(size) <= |segs|
  }

  lemma PutShorts(segs: Segments, j: nat, plain: Content)
    requires |plain| == SEG && j <= |segs|
    ensures Shorts(Put(segs, j, plain)) == Shorts(segs) - {j}
  {
  }

  lemma PutReaches(segs: Segments, size: nat, j: nat, plain: Content, end: nat)
    requires j <= |segs| && end <= j * SEG + SEG
    ensures Reaches(segs, size) ==> Reaches(Put(segs, j, plain), Max(size, end))
  {
  }

  /** The segment that `cut` falls into is stored whole, the others keep their lengths. */
  ghost predicate CutWhole(segs: Segments, segs': Segments, cut: nat) {
    |segs'| == |segs| &&
    forall j :: 0 <= j < |segs| ==> |segs'[j]| == if cut % SEG != 0 && j == cut / SEG then SEG else |segs[j]|
  }

  /** The short segments that a change of size leaves: those that are kept, but for the one
      that the shorter end falls into. */
  ghost function CutShorts(shorts: set<nat>, size: nat, len: nat): set<nat> {
    if len == size then shorts
    else
      var cut := if len < size then len else size;
      set j | j in shorts && j < Needed(len) && !(cut % SEG != 0 && j == cut / SEG)
  }

  lemma CutLeavesShorts(segs: Segments, size: nat, len: nat, segs': Segments)
    requires SegmentsOk(segs) && len != size
    requires CutWhole(if Needed(len) < |segs| then segs[..Needed(len)] else segs,
                      segs', if len < size then len else size)
    ensures Shorts(segs') == CutShorts(Shorts(segs), size, len)
  {
  }
}
