/** A committed file: one entry for each 64K segment, and the ranged read that refuses a
    range its entries do not cover. */
module StoredFile {
  import opened Options
  import opened Bytes
  import opened SegmentMap

  datatype FileRec = FileRec(segs: Segments, size: nat)

  /** No entry reaches past its segment or past the end of the file. */
  ghost predicate FileOk(f: FileRec) {
    SegmentsOk(f.segs) && forall j :: 0 <= j < |f.segs| ==> j * SEG + |f.segs[j]| <= f.size
  }

  type File = f: FileRec | FileOk(f) witness FileRec([], 0)

  ghost function FileBytes(f: FileRec): Content { Flat(f.segs, f.size) }

  /** Some entry holds the byte at `i`. */
  predicate Covered(f: FileRec, i: nat) {
    i / SEG < |f.segs| && i % SEG < |f.segs[i / SEG]|
  }

  ghost predicate Tiled(f: FileRec) {
    |f.segs| == Needed(f.size) && forall i: nat :: i < f.size ==> Covered(f, i)
  }

  /** Where entry `j` ends. */
  function EntryEnd(f: FileRec, j: nat): nat
    requires j < |f.segs|
  {
    j * SEG + |f.segs[j]|
  }

  /** The first entry that ends after `off`; of at most eight entries the very first. */
  method FirstEntry(f: File, off: nat) returns (l: nat)
    ensures l <= |f.segs| && forall j :: 0 <= j < l ==> EntryEnd(f, j) <= off
    ensures |f.segs| <= 8 ==> l == 0
    ensures |f.segs| > 8 && l < |f.segs| ==> EntryEnd(f, l) > off
  {
    l := 0;
    var r := |f.segs|;
    if r <= 8 { return; }
    while l < r
      invariant l <= r <= |f.segs| && forall j :: 0 <= j < l ==> EntryEnd(f, j) <= off
      invariant r < |f.segs| ==> EntryEnd(f, r) > off
    {
      var m := l + (r - l) / 2;
      if EntryEnd(f, m) <= off {
        forall j | 0 <= j <= m ensures EntryEnd(f, j) <= off {
          assert EntryEnd(f, j) <= EntryEnd(f, m);
        }
        l := m + 1;
      } else {
        r := m;
      }
    }
  }

  function Min(a: nat, b: nat): nat { if a < b then a else b }

  function Clamp(x: nat, lo: nat, hi: nat): nat
    requires lo <= hi
  {
    if x < lo then lo else if x > hi then hi else x
  }

  /** Bytes `[off, p)` are copied where an entry covers them, and `got` counts them: it is all
      of them exactly when every one is covered. */
  ghost predicate Copied(f: FileRec, off: nat, p: nat, buf: Content, got: nat)
    requires off <= p <= off + |buf|
  {
    && got <= p - off
    && (got == p - off <==> forall i: nat :: off <= i < p ==> Covered(f, i))
    && forall x: nat :: x < p - off && Covered(f, off + x) ==> buf[x] == ByteAt(f.segs, off + x)
  }

  /** `buf'` is `buf` with the file's bytes `[lo, hi)` copied in. */
  ghost predicate CopiedIn(f: FileRec, off: nat, buf: Content, buf': Content, lo: nat, hi: nat) {
    |buf'| == |buf| &&
    forall x: nat :: x < |buf| ==> buf'[x] == if lo <= off + x < hi then ByteAt(f.segs, off + x) else buf[x]
  }

  /** The part of entry `j` inside `[off, end)` is copied, and that settles every byte up to
      the end of its segment. */
  lemma CopyEntry(f: File, off: nat, end: nat, j: nat, buf: Content, got: nat, buf': Content)
    requires off <= end == off + |buf| && j < |f.segs| && j * SEG < end
    requires Copied(f, off, Clamp(j * SEG, off, end), buf, got)
    requires CopiedIn(f, off, buf, buf', Clamp(j * SEG, off, end), Clamp(EntryEnd(f, j), off, end))
    ensures var lo, hi := Clamp(j * SEG, off, end), Clamp(EntryEnd(f, j), off, end);
      lo <= hi && Copied(f, off, Clamp((j + 1) * SEG, off, end), buf', got + (hi - lo))
  {
    var lo, hi, p := Clamp(j * SEG, off, end), Clamp(EntryEnd(f, j), off, end), Clamp((j + 1) * SEG, off, end);
    assert lo <= hi <= p;
    forall i: nat | lo <= i < p ensures Covered(f, i) <==> i < hi {
      assert i / SEG == j && i == j * SEG + i % SEG;
    }
    if hi < p { assert !Covered(f, hi); }
  }

  lemma CopyPiece(f: File, off: nat, j: nat, buf: Content, lo: nat, hi: nat)
    requires j < |f.segs| && off <= lo < hi <= off + |buf| && j * SEG <= lo && hi <= EntryEnd(f, j)
    ensures CopiedIn(f, off, buf, Splice(buf, lo - off, f.segs[j][lo - j * SEG..hi - j * SEG]), lo, hi)
  {
    var piece := f.segs[j][lo - j * SEG..hi - j * SEG];
    var r := Splice(buf, lo - off, piece);
    forall x: nat | x < |buf| ensures r[x] == if lo <= off + x < hi then ByteAt(f.segs, off + x) else buf[x] {
      var i := off + x;
      assert At(r, x) == if lo <= i < hi then piece[i - lo] else At(buf, x);
      if lo <= i < hi { assert i / SEG == j && i % SEG == i - j * SEG; }
    }
  }

  lemma CopyStart(f: File, off: nat, end: nat, j: nat, buf: Content)
    requires off <= end == off + |buf| && j <= |f.segs| && forall m :: 0 <= m < j ==> EntryEnd(f, m) <= off
    ensures Copied(f, off, Clamp(j * SEG, off, end), buf, 0)
  {
    var p := Clamp(j * SEG, off, end);
    forall i: nat | off <= i < p ensures !Covered(f, i) {
      assert i == (i / SEG) * SEG + i % SEG && EntryEnd(f, i / SEG) <= off;
    }
    if off < p { assert !Covered(f, off); }
  }

  lemma CopyEnd(f: File, off: nat, end: nat, j: nat, buf: Content, got: nat)
    requires off <= end == off + |buf| && j <= |f.segs| && (j < |f.segs| ==> j * SEG >= end)
    requires Copied(f, off, Clamp(j * SEG, off, end), buf, got)
    ensures Copied(f, off, end, buf, got)
  {
    var p := Clamp(j * SEG, off, end);
    forall i: nat | p <= i < end ensures !Covered(f, i) { assert i / SEG >= j; }
    if p < end { assert !Covered(f, p); }
  }

  /** One turn of the copy loop. */
  method CopyPart(f: File, off: nat, end: nat, j: nat, buf: Content, got: nat) returns (buf': Content, got': nat)
    requires off <= end == off + |buf| && j < |f.segs| && j * SEG < end
    requires Copied(f, off, Clamp(j * SEG, off, end), buf, got)
    ensures |buf'| == |buf| && Copied(f, off, Clamp((j + 1) * SEG, off, end), buf', got')
  {
    var lo, hi := Clamp(j * SEG, off, end), Clamp(EntryEnd(f, j), off, end);
    buf', got' := buf, got;
    if lo < hi {
      CopyPiece(f, off, j, buf, lo, hi);
      hide Copied, CopiedIn, Splice, IsSplice;
      buf', got' := SpliceBytes(buf, lo - off, f.segs[j][lo - j * SEG..hi - j * SEG]), got + (hi - lo);
    }
    CopyEntry(f, off, end, j, buf, got, buf');
  }

  /** read_range: all of the range, or nothing if its entries leave any of it out. */
  method ReadRange(f: File, off: nat, n: nat) returns (r: Option<Content>)
    ensures r.Some? <==> forall i: nat :: off <= i < off + |Slice(FileBytes(f), off, n)| ==> Covered(f, i)
    ensures r.Some? ==> r.value == Slice(FileBytes(f), off, n)
  {
    if off >= f.size { return Some([]); }
    var len := if n > f.size - off then f.size - off else n;
    var buf, got: nat, end := ResizeBytes([], len), 0, off + len;
    var j := FirstEntry(f, off);
    hide Clamp, EntryEnd, ResizeBytes;
    CopyStart(f, off, end, j, buf);
    while j < |f.segs| && j * SEG < end
      invariant j <= |f.segs| && |buf| == len
      invariant Copied(f, off, Clamp(j * SEG, off, end), buf, got)
      decreases |f.segs| - j
    {
      hide Copied;
      buf, got := CopyPart(f, off, end, j, buf, got);
      j := j + 1;
    }
    CopyEnd(f, off, end, j, buf, got);
    r := if got == len then Some(buf) else None;
    if got == len { AllCopied(f, off, buf); }
  }

  lemma AllCopied(f: File, off: nat, buf: Content)
    requires off + |buf| <= f.size && Copied(f, off, off + |buf|, buf, |buf|)
    ensures buf == FileBytes(f)[off..off + |buf|]
  {
    forall i: nat | i < |buf| ensures buf[i] == FileBytes(f)[off + i] {
      assert Covered(f, off + i);
      assert buf[i] == ByteAt(f.segs, off + i) == At(FileBytes(f), off + i);
    }
  }

  /** A tiled file is read whole. */
  lemma TiledReads(f: File, off: nat, n: nat)
    requires Tiled(f)
    ensures forall i: nat :: off <= i < off + |Slice(FileBytes(f), off, n)| ==> Covered(f, i)
  {
  }

  /** A file of `size` bytes that is stored tightly has a short last segment or none. */
  ghost function SizeShorts(size: nat): set<nat> {
    if size % SEG == 0 then {} else {(size - 1) / SEG}
  }

  lemma TiledShorts(f: File)
    requires Tiled(f)
    ensures Shorts(f.segs) == SizeShorts(f.size) && Reaches(f.segs, f.size)
  {
    forall j | 0 <= j < |f.segs| - 1 ensures |f.segs[j]| == SEG {
      assert Covered(f, j * SEG + SEG - 1);
    }
    if f.size > 0 { assert Covered(f, f.size - 1); }
  }

  lemma OkZeroTail(f: File)
    ensures ZeroTail(f.segs, f.size)
  {
    forall i: nat | f.size <= i ensures ByteAt(f.segs, i) == 0 {
      if i / SEG < |f.segs| { assert i == (i / SEG) * SEG + i % SEG; }
    }
  }

  /** The file needs no segment that is missing, and none but the last that is short. */
  ghost predicate NoGap(segs: Segments, size: nat) {
    |segs| >= Needed(size) && forall j :: 0 <= j < Needed(size) - 1 ==> |segs[j]| == SEG
  }

  /** What a commit makes of the stored segments: those the file needs, the last of them cut or
      padded to where the file ends. */
  ghost predicate Trimmed(segs: Segments, size: nat, f: FileRec) {
    && f.size == size && |f.segs| == Min(|segs|, Needed(size))
    && (forall j :: 0 <= j < |f.segs| - 1 ==> f.segs[j] == segs[j])
    && (f.segs != [] ==>
          var j := |f.segs| - 1;
          && |f.segs[j]| == Min(size - j * SEG, SEG)
          && forall k: nat :: k < |f.segs[j]| ==> f.segs[j][k] == At(segs[j], k))
  }

  lemma TrimmedLast(segs: Segments, size: nat, last: Content, f: FileRec)
    requires segs != [] && |segs| == Needed(size) && f == FileRec(segs[|segs| - 1 := last], size)
    requires |last| == Min(size - (|segs| - 1) * SEG, SEG)
    requires forall k: nat :: k < |last| ==> last[k] == At(segs[|segs| - 1], k)
    ensures Trimmed(segs, size, f)
  {
  }

  /** The commit keeps the file's bytes, and its entries tile the file exactly when there was
      no gap. */
  lemma TrimmedFile(segs: Segments, size: nat, f: FileRec)
    requires SegmentsOk(segs) && ZeroTail(segs, size) && Trimmed(segs, size, f)
    ensures FileOk(f) && FileBytes(f) == Flat(segs, size) && (Tiled(f) <==> NoGap(segs, size))
  {
    var n := |f.segs|;
    forall i: nat | i < size ensures ByteAt(f.segs, i) == ByteAt(segs, i) {
      assert i == (i / SEG) * SEG + i % SEG;
      if i / SEG == n - 1 && i % SEG < |f.segs[n - 1]| { assert f.segs[n - 1][i % SEG] == At(segs[n - 1], i % SEG); }
    }
    SameContent(FileBytes(f), Flat(segs, size));
    TrimmedTiles(segs, size, f);
  }

  lemma TrimmedTiles(segs: Segments, size: nat, f: FileRec)
    requires SegmentsOk(segs) && Trimmed(segs, size, f)
    ensures Tiled(f) <==> NoGap(segs, size)
  {
    var n := |f.segs|;
    if NoGap(segs, size) {
      forall i: nat | i < size ensures Covered(f, i) { assert i == (i / SEG) * SEG + i % SEG; }
    } else if n == Needed(size) {
      var j :| 0 <= j < n - 1 && |segs[j]| != SEG;
      assert !Covered(f, j * SEG + SEG - 1);
    }
  }

  lemma NoGapIff(segs: Segments, size: nat)
    requires SegmentsOk(segs)
    ensures NoGap(segs, size) <==> Reaches(segs, size) && forall j :: j in Shorts(segs) ==> Needed(size) <= j + 1
  {
    if Reaches(segs, size) && !NoGap(segs, size) {
      var j :| 0 <= j < Needed(size) - 1 && |segs[j]| != SEG;
      assert j in Shorts(segs);
    }
  }
}
