/** The recipe of a file in the making: segments grouped into children of equal span, of
    which one at a time is open and the others are sealed. */
module ChildRecipe {
  import opened Bytes
  import opened SegmentMap

  /** First segment of child `c` when each child spans `n`. */
  function Start(c: nat, n: nat): nat { c * n }

  /** The segment that offset `i` falls into, and the offset inside it. */
  function SegOf(i: nat): nat { i / 65536 }

  function OffsetIn(i: nat): nat { i % 65536 }

  lemma SegmentOffset(i: nat)
    ensures i == SegOf(i) * SEG + OffsetIn(i) && OffsetIn(i) < SEG
  {
  }

  // ---- the format's bounds ----

  const MAX_FILE_SIZE: nat := 0x1_0000_0000_0000
  const MAX_TOP_ENTRIES: nat := 0x100_0000
  const CHILD_SEGS_MAX: nat := 0x20_0000

  /** A write past the bound on file size or on entries of the top recipe. */
  predicate TooBig(n: nat, off: nat, len: nat)
    requires n > 0 && len > 0
  {
    off + len > MAX_FILE_SIZE || (SegOf(off + len - 1) + n) / n > MAX_TOP_ENTRIES
  }

  /** A length past one of them. */
  predicate TooLong(n: nat, len: nat)
    requires n > 0
  {
    len > MAX_FILE_SIZE || (len + n * SEG - 1) / (n * SEG) > MAX_TOP_ENTRIES
  }

  lemma QuotientOver(x: nat, d: nat, m: nat)
    requires d > 0
    ensures x / d >= m <==> x >= m * d
  {
    var q := x / d;
    assert x == q * d + x % d;
    if q >= m { assert q * d >= m * d; } else { assert (q + 1) * d <= m * d; }
  }

  lemma CeilOver(x: nat, d: nat, m: nat)
    requires d > 0
    ensures (x + d - 1) / d > m <==> x > m * d
  {
    QuotientOver(x + d - 1, d, m + 1);
    assert (m + 1) * d == m * d + d;
  }

  /** A write and a resize are refused at the same length: past 2^48 bytes, or past what
      2^24 children of `n` segments of 64 KiB hold. */
  lemma BoundIs(n: nat, off: nat, len: nat)
    requires n > 0 && len > 0
    ensures TooBig(n, off, len) <==> off + len > 281474976710656 || off + len > 16777216 * (n * 65536)
    ensures TooBig(n, off, len) <==> TooLong(n, off + len)
  {
    var e := off + len;
    CeilOver(e, n * SEG, MAX_TOP_ENTRIES);
    QuotientOver(SegOf(e - 1) + n, n, MAX_TOP_ENTRIES + 1);
    QuotientOver(e - 1, 65536, MAX_TOP_ENTRIES * n);
    assert (MAX_TOP_ENTRIES + 1) * n == MAX_TOP_ENTRIES * n + n;
  }

  /** The next piece ends at the end of its segment or of the data. */
  function NextEnd(off: nat, len: nat, n: nat): (m: nat)
    requires n < len
    ensures n < m <= len && OffsetIn(off + n) + (m - n) <= SEG
    ensures m < len ==>
      OffsetIn(off + n) + (m - n) == SEG && OffsetIn(off + m) == 0 && SegOf(off + m) == SegOf(off + n) + 1
    ensures SegOf(off + m - 1) == SegOf(off + n)
  {
    var left := SEG - OffsetIn(off + n);
    if left < len - n then n + left else len
  }

  /** The child that segment `j` belongs to, and its place there. */
  function ChildOf(j: nat, n: nat): nat
    requires n > 0
  {
    j / n
  }

  function Place(j: nat, n: nat): nat
    requires n > 0
  {
    j % n
  }

  lemma Split(j: nat, n: nat)
    requires n > 0
    ensures j == Start(ChildOf(j, n), n) + Place(j, n) && Place(j, n) < n
  {
  }

  lemma StartNext(c: nat, n: nat)
    ensures Start(c + 1, n) == Start(c, n) + n
  {
  }

  lemma {:induction false} StartOrder(a: nat, b: nat, n: nat)
    requires a < b
    ensures Start(a, n) + n <= Start(b, n)
    decreases b
  {
    assert Start(b, n) == Start(b - 1, n) + n;
    if a < b - 1 { StartOrder(a, b - 1, n); }
  }

  lemma ChildOrder(i: nat, j: nat, n: nat)
    requires n > 0 && i <= j
    ensures ChildOf(i, n) <= ChildOf(j, n)
  {
    Split(i, n);
    Split(j, n);
    if ChildOf(j, n) < ChildOf(i, n) { StartOrder(ChildOf(j, n), ChildOf(i, n), n); }
  }

  lemma StartsBefore(c: nat, j: nat, n: nat)
    requires n > 0 && Start(c, n) <= j
    ensures c <= ChildOf(j, n)
  {
    Split(j, n);
    if ChildOf(j, n) < c { StartOrder(ChildOf(j, n), c, n); }
  }

  lemma FirstChild(j: nat, n: nat)
    requires n > 0
    ensures j < n ==> ChildOf(j, n) == 0
  {
    Split(j, n);
    if ChildOf(j, n) > 0 { StartOrder(0, ChildOf(j, n), n); }
  }

  /** The segments of child `c`. */
  ghost function Child(segs: Segments, n: nat, c: nat): Segments {
    var lo := Start(c, n);
    if lo >= |segs| then [] else if lo + n <= |segs| then segs[lo..lo + n] else segs[lo..]
  }

  /** Segment `j` is segment `Place(j, n)` of child `ChildOf(j, n)`. */
  lemma ChildIndex(segs: Segments, n: nat, j: nat)
    requires n > 0
    ensures j < |segs| <==> Place(j, n) < |Child(segs, n, ChildOf(j, n))|
    ensures j < |segs| ==> Child(segs, n, ChildOf(j, n))[Place(j, n)] == segs[j]
    ensures j == |segs| ==> Place(j, n) == |Child(segs, n, ChildOf(j, n))|
  {
    Split(j, n);
    hide Start, ChildOf, Place;
  }

  /** Storing a segment changes its child and no other. */
  lemma PutInChild(segs: Segments, n: nat, j: nat, plain: Content)
    requires n > 0 && j <= |segs|
    ensures Place(j, n) <= |Child(segs, n, ChildOf(j, n))|
    ensures Child(Put(segs, j, plain), n, ChildOf(j, n)) == Put(Child(segs, n, ChildOf(j, n)), Place(j, n), plain)
  {
    Split(j, n);
    hide Start, ChildOf, Place;
    ChildIndex(segs, n, j);
    var c, lo, k := ChildOf(j, n), Start(ChildOf(j, n), n), Place(j, n);
    assert Child(Put(segs, j, plain), n, c) == Put(Child(segs, n, c), k, plain);
  }

  lemma PutElsewhere(segs: Segments, n: nat, j: nat, plain: Content, c: nat)
    requires n > 0 && j <= |segs| && c != ChildOf(j, n)
    ensures Child(Put(segs, j, plain), n, c) == Child(segs, n, c)
  {
    Split(j, n);
    if c < ChildOf(j, n) { StartOrder(c, ChildOf(j, n), n); } else { StartOrder(ChildOf(j, n), c, n); }
    hide Start, ChildOf, Place;
    var lo, segs' := Start(c, n), Put(segs, j, plain);
    if c < ChildOf(j, n) {
      assert segs'[lo..lo + n] == segs[lo..lo + n];
    } else if lo < |segs| {
      assert segs'[lo..] == segs[lo..];
    }
  }

  // ---- one open child, the others sealed ----

  /** The recipe under construction: which child is open, its entries, the sealed ones, and
      the length that the top recipe gives each of these. */
  datatype Recipe = Recipe(cur: nat, ents: Segments, chld: seq<Segments>, tops: seq<nat>)

  /** The part of a file of `size` bytes that falls into child `c`. */
  function TopLength(c: nat, n: nat, size: nat): nat {
    var lo := Start(c, n) * SEG;
    if size <= lo then 0 else if size - lo < n * SEG then size - lo else n * SEG
  }

  /** Where the first `k` children start. */
  function Offsets(n: nat, k: nat): seq<nat> {
    seq(k, c requires 0 <= c => Start(c, n) * SEG)
  }

  /** No sealed child is shorter in the top recipe than a child can be. */
  ghost predicate Tall(r: Recipe, n: nat) {
    forall c :: 0 <= c < |r.tops| ==> r.tops[c] == n * SEG
  }

  /** The recipe is a filing of `segs`: the open child has its entries, every other child up
      to the last sealed one is sealed with its entries, and no segment lies past them. */
  ghost predicate Files(r: Recipe, n: nat, segs: Segments) {
    && r.cur <= |r.chld| == |r.tops| && r.ents == Child(segs, n, r.cur) && (r.cur < |r.chld| ==> r.ents != [])
    && Start(r.cur, n) <= |segs| <= Start(Max(|r.chld|, r.cur + 1), n)
    && (forall c :: 0 <= c < |r.chld| && c != r.cur ==> r.chld[c] == Child(segs, n, c) && r.chld[c] != [])
    && forall c :: 0 <= c < |r.tops| ==> r.tops[c] <= n * SEG
  }

  /** Sealing the open child, if it has entries. */
  function Sealed(r: Recipe): seq<Segments>
    requires r.cur <= |r.chld|
  {
    if r.ents == [] then r.chld else if r.cur < |r.chld| then r.chld[r.cur := r.ents] else r.chld + [r.ents]
  }

  /** A child gets its length when it is first sealed, and keeps it. */
  function SealedTops(r: Recipe, n: nat, size: nat): seq<nat> {
    if r.ents == [] || r.cur < |r.chld| then r.tops else r.tops + [TopLength(r.cur, n, size)]
  }

  /** Opening child `c`: sealed content is loaded, a new child starts empty. */
  function Opened(r: Recipe, c: nat, n: nat, size: nat): Recipe
    requires r.cur <= |r.chld|
  {
    if c == r.cur then r
    else Recipe(c, if c < |Sealed(r)| then Sealed(r)[c] else [], Sealed(r), SealedTops(r, n, size))
  }

  /** A child that the file fills when it is left is sealed at its full length. */
  lemma OpenedTall(r: Recipe, c: nat, n: nat, size: nat)
    requires r.cur <= |r.chld| && r.cur <= c && Tall(r, n) && Start(c, n) * SEG <= size
    ensures Tall(Opened(r, c, n, size), n)
  {
    if r.cur < c { StartOrder(r.cur, c, n); }
  }

  lemma SealedFiles(r: Recipe, n: nat, segs: Segments)
    requires n > 0 && Files(r, n, segs)
    ensures |segs| <= Start(|Sealed(r)|, n)
    ensures forall c :: 0 <= c < |Sealed(r)| ==> Sealed(r)[c] == Child(segs, n, c) && Sealed(r)[c] != []
  {
    if r.ents == [] {
      assert |segs| <= Start(r.cur, n);
    }
  }

  /** A child that the file does not fill when it is left is sealed short, and stays so. */
  lemma OpenedShort(r: Recipe, c: nat, n: nat, segs: Segments, size: nat)
    requires n > 0 && Files(r, n, segs) && r.cur == |r.chld| && r.cur <= c && Start(c, n) <= |segs|
    requires !Tall(r, n) || (r.cur < c && size < Start(c, n) * SEG)
    ensures !Tall(Opened(r, c, n, size), n)
  {
    var o := Opened(r, c, n, size);
    if !Tall(r, n) {
      var k :| 0 <= k < |r.tops| && r.tops[k] != n * SEG;
      assert o.tops[k] == r.tops[k];
    } else {
      StartNext(r.cur, n);
      if r.cur + 1 < c { StartOrder(r.cur + 1, c, n); }
      assert r.ents != [] && c == r.cur + 1;
      assert o.tops[r.cur] == TopLength(r.cur, n, size) < n * SEG;
    }
  }

  /** Opening any child that starts within the file keeps the filing. */
  lemma OpenedFiles(r: Recipe, n: nat, segs: Segments, c: nat, size: nat)
    requires n > 0 && Files(r, n, segs) && Start(c, n) <= |segs|
    ensures r.cur <= |r.chld| && Files(Opened(r, c, n, size), n, segs) && Opened(r, c, n, size).cur == c
  {
    if c != r.cur {
      SealedFiles(r, n, segs);
      var k := |Sealed(r)|;
      if k < c { StartOrder(k, c, n); }
      if k == c { StartOrder(c, c + 1, n); }
      hide ChildOf, Place, Start, Sealed;
    }
  }

  lemma StoredEnd(r: Recipe, n: nat, segs: Segments, j: nat, plain: Content)
    requires n > 0 && Files(r, n, segs) && r.cur == ChildOf(j, n) && j <= |segs|
    ensures Start(r.cur, n) <= |Put(segs, j, plain)| <= Start(Max(|r.chld|, r.cur + 1), n)
  {
    Split(j, n);
    StartOrder(r.cur, r.cur + 1, n);
    if r.cur + 1 < |r.chld| { StartOrder(r.cur + 1, |r.chld|, n); }
    hide Start, ChildOf, Place, Child;
  }

  /** Storing segment `j` in its open child. */
  lemma StoredFiles(r: Recipe, n: nat, segs: Segments, j: nat, plain: Content)
    requires n > 0 && Files(r, n, segs) && r.cur == ChildOf(j, n) && j <= |segs|
    ensures Place(j, n) <= |r.ents| && Files(r.(ents := Put(r.ents, Place(j, n), plain)), n, Put(segs, j, plain))
  {
    hide Start, Child, ChildOf, Place;
    PutInChild(segs, n, j, plain);
    StoredEnd(r, n, segs, j, plain);
    forall c | 0 <= c < |r.chld| && c != r.cur ensures Child(Put(segs, j, plain), n, c) == Child(segs, n, c) {
      PutElsewhere(segs, n, j, plain, c);
    }
  }

  /** Cutting the last child, which is open, short. */
  lemma DropFiles(r: Recipe, n: nat, segs: Segments, keep: nat)
    requires n > 0 && Files(r, n, segs) && r.cur == |r.chld| && Start(r.cur, n) < keep < Start(r.cur, n) + |r.ents|
    ensures keep <= |segs| && Files(r.(ents := r.ents[..keep - Start(r.cur, n)]), n, segs[..keep])
  {
    var lo := Start(r.cur, n);
    forall c | 0 <= c < |r.chld| ensures Child(segs[..keep], n, c) == Child(segs, n, c) {
      StartOrder(c, r.cur, n);
    }
    hide Start;
    assert Child(segs[..keep], n, r.cur) == r.ents[..keep - lo];
  }
}
