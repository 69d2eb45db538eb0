/** File content as a byte string, with the two operations every writer of the
    volume is specified by: the zero-extending splice and the resize. */
module Bytes {

  newtype byte = x: int | 0 <= x < 256

  type Content = seq<byte>

  /** The byte at `i`; everything past the end of a file reads as zero. */
  function At(s: Content, i: nat): byte {
    if i < |s| then s[i] else 0
  }

  /** `r` is `s` with `[off, off + |d|)` overwritten by `d` and any gap before
      `off` filled with zeros. Splicing nothing changes nothing, not even the length. */
  ghost predicate IsSplice(r: Content, s: Content, off: nat, d: Content) {
    if d == [] then r == s
    else
      && |r| == (if |s| < off + |d| then off + |d| else |s|)
      && forall i: nat :: At(r, i) == if off <= i < off + |d| then d[i - off] else At(s, i)
  }

  /** Contents of one length that read the same everywhere are the same. */
  lemma SameContent(r: Content, q: Content)
    requires |r| == |q| && forall i: nat :: i < |r| ==> At(r, i) == At(q, i)
    ensures r == q
  {
    forall i: nat | i < |r| ensures r[i] == q[i] {
      assert At(r, i) == At(q, i);
    }
  }

  function SpliceBytes(s: Content, off: nat, d: Content): (r: Content)
    ensures IsSplice(r, s, off, d)
    ensures r == Splice(s, off, d)
  {
    var r := if d == [] then s
             else seq(if |s| < off + |d| then off + |d| else |s|,
                      i requires 0 <= i => if off <= i < off + |d| then d[i - off] else At(s, i));
    SpliceUnique(r, Splice(s, off, d), s, off, d);
    r
  }

  /** The zero-extending splice. */
  ghost function Splice(s: Content, off: nat, d: Content): (r: Content)
    ensures IsSplice(r, s, off, d)
  {
    SpliceExists(s, off, d);
    var r :| IsSplice(r, s, off, d); r
  }

  lemma SpliceExists(s: Content, off: nat, d: Content)
    ensures exists r :: IsSplice(r, s, off, d)
  {
    if d != [] {
      var r := seq(if |s| < off + |d| then off + |d| else |s|,
                   i requires 0 <= i => if off <= i < off + |d| then d[i - off] else At(s, i));
      assert IsSplice(r, s, off, d);
    } else {
      assert IsSplice(s, s, off, d);
    }
  }

  lemma SpliceUnique(r: Content, q: Content, s: Content, off: nat, d: Content)
    requires IsSplice(r, s, off, d) && IsSplice(q, s, off, d)
    ensures r == q
  {
    SameContent(r, q);
  }

  ghost predicate IsResize(r: Content, s: Content, n: nat) {
    |r| == n && forall i: nat :: At(r, i) == if i < n then At(s, i) else 0
  }

  /** Cut to `n` bytes, or extend to `n` bytes with zeros. */
  ghost function Resize(s: Content, n: nat): (r: Content)
    ensures IsResize(r, s, n)
  {
    assert IsResize(seq(n, i requires 0 <= i => At(s, i)), s, n);
    var r :| IsResize(r, s, n); r
  }

  function ResizeBytes(s: Content, n: nat): (r: Content)
    ensures IsResize(r, s, n)
    ensures r == Resize(s, n)
  {
    var r := seq(n, i requires 0 <= i => At(s, i));
    SameContent(r, Resize(s, n));
    r
  }

  /** The bytes a read of `n` bytes at `off` returns: short at the end of the file. */
  function Slice(s: Content, off: nat, n: nat): (r: Content)
    ensures |r| == if off >= |s| then 0 else if off + n > |s| then |s| - off else n
    ensures forall i: nat :: i < |r| ==> r[i] == s[off + i]
  {
    if off >= |s| then [] else if off + n > |s| then s[off..] else s[off..off + n]
  }

  /** Writing `a` and then `b` right behind it is writing `a + b`. */
  lemma SpliceAppend(s: Content, off: nat, a: Content, b: Content)
    ensures Splice(Splice(s, off, a), off + |a|, b) == Splice(s, off, a + b)
  {
    if a == [] {
      assert a + b == b;
    } else if b == [] {
      assert a + b == a;
    } else {
      var l, r := Splice(Splice(s, off, a), off + |a|, b), Splice(s, off, a + b);
      SameContent(l, r);
    }
  }

  /** Applying any prefix of a splice first changes nothing: re-driving a
      partially applied window is idempotent. */
  lemma SplicePrefixThenAll(s: Content, off: nat, d: Content, k: nat)
    requires k <= |d|
    ensures Splice(Splice(s, off, d[..k]), off, d) == Splice(s, off, d)
  {
    var l, r := Splice(Splice(s, off, d[..k]), off, d), Splice(s, off, d);
    SameContent(l, r);
  }

  /** `b` overlaid with bytes `[lo, hi)` of a buffer that maps to offset `at`. */
  ghost function Overlay(b: Content, at: nat, buf: Content, lo: nat, hi: nat): Content
    requires lo < hi ==> hi <= |buf|
  {
    if lo < hi then Splice(b, at + lo, buf[lo..hi]) else b
  }

  lemma WidenWindow(b: Content, at: nat, buf: Content, lo: nat, hi: nat, soff: nat, piece: Content, lo': nat, hi': nat)
    requires lo < hi <= |buf| && piece != [] && soff + |piece| <= |buf|
    requires soff <= hi && lo <= soff + |piece|
    requires lo' == if lo <= soff then lo else soff
    requires hi' == if soff + |piece| <= hi then hi else soff + |piece|
    ensures Splice(b, at + lo', Splice(buf, soff, piece)[lo'..hi'])
            == Splice(Splice(b, at + lo, buf[lo..hi]), at + soff, piece)
  {
    var buf' := Splice(buf, soff, piece);
    var l, r := Splice(b, at + lo', buf'[lo'..hi']), Splice(Splice(b, at + lo, buf[lo..hi]), at + soff, piece);
    forall i: nat | i < |l| ensures At(l, i) == At(r, i) {
      assert at <= i ==>
        At(buf', i - at) == if soff <= i - at < soff + |piece| then piece[i - at - soff] else At(buf, i - at);
    }
    SameContent(l, r);
  }

  lemma StartWindow(b: Content, at: nat, buf: Content, soff: nat, piece: Content, lo': nat, hi': nat)
    requires piece != [] && soff + |piece| <= |buf| && lo' == soff && hi' == soff + |piece|
    ensures Splice(b, at + lo', Splice(buf, soff, piece)[lo'..hi']) == Splice(b, at + soff, piece)
  {
    var buf' := Splice(buf, soff, piece);
    var l, r := Splice(b, at + lo', buf'[lo'..hi']), Splice(b, at + soff, piece);
    forall i: nat | i < |l| ensures At(l, i) == At(r, i) {
      assert at + lo' <= i < at + hi' ==> At(buf', i - at) == piece[i - at - soff];
    }
    SameContent(l, r);
  }

  /** Copying a piece into the buffer and widening the window to cover both (or
      starting a window with it) is splicing the piece over the old overlay. */
  lemma GrowWindow(b: Content, at: nat, buf: Content, lo: nat, hi: nat, soff: nat, piece: Content, lo': nat, hi': nat)
    requires lo < hi ==> hi <= |buf| && soff <= hi && lo <= soff + |piece|
    requires piece != [] && soff + |piece| <= |buf|
    requires lo' == if lo < hi && lo <= soff then lo else soff
    requires hi' == if lo < hi && soff + |piece| <= hi then hi else soff + |piece|
    ensures Overlay(b, at, Splice(buf, soff, piece), lo', hi')
            == Splice(Overlay(b, at, buf, lo, hi), at + soff, piece)
  {
    if lo < hi {
      WidenWindow(b, at, buf, lo, hi, soff, piece, lo', hi');
    } else {
      StartWindow(b, at, buf, soff, piece, lo', hi');
    }
  }
}
