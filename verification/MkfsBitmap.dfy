/** The allocation bitmap the formatter writes, built bit by bit in place. */
module MkfsBitmap {
  import opened Mkfs

  /** 1 << k */
  function Mask(k: nat): bv8
    requires k < 8
  {
    match k
    case 0 => 1 case 1 => 2 case 2 => 4 case 3 => 8
    case 4 => 16 case 5 => 32 case 6 => 64 case _ => 128
  }

  predicate BitOf(x: bv8, k: nat)
    requires k < 8
  {
    x & Mask(k) != 0
  }

  lemma SetBitOf(x: bv8, k: nat, j: nat)
    requires k < 8 && j < 8
    ensures BitOf(x | Mask(k), j) <==> j == k || BitOf(x, j)
  {
  }

  lemma ClearBitOf(x: bv8, k: nat, j: nat)
    requires k < 8 && j < 8
    ensures BitOf(x & !Mask(k), j) <==> j != k && BitOf(x, j)
  {
  }

  predicate Bit(s: seq<bv8>, i: nat)
    requires i < 8 * |s|
  {
    BitOf(s[i / 8], i % 8)
  }

  /** Block `i` is the bit of weight `2^(i mod 8)` of byte `i / 8`. */
  lemma BitIsShifted(s: seq<bv8>, i: nat)
    requires i < 8 * |s|
    ensures Bit(s, i) <==> (s[i / 8] >> (i % 8)) & 1 == 1
  {
    ShiftedBit(s[i / 8], i % 8);
  }

  lemma ShiftedBit(x: bv8, k: nat)
    requires k < 8
    ensures BitOf(x, k) <==> (x >> k) & 1 == 1
  {
    assert k in {0, 1, 2, 3, 4, 5, 6, 7};
  }

  method SetBit(a: array<bv8>, i: nat)
    requires i < 8 * a.Length
    modifies a
    ensures forall j: nat :: j < 8 * a.Length ==> (Bit(a[..], j) <==> j == i || old(Bit(a[..], j)))
  {
    a[i / 8] := a[i / 8] | Mask(i % 8);
    forall j: nat | j < 8 * a.Length ensures Bit(a[..], j) <==> j == i || old(Bit(a[..], j)) {
      if j / 8 == i / 8 { SetBitOf(old(a[i / 8]), i % 8, j % 8); }
    }
  }

  method ClearBit(a: array<bv8>, i: nat)
    requires i < 8 * a.Length
    modifies a
    ensures forall j: nat :: j < 8 * a.Length ==> (Bit(a[..], j) <==> j != i && old(Bit(a[..], j)))
  {
    a[i / 8] := a[i / 8] & !Mask(i % 8);
    forall j: nat | j < 8 * a.Length ensures Bit(a[..], j) <==> j != i && old(Bit(a[..], j)) {
      if j / 8 == i / 8 { ClearBitOf(old(a[i / 8]), i % 8, j % 8); }
    }
  }

  /** The marking loop over `[lo, hi)`. */
  method SetRange(a: array<bv8>, lo: nat, hi: nat)
    requires lo <= hi <= 8 * a.Length
    modifies a
    ensures forall j: nat :: j < 8 * a.Length ==> (Bit(a[..], j) <==> lo <= j < hi || old(Bit(a[..], j)))
  {
    for i := lo to hi
      invariant forall j: nat :: j < 8 * a.Length ==> (Bit(a[..], j) <==> lo <= j < i || old(Bit(a[..], j)))
    {
      SetBit(a, i);
    }
  }

  /** The freeing loop over `[lo, hi)`. */
  method ClearRange(a: array<bv8>, lo: nat, hi: nat)
    requires lo <= hi <= 8 * a.Length
    modifies a
    ensures forall j: nat :: j < 8 * a.Length ==> (Bit(a[..], j) <==> !(lo <= j < hi) && old(Bit(a[..], j)))
  {
    for i := lo to hi
      invariant forall j: nat :: j < 8 * a.Length ==> (Bit(a[..], j) <==> !(lo <= j < i) && old(Bit(a[..], j)))
    {
      ClearBit(a, i);
    }
  }

  function BitmapBytes(total: nat): nat {
    DivCeil(total / 8, 4096) * 4096
  }

  /** The bitmap has a bit for every block exactly when the last partial bitmap block
      does not hold one to seven blocks: the byte count rounds down before it rounds up. */
  lemma BitmapCoversIff(total: nat)
    ensures total <= 8 * BitmapBytes(total) <==> !(1 <= total % 32768 <= 7)
  {
    var q, r := total / 32768, total % 32768;
    assert total == 32768 * q + r;
    assert total / 8 == 4096 * q + r / 8;
    if r < 8 {
      assert r / 8 == 0;
      assert DivCeil(total / 8, 4096) == q;
    } else {
      assert 1 <= r / 8 <= 4095;
      assert DivCeil(total / 8, 4096) == q + 1;
    }
  }

  /** First block past the reserved root pages, which follow bitmap and mapper table. */
  function FreedFrom(l: Layout): nat {
    1 + l.bitmapBlocks + META_EXT_BLOCKS + 2
  }

  /** Which blocks the finished bitmap claims: superblock and metadata, the second
      device's reserved span, less the metadata tail that two-device volumes leave free,
      and always the last block. */
  predicate Claimed(l: Layout, b: nat) {
    || b == l.total - 1
    || ((b <= l.metadata || (l.two && l.dev0 <= b < l.shadowStart)) && !(l.two && FreedFrom(l) <= b < 1 + l.metadata))
  }

  /** What may never be handed out: the superblock, the bitmap, the 32 blocks of the mapper
      table and the two root pages behind it; on one device the whole metadata zone; on two
      whose first holds the metadata, the second's reserved span; and the tail anchor. */
  ghost predicate Reserved(l: Layout, b: nat) {
    || b < 1 + l.bitmapBlocks + 32 + 2
    || (!l.two && b < l.rawStart)
    || (l.two && l.rawStart <= l.dev0 <= b < l.shadowStart)
    || b == l.total - 1
  }

  /** What the allocator draws from: RAW and shadow up to the anchor, and on two devices the
      rest of a metadata zone that lies on the first. */
  ghost predicate Allocatable(l: Layout, b: nat) {
    || (l.rawStart <= b < l.rawStart + l.raw && b != l.total - 1)
    || l.shadowStart <= b < l.total - 1
    || (l.two && l.rawStart <= l.dev0 && 1 + l.bitmapBlocks + 32 + 2 <= b < l.rawStart)
  }

  lemma ClaimedIsReserved(l: Layout, b: nat)
    requires WellLaid(l)
    ensures Reserved(l, b) ==> Claimed(l, b)
    ensures Allocatable(l, b) ==> !Claimed(l, b)
  {
  }

  /** The bitmap of a laid-out volume, for every size whose bitmap has a bit for every
      block. */
  method MarkBitmap(l: Layout) returns (a: array<bv8>)
    requires WellLaid(l) && !(1 <= l.total % 32768 <= 7)
    ensures fresh(a) && a.Length == BitmapBytes(l.total) && l.total <= 8 * a.Length
    ensures forall b: nat :: b < 8 * a.Length ==> (Bit(a[..], b) <==> Claimed(l, b))
    ensures forall b: nat :: b < 8 * a.Length && Reserved(l, b) ==> Bit(a[..], b)
    ensures forall b: nat :: b < 8 * a.Length && Allocatable(l, b) ==> !Bit(a[..], b)
  {
    BitmapCoversIff(l.total);
    a := new bv8[l.bitmapBlocks * 4096](_ => 0);
    assert forall b: nat :: b < 8 * a.Length ==> !Bit(a[..], b);
    SetRange(a, 0, l.metadata + 1);
    if l.two {
      SetRange(a, l.dev0, l.shadowStart);
      ClearRange(a, FreedFrom(l), 1 + l.metadata);
    }
    SetBit(a, l.total - 1);
    forall b: nat | b < 8 * a.Length
      ensures (Reserved(l, b) ==> Bit(a[..], b)) && (Allocatable(l, b) ==> !Bit(a[..], b))
    {
      ClaimedIsReserved(l, b);
    }
  }

  /** Unless the metadata spills onto the second device, every block is one or the other,
      save what the RAW zone leaves of the first of two devices; no zone has those, and the
      bitmap leaves them clear. */
  lemma ReservedOrAllocatable(l: Layout, b: nat)
    requires WellLaid(l) && b < l.total && (l.two ==> l.rawStart <= l.dev0)
    ensures !(Reserved(l, b) && Allocatable(l, b))
    ensures !Reserved(l, b) && !Allocatable(l, b) <==> l.two && l.rawStart + l.raw <= b < l.dev0
    ensures l.two && l.rawStart + l.raw <= b < l.dev0 ==> Zones(l, b) == 0 && !Claimed(l, b)
  {
  }
}
