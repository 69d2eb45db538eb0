/** The formatter's zone layout and its allocation bitmap. */
module Mkfs {
  import opened Options

  const JOURNAL_BLOCKS: nat := 8192   // the reserved gap, 32 MiB
  const META_EXT_BLOCKS: nat := 32
  const MIN_SIZE: nat := 67108864     // 64 MiB
  const MIN_SIZE2: nat := 16777216    // 16 MiB

  datatype Layout = Layout(two: bool, dev0: nat, dev1: nat, total: nat, bitmapBlocks: nat,
                           metadata: nat, raw: nat, shadow: nat, rawStart: nat, shadowStart: nat)

  function DivCeil(a: nat, b: nat): nat
    requires b > 0
  {
    (a + b - 1) / b
  }

  /** INVFS_META_FRAC, ignored outside 8..256. */
  function MetaFrac(v: Option<int>): (f: nat)
    ensures 8 <= f <= 256
    ensures v == Some(f) || (f == 64 && (v.Some? ==> v.value < 8 || v.value > 256))
  {
    if v.Some? && 8 <= v.value <= 256 then v.value else 64
  }

  lemma DivByMore(n: nat, f: nat)
    requires f >= 8
    ensures n / f <= n / 8
  {
    var q := n / f;
    assert q * f <= n;
    assert q * 8 <= q * f;
  }

  /** Metadata never takes more than five eighths of the smallest volume, nor the whole
      of any: the remainder does not underflow. */
  lemma MetadataFits(total: nat, f: nat)
    requires total >= 16384 && f >= 8
    ensures 1 + DivCeil(total / 8, 4096) + 8192 + (if total / f < 512 then 512 else total / f) < total
  {
    DivByMore(total, f);
  }

  /** Bitmap, reserved gap and inode area. */
  method MetadataSpan(total: nat, bitmapBlocks: nat, frac: nat) returns (metadata: int)
    requires frac >= 8 && total >= 16384 && bitmapBlocks == DivCeil(total / 8, 4096)
    ensures metadata == MetadataBlocks(total, frac) && metadata >= bitmapBlocks + 8704 && 1 + metadata < total
  {
    MetadataFits(total, frac);
    var inodes := total / frac;
    if inodes < 512 { inodes := 512; }
    var span := bitmapBlocks + JOURNAL_BLOCKS + inodes;
    metadata := if span < 256 then 256 else span;
  }

  /** The zone layout, or None when a device is too small. */
  method ComputeLayout(size: nat, size2: nat, two: bool, metaFrac: Option<int>) returns (r: Option<Layout>)
    ensures r.None? <==> Refused(size, size2, two, metaFrac)
    ensures size < 64 * 1024 * 1024 || (two && size2 < 16 * 1024 * 1024) ==> r.None?
    ensures size >= 64 * 1024 * 1024 && !two ==> r.Some?
    ensures r.Some? ==> r.value.two == two && r.value.dev0 == size / 4096 && (two ==> r.value.dev1 == size2 / 4096)
    ensures r.Some? ==> WellLaid(r.value) && Planned(r.value, MetaFrac(metaFrac))
  {
    hide MetadataBlocks, RawBlocks, MetaFrac, WellLaid, Planned;
    if two && size2 < MIN_SIZE2 { return None; }
    if size < MIN_SIZE { return None; }
    r := LayZones(size / 4096, if two then size2 / 4096 else 0, two, MetaFrac(metaFrac));
  }

  method LayZones(dev0: nat, dev1: nat, two: bool, frac: nat) returns (r: Option<Layout>)
    requires dev0 >= 16384 && frac >= 8 && (!two ==> dev1 == 0)
    ensures r.None? <==> two && NoShadow(dev0, dev1, frac)
    ensures r.Some? ==> r.value.two == two && r.value.dev0 == dev0 && r.value.dev1 == dev1
    ensures r.Some? ==> WellLaid(r.value) && Planned(r.value, frac)
  {
    var total := dev0 + dev1;
    var bitmapBlocks := DivCeil(total / 8, 4096);
    var metadata := MetadataSpan(total, bitmapBlocks, frac);
    hide DivCeil, MetadataBlocks, RawBlocks;
    var ok, raw, shadow := SplitZones(two, dev0, dev1, metadata);
    if !ok { return None; }
    var shadowStart := if two then dev0 + 1 + metadata + raw else 1 + metadata + raw;
    r := Some(Layout(two, dev0, dev1, total, bitmapBlocks, metadata, raw, shadow, 1 + metadata, shadowStart));
  }

  /** RAW and shadow; false when the second device has no room for shadow. */
  method SplitZones(two: bool, dev0: nat, dev1: nat, metadata: nat) returns (ok: bool, raw: nat, shadow: nat)
    requires 1 + metadata < dev0 + dev1 && (!two ==> dev1 == 0)
    ensures raw == RawBlocks(two, dev0, dev0 + dev1, metadata)
    ensures ok <==> !two || 1 + metadata + raw < dev1
    ensures ok ==> shadow > 0 && 1 + metadata + raw + shadow == if two then dev1 else dev0
    ensures two && 1 + metadata <= dev0 ==> 1 + metadata + raw <= dev0
    ensures two && 1 + metadata > dev0 ==> raw == 0
  {
    var rem := dev0 + dev1 - 1 - metadata;
    raw, shadow := rem / 5, 0;  // RAW is one fifth
    if two {
      var cap := if dev0 > 1 + metadata then dev0 - 1 - metadata else 0;
      if raw > cap { raw := cap; }
      if 1 + metadata + raw >= dev1 { return false, raw, 0; }
      shadow := dev1 - (1 + metadata + raw);
    } else {
      shadow := rem - raw;
    }
    ok := true;
  }

  ghost function MetadataBlocks(total: nat, f: nat): nat
    requires f > 0
  {
    DivCeil(total / 8, 4096) + 8192 + if total / f < 512 then 512 else total / f
  }

  ghost function RawBlocks(two: bool, dev0: nat, total: nat, metadata: nat): nat {
    var want := if total > 1 + metadata then (total - 1 - metadata) / 5 else 0;
    var cap := if dev0 > 1 + metadata then dev0 - 1 - metadata else 0;
    if two && want > cap then cap else want
  }

  /** The mirror span and the RAW-wide gap leave no shadow on the second device. */
  ghost predicate NoShadow(dev0: nat, dev1: nat, frac: nat)
    requires frac > 0
  {
    var meta := MetadataBlocks(dev0 + dev1, frac);
    1 + meta + RawBlocks(true, dev0, dev0 + dev1, meta) >= dev1
  }

  ghost predicate Refused(size: nat, size2: nat, two: bool, metaFrac: Option<int>) {
    size < MIN_SIZE || (two && (size2 < MIN_SIZE2 || NoShadow(size / 4096, size2 / 4096, MetaFrac(metaFrac))))
  }

  ghost predicate Planned(l: Layout, frac: nat)
    requires frac > 0
  {
    l.metadata == MetadataBlocks(l.total, frac) && l.raw == RawBlocks(l.two, l.dev0, l.total, l.metadata)
  }

  /** The zones in order: superblock, metadata, RAW; then shadow, which ends the volume.
      On two devices RAW ends within the first, and shadow starts past the mirror span
      and a RAW-wide gap on the second. */
  ghost predicate WellLaid(l: Layout) {
    && l.dev0 >= 16384 && l.total == l.dev0 + l.dev1 && (!l.two ==> l.dev1 == 0)
    && l.bitmapBlocks == DivCeil(l.total / 8, 4096)
    && l.metadata >= l.bitmapBlocks + 8704 && 1 + l.metadata < l.total
    && l.rawStart == 1 + l.metadata
    && l.shadowStart == (if l.two then l.dev0 else 0) + l.rawStart + l.raw
    && l.shadowStart + l.shadow == l.total && l.shadow > 0
    && (l.two ==> l.rawStart + l.raw < l.dev1)
    && (l.two && l.rawStart <= l.dev0 ==> l.rawStart + l.raw <= l.dev0)
    && (l.two && l.rawStart > l.dev0 ==> l.raw == 0)
  }

  function Zones(l: Layout, b: nat): nat {
    (if b == 0 then 1 else 0) + (if 1 <= b < 1 + l.metadata then 1 else 0)
    + (if l.rawStart <= b < l.rawStart + l.raw then 1 else 0)
    + (if l.shadowStart <= b < l.shadowStart + l.shadow then 1 else 0)
  }

  /** On one device the four zones partition the volume. */
  lemma SingleDevicePartition(l: Layout, b: nat)
    requires WellLaid(l) && !l.two && b < l.total
    ensures Zones(l, b) == 1
  {
  }

  /** On one device RAW is a fifth of what the metadata leaves, rounded down: shadow is four
      times as large, and at most four blocks more. */
  lemma RawIsFifth(l: Layout, frac: nat)
    requires frac > 0 && WellLaid(l) && Planned(l, frac) && !l.two
    ensures 4 * l.raw <= l.shadow <= 4 * l.raw + 4
    ensures l.raw + l.shadow + 1 + l.metadata == l.total
  {
  }

  /** On two devices, when the metadata span fits the first, no block is in two zones,
      RAW is on the first device, and shadow is exactly what the second device has left
      past its reserved span. */
  lemma TwoDeviceZones(l: Layout, b: nat)
    requires WellLaid(l) && l.two && l.rawStart <= l.dev0 && b < l.total
    ensures Zones(l, b) <= 1
    ensures l.rawStart <= b < l.rawStart + l.raw ==> b < l.dev0
    ensures b >= l.dev0 ==> (Zones(l, b) == 1 <==> b - l.dev0 >= 1 + l.metadata + l.raw)
  {
  }

  /** The tail anchor's address on the device that holds it. */
  function AnchorLocal(l: Layout): int {
    if l.two then l.total - 1 - l.dev0 else l.total - 1
  }

  lemma AnchorIsLastBlock(l: Layout)
    requires WellLaid(l)
    ensures AnchorLocal(l) == (if l.two then l.dev1 else l.dev0) - 1
    ensures AnchorLocal(l) >= 0
  {
  }
}
