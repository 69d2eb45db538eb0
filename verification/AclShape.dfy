/** Which blobs are access control lists, and the one-pass validator that decides it. */
module AclShape {
  import opened AclBlob

  /** Tagged USER or GROUP. */
  ghost predicate Named(e: Entry) {
    e.tag == 0x02 || e.tag == 0x08
  }

  /** Permissions within rwx; an id exactly on the named entries. */
  ghost predicate EntryOk(e: Entry) {
    e.perm & !7 == 0 && (e.id == 0xffff_ffff <==> !Named(e))
  }

  /** USER_OBJ USER* GROUP_OBJ GROUP* MASK? OTHER, by their stored tags, with GROUP_OBJ at `g`
      and the first entry after the group entries at `h`. */
  ghost predicate Shape(e: seq<Entry>, g: nat, h: nat) {
    && 1 <= g < h < |e|
    && e[0].tag == 0x01
    && (forall i :: 1 <= i < g ==> e[i].tag == 0x02)
    && e[g].tag == 0x04
    && (forall i :: g < i < h ==> e[i].tag == 0x08)
    && (h + 1 == |e| || (h + 2 == |e| && e[h].tag == 0x10))
    && e[|e| - 1].tag == 0x20
  }

  ghost predicate IsAcl(e: seq<Entry>) {
    && (exists g, h :: Shape(e, g, h))
    && (forall i :: 0 <= i < |e| ==> EntryOk(e[i]))
  }

  ghost predicate ValidBlob(b: Blob) {
    && |b| >= 4 && (|b| - 4) % 8 == 0 && b[..4] == [2, 0, 0, 0]
    && 3 <= Count(b) <= 128 && IsAcl(Decode(b))
  }

  /** Where the validator's stage counter stands after `i` entries of a well-shaped list. */
  function StageAt(n: nat, g: nat, h: nat, i: nat): nat {
    if i == 0 then 0 else if i <= g then 1
    else if i == g + 1 && i < n then 2 else if i <= h then 3 else if i < n then 4 else 5
  }

  datatype Scan = Scan(uobj: bool, gobj: bool, other: bool, stage: nat)

  /** One turn of the validator's loop: whether the entry is accepted, and the counters
      after it. */
  function ScanStep(s: Scan, e: Entry, i: nat, n: nat): (bool, Scan)
    requires i < n
  {
    var undef := e.id == UNDEF_ID;
    if e.perm & !7 != 0 then (false, s)
    else if e.tag == TAG_USER_OBJ then
      if i != 0 || !undef then (false, s) else (true, s.(uobj := true, stage := 1))
    else if e.tag == TAG_USER then
      if s.stage > 1 || undef then (false, s) else (true, s.(stage := 1))
    else if e.tag == TAG_GROUP_OBJ then
      if s.stage > 1 || !undef then (false, s) else (true, s.(gobj := true, stage := 2))
    else if e.tag == TAG_GROUP then
      if s.stage < 2 || s.stage > 3 || undef then (false, s) else (true, s.(stage := 3))
    else if e.tag == TAG_MASK then
      if s.stage < 2 || s.stage > 3 || !undef then (false, s) else (true, s.(stage := 4))
    else if e.tag == TAG_OTHER then
      if i != n - 1 || !undef then (false, s) else (true, s.(other := true, stage := 5))
    else (false, s)
  }

  ghost predicate Tracks(s: Scan, n: nat, g: nat, h: nat, i: nat) {
    s == Scan(i > 0, i > g, i == n, StageAt(n, g, h, i))
  }

  /** On a list of the right shape every entry is accepted. */
  lemma ScanAccepts(e: seq<Entry>, s: Scan, g: nat, h: nat, i: nat)
    requires Shape(e, g, h) && i < |e| && EntryOk(e[i]) && Tracks(s, |e|, g, h, i)
    ensures ScanStep(s, e[i], i, |e|).0 && Tracks(ScanStep(s, e[i], i, |e|).1, |e|, g, h, i + 1)
  {
    if i == 0 {
    } else if i < g {
      assert e[i].tag == TAG_USER;
    } else if g < i < h {
      assert e[i].tag == TAG_GROUP;
    }
  }

  /** What the counters say about the entries seen so far. `g` is the place of
      GROUP_OBJ once seen, `h` the end of the group entries once MASK or OTHER is. */
  ghost predicate Seen(e: seq<Entry>, s: Scan, i: nat, g: nat, h: nat) {
    && i <= |e| && (forall k :: 0 <= k < i ==> EntryOk(e[k]))
    && (s.uobj <==> i > 0 && e[0].tag == TAG_USER_OBJ)
    && (s.stage == 0 <==> i == 0)
    && (s.other <==> s.stage == 5) && (s.stage == 5 ==> i == |e| && e[i - 1].tag == TAG_OTHER)
    && (s.stage <= 1 ==> !s.gobj && forall k :: 1 <= k < i ==> e[k].tag == TAG_USER)
    && (s.gobj ==> g < i && e[g].tag == TAG_GROUP_OBJ && forall k :: 1 <= k < g ==> e[k].tag == TAG_USER)
    && (2 <= s.stage <= 4 ==> s.gobj)
    && (2 <= s.stage <= 3 ==> forall k :: g < k < i ==> e[k].tag == TAG_GROUP)
    && (s.stage >= 4 && s.gobj ==> g < h < i && forall k :: g < k < h ==> e[k].tag == TAG_GROUP)
    && (s.stage == 4 ==> h + 1 == i && e[h].tag == TAG_MASK)
    && (s.stage == 5 && s.gobj ==> h + 1 == i || (h + 2 == i && e[h].tag == TAG_MASK))
    && s.stage <= 5
  }

  function NextG(s: Scan, e: Entry, i: nat, g: nat): nat {
    if e.tag == TAG_GROUP_OBJ then i else g
  }

  function NextH(s: Scan, e: Entry, i: nat, h: nat): nat {
    if e.tag == TAG_MASK || (e.tag == TAG_OTHER && s.stage != 4) then i else h
  }

  lemma ScanSees(e: seq<Entry>, s: Scan, i: nat, g: nat, h: nat)
    requires i < |e| && Seen(e, s, i, g, h) && ScanStep(s, e[i], i, |e|).0
    ensures Seen(e, ScanStep(s, e[i], i, |e|).1, i + 1, NextG(s, e[i], i, g), NextH(s, e[i], i, h))
  {
  }

  /** acl_blob_valid accepts exactly the valid blobs. */
  lemma VersionWord(a: bv8, b: bv8, c: bv8, d: bv8)
    requires Word32(a, b, c, d) == 2
    ensures a == 2 && b == 0 && c == 0 && d == 0
  {
  }

  lemma VersionHead(b: Blob)
    requires |b| >= 4 && b[..4] == [2, 0, 0, 0]
    ensures Word32(b[0], b[1], b[2], b[3]) == 2
  {
    var x := b[..4];
    assert x[0] == 2 && x[1] == 0 && x[2] == 0 && x[3] == 0;
  }

  lemma VersionIs(b: Blob)
    requires |b| >= 4
    ensures Word32(b[0], b[1], b[2], b[3]) == VERSION <==> b[..4] == [2, 0, 0, 0]
  {
    hide Word32;
    if Word32(b[0], b[1], b[2], b[3]) == VERSION { VersionWord(b[0], b[1], b[2], b[3]); }
    if b[..4] == [2, 0, 0, 0] { VersionHead(b); }
  }

  method Validate(b: Blob) returns (ok: bool)
    ensures ok <==> ValidBlob(b)
  {
    if |b| < 4 || (|b| - 4) % 8 != 0 { return false; }
    VersionIs(b);
    if Word32(b[0], b[1], b[2], b[3]) != VERSION { return false; }
    var n := (|b| - 4) / 8;
    if n < 3 || n > 128 { return false; }
    ok := ScanEntries(b);
  }

  lemma ScanEnds(e: seq<Entry>, s: Scan, g: nat, h: nat)
    requires Seen(e, s, |e|, g, h) && 3 <= |e|
    ensures s.uobj && s.gobj && s.other ==> Shape(e, g, h)
    ensures (exists g', h' :: Shape(e, g', h') && Tracks(s, |e|, g', h', |e|)) ==> s.uobj && s.gobj && s.other
  {
  }

  method ScanEntries(b: Blob) returns (ok: bool)
    requires 3 <= Count(b)
    ensures ok <==> IsAcl(Decode(b))
  {
    var n := (|b| - 4) / 8;
    ghost var e := Decode(b);
    var s := Scan(false, false, false, 0);
    ghost var g: nat, h: nat := 0, 0;
    assert Seen(e, s, 0, g, h);
    hide ScanStep, StageAt, Seen, EntryOk, Shape;
    for i := 0 to n
      invariant Seen(e, s, i, g, h)
      invariant IsAcl(e) ==> exists g', h' :: Shape(e, g', h') && Tracks(s, n, g', h', i)
    {
      var step := ScanStep(s, EntryAt(b, i), i, n);
      if IsAcl(e) {
        var g', h' :| Shape(e, g', h') && Tracks(s, n, g', h', i);
        ScanAccepts(e, s, g', h', i);
      }
      if !step.0 { return false; }
      ScanSees(e, s, i, g, h);
      g, h := NextG(s, e[i], i, g), NextH(s, e[i], i, h);
      s := step.1;
    }
    ScanEnds(e, s, g, h);
    ok := s.uobj && s.gobj && s.other;
  }
}
