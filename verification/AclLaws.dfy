/** How validation, evaluation and the folds fit together. */
module AclLaws {
  import opened AclBlob
  import opened AclShape
  import opened AclEval
  import opened AclFold

  // ---- the folds keep a list a list ----

  ghost predicate SameNames(e: seq<Entry>, r: seq<Entry>) {
    |e| == |r| && forall k :: 0 <= k < |e| ==> e[k].tag == r[k].tag && e[k].id == r[k].id
  }

  lemma SameNamesSameShape(e: seq<Entry>, r: seq<Entry>)
    requires IsAcl(e) && |r| == |e| && forall k :: 0 <= k < |r| ==> Kept(e[k], r[k])
    ensures IsAcl(r) && SameNames(e, r)
  {
    var g: nat, h: nat :| Shape(e, g, h);
    assert Shape(r, g, h);
    forall k | 0 <= k < |r| ensures EntryOk(r[k]) { assert EntryOk(e[k]); }
  }

  /** Both folds map valid lists to valid lists with the same tags and ids. */
  lemma FoldsKeepAcl(e: seq<Entry>, mode: bv32)
    requires IsAcl(e)
    ensures IsAcl(ChmodFold(e, mode)) && SameNames(e, ChmodFold(e, mode))
    ensures IsAcl(CreateFold(e, mode)) && SameNames(e, CreateFold(e, mode))
  {
    hide IsAcl, ChmodFold, CreateFold;
    forall k | 0 <= k < |e|
      ensures Kept(e[k], ChmodFold(e, mode)[k]) && Kept(e[k], CreateFold(e, mode)[k])
    {
      PermOk(e, k);
      FoldKeeps(e, mode, k);
    }
    SameNamesSameShape(e, ChmodFold(e, mode));
    SameNamesSameShape(e, CreateFold(e, mode));
  }

  predicate Kept(x: Entry, y: Entry) {
    y.tag == x.tag && y.id == x.id && y.perm & !7 == 0
  }

  lemma PermOk(e: seq<Entry>, k: nat)
    requires IsAcl(e) && k < |e|
    ensures e[k].perm & !7 == 0
  {
    assert EntryOk(e[k]);
  }

  lemma FoldKeeps(e: seq<Entry>, mode: bv32, k: nat)
    requires k < |e| && e[k].perm & !7 == 0
    ensures Kept(e[k], ChmodFold(e, mode)[k]) && Kept(e[k], CreateFold(e, mode)[k])
  {
    ChmodFoldAt(e, mode, k);
    CreateFoldAt(e, mode, k);
    LowBits(e[k].perm, mode >> 6);
    LowBits(e[k].perm, mode >> 3);
    LowBits(e[k].perm, mode);
    BitsAreLow(mode);
    hide ChmodFold, CreateFold, GroupClass, Limit;
  }

  lemma BitsAreLow(mode: bv32)
    ensures OwnerBits(mode) & !7 == 0 && GroupBits(mode) & !7 == 0 && OtherBits(mode) & !7 == 0
  {
  }

  /** A validated blob is still valid after either in-place fold. */
  lemma FoldedBlobValid(b: Blob, r: Blob, mode: bv32)
    requires ValidBlob(b) && |r| == |b| && r[..4] == b[..4]
    requires Decode(r) == ChmodFold(Decode(b), mode) || Decode(r) == CreateFold(Decode(b), mode)
    ensures ValidBlob(r)
  {
    hide IsAcl, ChmodFold, CreateFold, EntryAt;
    FoldsKeepAcl(Decode(b), mode);
  }

  // ---- mode round trips ----

  lemma MirrorChmod(e: seq<Entry>, mode: bv32)
    requires IsAcl(e)
    ensures GroupClass(ChmodFold(e, mode)) == GroupClass(e) > 0
    ensures MirrorBits(ChmodFold(e, mode)) == Pack(OwnerBits(mode), GroupBits(mode), OtherBits(mode))
  {
    hide GroupBits, OwnerBits, OtherBits, IsAcl, Pack, GroupClass, ChmodFold;
    FoldsKeepClass(e, mode);
    GroupClassPlace(e);
    PlaceTags(e, 0);
    PlaceTags(e, |e| - 1);
    ChmodFoldAt(e, mode, 0);
    ChmodFoldAt(e, mode, GroupClass(e));
    ChmodFoldAt(e, mode, |e| - 1);
  }

  lemma PackBits(mode: bv32)
    ensures Pack(OwnerBits(mode), GroupBits(mode), OtherBits(mode)) == NineBits(mode)
  {
  }

  /** After a chmod folded into a list, reading the mode back from the list gives exactly
      the nine bits that were set, under the old special bits. */
  lemma ChmodRoundTrip(e: seq<Entry>, mode: bv32, oldMode: bv32)
    requires IsAcl(e)
    ensures GroupClass(ChmodFold(e, mode)) > 0
    ensures var synced := Special(oldMode) | MirrorBits(ChmodFold(e, mode));
      synced & 0x1ff == mode & 0x1ff && synced & !0x1ff == oldMode & !0x1ff
  {
    MirrorChmod(e, mode);
    PackBits(mode);
    UnderSpecial(oldMode, mode);
  }

  lemma UnderSpecial(oldMode: bv32, mode: bv32)
    ensures var m := Special(oldMode) | NineBits(mode); m & 0x1ff == mode & 0x1ff && m & !0x1ff == oldMode & !0x1ff
  {
  }

  // ---- the mask ----

  predicate HasMask(e: seq<Entry>) {
    LastTag(e, TAG_MASK) >= 0
  }

  lemma {:induction false} MaskPermAt(e: seq<Entry>, k: nat)
    requires k < |e| && e[k].tag == TAG_MASK && forall i :: 0 <= i < k ==> e[i].tag != TAG_MASK
    ensures MaskPerm(e) == e[k].perm
  {
    if k > 0 {
      assert e[1..][k - 1] == e[k] && forall i :: 0 <= i < k - 1 ==> e[1..][i] == e[i + 1];
      MaskPermAt(e[1..], k - 1);
    }
  }

  lemma {:induction false} NoMaskPerm(e: seq<Entry>)
    requires forall i :: 0 <= i < |e| ==> e[i].tag != TAG_MASK
    ensures MaskPerm(e) == 7
  {
    if e != [] { NoMaskPerm(e[1..]); }
  }

  lemma MaskIs(e: seq<Entry>)
    requires IsAcl(e)
    ensures 0 < GroupClass(e) < |e| - 1
    ensures HasMask(e) ==> MaskPerm(e) == e[GroupClass(e)].perm && e[GroupClass(e)].tag == TAG_MASK
    ensures !HasMask(e) ==> MaskPerm(e) == 7 && e[GroupClass(e)].tag == TAG_GROUP_OBJ
  {
    GroupClassPlace(e);
    if HasMask(e) {
      var g: nat, h: nat :| Shape(e, g, h);
      assert GroupClass(e) == h;
      MaskPermAt(e, h);
    } else {
      NoMaskPerm(e);
    }
  }

  // ---- access ----

  lemma SameHits(e: seq<Entry>, r: seq<Entry>, m: Meta, c: Creds)
    requires SameNames(e, r)
    ensures AnyUserHit(e, c) <==> AnyUserHit(r, c)
    ensures AnyGroupHit(e, m, c) <==> AnyGroupHit(r, m, c)
  {
    assert forall k :: 0 <= k < |e| ==>
      (UserHit(c, e[k]) <==> UserHit(c, r[k])) && (GroupHit(m, c, e[k]) <==> GroupHit(m, c, r[k]));
    if i :| 0 <= i < |e| && UserHit(c, e[i]) { assert UserHit(c, r[i]); }
    if i :| 0 <= i < |r| && UserHit(c, r[i]) { assert UserHit(c, e[i]); }
    if i :| 0 <= i < |e| && GroupHit(m, c, e[i]) { assert GroupHit(m, c, r[i]); }
    if i :| 0 <= i < |r| && GroupHit(m, c, r[i]) { assert GroupHit(m, c, e[i]); }
  }

  /** Every right in `p` is in `q`. */
  predicate Within(p: bv32, q: bv32) {
    p & q == p
  }

  lemma WithinGrants(p: bv32, q: bv32, mask: bv32, mask': bv32, want: bv32)
    requires Within(p, q) && Within(mask, mask')
    ensures Covers(p, want) ==> Covers(q, want)
    ensures Grants(p, mask, want) ==> Grants(q, mask', want)
  {
  }

  /** Entry by entry `r` grants no more than `e`. */
  ghost predicate Tighter(r: seq<Entry>, e: seq<Entry>) {
    SameNames(e, r) && forall k :: 0 <= k < |e| ==> Within(r[k].perm, e[k].perm)
  }

  lemma UserMonotone(e: seq<Entry>, r: seq<Entry>, c: Creds, mask: bv32, mask': bv32, want: bv32)
    requires Tighter(r, e) && Within(mask, mask') && UserGrants(r, c, mask, want)
    ensures UserGrants(e, c, mask', want)
  {
    hide Covers, Grants, Within;
    var i :| 0 <= i < |r| && UserHit(c, r[i]) &&
             (forall j :: 0 <= j < i ==> !UserHit(c, r[j])) && Grants(r[i].perm, mask, want);
    WithinGrants(r[i].perm, e[i].perm, mask, mask', want);
    forall j | 0 <= j < i ensures !UserHit(c, e[j]) { assert !UserHit(c, r[j]); }
    assert UserHit(c, e[i]);
  }

  lemma GroupMonotone(e: seq<Entry>, r: seq<Entry>, m: Meta, c: Creds, mask: bv32, mask': bv32, want: bv32)
    requires Tighter(r, e) && Within(mask, mask') && GroupGrants(r, m, c, mask, want)
    ensures GroupGrants(e, m, c, mask', want)
  {
    hide Covers, Grants, Within;
    var i :| 0 <= i < |r| && GroupHit(m, c, r[i]) && Grants(r[i].perm, mask, want);
    WithinGrants(r[i].perm, e[i].perm, mask, mask', want);
    assert GroupHit(m, c, e[i]);
  }

  /** Taking rights out of the entries of a list takes rights from nobody else's list of
      decisions: whatever is still granted was granted before. */
  lemma AccessMonotone(e: seq<Entry>, r: seq<Entry>, m: Meta, c: Creds, want: bv32)
    requires e != [] && SameNames(e, r) && (forall k :: 0 <= k < |e| ==> Within(r[k].perm, e[k].perm))
    requires Within(MaskPerm(r), MaskPerm(e)) && Access(m, r, c, want)
    ensures Access(m, e, c, want)
  {
    hide Covers, Grants, Within, MaskPerm, UserGrants, GroupGrants, AnyUserHit, AnyGroupHit;
    SameHits(e, r, m, c);
    var me, mr := MaskPerm(e), MaskPerm(r);
    assert Tighter(r, e);
    if c.uid == m.uid {
      WithinGrants(r[0].perm, e[0].perm, mr, me, want);
    } else if AnyUserHit(r, c) {
      UserMonotone(e, r, c, mr, me, want);
    } else if AnyGroupHit(r, m, c) {
      GroupMonotone(e, r, m, c, mr, me, want);
    } else {
      WithinGrants(r[|e| - 1].perm, e[|e| - 1].perm, mr, me, want);
    }
  }

  lemma LimitWithin(p: bv32, q: bv32)
    ensures Within(Limit(p, q), p) && Within(p, p) && Limit(Limit(p, q), q) == Limit(p, q)
  {
  }

  /** Inheritance never widens: what the folded list grants, the default list granted. */
  lemma CreateNeverWidens(e: seq<Entry>, mode: bv32, m: Meta, c: Creds, want: bv32)
    requires IsAcl(e) && CreateFold(e, mode) != [] && Access(m, CreateFold(e, mode), c, want)
    ensures e != [] && Access(m, e, c, want)
  {
    hide IsAcl, CreateFold, Limit, Within, GroupClass, OwnerBits, GroupBits, OtherBits, Access, MaskPerm;
    var r := CreateFold(e, mode);
    FoldsKeepAcl(e, mode);
    FoldsKeepClass(e, mode);
    forall k | 0 <= k < |e| ensures Within(r[k].perm, e[k].perm) {
      CreateFoldAt(e, mode, k);
      LimitWithin(e[k].perm, OwnerBits(mode));
      LimitWithin(e[k].perm, GroupBits(mode));
      LimitWithin(e[k].perm, OtherBits(mode));
    }
    MaskIs(e);
    MaskIs(r);
    LimitWithin(7, 7);
    AccessMonotone(e, r, m, c, want);
  }

  lemma PackParts(u: bv32, g: bv32, o: bv32)
    requires u & !7 == 0 && g & !7 == 0 && o & !7 == 0
    ensures OwnerBits(Pack(u, g, o)) == u && GroupBits(Pack(u, g, o)) == g && OtherBits(Pack(u, g, o)) == o
    ensures NineBits(Pack(u, g, o)) == Pack(u, g, o)
  {
  }

  lemma LimitSelf(p: bv32)
    ensures Limit(p, p) == p
  {
  }

  /** A list is untouched by a mode whose triads its base entries already fit. */
  lemma CreateFixed(e: seq<Entry>, mode: bv32)
    requires IsAcl(e) && GroupClass(e) > 0
    requires Limit(e[0].perm, OwnerBits(mode)) == e[0].perm
    requires Limit(e[|e| - 1].perm, OtherBits(mode)) == e[|e| - 1].perm
    requires Limit(e[GroupClass(e)].perm, GroupBits(mode)) == e[GroupClass(e)].perm
    ensures CreateFold(e, mode) == e
  {
    forall k | 0 <= k < |e| ensures CreateFold(e, mode)[k] == e[k] {
      PlaceTags(e, k);
      CreateFoldAt(e, mode, k);
      hide IsAcl, CreateFold, Limit, GroupClass, OwnerBits, GroupBits, OtherBits;
    }
  }

  /** The create fold is idempotent, both for the mode it was given and for the mode it
      returned, and the returned mode is then stable too. */
  lemma CreateIdempotent(e: seq<Entry>, mode: bv32)
    requires IsAcl(e)
    ensures CreateFold(CreateFold(e, mode), mode) == CreateFold(e, mode)
    ensures GroupClass(CreateFold(e, mode)) > 0
    ensures CreateFold(CreateFold(e, mode), MirrorBits(CreateFold(e, mode))) == CreateFold(e, mode)
    ensures NineBits(MirrorBits(CreateFold(e, mode))) == MirrorBits(CreateFold(e, mode))
  {
    hide IsAcl, CreateFold, Limit, GroupClass, OwnerBits, GroupBits, OtherBits, Pack, NineBits;
    var r, g := CreateFold(e, mode), GroupClass(e);
    FoldsKeepAcl(e, mode);
    FoldsKeepClass(e, mode);
    GroupClassPlace(e);
    PlaceTags(e, 0);
    PlaceTags(e, |e| - 1);
    PlaceTags(e, g);
    CreateFoldAt(e, mode, 0);
    CreateFoldAt(e, mode, g);
    CreateFoldAt(e, mode, |e| - 1);
    LimitWithin(e[0].perm, OwnerBits(mode));
    LimitWithin(e[g].perm, GroupBits(mode));
    LimitWithin(e[|e| - 1].perm, OtherBits(mode));
    CreateFixed(r, mode);
    PermOk(r, 0);
    PermOk(r, g);
    PermOk(r, |e| - 1);
    PackParts(r[0].perm, r[g].perm, r[|e| - 1].perm);
    LimitSelf(r[0].perm);
    LimitSelf(r[g].perm);
    LimitSelf(r[|e| - 1].perm);
    CreateFixed(r, MirrorBits(r));
  }

  // ---- a list that says no more than a mode ----

  lemma PlainShape(e: seq<Entry>)
    requires IsAcl(e) && !NotEquivalent(e)
    ensures |e| == 3 && e[0].tag == TAG_USER_OBJ && e[1].tag == TAG_GROUP_OBJ && e[2].tag == TAG_OTHER
    ensures GroupClass(e) == 1 && MaskPerm(e) == 7
  {
    var g: nat, h: nat :| Shape(e, g, h);
    assert !Extended(e[1]) && !Extended(e[2]) && !Extended(e[h]);
    NoMaskPerm(e);
  }

  lemma NineParts(mode: bv32)
    ensures OwnerBits(NineBits(mode)) == OwnerBits(mode)
    ensures GroupBits(NineBits(mode)) == GroupBits(mode)
    ensures OtherBits(NineBits(mode)) == OtherBits(mode)
  {
  }

  lemma LowCovers(x: bv32, want: bv32)
    requires Low(want)
    ensures Covers(x, want) <==> Covers(x & 7, want)
    ensures Grants(x, 7, want) <==> Covers(x, want)
  {
  }

  predicate Low(p: bv32) { p & !7 == 0 }

  lemma TriadCovers(mode: bv32, u: bv32, g: bv32, o: bv32, want: bv32)
    requires Low(u) && Low(g) && Low(o) && Low(want) && NineBits(mode) == Pack(u, g, o)
    ensures Covers(OwnerTriad(mode), want) <==> Covers(u, want)
    ensures Covers(GroupTriad(mode), want) <==> Covers(g, want)
    ensures Covers(mode, want) <==> Covers(o, want)
    ensures Covers(g, want) <==> Grants(g, 7, want)
  {
    assert want <= 7;
    NineParts(mode);
    PackParts(u, g, o);
    hide Covers, Grants, NineBits, Pack;
    LowCovers(OwnerTriad(mode), want);
    LowCovers(GroupTriad(mode), want);
    LowCovers(mode, want);
    LowCovers(g, want);
  }

  /** Dropping a trivial list is meaning-preserving: with no named entry and no MASK,
      every caller and every request gets the same answer from the list and from any
      mode that mirrors it. */
  lemma TrivialAclIsMode(e: seq<Entry>, mode: bv32, m: Meta, c: Creds, want: bv32)
    requires IsAcl(e) && !NotEquivalent(e) && Low(want)
    requires GroupClass(e) > 0 && NineBits(mode) == MirrorBits(e)
    ensures Access(m, e, c, want) <==> ModeAccess(m.(mode := mode), c, want)
  {
    hide *;
    PlainShape(e);
    PlainAccess(e, m, c, want);
    ModeAccessIs(m, mode, c, want);
    assert MirrorBits(e) == Pack(e[0].perm, e[1].perm, e[2].perm) by { MirrorPlain(e); }
    LowPerms(e);
    TriadCovers(mode, e[0].perm, e[1].perm, e[2].perm, want);
  }

  lemma MirrorPlain(e: seq<Entry>)
    requires |e| == 3 && GroupClass(e) == 1
    ensures MirrorBits(e) == Pack(e[0].perm, e[1].perm, e[2].perm)
  {
  }

  lemma ModeAccessIs(m: Meta, mode: bv32, c: Creds, want: bv32)
    ensures ModeAccess(m.(mode := mode), c, want) <==> if c.uid == m.uid then Covers(OwnerTriad(mode), want)
                                                       else if InGroup(c, m.gid) then Covers(GroupTriad(mode), want)
                                                       else Covers(mode, want)
  {
    hide Covers, InGroup;
  }

  lemma LowPerms(e: seq<Entry>)
    requires IsAcl(e)
    ensures forall k :: 0 <= k < |e| ==> Low(e[k].perm)
  {
    forall k | 0 <= k < |e| ensures Low(e[k].perm) { PermOk(e, k); }
  }

  lemma PlainAccess(e: seq<Entry>, m: Meta, c: Creds, want: bv32)
    requires |e| == 3 && e[0].tag == TAG_USER_OBJ && e[1].tag == TAG_GROUP_OBJ && e[2].tag == TAG_OTHER
    requires MaskPerm(e) == 7
    ensures Access(m, e, c, want) <==> if c.uid == m.uid then Covers(e[0].perm, want)
                                       else if InGroup(c, m.gid) then Grants(e[1].perm, 7, want)
                                       else Covers(e[2].perm, want)
  {
    hide Covers, Grants, MaskPerm;
    assert !AnyUserHit(e, c);
    assert InGroup(c, m.gid) <==> GroupHit(m, c, e[1]);
  }

  /** ... in particular after a chmod, whatever the other bits of the mode are ... */
  lemma TrivialAfterChmod(e: seq<Entry>, mode: bv32, mode': bv32, m: Meta, c: Creds, want: bv32)
    requires IsAcl(e) && !NotEquivalent(e) && Low(want) && mode' & 0x1ff == mode & 0x1ff
    ensures ChmodFold(e, mode) != []
    ensures Access(m, ChmodFold(e, mode), c, want) <==> ModeAccess(m.(mode := mode'), c, want)
  {
    hide IsAcl, ChmodFold, Access, ModeAccess, GroupClass;
    FoldsKeepAcl(e, mode);
    SameNamesSameExtent(e, ChmodFold(e, mode));
    MirrorChmod(e, mode);
    PackBits(mode);
    TrivialAclIsMode(ChmodFold(e, mode), mode', m, c, want);
    PlainShape(ChmodFold(e, mode));
  }

  /** ... and after inheritance. */
  lemma TrivialAfterCreate(e: seq<Entry>, mode: bv32, m: Meta, c: Creds, want: bv32)
    requires IsAcl(e) && !NotEquivalent(e) && Low(want)
    ensures GroupClass(CreateFold(e, mode)) > 0
    ensures Access(m, CreateFold(e, mode), c, want) <==>
      ModeAccess(m.(mode := MirrorBits(CreateFold(e, mode))), c, want)
  {
    hide IsAcl, CreateFold, Access, ModeAccess;
    FoldsKeepAcl(e, mode);
    SameNamesSameExtent(e, CreateFold(e, mode));
    CreateIdempotent(e, mode);
    TrivialAclIsMode(CreateFold(e, mode), MirrorBits(CreateFold(e, mode)), m, c, want);
  }

  lemma SameNamesSameExtent(e: seq<Entry>, r: seq<Entry>)
    requires SameNames(e, r)
    ensures NotEquivalent(e) <==> NotEquivalent(r)
  {
    if i :| 0 <= i < |e| && Extended(e[i]) { assert Extended(r[i]); }
    if i :| 0 <= i < |r| && Extended(r[i]) { assert Extended(e[i]); }
  }

  // ---- what a chmod bounds ----

  /** The triad of the caller's class in a mode. */
  ghost function ClassBits(m: Meta, e: seq<Entry>, c: Creds, mode: bv32): bv32 {
    if c.uid == m.uid then OwnerBits(mode)
    else if AnyUserHit(e, c) || AnyGroupHit(e, m, c) then GroupBits(mode)
    else OtherBits(mode)
  }

  /** After the chmod nobody is granted more than the triad of their class. */
  ghost predicate Bounded(e: seq<Entry>, mode: bv32)
    requires e != []
  {
    forall m, c, want :: Access(m, ChmodFold(e, mode), c, want) ==> Covers(ClassBits(m, e, c, mode), want)
  }

  /** Entry `i` is not shadowed by an earlier entry for the same user. */
  ghost predicate Reachable(e: seq<Entry>, i: nat)
    requires i < |e|
  {
    e[i].tag == TAG_USER ==> forall j :: 0 <= j < i ==> !(e[j].tag == TAG_USER && e[j].id == e[i].id)
  }

  ghost predicate NamedWithin(e: seq<Entry>, mode: bv32) {
    forall i :: 0 <= i < |e| && Named(e[i]) && Reachable(e, i) ==> Within(e[i].perm, GroupBits(mode))
  }

  lemma CoversFacts(p: bv32, q: bv32, want: bv32)
    ensures Grants(p, q, want) ==> Covers(q, want) && Covers(p, want)
    ensures Within(p, q) && Covers(p, want) ==> Covers(q, want)
    ensures Covers(q, p) <==> Within(p, q)
    ensures Low(p) ==> Grants(p, 7, p)
  {
  }

  /** The rights of a named or group-class entry, under the mask, fit the group triad. */
  lemma ClassEntryBounded(e: seq<Entry>, mode: bv32, i: nat, want: bv32)
    requires IsAcl(e) && (HasMask(e) || NamedWithin(e, mode)) && i < |e| == |ChmodFold(e, mode)|
    requires Grants(ChmodFold(e, mode)[i].perm, MaskPerm(ChmodFold(e, mode)), want)
    requires e[i].tag == TAG_GROUP_OBJ || (Named(e[i]) && Reachable(e, i))
    ensures Covers(GroupBits(mode), want)
  {
    hide IsAcl, ChmodFold, Covers, Grants, Within, GroupClass, MaskPerm, HasMask, OwnerBits, GroupBits, OtherBits;
    var r, gb := ChmodFold(e, mode), GroupBits(mode);
    ChmodMask(e, mode);
    ChmodFoldAt(e, mode, i);
    CoversFacts(r[i].perm, MaskPerm(r), want);
    CoversFacts(r[i].perm, gb, want);
    if e[i].tag == TAG_GROUP_OBJ && !HasMask(e) {
      LastGroupObj(e, i);
    }
  }

  lemma UserBounded(e: seq<Entry>, mode: bv32, c: Creds, want: bv32)
    requires IsAcl(e) && (HasMask(e) || NamedWithin(e, mode)) && SameNames(e, ChmodFold(e, mode))
    requires UserGrants(ChmodFold(e, mode), c, MaskPerm(ChmodFold(e, mode)), want)
    ensures Covers(GroupBits(mode), want)
  {
    hide IsAcl, ChmodFold, Covers, Grants, Within, MaskPerm, HasMask, NamedWithin, GroupBits;
    var r := ChmodFold(e, mode);
    var i :| 0 <= i < |r| && UserHit(c, r[i]) &&
             (forall j :: 0 <= j < i ==> !UserHit(c, r[j])) && Grants(r[i].perm, MaskPerm(r), want);
    forall j | 0 <= j < i ensures !(e[j].tag == TAG_USER && e[j].id == e[i].id) { assert !UserHit(c, r[j]); }
    ClassEntryBounded(e, mode, i, want);
  }

  lemma GroupBounded(e: seq<Entry>, mode: bv32, m: Meta, c: Creds, want: bv32)
    requires IsAcl(e) && (HasMask(e) || NamedWithin(e, mode)) && SameNames(e, ChmodFold(e, mode))
    requires GroupGrants(ChmodFold(e, mode), m, c, MaskPerm(ChmodFold(e, mode)), want)
    ensures Covers(GroupBits(mode), want)
  {
    hide IsAcl, ChmodFold, Covers, Grants, Within, MaskPerm, HasMask, NamedWithin, GroupBits;
    var r := ChmodFold(e, mode);
    var i :| 0 <= i < |r| && GroupHit(m, c, r[i]) && Grants(r[i].perm, MaskPerm(r), want);
    ClassEntryBounded(e, mode, i, want);
  }

  lemma BoundedByMask(e: seq<Entry>, mode: bv32, m: Meta, c: Creds, want: bv32)
    requires IsAcl(e) && (HasMask(e) || NamedWithin(e, mode)) && ChmodFold(e, mode) != []
    requires Access(m, ChmodFold(e, mode), c, want)
    ensures Covers(ClassBits(m, e, c, mode), want)
  {
    hide IsAcl, ChmodFold, Covers, MaskPerm, HasMask, NamedWithin, OwnerBits, GroupBits, OtherBits, GroupClass;
    hide UserGrants, GroupGrants, AnyUserHit, AnyGroupHit;
    var r := ChmodFold(e, mode);
    FoldsKeepAcl(e, mode);
    SameHits(e, r, m, c);
    ChmodMask(e, mode);
    if c.uid == m.uid {
      PlaceTags(e, 0);
      ChmodFoldAt(e, mode, 0);
    } else if AnyUserHit(r, c) {
      UserBounded(e, mode, c, want);
    } else if AnyGroupHit(r, m, c) {
      GroupBounded(e, mode, m, c, want);
    } else {
      PlaceTags(e, |e| - 1);
      ChmodFoldAt(e, mode, |e| - 1);
    }
  }

  lemma LastGroupObj(e: seq<Entry>, i: nat)
    requires IsAcl(e) && i < |e| && e[i].tag == TAG_GROUP_OBJ && !HasMask(e)
    ensures i == GroupClass(e)
  {
    var g: nat, h: nat :| Shape(e, g, h);
    assert i == g;
  }

  lemma ChmodMask(e: seq<Entry>, mode: bv32)
    requires IsAcl(e)
    ensures 0 < GroupClass(e) < |e| - 1
    ensures MaskPerm(ChmodFold(e, mode)) == if HasMask(e) then GroupBits(mode) else 7
    ensures e[GroupClass(e)].tag == TAG_MASK <==> HasMask(e)
    ensures !HasMask(e) ==> e[GroupClass(e)].tag == TAG_GROUP_OBJ
  {
    hide IsAcl, ChmodFold, GroupBits, GroupClass;
    MaskIs(e);
    FoldsKeepAcl(e, mode);
    FoldsKeepClass(e, mode);
    MaskIs(ChmodFold(e, mode));
    ChmodFoldAt(e, mode, GroupClass(e));
  }

  /** Without a MASK, a named entry whose rights exceed the group triad breaks the bound. */
  lemma NamedExceeds(e: seq<Entry>, mode: bv32, i: nat)
    requires IsAcl(e) && !HasMask(e) && i < |e| && Named(e[i]) && Reachable(e, i) && !Within(e[i].perm, GroupBits(mode))
    ensures e != [] && !Bounded(e, mode)
  {
    hide IsAcl, ChmodFold, Covers, Grants, Within, MaskPerm, HasMask, OwnerBits, GroupBits, OtherBits, GroupClass, Low;
    var r, want := ChmodFold(e, mode), e[i].perm;
    FoldsKeepAcl(e, mode);
    ChmodMask(e, mode);
    ChmodFoldAt(e, mode, i);
    LowPerms(e);
    CoversFacts(want, GroupBits(mode), want);
    NamedIds(e);
    if e[i].tag == TAG_USER {
      var m, c := Meta(0, UNDEF_ID, UNDEF_ID), Creds(e[i].id, UNDEF_ID, []);
      assert UserHit(c, e[i]) && UserHit(c, r[i]);
      forall j | 0 <= j < i ensures !UserHit(c, r[j]) { assert e[j].tag == r[j].tag; }
      assert UserGrants(r, c, MaskPerm(r), want);
      assert Access(m, r, c, want) && ClassBits(m, e, c, mode) == GroupBits(mode);
    } else {
      var m, c := Meta(0, 0, UNDEF_ID), Creds(UNDEF_ID, e[i].id, []);
      assert !AnyUserHit(e, c) && !AnyUserHit(r, c);
      assert GroupHit(m, c, e[i]) && GroupHit(m, c, r[i]);
      assert GroupGrants(r, m, c, MaskPerm(r), want);
      assert Access(m, r, c, want) && ClassBits(m, e, c, mode) == GroupBits(mode);
    }
  }

  lemma NamedIds(e: seq<Entry>)
    requires IsAcl(e)
    ensures forall k :: 0 <= k < |e| && Named(e[k]) ==> e[k].id != UNDEF_ID
  {
    forall k | 0 <= k < |e| && Named(e[k]) ensures e[k].id != UNDEF_ID { assert EntryOk(e[k]); }
  }

  /** The chmod bound holds exactly when the list has a MASK or no reachable named entry
      holds a right the new group triad lacks. */
  lemma ChmodBoundIff(e: seq<Entry>, mode: bv32)
    requires IsAcl(e)
    ensures e != [] && (Bounded(e, mode) <==> HasMask(e) || NamedWithin(e, mode))
  {
    if HasMask(e) || NamedWithin(e, mode) {
      forall m, c, want | Access(m, ChmodFold(e, mode), c, want) ensures Covers(ClassBits(m, e, c, mode), want) {
        BoundedByMask(e, mode, m, c, want);
      }
    } else {
      var i :| 0 <= i < |e| && Named(e[i]) && Reachable(e, i) && !Within(e[i].perm, GroupBits(mode));
      NamedExceeds(e, mode, i);
    }
  }

  /** A valid list without a MASK: after `chmod 0` the named user keeps all three rights. */
  lemma MasklessChmodExceeds()
    ensures var e := [Entry(TAG_USER_OBJ, 7, UNDEF_ID), Entry(TAG_USER, 7, 5), Entry(TAG_GROUP_OBJ, 7, UNDEF_ID),
                      Entry(TAG_OTHER, 7, UNDEF_ID)];
      IsAcl(e) && !Bounded(e, 0)
  {
    var e := [Entry(TAG_USER_OBJ, 7, UNDEF_ID), Entry(TAG_USER, 7, 5), Entry(TAG_GROUP_OBJ, 7, UNDEF_ID),
              Entry(TAG_OTHER, 7, UNDEF_ID)];
    assert Shape(e, 2, 3);
    NamedExceeds(e, 0, 1);
  }
}
