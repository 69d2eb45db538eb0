/** What the evaluator and the folds grant, exactly. */
module AclExact {
  import opened AclBlob
  import opened AclShape
  import opened AclEval
  import opened AclFold
  import opened AclLaws

  // ---- who is judged by what ----

  /** A request is covered right by right. */
  lemma CoversEach(p: bv32, want: bv32)
    requires Low(want)
    ensures Covers(p, want) <==>
      && (want & 4 != 0 ==> p & 4 != 0) && (want & 2 != 0 ==> p & 2 != 0) && (want & 1 != 0 ==> p & 1 != 0)
  {
  }

  lemma TriadBits(mode: bv32, want: bv32)
    requires Low(want)
    ensures Covers(OwnerTriad(mode), want) <==> Covers((mode >> 6) & 7, want)
    ensures Covers(GroupTriad(mode), want) <==> Covers((mode >> 3) & 7, want)
    ensures Covers(mode, want) <==> Covers(mode & 7, want)
  {
  }

  /** Without a list the owner is judged by the owner triad alone, a member of the file's group,
      be it the primary or a supplementary one, by the group triad, and anybody else by the
      last. */
  lemma ModeByClass(m: Meta, c: Creds, want: bv32)
    requires Low(want)
    ensures ModeAccess(m, c, want) <==>
      Covers(if c.uid == m.uid then (m.mode >> 6) & 7
             else if c.gid == m.gid || m.gid in c.groups then (m.mode >> 3) & 7
             else m.mode & 7, want)
  {
    TriadBits(m.mode, want);
    hide Covers, OwnerTriad, GroupTriad;
  }

  /** The caller is in group `g`. */
  predicate Holds(c: Creds, g: bv32) {
    c.gid == g || exists i :: 0 <= i < |c.groups| && c.groups[i] == g
  }

  /** An entry for a group the caller is in. */
  predicate Concerns(m: Meta, c: Creds, x: Entry) {
    (x.tag == TAG_GROUP_OBJ && Holds(c, m.gid)) || (x.tag == TAG_GROUP && Holds(c, x.id))
  }

  /** With a list, a caller whom no entry names is judged by the entries of all their groups,
      primary and supplementary, under the mask, and by nothing else if there is one. */
  lemma GroupsDecide(m: Meta, e: seq<Entry>, c: Creds, want: bv32)
    requires e != [] && c.uid != m.uid && forall i :: 0 <= i < |e| ==> !(e[i].tag == TAG_USER && e[i].id == c.uid)
    ensures (exists i :: 0 <= i < |e| && Concerns(m, c, e[i])) ==>
      (Access(m, e, c, want) <==>
       exists i :: 0 <= i < |e| && Concerns(m, c, e[i]) && Covers(e[i].perm & MaskPerm(e), want))
    ensures !(exists i :: 0 <= i < |e| && Concerns(m, c, e[i])) ==>
      (Access(m, e, c, want) <==> Covers(e[|e| - 1].perm, want))
  {
    hide Covers, MaskPerm;
    forall i | 0 <= i < |e| ensures GroupHit(m, c, e[i]) <==> Concerns(m, c, e[i]) { SameGroups(m, c, e[i]); }
    assert !AnyUserHit(e, c);
    hide GroupHit, Concerns, UserHit;
    if i :| 0 <= i < |e| && Concerns(m, c, e[i]) { assert GroupHit(m, c, e[i]); }
    if i :| 0 <= i < |e| && GroupHit(m, c, e[i]) && Grants(e[i].perm, MaskPerm(e), want) {
      assert Concerns(m, c, e[i]);
    }
  }

  lemma SameGroups(m: Meta, c: Creds, x: Entry)
    ensures GroupHit(m, c, x) <==> Concerns(m, c, x)
  {
    assert InGroup(c, m.gid) <==> Holds(c, m.gid);
    assert InGroup(c, x.id) <==> Holds(c, x.id);
  }

  /** Which of the caller's groups is the primary one makes no difference. */
  lemma PrimaryDoesNotMatter(m: Meta, e: seq<Entry>, c: Creds, c': Creds, want: bv32)
    requires e != [] && c.uid == c'.uid && forall g :: Holds(c, g) <==> Holds(c', g)
    ensures ModeAccess(m, c, want) <==> ModeAccess(m, c', want)
    ensures Access(m, e, c, want) <==> Access(m, e, c', want)
  {
    hide Covers, MaskPerm, Grants;
    forall g ensures InGroup(c, g) <==> InGroup(c', g) { assert Holds(c, g) <==> Holds(c', g); }
    hide InGroup, Holds;
    forall i | 0 <= i < |e|
      ensures (UserHit(c, e[i]) <==> UserHit(c', e[i])) && (GroupHit(m, c, e[i]) <==> GroupHit(m, c', e[i]))
    {
    }
    hide UserHit, GroupHit;
  }

  // ---- the create fold ----

  lemma LimitCovers(p: bv32, q: bv32, want: bv32)
    ensures Covers(Limit(p, q), want) <==> Covers(p, want) && Covers(q, want)
  {
    if Covers(p, want) && Covers(q, want) { CoveredByBoth(p, q, want); }
    if Covers(Limit(p, q), want) { CoveredByEach(p, q, want); }
  }

  lemma CoveredByBoth(p: bv32, q: bv32, w: bv32)
    requires p & w == w && q & w == w
    ensures Covers(Limit(p, q), w)
  {
  }

  lemma CoveredByEach(p: bv32, q: bv32, w: bv32)
    requires (p & q) & w == w
    ensures Covers(p, w) && Covers(q, w)
  {
  }

  lemma LimitMoves(p: bv32, mask: bv32, q: bv32)
    ensures Limit(p & mask, q) == p & Limit(mask, q) && Limit(p & mask, q) == Limit(p, q) & mask
  {
  }

  lemma LimitGrants(p: bv32, mask: bv32, q: bv32, want: bv32)
    ensures Grants(p, Limit(mask, q), want) <==> Grants(p, mask, want) && Covers(q, want)
    ensures Grants(Limit(p, q), mask, want) <==> Grants(p, mask, want) && Covers(q, want)
  {
    LimitCovers(p & mask, q, want);
    LimitMoves(p, mask, q);
    hide Covers, Limit;
  }

  /** The same entries hit, and the one that decides grants in `r` what it does in `e`, cut by
      `q`. */
  lemma UserMoves(e: seq<Entry>, r: seq<Entry>, c: Creds, mask: bv32, mask': bv32, q: bv32, want: bv32)
    requires SameNames(e, r)
    requires forall k :: 0 <= k < |e| && UserHit(c, e[k]) && (forall j :: 0 <= j < k ==> !UserHit(c, e[j])) ==>
               (Grants(r[k].perm, mask', want) <==> Grants(e[k].perm, mask, want) && Covers(q, want))
    ensures UserGrants(r, c, mask', want) ==> UserGrants(e, c, mask, want) && Covers(q, want)
    ensures UserGrants(e, c, mask, want) && Covers(q, want) ==> UserGrants(r, c, mask', want)
  {
    hide Covers, Grants;
    forall k | 0 <= k < |e| ensures UserHit(c, r[k]) <==> UserHit(c, e[k]) {}
    hide UserHit;
    if i :| 0 <= i < |r| && UserHit(c, r[i]) && (forall j :: 0 <= j < i ==> !UserHit(c, r[j])) &&
            Grants(r[i].perm, mask', want) {
      assert UserHit(c, e[i]) && forall j :: 0 <= j < i ==> !UserHit(c, e[j]);
    }
    if i :| 0 <= i < |e| && UserHit(c, e[i]) && (forall j :: 0 <= j < i ==> !UserHit(c, e[j])) &&
            Grants(e[i].perm, mask, want) {
      assert UserHit(c, r[i]) && forall j :: 0 <= j < i ==> !UserHit(c, r[j]);
    }
  }

  lemma GroupMoves(e: seq<Entry>, r: seq<Entry>, m: Meta, c: Creds, mask: bv32, mask': bv32, q: bv32, want: bv32)
    requires SameNames(e, r)
    requires forall k :: 0 <= k < |e| && GroupHit(m, c, e[k]) ==>
               (Grants(r[k].perm, mask', want) <==> Grants(e[k].perm, mask, want) && Covers(q, want))
    ensures GroupGrants(r, m, c, mask', want) ==> GroupGrants(e, m, c, mask, want) && Covers(q, want)
    ensures GroupGrants(e, m, c, mask, want) && Covers(q, want) ==> GroupGrants(r, m, c, mask', want)
  {
    hide Covers, Grants, InGroup;
    forall k | 0 <= k < |e| ensures GroupHit(m, c, r[k]) <==> GroupHit(m, c, e[k]) {}
    hide GroupHit;
    if i :| 0 <= i < |r| && GroupHit(m, c, r[i]) && Grants(r[i].perm, mask', want) {
      assert GroupHit(m, c, e[i]);
    }
    if i :| 0 <= i < |e| && GroupHit(m, c, e[i]) && Grants(e[i].perm, mask, want) {
      assert GroupHit(m, c, r[i]);
    }
  }

  /** The mask after the create fold. */
  lemma CreateMask(e: seq<Entry>, mode: bv32)
    requires IsAcl(e)
    ensures 0 < GroupClass(e) < |e| - 1 && (HasMask(e) <==> e[GroupClass(e)].tag == TAG_MASK)
    ensures MaskPerm(CreateFold(e, mode)) == if HasMask(e) then Limit(MaskPerm(e), GroupBits(mode)) else 7
    ensures !HasMask(e) ==> MaskPerm(e) == 7 && e[GroupClass(e)].tag == TAG_GROUP_OBJ
  {
    hide IsAcl, CreateFold, GroupClass, MaskPerm, Limit, GroupBits, HasMask;
    FoldsKeepAcl(e, mode);
    FoldsKeepClass(e, mode);
    MaskKept(e, CreateFold(e, mode));
    MaskIs(e);
    MaskIs(CreateFold(e, mode));
    CreateFoldAt(e, mode, GroupClass(e));
  }

  lemma MaskKept(e: seq<Entry>, r: seq<Entry>)
    requires SameNames(e, r)
    ensures HasMask(r) <==> HasMask(e)
  {
    var a, b := LastTag(e, TAG_MASK), LastTag(r, TAG_MASK);
    if a >= 0 { assert r[a].tag == TAG_MASK; }
    if b >= 0 { assert e[b].tag == TAG_MASK; }
  }

  /** An entry of the group class, under the mask, grants after the fold what it did before and
      the group triad allows. */
  lemma EntryMoves(e: seq<Entry>, mode: bv32, k: nat, want: bv32)
    requires IsAcl(e) && (HasMask(e) || NamedWithin(e, mode)) && k < |e| == |CreateFold(e, mode)|
    requires e[k].tag == TAG_GROUP_OBJ || (Named(e[k]) && Reachable(e, k))
    ensures Grants(CreateFold(e, mode)[k].perm, MaskPerm(CreateFold(e, mode)), want) <==>
            Grants(e[k].perm, MaskPerm(e), want) && Covers(GroupBits(mode), want)
  {
    hide IsAcl, CreateFold, GroupClass, MaskPerm, Limit, Covers, Grants, GroupBits, HasMask, Within, Reachable;
    CreateMask(e, mode);
    CreateFoldAt(e, mode, k);
    LimitGrants(e[k].perm, MaskPerm(e), GroupBits(mode), want);
    CoversFacts(e[k].perm, 7, want);
    CoversFacts(e[k].perm, GroupBits(mode), want);
    if e[k].tag == TAG_GROUP_OBJ && !HasMask(e) { LastGroupObj(e, k); }
  }

  /** The folded list grants what the list does and the triad of the caller's class allows. */
  ghost predicate Inherits(e: seq<Entry>, mode: bv32, m: Meta, c: Creds, want: bv32)
    requires e != []
  {
    Access(m, CreateFold(e, mode), c, want) <==> Access(m, e, c, want) && Covers(ClassBits(m, e, c, mode), want)
  }

  lemma CreateExact(e: seq<Entry>, mode: bv32, m: Meta, c: Creds, want: bv32)
    requires IsAcl(e) && (HasMask(e) || NamedWithin(e, mode))
    ensures e != [] && Inherits(e, mode, m, c, want)
  {
    hide IsAcl, CreateFold, HasMask, MaskPerm, Limit, Covers, Grants, OwnerBits, GroupBits, OtherBits, NamedWithin;
    hide UserGrants, GroupGrants, AnyUserHit, AnyGroupHit, SameNames;
    CreateEnds(e, mode);
    SameHits(e, CreateFold(e, mode), m, c);
    LimitCovers(e[0].perm, OwnerBits(mode), want);
    LimitCovers(e[|e| - 1].perm, OtherBits(mode), want);
    CreateUser(e, mode, c, want);
    CreateGroup(e, mode, m, c, want);
  }

  lemma CreateEnds(e: seq<Entry>, mode: bv32)
    requires IsAcl(e)
    ensures var r := CreateFold(e, mode);
      && e != [] && SameNames(e, r) && r[0].perm == Limit(e[0].perm, OwnerBits(mode))
      && r[|r| - 1].perm == Limit(e[|e| - 1].perm, OtherBits(mode))
  {
    PlaceTags(e, 0);
    PlaceTags(e, |e| - 1);
    hide IsAcl, CreateFold, Limit, OwnerBits, OtherBits, GroupBits, GroupClass, HasMask, MaskPerm;
    FoldsKeepAcl(e, mode);
    CreateFoldAt(e, mode, 0);
    CreateFoldAt(e, mode, |e| - 1);
    MaskIs(e);
  }

  lemma CreateUser(e: seq<Entry>, mode: bv32, c: Creds, want: bv32)
    requires IsAcl(e) && (HasMask(e) || NamedWithin(e, mode)) && SameNames(e, CreateFold(e, mode))
    ensures UserGrants(CreateFold(e, mode), c, MaskPerm(CreateFold(e, mode)), want) <==>
            UserGrants(e, c, MaskPerm(e), want) && Covers(GroupBits(mode), want)
  {
    hide IsAcl, CreateFold, HasMask, MaskPerm, Covers, Grants, GroupBits, NamedWithin, UserGrants;
    var r := CreateFold(e, mode);
    forall k | 0 <= k < |e| && UserHit(c, e[k]) && (forall j :: 0 <= j < k ==> !UserHit(c, e[j]))
      ensures Grants(r[k].perm, MaskPerm(r), want) <==>
              Grants(e[k].perm, MaskPerm(e), want) && Covers(GroupBits(mode), want)
    {
      forall j | 0 <= j < k ensures !(e[j].tag == TAG_USER && e[j].id == e[k].id) { assert !UserHit(c, e[j]); }
      EntryMoves(e, mode, k, want);
    }
    UserMoves(e, r, c, MaskPerm(e), MaskPerm(r), GroupBits(mode), want);
  }

  lemma CreateGroup(e: seq<Entry>, mode: bv32, m: Meta, c: Creds, want: bv32)
    requires IsAcl(e) && (HasMask(e) || NamedWithin(e, mode)) && SameNames(e, CreateFold(e, mode))
    ensures GroupGrants(CreateFold(e, mode), m, c, MaskPerm(CreateFold(e, mode)), want) <==>
            GroupGrants(e, m, c, MaskPerm(e), want) && Covers(GroupBits(mode), want)
  {
    hide IsAcl, CreateFold, HasMask, MaskPerm, Covers, Grants, GroupBits, NamedWithin, GroupGrants, InGroup;
    var r := CreateFold(e, mode);
    forall k | 0 <= k < |e| && GroupHit(m, c, e[k])
      ensures Grants(r[k].perm, MaskPerm(r), want) <==>
              Grants(e[k].perm, MaskPerm(e), want) && Covers(GroupBits(mode), want)
    {
      EntryMoves(e, mode, k, want);
    }
    GroupMoves(e, r, m, c, MaskPerm(e), MaskPerm(r), GroupBits(mode), want);
  }

  /** Without a MASK a named entry that exceeds the group triad is inherited whole. */
  lemma NamedEscapes(e: seq<Entry>, mode: bv32, i: nat) returns (m: Meta, c: Creds, want: bv32)
    requires IsAcl(e) && !HasMask(e) && i < |e| && Named(e[i]) && Reachable(e, i) && !Within(e[i].perm, GroupBits(mode))
    ensures e != [] && !Inherits(e, mode, m, c, want)
  {
    hide IsAcl, CreateFold, Covers, Grants, Within, MaskPerm, HasMask, OwnerBits, GroupBits, OtherBits, GroupClass, Low;
    hide Limit;
    var r := CreateFold(e, mode);
    want := e[i].perm;
    FoldsKeepAcl(e, mode);
    CreateMask(e, mode);
    CreateFoldAt(e, mode, i);
    LowPerms(e);
    CoversFacts(want, GroupBits(mode), want);
    NamedIds(e);
    if e[i].tag == TAG_USER {
      m, c := Meta(0, UNDEF_ID, UNDEF_ID), Creds(e[i].id, UNDEF_ID, []);
      assert UserHit(c, e[i]) && UserHit(c, r[i]);
      forall j | 0 <= j < i ensures !UserHit(c, r[j]) { assert e[j].tag == r[j].tag; }
      assert UserGrants(r, c, MaskPerm(r), want);
    } else {
      m, c := Meta(0, 0, UNDEF_ID), Creds(UNDEF_ID, e[i].id, []);
      assert !AnyUserHit(e, c) && !AnyUserHit(r, c);
      assert GroupHit(m, c, e[i]) && GroupHit(m, c, r[i]);
      assert GroupGrants(r, m, c, MaskPerm(r), want);
    }
    assert Access(m, r, c, want) && ClassBits(m, e, c, mode) == GroupBits(mode);
  }

  /** Inheritance is exact for every caller and request if and only if the list has a MASK or
      no reachable named entry holds a right that the group triad lacks. */
  lemma CreateExactIff(e: seq<Entry>, mode: bv32)
    requires IsAcl(e)
    ensures e != [] && ((forall m, c, want :: Inherits(e, mode, m, c, want)) <==> HasMask(e) || NamedWithin(e, mode))
  {
    CreateEnds(e, mode);
    hide IsAcl, Inherits, HasMask, Within, Reachable, GroupBits;
    if HasMask(e) || NamedWithin(e, mode) {
      forall m, c, want ensures Inherits(e, mode, m, c, want) { CreateExact(e, mode, m, c, want); }
    } else {
      var i :| 0 <= i < |e| && Named(e[i]) && Reachable(e, i) && !Within(e[i].perm, GroupBits(mode));
      var m, c, want := NamedEscapes(e, mode, i);
    }
  }

  lemma MeetBits(mode: bv32, u: bv32, g: bv32, o: bv32)
    requires Low(u) && Low(g) && Low(o)
    ensures Pack(Limit(u, OwnerBits(mode)), Limit(g, GroupBits(mode)), Limit(o, OtherBits(mode))) ==
            Pack(u, g, o) & mode & 0x1ff
  {
  }

  /** The mode that inheritance returns is the list's mirror cut by the mode it was given. */
  lemma CreatedMode(e: seq<Entry>, mode: bv32)
    requires IsAcl(e)
    ensures GroupClass(e) > 0 && GroupClass(CreateFold(e, mode)) > 0
    ensures MirrorBits(CreateFold(e, mode)) == MirrorBits(e) & mode & 0x1ff
  {
    MirrorCreated(e, mode);
    LowPerms(e);
    MeetBits(mode, e[0].perm, e[GroupClass(e)].perm, e[|e| - 1].perm);
  }

  // ---- the chmod fold ----

  /** The rights of entry `i` after a chmod: without a MASK the owning group gets the triad. */
  ghost function ChmodPerm(e: seq<Entry>, mode: bv32, i: nat): bv32
    requires i < |e|
  {
    if e[i].tag == TAG_GROUP_OBJ && !HasMask(e) then (mode >> 3) & 7 else e[i].perm
  }

  /** ... and the mask after it. */
  ghost function ChmodCap(e: seq<Entry>, mode: bv32): bv32 {
    if HasMask(e) then (mode >> 3) & 7 else 7
  }

  ghost predicate UserAfterChmod(e: seq<Entry>, c: Creds, mode: bv32, want: bv32) {
    exists i :: 0 <= i < |e| && UserHit(c, e[i]) && (forall j :: 0 <= j < i ==> !UserHit(c, e[j])) &&
      Grants(e[i].perm, ChmodCap(e, mode), want)
  }

  ghost predicate GroupAfterChmod(e: seq<Entry>, m: Meta, c: Creds, mode: bv32, want: bv32) {
    exists i :: 0 <= i < |e| && GroupHit(m, c, e[i]) && Grants(ChmodPerm(e, mode, i), ChmodCap(e, mode), want)
  }

  lemma ChmodEntries(e: seq<Entry>, mode: bv32, k: nat)
    requires IsAcl(e) && k < |e| && (Named(e[k]) || e[k].tag == TAG_GROUP_OBJ)
    ensures ChmodFold(e, mode)[k].perm == ChmodPerm(e, mode, k)
  {
    hide IsAcl, ChmodFold, GroupClass, MaskPerm, HasMask;
    ChmodFoldAt(e, mode, k);
    MaskIs(e);
    if e[k].tag == TAG_GROUP_OBJ && !HasMask(e) { LastGroupObj(e, k); }
  }

  /** After a chmod the owner and the others have the triads of the new mode; named users and
      groups keep their rights, capped by the group triad if there is a MASK; and so does the
      owning group, which has the group triad if there is none. */
  lemma ChmodExact(e: seq<Entry>, mode: bv32, m: Meta, c: Creds, want: bv32)
    requires IsAcl(e)
    ensures ChmodFold(e, mode) != []
    ensures Access(m, ChmodFold(e, mode), c, want) <==>
      if c.uid == m.uid then Covers((mode >> 6) & 7, want)
      else if AnyUserHit(e, c) then UserAfterChmod(e, c, mode, want)
      else if AnyGroupHit(e, m, c) then GroupAfterChmod(e, m, c, mode, want)
      else Covers(mode & 7, want)
  {
    PlaceTags(e, 0);
    PlaceTags(e, |e| - 1);
    hide IsAcl, ChmodFold, HasMask, MaskPerm, Covers, Grants, InGroup, GroupClass, ChmodPerm, ChmodCap;
    var r := ChmodFold(e, mode);
    FoldsKeepAcl(e, mode);
    ChmodMask(e, mode);
    ChmodCapIs(e, mode);
    SameHits(e, r, m, c);
    ChmodFoldAt(e, mode, 0);
    ChmodFoldAt(e, mode, |e| - 1);
    ChmodUser(e, mode, c, want);
    ChmodGroup(e, mode, m, c, want);
    hide UserGrants, GroupGrants, AnyUserHit, AnyGroupHit, UserAfterChmod, GroupAfterChmod;
  }

  lemma ChmodCapIs(e: seq<Entry>, mode: bv32)
    ensures ChmodCap(e, mode) == if HasMask(e) then GroupBits(mode) else 7
  {
  }

  lemma ChmodUser(e: seq<Entry>, mode: bv32, c: Creds, want: bv32)
    requires IsAcl(e) && SameNames(e, ChmodFold(e, mode))
    ensures UserGrants(ChmodFold(e, mode), c, ChmodCap(e, mode), want) <==> UserAfterChmod(e, c, mode, want)
  {
    hide IsAcl, ChmodFold, Covers, Grants, ChmodPerm, ChmodCap;
    var r := ChmodFold(e, mode);
    forall k | 0 <= k < |e| ensures UserHit(c, r[k]) <==> UserHit(c, e[k]) {}
    forall k | 0 <= k < |e| && UserHit(c, e[k]) ensures r[k].perm == e[k].perm {
      ChmodEntries(e, mode, k);
      UserPerm(e, mode, k);
    }
    hide UserHit;
    if i :| 0 <= i < |r| && UserHit(c, r[i]) && (forall j :: 0 <= j < i ==> !UserHit(c, r[j])) &&
            Grants(r[i].perm, ChmodCap(e, mode), want) {
      assert UserHit(c, e[i]) && forall j :: 0 <= j < i ==> !UserHit(c, e[j]);
    }
    if i :| 0 <= i < |e| && UserHit(c, e[i]) && (forall j :: 0 <= j < i ==> !UserHit(c, e[j])) &&
            Grants(e[i].perm, ChmodCap(e, mode), want) {
      assert UserHit(c, r[i]) && forall j :: 0 <= j < i ==> !UserHit(c, r[j]);
    }
  }

  lemma UserPerm(e: seq<Entry>, mode: bv32, k: nat)
    requires k < |e| && e[k].tag == TAG_USER
    ensures ChmodPerm(e, mode, k) == e[k].perm
  {
  }

  lemma ChmodGroup(e: seq<Entry>, mode: bv32, m: Meta, c: Creds, want: bv32)
    requires IsAcl(e) && SameNames(e, ChmodFold(e, mode))
    ensures GroupGrants(ChmodFold(e, mode), m, c, ChmodCap(e, mode), want) <==> GroupAfterChmod(e, m, c, mode, want)
  {
    hide IsAcl, ChmodFold, Covers, Grants, InGroup, ChmodPerm, ChmodCap;
    var r := ChmodFold(e, mode);
    forall k | 0 <= k < |e| ensures GroupHit(m, c, r[k]) <==> GroupHit(m, c, e[k]) {}
    forall k | 0 <= k < |e| && GroupHit(m, c, e[k]) ensures r[k].perm == ChmodPerm(e, mode, k) {
      ChmodEntries(e, mode, k);
    }
    hide GroupHit;
    if i :| 0 <= i < |r| && GroupHit(m, c, r[i]) && Grants(r[i].perm, ChmodCap(e, mode), want) {
      assert GroupHit(m, c, e[i]);
    }
    if i :| 0 <= i < |e| && GroupHit(m, c, e[i]) && Grants(ChmodPerm(e, mode, i), ChmodCap(e, mode), want) {
      assert GroupHit(m, c, r[i]);
    }
  }

  // ---- what the folds answer ----

  /** A fold says that a list is more than a mode exactly when it has more than three entries. */
  lemma PlainIffThree(e: seq<Entry>)
    requires IsAcl(e)
    ensures NotEquivalent(e) <==> |e| > 3
  {
    var g: nat, h: nat :| Shape(e, g, h);
    if |e| > 3 {
      assert Extended(e[if g > 1 then 1 else if h > g + 1 then g + 1 else h]);
    }
  }

  /** A valid list is never refused. */
  lemma ValidIsFolded(e: seq<Entry>)
    requires IsAcl(e)
    ensures AllKnown(e) && GroupClass(e) >= 0
  {
    GroupClassPlace(e);
    forall k | 0 <= k < |e| ensures Known(e[k]) { PlaceTags(e, k); }
  }
}
