/** Access evaluation over a mode and an optional access control list. */
module AclEval {
  import opened Options
  import opened AclBlob
  import opened AclShape

  datatype Meta = Meta(mode: bv32, uid: bv32, gid: bv32)
  datatype Creds = Creds(uid: bv32, gid: bv32, groups: seq<bv32>)

  predicate InGroup(c: Creds, g: bv32) {
    c.gid == g || g in c.groups
  }

  /** Every requested right is granted. */
  predicate Covers(perm: bv32, want: bv32) {
    perm & want == want
  }

  function OwnerTriad(mode: bv32): bv32 { mode >> 6 }
  function GroupTriad(mode: bv32): bv32 { mode >> 3 }

  predicate Grants(perm: bv32, mask: bv32, want: bv32) {
    Covers(perm & mask, want)
  }

  /** The plain mode check: owner, else group, else other. */
  predicate ModeAccess(m: Meta, c: Creds, want: bv32) {
    if c.uid == m.uid then Covers(OwnerTriad(m.mode), want)
    else if InGroup(c, m.gid) then Covers(GroupTriad(m.mode), want)
    else Covers(m.mode, want)
  }

  predicate UserHit(c: Creds, x: Entry) {
    x.tag == TAG_USER && x.id == c.uid
  }

  predicate GroupHit(m: Meta, c: Creds, x: Entry) {
    (x.tag == TAG_GROUP_OBJ && InGroup(c, m.gid)) || (x.tag == TAG_GROUP && InGroup(c, x.id))
  }

  /** The MASK entry's rights; without one the group class is unbounded. */
  function MaskPerm(e: seq<Entry>): bv32 {
    if e == [] then 7 else if e[0].tag == TAG_MASK then e[0].perm else MaskPerm(e[1..])
  }

  ghost predicate AnyUserHit(e: seq<Entry>, c: Creds) {
    exists i :: 0 <= i < |e| && UserHit(c, e[i])
  }

  ghost predicate AnyGroupHit(e: seq<Entry>, m: Meta, c: Creds) {
    exists i :: 0 <= i < |e| && GroupHit(m, c, e[i])
  }

  /** The first entry that names the caller decides, under the mask. */
  ghost predicate UserGrants(e: seq<Entry>, c: Creds, mask: bv32, want: bv32) {
    exists i :: 0 <= i < |e| && UserHit(c, e[i]) &&
      (forall j :: 0 <= j < i ==> !UserHit(c, e[j])) && Grants(e[i].perm, mask, want)
  }

  /** Some one matching group-class entry grants everything requested, under the mask. */
  ghost predicate GroupGrants(e: seq<Entry>, m: Meta, c: Creds, mask: bv32, want: bv32) {
    exists i :: 0 <= i < |e| && GroupHit(m, c, e[i]) && Grants(e[i].perm, mask, want)
  }

  /** The access check of POSIX.1e: the owner by the owner entry, a named user by its
      entry under the mask, a member of any listed group if one of those entries grants
      under the mask, and anybody else by the other entry. */
  ghost predicate Access(m: Meta, e: seq<Entry>, c: Creds, want: bv32)
    requires e != []
  {
    if c.uid == m.uid then Covers(e[0].perm, want)
    else if AnyUserHit(e, c) then UserGrants(e, c, MaskPerm(e), want)
    else if AnyGroupHit(e, m, c) then GroupGrants(e, m, c, MaskPerm(e), want)
    else Covers(e[|e| - 1].perm, want)
  }

  /** No blob, or one too short or ragged to hold three entries: the mode decides. */
  predicate ModeOnly(acl: Option<Blob>) {
    acl.None? || |acl.value| < 4 + 3 * 8 || (|acl.value| - 4) % 8 != 0
  }

  method FindMask(b: Blob) returns (mask: bv32)
    ensures mask == MaskPerm(Decode(b))
  {
    ghost var e := Decode(b);
    assert e[0..] == e;
    for i := 0 to Count(b)
      invariant MaskPerm(e) == MaskPerm(e[i..])
    {
      assert e[i..][1..] == e[i + 1..];
      if EntryAt(b, i).tag == TAG_MASK {
        return EntryAt(b, i).perm;
      }
    }
    mask := 7;
  }

  /** Entries before `i` neither matched the caller nor ended the list. */
  ghost predicate Undecided(e: seq<Entry>, i: nat, m: Meta, c: Creds, mask: bv32, want: bv32, found: bool) {
    && i <= |e|
    && (forall j :: 0 <= j < i ==> !UserHit(c, e[j]) && e[j].tag != TAG_OTHER)
    && (forall j :: 0 <= j < i ==> e[j].tag == TAG_USER_OBJ ==> c.uid != m.uid)
    && (forall j :: 0 <= j < i && GroupHit(m, c, e[j]) ==> !Grants(e[j].perm, mask, want))
    && (found <==> exists j :: 0 <= j < i && GroupHit(m, c, e[j]))
  }

  lemma NothingDecided(e: seq<Entry>, m: Meta, c: Creds, mask: bv32, want: bv32)
    ensures Undecided(e, 0, m, c, mask, want, false)
  {
  }

  lemma StillUndecided(e: seq<Entry>, i: nat, m: Meta, c: Creds, mask: bv32, want: bv32, found: bool)
    requires Undecided(e, i, m, c, mask, want, found) && i < |e| && !UserHit(c, e[i]) && e[i].tag != TAG_OTHER
    requires (e[i].tag == TAG_USER_OBJ ==> c.uid != m.uid) && (GroupHit(m, c, e[i]) ==> !Grants(e[i].perm, mask, want))
    ensures Undecided(e, i + 1, m, c, mask, want, found || GroupHit(m, c, e[i]))
  {
    hide Grants, UserHit, GroupHit;
  }

  /** acl_eval. Without a list the mode triad decides; on a valid list the single
      ordered scan gives the declarative answer. */
  method Eval(m: Meta, acl: Option<Blob>, c: Creds, want: bv32) returns (ok: bool)
    ensures ModeOnly(acl) ==> ok == ModeAccess(m, c, want)
    ensures acl.None? || |acl.value| < 28 || |acl.value| % 8 != 4 ==> ok == ModeAccess(m, c, want)
    ensures !ModeOnly(acl) && IsAcl(Decode(acl.value)) ==> ok == Access(m, Decode(acl.value), c, want)
  {
    hide Grants, Covers, MaskPerm, Shape, Access, EntryAt, ModeAccess, Undecided, UserHit, IsAcl, InGroup;
    if ModeOnly(acl) {
      return ModeAccess(m, c, want);
    }
    var b := acl.value;
    ghost var e := Decode(b);
    var mask := FindMask(b);
    var found := false;
    NothingDecided(e, m, c, mask, want);
    for i := 0 to Count(b)
      invariant Undecided(e, i, m, c, mask, want, found)
    {
      var x := EntryAt(b, i);
      ghost var before := found;
      if x.tag == TAG_USER_OBJ && c.uid == m.uid {
        if IsAcl(e) { OwnerDecides(e, i, m, c, want); }
        return Covers(x.perm, want);
      }
      if UserHit(c, x) {
        if IsAcl(e) { UserDecides(e, i, m, c, mask, want, found); }
        return Grants(x.perm, mask, want);
      }
      if GroupHit(m, c, x) {
        found := true;
        if Grants(x.perm, mask, want) {
          if IsAcl(e) { GroupDecides(e, i, m, c, mask, want, before); }
          return true;
        }
      } else if x.tag == TAG_OTHER {
        if IsAcl(e) { OtherDecides(e, i, m, c, mask, want, found); }
        return !found && Covers(x.perm, want);
      } else if x.tag != TAG_USER_OBJ && x.tag != TAG_USER &&
             x.tag != TAG_GROUP_OBJ && x.tag != TAG_GROUP && x.tag != TAG_MASK {
        if IsAcl(e) { KnownTag(e, i); }
        return false;
      }
      StillUndecided(e, i, m, c, mask, want, before);
    }
    OtherEndsScan(e, m, c, mask, want, found);
    ok := false;
  }

  lemma OtherEndsScan(e: seq<Entry>, m: Meta, c: Creds, mask: bv32, want: bv32, found: bool)
    requires Undecided(e, |e|, m, c, mask, want, found)
    ensures !IsAcl(e)
  {
    if IsAcl(e) {
      EndsInOther(e);
      assert false;
    }
  }

  lemma OwnerDecides(e: seq<Entry>, i: nat, m: Meta, c: Creds, want: bv32)
    requires IsAcl(e) && i < |e| && e[i].tag == TAG_USER_OBJ && c.uid == m.uid
    ensures Access(m, e, c, want) <==> Covers(e[i].perm, want)
  {
    var g, h :| Shape(e, g, h);
    assert i == 0;
  }

  lemma KnownTag(e: seq<Entry>, i: nat)
    requires IsAcl(e) && i < |e|
    ensures e[i].tag in {TAG_USER_OBJ, TAG_USER, TAG_GROUP_OBJ, TAG_GROUP, TAG_MASK, TAG_OTHER}
  {
    var g, h :| Shape(e, g, h);
  }

  lemma EndsInOther(e: seq<Entry>)
    requires IsAcl(e)
    ensures e[|e| - 1].tag == TAG_OTHER && e[0].tag == TAG_USER_OBJ
  {
  }

  lemma UserDecides(e: seq<Entry>, i: nat, m: Meta, c: Creds, mask: bv32, want: bv32, found: bool)
    requires IsAcl(e) && i < |e| && mask == MaskPerm(e) && Undecided(e, i, m, c, mask, want, found) && UserHit(c, e[i])
    ensures Access(m, e, c, want) <==> Grants(e[i].perm, mask, want)
  {
    hide Grants, Covers, MaskPerm;
    EndsInOther(e);
    assert e[0].tag != TAG_USER;
    if UserGrants(e, c, mask, want) {
      var k :| 0 <= k < |e| && UserHit(c, e[k]) &&
               (forall j :: 0 <= j < k ==> !UserHit(c, e[j])) && Grants(e[k].perm, mask, want);
      assert k == i;
    }
  }

  lemma GroupDecides(e: seq<Entry>, i: nat, m: Meta, c: Creds, mask: bv32, want: bv32, found: bool)
    requires IsAcl(e) && i < |e| && mask == MaskPerm(e) && Undecided(e, i, m, c, mask, want, found)
    requires GroupHit(m, c, e[i]) && Grants(e[i].perm, mask, want)
    ensures Access(m, e, c, want)
  {
    hide Grants, Covers, MaskPerm;
    var g, h :| Shape(e, g, h);
    assert i >= g;
    assert !AnyUserHit(e, c);
  }

  lemma OtherDecides(e: seq<Entry>, i: nat, m: Meta, c: Creds, mask: bv32, want: bv32, found: bool)
    requires IsAcl(e) && i < |e| && mask == MaskPerm(e) && Undecided(e, i, m, c, mask, want, found)
    requires e[i].tag == TAG_OTHER
    ensures Access(m, e, c, want) <==> !found && Covers(e[i].perm, want)
  {
    hide Grants, Covers, MaskPerm;
    var g, h :| Shape(e, g, h);
    assert i + 1 == |e|;
    assert !AnyUserHit(e, c);
    assert AnyGroupHit(e, m, c) <==> found;
    assert !GroupGrants(e, m, c, mask, want);
  }
}
