/** Folding a mode into an access control list, in place, and reading it back. */
module AclFold {
  import opened AclBlob
  import opened AclShape

  // ---- mode bits ----

  function OwnerBits(mode: bv32): bv32 { (mode >> 6) & 7 }
  function GroupBits(mode: bv32): bv32 { (mode >> 3) & 7 }
  function OtherBits(mode: bv32): bv32 { mode & 7 }

  function Limit(p: bv32, q: bv32): bv32 { p & q }
  function Pack(u: bv32, g: bv32, o: bv32): bv32 { (u << 6) | (g << 3) | o }
  function NineBits(mode: bv32): bv32 { mode & 0x1ff }

  function WithOwner(mode: bv32, p: bv32): bv32 { (mode & !0x1c0) | (p << 6) }
  function WithGroup(mode: bv32, p: bv32): bv32 { (mode & !0x38) | (p << 3) }
  function WithOther(mode: bv32, p: bv32): bv32 { (mode & !7) | p }

  lemma OwnerKeeps(mode: bv32, p: bv32)
    requires p & !7 == 0
    ensures OtherBits(WithOwner(mode, p)) == OtherBits(mode) && GroupBits(WithOwner(mode, p)) == GroupBits(mode)
  {
  }

  lemma OtherKeeps(mode: bv32, p: bv32)
    requires p & !7 == 0
    ensures GroupBits(WithOther(mode, p)) == GroupBits(mode)
  {
  }

  lemma AllReplaced(mode: bv32, u: bv32, g: bv32, o: bv32)
    requires u & !7 == 0 && g & !7 == 0 && o & !7 == 0
    ensures NineBits(WithGroup(WithOther(WithOwner(mode, u), o), g)) == Pack(u, g, o)
  {
  }

  // ---- what the folds compute ----

  function LastTag(e: seq<Entry>, t: bv32): (k: int)
    ensures -1 <= k < |e| && (k >= 0 ==> e[k].tag == t) && forall i :: k < i < |e| ==> e[i].tag != t
  {
    if e == [] then -1 else if e[|e| - 1].tag == t then |e| - 1 else LastTag(e[..|e| - 1], t)
  }

  /** The entry that stands for the group class: MASK if there is one, else GROUP_OBJ. */
  function GroupClass(e: seq<Entry>): (k: int)
    ensures -1 <= k < |e|
  {
    if LastTag(e, TAG_MASK) >= 0 then LastTag(e, TAG_MASK) else LastTag(e, TAG_GROUP_OBJ)
  }

  predicate Known(x: Entry) {
    x.tag in {TAG_USER_OBJ, TAG_USER, TAG_GROUP_OBJ, TAG_GROUP, TAG_MASK, TAG_OTHER}
  }

  /** Named entries or a MASK: more than a mode can say. */
  predicate Extended(x: Entry) {
    x.tag == TAG_USER || x.tag == TAG_GROUP || x.tag == TAG_MASK
  }

  ghost predicate NotEquivalent(e: seq<Entry>) {
    exists i :: 0 <= i < |e| && Extended(e[i])
  }

  function ChmodBase(x: Entry, mode: bv32): Entry {
    if x.tag == TAG_USER_OBJ then x.(perm := OwnerBits(mode))
    else if x.tag == TAG_OTHER then x.(perm := OtherBits(mode))
    else x
  }

  /** Base entries set from the mode. */
  function ChmodFold(e: seq<Entry>, mode: bv32): (r: seq<Entry>)
    ensures |r| == |e|
  {
    seq(|e|, k requires 0 <= k < |e| =>
      if k == GroupClass(e) then e[k].(perm := GroupBits(mode)) else ChmodBase(e[k], mode))
  }

  function CreateBase(x: Entry, mode: bv32): Entry {
    if x.tag == TAG_USER_OBJ then x.(perm := Limit(x.perm, OwnerBits(mode)))
    else if x.tag == TAG_OTHER then x.(perm := Limit(x.perm, OtherBits(mode)))
    else x
  }

  /** Base entries limited by the mode. */
  function CreateFold(e: seq<Entry>, mode: bv32): (r: seq<Entry>)
    ensures |r| == |e|
  {
    seq(|e|, k requires 0 <= k < |e| =>
      if k == GroupClass(e) then e[k].(perm := Limit(e[k].perm, GroupBits(mode))) else CreateBase(e[k], mode))
  }

  /** The nine bits that mirror a list. */
  function MirrorBits(e: seq<Entry>): bv32
    requires e != [] && GroupClass(e) >= 0
  {
    Pack(e[0].perm, e[GroupClass(e)].perm, e[|e| - 1].perm)
  }

  // ---- in place ----

  method PutPerm(a: array<bv8>, i: nat, p: bv32)
    requires i < Count(a[..]) && p <= 0xffff
    modifies a
    ensures a[..] == SetPerm(old(a[..]), i, p)
    ensures Decode(a[..]) == old(Decode(a[..]))[i := old(EntryAt(a[..], i)).(perm := p)]
    ensures a[..4] == old(a[..4])
  {
    SetPermDecode(a[..], i, p);
    a[4 + 8 * i + 2] := (p & 0xff) as bv8;
    a[4 + 8 * i + 3] := ((p >> 8) & 0xff) as bv8;
    assert a[..] == SetPerm(old(a[..]), i, p);
    assert a[..4] == a[..][..4] && old(a[..4]) == old(a[..])[..4];
  }

  /** How far a fold's loop has come: base entries before `i` are rewritten, the last
      GROUP_OBJ and MASK before `i` are remembered. */
  ghost predicate Folded(e0: seq<Entry>, e: seq<Entry>, i: nat, base: Entry -> Entry, gobj: int, mobj: int, ext: bool) {
    && |e| == |e0| && i <= |e0|
    && (forall k :: 0 <= k < |e0| ==> e[k] == if k < i then base(e0[k]) else e0[k])
    && gobj == LastTag(e0[..i], TAG_GROUP_OBJ) && mobj == LastTag(e0[..i], TAG_MASK)
    && (ext <==> exists k :: 0 <= k < i && Extended(e0[k]))
    && (forall k :: 0 <= k < i ==> Known(e0[k]))
  }

  lemma FoldedStep(e0: seq<Entry>, e: seq<Entry>, i: nat, base: Entry -> Entry, gobj: int, mobj: int, ext: bool)
    requires Folded(e0, e, i, base, gobj, mobj, ext) && i < |e0| && Known(e0[i])
    ensures Folded(e0, e[i := base(e0[i])], i + 1, base, if e0[i].tag == TAG_GROUP_OBJ then i else gobj,
                   if e0[i].tag == TAG_MASK then i else mobj, ext || Extended(e0[i]))
  {
    assert e0[..i + 1][..i] == e0[..i];
  }

  lemma FoldedStart(e0: seq<Entry>, base: Entry -> Entry)
    ensures Folded(e0, e0, 0, base, -1, -1, false)
  {
  }

  lemma FoldedNext(e0: seq<Entry>, e: seq<Entry>, i: nat, base: Entry -> Entry, gobj: int, mobj: int, ext: bool)
    requires Folded(e0, e, i, base, gobj, mobj, ext) && i < |e0|
    ensures |e| == |e0| && e[i] == e0[i]
  {
  }

  lemma FoldedEnd(e0: seq<Entry>, e: seq<Entry>, base: Entry -> Entry, gobj: int, mobj: int, ext: bool)
    requires Folded(e0, e, |e0|, base, gobj, mobj, ext)
    ensures BasesFolded(e0, e, base) && AllKnown(e0)
    ensures GroupClass(e0) == (if mobj >= 0 then mobj else gobj) && (ext <==> NotEquivalent(e0))
  {
    assert e0[..|e0|] == e0;
  }

  /** The rewrite of one base entry by chmod. */
  method ChmodEntry(a: array<bv8>, i: nat, mode: bv32)
    requires i < Count(a[..])
    modifies a
    ensures Decode(a[..]) == old(Decode(a[..]))[i := ChmodBase(old(EntryAt(a[..], i)), mode)]
    ensures a[..4] == old(a[..4])
  {
    var x := EntryAt(a[..], i);
    if x.tag == TAG_USER_OBJ {
      PutPerm(a, i, OwnerBits(mode));
    } else if x.tag == TAG_OTHER {
      PutPerm(a, i, OtherBits(mode));
    }
  }

  /** The loop of acl_chmod_masq: the base entries, and which entry is the group class. */
  method ChmodBases(a: array<bv8>, mode: bv32) returns (ok: bool, gce: int, ext: bool)
    requires a.Length >= 4
    modifies a
    ensures a[..4] == old(a[..4])
    ensures ok <==> AllKnown(old(Decode(a[..])))
    ensures ok ==> gce == GroupClass(old(Decode(a[..]))) && (ext <==> NotEquivalent(old(Decode(a[..]))))
    ensures ok ==> BasesFolded(old(Decode(a[..])), Decode(a[..]), (x: Entry) => ChmodBase(x, mode))
  {
    ghost var e0 := Decode(a[..]);
    ghost var base := (x: Entry) => ChmodBase(x, mode);
    var gobj, mobj := -1, -1;
    ext := false;
    FoldedStart(e0, base);
    hide Folded, EntryAt, ChmodBase, Known, NotEquivalent, BasesFolded, GroupClass;
    for i := 0 to Count(a[..])
      invariant a[..4] == old(a[..4])
      invariant Folded(e0, Decode(a[..]), i, base, gobj, mobj, ext)
    {
      FoldedNext(e0, Decode(a[..]), i, base, gobj, mobj, ext);
      var x := EntryAt(a[..], i);
      if !Known(x) { return false, -1, ext; }
      FoldedStep(e0, Decode(a[..]), i, base, gobj, mobj, ext);
      ChmodEntry(a, i, mode);
      gobj := if x.tag == TAG_GROUP_OBJ then i else gobj;
      mobj := if x.tag == TAG_MASK then i else mobj;
      ext := ext || Extended(x);
    }
    FoldedEnd(e0, Decode(a[..]), base, gobj, mobj, ext);
    ok, gce := true, if mobj >= 0 then mobj else gobj;
  }

  lemma KnownTags(e: seq<Entry>)
    requires AllKnown(e)
    ensures forall x :: x in e ==> x.tag in {0x01, 0x02, 0x04, 0x08, 0x10, 0x20}
  {
  }

  /** acl_chmod_masq: -1 for a list with an unknown tag or no group class, else whether
      the list still says more than the mode. */
  method Chmod(a: array<bv8>, mode: bv32) returns (r: int)
    requires a.Length >= 4
    modifies a
    ensures a[..4] == old(a[..4])
    ensures r == -1 <==> !AllKnown(old(Decode(a[..]))) || GroupClass(old(Decode(a[..]))) < 0
    ensures r != -1 ==> Decode(a[..]) == ChmodFold(old(Decode(a[..])), mode)
    ensures r != -1 ==> r == if NotEquivalent(old(Decode(a[..]))) then 1 else 0
    ensures (exists x :: x in old(Decode(a[..])) && x.tag !in {0x01, 0x02, 0x04, 0x08, 0x10, 0x20}) ==> r == -1
  {
    if AllKnown(Decode(a[..])) { KnownTags(Decode(a[..])); }
    hide EntryAt, NotEquivalent, AllKnown, GroupClass;
    var ok, gce, ext := ChmodBases(a, mode);
    if !ok || gce < 0 { return -1; }
    PutPerm(a, gce, GroupBits(mode));
    r := if ext then 1 else 0;
  }

  ghost predicate AllKnown(e: seq<Entry>) {
    forall k :: 0 <= k < |e| ==> Known(e[k])
  }

  ghost predicate BasesFolded(e0: seq<Entry>, e: seq<Entry>, base: Entry -> Entry) {
    |e| == |e0| && forall k :: 0 <= k < |e0| ==> e[k] == base(e0[k])
  }

  // ---- the create fold ----

  /** The running mode after one entry. */
  function ModeAfter(x: Entry, mode: bv32): bv32 {
    if x.tag == TAG_USER_OBJ then WithOwner(mode, Limit(x.perm, OwnerBits(mode)))
    else if x.tag == TAG_OTHER then WithOther(mode, Limit(x.perm, OtherBits(mode)))
    else mode
  }

  /** The running mode after `i` entries of a valid list. */
  function ModeAt(e: seq<Entry>, mode: bv32, i: nat): bv32
    requires e != []
  {
    if i == 0 then mode
    else if i < |e| then WithOwner(mode, Limit(e[0].perm, OwnerBits(mode)))
    else WithOther(WithOwner(mode, Limit(e[0].perm, OwnerBits(mode))), Limit(e[|e| - 1].perm, OtherBits(mode)))
  }

  lemma LowBits(p: bv32, q: bv32)
    ensures Limit(p, q & 7) & !7 == 0 && Limit(p, q & 7) <= 7
  {
  }

  /** On a valid list the running mode changes nothing the fold still needs. */
  lemma CreateStep(e: seq<Entry>, mode: bv32, i: nat)
    requires IsAcl(e) && i < |e|
    ensures CreateBase(e[i], ModeAt(e, mode, i)) == CreateBase(e[i], mode)
    ensures ModeAfter(e[i], ModeAt(e, mode, i)) == ModeAt(e, mode, i + 1)
    ensures Known(e[i])
  {
    PlaceTags(e, i);
    LowBits(e[0].perm, mode >> 6);
    OwnerKeeps(mode, Limit(e[0].perm, OwnerBits(mode)));
    hide OwnerBits, OtherBits, GroupBits, WithOwner, WithOther, IsAcl, Limit, Pack, NineBits;
  }

  /** In a valid list USER_OBJ is first, OTHER is last, and neither is anywhere else. */
  lemma PlaceTags(e: seq<Entry>, i: nat)
    requires IsAcl(e) && i < |e|
    ensures |e| >= 3 && Known(e[i]) && (e[i].tag == TAG_USER_OBJ <==> i == 0)
    ensures (e[i].tag == TAG_OTHER <==> i == |e| - 1)
  {
    var g, h :| Shape(e, g, h);
  }

  lemma CreateEnd(e: seq<Entry>, mode: bv32, g: bv32)
    requires IsAcl(e)
    ensures GroupBits(ModeAt(e, mode, |e|)) == GroupBits(mode)
    ensures NineBits(WithGroup(ModeAt(e, mode, |e|), Limit(g, GroupBits(mode))))
            == Pack(Limit(e[0].perm, OwnerBits(mode)), Limit(g, GroupBits(mode)),
                    Limit(e[|e| - 1].perm, OtherBits(mode)))
  {
    var u, o := Limit(e[0].perm, OwnerBits(mode)), Limit(e[|e| - 1].perm, OtherBits(mode));
    LowBits(e[0].perm, mode >> 6);
    LowBits(e[|e| - 1].perm, mode);
    LowBits(g, mode >> 3);
    OwnerKeeps(mode, u);
    OtherKeeps(WithOwner(mode, u), o);
    AllReplaced(mode, u, Limit(g, GroupBits(mode)), o);
  }

  method CreateEntry(a: array<bv8>, i: nat, mode: bv32) returns (mode': bv32)
    requires i < Count(a[..])
    modifies a
    ensures Decode(a[..]) == old(Decode(a[..]))[i := CreateBase(old(EntryAt(a[..], i)), mode)]
    ensures mode' == ModeAfter(old(EntryAt(a[..], i)), mode)
    ensures a[..4] == old(a[..4])
  {
    var x := EntryAt(a[..], i);
    mode' := mode;
    LowBits(x.perm, mode >> 6);
    LowBits(x.perm, mode);
    assert Limit(x.perm, OwnerBits(mode)) <= 7 && Limit(x.perm, OtherBits(mode)) <= 7;
    hide OwnerBits, OtherBits, WithOwner, WithOther, EntryAt, SetPerm, Limit, Pack, NineBits;
    if x.tag == TAG_USER_OBJ {
      var perm := Limit(x.perm, OwnerBits(mode));
      PutPerm(a, i, perm);
      mode' := WithOwner(mode, perm);
    } else if x.tag == TAG_OTHER {
      var perm := Limit(x.perm, OtherBits(mode));
      PutPerm(a, i, perm);
      mode' := WithOther(mode, perm);
    }
  }

  /** The fold loop's locals: the group-class candidates, the result flag, the mode. */
  datatype Locals = Locals(gobj: int, mobj: int, ext: bool, mode: bv32)

  /** On a valid list, `i` turns of the loop have folded `i` entries. */
  ghost predicate Created(e0: seq<Entry>, e: seq<Entry>, i: nat, mode0: bv32, v: Locals) {
    && -1 <= v.gobj < |e0| && -1 <= v.mobj < |e0|
    && (IsAcl(e0) ==>
          && e0 != [] && v.mode == ModeAt(e0, mode0, i)
          && Folded(e0, e, i, (x: Entry) => CreateBase(x, mode0), v.gobj, v.mobj, v.ext))
  }

  lemma CreatedStart(e0: seq<Entry>, mode0: bv32)
    ensures Created(e0, e0, 0, mode0, Locals(-1, -1, false, mode0))
  {
  }

  lemma CreatedNext(e0: seq<Entry>, e: seq<Entry>, i: nat, mode0: bv32, v: Locals)
    requires Created(e0, e, i, mode0, v) && i < |e0| == |e|
    ensures IsAcl(e0) ==> Known(e[i])
    ensures Created(e0, e[i := CreateBase(e[i], v.mode)], i + 1, mode0,
                    Locals(if e[i].tag == TAG_GROUP_OBJ then i else v.gobj, if e[i].tag == TAG_MASK then i else v.mobj,
                           v.ext || Extended(e[i]), ModeAfter(e[i], v.mode)))
  {
    if IsAcl(e0) {
      var base := (x: Entry) => CreateBase(x, mode0);
      FoldedNext(e0, e, i, base, v.gobj, v.mobj, v.ext);
      CreateStep(e0, mode0, i);
      FoldedStep(e0, e, i, base, v.gobj, v.mobj, v.ext);
    }
  }

  /** The loop of acl_create_masq; false at an unknown tag. */
  method CreateBases(a: array<bv8>, mode0: bv32) returns (ok: bool, v: Locals)
    requires a.Length >= 4
    modifies a
    ensures a[..4] == old(a[..4])
    ensures IsAcl(old(Decode(a[..]))) ==> ok
    ensures ok ==> Created(old(Decode(a[..])), Decode(a[..]), |old(Decode(a[..]))|, mode0, v)
  {
    hide Created, EntryAt, CreateBase, Known, IsAcl, ModeAfter, Extended;
    ghost var e0 := Decode(a[..]);
    v := Locals(-1, -1, false, mode0);
    CreatedStart(e0, mode0);
    for i := 0 to Count(a[..])
      invariant a[..4] == old(a[..4])
      invariant Created(e0, Decode(a[..]), i, mode0, v)
    {
      CreatedNext(e0, Decode(a[..]), i, mode0, v);
      var x := EntryAt(a[..], i);
      if !Known(x) { return false, v; }
      var mode := CreateEntry(a, i, v.mode);
      v := Locals(if x.tag == TAG_GROUP_OBJ then i else v.gobj, if x.tag == TAG_MASK then i else v.mobj,
                  v.ext || Extended(x), mode);
    }
    ok := true;
  }

  /** The group class of a valid list is MASK or GROUP_OBJ, strictly inside it. */
  lemma GroupClassPlace(e: seq<Entry>)
    requires IsAcl(e)
    ensures 0 < GroupClass(e) < |e| - 1
    ensures e[GroupClass(e)].tag == TAG_MASK || e[GroupClass(e)].tag == TAG_GROUP_OBJ
  {
    var g: nat, h: nat :| Shape(e, g, h);
    assert e[g].tag == TAG_GROUP_OBJ;
  }

  lemma SameTagsSameClass(e: seq<Entry>, r: seq<Entry>)
    requires |e| == |r| && forall k :: 0 <= k < |e| ==> e[k].tag == r[k].tag
    ensures GroupClass(e) == GroupClass(r)
  {
  }

  lemma FoldsKeepClass(e: seq<Entry>, mode: bv32)
    ensures GroupClass(CreateFold(e, mode)) == GroupClass(e) && GroupClass(ChmodFold(e, mode)) == GroupClass(e)
  {
    SameTagsSameClass(e, CreateFold(e, mode));
    SameTagsSameClass(e, ChmodFold(e, mode));
  }

  lemma CreateFoldAt(e: seq<Entry>, mode: bv32, k: nat)
    requires k < |e|
    ensures CreateFold(e, mode)[k] ==
      if k == GroupClass(e) then e[k].(perm := Limit(e[k].perm, GroupBits(mode))) else CreateBase(e[k], mode)
  {
  }

  lemma ChmodFoldAt(e: seq<Entry>, mode: bv32, k: nat)
    requires k < |e|
    ensures ChmodFold(e, mode)[k] ==
      if k == GroupClass(e) then e[k].(perm := GroupBits(mode)) else ChmodBase(e[k], mode)
  {
  }

  lemma CreatedEnd(e0: seq<Entry>, e: seq<Entry>, mode0: bv32, v: Locals, gce: int)
    requires IsAcl(e0) && Created(e0, e, |e0|, mode0, v) && gce == if v.mobj >= 0 then v.mobj else v.gobj
    ensures |e| == |e0| && gce == GroupClass(e0) && 0 < gce < |e| - 1 && (v.ext <==> NotEquivalent(e0))
    ensures e[gce] == e0[gce]
    ensures e[gce := e0[gce].(perm := Limit(e0[gce].perm, GroupBits(mode0)))] == CreateFold(e0, mode0)
    ensures v.mode == ModeAt(e0, mode0, |e0|)
  {
    FoldedEnd(e0, e, (x: Entry) => CreateBase(x, mode0), v.gobj, v.mobj, v.ext);
    GroupClassPlace(e0);
    CreateAssembled(e0, e, mode0, gce);
  }

  /** Folded base entries plus the folded group class are the whole fold. */
  lemma CreateAssembled(e0: seq<Entry>, e: seq<Entry>, mode: bv32, gce: nat)
    requires |e| == |e0| && gce < |e| && gce == GroupClass(e0) && e0[gce].tag != TAG_USER_OBJ
    requires e0[gce].tag != TAG_OTHER
    requires forall k :: 0 <= k < |e| ==> e[k] == CreateBase(e0[k], mode)
    ensures e[gce] == e0[gce]
    ensures e[gce := e0[gce].(perm := Limit(e0[gce].perm, GroupBits(mode)))] == CreateFold(e0, mode)
  {
    hide GroupClass, Limit, GroupBits, OwnerBits, OtherBits;
  }

  lemma MirrorCreated(e: seq<Entry>, mode: bv32)
    requires IsAcl(e)
    ensures GroupClass(CreateFold(e, mode)) == GroupClass(e) > 0
    ensures MirrorBits(CreateFold(e, mode))
            == Pack(Limit(e[0].perm, OwnerBits(mode)), Limit(e[GroupClass(e)].perm, GroupBits(mode)),
                    Limit(e[|e| - 1].perm, OtherBits(mode)))
  {
    hide GroupBits, OwnerBits, OtherBits, IsAcl, Limit, Pack, GroupClass, CreateFold;
    FoldsKeepClass(e, mode);
    GroupClassPlace(e);
    PlaceTags(e, 0);
    PlaceTags(e, |e| - 1);
    CreateFoldAt(e, mode, 0);
    CreateFoldAt(e, mode, GroupClass(e));
    CreateFoldAt(e, mode, |e| - 1);
  }

  /** What is left after the loop on a valid list. */
  lemma CreateFinish(e0: seq<Entry>, e: seq<Entry>, mode0: bv32, v: Locals, gce: int)
    requires IsAcl(e0) && Created(e0, e, |e0|, mode0, v) && gce == if v.mobj >= 0 then v.mobj else v.gobj
    ensures |e| == |e0| && 0 < gce < |e| && (v.ext <==> NotEquivalent(e0))
    ensures e[gce := e[gce].(perm := Limit(e[gce].perm, GroupBits(v.mode)))] == CreateFold(e0, mode0)
    ensures GroupClass(CreateFold(e0, mode0)) > 0
    ensures NineBits(WithGroup(v.mode, Limit(e[gce].perm, GroupBits(v.mode)))) == MirrorBits(CreateFold(e0, mode0))
  {
    MirrorCreated(e0, mode0);
    CreatedEnd(e0, e, mode0, v, gce);
    CreateEnd(e0, mode0, e0[gce].perm);
    hide GroupBits, OwnerBits, OtherBits, WithGroup, ModeAt, IsAcl, Created, CreateFold, MirrorBits, Limit, Pack;
    hide NineBits;
  }

  /** The nine permission bits of a mode are a list's mirror: its first entry, its group class
      and its last, and every other bit is the old one. */
  ghost predicate Synced(e: seq<Entry>, oldMode: bv32, mode: bv32) {
    && e != [] && GroupClass(e) > 0 && mode & !0x1ff == oldMode & !0x1ff
    && (mode >> 6) & 7 == e[0].perm && (mode >> 3) & 7 == e[GroupClass(e)].perm && mode & 7 == e[|e| - 1].perm
  }

  lemma SyncedBits(oldMode: bv32, u: bv32, g: bv32, o: bv32)
    requires u & !7 == 0 && g & !7 == 0 && o & !7 == 0
    ensures var mode := Special(oldMode) | Pack(u, g, o);
      mode & !0x1ff == oldMode & !0x1ff && (mode >> 6) & 7 == u && (mode >> 3) & 7 == g && mode & 7 == o
  {
  }

  lemma SyncedIs(e: seq<Entry>, oldMode: bv32)
    requires IsAcl(e) && GroupClass(e) > 0
    ensures Synced(e, oldMode, Special(oldMode) | MirrorBits(e))
  {
    var u, g, o := e[0], e[GroupClass(e)], e[|e| - 1];
    assert EntryOk(u) && EntryOk(g) && EntryOk(o);
    SyncedBits(oldMode, u.perm, g.perm, o.perm);
    hide Special, Pack, IsAcl, GroupClass;
  }

  lemma CreatedBits(u: bv32, g: bv32, o: bv32, mode: bv32)
    ensures var m := Pack(Limit(u, OwnerBits(mode)), Limit(g, GroupBits(mode)), Limit(o, OtherBits(mode)));
      && m & !0x1ff == 0 && (m >> 6) & 7 == Limit(u, OwnerBits(mode))
      && (m >> 3) & 7 == Limit(g, GroupBits(mode)) && m & 7 == Limit(o, OtherBits(mode))
  {
    LowBits(u, mode >> 6);
    LowBits(g, mode >> 3);
    LowBits(o, mode);
    SyncedBits(0, Limit(u, OwnerBits(mode)), Limit(g, GroupBits(mode)), Limit(o, OtherBits(mode)));
  }

  lemma CreatedSynced(e: seq<Entry>, mode: bv32)
    requires IsAcl(e)
    ensures GroupClass(CreateFold(e, mode)) > 0
    ensures Synced(CreateFold(e, mode), 0, MirrorBits(CreateFold(e, mode)))
  {
    hide GroupBits, OwnerBits, OtherBits, IsAcl, Limit, Pack, GroupClass, CreateFold;
    MirrorCreated(e, mode);
    GroupClassPlace(e);
    PlaceTags(e, 0);
    PlaceTags(e, |e| - 1);
    CreateFoldAt(e, mode, 0);
    CreateFoldAt(e, mode, GroupClass(e));
    CreateFoldAt(e, mode, |e| - 1);
    CreatedBits(e[0].perm, e[GroupClass(e)].perm, e[|e| - 1].perm, mode);
    NoBits();
  }

  lemma NoBits()
    ensures 0 as bv32 & !0x1ff == 0
  {
  }

  /** acl_create_masq. On a valid list the list becomes the create fold, the mode its
      mirror, and the result says whether the list says more than the mode. */
  method Create(a: array<bv8>, mode0: bv32) returns (r: int, mode: bv32)
    requires a.Length >= 4
    modifies a
    ensures a[..4] == old(a[..4])
    ensures IsAcl(old(Decode(a[..]))) ==>
              && r == (if NotEquivalent(old(Decode(a[..]))) then 1 else 0)
              && Decode(a[..]) == CreateFold(old(Decode(a[..])), mode0)
              && GroupClass(Decode(a[..])) > 0 && mode == MirrorBits(Decode(a[..])) && Synced(Decode(a[..]), 0, mode)
  {
    hide IsAcl, WithGroup, NotEquivalent, CreateFold, EntryAt, GroupClass, MirrorBits, Limit, Pack, NineBits, Synced;
    ghost var e0 := Decode(a[..]);
    var ok, v := CreateBases(a, mode0);
    if !ok { return -1, mode0; }
    var gce := if v.mobj >= 0 then v.mobj else v.gobj;
    if IsAcl(e0) {
      CreateFinish(e0, Decode(a[..]), mode0, v, gce);
      CreatedSynced(e0, mode0);
    }
    if gce < 0 { return -1, mode0; }
    var perm := Limit(EntryAt(a[..], gce).perm, GroupBits(v.mode));
    LowBits(EntryAt(a[..], gce).perm, v.mode >> 3);
    PutPerm(a, gce, perm);
    mode := NineBits(WithGroup(v.mode, perm));
    r := if v.ext then 1 else 0;
  }

  // ---- reading the mode back ----

  datatype Slot = Unset | Set(perm: bv32)

  function PermSlot(e: seq<Entry>, t: bv32): Slot {
    if LastTag(e, t) >= 0 then Set(e[LastTag(e, t)].perm & 7) else Unset
  }

  function AddOwner(mode: bv32, p: bv32): bv32 { mode | ((p & 7) << 6) }
  function AddGroup(mode: bv32, p: bv32): bv32 { mode | (p << 3) }
  function AddOther(mode: bv32, p: bv32): bv32 { mode | (p & 7) }
  function Special(mode: bv32): bv32 { mode & !0x1ff }

  /** The running mode after `i` entries of a valid list. */
  function SyncAt(e: seq<Entry>, oldMode: bv32, i: nat): bv32
    requires e != []
  {
    if i == 0 then Special(oldMode)
    else if i < |e| then AddOwner(Special(oldMode), e[0].perm)
    else AddOther(AddOwner(Special(oldMode), e[0].perm), e[|e| - 1].perm)
  }

  lemma SyncAssembles(oldMode: bv32, u: bv32, g: bv32, o: bv32)
    requires u & !7 == 0 && g & !7 == 0 && o & !7 == 0
    ensures AddGroup(AddOther(AddOwner(Special(oldMode), u), o), g & 7) == Special(oldMode) | Pack(u, g, o)
  {
  }

  lemma SlotStep(e: seq<Entry>, t: bv32, i: nat)
    requires i < |e|
    ensures PermSlot(e[..i + 1], t) == if e[i].tag == t then Set(e[i].perm & 7) else PermSlot(e[..i], t)
  {
    assert e[..i + 1][..i] == e[..i];
  }

  lemma SyncStep(e: seq<Entry>, oldMode: bv32, i: nat)
    requires IsAcl(e) && i < |e|
    ensures SyncAt(e, oldMode, i + 1) == if e[i].tag == TAG_USER_OBJ then AddOwner(SyncAt(e, oldMode, i), e[i].perm)
                                          else if e[i].tag == TAG_OTHER then AddOther(SyncAt(e, oldMode, i), e[i].perm)
                                          else SyncAt(e, oldMode, i)
  {
    PlaceTags(e, i);
  }

  function ClassPerm(mask: Slot, gobj: Slot): bv32 {
    if mask.Set? then mask.perm else if gobj.Set? then gobj.perm else 0
  }

  lemma ClassSlot(e: seq<Entry>)
    requires GroupClass(e) >= 0
    ensures ClassPerm(PermSlot(e, TAG_MASK), PermSlot(e, TAG_GROUP_OBJ)) == e[GroupClass(e)].perm & 7
  {
  }

  lemma SyncEnd(e: seq<Entry>, oldMode: bv32)
    requires IsAcl(e)
    ensures GroupClass(e) > 0
    ensures AddGroup(SyncAt(e, oldMode, |e|), e[GroupClass(e)].perm & 7) == Special(oldMode) | MirrorBits(e)
  {
    GroupClassPlace(e);
    var u, g, o := e[0], e[GroupClass(e)], e[|e| - 1];
    assert EntryOk(u) && EntryOk(g) && EntryOk(o);
    SyncAssembles(oldMode, u.perm, g.perm, o.perm);
    hide AddGroup, AddOther, AddOwner, Special, Pack, IsAcl;
  }

  datatype SyncLocals = SyncLocals(mode: bv32, gobj: Slot, mask: Slot)

  /** One turn of the loop of acl_sync_mode. */
  function SyncTurn(v: SyncLocals, x: Entry): SyncLocals {
    if x.tag == TAG_USER_OBJ then v.(mode := AddOwner(v.mode, x.perm))
    else if x.tag == TAG_GROUP_OBJ then v.(gobj := Set(x.perm & 7))
    else if x.tag == TAG_MASK then v.(mask := Set(x.perm & 7))
    else if x.tag == TAG_OTHER then v.(mode := AddOther(v.mode, x.perm))
    else v
  }

  ghost predicate SyncInv(e: seq<Entry>, oldMode: bv32, i: nat, v: SyncLocals) {
    && i <= |e| && v.gobj == PermSlot(e[..i], TAG_GROUP_OBJ) && v.mask == PermSlot(e[..i], TAG_MASK)
    && (IsAcl(e) ==> e != [] && v.mode == SyncAt(e, oldMode, i))
  }

  lemma SyncTurnKeeps(e: seq<Entry>, oldMode: bv32, i: nat, v: SyncLocals)
    requires SyncInv(e, oldMode, i, v) && i < |e|
    ensures SyncInv(e, oldMode, i + 1, SyncTurn(v, e[i]))
  {
    if IsAcl(e) { SyncStep(e, oldMode, i); }
    SlotStep(e, TAG_GROUP_OBJ, i);
    SlotStep(e, TAG_MASK, i);
    hide PermSlot, SyncAt, AddOwner, AddOther, IsAcl;
  }

  /** acl_sync_mode: on a valid list, the old special bits with the list's mirror. */
  method SyncMode(b: Blob, oldMode: bv32) returns (mode: bv32)
    ensures IsAcl(Decode(b)) ==> Synced(Decode(b), oldMode, mode)
    ensures IsAcl(Decode(b)) ==> GroupClass(Decode(b)) > 0 && mode == Special(oldMode) | MirrorBits(Decode(b))
  {
    ghost var e := Decode(b);
    var v := SyncLocals(Special(oldMode), Unset, Unset);
    SyncStart(e, oldMode);
    hide SyncInv, SyncTurn, EntryAt, IsAcl, AddGroup, MirrorBits, Special, GroupClass, ClassPerm, Synced;
    for i := 0 to Count(b)
      invariant SyncInv(e, oldMode, i, v)
    {
      SyncTurnKeeps(e, oldMode, i, v);
      v := SyncTurn(v, EntryAt(b, i));
    }
    SyncDone(e, oldMode, v);
    if IsAcl(e) { SyncedIs(e, oldMode); }
    mode := AddGroup(v.mode, ClassPerm(v.mask, v.gobj));
  }

  lemma SyncStart(e: seq<Entry>, oldMode: bv32)
    ensures SyncInv(e, oldMode, 0, SyncLocals(Special(oldMode), Unset, Unset))
  {
  }

  lemma SyncDone(e: seq<Entry>, oldMode: bv32, v: SyncLocals)
    requires SyncInv(e, oldMode, |e|, v)
    ensures IsAcl(e) ==>
      GroupClass(e) > 0 && AddGroup(v.mode, ClassPerm(v.mask, v.gobj)) == Special(oldMode) | MirrorBits(e)
  {
    assert e[..|e|] == e;
    if IsAcl(e) {
      SyncEnd(e, oldMode);
      ClassSlot(e);
    }
    hide AddGroup, MirrorBits, Special, SyncAt, GroupClass, ClassPerm, PermSlot, IsAcl;
  }
}
