/** The daemon's list of handles with a live write session. */
module DirtyHandles {
  import opened WriteStaging

  ghost predicate Distinct(s: seq<WriteHandle>) {
    forall i, j :: 0 <= i < j < |s| ==> s[i] != s[j]
  }

  ghost function NextIn(s: seq<WriteHandle>, i: nat): WriteHandle?
    requires i < |s|
  {
    if i + 1 < |s| then s[i + 1] else null
  }

  /** The handles with a live session, newest first, threaded through `nextDirty`. */
  class DirtyList {
    var head: WriteHandle?
    ghost var list: seq<WriteHandle>

    constructor ()
      ensures Linked() && list == [] && Members() == {}
    {
      head, list := null, [];
    }

    ghost function Members(): set<WriteHandle>
      reads this`list
    {
      set h | h in list
    }

    /** Acyclic, duplicate-free, and exactly the links the code follows. */
    ghost predicate Linked()
      reads this, list`nextDirty
    {
      && Distinct(list)
      && head == (if list == [] then null else list[0])
      && forall i {:trigger list[i].nextDirty} :: 0 <= i < |list| ==> list[i].nextDirty == NextIn(list, i)
    }

    method Add(c: WriteHandle)
      requires Linked()
      modifies this, c`nextDirty
      ensures Linked() && Members() == old(Members()) + {c}
      ensures list == if c in old(list) then old(list) else [c] + old(list)
    {
      var p := head;
      ghost var k := 0;
      while p != null
        invariant 0 <= k <= |list| && p == (if k < |list| then list[k] else null)
        invariant forall i :: 0 <= i < k ==> list[i] != c
        decreases |list| - k
      {
        assert list[k].nextDirty == NextIn(list, k);
        if p == c { return; }
        p := p.nextDirty;
        k := k + 1;
      }
      c.nextDirty := head;
      head := c;
      list := [c] + list;
    }

    /** Takes element `k`, reached through its predecessor `p`, out of the chain. */
    method Unlink(p: WriteHandle?, c: WriteHandle, ghost k: nat)
      requires Linked() && k < |list| && list[k] == c
      requires p == if k == 0 then null else list[k - 1]
      modifies this, list`nextDirty
      ensures Linked() && list == old(list[..k] + list[k + 1..])
    {
      assert list[k].nextDirty == NextIn(list, k);
      if p == null {
        head := c.nextDirty;
      } else {
        p.nextDirty := c.nextDirty;
      }
      c.nextDirty := null;
      list := list[..k] + list[k + 1..];
      ghost var was := old(list);
      assert forall i :: 0 <= i < |list| ==> list[i] == was[if i < k then i else i + 1];
      forall i | 0 <= i < |list| ensures list[i].nextDirty == NextIn(list, i) {
        assert old(was[if i < k then i else i + 1].nextDirty) == NextIn(was, if i < k then i else i + 1);
      }
    }

    method Del(c: WriteHandle)
      requires Linked()
      modifies this, list`nextDirty
      ensures Linked() && Members() == old(Members()) - {c}
      ensures c !in old(list) ==> list == old(list)
      ensures forall k: nat :: k < |old(list)| && old(list)[k] == c ==> list == old(list)[..k] + old(list)[k + 1..]
    {
      var q, p: WriteHandle? := head, null;
      ghost var k := 0;
      while q != null && q != c
        invariant 0 <= k <= |list| && q == (if k < |list| then list[k] else null)
        invariant p == if k == 0 then null else list[k - 1]
        invariant forall i :: 0 <= i < k ==> list[i] != c
        decreases |list| - k
      {
        assert list[k].nextDirty == NextIn(list, k);
        p, q := q, q.nextDirty;
        k := k + 1;
      }
      if q != null {
        Unlink(p, c, k);
        assert forall h :: h in list ==> h in old(list);
        assert forall i :: 0 <= i < |old(list)| && i != k ==> old(list)[i] == list[if i < k then i else i - 1];
      }
    }
  }
}
