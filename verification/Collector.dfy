/** The sweep driver's live-set collector: parallel slot arrays with a growing chained
    hash index over them. A bucket node carries one slot, so a node is named by its
    slot; `-1` is the null link. */
module Collector {

  type Name = string

  const FIRST_TABLE: nat := 1024
  const FIRST_CAP: nat := 512
  const NAME_MAX: nat := 255

  /** The slots `c` in order are what following `next` from `p` visits. */
  ghost predicate Linked(next: seq<int>, p: int, c: seq<nat>)
    decreases c
  {
    if c == [] then p == -1 else p == c[0] && c[0] < |next| && Linked(next, next[c[0]], c[1..])
  }

  ghost predicate Distinct(c: seq<nat>) {
    forall i, j :: 0 <= i < j < |c| ==> c[i] != c[j]
  }

  lemma {:induction false} LinkedFrame(next: seq<int>, p: int, c: seq<nat>, s: nat, v: int)
    requires Linked(next, p, c) && s !in c && s < |next|
    ensures Linked(next[s := v], p, c)
    decreases c
  {
    if c != [] { LinkedFrame(next, next[c[0]], c[1..], s, v); }
  }

  lemma {:induction false} LinkedGrow(next: seq<int>, p: int, c: seq<nat>, v: int)
    requires Linked(next, p, c)
    ensures Linked(next + [v], p, c)
    decreases c
  {
    if c != [] { LinkedGrow(next, next[c[0]], c[1..], v); }
  }

  /** Slot arrays and index, as values: bucket heads, node links, and for each bucket the
      slots its chain visits. */
  datatype Index = Index(heads: seq<int>, next: seq<int>, chains: seq<seq<nat>>)

  function BucketOf(hash: Name -> nat, names: seq<Name>, size: nat, s: nat): nat
    requires s < |names| && size > 0
  {
    hash(names[s]) % size
  }

  /** Every bucket's chain is linked and holds, once each, exactly the slots in `live`
      whose name hashes to it. */
  ghost predicate IndexOk(hash: Name -> nat, names: seq<Name>, x: Index, live: set<nat>) {
    && |x.heads| == |x.chains| > 0 && |x.next| == |names|
    && (forall s :: s in live ==> s < |names|)
    && (forall b :: 0 <= b < |x.heads| ==> BucketOk(hash, names, x, live, b))
  }

  ghost predicate BucketOk(hash: Name -> nat, names: seq<Name>, x: Index, live: set<nat>, b: nat)
    requires b < |x.heads| == |x.chains|
  {
    && Linked(x.next, x.heads[b], x.chains[b]) && Distinct(x.chains[b])
    && (forall s :: s in x.chains[b] ==> s in live)
    && (forall s :: s in live && s < |names| ==> (s in x.chains[b] <==> BucketOf(hash, names, |x.heads|, s) == b))
  }

  /** Pushing slot `s` on the front of its bucket. */
  ghost function Pushed(x: Index, b: nat, s: nat): Index
    requires b < |x.heads| == |x.chains| && s < |x.next|
  {
    Index(x.heads[b := s], x.next[s := x.heads[b]], x.chains[b := [s] + x.chains[b]])
  }

  lemma PushKeeps(hash: Name -> nat, names: seq<Name>, x: Index, live: set<nat>, s: nat)
    requires IndexOk(hash, names, x, live) && s < |names| && s !in live
    ensures IndexOk(hash, names, Pushed(x, BucketOf(hash, names, |x.heads|, s), s), live + {s})
  {
    var b := BucketOf(hash, names, |x.heads|, s);
    var y := Pushed(x, b, s);
    forall a | 0 <= a < |x.heads| ensures BucketOk(hash, names, y, live + {s}, a) {
      assert BucketOk(hash, names, x, live, a);
      assert s !in x.chains[a];
      LinkedFrame(x.next, x.heads[a], x.chains[a], s, x.heads[b]);
      if a == b {
        assert y.chains[a][1..] == x.chains[a];
        assert forall t :: t in y.chains[a] <==> t == s || t in x.chains[a];
      }
    }
  }

  /** Buckets `[from..]` of the old table still hang together and none of their slots has
      moved. */
  ghost predicate Waiting(x: Index, next: seq<int>, moved: set<nat>, from: nat)
    requires |x.heads| == |x.chains|
  {
    forall a :: from <= a < |x.heads| ==>
      Linked(next, x.heads[a], x.chains[a]) && forall s :: s in x.chains[a] ==> s !in moved
  }

  lemma OtherBucket(hash: Name -> nat, names: seq<Name>, x: Index, live: set<nat>, a: nat, b: nat, s: nat)
    requires IndexOk(hash, names, x, live) && a < |x.heads| && b < |x.heads| && a != b && s in x.chains[a]
    ensures s !in x.chains[b]
  {
    assert BucketOk(hash, names, x, live, a) && BucketOk(hash, names, x, live, b);
  }

  /** Moves every node of chain `c` of old bucket `i` into the new table. */
  method MoveChain(hash: Name -> nat, names: seq<Name>, ghost x: Index, ghost live: set<nat>, ghost i: nat,
                   head: int, heads: seq<int>, next: seq<int>, ghost chains: seq<seq<nat>>, ghost moved: set<nat>)
    returns (heads': seq<int>, next': seq<int>, ghost chains': seq<seq<nat>>)
    requires IndexOk(hash, names, x, live) && i < |x.heads| && head == x.heads[i]
    requires IndexOk(hash, names, Index(heads, next, chains), moved) && Waiting(x, next, moved, i)
    ensures |heads'| == |heads|
    ensures IndexOk(hash, names, Index(heads', next', chains'), moved + set s | s in x.chains[i])
    ensures Waiting(x, next', moved + (set s | s in x.chains[i]), i + 1)
  {
    ghost var c, done := x.chains[i], moved;
    heads', next', chains' := heads, next, chains;
    var e := head;
    ghost var k := 0;
    assert c[0..] == c && BucketOk(hash, names, x, live, i);
    while e != -1
      invariant 0 <= k <= |c| && |heads'| == |heads| && Linked(next', e, c[k..])
      invariant done == moved + set s | s in c[..k]
      invariant IndexOk(hash, names, Index(heads', next', chains'), done)
      invariant Waiting(x, next', done, i + 1)
      decreases |c| - k
    {
      var nx := next'[e];
      assert c[k] == e && c[k..][1..] == c[k + 1..] && c[k] in c;
      assert e in live;
      var b := BucketOf(hash, names, |heads'|, e);
      assert e !in done;
      PushKeeps(hash, names, Index(heads', next', chains'), done, e);
      LinkedFrame(next', nx, c[k + 1..], e, heads'[b]);
      MoveKeepsWaiting(hash, names, x, live, i, next', done, e, heads'[b]);
      next', heads', chains' := next'[e := heads'[b]], heads'[b := e], chains'[b := [e as nat] + chains'[b]];
      done := done + {e};
      assert c[..k + 1] == c[..k] + [c[k]];
      e := nx;
      k := k + 1;
    }
    assert c[..k] == c;
  }

  lemma MoveKeepsWaiting(hash: Name -> nat, names: seq<Name>, x: Index, live: set<nat>, i: nat, next: seq<int>,
                         moved: set<nat>, s: nat, v: int)
    requires IndexOk(hash, names, x, live) && i < |x.heads| && s in x.chains[i] && s < |next|
    requires Waiting(x, next, moved, i + 1)
    ensures Waiting(x, next[s := v], moved + {s}, i + 1)
  {
    forall a | i + 1 <= a < |x.heads|
      ensures Linked(next[s := v], x.heads[a], x.chains[a]) && forall t :: t in x.chains[a] ==> t !in moved + {s}
    {
      OtherBucket(hash, names, x, live, i, a, s);
      LinkedFrame(next, x.heads[a], x.chains[a], s, v);
    }
  }

  /** Slots whose old bucket comes before `i`. */
  ghost function Before(hash: Name -> nat, names: seq<Name>, size: nat, i: nat): set<nat>
    requires size > 0
  {
    set s | s in AllSlots(names) && BucketOf(hash, names, size, s) < i
  }

  ghost predicate IsSlot(names: seq<Name>, s: nat) {
    s < |names|
  }

  ghost function AllSlots(names: seq<Name>): set<nat> {
    set s: nat | s < |names| && IsSlot(names, s)
  }

  lemma EmptyTable(hash: Name -> nat, names: seq<Name>, next: seq<int>, size: nat)
    requires |next| == |names| && size > 0
    ensures IndexOk(hash, names, Index(seq(size, _ => -1), next, seq(size, _ => [])), {})
  {
    var x := Index(seq(size, _ => -1), next, seq(size, _ => []));
    forall b | 0 <= b < size ensures BucketOk(hash, names, x, {}, b) {}
  }

  /** Doubles the table, relinking every node in place. */
  method Rehash(hash: Name -> nat, names: seq<Name>, heads: seq<int>, next: seq<int>, ghost chains: seq<seq<nat>>)
    returns (heads': seq<int>, next': seq<int>, ghost chains': seq<seq<nat>>)
    requires IndexOk(hash, names, Index(heads, next, chains), AllSlots(names))
    ensures |heads'| == 2 * |heads| && IndexOk(hash, names, Index(heads', next', chains'), AllSlots(names))
  {
    ghost var x, live := Index(heads, next, chains), AllSlots(names);
    var size := |heads|;
    heads', next', chains' := seq(2 * size, _ => -1), next, seq(2 * size, _ => []);
    EmptyTable(hash, names, next, 2 * size);
    assert Before(hash, names, size, 0) == {};
    forall a | 0 <= a < size ensures Linked(next, heads[a], chains[a]) { assert BucketOk(hash, names, x, live, a); }
    for i := 0 to size
      invariant |heads'| == 2 * size
      invariant IndexOk(hash, names, Index(heads', next', chains'), Before(hash, names, size, i))
      invariant Waiting(x, next', Before(hash, names, size, i), i)
    {
      ghost var moved := Before(hash, names, size, i);
      heads', next', chains' := MoveChain(hash, names, x, live, i, heads[i], heads', next', chains', moved);
      BeforeNext(hash, names, x, i);
    }
    assert Before(hash, names, size, size) == live;
  }

  lemma BeforeNext(hash: Name -> nat, names: seq<Name>, x: Index, i: nat)
    requires IndexOk(hash, names, x, AllSlots(names)) && i < |x.heads|
    ensures Before(hash, names, |x.heads|, i + 1) == Before(hash, names, |x.heads|, i) + set s | s in x.chains[i]
  {
    assert BucketOk(hash, names, x, AllSlots(names), i);
  }

  lemma IndexHasTable(hash: Name -> nat, names: seq<Name>, x: Index, live: set<nat>)
    requires IndexOk(hash, names, x, live)
    ensures x.heads != [] && |x.next| == |names|
  {}

  /** A fresh slot at the end of the arrays, not yet indexed. */
  lemma GrowKeeps(hash: Name -> nat, names: seq<Name>, x: Index, name: Name, v: int)
    requires IndexOk(hash, names, x, AllSlots(names))
    ensures IndexOk(hash, names + [name], x.(next := x.next + [v]), AllSlots(names))
  {
    var y := x.(next := x.next + [v]);
    forall b | 0 <= b < |x.heads| ensures BucketOk(hash, names + [name], y, AllSlots(names), b) {
      assert BucketOk(hash, names, x, AllSlots(names), b);
      LinkedGrow(x.next, x.heads[b], x.chains[b], v);
    }
  }

  /** Indexes the last slot: makes the first table, or doubles a full one when the memory is
      there, then pushes the node. */
  method Insert(hash: Name -> nat, names: seq<Name>, heads: seq<int>, next: seq<int>, ghost chains: seq<seq<nat>>,
                count: nat, growOk: bool)
    returns (heads': seq<int>, next': seq<int>, ghost chains': seq<seq<nat>>)
    requires names != [] && |next| == |names| - 1 == count
    requires heads == [] ==> count == 0
    requires heads != [] ==> IndexOk(hash, names[..count], Index(heads, next, chains), AllSlots(names[..count]))
    ensures IndexOk(hash, names, Index(heads', next', chains'), AllSlots(names))
    ensures growOk && count <= |heads| ==> count + 1 <= |heads'|
  {
    var s, before := count, names[..count];
    heads', next', chains' := heads, next, chains;
    if heads == [] {
      heads', chains' := seq(FIRST_TABLE, _ => -1), seq(FIRST_TABLE, _ => []);
      EmptyTable(hash, before, next', FIRST_TABLE);
      assert AllSlots(before) == {};
    } else if count > |heads| - 1 && growOk {
      heads', next', chains' := Rehash(hash, before, heads, next, chains);
    }
    ghost var x := Index(heads', next', chains');
    assert names == before + [names[s]];
    GrowKeeps(hash, before, x, names[s], -1);
    PushKeeps(hash, names, x.(next := next' + [-1]), AllSlots(before), s);
    assert AllSlots(names) == AllSlots(before) + {s};
    var b := BucketOf(hash, names, |heads'|, s);
    next', heads', chains' := (next' + [-1])[s := heads'[b]], heads'[b := s], chains'[b := [s] + chains'[b]];
  }

  datatype Info = Info(inode: nat, size: nat)

  /** One walk callback: what the walk delivers, and whether the slot arrays and the table
      get memory if they ask for it. */
  datatype Delivery = Delivery(path: Name, dir: bool, info: Info, slotOk: bool, growOk: bool)

  /** Directories, the empty path, internal records and paths no slot can hold are
      skipped. */
  predicate Keeps(d: Delivery) {
    !d.dir && d.path != [] && d.path[0] != 1 as char && |d.path| <= NAME_MAX
  }

  /** What a collector fed `ds` should hold: each kept path with its last delivery. */
  ghost function Delivered(ds: seq<Delivery>): map<Name, Info>
    decreases |ds|
  {
    if ds == [] then map[]
    else var d := ds[|ds| - 1]; var m := Delivered(ds[..|ds| - 1]);
      if Keeps(d) then m[d.path := d.info] else m
  }

  /** Nothing after position `k` redelivers its path. */
  ghost predicate LastOf(ds: seq<Delivery>, k: nat)
    requires k < |ds|
  {
    Keeps(ds[k]) && forall j :: k < j < |ds| && Keeps(ds[j]) ==> ds[j].path != ds[k].path
  }

  /** `Delivered` holds exactly the last kept delivery of each path. */
  lemma {:induction false} DeliveredIsLast(ds: seq<Delivery>, p: Name, info: Info)
    ensures p in Delivered(ds) && Delivered(ds)[p] == info
      <==> exists k :: 0 <= k < |ds| && LastOf(ds, k) && ds[k].path == p && ds[k].info == info
    decreases |ds|
  {
    if ds != [] {
      var n := |ds| - 1;
      var front := ds[..n];
      DeliveredIsLast(front, p, info);
      if Keeps(ds[n]) && ds[n].path == p {
        assert LastOf(ds, n);
        assert forall k :: 0 <= k < n && ds[k].path == p ==> !LastOf(ds, k);
      } else {
        forall k | 0 <= k < n && ds[k].path == p ensures LastOf(ds, k) <==> LastOf(front, k) {}
      }
    }
  }

  /** Something other than a directory was delivered under `p`, and `p` is a non-empty path
      of at most 255 characters that does not start with the mark of an internal record. */
  ghost predicate Listed(ds: seq<Delivery>, p: Name) {
    (exists d :: d in ds && d.path == p && !d.dir) && 0 < |p| <= 255 && p[0] != 1 as char
  }

  lemma {:induction false} DeliveredPaths(ds: seq<Delivery>, p: Name)
    ensures p in Delivered(ds) <==> Listed(ds, p)
    decreases |ds|
  {
    if ds != [] {
      var n := |ds| - 1;
      DeliveredPaths(ds[..n], p);
      assert forall d :: d in ds <==> d in ds[..n] || d == ds[n];
    }
  }

  ghost predicate DistinctNames(names: seq<Name>) {
    forall i, j :: 0 <= i < j < |names| ==> names[i] != names[j]
  }

  /** Slot arrays as a map from name to inode and size. */
  ghost function ViewOf(names: seq<Name>, inodes: seq<nat>, sizes: seq<nat>): map<Name, Info>
    requires |names| == |inodes| == |sizes|
  {
    if names == [] then map[]
    else
      var n := |names| - 1;
      ViewOf(names[..n], inodes[..n], sizes[..n])[names[n] := Info(inodes[n], sizes[n])]
  }

  /** Each path in the view has its slot, and with distinct names each slot is what the view
      holds. */
  lemma {:induction false} ViewSlots(names: seq<Name>, inodes: seq<nat>, sizes: seq<nat>)
    requires DistinctNames(names) && |names| == |inodes| == |sizes|
    ensures forall p :: p in ViewOf(names, inodes, sizes) <==> p in names
    ensures forall s :: 0 <= s < |names| ==>
      names[s] in ViewOf(names, inodes, sizes) && ViewOf(names, inodes, sizes)[names[s]] == Info(inodes[s], sizes[s])
  {
    if names != [] {
      var n := |names| - 1;
      ViewSlots(names[..n], inodes[..n], sizes[..n]);
      assert names == names[..n] + [names[n]];
    }
  }

  lemma {:induction false} ViewOverwrite(names: seq<Name>, inodes: seq<nat>, sizes: seq<nat>, i: nat, info: Info)
    requires DistinctNames(names) && |names| == |inodes| == |sizes| && i < |names|
    ensures ViewOf(names, inodes[i := info.inode], sizes[i := info.size])
            == ViewOf(names, inodes, sizes)[names[i] := info]
  {
    var n := |names| - 1;
    var ids, lens := inodes[i := info.inode], sizes[i := info.size];
    if i < n {
      ViewOverwrite(names[..n], inodes[..n], sizes[..n], i, info);
      assert ids[..n] == inodes[..n][i := info.inode] && lens[..n] == sizes[..n][i := info.size];
    } else {
      assert ids[..n] == inodes[..n] && lens[..n] == sizes[..n];
    }
  }

  lemma ViewAppend(names: seq<Name>, inodes: seq<nat>, sizes: seq<nat>, name: Name, info: Info)
    requires DistinctNames(names) && |names| == |inodes| == |sizes| && name !in names
    ensures DistinctNames(names + [name])
    ensures ViewOf(names + [name], inodes + [info.inode], sizes + [info.size])
            == ViewOf(names, inodes, sizes)[name := info]
  {
    var n, all, ids, lens := |names|, names + [name], inodes + [info.inode], sizes + [info.size];
    assert all[..n] == names && ids[..n] == inodes && lens[..n] == sizes;
  }

  class SweepCollector {
    const hash: Name -> nat
    var names: seq<Name>
    var inodes: seq<nat>
    var sizes: seq<nat>
    var cap: nat
    var heads: seq<int>  // empty until the first insert
    var next: seq<int>
    var count: nat
    var oom: bool
    ghost var chains: seq<seq<nat>>

    constructor (hash: Name -> nat)
      ensures this.hash == hash && Valid() && Loaded() && View() == map[]
    {
      this.hash := hash;
      names, inodes, sizes, cap := [], [], [], 0;
      heads, next, count, chains, oom := [], [], 0, [], false;
    }

    /** Slots hold distinct names, and the index finds exactly the slots. */
    ghost predicate Valid()
      reads this
    {
      && |inodes| == |sizes| == |next| == |names| == count <= cap
      && DistinctNames(names)
      && (heads == [] ==> names == [])
      && (heads != [] ==> IndexOk(hash, names, Index(heads, next, chains), AllSlots(names)))
    }

    /** At most one entry per bucket on average. */
    ghost predicate Loaded()
      reads this
    {
      count <= |heads|
    }

    /** Each collected path with its inode and size. */
    ghost function View(): map<Name, Info>
      requires Valid()
      reads this
    {
      ViewOf(names, inodes, sizes)
    }

    /** sw_find: the slot of a name, by walking its bucket's chain; agrees with a linear
        search of the slots. */
    method Find(name: Name) returns (r: int)
      requires Valid()
      ensures -1 <= r < |names| && (r >= 0 ==> names[r] == name) && (r < 0 ==> name !in names)
    {
      if heads == [] { return -1; }
      ghost var x := Index(heads, next, chains);
      var b := hash(name) % |heads|;
      assert BucketOk(hash, names, x, AllSlots(names), b);
      ghost var c, k := chains[b], 0;
      r := heads[b];
      assert c[0..] == c && forall s :: s in c ==> s < |names|;
      assert c != [] ==> c[0] in c;
      while r != -1 && names[r] != name
        invariant 0 <= k <= |c| && Linked(next, r, c[k..]) && (r == -1 || 0 <= r < |names|)
        invariant forall j :: 0 <= j < k ==> c[j] < |names| && names[c[j]] != name
        decreases |c| - k
      {
        assert c[k] == r && c[k..][1..] == c[k + 1..];
        r := next[r];
        k := k + 1;
        assert k < |c| ==> c[k] in c;
      }
      forall s | 0 <= s < |names| && r == -1 ensures names[s] != name {
        assert s in AllSlots(names) && (s in c <==> BucketOf(hash, names, |heads|, s) == b);
      }
    }

    /** A new slot for a path no slot has, while the arrays have room. */
    method Append(d: Delivery)
      requires Valid() && d.path !in names && count < cap
      modifies this`names, this`inodes, this`sizes, this`heads, this`next, this`chains, this`count
      ensures Valid() && names == old(names) + [d.path]
      ensures View() == old(View())[d.path := d.info]
      ensures d.growOk && old(Loaded()) ==> Loaded()
    {
      hide IndexOk, DistinctNames, AllSlots, ViewOf;
      ViewAppend(names, inodes, sizes, d.path, d.info);
      names, inodes, sizes := names + [d.path], inodes + [d.info.inode], sizes + [d.info.size];
      assert names[..count] == old(names);
      heads, next, chains := Insert(hash, names, heads, next, chains, count, d.growOk);
      count := count + 1;
      assert heads != [] by { IndexHasTable(hash, names, Index(heads, next, chains), AllSlots(names)); }
    }

    /** The walk callback. A kept path ends in exactly one slot, with this inode and size;
        only a slot array that cannot grow stops the walk, and then nothing changes. */
    method Walk(d: Delivery) returns (stop: bool)
      requires Valid()
      modifies this
      ensures Valid() && old(names) <= names
      ensures stop <==> Keeps(d) && d.path !in old(View()) && old(count == cap) && !d.slotOk
      ensures View() == if Keeps(d) && !stop then old(View())[d.path := d.info] else old(View())
      ensures oom == (old(oom) || stop)
      ensures d.growOk && old(Loaded()) ==> Loaded()
    {
      hide IndexOk, DistinctNames, AllSlots, ViewOf;
      stop := false;
      if d.dir || d.path == [] || d.path[0] == 1 as char || |d.path| > NAME_MAX { return; }
      var i := Find(d.path);
      ViewSlots(names, inodes, sizes);
      if i >= 0 {
        ViewOverwrite(names, inodes, sizes, i, d.info);
        inodes, sizes := inodes[i := d.info.inode], sizes[i := d.info.size];
        return;
      }
      if count == cap {
        cap := if cap != 0 then cap * 2 else FIRST_CAP;
        if !d.slotOk {
          oom := true;
          return true;
        }
      }
      Append(d);
    }

    /** A whole walk: the collector holds exactly what was delivered up to where it
        stopped, and it stops early only out of memory. */
    method Collect(ds: seq<Delivery>) returns (n: nat)
      requires Valid() && View() == map[] && !oom
      modifies this
      ensures Valid() && n <= |ds| && View() == Delivered(ds[..n])
      ensures forall p :: p in View() <==> Listed(ds[..n], p)
      ensures oom <==> n < |ds|
      ensures n < |ds| ==> Keeps(ds[n]) && !ds[n].slotOk && ds[n].path !in View()
      ensures (forall d :: d in ds ==> d.growOk) && old(Loaded()) ==> Loaded()
    {
      n := 0;
      while n < |ds|
        invariant Valid() && n <= |ds| && View() == Delivered(ds[..n]) && !oom
        invariant (forall d :: d in ds ==> d.growOk) && old(Loaded()) ==> Loaded()
      {
        var stop := Walk(ds[n]);
        if stop { break; }
        assert ds[..n + 1][..n] == ds[..n];
        n := n + 1;
      }
      forall p ensures p in View() <==> Listed(ds[..n], p) { DeliveredPaths(ds[..n], p); }
    }
  }
}
