/** Keeping the table in step with the volume: single-name sync, ancestor sync, the
    full rebuild and the lookup that may trigger it. */
module TableSync {
  import opened Options
  import opened Names
  import opened NameTable
  import opened TableMerge
  import opened StagedTable

  datatype Stat = Stat(ino: nat, size: nat, ctime: nat)

  /** What the engine answers about a name: it is not there, the lookup did not
      complete, or it is there and its row could (or could not) be read. */
  datatype Engine = Absent | Unreadable | Present(stat: Option<Stat>)

  /** What a sync may make of one key: evict it only when the lookup completed as
      absent, refresh it when the row was read (unless the stage could not grow), and
      otherwise keep it. */
  ghost predicate Synced(before: Option<Row>, after: Option<Row>, n: Name, e: Engine, growOk: bool) {
    match e
    case Absent => after == None
    case Unreadable => after == before
    case Present(None) => after == before
    case Present(Some(st)) =>
      after == (if st.ino == 0 then None else Some(Row(n, st.ino, st.size, st.ctime))) || (!growOk && after == before)
  }

  ghost predicate Unanswered(e: Engine) {
    e == Unreadable || e == Present(None)
  }

  /** The table says of `n` just what the engine does; it cannot when the engine says nothing. */
  ghost predicate Agrees(row: Option<Row>, n: Name, e: Engine) {
    && (e == Absent || (e.Present? && e.stat.Some?))
    && row == if e == Absent || e.stat.value.ino == 0 then None
              else Some(Row(n, e.stat.value.ino, e.stat.value.size, e.stat.value.ctime))
  }

  method SyncOne(t: Table, name: Name, e: Engine, growOk: bool, flushOk: bool)
    requires t.Valid() && (e.Present? ==> |name| <= NAME_MAX)
    modifies t
    ensures t.Valid() && t.degraded == old(t.degraded)
    ensures t.stale == (old(t.stale) || Unanswered(e))
    ensures Synced(old(Lookup(t.View(), name)), Lookup(t.View(), name), name, e, growOk)
    ensures forall n :: n != name ==> Lookup(t.View(), n) == old(Lookup(t.View(), n))
    ensures growOk && !t.stale ==> Agrees(Lookup(t.View(), name), name, e)
    ensures Agrees(Lookup(t.View(), name), name, e) ==> t.stale == old(t.stale)
  {
    match e {
    case Unreadable => t.stale := true;
    case Absent => t.Remove(name);
    case Present(None) => t.stale := true;
    case Present(Some(st)) => t.Upsert(name, st.ino, st.size, st.ctime, growOk, flushOk);
    }
  }

  /** `n` is a proper ancestor path of `name` below position `i`, or its "path/" anchor. */
  predicate AncestorKey(name: Name, i: nat, n: Name)
    requires i <= |name|
  {
    exists k :: 0 < k < i && name[k] == '/' && (n == name[..k] || n == name[..k + 1])
  }

  /** One position of the ancestor scan. */
  method SyncAncestor(t: Table, name: Name, i: nat, engine: Name -> Engine, growOk: Name -> bool, flushOk: Name -> bool,
                      ghost m0: Rows)
    requires t.Valid() && i < |name| && SyncedTo(m0, t.View(), name, i, engine, growOk)
    requires forall n :: engine(n).Present? ==> |n| <= NAME_MAX
    modifies t
    ensures t.Valid() && t.degraded == old(t.degraded) && SyncedTo(m0, t.View(), name, i + 1, engine, growOk)
    ensures t.stale || SomeUnanswered(name, i, engine) <==> old(t.stale) || SomeUnanswered(name, i + 1, engine)
    ensures (old(t.stale) ==> t.stale) && (SomeUnanswered(name, i, engine) ==> SomeUnanswered(name, i + 1, engine))
  {
    hide Apply, AncestorKey, SyncedTo, Synced, SomeUnanswered, Table.Valid, Table.View;
    ghost var m1 := t.View();
    if name[i] != '/' || i == 0 {
      NoNewAncestors(m0, m1, name, i, engine, growOk);
      return;
    }
    SyncOne(t, name[..i], engine(name[..i]), growOk(name[..i]), flushOk(name[..i]));
    ghost var m2 := t.View();
    var anchor := name[..i] + "/";
    assert anchor == name[..i + 1];
    SyncOne(t, anchor, engine(anchor), growOk(anchor), flushOk(anchor));
    SyncedStep(m0, m1, m2, t.View(), name, i, engine, growOk);
    NextUnanswered(name, i, engine);
  }

  /** Syncs every ancestor of a name and its anchor. */
  method SyncParents(t: Table, name: Name, engine: Name -> Engine, growOk: Name -> bool, flushOk: Name -> bool)
    requires t.Valid() && forall n :: engine(n).Present? ==> |n| <= NAME_MAX
    modifies t
    ensures t.Valid() && t.degraded == old(t.degraded)
    ensures forall n :: |name| < 600 && AncestorKey(name, |name|, n) ==>
              Synced(old(Lookup(t.View(), n)), Lookup(t.View(), n), n, engine(n), growOk(n))
    ensures forall n :: |name| >= 600 || !AncestorKey(name, |name|, n) ==>
      Lookup(t.View(), n) == old(Lookup(t.View(), n))
    ensures t.stale <==> old(t.stale) || (|name| < 600 && SomeUnanswered(name, |name|, engine))
    ensures forall n :: |name| < 600 && !t.stale && AncestorKey(name, |name|, n) && growOk(n) ==>
              Agrees(Lookup(t.View(), n), n, engine(n))
  {
    if |name| >= 600 { return; }
    hide Apply, AncestorKey, SyncedTo, Synced, SomeUnanswered, Agrees, Table.Valid, Table.View;
    ghost var m0, s0 := t.View(), t.stale;
    SyncedNone(m0, name, engine, growOk);
    for i := 0 to |name|
      invariant t.Valid() && t.degraded == old(t.degraded)
      invariant SyncedTo(m0, t.View(), name, i, engine, growOk)
      invariant t.stale <==> s0 || SomeUnanswered(name, i, engine)
    {
      SyncAncestor(t, name, i, engine, growOk, flushOk, m0);
    }
    SyncedAll(m0, t.View(), name, engine, growOk);
    if !t.stale { SyncedAgrees(m0, t.View(), name, engine, growOk); }
  }

  lemma SyncedAgrees(m0: Rows, m: Rows, name: Name, engine: Name -> Engine, growOk: Name -> bool)
    requires SyncedTo(m0, m, name, |name|, engine, growOk) && !SomeUnanswered(name, |name|, engine)
    ensures forall n :: AncestorKey(name, |name|, n) && growOk(n) ==> Agrees(Lookup(m, n), n, engine(n))
  {
    hide AncestorKey;
  }

  ghost predicate SyncedTo(m0: Rows, m: Rows, name: Name, i: nat, engine: Name -> Engine, growOk: Name -> bool)
    requires i <= |name|
  {
    && (forall n :: AncestorKey(name, i, n) ==> Synced(Lookup(m0, n), Lookup(m, n), n, engine(n), growOk(n)))
    && (forall n :: !AncestorKey(name, i, n) ==> Lookup(m, n) == Lookup(m0, n))
  }

  ghost predicate SomeUnanswered(name: Name, i: nat, engine: Name -> Engine)
    requires i <= |name|
  {
    exists n :: AncestorKey(name, i, n) && Unanswered(engine(n))
  }

  lemma SyncedNone(m: Rows, name: Name, engine: Name -> Engine, growOk: Name -> bool)
    ensures SyncedTo(m, m, name, 0, engine, growOk) && !SomeUnanswered(name, 0, engine)
  {
  }

  lemma SyncedAll(m0: Rows, m: Rows, name: Name, engine: Name -> Engine, growOk: Name -> bool)
    requires SyncedTo(m0, m, name, |name|, engine, growOk)
    ensures forall n :: AncestorKey(name, |name|, n) ==> Synced(Lookup(m0, n), Lookup(m, n), n, engine(n), growOk(n))
    ensures forall n :: !AncestorKey(name, |name|, n) ==> Lookup(m, n) == Lookup(m0, n)
  {
  }

  lemma NoNewAncestors(m0: Rows, m: Rows, name: Name, i: nat, engine: Name -> Engine, growOk: Name -> bool)
    requires i < |name| && !(name[i] == '/' && i > 0) && SyncedTo(m0, m, name, i, engine, growOk)
    ensures SyncedTo(m0, m, name, i + 1, engine, growOk)
    ensures SomeUnanswered(name, i + 1, engine) <==> SomeUnanswered(name, i, engine)
  {
    assert forall n :: AncestorKey(name, i + 1, n) <==> AncestorKey(name, i, n);
  }

  lemma NextUnanswered(name: Name, i: nat, engine: Name -> Engine)
    requires 0 < i < |name| && name[i] == '/'
    ensures SomeUnanswered(name, i + 1, engine) <==>
            SomeUnanswered(name, i, engine) || Unanswered(engine(name[..i])) || Unanswered(engine(name[..i + 1]))
  {
    NextAncestors(name, i);
  }

  lemma NextAncestors(name: Name, i: nat)
    requires 0 < i < |name| && name[i] == '/'
    ensures forall n :: AncestorKey(name, i + 1, n) <==> AncestorKey(name, i, n) || n == name[..i] || n == name[..i + 1]
  {
    forall n ensures AncestorKey(name, i + 1, n) <==> AncestorKey(name, i, n) || n == name[..i] || n == name[..i + 1] {
      if n == name[..i] || n == name[..i + 1] {
        assert 0 < i < i + 1 && name[i] == '/';
      }
    }
  }

  /** Syncing an ancestor and its anchor extends the frame to both keys. */
  lemma SyncedStep(m0: Rows, m1: Rows, m2: Rows, m3: Rows, name: Name, i: nat,
                   engine: Name -> Engine, growOk: Name -> bool)
    requires 0 < i < |name| && name[i] == '/' && SyncedTo(m0, m1, name, i, engine, growOk)
    requires Synced(Lookup(m1, name[..i]), Lookup(m2, name[..i]), name[..i], engine(name[..i]), growOk(name[..i]))
    requires forall n :: n != name[..i] ==> Lookup(m2, n) == Lookup(m1, n)
    requires var a := name[..i + 1]; Synced(Lookup(m2, a), Lookup(m3, a), a, engine(a), growOk(a))
    requires forall n :: n != name[..i + 1] ==> Lookup(m3, n) == Lookup(m2, n)
    ensures SyncedTo(m0, m3, name, i + 1, engine, growOk)
  {
    NextAncestors(name, i);
    assert name[..i] != name[..i + 1];
  }

  // ---- the full rebuild ----

  /** One entry the namespace walk delivers. */
  datatype Entry = Entry(path: Name, ino: nat, dir: bool, size: nat, mtime: nat)

  /** strncpy into the row's name buffer. */
  function Clip(n: Name): Name {
    if |n| > NAME_MAX then n[..NAME_MAX] else n
  }

  /** A file gets one row; a directory one under its path and one under its anchor. */
  function EntryRows(e: Entry): seq<Row> {
    if e.dir then [Row(Clip(e.path), e.ino, 0, e.mtime), Row(Clip(e.path + "/"), e.ino, 0, e.mtime)]
    else [Row(Clip(e.path), e.ino, e.size, e.mtime)]
  }

  function WalkRows(walk: seq<Entry>): seq<Row> {
    if walk == [] then [] else WalkRows(walk[..|walk| - 1]) + EntryRows(walk[|walk| - 1])
  }

  /** A namespace walk: distinct paths of at most 255 bytes, none ending in '/'. */
  ghost predicate IsWalk(walk: seq<Entry>) {
    && (forall i :: 0 <= i < |walk| ==> 0 < |walk[i].path| <= 255 && walk[i].path[|walk[i].path| - 1] != '/')
    && (forall i, j :: 0 <= i < j < |walk| ==> walk[i].path != walk[j].path)
  }

  /** No directory path is so long that its anchor is cut back to the path itself. */
  ghost predicate AnchorsFit(walk: seq<Entry>) {
    forall i :: 0 <= i < |walk| && walk[i].dir ==> |walk[i].path| < 255
  }

  /** `n` is the path of some entry or the anchor of some directory. */
  ghost predicate FromWalk(walk: seq<Entry>, n: Name) {
    exists k :: 0 <= k < |walk| && (n == walk[k].path || (walk[k].dir && n == walk[k].path + "/"))
  }

  lemma {:induction false} WalkRowOrigin(walk: seq<Entry>, x: nat)
    requires IsWalk(walk) && AnchorsFit(walk) && x < |WalkRows(walk)|
    ensures FromWalk(walk, WalkRows(walk)[x].name)
  {
    var k := |walk| - 1;
    var before := WalkRows(walk[..k]);
    if x < |before| {
      WalkRowOrigin(walk[..k], x);
      var j :| 0 <= j < k && (before[x].name == walk[..k][j].path ||
                              (walk[..k][j].dir && before[x].name == walk[..k][j].path + "/"));
      assert walk[..k][j] == walk[j];
    } else {
      assert WalkRows(walk)[x] == EntryRows(walk[k])[x - |before|];
    }
  }

  lemma {:induction false} WalkRowsDistinct(walk: seq<Entry>)
    requires IsWalk(walk) && AnchorsFit(walk)
    ensures DistinctNames(WalkRows(walk))
  {
    if walk == [] { return; }
    var k := |walk| - 1;
    WalkRowsDistinct(walk[..k]);
    EntryRowNames(walk[k]);
    WalkRowsApart(walk, k);
    DistinctAppend(WalkRows(walk[..k]), EntryRows(walk[k]));
  }

  lemma EntryRowNames(e: Entry)
    requires |e.path| <= 255 && (e.dir ==> |e.path| < 255)
    ensures forall y :: 0 <= y < |EntryRows(e)| ==>
      EntryRows(e)[y].name == e.path || EntryRows(e)[y].name == e.path + "/"
    ensures DistinctNames(EntryRows(e))
  {
    assert e.path != e.path + "/";
  }

  lemma WalkRowsApart(walk: seq<Entry>, k: nat)
    requires IsWalk(walk) && AnchorsFit(walk) && k + 1 == |walk|
    ensures DisjointNames(WalkRows(walk[..k]), EntryRows(walk[k]))
  {
    var before, e := WalkRows(walk[..k]), walk[k];
    EntryRowNames(e);
    forall x | 0 <= x < |before| ensures before[x].name != e.path && before[x].name != e.path + "/" {
      WalkRowOrigin(walk[..k], x);
      EarlierDiffers(walk, k, before[x].name);
    }
  }

  lemma EarlierDiffers(walk: seq<Entry>, k: nat, n: Name)
    requires IsWalk(walk) && k < |walk| && FromWalk(walk[..k], n)
    ensures n != walk[k].path && n != walk[k].path + "/"
  {
    var j :| 0 <= j < k && (n == walk[..k][j].path || n == walk[..k][j].path + "/");
    AnchorsDiffer(walk[j].path, walk[k].path);
  }

  lemma AnchorsDiffer(p: Name, q: Name)
    requires p != [] && q != [] && p != q && p[|p| - 1] != '/' && q[|q| - 1] != '/'
    ensures p + "/" != q + "/" && p + "/" != q && p != q + "/"
  {
    assert (p + "/")[|p|] == '/' && (q + "/")[|q|] == '/';
    assert p == (p + "/")[..|p|] && q == (q + "/")[..|q|];
  }

  lemma LongAnchor(e: Entry)
    requires e.dir && |e.path| == 255
    ensures !DistinctNames(EntryRows(e))
  {
    assert Clip(e.path + "/") == e.path;
    assert EntryRows(e)[0].name == EntryRows(e)[1].name;
  }

  lemma NotDistinctAppend(a: seq<Row>, b: seq<Row>)
    requires !DistinctNames(a) || !DistinctNames(b)
    ensures !DistinctNames(a + b)
  {
    if !DistinctNames(a) {
      var i, j :| 0 <= i < j < |a| && a[i].name == a[j].name;
      assert (a + b)[i].name == (a + b)[j].name;
    } else {
      var i, j :| 0 <= i < j < |b| && b[i].name == b[j].name;
      assert (a + b)[|a| + i].name == (a + b)[|a| + j].name;
    }
  }

  lemma DistinctAppend(a: seq<Row>, b: seq<Row>)
    requires DistinctNames(a) && DistinctNames(b) && DisjointNames(a, b)
    ensures DistinctNames(a + b)
  {
  }

  /** The rows of a walk carry distinct names exactly when every anchor fits: a
      255-byte directory path collides with its own anchor. */
  lemma {:induction false} WalkRowsDistinctIff(walk: seq<Entry>)
    requires IsWalk(walk)
    ensures DistinctNames(WalkRows(walk)) <==> AnchorsFit(walk)
  {
    hide DistinctNames, EntryRows;
    if AnchorsFit(walk) {
      WalkRowsDistinct(walk);
    } else {
      var k := |walk| - 1;
      var before, e := WalkRows(walk[..k]), walk[k];
      if e.dir && |e.path| >= 255 {
        LongAnchor(e);
        NotDistinctAppend(before, EntryRows(e));
      } else {
        WalkRowsDistinctIff(walk[..k]);
        NotDistinctAppend(before, EntryRows(e));
      }
    }
  }

  lemma {:induction false} WalkRowsPrefix(walk: seq<Entry>, i: nat)
    requires i <= |walk|
    ensures WalkRows(walk[..i]) <= WalkRows(walk)
    decreases |walk| - i
  {
    if i == |walk| {
      assert walk[..i] == walk;
    } else {
      assert walk[..i + 1][..i] == walk[..i];
      WalkRowsPrefix(walk, i + 1);
    }
  }

  /** The walk callback over a whole walk. It stops at the first row that cannot be
      stored, which ends the walk early. */
  method Collect(walk: seq<Entry>, room: nat) returns (rows: seq<Row>, finished: bool)
    ensures finished <==> |WalkRows(walk)| <= room
    ensures rows == if finished then WalkRows(walk) else WalkRows(walk)[..room]
  {
    hide EntryRows;
    rows := [];
    for i := 0 to |walk|
      invariant rows == WalkRows(walk[..i]) && |rows| <= room
    {
      var more := EntryRows(walk[i]);
      assert walk[..i + 1][..i] == walk[..i];
      WalkRowsPrefix(walk, i + 1);
      for y := 0 to |more|
        invariant rows == WalkRows(walk[..i]) + more[..y] && |rows| <= room
      {
        if |rows| == room {
          assert rows <= WalkRows(walk[..i + 1]);
          return rows, false;
        }
        rows := rows + [more[y]];
      }
    }
    assert walk[..|walk|] == walk;
    finished := true;
  }

  /** Sorting gives a strict order exactly when the names are distinct, and then the map does
      not depend on the order. */
  lemma SortedIffDistinct(rows: seq<Row>)
    ensures Sorted(SortRows(rows)) <==> DistinctNames(rows)
    ensures DistinctNames(rows) ==> Apply(Apply(map[], SortRows(rows)), []) == Apply(map[], rows)
  {
    var s := SortRows(rows);
    if DistinctNames(rows) {
      SortKeepsDistinct(rows);
      ApplyPermuted(map[], rows, s);
    } else if Sorted(s) {
      forall i, j | 0 <= i < j < |s| ensures s[i].name != s[j].name { LessIrreflexive(s[i].name); }
      forall i, j | 0 <= i < j < |rows| ensures rows[i].name != rows[j].name { SameMultisetDistinct(s, rows, i, j); }
      assert false;
    }
  }

  lemma PrefixDistinct(all: seq<Row>, n: nat)
    requires n <= |all| && DistinctNames(all)
    ensures DistinctNames(all[..n])
  {
  }

  /** The row of an entry under its path, and a directory's under its anchor. */
  ghost predicate EntryHeld(m: Rows, e: Entry) {
    && Lookup(m, e.path) == Some(Row(e.path, e.ino, if e.dir then 0 else e.size, e.mtime))
    && (e.dir ==> Lookup(m, e.path + "/") == Some(Row(e.path + "/", e.ino, 0, e.mtime)))
  }

  /** The map has every entry of the walk, and no name that is not from it. */
  ghost predicate Mirrors(m: Rows, walk: seq<Entry>) {
    && (forall k :: 0 <= k < |walk| && walk[k].ino != 0 ==> EntryHeld(m, walk[k]))
    && (forall n :: n in m ==> FromWalk(walk, n))
  }

  /** Frees the table and builds it again from a walk. The table is degraded when the
      walk did not finish. A finished one is in order exactly when every anchor fits. */
  method Rebuild(t: Table, walk: seq<Entry>, room: nat, walkOk: bool)
    requires IsWalk(walk)
    modifies t
    ensures t.stage == [] && t.stale == old(t.stale)
    ensures t.degraded <==> !walkOk || |WalkRows(walk)| > room
    ensures |WalkRows(walk)| <= room ==> t.main == SortRows(WalkRows(walk))
    ensures |WalkRows(walk)| <= room ==> (t.Valid() <==> AnchorsFit(walk))
    ensures AnchorsFit(walk) ==> t.Valid()
    ensures AnchorsFit(walk) ==>
      t.View() == Apply(map[], if |WalkRows(walk)| > room then WalkRows(walk)[..room] else WalkRows(walk))
    ensures AnchorsFit(walk) && |WalkRows(walk)| <= room ==> Mirrors(t.View(), walk)
  {
    hide WalkRows, Sorted, Apply, SortRows, IsWalk, AnchorsFit, Mirrors;
    if AnchorsFit(walk) { RebuiltHolds(walk); }
    var rows, finished := Collect(walk, room);
    WalkRowsDistinctIff(walk);
    if AnchorsFit(walk) { PrefixDistinct(WalkRows(walk), |rows|); }
    assert WalkRows(walk)[..|WalkRows(walk)|] == WalkRows(walk);
    SortedIffDistinct(rows);
    t.stage, t.stageCap := [], 0;
    t.main := SortRows(rows);
    t.degraded := !walkOk || !finished;
  }

  lemma FirstOfExists(rows: seq<Row>, n: Name) returns (k: nat)
    requires Named(rows, n)
    ensures FirstOf(rows, k, n)
  {
    k := 0;
    while rows[k].name != n
      invariant k < |rows| && forall i :: 0 <= i < k ==> rows[i].name != n
      decreases |rows| - k
    {
      k := k + 1;
    }
  }

  lemma LongDirRows(e: Entry)
    requires e.dir && |e.path| == 255
    ensures EntryRows(e) == [EntryRows(e)[0], EntryRows(e)[0]] && EntryRows(e)[0].name == e.path
  {
    assert Clip(e.path + "/") == e.path;
  }

  lemma WalkRowsAround(walk: seq<Entry>, k: nat)
    requires k < |walk|
    ensures WalkRows(walk[..k]) + EntryRows(walk[k]) <= WalkRows(walk)
  {
    hide EntryRows;
    assert walk[..k + 1][..k] == walk[..k];
    WalkRowsPrefix(walk, k + 1);
  }

  /** A directory whose anchor is cut back to its path gives two rows, the same. */
  lemma LongDirTwice(walk: seq<Entry>, k: nat)
    requires k < |walk| && walk[k].dir && |walk[k].path| == 255
    ensures multiset(WalkRows(walk))[EntryRows(walk[k])[0]] >= 2
  {
    hide *;
    LongDirRows(walk[k]);
    WalkRowsAround(walk, k);
    var rows, before, r := WalkRows(walk), WalkRows(walk[..k]), EntryRows(walk[k])[0];
    assert rows == before + [r, r] + rows[|before| + 2..];
    TwiceIn(before, r, rows[|before| + 2..]);
  }

  lemma TwiceIn(a: seq<Row>, r: Row, b: seq<Row>)
    ensures multiset(a + [r, r] + b)[r] >= 2
  {
    assert multiset([r, r])[r] == 2;
  }

  lemma OneOfTwoStays(rows: seq<Row>, r: Row, j: nat, x: Row)
    requires multiset(rows)[r] >= 2 && j < |rows|
    ensures r in rows[j := x]
  {
    assert rows == rows[..j] + [rows[j]] + rows[j + 1..] && rows[j := x] == rows[..j] + [x] + rows[j + 1..];
    assert r in multiset(rows[j := x]);
  }

  /** Removing such a directory from a rebuilt table tombstones one of its two rows: a live
      row of that name stays. */
  method LongDirOutlivesRemoval(t: Table, walk: seq<Entry>, k: nat, room: nat)
    requires IsWalk(walk) && k < |walk| && walk[k].dir && |walk[k].path| == 255 && walk[k].ino != 0
    requires |WalkRows(walk)| <= room
    modifies t
    ensures exists i :: 0 <= i < |t.main| && t.main[i].name == walk[k].path && t.main[i].ino != 0
  {
    hide IsWalk, WalkRows, SortRows, AnchorsFit, Apply, Table.Valid, Table.View;
    Rebuild(t, walk, room, true);
    ghost var m, r := t.main, EntryRows(walk[k])[0];
    LongDirTwice(walk, k);
    assert r in multiset(m) && r.name == walk[k].path;
    ghost var j := FirstOfExists(m, walk[k].path);
    t.Remove(walk[k].path);
    OneOfTwoStays(m, r, j, m[j].(ino := 0));
  }

  /** The answers of a lookup: the row, a real absence, or no standing to say. */
  datatype Snapshot = Hit(row: Row) | NotThere | NoStanding

  /** snapshot_entry: a miss on a stale table rebuilds it first. Absence is claimed only
      of a table whose last rebuild finished. */
  method LookUp(t: Table, name: Name, walk: seq<Entry>, room: nat, walkOk: bool) returns (r: Snapshot)
    requires t.Valid() && IsWalk(walk) && AnchorsFit(walk)
    modifies t
    ensures t.Valid()
    ensures r == match Lookup(t.View(), name)
                 case Some(row) => Hit(row)
                 case None => if t.degraded then NoStanding else NotThere
    ensures name in old(t.View()) || !old(t.stale) ==>
      t.View() == old(t.View()) && t.degraded == old(t.degraded) && t.stale == old(t.stale)
    ensures name !in old(t.View()) && old(t.stale) ==>
              && t.View() == Apply(map[], if |WalkRows(walk)| > room then WalkRows(walk)[..room] else WalkRows(walk))
              && (t.degraded <==> !walkOk || |WalkRows(walk)| > room) && t.stale == t.degraded
              && (!t.degraded ==> Mirrors(t.View(), walk))
  {
    var e := t.Find(name);
    if e == None && t.stale {
      Rebuild(t, walk, room, walkOk);
      if !t.degraded { t.stale := false; }
      e := t.Find(name);
    }
    r := match e case Some(row) => Hit(row) case None => if t.degraded then NoStanding else NotThere;
  }

  lemma {:induction false} WalkRowHeld(walk: seq<Entry>, k: nat, y: nat)
    requires IsWalk(walk) && AnchorsFit(walk) && k < |walk| && walk[k].ino != 0 && y < |EntryRows(walk[k])|
    requires EntryRows(walk[k])[y].ino != 0
    ensures Lookup(Apply(map[], WalkRows(walk)), EntryRows(walk[k])[y].name) == Some(EntryRows(walk[k])[y])
  {
    var rows, before := WalkRows(walk), WalkRows(walk[..k]);
    assert walk[..k + 1][..k] == walk[..k];
    WalkRowsPrefix(walk, k + 1);
    WalkRowsDistinct(walk);
    assert rows[|before| + y] == EntryRows(walk[k])[y];
    ApplyLast(map[], rows, |before| + y);
  }

  lemma {:induction false} HeldIsNamed(rows: seq<Row>, n: Name)
    requires n in Apply(map[], rows)
    ensures Named(rows, n)
  {
    if !Named(rows, n) { ApplyOther(map[], rows, n); }
  }

  /** A finished rebuild holds every entry of the walk under its path, with its inode and time
      and a file's size, every directory under its anchor too, and nothing else. */
  lemma RebuiltHolds(walk: seq<Entry>)
    requires IsWalk(walk) && AnchorsFit(walk)
    ensures Mirrors(Apply(map[], WalkRows(walk)), walk)
  {
    var m, rows := Apply(map[], WalkRows(walk)), WalkRows(walk);
    forall k | 0 <= k < |walk| && walk[k].ino != 0 ensures EntryHeld(m, walk[k]) {
      WalkRowHeld(walk, k, 0);
      if walk[k].dir { WalkRowHeld(walk, k, 1); }
    }
    forall n | n in m ensures FromWalk(walk, n) {
      HeldIsNamed(rows, n);
      var x :| 0 <= x < |rows| && rows[x].name == n;
      WalkRowOrigin(walk, x);
    }
  }
}
