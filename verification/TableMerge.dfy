/** Sorting the stage and merging it into the main table. */
module TableMerge {
  import opened Names
  import opened NameTable

  // ---- qsort by name ----

  function Insert(rows: seq<Row>, r: Row): (s: seq<Row>)
    requires WeaklySorted(rows)
    ensures WeaklySorted(s) && multiset(s) == multiset(rows) + multiset{r}
  {
    if rows == [] || !Less(rows[0].name, r.name) then
      InsertFront(rows, r);
      [r] + rows
    else
      var t := Insert(rows[1..], r);
      InsertBack(rows, t, r);
      [rows[0]] + t
  }

  lemma InsertFront(rows: seq<Row>, r: Row)
    requires WeaklySorted(rows) && (rows == [] || !Less(rows[0].name, r.name))
    ensures WeaklySorted([r] + rows)
  {
    var s := [r] + rows;
    forall j | 0 < j < |s| ensures r.name == s[j].name || Less(r.name, s[j].name) {
      LessTotal(r.name, rows[0].name);
      if j > 1 && Less(r.name, rows[0].name) && rows[0].name != rows[j - 1].name {
        LessTransitive(r.name, rows[0].name, rows[j - 1].name);
      }
    }
  }

  lemma InsertBack(rows: seq<Row>, t: seq<Row>, r: Row)
    requires rows != [] && WeaklySorted(rows) && WeaklySorted(t) && Less(rows[0].name, r.name)
    requires multiset(t) == multiset(rows[1..]) + multiset{r}
    ensures WeaklySorted([rows[0]] + t) && multiset([rows[0]] + t) == multiset(rows) + multiset{r}
  {
    assert rows == [rows[0]] + rows[1..];
    forall j | 0 <= j < |t| ensures rows[0].name == t[j].name || Less(rows[0].name, t[j].name) {
      assert t[j] in multiset(t);
      if t[j] != r {
        assert t[j] in rows[1..];
      }
    }
  }

  function SortRows(rows: seq<Row>): (s: seq<Row>)
    ensures WeaklySorted(s) && multiset(s) == multiset(rows)
  {
    if rows == [] then [] else
      assert rows == [rows[0]] + rows[1..];
      Insert(SortRows(rows[1..]), rows[0])
  }

  lemma SortKeepsDistinct(rows: seq<Row>)
    requires DistinctNames(rows)
    ensures DistinctNames(SortRows(rows)) && Sorted(SortRows(rows))
  {
    var s := SortRows(rows);
    forall i, j | 0 <= i < j < |s| ensures s[i].name != s[j].name {
      SameMultisetDistinct(rows, s, i, j);
    }
  }

  lemma SameMultisetDistinct(rows: seq<Row>, s: seq<Row>, i: nat, j: nat)
    requires DistinctNames(rows) && multiset(s) == multiset(rows) && i < j < |s|
    ensures s[i].name != s[j].name
  {
    assert s[i] in multiset(s) && s[j] in multiset(s);
    var a :| 0 <= a < |rows| && rows[a] == s[i];
    var b :| 0 <= b < |rows| && rows[b] == s[j];
    if s[i] == s[j] {
      assert s == s[..i] + [s[i]] + s[i + 1..j] + [s[j]] + s[j + 1..];
      assert multiset(s)[s[i]] >= 2;
      OnceOnly(rows, a);
      assert false;
    }
  }

  lemma OnceOnly(rows: seq<Row>, a: nat)
    requires DistinctNames(rows) && a < |rows|
    ensures multiset(rows)[rows[a]] == 1
  {
    assert rows == rows[..a] + [rows[a]] + rows[a + 1..];
    assert rows[a] !in rows[..a] && rows[a] !in rows[a + 1..];
  }

  // ---- the two-way merge ----

  /** Main rows `[..i]` and staged rows `[..c]` are merged into `out`. */
  ghost predicate Merged(main: seq<Row>, stage: seq<Row>, i: nat, c: nat, out: seq<Row>) {
    && i <= |main| && c <= |stage| && |out| <= i + c
    && Sorted(out) && Below(out, main, i) && Below(out, stage, c) && Live(out)
    && Below(stage[..c], main, i) && Below(main[..i], stage, c)
    && Apply(map[], out) == Apply(Apply(map[], main[..i]), stage[..c])
  }

  /** Every row of `out` comes before row `i` of `rows`, if there is one. */
  ghost predicate Below(out: seq<Row>, rows: seq<Row>, i: nat) {
    i < |rows| ==> forall x :: 0 <= x < |out| ==> Less(out[x].name, rows[i].name)
  }

  ghost predicate Live(rows: seq<Row>) {
    forall x :: 0 <= x < |rows| ==> rows[x].ino != 0
  }

  function Keep(out: seq<Row>, r: Row): seq<Row> {
    if r.ino == 0 then out else out + [r]
  }

  lemma BelowUnnamed(out: seq<Row>, n: Name)
    requires forall x :: 0 <= x < |out| ==> Less(out[x].name, n)
    ensures !Named(out, n)
  {
    LessIrreflexive(n);
  }

  lemma KeepSorted(out: seq<Row>, r: Row)
    requires Sorted(out) && Live(out) && forall x :: 0 <= x < |out| ==> Less(out[x].name, r.name)
    ensures Sorted(Keep(out, r)) && Live(Keep(out, r))
  {
    hide Less;
  }

  /** Keeping a row that comes after everything merged so far is putting it. */
  lemma KeepIsPut(out: seq<Row>, r: Row)
    requires Sorted(out) && Live(out) && forall x :: 0 <= x < |out| ==> Less(out[x].name, r.name)
    ensures Sorted(Keep(out, r)) && Live(Keep(out, r))
    ensures Apply(map[], Keep(out, r)) == Put(Apply(map[], out), r)
  {
    hide Apply, Less, Sorted, Live, Named;
    KeepSorted(out, r);
    ApplyPush(map[], out, r);
    BelowUnnamed(out, r.name);
    ApplyOther(map[], out, r.name);
  }

  lemma BelowNext(out: seq<Row>, rows: seq<Row>, i: nat)
    requires WeaklySorted(rows) && Below(out, rows, i) && i < |rows|
    ensures Below(out, rows, i + 1)
  {
    if i + 1 < |rows| && rows[i].name != rows[i + 1].name {
      forall x | 0 <= x < |out| ensures Less(out[x].name, rows[i + 1].name) {
        LessTransitive(out[x].name, rows[i].name, rows[i + 1].name);
      }
    }
  }

  lemma BelowPush(out: seq<Row>, r: Row, rows: seq<Row>, i: nat)
    requires Below(out, rows, i) && (i < |rows| ==> Less(r.name, rows[i].name))
    ensures Below(Keep(out, r), rows, i) && Below(out + [r], rows, i)
  {
  }

  lemma TakeOneMore(rows: seq<Row>, i: nat)
    requires i < |rows|
    ensures rows[..i + 1] == rows[..i] + [rows[i]]
  {
  }

  /** The next main row comes first. */
  lemma MergeMain(main: seq<Row>, stage: seq<Row>, i: nat, c: nat, out: seq<Row>)
    requires Sorted(main) && WeaklySorted(stage) && Merged(main, stage, i, c, out) && i < |main|
    requires c < |stage| ==> Less(main[i].name, stage[c].name)
    ensures Merged(main, stage, i + 1, c, Keep(out, main[i]))
  {
    var r, s := main[i], stage[..c];
    KeepIsPut(out, r);
    BelowNext(out, main, i);
    BelowPush(out, r, main, i + 1);
    BelowPush(out, r, stage, c);
    BelowNext(s, main, i);
    TakeOneMore(main, i);
    BelowPush(main[..i], r, stage, c);
    ApplyPush(map[], main[..i], r);
    BelowUnnamed(s, r.name);
    ApplyCommutes(Apply(map[], main[..i]), s, r);
  }

  /** Staged rows `[c..e]` all carry the name of row `e`, and row `e` is the last that does. */
  ghost predicate Run(stage: seq<Row>, c: nat, e: nat) {
    c <= e < |stage| && forall t :: c <= t <= e ==> stage[t].name == stage[e].name
  }

  /** Of a run of rows with one name only the last matters. */
  lemma {:induction false} ApplyRun(m: Rows, stage: seq<Row>, c: nat, e: nat)
    requires Run(stage, c, e)
    ensures Apply(m, stage[..e + 1]) == Put(Apply(m, stage[..c]), stage[e])
    decreases e
  {
    TakeOneMore(stage, e);
    ApplyPush(m, stage[..e], stage[e]);
    if c < e {
      assert stage[e - 1].name == stage[e].name;
      ApplyRun(m, stage, c, e - 1);
    }
  }

  lemma BelowRun(out: seq<Row>, stage: seq<Row>, c: nat, e: nat)
    requires WeaklySorted(stage) && Run(stage, c, e) && Below(out, stage, c)
    requires e + 1 < |stage| ==> stage[e].name != stage[e + 1].name
    ensures Below(out, stage, e + 1)
    ensures forall x :: 0 <= x < |out| ==> Less(out[x].name, stage[e].name)
  {
    assert stage[c].name == stage[e].name;
    BelowNext(out, stage, e);
  }

  lemma RunBelow(stage: seq<Row>, c: nat, e: nat, rows: seq<Row>, i: nat)
    requires Run(stage, c, e) && Below(stage[..c], rows, i) && (i < |rows| ==> Less(stage[e].name, rows[i].name))
    ensures Below(stage[..e + 1], rows, i)
  {
    forall x | 0 <= x <= e && i < |rows| ensures Less(stage[x].name, rows[i].name) {
      if x < c { assert stage[..c][x] == stage[x]; }
    }
  }

  /** The next staged name comes first: its last row is taken. */
  lemma MergeStage(main: seq<Row>, stage: seq<Row>, i: nat, c: nat, e: nat, out: seq<Row>)
    requires Sorted(main) && WeaklySorted(stage) && Merged(main, stage, i, c, out) && Run(stage, c, e)
    requires e + 1 < |stage| ==> stage[e].name != stage[e + 1].name
    requires i < |main| ==> Less(stage[e].name, main[i].name)
    ensures Merged(main, stage, i, e + 1, Keep(out, stage[e]))
  {
    BelowRun(out, stage, c, e);
    KeepIsPut(out, stage[e]);
    BelowPush(out, stage[e], main, i);
    BelowPush(out, stage[e], stage, e + 1);
    RunBelow(stage, c, e, main, i);
    BelowRun(main[..i], stage, c, e);
    ApplyRun(Apply(map[], main[..i]), stage, c, e);
  }

  /** A name in both: the staged row supersedes the main row. */
  lemma MergeBoth(main: seq<Row>, stage: seq<Row>, i: nat, c: nat, e: nat, out: seq<Row>)
    requires Sorted(main) && WeaklySorted(stage) && Merged(main, stage, i, c, out) && Run(stage, c, e)
    requires e + 1 < |stage| ==> stage[e].name != stage[e + 1].name
    requires i < |main| && main[i].name == stage[e].name
    ensures Merged(main, stage, i + 1, e + 1, Keep(out, stage[e]))
  {
    var m, s := Apply(map[], main[..i]), stage[..c];
    BelowRun(out, stage, c, e);
    KeepIsPut(out, stage[e]);
    BelowNext(out, main, i);
    BelowPush(out, stage[e], main, i + 1);
    BelowPush(out, stage[e], stage, e + 1);
    BelowNext(s, main, i);
    RunBelow(stage, c, e, main, i + 1);
    BelowRun(main[..i], stage, c, e);
    TakeOneMore(main, i);
    BelowPush(main[..i], main[i], stage, e + 1);
    ApplyPush(map[], main[..i], main[i]);
    BelowUnnamed(s, main[i].name);
    ApplyCommutes(m, s, main[i]);
    ApplyRun(Put(m, main[i]), stage, c, e);
    PutAgain(Apply(m, s), main[i], stage[e]);
  }

  lemma MergeNothing(main: seq<Row>, stage: seq<Row>)
    ensures Merged(main, stage, 0, 0, [])
  {
  }

  lemma MergedRoom(main: seq<Row>, stage: seq<Row>, i: nat, c: nat, out: seq<Row>)
    requires Merged(main, stage, i, c, out)
    ensures i <= |main| && c <= |stage| && |out| <= i + c
  {
  }

  lemma MergedAll(main: seq<Row>, stage: seq<Row>, out: seq<Row>)
    requires Merged(main, stage, |main|, |stage|, out)
    ensures Sorted(out) && Live(out) && |out| <= |main| + |stage|
    ensures Apply(map[], out) == Apply(Apply(map[], main), stage)
  {
    assert main[..|main|] == main && stage[..|stage|] == stage;
  }

  /** Moves `j` to the last staged row of its name. */
  method SkipDuplicates(stage: seq<Row>, j: nat, ghost c: nat) returns (e: nat)
    requires Run(stage, c, j)
    ensures Run(stage, c, e) && j <= e && (e + 1 < |stage| ==> stage[e].name != stage[e + 1].name)
  {
    e := j;
    while e + 1 < |stage| && stage[e].name == stage[e + 1].name
      invariant j <= e && Run(stage, c, e)
      decreases |stage| - e
    {
      e := e + 1;
    }
  }

  /** Appends a live row to the buffer; a tombstone is dropped. */
  method Append(merged: array<Row>, k: nat, r: Row) returns (k': nat)
    requires k < merged.Length
    modifies merged
    ensures k' <= merged.Length && merged[..k'] == Keep(old(merged[..k]), r)
  {
    k' := k;
    if r.ino != 0 {
      merged[k] := r;
      k' := k + 1;
    }
  }

  /** The merge of a sorted main table with a sorted stage, into a buffer of exactly
      `|main| + |stage|` rows. The result is strictly sorted and free of tombstones,
      and as a map it is the main rows with every staged name's last row put over
      them. */
  method MergeRows(main: seq<Row>, stage: seq<Row>) returns (out: seq<Row>)
    requires Sorted(main) && WeaklySorted(stage)
    ensures Sorted(out) && Live(out) && |out| <= |main| + |stage|
    ensures Apply(map[], out) == Apply(Apply(map[], main), stage)
  {
    hide Apply, Sorted, WeaklySorted, Merged, Live, Less, Keep;
    MergeNothing(main, stage);
    var merged := new Row[|main| + |stage|];
    var i: nat, j: nat, k: nat := 0, 0, 0;
    assert merged[..k] == [];
    ghost var c: nat := 0;
    while i < |main| && j < |stage|
      invariant i <= |main| && c <= |stage| && k <= merged.Length && Merged(main, stage, i, c, merged[..k])
      invariant if j < |stage| then Run(stage, c, j) else c == j
      decreases |main| - i + |stage| - j
    {
      j := SkipDuplicates(stage, j, c);
      LessTotal(main[i].name, stage[j].name);
      ghost var out0 := merged[..k];
      MergedRoom(main, stage, i, c, out0);
      if Less(main[i].name, stage[j].name) {
        MergeMain(main, stage, i, c, out0);
        k := Append(merged, k, main[i]);
        i := i + 1;
      } else {
        var both := main[i].name == stage[j].name;
        if both {
          MergeBoth(main, stage, i, c, j, out0);
        } else {
          MergeStage(main, stage, i, c, j, out0);
        }
        k := Append(merged, k, stage[j]);
        if both { i := i + 1; }
        j := j + 1;
        c := j;
      }
    }
    while i < |main|
      invariant j < |stage| ==> i == |main| && Run(stage, c, j)
      invariant j >= |stage| ==> c == j
      invariant i <= |main| && c <= |stage| && k <= merged.Length && Merged(main, stage, i, c, merged[..k])
    {
      ghost var out0 := merged[..k];
      MergedRoom(main, stage, i, c, out0);
      MergeMain(main, stage, i, c, out0);
      k := Append(merged, k, main[i]);
      i := i + 1;
    }
    while j < |stage|
      invariant i == |main| && c <= |stage| && k <= merged.Length && Merged(main, stage, i, c, merged[..k])
      invariant if j < |stage| then Run(stage, c, j) else c == j
      decreases |stage| - j
    {
      j := SkipDuplicates(stage, j, c);
      ghost var out0 := merged[..k];
      MergedRoom(main, stage, i, c, out0);
      MergeStage(main, stage, i, c, j, out0);
      k := Append(merged, k, stage[j]);
      j := j + 1;
      c := j;
    }
    out := merged[..k];
    MergedAll(main, stage, out);
  }
}
