/** The table itself and the operations on it, each proved to be one map operation. */
module StagedTable {
  import opened Options
  import opened Names
  import opened NameTable
  import opened TableMerge

  const NAME_MAX := 255       // the row's name buffer holds 256 bytes with its NUL
  const FIRST_STAGE_CAP := 256
  const FLUSH_AT := 1024

  function Lookup(m: Rows, n: Name): Option<Row> {
    if n in m then Some(m[n]) else None
  }

  /** Row `k` is the first of that name. */
  ghost predicate FirstOf(rows: seq<Row>, k: nat, n: Name) {
    k < |rows| && rows[k].name == n && forall i :: 0 <= i < k ==> rows[i].name != n
  }

  ghost predicate DisjointNames(a: seq<Row>, b: seq<Row>) {
    forall i, j :: 0 <= i < |a| && 0 <= j < |b| ==> a[i].name != b[j].name
  }

  class Table {
    var main: seq<Row>
    var stage: seq<Row>
    var stageCap: nat
    var stale: bool     // a rebuild is due
    var degraded: bool  // the last rebuild's walk did not finish

    constructor ()
      ensures Valid() && View() == map[] && !stale && !degraded
    {
      main, stage, stageCap := [], [], 0;
      stale, degraded := false, false;
    }

    /** The main table is strictly sorted; staged names are distinct and not in it.
        Tombstones count like any other row. */
    ghost predicate Valid()
      reads this`main, this`stage, this`stageCap
    {
      Sorted(main) && DistinctNames(stage) && DisjointNames(stage, main) && |stage| <= stageCap
    }

    /** The live rows by name. */
    ghost function View(): Rows
      reads this`main, this`stage
    {
      Apply(Apply(map[], main), stage)
    }

    /** Newest to oldest scan of the stage. */
    method FindStaged(name: Name) returns (i: int)
      ensures -1 <= i < |stage| && (i >= 0 ==> stage[i].name == name)
      ensures forall j :: i < j < |stage| ==> stage[j].name != name
    {
      i := |stage| - 1;
      while i >= 0 && stage[i].name != name
        invariant -1 <= i < |stage| && forall j :: i < j < |stage| ==> stage[j].name != name
      {
        i := i - 1;
      }
    }

    method LowerBound(name: Name) returns (lo: nat)
      requires WeaklySorted(main)
      ensures lo <= |main|
      ensures forall i :: 0 <= i < lo ==> Less(main[i].name, name)
      ensures forall i :: lo <= i < |main| ==> !Less(main[i].name, name)
    {
      var hi := |main|;
      lo := 0;
      while lo < hi
        invariant lo <= hi <= |main|
        invariant forall i :: 0 <= i < lo ==> Less(main[i].name, name)
        invariant forall i :: hi <= i < |main| ==> !Less(main[i].name, name)
      {
        var mid := (lo + hi) / 2;
        if Less(main[mid].name, name) {
          forall i | 0 <= i < mid ensures Less(main[i].name, name) {
            if main[i].name != main[mid].name { LessTransitive(main[i].name, main[mid].name, name); }
          }
          lo := mid + 1;
        } else {
          forall i | mid < i < |main| ensures !Less(main[i].name, name) {
            if Less(main[i].name, name) && main[mid].name != main[i].name {
              LessTransitive(main[mid].name, main[i].name, name);
            }
          }
          hi := mid;
        }
      }
    }

    /** Binary search: the index of the first row of that name, tombstoned or not, or -1. */
    method FindMain(name: Name) returns (k: int)
      requires WeaklySorted(main)
      ensures -1 <= k < |main| && (k >= 0 ==> FirstOf(main, k, name)) && (k < 0 ==> !Named(main, name))
    {
      var lo := LowerBound(name);
      LessIrreflexive(name);
      if lo < |main| && main[lo].name == name { return lo; }
      forall i | 0 <= i < |main| ensures main[i].name != name {
        if i > lo && main[lo].name != main[i].name {
          LessTotal(main[lo].name, name);
          LessTransitive(name, main[lo].name, main[i].name);
        }
      }
      k := -1;
    }

    /** find_entry: exactly the map's live row. */
    method Find(name: Name) returns (r: Option<Row>)
      requires Valid()
      ensures r == Lookup(View(), name)
    {
      var i := FindStaged(name);
      if i >= 0 {
        ApplyLast(Apply(map[], main), stage, i);
        return if stage[i].ino == 0 then None else Some(stage[i]);
      }
      ApplyOther(Apply(map[], main), stage, name);
      var k := FindMain(name);
      if k < 0 {
        ApplyOther(map[], main, name);
        return None;
      }
      MainDecides(main, k);
      r := if main[k].ino == 0 then None else Some(main[k]);
    }

    /** Sorts the stage and merges it into the main table. When the merge buffer cannot
        be allocated the stage stays, sorted. The map never changes. */
    method Flush(allocOk: bool)
      requires Valid()
      modifies this`main, this`stage
      ensures Valid() && View() == old(View())
      ensures allocOk || old(stage) == [] ==> stage == []
      ensures allocOk && old(stage) != [] ==> Live(main) && |main| <= |old(main)| + |old(stage)|
      ensures !allocOk ==> main == old(main) && multiset(stage) == multiset(old(stage))
    {
      if stage == [] { return; }
      SortKeepsDistinct(stage);
      ApplyPermuted(Apply(map[], main), stage, SortRows(stage));
      SortKeepsDisjoint(stage, main);
      stage := SortRows(stage);
      if !allocOk { return; }
      main := MergeRows(main, stage);
      stage := [];
    }

    /** Overwrites staged row `i`. */
    method SetStaged(i: nat, r: Row)
      requires i < |stage| && stage[i].name == r.name
      modifies this`stage
      ensures stage == old(stage)[i := r]
      ensures old(Valid()) ==> Valid() && View() == Put(old(View()), r)
    {
      if Valid() { ApplyUpdate(Apply(map[], main), stage, i, r); }
      stage := stage[i := r];
    }

    /** Overwrites main row `k`. */
    method SetMain(k: nat, r: Row)
      requires k < |main| && main[k].name == r.name
      modifies this`main
      ensures main == old(main)[k := r]
      ensures old(Valid()) ==> Valid() && View() == Put(old(View()), r)
    {
      if Valid() {
        MainUpdates(main, k, r);
        ApplyCommutes(Apply(map[], main), stage, r);
      }
      main := main[k := r];
    }

    /** Stages a row for a name that has none. */
    method Append(r: Row)
      requires Valid() && |stage| < stageCap && !Named(stage, r.name) && !Named(main, r.name)
      modifies this`stage
      ensures Valid() && View() == Put(old(View()), r)
    {
      ApplyPush(Apply(map[], main), stage, r);
      stage := stage + [r];
    }

    /** An upsert that finds its name nowhere and cannot grow the stage is dropped. */
    ghost predicate Drops(name: Name, growOk: bool)
      reads this`main, this`stage, this`stageCap
    {
      !Named(stage, name) && !Named(main, name) && |stage| == stageCap && !growOk
    }

    /** Sets one key, in place where the name has a row, otherwise by staging a new row;
        a full stage is merged. Nothing changes when the stage cannot grow. */
    method Upsert(name: Name, ino: nat, size: nat, ctime: nat, growOk: bool, flushOk: bool)
      requires Valid() && |name| <= NAME_MAX
      modifies this`main, this`stage, this`stageCap
      ensures Valid()
      ensures View() == if old(Drops(name, growOk)) then old(View()) else Put(old(View()), Row(name, ino, size, ctime))
      ensures old(Drops(name, growOk)) ==> !growOk && name !in old(View())
      ensures flushOk && old(|stage|) < 1024 ==> |stage| < 1024
    {
      var r := Row(name, ino, size, ctime);
      var i := FindStaged(name);
      if i >= 0 {
        SetStaged(i, r);
        return;
      }
      var k := FindMain(name);
      if k >= 0 {
        SetMain(k, r);
        return;
      }
      ApplyOther(Apply(map[], main), stage, name);
      ApplyOther(map[], main, name);
      if |stage| == stageCap {
        if !growOk { return; }
        stageCap := if stageCap == 0 then FIRST_STAGE_CAP else 2 * stageCap;
      }
      Append(r);
      if |stage| >= FLUSH_AT {
        Flush(flushOk);
      }
    }

    /** Deletes one key by tombstoning its row in place: the first one, if there are more. */
    method Remove(name: Name)
      requires WeaklySorted(main)
      modifies this`main, this`stage
      ensures old(Valid()) ==> Valid() && View() == old(View()) - {name}
      ensures WeaklySorted(main)
      ensures forall k: nat :: old(stage == [] && FirstOf(main, k, name)) ==>
                stage == [] && main == old(main)[k := old(main)[k].(ino := 0)]
    {
      var i := FindStaged(name);
      if i >= 0 {
        SetStaged(i, stage[i].(ino := 0));
        return;
      }
      var k := FindMain(name);
      if k >= 0 {
        SetMain(k, main[k].(ino := 0));
        return;
      }
      ApplyOther(Apply(map[], main), stage, name);
      ApplyOther(map[], main, name);
    }
  }

  lemma MainUpdates(main: seq<Row>, k: nat, r: Row)
    requires Sorted(main) && k < |main| && main[k].name == r.name
    ensures Apply(map[], main[k := r]) == Put(Apply(map[], main), r)
  {
    forall j | k < j < |main| ensures main[j].name != r.name {
      LessAsymmetric(main[k].name, main[j].name);
    }
    ApplyUpdate(map[], main, k, r);
  }

  lemma MainDecides(main: seq<Row>, k: nat)
    requires Sorted(main) && k < |main|
    ensures Lookup(Apply(map[], main), main[k].name) == if main[k].ino == 0 then None else Some(main[k])
  {
    forall j | k < j < |main| ensures main[j].name != main[k].name {
      LessAsymmetric(main[k].name, main[j].name);
    }
    ApplyLast(map[], main, k);
  }

  lemma SortKeepsDisjoint(rows: seq<Row>, main: seq<Row>)
    requires DisjointNames(rows, main)
    ensures DisjointNames(SortRows(rows), main) && |SortRows(rows)| == |rows|
  {
    var s := SortRows(rows);
    assert |multiset(s)| == |multiset(rows)|;
    forall i, j | 0 <= i < |s| && 0 <= j < |main| ensures s[i].name != main[j].name {
      assert s[i] in multiset(rows);
      var a :| 0 <= a < |rows| && rows[a] == s[i];
    }
  }
}
