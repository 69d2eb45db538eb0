/** The daemon's name table: a sorted array with in-place tombstones, an unsorted
    stage of recent names, and a two-way merge. It must behave as a map from names to
    live rows. */
module NameTable {
  import opened Names

  datatype Row = Row(name: Name, ino: nat, size: nat, ctime: nat)

  type Rows = map<Name, Row>

  /** A row with inode 0 is a tombstone. */
  function Put(m: Rows, r: Row): Rows {
    if r.ino == 0 then m - {r.name} else m[r.name := r]
  }

  /** The map after putting every row in order: for each name the last row wins. */
  ghost function Apply(m: Rows, rows: seq<Row>): Rows {
    if rows == [] then m else Put(Apply(m, rows[..|rows| - 1]), rows[|rows| - 1])
  }

  ghost predicate Named(rows: seq<Row>, n: Name) {
    exists i :: 0 <= i < |rows| && rows[i].name == n
  }

  ghost predicate DistinctNames(rows: seq<Row>) {
    forall i, j :: 0 <= i < j < |rows| ==> rows[i].name != rows[j].name
  }

  ghost predicate Sorted(rows: seq<Row>) {
    forall i, j :: 0 <= i < j < |rows| ==> Less(rows[i].name, rows[j].name)
  }

  /** Sorted, with rows of one name next to each other. */
  ghost predicate WeaklySorted(rows: seq<Row>) {
    forall i, j :: 0 <= i < j < |rows| ==> rows[i].name == rows[j].name || Less(rows[i].name, rows[j].name)
  }

  lemma ApplyPush(m: Rows, rows: seq<Row>, r: Row)
    ensures Apply(m, rows + [r]) == Put(Apply(m, rows), r)
  {
    assert (rows + [r])[..|rows|] == rows;
  }

  /** A row commutes past rows of other names. */
  lemma {:induction false} ApplyCommutes(m: Rows, rows: seq<Row>, r: Row)
    requires !Named(rows, r.name)
    ensures Apply(Put(m, r), rows) == Put(Apply(m, rows), r)
  {
    hide Put;
    if rows != [] {
      var k := |rows| - 1;
      assert rows[k].name != r.name;
      assert !Named(rows[..k], r.name) by {
        forall i | 0 <= i < k ensures rows[..k][i].name != r.name { assert rows[i].name != r.name; }
      }
      ApplyCommutes(m, rows[..k], r);
      PutSwap(Apply(m, rows[..k]), r, rows[k]);
    }
  }

  /** A name no row carries keeps what it had. */
  lemma {:induction false} ApplyOther(m: Rows, rows: seq<Row>, n: Name)
    requires !Named(rows, n)
    ensures (n in Apply(m, rows) <==> n in m) && (n in m ==> Apply(m, rows)[n] == m[n])
  {
    if rows != [] {
      var k := |rows| - 1;
      assert rows[k].name != n;
      assert !Named(rows[..k], n) by {
        forall i | 0 <= i < k ensures rows[..k][i].name != n { assert rows[i].name != n; }
      }
      ApplyOther(m, rows[..k], n);
    }
  }

  /** The last row of a name decides it. */
  lemma {:induction false} ApplyLast(m: Rows, rows: seq<Row>, i: nat)
    requires i < |rows| && forall j :: i < j < |rows| ==> rows[j].name != rows[i].name
    ensures rows[i].name in Apply(m, rows) <==> rows[i].ino != 0
    ensures rows[i].ino != 0 ==> Apply(m, rows)[rows[i].name] == rows[i]
  {
    var k := |rows| - 1;
    if i < k {
      assert rows[k].name != rows[i].name;
      ApplyLast(m, rows[..k], i);
    }
  }

  /** Replacing the one row of a name is putting the new row. */
  lemma {:induction false} ApplyUpdate(m: Rows, rows: seq<Row>, i: nat, r: Row)
    requires i < |rows| && r.name == rows[i].name && forall j :: i < j < |rows| ==> rows[j].name != r.name
    ensures Apply(m, rows[i := r]) == Put(Apply(m, rows), r)
  {
    hide Put;
    var k := |rows| - 1;
    if i < k {
      assert rows[k].name != r.name;
      ApplyUpdate(m, rows[..k], i, r);
      assert rows[i := r][..k] == rows[..k][i := r];
      PutSwap(Apply(m, rows[..k]), r, rows[k]);
    } else {
      assert rows[i := r][..k] == rows[..k];
      PutAgain(Apply(m, rows[..k]), rows[k], r);
    }
  }

  lemma PutSwap(m: Rows, a: Row, b: Row)
    requires a.name != b.name
    ensures Put(Put(m, a), b) == Put(Put(m, b), a)
  {
  }

  lemma PutAgain(m: Rows, a: Row, b: Row)
    requires a.name == b.name
    ensures Put(Put(m, a), b) == Put(m, b)
  {
  }

  /** The order of rows with distinct names does not matter. */
  lemma ApplyPermuted(m: Rows, a: seq<Row>, b: seq<Row>)
    requires multiset(a) == multiset(b) && DistinctNames(a) && DistinctNames(b)
    ensures Apply(m, a) == Apply(m, b)
  {
    var x, y := Apply(m, a), Apply(m, b);
    forall n ensures (n in x <==> n in y) && (n in x ==> x[n] == y[n]) {
      SameAt(m, a, b, n);
    }
    assert x.Keys == y.Keys;
  }

  lemma SameAt(m: Rows, a: seq<Row>, b: seq<Row>, n: Name)
    requires multiset(a) == multiset(b) && DistinctNames(a) && DistinctNames(b)
    ensures var x, y := Apply(m, a), Apply(m, b); (n in x <==> n in y) && (n in x ==> x[n] == y[n])
  {
    if i :| 0 <= i < |a| && a[i].name == n {
      assert a[i] in multiset(b);
      var j :| 0 <= j < |b| && b[j] == a[i];
      forall k | i < k < |a| ensures a[k].name != a[i].name {}
      forall k | j < k < |b| ensures b[k].name != b[j].name {}
      ApplyLast(m, a, i);
      ApplyLast(m, b, j);
    } else {
      assert !Named(b, n) by {
        forall j | 0 <= j < |b| ensures b[j].name != n { assert b[j] in multiset(a); }
      }
      ApplyOther(m, a, n);
      ApplyOther(m, b, n);
    }
  }
}
