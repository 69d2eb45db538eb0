/** Whole runs of the name table against a plain map, with any allocation failing. */
module TableRuns {
  import opened Options
  import opened Names
  import opened NameTable
  import opened StagedTable
  import opened TableSync

  datatype Op =
    | Set(row: Row, growOk: bool, flushOk: bool)
    | Delete(name: Name)
    | Merge(allocOk: bool)
    | Reload(walk: seq<Entry>, room: nat, walkOk: bool)
    | Query(name: Name)

  ghost predicate Allowed(op: Op) {
    match op
    case Set(row, _, _) => |row.name| <= NAME_MAX
    case Reload(walk, _, _) => IsWalk(walk) && AnchorsFit(walk)
    case _ => true
  }

  /** What one operation may do to the map. Only growing the stage can lose a change,
      and only the setting of a name that was not there. */
  ghost predicate MapStep(m: Rows, op: Op, m': Rows, out: Option<Row>) {
    match op
    case Set(row, growOk, _) => m' == Put(m, row) || (!growOk && row.name !in m && m' == m)
    case Delete(n) => m' == m - {n}
    case Merge(_) => m' == m
    case Reload(walk, room, _) =>
      m' == Apply(map[], if |WalkRows(walk)| > room then WalkRows(walk)[..room] else WalkRows(walk))
    case Query(n) => m' == m && out == Lookup(m, n)
  }

  method Step(t: Table, op: Op) returns (out: Option<Row>)
    requires t.Valid() && Allowed(op)
    modifies t
    ensures t.Valid() && MapStep(old(t.View()), op, t.View(), out)
  {
    out := None;
    match op {
    case Set(row, growOk, flushOk) => t.Upsert(row.name, row.ino, row.size, row.ctime, growOk, flushOk);
    case Delete(n) => t.Remove(n);
    case Merge(allocOk) => t.Flush(allocOk);
    case Reload(walk, room, walkOk) => Rebuild(t, walk, room, walkOk);
    case Query(n) => out := t.Find(n);
    }
  }

  /** Every run from an empty table is a run of the map: a chain of maps, one per
      operation, that starts empty, explains every answer, and ends at the table's live
      rows; and the table's shape holds at the end. */
  method Run(ops: seq<Op>) returns (t: Table, outs: seq<Option<Row>>, ghost maps: seq<Rows>)
    requires forall i :: 0 <= i < |ops| ==> Allowed(ops[i])
    ensures fresh(t) && t.Valid()
    ensures |outs| == |ops| && |maps| == |ops| + 1 && maps[0] == map[] && maps[|ops|] == t.View()
    ensures forall i :: 0 <= i < |ops| ==> MapStep(maps[i], ops[i], maps[i + 1], outs[i])
  {
    t := new Table();
    outs, maps := [], [t.View()];
    for i := 0 to |ops|
      invariant fresh(t) && t.Valid() && |outs| == i && |maps| == i + 1
      invariant maps[0] == map[] && maps[i] == t.View()
      invariant forall k :: 0 <= k < i ==> MapStep(maps[k], ops[k], maps[k + 1], outs[k])
    {
      var out := Step(t, ops[i]);
      outs, maps := outs + [out], maps + [t.View()];
    }
  }
}
