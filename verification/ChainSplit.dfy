/** The sweep panel's chain splitter: which '!' of a name separate a container from its
    member is decided level by level by what the volume can vouch for. */
module ChainSplit {

  const TREE_MAX_DEPTH: nat := 10
  const SEG_MAX: nat := 288
  const PATH_MAX: nat := TREE_MAX_DEPTH * 288 + 8

  /** Characters before the first '!', all of them if there is none. */
  function Bang(s: string): (k: nat)
    ensures k <= |s| && '!' !in s[..k] && (k < |s| ==> s[k] == '!')
  {
    if s == [] || s[0] == '!' then 0
    else
      var k := 1 + Bang(s[1..]);
      assert s[..k] == [s[0]] + s[1..][..k - 1];
      k
  }

  /** The name cut at every '!'. */
  ghost function Pieces(s: string): (ps: seq<string>)
    ensures ps != []
    decreases |s|
  {
    if Bang(s) == |s| then [s] else [s[..Bang(s)]] + Pieces(s[Bang(s) + 1..])
  }

  ghost function Join(ps: seq<string>): string {
    if ps == [] then [] else if |ps| == 1 then ps[0] else ps[0] + "!" + Join(ps[1..])
  }

  lemma {:induction false} JoinPieces(s: string)
    ensures Join(Pieces(s)) == s
    decreases |s|
  {
    var k := Bang(s);
    hide Bang;
    if k < |s| {
      JoinPieces(s[k + 1..]);
      assert Pieces(s)[1..] == Pieces(s[k + 1..]);
      assert s == s[..k] + "!" + s[k + 1..];
    }
  }

  lemma {:induction false} JoinConcat(ps: seq<string>, qs: seq<string>)
    requires ps != [] && qs != []
    ensures Join(ps + qs) == Join(ps) + "!" + Join(qs)
  {
    if |ps| == 1 {
      assert (ps + qs)[1..] == qs;
    } else {
      JoinConcat(ps[1..], qs);
      assert (ps + qs)[1..] == ps[1..] + qs;
    }
  }

  /** The volume vouches for level `i`: the path through its own segment is a container's
      member, and fits the path buffer. */
  ghost predicate Proven(vouch: string -> bool, name: string, i: nat)
    requires i < |Pieces(name)|
  {
    var path := Join(Pieces(name)[..i + 1]);
    |path| < 2888 && vouch(path)
  }

  /** `n` levels are split off: the longest proven run that leaves a row for the rest. */
  ghost predicate Depth(vouch: string -> bool, name: string, max: nat, n: nat) {
    && n < max && n < |Pieces(name)|
    && (forall i :: 1 <= i <= n ==> Proven(vouch, name, i))
    && (n + 1 == max || n + 1 == |Pieces(name)| || !Proven(vouch, name, n + 1))
  }

  /** The rows before the buffers clip them: `n` pieces, then the rest in one. */
  ghost function Rows(name: string, n: nat): seq<string>
    requires n < |Pieces(name)|
  {
    Pieces(name)[..n] + [Join(Pieces(name)[n..])]
  }

  /** No cut loses or invents a character. */
  lemma RowsJoin(name: string, n: nat)
    requires n < |Pieces(name)|
    ensures Join(Rows(name, n)) == name
  {
    var ps := Pieces(name);
    JoinPieces(name);
    assert ps == ps[..n] + ps[n..];
    if n > 0 {
      JoinConcat(ps[..n], [Join(ps[n..])]);
      JoinConcat(ps[..n], ps[n..]);
    }
  }

  /** A piece that outgrows its buffer is cut to the 287 characters that fit ... */
  function StoredPiece(s: string): (r: string)
    ensures r <= s && (r == s <==> |s| <= 287) && (|s| > 287 ==> |r| == 287)
  {
    if |s| >= SEG_MAX then s[..SEG_MAX - 1] else s
  }

  /** ... and a remainder that does is replaced by an ellipsis. */
  function StoredRest(s: string): (r: string)
    ensures (r == s <==> |s| <= 287) && (|s| > 287 ==> r == "...")
  {
    if |s| >= SEG_MAX then "..." else s
  }

  /** What the segment buffers hold of `rows`. */
  ghost function Stored(rows: seq<string>): seq<string>
    requires rows != []
  {
    seq(|rows| - 1, i requires 0 <= i < |rows| - 1 => StoredPiece(rows[i])) + [StoredRest(rows[|rows| - 1])]
  }

  lemma StoredIs(rows: seq<string>, seg: seq<string>)
    requires |seg| == |rows| > 0 && seg[|seg| - 1] == StoredRest(rows[|seg| - 1])
    requires forall i :: 0 <= i < |seg| - 1 ==> seg[i] == StoredPiece(rows[i])
    ensures seg == Stored(rows)
  {}

  lemma RowsAre(name: string, n: nat)
    requires n < |Pieces(name)|
    ensures |Rows(name, n)| == n + 1 && Rows(name, n)[n] == Join(Pieces(name)[n..])
    ensures forall i :: 0 <= i < n ==> Rows(name, n)[i] == Pieces(name)[i]
  {}

  lemma ProvenIs(vouch: string -> bool, name: string, i: nat, path: string)
    requires i < |Pieces(name)| && path == Join(Pieces(name)[..i + 1])
    ensures Proven(vouch, name, i) <==> |path| < PATH_MAX && vouch(path)
  {}

  lemma LastPiece(s: string)
    requires Bang(s) == |s|
    ensures |Pieces(s)| == 1
  {}

  /** The splitter: cut at a '!' while the level it opens is proven and a row is left for
      the remainder, which is carried unsplit. */
  method Split(vouch: string -> bool, name: string, max: nat) returns (seg: seq<string>)
    ensures name == [] || max == 0 ==> seg == []
    ensures name != [] && max > 0 ==>
      seg != [] && Depth(vouch, name, max, |seg| - 1) && seg == Stored(Rows(name, |seg| - 1))
  {
    hide Pieces, Join, Stored, Bang, Proven, Rows, StoredPiece, StoredRest;
    seg := [];
    if name == [] || max == 0 { return; }
    ghost var ps := Pieces(name);
    var start, n := 0, 0;
    assert name[0..] == name && ps[0..] == ps;
    while n + 1 < max
      invariant n < max && n < |ps| && |seg| == n && start <= |name|
      invariant Pieces(name[start..]) == ps[n..]
      invariant name[..start] == Lead(ps, n)
      invariant forall i :: 1 <= i <= n ==> Proven(vouch, name, i)
      invariant forall i :: 0 <= i < n ==> seg[i] == StoredPiece(ps[i])
      decreases max - n
    {
      var bang := start + Bang(name[start..]);
      if bang == |name| {
        LastPiece(name[start..]);
        break;
      }
      var end := bang + 1 + Bang(name[bang + 1..]);
      NextLevel(name, start, n);
      ProvenIs(vouch, name, n + 1, name[..end]);
      if end >= PATH_MAX || !vouch(name[..end]) { break; }
      seg := seg + [StoredPiece(name[start..bang])];
      start, n := bang + 1, n + 1;
    }
    assert Depth(vouch, name, max, n);
    JoinPieces(name[start..]);
    RowsAre(name, n);
    seg := seg + [StoredRest(name[start..])];
    StoredIs(Rows(name, n), seg);
  }

  lemma FirstPiece(s: string)
    ensures Pieces(s)[0] == s[..Bang(s)]
    ensures Bang(s) < |s| ==> |Pieces(s)| > 1 && Pieces(s)[1..] == Pieces(s[Bang(s) + 1..])
  {}

  /** Everything up to and including the '!' before piece `n`. */
  ghost function Lead(ps: seq<string>, n: nat): string
    requires n <= |ps|
  {
    if n == 0 then [] else Join(ps[..n]) + "!"
  }

  lemma JoinLead(ps: seq<string>, n: nat)
    requires n < |ps|
    ensures Join(ps[..n + 1]) == Lead(ps, n) + ps[n]
  {
    assert ps[..n + 1] == ps[..n] + [ps[n]];
    if n > 0 { JoinConcat(ps[..n], [ps[n]]); }
  }

  lemma NextPiece(name: string, start: nat, n: nat)
    requires start <= |name| && n < |Pieces(name)| && Pieces(name[start..]) == Pieces(name)[n..]
    requires start + Bang(name[start..]) < |name|
    ensures var ps, bang := Pieces(name), start + Bang(name[start..]);
      n + 1 < |ps| && ps[n] == name[start..bang] && name[bang] == '!' && Pieces(name[bang + 1..]) == ps[n + 1..]
  {
    hide Pieces, Bang;
    var ps, rest := Pieces(name), name[start..];
    var k := Bang(rest);
    FirstPiece(rest);
    assert rest[k + 1..] == name[start + k + 1..] && rest[..k] == name[start..start + k];
    assert ps[n] == ps[n..][0] && ps[n..][1..] == ps[n + 1..];
  }

  lemma NextLead(name: string, ps: seq<string>, start: nat, bang: nat, n: nat)
    requires start <= bang < |name| && n < |ps| && ps[n] == name[start..bang] && name[bang] == '!'
    requires name[..start] == Lead(ps, n)
    ensures name[..bang + 1] == Lead(ps, n + 1)
  {
    JoinLead(ps, n);
    hide Join;
    assert name[..bang + 1] == name[..start] + name[start..bang] + "!";
  }

  lemma NextPath(name: string, ps: seq<string>, bang: nat, n: nat)
    requires bang < |name| && n + 1 < |ps| && Pieces(name[bang + 1..]) == ps[n + 1..]
    requires name[..bang + 1] == Lead(ps, n + 1)
    ensures name[..bang + 1 + Bang(name[bang + 1..])] == Join(ps[..n + 2])
  {
    hide Pieces, Join, Bang, Lead;
    var tail := name[bang + 1..];
    FirstPiece(tail);
    assert ps[n + 1] == tail[..Bang(tail)];
    JoinLead(ps, n + 1);
    assert name[..bang + 1 + Bang(tail)] == name[..bang + 1] + tail[..Bang(tail)];
  }

  /** The level opened by the next '!' from `start`: its piece, the pieces after it, and the
      path the volume is asked about. */
  lemma NextLevel(name: string, start: nat, n: nat)
    requires start <= |name| && n < |Pieces(name)|
    requires Pieces(name[start..]) == Pieces(name)[n..] && name[..start] == Lead(Pieces(name), n)
    requires start + Bang(name[start..]) < |name|
    ensures var ps, bang := Pieces(name), start + Bang(name[start..]);
      && n + 1 < |ps| && ps[n] == name[start..bang]
      && Pieces(name[bang + 1..]) == ps[n + 1..] && name[..bang + 1] == Lead(ps, n + 1)
      && name[..bang + 1 + Bang(name[bang + 1..])] == Join(ps[..n + 2])
  {
    hide *;
    var ps, bang := Pieces(name), start + Bang(name[start..]);
    NextPiece(name, start, n);
    NextLead(name, ps, start, bang, n);
    NextPath(name, ps, bang, n);
  }

  /** Joining shortens when its parts do, and only then. */
  lemma {:induction false} JoinShorter(a: seq<string>, b: seq<string>)
    requires |a| == |b| && forall i :: 0 <= i < |a| ==> |a[i]| <= |b[i]|
    ensures |Join(a)| <= |Join(b)|
    ensures (exists i :: 0 <= i < |a| && |a[i]| < |b[i]|) ==> |Join(a)| < |Join(b)|
  {
    if |a| > 1 {
      JoinShorter(a[1..], b[1..]);
      if i :| 0 < i < |a| && |a[i]| < |b[i]| { assert |a[1..][i - 1]| < |b[1..][i - 1]|; }
    }
  }

  lemma {:induction false} PartWithinJoin(ps: seq<string>, i: nat)
    requires i < |ps|
    ensures |ps[i]| <= |Join(ps)|
  {
    if i > 0 { PartWithinJoin(ps[1..], i - 1); }
  }

  ghost predicate Short(rows: seq<string>) {
    forall i :: 0 <= i < |rows| ==> |rows[i]| < 288
  }

  /** The stored rows give the name back exactly when no row outgrows its buffer; a name
      the sweep can collect never does. */
  lemma RejoinIff(name: string, n: nat)
    requires n < |Pieces(name)|
    ensures Join(Stored(Rows(name, n))) == name <==> Short(Rows(name, n))
    ensures |name| < 288 ==> Join(Stored(Rows(name, n))) == name
  {
    hide Join, Pieces, Rows;
    var rows := Rows(name, n);
    RowsJoin(name, n);
    assert rows != [] by { RowsAre(name, n); }
    forall i | 0 <= i < |rows| ensures |rows[i]| <= |name| { PartWithinJoin(rows, i); }
    JoinShorter(Stored(rows), rows);
    if Short(rows) {
      assert Stored(rows) == rows;
    } else {
      var i :| 0 <= i < |rows| && |rows[i]| >= SEG_MAX;
      assert |Stored(rows)[i]| < |rows[i]|;
    }
  }

  function Clip(s: string): string { if |s| >= PATH_MAX then s[..PATH_MAX - 1] else s }

  lemma {:induction false} JoinBound(seg: seq<string>)
    requires Short(seg)
    ensures |Join(seg)| <= SEG_MAX * |seg|
  {
    if |seg| > 1 { JoinBound(seg[1..]); }
  }

  /** The panel's paths: row `i` names the container chain through segment `i`. No path
      buffer clips, so a deeper row always extends the one above it. */
  method Paths(seg: seq<string>) returns (path: seq<string>)
    requires |seg| <= TREE_MAX_DEPTH && Short(seg)
    ensures |path| == |seg| && forall i :: 0 <= i < |seg| ==> path[i] == Join(seg[..i + 1])
  {
    path := [];
    for i := 0 to |seg|
      invariant |path| == i && forall j :: 0 <= j < i ==> path[j] == Join(seg[..j + 1])
    {
      JoinLead(seg, i);
      JoinBound(seg[..i + 1]);
      path := path + [Clip(if i == 0 then seg[i] else path[i - 1] + "!" + seg[i])];
    }
  }

  lemma StoredShort(rows: seq<string>)
    requires rows != []
    ensures Short(Stored(rows))
  {}

  /** The panel for one name: as many rows as the volume proves, the bottom one spelling the
      whole name exactly when no row outgrew its buffer. */
  method Panel(vouch: string -> bool, name: string) returns (path: seq<string>)
    ensures |path| <= 10 && (path == [] <==> name == [])
    ensures name != [] ==> Depth(vouch, name, 10, |path| - 1)
    ensures name != [] ==> (path[|path| - 1] == name <==> Short(Rows(name, |path| - 1)))
    ensures 0 < |name| < 288 ==> path[|path| - 1] == name
  {
    hide Join, Pieces, Rows, Stored, Short;
    var seg := Split(vouch, name, TREE_MAX_DEPTH);
    if name == [] { return []; }
    ghost var n := |seg| - 1;
    assert Rows(name, n) != [] by { RowsAre(name, n); }
    StoredShort(Rows(name, n));
    path := Paths(seg);
    RejoinIff(name, n);
    assert seg[..n + 1] == seg;
  }
}
