/** Permission to reach a path: search permission on every directory above it, each decided
    by its mode and access control list. Lookups are a snapshot `tree` of what the volume
    answers for each name. */
module Traversal {
  import opened Options
  import opened AclBlob
  import opened AclShape
  import opened AclEval

  const COMPONENT_MAX: nat := 300
  const X_OK: bv32 := 1

  datatype AclRow = NoAcl | AclUnreadable | Acl(blob: Blob)
  datatype Node = Unreadable | Missing | Found(meta: Meta, dir: bool, acl: AclRow)
  datatype Verdict = Ok | EIO | ENOENT | ENOTDIR | EACCES
  datatype Caller = Caller(creds: Creds, bypass: bool)

  type Tree = string -> Node

  /** The root has no record of its own. */
  const ROOT: Node := Found(Meta(0x1ed, 0, 0), true, NoAcl)

  function NodeAt(tree: Tree, path: string): Node {
    if path == "/" then ROOT else tree(path)
  }

  /** A stored list passed validation when it was set, and every rewrite keeps it valid. */
  ghost predicate Sound(n: Node) {
    n.Found? && n.acl.Acl? ==> ValidBlob(n.acl.blob)
  }

  ghost predicate AllSound(tree: Tree) {
    forall p :: Sound(tree(p))
  }

  /** What a check of one path must answer: an unreadable row or list is an error, never a
      permit, and otherwise the list decides if there is one, the mode if not. */
  ghost function Check(n: Node, c: Caller, want: bv32): Verdict
    requires Sound(n)
  {
    match n
    case Unreadable => EIO
    case Missing => ENOENT
    case Found(m, _, acl) =>
      if c.bypass || want == 0 then Ok
      else match acl
        case AclUnreadable => EIO
        case NoAcl => if ModeAccess(m, c.creds, want) then Ok else EACCES
        case Acl(b) => if Access(m, Decode(b), c.creds, want) then Ok else EACCES
  }

  lemma ValidIsAcl(b: Blob)
    requires ValidBlob(b)
    ensures Decode(b) != [] && IsAcl(Decode(b)) && !ModeOnly(Some(b))
  {
  }

  method PermCheck(tree: Tree, c: Caller, path: string, want: bv32) returns (r: Verdict)
    requires AllSound(tree)
    ensures Sound(NodeAt(tree, path)) && r == Check(NodeAt(tree, path), c, want)
  {
    hide Access, ModeAccess, IsAcl, ValidBlob;
    var n := NodeAt(tree, path);
    assert Sound(tree(path));
    if n.Found? && n.acl.Acl? { ValidIsAcl(n.acl.blob); }
    match n {
      case Unreadable => return EIO;
      case Missing => return ENOENT;
      case Found(m, _, acl) =>
        if c.bypass || want == 0 { return Ok; }
        if acl.AclUnreadable? { return EIO; }
        var ok := Eval(m, if acl.Acl? then Some(acl.blob) else None, c.creds, want);
        return if ok then Ok else EACCES;
    }
  }

  /** The path below the root. */
  function Below(path: string): (p: string)
    ensures path == "/" + p || (path == p && !("/" <= path))
  {
    if path != [] && path[0] == '/' then path[1..] else path
  }

  /** A '/' at `i` closes an ancestor that is looked at. */
  predicate Ancestor(p: string, i: nat) {
    0 < i < |p| && p[i] == '/' && i < COMPONENT_MAX
  }

  /** What the walk makes of one ancestor. */
  ghost function AtAncestor(tree: Tree, c: Caller, dir: string): Verdict
    requires AllSound(tree)
  {
    match tree(dir)
    case Unreadable => EIO
    case Missing => ENOENT
    case Found(_, isDir, _) =>
      if !isDir then ENOTDIR
      else assert Sound(tree(dir)); Check(NodeAt(tree, dir), c, X_OK)
  }

  ghost predicate Passes(tree: Tree, c: Caller, p: string, i: nat)
    requires AllSound(tree)
  {
    Ancestor(p, i) ==> AtAncestor(tree, c, p[..i]) == Ok
  }

  /** An ancestor passes exactly when it is a directory and the execute bit is granted: by its
      list if it has one that can be read, by its mode if it has none. */
  lemma PassesIff(tree: Tree, creds: Creds, path: string, i: nat)
    requires AllSound(tree) && 0 < i < |path| && i < 300 && path[i] == '/' && path[..i] != "/"
    ensures Passes(tree, Caller(creds, false), path, i) <==>
              var n := tree(path[..i]);
              && n.Found? && n.dir && !n.acl.AclUnreadable?
              && (n.acl.NoAcl? ==> ModeAccess(n.meta, creds, 1))
              && (n.acl.Acl? ==> Access(n.meta, Decode(n.acl.blob), creds, 1))
  {
    hide ModeAccess, Access;
    assert Sound(tree(path[..i]));
  }

  /** The root grants its owner, user 0, everything, and everyone else all but writing. */
  lemma RootAccess(tree: Tree, creds: Creds, want: bv32)
    requires want & !7 == 0
    ensures Check(NodeAt(tree, "/"), Caller(creds, false), want) == Ok <==> creds.uid == 0 || want & 2 == 0
  {
    RootBits(want);
  }

  lemma RootBits(want: bv32)
    requires want & !7 == 0
    ensures Covers(0x1ed >> 6, want)
    ensures Covers(0x1ed >> 3, want) <==> want & 2 == 0
    ensures Covers(0x1ed, want) <==> want & 2 == 0
  {
  }

  /** The walk down a path: it succeeds exactly when every ancestor is a directory the caller
      may search, and otherwise reports what is wrong with the topmost one that is not. */
  method Traverse(tree: Tree, c: Caller, path: string) returns (r: Verdict, ghost at: nat)
    requires AllSound(tree)
    ensures r == Ok <==> c.bypass || forall i :: Passes(tree, c, Below(path), i)
    ensures r != Ok ==> Ancestor(Below(path), at) && r == AtAncestor(tree, c, Below(path)[..at])
    ensures r != Ok ==> forall i :: 0 <= i < at ==> Passes(tree, c, Below(path), i)
  {
    hide Check;
    var p := Below(path);
    r, at := Ok, 0;
    if c.bypass { return; }
    for s := 0 to |p|
      invariant forall i :: 0 <= i < s ==> Passes(tree, c, p, i)
    {
      if p[s] != '/' || s == 0 || s >= COMPONENT_MAX { continue; }
      at := s;
      match tree(p[..s]) {
        case Unreadable => r := EIO;
        case Missing => r := ENOENT;
        case Found(_, isDir, _) =>
          if !isDir { r := ENOTDIR; } else { r := PermCheck(tree, c, p[..s], X_OK); }
      }
      if r != Ok {
        assert !Passes(tree, c, p, s);
        return;
      }
    }
    r := Ok;
  }
}
