/** The file system the converter works on, and the `os` calls it makes on it.

    A path is the sequence of its components below the root. The state is the set of
    directories and the map from file paths to contents; a well-formed state has the root
    directory, never uses one path for both, and keeps the parent of every entry as a
    directory. Each `os` call is a total function that says whether the call succeeds and
    what the state becomes; a failing call raises `OSError` in the program. */
module FileTree {
  import opened Common

  type Path = seq<string>

  datatype Tree = Tree(dirs: set<Path>, files: map<Path, string>)

  function Parent(p: Path): Path
    requires p != []
  {
    p[..|p| - 1]
  }

  /** `os.path.exists` */
  predicate Exists(t: Tree, p: Path) {
    p in t.dirs || p in t.files
  }

  predicate WellFormed(t: Tree) {
    && [] in t.dirs
    && (forall p :: p in t.files ==> p !in t.dirs && p != [] && Parent(p) in t.dirs)
    && (forall p :: p in t.dirs && p != [] ==> Parent(p) in t.dirs)
  }

  /** Some entry lies strictly inside `p`: a directory that `os.rmdir` refuses to remove. */
  predicate HasBelow(t: Tree, p: Path) {
    (exists q :: q in t.dirs && p < q) || (exists q :: q in t.files && p < q)
  }

  /** The names listed by `os.listdir(p)` that are files, and those that are directories. */
  function ChildFiles(t: Tree, p: Path): set<string> {
    set q | q in t.files && |q| == |p| + 1 && q[..|p|] == p :: q[|p|]
  }

  function ChildDirs(t: Tree, p: Path): set<string> {
    set q | q in t.dirs && |q| == |p| + 1 && q[..|p|] == p :: q[|p|]
  }

  /** Every proper prefix of an entry is a directory. */
  lemma {:induction false} AncestorIsDir(t: Tree, p: Path, q: Path)
    requires WellFormed(t) && Exists(t, p) && q < p
    ensures q in t.dirs
    decreases |p|
  {
    var up := Parent(p);
    assert up in t.dirs;
    if q != up {
      assert q < up;
      AncestorIsDir(t, up, q);
    }
  }

  /** Nothing lies inside a file. */
  lemma NothingBelowFile(t: Tree, p: Path, q: Path)
    requires WellFormed(t) && p in t.files && p < q
    ensures !Exists(t, q)
  {
    if Exists(t, q) {
      AncestorIsDir(t, q, p);
    }
  }

  // ---------------------------------------------------------------------
  // Directories only: os.makedirs, os.rmdir and the pruning of os.renames

  /** The directories `os.makedirs(p)` needs: `p` and all its ancestors. */
  function Prefixes(p: Path): set<Path> {
    set i | 0 <= i <= |p| :: p[..i]
  }

  /** `os.makedirs(p)` succeeds unless one of the directories it needs is a file. */
  predicate MakeDirsOk(t: Tree, p: Path) {
    forall i :: 0 <= i <= |p| ==> p[..i] !in t.files
  }

  function MakeDirs(t: Tree, p: Path): (r: Tree)
    ensures r.files == t.files && r.dirs == t.dirs + Prefixes(p)
  {
    Tree(t.dirs + Prefixes(p), t.files)
  }

  lemma MakeDirsWellFormed(t: Tree, p: Path)
    requires WellFormed(t) && MakeDirsOk(t, p)
    ensures WellFormed(MakeDirs(t, p))
    ensures p in MakeDirs(t, p).dirs
  {
    var r := MakeDirs(t, p);
    assert p[..|p|] == p;
    forall q | q in r.files
      ensures q !in r.dirs
    {
    }
    forall q | q in r.dirs && q != []
      ensures Parent(q) in r.dirs
    {
      if q in Prefixes(p) {
        var i :| 0 <= i <= |p| && q == p[..i];
        assert Parent(q) == p[..i - 1];
      }
    }
  }

  /** `os.rmdir(p)` removes an empty directory other than the root. */
  predicate RmdirOk(t: Tree, p: Path) {
    p != [] && p in t.dirs && !HasBelow(t, p)
  }

  function RemoveDir(t: Tree, p: Path): (r: Tree)
    ensures r.files == t.files && r.dirs == t.dirs - {p}
  {
    Tree(t.dirs - {p}, t.files)
  }

  lemma RemoveDirWellFormed(t: Tree, p: Path)
    requires WellFormed(t) && RmdirOk(t, p)
    ensures WellFormed(RemoveDir(t, p))
  {
    var r := RemoveDir(t, p);
    forall q | q in r.dirs && q != []
      ensures Parent(q) in r.dirs
    {
      assert Parent(q) != p;
    }
    forall q | q in r.files
      ensures Parent(q) in r.dirs
    {
      assert Parent(q) != p;
    }
  }

  /** `os.removedirs(p)` with its errors ignored, as `os.renames` calls it: remove `p` and
      then each ancestor while the directory is empty. */
  function Prune(t: Tree, p: Path): (r: Tree)
    ensures r.files == t.files && r.dirs <= t.dirs
    ensures forall q :: q in t.dirs - r.dirs ==> |q| <= |p| && q == p[..|q|]
    decreases |p|
  {
    if !RmdirOk(t, p) then t
    else
      var r := Prune(RemoveDir(t, p), Parent(p));
      assert forall i :: 0 <= i < |p| ==> Parent(p)[..i] == p[..i];
      r
  }

  lemma {:induction false} PruneWellFormed(t: Tree, p: Path)
    requires WellFormed(t)
    ensures WellFormed(Prune(t, p))
    decreases |p|
  {
    if RmdirOk(t, p) {
      RemoveDirWellFormed(t, p);
      PruneWellFormed(RemoveDir(t, p), Parent(p));
    }
  }

  // ---------------------------------------------------------------------
  // os.rename and os.renames

  /** The paths of `s` after moving everything at or below `a` to the same place below `b`;
      whatever was at or below `b` is replaced. */
  function MovePaths(s: set<Path>, a: Path, b: Path): set<Path> {
    (set p | p in s && !(a <= p) && !(b <= p)) + (set p | p in s && a <= p :: b + p[|a|..])
  }

  function Get(f: map<Path, string>, p: Path): string {
    if p in f then f[p] else []
  }

  function MoveFiles(f: map<Path, string>, a: Path, b: Path): map<Path, string> {
    map q | q in MovePaths(f.Keys, a, b) :: if b <= q then Get(f, a + q[|b|..]) else Get(f, q)
  }

  function Move(t: Tree, a: Path, b: Path): Tree {
    Tree(MovePaths(t.dirs, a, b), MoveFiles(t.files, a, b))
  }

  /** `os.rename(a, b)` on POSIX: `a` exists, `b`'s parent is a directory, `b` is not inside
      `a`; a file may replace a file, a directory may replace an empty directory. */
  predicate RenameOk(t: Tree, a: Path, b: Path) {
    && Exists(t, a) && a != [] && b != []
    && Parent(b) in t.dirs
    && !(a < b)
    && (a in t.files ==> b !in t.dirs)
    && (a in t.dirs ==> b !in t.files && (b in t.dirs ==> !HasBelow(t, b)))
  }

  /** `os.renames(a, b)`: create the missing parent directories of `b`, rename, then prune
      the emptied directories above `a`. The tree is returned with whether the rename
      happened; directories created before a failing rename stay. */
  function Renames(t: Tree, a: Path, b: Path): (Tree, bool) {
    if b == [] then (t, false)
    else if !Exists(t, Parent(b)) && !MakeDirsOk(t, Parent(b)) then (t, false)
    else
      var t1 := if Exists(t, Parent(b)) then t else MakeDirs(t, Parent(b));
      if !RenameOk(t1, a, b) then (t1, false) else (Prune(Move(t1, a, b), Parent(a)), true)
  }

  /** A path is in the moved set when it comes from below `a` (if it lies below `b`) or was
      already there outside both. */
  lemma MovePathsIff(s: set<Path>, a: Path, b: Path, q: Path)
    ensures q in MovePaths(s, a, b) <==> if b <= q then a + q[|b|..] in s else q in s && !(a <= q)
  {
    var moved := set p | p in s && a <= p :: b + p[|a|..];
    if q in moved {
      var p :| p in s && a <= p && q == b + p[|a|..];
      assert q[|b|..] == p[|a|..];
      assert a + p[|a|..] == p;
    }
    if b <= q && a + q[|b|..] in s {
      var p := a + q[|b|..];
      assert p[|a|..] == q[|b|..];
      assert b + p[|a|..] == q;
      assert q in moved;
    }
  }

  lemma MoveFilesAt(f: map<Path, string>, a: Path, b: Path, q: Path)
    ensures q in MoveFiles(f, a, b) <==> if b <= q then a + q[|b|..] in f else q in f && !(a <= q)
    ensures q in MoveFiles(f, a, b) ==> MoveFiles(f, a, b)[q] == if b <= q then f[a + q[|b|..]] else f[q]
  {
    MovePathsIff(f.Keys, a, b, q);
  }

  /** The parent of a path inside `b` comes from the parent of its origin inside `a`. */
  lemma MovedParent(a: Path, b: Path, q: Path)
    requires b < q
    ensures b <= Parent(q) && a + Parent(q)[|b|..] == Parent(a + q[|b|..])
  {
  }

  /** A successful rename keeps the tree well formed. */
  lemma MoveWellFormed(t: Tree, a: Path, b: Path)
    requires WellFormed(t) && RenameOk(t, a, b)
    ensures WellFormed(Move(t, a, b))
  {
    var r := Move(t, a, b);
    MovePathsIff(t.dirs, a, b, []);
    forall q | q in r.files
      ensures q !in r.dirs && q != []
    {
      MoveFilesAt(t.files, a, b, q);
      MovePathsIff(t.dirs, a, b, q);
    }
    forall q | (q in r.dirs || q in r.files) && q != []
      ensures Parent(q) in r.dirs
    {
      MovePathsIff(t.dirs, a, b, q);
      MoveFilesAt(t.files, a, b, q);
      MovePathsIff(t.dirs, a, b, Parent(q));
      if b < q {
        MovedParent(a, b, q);
        var p := a + q[|b|..];
        assert p in t.dirs || p in t.files;
        assert Parent(p) in t.dirs;
      } else if q == b {
        assert Parent(b) in t.dirs;
        assert !(a <= Parent(b));
      } else {
        assert Parent(q) in t.dirs;
        assert Parent(q) <= q;
      }
    }
  }

  lemma RenamesWellFormed(t: Tree, a: Path, b: Path)
    requires WellFormed(t)
    ensures WellFormed(Renames(t, a, b).0)
  {
    if b != [] && (Exists(t, Parent(b)) || MakeDirsOk(t, Parent(b))) {
      var t1 := if Exists(t, Parent(b)) then t else MakeDirs(t, Parent(b));
      if !Exists(t, Parent(b)) {
        MakeDirsWellFormed(t, Parent(b));
      }
      if RenameOk(t1, a, b) {
        MoveWellFormed(t1, a, b);
        PruneWellFormed(Move(t1, a, b), Parent(a));
      }
    }
  }

  // ---------------------------------------------------------------------
  // os.mkdir, os.unlink and writing a file

  /** `os.mkdir(p)`: the parent is a directory and nothing is at `p` yet. */
  predicate MkdirOk(t: Tree, p: Path) {
    p != [] && !Exists(t, p) && Parent(p) in t.dirs
  }

  function AddDir(t: Tree, p: Path): Tree {
    Tree(t.dirs + {p}, t.files)
  }

  /** `os.unlink(p)` removes a file. */
  predicate UnlinkOk(t: Tree, p: Path) {
    p in t.files
  }

  function RemoveFile(t: Tree, p: Path): Tree {
    Tree(t.dirs, t.files - {p})
  }

  /** `open(p, 'w')` followed by `write`: creates or truncates a file in an existing directory. */
  predicate WriteOk(t: Tree, p: Path) {
    p != [] && p !in t.dirs && Parent(p) in t.dirs
  }

  function WriteFile(t: Tree, p: Path, content: string): Tree {
    Tree(t.dirs, t.files[p := content])
  }

  lemma PrimitivesWellFormed(t: Tree, p: Path, content: string)
    requires WellFormed(t)
    ensures MkdirOk(t, p) ==> WellFormed(AddDir(t, p))
    ensures UnlinkOk(t, p) ==> WellFormed(RemoveFile(t, p))
    ensures WriteOk(t, p) ==> WellFormed(WriteFile(t, p, content))
  {
  }

  // ---------------------------------------------------------------------
  // Extracting an archive

  /** `zf.extractall(p)` succeeds when `p` is a directory, the archive's entries form a tree
      of their own, and no entry needs a file where a directory is or the reverse. */
  predicate ExtractOk(t: Tree, p: Path, entries: Tree) {
    && p in t.dirs
    && WellFormed(entries)
    && (forall q :: q in entries.files ==> p + q !in t.dirs)
    && (forall q :: q in entries.dirs ==> p + q !in t.files)
  }

  /** The entries placed below `p`; an archive file replaces a file of the same name. */
  function Graft(t: Tree, p: Path, entries: Tree): Tree {
    var placed := set q | q in entries.files :: p + q;
    Tree(t.dirs + (set q | q in entries.dirs :: p + q),
      map q | q in t.files.Keys + placed ::
        if p <= q && q[|p|..] in entries.files then entries.files[q[|p|..]] else Get(t.files, q))
  }

  /** What lies below `p` after the extraction is the archive; nothing else changes. */
  lemma GraftAt(t: Tree, p: Path, entries: Tree, q: Path)
    ensures p + q in Graft(t, p, entries).files <==> q in entries.files || p + q in t.files
    ensures q in entries.files ==> Graft(t, p, entries).files[p + q] == entries.files[q]
    ensures p + q in Graft(t, p, entries).dirs <==> q in entries.dirs || p + q in t.dirs
    ensures !(p <= q) ==> (q in Graft(t, p, entries).files <==> q in t.files)
    ensures !(p <= q) && q in t.files ==> Graft(t, p, entries).files[q] == t.files[q]
    ensures !(p <= q) ==> (q in Graft(t, p, entries).dirs <==> q in t.dirs)
  {
    assert (p + q)[|p|..] == q;
  }

  lemma GraftWellFormed(t: Tree, p: Path, entries: Tree)
    requires WellFormed(t) && ExtractOk(t, p, entries)
    ensures WellFormed(Graft(t, p, entries))
  {
    var r := Graft(t, p, entries);
    forall q | q in r.files
      ensures q !in r.dirs && q != [] && Parent(q) in r.dirs
    {
      if p <= q && q[|p|..] in entries.files {
        var f := q[|p|..];
        assert q == p + f;
        assert Parent(q) == p + Parent(f);
      }
    }
    forall q | q in r.dirs && q != []
      ensures Parent(q) in r.dirs
    {
      if q !in t.dirs {
        var d :| d in entries.dirs && q == p + d;
        assert p + [] == p;
        assert d != [] && Parent(d) in entries.dirs;
        assert Parent(q) == p + Parent(d);
      }
    }
  }

  /** The file system as the program sees it through `os`: one mutable tree. */
  class FileSystem {
    var tree: Tree

    predicate Valid()
      reads this
    {
      WellFormed(tree)
    }

    constructor (t: Tree)
      requires WellFormed(t)
      ensures tree == t && Valid()
    {
      tree := t;
    }

    method Mkdir(p: Path) returns (ok: bool)
      requires Valid()
      modifies this
      ensures Valid()
      ensures ok == MkdirOk(old(tree), p)
      ensures tree == if ok then AddDir(old(tree), p) else old(tree)
    {
      ok := MkdirOk(tree, p);
      if ok {
        PrimitivesWellFormed(tree, p, []);
        tree := AddDir(tree, p);
      }
    }

    method Rmdir(p: Path) returns (ok: bool)
      requires Valid()
      modifies this
      ensures Valid()
      ensures ok == RmdirOk(old(tree), p)
      ensures tree == if ok then RemoveDir(old(tree), p) else old(tree)
    {
      ok := RmdirOk(tree, p);
      if ok {
        RemoveDirWellFormed(tree, p);
        tree := RemoveDir(tree, p);
      }
    }

    method Unlink(p: Path) returns (ok: bool)
      requires Valid()
      modifies this
      ensures Valid()
      ensures ok == UnlinkOk(old(tree), p)
      ensures tree == if ok then RemoveFile(old(tree), p) else old(tree)
    {
      ok := UnlinkOk(tree, p);
      if ok {
        PrimitivesWellFormed(tree, p, []);
        tree := RemoveFile(tree, p);
      }
    }

    method Write(p: Path, content: string) returns (ok: bool)
      requires Valid()
      modifies this
      ensures Valid()
      ensures ok == WriteOk(old(tree), p)
      ensures tree == if ok then WriteFile(old(tree), p, content) else old(tree)
    {
      ok := WriteOk(tree, p);
      if ok {
        PrimitivesWellFormed(tree, p, content);
        tree := WriteFile(tree, p, content);
      }
    }

    /** `zf.extractall(p)` for an archive whose entries form the tree `entries`. */
    method Extract(p: Path, entries: Tree) returns (ok: bool)
      requires Valid()
      modifies this
      ensures Valid()
      ensures ok == ExtractOk(old(tree), p, entries)
      ensures tree == if ok then Graft(old(tree), p, entries) else old(tree)
    {
      ok := ExtractOk(tree, p, entries);
      if ok {
        GraftWellFormed(tree, p, entries);
        tree := Graft(tree, p, entries);
      }
    }

    method Rename(a: Path, b: Path) returns (ok: bool)
      requires Valid()
      modifies this
      ensures Valid()
      ensures ok == RenameOk(old(tree), a, b)
      ensures tree == if ok then Move(old(tree), a, b) else old(tree)
    {
      ok := RenameOk(tree, a, b);
      if ok {
        MoveWellFormed(tree, a, b);
        tree := Move(tree, a, b);
      }
    }

    method RenameTree(a: Path, b: Path) returns (ok: bool)
      requires Valid()
      modifies this
      ensures Valid()
      ensures (tree, ok) == Renames(old(tree), a, b)
    {
      RenamesWellFormed(tree, a, b);
      var r := Renames(tree, a, b);
      tree, ok := r.0, r.1;
    }
  }
}
