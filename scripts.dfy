/** The move of a wheel's scripts in `Wheel._install_as_egg` (setuptools/wheel.py): the
    entries of `<name>.data/scripts` go to the new directory `EGG-INFO/scripts`, except
    compiled `.pyc` entries, which are deleted. */
module Scripts {
  import opened Common
  import opened FileTree
  import opened Relocate

  /** The compiled files directly in `src`, which are deleted rather than moved. */
  function Bytecode(f0: map<Path, string>, src: Path): set<Path> {
    set p | p in f0 && |p| == |src| + 1 && p[..|src|] == src && EndsWith(p[|src|], ".pyc")
  }

  /** The files after the scripts of `src` have moved to `dst`: the bytecode is gone and every
      other file below `src` is at the same place below `dst`. */
  function ScriptsMoved(f0: map<Path, string>, src: Path, dst: Path): map<Path, string> {
    Relocated(f0 - Bytecode(f0, src), FilesBelow(f0, src) - Bytecode(f0, src), src, dst)
  }

  /** `src` and `dst` are apart: neither lies inside the other. */
  predicate Unrelated(src: Path, dst: Path) {
    !(src <= dst) && !(dst <= src)
  }

  /** With `dst` new, the scripts land below `dst` unchanged except for the bytecode, nothing
      else below `src` is left, and every file elsewhere is untouched. */
  lemma ScriptsMovedAt(f0: map<Path, string>, src: Path, dst: Path, q: Path)
    requires Unrelated(src, dst)
    requires forall p :: p in f0 ==> !(dst <= p)
    ensures src < q ==> q !in ScriptsMoved(f0, src, dst)
    ensures dst < q ==> (q in ScriptsMoved(f0, src, dst) <==>
      src + q[|dst|..] in f0 && src + q[|dst|..] !in Bytecode(f0, src))
    ensures dst < q && q in ScriptsMoved(f0, src, dst) ==> ScriptsMoved(f0, src, dst)[q] == f0[src + q[|dst|..]]
    ensures !(src < q) && !(dst <= q) ==> (q in ScriptsMoved(f0, src, dst) <==> q in f0)
    ensures !(src < q) && !(dst <= q) && q in f0 ==> ScriptsMoved(f0, src, dst)[q] == f0[q]
  {
    var moved := FilesBelow(f0, src) - Bytecode(f0, src);
    RelocatedAt(f0 - Bytecode(f0, src), moved, src, dst, q);
    if dst < q {
      assert src < src + q[|dst|..];
    }
  }

  /** No `.pyc` file arrives directly in `dst`. */
  lemma NoBytecodeMoved(f0: map<Path, string>, src: Path, dst: Path, q: Path)
    requires Unrelated(src, dst)
    requires forall p :: p in f0 ==> !(dst <= p)
    requires q in ScriptsMoved(f0, src, dst) && |q| == |dst| + 1 && dst < q
    ensures !EndsWith(q[|dst|], ".pyc")
  {
    ScriptsMovedAt(f0, src, dst, q);
    var p := src + q[|dst|..];
    assert p[|src|] == q[|dst|];
    assert |p| == |src| + 1 && p[..|src|] == src;
  }

  /** The state of the loop over the entries of `src`: the entries in `handled` are done, the
      bytecode among them deleted and the rest moved to `dst`. */
  ghost predicate Moving(t: Tree, f0: map<Path, string>, deleted: set<Path>, moved: set<Path>,
                         handled: set<string>, src: Path, dst: Path)
  {
    && WellFormed(t) && Unrelated(src, dst)
    && t.files == Relocated(f0 - deleted, moved, src, dst)
    && (forall p :: p in deleted <==> p in Bytecode(f0, src) && p[|src|] in handled)
    && (forall p :: p in moved <==> p in FilesBelow(f0, src) - Bytecode(f0, src) && p[|src|] in handled)
  }

  /** Targets of entries below `src` are never below `src` when the two are unrelated. */
  lemma UnrelatedApart(f: map<Path, string>, src: Path, dst: Path)
    requires Unrelated(src, dst)
    ensures Apart(f, src, dst)
  {
  }

  /** Deleting the bytecode file `src + [e]` finishes the entry `e`. */
  lemma UnlinkStep(t: Tree, f0: map<Path, string>, deleted: set<Path>, moved: set<Path>,
                   handled: set<string>, src: Path, dst: Path, e: string)
    requires Moving(t, f0, deleted, moved, handled, src, dst)
    requires e !in handled && EndsWith(e, ".pyc") && src + [e] in t.files
    ensures Moving(RemoveFile(t, src + [e]), f0, deleted + {src + [e]}, moved, handled + {e}, src, dst)
  {
    var a := src + [e];
    assert a[|src|] == e && a[..|src|] == src;
    OnlyFileAt(t, f0, deleted, moved, handled, src, dst, e);
    UnlinkRelocated(f0, deleted, moved, src, dst, a);
    PrimitivesWellFormed(t, a, []);
  }

  /** The file `src + [e]` of an entry not yet handled is the only file of `f0` at or below
      it, and it has neither moved nor been deleted. */
  lemma OnlyFileAt(t: Tree, f0: map<Path, string>, deleted: set<Path>, moved: set<Path>,
                   handled: set<string>, src: Path, dst: Path, e: string)
    requires Moving(t, f0, deleted, moved, handled, src, dst)
    requires e !in handled && src + [e] in t.files
    ensures src + [e] in f0 && src + [e] !in deleted && src + [e] !in moved
    ensures forall p :: p in f0 && src < p && p[|src|] == e ==> p == src + [e]
  {
    var a := src + [e];
    assert a[|src|] == e;
    assert BelowAll(moved, src);
    RelocatedAt(f0 - deleted, moved, src, dst, a);
    forall p | p in f0 && src < p && p[|src|] == e
      ensures p == a
    {
      assert p[..|src| + 1] == a;
      if p != a {
        RelocatedAt(f0 - deleted, moved, src, dst, p);
        NothingBelowFile(t, a, p);
      }
    }
  }

  /** Deleting a file below `src` that has not moved commutes with the relocation. */
  lemma UnlinkRelocated(f0: map<Path, string>, deleted: set<Path>, moved: set<Path>, src: Path, dst: Path, a: Path)
    requires Unrelated(src, dst) && BelowAll(moved, src) && src < a && a !in moved
    ensures Relocated(f0 - deleted, moved, src, dst) - {a} == Relocated(f0 - (deleted + {a}), moved, src, dst)
  {
    var r := Relocated(f0 - deleted, moved, src, dst);
    var r2 := Relocated(f0 - (deleted + {a}), moved, src, dst);
    forall q
      ensures q in r - {a} <==> q in r2
      ensures q in r2 ==> (r - {a})[q] == r2[q]
    {
      RelocatedAt(f0 - deleted, moved, src, dst, q);
      RelocatedAt(f0 - (deleted + {a}), moved, src, dst, q);
    }
    assert r - {a} == r2;
  }

  /** Renaming the entry `src + [e]`, not bytecode, to `dst + [e]` finishes `e`. */
  lemma RenameEntryStep(t: Tree, f0: map<Path, string>, deleted: set<Path>, moved: set<Path>,
                        handled: set<string>, src: Path, dst: Path, e: string)
    requires Moving(t, f0, deleted, moved, handled, src, dst)
    requires e !in handled && !EndsWith(e, ".pyc")
    requires RenameOk(t, src + [e], dst + [e])
    ensures Moving(Move(t, src + [e], dst + [e]), f0, deleted, moved + FilesAt(f0 - deleted, src + [e]),
                   handled + {e}, src, dst)
  {
    var a := src + [e];
    assert a[|src|..] == [e];
    assert Target(a, src, dst) == dst + [e];
    UnrelatedApart(f0 - deleted, src, dst);
    assert BelowAll(moved, src);
    RenameTargetClear(t, a, dst + [e]);
    MoveStep(f0 - deleted, moved, src, dst, a);
    MoveWellFormed(t, a, dst + [e]);
    MovedEntrySet(f0, deleted, moved, handled, src, e);
  }

  /** The files moved with the entry `e` are exactly the files below `src` under that name. */
  lemma MovedEntrySet(f0: map<Path, string>, deleted: set<Path>, moved: set<Path>,
                      handled: set<string>, src: Path, e: string)
    requires forall p :: p in deleted <==> p in Bytecode(f0, src) && p[|src|] in handled
    requires forall p :: p in moved <==> p in FilesBelow(f0, src) - Bytecode(f0, src) && p[|src|] in handled
    requires e !in handled && !EndsWith(e, ".pyc")
    ensures forall p :: p in moved + FilesAt(f0 - deleted, src + [e]) <==>
      p in FilesBelow(f0, src) - Bytecode(f0, src) && p[|src|] in handled + {e}
  {
    var a := src + [e];
    forall p
      ensures p in FilesAt(f0 - deleted, a) <==>
        p in FilesBelow(f0, src) - Bytecode(f0, src) && p[|src|] == e
    {
      if p in f0 && src < p && p[|src|] == e {
        assert p[..|src| + 1] == a;
      }
      if p in FilesAt(f0 - deleted, a) {
        assert p[|src|] == a[|src|];
      }
    }
  }

  /** Every file below `here` lies at or below an entry that `os.listdir(here)` lists. */
  lemma ListedEntry(t: Tree, here: Path, p: Path)
    requires WellFormed(t) && p in t.files && here < p
    ensures p[|here|] in ChildFiles(t, here) + ChildDirs(t, here)
  {
    var c := p[|here|];
    var a := here + [c];
    assert a == p[..|here| + 1];
    assert a[..|here|] == here && a[|here|] == c;
    if |p| == |here| + 1 {
      assert a == p;
    } else {
      AncestorIsDir(t, p, a);
    }
  }

  /** Once every listed entry is handled, the deleted files are the bytecode and the moved
      files are all the others below `src`. */
  lemma ScriptsDone(t1: Tree, t: Tree, f0: map<Path, string>, deleted: set<Path>, moved: set<Path>,
                    handled: set<string>, src: Path, dst: Path)
    requires WellFormed(t1) && t1.files == f0
    requires Moving(t, f0, deleted, moved, handled, src, dst)
    requires ChildFiles(t1, src) + ChildDirs(t1, src) <= handled
    ensures deleted == Bytecode(f0, src)
    ensures moved == FilesBelow(f0, src) - Bytecode(f0, src)
  {
    forall p | p in FilesBelow(f0, src)
      ensures p[|src|] in handled
    {
      ListedEntry(t1, src, p);
    }
    forall p | p in Bytecode(f0, src)
      ensures p in FilesBelow(f0, src)
    {
      assert p == src + [p[|src|]];
    }
  }

  /** The scripts step of `_install_as_egg` for `src` = `<name>.data/scripts` and `dst` =
      `EGG-INFO/scripts`: when `src` exists, `os.mkdir(dst)`, then for each entry of
      `os.listdir(src)`, in any order, `os.unlink` for a name ending in `.pyc` and
      `os.rename` to `dst` otherwise, and finally `os.rmdir(src)`. Any failing call raises
      `OSError`. On success the files are `ScriptsMoved`, `dst` is a new directory and `src`
      is gone. */
  method RelocateScripts(fs: FileSystem, src: Path, dst: Path) returns (r: Result<()>)
    requires fs.Valid() && Unrelated(src, dst)
    modifies fs
    ensures fs.Valid()
    ensures !Exists(old(fs.tree), src) ==> r.Ok? && fs.tree == old(fs.tree)
    ensures r.Err? ==> r.error == OsError
    ensures Exists(old(fs.tree), src) && r.Ok? ==>
      && !Exists(old(fs.tree), dst)
      && fs.tree.files == ScriptsMoved(old(fs.tree).files, src, dst)
      && dst in fs.tree.dirs && src !in fs.tree.dirs
  {
    if !Exists(fs.tree, src) {
      return Ok(());
    }
    ghost var f0 := fs.tree.files;
    var ok := fs.Mkdir(dst);
    if !ok {
      return Err(OsError);
    }
    if src !in fs.tree.dirs {
      return Err(OsError);
    }
    ghost var t1 := fs.tree;
    var entries := ChildFiles(fs.tree, src) + ChildDirs(fs.tree, src);
    RelocatedNone(f0, src, dst);
    assert f0 - {} == f0;
    ghost var deleted: set<Path>, moved: set<Path>;
    ok, deleted, moved := MoveEntries(fs, src, dst, entries, f0);
    if !ok {
      return Err(OsError);
    }
    ok := fs.Rmdir(src);
    if !ok {
      return Err(OsError);
    }
    ScriptsDone(t1, fs.tree, f0, deleted, moved, entries, src, dst);
    return Ok(());
  }

  /** The loop over the entries of `src`: each is deleted when its name ends in `.pyc` and
      renamed into `dst` otherwise; it stops at the first failing call. */
  method MoveEntries(fs: FileSystem, src: Path, dst: Path, entries: set<string>, ghost f0: map<Path, string>)
    returns (ok: bool, ghost deleted: set<Path>, ghost moved: set<Path>)
    requires fs.Valid() && dst in fs.tree.dirs
    requires Moving(fs.tree, f0, {}, {}, {}, src, dst)
    modifies fs
    ensures fs.Valid()
    ensures ok ==> dst in fs.tree.dirs && Moving(fs.tree, f0, deleted, moved, entries, src, dst)
  {
    deleted, moved := {}, {};
    ghost var handled: set<string> := {};
    var rest := entries;
    ok := true;
    while rest != {}
      invariant fs.Valid()
      invariant rest <= entries && handled == entries - rest
      invariant ok ==> dst in fs.tree.dirs && Moving(fs.tree, f0, deleted, moved, handled, src, dst)
      decreases rest
    {
      var e :| e in rest;
      ghost var before := fs.tree;
      if EndsWith(e, ".pyc") {
        ok := fs.Unlink(src + [e]);
        if !ok {
          return;
        }
        UnlinkStep(before, f0, deleted, moved, handled, src, dst, e);
        deleted := deleted + {src + [e]};
      } else {
        ok := fs.Rename(src + [e], dst + [e]);
        if !ok {
          return;
        }
        RenameEntryStep(before, f0, deleted, moved, handled, src, dst, e);
        moved := moved + FilesAt(f0 - deleted, src + [e]);
      }
      handled := handled + {e};
      rest := rest - {e};
    }
  }
}
