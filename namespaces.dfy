/** `Wheel._fix_namespace_packages` (setuptools/wheel.py): for every package named in
    `EGG-INFO/namespace_packages.txt` whose directory exists in the egg but has no
    `__init__.py`, write one that declares the namespace. */
module Namespaces {
  import opened Common
  import opened FileTree

  /** `NAMESPACE_PACKAGE_INIT`: the `__init__.py` written into a namespace package. */
  const NamespacePackageInit: string :=
    "try:\n    __import__('pkg_resources').declare_namespace(__name__)\nexcept ImportError:\n    __path__ = __import__('pkgutil').extend_path(__path__, __name__)\n"

  /** The non-empty strings of `parts`, in order: `os.path.join` skips an empty component. */
  function NonEmpty(parts: seq<string>): (r: seq<string>)
    ensures forall x :: x in r <==> x in parts && x != []
    decreases |parts|
  {
    if parts == [] then []
    else
      assert parts == [parts[0]] + parts[1..];
      if parts[0] == [] then NonEmpty(parts[1..]) else [parts[0]] + NonEmpty(parts[1..])
  }

  /** The components of `mod.split('.')` that end up in the joined path. */
  function Parts(mod: string): (r: Path)
    ensures forall x :: x in r ==> '.' !in x
  {
    NonEmpty(SplitOn(mod, '.'))
  }

  /** The last component of `mod.split('.')` is empty, so `os.path.join` ends in a slash and
      the path only exists as a directory. */
  predicate TrailingSeparator(mod: string) {
    mod == [] || mod[|mod| - 1] == '.'
  }

  /** `mod_dir`: the package directory of `mod` below the egg `dest`. */
  function ModDir(dest: Path, mod: string): Path {
    dest + Parts(mod)
  }

  /** `mod_init`: its `__init__.py`. */
  function InitOf(dest: Path, mod: string): Path {
    ModDir(dest, mod) + ["__init__.py"]
  }

  /** `os.path.exists(mod_dir)`. */
  predicate DirFound(t: Tree, dest: Path, mod: string) {
    if TrailingSeparator(mod) then ModDir(dest, mod) in t.dirs else Exists(t, ModDir(dest, mod))
  }

  /** One package: write the `__init__.py` when the directory exists and the file does not;
      `None` when the write raises, which happens when the "directory" is a file. */
  function FixOne(t: Tree, dest: Path, mod: string): Option<Tree> {
    if DirFound(t, dest, mod) && !Exists(t, InitOf(dest, mod)) then
      if WriteOk(t, InitOf(dest, mod)) then Some(WriteFile(t, InitOf(dest, mod), NamespacePackageInit)) else None
    else Some(t)
  }

  /** The packages in order; `None` when a write raises. */
  function FixAll(t: Tree, dest: Path, mods: seq<string>): Option<Tree>
    decreases |mods|
  {
    if mods == [] then Some(t)
    else
      match FixOne(t, dest, mods[0])
      case None => None
      case Some(t1) => FixAll(t1, dest, mods[1..])
  }

  /** A package's `__init__.py` is never another package's directory: no component of a
      package path contains a dot. */
  lemma InitNotModDir(dest: Path, m1: string, m2: string)
    ensures InitOf(dest, m1) != ModDir(dest, m2)
  {
    var d := InitOf(dest, m1);
    var e := ModDir(dest, m2);
    assert d[|d| - 1] == "__init__.py" && "__init__.py"[8] == '.';
    if |e| == |d| {
      assert e[|e| - 1] == Parts(m2)[|Parts(m2)| - 1];
      assert '.' !in e[|e| - 1];
    }
  }

  /** Writing an `__init__.py` changes neither whether a package directory is found nor
      whether it is a file. */
  lemma WriteKeepsView(t: Tree, dest: Path, m0: string, m: string, content: string)
    ensures var t1 := WriteFile(t, InitOf(dest, m0), content);
      (DirFound(t1, dest, m) <==> DirFound(t, dest, m)) && (ModDir(dest, m) in t1.files <==> ModDir(dest, m) in t.files)
  {
    InitNotModDir(dest, m0, m);
  }

  /** The fix only adds files: directories stay, no file is overwritten, and each new file
      is the `__init__.py` of a listed package, with the namespace declaration as content. */
  lemma {:induction false} FixAllOnlyAdds(t: Tree, dest: Path, mods: seq<string>, t2: Tree)
    requires FixAll(t, dest, mods) == Some(t2)
    ensures t2.dirs == t.dirs
    ensures forall q :: q in t.files ==> q in t2.files && t2.files[q] == t.files[q]
    ensures forall q :: q in t2.files && q !in t.files ==>
      t2.files[q] == NamespacePackageInit && exists m :: m in mods && q == InitOf(dest, m)
    decreases |mods|
  {
    if mods != [] {
      var t1 := FixOne(t, dest, mods[0]).value;
      FixAllOnlyAdds(t1, dest, mods[1..], t2);
      forall q | q in t2.files && q !in t.files
        ensures exists m :: m in mods && q == InitOf(dest, m)
      {
        if q in t1.files {
          assert q == InitOf(dest, mods[0]);
        } else {
          var m :| m in mods[1..] && q == InitOf(dest, m);
          assert m in mods;
        }
      }
    }
  }

  /** After the fix, every listed package whose directory was found has an `__init__.py`. */
  lemma {:induction false} FixAllCovers(t: Tree, dest: Path, mods: seq<string>, t2: Tree)
    requires FixAll(t, dest, mods) == Some(t2)
    ensures forall m :: m in mods && DirFound(t, dest, m) ==> Exists(t2, InitOf(dest, m))
    decreases |mods|
  {
    if mods != [] {
      var t1 := FixOne(t, dest, mods[0]).value;
      FixAllCovers(t1, dest, mods[1..], t2);
      FixAllOnlyAdds(t1, dest, mods[1..], t2);
      forall m | m in mods && DirFound(t, dest, m)
        ensures Exists(t2, InitOf(dest, m))
      {
        if m != mods[0] {
          assert m in mods[1..];
          if t1 != t {
            WriteKeepsView(t, dest, mods[0], m, NamespacePackageInit);
          }
        }
      }
    }
  }

  /** When every found package already has an `__init__.py`, the fix changes nothing. */
  lemma {:induction false} FixAllNothingToDo(t: Tree, dest: Path, mods: seq<string>)
    requires forall m :: m in mods && DirFound(t, dest, m) ==> Exists(t, InitOf(dest, m))
    ensures FixAll(t, dest, mods) == Some(t)
    decreases |mods|
  {
    if mods != [] {
      assert forall m :: m in mods[1..] ==> m in mods;
      FixAllNothingToDo(t, dest, mods[1..]);
    }
  }

  /** The fix is idempotent: running it again on its result changes nothing. */
  lemma FixAllIdempotent(t: Tree, dest: Path, mods: seq<string>, t2: Tree)
    requires FixAll(t, dest, mods) == Some(t2)
    ensures FixAll(t2, dest, mods) == Some(t2)
  {
    FixAllOnlyAdds(t, dest, mods, t2);
    FixAllCovers(t, dest, mods, t2);
    forall m | m in mods && DirFound(t2, dest, m)
      ensures Exists(t2, InitOf(dest, m))
    {
      if ModDir(dest, m) in t2.files && ModDir(dest, m) !in t.files {
        var m0 :| m0 in mods && ModDir(dest, m) == InitOf(dest, m0);
        InitNotModDir(dest, m0, m);
      }
      assert DirFound(t, dest, m);
    }
    FixAllNothingToDo(t2, dest, mods);
  }

  /** The fix fails exactly when a listed package "directory" that is found is a file. */
  lemma {:induction false} FixAllFailsIff(t: Tree, dest: Path, mods: seq<string>)
    requires WellFormed(t)
    ensures FixAll(t, dest, mods) == None <==>
      exists m :: m in mods && DirFound(t, dest, m) && ModDir(dest, m) in t.files
    decreases |mods|
  {
    if mods != [] {
      var m0 := mods[0];
      if ModDir(dest, m0) in t.files {
        NothingBelowFile(t, ModDir(dest, m0), InitOf(dest, m0));
      }
      match FixOne(t, dest, m0)
      case None =>
      case Some(t1) =>
        PrimitivesWellFormed(t, InitOf(dest, m0), NamespacePackageInit);
        FixAllFailsIff(t1, dest, mods[1..]);
        forall m | m in mods[1..]
          ensures (DirFound(t1, dest, m) && ModDir(dest, m) in t1.files) <==>
                  (DirFound(t, dest, m) && ModDir(dest, m) in t.files)
        {
          if t1 != t {
            WriteKeepsView(t, dest, m0, m, NamespacePackageInit);
          }
        }
        assert forall m :: m in mods <==> m == m0 || m in mods[1..];
    }
  }

  /** The loop over the package names: `FixAll`, one `open(mod_init, 'w')` at a time,
      stopping at the first that raises. */
  method FixModules(fs: FileSystem, dest: Path, mods: seq<string>) returns (ok: bool)
    requires fs.Valid()
    modifies fs
    ensures fs.Valid()
    ensures ok <==> FixAll(old(fs.tree), dest, mods).Some?
    ensures ok ==> fs.tree == FixAll(old(fs.tree), dest, mods).value
  {
    var i := 0;
    while i < |mods|
      invariant 0 <= i <= |mods|
      invariant fs.Valid()
      invariant FixAll(old(fs.tree), dest, mods) == FixAll(fs.tree, dest, mods[i..])
    {
      assert mods[i..][1..] == mods[i + 1..];
      var mod := mods[i];
      var modInit := InitOf(dest, mod);
      if DirFound(fs.tree, dest, mod) && !Exists(fs.tree, modInit) {
        ok := fs.Write(modInit, NamespacePackageInit);
        if !ok {
          return;
        }
      }
      i := i + 1;
    }
    ok := true;
  }

  /** `_fix_namespace_packages(egg_info, destination_eggdir)`: when
      `namespace_packages.txt` exists in `eggInfo`, read it, split it on whitespace and fix
      every package named, as `FixAll` says. Reading a directory raises. */
  method FixNamespacePackages(fs: FileSystem, eggInfo: Path, dest: Path) returns (r: Result<()>)
    requires fs.Valid()
    modifies fs
    ensures fs.Valid()
    ensures r.Err? ==> r.error == OsError
    ensures var listing := eggInfo + ["namespace_packages.txt"];
      && (listing !in old(fs.tree).files ==> fs.tree == old(fs.tree) && (r.Ok? <==> listing !in old(fs.tree).dirs))
      && (listing in old(fs.tree).files ==>
            var fixed := FixAll(old(fs.tree), dest, Words(old(fs.tree).files[listing]));
            (r.Ok? <==> fixed.Some?) && (r.Ok? ==> fs.tree == fixed.value))
  {
    var listing := eggInfo + ["namespace_packages.txt"];
    if !Exists(fs.tree, listing) {
      return Ok(());
    }
    if listing !in fs.tree.files {
      return Err(OsError);
    }
    var mods := Words(fs.tree.files[listing]);
    var ok := FixModules(fs, dest, mods);
    if !ok {
      return Err(OsError);
    }
    return Ok(());
  }
}
