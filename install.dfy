/** `Wheel.install_as_egg` (setuptools/wheel.py): check the archive, extract it into a new
    egg directory, turn the `.dist-info` directory into `EGG-INFO`, move the contents of the
    `.data` directory into place and repair the namespace packages.

    The archive is given as its member names in `namelist()` order and the tree its members
    extract to. The `Wheel-Version` field of the `WHEEL` record, the requirement strings of
    the distribution and the text `write_requirements` makes of them are inputs. */
module Install {
  import opened Common
  import opened FileTree
  import WheelName
  import DistInfo
  import Versions
  import Requirements
  import Relocate
  import Scripts
  import Namespaces

  datatype Archive = Archive(names: seq<string>, entries: Tree)

  // ---------------------------------------------------------------------
  // Paths named by strings

  /** The components of a POSIX path; an empty component (a doubled slash) names nothing. */
  function PathOf(name: string): Path {
    Namespaces.NonEmpty(SplitOn(name, '/'))
  }

  /** `os.path.join(base, name)`: an absolute `name` replaces `base`. */
  function JoinPath(base: Path, name: string): Path {
    if name != [] && name[0] == '/' then PathOf(name) else base + PathOf(name)
  }

  function Last(p: Path): string
    requires p != []
  {
    p[|p| - 1]
  }

  /** The last field of `s.split(c)` holds the end of `s` after the last `c`. */
  lemma {:induction false} SplitKeepsSuffix(s: string, c: char, suffix: string)
    requires EndsWith(s, suffix) && c !in suffix
    ensures var parts := SplitOn(s, c); EndsWith(parts[|parts| - 1], suffix)
    decreases |s|
  {
    var i := IndexFrom(s, c, 0);
    if i < |s| {
      var rest := s[i + 1..];
      assert rest[|rest| - |suffix|..] == s[|s| - |suffix|..];
      SplitKeepsSuffix(rest, c, suffix);
    }
  }

  /** Dropping the empty fields keeps a non-empty last field last. */
  lemma {:induction false} NonEmptyKeepsLast(parts: seq<string>)
    requires parts != [] && parts[|parts| - 1] != []
    ensures var r := Namespaces.NonEmpty(parts); r != [] && r[|r| - 1] == parts[|parts| - 1]
    decreases |parts|
  {
    if |parts| > 1 {
      NonEmptyKeepsLast(parts[1..]);
    }
  }

  /** A name ending in `suffix` (which holds no slash) names a path whose last component
      ends in `suffix`, wherever it is joined. */
  lemma JoinedNameEndsWith(base: Path, name: string, suffix: string)
    requires EndsWith(name, suffix) && suffix != [] && '/' !in suffix
    ensures var p := JoinPath(base, name); p != [] && EndsWith(Last(p), suffix)
  {
    var parts := SplitOn(name, '/');
    SplitKeepsSuffix(name, '/', suffix);
    NonEmptyKeepsLast(parts);
  }

  /** A name without slashes is one component below `base`. */
  lemma JoinedPlainName(base: Path, name: string)
    requires name != [] && '/' !in name
    ensures JoinPath(base, name) == base + [name]
  {
    assert IndexFrom(name, '/', 0) == |name|;
    assert SplitOn(name, '/') == [name];
    assert [name][1..] == [];
    assert Namespaces.NonEmpty([name]) == [name] + Namespaces.NonEmpty([]);
    assert name[0] in name;
  }
  // ---------------------------------------------------------------------
  // Extraction and the conversion of the metadata

  function EggInfo(dest: Path): Path {
    dest + ["EGG-INFO"]
  }

  /** The tree after `os.mkdir(dest)` and `zf.extractall(dest)`. */
  function Extracted(t: Tree, dest: Path, entries: Tree): Tree {
    Graft(AddDir(t, dest), dest, entries)
  }

  /** Below the new directory there is exactly what the archive holds. */
  lemma ExtractedAt(t: Tree, dest: Path, entries: Tree, q: Path)
    requires WellFormed(t) && MkdirOk(t, dest)
    ensures dest + q in Extracted(t, dest, entries).files <==> q in entries.files
    ensures q in entries.files ==> Extracted(t, dest, entries).files[dest + q] == entries.files[q]
    ensures dest + q in Extracted(t, dest, entries).dirs <==> q == [] || q in entries.dirs
  {
    GraftAt(AddDir(t, dest), dest, entries, q);
    if q != [] && Exists(t, dest + q) {
      AncestorIsDir(t, dest + q, dest);
    }
    assert dest + [] == dest;
  }

  /** Lines 118-158 after the checks: create `dest`, extract the archive into it, rename the
      `.dist-info` directory `distInfo` to `EGG-INFO` and its `METADATA` to `PKG-INFO`, and
      write `requires.txt`; `None` when one of these raises. */
  function Converted(t: Tree, dest: Path, distInfo: Path, entries: Tree, requiresTxt: string): Option<Tree> {
    var eggInfo := EggInfo(dest);
    if !MkdirOk(t, dest) || !ExtractOk(AddDir(t, dest), dest, entries) then None
    else
      var t1 := Extracted(t, dest, entries);
      if !RenameOk(t1, distInfo, eggInfo) then None
      else
        var t2 := Move(t1, distInfo, eggInfo);
        if !RenameOk(t2, eggInfo + ["METADATA"], eggInfo + ["PKG-INFO"]) then None
        else
          var t3 := Move(t2, eggInfo + ["METADATA"], eggInfo + ["PKG-INFO"]);
          if !WriteOk(t3, eggInfo + ["requires.txt"]) then None
          else Some(WriteFile(t3, eggInfo + ["requires.txt"], requiresTxt))
  }

  /** A rename that succeeds never moves an entry onto one of its own ancestors. */
  lemma RenameNotUp(t: Tree, a: Path, b: Path)
    requires WellFormed(t) && RenameOk(t, a, b) && a != b
    ensures !(b <= a)
  {
    if b < a {
      AncestorIsDir(t, a, b);
    }
  }

  /** A rename changes nothing outside its source and its target. */
  lemma MoveElsewhere(t: Tree, a: Path, b: Path, q: Path)
    requires !(a <= q) && !(b <= q)
    ensures q in Move(t, a, b).dirs <==> q in t.dirs
    ensures q in Move(t, a, b).files <==> q in t.files
    ensures q in t.files ==> Move(t, a, b).files[q] == t.files[q]
  {
    MovePathsIff(t.dirs, a, b, q);
    MoveFilesAt(t.files, a, b, q);
  }

  /** After a rename to a different place, nothing is left at the source. */
  lemma MoveLeavesSource(t: Tree, a: Path, b: Path)
    requires WellFormed(t) && RenameOk(t, a, b) && a != b
    ensures !Exists(Move(t, a, b), a)
  {
    RenameNotUp(t, a, b);
    MovePathsIff(t.dirs, a, b, a);
    MoveFilesAt(t.files, a, b, a);
  }

  /** The renames and the write of the conversion, on the extracted tree `t1`. */
  predicate ConvertSteps(t1: Tree, dest: Path, distInfo: Path, requiresTxt: string, t': Tree) {
    var eggInfo := EggInfo(dest);
    && RenameOk(t1, distInfo, eggInfo)
    && var t2 := Move(t1, distInfo, eggInfo);
    && RenameOk(t2, eggInfo + ["METADATA"], eggInfo + ["PKG-INFO"])
    && var t3 := Move(t2, eggInfo + ["METADATA"], eggInfo + ["PKG-INFO"]);
    && WriteOk(t3, eggInfo + ["requires.txt"])
    && t' == WriteFile(t3, eggInfo + ["requires.txt"], requiresTxt)
  }

  lemma ConvertedSteps(t: Tree, dest: Path, distInfo: Path, entries: Tree, requiresTxt: string, t': Tree)
    requires WellFormed(t) && Converted(t, dest, distInfo, entries, requiresTxt) == Some(t')
    ensures !Exists(t, dest) && WellFormed(Extracted(t, dest, entries))
    ensures ConvertSteps(Extracted(t, dest, entries), dest, distInfo, requiresTxt, t')
  {
    PrimitivesWellFormed(t, dest, []);
    GraftWellFormed(AddDir(t, dest), dest, entries);
  }

  /** The steps leave `EGG-INFO` a directory holding `PKG-INFO` (the old `METADATA`) and
      `requires.txt`, and nothing at the `.dist-info` directory. */
  lemma StepsLayout(t1: Tree, dest: Path, distInfo: Path, requiresTxt: string, t': Tree)
    requires WellFormed(t1) && ConvertSteps(t1, dest, distInfo, requiresTxt, t')
    requires distInfo != EggInfo(dest)
    ensures EggInfo(dest) in t'.dirs && !Exists(t', distInfo)
    ensures EggInfo(dest) + ["requires.txt"] in t'.files && t'.files[EggInfo(dest) + ["requires.txt"]] == requiresTxt
    ensures distInfo + ["METADATA"] in t1.files ==>
      EggInfo(dest) + ["PKG-INFO"] in t'.files
      && t'.files[EggInfo(dest) + ["PKG-INFO"]] == t1.files[distInfo + ["METADATA"]]
    ensures EggInfo(dest) + ["namespace_packages.txt"] in t'.files <==>
      distInfo + ["namespace_packages.txt"] in t1.files
  {
    var egg := EggInfo(dest);
    var meta, pkg := egg + ["METADATA"], egg + ["PKG-INFO"];
    var t2 := Move(t1, distInfo, egg);
    MoveLeavesSource(t1, distInfo, egg);
    RenameNotUp(t1, distInfo, egg);
    MoveElsewhere(t2, meta, pkg, distInfo);
    MoveElsewhere(t2, meta, pkg, egg);
    MoveFilesAt(t2.files, meta, pkg, pkg);
    assert pkg[|pkg|..] == [] && meta + [] == meta;
    if distInfo + ["METADATA"] in t1.files {
      MoveFilesAt(t1.files, distInfo, egg, meta);
      assert meta[|egg|..] == ["METADATA"];
    }
    var listing := egg + ["namespace_packages.txt"];
    MoveFilesAt(t1.files, distInfo, egg, listing);
    assert listing[|egg|..] == ["namespace_packages.txt"];
    assert listing[|egg|] != meta[|egg|] && listing[|egg|] != pkg[|egg|];
    MoveElsewhere(t2, meta, pkg, listing);
  }

  /** The converted tree: `dest` is new, `EGG-INFO` is a directory holding `PKG-INFO` (the
      archive's `METADATA`) and `requires.txt`, the `.dist-info` directory is gone, and the
      list of namespace packages is in `EGG-INFO` when the archive had it. */
  lemma ConvertedLayout(t: Tree, dest: Path, distInfo: Path, entries: Tree, requiresTxt: string, t': Tree)
    requires WellFormed(t) && Converted(t, dest, distInfo, entries, requiresTxt) == Some(t')
    requires distInfo != EggInfo(dest)
    ensures !Exists(t, dest)
    ensures EggInfo(dest) in t'.dirs && !Exists(t', distInfo)
    ensures EggInfo(dest) + ["requires.txt"] in t'.files && t'.files[EggInfo(dest) + ["requires.txt"]] == requiresTxt
    ensures var x := Extracted(t, dest, entries);
      distInfo + ["METADATA"] in x.files ==>
        EggInfo(dest) + ["PKG-INFO"] in t'.files
        && t'.files[EggInfo(dest) + ["PKG-INFO"]] == x.files[distInfo + ["METADATA"]]
    ensures EggInfo(dest) + ["namespace_packages.txt"] in t'.files <==>
      distInfo + ["namespace_packages.txt"] in Extracted(t, dest, entries).files
  {
    ConvertedSteps(t, dest, distInfo, entries, requiresTxt, t');
    StepsLayout(Extracted(t, dest, entries), dest, distInfo, requiresTxt, t');
  }

  /** Outside the `.dist-info` directory and `EGG-INFO`, the converted tree is the extracted
      one. */
  lemma ConvertedElsewhere(t: Tree, dest: Path, distInfo: Path, entries: Tree, requiresTxt: string, t': Tree, q: Path)
    requires Converted(t, dest, distInfo, entries, requiresTxt) == Some(t')
    requires !(distInfo <= q) && !(EggInfo(dest) <= q)
    ensures var x := Extracted(t, dest, entries);
      && (q in t'.dirs <==> q in x.dirs)
      && (q in t'.files <==> q in x.files)
      && (q in x.files ==> t'.files[q] == x.files[q])
  {
    var egg := EggInfo(dest);
    var t1 := Extracted(t, dest, entries);
    var t2 := Move(t1, distInfo, egg);
    MoveElsewhere(t1, distInfo, egg, q);
    MoveElsewhere(t2, egg + ["METADATA"], egg + ["PKG-INFO"], q);
  }

  /** An archive without a `.data` directory leaves none after the conversion. */
  lemma NoDataConverted(t: Tree, dest: Path, distInfo: Path, entries: Tree, requiresTxt: string, t': Tree, name: string)
    requires WellFormed(t) && Converted(t, dest, distInfo, entries, requiresTxt) == Some(t')
    requires distInfo != [] && EndsWith(Last(distInfo), ".dist-info") && EndsWith(name, ".data")
    requires [name] !in entries.dirs && [name] !in entries.files
    ensures !Exists(t', dest + [name])
  {
    var q := dest + [name];
    ConvertedSteps(t, dest, distInfo, entries, requiresTxt, t');
    assert name[|name| - 1] == 'a';
    assert Last(distInfo)[|Last(distInfo)| - 1] == 'o';
    assert q != EggInfo(dest) by {
      assert "EGG-INFO"[7] != 'a';
    }
    ConvertedElsewhere(t, dest, distInfo, entries, requiresTxt, t', q);
    ExtractedAt(t, dest, entries, [name]);
  }

  /** Lines 118-158: `Converted`, one `os` call at a time. */
  method ConvertMetadata(fs: FileSystem, dest: Path, distInfo: Path, entries: Tree, requiresTxt: string)
    returns (ok: bool)
    requires fs.Valid()
    modifies fs
    ensures fs.Valid()
    ensures ok <==> Converted(old(fs.tree), dest, distInfo, entries, requiresTxt).Some?
    ensures ok ==> fs.tree == Converted(old(fs.tree), dest, distInfo, entries, requiresTxt).value
  {
    var eggInfo := EggInfo(dest);
    ok := fs.Mkdir(dest);
    if !ok {
      return;
    }
    ok := fs.Extract(dest, entries);
    if !ok {
      return;
    }
    ok := fs.Rename(distInfo, eggInfo);
    if !ok {
      return;
    }
    ok := fs.Rename(eggInfo + ["METADATA"], eggInfo + ["PKG-INFO"]);
    if !ok {
      return;
    }
    ok := fs.Write(eggInfo + ["requires.txt"], requiresTxt);
  }
  // ---------------------------------------------------------------------
  // The `.data` directory

  /** `dist_data`, the directory `<project>-<version>.data`, lies right below `dest`, beside
      `EGG-INFO`. */
  predicate DataDirOf(dest: Path, data: Path) {
    |data| == |dest| + 1 && data[..|dest|] == dest && data[|dest|] != "EGG-INFO"
  }

  /** The subdirectories of the `.data` directory whose contents go to the top of the egg. */
  const DataSubdirs: seq<string> := ["data", "headers", "purelib", "platlib"]

  /** Nothing lies below a path that does not exist. */
  lemma BelowMissing(t: Tree, p: Path, q: Path)
    requires WellFormed(t) && !Exists(t, p) && p < q
    ensures !Exists(t, q)
  {
    if Exists(t, q) {
      AncestorIsDir(t, q, p);
    }
  }

  /** At line 181 `unpack(data/<d>, dest)` meets the relocation condition of `Relocate.Unpack`,
      so its file-level result applies, unless the wheel holds `data/<d>` again inside
      `data/<d>` (the path `dest/<name>.data/<d>/<name>.data/<d>`). */
  lemma UnpackCallApart(t: Tree, dest: Path, data: Path, d: string)
    requires WellFormed(t) && DataDirOf(dest, data)
    requires !Exists(t, data + [d] + [data[|dest|], d])
    ensures Relocate.ApartAll(t, data + [d], dest)
  {
    assert data == dest + [data[|dest|]];
    assert data + [d] == dest + [data[|dest|], d];
    Relocate.ApartWhenNested(t, dest, data[|dest|], d);
  }

  /** Lines 160-183: move the scripts of `data` to `EGG-INFO/scripts`, unpack each of its
      subdirectories `data`, `headers`, `purelib` and `platlib` that exists into `dest`, then
      remove `data` if it exists. A wheel without a `.data` directory is left as it is;
      on success no `.data` directory remains. */
  method MoveData(fs: FileSystem, dest: Path, data: Path) returns (r: Result<()>)
    requires fs.Valid() && DataDirOf(dest, data)
    modifies fs
    ensures fs.Valid()
    ensures r.Err? ==> r.error in {OsError, AssertionFailed}
    ensures !Exists(old(fs.tree), data) ==> r == Ok(()) && fs.tree == old(fs.tree)
    ensures r.Ok? ==> !Exists(fs.tree, data)
  {
    ghost var t0 := fs.tree;
    var scripts := data + ["scripts"];
    var eggScripts := EggInfo(dest) + ["scripts"];
    assert scripts[|dest|] != eggScripts[|dest|];
    if !Exists(fs.tree, data) {
      BelowMissing(fs.tree, data, scripts);
    }
    r := Scripts.RelocateScripts(fs, scripts, eggScripts);
    if r.Err? {
      return;
    }
    var i := 0;
    while i < |DataSubdirs|
      invariant 0 <= i <= |DataSubdirs|
      invariant fs.Valid()
      invariant !Exists(t0, data) ==> fs.tree == t0
    {
      var subdir := data + [DataSubdirs[i]];
      if !Exists(fs.tree, data) {
        BelowMissing(fs.tree, data, subdir);
      }
      if Exists(fs.tree, subdir) {
        r := Relocate.Unpack(fs, subdir, dest);
        if r.Err? {
          return;
        }
      }
      i := i + 1;
    }
    if Exists(fs.tree, data) {
      var ok := fs.Rmdir(data);
      if !ok {
        return Err(OsError);
      }
    }
    return Ok(());
  }
  /** `dist_data`: `<project>-<version>.data` joined to `dest`, one component for a wheel
      whose names hold no slash (`DataDirIsOf`). */
  function DataDir(dest: Path, w: WheelName.Wheel): Path {
    dest + [w.projectName + "-" + w.version + ".data"]
  }

  /** For a wheel made from its file name (`WheelName.ParsedFieldsHaveNoSlash`), `dist_data`
      is one component below `dest`, as `os.path.join` makes it, and is not `EGG-INFO`. */
  lemma DataDirIsOf(dest: Path, w: WheelName.Wheel)
    requires WheelName.PlainNames(w)
    ensures DataDirOf(dest, DataDir(dest, w))
    ensures DataDir(dest, w) == JoinPath(dest, w.projectName + "-" + w.version + ".data")
    ensures EndsWith(Last(DataDir(dest, w)), ".data")
  {
    var name := w.projectName + "-" + w.version + ".data";
    assert forall x :: x in name ==> x in w.projectName || x in "-" || x in w.version || x in ".data";
    JoinedPlainName(dest, name);
    assert name[|name| - 1] == 'a' != "EGG-INFO"[7];
    assert name[|name| - 5..] == ".data";
  }

  /** The namespace fix never creates a `.data` directory: it adds only `__init__.py` files. */
  lemma FixKeepsDataAbsent(t: Tree, dest: Path, mods: seq<string>, t2: Tree, data: Path)
    requires Namespaces.FixAll(t, dest, mods) == Some(t2)
    requires !Exists(t, data) && data != [] && EndsWith(Last(data), ".data")
    ensures !Exists(t2, data)
  {
    Namespaces.FixAllOnlyAdds(t, dest, mods, t2);
  }

  // ---------------------------------------------------------------------
  // The whole installation

  /** Lines 160-184: move the `.data` directory's contents into place, then repair the
      namespace packages listed in `EGG-INFO`. On success no `.data` directory is left; with
      neither a `.data` directory nor a list of namespace packages nothing changes. */
  method FinishInstall(fs: FileSystem, dest: Path, data: Path) returns (r: Result<()>)
    requires fs.Valid() && DataDirOf(dest, data) && EndsWith(Last(data), ".data")
    modifies fs
    ensures fs.Valid()
    ensures r.Err? ==> r.error in {OsError, AssertionFailed}
    ensures r.Ok? ==> !Exists(fs.tree, data)
    ensures (!Exists(old(fs.tree), data) && EggInfo(dest) + ["namespace_packages.txt"] !in old(fs.tree).files
      && r.Ok?) ==> fs.tree == old(fs.tree)
  {
    r := MoveData(fs, dest, data);
    if r.Err? {
      return;
    }
    ghost var moved := fs.tree;
    r := Namespaces.FixNamespacePackages(fs, EggInfo(dest), dest);
    var listing := EggInfo(dest) + ["namespace_packages.txt"];
    if r.Ok? && listing in moved.files {
      FixKeepsDataAbsent(moved, dest, Words(moved.files[listing]), fs.tree, data);
    }
  }

  /** Lines 100-116, before anything is created: find the `.dist-info` directory (line 101),
      then refuse a format version outside `1.0 <= v < 2.0dev0` (lines 110-116). */
  function Validate(names: seq<string>, projectName: string, wheelVersion: string): (r: Result<string>)
    ensures r.Err? ==> r.error in {DistInfoNotFound, UnsupportedWheelVersion}
    ensures r == Err(DistInfoNotFound) <==> forall i :: 0 <= i < |names| ==> !DistInfo.Qualifies(names[i], projectName)
    ensures r.Ok? <==>
      && (exists i :: 0 <= i < |names| && DistInfo.Qualifies(names[i], projectName))
      && Versions.WheelVersionSupported(Versions.ParseVersion(wheelVersion))
    ensures r.Ok? ==> r == DistInfo.GetDistInfo(names, projectName) && EndsWith(r.value, ".dist-info")
  {
    var found := DistInfo.GetDistInfo(names, projectName);
    if found.Err? then Err(DistInfoNotFound)
    else if !Versions.WheelVersionSupported(Versions.ParseVersion(wheelVersion)) then Err(UnsupportedWheelVersion)
    else found
  }

  /** The `.dist-info` directory `Validate` finds, joined to `dest`, is a path whose last
      component ends in `.dist-info`, so it is never `EGG-INFO`: `ConvertedLayout` and
      `NoDataConverted` apply to it. */
  lemma DistInfoPathApart(dest: Path, name: string)
    requires EndsWith(name, ".dist-info")
    ensures var p := JoinPath(dest, name); p != [] && EndsWith(Last(p), ".dist-info") && p != EggInfo(dest)
  {
    JoinedNameEndsWith(dest, name, ".dist-info");
    assert |Last(JoinPath(dest, name))| >= 10 > |"EGG-INFO"|;
  }

  /** `_install_as_egg(dest, zf)` for the wheel `w`. The checks of `Validate` come before
      anything is created: when they fail, the file system is as it was. On success `dest`
      did not exist before, the metadata conversion produced `converted` (see
      `ConvertedLayout`), and no `.data` directory is left; a wheel without a `.data`
      directory and without namespace packages installs as exactly `converted`.
      `writeRequirements` is the text `write_requirements` makes of the normalised
      requirements. */
  method InstallAsEgg(fs: FileSystem, w: WheelName.Wheel, dest: Path, archive: Archive, wheelVersion: string,
      base: seq<string>, requiresFor: map<string, seq<string>>,
      writeRequirements: Requirements.Normalized -> string)
    returns (r: Result<()>, ghost converted: Tree)
    requires fs.Valid() && WheelName.PlainNames(w)
    modifies fs
    ensures fs.Valid()
    ensures var checked := Validate(archive.names, w.projectName, wheelVersion);
      checked.Err? ==> r == Err(checked.error) && fs.tree == old(fs.tree)
    ensures r.Err? ==> r.error in {DistInfoNotFound, UnsupportedWheelVersion, OsError, AssertionFailed}
    ensures var checked := Validate(archive.names, w.projectName, wheelVersion);
      r.Ok? ==>
        && checked.Ok? && !Exists(old(fs.tree), dest)
        && Converted(old(fs.tree), dest, JoinPath(dest, checked.value), archive.entries,
             writeRequirements(Requirements.Normalize(base, requiresFor))) == Some(converted)
        && !Exists(fs.tree, DataDir(dest, w))
    ensures (r.Ok? && !Exists(converted, DataDir(dest, w))
      && EggInfo(dest) + ["namespace_packages.txt"] !in converted.files) ==> fs.tree == converted
  {
    converted := fs.tree;
    var checked := Validate(archive.names, w.projectName, wheelVersion);
    if checked.Err? {
      r := Err(checked.error);
      return;
    }
    var distInfo := JoinPath(dest, checked.value);
    var requiresTxt := writeRequirements(Requirements.Normalize(base, requiresFor));
    var ok := ConvertMetadata(fs, dest, distInfo, archive.entries, requiresTxt);
    if !ok {
      r := Err(OsError);
      return;
    }
    converted := fs.tree;
    DataDirIsOf(dest, w);
    r := FinishInstall(fs, dest, DataDir(dest, w));
  }
}
