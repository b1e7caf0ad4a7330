# setuptools wheel support, modelled in Dafny

This project models `setuptools/wheel.py`, which setuptools uses to install a binary
wheel (`*.whl`) as an unpacked egg directory. The model covers:

- **Parsing the wheel file name.** The `WHEEL_NAME` regular expression is modelled, including
  the backtracking order of its lazy groups. The result is a `Wheel` record, or
  `InvalidWheelName(filename)` when nothing matches.
- **Compatibility tags.** The product of the dot-separated py/abi/platform fields, and whether
  any of its triples is in a supported set.
- **Finding the `.dist-info` directory** among the archive members, using `canonicalize_name`.
- **The Wheel-Version gate** `1.0 <= v < 2.0dev0`, over a subset of PEP 440 versions.
- **Requirement normalisation.** `install_requires` and `extras_require` are sorted, and an
  extra's list omits requirements that are already unconditional.
- **The directory conversion**, on a model of the file system:
  - make the egg directory and extract the archive into it;
  - rename the `.dist-info` directory to `EGG-INFO` and `METADATA` to `PKG-INFO`;
  - write `requires.txt`;
  - move `<name>-<version>.data/scripts` into `EGG-INFO/scripts`, deleting `.pyc` files;
  - `unpack` the `data`, `headers`, `purelib` and `platlib` subdirectories into the egg;
  - remove the `.data` directory;
  - add the `__init__.py` stubs for the namespace packages that `namespace_packages.txt` lists.

Modules, one per concern:

| module | file | models |
|---|---|---|
| `Common` | common.dfy | `str.split`, `str.split()`, `sorted`, `posixpath.basename` / `dirname` |
| `WheelName` | wheel_name.dfy | `WHEEL_NAME` and `Wheel.__init__` |
| `Tags` | tags.dfy | `Wheel.tags`, `Wheel.is_compatible` |
| `DistInfo` | dist_info.dfy | `canonicalize_name`, `Wheel.get_dist_info` |
| `Versions` | versions.dfy | `parse_version` ordering and the Wheel-Version gate |
| `Requirements` | requirements.dfy | `install_requires` / `extras_require` construction |
| `FileTree` | filetree.dfy | a tree of directories and files, and the `os` calls on it, as class `FileSystem` |
| `Relocate` | relocate.dfy | `unpack` (walk, rename, cleanup) |
| `Scripts` | scripts.dfy | the move of `.data/scripts` into `EGG-INFO/scripts` |
| `Namespaces` | namespaces.dfy | `_fix_namespace_packages` |
| `Install` | install.dfy | `_install_as_egg` as a whole |

**File system.**
- A tree is a set of directory paths and a map from file paths to contents. A path is a
  sequence of components.
- Each `os` operation used by the source is a method of the class `FileTree.FileSystem`.
  The method says that it succeeds exactly when a named condition holds, and gives the new
  tree as a function of the old one. On failure the tree is unchanged, except after a failing
  `FileTree.FileSystem.RenameTree`: like `os.renames`, it keeps the directories its `makedirs`
  step created before the rename failed.
- `os.renames` is `makedirs` of the target's parent, then `rename`, then `removedirs` of the
  source's parent with errors ignored.
- The operations that walk the tree (`unpack`, the scripts move, the namespace fix and the
  whole installation) are methods over that class, with loops. They are proved against
  functions that describe the resulting tree.

**Inputs.** The zip archive is given as its member names plus the tree of entries that
`extractall` creates. Several values the source computes with code outside this module are
parameters of `Install.InstallAsEgg`:
- the `Wheel-Version` header value;
- the requirement strings `dist.requires()` yields, with their markers already stripped;
- the text `write_requirements` produces.

**Order of checks.** The code looks up the `.dist-info` directory and checks the Wheel-Version
before `os.mkdir(destination_eggdir)` (`setuptools/wheel.py:101-118`). So a wheel that fails
either check leaves the file system untouched, and `Install.InstallAsEgg` promises an unchanged
tree on those errors.

## Model

| member | source | states |
|---|---|---|
| `Common.Words` | setuptools/wheel.py:192 | every word of `fp.read().split()` is non-empty and holds no whitespace |
| `Common.WordsJoin` | setuptools/wheel.py:192 | non-empty, whitespace-free words joined by spaces split back into exactly those words, in order |
| `Common.WordsCover` | setuptools/wheel.py:192 | the words of a text, concatenated in order, are the text with its whitespace removed |
| `Common.SplitEnds` | setuptools/wheel.py:110 | the first field of `str.split(c)` starts the string and the last field ends it |
| `Common.JoinSplit` | setuptools/wheel.py:68-70 | re-joining the parts of `str.split(c)` with `c` gives back the original string |
| `Common.SplitJoin` | setuptools/wheel.py:194 | splitting a join of parts that contain no `c` gives back the parts |
| `Common.Sort` | setuptools/wheel.py:133 | `sorted` yields an ordered permutation of its input |
| `Common.SortedUnique` | setuptools/wheel.py:133-140 | two sorted sequences with the same multiset are equal, so the sorted list is determined by its contents |
| `Common.LexLeTotal` | setuptools/wheel.py:133 | string ordering is total |
| `Common.LexLeTransitive` | setuptools/wheel.py:133 | string ordering is transitive |
| `Common.Basename` | setuptools/wheel.py:58 | `os.path.basename` is a slash-free suffix of the path, starting right after a `/` when shorter than it |
| `Common.DirnameSplits` | setuptools/wheel.py:87 | `posixpath.dirname` is a prefix, the path is dirname + slashes + basename, and the dirname is empty iff the path has no `/` |
| `WheelName.FirstMatch` | setuptools/wheel.py:19-23 | the result matches the pattern, and every match of the pattern equals it or comes after it in the regex engine's backtracking order |
| `WheelName.FirstMatchIsFirst` | setuptools/wheel.py:19-23 | repackages `FirstMatch`'s contract under the names `NoMatch` and `IsFirstMatch` that `Parse` states: no first match iff the name does not match at all, otherwise the first match is the one the engine reports |
| `WheelName.Parse` | setuptools/wheel.py:57-63 | fails with `InvalidWheelName(filename)` iff the basename does not match, and otherwise holds the groups of the first match |
| `WheelName.ParseRebuildsBasename` | setuptools/wheel.py:57-63 | a parsed wheel keeps the filename, and its fields re-joined with `-` plus `.whl` give back the basename |
| `WheelName.ParsedWellShaped` | setuptools/wheel.py:20-22 | every parsed field is non-empty, version and build start with a digit, and no field holds a newline |
| `WheelName.StemParsesBack` | setuptools/wheel.py:19-23 | a well-shaped wheel whose fields hold no `-` parses back from its own file name |
| `WheelName.BetaIsTheInterpreterTag` | setuptools/wheel.py:19-23 | `foo-1.0-beta-py3-none-any.whl` parses with no build, py `beta`, abi `py3` and platform `none-any`, because the lazy groups stop at the first dash |
| `WheelName.DashFreeMatchIsFirst` | setuptools/wheel.py:19-23 | when the project, version, build, py and abi fields hold no dash, no other match precedes that split |
| `WheelName.ParsedFieldsHaveNoSlash` | setuptools/wheel.py:58-63 | the project name and version of a parsed wheel hold no `/`, because they come from the basename |
| `Tags.ProductAt` | setuptools/wheel.py:65-71 | the triple `(xs[i], ys[j], zs[k])` sits at position `i·len(ys)·len(zs) + j·len(zs) + k` of `itertools.product` |
| `Tags.ProductLength` | setuptools/wheel.py:65-71 | the product has `len(xs)·len(ys)·len(zs)` triples |
| `Tags.InProduct` | setuptools/wheel.py:65-71 | a triple is in the product iff each component is in its list |
| `Tags.AnySupported` | setuptools/wheel.py:76 | the scan answers true iff some tag is in the supported set |
| `Tags.IsCompatibleIff` | setuptools/wheel.py:73-76 | a wheel is compatible iff some supported triple has each component among the dot-separated parts of the matching name field |
| `DistInfo.Canonicalize` | setuptools/wheel.py:89-90 | the canonical name is no longer than the name, and starts with `-` iff the name starts with a separator |
| `DistInfo.CanonicalizeIsCanonical` | setuptools/wheel.py:89-90 | the result is lower case and every run of `-`, `_`, `.` is a single `-` |
| `DistInfo.CanonicalizeIdempotent` | setuptools/wheel.py:89-90 | canonicalizing twice gives the same result as canonicalizing once |
| `DistInfo.GetDistInfo` | setuptools/wheel.py:84-92 | fails with `DistInfoNotFound` iff no member's directory ends in `.dist-info` and canonically starts with the project name, and otherwise returns the directory of the first such member |
| `DistInfo.GetDistInfoIsFirst` | setuptools/wheel.py:86-91 | repackages `GetDistInfo`'s contract for one given member: whenever it qualifies, the lookup succeeds with the first qualifying member at or before it |
| `DistInfo.NamedDistInfoQualifies` | setuptools/wheel.py:86-91 | a member `<project>-<version>.dist-info/<file>` qualifies for its own project |
| `Versions.CompareFlip` | setuptools/wheel.py:110-112 | version comparison is antisymmetric |
| `Versions.CompareTransitive` | setuptools/wheel.py:110-112 | `<=` on versions is transitive |
| `Versions.SupportedIff` | setuptools/wheel.py:110-116 | a wheel version passes the gate iff its major number is 1 and it is not a dev release of 1.0 |
| `Versions.GateBoundaries` | setuptools/wheel.py:111-113 | 1.0 and 1.9 pass, while 0.9, 2.0, 2.0.dev0 and 1.0.dev0 are refused |
| `Versions.ParseVersion` | setuptools/wheel.py:110-112 | a legacy result holds the header text, and a text parsed as a PEP 440 version has a non-empty release, starts with a digit and ends with a digit or with `dev` |
| `Versions.ParseAcceptedForm` | setuptools/wheel.py:110-112 | every text `N(.N)*` followed by nothing, `devN` or `.devN` (leading zeros allowed, `N` after `dev` possibly empty) parses to the numbers its digit runs denote, a bare `dev` being `dev0` |
| `Versions.TrailingDotIsLegacy` | setuptools/wheel.py:110-116 | a header ending in `.` (such as `1.0.`) is a legacy version, so the gate refuses it |
| `Versions.ParseFormat` | setuptools/wheel.py:110 | a formatted version parses back to itself |
| `Versions.BoundTexts` | setuptools/wheel.py:112 | the texts `1.0` and `2.0dev0` parse to the two bounds of the gate |
| `Requirements.Without` | setuptools/wheel.py:135-139 | the filter keeps each requirement as often as it occurs, except those in the excluded list |
| `Requirements.Normalize` | setuptools/wheel.py:133-141 | `install_requires` is a sorted permutation of the requirements, the extras are the same keys, and each extra's list is sorted and holds its requirements minus the unconditional ones |
| `Requirements.ExtraMembers` | setuptools/wheel.py:134-141 | a requirement is listed under an extra iff the extra yields it and it is not unconditional |
| `Requirements.NormalizeUnique` | setuptools/wheel.py:134-141 | any sorted list with that multiset is exactly the extra's list |
| `Requirements.DedupExample` | setuptools/wheel.py:134-141 | with `a>=1` unconditional, the extra `test` yielding `a>=1` and `b` lists only `b` |
| `FileTree.FileSystem.Mkdir` | setuptools/wheel.py:118 | `os.mkdir` succeeds iff the parent is a directory and nothing exists at the path, and then adds exactly that directory |
| `FileTree.FileSystem.Extract` | setuptools/wheel.py:119 | extraction into a directory succeeds iff no entry collides with an existing node of the other kind, and then grafts the entries below the directory |
| `FileTree.FileSystem.Rename` | setuptools/wheel.py:143-147 | `os.rename` succeeds iff the source exists, the target's parent is a directory, the target is not inside the source, and a file replaces only a file and a directory only an empty directory; it then moves the whole subtree with its contents |
| `FileTree.FileSystem.RenameTree` | setuptools/wheel.py:40 | `os.renames` is makedirs, rename and pruning of emptied source parents, with the resulting tree stated |
| `FileTree.FileSystem.Unlink` | setuptools/wheel.py:170 | `os.unlink` succeeds iff a file is there, and removes only it |
| `FileTree.FileSystem.Rmdir` | setuptools/wheel.py:176 | `os.rmdir` succeeds iff an empty directory is there, and removes only it |
| `FileTree.FileSystem.Write` | setuptools/wheel.py:197-198 | `open(..., 'w').write` succeeds iff the parent is a directory and no directory is at the path, and then sets the file's contents |
| `FileTree.MoveWellFormed` | setuptools/wheel.py:143 | a successful rename keeps every node's parent a directory |
| `FileTree.GraftAt` | setuptools/wheel.py:119 | after extraction each entry is at the destination with its contents, and nothing outside the destination changes |
| `FileTree.MoveFilesAt` | setuptools/wheel.py:143-147 | after a rename a path holds a file iff its source path did, with the same contents |
| `FileTree.AncestorIsDir` | setuptools/wheel.py:44 | every proper ancestor of an existing path is a directory, which is why `os.path.exists` on the destination suffices |
| `Relocate.TargetsIff` | setuptools/wheel.py:38-39 | a path is a rename target iff it is under the destination and its source counterpart was moved |
| `Relocate.RelocatedAt` | setuptools/wheel.py:33-34 | in the relocated tree every moved file's target holds the source file's contents, and every unmoved file outside stays |
| `Relocate.Walk` | setuptools/wheel.py:35-48 | a successful walk of a directory moves every file below it to its target and keeps the invariant linking the current tree to the original |
| `Relocate.RenameChildren` | setuptools/wheel.py:37-48 | renaming the files, then the directories that are missing at the destination, handles every name except the directories left for the walk, and those are kept only when `onlyMissing` is set |
| `Relocate.WalkFinished` | setuptools/wheel.py:35-48 | once every child is handled, the files processed are exactly the files below the directory |
| `Relocate.NothingLeftBelow` | setuptools/wheel.py:50-52 | after the walk no file remains below the source |
| `Relocate.Cleanup` | setuptools/wheel.py:50-52 | the cleanup raises `AssertionError` iff the source directory still holds files, and succeeds iff the source is gone or removable |
| `Relocate.Unpack` | setuptools/wheel.py:33-52 | on success the source directory is gone, and when no target lands under the source the files become exactly the relocation of the original files |
| `Relocate.ApartWhenDisjoint` | setuptools/wheel.py:33-40 | when neither directory contains the other, no rename target lands inside the source |
| `Relocate.ApartWhenNested` | setuptools/wheel.py:33-40 | when the source is `dst/<a>/<b>`, no rename target lands inside the source unless `dst/<a>/<b>/<a>/<b>` exists |
| `Relocate.MaxDepth` | setuptools/wheel.py:35 | the bound is at least the depth of every directory, which bounds the walk's recursion |
| `Scripts.ScriptsMovedAt` | setuptools/wheel.py:160-176 | after the move every non-`.pyc` entry of `.data/scripts` sits in `EGG-INFO/scripts` with its contents, nothing is left in the source, and other files are unchanged |
| `Scripts.NoBytecodeMoved` | setuptools/wheel.py:169-170 | no `.pyc` entry reaches `EGG-INFO/scripts` |
| `Scripts.MoveEntries` | setuptools/wheel.py:166-175 | a successful loop over the listed entries deletes exactly the bytecode and moves exactly the rest |
| `Scripts.RelocateScripts` | setuptools/wheel.py:160-176 | when `scripts` is absent nothing happens, and otherwise on success `EGG-INFO/scripts` is new and the files are exactly the scripts move of the old files |
| `Namespaces.NonEmpty` | setuptools/wheel.py:194 | the joined path holds exactly the non-empty components, since `os.path.join` skips empty ones |
| `Namespaces.InitNotModDir` | setuptools/wheel.py:194-195 | a module's `__init__.py` is never another module's directory |
| `Namespaces.FixAllOnlyAdds` | setuptools/wheel.py:193-198 | the fix keeps every directory and every existing file, and only adds `__init__.py` files of listed modules |
| `Namespaces.FixAllCovers` | setuptools/wheel.py:196-198 | after the fix every listed module whose directory exists has an `__init__.py` |
| `Namespaces.FixAllNothingToDo` | setuptools/wheel.py:196 | when every present module already has an `__init__.py`, the fix changes nothing |
| `Namespaces.FixAllIdempotent` | setuptools/wheel.py:193-198 | running the fix a second time changes nothing |
| `Namespaces.FixAllFailsIff` | setuptools/wheel.py:196-198 | the fix fails iff some listed module's directory path is found and is a file, so writing its `__init__.py` raises |
| `Namespaces.FixModules` | setuptools/wheel.py:193-198 | the loop succeeds iff the fix does, and then leaves exactly the fixed tree |
| `Namespaces.FixNamespacePackages` | setuptools/wheel.py:186-198 | without a `namespace_packages.txt` file the tree is unchanged (an error only when a directory has that name), and with one the call succeeds iff the fix of the file's words does, leaving the fixed tree |
| `Install.JoinedPlainName` | setuptools/wheel.py:121 | joining a slash-free name onto the egg directory adds exactly one component |
| `Install.ExtractedAt` | setuptools/wheel.py:118-119 | after mkdir and extraction the egg directory holds exactly the archive's entries |
| `Install.ConvertedLayout` | setuptools/wheel.py:118-158 | on success the egg directory was absent before, `EGG-INFO` exists, the `.dist-info` directory is gone, `requires.txt` holds the text, `PKG-INFO` holds the old `METADATA`, and the namespace listing is carried over |
| `Install.ConvertedElsewhere` | setuptools/wheel.py:142-158 | outside `EGG-INFO` and the old `.dist-info` directory the converted tree is the extracted one |
| `Install.NoDataConverted` | setuptools/wheel.py:118-158 | converting the metadata never creates the `.data` directory |
| `Install.ConvertMetadata` | setuptools/wheel.py:118-158 | the step sequence succeeds iff every os call does, and then leaves exactly the converted tree |
| `Install.UnpackCallApart` | setuptools/wheel.py:177-181 | the call `unpack(<name>.data/<d>, dest)` meets the condition under which `Relocate.Unpack` states its file-level result, unless the wheel holds `<name>.data/<d>/<name>.data/<d>` |
| `Install.MoveData` | setuptools/wheel.py:159-183 | without a `.data` directory nothing changes, and on success the `.data` directory is gone |
| `Install.DataDirIsOf` | setuptools/wheel.py:100-102 | the `.data` directory is the single component `<project>-<version>.data` inside the egg directory, and it is not `EGG-INFO` |
| `Install.FinishInstall` | setuptools/wheel.py:159-184 | on success the `.data` directory is gone, and with neither a `.data` directory nor a namespace listing the tree is unchanged |
| `Install.Validate` | setuptools/wheel.py:101-116 | fails with `DistInfoNotFound` iff no member qualifies, passes iff one qualifies and the version is supported, and passes with a name ending in `.dist-info` |
| `Install.DistInfoPathApart` | setuptools/wheel.py:121-143 | the joined `.dist-info` path is never `EGG-INFO`, so the rename moves it |
| `Install.InstallAsEgg` | setuptools/wheel.py:94-184 | a validation error leaves the tree unchanged, and on success the egg directory was absent, the converted tree is the one stated, and the `.data` directory is gone |

## Left out

- Zip archive internals are out of scope. The archive is given as its member names plus the tree
  that `extractall` creates. Path sanitising of member names (a leading `/`, `..`) is therefore
  not modelled.
- Reading and parsing the `WHEEL` file (`email.parser`, UTF-8 decoding) is out of scope. The
  `Wheel-Version` value is an input.
- Full PEP 440 is out of scope. Only release segments with an optional `dev` part are parsed
  (`Versions.ParseVersion`); any other text, a trailing `.` included, is a legacy version, which
  sorts below every PEP 440 version. So the model refuses some headers the real gate accepts,
  such as `1.1rc1`, `1.0.post1`, `1.1-dev0` or `v1.0`. Surrounding whitespace and upper-case
  `DEV` are not normalised either.
- The regex `\d` and `str.lower` cover ASCII only. Unicode digits and case mapping are not modelled.
- `Wheel.egg_name` is not part of this model. It needs `pkg_resources.Distribution.egg_name` and
  `distutils.util.get_platform`, which are outside the module.
- `pep425tags.get_supported()` is not part of this model. The supported set is a parameter of
  `Tags.IsCompatible`.
- `Distribution.from_location`, `dist.requires()` and marker stripping are outside the module.
  The requirement strings they yield are inputs.
- `write_requirements` and `SetuptoolsDistribution` are outside the module. The text written to
  `requires.txt` is a function parameter, and the model always writes it (even when empty).
- File permissions, `PY3` and the `with` blocks' resource handling are not modelled.
- `.` and `..` path components are not modelled. Paths are sequences of plain components.
- The order of `os.walk` and `os.listdir` is not modelled. The model visits the children of a
  directory in an arbitrary order, and its contracts hold for every order.
- Relocate.Walk: recursion is bounded by a fuel argument equal to the maximum directory depth
  (`Relocate.MaxDepth`). This only shortens the walk when the destination lies inside the source,
  which the source never does.
- Relocate.Unpack: the file-level result is stated only when no rename target lands inside the
  source directory (`ApartAll`). Otherwise the contract says only that success removes the source.
  At the installation's call this condition holds unless the wheel holds the path
  `<name>.data/<d>/<name>.data/<d>` (`Install.UnpackCallApart`).
- Scripts.RelocateScripts: requires that `.data/scripts` and `EGG-INFO/scripts` are unrelated
  paths, which `Install.DataDirIsOf` establishes for the installation.
- Namespaces.Parts: a namespace name is split on `.` only. A name holding `/` is treated as plain
  components and not as a path.
- Install.MoveData: on success it states only that the `.data` directory is gone (and that nothing
  changes without one). The file-level effect of each step is stated by
  `Scripts.RelocateScripts` and `Relocate.Unpack`, not composed into one tree for the sequence.
- Install.ConvertMetadata, Install.FinishInstall and Install.InstallAsEgg: the partial tree left
  behind by a failing os call is not described. Only the error kind is stated.
- Install.InstallAsEgg: requires that the project name and version hold no `/`, rather than that
  the wheel was parsed. `WheelName.ParsedFieldsHaveNoSlash` shows that every parsed wheel meets this.
- Install.FinishInstall: the tree after the data move and the namespace fix is stated only when
  there is no `.data` directory and no namespace listing (then it is unchanged). Otherwise the
  `.data` directory is known to be gone, and the remaining relocation facts are stated by the
  `Relocate`, `Scripts` and `Namespaces` members.
- Install.InstallAsEgg: the whole tree is stated only when there is no `.data` directory and no
  namespace listing. Otherwise the `.data` directory is known to be gone, and the remaining
  relocation facts are stated by the `Relocate`, `Scripts` and `Namespaces` members.
