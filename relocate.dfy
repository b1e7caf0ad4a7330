/** The file relocations of `Wheel._install_as_egg` (setuptools/wheel.py): the merge of a
    `.data` subdirectory into the egg by `unpack`, the move of the scripts into
    `EGG-INFO/scripts`, and the repair of namespace packages by `_fix_namespace_packages`.

    What happens to the files is stated with `Relocated`: after files below `src` have moved
    to the same place below `dst`, a file that moved is found at its new place (replacing
    whatever file was there) and every other file is where it was. */
module Relocate {
  import opened Common
  import opened FileTree

  /** Where a path below `src` goes when the contents of `src` move to `dst`. */
  function Target(p: Path, src: Path, dst: Path): Path {
    if |src| <= |p| then dst + p[|src|..] else dst
  }

  function Targets(moved: set<Path>, src: Path, dst: Path): set<Path> {
    set p | p in moved :: Target(p, src, dst)
  }

  /** The files of `f0` after the files in `moved`, all below `src`, have moved to `dst`. */
  function Relocated(f0: map<Path, string>, moved: set<Path>, src: Path, dst: Path): map<Path, string> {
    var targets := Targets(moved, src, dst);
    map q | q in (f0.Keys - moved) + targets ::
      if q in targets then Get(f0, src + q[|dst|..]) else Get(f0, q)
  }

  /** No file below `src` has its target inside `src`. */
  predicate Apart(f0: map<Path, string>, src: Path, dst: Path) {
    forall p :: p in f0 && src < p ==> !(src <= Target(p, src, dst))
  }

  predicate BelowAll(s: set<Path>, src: Path) {
    forall p :: p in s ==> src < p
  }

  /** The files of `f` at or below `a`. */
  function FilesAt(f: map<Path, string>, a: Path): set<Path> {
    set p | p in f && a <= p
  }

  lemma TargetsIff(moved: set<Path>, src: Path, dst: Path, q: Path)
    requires BelowAll(moved, src)
    ensures q in Targets(moved, src, dst) <==> dst <= q && src + q[|dst|..] in moved
  {
    if q in Targets(moved, src, dst) {
      var p :| p in moved && q == Target(p, src, dst);
      assert q[|dst|..] == p[|src|..];
      assert src + p[|src|..] == p;
    }
    if dst <= q && src + q[|dst|..] in moved {
      var p := src + q[|dst|..];
      assert p[|src|..] == q[|dst|..];
      assert Target(p, src, dst) == q;
    }
  }

  lemma RelocatedAt(f0: map<Path, string>, moved: set<Path>, src: Path, dst: Path, q: Path)
    requires BelowAll(moved, src)
    ensures q in Relocated(f0, moved, src, dst) <==>
      (dst <= q && src + q[|dst|..] in moved) || (q in f0 && q !in moved)
    ensures dst <= q && src + q[|dst|..] in moved ==> Relocated(f0, moved, src, dst)[q] == Get(f0, src + q[|dst|..])
    ensures !(dst <= q && src + q[|dst|..] in moved) && q in f0 && q !in moved ==> Relocated(f0, moved, src, dst)[q] == f0[q]
  {
    TargetsIff(moved, src, dst, q);
  }

  lemma SourceOfTarget(a: Path, src: Path, dst: Path, q: Path)
    requires src <= a && Target(a, src, dst) <= q
    ensures dst <= q && src + q[|dst|..] == a + q[|Target(a, src, dst)|..]
  {
    var b := Target(a, src, dst);
    assert q == b + q[|b|..];
    assert q[|dst|..] == a[|src|..] + q[|b|..];
    assert a == src + a[|src|..];
  }

  lemma TargetOfSource(src: Path, dst: Path, q: Path, a: Path)
    requires dst <= q && src <= a && a <= src + q[|dst|..]
    ensures Target(src + q[|dst|..], src, dst) == q && Target(a, src, dst) <= q
  {
    var s := src + q[|dst|..];
    assert s[|src|..] == q[|dst|..];
    assert a[|src|..] <= s[|src|..];
  }

  /** Renaming the entry `a` below `src` to its target keeps the files as `Relocated` says,
      with the files at or below `a` added to those that moved. */
  lemma MoveStep(f0: map<Path, string>, moved: set<Path>, src: Path, dst: Path, a: Path)
    requires Apart(f0, src, dst) && BelowAll(moved, src) && moved <= f0.Keys
    requires src < a
    requires forall p :: p in moved ==> !(a <= p)
    requires forall q :: q in Relocated(f0, moved, src, dst) ==> !(Target(a, src, dst) < q)
    requires Target(a, src, dst) in Relocated(f0, moved, src, dst) ==> a in Relocated(f0, moved, src, dst)
    ensures MoveFiles(Relocated(f0, moved, src, dst), a, Target(a, src, dst))
      == Relocated(f0, moved + FilesAt(f0, a), src, dst)
  {
    var f := Relocated(f0, moved, src, dst);
    var b := Target(a, src, dst);
    var moved2 := moved + FilesAt(f0, a);
    var lhs := MoveFiles(f, a, b);
    var rhs := Relocated(f0, moved2, src, dst);
    assert BelowAll(moved2, src);
    forall q
      ensures q in lhs <==> q in rhs
      ensures q in lhs ==> lhs[q] == rhs[q]
    {
      MoveStepAt(f0, moved, src, dst, a, q);
    }
    assert lhs == rhs;
  }

  lemma MoveStepAt(f0: map<Path, string>, moved: set<Path>, src: Path, dst: Path, a: Path, q: Path)
    requires Apart(f0, src, dst) && BelowAll(moved, src) && moved <= f0.Keys
    requires src < a
    requires forall p :: p in moved ==> !(a <= p)
    requires forall q :: q in Relocated(f0, moved, src, dst) ==> !(Target(a, src, dst) < q)
    requires Target(a, src, dst) in Relocated(f0, moved, src, dst) ==> a in Relocated(f0, moved, src, dst)
    ensures var lhs := MoveFiles(Relocated(f0, moved, src, dst), a, Target(a, src, dst));
      var rhs := Relocated(f0, moved + FilesAt(f0, a), src, dst);
      (q in lhs <==> q in rhs) && (q in lhs ==> lhs[q] == rhs[q])
  {
    var f := Relocated(f0, moved, src, dst);
    var b := Target(a, src, dst);
    var moved2 := moved + FilesAt(f0, a);
    assert BelowAll(moved2, src);
    MoveFilesAt(f, a, b, q);
    RelocatedAt(f0, moved2, src, dst, q);
    RelocatedAt(f0, moved, src, dst, q);
    if b <= q {
      SourceOfTarget(a, src, dst, q);
      var p := a + q[|b|..];
      RelocatedAt(f0, moved, src, dst, p);
      if dst <= p && src + p[|dst|..] in moved {
        TargetOfSource(src, dst, p, src + p[|dst|..]);
        assert false;
      }
      if q in f0 && q !in moved2 {
        assert q in f && q == b;
        assert p == a;
        RelocatedAt(f0, moved, src, dst, a);
        assert p in f0;
      }
    } else {
      if dst <= q && src + q[|dst|..] in FilesAt(f0, a) {
        TargetOfSource(src, dst, q, a);
      }
      if dst <= q && a <= q {
        NoReturn(f0, src, dst, q);
      }
    }
  }

  /** A path at or below both `src` and `dst` is never the target of a file below `src`. */
  lemma NoReturn(f0: map<Path, string>, src: Path, dst: Path, q: Path)
    requires Apart(f0, src, dst) && src <= q && dst <= q
    ensures !(src + q[|dst|..] in f0 && src < src + q[|dst|..])
  {
    TargetOfSource(src, dst, q, src);
  }

  // ---------------------------------------------------------------------
  // unpack: the walk that renames, and what it keeps

  /** No entry of `t0` below `src` has its target at or below `src`. Without this the walk
      could move an entry back into the directory it is walking. */
  ghost predicate ApartAll(t0: Tree, src: Path, dst: Path) {
    forall p :: Exists(t0, p) && src < p ==> !(src <= Target(p, src, dst))
  }

  /** The state of a walk of `src` that started from `t0`: the files in `moved` have gone to
      their targets and every directory still at or below `src` was there at the start. */
  ghost predicate Tracking(t: Tree, t0: Tree, moved: set<Path>, src: Path, dst: Path) {
    && WellFormed(t) && WellFormed(t0) && ApartAll(t0, src, dst)
    && BelowAll(moved, src) && moved <= t0.files.Keys
    && t.files == Relocated(t0.files, moved, src, dst)
    && (forall p :: p in t.dirs && src <= p ==> p in t0.dirs)
  }

  /** An entry at or below `src` during the walk was there at the start; a file there has not
      moved yet. */
  lemma EntryBelowSrc(t: Tree, t0: Tree, moved: set<Path>, src: Path, dst: Path, p: Path)
    requires Tracking(t, t0, moved, src, dst)
    requires Exists(t, p) && src <= p
    ensures p in t.dirs ==> p in t0.dirs
    ensures p in t.files ==> p in t0.files && p !in moved && t.files[p] == t0.files[p]
  {
    if p in t.files {
      RelocatedAt(t0.files, moved, src, dst, p);
      if dst <= p && src + p[|dst|..] in moved {
        TargetOfSource(src, dst, p, src + p[|dst|..]);
        assert false;
      }
    }
  }

  /** The directories `os.renames` creates for a target outside `src` are outside `src`. */
  lemma MakeDirsOutside(t: Tree, src: Path, b: Path, q: Path)
    requires b != [] && !(src <= b)
    requires q in MakeDirs(t, Parent(b)).dirs && src <= q
    ensures q in t.dirs
  {
  }

  /** What a successful `os.rename(a, b)` finds at `b`: nothing inside it, and a file there
      only when `a` is a file. */
  lemma RenameTargetClear(t1: Tree, a: Path, b: Path)
    requires WellFormed(t1) && RenameOk(t1, a, b)
    ensures forall q :: q in t1.files ==> !(b < q)
    ensures b in t1.files ==> a in t1.files
  {
    forall q | q in t1.files && b < q
      ensures false
    {
      AncestorIsDir(t1, q, b);
    }
  }

  /** A directory at or below `src` after moving `a` was there at the start: whatever arrives
      at the target lies outside `src`. */
  lemma MovedDirBelowSrc(t: Tree, t1: Tree, t0: Tree, moved: set<Path>, src: Path, dst: Path, a: Path, q: Path)
    requires Tracking(t, t0, moved, src, dst)
    requires forall p :: p in t1.dirs && src <= p ==> p in t.dirs
    requires src < a
    requires q in MovePaths(t1.dirs, a, Target(a, src, dst)) && src <= q
    ensures q in t0.dirs
  {
    var b := Target(a, src, dst);
    MovePathsIff(t1.dirs, a, b, q);
    if b <= q {
      TargetOfOrigin(a, src, dst, q);
      assert false;
    }
  }

  /** A path below the target of `a` is the target of the path at the same place below `a`. */
  lemma TargetOfOrigin(a: Path, src: Path, dst: Path, q: Path)
    requires src <= a && Target(a, src, dst) <= q
    ensures src <= a + q[|Target(a, src, dst)|..]
    ensures Target(a + q[|Target(a, src, dst)|..], src, dst) == q
  {
    var b := Target(a, src, dst);
    var p := a + q[|b|..];
    assert p[|src|..] == a[|src|..] + q[|b|..];
  }

  /** One `os.renames` of an entry `a` below `src` to its target, during the walk: if it
      succeeds, the files at or below `a` join those that moved. */
  lemma RenameStep(t: Tree, t0: Tree, moved: set<Path>, src: Path, dst: Path, a: Path)
    requires Tracking(t, t0, moved, src, dst)
    requires src < a && forall p :: p in moved ==> !(a <= p)
    requires Renames(t, a, Target(a, src, dst)).1
    ensures Tracking(Renames(t, a, Target(a, src, dst)).0, t0, moved + FilesAt(t0.files, a), src, dst)
  {
    var b := Target(a, src, dst);
    var t1 := if Exists(t, Parent(b)) then t else MakeDirs(t, Parent(b));
    var t2 := Renames(t, a, b).0;
    assert RenameOk(t1, a, b);
    if a in t.files {
      EntryBelowSrc(t, t0, moved, src, dst, a);
    }
    assert Exists(t0, a);
    if !Exists(t, Parent(b)) {
      MakeDirsWellFormed(t, Parent(b));
    }
    RenamesWellFormed(t, a, b);
    RenameTargetClear(t1, a, b);
    assert t2.files == MoveFiles(t.files, a, b);
    MoveStep(t0.files, moved, src, dst, a);
    forall q | q in t1.dirs && src <= q
      ensures q in t.dirs
    {
      if !Exists(t, Parent(b)) {
        MakeDirsOutside(t, src, b, q);
      }
    }
    forall q | q in t2.dirs && src <= q
      ensures q in t0.dirs
    {
      MovedDirBelowSrc(t, t1, t0, moved, src, dst, a, q);
    }
  }

  /** The files of `f` strictly below `a`. */
  function FilesBelow(f: map<Path, string>, a: Path): set<Path> {
    set p | p in f && a < p
  }

  /** The target of an entry named `c` in the directory `src + rel` is `c` in `dst + rel`,
      the `os.path.join(dst_dir, subdir, c)` of the program. */
  lemma TargetOfChild(src: Path, rel: Path, dst: Path, c: string)
    ensures Target(src + rel + [c], src, dst) == dst + rel + [c]
  {
    assert (src + rel + [c])[|src|..] == rel + [c];
  }

  /** The walk of the directory `here` below `src`, part way: the files in `done` have moved
      and they lie below the names already `handled`, each of which is finished; none of the
      files that had moved before lies at or below `here`. */
  ghost predicate Progress(t: Tree, t0: Tree, moved: set<Path>, done: set<Path>, handled: set<string>,
                           src: Path, dst: Path, here: Path)
  {
    && Tracking(t, t0, moved + done, src, dst)
    && (forall p :: p in moved ==> !(here <= p))
    && (forall p :: p in done ==> here < p && p[|here|] in handled)
    && (forall c :: c in handled ==> FilesAt(t0.files, here + [c]) <= done)
  }

  /** Renaming the entry `c` of `here` to its target finishes `c`. */
  lemma RenameChildStep(t: Tree, t0: Tree, moved: set<Path>, done: set<Path>, handled: set<string>,
                        src: Path, dst: Path, here: Path, c: string)
    requires Progress(t, t0, moved, done, handled, src, dst, here)
    requires src <= here && c !in handled
    requires Renames(t, here + [c], Target(here + [c], src, dst)).1
    ensures Progress(Renames(t, here + [c], Target(here + [c], src, dst)).0, t0, moved,
                     done + FilesAt(t0.files, here + [c]), handled + {c}, src, dst, here)
  {
    var a := here + [c];
    RenameStep(t, t0, moved + done, src, dst, a);
    TrackingSame(Renames(t, a, Target(a, src, dst)).0, t0, (moved + done) + FilesAt(t0.files, a),
                 moved + (done + FilesAt(t0.files, a)), src, dst);
    FilesAtChild(t0.files, here, c);
  }

  lemma TrackingSame(t: Tree, t0: Tree, moved1: set<Path>, moved2: set<Path>, src: Path, dst: Path)
    requires Tracking(t, t0, moved1, src, dst) && moved1 == moved2
    ensures Tracking(t, t0, moved2, src, dst)
  {
  }

  lemma FilesAtChild(f: map<Path, string>, here: Path, c: string)
    ensures forall p :: p in FilesAt(f, here + [c]) ==> here < p && p[|here|] == c
  {
    forall p | p in FilesAt(f, here + [c])
      ensures here < p && p[|here|] == c
    {
      assert p[|here|] == (here + [c])[|here|];
    }
  }

  /** A walk of the subdirectory `d` of `here` that moved every file below it finishes `d`. */
  lemma WalkedChildStep(before: Tree, t: Tree, t0: Tree, moved: set<Path>, done: set<Path>, handled: set<string>,
                        src: Path, dst: Path, here: Path, d: string)
    requires Progress(before, t0, moved, done, handled, src, dst, here)
    requires Tracking(t, t0, (moved + done) + FilesBelow(t0.files, here + [d]), src, dst)
    requires here + [d] in t0.dirs
    ensures Progress(t, t0, moved, done + FilesBelow(t0.files, here + [d]), handled + {d}, src, dst, here)
  {
    var a := here + [d];
    assert (moved + done) + FilesBelow(t0.files, a) == moved + (done + FilesBelow(t0.files, a));
    forall p | p in FilesBelow(t0.files, a)
      ensures here < p && p[|here|] == d
    {
      assert p[|here|] == a[|here|];
    }
    forall p | p in FilesAt(t0.files, a)
      ensures p in FilesBelow(t0.files, a)
    {
      assert p != a;
    }
  }

  /** Once every entry listed in `here` at the start is finished, every file that was below
      `here` has moved. */
  lemma WalkFinished(start: Tree, t0: Tree, moved: set<Path>, done: set<Path>, handled: set<string>,
                     src: Path, dst: Path, here: Path)
    requires Tracking(start, t0, moved, src, dst)
    requires forall p :: p in moved ==> !(here <= p)
    requires done <= t0.files.Keys
    requires forall p :: p in done ==> here < p
    requires forall c :: c in handled ==> FilesAt(t0.files, here + [c]) <= done
    requires ChildFiles(start, here) + ChildDirs(start, here) <= handled
    ensures done == FilesBelow(t0.files, here)
  {
    forall p | p in FilesBelow(t0.files, here)
      ensures p in done
    {
      ListedAbove(start, t0, moved, src, dst, here, p);
      assert p in FilesAt(t0.files, here + [p[|here|]]);
    }
  }

  /** A file below `here` that has not moved lies at or below an entry listed in `here`. */
  lemma ListedAbove(start: Tree, t0: Tree, moved: set<Path>, src: Path, dst: Path, here: Path, p: Path)
    requires Tracking(start, t0, moved, src, dst)
    requires forall p :: p in moved ==> !(here <= p)
    requires p in t0.files && here < p
    ensures here + [p[|here|]] <= p
    ensures p[|here|] in ChildFiles(start, here) + ChildDirs(start, here)
  {
    RelocatedAt(t0.files, moved, src, dst, p);
    assert p in start.files;
    var c := p[|here|];
    var a := here + [c];
    assert a == p[..|here| + 1];
    assert a[..|here|] == here && a[|here|] == c;
    if |p| == |here| + 1 {
      assert a == p;
    } else {
      AncestorIsDir(start, p, a);
    }
  }

  /** A directory `here` that the walk does not find has no file below it that still has to
      move. */
  lemma MissingDirEmpty(t: Tree, t0: Tree, moved: set<Path>, src: Path, dst: Path, here: Path)
    requires Tracking(t, t0, moved, src, dst)
    requires forall p :: p in moved ==> !(here <= p)
    requires here !in t.dirs
    ensures FilesBelow(t0.files, here) == {}
  {
    forall p | p in FilesBelow(t0.files, here)
      ensures false
    {
      RelocatedAt(t0.files, moved, src, dst, p);
      AncestorIsDir(t, p, here);
    }
  }

  /** What a walk of `src + rel` relies on: the walk of `src` is tracked from `t0`, nothing
      that has moved lies at or below `src + rel`, and no directory of `t0` is deeper than
      `fuel` levels below `src + rel`. */
  ghost predicate WalkReady(t: Tree, t0: Tree, moved: set<Path>, src: Path, dst: Path, rel: Path, fuel: nat) {
    && Tracking(t, t0, moved, src, dst)
    && (forall p :: p in moved ==> !(src + rel <= p))
    && (forall p :: p in t0.dirs ==> |p| <= |src| + |rel| + fuel)
  }

  /** The renaming pass of `unpack`: `os.walk(src_dir)` visits `src + rel`, renames each file
      to the same place below `dst`, renames each subdirectory whose target does not exist,
      and descends into the others. It returns false when an `os.renames` fails. A directory
      the walk does not find is skipped, as `os.walk` ignores errors. The descent is bounded
      by `fuel`, which the caller takes from the depth of the tree. */
  method Walk(fs: FileSystem, src: Path, dst: Path, rel: Path, fuel: nat, ghost t0: Tree, ghost moved: set<Path>)
    returns (ok: bool)
    requires fs.Valid()
    modifies fs
    ensures fs.Valid()
    ensures ok && WalkReady(old(fs.tree), t0, moved, src, dst, rel, fuel) ==>
      Tracking(fs.tree, t0, moved + FilesBelow(t0.files, src + rel), src, dst)
    decreases fuel, 1
  {
    var here := src + rel;
    ghost var start := fs.tree;
    ghost var ready := WalkReady(start, t0, moved, src, dst, rel, fuel);
    if here !in fs.tree.dirs {
      if ready {
        MissingDirEmpty(start, t0, moved, src, dst, here);
        TrackingSame(start, t0, moved, moved + FilesBelow(t0.files, here), src, dst);
      }
      return true;
    }
    var files := ChildFiles(fs.tree, here);
    var dirs := ChildDirs(fs.tree, here);
    ChildrenDisjoint(fs.tree, here);
    if ready {
      TrackingSame(start, t0, moved, moved + {}, src, dst);
    }
    var kept: set<string>;
    ghost var done: set<Path>, handled: set<string>;
    ok, kept, done, handled := RenameChildren(fs, src, dst, rel, files, false, ready, t0, moved, {}, {});
    if !ok {
      return;
    }
    ok, kept, done, handled := RenameChildren(fs, src, dst, rel, dirs, true, ready, t0, moved, done, handled);
    if !ok {
      return;
    }
    ok, done, handled := WalkChildren(fs, src, dst, rel, fuel, kept, ready, start, t0, moved, done, handled);
    if ok && ready {
      WalkFinished(start, t0, moved, done, handled, src, dst, here);
    }
  }

  /** `os.renames` of each entry of `src + rel` named in `names` to its target, in any order;
      with `onlyMissing`, as for subdirectories, an entry whose target exists is kept for the
      descent instead. */
  method RenameChildren(fs: FileSystem, src: Path, dst: Path, rel: Path, names: set<string>, onlyMissing: bool,
                        ghost ready: bool, ghost t0: Tree, ghost moved: set<Path>,
                        ghost done0: set<Path>, ghost handled0: set<string>)
    returns (ok: bool, kept: set<string>, ghost done: set<Path>, ghost handled: set<string>)
    requires fs.Valid()
    requires ready ==> Progress(fs.tree, t0, moved, done0, handled0, src, dst, src + rel)
    requires names !! handled0
    modifies fs
    ensures fs.Valid()
    ensures kept <= names && (!onlyMissing ==> kept == {})
    ensures ok ==> handled == handled0 + (names - kept)
    ensures ok && ready ==> Progress(fs.tree, t0, moved, done, handled, src, dst, src + rel)
  {
    var here := src + rel;
    kept, done, handled := {}, done0, handled0;
    var rest := names;
    ok := true;
    while rest != {}
      invariant fs.Valid()
      invariant rest <= names && kept <= names && rest !! kept
      invariant handled == handled0 + (names - rest - kept)
      invariant !onlyMissing ==> kept == {}
      invariant ok && ready ==> Progress(fs.tree, t0, moved, done, handled, src, dst, here)
      decreases rest
    {
      var c :| c in rest;
      TargetOfChild(src, rel, dst, c);
      if onlyMissing && Exists(fs.tree, dst + rel + [c]) {
        kept := kept + {c};
      } else {
        ghost var before := fs.tree;
        ok := fs.RenameTree(here + [c], dst + rel + [c]);
        if !ok {
          return;
        }
        if ready {
          RenameChildStep(before, t0, moved, done, handled, src, dst, here, c);
        }
        done := done + FilesAt(t0.files, here + [c]);
        handled := handled + {c};
      }
      rest := rest - {c};
    }
  }

  /** The descent of `os.walk` into the subdirectories `kept` of `src + rel`, which the
      renaming left in place. */
  method WalkChildren(fs: FileSystem, src: Path, dst: Path, rel: Path, fuel: nat, kept: set<string>,
                      ghost ready: bool, ghost start: Tree, ghost t0: Tree, ghost moved: set<Path>,
                      ghost done0: set<Path>, ghost handled0: set<string>)
    returns (ok: bool, ghost done: set<Path>, ghost handled: set<string>)
    requires fs.Valid()
    requires ready ==> WalkReady(start, t0, moved, src, dst, rel, fuel)
    requires ready ==> Progress(fs.tree, t0, moved, done0, handled0, src, dst, src + rel)
    requires kept <= ChildDirs(start, src + rel) && kept !! handled0
    modifies fs
    ensures fs.Valid()
    ensures ok ==> handled == handled0 + kept
    ensures ok && ready ==> Progress(fs.tree, t0, moved, done, handled, src, dst, src + rel)
    decreases fuel, 0
  {
    var here := src + rel;
    done, handled := done0, handled0;
    var rest := kept;
    ok := true;
    while rest != {}
      invariant fs.Valid()
      invariant rest <= kept
      invariant handled == handled0 + (kept - rest)
      invariant ready ==> Progress(fs.tree, t0, moved, done, handled, src, dst, here)
      decreases rest
    {
      var d :| d in rest;
      assert d !in handled;
      if ready {
        ChildReady(start, fs.tree, t0, moved, done, handled, src, dst, rel, fuel, d);
      }
      if fuel > 0 {
        ghost var before := fs.tree;
        var sub := rel + [d];
        assert src + sub == here + [d];
        ok := Walk(fs, src, dst, sub, fuel - 1, t0, moved + done);
        if !ok {
          return;
        }
        if ready {
          assert Tracking(fs.tree, t0, (moved + done) + FilesBelow(t0.files, here + [d]), src, dst);
          WalkedChildStep(before, fs.tree, t0, moved, done, handled, src, dst, here, d);
        }
        done := done + FilesBelow(t0.files, here + [d]);
      }
      handled := handled + {d};
      rest := rest - {d};
    }
  }

  /** A subdirectory listed at the start of the walk of `src + rel` and not yet finished is
      ready to be walked: it was in `t0`, so the fuel is not exhausted. */
  lemma ChildReady(start: Tree, t: Tree, t0: Tree, moved: set<Path>, done: set<Path>, handled: set<string>,
                   src: Path, dst: Path, rel: Path, fuel: nat, d: string)
    requires WalkReady(start, t0, moved, src, dst, rel, fuel)
    requires Progress(t, t0, moved, done, handled, src, dst, src + rel)
    requires d in ChildDirs(start, src + rel) && d !in handled
    ensures src + rel + [d] in t0.dirs && fuel > 0
    ensures WalkReady(t, t0, moved + done, src, dst, rel + [d], fuel - 1)
  {
    var here := src + rel;
    var q :| q in start.dirs && |q| == |here| + 1 && q[..|here|] == here && q[|here|] == d;
    assert q == here + [d];
    assert src + (rel + [d]) == here + [d];
  }

  /** The files and the directories of one directory have different names. */
  lemma ChildrenDisjoint(t: Tree, p: Path)
    requires WellFormed(t)
    ensures ChildFiles(t, p) !! ChildDirs(t, p)
  {
    forall c | c in ChildFiles(t, p)
      ensures c !in ChildDirs(t, p)
    {
      var q1 :| q1 in t.files && |q1| == |p| + 1 && q1[..|p|] == p && q1[|p|] == c;
      assert q1 == p + [c];
      forall q2 | q2 in t.dirs && |q2| == |p| + 1 && q2[..|p|] == p
        ensures q2[|p|] != c
      {
        assert q2 == q2[..|p|] + [q2[|p|]];
      }
    }
  }

  // ---------------------------------------------------------------------
  // unpack: the clean-up and the whole

  /** Nothing has moved yet. */
  lemma RelocatedNone(f0: map<Path, string>, src: Path, dst: Path)
    ensures Relocated(f0, {}, src, dst) == f0
  {
  }

  /** After every file below `src` has moved, no file is left below `src`. */
  lemma NothingLeftBelow(t: Tree, t0: Tree, src: Path, dst: Path, q: Path)
    requires Tracking(t, t0, FilesBelow(t0.files, src), src, dst)
    requires q in t.files
    ensures !(src < q)
  {
    if src < q {
      EntryBelowSrc(t, t0, FilesBelow(t0.files, src), src, dst, q);
    }
  }

  /** Targets never fall inside `src` when neither of `src` and `dst` contains the other. */
  lemma ApartWhenDisjoint(t0: Tree, src: Path, dst: Path)
    requires !(src <= dst) && !(dst <= src)
    ensures ApartAll(t0, src, dst)
  {
    forall p | Exists(t0, p) && src < p
      ensures !(src <= Target(p, src, dst))
    {
    }
  }

  /** The case of the installation: `src` is `dst/<a>/<b>` (a subdirectory of the `.data`
      directory, unpacked into the egg that holds it). A target falls inside `src` only for an
      entry below `dst/<a>/<b>/<a>/<b>`, so the condition holds unless that path exists. */
  lemma ApartWhenNested(t0: Tree, dst: Path, a: string, b: string)
    requires WellFormed(t0)
    requires !Exists(t0, dst + [a, b] + [a, b])
    ensures ApartAll(t0, dst + [a, b], dst)
  {
    var src := dst + [a, b];
    var nested := src + [a, b];
    forall p | Exists(t0, p) && src < p
      ensures !(src <= Target(p, src, dst))
    {
      if src <= Target(p, src, dst) {
        var t := Target(p, src, dst);
        assert t == dst + p[|src|..];
        assert t[|dst|] == a && t[|dst| + 1] == b;
        assert p[..|nested|] == nested;
        if p == nested {
        } else {
          AncestorIsDir(t0, p, nested);
        }
      }
    }
  }

  /** The depth of the deepest directory: how far the walk can descend. */
  method MaxDepth(t: Tree) returns (n: nat)
    ensures forall p :: p in t.dirs ==> |p| <= n
  {
    n := 0;
    var rest := t.dirs;
    while rest != {}
      invariant rest <= t.dirs
      invariant forall p :: p in t.dirs - rest ==> |p| <= n
      decreases rest
    {
      var p :| p in rest;
      if |p| > n {
        n := |p|;
      }
      rest := rest - {p};
    }
  }

  /** The clean-up pass of `unpack`: the top-down walk of `src` lists `src` first; a file
      still directly in it fails the `assert`, and otherwise `os.rmdir(src)` removes it or,
      when something is left inside, fails. Once `src` is gone the walk has nothing more to
      visit. A missing `src` is not visited at all. */
  method Cleanup(fs: FileSystem, src: Path) returns (r: Result<()>)
    requires fs.Valid()
    modifies fs
    ensures fs.Valid()
    ensures r == Err(AssertionFailed) <==> src in old(fs.tree.dirs) && ChildFiles(old(fs.tree), src) != {}
    ensures r.Ok? <==> src !in old(fs.tree.dirs) || RmdirOk(old(fs.tree), src)
    ensures r.Err? ==> r.error in {AssertionFailed, OsError}
    ensures fs.tree == if r.Ok? && src in old(fs.tree.dirs) then RemoveDir(old(fs.tree), src) else old(fs.tree)
  {
    if src in fs.tree.dirs {
      if ChildFiles(fs.tree, src) != {} {
        return Err(AssertionFailed);
      }
      var ok := fs.Rmdir(src);
      if !ok {
        return Err(OsError);
      }
    }
    return Ok(());
  }

  /** `unpack(src_dir, dst_dir)`: move everything below `src` to the same place below `dst`,
      merging into directories that already exist there, then remove `src`. When no target
      falls inside `src`, the `assert` of the clean-up holds, and on success every file that
      was below `src` is at its target, replacing the file there, every other file is where
      it was, and `src` is gone. */
  method Unpack(fs: FileSystem, src: Path, dst: Path) returns (r: Result<()>)
    requires fs.Valid()
    modifies fs
    ensures fs.Valid()
    ensures r.Ok? ==> src !in fs.tree.dirs
    ensures r.Err? ==> r.error in {AssertionFailed, OsError}
    ensures ApartAll(old(fs.tree), src, dst) ==> r != Err(AssertionFailed)
    ensures ApartAll(old(fs.tree), src, dst) && r.Ok? ==>
      fs.tree.files == Relocated(old(fs.tree.files), FilesBelow(old(fs.tree.files), src), src, dst)
  {
    ghost var t0 := fs.tree;
    ghost var apart := ApartAll(t0, src, dst);
    var depth := MaxDepth(fs.tree);
    if apart {
      RelocatedNone(t0.files, src, dst);
      assert src + [] == src;
    }
    var ok := Walk(fs, src, dst, [], depth, t0, {});
    if !ok {
      return Err(OsError);
    }
    ghost var walked := fs.tree;
    if apart {
      assert src + [] == src;
      TrackingSame(walked, t0, {} + FilesBelow(t0.files, src + []), FilesBelow(t0.files, src), src, dst);
      forall q | q in walked.files
        ensures !(src < q)
      {
        NothingLeftBelow(walked, t0, src, dst, q);
      }
    }
    r := Cleanup(fs, src);
  }
}
