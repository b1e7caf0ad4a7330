/** `Wheel.get_dist_info` (setuptools/wheel.py): the `.dist-info` directory of a wheel is the
    directory part of the first archive member, in archive order, whose directory name ends in
    `.dist-info` and whose canonical form starts with the canonical project name. Names are
    canonicalised by the rule of PEP 503 (`packaging.utils.canonicalize_name`): every run of
    `-`, `_` and `.` becomes one `-`, and letters are lower-cased. */
module DistInfo {
  import opened Common

  predicate IsSeparator(c: char) {
    c == '-' || c == '_' || c == '.'
  }

  predicate IsUpper(c: char) {
    'A' <= c <= 'Z'
  }

  function Lower(c: char): (l: char)
    ensures !IsUpper(l)
    ensures IsSeparator(l) <==> IsSeparator(c)
    ensures !IsUpper(c) ==> l == c
  {
    if IsUpper(c) then (c as int + 32) as char else c
  }

  /** `name` without its leading run of separators. */
  function SkipSeparators(name: string): (r: string)
    ensures |r| <= |name| && r == name[|name| - |r|..]
    ensures r == [] || !IsSeparator(r[0])
    ensures name != [] && IsSeparator(name[0]) ==> |r| < |name|
    decreases |name|
  {
    if name != [] && IsSeparator(name[0]) then SkipSeparators(name[1..]) else name
  }

  /** The canonical form: only `-` separates, never twice in a row, and nothing is upper case. */
  predicate IsCanonical(s: string) {
    && (forall k :: 0 <= k < |s| ==> !IsUpper(s[k]) && (IsSeparator(s[k]) ==> s[k] == '-'))
    && (forall k :: 0 <= k < |s| - 1 ==> !(s[k] == '-' && s[k + 1] == '-'))
  }

  /** `canonicalize_name`: `re.sub(r"[-_.]+", "-", name).lower()`. */
  function Canonicalize(name: string): (r: string)
    ensures |r| <= |name|
    ensures name != [] ==> r != [] && (r[0] == '-' <==> IsSeparator(name[0]))
    decreases |name|
  {
    if name == [] then []
    else if IsSeparator(name[0]) then
      var rest := SkipSeparators(name);
      "-" + Canonicalize(rest)
    else
      [Lower(name[0])] + Canonicalize(name[1..])
  }

  /** The result is in canonical form. */
  lemma {:induction false} CanonicalizeIsCanonical(name: string)
    ensures IsCanonical(Canonicalize(name))
    decreases |name|
  {
    if name != [] {
      if IsSeparator(name[0]) {
        var rest := SkipSeparators(name);
        CanonicalizeIsCanonical(rest);
        PrependCanonical('-', Canonicalize(rest));
      } else {
        CanonicalizeIsCanonical(name[1..]);
        PrependCanonical(Lower(name[0]), Canonicalize(name[1..]));
      }
    }
  }

  lemma PrependCanonical(c: char, s: string)
    requires IsCanonical(s) && !IsUpper(c)
    requires IsSeparator(c) ==> c == '-' && (s == [] || s[0] != '-')
    ensures IsCanonical([c] + s)
  {
    var r := [c] + s;
    assert forall k :: 1 <= k < |r| ==> r[k] == s[k - 1];
  }

  /** A canonical name is left as it is. */
  lemma {:induction false} CanonicalIsFixed(s: string)
    requires IsCanonical(s)
    ensures Canonicalize(s) == s
    decreases |s|
  {
    if s != [] {
      assert IsCanonical(s[1..]) by {
        assert forall k :: 0 <= k < |s| - 1 ==> s[1..][k] == s[k + 1];
      }
      if IsSeparator(s[0]) {
        assert s[0] == '-';
        assert SkipSeparators(s) == s[1..] by {
          if |s| > 1 {
            assert s[1] != '-';
          }
        }
      }
      CanonicalIsFixed(s[1..]);
    }
  }

  /** Canonicalising twice is canonicalising once. */
  lemma CanonicalizeIdempotent(name: string)
    ensures Canonicalize(Canonicalize(name)) == Canonicalize(name)
  {
    CanonicalizeIsCanonical(name);
    CanonicalIsFixed(Canonicalize(name));
  }

  /** The test of `get_dist_info`: a `.dist-info` directory whose canonical name starts with
      the canonical project name. */
  predicate IsDistInfoFor(dir: string, projectName: string) {
    EndsWith(dir, ".dist-info") && StartsWith(Canonicalize(dir), Canonicalize(projectName))
  }

  /** The test applied to one archive member name. */
  predicate Qualifies(member: string, projectName: string) {
    IsDistInfoFor(Dirname(member), projectName)
  }

  /** `i` is the first member, in archive order, whose directory passes the test. */
  predicate FirstDistInfoAt(names: seq<string>, projectName: string, i: int) {
    && 0 <= i < |names|
    && Qualifies(names[i], projectName)
    && forall j :: 0 <= j < i ==> !Qualifies(names[j], projectName)
  }

  /** The scan of the `for` loop from position `from` on, over the outcomes of the test. */
  function FirstTrue(flags: seq<bool>, from: nat): (r: Option<nat>)
    requires from <= |flags|
    ensures r.Some? ==> from <= r.value < |flags| && flags[r.value]
    ensures r.Some? ==> forall j :: from <= j < r.value ==> !flags[j]
    ensures r.None? ==> forall j :: from <= j < |flags| ==> !flags[j]
    decreases |flags| - from
  {
    if from == |flags| then None
    else if flags[from] then Some(from)
    else FirstTrue(flags, from + 1)
  }

  /** `get_dist_info` over the member names of the archive (`zf.namelist()`). */
  function GetDistInfo(names: seq<string>, projectName: string): (r: Result<string>)
    ensures r.Err? <==> forall i :: 0 <= i < |names| ==> !Qualifies(names[i], projectName)
    ensures r.Err? ==> r.error == DistInfoNotFound
    ensures r.Ok? ==> exists i :: FirstDistInfoAt(names, projectName, i) && r.value == Dirname(names[i])
  {
    var flags := seq(|names|, i requires 0 <= i < |names| => Qualifies(names[i], projectName));
    assert forall i :: 0 <= i < |names| ==> flags[i] == Qualifies(names[i], projectName);
    match FirstTrue(flags, 0)
    case None => Err(DistInfoNotFound)
    case Some(i) =>
      assert FirstDistInfoAt(names, projectName, i);
      Ok(Dirname(names[i]))
  }

  /** The directory found is the one of the first qualifying member: any member whose directory
      passes the test comes no earlier than it. */
  lemma GetDistInfoIsFirst(names: seq<string>, projectName: string, i: int)
    requires 0 <= i < |names| && Qualifies(names[i], projectName)
    ensures GetDistInfo(names, projectName).Ok?
    ensures exists j :: (0 <= j <= i && FirstDistInfoAt(names, projectName, j)
      && GetDistInfo(names, projectName).value == Dirname(names[j]))
  {
  }

  /** `posixpath.dirname(d + "/" + f)` is `d` for a file name `f`. */
  lemma DirnameOfJoin(d: string, f: string)
    requires d != [] && d[|d| - 1] != '/' && '/' !in f
    ensures Dirname(d + "/" + f) == d
  {
    var p := d + "/" + f;
    var i := AfterLastSlash(p);
    assert p[|d|] == '/';
    assert i == |d| + 1;
    assert p[..i] == d + "/";
    assert !AllSlashes(p[..i]) by {
      assert p[..i][|d| - 1] == d[|d| - 1];
    }
    assert (d + "/")[..|d|] == d;
  }

  /** Skipping a separator run stops inside `a` when `a` ends in another character. */
  lemma {:induction false} SkipSeparatorsAppend(a: string, b: string)
    requires a != [] && !IsSeparator(a[|a| - 1])
    ensures SkipSeparators(a + b) == SkipSeparators(a) + b
    decreases |a|
  {
    if IsSeparator(a[0]) {
      assert (a + b)[1..] == a[1..] + b;
      SkipSeparatorsAppend(a[1..], b);
    }
  }

  /** `s` does not end inside a separator run. */
  predicate EndsClean(s: string) {
    s == [] || !IsSeparator(s[|s| - 1])
  }

  lemma {:induction false} SkipKeepsLast(a: string)
    requires a != [] && !IsSeparator(a[|a| - 1])
    ensures SkipSeparators(a) != [] && SkipSeparators(a)[|SkipSeparators(a)| - 1] == a[|a| - 1]
    ensures EndsClean(SkipSeparators(a))
    decreases |a|
  {
    if IsSeparator(a[0]) {
      assert |a| > 1;
      SkipKeepsLast(a[1..]);
    }
  }

  /** Canonicalisation works piecewise at a boundary that does not split a separator run. */
  lemma {:induction false} CanonicalizeAppend(a: string, b: string)
    requires EndsClean(a)
    ensures Canonicalize(a + b) == Canonicalize(a) + Canonicalize(b)
    decreases |a|, 1
  {
    if a == [] {
      assert a + b == b;
    } else if IsSeparator(a[0]) {
      CanonicalizeAppendRun(a, b);
    } else {
      assert (a + b)[1..] == a[1..] + b;
      CanonicalizeAppend(a[1..], b);
      assert (a + b)[0] == a[0];
    }
  }

  lemma {:induction false} CanonicalizeAppendRun(a: string, b: string)
    requires a != [] && IsSeparator(a[0]) && !IsSeparator(a[|a| - 1])
    ensures Canonicalize(a + b) == Canonicalize(a) + Canonicalize(b)
    decreases |a|, 0
  {
    var rest := SkipSeparators(a);
    SkipKeepsLast(a);
    SkipSeparatorsAppend(a, b);
    CanonicalizeRun(a, a[0]);
    CanonicalizeRun(a + b, a[0]);
    CanonicalizeAppend(rest, b);
    AssociateDash(Canonicalize(rest), Canonicalize(b));
  }

  lemma AssociateDash(x: string, y: string)
    ensures "-" + (x + y) == ("-" + x) + y
  {
  }

  lemma CanonicalizeRun(x: string, c: char)
    requires x != [] && x[0] == c && IsSeparator(c)
    ensures Canonicalize(x) == "-" + Canonicalize(SkipSeparators(x))
  {
  }

  /** A member of the directory `<project>-<version>.dist-info` that a wheel builder writes
      passes the test for that project. */
  lemma NamedDistInfoQualifies(projectName: string, version: string, file: string)
    requires projectName != [] && !IsSeparator(projectName[|projectName| - 1])
    requires '/' !in file
    ensures Qualifies(projectName + "-" + version + ".dist-info" + "/" + file, projectName)
  {
    var rest := "-" + version + ".dist-info";
    var dir := projectName + rest;
    assert projectName + "-" + version + ".dist-info" == dir;
    DirnameOfJoin(dir, file);
    CanonicalizeAppend(projectName, rest);
  }
}
