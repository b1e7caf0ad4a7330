/** The wheel file-name grammar of setuptools/wheel.py (`WHEEL_NAME` and `Wheel.__init__`).

    The pattern `^(project.+?)-(version\d.*?)((-(build\d.*?))?-(py.+?)-(abi.+?)-(platform.+?))\.whl$`
    is modelled by the positions at which it splits a basename (a `Split`) and by a search
    that tries the positions in the order Python's backtracking engine does: the shortest
    project name first, then the shortest version, then the build-present alternative of the
    greedy `?` (shortest build first) before the build-absent one, then the shortest
    interpreter tag, the shortest ABI tag and the shortest platform tag. In Python's `re`,
    `.` matches any character except a newline, and `$` matches at the end of the string
    or just before one final newline. */
module WheelName {
  import opened Common

  predicate IsDigit(c: char) {
    '0' <= c <= '9'
  }

  /** `s[i..j]` may be matched by `.*`: it contains no newline. */
  predicate Run(s: string, i: int, j: int) {
    0 <= i <= j <= |s| && forall k :: i <= k < j ==> s[k] != '\n'
  }

  predicate DashAt(s: string, i: int) {
    0 <= i < |s| && s[i] == '-'
  }

  /** A field `s[st..e]` matched by `.+?` and followed by `-`. */
  predicate FieldOk(s: string, st: int, e: int) {
    st < e && Run(s, st, e) && DashAt(s, e)
  }

  /** A field matched by `\d.*?` and followed by `-`. */
  predicate DigitFieldOk(s: string, st: int, e: int) {
    FieldOk(s, st, e) && IsDigit(s[st])
  }

  /** `\.whl$` matches at position `i`. */
  predicate WhlAt(s: string, i: int) {
    0 <= i && i + 4 <= |s| && s[i..i + 4] == ".whl"
    && (i + 4 == |s| || (i + 5 == |s| && s[i + 4] == '\n'))
  }

  /** The platform field `s[st..e]`, followed by `.whl` and the end. */
  predicate PlatformOk(s: string, st: int, e: int) {
    st < e && Run(s, st, e) && WhlAt(s, e)
  }

  /** Where a match splits the basename: the project name is `s[..p]`, the version
      `s[p + 1..v]`, the build tag (when present) `s[v + 1..b]`, the interpreter tag ends at
      `e1`, the ABI tag at `e2` and the platform tag at `e3`. */
  datatype Split = Split(p: nat, v: nat, build: Option<nat>, e1: nat, e2: nat, e3: nat)

  function PyStart(v: nat, build: Option<nat>): nat {
    match build
    case Some(b) => b + 1
    case None => v + 1
  }

  predicate HeadOk(s: string, p: nat, v: nat, build: Option<nat>) {
    FieldOk(s, 0, p) && DigitFieldOk(s, p + 1, v)
    && (build.Some? ==> DigitFieldOk(s, v + 1, build.value))
  }

  /** The relational meaning of the pattern: `sp` is one way the pattern matches `s`. */
  predicate Matches(s: string, sp: Split) {
    HeadOk(s, sp.p, sp.v, sp.build)
    && FieldOk(s, PyStart(sp.v, sp.build), sp.e1)
    && FieldOk(s, sp.e1 + 1, sp.e2)
    && PlatformOk(s, sp.e2 + 1, sp.e3)
  }

  /** The greedy `?` tries the build-present alternative (shortest build first) before the absent one. */
  predicate BuildBefore(x: Option<nat>, y: Option<nat>) {
    x.Some? && (y.None? || x.value < y.value)
  }

  /** `a` is tried before `b` by the backtracking engine. */
  predicate Precedes(a: Split, b: Split) {
    a.p < b.p || (a.p == b.p && (a.v < b.v || (a.v == b.v && (BuildBefore(a.build, b.build)
      || (a.build == b.build && (a.e1 < b.e1 || (a.e1 == b.e1 && (a.e2 < b.e2
      || (a.e2 == b.e2 && a.e3 < b.e3)))))))))
  }

  // The search, one level per group of the pattern; each level tries its end position
  // from `k` upwards and descends into the next group.

  function FindPlatform(s: string, p: nat, v: nat, build: Option<nat>, e1: nat, e2: nat, k: nat): (r: Option<Split>)
    requires HeadOk(s, p, v, build) && FieldOk(s, PyStart(v, build), e1) && FieldOk(s, e1 + 1, e2)
    ensures r.Some? ==> Matches(s, r.value) && (r.value.p == p && r.value.v == v && r.value.build == build && r.value.e1 == e1 && r.value.e2 == e2 && r.value.e3 >= k)
    ensures forall o :: Matches(s, o) && (o.p == p && o.v == v && o.build == build && o.e1 == e1 && o.e2 == e2 && o.e3 >= k) ==> r.Some? && (o == r.value || Precedes(r.value, o))
    decreases |s| - k
  {
    if k > |s| then None
    else if PlatformOk(s, e2 + 1, k) then Some(Split(p, v, build, e1, e2, k))
    else FindPlatform(s, p, v, build, e1, e2, k + 1)
  }

  function FindAbi(s: string, p: nat, v: nat, build: Option<nat>, e1: nat, k: nat): (r: Option<Split>)
    requires HeadOk(s, p, v, build) && FieldOk(s, PyStart(v, build), e1)
    ensures r.Some? ==> Matches(s, r.value) && (r.value.p == p && r.value.v == v && r.value.build == build && r.value.e1 == e1 && r.value.e2 >= k)
    ensures forall o :: Matches(s, o) && (o.p == p && o.v == v && o.build == build && o.e1 == e1 && o.e2 >= k) ==> r.Some? && (o == r.value || Precedes(r.value, o))
    decreases |s| - k
  {
    if k > |s| then None
    else if FieldOk(s, e1 + 1, k) && FindPlatform(s, p, v, build, e1, k, k + 2).Some? then
      FindPlatform(s, p, v, build, e1, k, k + 2)
    else FindAbi(s, p, v, build, e1, k + 1)
  }

  function FindPy(s: string, p: nat, v: nat, build: Option<nat>, k: nat): (r: Option<Split>)
    requires HeadOk(s, p, v, build)
    ensures r.Some? ==> Matches(s, r.value) && (r.value.p == p && r.value.v == v && r.value.build == build && r.value.e1 >= k)
    ensures forall o :: Matches(s, o) && (o.p == p && o.v == v && o.build == build && o.e1 >= k) ==> r.Some? && (o == r.value || Precedes(r.value, o))
    decreases |s| - k
  {
    if k > |s| then None
    else if FieldOk(s, PyStart(v, build), k) && FindAbi(s, p, v, build, k, k + 2).Some? then
      FindAbi(s, p, v, build, k, k + 2)
    else FindPy(s, p, v, build, k + 1)
  }

  function FindBuild(s: string, p: nat, v: nat, k: nat): (r: Option<Split>)
    requires HeadOk(s, p, v, None)
    ensures r.Some? ==> Matches(s, r.value) && (r.value.p == p && r.value.v == v && r.value.build.Some? && r.value.build.value >= k)
    ensures forall o :: Matches(s, o) && (o.p == p && o.v == v && o.build.Some? && o.build.value >= k) ==> r.Some? && (o == r.value || Precedes(r.value, o))
    decreases |s| - k
  {
    if k > |s| then None
    else if DigitFieldOk(s, v + 1, k) && FindPy(s, p, v, Some(k), k + 2).Some? then
      FindPy(s, p, v, Some(k), k + 2)
    else FindBuild(s, p, v, k + 1)
  }

  /** The optional build group: present first, then absent. */
  function FindAfterVersion(s: string, p: nat, v: nat): (r: Option<Split>)
    requires HeadOk(s, p, v, None)
    ensures r.Some? ==> Matches(s, r.value) && (r.value.p == p && r.value.v == v)
    ensures forall o :: Matches(s, o) && (o.p == p && o.v == v) ==> r.Some? && (o == r.value || Precedes(r.value, o))
  {
    var withBuild := FindBuild(s, p, v, v + 2);
    if withBuild.Some? then withBuild else FindPy(s, p, v, None, v + 2)
  }

  function FindVersion(s: string, p: nat, k: nat): (r: Option<Split>)
    requires FieldOk(s, 0, p)
    ensures r.Some? ==> Matches(s, r.value) && (r.value.p == p && r.value.v >= k)
    ensures forall o :: Matches(s, o) && (o.p == p && o.v >= k) ==> r.Some? && (o == r.value || Precedes(r.value, o))
    decreases |s| - k
  {
    if k > |s| then None
    else if DigitFieldOk(s, p + 1, k) && FindAfterVersion(s, p, k).Some? then FindAfterVersion(s, p, k)
    else FindVersion(s, p, k + 1)
  }

  function FindProject(s: string, k: nat): (r: Option<Split>)
    ensures r.Some? ==> Matches(s, r.value) && (r.value.p >= k)
    ensures forall o :: Matches(s, o) && (o.p >= k) ==> r.Some? && (o == r.value || Precedes(r.value, o))
    decreases |s| - k
  {
    if k > |s| then None
    else if FieldOk(s, 0, k) && FindVersion(s, k, k + 2).Some? then FindVersion(s, k, k + 2)
    else FindProject(s, k + 1)
  }

  /** The match `re.match` returns: the first split in the engine's order, if any. */
  function FirstMatch(s: string): (r: Option<Split>)
    ensures r.Some? ==> Matches(s, r.value)
    ensures forall o :: Matches(s, o) ==> r.Some? && (o == r.value || Precedes(r.value, o))
  {
    FindProject(s, 1)
  }

  /** No split matches `s`. */
  ghost predicate NoMatch(s: string) {
    forall sp :: !Matches(s, sp)
  }

  /** `sp` matches `s` and every other match comes later in the engine's order. */
  ghost predicate IsFirstMatch(s: string, sp: Split) {
    Matches(s, sp) && forall o :: Matches(s, o) ==> o == sp || Precedes(sp, o)
  }

  lemma FirstMatchIsFirst(s: string)
    ensures FirstMatch(s).None? <==> NoMatch(s)
    ensures FirstMatch(s).Some? ==> IsFirstMatch(s, FirstMatch(s).value)
  {
  }

  // ---------------------------------------------------------------------
  // Wheel.__init__

  /** The attributes `Wheel.__init__` sets: the file name and the pattern's named groups
      (`build` is `None` when the optional group did not take part in the match). */
  datatype Wheel = Wheel(
    filename: string,
    projectName: string,
    version: string,
    build: Option<string>,
    pyVersion: string,
    abi: string,
    platform: string)

  /** The cut positions of `sp` are in order inside `s` (true of every match). */
  predicate Ordered(s: string, sp: Split) {
    && sp.p < sp.v && PyStart(sp.v, sp.build) <= sp.e1 < sp.e2 < sp.e3 <= |s|
    && (sp.build.Some? ==> sp.v < sp.build.value)
  }

  function FieldsOf(filename: string, s: string, sp: Split): Wheel
    requires Ordered(s, sp)
  {
    Wheel(filename, s[..sp.p], s[sp.p + 1..sp.v],
      (match sp.build case Some(b) => Some(s[sp.v + 1..b]) case None => None),
      s[PyStart(sp.v, sp.build)..sp.e1], s[sp.e1 + 1..sp.e2], s[sp.e2 + 1..sp.e3])
  }

  /** `Wheel(filename)`: the groups of the first match of the pattern against the basename,
      or `ValueError('invalid wheel name')` when the basename does not match. */
  function Parse(filename: string): (r: Result<Wheel>)
    ensures r.Err? <==> NoMatch(Basename(filename))
    ensures r.Err? ==> r.error == InvalidWheelName(filename)
    ensures r.Ok? ==> exists sp :: (IsFirstMatch(Basename(filename), sp)
      && r.value == FieldsOf(filename, Basename(filename), sp))
  {
    var s := Basename(filename);
    FirstMatchIsFirst(s);
    match FirstMatch(s)
    case None => Err(InvalidWheelName(filename))
    case Some(sp) => Ok(FieldsOf(filename, s, sp))
  }

  /** `project-version[-build]-py-abi-platform`, the name without its extension. */
  function Stem(w: Wheel): string {
    w.projectName + "-" + w.version + (match w.build case Some(b) => "-" + b case None => "")
    + "-" + w.pyVersion + "-" + w.abi + "-" + w.platform
  }

  /** The pieces a split cuts out of `s`, joined with dashes, are `s` without its extension. */
  lemma {:induction false} SplitRebuilds(filename: string, s: string, sp: Split)
    requires Matches(s, sp)
    ensures s[..sp.e3] == Stem(FieldsOf(filename, s, sp))
    ensures s[sp.e3..] == ".whl" || s[sp.e3..] == ".whl\n"
  {
    assert DashesAt(s, sp) && WhlAt(s, sp.e3);
    DashesRebuild(filename, s, sp);
  }

  /** Every field of `sp` is followed by a dash. */
  predicate DashesAt(s: string, sp: Split) {
    && Ordered(s, sp) && s[sp.p] == '-' && s[sp.v] == '-'
    && (sp.build.Some? ==> s[sp.build.value] == '-') && s[sp.e1] == '-' && s[sp.e2] == '-'
  }

  lemma DashesRebuild(filename: string, s: string, sp: Split)
    requires DashesAt(s, sp)
    ensures s[..sp.e3] == Stem(FieldsOf(filename, s, sp))
  {
    var p, v, e1, e2, e3 := sp.p, sp.v, sp.e1, sp.e2, sp.e3;
    var q := PyStart(v, sp.build);
    var w := FieldsOf(filename, s, sp);
    var withBuild := w.projectName + "-" + w.version + (match w.build case Some(b) => "-" + b case None => "");
    DashesRebuildHead(s, sp);
    assert s[..q - 1] == withBuild;
    ExtendByField(s, q, e1);
    ExtendByField(s, e1 + 1, e2);
    ExtendByField(s, e2 + 1, e3);
  }

  /** A prefix ending in a field that follows a dash. */
  lemma ExtendByField(s: string, i: int, j: int)
    requires 0 < i <= j <= |s| && s[i - 1] == '-'
    ensures s[..j] == s[..i - 1] + "-" + s[i..j]
  {
  }

  lemma DashesRebuildHead(s: string, sp: Split)
    requires DashesAt(s, sp)
    ensures s[..PyStart(sp.v, sp.build) - 1] == s[..sp.p] + "-" + s[sp.p + 1..sp.v]
      + (match sp.build case Some(b) => "-" + s[sp.v + 1..b] case None => "")
  {
    var p, v := sp.p, sp.v;
    assert s[..v] == s[..p] + [s[p]] + s[p + 1..v];
    match sp.build {
      case Some(b) =>
        assert s[..b] == s[..v] + [s[v]] + s[v + 1..b];
      case None =>
    }
  }

  lemma {:induction false} MatchRebuilds(filename: string, s: string, sp: Split)
    requires Matches(s, sp)
    ensures s == Stem(FieldsOf(filename, s, sp)) + ".whl" || s == Stem(FieldsOf(filename, s, sp)) + ".whl\n"
  {
    SplitRebuilds(filename, s, sp);
    assert s == s[..sp.e3] + s[sp.e3..];
  }

  /** The fields of a parsed wheel put back together give its basename again. */
  lemma ParseRebuildsBasename(filename: string)
    requires Parse(filename).Ok?
    ensures Parse(filename).value.filename == filename
    ensures Basename(filename) == Stem(Parse(filename).value) + ".whl"
         || Basename(filename) == Stem(Parse(filename).value) + ".whl\n"
  {
    var s := Basename(filename);
    var sp := FirstMatch(s).value;
    MatchRebuilds(filename, s, sp);
  }

  predicate WellShaped(w: Wheel) {
    && w.projectName != [] && w.version != [] && w.pyVersion != [] && w.abi != [] && w.platform != []
    && IsDigit(w.version[0])
    && (w.build.Some? ==> w.build.value != [] && IsDigit(w.build.value[0]))
    && '\n' !in Stem(w)
  }

  lemma {:induction false} MatchWellShaped(filename: string, s: string, sp: Split)
    requires Matches(s, sp)
    ensures WellShaped(FieldsOf(filename, s, sp))
  {
    SplitRebuilds(filename, s, sp);
    assert forall k :: 0 <= k < sp.e3 ==> s[..sp.e3][k] != '\n';
  }

  /** Whatever the split, every field of a parsed wheel is non-empty and free of newlines,
      and the version and the build tag start with a digit. */
  lemma ParsedWellShaped(filename: string)
    requires Parse(filename).Ok?
    ensures WellShaped(Parse(filename).value)
  {
    var s := Basename(filename);
    MatchWellShaped(filename, s, FirstMatch(s).value);
  }

  predicate NoDash(s: string, i: int, j: int)
    requires 0 <= i <= j <= |s|
  {
    forall k :: i <= k < j ==> s[k] != '-'
  }

  /** The split a wheel's own fields describe inside `Stem(w) + ".whl"`. */
  function SplitOf(w: Wheel): Split {
    var p := |w.projectName|;
    var v := p + 1 + |w.version|;
    var build := match w.build case Some(b) => Some(v + 1 + |b|) case None => None;
    var e1 := PyStart(v, build) + |w.pyVersion|;
    var e2 := e1 + 1 + |w.abi|;
    Split(p, v, build, e1, e2, e2 + 1 + |w.platform|)
  }

  lemma {:induction false} SplitOfCuts(w: Wheel)
    requires WellShaped(w)
    ensures CutsInto(Stem(w) + ".whl", SplitOf(w), w)
    ensures (Stem(w) + ".whl")[..SplitOf(w).e3] == Stem(w)
  {
    StemSlices(w);
  }

  lemma StemSlices(w: Wheel)
    ensures var s, sp := Stem(w) + ".whl", SplitOf(w);
      && sp.e3 + 4 == |s| && s[sp.e3..] == ".whl" && s[..sp.e3] == Stem(w)
      && s[..sp.p] == w.projectName && s[sp.p] == '-'
      && s[sp.p + 1..sp.v] == w.version && s[sp.v] == '-'
      && (sp.build.Some? ==> s[sp.v + 1..sp.build.value] == w.build.value && s[sp.build.value] == '-')
      && s[PyStart(sp.v, sp.build)..sp.e1] == w.pyVersion && s[sp.e1] == '-'
      && s[sp.e1 + 1..sp.e2] == w.abi && s[sp.e2] == '-'
      && s[sp.e2 + 1..sp.e3] == w.platform
  {
    var s, sp := Stem(w) + ".whl", SplitOf(w);
    var head := w.projectName + "-" + w.version;
    var withBuild := head + (match w.build case Some(b) => "-" + b case None => "");
    var tail := "-" + w.pyVersion + "-" + w.abi + "-" + w.platform + ".whl";
    assert s == withBuild + tail;
    assert |withBuild| == PyStart(sp.v, sp.build) - 1;
    StemHeadSlices(w, withBuild, tail);
    StemTailSlices(w, withBuild, tail);
  }

  lemma StemHeadSlices(w: Wheel, withBuild: string, tail: string)
    requires withBuild == w.projectName + "-" + w.version + (match w.build case Some(b) => "-" + b case None => "")
    requires tail != [] && tail[0] == '-'
    ensures var s, sp := withBuild + tail, SplitOf(w);
      && s[..sp.p] == w.projectName && s[sp.p] == '-'
      && s[sp.p + 1..sp.v] == w.version && s[sp.v] == '-'
      && (sp.build.Some? ==> s[sp.v + 1..sp.build.value] == w.build.value)
  {
    var s, sp := withBuild + tail, SplitOf(w);
    var head := w.projectName + "-" + w.version;
    assert s[..sp.v] == head;
    if w.build.None? {
      assert withBuild == head;
    }
  }

  lemma StemTailSlices(w: Wheel, withBuild: string, tail: string)
    requires |withBuild| == PyStart(SplitOf(w).v, SplitOf(w).build) - 1
    requires tail == "-" + w.pyVersion + "-" + w.abi + "-" + w.platform + ".whl"
    ensures var s, sp := withBuild + tail, SplitOf(w);
      && s[sp.e3..] == ".whl" && sp.e3 + 4 == |s|
      && s[PyStart(sp.v, sp.build) - 1] == '-'
      && s[PyStart(sp.v, sp.build)..sp.e1] == w.pyVersion && s[sp.e1] == '-'
      && s[sp.e1 + 1..sp.e2] == w.abi && s[sp.e2] == '-'
      && s[sp.e2 + 1..sp.e3] == w.platform
  {
    var s, sp := withBuild + tail, SplitOf(w);
    var n := |withBuild|;
    assert s[n..] == tail;
  }

  lemma BasenameOfPlainName(path: string)
    requires '/' !in path
    ensures Basename(path) == path
  {
  }

  /** When the first five fields of a match hold no dash, no other match is tried before it. */
  lemma {:induction false} DashFreeMatchIsFirst(s: string, sp: Split, r: Split)
    requires Matches(s, sp) && Matches(s, r)
    requires |s| == sp.e3 + 4
    requires NoDash(s, 0, sp.p) && NoDash(s, sp.p + 1, sp.v)
    requires NoDash(s, PyStart(sp.v, sp.build), sp.e1) && NoDash(s, sp.e1 + 1, sp.e2)
    requires sp.build.Some? ==> NoDash(s, sp.v + 1, sp.build.value)
    requires sp.build.None? ==> !IsDigit(s[sp.v + 1])
    ensures !Precedes(r, sp)
  {
    if Precedes(r, sp) {
      assert false;
    }
  }

  lemma SliceAvoids(s: string, i: int, j: int, x: string, c: char)
    requires 0 <= i <= j <= |s| && s[i..j] == x && c !in x
    ensures forall k :: i <= k < j ==> s[k] != c
  {
    forall k | i <= k < j ensures s[k] != c { assert s[i..j][k - i] in x; }
  }

  /** `s` and `sp` cut `s` into the fields of `w`. */
  predicate CutsInto(s: string, sp: Split, w: Wheel) {
    && sp.p < sp.v < sp.e1 < sp.e2 < sp.e3 && sp.e3 + 4 == |s| && s[sp.e3..] == ".whl"
    && w.build.Some? == sp.build.Some?
    && (sp.build.Some? ==> sp.v < sp.build.value < sp.e1)
    && s[..sp.p] == w.projectName && s[sp.p] == '-'
    && s[sp.p + 1..sp.v] == w.version && s[sp.v] == '-'
    && (sp.build.Some? ==> s[sp.v + 1..sp.build.value] == w.build.value && s[sp.build.value] == '-')
    && s[PyStart(sp.v, sp.build)..sp.e1] == w.pyVersion && s[sp.e1] == '-'
    && s[sp.e1 + 1..sp.e2] == w.abi && s[sp.e2] == '-'
    && s[sp.e2 + 1..sp.e3] == w.platform
  }

  lemma CutsMatch(s: string, sp: Split, w: Wheel)
    requires CutsInto(s, sp, w)
    requires w.projectName != [] && w.version != [] && w.pyVersion != [] && w.abi != [] && w.platform != []
    requires IsDigit(w.version[0]) && (w.build.Some? ==> w.build.value != [] && IsDigit(w.build.value[0]))
    requires '\n' !in s[..sp.e3]
    ensures Matches(s, sp)
    ensures FieldsOf(s, s, sp) == w.(filename := s)
  {
    SliceAvoids(s, 0, sp.e3, s[..sp.e3], '\n');
    if sp.build.Some? {
      assert s[sp.v + 1..sp.build.value][0] == w.build.value[0];
    }
    assert s[sp.p + 1..sp.v][0] == w.version[0];
    assert s[sp.e3..sp.e3 + 4] == ".whl";
  }

  lemma CutsNoDash(s: string, sp: Split, w: Wheel)
    requires CutsInto(s, sp, w) && DashFree(w)
    ensures NoDash(s, 0, sp.p) && NoDash(s, sp.p + 1, sp.v)
    ensures NoDash(s, PyStart(sp.v, sp.build), sp.e1) && NoDash(s, sp.e1 + 1, sp.e2)
    ensures sp.build.Some? ==> NoDash(s, sp.v + 1, sp.build.value)
    ensures sp.build.None? ==> !IsDigit(s[sp.v + 1])
  {
    var q := PyStart(sp.v, sp.build);
    SliceAvoids(s, 0, sp.p, w.projectName, '-');
    SliceAvoids(s, sp.p + 1, sp.v, w.version, '-');
    if sp.build.Some? {
      SliceAvoids(s, sp.v + 1, sp.build.value, w.build.value, '-');
    } else {
      assert s[q..sp.e1][0] == w.pyVersion[0];
    }
    SliceAvoids(s, q, sp.e1, w.pyVersion, '-');
    SliceAvoids(s, sp.e1 + 1, sp.e2, w.abi, '-');
  }

  /** The fields that must not contain a dash for a name to parse back into the same fields. */
  predicate DashFree(w: Wheel) {
    && '-' !in w.projectName && '-' !in w.version && '-' !in w.pyVersion && '-' !in w.abi
    && (w.build.Some? ==> '-' !in w.build.value)
    && (w.build.None? ==> w.pyVersion != [] && !IsDigit(w.pyVersion[0]))
  }

  /** When `sp` cuts `s` into dash-free fields, it is the first match. */
  lemma FirstMatchOfCuts(s: string, sp: Split, w: Wheel)
    requires CutsInto(s, sp, w) && WellShaped(w) && DashFree(w)
    requires '\n' !in s[..sp.e3]
    ensures FirstMatch(s) == Some(sp)
    ensures FieldsOf(s, s, sp) == w.(filename := s)
  {
    CutsMatch(s, sp, w);
    CutsNoDash(s, sp, w);
    DashFreeMatchIsFirst(s, sp, FirstMatch(s).value);
  }

  lemma StemFirstMatch(w: Wheel)
    requires WellShaped(w) && DashFree(w)
    ensures FirstMatch(Stem(w) + ".whl") == Some(SplitOf(w))
    ensures FieldsOf(Stem(w) + ".whl", Stem(w) + ".whl", SplitOf(w)) == w.(filename := Stem(w) + ".whl")
  {
    SplitOfCuts(w);
    FirstMatchOfCuts(Stem(w) + ".whl", SplitOf(w), w);
  }

  lemma ParsePlainName(filename: string, sp: Split)
    requires '/' !in filename && FirstMatch(filename) == Some(sp)
    ensures Parse(filename) == Ok(FieldsOf(filename, filename, sp))
  {
    BasenameOfPlainName(filename);
  }

  /** A dash-free project, version, build, interpreter and ABI tag parse back unchanged, as
      long as the interpreter tag of a build-less name does not start with a digit (it would
      otherwise be taken for a build tag). The platform tag may contain dashes. */
  lemma StemParsesBack(w: Wheel)
    requires WellShaped(w) && DashFree(w)
    requires '/' !in Stem(w)
    ensures Parse(Stem(w) + ".whl") == Ok(w.(filename := Stem(w) + ".whl"))
  {
    var s := Stem(w) + ".whl";
    StemFirstMatch(w);
    assert '/' !in s;
    ParsePlainName(s, SplitOf(w));
  }

  /** The engine's priority decides the split: the shortest version `1.0` is followed by
      `beta`, which cannot start a build tag, so `beta` becomes the interpreter tag and the
      platform tag takes `none-any`. */
  lemma BetaIsTheInterpreterTag(s: string)
    requires s == "foo-1.0-beta-py3-none-any.whl"
    ensures Parse(s) == Ok(Wheel(s, "foo", "1.0", None, "beta", "py3", "none-any"))
  {
    var w := Wheel(s, "foo", "1.0", None, "beta", "py3", "none-any");
    BetaWheel(w);
    StemParsesBack(w);
  }

  lemma BetaWheel(w: Wheel)
    requires w.projectName == "foo" && w.version == "1.0" && w.build == None
    requires w.pyVersion == "beta" && w.abi == "py3" && w.platform == "none-any"
    ensures Stem(w) + ".whl" == "foo-1.0-beta-py3-none-any.whl"
    ensures WellShaped(w) && DashFree(w) && '/' !in Stem(w)
  {
    BetaStem(w);
    BetaStemLacks(Stem(w), '\n');
    BetaStemLacks(Stem(w), '/');
  }

  lemma BetaStem(w: Wheel)
    requires w.projectName == "foo" && w.version == "1.0" && w.build == None
    requires w.pyVersion == "beta" && w.abi == "py3" && w.platform == "none-any"
    ensures Stem(w) == "foo-1.0-beta-py3-none-any"
  {
  }

  lemma BetaStemLacks(s: string, c: char)
    requires s == "foo-1.0-beta-py3-none-any"
    requires c == '\n' || c == '/'
    ensures c !in s
  {
  }
  /** The fields come from the base name of the file, so none of them holds a slash: the
      `.data` directory named after the project and version is one path component. */
  predicate PlainNames(w: Wheel) {
    '/' !in w.projectName && '/' !in w.version
  }

  lemma ParsedFieldsHaveNoSlash(filename: string)
    requires Parse(filename).Ok?
    ensures PlainNames(Parse(filename).value)
  {
    var s := Basename(filename);
    var sp := FirstMatch(s).value;
    assert DashesAt(s, sp);
    SliceLacks(s, 0, sp.p, '/');
    SliceLacks(s, sp.p + 1, sp.v, '/');
  }

  lemma SliceLacks(s: string, i: int, j: int, c: char)
    requires 0 <= i <= j <= |s| && c !in s
    ensures c !in s[i..j]
  {
    assert forall x :: x in s[i..j] ==> x in s;
  }
}
