/** Small value types and string helpers shared by the wheel-conversion model. */
module Common {

  datatype Option<+T> = None | Some(value: T)

  /** Error kinds raised by the converter (all are `ValueError` or an OS error in the program). */
  datatype Error =
    | InvalidWheelName(filename: string)
    | DistInfoNotFound
    | UnsupportedWheelVersion
    | OsError
    | AssertionFailed

  datatype Result<+T> = Ok(value: T) | Err(error: Error)

  predicate StartsWith(s: string, prefix: string) {
    prefix <= s
  }

  predicate EndsWith(s: string, suffix: string) {
    |suffix| <= |s| && s[|s| - |suffix|..] == suffix
  }

  // ---------------------------------------------------------------------
  // str.split(sep) for a one-character separator

  /** Index of the first occurrence of `c` in `s` at or after `from`, or `|s|`. */
  function IndexFrom(s: string, c: char, from: nat): (i: nat)
    requires from <= |s|
    ensures from <= i <= |s|
    ensures i < |s| ==> s[i] == c
    ensures forall k :: from <= k < i ==> s[k] != c
    decreases |s| - from
  {
    if from == |s| then from
    else if s[from] == c then from
    else IndexFrom(s, c, from + 1)
  }

  /** Python's `s.split(c)`: every occurrence of `c` separates two (possibly empty) fields. */
  function SplitOn(s: string, c: char): (parts: seq<string>)
    ensures |parts| >= 1
    ensures forall k :: 0 <= k < |parts| ==> c !in parts[k]
    decreases |s|
  {
    var i := IndexFrom(s, c, 0);
    if i == |s| then [s] else [s[..i]] + SplitOn(s[i + 1..], c)
  }

  /** The first field of `s.split(c)` starts `s`, and the last one ends it. */
  lemma SplitEnds(s: string, c: char)
    ensures var parts := SplitOn(s, c); parts[0] <= s && EndsWith(s, parts[|parts| - 1])
  {
    SplitFirst(s, c);
    SplitLast(s, c);
  }

  lemma SplitFirst(s: string, c: char)
    ensures SplitOn(s, c)[0] <= s
  {
    var i := IndexFrom(s, c, 0);
    if i < |s| {
      assert SplitOn(s, c)[0] == s[..i];
    }
  }

  lemma {:induction false} SplitLast(s: string, c: char)
    ensures var parts := SplitOn(s, c); EndsWith(s, parts[|parts| - 1])
    decreases |s|
  {
    var i := IndexFrom(s, c, 0);
    if i < |s| {
      var tail := s[i + 1..];
      var rest := SplitOn(tail, c);
      SplitLast(tail, c);
      assert SplitOn(s, c) == [s[..i]] + rest;
      EndsWithSuffix(s, i + 1, rest[|rest| - 1]);
    }
  }

  lemma EndsWithSuffix(s: string, k: nat, x: string)
    requires k <= |s| && EndsWith(s[k..], x)
    ensures EndsWith(s, x)
  {
    assert s[|s| - |x|..] == s[k..][|s| - k - |x|..];
  }

  /** `c.join(parts)`. */
  function Join(parts: seq<string>, c: char): string
    decreases |parts|
  {
    if |parts| == 0 then []
    else if |parts| == 1 then parts[0]
    else parts[0] + [c] + Join(parts[1..], c)
  }

  /** Splitting undoes joining: `c.join(s.split(c)) == s`. */
  lemma {:induction false} JoinSplit(s: string, c: char)
    ensures Join(SplitOn(s, c), c) == s
    decreases |s|
  {
    var i := IndexFrom(s, c, 0);
    if i < |s| {
      var tail := SplitOn(s[i + 1..], c);
      assert SplitOn(s, c) == [s[..i]] + tail;
      JoinSplit(s[i + 1..], c);
      JoinCons(s[..i], tail, c);
      assert s == s[..i] + [c] + s[i + 1..];
    }
  }

  lemma JoinCons(p: string, rest: seq<string>, c: char)
    requires rest != []
    ensures Join([p] + rest, c) == p + [c] + Join(rest, c)
  {
    assert ([p] + rest)[1..] == rest;
  }

  /** Joining undoes splitting when no field contains the separator. */
  lemma {:induction false} SplitJoin(parts: seq<string>, c: char)
    requires |parts| >= 1
    requires forall k :: 0 <= k < |parts| ==> c !in parts[k]
    ensures SplitOn(Join(parts, c), c) == parts
    decreases |parts|
  {
    var s := Join(parts, c);
    if |parts| == 1 {
      IndexNotFound(s, c, 0);
    } else {
      var rest := Join(parts[1..], c);
      assert s == parts[0] + [c] + rest;
      IndexAfterPrefix(parts[0], c, rest);
      assert s[|parts[0]| + 1..] == rest;
      assert s[..|parts[0]|] == parts[0];
      SplitJoin(parts[1..], c);
    }
  }

  lemma IndexNotFound(s: string, c: char, from: nat)
    requires from <= |s|
    requires c !in s
    ensures IndexFrom(s, c, from) == |s|
    decreases |s| - from
  {
    if from < |s| {
      assert s[from] in s;
      IndexNotFound(s, c, from + 1);
    }
  }

  lemma IndexAfterPrefix(a: string, c: char, b: string)
    requires c !in a
    ensures IndexFrom(a + [c] + b, c, 0) == |a|
  {
    var s := a + [c] + b;
    var i := IndexFrom(s, c, 0);
    assert s[|a|] == c;
    forall k | 0 <= k < |a| ensures s[k] != c {
      assert s[k] == a[k];
      assert a[k] in a;
    }
  }

  // ---------------------------------------------------------------------
  // str.split() with no argument: runs of whitespace separate, empty fields dropped

  predicate IsSpace(ch: char) {
    ch == ' ' || ch == '\t' || ch == '\n' || ch == '\r' || ch == '\U{B}' || ch == '\U{C}'
    || ('\U{1C}' <= ch <= '\U{1F}') || ch == '\U{85}' || ch == '\U{A0}' || ch == '\U{1680}'
    || ('\U{2000}' <= ch <= '\U{200A}') || ch == '\U{2028}' || ch == '\U{2029}' || ch == '\U{202F}'
    || ch == '\U{205F}' || ch == '\U{3000}'
  }

  /** Length of the leading run of non-space characters. */
  function WordEnd(s: string, from: nat): (i: nat)
    requires from <= |s|
    ensures from <= i <= |s|
    ensures i < |s| ==> IsSpace(s[i])
    ensures forall k :: from <= k < i ==> !IsSpace(s[k])
    decreases |s| - from
  {
    if from == |s| || IsSpace(s[from]) then from else WordEnd(s, from + 1)
  }

  /** Python's `s.split()`. */
  function Words(s: string): (ws: seq<string>)
    ensures forall k :: 0 <= k < |ws| ==> ws[k] != [] && forall j :: 0 <= j < |ws[k]| ==> !IsSpace(ws[k][j])
    decreases |s|
  {
    if s == [] then []
    else if IsSpace(s[0]) then Words(s[1..])
    else
      var i := WordEnd(s, 0);
      [s[..i]] + Words(s[i..])
  }

  /** A word that ends where whitespace or the text ends is read whole. */
  lemma {:induction false} WordEndAt(w: string, tail: string, from: nat)
    requires from <= |w|
    requires forall j :: 0 <= j < |w| ==> !IsSpace(w[j])
    requires tail == [] || IsSpace(tail[0])
    ensures WordEnd(w + tail, from) == |w|
    decreases |w| - from
  {
    var s := w + tail;
    if from < |w| {
      assert s[from] == w[from];
      WordEndAt(w, tail, from + 1);
    } else if tail != [] {
      assert s[from] == tail[0];
    }
  }

  /** Words that are non-empty and hold no whitespace, joined by single spaces, split back
      into the same words. */
  lemma {:induction false} WordsJoin(ws: seq<string>)
    requires forall k :: 0 <= k < |ws| ==> ws[k] != [] && forall j :: 0 <= j < |ws[k]| ==> !IsSpace(ws[k][j])
    ensures Words(Join(ws, ' ')) == ws
    decreases |ws|
  {
    if |ws| == 1 {
      var w := ws[0];
      WordEndAt(w, [], 0);
      assert w + [] == w && w[|w|..] == [];
    } else if |ws| > 1 {
      var w, rest := ws[0], Join(ws[1..], ' ');
      var s := Join(ws, ' ');
      assert s == w + ([' '] + rest);
      WordEndAt(w, [' '] + rest, 0);
      assert s[0] == w[0];
      assert s[..|w|] == w && s[|w|..] == [' '] + rest;
      assert ([' '] + rest)[1..] == rest;
      WordsJoin(ws[1..]);
    }
  }

  /** The characters of `s` that are not whitespace, in order. */
  function NonSpace(s: string): string
    decreases |s|
  {
    if s == [] then [] else (if IsSpace(s[0]) then [] else [s[0]]) + NonSpace(s[1..])
  }

  /** The words one after another. */
  function Concat(ws: seq<string>): string
    decreases |ws|
  {
    if ws == [] then [] else ws[0] + Concat(ws[1..])
  }

  lemma {:induction false} NonSpaceOfWord(w: string, tail: string)
    requires forall j :: 0 <= j < |w| ==> !IsSpace(w[j])
    ensures NonSpace(w + tail) == w + NonSpace(tail)
    decreases |w|
  {
    if w != [] {
      assert (w + tail)[1..] == w[1..] + tail;
      NonSpaceOfWord(w[1..], tail);
      assert w == [w[0]] + w[1..];
    } else {
      assert w + tail == tail;
    }
  }

  /** The words of `s`, in order and put together, are `s` with its whitespace removed. */
  lemma {:induction false} WordsCover(s: string)
    ensures Concat(Words(s)) == NonSpace(s)
    decreases |s|
  {
    if s != [] {
      if IsSpace(s[0]) {
        WordsCover(s[1..]);
      } else {
        var i := WordEnd(s, 0);
        WordsCover(s[i..]);
        assert ([s[..i]] + Words(s[i..]))[1..] == Words(s[i..]);
        NonSpaceOfWord(s[..i], s[i..]);
        assert s[..i] + s[i..] == s;
      }
    }
  }

  // ---------------------------------------------------------------------
  // Python's ordering of `str` values: lexicographic by code point

  predicate LexLe(a: string, b: string)
    decreases |a|
  {
    if a == [] then true
    else if b == [] then false
    else if a[0] != b[0] then a[0] < b[0]
    else LexLe(a[1..], b[1..])
  }

  lemma {:induction false} LexLeReflexive(a: string)
    ensures LexLe(a, a)
    decreases |a|
  {
    if a != [] {
      LexLeReflexive(a[1..]);
    }
  }

  lemma {:induction false} LexLeTotal(a: string, b: string)
    ensures LexLe(a, b) || LexLe(b, a)
    decreases |a|
  {
    if a != [] && b != [] && a[0] == b[0] {
      LexLeTotal(a[1..], b[1..]);
    }
  }

  lemma {:induction false} LexLeAntisymmetric(a: string, b: string)
    requires LexLe(a, b) && LexLe(b, a)
    ensures a == b
    decreases |a|
  {
    if a != [] && b != [] {
      LexLeAntisymmetric(a[1..], b[1..]);
      assert a == [a[0]] + a[1..];
      assert b == [b[0]] + b[1..];
    }
  }

  lemma {:induction false} LexLeTransitive(a: string, b: string, c: string)
    requires LexLe(a, b) && LexLe(b, c)
    ensures LexLe(a, c)
    decreases |a|
  {
    if a != [] && b != [] && c != [] && a[0] == b[0] && b[0] == c[0] {
      LexLeTransitive(a[1..], b[1..], c[1..]);
    }
  }

  predicate Sorted(s: seq<string>) {
    forall i, j :: 0 <= i < j < |s| ==> LexLe(s[i], s[j])
  }

  /** Inserting `x` into a sorted list keeps it sorted and adds exactly `x`. */
  function Insert(x: string, s: seq<string>): (r: seq<string>)
    requires Sorted(s)
    ensures Sorted(r)
    ensures multiset(r) == multiset(s) + multiset{x}
    decreases |s|
  {
    if s == [] then [x]
    else if LexLe(x, s[0]) then
      assert forall j :: 0 <= j < |s| ==> LexLe(x, s[j]) by {
        forall j | 0 <= j < |s| ensures LexLe(x, s[j]) {
          if j > 0 { LexLeTransitive(x, s[0], s[j]); }
        }
      }
      [x] + s
    else
      LexLeTotal(x, s[0]);
      var t := Insert(x, s[1..]);
      assert s == [s[0]] + s[1..];
      assert forall j :: 0 <= j < |t| ==> LexLe(s[0], t[j]) by {
        forall j | 0 <= j < |t| ensures LexLe(s[0], t[j]) {
          assert t[j] in multiset(t);
          assert t[j] in multiset(s[1..]) || t[j] == x;
          if t[j] != x {
            var k :| 0 <= k < |s[1..]| && s[1..][k] == t[j];
            assert s[k + 1] == t[j];
          }
        }
      }
      [s[0]] + t
  }

  /** Python's `sorted(s)` on a list of strings: a sorted permutation of `s`. */
  function Sort(s: seq<string>): (r: seq<string>)
    ensures Sorted(r)
    ensures multiset(r) == multiset(s)
    decreases |s|
  {
    if s == [] then []
    else
      assert s == [s[0]] + s[1..];
      Insert(s[0], Sort(s[1..]))
  }

  /** Two sorted permutations of the same list are equal: `sorted` has only one possible result. */
  lemma {:induction false} SortedUnique(a: seq<string>, b: seq<string>)
    requires Sorted(a) && Sorted(b)
    requires multiset(a) == multiset(b)
    ensures a == b
    decreases |a|
  {
    if a != [] {
      assert |b| == |a| by { assert |multiset(a)| == |multiset(b)|; }
      SortedHeads(a, b);
      DropHead(a);
      DropHead(b);
      SortedUnique(a[1..], b[1..]);
    }
  }

  /** Sorted permutations of one another start with the same string. */
  lemma SortedHeads(a: seq<string>, b: seq<string>)
    requires Sorted(a) && Sorted(b) && a != [] && b != []
    requires multiset(a) == multiset(b)
    ensures a[0] == b[0]
  {
    assert a[0] in multiset(b) && b[0] in multiset(a);
    var i :| 0 <= i < |b| && b[i] == a[0];
    var j :| 0 <= j < |a| && a[j] == b[0];
    assert LexLe(b[0], a[0]) by { if i > 0 { assert LexLe(b[0], b[i]); } else { LexLeReflexive(a[0]); } }
    assert LexLe(a[0], b[0]) by { if j > 0 { assert LexLe(a[0], a[j]); } else { LexLeReflexive(a[0]); } }
    LexLeAntisymmetric(a[0], b[0]);
  }

  lemma DropHead(a: seq<string>)
    requires Sorted(a) && a != []
    ensures Sorted(a[1..])
    ensures multiset(a[1..]) == multiset(a) - multiset{a[0]}
  {
    assert a == [a[0]] + a[1..];
    assert forall i, j :: 0 <= i < j < |a| - 1 ==> a[1..][i] == a[i + 1] && a[1..][j] == a[j + 1];
  }

  // ---------------------------------------------------------------------
  // POSIX path names (posixpath)

  /** Index just after the last `/` of `path`, or 0 when there is none. */
  function AfterLastSlash(path: string): (i: nat)
    ensures i <= |path|
    ensures i > 0 ==> path[i - 1] == '/'
    ensures forall k :: i <= k < |path| ==> path[k] != '/'
    decreases |path|
  {
    if path == [] then 0
    else if path[|path| - 1] == '/' then |path|
    else AfterLastSlash(path[..|path| - 1])
  }

  /** `os.path.basename` (POSIX): the longest suffix of `path` without a `/`. */
  function Basename(path: string): (b: string)
    ensures '/' !in b && EndsWith(path, b)
    ensures |b| < |path| ==> path[|path| - |b| - 1] == '/'
  {
    path[AfterLastSlash(path)..]
  }

  predicate AllSlashes(s: string) {
    forall k :: 0 <= k < |s| ==> s[k] == '/'
  }

  /** `s.rstrip('/')`. */
  function StripTrailingSlashes(s: string): (r: string)
    ensures r <= s && AllSlashes(s[|r|..])
    ensures r == [] || r[|r| - 1] != '/'
    decreases |s|
  {
    if s != [] && s[|s| - 1] == '/' then StripTrailingSlashes(s[..|s| - 1]) else s
  }

  /** `posixpath.dirname`: everything before the last `/`, without the trailing slashes,
      unless that part consists of slashes only. */
  function Dirname(path: string): string {
    var head := path[..AfterLastSlash(path)];
    if head != [] && !AllSlashes(head) then StripTrailingSlashes(head) else head
  }

  /** The path is its directory part, a run of slashes and its base name; the directory part
      is empty exactly when the path holds no slash, and it ends in a slash only when it
      consists of slashes. */
  lemma DirnameSplits(path: string)
    ensures Dirname(path) <= path
    ensures exists slashes :: AllSlashes(slashes) && path == Dirname(path) + slashes + Basename(path)
    ensures Dirname(path) == [] <==> '/' !in path
    ensures var d := Dirname(path); d == [] || AllSlashes(d) || d[|d| - 1] != '/'
  {
    var head := path[..AfterLastSlash(path)];
    assert path == head + Basename(path);
    if head != [] && !AllSlashes(head) {
      var d := StripTrailingSlashes(head);
      assert head == d + head[|d|..];
      assert d != [];
      assert '/' in path by { assert path[|head| - 1] == '/'; }
    } else {
      assert head == [] ==> '/' !in path;
      assert head != [] ==> path[|head| - 1] == '/';
      assert path == head + [] + Basename(path);
    }
  }
}
