/** The wheel format-version gate of `Wheel._install_as_egg` (setuptools/wheel.py): the
    `Wheel-Version` header is parsed with `parse_version` and accepted only when
    `parse_version('1.0') <= v < parse_version('2.0dev0')`.

    Versions are modelled on the part of PEP 440 this gate needs: a release segment `N(.N)*`
    and an optional developmental release `devN` (optionally preceded by `.`). Release segments
    compare numerically with missing trailing parts read as zero, and a developmental release
    comes before the final release it develops. A header that is not of this form parses to a
    legacy version, which `pkg_resources` sorts below every PEP 440 version. */
module Versions {
  import opened Common

  datatype Version = Version(release: seq<nat>, dev: Option<nat>)

  /** What `parse_version` returns. */
  datatype Parsed = Pep440(version: Version) | Legacy(text: string)

  // ---------------------------------------------------------------------
  // Ordering

  /** The leading release number, zero once the segment is used up. */
  function Head(r: seq<nat>): nat {
    if r == [] then 0 else r[0]
  }

  function Tail(r: seq<nat>): seq<nat> {
    if r == [] then [] else r[1..]
  }

  /** Release segments compared numerically, the shorter one padded with zeros. */
  function CompareRelease(a: seq<nat>, b: seq<nat>): (c: int)
    ensures -1 <= c <= 1
    decreases |a| + |b|
  {
    if a == [] && b == [] then 0
    else if Head(a) < Head(b) then -1
    else if Head(a) > Head(b) then 1
    else CompareRelease(Tail(a), Tail(b))
  }

  /** A developmental release comes before the final one; two of them compare by number. */
  function CompareDev(a: Option<nat>, b: Option<nat>): (c: int)
    ensures -1 <= c <= 1
  {
    match (a, b)
    case (None, None) => 0
    case (Some(_), None) => -1
    case (None, Some(_)) => 1
    case (Some(x), Some(y)) => if x < y then -1 else if x > y then 1 else 0
  }

  function Compare(a: Version, b: Version): (c: int)
    ensures -1 <= c <= 1
  {
    var r := CompareRelease(a.release, b.release);
    if r != 0 then r else CompareDev(a.dev, b.dev)
  }

  predicate Less(a: Version, b: Version) {
    Compare(a, b) < 0
  }

  predicate LessEq(a: Version, b: Version) {
    Compare(a, b) <= 0
  }

  lemma {:induction false} CompareReleaseFlip(a: seq<nat>, b: seq<nat>)
    ensures CompareRelease(a, b) == -CompareRelease(b, a)
    decreases |a| + |b|
  {
    if !(a == [] && b == []) && Head(a) == Head(b) {
      CompareReleaseFlip(Tail(a), Tail(b));
    }
  }

  lemma {:induction false} CompareReleaseTransitive(a: seq<nat>, b: seq<nat>, c: seq<nat>)
    requires CompareRelease(a, b) <= 0 && CompareRelease(b, c) <= 0
    ensures CompareRelease(a, c) <= 0
    ensures CompareRelease(a, c) == 0 ==> CompareRelease(a, b) == 0 && CompareRelease(b, c) == 0
    decreases |a| + |b| + |c|
  {
    if !(a == [] && c == []) && Head(a) == Head(c) {
      if a == [] && b == [] {
      } else if b == [] && c == [] {
      } else {
        CompareReleaseTransitive(Tail(a), Tail(b), Tail(c));
      }
    } else if a == [] && c == [] {
      CompareWithZeros(b);
      CompareReleaseFlip(b, []);
    }
  }

  /** Swapping the operands negates the comparison. */
  lemma CompareFlip(a: Version, b: Version)
    ensures Compare(a, b) == -Compare(b, a)
  {
    CompareReleaseFlip(a.release, b.release);
  }

  /** `<=` on versions is transitive. */
  lemma CompareTransitive(a: Version, b: Version, c: Version)
    requires LessEq(a, b) && LessEq(b, c)
    ensures LessEq(a, c)
    ensures Compare(a, c) == 0 ==> Compare(a, b) == 0 && Compare(b, c) == 0
  {
    CompareReleaseFlip(a.release, b.release);
    CompareReleaseFlip(b.release, c.release);
    CompareReleaseTransitive(a.release, b.release, c.release);
  }

  // ---------------------------------------------------------------------
  // The gate

  /** `parse_version('1.0')` */
  const V1_0 := Version([1, 0], None)

  /** `parse_version('2.0dev0')` */
  const V2_0dev0 := Version([2, 0], Some(0))

  /** `parse_version('1.0') <= wheel_version < parse_version('2.0dev0')` for a PEP 440 version. */
  predicate Supported(v: Version) {
    LessEq(V1_0, v) && Less(v, V2_0dev0)
  }

  /** The gate on the parsed header: a legacy version sorts below `1.0` and is refused. */
  predicate WheelVersionSupported(p: Parsed) {
    p.Pep440? && Supported(p.version)
  }

  predicate AllZero(r: seq<nat>) {
    forall k :: 0 <= k < |r| ==> r[k] == 0
  }

  lemma {:induction false} CompareWithZeros(r: seq<nat>)
    ensures CompareRelease([], r) == if AllZero(r) then 0 else -1
    decreases |r|
  {
    if r != [] && r[0] == 0 {
      CompareWithZeros(r[1..]);
      assert AllZero(r) <==> AllZero(r[1..]) by {
        assert forall k :: 0 < k < |r| ==> r[k] == r[1..][k - 1];
      }
    }
  }

  /** Comparing with `[n, 0]` looks only at the leading number and whether the rest is zero. */
  lemma CompareWithMajor(n: nat, r: seq<nat>)
    ensures Head(r) < n ==> CompareRelease(r, [n, 0]) == -1
    ensures Head(r) > n ==> CompareRelease(r, [n, 0]) == 1
    ensures Head(r) == n ==> CompareRelease(r, [n, 0]) == if AllZero(Tail(r)) then 0 else 1
  {
    if Head(r) == n {
      var t := Tail(r);
      assert CompareRelease(r, [n, 0]) == CompareRelease(t, [0]);
      CompareWithZeros(t);
      CompareReleaseFlip(t, [0]);
      if t != [] && t[0] == 0 {
        CompareWithZeros(t[1..]);
        assert AllZero(t) <==> AllZero(t[1..]) by {
          assert forall k :: 0 < k < |t| ==> t[k] == t[1..][k - 1];
        }
      }
    }
  }

  /** The gate accepts exactly the versions whose major number is 1, except the
      developmental releases of `1.0` itself. */
  lemma SupportedIff(v: Version)
    ensures Supported(v) <==> Head(v.release) == 1 && (AllZero(Tail(v.release)) ==> v.dev.None?)
  {
    CompareWithMajor(1, v.release);
    CompareWithMajor(2, v.release);
    CompareReleaseFlip(V1_0.release, v.release);
  }

  /** The boundary cases: `1.0` and `1.9` pass; `0.9`, `2.0`, `2.0dev0` and `1.0dev0` do not. */
  lemma GateBoundaries()
    ensures Supported(Version([1, 0], None)) && Supported(Version([1, 9], None))
    ensures !Supported(Version([0, 9], None)) && !Supported(Version([2, 0], None))
    ensures !Supported(Version([2, 0], Some(0))) && !Supported(Version([1, 0], Some(0)))
  {
    SupportedIff(Version([1, 0], None));
    SupportedIff(Version([1, 9], None));
    SupportedIff(Version([0, 9], None));
    SupportedIff(Version([2, 0], None));
    SupportedIff(Version([2, 0], Some(0)));
    SupportedIff(Version([1, 0], Some(0)));
  }

  // ---------------------------------------------------------------------
  // Parsing and formatting

  predicate IsDigit(c: char) {
    '0' <= c <= '9'
  }

  predicate AllDigits(s: string) {
    forall k :: 0 <= k < |s| ==> IsDigit(s[k])
  }

  /** The number a string of decimal digits denotes. */
  function DigitsValue(s: string): nat
    requires AllDigits(s)
    decreases |s|
  {
    if s == [] then 0 else 10 * DigitsValue(s[..|s| - 1]) + (s[|s| - 1] as int - '0' as int)
  }

  /** The decimal digits of `n`, without leading zeros. */
  function NatDigits(n: nat): (s: string)
    ensures s != [] && AllDigits(s)
  {
    if n < 10 then [('0' as int + n) as char] else NatDigits(n / 10) + [('0' as int + n % 10) as char]
  }

  lemma {:induction false} NatDigitsValue(n: nat)
    ensures DigitsValue(NatDigits(n)) == n
  {
    var s := NatDigits(n);
    if n >= 10 {
      NatDigitsValue(n / 10);
      assert s[..|s| - 1] == NatDigits(n / 10);
    }
  }

  /** The numbers of a dot-split release segment, if every part is a non-empty run of digits. */
  function ParseParts(parts: seq<string>): (r: Option<seq<nat>>)
    ensures r.Some? ==> |r.value| == |parts|
    ensures r.Some? ==> forall k :: 0 <= k < |parts| ==> parts[k] != [] && AllDigits(parts[k])
    decreases |parts|
  {
    if parts == [] then Some([])
    else if parts[0] == [] || !AllDigits(parts[0]) then None
    else
      match ParseParts(parts[1..])
      case None => None
      case Some(rest) =>
        assert forall k :: 1 <= k < |parts| ==> parts[k] == parts[1..][k - 1];
        Some([DigitsValue(parts[0])] + rest)
  }

  function FormatParts(r: seq<nat>): (parts: seq<string>)
    ensures |parts| == |r|
    ensures forall k :: 0 <= k < |parts| ==> parts[k] != [] && AllDigits(parts[k])
    decreases |r|
  {
    if r == [] then [] else [NatDigits(r[0])] + FormatParts(r[1..])
  }

  lemma {:induction false} ParseFormatParts(r: seq<nat>)
    ensures ParseParts(FormatParts(r)) == Some(r)
    decreases |r|
  {
    if r != [] {
      ParseFormatParts(r[1..]);
      NatDigitsValue(r[0]);
      assert FormatParts(r)[1..] == FormatParts(r[1..]);
      assert r == [r[0]] + r[1..];
    }
  }

  /** The release text before `dev`, without the optional `.` separator. */
  function ReleaseText(head: string): (r: string)
    ensures r <= head
  {
    if head != [] && head[|head| - 1] == '.' then head[..|head| - 1] else head
  }

  /** The release segment `N(.N)*`, if `text` is one: it then starts and ends with a digit. */
  function ParseRelease(text: string): (r: Option<seq<nat>>)
    ensures r.Some? ==> r.value != [] && text != [] && IsDigit(text[0]) && IsDigit(text[|text| - 1])
  {
    var parts := SplitOn(text, '.');
    var r := ParseParts(parts);
    if r.None? || r.value == [] then None
    else
      SplitEnds(text, '.');
      assert parts[0] <= text && EndsWith(text, parts[|parts| - 1]);
      assert text[0] == parts[0][0];
      var last := parts[|parts| - 1];
      assert text[|text| - 1] == last[|last| - 1];
      r
  }

  /** The developmental part: nothing, or `dev` and an optional number (read as 0 when missing). */
  function ParseDev(suffix: string): Option<Option<nat>> {
    if suffix == [] then Some(None)
    else if "dev" <= suffix && AllDigits(suffix[3..]) then Some(Some(DigitsValue(suffix[3..])))
    else None
  }

  /** `parse_version` on the subset: `N(.N)*` optionally followed by `dev`, `.dev`, `devN` or
      `.devN`; anything else, a trailing `.` included, is a legacy version. A text that parses
      as PEP 440 starts with a digit and ends with a digit or with `dev`. */
  function ParseVersion(s: string): (r: Parsed)
    ensures r.Legacy? ==> r.text == s
    ensures r.Pep440? ==> r.version.release != [] && s != [] && IsDigit(s[0])
    ensures r.Pep440? ==> IsDigit(s[|s| - 1]) || EndsWith(s, "dev")
  {
    var i := IndexFrom(s, 'd', 0);
    var text := if i < |s| then ReleaseText(s[..i]) else s;
    var release, dev := ParseRelease(text), ParseDev(s[i..]);
    if release.None? || dev.None? then Legacy(s)
    else
      assert s[0] == text[0] by {
        assert text <= s;
      }
      assert i < |s| ==> IsDigit(s[|s| - 1]) || EndsWith(s, "dev") by {
        if i < |s| {
          var suffix := s[i..];
          assert s[|s| - 1] == suffix[|suffix| - 1];
          if |suffix| == 3 {
            assert s[|s| - 3..] == suffix;
          } else {
            assert suffix[3..][|suffix| - 4] == suffix[|suffix| - 1];
          }
        }
      }
      Pep440(Version(release.value, dev.value))
  }

  /** A header ending in `.` (such as `1.0.`) is never a PEP 440 version, so the gate refuses it. */
  lemma TrailingDotIsLegacy(s: string)
    requires s != [] && s[|s| - 1] == '.'
    ensures ParseVersion(s) == Legacy(s)
    ensures !WheelVersionSupported(ParseVersion(s))
  {
  }

  /** The normal form of a version: the release numbers joined by `.`, then `devN`. */
  function FormatVersion(v: Version): string {
    Join(FormatParts(v.release), '.') + if v.dev.Some? then "dev" + NatDigits(v.dev.value) else ""
  }

  lemma {:induction false} FormatHasNoD(r: seq<nat>)
    ensures 'd' !in Join(FormatParts(r), '.')
    ensures r != [] ==> var t := Join(FormatParts(r), '.'); t != [] && IsDigit(t[|t| - 1])
    decreases |r|
  {
    if |r| > 1 {
      FormatHasNoD(r[1..]);
      assert FormatParts(r)[1..] == FormatParts(r[1..]);
    }
  }

  /** Parsing the normal form gives the version back. */
  lemma ParseFormat(v: Version)
    requires v.release != []
    ensures ParseVersion(FormatVersion(v)) == Pep440(v)
  {
    var t := Join(FormatParts(v.release), '.');
    FormatHasNoD(v.release);
    ParseFormatParts(v.release);
    SplitJoin(FormatParts(v.release), '.');
    assert ReleaseText(t) == t;
    assert ParseRelease(t) == Some(v.release);
    if v.dev.None? {
      assert FormatVersion(v) == t;
      ParseNoDev(t, v.release);
    } else {
      var digits := NatDigits(v.dev.value);
      assert FormatVersion(v) == t + ("dev" + digits);
      NatDigitsValue(v.dev.value);
      ParseWithDev(t, digits, v.release);
    }
  }

  lemma ParseNoDev(t: string, r: seq<nat>)
    requires 'd' !in t
    requires ParseRelease(t) == Some(r)
    ensures ParseVersion(t) == Pep440(Version(r, None))
  {
    IndexNotFound(t, 'd', 0);
    assert t[..|t|] == t;
  }

  lemma ParseWithDev(t: string, digits: string, r: seq<nat>)
    requires 'd' !in t && AllDigits(digits)
    requires ParseRelease(t) == Some(r)
    ensures ParseVersion(t + ("dev" + digits)) == Pep440(Version(r, Some(DigitsValue(digits))))
  {
    var s := t + ("dev" + digits);
    assert IndexFrom(s, 'd', 0) == |t| by {
      assert s == t + ['d'] + ("ev" + digits);
      IndexAfterPrefix(t, 'd', "ev" + digits);
    }
    assert ParseRelease(s[..|t|]) == Some(r) by {
      assert s[..|t|] == t;
    }
    assert ParseDev(s[|t|..]) == Some(Some(DigitsValue(digits))) by {
      assert s[|t|..] == "dev" + digits;
      ParseDevOf(digits);
    }
  }

  lemma ParseDevOf(digits: string)
    requires AllDigits(digits)
    ensures ParseDev("dev" + digits) == Some(Some(DigitsValue(digits)))
  {
    assert ("dev" + digits)[3..] == digits;
  }

  /** The numbers digit strings denote, one per part. */
  function Values(parts: seq<string>): (r: seq<nat>)
    requires forall k :: 0 <= k < |parts| ==> AllDigits(parts[k])
    ensures |r| == |parts|
    ensures forall k :: 0 <= k < |parts| ==> r[k] == DigitsValue(parts[k])
  {
    seq(|parts|, k requires 0 <= k < |parts| => DigitsValue(parts[k]))
  }

  lemma {:induction false} ParsePartsValues(parts: seq<string>)
    requires forall k :: 0 <= k < |parts| ==> parts[k] != [] && AllDigits(parts[k])
    ensures ParseParts(parts) == Some(Values(parts))
    decreases |parts|
  {
    if parts != [] {
      assert forall k :: 1 <= k < |parts| ==> parts[1..][k - 1] == parts[k];
      ParsePartsValues(parts[1..]);
      assert Values(parts) == [DigitsValue(parts[0])] + Values(parts[1..]);
    }
  }

  /** A join of digit runs holds no `d`. */
  lemma {:induction false} DigitJoinHasNoD(parts: seq<string>)
    requires forall k :: 0 <= k < |parts| ==> AllDigits(parts[k])
    ensures 'd' !in Join(parts, '.')
    decreases |parts|
  {
    if |parts| > 1 {
      assert forall k :: 1 <= k < |parts| ==> parts[1..][k - 1] == parts[k];
      DigitJoinHasNoD(parts[1..]);
    }
  }

  /** `ReleaseText` drops the `.` of `.dev` and nothing else. */
  lemma DotDev(t: string, digits: string)
    requires 'd' !in t
    ensures var s := t + "." + ("dev" + digits);
      && IndexFrom(s, 'd', 0) == |t| + 1
      && ReleaseText(s[..|t| + 1]) == t
      && s[|t| + 1..] == "dev" + digits
  {
    var u := t + ".";
    var rest := "dev" + digits;
    assert 'd' !in u by {
      assert forall k :: 0 <= k < |t| ==> u[k] == t[k];
    }
    DevIndex(u, rest);
    assert (u + rest)[..|u|] == u && (u + rest)[|u|..] == rest;
    assert u[..|u| - 1] == t;
  }

  lemma DevIndex(u: string, rest: string)
    requires 'd' !in u && rest != [] && rest[0] == 'd'
    ensures IndexFrom(u + rest, 'd', 0) == |u|
  {
    var r := rest[1..];
    assert rest == ['d'] + r;
    assert u + rest == u + ['d'] + r;
    IndexAfterPrefix(u, 'd', r);
  }

  /** Every text of the accepted form `N(.N)*`, then nothing, `devN` or `.devN` (`N` possibly
      empty after `dev`, and possibly with leading zeros), parses to the numbers its digit
      runs denote; a `dev` without digits is `dev0`. */
  lemma ParseAcceptedForm(parts: seq<string>, dot: bool, dev: Option<string>)
    requires parts != [] && forall k :: 0 <= k < |parts| ==> parts[k] != [] && AllDigits(parts[k])
    requires dev.Some? ==> AllDigits(dev.value)
    ensures var t := Join(parts, '.');
      var text := if dev.None? then t else t + (if dot then "." else "") + ("dev" + dev.value);
      ParseVersion(text) == Pep440(Version(Values(parts), if dev.None? then None else Some(DigitsValue(dev.value))))
  {
    var t := Join(parts, '.');
    DigitJoinHasNoD(parts);
    ParsePartsValues(parts);
    SplitJoin(parts, '.');
    assert ParseRelease(t) == Some(Values(parts));
    if dev.None? {
      ParseNoDev(t, Values(parts));
    } else if !dot {
      assert t + "" == t;
      ParseWithDev(t, dev.value, Values(parts));
    } else {
      DotDev(t, dev.value);
      ParseDevOf(dev.value);
    }
  }

  /** The header texts of the gate's bounds parse to the bounds. */
  lemma BoundTexts()
    ensures ParseVersion("1.0") == Pep440(V1_0)
    ensures ParseVersion("2.0dev0") == Pep440(V2_0dev0)
  {
    assert FormatVersion(V1_0) == "1.0" by {
      assert FormatParts([1, 0]) == ["1", "0"] by {
        assert FormatParts([0]) == ["0"];
      }
    }
    ParseFormat(V1_0);
    assert FormatVersion(V2_0dev0) == "2.0dev0" by {
      assert FormatParts([2, 0]) == ["2", "0"] by {
        assert FormatParts([0]) == ["0"];
      }
    }
    ParseFormat(V2_0dev0);
  }
}
