/**
  Go-style semantic version tokens, as accepted by the version check the
  harness delegates to (golang.org/x/mod/semver, `IsValid`).

  A token is `v` followed by a major number, optionally `.minor`, optionally
  `.patch`; only a full `major.minor.patch` may carry a `-pre.release` and a
  `+build.meta` suffix (sections 2, 9 and 10 of Semantic Versioning 2.0.0).
  Numeric parts have no leading zero.

  Two descriptions are given and proved equal: `Parse`, a left-to-right
  scanner shaped like the library's parser, and `Render` of a `WellFormed`
  `Version` record, the grammar read as a generator.
*/
module SemVer {
  import opened Wrappers
  import opened Decimal

  predicate IsIdentChar(c: char) {
    ('A' <= c <= 'Z') || ('a' <= c <= 'z') || IsDigit(c) || c == '-'
  }

  predicate AllIdentChars(s: string) {
    forall i :: 0 <= i < |s| ==> IsIdentChar(s[i])
  }

  /** A numeric identifier (section 2 of SemVer 2.0.0): digits, no leading zero. */
  predicate IsNumericId(s: string) {
    |s| >= 1 && AllDigits(s) && (|s| == 1 || s[0] != '0')
  }

  /** An all-digit identifier with a leading zero, refused in a pre-release. */
  predicate IsBadNum(s: string) {
    AllDigits(s) && |s| > 1 && s[0] == '0'
  }

  predicate IsPrereleaseId(s: string) {
    |s| >= 1 && AllIdentChars(s) && !IsBadNum(s)
  }

  predicate IsBuildId(s: string) {
    |s| >= 1 && AllIdentChars(s)
  }

  /** Identifier rule of a pre-release list (`pre`) or of a build list. */
  predicate IsId(s: string, pre: bool) {
    if pre then IsPrereleaseId(s) else IsBuildId(s)
  }

  predicate AllIds(ids: seq<string>, pre: bool) {
    forall i :: 0 <= i < |ids| ==> IsId(ids[i], pre)
  }

  /** The parts of a version token; an empty list means the suffix is absent. */
  datatype Version = Version(
    major: string,
    minor: Option<string>,
    patch: Option<string>,
    prerelease: seq<string>,
    build: seq<string>)

  predicate WellFormed(v: Version) {
    && IsNumericId(v.major)
    && (v.minor.Some? ==> IsNumericId(v.minor.value))
    && (v.patch.Some? ==> v.minor.Some? && IsNumericId(v.patch.value))
    && ((v.prerelease != [] || v.build != []) ==> v.patch.Some?)
    && AllIds(v.prerelease, true)
    && AllIds(v.build, false)
  }

  /** Identifiers separated by dots. */
  function Join(ids: seq<string>): string {
    if |ids| <= 1 then (if ids == [] then "" else ids[0])
    else ids[0] + "." + Join(ids[1..])
  }

  function RenderSuffix(pre: seq<string>, build: seq<string>): string {
    (if pre == [] then "" else "-" + Join(pre)) + (if build == [] then "" else "+" + Join(build))
  }

  function RenderPatch(v: Version): string {
    if v.patch.None? then "" else "." + v.patch.value + RenderSuffix(v.prerelease, v.build)
  }

  function RenderMinor(v: Version): string {
    if v.minor.None? then "" else "." + v.minor.value + RenderPatch(v)
  }

  /** The token a well-formed version is written as. */
  function Render(v: Version): string {
    "v" + v.major + RenderMinor(v)
  }

  // ------------------------------------------------------------------
  //  The scanner
  // ------------------------------------------------------------------

  /** Length of the run of digits `s` starts with. */
  function DigitRun(s: string): (n: nat)
    ensures n <= |s|
  {
    if |s| == 0 || !IsDigit(s[0]) then 0 else 1 + DigitRun(s[1..])
  }

  /** Length of the run of identifier characters `s` starts with. */
  function IdentRun(s: string): (n: nat)
    ensures n <= |s|
  {
    if |s| == 0 || !IsIdentChar(s[0]) then 0 else 1 + IdentRun(s[1..])
  }

  /** Splits off a leading number: at least one digit, and no leading zero. */
  function ScanNumber(s: string): Option<(string, string)> {
    var n := DigitRun(s);
    if n == 0 || (s[0] == '0' && n != 1) then None else Some((s[..n], s[n..]))
  }

  /**
    Splits off a dot-separated identifier list. A pre-release list (`pre`)
    stops before a `+` and refuses leading-zero numbers; a build list runs
    to the end of the input.
  */
  function ScanIds(s: string, pre: bool): Option<(seq<string>, string)>
    decreases |s|
  {
    var n := IdentRun(s);
    var id := s[..n];
    if n == 0 || (pre && IsBadNum(id)) then None
    else if n == |s| then Some(([id], ""))
    else if s[n] == '.' then
      match ScanIds(s[n + 1..], pre)
      case None => None
      case Some((ids, rest)) => Some(([id] + ids, rest))
    else if pre && s[n] == '+' then Some(([id], s[n..]))
    else None
  }

  /** What may close a token after the pre-release part: nothing, or `+build`. */
  function ScanBuild(s: string): Option<seq<string>> {
    if s == "" then Some([])
    else if s[0] != '+' then None
    else match ScanIds(s[1..], false)
      case None => None
      case Some((build, tail)) => if tail == "" then Some(build) else None
  }

  /** What may follow the patch number: `-pre`, then `+build`, then nothing. */
  function ScanSuffix(s: string): Option<(seq<string>, seq<string>)> {
    if |s| > 0 && s[0] == '-' then
      match ScanIds(s[1..], true)
      case None => None
      case Some((pre, rest)) =>
        match ScanBuild(rest)
        case None => None
        case Some(build) => Some((pre, build))
    else
      match ScanBuild(s)
      case None => None
      case Some(build) => Some(([], build))
  }

  /** Reads a whole token, or nothing if any character is out of place. */
  function Parse(s: string): Option<Version> {
    if |s| == 0 || s[0] != 'v' then None
    else match ScanNumber(s[1..])
      case None => None
      case Some((major, rest)) => ParseMinor(major, rest)
  }

  /** The token after its major number: nothing, or `.minor` and what follows. */
  function ParseMinor(major: string, s: string): Option<Version> {
    if s == "" then Some(Version(major, None, None, [], []))
    else if s[0] != '.' then None
    else match ScanNumber(s[1..])
      case None => None
      case Some((minor, rest)) => ParsePatch(major, minor, rest)
  }

  /** The token after its minor number: nothing, or `.patch` and a suffix. */
  function ParsePatch(major: string, minor: string, s: string): Option<Version> {
    if s == "" then Some(Version(major, Some(minor), None, [], []))
    else if s[0] != '.' then None
    else match ScanNumber(s[1..])
      case None => None
      case Some((patch, rest)) =>
        match ScanSuffix(rest)
        case None => None
        case Some((pre, build)) => Some(Version(major, Some(minor), Some(patch), pre, build))
  }

  predicate IsValid(s: string) {
    Parse(s).Some?
  }

  // ------------------------------------------------------------------
  //  Scanner lemmas
  // ------------------------------------------------------------------

  lemma {:induction false} DigitRunPrefix(s: string)
    ensures AllDigits(s[..DigitRun(s)])
    ensures DigitRun(s) < |s| ==> !IsDigit(s[DigitRun(s)])
  {
    if |s| > 0 && IsDigit(s[0]) {
      DigitRunPrefix(s[1..]);
      assert s[..DigitRun(s)] == [s[0]] + s[1..][..DigitRun(s[1..])];
    }
  }

  lemma {:induction false} DigitRunOfDigits(d: string, r: string)
    requires AllDigits(d)
    requires r == "" || !IsDigit(r[0])
    ensures DigitRun(d + r) == |d|
  {
    if |d| > 0 {
      assert (d + r)[1..] == d[1..] + r;
      DigitRunOfDigits(d[1..], r);
    } else {
      assert d + r == r;
    }
  }

  lemma {:induction false} IdentRunPrefix(s: string)
    ensures AllIdentChars(s[..IdentRun(s)])
    ensures IdentRun(s) < |s| ==> !IsIdentChar(s[IdentRun(s)])
  {
    if |s| > 0 && IsIdentChar(s[0]) {
      IdentRunPrefix(s[1..]);
      assert s[..IdentRun(s)] == [s[0]] + s[1..][..IdentRun(s[1..])];
    }
  }

  lemma {:induction false} IdentRunOfIdent(d: string, r: string)
    requires AllIdentChars(d)
    requires r == "" || !IsIdentChar(r[0])
    ensures IdentRun(d + r) == |d|
  {
    if |d| > 0 {
      assert (d + r)[1..] == d[1..] + r;
      IdentRunOfIdent(d[1..], r);
    } else {
      assert d + r == r;
    }
  }

  /** A number the scanner splits off is a numeric identifier, and nothing is lost. */
  lemma ScanNumberSound(s: string)
    requires ScanNumber(s).Some?
    ensures IsNumericId(ScanNumber(s).value.0)
    ensures s == ScanNumber(s).value.0 + ScanNumber(s).value.1
  {
    DigitRunPrefix(s);
  }

  /** A numeric identifier followed by a non-digit is split off exactly. */
  lemma ScanNumberComplete(d: string, r: string)
    requires IsNumericId(d)
    requires r == "" || !IsDigit(r[0])
    ensures ScanNumber(d + r) == Some((d, r))
  {
    DigitRunOfDigits(d, r);
    assert (d + r)[..|d|] == d;
    assert (d + r)[|d|..] == r;
  }

  /** One step of the identifier scanner, when the input starts with a whole identifier. */
  lemma ScanIdsStep(id: string, after: string, pre: bool)
    requires IsId(id, pre)
    requires after == "" || !IsIdentChar(after[0])
    ensures after == "" ==> ScanIds(id + after, pre) == Some(([id], ""))
    ensures after != "" && after[0] == '.' ==>
      ScanIds(id + after, pre) ==
        match ScanIds(after[1..], pre)
        case None => None
        case Some((ids, rest)) => Some(([id] + ids, rest))
    ensures after != "" && after[0] == '+' && pre ==> ScanIds(id + after, pre) == Some(([id], after))
    ensures after != "" && after[0] != '.' && !(after[0] == '+' && pre) ==> ScanIds(id + after, pre).None?
  {
    var s := id + after;
    IdentRunOfIdent(id, after);
    assert s[..|id|] == id;
    if after != "" {
      assert s[|id|..] == after;
      assert s[|id|] == after[0];
      assert s[|id| + 1..] == after[1..];
    }
  }

  /** Where the scanner's first identifier ends: `s` splits into that identifier and the rest. */
  lemma ScanIdsFirst(s: string, pre: bool)
    requires ScanIds(s, pre).Some?
    ensures var n := IdentRun(s);
      && s == s[..n] + s[n..]
      && IsId(s[..n], pre)
      && (s[n..] == "" || !IsIdentChar(s[n..][0]))
  {
    IdentRunPrefix(s);
  }

  /** Regrouping a concatenation; stated once so that proofs need not rediscover it. */
  lemma Regroup(a: string, b: string, c: string, d: string)
    ensures a + (b + (c + d)) == ((a + b) + c) + d
  {
  }

  lemma Regroup3(a: string, b: string, c: string)
    ensures a + (b + c) == (a + b) + c
  {
  }

  /** An identifier list the scanner splits off is well formed, and nothing is lost. */
  lemma {:induction false} ScanIdsSound(s: string, pre: bool)
    requires ScanIds(s, pre).Some?
    ensures var (ids, rest) := ScanIds(s, pre).value;
      && |ids| >= 1
      && AllIds(ids, pre)
      && s == Join(ids) + rest
      && (rest == "" || (pre && rest[0] == '+'))
    decreases |s|
  {
    ScanIdsFirst(s, pre);
    var n := IdentRun(s);
    var id, after := s[..n], s[n..];
    ScanIdsStep(id, after, pre);
    assert Join([id]) == id;
    if after != "" && after[0] == '.' {
      ScanIdsSound(after[1..], pre);
      var r := ScanIds(after[1..], pre).value;
      var j := Join(r.0);
      assert ScanIds(s, pre).value == ([id] + r.0, r.1);
      assert ([id] + r.0)[1..] == r.0;
      assert Join([id] + r.0) == id + "." + j;
      assert after == "." + (j + r.1);
      Regroup(id, ".", j, r.1);
    }
  }

  /** A well-formed identifier list, followed by what may end it, is split off exactly. */
  lemma {:induction false} ScanIdsComplete(ids: seq<string>, rest: string, pre: bool)
    requires |ids| >= 1
    requires AllIds(ids, pre)
    requires rest == "" || (pre && rest[0] == '+')
    ensures ScanIds(Join(ids) + rest, pre) == Some((ids, rest))
    decreases |ids|
  {
    var id := ids[0];
    assert IsId(id, pre);
    if |ids| == 1 {
      assert Join(ids) + rest == id + rest;
      ScanIdsStep(id, rest, pre);
      assert [id] == ids;
    } else {
      var tail := Join(ids[1..]) + rest;
      Regroup(id, ".", Join(ids[1..]), rest);
      assert Join(ids) + rest == id + ("." + tail);
      ScanIdsStep(id, "." + tail, pre);
      assert ("." + tail)[1..] == tail;
      assert AllIds(ids[1..], pre);
      ScanIdsComplete(ids[1..], rest, pre);
      assert [id] + ids[1..] == ids;
    }
  }

  // ------------------------------------------------------------------
  //  The scanner reads exactly the rendered tokens
  // ------------------------------------------------------------------

  lemma ScanBuildComplete(build: seq<string>)
    requires AllIds(build, false)
    ensures ScanBuild(if build == [] then "" else "+" + Join(build)) == Some(build)
  {
    if build != [] {
      var b := "+" + Join(build);
      assert b[1..] == Join(build) + "";
      ScanIdsComplete(build, "", false);
    }
  }

  lemma ScanBuildSound(s: string)
    requires ScanBuild(s).Some?
    ensures var build := ScanBuild(s).value;
      AllIds(build, false) && s == (if build == [] then "" else "+" + Join(build))
  {
    if s != "" {
      ScanIdsSound(s[1..], false);
    }
  }

  lemma ScanSuffixComplete(pre: seq<string>, build: seq<string>)
    requires AllIds(pre, true) && AllIds(build, false)
    ensures ScanSuffix(RenderSuffix(pre, build)) == Some((pre, build))
  {
    var b := if build == [] then "" else "+" + Join(build);
    ScanBuildComplete(build);
    if pre == [] {
      assert RenderSuffix(pre, build) == b;
      assert b == "" || b[0] == '+';
    } else {
      var s := RenderSuffix(pre, build);
      Regroup3("-", Join(pre), b);
      assert s == "-" + (Join(pre) + b);
      assert s[1..] == Join(pre) + b;
      ScanIdsComplete(pre, b, true);
    }
  }

  lemma ScanSuffixSound(s: string)
    requires ScanSuffix(s).Some?
    ensures var r := ScanSuffix(s).value;
      AllIds(r.0, true) && AllIds(r.1, false) && RenderSuffix(r.0, r.1) == s
  {
    if |s| > 0 && s[0] == '-' {
      ScanIdsSound(s[1..], true);
      var p := ScanIds(s[1..], true).value;
      ScanBuildSound(p.1);
      var build := ScanBuild(p.1).value;
      assert ScanSuffix(s) == Some((p.0, build));
      assert s == "-" + s[1..];
      Regroup3("-", Join(p.0), p.1);
    } else {
      ScanBuildSound(s);
      assert ScanSuffix(s) == Some(([], ScanBuild(s).value));
    }
  }

  lemma ParsePatchRender(v: Version)
    requires WellFormed(v) && v.minor.Some?
    ensures ParsePatch(v.major, v.minor.value, RenderPatch(v)) == Some(v)
  {
    if v.patch.Some? {
      var r := RenderPatch(v);
      var suffix := RenderSuffix(v.prerelease, v.build);
      Regroup3(".", v.patch.value, suffix);
      assert r[1..] == v.patch.value + suffix;
      assert suffix == "" || suffix[0] == '-' || suffix[0] == '+';
      ScanNumberComplete(v.patch.value, suffix);
      ScanSuffixComplete(v.prerelease, v.build);
    }
  }

  lemma ParseMinorRender(v: Version)
    requires WellFormed(v)
    ensures ParseMinor(v.major, RenderMinor(v)) == Some(v)
  {
    if v.minor.Some? {
      var r := RenderMinor(v);
      Regroup3(".", v.minor.value, RenderPatch(v));
      assert r[1..] == v.minor.value + RenderPatch(v);
      ScanNumberComplete(v.minor.value, RenderPatch(v));
      ParsePatchRender(v);
    }
  }

  /** Every well-formed version is read back from its rendering. */
  lemma ParseRender(v: Version)
    requires WellFormed(v)
    ensures Parse(Render(v)) == Some(v)
  {
    var s := Render(v);
    Regroup3("v", v.major, RenderMinor(v));
    assert s[1..] == v.major + RenderMinor(v);
    ScanNumberComplete(v.major, RenderMinor(v));
    ParseMinorRender(v);
  }

  lemma ParsePatchSound(major: string, minor: string, s: string)
    requires IsNumericId(major) && IsNumericId(minor)
    requires ParsePatch(major, minor, s).Some?
    ensures ParsePatch(major, minor, s).value.major == major
    ensures ParsePatch(major, minor, s).value.minor == Some(minor)
    ensures WellFormed(ParsePatch(major, minor, s).value)
    ensures RenderPatch(ParsePatch(major, minor, s).value) == s
  {
    if s != "" {
      ScanNumberSound(s[1..]);
      var r := ScanNumber(s[1..]).value;
      assert s == "." + (r.0 + r.1);
      Regroup3(".", r.0, r.1);
      ScanSuffixSound(r.1);
      var sfx := ScanSuffix(r.1).value;
      assert ParsePatch(major, minor, s) == Some(Version(major, Some(minor), Some(r.0), sfx.0, sfx.1));
    }
  }

  lemma ParseMinorSound(major: string, s: string)
    requires IsNumericId(major)
    requires ParseMinor(major, s).Some?
    ensures ParseMinor(major, s).value.major == major
    ensures WellFormed(ParseMinor(major, s).value)
    ensures RenderMinor(ParseMinor(major, s).value) == s
  {
    if s != "" {
      ScanNumberSound(s[1..]);
      var r := ScanNumber(s[1..]).value;
      assert s == "." + (r.0 + r.1);
      Regroup3(".", r.0, r.1);
      assert ParseMinor(major, s) == ParsePatch(major, r.0, r.1);
      ParsePatchSound(major, r.0, r.1);
    }
  }

  /** Whatever the scanner accepts is a well-formed version, rendered back to the same token. */
  lemma RenderParse(s: string)
    requires Parse(s).Some?
    ensures WellFormed(Parse(s).value)
    ensures Render(Parse(s).value) == s
  {
    ScanNumberSound(s[1..]);
    var r := ScanNumber(s[1..]).value;
    assert s == "v" + (r.0 + r.1);
    Regroup3("v", r.0, r.1);
    ParseMinorSound(r.0, r.1);
  }

  /** The scanner and the grammar agree: a token is valid iff it renders some well-formed version. */
  lemma ValidIffRendered(s: string)
    ensures IsValid(s) <==> exists v :: WellFormed(v) && Render(v) == s
  {
    if IsValid(s) {
      RenderParse(s);
    }
    if v :| WellFormed(v) && Render(v) == s {
      ParseRender(v);
    }
  }

  // ------------------------------------------------------------------
  //  The characters a token may contain
  // ------------------------------------------------------------------

  predicate IsTokenChar(c: char) {
    IsIdentChar(c) || c == '.' || c == '+'
  }

  predicate AllTokenChars(s: string) {
    forall i :: 0 <= i < |s| ==> IsTokenChar(s[i])
  }

  lemma ConcatTokenChars(a: string, b: string)
    requires AllTokenChars(a) && AllTokenChars(b)
    ensures AllTokenChars(a + b)
  {
  }

  lemma {:induction false} JoinTokenChars(ids: seq<string>, pre: bool)
    requires AllIds(ids, pre)
    ensures AllTokenChars(Join(ids))
  {
    if |ids| == 1 {
      assert IsId(ids[0], pre);
    } else if |ids| > 1 {
      assert IsId(ids[0], pre);
      assert AllIds(ids[1..], pre);
      JoinTokenChars(ids[1..], pre);
      ConcatTokenChars(ids[0], ".");
      ConcatTokenChars(ids[0] + ".", Join(ids[1..]));
    }
  }

  lemma SuffixTokenChars(pre: seq<string>, build: seq<string>)
    requires AllIds(pre, true) && AllIds(build, false)
    ensures AllTokenChars(RenderSuffix(pre, build))
  {
    JoinTokenChars(pre, true);
    ConcatTokenChars("-", Join(pre));
    JoinTokenChars(build, false);
    ConcatTokenChars("+", Join(build));
    ConcatTokenChars(if pre == [] then "" else "-" + Join(pre), if build == [] then "" else "+" + Join(build));
  }

  lemma PatchTokenChars(v: Version)
    requires WellFormed(v)
    ensures AllTokenChars(RenderPatch(v))
  {
    if v.patch.Some? {
      SuffixTokenChars(v.prerelease, v.build);
      ConcatTokenChars("." + v.patch.value, RenderSuffix(v.prerelease, v.build));
    }
  }

  lemma MinorTokenChars(v: Version)
    requires WellFormed(v)
    ensures AllTokenChars(RenderMinor(v))
  {
    if v.minor.Some? {
      PatchTokenChars(v);
      ConcatTokenChars("." + v.minor.value, RenderPatch(v));
    }
  }

  /** A valid token holds only identifier characters, dots and plus signs: no blank, no path separator. */
  lemma ValidTokenChars(s: string)
    requires IsValid(s)
    ensures AllTokenChars(s)
  {
    RenderParse(s);
    var v := Parse(s).value;
    MinorTokenChars(v);
    ConcatTokenChars("v" + v.major, RenderMinor(v));
  }
}
