/**
 * Release versions: parsing, ordering and selection (scripts/previous-published-release.js) and
 * bumping (scripts/bump-version-lib.js).
 */
module Versions {
  import opened JsString
  import Decimal

  datatype Prerelease = Prerelease(tag: string, number: nat)

  datatype Version = Version(major: nat, minor: nat, patch: nat, pre: Option<Prerelease>)

  predicate IsLetter(c: char) {
    'a' <= c <= 'z' || 'A' <= c <= 'Z'
  }

  predicate IsTag(s: string) {
    s != "" && forall i :: 0 <= i < |s| ==> IsLetter(s[i])
  }

  predicate IsNumeral(s: string) {
    s != "" && Decimal.AllDigits(s)
  }

  // ---------- parse and format ----------

  /** `x.y.z`, optionally followed by `-tag.n`; `None` is the exception. */
  function ParseSemver(s: string): Option<Version> {
    var (core, pre) := Cut(s, '-');
    var numbers := Split(core, '.');
    if |numbers| != 3 || !IsNumeral(numbers[0]) || !IsNumeral(numbers[1]) || !IsNumeral(numbers[2]) then None
    else
      var version := Version(Decimal.ToNat(numbers[0]), Decimal.ToNat(numbers[1]), Decimal.ToNat(numbers[2]), None);
      match pre
      case None => Some(version)
      case Some(p) =>
        var parts := Split(p, '.');
        if |parts| != 2 || !IsTag(parts[0]) || !IsNumeral(parts[1]) then None
        else Some(version.(pre := Some(Prerelease(parts[0], Decimal.ToNat(parts[1])))))
  }

  function FormatCore(v: Version): string {
    Join([Decimal.FromNat(v.major), Decimal.FromNat(v.minor), Decimal.FromNat(v.patch)], ".")
  }

  function FormatPrerelease(p: Prerelease): string {
    Join([p.tag, Decimal.FromNat(p.number)], ".")
  }

  /** As in the source, an empty tag counts as none. */
  function FormatVersion(v: Version): string {
    FormatCore(v) + if v.pre.Some? && v.pre.value.tag != "" then "-" + FormatPrerelease(v.pre.value) else ""
  }

  predicate IsVersion(v: Version) {
    v.pre.Some? ==> IsTag(v.pre.value.tag)
  }

  lemma NumeralIsPlain(n: nat)
    ensures var s := Decimal.FromNat(n); IsNumeral(s) && '.' !in s && '-' !in s && 'v' !in s && Decimal.ToNat(s) == n
  {
    Decimal.NumeralOf(n);
  }

  lemma CoreParses(v: Version)
    ensures '-' !in FormatCore(v) && !StartsWith(FormatCore(v), "v")
    ensures Split(FormatCore(v), '.') == [Decimal.FromNat(v.major), Decimal.FromNat(v.minor), Decimal.FromNat(v.patch)]
  {
    hide Decimal.FromNat;
    var parts := [Decimal.FromNat(v.major), Decimal.FromNat(v.minor), Decimal.FromNat(v.patch)];
    NumeralIsPlain(v.major);
    NumeralIsPlain(v.minor);
    NumeralIsPlain(v.patch);
    SplitOfJoin(parts, '.');
    var rest := [parts[1], parts[2]];
    assert parts[1..] == rest && rest[1..] == [parts[2]];
    assert Join(rest, ".") == parts[1] + "." + parts[2];
    assert Join(parts, ".") == parts[0] + "." + Join(rest, ".");
    assert FormatCore(v)[0] == parts[0][0];
  }

  lemma PrereleaseParses(p: Prerelease)
    requires IsTag(p.tag)
    ensures Split(FormatPrerelease(p), '.') == [p.tag, Decimal.FromNat(p.number)]
  {
    hide Decimal.FromNat;
    NumeralIsPlain(p.number);
    SplitOfJoin([p.tag, Decimal.FromNat(p.number)], '.');
  }

  function StripVersionTagPrefix(s: string): string {
    if StartsWith(s, "v") then s[1..] else s
  }

  lemma CoreNotEmpty(v: Version)
    ensures FormatCore(v) != ""
  {
    hide Decimal.FromNat;
    NumeralIsPlain(v.major);
  }

  lemma NoPrefix(v: Version)
    ensures StripVersionTagPrefix(FormatVersion(v)) == FormatVersion(v)
  {
    CoreParses(v);
    CoreNotEmpty(v);
    assert FormatVersion(v)[0] == FormatCore(v)[0];
  }

  /** Parsing inverts formatting for every version. */
  lemma ParseOfFormat(v: Version)
    requires IsVersion(v)
    ensures ParseSemver(FormatVersion(v)) == Some(v) && ParseSemver(StripVersionTagPrefix(FormatVersion(v))) == Some(v)
  {
    hide Decimal.FromNat, Decimal.ToNat, FormatCore, FormatPrerelease;
    CoreParses(v);
    NumeralIsPlain(v.major);
    NumeralIsPlain(v.minor);
    NumeralIsPlain(v.patch);
    if v.pre.None? {
      assert FormatVersion(v) == FormatCore(v);
      CutNowhere(FormatCore(v), '-');
    } else {
      PrereleaseParses(v.pre.value);
      NumeralIsPlain(v.pre.value.number);
      assert FormatVersion(v) == FormatCore(v) + ['-'] + FormatPrerelease(v.pre.value);
      CutAt(FormatCore(v), '-', FormatPrerelease(v.pre.value));
    }
    NoPrefix(v);
  }

  /** Every accepted string denotes a version that can be written again. */
  lemma ParsedIsVersion(s: string)
    requires ParseSemver(s).Some?
    ensures IsVersion(ParseSemver(s).value)
  {
  }

  /** Decimal digits, at least one, leading zeros allowed, for the number. */
  predicate IsNumeralOf(s: string, n: nat) {
    s != "" && (forall i :: 0 <= i < |s| ==> '0' <= s[i] <= '9') && Decimal.ToNat(s) == n
  }

  /** Three numerals between dots. */
  ghost predicate IsCore(s: string, v: Version) {
    exists a, b, c :: s == a + "." + b + "." + c && IsNumeralOf(a, v.major) && IsNumeralOf(b, v.minor)
                      && IsNumeralOf(c, v.patch)
  }

  /** Letters, a dot and a numeral. */
  ghost predicate IsSuffix(s: string, p: Prerelease) {
    && p.tag != "" && (forall c :: c in p.tag ==> 'a' <= c <= 'z' || 'A' <= c <= 'Z')
    && exists n :: s == p.tag + "." + n && IsNumeralOf(n, p.number)
  }

  lemma NumeralChars(s: string, n: nat)
    requires IsNumeralOf(s, n)
    ensures '.' !in s && '-' !in s
  {
  }

  lemma TagChars(s: string)
    requires IsTag(s)
    ensures '.' !in s && '-' !in s
  {
  }

  lemma ThreeSplit(a: string, b: string, c: string)
    requires '.' !in a && '.' !in b && '.' !in c
    ensures Split(a + "." + b + "." + c, '.') == [a, b, c]
  {
    hide Split;
    var rest := b + ['.'] + c;
    assert a + "." + b + "." + c == a + ['.'] + rest;
    SplitFirst(a, '.', rest);
    SplitFirst(b, '.', c);
    SplitOne(c, '.');
  }

  lemma TwoSplit(a: string, b: string)
    requires '.' !in a && '.' !in b
    ensures Split(a + "." + b, '.') == [a, b]
  {
    hide Split;
    assert a + "." + b == a + ['.'] + b;
    SplitFirst(a, '.', b);
    SplitOne(b, '.');
  }

  lemma JoinStep(parts: seq<string>)
    ensures |parts| == 1 ==> Join(parts, ".") == parts[0]
    ensures |parts| > 1 ==> Join(parts, ".") == parts[0] + "." + Join(parts[1..], ".")
  {
  }

  lemma TwoJoin(parts: seq<string>)
    requires |parts| == 2
    ensures Join(parts, ".") == parts[0] + "." + parts[1]
  {
    hide Join;
    JoinStep(parts);
    JoinStep(parts[1..]);
  }

  lemma Regroup(a: string, b: string, c: string)
    ensures a + "." + (b + "." + c) == a + "." + b + "." + c
  {
  }

  lemma ThreeJoin(parts: seq<string>)
    requires |parts| == 3
    ensures Join(parts, ".") == parts[0] + "." + parts[1] + "." + parts[2]
  {
    hide Join;
    JoinStep(parts);
    TwoJoin(parts[1..]);
    Regroup(parts[0], parts[1], parts[2]);
  }

  lemma CoreExactly(s: string, v: Version)
    ensures var numbers := Split(s, '.');
      IsCore(s, v) <==>
      && |numbers| == 3 && IsNumeralOf(numbers[0], v.major) && IsNumeralOf(numbers[1], v.minor)
      && IsNumeralOf(numbers[2], v.patch)
  {
    hide Split, Join, IsNumeralOf;
    JoinOfSplit(s, '.');
    if |Split(s, '.')| == 3 {
      ThreeJoin(Split(s, '.'));
    }
    if IsCore(s, v) {
      var a, b, c :| s == a + "." + b + "." + c && IsNumeralOf(a, v.major) && IsNumeralOf(b, v.minor)
                     && IsNumeralOf(c, v.patch);
      NumeralChars(a, v.major);
      NumeralChars(b, v.minor);
      NumeralChars(c, v.patch);
      ThreeSplit(a, b, c);
    }
  }

  lemma TagExactly(s: string)
    ensures IsTag(s) <==> s != "" && forall c :: c in s ==> 'a' <= c <= 'z' || 'A' <= c <= 'Z'
  {
    assert forall i :: 0 <= i < |s| ==> s[i] in s;
  }

  lemma SuffixExactly(s: string, p: Prerelease)
    ensures var parts := Split(s, '.');
      IsSuffix(s, p) <==>
      |parts| == 2 && IsTag(parts[0]) && parts[0] == p.tag && IsNumeralOf(parts[1], p.number)
  {
    TagExactly(p.tag);
    hide Split, Join, IsNumeralOf, IsTag;
    JoinOfSplit(s, '.');
    if |Split(s, '.')| == 2 {
      TwoJoin(Split(s, '.'));
    }
    if IsSuffix(s, p) {
      var n :| s == p.tag + "." + n && IsNumeralOf(n, p.number);
      NumeralChars(n, p.number);
      TagChars(p.tag);
      TwoSplit(p.tag, n);
    }
  }

  lemma CoreHasNoDash(s: string, v: Version)
    requires IsCore(s, v)
    ensures '-' !in s
  {
    hide IsNumeralOf;
    var a, b, c :| s == a + "." + b + "." + c && IsNumeralOf(a, v.major) && IsNumeralOf(b, v.minor)
                   && IsNumeralOf(c, v.patch);
    NumeralChars(a, v.major);
    NumeralChars(b, v.minor);
    NumeralChars(c, v.patch);
  }

  /** Exactly the strings `a.b.c` and `a.b.c-tag.n`, of decimal digits and, in the tag, of ASCII letters, are read,
      and each as the version it looks like. */
  lemma ParsesExactly(s: string, v: Version)
    ensures ParseSemver(s) == Some(v) <==>
            if v.pre.None? then IsCore(s, v)
            else exists core, suffix :: s == core + "-" + suffix && IsCore(core, v) && IsSuffix(suffix, v.pre.value)
  {
    hide Split, Decimal.ToNat, IsTag, IsCore, IsSuffix, Cut;
    var (core, pre) := Cut(s, '-');
    CutExactly(s, '-');
    CoreExactly(core, v);
    if v.pre.None? {
      if IsCore(s, v) {
        CoreHasNoDash(s, v);
        CutNowhere(s, '-');
      }
      assert pre.None? ==> s == core;
    } else {
      if pre.Some? {
        SuffixExactly(pre.value, v.pre.value);
        assert s == core + "-" + pre.value;
      }
      if c, suffix :| s == c + "-" + suffix && IsCore(c, v) && IsSuffix(suffix, v.pre.value) {
        CoreHasNoDash(c, v);
        assert s == c + ['-'] + suffix;
        CutAt(c, '-', suffix);
      }
    }
  }

  // ---------- the order ----------

  /** The version a string denotes, with or without the prefix of a tag. */
  function Denotes(s: string): Option<Version> {
    ParseSemver(StripVersionTagPrefix(s))
  }

  function Rank(tag: string): Option<nat> {
    if tag == "alpha" then Some(0)
    else if tag == "beta" then Some(1)
    else if tag == "rc" then Some(2)
    else None
  }

  const MAX_SAFE_INTEGER: int := 9007199254740991

  function RankOrMax(tag: string): int {
    match Rank(tag)
    case Some(r) => r
    case None => MAX_SAFE_INTEGER
  }

  /** `String.prototype.localeCompare`, of which only this is used: it orders all tags, that is, strings of
      ASCII letters.  On other strings it can be zero without their being equal. */
  ghost predicate IsCollation(collate: (string, string) -> int) {
    && (forall a, b :: IsTag(a) && IsTag(b) ==>
        (collate(a, b) == 0 <==> a == b) && (collate(a, b) < 0 <==> collate(b, a) > 0))
    && (forall a, b, c :: IsTag(a) && IsTag(b) && IsTag(c) && collate(a, b) < 0 && collate(b, c) < 0 ==>
        collate(a, c) < 0)
  }

  function ComparePrerelease(a: Option<Prerelease>, b: Option<Prerelease>, collate: (string, string) -> int): int {
    match (a, b)
    case (None, None) => 0
    case (None, Some(_)) => 1
    case (Some(_), None) => -1
    case (Some(p), Some(q)) =>
      if p.tag == q.tag then p.number - q.number
      else if RankOrMax(p.tag) != RankOrMax(q.tag) then RankOrMax(p.tag) - RankOrMax(q.tag)
      else collate(p.tag, q.tag)
  }

  function Compare(a: Version, b: Version, collate: (string, string) -> int): int {
    if a.major != b.major then a.major - b.major
    else if a.minor != b.minor then a.minor - b.minor
    else if a.patch != b.patch then a.patch - b.patch
    else ComparePrerelease(a.pre, b.pre, collate)
  }

  /** `compareVersions` on version strings; `None` when one of them cannot be parsed. */
  function CompareVersions(a: string, b: string, collate: (string, string) -> int): Option<int> {
    match (Denotes(a), Denotes(b))
    case (Some(v), Some(w)) => Some(Compare(v, w, collate))
    case _ => None
  }

  lemma PrereleaseOrder(a: Version, b: Version, c: Version, collate: (string, string) -> int)
    requires IsCollation(collate) && IsVersion(a) && IsVersion(b) && IsVersion(c)
    ensures ComparePrerelease(a.pre, b.pre, collate) == 0 <==> a.pre == b.pre
    ensures ComparePrerelease(a.pre, b.pre, collate) < 0 <==> ComparePrerelease(b.pre, a.pre, collate) > 0
    ensures ComparePrerelease(a.pre, b.pre, collate) < 0 && ComparePrerelease(b.pre, c.pre, collate) < 0 ==>
              ComparePrerelease(a.pre, c.pre, collate) < 0
  {
    if a.pre.Some? && b.pre.Some? {
      var p, q := a.pre.value.tag, b.pre.value.tag;
      assert (collate(p, q) == 0 <==> p == q) && (collate(p, q) < 0 <==> collate(q, p) > 0);
      if c.pre.Some? {
        var r := c.pre.value.tag;
        hide IsTag;
        assert collate(p, q) < 0 && collate(q, r) < 0 ==> collate(p, r) < 0;
        assert (collate(p, r) == 0 <==> p == r) && (collate(q, r) == 0 <==> q == r);
        assert (collate(q, p) < 0 <==> collate(p, q) > 0) && (collate(r, q) < 0 <==> collate(q, r) > 0);
      }
    }
  }

  /** A total order on versions, zero only on equal ones. */
  lemma TotalOrder(a: Version, b: Version, c: Version, collate: (string, string) -> int)
    requires IsCollation(collate) && IsVersion(a) && IsVersion(b) && IsVersion(c)
    ensures Compare(a, b, collate) == 0 <==> a == b
    ensures Compare(a, b, collate) < 0 <==> Compare(b, a, collate) > 0
    ensures Compare(a, b, collate) < 0 && Compare(b, c, collate) < 0 ==> Compare(a, c, collate) < 0
  {
    hide ComparePrerelease, IsCollation, IsVersion;
    PrereleaseOrder(a, b, c, collate);
  }

  /** `compareVersions` orders all strings that denote versions, and is zero only if they denote the same one. */
  lemma StringsAreOrdered(a: string, b: string, c: string, collate: (string, string) -> int)
    requires IsCollation(collate) && Denotes(a).Some? && Denotes(b).Some? && Denotes(c).Some?
    ensures var ab, ba, bc, ac := CompareVersions(a, b, collate), CompareVersions(b, a, collate),
                                  CompareVersions(b, c, collate), CompareVersions(a, c, collate);
      && ab.Some? && ba.Some? && bc.Some? && ac.Some?
      && (ab.value == 0 <==> Denotes(a) == Denotes(b))
      && (ab.value < 0 <==> ba.value > 0)
      && (ab.value < 0 && bc.value < 0 ==> ac.value < 0)
  {
    hide ParseSemver, Compare, IsCollation, IsVersion;
    ParsedIsVersion(StripVersionTagPrefix(a));
    ParsedIsVersion(StripVersionTagPrefix(b));
    ParsedIsVersion(StripVersionTagPrefix(c));
    TotalOrder(Denotes(a).value, Denotes(b).value, Denotes(c).value, collate);
  }

  // ---------- precedence ----------

  function ChannelRank(tag: string): int {
    if tag == "alpha" then 0 else if tag == "beta" then 1 else 2
  }

  /** What decides the precedence of a version, the most important first. */
  function PrecedenceKey(v: Version): (key: seq<int>)
    ensures |key| == 5
  {
    [v.major, v.minor, v.patch] + match v.pre
                                  case None => [3, 0]
                                  case Some(p) => [ChannelRank(p.tag), p.number]
  }

  predicate LexicographicallyLess(a: seq<int>, b: seq<int>)
    requires |a| == |b|
  {
    a != [] && (a[0] < b[0] || (a[0] == b[0] && LexicographicallyLess(a[1..], b[1..])))
  }

  predicate OnAChannel(v: Version) {
    v.pre.Some? ==> v.pre.value.tag == "alpha" || v.pre.value.tag == "beta" || v.pre.value.tag == "rc"
  }

  lemma FiveDecide(k: seq<int>, l: seq<int>)
    requires |k| == |l| == 5
    ensures LexicographicallyLess(k, l) <==>
            || k[0] < l[0]
            || (k[0] == l[0] && (k[1] < l[1] || (k[1] == l[1] && (k[2] < l[2] || (k[2] == l[2] &&
                  (k[3] < l[3] || (k[3] == l[3] && k[4] < l[4])))))))
  {
    assert k[1..][1..] == k[2..] && k[2..][1..] == k[3..] && k[3..][1..] == k[4..];
    assert l[1..][1..] == l[2..] && l[2..][1..] == l[3..] && l[3..][1..] == l[4..];
    assert k[4..][1..] == [] == l[4..][1..];
    assert LexicographicallyLess(k[4..], l[4..]) <==> k[4] < l[4];
    assert LexicographicallyLess(k[3..], l[3..]) <==> k[3] < l[3] || (k[3] == l[3] && k[4] < l[4]);
    assert LexicographicallyLess(k[2..], l[2..]) <==>
        k[2] < l[2] || (k[2] == l[2] && LexicographicallyLess(k[3..], l[3..]));
  }

  lemma KeysDecide(a: Version, b: Version, collate: (string, string) -> int)
    requires OnAChannel(a) && OnAChannel(b)
    ensures Compare(a, b, collate) < 0 <==> LexicographicallyLess(PrecedenceKey(a), PrecedenceKey(b))
  {
    var k, l := PrecedenceKey(a), PrecedenceKey(b);
    FiveDecide(k, l);
    hide LexicographicallyLess;
    assert "alpha"[0] == 'a' && "beta"[0] == 'b' && "rc"[0] == 'r';
  }

  /** Precedence as in section 11 of Semantic Versioning 2.0.0: the numbers first, then a stable version
      above its prereleases, then alpha, beta and rc, then the prerelease number. */
  lemma Precedence(a: Version, b: Version, collate: (string, string) -> int)
    requires OnAChannel(a) && OnAChannel(b)
    ensures var c := CompareVersions(FormatVersion(a), FormatVersion(b), collate);
      c.Some? && (c.value < 0 <==> LexicographicallyLess(PrecedenceKey(a), PrecedenceKey(b)))
  {
    hide FormatVersion, ParseSemver;
    ParseOfFormat(a);
    ParseOfFormat(b);
    NoPrefix(a);
    NoPrefix(b);
    KeysDecide(a, b, collate);
  }

  /** A tag of another name comes after alpha, beta and rc, and below the stable version; two such tags are ordered
      by collation, and equal tags by their number. */
  lemma OtherTagsAfter(core: Version, p: Prerelease, q: Prerelease, collate: (string, string) -> int)
    requires core.pre.None? && p.tag !in {"alpha", "beta", "rc"}
    ensures var a, b := core.(pre := Some(p)), core.(pre := Some(q));
      && Compare(a, core, collate) < 0 < Compare(core, a, collate)
      && (q.tag in {"alpha", "beta", "rc"} ==> Compare(b, a, collate) < 0 < Compare(a, b, collate))
      && (q.tag !in {"alpha", "beta", "rc"} && q.tag != p.tag ==> Compare(a, b, collate) == collate(p.tag, q.tag))
      && (q.tag == p.tag ==> Compare(a, b, collate) == p.number - q.number)
  {
  }

  /** The prefix of a release's tag makes no difference. */
  lemma TagPrefixIgnored(v: Version, w: Version, collate: (string, string) -> int)
    requires IsVersion(v) && IsVersion(w)
    ensures Denotes("v" + FormatVersion(v)) == Denotes(FormatVersion(v)) == Some(v)
    ensures CompareVersions("v" + FormatVersion(v), FormatVersion(w), collate) == Some(Compare(v, w, collate))
  {
    hide ParseSemver, FormatVersion;
    ParseOfFormat(v);
    ParseOfFormat(w);
    NoPrefix(v);
    NoPrefix(w);
    assert ("v" + FormatVersion(v))[1..] == FormatVersion(v);
  }

  // ---------- selection ----------

  datatype Release = Release(tagName: string, isDraft: bool, publishedAt: Option<string>)

  predicate IsPublished(r: Release) {
    !r.isDraft && r.publishedAt.Some? && r.publishedAt.value != ""
  }

  function VersionOf(r: Release): Option<Version> {
    Denotes(r.tagName)
  }

  predicate IsCandidate(r: Release, current: Version, collate: (string, string) -> int)
    requires VersionOf(r).Some?
  {
    Compare(VersionOf(r).value, current, collate) < 0 && (current.pre.None? ==> VersionOf(r).value.pre.None?)
  }

  /** The published candidates in the order of the list. */
  function Candidates(releases: seq<Release>, current: Version, collate: (string, string) -> int): (r: seq<Release>)
    requires forall x :: x in releases && IsPublished(x) ==> VersionOf(x).Some?
    ensures forall x :: x in r <==> x in releases && IsPublished(x) && IsCandidate(x, current, collate)
  {
    if releases == [] then []
    else
      assert forall x :: x in releases <==> x == releases[0] || x in releases[1..];
      (if IsPublished(releases[0]) && IsCandidate(releases[0], current, collate) then [releases[0]] else [])
      + Candidates(releases[1..], current, collate)
  }

  /** The head of the list after a stable descending sort: the first of the greatest. */
  function Head(candidates: seq<Release>, collate: (string, string) -> int): (r: Release)
    requires candidates != [] && forall x :: x in candidates ==> VersionOf(x).Some?
    ensures r in candidates
  {
    if |candidates| == 1 then candidates[0]
    else
      var rest := Head(candidates[1..], collate);
      if Compare(VersionOf(rest).value, VersionOf(candidates[0]).value, collate) > 0 then rest else candidates[0]
  }

  datatype Selection = Throws | Selected(release: Option<Release>)

  function SelectPreviousPublishedRelease(releases: seq<Release>, currentVersion: string,
                                          collate: (string, string) -> int)
    : Selection
  {
    match Denotes(currentVersion)
    case None => Throws
    case Some(current) =>
      if exists x :: x in releases && IsPublished(x) && VersionOf(x).None? then Throws
      else
        var candidates := Candidates(releases, current, collate);
        Selected(if candidates == [] then None else Some(Head(candidates, collate)))
  }

  lemma ReleaseIsVersion(r: Release)
    requires VersionOf(r).Some?
    ensures IsVersion(VersionOf(r).value)
  {
    ParsedIsVersion(StripVersionTagPrefix(r.tagName));
  }

  lemma {:induction false} HeadIsGreatest(candidates: seq<Release>, collate: (string, string) -> int, x: Release)
    requires IsCollation(collate) && x in candidates && forall y :: y in candidates ==> VersionOf(y).Some?
    ensures Compare(VersionOf(Head(candidates, collate)).value, VersionOf(x).value, collate) >= 0
  {
    hide Compare, IsCollation, IsVersion, VersionOf;
    ReleaseIsVersion(candidates[0]);
    ReleaseIsVersion(x);
    var first := VersionOf(candidates[0]).value;
    if |candidates| > 1 {
      var head := VersionOf(Head(candidates[1..], collate)).value;
      ReleaseIsVersion(Head(candidates[1..], collate));
      var v := VersionOf(x).value;
      if x in candidates[1..] {
        HeadIsGreatest(candidates[1..], collate, x);
      }
      TotalOrder(head, first, v, collate);
      TotalOrder(first, head, v, collate);
      TotalOrder(v, head, first, collate);
      TotalOrder(head, v, first, collate);
      TotalOrder(v, first, head, collate);
      TotalOrder(first, first, first, collate);
    } else {
      TotalOrder(first, first, first, collate);
    }
  }

  /** A release that counts: not a draft, published at some time, below the current version, and stable if that is. */
  ghost predicate Qualifies(r: Release, current: Version, collate: (string, string) -> int) {
    && !r.isDraft && r.publishedAt.Some? && r.publishedAt.value != ""
    && Denotes(r.tagName).Some? && Compare(Denotes(r.tagName).value, current, collate) < 0
    && (current.pre.None? ==> Denotes(r.tagName).value.pre.None?)
  }

  /** The selection throws exactly if the current version, or the tag of a published release, is none. */
  lemma SelectionThrowsExactly(releases: seq<Release>, currentVersion: string, collate: (string, string) -> int)
    ensures SelectPreviousPublishedRelease(releases, currentVersion, collate) == Throws <==>
            || Denotes(currentVersion).None?
            || exists r :: r in releases && !r.isDraft && r.publishedAt.Some? && r.publishedAt.value != ""
                           && Denotes(r.tagName).None?
  {
    hide ParseSemver, Compare, Head, Candidates;
  }

  /** The tags of both are versions, and the first one's is smaller. */
  ghost predicate IsSmaller(x: Release, y: Release, collate: (string, string) -> int) {
    && Denotes(x.tagName).Some? && Denotes(y.tagName).Some?
    && Compare(Denotes(x.tagName).value, Denotes(y.tagName).value, collate) < 0
  }

  lemma NotSmaller(x: Release, y: Release, collate: (string, string) -> int)
    requires IsCollation(collate) && VersionOf(x).Some? && VersionOf(y).Some?
    ensures Compare(VersionOf(x).value, VersionOf(y).value, collate) > 0 <==> IsSmaller(y, x, collate)
  {
    hide Compare, IsCollation, IsVersion, ParseSemver;
    ReleaseIsVersion(x);
    ReleaseIsVersion(y);
    TotalOrder(VersionOf(y).value, VersionOf(x).value, VersionOf(x).value, collate);
  }

  lemma {:induction false} HeadIsFirst(candidates: seq<Release>, collate: (string, string) -> int) returns (i: nat)
    requires IsCollation(collate) && candidates != [] && forall y :: y in candidates ==> VersionOf(y).Some?
    ensures i < |candidates| && candidates[i] == Head(candidates, collate)
    ensures forall j :: 0 <= j < i ==> IsSmaller(candidates[j], candidates[i], collate)
  {
    hide Compare, IsCollation, VersionOf, IsSmaller;
    i := 0;
    if |candidates| > 1 {
      var k := HeadIsFirst(candidates[1..], collate);
      NotSmaller(candidates[1..][k], candidates[0], collate);
      if IsSmaller(candidates[0], candidates[1..][k], collate) {
        i := k + 1;
        assert forall j :: 1 <= j < i ==> candidates[j] == candidates[1..][j - 1];
      }
    }
  }

  lemma QualifiesExactly(r: Release, current: Version, collate: (string, string) -> int)
    requires IsPublished(r) ==> VersionOf(r).Some?
    ensures Qualifies(r, current, collate) <==> IsPublished(r) && IsCandidate(r, current, collate)
  {
    hide ParseSemver, Compare;
  }

  lemma CandidatesStep(releases: seq<Release>, current: Version, collate: (string, string) -> int)
    requires forall x :: x in releases && IsPublished(x) ==> VersionOf(x).Some?
    requires releases != []
    ensures Candidates(releases, current, collate) ==
            (if Qualifies(releases[0], current, collate) then [releases[0]] else [])
            + Candidates(releases[1..], current, collate)
  {
    hide VersionOf, IsCandidate, IsPublished, Qualifies;
    assert releases[0] in releases;
    QualifiesExactly(releases[0], current, collate);
  }

  /** `x` is at `i`, and those that qualify before it are among `seen`. */
  ghost predicate FoundAt(releases: seq<Release>, i: nat, x: Release, seen: seq<Release>, current: Version,
                          collate: (string, string) -> int)
  {
    && i < |releases| && releases[i] == x
    && forall j :: 0 <= j < i && Qualifies(releases[j], current, collate) ==> releases[j] in seen
  }

  lemma FoundLater(releases: seq<Release>, i: nat, x: Release, seen: seq<Release>, current: Version,
                   collate: (string, string) -> int)
    requires releases != [] && FoundAt(releases[1..], i, x, seen, current, collate)
    ensures FoundAt(releases, i + 1, x, if Qualifies(releases[0], current, collate) then [releases[0]] + seen else seen,
                    current, collate)
  {
    hide Qualifies;
    forall j | 0 < j < i + 1 && Qualifies(releases[j], current, collate)
      ensures releases[j] in seen
    {
      assert releases[1..][j - 1] == releases[j];
    }
  }

  lemma FoundFirst(releases: seq<Release>, seen: seq<Release>, current: Version, collate: (string, string) -> int)
    requires releases != []
    ensures FoundAt(releases, 0, releases[0], seen, current, collate)
  {
  }

  /** The place of a candidate in the list. */
  lemma {:induction false} CandidateAt(releases: seq<Release>, current: Version, collate: (string, string) -> int,
                                       k: nat)
    returns (i: nat)
    requires forall x :: x in releases && IsPublished(x) ==> VersionOf(x).Some?
    requires k < |Candidates(releases, current, collate)|
    ensures var c := Candidates(releases, current, collate); FoundAt(releases, i, c[k], c[..k], current, collate)
  {
    CandidatesStep(releases, current, collate);
    var c, rest := Candidates(releases, current, collate), Candidates(releases[1..], current, collate);
    hide VersionOf, IsPublished, Qualifies, Candidates, FoundAt;
    if !Qualifies(releases[0], current, collate) {
      assert c == rest;
      i := CandidateAt(releases[1..], current, collate, k);
      FoundLater(releases, i, rest[k], rest[..k], current, collate);
      i := i + 1;
    } else if k == 0 {
      i := 0;
      FoundFirst(releases, c[..0], current, collate);
    } else {
      assert c[..k] == [releases[0]] + rest[..k - 1];
      i := CandidateAt(releases[1..], current, collate, k - 1);
      FoundLater(releases, i, rest[k - 1], rest[..k - 1], current, collate);
      i := i + 1;
    }
  }

  /** Of several releases of the same version, the first one in the list is selected. */
  lemma SelectionIsFirst(releases: seq<Release>, currentVersion: string, collate: (string, string) -> int,
                         current: Version) returns (i: nat)
    requires IsCollation(collate) && Denotes(currentVersion) == Some(current)
    requires var s := SelectPreviousPublishedRelease(releases, currentVersion, collate);
      s.Selected? && s.release.Some?
    ensures i < |releases|
    ensures SelectPreviousPublishedRelease(releases, currentVersion, collate) == Selected(Some(releases[i]))
    ensures forall j :: 0 <= j < i && Qualifies(releases[j], current, collate) ==>
              IsSmaller(releases[j], releases[i], collate)
  {
    var c := Candidates(releases, current, collate);
    hide Compare, IsCollation, VersionOf, Head, Qualifies, IsPublished, IsCandidate, Denotes, IsSmaller, Candidates;
    var k := HeadIsFirst(c, collate);
    i := CandidateAt(releases, current, collate, k);
  }

  /** The selected release is published, below the current version, stable for a stable current version,
      and no smaller than any other such release; there is none exactly if nothing qualifies. */
  lemma SelectionIsGreatest(releases: seq<Release>, currentVersion: string, collate: (string, string) -> int,
                            current: Version)
    requires IsCollation(collate)
    requires Denotes(currentVersion) == Some(current)
    requires forall x :: x in releases && IsPublished(x) ==> VersionOf(x).Some?
    ensures var s := SelectPreviousPublishedRelease(releases, currentVersion, collate);
      && s.Selected?
      && (s.release.None? <==> forall x :: x in releases ==> !Qualifies(x, current, collate))
      && (s.release.Some? ==>
            && s.release.value in releases && Qualifies(s.release.value, current, collate)
            && forall x :: x in releases && Qualifies(x, current, collate) ==>
                 Compare(Denotes(s.release.value.tagName).value, Denotes(x.tagName).value, collate) >= 0)
  {
    hide ParseSemver, Compare, Head;
    var candidates := Candidates(releases, current, collate);
    if candidates == [] {
      assert forall x :: x !in candidates;
    } else {
      assert candidates[0] in candidates;
      forall x | x in releases && IsPublished(x) && IsCandidate(x, current, collate)
        ensures Compare(VersionOf(Head(candidates, collate)).value, VersionOf(x).value, collate) >= 0
      {
        HeadIsGreatest(candidates, collate, x);
      }
    }
  }

  // ---------- bumping ----------

  predicate IsBumpType(kind: string) {
    kind == "patch" || kind == "minor" || kind == "major"
  }

  predicate IsChannel(channel: string) {
    channel == "stable" || channel == "alpha" || channel == "beta" || channel == "rc"
  }

  function Bumped(v: Version, kind: string, channel: string): Option<Version> {
    var stable := channel == "stable";
    if stable && v.pre.Some? then Some(v.(pre := None))
    else if !stable && v.pre.Some? && v.pre.value.tag == channel then
      Some(v.(pre := Some(Prerelease(channel, v.pre.value.number + 1))))
    else if !stable && v.pre.None? && kind == "patch" then Some(v.(pre := Some(Prerelease(channel, 1))))
    else
      var pre := if stable then None else Some(Prerelease(channel, 1));
      if kind == "major" then Some(Version(v.major + 1, 0, 0, pre))
      else if kind == "minor" then Some(Version(v.major, v.minor + 1, 0, pre))
      else if kind == "patch" then Some(Version(v.major, v.minor, v.patch + 1, pre))
      else None
  }

  /** The source's function, which edits the parsed version field by field; `None` is an exception. */
  method BumpVersion(currentVersion: string, kind: string, channel: string) returns (r: Option<string>)
    ensures r == match ParseSemver(currentVersion)
                 case None => None
                 case Some(v) =>
                   if Bumped(v, kind, channel).Some? then Some(FormatVersion(Bumped(v, kind, channel).value))
                   else None
  {
    hide ParseSemver, FormatVersion;
    var parsed := ParseSemver(currentVersion);
    if parsed == None {
      return None;
    }
    var ver := parsed.value;
    var isStable := channel == "stable";
    if isStable && ver.pre.Some? {
      ver := ver.(pre := None);
      return Some(FormatVersion(ver));
    }
    if !isStable && ver.pre.Some? && ver.pre.value.tag == channel {
      ver := ver.(pre := Some(ver.pre.value.(number := ver.pre.value.number + 1)));
      return Some(FormatVersion(ver));
    }
    if !isStable && ver.pre.None? && kind == "patch" {
      ver := ver.(pre := Some(Prerelease(channel, 1)));
      return Some(FormatVersion(ver));
    }
    if kind == "major" {
      ver := ver.(major := ver.major + 1);
      ver := ver.(minor := 0);
      ver := ver.(patch := 0);
    } else if kind == "minor" {
      ver := ver.(minor := ver.minor + 1);
      ver := ver.(patch := 0);
    } else if kind == "patch" {
      ver := ver.(patch := ver.patch + 1);
    } else {
      return None;
    }
    if !isStable {
      ver := ver.(pre := Some(Prerelease(channel, 1)));
    } else {
      ver := ver.(pre := None);
    }
    return Some(FormatVersion(ver));
  }

  /** A patch bump of a stable version into a prerelease channel: the one case that goes down. */
  predicate OpensPrerelease(v: Version, kind: string, channel: string) {
    v.pre.None? && kind == "patch" && channel != "stable"
  }

  lemma ChannelsAreTags(channel: string)
    requires IsChannel(channel)
    ensures IsTag(channel)
  {
  }

  /**
   * For valid arguments the bumped version parses back, and is strictly greater exactly unless a
   * stable version is patch-bumped into a prerelease: then it keeps the numbers and is strictly smaller.
   */
  lemma BumpGoesUpExactly(currentVersion: string, kind: string, channel: string, v: Version,
                          collate: (string, string) -> int)
    requires ParseSemver(currentVersion) == Some(v) && IsBumpType(kind) && IsChannel(channel) && IsCollation(collate)
    ensures Bumped(v, kind, channel).Some?
    ensures var w := Bumped(v, kind, channel).value;
      && ParseSemver(FormatVersion(w)) == Some(w)
      && (Compare(w, v, collate) > 0 <==> !OpensPrerelease(v, kind, channel))
      && (v.pre.None? && kind == "patch" && channel != "stable" ==>
            w == v.(pre := Some(Prerelease(channel, 1))) && Compare(w, v, collate) < 0)
  {
    hide ParseSemver, FormatVersion;
    ParsedIsVersion(currentVersion);
    ChannelsAreTags(channel);
    ParseOfFormat(Bumped(v, kind, channel).value);
  }

  /** A bump is refused exactly if the version cannot be read, or if the kind of bump is unknown and matters: it does
      not when a prerelease becomes stable or goes on on its channel. */
  lemma BumpRefusedExactly(v: Version, kind: string, channel: string)
    ensures Bumped(v, kind, channel).None? <==>
            && kind != "patch" && kind != "minor" && kind != "major"
            && !(v.pre.Some? && (channel == "stable" || v.pre.value.tag == channel))
  {
  }

  /** The versions a bump may lead to: on the channel, and above `v` in the respect the bump names. */
  predicate IsTarget(v: Version, kind: string, channel: string, u: Version, collate: (string, string) -> int) {
    && (if channel == "stable" then u.pre.None?
        else u.pre.Some? && u.pre.value.tag == channel && u.pre.value.number >= 1)
    && (if v.pre.Some? && (channel == "stable" || v.pre.value.tag == channel) then Compare(u, v, collate) > 0
        else if kind == "major" then u.major > v.major
        else if kind == "minor" then u.major > v.major || (u.major == v.major && u.minor > v.minor)
        else Compare(u.(pre := None), v.(pre := None), collate) > 0)
  }

  /** Wherever a bump goes up it skips nothing: it leads to the least version it may lead to. */
  lemma BumpIsLeast(currentVersion: string, v: Version, kind: string, channel: string, u: Version,
                    collate: (string, string) -> int)
    requires ParseSemver(currentVersion) == Some(v)
    requires IsBumpType(kind) && IsChannel(channel) && IsCollation(collate) && !OpensPrerelease(v, kind, channel)
    ensures var w := Bumped(v, kind, channel).value;
      IsTarget(v, kind, channel, w, collate) && (IsTarget(v, kind, channel, u, collate) ==> Compare(w, u, collate) <= 0)
  {
    hide ParseSemver;
    ParsedIsVersion(currentVersion);
  }

  /** The one case that goes down, on an example. */
  lemma PatchBumpGoesDown(collate: (string, string) -> int)
    ensures var v, w := Version(1, 2, 3, None), Version(1, 2, 3, Some(Prerelease("alpha", 1)));
      && Bumped(v, "patch", "alpha") == Some(w)
      && CompareVersions(FormatVersion(w), FormatVersion(v), collate) == Some(-1)
  {
    hide FormatVersion, ParseSemver;
    var v, w := Version(1, 2, 3, None), Version(1, 2, 3, Some(Prerelease("alpha", 1)));
    assert IsTag("alpha");
    ParseOfFormat(v);
    ParseOfFormat(w);
    NoPrefix(v);
    NoPrefix(w);
  }
}
