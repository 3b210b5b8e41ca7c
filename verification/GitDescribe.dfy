/** Rewriting `git describe` output into a version string. */
module GitDescribe {
  import opened Strings

  const DIRTY := "-dirty"

  function DirtyMark(dirty: bool): string {
    if dirty then DIRTY else ""
  }

  function StripDirty(describe: string): string {
    if EndsWith(describe, DIRTY) then describe[..|describe| - |DIRTY|] else describe
  }

  function StripG(s: string): string {
    if s != "" && s[0] == 'g' then s[1..] else s
  }

  predicate HexDigit(c: char) {
    AsciiDigit(c) || 'a' <= c <= 'f' || 'A' <= c <= 'F'
  }

  predicate LooksLikeSha(s: string) {
    |StripG(s)| >= 7 && forall c | c in StripG(s) :: HexDigit(c)
  }

  predicate Digits(s: string) {
    s != "" && forall c | c in s :: AsciiDigit(c)
  }

  function Decimal(s: string): nat
    requires forall c | c in s :: AsciiDigit(c)
  {
    if s == "" then 0
    else
      assert AsciiDigit(s[|s| - 1]);
      10 * Decimal(s[..|s| - 1]) + (s[|s| - 1] as int - '0' as int)
  }

  const U64_MAX := 0xFFFF_FFFF_FFFF_FFFF

  /** `parse::<u64>().is_ok()`: digits, after at most one plus sign, without overflow. */
  predicate ParsesAsU64(s: string) {
    var digits := if s != "" && s[0] == '+' then s[1..] else s;
    Digits(digits) && Decimal(digits) <= U64_MAX
  }

  function TrimV(s: string): string {
    if s != "" && s[0] == 'v' then TrimV(s[1..]) else s
  }

  /** Whether the last two of at least three dash-separated parts are a distance and a commit. */
  predicate HasDistance(parts: seq<string>) {
    |parts| >= 3 && ParsesAsU64(parts[|parts| - 2]) && LooksLikeSha(parts[|parts| - 1])
  }

  /** Everything after the plus sign of a rewritten describe. */
  function Tail(dist: string, sha: string, dirty: bool): string {
    dist + "." + ("g" + StripG(sha) + DirtyMark(dirty))
  }

  /** `format_human_version` after the dirty suffix is off the describe output. */
  function FormatClean(pkgVer: string, describe: string, dirty: bool): string {
    var parts := Split(describe, '-');
    var n := |parts|;
    if HasDistance(parts) then Join(parts[..n - 2], '-') + "+" + Tail(parts[n - 2], parts[n - 1], dirty)
    else if LooksLikeSha(describe) then "0.0.0+g" + StripG(describe) + DirtyMark(dirty)
    else if TrimV(describe) == pkgVer then "v" + TrimV(describe) + DirtyMark(dirty)
    else describe + DirtyMark(dirty)
  }

  /** `format_human_version`. */
  function FormatHumanVersion(pkgVer: string, describeInput: string, dirty: bool): string {
    if describeInput == "" then pkgVer else FormatClean(pkgVer, StripDirty(describeInput), dirty)
  }

  /** The output `git describe` prints away from a tag. */
  function Describe(tag: string, dist: string, sha: string): string {
    tag + "-" + dist + "-" + sha
  }

  function Version(tag: string, dist: string, sha: string, dirty: bool): string {
    tag + "+" + dist + ".g" + StripG(sha) + if dirty then "-dirty" else ""
  }

  lemma VersionIsTail(tag: string, dist: string, sha: string, dirty: bool)
    ensures Version(tag, dist, sha, dirty) == tag + "+" + Tail(dist, sha, dirty)
  {
    var short := StripG(sha) + DirtyMark(dirty);
    assert dist + "." + ("g" + StripG(sha) + DirtyMark(dirty)) == dist + ".g" + short;
    assert tag + "+" + dist + ".g" + StripG(sha) + DirtyMark(dirty) == tag + "+" + (dist + ".g" + short);
  }

  predicate HexDigits(s: string) {
    forall c | c in s :: HexDigit(c)
  }

  /** A commit is seven or more hexadecimal digits, with or without one g in front, which is not part of it. */
  lemma ShaExactly(s: string)
    ensures LooksLikeSha(s) <==> exists h: string :: |h| >= 7 && HexDigits(h) && (s == h || s == "g" + h)
    ensures forall h: string | HexDigits(h) :: StripG(h) == h && StripG("g" + h) == h
  {
    assert s == StripG(s) || s == "g" + StripG(s);
    forall h: string | HexDigits(h) ensures StripG(h) == h && StripG("g" + h) == h {
      assert ("g" + h)[1..] == h;
      assert h != "" ==> h[0] in h;
    }
    if LooksLikeSha(s) { assert HexDigits(StripG(s)); }
  }

  function PowerOfTen(n: nat): nat {
    if n == 0 then 1 else 10 * PowerOfTen(n - 1)
  }

  lemma {:induction false} DecimalBelow(s: string)
    requires forall c | c in s :: AsciiDigit(c)
    ensures Decimal(s) < PowerOfTen(|s|)
  {
    if s != "" {
      assert s[|s| - 1] in s;
      DecimalBelow(s[..|s| - 1]);
    }
  }

  /** Every decimal of up to nineteen digits is a distance, and so is one with a plus sign in front. */
  lemma ShortDistance(s: string)
    requires Digits(s) && |s| <= 19
    ensures ParsesAsU64(s) && ParsesAsU64("+" + s)
  {
    DecimalBelow(s);
    PowersGrow(|s|, 19);
    assert PowerOfTen(19) == 10_000_000_000_000_000_000 by { TenToNineteen(); }
    assert s[0] in s;
    assert ("+" + s)[1..] == s;
  }

  lemma {:induction false} DecimalAtLeast(s: string)
    requires Digits(s) && s[0] != '0'
    ensures Decimal(s) >= PowerOfTen(|s| - 1)
  {
    if |s| > 1 {
      var front := s[..|s| - 1];
      assert front[0] == s[0] && s[|s| - 1] in s;
      assert forall c | c in front :: c in s;
      DecimalAtLeast(front);
    } else {
      assert s[0] in s;
      assert s[..0] == "";
      assert Decimal(s) == 10 * Decimal(s[..0]) + (s[0] as int - '0' as int);
    }
  }

  /** A decimal of more than twenty digits, the first not zero, overflows and is no distance. */
  lemma LongDistance(s: string)
    requires Digits(s) && s[0] != '0' && |s| > 20
    ensures !ParsesAsU64(s)
  {
    DecimalAtLeast(s);
    PowersGrow(20, |s| - 1);
    TenToNineteen();
    assert PowerOfTen(20) == 10 * PowerOfTen(19);
    assert s[0] in s;
  }

  lemma {:induction false} PowersGrow(m: nat, n: nat)
    requires m <= n
    ensures PowerOfTen(m) <= PowerOfTen(n)
  {
    if m < n { PowersGrow(m, n - 1); }
  }

  lemma TenToNineteen()
    ensures PowerOfTen(19) == 10_000_000_000_000_000_000
  {
    assert PowerOfTen(5) == 100_000;
    assert PowerOfTen(10) == 10_000_000_000;
    assert PowerOfTen(15) == 1_000_000_000_000_000;
  }

  lemma ShaEndsInHex(sha: string)
    requires LooksLikeSha(sha)
    ensures '-' !in sha && sha != "" && sha[|sha| - 1] != 'y'
  {
    var short := StripG(sha);
    assert sha[|sha| - 1] == short[|short| - 1] && short[|short| - 1] in short;
    forall c | c in sha ensures c != '-' {
      assert c == 'g' || c in short;
    }
  }

  lemma DistanceHasNoDash(dist: string)
    requires ParsesAsU64(dist)
    ensures '-' !in dist
  {}

  lemma SplitDescribe(tag: string, dist: string, sha: string)
    requires '-' !in dist && '-' !in sha
    ensures Split(Describe(tag, dist, sha), '-') == Split(tag, '-') + [dist, sha]
  {
    SplitAtSeparator(tag + "-" + dist, sha, '-');
    SplitAtSeparator(tag, dist, '-');
    SplitWithoutSeparator(dist, '-');
    SplitWithoutSeparator(sha, '-');
  }

  lemma StripDirtyOnce(s: string)
    ensures StripDirty(s + DIRTY) == s
  {}

  lemma NoDirtyToStrip(s: string)
    requires s != "" && s[|s| - 1] != 'y'
    ensures StripDirty(s) == s
  {}

  lemma FormatOfDescribe(pkgVer: string, tag: string, dist: string, sha: string, describeInput: string, dirty: bool)
    requires ParsesAsU64(dist) && LooksLikeSha(sha)
    requires describeInput != "" && StripDirty(describeInput) == Describe(tag, dist, sha)
    ensures FormatHumanVersion(pkgVer, describeInput, dirty) == Version(tag, dist, sha, dirty)
  {
    ShaEndsInHex(sha);
    DistanceHasNoDash(dist);
    SplitDescribe(tag, dist, sha);
    VersionIsTail(tag, dist, sha, dirty);
    JoinOfSplit(tag, '-');
    var parts := Split(tag, '-') + [dist, sha];
    assert parts[..|parts| - 2] == Split(tag, '-');
  }

  /** `tag-n-gsha` becomes `tag+n.gsha` with the dirty mark, for every tag, dashes included,
      whether or not the describe output itself carries a dirty suffix. */
  lemma DescribeIsRewritten(pkgVer: string, tag: string, dist: string, sha: string, dirty: bool)
    requires ParsesAsU64(dist) && LooksLikeSha(sha)
    ensures FormatHumanVersion(pkgVer, Describe(tag, dist, sha), dirty) == Version(tag, dist, sha, dirty)
    ensures FormatHumanVersion(pkgVer, Describe(tag, dist, sha) + "-dirty", dirty) == Version(tag, dist, sha, dirty)
  {
    ShaEndsInHex(sha);
    NoDirtyToStrip(Describe(tag, dist, sha));
    StripDirtyOnce(Describe(tag, dist, sha));
    FormatOfDescribe(pkgVer, tag, dist, sha, Describe(tag, dist, sha), dirty);
    FormatOfDescribe(pkgVer, tag, dist, sha, Describe(tag, dist, sha) + DIRTY, dirty);
  }

  lemma DescribeHasDistance(tag: string, dist: string, sha: string)
    requires ParsesAsU64(dist) && LooksLikeSha(sha)
    ensures HasDistance(Split(Describe(tag, dist, sha), '-'))
  {
    ShaEndsInHex(sha);
    DistanceHasNoDash(dist);
    SplitDescribe(tag, dist, sha);
  }

  ghost predicate HasDescribeForm(text: string) {
    exists tag, dist, sha :: ParsesAsU64(dist) && LooksLikeSha(sha) && text == Describe(tag, dist, sha)
  }

  /** The rewriting branch is taken exactly for the text of some tag, distance and commit. */
  lemma RewrittenExactly(describe: string)
    ensures HasDistance(Split(describe, '-')) <==> HasDescribeForm(describe)
  {
    if HasDistance(Split(describe, '-')) {
      LastTwoPieces(describe, '-');
      var parts := Split(describe, '-');
      var n := |parts|;
      assert describe == Describe(Join(parts[..n - 2], '-'), parts[n - 2], parts[n - 1]);
    }
    forall tag, dist, sha | ParsesAsU64(dist) && LooksLikeSha(sha) && describe == Describe(tag, dist, sha)
      ensures HasDistance(Split(describe, '-'))
    {
      DescribeHasDistance(tag, dist, sha);
    }
  }

  /** The version determines tag, decimal distance, short commit and dirtiness. */
  lemma VersionDetermines(tag: string, dist: string, sha: string, dirty: bool, tag': string, dist': string,
                          sha': string, dirty': bool)
    requires Digits(dist) && Digits(dist') && LooksLikeSha(sha) && LooksLikeSha(sha')
    requires Version(tag, dist, sha, dirty) == Version(tag', dist', sha', dirty')
    ensures tag == tag' && dist == dist' && StripG(sha) == StripG(sha') && dirty == dirty'
  {
    var rest, rest' := Tail(dist, sha, dirty), Tail(dist', sha', dirty');
    VersionIsTail(tag, dist, sha, dirty);
    VersionIsTail(tag', dist', sha', dirty');
    TailHasNoPlus(dist, sha, dirty);
    TailHasNoPlus(dist', sha', dirty');
    LastSplitUnique(tag, rest, tag', rest', '+');
    TailDetermines(dist, sha, dirty, dist', sha', dirty');
  }

  lemma TailHasNoPlus(dist: string, sha: string, dirty: bool)
    requires Digits(dist) && LooksLikeSha(sha)
    ensures '+' !in Tail(dist, sha, dirty)
  {}

  lemma TailDetermines(dist: string, sha: string, dirty: bool, dist': string, sha': string, dirty': bool)
    requires Digits(dist) && Digits(dist') && LooksLikeSha(sha) && LooksLikeSha(sha')
    requires Tail(dist, sha, dirty) == Tail(dist', sha', dirty')
    ensures dist == dist' && StripG(sha) == StripG(sha') && dirty == dirty'
  {
    var end, end' := "g" + StripG(sha) + DirtyMark(dirty), "g" + StripG(sha') + DirtyMark(dirty');
    assert '.' !in dist && '.' !in dist';
    SplitOnceUnique(dist, end, '.');
    SplitOnceUnique(dist', end', '.');
    assert end == end';
    CommitDetermines(StripG(sha), dirty, StripG(sha'), dirty');
  }

  lemma CommitDetermines(short: string, dirty: bool, short': string, dirty': bool)
    requires (forall c | c in short :: HexDigit(c)) && (forall c | c in short' :: HexDigit(c))
    requires "g" + short + DirtyMark(dirty) == "g" + short' + DirtyMark(dirty')
    ensures short == short' && dirty == dirty'
  {
    var text := short + DirtyMark(dirty);
    var text' := short' + DirtyMark(dirty');
    assert "g" + short + DirtyMark(dirty) == "g" + text && "g" + short' + DirtyMark(dirty') == "g" + text';
    assert text == ("g" + text)[1..] && text' == ("g" + text')[1..];
    DashIsDirt(short, dirty);
    DashIsDirt(short', dirty');
    assert text[..|text| - |DirtyMark(dirty)|] == short && text'[..|text'| - |DirtyMark(dirty')|] == short';
  }

  lemma DashIsDirt(short: string, dirty: bool)
    requires forall c | c in short :: HexDigit(c)
    ensures dirty <==> '-' in short + DirtyMark(dirty)
  {}

  /** A dirty suffix on non-empty describe output never shows: only the flag puts the mark. */
  lemma DirtySuffixIgnored(pkgVer: string, describe: string, dirty: bool)
    requires describe != "" && !EndsWith(describe, DIRTY)
    ensures FormatHumanVersion(pkgVer, describe + DIRTY, dirty) == FormatHumanVersion(pkgVer, describe, dirty)
  {}

  /** The dirty flag adds its mark to the version and does nothing else. */
  lemma DirtyMarkAppended(pkgVer: string, describe: string)
    requires describe != ""
    ensures FormatHumanVersion(pkgVer, describe, true) == FormatHumanVersion(pkgVer, describe, false) + "-dirty"
  {}

  /** A bare commit, as printed without any tag. */
  lemma BareCommit(pkgVer: string, sha: string, dirty: bool)
    requires LooksLikeSha(sha)
    ensures FormatHumanVersion(pkgVer, sha, dirty) == "0.0.0+g" + StripG(sha) + DirtyMark(dirty)
  {
    ShaEndsInHex(sha);
    NoDirtyToStrip(sha);
    SplitWithoutSeparator(sha, '-');
  }

  function Vs(k: nat): string {
    if k == 0 then "" else ['v'] + Vs(k - 1)
  }

  lemma {:induction false} TrimAfterVs(k: nat, rest: string)
    requires rest != "" ==> rest[0] != 'v'
    ensures TrimV(Vs(k) + rest) == rest
  {
    if k == 0 {
      assert Vs(0) + rest == rest;
    } else {
      TrimAfterVs(k - 1, rest);
      assert (Vs(k) + rest)[1..] == Vs(k - 1) + rest;
    }
  }

  /** On the tag of the package's own version, with any number of leading v, the version is that tag with one v. */
  lemma ReleaseTag(pkgVer: string, k: nat, dirty: bool)
    requires pkgVer != "" && pkgVer[0] != 'v' && !EndsWith(Vs(k) + pkgVer, DIRTY)
    requires !HasDistance(Split(Vs(k) + pkgVer, '-')) && !LooksLikeSha(Vs(k) + pkgVer)
    ensures FormatHumanVersion(pkgVer, Vs(k) + pkgVer, dirty) == "v" + pkgVer + DirtyMark(dirty)
  {
    TrimAfterVs(k, pkgVer);
  }

  lemma {:induction false} LeadingVs(text: string)
    ensures var rest := TrimV(text);
            && |rest| <= |text| && text == Vs(|text| - |rest|) + rest
            && (rest == "" || rest[0] != 'v')
  {
    if text != "" && text[0] == 'v' {
      LeadingVs(text[1..]);
      assert text == ['v'] + text[1..];
    } else {
      assert text == Vs(0) + text;
    }
  }

  /** The text is the package's own version behind any number of v. */
  ghost predicate NamesRelease(text: string, pkgVer: string) {
    (pkgVer == "" || pkgVer[0] != 'v') && exists k: nat :: text == Vs(k) + pkgVer
  }

  lemma TrimVExactly(text: string, rest: string)
    ensures TrimV(text) == rest <==> NamesRelease(text, rest)
  {
    LeadingVs(text);
    if NamesRelease(text, rest) {
      var k: nat :| text == Vs(k) + rest;
      TrimAfterVs(k, rest);
    }
  }

  /** Every describe output has one of four forms, and its form alone decides the version: tag, distance and commit;
      else a bare commit; else the package's own tag, shown with one v; else any other text, shown unchanged. */
  lemma VersionForms(pkgVer: string, describe: string, dirty: bool)
    requires describe != ""
    ensures var text, version := StripDirty(describe), FormatHumanVersion(pkgVer, describe, dirty);
            && (forall tag, dist, sha | ParsesAsU64(dist) && LooksLikeSha(sha) && text == Describe(tag, dist, sha) ::
                  version == Version(tag, dist, sha, dirty))
            && (!HasDescribeForm(text) && LooksLikeSha(text) ==> version == "0.0.0+g" + StripG(text) + DirtyMark(dirty))
            && (!HasDescribeForm(text) && !LooksLikeSha(text) ==>
                  version == if NamesRelease(text, pkgVer) then "v" + pkgVer + DirtyMark(dirty)
                             else text + DirtyMark(dirty))
  {
    var text := StripDirty(describe);
    RewrittenExactly(text);
    TrimVExactly(text, pkgVer);
    forall tag, dist, sha | ParsesAsU64(dist) && LooksLikeSha(sha) && text == Describe(tag, dist, sha)
      ensures FormatHumanVersion(pkgVer, describe, dirty) == Version(tag, dist, sha, dirty)
    {
      FormatOfDescribe(pkgVer, tag, dist, sha, describe, dirty);
    }
  }
}
