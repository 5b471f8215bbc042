/**
 * The major.minor label of the version string: `re.match(r'^(v[0-9]+\.[0-9]+)', version).group(1)`,
 * with the one pattern written out by hand instead of a regular-expression engine.
 */
module VersionLabel {
  import opened Wrappers
  import opened Decimal

  /** `l` is split at `k` into `v`, digits, `.` at index `k`, digits (both digit runs non-empty). */
  predicate IsLabelSplit(l: string, k: int) {
    2 <= k && k + 2 <= |l| && l[0] == 'v' && l[k] == '.' && AllDigits(l[1..k]) && AllDigits(l[k + 1..])
  }

  /** `l` matches the whole pattern `v[0-9]+\.[0-9]+`. */
  ghost predicate IsLabel(l: string) {
    exists k :: IsLabelSplit(l, k)
  }

  /** Length of the maximal run of digits at the start of `s` (a greedy `[0-9]*`). */
  function LeadingDigits(s: string): (n: nat)
    ensures n <= |s|
    ensures AllDigits(s[..n])
    ensures n < |s| ==> !IsDigit(s[n])
  {
    if s != [] && IsDigit(s[0]) then 1 + LeadingDigits(s[1..]) else 0
  }

  /**
   * `major_minor`: the prefix `v<digits>.<digits>` of the version, each digit run as long as
   * possible, or `None` where `re.match` finds no match.
   */
  function MajorMinor(version: string): (r: Option<string>)
    ensures r.Some? ==> r.value <= version && IsLabel(r.value)
  {
    if |version| == 0 || version[0] != 'v' then None
    else
      var m := LeadingDigits(version[1..]);
      if m == 0 || 1 + m >= |version| || version[1 + m] != '.' then None
      else
        var n := LeadingDigits(version[2 + m..]);
        if n == 0 then None
        else
          var l := version[..2 + m + n];
          assert l[1..1 + m] == version[1..][..m];
          assert l[2 + m..] == version[2 + m..][..n];
          assert IsLabelSplit(l, 1 + m);
          Some(l)
  }

  /** A digit prefix of `s` is no longer than the maximal one. */
  lemma {:induction false} LeadingDigitsBound(s: string, p: nat)
    requires p <= |s| && AllDigits(s[..p])
    ensures p <= LeadingDigits(s)
  {
    if p > 0 {
      assert s[..p][0] == s[0];
      assert s[1..][..p - 1] == s[..p][1..];
      LeadingDigitsBound(s[1..], p - 1);
    }
  }

  /** A digit prefix of `s` followed by a non-digit (or the end) is the maximal one. */
  lemma {:induction false} LeadingDigitsExact(s: string, p: nat)
    requires p <= |s| && AllDigits(s[..p])
    requires p < |s| ==> !IsDigit(s[p])
    ensures LeadingDigits(s) == p
  {
    if p > 0 {
      assert s[..p][0] == s[0];
      assert s[1..][..p - 1] == s[..p][1..];
      LeadingDigitsExact(s[1..], p - 1);
    }
  }

  /**
   * The extractor finds the longest prefix of the version that matches the pattern, and
   * fails exactly when no prefix matches.
   */
  lemma MajorMinorLongestMatch(version: string)
    ensures MajorMinor(version).None? <==> forall j :: 0 <= j <= |version| ==> !IsLabel(version[..j])
    ensures MajorMinor(version).Some? ==>
              forall j :: 0 <= j <= |version| && IsLabel(version[..j]) ==> j <= |MajorMinor(version).value|
  {
    forall j | 0 <= j <= |version| && IsLabel(version[..j])
      ensures MajorMinor(version).Some? && j <= |MajorMinor(version).value|
    {
      var l := version[..j];
      var k :| IsLabelSplit(l, k);
      var w := version[1..];
      assert l[1..k] == w[..k - 1];
      LeadingDigitsExact(w, k - 1);
      var u := version[k + 1..];
      assert l[k + 1..] == u[..j - k - 1];
      LeadingDigitsBound(u, j - k - 1);
    }
  }

  /** A label is its own major.minor label; in particular the extractor is idempotent. */
  lemma LabelExtractsItself(l: string)
    requires IsLabel(l)
    ensures MajorMinor(l) == Some(l)
  {
    assert l[..|l|] == l;
    MajorMinorLongestMatch(l);
  }

  lemma MajorMinorIdempotent(version: string)
    requires MajorMinor(version).Some?
    ensures MajorMinor(MajorMinor(version).value) == MajorMinor(version)
  {
    LabelExtractsItself(MajorMinor(version).value);
  }

  /** The extractor in terms of the two digit runs it measures. */
  lemma MajorMinorOfRuns(version: string, m: nat, n: nat)
    requires |version| > 1 + m && version[0] == 'v' && version[1 + m] == '.'
    requires 0 < m == LeadingDigits(version[1..])
    requires 0 < n == LeadingDigits(version[2 + m..])
    ensures MajorMinor(version) == Some(version[..2 + m + n])
  {
  }

  /**
   * A version `v<digits>.<digits>` followed by anything that does not start with a digit
   * (`.<patch>`, `-beta1`, nothing) has exactly `v<digits>.<digits>` as its label.
   */
  lemma MajorMinorOfDigits(major: string, minor: string, rest: string)
    requires |major| > 0 && AllDigits(major) && |minor| > 0 && AllDigits(minor)
    requires rest == [] || !IsDigit(rest[0])
    ensures MajorMinor("v" + major + "." + minor + rest) == Some("v" + major + "." + minor)
  {
    var mm := "v" + major + "." + minor;
    var version := mm + rest;
    var m, n := |major|, |minor|;
    var w := version[1..];
    assert w == major + "." + minor + rest;
    assert w[..m] == major;
    LeadingDigitsExact(w, m);
    var u := version[2 + m..];
    assert u == minor + rest;
    assert u[..n] == minor;
    LeadingDigitsExact(u, n);
    MajorMinorOfRuns(version, m, n);
    assert version[..2 + m + n] == mm;
  }

  /** For a version `v<M>.<N>` followed by a non-digit or nothing, the label is `v<M>.<N>`. */
  lemma MajorMinorOfRelease(major: nat, minor: nat, rest: string)
    requires rest == [] || !IsDigit(rest[0])
    ensures MajorMinor("v" + NatToDecimal(major) + "." + NatToDecimal(minor) + rest)
         == Some("v" + NatToDecimal(major) + "." + NatToDecimal(minor))
  {
    MajorMinorOfDigits(NatToDecimal(major), NatToDecimal(minor), rest);
  }

  /** `v<M>.<N>.<P>` yields `v<M>.<N>`. */
  lemma MajorMinorOfSemanticVersion(major: nat, minor: nat, patch: nat)
    ensures MajorMinor("v" + NatToDecimal(major) + "." + NatToDecimal(minor) + "." + NatToDecimal(patch))
         == Some("v" + NatToDecimal(major) + "." + NatToDecimal(minor))
  {
    var s := "v" + NatToDecimal(major) + "." + NatToDecimal(minor);
    assert s + "." + NatToDecimal(patch) == s + ("." + NatToDecimal(patch));
    MajorMinorOfRelease(major, minor, "." + NatToDecimal(patch));
  }

  /** The configured version and inputs without a leading `v<digits>.<digits>`. */
  lemma MajorMinorExamples()
    ensures MajorMinor("v2.13.3") == Some("v2.13")
    ensures MajorMinor("2.13.3") == None
    ensures MajorMinor("v.1") == None
    ensures MajorMinor("version2") == None
    ensures MajorMinor("v2.") == None
    ensures MajorMinor("") == None
  {
    assert NatToDecimal(2) == "2" && NatToDecimal(13) == "13" && NatToDecimal(3) == "3";
    MajorMinorOfSemanticVersion(2, 13, 3);
    assert "v" + "2" + "." + "13" + "." + "3" == "v2.13.3";
    assert "v" + "2" + "." + "13" == "v2.13";
  }
}
