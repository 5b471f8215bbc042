/**
 * The computed part of the Sphinx configuration of the MusicBrainz Picard User Guide:
 * the settings derived from the version, the current year and the tutorial scan.
 * Loading fails, as the configuration module does when `re.match` returns `None`,
 * if the version has no `v<digits>.<digits>` prefix.
 */
module Conf {
  import opened Wrappers
  import opened Decimal
  import opened VersionLabel
  import opened Copyright
  import opened EpubExcludes

  const Project := "MusicBrainz Picard"
  /** The full version; it must start with a `v`. */
  const Version := "v2.13.3"
  const DefaultLanguage := "en"
  const SupportedLanguages: seq<(string, string)> := [("en", "English"), ("fr", "Français")]

  /** A value of the `html_context` dictionary. */
  datatype ContextValue = Text(text: string) | Languages(languages: seq<(string, string)>)

  datatype Config = Config(
    copyrightYear: string,
    copyright: string,
    release: string,
    majorMinor: string,
    htmlContext: map<string, ContextValue>,
    epubTitle: string,
    epubExcludeFiles: seq<string>)

  /**
   * Loading stops where `.group(1)` is applied to the `None` that `re.match` returned.
   * Python raises an `AttributeError` that does not carry the version; recording the
   * rejected version here is a choice of this model.
   */
  datatype LoadError = NoMajorMinor(version: string)

  const TitlePrefix := Project + " User Guide ("

  /** `f'{project} User Guide ({major_minor})'`. */
  function EpubTitle(majorMinor: string): (t: string)
    ensures |t| == |TitlePrefix| + |majorMinor| + 1
    ensures t[..|TitlePrefix|] == TitlePrefix && t[|t| - 1] == ')'
  {
    TitlePrefix + majorMinor + ")"
  }

  /** The label a title was made from, the inverse of `EpubTitle`. */
  function TitleLabel(t: string): string
    requires |t| > |TitlePrefix|
  {
    t[|TitlePrefix|..|t| - 1]
  }

  lemma EpubTitleRoundTrip(majorMinor: string)
    ensures TitleLabel(EpubTitle(majorMinor)) == majorMinor
  {
    var t := EpubTitle(majorMinor);
    assert t[|TitlePrefix|..|t| - 1] == majorMinor;
  }

  const Holder := ", MetaBrainz Foundation."

  /** `f'{this_year}, MetaBrainz Foundation.'`: the notice names the current year alone. */
  function CopyrightNotice(thisYear: nat): (c: string)
    ensures |c| > |Holder| && c[|c| - |Holder|..] == Holder
    ensures AllDigits(c[..|c| - |Holder|]) && DecimalValue(c[..|c| - |Holder|]) == thisYear
    ensures c[0] == '0' ==> thisYear == 0 && |c| == |Holder| + 1
  {
    var notice := NatToDecimal(thisYear) + Holder;
    assert notice[..|notice| - |Holder|] == NatToDecimal(thisYear);
    DecimalRoundTrip(thisYear);
    notice
  }

  /** The `html_context` dictionary of the HTML theme. */
  function HtmlContext(majorMinor: string, version: string): (c: map<string, ContextValue>)
    ensures c.Keys == {"default_language", "supported_languages", "major_minor", "release"}
    ensures c["major_minor"] == Text(majorMinor) && c["release"] == Text(version)
    ensures c["default_language"] == Text(DefaultLanguage) && c["supported_languages"] == Languages(SupportedLanguages)
  {
    map[
      "default_language" := Text(DefaultLanguage),
      "supported_languages" := Languages(SupportedLanguages),
      "major_minor" := Text(majorMinor),
      "release" := Text(version)]
  }

  /** Loading the configuration module, with the version, the clock's year and the scan as inputs. */
  function LoadConfig(version: string, thisYear: nat, tutorialScan: seq<string>): (r: Result<Config, LoadError>)
    ensures r.Failure? <==> MajorMinor(version).None?
    ensures r.Failure? ==> r.error == NoMajorMinor(version)
    ensures r.Success? ==>
              && r.value.release == version
              && r.value.majorMinor <= version
              && IsLabel(r.value.majorMinor)
              && "major_minor" in r.value.htmlContext && "release" in r.value.htmlContext
              && r.value.htmlContext["major_minor"] == Text(r.value.majorMinor)
              && r.value.htmlContext["release"] == Text(version)
              && |r.value.epubTitle| > |TitlePrefix|
              && TitleLabel(r.value.epubTitle) == r.value.majorMinor
              && |r.value.epubExcludeFiles| >= 5
              && r.value.epubExcludeFiles[..5] == FixedExcludes
              && r.value.epubExcludeFiles == ExcludeFiles(tutorialScan)
              && MajorMinor(version) == Some(r.value.majorMinor)
              && r.value.copyrightYear == CopyrightYear(thisYear)
              && r.value.epubTitle == EpubTitle(r.value.majorMinor)
              && r.value.htmlContext == HtmlContext(r.value.majorMinor, version)
              && CurrentYearOf(r.value.copyrightYear) == Some(thisYear)
              && r.value.copyright == CopyrightNotice(thisYear)
  {
    match MajorMinor(version)
    case None => Failure(NoMajorMinor(version))
    case Some(majorMinor) =>
      EpubTitleRoundTrip(majorMinor);
      ExcludeFilesStartsFixed(tutorialScan);
      CopyrightYearRoundTrip(thisYear);
      Success(Config(
        CopyrightYear(thisYear),
        CopyrightNotice(thisYear),
        version,
        majorMinor,
        HtmlContext(majorMinor, version),
        EpubTitle(majorMinor),
        ExcludeFiles(tutorialScan)))
  }

  /** With a label, loading produces the configuration built from it. */
  lemma LoadConfigWithLabel(version: string, thisYear: nat, tutorialScan: seq<string>, majorMinor: string)
    requires MajorMinor(version) == Some(majorMinor)
    ensures LoadConfig(version, thisYear, tutorialScan)
         == Success(Config(CopyrightYear(thisYear), CopyrightNotice(thisYear), version, majorMinor, HtmlContext(majorMinor, version),
                           EpubTitle(majorMinor), ExcludeFiles(tutorialScan)))
  {
  }

  /**
   * The configured version loads, whatever the year and the scan, with the label `v2.13`
   * in the HTML context and the EPUB title.
   */
  lemma ConfiguredVersionLoads(thisYear: nat, tutorialScan: seq<string>)
    ensures var r := LoadConfig(Version, thisYear, tutorialScan);
            && r.Success?
            && r.value.majorMinor == "v2.13"
            && r.value.epubTitle == "MusicBrainz Picard User Guide (v2.13)"
            && r.value.release == "v2.13.3"
  {
    MajorMinorExamples();
    LoadConfigWithLabel(Version, thisYear, tutorialScan, "v2.13");
    ConfiguredEpubTitle();
  }

  /** The EPUB title of the configured version. */
  lemma ConfiguredEpubTitle()
    ensures EpubTitle("v2.13") == "MusicBrainz Picard User Guide (v2.13)"
  {
  }

  /** Loading fails exactly when no prefix of the version matches `v[0-9]+\.[0-9]+`. */
  lemma LoadFailsWithoutLabel(version: string, thisYear: nat, tutorialScan: seq<string>)
    ensures LoadConfig(version, thisYear, tutorialScan).Failure?
        <==> forall j :: 0 <= j <= |version| ==> !IsLabel(version[..j])
  {
    MajorMinorLongestMatch(version);
  }

  /** Every derived setting that carries the label carries the same one. */
  lemma LabelsAgree(version: string, thisYear: nat, tutorialScan: seq<string>)
    requires LoadConfig(version, thisYear, tutorialScan).Success?
    ensures var c := LoadConfig(version, thisYear, tutorialScan).value;
            c.htmlContext["major_minor"] == Text(TitleLabel(c.epubTitle))
            && MajorMinor(c.release) == Some(c.majorMinor)
  {
  }
}
