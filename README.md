# MusicBrainz Picard User Guide configuration: computed settings

The guide is built by Sphinx from `conf.py`. Almost all of that file is literal
settings; this project models the few settings it computes and proves what they
promise:

- **Version label** (`major_minor`): `re.match(r'^(v[0-9]+\.[0-9]+)', version).group(1)`.
  The one pattern is written out by hand (`VersionLabel.MajorMinor`). It is proved
  to return the longest prefix of the version that matches `v[0-9]+\.[0-9]+`, and to
  fail exactly when no prefix matches. When the match fails, Python raises on `.group`
  and the configuration does not load. The model returns `None`, and `Conf.LoadConfig`
  returns `Failure`.
- **Copyright year** (`copyright_year`): `2020` in 2020, otherwise `2020-<year>`.
  The current year is a parameter instead of a reading of the clock. Python's `str`
  of an integer is modelled by `Decimal.NatToDecimal`, which is proved against its
  inverse `Decimal.DecimalValue`. The `copyright` setting (the year alone, then
  `, MetaBrainz Foundation.`) is modelled too. The file computes `copyright_year`
  but does not use it: `copyright` names `this_year`.
- **EPUB exclusion list** (`_exclude_files_helper`): the five fixed pages, then
  `path[:-3] + 'xhtml'` for each scanned path ending in `.rst`, appended in scan
  order. The method `EpubExcludes.ExcludeFilesHelper` keeps the source's loop and
  appends. It is proved equal to the function `EpubExcludes.ExcludeFiles`. The
  lemmas about that function give its fixed prefix, its length, the position of each
  entry, and where each entry comes from. The result of
  `glob.glob('tutorials/v_*')` is an input sequence, in enumeration order.
- **Derived settings**: `html_context`, `release` and `epub_title` all carry the
  label or the version (`Conf`).

Modules: `Wrappers` (Option, Result), `Decimal`, `VersionLabel`, `Copyright`,
`EpubExcludes`, `Conf`.

Facts about conf.py that the model keeps:
- conf.py:233-239 lists five fixed EPUB pages; none of them is a cover page.
- An empty version string has no match: `MajorMinor("")` is `None`.
- `ExcludeFiles` accepts any scanned path. Paths that do not end in `.rst` add nothing.

## Model

| member | source | states |
|---|---|---|
| `Decimal.NatToDecimal` | conf.py:35 | `str(year)` is a non-empty string of ASCII digits with no leading zero (unless the year is 0) |
| `Decimal.DecimalRoundTrip` | conf.py:35 | reading the rendered digits back gives the year: the rendering loses nothing |
| `Decimal.NatToDecimalInjective` | conf.py:35 | different years render as different strings |
| `VersionLabel.LeadingDigits` | conf.py:147 | a greedy `[0-9]` run: the prefix it measures is all digits, and the next character, if any, is not a digit |
| `VersionLabel.MajorMinor` | conf.py:147 | when the match succeeds, the label is a prefix of the version and matches `v[0-9]+\.[0-9]+` in full |
| `VersionLabel.MajorMinorLongestMatch` | conf.py:147 | the match fails exactly when no prefix of the version matches the pattern; when it succeeds, no matching prefix is longer (both digit runs maximal) |
| `VersionLabel.LabelExtractsItself` | conf.py:147 | a string that is itself a `v<digits>.<digits>` label extracts to itself |
| `VersionLabel.MajorMinorIdempotent` | conf.py:147 | applying the extractor to its own output returns the same label |
| `VersionLabel.MajorMinorOfDigits` | conf.py:147 | `v<digits>.<digits>` followed by a non-digit or nothing yields exactly `v<digits>.<digits>` |
| `VersionLabel.MajorMinorOfRelease` | conf.py:147 | for numbers M and N, `v<M>.<N>` followed by a non-digit or nothing yields `v<M>.<N>` |
| `VersionLabel.MajorMinorOfSemanticVersion` | conf.py:147 | `v<M>.<N>.<P>` yields `v<M>.<N>` |
| `VersionLabel.MajorMinorExamples` | conf.py:41-42 | the configured `v2.13.3` yields `v2.13`; `2.13.3`, `v.1`, `version2`, `v2.` and the empty string yield no label |
| `Copyright.CopyrightYear` | conf.py:34-35 | the string starts with `2020`; it is exactly `2020` iff the year is 2020, and otherwise `2020-` followed by the decimal year |
| `Copyright.CopyrightYearRoundTrip` | conf.py:35 | the current year can be read back from the copyright-year string |
| `Copyright.CopyrightYearInjective` | conf.py:35 | different years give different copyright-year strings |
| `Copyright.CopyrightYearExamples` | conf.py:35 | 2020 gives `2020`, 2024 gives `2020-2024` |
| `Conf.CopyrightNotice` | conf.py:46 | the notice is the current year in decimal, without leading zeros (year 0 is the single digit `0`), followed by `, MetaBrainz Foundation.` |
| `EpubExcludes.XhtmlPath` | conf.py:242-243 | the output path keeps the stem of the `.rst` path and ends in `.xhtml` |
| `EpubExcludes.XhtmlPathRoundTrip` | conf.py:243 | the `.rst` path is recovered from its `.xhtml` path |
| `EpubExcludes.ExcludeFilesHelper` | conf.py:232-245 | the loop that appends to the list returns the specified list, which starts with the five fixed pages and has 5 + (number of `.rst` paths) entries |
| `EpubExcludes.TutorialExcludesLength` | conf.py:241-243 | the scan adds exactly one entry per scanned path ending in `.rst` |
| `EpubExcludes.TutorialExcludesAt` | conf.py:241-243 | the entry for the `.rst` path at scan index i is its `.xhtml` path, placed after the entries of all earlier `.rst` paths (scan order kept) |
| `EpubExcludes.TutorialExcludesFrom` | conf.py:241-243 | every added entry is the `.xhtml` path of some scanned `.rst` path |
| `EpubExcludes.TutorialExcludesEmpty` | conf.py:241-245 | the scan adds nothing iff no scanned path ends in `.rst` |
| `EpubExcludes.ExcludeFilesStartsFixed` | conf.py:233-239 | whatever the scan, the list starts with `404.xhtml`, `index.xhtml`, `not_found.xhtml`, `pdf.xhtml`, `examples/examples.xhtml` in that order |
| `EpubExcludes.ExcludeFilesEmptyScan` | conf.py:232-245 | an empty scan gives exactly the five fixed pages |
| `EpubExcludes.ExcludeFilesExample` | conf.py:241-243 | `v_1.0.rst`, `v_1.0`, `v_2.0.rst` under `tutorials/` add `tutorials/v_1.0.xhtml` and `tutorials/v_2.0.xhtml` |
| `Conf.EpubTitle` | conf.py:208 | the title is the project's `User Guide (` prefix, then the label, then `)` |
| `Conf.EpubTitleRoundTrip` | conf.py:208 | the label can be read back from the EPUB title |
| `Conf.HtmlContext` | conf.py:149-154 | the context has exactly the four keys; `default_language` maps to `en`, `supported_languages` to the language list, `major_minor` to the label and `release` to the full version |
| `Conf.LoadConfig` | conf.py:34-248 | loading fails iff the extractor fails (the error value recording the version is the model's own); on success `release` is the version, the label is a matching prefix of it, the label is exactly what the extractor returns, the HTML context is `HtmlContext` of the label and the version, the EPUB title is `EpubTitle` of the label (and reads back as it), the copyright-year string is `CopyrightYear` of the current year (and reads back as it), the notice is `CopyrightNotice` of the year, and the EPUB exclusions are the list `ExcludeFiles` gives for the scan |
| `Conf.ConfiguredVersionLoads` | conf.py:42-208 | the configured version loads for every year and scan, with label `v2.13`, release `v2.13.3` and EPUB title `MusicBrainz Picard User Guide (v2.13)` |
| `Conf.ConfiguredEpubTitle` | conf.py:208 | the title for the label `v2.13` is `MusicBrainz Picard User Guide (v2.13)` |
| `Conf.LoadFailsWithoutLabel` | conf.py:147 | loading fails iff no prefix of the version matches `v[0-9]+\.[0-9]+` |
| `Conf.LabelsAgree` | conf.py:149-208 | the HTML context and the EPUB title carry the same label, and that label is what the release extracts to |

## Left out

- `glob.glob('tutorials/v_*')` (conf.py:241) is file-system I/O. Its result is an input sequence. Glob matching and its platform-dependent order are not modelled.
- `datetime.datetime.now()` (conf.py:34) reads the clock. The year is a `nat` parameter. Python's year is 1..9999; the model accepts any non-negative year.
- `sys.path.insert` (conf.py:26), the `CommonMarkParser` import and `source_parsers` (conf.py:15, conf.py:88) are interpreter and library plumbing.
- The remaining settings are constant data that Sphinx consumes, or aliases and path joins of such data. These are `static_path`, the author, base file name, LaTeX notice, master document, extensions, source suffixes, templates path, exclude patterns, `language` (an alias of the default language), locale settings, theme, static paths, CSS files, favicon (a path join of `static_path`), LaTeX settings and preamble, and EPUB metadata (conf.py:32, conf.py:44, conf.py:58-142, conf.py:156-162, conf.py:165-207, conf.py:209-229). The model carries `project`, `version`, the default language and the language list (conf.py:39-56) as constants of `Conf`, and `copyright`, `release` and `epub_title` as computed fields.
- General regular-expression matching is not modelled. Only the one anchored pattern is, by hand.
- Loading twice gives the same configuration. This needs no lemma, because `LoadConfig` is a function of its inputs.
