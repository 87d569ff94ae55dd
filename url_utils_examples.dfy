/**
 * The expected outputs pinned by src/utils/__tests__/url-utils.test.ts, checked
 * against the model with a three-entry sample registry, a sample regular-expression
 * oracle and the parse results the WHATWG parser gives for the test URLs. Long
 * expected strings are written as the concatenation of their parts.
 */
module UrlUtilsExamples {
  import opened Wrappers
  import opened Strings
  import opened UrlUtils

  const GithubPagesRegex: string := "^https://[^/]+\\.github\\.io"

  /** Three of the registry's entries, in registry order. */
  function SampleRegistry(): Registry {
    [ Descriptor("Apple Developer", Prefix("https://developer.apple.com")),
      Descriptor("Swift Package Index", Prefix("https://swiftpackageindex.com")),
      Descriptor("GitHub Pages (*.github.io)", Pattern(GithubPagesRegex)) ]
  }

  /** A stand-in for the GitHub Pages expression on the URLs the tests use. */
  function SampleTest(re: string, url: string): bool {
    re == GithubPagesRegex
    && (StartsWith(url, "https://pointfreeco.github.io/") || StartsWith(url, "https://example.github.io/"))
  }

  /** A parser that knows one URL and rejects every other string. */
  function ParsesOnly(url: string, u: Url): UrlParser {
    s => if s == url then Some(u) else None
  }

  const June14: CalendarDate := CalendarDate(2025, 6, 14)

  // ----- Dates -------------------------------------------------------------

  lemma YearDigits()
    ensures IntToDecimal(2025) == "2025"
  {
    assert NatToDecimal(2) == "2";
    assert NatToDecimal(20) == "20";
    assert NatToDecimal(202) == "202";
  }

  /** Month and day are padded to two digits; the year is written as is. */
  lemma ExampleDatePrefix()
    ensures DatePrefix(June14) == "2025-06-14_"
  {
    YearDigits();
  }

  lemma ExampleDatePrefixMarch5()
    ensures DatePrefix(CalendarDate(2025, 3, 5)) == "2025-03-05_"
  {
    YearDigits();
  }

  // ----- Descriptor stems --------------------------------------------------

  /** Each of the four characters " (*." becomes its own hyphen: runs are not collapsed. */
  lemma ExampleStemOfPunctuation()
    ensures BaseName(" (*.") == "----"
  {
  }

  /** A stem given character by character is the stem. */
  lemma StemOfPiece(a: string, t: string)
    requires |a| == |t|
    requires forall i :: 0 <= i < |a| ==> t[i] == if IsLowerAlnum(LowerChar(a[i])) then LowerChar(a[i]) else '-'
    ensures BaseName(a) == t
  {
  }

  lemma StemOfPieces(a: string, b: string, ta: string, tb: string)
    requires BaseName(a) == ta && BaseName(b) == tb
    ensures BaseName(a + b) == ta + tb
  {
    BaseNameAppend(a, b);
  }

  lemma GithubPagesNameParts()
    ensures "GitHub " + "Pages" + " (*.gith" + "ub.io)" == "GitHub Pages (*.github.io)"
  {
  }

  lemma GithubPagesStemParts()
    ensures "github-" + "pages" + "----gith" + "ub-io-" == "github-pages----github-io-"
  {
  }

  /**
   * The stem of the GitHub Pages name, piece by piece. The pieces are parameters so
   * that the solver does not unfold the stem of a literal.
   */
  lemma StemOfGithubPagesParts(a: string, b: string, c: string, d: string,
                               ta: string, tb: string, tc: string, td: string)
    requires a == "GitHub " && b == "Pages" && c == " (*.gith" && d == "ub.io)"
    requires ta == "github-" && tb == "pages" && tc == "----gith" && td == "ub-io-"
    ensures BaseName(a + b + c + d) == ta + tb + tc + td
  {
    StemOfPiece(a, ta);
    StemOfPiece(b, tb);
    StemOfPiece(c, tc);
    StemOfPiece(d, td);
    StemOfPieces(a, b, ta, tb);
    StemOfPieces(a + b, c, ta + tb, tc);
    StemOfPieces(a + b + c, d, ta + tb + tc, td);
  }

  /** Each of the seven characters outside `[a-z0-9]` becomes its own hyphen. */
  lemma ExampleStemOfGithubPages()
    ensures BaseName("GitHub Pages (*.github.io)") == "github-pages----github-io-"
  {
    StemOfGithubPagesParts("GitHub ", "Pages", " (*.gith", "ub.io)", "github-", "pages", "----gith", "ub-io-");
    GithubPagesNameParts();
    GithubPagesStemParts();
  }

  lemma ExampleStemOfWord()
    ensures BaseName("Apple") == "apple"
  {
  }

  // ----- The count label and validity ---------------------------------------

  lemma ExampleValidity()
    ensures IsValidDocumentationUrl(SampleRegistry(), SampleTest, "https://developer.apple.com")
    ensures !IsValidDocumentationUrl(SampleRegistry(), SampleTest, "")
  {
    assert RuleMatches(SampleRegistry()[0].rule, "https://developer.apple.com", SampleTest);
  }

  // ----- Path segments -----------------------------------------------------

  lemma ExampleSegmentsOfRoot()
    ensures PathSegments("/") == []
  {
    SplitNoSeparator("", '/');
    SplitAtSeparator("", "", '/');
    assert [] + "/" + [] == "/";
  }

  lemma SplitApi() ensures Split("api", '/') == ["api"] {
    SplitNoSeparator("api", '/');
  }

  lemma SplitDocsApi() ensures Split("docs/api", '/') == ["docs", "api"] {
    SplitApi();
    SplitAtSeparator("docs", "api", '/');
    assert "docs" + "/" + "api" == "docs/api";
  }

  lemma ExampleSegmentsOfDocsApi()
    ensures PathSegments("/docs/api") == ["docs", "api"]
  {
    SplitDocsApi();
    SplitAtSeparator("", "docs/api", '/');
    assert [] + "/" + "docs/api" == "/docs/api";
    assert NonEmpty(["", "docs", "api"]) == ["docs", "api"];
  }

  // ----- Filenames ---------------------------------------------------------

  lemma ExampleUnparseable()
    ensures GenerateFilename("not-a-url", June14, SampleRegistry(), SampleTest, _ => None)
      == "2025-06-14_documentation.md"
  {
    ExampleDatePrefix();
  }

  const ExampleComUrl: string := "https://example.com/docs/api"

  lemma NoEntryAcceptsExampleCom()
    ensures forall i :: 0 <= i < |SampleRegistry()| ==>
      !RuleMatches(SampleRegistry()[i].rule, ExampleComUrl, SampleTest)
  {
    var url := ExampleComUrl;
    var reg := SampleRegistry();
    assert url[8] != reg[0].rule.prefix[8];
    assert url[8] != reg[1].rule.prefix[8];
    assert url[8] != "https://pointfreeco.github.io/"[8];
    assert url[16] != "https://example.github.io/"[16];
  }

  lemma ExampleHostStem()
    ensures HostStem("example.com") == "example-com"
  {
  }

  /** An unknown host uses its dotless hostname and only the first segment. */
  lemma ExampleOtherDomain()
    ensures var u := Url("https:", "", "", true, "example.com", "", "/docs/api", "", "");
      GenerateFilename(ExampleComUrl, June14, SampleRegistry(), SampleTest, ParsesOnly(ExampleComUrl, u))
      == "2025-06-14_" + ("example-com" + "-" + "docs" + "-docs.md")
  {
    var u := Url("https:", "", "", true, "example.com", "", "/docs/api", "", "");
    NoEntryAcceptsExampleCom();
    GenerateFilenameUnmatched(ExampleComUrl, June14, SampleRegistry(), SampleTest, ParsesOnly(ExampleComUrl, u));
    ExampleSegmentsOfDocsApi();
    ExampleDatePrefix();
    ExampleHostStem();
  }

  const GithubRootUrl: string := "https://example.github.io/"

  lemma PatternIsFirstToAcceptGithubRoot()
    ensures IsFirstMatch(SampleRegistry(), GithubRootUrl, SampleTest, 2)
  {
    var reg := SampleRegistry();
    assert GithubRootUrl[8] != reg[0].rule.prefix[8];
    assert GithubRootUrl[8] != reg[1].rule.prefix[8];
    assert StartsWith(GithubRootUrl, "https://example.github.io/");
  }

  /** A URL accepted only by the third entry's pattern, with no path segments. */
  lemma GithubPagesRootShape()
    ensures var u := Url("https:", "", "", true, "example.github.io", "", "/", "", "");
      GenerateFilename(GithubRootUrl, June14, SampleRegistry(), SampleTest, ParsesOnly(GithubRootUrl, u))
      == "2025-06-14_" + (BaseName("GitHub Pages (*.github.io)") + "-docs.md")
  {
    var u := Url("https:", "", "", true, "example.github.io", "", "/", "", "");
    PatternIsFirstToAcceptGithubRoot();
    GenerateFilenameMatched(GithubRootUrl, June14, SampleRegistry(), SampleTest, ParsesOnly(GithubRootUrl, u), 2);
    ExampleSegmentsOfRoot();
    ExampleDatePrefix();
  }

  /** The stem's trailing hyphen and the `-docs.md` suffix give two hyphens in a row. */
  lemma ExampleGithubPagesRoot()
    ensures var u := Url("https:", "", "", true, "example.github.io", "", "/", "", "");
      GenerateFilename(GithubRootUrl, June14, SampleRegistry(), SampleTest, ParsesOnly(GithubRootUrl, u))
      == "2025-06-14_github-pages----github-io--docs.md"
  {
    var u := Url("https:", "", "", true, "example.github.io", "", "/", "", "");
    GithubPagesRootShape();
    ExampleStemOfGithubPages();
    SpellOutGithubRoot("GitHub Pages (*.github.io)",
      GenerateFilename(GithubRootUrl, June14, SampleRegistry(), SampleTest, ParsesOnly(GithubRootUrl, u)));
  }

  /** Substitutes the stem into the filename shape, away from the literal name. */
  lemma SpellOutGithubRoot(name: string, f: string)
    requires BaseName(name) == "github-pages----github-io-"
    requires f == "2025-06-14_" + (BaseName(name) + "-docs.md")
    ensures f == "2025-06-14_github-pages----github-io--docs.md"
  {
    GithubRootLiteral();
  }

  lemma GithubRootLiteral()
    ensures "2025-06-14_" + ("github-pages----github-io-" + "-docs.md")
      == "2025-06-14_github-pages----github-io--docs.md"
  {
  }
}
