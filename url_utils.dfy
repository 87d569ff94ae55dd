/**
 * The documentation-URL utilities of src/utils/url-utils.ts: recognising URLs of the
 * supported documentation sites, the count label, reading a URL out of a query
 * string, normalising a URL, and deriving a dated Markdown filename from a URL.
 *
 * Everything the source reads from outside is a parameter here:
 *  - the ordered registry of site descriptors (`ALLOWED_DOMAINS`),
 *  - the regular-expression test `pattern.test(url)`, as an oracle on an
 *    identifier of the expression (its source and flags) and the URL,
 *  - the WHATWG URL parser (`new URL(url)`), as a function that yields a URL
 *    record or `None` where the constructor throws, and its serialiser,
 *  - `decodeURIComponent`, as a partial function,
 *  - the current calendar date.
 */
module UrlUtils {
  import opened Wrappers
  import opened Strings

  // ----- Registry ----------------------------------------------------------

  /**
   * How a descriptor recognises its URLs: a literal prefix (a `string` pattern),
   * a regular expression (a `RegExp` pattern, identified by its source and flags), or a
   * pattern value that is neither, which recognises nothing.
   */
  datatype Rule = Prefix(prefix: string) | Pattern(regex: string) | Other

  /** One entry of the registry: the site's display name and its rule. */
  datatype Descriptor = Descriptor(name: string, rule: Rule)

  /** The registry in the order its entries are enumerated. */
  type Registry = seq<Descriptor>

  /** `regex.test(url)` for the regular expression with the given identifier (source and flags). */
  type RegexTest = (string, string) -> bool

  /** The rule test shared by the validity check and the filename generator. */
  predicate RuleMatches(rule: Rule, url: string, test: RegexTest) {
    match rule
    case Prefix(p) => StartsWith(url, p)
    case Pattern(re) => test(re, url)
    case Other => false
  }

  /** Entry `i` is the earliest entry of the registry whose rule accepts `url`. */
  predicate IsFirstMatch(reg: Registry, url: string, test: RegexTest, i: int) {
    && 0 <= i < |reg|
    && RuleMatches(reg[i].rule, url, test)
    && forall j :: 0 <= j < i ==> !RuleMatches(reg[j].rule, url, test)
  }

  /** `Object.values(ALLOWED_DOMAINS).some(...)` with the rule test. */
  function AnyMatches(reg: Registry, url: string, test: RegexTest): (r: bool)
    ensures r <==> exists i :: 0 <= i < |reg| && RuleMatches(reg[i].rule, url, test)
  {
    if reg == [] then false
    else
      RuleMatches(reg[0].rule, url, test) || (
        var rest := AnyMatches(reg[1..], url, test);
        assert forall i :: 1 <= i < |reg| ==> reg[i] == reg[1..][i - 1];
        rest)
  }

  /** `Object.values(ALLOWED_DOMAINS).find(...)` with the rule test: the first accepting entry. */
  function Find(reg: Registry, url: string, test: RegexTest): (r: Option<Descriptor>)
    ensures r.None? <==> forall i :: 0 <= i < |reg| ==> !RuleMatches(reg[i].rule, url, test)
    ensures r.Some? ==> exists i :: IsFirstMatch(reg, url, test, i) && reg[i] == r.value
  {
    if reg == [] then None
    else if RuleMatches(reg[0].rule, url, test) then
      assert IsFirstMatch(reg, url, test, 0);
      Some(reg[0])
    else
      var rest := Find(reg[1..], url, test);
      assert forall i :: 1 <= i < |reg| ==> reg[i] == reg[1..][i - 1];
      if rest.Some? then
        var j :| IsFirstMatch(reg[1..], url, test, j) && reg[1..][j] == rest.value;
        assert IsFirstMatch(reg, url, test, j + 1);
        rest
      else
        rest
  }

  /** At most one entry is the first match. */
  lemma FirstMatchUnique(reg: Registry, url: string, test: RegexTest, i: int, j: int)
    requires IsFirstMatch(reg, url, test, i) && IsFirstMatch(reg, url, test, j)
    ensures i == j
  {
  }

  // ----- isValidDocumentationUrl ------------------------------------------

  /** `isValidDocumentationUrl(url)`: a non-empty URL that some registry entry accepts. */
  function IsValidDocumentationUrl(reg: Registry, test: RegexTest, url: string): (r: bool)
    ensures r <==> url != [] && exists i :: 0 <= i < |reg| && RuleMatches(reg[i].rule, url, test)
  {
    url != [] && AnyMatches(reg, url, test)
  }

  /**
   * The filename generator finds a descriptor exactly when the URL is valid: both
   * use the same rule test, and a URL the generator gets that far with is non-empty.
   */
  lemma FindAgreesWithValidity(reg: Registry, test: RegexTest, url: string)
    requires url != []
    ensures Find(reg, url, test).Some? <==> IsValidDocumentationUrl(reg, test, url)
  {
  }

  // ----- getSupportedDomainsText ------------------------------------------

  const SupportedSuffix: string := " supported documentation sites"

  /** `getSupportedDomainsText()`: the registry size in decimal, then the fixed words. */
  function GetSupportedDomainsText(reg: Registry): (r: string)
    ensures |r| > |SupportedSuffix| && EndsWith(r, SupportedSuffix)
    ensures var count := r[..|r| - |SupportedSuffix|];
      && IsDecimal(count) && DecimalValue(count) == |reg|
      && (count[0] == '0' ==> count == "0")
  {
    var count := NatToDecimal(|reg|);
    DecimalRoundTrip(|reg|);
    var r := count + SupportedSuffix;
    assert r[..|r| - |SupportedSuffix|] == count;
    r
  }

  // ----- extractUrlFromQueryString ----------------------------------------

  /**
   * `extractUrlFromQueryString(q)`: the percent-decoded query string when it starts
   * with `http://` or `https://`, and `None` (the source's `null`) otherwise. The
   * decoder throws on malformed escapes and the source does not catch that, so a
   * caller must pass a non-empty string that decodes.
   */
  function ExtractUrlFromQueryString(q: string, decode: string --> string): (r: Option<string>)
    requires q != [] ==> decode.requires(q)
    ensures q == [] ==> r == None
    ensures r.Some? ==> q != [] && r.value == decode(q)
    ensures r.Some? ==> StartsWith(r.value, "http://") || StartsWith(r.value, "https://")
    ensures q != [] && (StartsWith(decode(q), "http://") || StartsWith(decode(q), "https://"))
      ==> r.Some?
  {
    if q == [] then None
    else
      var decoded := decode(q);
      if StartsWith(decoded, "http://") || StartsWith(decoded, "https://") then Some(decoded)
      else None
  }

  // ----- URL records ------------------------------------------------------

  /**
   * A parsed URL as its getters report it. `hasHost` tells a URL without a host
   * (`foo:/x`) from one with an empty host (`foo:///x`), which `hostname` reports
   * alike; the credentials are kept because `toString()` writes them.
   */
  datatype Url = Url(
    protocol: string,
    username: string,
    password: string,
    hasHost: bool,
    hostname: string,
    port: string,
    pathname: string,
    search: string,
    hash: string)

  /** `new URL(s)`: a record, or `None` where the constructor throws. */
  type UrlParser = string -> Option<Url>

  /** `urlObj.toString()` */
  type UrlSerializer = Url -> string

  /** Setting `hash` and `search` to the empty string: no fragment, no query. */
  function StripQueryAndFragment(u: Url): (v: Url)
    ensures v.search == [] && v.hash == []
    ensures v.protocol == u.protocol && v.username == u.username && v.password == u.password
    ensures v.hasHost == u.hasHost && v.hostname == u.hostname && v.port == u.port
    ensures v.pathname == u.pathname
  {
    u.(hash := [], search := [])
  }

  // ----- normalizeUrl -----------------------------------------------------

  /**
   * `normalizeUrl(url)`: an unparseable URL comes back unchanged; otherwise the
   * serialisation of the URL without query and fragment, less a final `/` unless
   * the pathname is the root.
   */
  function NormalizeUrl(url: string, parse: UrlParser, serialize: UrlSerializer): (r: string)
    ensures parse(url).None? ==> r == url
    ensures parse(url).Some? ==>
      var u := parse(url).value;
      var s := serialize(StripQueryAndFragment(u));
      && (r == s || (r + "/" == s && u.pathname != "/"))
      && (EndsWith(s, "/") && u.pathname != "/" ==> r + "/" == s)
      && (u.pathname == "/" || !EndsWith(s, "/") ==> r == s)
  {
    match parse(url)
    case None => url
    case Some(u) =>
      var normalized := serialize(StripQueryAndFragment(u));
      if EndsWith(normalized, "/") && u.pathname != "/" then
        var r := normalized[..|normalized| - 1];
        assert r + "/" == normalized;
        r
      else
        normalized
  }

  /**
   * When the serialisation of the stripped URL ends with its (non-empty) pathname, as
   * the WHATWG serialiser's does without query and fragment, normalising changes the
   * string exactly when the pathname ends in `/` and is not the root.
   */
  lemma NormalizeTrimsOnlyPathSlash(url: string, parse: UrlParser, serialize: UrlSerializer)
    requires parse(url).Some? && parse(url).value.pathname != []
    requires EndsWith(serialize(StripQueryAndFragment(parse(url).value)), parse(url).value.pathname)
    ensures var u := parse(url).value;
      var s := serialize(StripQueryAndFragment(u));
      NormalizeUrl(url, parse, serialize) != s <==> EndsWith(u.pathname, "/") && u.pathname != "/"
  {
    var u := parse(url).value;
    var s := serialize(StripQueryAndFragment(u));
    var p := u.pathname;
    assert s[|s| - 1] == p[|p| - 1];
    if EndsWith(s, "/") && u.pathname != "/" {
      assert |NormalizeUrl(url, parse, serialize)| == |s| - 1;
    }
  }

  /**
   * With an empty pathname (a non-special URL such as `foo://`, whose serialisation
   * ends in `/`), the final `/` is dropped although it is not part of the path.
   */
  lemma NormalizeDropsSlashOfEmptyPath(url: string, parse: UrlParser, serialize: UrlSerializer)
    requires parse(url).Some? && parse(url).value.pathname == []
    requires EndsWith(serialize(StripQueryAndFragment(parse(url).value)), "/")
    ensures var s := serialize(StripQueryAndFragment(parse(url).value));
      NormalizeUrl(url, parse, serialize) + "/" == s
  {
  }

  // ----- generateFilename -------------------------------------------------

  /** A calendar date as the local clock reports it: full year, month 1-12, day 1-31. */
  datatype CalendarDate = CalendarDate(year: int, month: nat, day: nat)

  predicate ValidDate(d: CalendarDate) {
    1 <= d.month <= 12 && 1 <= d.day <= 31
  }

  /** `String(n).padStart(2, '0')`: exactly the tens and units digits below 100. */
  function TwoDigits(n: nat): (r: string)
    ensures n < 100 ==> r == [DigitChar(n / 10), DigitChar(n % 10)]
    ensures n >= 100 ==> r == NatToDecimal(n)
  {
    var digits := NatToDecimal(n);
    if n < 10 then
      assert digits == [DigitChar(n)];
      PadStart(digits, 2, '0')
    else if n < 100 then
      assert digits == NatToDecimal(n / 10) + [DigitChar(n % 10)];
      PadStart(digits, 2, '0')
    else
      PadStart(digits, 2, '0')
  }

  /** The `${year}-${month}-${day}_` prefix of every generated filename. */
  function DatePrefix(date: CalendarDate): string {
    IntToDecimal(date.year) + "-" + TwoDigits(date.month) + "-" + TwoDigits(date.day) + "_"
  }

  /**
   * The date prefix is the year as `String` writes it (not padded), then month and
   * day as two digits each (tens, units), separated by `-` and closed by `_`.
   */
  lemma DatePrefixFormat(date: CalendarDate)
    requires ValidDate(date)
    ensures var r := DatePrefix(date);
      var y := IntToDecimal(date.year);
      var k := |y|;
      && |r| == k + 7 && r[..k] == y
      && r[k] == '-' && r[k + 1] == DigitChar(date.month / 10) && r[k + 2] == DigitChar(date.month % 10)
      && r[k + 3] == '-' && r[k + 4] == DigitChar(date.day / 10) && r[k + 5] == DigitChar(date.day % 10)
      && r[k + 6] == '_'
  {
    PrefixShape(IntToDecimal(date.year), TwoDigits(date.month), TwoDigits(date.day));
  }

  /** The positions of `y + "-" + m + "-" + d + "_"` for two-character `m` and `d`. */
  lemma PrefixShape(y: string, m: string, d: string)
    requires |m| == 2 && |d| == 2
    ensures var r := y + "-" + m + "-" + d + "_";
      var k := |y|;
      && |r| == k + 7 && r[..k] == y
      && r[k] == '-' && r[k + 1] == m[0] && r[k + 2] == m[1]
      && r[k + 3] == '-' && r[k + 4] == d[0] && r[k + 5] == d[1]
      && r[k + 6] == '_'
  {
  }

  /**
   * The descriptor name as a filename stem: lower-cased, then each character outside
   * `[a-z0-9]` replaced by its own `-`, so the length is kept and runs stay runs.
   */
  function BaseName(name: string): (r: string)
    ensures |r| == |name|
    ensures forall i :: 0 <= i < |r| ==> IsLowerAlnum(r[i]) || r[i] == '-'
    ensures forall i :: 0 <= i < |name| && IsLowerAlnum(LowerChar(name[i])) ==> r[i] == LowerChar(name[i])
    ensures forall i :: 0 <= i < |name| && !IsLowerAlnum(LowerChar(name[i])) ==> r[i] == '-'
  {
    ReplaceNonLowerAlnum(ToLowerAscii(name), '-')
  }

  /** The stem is computed character by character: it distributes over concatenation. */
  lemma BaseNameAppend(a: string, b: string)
    ensures BaseName(a + b) == BaseName(a) + BaseName(b)
  {
  }

  /** The hostname with every `.` replaced by `-`. */
  function HostStem(hostname: string): (r: string)
    ensures |r| == |hostname| && '.' !in r
    ensures forall i :: 0 <= i < |r| && hostname[i] == '.' ==> r[i] == '-'
    ensures forall i :: 0 <= i < |r| && hostname[i] != '.' ==> r[i] == hostname[i]
  {
    ReplaceChar(hostname, '.', '-')
  }

  /** `pathname.split('/').filter((p) => p)`: the non-empty path segments in order. */
  function PathSegments(pathname: string): seq<string> {
    NonEmpty(Split(pathname, '/'))
  }

  /**
   * The path segments are non-empty, hold no `/`, and together spell the pathname
   * with its slashes removed.
   */
  lemma PathSegmentsSpec(pathname: string)
    ensures forall k :: 0 <= k < |PathSegments(pathname)| ==>
      PathSegments(pathname)[k] != [] && '/' !in PathSegments(pathname)[k]
    ensures Concat(PathSegments(pathname)) == Without(pathname, '/')
  {
    ConcatNonEmpty(Split(pathname, '/'));
    ConcatSplit(pathname, '/');
  }

  /**
   * Path segments are recovered from the path they build: a pathname written as `/`
   * followed by non-empty, slash-free segments joined with `/` yields exactly those
   * segments, in order.
   */
  lemma PathSegmentsOfJoin(segs: seq<string>)
    requires forall k :: 0 <= k < |segs| ==> segs[k] != [] && '/' !in segs[k]
    ensures PathSegments("/" + Join(segs, "/")) == segs
  {
    var joined := Join(segs, "/");
    var pieces := Split(joined, '/');
    SplitAtSeparator([], joined, '/');
    assert [] + ['/'] + joined == "/" + joined;
    NonEmptyAppend([[]], pieces);
    if segs == [] {
      assert pieces == [[]];
    } else {
      SplitJoin(segs, '/');
      NonEmptyKeepsAll(segs);
    }
  }

  /** `parts.slice(0, 2)` is `parts[..Min(2, |parts|)]`. */
  function Min(a: int, b: int): int {
    if a < b then a else b
  }

  /** `generateFilename(url)` with the current date, the registry and the URL parser as parameters. */
  function GenerateFilename(url: string, date: CalendarDate, reg: Registry, test: RegexTest,
                            parse: UrlParser): (r: string)
    ensures StartsWith(r, DatePrefix(date)) && EndsWith(r, ".md")
    ensures parse(url).None? ==> r == DatePrefix(date) + "documentation.md"
  {
    var rest := (
      match parse(url)
      case None =>
        "documentation.md"
      case Some(u) =>
        var parts := PathSegments(u.pathname);
        var stem := (
          match Find(reg, url, test)
          case Some(d) =>
            if |parts| > 0 then BaseName(d.name) + "-" + Join(parts[..Min(2, |parts|)], "-")
            else BaseName(d.name)
          case None =>
            if |parts| > 0 then HostStem(u.hostname) + "-" + parts[0]
            else HostStem(u.hostname));
        ConcatAffixes(stem, "-docs.md", ".md");
        stem + "-docs.md");
    ConcatAffixes("documentation", ".md", ".md");
    ConcatAffixes(DatePrefix(date), rest, ".md");
    DatePrefix(date) + rest
  }

  /**
   * A parseable URL that a registry entry accepts is named after the FIRST accepting
   * entry, followed by at most its first two path segments joined with `-`.
   */
  lemma GenerateFilenameMatched(url: string, date: CalendarDate, reg: Registry, test: RegexTest,
                                parse: UrlParser, i: int)
    requires parse(url).Some? && IsFirstMatch(reg, url, test, i)
    ensures var segs := PathSegments(parse(url).value.pathname);
      var stem := if segs == [] then BaseName(reg[i].name)
                  else BaseName(reg[i].name) + "-" + Join(segs[..Min(2, |segs|)], "-");
      GenerateFilename(url, date, reg, test, parse) == DatePrefix(date) + (stem + "-docs.md")
  {
    var d := Find(reg, url, test);
    var j :| IsFirstMatch(reg, url, test, j) && reg[j] == d.value;
    FirstMatchUnique(reg, url, test, i, j);
  }

  /**
   * A parseable URL that no entry accepts is named after its hostname with dots
   * turned into hyphens, followed by its first path segment only.
   */
  lemma GenerateFilenameUnmatched(url: string, date: CalendarDate, reg: Registry, test: RegexTest,
                                  parse: UrlParser)
    requires parse(url).Some?
    requires forall i :: 0 <= i < |reg| ==> !RuleMatches(reg[i].rule, url, test)
    ensures var u := parse(url).value;
      var segs := PathSegments(u.pathname);
      var stem := if segs == [] then HostStem(u.hostname) else HostStem(u.hostname) + "-" + segs[0];
      GenerateFilename(url, date, reg, test, parse) == DatePrefix(date) + (stem + "-docs.md")
  {
    assert Find(reg, url, test).None?;
  }

  /**
   * With a parser that rejects the empty string (as the WHATWG parser does without a
   * base URL), a parseable URL takes the descriptor-named branch exactly when
   * `isValidDocumentationUrl` accepts it.
   */
  lemma MatchedBranchIffValid(url: string, reg: Registry, test: RegexTest, parse: UrlParser)
    requires parse([]).None? && parse(url).Some?
    ensures Find(reg, url, test).Some? <==> IsValidDocumentationUrl(reg, test, url)
  {
    assert url != [];
    FindAgreesWithValidity(reg, test, url);
  }

  /**
   * The fallback name reads only the hostname and the first path segment: two
   * unmatched URLs that agree on those get the same filename, whatever follows.
   */
  lemma UnmatchedUsesFirstSegmentOnly(url1: string, url2: string, date: CalendarDate,
                                      reg: Registry, test: RegexTest, parse: UrlParser)
    requires parse(url1).Some? && parse(url2).Some?
    requires Find(reg, url1, test).None? && Find(reg, url2, test).None?
    requires parse(url1).value.hostname == parse(url2).value.hostname
    requires var s1 := PathSegments(parse(url1).value.pathname);
      var s2 := PathSegments(parse(url2).value.pathname);
      (s1 == [] <==> s2 == []) && (s1 != [] ==> s1[0] == s2[0])
    ensures GenerateFilename(url1, date, reg, test, parse)
      == GenerateFilename(url2, date, reg, test, parse)
  {
  }

  /**
   * The descriptor-named file reads only the descriptor and the first two path
   * segments: a third segment never changes it.
   */
  lemma MatchedUsesTwoSegmentsOnly(url1: string, url2: string, date: CalendarDate,
                                   reg: Registry, test: RegexTest, parse: UrlParser)
    requires parse(url1).Some? && parse(url2).Some?
    requires Find(reg, url1, test).Some? && Find(reg, url1, test) == Find(reg, url2, test)
    requires var s1 := PathSegments(parse(url1).value.pathname);
      var s2 := PathSegments(parse(url2).value.pathname);
      s1[..Min(2, |s1|)] == s2[..Min(2, |s2|)]
    ensures GenerateFilename(url1, date, reg, test, parse)
      == GenerateFilename(url2, date, reg, test, parse)
  {
  }
}
