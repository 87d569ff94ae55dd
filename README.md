# Documentation-URL naming and classification, in Dafny

This project models `src/utils/url-utils.ts`, the URL utilities of a tool that
exports documentation pages as one Markdown file. The file holds five pure
functions over an ordered registry of documentation-site descriptors:

- `isValidDocumentationUrl`: does any descriptor accept the URL?
- `getSupportedDomainsText`: the label "`N` supported documentation sites".
- `extractUrlFromQueryString`: the percent-decoded query string, when it is an
  `http://` or `https://` URL.
- `normalizeUrl`: drop query and fragment, then a trailing `/` unless the path
  is the root.
- `generateFilename`: a dated Markdown filename. It is named after the first
  descriptor that accepts the URL, or after the hostname when none does.

Each descriptor has a display name and a rule. The rule is a literal prefix
(`startsWith`) or a regular expression (`test`). Registry order decides which
descriptor `generateFilename` uses.

Files:

- `wrappers.dfy`: `Option`, used for `null` results and parse failures.
- `strings.dfy` (module `Strings`): the JavaScript string operations the file
  uses. These are `startsWith`, `endsWith`, `String(n)`, `padStart`, `split`,
  `filter`, `join`, `replace` and `toLowerCase`. Lemmas cover decimal round trips,
  split/join round trips and what splitting keeps.
- `url_utils.dfy` (module `UrlUtils`): the five functions and the lemmas about them.
- `url_utils_examples.dfy` (module `UrlUtilsExamples`): expected outputs from
  `src/utils/__tests__/url-utils.test.ts`. They use a three-entry sample registry.

Whatever the source reads from its environment is a parameter:

- the registry (`ALLOWED_DOMAINS` from `@/constants`) is `reg: seq<Descriptor>`;
- `pattern.test(url)` is `test: (string, string) -> bool`, called with an
  identifier of the expression (its source and flags) and the URL;
- `new URL(url)` is `parse: string -> Option<Url>`, where `None` stands for the
  constructor throwing. `urlObj.toString()` is `serialize: Url -> string`;
- `decodeURIComponent` is a partial function `decode: string --> string`;
- `new Date()` is a `CalendarDate(year, month, day)`.

Notes on what the code does:

- `isValidDocumentationUrl` does not parse the URL. It rejects only the empty
  string, and `"not-a-url"` is rejected only because no rule accepts it.
- The year in the date prefix is `String(year)`, which is not padded.
  Only month and day are padded to two digits.
- Regular-expression rules use `test`, which searches the string. No
  full-string match is assumed.

## Model

| member | source | states |
|---|---|---|
| `UrlUtils.RuleMatches` | src/utils/url-utils.ts:8-13 | the rule test shared by `some` (lines 8-13) and `find` (lines 76-81): `startsWith` for a string pattern, `test` for a RegExp, false for anything else |
| `UrlUtils.AnyMatches` | src/utils/url-utils.ts:7-14 | `some` over the registry holds exactly when some entry's rule accepts the URL: prefix for a string pattern, the regex test for a RegExp, nothing otherwise |
| `UrlUtils.IsValidDocumentationUrl` | src/utils/url-utils.ts:3-15 | true exactly when the URL is non-empty and some registry entry's rule accepts it |
| `UrlUtils.Find` | src/utils/url-utils.ts:75-82 | `find` returns nothing exactly when no entry accepts the URL; otherwise it returns the entry at the earliest accepting position |
| `UrlUtils.FirstMatchUnique` | src/utils/url-utils.ts:75-82 | at most one registry position is the first accepting one, so the descriptor found is determined by registry order |
| `UrlUtils.FindAgreesWithValidity` | src/utils/url-utils.ts:75-82 | for a non-empty URL, `find` succeeds exactly when `isValidDocumentationUrl` holds, since both use the same rule test |
| `UrlUtils.GetSupportedDomainsText` | src/utils/url-utils.ts:17-20 | the label ends with " supported documentation sites"; what precedes it is decimal digits with no leading zero, whose value is the registry size |
| `UrlUtils.ExtractUrlFromQueryString` | src/utils/url-utils.ts:22-34 | null for the empty string; otherwise it returns the decoded string exactly when that starts with `http://` or `https://`, and null otherwise |
| `UrlUtils.StripQueryAndFragment` | src/utils/url-utils.ts:48-49 | the URL after clearing `hash` and `search` has no query and no fragment; protocol, username, password, host (present or not, and its name), port and pathname are unchanged |
| `UrlUtils.NormalizeUrl` | src/utils/url-utils.ts:44-59 | an unparseable URL is returned unchanged; otherwise the result is the stripped URL's serialisation, less its final `/` exactly when it ends in `/` and the pathname is not `/` |
| `UrlUtils.NormalizeTrimsOnlyPathSlash` | src/utils/url-utils.ts:50-54 | when the pathname is non-empty and the serialisation ends with it, normalising changes the string exactly when the pathname ends in `/` and is not the root |
| `UrlUtils.NormalizeDropsSlashOfEmptyPath` | src/utils/url-utils.ts:52-53 | with an empty pathname (a non-special URL such as `foo://`) and a serialisation ending in `/`, the final `/` is dropped even though it is not part of the path |
| `UrlUtils.TwoDigits` | src/utils/url-utils.ts:65-66 | `String(n).padStart(2, '0')` is exactly the tens and units digits for n below 100, and the plain decimal form above |
| `UrlUtils.DatePrefix` | src/utils/url-utils.ts:63-67 | `${year}-${month}-${day}_` built from `String(year)` and the two padded fields |
| `UrlUtils.DatePrefixFormat` | src/utils/url-utils.ts:63-67 | for a calendar date the prefix is the unpadded year, `-`, two month digits, `-`, two day digits, `_`, and is seven characters longer than the year |
| `UrlUtils.BaseName` | src/utils/url-utils.ts:86 | the descriptor stem has the name's length; letters and digits are kept lower-cased, and every other character becomes its own `-` (runs are not collapsed) |
| `UrlUtils.BaseNameAppend` | src/utils/url-utils.ts:86 | the stem is computed character by character: the stem of `a + b` is the stem of `a` followed by the stem of `b` |
| `UrlUtils.HostStem` | src/utils/url-utils.ts:100 | the hostname with `.` replaced has the same length and contains no `.`; each `.` becomes `-` and every other character is kept |
| `UrlUtils.PathSegments` | src/utils/url-utils.ts:87 | `pathname.split('/').filter(...)`, the same segments at lines 87 and 98 |
| `UrlUtils.PathSegmentsSpec` | src/utils/url-utils.ts:87 | the path segments are non-empty and slash-free, and in order they spell the pathname with its slashes removed |
| `UrlUtils.PathSegmentsOfJoin` | src/utils/url-utils.ts:87 | `/` followed by non-empty, slash-free segments joined with `/` yields exactly those segments, in order, so the cut into segments is fixed |
| `UrlUtils.GenerateFilename` | src/utils/url-utils.ts:61-106 | every filename starts with the date prefix and ends with `.md`; an unparseable URL gives exactly the prefix followed by `documentation.md` |
| `UrlUtils.GenerateFilenameMatched` | src/utils/url-utils.ts:84-95 | a parseable URL whose first accepting entry is `i` gives the prefix, the stem of entry `i`'s name, `-` and at most its first two segments joined by `-` (nothing with no segments), then `-docs.md` |
| `UrlUtils.GenerateFilenameUnmatched` | src/utils/url-utils.ts:97-102 | a parseable URL that no entry accepts gives the prefix, the dotless hostname, `-` and its first segment only (nothing with no segments), then `-docs.md` |
| `UrlUtils.MatchedBranchIffValid` | src/utils/url-utils.ts:75-84 | with a parser that rejects the empty string, a parseable URL takes the descriptor-named branch exactly when `isValidDocumentationUrl` holds |
| `UrlUtils.UnmatchedUsesFirstSegmentOnly` | src/utils/url-utils.ts:98-102 | two unmatched URLs with the same hostname and first segment get the same filename, whatever their later segments |
| `UrlUtils.MatchedUsesTwoSegmentsOnly` | src/utils/url-utils.ts:87-94 | two URLs with the same matched descriptor and the same first two segments get the same filename |
| `Strings.NatToDecimal` | src/utils/url-utils.ts:18-19 | `String(n)` is at least one decimal digit, with no leading zero unless n is 0, and is one digit exactly when n < 10 |
| `Strings.DecimalRoundTrip` | src/utils/url-utils.ts:18-19 | reading back the digits of `String(n)` gives n |
| `Strings.IntToDecimal` | src/utils/url-utils.ts:64-67 | `String(year)` starts with `-` exactly for negative years, its digits read back as the year's magnitude, and it has no leading zero (the year is not padded) |
| `Strings.PadStart` | src/utils/url-utils.ts:65-66 | `padStart` yields the longer of the string and the target length, ends with the string, and is filled in front with the pad character |
| `Strings.Split` | src/utils/url-utils.ts:87 | `split('/')` yields at least one piece, and no piece contains the separator |
| `Strings.SplitNoSeparator` | src/utils/url-utils.ts:87 | a string without the separator splits into itself alone |
| `Strings.SplitAtSeparator` | src/utils/url-utils.ts:87 | the text before the first separator is the first piece, followed by the pieces of the rest |
| `Strings.StartsWith` | src/utils/url-utils.ts:9 | `s.startsWith(p)`, also used at lines 29 and 77 |
| `Strings.EndsWith` | src/utils/url-utils.ts:52 | `s.endsWith(q)` |
| `Strings.Join` | src/utils/url-utils.ts:91 | `parts.join(sep)` |
| `Strings.SplitJoin` | src/utils/url-utils.ts:87-91 | splitting a join of separator-free pieces gives the pieces back |
| `Strings.JoinSplit` | src/utils/url-utils.ts:87 | joining the pieces of `split(d)` with `d` gives back the original string |
| `Strings.ConcatSplit` | src/utils/url-utils.ts:87 | the pieces of a split hold exactly the non-separator characters, in order |
| `Strings.NonEmpty` | src/utils/url-utils.ts:98 | `filter((p) => p)` keeps only non-empty pieces, each taken from the input, and never grows |
| `Strings.NonEmptyAppend` | src/utils/url-utils.ts:98 | the filter distributes over concatenation, so pieces keep their order and are never merged |
| `Strings.NonEmptySingleton` | src/utils/url-utils.ts:98 | a single piece is kept exactly when it is non-empty |
| `Strings.NonEmptyKeepsAll` | src/utils/url-utils.ts:98 | pieces that are all non-empty pass the filter unchanged |
| `Strings.ConcatNonEmpty` | src/utils/url-utils.ts:98 | dropping the empty pieces loses no characters |
| `Strings.ReplaceChar` | src/utils/url-utils.ts:100 | `replace(/\./g, '-')` keeps the length and replaces each `.`, and only those |
| `Strings.ReplaceNonLowerAlnum` | src/utils/url-utils.ts:86 | `replace(/[^a-z0-9]/g, '-')` keeps the length and replaces each character outside `[a-z0-9]` with its own `-` |
| `Strings.ToLowerAscii` | src/utils/url-utils.ts:86 | `toLowerCase()` keeps the length and lower-cases each ASCII capital |
| `UrlUtilsExamples.ExampleDatePrefix` | src/utils/__tests__/url-utils.test.ts:100-108 | 14 June 2025 gives the prefix `2025-06-14_` |
| `UrlUtilsExamples.ExampleDatePrefixMarch5` | src/utils/__tests__/url-utils.test.ts:162-164 | 5 March 2025 gives `2025-03-05_`: single-digit month and day are padded |
| `UrlUtilsExamples.ExampleStemOfPunctuation` | src/utils/__tests__/url-utils.test.ts:131-133 | the four characters ` (*.` of "GitHub Pages (*.github.io)" become four hyphens |
| `UrlUtilsExamples.ExampleStemOfGithubPages` | src/utils/__tests__/url-utils.test.ts:139-141 | "GitHub Pages (*.github.io)" becomes `github-pages----github-io-`, one hyphen per character |
| `UrlUtilsExamples.ExampleStemOfWord` | src/utils/url-utils.ts:86 | "Apple" becomes "apple" |
| `UrlUtilsExamples.ExampleValidity` | src/utils/__tests__/url-utils.test.ts:19-41 | a prefix-matching URL is valid and the empty string is not |
| `UrlUtilsExamples.ExampleSegmentsOfRoot` | src/utils/__tests__/url-utils.test.ts:139-141 | the root path has no segments |
| `UrlUtilsExamples.ExampleSegmentsOfDocsApi` | src/utils/__tests__/url-utils.test.ts:150 | `/docs/api` has the segments `docs` and `api` |
| `UrlUtilsExamples.ExampleUnparseable` | src/utils/__tests__/url-utils.test.ts:144-146 | an unparseable URL gives `2025-06-14_documentation.md` |
| `UrlUtilsExamples.ExampleOtherDomain` | src/utils/__tests__/url-utils.test.ts:149-150 | `https://example.com/docs/api` gives `2025-06-14_example-com-docs-docs.md` |
| `UrlUtilsExamples.ExampleGithubPagesRoot` | src/utils/__tests__/url-utils.test.ts:139-141 | `https://example.github.io/` takes the pattern entry and gives `2025-06-14_github-pages----github-io--docs.md` |

## Left out

- `updateUrlWithDocumentation` (src/utils/url-utils.ts:36-42): it writes to the browser history, which is I/O.
- The export pipeline (`downloadMarkdown`: content filters, deduplication, document assembly, download) is not part of this model. It lives in `file-utils`, outside the URL utilities modelled here.
- `src/app/icon.tsx`: icon rendering, with no logic.
- The contents of `ALLOWED_DOMAINS` are not modelled; the registry is a parameter. The examples use three sample entries.
- Regular-expression semantics are not modelled. `test` is an oracle assumed to be a pure function of pattern and URL. A pattern with the `g` or `y` flag would make `test` depend on `lastIndex`, and that state is not modelled.
- The WHATWG URL parser and serialiser are parameters and are not re-implemented. The `Url` record carries the fields `toString()` reads: protocol, username, password, whether there is a host, hostname, port, pathname, search and hash. `MatchedBranchIffValid` assumes only that the parser rejects the empty string. `NormalizeTrimsOnlyPathSlash` assumes two things: the pathname is non-empty, and a serialisation without query and fragment ends with the pathname. The empty-pathname case is stated separately by `NormalizeDropsSlashOfEmptyPath`.
- `decodeURIComponent` throws on malformed escapes, and the source does not catch that. So `ExtractUrlFromQueryString` requires a non-empty input to be in the decoder's domain.
- The clock and the local time zone of `new Date()` are not modelled. The caller supplies the calendar date. This also removes a quirk of the tests. `new Date('2025-06-14')` at url-utils.test.ts:100 is midnight UTC, but lines 64-66 read the local `getMonth` and `getDate`. West of UTC the source therefore produces 13 June, and the test's expectation does not hold there.
- `BaseName` and `Strings.ToLowerAscii`: `toLowerCase` is modelled on ASCII capitals only. This differs from the source in three cases. KELVIN SIGN (U+212A) lower-cases to `k`, and U+0130 lower-cases to `i` plus a combining dot, so it gives two characters. A character outside the Basic Multilingual Plane is two UTF-16 units, and the source replaces each unit with its own `-`. Every other non-ASCII character becomes a single `-` in both.
- Filenames built from the concrete test URLs with long paths (the Apple Developer and Swift Package Index cases) are not spelled out as literal strings. `GenerateFilenameMatched` gives their general shape instead.
