# Missing-URL finder: a Dafny model of its core

The application (`app.py`) takes a list of reference entries, which are URLs or
regex directives such as `ev:/news/.*`. It finds the sites they belong to and
crawls those sites breadth-first. It then reports every page it finds that no
reference entry already covers, labelled PDF, HTML, Both, Out of Scope or
Unclassified. This project models the logic behind that report:

- `Blocking`: `is_blocked_domain`, the permanent block on `amazonaws.com` and its subdomains.
- `Classifier` and `ClassifierTables`: `DocTypeClassifier`, a first-match-wins cascade of pattern tables, and the scope filter built on it.
- `Extractor`: `URLExtractor`, which pulls `http(s)://` URLs out of free text and picks out regex directives.
- `Domains`: `DomainUtil`, covering the root URL, the host key and the domain map from host key to seed root.
- `CrawlFilter`: `Crawler._normalize` and `Crawler._valid`, covering URL normalisation and link admission.
- `Crawler`: `Crawler._batch` and `Crawler.crawl`, covering the page budget, the level loop, and the merge into the discovered map.
- `Matcher`: `URLMatcher`, covering the exact, host-and-path and regex coverage steps.
- Support modules:
  - `Wrappers`, `Seqs` and `Text` model Python's string methods as the code uses them: `strip`, `rstrip`, `lower`, `replace`, `split`, `join` and `find`.
  - `Url` models `urlparse` and `geturl` (the `urlsplit`/`urlunsplit` rules of Python 3.12), with the round trip `Split(Unsplit(p)) == p` proved.
  - `Regex` models the regex engine as a parameter.

Three inputs of the crawl become parameters:

- The regular-expression engine is a `Search` function, meaning "pattern found in text".
- Fetching a page is `links: string -> seq<string>`, the links `_links` would return.
- The order in which `list(set(...))` yields URLs is an `order` sequence.

Every classifier property holds for any pattern tables and any `Search`. The tables the application ships are included as data.

Three behaviours of the code are easy to misread, and the model keeps them as written:

- `rstrip('/')` removes every trailing slash, not just one (`CrawlFilter.NormalPathSpec`, `Matcher.KeyIgnoresSlash`).
- `replace('www.', '')` removes every occurrence of `www.` in a host name, not only a leading one, so the host `amazonwww.aws.com` gets the key `amazonaws.com` (`Domains.WwwRemovedEverywhere`).
- A directive's regex is tried only after `(` and `)` are stripped from both ends of it; the unstripped text is never tried (`Matcher.DirectiveRegexOf`).

## Model

| member | source | states |
|---|---|---|
| Blocking.IsBlocked | app.py:100-108 | A URL is blocked exactly when its lower-cased netloc equals a blocked domain or ends with `.` plus one |
| Blocking.BlockedIffAmazonaws | app.py:54 | The `s3.amazonaws.com` entry is redundant: blocked iff the host is `amazonaws.com` or a subdomain of it |
| Classifier.FirstMatch | app.py:424-431 | Gives the index of the first pattern found in the text, with no earlier pattern found; none means no pattern is found |
| Classifier.MatchAny | app.py:424-431 | Gives the first pattern found in the text: a pattern that is found, with no earlier pattern found, is the answer. A non-empty answer is a table pattern found in the text; when no pattern is found the answer is empty |
| Classifier.OverrideIff | app.py:433-435 | `IsOverride` holds iff the first override pattern found in the URL is non-empty, since `_is_override` tests the truth of the returned pattern |
| Classifier.Classify | app.py:438-489 | Empty URL gives Unclassified/low. A blocked URL is Out of Scope/high with the fixed pattern. An override excludes Out of Scope. Low iff Unclassified. High iff Out of Scope or a `.pdf` path. The pattern is empty iff Unclassified |
| Classifier.InScope | app.py:492-505 | Kept iff the label is not Out of Scope, and mode PDF rejects HTML, and mode HTML rejects PDF |
| Classifier.FirstFiringIsFirst | app.py:462-489 | The cascade's answer comes from a stage that fires after no earlier stage fired, or from no stage firing and Unclassified |
| Classifier.DocumentStages | app.py:462-487 | Never Out of Scope. High exactly for a `.pdf` path, and then PDF. Low iff Unclassified iff no pattern |
| Classifier.DocumentStagesAreCascade | app.py:462-489 | The `.pdf`/PDF/HTML/Both checks equal the first firing stage of the rule list, keyword before path |
| Classifier.ClassifyFollowsCascade | app.py:438-489 | Off the blocked domains, `classify` is the first firing stage of the cascade. The out-of-scope stages are present iff no override matches |
| Classifier.ClassifyPriority | app.py:438-489 | The label is decided by the first stage that fires; with no stage firing the result is Unclassified |
| Classifier.BlockedFirst | app.py:450-451 | A blocked URL is Out of Scope whatever else matches, and no scope mode keeps it |
| Classifier.OverridePrecedence | app.py:453-460 | An override rules out Out of Scope. Without one, an out-of-scope path pattern decides before an out-of-scope keyword |
| Classifier.ScopeFilter | app.py:492-505 | Out of Scope is never kept. Mode Both keeps everything else. Unclassified passes PDF and HTML. An unknown mode keeps all but Out of Scope |
| Extractor.RunEnd | app.py:513 | The run of the class `[^\s'"<>}\)]` from a position ends at the end of the text or at a character outside the class |
| Extractor.RunEndChars | app.py:513 | Every character of that run is in the class, so together with `RunEnd` the run is maximal |
| Extractor.MatchAt | app.py:513 | A match starts at a position iff `http://` or `https://` starts there followed by a URL character. It then runs greedily to the end of that run, which is the end of the text or a non-URL character |
| Extractor.MatchAtToken | app.py:513 | The text of a match is a well-formed URL token: `http(s)://` and at least one more character, all URL characters |
| Extractor.ScanFirst | app.py:521 | The first match `findall` reports starts at the leftmost position where a match starts, is taken in full, and scanning resumes where it ends |
| Extractor.ScanSkip | app.py:521 | Positions where no match starts are passed over without reporting anything |
| Extractor.ScanEmpty | app.py:521 | `findall` reports nothing iff no match starts anywhere in the text |
| Extractor.ScanTokens | app.py:521 | Every match `findall` reports is a well-formed URL token |
| Extractor.ScanConcatFrom | app.py:521 | Across a join no run of URL characters can bridge, the matches of the join are those of the left part followed by those of the right |
| Extractor.CleanShape | app.py:522-524 | Stripping `,;|` leaves no trailing `}`, so the `}` removal changes nothing; the result is an extracted URL or blocked |
| Extractor.KeepShape | app.py:521-526 | Every kept match is an extracted URL: http(s), longer than 10, URL characters only, no trailing `,;|`, not blocked |
| Extractor.ExtractHttp | app.py:516-528 | Every URL extracted from an entry has that shape, and an entry in which no match starts yields nothing |
| Extractor.ExtractCleanUrl | app.py:516-528 | A clean URL extracts to exactly itself, which is the round trip of extraction |
| Extractor.ExtractHttpConcat | app.py:516-528 | Extraction from text joined at a boundary no URL can straddle is the extraction from each part, in order |
| Extractor.ExtractEmbedded | app.py:516-528 | A clean URL set off by non-URL characters inside an entry is extracted, between what the text before it and after it yield |
| Extractor.ExtractAfterPrefix | app.py:516-528 | Text in which no match starts, then a clean URL, extracts to exactly that URL |
| Extractor.AllHttp | app.py:542-546 | The set of URLs extracted from any entry, each of the extracted shape |
| Extractor.RegexPatterns | app.py:531-539 | Gives trimmed entries starting `ev:`/`cp:`/`df:`/`if:` in any case, no more of them than entries; every such entry is included |
| Extractor.RegexPatternsAppend | app.py:533-536 | The directives of a joined entry list are those of the first part followed by those of the second, so they keep entry order and repeats |
| Extractor.RegexPatternsOne | app.py:535-536 | One entry contributes its trimmed text exactly when that is a directive, and nothing otherwise |
| Domains.Root | app.py:555-562 | Some iff the trimmed URL has a scheme and a netloc, in which case the root re-parses to that scheme and netloc alone |
| Domains.RootBlocked | app.py:555-562 | The root is blocked exactly when the URL is |
| Domains.Candidate | app.py:576-582 | An entry exists iff the URL is eligible. It carries the URL's host key and root, and the root is unblocked |
| Domains.DomainMap | app.py:572-585 | Domains are distinct. Each entry comes from the first URL with that key (first wins). Every eligible URL's key is present. Roots are unblocked |
| Domains.DomainKeys | app.py:572-585 | The map's keys are exactly the host keys of the eligible URLs |
| Domains.KeysOrderFree | app.py:542-546 | The key set does not depend on the order `list(set(...))` produces |
| Domains.DomainMapExtends | app.py:572-585 | More URLs only append entries; earlier entries stay put |
| Domains.ResolveDomains | app.py:572-585 | Over the extracted URLs of the entries, the keys are the eligible host keys and every root is unblocked |
| Domains.WwwRemovedEverywhere | app.py:565-569 | `www.` is removed inside a host name too, not only at its start |
| Domains.HostKeyDropsWww | app.py:567 | A leading `www.`, in any letter case, does not change the host key |
| Domains.HostKeyPlain | app.py:567 | A host name with no `www.` anywhere keys to itself lower-cased |
| Domains.NormTrimmed | app.py:565-569 | `Norm`, the model of `norm`, ignores whitespace around the URL |
| CrawlFilter.NormalPathSpec | app.py:656-657 | The path becomes `/` iff it is all slashes. Otherwise it becomes the path minus exactly its trailing slashes |
| CrawlFilter.NormalPathIdempotent | app.py:656-657 | Path normalisation is idempotent |
| CrawlFilter.NormalQueryIdempotent | app.py:658-664 | Tracking-parameter removal is idempotent |
| CrawlFilter.NormalizeQueryKeeps | app.py:658-664 | No parameter left in the query has a tracking key, compared case-insensitively |
| CrawlFilter.Normalize | app.py:653-667 | Scheme and netloc are kept and the fragment is dropped. The path is `/` iff it was all slashes, otherwise it is the path minus its trailing slashes. No tracking parameter is left |
| CrawlFilter.NormalizeIdempotent | app.py:653-667 | Normalising twice equals normalising once |
| CrawlFilter.NormalizeKeepsBlocked | app.py:653-667 | Normalisation never changes whether a URL is blocked |
| CrawlFilter.ValidMonotone | app.py:632-651 | `Valid`, the model of `_valid`, depends on the allowed set only through membership: allowing more hosts never rejects a valid link |
| CrawlFilter.ValidSkipsPageNumber | app.py:645-648 | A link containing `/page/` and a digit, in any letter case, is rejected whatever its host |
| CrawlFilter.Accept | app.py:707-708 | Keeps a link iff its normal form is valid. It returns that form, which is a fixpoint of normalisation, unblocked, with its host key allowed |
| Crawler.Picks | app.py:706-711 | Passes on every filtered unvisited link, one level deeper, and nothing else |
| Crawler.Harvest | app.py:706-711 | Items are one level deeper and unvisited, each from a link the filter keeps; every such link is passed on |
| Crawler.Admit | app.py:697-705 | Skip iff too deep or visited. Otherwise the item is marked visited and counted. Overflow iff the count exceeds `max_pages`, in which case the page is not fetched |
| Crawler.AdmitKeepsBooks | app.py:699-705 | Admission keeps the count equal to the number of visited URLs. The fetch log stays distinct and within the budget |
| Crawler.BatchFacts | app.py:693-714 | `Batch`, the model of `_batch`: a batch keeps the books and visits only its own items. It fetches only its items and returns only filtered finds one level deeper |
| Crawler.BatchSize | app.py:739 | The batch size is at least 1. It is the floor of the level size over the worker count when the level has at least as many items as workers, and 1 when it has fewer. With no workers it is the level size, or 1 for an empty level |
| Crawler.Chunks | app.py:740 | The batches are non-empty and concatenate back to the level. Every batch but the last is exactly `bs` long, and the last at most `bs` |
| Crawler.RunBatchesFacts | app.py:743-753 | All batches of a level together keep the books, and their finds are filtered items one level deeper |
| Crawler.FindDomain | app.py:757 | Gives the first seed with this host key, or none if there is no such seed |
| Crawler.MergeFacts | app.py:751-761 | `Merge`, the model of the result loop: the merge never overwrites and adds exactly the new URLs, at the next depth, with their host key and seed. The next level is exactly the added URLs |
| Crawler.SeedLevel | app.py:728-732 | The first level is each seed root normalised, at depth 0 |
| Crawler.LastFor | app.py:728-731 | Gives the last seed whose root normalises to the URL |
| Crawler.SeedMapFacts | app.py:728-734 | Seeding holds exactly the normalised roots, each recorded from the last seed with that normal form |
| Crawler.SeedMapSeeds | app.py:728-732 | Every seed's normalised root is in the result at depth 0 before the first level runs |
| Crawler.SeedMapEntries | app.py:728-734 | Every entry the seeding loop writes is a depth-0 entry taken from a seed |
| Crawler.InitInv | app.py:723-732 | The seeded state satisfies the level-loop invariant: nothing visited, count 0, seeds present |
| Crawler.LevelStep | app.py:736-774 | One level keeps the loop invariant: books, fetch log, entry soundness, and seeds present at depth 0 |
| Crawler.LevelsFacts | app.py:736-774 | `Levels`, the model of the level loop: the whole loop ends with the final invariant and never loses or changes an entry |
| Crawler.RunFacts | app.py:716-778 | `Run`, the model of `crawl` on a non-empty map, ends with the books kept, every fetch recorded, every entry sound and no deeper than `max_depth + 1`, and every seed present at depth 0 |
| Crawler.KeptAdmissible | app.py:707-708 | A link the crawl's filter lets through is valid, normalised and on an allowed host |
| Crawler.FoundSeed | app.py:756-760 | A found entry's seed is the map's root for its host key |
| Crawler.RunSeeds | app.py:728-734 | Depth-0 entries are normalised seed roots, recorded with that seed's root and domain |
| Crawler.RunFinds | app.py:751-761 | Deeper entries are valid, normalised, recorded with their host key, and seeded from the map |
| Crawler.Crawl | app.py:716-778 | An empty map gives an empty result. No entry is deeper than `max_depth + 1`. Every seed is present at depth 0. Depth-0 entries are seeds. Deeper entries are valid normalised finds with their key's seed |
| Crawler.CrawlBudget | app.py:693-778 | The count equals the number of visited URLs, and no page is fetched twice. At most `max_pages` pages are fetched, level by level, none deeper than `max_depth`. Every fetched and every visited URL is in the result |
| Crawler.OverflowUnfetched | app.py:702-705 | Past the budget, exactly `count - max_pages` visited URLs were never fetched |
| Crawler.CrawlUnblocked | app.py:716-778 | Seeds off the blocked domains lead to no blocked URL in the result |
| Crawler.DeepestLevelRecorded | app.py:736-761 | Links found at depth `max_depth` still enter the result, at depth `max_depth + 1` |
| Matcher.ExactIgnoresCase | app.py:787-791 | `MatchKey`, the model of `_norm`: URLs equal up to letter case have the same match key |
| Matcher.KeyIgnoresSlash | app.py:789 | A trimmed URL and the same URL with `/` appended have the same match key |
| Matcher.AnyExact | app.py:796-799 | True iff some listed URL has the same match key |
| Matcher.AnyPath | app.py:801-816 | True iff some listed URL has the same host key and the same non-empty path without trailing slashes, compared case-sensitively |
| Matcher.DirectiveBody | app.py:820 | The text `(.*)` captures: what follows the tag and colon, up to the first line break or the end |
| Matcher.DirectiveRegex | app.py:820-825 | A regex comes only from a directive. It is non-empty, has no parenthesis at either end, and has no line break |
| Matcher.DirectiveRegexOf | app.py:820-825 | `tag:(x)` with a directive tag gives exactly `x` as the regex, when `x` is non-empty with no line break and no whitespace or parenthesis at either end |
| Matcher.DirectiveRegexNone | app.py:820-825 | A directive gives no regex only when everything after its tag, up to the first line break, is whitespace or parentheses |
| Matcher.AnyRegex | app.py:818-829 | True iff some directive's regex is found in the URL's path or in the whole URL |
| Matcher.Covered | app.py:794-833 | Covered iff the exact step or the host-and-path step or the regex step matches |
| Matcher.CoveredMonotone | app.py:794-833 | Listing more URLs or directives never uncovers a URL |
| Matcher.ListedCovered | app.py:796-799 | A listed URL covers itself |
| Url.SplitUnsplit | app.py:653-667 | `geturl` of parsed parts parses back to the same parts |
| Url.SplitWellFormed | app.py:653-667 | Every parse result has the shape `geturl` inverts |
| Text.SplitJoin | app.py:658-664 | Joining parameters that contain no `&` with `&` and splitting again gives them back |
| Text.LowerStrip | app.py:789 | Trimming commutes with lower-casing |

## Left out

- The Streamlit user interface and session state are UI only: `init_session`, `get_ss`/`set_ss`, `reset_*`, `clickable`, `cls_badge`, `cls_emoji`, `build_df`, `main`.
- `parse_input` (input parsing for the UI) and the keyword exclusion regexes (`build_exclusion_regex`, `url_matches_exclusion`) are not part of this model.
- `_links` and `_session` are left out because they do HTTP and HTML parsing. `_links` is the parameter `links`, so the link filtering it does (fragments, `javascript:`, `urljoin`, the blocked check) is not modelled.
- Crawler.Crawl: models the worker threads as one legal schedule, with batches run one after another in batch order and their finds merged in that order. It does not model other `as_completed` orders, so which seed a URL is credited to and the set of URLs found before the budget runs out may differ under another schedule.
- Crawler.Crawl: leaves out `on_progress`, `delay`, `timeout` and the 120-second result timeout, because they are timing and UI. It also leaves out `max_workers` as a thread count; only the batch size it induces is modelled.
- Crawler.Crawl: leaves out the `except Exception` fallbacks, because every modelled operation is total on strings. Non-string inputs are outside the model.
- Regex.Search: stands for `re.search`, so the regex engine itself is not modelled. A pattern that does not compile is assumed to answer false, as the source skips it.
- CrawlFilter.Valid: matches `SKIP_PATH` as literal fragments plus `/page/` followed by an ASCII digit. It reads `\d` as ASCII only, whereas Python's `\d` also accepts other Unicode digits.
- Text.Lower: folds ASCII letters only. Unicode case mappings, and the special folds of `re.IGNORECASE`, are not modelled.
- Url.Split: models `urlparse` as `urlsplit`. It does not separate the `;params` of the last path segment, so the path keeps them. Every use of `urlparse(...).path` differs for such URLs: `_normalize` (app.py:653-667), the `.pdf` test of `classify` (app.py:446), the `SKIP_EXT` test of `_valid` (app.py:640-644), and the path step and path search of `covered` (app.py:802-812, 826). For example, the code reads the path of `https://x.com/doc.pdf;jsessionid=1` as `/doc.pdf`, so it classifies the URL as PDF with high confidence and `_valid` rejects it. The model reads the path as `/doc.pdf;jsessionid=1`, so `Classify` gives neither the `.pdf` rule nor high confidence, and `Valid` lets the crawler fetch the link.
- Url.Split: does not model the leading-space and control-character stripping that `urlsplit` does, nor its tab and newline removal. It also does not model `urlparse`'s `ValueError` on malformed IPv6 netlocs.
- Classifier.Classify: the label, confidence and pattern are returned as a datatype rather than strings. The blocked pattern string is kept.
- ExtractHttp: its own contract states the shape of what is extracted and that text with no match yields nothing. Which URLs are extracted is stated separately: by `ScanFirst`, `ScanSkip` and `ScanEmpty` for `findall` in general, and by `ExtractEmbedded`, `ExtractAfterPrefix` and `ExtractCleanUrl` for URLs set off by non-URL characters.
- Scan: has no contract of its own. Its behaviour, leftmost greedy matches that do not overlap, is stated by `ScanFirst`, `ScanSkip`, `ScanEmpty` and `ScanTokens`.
