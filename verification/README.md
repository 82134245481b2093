# grunt-crawl crawl engine, modelled in Dafny

This project models the crawl engine of grunt-crawl. The engine is a PhantomJS-based crawler that starts from a base url. It follows same-origin links, including `#!/route` fragment routes used by single-page applications. When the crawl is done it writes one static HTML file per page and, optionally, a `sitemap.xml`.

The model keeps the synchronous logic and drops the browser:

- **Frontier** (`frontier.dfy`). The crawler's `urls` table is a map from url string to `{crawled, crawling, depth, content}`. Its keys are exact strings. It is modelled as a sequence of records whose `url` fields are unique keys. `Put` is the map write: it overwrites a present key in place and appends a new one. Iteration follows the sequence, that is, insertion order. On top of it sit `addUrl`, `getNextUrl` and `doneCrawling`.
- **Classifier** (`classifier.dfy`). This is `filterUrl` with `isUrlRelative` and `isUrlSameOrigin`. The rules are tried in order and the first match decides. A final exclusion pass can only turn an acceptance into a rejection.
- **Path mapper** (`paths.dfy`). This is `getAbsoluteUrl` and `getStaticFilename`.
- **Engine** (`engine.dfy`). `crawl(url)` has a synchronous effect: the record ends up crawled and not crawling, and the function reports whether a page load was started. The page callback is one sequential step, `CompletePage`: it records the html, then filters the links against the table as it stands and adds the survivors one level deeper, below the depth ceiling.
- **Driver** (`driver.dfy`). This is the task in `tasks/crawl.js`. The seed is `addUrl(baseUrl, 0)`, so its stored depth is 1. Each timer tick either crawls the next url, waits, or finishes. Finishing derives one content file and one sitemap entry per key, in table order.
- **Scenarios** (`scenarios.dfy`). These replay the repository's test cases and a three-tick run on the model. They use a concrete parser for the urls the tests mention.

URIjs and the regular-expression engine are foreign code. They are passed in as `UriLib(parse, matches)`. A parsed url is the `Uri` record: absolute flag, protocol, host, path, filename, fragment, fragment path, and printed form. The path and the fragment path appear twice: as written, which the filter reads (`path()`, `pathname()`), and percent-decoded, which the file name is built from (`pathname(true)`). Only the normalisation before the same-origin test is written out, as ASCII lower-casing of protocol and host.

Notes on the code's behaviour that the model reproduces:

- **Dedup.** Dedup is by exact key, and only an already *crawled* key is refused. A known but uncrawled key passes the filter again, and `addUrl` then resets its record, depth included.
- **Depth.** The base url is stored at depth 1. `crawl` loads a page only if its stored depth is at most `depth`. Links are admitted only from pages whose stored depth is strictly below `depth`, and they are stored one level deeper.
- **Completion order.** `crawl` marks a url crawled before its page has loaded. So `doneCrawling` can hold while page loads are still in flight.
- **Output paths.** `getStaticFilename` rewrites a route only when the url's own filename is empty. So `/people/` maps to `/people.html` and `/people/me` stays `/people/me`. The filename tested is always the main url's, also under fragment routing.
- **Next-url order.** `getNextUrl` is deterministic. It returns the first available key in iteration order.
- **Admission order.** Accepted links that are not yet keys join the table after every existing key, each once, in the order of their first appearance on the page. An accepted link that is already an uncrawled key is rewritten in place.
- **Sitemap namespace.** The `urlset` element is given the namespace `https://www.sitemaps.org/schemas/sitemap/0.9`.

Some behaviours of the code as written are proved or exhibited by the model:

- A link to `/` is not the exact base url, so it is admitted, and its content file name is `.html` (`Scenarios.RootLinkFilename`).
- Under fragment routing, `#!/people/` and `#!/people` are written to the same file (`Scenarios.FragmentSlashVariantsCollide`).
- The sitemap can list one location twice. The seed is the absolute base url, and a link `/` passes the filter and prints as the same `http://localhost:9000/` (`Scenarios.RootLinkAdmitted`, `Scenarios.RootLinkDuplicatesSeedLoc`). Likewise `/people` and `http://localhost:9000/people` are two keys with one location (`Scenarios.PeopleSpellingsShareLoc`).
- `getNextUrl` uses `""` both for "nothing available" and for the key `""`. In the sequential model, a tick that waits on an unfinished table is always caused by that key (`Driver.WaitingMeansEmptyKey`).

## Model

| member | source | states |
|---|---|---|
| Frontier.Lookup | tasks/webcrawler.js:181 | `urls[url]` is absent exactly when `url` is not a key; with unique keys it is the record stored under that exact string |
| Frontier.Put | tasks/webcrawler.js:77-83 | the written key maps to the new record, every other key keeps its record, an existing key keeps its position, a new key is appended last, and unique keys stay unique |
| Frontier.AddUrl | tasks/webcrawler.js:75-85 | afterwards `url` maps to `{crawled: false, crawling: false, depth: depth + 1, content: null}`; other keys are unchanged; insertion order is kept, and re-adding overwrites in place |
| Frontier.FirstAvailable | tasks/webcrawler.js:111-118 | the scan stops at the first record that is neither crawled nor crawling; if it finds none, no such record exists |
| Frontier.GetNextUrl | tasks/webcrawler.js:109-121 | a non-empty result is the key of the first available record in insertion order; the result is `""` exactly when there is no available record or the first one is stored under `""` |
| Frontier.DoneCrawling | tasks/webcrawler.js:128-140 | true exactly when every record is crawled and none is crawling, so an empty table is done |
| Frontier.DoneMeansNoNextUrl | tasks/webcrawler.js:109-140 | on a done table `getNextUrl` returns `""` |
| Frontier.UncrawledAfterMarking | tasks/webcrawler.js:384-385 | marking one uncrawled record crawled lowers the number of uncrawled records by exactly one |
| Frontier.FreshSpec | tasks/webcrawler.js:362-366 | writing a run of keys into a table adds exactly the strings not yet keys, each once, in the order of their first occurrence in the run |
| Uris.SameOriginIgnoresCase | tasks/webcrawler.js:244-249 | lower-casing a url's protocol and host never changes the same-origin verdict |
| Uris.SameOrigin | tasks/webcrawler.js:247-248 | identical protocols and hosts share an origin; references that share one have protocols and hosts of equal length, since only case is normalised |
| Uris.SameOriginEquivalence | tasks/webcrawler.js:247-248 | sharing an origin is reflexive, symmetric and transitive |
| Config.Defaults | tasks/crawl.js:20-34 | base url `http://localhost:9000`, depth ceiling 4, content into `www/static`, no sitemap (directory `www`), path routing with fragment prefix `!`, no exclude patterns |
| Classifier.IsUrlRelative | tasks/webcrawler.js:220-236 | a relative url never is absolute; under path routing it is exactly a non-absolute url with a non-empty path, so a fragment-only link is not relative; under fragment routing a non-absolute url is relative exactly when its fragment path is non-empty and not the root `/` |
| Classifier.IsUrlSameOrigin | tasks/webcrawler.js:244-249 | true exactly when the url's protocol and host agree with the base url's, ignoring ASCII case |
| Classifier.Admissible | tasks/webcrawler.js:176-195 | rules in order: an exact key already crawled is refused; so is the exact base-url string; so is the fragment `prefix + "/"` under fragment routing; otherwise the link passes exactly when it is relative with a non-empty route, or has the base url's protocol and host |
| Classifier.ExcludeReduce | tasks/webcrawler.js:199-207 | the reduce yields true exactly when it starts from true and no pattern matches the path |
| Classifier.FilterUrl | tasks/webcrawler.js:176-210 | exclusion can only turn an acceptance into a rejection; with no patterns the verdict is unchanged; an admissible link is accepted exactly when no pattern matches its path |
| Classifier.FilterUrlSound | tasks/webcrawler.js:176-207 | an accepted link is not a crawled key, not the base url, not the fragment root, is relative or same-origin, and matches no exclude pattern |
| Paths.GetAbsoluteUrl | tasks/webcrawler.js:93-102 | an absolute url comes back as the parser prints it; any other url is the base url followed by the url verbatim, so both are recoverable from the result |
| Paths.AbsoluteUrlInjectiveOnRelative | tasks/webcrawler.js:101 | two relative urls with the same absolute url are the same url |
| Paths.HtmlSuffix | tasks/webcrawler.js:163 | the result ends in `.html`; removing `.html` and restoring the one trailing slash it replaced gives the name back |
| Paths.HtmlSuffixInjective | tasks/webcrawler.js:163 | names without a trailing slash get distinct file names |
| Paths.HtmlSuffixIgnoresTrailingSlash | tasks/webcrawler.js:163 | `name/` and `name` get the same file name |
| Paths.GetStaticFilename | tasks/webcrawler.js:148-168 | with a non-empty filename the percent-decoded route (path, or fragment path under fragment routing) is returned unchanged; with an empty filename the exact base url gives `/index.html`, and any other url gives its decoded route with one trailing slash replaced by `.html` |
| Engine.Crawl | tasks/webcrawler.js:269-386 | requires the url to be a key; afterwards it is crawled and not crawling whatever the guard said; a load is started exactly when its depth is within the ceiling and it was not crawled; no other record or position changes |
| Engine.CrawlKeepsNeverBoth | tasks/webcrawler.js:269-386 | `crawl` keeps "no record is both crawled and crawling" |
| Engine.CrawlKeepsInv | tasks/webcrawler.js:269-386 | `crawl` keeps unique keys, idle records and stored depths within `[1, max(1, depth)]` |
| Engine.RecordContent | tasks/webcrawler.js:334 | the page's record gets the html as content; no other record or position changes |
| Engine.Survivors | tasks/webcrawler.js:362 | a link survives exactly when it is in the list and `filterUrl` accepts it against the table before any addition |
| Engine.KeepIfKeepsOrder | tasks/webcrawler.js:362 | `Array.prototype.filter` keeps order: two kept strings appear in the result in the order of their first occurrences in the input, and conversely |
| Engine.SurvivorsKeepOrder | tasks/webcrawler.js:362 | `filter` keeps order: of two survivors, the one that first appears earlier among the links also comes first among the survivors, and conversely |
| Engine.AddAll | tasks/webcrawler.js:362-366 | every added link maps to a fresh record one level deeper; all other keys are unchanged; the keys become the old keys followed by the new strings of the list in first-occurrence order |
| Engine.AdmitLinks | tasks/webcrawler.js:357-366 | at or above the ceiling nothing changes; below it, every accepted link is stored fresh at `currDepth + 1` and the keys become the old keys followed by the new accepted links in order; links that are refused, crawled records and the base url's record are untouched |
| Engine.NewKeysInLinkOrder | tasks/webcrawler.js:362-366 | the keys a page adds are exactly its accepted links that were not yet keys, and they follow the order in which the links first appear on the page |
| Engine.FilterFollowsCrawled | tasks/webcrawler.js:181 | the filter, and with it the set of survivors, reads the table only through which keys are crawled, so recording content does not change it |
| Engine.CompletePage | tasks/webcrawler.js:329-366 | `currDepth` is the page's own stored depth; every other key is stored fresh at `currDepth + 1` exactly when the extraction produced a list, the page is below the ceiling, and the key is an accepted link; otherwise it keeps its record; the page keeps the captured html unless it is itself re-admitted, which a crawled page never is; new keys are appended in link order |
| Engine.CompletePageKeepsInv | tasks/webcrawler.js:362-366 | completing a page keeps unique keys, idle records and stored depths within `[1, max(1, depth)]` |
| Driver.Seed | tasks/crawl.js:42-43 | the table starts as the base url alone, at stored depth 1, satisfying the invariant |
| Driver.PriorityTenths | tasks/crawl.js:78 | the tenths printed for `1/depth` are the integer nearest `10/depth`, the larger on a tie, between 0 and 10 |
| Driver.PriorityText | tasks/crawl.js:78 | `(1/depth).toFixed(1)` is two decimal digits around a point that read back as those tenths, with a minus sign for negative depths and `Infinity` for 0 |
| Driver.PriorityExamples | tasks/crawl.js:78 | depth 1 prints `1.0`, depth 2 `0.5`, depths 3 and 4 `0.3` |
| Driver.ContentFiles | tasks/crawl.js:64-71 | one file per key in table order, at `contentDir + getStaticFilename(key)`, holding that record's content |
| Driver.SitemapUrls | tasks/crawl.js:73-81 | one entry per key in table order, with `loc = getAbsoluteUrl(key)`, the given date, the priority text of its depth, and `weekly` |
| Driver.Outputs | tasks/crawl.js:62-87 | content files exist only with `content`; a sitemap at `sitemapDir/sitemap.xml` exists exactly with `sitemap`; both list every key in order |
| Driver.SitemapLocsDistinct | tasks/crawl.js:64-81 | with unique keys, two relative keys never share a sitemap location; nothing is promised for an absolute key, which can share one with a relative key |
| Driver.FinishCrawl | tasks/crawl.js:46-94 | a tick finishes exactly when `doneCrawling` holds, and then yields the outputs; it waits exactly when the table is not done and `getNextUrl` is `""`, changing nothing; otherwise it crawls the first available key, which becomes crawled while nothing else changes, and starts a page load exactly when that record is within the depth ceiling (and, should keys repeat, not already crawled) |
| Driver.TickCrawlsNextUrl | tasks/crawl.js:54-58 | on an unfinished table with a non-empty next url, the tick crawls exactly that url |
| Driver.TickProgress | tasks/crawl.js:54-58 | a tick that crawls leaves one fewer uncrawled record |
| Driver.WaitingMeansEmptyKey | tasks/crawl.js:54-61 | under the invariant, a waiting tick means the first available key is `""` |
| Driver.TickKeepsInv | tasks/crawl.js:54-61 | ticks keep the invariant |
| Scenarios.AddUrlExample | tests/webcrawler.test.js:76-89 | `addUrl('/people', 1)` on an empty table stores `/people` at depth 2 |
| Scenarios.AbsoluteUrlExamples | tests/webcrawler.test.js:103-113 | `http://example.com` prints as `http://example.com/`; `/person` becomes `http://localhost:9000/person` |
| Scenarios.FilterPathExamples | tests/webcrawler.test.js:116-141 | `/people` and `http://localhost:9000/people` pass; `http://example.com` and the exact base url do not |
| Scenarios.FilterFragmentExamples | tests/webcrawler.test.js:116-152 | with the test's options, whose misspelt `fragmentprefix` leaves the prefix undefined, under fragment routing `#!/` is not the fragment root but is refused because its fragment path `/` is not relative; `#!/people` and `#!/people/sam` pass |
| Scenarios.FragmentRootWithDefaultPrefix | tasks/webcrawler.js:187-189 | with the default prefix `!`, `#!/` is refused by the fragment-root rule itself |
| Scenarios.PathLinkRefusedUnderFragments | tasks/webcrawler.js:179-195 | under fragment routing the path link `/people` has no fragment route, so it is neither relative nor same-origin and is refused |
| Scenarios.FilterExcludeExamples | tests/webcrawler.test.js:116-164 | with the patterns `/people` and `/people/sam`, both paths are refused and `/about` passes |
| Scenarios.FilterDedupExamples | tasks/webcrawler.js:181-183 | a crawled key is refused; a known but uncrawled key is accepted again |
| Scenarios.StaticFilenameExamples | tasks/webcrawler.js:148-168 | the base url maps to `/index.html`, `/people/` to `/people.html`, and `/people/me` stays unchanged |
| Scenarios.StaticFilenameFragmentExample | tasks/webcrawler.js:148-168 | under fragment routing `#!/people/sam` is written to `/people/sam.html` |
| Scenarios.StaticFilenameDecoded | tasks/webcrawler.js:148-168 | `/a%20b/` is written to the percent-decoded `/a b.html` |
| Scenarios.FragmentSlashVariantsCollide | tasks/webcrawler.js:159-164 | `#!/people/` and `#!/people` get the same content file |
| Scenarios.RootLinkFilename | tasks/webcrawler.js:184-192 | a link to `/` passes the filter and maps to the file name `.html` |
| Scenarios.RunTick1 | tasks/crawl.js:42-58 | the first tick crawls the seed and starts its page load |
| Scenarios.RunPage1 | tasks/webcrawler.js:334-366 | the seed's page records its html and admits only its same-origin link, at depth 2 |
| Scenarios.RunTick2 | tasks/crawl.js:54-58 | the second tick crawls the admitted link |
| Scenarios.RunPage2 | tasks/webcrawler.js:362-366 | a page at the depth ceiling records its html but admits nothing |
| Scenarios.RunContentFiles | tasks/crawl.js:64-71 | the finished run writes `www/static/index.html` and `www/static/about` |
| Scenarios.RunSitemapUrls | tasks/crawl.js:73-81 | the finished run's sitemap lists both pages with priorities `1.0` and `0.5` |
| Scenarios.RunTick3 | tasks/crawl.js:62-87 | the third tick finds the table done and finishes with those outputs |
| Scenarios.RootLinkAdmitted | tasks/webcrawler.js:362-366 | the seed's page admits its link `/` at depth 2 |
| Scenarios.RootLinkDuplicatesSeedLoc | tasks/crawl.js:64-81 | the seed and the admitted `/` are listed under the same location `http://localhost:9000/` |
| Scenarios.PeopleSpellingsShareLoc | tests/webcrawler.test.js:127-128 | `/people` and `http://localhost:9000/people` both pass the filter and have the same absolute url |

## Left out

- PhantomJS lifecycle (`startPhantom`, `stopPhantom`, `setPhantom`, `createPhantom`, tasks/webcrawler.js:23-66) and page handling (`createPage`, `page.open`, `page.evaluate`, the ready-selector poll and the link delay, tasks/webcrawler.js:281-381). These are asynchronous foreign I/O. A page's results enter the model as the `html` and `links` arguments of `Engine.CompletePage`. A page that fails to open or never becomes ready leaves its record as `crawl` left it, which is the absence of a `CompletePage` step.
- `createSnapshot` (tasks/webcrawler.js:257-262): image rendering, which is I/O.
- URIjs parsing and printing are foreign code, and their results are taken as the fields of `Uri`. This covers relative/absolute detection, fragment-URI extraction, percent-decoding of `pathname(true)`, `toString` normalisation, and the punycode and IPv6 steps of host normalisation. Protocol and host normalisation is modelled as ASCII lower-casing only.
- Frontier.Put: the table iterates in insertion order only. A JavaScript object visits array-index keys, such as a relative href `2` or `10`, before all other keys and in ascending numeric order. The model treats such keys like any other, so for them the order of `getNextUrl`, the content files and the sitemap is not modelled. Writing the key `__proto__` does not create an own property in JavaScript; the model stores it like any other key. Urls beginning with `/`, `#` or a scheme are never array indices, so they are unaffected.
- Engine.CompletePage: every href is a string. An `<a>` without `href` yields `null` (tasks/webcrawler.js:349). `filterUrl(null)` then calls `URI(null)`, which throws, so the `filter` at tasks/webcrawler.js:362 aborts, and no link of that page is admitted, the valid ones included. That error path is not modelled.
- Regular-expression construction and case-insensitive matching in the exclusion pass are foreign code. They are the `matches` predicate.
- Concurrency. Each page completion is one atomic step applied to the table as it stands. Overlapping page loads and their interleavings are not modelled. The transient `crawling = true` of tasks/webcrawler.js:279 is overwritten before `crawl` returns, so the model never shows it.
- Termination of a whole crawl is not proved. The model proves per-step facts only: each crawling tick lowers the number of uncrawled records by one, and page completions keep depths bounded.
- In tasks/crawl.js: file writing, `data2xml` serialisation, `setInterval`, the `done` callback and error logging are I/O. The date from `grunt.template.today` is the `today` parameter. The float `(1/depth).toFixed(1)` is modelled exactly, as integer tenths.
- Options that only reach the renderer (`readySelector`, viewport size, `waitDelay`, `render`, `renderDir`), and the merging of user options into the defaults.
- Gruntfile.js holds configuration only. test/crawl_test.js checks files on disk that depend on a fixture site, which is not part of this model.
