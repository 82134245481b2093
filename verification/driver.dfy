/**
 * The task driver: seeds the table with the base url, then on every timer
 * tick either crawls the next url, waits, or, once the table is done,
 * derives the content files and the sitemap from it.
 */
module Driver {
  import opened Wrappers
  import opened Uris
  import opened Config
  import opened Frontier
  import opened Paths
  import opened Engine

  /** The namespace the sitemap's `urlset` element is given. */
  const SitemapNamespace := "https://www.sitemaps.org/schemas/sitemap/0.9"

  /** Every sitemap entry's change frequency. */
  const ChangeFrequency := "weekly"

  datatype ContentFile = ContentFile(path: string, content: Option<string>)

  datatype SitemapUrl = SitemapUrl(loc: string, lastmod: string, priority: string, changefreq: string)

  datatype SitemapFile = SitemapFile(path: string, xmlns: string, urls: seq<SitemapUrl>)

  /** Everything a finished crawl hands to the file writer. */
  datatype Output = Output(files: seq<ContentFile>, sitemap: Option<SitemapFile>)

  /** The table the task starts from: `addUrl(baseUrl, 0)`. */
  function Seed(opts: Options): (f: Frontier)
    ensures f == [Entry(opts.baseUrl, false, false, 1, None)]
    ensures Inv(f, DepthBound(opts))
  {
    AddUrl([], opts.baseUrl, 0)
  }

  /**
   * The number of tenths `(1 / depth).toFixed(1)` prints for a positive
   * depth: the integer nearest to `10 / depth`, the larger one on a tie.
   */
  function PriorityTenths(depth: int): (n: int)
    requires depth >= 1
    ensures 0 <= n <= 10
    ensures -depth < 2 * depth * n - 20 <= depth
  {
    var d2 := 2 * depth;
    var n := (20 + depth) / d2;
    assert 20 + depth == d2 * n + (20 + depth) % d2;
    n
  }

  function Digit(n: int): char
    requires 0 <= n <= 9
  {
    ('0' as int + n) as char
  }

  /** `d.d`, a number of tenths between 0 and 10 written with one decimal. */
  function TenthsText(n: int): (s: string)
    requires 0 <= n <= 10
    ensures |s| == 3 && s[1] == '.'
    ensures '0' <= s[0] <= '9' && '0' <= s[2] <= '9'
    ensures 10 * (s[0] as int - '0' as int) + (s[2] as int - '0' as int) == n
  {
    if n == 10 then "1.0" else [Digit(0), '.', Digit(n)]
  }

  /**
   * `(1 / depth).toFixed(1)` for an integer depth: `Infinity` for 0, a
   * leading minus sign for negative depths.
   */
  function PriorityText(depth: int): (s: string)
    ensures depth >= 1 ==>
      && |s| == 3 && s[1] == '.'
      && '0' <= s[0] <= '9' && '0' <= s[2] <= '9'
      && 10 * (s[0] as int - '0' as int) + (s[2] as int - '0' as int) == PriorityTenths(depth)
    ensures depth <= -1 ==>
      && |s| == 4 && s[0] == '-' && s[2] == '.'
      && '0' <= s[1] <= '9' && '0' <= s[3] <= '9'
      && 10 * (s[1] as int - '0' as int) + (s[3] as int - '0' as int) == PriorityTenths(-depth)
    ensures depth == 0 ==> s == "Infinity"
  {
    if depth == 0 then "Infinity"
    else if depth > 0 then TenthsText(PriorityTenths(depth))
    else "-" + TenthsText(PriorityTenths(-depth))
  }

  /** The seed's priority is 1.0 and one level down it is 0.5. */
  lemma PriorityExamples()
    ensures PriorityText(1) == "1.0"
    ensures PriorityText(2) == "0.5"
    ensures PriorityText(3) == "0.3"
    ensures PriorityText(4) == "0.3"
  {
  }

  /** One content file per record, in iteration order. */
  function ContentFiles(opts: Options, lib: UriLib, f: Frontier): (r: seq<ContentFile>)
    ensures |r| == |f|
    ensures forall i :: 0 <= i < |f| ==>
      r[i].path == opts.contentDir + GetStaticFilename(opts, lib, f[i].url) && r[i].content == f[i].content
  {
    if |f| == 0 then []
    else
      [ContentFile(opts.contentDir + GetStaticFilename(opts, lib, f[0].url), f[0].content)]
      + ContentFiles(opts, lib, f[1..])
  }

  /** One sitemap entry per record, in iteration order. */
  function SitemapUrls(opts: Options, lib: UriLib, today: string, f: Frontier): (r: seq<SitemapUrl>)
    ensures |r| == |f|
    ensures forall i :: 0 <= i < |f| ==>
      && r[i].loc == GetAbsoluteUrl(opts, lib, f[i].url)
      && r[i].lastmod == today
      && r[i].priority == PriorityText(f[i].depth)
      && r[i].changefreq == ChangeFrequency
  {
    if |f| == 0 then []
    else
      [SitemapUrl(GetAbsoluteUrl(opts, lib, f[0].url), today, PriorityText(f[0].depth), ChangeFrequency)]
      + SitemapUrls(opts, lib, today, f[1..])
  }

  /**
   * The finishing branch: content files when `content` is set, a sitemap
   * when `sitemap` is set, each with one item per key in iteration order.
   * `today` stands for the date the task stamps on every entry.
   */
  function Outputs(opts: Options, lib: UriLib, today: string, f: Frontier): (o: Output)
    ensures !opts.content ==> o.files == []
    ensures opts.content ==> |o.files| == |f| && forall i :: 0 <= i < |f| ==>
      o.files[i] == ContentFile(opts.contentDir + GetStaticFilename(opts, lib, f[i].url), f[i].content)
    ensures o.sitemap.Some? <==> opts.sitemap
    ensures opts.sitemap ==>
      && o.sitemap.value.path == opts.sitemapDir + "/sitemap.xml"
      && o.sitemap.value.xmlns == SitemapNamespace
      && |o.sitemap.value.urls| == |f|
      && forall i :: 0 <= i < |f| ==>
        o.sitemap.value.urls[i] == SitemapUrl(GetAbsoluteUrl(opts, lib, f[i].url), today,
                                              PriorityText(f[i].depth), ChangeFrequency)
  {
    var files := if opts.content then ContentFiles(opts, lib, f) else [];
    var sitemap := if opts.sitemap
      then Some(SitemapFile(opts.sitemapDir + "/sitemap.xml", SitemapNamespace, SitemapUrls(opts, lib, today, f)))
      else None;
    Output(files, sitemap)
  }

  /**
   * With unique keys, two relative keys are listed under different
   * locations. A relative key and an absolute one can share a `loc`: the
   * seed and a link `/` both print as the base url followed by `/`.
   */
  lemma SitemapLocsDistinct(opts: Options, lib: UriLib, today: string, f: Frontier)
    requires UniqueKeys(f)
    ensures var urls := SitemapUrls(opts, lib, today, f);
      forall i, j :: 0 <= i < j < |urls| && !lib.parse(f[i].url).absolute && !lib.parse(f[j].url).absolute ==>
        urls[i].loc != urls[j].loc
  {
    var urls := SitemapUrls(opts, lib, today, f);
    forall i, j | 0 <= i < j < |urls| && !lib.parse(f[i].url).absolute && !lib.parse(f[j].url).absolute
      ensures urls[i].loc != urls[j].loc
    {
      if urls[i].loc == urls[j].loc {
        AbsoluteUrlInjectiveOnRelative(opts, lib, f[i].url, f[j].url);
      }
    }
  }

  /** What one tick did. */
  datatype Action = CrawlStarted(url: string, dispatched: bool) | Waited | Finished(output: Output)

  datatype TickResult = TickResult(frontier: Frontier, action: Action)

  /**
   * One run of the task's interval callback. While the table is not done,
   * the next url is crawled if there is one and the tick waits otherwise;
   * a done table finishes the run with its outputs.
   */
  function FinishCrawl(opts: Options, lib: UriLib, today: string, f: Frontier): (t: TickResult)
    ensures t.action.Finished? <==> DoneCrawling(f)
    ensures t.action.Finished? ==> t.action.output == Outputs(opts, lib, today, f)
    ensures t.action.Waited? <==> !DoneCrawling(f) && GetNextUrl(f) == ""
    ensures !t.action.CrawlStarted? ==> t.frontier == f
    ensures t.action.CrawlStarted? ==>
      && t.action.url != ""
      && (exists i :: FirstAvailableAt(f, i) && f[i].url == t.action.url)
      && HasKey(f, t.action.url)
      && (t.action.dispatched <==>
            Lookup(f, t.action.url).value.depth <= opts.maxDepth && !Lookup(f, t.action.url).value.crawled)
      && (UniqueKeys(f) ==> (t.action.dispatched <==> Lookup(f, t.action.url).value.depth <= opts.maxDepth))
      && Lookup(t.frontier, t.action.url) == Some(Lookup(f, t.action.url).value.(crawled := true, crawling := false))
      && (forall k :: k != t.action.url ==> Lookup(t.frontier, k) == Lookup(f, k))
      && Keys(t.frontier) == Keys(f)
  {
    if !DoneCrawling(f) then
      var nextUrl := GetNextUrl(f);
      if |nextUrl| > 0 then
        var step := Crawl(f, opts.maxDepth, nextUrl);
        TickResult(step.frontier, CrawlStarted(nextUrl, step.dispatched))
      else TickResult(f, Waited)
    else TickResult(f, Finished(Outputs(opts, lib, today, f)))
  }

  /** An unfinished table with a next url gets exactly that url crawled. */
  lemma TickCrawlsNextUrl(opts: Options, lib: UriLib, today: string, f: Frontier)
    requires !DoneCrawling(f) && GetNextUrl(f) != ""
    ensures var t := FinishCrawl(opts, lib, today, f);
      t.action.CrawlStarted? && t.action.url == GetNextUrl(f) &&
      t.frontier == Crawl(f, opts.maxDepth, GetNextUrl(f)).frontier
  {
  }

  /** A tick that crawls makes progress: one fewer record is left uncrawled. */
  lemma TickProgress(opts: Options, lib: UriLib, today: string, f: Frontier)
    requires UniqueKeys(f)
    requires FinishCrawl(opts, lib, today, f).action.CrawlStarted?
    ensures Uncrawled(FinishCrawl(opts, lib, today, f).frontier) == Uncrawled(f) - 1
  {
    var t := FinishCrawl(opts, lib, today, f);
    var u := t.action.url;
    var j :| FirstAvailableAt(f, j) && f[j].url == u;
    var i := IndexOf(f, u).value;
    assert i == j;
    var e := f[i].(crawled := true, crawling := false);
    assert t.frontier == f[i := e];
    UncrawledAfterMarking(f, i, e);
  }

  /**
   * In the sequential model no record is ever left crawling, so a tick that
   * waits on an unfinished table can only be one that mistakes the key `""`
   * for the absence of a next url.
   */
  lemma WaitingMeansEmptyKey(opts: Options, lib: UriLib, today: string, f: Frontier)
    requires Inv(f, DepthBound(opts))
    requires FinishCrawl(opts, lib, today, f).action.Waited?
    ensures exists i :: FirstAvailableAt(f, i) && f[i].url == ""
  {
    var i :| 0 <= i < |f| && !Settled(f[i]);
    assert EntryOk(f[i], DepthBound(opts));
    assert Available(f[i]);
  }

  /** Ticks preserve the invariant. */
  lemma TickKeepsInv(opts: Options, lib: UriLib, today: string, f: Frontier)
    requires Inv(f, DepthBound(opts))
    ensures Inv(FinishCrawl(opts, lib, today, f).frontier, DepthBound(opts))
  {
    var t := FinishCrawl(opts, lib, today, f);
    if t.action.CrawlStarted? {
      CrawlKeepsInv(f, opts, t.action.url);
    }
  }
}
