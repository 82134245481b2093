/** The task options the crawl engine and its driver read. */
module Config {

  datatype Options = Options(
    baseUrl: string,        // the seed, and the prefix of every relative absolute url
    maxDepth: int,          // the crawler's `depth` ceiling
    content: bool,          // write captured pages below `contentDir`
    contentDir: string,
    sitemap: bool,          // write `sitemap.xml` below `sitemapDir`
    sitemapDir: string,
    followFragment: bool,   // route on `#!/...` fragments instead of paths
    fragmentPrefix: string,
    exclude: seq<string>)   // patterns matched against a link's path

  /** The defaults the task merges user options into. */
  function Defaults(): (o: Options)
    ensures o.baseUrl == "http://localhost:9000" && o.maxDepth == 4 && DepthBound(o) == 4
    ensures o.content && o.contentDir == "www/static"
    ensures !o.sitemap && o.sitemapDir == "www"
    ensures !o.followFragment && o.fragmentPrefix == "!"
    ensures o.exclude == []
  {
    Options(
      baseUrl := "http://localhost:9000",
      maxDepth := 4,
      content := true,
      contentDir := "www/static",
      sitemap := false,
      sitemapDir := "www",
      followFragment := false,
      fragmentPrefix := "!",
      exclude := [])
  }

  /** Every stored depth stays within this bound: the seed is stored at 1. */
  function DepthBound(opts: Options): (b: int)
    ensures b >= 1 && b >= opts.maxDepth
    ensures b == 1 || b == opts.maxDepth
  {
    if opts.maxDepth < 1 then 1 else opts.maxDepth
  }
}
