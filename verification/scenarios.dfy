/**
 * The behaviour the crawler's test suite pins down, replayed on the model.
 * `TestParse` gives, for each url the tests use, the fields the URI library
 * reports for it; exclude patterns in the tests are plain strings, so a
 * pattern matches when it occurs in the path.
 */
module Scenarios {
  import opened Wrappers
  import opened Uris
  import opened Config
  import opened Frontier
  import opened Classifier
  import opened Paths
  import opened Engine
  import opened Driver

  function TestParse(s: string): Uri {
    if s == "http://localhost:9000" then
      Uri(true, "http", "localhost:9000", "/", "/", "", "", "", "", "http://localhost:9000/")
    else if s == "http://localhost:9000/people" then
      Uri(true, "http", "localhost:9000", "/people", "/people", "people", "", "", "", s)
    else if s == "http://example.com" then
      Uri(true, "http", "example.com", "/", "/", "", "", "", "", "http://example.com/")
    else if s == "#!/" then FragmentRef(s, "!/", "/")
    else if s == "#!/people" then FragmentRef(s, "!/people", "/people")
    else if s == "#!/people/" then FragmentRef(s, "!/people/", "/people/")
    else if s == "#!/people/sam" then FragmentRef(s, "!/people/sam", "/people/sam")
    else if s == "/a%20b/" then PathRef(s, "/a b/")
    else
      // "/", "/people", "/people/", "/people/sam", "/people/me", "/about",
      // "/person": a relative path with nothing to decode
      PathRef(s, s)
  }

  /** A relative path reference; its filename is the last segment. */
  function PathRef(s: string, decoded: string): Uri {
    Uri(false, "", "", s, decoded, LastSegment(s), "", "", "", s)
  }

  /** A fragment-only reference `#` + `fragment` whose fragment path is `route`. */
  function FragmentRef(s: string, fragment: string, route: string): Uri {
    Uri(false, "", "", "", "", "", fragment, route, route, s)
  }

  function LastSegment(s: string): string
    decreases |s|
  {
    if |s| == 0 || s[|s| - 1] == '/' then "" else LastSegment(s[..|s| - 1]) + [s[|s| - 1]]
  }

  predicate StartsWith(s: string, p: string) {
    |p| <= |s| && s[..|p|] == p
  }

  /** `p` occurs somewhere in `s`. */
  predicate Contains(s: string, p: string)
    decreases |s|
  {
    StartsWith(s, p) || (|s| > 0 && Contains(s[1..], p))
  }

  /** A pattern longer than the subject cannot occur in it. */
  lemma {:induction false} LongerNeverContained(s: string, p: string)
    requires |p| > |s|
    ensures !Contains(s, p)
    decreases |s|
  {
    if |s| > 0 {
      LongerNeverContained(s[1..], p);
    }
  }

  function TestLib(): UriLib {
    UriLib(TestParse, (pattern: string, subject: string) => Contains(subject, pattern))
  }

  /**
   * The options object the filter tests construct the crawler with: depth
   * 2, path routing, no exclusions. The object spells the prefix key
   * `fragmentprefix`, so the crawler's `fragmentPrefix` is undefined and the
   * fragment-root rule compares the fragment against `"undefined/"`.
   */
  function FilterTestOptions(): Options {
    Defaults().(maxDepth := 2, fragmentPrefix := "undefined")
  }

  /** The task's defaults with a depth ceiling of 2. */
  function TaskOptions(): Options {
    Defaults().(maxDepth := 2)
  }

  /** `addUrl('/people', 1)` on an empty table stores depth 2. */
  lemma AddUrlExample()
    ensures AddUrl([], "/people", 1) == [Entry("/people", false, false, 2, None)]
  {
  }

  /** Absolute input is printed by the parser; relative input is appended to the base url. */
  lemma AbsoluteUrlExamples()
    ensures GetAbsoluteUrl(TaskOptions(), TestLib(), "http://example.com") == "http://example.com/"
    ensures GetAbsoluteUrl(TaskOptions(), TestLib(), "/person") == "http://localhost:9000/person"
  {
  }

  /** Relative and same-origin links pass; a foreign host and the base url itself do not. */
  lemma FilterPathExamples()
    ensures FilterUrl([], FilterTestOptions(), TestLib(), "/people")
    ensures FilterUrl([], FilterTestOptions(), TestLib(), "http://localhost:9000/people")
    ensures !FilterUrl([], FilterTestOptions(), TestLib(), "http://example.com")
    ensures !FilterUrl([], FilterTestOptions(), TestLib(), "http://localhost:9000")
  {
  }

  /**
   * Under fragment routing the root route is refused and other routes pass.
   * With the test's undefined prefix the fragment-root rule does not fire;
   * `#!/` is refused because its fragment path `/` is not a relative route.
   */
  lemma FilterFragmentExamples()
    ensures var opts := FilterTestOptions().(followFragment := true);
      && !FragmentRoot(opts, TestParse("#!/"))
      && !IsUrlRelative(opts, TestParse("#!/"))
      && !FilterUrl([], opts, TestLib(), "#!/")
      && FilterUrl([], opts, TestLib(), "#!/people")
      && FilterUrl([], opts, TestLib(), "#!/people/sam")
  {
  }

  /** With the task's default prefix `!`, the fragment-root rule itself refuses `#!/`. */
  lemma FragmentRootWithDefaultPrefix()
    ensures var opts := TaskOptions().(followFragment := true);
      FragmentRoot(opts, TestParse("#!/")) && !FilterUrl([], opts, TestLib(), "#!/")
  {
  }

  /** Under fragment routing a path link has no fragment route, so `/people` is refused. */
  lemma PathLinkRefusedUnderFragments()
    ensures var opts := TaskOptions().(followFragment := true);
      && !IsUrlRelative(opts, TestParse("/people"))
      && !IsUrlSameOrigin(opts, TestLib(), TestParse("/people"))
      && !FilterUrl([], opts, TestLib(), "/people")
  {
  }

  /** Excluded paths are refused; others still pass. */
  lemma FilterExcludeExamples()
    ensures var opts := FilterTestOptions().(exclude := ["/people", "/people/sam"]);
      && !FilterUrl([], opts, TestLib(), "/people")
      && !FilterUrl([], opts, TestLib(), "/people/sam")
      && FilterUrl([], opts, TestLib(), "/about")
  {
    var opts := FilterTestOptions().(exclude := ["/people", "/people/sam"]);
    assert StartsWith("/people", "/people");
    assert StartsWith("/people/sam", "/people");
    LongerNeverContained("/about", "/people");
    LongerNeverContained("/about", "/people/sam");
  }

  /** A link already crawled is refused; one merely known is accepted again. */
  lemma FilterDedupExamples()
    ensures !FilterUrl([Entry("/people", true, false, 2, None)], TaskOptions(), TestLib(), "/people")
    ensures FilterUrl([Entry("/people", false, false, 2, None)], TaskOptions(), TestLib(), "/people")
  {
  }

  /** Content file names. */
  lemma StaticFilenameExamples()
    ensures GetStaticFilename(TaskOptions(), TestLib(), "http://localhost:9000") == "/index.html"
    ensures GetStaticFilename(TaskOptions(), TestLib(), "/people/") == "/people.html"
    ensures GetStaticFilename(TaskOptions(), TestLib(), "/people/me") == "/people/me"
  {
  }

  /** Under fragment routing the file name comes from the fragment's route. */
  lemma StaticFilenameFragmentExample()
    ensures GetStaticFilename(TaskOptions().(followFragment := true), TestLib(), "#!/people/sam") == "/people/sam.html"
  {
  }

  /** The file name is built from the percent-decoded route. */
  lemma StaticFilenameDecoded()
    ensures GetStaticFilename(TaskOptions(), TestLib(), "/a%20b/") == "/a b.html"
  {
    assert "/a b/"[..4] + ".html" == "/a b.html";
  }

  /**
   * Two distinct fragment routes, with and without a trailing slash, are
   * written to the same file.
   */
  lemma FragmentSlashVariantsCollide()
    ensures var opts := TaskOptions().(followFragment := true);
      GetStaticFilename(opts, TestLib(), "#!/people/") == GetStaticFilename(opts, TestLib(), "#!/people")
  {
  }

  /**
   * A link to `/` is not the exact base url, so it passes the filter, and
   * its route `/` becomes the file name `.html`.
   */
  lemma RootLinkFilename()
    ensures FilterUrl(Seed(TaskOptions()), TaskOptions(), TestLib(), "/")
    ensures GetStaticFilename(TaskOptions(), TestLib(), "/") == ".html"
  {
  }

  // A whole run with a depth ceiling of 2, one tick or page completion per lemma.

  function RunOptions(): Options {
    TaskOptions().(sitemap := true)
  }

  const Today := "2014-06-01"
  const Home := "http://localhost:9000"

  lemma RunTick1()
    ensures FinishCrawl(RunOptions(), TestLib(), Today, Seed(RunOptions()))
         == TickResult([Entry(Home, true, false, 1, None)], CrawlStarted(Home, true))
  {
  }

  /** The seed links to a page, a foreign site and itself; only the page is admitted. */
  lemma RunPage1()
    ensures CompletePage([Entry(Home, true, false, 1, None)], RunOptions(), TestLib(), Home, 1, "<home/>",
                         Some(["/about", "http://example.com", Home]))
         == [Entry(Home, true, false, 1, Some("<home/>")), Entry("/about", false, false, 2, None)]
  {
    var opts := RunOptions();
    var g1 := RecordContent([Entry(Home, true, false, 1, None)], Home, "<home/>");
    assert g1 == [Entry(Home, true, false, 1, Some("<home/>"))];
    assert FilterUrl(g1, opts, TestLib(), "/about");
    assert !FilterUrl(g1, opts, TestLib(), "http://example.com");
    assert !FilterUrl(g1, opts, TestLib(), Home);
    var links := ["/about", "http://example.com", Home];
    assert links[1..] == ["http://example.com", Home];
    assert links[1..][1..] == [Home];
    assert links[1..][1..][1..] == [];
    assert Survivors(g1, opts, TestLib(), [Home]) == [];
    assert Survivors(g1, opts, TestLib(), ["http://example.com", Home]) == [];
    assert Survivors(g1, opts, TestLib(), links) == ["/about"] + [];
    assert AddAll(g1, ["/about"], 1) == AddUrl(g1, "/about", 1);
  }

  lemma RunTick2()
    ensures FinishCrawl(RunOptions(), TestLib(), Today,
                        [Entry(Home, true, false, 1, Some("<home/>")), Entry("/about", false, false, 2, None)])
         == TickResult([Entry(Home, true, false, 1, Some("<home/>")), Entry("/about", true, false, 2, None)],
                       CrawlStarted("/about", true))
  {
    var f := [Entry(Home, true, false, 1, Some("<home/>")), Entry("/about", false, false, 2, None)];
    assert !Available(f[0]) && Available(f[1]);
    assert FirstAvailable(f) == Some(1);
    assert GetNextUrl(f) == "/about";
    assert !DoneCrawling(f);
    assert IndexOf(f, "/about") == Some(1);
    assert Crawl(f, RunOptions().maxDepth, "/about")
        == CrawlStep(f[1 := Entry("/about", true, false, 2, None)], true);
  }

  /** The page at the ceiling links on, but nothing more is admitted. */
  lemma RunPage2()
    ensures CompletePage([Entry(Home, true, false, 1, Some("<home/>")), Entry("/about", true, false, 2, None)],
                         RunOptions(), TestLib(), "/about", 2, "<about/>", Some(["/people"]))
         == [Entry(Home, true, false, 1, Some("<home/>")), Entry("/about", true, false, 2, Some("<about/>"))]
  {
  }

  function RunFinal(): Frontier {
    [Entry(Home, true, false, 1, Some("<home/>")), Entry("/about", true, false, 2, Some("<about/>"))]
  }

  lemma RunContentFiles()
    ensures ContentFiles(RunOptions(), TestLib(), RunFinal())
         == [ContentFile("www/static/index.html", Some("<home/>")), ContentFile("www/static/about", Some("<about/>"))]
  {
    var opts := RunOptions();
    var f := RunFinal();
    assert f[1..][1..] == [];
    assert LastSegment("/about") == "about" by {
      assert "/about"[..5] == "/abou";
      assert "/abou"[..4] == "/abo";
      assert "/abo"[..3] == "/ab";
      assert "/ab"[..2] == "/a";
      assert "/a"[..1] == "/";
    }
    assert GetStaticFilename(opts, TestLib(), Home) == "/index.html";
    assert GetStaticFilename(opts, TestLib(), "/about") == "/about";
    assert opts.contentDir + "/index.html" == "www/static/index.html";
    assert opts.contentDir + "/about" == "www/static/about";
    assert ContentFiles(opts, TestLib(), f[1..]) == [ContentFile("www/static/about", Some("<about/>"))];
  }

  lemma RunSitemapUrls()
    ensures SitemapUrls(RunOptions(), TestLib(), Today, RunFinal())
         == [SitemapUrl("http://localhost:9000/", Today, "1.0", "weekly"),
             SitemapUrl("http://localhost:9000/about", Today, "0.5", "weekly")]
  {
    var opts := RunOptions();
    var f := RunFinal();
    assert f[1..][1..] == [];
    assert GetAbsoluteUrl(opts, TestLib(), "/about") == "http://localhost:9000/about";
    assert PriorityText(1) == "1.0" && PriorityText(2) == "0.5";
    assert SitemapUrls(opts, TestLib(), Today, f[1..])
        == [SitemapUrl("http://localhost:9000/about", Today, "0.5", "weekly")];
  }

  /** The third tick finds the table done and derives the outputs. */
  lemma RunTick3()
    ensures FinishCrawl(RunOptions(), TestLib(), Today, RunFinal())
         == TickResult(RunFinal(), Finished(Output(
              [ContentFile("www/static/index.html", Some("<home/>")),
               ContentFile("www/static/about", Some("<about/>"))],
              Some(SitemapFile("www/sitemap.xml", SitemapNamespace,
                [SitemapUrl("http://localhost:9000/", Today, "1.0", "weekly"),
                 SitemapUrl("http://localhost:9000/about", Today, "0.5", "weekly")])))))
  {
    assert DoneCrawling(RunFinal());
    RunContentFiles();
    RunSitemapUrls();
    assert RunOptions().sitemapDir + "/sitemap.xml" == "www/sitemap.xml";
  }

  // The sitemap as written can list one location twice.

  /** The seed's page links to `/`, which is admitted one level deeper. */
  lemma RootLinkAdmitted()
    ensures CompletePage([Entry(Home, true, false, 1, None)], RunOptions(), TestLib(), Home, 1, "<home/>", Some(["/"]))
         == [Entry(Home, true, false, 1, Some("<home/>")), Entry("/", false, false, 2, None)]
  {
    var g1 := RecordContent([Entry(Home, true, false, 1, None)], Home, "<home/>");
    assert g1 == [Entry(Home, true, false, 1, Some("<home/>"))];
    assert FilterUrl(g1, RunOptions(), TestLib(), "/");
    assert Survivors(g1, RunOptions(), TestLib(), ["/"]) == ["/"];
    assert AddAll(g1, ["/"], 1) == AddUrl(g1, "/", 1);
  }

  /** The seed and the admitted link `/` are two keys with one sitemap location. */
  lemma RootLinkDuplicatesSeedLoc()
    ensures var urls := SitemapUrls(RunOptions(), TestLib(), Today,
                                    [Entry(Home, true, false, 1, Some("<home/>")), Entry("/", false, false, 2, None)]);
      && |urls| == 2
      && urls[0].loc == "http://localhost:9000/"
      && urls[1].loc == "http://localhost:9000/"
  {
    assert Home + "/" == "http://localhost:9000/";
  }

  /** `/people` and its absolute spelling both pass the filter and print to one location. */
  lemma PeopleSpellingsShareLoc()
    ensures FilterUrl(Seed(TaskOptions()), TaskOptions(), TestLib(), "/people")
    ensures FilterUrl(Seed(TaskOptions()), TaskOptions(), TestLib(), "http://localhost:9000/people")
    ensures GetAbsoluteUrl(TaskOptions(), TestLib(), "/people") == "http://localhost:9000/people"
    ensures GetAbsoluteUrl(TaskOptions(), TestLib(), "http://localhost:9000/people") == "http://localhost:9000/people"
  {
  }
}
