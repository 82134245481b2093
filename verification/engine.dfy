/**
 * The crawl engine's effects on the url table.
 *
 * `crawl(url)` starts an asynchronous page load and then, before returning,
 * marks the url crawled. When the page later yields its content and links,
 * the content is recorded and the links are filtered and admitted one level
 * deeper. The asynchronous part is modelled as a separate transition,
 * `CompletePage`, applied to whatever table exists when it runs.
 */
module Engine {
  import opened Wrappers
  import opened Uris
  import opened Config
  import opened Frontier
  import opened Classifier

  /** The table after `crawl(url)` returns, and whether a page load was started. */
  datatype CrawlStep = CrawlStep(frontier: Frontier, dispatched: bool)

  /**
   * `crawl(url)`. The url must be a key: its record is read before any
   * check. A page load starts only for a record within the depth ceiling
   * that is not yet crawled; either way the record leaves crawled and not
   * crawling, and nothing else in the table changes.
   */
  function Crawl(f: Frontier, maxDepth: int, url: string): (s: CrawlStep)
    requires HasKey(f, url)
    ensures Lookup(s.frontier, url) == Some(Lookup(f, url).value.(crawled := true, crawling := false))
    ensures s.dispatched <==> Lookup(f, url).value.depth <= maxDepth && !Lookup(f, url).value.crawled
    ensures forall k :: k != url ==> Lookup(s.frontier, k) == Lookup(f, k)
    ensures Keys(s.frontier) == Keys(f)
    ensures UniqueKeys(f) ==> UniqueKeys(s.frontier)
  {
    var e := Lookup(f, url).value;
    var dispatched := e.depth <= maxDepth && !e.crawled;
    // The record is set `crawling` when the load starts and reset
    // before `crawl` returns, so only the final flags are visible.
    CrawlStep(Put(f, e.(crawled := true, crawling := false)), dispatched)
  }

  /** The page callback's `urls[url].content = html`. */
  function RecordContent(f: Frontier, url: string, html: string): (r: Frontier)
    requires HasKey(f, url)
    ensures Lookup(r, url) == Some(Lookup(f, url).value.(content := Some(html)))
    ensures forall k :: k != url ==> Lookup(r, k) == Lookup(f, k)
    ensures Keys(r) == Keys(f)
    ensures UniqueKeys(f) ==> UniqueKeys(r)
  {
    Put(f, Lookup(f, url).value.(content := Some(html)))
  }

  /** `xs.filter(keep)`: the strings `keep` accepts, in their order. */
  function KeepIf(xs: seq<string>, keep: string -> bool): (r: seq<string>)
    ensures forall k :: k in r <==> k in xs && keep(k)
    ensures |r| <= |xs|
  {
    if |xs| == 0 then []
    else (if keep(xs[0]) then [xs[0]] else []) + KeepIf(xs[1..], keep)
  }

  /** Of two kept strings, the one that first appears earlier in `xs` comes first. */
  lemma KeepIfKeepsOrder(xs: seq<string>, keep: string -> bool)
    ensures var r := KeepIf(xs, keep);
      forall a, b :: a in r && b in r ==> (Pos(r, a) < Pos(r, b) <==> Pos(xs, a) < Pos(xs, b))
  {
    forall a, b | a in KeepIf(xs, keep) && b in KeepIf(xs, keep)
      ensures Pos(KeepIf(xs, keep), a) < Pos(KeepIf(xs, keep), b) <==> Pos(xs, a) < Pos(xs, b)
    {
      KeepIfOrderAt(xs, keep, a, b);
    }
  }

  /** `KeepIfKeepsOrder` for one pair of kept strings. */
  lemma {:induction false} KeepIfOrderAt(xs: seq<string>, keep: string -> bool, a: string, b: string)
    requires a in KeepIf(xs, keep) && b in KeepIf(xs, keep)
    ensures a in xs && b in xs
    ensures Pos(KeepIf(xs, keep), a) < Pos(KeepIf(xs, keep), b) <==> Pos(xs, a) < Pos(xs, b)
    decreases |xs|
  {
    var x := xs[0];
    var r := KeepIf(xs, keep);
    var rest := KeepIf(xs[1..], keep);
    if keep(x) {
      assert r == [x] + rest && r[1..] == rest;
      if a != x {
        PosTail(r, a);
        PosTail(xs, a);
      }
      if b != x {
        PosTail(r, b);
        PosTail(xs, b);
      }
      if a != x && b != x {
        KeepIfOrderAt(xs[1..], keep, a, b);
      }
    } else {
      assert r == rest;
      KeepIfOrderAt(xs[1..], keep, a, b);
      PosTail(xs, a);
      PosTail(xs, b);
    }
  }

  /** Filters that agree on every string of `xs` keep the same strings. */
  lemma {:induction false} KeepIfCongruence(xs: seq<string>, p: string -> bool, q: string -> bool)
    requires forall k :: k in xs ==> p(k) == q(k)
    ensures KeepIf(xs, p) == KeepIf(xs, q)
    decreases |xs|
  {
    if |xs| > 0 {
      KeepIfCongruence(xs[1..], p, q);
    }
  }

  /**
   * `links.filter(filterUrl)`: every decision is taken against the same
   * table `f`, and the survivors keep the order of the links.
   */
  function Survivors(f: Frontier, opts: Options, lib: UriLib, links: seq<string>): (r: seq<string>)
    ensures forall k :: k in r <==> k in links && FilterUrl(f, opts, lib, k)
    ensures |r| <= |links|
  {
    KeepIf(links, k => FilterUrl(f, opts, lib, k))
  }

  /** Two survivors appear in the order they first appear among the links. */
  lemma SurvivorsKeepOrder(f: Frontier, opts: Options, lib: UriLib, links: seq<string>)
    ensures var r := Survivors(f, opts, lib, links);
      forall a, b :: a in r && b in r ==> (Pos(r, a) < Pos(r, b) <==> Pos(links, a) < Pos(links, b))
  {
    KeepIfKeepsOrder(links, k => FilterUrl(f, opts, lib, k));
  }

  /** `forEach(addUrl(curr, depth))` over `xs`, in order. */
  function AddAll(f: Frontier, xs: seq<string>, depth: int): (r: Frontier)
    ensures forall k :: k in xs ==> Lookup(r, k) == Some(Entry(k, false, false, depth + 1, None))
    ensures forall k :: k !in xs ==> Lookup(r, k) == Lookup(f, k)
    ensures |Keys(f)| <= |Keys(r)| && Keys(r)[..|f|] == Keys(f)
    ensures Keys(r) == Keys(f) + Fresh(Keys(f), xs)
    ensures UniqueKeys(f) ==> UniqueKeys(r)
    decreases |xs|
  {
    if |xs| == 0 then f
    else
      var g := AddUrl(f, xs[0], depth);
      HasKeyInKeys(f, xs[0]);
      assert Keys(g)[..|f|] == Keys(f);
      assert Keys(f) + Fresh(Keys(f), xs) == Keys(g) + Fresh(Keys(g), xs[1..]);
      AddAll(g, xs[1..], depth)
  }

  /**
   * Link admission from a page whose record had depth `currDepth` when its
   * crawl began: the links that pass the filter against the table as it
   * stands are added at `currDepth + 1`, provided `currDepth` is below the
   * ceiling. The ceiling test does not depend on the link, so it is taken
   * once here rather than per link.
   */
  function AdmitLinks(f: Frontier, opts: Options, lib: UriLib, currDepth: int, links: seq<string>): (r: Frontier)
    ensures currDepth >= opts.maxDepth ==> r == f
    ensures currDepth < opts.maxDepth ==> forall k :: k in links && FilterUrl(f, opts, lib, k) ==>
      Lookup(r, k) == Some(Entry(k, false, false, currDepth + 1, None))
    ensures forall k :: !(k in links && FilterUrl(f, opts, lib, k)) ==> Lookup(r, k) == Lookup(f, k)
    ensures forall k :: KnownCrawled(f, k) ==> Lookup(r, k) == Lookup(f, k)
    ensures Lookup(r, opts.baseUrl) == Lookup(f, opts.baseUrl)
    ensures |Keys(f)| <= |Keys(r)| && Keys(r)[..|f|] == Keys(f)
    ensures currDepth < opts.maxDepth ==> Keys(r) == Keys(f) + Fresh(Keys(f), Survivors(f, opts, lib, links))
    ensures UniqueKeys(f) ==> UniqueKeys(r)
  {
    var accepted := Survivors(f, opts, lib, links);
    if currDepth < opts.maxDepth then AddAll(f, accepted, currDepth) else f
  }

  /**
   * The keys a page's links add after the existing ones (see `AdmitLinks`),
   * taken against the table `f`: the accepted links that are not yet keys,
   * each once, in the order they first appear among the links.
   */
  lemma NewKeysInLinkOrder(f: Frontier, opts: Options, lib: UriLib, links: seq<string>)
    ensures var n := Fresh(Keys(f), Survivors(f, opts, lib, links));
      && (forall k :: k in n <==> k in links && FilterUrl(f, opts, lib, k) && !HasKey(f, k))
      && (forall i, j :: 0 <= i < j < |n| ==> n[i] in links && n[j] in links && Pos(links, n[i]) < Pos(links, n[j]))
  {
    var s := Survivors(f, opts, lib, links);
    var n := Fresh(Keys(f), s);
    FreshSpec(Keys(f), s);
    SurvivorsKeepOrder(f, opts, lib, links);
    forall k
      ensures HasKey(f, k) <==> k in Keys(f)
    {
      HasKeyInKeys(f, k);
    }
    forall i, j | 0 <= i < j < |n|
      ensures Pos(links, n[i]) < Pos(links, n[j])
    {
      assert n[i] in s && n[j] in s;
      assert Pos(s, n[i]) < Pos(s, n[j]);
    }
  }

  /** The filter reads the table only through which keys are crawled. */
  lemma FilterFollowsCrawled(f: Frontier, g: Frontier, opts: Options, lib: UriLib, links: seq<string>)
    requires forall k :: KnownCrawled(f, k) <==> KnownCrawled(g, k)
    ensures forall k :: FilterUrl(f, opts, lib, k) == FilterUrl(g, opts, lib, k)
    ensures Survivors(f, opts, lib, links) == Survivors(g, opts, lib, links)
  {
    KeepIfCongruence(links, k => FilterUrl(f, opts, lib, k), k => FilterUrl(g, opts, lib, k));
  }

  /**
   * The asynchronous completion of a crawl: the captured html is stored and,
   * when the link extraction produced a list, the links are admitted. A
   * failed extraction (`None`) admits nothing. Once the page's own record is
   * crawled, as `Crawl` leaves it, the filter keeps it from being reset, so
   * the html stays recorded.
   */
  function CompletePage(f: Frontier, opts: Options, lib: UriLib, url: string, currDepth: int,
                        html: string, links: Option<seq<string>>): (r: Frontier)
    requires HasKey(f, url)
    requires currDepth == Lookup(f, url).value.depth
    ensures Lookup(f, url).value.crawled ==>
      Lookup(r, url) == Some(Lookup(f, url).value.(content := Some(html)))
    ensures !Admits(f, opts, lib, currDepth, links, url) ==>
      Lookup(r, url) == Some(Lookup(f, url).value.(content := Some(html)))
    ensures forall k :: k != url ==>
      Lookup(r, k) == if Admits(f, opts, lib, currDepth, links, k)
                      then Some(Entry(k, false, false, currDepth + 1, None))
                      else Lookup(f, k)
    ensures |Keys(f)| <= |Keys(r)| && Keys(r)[..|f|] == Keys(f)
    ensures links.Some? && currDepth < opts.maxDepth ==>
      Keys(r) == Keys(f) + Fresh(Keys(f), Survivors(f, opts, lib, links.value))
    ensures links.None? || currDepth >= opts.maxDepth ==> Keys(r) == Keys(f)
    ensures UniqueKeys(f) ==> UniqueKeys(r)
  {
    var g := RecordContent(f, url, html);
    assert forall k :: KnownCrawled(g, k) <==> KnownCrawled(f, k);
    match links
    case None => g
    case Some(ls) =>
      AdmitAfterRecord(f, opts, lib, url, currDepth, html, ls);
      AdmitLinks(g, opts, lib, currDepth, ls)
  }

  /** Admitting links after recording content, stated against the table before both. */
  lemma AdmitAfterRecord(f: Frontier, opts: Options, lib: UriLib, url: string, currDepth: int,
                         html: string, ls: seq<string>)
    requires HasKey(f, url)
    ensures var r := AdmitLinks(RecordContent(f, url, html), opts, lib, currDepth, ls);
      && (forall k :: k != url ==>
            Lookup(r, k) == if currDepth < opts.maxDepth && k in ls && FilterUrl(f, opts, lib, k)
                            then Some(Entry(k, false, false, currDepth + 1, None))
                            else Lookup(f, k))
      && (!(currDepth < opts.maxDepth && url in ls && FilterUrl(f, opts, lib, url)) ==>
            Lookup(r, url) == Some(Lookup(f, url).value.(content := Some(html))))
      && (currDepth < opts.maxDepth ==> Keys(r) == Keys(f) + Fresh(Keys(f), Survivors(f, opts, lib, ls)))
  {
    var g := RecordContent(f, url, html);
    var r := AdmitLinks(g, opts, lib, currDepth, ls);
    assert forall k :: KnownCrawled(g, k) <==> KnownCrawled(f, k);
    FilterFollowsCrawled(f, g, opts, lib, ls);
    forall k | k != url
      ensures Lookup(r, k) == if currDepth < opts.maxDepth && k in ls && FilterUrl(f, opts, lib, k)
                              then Some(Entry(k, false, false, currDepth + 1, None))
                              else Lookup(f, k)
    {
      assert Lookup(g, k) == Lookup(f, k);
    }
  }

  /**
   * The page completion stores `k` afresh: the link extraction produced a
   * list, the page is below the ceiling, and `k` is on it and passes the
   * filter.
   */
  predicate Admits(f: Frontier, opts: Options, lib: UriLib, currDepth: int, links: Option<seq<string>>, k: string) {
    links.Some? && currDepth < opts.maxDepth && k in links.value && FilterUrl(f, opts, lib, k)
  }

  /** The flags `crawl` must keep consistent. */
  predicate NeverBoth(f: Frontier) {
    forall i :: 0 <= i < |f| ==> !(f[i].crawled && f[i].crawling)
  }

  /** `crawl` never leaves a record both crawled and crawling. */
  lemma CrawlKeepsNeverBoth(f: Frontier, maxDepth: int, url: string)
    requires UniqueKeys(f) && NeverBoth(f) && HasKey(f, url)
    ensures NeverBoth(Crawl(f, maxDepth, url).frontier)
  {
    var r := Crawl(f, maxDepth, url).frontier;
    forall i | 0 <= i < |r|
      ensures !(r[i].crawled && r[i].crawling)
    {
      var k := r[i].url;
      assert Lookup(r, k) == Some(r[i]);
      if k != url {
        var j :| 0 <= j < |f| && f[j].url == k;
        assert Lookup(f, k) == Some(f[j]);
      }
    }
  }

  /** A record is well formed between callbacks: idle, with a depth in `[1, bound]`. */
  predicate EntryOk(e: Entry, bound: int) {
    !e.crawling && 1 <= e.depth <= bound
  }

  /**
   * The invariant of the sequential model: unique keys and well formed
   * records. Records are never mid-crawl here, so in particular never
   * both crawled and crawling.
   */
  predicate Inv(f: Frontier, bound: int) {
    UniqueKeys(f) && forall i :: 0 <= i < |f| ==> EntryOk(f[i], bound)
  }

  lemma InvNeverBoth(f: Frontier, bound: int)
    requires Inv(f, bound)
    ensures NeverBoth(f)
  {
  }

  /** Every record found by key in a table that satisfies the invariant is well formed. */
  lemma LookupOk(f: Frontier, bound: int, k: string)
    requires Inv(f, bound) && HasKey(f, k)
    ensures EntryOk(Lookup(f, k).value, bound)
  {
  }

  /** The invariant, checked key by key. */
  lemma InvByKeys(f: Frontier, bound: int)
    requires UniqueKeys(f)
    requires forall k :: HasKey(f, k) ==> EntryOk(Lookup(f, k).value, bound)
    ensures Inv(f, bound)
  {
    forall i | 0 <= i < |f|
      ensures EntryOk(f[i], bound)
    {
      assert HasKey(f, f[i].url);
    }
  }

  /** `crawl` preserves the invariant. */
  lemma CrawlKeepsInv(f: Frontier, opts: Options, url: string)
    requires Inv(f, DepthBound(opts)) && HasKey(f, url)
    ensures Inv(Crawl(f, opts.maxDepth, url).frontier, DepthBound(opts))
  {
    var r := Crawl(f, opts.maxDepth, url).frontier;
    forall k | HasKey(r, k)
      ensures EntryOk(Lookup(r, k).value, DepthBound(opts))
    {
      LookupOk(f, DepthBound(opts), k);
    }
    InvByKeys(r, DepthBound(opts));
  }

  /**
   * Completing a page preserves the invariant: admitted links are stored at
   * `currDepth + 1`, which the ceiling keeps within the bound.
   */
  lemma CompletePageKeepsInv(f: Frontier, opts: Options, lib: UriLib, url: string, currDepth: int,
                             html: string, links: Option<seq<string>>)
    requires Inv(f, DepthBound(opts)) && HasKey(f, url)
    requires currDepth == Lookup(f, url).value.depth
    ensures Inv(CompletePage(f, opts, lib, url, currDepth, html, links), DepthBound(opts))
  {
    var b := DepthBound(opts);
    LookupOk(f, b, url);
    var g := RecordContent(f, url, html);
    var r := CompletePage(f, opts, lib, url, currDepth, html, links);
    forall k | HasKey(g, k)
      ensures EntryOk(Lookup(g, k).value, b)
    {
      LookupOk(f, b, k);
    }
    InvByKeys(g, b);
    match links
    case None =>
    case Some(ls) =>
      forall k | HasKey(r, k)
        ensures EntryOk(Lookup(r, k).value, b)
      {
        if !(k in ls && FilterUrl(g, opts, lib, k)) {
          LookupOk(g, b, k);
        }
      }
      InvByKeys(r, b);
  }
}
