/**
 * The link filter: decides whether a discovered href may enter the url
 * table. Rules are tried in order and the first that applies decides; a
 * final pass over the exclude patterns can only turn an acceptance into a
 * rejection.
 */
module Classifier {
  import opened Uris
  import opened Config
  import opened Frontier

  /** The exact key is in the table and already crawled. */
  predicate KnownCrawled(f: Frontier, url: string) {
    Lookup(f, url).Some? && Lookup(f, url).value.crawled
  }

  /** Under fragment routing, the fragment names the root route `prefix + "/"`. */
  predicate FragmentRoot(opts: Options, u: Uri) {
    opts.followFragment && u.fragment == opts.fragmentPrefix + "/"
  }

  /**
   * `isUrlRelative`: a relative reference whose route is non-empty. Under
   * path routing the route is the path; under fragment routing it is the
   * fragment's path, which must also differ from the root `/`.
   */
  predicate IsUrlRelative(opts: Options, u: Uri): (r: bool)
    ensures r ==> !u.absolute
    ensures !opts.followFragment ==> (r <==> !u.absolute && |u.path| > 0)
    ensures opts.followFragment ==> (r <==> !u.absolute && |u.fragmentPath| > 0 && u.fragmentPath != "/")
  {
    !u.absolute &&
    if opts.followFragment then |u.fragmentPath| > 0 && u.fragmentPath != "/"
    else |u.path| > 0
  }

  /** `isUrlSameOrigin`: normalised protocol and host agree with the base url's. */
  predicate IsUrlSameOrigin(opts: Options, lib: UriLib, u: Uri): (r: bool)
    ensures var base := lib.parse(opts.baseUrl);
      r <==> Lower(base.protocol) == Lower(u.protocol) && Lower(base.host) == Lower(u.host)
  {
    SameOrigin(lib.parse(opts.baseUrl), u)
  }

  /** The rule chain of `filterUrl`, before the exclude patterns are applied. */
  function Admissible(f: Frontier, opts: Options, lib: UriLib, url: string): (r: bool)
    ensures KnownCrawled(f, url) ==> !r
    ensures url == opts.baseUrl ==> !r
    ensures FragmentRoot(opts, lib.parse(url)) ==> !r
    ensures !KnownCrawled(f, url) && url != opts.baseUrl && !FragmentRoot(opts, lib.parse(url)) ==>
      (r <==> IsUrlRelative(opts, lib.parse(url)) || IsUrlSameOrigin(opts, lib, lib.parse(url)))
  {
    var uri := lib.parse(url);
    if Lookup(f, url).Some? && Lookup(f, url).value.crawled then false
    else if opts.baseUrl == url then false
    else if opts.followFragment && opts.fragmentPrefix + "/" == uri.fragment then false
    else if IsUrlRelative(opts, uri) || IsUrlSameOrigin(opts, lib, uri) then true
    else false
  }

  /**
   * The exclusion `reduce`: starting from `prev`, any pattern that matches
   * `path` forces the result to false.
   */
  function ExcludeReduce(prev: bool, patterns: seq<string>, path: string, lib: UriLib): (r: bool)
    ensures r <==> prev && forall i :: 0 <= i < |patterns| ==> !lib.matches(patterns[i], path)
    decreases |patterns|
  {
    if |patterns| == 0 then prev
    else ExcludeReduce(if lib.matches(patterns[0], path) then false else prev, patterns[1..], path, lib)
  }

  /** `filterUrl(url)` against the table `f`. */
  function FilterUrl(f: Frontier, opts: Options, lib: UriLib, url: string): (r: bool)
    ensures r ==> Admissible(f, opts, lib, url)
    ensures |opts.exclude| == 0 ==> r == Admissible(f, opts, lib, url)
    ensures Admissible(f, opts, lib, url) ==>
      (r <==> forall i :: 0 <= i < |opts.exclude| ==> !lib.matches(opts.exclude[i], lib.parse(url).path))
  {
    var ret := Admissible(f, opts, lib, url);
    if ret && |opts.exclude| > 0 then ExcludeReduce(true, opts.exclude, lib.parse(url).path, lib)
    else ret
  }

  /** Whatever passes the filter is new or uncrawled, not the base url, and local. */
  lemma FilterUrlSound(f: Frontier, opts: Options, lib: UriLib, url: string)
    requires FilterUrl(f, opts, lib, url)
    ensures !KnownCrawled(f, url)
    ensures url != opts.baseUrl
    ensures !FragmentRoot(opts, lib.parse(url))
    ensures IsUrlRelative(opts, lib.parse(url)) || IsUrlSameOrigin(opts, lib, lib.parse(url))
    ensures forall i :: 0 <= i < |opts.exclude| ==> !lib.matches(opts.exclude[i], lib.parse(url).path)
  {
  }
}
