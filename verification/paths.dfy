/**
 * The path mapper: the absolute url a key is fetched from, and the file
 * name its captured content is written to.
 */
module Paths {
  import opened Uris
  import opened Config

  predicate EndsWithSlash(s: string) {
    |s| > 0 && s[|s| - 1] == '/'
  }

  predicate EndsWithHtml(s: string) {
    |s| >= 5 && s[|s| - 5..] == ".html"
  }

  /**
   * `getAbsoluteUrl(url)`: an absolute reference is returned as the parser
   * prints it; anything else is glued verbatim onto the base url.
   */
  function GetAbsoluteUrl(opts: Options, lib: UriLib, url: string): (r: string)
    ensures lib.parse(url).absolute ==> r == lib.parse(url).text
    ensures !lib.parse(url).absolute ==> |r| == |opts.baseUrl| + |url|
    ensures !lib.parse(url).absolute ==> r[..|opts.baseUrl|] == opts.baseUrl && r[|opts.baseUrl|..] == url
  {
    if lib.parse(url).absolute then lib.parse(url).text
    else opts.baseUrl + url
  }

  /**
   * Relative keys keep their identity in the absolute url: two distinct
   * relative keys never share one.
   */
  lemma AbsoluteUrlInjectiveOnRelative(opts: Options, lib: UriLib, a: string, b: string)
    requires !lib.parse(a).absolute && !lib.parse(b).absolute
    requires GetAbsoluteUrl(opts, lib, a) == GetAbsoluteUrl(opts, lib, b)
    ensures a == b
  {
    var n := |opts.baseUrl|;
    assert a == GetAbsoluteUrl(opts, lib, a)[n..];
    assert b == GetAbsoluteUrl(opts, lib, b)[n..];
  }

  /**
   * `name.replace(/\/?$/, '.html')`: one optional trailing slash is replaced
   * by `.html`. Stripping `.html` and putting back the slash it consumed
   * gives the name back.
   */
  function HtmlSuffix(name: string): (r: string)
    ensures EndsWithHtml(r)
    ensures r[..|r| - 5] + (if EndsWithSlash(name) then "/" else "") == name
  {
    if EndsWithSlash(name) then name[..|name| - 1] + ".html" else name + ".html"
  }

  /** Names without a trailing slash are told apart by their html file names. */
  lemma HtmlSuffixInjective(a: string, b: string)
    requires !EndsWithSlash(a) && !EndsWithSlash(b)
    requires HtmlSuffix(a) == HtmlSuffix(b)
    ensures a == b
  {
    var r := HtmlSuffix(a);
    assert a == r[..|r| - 5] + "";
    assert b == r[..|r| - 5] + "";
  }

  /** A name and the same name with a trailing slash share one file name. */
  lemma HtmlSuffixIgnoresTrailingSlash(name: string)
    requires !EndsWithSlash(name)
    ensures HtmlSuffix(name + "/") == HtmlSuffix(name)
  {
    assert (name + "/")[..|name|] == name;
  }

  /**
   * The part of a url that names a page under the active routing mode, as
   * the file name reads it: percent-decoded (`pathname(true)`).
   */
  function Route(opts: Options, u: Uri): string {
    if opts.followFragment then u.decodedFragmentPath else u.decodedPath
  }

  /**
   * `getStaticFilename(url)`. The route is taken from the decoded path, or
   * from the decoded fragment path under fragment routing; it is rewritten only when the url's
   * own filename (never the fragment's) is empty: the exact base url becomes
   * `/index.html`, anything else gets the `.html` suffix.
   */
  function GetStaticFilename(opts: Options, lib: UriLib, url: string): (r: string)
    ensures |lib.parse(url).filename| > 0 ==> r == Route(opts, lib.parse(url))
    ensures |lib.parse(url).filename| == 0 ==> EndsWithHtml(r)
    ensures |lib.parse(url).filename| == 0 && url == opts.baseUrl ==> r == "/index.html"
    ensures |lib.parse(url).filename| == 0 && url != opts.baseUrl ==>
      var route := Route(opts, lib.parse(url));
      r[..|r| - 5] + (if EndsWithSlash(route) then "/" else "") == route
  {
    var uri := lib.parse(url);
    var name := Route(opts, uri);
    if |uri.filename| == 0 then
      (if opts.baseUrl == url then "/index.html" else HtmlSuffix(name))
    else name
  }
}
