/**
 * The URI parser the crawler relies on, kept abstract.
 *
 * The crawler only reads a handful of fields from a parsed URI; this module
 * names them and leaves their computation to the parser, which is supplied
 * as a parameter. The one piece of the parser's behaviour the crawler
 * depends on explicitly, the normalisation of protocol and host before the
 * same-origin comparison, is modelled here as ASCII lower-casing.
 */
module Uris {

  /** The fields of a parsed URI reference that the crawler consults. */
  datatype Uri = Uri(
    absolute: bool,       // the parser's `is('absolute')`; relative is its negation
    protocol: string,     // scheme, as written
    host: string,         // host name with optional port, as written
    path: string,         // path component as written (`path()` / `pathname()`)
    decodedPath: string,  // the same path percent-decoded (`pathname(true)`)
    filename: string,     // last path segment after the final '/'
    fragment: string,     // fragment without the leading '#'
    fragmentPath: string, // path of the fragment read as a URI of its own, as written
    decodedFragmentPath: string, // the same fragment path percent-decoded
    text: string)         // the parser's `toString()` of the reference

  /**
   * The foreign services: a URI parser and a case-insensitive regular
   * expression test `matches(pattern, subject)`.
   */
  datatype UriLib = UriLib(parse: string -> Uri, matches: (string, string) -> bool)

  function LowerChar(c: char): char {
    if 'A' <= c <= 'Z' then (c as int + 32) as char else c
  }

  /** ASCII lower-casing, the normalisation applied to protocol and host. */
  function Lower(s: string): (r: string)
    ensures |r| == |s|
    ensures forall i :: 0 <= i < |s| ==> r[i] == LowerChar(s[i])
  {
    seq(|s|, i requires 0 <= i < |s| => LowerChar(s[i]))
  }

  /** Normalising twice is normalising once. */
  lemma LowerIdempotent(s: string)
    ensures Lower(Lower(s)) == Lower(s)
  {
  }

  /**
   * Two references share an origin when their normalised protocols and
   * normalised hosts agree; paths, queries and fragments play no part.
   */
  predicate SameOrigin(a: Uri, b: Uri): (r: bool)
    ensures a.protocol == b.protocol && a.host == b.host ==> r
    ensures r ==> |a.protocol| == |b.protocol| && |a.host| == |b.host|
  {
    Lower(a.protocol) == Lower(b.protocol) && Lower(a.host) == Lower(b.host)
  }

  /** Sharing an origin is an equivalence between references. */
  lemma SameOriginEquivalence(a: Uri, b: Uri, c: Uri)
    ensures SameOrigin(a, a)
    ensures SameOrigin(a, b) ==> SameOrigin(b, a)
    ensures SameOrigin(a, b) && SameOrigin(b, c) ==> SameOrigin(a, c)
  {
  }

  /** Only case separates references the comparison treats as one origin. */
  lemma SameOriginIgnoresCase(a: Uri, b: Uri)
    ensures SameOrigin(a, b) <==> SameOrigin(a, b.(protocol := Lower(b.protocol), host := Lower(b.host)))
  {
    LowerIdempotent(b.protocol);
    LowerIdempotent(b.host);
  }
}
