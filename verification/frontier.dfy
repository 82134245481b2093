/**
 * The crawler's url table: a map from url string to crawl record. It is
 * modelled as a sequence of records whose `url` fields are the keys, iterated
 * in insertion order; writing to an existing key replaces the record in
 * place, writing to a new key appends it. Keys are compared as exact
 * strings. A JavaScript object visits array-index keys such as "2" before
 * all others, in numeric order; the model treats them like any other key.
 */
module Frontier {
  import opened Wrappers

  /** One crawl record; `url` is the key it is stored under. */
  datatype Entry = Entry(url: string, crawled: bool, crawling: bool, depth: int, content: Option<string>)

  type Frontier = seq<Entry>

  predicate UniqueKeys(f: Frontier) {
    forall i, j :: 0 <= i < j < |f| ==> f[i].url != f[j].url
  }

  /** The keys in iteration order. */
  function Keys(f: Frontier): seq<string> {
    seq(|f|, i requires 0 <= i < |f| => f[i].url)
  }

  /** The position of the first occurrence of `k` in `xs`. */
  function Pos(xs: seq<string>, k: string): (n: nat)
    requires k in xs
    ensures n < |xs| && xs[n] == k && k !in xs[..n]
  {
    if xs[0] == k then 0
    else
      var m := Pos(xs[1..], k);
      assert xs[..m + 1] == [xs[0]] + xs[1..][..m];
      m + 1
  }

  /**
   * The keys that writing each string of `xs` in turn adds to a table whose
   * keys are `known`: every string of `xs` that is not yet a key, once, in
   * the order of its first occurrence in `xs`.
   */
  function Fresh(known: seq<string>, xs: seq<string>): seq<string>
    decreases |xs|
  {
    if |xs| == 0 then []
    else if xs[0] in known then Fresh(known, xs[1..])
    else [xs[0]] + Fresh(known + [xs[0]], xs[1..])
  }

  /** The fresh keys are the strings of `xs` that are not yet keys. */
  lemma {:induction false} FreshMembers(known: seq<string>, xs: seq<string>)
    ensures forall k :: k in Fresh(known, xs) <==> k in xs && k !in known
    decreases |xs|
  {
    if |xs| > 0 {
      FreshMembers(known, xs[1..]);
      FreshMembers(known + [xs[0]], xs[1..]);
    }
  }

  /** No fresh key is listed twice. */
  lemma {:induction false} FreshDistinct(known: seq<string>, xs: seq<string>)
    ensures forall i, j :: 0 <= i < j < |Fresh(known, xs)| ==> Fresh(known, xs)[i] != Fresh(known, xs)[j]
    decreases |xs|
  {
    if |xs| > 0 {
      var known' := if xs[0] in known then known else known + [xs[0]];
      var rest := Fresh(known', xs[1..]);
      FreshDistinct(known', xs[1..]);
      FreshMembers(known', xs[1..]);
      var r := Fresh(known, xs);
      if xs[0] in known {
        assert r == rest;
      } else {
        assert r == [xs[0]] + rest;
        assert xs[0] in known';
        forall i, j | 0 <= i < j < |r|
          ensures r[i] != r[j]
        {
          assert r[j] == rest[j - 1] && rest[j - 1] in rest;
          if i > 0 {
            assert r[i] == rest[i - 1] && rest[i - 1] != rest[j - 1];
          }
        }
      }
    }
  }

  /** Past a different head, first positions shift by one. */
  lemma PosTail(xs: seq<string>, k: string)
    requires |xs| > 0 && k in xs[1..] && k != xs[0]
    ensures k in xs && Pos(xs, k) == Pos(xs[1..], k) + 1
  {
  }

  /** Two fresh keys follow the order of their first occurrences in `xs`. */
  lemma {:induction false} FreshOrderAt(known: seq<string>, xs: seq<string>, i: int, j: int)
    requires 0 <= i < j < |Fresh(known, xs)|
    ensures Fresh(known, xs)[i] in xs && Fresh(known, xs)[j] in xs
    ensures Pos(xs, Fresh(known, xs)[i]) < Pos(xs, Fresh(known, xs)[j])
    decreases |xs|, 2
  {
    if xs[0] in known {
      FreshOrderSkip(known, xs, i, j);
    } else {
      FreshOrderTake(known, xs, i, j);
    }
  }

  /** The order step past a head that is already a key. */
  lemma {:induction false} FreshOrderSkip(known: seq<string>, xs: seq<string>, i: int, j: int)
    requires |xs| > 0 && xs[0] in known
    requires 0 <= i < j < |Fresh(known, xs)|
    ensures Fresh(known, xs)[i] in xs && Fresh(known, xs)[j] in xs
    ensures Pos(xs, Fresh(known, xs)[i]) < Pos(xs, Fresh(known, xs)[j])
    decreases |xs|, 0
  {
    var r := Fresh(known, xs);
    var rest := Fresh(known, xs[1..]);
    assert r == rest;
    FreshMembers(known, xs[1..]);
    assert rest[i] in rest && rest[j] in rest;
    FreshOrderAt(known, xs[1..], i, j);
    PosTail(xs, r[i]);
    PosTail(xs, r[j]);
  }

  /** Past a new head, a later fresh key is a fresh key of the tail, other than the head. */
  lemma FreshTakeAt(known: seq<string>, xs: seq<string>, i: int)
    requires |xs| > 0 && xs[0] !in known
    requires 0 < i < |Fresh(known, xs)|
    ensures i - 1 < |Fresh(known + [xs[0]], xs[1..])|
    ensures Fresh(known, xs)[i] == Fresh(known + [xs[0]], xs[1..])[i - 1]
    ensures Fresh(known, xs)[i] in xs[1..] && Fresh(known, xs)[i] != xs[0]
  {
    var rest := Fresh(known + [xs[0]], xs[1..]);
    assert Fresh(known, xs) == [xs[0]] + rest;
    FreshMembers(known + [xs[0]], xs[1..]);
    assert rest[i - 1] in rest;
    assert xs[0] in known + [xs[0]];
  }

  /** The order step past a head that becomes the first fresh key. */
  lemma {:induction false} FreshOrderTake(known: seq<string>, xs: seq<string>, i: int, j: int)
    requires |xs| > 0 && xs[0] !in known
    requires 0 <= i < j < |Fresh(known, xs)|
    ensures Fresh(known, xs)[i] in xs && Fresh(known, xs)[j] in xs
    ensures Pos(xs, Fresh(known, xs)[i]) < Pos(xs, Fresh(known, xs)[j])
    decreases |xs|, 1
  {
    var r := Fresh(known, xs);
    FreshTakeAt(known, xs, j);
    PosTail(xs, r[j]);
    if i == 0 {
      assert r[0] == xs[0];
    } else {
      FreshTakeAt(known, xs, i);
      FreshOrderAt(known + [xs[0]], xs[1..], i - 1, j - 1);
      PosTail(xs, r[i]);
    }
  }

  /** The fresh keys are the new strings of `xs`, each once, by first occurrence. */
  lemma FreshSpec(known: seq<string>, xs: seq<string>)
    ensures var r := Fresh(known, xs);
      && (forall k :: k in r <==> k in xs && k !in known)
      && (forall i, j :: 0 <= i < j < |r| ==> r[i] != r[j])
      && (forall i, j :: 0 <= i < j < |r| ==> Pos(xs, r[i]) < Pos(xs, r[j]))
  {
    var r := Fresh(known, xs);
    FreshMembers(known, xs);
    FreshDistinct(known, xs);
    forall i, j | 0 <= i < j < |r|
      ensures Pos(xs, r[i]) < Pos(xs, r[j])
    {
      FreshOrderAt(known, xs, i, j);
    }
  }

  /** The position of `url`: the first record stored under it. */
  function IndexOf(f: Frontier, url: string): (r: Option<nat>)
    ensures r.Some? ==> r.value < |f| && f[r.value].url == url
    ensures r.Some? ==> forall j :: 0 <= j < r.value ==> f[j].url != url
    ensures r.None? ==> forall j :: 0 <= j < |f| ==> f[j].url != url
  {
    if |f| == 0 then None
    else if f[0].url == url then Some(0)
    else match IndexOf(f[1..], url)
      case None => None
      case Some(i) => Some(i + 1)
  }

  /** `url` is a key of the table. */
  predicate HasKey(f: Frontier, url: string) {
    IndexOf(f, url).Some?
  }

  /** `k` is a key exactly when it occurs among the keys. */
  lemma HasKeyInKeys(f: Frontier, k: string)
    ensures HasKey(f, k) <==> k in Keys(f)
  {
    if k in Keys(f) {
      var i :| 0 <= i < |Keys(f)| && Keys(f)[i] == k;
      assert f[i].url == k;
    }
    if HasKey(f, k) {
      assert Keys(f)[IndexOf(f, k).value] == k;
    }
  }

  /** The map read `urls[url]`; `None` plays the part of `undefined`. */
  function Lookup(f: Frontier, url: string): (r: Option<Entry>)
    ensures r.Some? <==> HasKey(f, url)
    ensures r.Some? ==> r.value.url == url
    ensures UniqueKeys(f) ==> forall i :: 0 <= i < |f| && f[i].url == url ==> r == Some(f[i])
  {
    match IndexOf(f, url)
    case Some(i) => Some(f[i])
    case None => None
  }

  /** Positions depend only on the keys, not on the rest of the records. */
  lemma IndexOfFollowsKeys(f: Frontier, g: Frontier, url: string)
    requires Keys(f) == Keys(g)
    ensures IndexOf(f, url) == IndexOf(g, url)
  {
    assert |f| == |Keys(f)| == |Keys(g)| == |g|;
    forall i | 0 <= i < |f|
      ensures f[i].url == g[i].url
    {
      assert Keys(f)[i] == f[i].url && Keys(g)[i] == g[i].url;
    }
  }

  /** Appending a record leaves the positions of the keys already present alone. */
  lemma IndexOfAppend(f: Frontier, e: Entry, url: string)
    requires url != e.url || !HasKey(f, url)
    ensures IndexOf(f + [e], url) == (if url == e.url then Some(|f|) else IndexOf(f, url))
  {
    var g := f + [e];
    assert forall j :: 0 <= j < |f| ==> g[j] == f[j];
    match IndexOf(f, url)
    case Some(i) =>
    case None =>
      assert g[|f|] == e;
      if url != e.url {
        assert forall j :: 0 <= j < |g| ==> g[j].url != url;
      }
  }

  /**
   * The map write `urls[e.url] = e`: overwrite in place when the key is
   * present, append otherwise.
   */
  function Put(f: Frontier, e: Entry): (r: Frontier)
    ensures Lookup(r, e.url) == Some(e)
    ensures forall k :: k != e.url ==> Lookup(r, k) == Lookup(f, k)
    ensures HasKey(f, e.url) ==> Keys(r) == Keys(f)
    ensures !HasKey(f, e.url) ==> Keys(r) == Keys(f) + [e.url]
    ensures UniqueKeys(f) ==> UniqueKeys(r)
  {
    PutLookup(f, e);
    match IndexOf(f, e.url)
    case Some(i) => f[i := e]
    case None => f + [e]
  }

  lemma PutLookup(f: Frontier, e: Entry)
    ensures IndexOf(f, e.url).Some? ==>
      var r := f[IndexOf(f, e.url).value := e];
      && Keys(r) == Keys(f)
      && Lookup(r, e.url) == Some(e)
      && forall k :: k != e.url ==> Lookup(r, k) == Lookup(f, k)
    ensures IndexOf(f, e.url).None? ==>
      var r := f + [e];
      && Keys(r) == Keys(f) + [e.url]
      && Lookup(r, e.url) == Some(e)
      && forall k :: k != e.url ==> Lookup(r, k) == Lookup(f, k)
  {
    match IndexOf(f, e.url)
    case Some(i) =>
      var r := f[i := e];
      assert Keys(r) == Keys(f);
      forall k
        ensures IndexOf(r, k) == IndexOf(f, k)
      {
        IndexOfFollowsKeys(r, f, k);
      }
    case None =>
      var r := f + [e];
      assert Keys(r) == Keys(f) + [e.url];
      forall k
        ensures IndexOf(r, k) == (if k == e.url then Some(|f|) else IndexOf(f, k))
      {
        IndexOfAppend(f, e, k);
      }
  }

  /**
   * `addUrl(url, depth)`: store a fresh record for `url` one level below
   * `depth`, replacing any record already stored under that exact key.
   */
  function AddUrl(f: Frontier, url: string, depth: int): (r: Frontier)
    ensures Lookup(r, url) == Some(Entry(url, false, false, depth + 1, None))
    ensures forall k :: k != url ==> Lookup(r, k) == Lookup(f, k)
    ensures HasKey(f, url) ==> Keys(r) == Keys(f)
    ensures !HasKey(f, url) ==> Keys(r) == Keys(f) + [url]
    ensures UniqueKeys(f) ==> UniqueKeys(r)
  {
    Put(f, Entry(url, false, false, depth + 1, None))
  }

  /** Ready to be handed out by `getNextUrl`. */
  predicate Available(e: Entry) {
    !e.crawled && !e.crawling
  }

  /** Finished as far as `doneCrawling` is concerned. */
  predicate Settled(e: Entry) {
    e.crawled && !e.crawling
  }

  /** Position `i` holds the first available record in iteration order. */
  predicate FirstAvailableAt(f: Frontier, i: int) {
    0 <= i < |f| && Available(f[i]) && forall j :: 0 <= j < i ==> !Available(f[j])
  }

  /** The scan of `getNextUrl`, returning a position. */
  function FirstAvailable(f: Frontier): (r: Option<nat>)
    ensures r.Some? ==> FirstAvailableAt(f, r.value)
    ensures r.None? ==> forall i :: 0 <= i < |f| ==> !Available(f[i])
  {
    if |f| == 0 then None
    else if Available(f[0]) then Some(0)
    else match FirstAvailable(f[1..])
      case None => None
      case Some(i) => Some(i + 1)
  }

  /**
   * `getNextUrl()`: the key of the first record that is neither crawled nor
   * being crawled, or `""` when there is none. The empty string doubles as
   * a key, so `""` is also returned when the first available key is `""`.
   */
  function GetNextUrl(f: Frontier): (r: string)
    ensures r != "" ==> exists i :: FirstAvailableAt(f, i) && f[i].url == r
    ensures r == "" <==>
      (forall i :: 0 <= i < |f| ==> !Available(f[i])) ||
      (exists i :: FirstAvailableAt(f, i) && f[i].url == "")
  {
    match FirstAvailable(f)
    case Some(i) => f[i].url
    case None => ""
  }

  /**
   * `doneCrawling()`: every record is crawled and none is being crawled; in
   * particular an empty table is done.
   */
  function DoneCrawling(f: Frontier): (r: bool)
    ensures r <==> forall i :: 0 <= i < |f| ==> Settled(f[i])
  {
    if |f| == 0 then true
    else Settled(f[0]) && DoneCrawling(f[1..])
  }

  /** A finished table has nothing left to hand out. */
  lemma DoneMeansNoNextUrl(f: Frontier)
    requires DoneCrawling(f)
    ensures GetNextUrl(f) == ""
  {
  }

  /** The number of records not yet crawled. */
  function Uncrawled(f: Frontier): (n: nat)
    ensures n <= |f|
  {
    if |f| == 0 then 0
    else (if f[0].crawled then 0 else 1) + Uncrawled(f[1..])
  }

  /** Marking one uncrawled record as crawled lowers the count by exactly one. */
  lemma {:induction false} UncrawledAfterMarking(f: Frontier, i: int, e: Entry)
    requires 0 <= i < |f| && !f[i].crawled && e.crawled
    ensures Uncrawled(f[i := e]) == Uncrawled(f) - 1
    decreases |f|
  {
    var g := f[i := e];
    if i == 0 {
      assert g[1..] == f[1..];
    } else {
      assert g[1..] == f[1..][i - 1 := e];
      UncrawledAfterMarking(f[1..], i - 1, e);
    }
  }
}
