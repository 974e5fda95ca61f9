/**
  One <url> entry of a sitemap.xml: its location and three optional metadata
  fields. Identity is the exact `loc` string.
 */
module SitemapUrls {

  import opened JavaStrings
  import HashSets

  datatype Url = Url(loc: string, lastmod: string, changefreq: string, priority: string)

  /** Url(): every field empty. */
  function Blank(): (u: Url)
    ensures u.loc == "" && u.lastmod == "" && u.changefreq == "" && u.priority == ""
  {
    At("")
  }

  /** Url(loc): the location, with empty metadata. */
  function At(loc: string): (u: Url)
    ensures u.loc == loc
    ensures u.lastmod == "" && u.changefreq == "" && u.priority == ""
  {
    Make(loc, "", "", "")
  }

  /** Url(loc, changeFreq, lastmod, priority); note the argument order
      differs from the field order. */
  function Make(loc: string, changeFreq: string, lastmod: string, priority: string): (u: Url)
    ensures u.loc == loc && u.changefreq == changeFreq && u.lastmod == lastmod && u.priority == priority
  {
    Url(loc, lastmod, changeFreq, priority)
  }

  /** The key that Url.equals and Url.hashCode look at. */
  function Loc(u: Url): string {
    u.loc
  }

  function WithLoc(u: Url, loc: string): (r: Url)
    ensures r.loc == loc
    ensures r.lastmod == u.lastmod && r.changefreq == u.changefreq && r.priority == u.priority
  {
    u.(loc := loc)
  }

  function WithPriority(u: Url, priority: string): (r: Url)
    ensures r.priority == priority
    ensures r.loc == u.loc && r.lastmod == u.lastmod && r.changefreq == u.changefreq
  {
    u.(priority := priority)
  }

  function WithChangefreq(u: Url, changefreq: string): (r: Url)
    ensures r.changefreq == changefreq
    ensures r.loc == u.loc && r.lastmod == u.lastmod && r.priority == u.priority
  {
    u.(changefreq := changefreq)
  }

  function WithLastmod(u: Url, lastmod: string): (r: Url)
    ensures r.lastmod == lastmod
    ensures r.loc == u.loc && r.changefreq == u.changefreq && r.priority == u.priority
  {
    u.(lastmod := lastmod)
  }

  /** Url.equals: the locations are the same string. */
  predicate Same(a: Url, b: Url)
    ensures Same(a, b) ==> HashCode(a) == HashCode(b)
    ensures Same(a, b) <==> a.(lastmod := b.lastmod, changefreq := b.changefreq, priority := b.priority) == b
  {
    a.loc == b.loc
  }

  /** Url.hashCode: the hash of the location. */
  function HashCode(u: Url): (h: int)
    ensures IsInt32(h)
  {
    JavaStrings.HashCode(u.loc)
  }

  /** Url.equals is an equivalence that no metadata setter can change, and
      equal Urls hash alike. */
  lemma SameIgnoresMetadata(u: Url, v: Url, lastmod: string, changefreq: string, priority: string)
    ensures Same(u, WithPriority(WithChangefreq(WithLastmod(u, lastmod), changefreq), priority))
    ensures Same(u, v) <==> Same(v, u)
    ensures Same(u, v) ==> HashCode(u) == HashCode(v)
  {
  }

  /** The Set<Url> a sitemap is read into: one entry per location, the first one seen. */
  function UrlSet(entries: seq<Url>): (r: seq<Url>)
    ensures HashSets.UniqueKeys(r, Loc)
    ensures HashSets.KeySet(r, Loc) == HashSets.KeySet(entries, Loc)
    ensures forall u :: u in r ==> u in entries
  {
    HashSets.FromSeq(entries, Loc)
  }

  /** Two entries with the same location and different metadata collapse to
      one (SitemapXmlTestCase.unmarshallsUrlSet). */
  lemma DuplicateLocCollapses(a: Url, b: Url)
    requires a.loc == b.loc
    ensures |UrlSet([a, b])| == 1
  {
    var r := UrlSet([a, b]);
    assert HashSets.KeySet([a, b], Loc) == {a.loc};
    assert |r| != 0 by {
      assert a.loc in HashSets.KeySet(r, Loc);
    }
  }

  /** Entries whose locations differ, even only by a fragment, stay two
      entries (against SitemapXmlOnlineTestCase.getsSitemap, which expects one). */
  lemma FragmentLocsStayApart(a: Url, b: Url)
    requires a.loc == "http://www.test.com/page.html"
    requires b.loc == "http://www.test.com/page.html#fragment"
    ensures |UrlSet([a, b])| == 2
  {
    assert |a.loc| != |b.loc|;
    HashSets.FromSeqOfUnique([a, b], Loc);
  }
}
