/**
  SnapshotWebPage: the copy of a crawled page that the crawler keeps once
  the browser has moved on. Identity is the exact `url` string.
 */
module Snapshots {

  import opened Outcomes
  import opened Links
  import JavaStrings
  import HashSets

  /** What the browser exposes about the page it has loaded; `links` is the
      anchors in the order the browser reports them, duplicates included. */
  datatype LivePage = LivePage(name: string, url: string, title: string, textContent: string, links: seq<Link>)

  /** The page fields; `name` is None (null) when no constructor or setter
      gave it a value, and `links` is a Set<Link> in iteration order. */
  datatype Snapshot = Snapshot(name: Option<string>, url: string, title: string, textContent: string, links: seq<Link>)

  /** A HashSet<Link>: no two links with the same href. */
  predicate IsLinkSet(links: seq<Link>) {
    HashSets.UniqueKeys(links, Href)
  }

  /** The hrefs present in a sequence of links. */
  function Hrefs(links: seq<Link>): set<string> {
    HashSets.KeySet(links, Href)
  }

  /** SnapshotWebPage(): empty url, title and text, no links, and no name. */
  function Blank(): (p: Snapshot)
    ensures p.name == None
    ensures p.url == "" && p.title == "" && p.textContent == ""
    ensures p.links == []
  {
    Snapshot(None, "", "", "", [])
  }

  /** SnapshotWebPage(livePage): copies the four text fields and adds every
      live link to a fresh set. */
  function Of(live: LivePage): (p: Snapshot)
    ensures p.name == Some(live.name) && p.url == live.url
    ensures p.title == live.title && p.textContent == live.textContent
    ensures IsLinkSet(p.links) && Hrefs(p.links) == Hrefs(live.links)
    ensures forall l :: l in p.links ==> l in live.links
  {
    Snapshot(Some(live.name), live.url, live.title, live.textContent, HashSets.FromSeq(live.links, Href))
  }

  function WithName(p: Snapshot, name: string): (r: Snapshot)
    ensures r.name == Some(name)
    ensures r.url == p.url && r.title == p.title && r.textContent == p.textContent && r.links == p.links
  {
    p.(name := Some(name))
  }

  function WithUrl(p: Snapshot, url: string): (r: Snapshot)
    ensures r.url == url
    ensures r.name == p.name && r.title == p.title && r.textContent == p.textContent && r.links == p.links
  {
    p.(url := url)
  }

  function WithTitle(p: Snapshot, title: string): (r: Snapshot)
    ensures r.title == title
    ensures r.name == p.name && r.url == p.url && r.textContent == p.textContent && r.links == p.links
  {
    p.(title := title)
  }

  function WithTextContent(p: Snapshot, textContent: string): (r: Snapshot)
    ensures r.textContent == textContent
    ensures r.name == p.name && r.url == p.url && r.title == p.title && r.links == p.links
  {
    p.(textContent := textContent)
  }

  /** setLinks(links): a fresh set holding exactly the given links' hrefs,
      each kept link taken from the argument. */
  function WithLinks(p: Snapshot, links: seq<Link>): (r: Snapshot)
    ensures IsLinkSet(r.links) && Hrefs(r.links) == Hrefs(links)
    ensures forall l :: l in r.links ==> l in links
    ensures r.name == p.name && r.url == p.url && r.title == p.title && r.textContent == p.textContent
  {
    p.(links := HashSets.FromSeq(links, Href))
  }

  /** Handing setLinks a set (in its iteration order) stores that same set. */
  lemma WithLinksOfSet(p: Snapshot, links: seq<Link>)
    requires IsLinkSet(links)
    ensures WithLinks(p, links).links == links
  {
    HashSets.FromSeqOfUnique(links, Href);
  }

  /** SnapshotWebPage.equals: the urls are the same string. */
  predicate Same(a: Snapshot, b: Snapshot)
    ensures Same(a, b) ==> HashCode(a) == HashCode(b)
    ensures Same(a, b) <==> a.(name := b.name, title := b.title, textContent := b.textContent, links := b.links) == b
  {
    a.url == b.url
  }

  /** SnapshotWebPage.hashCode: 31 * 1 + url.hashCode(), in int arithmetic. */
  function HashCode(p: Snapshot): (h: int)
    ensures JavaStrings.IsInt32(h)
  {
    JavaStrings.Wrap32(31 + JavaStrings.HashCode(p.url))
  }

  /** SnapshotWebPage.equals is an equivalence relation, and any two equal
      pages hash alike, whatever their name, title, text and links. */
  lemma SameIsEquivalence(a: Snapshot, b: Snapshot, c: Snapshot)
    ensures Same(a, a)
    ensures Same(a, b) ==> Same(b, a)
    ensures Same(a, b) && Same(b, c) ==> Same(a, c)
    ensures Same(a, b) ==> HashCode(a) == HashCode(b)
  {
  }

  /** Only the url decides equality: setting any other field keeps a page
      equal to (and hashing like) the original. */
  lemma SameIgnoresOtherFields(p: Snapshot, name: string, title: string, text: string, links: seq<Link>)
    ensures var q := WithLinks(WithTextContent(WithTitle(WithName(p, name), title), text), links);
            Same(p, q) && HashCode(p) == HashCode(q)
  {
  }
}
