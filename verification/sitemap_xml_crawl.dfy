/**
  SitemapXmlCrawl: snapshots every page a sitemap.xml lists, one per entry
  of its Set<Url>, and then quits the browser. How often the browser has
  been quit is kept as a count, so that "exactly once" can be stated.
 */
module SitemapCrawl {

  import opened Outcomes
  import opened Snapshots
  import opened Browser
  import opened SitemapUrls
  import HashSets

  /** A constructed crawl: the set of sitemap entries in iteration order, and
      how many times its browser has been quit. */
  datatype SitemapXmlCrawl = SitemapXmlCrawl(urlset: seq<Url>, quits: nat)

  /** The end of a constructor: a crawl, or the exception it threw after
      quitting the browser `quits` times. */
  datatype Opening = Opened(crawl: SitemapXmlCrawl) | NotOpened(fault: Fault, quits: nat)

  /** What reading the sitemap file gives: no such file, a file that does
      not unmarshal, or its entries in document order. */
  datatype SitemapFile = Missing | Malformed | Entries(urls: seq<Url>)

  /** The IllegalStateException message of SitemapXml.read for a file it cannot parse. */
  const ParseFailure: string := "Could not parse sitemap.xml"

  /** The exception reading the sitemap file throws, if any. */
  function ReadFault(file: SitemapFile): (f: Option<Fault>)
    ensures f.None? <==> file.Entries?
    ensures file.Malformed? ==> f == Some(Runtime(ParseFailure)) && f.value.IsRuntime()
    ensures file.Missing? ==> f == Some(FileNotFound) && !f.value.IsRuntime()
  {
    match file
    case Missing => Some(FileNotFound)
    case Malformed => Some(Runtime(ParseFailure))
    case Entries(_) => None
  }

  /**
    The two constructors, as written. With `ownsDriver` the crawl starts its
    own browser (the PhantomJS constructor), otherwise it is handed one. A
    missing file makes a browser the crawl started itself quit before the
    FileNotFoundException is rethrown; a handed-in browser is left alone.
    The IllegalStateException of a malformed file is not caught, so it
    leaves even a browser the crawl started running.
   */
  function Open(ownsDriver: bool, file: SitemapFile): (o: Opening)
    ensures o.NotOpened? <==> !file.Entries?
    ensures o.NotOpened? ==> Some(o.fault) == ReadFault(file)
    ensures o.NotOpened? ==> o.quits == (if ownsDriver && file.Missing? then 1 else 0)
    ensures o.Opened? ==> o.crawl.quits == 0
    ensures o.Opened? ==> HashSets.UniqueKeys(o.crawl.urlset, Loc)
    ensures o.Opened? ==> HashSets.KeySet(o.crawl.urlset, Loc) == HashSets.KeySet(file.urls, Loc)
  {
    match file
    case Missing => NotOpened(FileNotFound, if ownsDriver then 1 else 0)
    case Malformed => NotOpened(Runtime(ParseFailure), 0)
    case Entries(entries) => Opened(SitemapXmlCrawl(UrlSet(entries), 0))
  }

  /** The PhantomJS constructor started a browser and a malformed file ends
      the constructor without quitting it: nobody holds that browser any more. */
  lemma AsWrittenMalformedLeaksBrowser()
    ensures Open(true, Malformed) == NotOpened(Runtime(ParseFailure), 0)
    ensures Open(true, Missing) == NotOpened(FileNotFound, 1)
  {
  }

  /**
    The constructors with the cleanup the missing-file branch evidently
    intends applied to every failure of reading the file: a browser the
    crawl started is quit once, whatever the exception.
   */
  function OpenCorrected(ownsDriver: bool, file: SitemapFile): (o: Opening)
    ensures o.NotOpened? <==> !file.Entries?
    ensures o.NotOpened? ==> Some(o.fault) == ReadFault(file)
    ensures o.NotOpened? ==> o.quits == (if ownsDriver then 1 else 0)
    ensures o.Opened? ==> o == Open(ownsDriver, file)
  {
    match ReadFault(file)
    case Some(f) => NotOpened(f, if ownsDriver then 1 else 0)
    case None => Open(ownsDriver, file)
  }

  /** Corrected, no failed constructor leaves a browser it started running,
      and none touches a browser it was handed. */
  lemma CorrectedNeverLeaksBrowser(ownsDriver: bool, file: SitemapFile)
    requires !file.Entries?
    ensures OpenCorrected(ownsDriver, file).NotOpened?
    ensures ownsDriver ==> OpenCorrected(ownsDriver, file).quits == 1
    ensures !ownsDriver ==> OpenCorrected(ownsDriver, file).quits == 0
    ensures OpenCorrected(true, Malformed) == NotOpened(Runtime(ParseFailure), 1)
  {
  }

  /** The entry at `k` is the first whose page fails to load. */
  predicate FirstBroken(urls: seq<Url>, site: Site, k: int) {
    && 0 <= k < |urls|
    && (forall i :: 0 <= i < k ==> Load(site, urls[i].loc).Loaded?)
    && Load(site, urls[k].loc).Broken?
  }

  /** What a browser that has been quit throws when asked to load a page.
      The text stands for the WebDriver's own exception. */
  const UsedAfterQuit: string := "the browser has been quit"

  /**
    SitemapXmlCrawl.crawl. Every entry is loaded in turn and its snapshot
    appended, and then the browser is quit. A page that fails to load
    throws out of the loop before the quit is reached. A browser that an
    earlier crawl() already quit throws on the first load; with no entries
    nothing is loaded and only the quit is repeated.
   */
  method Crawl(c: SitemapXmlCrawl, site: Site) returns (r: CrawlResult, c': SitemapXmlCrawl)
    ensures c'.urlset == c.urlset
    ensures r.Crawled? <==> (c.quits == 0 || c.urlset == []) && forall i :: 0 <= i < |c.urlset| ==> Load(site, c.urlset[i].loc).Loaded?
    ensures r.Crawled? ==> |r.pages| == |c.urlset| && c'.quits == c.quits + 1
    ensures r.Crawled? ==> forall i :: 0 <= i < |c.urlset| ==> Load(site, c.urlset[i].loc) == Loaded(r.pages[i])
    ensures r.Aborted? ==> c'.quits == c.quits && r.fault.Runtime?
    ensures r.Aborted? && c.quits > 0 ==> r.fault == Runtime(UsedAfterQuit)
    ensures r.Aborted? && c.quits == 0 ==>
              exists k :: FirstBroken(c.urlset, site, k) && Load(site, c.urlset[k].loc).msg == r.fault.msg
  {
    if c.quits > 0 && |c.urlset| > 0 {
      return Aborted(Runtime(UsedAfterQuit)), c;
    }
    var pages: seq<Snapshot> := [];
    var i := 0;
    while i < |c.urlset|
      invariant 0 <= i <= |c.urlset| && |pages| == i
      invariant forall j :: 0 <= j < i ==> Load(site, c.urlset[j].loc) == Loaded(pages[j])
    {
      var got := Load(site, c.urlset[i].loc);
      if got.Broken? {
        assert FirstBroken(c.urlset, site, i);
        return Aborted(Runtime(got.msg)), c;
      }
      pages := pages + [got.page];
      i := i + 1;
    }
    return Crawled(pages), c.(quits := c.quits + 1);
  }

  /** One snapshot per sitemap location: pages of a successful crawl come from
      pairwise different locations, in the order of the set. */
  lemma PagesFromDistinctLocations(sitemap: seq<Url>, c: SitemapXmlCrawl, site: Site, pages: seq<Snapshot>)
    requires OpenCorrected(true, Entries(sitemap)) == Opened(c) || OpenCorrected(false, Entries(sitemap)) == Opened(c)
    requires |pages| == |c.urlset|
    requires forall i :: 0 <= i < |c.urlset| ==> Load(site, c.urlset[i].loc) == Loaded(pages[i])
    ensures forall i, j :: 0 <= i < j < |pages| ==> c.urlset[i].loc != c.urlset[j].loc
    ensures |pages| <= |sitemap|
  {
  }
}
