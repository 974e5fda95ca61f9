/**
  The browser as the crawls see it: a finite site map from hrefs to what
  loading that href yields (LiveWebPage(driver, link).snapshot()). An href
  outside the map fails to load.
 */
module Browser {

  import opened Outcomes
  import opened Snapshots

  /** Loading one href: a snapshot of the page, or a RuntimeException from the browser. */
  datatype Fetched = Loaded(page: Snapshot) | Broken(msg: string)

  /** The pages the browser can load, keyed by href. */
  type Site = map<string, Fetched>

  /** What the browser yields for `h`: the site's entry, or a failure for an href the site does not have. */
  function Load(site: Site, h: string): Fetched {
    if h in site then site[h] else Broken("unreachable: " + h)
  }

  /** What crawl() hands back: the pages, or the exception it ended with. */
  datatype CrawlResult = Crawled(pages: seq<Snapshot>) | Aborted(fault: Fault)
}
