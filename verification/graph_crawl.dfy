/**
  GraphCrawl.crawl: a breadth-first walk of a site from its index page, over
  a work list `toCrawl` and a set `crawledLinks` of the links already taken.
  The browser is the site map of module Browser; the `skip` test stands for
  IgnoredPatterns.contains (Ignored.IsIgnored).
 */
module GraphCrawl {

  import opened Outcomes
  import opened Links
  import opened Snapshots
  import opened Browser

  predicate Distinct(xs: seq<string>) {
    forall i, j :: 0 <= i < j < |xs| ==> xs[i] != xs[j]
  }

  function Min(a: nat, b: nat): nat {
    if a <= b then a else b
  }

  /** A list of distinct hrefs is no longer than the set they are drawn from. */
  lemma {:induction false} DistinctFits(xs: seq<string>, keys: set<string>)
    requires Distinct(xs)
    requires forall x :: x in xs ==> x in keys
    ensures |xs| <= |keys|
  {
    if |xs| > 0 {
      var last := xs[|xs| - 1];
      var init := xs[..|xs| - 1];
      forall x | x in init ensures x in keys - {last} {
        var i :| 0 <= i < |init| && init[i] == x;
        assert xs[i] == x;
      }
      DistinctFits(init, keys - {last});
    }
  }

  // ---------------------------------------------------------------------------
  // The stream of discovered links and the hrefs a FIFO walk over it visits

  /** Every link appended to `toCrawl`, in order: the links of each crawled page in turn. */
  function Outlinks(pages: seq<Snapshot>): (r: seq<Link>)
    ensures pages == [] ==> r == []
    ensures |pages| == 1 ==> r == pages[0].links
  {
    if |pages| == 0 then []
    else Outlinks(pages[..|pages| - 1]) + pages[|pages| - 1].links
  }

  lemma OutlinksAppend(pages: seq<Snapshot>, p: Snapshot)
    ensures Outlinks(pages + [p]) == Outlinks(pages) + p.links
  {
    assert (pages + [p])[..|pages|] == pages;
  }

  /** Every link of every page is in the stream. */
  lemma {:induction false} OutlinksHas(pages: seq<Snapshot>, i: nat, l: Link)
    requires i < |pages| && l in pages[i].links
    ensures l in Outlinks(pages)
    decreases |pages|
  {
    var init := pages[..|pages| - 1];
    if i < |pages| - 1 {
      assert init[i] == pages[i];
      OutlinksHas(init, i, l);
    }
  }

  /**
    The hrefs a FIFO walk over the stream `s` of dequeued links crawls, in
    order: each href the first time it appears, unless it is ignored or was
    already in `seen`.
   */
  function FirstVisits(s: seq<Link>, seen: set<string>, skip: string -> bool): (r: seq<string>)
    ensures Distinct(r)
    ensures forall h :: h in r ==> h !in seen && !skip(h)
  {
    if |s| == 0 then []
    else
      var prev := FirstVisits(s[..|s| - 1], seen, skip);
      var h := s[|s| - 1].href;
      if skip(h) || h in seen || h in prev then prev
      else prev + [h]
  }

  /** One more dequeued link extends the first visits by its href, or by nothing. */
  lemma FirstVisitsStep(e: seq<Link>, t: nat, seen: set<string>, skip: string -> bool)
    requires 1 <= t <= |e|
    ensures var prev := FirstVisits(e[..t - 1], seen, skip);
            var h := e[t - 1].href;
            FirstVisits(e[..t], seen, skip) ==
              if skip(h) || h in seen || h in prev then prev else prev + [h]
  {
    assert e[..t][..t - 1] == e[..t - 1];
  }

  /** Every href of the stream is ignored, already seen, or visited. */
  lemma {:induction false} FirstVisitsCovers(s: seq<Link>, seen: set<string>, skip: string -> bool)
    ensures forall i :: 0 <= i < |s| ==>
              skip(s[i].href) || s[i].href in seen || s[i].href in FirstVisits(s, seen, skip)
    decreases |s|
  {
    if |s| > 0 {
      var init := s[..|s| - 1];
      FirstVisitsCovers(init, seen, skip);
      assert forall i :: 0 <= i < |init| ==> s[i] == init[i];
    }
  }

  /** Every visited href comes from the stream. */
  lemma {:induction false} FirstVisitsFrom(s: seq<Link>, seen: set<string>, skip: string -> bool, h: string)
    requires h in FirstVisits(s, seen, skip)
    ensures exists i :: 0 <= i < |s| && s[i].href == h
    decreases |s|
  {
    var init := s[..|s| - 1];
    if h in FirstVisits(init, seen, skip) {
      FirstVisitsFrom(init, seen, skip, h);
      var i :| 0 <= i < |init| && init[i].href == h;
      assert s[i] == init[i];
    }
  }

  // ---------------------------------------------------------------------------
  // The crawl as a function of how many links it has looked at

  /** pages[i] is the snapshot the browser gives for the i-th fetched href. */
  predicate Logged(site: Site, pages: seq<Snapshot>, fetched: seq<string>) {
    && |pages| == |fetched|
    && forall i :: 0 <= i < |fetched| ==> Load(site, fetched[i]) == Loaded(pages[i])
  }

  /** Where the crawl stands: still going with its pages, or stopped by a page that failed to load. */
  datatype Progress = Going(pages: seq<Snapshot>, fetched: seq<string>) | Stopped(fetched: seq<string>, msg: string)

  /** The state once the index href has been loaded. */
  function Start(site: Site, index: string): Progress {
    match Load(site, index)
    case Loaded(p) => Going([p], [index])
    case Broken(msg) => Stopped([index], msg)
  }

  /**
    One pass of the loop body over the link at position `k` of the stream:
    the link is passed over when it is ignored or its href was crawled
    already, otherwise its page is loaded and its links join the stream. A
    stopped crawl, or a position past the end of the stream, changes nothing.
   */
  function Look(skip: string -> bool, site: Site, prev: Progress, k: nat): Progress {
    match prev
    case Stopped(_, _) => prev
    case Going(pages, fetched) =>
      var e := Outlinks(pages);
      if k >= |e| then prev
      else
        var h := e[k].href;
        if skip(h) || h in fetched then prev
        else
          match Load(site, h)
          case Broken(msg) => Stopped(fetched + [h], msg)
          case Loaded(p) => Going(pages + [p], fetched + [h])
  }

  /** The state after the first `n` links of the stream have been looked at. */
  function After(index: string, skip: string -> bool, site: Site, n: nat): Progress
    decreases n, 0
  {
    if n == 0 then Start(site, index) else Next(index, skip, site, n - 1)
  }

  /** The state once the link at position `k` of the stream has been looked at. */
  function Next(index: string, skip: string -> bool, site: Site, k: nat): Progress
    decreases k, 1
  {
    Look(skip, site, After(index, skip, site, k), k)
  }

  /** One step of the crawl, spelled out. */
  lemma AfterStep(index: string, skip: string -> bool, site: Site, k: nat)
    ensures After(index, skip, site, k + 1) == Look(skip, site, After(index, skip, site, k), k)
  {
    assert After(index, skip, site, k + 1) == Next(index, skip, site, k);
  }

  /** The hrefs a crawl loads: the index first, each at most once, none ignored. */
  predicate Fetches(index: string, skip: string -> bool, fetched: seq<string>) {
    && |fetched| >= 1 && fetched[0] == index
    && Distinct(fetched)
    && forall h :: h in fetched ==> !skip(h)
  }

  /** What the state after `n` looks says about the hrefs loaded so far. */
  predicate AfterFacts(index: string, skip: string -> bool, site: Site, n: nat, st: Progress) {
    && Fetches(index, skip, st.fetched)
    && (st.Going? ==>
          var e := Outlinks(st.pages);
          && Logged(site, st.pages, st.fetched)
          && st.fetched == [index] + FirstVisits(e[..Min(n, |e|)], {index}, skip))
    && (st.Stopped? ==>
          && (forall i :: 0 <= i < |st.fetched| - 1 ==> Load(site, st.fetched[i]).Loaded?)
          && Load(site, st.fetched[|st.fetched| - 1]) == Broken(st.msg))
  }

  /** The state after `n` looks has loaded the first visits of the stream looked at so far. */
  lemma {:induction false} AfterIsFirstVisits(index: string, skip: string -> bool, site: Site, n: nat)
    requires !skip(index)
    ensures AfterFacts(index, skip, site, n, After(index, skip, site, n))
    decreases n
  {
    if n == 0 {
      StartFacts(index, skip, site);
    } else {
      AfterIsFirstVisits(index, skip, site, n - 1);
      LookFacts(index, skip, site, n - 1, After(index, skip, site, n - 1));
    }
  }

  /** Loading the index starts the log with it. */
  lemma StartFacts(index: string, skip: string -> bool, site: Site)
    requires !skip(index)
    ensures AfterFacts(index, skip, site, 0, Start(site, index))
  {
    if Load(site, index).Loaded? {
      var e := Load(site, index).page.links;
      assert e[..0] == [];
    }
  }

  /** One look keeps the facts about the log. */
  lemma LookFacts(index: string, skip: string -> bool, site: Site, k: nat, prev: Progress)
    requires !skip(index)
    requires AfterFacts(index, skip, site, k, prev)
    ensures AfterFacts(index, skip, site, k + 1, Look(skip, site, prev, k))
  {
    if prev.Going? {
      var e := Outlinks(prev.pages);
      if k < |e| {
        if skip(e[k].href) || e[k].href in prev.fetched {
          StepPass(index, skip, site, k, prev);
        } else {
          StepFresh(index, skip, site, k, prev);
        }
      } else {
        assert Min(k + 1, |e|) == Min(k, |e|);
      }
    }
  }

  /** The index followed by first visits that exclude it is a valid fetch log. */
  lemma FetchesOfVisits(index: string, skip: string -> bool, visits: seq<string>)
    requires !skip(index)
    requires Distinct(visits) && index !in visits
    requires forall h :: h in visits ==> !skip(h)
    ensures Fetches(index, skip, [index] + visits)
  {
    var f := [index] + visits;
    forall i, j | 0 <= i < j < |f| ensures f[i] != f[j] {
      assert f[j] == visits[j - 1];
      if i > 0 {
        assert f[i] == visits[i - 1];
      }
    }
  }

  /** The preconditions every step lemma shares: a going state after `k` looks, not yet at the end. */
  predicate StepReady(index: string, skip: string -> bool, site: Site, k: nat, prev: Progress) {
    && !skip(index)
    && prev.Going?
    && AfterFacts(index, skip, site, k, prev)
    && k < |Outlinks(prev.pages)|
  }

  /** Looking at an ignored or already crawled link changes nothing. */
  lemma StepPass(index: string, skip: string -> bool, site: Site, k: nat, prev: Progress)
    requires StepReady(index, skip, site, k, prev)
    requires skip(Outlinks(prev.pages)[k].href) || Outlinks(prev.pages)[k].href in prev.fetched
    ensures AfterFacts(index, skip, site, k + 1, Look(skip, site, prev, k))
  {
    var e := Outlinks(prev.pages);
    var h := e[k].href;
    var visits := prev.fetched[1..];
    assert Min(k, |e|) == k;
    assert visits == FirstVisits(e[..k], {index}, skip);
    FirstVisitsStep(e, k + 1, {index}, skip);
    assert h == index || h in visits || skip(h);
    assert Look(skip, site, prev, k) == prev;
    assert Min(k + 1, |e|) == k + 1;
  }

  /** Looking at a fresh link appends its href to the first visits. */
  lemma StepFresh(index: string, skip: string -> bool, site: Site, k: nat, prev: Progress)
    requires StepReady(index, skip, site, k, prev)
    requires !skip(Outlinks(prev.pages)[k].href) && Outlinks(prev.pages)[k].href !in prev.fetched
    ensures AfterFacts(index, skip, site, k + 1, Look(skip, site, prev, k))
  {
    var e := Outlinks(prev.pages);
    var h := e[k].href;
    var visits := prev.fetched[1..];
    assert Min(k, |e|) == k;
    assert visits == FirstVisits(e[..k], {index}, skip);
    FirstVisitsStep(e, k + 1, {index}, skip);
    assert h != index && h !in visits;
    var visits' := visits + [h];
    assert FirstVisits(e[..k + 1], {index}, skip) == visits';
    assert forall x :: x in visits ==> x in prev.fetched;
    FetchesOfVisits(index, skip, visits');
    var fetched' := prev.fetched + [h];
    assert fetched' == [index] + visits';
    match Load(site, h)
    case Loaded(p) => StepLoad(index, skip, site, k, prev.pages, fetched', p);
    case Broken(msg) => StepBroken(index, skip, site, k, prev.pages, fetched', msg);
  }

  /** ... and when its page loads, the stream grows by that page's links. */
  lemma StepLoad(index: string, skip: string -> bool, site: Site, k: nat, pages: seq<Snapshot>, fetched': seq<string>, p: Snapshot)
    requires k < |Outlinks(pages)| && |fetched'| == |pages| + 1
    requires Logged(site, pages, fetched'[..|pages|])
    requires fetched'[|pages|] == Outlinks(pages)[k].href && Load(site, fetched'[|pages|]) == Loaded(p)
    requires fetched' == [index] + FirstVisits(Outlinks(pages)[..k + 1], {index}, skip)
    requires Fetches(index, skip, fetched')
    ensures AfterFacts(index, skip, site, k + 1, Going(pages + [p], fetched'))
  {
    OutlinksAppend(pages, p);
    var e := Outlinks(pages);
    var e' := Outlinks(pages + [p]);
    assert Min(k + 1, |e'|) == k + 1;
    assert e'[..k + 1] == e[..k + 1];
    var pages' := pages + [p];
    forall i | 0 <= i < |fetched'| ensures Load(site, fetched'[i]) == Loaded(pages'[i]) {
      if i < |pages| {
        assert fetched'[i] == fetched'[..|pages|][i];
      }
    }
  }

  /** ... and when its page fails to load, the crawl stops on it. */
  lemma StepBroken(index: string, skip: string -> bool, site: Site, k: nat, pages: seq<Snapshot>, fetched': seq<string>, msg: string)
    requires |fetched'| == |pages| + 1
    requires Logged(site, pages, fetched'[..|pages|])
    requires Load(site, fetched'[|pages|]) == Broken(msg)
    requires Fetches(index, skip, fetched')
    ensures AfterFacts(index, skip, site, k + 1, Stopped(fetched', msg))
  {
    forall i | 0 <= i < |fetched'| - 1 ensures Load(site, fetched'[i]).Loaded? {
      assert fetched'[i] == fetched'[..|pages|][i];
    }
  }

  // ---------------------------------------------------------------------------
  // The loop body, one branch at a time

  /** A site holding a page has room for at least that one. */
  lemma LoadedRoom(site: Site, h: string)
    requires Load(site, h).Loaded?
    ensures |site.Keys| >= 1
  {
    assert h in site.Keys;
  }

  /** A fresh link whose page loads still leaves room for it among the site's hrefs. */
  lemma LoopRoom(index: string, skip: string -> bool, site: Site, k: nat, pages: seq<Snapshot>, fetched: seq<string>, h: string)
    requires !skip(index)
    requires After(index, skip, site, k) == Going(pages, fetched)
    requires h !in fetched && Load(site, h).Loaded?
    ensures |fetched| < |site.Keys|
  {
    AfterIsFirstVisits(index, skip, site, k);
    var xs := fetched + [h];
    forall x | x in xs ensures x in site.Keys {
      var i :| 0 <= i < |xs| && xs[i] == x;
      if i < |fetched| {
        assert Load(site, fetched[i]).Loaded?;
      }
    }
    DistinctFits(xs, site.Keys);
  }

  /** An ignored or already crawled link leaves the loop state as it is. */
  lemma LoopPass(index: string, skip: string -> bool, site: Site, k: nat, pages: seq<Snapshot>, fetched: seq<string>)
    requires After(index, skip, site, k) == Going(pages, fetched)
    requires k < |Outlinks(pages)|
    requires skip(Outlinks(pages)[k].href) || Outlinks(pages)[k].href in fetched
    ensures After(index, skip, site, k + 1) == Going(pages, fetched)
  {
  }

  /** A fresh link to a page that fails to load stops the loop. */
  lemma LoopBroken(index: string, skip: string -> bool, site: Site, k: nat, pages: seq<Snapshot>, fetched: seq<string>, h: string)
    requires After(index, skip, site, k) == Going(pages, fetched)
    requires k < |Outlinks(pages)| && h == Outlinks(pages)[k].href
    requires !skip(h) && h !in fetched && Load(site, h).Broken?
    ensures After(index, skip, site, k + 1) == Stopped(fetched + [h], Load(site, h).msg)
  {
  }

  /** A fresh link to a page that loads logs the page and queues its links. */
  lemma LoopLoad(index: string, skip: string -> bool, site: Site, k: nat, pages: seq<Snapshot>, fetched: seq<string>, h: string)
    requires After(index, skip, site, k) == Going(pages, fetched)
    requires k < |Outlinks(pages)| && h == Outlinks(pages)[k].href
    requires !skip(h) && h !in fetched && Load(site, h).Loaded?
    ensures After(index, skip, site, k + 1) == Going(pages + [Load(site, h).page], fetched + [h])
    ensures Outlinks(pages + [Load(site, h).page]) == Outlinks(pages) + Load(site, h).page.links
  {
    OutlinksAppend(pages, Load(site, h).page);
  }

  /** Taking the head off a queue that is a suffix of the stream. */
  lemma Dequeue(e: seq<Link>, toCrawl: seq<Link>, t: nat)
    requires t < |e| && toCrawl == e[t..]
    ensures toCrawl[0] == e[t] && toCrawl[1..] == e[t + 1..]
  {
  }

  /** Appending to the stream appends to every suffix of it. */
  lemma AppendSlices(e: seq<Link>, x: seq<Link>, t: nat)
    requires t <= |e|
    ensures (e + x)[t..] == e[t..] + x
  {
  }

  /** What crawl() returns once the loop state is `st`. */
  function Report(st: Progress): (CrawlResult, seq<string>) {
    match st
    case Going(pages, fetched) => (Crawled(pages), fetched)
    case Stopped(fetched, msg) => (Aborted(Runtime(msg)), fetched)
  }

  // ---------------------------------------------------------------------------
  // crawl() as written

  /** The as-written loop goes on after `m` looks while more than one link of the stream is left. */
  predicate AsWrittenGoesOn(index: string, skip: string -> bool, site: Site, m: nat) {
    After(index, skip, site, m).Going? && m + 1 < |Outlinks(After(index, skip, site, m).pages)|
  }

  /** The as-written loop went on after each of the first `n` looks. */
  predicate AsWrittenRanThrough(index: string, skip: string -> bool, site: Site, n: nat) {
    n == 0 || (AsWrittenRanThrough(index, skip, site, n - 1) && AsWrittenGoesOn(index, skip, site, n - 1))
  }

  /** `n` is the number of links the as-written loop looks at before crawl() returns. */
  predicate AsWrittenHalts(index: string, skip: string -> bool, site: Site, n: nat) {
    if !skip(index) && Load(site, index).Loaded? && Load(site, index).page.links != [] then
      AsWrittenRanThrough(index, skip, site, n) && !AsWrittenGoesOn(index, skip, site, n)
    else n == 0
  }

  /** What crawl() returns when its loop looks at `n` links. */
  function AsWrittenResult(index: string, skip: string -> bool, site: Site, n: nat): (CrawlResult, seq<string>) {
    if skip(index) then (Crawled([]), [])
    else if Load(site, index).Loaded? && Load(site, index).page.links == [] then (Aborted(IndexOutOfBounds), [index])
    else Report(After(index, skip, site, n))
  }

  lemma AsWrittenOnceMore(index: string, skip: string -> bool, site: Site, n: nat, pages: seq<Snapshot>, fetched: seq<string>)
    requires AsWrittenRanThrough(index, skip, site, n)
    requires After(index, skip, site, n) == Going(pages, fetched) && n + 1 < |Outlinks(pages)|
    ensures AsWrittenRanThrough(index, skip, site, n + 1)
  {
  }

  /**
    GraphCrawl.crawl, loop for loop. `fetched` lists the hrefs handed to the
    browser in order; it doubles as the crawledLinks set, since Link equality
    is href equality. The ghost `looked` counts the links the loop looked at.
   */
  method Crawl(index: string, skip: string -> bool, site: Site)
    returns (r: CrawlResult, fetched: seq<string>, ghost looked: nat)
    ensures AsWrittenHalts(index, skip, site, looked)
    ensures (r, fetched) == AsWrittenResult(index, skip, site, looked)
    ensures AsWrittenOutcome(index, skip, site, r, fetched)
  {
    looked := 0;
    if skip(index) {
      r, fetched := Crawled([]), [];
    } else {
      // the index joins crawledLinks before its page is loaded
      fetched := [index];
      var first := Load(site, index);
      if first.Broken? {
        r := Aborted(Runtime(first.msg));
      } else if |first.page.links| == 0 {
        // toCrawl.remove(0) on the empty work list
        r := Aborted(IndexOutOfBounds);
      } else {
        r, fetched, looked := CrawlFrom(index, skip, site, first.page);
      }
    }
    AsWrittenMeaning(index, skip, site, looked);
  }

  /**
    The rest of GraphCrawl.crawl once the index page is loaded and has links:
    the first link is taken off the work list, then the while loop runs.
   */
  method CrawlFrom(index: string, skip: string -> bool, site: Site, p: Snapshot)
    returns (r: CrawlResult, fetched: seq<string>, ghost looked: nat)
    requires !skip(index) && Load(site, index) == Loaded(p) && p.links != []
    ensures AsWrittenRanThrough(index, skip, site, looked) && !AsWrittenGoesOn(index, skip, site, looked)
    ensures (r, fetched) == Report(After(index, skip, site, looked))
  {
    looked := 0;
    fetched := [index];
    var pages := [p];
    var toCrawl := p.links;
    ghost var e := toCrawl;
    ghost var room := |site.Keys|;
    LoadedRoom(site, index);
    var link := toCrawl[0];
    toCrawl := toCrawl[1..];
    while |toCrawl| > 0
      invariant e == Outlinks(pages)
      invariant looked < |e|
      invariant After(index, skip, site, looked) == Going(pages, fetched)
      invariant AsWrittenRanThrough(index, skip, site, looked)
      invariant |fetched| <= room
      invariant toCrawl == e[looked + 1..]
      invariant link == e[looked]
      decreases room - |fetched|, |toCrawl|
    {
      AsWrittenOnceMore(index, skip, site, looked, pages, fetched);
      // An ignored link is passed over like one crawled already: the
      // `continue` branch takes the next link just as the loop's end does.
      var h := link.href;
      if !skip(h) && h !in fetched {
        var got := Load(site, h);
        if got.Broken? {
          LoopBroken(index, skip, site, looked, pages, fetched, h);
          fetched := fetched + [h];
          looked := looked + 1;
          return Aborted(Runtime(got.msg)), fetched, looked;
        }
        LoopRoom(index, skip, site, looked, pages, fetched, h);
        LoopLoad(index, skip, site, looked, pages, fetched, h);
        AppendSlices(e, got.page.links, looked + 1);
        fetched := fetched + [h];
        pages := pages + [got.page];
        e := e + got.page.links;
        toCrawl := toCrawl + got.page.links;
      } else {
        LoopPass(index, skip, site, looked, pages, fetched);
      }
      Dequeue(e, toCrawl, looked + 1);
      link := toCrawl[0];
      toCrawl := toCrawl[1..];
      looked := looked + 1;
    }
    return Crawled(pages), fetched, looked;
  }

  /**
    The outcome of GraphCrawl.crawl as written: an ignored index gives no
    pages and no fetch; otherwise the index is fetched first and every later
    fetch is a first visit of a link dequeued from the FIFO stream of
    discovered links, except that the link dequeued last is never looked at,
    and an index page without links ends in an IndexOutOfBoundsException.
   */
  predicate AsWrittenOutcome(index: string, skip: string -> bool, site: Site, r: CrawlResult, fetched: seq<string>) {
    && (skip(index) ==> r == Crawled([]) && fetched == [])
    && (!skip(index) ==> Fetches(index, skip, fetched))
    && (r.Crawled? && !skip(index) ==>
          var e := Outlinks(r.pages);
          && Logged(site, r.pages, fetched)
          && |e| >= 1
          && fetched == [index] + FirstVisits(e[..|e| - 1], {index}, skip))
    && (r.Aborted? ==>
          && !skip(index)
          && (forall i :: 0 <= i < |fetched| - 1 ==> Load(site, fetched[i]).Loaded?)
          && var last := Load(site, fetched[|fetched| - 1]);
             || (last.Broken? && r.fault == Runtime(last.msg))
             || (r.fault == IndexOutOfBounds && fetched == [index] && last.Loaded? && last.page.links == []))
    && (!skip(index) && Load(site, index).Loaded? && Load(site, index).page.links == [] ==>
          r == Aborted(IndexOutOfBounds))
  }

  /** While it runs, the as-written loop has looked at fewer links than the stream holds. */
  lemma AsWrittenNeverPastEnd(index: string, skip: string -> bool, site: Site, n: nat)
    requires Load(site, index).Loaded? && Load(site, index).page.links != []
    requires AsWrittenRanThrough(index, skip, site, n)
    requires After(index, skip, site, n).Going?
    ensures n < |Outlinks(After(index, skip, site, n).pages)|
  {
    if n == 0 {
      var p := Load(site, index).page;
      assert After(index, skip, site, 0) == Going([p], [index]);
    } else {
      var prev := After(index, skip, site, n - 1);
      assert n < |Outlinks(prev.pages)|;
      var h := Outlinks(prev.pages)[n - 1].href;
      if !skip(h) && h !in prev.fetched && Load(site, h).Loaded? {
        LoopLoad(index, skip, site, n - 1, prev.pages, prev.fetched, h);
      }
    }
  }

  /** Whatever the site, the as-written crawl's result has the shape AsWrittenOutcome describes. */
  lemma AsWrittenMeaning(index: string, skip: string -> bool, site: Site, n: nat)
    requires AsWrittenHalts(index, skip, site, n)
    ensures AsWrittenOutcome(index, skip, site, AsWrittenResult(index, skip, site, n).0, AsWrittenResult(index, skip, site, n).1)
  {
    if !skip(index) && !(Load(site, index).Loaded? && Load(site, index).page.links == []) {
      AfterIsFirstVisits(index, skip, site, n);
      match After(index, skip, site, n)
      case Going(pages, fetched) =>
        AsWrittenNeverPastEnd(index, skip, site, n);
        AsWrittenOutcomeOfEnd(index, skip, site, n, pages, fetched);
      case Stopped(fetched, msg) =>
        AsWrittenOutcomeOfStop(index, skip, site, n, fetched, msg);
    }
  }

  /** A loop that ran out of links returns the pages it logged. */
  lemma AsWrittenOutcomeOfEnd(index: string, skip: string -> bool, site: Site, n: nat, pages: seq<Snapshot>, fetched: seq<string>)
    requires !skip(index) && Load(site, index).Loaded? && Load(site, index).page.links != []
    requires AfterFacts(index, skip, site, n, Going(pages, fetched))
    requires n + 1 == |Outlinks(pages)|
    ensures AsWrittenOutcome(index, skip, site, Crawled(pages), fetched)
  {
    assert Min(n, |Outlinks(pages)|) == n;
  }

  /** A loop that stopped on a page that failed to load throws the browser's exception. */
  lemma AsWrittenOutcomeOfStop(index: string, skip: string -> bool, site: Site, n: nat, fetched: seq<string>, msg: string)
    requires !skip(index) && !(Load(site, index).Loaded? && Load(site, index).page.links == [])
    requires AfterFacts(index, skip, site, n, Stopped(fetched, msg))
    ensures AsWrittenOutcome(index, skip, site, Aborted(Runtime(msg)), fetched)
  {
  }

  /** The loop went on after every look before the last. */
  lemma {:induction false} AsWrittenRanThroughAll(index: string, skip: string -> bool, site: Site, n: nat, m: nat)
    requires AsWrittenRanThrough(index, skip, site, n) && m < n
    ensures AsWrittenGoesOn(index, skip, site, m)
    decreases n
  {
    if m < n - 1 {
      AsWrittenRanThroughAll(index, skip, site, n - 1, m);
    }
  }

  /** The as-written loop stops after exactly one number of looks. */
  lemma AsWrittenHaltsOnce(index: string, skip: string -> bool, site: Site, n: nat, k: nat)
    requires AsWrittenRanThrough(index, skip, site, n) && !AsWrittenGoesOn(index, skip, site, n)
    requires AsWrittenRanThrough(index, skip, site, k) && !AsWrittenGoesOn(index, skip, site, k)
    ensures n == k
  {
    if n < k {
      AsWrittenRanThroughAll(index, skip, site, k, n);
    } else if k < n {
      AsWrittenRanThroughAll(index, skip, site, n, k);
    }
  }

  // ---------------------------------------------------------------------------
  // The corrected loop

  /** The corrected loop goes on after `m` looks while any link of the stream is left. */
  predicate CorrectedGoesOn(index: string, skip: string -> bool, site: Site, m: nat) {
    After(index, skip, site, m).Going? && m < |Outlinks(After(index, skip, site, m).pages)|
  }

  /** The corrected loop went on after each of the first `n` looks. */
  predicate CorrectedRanThrough(index: string, skip: string -> bool, site: Site, n: nat) {
    n == 0 || (CorrectedRanThrough(index, skip, site, n - 1) && CorrectedGoesOn(index, skip, site, n - 1))
  }

  /** `n` is the number of links the corrected loop looks at before it returns. */
  predicate CorrectedHalts(index: string, skip: string -> bool, site: Site, n: nat) {
    if !skip(index) && Load(site, index).Loaded? then
      CorrectedRanThrough(index, skip, site, n) && !CorrectedGoesOn(index, skip, site, n)
    else n == 0
  }

  /** What the corrected crawl returns when its loop looks at `n` links. */
  function CorrectedResult(index: string, skip: string -> bool, site: Site, n: nat): (CrawlResult, seq<string>) {
    if skip(index) then (Crawled([]), []) else Report(After(index, skip, site, n))
  }

  lemma CorrectedOnceMore(index: string, skip: string -> bool, site: Site, n: nat, pages: seq<Snapshot>, fetched: seq<string>)
    requires CorrectedRanThrough(index, skip, site, n)
    requires After(index, skip, site, n) == Going(pages, fetched) && n < |Outlinks(pages)|
    ensures CorrectedRanThrough(index, skip, site, n + 1)
  {
  }

  /** The crawl loop with both defects removed: it takes the next link inside the loop. */
  method CrawlCorrected(index: string, skip: string -> bool, site: Site)
    returns (r: CrawlResult, fetched: seq<string>, ghost looked: nat)
    ensures CorrectedHalts(index, skip, site, looked)
    ensures (r, fetched) == CorrectedResult(index, skip, site, looked)
    ensures CorrectedOutcome(index, skip, site, r, fetched)
  {
    looked := 0;
    fetched := [];
    if skip(index) {
      return Crawled([]), fetched, looked;
    }
    fetched := [index];
    var first := Load(site, index);
    if first.Broken? {
      return Aborted(Runtime(first.msg)), fetched, looked;
    }
    var pages := [first.page];
    var toCrawl := first.page.links;
    ghost var e := toCrawl;
    while |toCrawl| > 0
      invariant e == Outlinks(pages)
      invariant looked <= |e|
      invariant After(index, skip, site, looked) == Going(pages, fetched)
      invariant CorrectedRanThrough(index, skip, site, looked)
      invariant |fetched| <= |site.Keys|
      invariant toCrawl == e[looked..]
      decreases |site.Keys| - |fetched|, |toCrawl|
    {
      CorrectedOnceMore(index, skip, site, looked, pages, fetched);
      Dequeue(e, toCrawl, looked);
      var link := toCrawl[0];
      toCrawl := toCrawl[1..];
      var h := link.href;
      if !skip(h) && h !in fetched {
        var got := Load(site, h);
        if got.Broken? {
          LoopBroken(index, skip, site, looked, pages, fetched, h);
          fetched := fetched + [h];
          looked := looked + 1;
          CorrectedMeaning(index, skip, site, looked);
          return Aborted(Runtime(got.msg)), fetched, looked;
        }
        LoopRoom(index, skip, site, looked, pages, fetched, h);
        LoopLoad(index, skip, site, looked, pages, fetched, h);
        AppendSlices(e, got.page.links, looked + 1);
        fetched := fetched + [h];
        pages := pages + [got.page];
        e := e + got.page.links;
        toCrawl := toCrawl + got.page.links;
      } else {
        LoopPass(index, skip, site, looked, pages, fetched);
      }
      looked := looked + 1;
    }
    CorrectedMeaning(index, skip, site, looked);
    return Crawled(pages), fetched, looked;
  }

  /**
    The outcome of a crawl loop that dequeues before it tests the queue: as
    AsWrittenOutcome, except that every discovered link is looked at and an
    index page without links is a one-page crawl.
   */
  predicate CorrectedOutcome(index: string, skip: string -> bool, site: Site, r: CrawlResult, fetched: seq<string>) {
    && (skip(index) ==> r == Crawled([]) && fetched == [])
    && (!skip(index) ==> Fetches(index, skip, fetched))
    && (r.Crawled? && !skip(index) ==>
          && Logged(site, r.pages, fetched)
          && fetched == [index] + FirstVisits(Outlinks(r.pages), {index}, skip))
    && (r.Aborted? ==>
          && !skip(index)
          && (forall i :: 0 <= i < |fetched| - 1 ==> Load(site, fetched[i]).Loaded?)
          && Load(site, fetched[|fetched| - 1]).Broken?
          && r.fault == Runtime(Load(site, fetched[|fetched| - 1]).msg))
  }

  /** While it runs, the corrected loop has looked at no more links than the stream holds. */
  lemma CorrectedNeverPastEnd(index: string, skip: string -> bool, site: Site, n: nat)
    requires CorrectedRanThrough(index, skip, site, n)
    requires After(index, skip, site, n).Going?
    ensures n <= |Outlinks(After(index, skip, site, n).pages)|
  {
    if n > 0 {
      var prev := After(index, skip, site, n - 1);
      var h := Outlinks(prev.pages)[n - 1].href;
      if !skip(h) && h !in prev.fetched && Load(site, h).Loaded? {
        LoopLoad(index, skip, site, n - 1, prev.pages, prev.fetched, h);
      }
    }
  }

  /** Whatever the site, the corrected crawl's result has the shape CorrectedOutcome describes. */
  lemma CorrectedMeaning(index: string, skip: string -> bool, site: Site, n: nat)
    requires CorrectedHalts(index, skip, site, n)
    ensures CorrectedOutcome(index, skip, site, CorrectedResult(index, skip, site, n).0, CorrectedResult(index, skip, site, n).1)
  {
    if !skip(index) {
      AfterIsFirstVisits(index, skip, site, n);
      match After(index, skip, site, n)
      case Going(pages, fetched) =>
        CorrectedNeverPastEnd(index, skip, site, n);
        CorrectedOutcomeOfEnd(index, skip, site, n, pages, fetched);
      case Stopped(fetched, msg) =>
    }
  }

  /** A loop that ran out of links returns the pages it logged. */
  lemma CorrectedOutcomeOfEnd(index: string, skip: string -> bool, site: Site, n: nat, pages: seq<Snapshot>, fetched: seq<string>)
    requires !skip(index)
    requires AfterFacts(index, skip, site, n, Going(pages, fetched))
    requires n == |Outlinks(pages)|
    ensures CorrectedOutcome(index, skip, site, Crawled(pages), fetched)
  {
    var e := Outlinks(pages);
    assert Min(n, |e|) == n;
    assert e[..n] == e;
  }

  /**
    The corrected crawl follows every link: an href that is not ignored and
    appears on any crawled page has been fetched.
   */
  lemma CorrectedFollowsEveryLink(index: string, skip: string -> bool, site: Site, n: nat, i: nat, l: Link)
    requires CorrectedHalts(index, skip, site, n)
    requires CorrectedResult(index, skip, site, n).0.Crawled?
    requires i < |CorrectedResult(index, skip, site, n).0.pages|
    requires l in CorrectedResult(index, skip, site, n).0.pages[i].links && !skip(l.href)
    ensures l.href in CorrectedResult(index, skip, site, n).1
  {
    var (r, fetched) := CorrectedResult(index, skip, site, n);
    CorrectedMeaning(index, skip, site, n);
    var e := Outlinks(r.pages);
    OutlinksHas(r.pages, i, l);
    FirstVisitsCovers(e, {index}, skip);
    var j :| 0 <= j < |e| && e[j] == l;
    assert l.href == index || l.href in FirstVisits(e, {index}, skip);
  }

  /** The loop went on after every look before the last. */
  lemma {:induction false} CorrectedRanThroughAll(index: string, skip: string -> bool, site: Site, n: nat, m: nat)
    requires CorrectedRanThrough(index, skip, site, n) && m < n
    ensures CorrectedGoesOn(index, skip, site, m)
    decreases n
  {
    if m < n - 1 {
      CorrectedRanThroughAll(index, skip, site, n - 1, m);
    }
  }

  /** The corrected loop stops after exactly one number of looks. */
  lemma CorrectedHaltsOnce(index: string, skip: string -> bool, site: Site, n: nat, k: nat)
    requires CorrectedRanThrough(index, skip, site, n) && !CorrectedGoesOn(index, skip, site, n)
    requires CorrectedRanThrough(index, skip, site, k) && !CorrectedGoesOn(index, skip, site, k)
    ensures n == k
  {
    if n < k {
      CorrectedRanThroughAll(index, skip, site, k, n);
    } else if k < n {
      CorrectedRanThroughAll(index, skip, site, n, k);
    }
  }

  // ---------------------------------------------------------------------------
  // Where the two loops part

  /** As written, an index page without links ends in IndexOutOfBoundsException. */
  lemma AsWrittenIndexWithoutLinks(index: string, skip: string -> bool, site: Site, n: nat, p: Snapshot)
    requires !skip(index) && Load(site, index) == Loaded(p) && p.links == []
    requires AsWrittenHalts(index, skip, site, n)
    ensures AsWrittenResult(index, skip, site, n) == (Aborted(IndexOutOfBounds), [index])
  {
  }

  /** Corrected, an index page without links is a crawl of that one page. */
  lemma CorrectedIndexWithoutLinks(index: string, skip: string -> bool, site: Site, n: nat, p: Snapshot)
    requires !skip(index) && Load(site, index) == Loaded(p) && p.links == []
    requires CorrectedHalts(index, skip, site, n)
    ensures CorrectedResult(index, skip, site, n) == (Crawled([p]), [index])
  {
    CorrectedHaltsOnce(index, skip, site, n, 0);
  }

  /**
    As written, the last link the loop dequeues is never looked at: an index
    page whose only link leads to a loadable page `b` yields the index page
    alone, and `b` is never fetched.
   */
  lemma AsWrittenDropsLastLink(index: string, b: string, text: string, skip: string -> bool, site: Site, n: nat, ip: Snapshot, bp: Snapshot)
    requires index != b && !skip(index) && !skip(b)
    requires Load(site, index) == Loaded(ip) && ip.links == [Link(text, b)]
    requires Load(site, b) == Loaded(bp) && bp.links == []
    requires AsWrittenHalts(index, skip, site, n)
    ensures AsWrittenResult(index, skip, site, n) == (Crawled([ip]), [index])
    ensures b !in AsWrittenResult(index, skip, site, n).1
  {
    AsWrittenHaltsOnce(index, skip, site, n, 0);
  }

  /** Corrected, the same site yields both pages. */
  lemma CorrectedFollowsLastLink(index: string, b: string, text: string, skip: string -> bool, site: Site, n: nat, ip: Snapshot, bp: Snapshot)
    requires index != b && !skip(index) && !skip(b)
    requires Load(site, index) == Loaded(ip) && ip.links == [Link(text, b)]
    requires Load(site, b) == Loaded(bp) && bp.links == []
    requires CorrectedHalts(index, skip, site, n)
    ensures CorrectedResult(index, skip, site, n) == (Crawled([ip, bp]), [index, b])
  {
    TwoPageRun(index, b, text, skip, site, ip, bp);
    CorrectedHaltsOnce(index, skip, site, n, 1);
  }

  /** On that site the corrected loop looks at one link, which loads `b`, and then stops. */
  lemma TwoPageRun(index: string, b: string, text: string, skip: string -> bool, site: Site, ip: Snapshot, bp: Snapshot)
    requires index != b && !skip(b)
    requires Load(site, index) == Loaded(ip) && ip.links == [Link(text, b)]
    requires Load(site, b) == Loaded(bp) && bp.links == []
    ensures After(index, skip, site, 1) == Going([ip, bp], [index, b])
    ensures CorrectedRanThrough(index, skip, site, 1) && !CorrectedGoesOn(index, skip, site, 1)
  {
    TwoPageStep(index, b, text, skip, site, ip, bp);
    assert CorrectedRanThrough(index, skip, site, 1);
  }

  lemma TwoPageStep(index: string, b: string, text: string, skip: string -> bool, site: Site, ip: Snapshot, bp: Snapshot)
    requires index != b && !skip(b)
    requires Load(site, index) == Loaded(ip) && ip.links == [Link(text, b)]
    requires Load(site, b) == Loaded(bp) && bp.links == []
    ensures CorrectedGoesOn(index, skip, site, 0)
    ensures After(index, skip, site, 1) == Going([ip, bp], [index, b])
    ensures |Outlinks([ip, bp])| == 1
  {
    assert After(index, skip, site, 0) == Going([ip], [index]);
    LoopLoad(index, skip, site, 0, [ip], [index], b);
    assert [ip] + [bp] == [ip, bp] && [index] + [b] == [index, b];
  }
}
