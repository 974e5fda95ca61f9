# charles: the crawl engine, modelled in Dafny

charles is a Java library for crawling websites. A crawl produces
`WebPage` snapshots and hands them to a repository: an in-memory list,
JSON files, or an Elasticsearch index. This project models the engine's
logic, with the browser, the file system and the regex engine abstracted
away. It proves what that logic guarantees.

Modelled parts:

- **Value types.** `Link` is an anchor, identified by its href. `Url` is a
  sitemap entry, identified by its loc. `SnapshotWebPage` is a copied page,
  identified by its url.
- **IgnoredPatterns.** Decides whether a URL is skipped, using one of three
  matching rules.
- **The two crawls.** `GraphCrawl` walks the site breadth-first from its
  index page over a work list. `SitemapXmlCrawl` snapshots every entry of a
  sitemap and then quits the browser.
- **The two decorators.** `RetriableCrawl` retries a failing crawl.
  `SwitchableCrawl` falls back to a failsafe crawl.
- **Output formats.** `EsBulkContent` is the newline-delimited body of
  Elasticsearch's `_bulk` request, and `ElasticSearchIndex` formats the
  index URL.
- **Repositories.** `InMemoryRepository` and `JsonFilesRepository`.

The modules follow the Java classes:

| module | file | models |
|---|---|---|
| `Outcomes` | outcomes.dfy | Java null as `Option`, the exceptions the core throws (`Fault`), how a `void crawl()` ends (`Run`) |
| `JavaStrings` | java_strings.dfy | the `java.lang.String` operations the core uses, and `int` formatting |
| `HashSets` | hash_sets.dfy | a `HashSet` whose equality is one string key, kept as a sequence in iteration order |
| `Links` | link.dfy | Link |
| `SitemapUrls` | url.dfy | sitemap/Url, and the `Set<Url>` a sitemap is read into |
| `Snapshots` | snapshot_web_page.dfy | SnapshotWebPage |
| `Ignored` | ignored_patterns.dfy | IgnoredPatterns |
| `Browser` | browser.dfy | what loading an href in the browser yields |
| `GraphCrawl` | graph_crawl.dfy | GraphCrawl.crawl as written, and a corrected loop |
| `SitemapCrawl` | sitemap_xml_crawl.dfy | SitemapXmlCrawl |
| `Scripts` | scripted_crawl.dfy | a wrapped crawl whose calls follow a script, as the Mockito tests stub them |
| `Retriable` | retriable_crawl.dfy | RetriableCrawl |
| `Switchable` | switchable_crawl.dfy | SwitchableCrawl |
| `EsBulk` | es_bulk_content.dfy | EsBulkContent |
| `EsIndex` | elastic_search_index.dfy | ElasticSearchIndex |
| `InMemory` | in_memory_repository.dfy | InMemoryRepository |
| `JsonFiles` | json_files_repository.dfy | JsonFilesRepository |

**The browser.** It is a finite map from hrefs to what loading each href
yields. A load yields either the page's snapshot or a failure with a
message, which the crawl surfaces as a RuntimeException. An href outside
the map fails to load. Because the map is finite, the crawl terminates: it
loads each href at most once.

**GraphCrawl without a fetch count.** `GraphCrawl.crawl` is a method whose
loop follows the Java loop statement for statement. Its result is tied to
a functional description, `After(n)`: the crawl state after the loop has
looked at the first `n` links of the FIFO stream of discovered links. In
that stream, each crawled page's links follow the links of the pages
crawled before it.

**What the code does, stated plainly.** The model follows the code in
these places:

- Link and Url equality are exact string equality on href and loc. There
  is no fragment or trailing-slash normalisation. SitemapXmlOnlineTestCase
  (lines 52-77) expects `page.html` and `page.html#fragment` to make one Url;
  Url.equals (sitemap/Url.java:123) compares the locs as they are, so the
  model makes them two.
- The crawls return whole lists of pages.
- SitemapXmlCrawl does not consult IgnoredPatterns.
- GraphCrawl's loop has the two defects listed under Findings.

## Model

| member | source | states |
|---|---|---|
| Links.Blank | src/main/java/com/amihaiemil/charles/Link.java:43-45 | the default Link has empty text and an empty href |
| Links.Href | src/main/java/com/amihaiemil/charles/Link.java:93-95 | the href is the key of Link: another link equals this one exactly when its href is this key |
| Links.Same | src/main/java/com/amihaiemil/charles/Link.java:68-91 | links that are equal hash alike, and two links are equal exactly when they differ at most in their text |
| Links.HashCode | src/main/java/com/amihaiemil/charles/Link.java:68-74 | the hash is a Java int computed from the href alone |
| Links.SameIsEquivalence | src/main/java/com/amihaiemil/charles/Link.java:68-91 | Link equality is reflexive, symmetric and transitive; changing the text never changes equality; equal links hash alike |
| Links.DifferentHrefsDiffer | src/main/java/com/amihaiemil/charles/Link.java:76-91 | links with different hrefs are unequal, whatever their text |
| Links.DomainPrefix | src/main/java/com/amihaiemil/charles/Link.java:109-113 | the domain prefix is a prefix of the parent location. It is the whole location when there is no "/" at index 8 or later. Otherwise it is cut exactly at the first such "/" and is at least 8 characters long |
| Links.Valid | src/main/java/com/amihaiemil/charles/Link.java:102-120 | a valid link is not a self-reference, does not start with "mailto", and starts with the parent's domain prefix |
| Links.ValidIffOnDomain | src/main/java/com/amihaiemil/charles/Link.java:114-119 | outside the two exclusions, a link is valid if and only if its href starts with the domain prefix |
| Links.ExclusionsAreInvalid | src/main/java/com/amihaiemil/charles/Link.java:103-108 | a mailto href, or the parent itself (ignoring case) bare or followed by "/", "/#" or "#", is never valid |
| Links.DomainOfWebLocation | src/main/java/com/amihaiemil/charles/Link.java:109-113 | for an http:// or https:// location, the domain prefix is the scheme plus the host |
| Links.SameSiteValid | src/main/java/com/amihaiemil/charles/Link.java:102-120 | on an http or https parent without a path, every link into a path of at least three characters on the same host is valid (the path "/" would be the excluded self-reference parent + "/") |
| Links.SchemelessSameSiteValid | src/main/java/com/amihaiemil/charles/Link.java:102-120 | on a parent without a scheme and without "/" whose first character is not "m", every link extending it with a path of at least three characters is valid |
| Links.LinkTestSelfFalse | src/test/java/com/amihaiemil/charles/LinkTestCase.java:40-44 | the parent's own "/#" link and a mailto link are invalid |
| Links.LinkTestSchemeless | src/test/java/com/amihaiemil/charles/LinkTestCase.java:50-58 | the scheme-less same-site link of the test is valid |
| Links.LinkTestWithScheme | src/test/java/com/amihaiemil/charles/LinkTestCase.java:50-58 | the http and https same-site links of the test are valid |
| SitemapUrls.Blank | src/main/java/com/amihaiemil/charles/sitemap/Url.java:42-44 | Url() has all four fields empty |
| SitemapUrls.At | src/main/java/com/amihaiemil/charles/sitemap/Url.java:49-51 | Url(loc) keeps the loc and has empty metadata |
| SitemapUrls.Make | src/main/java/com/amihaiemil/charles/sitemap/Url.java:60-65 | the four-argument constructor puts each argument into its own field, despite the differing argument order |
| SitemapUrls.WithLoc | src/main/java/com/amihaiemil/charles/sitemap/Url.java:92-94 | setLoc changes the loc and no other field |
| SitemapUrls.WithPriority | src/main/java/com/amihaiemil/charles/sitemap/Url.java:98-100 | setPriority changes the priority and no other field |
| SitemapUrls.WithChangefreq | src/main/java/com/amihaiemil/charles/sitemap/Url.java:104-106 | setChangefreq changes the changefreq and no other field |
| SitemapUrls.WithLastmod | src/main/java/com/amihaiemil/charles/sitemap/Url.java:110-112 | setLastmod changes the lastmod and no other field |
| SitemapUrls.Same | src/main/java/com/amihaiemil/charles/sitemap/Url.java:114-129 | Urls that are equal hash alike, and two Urls are equal exactly when they differ at most in lastmod, changefreq and priority |
| SitemapUrls.HashCode | src/main/java/com/amihaiemil/charles/sitemap/Url.java:126-129 | the hash is a Java int computed from the loc alone |
| SitemapUrls.SameIgnoresMetadata | src/main/java/com/amihaiemil/charles/sitemap/Url.java:114-129 | no metadata setter changes equality; equality is symmetric; equal Urls hash alike |
| SitemapUrls.UrlSet | src/main/java/com/amihaiemil/charles/sitemap/Url.java:114-129 | the Set<Url> of a sitemap has one entry per distinct loc, covers every loc of the file, and holds only entries of the file |
| SitemapUrls.DuplicateLocCollapses | src/test/java/com/amihaiemil/charles/sitemap/SitemapXmlTestCase.java:74-77 | two entries with the same loc and different lastmod make a set of size one |
| SitemapUrls.FragmentLocsStayApart | src/main/java/com/amihaiemil/charles/sitemap/Url.java:114-124 | the locs `page.html` and `page.html#fragment` make two entries of the set, where SitemapXmlOnlineTestCase.getsSitemap expects one |
| HashSets.Add | src/main/java/com/amihaiemil/charles/SnapshotWebPage.java:53-56 | adding to a set leaves it unchanged when the key is present, and appends the element otherwise; keys stay unique |
| HashSets.FromSeq | src/main/java/com/amihaiemil/charles/SnapshotWebPage.java:93-98 | a set filled from a list has unique keys, exactly the list's keys, and only elements of the list |
| HashSets.FromSeqKeepsFirst | src/main/java/com/amihaiemil/charles/SnapshotWebPage.java:93-98 | each element the set keeps is the first one in the list with its key |
| HashSets.FromSeqOfUnique | src/main/java/com/amihaiemil/charles/SnapshotWebPage.java:93-98 | filling a set from a list whose keys are already unique keeps the list |
| Snapshots.Blank | src/main/java/com/amihaiemil/charles/SnapshotWebPage.java:41-46 | the default snapshot has empty url, title and text, no links, and a null name |
| Snapshots.Of | src/main/java/com/amihaiemil/charles/SnapshotWebPage.java:48-57 | the snapshot copies the four text fields and holds a set with exactly the live page's link hrefs, each link taken from the live page |
| Snapshots.WithName | src/main/java/com/amihaiemil/charles/SnapshotWebPage.java:63-65 | setName changes the name and no other field |
| Snapshots.WithUrl | src/main/java/com/amihaiemil/charles/SnapshotWebPage.java:70-72 | setUrl changes the url and no other field |
| Snapshots.WithTitle | src/main/java/com/amihaiemil/charles/SnapshotWebPage.java:78-80 | setTitle changes the title and no other field |
| Snapshots.WithTextContent | src/main/java/com/amihaiemil/charles/SnapshotWebPage.java:86-88 | setTextContent changes the text and no other field |
| Snapshots.WithLinks | src/main/java/com/amihaiemil/charles/SnapshotWebPage.java:93-98 | setLinks stores a fresh set with exactly the given hrefs, and changes no other field |
| Snapshots.WithLinksOfSet | src/main/java/com/amihaiemil/charles/SnapshotWebPage.java:93-98 | setLinks given a set stores that same set |
| Snapshots.HashCode | src/main/java/com/amihaiemil/charles/SnapshotWebPage.java:100-106 | the hash is a Java int computed from the url alone |
| Snapshots.Same | src/main/java/com/amihaiemil/charles/SnapshotWebPage.java:100-123 | snapshots that are equal hash alike, and two snapshots are equal exactly when they differ at most in name, title, text and links |
| Snapshots.SameIsEquivalence | src/main/java/com/amihaiemil/charles/SnapshotWebPage.java:100-123 | for any snapshots, equality is reflexive, symmetric and transitive, and equal snapshots hash alike |
| Snapshots.SameIgnoresOtherFields | src/main/java/com/amihaiemil/charles/SnapshotWebPage.java:100-123 | setting name, title, text or links keeps a snapshot equal to the original, and hashing like it |
| Ignored.NoPatterns | src/main/java/com/amihaiemil/charles/IgnoredPatterns.java:43-45 | the default constructor has no patterns |
| Ignored.Of | src/main/java/com/amihaiemil/charles/IgnoredPatterns.java:47-52 | the constructor keeps the given patterns, in order |
| Ignored.AnyAbove | src/main/java/com/amihaiemil/charles/IgnoredPatterns.java:87-91 | the inner loop fails exactly when an index recorded earlier lies beyond the current one |
| Ignored.CheckParts | src/main/java/com/amihaiemil/charles/IgnoredPatterns.java:84-96 | when the parts loop succeeds, every part occurs in the URL |
| Ignored.MatchesAsterisk | src/main/java/com/amihaiemil/charles/IgnoredPatterns.java:80-102 | a pattern without "*" never matches by the glob rule |
| Ignored.CheckPartsSpec | src/main/java/com/amihaiemil/charles/IgnoredPatterns.java:84-96 | the parts loop succeeds if and only if every part occurs in the URL, and the first occurrences never move left of any index already recorded or of each other |
| Ignored.MatchesAsteriskIsGlobSpec | src/main/java/com/amihaiemil/charles/IgnoredPatterns.java:80-102 | the glob rule holds if and only if the pattern has a "*", every part of its Java split occurs in the URL, and the parts' first occurrences are in non-decreasing order |
| Ignored.PrefixGlob | src/main/java/com/amihaiemil/charles/IgnoredPatterns.java:80-102 | a pattern a*b* matches every URL that starts with a and contains b |
| Ignored.LoneStarMatchesEverything | src/main/java/com/amihaiemil/charles/IgnoredPatterns.java:81-101 | "*" splits into no parts and matches every URL |
| Ignored.MatchesRegex | src/main/java/com/amihaiemil/charles/IgnoredPatterns.java:110-118 | a pattern that does not compile never matches |
| Ignored.AnyMatchFrom | src/main/java/com/amihaiemil/charles/IgnoredPatterns.java:60-71 | the loop from a given pattern on answers true if and only if some later pattern matches by one of the three rules |
| Ignored.IsIgnored | src/main/java/com/amihaiemil/charles/IgnoredPatterns.java:59-72 | contains(url) holds if and only if some pattern matches by one of the rules. Case-insensitive equality uses the raw pattern; the glob and regex rules use the trimmed one. With no patterns nothing is ignored |
| Ignored.IgnoredIndependentOfOrder | src/main/java/com/amihaiemil/charles/IgnoredPatterns.java:59-72 | two pattern lists with the same members ignore the same URLs, whatever their order or repetition |
| Ignored.MorePatternsIgnoreMore | src/main/java/com/amihaiemil/charles/IgnoredPatterns.java:59-72 | a URL ignored under some patterns stays ignored when patterns are added |
| JavaStrings.Trim | src/main/java/com/amihaiemil/charles/IgnoredPatterns.java:64-67 | the trimmed pattern has no leading or trailing character at or below a space, and sits inside the pattern; every character cut from either end is at or below a space |
| JavaStrings.TrimIdempotent | src/main/java/com/amihaiemil/charles/IgnoredPatterns.java:64-67 | trimming twice is trimming once |
| JavaStrings.Split | src/main/java/com/amihaiemil/charles/IgnoredPatterns.java:83 | Java's split is the fields between separators with trailing empty fields dropped, and no part holds the separator |
| JavaStrings.IndexOf | src/main/java/com/amihaiemil/charles/IgnoredPatterns.java:85-86 | indexOf is -1 exactly when the part does not occur, and is otherwise the first position where it occurs |
| JavaStrings.IndexOfCharFrom | src/main/java/com/amihaiemil/charles/Link.java:109 | indexOf("/", 8) is -1 exactly when no "/" is at index 8 or later, and otherwise the first such index |
| JavaStrings.EqualsIgnoreCase | src/main/java/com/amihaiemil/charles/Link.java:103-106 | equal strings are equal ignoring case, and strings equal ignoring case have the same length |
| JavaStrings.IntToStringRoundTrip | src/main/java/com/amihaiemil/charles/ElasticSearchIndex.java:77 | the decimal text of the port reads back as the same int |
| GraphCrawl.FirstVisits | src/main/java/com/amihaiemil/charles/GraphCrawl.java:91-101 | the hrefs a FIFO walk crawls are distinct, never ignored, and never among those crawled before |
| GraphCrawl.FirstVisitsCovers | src/main/java/com/amihaiemil/charles/GraphCrawl.java:91-101 | every href of the stream is ignored, was crawled before, or is visited |
| GraphCrawl.FirstVisitsFrom | src/main/java/com/amihaiemil/charles/GraphCrawl.java:96-100 | every visited href comes from the stream of discovered links |
| GraphCrawl.AfterIsFirstVisits | src/main/java/com/amihaiemil/charles/GraphCrawl.java:83-103 | after any number of looks, the loaded hrefs are the index followed by the first visits of the links looked at so far, each loaded once, and the pages are their snapshots in order |
| GraphCrawl.Crawl | src/main/java/com/amihaiemil/charles/GraphCrawl.java:77-105 | crawl() has the outcome AsWrittenMeaning describes. It returns no pages for an ignored index and raises IndexOutOfBoundsException for an index page without links. A failed load surfaces its message. Otherwise it returns the index page followed by the first visits of every discovered link except the last |
| GraphCrawl.CrawlFrom | src/main/java/com/amihaiemil/charles/GraphCrawl.java:88-103 | the while loop, entered with the index page's first link taken off: its result and loaded hrefs are those of the functional description after the number of looks at which the as-written loop stops |
| GraphCrawl.AsWrittenMeaning | src/main/java/com/amihaiemil/charles/GraphCrawl.java:77-105 | the result of crawl(): with an ignored index, no pages and no load. Otherwise the index is loaded first and no href twice or ignored. Pages are exactly the snapshots of the index and of the first visits of every discovered link but the last. A failed load surfaces its message; an index page without links raises IndexOutOfBoundsException |
| GraphCrawl.AsWrittenNeverPastEnd | src/main/java/com/amihaiemil/charles/GraphCrawl.java:89-102 | while the loop runs, a link is still left in the work list, so the remove(0) calls inside the loop never fail |
| GraphCrawl.AsWrittenHaltsOnce | src/main/java/com/amihaiemil/charles/GraphCrawl.java:90-103 | the loop stops after exactly one number of looks |
| GraphCrawl.CrawlCorrected | src/main/java/com/amihaiemil/charles/GraphCrawl.java:77-105 | the corrected loop takes the next link inside the loop, and its result has the outcome CorrectedMeaning describes: the index page followed by the first visits of every discovered link, or the message of the first failed load |
| GraphCrawl.CorrectedMeaning | src/main/java/com/amihaiemil/charles/GraphCrawl.java:77-105 | the corrected result: the index first, no href twice or ignored, and exactly the first visits of every discovered link. A failed load surfaces its message |
| GraphCrawl.CorrectedFollowsEveryLink | src/main/java/com/amihaiemil/charles/GraphCrawl.java:91-101 | a complete corrected crawl has loaded every href that is not ignored and appears on any crawled page |
| GraphCrawl.CorrectedHaltsOnce | src/main/java/com/amihaiemil/charles/GraphCrawl.java:90-103 | the corrected loop stops after exactly one number of looks |
| GraphCrawl.AsWrittenIndexWithoutLinks | src/main/java/com/amihaiemil/charles/GraphCrawl.java:88-89 | as written, an index page without links ends in IndexOutOfBoundsException after loading only the index |
| GraphCrawl.CorrectedIndexWithoutLinks | src/test/java/com/amihaiemil/charles/GraphCrawlITCase.java:74-94 | corrected, an index page without links is a crawl of that one page, as the test expects |
| GraphCrawl.AsWrittenDropsLastLink | src/main/java/com/amihaiemil/charles/GraphCrawl.java:89-103 | as written, when the index page's only link leads to a loadable page, the crawl returns the index page alone and never loads that link |
| GraphCrawl.CorrectedFollowsLastLink | src/main/java/com/amihaiemil/charles/GraphCrawl.java:89-103 | corrected, the same site yields both pages |
| SitemapCrawl.ReadFault | src/main/java/com/amihaiemil/charles/sitemap/SitemapXml.java:56-64 | reading the sitemap throws FileNotFoundException for a missing file and IllegalStateException "Could not parse sitemap.xml" for a malformed one, and nothing when it has entries |
| SitemapCrawl.Open | src/main/java/com/amihaiemil/charles/SitemapXmlCrawl.java:58-82 | the constructors throw exactly when reading the sitemap throws, and throw that exception. Only a missing file makes a browser the crawl started quit, once; a malformed file leaves it running; a handed-in browser is never quit. Otherwise the crawl holds one entry per distinct loc of the file and has not quit |
| SitemapCrawl.AsWrittenMalformedLeaksBrowser | src/main/java/com/amihaiemil/charles/SitemapXmlCrawl.java:66-71 | as written, the PhantomJS constructor given a malformed file throws without quitting the browser it started, while a missing file quits it |
| SitemapCrawl.OpenCorrected | src/main/java/com/amihaiemil/charles/SitemapXmlCrawl.java:58-82 | corrected, a constructor that throws has quit the browser it started exactly once, whichever exception it throws; a successful one is as written |
| SitemapCrawl.CorrectedNeverLeaksBrowser | src/main/java/com/amihaiemil/charles/SitemapXmlCrawl.java:66-71 | corrected, a malformed file quits the started browser once and leaves a handed-in one alone |
| SitemapCrawl.Crawl | src/main/java/com/amihaiemil/charles/SitemapXmlCrawl.java:84-95 | the crawl succeeds if and only if every entry loads and the browser has not been quit yet (or there is no entry to load). Then it returns one snapshot per entry in set order and quits the browser once more. A browser quit by an earlier crawl() throws on the first load; otherwise a failure surfaces the first failing entry's message. A failed crawl does not quit |
| SitemapCrawl.PagesFromDistinctLocations | src/main/java/com/amihaiemil/charles/SitemapXmlCrawl.java:84-95 | the pages of a successful crawl come from pairwise different locations and are no more than the file's entries |
| Scripts.Nth | src/test/java/com/amihaiemil/charles/RetriableCrawlTestCase.java:57-68 | the stubbed call i ends as entry i of the script, the last entry repeats, and an empty script ends normally |
| Retriable.Default | src/main/java/com/amihaiemil/charles/RetriableCrawl.java:56-58 | the default decorator has three trials |
| Retriable.WithTrials | src/main/java/com/amihaiemil/charles/RetriableCrawl.java:65-68 | the decorator keeps the given trials, even when they are zero or negative |
| Retriable.Crawl | src/main/java/com/amihaiemil/charles/RetriableCrawl.java:71-88 | with no trials, nothing is called and a NullPointerException surfaces. Otherwise the wrapped crawl is called until it ends normally, throws a DataExportException, or the trials run out. Every call but the last threw a RuntimeException, the last call's outcome surfaces, and each RuntimeException costs one trial |
| Retriable.SettlesIsUnique | src/main/java/com/amihaiemil/charles/RetriableCrawl.java:71-88 | one crawl() has exactly one outcome: the calls made, the result and the trials left |
| Retriable.CallsBounded | src/main/java/com/amihaiemil/charles/RetriableCrawl.java:74-77 | the wrapped crawl is called at most as often as there are trials, and no call follows a normal end |
| Retriable.TrialsAreNotRestored | src/main/java/com/amihaiemil/charles/RetriableCrawl.java:74-87 | after a crawl() that used up every trial, the next crawl() calls nothing and throws a NullPointerException |
| Retriable.SuccessfulFromFirstTrial | src/test/java/com/amihaiemil/charles/RetriableCrawlTestCase.java:45-51 | a crawl that works is called once |
| Retriable.SuccessfulFromThirdTrial | src/test/java/com/amihaiemil/charles/RetriableCrawlTestCase.java:58-68 | two failures and then success with five trials: three calls, three trials left |
| Retriable.SuccessfulAtLastTrial | src/test/java/com/amihaiemil/charles/RetriableCrawlTestCase.java:75-87 | four failures and then success with five trials: five calls |
| Retriable.ThrowsDeeSecondTime | src/test/java/com/amihaiemil/charles/RetriableCrawlTestCase.java:95-109 | a DataExportException on the second call surfaces after two calls |
| Retriable.FailsAfterAllRetrials | src/test/java/com/amihaiemil/charles/RetriableCrawlTestCase.java:116-128 | a crawl that always fails is called three times and its exception surfaces |
| Switchable.Crawl | src/main/java/com/amihaiemil/charles/SwitchableCrawl.java:62-69 | the initial crawl is called once. The failsafe is called once exactly when the initial crawl threw a RuntimeException, and its outcome then surfaces; otherwise the initial outcome surfaces |
| Switchable.AtMostOneCompletes | src/main/java/com/amihaiemil/charles/SwitchableCrawl.java:62-69 | the failsafe never runs after a normal initial crawl. crawl() ends normally exactly when one of the two crawls does, and an initial DataExportException surfaces without a failsafe call |
| Switchable.InitialCrawlWorksFine | src/test/java/com/amihaiemil/charles/SwitchableCrawlTestCase.java:47-55 | a working initial crawl: one call, no failsafe |
| Switchable.InitialCrawlThrowsDee | src/test/java/com/amihaiemil/charles/SwitchableCrawlTestCase.java:62-76 | an initial DataExportException surfaces and the failsafe is not called |
| Switchable.FailsafeWorksFine | src/test/java/com/amihaiemil/charles/SwitchableCrawlTestCase.java:84-95 | a failing initial crawl is followed by one failsafe call, which ends normally |
| Switchable.BothCrawlsFail | src/test/java/com/amihaiemil/charles/SwitchableCrawlTestCase.java:102-119 | when both fail, the failsafe's exception surfaces |
| EsBulk.New | src/main/java/com/amihaiemil/charles/EsBulkContent.java:55-60 | a null or empty page list is refused with IllegalArgumentException "There must be at least 1 page!"; any other list is kept |
| EsBulk.ActionLine | src/main/java/com/amihaiemil/charles/EsBulkContent.java:72-79 | the action line is one line whenever its category and id are |
| EsBulk.Entry | src/main/java/com/amihaiemil/charles/EsBulkContent.java:80-81 | a page's pair of lines is never empty and ends with "\n" |
| EsBulk.EntryLines | src/main/java/com/amihaiemil/charles/EsBulkContent.java:80-81 | when the category, the url and the JSON text hold no raw "\n" (the category and id are spliced in without escaping), a page's pair of lines splits at "\n" into its action line (with the page url as id, EsBulkContent.java:92-99) and its document |
| EsBulk.Structure | src/main/java/com/amihaiemil/charles/EsBulkContent.java:68-84 | the body is empty exactly when there are no pages; its full meaning is stated by StructureLines |
| EsBulk.BulkLines | src/main/java/com/amihaiemil/charles/EsBulkContent.java:70-82 | the body has two lines per page |
| EsBulk.BulkLinesAt | src/main/java/com/amihaiemil/charles/EsBulkContent.java:72-81 | line 2i is page i's action line, whose id is the page url and is left out when empty; line 2i+1 is page i's JSON document |
| EsBulk.ActionLineOneLine | src/main/java/com/amihaiemil/charles/EsBulkContent.java:74-79 | the action line has no line break when its category and id have none |
| EsBulk.StructureLines | src/main/java/com/amihaiemil/charles/EsBulkContent.java:68-84 | when no page's category, url or JSON text holds a raw "\n", structure() split at "\n" is exactly each page's action line and document in list order, followed by one empty field after the final "\n" |
| EsBulk.StructureEndsWithNewline | src/main/java/com/amihaiemil/charles/EsBulkContent.java:68-84 | for at least one page, the body is not empty and ends with "\n" |
| EsIndex.Default | src/main/java/com/amihaiemil/charles/ElasticSearchIndex.java:54-56 | the default index has an empty node, index name and type, and port 9200 |
| EsIndex.ToString | src/main/java/com/amihaiemil/charles/ElasticSearchIndex.java:76-78 | the URL starts with "http://" and ends with "/" followed by the type |
| EsIndex.ToStringRoundTrip | src/main/java/com/amihaiemil/charles/ElasticSearchIndex.java:58-78 | when the node has no ":" or "/" and the index name has no "/", node, port, index name and type can be read back from the URL |
| EsIndex.ToStringInjective | src/main/java/com/amihaiemil/charles/ElasticSearchIndex.java:58-78 | two such indexes with the same URL are the same index |
| InMemory.New | src/main/java/com/amihaiemil/charles/InMemoryRepository.java:47 | a new repository holds no pages |
| InMemory.Export | src/main/java/com/amihaiemil/charles/InMemoryRepository.java:57-62 | exporting a list other than the store itself does not throw; it keeps the stored pages and appends the given pages after them in order |
| InMemory.ExportOwn | src/main/java/com/amihaiemil/charles/InMemoryRepository.java:53-62 | exporting the store's own list (getCrawledPages) ends normally exactly when the store is empty; otherwise it appends the first page once and then throws ConcurrentModificationException |
| InMemory.ExportIsOneBatch | src/main/java/com/amihaiemil/charles/InMemoryRepository.java:57-62 | one export call appends one batch |
| InMemory.ExportAllAppends | src/main/java/com/amihaiemil/charles/InMemoryRepository.java:57-62 | after any sequence of exports, the store is the old pages followed by every batch in order |
| InMemory.FreshStoreIsConcat | src/main/java/com/amihaiemil/charles/InMemoryRepository.java:47-62 | starting from a new repository, the store is exactly the batches concatenated |
| JsonFiles.New | src/main/java/com/amihaiemil/charles/JsonFilesRepository.java:57-62 | the directory ends with "/"; one already ending with "/" is kept, any other gets exactly one "/" appended |
| JsonFiles.NewIsIdempotent | src/main/java/com/amihaiemil/charles/JsonFilesRepository.java:57-62 | normalising a normalised directory changes nothing |
| JsonFiles.PathOf | src/main/java/com/amihaiemil/charles/JsonFilesRepository.java:74 | the file of a page lies in the directory and ends with ".json"; a page without a name goes to "null.json" |
| JsonFiles.Export | src/main/java/com/amihaiemil/charles/JsonFilesRepository.java:69-95 | pages are written in list order, each to directory + name + ".json". export ends normally if and only if every write succeeds. Otherwise the first failing write ends it with a DataExportException naming that page's url, and no later page is tried |

## Left out

- The browser (LiveWebPage, PhantomJS and WebDriver construction) is a finite map from hrefs to snapshots or load failures. Whatever LiveWebPage does to build a snapshot is not modelled. An href outside the map fails to load, which stands for any page that cannot be reached.
- GraphCrawl.Crawl: the ignore test is a parameter `skip` that generalises IgnoredPatterns.contains: any test may be passed, `u => Ignored.IsIgnored(ip, regex, u)` among them, and what is proved holds for every one.
- GraphCrawl.Crawl: the number of links the loop looks at is a ghost out-parameter. The contract is stated through it and the functional description `After`.
- The iteration order of a `HashSet` is unspecified in Java. The model takes the order the caller supplies (a snapshot's links, the sitemap's entries) as the iteration order.
- java.util.regex: `Pattern.compile` and `Matcher.matches` are an uninterpreted `RegexEngine` (which patterns compile, and whether a pattern matches a whole string).
- JavaStrings.EqualsIgnoreCase: folds ASCII letters only, not the full Unicode case folding of `String.equalsIgnoreCase`.
- Links.HashCode, SitemapUrls.HashCode, Snapshots.HashCode: `String.hashCode` is computed here over the string's Unicode scalar values in 32-bit wrap-around arithmetic; Java hashes UTF-16 code units, so the value differs for characters outside the Basic Multilingual Plane. Only equal keys are proved to hash alike, not any particular hash value.
- Strings are sequences of Unicode scalar values, while a Java `String` is a sequence of UTF-16 code units. Positions (`indexOf`, `substring`, the index 8 of Links.DomainPrefix) and lengths therefore agree with Java only for text inside the Basic Multilingual Plane; a character outside it counts as one position here and two in Java.
- Null: a Link's href, a Url's loc and a snapshot's url are never null here. The null branches of Link.hashCode/equals and SnapshotWebPage.hashCode/equals, and the NullPointerException of IgnoredPatterns.contains(null) and Url.equals on a null loc, are not modelled; only a snapshot's name may be null.
- Aliasing: `getCrawledPages` returns the list itself and `setLinks` copies its argument. Values here are immutable, so aliasing is modelled only where the code shows it: InMemory.ExportOwn is the one call that passes a repository its own list. Changes a caller makes later to a list it received are not modelled.
- InMemory.Export: the `pages` argument is a list other than the store; exporting the store itself is InMemory.ExportOwn. A null list, which throws NullPointerException at the loop, is not modelled. The message of ConcurrentModificationException is a placeholder.
- JsonWebPage: turning a page into its category and JSON text is the parameter `render`. The IOException it may throw is not modelled.
- EsBulk.Entry: a page's url is taken as its id directly. The `JsonObject` that preparePage builds is not modelled, and neither is the NullPointerException a null url would cause there.
- JsonFiles.Export: whether a file write succeeds is the parameter `writes`. The exists/create/delete steps before the write and the logging are not modelled. A null page name is written as "null".
- ElasticSearchRepository (HTTP calls to Elasticsearch), SitemapXml (JAXB unmarshalling) and SitemapXmlOnline (HTTP download) are I/O. SitemapXmlCrawl's sitemap file is given as what reading it yields: missing, malformed, or its list of entries.
- EsIndex.ToStringRoundTrip: holds only when the node has no ":" or "/" and the index name has no "/". Without those conditions toString is not injective.
- SitemapCrawl.Crawl: what a quit browser throws is the WebDriver's own exception; the model gives it the placeholder message `UsedAfterQuit`. Quitting a browser that has been quit already is counted as another quit.
- Logging is not modelled.
- The per-field getters are not separate members. They are the datatypes' field selectors.
- Constructors that appear only in tests (crawls taking a repository, `JsonFilesRepository(Map)`, `ElasticSearchRepository(String)`) are not part of this model.

## Findings

| source | as written | input that shows it | evidently intended | confidence | as-written member | corrected member |
|---|---|---|---|---|---|---|
| src/main/java/com/amihaiemil/charles/GraphCrawl.java:88-89 | `toCrawl.remove(0)` runs before the loop tests whether the list is empty | an index page without links, as in GraphCrawlITCase.crawlsWithNoMoreLinks | a crawl of that one page (the test expects one page) | high, not executed | GraphCrawl.AsWrittenIndexWithoutLinks | GraphCrawl.CorrectedIndexWithoutLinks |
| src/main/java/com/amihaiemil/charles/GraphCrawl.java:89-103 | the loop takes the next link and then tests whether the list is still non-empty, so the last link taken is never examined | an index page whose only link leads to a second page of the site | both pages crawled | high, not executed | GraphCrawl.AsWrittenDropsLastLink | GraphCrawl.CorrectedFollowsLastLink |
| src/main/java/com/amihaiemil/charles/SitemapXmlCrawl.java:66-71 | only FileNotFoundException is caught before the PhantomJS browser is quit; the IllegalStateException SitemapXml.read throws for a file it cannot parse escapes with the browser still running | a sitemap.xml that is not well-formed XML, given to the PhantomJS constructor | the browser the constructor started is quit before any exception leaves it | medium, not executed | SitemapCrawl.AsWrittenMalformedLeaksBrowser | SitemapCrawl.CorrectedNeverLeaksBrowser |
