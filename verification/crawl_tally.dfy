/** The statistics of a crawl are a tally of what it reported, and no followed link goes uncounted. */
module CrawlTally {
  import opened Options
  import opened CrawlModel
  import opened CrawlInvariants
  import opened CrawlTheorems
  import opened CrawlSeed

  function Total(pages: seq<PageResult>, weight: PageResult -> int): int {
    if |pages| == 0 then 0 else Total(pages[..|pages| - 1], weight) + weight(pages[|pages| - 1])
  }

  lemma TotalOfMore(pages: seq<PageResult>, page: PageResult, weight: PageResult -> int)
    ensures Total(pages + [page], weight) == Total(pages, weight) + weight(page)
  {
    assert (pages + [page])[..|pages|] == pages;
  }

  // ---------- What a page counts for ----------

  predicate IsHop(page: PageResult) {
    page.error.None? && page.status.Some? && page.status.value in {301, 302, 303, 307, 308}
  }

  predicate IsDocument(page: PageResult) {
    page.error.None? && !IsHop(page)
  }

  const FINE := (page: PageResult) => if page.error.None? then 1 else 0
  const HOPS := (page: PageResult) => if IsHop(page) then 1 else 0
  const LINKS := (page: PageResult) => if IsDocument(page) then |page.links| else 0
  const LINKLESS := (page: PageResult) => if IsDocument(page) && page.links == [] then 1 else 0

  function OfKind(kind: FetchErrorKind): PageResult -> int {
    (page: PageResult) => if page.error == Some(kind) then 1 else 0
  }

  /** The attempts beyond the first that fetching the page took. */
  function Retries(site: Site): PageResult -> int {
    (page: PageResult) =>
      match site.fetch(page.url)
      case Fetched(result) => result.attempts - 1
      case Failed(error) => error.attempts - 1
      case Raised => 0
  }

  /** The links that are in scope and allowed by robots, each time they occur. */
  function FollowedIn(site: Site, anchor: Url, links: seq<Url>): nat {
    if |links| == 0 then 0
    else
      var link := links[|links| - 1];
      FollowedIn(site, anchor, links[..|links| - 1])
      + if site.inScope(anchor, link) && site.robotsAllow(anchor, link) then 1 else 0
  }

  function Followed(site: Site, anchor: Url): PageResult -> int {
    (page: PageResult) => FollowedIn(site, anchor, page.links)
  }

  /** Every counter is a total over the reported pages. */
  ghost predicate Tallied(site: Site, c: Crawl) {
    && c.stats.pagesOk == Total(c.reported, FINE)
    && (forall kind :: c.stats.pagesFailed[kind] == Total(c.reported, OfKind(kind)))
    && c.stats.redirects == Total(c.reported, HOPS)
    && c.stats.linksFound == Total(c.reported, LINKS)
    && c.stats.pagesWithoutLinks == Total(c.reported, LINKLESS)
    && c.stats.retries == Total(c.reported, Retries(site))
    && c.stats.duplicatesDropped == c.duplicates
  }

  /** Each followed link of a page behind the chain is a url found by it or a duplicate; the chain found its own. */
  ghost predicate NoLinkLost(site: Site, anchor: Url, c: Crawl) {
    && c.hops <= |c.reported|
    && c.duplicates + |c.visited| + |c.queue| == c.hops + 1 + Total(c.reported[c.hops..], Followed(site, anchor))
  }

  // ---------- What each step does to the tally ----------

  /** `r` reports one page more than `c`, and its counters have grown by what that page counts for. */
  ghost predicate CountsOne(site: Site, c: Crawl, page: PageResult, r: Crawl) {
    && r.reported == c.reported + [page]
    && r.stats.pagesOk == c.stats.pagesOk + FINE(page)
    && (forall kind :: r.stats.pagesFailed[kind] == c.stats.pagesFailed[kind] + OfKind(kind)(page))
    && r.stats.redirects == c.stats.redirects + HOPS(page)
    && r.stats.linksFound == c.stats.linksFound + LINKS(page)
    && r.stats.pagesWithoutLinks == c.stats.pagesWithoutLinks + LINKLESS(page)
    && r.stats.retries == c.stats.retries + Retries(site)(page)
    && r.stats.duplicatesDropped == r.duplicates
  }

  lemma OneMoreOfKind(site: Site, c: Crawl, page: PageResult, r: Crawl)
    requires Tallied(site, c) && CountsOne(site, c, page, r)
    ensures forall kind :: r.stats.pagesFailed[kind] == Total(r.reported, OfKind(kind))
  {
    forall kind ensures r.stats.pagesFailed[kind] == Total(r.reported, OfKind(kind)) {
      TotalOfMore(c.reported, page, OfKind(kind));
    }
  }

  lemma OneMoreTallied(site: Site, c: Crawl, page: PageResult, r: Crawl)
    requires Tallied(site, c) && CountsOne(site, c, page, r)
    ensures Tallied(site, r)
  {
    OneMoreOfKind(site, c, page, r);
    TotalOfMore(c.reported, page, FINE);
    TotalOfMore(c.reported, page, HOPS);
    TotalOfMore(c.reported, page, LINKS);
    TotalOfMore(c.reported, page, LINKLESS);
    TotalOfMore(c.reported, page, Retries(site));
  }

  lemma {:induction false} AddLinksCounts(site: Site, anchor: Url, c: Crawl, links: seq<Url>)
    ensures var r := AddLinks(site, anchor, c, links);
            && r.stats == c.stats && r.visited == c.visited && r.hops == c.hops && r.reported == c.reported
            && r.duplicates + |r.queue| == c.duplicates + |c.queue| + FollowedIn(site, anchor, links)
  {
    if |links| > 0 {
      AddLinksCounts(site, anchor, c, links[..|links| - 1]);
    }
  }

  /** `r` counts the page of `url`, and finds its followed links or drops them as duplicates. */
  ghost predicate CountsPage(site: Site, anchor: Url, c: Crawl, url: Url, r: Crawl) {
    && CountsOne(site, c, PageOf(site, url), r) && r.visited == c.visited && r.hops == c.hops
    && r.duplicates + |r.queue| == c.duplicates + |c.queue| + FollowedIn(site, anchor, PageOf(site, url).links)
  }

  lemma SettleCountsPage(site: Site, anchor: Url, config: Config, c: Crawl, url: Url, result: FetchResult,
                         links: seq<Url>)
    requires c.stats.duplicatesDropped == c.duplicates
    requires site.fetch(url) == Fetched(result) && LinksOf(site, url, result) == Some(links)
    ensures CountsPage(site, anchor, c, url, Settle(site, anchor, config, c, url))
  {
    AddLinksCounts(site, anchor, Report(Success(c, result, links), PageOf(site, url)), links);
  }

  lemma SettleCountsFailure(site: Site, anchor: Url, config: Config, c: Crawl, url: Url)
    requires c.stats.duplicatesDropped == c.duplicates && site.fetch(url).Failed?
    ensures CountsPage(site, anchor, c, url, Settle(site, anchor, config, c, url))
  {
  }

  lemma SettleCountsException(site: Site, anchor: Url, config: Config, c: Crawl, url: Url)
    requires c.stats.duplicatesDropped == c.duplicates && !site.fetch(url).Failed?
    requires site.fetch(url).Fetched? ==> LinksOf(site, url, site.fetch(url).result).None?
    ensures CountsPage(site, anchor, c, url, Settle(site, anchor, config, c, url))
  {
  }

  lemma SettleCounts(site: Site, anchor: Url, config: Config, c: Crawl, url: Url)
    requires c.stats.duplicatesDropped == c.duplicates
    ensures CountsPage(site, anchor, c, url, Settle(site, anchor, config, c, url))
  {
    var answer := site.fetch(url);
    if answer.Fetched? && LinksOf(site, url, answer.result).Some? {
      SettleCountsPage(site, anchor, config, c, url, answer.result, LinksOf(site, url, answer.result).value);
    } else if answer.Failed? {
      SettleCountsFailure(site, anchor, config, c, url);
    } else {
      SettleCountsException(site, anchor, config, c, url);
    }
  }

  lemma SettleTallies(site: Site, anchor: Url, config: Config, c: Crawl, url: Url)
    requires Tallied(site, c)
    ensures Tallied(site, Settle(site, anchor, config, c, url))
  {
    SettleCounts(site, anchor, config, c, url);
    OneMoreTallied(site, c, PageOf(site, url), Settle(site, anchor, config, c, url));
  }

  lemma SettleLosesNoLink(site: Site, anchor: Url, config: Config, c: Crawl, url: Url)
    requires NoLinkLost(site, anchor, c) && c.stats.duplicatesDropped == c.duplicates
    ensures NoLinkLost(site, anchor, Settle(site, anchor, config, c, url))
  {
    var page, r := PageOf(site, url), Settle(site, anchor, config, c, url);
    SettleCounts(site, anchor, config, c, url);
    TotalOfMore(c.reported[c.hops..], page, Followed(site, anchor));
    assert r.reported[r.hops..] == c.reported[c.hops..] + [page];
  }

  lemma StepTallies(site: Site, anchor: Url, config: Config, c: Crawl, next: Crawl)
    requires Tallied(site, c) && NoLinkLost(site, anchor, c) && Step(site, anchor, config, c, next)
    ensures Tallied(site, next) && NoLinkLost(site, anchor, next)
  {
    if !(CanTake(config, c) && next == Take(config, c)) {
      var url :| url in c.inFlight && next == Complete(site, anchor, config, c, url);
      SettleTallies(site, anchor, config, c, url);
      SettleLosesNoLink(site, anchor, config, c, url);
    }
  }

  // ---------- Whole crawls ----------

  lemma FreshIsTallied(site: Site, c: Crawl)
    requires c.reported == [] && c.stats == NO_STATS && c.duplicates == 0
    ensures Tallied(site, c)
  {
  }

  /** The hops of the chain are counted as they are reported. */
  lemma HopTallies(site: Site, c: Crawl, url: Url, result: FetchResult, target: Url)
    requires Tallied(site, c) && site.fetch(url) == Fetched(result) && IsRedirect(result.status)
    ensures Tallied(site, Hop(site, c, url, result, target))
  {
    OneMoreTallied(site, c, PageResult(url, Some(result.status), [target], None), Hop(site, c, url, result, target));
  }

  lemma OpeningLosesNoLink(site: Site, anchor: Url, start: Url, c: Crawl)
    requires Chain(site, start, c)
    ensures NoLinkLost(site, anchor, Opening(c))
  {
    assert c.reported[c.hops..] == [];
  }

  /**
   * At every point of every crawl the counters are totals over the reported pages: the fetched ones, the failed ones of
   * each kind, the redirects, the links and the pages without any, the retries; and every followed link behind the seed
   * chain is a url waiting or taken, or a dropped duplicate.
   */
  lemma {:induction false} StatsAreTallies(site: Site, anchor: Url, config: Config, run: seq<Crawl>, i: nat)
    requires IsRun(site, anchor, config, run) && i < |run|
    requires Tallied(site, run[0]) && NoLinkLost(site, anchor, run[0])
    ensures Tallied(site, run[i]) && NoLinkLost(site, anchor, run[i])
  {
    if i > 0 {
      StatsAreTallies(site, anchor, config, run, i - 1);
      StepTallies(site, anchor, config, run[i - 1], run[i]);
    }
  }

  lemma RunStaysGood(site: Site, anchor: Url, config: Config, run: seq<Crawl>)
    requires IsRun(site, anchor, config, run)
    requires Tallied(site, run[0]) && NoLinkLost(site, anchor, run[0]) && KeepsToRules(site, anchor, run[0])
    ensures var end := run[|run| - 1];
            Tallied(site, end) && NoLinkLost(site, anchor, end) && KeepsToRules(site, anchor, end)
  {
    StatsAreTallies(site, anchor, config, run, |run| - 1);
    RunKeepsToRules(site, anchor, config, run, |run| - 1);
  }

  /** So they are where the workers start. */
  lemma StartIsTallied(site: Site, config: Config, start: Url, url: Url, c: Crawl)
    requires Chain(site, start, c) && Tallied(site, c) && Last(c) == url && ValidConfig(config)
    requires !Handle(site, url, config, c.(inFlight := {url}), url, site.fetch(url)).1
    ensures Tallied(site, Started(site, config, url, c)) && NoLinkLost(site, url, Started(site, config, url, c))
  {
    SeedIsLive(site, config, start, url, c);
    OpeningLosesNoLink(site, url, start, c);
    SettleTallies(site, url, config, Opening(c), url);
    SettleLosesNoLink(site, url, config, Opening(c), url);
  }
}
