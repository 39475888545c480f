/** What every step of the crawl keeps, and what that says about a crawl that ran to its end. */
module CrawlInvariants {
  import opened Options
  import opened CrawlModel

  // ---------- Keys: everything found is found once ----------

  ghost predicate DistinctKeys(site: Site, urls: seq<Url>) {
    forall i, j | 0 <= i < j < |urls| :: site.key(urls[i]) != site.key(urls[j])
  }

  ghost function KeysOf(site: Site, urls: seq<Url>): set<Key> {
    set u | u in urls :: site.key(u)
  }

  /** Every url ever found: those marked seen by the seed chain or dequeued, then those waiting. */
  function Found(c: Crawl): seq<Url> {
    c.visited + c.queue
  }

  ghost predicate FoundOnce(site: Site, c: Crawl) {
    DistinctKeys(site, Found(c)) && c.seen == KeysOf(site, Found(c))
  }

  /** Every visited url is in exactly one place: reported once, in flight, or skipped. */
  ghost predicate Partitioned(c: Crawl) {
    && (forall i | 0 <= i < |c.reported| ::
          c.reported[i].url in c.visited && c.reported[i].url !in c.inFlight && c.reported[i].url !in c.skipped)
    && (forall i, j | 0 <= i < j < |c.reported| :: c.reported[i].url != c.reported[j].url)
    && (forall u | u in c.inFlight + c.skipped :: u in c.visited)
    && c.inFlight !! c.skipped
    && (forall u | u in c.visited :: u in c.inFlight || u in c.skipped || IsReported(c, u))
    && (!c.stopping ==> c.skipped == {})
  }

  ghost predicate IsReported(c: Crawl, url: Url) {
    exists i :: 0 <= i < |c.reported| && c.reported[i].url == url
  }

  ghost predicate Counted(config: Config, c: Crawl) {
    && c.claimed == |c.reported| + |c.inFlight|
    && PagesTotal(c.stats) == |c.reported|
    && c.hops <= |c.reported|
    && (config.maxPages.Some? ==> c.claimed <= config.maxPages.value || c.claimed <= c.hops + 1)
    && (c.stopping ==> c.aborted || BudgetSpent(config, c))
  }

  predicate BudgetSpent(config: Config, c: Crawl) {
    config.maxPages.Some? && c.claimed >= config.maxPages.value
  }

  /** The links of a reported page that the crawl follows are all seen; so is every hop of the seed chain. */
  ghost predicate LinksSeen(site: Site, anchor: Url, c: Crawl) {
    forall i, link | 0 <= i < |c.reported| && link in c.reported[i].links ::
      Admitted(site, anchor, link) || i < c.hops ==> site.key(link) in c.seen
  }

  /** `url` is the seed or a link of one of `pages`. */
  ghost predicate Known(start: Url, pages: seq<PageResult>, url: Url) {
    url == start || exists j :: 0 <= j < |pages| && url in pages[j].links
  }

  ghost predicate Traced(start: Url, c: Crawl) {
    && (forall i | 0 <= i < |c.reported| :: Known(start, c.reported[..i], c.reported[i].url))
    && (forall u | u in Found(c) :: Known(start, c.reported, u))
  }

  /** Every reported page is what fetching its url came to. */
  ghost predicate Faithful(site: Site, c: Crawl) {
    forall i | 0 <= i < |c.reported| :: c.reported[i] == PageOf(site, c.reported[i].url)
  }

  // ---------- What a page says about its site ----------

  /** Fetching `from` redirects to `to` (RFC 9110, section 15.4). */
  predicate Redirects(site: Site, from: Url, to: Url) {
    match site.fetch(from)
    case Fetched(result) =>
      && result.status in {301, 302, 303, 307, 308}
      && result.location != "" && site.resolve(result.location, from) == Some(to)
    case _ => false
  }

  /** `from` redirects to `to`, or `to` is a link in its body. */
  predicate PointsTo(site: Site, from: Url, to: Url) {
    match site.fetch(from)
    case Fetched(result) =>
      if result.status in {301, 302, 303, 307, 308} then Redirects(site, from, to)
      else site.extract(result.body, from).Some? && to in site.extract(result.body, from).value
    case _ => false
  }

  /**
   * The page reports what its url answered: the error, the redirect's one target or none, or every link of the body.
   */
  ghost predicate AsFetched(site: Site, page: PageResult) {
    match site.fetch(page.url)
    case Raised => page == PageResult(page.url, None, [], Some(Internal))
    case Failed(error) => page == PageResult(page.url, error.status, [], Some(error.kind))
    case Fetched(result) =>
      if result.status in {301, 302, 303, 307, 308} then
        && page.status == Some(result.status) && page.error == None && |page.links| <= 1
        && forall to :: to in page.links <==> Redirects(site, page.url, to)
      else
        match site.extract(result.body, page.url)
        case None => page == PageResult(page.url, None, [], Some(Internal))
        case Some(links) => page == PageResult(page.url, Some(result.status), links, None)
  }

  lemma PagesAreAsFetched(site: Site, url: Url)
    ensures PageOf(site, url).url == url && AsFetched(site, PageOf(site, url))
    ensures forall to :: to in PageOf(site, url).links <==> PointsTo(site, url, to)
  {
  }

  // ---------- What adding links does ----------

  lemma {:induction false} AddLinksFacts(site: Site, anchor: Url, c: Crawl, links: seq<Url>)
    requires FoundOnce(site, c)
    ensures var r := AddLinks(site, anchor, c, links);
            && FoundOnce(site, r) && c.queue <= r.queue && c.seen <= r.seen
            && r == c.(seen := r.seen, queue := r.queue, duplicates := r.duplicates,
                       unfinished := c.unfinished + |r.queue| - |c.queue|)
            && (forall l | l in links && Admitted(site, anchor, l) :: site.key(l) in r.seen)
            && (forall u | u in r.queue :: u in c.queue || u in links)
  {
    if |links| > 0 {
      var before, link := links[..|links| - 1], links[|links| - 1];
      AddLinksFacts(site, anchor, c, before);
      var mid := AddLinks(site, anchor, c, before);
      AddLinkFacts(site, anchor, mid, link);
      assert links == before + [link];
    }
  }

  lemma AddLinkFacts(site: Site, anchor: Url, c: Crawl, link: Url)
    requires FoundOnce(site, c)
    ensures var r := AddLink(site, anchor, c, link);
            && FoundOnce(site, r) && c.queue <= r.queue && c.seen <= r.seen
            && r == c.(seen := r.seen, queue := r.queue, duplicates := r.duplicates,
                       unfinished := c.unfinished + |r.queue| - |c.queue|)
            && (Admitted(site, anchor, link) ==> site.key(link) in r.seen)
            && (forall u | u in r.queue :: u in c.queue || u == link)
  {
    var r := AddLink(site, anchor, c, link);
    if r.queue != c.queue {
      assert Found(r) == Found(c) + [link];
      forall i | 0 <= i < |Found(c)| ensures site.key(Found(c)[i]) != site.key(link) {
        assert Found(c)[i] in Found(c);
      }
      assert KeysOf(site, Found(r)) == KeysOf(site, Found(c)) + {site.key(link)};
    }
  }

  /** The page a settled url is reported with. */
  function PageOf(site: Site, url: Url): PageResult {
    match site.fetch(url)
    case Raised => PageResult(url, None, [], Some(Internal))
    case Failed(error) => PageResult(url, error.status, [], Some(error.kind))
    case Fetched(result) =>
      match LinksOf(site, url, result)
      case None => PageResult(url, None, [], Some(Internal))
      case Some(links) => PageResult(url, Some(result.status), links, None)
  }

  /** Settling a url reports `page`, counts it once, and finds exactly its admitted links not seen before. */
  ghost predicate Settles(site: Site, anchor: Url, c: Crawl, url: Url, page: PageResult, r: Crawl) {
    && FoundOnce(site, r) && c.queue <= r.queue && c.seen <= r.seen
    && r.reported == c.reported + [page]
    && PagesTotal(r.stats) == PagesTotal(c.stats) + 1
    && r.unfinished - |r.queue| == c.unfinished - |c.queue|
    && r.claimed == c.claimed && r.visited == c.visited && r.hops == c.hops
    && r.inFlight == c.inFlight - {url} && r.skipped == c.skipped && (c.stopping ==> r.stopping)
    && (c.aborted ==> r.aborted) && (r.stopping ==> c.stopping || r.aborted)
    && (forall l | l in page.links && Admitted(site, anchor, l) :: site.key(l) in r.seen)
    && (forall u | u in r.queue :: u in c.queue || u in page.links)
  }

  lemma SettleFetched(site: Site, anchor: Url, config: Config, c: Crawl, url: Url, result: FetchResult, links: seq<Url>)
    requires FoundOnce(site, c) && site.fetch(url) == Fetched(result) && LinksOf(site, url, result) == Some(links)
    ensures Settles(site, anchor, c, url, PageOf(site, url), Settle(site, anchor, config, c, url))
  {
    var reported := Report(Success(c, result, links), PageOf(site, url));
    assert Found(reported) == Found(c);
    AddLinksFacts(site, anchor, reported, links);
    var added := AddLinks(site, anchor, reported, links);
    var r := Settle(site, anchor, config, c, url);
    assert r == added.(stats := added.stats.(duplicatesDropped := added.duplicates), inFlight := c.inFlight - {url});
    assert Found(r) == Found(added);
  }

  lemma SettleWithoutLinks(site: Site, anchor: Url, config: Config, c: Crawl, url: Url)
    requires site.fetch(url).Fetched? ==> LinksOf(site, url, site.fetch(url).result).None?
    ensures var r := Settle(site, anchor, config, c, url);
            && r == c.(reported := c.reported + [PageOf(site, url)], stats := r.stats, failures := r.failures,
                       stopping := r.stopping, aborted := r.aborted, reason := r.reason, inFlight := c.inFlight - {url})
            && PagesTotal(r.stats) == PagesTotal(c.stats) + 1 && (c.stopping ==> r.stopping)
            && (c.aborted ==> r.aborted) && (r.stopping ==> c.stopping || r.aborted)
  {
    var r := Settle(site, anchor, config, c, url);
    assert exists kind :: r.stats.pagesFailed == c.stats.pagesFailed + multiset{kind};
  }

  lemma SettleUnfetched(site: Site, anchor: Url, config: Config, c: Crawl, url: Url)
    requires FoundOnce(site, c)
    requires site.fetch(url).Fetched? ==> LinksOf(site, url, site.fetch(url).result).None?
    ensures Settles(site, anchor, c, url, PageOf(site, url), Settle(site, anchor, config, c, url))
  {
    SettleWithoutLinks(site, anchor, config, c, url);
    assert Found(Settle(site, anchor, config, c, url)) == Found(c);
  }

  lemma SettleFacts(site: Site, anchor: Url, config: Config, c: Crawl, url: Url)
    requires FoundOnce(site, c)
    ensures Settles(site, anchor, c, url, PageOf(site, url), Settle(site, anchor, config, c, url))
  {
    var answer := site.fetch(url);
    if answer.Fetched? && LinksOf(site, url, answer.result).Some? {
      SettleFetched(site, anchor, config, c, url, answer.result, LinksOf(site, url, answer.result).value);
    } else {
      SettleUnfetched(site, anchor, config, c, url);
    }
  }

  // ---------- The invariant and the two steps ----------

  ghost predicate Inv(site: Site, anchor: Url, config: Config, start: Url, c: Crawl) {
    && FoundOnce(site, c) && Partitioned(c) && Counted(config, c)
    && LinksSeen(site, anchor, c) && Traced(start, c) && Faithful(site, c)
  }

  ghost predicate Pending(c: Crawl) {
    c.unfinished == |c.queue| + |c.inFlight|
  }

  lemma KnownMore(start: Url, pages: seq<PageResult>, more: seq<PageResult>, url: Url)
    requires Known(start, pages, url) && pages <= more
    ensures Known(start, more, url)
  {
    if url != start {
      var j :| 0 <= j < |pages| && url in pages[j].links;
      assert more[j] == pages[j];
    }
  }

  lemma SettleKeepsPartition(c: Crawl, url: Url, page: PageResult, r: Crawl)
    requires Partitioned(c) && url in c.inFlight && page.url == url
    requires r.reported == c.reported + [page] && r.visited == c.visited && r.inFlight == c.inFlight - {url}
    requires r.skipped == c.skipped && (c.stopping ==> r.stopping)
    ensures Partitioned(r)
  {
    assert r.reported[|c.reported|] == page;
    forall u | u in r.visited ensures u in r.inFlight || u in r.skipped || IsReported(r, u) {
      if IsReported(c, u) {
        var i :| 0 <= i < |c.reported| && c.reported[i].url == u;
        assert r.reported[i].url == u;
      }
    }
  }

  lemma SettleKeepsTraces(start: Url, c: Crawl, url: Url, page: PageResult, r: Crawl)
    requires Traced(start, c) && url in c.visited && page.url == url
    requires r.reported == c.reported + [page] && r.visited == c.visited
    requires forall u | u in r.queue :: u in c.queue || u in page.links
    ensures Traced(start, r)
  {
    assert url in Found(c);
    forall i | 0 <= i < |r.reported| ensures Known(start, r.reported[..i], r.reported[i].url) {
      assert r.reported[..i] == c.reported[..i];
      if i == |c.reported| { assert c.reported[..i] == c.reported; }
    }
    forall u | u in Found(r) ensures Known(start, r.reported, u) {
      if u in Found(c) {
        KnownMore(start, c.reported, r.reported, u);
      } else {
        assert u in r.reported[|c.reported|].links;
      }
    }
  }

  lemma SettleKeepsInv(site: Site, anchor: Url, config: Config, start: Url, c: Crawl, url: Url)
    requires Inv(site, anchor, config, start, c) && url in c.inFlight
    ensures Inv(site, anchor, config, start, Settle(site, anchor, config, c, url))
    ensures Settles(site, anchor, c, url, PageOf(site, url), Settle(site, anchor, config, c, url))
  {
    var page, r := PageOf(site, url), Settle(site, anchor, config, c, url);
    SettleFacts(site, anchor, config, c, url);
    SettleKeepsPartition(c, url, page, r);
    SettleKeepsTraces(start, c, url, page, r);
    SettleSeesLinks(site, anchor, c, url, page, r);
  }

  lemma SettleSeesLinks(site: Site, anchor: Url, c: Crawl, url: Url, page: PageResult, r: Crawl)
    requires LinksSeen(site, anchor, c) && Settles(site, anchor, c, url, page, r) && c.hops <= |c.reported|
    ensures LinksSeen(site, anchor, r)
  {
    forall i, link | 0 <= i < |r.reported| && link in r.reported[i].links
      ensures Admitted(site, anchor, link) || i < r.hops ==> site.key(link) in r.seen
    {
      if i < |c.reported| { assert r.reported[i] == c.reported[i]; }
    }
  }

  lemma TaskDoneKeepsInv(site: Site, anchor: Url, config: Config, start: Url, c: Crawl)
    requires Inv(site, anchor, config, start, c) && c.unfinished > 0
    ensures Inv(site, anchor, config, start, TaskDone(c))
  {
    assert Found(TaskDone(c)) == Found(c);
  }

  lemma CompleteKeepsInv(site: Site, anchor: Url, config: Config, start: Url, c: Crawl, url: Url)
    requires Inv(site, anchor, config, start, c) && Pending(c) && url in c.inFlight
    ensures c.unfinished > 0
    ensures Inv(site, anchor, config, start, Complete(site, anchor, config, c, url))
    ensures Pending(Complete(site, anchor, config, c, url))
    ensures Settles(site, anchor, c, url, PageOf(site, url), Settle(site, anchor, config, c, url))
  {
    SettleKeepsInv(site, anchor, config, start, c, url);
    TaskDoneKeepsInv(site, anchor, config, start, Settle(site, anchor, config, c, url));
  }

  lemma TakeKeepsPartition(c: Crawl, url: Url, r: Crawl)
    requires Partitioned(c) && url !in c.visited
    requires r.reported == c.reported && r.visited == c.visited + [url] && (c.stopping ==> r.stopping)
    requires || (r.inFlight == c.inFlight + {url} && r.skipped == c.skipped && r.stopping == c.stopping)
             || (r.inFlight == c.inFlight && r.skipped == c.skipped + {url} && r.stopping)
    ensures Partitioned(r)
  {
    forall u | u in r.visited ensures u in r.inFlight || u in r.skipped || IsReported(r, u) {
      if u in c.visited && IsReported(c, u) {
        var i :| 0 <= i < |c.reported| && c.reported[i].url == u;
        assert r.reported[i].url == u;
      }
    }
  }

  /** Taking a url moves it from the queue to the visited urls, claimed or skipped. */
  lemma TakeFacts(config: Config, c: Crawl)
    requires |c.queue| > 0 && c.unfinished > 0
    ensures var url, r := c.queue[0], Take(config, c);
            && Found(r) == Found(c) && r.seen == c.seen && r.reported == c.reported && r.hops == c.hops
            && r.visited == c.visited + [url] && (c.stopping ==> r.stopping)
            && ((r.inFlight == c.inFlight + {url} && r.skipped == c.skipped && r.stopping == c.stopping)
                || (r.inFlight == c.inFlight && r.skipped == c.skipped + {url} && r.stopping))
  {
    assert c.queue == [c.queue[0]] + c.queue[1..];
  }

  lemma TakeKeepsInv(site: Site, anchor: Url, config: Config, start: Url, c: Crawl)
    requires Inv(site, anchor, config, start, c) && Pending(c) && |c.queue| > 0
    ensures c.unfinished > 0
    ensures Inv(site, anchor, config, start, Take(config, c))
    ensures Pending(Take(config, c))
    ensures c.queue[0] !in c.inFlight
  {
    TakeFacts(config, c);
    NotYetVisited(site, c);
    TakeKeepsPartition(c, c.queue[0], Take(config, c));
    SameFindings(site, anchor, start, c, Take(config, c));
    TakeKeepsCounts(config, c);
  }

  lemma TakeKeepsCounts(config: Config, c: Crawl)
    requires Counted(config, c) && Pending(c) && |c.queue| > 0 && c.queue[0] !in c.inFlight
    ensures Counted(config, Take(config, c)) && Pending(Take(config, c))
  {
  }

  lemma SameFindings(site: Site, anchor: Url, start: Url, c: Crawl, r: Crawl)
    requires FoundOnce(site, c) && LinksSeen(site, anchor, c) && Traced(start, c) && Faithful(site, c)
    requires Found(r) == Found(c) && r.seen == c.seen && r.reported == c.reported && r.hops == c.hops
    ensures FoundOnce(site, r) && LinksSeen(site, anchor, r) && Traced(start, r) && Faithful(site, r)
  {
  }

  lemma NotYetVisited(site: Site, c: Crawl)
    requires FoundOnce(site, c) && |c.queue| > 0
    ensures c.queue[0] !in c.visited
  {
    assert Found(c)[|c.visited|] == c.queue[0];
    forall i | 0 <= i < |c.visited| ensures c.visited[i] != c.queue[0] {
      assert Found(c)[i] == c.visited[i];
    }
  }
}
