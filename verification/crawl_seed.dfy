/** The seed's redirect chain, and why the crawl it opens starts in a good state. */
module CrawlSeed {
  import opened Options
  import opened CrawlModel
  import opened CrawlInvariants
  import opened CrawlTheorems

  /** Where the seed chain ended: at an answer, at a `SeedError`, or in an exception out of the fetch. */
  datatype Landing = Landed(url: Url, answer: Answer) | Rejected(message: string) | Crashed

  /** `_fetch_seed`: the guard is asked first. */
  function Visit(site: Site, url: Url): Landing {
    if site.seedGuard(url).Some? then Rejected("seed rejected: " + site.seedGuard(url).value)
    else if site.fetch(url).Raised? then Crashed
    else Landed(url, site.fetch(url))
  }

  // ---------- The chain, told by its urls ----------

  /** `chain` follows redirects from `start` to new keys only; the guard let every url before the last one pass. */
  ghost predicate Walks(site: Site, start: Url, chain: seq<Url>) {
    && |chain| > 0 && chain[0] == start && DistinctKeys(site, chain)
    && forall k | 0 <= k < |chain| - 1 :: site.seedGuard(chain[k]).None? && Redirects(site, chain[k], chain[k + 1])
  }

  /** Why the walk ends at its last url, when `limit` redirects may be followed in all. */
  ghost predicate StopsAt(site: Site, limit: nat, chain: seq<Url>, landing: Landing)
    requires |chain| > 0
  {
    var last := chain[|chain| - 1];
    match site.seedGuard(last)
    case Some(reason) => landing == Rejected("seed rejected: " + reason)
    case None =>
      if site.fetch(last).Raised? then landing == Crashed
      else if forall target :: !Redirects(site, last, target) then landing == Landed(last, site.fetch(last))
      else if |chain| == limit + 1 then landing == Rejected("Seed redirected too many times")
      else exists k, target ::
             && 0 <= k < |chain| && Redirects(site, last, target) && site.key(target) == site.key(chain[k])
             && landing == Rejected("seed redirect cycle at " + target)
  }

  /** The walk from `start` and how it ends. */
  ghost predicate Ends(site: Site, start: Url, limit: nat, chain: seq<Url>, landing: Landing) {
    Walks(site, start, chain) && |chain| <= limit + 1 && StopsAt(site, limit, chain, landing)
  }

  lemma {:induction false} WalksAgree(site: Site, start: Url, a: seq<Url>, b: seq<Url>, k: nat)
    requires Walks(site, start, a) && Walks(site, start, b) && k < |a| && k < |b|
    ensures a[k] == b[k]
  {
    if k > 0 {
      WalksAgree(site, start, a, b, k - 1);
      assert Redirects(site, a[k - 1], a[k]) && Redirects(site, b[k - 1], b[k]);
    }
  }

  /** A walk that ends cannot be walked further. */
  lemma EndIsLast(site: Site, start: Url, limit: nat, a: seq<Url>, landing: Landing, b: seq<Url>)
    requires Ends(site, start, limit, a, landing) && Walks(site, start, b) && |b| <= limit + 1
    ensures |b| <= |a|
  {
    if |a| < |b| {
      var n := |a| - 1;
      WalksAgree(site, start, a, b, n);
      assert site.seedGuard(b[n]).None? && Redirects(site, b[n], b[n + 1]);
      var k, target :| 0 <= k < |a| && Redirects(site, a[n], target) && site.key(target) == site.key(a[k]);
      WalksAgree(site, start, a, b, k);
      assert false;
    }
  }

  /** Every seed has one chain and one end, so whatever walk of at most `limit` redirects meets the guard decides it. */
  lemma EndIsUnique(site: Site, start: Url, limit: nat, a: seq<Url>, landing: Landing, b: seq<Url>, other: Landing)
    requires Ends(site, start, limit, a, landing) && Ends(site, start, limit, b, other)
    ensures a == b && landing == other
  {
    EndIsLast(site, start, limit, a, landing, b);
    EndIsLast(site, start, limit, b, other, a);
    forall k | 0 <= k < |a| ensures a[k] == b[k] {
      WalksAgree(site, start, a, b, k);
    }
    assert a == b;
  }

  /** A url the guard turns down ends every crawl whose chain comes to it, before it is fetched. */
  lemma GuardDecides(site: Site, start: Url, limit: nat, chain: seq<Url>, landing: Landing, met: seq<Url>)
    requires Ends(site, start, limit, chain, landing)
    requires Walks(site, start, met) && |met| <= limit + 1 && site.seedGuard(met[|met| - 1]).Some?
    ensures chain == met && landing == Rejected("seed rejected: " + site.seedGuard(met[|met| - 1]).value)
  {
    var refused := Rejected("seed rejected: " + site.seedGuard(met[|met| - 1]).value);
    EndIsUnique(site, start, limit, chain, landing, met, refused);
  }

  /** One redirect more, to a key not met before. */
  lemma WalksOn(site: Site, start: Url, chain: seq<Url>, target: Url)
    requires Walks(site, start, chain) && site.seedGuard(chain[|chain| - 1]).None?
    requires Redirects(site, chain[|chain| - 1], target) && site.key(target) !in KeysOf(site, chain)
    ensures Walks(site, start, chain + [target])
  {
    forall i | 0 <= i < |chain| ensures site.key(chain[i]) != site.key(target) {
      assert chain[i] in chain;
    }
  }

  /** Where a landing redirects to, if it does. */
  function TargetOf(site: Site, landing: Landing): Option<Url> {
    match landing
    case Landed(url, Fetched(result)) => RedirectTarget(site, url, result)
    case _ => None
  }

  /** Ends at the guard, at an exception, or where nothing redirects further. */
  lemma EndsHere(site: Site, start: Url, limit: nat, chain: seq<Url>, landing: Landing)
    requires Walks(site, start, chain) && |chain| <= limit + 1 && landing == Visit(site, chain[|chain| - 1])
    requires TargetOf(site, landing).None?
    ensures Ends(site, start, limit, chain, landing)
  {
  }

  /** Ends with a redirect that may not be followed: no hop is left, or its target was met before. */
  lemma EndsRejected(site: Site, start: Url, limit: nat, chain: seq<Url>, target: Url, landing: Landing)
    requires Walks(site, start, chain) && |chain| <= limit + 1
    requires TargetOf(site, Visit(site, chain[|chain| - 1])) == Some(target)
    requires if |chain| == limit + 1 then landing == Rejected("Seed redirected too many times")
             else site.key(target) in KeysOf(site, chain) && landing == Rejected("seed redirect cycle at " + target)
    ensures Ends(site, start, limit, chain, landing)
  {
    assert Redirects(site, chain[|chain| - 1], target);
    if |chain| < limit + 1 {
      var u :| u in chain && site.key(u) == site.key(target);
      var k :| 0 <= k < |chain| && chain[k] == u;
    }
  }

  /** The message of the `SeedError` that a landing comes to, if any. */
  function SeedMessage(site: Site, landing: Landing): Option<string> {
    match landing
    case Rejected(message) => Some(message)
    case Crashed => None
    case Landed(url, Failed(error)) =>
      Some("Could not fetch seed " + url + ": " + KindText(error.kind) + " " + error.message)
    case Landed(url, _) =>
      if site.robotsAllow(url, url) then None
      else Some("robots.txt disallows the seed URL; use --ignore-robots to override")
  }

  /** The page is no redirect, and reading its links raises. */
  predicate Unreadable(site: Site, url: Url) {
    match site.fetch(url)
    case Fetched(result) => result.status !in {301, 302, 303, 307, 308} && site.extract(result.body, url).None?
    case _ => false
  }

  /** The state while the chain is walked: every hop but the last reported, with the next one as its only link. */
  ghost predicate Chain(site: Site, start: Url, c: Crawl) {
    && Walks(site, start, c.visited) && |c.visited| == |c.reported| + 1
    && (forall i | 0 <= i < |c.reported| ::
          && c.reported[i] == PageOf(site, c.visited[i]) && c.reported[i].url == c.visited[i]
          && c.reported[i].links == [c.visited[i + 1]])
    && FoundOnce(site, c)
    && c == FRESH.(seen := c.seen, stats := c.stats, reported := c.reported, visited := c.visited, hops := |c.reported|)
    && PagesTotal(c.stats) == |c.reported|
  }

  function Last(c: Crawl): Url
    requires |c.visited| > 0
  {
    c.visited[|c.visited| - 1]
  }

  /** One reported hop. */
  function Hop(site: Site, c: Crawl, url: Url, result: FetchResult, target: Url): Crawl {
    var stats := Retried(c.stats, result.attempts);
    c.(stats := stats.(pagesOk := stats.pagesOk + 1, redirects := stats.redirects + 1),
       reported := c.reported + [PageResult(url, Some(result.status), [target], None)],
       seen := c.seen + {site.key(target)}, visited := c.visited + [target], hops := c.hops + 1)
  }

  lemma HopKeepsChain(site: Site, start: Url, c: Crawl, result: FetchResult, target: Url)
    requires Chain(site, start, c) && site.fetch(Last(c)) == Fetched(result)
    requires site.seedGuard(Last(c)).None?
    requires RedirectTarget(site, Last(c), result) == Some(target) && site.key(target) !in c.seen
    ensures Chain(site, start, Hop(site, c, Last(c), result, target))
  {
    var r := Hop(site, c, Last(c), result, target);
    assert Found(c) == c.visited && Found(r) == c.visited + [target];
    WalksOn(site, start, c.visited, target);
    assert FoundOnce(site, r) by {
      assert KeysOf(site, Found(r)) == KeysOf(site, Found(c)) + {site.key(target)};
    }
    assert r.reported[|c.reported|] == PageOf(site, Last(c));
  }

  lemma {:induction false} ChainStaysInKeys(site: Site, start: Url, c: Crawl, keys: set<Key>, i: nat)
    requires Chain(site, start, c) && FiniteSite(site, keys) && site.key(start) in keys && i < |c.visited|
    ensures site.key(c.visited[i]) in keys
  {
    if i > 0 {
      assert Redirects(site, c.visited[i - 1], c.visited[i]);
      assert PointsTo(site, c.visited[i - 1], c.visited[i]);
    }
  }

  /** The last page of the chain as a url in flight: from here on the seed is settled like any other. */
  function Opening(c: Crawl): Crawl
    requires |c.visited| > 0
  {
    c.(inFlight := {Last(c)}, claimed := |c.reported| + 1)
  }

  lemma VisitedAreDistinct(site: Site, c: Crawl, i: nat, j: nat)
    requires FoundOnce(site, c) && i < j < |c.visited|
    ensures c.visited[i] != c.visited[j]
  {
    assert Found(c)[i] == c.visited[i] && Found(c)[j] == c.visited[j];
  }

  lemma OpeningIsPartitioned(site: Site, start: Url, c: Crawl)
    requires Chain(site, start, c)
    ensures Partitioned(Opening(c))
  {
    var o := Opening(c);
    forall i, j | 0 <= i < j < |c.visited| ensures c.visited[i] != c.visited[j] {
      VisitedAreDistinct(site, c, i, j);
    }
    forall u | u in o.visited ensures u in o.inFlight || IsReported(o, u) {
      var i :| 0 <= i < |o.visited| && o.visited[i] == u;
      if i < |o.reported| { assert o.reported[i].url == u; }
    }
  }

  lemma OpeningIsTraced(site: Site, start: Url, c: Crawl)
    requires Chain(site, start, c)
    ensures Traced(start, Opening(c))
  {
    var o := Opening(c);
    assert Found(o) == c.visited;
    forall n | 0 <= n < |c.visited|
      ensures Known(start, c.reported[..n], c.visited[n]) && Known(start, c.reported, c.visited[n])
    {
      if n > 0 {
        assert c.reported[n - 1].links == [c.visited[n]] && c.reported[..n][n - 1] == c.reported[n - 1];
      }
    }
  }

  lemma OpeningIsGood(site: Site, anchor: Url, config: Config, start: Url, c: Crawl)
    requires Chain(site, start, c) && ValidConfig(config)
    ensures Inv(site, anchor, config, start, Opening(c)) && FuseExact(site, config, Opening(c))
  {
    var o := Opening(c);
    assert Found(o) == Found(c) == c.visited;
    OpeningIsPartitioned(site, start, c);
    OpeningIsTraced(site, start, c);
    OpeningSeesLinks(site, anchor, start, c);
    assert Marks(site, o) == [];
  }

  lemma OpeningSeesLinks(site: Site, anchor: Url, start: Url, c: Crawl)
    requires Chain(site, start, c)
    ensures LinksSeen(site, anchor, Opening(c))
  {
    var o := Opening(c);
    forall i, link | 0 <= i < |o.reported| && link in o.reported[i].links ensures site.key(link) in o.seen {
      assert link == c.visited[i + 1];
    }
  }

  lemma {:induction false} ClaimedIsUnused(site: Site, anchor: Url, c: Crawl, n: nat, links: seq<Url>)
    ensures AddLinks(site, anchor, c.(claimed := n), links) == AddLinks(site, anchor, c, links).(claimed := n)
  {
    if |links| > 0 { ClaimedIsUnused(site, anchor, c, n, links[..|links| - 1]); }
  }

  /** The code counts the seed's claim after handling it; counting it before comes to the same. */
  lemma HandleIgnoresClaimed(site: Site, anchor: Url, config: Config, c: Crawl, url: Url, answer: Answer, n: nat)
    ensures Handle(site, anchor, config, c.(claimed := n), url, answer)
         == (Handle(site, anchor, config, c, url, answer).0.(claimed := n),
             Handle(site, anchor, config, c, url, answer).1)
  {
    if answer.Fetched? && LinksOf(site, url, answer.result).Some? {
      var links := LinksOf(site, url, answer.result).value;
      var page := PageResult(url, Some(answer.result.status), links, None);
      ClaimedIsUnused(site, anchor, Report(Success(c, answer.result, links), page), n, links);
    }
  }

  /** Where the workers start: the chain's last page handled, then the claims counted as the pages. */
  function Started(site: Site, config: Config, url: Url, c: Crawl): Crawl {
    var handled := Handle(site, url, config, c.(inFlight := {url}), url, site.fetch(url)).0;
    handled.(inFlight := {}, claimed := PagesTotal(handled.stats))
  }

  lemma SeedIsLive(site: Site, config: Config, start: Url, url: Url, c: Crawl)
    requires Chain(site, start, c) && Last(c) == url && ValidConfig(config)
    requires !Handle(site, url, config, c.(inFlight := {url}), url, site.fetch(url)).1
    ensures Started(site, config, url, c) == Settle(site, url, config, Opening(c), url)
    ensures Live(site, url, config, start, Started(site, config, url, c))
  {
    OpeningIsGood(site, url, config, start, c);
    SettleKeepsInv(site, url, config, start, Opening(c), url);
    SettleKeepsFuse(site, url, config, Opening(c), url);
    HandleIgnoresClaimed(site, url, config, c.(inFlight := {url}), url, site.fetch(url), |c.reported| + 1);
  }

  /** Handling the chain's last page, then counting its claim, gives the state the workers start from. */
  lemma SeedOpens(site: Site, config: Config, start: Url, url: Url, c: Crawl, keys: Option<set<Key>>)
    requires Chain(site, start, c) && Last(c) == url && ValidConfig(config)
    requires !Handle(site, url, config, c.(inFlight := {url}), url, site.fetch(url)).1
    requires keys.Some? ==> FiniteSite(site, keys.value) && site.key(start) in keys.value
    requires keys.None? ==> config.maxPages.Some?
    ensures var started := Started(site, config, url, c);
            Live(site, url, config, start, started) && MustEnd(site, config, keys, started)
  {
    SeedIsLive(site, config, start, url, c);
    if keys.Some? {
      SeedSeesOnlyKeys(site, url, config, start, c, keys.value);
    }
  }

  // ---------- Scope and robots ----------

  /** Every url found behind the seed chain is in scope and allowed by robots. */
  ghost predicate KeepsToRules(site: Site, anchor: Url, c: Crawl) {
    && c.hops < |c.visited|
    && forall k | c.hops < k < |c.visited| + |c.queue| ::
         site.inScope(anchor, (c.visited + c.queue)[k]) && site.robotsAllow(anchor, (c.visited + c.queue)[k])
  }

  lemma {:induction false} AddLinksKeepToRules(site: Site, anchor: Url, c: Crawl, links: seq<Url>)
    requires KeepsToRules(site, anchor, c)
    ensures KeepsToRules(site, anchor, AddLinks(site, anchor, c, links))
  {
    if |links| > 0 {
      var mid := AddLinks(site, anchor, c, links[..|links| - 1]);
      AddLinksKeepToRules(site, anchor, c, links[..|links| - 1]);
      SameRules(site, anchor, mid, AddLink(site, anchor, mid, links[|links| - 1]));
    }
  }

  /** At most one url more, which the rules admit. */
  lemma SameRules(site: Site, anchor: Url, c: Crawl, r: Crawl)
    requires KeepsToRules(site, anchor, c) && r.hops == c.hops && |r.visited| >= |c.visited|
    requires r.visited + r.queue == c.visited + c.queue
             || exists link :: site.inScope(anchor, link) && site.robotsAllow(anchor, link)
                               && r.visited + r.queue == c.visited + c.queue + [link]
    ensures KeepsToRules(site, anchor, r)
  {
    assert |r.visited + r.queue| >= |c.visited + c.queue|;
    assert forall k | 0 <= k < |c.visited + c.queue| :: (r.visited + r.queue)[k] == (c.visited + c.queue)[k];
  }

  lemma SettleKeepsToRules(site: Site, anchor: Url, config: Config, c: Crawl, url: Url)
    requires KeepsToRules(site, anchor, c)
    ensures KeepsToRules(site, anchor, Settle(site, anchor, config, c, url))
  {
    var answer := site.fetch(url);
    if answer.Fetched? && LinksOf(site, url, answer.result).Some? {
      var links := LinksOf(site, url, answer.result).value;
      var reported := Report(Success(c, answer.result, links), PageOf(site, url));
      SameRules(site, anchor, c, reported);
      AddLinksKeepToRules(site, anchor, reported, links);
      SameRules(site, anchor, AddLinks(site, anchor, reported, links), Settle(site, anchor, config, c, url));
    } else {
      SettleWithoutLinks(site, anchor, config, c, url);
      SameRules(site, anchor, c, Settle(site, anchor, config, c, url));
    }
  }

  lemma StepKeepsToRules(site: Site, anchor: Url, config: Config, c: Crawl, next: Crawl)
    requires KeepsToRules(site, anchor, c) && Step(site, anchor, config, c, next)
    ensures KeepsToRules(site, anchor, next)
  {
    if CanTake(config, c) && next == Take(config, c) {
      TakeFacts(config, c);
      SameRules(site, anchor, c, next);
    } else {
      var url :| url in c.inFlight && next == Complete(site, anchor, config, c, url);
      SettleKeepsToRules(site, anchor, config, c, url);
      SameRules(site, anchor, Settle(site, anchor, config, c, url), next);
    }
  }

  /** Every interleaving keeps to the scope and to robots.txt: nothing else is ever taken to be fetched. */
  lemma {:induction false} RunKeepsToRules(site: Site, anchor: Url, config: Config, run: seq<Crawl>, i: nat)
    requires IsRun(site, anchor, config, run) && KeepsToRules(site, anchor, run[0]) && i < |run|
    ensures KeepsToRules(site, anchor, run[i])
  {
    if i > 0 {
      RunKeepsToRules(site, anchor, config, run, i - 1);
      StepKeepsToRules(site, anchor, config, run[i - 1], run[i]);
    }
  }

  lemma StartKeepsToRules(site: Site, config: Config, start: Url, url: Url, c: Crawl)
    requires Chain(site, start, c) && Last(c) == url && ValidConfig(config)
    requires !Handle(site, url, config, c.(inFlight := {url}), url, site.fetch(url)).1
    ensures KeepsToRules(site, url, Started(site, config, url, c))
  {
    SeedIsLive(site, config, start, url, c);
    SettleKeepsToRules(site, url, config, Opening(c), url);
  }

  /** What a crawl guarantees at any point, told by what its urls answer. */
  ghost predicate IsSound(site: Site, anchor: Url, config: Config, start: Url, c: Crawl) {
    && (forall i | 0 <= i < |c.reported| :: AsFetched(site, c.reported[i]))
    && (forall i | 0 <= i < |c.reported| :: Reachable(site, start, c.reported, c.reported[i].url))
    && (forall i, j | 0 <= i < j < |c.reported| :: site.key(c.reported[i].url) != site.key(c.reported[j].url))
    && PagesTotal(c.stats) == |c.reported| && c.hops <= |c.reported|
    && (config.maxPages.Some? ==> |c.reported| <= config.maxPages.value || |c.reported| <= c.hops + 1)
    && (c.aborted <==> Tripped(Marks(site, c), config.failureFuse))
    && (c.reason == if c.aborted then Some(config.failureFuse) else None)
    && (c.stopping ==> c.aborted || (config.maxPages.Some? && |c.reported| + |c.inFlight| >= config.maxPages.value))
  }

  lemma LiveIsSound(site: Site, anchor: Url, config: Config, start: Url, c: Crawl)
    requires Live(site, anchor, config, start, c)
    ensures IsSound(site, anchor, config, start, c)
  {
    forall i | 0 <= i < |c.reported|
      ensures AsFetched(site, c.reported[i]) && Reachable(site, start, c.reported, c.reported[i].url)
    {
      ReportedAsFetched(site, c, i);
      ReportedIsReachable(site, start, c, i);
    }
    forall i, j | 0 <= i < j < |c.reported| ensures site.key(c.reported[i].url) != site.key(c.reported[j].url) {
      ReportedOnce(site, c, i, j);
    }
    BudgetOf(config, c);
  }

  /**
   * Every crawl, from any redirect chain and under any interleaving of the workers: once the frontier is drained, all
   * that was reported is what its urls answered, reachable, reported once and within the budget; it is aborted exactly
   * when the fuse condition holds; and unless it was aborted or its budget is spent, whatever its pages point to and it
   * may follow was reported itself.
   */
  lemma EveryCrawlIsComplete(site: Site, config: Config, start: Url, url: Url, c: Crawl, run: seq<Crawl>)
    requires Chain(site, start, c) && Last(c) == url && ValidConfig(config)
    requires !Handle(site, url, config, c.(inFlight := {url}), url, site.fetch(url)).1
    requires IsRun(site, url, config, run) && run[0] == Started(site, config, url, c) && run[|run| - 1].unfinished == 0
    ensures var end := run[|run| - 1];
            && IsSound(site, url, config, start, end) && end.inFlight == {}
            && KeepsToRules(site, url, end) && (!end.stopping ==> Closed(site, url, end))
            && (!end.aborted && (config.maxPages.None? || |end.reported| < config.maxPages.value) ==>
                Closed(site, url, end))
  {
    var end := run[|run| - 1];
    SeedIsLive(site, config, start, url, c);
    RunKeepsLive(site, url, config, start, run, |run| - 1);
    StartKeepsToRules(site, config, start, url, c);
    RunKeepsToRules(site, url, config, run, |run| - 1);
    LiveIsSound(site, url, config, start, end);
    if !end.stopping {
      DrainedIsClosed(site, url, config, start, end);
    }
  }

  lemma SeedSeesOnlyKeys(site: Site, anchor: Url, config: Config, start: Url, c: Crawl, keys: set<Key>)
    requires Chain(site, start, c) && FiniteSite(site, keys) && site.key(start) in keys
    ensures var r := Settle(site, anchor, config, Opening(c), Last(c)); r.seen <= keys && StepsLeft(keys, r) >= 0
  {
    var o, r := Opening(c), Settle(site, anchor, config, Opening(c), Last(c));
    assert Found(o) == Found(c) == c.visited;
    forall k | k in o.seen ensures k in keys {
      var i :| 0 <= i < |c.visited| && site.key(c.visited[i]) == k;
      ChainStaysInKeys(site, start, c, keys, i);
    }
    SettleFacts(site, anchor, config, o, Last(c));
    PagesAreAsFetched(site, Last(c));
    SettleSeesOnlyLinks(site, anchor, o, Last(c), PageOf(site, Last(c)), r, keys);
    VisitedIsBounded(site, r, keys);
  }
}
