/** The results about whole crawls: closure, reachability, the page budget, the failure fuse, termination. */
module CrawlTheorems {
  import opened Options
  import opened CrawlModel
  import opened CrawlInvariants

  // ---------- The failure fuse ----------

  /** How one completed fetch bears on the fuse. */
  datatype Mark = FetchedPage | Counting | Neutral

  function MarkOf(answer: Answer): Mark {
    match answer
    case Fetched(_) => FetchedPage
    case Failed(FetchError(Timeout, _, _, _)) => Counting
    case Failed(FetchError(Connection, _, _, _)) => Counting
    case Failed(FetchError(Protocol, _, _, _)) => Counting
    case Failed(FetchError(HttpStatus, Some(status), _, _)) => if status >= 500 then Counting else Neutral
    case _ => Neutral
  }

  /** The completions in order, from the last page of the seed chain on. */
  function Marks(site: Site, c: Crawl): seq<Mark>
    requires c.hops <= |c.reported|
  {
    seq(|c.reported| - c.hops,
        i requires 0 <= i < |c.reported| - c.hops => MarkOf(site.fetch(c.reported[c.hops + i].url)))
  }

  function CountIn(marks: seq<Mark>): nat {
    if |marks| == 0 then 0 else CountIn(marks[..|marks| - 1]) + if marks[|marks| - 1] == Counting then 1 else 0
  }

  /** Some stretch of the history without a fetched page holds `n` counting failures. */
  ghost predicate Tripped(marks: seq<Mark>, n: nat) {
    exists lo: nat, hi: nat :: lo <= hi <= |marks| && FetchedPage !in marks[lo..hi] && CountIn(marks[lo..hi]) >= n
  }

  /** The counting failures since the last fetched page. */
  function Trailing(marks: seq<Mark>): nat {
    if |marks| == 0 then 0
    else match marks[|marks| - 1]
      case FetchedPage => 0
      case Counting => Trailing(marks[..|marks| - 1]) + 1
      case Neutral => Trailing(marks[..|marks| - 1])
  }

  lemma {:induction false} TrailingIsLargest(marks: seq<Mark>, lo: nat)
    requires lo <= |marks| && FetchedPage !in marks[lo..]
    ensures CountIn(marks[lo..]) <= Trailing(marks)
    decreases |marks|
  {
    if lo < |marks| {
      var shorter := marks[..|marks| - 1];
      assert marks[lo..][..|marks[lo..]| - 1] == shorter[lo..];
      assert marks[|marks| - 1] in marks[lo..];
      TrailingIsLargest(shorter, lo);
    }
  }

  lemma {:induction false} TrailingIsReached(marks: seq<Mark>) returns (lo: nat)
    ensures lo <= |marks| && FetchedPage !in marks[lo..] && CountIn(marks[lo..]) == Trailing(marks)
  {
    if |marks| == 0 || marks[|marks| - 1] == FetchedPage {
      lo := |marks|;
    } else {
      var shorter := marks[..|marks| - 1];
      lo := TrailingIsReached(shorter);
      assert marks[lo..] == shorter[lo..] + [marks[|marks| - 1]];
      assert marks[lo..][..|marks[lo..]| - 1] == shorter[lo..];
    }
  }

  /** One more completion trips the fuse exactly when it makes the trailing count reach `n`. */
  lemma TrippedByOne(marks: seq<Mark>, mark: Mark, n: nat)
    requires n >= 1
    ensures Tripped(marks + [mark], n) <==> Tripped(marks, n) || Trailing(marks + [mark]) >= n
  {
    var more := marks + [mark];
    if Tripped(marks, n) {
      var lo: nat, hi: nat :| lo <= hi <= |marks| && FetchedPage !in marks[lo..hi] && CountIn(marks[lo..hi]) >= n;
      assert more[lo..hi] == marks[lo..hi];
    }
    if Trailing(more) >= n {
      var lo := TrailingIsReached(more);
      assert more[lo..|more|] == more[lo..];
    }
    if Tripped(more, n) {
      var lo: nat, hi: nat :| lo <= hi <= |more| && FetchedPage !in more[lo..hi] && CountIn(more[lo..hi]) >= n;
      if hi <= |marks| {
        assert more[lo..hi] == marks[lo..hi];
      } else {
        assert more[lo..hi] == more[lo..];
        TrailingIsLargest(more, lo);
      }
    }
  }

  /** The fuse is exact, and names exactly the configured count. */
  ghost predicate FuseExact(site: Site, config: Config, c: Crawl) {
    && c.hops <= |c.reported|
    && (c.aborted <==> Tripped(Marks(site, c), config.failureFuse))
    && (if c.aborted then c.stopping && c.reason == Some(config.failureFuse)
        else c.reason == None && c.failures == Trailing(Marks(site, c)) && c.failures < config.failureFuse)
  }

  lemma SettleMarks(site: Site, anchor: Url, config: Config, c: Crawl, url: Url)
    requires FoundOnce(site, c) && c.hops <= |c.reported|
    ensures var r, mark := Settle(site, anchor, config, c, url), MarkOf(site.fetch(url));
            r.hops == c.hops <= |r.reported| && Marks(site, r) == Marks(site, c) + [mark]
  {
    SettleFacts(site, anchor, config, c, url);
  }

  lemma TrailingOfMore(marks: seq<Mark>, mark: Mark)
    ensures Trailing(marks + [mark])
         == if mark == FetchedPage then 0 else Trailing(marks) + if mark == Counting then 1 else 0
  {
    assert (marks + [mark])[..|marks|] == marks;
  }

  lemma SettleKeepsFuse(site: Site, anchor: Url, config: Config, c: Crawl, url: Url)
    requires FuseExact(site, config, c) && FoundOnce(site, c) && config.failureFuse >= 1
    ensures FuseExact(site, config, Settle(site, anchor, config, c, url))
  {
    var mark := MarkOf(site.fetch(url));
    SettleMarks(site, anchor, config, c, url);
    TrailingOfMore(Marks(site, c), mark);
    TrippedByOne(Marks(site, c), mark, config.failureFuse);
    SettleFailures(site, anchor, config, c, url);
  }

  /** What settling does to the failure count and the abort flag. */
  lemma SettleFailures(site: Site, anchor: Url, config: Config, c: Crawl, url: Url)
    requires FoundOnce(site, c)
    ensures var r, mark := Settle(site, anchor, config, c, url), MarkOf(site.fetch(url));
            if mark == Counting && !c.aborted then
              && r.failures == c.failures + 1
              && (if r.failures >= config.failureFuse
                  then r.aborted && r.stopping && r.reason == Some(r.failures)
                  else !r.aborted && r.reason == c.reason)
            else
              && r.aborted == c.aborted && r.reason == c.reason && r.stopping == c.stopping
              && (r.failures == if mark == FetchedPage then 0 else c.failures)
  {
    var answer := site.fetch(url);
    if answer.Fetched? && LinksOf(site, url, answer.result).Some? {
      var links := LinksOf(site, url, answer.result).value;
      var reported := Report(Success(c, answer.result, links), PageOf(site, url));
      assert Found(reported) == Found(c);
      AddLinksFacts(site, anchor, reported, links);
    }
  }

  // ---------- Runs ----------

  /** What holds when the workers start and after every step. */
  ghost predicate Live(site: Site, anchor: Url, config: Config, start: Url, c: Crawl) {
    Inv(site, anchor, config, start, c) && Pending(c) && FuseExact(site, config, c)
  }

  lemma TakeKeepsLive(site: Site, anchor: Url, config: Config, start: Url, c: Crawl)
    requires Live(site, anchor, config, start, c) && |c.queue| > 0
    ensures c.unfinished > 0 && c.queue[0] !in c.inFlight
    ensures Live(site, anchor, config, start, Take(config, c))
  {
    TakeKeepsInv(site, anchor, config, start, c);
    TakeKeepsFuse(site, config, c);
  }

  lemma TakeKeepsFuse(site: Site, config: Config, c: Crawl)
    requires FuseExact(site, config, c) && |c.queue| > 0 && c.unfinished > 0
    ensures FuseExact(site, config, Take(config, c))
  {
    assert Marks(site, Take(config, c)) == Marks(site, c);
  }

  lemma CompleteKeepsLive(site: Site, anchor: Url, config: Config, start: Url, c: Crawl, url: Url)
    requires Live(site, anchor, config, start, c) && url in c.inFlight && config.failureFuse >= 1
    ensures c.unfinished > 0
    ensures Live(site, anchor, config, start, Complete(site, anchor, config, c, url))
    ensures Settles(site, anchor, c, url, PageOf(site, url), Settle(site, anchor, config, c, url))
  {
    CompleteKeepsInv(site, anchor, config, start, c, url);
    SettleKeepsFuse(site, anchor, config, c, url);
    TaskDoneKeepsFuse(site, config, Settle(site, anchor, config, c, url));
  }

  lemma TaskDoneKeepsFuse(site: Site, config: Config, c: Crawl)
    requires FuseExact(site, config, c) && c.unfinished > 0
    ensures FuseExact(site, config, TaskDone(c))
  {
    assert Marks(site, TaskDone(c)) == Marks(site, c);
  }

  ghost predicate IsRun(site: Site, anchor: Url, config: Config, run: seq<Crawl>) {
    |run| > 0 && forall i | 0 <= i < |run| - 1 :: Step(site, anchor, config, run[i], run[i + 1])
  }

  lemma OneMoreStep(site: Site, anchor: Url, config: Config, run: seq<Crawl>, next: Crawl)
    requires IsRun(site, anchor, config, run) && Step(site, anchor, config, run[|run| - 1], next)
    ensures IsRun(site, anchor, config, run + [next])
  {
    var more := run + [next];
    forall i | 0 <= i < |more| - 1 ensures Step(site, anchor, config, more[i], more[i + 1]) {
      assert i < |run| - 1 ==> Step(site, anchor, config, run[i], run[i + 1]);
    }
  }

  lemma StepKeepsLive(site: Site, anchor: Url, config: Config, start: Url, c: Crawl, next: Crawl)
    requires ValidConfig(config) && Live(site, anchor, config, start, c) && Step(site, anchor, config, c, next)
    ensures Live(site, anchor, config, start, next)
  {
    if CanTake(config, c) && next == Take(config, c) {
      TakeKeepsLive(site, anchor, config, start, c);
    } else {
      var url :| url in c.inFlight && next == Complete(site, anchor, config, c, url);
      CompleteKeepsLive(site, anchor, config, start, c, url);
    }
  }

  /** Every interleaving keeps the invariant. */
  lemma {:induction false} RunKeepsLive(site: Site, anchor: Url, config: Config, start: Url, run: seq<Crawl>, i: nat)
    requires ValidConfig(config) && IsRun(site, anchor, config, run) && Live(site, anchor, config, start, run[0])
    requires i < |run|
    ensures Live(site, anchor, config, start, run[i])
  {
    if i > 0 {
      RunKeepsLive(site, anchor, config, start, run, i - 1);
      StepKeepsLive(site, anchor, config, start, run[i - 1], run[i]);
    }
  }

  // ---------- Closure and reachability ----------

  /** Whatever a reported page points to, in scope and allowed by robots, is reported itself, under the same key. */
  ghost predicate Closed(site: Site, anchor: Url, c: Crawl) {
    forall i, link | 0 <= i < |c.reported| && PointsTo(site, c.reported[i].url, link)
                     && site.inScope(anchor, link) && site.robotsAllow(anchor, link) ::
      exists j :: 0 <= j < |c.reported| && site.key(c.reported[j].url) == site.key(link)
  }

  /** A crawl that drained its frontier without stopping early covered everything it could follow. */
  lemma DrainedIsClosed(site: Site, anchor: Url, config: Config, start: Url, c: Crawl)
    requires Live(site, anchor, config, start, c) && c.unfinished == 0 && !c.stopping
    ensures Closed(site, anchor, c)
    ensures forall u | u in c.visited :: IsReported(c, u)
  {
    forall i, link | 0 <= i < |c.reported| && PointsTo(site, c.reported[i].url, link)
                     && site.inScope(anchor, link) && site.robotsAllow(anchor, link)
      ensures exists j :: 0 <= j < |c.reported| && site.key(c.reported[j].url) == site.key(link)
    {
      PagesAreAsFetched(site, c.reported[i].url);
      assert link in c.reported[i].links && Admitted(site, anchor, link);
      assert site.key(link) in KeysOf(site, Found(c));
      var u :| u in Found(c) && site.key(u) == site.key(link);
      assert Found(c) == c.visited;
      assert IsReported(c, u);
    }
  }

  /** Every reported page reports what its url answered. */
  lemma ReportedAsFetched(site: Site, c: Crawl, i: nat)
    requires Faithful(site, c) && i < |c.reported|
    ensures AsFetched(site, c.reported[i])
  {
    PagesAreAsFetched(site, c.reported[i].url);
  }

  /** The page at `from` is reported and points to `to`. */
  ghost predicate LinksTo(site: Site, pages: seq<PageResult>, from: Url, to: Url) {
    PointsTo(site, from, to) && exists j :: 0 <= j < |pages| && pages[j].url == from
  }

  /** `path` follows links of reported pages from the seed to `url`. */
  ghost predicate IsPath(site: Site, start: Url, pages: seq<PageResult>, path: seq<Url>, url: Url) {
    && |path| > 0 && path[0] == start && path[|path| - 1] == url
    && forall k | 0 <= k < |path| - 1 :: LinksTo(site, pages, path[k], path[k + 1])
  }

  ghost predicate Reachable(site: Site, start: Url, pages: seq<PageResult>, url: Url) {
    exists path :: IsPath(site, start, pages, path, url)
  }

  lemma ExtendPath(site: Site, start: Url, pages: seq<PageResult>, path: seq<Url>, from: Url, to: Url)
    requires IsPath(site, start, pages, path, from) && LinksTo(site, pages, from, to)
    ensures IsPath(site, start, pages, path + [to], to)
  {
  }

  /** Every reported page is reached from the seed through links of reported pages. */
  lemma {:induction false} ReportedIsReachable(site: Site, start: Url, c: Crawl, i: nat)
    requires Traced(start, c) && Faithful(site, c) && i < |c.reported|
    ensures Reachable(site, start, c.reported, c.reported[i].url)
  {
    var url := c.reported[i].url;
    assert Known(start, c.reported[..i], url);
    if url == start {
      assert IsPath(site, start, c.reported, [start], url);
    } else {
      var j :| 0 <= j < i && url in c.reported[..i][j].links;
      ReportedIsReachable(site, start, c, j);
      var path :| IsPath(site, start, c.reported, path, c.reported[j].url);
      PagesAreAsFetched(site, c.reported[j].url);
      assert LinksTo(site, c.reported, c.reported[j].url, url);
      ExtendPath(site, start, c.reported, path, c.reported[j].url, url);
    }
  }

  /** `next` has taken and found all that `c` has, in the same order, and then perhaps more. */
  ghost predicate GoesOn(c: Crawl, next: Crawl) {
    c.visited <= next.visited && c.visited + c.queue <= next.visited + next.queue
  }

  lemma StillGoesOn(a: Crawl, b: Crawl, c: Crawl)
    requires GoesOn(a, b) && GoesOn(b, c)
    ensures GoesOn(a, c)
  {
  }

  /** Urls are taken in the order they were found, and nothing found is lost. */
  lemma {:induction false} TakenAsFound(site: Site, anchor: Url, config: Config, start: Url, run: seq<Crawl>, i: nat,
                                        j: nat)
    requires ValidConfig(config) && IsRun(site, anchor, config, run) && Live(site, anchor, config, start, run[0])
    requires i <= j < |run|
    ensures GoesOn(run[i], run[j])
    decreases j - i
  {
    if i < j {
      OneStepFinds(site, anchor, config, start, run, i);
      TakenAsFound(site, anchor, config, start, run, i + 1, j);
      StillGoesOn(run[i], run[i + 1], run[j]);
    }
  }

  lemma OneStepFinds(site: Site, anchor: Url, config: Config, start: Url, run: seq<Crawl>, i: nat)
    requires ValidConfig(config) && IsRun(site, anchor, config, run) && Live(site, anchor, config, start, run[0])
    requires i + 1 < |run|
    ensures GoesOn(run[i], run[i + 1])
    ensures |run[i].inFlight| <= config.concurrency ==> |run[i + 1].inFlight| <= config.concurrency
  {
    RunKeepsLive(site, anchor, config, start, run, i);
    StepKeepsFound(site, anchor, config, run[i], run[i + 1]);
  }

  lemma StepKeepsFound(site: Site, anchor: Url, config: Config, c: Crawl, next: Crawl)
    requires FoundOnce(site, c) && Step(site, anchor, config, c, next)
    ensures GoesOn(c, next)
    ensures |c.inFlight| <= config.concurrency ==> |next.inFlight| <= config.concurrency
  {
    if CanTake(config, c) && next == Take(config, c) {
      TakeFacts(config, c);
    } else {
      var url :| url in c.inFlight && next == Complete(site, anchor, config, c, url);
      SettleFacts(site, anchor, config, c, url);
    }
  }

  /** No more than `concurrency` fetches are ever awaited at once. */
  lemma {:induction false} WithinConcurrency(site: Site, anchor: Url, config: Config, start: Url, run: seq<Crawl>,
                                             i: nat)
    requires ValidConfig(config) && IsRun(site, anchor, config, run) && Live(site, anchor, config, start, run[0])
    requires |run[0].inFlight| <= config.concurrency && i < |run|
    ensures |run[i].inFlight| <= config.concurrency
  {
    if i > 0 {
      WithinConcurrency(site, anchor, config, start, run, i - 1);
      OneStepFinds(site, anchor, config, start, run, i - 1);
    }
  }

  // ---------- Exactly once, within the budget ----------

  /** No two reported pages share a canonical key. */
  lemma ReportedOnce(site: Site, c: Crawl, i: nat, j: nat)
    requires FoundOnce(site, c) && Partitioned(c) && i < j < |c.reported|
    ensures site.key(c.reported[i].url) != site.key(c.reported[j].url)
  {
    assert c.reported[i].url in c.visited && c.reported[j].url in c.visited;
    var a :| 0 <= a < |c.visited| && c.visited[a] == c.reported[i].url;
    var b :| 0 <= b < |c.visited| && c.visited[b] == c.reported[j].url;
    assert Found(c)[a] == c.visited[a] && Found(c)[b] == c.visited[b];
    assert a != b;
  }

  lemma BudgetOf(config: Config, c: Crawl)
    requires Counted(config, c)
    ensures PagesTotal(c.stats) == |c.reported| == c.claimed - |c.inFlight|
    ensures config.maxPages.Some? ==> PagesTotal(c.stats) <= config.maxPages.value || PagesTotal(c.stats) <= c.hops + 1
    ensures c.stopping ==> c.aborted || (config.maxPages.Some? && |c.reported| + |c.inFlight| >= config.maxPages.value)
  {
  }

  /**
   * At every point of every crawl the pages counted are the pages reported, which are the urls claimed less those in
   * flight, at most the budget or the pages of the seed chain, whichever is larger.
   */
  lemma WithinBudget(site: Site, anchor: Url, config: Config, start: Url, run: seq<Crawl>, i: nat)
    requires ValidConfig(config) && IsRun(site, anchor, config, run) && Live(site, anchor, config, start, run[0])
    requires i < |run|
    ensures PagesTotal(run[i].stats) == |run[i].reported| == run[i].claimed - |run[i].inFlight|
    ensures run[i].hops == run[0].hops
    ensures config.maxPages.Some? ==>
              PagesTotal(run[i].stats) <= config.maxPages.value || PagesTotal(run[i].stats) <= run[0].hops + 1
  {
    RunKeepsLive(site, anchor, config, start, run, i);
    BudgetOf(config, run[i]);
    HopsStay(site, anchor, config, start, run, i);
  }

  lemma OneStepOn(site: Site, anchor: Url, config: Config, start: Url, run: seq<Crawl>, i: nat)
    requires ValidConfig(config) && IsRun(site, anchor, config, run) && Live(site, anchor, config, start, run[0])
    requires i + 1 < |run|
    ensures run[i + 1].hops == run[i].hops
  {
    RunKeepsLive(site, anchor, config, start, run, i);
    StepKeepsHops(site, anchor, config, start, run[i], run[i + 1]);
  }

  lemma {:induction false} HopsStay(site: Site, anchor: Url, config: Config, start: Url, run: seq<Crawl>, i: nat)
    requires ValidConfig(config) && IsRun(site, anchor, config, run) && Live(site, anchor, config, start, run[0])
    requires i < |run|
    ensures run[i].hops == run[0].hops
  {
    if i > 0 {
      OneStepOn(site, anchor, config, start, run, i - 1);
      HopsStay(site, anchor, config, start, run, i - 1);
    }
  }

  lemma StepKeepsHops(site: Site, anchor: Url, config: Config, start: Url, c: Crawl, next: Crawl)
    requires ValidConfig(config) && Live(site, anchor, config, start, c) && Step(site, anchor, config, c, next)
    ensures next.hops == c.hops
  {
    forall url | url in c.inFlight ensures Complete(site, anchor, config, c, url).hops == c.hops {
      CompleteKeepsLive(site, anchor, config, start, c, url);
    }
  }

  /** After the crawl begins to stop no url is claimed, and an abort and its reason stay. */
  lemma StoppingIsFinal(site: Site, anchor: Url, config: Config, start: Url, run: seq<Crawl>, i: nat, j: nat)
    requires ValidConfig(config) && IsRun(site, anchor, config, run) && Live(site, anchor, config, start, run[0])
    requires i <= j < |run| && run[i].stopping
    ensures run[j].stopping && run[j].claimed == run[i].claimed
    ensures run[i].aborted ==> run[j].aborted && run[j].reason == run[i].reason
    decreases j - i
  {
    if i < j {
      RunKeepsLive(site, anchor, config, start, run, i);
      var c, next := run[i], run[i + 1];
      if !(CanTake(config, c) && next == Take(config, c)) {
        var url :| url in c.inFlight && next == Complete(site, anchor, config, c, url);
        CompleteKeepsLive(site, anchor, config, start, c, url);
        SettleFailures(site, anchor, config, c, url);
      }
      StoppingIsFinal(site, anchor, config, start, run, i + 1, j);
    }
  }

  // ---------- Termination ----------

  /** The site has only finitely many keys, `keys` among them all that its pages link to. */
  ghost predicate FiniteSite(site: Site, keys: set<Key>) {
    forall url, link | PointsTo(site, url, link) :: site.key(link) in keys
  }

  lemma {:induction false} KeysAreDistinct(site: Site, urls: seq<Url>)
    requires DistinctKeys(site, urls)
    ensures |KeysOf(site, urls)| == |urls|
  {
    if |urls| > 0 {
      var n := |urls| - 1;
      KeysAreDistinct(site, urls[..n]);
      assert urls == urls[..n] + [urls[n]];
      assert KeysOf(site, urls) == KeysOf(site, urls[..n]) + {site.key(urls[n])};
      assert site.key(urls[n]) !in KeysOf(site, urls[..n]);
    }
  }

  lemma SubsetIsSmaller<T>(a: set<T>, b: set<T>)
    requires a <= b
    ensures |a| <= |b|
  {
    assert b == a + (b - a);
  }

  lemma VisitedIsBounded(site: Site, c: Crawl, keys: set<Key>)
    requires FoundOnce(site, c) && c.seen <= keys
    ensures |c.visited| <= |keys|
  {
    KeysAreDistinct(site, Found(c));
    SubsetIsSmaller(c.seen, keys);
  }

  /** The steps still possible: each unseen or waiting key needs two, each url in flight one. */
  function StepsLeft(keys: set<Key>, c: Crawl): int {
    2 * |keys| - 2 * |c.visited| + |c.inFlight|
  }

  lemma SettleSeesOnlyLinks(site: Site, anchor: Url, c: Crawl, url: Url, page: PageResult, r: Crawl, keys: set<Key>)
    requires FoundOnce(site, c) && Settles(site, anchor, c, url, page, r) && c.seen <= keys
    requires forall link | link in page.links :: site.key(link) in keys
    ensures r.seen <= keys
  {
    forall k | k in r.seen ensures k in keys {
      var u :| u in Found(r) && site.key(u) == k;
      if u in Found(c) { assert site.key(u) in c.seen; }
    }
  }

  lemma CompleteSeesOnlyKeys(site: Site, anchor: Url, config: Config, start: Url, c: Crawl, url: Url, keys: set<Key>)
    requires Live(site, anchor, config, start, c) && url in c.inFlight && config.failureFuse >= 1
    requires FiniteSite(site, keys) && c.seen <= keys
    ensures c.unfinished > 0
    ensures Complete(site, anchor, config, c, url).seen <= keys
    ensures StepsLeft(keys, Complete(site, anchor, config, c, url)) == StepsLeft(keys, c) - 1
  {
    CompleteKeepsLive(site, anchor, config, start, c, url);
    PagesAreAsFetched(site, url);
    SettleSeesOnlyLinks(site, anchor, c, url, PageOf(site, url), Settle(site, anchor, config, c, url), keys);
  }

  lemma StepUsesOne(site: Site, anchor: Url, config: Config, start: Url, c: Crawl, next: Crawl, keys: set<Key>)
    requires ValidConfig(config) && Live(site, anchor, config, start, c) && Step(site, anchor, config, c, next)
    requires FiniteSite(site, keys) && c.seen <= keys
    ensures next.seen <= keys && 0 <= StepsLeft(keys, next) < StepsLeft(keys, c)
  {
    StepKeepsLive(site, anchor, config, start, c, next);
    if CanTake(config, c) && next == Take(config, c) {
      TakeFacts(config, c);
    } else {
      var url :| url in c.inFlight && next == Complete(site, anchor, config, c, url);
      CompleteSeesOnlyKeys(site, anchor, config, start, c, url, keys);
    }
    VisitedIsBounded(site, next, keys);
  }

  /** On a finite site no interleaving takes more than two steps for each key. */
  lemma {:induction false} RunsAreShort(site: Site, anchor: Url, config: Config, start: Url, run: seq<Crawl>,
                                        keys: set<Key>)
    requires ValidConfig(config) && IsRun(site, anchor, config, run) && Live(site, anchor, config, start, run[0])
    requires FiniteSite(site, keys) && run[0].seen <= keys
    ensures |run| - 1 <= StepsLeft(keys, run[0])
    decreases |run|
  {
    VisitedIsBounded(site, run[0], keys);
    if |run| > 1 {
      StepUsesOne(site, anchor, config, start, run[0], run[1], keys);
      StepKeepsLive(site, anchor, config, start, run[0], run[1]);
      RunsAreShort(site, anchor, config, start, run[1..], keys);
    }
  }

  /** A url is waiting or in flight while work is left. */
  lemma SomeoneWaits(site: Site, anchor: Url, config: Config, start: Url, c: Crawl)
    requires ValidConfig(config) && Live(site, anchor, config, start, c) && c.unfinished > 0
    ensures c.queue != [] || c.inFlight != {}
    ensures |c.inFlight| < config.concurrency || c.inFlight != {}
  {
  }

  /** A crawl with work left can always take a step. */
  lemma NeverStuck(site: Site, anchor: Url, config: Config, start: Url, c: Crawl)
    requires ValidConfig(config) && Live(site, anchor, config, start, c) && c.unfinished > 0
    ensures exists next :: Step(site, anchor, config, c, next)
  {
    if c.inFlight == {} {
      assert Step(site, anchor, config, c, Take(config, c));
    } else {
      var url :| url in c.inFlight;
      assert Step(site, anchor, config, c, Complete(site, anchor, config, c, url));
    }
  }

  // ---------- The measure of a crawl in progress ----------

  /** The crawl must end: its site has finitely many keys, or its pages are budgeted. */
  ghost predicate MustEnd(site: Site, config: Config, keys: Option<set<Key>>, c: Crawl) {
    if keys.Some? then FiniteSite(site, keys.value) && c.seen <= keys.value && StepsLeft(keys.value, c) >= 0
    else config.maxPages.Some?
  }

  ghost function Steps(keys: Option<set<Key>>, c: Crawl): int {
    if keys.Some? then StepsLeft(keys.value, c) else 0
  }

  /** Claims still allowed by the budget. */
  function ClaimsLeft(config: Config, c: Crawl): nat {
    if config.maxPages.Some? && c.claimed < config.maxPages.value then config.maxPages.value - c.claimed else 0
  }

  /** `next` is smaller than `c` in steps left, then claims left, then urls in flight, then urls waiting. */
  ghost predicate Descends(config: Config, keys: Option<set<Key>>, c: Crawl, next: Crawl) {
    || Steps(keys, next) < Steps(keys, c)
    || (Steps(keys, next) == Steps(keys, c)
        && (|| ClaimsLeft(config, next) < ClaimsLeft(config, c)
            || (ClaimsLeft(config, next) == ClaimsLeft(config, c)
                && (|| |next.inFlight| < |c.inFlight|
                    || (|next.inFlight| == |c.inFlight| && |next.queue| < |c.queue|)))))
  }

  lemma TakeDescends(site: Site, anchor: Url, config: Config, start: Url, keys: Option<set<Key>>, c: Crawl)
    requires Live(site, anchor, config, start, c) && MustEnd(site, config, keys, c) && |c.queue| > 0
    ensures c.unfinished > 0
    ensures Live(site, anchor, config, start, Take(config, c)) && MustEnd(site, config, keys, Take(config, c))
    ensures Descends(config, keys, c, Take(config, c))
  {
    TakeKeepsLive(site, anchor, config, start, c);
    TakeFacts(config, c);
    if keys.Some? { VisitedIsBounded(site, Take(config, c), keys.value); }
  }

  lemma CompleteDescends(site: Site, anchor: Url, config: Config, start: Url, keys: Option<set<Key>>, c: Crawl,
                         url: Url)
    requires Live(site, anchor, config, start, c) && MustEnd(site, config, keys, c) && url in c.inFlight
    requires config.failureFuse >= 1
    ensures c.unfinished > 0
    ensures Live(site, anchor, config, start, Complete(site, anchor, config, c, url))
    ensures MustEnd(site, config, keys, Complete(site, anchor, config, c, url))
    ensures Descends(config, keys, c, Complete(site, anchor, config, c, url))
  {
    CompleteKeepsLive(site, anchor, config, start, c, url);
    if keys.Some? {
      CompleteSeesOnlyKeys(site, anchor, config, start, c, url, keys.value);
      VisitedIsBounded(site, Complete(site, anchor, config, c, url), keys.value);
    }
  }
}
