/** The state of one crawl and what each atomic step does to it (`Crawler`, `Frontier`). */
module CrawlModel {
  import opened Options

  type Url = string
  type Key = string

  datatype FetchErrorKind =
    Timeout | Connection | HttpStatus | UnsupportedContent | TooLarge | InvalidUrl | Protocol | Internal

  function KindText(kind: FetchErrorKind): string {
    match kind
    case Timeout => "timeout"
    case Connection => "connection"
    case HttpStatus => "http_status"
    case UnsupportedContent => "unsupported_content"
    case TooLarge => "too_large"
    case InvalidUrl => "invalid_url"
    case Protocol => "protocol"
    case Internal => "internal"
  }

  datatype FetchResult = FetchResult(status: int, location: string, body: string, attempts: int)

  datatype FetchError = FetchError(kind: FetchErrorKind, status: Option<int>, message: string, attempts: int)

  /** What awaiting a fetch comes to. */
  datatype Answer = Fetched(result: FetchResult) | Failed(error: FetchError) | Raised

  datatype PageResult = PageResult(url: Url, status: Option<int>, links: seq<Url>, error: Option<FetchErrorKind>)

  /** The world outside the crawl loop; `extract` gives nothing when parsing raises. */
  datatype Site = Site(
    normalize: string -> Option<Url>,
    key: Url -> Key,
    seedGuard: Url -> Option<string>,
    fetch: Url -> Answer,
    resolve: (string, Url) -> Option<Url>,
    extract: (string, Url) -> Option<seq<Url>>,
    inScope: (Url, Url) -> bool,
    robotsAllow: (Url, Url) -> bool)

  datatype Config = Config(concurrency: nat, maxPages: Option<nat>, maxSeedRedirects: nat, failureFuse: nat)

  /** What `CrawlConfig` checks when it is built. */
  predicate ValidConfig(config: Config) {
    config.concurrency >= 1 && config.failureFuse >= 1 && (config.maxPages.Some? ==> config.maxPages.value >= 1)
  }

  datatype Stats = Stats(
    pagesOk: nat,
    pagesFailed: multiset<FetchErrorKind>,
    pagesWithoutLinks: nat,
    redirects: nat,
    linksFound: nat,
    duplicatesDropped: nat,
    retries: int)

  function PagesTotal(stats: Stats): nat {
    stats.pagesOk + |stats.pagesFailed|
  }

  /**
   * The frontier (`queue`, `seen`, `duplicates`, `unfinished`), the crawler's own fields, the pages reported, and the
   * history the properties speak of: the urls marked seen by the seed chain or dequeued (`visited`), how many pages the
   * chain reported before its last one (`hops`), the urls a worker is suspended on (`inFlight`) and those dequeued
   * after the crawl began to stop (`skipped`).
   */
  datatype Crawl = Crawl(
    queue: seq<Url>,
    seen: set<Key>,
    duplicates: nat,
    unfinished: nat,
    claimed: nat,
    failures: nat,
    stopping: bool,
    aborted: bool,
    reason: Option<nat>,
    stats: Stats,
    reported: seq<PageResult>,
    visited: seq<Url>,
    hops: nat,
    inFlight: set<Url>,
    skipped: set<Url>)

  const NO_STATS := Stats(0, multiset{}, 0, 0, 0, 0, 0)

  const FRESH := Crawl([], {}, 0, 0, 0, 0, false, false, None, NO_STATS, [], [], 0, {}, {})

  predicate IsRedirect(status: int) {
    status == 301 || status == 302 || status == 303 || status == 307 || status == 308
  }

  function RedirectTarget(site: Site, url: Url, result: FetchResult): Option<Url> {
    if !IsRedirect(result.status) || result.location == "" then None else site.resolve(result.location, url)
  }

  predicate CountsTowardFuse(error: FetchError) {
    match error.kind
    case HttpStatus => error.status.Some? && error.status.value >= 500
    case Timeout => true
    case Connection => true
    case Protocol => true
    case _ => false
  }

  /** A link the crawl follows: in the anchored scope and allowed by robots. */
  predicate Admitted(site: Site, anchor: Url, link: Url) {
    site.inScope(anchor, link) && site.robotsAllow(anchor, link)
  }

  /** `Frontier.add` for an admitted link; other links are only reported. */
  function AddLink(site: Site, anchor: Url, c: Crawl, link: Url): Crawl {
    if !Admitted(site, anchor, link) then c
    else if site.key(link) in c.seen then c.(duplicates := c.duplicates + 1)
    else c.(seen := c.seen + {site.key(link)}, queue := c.queue + [link], unfinished := c.unfinished + 1)
  }

  function AddLinks(site: Site, anchor: Url, c: Crawl, links: seq<Url>): (added: Crawl)
    ensures added.unfinished >= c.unfinished
  {
    if |links| == 0 then c
    else AddLink(site, anchor, AddLinks(site, anchor, c, links[..|links| - 1]), links[|links| - 1])
  }

  /** `_enqueue`. */
  function Enqueue(site: Site, anchor: Url, c: Crawl, links: seq<Url>): Crawl {
    var added := AddLinks(site, anchor, c, links);
    added.(stats := added.stats.(duplicatesDropped := added.duplicates))
  }

  /** `_check_fuse`. */
  function CheckFuse(config: Config, c: Crawl, error: FetchError): Crawl {
    if c.aborted || !CountsTowardFuse(error) then c
    else if c.failures + 1 < config.failureFuse then c.(failures := c.failures + 1)
    else c.(failures := c.failures + 1, stopping := true, aborted := true, reason := Some(c.failures + 1))
  }

  /** The links a fetched page is reported with; nothing when extracting them raises. */
  function LinksOf(site: Site, url: Url, result: FetchResult): Option<seq<Url>> {
    if IsRedirect(result.status) then
      match RedirectTarget(site, url, result)
      case Some(target) => Some([target])
      case None => Some([])
    else site.extract(result.body, url)
  }

  function CountPage(stats: Stats, result: FetchResult, links: seq<Url>): Stats {
    if IsRedirect(result.status) then stats.(redirects := stats.redirects + 1, pagesOk := stats.pagesOk + 1)
    else stats.(linksFound := stats.linksFound + |links|,
                pagesWithoutLinks := stats.pagesWithoutLinks + (if |links| == 0 then 1 else 0),
                pagesOk := stats.pagesOk + 1)
  }

  function Retried(stats: Stats, attempts: int): Stats {
    stats.(retries := stats.retries + attempts - 1)
  }

  /** The counters of a failed fetch. */
  function Failure(c: Crawl, error: FetchError): Crawl {
    var stats := Retried(c.stats, error.attempts);
    c.(stats := stats.(pagesFailed := stats.pagesFailed + multiset{error.kind}))
  }

  /** A fetched page ends a run of failures, even if reading its links then raises. */
  function Reset(c: Crawl, result: FetchResult): Crawl {
    c.(stats := Retried(c.stats, result.attempts), failures := 0)
  }

  /** The counters of a page whose links were read. */
  function Success(c: Crawl, result: FetchResult, links: seq<Url>): Crawl {
    Reset(c, result).(stats := CountPage(Retried(c.stats, result.attempts), result, links))
  }

  function Report(c: Crawl, page: PageResult): Crawl {
    c.(reported := c.reported + [page])
  }

  /** `_handle`, and whether it let an exception out. */
  function Handle(site: Site, anchor: Url, config: Config, c: Crawl, url: Url, answer: Answer): (Crawl, bool) {
    match answer
    case Raised => (c, true)
    case Failed(error) =>
      (CheckFuse(config, Report(Failure(c, error), PageResult(url, error.status, [], Some(error.kind))), error), false)
    case Fetched(result) =>
      match LinksOf(site, url, result) {
        case None => (Reset(c, result), true)
        case Some(links) =>
          var page := PageResult(url, Some(result.status), links, None);
          (Enqueue(site, anchor, Report(Success(c, result, links), page), links), false)
      }
  }

  /** The handler in `_worker`: the page is reported once, as an internal failure. */
  function FailInternally(c: Crawl, url: Url): Crawl {
    Report(c.(stats := c.stats.(pagesFailed := c.stats.pagesFailed + multiset{Internal})),
           PageResult(url, None, [], Some(Internal)))
  }

  function TaskDone(c: Crawl): Crawl
    requires c.unfinished > 0
  {
    c.(unfinished := c.unfinished - 1)
  }

  // ---------- The two atomic steps of a worker ----------

  predicate CanTake(config: Config, c: Crawl) {
    |c.queue| > 0 && |c.inFlight| < config.concurrency
  }

  /** From `get()` to the await in `_process`: the url is claimed, or dropped because the crawl is stopping. */
  function Take(config: Config, c: Crawl): Crawl
    requires |c.queue| > 0 && c.unfinished > 0
  {
    var url := c.queue[0];
    var got := c.(queue := c.queue[1..], visited := c.visited + [url]);
    if c.stopping then TaskDone(got.(skipped := got.skipped + {url}))
    else if config.maxPages.Some? && c.claimed >= config.maxPages.value then
      TaskDone(got.(stopping := true, skipped := got.skipped + {url}))
    else got.(claimed := c.claimed + 1, inFlight := c.inFlight + {url})
  }

  /** Handling an answer, or the exception it caused. */
  function Settle(site: Site, anchor: Url, config: Config, c: Crawl, url: Url): Crawl {
    var (handled, raised) := Handle(site, anchor, config, c, url, site.fetch(url));
    var settled := if raised then FailInternally(handled, url) else handled;
    settled.(inFlight := settled.inFlight - {url})
  }

  /** From the end of the await to `task_done()`, for any url in flight. */
  function Complete(site: Site, anchor: Url, config: Config, c: Crawl, url: Url): Crawl
    requires c.unfinished > 0
  {
    TaskDone(Settle(site, anchor, config, c, url))
  }

  /** Any worker may move next. */
  ghost predicate Step(site: Site, anchor: Url, config: Config, c: Crawl, next: Crawl) {
    && c.unfinished > 0
    && ((CanTake(config, c) && next == Take(config, c))
        || exists url | url in c.inFlight :: next == Complete(site, anchor, config, c, url))
  }
}
