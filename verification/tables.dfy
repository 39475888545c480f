/** The `crawl` and `page` tables and what each repository transaction does to them. */
module Tables {
  import opened Options

  type CrawlId = nat
  type WorkerId = string

  datatype CrawlState = Queued | Running | Finished | Failed | Aborted

  /** The stored error texts; a crawl's own errors never start with one of the repository's. */
  datatype Error =
    | CancelledByRequest
    | CancelledBeforeStart
    | WorkerLost
    | FromCrawl(text: string)
    | WithFlushError(base: Option<Error>, text: string)

  datatype Stats = Stats(pagesTotal: nat, others: string)

  /** A row of `crawl`; times are clock readings, and a missing heartbeat never counts as old. */
  datatype CrawlRow = CrawlRow(
    state: CrawlState,
    createdAt: int,
    startedAt: Option<int>,
    finishedAt: Option<int>,
    heartbeatAt: Option<int>,
    workerId: Option<WorkerId>,
    attempts: int,
    cancelRequested: bool,
    stats: Option<Stats>,
    error: Option<Error>)

  /** A crawled page as it is stored: its place in the crawl and its contents. */
  datatype PageRow = PageRow(number: nat, url: string, status: Option<int>, errorKind: Option<string>,
                             errorMessage: Option<string>, links: seq<string>, fetchedAt: int)

  type PageTable = map<(CrawlId, nat), PageRow>

  datatype Db = Db(crawls: map<CrawlId, CrawlRow>, pages: PageTable)

  predicate IsTerminal(state: CrawlState) {
    state == Finished || state == Failed || state == Aborted
  }

  /** The error text starts with `cancelled by request`. */
  predicate SaysCancelled(error: Option<Error>) {
    match error
    case Some(CancelledByRequest) => true
    case Some(WithFlushError(base, _)) => SaysCancelled(base)
    case _ => false
  }

  /** `worker_id = w` on the row. */
  predicate HeldBy(db: Db, id: CrawlId, w: WorkerId) {
    id in db.crawls && db.crawls[id].workerId == Some(w)
  }

  predicate Beating(row: CrawlRow, w: WorkerId) {
    row.workerId == Some(w) && row.state == Running
  }

  /** The row is running and `worker_id = w`. */
  predicate RunsUnder(db: Db, id: CrawlId, w: WorkerId) {
    id in db.crawls && Beating(db.crawls[id], w)
  }

  function WithRow(db: Db, id: CrawlId, row: CrawlRow): Db {
    db.(crawls := db.crawls[id := row])
  }

  function Create(db: Db, id: CrawlId, now: int): Db {
    WithRow(db, id, CrawlRow(Queued, now, None, None, None, None, 0, false, None, None))
  }

  function WithoutPages(pages: PageTable, id: CrawlId): PageTable {
    map key | key in pages && key.0 != id :: pages[key]
  }

  function ClaimedRow(row: CrawlRow, w: WorkerId, now: int): CrawlRow {
    row.(state := Running, startedAt := Some(now), heartbeatAt := Some(now), workerId := Some(w),
         attempts := row.attempts + 1)
  }

  /** The claim of one chosen queued row. */
  function Claim(db: Db, id: CrawlId, w: WorkerId, now: int): Db
    requires id in db.crawls
  {
    Db(db.crawls[id := ClaimedRow(db.crawls[id], w, now)], WithoutPages(db.pages, id))
  }

  function Beaten(row: CrawlRow, now: int, stats: Stats): CrawlRow {
    row.(heartbeatAt := Some(now), stats := Some(stats))
  }

  /** The cancel flag, or nothing when the row is not running under `w`. */
  function Heartbeat(db: Db, id: CrawlId, w: WorkerId, now: int, stats: Stats): (Db, Option<bool>) {
    if RunsUnder(db, id, w) then
      (WithRow(db, id, Beaten(db.crawls[id], now, stats)), Some(db.crawls[id].cancelRequested))
    else (db, None)
  }

  function EndedRow(row: CrawlRow, now: int, state: CrawlState, stats: Stats, error: Option<Error>): CrawlRow {
    row.(state := state, finishedAt := Some(now), stats := Some(stats), error := error)
  }

  /** No state is tested: a repeated finish writes the same row again. */
  function Finish(db: Db, id: CrawlId, w: WorkerId, now: int, state: CrawlState, stats: Stats, error: Option<Error>)
    : (Db, bool)
  {
    if HeldBy(db, id, w) then (WithRow(db, id, EndedRow(db.crawls[id], now, state, stats, error)), true)
    else (db, false)
  }

  predicate Releasable(row: CrawlRow, w: WorkerId) {
    row.workerId == Some(w) && !row.cancelRequested
  }

  function Released(row: CrawlRow): CrawlRow {
    row.(state := Queued, workerId := None, heartbeatAt := None,
         attempts := if row.attempts - 1 > 0 then row.attempts - 1 else 0)
  }

  function Release(db: Db, id: CrawlId, w: WorkerId): (Db, bool) {
    if id in db.crawls && Releasable(db.crawls[id], w) then (WithRow(db, id, Released(db.crawls[id])), true)
    else (db, false)
  }

  predicate Expired(row: CrawlRow, now: int, leaseSeconds: int) {
    row.state == Running && row.heartbeatAt.Some? && row.heartbeatAt.value < now - leaseSeconds
  }

  /** What becomes of a row whose worker went silent: cancelled, queued again, or given up on. */
  function Reaped(row: CrawlRow, now: int, leaseSeconds: int, maxAttempts: nat): CrawlRow {
    if !Expired(row, now, leaseSeconds) then row
    else if row.cancelRequested then
      row.(state := Aborted, workerId := None, finishedAt := Some(now), error := Some(CancelledByRequest))
    else if row.attempts < maxAttempts then row.(state := Queued, workerId := None, heartbeatAt := None)
    else row.(state := Failed, workerId := None, finishedAt := Some(now), error := Some(WorkerLost))
  }

  function Reap(db: Db, now: int, leaseSeconds: int, maxAttempts: nat): Db {
    db.(crawls := map id | id in db.crawls :: Reaped(db.crawls[id], now, leaseSeconds, maxAttempts))
  }

  function CancelledRow(row: CrawlRow, now: int): CrawlRow {
    if row.state == Queued then row.(state := Aborted, finishedAt := Some(now), error := Some(CancelledBeforeStart))
    else if row.state == Running then row.(cancelRequested := true)
    else row
  }

  /** The resulting state, or nothing for an unknown crawl. */
  function RequestCancel(db: Db, id: CrawlId, now: int): (Db, Option<CrawlState>) {
    if id !in db.crawls then (db, None)
    else (WithRow(db, id, CancelledRow(db.crawls[id], now)), Some(CancelledRow(db.crawls[id], now).state))
  }

  /** `ON CONFLICT DO NOTHING`, row after row. */
  function InsertIgnoring(pages: PageTable, id: CrawlId, rows: seq<PageRow>): PageTable {
    if |rows| == 0 then pages
    else
      var before := InsertIgnoring(pages, id, rows[..|rows| - 1]);
      var row := rows[|rows| - 1];
      if (id, row.number) in before then before else before[(id, row.number) := row]
  }

  /** Whether the batch was accepted; an empty one always is, any other only from the running row's worker. */
  function InsertPages(db: Db, id: CrawlId, w: WorkerId, rows: seq<PageRow>): (Db, bool) {
    if |rows| == 0 then (db, true)
    else if RunsUnder(db, id, w) then
      (db.(pages := InsertIgnoring(db.pages, id, rows)), true)
    else (db, false)
  }
}
