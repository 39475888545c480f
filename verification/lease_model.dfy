/**
 * Workers, the tables they share, and every step either can take. A step is one repository transaction, or one thing a
 * worker does between two of them; a step that is not enabled changes nothing.
 */
module Leases {
  import opened Options
  import opened Tables
  import opened Reporting

  datatype Interrupt = CancelRequested | LeaseLost | Stopped

  /** Where `run_job` is: crawling, making the last flush, handing the crawl back, or writing the terminal state. */
  datatype Phase =
    | Crawling
    | Draining(state: CrawlState, error: Option<Error>)
    | Requeueing(finalStats: Stats)
    | Finishing(state: CrawlState, finalStats: Stats, error: Option<Error>)

  /**
   * One claimed crawl in the hands of a live worker. `lease` numbers the claims of that crawl; no statement carries it.
   */
  datatype Session = Session(crawl: CrawlId, lease: nat, phase: Phase, interrupt: Option<Interrupt>, box: Outbox,
                             pagesTotal: nat)

  /**
   * What has happened to a crawl: the pages each of its leases reported, how many of the last are stored, its releases.
   */
  datatype Log = Log(leases: seq<seq<PageRow>>, stored: nat, releases: nat)

  datatype System = System(db: Db, sessions: map<WorkerId, Session>, logs: map<CrawlId, Log>, maxAttempts: nat)

  datatype Ending = Completed | FuseAborted(reason: string) | Raised(text: string) | Interrupted

  /** How the closing flush ended. */
  datatype Closing = Clean | Refused | Unwritten(landed: bool, text: string)

  datatype Event =
    | Create(id: CrawlId, now: int)
    | Claim(w: WorkerId, id: CrawlId, now: int, acked: bool)
    | Reject(w: WorkerId, text: string)
    | Heartbeat(w: WorkerId, now: int, others: string, delivery: Delivery, expired: bool)
    | Stop(w: WorkerId)
    | Emit(w: WorkerId, page: PageResult)
    | StartFlush(w: WorkerId)
    | FinishFlush(w: WorkerId, delivery: Delivery)
    | EndCrawl(w: WorkerId, how: Ending)
    | DropPages(w: WorkerId)
    | Close(w: WorkerId, closing: Closing, others: string)
    | Release(w: WorkerId, delivery: Delivery)
    | Finish(w: WorkerId, now: int, delivery: Delivery, expired: bool)
    | Crash(w: WorkerId)
    | Reap(now: int, leaseSeconds: int)
    | Cancel(id: CrawlId, now: int)

  function Init(maxAttempts: nat): System {
    System(Db(map[], map[]), map[], map[], maxAttempts)
  }

  function WithSession(sys: System, w: WorkerId, s: Session): System {
    sys.(sessions := sys.sessions[w := s])
  }

  function WithoutSession(sys: System, w: WorkerId): System {
    sys.(sessions := sys.sessions - {w})
  }

  function Last(log: Log): seq<PageRow> {
    if |log.leases| == 0 then [] else log.leases[|log.leases| - 1]
  }

  /** The stricter protocol would let a statement through only if its lease is also the latest claim of its crawl. */
  predicate Admitted(sys: System, s: Session, byEpoch: bool) {
    byEpoch ==> s.crawl in sys.logs && s.lease == |sys.logs[s.crawl].leases|
  }

  // The outside world.

  function OnCreate(sys: System, id: CrawlId, now: int): System {
    if id in sys.db.crawls then sys
    else sys.(db := Tables.Create(sys.db, id, now), logs := sys.logs[id := Log([], 0, 0)])
  }

  function OnCancel(sys: System, id: CrawlId, now: int): System {
    sys.(db := RequestCancel(sys.db, id, now).0)
  }

  function OnReap(sys: System, now: int, leaseSeconds: int): System {
    sys.(db := Tables.Reap(sys.db, now, leaseSeconds, sys.maxAttempts))
  }

  function OnCrash(sys: System, w: WorkerId): System {
    WithoutSession(sys, w)
  }

  // A worker with nothing to do. A claim whose acknowledgement is lost leaves the row claimed and the worker idle.

  function OnClaim(sys: System, w: WorkerId, id: CrawlId, now: int, acked: bool): System {
    if w in sys.sessions || id !in sys.db.crawls || id !in sys.logs || sys.db.crawls[id].state != Queued then sys
    else
      var log := sys.logs[id];
      var leases := log.leases + [[]];
      var claimed := sys.(db := Tables.Claim(sys.db, id, w, now),
                          logs := sys.logs[id := log.(leases := leases, stored := 0)]);
      if acked then WithSession(claimed, w, Session(id, |leases|, Crawling, None, EMPTY, 0)) else claimed
  }

  // A worker while its crawl runs.

  function OnReject(sys: System, w: WorkerId, s: Session, text: string): System {
    if s.phase != Crawling || s.interrupt.Some? || s.box != EMPTY then sys
    else WithSession(sys, w, s.(phase := Finishing(Failed, Stats(0, ""), Some(FromCrawl(text)))))
  }

  /** What the watcher makes of a heartbeat: `None` for an exception, `Some(answer)` for a reply. */
  function Watch(reply: Option<Option<bool>>, expired: bool): Option<Interrupt> {
    match reply
    case None => if expired then Some(LeaseLost) else None
    case Some(None) => Some(LeaseLost)
    case Some(Some(flagged)) => if flagged then Some(CancelRequested) else None
  }

  function OnHeartbeat(sys: System, w: WorkerId, s: Session, now: int, others: string, delivery: Delivery,
                       expired: bool, byEpoch: bool): System {
    if s.phase != Crawling then sys
    else
      var (db, answer) :=
        if delivery == RequestLost || !Admitted(sys, s, byEpoch) then (sys.db, None)
        else Tables.Heartbeat(sys.db, s.crawl, w, now, Stats(s.pagesTotal, others));
      var interrupt := Watch(if delivery == Delivered then Some(answer) else None, expired);
      WithSession(sys.(db := db), w, if interrupt.Some? then s.(interrupt := interrupt) else s)
  }

  function OnStop(sys: System, w: WorkerId, s: Session): System {
    if s.phase != Crawling then sys else WithSession(sys, w, s.(interrupt := Some(Stopped)))
  }

  /** The crawler counts a page and hands it to the reporter. */
  function OnEmit(sys: System, w: WorkerId, s: Session, page: PageResult): System {
    if s.phase != Crawling || s.crawl !in sys.logs || !(1 <= s.lease <= |sys.logs[s.crawl].leases|) then sys
    else
      var log := sys.logs[s.crawl];
      var reported := log.leases[s.lease - 1] + [RowOf(s.box.seqNo + 1, page)];
      WithSession(sys.(logs := sys.logs[s.crawl := log.(leases := log.leases[s.lease - 1 := reported])]),
                  w, s.(pagesTotal := s.pagesTotal + 1, box := Report(s.box, page)))
  }

  predicate Writing(s: Session) {
    s.phase == Crawling || s.phase.Draining?
  }

  function OnStartFlush(sys: System, w: WorkerId, s: Session): System {
    if !Writing(s) || !CanFlush(s.box) then sys else WithSession(sys, w, s.(box := BeginFlush(s.box)))
  }

  /** The insert of the batch in flight, and whether it was accepted. */
  function Insert(sys: System, w: WorkerId, s: Session, byEpoch: bool): (System, bool)
    requires s.box.inFlight.Some?
  {
    if !Admitted(sys, s, byEpoch) || s.crawl !in sys.logs then (sys, false)
    else
      var batch := s.box.inFlight.value;
      var (db, accepted) := InsertPages(sys.db, s.crawl, w, batch);
      if !accepted || |batch| == 0 then (sys, accepted)
      else
        var log := sys.logs[s.crawl];
        var last := batch[|batch| - 1].number;
        (sys.(db := db, logs := sys.logs[s.crawl := if log.stored < last then log.(stored := last) else log]), true)
  }

  function OnFinishFlush(sys: System, w: WorkerId, s: Session, delivery: Delivery, byEpoch: bool): System {
    if !Writing(s) || s.box.inFlight.None? then sys
    else
      var (after, accepted) := if delivery == RequestLost then (sys, false) else Insert(sys, w, s, byEpoch);
      WithSession(after, w, s.(box := EndFlush(s.box, accepted && delivery == Delivered)))
  }

  // A worker whose crawl has ended.

  function Outcome(how: Ending, interrupt: Option<Interrupt>): (CrawlState, Option<Error>) {
    match how
    case Completed => (Finished, None)
    case FuseAborted(reason) => (Aborted, Some(FromCrawl(reason)))
    case Raised(text) => (Failed, Some(FromCrawl(text)))
    case Interrupted => (Aborted, if interrupt == Some(CancelRequested) then Some(CancelledByRequest) else None)
  }

  /** A cancelled task that no watcher interrupted belongs to a worker that is itself going away: see `Crash`. */
  function OnEndCrawl(sys: System, w: WorkerId, s: Session, how: Ending): System {
    if s.phase != Crawling || (how.Interrupted? && s.interrupt.None?) then sys
    else
      var (state, error) := Outcome(how, s.interrupt);
      WithSession(sys, w, s.(phase := Draining(state, error)))
  }

  function OnDropPages(sys: System, w: WorkerId, s: Session): System {
    if !s.phase.Draining? || s.interrupt != Some(LeaseLost) then sys else WithSession(sys, w, s.(box := Discard(s.box)))
  }

  /** What an error of the closing flush does to the outcome. */
  function AfterFlush(state: CrawlState, error: Option<Error>, flushError: Option<string>)
    : (CrawlState, Option<Error>)
  {
    match flushError
    case None => (state, error)
    case Some(text) =>
      if state == Finished then (Failed, Some(FromCrawl(text)))
      else if state == Aborted then (state, Some(WithFlushError(error, text)))
      else (state, error)
  }

  /** What `_record` does next; nothing more once the lease is lost. */
  function Recorded(interrupt: Option<Interrupt>, state: CrawlState, stats: Stats, error: Option<Error>)
    : Option<Phase>
  {
    if interrupt == Some(LeaseLost) then None
    else if interrupt == Some(Stopped) then Some(Requeueing(stats))
    else Some(Finishing(state, stats, error))
  }

  function Record(sys: System, w: WorkerId, s: Session, flushError: Option<string>, others: string): System
    requires s.phase.Draining?
  {
    var (state, error) := AfterFlush(s.phase.state, s.phase.error, flushError);
    match Recorded(s.interrupt, state, Stats(s.pagesTotal, others), error)
    case None => WithoutSession(sys, w)
    case Some(phase) => WithSession(sys, w, s.(phase := phase))
  }

  function OnClose(sys: System, w: WorkerId, s: Session, closing: Closing, others: string, byEpoch: bool): System {
    if !s.phase.Draining? then sys
    else
      match closing
      case Clean => if s.box.buffer != [] || s.box.inFlight.Some? then sys else Record(sys, w, s, None, others)
      case Refused =>
        if s.box.inFlight.None? || Insert(sys, w, s, byEpoch).1 then sys
        else Record(sys, w, s.(interrupt := Some(LeaseLost)), None, others)
      case Unwritten(landed, text) =>
        var after := if landed && s.box.inFlight.Some? then Insert(sys, w, s, byEpoch).0 else sys;
        Record(after, w, s.(box := s.box.(inFlight := None)), Some(text), others)
  }

  function OnRelease(sys: System, w: WorkerId, s: Session, delivery: Delivery, byEpoch: bool): System {
    if !s.phase.Requeueing? then sys
    else if delivery == RequestLost then WithoutSession(sys, w)
    else
      var (db, released) := if !Admitted(sys, s, byEpoch) then (sys.db, false) else Tables.Release(sys.db, s.crawl, w);
      if released && s.crawl in sys.logs then
        var log := sys.logs[s.crawl];
        WithoutSession(sys.(db := db, logs := sys.logs[s.crawl := log.(releases := log.releases + 1)]), w)
      else if delivery == ReplyLost then WithoutSession(sys, w)
      else WithSession(sys, w, s.(phase := Finishing(Aborted, s.phase.finalStats, Some(CancelledByRequest))))
  }

  /** The final write is repeated until a reply arrives or the worker has waited for a whole lease. */
  function OnFinish(sys: System, w: WorkerId, s: Session, now: int, delivery: Delivery, expired: bool, byEpoch: bool)
    : System
  {
    if !s.phase.Finishing? then sys
    else
      var db :=
        if delivery == RequestLost || !Admitted(sys, s, byEpoch) then sys.db
        else Tables.Finish(sys.db, s.crawl, w, now, s.phase.state, s.phase.finalStats, s.phase.error).0;
      if delivery == Delivered || expired then WithoutSession(sys.(db := db), w) else sys.(db := db)
  }

  function OnSession(sys: System, w: WorkerId, s: Session, event: Event, byEpoch: bool): System {
    match event
    case Reject(_, text) => OnReject(sys, w, s, text)
    case Heartbeat(_, now, others, delivery, expired) => OnHeartbeat(sys, w, s, now, others, delivery, expired, byEpoch)
    case Stop(_) => OnStop(sys, w, s)
    case Emit(_, page) => OnEmit(sys, w, s, page)
    case StartFlush(_) => OnStartFlush(sys, w, s)
    case FinishFlush(_, delivery) => OnFinishFlush(sys, w, s, delivery, byEpoch)
    case EndCrawl(_, how) => OnEndCrawl(sys, w, s, how)
    case DropPages(_) => OnDropPages(sys, w, s)
    case Close(_, closing, others) => OnClose(sys, w, s, closing, others, byEpoch)
    case Release(_, delivery) => OnRelease(sys, w, s, delivery, byEpoch)
    case Finish(_, now, delivery, expired) => OnFinish(sys, w, s, now, delivery, expired, byEpoch)
    case Crash(_) => OnCrash(sys, w)
    case _ => sys
  }

  function Apply(sys: System, event: Event, byEpoch: bool): System {
    match event
    case Create(id, now) => OnCreate(sys, id, now)
    case Cancel(id, now) => OnCancel(sys, id, now)
    case Reap(now, leaseSeconds) => OnReap(sys, now, leaseSeconds)
    case Claim(w, id, now, acked) => OnClaim(sys, w, id, now, acked)
    case _ => if event.w in sys.sessions then OnSession(sys, event.w, sys.sessions[event.w], event, byEpoch) else sys
  }

  function Run(sys: System, events: seq<Event>, byEpoch: bool): System {
    if |events| == 0 then sys else Apply(Run(sys, events[..|events| - 1], byEpoch), events[|events| - 1], byEpoch)
  }
}
