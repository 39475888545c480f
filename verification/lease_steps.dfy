/** Every step of the lease protocol keeps the invariant, whatever is delivered or lost. */
module LeaseSteps {
  import opened Options
  import opened Tables
  import opened Reporting
  import opened Leases
  import opened LeaseInvariants

  predicate IsOutside(event: Event) {
    event.Create? || event.Cancel? || event.Reap? || event.Claim?
  }

  lemma OfSession(sys: System, w: WorkerId, event: Event)
    requires !IsOutside(event) && event.w == w
    ensures Apply(sys, event, false)
         == if w in sys.sessions then OnSession(sys, w, sys.sessions[w], event, false) else sys
  {
  }

  /** What the invariant says of a worker's own crawl. */
  lemma Facts(sys: System, w: WorkerId)
    requires Inv(sys) && w in sys.sessions
    ensures SessionFits(sys, w)
    ensures var c := sys.sessions[w].crawl; CrawlOk(c, sys.db.crawls[c], sys.logs[c], sys.db.pages, sys.maxAttempts)
  {
  }

  // Steps inside one worker.

  function Replaced(sys: System, w: WorkerId, s: Option<Session>): System {
    if s.Some? then WithSession(sys, w, s.value) else WithoutSession(sys, w)
  }

  ghost predicate Continues(sys: System, w: WorkerId, s: Option<Session>, row: CrawlRow, log: Log)
    requires w in sys.sessions
  {
    s.Some? ==>
      && s.value.crawl == sys.sessions[w].crawl && s.value.lease == sys.sessions[w].lease
      && SessionOk(w, s.value, row, log)
  }

  lemma OwnStep(sys: System, w: WorkerId, s: Option<Session>)
    requires Inv(sys) && w in sys.sessions && SessionFits(sys, w)
    requires var c := sys.sessions[w].crawl; Continues(sys, w, s, sys.db.crawls[c], sys.logs[c])
    ensures Inv(Replaced(sys, w, s))
  {
    var sys' := Replaced(sys, w, s);
    OthersFit(sys, w, s);
    OwnFits(sys, w, s);
    LeasesStayDistinct(sys, sys', w, sys.sessions[w].crawl);
  }

  lemma OthersFit(sys: System, w: WorkerId, s: Option<Session>)
    requires SessionsOk(sys)
    ensures forall v | v in Replaced(sys, w, s).sessions && v != w :: SessionFits(Replaced(sys, w, s), v)
  {
    forall v | v in Replaced(sys, w, s).sessions && v != w ensures SessionFits(Replaced(sys, w, s), v) {
      assert SessionFits(sys, v);
    }
  }

  lemma OwnFits(sys: System, w: WorkerId, s: Option<Session>)
    requires w in sys.sessions && SessionFits(sys, w)
    requires var c := sys.sessions[w].crawl; Continues(sys, w, s, sys.db.crawls[c], sys.logs[c])
    ensures s.Some? ==> SessionFits(Replaced(sys, w, s), w)
    ensures OnlySession(sys, Replaced(sys, w, s), w) && OwnSession(sys, Replaced(sys, w, s), w, sys.sessions[w].crawl)
  {
  }

  lemma CrashKeeps(sys: System, w: WorkerId)
    requires Inv(sys)
    ensures Inv(Apply(sys, Crash(w), false))
  {
    OfSession(sys, w, Crash(w));
    if w in sys.sessions {
      assert OnSession(sys, w, sys.sessions[w], Crash(w), false) == Replaced(sys, w, None);
      Facts(sys, w);
      OwnStep(sys, w, None);
    }
  }

  function Rejected(s: Session, text: string): Session {
    s.(phase := Finishing(Failed, Stats(0, ""), Some(FromCrawl(text))))
  }

  lemma RejectFits(w: WorkerId, s: Session, row: CrawlRow, log: Log, text: string)
    requires SessionOk(w, s, row, log) && s.phase == Crawling
    ensures SessionOk(w, Rejected(s, text), row, log)
  {
  }

  lemma RejectKeeps(sys: System, w: WorkerId, text: string)
    requires Inv(sys)
    ensures Inv(Apply(sys, Event.Reject(w, text), false))
  {
    OfSession(sys, w, Event.Reject(w, text));
    if w in sys.sessions {
      assert OnSession(sys, w, sys.sessions[w], Event.Reject(w, text), false)
          == OnReject(sys, w, sys.sessions[w], text);
      var s := sys.sessions[w];
      if s.phase == Crawling && s.interrupt.None? && s.box == EMPTY {
        Facts(sys, w);
        RejectFits(w, s, sys.db.crawls[s.crawl], sys.logs[s.crawl], text);
        OwnStep(sys, w, Some(Rejected(s, text)));
      }
    }
  }

  lemma StopFits(w: WorkerId, s: Session, row: CrawlRow, log: Log)
    requires SessionOk(w, s, row, log) && s.phase == Crawling
    ensures SessionOk(w, s.(interrupt := Some(Stopped)), row, log)
  {
  }

  lemma StopKeeps(sys: System, w: WorkerId)
    requires Inv(sys)
    ensures Inv(Apply(sys, Event.Stop(w), false))
  {
    OfSession(sys, w, Event.Stop(w));
    if w in sys.sessions {
      assert OnSession(sys, w, sys.sessions[w], Event.Stop(w), false) == OnStop(sys, w, sys.sessions[w]);
      var s := sys.sessions[w];
      if s.phase == Crawling {
        Facts(sys, w);
        StopFits(w, s, sys.db.crawls[s.crawl], sys.logs[s.crawl]);
        OwnStep(sys, w, Some(s.(interrupt := Some(Stopped))));
      }
    }
  }

  lemma StartFlushFits(w: WorkerId, s: Session, row: CrawlRow, log: Log)
    requires SessionOk(w, s, row, log) && Writing(s) && CanFlush(s.box)
    ensures SessionOk(w, s.(box := BeginFlush(s.box)), row, log)
  {
    BeginFlushHolds(s.box, log.leases[s.lease - 1], false);
  }

  lemma StartFlushKeeps(sys: System, w: WorkerId)
    requires Inv(sys)
    ensures Inv(Apply(sys, Event.StartFlush(w), false))
  {
    OfSession(sys, w, Event.StartFlush(w));
    if w in sys.sessions {
      assert OnSession(sys, w, sys.sessions[w], Event.StartFlush(w), false) == OnStartFlush(sys, w, sys.sessions[w]);
      var s := sys.sessions[w];
      Facts(sys, w);
      if Writing(s) && CanFlush(s.box) {
        StartFlushFits(w, s, sys.db.crawls[s.crawl], sys.logs[s.crawl]);
        OwnStep(sys, w, Some(s.(box := BeginFlush(s.box))));
      }
    }
  }

  function CrawlEnded(s: Session, how: Ending): Session {
    s.(phase := Draining(Outcome(how, s.interrupt).0, Outcome(how, s.interrupt).1))
  }

  lemma EndCrawlFits(w: WorkerId, s: Session, row: CrawlRow, log: Log, how: Ending)
    requires SessionOk(w, s, row, log) && s.phase == Crawling
    ensures SessionOk(w, CrawlEnded(s, how), row, log)
  {
  }

  lemma EndCrawlKeeps(sys: System, w: WorkerId, how: Ending)
    requires Inv(sys)
    ensures Inv(Apply(sys, Event.EndCrawl(w, how), false))
  {
    OfSession(sys, w, Event.EndCrawl(w, how));
    if w in sys.sessions {
      assert OnSession(sys, w, sys.sessions[w], Event.EndCrawl(w, how), false)
          == OnEndCrawl(sys, w, sys.sessions[w], how);
      var s := sys.sessions[w];
      if s.phase == Crawling && (how.Interrupted? ==> s.interrupt.Some?) {
        Facts(sys, w);
        EndCrawlFits(w, s, sys.db.crawls[s.crawl], sys.logs[s.crawl], how);
        OwnStep(sys, w, Some(CrawlEnded(s, how)));
      }
    }
  }

  lemma DropPagesFits(w: WorkerId, s: Session, row: CrawlRow, log: Log)
    requires SessionOk(w, s, row, log) && s.phase.Draining? && s.interrupt == Some(LeaseLost)
    ensures SessionOk(w, s.(box := Discard(s.box)), row, log)
  {
  }

  lemma DropPagesKeeps(sys: System, w: WorkerId)
    requires Inv(sys)
    ensures Inv(Apply(sys, Event.DropPages(w), false))
  {
    OfSession(sys, w, Event.DropPages(w));
    if w in sys.sessions {
      assert OnSession(sys, w, sys.sessions[w], Event.DropPages(w), false) == OnDropPages(sys, w, sys.sessions[w]);
      var s := sys.sessions[w];
      if s.phase.Draining? && s.interrupt == Some(LeaseLost) {
        Facts(sys, w);
        DropPagesFits(w, s, sys.db.crawls[s.crawl], sys.logs[s.crawl]);
        OwnStep(sys, w, Some(s.(box := Discard(s.box))));
      }
    }
  }

  lemma RecordKeeps(sys: System, w: WorkerId, s: Session, flushError: Option<string>, others: string)
    requires Inv(sys) && w in sys.sessions && SessionFits(sys, w)
    requires s.crawl == sys.sessions[w].crawl && s.lease == sys.sessions[w].lease
    requires SessionOk(w, s, sys.db.crawls[s.crawl], sys.logs[s.crawl]) && s.phase.Draining?
    requires flushError.None? && s.interrupt != Some(LeaseLost) ==> s.box.buffer == []
    ensures Inv(Record(sys, w, s, flushError, others))
  {
    var (state, error) := AfterFlush(s.phase.state, s.phase.error, flushError);
    var next := Recorded(s.interrupt, state, Stats(s.pagesTotal, others), error);
    RecordedFits(w, s, flushError, others, sys.db.crawls[s.crawl], sys.logs[s.crawl]);
    OwnStep(sys, w, if next.Some? then Some(s.(phase := next.value)) else None);
  }

  lemma RecordedFits(w: WorkerId, s: Session, flushError: Option<string>, others: string, row: CrawlRow, log: Log)
    requires SessionOk(w, s, row, log) && s.phase.Draining?
    requires flushError.None? && s.interrupt != Some(LeaseLost) ==> s.box.buffer == []
    ensures var (state, error) := AfterFlush(s.phase.state, s.phase.error, flushError);
            var next := Recorded(s.interrupt, state, Stats(s.pagesTotal, others), error);
            next.Some? ==> SessionOk(w, s.(phase := next.value), row, log)
  {
    if flushError.Some? {
      assert SaysCancelled(Some(WithFlushError(s.phase.error, flushError.value))) == SaysCancelled(s.phase.error);
    }
  }

  // Steps that write to the row of the worker's crawl.

  /** The change takes nothing another worker relies on. */
  ghost predicate Gentle(w: WorkerId, row: CrawlRow, row': CrawlRow) {
    && (row.cancelRequested ==> row'.cancelRequested)
    && (row'.workerId.Some? && row'.workerId != Some(w) ==>
          && row'.workerId == row.workerId && row'.state == row.state
          && row'.stats == row.stats && row'.error == row.error)
    && (row'.state == Finished ==> row.state == Finished || row.workerId == Some(w))
  }

  /** What a fenced write to the row of `w` must satisfy, told from the row and the session alone. */
  ghost predicate RowFits(w: WorkerId, s: Option<Session>, row: CrawlRow, log: Log, row': CrawlRow, log': Log,
                          maxAttempts: nat)
  {
    && Gentle(w, row, row') && RowOk(row', log', maxAttempts)
    && log'.leases == log.leases && log'.stored == log.stored
    && (s.Some? ==> SessionOk(w, s.value, row', log'))
  }

  function WithCrawl(sys: System, id: CrawlId, row: CrawlRow, log: Log): System {
    sys.(db := WithRow(sys.db, id, row), logs := sys.logs[id := log])
  }

  lemma RowStep(sys: System, w: WorkerId, row: CrawlRow, log: Log, s: Option<Session>)
    requires Inv(sys) && w in sys.sessions && SessionFits(sys, w)
    requires var c := sys.sessions[w].crawl; RowFits(w, s, sys.db.crawls[c], sys.logs[c], row, log, sys.maxAttempts)
    requires s.Some? ==> s.value.crawl == sys.sessions[w].crawl && s.value.lease == sys.sessions[w].lease
    ensures Inv(Replaced(WithCrawl(sys, sys.sessions[w].crawl, row, log), w, s))
  {
    var c := sys.sessions[w].crawl;
    var sys' := Replaced(WithCrawl(sys, c, row, log), w, s);
    NewRowOk(c, sys.db.crawls[c], sys.logs[c], row, log, sys.db.pages, sys.maxAttempts);
    OnlyRow(sys, sys', w, c, s, row, log);
    OthersSpared(sys, sys', w, row, log);
    WorkerStep(sys, sys', w, c);
  }

  lemma NewRowOk(id: CrawlId, row: CrawlRow, log: Log, row': CrawlRow, log': Log, table: PageTable, maxAttempts: nat)
    requires CrawlOk(id, row, log, table, maxAttempts) && RowOk(row', log', maxAttempts)
    requires log'.leases == log.leases && log'.stored == log.stored
    ensures CrawlOk(id, row', log', table, maxAttempts)
  {
  }

  lemma OnlyRow(sys: System, sys': System, w: WorkerId, id: CrawlId, s: Option<Session>, row: CrawlRow, log: Log)
    requires sys' == Replaced(WithCrawl(sys, id, row, log), w, s)
    ensures OnlyCrawl(sys, sys', id) && OnlySession(sys, sys', w)
  {
  }

  lemma OthersSpared(sys: System, sys': System, w: WorkerId, row: CrawlRow, log: Log)
    requires Inv(sys) && w in sys.sessions && SessionFits(sys, w)
    requires var c := sys.sessions[w].crawl;
             && Gentle(w, sys.db.crawls[c], row)
             && log.leases == sys.logs[c].leases && log.stored >= sys.logs[c].stored
             && c in sys'.db.crawls && c in sys'.logs && sys'.db.crawls[c] == row && sys'.logs[c] == log
    ensures SparesOthers(sys, sys', w, sys.sessions[w].crawl)
  {
    forall v | v in sys.sessions && v != w && sys.sessions[v].crawl == sys.sessions[w].crawl
      ensures StepSpares(sys, sys', v)
    {
      assert SessionFits(sys, v);
    }
  }

  function AfterBeat(w: WorkerId, s: Session, row: CrawlRow, delivery: Delivery, expired: bool): Session {
    var answer := if delivery != RequestLost && Beating(row, w) then Some(row.cancelRequested) else None;
    var interrupt := Watch(if delivery == Delivered then Some(answer) else None, expired);
    if interrupt.Some? then s.(interrupt := interrupt) else s
  }

  lemma HeartbeatShape(sys: System, w: WorkerId, s: Session, now: int, others: string, delivery: Delivery,
                       expired: bool)
    requires s.crawl in sys.db.crawls && s.crawl in sys.logs && s.phase == Crawling
    ensures OnHeartbeat(sys, w, s, now, others, delivery, expired, false)
         == if delivery != RequestLost && Beating(sys.db.crawls[s.crawl], w) then
              Replaced(WithCrawl(sys, s.crawl, Beaten(sys.db.crawls[s.crawl], now, Stats(s.pagesTotal, others)),
                                 sys.logs[s.crawl]),
                       w, Some(AfterBeat(w, s, sys.db.crawls[s.crawl], delivery, expired)))
            else Replaced(sys, w, Some(AfterBeat(w, s, sys.db.crawls[s.crawl], delivery, expired)))
  {
    assert sys.logs[s.crawl := sys.logs[s.crawl]] == sys.logs;
  }

  lemma HeartbeatFits(w: WorkerId, s: Session, row: CrawlRow, log: Log, maxAttempts: nat, now: int, stats: Stats,
                      delivery: Delivery, expired: bool)
    requires SessionOk(w, s, row, log) && RowOk(row, log, maxAttempts) && s.phase == Crawling
    ensures SessionOk(w, AfterBeat(w, s, row, delivery, expired), row, log)
    ensures Beating(row, w) ==>
              RowFits(w, Some(AfterBeat(w, s, row, delivery, expired)), row, log, Beaten(row, now, stats), log,
                      maxAttempts)
  {
  }

  lemma HeartbeatKeeps(sys: System, w: WorkerId, now: int, others: string, delivery: Delivery, expired: bool)
    requires Inv(sys)
    ensures Inv(Apply(sys, Event.Heartbeat(w, now, others, delivery, expired), false))
  {
    OfSession(sys, w, Event.Heartbeat(w, now, others, delivery, expired));
    if w in sys.sessions {
      assert OnSession(sys, w, sys.sessions[w], Event.Heartbeat(w, now, others, delivery, expired), false)
          == OnHeartbeat(sys, w, sys.sessions[w], now, others, delivery, expired, false);
      var s := sys.sessions[w];
      Facts(sys, w);
      if s.phase == Crawling {
        var row, log, stats := sys.db.crawls[s.crawl], sys.logs[s.crawl], Stats(s.pagesTotal, others);
        var s' := AfterBeat(w, s, row, delivery, expired);
        HeartbeatShape(sys, w, s, now, others, delivery, expired);
        HeartbeatFits(w, s, row, log, sys.maxAttempts, now, stats, delivery, expired);
        if delivery != RequestLost && Beating(row, w) {
          RowStep(sys, w, Beaten(row, now, stats), log, Some(s'));
        } else {
          OwnStep(sys, w, Some(s'));
        }
      }
    }
  }

  function Ended(row: CrawlRow, s: Session, now: int): CrawlRow
    requires s.phase.Finishing?
  {
    EndedRow(row, now, s.phase.state, s.phase.finalStats, s.phase.error)
  }

  function AfterFinish(s: Session, delivery: Delivery, expired: bool): Option<Session> {
    if delivery == Delivered || expired then None else Some(s)
  }

  lemma FinishShape(sys: System, w: WorkerId, s: Session, now: int, delivery: Delivery, expired: bool)
    requires w in sys.sessions && s == sys.sessions[w]
    requires s.crawl in sys.db.crawls && s.crawl in sys.logs && s.phase.Finishing?
    ensures OnFinish(sys, w, s, now, delivery, expired, false)
         == if delivery != RequestLost && sys.db.crawls[s.crawl].workerId == Some(w) then
              Replaced(WithCrawl(sys, s.crawl, Ended(sys.db.crawls[s.crawl], s, now), sys.logs[s.crawl]), w,
                       AfterFinish(s, delivery, expired))
            else Replaced(sys, w, AfterFinish(s, delivery, expired))
  {
    assert sys.logs[s.crawl := sys.logs[s.crawl]] == sys.logs;
    assert sys.sessions[w := s] == sys.sessions;
  }

  lemma FinishFits(w: WorkerId, s: Session, row: CrawlRow, log: Log, maxAttempts: nat, now: int, s': Option<Session>)
    requires SessionOk(w, s, row, log) && RowOk(row, log, maxAttempts) && s.phase.Finishing?
    requires row.workerId == Some(w) && log.stored <= |Last(log)| && (s' == None || s' == Some(s))
    ensures RowFits(w, s', row, log, Ended(row, s, now), log, maxAttempts)
  {
  }

  lemma FinishKeeps(sys: System, w: WorkerId, now: int, delivery: Delivery, expired: bool)
    requires Inv(sys)
    ensures Inv(Apply(sys, Event.Finish(w, now, delivery, expired), false))
  {
    OfSession(sys, w, Event.Finish(w, now, delivery, expired));
    if w in sys.sessions {
      assert OnSession(sys, w, sys.sessions[w], Event.Finish(w, now, delivery, expired), false)
          == OnFinish(sys, w, sys.sessions[w], now, delivery, expired, false);
      var s := sys.sessions[w];
      Facts(sys, w);
      if s.phase.Finishing? {
        var row, log, s' := sys.db.crawls[s.crawl], sys.logs[s.crawl], AfterFinish(s, delivery, expired);
        FinishShape(sys, w, s, now, delivery, expired);
        if delivery != RequestLost && row.workerId == Some(w) {
          FinishFits(w, s, row, log, sys.maxAttempts, now, s');
          RowStep(sys, w, Ended(row, s, now), log, s');
        } else {
          OwnStep(sys, w, s');
        }
      }
    }
  }

  lemma ReleaseFits(w: WorkerId, s: Session, row: CrawlRow, log: Log, maxAttempts: nat)
    requires SessionOk(w, s, row, log) && RowOk(row, log, maxAttempts)
    requires Releasable(row, w)
    ensures RowFits(w, None, row, log, Released(row), WithRelease(log), maxAttempts)
  {
  }

  lemma ReleaseShape(sys: System, w: WorkerId, s: Session, delivery: Delivery)
    requires s.crawl in sys.db.crawls && s.crawl in sys.logs && s.phase.Requeueing?
    ensures OnRelease(sys, w, s, delivery, false)
         == if delivery != RequestLost && Releasable(sys.db.crawls[s.crawl], w) then
              Replaced(WithCrawl(sys, s.crawl, Released(sys.db.crawls[s.crawl]), WithRelease(sys.logs[s.crawl])),
                       w, None)
            else Replaced(sys, w, AfterRefusal(s, delivery))
  {
  }

  function WithRelease(log: Log): Log {
    log.(releases := log.releases + 1)
  }

  /** A refused release is followed by the final write of an aborted crawl; an unanswered one by nothing. */
  function AfterRefusal(s: Session, delivery: Delivery): Option<Session>
    requires s.phase.Requeueing?
  {
    if delivery != Delivered then None
    else Some(s.(phase := Finishing(Aborted, s.phase.finalStats, Some(CancelledByRequest))))
  }

  lemma ReleaseKeeps(sys: System, w: WorkerId, delivery: Delivery)
    requires Inv(sys)
    ensures Inv(Apply(sys, Event.Release(w, delivery), false))
  {
    OfSession(sys, w, Event.Release(w, delivery));
    if w in sys.sessions {
      assert OnSession(sys, w, sys.sessions[w], Event.Release(w, delivery), false)
          == OnRelease(sys, w, sys.sessions[w], delivery, false);
      var s := sys.sessions[w];
      Facts(sys, w);
      if s.phase.Requeueing? {
        var row, log := sys.db.crawls[s.crawl], sys.logs[s.crawl];
        ReleaseShape(sys, w, s, delivery);
        if delivery != RequestLost && Releasable(row, w) {
          ReleaseFits(w, s, row, log, sys.maxAttempts);
          RowStep(sys, w, Released(row), WithRelease(log), None);
        } else {
          RefusalFits(w, s, row, log, delivery);
          OwnStep(sys, w, AfterRefusal(s, delivery));
        }
      }
    }
  }

  lemma RefusalFits(w: WorkerId, s: Session, row: CrawlRow, log: Log, delivery: Delivery)
    requires SessionOk(w, s, row, log) && s.phase.Requeueing?
    requires delivery == Delivered ==> !Releasable(row, w)
    ensures var next := AfterRefusal(s, delivery); next.Some? ==> SessionOk(w, next.value, row, log)
  {
  }
}
