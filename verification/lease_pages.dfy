/** Steps of the lease protocol that report or store pages. */
module LeasePages {
  import opened Options
  import opened Tables
  import opened Reporting
  import opened Leases
  import opened LeaseInvariants
  import opened LeaseSteps

  /** The table grows to the end of the batch, or stays as it is: rows already there are rows of this lease. */
  lemma {:induction false} InsertStores(table: PageTable, id: CrawlId, pages: seq<PageRow>, k: nat, start: nat,
                                        batch: seq<PageRow>)
    requires NumberedFromOne(pages) && StoresPrefix(table, id, pages, k)
    requires start <= k && start + |batch| <= |pages| && batch == pages[start..start + |batch|]
    ensures StoresPrefix(InsertIgnoring(table, id, batch), id, pages,
                         if k < start + |batch| then start + |batch| else k)
    ensures forall key: (CrawlId, nat) | key.0 != id :: key in table <==> key in InsertIgnoring(table, id, batch)
    ensures forall key | key in table ::
              key in InsertIgnoring(table, id, batch) && InsertIgnoring(table, id, batch)[key] == table[key]
  {
    if |batch| > 0 {
      var n := |batch| - 1;
      InsertStores(table, id, pages, k, start, batch[..n]);
      assert batch[n] == pages[start + n];
    }
  }

  lemma InsertShape(sys: System, w: WorkerId, s: Session)
    requires s.crawl in sys.db.crawls && s.crawl in sys.logs && s.box.inFlight.Some? && |s.box.inFlight.value| > 0
    ensures var row, log, batch := sys.db.crawls[s.crawl], sys.logs[s.crawl], s.box.inFlight.value;
            Insert(sys, w, s, false)
            == if Beating(row, w) then
                 (sys.(db := sys.db.(pages := InsertIgnoring(sys.db.pages, s.crawl, batch)),
                       logs := sys.logs[s.crawl := WithStored(log, batch[|batch| - 1].number)]), true)
               else (sys, false)
  {
  }

  function WithStored(log: Log, last: nat): Log {
    if log.stored < last then log.(stored := last) else log
  }

  /** The batch in flight is a stretch of what the latest lease reported, from what counts as written on. */
  lemma BatchOfLatest(w: WorkerId, s: Session, row: CrawlRow, log: Log)
    requires SessionOk(w, s, row, log) && row.workerId == Some(w) && s.box.inFlight.Some? && NumberedFromOne(Last(log))
    ensures var start, batch := s.box.written, s.box.inFlight.value;
            && s.lease == |log.leases| && start <= log.stored && 0 < |batch| && start + |batch| <= |Last(log)|
            && batch == Last(log)[start..start + |batch|] && batch[|batch| - 1].number == start + |batch|
  {
    var start, batch := s.box.written, s.box.inFlight.value;
    assert batch == Last(log)[start..start + |batch|];
    assert batch[|batch| - 1] == Last(log)[start + |batch| - 1];
  }

  lemma InsertFits(w: WorkerId, s: Session, row: CrawlRow, log: Log, table: PageTable, maxAttempts: nat)
    requires SessionOk(w, s, row, log) && Beating(row, w) && s.box.inFlight.Some? && |s.box.inFlight.value| > 0
    requires CrawlOk(s.crawl, row, log, table, maxAttempts)
    ensures var batch := s.box.inFlight.value;
            var log' := WithStored(log, batch[|batch| - 1].number);
            && s.lease == |log'.leases| && s.box.written + |batch| <= log'.stored
            && CrawlOk(s.crawl, row, log', InsertIgnoring(table, s.crawl, batch), maxAttempts)
            && SessionOk(w, s, row, log')
  {
    assert NumberedFromOne(Last(log));
    BatchOfLatest(w, s, row, log);
    InsertStores(table, s.crawl, Last(log), log.stored, s.box.written, s.box.inFlight.value);
  }

  /** The insert keeps the invariant, and what it accepts is stored. */
  lemma InsertKeeps(sys: System, w: WorkerId)
    requires Inv(sys) && w in sys.sessions && sys.sessions[w].box.inFlight.Some?
    ensures var s := sys.sessions[w];
            var (sys', accepted) := Insert(sys, w, s, false);
            && Inv(sys') && sys'.sessions == sys.sessions
            && (accepted ==> SessionFits(sys', w) && s.lease == |sys'.logs[s.crawl].leases|
                             && s.box.written + |s.box.inFlight.value| <= sys'.logs[s.crawl].stored)
  {
    var s := sys.sessions[w];
    Facts(sys, w);
    InsertShape(sys, w, s);
    var row, batch := sys.db.crawls[s.crawl], s.box.inFlight.value;
    if Beating(row, w) {
      var table := InsertIgnoring(sys.db.pages, s.crawl, batch);
      var log := WithStored(sys.logs[s.crawl], batch[|batch| - 1].number);
      InsertFits(w, s, row, sys.logs[s.crawl], sys.db.pages, sys.maxAttempts);
      PagesStep(sys, w, table, log);
    }
  }

  function WithPages(sys: System, id: CrawlId, table: PageTable, log: Log): System {
    sys.(db := sys.db.(pages := table), logs := sys.logs[id := log])
  }

  lemma PagesStep(sys: System, w: WorkerId, table: PageTable, log: Log)
    requires Inv(sys) && w in sys.sessions && SessionFits(sys, w)
    requires sys.sessions[w].box.inFlight.Some?
    requires table == InsertIgnoring(sys.db.pages, sys.sessions[w].crawl, sys.sessions[w].box.inFlight.value)
    requires log.leases == sys.logs[sys.sessions[w].crawl].leases
             && sys.logs[sys.sessions[w].crawl].stored <= log.stored
    requires CrawlOk(sys.sessions[w].crawl, sys.db.crawls[sys.sessions[w].crawl], log, table, sys.maxAttempts)
    requires SessionOk(w, sys.sessions[w], sys.db.crawls[sys.sessions[w].crawl], log)
    ensures Inv(WithPages(sys, sys.sessions[w].crawl, table, log))
  {
    var c := sys.sessions[w].crawl;
    var sys' := WithPages(sys, c, table, log);
    OnlyPages(sys, c, sys.sessions[w].box.inFlight.value, log);
    GentleInsert(w, sys.db.crawls[c]);
    OthersSpared(sys, sys', w, sys.db.crawls[c], log);
    WorkerStep(sys, sys', w, c);
  }

  lemma GentleInsert(w: WorkerId, row: CrawlRow)
    ensures Gentle(w, row, row)
  {
  }

  lemma OnlyPages(sys: System, id: CrawlId, batch: seq<PageRow>, log: Log)
    requires id in sys.db.crawls && id in sys.logs
    ensures OnlyCrawl(sys, WithPages(sys, id, InsertIgnoring(sys.db.pages, id, batch), log), id)
  {
    OtherPagesKept(sys.db.pages, id, batch);
  }

  lemma {:induction false} OtherPagesKept(table: PageTable, id: CrawlId, batch: seq<PageRow>)
    ensures forall key: (CrawlId, nat) | key.0 != id :: key in table <==> key in InsertIgnoring(table, id, batch)
    ensures forall key | key in table ::
              key in InsertIgnoring(table, id, batch) && InsertIgnoring(table, id, batch)[key] == table[key]
  {
    if |batch| > 0 {
      OtherPagesKept(table, id, batch[..|batch| - 1]);
    }
  }

  lemma EndFlushFits(w: WorkerId, s: Session, row: CrawlRow, log: Log, committed: bool)
    requires SessionOk(w, s, row, log) && Writing(s) && s.box.inFlight.Some?
    requires committed ==> s.box.written + |s.box.inFlight.value| <= log.stored
    ensures SessionOk(w, s.(box := EndFlush(s.box, committed)), row, log)
  {
    var pages := log.leases[s.lease - 1];
    if Holds(s.box, pages, false) {
      EndFlushHolds(s.box, pages, false, committed);
    } else {
      EndFlushHolds(s.box, pages, true, committed);
    }
  }

  function InsertIf(landed: bool, sys: System, w: WorkerId, s: Session): (System, bool)
    requires s.box.inFlight.Some?
  {
    if landed then Insert(sys, w, s, false) else (sys, false)
  }

  lemma InsertIfKeeps(landed: bool, sys: System, w: WorkerId)
    requires Inv(sys) && w in sys.sessions && sys.sessions[w].box.inFlight.Some?
    ensures var s := sys.sessions[w];
            var (sys', accepted) := InsertIf(landed, sys, w, s);
            && Inv(sys') && sys'.sessions == sys.sessions && SessionFits(sys', w)
            && (accepted ==> s.box.written + |s.box.inFlight.value| <= sys'.logs[s.crawl].stored)
  {
    Facts(sys, w);
    if landed {
      InsertKeeps(sys, w);
      Facts(InsertIf(landed, sys, w, sys.sessions[w]).0, w);
    }
  }

  lemma FinishFlushShape(sys: System, w: WorkerId, s: Session, delivery: Delivery)
    requires Writing(s) && s.box.inFlight.Some?
    ensures var (after, accepted) := InsertIf(delivery != RequestLost, sys, w, s);
            OnFinishFlush(sys, w, s, delivery, false)
            == Replaced(after, w, Some(s.(box := EndFlush(s.box, accepted && delivery == Delivered))))
  {
  }

  lemma FinishFlushKeeps(sys: System, w: WorkerId, delivery: Delivery)
    requires Inv(sys)
    ensures Inv(Apply(sys, Event.FinishFlush(w, delivery), false))
  {
    OfSession(sys, w, Event.FinishFlush(w, delivery));
    if w in sys.sessions {
      assert OnSession(sys, w, sys.sessions[w], Event.FinishFlush(w, delivery), false)
          == OnFinishFlush(sys, w, sys.sessions[w], delivery, false);
      var s := sys.sessions[w];
      if Writing(s) && s.box.inFlight.Some? {
        FinishFlushShape(sys, w, s, delivery);
        InsertIfKeeps(delivery != RequestLost, sys, w);
        var (after, accepted) := InsertIf(delivery != RequestLost, sys, w, s);
        EndFlushFits(w, s, after.db.crawls[s.crawl], after.logs[s.crawl], accepted && delivery == Delivered);
        OwnStep(after, w, Some(s.(box := EndFlush(s.box, accepted && delivery == Delivered))));
      }
    }
  }

  lemma RefusedFits(w: WorkerId, s: Session, row: CrawlRow, log: Log)
    requires SessionOk(w, s, row, log) && s.phase.Draining?
    ensures SessionOk(w, s.(interrupt := Some(LeaseLost)), row, log)
  {
  }

  lemma UnwrittenFits(w: WorkerId, s: Session, row: CrawlRow, log: Log)
    requires SessionOk(w, s, row, log) && s.phase.Draining?
    ensures SessionOk(w, s.(box := s.box.(inFlight := None)), row, log)
  {
  }

  lemma UnwrittenKeeps(sys: System, w: WorkerId, landed: bool, text: string, others: string)
    requires Inv(sys) && w in sys.sessions && sys.sessions[w].phase.Draining?
    ensures Inv(OnClose(sys, w, sys.sessions[w], Unwritten(landed, text), others, false))
  {
    var s := sys.sessions[w];
    Facts(sys, w);
    var after := if s.box.inFlight.Some? then InsertIf(landed, sys, w, s).0 else sys;
    if s.box.inFlight.Some? {
      InsertIfKeeps(landed, sys, w);
    }
    UnwrittenFits(w, s, after.db.crawls[s.crawl], after.logs[s.crawl]);
    RecordKeeps(after, w, s.(box := s.box.(inFlight := None)), Some(text), others);
  }

  lemma CloseKeeps(sys: System, w: WorkerId, closing: Closing, others: string)
    requires Inv(sys)
    ensures Inv(Apply(sys, Event.Close(w, closing, others), false))
  {
    OfSession(sys, w, Event.Close(w, closing, others));
    if w in sys.sessions {
      assert OnSession(sys, w, sys.sessions[w], Event.Close(w, closing, others), false)
          == OnClose(sys, w, sys.sessions[w], closing, others, false);
      var s := sys.sessions[w];
      if s.phase.Draining? {
        Facts(sys, w);
        match closing
        case Clean =>
          if s.box.buffer == [] && s.box.inFlight.None? {
            RecordKeeps(sys, w, s, None, others);
          }
        case Refused =>
          if s.box.inFlight.Some? && !Insert(sys, w, s, false).1 {
            RefusedFits(w, s, sys.db.crawls[s.crawl], sys.logs[s.crawl]);
            RecordKeeps(sys, w, s.(interrupt := Some(LeaseLost)), None, others);
          }
        case Unwritten(landed, text) => UnwrittenKeeps(sys, w, landed, text, others);
      }
    }
  }

  /** One more page under the worker's own lease. */
  function WithPage(log: Log, lease: nat, page: PageRow): Log
    requires 1 <= lease <= |log.leases|
  {
    log.(leases := log.leases[lease - 1 := log.leases[lease - 1] + [page]])
  }

  lemma EmitFits(w: WorkerId, s: Session, row: CrawlRow, log: Log, id: CrawlId, table: PageTable, maxAttempts: nat,
                 page: PageResult)
    requires SessionOk(w, s, row, log) && CrawlOk(id, row, log, table, maxAttempts) && s.phase == Crawling
    ensures var log' := WithPage(log, s.lease, RowOf(s.box.seqNo + 1, page));
            && CrawlOk(id, row, log', table, maxAttempts)
            && SessionOk(w, Emitted(s, page), row, log')
  {
    ReportHolds(s.box, log.leases[s.lease - 1], page);
    var log' := WithPage(log, s.lease, RowOf(s.box.seqNo + 1, page));
    assert NumberedFromOne(log.leases[s.lease - 1]);
    forall i | 0 <= i < |log'.leases| ensures NumberedFromOne(log'.leases[i]) {
      assert NumberedFromOne(log.leases[i]);
    }
    assert Last(log) <= Last(log');
    MorePages(table, id, Last(log), Last(log'), log.stored);
  }

  lemma MorePages(table: PageTable, id: CrawlId, pages: seq<PageRow>, more: seq<PageRow>, k: nat)
    requires StoresPrefix(table, id, pages, k) && pages <= more
    ensures StoresPrefix(table, id, more, k)
  {
  }

  function Emitted(s: Session, page: PageResult): Session {
    s.(pagesTotal := s.pagesTotal + 1, box := Report(s.box, page))
  }

  lemma EmitShape(sys: System, w: WorkerId, s: Session, page: PageResult)
    requires s.phase == Crawling && s.crawl in sys.db.crawls && s.crawl in sys.logs
    requires 1 <= s.lease <= |sys.logs[s.crawl].leases|
    ensures var log := WithPage(sys.logs[s.crawl], s.lease, RowOf(s.box.seqNo + 1, page));
            var sys' := OnEmit(sys, w, s, page);
            && sys' == WithSession(sys.(logs := sys.logs[s.crawl := log]), w, Emitted(s, page))
            && OnlyCrawl(sys, sys', s.crawl) && OnlySession(sys, sys', w)
  {
  }

  lemma EmitOnKeeps(sys: System, w: WorkerId, page: PageResult)
    requires Inv(sys) && w in sys.sessions && sys.sessions[w].phase == Crawling
    ensures Inv(OnEmit(sys, w, sys.sessions[w], page))
  {
    Facts(sys, w);
    var s := sys.sessions[w];
    var c, sys' := s.crawl, OnEmit(sys, w, s, page);
    EmitFits(w, s, sys.db.crawls[c], sys.logs[c], c, sys.db.pages, sys.maxAttempts, page);
    EmitShape(sys, w, s, page);
    OthersKeepTheirPages(sys, sys', w, sys'.logs[c]);
    WorkerStep(sys, sys', w, c);
  }

  lemma EmitKeeps(sys: System, w: WorkerId, page: PageResult)
    requires Inv(sys)
    ensures Inv(Apply(sys, Event.Emit(w, page), false))
  {
    OfSession(sys, w, Event.Emit(w, page));
    if w in sys.sessions {
      assert OnSession(sys, w, sys.sessions[w], Event.Emit(w, page), false) == OnEmit(sys, w, sys.sessions[w], page);
      if sys.sessions[w].phase == Crawling {
        EmitOnKeeps(sys, w, page);
      }
    }
  }

  lemma OthersKeepTheirPages(sys: System, sys': System, w: WorkerId, log: Log)
    requires Inv(sys) && w in sys.sessions && SessionFits(sys, w)
    requires var c, s := sys.sessions[w].crawl, sys.sessions[w];
             && sys'.db == sys.db && c in sys'.logs && sys'.logs[c] == log
             && |log.leases| == |sys.logs[c].leases| && log.stored == sys.logs[c].stored
             && forall i | 0 <= i < |log.leases| && i != s.lease - 1 :: log.leases[i] == sys.logs[c].leases[i]
    ensures SparesOthers(sys, sys', w, sys.sessions[w].crawl)
  {
    forall v | v in sys.sessions && v != w && sys.sessions[v].crawl == sys.sessions[w].crawl
      ensures StepSpares(sys, sys', v)
    {
      assert SessionFits(sys, v);
    }
  }
}
