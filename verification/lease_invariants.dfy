/** What every reachable state of the lease protocol satisfies, and when a step keeps it. */
module LeaseInvariants {
  import opened Options
  import opened Tables
  import opened Reporting
  import opened Leases

  /** Pages of a lease are numbered 1, 2, 3 and so on. */
  ghost predicate NumberedFromOne(pages: seq<PageRow>) {
    forall i | 0 <= i < |pages| :: pages[i].number == i + 1
  }

  /** The table holds exactly rows 1 to `k` of `pages` for crawl `id`. */
  ghost predicate StoresPrefix(table: PageTable, id: CrawlId, pages: seq<PageRow>, k: nat) {
    && k <= |pages|
    && (forall s: nat :: (id, s) in table <==> 1 <= s <= k)
    && (forall s: nat | 1 <= s <= k && (id, s) in table :: table[(id, s)] == pages[s - 1])
  }

  ghost predicate RowOk(row: CrawlRow, log: Log, maxAttempts: nat) {
    && row.attempts == |log.leases| - log.releases
    && 0 <= row.attempts <= maxAttempts
    && (row.workerId.Some? ==> row.attempts >= 1 && row.state != Queued)
    && (row.state == Queued ==> row.attempts < maxAttempts && !row.cancelRequested)
    && (row.state == Running ==> row.workerId.Some? && row.heartbeatAt.Some?)
    && (row.state == Finished ==>
          |log.leases| >= 1 && row.stats.Some? && row.stats.value.pagesTotal == log.stored == |Last(log)|)
    && (SaysCancelled(row.error) ==> row.cancelRequested)
  }

  ghost predicate CrawlOk(id: CrawlId, row: CrawlRow, log: Log, table: PageTable, maxAttempts: nat) {
    && RowOk(row, log, maxAttempts)
    && (forall i | 0 <= i < |log.leases| :: NumberedFromOne(log.leases[i]))
    && StoresPrefix(table, id, Last(log), log.stored)
  }

  /** The phase fits the row: only a worker that has begun its final write may hold a row that is not running. */
  ghost predicate PhaseOk(w: WorkerId, s: Session, row: CrawlRow) {
    var held := row.workerId == Some(w);
    match s.phase
    case Crawling => held ==> row.state == Running
    case Requeueing(_) => held ==> row.state == Running
    case Draining(state, error) =>
      (held ==> row.state == Running) && IsTerminal(state) && (SaysCancelled(error) ==> row.cancelRequested)
    case Finishing(state, stats, error) =>
      && IsTerminal(state)
      && (held ==> row.state == Running || (row.state == state && row.stats == Some(stats) && row.error == error))
      && (held && SaysCancelled(error) ==> row.cancelRequested)
      && (state == Finished ==> s.box.written == stats.pagesTotal == s.pagesTotal)
  }

  ghost predicate SessionOk(w: WorkerId, s: Session, row: CrawlRow, log: Log) {
    && 1 <= s.lease <= |log.leases|
    && s.pagesTotal == |log.leases[s.lease - 1]|
    && (Holds(s.box, log.leases[s.lease - 1], false)
        || (s.phase.Draining? && s.interrupt == Some(LeaseLost) && Holds(s.box, log.leases[s.lease - 1], true)))
    && (s.lease == |log.leases| ==> s.box.written <= log.stored && (row.state == Finished ==> s.phase.Finishing?))
    && (row.workerId == Some(w) ==> s.lease == |log.leases|)
    && (s.interrupt == Some(CancelRequested) ==> row.cancelRequested)
    && PhaseOk(w, s, row)
  }

  ghost predicate CrawlsOk(sys: System) {
    && sys.db.crawls.Keys == sys.logs.Keys
    && (forall key | key in sys.db.pages :: key.0 in sys.db.crawls)
    && (forall id | id in sys.db.crawls :: CrawlOk(id, sys.db.crawls[id], sys.logs[id], sys.db.pages, sys.maxAttempts))
  }

  ghost predicate SessionFits(sys: System, w: WorkerId)
    requires w in sys.sessions
  {
    var s := sys.sessions[w];
    s.crawl in sys.db.crawls && s.crawl in sys.logs && SessionOk(w, s, sys.db.crawls[s.crawl], sys.logs[s.crawl])
  }

  ghost predicate SessionsOk(sys: System) {
    && (forall w | w in sys.sessions :: SessionFits(sys, w))
    && (forall v, w | v in sys.sessions && w in sys.sessions && v != w ::
          sys.sessions[v].crawl == sys.sessions[w].crawl ==> sys.sessions[v].lease != sys.sessions[w].lease)
  }

  ghost predicate Inv(sys: System) {
    sys.maxAttempts >= 1 && CrawlsOk(sys) && SessionsOk(sys)
  }

  /** The change of a row and its log leaves alone whatever session `v` under `lease` relies on. */
  ghost predicate Spares(v: WorkerId, lease: nat, row: CrawlRow, log: Log, row': CrawlRow, log': Log)
    requires 1 <= lease <= |log.leases|
  {
    && |log.leases| <= |log'.leases|
    && log'.leases[lease - 1] == log.leases[lease - 1]
    && (row.cancelRequested ==> row'.cancelRequested)
    && (row'.workerId == Some(v) ==>
          row.workerId == Some(v) && row'.state == row.state && row'.stats == row.stats && row'.error == row.error
          && |log'.leases| == |log.leases|)
    && (lease == |log'.leases| ==> log.stored <= log'.stored && (row'.state == Finished ==> row.state == Finished))
  }

  lemma SparedSession(v: WorkerId, s: Session, row: CrawlRow, log: Log, row': CrawlRow, log': Log)
    requires SessionOk(v, s, row, log) && Spares(v, s.lease, row, log, row', log')
    ensures SessionOk(v, s, row', log')
  {
  }

  /** Nothing changed but crawl `id`: its row, its pages and its log. */
  ghost predicate OnlyCrawl(sys: System, sys': System, id: CrawlId) {
    && sys'.maxAttempts == sys.maxAttempts
    && sys'.db.crawls.Keys == sys.db.crawls.Keys + {id} && sys'.logs.Keys == sys.logs.Keys + {id}
    && (forall other | other in sys.db.crawls && other != id :: sys'.db.crawls[other] == sys.db.crawls[other])
    && (forall other | other in sys.logs && other != id :: sys'.logs[other] == sys.logs[other])
    && (forall key: (CrawlId, nat) | key.0 != id :: key in sys.db.pages <==> key in sys'.db.pages)
    && (forall key: (CrawlId, nat) | key in sys.db.pages && key in sys'.db.pages && key.0 != id ::
          sys'.db.pages[key] == sys.db.pages[key])
  }

  lemma OtherCrawlsOk(sys: System, sys': System, id: CrawlId)
    requires CrawlsOk(sys) && OnlyCrawl(sys, sys', id)
    requires CrawlOk(id, sys'.db.crawls[id], sys'.logs[id], sys'.db.pages, sys.maxAttempts)
    ensures CrawlsOk(sys')
  {
    forall key | key in sys'.db.pages ensures key.0 in sys'.db.crawls {
      if key.0 != id {
        assert key in sys.db.pages;
      }
    }
    forall other | other in sys.db.crawls && other != id
      ensures CrawlOk(other, sys'.db.crawls[other], sys'.logs[other], sys'.db.pages, sys.maxAttempts)
    {
      OtherPagesStay(sys.db.pages, sys'.db.pages, id, other, Last(sys.logs[other]), sys.logs[other].stored);
    }
  }

  lemma OtherPagesStay(table: PageTable, table': PageTable, id: CrawlId, other: CrawlId, pages: seq<PageRow>, k: nat)
    requires other != id && StoresPrefix(table, other, pages, k)
    requires forall key: (CrawlId, nat) | key.0 != id :: key in table <==> key in table'
    requires forall key: (CrawlId, nat) | key in table && key in table' && key.0 != id :: table'[key] == table[key]
    ensures StoresPrefix(table', other, pages, k)
  {
    forall s: nat
      ensures (other, s) in table' <==> (other, s) in table
      ensures (other, s) in table ==> table'[(other, s)] == table[(other, s)]
    {
      assert (other, s).0 != id;
    }
  }

  /** The step spares what session `v` relies on. */
  ghost predicate StepSpares(sys: System, sys': System, v: WorkerId)
    requires v in sys.sessions
  {
    var s := sys.sessions[v];
    && s.crawl in sys.db.crawls && s.crawl in sys.logs && s.crawl in sys'.db.crawls && s.crawl in sys'.logs
    && 1 <= s.lease <= |sys.logs[s.crawl].leases|
    && Spares(v, s.lease, sys.db.crawls[s.crawl], sys.logs[s.crawl], sys'.db.crawls[s.crawl], sys'.logs[s.crawl])
  }

  /** A step that starts no session, moves none and ends none. */
  lemma SessionsStay(sys: System, sys': System)
    requires Inv(sys) && sys'.maxAttempts == sys.maxAttempts && CrawlsOk(sys')
    requires sys'.sessions == sys.sessions
    requires forall v | v in sys.sessions :: StepSpares(sys, sys', v)
    ensures Inv(sys')
  {
    forall v | v in sys.sessions ensures SessionFits(sys', v) {
      assert StepSpares(sys, sys', v);
      var s := sys.sessions[v];
      SparedSession(v, s, sys.db.crawls[s.crawl], sys.logs[s.crawl], sys'.db.crawls[s.crawl], sys'.logs[s.crawl]);
    }
  }

  ghost predicate OnlySession(sys: System, sys': System, w: WorkerId) {
    && (forall v | v in sys.sessions && v != w :: v in sys'.sessions && sys'.sessions[v] == sys.sessions[v])
    && (forall v | v in sys'.sessions && v != w :: v in sys.sessions)
  }

  /** Other workers on crawl `id` are spared. */
  ghost predicate SparesOthers(sys: System, sys': System, w: WorkerId, id: CrawlId) {
    forall v | v in sys.sessions && v != w && sys.sessions[v].crawl == id :: StepSpares(sys, sys', v)
  }

  /** The session `w` has after the step: the one it had, further on, or the newest claim of the crawl. */
  ghost predicate OwnSession(sys: System, sys': System, w: WorkerId, id: CrawlId)
    requires id in sys.logs
  {
    w in sys'.sessions ==>
      && sys'.sessions[w].crawl == id && SessionFits(sys', w)
      && (sys'.sessions[w].lease > |sys.logs[id].leases|
          || (w in sys.sessions && sys.sessions[w].crawl == id && sys.sessions[w].lease == sys'.sessions[w].lease))
  }

  lemma OtherSessionsFit(sys: System, sys': System, w: WorkerId, id: CrawlId)
    requires Inv(sys) && OnlyCrawl(sys, sys', id) && OnlySession(sys, sys', w) && SparesOthers(sys, sys', w, id)
    ensures forall v | v in sys'.sessions && v != w :: SessionFits(sys', v)
  {
    forall v | v in sys'.sessions && v != w ensures SessionFits(sys', v) {
      assert v in sys.sessions && SessionFits(sys, v);
      var s := sys.sessions[v];
      if s.crawl == id {
        assert StepSpares(sys, sys', v);
        SparedSession(v, s, sys.db.crawls[id], sys.logs[id], sys'.db.crawls[id], sys'.logs[id]);
      }
    }
  }

  lemma LeasesStayDistinct(sys: System, sys': System, w: WorkerId, id: CrawlId)
    requires Inv(sys) && id in sys.logs && OnlySession(sys, sys', w) && OwnSession(sys, sys', w, id)
    ensures forall u, v | u in sys'.sessions && v in sys'.sessions && u != v ::
              sys'.sessions[u].crawl == sys'.sessions[v].crawl ==> sys'.sessions[u].lease != sys'.sessions[v].lease
  {
    forall u, v | u in sys'.sessions && v in sys'.sessions && u != v && sys'.sessions[u].crawl == sys'.sessions[v].crawl
      ensures sys'.sessions[u].lease != sys'.sessions[v].lease
    {
      assert u != w ==> SessionFits(sys, u);
      assert v != w ==> SessionFits(sys, v);
    }
  }

  /** A step of worker `w` on crawl `id`: its own session must fit the new row, and the others must be spared. */
  lemma WorkerStep(sys: System, sys': System, w: WorkerId, id: CrawlId)
    requires Inv(sys) && id in sys.logs && OnlyCrawl(sys, sys', id) && OnlySession(sys, sys', w)
    requires CrawlOk(id, sys'.db.crawls[id], sys'.logs[id], sys'.db.pages, sys.maxAttempts)
    requires SparesOthers(sys, sys', w, id) && OwnSession(sys, sys', w, id)
    ensures Inv(sys')
  {
    OtherCrawlsOk(sys, sys', id);
    OtherSessionsFit(sys, sys', w, id);
    LeasesStayDistinct(sys, sys', w, id);
    forall v | v in sys'.sessions ensures SessionFits(sys', v) {
    }
  }
}
