/**
 * Claims, and what happens to a crawl without its worker: creation, cancellation and the reaper. Every step keeps
 * `Inv`.
 */
module LeaseClaims {
  import opened Options
  import opened Tables
  import opened Reporting
  import opened Leases
  import opened LeaseInvariants
  import opened LeaseSteps
  import opened LeasePages

  function NewLease(log: Log): Log {
    log.(leases := log.leases + [[]], stored := 0)
  }

  function Claimant(id: CrawlId, log: Log, acked: bool): Option<Session> {
    if acked then Some(Session(id, |log.leases|, Crawling, None, EMPTY, 0)) else None
  }

  lemma ClaimFits(id: CrawlId, row: CrawlRow, log: Log, table: PageTable, maxAttempts: nat, w: WorkerId, now: int)
    requires CrawlOk(id, row, log, table, maxAttempts) && row.state == Queued
    ensures CrawlOk(id, ClaimedRow(row, w, now), NewLease(log), WithoutPages(table, id), maxAttempts)
    ensures SessionOk(w, Claimant(id, NewLease(log), true).value, ClaimedRow(row, w, now), NewLease(log))
  {
    forall i | 0 <= i < |NewLease(log).leases| ensures NumberedFromOne(NewLease(log).leases[i]) {
      assert i < |log.leases| ==> NumberedFromOne(log.leases[i]);
    }
  }

  lemma ClaimKeeps(sys: System, w: WorkerId, id: CrawlId, now: int, acked: bool)
    requires Inv(sys)
    ensures Inv(Apply(sys, Event.Claim(w, id, now, acked), false))
  {
    var sys' := OnClaim(sys, w, id, now, acked);
    if w !in sys.sessions && id in sys.db.crawls && sys.db.crawls[id].state == Queued {
      var row, log := sys.db.crawls[id], sys.logs[id];
      ClaimFits(id, row, log, sys.db.pages, sys.maxAttempts, w, now);
      ClaimShape(sys, w, id, now, acked);
      ClaimSparesOthers(sys, sys', w, id, now);
      WorkerStep(sys, sys', w, id);
    }
  }

  lemma ClaimShape(sys: System, w: WorkerId, id: CrawlId, now: int, acked: bool)
    requires w !in sys.sessions && id in sys.db.crawls && id in sys.logs && sys.db.crawls[id].state == Queued
    ensures var sys' := OnClaim(sys, w, id, now, acked);
            && OnlyCrawl(sys, sys', id) && OnlySession(sys, sys', w)
            && sys'.db.crawls[id] == ClaimedRow(sys.db.crawls[id], w, now) && sys'.logs[id] == NewLease(sys.logs[id])
            && sys'.db.pages == WithoutPages(sys.db.pages, id)
            && (w in sys'.sessions <==> acked)
            && (acked ==> sys'.sessions[w] == Claimant(id, NewLease(sys.logs[id]), true).value)
  {
  }

  lemma ClaimSparesOthers(sys: System, sys': System, w: WorkerId, id: CrawlId, now: int)
    requires Inv(sys) && id in sys.db.crawls && id in sys'.db.crawls && id in sys'.logs
    requires sys'.db.crawls[id] == ClaimedRow(sys.db.crawls[id], w, now) && sys'.logs[id] == NewLease(sys.logs[id])
    ensures SparesOthers(sys, sys', w, id)
  {
    forall v | v in sys.sessions && v != w && sys.sessions[v].crawl == id ensures StepSpares(sys, sys', v) {
      assert SessionFits(sys, v);
    }
  }

  lemma CreateKeeps(sys: System, id: CrawlId, now: int)
    requires Inv(sys)
    ensures Inv(Apply(sys, Event.Create(id, now), false))
  {
    if id !in sys.db.crawls {
      var sys' := OnCreate(sys, id, now);
      forall s: nat ensures (id, s) !in sys'.db.pages {
        assert (id, s).0 == id;
      }
      assert OnlyCrawl(sys, sys', id);
      OtherCrawlsOk(sys, sys', id);
      forall v | v in sys.sessions ensures StepSpares(sys, sys', v) {
        assert SessionFits(sys, v);
      }
      SessionsStay(sys, sys');
    }
  }

  lemma CancelFits(id: CrawlId, row: CrawlRow, log: Log, table: PageTable, maxAttempts: nat, now: int)
    requires CrawlOk(id, row, log, table, maxAttempts)
    ensures CrawlOk(id, CancelledRow(row, now), log, table, maxAttempts)
    ensures forall v, lease | 1 <= lease <= |log.leases| :: Spares(v, lease, row, log, CancelledRow(row, now), log)
  {
  }

  lemma CancelKeeps(sys: System, id: CrawlId, now: int)
    requires Inv(sys)
    ensures Inv(Apply(sys, Cancel(id, now), false))
  {
    if id in sys.db.crawls {
      var row, sys' := sys.db.crawls[id], WithCrawl(sys, id, CancelledRow(sys.db.crawls[id], now), sys.logs[id]);
      CancelShape(sys, id, now);
      assert CrawlOk(id, row, sys.logs[id], sys.db.pages, sys.maxAttempts);
      CancelFits(id, row, sys.logs[id], sys.db.pages, sys.maxAttempts, now);
      OtherCrawlsOk(sys, sys', id);
      forall v | v in sys.sessions ensures StepSpares(sys, sys', v) {
        assert SessionFits(sys, v);
      }
      SessionsStay(sys, sys');
    }
  }

  lemma CancelShape(sys: System, id: CrawlId, now: int)
    requires id in sys.db.crawls && id in sys.logs
    ensures OnCancel(sys, id, now) == WithCrawl(sys, id, CancelledRow(sys.db.crawls[id], now), sys.logs[id])
  {
    assert sys.logs[id := sys.logs[id]] == sys.logs;
    assert sys.db.crawls[id := sys.db.crawls[id]] == sys.db.crawls;
  }

  lemma ReapFits(id: CrawlId, row: CrawlRow, log: Log, table: PageTable, maxAttempts: nat, now: int, leaseSeconds: int)
    requires CrawlOk(id, row, log, table, maxAttempts)
    ensures var row' := Reaped(row, now, leaseSeconds, maxAttempts);
            && CrawlOk(id, row', log, table, maxAttempts)
            && forall v, lease | 1 <= lease <= |log.leases| :: Spares(v, lease, row, log, row', log)
  {
  }

  lemma ReapKeeps(sys: System, now: int, leaseSeconds: int)
    requires Inv(sys)
    ensures Inv(Apply(sys, Event.Reap(now, leaseSeconds), false))
  {
    var sys' := OnReap(sys, now, leaseSeconds);
    forall id | id in sys'.db.crawls
      ensures CrawlOk(id, sys'.db.crawls[id], sys'.logs[id], sys'.db.pages, sys'.maxAttempts)
    {
      ReapFits(id, sys.db.crawls[id], sys.logs[id], sys.db.pages, sys.maxAttempts, now, leaseSeconds);
    }
    assert sys'.db.crawls.Keys == sys.db.crawls.Keys;
    forall v | v in sys.sessions ensures StepSpares(sys, sys', v) {
      assert SessionFits(sys, v);
      var c := sys.sessions[v].crawl;
      ReapFits(c, sys.db.crawls[c], sys.logs[c], sys.db.pages, sys.maxAttempts, now, leaseSeconds);
    }
    SessionsStay(sys, sys');
  }

  lemma OutsideStepKeeps(sys: System, event: Event)
    requires Inv(sys) && IsOutside(event)
    ensures Inv(Apply(sys, event, false))
  {
    match event
    case Create(id, now) => CreateKeeps(sys, id, now);
    case Cancel(id, now) => CancelKeeps(sys, id, now);
    case Reap(now, leaseSeconds) => ReapKeeps(sys, now, leaseSeconds);
    case Claim(w, id, now, acked) => ClaimKeeps(sys, w, id, now, acked);
  }

  lemma WorkerStepKeeps(sys: System, event: Event)
    requires Inv(sys) && !IsOutside(event)
    ensures Inv(Apply(sys, event, false))
  {
    match event
    case Reject(w, text) => RejectKeeps(sys, w, text);
    case Heartbeat(w, now, others, delivery, expired) => HeartbeatKeeps(sys, w, now, others, delivery, expired);
    case Stop(w) => StopKeeps(sys, w);
    case Emit(w, page) => EmitKeeps(sys, w, page);
    case StartFlush(w) => StartFlushKeeps(sys, w);
    case FinishFlush(w, delivery) => FinishFlushKeeps(sys, w, delivery);
    case EndCrawl(w, how) => EndCrawlKeeps(sys, w, how);
    case DropPages(w) => DropPagesKeeps(sys, w);
    case Close(w, closing, others) => CloseKeeps(sys, w, closing, others);
    case Release(w, delivery) => ReleaseKeeps(sys, w, delivery);
    case Finish(w, now, delivery, expired) => FinishKeeps(sys, w, now, delivery, expired);
    case Crash(w) => CrashKeeps(sys, w);
  }

  /** Every step of every worker, the reaper and the API keeps the invariant. */
  lemma StepKeeps(sys: System, event: Event)
    requires Inv(sys)
    ensures Inv(Apply(sys, event, false))
  {
    if IsOutside(event) {
      OutsideStepKeeps(sys, event);
    } else {
      WorkerStepKeeps(sys, event);
    }
  }
}
