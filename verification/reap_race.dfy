/**
 * `reap` at READ COMMITTED: each of its three updates sees what committed before it, so a cancel request can fall
 * between two of them. The state machine takes `reap` as one step; here is exactly what that leaves out.
 */
module ReapRace {
  import opened Options
  import opened Tables
  import opened Repository
  import opened Leases
  import opened LeaseInvariants
  import opened LeaseClaims
  import opened LeaseTheorems

  function CancelledIf(here: bool, row: CrawlRow, now: int): CrawlRow {
    if here then CancelledRow(row, now) else row
  }

  /** The row after the three updates of a sweep and a cancel request that comes before update number `at`, or last. */
  function RacedRow(row: CrawlRow, sweep: Sweep, now: int, at: nat): CrawlRow {
    var aborted := UpdatedRow(AbortCancelled, CancelledIf(at == 0, row, now), sweep);
    var requeued := UpdatedRow(RequeueOthers, CancelledIf(at == 1, aborted, now), sweep);
    CancelledIf(at == 3, UpdatedRow(FailTheRest, CancelledIf(at == 2, requeued, now), sweep), now)
  }

  /** A row the first update leaves alone and the second is about to queue. */
  predicate SlipsIn(row: CrawlRow, sweep: Sweep) {
    Expired(row, sweep.now, sweep.leaseSeconds) && !row.cancelRequested && row.attempts < sweep.maxAttempts
  }

  /** A cancel request before all updates or after them is one before or after an atomic reap. */
  lemma OutsideTheSweep(row: CrawlRow, sweep: Sweep, now: int)
    ensures RacedRow(row, sweep, now, 0)
         == Reaped(CancelledRow(row, now), sweep.now, sweep.leaseSeconds, sweep.maxAttempts)
    ensures RacedRow(row, sweep, now, 3)
         == CancelledRow(Reaped(row, sweep.now, sweep.leaseSeconds, sweep.maxAttempts), now)
  {
  }

  /** Exactly when the row is not in order: it is back in the queue, its cancel request forgotten there. */
  lemma RaceFitsIff(id: CrawlId, row: CrawlRow, log: Log, table: PageTable, sweep: Sweep, now: int, at: nat)
    requires CrawlOk(id, row, log, table, sweep.maxAttempts) && at <= 3
    ensures var raced := RacedRow(row, sweep, now, at);
            && (CrawlOk(id, raced, log, table, sweep.maxAttempts) <==> !(at == 1 && SlipsIn(row, sweep)))
            && (at == 1 && SlipsIn(row, sweep) ==> raced.state == Queued && raced.cancelRequested)
            && forall v, lease | 1 <= lease <= |log.leases| :: Spares(v, lease, row, log, raced, log)
  {
  }

  /** A sweep of all rows during which a cancel request for crawl `id` commits before update number `at`, or last. */
  function RacedReap(sys: System, id: CrawlId, now: int, leaseSeconds: int, cancelAt: int, at: nat): System {
    var sweep := Sweep(now, leaseSeconds, sys.maxAttempts);
    sys.(db := sys.db.(crawls := map c | c in sys.db.crawls ::
                         if c == id then RacedRow(sys.db.crawls[c], sweep, cancelAt, at)
                         else Reaped(sys.db.crawls[c], now, leaseSeconds, sys.maxAttempts)))
  }

  /**
   * Exactly when the race breaks the invariant: a request between the first update and the second, for an expired
   * running crawl with attempts left that was not flagged before.
   */
  lemma RacedReapKeepsIff(sys: System, id: CrawlId, now: int, leaseSeconds: int, cancelAt: int, at: nat)
    requires Inv(sys) && id in sys.db.crawls && at <= 3
    ensures var raced := RacedReap(sys, id, now, leaseSeconds, cancelAt, at);
            var slips := at == 1 && SlipsIn(sys.db.crawls[id], Sweep(now, leaseSeconds, sys.maxAttempts));
            && (Inv(raced) <==> !slips)
            && (slips ==> raced.db.crawls[id].state == Queued && raced.db.crawls[id].cancelRequested)
  {
    var raced, sweep := RacedReap(sys, id, now, leaseSeconds, cancelAt, at), Sweep(now, leaseSeconds, sys.maxAttempts);
    RaceFitsIff(id, sys.db.crawls[id], sys.logs[id], sys.db.pages, sweep, cancelAt, at);
    if !(at == 1 && SlipsIn(sys.db.crawls[id], sweep)) {
      forall c | c in raced.db.crawls
        ensures CrawlOk(c, raced.db.crawls[c], raced.logs[c], raced.db.pages, raced.maxAttempts)
      {
        ReapFits(c, sys.db.crawls[c], sys.logs[c], sys.db.pages, sys.maxAttempts, now, leaseSeconds);
      }
      assert raced.db.crawls.Keys == sys.db.crawls.Keys;
      forall v | v in sys.sessions ensures StepSpares(sys, raced, v) {
        assert SessionFits(sys, v);
        var c := sys.sessions[v].crawl;
        ReapFits(c, sys.db.crawls[c], sys.logs[c], sys.db.pages, sys.maxAttempts, now, leaseSeconds);
      }
      SessionsStay(sys, raced);
    }
  }

  /** Some run reaches a row that a cancel request can slip past exactly when a crawl may be claimed more than once. */
  lemma RaceIsPossibleIff(maxAttempts: nat)
    requires maxAttempts >= 1
    ensures (exists events: seq<Event>, id: CrawlId, now: int, leaseSeconds: int ::
             CanSlip(maxAttempts, events, id, now, leaseSeconds))
       <==> maxAttempts >= 2
  {
    forall events: seq<Event>, id: CrawlId, now: int, leaseSeconds: int
      | CanSlip(maxAttempts, events, id, now, leaseSeconds)
      ensures maxAttempts >= 2
    {
      AttemptAccounting(maxAttempts, events, id, "");
    }
    if maxAttempts >= 2 {
      ClaimedOnceCanSlip(maxAttempts);
    }
  }

  ghost predicate CanSlip(maxAttempts: nat, events: seq<Event>, id: CrawlId, now: int, leaseSeconds: int) {
    var db := Reached(maxAttempts, events).db;
    id in db.crawls && SlipsIn(db.crawls[id], Sweep(now, leaseSeconds, maxAttempts))
  }

  lemma ClaimedOnceCanSlip(maxAttempts: nat)
    requires maxAttempts >= 2
    ensures CanSlip(maxAttempts, [Event.Create(0, 0), Event.Claim("", 0, 0, false)], 0, 1, 0)
  {
    var create, claim := Event.Create(0, 0), Event.Claim("", 0, 0, false);
    Extended(maxAttempts, [], create);
    Extended(maxAttempts, [create], claim);
    assert [] + [create] == [create] && [create] + [claim] == [create, claim];
  }

  /** The slip delays the cancellation by one claim: the next worker's first answered heartbeat reports it. */
  lemma NextClaimIsToldAtOnce(db: Db, id: CrawlId, sweep: Sweep, cancelAt: int, w: WorkerId, claimAt: int, now: int,
                              stats: Stats)
    requires id in db.crawls && SlipsIn(db.crawls[id], sweep)
    ensures var raced := WithRow(db, id, RacedRow(db.crawls[id], sweep, cancelAt, 1));
            var claimed := Tables.Claim(raced, id, w, claimAt);
            && raced.crawls[id].state == Queued
            && claimed.crawls[id].attempts == db.crawls[id].attempts + 1
            && Tables.Heartbeat(claimed, id, w, now, stats).1 == Some(true)
            && !Tables.Release(claimed, id, w).1
  {
  }
}
