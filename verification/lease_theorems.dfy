/** What holds in every run of the lease protocol, from the empty tables and whatever the steps are. */
module LeaseTheorems {
  import opened Options
  import opened Tables
  import opened Reporting
  import opened Leases
  import opened LeaseInvariants
  import opened LeaseSteps
  import opened LeasePages
  import opened LeaseClaims

  /** The system after `events`, with statements fenced by worker id alone, as the repository writes them. */
  function Reached(maxAttempts: nat, events: seq<Event>): System {
    Run(Init(maxAttempts), events, false)
  }

  lemma InitOk(maxAttempts: nat)
    requires maxAttempts >= 1
    ensures Inv(Init(maxAttempts))
  {
  }

  lemma LimitStays(sys: System, event: Event, byEpoch: bool)
    ensures Apply(sys, event, byEpoch).maxAttempts == sys.maxAttempts
  {
  }

  lemma {:induction false} RunKeeps(maxAttempts: nat, events: seq<Event>)
    requires maxAttempts >= 1
    ensures Inv(Reached(maxAttempts, events)) && Reached(maxAttempts, events).maxAttempts == maxAttempts
  {
    if |events| == 0 {
      InitOk(maxAttempts);
    } else {
      var before, event := events[..|events| - 1], events[|events| - 1];
      RunKeeps(maxAttempts, before);
      StepKeeps(Reached(maxAttempts, before), event);
      LimitStays(Reached(maxAttempts, before), event, false);
      assert Reached(maxAttempts, events) == Apply(Reached(maxAttempts, before), event, false);
    }
  }

  lemma Extended(maxAttempts: nat, events: seq<Event>, event: Event)
    ensures Reached(maxAttempts, events + [event]) == Apply(Reached(maxAttempts, events), event, false)
  {
    assert (events + [event])[..|events + [event]| - 1] == events;
  }

  // Fencing by worker id is as strong as an epoch.

  lemma InsertAgrees(sys: System, w: WorkerId)
    requires Inv(sys) && w in sys.sessions && sys.sessions[w].box.inFlight.Some?
    ensures Insert(sys, w, sys.sessions[w], true) == Insert(sys, w, sys.sessions[w], false)
  {
    Facts(sys, w);
    InsertShape(sys, w, sys.sessions[w]);
  }

  /** A fenced statement of a worker that is not on the row changes nothing, whether or not it is admitted. */
  lemma StatementsAgree(sys: System, w: WorkerId, s: Session, event: Event)
    requires s.crawl in sys.db.crawls && s.crawl in sys.logs
    requires HeldBy(sys.db, s.crawl, w) ==> Admitted(sys, s, true)
    requires s.box.inFlight.Some? ==> Insert(sys, w, s, true) == Insert(sys, w, s, false)
    ensures OnSession(sys, w, s, event, true) == OnSession(sys, w, s, event, false)
  {
  }

  lemma SessionStepAgrees(sys: System, w: WorkerId, event: Event)
    requires Inv(sys) && w in sys.sessions
    ensures OnSession(sys, w, sys.sessions[w], event, true) == OnSession(sys, w, sys.sessions[w], event, false)
  {
    Facts(sys, w);
    if sys.sessions[w].box.inFlight.Some? {
      InsertAgrees(sys, w);
    }
    StatementsAgree(sys, w, sys.sessions[w], event);
  }

  /** A run whose every statement also had to prove its lease to be the latest claim would be the same run. */
  lemma {:induction false} FencingEqualsEpoch(maxAttempts: nat, events: seq<Event>)
    requires maxAttempts >= 1
    ensures Run(Init(maxAttempts), events, true) == Run(Init(maxAttempts), events, false)
  {
    if |events| > 0 {
      var before, event := events[..|events| - 1], events[|events| - 1];
      FencingEqualsEpoch(maxAttempts, before);
      RunKeeps(maxAttempts, before);
      match event
      case Create(_, _) =>
      case Cancel(_, _) =>
      case Reap(_, _) =>
      case Claim(_, _, _, _) =>
      case _ =>
        if event.w in Reached(maxAttempts, before).sessions {
          SessionStepAgrees(Reached(maxAttempts, before), event.w, event);
        }
    }
  }

  /** A worker whose id is on the row holds the latest claim, and no other live session holds that claim. */
  lemma HolderHasTheLatestLease(maxAttempts: nat, events: seq<Event>, w: WorkerId)
    requires maxAttempts >= 1
    ensures var sys := Reached(maxAttempts, events);
            w in sys.sessions ==>
              var s := sys.sessions[w];
              && s.crawl in sys.db.crawls && s.crawl in sys.logs && 1 <= s.lease <= |sys.logs[s.crawl].leases|
              && (HeldBy(sys.db, s.crawl, w) ==> s.lease == |sys.logs[s.crawl].leases|)
              && forall v | v in sys.sessions && v != w && sys.sessions[v].crawl == s.crawl ::
                 sys.sessions[v].lease != s.lease
  {
    RunKeeps(maxAttempts, events);
    var sys := Reached(maxAttempts, events);
    if w in sys.sessions {
      Facts(sys, w);
    }
  }

  // Pages.

  /** The stored pages are rows 1 to `stored` of what the latest lease reported. */
  lemma StoredPagesAreAPrefix(maxAttempts: nat, events: seq<Event>, id: CrawlId)
    requires maxAttempts >= 1
    ensures var sys := Reached(maxAttempts, events);
            id in sys.db.crawls ==>
              && id in sys.logs && NumberedFromOne(Last(sys.logs[id]))
              && StoresPrefix(sys.db.pages, id, Last(sys.logs[id]), sys.logs[id].stored)
  {
    RunKeeps(maxAttempts, events);
    var sys := Reached(maxAttempts, events);
    if id in sys.db.crawls {
      assert CrawlOk(id, sys.db.crawls[id], sys.logs[id], sys.db.pages, maxAttempts);
    }
  }

  /**
   * What the reporter counts as written is stored, and the rest of what was reported waits in its buffer, in order.
   * This holds of the latest lease, even after the reaper took the row and until the crawl is claimed again.
   */
  lemma WrittenIsStored(maxAttempts: nat, events: seq<Event>, w: WorkerId)
    requires maxAttempts >= 1
    ensures var sys := Reached(maxAttempts, events);
            w in sys.sessions ==>
              var s := sys.sessions[w];
              && s.crawl in sys.logs
              && (HeldBy(sys.db, s.crawl, w) ==> s.lease == |sys.logs[s.crawl].leases|)
              && (s.lease == |sys.logs[s.crawl].leases| ==>
                    && s.box.written <= sys.logs[s.crawl].stored <= |Last(sys.logs[s.crawl])| == s.box.seqNo
                    && (s.interrupt != Some(LeaseLost) ==> Last(sys.logs[s.crawl])[s.box.written..] == s.box.buffer))
  {
    RunKeeps(maxAttempts, events);
    var sys := Reached(maxAttempts, events);
    if w in sys.sessions {
      Facts(sys, w);
    }
  }

  lemma BatchIsOfTheLatestLease(w: WorkerId, s: Session, row: CrawlRow, log: Log, table: PageTable, i: nat)
    requires SessionOk(w, s, row, log) && row.workerId == Some(w) && NumberedFromOne(Last(log))
    requires StoresPrefix(table, s.crawl, Last(log), log.stored)
    requires s.box.inFlight.Some? && i < |s.box.inFlight.value|
    ensures var page := s.box.inFlight.value[i];
            (s.crawl, page.number) in table ==> table[(s.crawl, page.number)] == page
  {
    assert s.box.inFlight.value[i] == Last(log)[s.box.written + i];
  }

  /** A row that is skipped because its number is taken is already stored with the same contents. */
  lemma ConflictsAreDuplicates(maxAttempts: nat, events: seq<Event>, w: WorkerId, i: nat)
    requires maxAttempts >= 1
    ensures var sys := Reached(maxAttempts, events);
            w in sys.sessions && HeldBy(sys.db, sys.sessions[w].crawl, w) && sys.sessions[w].box.inFlight.Some?
            && i < |sys.sessions[w].box.inFlight.value| ==>
              var c, page := sys.sessions[w].crawl, sys.sessions[w].box.inFlight.value[i];
              (c, page.number) in sys.db.pages ==> sys.db.pages[(c, page.number)] == page
  {
    RunKeeps(maxAttempts, events);
    var sys := Reached(maxAttempts, events);
    if w in sys.sessions {
      Facts(sys, w);
      var s := sys.sessions[w];
      if HeldBy(sys.db, s.crawl, w) && s.box.inFlight.Some? && i < |s.box.inFlight.value| {
        BatchIsOfTheLatestLease(w, s, sys.db.crawls[s.crawl], sys.logs[s.crawl], sys.db.pages, i);
      }
    }
  }

  /** A finished crawl is complete: its pages are all its last lease reported, as many as the recorded total. */
  lemma FinishedMeansComplete(maxAttempts: nat, events: seq<Event>, id: CrawlId)
    requires maxAttempts >= 1
    ensures var sys := Reached(maxAttempts, events);
            id in sys.db.crawls && sys.db.crawls[id].state == Finished ==>
              && id in sys.logs && |sys.logs[id].leases| >= 1 && sys.db.crawls[id].stats.Some?
              && var reported := Last(sys.logs[id]);
                 && |reported| == sys.db.crawls[id].stats.value.pagesTotal
                 && NumberedFromOne(reported) && StoresPrefix(sys.db.pages, id, reported, |reported|)
  {
    RunKeeps(maxAttempts, events);
    var sys := Reached(maxAttempts, events);
    if id in sys.db.crawls {
      assert CrawlOk(id, sys.db.crawls[id], sys.logs[id], sys.db.pages, maxAttempts);
    }
  }

  // What a worker's step can do to a crawl.

  ghost predicate SamePages(table: PageTable, table': PageTable, id: CrawlId) {
    && (forall s: nat :: (id, s) in table <==> (id, s) in table')
    && (forall s: nat | (id, s) in table && (id, s) in table' :: table'[(id, s)] == table[(id, s)])
  }

  /** Three ways to write to a row, all of them with the worker's id on it. */
  ghost predicate Writes(w: WorkerId, s: Session, row: CrawlRow, row': CrawlRow) {
    && row.workerId == Some(w)
    && ((row.state == Running && row' == row.(heartbeatAt := row'.heartbeatAt, stats := row'.stats))
       || (s.phase.Finishing?
           && row' == row.(state := s.phase.state, finishedAt := row'.finishedAt, stats := Some(s.phase.finalStats),
                           error := s.phase.error))
       || (s.phase.Requeueing? && Releasable(row, w) && row' == Released(row)))
  }

  ghost predicate Touches(sys: System, sys': System, w: WorkerId, s: Session, id: CrawlId)
    requires id in sys.db.crawls && id in sys.logs
  {
    && id in sys'.db.crawls && id in sys'.logs && |sys'.logs[id].leases| == |sys.logs[id].leases|
    && (sys'.db.crawls[id] == sys.db.crawls[id]
        || (s.crawl == id && Writes(w, s, sys.db.crawls[id], sys'.db.crawls[id])))
    && (SamePages(sys.db.pages, sys'.db.pages, id) || (s.crawl == id && Beating(sys.db.crawls[id], w)))
  }

  lemma InsertTouches(sys: System, w: WorkerId, s: Session, id: CrawlId)
    requires id in sys.db.crawls && id in sys.logs
    requires s.crawl in sys.db.crawls && s.crawl in sys.logs && s.box.inFlight.Some? && |s.box.inFlight.value| > 0
    ensures Touches(sys, Insert(sys, w, s, false).0, w, s, id)
  {
    InsertShape(sys, w, s);
    OtherPagesKept(sys.db.pages, s.crawl, s.box.inFlight.value);
    if s.crawl != id {
      var table := InsertIgnoring(sys.db.pages, s.crawl, s.box.inFlight.value);
      forall n: nat ensures (id, n) in sys.db.pages <==> (id, n) in table {
        assert (id, n).0 != s.crawl;
      }
    }
  }

  lemma FinishFlushTouches(sys: System, w: WorkerId, delivery: Delivery, id: CrawlId)
    requires w in sys.sessions && SessionFits(sys, w) && id in sys.db.crawls && id in sys.logs
    ensures Touches(sys, OnFinishFlush(sys, w, sys.sessions[w], delivery, false), w, sys.sessions[w], id)
  {
    if sys.sessions[w].box.inFlight.Some? {
      InsertTouches(sys, w, sys.sessions[w], id);
    }
  }

  lemma CloseTouches(sys: System, w: WorkerId, closing: Closing, others: string, id: CrawlId)
    requires w in sys.sessions && SessionFits(sys, w) && id in sys.db.crawls && id in sys.logs
    ensures Touches(sys, OnClose(sys, w, sys.sessions[w], closing, others, false), w, sys.sessions[w], id)
  {
    if sys.sessions[w].box.inFlight.Some? {
      InsertTouches(sys, w, sys.sessions[w], id);
    }
  }

  lemma HeartbeatTouches(sys: System, w: WorkerId, now: int, others: string, delivery: Delivery, expired: bool,
                         id: CrawlId)
    requires w in sys.sessions && SessionFits(sys, w) && id in sys.db.crawls && id in sys.logs
    ensures Touches(sys, OnHeartbeat(sys, w, sys.sessions[w], now, others, delivery, expired, false),
                    w, sys.sessions[w], id)
  {
    if sys.sessions[w].phase == Crawling {
      HeartbeatShape(sys, w, sys.sessions[w], now, others, delivery, expired);
    }
  }

  lemma FinishTouches(sys: System, w: WorkerId, now: int, delivery: Delivery, expired: bool, id: CrawlId)
    requires w in sys.sessions && SessionFits(sys, w) && id in sys.db.crawls && id in sys.logs
    ensures Touches(sys, OnFinish(sys, w, sys.sessions[w], now, delivery, expired, false), w, sys.sessions[w], id)
  {
    if sys.sessions[w].phase.Finishing? {
      FinishShape(sys, w, sys.sessions[w], now, delivery, expired);
    }
  }

  lemma ReleaseTouches(sys: System, w: WorkerId, delivery: Delivery, id: CrawlId)
    requires w in sys.sessions && SessionFits(sys, w) && id in sys.db.crawls && id in sys.logs
    ensures Touches(sys, OnRelease(sys, w, sys.sessions[w], delivery, false), w, sys.sessions[w], id)
  {
    if sys.sessions[w].phase.Requeueing? {
      ReleaseShape(sys, w, sys.sessions[w], delivery);
    }
  }

  lemma FlushStepTouches(sys: System, w: WorkerId, event: Event, id: CrawlId)
    requires w in sys.sessions && SessionFits(sys, w) && id in sys.db.crawls && id in sys.logs
    requires event.FinishFlush? || event.Close?
    ensures Touches(sys, OnSession(sys, w, sys.sessions[w], event, false), w, sys.sessions[w], id)
  {
    if event.FinishFlush? {
      FinishFlushTouches(sys, w, event.delivery, id);
    } else {
      CloseTouches(sys, w, event.closing, event.others, id);
    }
  }

  lemma RowStepTouches(sys: System, w: WorkerId, event: Event, id: CrawlId)
    requires w in sys.sessions && SessionFits(sys, w) && id in sys.db.crawls && id in sys.logs
    requires event.Heartbeat? || event.Finish? || event.Release?
    ensures Touches(sys, OnSession(sys, w, sys.sessions[w], event, false), w, sys.sessions[w], id)
  {
    if event.Heartbeat? {
      HeartbeatTouches(sys, w, event.now, event.others, event.delivery, event.expired, id);
    } else if event.Finish? {
      FinishTouches(sys, w, event.now, event.delivery, event.expired, id);
    } else {
      ReleaseTouches(sys, w, event.delivery, id);
    }
  }

  lemma SessionStepTouches(sys: System, w: WorkerId, event: Event, id: CrawlId)
    requires w in sys.sessions && SessionFits(sys, w) && id in sys.db.crawls && id in sys.logs
    ensures Touches(sys, OnSession(sys, w, sys.sessions[w], event, false), w, sys.sessions[w], id)
  {
    if event.FinishFlush? || event.Close? {
      FlushStepTouches(sys, w, event, id);
    } else if event.Heartbeat? || event.Finish? || event.Release? {
      RowStepTouches(sys, w, event, id);
    }
  }

  // Terminal states.

  /** What a client can read of crawl `id`, apart from times, did not change. */
  ghost predicate Settled(sys: System, sys': System, id: CrawlId)
    requires id in sys.db.crawls
  {
    && id in sys'.db.crawls
    && sys'.db.crawls[id].state == sys.db.crawls[id].state && sys'.db.crawls[id].stats == sys.db.crawls[id].stats
    && sys'.db.crawls[id].error == sys.db.crawls[id].error
    && SamePages(sys.db.pages, sys'.db.pages, id)
  }

  lemma SessionStepSettled(sys: System, w: WorkerId, event: Event, id: CrawlId)
    requires Inv(sys) && w in sys.sessions && id in sys.db.crawls && IsTerminal(sys.db.crawls[id].state)
    ensures Settled(sys, OnSession(sys, w, sys.sessions[w], event, false), id)
  {
    Facts(sys, w);
    SessionStepTouches(sys, w, event, id);
  }

  lemma OutsideSettled(sys: System, event: Event, id: CrawlId)
    requires id in sys.db.crawls && IsTerminal(sys.db.crawls[id].state) && IsOutside(event)
    ensures Settled(sys, Apply(sys, event, false), id)
  {
    forall n: nat ensures (id, n).0 == id {
    }
  }

  lemma StepSettled(sys: System, event: Event, id: CrawlId)
    requires Inv(sys) && id in sys.db.crawls && IsTerminal(sys.db.crawls[id].state)
    ensures Settled(sys, Apply(sys, event, false), id)
  {
    if IsOutside(event) {
      OutsideSettled(sys, event, id);
    } else if event.w in sys.sessions {
      SessionStepSettled(sys, event.w, event, id);
    }
  }

  lemma OneMoreSettled(maxAttempts: nat, events: seq<Event>, event: Event, id: CrawlId)
    requires maxAttempts >= 1
    requires var sys := Reached(maxAttempts, events); id in sys.db.crawls && IsTerminal(sys.db.crawls[id].state)
    ensures Settled(Reached(maxAttempts, events), Reached(maxAttempts, events + [event]), id)
  {
    RunKeeps(maxAttempts, events);
    StepSettled(Reached(maxAttempts, events), event, id);
    Extended(maxAttempts, events, event);
  }

  /** Once a crawl is finished, failed or aborted, its state, stats, error and pages never change again. */
  lemma {:induction false} TerminalIsAbsorbing(maxAttempts: nat, events: seq<Event>, more: seq<Event>, id: CrawlId)
    requires maxAttempts >= 1
    requires var sys := Reached(maxAttempts, events); id in sys.db.crawls && IsTerminal(sys.db.crawls[id].state)
    ensures Settled(Reached(maxAttempts, events), Reached(maxAttempts, events + more), id)
    decreases |more|
  {
    if |more| == 0 {
      assert events + more == events;
    } else {
      var before, event := events + more[..|more| - 1], more[|more| - 1];
      TerminalIsAbsorbing(maxAttempts, events, more[..|more| - 1], id);
      OneMoreSettled(maxAttempts, before, event, id);
      assert events + more == before + [event];
      StaysSettled(Reached(maxAttempts, events), Reached(maxAttempts, before), Reached(maxAttempts, events + more), id);
    }
  }

  lemma StaysSettled(first: System, second: System, third: System, id: CrawlId)
    requires id in first.db.crawls && Settled(first, second, id) && Settled(second, third, id)
    ensures Settled(first, third, id)
  {
  }

  // Attempts.

  /** Attempts are claims less releases, they stay within the limit, and the floor of a release never bites. */
  lemma AttemptAccounting(maxAttempts: nat, events: seq<Event>, id: CrawlId, w: WorkerId)
    requires maxAttempts >= 1
    ensures var sys := Reached(maxAttempts, events);
            id in sys.db.crawls ==>
              && id in sys.logs
              && var row, log := sys.db.crawls[id], sys.logs[id];
                 && row.attempts == |log.leases| - log.releases && |log.leases| <= maxAttempts + log.releases
                 && (row.state == Queued ==> 0 <= row.attempts < maxAttempts)
                 && (row.state == Running ==> 1 <= row.attempts <= maxAttempts)
                 && (Tables.Release(sys.db, id, w).1 ==>
                     Tables.Release(sys.db, id, w).0.crawls[id].attempts == row.attempts - 1)
  {
    RunKeeps(maxAttempts, events);
    var sys := Reached(maxAttempts, events);
    if id in sys.db.crawls {
      assert CrawlOk(id, sys.db.crawls[id], sys.logs[id], sys.db.pages, maxAttempts);
    }
  }

  // Cancellation.

  /** The cancel flag stays, and a flagged crawl is never claimed again. */
  ghost predicate StaysFlagged(sys: System, sys': System, id: CrawlId)
    requires id in sys.logs
  {
    && id in sys'.db.crawls && id in sys'.logs && sys'.db.crawls[id].cancelRequested
    && |sys'.logs[id].leases| == |sys.logs[id].leases|
  }

  lemma OutsideStaysFlagged(sys: System, event: Event, id: CrawlId)
    requires id in sys.db.crawls && id in sys.logs && IsOutside(event)
    requires sys.db.crawls[id].cancelRequested && sys.db.crawls[id].state != Queued
    ensures StaysFlagged(sys, Apply(sys, event, false), id)
  {
  }

  lemma StepStaysFlagged(sys: System, event: Event, id: CrawlId)
    requires Inv(sys) && id in sys.db.crawls && sys.db.crawls[id].cancelRequested
    ensures StaysFlagged(sys, Apply(sys, event, false), id)
  {
    assert CrawlOk(id, sys.db.crawls[id], sys.logs[id], sys.db.pages, sys.maxAttempts);
    if IsOutside(event) {
      OutsideStaysFlagged(sys, event, id);
    } else if event.w in sys.sessions {
      Facts(sys, event.w);
      SessionStepTouches(sys, event.w, event, id);
    }
  }

  /** A cancel request that found the crawl running is never forgotten: no later claim, and no return to the queue. */
  lemma {:induction false} CancelIsNeverLost(maxAttempts: nat, events: seq<Event>, more: seq<Event>, id: CrawlId)
    requires maxAttempts >= 1
    requires var sys := Reached(maxAttempts, events); id in sys.db.crawls && sys.db.crawls[id].cancelRequested
    ensures id in Reached(maxAttempts, events).logs
    ensures StaysFlagged(Reached(maxAttempts, events), Reached(maxAttempts, events + more), id)
    ensures Reached(maxAttempts, events + more).db.crawls[id].state != Queued
    decreases |more|
  {
    RunKeeps(maxAttempts, events);
    RunKeeps(maxAttempts, events + more);
    if |more| == 0 {
      assert events + more == events;
    } else {
      var n := |more| - 1;
      CancelIsNeverLost(maxAttempts, events, more[..n], id);
      RunKeeps(maxAttempts, events + more[..n]);
      StepStaysFlagged(Reached(maxAttempts, events + more[..n]), more[n], id);
      assert (events + more)[..|events + more| - 1] == events + more[..n];
    }
    var sys := Reached(maxAttempts, events + more);
    assert CrawlOk(id, sys.db.crawls[id], sys.logs[id], sys.db.pages, maxAttempts);
  }

  /** Only a crawl whose cancellation was asked for while it ran is ever said to be cancelled by request. */
  lemma CancelledWasRequested(maxAttempts: nat, events: seq<Event>, id: CrawlId)
    requires maxAttempts >= 1
    ensures var sys := Reached(maxAttempts, events);
            id in sys.db.crawls && SaysCancelled(sys.db.crawls[id].error) ==> sys.db.crawls[id].cancelRequested
  {
    RunKeeps(maxAttempts, events);
    var sys := Reached(maxAttempts, events);
    if id in sys.db.crawls {
      assert CrawlOk(id, sys.db.crawls[id], sys.logs[id], sys.db.pages, maxAttempts);
    }
  }

  // Nothing gets stuck.

  function StepsLeft(row: CrawlRow, maxAttempts: nat): int {
    2 * (maxAttempts - row.attempts) + if row.state == Running then 1 else 0
  }

  lemma ReapSettlesOrRequeues(maxAttempts: nat, events: seq<Event>, id: CrawlId) returns (reap: Event)
    requires maxAttempts >= 1 && id in Reached(maxAttempts, events).db.crawls
    requires Reached(maxAttempts, events).db.crawls[id].state == Running
    ensures reap.Reap? && id in Reached(maxAttempts, events + [reap]).db.crawls
    ensures var row := Reached(maxAttempts, events).db.crawls[id];
            var row' := Reached(maxAttempts, events + [reap]).db.crawls[id];
            row'.attempts == row.attempts && row'.state != Running
  {
    RunKeeps(maxAttempts, events);
    var sys := Reached(maxAttempts, events);
    assert CrawlOk(id, sys.db.crawls[id], sys.logs[id], sys.db.pages, maxAttempts);
    reap := Reap(sys.db.crawls[id].heartbeatAt.value + 1, 0);
    Extended(maxAttempts, events, reap);
  }

  lemma IdleWorkerClaims(sys: System, id: CrawlId, w: WorkerId)
    requires id in sys.db.crawls && id in sys.logs && sys.db.crawls[id].state == Queued
    ensures Apply(Apply(sys, Crash(w), false), Claim(w, id, 0, false), false).db == Tables.Claim(sys.db, id, w, 0)
  {
  }

  lemma ClaimRuns(maxAttempts: nat, events: seq<Event>, id: CrawlId) returns (claim: seq<Event>)
    requires maxAttempts >= 1 && id in Reached(maxAttempts, events).db.crawls
    requires Reached(maxAttempts, events).db.crawls[id].state == Queued
    ensures |claim| == 2 && claim[0].Crash? && claim[1].Claim? && id in Reached(maxAttempts, events + claim).db.crawls
    ensures var row := Reached(maxAttempts, events).db.crawls[id];
            var row' := Reached(maxAttempts, events + claim).db.crawls[id];
            row'.attempts == row.attempts + 1 && row'.state == Running
  {
    RunKeeps(maxAttempts, events);
    claim := [Crash(""), Claim("", id, 0, false)];
    Extended(maxAttempts, events, claim[0]);
    Extended(maxAttempts, events + [claim[0]], claim[1]);
    assert events + claim == events + [claim[0]] + [claim[1]];
    IdleWorkerClaims(Reached(maxAttempts, events), id, "");
  }

  lemma AttemptsLeft(maxAttempts: nat, events: seq<Event>, id: CrawlId)
    requires maxAttempts >= 1 && id in Reached(maxAttempts, events).db.crawls
    ensures var row := Reached(maxAttempts, events).db.crawls[id];
            row.attempts <= maxAttempts && (row.state == Queued ==> row.attempts < maxAttempts)
  {
    AttemptAccounting(maxAttempts, events, id, "");
    RunKeeps(maxAttempts, events);
    var sys := Reached(maxAttempts, events);
    assert CrawlOk(id, sys.db.crawls[id], sys.logs[id], sys.db.pages, maxAttempts);
  }

  /**
   * No state is a dead end: if no worker ever speaks again, the reaper and the claims that follow settle the crawl
   * within a bounded number of steps, no cancel request and no final write among them.
   */
  lemma {:induction false} EveryCrawlCanSettle(maxAttempts: nat, events: seq<Event>, id: CrawlId)
    returns (more: seq<Event>)
    requires maxAttempts >= 1 && id in Reached(maxAttempts, events).db.crawls
    ensures id in Reached(maxAttempts, events + more).db.crawls
    ensures IsTerminal(Reached(maxAttempts, events + more).db.crawls[id].state)
    ensures forall e | e in more :: e.Reap? || e.Claim? || e.Crash?
    ensures |more| <= 2 * StepsLeft(Reached(maxAttempts, events).db.crawls[id], maxAttempts)
    decreases StepsLeft(Reached(maxAttempts, events).db.crawls[id], maxAttempts)
  {
    AttemptsLeft(maxAttempts, events, id);
    var state := Reached(maxAttempts, events).db.crawls[id].state;
    if IsTerminal(state) {
      more := [];
      assert events + more == events;
    } else {
      var next: seq<Event>;
      if state == Running {
        var reap := ReapSettlesOrRequeues(maxAttempts, events, id);
        next := [reap];
      } else {
        next := ClaimRuns(maxAttempts, events, id);
      }
      var rest := EveryCrawlCanSettle(maxAttempts, events + next, id);
      more := next + rest;
      assert events + more == events + next + rest;
    }
  }
}
