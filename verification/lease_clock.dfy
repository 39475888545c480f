/** Who may take a crawl from its worker, and when: the lease runs from the last claim or heartbeat that was written. */
module LeaseClock {
  import opened Options
  import opened Tables
  import opened Reporting
  import opened Repository
  import opened Leases
  import opened LeaseInvariants
  import opened LeaseSteps
  import opened LeaseTheorems

  /** The step claims crawl `id`: its worker is idle and the crawl is waiting. */
  predicate ClaimsIt(sys: System, event: Event, id: CrawlId) {
    && event.Claim? && event.id == id && event.w !in sys.sessions
    && id in sys.db.crawls && sys.db.crawls[id].state == Queued
  }

  /** The step is a heartbeat that reaches the row of crawl `id` while it runs under the sender. */
  predicate Beats(sys: System, event: Event, id: CrawlId) {
    && event.Heartbeat? && event.delivery != RequestLost
    && event.w in sys.sessions && sys.sessions[event.w].crawl == id && sys.sessions[event.w].phase == Crawling
    && id in sys.db.crawls && sys.db.crawls[id].state == Running && sys.db.crawls[id].workerId == Some(event.w)
  }

  /** When crawl `id` was last claimed or beaten for, read off the steps alone. */
  function LastBeat(maxAttempts: nat, events: seq<Event>, id: CrawlId): Option<int> {
    if |events| == 0 then None
    else
      var before, event := events[..|events| - 1], events[|events| - 1];
      var sys := Reached(maxAttempts, before);
      if ClaimsIt(sys, event, id) || Beats(sys, event, id) then Some(event.now) else LastBeat(maxAttempts, before, id)
  }

  lemma OutsideKeepsBeat(sys: System, event: Event, id: CrawlId)
    requires IsOutside(event) && id in Apply(sys, event, false).db.crawls && sys.db.crawls.Keys == sys.logs.Keys
    requires Apply(sys, event, false).db.crawls[id].state == Running
    ensures if ClaimsIt(sys, event, id) then Apply(sys, event, false).db.crawls[id].heartbeatAt == Some(event.now)
            else id in sys.db.crawls && sys.db.crawls[id].state == Running
                 && Apply(sys, event, false).db.crawls[id].heartbeatAt == sys.db.crawls[id].heartbeatAt
  {
  }

  lemma FlushKeepsRows(sys: System, w: WorkerId, s: Session, event: Event)
    requires !event.Heartbeat? && !event.Finish? && !event.Release?
    ensures OnSession(sys, w, s, event, false).db.crawls == sys.db.crawls
  {
  }

  lemma SessionKeepsBeat(sys: System, w: WorkerId, event: Event, id: CrawlId)
    requires w in sys.sessions && SessionFits(sys, w) && !IsOutside(event) && event.w == w && id in sys.db.crawls
    requires var after := OnSession(sys, w, sys.sessions[w], event, false);
             id in after.db.crawls && after.db.crawls[id].state == Running
    ensures var after := OnSession(sys, w, sys.sessions[w], event, false);
            && sys.db.crawls[id].state == Running
            && after.db.crawls[id].heartbeatAt
               == if Beats(sys, event, id) then Some(event.now) else sys.db.crawls[id].heartbeatAt
  {
    if !event.Heartbeat? && !event.Finish? && !event.Release? {
      FlushKeepsRows(sys, w, sys.sessions[w], event);
    }
  }

  lemma StepKeepsBeat(sys: System, event: Event, id: CrawlId)
    requires Inv(sys) && id in Apply(sys, event, false).db.crawls
    requires Apply(sys, event, false).db.crawls[id].state == Running
    ensures if ClaimsIt(sys, event, id) || Beats(sys, event, id) then
              Apply(sys, event, false).db.crawls[id].heartbeatAt == Some(event.now)
            else id in sys.db.crawls && sys.db.crawls[id].state == Running
                 && Apply(sys, event, false).db.crawls[id].heartbeatAt == sys.db.crawls[id].heartbeatAt
  {
    if IsOutside(event) {
      OutsideKeepsBeat(sys, event, id);
    } else {
      OfSession(sys, event.w, event);
      if event.w in sys.sessions {
        Facts(sys, event.w);
        SessionStepKeepsBeat(sys, event, id);
      }
    }
  }

  lemma SessionStepKeepsBeat(sys: System, event: Event, id: CrawlId)
    requires !IsOutside(event) && event.w in sys.sessions && SessionFits(sys, event.w)
    requires sys.db.crawls.Keys == sys.logs.Keys
    requires var after := OnSession(sys, event.w, sys.sessions[event.w], event, false);
             id in after.db.crawls && after.db.crawls[id].state == Running
    ensures var after := OnSession(sys, event.w, sys.sessions[event.w], event, false);
            && id in sys.db.crawls && sys.db.crawls[id].state == Running
            && after.db.crawls[id].heartbeatAt
               == if Beats(sys, event, id) then Some(event.now) else sys.db.crawls[id].heartbeatAt
  {
    KeepsCrawls(sys, event.w, sys.sessions[event.w], event);
    SessionKeepsBeat(sys, event.w, event, id);
  }

  lemma KeepsCrawls(sys: System, w: WorkerId, s: Session, event: Event)
    ensures OnSession(sys, w, s, event, false).db.crawls.Keys == sys.db.crawls.Keys
  {
  }

  lemma OneMoreBeat(maxAttempts: nat, events: seq<Event>, event: Event, id: CrawlId)
    ensures var sys := Reached(maxAttempts, events);
            LastBeat(maxAttempts, events + [event], id)
            == if ClaimsIt(sys, event, id) || Beats(sys, event, id) then Some(event.now)
               else LastBeat(maxAttempts, events, id)
  {
    assert (events + [event])[..|events + [event]| - 1] == events;
  }

  /** In every reachable state a running row carries the time of the last claim or heartbeat. */
  lemma {:induction false} HeartbeatIsLastBeat(maxAttempts: nat, events: seq<Event>, id: CrawlId)
    requires maxAttempts >= 1 && id in Reached(maxAttempts, events).db.crawls
    requires Reached(maxAttempts, events).db.crawls[id].state == Running
    ensures LastBeat(maxAttempts, events, id).Some?
    ensures Reached(maxAttempts, events).db.crawls[id].heartbeatAt == LastBeat(maxAttempts, events, id)
  {
    if |events| > 0 {
      var before, event := events[..|events| - 1], events[|events| - 1];
      assert events == before + [event];
      RunKeeps(maxAttempts, before);
      Extended(maxAttempts, before, event);
      OneMoreBeat(maxAttempts, before, event, id);
      StepKeepsBeat(Reached(maxAttempts, before), event, id);
      if !ClaimsIt(Reached(maxAttempts, before), event, id) && !Beats(Reached(maxAttempts, before), event, id) {
        HeartbeatIsLastBeat(maxAttempts, before, id);
      }
    }
  }

  /**
   * A sweep takes a running crawl from its worker exactly when the last claim or heartbeat lies more than a lease back,
   * and then cancels it, queues it again or gives it up; it leaves every other row alone.
   */
  lemma ReapTakesOnlyTheSilent(maxAttempts: nat, events: seq<Event>, id: CrawlId, now: int, leaseSeconds: int)
    requires maxAttempts >= 1 && id in Reached(maxAttempts, events).db.crawls
    ensures var row, beat := Reached(maxAttempts, events).db.crawls[id], LastBeat(maxAttempts, events, id);
            var after := Reached(maxAttempts, events + [Event.Reap(now, leaseSeconds)]);
            && id in after.db.crawls && after.db.pages == Reached(maxAttempts, events).db.pages
            && (row.state == Running ==> beat.Some?)
            && if row.state != Running || now <= beat.value + leaseSeconds then after.db.crawls[id] == row
               else after.db.crawls[id]
                    == if row.cancelRequested then
                         row.(state := Aborted, workerId := None, finishedAt := Some(now),
                              error := Some(CancelledByRequest))
                       else if row.attempts < maxAttempts then
                         row.(state := Queued, workerId := None, heartbeatAt := None)
                       else row.(state := Failed, workerId := None, finishedAt := Some(now), error := Some(WorkerLost))
  {
    RunKeeps(maxAttempts, events);
    Extended(maxAttempts, events, Event.Reap(now, leaseSeconds));
    if Reached(maxAttempts, events).db.crawls[id].state == Running {
      HeartbeatIsLastBeat(maxAttempts, events, id);
    }
  }

  /**
   * The step may take crawl `id` from worker `w`: its own last writes, or a sweep after more than a lease of silence.
   */
  predicate MayFree(maxAttempts: nat, events: seq<Event>, event: Event, id: CrawlId, w: WorkerId) {
    match event
    case Finish(v, _, _, _) => v == w
    case Release(v, _) => v == w
    case Reap(now, leaseSeconds) =>
      LastBeat(maxAttempts, events, id).Some? && now > LastBeat(maxAttempts, events, id).value + leaseSeconds
    case _ => false
  }

  lemma OutsideKeepsWorker(sys: System, event: Event, id: CrawlId, w: WorkerId)
    requires IsOutside(event) && !event.Reap? && RunsUnder(sys.db, id, w) && sys.db.crawls.Keys == sys.logs.Keys
    ensures RunsUnder(Apply(sys, event, false).db, id, w)
  {
  }

  lemma SessionKeepsWorker(sys: System, v: WorkerId, event: Event, id: CrawlId, w: WorkerId)
    requires v in sys.sessions && SessionFits(sys, v) && !IsOutside(event) && event.w == v
    requires RunsUnder(sys.db, id, w) && id in sys.logs && !((event.Finish? || event.Release?) && v == w)
    ensures RunsUnder(OnSession(sys, v, sys.sessions[v], event, false).db, id, w)
  {
    SessionStepTouches(sys, v, event, id);
    if !event.Heartbeat? && !event.Finish? && !event.Release? {
      FlushKeepsRows(sys, v, sys.sessions[v], event);
    }
  }

  /** Nothing else takes a running crawl from its worker. */
  lemma OnlySilenceFreesTheRow(maxAttempts: nat, events: seq<Event>, event: Event, id: CrawlId, w: WorkerId)
    requires maxAttempts >= 1 && RunsUnder(Reached(maxAttempts, events).db, id, w)
    ensures RunsUnder(Reached(maxAttempts, events + [event]).db, id, w) || MayFree(maxAttempts, events, event, id, w)
  {
    var sys := Reached(maxAttempts, events);
    RunKeeps(maxAttempts, events);
    Extended(maxAttempts, events, event);
    if event.Reap? {
      ReapTakesOnlyTheSilent(maxAttempts, events, id, event.now, event.leaseSeconds);
    } else if IsOutside(event) {
      OutsideKeepsWorker(sys, event, id, w);
    } else {
      OfSession(sys, event.w, event);
      if event.w in sys.sessions && !((event.Finish? || event.Release?) && event.w == w) {
        Facts(sys, event.w);
        SessionKeepsWorker(sys, event.w, event, id, w);
      }
    }
  }

  /** A worker whose heartbeats are written in time keeps its crawl until it ends the crawl itself. */
  lemma {:induction false} BeatingKeepsTheLease(maxAttempts: nat, events: seq<Event>, more: seq<Event>, id: CrawlId,
                                                w: WorkerId)
    requires maxAttempts >= 1 && RunsUnder(Reached(maxAttempts, events).db, id, w)
    requires forall i | 0 <= i < |more| :: !MayFree(maxAttempts, events + more[..i], more[i], id, w)
    ensures RunsUnder(Reached(maxAttempts, events + more).db, id, w)
    decreases |more|
  {
    if |more| == 0 {
      assert events + more == events;
    } else {
      var n := |more| - 1;
      forall i | 0 <= i < n ensures !MayFree(maxAttempts, events + more[..n][..i], more[..n][i], id, w) {
        assert more[..n][..i] == more[..i];
      }
      BeatingKeepsTheLease(maxAttempts, events, more[..n], id, w);
      OnlySilenceFreesTheRow(maxAttempts, events + more[..n], more[n], id, w);
      assert events + more == events + more[..n] + [more[n]];
    }
  }
}
