/** The worker's loops and exchanges are runs of the lease protocol, so its results reach the classes. */
module WorkerSteps {
  import opened Options
  import opened Tables
  import opened Reporting
  import opened Leases
  import opened LeaseInvariants
  import opened Reporter
  import opened Workers

  function FinishEvents(w: WorkerId, tries: seq<Try>, deadline: int): (events: seq<Event>)
    ensures |events| == |tries|
    ensures forall i | 0 <= i < |tries| ::
            events[i] == Event.Finish(w, tries[i].now, tries[i].delivery, tries[i].clock >= deadline)
  {
    seq(|tries|, i requires 0 <= i < |tries| =>
          Event.Finish(w, tries[i].now, tries[i].delivery, tries[i].clock >= deadline))
  }

  lemma RunOfTries(sys: System, w: WorkerId, tries: seq<Try>, deadline: int)
    requires |tries| > 0
    ensures var first := Event.Finish(w, tries[0].now, tries[0].delivery, tries[0].clock >= deadline);
            Run(sys, FinishEvents(w, tries, deadline), false)
            == Run(Apply(sys, first, false), FinishEvents(w, tries[1..], deadline), false)
  {
    var first := Event.Finish(w, tries[0].now, tries[0].delivery, tries[0].clock >= deadline);
    assert FinishEvents(w, tries, deadline) == [first] + FinishEvents(w, tries[1..], deadline);
    RunFrom(sys, first, FinishEvents(w, tries[1..], deadline));
  }

  /** The verdict a session is about to write. */
  function VerdictOf(s: Session): Verdict
    requires s.phase.Finishing?
  {
    Verdict(s.phase.state, s.phase.finalStats, s.phase.error)
  }

  /** The retry loop is a run of the protocol: its tries are steps of the session that writes the terminal state. */
  lemma {:induction false} FinalWritesAreSteps(sys: System, w: WorkerId, tries: seq<Try>, deadline: int)
    requires w in sys.sessions && sys.sessions[w].phase.Finishing?
    ensures var s := sys.sessions[w];
            Run(sys, FinishEvents(w, tries, deadline), false).db
            == FinalWrites(sys.db, s.crawl, w, VerdictOf(s), tries, deadline).0
    decreases |tries|
  {
    if |tries| > 0 {
      var first := Event.Finish(w, tries[0].now, tries[0].delivery, tries[0].clock >= deadline);
      var next := Apply(sys, first, false);
      RunOfTries(sys, w, tries, deadline);
      OneTry(sys, w, tries[0], deadline);
      if w in next.sessions {
        FinalWritesAreSteps(next, w, tries[1..], deadline);
      } else {
        IdleWorker(next, w, FinishEvents(w, tries[1..], deadline));
      }
    }
  }

  lemma OneTry(sys: System, w: WorkerId, next: Try, deadline: int)
    requires w in sys.sessions && sys.sessions[w].phase.Finishing?
    ensures var s := sys.sessions[w];
            var after := Apply(sys, Event.Finish(w, next.now, next.delivery, next.clock >= deadline), false);
            && after.db == (if next.delivery == RequestLost then sys.db
                            else AfterWrite(sys.db, s.crawl, w, next.now, VerdictOf(s)))
            && (w in after.sessions <==> next.delivery != Delivered && next.clock < deadline)
            && (w in after.sessions ==> after.sessions[w] == s)
  {
  }

  lemma {:induction false} RunFrom(sys: System, first: Event, rest: seq<Event>)
    ensures Run(sys, [first] + rest, false) == Run(Apply(sys, first, false), rest, false)
  {
    var events := [first] + rest;
    if |rest| == 0 {
      assert events[..0] == [];
    } else {
      RunFrom(sys, first, rest[..|rest| - 1]);
      assert events[..|events| - 1] == [first] + rest[..|rest| - 1];
    }
  }

  lemma RunOne(sys: System, event: Event)
    ensures Run(sys, [event], false) == Apply(sys, event, false)
  {
    assert [event][..0] == [];
  }

  lemma {:induction false} IdleWorker(sys: System, w: WorkerId, events: seq<Event>)
    requires w !in sys.sessions && forall e | e in events :: e.Finish? && e.w == w
    ensures Run(sys, events, false) == sys
  {
    if |events| > 0 {
      IdleWorker(sys, w, events[..|events| - 1]);
      assert events[|events| - 1] in events;
    }
  }

  /** Rejecting a crawl is a run of the protocol that leaves the tables `Worker.Reject` leaves. */
  lemma RejectIsSteps(sys: System, w: WorkerId, text: string, tries: seq<Try>, deadline: int)
    requires w in sys.sessions && sys.sessions[w].phase == Crawling && sys.sessions[w].interrupt.None?
    requires sys.sessions[w].box == EMPTY
    ensures Run(sys, [Event.Reject(w, text)] + FinishEvents(w, tries, deadline), false).db
         == FinalWrites(sys.db, sys.sessions[w].crawl, w, Verdict(Failed, Stats(0, ""), Some(FromCrawl(text))), tries,
                        deadline).0
  {
    RunFrom(sys, Event.Reject(w, text), FinishEvents(w, tries, deadline));
    FinalWritesAreSteps(Apply(sys, Event.Reject(w, text), false), w, tries, deadline);
  }

  // Heartbeats.

  function Interrupted(sys: System, w: WorkerId, db: Db, interrupt: Option<Interrupt>): System
    requires w in sys.sessions
  {
    var s := sys.sessions[w];
    WithSession(sys.(db := db), w, if interrupt.Some? then s.(interrupt := interrupt) else s)
  }

  lemma OneBeatIsAStep(sys: System, w: WorkerId, beat: Beat, expired: bool)
    requires w in sys.sessions && sys.sessions[w].phase == Crawling
             && beat.stats.pagesTotal == sys.sessions[w].pagesTotal
    ensures var (db, interrupt) := OneBeat(sys.db, sys.sessions[w].crawl, w, beat, expired);
            Apply(sys, Event.Heartbeat(w, beat.now, beat.stats.others, beat.delivery, expired), false)
            == Interrupted(sys, w, db, interrupt)
  {
  }

  // Pages that arrive.

  function EmitEvents(w: WorkerId, pages: seq<PageResult>): (events: seq<Event>)
    ensures |events| == |pages|
  {
    seq(|pages|, i requires 0 <= i < |pages| => Emit(w, pages[i]))
  }

  /** Pages that arrive go behind the buffer, and change nothing else the flush depends on. */
  ghost predicate HasArrived(sys: System, sys': System, w: WorkerId, newer: seq<PageRow>)
    requires w in sys.sessions
  {
    var s := sys.sessions[w];
    && w in sys'.sessions && sys'.db == sys.db && sys'.logs.Keys == sys.logs.Keys
    && var s' := sys'.sessions[w];
       && s' == s.(box := s.box.(buffer := s.box.buffer + newer, seqNo := s.box.seqNo + |newer|),
                   pagesTotal := s.pagesTotal + |newer|)
       && (s.crawl in sys.logs ==> |sys'.logs[s.crawl].leases| == |sys.logs[s.crawl].leases|)
  }

  ghost predicate CanEmit(sys: System, w: WorkerId)
    requires w in sys.sessions
  {
    var s := sys.sessions[w];
    s.phase == Crawling && s.crawl in sys.logs && 1 <= s.lease <= |sys.logs[s.crawl].leases|
  }

  lemma {:induction false} ArrivingPagesAreSteps(sys: System, w: WorkerId, pages: seq<PageResult>)
    returns (newer: seq<PageRow>)
    requires w in sys.sessions && (|pages| > 0 ==> CanEmit(sys, w))
    ensures AreRowsOf(newer, sys.sessions[w].box.seqNo, pages)
    ensures HasArrived(sys, Run(sys, EmitEvents(w, pages), false), w, newer)
    decreases |pages|
  {
    if |pages| == 0 {
      newer := [];
      assert sys.sessions[w].box.buffer + [] == sys.sessions[w].box.buffer;
    } else {
      var n := |pages| - 1;
      var before := Run(sys, EmitEvents(w, pages[..n]), false);
      var earlier := ArrivingPagesAreSteps(sys, w, pages[..n]);
      assert EmitEvents(w, pages)[..n] == EmitEvents(w, pages[..n]);
      OneArrival(before, w, pages[n]);
      newer := earlier + [RowOf(before.sessions[w].box.seqNo + 1, pages[n])];
      assert sys.sessions[w].box.buffer + newer
          == before.sessions[w].box.buffer + [RowOf(before.sessions[w].box.seqNo + 1, pages[n])];
    }
  }

  lemma OneArrival(sys: System, w: WorkerId, page: PageResult)
    requires w in sys.sessions && CanEmit(sys, w)
    ensures var row := RowOf(sys.sessions[w].box.seqNo + 1, page);
            HasArrived(sys, Apply(sys, Emit(w, page), false), w, [row])
  {
  }

  // Heartbeats and the pages between them.

  function BeatEvent(w: WorkerId, beat: Beat, expired: bool): Event {
    Event.Heartbeat(w, beat.now, beat.stats.others, beat.delivery, expired)
  }

  /** The heartbeats the watcher sends until one interrupts the job, each after the pages reported since the last. */
  function BeatEvents(db: Db, id: CrawlId, w: WorkerId, leaseSeconds: int, lastOk: int, beats: seq<Beat>,
                      reported: seq<seq<PageResult>>): seq<Event>
    requires |reported| == |beats|
    decreases |beats|
  {
    if |beats| == 0 then []
    else
      var beat, expired := beats[0], beats[0].clock - lastOk >= leaseSeconds;
      var (after, interrupt) := OneBeat(db, id, w, beat, expired);
      var next := if beat.delivery == Delivered then beat.clock else lastOk;
      EmitEvents(w, reported[0])
      + ([BeatEvent(w, beat, expired)]
         + if interrupt.Some? then [] else BeatEvents(after, id, w, leaseSeconds, next, beats[1..], reported[1..]))
  }

  /** Every snapshot counts the pages reported until it is taken. */
  predicate CountsPages(total: nat, beats: seq<Beat>, reported: seq<seq<PageResult>>)
    requires |reported| == |beats|
    decreases |beats|
  {
    |beats| == 0
    || (beats[0].stats.pagesTotal == total + |reported[0]|
        && CountsPages(total + |reported[0]|, beats[1..], reported[1..]))
  }

  /** The tables and the interrupt of `w` after some heartbeats; the crawl and the lease are the same. */
  ghost predicate IsBeaten(sys: System, sys': System, w: WorkerId, db: Db, interrupt: Option<Interrupt>)
    requires w in sys.sessions
  {
    var s := sys.sessions[w];
    && sys'.db == db && w in sys'.sessions
    && var s' := sys'.sessions[w];
       && s'.crawl == s.crawl && s'.lease == s.lease && s'.phase == s.phase
       && s'.interrupt == if interrupt.Some? then interrupt else s.interrupt
  }

  lemma {:induction false} RunJoined(sys: System, first: seq<Event>, rest: seq<Event>)
    ensures Run(sys, first + rest, false) == Run(Run(sys, first, false), rest, false)
    decreases |rest|
  {
    if |rest| == 0 {
      assert first + rest == first;
    } else {
      var init, last := rest[..|rest| - 1], rest[|rest| - 1];
      RunJoined(sys, first, init);
      RunLast(sys, first + init, last);
      assert first + rest == first + init + [last];
    }
  }

  function AfterBeat(sys: System, w: WorkerId, pages: seq<PageResult>, beat: Beat, expired: bool): System {
    Apply(Run(sys, EmitEvents(w, pages), false), BeatEvent(w, beat, expired), false)
  }

  lemma RunOfBeat(sys: System, w: WorkerId, pages: seq<PageResult>, beat: Beat, expired: bool, rest: seq<Event>)
    ensures Run(sys, EmitEvents(w, pages) + ([BeatEvent(w, beat, expired)] + rest), false)
         == Run(AfterBeat(sys, w, pages, beat, expired), rest, false)
  {
    RunJoined(sys, EmitEvents(w, pages), [BeatEvent(w, beat, expired)] + rest);
    RunFrom(Run(sys, EmitEvents(w, pages), false), BeatEvent(w, beat, expired), rest);
  }

  lemma BeatAfterPages(sys: System, w: WorkerId, pages: seq<PageResult>, beat: Beat, expired: bool)
    requires w in sys.sessions && CanEmit(sys, w)
    requires beat.stats.pagesTotal == sys.sessions[w].pagesTotal + |pages|
    ensures var (db, interrupt) := OneBeat(sys.db, sys.sessions[w].crawl, w, beat, expired);
            var after := AfterBeat(sys, w, pages, beat, expired);
            && IsBeaten(sys, after, w, db, interrupt) && CanEmit(after, w)
            && after.sessions[w].pagesTotal == sys.sessions[w].pagesTotal + |pages|
  {
    var newer := ArrivingPagesAreSteps(sys, w, pages);
    OneBeatIsAStep(Run(sys, EmitEvents(w, pages), false), w, beat, expired);
  }

  lemma BeatenTwice(sys: System, after: System, last: System, w: WorkerId, db: Db, later: Db,
                    interrupt: Option<Interrupt>)
    requires w in sys.sessions && IsBeaten(sys, after, w, db, None) && IsBeaten(after, last, w, later, interrupt)
    ensures IsBeaten(sys, last, w, later, interrupt)
  {
  }

  /** The heartbeat loop, with the pages the crawl reports meanwhile, is a run of the protocol. */
  lemma {:induction false} BeatsAreSteps(sys: System, w: WorkerId, leaseSeconds: int, lastOk: int, beats: seq<Beat>,
                                         reported: seq<seq<PageResult>>)
    requires w in sys.sessions && CanEmit(sys, w) && |reported| == |beats|
    requires CountsPages(sys.sessions[w].pagesTotal, beats, reported)
    ensures var id := sys.sessions[w].crawl;
            var (db, interrupt) := Beats(sys.db, id, w, leaseSeconds, lastOk, beats);
            var events := BeatEvents(sys.db, id, w, leaseSeconds, lastOk, beats, reported);
            IsBeaten(sys, Run(sys, events, false), w, db, interrupt)
    decreases |beats|
  {
    if |beats| > 0 {
      var id, beat, expired := sys.sessions[w].crawl, beats[0], beats[0].clock - lastOk >= leaseSeconds;
      var (db, interrupt) := OneBeat(sys.db, id, w, beat, expired);
      var after := AfterBeat(sys, w, reported[0], beat, expired);
      BeatAfterPages(sys, w, reported[0], beat, expired);
      FirstBeat(sys.db, id, w, leaseSeconds, lastOk, beats, reported);
      if interrupt.Some? {
        RunOfBeat(sys, w, reported[0], beat, expired, []);
      } else {
        var next := if beat.delivery == Delivered then beat.clock else lastOk;
        var rest := BeatEvents(db, id, w, leaseSeconds, next, beats[1..], reported[1..]);
        var (later, found) := Beats(db, id, w, leaseSeconds, next, beats[1..]);
        BeatsAreSteps(after, w, leaseSeconds, next, beats[1..], reported[1..]);
        RunOfBeat(sys, w, reported[0], beat, expired, rest);
        BeatenTwice(sys, after, Run(after, rest, false), w, db, later, found);
      }
    }
  }

  lemma FirstBeat(db: Db, id: CrawlId, w: WorkerId, leaseSeconds: int, lastOk: int, beats: seq<Beat>,
                  reported: seq<seq<PageResult>>)
    requires |reported| == |beats| > 0
    ensures var beat, expired := beats[0], beats[0].clock - lastOk >= leaseSeconds;
            var (after, interrupt) := OneBeat(db, id, w, beat, expired);
            var next := if beat.delivery == Delivered then beat.clock else lastOk;
            && Beats(db, id, w, leaseSeconds, lastOk, beats)
               == (if interrupt.Some? then (after, interrupt) else Beats(after, id, w, leaseSeconds, next, beats[1..]))
            && BeatEvents(db, id, w, leaseSeconds, lastOk, beats, reported)
               == EmitEvents(w, reported[0])
                  + ([BeatEvent(w, beat, expired)]
                     + if interrupt.Some? then []
                       else BeatEvents(after, id, w, leaseSeconds, next, beats[1..], reported[1..]))
  {
  }

  // Flushes.

  /** The events of one `_flush` while `arriving` pages are reported. */
  function FlushEvents(w: WorkerId, arriving: seq<PageResult>, delivery: Delivery): seq<Event> {
    [StartFlush(w)] + EmitEvents(w, arriving) + [FinishFlush(w, delivery)]
  }

  lemma FinishFlushIsAStep(sys: System, w: WorkerId, delivery: Delivery)
    requires w in sys.sessions && Writing(sys.sessions[w]) && sys.sessions[w].box.inFlight.Some?
    requires sys.sessions[w].crawl in sys.logs && |sys.sessions[w].box.inFlight.value| > 0
    ensures var s, sys' := sys.sessions[w], Apply(sys, FinishFlush(w, delivery), false);
            var (db, outcome) := Inserted(sys.db, s.crawl, w, s.box.inFlight.value, delivery);
            && sys'.db == db && db.crawls == sys.db.crawls && sys'.logs.Keys == sys.logs.Keys
            && w in sys'.sessions && sys'.sessions[w] == s.(box := EndFlush(s.box, outcome == Written))
  {
  }

  lemma StartFlushIsAStep(sys: System, w: WorkerId)
    requires w in sys.sessions && Writing(sys.sessions[w]) && CanFlush(sys.sessions[w].box)
    ensures Apply(sys, StartFlush(w), false)
         == WithSession(sys, w, sys.sessions[w].(box := BeginFlush(sys.sessions[w].box)))
  {
  }

  lemma RunOfFlush(sys: System, w: WorkerId, arriving: seq<PageResult>, delivery: Delivery)
    ensures Run(sys, FlushEvents(w, arriving, delivery), false)
         == Apply(Run(Apply(sys, StartFlush(w), false), EmitEvents(w, arriving), false), FinishFlush(w, delivery),
                  false)
  {
    RunFrom(sys, StartFlush(w), EmitEvents(w, arriving) + [FinishFlush(w, delivery)]);
    RunLast(Apply(sys, StartFlush(w), false), EmitEvents(w, arriving), FinishFlush(w, delivery));
    assert FlushEvents(w, arriving, delivery)
        == [StartFlush(w)] + (EmitEvents(w, arriving) + [FinishFlush(w, delivery)]);
  }

  /** The outbox after a flush of all of `box`, behind which `newer` arrived. */
  function Flushed(box: Outbox, newer: seq<PageRow>, committed: bool): Outbox {
    Outbox((if committed then [] else box.buffer) + newer, box.seqNo + |newer|,
           box.written + (if committed then |box.buffer| else 0), None)
  }

  lemma EndOfFlush(box: Outbox, newer: seq<PageRow>, committed: bool)
    ensures EndFlush(BeginFlush(box).(buffer := box.buffer + newer, seqNo := box.seqNo + |newer|), committed)
         == Flushed(box, newer, committed)
  {
    assert (box.buffer + newer)[|box.buffer|..] == newer == [] + newer;
  }

  /** A flush leaves the tables and the buffer that the class computes, whatever arrives and however it is delivered. */
  lemma FlushIsSteps(sys: System, w: WorkerId, arriving: seq<PageResult>, delivery: Delivery)
    returns (newer: seq<PageRow>)
    requires w in sys.sessions && Writing(sys.sessions[w]) && CanFlush(sys.sessions[w].box)
    requires sys.sessions[w].crawl in sys.logs && (|arriving| > 0 ==> CanEmit(sys, w))
    ensures var box, id := sys.sessions[w].box, sys.sessions[w].crawl;
            var sys' := Run(sys, FlushEvents(w, arriving, delivery), false);
            var (db, outcome) := Inserted(sys.db, id, w, box.buffer, delivery);
            && AreRowsOf(newer, box.seqNo, arriving)
            && sys'.db == db && w in sys'.sessions && sys'.sessions[w].box == Flushed(box, newer, outcome == Written)
  {
    var box := sys.sessions[w].box;
    var started := Apply(sys, StartFlush(w), false);
    StartFlushIsAStep(sys, w);
    newer := ArrivingPagesAreSteps(started, w, arriving);
    RunOfFlush(sys, w, arriving, delivery);
    FinishFlushIsAStep(Run(started, EmitEvents(w, arriving), false), w, delivery);
    EndOfFlush(box, newer, Inserted(sys.db, sys.sessions[w].crawl, w, box.buffer, delivery).1 == Written);
  }

  lemma RunLast(sys: System, events: seq<Event>, last: Event)
    ensures Run(sys, events + [last], false) == Apply(Run(sys, events, false), last, false)
  {
    assert (events + [last])[..|events + [last]| - 1] == events;
  }

  // The end of a job.

  /** What follows the closing flush: the phase `_record` chooses, or the end of the session. */
  ghost predicate IsClosed(s: Session, sys': System, w: WorkerId, db: Db, interrupt: Option<Interrupt>,
                           flushError: Option<string>, others: string)
    requires s.phase.Draining?
  {
    var (state, error) := AfterFlush(s.phase.state, s.phase.error, flushError);
    var phase := Recorded(interrupt, state, Stats(s.pagesTotal, others), error);
    && sys'.db == db && (w in sys'.sessions <==> phase.Some?)
    && (phase.Some? ==>
          && sys'.sessions[w].crawl == s.crawl && sys'.sessions[w].phase == phase.value
          && (s.crawl in db.crawls ==> s.crawl in sys'.logs))
  }

  /** The tables and the logs know the same crawls. */
  ghost predicate IsKnown(sys: System, w: WorkerId)
    requires w in sys.sessions
  {
    sys.sessions[w].crawl in sys.db.crawls && sys.sessions[w].crawl in sys.logs
  }

  lemma CloseCleanIsAStep(sys: System, w: WorkerId, others: string)
    requires w in sys.sessions && sys.sessions[w].phase.Draining? && IsKnown(sys, w)
    requires sys.sessions[w].box.inFlight.None? && sys.sessions[w].box.buffer == []
    ensures IsClosed(sys.sessions[w], Apply(sys, Close(w, Clean, others), false), w, sys.db, sys.sessions[w].interrupt,
                     None, others)
  {
  }

  lemma CloseRefusedIsAStep(sys: System, w: WorkerId, others: string)
    requires w in sys.sessions && sys.sessions[w].phase.Draining? && IsKnown(sys, w)
    requires sys.sessions[w].box.inFlight.Some? && |sys.sessions[w].box.inFlight.value| > 0
    requires Inserted(sys.db, sys.sessions[w].crawl, w, sys.sessions[w].box.inFlight.value, Delivered).1 == NotOwner
    ensures IsClosed(sys.sessions[w], Apply(sys, Close(w, Refused, others), false), w, sys.db, Some(LeaseLost), None,
                     others)
  {
  }

  lemma CloseUnwrittenIsAStep(sys: System, w: WorkerId, delivery: Delivery, text: string, others: string)
    requires w in sys.sessions && sys.sessions[w].phase.Draining? && IsKnown(sys, w)
    requires sys.sessions[w].box.inFlight.Some? && |sys.sessions[w].box.inFlight.value| > 0
    ensures var s := sys.sessions[w];
            IsClosed(s, Apply(sys, Close(w, Unwritten(delivery != RequestLost, text), others), false), w,
                     Inserted(sys.db, s.crawl, w, s.box.inFlight.value, delivery).0, s.interrupt, Some(text), others)
  {
  }

  /** The events of the last flush, whose outcome the tables decide, and of what it is recorded as. */
  function LastFlushEvents(db: Db, id: CrawlId, w: WorkerId, box: Outbox, flush: Delivery, text: string, others: string)
    : seq<Event>
  {
    if box.buffer == [] then [Close(w, Clean, others)]
    else
      match LastFlush(db, id, w, box, flush).1
      case Written => [StartFlush(w), FinishFlush(w, flush), Close(w, Clean, others)]
      case NotOwner => [StartFlush(w), Close(w, Refused, others)]
      case Errored => [StartFlush(w), Close(w, Unwritten(flush != RequestLost, text), others)]
  }

  lemma RunTwo(sys: System, first: Event, second: Event)
    ensures Run(sys, [first, second], false) == Apply(Apply(sys, first, false), second, false)
  {
    assert [first, second] == [first] + [second];
    RunFrom(sys, first, [second]);
    RunOne(Apply(sys, first, false), second);
  }

  lemma RunThree(sys: System, first: Event, second: Event, third: Event)
    ensures Run(sys, [first, second, third], false)
         == Apply(Apply(Apply(sys, first, false), second, false), third, false)
  {
    assert [first, second, third] == [first] + [second, third];
    RunFrom(sys, first, [second, third]);
    RunTwo(Apply(sys, first, false), second, third);
  }

  lemma WrittenFlushIsSteps(sys: System, w: WorkerId, flush: Delivery, others: string)
    requires w in sys.sessions && sys.sessions[w].phase.Draining? && IsKnown(sys, w) && CanFlush(sys.sessions[w].box)
    requires Inserted(sys.db, sys.sessions[w].crawl, w, sys.sessions[w].box.buffer, flush).1 == Written
    ensures var s, events := sys.sessions[w], [StartFlush(w), FinishFlush(w, flush), Close(w, Clean, others)];
            IsClosed(s, Run(sys, events, false), w, Inserted(sys.db, s.crawl, w, s.box.buffer, flush).0, s.interrupt,
                     None, others)
  {
    RunThree(sys, StartFlush(w), FinishFlush(w, flush), Close(w, Clean, others));
    StartFlushIsAStep(sys, w);
    var started := Apply(sys, StartFlush(w), false);
    FinishFlushIsAStep(started, w, flush);
    CloseCleanIsAStep(Apply(started, FinishFlush(w, flush), false), w, others);
  }

  lemma RefusedFlushIsSteps(sys: System, w: WorkerId, flush: Delivery, others: string)
    requires w in sys.sessions && sys.sessions[w].phase.Draining? && IsKnown(sys, w) && CanFlush(sys.sessions[w].box)
    requires Inserted(sys.db, sys.sessions[w].crawl, w, sys.sessions[w].box.buffer, flush).1 == NotOwner
    ensures var s, events := sys.sessions[w], [StartFlush(w), Close(w, Refused, others)];
            IsClosed(s, Run(sys, events, false), w, Inserted(sys.db, s.crawl, w, s.box.buffer, flush).0,
                     Some(LeaseLost), None, others)
  {
    RunTwo(sys, StartFlush(w), Close(w, Refused, others));
    StartFlushIsAStep(sys, w);
    CloseRefusedIsAStep(Apply(sys, StartFlush(w), false), w, others);
  }

  lemma ErroredFlushIsSteps(sys: System, w: WorkerId, flush: Delivery, text: string, others: string)
    requires w in sys.sessions && sys.sessions[w].phase.Draining? && IsKnown(sys, w) && CanFlush(sys.sessions[w].box)
    ensures var s, events := sys.sessions[w], [StartFlush(w), Close(w, Unwritten(flush != RequestLost, text), others)];
            IsClosed(s, Run(sys, events, false), w, Inserted(sys.db, s.crawl, w, s.box.buffer, flush).0, s.interrupt,
                     Some(text), others)
  {
    RunTwo(sys, StartFlush(w), Close(w, Unwritten(flush != RequestLost, text), others));
    StartFlushIsAStep(sys, w);
    CloseUnwrittenIsAStep(Apply(sys, StartFlush(w), false), w, flush, text, others);
  }

  lemma LastFlushIsSteps(sys: System, w: WorkerId, flush: Delivery, text: string, others: string)
    requires w in sys.sessions && sys.sessions[w].phase.Draining? && IsKnown(sys, w)
             && sys.sessions[w].box.inFlight.None?
    ensures var s := sys.sessions[w];
            var (db, outcome) := LastFlush(sys.db, s.crawl, w, s.box, flush);
            IsClosed(s, Run(sys, LastFlushEvents(sys.db, s.crawl, w, s.box, flush, text, others), false), w, db,
                     InterruptAfter(outcome, s.interrupt), ErrorAfter(outcome, text), others)
  {
    var s := sys.sessions[w];
    if s.box.buffer == [] {
      RunOne(sys, Close(w, Clean, others));
      CloseCleanIsAStep(sys, w, others);
    } else {
      match LastFlush(sys.db, s.crawl, w, s.box, flush).1
      case Written => WrittenFlushIsSteps(sys, w, flush, others);
      case NotOwner => RefusedFlushIsSteps(sys, w, flush, others);
      case Errored => ErroredFlushIsSteps(sys, w, flush, text, others);
    }
  }

  /** The events of `close`: the batch in flight ends, or the time runs out; then the last flush. */
  function CloseEvents(db: Db, id: CrawlId, w: WorkerId, box: Outbox, flight: Delivery, patient: bool, flush: Delivery,
                       text: string, others: string): seq<Event>
  {
    var (after, free) := Landed(db, id, w, box, FlightOf(flight, patient));
    if box.inFlight.None? then LastFlushEvents(db, id, w, box, flush, text, others)
    else if !patient then [Close(w, Unwritten(flight != RequestLost, text), others)]
    else [FinishFlush(w, flight)] + LastFlushEvents(after, id, w, free, flush, text, others)
  }

  /** A closing flush, with or without a batch in flight and however it ends, is a run of the protocol. */
  lemma CloseIsSteps(sys: System, w: WorkerId, flight: Delivery, patient: bool, flush: Delivery, text: string,
                     others: string)
    requires w in sys.sessions && sys.sessions[w].phase.Draining? && IsKnown(sys, w)
    requires sys.sessions[w].box.inFlight.Some? ==> |sys.sessions[w].box.inFlight.value| > 0
    ensures var s := sys.sessions[w];
            var (db, outcome) := Closed(sys.db, s.crawl, w, s.box, flight, patient, flush);
            var events := CloseEvents(sys.db, s.crawl, w, s.box, flight, patient, flush, text, others);
            IsClosed(s, Run(sys, events, false), w, db, InterruptAfter(outcome, s.interrupt), ErrorAfter(outcome, text),
                     others)
  {
    var s := sys.sessions[w];
    if s.box.inFlight.None? {
      LastFlushIsSteps(sys, w, flush, text, others);
    } else if !patient {
      RunOne(sys, Close(w, Unwritten(flight != RequestLost, text), others));
      CloseUnwrittenIsAStep(sys, w, FlightOf(flight, patient), text, others);
    } else {
      var (after, free) := Landed(sys.db, s.crawl, w, s.box, flight);
      FinishFlushIsAStep(sys, w, flight);
      LastFlushIsSteps(Apply(sys, FinishFlush(w, flight), false), w, flush, text, others);
      RunFrom(sys, FinishFlush(w, flight), LastFlushEvents(after, s.crawl, w, free, flush, text, others));
    }
  }

  /** After the closing flush: the release, the look at the row if it was refused, and the final writes. */
  function RecordEvents(w: WorkerId, interrupt: Option<Interrupt>, release: Delivery, lookup: Delivery, tries: seq<Try>,
                        deadline: int): seq<Event>
  {
    [Event.Release(w, release)]
    + ((if interrupt == Some(Stopped) && lookup != Delivered then [Crash(w)] else [])
       + FinishEvents(w, tries, deadline))
  }

  lemma NothingToRelease(sys: System, w: WorkerId, release: Delivery)
    requires w !in sys.sessions || sys.sessions[w].phase.Finishing?
    ensures Apply(sys, Event.Release(w, release), false) == sys
  {
  }

  lemma ReleaseIsAStep(sys: System, w: WorkerId, release: Delivery)
    requires w in sys.sessions && sys.sessions[w].phase.Requeueing? && sys.sessions[w].crawl in sys.logs
    ensures var s, after := sys.sessions[w], Apply(sys, Event.Release(w, release), false);
            var (db, released) :=
              if release == RequestLost then (sys.db, false) else Tables.Release(sys.db, s.crawl, w);
            && after.db == db && (w in after.sessions <==> release == Delivered && !released)
            && (w in after.sessions ==>
                  && after.sessions[w].crawl == s.crawl
                  && after.sessions[w].phase == Finishing(Aborted, s.phase.finalStats, Some(CancelledByRequest)))
  {
  }

  lemma CrashIsAStep(sys: System, w: WorkerId)
    ensures Apply(sys, Crash(w), false).db == sys.db && w !in Apply(sys, Crash(w), false).sessions
  {
  }

  /** The lookup that fails ends the session, and the final writes after it are no steps at all. */
  lemma AfterRelease(sys: System, w: WorkerId, lookup: Delivery, tries: seq<Try>, deadline: int)
    requires w in sys.sessions ==> sys.sessions[w].phase.Finishing?
    ensures var events := (if lookup != Delivered then [Crash(w)] else []) + FinishEvents(w, tries, deadline);
            Run(sys, events, false).db
            == if w !in sys.sessions || lookup != Delivered then sys.db
               else FinalWrites(sys.db, sys.sessions[w].crawl, w, VerdictOf(sys.sessions[w]), tries, deadline).0
  {
    if lookup != Delivered {
      RunFrom(sys, Crash(w), FinishEvents(w, tries, deadline));
      CrashIsAStep(sys, w);
      IdleWorker(Apply(sys, Crash(w), false), w, FinishEvents(w, tries, deadline));
    } else {
      assert [] + FinishEvents(w, tries, deadline) == FinishEvents(w, tries, deadline);
      if w in sys.sessions {
        FinalWritesAreSteps(sys, w, tries, deadline);
      } else {
        IdleWorker(sys, w, FinishEvents(w, tries, deadline));
      }
    }
  }

  lemma RequeueIsSteps(sys: System, w: WorkerId, release: Delivery, lookup: Delivery, tries: seq<Try>, deadline: int)
    requires w in sys.sessions && sys.sessions[w].phase.Requeueing? && sys.sessions[w].crawl in sys.logs
    ensures var s := sys.sessions[w];
            Run(sys, RecordEvents(w, Some(Stopped), release, lookup, tries, deadline), false).db
            == Requeued(sys.db, s.crawl, w, s.phase.finalStats, release, lookup, tries, deadline)
  {
    var after := Apply(sys, Event.Release(w, release), false);
    var rest := (if lookup != Delivered then [Crash(w)] else []) + FinishEvents(w, tries, deadline);
    RunFrom(sys, Event.Release(w, release), rest);
    ReleaseIsAStep(sys, w, release);
    AfterRelease(after, w, lookup, tries, deadline);
  }

  lemma WritesAreSteps(sys: System, w: WorkerId, interrupt: Option<Interrupt>, release: Delivery, lookup: Delivery,
                       tries: seq<Try>, deadline: int)
    requires interrupt != Some(Stopped) && (w in sys.sessions ==> sys.sessions[w].phase.Finishing?)
    ensures Run(sys, RecordEvents(w, interrupt, release, lookup, tries, deadline), false).db
         == if w !in sys.sessions then sys.db
            else FinalWrites(sys.db, sys.sessions[w].crawl, w, VerdictOf(sys.sessions[w]), tries, deadline).0
  {
    RunFrom(sys, Event.Release(w, release), [] + FinishEvents(w, tries, deadline));
    NothingToRelease(sys, w, release);
    AfterRelease(sys, w, Delivered, tries, deadline);
  }

  /** `_record` and all it leads to is a run of the protocol, whatever the closing flush came to. */
  lemma RecordIsSteps(s: Session, sys: System, w: WorkerId, db: Db, interrupt: Option<Interrupt>,
                      flushError: Option<string>, others: string, release: Delivery, lookup: Delivery, tries: seq<Try>,
                      deadline: int)
    requires s.phase.Draining? && s.crawl in db.crawls && IsClosed(s, sys, w, db, interrupt, flushError, others)
    ensures var (state, error) := AfterFlush(s.phase.state, s.phase.error, flushError);
            Run(sys, RecordEvents(w, interrupt, release, lookup, tries, deadline), false).db
            == RecordedDb(db, s.crawl, w, interrupt, Verdict(state, Stats(s.pagesTotal, others), error), release,
                          lookup, tries, deadline)
  {
    if interrupt == Some(Stopped) {
      RequeueIsSteps(sys, w, release, lookup, tries, deadline);
    } else {
      WritesAreSteps(sys, w, interrupt, release, lookup, tries, deadline);
    }
  }

  /** The session once its crawl task has ended. */
  function AfterCrawl(s: Session, how: Ending): (after: Session)
    ensures after.phase.Draining?
  {
    var (state, error) := Outcome(how, s.interrupt);
    s.(phase := Draining(state, error), box := if s.interrupt == Some(LeaseLost) then Discard(s.box) else s.box)
  }

  lemma EndAndDropAreSteps(sys: System, w: WorkerId, how: Ending)
    requires w in sys.sessions && sys.sessions[w].phase == Crawling
             && (how.Interrupted? ==> sys.sessions[w].interrupt.Some?)
    ensures Run(sys, [EndCrawl(w, how), DropPages(w)], false) == WithSession(sys, w, AfterCrawl(sys.sessions[w], how))
  {
    RunTwo(sys, EndCrawl(w, how), DropPages(w));
  }

  /** The end of the crawl task and the closing flush. */
  function DrainEvents(db: Db, w: WorkerId, s: Session, how: Ending, others: string, flight: Delivery, patient: bool,
                       flush: Delivery, text: string): seq<Event>
  {
    [EndCrawl(w, how), DropPages(w)]
    + CloseEvents(db, s.crawl, w, AfterCrawl(s, how).box, flight, patient, flush, text, others)
  }

  lemma DrainIsSteps(sys: System, w: WorkerId, how: Ending, others: string, flight: Delivery, patient: bool,
                     flush: Delivery, text: string)
    requires w in sys.sessions && sys.sessions[w].phase == Crawling && IsKnown(sys, w)
    requires how.Interrupted? ==> sys.sessions[w].interrupt.Some?
    requires sys.sessions[w].box.inFlight.Some? ==> |sys.sessions[w].box.inFlight.value| > 0
    ensures var s := sys.sessions[w];
            var (db, found, flushError) :=
              Drained(sys.db, s.crawl, w, s.box, s.interrupt, flight, patient, flush, text);
            && db.crawls == sys.db.crawls
            && IsClosed(AfterCrawl(s, how),
                        Run(sys, DrainEvents(sys.db, w, s, how, others, flight, patient, flush, text), false),
                        w, db, found, flushError, others)
  {
    var s, ended := sys.sessions[w], WithSession(sys, w, AfterCrawl(sys.sessions[w], how));
    EndAndDropAreSteps(sys, w, how);
    CloseIsSteps(ended, w, flight, patient, flush, text, others);
    ClosedKeepsCrawls(sys.db, s.crawl, w, AfterCrawl(s, how).box, flight, patient, flush);
    RunJoined(sys, [EndCrawl(w, how), DropPages(w)],
              CloseEvents(sys.db, s.crawl, w, AfterCrawl(s, how).box, flight, patient, flush, text, others));
  }

  /** The end of a job as events of the protocol, from the outcome of the crawl on. */
  function SettleEvents(db: Db, w: WorkerId, s: Session, how: Ending, others: string, flight: Delivery, patient: bool,
                        flush: Delivery, text: string, release: Delivery, lookup: Delivery, tries: seq<Try>,
                        deadline: int)
    : seq<Event>
  {
    var found := Drained(db, s.crawl, w, s.box, s.interrupt, flight, patient, flush, text).1;
    DrainEvents(db, w, s, how, others, flight, patient, flush, text)
      + RecordEvents(w, found, release, lookup, tries, deadline)
  }

  /**
   * The end of a job is a run of the protocol: what the class leaves in the tables is what these steps leave, so every
   * result about runs is one about it.
   */
  lemma SettleIsSteps(sys: System, w: WorkerId, how: Ending, others: string, flight: Delivery, patient: bool,
                      flush: Delivery, text: string, release: Delivery, lookup: Delivery, tries: seq<Try>,
                      deadline: int)
    requires w in sys.sessions && sys.sessions[w].phase == Crawling && IsKnown(sys, w)
    requires how.Interrupted? ==> sys.sessions[w].interrupt.Some?
    requires sys.sessions[w].box.inFlight.Some? ==> |sys.sessions[w].box.inFlight.value| > 0
    ensures var s := sys.sessions[w];
            Run(sys, SettleEvents(sys.db, w, s, how, others, flight, patient, flush, text, release, lookup, tries,
                                  deadline),
                false).db
            == SettledDb(sys.db, s.crawl, w, s.box, s.interrupt, how, Stats(s.pagesTotal, others), flight, patient,
                         flush, text, release, lookup, tries, deadline)
  {
    var s := sys.sessions[w];
    var draining := DrainEvents(sys.db, w, s, how, others, flight, patient, flush, text);
    var (db, found, flushError) := Drained(sys.db, s.crawl, w, s.box, s.interrupt, flight, patient, flush, text);
    DrainIsSteps(sys, w, how, others, flight, patient, flush, text);
    RunJoined(sys, draining, RecordEvents(w, found, release, lookup, tries, deadline));
    RecordIsSteps(AfterCrawl(s, how), Run(sys, draining, false), w, db, found, flushError, others, release, lookup,
                  tries, deadline);
  }

  lemma ClosedKeepsCrawls(db: Db, id: CrawlId, w: WorkerId, box: Outbox, flight: Delivery, patient: bool,
                          flush: Delivery)
    ensures Closed(db, id, w, box, flight, patient, flush).0.crawls == db.crawls
  {
  }
}
