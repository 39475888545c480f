/** `Worker`: the order of repository calls in one lease, and the loops around them. */
module Workers {
  import opened Options
  import opened Tables
  import opened Repository
  import opened Reporting
  import opened Leases
  import opened LeaseInvariants
  import opened Reporter

  /** One attempt at the final write: the database clock, the worker's clock if it fails, and how it was delivered. */
  datatype Try = Try(now: int, clock: int, delivery: Delivery)

  /** One heartbeat: the two clocks, what the snapshot says, and how it was delivered. */
  datatype Beat = Beat(now: int, clock: int, stats: Stats, delivery: Delivery)

  /** What a worker writes when a crawl ends. */
  datatype Verdict = Verdict(state: CrawlState, stats: Stats, error: Option<Error>)

  /** How a job ended for the loop that runs it. */
  datatype JobEnd = Ended(state: CrawlState) | Propagated

  function AfterWrite(db: Db, id: CrawlId, w: WorkerId, now: int, verdict: Verdict): Db {
    Tables.Finish(db, id, w, now, verdict.state, verdict.stats, verdict.error).0
  }

  /** The final write, tried until a reply comes back or the deadline has passed; `None` when none came. */
  function FinalWrites(db: Db, id: CrawlId, w: WorkerId, verdict: Verdict, tries: seq<Try>, deadline: int)
    : (Db, Option<bool>)
    decreases |tries|
  {
    if |tries| == 0 then (db, None)
    else
      var next := tries[0];
      var after := if next.delivery == RequestLost then db else AfterWrite(db, id, w, next.now, verdict);
      if next.delivery == Delivered then (after, Some(HeldBy(db, id, w)))
      else if next.clock >= deadline then (after, None)
      else FinalWrites(after, id, w, verdict, tries[1..], deadline)
  }

  /** However often it is repeated, the final write happens at most once: the tables are as after one write, or none. */
  lemma {:induction false} RepeatedWritesAreOne(db: Db, id: CrawlId, w: WorkerId, verdict: Verdict, tries: seq<Try>,
                                                deadline: int)
    ensures var (after, recorded) := FinalWrites(db, id, w, verdict, tries, deadline);
            && (after == db || exists now :: after == AfterWrite(db, id, w, now, verdict))
            && (recorded == Some(true) ==>
                HeldBy(db, id, w) && exists now :: after == AfterWrite(db, id, w, now, verdict))
            && (recorded == Some(false) ==> !HeldBy(db, id, w) && after == db)
    decreases |tries|
  {
    if |tries| > 0 {
      var next := tries[0];
      var after := if next.delivery == RequestLost then db else AfterWrite(db, id, w, next.now, verdict);
      RepeatedWritesAreOne(after, id, w, verdict, tries[1..], deadline);
      forall now ensures next.delivery != RequestLost ==>
                           AfterWrite(AfterWrite(db, id, w, next.now, verdict), id, w, now, verdict)
                             == AfterWrite(db, id, w, now, verdict)
      {
        FinishTwice(db, id, w, next.now, now, verdict);
      }
    }
  }

  lemma FinishTwice(db: Db, id: CrawlId, w: WorkerId, now: int, later: int, verdict: Verdict)
    ensures AfterWrite(AfterWrite(db, id, w, now, verdict), id, w, later, verdict)
         == AfterWrite(db, id, w, later, verdict)
    ensures HeldBy(AfterWrite(db, id, w, now, verdict), id, w) <==> HeldBy(db, id, w)
  {
    if HeldBy(db, id, w) {
      var row := db.crawls[id].(state := verdict.state, finishedAt := Some(now), stats := Some(verdict.stats),
                                error := verdict.error);
      assert db.crawls[id := row].Keys == db.crawls.Keys;
    }
  }

  /** Some try is answered before the worker gives up. */
  predicate IsAnswered(tries: seq<Try>, deadline: int)
    decreases |tries|
  {
    |tries| > 0 && (tries[0].delivery == Delivered || (tries[0].clock < deadline && IsAnswered(tries[1..], deadline)))
  }

  lemma {:induction false} AnsweredIff(db: Db, id: CrawlId, w: WorkerId, verdict: Verdict, tries: seq<Try>,
                                       deadline: int)
    ensures FinalWrites(db, id, w, verdict, tries, deadline).1.Some? <==> IsAnswered(tries, deadline)
    decreases |tries|
  {
    if |tries| > 0 {
      var after := if tries[0].delivery == RequestLost then db else AfterWrite(db, id, w, tries[0].now, verdict);
      AnsweredIff(after, id, w, verdict, tries[1..], deadline);
    }
  }

  /** What one heartbeat leaves: the tables, and the interrupt it raises if any. */
  function OneBeat(db: Db, id: CrawlId, w: WorkerId, beat: Beat, expired: bool): (Db, Option<Interrupt>) {
    var (after, answer) :=
      if beat.delivery == RequestLost then (db, None) else Tables.Heartbeat(db, id, w, beat.now, beat.stats);
    (after, Watch(if beat.delivery == Delivered then Some(answer) else None, expired))
  }

  /** The heartbeats of a job, until one of them interrupts it; `lastOk` is when the last reply came. */
  function Beats(db: Db, id: CrawlId, w: WorkerId, leaseSeconds: int, lastOk: int, beats: seq<Beat>)
    : (Db, Option<Interrupt>)
    decreases |beats|
  {
    if |beats| == 0 then (db, None)
    else
      var next := beats[0];
      var (after, interrupt) := OneBeat(db, id, w, next, next.clock - lastOk >= leaseSeconds);
      if interrupt.Some? then (after, interrupt)
      else Beats(after, id, w, leaseSeconds, if next.delivery == Delivered then next.clock else lastOk, beats[1..])
  }

  /** When the last reply came, `lastOk` being the one before all of `beats`. */
  function LastReply(beats: seq<Beat>, lastOk: int): int {
    if |beats| == 0 then lastOk
    else if beats[|beats| - 1].delivery == Delivered then beats[|beats| - 1].clock
    else LastReply(beats[..|beats| - 1], lastOk)
  }

  /** Beat `i` goes unanswered a whole lease or more after the last reply before it. */
  predicate IsLate(beats: seq<Beat>, i: nat, lastOk: int, leaseSeconds: int) {
    i < |beats| && beats[i].delivery != Delivered && beats[i].clock - LastReply(beats[..i], lastOk) >= leaseSeconds
  }

  /** The index of the first beat that is answered, or their number. */
  function FirstReply(beats: seq<Beat>): (n: nat)
    ensures n <= |beats|
    ensures n < |beats| ==> beats[n].delivery == Delivered
    ensures forall i | 0 <= i < n :: beats[i].delivery != Delivered
  {
    if |beats| == 0 || beats[0].delivery == Delivered then 0 else 1 + FirstReply(beats[1..])
  }

  lemma {:induction false} LastReplyFrom(first: Beat, rest: seq<Beat>, lastOk: int)
    ensures LastReply([first] + rest, lastOk)
         == LastReply(rest, if first.delivery == Delivered then first.clock else lastOk)
    decreases |rest|
  {
    var beats := [first] + rest;
    if |rest| == 0 {
      assert beats[..0] == [];
    } else {
      LastReplyFrom(first, rest[..|rest| - 1], lastOk);
      assert beats[..|beats| - 1] == [first] + rest[..|rest| - 1];
    }
  }

  lemma LateInRest(beats: seq<Beat>, i: nat, lastOk: int, leaseSeconds: int)
    requires |beats| > 0
    ensures var next := if beats[0].delivery == Delivered then beats[0].clock else lastOk;
            IsLate(beats, i + 1, lastOk, leaseSeconds) <==> IsLate(beats[1..], i, next, leaseSeconds)
  {
    if i + 1 < |beats| {
      assert beats[..i + 1] == [beats[0]] + beats[1..][..i];
      LastReplyFrom(beats[0], beats[1..][..i], lastOk);
    }
  }

  /** Some beat is late. */
  ghost predicate SomeLate(beats: seq<Beat>, lastOk: int, leaseSeconds: int) {
    exists i: nat :: IsLate(beats, i, lastOk, leaseSeconds)
  }

  /** The first beat is late, or one of the others. */
  lemma SomeLateInRest(beats: seq<Beat>, lastOk: int, leaseSeconds: int)
    requires |beats| > 0
    ensures var next := if beats[0].delivery == Delivered then beats[0].clock else lastOk;
            SomeLate(beats, lastOk, leaseSeconds)
            <==> (beats[0].delivery != Delivered && beats[0].clock - lastOk >= leaseSeconds)
                 || SomeLate(beats[1..], next, leaseSeconds)
  {
    var next := if beats[0].delivery == Delivered then beats[0].clock else lastOk;
    assert IsLate(beats, 0, lastOk, leaseSeconds)
      <==> beats[0].delivery != Delivered && beats[0].clock - lastOk >= leaseSeconds by {
      assert beats[..0] == [];
    }
    if i: nat :| IsLate(beats, i, lastOk, leaseSeconds) && i > 0 {
      LateInRest(beats, i - 1, lastOk, leaseSeconds);
    }
    if i: nat :| IsLate(beats[1..], i, next, leaseSeconds) {
      LateInRest(beats, i, lastOk, leaseSeconds);
    }
  }

  /**
   * Exactly when heartbeats end a job, while no one else writes the row. On an unflagged row that runs under the
   * worker: when some beat goes unanswered a lease or more after the last reply, which is when the reaper may hand the
   * crawl on. On a flagged one: at the first reply, unless such a silence comes before it. On any other row: at the
   * first reply or such a silence.
   */
  lemma {:induction false} OnlySilenceLosesTheLease(db: Db, id: CrawlId, w: WorkerId, leaseSeconds: int, lastOk: int,
                                                    beats: seq<Beat>)
    ensures var interrupt, first := Beats(db, id, w, leaseSeconds, lastOk, beats).1, FirstReply(beats);
            if !RunsUnder(db, id, w) then
              interrupt == if first < |beats| || SomeLate(beats, lastOk, leaseSeconds) then Some(LeaseLost) else None
            else if db.crawls[id].cancelRequested then
              interrupt == if SomeLate(beats[..first], lastOk, leaseSeconds) then Some(LeaseLost)
                           else if first < |beats| then Some(CancelRequested) else None
            else interrupt == if SomeLate(beats, lastOk, leaseSeconds) then Some(LeaseLost) else None
    decreases |beats|
  {
    if |beats| > 0 {
      var next, rest, first := beats[0], beats[1..], FirstReply(beats);
      var after := if next.delivery == RequestLost then db else Tables.Heartbeat(db, id, w, next.now, next.stats).0;
      OnlySilenceLosesTheLease(after, id, w, leaseSeconds,
                               if next.delivery == Delivered then next.clock else lastOk, rest);
      SomeLateInRest(beats, lastOk, leaseSeconds);
      if first > 0 {
        SomeLateInRest(beats[..first], lastOk, leaseSeconds);
        assert beats[..first][1..] == rest[..first - 1];
      }
    }
  }

  /** A release, its reply, and what follows a refusal: the row is looked up, and only then written. */
  function Requeued(db: Db, id: CrawlId, w: WorkerId, stats: Stats, release: Delivery, lookup: Delivery,
                    tries: seq<Try>, deadline: int): Db
  {
    if release == RequestLost then db
    else
      var (after, released) := Tables.Release(db, id, w);
      if release == ReplyLost || released || lookup != Delivered then after
      else FinalWrites(db, id, w, Verdict(Aborted, stats, Some(CancelledByRequest)), tries, deadline).0
  }

  /** What the source records for a crawl that ended in this way, with nothing lost but perhaps its last pages. */
  ghost predicate EndsAs(row: CrawlRow, how: Ending, interrupt: Option<Interrupt>, flushError: Option<string>) {
    match how
    case Completed =>
      if flushError.None? then row.state == CrawlState.Finished && row.error == None
      else row.state == Failed && row.error == Some(FromCrawl(flushError.value))
    case Raised(text) => row.state == Failed && row.error == Some(FromCrawl(text))
    case FuseAborted(reason) =>
      && row.state == Aborted
      && row.error == if flushError.None? then Some(FromCrawl(reason))
                      else Some(WithFlushError(Some(FromCrawl(reason)), flushError.value))
    case Interrupted =>
      && row.state == Aborted
      && (interrupt == Some(CancelRequested) ==>
            row.error == if flushError.None? then Some(CancelledByRequest)
                         else Some(WithFlushError(Some(CancelledByRequest), flushError.value)))
  }

  /** The row of a worker whose last writes were answered. */
  ghost predicate SettlesAs(row: CrawlRow, how: Ending, interrupt: Option<Interrupt>, cancelled: bool, stats: Stats,
                            flushError: Option<string>)
  {
    match interrupt
    case Some(LeaseLost) => true
    case Some(Stopped) =>
      if cancelled then row.state == Aborted && row.error == Some(CancelledByRequest) && row.stats == Some(stats)
      else row.state == Queued && row.workerId == None && row.heartbeatAt == None
    case _ => EndsAs(row, how, interrupt, flushError) && row.stats == Some(stats) && row.finishedAt.Some?
  }

  /** What `_record` leaves in the tables. */
  function RecordedDb(db: Db, id: CrawlId, w: WorkerId, interrupt: Option<Interrupt>, verdict: Verdict,
                      release: Delivery, lookup: Delivery, tries: seq<Try>, deadline: int): Db {
    match Recorded(interrupt, verdict.state, verdict.stats, verdict.error)
    case None => db
    case Some(Requeueing(stats)) => Requeued(db, id, w, stats, release, lookup, tries, deadline)
    case Some(_) => FinalWrites(db, id, w, verdict, tries, deadline).0
  }

  /** The verdict on a crawl that ended this way, once the closing flush is done. */
  function VerdictOn(how: Ending, interrupt: Option<Interrupt>, stats: Stats, flushError: Option<string>): Verdict {
    var (state, error) := Outcome(how, interrupt);
    var (finalState, finalError) := AfterFlush(state, error, flushError);
    Verdict(finalState, stats, finalError)
  }

  /** Interrupt and error that a last flush leaves. */
  function InterruptAfter(outcome: FlushOutcome, interrupt: Option<Interrupt>): Option<Interrupt> {
    if outcome == NotOwner then Some(LeaseLost) else interrupt
  }

  function ErrorAfter(outcome: FlushOutcome, text: string): Option<string> {
    if outcome == Errored then Some(text) else None
  }

  /** The tables, the interrupt and the flush error once the pages are drained. */
  function Drained(db: Db, id: CrawlId, w: WorkerId, box: Outbox, interrupt: Option<Interrupt>, flight: Delivery,
                   patient: bool, flush: Delivery, text: string): (Db, Option<Interrupt>, Option<string>) {
    var start := if interrupt == Some(LeaseLost) then Discard(box) else box;
    var (after, outcome) := Closed(db, id, w, start, flight, patient, flush);
    (after, InterruptAfter(outcome, interrupt), ErrorAfter(outcome, text))
  }

  /** Everything the end of a job leaves in the tables, from the outcome of the crawl on. */
  function SettledDb(db: Db, id: CrawlId, w: WorkerId, box: Outbox, interrupt: Option<Interrupt>, how: Ending,
                     stats: Stats, flight: Delivery, patient: bool, flush: Delivery, text: string, release: Delivery,
                     lookup: Delivery, tries: seq<Try>, deadline: int): Db {
    var (after, found, flushError) := Drained(db, id, w, box, interrupt, flight, patient, flush, text);
    RecordedDb(after, id, w, found, VerdictOn(how, interrupt, stats, flushError), release, lookup, tries, deadline)
  }

  /** However many tries it takes: once one is answered, the row says how the crawl ended. */
  lemma AnsweredVerdict(db: Db, id: CrawlId, w: WorkerId, how: Ending, interrupt: Option<Interrupt>, stats: Stats,
                        flushError: Option<string>, tries: seq<Try>, deadline: int)
    requires HeldBy(db, id, w) && (how.Interrupted? ==> interrupt.Some?) && IsAnswered(tries, deadline)
    ensures var verdict := VerdictOn(how, interrupt, stats, flushError);
            var after := RecordedDb(db, id, w, interrupt, verdict, Delivered, Delivered, tries, deadline);
            && id in after.crawls
            && SettlesAs(after.crawls[id], how, interrupt, db.crawls[id].cancelRequested, stats, flushError)
  {
    var verdict, cancelled :=
      VerdictOn(how, interrupt, stats, flushError), Verdict(Aborted, stats, Some(CancelledByRequest));
    AnsweredWrite(db, id, w, verdict, tries, deadline);
    AnsweredWrite(db, id, w, cancelled, tries, deadline);
  }

  lemma AnsweredWrite(db: Db, id: CrawlId, w: WorkerId, verdict: Verdict, tries: seq<Try>, deadline: int)
    requires HeldBy(db, id, w) && IsAnswered(tries, deadline)
    ensures var after := FinalWrites(db, id, w, verdict, tries, deadline).0;
            && id in after.crawls && after.crawls[id].state == verdict.state && after.crawls[id].error == verdict.error
            && after.crawls[id].stats == Some(verdict.stats) && after.crawls[id].finishedAt.Some?
  {
    AnsweredIff(db, id, w, verdict, tries, deadline);
    RepeatedWritesAreOne(db, id, w, verdict, tries, deadline);
    var (after, recorded) := FinalWrites(db, id, w, verdict, tries, deadline);
    assert recorded.Some? && recorded != Some(false);
    assert recorded == Some(recorded.value) && recorded.value;
    var now :| after == AfterWrite(db, id, w, now, verdict);
  }

  /** What holds of a row once its verdict is recorded, the drained pages leaving the tables `db`. */
  ghost predicate IsRecorded(db: Db, after: Db, id: CrawlId, w: WorkerId, how: Ending, before: Option<Interrupt>,
                             found: Option<Interrupt>, stats: Stats, flushError: Option<string>)
  {
    && after.pages == db.pages
    && (!HeldBy(db, id, w) || found == Some(LeaseLost) ==> after == db)
    && (HeldBy(db, id, w) && id in after.crawls && after.crawls[id].state == CrawlState.Finished ==>
          && found != Some(LeaseLost) && how.Completed? && flushError.None?
          && after.crawls[id].stats == Some(stats) && after.crawls[id].error == None)
  }

  /** Only a completed crawl whose pages were all written is ever recorded as finished. */
  lemma FinishedVerdict(db: Db, id: CrawlId, w: WorkerId, how: Ending, before: Option<Interrupt>,
                        interrupt: Option<Interrupt>, stats: Stats, flushError: Option<string>, release: Delivery,
                        lookup: Delivery, tries: seq<Try>, deadline: int)
    requires HeldBy(db, id, w) ==> db.crawls[id].state == Running
    ensures var verdict := VerdictOn(how, before, stats, flushError);
            var after := RecordedDb(db, id, w, interrupt, verdict, release, lookup, tries, deadline);
            IsRecorded(db, after, id, w, how, before, interrupt, stats, flushError)
  {
    RepeatedWritesAreOne(db, id, w, VerdictOn(how, before, stats, flushError), tries, deadline);
    RepeatedWritesAreOne(db, id, w, Verdict(Aborted, stats, Some(CancelledByRequest)), tries, deadline);
  }

  lemma RecordedVerdict(db: Db, id: CrawlId, w: WorkerId, how: Ending, before: Option<Interrupt>,
                        found: Option<Interrupt>, stats: Stats, flushError: Option<string>, release: Delivery,
                        lookup: Delivery, tries: seq<Try>, deadline: int)
    requires HeldBy(db, id, w) ==> db.crawls[id].state == Running
    requires how.Interrupted? ==> before.Some?
    requires found != before ==> found == Some(LeaseLost) && !RunsUnder(db, id, w)
    ensures var verdict := VerdictOn(how, before, stats, flushError);
            var after := RecordedDb(db, id, w, found, verdict, release, lookup, tries, deadline);
            && IsRecorded(db, after, id, w, how, before, found, stats, flushError)
            && (HeldBy(db, id, w) && release == lookup == Delivered && IsAnswered(tries, deadline) ==>
                  && id in after.crawls
                  && SettlesAs(after.crawls[id], how, before, db.crawls[id].cancelRequested, stats, flushError))
  {
    FinishedVerdict(db, id, w, how, before, found, stats, flushError, release, lookup, tries, deadline);
    if HeldBy(db, id, w) && release == lookup == Delivered && IsAnswered(tries, deadline) {
      AnsweredVerdict(db, id, w, how, before, stats, flushError, tries, deadline);
    }
  }

  /**
   * Whether the closing flush failed: not if it was answered in time, and surely if its rows were sent without a reply.
   */
  ghost predicate IsFlushError(flushError: Option<string>, text: string, interrupt: Option<Interrupt>, box: Outbox,
                               patient: bool, flush: Delivery)
  {
    && (flushError.Some? ==> flushError.value == text)
    && (flush == Delivered && (box.inFlight.None? || patient) ==> flushError.None?)
    && (interrupt != Some(LeaseLost) && flush != Delivered && CanFlush(box) ==> flushError.Some?)
  }

  class Worker {
    const workerId: WorkerId
    const leaseSeconds: int
    const maxAttempts: nat
    var lastReap: Option<int>
    var interrupt: Option<Interrupt>

    constructor (workerId: WorkerId, leaseSeconds: int, maxAttempts: nat)
      ensures this.workerId == workerId && this.leaseSeconds == leaseSeconds && this.maxAttempts == maxAttempts
      ensures lastReap == None && interrupt == None
    {
      this.workerId, this.leaseSeconds, this.maxAttempts := workerId, leaseSeconds, maxAttempts;
      lastReap, interrupt := None, None;
    }

    /** Once per lease, counted from the last attempt, whether or not that one succeeded. */
    method ReapIfDue(repo: CrawlRepository, clock: int, now: int, delivery: Delivery)
      modifies this`lastReap, repo`crawls
      ensures var due := old(lastReap).None? || clock - old(lastReap).value >= leaseSeconds;
              && lastReap == (if due then Some(clock) else old(lastReap))
              && repo.View() == if !due || delivery == RequestLost then old(repo.View())
                                else Tables.Reap(old(repo.View()), now, leaseSeconds, maxAttempts)
    {
      if lastReap.Some? && clock - lastReap.value < leaseSeconds {
        return;
      }
      lastReap := Some(clock);
      if delivery != RequestLost {
        var reaped := repo.Reap(now, leaseSeconds, maxAttempts);
      }
    }

    method Watch(repo: CrawlRepository, id: CrawlId, started: int, beats: seq<Beat>)
      modifies this`interrupt, repo`crawls
      ensures var (db, found) := Beats(old(repo.View()), id, workerId, leaseSeconds, started, beats);
              repo.View() == db && interrupt == if found.Some? then found else old(interrupt)
    {
      var lastOk, i := started, 0;
      while i < |beats|
        invariant 0 <= i <= |beats| && interrupt == old(interrupt)
        invariant Beats(repo.View(), id, workerId, leaseSeconds, lastOk, beats[i..])
               == Beats(old(repo.View()), id, workerId, leaseSeconds, started, beats)
      {
        var beat, cancelRequested := beats[i], None;
        assert beats[i..][1..] == beats[i + 1..];
        if beat.delivery != RequestLost {
          cancelRequested := repo.Heartbeat(id, workerId, beat.now, beat.stats);
        }
        if beat.delivery != Delivered {
          if beat.clock - lastOk >= leaseSeconds {
            interrupt := Some(LeaseLost);
            return;
          }
        } else {
          lastOk := beat.clock;
          if cancelRequested.None? {
            interrupt := Some(LeaseLost);
            return;
          }
          if cancelRequested.value {
            interrupt := Some(CancelRequested);
            return;
          }
        }
        i := i + 1;
      }
    }

    /** Retried until the lease expires anyway; `None` means that no reply came. */
    method WriteTerminalState(repo: CrawlRepository, id: CrawlId, verdict: Verdict, started: int, tries: seq<Try>)
      returns (recorded: Option<bool>)
      requires IsTerminal(verdict.state)
      modifies repo`crawls
      ensures (repo.View(), recorded)
           == FinalWrites(old(repo.View()), id, workerId, verdict, tries, started + leaseSeconds)
    {
      var deadline, i := started + leaseSeconds, 0;
      while i < |tries|
        invariant 0 <= i <= |tries|
        invariant FinalWrites(repo.View(), id, workerId, verdict, tries[i..], deadline)
               == FinalWrites(old(repo.View()), id, workerId, verdict, tries, deadline)
      {
        var next, written := tries[i], Some(false);
        assert tries[i..][1..] == tries[i + 1..];
        if next.delivery != RequestLost {
          written := repo.Finish(id, workerId, next.now, verdict.state, verdict.stats, verdict.error);
        }
        if next.delivery == Delivered {
          return written;
        }
        if next.clock >= deadline {
          return None;
        }
        i := i + 1;
      }
      return None;
    }

    /** `_reject`: a crawl whose configuration does not build fails with that error and an empty summary. */
    method Reject(repo: CrawlRepository, id: CrawlId, text: string, started: int, tries: seq<Try>)
      modifies repo`crawls
      ensures var verdict := Verdict(Failed, Stats(0, ""), Some(FromCrawl(text)));
              repo.View() == FinalWrites(old(repo.View()), id, workerId, verdict, tries, started + leaseSeconds).0
      ensures old(HeldBy(repo.View(), id, workerId)) && IsAnswered(tries, started + leaseSeconds) ==>
                && id in repo.crawls && repo.crawls[id].state == Failed
                && repo.crawls[id].error == Some(FromCrawl(text)) && repo.crawls[id].stats == Some(Stats(0, ""))
    {
      var verdict := Verdict(Failed, Stats(0, ""), Some(FromCrawl(text)));
      if HeldBy(repo.View(), id, workerId) && IsAnswered(tries, started + leaseSeconds) {
        AnsweredWrite(repo.View(), id, workerId, verdict, tries, started + leaseSeconds);
      }
      var recorded := WriteTerminalState(repo, id, verdict, started, tries);
    }

    /**
     * The closing flush decides whether the pages are complete. Nothing new is written for a lease that is known to be
     * lost, and a refused insert shows that it is. The flusher may still have a batch in flight.
     */
    method DrainPages(repo: CrawlRepository, reporter: DbReporter, flight: Delivery, patient: bool, flush: Delivery,
                      text: string, ghost before: nat)
      returns (flushError: Option<string>, ghost stored: nat)
      requires reporter.workerId == workerId && reporter.Valid() && !reporter.discarded
      requires Backs(repo.pages, reporter.crawlId, reporter.reported, reporter.pagesWritten, before)
      modifies this`interrupt, reporter, repo`pages
      ensures reporter.reported == old(reporter.reported)
      ensures Backs(repo.pages, reporter.crawlId, reporter.reported, reporter.pagesWritten, stored)
      ensures old(interrupt) == Some(LeaseLost) ==>
                interrupt == Some(LeaseLost) && (old(reporter.writing).None? ==> repo.pages == old(repo.pages))
      ensures !HeldBy(repo.View(), reporter.crawlId, workerId) ==> repo.pages == old(repo.pages)
      ensures IsFlushError(flushError, text, old(interrupt), old(reporter.Box()), patient, flush)
      ensures interrupt != old(interrupt) ==>
                interrupt == Some(LeaseLost) && !RunsUnder(repo.View(), reporter.crawlId, workerId)
      ensures interrupt != Some(LeaseLost) && flushError.None? ==> stored == |reporter.reported|
      ensures (repo.View(), interrupt, flushError)
           == Drained(old(repo.View()), reporter.crawlId, workerId, old(reporter.Box()), old(interrupt), flight,
                      patient, flush, text)
    {
      flushError := None;
      if interrupt == Some(LeaseLost) {
        reporter.Discard();
      }
      var outcome;
      outcome, stored := reporter.Close(repo, flight, patient, flush, before);
      match outcome
      case Written =>
      case NotOwner => interrupt := Some(LeaseLost);
      case Errored => flushError := Some(text);
    }

    /**
     * The crawl goes back to the queue, unless a cancel request raced the shutdown. After a refusal the row is looked
     * up; an exchange without a reply propagates, and then nothing more is written.
     */
    method Requeue(repo: CrawlRepository, id: CrawlId, stats: Stats, release: Delivery, lookup: Delivery, started: int,
                   tries: seq<Try>) returns (end: JobEnd)
      modifies repo`crawls
      ensures repo.View()
           == Requeued(old(repo.View()), id, workerId, stats, release, lookup, tries, started + leaseSeconds)
      ensures end.Propagated?
         <==> release != Delivered || (!old(Tables.Release(repo.View(), id, workerId).1) && lookup != Delivered)
    {
      if release == RequestLost {
        return Propagated;
      }
      var released := repo.Release(id, workerId);
      if release == ReplyLost {
        return Propagated;
      }
      if released {
        return Ended(Queued);
      }
      if lookup != Delivered {
        return Propagated;
      }
      var stored := repo.Get(id);
      var recorded := WriteTerminalState(repo, id, Verdict(Aborted, stats, Some(CancelledByRequest)), started, tries);
      return Ended(Aborted);
    }

    method Record(repo: CrawlRepository, id: CrawlId, verdict: Verdict, release: Delivery, lookup: Delivery,
                  started: int, tries: seq<Try>) returns (end: JobEnd)
      requires IsTerminal(verdict.state)
      modifies repo`crawls
      ensures repo.View()
           == RecordedDb(old(repo.View()), id, workerId, interrupt, verdict, release, lookup, tries,
                         started + leaseSeconds)
    {
      if interrupt == Some(LeaseLost) {
        return Ended(verdict.state);
      }
      if interrupt == Some(Stopped) {
        end := Requeue(repo, id, verdict.stats, release, lookup, started, tries);
        return;
      }
      var recorded := WriteTerminalState(repo, id, verdict, started, tries);
      return Ended(verdict.state);
    }

    /**
     * The end of `run_job`, from the outcome of the crawl on. Whatever is lost on the way: a crawl recorded as finished
     * has all its pages stored, and as many as its stats say. If a final write is answered before the worker gives up,
     * the row says how the crawl ended, or is back in the queue on shutdown. A lost lease, known to the worker or not,
     * leaves the row alone.
     */
    method Settle(repo: CrawlRepository, reporter: DbReporter, how: Ending, stats: Stats, flight: Delivery,
                  patient: bool, flush: Delivery, text: string, release: Delivery, lookup: Delivery, started: int,
                  tries: seq<Try>, ghost before: nat)
      returns (end: JobEnd, ghost flushError: Option<string>)
      requires how.Interrupted? ==> interrupt.Some?
      requires reporter.workerId == workerId && reporter.Valid() && !reporter.discarded
      requires stats.pagesTotal == |reporter.reported|
      requires Backs(repo.pages, reporter.crawlId, reporter.reported, reporter.pagesWritten, before)
      requires HeldBy(repo.View(), reporter.crawlId, workerId) ==> repo.crawls[reporter.crawlId].state == Running
      modifies this`interrupt, reporter, repo
      ensures var id := reporter.crawlId;
              old(HeldBy(repo.View(), id, workerId)) && id in repo.crawls
                && repo.crawls[id].state == CrawlState.Finished ==>
                && how.Completed? && repo.crawls[id].stats == Some(stats) && repo.crawls[id].error == None
                && StoresPrefix(repo.pages, id, reporter.reported, stats.pagesTotal)
      ensures IsFlushError(flushError, text, old(interrupt), old(reporter.Box()), patient, flush)
      ensures repo.View()
           == SettledDb(old(repo.View()), reporter.crawlId, workerId, old(reporter.Box()), old(interrupt), how, stats,
                        flight, patient, flush, text, release, lookup, tries, started + leaseSeconds)
      ensures old(HeldBy(repo.View(), reporter.crawlId, workerId)) && release == lookup == Delivered
              && IsAnswered(tries, started + leaseSeconds) ==>
                && reporter.crawlId in repo.crawls
                && SettlesAs(repo.crawls[reporter.crawlId], how, old(interrupt),
                             old(repo.crawls)[reporter.crawlId].cancelRequested, stats, flushError)
      ensures !old(HeldBy(repo.View(), reporter.crawlId, workerId)) ==> repo.View() == old(repo.View())
      ensures old(interrupt) == Some(LeaseLost) ==> repo.crawls == old(repo.crawls)
    {
      var id := reporter.crawlId;
      var (state, error) := Outcome(how, interrupt);
      ghost var raised, deadline := interrupt, started + leaseSeconds;
      var failed;
      ghost var stored;
      failed, stored := DrainPages(repo, reporter, flight, patient, flush, text, before);
      flushError := failed;
      var (finalState, finalError) := AfterFlush(state, error, failed);
      RecordedVerdict(repo.View(), id, workerId, how, raised, interrupt, stats, failed, release, lookup, tries,
                      deadline);
      end := Record(repo, id, Verdict(finalState, stats, finalError), release, lookup, started, tries);
    }
  }
}
