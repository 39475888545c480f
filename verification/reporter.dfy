/** `DbReporter`: pages are buffered, numbered and written in batches, and a failed batch is sent again. */
module Reporter {
  import opened Options
  import opened Tables
  import opened Repository
  import opened Reporting
  import opened Leases
  import opened LeaseInvariants
  import opened LeasePages

  /** How `_flush` ended: without an exception, with `LeaseLostError`, or with any other. */
  datatype FlushOutcome = Written | NotOwner | Errored

  /** One round of `run`: the pages reported while it waits and while it inserts, and what became of the insert. */
  datatype Round = Round(waiting: seq<PageResult>, inserting: seq<PageResult>, delivery: Delivery)

  /** The rows that `pages` become when they follow `seqNo` earlier ones. */
  ghost predicate AreRowsOf(rows: seq<PageRow>, seqNo: nat, pages: seq<PageResult>) {
    |rows| == |pages| && forall i | 0 <= i < |pages| :: rows[i] == RowOf(seqNo + i + 1, pages[i])
  }

  lemma OneMoreRow(rows: seq<PageRow>, seqNo: nat, pages: seq<PageResult>, i: nat, row: PageRow)
    requires i < |pages| && AreRowsOf(rows, seqNo, pages[..i]) && row == RowOf(seqNo + i + 1, pages[i])
    ensures AreRowsOf(rows + [row], seqNo, pages[..i + 1])
  {
  }

  /** The table and the answer after an insert of `rows` that was delivered in this way. */
  function Inserted(db: Db, id: CrawlId, w: WorkerId, rows: seq<PageRow>, delivery: Delivery): (Db, FlushOutcome) {
    var (after, accepted) := if delivery == RequestLost then (db, false) else InsertPages(db, id, w, rows);
    (after, if delivery != Delivered then Errored else if accepted then Written else NotOwner)
  }

  /** The table holds rows 1 to `stored` of `reported`, among them all that count as written. */
  ghost predicate Backs(table: PageTable, id: CrawlId, reported: seq<PageRow>, written: nat, stored: nat) {
    written <= stored && StoresPrefix(table, id, reported, stored)
  }

  /** How much is stored once the rows up to `sent` were sent: they too, if they were taken. */
  function StoredAfter(db: Db, id: CrawlId, w: WorkerId, stored: nat, sent: nat, delivery: Delivery): nat {
    if delivery != RequestLost && RunsUnder(db, id, w) && stored < sent then sent else stored
  }

  /** A batch sent again, with more rows behind those that were already taken, still extends the same prefix. */
  lemma InsertedBacks(db: Db, id: CrawlId, w: WorkerId, reported: seq<PageRow>, written: nat, stored: nat,
                      batch: seq<PageRow>, delivery: Delivery)
    requires NumberedFromOne(reported) && Backs(db.pages, id, reported, written, stored)
    requires 0 < |batch| <= |reported| - written && batch == reported[written..written + |batch|]
    ensures var (db', outcome) := Inserted(db, id, w, batch, delivery);
            && Backs(db'.pages, id, reported, if outcome == Written then written + |batch| else written,
                     StoredAfter(db, id, w, stored, written + |batch|, delivery))
            && forall key: (CrawlId, nat) | key.0 != id :: key in db.pages <==> key in db'.pages
  {
    InsertStores(db.pages, id, reported, stored, written, batch);
  }

  /** How the flusher's batch in flight ends: without the patience to wait for it, its reply is never read. */
  function FlightOf(flight: Delivery, patient: bool): Delivery {
    if !patient && flight == Delivered then ReplyLost else flight
  }

  /** The tables and the outbox once the lock is free. */
  function Landed(db: Db, id: CrawlId, w: WorkerId, box: Outbox, flight: Delivery): (Db, Outbox) {
    if box.inFlight.None? then (db, box)
    else
      var (after, outcome) := Inserted(db, id, w, box.inFlight.value, flight);
      (after, EndFlush(box, outcome == Written))
  }

  /** What a flush of the whole buffer leaves. */
  function LastFlush(db: Db, id: CrawlId, w: WorkerId, box: Outbox, delivery: Delivery): (Db, FlushOutcome) {
    if box.buffer == [] then (db, Written) else Inserted(db, id, w, box.buffer, delivery)
  }

  /** How much is stored once the buffer, whose last row is `sent`, was flushed. */
  function StoredBy(db: Db, id: CrawlId, w: WorkerId, box: Outbox, sent: nat, stored: nat, delivery: Delivery): nat {
    if box.buffer == [] then stored else StoredAfter(db, id, w, stored, sent, delivery)
  }

  /** A flush of the whole buffer keeps the table behind the reporter, and stores no less than before. */
  lemma LastFlushBacks(db: Db, id: CrawlId, w: WorkerId, box: Outbox, reported: seq<PageRow>, discarded: bool,
                       stored: nat, delivery: Delivery)
    requires Holds(box, reported, discarded) && NumberedFromOne(reported) && box.inFlight.None?
    requires Backs(db.pages, id, reported, box.written, stored)
    ensures var (after, outcome) := LastFlush(db, id, w, box, delivery);
            var later := StoredBy(db, id, w, box, |reported|, stored, delivery);
            && stored <= later
            && Backs(after.pages, id, reported,
                     if outcome == Written then box.written + |box.buffer| else box.written, later)
  {
    if box.buffer != [] {
      assert box.buffer == reported[box.written..box.written + |box.buffer|];
      InsertedBacks(db, id, w, reported, box.written, stored, box.buffer, delivery);
    }
  }

  /** How much is stored once the batch in flight, if there is one, has ended. */
  function StoredLanded(db: Db, id: CrawlId, w: WorkerId, box: Outbox, stored: nat, delivery: Delivery): nat {
    if box.inFlight.None? then stored
    else StoredAfter(db, id, w, stored, box.written + |box.inFlight.value|, delivery)
  }

  /** So does the end of the batch in flight. */
  lemma LandedBacks(db: Db, id: CrawlId, w: WorkerId, box: Outbox, reported: seq<PageRow>, discarded: bool, stored: nat,
                    delivery: Delivery)
    requires Holds(box, reported, discarded) && NumberedFromOne(reported)
    requires Backs(db.pages, id, reported, box.written, stored)
    ensures var (after, free) := Landed(db, id, w, box, delivery);
            var later := StoredLanded(db, id, w, box, stored, delivery);
            && stored <= later && Backs(after.pages, id, reported, free.written, later)
            && (!HeldBy(after, id, w) ==> after.pages == db.pages)
  {
    if box.inFlight.Some? {
      InsertedBacks(db, id, w, reported, box.written, stored, box.inFlight.value, delivery);
    }
  }

  /** `close`: the batch in flight, then the rest of the buffer, unless the time runs out first. */
  function Closed(db: Db, id: CrawlId, w: WorkerId, box: Outbox, flight: Delivery, patient: bool, delivery: Delivery)
    : (Db, FlushOutcome)
  {
    var (after, free) := Landed(db, id, w, box, FlightOf(flight, patient));
    if box.inFlight.Some? && !patient then (after, Errored) else LastFlush(after, id, w, free, delivery)
  }

  /** How a close ends: it fails only for a lost exchange or a timeout, and is refused only without the row. */
  lemma ClosedOutcome(db: Db, id: CrawlId, w: WorkerId, box: Outbox, flight: Delivery, patient: bool,
                      delivery: Delivery)
    ensures var (after, outcome) := Closed(db, id, w, box, flight, patient, delivery);
            && (box.inFlight.None? && box.buffer == [] ==> outcome == Written && after.pages == db.pages)
            && (delivery == Delivered && (box.inFlight.None? || patient) ==> outcome != Errored)
            && (delivery != Delivered && box.buffer != [] && box.inFlight.None? ==> outcome == Errored)
            && (outcome == NotOwner ==> !RunsUnder(after, id, w))
  {
  }

  lemma BacksMore(table: PageTable, id: CrawlId, reported: seq<PageRow>, more: seq<PageRow>, written: nat, stored: nat)
    requires Backs(table, id, reported, written, stored)
    ensures Backs(table, id, reported + more, written, stored)
  {
    MorePages(table, id, reported, reported + more, stored);
  }

  class DbReporter {
    const crawlId: CrawlId
    const workerId: WorkerId
    const batchSize: nat
    var buffer: seq<PageRow>
    var seqNo: nat
    var pagesWritten: nat
    var writing: Option<seq<PageRow>>
    var full: bool
    var closing: bool
    /** Every row the reporter was given. */
    ghost var reported: seq<PageRow>
    ghost var discarded: bool

    ghost function Box(): Outbox
      reads this
    {
      Outbox(buffer, seqNo, pagesWritten, writing)
    }

    ghost predicate Valid()
      reads this
    {
      Holds(Box(), reported, discarded) && NumberedFromOne(reported)
    }

    constructor (crawlId: CrawlId, workerId: WorkerId, batchSize: nat)
      ensures Valid() && Box() == EMPTY && reported == [] && !discarded && !closing
      ensures this.crawlId == crawlId && this.workerId == workerId && this.batchSize == batchSize
    {
      this.crawlId, this.workerId, this.batchSize := crawlId, workerId, batchSize;
      buffer, seqNo, pagesWritten, writing := [], 0, 0, None;
      full, closing := false, false;
      reported, discarded := [], false;
    }

    method Page(page: PageResult)
      requires Valid() && !discarded
      modifies this`buffer, this`seqNo, this`full, this`reported
      ensures Valid() && Box() == Report(old(Box()), page)
      ensures reported == old(reported) + [RowOf(old(seqNo) + 1, page)]
      ensures |buffer| == |old(buffer)| + 1 && buffer[..|old(buffer)|] == old(buffer)
      ensures var row := buffer[|old(buffer)|];
              && row.number == old(seqNo) + 1 && row.url == page.url && row.status == page.status
              && row.links == page.links && row.fetchedAt == page.clock
              && match page.error
                 case None => row.errorKind == None && row.errorMessage == None
                 case Some(error) => row.errorKind == Some(error.kind) && row.errorMessage == Some(error.message)
      ensures full == (old(full) || |buffer| >= batchSize)
    {
      ReportHolds(Box(), reported, page);
      seqNo := seqNo + 1;
      buffer := buffer + [RowOf(seqNo, page)];
      reported := reported + [RowOf(seqNo, page)];
      if |buffer| >= batchSize {
        full := true;
      }
    }

    method Discard()
      requires Valid()
      modifies this`buffer, this`discarded
      ensures Valid() && discarded && Box() == Reporting.Discard(old(Box()))
    {
      buffer := [];
      discarded := true;
    }

    method Append(page: PageResult) returns (ghost row: PageRow)
      requires Valid() && !discarded
      modifies this`buffer, this`seqNo, this`full, this`reported
      ensures Valid() && seqNo == old(seqNo) + 1 && row == RowOf(seqNo, page)
      ensures reported == old(reported) + [row] && buffer == old(buffer) + [row]
    {
      row := RowOf(seqNo + 1, page);
      Page(page);
    }

    /** The pages of a crawl that runs while the reporter does something else. */
    method Pages(pages: seq<PageResult>) returns (ghost newer: seq<PageRow>)
      requires Valid() && !discarded
      modifies this`buffer, this`seqNo, this`full, this`reported
      ensures Valid() && seqNo == old(seqNo) + |pages| && AreRowsOf(newer, old(seqNo), pages)
      ensures reported == old(reported) + newer && buffer == old(buffer) + newer
    {
      newer := [];
      for i := 0 to |pages|
        invariant Valid() && seqNo == old(seqNo) + i && AreRowsOf(newer, old(seqNo), pages[..i])
        invariant reported == old(reported) + newer && buffer == old(buffer) + newer
      {
        ghost var row := Append(pages[i]);
        OneMoreRow(newer, old(seqNo), pages, i, row);
        assert reported == old(reported) + (newer + [row]);
        assert buffer == old(buffer) + (newer + [row]);
        newer := newer + [row];
      }
      assert pages[..|pages|] == pages;
    }

    /**
     * One `_flush`, with the pages that arrive while the insert is awaited. The batch is the whole buffer; it leaves
     * the buffer exactly when the insert is known to have committed, and the newer pages stay behind it.
     */
    method Flush(repo: CrawlRepository, arriving: seq<PageResult>, delivery: Delivery)
      returns (outcome: FlushOutcome, ghost newer: seq<PageRow>)
      requires Valid() && writing.None? && (discarded ==> arriving == [])
      modifies this`buffer, this`seqNo, this`full, this`reported, this`writing, this`pagesWritten, repo`pages
      ensures Valid() && writing.None? && reported == old(reported) + newer
      ensures old(buffer) == [] ==>
                outcome == Written && newer == [] && repo.View() == old(repo.View()) && Box() == old(Box())
      ensures old(buffer) != [] ==>
                && AreRowsOf(newer, old(seqNo), arriving)
                && (repo.View(), outcome) == Inserted(old(repo.View()), crawlId, workerId, old(buffer), delivery)
                && pagesWritten == old(pagesWritten) + (if outcome == Written then |old(buffer)| else 0)
                && buffer == (if outcome == Written then [] else old(buffer)) + newer
    {
      newer := [];
      if buffer == [] {
        return Written, [];
      }
      var rows := buffer;
      TakeLock();
      newer := Pages(arriving);
      outcome := Send(repo, rows, delivery);
      assert buffer[|rows|..] == newer;
      ReleaseLock(outcome == Written);
    }

    /** The batch is what the buffer holds once the lock is taken. */
    method TakeLock()
      requires Valid() && writing.None? && buffer != []
      modifies this`writing
      ensures Valid() && writing == Some(buffer)
    {
      BeginFlushHolds(Box(), reported, discarded);
      writing := Some(buffer);
    }

    /** The batch leaves the buffer if it committed; rows that came behind it stay. */
    method ReleaseLock(committed: bool)
      requires Valid() && writing.Some?
      modifies this`buffer, this`writing, this`pagesWritten
      ensures Valid() && Box() == EndFlush(old(Box()), committed)
    {
      var n := |writing.value|;
      EndFlushHolds(Box(), reported, discarded, committed);
      if committed {
        pagesWritten := pagesWritten + n;
        buffer := if n <= |buffer| then buffer[n..] else [];
      }
      writing := None;
    }

    /** `insert_pages` and what the client learns of it. */
    method Send(repo: CrawlRepository, rows: seq<PageRow>, delivery: Delivery) returns (outcome: FlushOutcome)
      modifies repo`pages
      ensures (repo.View(), outcome) == Inserted(old(repo.View()), crawlId, workerId, rows, delivery)
    {
      var accepted := false;
      if delivery != RequestLost {
        accepted := repo.InsertPages(crawlId, workerId, rows);
      }
      return if delivery != Delivered then Errored else if accepted then Written else NotOwner;
    }

    /**
     * `run`, round after round until `close` stops it: whatever was lost on the way, the table holds a prefix of what
     * was reported, and only `LeaseLostError` ends the loop early.
     */
    method Run(repo: CrawlRepository, rounds: seq<Round>, ghost before: nat)
      returns (outcome: FlushOutcome, ghost stored: nat)
      requires Valid() && writing.None? && !discarded
      requires Backs(repo.pages, crawlId, reported, pagesWritten, before)
      modifies this`buffer, this`seqNo, this`full, this`reported, this`writing, this`pagesWritten, repo`pages
      ensures Valid() && writing.None? && Backs(repo.pages, crawlId, reported, pagesWritten, stored) && before <= stored
      ensures outcome == Written || outcome == NotOwner
      ensures outcome == NotOwner ==> !RunsUnder(repo.View(), crawlId, workerId)
    {
      stored := before;
      outcome := Written;
      for i := 0 to |rounds|
        invariant Valid() && writing.None? && Backs(repo.pages, crawlId, reported, pagesWritten, stored)
                  && before <= stored
        invariant outcome == Written
      {
        ghost var sent := reported;
        ghost var newer := Pages(rounds[i].waiting);
        BacksMore(repo.pages, crawlId, sent, newer, pagesWritten, stored);
        full := false;
        var ended;
        ended, stored := FlushOnce(repo, rounds[i].inserting, rounds[i].delivery, stored);
        if ended == NotOwner {
          return NotOwner, stored;
        }
      }
    }

    /** A flush in a table that backs the reporter leaves one that still does. */
    method FlushOnce(repo: CrawlRepository, arriving: seq<PageResult>, delivery: Delivery, ghost before: nat)
      returns (outcome: FlushOutcome, ghost stored: nat)
      requires Valid() && writing.None? && (discarded ==> arriving == [])
      requires Backs(repo.pages, crawlId, reported, pagesWritten, before)
      modifies this`buffer, this`seqNo, this`full, this`reported, this`writing, this`pagesWritten, repo`pages
      ensures Valid() && writing.None? && (arriving == [] ==> reported == old(reported))
      ensures Backs(repo.pages, crawlId, reported, pagesWritten, stored) && before <= stored
      ensures old(buffer) == [] ==> outcome == Written && repo.pages == old(repo.pages)
      ensures !discarded && outcome == Written && arriving == [] ==>
                buffer == [] && stored == |reported| == pagesWritten
      ensures !HeldBy(repo.View(), crawlId, workerId) ==> repo.pages == old(repo.pages)
      ensures outcome == Errored <==> delivery != Delivered && old(buffer) != []
      ensures outcome == NotOwner ==> buffer != [] && !RunsUnder(repo.View(), crawlId, workerId)
      ensures (repo.View(), outcome) == LastFlush(old(repo.View()), crawlId, workerId, old(Box()), delivery)
    {
      ghost var sent := reported;
      LastFlushBacks(repo.View(), crawlId, workerId, Box(), reported, discarded, before, delivery);
      stored := StoredBy(repo.View(), crawlId, workerId, Box(), |reported|, before, delivery);
      ghost var newer;
      outcome, newer := Flush(repo, arriving, delivery);
      BacksMore(repo.pages, crawlId, sent, newer, pagesWritten, stored);
    }

    /** The lock is free once the insert of the flusher's batch in flight, if there is one, has ended either way. */
    method AwaitLock(repo: CrawlRepository, delivery: Delivery, ghost before: nat) returns (ghost stored: nat)
      requires Valid() && Backs(repo.pages, crawlId, reported, pagesWritten, before)
      modifies this`buffer, this`writing, this`pagesWritten, repo`pages
      ensures Valid() && writing.None? && Backs(repo.pages, crawlId, reported, pagesWritten, stored) && before <= stored
      ensures (repo.View(), Box()) == Landed(old(repo.View()), crawlId, workerId, old(Box()), delivery)
      ensures !HeldBy(repo.View(), crawlId, workerId) ==> repo.pages == old(repo.pages)
    {
      LandedBacks(repo.View(), crawlId, workerId, Box(), reported, discarded, before, delivery);
      stored := StoredLanded(repo.View(), crawlId, workerId, Box(), before, delivery);
      if writing.Some? {
        var outcome := Send(repo, writing.value, delivery);
        ReleaseLock(outcome == Written);
      }
    }

    /**
     * A close without an exception leaves nothing behind: everything reported is stored, unless it was discarded. The
     * flusher may still hold the lock with a batch in flight; `patient` says that the timeout leaves time for it.
     */
    method Close(repo: CrawlRepository, flight: Delivery, patient: bool, delivery: Delivery, ghost before: nat)
      returns (outcome: FlushOutcome, ghost stored: nat)
      requires Valid() && Backs(repo.pages, crawlId, reported, pagesWritten, before)
      modifies this`buffer, this`seqNo, this`full, this`closing, this`reported, this`writing, this`pagesWritten
      modifies repo`pages
      ensures Valid() && writing.None? && closing && reported == old(reported) && discarded == old(discarded)
      ensures Backs(repo.pages, crawlId, reported, pagesWritten, stored) && before <= stored
      ensures !discarded && outcome == Written ==> buffer == [] && stored == |reported| == pagesWritten
      ensures !HeldBy(repo.View(), crawlId, workerId) ==> repo.pages == old(repo.pages)
      ensures old(writing).None? && old(buffer) == [] ==> outcome == Written && repo.pages == old(repo.pages)
      ensures delivery == Delivered && (old(writing).None? || patient) ==> outcome != Errored
      ensures delivery != Delivered && old(buffer) != [] && old(writing).None? ==> outcome == Errored
      ensures outcome == NotOwner ==> !RunsUnder(repo.View(), crawlId, workerId)
      ensures (repo.View(), outcome)
           == Closed(old(repo.View()), crawlId, workerId, old(Box()), flight, patient, delivery)
    {
      closing, full := true, true;
      var timedOut := writing.Some? && !patient;
      stored := AwaitLock(repo, FlightOf(flight, patient), before);
      if timedOut {
        outcome := Errored;
      } else {
        outcome, stored := FlushOnce(repo, [], delivery, stored);
      }
      ClosedOutcome(old(repo.View()), crawlId, workerId, old(Box()), flight, patient, delivery);
    }
  }
}
