/** What `DbReporter` holds between its calls, and what each call does to it. */
module Reporting {
  import opened Options
  import opened Tables

  datatype PageError = PageError(kind: string, message: string)

  /** A crawled page as the crawler reports it, before it has a number, and the reporter's clock when it does. */
  datatype PageResult = PageResult(url: string, status: Option<int>, error: Option<PageError>, links: seq<string>,
                                   clock: int)

  /** How an exchange with the database ended for the client. */
  datatype Delivery = Delivered | ReplyLost | RequestLost

  /** `inFlight` is the batch being inserted, while the writing lock is held. */
  datatype Outbox = Outbox(buffer: seq<PageRow>, seqNo: nat, written: nat, inFlight: Option<seq<PageRow>>)

  const EMPTY := Outbox([], 0, 0, None)

  function RowOf(number: nat, page: PageResult): PageRow {
    PageRow(number, page.url, page.status,
            if page.error.None? then None else Some(page.error.value.kind),
            if page.error.None? then None else Some(page.error.value.message), page.links, page.clock)
  }

  function Report(box: Outbox, page: PageResult): Outbox {
    box.(seqNo := box.seqNo + 1, buffer := box.buffer + [RowOf(box.seqNo + 1, page)])
  }

  function Discard(box: Outbox): Outbox {
    box.(buffer := [])
  }

  /** The lock is free and there is something to write. */
  predicate CanFlush(box: Outbox) {
    box.inFlight.None? && box.buffer != []
  }

  function BeginFlush(box: Outbox): Outbox {
    box.(inFlight := Some(box.buffer))
  }

  /** The rows leave the buffer only once the insert is known to have committed. */
  function EndFlush(box: Outbox, committed: bool): Outbox
    requires box.inFlight.Some?
  {
    var n := |box.inFlight.value|;
    if !committed then box.(inFlight := None)
    else box.(inFlight := None, buffer := if n <= |box.buffer| then box.buffer[n..] else [], written := box.written + n)
  }

  /** The outbox of a reporter that was given `pages`: the unwritten ones wait in order, or were all discarded. */
  ghost predicate Holds(box: Outbox, pages: seq<PageRow>, discarded: bool) {
    && box.seqNo == |pages| && box.written <= |pages|
    && box.buffer == (if discarded then [] else pages[box.written..])
    && (box.inFlight.Some? ==>
          var batch := box.inFlight.value;
          0 < |batch| <= |pages| - box.written && batch == pages[box.written..box.written + |batch|])
  }

  lemma ReportHolds(box: Outbox, pages: seq<PageRow>, page: PageResult)
    requires Holds(box, pages, false)
    ensures Holds(Report(box, page), pages + [RowOf(box.seqNo + 1, page)], false)
  {
    var more := pages + [RowOf(box.seqNo + 1, page)];
    assert more[box.written..] == pages[box.written..] + [RowOf(box.seqNo + 1, page)];
    if box.inFlight.Some? {
      var upTo := box.written + |box.inFlight.value|;
      assert more[box.written..upTo] == pages[box.written..upTo];
    }
  }

  lemma BeginFlushHolds(box: Outbox, pages: seq<PageRow>, discarded: bool)
    requires Holds(box, pages, discarded) && CanFlush(box)
    ensures Holds(BeginFlush(box), pages, discarded)
  {
    assert box.buffer == pages[box.written..box.written + |box.buffer|];
  }

  lemma EndFlushHolds(box: Outbox, pages: seq<PageRow>, discarded: bool, committed: bool)
    requires Holds(box, pages, discarded) && box.inFlight.Some?
    ensures Holds(EndFlush(box, committed), pages, discarded)
  {
  }
}
