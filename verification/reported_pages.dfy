/** From the pages a crawl emits to the rows a client is shown: nothing is changed, swapped or lost on the way. */
module ReportedPages {
  import opened Options
  import opened Tables
  import opened Reporting
  import opened Repository
  import opened Leases
  import opened LeaseInvariants
  import opened LeaseSteps
  import opened LeaseTheorems
  import opened LeaseClock
  import opened Paging

  /** A stored row read back into the page it was made of. */
  function ReadBack(row: PageRow): PageResult {
    var message := if row.errorMessage.None? then "" else row.errorMessage.value;
    var error := if row.errorKind.None? then None else Some(PageError(row.errorKind.value, message));
    PageResult(row.url, row.status, error, row.links, row.fetchedAt)
  }

  /** The row says what the page said, and kind and message of an error are there together. */
  ghost predicate Says(row: PageRow, number: nat, page: PageResult) {
    row.number == number && ReadBack(row) == page && (row.errorKind.None? <==> row.errorMessage.None?)
  }

  /** A page emitted by the worker of the latest claim of crawl `id`. */
  predicate Emits(sys: System, event: Event, id: CrawlId) {
    && event.Emit? && event.w in sys.sessions && sys.sessions[event.w].crawl == id
    && sys.sessions[event.w].phase == Crawling && id in sys.logs && sys.sessions[event.w].lease == |sys.logs[id].leases|
  }

  /** The pages emitted since crawl `id` was last claimed, read off the steps alone. */
  function Emitted(maxAttempts: nat, events: seq<Event>, id: CrawlId): seq<PageResult> {
    if |events| == 0 then []
    else
      var before, event := events[..|events| - 1], events[|events| - 1];
      var sys := Reached(maxAttempts, before);
      if ClaimsIt(sys, event, id) then []
      else Emitted(maxAttempts, before, id) + if Emits(sys, event, id) then [event.page] else []
  }

  ghost predicate SaysAll(rows: seq<PageRow>, pages: seq<PageResult>) {
    |rows| == |pages| && forall k | 0 <= k < |rows| :: Says(rows[k], k + 1, pages[k])
  }

  function LastOf(sys: System, id: CrawlId): seq<PageRow> {
    if id in sys.logs then Last(sys.logs[id]) else []
  }

  /** The rows a step adds to the latest lease, or what it leaves of them. */
  ghost predicate AddsTo(sys: System, event: Event, id: CrawlId, rows: seq<PageRow>, rows': seq<PageRow>) {
    if ClaimsIt(sys, event, id) then rows' == []
    else if Emits(sys, event, id) then
      |rows'| == |rows| + 1 && rows'[..|rows|] == rows && Says(rows'[|rows|], |rows| + 1, event.page)
    else rows' == rows
  }

  lemma OutsideReports(sys: System, event: Event, id: CrawlId)
    requires IsOutside(event) && sys.db.crawls.Keys == sys.logs.Keys
    ensures AddsTo(sys, event, id, LastOf(sys, id), LastOf(Apply(sys, event, false), id))
  {
  }

  lemma SessionReports(sys: System, event: Event, id: CrawlId)
    requires !IsOutside(event) && event.w in sys.sessions && SessionFits(sys, event.w)
    ensures AddsTo(sys, event, id, LastOf(sys, id),
                  LastOf(OnSession(sys, event.w, sys.sessions[event.w], event, false), id))
  {
  }

  lemma StepReports(sys: System, event: Event, id: CrawlId)
    requires Inv(sys)
    ensures AddsTo(sys, event, id, LastOf(sys, id), LastOf(Apply(sys, event, false), id))
  {
    if IsOutside(event) {
      OutsideReports(sys, event, id);
    } else {
      OfSession(sys, event.w, event);
      if event.w in sys.sessions {
        Facts(sys, event.w);
        SessionReports(sys, event, id);
      }
    }
  }

  lemma OneMoreEmitted(maxAttempts: nat, events: seq<Event>, event: Event, id: CrawlId, rows: seq<PageRow>,
                       rows': seq<PageRow>)
    requires SaysAll(rows, Emitted(maxAttempts, events, id))
    requires AddsTo(Reached(maxAttempts, events), event, id, rows, rows')
    ensures SaysAll(rows', Emitted(maxAttempts, events + [event], id))
  {
    assert (events + [event])[..|events + [event]| - 1] == events;
    assert forall k | 0 <= k < |rows| && |rows| < |rows'| :: rows'[..|rows|][k] == rows'[k];
  }

  /** What the log keeps of the latest lease says exactly what that lease emitted, page by page. */
  lemma {:induction false} LogSaysEmitted(maxAttempts: nat, events: seq<Event>, id: CrawlId)
    requires maxAttempts >= 1
    ensures SaysAll(LastOf(Reached(maxAttempts, events), id), Emitted(maxAttempts, events, id))
  {
    if |events| > 0 {
      var before, event := events[..|events| - 1], events[|events| - 1];
      assert events == before + [event];
      LogSaysEmitted(maxAttempts, before, id);
      RunKeeps(maxAttempts, before);
      StepReports(Reached(maxAttempts, before), event, id);
      Extended(maxAttempts, before, event);
      OneMoreEmitted(maxAttempts, before, event, id, LastOf(Reached(maxAttempts, before), id),
                     LastOf(Reached(maxAttempts, events), id));
    }
  }

  /** The table shows the emitted pages: row `k` reads back as the `k`-th page since the crawl was last claimed. */
  lemma StoredPagesReadBack(maxAttempts: nat, events: seq<Event>, id: CrawlId, k: nat)
    requires maxAttempts >= 1 && (id, k) in Reached(maxAttempts, events).db.pages
    ensures var row, pages := Reached(maxAttempts, events).db.pages[(id, k)], Emitted(maxAttempts, events, id);
            1 <= k <= |pages| && Says(row, k, pages[k - 1])
  {
    RunKeeps(maxAttempts, events);
    LogSaysEmitted(maxAttempts, events, id);
    assert (id, k).0 in Reached(maxAttempts, events).db.crawls;
    StoredPagesAreAPrefix(maxAttempts, events, id);
  }

  /** A finished crawl shows every page its last worker emitted, and as many as its stats say. */
  lemma FinishedShowsAll(maxAttempts: nat, events: seq<Event>, id: CrawlId)
    requires maxAttempts >= 1 && id in Reached(maxAttempts, events).db.crawls
    requires Reached(maxAttempts, events).db.crawls[id].state == Finished
    ensures var db, pages := Reached(maxAttempts, events).db, Emitted(maxAttempts, events, id);
            && db.crawls[id].stats.Some? && db.crawls[id].stats.value.pagesTotal == |pages|
            && (forall k: nat :: (id, k) in db.pages <==> 1 <= k <= |pages|)
            && forall k: nat | (id, k) in db.pages :: Says(db.pages[(id, k)], k, pages[k - 1])
  {
    FinishedMeansComplete(maxAttempts, events, id);
    LogSaysEmitted(maxAttempts, events, id);
  }

  /** A client that follows the cursor within one lease is shown the first pages that were emitted, in order. */
  lemma ClientIsShownWhatWasEmitted(maxAttempts: nat, events: seq<Event>, id: CrawlId, calls: seq<Call>)
    requires maxAttempts >= 1 && |calls| > 0 && Follows(maxAttempts, events, id, calls)
    requires calls[0].at <= calls[|calls| - 1].at <= |events|
    requires SameLease(maxAttempts, events, id, calls[0].at, calls[|calls| - 1].at)
    ensures var pages := Emitted(maxAttempts, events[..calls[|calls| - 1].at], id);
            |Read(calls)| <= |pages| && SaysAll(Read(calls), pages[..|Read(calls)|])
  {
    PagingLosesNothing(maxAttempts, events, id, calls);
    LogSaysEmitted(maxAttempts, events[..calls[|calls| - 1].at], id);
  }
}
